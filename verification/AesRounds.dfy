/** The rounds of decryption, column by column: what every packed word of the decryptor stands for. */
module AesRounds {
  import opened GaloisField
  import opened Rijndael
  import opened Fips197
  import opened AesTables
  import opened AesLookups
  import BlockCipher

  ghost function Cipher(): BlockCipher.Steps<State<bv8>> {
    Aes(ByteAlgebra())
  }

  /** Word i of the expanded key. */
  ghost function KeyCol(key: State<bv8>, i: nat): Column<bv8> {
    KeyWord(ByteAlgebra(), key, i)
  }

  ghost function Keys(key: State<bv8>): BlockCipher.Keys<State<bv8>> {
    RoundKeys(ByteAlgebra(), key)
  }

  lemma KeysColumns(key: State<bv8>, r: nat)
    ensures Keys(key)(r) == State(KeyCol(key, 4 * r), KeyCol(key, 4 * r + 1), KeyCol(key, 4 * r + 2), KeyCol(key, 4 * r + 3))
  {
    hide KeyWord, ByteAlgebra;
  }

  lemma KeyColStep(key: State<bv8>, i: nat)
    ensures i < 4 ==> KeyCol(key, i) == Nth(key, i)
    ensures i >= 4 ==> KeyCol(key, i) == AddCol(KeyCol(key, i - 4), Temp(ByteAlgebra(), KeyCol(key, i - 1), i))
  {
    hide ByteAlgebra, AddColumns, Temp;
  }

  // ---- the schedule for decryption

  /** Where word i of the decryption schedule comes from: rounds reversed, columns in the order 0, 3, 2, 1. */
  function Source(i: nat): (at: nat)
    requires i < 44
    ensures at < 44
  {
    4 * (10 - i / 4) + (4 - i % 4) % 4
  }

  /** Word i of the decryption schedule: the inner rounds are inverse-mixed. */
  ghost function InvKeyCol(key: State<bv8>, i: nat): Column<bv8>
    requires i < 44
  {
    if i < 4 || i >= 40 then KeyCol(key, Source(i)) else UnmixCol(KeyCol(key, Source(i)))
  }

  // ---- one round

  lemma AddState(a: State<bv8>, b: State<bv8>)
    ensures Cipher().add(a, b) == State(AddCol(a.c0, b.c0), AddCol(a.c1, b.c1), AddCol(a.c2, b.c2), AddCol(a.c3, b.c3))
  {
    hide AddColumns, ByteAlgebra;
  }

  lemma UnmixState(a: State<bv8>)
    ensures Cipher().unmix(a) == State(UnmixCol(a.c0), UnmixCol(a.c1), UnmixCol(a.c2), UnmixCol(a.c3))
  {
    hide InvMixColumn, ByteAlgebra;
  }

  lemma UnscrambleState(a: State<bv8>)
    ensures Cipher().unscramble(a)
            == State(UnsubCol(Diagonal(a.c0, a.c3, a.c2, a.c1)), UnsubCol(Diagonal(a.c1, a.c0, a.c3, a.c2)),
                     UnsubCol(Diagonal(a.c2, a.c1, a.c0, a.c3)), UnsubCol(Diagonal(a.c3, a.c2, a.c1, a.c0)))
  {
    hide SubColumn, ByteAlgebra;
  }

  /** The state of the equivalent inverse cipher after k rounds. */
  ghost function After(key: State<bv8>, s: State<bv8>, k: nat): State<bv8>
    requires k <= 9
  {
    BlockCipher.Equivalent(Cipher(), Keys(key), s, k)
  }

  lemma FirstRound(key: State<bv8>, s: State<bv8>)
    ensures After(key, s, 0) == State(AddCol(s.c0, InvKeyCol(key, 0)), AddCol(s.c1, InvKeyCol(key, 3)),
                                      AddCol(s.c2, InvKeyCol(key, 2)), AddCol(s.c3, InvKeyCol(key, 1)))
  {
    hide Cipher, Keys, KeyCol, AddCol;
    KeysColumns(key, 10);
    AddState(s, Keys(key)(10));
  }

  /** A column of an inner round, from the columns a diagonal of the state passes through. */
  ghost function InnerCol(a: Column<bv8>, b: Column<bv8>, c: Column<bv8>, d: Column<bv8>, k: Column<bv8>): Column<bv8> {
    AddCol(UnmixCol(UnsubCol(Diagonal(a, b, c, d))), k)
  }

  /** A column of the last round. */
  ghost function LastCol(a: Column<bv8>, b: Column<bv8>, c: Column<bv8>, d: Column<bv8>, k: Column<bv8>): Column<bv8> {
    AddCol(UnsubCol(Diagonal(a, b, c, d)), k)
  }

  /** The round keys of the inner rounds. */
  lemma InnerKeys(key: State<bv8>, k: nat)
    requires 1 <= k <= 9
    ensures InvKeyCol(key, 4 * k) == UnmixCol(KeyCol(key, 4 * (10 - k))) && InvKeyCol(key, 4 * k + 3) == UnmixCol(KeyCol(key, 4 * (10 - k) + 1))
    ensures InvKeyCol(key, 4 * k + 2) == UnmixCol(KeyCol(key, 4 * (10 - k) + 2))
    ensures InvKeyCol(key, 4 * k + 1) == UnmixCol(KeyCol(key, 4 * (10 - k) + 3))
  {
    hide KeyCol, UnmixCol;
  }

  lemma InnerRound(key: State<bv8>, s: State<bv8>, k: nat)
    requires 1 <= k <= 9
    ensures var p := After(key, s, k - 1);
            After(key, s, k) == State(InnerCol(p.c0, p.c3, p.c2, p.c1, InvKeyCol(key, 4 * k)),
                                      InnerCol(p.c1, p.c0, p.c3, p.c2, InvKeyCol(key, 4 * k + 3)),
                                      InnerCol(p.c2, p.c1, p.c0, p.c3, InvKeyCol(key, 4 * k + 2)),
                                      InnerCol(p.c3, p.c2, p.c1, p.c0, InvKeyCol(key, 4 * k + 1)))
  {
    hide Cipher, Keys, KeyCol, AddCol, UnmixCol, UnsubCol, Diagonal, KeyWord, InvKeyCol;
    InnerKeys(key, k);
    var p := After(key, s, k - 1);
    var u := Cipher().unscramble(p);
    var key' := Keys(key)(10 - k);
    KeysColumns(key, 10 - k);
    UnscrambleState(p);
    UnmixState(u);
    UnmixState(key');
    AddState(Cipher().unmix(u), Cipher().unmix(key'));
  }

  lemma LastRound(key: State<bv8>, s: State<bv8>, last: nat)
    requires last == 9
    ensures var p := After(key, s, last);
            BlockCipher.InvCipher(Cipher(), Keys(key), s)
            == State(LastCol(p.c0, p.c3, p.c2, p.c1, InvKeyCol(key, 4 * last + 4)), LastCol(p.c1, p.c0, p.c3, p.c2, InvKeyCol(key, 4 * last + 7)),
                     LastCol(p.c2, p.c1, p.c0, p.c3, InvKeyCol(key, 4 * last + 6)), LastCol(p.c3, p.c2, p.c1, p.c0, InvKeyCol(key, 4 * last + 5)))
  {
    hide Cipher, Keys, KeyCol, AddCol, UnsubCol, Diagonal, BlockCipher.Lawful, BlockCipher.Equivalent, BlockCipher.Backward;
    CipherLawful();
    BlockCipher.EquivalentIsBackward(Cipher(), Keys(key), s, last);
    var p := After(key, s, last);
    KeysColumns(key, 0);
    UnscrambleState(p);
    AddState(Cipher().unscramble(p), Keys(key)(0));
  }

  lemma CipherLawful()
    ensures BlockCipher.Lawful(Cipher())
  {
    hide Rijndael.Lawful, BlockCipher.Lawful;
    BytesLawful();
    AesLawful(ByteAlgebra());
  }
}
