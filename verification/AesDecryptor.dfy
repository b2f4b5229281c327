/** The decryptor object: its key schedules, its cache of the last key, and the decryption of chained blocks. */
module AesDecryptor {
  import opened GaloisField
  import opened Rijndael
  import opened Fips197
  import opened AesTables
  import opened AesLookups
  import opened AesRounds
  import opened AesBuffers
  import BlockCipher

  // ---- key schedules

  /** The state of four words. */
  function StateOf(w: seq<bv32>): State<bv8>
    requires |w| == 4
  {
    State(Unpack(w[0]), Unpack(w[1]), Unpack(w[2]), Unpack(w[3]))
  }

  ghost predicate Scheduled(key: State<bv8>, schedule: array<bv32>)
    reads schedule
  {
    schedule.Length == 44 && forall i: nat :: i < 44 ==> schedule[i] == Pack(KeyCol(key, i))
  }

  ghost predicate InvScheduled(key: State<bv8>, schedule: array<bv32>)
    reads schedule
  {
    schedule.Length == 44 && forall i: nat :: i < 44 ==> schedule[i] == Pack(InvKeyCol(key, i))
  }

  lemma RotWordPacked(c: Column<bv8>)
    ensures RotateBy8(Pack(c)) == Pack(RotWord(c))
  {
    hide Word;
    RotateLeft(c.r0, c.r1, c.r2, c.r3);
  }

  lemma {:induction false} RconPacked(j: nat)
    requires 1 <= j <= 10
    ensures |RCON| == 11 && RCON[j] << 24 == Pack(Column(Rcon(j), 0, 0, 0))
  {
    hide Rcon, Wide, Word;
    RconTable(j);
    TopByte(Rcon(j));
  }

  lemma {:induction false} TempCol(c: Column<bv8>, i: nat)
    ensures Temp(ByteAlgebra(), c, i)
            == if i % 4 == 0 then AddCol(SubCol(RotWord(c)), Column(Rcon(i / 4), 0, 0, 0)) else c
  {
    hide ByteAlgebra, AddColumns, SubColumn, Rcon;
  }

  /** The word to add for position i of the expanded key, from the word before it. */
  method NextTemp(tables: Tables, ghost c: Column<bv8>, i: nat, prev: bv32) returns (t: bv32)
    requires tables.Filled() && prev == Pack(c) && 4 <= i < 44
    ensures t == Pack(Temp(ByteAlgebra(), c, i))
  {
    hide *;
    t := prev;
    TempCol(c, i);
    if i % 4 == 0 {
      RotWordPacked(c);
      t := tables.SubstituteWord(RotWord(c), RotateBy8(t));
      RconPacked(i / 4);
      AddColWords(SubCol(RotWord(c)), Column(Rcon(i / 4), 0, 0, 0));
      t := XorWords(t, RCON[i / 4] << 24);
    }
  }

  lemma KeyPacked(k: seq<bv32>, i: nat)
    requires |k| == 4 && i < 4
    ensures k[i] == Pack(KeyCol(StateOf(k), i))
  {
    hide Pack, Unpack;
    KeyColStep(StateOf(k), i);
    PackUnpack(k[i]);
  }

  method ExpandWords(tables: Tables, key: seq<bv32>) returns (schedule: array<bv32>)
    requires tables.Filled() && |key| == 4
    ensures fresh(schedule) && Scheduled(StateOf(key), schedule)
  {
    hide Pack, KeyCol, StateOf, Temp, AddCol, tables.Filled;
    ghost var k := StateOf(key);
    schedule := new bv32[44];
    var prev := 0;
    for row := 0 to 44
      invariant row > 0 ==> prev == Pack(KeyCol(k, row - 1))
      invariant forall i: nat :: i < row ==> schedule[i] == Pack(KeyCol(k, i))
    {
      if row < 4 {
        KeyPacked(key, row);
        prev := key[row];
      } else {
        ghost var before := KeyCol(k, row - 1);
        var t := NextTemp(tables, before, row, prev);
        KeyColStep(k, row);
        AddColWords(KeyCol(k, row - 4), Temp(ByteAlgebra(), before, row));
        prev := XorWords(schedule[row - 4], t);
      }
      schedule[row] := prev;
    }
  }

  /** Inverse mixing of a key word, through the substitution and the tables that undo it. */
  method InvMixWord(tables: Tables, ghost c: Column<bv8>, t: bv32) returns (w: bv32)
    requires tables.Filled() && t == Pack(c)
    ensures w == Pack(UnmixCol(c))
  {
    hide *;
    UnpackPack(c);
    SubColUndone(c);
    var b := Unpack(t);
    var y0 := tables.SubstitutedByte(b.r0);
    var y1 := tables.SubstitutedByte(b.r1);
    var y2 := tables.SubstitutedByte(b.r2);
    var y3 := tables.SubstitutedByte(b.r3);
    w := tables.Mixed(y0, y1, y2, y3);
  }

  lemma SubColUndone(c: Column<bv8>)
    ensures UnsubCol(Column(SubByte(c.r0), SubByte(c.r1), SubByte(c.r2), SubByte(c.r3))) == c
  {
    hide UnsubCol, SubByte, InvSubByte;
    UnsubColBytes(SubByte(c.r0), SubByte(c.r1), SubByte(c.r2), SubByte(c.r3));
    SubByteUndone(c.r0);
    SubByteUndone(c.r1);
    SubByteUndone(c.r2);
    SubByteUndone(c.r3);
  }

  method InvertWord(tables: Tables, ghost k: State<bv8>, keySchedule: array<bv32>, i: nat) returns (w: bv32)
    requires tables.Filled() && Scheduled(k, keySchedule) && i < 44
    ensures w == Pack(InvKeyCol(k, i))
  {
    hide Pack, KeyCol, UnmixCol, tables.Filled;
    var row := 44 - i;
    var t := if i % 4 != 0 then keySchedule[row] else keySchedule[row - 4];
    if i < 4 || row <= 4 {
      w := t;
    } else {
      w := InvMixWord(tables, KeyCol(k, Source(i)), t);
    }
  }

  /** The schedule for decryption. */
  method InvertSchedule(tables: Tables, ghost k: State<bv8>, keySchedule: array<bv32>) returns (schedule: array<bv32>)
    requires tables.Filled() && Scheduled(k, keySchedule)
    ensures fresh(schedule) && InvScheduled(k, schedule)
  {
    hide Pack, InvKeyCol, KeyCol, tables.Filled;
    schedule := new bv32[44];
    for i := 0 to 44
      invariant forall j: nat :: j < i ==> schedule[j] == Pack(InvKeyCol(k, j))
    {
      var w := InvertWord(tables, k, keySchedule, i);
      schedule[i] := w;
    }
  }

  // ---- one block

  /** Four words of the state, in the order of columns 0, 3, 2, 1. */
  ghost predicate Holds(s: State<bv8>, s0: bv32, s1: bv32, s2: bv32, s3: bv32) {
    s0 == Pack(s.c0) && s1 == Pack(s.c3) && s2 == Pack(s.c2) && s3 == Pack(s.c1)
  }

  /** One word of an inner round. */
  method InnerWord(tables: Tables, ghost a: Column<bv8>, ghost b: Column<bv8>, ghost c: Column<bv8>, ghost d: Column<bv8>,
                   ghost k: Column<bv8>, s0: bv32, s1: bv32, s2: bv32, s3: bv32, key: bv32)
    returns (t: bv32)
    requires tables.Filled() && key == Pack(k)
    requires s0 == Pack(a) && s1 == Pack(b) && s2 == Pack(c) && s3 == Pack(d)
    ensures t == Pack(InnerCol(a, b, c, d, k))
  {
    hide *;
    UnpackPack(a);
    UnpackPack(b);
    UnpackPack(c);
    UnpackPack(d);
    t := tables.Mixed(Unpack(s0).r0, Unpack(s1).r1, Unpack(s2).r2, Unpack(s3).r3);
    InnerColIs(a, b, c, d, k);
    AddColWords(UnmixCol(UnsubCol(Column(a.r0, b.r1, c.r2, d.r3))), k);
    t := XorWords(t, key);
  }

  lemma InnerColIs(a: Column<bv8>, b: Column<bv8>, c: Column<bv8>, d: Column<bv8>, k: Column<bv8>)
    ensures InnerCol(a, b, c, d, k) == AddCol(UnmixCol(UnsubCol(Column(a.r0, b.r1, c.r2, d.r3))), k)
    ensures LastCol(a, b, c, d, k) == AddCol(UnsubCol(Column(a.r0, b.r1, c.r2, d.r3)), k)
  {
    hide AddCol, UnmixCol, UnsubCol;
  }

  /** One word of the last round. */
  method LastWord(tables: Tables, ghost a: Column<bv8>, ghost b: Column<bv8>, ghost c: Column<bv8>, ghost d: Column<bv8>,
                  ghost k: Column<bv8>, s0: bv32, s1: bv32, s2: bv32, s3: bv32, key: bv32)
    returns (t: bv32)
    requires tables.Filled() && key == Pack(k)
    requires s0 == Pack(a) && s1 == Pack(b) && s2 == Pack(c) && s3 == Pack(d)
    ensures t == Pack(LastCol(a, b, c, d, k))
  {
    hide *;
    UnpackPack(a);
    UnpackPack(b);
    UnpackPack(c);
    UnpackPack(d);
    t := tables.UnsubstitutedColumn(Unpack(s0).r0, Unpack(s1).r1, Unpack(s2).r2, Unpack(s3).r3);
    InnerColIs(a, b, c, d, k);
    AddColWords(UnsubCol(Column(a.r0, b.r1, c.r2, d.r3)), k);
    t := XorWords(t, key);
  }

  /** The rounds of one block: input words in order, output words in the order of columns 0, 3, 2, 1. */
  method DecryptRounds(tables: Tables, ghost k: State<bv8>, invKeySchedule: array<bv32>, ghost s: State<bv8>,
                       w0: bv32, w1: bv32, w2: bv32, w3: bv32)
    returns (t0: bv32, t1: bv32, t2: bv32, t3: bv32)
    requires tables.Filled() && InvScheduled(k, invKeySchedule)
    requires Holds(s, w0, w3, w2, w1)
    ensures Holds(BlockCipher.InvCipher(Cipher(), Keys(k), s), t0, t1, t2, t3)
  {
    hide Pack, InvKeyCol, KeyCol, AddCol, After, InnerCol, LastCol, Keys, Cipher, BlockCipher.InvCipher, tables.Filled;
    var s0 := XorWords(w0, invKeySchedule[0]);
    var s1 := XorWords(w3, invKeySchedule[1]);
    var s2 := XorWords(w2, invKeySchedule[2]);
    var s3 := XorWords(w1, invKeySchedule[3]);
    FirstRound(k, s);
    AddColWords(s.c0, InvKeyCol(k, 0));
    AddColWords(s.c3, InvKeyCol(k, 1));
    AddColWords(s.c2, InvKeyCol(k, 2));
    AddColWords(s.c1, InvKeyCol(k, 3));
    var ksRow := 4;
    for i := 1 to 10
      invariant ksRow == 4 * i
      invariant Holds(After(k, s, i - 1), s0, s1, s2, s3)
    {
      ghost var p := After(k, s, i - 1);
      t0 := InnerWord(tables, p.c0, p.c3, p.c2, p.c1, InvKeyCol(k, ksRow), s0, s1, s2, s3, invKeySchedule[ksRow]);
      t1 := InnerWord(tables, p.c3, p.c2, p.c1, p.c0, InvKeyCol(k, ksRow + 1), s1, s2, s3, s0, invKeySchedule[ksRow + 1]);
      t2 := InnerWord(tables, p.c2, p.c1, p.c0, p.c3, InvKeyCol(k, ksRow + 2), s2, s3, s0, s1, invKeySchedule[ksRow + 2]);
      t3 := InnerWord(tables, p.c1, p.c0, p.c3, p.c2, InvKeyCol(k, ksRow + 3), s3, s0, s1, s2, invKeySchedule[ksRow + 3]);
      InnerRound(k, s, i);
      s0, s1, s2, s3 := t0, t1, t2, t3;
      ksRow := ksRow + 4;
    }
    ghost var last := 9;
    ghost var p := After(k, s, last);
    t0 := LastWord(tables, p.c0, p.c3, p.c2, p.c1, InvKeyCol(k, ksRow), s0, s1, s2, s3, invKeySchedule[ksRow]);
    t1 := LastWord(tables, p.c3, p.c2, p.c1, p.c0, InvKeyCol(k, ksRow + 1), s1, s2, s3, s0, invKeySchedule[ksRow + 1]);
    t2 := LastWord(tables, p.c2, p.c1, p.c0, p.c3, InvKeyCol(k, ksRow + 2), s2, s3, s0, s1, invKeySchedule[ksRow + 2]);
    t3 := LastWord(tables, p.c1, p.c0, p.c3, p.c2, InvKeyCol(k, ksRow + 3), s3, s0, s1, s2, invKeySchedule[ksRow + 3]);
    LastRound(k, s, last);
  }

  // ---- whole buffers

  /** Chained decryption of blocks, section 6.2 of SP 800-38A. */
  ghost function Plain(k: State<bv8>, blocks: seq<State<bv8>>, iv: State<bv8>): (p: seq<State<bv8>>)
    ensures |p| == |blocks|
  {
    BlockCipher.DecryptCbc(Cipher(), Keys(k), blocks, iv)
  }

  lemma PlainBlock(k: State<bv8>, blocks: seq<State<bv8>>, iv: State<bv8>, n: nat)
    requires n < |blocks|
    ensures var p := BlockCipher.InvCipher(Cipher(), Keys(k), blocks[n]);
            var q := if n == 0 then iv else blocks[n - 1];
            Plain(k, blocks, iv)[n]
            == State(AddCol(p.c0, q.c0), AddCol(p.c1, q.c1), AddCol(p.c2, q.c2), AddCol(p.c3, q.c3))
  {
    hide Cipher, Keys, AddCol, BlockCipher.InvCipher;
    AddState(BlockCipher.InvCipher(Cipher(), Keys(k), blocks[n]), if n == 0 then iv else blocks[n - 1]);
  }

  /** Chained encryption of a byte string of whole blocks with the cipher of FIPS 197. */
  ghost function Encrypted(k: State<bv8>, plain: seq<bv8>, iv: State<bv8>): (coded: seq<bv8>)
    requires |plain| % 16 == 0
    ensures |coded| == |plain|
  {
    Flatten(BlockCipher.EncryptCbc(Cipher(), Keys(k), States(plain), iv))
  }

  /** Decrypting the blocks of an encrypted byte string gives the byte string back. */
  lemma EncryptionUndone(k: State<bv8>, plain: seq<bv8>, iv: State<bv8>)
    requires |plain| % 16 == 0
    ensures Flatten(Plain(k, States(Encrypted(k, plain, iv)), iv)) == plain
  {
    hide RoundKeys, Aes, Flatten, States, ByteAlgebra;
    AesCbcUndone(ByteAlgebra(), k, iv, States(plain));
    StatesFlatten(BlockCipher.EncryptCbc(Cipher(), Keys(k), States(plain), iv));
    FlattenStates(plain);
  }

  /** Store a word, or drop it past the end as a typed array does. */
  method Put(out: array<bv32>, at: nat, w: bv32)
    modifies out
    ensures out[..] == if at < out.Length then old(out[..])[at := w] else old(out[..])
  {
    if at < out.Length {
      out[at] := w;
    }
  }

  /** Store the four words of a state. */
  method PutBlock(out: array<bv32>, at: nat, ghost s: State<bv8>, w0: bv32, w1: bv32, w2: bv32, w3: bv32)
    requires Holds(s, w0, w3, w2, w1)
    modifies out
    ensures Written(out[..], at, s)
    ensures forall i :: 0 <= i < out.Length && (i < at || i >= at + 4) ==> out[i] == old(out[i])
  {
    hide Pack, SwapWord;
    Put(out, at, SwapWord(w0));
    Put(out, at + 1, SwapWord(w1));
    Put(out, at + 2, SwapWord(w2));
    Put(out, at + 3, SwapWord(w3));
  }

  lemma Unpacked(s: State<bv8>, w0: bv32, w1: bv32, w2: bv32, w3: bv32)
    requires s == State(Unpack(w0), Unpack(w1), Unpack(w2), Unpack(w3))
    ensures Holds(s, w0, w3, w2, w1)
  {
    hide Pack, Unpack;
    PackUnpack(w0);
    PackUnpack(w1);
    PackUnpack(w2);
    PackUnpack(w3);
  }

  lemma HeldSum(p: State<bv8>, q: State<bv8>, s: State<bv8>,
                t0: bv32, t1: bv32, t2: bv32, t3: bv32, v0: bv32, v1: bv32, v2: bv32, v3: bv32)
    requires Holds(p, t0, t1, t2, t3) && Holds(q, v0, v3, v2, v1)
    requires s == State(AddCol(p.c0, q.c0), AddCol(p.c1, q.c1), AddCol(p.c2, q.c2), AddCol(p.c3, q.c3))
    ensures Holds(s, XorWords(t0, v0), XorWords(t1, v3), XorWords(t2, v2), XorWords(t3, v1))
  {
    hide Pack, AddCol, XorWords;
    AddColWords(p.c0, q.c0);
    AddColWords(p.c1, q.c1);
    AddColWords(p.c2, q.c2);
    AddColWords(p.c3, q.c3);
  }

  /** Decrypt words in host order from an offset on; words before it stay 0. */
  method DecryptWords(tables: Tables, ghost k: State<bv8>, invKeySchedule: array<bv32>,
                      input: seq<bv32>, start: nat, iv: seq<bv32>)
    returns (output: array<bv32>)
    requires tables.Filled() && InvScheduled(k, invKeySchedule)
    requires start <= |input| && |iv| == 4
    ensures fresh(output) && output.Length == |input|
    ensures forall i :: 0 <= i < start ==> output[i] == 0
    ensures forall n: nat :: n < |Blocks(input, start)| ==>
              Written(output[..], start + 4 * n, Plain(k, Blocks(input, start), StateOf(iv))[n])
  {
    hide Pack, Unpack, AddCol, SwapWord, Cipher, Keys, StateOf, BlockCipher.InvCipher, BlockAt, tables.Filled, InvScheduled, Plain,
      Written, Holds;
    output := new bv32[|input|](_ => 0);
    ghost var blocks := Blocks(input, start);
    ghost var plain := Plain(k, blocks, StateOf(iv));
    var v0, v1, v2, v3 := iv[0], iv[1], iv[2], iv[3];
    var offset := start;
    ghost var n := 0;
    ghost var chained := StateOf(iv);
    IvHeld(iv);
    while offset < |input|
      invariant offset == start + 4 * n && n <= |blocks|
      invariant chained == if n == 0 then StateOf(iv) else blocks[n - 1]
      invariant Holds(chained, v0, v3, v2, v1)
      invariant forall i :: 0 <= i < start ==> output[i] == 0
      invariant forall m: nat :: m < n ==> Written(output[..], start + 4 * m, plain[m])
      decreases |input| - offset
    {
      var w0 := SwapWord(WordAt(input, offset));
      var w1 := SwapWord(WordAt(input, offset + 1));
      var w2 := SwapWord(WordAt(input, offset + 2));
      var w3 := SwapWord(WordAt(input, offset + 3));
      BlockHeld(input, start, n, w0, w1, w2, w3);
      var t0, t1, t2, t3 := DecryptRounds(tables, k, invKeySchedule, blocks[n], w0, w1, w2, w3);
      PlainBlock(k, blocks, StateOf(iv), n);
      HeldSum(BlockCipher.InvCipher(Cipher(), Keys(k), blocks[n]), chained, plain[n], t0, t1, t2, t3, v0, v1, v2, v3);
      ghost var before := output[..];
      PutBlock(output, offset, plain[n], XorWords(t0, v0), XorWords(t3, v1), XorWords(t2, v2), XorWords(t1, v3));
      forall m: nat | m < n
        ensures Written(output[..], start + 4 * m, plain[m])
      {
        StillWritten(before, output[..], start + 4 * m, plain[m]);
      }
      v0, v1, v2, v3 := w0, w1, w2, w3;
      chained := blocks[n];
      n := n + 1;
      offset := offset + 4;
    }
  }

  lemma IvHeld(iv: seq<bv32>)
    requires |iv| == 4
    ensures Holds(StateOf(iv), iv[0], iv[3], iv[2], iv[1])
  {
    hide Holds, Unpack;
    Unpacked(StateOf(iv), iv[0], iv[1], iv[2], iv[3]);
  }

  lemma BlockHeld(input: seq<bv32>, start: nat, n: nat, w0: bv32, w1: bv32, w2: bv32, w3: bv32)
    requires start + 4 * n < |input|
    requires w0 == SwapWord(WordAt(input, start + 4 * n)) && w1 == SwapWord(WordAt(input, start + 4 * n + 1))
    requires w2 == SwapWord(WordAt(input, start + 4 * n + 2)) && w3 == SwapWord(WordAt(input, start + 4 * n + 3))
    ensures n < |Blocks(input, start)| && Holds(Blocks(input, start)[n], w0, w3, w2, w1)
  {
    hide Holds, Unpack, SwapWord, WordAt;
    assert Blocks(input, start)[n] == BlockAt(input, start + 4 * n);
    Unpacked(Blocks(input, start)[n], w0, w1, w2, w3);
  }

  lemma StillWritten(before: seq<bv32>, after: seq<bv32>, at: nat, s: State<bv8>)
    requires Written(before, at, s) && |before| == |after|
    requires forall i :: at <= i < at + 4 && i < |before| ==> after[i] == before[i]
    ensures Written(after, at, s)
  {
    hide Pack, SwapWord;
  }

  // ---- the decryptor

  /** The four words of a key or vector buffer. */
  function FourWords(buffer: seq<bv8>): seq<bv32>
    requires |buffer| >= 16
  {
    [BigWord(buffer, 0), BigWord(buffer, 1), BigWord(buffer, 2), BigWord(buffer, 3)]
  }

  method ReadWords(buffer: seq<bv8>) returns (words: seq<bv32>)
    requires |buffer| >= 16
    ensures words == FourWords(buffer)
  {
    hide BigWord;
    words := [];
    for i := 0 to 4
      invariant |words| == i
      invariant forall j :: 0 <= j < i ==> words[j] == BigWord(buffer, j)
    {
      words := words + [BigWord(buffer, i)];
    }
    assert words == [words[0], words[1], words[2], words[3]];
  }

  lemma FourWordsState(buffer: seq<bv8>)
    requires |buffer| >= 16
    ensures StateOf(FourWords(buffer)) == StateAt(buffer, 0)
  {
    hide Pack, Unpack, ColumnAt;
    BigWordColumn(buffer, 0);
    BigWordColumn(buffer, 1);
    BigWordColumn(buffer, 2);
    BigWordColumn(buffer, 3);
  }

  lemma BigWordColumn(buffer: seq<bv8>, i: nat)
    requires 4 * i + 4 <= |buffer|
    ensures Unpack(BigWord(buffer, i)) == ColumnAt(buffer, 4 * i)
  {
    hide Word, Unpack;
    UnpackPack(ColumnAt(buffer, 4 * i));
  }

  class Decryptor {
    const tables: Tables
    var key: seq<bv32>
    var keySchedule: array<bv32>
    var invKeySchedule: array<bv32>

    /** The tables are filled, and both schedules are those of the key that was expanded last. */
    ghost predicate Valid()
      reads this, keySchedule, invKeySchedule, tables.Arrays()
    {
      && tables.Filled()
      && keySchedule !in tables.Arrays() && invKeySchedule !in tables.Arrays()
      && (key == [] || |key| == 4)
      && (key != [] ==> Scheduled(StateOf(key), keySchedule) && InvScheduled(StateOf(key), invKeySchedule))
    }

    constructor ()
      ensures Valid() && key == []
    {
      key := [];
      keySchedule := new bv32[0];
      invKeySchedule := new bv32[0];
      tables := new Tables.Empty();
      new;
      tables.InitTable();
    }

    /** Make the schedules those of the key in the buffer, doing nothing when they already are. */
    method ExpandKey(buffer: seq<bv8>)
      requires Valid() && |buffer| >= 16
      modifies this
      ensures Valid() && key == FourWords(buffer)
      ensures Scheduled(StateAt(buffer, 0), keySchedule) && InvScheduled(StateAt(buffer, 0), invKeySchedule)
      ensures key == old(key) ==> unchanged(this)
    {
      hide tables.Filled, Scheduled, InvScheduled, StateOf, FourWords, StateAt;
      FourWordsState(buffer);
      var words := ReadWords(buffer);
      assert |words| == 4 by { FourWordsLength(buffer); }
      var sameKey := true;
      var offset := 0;
      while offset < 4 && sameKey
        invariant 0 <= offset <= 4
        invariant sameKey <==> offset <= |key| && words[..offset] == key[..offset]
      {
        sameKey := offset < |key| && words[offset] == key[offset];
        offset := offset + 1;
      }
      if sameKey {
        assert words == words[..4] == key[..4] == key;
        return;
      }
      key := words;
      keySchedule := ExpandWords(tables, key);
      invKeySchedule := InvertSchedule(tables, StateOf(key), keySchedule);
    }

    /** Decrypt a buffer, starting at a word offset, under the key expanded last. */
    method Decrypt(input: seq<bv8>, offset: nat, iv: seq<bv8>) returns (output: seq<bv8>)
      requires Valid() && key != []
      requires |input| % 4 == 0 && 4 * offset <= |input| && |iv| >= 16
      ensures |output| == |input|
      ensures offset == 0 && |input| % 16 == 0 ==>
                output == Flatten(Plain(StateOf(key), States(input), StateAt(iv, 0)))
      ensures forall plain: seq<bv8> ::
                offset == 0 && |plain| % 16 == 0 && input == Encrypted(StateOf(key), plain, StateAt(iv, 0)) ==> output == plain
    {
      hide tables.Filled, Scheduled, InvScheduled, StateOf, FourWords, StateAt, States, Words, Flatten, BytesOf, Blocks, Plain, Written,
        Encrypted;
      FourWordsLength(iv);
      FourWordsState(iv);
      var initVector := ReadWords(iv);
      var words := DecryptWords(tables, StateOf(key), invKeySchedule, Words(input), offset, initVector);
      output := BytesOf(words[..]);
      if offset == 0 && |input| % 16 == 0 {
        BlocksAreStates(input);
        WrittenBytes(words[..], Plain(StateOf(key), States(input), StateAt(iv, 0)));
        forall plain: seq<bv8> | |plain| % 16 == 0 && input == Encrypted(StateOf(key), plain, StateAt(iv, 0))
          ensures output == plain
        {
          EncryptionUndone(StateOf(key), plain, StateAt(iv, 0));
        }
      }
    }
  }

  lemma FourWordsLength(buffer: seq<bv8>)
    requires |buffer| >= 16
    ensures |FourWords(buffer)| == 4
  {
  }
}
