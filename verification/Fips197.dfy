/** AES-128 on bytes: the substitution, the key expansion, and the laws that make the cipher of
    BlockCipher and Rijndael the one of FIPS 197. */
module Fips197 {
  import opened GaloisField
  import opened Orbit
  import opened FieldOrbit
  import opened Rijndael
  import BlockCipher

  // ---- the substitution, sections 5.1.1 and 5.3.2

  lemma InverseExists(b: bv8)
    requires b != 0
    ensures exists c :: Mul(b, c) == 1
  {
    var k := VisitsEveryByte(b);
    CountersInverse(k, Iter(Up, k, 1));
  }

  /** The multiplicative inverse, with {00} mapped to itself. */
  ghost function Inverse(b: bv8): (c: bv8)
    ensures if b == 0 then c == 0 else Mul(b, c) == 1
  {
    if b == 0 then 0
    else
      InverseExists(b);
      var c :| Mul(b, c) == 1;
      c
  }

  lemma {:induction false} InverseOfCounter(k: nat)
    ensures Inverse(Iter(Down, k, 1)) == Iter(Up, k, 1)
  {
    IterNonzero(k);
    CountersInverse(k, Inverse(Iter(Down, k, 1)));
  }

  lemma MulUp(a: bv8, z: bv8)
    ensures Mul(Up(a), z) == Up(Mul(a, z))
  {
    MulXTime(a, z);
    MulXTime(XTime(a), z);
    MulXor(a, XTime(XTime(a)), z);
  }

  lemma {:induction false} MulIterUp(n: nat, z: bv8)
    ensures Mul(Iter(Up, n, 1), z) == Iter(Up, n, z)
  {
    if n == 0 {
      MulOne(z);
    } else {
      MulUp(Iter(Up, n - 1, 1), z);
      MulIterUp(n - 1, z);
    }
  }

  lemma {:induction false} DownZero(n: nat)
    ensures Iter(Down, n, 0) == 0
  {
    if n > 0 {
      DownZero(n - 1);
      assert Down(0) == 0;
    }
  }

  lemma InverseTwice(b: bv8)
    ensures Inverse(Inverse(b)) == b
  {
    if b != 0 {
      var k := VisitsEveryByte(b);
      var c := Iter(Up, k, 1);
      InverseOfCounter(k);
      StepsUndo();
      IterUndoes(Down, Up, k, 1);
      if c == 0 {
        DownZero(k);
      }
      MulIterUp(k, Inverse(c));
      IterUndoes(Down, Up, k, Inverse(c));
    }
  }

  function Affine(c: bv8): bv8 {
    c ^ ((c << 1) | (c >> 7)) ^ ((c << 2) | (c >> 6)) ^ ((c << 3) | (c >> 5)) ^ ((c << 4) | (c >> 4)) ^ 0x63
  }

  function InvAffine(s: bv8): bv8 {
    ((s << 1) | (s >> 7)) ^ ((s << 3) | (s >> 5)) ^ ((s << 6) | (s >> 2)) ^ 0x05
  }

  lemma AffineUndone(c: bv8)
    ensures InvAffine(Affine(c)) == c && Affine(InvAffine(c)) == c
  {
  }

  ghost function SubByte(b: bv8): bv8 {
    Affine(Inverse(b))
  }

  ghost function InvSubByte(s: bv8): bv8 {
    Inverse(InvAffine(s))
  }

  lemma SubByteUndone(b: bv8)
    ensures InvSubByte(SubByte(b)) == b && SubByte(InvSubByte(b)) == b
  {
    AffineUndone(Inverse(b));
    InverseTwice(b);
    AffineUndone(b);
    InverseTwice(InvAffine(b));
  }

  // ---- bytes satisfy the laws of rounds

  ghost function ByteAlgebra(): Algebra<bv8> {
    Algebra(Bytes, b => SubByte(b), s => InvSubByte(s))
  }

  lemma ByteCancels(a: bv8, b: bv8)
    ensures Cancels(ByteAlgebra(), a, b)
  {
  }

  lemma Sum4IsXor(a: bv8, b: bv8, c: bv8, d: bv8)
    ensures Sum4(ByteAlgebra(), a, b, c, d) == (a ^ b) ^ (c ^ d)
  {
  }

  lemma PlusIsXor(a: bv8, b: bv8)
    ensures Plus(ByteAlgebra(), a, b) == a ^ b
  {
  }

  lemma ByteRotates(a: bv8, b: bv8, c: bv8, d: bv8)
    ensures Rotates(ByteAlgebra(), a, b, c, d)
  {
    Sum4IsXor(a, b, c, d);
    Sum4IsXor(d, a, b, c);
  }

  lemma ByteAssociates(a: bv8, b: bv8, c: bv8, d: bv8)
    ensures Associates(ByteAlgebra(), a, b, c, d)
  {
    PlusIsXor(a, b);
    PlusIsXor(a ^ b, c);
    PlusIsXor((a ^ b) ^ c, d);
    Sum4IsXor(a, b, c, d);
  }

  lemma Xor0(a: bv8, a2: bv8, a4: bv8, a8: bv8, a16: bv8)
    ensures (((a16 ^ a8) ^ a4) ^ ((a8 ^ a) ^ a2)) ^ (((a8 ^ a) ^ a4) ^ ((a16 ^ a8) ^ (a2 ^ a))) == a
  {
  }

  lemma ByteCoefficient0(a: bv8, a2: bv8, a4: bv8, a8: bv8, a16: bv8)
    ensures Coefficient0(ByteAlgebra(), a, a2, a4, a8, a16)
  {
    PlusIsXor(a16, a8); PlusIsXor(a16 ^ a8, a4); PlusIsXor(a8, a); PlusIsXor(a8 ^ a, a2); PlusIsXor(a8 ^ a, a4);
    PlusIsXor(a2, a); PlusIsXor(a16 ^ a8, a2 ^ a);
    Sum4IsXor((a16 ^ a8) ^ a4, (a8 ^ a) ^ a2, (a8 ^ a) ^ a4, (a16 ^ a8) ^ (a2 ^ a));
    Xor0(a, a2, a4, a8, a16);
  }

  lemma Xor1(a: bv8, a2: bv8, a4: bv8, a8: bv8, a16: bv8)
    ensures ((((a16 ^ a8) ^ (a8 ^ a4)) ^ (a4 ^ a2)) ^ ((a16 ^ a2) ^ a4)) ^ (((a8 ^ a) ^ a4) ^ (a8 ^ a)) == 0
  {
  }

  lemma ByteCoefficient1(a: bv8, a2: bv8, a4: bv8, a8: bv8, a16: bv8)
    ensures Coefficient1(ByteAlgebra(), a, a2, a4, a8, a16)
  {
    PlusIsXor(a16, a8); PlusIsXor(a8, a4); PlusIsXor(a16 ^ a8, a8 ^ a4); PlusIsXor(a4, a2);
    PlusIsXor((a16 ^ a8) ^ (a8 ^ a4), a4 ^ a2); PlusIsXor(a16, a2); PlusIsXor(a16 ^ a2, a4);
    PlusIsXor(a8, a); PlusIsXor(a8 ^ a, a4);
    Sum4IsXor(((a16 ^ a8) ^ (a8 ^ a4)) ^ (a4 ^ a2), (a16 ^ a2) ^ a4, (a8 ^ a) ^ a4, a8 ^ a);
    Xor1(a, a2, a4, a8, a16);
  }

  lemma Xor2(a: bv8, a2: bv8, a4: bv8, a8: bv8, a16: bv8)
    ensures (((a8 ^ a4) ^ a2) ^ (((a16 ^ a8) ^ (a2 ^ a)) ^ (a4 ^ a2))) ^ (((a16 ^ a2) ^ a8) ^ (a8 ^ a)) == 0
  {
  }

  lemma ByteCoefficient2(a: bv8, a2: bv8, a4: bv8, a8: bv8, a16: bv8)
    ensures Coefficient2(ByteAlgebra(), a, a2, a4, a8, a16)
  {
    PlusIsXor(a8, a4); PlusIsXor(a8 ^ a4, a2); PlusIsXor(a16, a8); PlusIsXor(a2, a); PlusIsXor(a16 ^ a8, a2 ^ a);
    PlusIsXor(a4, a2); PlusIsXor((a16 ^ a8) ^ (a2 ^ a), a4 ^ a2); PlusIsXor(a16, a2); PlusIsXor(a16 ^ a2, a8);
    PlusIsXor(a8, a);
    Sum4IsXor((a8 ^ a4) ^ a2, ((a16 ^ a8) ^ (a2 ^ a)) ^ (a4 ^ a2), (a16 ^ a2) ^ a8, a8 ^ a);
    Xor2(a, a2, a4, a8, a16);
  }

  lemma Xor3(a: bv8, a2: bv8, a4: bv8, a8: bv8, a16: bv8)
    ensures (((a8 ^ a4) ^ a2) ^ ((a8 ^ a) ^ a2)) ^ ((((a16 ^ a8) ^ (a2 ^ a)) ^ (a8 ^ a4)) ^ (a16 ^ a2)) == 0
  {
  }

  lemma ByteCoefficient3(a: bv8, a2: bv8, a4: bv8, a8: bv8, a16: bv8)
    ensures Coefficient3(ByteAlgebra(), a, a2, a4, a8, a16)
  {
    PlusIsXor(a8, a4); PlusIsXor(a8 ^ a4, a2); PlusIsXor(a8, a); PlusIsXor(a8 ^ a, a2); PlusIsXor(a16, a8);
    PlusIsXor(a2, a); PlusIsXor(a16 ^ a8, a2 ^ a); PlusIsXor((a16 ^ a8) ^ (a2 ^ a), a8 ^ a4); PlusIsXor(a16, a2);
    Sum4IsXor((a8 ^ a4) ^ a2, (a8 ^ a) ^ a2, ((a16 ^ a8) ^ (a2 ^ a)) ^ (a8 ^ a4), a16 ^ a2);
    Xor3(a, a2, a4, a8, a16);
  }

  lemma BytesLawful()
    ensures Rijndael.Lawful(ByteAlgebra())
  {
    BytesLinear();
    forall a: bv8, b: bv8
      ensures Cancels(ByteAlgebra(), a, b)
    {
      ByteCancels(a, b);
    }
    forall a: bv8, b: bv8, c: bv8, d: bv8
      ensures Rotates(ByteAlgebra(), a, b, c, d)
      ensures Associates(ByteAlgebra(), a, b, c, d)
    {
      ByteRotates(a, b, c, d);
      ByteAssociates(a, b, c, d);
    }
    forall a: bv8
      ensures ZerosVanish(ByteAlgebra(), a)
      ensures SubUndone(ByteAlgebra(), a)
    {
      SubByteUndone(a);
    }
    forall a: bv8, a2: bv8, a4: bv8, a8: bv8, a16: bv8
      ensures Coefficient0(ByteAlgebra(), a, a2, a4, a8, a16)
      ensures Coefficient1(ByteAlgebra(), a, a2, a4, a8, a16)
      ensures Coefficient2(ByteAlgebra(), a, a2, a4, a8, a16)
      ensures Coefficient3(ByteAlgebra(), a, a2, a4, a8, a16)
    {
      ByteCoefficient0(a, a2, a4, a8, a16);
      ByteCoefficient1(a, a2, a4, a8, a16);
      ByteCoefficient2(a, a2, a4, a8, a16);
      ByteCoefficient3(a, a2, a4, a8, a16);
    }
  }

  // ---- the constant products of FIPS 197 are the multiples the rounds use

  lemma MulPowers(b: bv8)
    ensures Mul(2, b) == XTime(b) && Mul(4, b) == XTime(XTime(b)) && Mul(8, b) == XTime(XTime(XTime(b)))
  {
    MulOne(b);
    MulXTime(1, b);
    MulXTime(2, b);
    MulXTime(4, b);
    assert XTime(1) == 2 && XTime(2) == 4 && XTime(4) == 8;
  }

  lemma MulSum(a: bv8, c: bv8, e: bv8, b: bv8)
    requires e == a ^ c
    ensures Mul(e, b) == Plus(ByteAlgebra(), Mul(a, b), Mul(c, b))
  {
    MulXor(a, c, b);
    PlusIsXor(Mul(a, b), Mul(c, b));
  }

  lemma Doublings(b: bv8)
    ensures Mul(2, b) == Twice(ByteAlgebra(), b) && Mul(4, b) == Four(ByteAlgebra(), b)
    ensures Mul(8, b) == Eight(ByteAlgebra(), b)
  {
    MulPowers(b);
  }

  lemma ConstantProducts(b: bv8)
    ensures Mul(0x02, b) == Twice(ByteAlgebra(), b) && Mul(0x03, b) == Three(ByteAlgebra(), b)
    ensures Mul(0x09, b) == Nine(ByteAlgebra(), b) && Mul(0x0b, b) == Eleven(ByteAlgebra(), b)
    ensures Mul(0x0d, b) == Thirteen(ByteAlgebra(), b) && Mul(0x0e, b) == Fourteen(ByteAlgebra(), b)
  {
    MulOne(b);
    Doublings(b);
    MulSum(2, 1, 3, b);
    MulSum(8, 1, 9, b);
    MulSum(9, 2, 0x0b, b);
    MulSum(9, 4, 0x0d, b);
    MulSum(8, 4, 0x0c, b);
    MulSum(0x0c, 2, 0x0e, b);
  }

  // ---- the key expansion, section 5.2

  function Rcon(j: nat): bv8 {
    if j <= 1 then 1 else XTime(Rcon(j - 1))
  }

  function RotWord(c: Column<bv8>): Column<bv8> {
    Column(c.r1, c.r2, c.r3, c.r0)
  }

  function Nth<T>(s: State<T>, i: nat): Column<T> {
    if i == 0 then s.c0 else if i == 1 then s.c1 else if i == 2 then s.c2 else s.c3
  }

  /** What is added to the word four places back to make word i: i is at least 4. */
  function Temp(g: Algebra<bv8>, previous: Column<bv8>, i: nat): Column<bv8> {
    if i % 4 == 0 then AddColumns(g, SubColumn(g.sub, RotWord(previous)), Column(Rcon(i / 4), 0, 0, 0))
    else previous
  }

  /** Word i of the expanded key. */
  function KeyWord(g: Algebra<bv8>, key: State<bv8>, i: nat): Column<bv8> {
    if i < 4 then Nth(key, i)
    else AddColumns(g, KeyWord(g, key, i - 4), Temp(g, KeyWord(g, key, i - 1), i))
  }

  /** The round keys: four words each. */
  function RoundKeys(g: Algebra<bv8>, key: State<bv8>): BlockCipher.Keys<State<bv8>> {
    (r: nat) => State(KeyWord(g, key, 4 * r), KeyWord(g, key, 4 * r + 1),
                      KeyWord(g, key, 4 * r + 2), KeyWord(g, key, 4 * r + 3))
  }

  /** Chained AES-128 decryption undoes chained AES-128 encryption, for every key, vector and text. */
  lemma {:induction false} AesCbcUndone(g: Algebra<bv8>, key: State<bv8>, iv: State<bv8>, plain: seq<State<bv8>>)
    requires g == ByteAlgebra()
    ensures BlockCipher.DecryptCbc(Aes(g), RoundKeys(g, key),
                                   BlockCipher.EncryptCbc(Aes(g), RoundKeys(g, key), plain, iv), iv) == plain
  {
    BytesLawful();
    AesLawful(g);
    BlockCipher.CbcUndone(Aes(g), RoundKeys(g, key), plain, iv);
  }
}
