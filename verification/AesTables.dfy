/** Words as four bytes, and what the lookup tables of the decryptor hold. */
module AesTables {
  import opened GaloisField
  import opened Orbit
  import opened FieldOrbit
  import opened Rijndael
  import opened Fips197

  // ---- words

  function Wide(b: bv8): bv32 {
    b as bv32
  }

  function Low(w: bv32): bv8 {
    (w & 0xff) as bv8
  }

  lemma LowWide(b: bv8)
    ensures Low(Wide(b)) == b
  {
  }

  function Word(a: bv8, b: bv8, c: bv8, d: bv8): bv32 {
    (a as bv32 << 24) | (b as bv32 << 16) | (c as bv32 << 8) | d as bv32
  }

  function Pack(c: Column<bv8>): bv32 {
    Word(c.r0, c.r1, c.r2, c.r3)
  }

  function Unpack(w: bv32): Column<bv8> {
    Column(Low(w >> 24), Low(w >> 16), Low(w >> 8), Low(w))
  }

  lemma WordBytes(a: bv8, b: bv8, c: bv8, d: bv8)
    ensures Low(Word(a, b, c, d) >> 24) == a && Low(Word(a, b, c, d) >> 16) == b
    ensures Low(Word(a, b, c, d) >> 8) == c && Low(Word(a, b, c, d)) == d
  {
  }

  lemma BytesWord(w: bv32)
    ensures Word(Low(w >> 24), Low(w >> 16), Low(w >> 8), Low(w)) == w
  {
  }

  lemma PackUnpack(w: bv32)
    ensures Pack(Unpack(w)) == w
  {
    BytesWord(w);
  }

  lemma UnpackPack(c: Column<bv8>)
    ensures Unpack(Pack(c)) == c
  {
    WordBytes(c.r0, c.r1, c.r2, c.r3);
  }

  lemma WordXor(a: bv8, b: bv8, c: bv8, d: bv8, a': bv8, b': bv8, c': bv8, d': bv8)
    ensures Word(a, b, c, d) ^ Word(a', b', c', d') == Word(a ^ a', b ^ b', c ^ c', d ^ d')
  {
  }

  lemma PackAdd(a: Column<bv8>, b: Column<bv8>)
    ensures Pack(a) ^ Pack(b) == Pack(AddColumns(ByteAlgebra(), a, b))
  {
    WordXor(a.r0, a.r1, a.r2, a.r3, b.r0, b.r1, b.r2, b.r3);
    PlusIsXor(a.r0, b.r0);
    PlusIsXor(a.r1, b.r1);
    PlusIsXor(a.r2, b.r2);
    PlusIsXor(a.r3, b.r3);
  }

  lemma RotateRight(a: bv8, b: bv8, c: bv8, d: bv8)
    ensures (Word(a, b, c, d) << 24) | (Word(a, b, c, d) >> 8) == Word(d, a, b, c)
  {
  }

  lemma RotateHalf(a: bv8, b: bv8, c: bv8, d: bv8)
    ensures (Word(a, b, c, d) << 16) | (Word(a, b, c, d) >> 16) == Word(c, d, a, b)
  {
  }

  lemma RotateLeft(a: bv8, b: bv8, c: bv8, d: bv8)
    ensures (Word(a, b, c, d) << 8) | (Word(a, b, c, d) >> 24) == Word(b, c, d, a)
  {
  }

  // ---- table indices

  /** A byte as an index into a table of 256 entries. */
  function Index(b: bv8): (i: nat)
    ensures i < 256
  {
    b as int
  }

  lemma IndexInjective(a: bv8, b: bv8)
    requires Index(a) == Index(b)
    ensures a == b
  {
  }

  /** The bytes in order have the indices in order. */
  lemma NextIndex(b: bv8)
    requires Index(b) < 255
    ensures Index(b + 1) == Index(b) + 1
  {
  }

  lemma FirstIndex()
    ensures Index(0) == 0
  {
  }

  lemma IndexOrder(b: bv8)
    ensures Index(b) < 128 <==> b < 128
  {
  }

  lemma DoubleEntry(b: bv8)
    ensures b < 128 ==> Wide(b) << 1 == Wide(XTime(b))
    ensures b >= 128 ==> (Wide(b) << 1) ^ 0x11b == Wide(XTime(b))
  {
  }

  // ---- the counters of the table builder

  /** The value of counter x when entry number i is written: 0 first, then the nonzero bytes in orbit order. */
  function XAt(i: nat): bv8 {
    if i == 0 then 0 else Iter(Down, i - 1, 1)
  }

  /** The value of counter xi, which starts at 0 as well. */
  function XiAt(i: nat): bv8 {
    if i == 0 then 0 else Iter(Up, i - 1, 1)
  }

  lemma XiIsInverse(i: nat)
    ensures XiAt(i) == Inverse(XAt(i))
  {
    if i > 0 {
      InverseOfCounter(i - 1);
    }
  }

  /** The 256 entries written are all the entries there are. */
  lemma XAtCovers(b: bv8) returns (i: nat)
    ensures i < 256 && XAt(i) == b
  {
    if b == 0 {
      i := 0;
    } else {
      var k := VisitsEveryByte(b);
      i := k + 1;
    }
  }

  /** The affine map as the source spreads it over the low twelve bits. */
  function Spread(xi: bv32): bv32 {
    var sx := xi ^ (xi << 1) ^ (xi << 2) ^ (xi << 3) ^ (xi << 4);
    (sx >> 8) ^ (sx & 0xff) ^ 0x63
  }

  lemma SpreadIsAffine(c: bv8)
    ensures Spread(Wide(c)) == Wide(Affine(c))
  {
  }

  // ---- the inverse table entries

  lemma MixedByte0(t: bv32, x: bv8, x2: bv8, x4: bv8, x8: bv8)
    requires t == (x8 as bv32 * 0x1010101) ^ (x4 as bv32 * 0x10001) ^ (x2 as bv32 * 0x101) ^ (x as bv32 * 0x1010100)
    ensures ((t >> 24) & 0xff) as bv8 == x8 ^ x
  {
  }

  lemma MixedByte1(t: bv32, x: bv8, x2: bv8, x4: bv8, x8: bv8)
    requires t == (x8 as bv32 * 0x1010101) ^ (x4 as bv32 * 0x10001) ^ (x2 as bv32 * 0x101) ^ (x as bv32 * 0x1010100)
    ensures ((t >> 16) & 0xff) as bv8 == (x8 ^ x) ^ x4
  {
  }

  lemma MixedByte2(t: bv32, x: bv8, x2: bv8, x4: bv8, x8: bv8)
    requires t == (x8 as bv32 * 0x1010101) ^ (x4 as bv32 * 0x10001) ^ (x2 as bv32 * 0x101) ^ (x as bv32 * 0x1010100)
    ensures ((t >> 8) & 0xff) as bv8 == (x8 ^ x) ^ x2
  {
  }

  lemma MixedByte3(t: bv32, x: bv8, x2: bv8, x4: bv8, x8: bv8)
    requires t == (x8 as bv32 * 0x1010101) ^ (x4 as bv32 * 0x10001) ^ (x2 as bv32 * 0x101) ^ (x as bv32 * 0x1010100)
    ensures (t & 0xff) as bv8 == (x8 ^ x4) ^ x2
  {
  }

  lemma WordOfBytes(w: bv32, a: bv8, b: bv8, c: bv8, d: bv8)
    requires Low(w >> 24) == a && Low(w >> 16) == b && Low(w >> 8) == c && Low(w) == d
    ensures w == Word(a, b, c, d)
  {
    BytesWord(w);
  }

  lemma MixedWord(t: bv32, x: bv8, x2: bv8, x4: bv8, x8: bv8)
    requires t == (x8 as bv32 * 0x1010101) ^ (x4 as bv32 * 0x10001) ^ (x2 as bv32 * 0x101) ^ (x as bv32 * 0x1010100)
    ensures t == Word(x8 ^ x, (x8 ^ x) ^ x4, (x8 ^ x) ^ x2, (x8 ^ x4) ^ x2)
  {
    MixedByte0(t, x, x2, x4, x8);
    MixedByte1(t, x, x2, x4, x8);
    MixedByte2(t, x, x2, x4, x8);
    MixedByte3(t, x, x2, x4, x8);
    WordOfBytes(t, x8 ^ x, (x8 ^ x) ^ x4, (x8 ^ x) ^ x2, (x8 ^ x4) ^ x2);
  }

  /** The word the table builder multiplies together is the share of a byte of row 3. */
  lemma MixedIsShare(x: bv8, x2: bv8, x4: bv8, x8: bv8)
    requires x2 == XTime(x) && x4 == XTime(x2) && x8 == XTime(x4)
    ensures Word(x8 ^ x, (x8 ^ x) ^ x4, (x8 ^ x) ^ x2, (x8 ^ x4) ^ x2) == Pack(Share3(ByteAlgebra(), x))
  {
    PlusIsXor(x8, x);
    PlusIsXor(x8 ^ x, x4);
    PlusIsXor(x8 ^ x, x2);
    PlusIsXor(x8, x4);
    PlusIsXor(x8 ^ x4, x2);
  }

  function RotateDown(c: Column<bv8>): Column<bv8> {
    Column(c.r3, c.r0, c.r1, c.r2)
  }

  lemma PackRotateRight(c: Column<bv8>)
    ensures (Pack(c) << 24) | (Pack(c) >> 8) == Pack(RotateDown(c))
  {
    RotateRight(c.r0, c.r1, c.r2, c.r3);
  }

  lemma PackRotateHalf(c: Column<bv8>)
    ensures (Pack(c) << 16) | (Pack(c) >> 16) == Pack(RotateDown(RotateDown(c)))
  {
    RotateHalf(c.r0, c.r1, c.r2, c.r3);
  }

  lemma PackRotateLeft(c: Column<bv8>)
    ensures (Pack(c) << 8) | (Pack(c) >> 24) == Pack(RotateDown(RotateDown(RotateDown(c))))
  {
    RotateLeft(c.r0, c.r1, c.r2, c.r3);
  }

  lemma ShareRotations(x: bv8)
    ensures Share0(ByteAlgebra(), x) == RotateDown(Share3(ByteAlgebra(), x))
    ensures Share1(ByteAlgebra(), x) == RotateDown(RotateDown(Share3(ByteAlgebra(), x)))
    ensures Share2(ByteAlgebra(), x) == RotateDown(RotateDown(RotateDown(Share3(ByteAlgebra(), x))))
  {
  }

  function XorWords(v: bv32, w: bv32): bv32 {
    v ^ w
  }

  /** The laws of rounds, and addition of columns carried out on packed words. */
  ghost predicate OnWords(g: Algebra<bv8>, pack: Column<bv8> -> bv32) {
    && Rijndael.Lawful(g)
    && (forall a: Column<bv8>, b: Column<bv8> :: PackAdds(g, pack, XorWords, a, b))
  }

  lemma BytesOnWords()
    ensures OnWords(ByteAlgebra(), Pack)
  {
    BytesLawful();
    forall a: Column<bv8>, b: Column<bv8>
      ensures PackAdds(ByteAlgebra(), Pack, XorWords, a, b)
    {
      PackAdd(a, b);
    }
  }

  /** Four table words add up to the inverse-mixed column of their bytes. */
  lemma ShareSum(g: Algebra<bv8>, pack: Column<bv8> -> bv32, c: Column<bv8>, w0: bv32, w1: bv32, w2: bv32, w3: bv32)
    requires OnWords(g, pack)
    requires w0 == pack(Share0(g, c.r0)) && w1 == pack(Share1(g, c.r1))
    requires w2 == pack(Share2(g, c.r2)) && w3 == pack(Share3(g, c.r3))
    ensures w0 ^ w1 ^ w2 ^ w3 == pack(InvMixColumn(g, c))
  {
    ShareWordsAddUp(g, pack, XorWords, c);
  }

  // ---- one round of the table builder, on words

  function RotateBy24(t: bv32): bv32 { (t << 24) | (t >> 8) }
  function RotateBy16(t: bv32): bv32 { (t << 16) | (t >> 16) }
  function RotateBy8(t: bv32): bv32 { (t << 8) | (t >> 24) }

  lemma ShareWord0(b: bv8)
    ensures RotateBy24(Pack(Share3(ByteAlgebra(), b))) == Pack(Share0(ByteAlgebra(), b))
  {
    PackRotateRight(Share3(ByteAlgebra(), b));
    ShareRotations(b);
  }

  lemma ShareWord1(b: bv8)
    ensures RotateBy16(Pack(Share3(ByteAlgebra(), b))) == Pack(Share1(ByteAlgebra(), b))
  {
    PackRotateHalf(Share3(ByteAlgebra(), b));
    ShareRotations(b);
  }

  lemma ShareWord2(b: bv8)
    ensures RotateBy8(Pack(Share3(ByteAlgebra(), b))) == Pack(Share2(ByteAlgebra(), b))
  {
    PackRotateLeft(Share3(ByteAlgebra(), b));
    ShareRotations(b);
  }

  // ---- words put together from four looked-up bytes

  function Join(a: bv32, b: bv32, c: bv32, d: bv32): bv32 {
    (a << 24) | (b << 16) | (c << 8) | d
  }

  function JoinXor(a: bv32, b: bv32, c: bv32, d: bv32): bv32 {
    (a << 24) ^ (b << 16) ^ (c << 8) ^ d
  }

  lemma WordFromWide(a: bv8, b: bv8, c: bv8, d: bv8)
    ensures Join(Wide(a), Wide(b), Wide(c), Wide(d)) == Word(a, b, c, d)
    ensures JoinXor(Wide(a), Wide(b), Wide(c), Wide(d)) == Word(a, b, c, d)
  {
  }

  lemma JoinWide(a: bv8, b: bv8, c: bv8, d: bv8)
    ensures Join(Wide(a), Wide(b), Wide(c), Wide(d)) == Pack(Column(a, b, c, d))
    ensures JoinXor(Wide(a), Wide(b), Wide(c), Wide(d)) == Pack(Column(a, b, c, d))
  {
    hide Wide, Word, Join, JoinXor;
    WordFromWide(a, b, c, d);
  }

  lemma TopByte(a: bv8)
    ensures Wide(a) << 24 == Word(a, 0, 0, 0)
  {
  }

  /** Reversing the byte order of a word, as the decryptor does on reading and writing. */
  function SwapWord(w: bv32): bv32 {
    (w << 24) | ((w & 0xff00) << 8) | ((w & 0xff0000) >> 8) | (w >> 24)
  }

  lemma SwapReverses(a: bv8, b: bv8, c: bv8, d: bv8)
    ensures SwapWord(Word(a, b, c, d)) == Word(d, c, b, a)
  {
  }

  /** The round constants of the source, by round; the first is never used. */
  const RCON: seq<bv32> := [0x0, 0x1, 0x2, 0x4, 0x8, 0x10, 0x20, 0x40, 0x80, 0x1b, 0x36]

  lemma RconStep(j: nat, a: bv8, b: bv8)
    requires j >= 1 && Rcon(j) == a && XTime(a) == b
    ensures Rcon(j + 1) == b
  {
  }

  lemma {:induction false} RconTable(j: nat)
    requires 1 <= j <= 10
    ensures RCON[j] == Wide(Rcon(j))
  {
    var k := 1;
    RconStep(k, 0x1, 0x2); RconStep(k + 1, 0x2, 0x4); RconStep(k + 2, 0x4, 0x8);
    RconStep(k + 3, 0x8, 0x10); RconStep(k + 4, 0x10, 0x20); RconStep(k + 5, 0x20, 0x40);
    RconStep(k + 6, 0x40, 0x80); RconStep(k + 7, 0x80, 0x1b); RconStep(k + 8, 0x1b, 0x36);
  }
}
