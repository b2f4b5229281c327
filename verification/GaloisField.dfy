/** Arithmetic in GF(2^8) as FIPS 197 defines it (sections 4.1 and 4.2). */
module GaloisField {

  /** A set with an addition and a doubling, over which products by a bit string are sums of doublings.
      The laws are stated over an arbitrary carrier, so that their proofs do not look inside bytes. */
  datatype Space<!T> = Space(plus: (T, T) -> T, zero: T, twice: T -> T)

  ghost predicate Doubles<T>(s: Space<T>, p: T, q: T) {
    s.twice(s.plus(p, q)) == s.plus(s.twice(p), s.twice(q))
  }

  ghost predicate Regroups<T>(s: Space<T>, p: T, q: T, u: T, v: T) {
    s.plus(s.plus(p, q), s.plus(u, v)) == s.plus(s.plus(p, u), s.plus(q, v))
  }

  ghost predicate Linear<T(!new)>(s: Space<T>) {
    && s.plus(s.zero, s.zero) == s.zero
    && s.twice(s.zero) == s.zero
    && (forall p: T, q: T :: Doubles(s, p, q))
    && (forall p: T, q: T, u: T, v: T :: Regroups(s, p, q, u, v))
  }

  function Pick<T>(s: Space<T>, bit: bool, a: T): T {
    if bit then a else s.zero
  }

  /** The sum of the i-th doublings of a for which bit i is set, least significant bit first. */
  function Product<T>(s: Space<T>, a: T, bits: seq<bool>): T
    decreases |bits|
  {
    if bits == [] then s.zero
    else s.plus(Pick(s, bits[0], a), Product(s, s.twice(a), bits[1..]))
  }

  lemma {:induction false} ProductTwice<T(!new)>(s: Space<T>, a: T, bits: seq<bool>)
    requires Linear(s)
    ensures Product(s, s.twice(a), bits) == s.twice(Product(s, a, bits))
    decreases |bits|
  {
    if bits != [] {
      ProductTwice(s, s.twice(a), bits[1..]);
      assert Doubles(s, Pick(s, bits[0], a), Product(s, s.twice(a), bits[1..]));
    }
  }

  lemma {:induction false} ProductPlus<T(!new)>(s: Space<T>, a: T, c: T, bits: seq<bool>)
    requires Linear(s)
    ensures Product(s, s.plus(a, c), bits) == s.plus(Product(s, a, bits), Product(s, c, bits))
    decreases |bits|
  {
    if bits != [] {
      ProductPlus(s, s.twice(a), s.twice(c), bits[1..]);
      assert Doubles(s, a, c);
      assert Regroups(s, Pick(s, bits[0], a), Pick(s, bits[0], c),
                      Product(s, s.twice(a), bits[1..]), Product(s, s.twice(c), bits[1..]));
    }
  }

  /** Multiplication by {02}, section 4.2.1. */
  function XTime(b: bv8): bv8 {
    (b << 1) ^ ((b >> 7) * 0x1b)
  }

  function Xor(a: bv8, b: bv8): bv8 {
    a ^ b
  }

  const Bytes: Space<bv8> := Space(Xor, 0, XTime)

  function HighBits(b: bv8): seq<bool> {
    [b & 16 != 0] + ([b & 32 != 0] + ([b & 64 != 0] + ([b & 128 != 0] + [])))
  }

  /** The bits of a byte, least significant first. */
  function Bits(b: bv8): seq<bool> {
    [b & 1 != 0] + ([b & 2 != 0] + ([b & 4 != 0] + ([b & 8 != 0] + HighBits(b))))
  }

  /** Multiplication, section 4.2. */
  function Mul(a: bv8, b: bv8): bv8 {
    Product(Bytes, a, Bits(b))
  }

  lemma XTimeXor(a: bv8, b: bv8)
    ensures XTime(a ^ b) == XTime(a) ^ XTime(b)
  {
  }

  lemma XorRegroups(p: bv8, q: bv8, u: bv8, v: bv8)
    ensures (p ^ q) ^ (u ^ v) == (p ^ u) ^ (q ^ v)
  {
  }

  lemma BytesLinear()
    ensures Linear(Bytes)
  {
    forall p: bv8, q: bv8
      ensures Doubles(Bytes, p, q)
    {
      XTimeXor(p, q);
    }
    forall p: bv8, q: bv8, u: bv8, v: bv8
      ensures Regroups(Bytes, p, q, u, v)
    {
      XorRegroups(p, q, u, v);
    }
  }

  lemma MulXTime(a: bv8, b: bv8)
    ensures Mul(XTime(a), b) == XTime(Mul(a, b))
  {
    BytesLinear();
    ProductTwice(Bytes, a, Bits(b));
  }

  lemma MulXor(a: bv8, c: bv8, b: bv8)
    ensures Mul(a ^ c, b) == Mul(a, b) ^ Mul(c, b)
  {
    BytesLinear();
    ProductPlus(Bytes, a, c, Bits(b));
  }

  lemma {:induction false} OneBit(b: bv8, m: bv8, next: bv8, rest: seq<bool>, v: bv8)
    requires m & (m - 1) == 0 && next == XTime(m)
    requires Product(Bytes, next, rest) == v
    ensures Product(Bytes, m, [b & m != 0] + rest) == (b & m) ^ v
  {
    assert ([b & m != 0] + rest)[1..] == rest;
  }

  lemma HighNibble(b: bv8)
    ensures Product(Bytes, 16, HighBits(b)) == (b & 16) ^ ((b & 32) ^ ((b & 64) ^ ((b & 128) ^ 0)))
  {
    OneBit(b, 128, XTime(128), [], 0);
    OneBit(b, 64, 128, [b & 128 != 0] + [], (b & 128) ^ 0);
    OneBit(b, 32, 64, [b & 64 != 0] + ([b & 128 != 0] + []), (b & 64) ^ ((b & 128) ^ 0));
    OneBit(b, 16, 32, [b & 32 != 0] + ([b & 64 != 0] + ([b & 128 != 0] + [])),
           (b & 32) ^ ((b & 64) ^ ((b & 128) ^ 0)));
  }

  lemma {:induction false} LowNibble(b: bv8, high: seq<bool>, v: bv8)
    requires Product(Bytes, 16, high) == v
    ensures Product(Bytes, 4, [b & 4 != 0] + ([b & 8 != 0] + high)) == (b & 4) ^ ((b & 8) ^ v)
  {
    OneBit(b, 8, 16, high, v);
    OneBit(b, 4, 8, [b & 8 != 0] + high, (b & 8) ^ v);
  }

  lemma SplitByte(b: bv8)
    ensures (b & 1) ^ ((b & 2) ^ ((b & 4) ^ ((b & 8) ^ ((b & 16) ^ ((b & 32) ^ ((b & 64) ^ ((b & 128) ^ 0))))))) == b
  {
  }

  lemma MulOne(b: bv8)
    ensures Mul(1, b) == b
  {
    var v := (b & 16) ^ ((b & 32) ^ ((b & 64) ^ ((b & 128) ^ 0)));
    var w := (b & 4) ^ ((b & 8) ^ v);
    var rest := [b & 4 != 0] + ([b & 8 != 0] + HighBits(b));
    HighNibble(b);
    LowNibble(b, HighBits(b), v);
    OneBit(b, 2, 4, rest, w);
    OneBit(b, 1, 2, [b & 2 != 0] + rest, (b & 2) ^ w);
    SplitByte(b);
  }
}
