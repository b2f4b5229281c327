/** The two byte counters of AESDecryptor.initTable: one is multiplied by {52} and the other by {05} at
    every step. They stay multiplicative inverses, and the first visits every nonzero byte. */
module FieldOrbit {
  import opened GaloisField
  import opened Orbit

  /** The step of counter x, as the source computes it from the doubling table. */
  function Down(x: bv8): bv8 {
    var x2 := XTime(x);
    var x8 := XTime(XTime(x2));
    x2 ^ XTime(XTime(XTime(x8 ^ x2)))
  }

  /** The step of counter xi. */
  function Up(y: bv8): bv8 {
    y ^ XTime(XTime(y))
  }

  lemma DownUp(x: bv8)
    ensures Down(Up(x)) == x
  {
  }

  lemma UpDown(x: bv8)
    ensures Up(Down(x)) == x
  {
  }

  lemma StepsUndo()
    ensures Undoes(Up, Down) && Undoes(Down, Up)
  {
    forall x: bv8
      ensures Up(Down(x)) == x && Down(Up(x)) == x
    {
      UpDown(x);
      DownUp(x);
    }
  }

  // ---- the counters stay inverse to each other

  function DownIn<T>(s: Space<T>, x: T): T {
    var x2 := s.twice(x);
    var x8 := s.twice(s.twice(x2));
    s.plus(x2, s.twice(s.twice(s.twice(s.plus(x8, x2)))))
  }

  lemma {:induction false} ProductDownIn<T(!new)>(s: Space<T>, a: T, bits: seq<bool>)
    requires Linear(s)
    ensures Product(s, DownIn(s, a), bits) == DownIn(s, Product(s, a, bits))
  {
    var a2 := s.twice(a);
    var a4 := s.twice(a2);
    var a8 := s.twice(a4);
    var c := s.plus(a8, a2);
    ProductTwice(s, a, bits);
    ProductTwice(s, a2, bits);
    ProductTwice(s, a4, bits);
    ProductPlus(s, a8, a2, bits);
    ProductTwice(s, c, bits);
    ProductTwice(s, s.twice(c), bits);
    ProductTwice(s, s.twice(s.twice(c)), bits);
    ProductPlus(s, a2, s.twice(s.twice(s.twice(c))), bits);
  }

  lemma {:induction false} BytesProductDownIn(a: bv8, bits: seq<bool>)
    ensures Product(Bytes, DownIn(Bytes, a), bits) == DownIn(Bytes, Product(Bytes, a, bits))
  {
    BytesLinear();
    ProductDownIn(Bytes, a, bits);
  }

  lemma DownInBytes(x: bv8)
    ensures DownIn(Bytes, x) == Down(x)
  {
  }

  lemma MulDown(a: bv8, z: bv8)
    ensures Mul(Down(a), z) == Down(Mul(a, z))
  {
    DownInBytes(a);
    DownInBytes(Mul(a, z));
    BytesProductDownIn(a, Bits(z));
  }

  /** Multiplying by the n-th value of the counter is stepping n times. */
  lemma {:induction false} MulIter(n: nat, z: bv8)
    ensures Mul(Iter(Down, n, 1), z) == Iter(Down, n, z)
  {
    hide Mul, Down;
    if n == 0 {
      MulOne(z);
    } else {
      MulDown(Iter(Down, n - 1, 1), z);
      MulIter(n - 1, z);
    }
  }

  /** After n steps from 1 the two counters multiply to 1, and no other byte does. */
  lemma {:induction false} CountersInverse(n: nat, c: bv8)
    ensures Mul(Iter(Down, n, 1), c) == 1 <==> c == Iter(Up, n, 1)
  {
    MulIter(n, c);
    StepsUndo();
    IterUndoes(Down, Up, n, 1);
    IterUndoes(Up, Down, n, c);
  }

  // ---- the first counter has period exactly 255

  /** Squaring, which is linear over GF(2): bit i contributes x^(2i) reduced. */
  function Square(z: bv8): bv8 {
    (z & 1) ^ (((z >> 1) & 1) * 0x04) ^ (((z >> 2) & 1) * 0x10) ^ (((z >> 3) & 1) * 0x40)
    ^ (((z >> 4) & 1) * 0x1b) ^ (((z >> 5) & 1) * 0x6c) ^ (((z >> 6) & 1) * 0xab) ^ ((z >> 7) * 0x9a)
  }

  lemma SquareDown(z: bv8)
    ensures Square(Down(z)) == Down(Down(Square(z)))
  {
  }

  lemma {:induction false} SquareDoubles(n: nat)
    ensures Square(Iter(Down, n, 1)) == Iter(Down, 2 * n, 1)
  {
    if n == 0 {
      assert Square(1) == 1;
    } else {
      var m := 2 * n;
      SquareDown(Iter(Down, n - 1, 1));
      SquareDoubles(n - 1);
      assert Iter(Down, m, 1) == Down(Iter(Down, m - 1, 1));
      assert Iter(Down, m - 1, 1) == Down(Iter(Down, m - 2, 1));
    }
  }

  lemma {:induction false} SquareFour(n: nat, s0: bv8, s1: bv8, s2: bv8, s3: bv8, s4: bv8)
    requires s0 == Iter(Down, n, 1)
    requires s1 == Square(s0) && s2 == Square(s1) && s3 == Square(s2) && s4 == Square(s3)
    ensures Iter(Down, 16 * n, 1) == s4
  {
    SquareDoubles(n);
    SquareDoubles(2 * n);
    SquareDoubles(4 * n);
    SquareDoubles(8 * n);
  }

  lemma SquareEight(z: bv8)
    ensures Square(Square(Square(Square(Square(Square(Square(Square(z)))))))) == z
  {
  }

  lemma {:induction false} Period(n: nat)
    requires n == 255
    ensures Iter(Down, n, 1) == 1
  {
    var one, sixteen := 1, 16;
    var z := Iter(Down, one, 1);
    var s1 := Square(z); var s2 := Square(s1); var s3 := Square(s2); var s4 := Square(s3);
    var s5 := Square(s4); var s6 := Square(s5); var s7 := Square(s6);
    SquareFour(one, z, s1, s2, s3, s4);
    SquareFour(sixteen, s4, s5, s6, s7, Square(s7));
    SquareEight(z);
    StepsUndo();
    EqualApart(Up, Down, 1, one, n);
  }

  lemma Step(k: nat, a: bv8, b: bv8)
    requires Iter(Down, k, 1) == a && Down(a) == b
    ensures Iter(Down, k + 1, 1) == b
  {
  }

  lemma {:induction false} FirstSteps(one: nat, three: nat, five: nat)
    requires one == 1 && three == 3 && five == 5
    ensures Iter(Down, one, 1) == 0x52 && Iter(Down, three, 1) == 0x24 && Iter(Down, five, 1) == 0x97
  {
    var k := 0;
    Step(k, 1, 0x52);
    Step(k + 1, 0x52, 0xb4);
    Step(k + 2, 0xb4, 0x24);
    Step(k + 3, 0x24, 0xfd);
    Step(k + 4, 0xfd, 0x97);
  }

  lemma NotAfter15(one: nat, k: nat)
    requires one == 1 && k == 16 && Iter(Down, one, 1) == 0x52
    ensures Iter(Down, k - 1, 1) != 1
  {
    SquareFour(one, 0x52, 0xb4, 0xfd, 0x17, 0x0e);
    assert Down(1) == 0x52;
  }

  lemma NotAfter51(three: nat, k: nat)
    requires three == 3 && k == 48 && Iter(Down, three, 1) == 0x24
    ensures Iter(Down, k + 3, 1) == 0xed
  {
    SquareFour(three, 0x24, 0x7c, 0x8c, 0xca, 0x75);
    Step(k, 0x75, 0xbf);
    Step(k + 1, 0xbf, 0x74);
    Step(k + 2, 0x74, 0xed);
  }

  lemma NotAfter85(five: nat, k: nat)
    requires five == 5 && k == 80 && Iter(Down, five, 1) == 0x97
    ensures Iter(Down, k + 5, 1) == 0xbd
  {
    SquareFour(five, 0x97, 0x94, 0x91, 0x80, 0x9a);
    Step(k, 0x9a, 0xdb);
    Step(k + 1, 0xdb, 0xce);
    Step(k + 2, 0xce, 0x98);
    Step(k + 3, 0x98, 0x7f);
    Step(k + 4, 0x7f, 0xbd);
  }

  lemma {:induction false} ProperDivisors(n: nat)
    requires n == 255
    ensures Iter(Down, n / 17, 1) != 1 && Iter(Down, n / 5, 1) != 1 && Iter(Down, n / 3, 1) != 1
  {
    var one, three, five := n - 254, n - 252, n - 250;
    FirstSteps(one, three, five);
    NotAfter15(one, n / 17 + 1);
    NotAfter51(three, n / 5 - 3);
    NotAfter85(five, n / 3 - 5);
  }

  // ---- the first counter visits every nonzero byte

  function Number(b: bv8): nat {
    if b == 0 then 255 else b as int - 1
  }

  lemma NumberInjective(a: bv8, b: bv8)
    requires Number(a) == Number(b)
    ensures a == b
  {
  }

  lemma NumberBound(b: bv8)
    ensures Number(b) < 255 <==> b != 0
  {
  }

  lemma {:induction false} IterNonzero(n: nat)
    ensures Iter(Down, n, 1) != 0
  {
    if n > 0 {
      IterNonzero(n - 1);
      UpDown(Iter(Down, n - 1, 1));
      assert Up(0) == 0;
    }
  }

  lemma DownFull(n: nat)
    requires n == 255
    ensures FullPeriod(Up, Down, 1, n)
  {
    hide Iter, Down, Up, Undoes;
    StepsUndo();
    Period(n);
    ProperDivisors(n);
  }

  /** Every nonzero byte is one of the first 255 values of the counter. */
  lemma VisitsEveryByte(b: bv8) returns (k: nat)
    requires b != 0
    ensures k < 255 && Iter(Down, k, 1) == b
  {
    hide Number, Iter, Down, Up, FullPeriod, Undoes;
    var n := 255;
    DownFull(n);
    forall i: nat
      ensures Number(Iter(Down, i, 1)) < n
    {
      IterNonzero(i);
      NumberBound(Iter(Down, i, 1));
    }
    forall x: bv8, y: bv8 | Number(x) == Number(y) < n
      ensures x == y
    {
      NumberInjective(x, y);
    }
    NumberBound(b);
    k := OrbitCovers(Up, Down, 1, n, Number, Number(b));
    NumberInjective(Iter(Down, k, 1), b);
  }
}
