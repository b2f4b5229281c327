/** The lookup tables of the decryptor: filling them, and reading words through them. */
module AesLookups {
  import opened GaloisField
  import opened Orbit
  import opened FieldOrbit
  import opened Rijndael
  import opened Fips197
  import opened AesTables

  // ---- what the tables are to hold

  /** The word of what byte b contributes to its inverse-mixed column from each row. */
  ghost function ShareWord(row: nat, b: bv8): bv32 {
    if row == 0 then Pack(Share0(ByteAlgebra(), b))
    else if row == 1 then Pack(Share1(ByteAlgebra(), b))
    else if row == 2 then Pack(Share2(ByteAlgebra(), b))
    else Pack(Share3(ByteAlgebra(), b))
  }

  lemma SubByteInjective(a: bv8, b: bv8)
    requires Index(SubByte(a)) == Index(SubByte(b))
    ensures a == b
  {
    hide SubByte, InvSubByte;
    IndexInjective(SubByte(a), SubByte(b));
    SubByteUndone(a);
    SubByteUndone(b);
  }

  // ---- the doubling table

  ghost predicate Doubling(d: array<bv8>)
    reads d
  {
    d.Length == 256 && forall b: bv8 :: d[Index(b)] == XTime(b)
  }

  /** The entry for one number below 256. */
  method DoubleOf(b: bv8) returns (w: bv8)
    ensures w == XTime(b)
  {
    hide XTime, Index;
    IndexOrder(b);
    DoubleEntry(b);
    LowWide(XTime(b));
    if Index(b) < 128 {
      w := Low(Wide(b) << 1);
    } else {
      w := Low((Wide(b) << 1) ^ 0x11b);
    }
  }

  /** The loop over all numbers i below 256; b is i as a byte. */
  method BuildDoubling() returns (d: array<bv8>)
    ensures fresh(d) && Doubling(d)
  {
    hide XTime, Index;
    d := new bv8[256];
    var b: bv8 := 0;
    FirstIndex();
    for i := 0 to 256
      invariant i < 256 ==> Index(b) == i
      invariant forall c: bv8 :: Index(c) < i ==> d[Index(c)] == XTime(c)
    {
      d[i] := DoubleOf(b);
      forall c: bv8 | Index(c) == i
        ensures c == b
      {
        IndexInjective(c, b);
      }
      if i < 255 {
        NextIndex(b);
        b := b + 1;
      }
    }
  }

  // ---- one round of the table builder

  /** The substitute of x, from its inverse xi. */
  method Substitute(ghost x: bv8, xi: bv8) returns (sx: bv8)
    requires xi == Inverse(x)
    ensures sx == SubByte(x)
  {
    hide Inverse, Spread, Affine, Wide, Low;
    SpreadIsAffine(xi);
    LowWide(Affine(xi));
    sx := Low(Spread(Wide(xi)));
  }

  /** The word the table builder multiplies together from x and its doublings. */
  function MixWord(x: bv8, x2: bv8, x4: bv8, x8: bv8): bv32 {
    (x8 as bv32 * 0x1010101) ^ (x4 as bv32 * 0x10001) ^ (x2 as bv32 * 0x101) ^ (x as bv32 * 0x1010100)
  }

  lemma MixWordIsShare(x: bv8, x2: bv8, x4: bv8, x8: bv8)
    requires x2 == XTime(x) && x4 == XTime(x2) && x8 == XTime(x4)
    ensures MixWord(x, x2, x4, x8) == ShareWord(3, x)
  {
    hide XTime, Pack, Share3;
    MixedWord(MixWord(x, x2, x4, x8), x, x2, x4, x8);
    MixedIsShare(x, x2, x4, x8);
  }

  lemma ShareRotated(x: bv8)
    ensures RotateBy24(ShareWord(3, x)) == ShareWord(0, x)
    ensures RotateBy16(ShareWord(3, x)) == ShareWord(1, x)
    ensures RotateBy8(ShareWord(3, x)) == ShareWord(2, x)
  {
    hide Pack, Share0, Share1, Share2, Share3, RotateBy24, RotateBy16, RotateBy8;
    ShareWord0(x);
    ShareWord1(x);
    ShareWord2(x);
  }

  /** The four words of x, from its doublings. */
  method ShareWords(x: bv8, x2: bv8, x4: bv8, x8: bv8) returns (t0: bv32, t1: bv32, t2: bv32, t3: bv32)
    requires x2 == XTime(x) && x4 == XTime(x2) && x8 == XTime(x4)
    ensures t0 == ShareWord(0, x) && t1 == ShareWord(1, x) && t2 == ShareWord(2, x) && t3 == ShareWord(3, x)
  {
    hide *;
    var t := MixWord(x, x2, x4, x8);
    MixWordIsShare(x, x2, x4, x8);
    ShareRotated(x);
    t0 := RotateBy24(t);
    t1 := RotateBy16(t);
    t2 := RotateBy8(t);
    t3 := t;
  }

  /** The counters after entry i. */
  method NextCounters(d: array<bv8>, ghost i: nat, x: bv8, xi: bv8) returns (nx: bv8, nxi: bv8)
    requires Doubling(d) && x == XAt(i) && xi == XiAt(i)
    ensures nx == XAt(i + 1) && nxi == XiAt(i + 1)
  {
    hide XTime, Index, Xor, XAt, XiAt, Down, Up;
    if x == 0 {
      nx, nxi := 1, 1;
      CounterZero(i);
      CountersFirst();
    } else {
      var x2 := d[Index(x)];
      var x8 := d[Index(d[Index(x2)])];
      nx := Xor(x2, d[Index(d[Index(d[Index(Xor(x8, x2))])])]);
      nxi := Xor(xi, d[Index(d[Index(xi)])]);
      CounterNonzero(i);
    }
  }

  lemma CounterZero(i: nat)
    requires XAt(i) == 0
    ensures i == 0
  {
    if i > 0 {
      IterNonzero(i - 1);
    }
  }

  lemma CounterNonzero(i: nat)
    requires XAt(i) != 0
    ensures XAt(i + 1) == Xor(XTime(XAt(i)), XTime(XTime(XTime(Xor(XTime(XTime(XTime(XAt(i)))), XTime(XAt(i)))))))
    ensures XiAt(i + 1) == Xor(XiAt(i), XTime(XTime(XiAt(i))))
  {
    hide *;
    CounterStep(i);
    DownSteps(XAt(i));
    UpSteps(XiAt(i));
  }

  lemma CounterStep(i: nat)
    requires XAt(i) != 0
    ensures XAt(i + 1) == Down(XAt(i)) && XiAt(i + 1) == Up(XiAt(i))
  {
    hide Down, Up;
  }

  lemma DownSteps(x: bv8)
    ensures Down(x) == Xor(XTime(x), XTime(XTime(XTime(Xor(XTime(XTime(XTime(x))), XTime(x))))))
  {
  }

  lemma UpSteps(y: bv8)
    ensures Up(y) == Xor(y, XTime(XTime(y)))
  {
    hide XTime;
  }

  lemma CountersFirst()
    ensures XAt(1) == 1 && XiAt(1) == 1
  {
  }

  lemma CountersStart()
    ensures XAt(0) == 0 && XiAt(0) == 0
  {
  }

  // ---- the operations of a round on single columns of bytes

  ghost function SubCol(c: Column<bv8>): Column<bv8> {
    SubColumn(ByteAlgebra().sub, c)
  }

  ghost function UnsubCol(c: Column<bv8>): Column<bv8> {
    SubColumn(ByteAlgebra().invSub, c)
  }

  ghost function UnmixCol(c: Column<bv8>): Column<bv8> {
    InvMixColumn(ByteAlgebra(), c)
  }

  ghost function AddCol(a: Column<bv8>, b: Column<bv8>): Column<bv8> {
    AddColumns(ByteAlgebra(), a, b)
  }

  lemma SubColBytes(c: Column<bv8>)
    ensures SubCol(c) == Column(SubByte(c.r0), SubByte(c.r1), SubByte(c.r2), SubByte(c.r3))
  {
    hide SubByte;
  }

  lemma UnsubColBytes(a: bv8, b: bv8, c: bv8, d: bv8)
    ensures UnsubCol(Column(a, b, c, d)) == Column(InvSubByte(a), InvSubByte(b), InvSubByte(c), InvSubByte(d))
  {
    hide InvSubByte;
  }

  lemma AddColWords(a: Column<bv8>, b: Column<bv8>)
    ensures XorWords(Pack(a), Pack(b)) == Pack(AddCol(a, b))
  {
    hide Pack, AddColumns, ByteAlgebra;
    PackAdd(a, b);
  }

  lemma SharesMix(a: bv8, b: bv8, c: bv8, d: bv8)
    ensures XorWords(XorWords(XorWords(ShareWord(0, a), ShareWord(1, b)), ShareWord(2, c)), ShareWord(3, d))
            == Pack(UnmixCol(Column(a, b, c, d)))
  {
    hide ByteAlgebra, Share0, Share1, Share2, Share3, InvMixColumn, Pack, OnWords;
    BytesOnWords();
    ShareSum(ByteAlgebra(), Pack, Column(a, b, c, d), ShareWord(0, a), ShareWord(1, b), ShareWord(2, c), ShareWord(3, d));
  }

  class Tables {
    const sBox: array<bv32>
    const invSBox: array<bv32>
    const invSubMix0: array<bv32>
    const invSubMix1: array<bv32>
    const invSubMix2: array<bv32>
    const invSubMix3: array<bv32>

    ghost predicate Shaped() {
      && sBox.Length == invSBox.Length == 256
      && invSubMix0.Length == invSubMix1.Length == invSubMix2.Length == invSubMix3.Length == 256
      && sBox != invSBox
      && sBox !in {invSubMix0, invSubMix1, invSubMix2, invSubMix3}
      && invSBox !in {invSubMix0, invSubMix1, invSubMix2, invSubMix3}
      && invSubMix0 !in {invSubMix1, invSubMix2, invSubMix3}
      && invSubMix1 !in {invSubMix2, invSubMix3}
      && invSubMix2 != invSubMix3
    }

    constructor Empty()
      ensures Shaped()
      ensures fresh(sBox) && fresh(invSBox)
      ensures fresh(invSubMix0) && fresh(invSubMix1) && fresh(invSubMix2) && fresh(invSubMix3)
    {
      sBox := new bv32[256];
      invSBox := new bv32[256];
      invSubMix0 := new bv32[256];
      invSubMix1 := new bv32[256];
      invSubMix2 := new bv32[256];
      invSubMix3 := new bv32[256];
    }

    ghost function Arrays(): set<array<bv32>> {
      {sBox, invSBox, invSubMix0, invSubMix1, invSubMix2, invSubMix3}
    }

    /** The entries for byte b, and under its substitute the way back and its shares. */
    ghost predicate Entry(b: bv8)
      requires Shaped()
      reads sBox, invSBox, invSubMix0, invSubMix1, invSubMix2, invSubMix3
    {
      var y := Index(SubByte(b));
      && sBox[Index(b)] == Wide(SubByte(b))
      && invSBox[y] == Wide(b)
      && invSubMix0[y] == ShareWord(0, b)
      && invSubMix1[y] == ShareWord(1, b)
      && invSubMix2[y] == ShareWord(2, b)
      && invSubMix3[y] == ShareWord(3, b)
    }

    ghost predicate Filled()
      reads sBox, invSBox, invSubMix0, invSubMix1, invSubMix2, invSubMix3
    {
      Shaped() && forall b: bv8 :: Entry(b)
    }

    /** Write the entries of one byte, keeping those of all others. */
    method WriteEntry(x: bv8, sx: bv8, t0: bv32, t1: bv32, t2: bv32, t3: bv32)
      requires Shaped() && sx == SubByte(x)
      requires t0 == ShareWord(0, x) && t1 == ShareWord(1, x) && t2 == ShareWord(2, x) && t3 == ShareWord(3, x)
      modifies sBox, invSBox, invSubMix0, invSubMix1, invSubMix2, invSubMix3
      ensures Entry(x)
      ensures forall b: bv8 :: old(Entry(b)) ==> Entry(b)
    {
      hide SubByte, Index, Wide, ShareWord;
      forall b: bv8 | Index(SubByte(b)) == Index(SubByte(x))
        ensures b == x
      {
        SubByteInjective(b, x);
      }
      forall b: bv8 | Index(b) == Index(x)
        ensures b == x
      {
        IndexInjective(b, x);
      }
      sBox[Index(x)] := Wide(sx);
      invSBox[Index(sx)] := Wide(x);
      invSubMix0[Index(sx)] := t0;
      invSubMix1[Index(sx)] := t1;
      invSubMix2[Index(sx)] := t2;
      invSubMix3[Index(sx)] := t3;
    }

    method InitTable()
      requires Shaped()
      modifies sBox, invSBox, invSubMix0, invSubMix1, invSubMix2, invSubMix3
      ensures Filled()
    {
      hide Entry, XTime, SubByte, XAt, XiAt, Index, Inverse, ShareWord;
      var d := BuildDoubling();
      var x, xi := 0, 0;
      CountersStart();
      for i := 0 to 256
        invariant Doubling(d)
        invariant x == XAt(i) && xi == XiAt(i)
        invariant forall k: nat :: k < i ==> Entry(XAt(k))
      {
        XiIsInverse(i);
        var sx := Substitute(x, xi);
        var x2 := d[Index(x)];
        var x4 := d[Index(x2)];
        var x8 := d[Index(x4)];
        var t0, t1, t2, t3 := ShareWords(x, x2, x4, x8);
        WriteEntry(x, sx, t0, t1, t2, t3);
        x, xi := NextCounters(d, i, x, xi);
      }
      forall b: bv8
        ensures Entry(b)
      {
        var i := XAtCovers(b);
      }
    }

    // ---- reading through the filled tables

    /** The substitute of every byte of a word, as the key expansion looks it up. */
    method SubstituteWord(ghost c: Column<bv8>, t: bv32) returns (w: bv32)
      requires Filled() && t == Pack(c)
      ensures w == Pack(SubCol(c))
    {
      hide *;
      UnpackPack(c);
      SubColBytes(c);
      var b := Unpack(t);
      var y0 := Substituted(b.r0);
      var y1 := Substituted(b.r1);
      var y2 := Substituted(b.r2);
      var y3 := Substituted(b.r3);
      JoinWide(SubByte(c.r0), SubByte(c.r1), SubByte(c.r2), SubByte(c.r3));
      w := Join(y0, y1, y2, y3);
    }

    method Substituted(b: bv8) returns (w: bv32)
      requires Filled()
      ensures w == Wide(SubByte(b))
    {
      hide SubByte, Wide, Index, ShareWord;
      assert Entry(b);
      w := sBox[Index(b)];
    }

    method SubstitutedByte(b: bv8) returns (y: bv8)
      requires Filled()
      ensures y == SubByte(b)
    {
      hide *;
      var w := Substituted(b);
      LowWide(SubByte(b));
      y := Low(w);
    }

    /** The way back from a byte. */
    method Unsubstituted(y: bv8) returns (w: bv32)
      requires Filled()
      ensures w == Wide(InvSubByte(y))
    {
      hide SubByte, InvSubByte, Wide, Index, ShareWord;
      assert Entry(InvSubByte(y));
      SubByteUndone(y);
      w := invSBox[Index(y)];
    }

    /** The word of a column put together from the ways back of four bytes. */
    method UnsubstitutedColumn(a: bv8, b: bv8, c: bv8, d: bv8) returns (w: bv32)
      requires Filled()
      ensures w == Pack(UnsubCol(Column(a, b, c, d)))
    {
      hide *;
      var x0 := Unsubstituted(a);
      var x1 := Unsubstituted(b);
      var x2 := Unsubstituted(c);
      var x3 := Unsubstituted(d);
      UnsubColBytes(a, b, c, d);
      JoinWide(InvSubByte(a), InvSubByte(b), InvSubByte(c), InvSubByte(d));
      w := JoinXor(x0, x1, x2, x3);
    }

    method Share(row: nat, y: bv8) returns (w: bv32)
      requires Filled() && row < 4
      ensures w == ShareWord(row, InvSubByte(y))
    {
      hide SubByte, InvSubByte, Wide, Index, ShareWord;
      assert Entry(InvSubByte(y));
      SubByteUndone(y);
      w := if row == 0 then invSubMix0[Index(y)]
           else if row == 1 then invSubMix1[Index(y)]
           else if row == 2 then invSubMix2[Index(y)]
           else invSubMix3[Index(y)];
    }

    /** The sum of four table entries is the inverse-mixed column of the four bytes they undo. */
    method Mixed(a: bv8, b: bv8, c: bv8, d: bv8) returns (w: bv32)
      requires Filled()
      ensures w == Pack(UnmixCol(UnsubCol(Column(a, b, c, d))))
    {
      hide *;
      var w0 := Share(0, a);
      var w1 := Share(1, b);
      var w2 := Share(2, c);
      var w3 := Share(3, d);
      UnsubColBytes(a, b, c, d);
      SharesMix(InvSubByte(a), InvSubByte(b), InvSubByte(c), InvSubByte(d));
      w := XorWords(XorWords(XorWords(w0, w1), w2), w3);
    }
  }
}
