/** 33-bit timestamps: the five bytes they are coded in (section 2.4.3.7 of ISO/IEC 13818-1), and unfolding
    them around a reference. */
module Timestamps {
  import opened Basics

  const HALF: int := 0x1_0000_0000
  const WHOLE: int := 0x2_0000_0000

  // ---- the five bytes

  /** A timestamp of 33 bits, in three pieces with a marker bit after each. */
  function Encode(v: int, prefix: int): (b: seq<Byte>)
    requires 0 <= v < WHOLE && 0 <= prefix < 16
    ensures |b| == 5
  {
    Pieces(v);
    var top: int := 16 * prefix + v / 0x4000_0000 * 2 + 1;
    var middle: int := v / 0x8000 % 128 * 2 + 1;
    var low: int := v % 128 * 2 + 1;
    [top, v / 0x40_0000 % 256, middle, v / 0x80 % 256, low]
  }

  // b & 0x0E and b & 0xFE
  function And0E(b: Byte): int { b / 2 % 8 * 2 }
  function AndFE(b: Byte): int { b / 2 * 2 }

  /** The timestamp at a position of a packet header, as a signed number. */
  function Decode(b: seq<Byte>, at: nat): int
    requires at + 5 <= |b|
  {
    var v: int := And0E(b[at]) * 0x2000_0000 + b[at + 1] as int * 0x40_0000 + AndFE(b[at + 2]) * 0x4000 + b[at + 3] as int * 0x80 + AndFE(b[at + 4]) / 2;
    if v > HALF - 1 then v - WHOLE else v
  }

  lemma Pieces(v: int)
    requires 0 <= v < WHOLE
    ensures v == v / 0x4000_0000 * 0x4000_0000 + v / 0x40_0000 % 256 * 0x40_0000 + v / 0x8000 % 128 * 0x8000 + v / 0x80 % 256 * 0x80 + v % 128
    ensures 0 <= v / 0x4000_0000 < 8
  {
    var a, b, c := v / 0x80, v / 0x8000, v / 0x40_0000;
    Nested(v);
    assert v == a * 0x80 + v % 128 && a == b * 256 + a % 256 && b == c * 128 + b % 128 && c == v / 0x4000_0000 * 256 + c % 256;
  }

  lemma Nested(v: int)
    ensures v / 0x8000 == v / 0x80 / 256 && v / 0x40_0000 == v / 0x8000 / 128 && v / 0x4000_0000 == v / 0x40_0000 / 256
  {
  }

  lemma DecodeEncode(v: int, prefix: int)
    requires 0 <= v < WHOLE && 0 <= prefix < 16
    ensures Decode(Encode(v, prefix), 0) == if v < HALF then v else v - WHOLE
  {
    Pieces(v);
    Masked(v / 0x4000_0000, prefix);
    Unmarked(v / 0x8000 % 128);
    Unmarked(v % 128);
    hide And0E, AndFE;
  }

  /** The prefix and the marker bit are masked out of the first byte. */
  lemma Masked(top: int, prefix: int)
    requires 0 <= top < 8 && 0 <= prefix < 16
    ensures And0E(16 * prefix + top * 2 + 1) == top * 2
  {
    var b := 16 * prefix + top * 2 + 1;
    assert b / 2 == 8 * prefix + top;
  }

  /** The marker bit is masked out. */
  lemma Unmarked(n: int)
    requires 0 <= n < 128
    ensures AndFE(n * 2 + 1) == n * 2
  {
  }

  // ---- unfolding around a reference

  /** The timestamp congruent to a value that lies within half a turn of the reference. */
  function Unfold(value: real, reference: real): real
  {
    if Abs(value - reference) <= HALF as real then value
    else if reference < value then UnfoldDown(value, reference)
    else UnfoldUp(value, reference)
  }

  function UnfoldDown(value: real, reference: real): real
    decreases value - reference
  {
    if Abs(value - reference) <= HALF as real || value <= reference then value else UnfoldDown(value - WHOLE as real, reference)
  }

  function UnfoldUp(value: real, reference: real): real
    decreases reference - value
  {
    if Abs(value - reference) <= HALF as real || reference <= value then value else UnfoldUp(value + WHOLE as real, reference)
  }

  /** The remuxer's loop; it ends for every value and reference. */
  method PtsNormalize(value: real, reference: Option<real>) returns (r: real)
    ensures r == match reference case None => value case Some(ref) => Unfold(value, ref)
  {
    if reference.None? {
      return value;
    }
    var ref := reference.value;
    var down := ref < value;
    var offset := if down then -(WHOLE as real) else WHOLE as real;
    r := value;
    while Abs(r - ref) > HALF as real
      invariant down ==> UnfoldDown(r, ref) == UnfoldDown(value, ref) && r > ref - HALF as real
      invariant !down ==> UnfoldUp(r, ref) == UnfoldUp(value, ref) && r < ref + HALF as real
      decreases if down then r - ref else ref - r
    {
      r := r + offset;
    }
  }

  /** Congruent timestamps: a whole number of turns apart. */
  ghost predicate Turns(a: real, b: real, k: int) {
    a == b + k as real * WHOLE as real
  }

  lemma {:induction false} UnfoldDownTurns(value: real, reference: real) returns (k: int)
    requires value > reference - HALF as real
    ensures Turns(UnfoldDown(value, reference), value, k)
    ensures Abs(UnfoldDown(value, reference) - reference) <= HALF as real
    decreases value - reference
  {
    if Abs(value - reference) <= HALF as real {
      k := 0;
    } else {
      var j := UnfoldDownTurns(value - WHOLE as real, reference);
      k := j - 1;
    }
  }

  lemma {:induction false} UnfoldUpTurns(value: real, reference: real) returns (k: int)
    requires value < reference + HALF as real
    ensures Turns(UnfoldUp(value, reference), value, k)
    ensures Abs(UnfoldUp(value, reference) - reference) <= HALF as real
    decreases reference - value
  {
    if Abs(value - reference) <= HALF as real {
      k := 0;
    } else {
      var j := UnfoldUpTurns(value + WHOLE as real, reference);
      k := j + 1;
    }
  }

  /** Unfolding moves a value by whole turns to within half a turn of the reference. */
  lemma UnfoldNear(value: real, reference: real) returns (k: int)
    ensures Turns(Unfold(value, reference), value, k)
    ensures Abs(Unfold(value, reference) - reference) <= HALF as real
  {
    if Abs(value - reference) <= HALF as real {
      k := 0;
    } else if reference < value {
      k := UnfoldDownTurns(value, reference);
    } else {
      k := UnfoldUpTurns(value, reference);
    }
  }

  /** There is only one such value, unless it is exactly half a turn away. */
  lemma UnfoldUnique(value: real, reference: real, t: real, k: int)
    requires Turns(t, value, k) && Abs(t - reference) < HALF as real
    ensures Unfold(value, reference) == t
  {
    var j := UnfoldNear(value, reference);
    var r := Unfold(value, reference);
    assert r - t == (j - k) as real * WHOLE as real;
    assert Abs(r - t) < WHOLE as real;
    NoTurn(j - k);
  }

  lemma NoTurn(n: int)
    ensures Abs(n as real * WHOLE as real) < WHOLE as real <==> n == 0
  {
    assert n >= 1 ==> n as real * WHOLE as real >= WHOLE as real;
    assert n <= -1 ==> n as real * WHOLE as real <= -(WHOLE as real);
  }

  /** A time less than half a turn from the reference comes back from its five bytes. */
  lemma TimeRecovered(t: int, reference: real, prefix: int)
    requires Abs(t as real - reference) < HALF as real && 0 <= prefix < 16
    ensures Unfold(Decode(Encode(t % WHOLE, prefix), 0) as real, reference) == t as real
  {
    hide Encode, Decode;
    var v := t % WHOLE;
    DecodeEncode(v, prefix);
    var d := if v < HALF then v else v - WHOLE;
    var q := t / WHOLE;
    assert t == WHOLE * q + v;
    var k := if v < HALF then q else q + 1;
    assert t == d + WHOLE * k;
    assert t as real == d as real + k as real * WHOLE as real;
    UnfoldUnique(d as real, reference, t as real, k);
  }
}
