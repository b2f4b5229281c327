/** The audio frames of a fragment: frames that overlap are dropped, gaps are filled, and every frame is moved to
    the time where the one before it ends. */
module AudioRepair {
  import opened Basics
  import opened Mp4Boxes
  import opened VideoTimes

  datatype Frame = Frame(bytes: seq<Byte>, pts: real)

  /** The length of a frame and the clock, in ticks, and the silent frame of the codec, empty if there is none. */
  datatype Format = Format(duration: real, timescale: real, silent: seq<Byte>)

  predicate Valid(f: Format) {
    f.duration > 0.0 && f.timescale > 0.0
  }

  const MAX_SILENT_FRAME_DURATION: real := 10000.0

  /** The frame to fill a gap with: silence, or else the frame after the gap again. */
  function Filler(f: Format, s: Frame): seq<Byte> {
    if f.silent == [] then s.bytes else f.silent
  }

  predicate Overlaps(f: Format, s: Frame, next: real) {
    s.pts - next <= -f.duration
  }

  predicate Gap(f: Format, s: Frame, next: real)
    requires Valid(f)
  {
    s.pts - next >= f.duration && Abs(1000.0 * (s.pts - next) / f.timescale) < MAX_SILENT_FRAME_DURATION && next != 0.0
  }

  /** How many frames fit into the gap. */
  function Missing(f: Format, s: Frame, next: real): (n: nat)
    requires Valid(f) && Gap(f, s, next)
  {
    CountPositive(s.pts - next, f.duration);
    Round((s.pts - next) / f.duration)
  }

  lemma CountPositive(delta: real, duration: real)
    requires duration > 0.0 && delta >= duration
    ensures delta / duration >= 1.0
  {
  }

  /** Fillers from one expected time on. */
  function Fill(f: Format, bytes: seq<Byte>, next: real, n: nat): (r: seq<Frame>)
    ensures |r| == n
    decreases n
  {
    if n == 0 then [] else [Frame(bytes, Max(next, 0.0))] + Fill(f, bytes, next + f.duration, n - 1)
  }

  /** The time n frames later. */
  function After(f: Format, next: real, n: nat): real
    decreases n
  {
    if n == 0 then next else After(f, next + f.duration, n - 1)
  }

  function Repaired(f: Format, s: seq<Frame>, next: real): seq<Frame>
    requires Valid(f)
    decreases |s|
  {
    if s == [] then []
    else if Overlaps(f, s[0], next) then Repaired(f, s[1..], next)
    else if Gap(f, s[0], next) then
      var n := Missing(f, s[0], next);
      var at := After(f, next, n);
      Fill(f, Filler(f, s[0]), next, n) + ([s[0].(pts := at)] + Repaired(f, s[1..], at + f.duration))
    else [s[0].(pts := next)] + Repaired(f, s[1..], next + f.duration)
  }

  function Length(s: seq<Frame>): nat {
    if s == [] then 0 else |s[0].bytes| + Length(s[1..])
  }

  lemma {:induction false} LengthConcat(a: seq<Frame>, b: seq<Frame>)
    ensures Length(a + b) == Length(a) + Length(b)
  {
    if a == [] {
      assert a + b == b;
    } else {
      assert (a + b)[1..] == a[1..] + b;
      LengthConcat(a[1..], b);
    }
  }

  lemma {:induction false} LengthSnoc(s: seq<Frame>, f: Frame)
    ensures Length(s + [f]) == Length(s) + |f.bytes|
  {
    LengthConcat(s, [f]);
    assert [f][1..] == [];
  }

  lemma PutBetween<T>(a: seq<T>, b: seq<T>, x: T, c: seq<T>)
    ensures var s := a + b + c;
            s[..|a| + |b|] + [x] + s[|a| + |b|..] == a + (b + [x]) + c
  {
  }

  lemma Grouped<T>(a: seq<T>, b: seq<T>, c: seq<T>, d: seq<T>)
    ensures a + (b + (c + d)) == a + b + c + d && a + (b + c) == a + b + c
  {
  }

  // ---- the loop of the source

  class Track {
    var samples: seq<Frame>
    var len: int

    constructor (samples: seq<Frame>, len: int)
      ensures this.samples == samples && this.len == len
    {
      this.samples := samples;
      this.len := len;
    }

    /** Insert fillers at a position, and return the position and the expected time after them. */
    method Inject(f: Format, start: nat, bytes: seq<Byte>, missing: nat, next: real) returns (i: nat, nextPts: real)
      requires start <= |samples|
      modifies this
      ensures samples == old(samples[..start]) + Fill(f, bytes, next, missing) + old(samples[start..])
      ensures i == start + missing && nextPts == After(f, next, missing)
      ensures len == old(len) + Length(Fill(f, bytes, next, missing))
    {
      i, nextPts := start, next;
      ghost var before, after, all := samples[..start], samples[start..], Fill(f, bytes, next, missing);
      assert samples == before + after;
      ghost var filled: seq<Frame> := [];
      assert filled + all == all;
      for j := 0 to missing
        invariant i == start + j && |filled| == j
        invariant samples == before + filled + after
        invariant filled + Fill(f, bytes, nextPts, missing - j) == all
        invariant After(f, nextPts, missing - j) == After(f, next, missing)
        invariant len == old(len) + Length(filled)
      {
        var stamp := Frame(bytes, Max(nextPts, 0.0));
        ghost var rest := Fill(f, bytes, nextPts + f.duration, missing - j - 1);
        PutBetween(before, filled, stamp, after);
        samples := samples[..i] + [stamp] + samples[i..];
        Grouped(filled, [stamp], rest, []);
        LengthSnoc(filled, stamp);
        filled := filled + [stamp];
        len := len + |bytes|;
        nextPts := nextPts + f.duration;
        i := i + 1;
      }
      assert filled + [] == filled;
    }

    /** Remove the frame at a position. */
    method DropAt(i: nat, ghost done: seq<Frame>, ghost sample: Frame, ghost rest: seq<Frame>)
      requires samples == done + ([sample] + rest) && i == |done|
      modifies this
      ensures samples == done + rest && len - Length(samples) == old(len - Length(samples))
    {
      LengthConcat(done, [sample] + rest);
      LengthConcat(done, rest);
      assert ([sample] + rest)[1..] == rest;
      len := len - |samples[i].bytes|;
      samples := samples[..i] + samples[i + 1..];
    }

    /** Move the frame at a position to a time. */
    method MoveAt(i: nat, pts: real, ghost done: seq<Frame>, ghost sample: Frame, ghost rest: seq<Frame>)
      requires samples == done + ([sample] + rest) && i == |done|
      modifies this
      ensures samples == (done + [sample.(pts := pts)]) + rest && len - Length(samples) == old(len - Length(samples))
    {
      ghost var moved := sample.(pts := pts);
      LengthConcat(done, [sample] + rest);
      LengthConcat(done, [moved] + rest);
      assert ([sample] + rest)[1..] == rest && ([moved] + rest)[1..] == rest;
      samples := samples[i := samples[i].(pts := pts)];
      assert samples == done + ([moved] + rest);
    }

    /** Fill the gap before the frame at a position. */
    method FillAt(f: Format, start: nat, nextPts: real, ghost done: seq<Frame>, sample: Frame, ghost rest: seq<Frame>)
      returns (i: nat, next: real)
      requires Valid(f) && Gap(f, sample, nextPts)
      requires samples == done + ([sample] + rest) && start == |done|
      modifies this
      ensures var n := Missing(f, sample, nextPts);
              var fill := Fill(f, Filler(f, sample), nextPts, n);
              samples == (done + fill) + ([sample] + rest) && i == |done + fill| && next == After(f, nextPts, n)
      ensures len - Length(samples) == old(len - Length(samples))
    {
      hide Gap, Missing, Filler;
      var n := Missing(f, sample, nextPts);
      ghost var fill := Fill(f, Filler(f, sample), nextPts, n);
      assert samples[..start] == done && samples[start..] == [sample] + rest;
      LengthConcat(done, [sample] + rest);
      LengthConcat(done, fill);
      LengthConcat(done + fill, [sample] + rest);
      i, next := Inject(f, start, Filler(f, sample), n, nextPts);
    }

    /** Drop, fill and adjust. The loop inserts before the position it is at, and ends because what is left after
        that position shrinks. */
    method Repair(f: Format, expected: real)
      requires Valid(f)
      modifies this
      ensures samples == Repaired(f, old(samples), expected)
      ensures len - Length(samples) == old(len - Length(samples))
    {
      hide Gap, Overlaps, Missing, Filler, After, Fill, Length;
      var i, nextPts := 0, expected;
      ghost var done: seq<Frame>, left := [], samples;
      assert done + Repaired(f, samples, expected) == Repaired(f, samples, expected);
      assert samples == done + left;
      while i < |samples|
        invariant samples == done + left && i == |done|
        invariant done + Repaired(f, left, nextPts) == Repaired(f, old(samples), expected)
        invariant len - Length(samples) == old(len - Length(samples))
        decreases |samples| - i
      {
        var sample := samples[i];
        ghost var rest := left[1..];
        assert left == [sample] + rest;
        if Overlaps(f, sample, nextPts) {
          DropAt(i, done, sample, rest);
        } else {
          ghost var start := nextPts;
          ghost var before := done;
          ghost var fill: seq<Frame> := [];
          if Gap(f, sample, nextPts) {
            fill := Fill(f, Filler(f, sample), nextPts, Missing(f, sample, nextPts));
            i, nextPts := FillAt(f, i, nextPts, done, sample, rest);
            done := done + fill;
          }
          MoveAt(i, nextPts, done, sample, rest);
          ghost var moved := sample.(pts := nextPts);
          ghost var tail := Repaired(f, rest, nextPts + f.duration);
          Grouped(before, fill, [moved], tail);
          assert fill == [] ==> before + fill == before && fill + ([moved] + tail) == [moved] + tail;
          assert Repaired(f, left, start) == fill + ([moved] + tail);
          done := done + [moved];
          nextPts := nextPts + f.duration;
          i := i + 1;
        }
        left := rest;
      }
      assert left == [] && done + [] == done;
    }
  }

  // ---- what it comes to

  lemma OneTickMore(n: nat, d: real)
    requires n > 0
    ensures (n - 1) as real * d + d == n as real * d
  {
    var m := (n - 1) as real;
    assert n as real == m + 1.0;
    assert (m + 1.0) * d == m * d + d;
  }

  lemma {:induction false} AfterIs(f: Format, next: real, n: nat)
    ensures After(f, next, n) == next + n as real * f.duration
    decreases n
  {
    if n > 0 {
      AfterIs(f, next + f.duration, n - 1);
      OneTickMore(n, f.duration);
    }
  }

  lemma {:induction false} FillStamps(f: Format, bytes: seq<Byte>, next: real, n: nat, k: nat)
    requires Valid(f) && next >= 0.0 && k < n
    ensures Fill(f, bytes, next, n)[k].pts == After(f, next, k)
    decreases n
  {
    if k > 0 {
      FillStamps(f, bytes, next + f.duration, n - 1, k - 1);
    }
  }

  lemma {:induction false} AfterMore(f: Format, next: real, n: nat, k: nat)
    ensures After(f, After(f, next, n), k) == After(f, next, n + k)
    decreases n
  {
    if n > 0 {
      AfterMore(f, next + f.duration, n - 1, k);
    }
  }

  lemma {:induction false} AfterNonnegative(f: Format, next: real, n: nat)
    requires Valid(f) && next >= 0.0
    ensures After(f, next, n) >= 0.0
    decreases n
  {
    if n > 0 {
      AfterNonnegative(f, next + f.duration, n - 1);
    }
  }

  /** From an expected time that is not negative, frame k of the repaired track is at that time and k frames more,
      whatever the times of the input. */
  lemma {:induction false} RepairedStamps(f: Format, s: seq<Frame>, next: real, k: nat)
    requires Valid(f) && next >= 0.0 && k < |Repaired(f, s, next)|
    ensures Repaired(f, s, next)[k].pts == After(f, next, k)
    decreases |s|
  {
    hide Gap, Overlaps, Filler, Missing;
    if Overlaps(f, s[0], next) {
      RepairedStamps(f, s[1..], next, k);
    } else {
      var n := if Gap(f, s[0], next) then Missing(f, s[0], next) else 0;
      var at := After(f, next, n);
      AfterNonnegative(f, next, n);
      if k < n {
        FillStamps(f, Filler(f, s[0]), next, n, k);
      } else {
        AfterMore(f, next, n, k - n);
        if k > n {
          RepairedStamps(f, s[1..], at + f.duration, k - n - 1);
        }
      }
    }
  }

  /** The same, in closed form: consecutive frames are exactly one frame apart. */
  lemma {:induction false} StampsEven(f: Format, s: seq<Frame>, next: real, k: nat)
    requires Valid(f) && next >= 0.0 && k < |Repaired(f, s, next)|
    ensures Repaired(f, s, next)[k].pts == next + k as real * f.duration
  {
    RepairedStamps(f, s, next, k);
    AfterIs(f, next, k);
  }
}
