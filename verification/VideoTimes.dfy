/** The decode and presentation times of a video fragment, as the remuxer repairs them (not on Safari). */
module VideoTimes {
  import opened Basics
  import opened Timestamps
  import Mp4Boxes

  /** A picture: its times, its number in demuxing order, its units, and whether it is a key frame. */
  datatype Sample = Sample(pts: real, dts: real, id: int, units: seq<seq<Byte>>, key: bool)

  /** Math.round: halves go up. */
  function Round(x: real): int {
    (x + 0.5).Floor
  }

  // ---- the stages

  /** Times relative to the first timestamp, unfolded around the expected decode time. */
  function Normalized(s: seq<Sample>, initDts: real, next: real): (r: seq<Sample>)
    ensures |r| == |s|
  {
    seq(|s|, i requires 0 <= i < |s| =>
      s[i].(pts := Unfold(s[i].pts - initDts, next), dts := Unfold(s[i].dts - initDts, next)))
  }

  /** Decode time, then presentation time, then the order of demuxing. */
  predicate Before(a: Sample, b: Sample) {
    a.dts < b.dts || (a.dts == b.dts && (a.pts < b.pts || (a.pts == b.pts && a.id <= b.id)))
  }

  function Insert(x: Sample, s: seq<Sample>): seq<Sample> {
    if s == [] then [x] else if Before(x, s[0]) then [x] + s else [s[0]] + Insert(x, s[1..])
  }

  function Sorted(s: seq<Sample>): seq<Sample> {
    if s == [] then [] else Insert(s[0], Sorted(s[1..]))
  }

  /** How far presentation falls behind decoding, at most 200 ms; the fold of the source. */
  function Shift(s: seq<Sample>, from: real): real {
    if s == [] then from else Shift(s[1..], Max(Min(from, s[0].pts - s[0].dts), -18000.0))
  }

  function Shifted(s: seq<Sample>, shift: real): (r: seq<Sample>)
    ensures |r| == |s|
  {
    if shift < 0.0 then seq(|s|, i requires 0 <= i < |s| => s[i].(dts := s[i].dts + shift)) else s
  }

  /** Where a fragment starts, and its samples with the first one moved there. */
  datatype Head = Head(firstDts: real, firstPts: real, samples: seq<Sample>)

  function Aligned(s: seq<Sample>, contiguous: bool, next: real): (h: Head)
    requires s != []
    ensures |h.samples| == |s|
  {
    var firstDts, firstPts := Max(s[0].dts, 0.0), Max(s[0].pts, 0.0);
    var delta := Round((firstDts - next) / 90.0);
    if contiguous && delta != 0 then
      var pts := Max(firstPts - delta as real, next);
      Head(next, pts, s[0 := s[0].(dts := next, pts := pts)])
    else Head(firstDts, firstPts, s)
  }

  function Clamp(s: Sample, firstDts: real): Sample {
    var dts := Max(s.dts, firstDts);
    s.(dts := dts, pts := Max(s.pts, dts))
  }

  function Clamped(s: seq<Sample>, firstDts: real): (r: seq<Sample>)
    ensures |r| == |s|
  {
    seq(|s|, i requires 0 <= i < |s| => Clamp(s[i], firstDts))
  }

  /** What stretching of a short video track depends on: none when it is switched off. */
  datatype Stretch = Off | On(tolerance: int, audioEnd: real)

  /** The duration of the last sample: that of the one before, unless it is stretched to where audio ends. */
  function LastDuration(s: seq<Sample>, stretch: Stretch): real
    requires s != []
  {
    var n := |s| - 1;
    var previous := s[n].dts - s[if n > 0 then n - 1 else n].dts;
    if stretch.On? && stretch.audioEnd - s[n].pts > stretch.tolerance as real then
      var d := stretch.audioEnd - s[n].pts - previous;
      if d < 0.0 then previous else d
    else previous
  }

  function Durations(s: seq<Sample>, stretch: Stretch): (d: seq<real>)
    requires s != []
    ensures |d| == |s|
  {
    seq(|s|, i requires 0 <= i < |s| => if i < |s| - 1 then s[i + 1].dts - s[i].dts else LastDuration(s, stretch))
  }

  // ---- the whole

  datatype Config = Config(initDts: real, contiguous: bool, timeOffset: real, timescale: nat, stretch: Stretch)

  datatype Fragment = Fragment(firstDts: real, firstPts: real, lastDts: real, samples: seq<Sample>, durations: seq<real>,
                               nextAvcDts: real)

  /** The decode time expected first. */
  function Expected(c: Config, nextAvcDts: real): real {
    if c.contiguous then nextAvcDts else c.timeOffset * c.timescale as real
  }

  function Prepared(input: seq<Sample>, c: Config, next: real): (s: seq<Sample>) {
    var s := Sorted(Normalized(input, c.initDts, next));
    Shifted(s, Shift(s, 0.0))
  }

  /** The last decode time, before it is raised to the first one. */
  function LastDecode(input: seq<Sample>, c: Config, next: real): real
    requires Prepared(input, c, next) != []
  {
    var h := Aligned(Prepared(input, c, next), c.contiguous, next);
    h.samples[|h.samples| - 1].dts
  }

  function Timed(input: seq<Sample>, c: Config, nextAvcDts: real): Fragment
    requires Prepared(input, c, Expected(c, nextAvcDts)) != []
  {
    var next := Expected(c, nextAvcDts);
    var h := Aligned(Prepared(input, c, next), c.contiguous, next);
    var lastDts := Max(LastDecode(input, c, next), 0.0);
    var s := Clamped(h.samples, h.firstDts);
    var d := Durations(s, c.stretch);
    Fragment(h.firstDts, h.firstPts, lastDts, s, d, lastDts + d[|d| - 1])
  }

  // ---- sorting

  ghost predicate Ordered(s: seq<Sample>) {
    forall i, j :: 0 <= i < j < |s| ==> s[i].dts <= s[j].dts
  }

  lemma OrderedCons(x: Sample, s: seq<Sample>)
    requires Ordered(s) && s != [] && x.dts <= s[0].dts
    ensures Ordered([x] + s) && ([x] + s)[0] == x
  {
  }

  lemma {:induction false} InsertOrdered(x: Sample, s: seq<Sample>)
    requires Ordered(s)
    ensures Ordered(Insert(x, s)) && multiset(Insert(x, s)) == multiset{x} + multiset(s)
    ensures Insert(x, s)[0].dts == x.dts || (s != [] && Insert(x, s)[0].dts == s[0].dts && s[0].dts <= x.dts)
  {
    InsertKeeps(x, s);
    if s != [] && !Before(x, s[0]) {
      OrderedRest(s);
      InsertOrdered(x, s[1..]);
      var r := Insert(x, s[1..]);
      assert s[0].dts <= r[0].dts;
      OrderedCons(s[0], r);
    } else if s != [] {
      OrderedCons(x, s);
    }
  }

  lemma OrderedRest(s: seq<Sample>)
    requires Ordered(s) && s != []
    ensures Ordered(s[1..])
  {
  }

  lemma {:induction false} InsertKeeps(x: Sample, s: seq<Sample>)
    ensures multiset(Insert(x, s)) == multiset{x} + multiset(s)
  {
    hide Before;
    if s != [] {
      InsertKeeps(x, s[1..]);
      assert s == [s[0]] + s[1..];
    }
  }

  lemma {:induction false} SortedOrdered(s: seq<Sample>)
    ensures Ordered(Sorted(s)) && multiset(Sorted(s)) == multiset(s) && |Sorted(s)| == |s|
  {
    if s != [] {
      SortedOrdered(s[1..]);
      InsertOrdered(s[0], Sorted(s[1..]));
      assert s == [s[0]] + s[1..];
      assert |multiset(Sorted(s))| == |multiset(s)|;
    }
  }

  lemma PreparedOrdered(input: seq<Sample>, c: Config, next: real)
    ensures Ordered(Prepared(input, c, next)) && |Prepared(input, c, next)| == |input|
  {
    SortedOrdered(Normalized(input, c.initDts, next));
  }

  // ---- what the times of a fragment satisfy

  function Sum(d: seq<real>): real {
    if d == [] then 0.0 else d[0] + Sum(d[1..])
  }

  lemma AlignedFirst(s: seq<Sample>, contiguous: bool, next: real)
    requires s != [] && Ordered(s)
    ensures var h := Aligned(s, contiguous, next);
            && |h.samples| == |s| && h.samples[0].dts <= h.firstDts
            && (forall i, j :: 1 <= i < j < |s| ==> h.samples[i].dts <= h.samples[j].dts)
  {
  }

  lemma ClampedOrdered(s: seq<Sample>, firstDts: real)
    requires s != [] && s[0].dts <= firstDts
    requires forall i, j :: 1 <= i < j < |s| ==> s[i].dts <= s[j].dts
    ensures var r := Clamped(s, firstDts);
            && Ordered(r) && r[0].dts == firstDts
            && (forall i :: 0 <= i < |r| ==> r[i].dts <= r[i].pts && Round(r[i].pts - r[i].dts) >= 0)
  {
  }

  /** Decode times never decrease, start at the first decode time, and no sample is presented before it is decoded. */
  lemma TimesOrdered(input: seq<Sample>, c: Config, nextAvcDts: real)
    requires input != []
    ensures Prepared(input, c, Expected(c, nextAvcDts)) != []
    ensures var f := Timed(input, c, nextAvcDts);
            && |f.samples| == |f.durations| == |input| && f.samples[0].dts == f.firstDts
            && Ordered(f.samples)
            && (forall i :: 0 <= i < |f.samples| ==> f.samples[i].dts <= f.samples[i].pts)
            && (forall i :: 0 <= i < |f.samples| ==> Round(f.samples[i].pts - f.samples[i].dts) >= 0)
  {
    hide Prepared, Aligned, Clamped, LastDuration, Durations, LastDecode, Round;
    var next := Expected(c, nextAvcDts);
    PreparedOrdered(input, c, next);
    AlignedFirst(Prepared(input, c, next), c.contiguous, next);
    var h := Aligned(Prepared(input, c, next), c.contiguous, next);
    ClampedOrdered(h.samples, h.firstDts);
  }

  lemma {:induction false} Telescope(s: seq<Sample>, stretch: Stretch, i: nat)
    requires s != [] && i < |s|
    ensures Sum(Durations(s, stretch)[i..]) == s[|s| - 1].dts - s[i].dts + LastDuration(s, stretch)
    decreases |s| - i
  {
    hide LastDuration;
    var d := Durations(s, stretch);
    assert d[i..][1..] == d[i + 1..];
    if i + 1 == |s| {
      assert d[i..] == [d[i]];
    } else {
      Telescope(s, stretch, i + 1);
    }
  }

  /** The first sample is moved to the time expected: the fragment follows on another one, and does not start where it
      is expected, to the millisecond. */
  predicate Moved(s: seq<Sample>, contiguous: bool, next: real)
    requires s != []
  {
    contiguous && Round((Max(s[0].dts, 0.0) - next) / 90.0) != 0
  }

  /** A fragment whose first sample is moved goes on where the next one is expected: the last sample of the input is not
      before the time expected, and neither is 0. */
  predicate GoesOn(s: seq<Sample>, next: real)
    requires s != []
  {
    var last := s[|s| - 1].dts;
    if |s| == 1 then next >= 0.0 else if last >= 0.0 then next <= last else next == 0.0
  }

  lemma RaisedAlike(s: seq<Sample>, contiguous: bool, next: real)
    requires s != [] && Ordered(s)
    ensures var h := Aligned(s, contiguous, next);
            var last := h.samples[|s| - 1].dts;
            Max(last, 0.0) == Max(last, h.firstDts) <==> !Moved(s, contiguous, next) || GoesOn(s, next)
  {
    hide Round;
    assert s[0].dts <= s[|s| - 1].dts;
  }

  /** The durations add up to the last decode time plus the last duration, less the first decode time. The fragment
      ends where the next one is expected unless its first sample is moved to a time after its last one. */
  lemma DurationsConserved(input: seq<Sample>, c: Config, nextAvcDts: real)
    requires input != []
    ensures Prepared(input, c, Expected(c, nextAvcDts)) != []
    ensures var f := Timed(input, c, nextAvcDts);
            var n := |f.samples| - 1;
            && f.firstDts + Sum(f.durations) == f.samples[n].dts + f.durations[n]
            && Sum(f.durations[..n]) == f.samples[n].dts - f.firstDts
    ensures var f := Timed(input, c, nextAvcDts);
            var next := Expected(c, nextAvcDts);
            var s := Prepared(input, c, next);
            f.nextAvcDts == f.firstDts + Sum(f.durations) <==> !Moved(s, c.contiguous, next) || GoesOn(s, next)
  {
    hide Prepared, LastDuration, Aligned, Moved, GoesOn;
    TimesOrdered(input, c, nextAvcDts);
    var f := Timed(input, c, nextAvcDts);
    Telescope(f.samples, c.stretch, 0);
    assert f.durations[0..] == f.durations;
    SumLast(f.durations);
    PreparedOrdered(input, c, Expected(c, nextAvcDts));
    RaisedAlike(Prepared(input, c, Expected(c, nextAvcDts)), c.contiguous, Expected(c, nextAvcDts));
  }

  lemma {:induction false} SumLast(d: seq<real>)
    requires d != []
    ensures Sum(d) == Sum(d[..|d| - 1]) + d[|d| - 1]
  {
    if |d| == 1 {
      assert d[1..] == [] && d[..0] == [];
    } else {
      SumLast(d[1..]);
      assert d[1..][..|d| - 2] == d[..|d| - 1][1..];
    }
  }

  /** The next expected time is right for every fragment that follows on no other, and for one that does if its last
      decode time is not before the time expected, which is not negative. */
  lemma NextExpected(input: seq<Sample>, c: Config, nextAvcDts: real)
    requires input != [] && Prepared(input, c, Expected(c, nextAvcDts)) != []
    requires var s := Prepared(input, c, Expected(c, nextAvcDts));
             c.contiguous ==> 0.0 <= nextAvcDts && (|s| > 1 ==> nextAvcDts <= s[|s| - 1].dts)
    ensures Timed(input, c, nextAvcDts).nextAvcDts
            == Timed(input, c, nextAvcDts).firstDts + Sum(Timed(input, c, nextAvcDts).durations)
  {
    hide Prepared, Timed;
    DurationsConserved(input, c, nextAvcDts);
  }

  // ---- a fragment whose last decode time is behind

  const LATE: Config := Config(0.0, true, 0.0, 90000, Off)

  /** Two samples at 0 and 10 when 90000 is expected: the first is moved to 90000, and the time expected next
      becomes 10 although the fragment ends at 90000. */
  lemma LastBehindExample()
    ensures var input := [Sample(0.0, 0.0, 0, [], true), Sample(10.0, 10.0, 1, [], false)];
            && Prepared(input, LATE, 90000.0) != []
            && Timed(input, LATE, 90000.0).nextAvcDts == 10.0
            && Timed(input, LATE, 90000.0).firstDts + Sum(Timed(input, LATE, 90000.0).durations) == 90000.0
  {
    var a, b := Sample(0.0, 0.0, 0, [], true), Sample(10.0, 10.0, 1, [], false);
    var input := [a, b];
    assert Expected(LATE, 90000.0) == 90000.0;
    assert Normalized(input, 0.0, 90000.0) == input;
    assert input[1..] == [b] && [b][1..] == [];
    assert Sorted([b]) == Insert(b, []) == [b];
    assert Sorted(input) == Insert(a, [b]) == [a] + [b] == input;
    assert Shift(input, 0.0) == Shift([b], 0.0) == Shift([b][1..], 0.0) == 0.0;
    assert Prepared(input, LATE, 90000.0) == input;
    var h := Aligned(input, true, 90000.0);
    assert Round((0.0 - 90000.0) / 90.0) == -1000;
    assert h.firstDts == 90000.0 && h.samples[1] == b;
    var f := Timed(input, LATE, 90000.0);
    assert f.durations[0] == 0.0 && f.durations[1] == 0.0;
    assert f.durations == [0.0, 0.0];
    assert Sum(f.durations) == 0.0 + Sum(f.durations[1..]);
    assert f.durations[1..] == [0.0] && Sum([0.0]) == 0.0 + Sum([0.0][1..]);
  }
}
