/** What loading a fragment and refreshing a playlist do to starts and durations, fragment by fragment. */
module LevelLaws {
  import opened Basics
  import opened LevelHelper

  // ---- a loaded fragment

  predicate Least(x: real, a: real, b: real) {
    x <= a && x <= b && (x == a || x == b)
  }

  /** What is known of a loaded fragment: its times, or the earliest start and the latest end of those and the ones known
      before. */
  lemma LoadedKnown(f: Frag, t: Times)
    ensures var l := Loaded(f, t);
            && l.pts.Known? && l.start == l.pts.start && l.duration == l.pts.end - l.pts.start && l.sn == f.sn && l.cc == f.cc
            && (f.pts.Unknown? ==> l.pts == Known(t.startPts, t.endPts) && l.startDts == t.startDts && l.endDts == t.endDts && l.deltaPts == f.deltaPts)
            && (f.pts.Known? ==>
                  && l.pts.start <= t.startPts && l.pts.start <= f.pts.start && (l.pts.start == t.startPts || l.pts.start == f.pts.start)
                  && l.pts.end >= t.endPts && l.pts.end >= f.pts.end && (l.pts.end == t.endPts || l.pts.end == f.pts.end)
                  && (l.startDts.Some? <==> t.startDts.Some? && f.startDts.Some?)
                  && (l.startDts.Some? ==> Least(l.startDts.value, t.startDts.value, f.startDts.value))
                  && (l.endDts.Some? <==> t.endDts.Some? && f.endDts.Some?)
                  && (l.endDts.Some? ==> Least(-l.endDts.value, -t.endDts.value, -f.endDts.value))
                  && l.deltaPts.Some? && l.deltaPts.value >= Abs(f.pts.start - t.startPts)
                  && (f.deltaPts.Some? ==> l.deltaPts.value >= f.deltaPts.value))
  {
  }

  // ---- starts and durations after times have been passed on

  /** Only start and duration may differ. */
  ghost predicate Alike(f: Frag, g: Frag) {
    g == f.(start := g.start, duration := g.duration)
  }

  /** A fragment behind the loaded one: it starts at its own time if that is known, and else where the one before it ends;
      it keeps its duration, unless the next one is known to start at another time. */
  ghost predicate Behind(s: seq<Frag>, r: seq<Frag>, k: int)
    requires |r| == |s| && 0 < k < |s|
  {
    r[k].start == if s[k].pts.Known? then s[k].pts.start else r[k - 1].start + r[k - 1].duration
  }

  ghost predicate Lasts(s: seq<Frag>, r: seq<Frag>, k: int)
    requires |r| == |s| && 0 <= k < |s|
  {
    r[k].duration == if k + 1 < |s| && s[k + 1].pts.Known? then s[k + 1].pts.start - r[k].start else s[k].duration
  }

  /** A fragment before the loaded one: it ends where the next one starts; if its own start is not known it keeps its
      duration, but does not start before 0. */
  ghost predicate InFront(s: seq<Frag>, r: seq<Frag>, k: int)
    requires |r| == |s| && 0 <= k < |s| - 1
  {
    if s[k].pts.Known? then r[k].start == s[k].start && r[k].duration == r[k + 1].start - s[k].pts.start
    else r[k].duration == s[k].duration && r[k].start == Max(r[k + 1].start - s[k].duration, 0.0)
  }

  lemma {:induction false} DownFront(s: seq<Frag>, i: nat)
    requires i < |s|
    ensures var r := Down(s, i);
            && (forall k :: 0 <= k < i ==> InFront(s, r, k))
            && (forall k :: i <= k < |s| ==> r[k] == s[k])
            && (forall k :: 0 <= k < |s| ==> Alike(s[k], r[k]))
    decreases i
  {
    if i > 0 {
      var t := s[i - 1 := Before(s[i - 1], s[i])];
      DownFront(t, i - 1);
      var r := Down(s, i);
      forall k | 0 <= k < i ensures InFront(s, r, k) {
        if k < i - 1 {
          assert InFront(t, r, k);
        } else {
          NextInFront(s, r, k);
        }
      }
    }
  }

  lemma NextInFront(s: seq<Frag>, r: seq<Frag>, k: nat)
    requires k + 1 < |s| == |r| && r[k] == Before(s[k], s[k + 1]) && r[k + 1] == s[k + 1]
    ensures InFront(s, r, k)
  {
  }

  lemma {:induction false} UpBehind(s: seq<Frag>, i: nat)
    requires i < |s| && forall k :: i < k < |s| && s[k].pts.Known? ==> s[k].start == s[k].pts.start
    ensures var r := Up(s, i);
            && (forall k :: 0 <= k < i ==> r[k] == s[k]) && r[i].start == s[i].start
            && (forall k :: i < k < |s| ==> Behind(s, r, k)) && (forall k :: i <= k < |s| ==> Lasts(s, r, k))
            && (forall k :: 0 <= k < |s| ==> Alike(s[k], r[k]))
    decreases |s| - i
  {
    if i < |s| - 1 {
      var p := After(s[i], s[i + 1]);
      var t := s[i := p.0][i + 1 := p.1];
      UpBehind(t, i + 1);
      var r := Up(s, i);
      assert r[i] == t[i] && r[i + 1].start == t[i + 1].start;
      forall k | i < k < |s| ensures Behind(s, r, k) {
        if k > i + 1 {
          assert Behind(t, r, k);
        }
      }
      forall k | i <= k < |s| ensures Lasts(s, r, k) {
        if k > i {
          assert Lasts(t, r, k);
        }
      }
    }
  }

  /** Loading a fragment of the playlist, exactly: it starts at the time known of it, those before it end where the next one
      starts, those behind it start where the one before ends or where they are known to, and durations change only to make
      that so. In particular it lasts from its start to its end if the next one is not known. */
  lemma UpdatedExactly(d: Details, f: Frag, t: Times)
    requires Timeline(d) && InRange(d, f.sn)
    ensures var i := f.sn - d.startSn;
            var s, r := d.frags[i := Loaded(f, t)], Updated(d, f, t).frags;
            && |r| == |s| && Updated(d, f, t).ptsKnown
            && r[i].start == Loaded(f, t).pts.start
            && (i + 1 == |s| || s[i + 1].pts.Unknown? ==> r[i].duration == Loaded(f, t).pts.end - Loaded(f, t).pts.start)
            && (forall k :: 0 <= k < i ==> InFront(s, r, k))
            && (forall k :: i < k < |s| ==> Behind(s, r, k)) && (forall k :: i <= k < |s| ==> Lasts(s, r, k))
  {
    hide Loaded, InFront, Behind, Lasts;
    var i := f.sn - d.startSn;
    var s := d.frags[i := Loaded(f, t)];
    LoadedKnown(f, t);
    DownFront(s, i);
    var m := Down(s, i);
    UpBehind(m, i);
    var r := Up(m, i);
    forall k | 0 <= k < i ensures InFront(s, r, k) {
      FrontSame(s, m, r, i, k);
    }
    forall k | i < k < |s| ensures Behind(s, r, k) {
      BehindSame(s, m, r, k);
    }
    forall k | i <= k < |s| ensures Lasts(s, r, k) {
      LastsSame(s, m, r, k);
    }
    LastOne(s, r, i);
  }

  lemma FrontSame(s: seq<Frag>, m: seq<Frag>, r: seq<Frag>, i: nat, k: nat)
    requires |m| == |r| == |s| && k < i < |s| && InFront(s, m, k) && m[k] == r[k] && m[k + 1].start == r[k + 1].start
    ensures InFront(s, r, k)
  {
  }

  lemma BehindSame(s: seq<Frag>, m: seq<Frag>, r: seq<Frag>, k: nat)
    requires |m| == |r| == |s| && 0 < k < |s| && Behind(m, r, k) && m[k] == s[k]
    ensures Behind(s, r, k)
  {
  }

  lemma LastsSame(s: seq<Frag>, m: seq<Frag>, r: seq<Frag>, k: nat)
    requires |m| == |r| == |s| && k < |s| && Lasts(m, r, k) && m[k] == s[k] && (k + 1 < |s| ==> m[k + 1] == s[k + 1])
    ensures Lasts(s, r, k)
  {
  }

  lemma LastOne(s: seq<Frag>, r: seq<Frag>, i: nat)
    requires |r| == |s| && i < |s| && Lasts(s, r, i)
    ensures i + 1 == |s| || s[i + 1].pts.Unknown? ==> r[i].duration == s[i].duration
  {
  }

  // ---- a refreshed playlist

  lemma UpdatedAlike(d: Details, f: Frag, t: Times)
    requires WellFormed(d)
    ensures var s := if InRange(d, f.sn) then d.frags[f.sn - d.startSn := Loaded(f, t)] else d.frags;
            |Updated(d, f, t).frags| == |s| && forall k :: 0 <= k < |s| ==> Alike(s[k], Updated(d, f, t).frags[k])
  {
    hide Loaded;
    if InRange(d, f.sn) {
      var i := f.sn - d.startSn;
      var s := d.frags[i := Loaded(f, t)];
      DownAlike(s, i);
      UpAlike(Down(s, i), i);
    }
  }

  lemma {:induction false} DownAlike(s: seq<Frag>, i: nat)
    requires i < |s|
    ensures var r := Down(s, i); forall k :: 0 <= k < |s| ==> Alike(s[k], r[k])
    decreases i
  {
    if i > 0 {
      DownAlike(s[i - 1 := Before(s[i - 1], s[i])], i - 1);
    }
  }

  lemma {:induction false} UpAlike(s: seq<Frag>, i: nat)
    requires i < |s|
    ensures var r := Up(s, i); forall k :: 0 <= k < |s| ==> Alike(s[k], r[k])
    decreases |s| - i
  {
    if i < |s| - 1 {
      var p := After(s[i], s[i + 1]);
      UpAlike(s[i := p.0][i + 1 := p.1], i + 1);
    }
  }

  /** The last number in common. */
  function LastCommon(was: Details, parsed: Details): int {
    MinInt(was.endSn, parsed.endSn)
  }

  lemma {:induction false} OffsetOf(was: Details, parsed: Details, n: nat)
    requires WellFormed(was) && WellFormed(parsed) && Common(was, parsed)
    requires LastCommon(was, parsed) - parsed.startSn < n <= |parsed.frags|
    ensures var sn := LastCommon(was, parsed);
            && 0 <= sn - was.startSn < |was.frags| && 0 <= sn - parsed.startSn < |parsed.frags|
            && CcOffset(was, parsed, n) == was.frags[sn - was.startSn].cc - parsed.frags[sn - parsed.startSn].cc
    decreases n
  {
    if n - 1 > LastCommon(was, parsed) - parsed.startSn {
      OffsetOf(was, parsed, n - 1);
    }
  }

  /** What a refreshed fragment takes over: its number and, unless more is known of it from before, all else as parsed; its
      counter of discontinuities is moved. */
  ghost predicate TakesOver(f: Frag, p: Frag, o: Option<Frag>, offset: int) {
    && f.sn == p.sn && f.cc == p.cc + offset
    && (if o.Some? && o.value.pts.Known?
        then f.pts == o.value.pts && f.backtracked == o.value.backtracked && f.dropped == o.value.dropped
        else f.pts == p.pts && f.backtracked == p.backtracked && f.dropped == p.dropped)
  }

  lemma InheritedTakesOver(was: Details, parsed: Details, offset: int, k: nat)
    requires k < |parsed.frags|
    ensures TakesOver(WithCc(InheritAll(was, parsed), offset)[k], parsed.frags[k], OldFrag(was, parsed.startSn + k), offset)
  {
    hide OldFrag;
  }

  /** Refreshed fragments are the ones with what they take over, but for the times that are passed on and those of the last
      one known. */
  lemma {:induction false} MergeParts(was: Details, parsed: Details, s: seq<Frag>, k: nat)
    requires Parsed(parsed) && Common(was, parsed) && k < |s| == |parsed.frags|
    requires s == WithCc(InheritAll(was, parsed), CcOffset(was, parsed, |parsed.frags|))
    requires forall i :: 0 <= i < |s| ==> s[i].sn == parsed.startSn + i
    requires LastKnown(was, parsed, |parsed.frags|) >= 0 ==> s[LastKnown(was, parsed, |parsed.frags|)].pts.Known?
    ensures k < |Merge(was, parsed).frags|
    ensures var g := Merge(was, parsed).frags[k];
            g.sn == s[k].sn && g.pts == s[k].pts && g.cc == s[k].cc && g.backtracked == s[k].backtracked && g.dropped == s[k].dropped
  {
    var d := parsed.(frags := s);
    var i := LastKnown(was, parsed, |parsed.frags|);
    hide CcOffset, Common, InheritAll, WithCc, LastKnown, Down, Up, Updated, Alike, Loaded;
    if i >= 0 {
      var f := s[i];
      var t := Times(f.pts.start, f.pts.end, f.startDts, f.endDts);
      assert Merge(was, parsed) == Updated(d, f, t).(ptsKnown := was.ptsKnown);
      UpdatedAlike(d, f, t);
      LoadedFields(f);
      AlikeFields(s[i := Loaded(f, t)][k], Merge(was, parsed).frags[k]);
    }
  }

  lemma LoadedFields(f: Frag)
    requires f.pts.Known?
    ensures var l := Loaded(f, Times(f.pts.start, f.pts.end, f.startDts, f.endDts));
            l.sn == f.sn && l.pts == f.pts && l.cc == f.cc && l.backtracked == f.backtracked && l.dropped == f.dropped
  {
  }

  /** A refreshed fragment, but for its start and duration: what it was parsed as, what is known of it from before, and a
      counter of discontinuities that goes on: in the last fragment in common it is what it was, and all others are moved by
      as much. */
  lemma MergedAlike(was: Details, parsed: Details, k: nat)
    requires Timeline(was) && Parsed(parsed) && Common(was, parsed) && k < |parsed.frags|
    ensures k < |Merge(was, parsed).frags|
    ensures var sn := LastCommon(was, parsed);
            && 0 <= sn - was.startSn < |was.frags| && 0 <= sn - parsed.startSn < |parsed.frags|
            && TakesOver(Merge(was, parsed).frags[k], parsed.frags[k], OldFrag(was, parsed.startSn + k),
                         was.frags[sn - was.startSn].cc - parsed.frags[sn - parsed.startSn].cc)
  {
    InRangeLast(was, parsed);
    OffsetOf(was, parsed, |parsed.frags|);
    InheritedPlaced(was, parsed);
    hide CcOffset, LastKnown, Common, LastCommon, InheritAll, WithCc, Merge;
    InheritedTakesOver(was, parsed, CcOffset(was, parsed, |parsed.frags|), k);
    MergeParts(was, parsed, WithCc(InheritAll(was, parsed), CcOffset(was, parsed, |parsed.frags|)), k);
  }

  lemma InRangeLast(was: Details, parsed: Details)
    requires WellFormed(was) && WellFormed(parsed) && Common(was, parsed)
    ensures LastCommon(was, parsed) - parsed.startSn < |parsed.frags|
  {
  }

  lemma AlikeFields(f: Frag, g: Frag)
    requires Alike(f, g)
    ensures g.sn == f.sn && g.pts == f.pts && g.cc == f.cc && g.backtracked == f.backtracked && g.dropped == f.dropped
  {
  }

  /** Nothing known in common: all starts are moved by that of the old fragment with the first number, if there is one, and
      durations stay. */
  lemma MergeSlides(was: Details, parsed: Details, k: nat)
    requires Timeline(was) && Parsed(parsed) && Common(was, parsed) && k < |parsed.frags|
    requires forall sn :: InRange(was, sn) && InRange(parsed, sn) ==> was.frags[sn - was.startSn].pts.Unknown?
    ensures k < |Merge(was, parsed).frags|
    ensures var delta := parsed.startSn - was.startSn;
            var slide := if 0 <= delta < |was.frags| then was.frags[delta].start else 0.0;
            && Merge(was, parsed).frags[k].start == parsed.frags[k].start + slide
            && Merge(was, parsed).frags[k].duration == parsed.frags[k].duration
  {
    NoneInCommon(was, parsed);
    Unchanged(was, parsed);
  }

  lemma {:induction false} NoneInCommon(was: Details, parsed: Details)
    requires WellFormed(was) && WellFormed(parsed)
    requires forall sn :: InRange(was, sn) && InRange(parsed, sn) ==> was.frags[sn - was.startSn].pts.Unknown?
    ensures LastKnown(was, parsed, |parsed.frags|) < 0
  {
    hide LastKnown;
    var i := LastKnown(was, parsed, |parsed.frags|);
    assert i >= 0 ==> InRange(was, parsed.startSn + i) && InRange(parsed, parsed.startSn + i);
  }
}
