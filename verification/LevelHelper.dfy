/** The timeline of a live playlist: times of loaded fragments are passed on to their neighbours, and carried over
    when the playlist is refreshed. */
module LevelHelper {
  import opened Basics

  /** The presentation times of a fragment, once it has been loaded. */
  datatype Pts = Unknown | Known(start: real, end: real)

  datatype Frag = Frag(sn: int, start: real, duration: real, pts: Pts, startDts: Option<real>, endDts: Option<real>,
                       deltaPts: Option<real>, cc: int, backtracked: bool, dropped: int)

  /** Minimum and maximum of numbers that may not be there: then neither is the result. */
  function MinOf(a: Option<real>, b: Option<real>): Option<real> {
    if a.None? || b.None? then None else Some(Min(a.value, b.value))
  }

  function MaxOf(a: Option<real>, b: Option<real>): Option<real> {
    if a.None? || b.None? then None else Some(Max(a.value, b.value))
  }

  // ---- one pair of neighbours, as values

  /** The fragment before a next one whose time is settled. */
  function Before(f: Frag, next: Frag): Frag {
    if f.pts.Known? then f.(duration := next.start - f.pts.start) else f.(start := Max(next.start - f.duration, 0.0))
  }

  /** The settled fragment and the one after it. */
  function After(f: Frag, next: Frag): (Frag, Frag) {
    if next.pts.Known? then (f.(duration := next.pts.start - f.start), next)
    else (f, next.(start := f.start + f.duration))
  }

  /** Pass times on from position i down to the first fragment. */
  function Down(s: seq<Frag>, i: nat): (r: seq<Frag>)
    requires i < |s|
    ensures |r| == |s|
    decreases i
  {
    if i == 0 then s else Down(s[i - 1 := Before(s[i - 1], s[i])], i - 1)
  }

  /** Pass times on from position i up to the last fragment. */
  function Up(s: seq<Frag>, i: nat): (r: seq<Frag>)
    requires i < |s|
    ensures |r| == |s|
    decreases |s| - i
  {
    if i == |s| - 1 then s
    else
      var p := After(s[i], s[i + 1]);
      Up(s[i := p.0][i + 1 := p.1], i + 1)
  }

  /** What is known of a fragment after it has been loaded with the given times, perhaps not for the first time. */
  datatype Times = Times(startPts: real, endPts: real, startDts: Option<real>, endDts: Option<real>)

  function Merged(f: Frag, t: Times): Times {
    match f.pts
    case Unknown => t
    case Known(start, end) => Times(Min(t.startPts, start), Max(t.endPts, end), MinOf(t.startDts, f.startDts), MaxOf(t.endDts, f.endDts))
  }

  function Loaded(f: Frag, t: Times): Frag {
    var m := Merged(f, t);
    var delta := if f.pts.Unknown? then f.deltaPts
                 else
                   var d := Abs(f.pts.start - t.startPts);
                   if f.deltaPts.None? then Some(d) else Some(Max(d, f.deltaPts.value));
    f.(start := m.startPts, duration := m.endPts - m.startPts, pts := Known(m.startPts, m.endPts),
       startDts := m.startDts, endDts := m.endDts, deltaPts := delta)
  }

  datatype Details = Details(startSn: int, endSn: int, frags: seq<Frag>, ptsKnown: bool)

  /** A fragment has been loaded: it takes its place in the playlist, if it has one, and times are passed on. */
  function Updated(d: Details, f: Frag, t: Times): Details {
    var i := f.sn - d.startSn;
    if f.sn < d.startSn || f.sn > d.endSn || i >= |d.frags| then d
    else d.(frags := Up(Down(d.frags[i := Loaded(f, t)], i), i), ptsKnown := true)
  }

  /** What a fragment takes over from the same fragment of the playlist before. */
  function Inherited(f: Frag, o: Frag): Frag {
    match o.pts
    case Unknown => f
    case Known(start, end) => f.(start := start, pts := o.pts, duration := o.duration, backtracked := o.backtracked, dropped := o.dropped)
  }

  function OldFrag(was: Details, sn: int): Option<Frag> {
    var i := sn - was.startSn;
    if 0 <= i < |was.frags| && was.startSn <= sn <= was.endSn then Some(was.frags[i]) else None
  }

  /** The fragments of the new playlist, each with what it takes over. */
  function InheritAll(was: Details, parsed: Details): (s: seq<Frag>)
    ensures |s| == |parsed.frags|
  {
    seq(|parsed.frags|, i requires 0 <= i < |parsed.frags| =>
      var o := OldFrag(was, parsed.startSn + i);
      if o.None? then parsed.frags[i] else Inherited(parsed.frags[i], o.value))
  }

  /** The last position up to n at which a time was taken over; -1 if none was. */
  function LastKnown(was: Details, parsed: Details, n: nat): (i: int)
    requires n <= |parsed.frags|
    ensures -1 <= i < n
    ensures i >= 0 ==> OldFrag(was, parsed.startSn + i).Some? && OldFrag(was, parsed.startSn + i).value.pts.Known?
  {
    if n == 0 then -1
    else
      var o := OldFrag(was, parsed.startSn + n - 1);
      if o.Some? && o.value.pts.Known? then n - 1 else LastKnown(was, parsed, n - 1)
  }

  /** The difference of the discontinuity counters in the last common fragment. */
  function CcOffset(was: Details, parsed: Details, n: nat): int
    requires n <= |parsed.frags|
  {
    if n == 0 then 0
    else
      var o := OldFrag(was, parsed.startSn + n - 1);
      if o.Some? then o.value.cc - parsed.frags[n - 1].cc else CcOffset(was, parsed, n - 1)
  }

  function WithCc(s: seq<Frag>, offset: int): (r: seq<Frag>)
    ensures |r| == |s|
  {
    seq(|s|, i requires 0 <= i < |s| => s[i].(cc := s[i].cc + offset))
  }

  function Slid(s: seq<Frag>, sliding: real): (r: seq<Frag>)
    ensures |r| == |s|
  {
    seq(|s|, i requires 0 <= i < |s| => s[i].(start := s[i].start + sliding))
  }

  predicate Common(was: Details, parsed: Details) {
    (if was.endSn < parsed.endSn then was.endSn else parsed.endSn) >= (if was.startSn > parsed.startSn then was.startSn else parsed.startSn)
  }

  /** A refreshed playlist, with what is known from the one before. */
  function Merge(was: Details, parsed: Details): Details {
    if !Common(was, parsed) then parsed.(ptsKnown := false)
    else
      var s := WithCc(InheritAll(was, parsed), CcOffset(was, parsed, |parsed.frags|));
      var i := LastKnown(was, parsed, |parsed.frags|);
      var delta := parsed.startSn - was.startSn;
      var d :=
        if i >= 0 then
          var p := s[i].pts;
          assert p.Known?;
          Updated(parsed.(frags := s), s[i], Times(p.start, p.end, s[i].startDts, s[i].endDts))
        else if 0 <= delta < |was.frags| then parsed.(frags := Slid(s, was.frags[delta].start))
        else parsed.(frags := s);
      d.(ptsKnown := was.ptsKnown)
  }

  // ---- what holds of a playlist

  ghost predicate WellFormed(d: Details) {
    d.endSn == d.startSn + |d.frags| - 1 && forall i :: 0 <= i < |d.frags| ==> d.frags[i].sn == d.startSn + i
  }

  /** Two neighbours abut, unless the left one is not known and was clamped to start at 0. */
  ghost predicate Abuts(a: Frag, b: Frag) {
    a.start + a.duration == b.start || (a.pts.Unknown? && a.start == 0.0 && b.start < a.duration)
  }

  ghost predicate Placed(f: Frag) {
    f.pts.Known? ==> f.start == f.pts.start
  }

  ghost predicate AllPlaced(s: seq<Frag>) {
    forall i :: 0 <= i < |s| ==> Placed(s[i])
  }

  ghost predicate AbutFrom(s: seq<Frag>, from: nat, to: nat)
    requires to < |s|
  {
    forall i :: from <= i < to ==> Abuts(s[i], s[i + 1])
  }

  ghost predicate Timeline(d: Details) {
    && WellFormed(d) && AllPlaced(d.frags)
    && (d.frags != [] ==> AbutFrom(d.frags, 0, |d.frags| - 1))
  }

  /** Every fragment starts where the one before it ends. */
  ghost predicate Chained(s: seq<Frag>) {
    forall i :: 0 <= i < |s| - 1 ==> s[i].start + s[i].duration == s[i + 1].start
  }

  /** A playlist as it is parsed: fragments one after another from 0 on, none of them known. */
  ghost predicate Parsed(d: Details) {
    && WellFormed(d)
    && (forall i :: 0 <= i < |d.frags| ==> d.frags[i].pts.Unknown? && d.frags[i].startDts.None? && d.frags[i].endDts.None?)
    && Chained(d.frags)
    && (d.frags != [] ==> d.frags[0].start == 0.0)
  }

  lemma ParsedTimeline(d: Details)
    requires Parsed(d)
    ensures Timeline(d)
  {
  }

  lemma {:induction false} DownAbuts(s: seq<Frag>, i: nat)
    requires i < |s| && AllPlaced(s)
    ensures var r := Down(s, i);
            && AllPlaced(r) && AbutFrom(r, 0, i)
            && (forall k :: i <= k < |s| ==> r[k] == s[k])
            && (forall k :: 0 <= k < |s| ==> r[k].sn == s[k].sn && r[k].pts == s[k].pts)
    decreases i
  {
    if i > 0 {
      var t := s[i - 1 := Before(s[i - 1], s[i])];
      DownAbuts(t, i - 1);
      var r := Down(s, i);
      assert Abuts(r[i - 1], r[i]);
    }
  }

  lemma {:induction false} UpAbuts(s: seq<Frag>, i: nat)
    requires i < |s| && AllPlaced(s) && AbutFrom(s, 0, i)
    ensures var r := Up(s, i);
            && AllPlaced(r) && AbutFrom(r, 0, |s| - 1)
            && (forall k :: 0 <= k < i ==> r[k] == s[k])
            && r[i].start == s[i].start
            && (forall k :: 0 <= k < |s| ==> r[k].sn == s[k].sn && r[k].pts == s[k].pts)
    decreases |s| - i
  {
    if i < |s| - 1 {
      var p := After(s[i], s[i + 1]);
      var t := s[i := p.0][i + 1 := p.1];
      assert forall k :: 0 <= k < i ==> t[k] == s[k];
      assert t[i].start == s[i].start;
      UpAbuts(t, i + 1);
    }
  }

  ghost predicate InRange(d: Details, sn: int) {
    d.startSn <= sn <= d.endSn
  }

  /** Loading a fragment makes all neighbours abut, keeps what is known, and gives the fragment its times. */
  lemma UpdatedTimeline(d: Details, f: Frag, t: Times)
    requires Timeline(d)
    ensures Timeline(Updated(d, f, t)) && |Updated(d, f, t).frags| == |d.frags|
    ensures var i := f.sn - d.startSn;
            InRange(d, f.sn) ==>
              && Updated(d, f, t).frags[i].pts == Loaded(f, t).pts
              && Updated(d, f, t).frags[i].start == Merged(f, t).startPts
              && forall k :: 0 <= k < |d.frags| && k != i ==> Updated(d, f, t).frags[k].pts == d.frags[k].pts
  {
    hide Abuts, Before, After;
    if InRange(d, f.sn) {
      var i := f.sn - d.startSn;
      var s := d.frags[i := Loaded(f, t)];
      DownAbuts(s, i);
      UpAbuts(Down(s, i), i);
    }
  }

  lemma {:induction false} InheritedPlaced(was: Details, parsed: Details)
    requires Timeline(was) && Parsed(parsed)
    ensures var s := WithCc(InheritAll(was, parsed), CcOffset(was, parsed, |parsed.frags|));
            && AllPlaced(s) && (forall k :: 0 <= k < |s| ==> s[k].sn == parsed.startSn + k)
            && (forall k :: 0 <= k < |s| ==>
                  var o := OldFrag(was, parsed.startSn + k);
                  s[k].pts == if o.Some? then o.value.pts else Unknown)
  {
  }

  /** Nothing is known of the fragment at a position from before. */
  ghost predicate NothingFrom(was: Details, parsed: Details, k: int) {
    OldFrag(was, parsed.startSn + k).Some? ==> OldFrag(was, parsed.startSn + k).value.pts.Unknown?
  }

  lemma {:induction false} NoneKnown(was: Details, parsed: Details, n: nat, k: nat)
    requires n <= |parsed.frags| && k < n && LastKnown(was, parsed, n) < 0
    ensures NothingFrom(was, parsed, k)
  {
    if k < n - 1 {
      NoneKnown(was, parsed, n - 1, k);
    }
  }

  lemma CommonInRange(was: Details, parsed: Details, sn: int)
    requires WellFormed(was) && WellFormed(parsed) && InRange(was, sn) && InRange(parsed, sn)
    ensures Common(was, parsed) && OldFrag(was, sn) == Some(was.frags[sn - was.startSn])
  {
  }

  /** The times of the last known fragment, loaded once more as they are. */
  lemma ReloadedSame(f: Frag)
    requires f.pts.Known?
    ensures Loaded(f, Times(f.pts.start, f.pts.end, f.startDts, f.endDts)).pts == f.pts
  {
  }

  /** Nothing is known in common: the starts slide, or stay. */
  lemma UnknownTimeline(was: Details, parsed: Details, s: seq<Frag>, sliding: real)
    requires Parsed(parsed) && |s| == |parsed.frags|
    requires forall k :: 0 <= k < |s| ==> s[k].sn == parsed.startSn + k && s[k].pts.Unknown?
    requires forall k :: 0 <= k < |s| ==> s[k].start == parsed.frags[k].start && s[k].duration == parsed.frags[k].duration
    ensures Timeline(parsed.(frags := s)) && Timeline(parsed.(frags := Slid(s, sliding)))
  {
    assert Chained(s) && Chained(Slid(s, sliding));
  }

  lemma {:induction false} Unchanged(was: Details, parsed: Details)
    requires Parsed(parsed) && LastKnown(was, parsed, |parsed.frags|) < 0
    ensures var s := WithCc(InheritAll(was, parsed), CcOffset(was, parsed, |parsed.frags|));
            forall k :: 0 <= k < |s| ==>
              s[k].start == parsed.frags[k].start && s[k].duration == parsed.frags[k].duration && s[k].pts.Unknown?
  {
    var s := WithCc(InheritAll(was, parsed), CcOffset(was, parsed, |parsed.frags|));
    hide CcOffset, LastKnown, Parsed;
    forall k | 0 <= k < |s|
      ensures s[k].start == parsed.frags[k].start && s[k].duration == parsed.frags[k].duration && s[k].pts.Unknown?
    {
      NoneKnown(was, parsed, |parsed.frags|, k);
      NotInherited(was, parsed, k);
      NothingParsed(parsed, k);
    }
  }

  lemma NotInherited(was: Details, parsed: Details, k: nat)
    requires k < |parsed.frags| && NothingFrom(was, parsed, k)
    ensures InheritAll(was, parsed)[k] == parsed.frags[k]
  {
    hide OldFrag;
  }

  lemma NothingParsed(parsed: Details, k: nat)
    requires Parsed(parsed) && k < |parsed.frags|
    ensures parsed.frags[k].pts.Unknown?
  {
  }

  /** A refresh keeps the timeline in order, and a fragment in common that is known keeps its times and its start. */
  lemma MergeTimeline(was: Details, parsed: Details)
    requires Timeline(was) && Parsed(parsed)
    ensures var d := Merge(was, parsed);
            && Timeline(d) && d.startSn == parsed.startSn && |d.frags| == |parsed.frags|
            && forall sn :: InRange(was, sn) && InRange(parsed, sn) && was.frags[sn - was.startSn].pts.Known? ==>
                 var f, o := d.frags[sn - d.startSn], was.frags[sn - was.startSn];
                 f.pts == o.pts && f.start == o.start
  {
    hide Abuts, InheritAll, WithCc, CcOffset, Slid;
    ParsedTimeline(parsed);
    InheritedPlaced(was, parsed);
    var s := WithCc(InheritAll(was, parsed), CcOffset(was, parsed, |parsed.frags|));
    var i := LastKnown(was, parsed, |parsed.frags|);
    if Common(was, parsed) && i >= 0 {
      MergeKnown(was, parsed, s, i);
    } else if Common(was, parsed) {
      Unchanged(was, parsed);
      var delta := parsed.startSn - was.startSn;
      UnknownTimeline(was, parsed, s, if 0 <= delta < |was.frags| then was.frags[delta].start else 0.0);
    }
    NothingLost(was, parsed, s, i);
  }

  lemma {:induction false} NothingLost(was: Details, parsed: Details, s: seq<Frag>, i: int)
    requires Timeline(was) && Parsed(parsed) && i == LastKnown(was, parsed, |parsed.frags|)
    ensures forall sn :: InRange(was, sn) && InRange(parsed, sn) && was.frags[sn - was.startSn].pts.Known? ==> Common(was, parsed) && i >= 0
  {
    forall sn | InRange(was, sn) && InRange(parsed, sn) && was.frags[sn - was.startSn].pts.Known?
      ensures Common(was, parsed) && i >= 0
    {
      CommonInRange(was, parsed, sn);
      if i < 0 {
        NoneKnown(was, parsed, |parsed.frags|, sn - parsed.startSn);
      }
    }
  }

  lemma {:induction false} MergeKnown(was: Details, parsed: Details, s: seq<Frag>, i: nat)
    requires Timeline(was) && Parsed(parsed) && Common(was, parsed)
    requires s == WithCc(InheritAll(was, parsed), CcOffset(was, parsed, |parsed.frags|))
    requires i == LastKnown(was, parsed, |parsed.frags|)
    ensures Timeline(Merge(was, parsed)) && Merge(was, parsed).startSn == parsed.startSn
    ensures |Merge(was, parsed).frags| == |s|
    ensures forall k :: 0 <= k < |s| ==> Merge(was, parsed).frags[k].pts == s[k].pts
    ensures forall sn :: InRange(was, sn) && InRange(parsed, sn) && was.frags[sn - was.startSn].pts.Known? ==>
              var f, o := Merge(was, parsed).frags[sn - parsed.startSn], was.frags[sn - was.startSn];
              f.pts == o.pts && f.start == o.start
  {
    hide Abuts, InheritAll, WithCc, CcOffset, Slid, Before, After, Down, Up, LastKnown, Common;
    InheritedPlaced(was, parsed);
    var f := s[i];
    var t := Times(f.pts.start, f.pts.end, f.startDts, f.endDts);
    ReloadedSame(f);
    var loaded := s[i := Loaded(f, t)];
    assert AllPlaced(loaded);
    DownAbuts(loaded, i);
    UpAbuts(Down(loaded, i), i);
  }

  // ---- runs

  /** A playlist is refreshed, or a fragment has been loaded. */
  datatype Event = Refresh(parsed: Details) | Load(frag: Frag, times: Times)

  ghost predicate ValidEvents(es: seq<Event>) {
    forall i :: 0 <= i < |es| && es[i].Refresh? ==> Parsed(es[i].parsed)
  }

  function Run(d: Details, es: seq<Event>): Details
    decreases |es|
  {
    if es == [] then d
    else Run(match es[0] case Refresh(p) => Merge(d, p) case Load(f, t) => Updated(d, f, t), es[1..])
  }

  /** Over every run of refreshes and loads from a parsed playlist on, neighbours abut unless the left one was
      clamped to 0, and known fragments start at their presentation time. */
  lemma {:induction false} RunTimeline(d: Details, es: seq<Event>)
    requires Timeline(d) && ValidEvents(es)
    ensures Timeline(Run(d, es))
    decreases |es|
  {
    hide Timeline, Parsed, Merge, Updated;
    if es != [] {
      match es[0]
      case Refresh(p) => MergeTimeline(d, p); RunTimeline(Merge(d, p), es[1..]);
      case Load(f, t) => UpdatedTimeline(d, f, t); RunTimeline(Updated(d, f, t), es[1..]);
    }
  }

  lemma {:induction false} TimelineFromParsed(d: Details, es: seq<Event>)
    requires Parsed(d) && ValidEvents(es)
    ensures Timeline(Run(d, es))
  {
    ParsedTimeline(d);
    RunTimeline(d, es);
  }

  // ---- fragments and playlists as objects

  class Fragment {
    var value: Frag

    constructor (value: Frag)
      ensures this.value == value
    {
      this.value := value;
    }
  }

  ghost function Values(s: seq<Fragment>): (v: seq<Frag>)
    reads s
    ensures |v| == |s|
  {
    seq(|s|, i requires 0 <= i < |s| reads s => s[i].value)
  }

  ghost predicate Distinct(s: seq<Fragment>) {
    forall i, j :: 0 <= i < j < |s| ==> s[i] != s[j]
  }

  /** updatePTS: settle a neighbour of a settled fragment. */
  method UpdatePts(fragments: seq<Fragment>, fromIdx: nat, toIdx: nat)
    requires fromIdx < |fragments| && toIdx < |fragments| && (toIdx == fromIdx + 1 || fromIdx == toIdx + 1)
    requires Distinct(fragments)
    modifies fragments
    ensures toIdx < fromIdx ==> Values(fragments) == old(Values(fragments))[toIdx := Before(old(fragments[toIdx].value), old(fragments[fromIdx].value))]
    ensures toIdx > fromIdx ==>
              var p := After(old(fragments[fromIdx].value), old(fragments[toIdx].value));
              Values(fragments) == old(Values(fragments))[fromIdx := p.0][toIdx := p.1]
  {
    var fragFrom, fragTo := fragments[fromIdx], fragments[toIdx];
    match fragTo.value.pts {
      case Known(fragToPts, _) =>
        if toIdx > fromIdx {
          fragFrom.value := fragFrom.value.(duration := fragToPts - fragFrom.value.start);
        } else {
          fragTo.value := fragTo.value.(duration := fragFrom.value.start - fragToPts);
        }
      case Unknown =>
        if toIdx > fromIdx {
          fragTo.value := fragTo.value.(start := fragFrom.value.start + fragFrom.value.duration);
        } else {
          fragTo.value := fragTo.value.(start := Max(fragFrom.value.start - fragTo.value.duration, 0.0));
        }
    }
  }

  /** Loading a fragment keeps the numbers of all. */
  lemma UpdatedTimelineShape(d: Details, f: Frag, t: Times)
    requires WellFormed(d)
    ensures WellFormed(Updated(d, f, t))
  {
    hide Before, After;
    if InRange(d, f.sn) {
      var i := f.sn - d.startSn;
      SameNumbers(d.frags[i := Loaded(f, t)], i);
    }
  }

  lemma {:induction false} SameNumbers(s: seq<Frag>, i: nat)
    requires i < |s|
    ensures forall k :: 0 <= k < |s| ==> Up(Down(s, i), i)[k].sn == s[k].sn
  {
    DownNumbers(s, i);
    UpNumbers(Down(s, i), i);
  }

  lemma {:induction false} DownNumbers(s: seq<Frag>, i: nat)
    requires i < |s|
    ensures forall k :: 0 <= k < |s| ==> Down(s, i)[k].sn == s[k].sn
    decreases i
  {
    if i > 0 {
      DownNumbers(s[i - 1 := Before(s[i - 1], s[i])], i - 1);
    }
  }

  lemma {:induction false} UpNumbers(s: seq<Frag>, i: nat)
    requires i < |s|
    ensures forall k :: 0 <= k < |s| ==> Up(s, i)[k].sn == s[k].sn
    decreases |s| - i
  {
    if i < |s| - 1 {
      var p := After(s[i], s[i + 1]);
      UpNumbers(s[i := p.0][i + 1 := p.1], i + 1);
    }
  }

  class Playlist {
    var startSn: int
    var endSn: int
    var fragments: seq<Fragment>
    var ptsKnown: bool

    ghost predicate Valid()
      reads this, fragments
    {
      Distinct(fragments) && WellFormed(Value())
    }

    ghost function Value(): Details
      reads this, fragments
    {
      Details(startSn, endSn, Values(fragments), ptsKnown)
    }

    constructor (startSn: int, fragments: seq<Fragment>)
      requires Distinct(fragments) && forall i :: 0 <= i < |fragments| ==> fragments[i].value.sn == startSn + i
      ensures Valid() && Value() == Details(startSn, startSn + |fragments| - 1, Values(fragments), false)
      ensures this.fragments == fragments
    {
      this.startSn := startSn;
      this.endSn := startSn + |fragments| - 1;
      this.fragments := fragments;
      ptsKnown := false;
    }

    /** updateFragPTSDTS: the fragment may be one that this playlist holds, or one of an earlier playlist that has
        been refreshed since; then it takes the place of the one that is there. */
    method UpdateFragPtsDts(frag: Fragment, t: Times) returns (drift: real)
      requires Valid()
      requires frag !in fragments || (startSn <= frag.value.sn <= endSn && fragments[frag.value.sn - startSn] == frag)
      modifies this, fragments, frag
      ensures Valid() && Value() == Updated(old(Value()), old(frag.value), t)
    {
      hide Loaded, Down, Up;
      var sn := frag.value.sn;
      ghost var before := Values(fragments);
      UpdatedTimelineShape(Value(), frag.value, t);
      drift := Settle(frag, t);
      if sn < startSn || sn > endSn {
        assert Values(fragments) == before;
        return 0.0;
      }
      assert Values(fragments)[sn - startSn := frag.value] == before[sn - startSn := frag.value];
      PassOn(sn - startSn, frag);
    }

    /** Put a settled fragment in its place, and pass its times on. */
    method PassOn(fragIdx: nat, frag: Fragment)
      requires Distinct(fragments) && fragIdx < |fragments| && (frag !in fragments || fragments[fragIdx] == frag)
      modifies this, fragments, frag
      ensures startSn == old(startSn) && endSn == old(endSn) && ptsKnown && Distinct(fragments)
      ensures Values(fragments) == Up(Down(old(Values(fragments))[fragIdx := old(frag.value)], fragIdx), fragIdx)
    {
      hide Down, Up;
      ghost var before := Values(fragments);
      Place(fragIdx, frag);
      assert Values(fragments) == before[fragIdx := frag.value];
      PassDown(fragIdx);
      PassUp(fragIdx);
      ptsKnown := true;
    }

    /** Give a fragment its times. */
    method Settle(frag: Fragment, t: Times) returns (drift: real)
      modifies frag
      ensures frag.value == Loaded(old(frag.value), t)
    {
      var f := frag.value;
      var m := Merged(f, t);
      drift := m.startPts - f.start;
      frag.value := Loaded(f, t);
    }

    method Place(i: nat, frag: Fragment)
      requires Distinct(fragments) && i < |fragments| && (frag !in fragments || fragments[i] == frag)
      modifies this`fragments
      ensures fragments == old(fragments)[i := frag] && Distinct(fragments)
    {
      fragments := fragments[i := frag];
    }

    method PassDown(from: nat)
      requires Distinct(fragments) && from < |fragments|
      modifies fragments
      ensures Values(fragments) == Down(old(Values(fragments)), from)
    {
      hide Before, After;
      var i: nat := from;
      while i > 0
        invariant i <= from < |fragments|
        invariant Down(Values(fragments), i) == Down(old(Values(fragments)), from)
      {
        UpdatePts(fragments, i, i - 1);
        i := i - 1;
      }
    }

    method PassUp(from: nat)
      requires Distinct(fragments) && from < |fragments|
      modifies fragments
      ensures Values(fragments) == Up(old(Values(fragments)), from)
    {
      hide Before, After;
      var i: nat := from;
      while i < |fragments| - 1
        invariant from <= i < |fragments|
        invariant Up(Values(fragments), i) == Up(old(Values(fragments)), from)
      {
        UpdatePts(fragments, i, i + 1);
        i := i + 1;
      }
    }
  }

  // ---- merging playlists, as objects

  /** No fragment of the playlist before has the number of the one at this position. */
  ghost predicate NoOld(w: Details, p: Details, k: int) {
    OldFrag(w, p.startSn + k).None?
  }

  ghost predicate Matched(w: Details, p: Details, k: int) {
    var j := p.startSn - w.startSn + k;
    0 <= j < |w.frags| && OldFrag(w, p.startSn + k) == Some(w.frags[j])
  }

  /** The first and the last position in common. */
  function First(w: Details, p: Details): int { MaxInt(w.startSn, p.startSn) - p.startSn }
  function Last(w: Details, p: Details): int { MinInt(w.endSn, p.endSn) - p.startSn }

  lemma CommonPart(w: Details, p: Details)
    requires WellFormed(w) && WellFormed(p) && Common(w, p)
    ensures 0 <= First(w, p) <= Last(w, p) < |p.frags|
    ensures forall k :: 0 <= k < First(w, p) ==> NoOld(w, p, k)
    ensures forall k :: Last(w, p) < k < |p.frags| ==> NoOld(w, p, k)
    ensures forall k :: First(w, p) <= k <= Last(w, p) ==> Matched(w, p, k)
  {
  }

  /** Positions without an old fragment add nothing. */
  lemma {:induction false} Skip(w: Details, p: Details, from: nat, end: nat)
    requires from <= end <= |p.frags|
    requires forall k :: from <= k < end ==> NoOld(w, p, k)
    ensures LastKnown(w, p, end) == LastKnown(w, p, from) && CcOffset(w, p, end) == CcOffset(w, p, from)
    ensures forall k :: from <= k < end ==> InheritAll(w, p)[k] == p.frags[k]
    decreases end - from
  {
    if from < end {
      assert NoOld(w, p, end - 1);
      Skip(w, p, from, end - 1);
    }
  }

  lemma OneMore(w: Details, p: Details, i: nat, o: Frag)
    requires i < |p.frags| && OldFrag(w, p.startSn + i) == Some(o)
    ensures LastKnown(w, p, i + 1) == if o.pts.Known? then i else LastKnown(w, p, i)
    ensures CcOffset(w, p, i + 1) == o.cc - p.frags[i].cc
    ensures InheritAll(w, p)[i] == Inherited(p.frags[i], o)
  {
  }

  /** The first i fragments have taken over what is known of them, the others are as they were parsed. */
  ghost predicate Halfway(w: Details, p: Details, now: seq<Frag>, i: int) {
    && |now| == |p.frags|
    && (forall k :: 0 <= k < i && k < |now| ==> now[k] == InheritAll(w, p)[k])
    && (forall k :: i <= k < |now| && 0 <= k ==> now[k] == p.frags[k])
  }

  /** A fragment takes over what is known of it. */
  method Take(fragments: seq<Fragment>, i: nat, from: Frag)
    requires Distinct(fragments) && i < |fragments|
    modifies fragments[i]
    ensures Values(fragments) == old(Values(fragments))[i := Inherited(old(fragments[i].value), from)]
  {
    var f := fragments[i];
    match from.pts {
      case Unknown =>
      case Known(start, end) =>
        f.value := f.value.(start := start, pts := from.pts);
        f.value := f.value.(duration := from.duration);
        f.value := f.value.(backtracked := from.backtracked);
        f.value := f.value.(dropped := from.dropped);
    }
  }

  /** One fragment of the new playlist meets the old one with its number. */
  method TakeOver(fragments: seq<Fragment>, i: nat, from: Frag, ghost w: Details, ghost p: Details)
    requires Distinct(fragments) && i < |fragments|
    requires Halfway(w, p, Values(fragments), i) && OldFrag(w, p.startSn + i) == Some(from)
    modifies fragments[i]
    ensures Halfway(w, p, Values(fragments), i + 1)
  {
    hide InheritAll, OldFrag, Inherited;
    OneMore(w, p, i, from);
    Take(fragments, i, from);
  }

  /** The loop over the fragments in common: which one was the last whose times are known, and by how much the
      discontinuity counters differ. */
  method InheritCommon(was: Playlist, parsed: Playlist) returns (known: int, ccOffset: int)
    requires was.Valid() && parsed.Valid() && Common(was.Value(), parsed.Value())
    requires forall i, j :: 0 <= i < |was.fragments| && 0 <= j < |parsed.fragments| ==> was.fragments[i] != parsed.fragments[j]
    requires was != parsed
    modifies parsed.fragments
    ensures Values(parsed.fragments) == InheritAll(old(was.Value()), old(parsed.Value()))
    ensures known == LastKnown(old(was.Value()), old(parsed.Value()), |parsed.fragments|)
    ensures ccOffset == CcOffset(old(was.Value()), old(parsed.Value()), |parsed.fragments|)
  {
    hide InheritAll, Inherited, LastKnown, CcOffset, OldFrag, WellFormed, Common, NoOld;
    ghost var w, p := was.Value(), parsed.Value();
    var start := MaxInt(was.startSn, parsed.startSn) - parsed.startSn;
    var end := MinInt(was.endSn, parsed.endSn) - parsed.startSn;
    var delta := parsed.startSn - was.startSn;
    known, ccOffset := -1, 0;
    CommonPart(w, p);
    Skip(w, p, 0, start);
    NothingYet(w, p);
    assert Halfway(w, p, Values(parsed.fragments), start);
    var i := start;
    while i <= end
      invariant start <= i <= end + 1
      invariant forall k :: 0 <= k < |was.fragments| ==> was.fragments[k].value == w.frags[k]
      invariant known == LastKnown(w, p, i) && ccOffset == CcOffset(w, p, i)
      invariant Halfway(w, p, Values(parsed.fragments), i)
    {
      assert Matched(w, p, i);
      var oldFrag := was.fragments[delta + i].value;
      OneMore(w, p, i, oldFrag);
      assert Values(parsed.fragments)[i] == p.frags[i];
      ccOffset := oldFrag.cc - parsed.fragments[i].value.cc;
      if oldFrag.pts.Known? {
        known := i;
      }
      TakeOver(parsed.fragments, i, oldFrag, w, p);
      i := i + 1;
    }
    Skip(w, p, end + 1, |parsed.fragments|);
  }

  lemma {:induction false} NothingYet(w: Details, p: Details)
    ensures LastKnown(w, p, 0) == -1 && CcOffset(w, p, 0) == 0
  {
  }

  /** Add the difference to every discontinuity counter. */
  method ShiftCc(fragments: seq<Fragment>, ccOffset: int)
    requires Distinct(fragments)
    modifies fragments
    ensures Values(fragments) == WithCc(old(Values(fragments)), ccOffset)
  {
    var i := 0;
    while i < |fragments|
      invariant 0 <= i <= |fragments|
      invariant forall k :: 0 <= k < i ==> fragments[k].value == old(fragments[k].value).(cc := old(fragments[k].value).cc + ccOffset)
      invariant forall k :: i <= k < |fragments| ==> fragments[k].value == old(fragments[k].value)
    {
      fragments[i].value := fragments[i].value.(cc := fragments[i].value.cc + ccOffset);
      i := i + 1;
    }
  }

  method Slide(fragments: seq<Fragment>, sliding: real)
    requires Distinct(fragments)
    modifies fragments
    ensures Values(fragments) == Slid(old(Values(fragments)), sliding)
  {
    var i := 0;
    while i < |fragments|
      invariant 0 <= i <= |fragments|
      invariant forall k :: 0 <= k < i ==> fragments[k].value == old(fragments[k].value).(start := old(fragments[k].value).start + sliding)
      invariant forall k :: i <= k < |fragments| ==> fragments[k].value == old(fragments[k].value)
    {
      fragments[i].value := fragments[i].value.(start := fragments[i].value.start + sliding);
      i := i + 1;
    }
  }

  lemma InheritedNumbers(w: Details, p: Details, offset: int)
    requires WellFormed(p)
    ensures WellFormed(p.(frags := WithCc(InheritAll(w, p), offset)))
    ensures WithCc(InheritAll(w, p), 0) == InheritAll(w, p)
  {
  }

  /** The new playlist, with all that its own loop over the common fragments and the counters do. */
  ghost function Taken(w: Details, p: Details): (s: seq<Frag>)
    ensures |s| == |p.frags|
  {
    WithCc(InheritAll(w, p), CcOffset(w, p, |p.frags|))
  }

  method MergeCommon(was: Playlist, parsed: Playlist) returns (known: int)
    requires was.Valid() && parsed.Valid() && Common(was.Value(), parsed.Value())
    requires forall i, j :: 0 <= i < |was.fragments| && 0 <= j < |parsed.fragments| ==> was.fragments[i] != parsed.fragments[j]
    requires was != parsed
    modifies parsed.fragments
    ensures Values(parsed.fragments) == Taken(old(was.Value()), old(parsed.Value()))
    ensures known == LastKnown(old(was.Value()), old(parsed.Value()), |parsed.fragments|)
    ensures parsed.Valid()
  {
    hide InheritAll, LastKnown, CcOffset, WithCc, Common, WellFormed;
    ghost var w, p := was.Value(), parsed.Value();
    var ccOffset: int;
    known, ccOffset := InheritCommon(was, parsed);
    InheritedNumbers(w, p, ccOffset);
    if ccOffset != 0 {
      ShiftCc(parsed.fragments, ccOffset);
    }
    assert parsed.Value() == p.(frags := Taken(w, p));
  }

  /** mergeDetails: a playlist that has just been parsed takes over what the one before it knows. */
  method MergeDetails(was: Playlist, parsed: Playlist)
    requires was.Valid() && parsed.Valid() && was != parsed
    requires forall i, j :: 0 <= i < |was.fragments| && 0 <= j < |parsed.fragments| ==> was.fragments[i] != parsed.fragments[j]
    modifies parsed, parsed.fragments
    ensures parsed.Valid() && parsed.Value() == Merge(old(was.Value()), old(parsed.Value()))
    ensures was.Valid() && was.Value() == old(was.Value())
  {
    hide InheritAll, LastKnown, CcOffset, WithCc, WellFormed, Slid, Updated, OldFrag;
    hide Merged;
    ghost var w, p := was.Value(), parsed.Value();
    if MinInt(was.endSn, parsed.endSn) < MaxInt(was.startSn, parsed.startSn) {
      parsed.ptsKnown := false;
      assert Values(parsed.fragments) == p.frags;
      SameShape(p, p.(ptsKnown := false));
      return;
    }
    var ptsFrag := MergeCommon(was, parsed);
    LastIsKnown(w, p);
    MergeTimes(was, parsed, ptsFrag);
    ghost var d := parsed.Value();
    parsed.ptsKnown := was.ptsKnown;
    SameShape(d, parsed.Value());
  }

  /** What becomes of the merged fragments s; i is the last one that is known. */
  ghost function TimesMerged(w: Details, p: Details, i: int): Details
    requires i < |p.frags| && (i >= 0 ==> p.frags[i].pts.Known?)
  {
    var delta := p.startSn - w.startSn;
    if i >= 0 then Updated(p, p.frags[i], Times(p.frags[i].pts.start, p.frags[i].pts.end, p.frags[i].startDts, p.frags[i].endDts))
    else if 0 <= delta < |w.frags| then p.(frags := Slid(p.frags, w.frags[delta].start))
    else p
  }

  method MergeTimes(was: Playlist, parsed: Playlist, ptsFrag: int)
    requires was.Valid() && parsed.Valid() && was != parsed
    requires forall i, j :: 0 <= i < |was.fragments| && 0 <= j < |parsed.fragments| ==> was.fragments[i] != parsed.fragments[j]
    requires ptsFrag < |parsed.fragments| && (ptsFrag >= 0 ==> parsed.fragments[ptsFrag].value.pts.Known?)
    modifies parsed, parsed.fragments
    ensures parsed.Valid() && parsed.Value() == TimesMerged(old(was.Value()), old(parsed.Value()), ptsFrag)
  {
    hide WellFormed, Slid, Updated;
    var delta := parsed.startSn - was.startSn;
    if ptsFrag >= 0 {
      Reload(parsed, ptsFrag);
    } else if 0 <= delta < |was.fragments| {
      SlidNumbers(parsed.Value(), was.fragments[delta].value.start);
      Slide(parsed.fragments, was.fragments[delta].value.start);
    }
  }

  lemma {:induction false} LastIsKnown(w: Details, p: Details)
    ensures LastKnown(w, p, |p.frags|) >= 0 ==> Taken(w, p)[LastKnown(w, p, |p.frags|)].pts.Known?
  {
  }

  lemma SameShape(d: Details, e: Details)
    requires WellFormed(d) && e.startSn == d.startSn && e.endSn == d.endSn && e.frags == d.frags
    ensures WellFormed(e)
  {
  }

  lemma SlidNumbers(d: Details, sliding: real)
    requires WellFormed(d)
    ensures WellFormed(d.(frags := Slid(d.frags, sliding)))
  {
  }

  /** The last fragment whose times are known is loaded once more, with the times that it has. */
  method Reload(parsed: Playlist, i: nat)
    requires parsed.Valid() && i < |parsed.fragments| && parsed.fragments[i].value.pts.Known?
    modifies parsed, parsed.fragments
    ensures parsed.Valid()
    ensures var f := old(parsed.fragments[i].value);
            parsed.Value() == Updated(old(parsed.Value()), f, Times(f.pts.start, f.pts.end, f.startDts, f.endDts))
  {
    hide Updated;
    var f := parsed.fragments[i];
    assert parsed.Value().frags[i].sn == parsed.startSn + i;
    var drift := parsed.UpdateFragPtsDts(f, Times(f.value.pts.start, f.value.pts.end, f.value.startDts, f.value.endDts));
  }
}
