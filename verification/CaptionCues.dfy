/** The cues of a caption channel, over every run of commands. */
module CaptionCues {
  import opened Basics
  import opened CaptionScreen
  import opened CaptionChannel

  // ---- what cues should be, from the updates alone

  /** The first of the updates up to i without a change since. */
  function RunStart(h: seq<Update>, i: nat): (a: nat)
    requires i < |h|
    ensures a <= i && h[a].picture == h[i].picture
  {
    if i == 0 || h[i - 1].picture != h[i].picture then i else RunStart(h, i - 1)
  }

  /** The cue that ends with update i: what was shown before it, from when it was first shown. */
  function CueAt(h: seq<Update>, i: nat): seq<Cue>
    requires i < |h|
  {
    if i > 0 && h[i].picture != h[i - 1].picture && h[i - 1].picture != NoContent()
    then [Cue(Some(h[RunStart(h, i - 1)].time), h[i].time, h[i - 1].picture)]
    else []
  }

  /** All cues that the first n updates end. */
  function CuesOf(h: seq<Update>, n: nat): seq<Cue>
    requires n <= |h|
  {
    if n == 0 then [] else CuesOf(h, n - 1) + CueAt(h, n - 1)
  }

  /** What is on display after the updates, and since when. */
  function Shown(h: seq<Update>): Picture {
    if h == [] then NoContent() else h[|h| - 1].picture
  }

  function Since(h: seq<Update>): Option<int> {
    if Shown(h) == NoContent() then None else Some(h[RunStart(h, |h| - 1)].time)
  }

  // ---- the channel does that

  /** Before the last reset the channel had given out these cues and updates. */
  datatype Past = Past(cues: seq<Cue>, updates: seq<Update>)

  ghost predicate Follows(c: ChannelValue, p: Past) {
    && |p.updates| <= |c.updates| && c.updates[..|p.updates|] == p.updates
    && var h := c.updates[|p.updates|..];
       && c.cues == p.cues + CuesOf(h, |h|)
       && c.shown == Shown(h) && c.cueStart == Since(h)
  }

  lemma {:induction false} RunStartLonger(h: seq<Update>, u: Update, i: nat)
    requires i < |h|
    ensures RunStart(h + [u], i) == RunStart(h, i)
  {
    if i > 0 {
      RunStartLonger(h, u, i - 1);
    }
  }

  lemma {:induction false} CuesLonger(h: seq<Update>, u: Update, n: nat)
    requires n <= |h|
    ensures CuesOf(h + [u], n) == CuesOf(h, n)
  {
    if n > 0 {
      CuesLonger(h, u, n - 1);
      if n > 1 {
        RunStartLonger(h, u, n - 2);
      }
    }
  }

  /** One more update. */
  lemma {:induction false} NextUpdate(h: seq<Update>, u: Update)
    ensures CuesOf(h + [u], |h| + 1)
            == CuesOf(h, |h|) + if u.picture != Shown(h) && Shown(h) != NoContent() then [Cue(Since(h), u.time, Shown(h))] else []
    ensures Shown(h + [u]) == u.picture
    ensures Since(h + [u]) == if u.picture == NoContent() then None else if u.picture == Shown(h) then Since(h) else Some(u.time)
  {
    hide NoContent, RunStart, CueAt, CuesOf, Since, Shown;
    CuesLonger(h, u, |h|);
    CuesStep(h + [u], |h|);
    NextCue(h, u);
    NextSince(h, u);
  }

  lemma CuesStep(h: seq<Update>, n: nat)
    requires n < |h|
    ensures CuesOf(h, n + 1) == CuesOf(h, n) + CueAt(h, n)
  {
  }

  lemma NextCue(h: seq<Update>, u: Update)
    ensures CueAt(h + [u], |h|)
            == if u.picture != Shown(h) && Shown(h) != NoContent() then [Cue(Since(h), u.time, Shown(h))] else []
  {
    hide NoContent, RunStart;
    var g := h + [u];
    if h != [] {
      assert g[|h| - 1] == h[|h| - 1] && g[|h|] == u;
      RunStartLonger(h, u, |h| - 1);
      assert RunStart(h, |h| - 1) < |h| && g[RunStart(h, |h| - 1)] == h[RunStart(h, |h| - 1)];
    }
  }

  lemma NextSince(h: seq<Update>, u: Update)
    ensures Shown(h + [u]) == u.picture
    ensures Since(h + [u]) == if u.picture == NoContent() then None else if u.picture == Shown(h) then Since(h) else Some(u.time)
  {
    hide NoContent;
    var g := h + [u];
    assert g[|h|] == u;
    if h != [] {
      assert g[|h| - 1] == h[|h| - 1];
      RunStartLonger(h, u, |h| - 1);
    }
  }

  lemma OutputFollows(c: ChannelValue, p: Past, t: int)
    requires Follows(c, p)
    ensures Follows(Output(c, t), p)
  {
    hide Content, NoContent, Shown, Since, CuesOf;
    var n := |p.updates|;
    var h := c.updates[n..];
    var u := Update(t, Content(c.displayed));
    assert (c.updates + [u])[n..] == h + [u] && (c.updates + [u])[..n] == p.updates;
    NextUpdate(h, u);
    SinceShown(h);
    var more: seq<Cue> := if u.picture != Shown(h) && Shown(h) != NoContent() then [Cue(Since(h), t, Shown(h))] else [];
    assert p.cues + CuesOf(h, |h|) + more == p.cues + (CuesOf(h, |h|) + more);
    assert p.cues + CuesOf(h, |h|) + [] == p.cues + CuesOf(h, |h|);
  }

  lemma SinceShown(h: seq<Update>)
    ensures Since(h).None? <==> Shown(h) == NoContent()
  {
    hide NoContent;
  }

  /** Everything else leaves cues and updates alone. */
  lemma QuietFollows(c: ChannelValue, d: ChannelValue, p: Past)
    requires Follows(c, p)
    requires d.cues == c.cues && d.updates == c.updates && d.shown == c.shown && d.cueStart == c.cueStart
    ensures Follows(d, p)
  {
  }

  function PastAfter(c: ChannelValue, m: Command, p: Past): Past {
    if m == ResetChannel then Past(c.cues, c.updates) else p
  }

  /** Every command keeps the cues in step with the updates. */
  lemma ApplyFollows(c: ChannelValue, m: Command, t: int, p: Past)
    requires ValidChannel(c) && ValidCommand(m) && Follows(c, p) && Apply(c, m, t).Some?
    ensures Follows(Apply(c, m, t).value, PastAfter(c, m, p))
    ensures ValidChannel(Apply(c, m, t).value)
  {
    ApplyValid(c, m, t);
    hide Follows, Content, NoContent, WithCurrent, AllInserted, Reset, RolledUp, PacApplied, PenSet, Moved, BackgroundSet, BackSpaced,
      ClearedFrom, Current;
    var d := Apply(c, m, t).value;
    match m
    case ResetChannel => FreshFollows(d, c.cues, c.updates);
    case BackSpace =>
      if c.mode != TextMode && c.onDisplayed {
        Written(c, WithCurrent(Target(c), BackSpaced(Current(Target(c)))), p, t);
      } else {
        QuietFollows(c, d, p);
      }
    case DeleteToEnd => Written(c, WithCurrent(Target(c), ClearedFrom(Current(Target(c)), Current(Target(c)).pos)), p, t);
    case EraseDisplayed =>
      QuietFollows(c, c.(displayed := Reset(c.displayed)), p);
      OutputFollows(c.(displayed := Reset(c.displayed)), p, t);
    case CarriageReturn => Written(c, RolledUp(Target(c)), p, t);
    case EndOfCaption =>
      var e := if c.mode == PopOn then c.(displayed := c.hidden, hidden := c.displayed, onDisplayed := false) else c;
      QuietFollows(c, e, p);
      OutputFollows(e, p, t);
    case Characters(codes) =>
      if c.mode == PaintOn || c.mode == RollUp {
        Written(c, WithCurrent(Target(c), AllInserted(Current(Target(c)), codes)), p, t);
      } else {
        QuietFollows(c, d, p);
      }
    case _ => QuietFollows(c, d, p);
  }

  lemma Written(c: ChannelValue, s: ScreenValue, p: Past, t: int)
    requires Follows(c, p)
    ensures Follows(Output(WithTarget(c, s), t), p)
  {
    QuietFollows(c, WithTarget(c, s), p);
    OutputFollows(WithTarget(c, s), p, t);
  }

  lemma FreshFollows(d: ChannelValue, cues: seq<Cue>, updates: seq<Update>)
    requires d.cues == cues && d.updates == updates && d.shown == NoContent() && d.cueStart == None
    ensures Follows(d, Past(cues, updates))
  {
    hide NoContent;
    assert d.updates[|updates|..] == [];
    assert cues + [] == cues;
  }

  lemma SameRows(s: ScreenValue)
    ensures forall n: nat :: ValidScreen(s.(rollRows := n)) <==> ValidScreen(s)
    ensures forall n: nat :: ValidScreen(Reset(s).(rollRows := n))
  {
  }

  lemma ApplyValid(c: ChannelValue, m: Command, t: int)
    requires ValidChannel(c) && ValidCommand(m) && Apply(c, m, t).Some?
    ensures ValidChannel(Apply(c, m, t).value)
  {
    hide Content, NoContent, AllInserted, BackSpaced, ClearedFrom, ValidScreen, WithCurrent, PenSet, Moved, BackgroundSet, PacApplied,
      RolledUp, Reset, Current;
    SameRows(c.displayed);
    SameRows(c.hidden);
  }

  // ---- what a cue covers

  lemma {:induction false} RunConstant(h: seq<Update>, i: nat)
    requires i < |h|
    ensures forall k :: RunStart(h, i) <= k <= i ==> h[k].picture == h[i].picture
    ensures RunStart(h, i) > 0 ==> h[RunStart(h, i) - 1].picture != h[i].picture
  {
    if i > 0 && h[i - 1].picture == h[i].picture {
      RunConstant(h, i - 1);
    }
  }

  /** A cue covers updates a up to b: it starts with the first and ends with the first one after, and it shows what
      all of them show, and what neither the update before nor the one after shows. The channel was reset before the
      updates whose numbers are given; a cue does not go on over a reset. */
  ghost predicate Covers(h: seq<Update>, resets: set<nat>, cue: Cue, a: nat, b: nat) {
    && a < b < |h|
    && cue.start == Some(h[a].time) && cue.end == h[b].time && cue.picture != NoContent()
    && (forall k :: a <= k < b ==> h[k].picture == cue.picture)
    && h[b].picture != cue.picture && (a > 0 ==> a in resets || h[a - 1].picture != cue.picture)
    && (forall k :: a < k <= b ==> k !in resets)
  }

  ghost predicate Covered(h: seq<Update>, resets: set<nat>, cue: Cue) {
    exists a: nat, b: nat :: Covers(h, resets, cue, a, b)
  }

  /** What is shown changes with update b, and something was shown before. */
  ghost predicate Changes(h: seq<Update>, resets: set<nat>, b: nat) {
    0 < b < |h| && b !in resets && h[b].picture != h[b - 1].picture && h[b - 1].picture != NoContent()
  }

  ghost predicate EndedBy(h: seq<Update>, resets: set<nat>, cues: seq<Cue>, b: nat) {
    exists k: nat, a: nat :: k < |cues| && Covers(h, resets, cues[k], a, b)
  }

  /** The cues tell what was shown: each of them covers updates, and every change ends one. */
  ghost predicate Told(h: seq<Update>, resets: set<nat>, cues: seq<Cue>) {
    && (forall k :: 0 <= k < |cues| ==> Covered(h, resets, cues[k]))
    && (forall b: nat :: Changes(h, resets, b) ==> EndedBy(h, resets, cues, b))
  }

  lemma {:induction false} CuesCover(h: seq<Update>, n: nat, k: nat) returns (a: nat, b: nat)
    requires n <= |h| && k < |CuesOf(h, n)|
    ensures Covers(h, {}, CuesOf(h, n)[k], a, b) && b < n
  {
    hide NoContent;
    if k < |CuesOf(h, n - 1)| {
      a, b := CuesCover(h, n - 1, k);
    } else {
      a, b := RunStart(h, n - 2), n - 1;
      RunConstant(h, n - 2);
    }
  }

  /** And every change of what is shown ends a cue, unless nothing was shown. */
  lemma {:induction false} ChangeEndsCue(h: seq<Update>, n: nat, b: nat) returns (k: nat)
    requires b < n <= |h| && Changes(h, {}, b)
    ensures k < |CuesOf(h, n)| && Covers(h, {}, CuesOf(h, n)[k], RunStart(h, b - 1), b)
  {
    hide NoContent, RunStart;
    if b == n - 1 {
      k := |CuesOf(h, n - 1)|;
      RunConstant(h, b - 1);
      assert CuesOf(h, n)[k] == CueAt(h, b)[0];
    } else {
      k := ChangeEndsCue(h, n - 1, b);
      assert CuesOf(h, n)[k] == CuesOf(h, n - 1)[k];
    }
  }

  // ---- times

  /** Cues start before they end, show something, and follow one another. */
  ghost predicate InOrder(cues: seq<Cue>) {
    && (forall i :: 0 <= i < |cues| ==> cues[i].start.Some? && cues[i].start.value <= cues[i].end && cues[i].picture != NoContent())
    && (forall i, j :: 0 <= i < j < |cues| ==> cues[i].end <= cues[j].start.value)
  }

  /** A channel at a time: a cue is open exactly when something was shown last, and all is in order. */
  ghost predicate Timely(c: ChannelValue, now: int) {
    && (c.cueStart.None? <==> c.shown == NoContent())
    && InOrder(c.cues)
    && (c.cues != [] ==> c.cues[|c.cues| - 1].end <= now)
    && (c.cueStart.Some? ==> c.cueStart.value <= now)
    && (c.cueStart.Some? && c.cues != [] ==> c.cues[|c.cues| - 1].end <= c.cueStart.value)
  }

  lemma OutputTimely(c: ChannelValue, now: int, t: int)
    requires Timely(c, now) && now <= t
    ensures Timely(Output(c, t), t)
  {
    hide NoContent, Content;
    var d := Output(c, t);
    if |d.cues| > |c.cues| {
      var n := |c.cues|;
      assert d.cues[n].start == c.cueStart;
      forall i | 0 <= i < n
        ensures d.cues[i].end <= d.cues[n].start.value
      {
        if i < n - 1 {
          assert c.cues[i].end <= c.cues[n - 1].start.value;
        }
      }
    }
  }

  lemma QuietTimely(c: ChannelValue, d: ChannelValue, now: int, t: int)
    requires Timely(c, now) && now <= t
    requires d.cues == c.cues && d.shown == c.shown && d.cueStart == c.cueStart
    ensures Timely(d, t)
  {
    hide NoContent;
  }

  lemma WrittenTimely(c: ChannelValue, s: ScreenValue, now: int, t: int)
    requires Timely(c, now) && now <= t
    ensures Timely(Output(WithTarget(c, s), t), t)
  {
    hide NoContent, Output;
    QuietTimely(c, WithTarget(c, s), now, now);
    OutputTimely(WithTarget(c, s), now, t);
  }

  /** Every command keeps a channel in order, at times that do not decrease. */
  lemma ApplyTimely(c: ChannelValue, m: Command, now: int, t: int)
    requires ValidChannel(c) && ValidCommand(m) && Timely(c, now) && now <= t && Apply(c, m, t).Some?
    ensures Timely(Apply(c, m, t).value, t)
  {
    hide Timely, Content, NoContent, WithCurrent, AllInserted, Reset, RolledUp, PacApplied, PenSet, Moved, BackgroundSet, BackSpaced,
      ClearedFrom, Current, Output;
    var d := Apply(c, m, t).value;
    match m
    case ResetChannel => ResetTimely(c, d, now, t);
    case BackSpace =>
      if c.mode != TextMode && c.onDisplayed {
        WrittenTimely(c, WithCurrent(Target(c), BackSpaced(Current(Target(c)))), now, t);
      } else {
        QuietTimely(c, d, now, t);
      }
    case DeleteToEnd => WrittenTimely(c, WithCurrent(Target(c), ClearedFrom(Current(Target(c)), Current(Target(c)).pos)), now, t);
    case EraseDisplayed =>
      QuietTimely(c, c.(displayed := Reset(c.displayed)), now, now);
      OutputTimely(c.(displayed := Reset(c.displayed)), now, t);
    case CarriageReturn => WrittenTimely(c, RolledUp(Target(c)), now, t);
    case EndOfCaption =>
      var e := if c.mode == PopOn then c.(displayed := c.hidden, hidden := c.displayed, onDisplayed := false) else c;
      QuietTimely(c, e, now, now);
      OutputTimely(e, now, t);
    case Characters(codes) =>
      if c.mode == PaintOn || c.mode == RollUp {
        WrittenTimely(c, WithCurrent(Target(c), AllInserted(Current(Target(c)), codes)), now, t);
      } else {
        QuietTimely(c, d, now, t);
      }
    case _ => QuietTimely(c, d, now, t);
  }

  lemma ResetTimely(c: ChannelValue, d: ChannelValue, now: int, t: int)
    requires Timely(c, now) && now <= t && d.cues == c.cues && d.shown == NoContent() && d.cueStart == None
    ensures Timely(d, t)
  {
    hide NoContent;
  }

  lemma NewTimely(now: int)
    ensures Timely(NewChannel(), now) && Follows(NewChannel(), Past([], []))
  {
    hide NoContent;
  }

  // ---- runs

  datatype Timed = Timed(command: Command, time: int)

  ghost predicate ValidRun(run: seq<Timed>, now: int)
    decreases |run|
  {
    run == [] || (ValidCommand(run[0].command) && now <= run[0].time && ValidRun(run[1..], run[0].time))
  }

  /** The channel after a run of commands, if all are valid and the source does not fail. */
  ghost function Run(c: ChannelValue, run: seq<Timed>): Option<ChannelValue>
    requires ValidChannel(c)
    decreases |run|
  {
    if run == [] then Some(c)
    else if !ValidCommand(run[0].command) || Apply(c, run[0].command, run[0].time).None? then None
    else
      ApplyValid(c, run[0].command, run[0].time);
      Run(Apply(c, run[0].command, run[0].time).value, run[1..])
  }

  /** The numbers of the updates before which a run resets the channel. */
  ghost function Resets(c: ChannelValue, run: seq<Timed>, now: int): set<nat>
    requires ValidChannel(c) && ValidRun(run, now)
    decreases |run|
  {
    if run == [] then {}
    else
      var d := Apply(c, run[0].command, run[0].time);
      var first: set<nat> := if run[0].command == ResetChannel then {|c.updates|} else {};
      if d.None? then first
      else
        ApplyValid(c, run[0].command, run[0].time);
        first + Resets(d.value, run[1..], run[0].time)
  }

  /** All that was given out before the last reset is told. */
  ghost predicate PastTold(p: Past, resets: set<nat>) {
    && Told(p.updates, resets, p.cues)
    && (forall r :: r in resets ==> r <= |p.updates|)
    && (p.updates != [] ==> |p.updates| in resets)
  }

  /** What is covered among the updates after the last reset is covered among all. */
  lemma Shifted(h: seq<Update>, n: nat, resets: set<nat>, cue: Cue, a: nat, b: nat)
    requires n <= |h| && (n > 0 ==> n in resets) && (forall r :: r in resets ==> r <= n)
    requires Covers(h[n..], {}, cue, a, b)
    ensures Covers(h, resets, cue, n + a, n + b)
  {
    hide NoContent;
    assert forall k :: n + a <= k < n + b ==> h[k] == h[n..][k - n];
    assert a > 0 ==> h[n + a - 1] == h[n..][a - 1];
  }

  /** What is covered stays covered when updates are added, and a reset before them. */
  lemma StillCovers(h: seq<Update>, g: seq<Update>, resets: set<nat>, cue: Cue, a: nat, b: nat)
    requires Covers(h, resets, cue, a, b) && h <= g
    ensures Covers(g, resets, cue, a, b) && Covers(g, resets + {|h|}, cue, a, b)
  {
    hide NoContent;
    assert forall k :: 0 <= k < |h| ==> g[k] == h[k];
  }

  lemma CueTold(c: ChannelValue, p: Past, resets: set<nat>, k: nat)
    requires Follows(c, p) && PastTold(p, resets) && k < |c.cues|
    ensures Covered(c.updates, resets, c.cues[k])
  {
    hide Covers, CuesOf, NoContent, Shown, Since;
    var n := |p.updates|;
    var h := c.updates[n..];
    if k < |p.cues| {
      assert c.cues[k] == p.cues[k];
      assert Covered(p.updates, resets, p.cues[k]);
      var a: nat, b: nat :| Covers(p.updates, resets, p.cues[k], a, b);
      StillCovers(p.updates, c.updates, resets, c.cues[k], a, b);
    } else {
      var a, b := CuesCover(h, |h|, k - |p.cues|);
      assert c.cues[k] == CuesOf(h, |h|)[k - |p.cues|];
      Shifted(c.updates, n, resets, c.cues[k], a, b);
    }
  }

  lemma ChangeTold(c: ChannelValue, p: Past, resets: set<nat>, b: nat)
    requires Follows(c, p) && PastTold(p, resets) && Changes(c.updates, resets, b)
    ensures EndedBy(c.updates, resets, c.cues, b)
  {
    hide Covers, CuesOf, NoContent, Shown, Since, RunStart;
    var n := |p.updates|;
    var h := c.updates[n..];
    if b < n {
      assert p.updates[b] == c.updates[b] && p.updates[b - 1] == c.updates[b - 1];
      assert EndedBy(p.updates, resets, p.cues, b);
      var k: nat, a: nat :| k < |p.cues| && Covers(p.updates, resets, p.cues[k], a, b);
      StillCovers(p.updates, c.updates, resets, p.cues[k], a, b);
      assert c.cues[k] == p.cues[k];
    } else {
      assert h[b - n] == c.updates[b] && h[b - n - 1] == c.updates[b - 1];
      var k := ChangeEndsCue(h, |h|, b - n);
      Shifted(c.updates, n, resets, CuesOf(h, |h|)[k], RunStart(h, b - n - 1), b - n);
      assert c.cues[|p.cues| + k] == CuesOf(h, |h|)[k];
    }
  }

  lemma AllTold(c: ChannelValue, p: Past, resets: set<nat>)
    requires Follows(c, p) && PastTold(p, resets)
    ensures Told(c.updates, resets, c.cues)
  {
    hide Follows, PastTold, Covered, Changes, EndedBy;
    forall k | 0 <= k < |c.cues| ensures Covered(c.updates, resets, c.cues[k]) {
      CueTold(c, p, resets, k);
    }
    forall b: nat | Changes(c.updates, resets, b) ensures EndedBy(c.updates, resets, c.cues, b) {
      ChangeTold(c, p, resets, b);
    }
  }

  /** A reset after all updates so far. */
  lemma ResetTold(h: seq<Update>, resets: set<nat>, cues: seq<Cue>)
    requires Told(h, resets, cues) && forall r :: r in resets ==> r <= |h|
    ensures PastTold(Past(cues, h), resets + {|h|})
  {
    hide Covers;
    var more := resets + {|h|};
    forall k | 0 <= k < |cues| ensures Covered(h, more, cues[k]) {
      var a: nat, b: nat :| Covers(h, resets, cues[k], a, b);
      StillCovers(h, h, resets, cues[k], a, b);
    }
    forall b: nat | Changes(h, more, b) ensures EndedBy(h, more, cues, b) {
      assert EndedBy(h, resets, cues, b);
      var k: nat, a: nat :| k < |cues| && Covers(h, resets, cues[k], a, b);
      StillCovers(h, h, resets, cues[k], a, b);
    }
  }

  lemma PastLength(c: ChannelValue, p: Past)
    requires Follows(c, p)
    ensures |p.updates| <= |c.updates|
  {
  }

  /** Every command. */
  lemma PastAfterTold(c: ChannelValue, m: Command, p: Past, resets: set<nat>)
    requires Follows(c, p) && PastTold(p, resets)
    ensures PastTold(PastAfter(c, m, p), resets + if m == ResetChannel then {|c.updates|} else {})
  {
    hide Follows, Told;
    if m == ResetChannel {
      AllTold(c, p, resets);
      PastLength(c, p);
      ResetTold(c.updates, resets, c.cues);
    } else {
      assert resets + {} == resets;
    }
  }

  /** What has been told stays told, and a channel in order stays so, over a run from any state. */
  lemma {:induction false} RunKeeps(c: ChannelValue, run: seq<Timed>, now: int, p: Past, before: set<nat>) returns (end: int)
    requires ValidChannel(c) && ValidRun(run, now) && Run(c, run).Some?
    requires Follows(c, p) && PastTold(p, before) && Timely(c, now)
    ensures var d := Run(c, run).value;
            Told(d.updates, before + Resets(c, run, now), d.cues) && Timely(d, end) && now <= end
    decreases |run|
  {
    hide Follows, Timely, Apply, ValidChannel, ValidCommand, PastTold, Told, PastAfter;
    if run == [] {
      end := now;
      AllTold(c, p, before);
      assert before + {} == before;
    } else {
      var m, t := run[0].command, run[0].time;
      var d := Apply(c, m, t).value;
      ApplyFollows(c, m, t, p);
      ApplyTimely(c, m, now, t);
      PastAfterTold(c, m, p, before);
      var first: set<nat> := if m == ResetChannel then {|c.updates|} else {};
      end := RunKeeps(d, run[1..], t, PastAfter(c, m, p), before + first);
      assert before + first + Resets(d, run[1..], t) == before + Resets(c, run, now);
    }
  }

  /** A cue is open exactly when something was shown last; cues start before they end, show something, and do not
      overlap; and they tell what was shown. */
  ghost predicate Captioned(c: ChannelValue, resets: set<nat>) {
    (c.cueStart.None? <==> c.shown == NoContent()) && InOrder(c.cues) && Told(c.updates, resets, c.cues)
  }

  /** Over every run of commands at times that do not decrease, resets included: all of that holds. */
  lemma {:induction false} CaptionRun(run: seq<Timed>, now: int)
    requires ValidRun(run, now) && Run(NewChannel(), run).Some?
    ensures Captioned(Run(NewChannel(), run).value, Resets(NewChannel(), run, now))
  {
    hide InOrder, NoContent, Told, Follows, Run, Resets, ValidRun;
    NewTimely(now);
    NothingTold();
    var end := RunKeeps(NewChannel(), run, now, Past([], []), {});
    assert {} + Resets(NewChannel(), run, now) == Resets(NewChannel(), run, now);
  }

  lemma NothingTold()
    ensures PastTold(Past([], []), {})
  {
  }
}
