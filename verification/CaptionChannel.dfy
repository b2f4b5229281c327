/** A CEA-608 channel: two memories that are swapped, a shadow of what was shown last, and the cues it gives out. */
module CaptionChannel {
  import opened Basics
  import opened CaptionScreen

  datatype Mode = NoMode | PopOn | RollUp | PaintOn | TextMode

  type Picture = seq<seq<Char>>

  /** A cue: shown from its start to its end. */
  datatype Cue = Cue(start: Option<int>, end: int, picture: Picture)

  /** What was on display at a time. */
  datatype Update = Update(time: int, picture: Picture)

  /** A channel, with all the updates and cues it has given out. */
  datatype ChannelValue = ChannelValue(displayed: ScreenValue, hidden: ScreenValue, onDisplayed: bool, mode: Mode, shown: Picture,
                                       cueStart: Option<int>, cues: seq<Cue>, updates: seq<Update>)

  predicate ValidChannel(c: ChannelValue) {
    ValidScreen(c.displayed) && ValidScreen(c.hidden) && c.displayed.rollRows <= 4 && c.hidden.rollRows <= 4
  }

  // ---- commands

  datatype Command =
    | ResumeLoading
    | BackSpace
    | DeleteToEnd
    | RollUpRows(rows: nat)
    | SetStyle(styles: Styles)
    | ResumeDirect
    | ResumeText
    | EraseDisplayed
    | CarriageReturn
    | EraseHidden
    | EndOfCaption
    | TabOffset(columns: nat)
    | Preamble(pac: Pac)
    | SetBackground(styles: Styles)
    | Characters(codes: seq<int>)
    | Nothing
    | ResetChannel

  ghost predicate ValidCommand(m: Command) {
    match m
    case RollUpRows(n) => 2 <= n <= 4
    case TabOffset(n) => 1 <= n <= 3
    case Preamble(p) => 1 <= p.row <= NR_ROWS && (p.indent.Some? ==> p.indent.value <= NR_COLS)
    case _ => true
  }

  /** The screen that commands write to. */
  function Target(c: ChannelValue): ScreenValue {
    if c.onDisplayed then c.displayed else c.hidden
  }

  function WithTarget(c: ChannelValue, s: ScreenValue): ChannelValue {
    if c.onDisplayed then c.(displayed := s) else c.(hidden := s)
  }

  function WithRow(c: ChannelValue, r: Option<RowValue>): Option<ChannelValue>
    requires ValidChannel(c)
  {
    if r.None? then None else Some(WithTarget(c, WithCurrent(Target(c), r.value)))
  }

  /** Give out what is displayed: a cue starts when something is shown, and ends when it changes. */
  function Output(c: ChannelValue, t: int): ChannelValue {
    var d := Content(c.displayed);
    var e := if c.cueStart.None? && d != NoContent() then c.(cueStart := Some(t))
             else if d != c.shown then
               c.(cues := c.cues + [Cue(c.cueStart, t, c.shown)], cueStart := if d == NoContent() then None else Some(t))
             else c;
    e.(shown := d, updates := c.updates + [Update(t, d)])
  }

  function InMode(c: ChannelValue, m: Mode): ChannelValue {
    if m == c.mode then c
    else
      var d := if m == PopOn then c.displayed else Reset(c.displayed);
      c.(mode := m, onDisplayed := m != PopOn,
         displayed := if m == RollUp then d else d.(rollRows := 0),
         hidden := if m == RollUp then c.hidden else c.hidden.(rollRows := 0))
  }

  function AllInserted(r: RowValue, codes: seq<int>): (q: RowValue)
    requires ValidRow(r)
    ensures ValidRow(q)
    decreases |codes|
  {
    if codes == [] then r else AllInserted(Inserted(r, codes[0]), codes[1..])
  }

  /** What a command does to a channel; nothing comes of it when the source fails. */
  function Apply(c: ChannelValue, m: Command, t: int): Option<ChannelValue>
    requires ValidChannel(c) && ValidCommand(m)
  {
    match m
    case ResumeLoading => Some(InMode(c, PopOn))
    case BackSpace =>
      if c.mode == TextMode then Some(c)
      else
        var d := WithTarget(c, WithCurrent(Target(c), BackSpaced(Current(Target(c)))));
        Some(if c.onDisplayed then Output(d, t) else d)
    case DeleteToEnd =>
      var r := Current(Target(c));
      Some(Output(WithTarget(c, WithCurrent(Target(c), ClearedFrom(r, r.pos))), t))
    case RollUpRows(n) =>
      var d := InMode(c.(onDisplayed := true), RollUp);
      Some(WithTarget(d, Target(d).(rollRows := n)))
    case SetStyle(styles) => WithRow(c, PenSet(Current(Target(c)), styles))
    case ResumeDirect => Some(InMode(c, PaintOn))
    case ResumeText => Some(InMode(c, TextMode))
    case EraseDisplayed => Some(Output(c.(displayed := Reset(c.displayed)), t))
    case CarriageReturn => Some(Output(WithTarget(c, RolledUp(Target(c))), t))
    case EraseHidden => Some(c.(hidden := Reset(c.hidden)))
    case EndOfCaption =>
      Some(Output(if c.mode == PopOn then c.(displayed := c.hidden, hidden := c.displayed, onDisplayed := false) else c, t))
    case TabOffset(n) => WithRow(c, Moved(Current(Target(c)), n))
    case Preamble(p) =>
      var s := PacApplied(Target(c), p);
      if s.None? then None else Some(WithTarget(c, s.value))
    case SetBackground(styles) => WithRow(c, BackgroundSet(Current(Target(c)), styles))
    case Characters(codes) =>
      var d := WithTarget(c, WithCurrent(Target(c), AllInserted(Current(Target(c)), codes)));
      Some(if c.mode == PaintOn || c.mode == RollUp then Output(d, t) else d)
    case Nothing => Some(c)
    case ResetChannel =>
      Some(c.(displayed := Reset(c.displayed), hidden := Reset(c.hidden), onDisplayed := true, mode := NoMode,
              shown := NoContent(), cueStart := None))
  }

  const NEW_SCREEN := ScreenValue(BlankRows(), NR_ROWS - 1, 0)

  function NewChannel(): ChannelValue {
    ChannelValue(NEW_SCREEN, NEW_SCREEN, true, NoMode, NoContent(), None, [], [])
  }

  // ---- the channel as an object

  ghost predicate Disjoint(a: Screen, b: Screen)
    reads a, b
  {
    a != b && Apart(a.rows, b.rows)
  }

  /** Three new screens, and all that they consist of. */
  method NewScreens() returns (a: Screen, b: Screen, c: Screen, ghost repr: set<object>)
    ensures fresh(repr) && a in repr && b in repr && c in repr
    ensures (forall r :: r in a.rows ==> r in repr) && (forall r :: r in b.rows ==> r in repr) && (forall r :: r in c.rows ==> r in repr)
    ensures a.Valid() && b.Valid() && c.Valid() && Disjoint(a, b) && Disjoint(a, c) && Disjoint(b, c)
    ensures a.Value() == b.Value() == c.Value() == NEW_SCREEN
  {
    hide a.Valid, a.Value, BlankRows;
    a := new Screen();
    b := new Screen();
    assert Disjoint(a, b) && a.Valid();
    c := new Screen();
    ghost var screens: set<object> := {a, b, c};
    repr := screens + (set r | r in a.rows) + (set r | r in b.rows) + (set r | r in c.rows);
  }

  lemma NewContent()
    ensures Content(NEW_SCREEN) == NoContent()
  {
  }

  class Channel {
    var displayedMemory: Screen
    var nonDisplayedMemory: Screen
    var lastOutputScreen: Screen
    var writeScreen: Screen
    var mode: Mode
    var cueStartTime: Option<int>
    var cues: seq<Cue>
    var updates: seq<Update>

    /** The channel, its screens and their rows, which never change but change places. */
    ghost const Repr: set<object>

    ghost predicate Valid()
      reads this, Repr
    {
      && this in Repr && displayedMemory in Repr && nonDisplayedMemory in Repr && lastOutputScreen in Repr
      && (forall r :: r in displayedMemory.rows ==> r in Repr)
      && (forall r :: r in nonDisplayedMemory.rows ==> r in Repr)
      && (forall r :: r in lastOutputScreen.rows ==> r in Repr)
      && displayedMemory.Valid() && nonDisplayedMemory.Valid() && lastOutputScreen.Valid()
      && Disjoint(displayedMemory, nonDisplayedMemory) && Disjoint(displayedMemory, lastOutputScreen)
      && Disjoint(nonDisplayedMemory, lastOutputScreen)
      && (writeScreen == displayedMemory || writeScreen == nonDisplayedMemory)
    }

    ghost function Value(): (v: ChannelValue)
      requires Valid()
      reads this, Repr
      ensures ValidChannel(v)
    {
      ChannelValue(displayedMemory.Value(), nonDisplayedMemory.Value(), writeScreen == displayedMemory, mode,
                   Content(lastOutputScreen.Value()), cueStartTime, cues, updates)
    }

    constructor ()
      ensures Valid() && this in Repr && fresh(Repr) && Value() == NewChannel()
    {
      var a, b, c;
      ghost var repr;
      a, b, c, repr := NewScreens();
      displayedMemory, nonDisplayedMemory, lastOutputScreen, writeScreen := a, b, c, a;
      mode, cueStartTime, cues, updates := NoMode, None, [], [];
      Repr := {this} + repr;
      new;
      hide a.Valid, a.Value, Disjoint, NoContent, Content;
      NewContent();
    }

    /** Remember what is displayed. */
    method Shadow()
      requires Valid()
      modifies lastOutputScreen.rows
      ensures Valid()
      ensures Value() == old(Value()).(shown := Content(old(Value()).displayed))
    {
      hide displayedMemory.Valid, displayedMemory.Value, Content;
      lastOutputScreen.Copy(displayedMemory);
    }

    /** Report what is displayed, and end or start a cue. */
    method OutputDataUpdate(t: int)
      requires Valid()
      modifies this`cueStartTime, this`cues, this`updates, lastOutputScreen.rows
      ensures Valid() && Value() == Output(old(Value()), t)
    {
      hide displayedMemory.Valid, displayedMemory.Value, Content, NoContent, displayedMemory.Picture;
      Report(t);
      Shadow();
    }

    method Report(t: int)
      requires Valid()
      modifies this`cueStartTime, this`cues, this`updates
      ensures Valid()
      ensures Value() == Output(old(Value()), t).(shown := old(Value()).shown)
    {
      hide displayedMemory.Valid, displayedMemory.Value, Content, NoContent, displayedMemory.Picture;
      var picture := displayedMemory.Picture();
      var blank := displayedMemory.IsEmpty();
      var same := displayedMemory.Equals(lastOutputScreen);
      var start, given := cueStartTime, cues;
      if start.None? && !blank {
        start := Some(t);
      } else if !same {
        given := given + [Cue(start, t, lastOutputScreen.Picture())];
        start := if blank then None else Some(t);
      }
      Record(start, given, updates + [Update(t, picture)]);
    }

    method Record(start: Option<int>, given: seq<Cue>, all: seq<Update>)
      requires Valid()
      modifies this`cueStartTime, this`cues, this`updates
      ensures Valid()
      ensures Value() == old(Value()).(cueStart := start, cues := given, updates := all)
    {
      hide displayedMemory.Valid, displayedMemory.Value, Content;
      cueStartTime, cues, updates := start, given, all;
    }

    // ---- writing to the target

    method WriteBackSpace()
      requires Valid()
      modifies writeScreen.rows
      ensures Valid()
      ensures Value() == WithTarget(old(Value()), WithCurrent(Target(old(Value())), BackSpaced(Current(Target(old(Value()))))))
    {
      hide displayedMemory.Valid, displayedMemory.Value, Content, WithCurrent, BackSpaced;
      writeScreen.BackSpace();
    }

    method WriteClearToEnd()
      requires Valid()
      modifies writeScreen.rows
      ensures Valid()
      ensures var r := Current(Target(old(Value())));
              Value() == WithTarget(old(Value()), WithCurrent(Target(old(Value())), ClearedFrom(r, r.pos)))
    {
      hide displayedMemory.Valid, displayedMemory.Value, Content, WithCurrent, ClearedFrom;
      writeScreen.ClearToEndOfRow();
    }

    method WriteChar(byte: int)
      requires Valid()
      modifies writeScreen.rows
      ensures Valid()
      ensures Value() == WithTarget(old(Value()), WithCurrent(Target(old(Value())), Inserted(Current(Target(old(Value()))), byte)))
    {
      hide displayedMemory.Valid, displayedMemory.Value, Content, WithCurrent, Inserted;
      writeScreen.InsertChar(byte);
    }

    method WritePen(styles: Styles) returns (ok: bool)
      requires Valid()
      modifies writeScreen.rows
      ensures ok <==> PenSet(Current(Target(old(Value()))), styles).Some?
      ensures ok ==> Valid() && Some(Value()) == WithRow(old(Value()), PenSet(Current(Target(old(Value()))), styles))
    {
      hide displayedMemory.Valid, displayedMemory.Value, Content, WithCurrent, PenSet;
      ok := writeScreen.SetPen(styles);
    }

    method WriteMove(columns: int) returns (ok: bool)
      requires Valid()
      modifies writeScreen.rows
      ensures ok <==> Moved(Current(Target(old(Value()))), columns).Some?
      ensures ok ==> Valid() && Some(Value()) == WithRow(old(Value()), Moved(Current(Target(old(Value()))), columns))
    {
      hide displayedMemory.Valid, displayedMemory.Value, Content, WithCurrent, Moved;
      ok := writeScreen.MoveCursor(columns);
    }

    method WriteBackground(styles: Styles) returns (ok: bool)
      requires Valid()
      modifies writeScreen.rows
      ensures ok <==> BackgroundSet(Current(Target(old(Value()))), styles).Some?
      ensures ok ==> Valid() && Some(Value()) == WithRow(old(Value()), BackgroundSet(Current(Target(old(Value()))), styles))
    {
      hide displayedMemory.Valid, displayedMemory.Value, Content, WithCurrent, BackgroundSet;
      ok := writeScreen.SetBackground(styles);
    }

    method WritePac(p: Pac) returns (ok: bool)
      requires Valid() && 1 <= p.row <= NR_ROWS && (p.indent.Some? ==> p.indent.value <= NR_COLS)
      modifies writeScreen, writeScreen.rows
      ensures ok <==> PacApplied(Target(old(Value())), p).Some?
      ensures ok ==> Valid() && Value() == WithTarget(old(Value()), PacApplied(Target(old(Value())), p).value)
    {
      hide displayedMemory.Valid, displayedMemory.Value, Content, PacApplied;
      ok := writeScreen.SetPac(p);
    }

    method WriteRollRows(n: nat)
      requires Valid() && n <= 4
      modifies writeScreen
      ensures Valid()
      ensures Value() == WithTarget(old(Value()), Target(old(Value())).(rollRows := n))
    {
      hide displayedMemory.Valid, displayedMemory.Value, Content;
      writeScreen.SetRollUpRows(n);
    }

    /** Roll the target up: its rows change places, and stay apart from all others. */
    method WriteRollUp()
      requires Valid()
      modifies writeScreen, writeScreen.rows
      ensures Valid()
      ensures Value() == WithTarget(old(Value()), RolledUp(Target(old(Value()))))
    {
      hide displayedMemory.Valid, displayedMemory.Value, Content, RolledUp;
      ghost var before := writeScreen.rows;
      writeScreen.RollUp();
      SameMembers(before, writeScreen.rows, displayedMemory.rows);
      SameMembers(before, writeScreen.rows, nonDisplayedMemory.rows);
      SameMembers(before, writeScreen.rows, lastOutputScreen.rows);
    }

    // ---- resetting

    method ResetDisplayed()
      requires Valid()
      modifies displayedMemory, displayedMemory.rows
      ensures Valid() && Value() == old(Value()).(displayed := Reset(old(Value()).displayed))
    {
      hide displayedMemory.Valid, displayedMemory.Value, Content, Reset;
      displayedMemory.ResetScreen();
    }

    method ResetHidden()
      requires Valid()
      modifies nonDisplayedMemory, nonDisplayedMemory.rows
      ensures Valid() && Value() == old(Value()).(hidden := Reset(old(Value()).hidden))
    {
      hide displayedMemory.Valid, displayedMemory.Value, Content, Reset;
      nonDisplayedMemory.ResetScreen();
    }

    method ResetShadow()
      requires Valid()
      modifies lastOutputScreen, lastOutputScreen.rows
      ensures Valid() && Value() == old(Value()).(shown := NoContent())
    {
      hide displayedMemory.Valid, displayedMemory.Value;
      lastOutputScreen.ResetScreen();
      ResetContent(old(lastOutputScreen.Value()));
    }

    method StopRolling()
      requires Valid()
      modifies displayedMemory, nonDisplayedMemory
      ensures Valid()
      ensures Value() == old(Value()).(displayed := old(Value()).displayed.(rollRows := 0), hidden := old(Value()).hidden.(rollRows := 0))
    {
      hide displayedMemory.Valid, displayedMemory.Value, Content;
      displayedMemory.SetRollUpRows(0);
      nonDisplayedMemory.SetRollUpRows(0);
    }

    // ---- commands

    method SetMode(newMode: Mode)
      requires Valid()
      modifies Repr
      ensures Valid() && Value() == InMode(old(Value()), newMode)
    {
      hide displayedMemory.Valid, displayedMemory.Value, Content, Reset;
      if newMode == mode {
        return;
      }
      Switch(newMode);
      if mode != PopOn {
        ResetDisplayed();
      }
      if mode != RollUp {
        StopRolling();
      }
    }

    method Switch(newMode: Mode)
      requires Valid()
      modifies this`mode, this`writeScreen
      ensures Valid() && mode == newMode
      ensures Value() == old(Value()).(mode := newMode, onDisplayed := newMode != PopOn)
    {
      hide displayedMemory.Valid, displayedMemory.Value, Content, Reset;
      mode := newMode;
      writeScreen := if mode == PopOn then nonDisplayedMemory else displayedMemory;
    }

    method InsertChars(codes: seq<int>, t: int)
      requires Valid()
      modifies Repr
      ensures Valid()
      ensures var c := old(Value());
              var d := WithTarget(c, WithCurrent(Target(c), AllInserted(Current(Target(c)), codes)));
              Value() == if c.mode == PaintOn || c.mode == RollUp then Output(d, t) else d
    {
      hide Output, displayedMemory.Valid, displayedMemory.Value, WithCurrent, AllInserted, Content, WithTarget, Target, Current;
      WriteChars(codes);
      if mode == PaintOn || mode == RollUp {
        OutputDataUpdate(t);
      }
    }

    method WriteChars(codes: seq<int>)
      requires Valid()
      modifies Repr
      ensures Valid() && mode == old(mode)
      ensures Value() == WithTarget(old(Value()), WithCurrent(Target(old(Value())), AllInserted(Current(Target(old(Value()))), codes)))
    {
      hide Inserted;
      ghost var c := Value();
      ghost var row := Current(Target(c));
      ghost var done := row;
      Unwritten(c);
      assert codes[0..] == codes;
      for i := 0 to |codes|
        invariant Valid() && ValidRow(done) && mode == old(mode)
        invariant Value() == WithTarget(c, WithCurrent(Target(c), done))
        invariant AllInserted(done, codes[i..]) == AllInserted(row, codes)
      {
        assert codes[i..][1..] == codes[i + 1..];
        Rewritten(c, done, Inserted(done, codes[i]));
        WriteChar(codes[i]);
        done := Inserted(done, codes[i]);
      }
    }

    method EndCaption()
      requires Valid() && mode == PopOn
      modifies this`displayedMemory, this`nonDisplayedMemory, this`writeScreen
      ensures Valid()
      ensures Value() == old(Value()).(displayed := old(Value()).hidden, hidden := old(Value()).displayed, onDisplayed := false)
    {
      hide displayedMemory.Valid, displayedMemory.Value, Content;
      var tmp := displayedMemory;
      displayedMemory := nonDisplayedMemory;
      nonDisplayedMemory := tmp;
      writeScreen := nonDisplayedMemory;
    }

    method StartRollUp(n: nat)
      requires Valid() && n <= 4
      modifies Repr
      ensures Valid()
      ensures var d := InMode(old(Value()).(onDisplayed := true), RollUp);
              Value() == WithTarget(d, Target(d).(rollRows := n))
    {
      hide displayedMemory.Valid, displayedMemory.Value, Content, InMode;
      writeScreen := displayedMemory;
      SetMode(RollUp);
      WriteRollRows(n);
    }

    method DoBackSpace(t: int)
      requires Valid()
      modifies Repr
      ensures Valid() && Some(Value()) == Apply(old(Value()), BackSpace, t)
    {
      hide displayedMemory.Valid, displayedMemory.Value, Content, Output, WithCurrent, BackSpaced, Current;
      if mode == TextMode {
        return;
      }
      var shown := writeScreen == displayedMemory;
      WriteBackSpace();
      if shown {
        OutputDataUpdate(t);
      }
    }

    method DoDelete(t: int)
      requires Valid()
      modifies Repr
      ensures Valid() && Some(Value()) == Apply(old(Value()), DeleteToEnd, t)
    {
      hide displayedMemory.Valid, displayedMemory.Value, Content, Output, WithCurrent, ClearedFrom, Current;
      WriteClearToEnd();
      OutputDataUpdate(t);
    }

    method DoErase(t: int)
      requires Valid()
      modifies Repr
      ensures Valid() && Value() == Output(old(Value()).(displayed := Reset(old(Value()).displayed)), t)
    {
      hide displayedMemory.Valid, displayedMemory.Value, Content, Output, Reset;
      ResetDisplayed();
      OutputDataUpdate(t);
    }

    method DoReturn(t: int)
      requires Valid()
      modifies Repr
      ensures Valid() && Value() == Output(WithTarget(old(Value()), RolledUp(Target(old(Value())))), t)
    {
      hide displayedMemory.Valid, displayedMemory.Value, Content, Output, RolledUp;
      WriteRollUp();
      OutputDataUpdate(t);
    }

    method Flip()
      requires Valid()
      modifies this`displayedMemory, this`nonDisplayedMemory, this`writeScreen
      ensures Valid()
      ensures var c := old(Value());
              Value() == if c.mode == PopOn then c.(displayed := c.hidden, hidden := c.displayed, onDisplayed := false) else c
    {
      hide displayedMemory.Valid, displayedMemory.Value, Content;
      if mode == PopOn {
        EndCaption();
      }
    }

    method DoEnd(t: int)
      requires Valid()
      modifies Repr
      ensures Valid()
      ensures var c := old(Value());
              Value() == Output(if c.mode == PopOn then c.(displayed := c.hidden, hidden := c.displayed, onDisplayed := false) else c, t)
    {
      hide displayedMemory.Valid, displayedMemory.Value, Content, Output;
      Flip();
      OutputDataUpdate(t);
    }

    /** Commands that style, move, or place. */
    method Write(m: Command) returns (ok: bool)
      requires Valid() && ValidCommand(m)
      requires m.SetStyle? || m.TabOffset? || m.Preamble? || m.SetBackground?
      modifies Repr
      ensures ok <==> Apply(old(Value()), m, 0).Some?
      ensures ok ==> Valid() && Value() == Apply(old(Value()), m, 0).value
    {
      hide displayedMemory.Valid, displayedMemory.Value, Content, WithCurrent, PacApplied, PenSet, Moved, BackgroundSet, Current;
      match m
      case SetStyle(styles) => ok := WritePen(styles);
      case TabOffset(n) => ok := WriteMove(n);
      case Preamble(p) => ok := WritePac(p);
      case SetBackground(styles) => ok := WriteBackground(styles);
    }

    /** Carry out a command; false when the source fails. */
    method Execute(m: Command, t: int) returns (ok: bool)
      requires Valid() && ValidCommand(m)
      modifies Repr
      ensures ok <==> Apply(old(Value()), m, t).Some?
      ensures ok ==> Valid() && Value() == Apply(old(Value()), m, t).value
    {
      hide Valid, Value, Content, Output, InMode, WithCurrent, AllInserted, Reset, RolledUp, PacApplied, PenSet, Moved, BackgroundSet,
        BackSpaced, ClearedFrom, Current, Target, WithTarget;
      ok := true;
      match m
      case ResumeLoading => SetMode(PopOn);
      case BackSpace => DoBackSpace(t);
      case DeleteToEnd => DoDelete(t);
      case RollUpRows(n) => StartRollUp(n);
      case SetStyle(_) => ok := Write(m);
      case ResumeDirect => SetMode(PaintOn);
      case ResumeText => SetMode(TextMode);
      case EraseDisplayed => DoErase(t);
      case CarriageReturn => DoReturn(t);
      case EraseHidden => DoEraseHidden();
      case EndOfCaption => DoEnd(t);
      case TabOffset(_) => ok := Write(m);
      case Preamble(_) => ok := Write(m);
      case SetBackground(_) => ok := Write(m);
      case Characters(codes) => InsertChars(codes, t);
      case Nothing =>
      case ResetChannel => ResetAll();
    }

    method DoEraseHidden()
      requires Valid()
      modifies Repr
      ensures Valid() && Value() == old(Value()).(hidden := Reset(old(Value()).hidden))
    {
      ResetHidden();
    }

    method ResetAll()
      requires Valid()
      modifies Repr
      ensures Valid()
      ensures Value() == old(Value()).(displayed := Reset(old(Value()).displayed), hidden := Reset(old(Value()).hidden),
                                       onDisplayed := true, mode := NoMode, shown := NoContent(), cueStart := None)
    {
      hide displayedMemory.Valid, displayedMemory.Value, Content, Reset, NoContent;
      ResetMemories();
      ResetShadow();
      Restart();
    }

    method ResetMemories()
      requires Valid()
      modifies displayedMemory, displayedMemory.rows, nonDisplayedMemory, nonDisplayedMemory.rows
      ensures Valid()
      ensures Value() == old(Value()).(displayed := Reset(old(Value()).displayed), hidden := Reset(old(Value()).hidden))
    {
      hide displayedMemory.Valid, displayedMemory.Value, Content, Reset, NoContent;
      ResetDisplayed();
      ResetHidden();
    }

    method Restart()
      requires Valid()
      modifies this`mode, this`writeScreen, this`cueStartTime
      ensures Valid()
      ensures Value() == old(Value()).(onDisplayed := true, mode := NoMode, cueStart := None)
    {
      hide displayedMemory.Valid, displayedMemory.Value, Content, Reset, NoContent;
      mode, writeScreen, cueStartTime := NoMode, displayedMemory, None;
    }
  }

  /** Writing what is there already changes nothing. */
  lemma Unwritten(c: ChannelValue)
    requires ValidChannel(c)
    ensures WithTarget(c, WithCurrent(Target(c), Current(Target(c)))) == c
  {
    assert Target(c).rows[Target(c).currRow := Current(Target(c))] == Target(c).rows;
  }

  /** The last of two writes to the current row is the one that counts. */
  lemma Rewritten(c: ChannelValue, a: RowValue, b: RowValue)
    requires ValidChannel(c) && ValidRow(a) && ValidRow(b)
    ensures var d := WithTarget(c, WithCurrent(Target(c), a));
            && ValidChannel(d) && Current(Target(d)) == a
            && WithTarget(d, WithCurrent(Target(d), b)) == WithTarget(c, WithCurrent(Target(c), b))
  {
    var s := Target(c);
    assert s.rows[s.currRow := a][s.currRow := b] == s.rows[s.currRow := b];
  }

  lemma SameMembers(a: seq<Row>, b: seq<Row>, c: seq<Row>)
    requires forall r :: r in b <==> r in a
    ensures Apart(a, c) ==> Apart(b, c)
    ensures Apart(c, a) ==> Apart(c, b)
  {
    assert forall i :: 0 <= i < |b| ==> b[i] in b;
  }

  lemma ResetContent(s: ScreenValue)
    ensures Content(Reset(s)) == NoContent()
  {
  }
}
