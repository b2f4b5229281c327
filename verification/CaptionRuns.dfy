/** A pop-on caption, from the commands that load it to its cue. */
module CaptionRuns {
  import opened Basics
  import opened CaptionScreen
  import opened CaptionChannel
  import opened CaptionCues
  import opened CaptionPictures

  /** In pop-on mode, and only then, writing goes to the hidden memory, and no rows roll there. */
  ghost predicate Modal(c: ChannelValue) {
    && (c.onDisplayed <==> c.mode != PopOn)
    && (c.mode == PopOn ==> c.displayed.rollRows == 0 && c.hidden.rollRows == 0)
  }

  lemma NewModal()
    ensures Modal(NewChannel())
  {
  }

  /** Every command keeps that. */
  lemma ApplyModal(c: ChannelValue, m: Command, t: int)
    requires ValidChannel(c) && ValidCommand(m) && Modal(c) && Apply(c, m, t).Some?
    ensures Modal(Apply(c, m, t).value)
  {
    hide Content, NoContent, AllInserted, BackSpaced, ClearedFrom, ValidScreen, Reset, PenSet, Moved, BackgroundSet;
    ResetRows(c.displayed);
    ResetRows(c.hidden);
  }

  lemma ResetRows(s: ScreenValue)
    ensures Reset(s).rollRows == s.rollRows
  {
  }

  // ---- what is drawn

  /** Characters in one row from a column on, in one pen, and nothing else. */
  function Drawn(row: int, column: int, codes: seq<int>, pen: Pen): (p: Picture)
    ensures |p| == NR_ROWS
  {
    seq(NR_ROWS, r => seq(NR_COLS, k =>
      if r == row && column <= k < column + |codes| then Char(CodeOf(codes[k - column]), pen) else BLANK))
  }

  /** The pen of a preamble on a blank row. */
  function PenOf(p: Pac): Pen {
    Pen(if p.indent.Some? then White else p.color, p.underline, p.italics, Opaque(Black), false)
  }

  function ColumnOf(p: Pac): nat {
    if p.indent.Some? then p.indent.value else 0
  }

  // ---- loading

  /** The hidden memory is blank, with its cursors at the left and plain pens. */
  ghost predicate Cleared(c: ChannelValue) {
    c.mode == PopOn && !c.onDisplayed && c.hidden == ScreenValue(BlankRows(), NR_ROWS - 1, 0)
  }

  /** Nothing changes on display, and nothing is given out. */
  ghost predicate Unseen(c: ChannelValue, d: ChannelValue) {
    On(d) == On(c) && d.shown == c.shown && d.cueStart == c.cueStart && Silent(c, d)
  }

  lemma Loading(c: ChannelValue, t: int)
    requires ValidChannel(c) && Modal(c)
    ensures var d := Apply(c, ResumeLoading, t).value;
            ValidChannel(d) && Modal(d) && d.mode == PopOn && Unseen(c, d)
  {
    ApplyModal(c, ResumeLoading, t);
    ContentOnly(c.displayed);
    hide Content;
  }

  lemma Clearing(c: ChannelValue, t: int)
    requires ValidChannel(c) && Modal(c) && c.mode == PopOn
    ensures var d := Apply(c, EraseHidden, t).value; ValidChannel(d) && Cleared(d) && Unseen(c, d)
  {
    hide Content;
  }

  /** The hidden picture, once the preamble has placed the cursor on a cleared memory: blank but for the pen of one cell. */
  ghost predicate Ready(c: ChannelValue, p: Pac)
    requires ValidChannel(c)
  {
    && c.mode == PopOn && !c.onDisplayed && CursorRow(c) == p.row - 1 && CursorColumn(c) == ColumnOf(p) && CursorPen(c) == PenOf(p)
    && IsPicture(Off(c)) && ColumnOf(p) < NR_COLS
    && forall r, k :: 0 <= r < NR_ROWS && 0 <= k < NR_COLS && !(r == p.row - 1 && k == ColumnOf(p)) ==> Off(c)[r][k] == BLANK
  }

  lemma Placing(c: ChannelValue, p: Pac, t: int)
    requires ValidChannel(c) && Cleared(c) && 1 <= p.row <= NR_ROWS && (p.indent.Some? ==> p.indent.value < NR_COLS)
    ensures Apply(c, Preamble(p), t).Some?
    ensures var d := Apply(c, Preamble(p), t).value; ValidChannel(d) && Ready(d, p) && Unseen(c, d)
  {
    PreamblePlaces(c, p, t);
    BlankOff(c);
    hide Content;
    assert forall r, k :: 0 <= r < NR_ROWS && 0 <= k < NR_COLS ==> c.hidden.rows[r].chars[k] == BLANK;
  }

  lemma BlankOff(c: ChannelValue)
    requires Cleared(c)
    ensures Blank(Off(c))
  {
  }

  /** So far these characters have been written. */
  ghost predicate WrittenSo(c: ChannelValue, p: Pac, codes: seq<int>)
    requires ValidChannel(c)
  {
    && c.mode == PopOn && !c.onDisplayed && CursorRow(c) == p.row - 1 && CursorColumn(c) == ColumnOf(p) + |codes| <= NR_COLS
    && CursorPen(c) == PenOf(p) && codes != [] && Off(c) == Drawn(p.row - 1, ColumnOf(p), codes, PenOf(p))
  }

  lemma FirstWritten(c: ChannelValue, p: Pac, codes: seq<int>, t: int)
    requires ValidChannel(c) && Ready(c, p) && 1 <= p.row <= NR_ROWS && codes != [] && ColumnOf(p) + |codes| <= NR_COLS
    requires forall i :: 0 <= i < |codes| ==> Plain(codes[i])
    ensures var d := Apply(c, Characters(codes), t).value; ValidChannel(d) && WrittenSo(d, p, codes) && Unseen(c, d)
  {
    CharactersWrite(c, codes, t);
    hide Content, CodeOf, AllInserted;
    var d := Apply(c, Characters(codes), t).value;
    SamePicture(Off(d), p, codes);
  }

  lemma SamePicture(q: Picture, p: Pac, codes: seq<int>)
    requires IsPicture(q) && 1 <= p.row <= NR_ROWS
    requires forall r, k :: 0 <= r < NR_ROWS && 0 <= k < NR_COLS ==>
               q[r][k] == if r == p.row - 1 && ColumnOf(p) <= k < ColumnOf(p) + |codes| then Char(CodeOf(codes[k - ColumnOf(p)]), PenOf(p)) else BLANK
    ensures q == Drawn(p.row - 1, ColumnOf(p), codes, PenOf(p))
  {
    hide CodeOf;
    var d := Drawn(p.row - 1, ColumnOf(p), codes, PenOf(p));
    forall r | 0 <= r < NR_ROWS ensures q[r] == d[r] {
      assert forall k :: 0 <= k < NR_COLS ==> q[r][k] == d[r][k];
    }
  }

  lemma MoreWritten(c: ChannelValue, p: Pac, before: seq<int>, codes: seq<int>, t: int)
    requires ValidChannel(c) && WrittenSo(c, p, before) && 1 <= p.row <= NR_ROWS && ColumnOf(p) + |before + codes| <= NR_COLS
    requires forall i :: 0 <= i < |codes| ==> Plain(codes[i])
    ensures var d := Apply(c, Characters(codes), t).value; ValidChannel(d) && WrittenSo(d, p, before + codes) && Unseen(c, d)
  {
    CharactersWrite(c, codes, t);
    PictureOf(c.hidden);
    hide Content, CodeOf, AllInserted;
    var d := Apply(c, Characters(codes), t).value;
    var q, all := Off(d), before + codes;
    forall r, k | 0 <= r < NR_ROWS && 0 <= k < NR_COLS
      ensures q[r][k] == if r == p.row - 1 && ColumnOf(p) <= k < ColumnOf(p) + |all| then Char(CodeOf(all[k - ColumnOf(p)]), PenOf(p)) else BLANK
    {
      assert q[r][k] == if r == p.row - 1 && ColumnOf(p) + |before| <= k < ColumnOf(p) + |all|
                        then Char(CodeOf(codes[k - ColumnOf(p) - |before|]), PenOf(p)) else Off(c)[r][k];
    }
    SamePicture(q, p, all);
  }

  // ---- showing

  /** The cue that ends when a picture is taken off the display again: it started when the picture came up, unless the same
      one was on display before. */
  function CueOf(c: ChannelValue, picture: Picture, t: int, end: int): Cue {
    Cue(if picture == c.shown then c.cueStart else Some(t), end, picture)
  }

  lemma Showing(c: ChannelValue, picture: Picture, t: int, end: int)
    requires ValidChannel(c) && c.mode == PopOn && Off(c) == picture && picture != NoContent()
    requires c.cueStart.None? <==> c.shown == NoContent()
    ensures var d := Apply(c, EndOfCaption, t).value;
            && ValidChannel(d) && On(d) == picture && d.updates == c.updates + [Update(t, picture)]
            && var e := Apply(d, EraseDisplayed, end).value;
               ValidChannel(e) && e.cues != [] && e.cues[|e.cues| - 1] == CueOf(c, picture, t, end) && c.cues <= e.cues
  {
    EndOfCaptionFlips(c, t);
    EraseDisplayedErases(Apply(c, EndOfCaption, t).value, end);
    BlankContent(Apply(c, EndOfCaption, t).value.displayed);
    hide Content, NoContent, Blank;
  }

  /** Loading a caption into a cleared memory: a preamble, and its characters in one or more parts. */
  function Load(p: Pac, parts: seq<seq<int>>, t: int): seq<Timed> {
    [Timed(ResumeLoading, t), Timed(EraseHidden, t), Timed(Preamble(p), t)] + Parts(parts, t)
  }

  function Parts(parts: seq<seq<int>>, t: int): (r: seq<Timed>)
    ensures |r| == |parts|
  {
    seq(|parts|, i requires 0 <= i < |parts| => Timed(Characters(parts[i]), t))
  }

  function All(parts: seq<seq<int>>): seq<int> {
    if parts == [] then [] else parts[0] + All(parts[1..])
  }

  lemma {:induction false} RunAppend(c: ChannelValue, a: seq<Timed>, b: seq<Timed>)
    requires ValidChannel(c)
    ensures Run(c, a).Some? ==> ValidChannel(Run(c, a).value)
    ensures Run(c, a + b) == if Run(c, a).None? then None else Run(Run(c, a).value, b)
    decreases |a|
  {
    hide Apply, ValidChannel, ValidCommand;
    if a == [] {
      assert a + b == b;
    } else {
      assert (a + b)[0] == a[0] && (a + b)[1..] == a[1..] + b;
      if ValidCommand(a[0].command) && Apply(c, a[0].command, a[0].time).Some? {
        ApplyValid(c, a[0].command, a[0].time);
        RunAppend(Apply(c, a[0].command, a[0].time).value, a[1..], b);
      }
    }
  }

  lemma {:induction false} RunOne(c: ChannelValue, m: Command, t: int)
    requires ValidChannel(c) && ValidCommand(m) && Apply(c, m, t).Some?
    ensures ValidChannel(Apply(c, m, t).value) && Run(c, [Timed(m, t)]) == Apply(c, m, t)
  {
    hide Apply, ValidChannel, ValidCommand;
    ApplyValid(c, m, t);
    var one := [Timed(m, t)];
    assert one[1..] == [];
  }

  lemma {:induction false} RunFirst(c: ChannelValue, run: seq<Timed>)
    requires ValidChannel(c) && run != [] && ValidCommand(run[0].command) && Apply(c, run[0].command, run[0].time).Some?
    ensures ValidChannel(Apply(c, run[0].command, run[0].time).value)
    ensures Run(c, run) == Run(Apply(c, run[0].command, run[0].time).value, run[1..])
  {
    hide Apply, ValidChannel, ValidCommand;
    ApplyValid(c, run[0].command, run[0].time);
  }

  ghost predicate PlainParts(parts: seq<seq<int>>) {
    forall i :: 0 <= i < |parts| ==> forall j :: 0 <= j < |parts[i]| ==> Plain(parts[i][j])
  }

  lemma {:induction false} PartsWritten(c: ChannelValue, p: Pac, before: seq<int>, parts: seq<seq<int>>, t: int)
    requires ValidChannel(c) && WrittenSo(c, p, before) && 1 <= p.row <= NR_ROWS && ColumnOf(p) + |before + All(parts)| <= NR_COLS
    requires PlainParts(parts)
    ensures var r := Run(c, Parts(parts, t));
            r.Some? && ValidChannel(r.value) && WrittenSo(r.value, p, before + All(parts)) && Unseen(c, r.value)
    decreases |parts|
  {
    hide Apply, ValidChannel, WrittenSo, Unseen;
    if parts == [] {
      assert before + All(parts) == before;
      UnseenSelf(c);
    } else {
      var run := Parts(parts, t);
      assert run[1..] == Parts(parts[1..], t);
      assert before + All(parts) == before + parts[0] + All(parts[1..]);
      MoreWritten(c, p, before, parts[0], t);
      CharactersApply(c, parts[0], t);
      RunFirst(c, run);
      var d := Apply(c, Characters(parts[0]), t).value;
      assert PlainParts(parts[1..]);
      PartsWritten(d, p, before + parts[0], parts[1..], t);
      UnseenAgain(c, d, Run(d, Parts(parts[1..], t)).value);
    }
  }

  lemma CharactersApply(c: ChannelValue, codes: seq<int>, t: int)
    requires ValidChannel(c)
    ensures ValidCommand(Characters(codes)) && Apply(c, Characters(codes), t).Some?
  {
  }

  lemma UnseenSelf(c: ChannelValue)
    ensures Unseen(c, c)
  {
  }

  lemma UnseenAgain(c: ChannelValue, d: ChannelValue, e: ChannelValue)
    requires Unseen(c, d) && Unseen(d, e)
    ensures Unseen(c, e)
  {
  }

  /** What is loaded: on display nothing changes, and the hidden picture is the caption. */
  lemma {:induction false} Loads(c: ChannelValue, p: Pac, parts: seq<seq<int>>, t: int)
    requires ValidChannel(c) && Modal(c) && 1 <= p.row <= NR_ROWS && (p.indent.Some? ==> p.indent.value < NR_COLS)
    requires parts != [] && parts[0] != [] && PlainParts(parts) && ColumnOf(p) + |All(parts)| <= NR_COLS
    ensures var r := Run(c, Load(p, parts, t));
            && r.Some? && ValidChannel(r.value) && Unseen(c, r.value) && r.value.mode == PopOn
            && Off(r.value) == Drawn(p.row - 1, ColumnOf(p), All(parts), PenOf(p))
  {
    var run := Load(p, parts, t);
    Loading(c, t);
    var c1 := Apply(c, ResumeLoading, t).value;
    Clearing(c1, t);
    var c2 := Apply(c1, EraseHidden, t).value;
    Placing(c2, p, t);
    var c3 := Apply(c2, Preamble(p), t).value;
    FirstWritten(c3, p, parts[0], t);
    CharactersApply(c3, parts[0], t);
    var c4 := Apply(c3, Characters(parts[0]), t).value;
    assert ValidCommand(Preamble(p)) && ValidCommand(ResumeLoading) && ValidCommand(EraseHidden) && PlainParts(parts[1..]);
    AlwaysApply(c, c1, t);
    hide *;
    FirstOfParts(parts);
    PartsWritten(c4, p, parts[0], parts[1..], t);
    RunSteps(c, run, c1, c2, c3, c4, p, parts, t);
    UnseenAgain(c, c1, c2);
    UnseenAgain(c, c2, c3);
    UnseenAgain(c, c3, c4);
    UnseenAgain(c, c4, Run(c4, Parts(parts[1..], t)).value);
    IsWritten(Run(c4, Parts(parts[1..], t)).value, p, All(parts));
  }

  lemma AlwaysApply(c: ChannelValue, d: ChannelValue, t: int)
    requires ValidChannel(c) && ValidChannel(d)
    ensures Apply(c, ResumeLoading, t).Some? && Apply(d, EraseHidden, t).Some?
  {
  }

  lemma {:induction false} FirstOfParts(parts: seq<seq<int>>)
    requires parts != []
    ensures parts[0] + All(parts[1..]) == All(parts)
  {
  }

  lemma IsWritten(c: ChannelValue, p: Pac, codes: seq<int>)
    requires ValidChannel(c) && WrittenSo(c, p, codes)
    ensures c.mode == PopOn && Off(c) == Drawn(p.row - 1, ColumnOf(p), codes, PenOf(p))
  {
  }

  lemma {:induction false} RunSteps(c: ChannelValue, run: seq<Timed>, c1: ChannelValue, c2: ChannelValue, c3: ChannelValue, c4: ChannelValue, p: Pac, parts: seq<seq<int>>, t: int)
    requires ValidChannel(c) && ValidChannel(c1) && ValidChannel(c2) && ValidChannel(c3) && ValidChannel(c4) && parts != []
    requires run == Load(p, parts, t) && ValidCommand(Preamble(p))
    requires Apply(c, ResumeLoading, t) == Some(c1) && Apply(c1, EraseHidden, t) == Some(c2) && Apply(c2, Preamble(p), t) == Some(c3)
    requires Apply(c3, Characters(parts[0]), t) == Some(c4)
    ensures Run(c, run) == Run(c4, Parts(parts[1..], t))
  {
    hide Apply, ValidChannel;
    RunFirst(c, run);
    RunFirst(c1, run[1..]);
    RunFirst(c2, run[2..]);
    RunFirst(c3, run[3..]);
    assert run[1..][1..] == run[2..] && run[2..][1..] == run[3..] && run[3..][1..] == Parts(parts[1..], t);
  }

  /** A pop-on caption is loaded, shown at a time and erased at another: in between just its characters are on display, at
      their row from their indent on, and its cue is given out, from the one time to the other. */
  lemma {:induction false} PopOnCue(c: ChannelValue, p: Pac, parts: seq<seq<int>>, loaded: int, t: int, end: int)
    requires ValidChannel(c) && Modal(c) && (c.cueStart.None? <==> c.shown == NoContent())
    requires 1 <= p.row <= NR_ROWS && (p.indent.Some? ==> p.indent.value < NR_COLS)
    requires parts != [] && parts[0] != [] && PlainParts(parts) && ColumnOf(p) + |All(parts)| <= NR_COLS
    requires Drawn(p.row - 1, ColumnOf(p), All(parts), PenOf(p)) != NoContent()
    ensures var picture := Drawn(p.row - 1, ColumnOf(p), All(parts), PenOf(p));
            var shown := Run(c, Load(p, parts, loaded) + [Timed(EndOfCaption, t)]);
            var erased := Run(c, Load(p, parts, loaded) + [Timed(EndOfCaption, t)] + [Timed(EraseDisplayed, end)]);
            && shown.Some? && On(shown.value) == picture && shown.value.updates == c.updates + [Update(t, picture)]
            && erased.Some? && erased.value.cues != [] && erased.value.cues[|erased.value.cues| - 1] == CueOf(c, picture, t, end)
  {
    var load := Load(p, parts, loaded);
    Loads(c, p, parts, loaded);
    var d := Run(c, load).value;
    var picture := Drawn(p.row - 1, ColumnOf(p), All(parts), PenOf(p));
    Showing(d, picture, t, end);
    EndsApply(d, t);
    var e := Apply(d, EndOfCaption, t).value;
    EndsApply(e, end);
    UnseenCue(c, d, picture, t, end);
    hide *;
    RunAppend(c, load, [Timed(EndOfCaption, t)]);
    RunOne(d, EndOfCaption, t);
    RunAppend(c, load + [Timed(EndOfCaption, t)], [Timed(EraseDisplayed, end)]);
    RunOne(e, EraseDisplayed, end);
  }

  lemma EndsApply(c: ChannelValue, t: int)
    requires ValidChannel(c)
    ensures ValidCommand(EndOfCaption) && ValidCommand(EraseDisplayed)
    ensures Apply(c, EndOfCaption, t).Some? && Apply(c, EraseDisplayed, t).Some?
  {
  }

  lemma UnseenCue(c: ChannelValue, d: ChannelValue, picture: Picture, t: int, end: int)
    requires Unseen(c, d)
    ensures CueOf(c, picture, t, end) == CueOf(d, picture, t, end) && d.updates == c.updates
  {
  }
}
