/** What each command does to the two pictures of a channel, cell by cell. */
module CaptionPictures {
  import opened Basics
  import opened CaptionScreen
  import opened CaptionChannel

  // ---- pictures

  /** The picture on display, and the one in the other memory. */
  function On(c: ChannelValue): Picture {
    Content(c.displayed)
  }

  function Off(c: ChannelValue): Picture {
    Content(c.hidden)
  }

  /** The picture that commands write to, and the other one. */
  function Written(c: ChannelValue): Picture {
    if c.onDisplayed then On(c) else Off(c)
  }

  function Unwritten(c: ChannelValue): Picture {
    if c.onDisplayed then Off(c) else On(c)
  }

  /** Where the next character goes, and how it will look. */
  function CursorRow(c: ChannelValue): int {
    Target(c).currRow
  }

  function CursorColumn(c: ChannelValue): int
    requires ValidChannel(c)
  {
    Target(c).rows[CursorRow(c)].pos
  }

  function CursorPen(c: ChannelValue): Pen
    requires ValidChannel(c)
  {
    Target(c).rows[CursorRow(c)].pen
  }

  ghost predicate IsPicture(p: Picture) {
    |p| == NR_ROWS && forall r :: 0 <= r < NR_ROWS ==> |p[r]| == NR_COLS
  }

  ghost predicate Blank(p: Picture) {
    IsPicture(p) && forall r, k :: 0 <= r < NR_ROWS && 0 <= k < NR_COLS ==> p[r][k] == BLANK
  }

  /** All rows but one are as they were. */
  ghost predicate OtherRows(p: Picture, q: Picture, row: int) {
    IsPicture(p) && IsPicture(q) && forall r :: 0 <= r < NR_ROWS && r != row ==> q[r] == p[r]
  }

  /** All cells but one are as they were, and that one holds a character. */
  ghost predicate OneCell(p: Picture, q: Picture, row: int, column: int, x: Char) {
    && OtherRows(p, q, row) && 0 <= row < NR_ROWS && 0 <= column < NR_COLS && q[row][column] == x
    && forall k :: 0 <= k < NR_COLS && k != column ==> q[row][k] == p[row][k]
  }

  /** The picture on display is given out. */
  ghost predicate Reports(c: ChannelValue, d: ChannelValue, t: int) {
    d.updates == c.updates + [Update(t, On(d))]
  }

  ghost predicate Silent(c: ChannelValue, d: ChannelValue) {
    d.updates == c.updates && d.cues == c.cues
  }

  lemma PictureOf(s: ScreenValue)
    requires ValidScreen(s)
    ensures IsPicture(Content(s))
  {
  }

  lemma BlankContent(s: ScreenValue)
    ensures Blank(Content(Reset(s))) && Content(Reset(s)) == NoContent()
  {
  }

  // ---- laws

  /** End of caption: in pop-on mode the two pictures are exchanged, what was hidden is given out, and writing goes on in
      what was shown. */
  ghost predicate Flips(c: ChannelValue, d: ChannelValue, t: int) {
    && (if c.mode == PopOn then On(d) == Off(c) && Off(d) == On(c) && !d.onDisplayed else On(d) == On(c) && Off(d) == Off(c))
    && d.updates == c.updates + [Update(t, if c.mode == PopOn then Off(c) else On(c))] && d.mode == c.mode
  }

  lemma EndOfCaptionFlips(c: ChannelValue, t: int)
    requires ValidChannel(c)
    ensures Flips(c, Apply(c, EndOfCaption, t).value, t)
  {
    hide Content, NoContent;
  }

  /** Erase displayed memory: the display is blank, and that is given out. */
  ghost predicate ErasesDisplay(c: ChannelValue, d: ChannelValue, t: int) {
    Blank(On(d)) && Off(d) == Off(c) && Reports(c, d, t) && d.mode == c.mode && d.onDisplayed == c.onDisplayed
  }

  lemma EraseDisplayedErases(c: ChannelValue, t: int)
    requires ValidChannel(c)
    ensures ErasesDisplay(c, Apply(c, EraseDisplayed, t).value, t)
  {
    hide Content, NoContent, Reset;
    BlankContent(c.displayed);
  }

  /** Erase non-displayed memory: that is blank, and nothing is given out. */
  ghost predicate ErasesHidden(c: ChannelValue, d: ChannelValue) {
    Blank(Off(d)) && On(d) == On(c) && Silent(c, d) && d.mode == c.mode && d.onDisplayed == c.onDisplayed
  }

  lemma EraseHiddenErases(c: ChannelValue, t: int)
    requires ValidChannel(c)
    ensures ErasesHidden(c, Apply(c, EraseHidden, t).value)
  {
    hide Content, Reset;
    BlankContent(c.hidden);
  }

  lemma RowWritten(s: ScreenValue, r: RowValue)
    requires ValidScreen(s) && ValidRow(r)
    ensures var q := WithCurrent(s, r);
            && OtherRows(Content(s), Content(q), s.currRow) && Content(q)[s.currRow] == r.chars && Content(s)[s.currRow] == s.rows[s.currRow].chars
            && q.currRow == s.currRow && q.rows[s.currRow] == r
  {
  }

  /** A row is written in the memory that is written to. */
  ghost predicate WritesRow(c: ChannelValue, d: ChannelValue) {
    && OtherRows(Written(c), Written(d), CursorRow(c)) && Unwritten(d) == Unwritten(c)
    && d.onDisplayed == c.onDisplayed && d.mode == c.mode && CursorRow(d) == CursorRow(c)
  }

  lemma RowWrites(c: ChannelValue, r: RowValue)
    requires ValidChannel(c) && ValidRow(r)
    ensures var d := WithTarget(c, WithCurrent(Target(c), r));
            && ValidChannel(d) && WritesRow(c, d) && Silent(c, d)
            && Written(d)[CursorRow(c)] == r.chars && Written(c)[CursorRow(c)] == Current(Target(c)).chars
            && CursorColumn(d) == r.pos && CursorPen(d) == r.pen
  {
    hide Content, OtherRows;
    RowWritten(Target(c), r);
    WithSame(Target(c), r);
  }

  lemma WithSame(s: ScreenValue, r: RowValue)
    requires ValidScreen(s)
    ensures WithCurrent(s, r).currRow == s.currRow && WithCurrent(s, r).rows[s.currRow] == r && WithCurrent(s, r).rollRows == s.rollRows
  {
  }

  /** To give out what is displayed changes no picture and no cursor. */
  lemma OutputSame(c: ChannelValue, t: int)
    ensures var d := Output(c, t);
            d.displayed == c.displayed && d.hidden == c.hidden && d.onDisplayed == c.onDisplayed && d.mode == c.mode
    ensures Reports(c, Output(c, t), t)
  {
    hide Content, NoContent;
  }

  /** Back space: the cell before the cursor becomes a space in the pen of the row, and the cursor goes there. */
  ghost predicate TakesBack(c: ChannelValue, d: ChannelValue, t: int)
    requires ValidChannel(c) && ValidChannel(d)
  {
    if c.mode == TextMode then d == c
    else
      var column := if CursorColumn(c) == 0 then 0 else CursorColumn(c) - 1;
      && OneCell(Written(c), Written(d), CursorRow(c), column, Char(0x20, CursorPen(c)))
      && Unwritten(d) == Unwritten(c) && CursorRow(d) == CursorRow(c) && CursorColumn(d) == column
      && if c.onDisplayed then Reports(c, d, t) else Silent(c, d)
  }

  lemma BackSpaceTakesBack(c: ChannelValue, t: int)
    requires ValidChannel(c)
    ensures ValidChannel(Apply(c, BackSpace, t).value) && TakesBack(c, Apply(c, BackSpace, t).value, t)
  {
    if c.mode != TextMode {
      hide Content, Output;
      var r := BackSpaced(Current(Target(c)));
      RowWrites(c, r);
      OutputSame(WithTarget(c, WithCurrent(Target(c), r)), t);
    }
  }

  /** Delete to end of row: the row of the cursor is blank from the cursor on, and that is given out. */
  ghost predicate DeletesRest(c: ChannelValue, d: ChannelValue, t: int)
    requires ValidChannel(c)
  {
    && WritesRow(c, d) && Reports(c, d, t)
    && forall k :: 0 <= k < NR_COLS ==>
         Written(d)[CursorRow(c)][k] == if k < CursorColumn(c) then Written(c)[CursorRow(c)][k] else BLANK
  }

  lemma DeleteToEndDeletes(c: ChannelValue, t: int)
    requires ValidChannel(c)
    ensures DeletesRest(c, Apply(c, DeleteToEnd, t).value, t)
  {
    hide Content, Output;
    var r := Current(Target(c));
    var q := ClearedFrom(r, r.pos);
    RowWrites(c, q);
    OutputSame(WithTarget(c, WithCurrent(Target(c), q)), t);
  }

  /** Carriage return, with n rows that roll up to the row of the cursor: each but the last shows what the one below did,
      and the last is blank. If there are not that many rows above, those from the cursor down to the row that is as far
      above the bottom move down instead. Rows that do not roll are as they were, and the picture on display is given
      out. */
  ghost predicate Rolls(c: ChannelValue, d: ChannelValue, t: int)
    requires ValidChannel(c)
  {
    var n, last := Target(c).rollRows, CursorRow(c);
    var p, q := Written(c), Written(d);
    && IsPicture(p) && IsPicture(q) && Unwritten(d) == Unwritten(c) && Reports(c, d, t) && CursorRow(d) == last
    && (n == 0 ==> q == p)
    && (n > 0 ==> forall k :: 0 <= k < NR_COLS ==> q[last][k] == BLANK)
    && (0 < n <= last + 1 ==>
          && (forall r :: last + 1 - n <= r < last ==> q[r] == p[r + 1])
          && (forall r :: 0 <= r < NR_ROWS && !(last + 1 - n <= r <= last) ==> q[r] == p[r]))
    && (n > last + 1 ==>
          var top := NR_ROWS + last + 1 - n;
          && (forall r :: last < r <= top ==> q[r] == p[r - 1])
          && (forall r :: 0 <= r < NR_ROWS && !(last <= r <= top) ==> q[r] == p[r]))
  }

  lemma RolledContent(s: ScreenValue)
    requires ValidScreen(s) && 0 < s.rollRows <= 4
    ensures var n, last := s.rollRows, s.currRow;
            var p, q := Content(s), Content(RolledUp(s));
            && IsPicture(p) && IsPicture(q) && q[last] == BlankChars() && RolledUp(s).currRow == last
            && (n <= last + 1 ==>
                  && (forall r :: last + 1 - n <= r < last ==> q[r] == p[r + 1])
                  && (forall r :: 0 <= r < NR_ROWS && !(last + 1 - n <= r <= last) ==> q[r] == p[r]))
            && (n > last + 1 ==>
                  var top := NR_ROWS + last + 1 - n;
                  && (forall r :: last < r <= top ==> q[r] == p[r - 1])
                  && (forall r :: 0 <= r < NR_ROWS && !(last <= r <= top) ==> q[r] == p[r]))
  {
  }

  lemma CarriageReturnRolls(c: ChannelValue, t: int)
    requires ValidChannel(c)
    ensures Rolls(c, Apply(c, CarriageReturn, t).value, t)
  {
    var s := Target(c);
    if s.rollRows > 0 {
      RolledContent(s);
    }
    PictureOf(s);
    hide Content, Output, IsPicture, RolledUp;
    RolledNone(s);
    OutputSame(WithTarget(c, RolledUp(s)), t);
  }

  lemma RolledNone(s: ScreenValue)
    requires ValidScreen(s) && s.rollRows <= 4
    ensures s.rollRows == 0 ==> RolledUp(s) == s
  {
  }

  /** A mode is taken up: if it is a new one that writes on the display, the display is blank, but that is not given out. */
  ghost predicate TakesUp(c: ChannelValue, d: ChannelValue, m: Mode) {
    && Silent(c, d) && d.mode == m && Off(d) == Off(c)
    && (if m == c.mode || m == PopOn then On(d) == On(c) else Blank(On(d)))
    && (m != c.mode ==> d.onDisplayed == (m != PopOn))
  }

  lemma ModeTaken(c: ChannelValue, m: Mode)
    requires ValidChannel(c)
    ensures TakesUp(c, InMode(c, m), m)
  {
    BlankContent(c.displayed);
    ContentOnly(c.displayed);
    ContentOnly(c.hidden);
    ContentOnly(Reset(c.displayed));
    hide Content, Reset;
  }

  lemma ContentOnly(s: ScreenValue)
    ensures forall n: nat :: Content(s.(rollRows := n)) == Content(s)
  {
  }

  lemma ResumeTakesUp(c: ChannelValue, t: int)
    requires ValidChannel(c)
    ensures TakesUp(c, Apply(c, ResumeLoading, t).value, PopOn)
    ensures TakesUp(c, Apply(c, ResumeDirect, t).value, PaintOn)
    ensures TakesUp(c, Apply(c, ResumeText, t).value, TextMode)
  {
    hide InMode, TakesUp;
    ModeTaken(c, PopOn);
    ModeTaken(c, PaintOn);
    ModeTaken(c, TextMode);
  }

  /** Roll-up captions: the mode is taken up, so many rows of the display roll, and writing goes on there. */
  lemma RollUpTakesUp(c: ChannelValue, n: nat, t: int)
    requires ValidChannel(c) && 2 <= n <= 4
    ensures var d := Apply(c, RollUpRows(n), t).value;
            TakesUp(c, d, RollUp) && d.onDisplayed && d.displayed.rollRows == n && d.displayed.currRow == (if c.mode == RollUp then c.displayed.currRow else NR_ROWS - 1)
  {
    var e := c.(onDisplayed := true);
    ModeTaken(e, RollUp);
    ContentOnly(InMode(e, RollUp).displayed);
    hide Content;
  }

  /** A character that stands for itself, or is one of the special ones; the others replace the one before them. */
  predicate Plain(code: int) {
    code < 0x90
  }

  /** Characters: they go from the cursor on in the pen of the row, as many as fit; the cursor moves behind them. */
  ghost predicate Writes(c: ChannelValue, d: ChannelValue, codes: seq<int>)
    requires ValidChannel(c) && ValidChannel(d)
  {
    var row, column := CursorRow(c), CursorColumn(c);
    && WritesRow(c, d) && CursorPen(d) == CursorPen(c)
    && CursorColumn(d) == MinInt(column + |codes|, NR_COLS)
    && forall k :: 0 <= k < NR_COLS ==>
         Written(d)[row][k] == if column <= k < column + |codes| then Char(CodeOf(codes[k - column]), CursorPen(c)) else Written(c)[row][k]
  }

  lemma {:induction false} CharsInserted(r: RowValue, codes: seq<int>)
    requires ValidRow(r) && forall i :: 0 <= i < |codes| ==> Plain(codes[i])
    ensures var q := AllInserted(r, codes);
            && ValidRow(q) && q.pen == r.pen && q.pos == MinInt(r.pos + |codes|, NR_COLS)
            && forall k :: 0 <= k < NR_COLS ==>
                 q.chars[k] == if r.pos <= k < r.pos + |codes| then Char(CodeOf(codes[k - r.pos]), r.pen) else r.chars[k]
    decreases |codes|
  {
    hide CodeOf;
    if codes != [] {
      var s := Inserted(r, codes[0]);
      CharsInserted(s, codes[1..]);
      assert forall i :: 1 <= i < |codes| ==> codes[1..][i - 1] == codes[i];
    }
  }

  lemma CharactersWrite(c: ChannelValue, codes: seq<int>, t: int)
    requires ValidChannel(c) && forall i :: 0 <= i < |codes| ==> Plain(codes[i])
    ensures var d := Apply(c, Characters(codes), t).value;
            ValidChannel(d) && Writes(c, d, codes) && if c.mode == PaintOn || c.mode == RollUp then Reports(c, d, t) else Silent(c, d)
  {
    hide Content, Output, AllInserted, OtherRows;
    var r := AllInserted(Current(Target(c)), codes);
    CharsInserted(Current(Target(c)), codes);
    RowWrites(c, r);
    OutputSame(WithTarget(c, WithCurrent(Target(c), r)), t);
  }

  /** An extended character takes the place of the one before the cursor, which stays where it is. */
  lemma ExtendedReplaces(c: ChannelValue, code: int, t: int)
    requires ValidChannel(c) && code >= 0x90 && 1 <= CursorColumn(c)
    ensures var d := Apply(c, Characters([code]), t).value;
            && ValidChannel(d) && CursorRow(d) == CursorRow(c) && CursorColumn(d) == CursorColumn(c) && Unwritten(d) == Unwritten(c)
            && OneCell(Written(c), Written(d), CursorRow(c), CursorColumn(c) - 1, Char(CodeOf(code), CursorPen(c)))
  {
    hide Content, Output, CodeOf;
    var s := Current(Target(c));
    var r := Inserted(s, code);
    assert AllInserted(s, [code]) == r by {
      assert [code][1..] == [];
    }
    RowWrites(c, r);
    OutputSame(WithTarget(c, WithCurrent(Target(c), r)), t);
  }

  /** A tab moves the cursor, and gives the pen to the cells it passes if it is longer than one; it fails if such a cell is
      behind the last column. */
  lemma TabMoves(c: ChannelValue, n: nat, t: int)
    requires ValidChannel(c) && 1 <= n <= 3
    ensures var e := Apply(c, TabOffset(n), t);
            var row, column := CursorRow(c), CursorColumn(c);
            && (e.None? <==> n > 1 && column + n >= NR_COLS)
            && (e.Some? ==>
                  var d := e.value;
                  && ValidChannel(d) && WritesRow(c, d) && Silent(c, d) && CursorColumn(d) == MinInt(column + n, NR_COLS)
                  && forall k :: 0 <= k < NR_COLS ==>
                       Written(d)[row][k] == if n > 1 && column < k <= column + n then Written(c)[row][k].(pen := CursorPen(c)) else Written(c)[row][k])
  {
    hide Content, OtherRows;
    var r := Moved(Current(Target(c)), n);
    if r.Some? {
      RowWrites(c, r.value);
    }
  }

  /** A style goes to the pen and to the cell at the cursor, which keeps its character; it fails behind the last column. */
  lemma StyleSets(c: ChannelValue, styles: Styles, t: int)
    requires ValidChannel(c)
    ensures var e := Apply(c, SetStyle(styles), t);
            var row, column, pen := CursorRow(c), CursorColumn(c), Styled(CursorPen(c), styles);
            && (e.None? <==> column == NR_COLS)
            && (e.Some? ==>
                  var d := e.value;
                  && ValidChannel(d) && Silent(c, d) && CursorPen(d) == pen && CursorRow(d) == row && CursorColumn(d) == column
                  && IsPicture(Written(c)) && OneCell(Written(c), Written(d), row, column, Written(c)[row][column].(pen := pen))
                  && Unwritten(d) == Unwritten(c))
  {
    PictureOf(Target(c));
    hide Content, Styled, IsPicture;
    var r := PenSet(Current(Target(c)), styles);
    if r.Some? {
      RowWrites(c, r.value);
      hide OtherRows;
    }
  }

  /** A background attribute puts a space before the cursor, in the pen with that attribute, and the cursor behind it. */
  lemma BackgroundSets(c: ChannelValue, styles: Styles, t: int)
    requires ValidChannel(c)
    ensures var e := Apply(c, SetBackground(styles), t);
            var row, pen := CursorRow(c), Styled(CursorPen(c), styles);
            var column := if CursorColumn(c) == 0 then 0 else CursorColumn(c) - 1;
            && e.Some?
            && var d := e.value;
               && ValidChannel(d) && Silent(c, d) && CursorPen(d) == pen && CursorRow(d) == row && CursorColumn(d) == column + 1
               && OneCell(Written(c), Written(d), row, column, Char(0x20, pen)) && Unwritten(d) == Unwritten(c)
  {
    hide Content, Styled;
    var r := BackgroundSet(Current(Target(c)), styles);
    RowWrites(c, r.value);
  }

  /** A preamble, when no rows roll: the cursor goes to its row, and to its indent if it has one; the pen is its color, or
      that of the cell before the indent, with its underline and italics. No character changes, and only the cell at the
      cursor looks different. */
  lemma PreamblePlaces(c: ChannelValue, p: Pac, t: int)
    requires ValidChannel(c) && 1 <= p.row <= NR_ROWS && (p.indent.Some? ==> p.indent.value <= NR_COLS) && Target(c).rollRows == 0
    ensures var e := Apply(c, Preamble(p), t);
            var row := p.row - 1;
            var column := if p.indent.Some? then p.indent.value else Target(c).rows[row].pos;
            var before := if p.indent.Some? && p.indent.value > 0 then p.indent.value - 1 else 0;
            var pen := Pen(if p.indent.Some? then Target(c).rows[row].chars[before].pen.foreground else p.color, p.underline, p.italics, Opaque(Black), false);
            && (e.None? <==> column == NR_COLS)
            && (e.Some? ==>
                  var d := e.value;
                  && ValidChannel(d) && Silent(c, d) && CursorRow(d) == row && CursorColumn(d) == column && CursorPen(d) == pen
                  && IsPicture(Written(c)) && OneCell(Written(c), Written(d), row, column, Written(c)[row][column].(pen := pen))
                  && Unwritten(d) == Unwritten(c) && d.onDisplayed == c.onDisplayed && d.mode == c.mode)
  {
    var s := Target(c);
    PictureOf(s);
    var q := PacApplied(s, p);
    if q.Some? {
      PictureOf(q.value);
      PlacedContent(s, p);
    }
    hide Content, IsPicture;
  }

  lemma PlacedContent(s: ScreenValue, p: Pac)
    requires ValidScreen(s) && s.rollRows == 0 && 1 <= p.row <= NR_ROWS && (p.indent.Some? ==> p.indent.value <= NR_COLS)
    requires PacApplied(s, p).Some?
    ensures var q, row := PacApplied(s, p).value, p.row - 1;
            && q.currRow == row && q.rollRows == 0
            && OneCell(Content(s), Content(q), row, q.rows[row].pos, Content(s)[row][q.rows[row].pos].(pen := q.rows[row].pen))
  {
  }

  /** A preamble, when n rows roll: the last of them cannot be above row n. If it becomes another row, everything is blank
      first. */
  lemma RollUpPreamble(c: ChannelValue, p: Pac, t: int)
    requires ValidChannel(c) && 1 <= p.row <= NR_ROWS && (p.indent.Some? ==> p.indent.value < NR_COLS)
    requires Target(c).rollRows > 0 && Apply(c, Preamble(p), t).Some?
    ensures var d := Apply(c, Preamble(p), t).value;
            var row := if p.row < Target(c).rollRows then Target(c).rollRows - 1 else p.row - 1;
            && ValidChannel(d) && Silent(c, d) && CursorRow(d) == row && Unwritten(d) == Unwritten(c) && IsPicture(Written(d)) && IsPicture(Written(c))
            && forall r, k :: 0 <= r < NR_ROWS && 0 <= k < NR_COLS && !(r == row && k == CursorColumn(d)) ==>
                 Written(d)[r][k] == if row == CursorRow(c) then Written(c)[r][k] else BLANK
  {
    var s := Target(c);
    PictureOf(s);
    PictureOf(PacApplied(s, p).value);
  }
}
