/** CEA-608 screens: rows of styled characters, as values, and as the objects that the parser edits in place. */
module CaptionScreen {
  import opened Basics

  datatype Color = White | Green | Blue | Cyan | Red | Yellow | Magenta | Black

  datatype Background = Opaque(color: Color) | Semi(color: Color) | Transparent

  datatype Pen = Pen(foreground: Color, underline: bool, italics: bool, background: Background, flash: bool)

  /** The attributes a command sets. */
  datatype Styles = Styles(foreground: Option<Color>, underline: Option<bool>, italics: Option<bool>,
                           background: Option<Background>, flash: Option<bool>)

  /** A character is known by its code; the transparent space is a space. */
  datatype Char = Char(code: int, pen: Pen)

  const NR_COLS := 100
  const NR_ROWS := 15

  const DEFAULT_PEN := Pen(White, false, false, Opaque(Black), false)
  const BLANK := Char(0x20, DEFAULT_PEN)

  function CodeOf(byte: int): int {
    if byte == 0x89 then 0x20 else byte
  }

  function Pick<T>(o: Option<T>, otherwise: T): T {
    if o.Some? then o.value else otherwise
  }

  function Styled(p: Pen, s: Styles): Pen {
    Pen(Pick(s.foreground, p.foreground), Pick(s.underline, p.underline), Pick(s.italics, p.italics),
        Pick(s.background, p.background), Pick(s.flash, p.flash))
  }

  // ---- rows as values

  /** The characters of a row, the cursor, and the pen. */
  datatype RowValue = RowValue(chars: seq<Char>, pos: int, pen: Pen)

  predicate ValidRow(r: RowValue) {
    |r.chars| == NR_COLS && 0 <= r.pos <= NR_COLS
  }

  function BlankChars(): (c: seq<Char>)
    ensures |c| == NR_COLS
  {
    seq(NR_COLS, _ => BLANK)
  }

  const BLANK_ROW := RowValue(BlankChars(), 0, DEFAULT_PEN)

  function CursorAt(r: RowValue, pos: int): RowValue {
    r.(pos := if pos < 0 then 0 else if pos > NR_COLS then NR_COLS else pos)
  }

  /** Move the cursor, giving the pen to the characters passed over by a longer move: none is past the last column,
      or the source fails. */
  function Moved(r: RowValue, steps: int): (q: Option<RowValue>)
    requires ValidRow(r)
    ensures q.Some? ==> ValidRow(q.value)
  {
    var to := r.pos + steps;
    if steps > 1 && to >= NR_COLS then None
    else
      var chars := if steps > 1
                   then seq(NR_COLS, i requires 0 <= i < NR_COLS => if r.pos < i <= to then r.chars[i].(pen := r.pen) else r.chars[i])
                   else r.chars;
      Some(CursorAt(r.(chars := chars), to))
  }

  function BackSpaced(r: RowValue): (q: RowValue)
    requires ValidRow(r)
    ensures ValidRow(q)
  {
    var at := if r.pos == 0 then 0 else r.pos - 1;
    r.(pos := at, chars := r.chars[at := Char(0x20, r.pen)])
  }

  /** Put a character at the cursor; an extended one replaces the character before it. Nothing fits past the end. */
  function Inserted(r: RowValue, byte: int): (q: RowValue)
    requires ValidRow(r)
    ensures ValidRow(q)
  {
    var s := if byte >= 0x90 then BackSpaced(r) else r;
    if s.pos >= NR_COLS then s else s.(chars := s.chars[s.pos := Char(CodeOf(byte), s.pen)], pos := s.pos + 1)
  }

  function ClearedFrom(r: RowValue, start: int): (q: RowValue)
    requires ValidRow(r)
    ensures ValidRow(q)
  {
    r.(chars := seq(NR_COLS, i requires 0 <= i < NR_COLS => if i < start then r.chars[i] else BLANK))
  }

  /** Give the row and the character at the cursor a style; past the last column the source fails. */
  function PenSet(r: RowValue, s: Styles): (q: Option<RowValue>)
    requires ValidRow(r)
    ensures q.Some? ==> ValidRow(q.value)
  {
    if r.pos == NR_COLS then None
    else
      var pen := Styled(r.pen, s);
      Some(r.(pen := pen, chars := r.chars[r.pos := r.chars[r.pos].(pen := pen)]))
  }

  // ---- rows as objects

  class Row {
    var chars: seq<Char>
    var pos: int
    var pen: Pen

    function Value(): RowValue
      reads this
    {
      RowValue(chars, pos, pen)
    }

    constructor ()
      ensures Value() == BLANK_ROW
    {
      chars := BlankChars();
      pos := 0;
      pen := DEFAULT_PEN;
    }

    method SetCursor(absPos: int)
      modifies this
      ensures Value() == CursorAt(old(Value()), absPos)
    {
      pos := absPos;
      if pos < 0 {
        pos := 0;
      } else if pos > NR_COLS {
        pos := NR_COLS;
      }
    }

    /** False when a character past the last column would be styled. */
    method MoveCursor(relPos: int) returns (ok: bool)
      requires ValidRow(Value())
      modifies this
      ensures ok <==> Moved(old(Value()), relPos).Some?
      ensures ok ==> Value() == Moved(old(Value()), relPos).value
    {
      var newPos := pos + relPos;
      ghost var before := chars;
      if relPos > 1 {
        if newPos >= NR_COLS {
          return false;
        }
        var i := pos + 1;
        while i < newPos + 1
          invariant pos + 1 <= i <= newPos + 1 && |chars| == NR_COLS && pos == old(pos) && pen == old(pen)
          invariant forall k :: 0 <= k < NR_COLS ==> chars[k] == if pos < k < i then before[k].(pen := pen) else before[k]
        {
          chars := chars[i := chars[i].(pen := pen)];
          i := i + 1;
        }
        assert chars == Moved(old(Value()), relPos).value.chars;
      }
      SetCursor(newPos);
      ok := true;
    }

    method BackSpace()
      requires ValidRow(Value())
      modifies this
      ensures Value() == BackSpaced(old(Value()))
    {
      var ok := MoveCursor(-1);
      chars := chars[pos := Char(0x20, pen)];
    }

    method InsertChar(byte: int)
      requires ValidRow(Value())
      modifies this
      ensures Value() == Inserted(old(Value()), byte)
    {
      if byte >= 0x90 {
        BackSpace();
      }
      if pos >= NR_COLS {
        return;
      }
      chars := chars[pos := Char(CodeOf(byte), pen)];
      var ok := MoveCursor(1);
    }

    method ClearFromPos(startPos: int)
      requires ValidRow(Value()) && 0 <= startPos
      modifies this
      ensures Value() == ClearedFrom(old(Value()), startPos)
    {
      ghost var before := chars;
      var i := startPos;
      while i < NR_COLS
        invariant startPos <= i && |chars| == NR_COLS && pos == old(pos) && pen == old(pen)
        invariant forall k :: 0 <= k < NR_COLS ==> chars[k] == if startPos <= k < i then BLANK else before[k]
      {
        chars := chars[i := BLANK];
        i := i + 1;
      }
      assert chars == ClearedFrom(old(Value()), startPos).chars;
    }

    method Clear()
      requires ValidRow(Value())
      modifies this
      ensures Value() == BLANK_ROW
    {
      ClearFromPos(0);
      pos := 0;
      pen := DEFAULT_PEN;
      assert chars == BlankChars();
    }

    /** False when the cursor is past the last column. */
    method SetPenStyles(s: Styles) returns (ok: bool)
      requires ValidRow(Value())
      modifies this
      ensures ok <==> PenSet(old(Value()), s).Some?
      ensures ok ==> Value() == PenSet(old(Value()), s).value
    {
      pen := Styled(pen, s);
      if pos == NR_COLS {
        return false;
      }
      chars := chars[pos := chars[pos].(pen := pen)];
      ok := true;
    }

    method Copy(other: Row)
      requires ValidRow(Value()) && ValidRow(other.Value())
      modifies this
      ensures Value() == old(Value()).(chars := other.chars)
    {
      ghost var from := other.chars;
      if this == other {
        return;
      }
      for i := 0 to NR_COLS
        invariant |chars| == NR_COLS && pos == old(pos) && pen == old(pen) && other.chars == from
        invariant forall k :: 0 <= k < i ==> chars[k] == from[k]
      {
        chars := chars[i := other.chars[i]];
      }
      assert chars == from;
    }

    method Equals(other: Row) returns (equal: bool)
      requires ValidRow(Value()) && ValidRow(other.Value())
      ensures equal <==> chars == other.chars
    {
      for i := 0 to NR_COLS
        invariant forall k :: 0 <= k < i ==> chars[k] == other.chars[k]
      {
        if chars[i] != other.chars[i] {
          return false;
        }
      }
      return true;
    }

    method IsEmpty() returns (empty: bool)
      requires ValidRow(Value())
      ensures empty <==> chars == BlankChars()
    {
      for i := 0 to NR_COLS
        invariant forall k :: 0 <= k < i ==> chars[k] == BLANK
      {
        if chars[i] != BLANK {
          assert chars[i] != BlankChars()[i];
          return false;
        }
      }
      return true;
    }
  }

  // ---- screens as values

  /** The rows, the current row, and the number of rows that roll up (0 for none). */
  datatype ScreenValue = ScreenValue(rows: seq<RowValue>, currRow: int, rollRows: nat)

  predicate ValidScreen(s: ScreenValue) {
    && |s.rows| == NR_ROWS && 0 <= s.currRow < NR_ROWS
    && forall i :: 0 <= i < NR_ROWS ==> ValidRow(s.rows[i])
  }

  /** What a screen shows: only this is compared and copied. */
  function Content(s: ScreenValue): (c: seq<seq<Char>>)
    ensures |c| == |s.rows|
  {
    seq(|s.rows|, i requires 0 <= i < |s.rows| => s.rows[i].chars)
  }

  function NoContent(): seq<seq<Char>> {
    seq(NR_ROWS, _ => BlankChars())
  }

  function BlankRows(): (r: seq<RowValue>)
    ensures |r| == NR_ROWS
  {
    seq(NR_ROWS, _ => BLANK_ROW)
  }

  function Reset(s: ScreenValue): (q: ScreenValue)
    ensures ValidScreen(q) && q.rollRows == s.rollRows
  {
    ScreenValue(BlankRows(), NR_ROWS - 1, s.rollRows)
  }

  function Current(s: ScreenValue): (r: RowValue)
    requires ValidScreen(s)
    ensures ValidRow(r)
  {
    s.rows[s.currRow]
  }

  function WithCurrent(s: ScreenValue, r: RowValue): (q: ScreenValue)
    requires ValidScreen(s)
    ensures ValidRow(r) ==> ValidScreen(q)
    ensures q.rollRows == s.rollRows
  {
    s.(rows := s.rows[s.currRow := r])
  }

  function WithOption(s: ScreenValue, r: Option<RowValue>): Option<ScreenValue>
    requires ValidScreen(s)
  {
    if r.None? then None else Some(WithCurrent(s, r.value))
  }

  /** A preamble: a row, and either an indent or a color. */
  datatype Pac = Pac(row: int, color: Color, italics: bool, indent: Option<nat>, underline: bool)

  function PacRow(s: ScreenValue, row: int): int {
    if s.rollRows > 0 && row - 1 < s.rollRows - 1 then s.rollRows - 1 else row - 1
  }

  /** The rows are cleared when the base of a roll-up caption moves. */
  function PacScreen(s: ScreenValue, row: int): ScreenValue {
    var newRow := PacRow(s, row);
    ScreenValue(if s.rollRows > 0 && s.currRow != newRow then BlankRows() else s.rows, newRow, s.rollRows)
  }

  function PacStyles(foreground: Color, p: Pac): Styles {
    Styles(Some(foreground), Some(p.underline), Some(p.italics), Some(Opaque(Black)), Some(false))
  }

  function PacApplied(s: ScreenValue, p: Pac): (q: Option<ScreenValue>)
    requires ValidScreen(s) && 1 <= p.row <= NR_ROWS && s.rollRows <= NR_ROWS
    requires p.indent.Some? ==> p.indent.value <= NR_COLS
    ensures q.Some? ==> ValidScreen(q.value) && q.value.rollRows == s.rollRows
  {
    var t := PacScreen(s, p.row);
    var row := Current(t);
    var placed := if p.indent.Some? then CursorAt(row, p.indent.value) else row;
    var color := if p.indent.Some? then row.chars[if p.indent.value > 0 then p.indent.value - 1 else 0].pen.foreground else p.color;
    WithOption(WithCurrent(t, placed), PenSet(placed, PacStyles(color, p)))
  }

  /** A background attribute: step back, style, and put a space. */
  function BackgroundSet(r: RowValue, styles: Styles): (q: Option<RowValue>)
    requires ValidRow(r)
    ensures q.Some? ==> ValidRow(q.value)
  {
    var q := PenSet(BackSpaced(r), styles);
    if q.None? then None else Some(Inserted(q.value, 0x20))
  }

  function TopRow(s: ScreenValue): int {
    var top := s.currRow + 1 - s.rollRows;
    if top < 0 then NR_ROWS + top else top
  }

  /** Take out one row, and put one in. */
  function TakeOut<T>(rows: seq<T>, i: int): seq<T>
    requires 0 <= i < |rows|
  {
    rows[..i] + rows[i + 1..]
  }

  function PutIn<T>(rows: seq<T>, i: int, row: T): seq<T>
    requires 0 <= i <= |rows|
  {
    rows[..i] + [row] + rows[i..]
  }

  /** The top row of the caption is cleared and becomes its last; a top above the screen counts from the bottom. */
  function RolledUp(s: ScreenValue): (q: ScreenValue)
    requires ValidScreen(s) && s.rollRows <= 4
    ensures ValidScreen(q) && q.rollRows == s.rollRows
  {
    if s.rollRows == 0 then s
    else s.(rows := PutIn(TakeOut(s.rows, TopRow(s)), s.currRow, BLANK_ROW))
  }

  // ---- screens as objects

  /** Two lists of rows have no row in common. */
  ghost predicate Apart(a: seq<Row>, b: seq<Row>) {
    && (forall r :: r in a ==> r !in b)
    && (forall i :: 0 <= i < |a| ==> a[i] !in b)
    && (forall i :: 0 <= i < |b| ==> b[i] !in a)
  }

  class Screen {
    var rows: seq<Row>
    var currRow: int
    var rollRows: nat

    ghost predicate Valid()
      reads this, rows
    {
      && |rows| == NR_ROWS && 0 <= currRow < NR_ROWS && rollRows <= 4
      && (forall i, j :: 0 <= i < j < NR_ROWS ==> rows[i] != rows[j])
      && (forall i :: 0 <= i < NR_ROWS ==> ValidRow(rows[i].Value()))
    }

    ghost function Values(): (v: seq<RowValue>)
      reads this, rows
      ensures |v| == |rows|
    {
      seq(|rows|, i requires 0 <= i < |rows| reads this, rows => rows[i].Value())
    }

    ghost function Value(): (v: ScreenValue)
      reads this, rows
      ensures Valid() ==> ValidScreen(v)
    {
      ScreenValue(Values(), currRow, rollRows)
    }

    constructor ()
      ensures Valid() && fresh(rows) && Value() == ScreenValue(BlankRows(), NR_ROWS - 1, 0)
    {
      currRow := NR_ROWS - 1;
      rollRows := 0;
      rows := [];
      new;
      for i := 0 to NR_ROWS
        invariant |rows| == i && fresh(rows) && currRow == NR_ROWS - 1 && rollRows == 0
        invariant forall j, k :: 0 <= j < k < i ==> rows[j] != rows[k]
        invariant forall j :: 0 <= j < i ==> rows[j].Value() == BLANK_ROW
      {
        var row := new Row();
        rows := rows + [row];
      }
      assert Values() == BlankRows();
    }

    /** What the screen shows. */
    function Picture(): (p: seq<seq<Char>>)
      requires Valid()
      reads this, rows
      ensures p == Content(Value())
    {
      seq(NR_ROWS, i requires 0 <= i < NR_ROWS && Valid() reads this, rows => rows[i].chars)
    }

    /** Clear every row. */
    method ClearRows()
      requires Valid()
      modifies rows
      ensures Valid() && Values() == BlankRows()
    {
      for i := 0 to NR_ROWS
        invariant Valid()
        invariant forall j :: 0 <= j < i ==> rows[j].Value() == BLANK_ROW
      {
        rows[i].Clear();
      }
      assert Values() == BlankRows();
    }

    method ResetScreen()
      requires Valid()
      modifies this, rows
      ensures Valid() && rows == old(rows) && Value() == Reset(old(Value()))
    {
      ClearRows();
      currRow := NR_ROWS - 1;
    }

    /** A change of the current row alone. */
    twostate lemma CurrentChanged(r: RowValue)
      requires old(Valid()) && rows == old(rows) && currRow == old(currRow) && rollRows == old(rollRows)
      requires rows[currRow].Value() == r && ValidRow(r)
      requires forall i :: 0 <= i < NR_ROWS && i != currRow ==> rows[i].Value() == old(rows[i].Value())
      ensures Valid() && Value() == WithCurrent(old(Value()), r)
    {
      assert Values() == old(Values())[currRow := r];
    }

    method BackSpace()
      requires Valid()
      modifies rows
      ensures Valid() && Value() == WithCurrent(old(Value()), BackSpaced(Current(old(Value()))))
    {
      rows[currRow].BackSpace();
      CurrentChanged(rows[currRow].Value());
    }

    method ClearToEndOfRow()
      requires Valid()
      modifies rows
      ensures Valid()
      ensures Value() == WithCurrent(old(Value()), ClearedFrom(Current(old(Value())), Current(old(Value())).pos))
    {
      rows[currRow].ClearFromPos(rows[currRow].pos);
      CurrentChanged(rows[currRow].Value());
    }

    method InsertChar(byte: int)
      requires Valid()
      modifies rows
      ensures Valid() && Value() == WithCurrent(old(Value()), Inserted(Current(old(Value())), byte))
    {
      rows[currRow].InsertChar(byte);
      CurrentChanged(rows[currRow].Value());
    }

    method SetPen(styles: Styles) returns (ok: bool)
      requires Valid()
      modifies rows
      ensures ok <==> PenSet(Current(old(Value())), styles).Some?
      ensures ok ==> Valid() && Value() == WithCurrent(old(Value()), PenSet(Current(old(Value())), styles).value)
    {
      ok := rows[currRow].SetPenStyles(styles);
      if ok {
        CurrentChanged(rows[currRow].Value());
      }
    }

    method MoveCursor(relPos: int) returns (ok: bool)
      requires Valid()
      modifies rows
      ensures ok <==> Moved(Current(old(Value())), relPos).Some?
      ensures ok ==> Valid() && Value() == WithCurrent(old(Value()), Moved(Current(old(Value())), relPos).value)
    {
      ok := rows[currRow].MoveCursor(relPos);
      if ok {
        CurrentChanged(rows[currRow].Value());
      }
    }

    method SetPac(p: Pac) returns (ok: bool)
      requires Valid() && 1 <= p.row <= NR_ROWS && (p.indent.Some? ==> p.indent.value <= NR_COLS)
      modifies this, rows
      ensures rows == old(rows)
      ensures ok <==> PacApplied(old(Value()), p).Some?
      ensures ok ==> Valid() && Value() == PacApplied(old(Value()), p).value
    {
      var newRow := p.row - 1;
      if rollRows > 0 && newRow < rollRows - 1 {
        newRow := rollRows - 1;
      }
      if rollRows > 0 && currRow != newRow {
        ClearRows();
      }
      currRow := newRow;
      assert Value() == PacScreen(old(Value()), p.row);
      ok := PlacePen(p);
    }

    /** Place the cursor of the current row, and set its pen. */
    method PlacePen(p: Pac) returns (ok: bool)
      requires Valid() && (p.indent.Some? ==> p.indent.value <= NR_COLS)
      modifies rows
      ensures var row := Current(old(Value()));
              var placed := if p.indent.Some? then CursorAt(row, p.indent.value) else row;
              var color := if p.indent.Some? then row.chars[if p.indent.value > 0 then p.indent.value - 1 else 0].pen.foreground
                           else p.color;
              && (ok <==> PenSet(placed, PacStyles(color, p)).Some?)
              && (ok ==> Valid() && Value() == WithCurrent(WithCurrent(old(Value()), placed), PenSet(placed, PacStyles(color, p)).value))
    {
      var color := p.color;
      if p.indent.Some? {
        var prevPos := if p.indent.value > 0 then p.indent.value - 1 else 0;
        rows[currRow].SetCursor(p.indent.value);
        CurrentChanged(rows[currRow].Value());
        color := rows[currRow].chars[prevPos].pen.foreground;
      }
      label placed:
      ok := SetPen(PacStyles(color, p));
    }

    method SetBackground(styles: Styles) returns (ok: bool)
      requires Valid()
      modifies rows
      ensures ok <==> BackgroundSet(Current(old(Value())), styles).Some?
      ensures ok ==> Valid() && Value() == WithCurrent(old(Value()), BackgroundSet(Current(old(Value())), styles).value)
    {
      BackSpace();
      ok := SetPen(styles);
      if ok {
        InsertChar(0x20);
      }
    }

    method SetRollUpRows(n: nat)
      requires Valid() && n <= 4
      modifies this
      ensures Valid() && rows == old(rows) && Value() == old(Value()).(rollRows := n)
    {
      rollRows := n;
      assert Values() == old(Values());
    }

    /** Rotate the rows of the caption: the row objects change places. */
    method RollUp()
      requires Valid()
      modifies this, rows
      ensures Valid() && Value() == RolledUp(old(Value()))
      ensures forall r :: r in rows <==> r in old(rows)
    {
      if rollRows == 0 {
        return;
      }
      var top := currRow + 1 - rollRows;
      var at := if top < 0 then NR_ROWS + top else top;
      var topRow := rows[at];
      topRow.Clear();
      assert Values() == old(Values())[at := BLANK_ROW];
      Rotate(at, currRow);
      assert TakeOut(old(Values())[at := BLANK_ROW], at) == TakeOut(old(Values()), at);
    }

    /** Move a row object to another place. */
    method Rotate(from: int, to: int)
      requires Valid() && 0 <= from < NR_ROWS && 0 <= to < NR_ROWS
      modifies this`rows
      ensures Valid() && Values() == PutIn(TakeOut(old(Values()), from), to, old(Values())[from])
      ensures forall r :: r in rows <==> r in old(rows)
    {
      ghost var before, values := rows, Values();
      var row := rows[from];
      rows := PutIn(TakeOut(rows, from), to, row);
      Rotated(before, from, to);
      forall k | 0 <= k < NR_ROWS
        ensures rows[k] == before[RotatedFrom(from, to, k)]
        ensures Values()[k] == PutIn(TakeOut(values, from), to, values[from])[k]
      {
        RotatedAt(before, from, to, k);
        RotatedAt(values, from, to, k);
      }
    }

    method Equals(other: Screen) returns (equal: bool)
      requires Valid() && other.Valid()
      ensures equal <==> Content(Value()) == Content(other.Value())
    {
      for i := 0 to NR_ROWS
        invariant forall k :: 0 <= k < i ==> rows[k].chars == other.rows[k].chars
      {
        equal := rows[i].Equals(other.rows[i]);
        if !equal {
          assert Content(Value())[i] != Content(other.Value())[i];
          return;
        }
      }
      assert Content(Value()) == Content(other.Value());
      return true;
    }

    method IsEmpty() returns (empty: bool)
      requires Valid()
      ensures empty <==> Content(Value()) == NoContent()
    {
      for i := 0 to NR_ROWS
        invariant forall k :: 0 <= k < i ==> rows[k].chars == BlankChars()
      {
        empty := rows[i].IsEmpty();
        if !empty {
          assert Content(Value())[i] != NoContent()[i];
          return;
        }
      }
      assert Content(Value()) == NoContent();
      return true;
    }

    /** Take over what another screen shows. */
    method Copy(other: Screen)
      requires Valid() && other.Valid() && Apart(rows, other.rows)
      modifies rows
      ensures Valid() && Content(Value()) == Content(other.Value())
    {
      ghost var picture := other.Picture();
      for i := 0 to NR_ROWS
        invariant Valid()
        invariant forall k :: 0 <= k < NR_ROWS ==> other.rows[k].Value() == old(other.rows[k].Value())
        invariant forall k :: 0 <= k < i ==> rows[k].chars == picture[k]
      {
        rows[i].Copy(other.rows[i]);
      }
      assert Content(Value()) == picture;
      assert Content(other.Value()) == picture;
    }
  }

  /** Where the element at position k comes from. */
  function RotatedFrom(from: int, to: int, k: int): int {
    if k == to then from
    else
      var m := if k < to then k else k - 1;
      if m < from then m else m + 1
  }

  lemma RotatedAt<T>(s: seq<T>, from: int, to: int, k: int)
    requires 0 <= from < |s| && 0 <= to < |s| && 0 <= k < |s|
    ensures 0 <= RotatedFrom(from, to, k) < |s|
    ensures |PutIn(TakeOut(s, from), to, s[from])| == |s| && PutIn(TakeOut(s, from), to, s[from])[k] == s[RotatedFrom(from, to, k)]
  {
  }

  /** Taking a row out and putting it in elsewhere permutes the rows. */
  lemma Rotated<T>(rows: seq<T>, from: int, to: int)
    requires 0 <= from < |rows| && 0 <= to < |rows|
    ensures var r := PutIn(TakeOut(rows, from), to, rows[from]);
            && |r| == |rows| && (forall x :: x in r <==> x in rows)
            && (Different(rows) ==> Different(r))
  {
    var q := TakeOut(rows, from);
    var r := PutIn(q, to, rows[from]);
    assert rows == rows[..from] + [rows[from]] + rows[from + 1..];
    assert forall x :: x in rows <==> x in q || x == rows[from];
    assert q == q[..to] + q[to..];
    assert forall x :: x in r <==> x in q || x == rows[from];
    forall i, j | 0 <= i < j < |r| && Different(rows)
      ensures r[i] != r[j]
    {
      hide TakeOut, PutIn;
      RotatedAt(rows, from, to, i);
      RotatedAt(rows, from, to, j);
      Elsewhere(rows, RotatedFrom(from, to, i), RotatedFrom(from, to, j));
    }
  }

  ghost predicate Different<T>(s: seq<T>) {
    forall i, j :: 0 <= i < j < |s| ==> s[i] != s[j]
  }

  lemma Elsewhere<T>(s: seq<T>, i: int, j: int)
    requires Different(s) && 0 <= i < |s| && 0 <= j < |s| && i != j
    ensures s[i] != s[j]
  {
  }
}
