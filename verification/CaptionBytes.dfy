/** Captions as they are written in bytes (ANSI/CTA-608-E): the table of control codes, preambles, and text, and what the
    parser makes of them. */
module CaptionBytes {
  import opened Basics
  import opened CaptionScreen
  import opened CaptionChannel
  import opened CaptionCues
  import opened CaptionPictures
  import opened CaptionParser
  import CaptionRuns

  /** The first byte of a code on channel 1 or 2. */
  function CodeByte(ch: int, a: int): int {
    if ch == 1 then a else a + 8
  }

  // ---- control codes

  /** What a miscellaneous control code does to the pictures of its channel. */
  ghost predicate Means(b: int, c: ChannelValue, d: ChannelValue, t: int)
    requires ValidChannel(c) && ValidChannel(d)
  {
    && (b == 0x20 ==> TakesUp(c, d, PopOn))
    && (b == 0x21 ==> TakesBack(c, d, t))
    && (b == 0x22 || b == 0x23 ==> d == c)
    && (b == 0x24 ==> DeletesRest(c, d, t))
    && (0x25 <= b <= 0x27 ==> TakesUp(c, d, RollUp) && d.onDisplayed && d.displayed.rollRows == b - 0x23)
    && (b == 0x29 ==> TakesUp(c, d, PaintOn))
    && (b == 0x2A || b == 0x2B ==> TakesUp(c, d, TextMode))
    && (b == 0x2C ==> ErasesDisplay(c, d, t))
    && (b == 0x2D ==> Rolls(c, d, t))
    && (b == 0x2E ==> ErasesHidden(c, d))
    && (b == 0x2F ==> Flips(c, d, t))
  }

  /** The table of codes. */
  const CONTROLS: seq<Command> := [
    ResumeLoading, BackSpace, Nothing, Nothing, DeleteToEnd, RollUpRows(2), RollUpRows(3), RollUpRows(4),
    SetStyle(Styles(None, None, None, None, Some(true))), ResumeDirect, ResumeText, ResumeText, EraseDisplayed, CarriageReturn,
    EraseHidden, EndOfCaption]

  lemma ControlIs(ch: int, b: int)
    requires (ch == 1 || ch == 2) && 0x20 <= b <= 0x2F
    ensures CommandOf(CodeByte(ch, 0x14), b) == CONTROLS[b - 0x20] && ValidCommand(CONTROLS[b - 0x20])
  {
  }

  lemma ControlApplies(b: int, c: ChannelValue, t: int)
    requires 0x20 <= b <= 0x2F && b != 0x28 && ValidChannel(c) && ValidCommand(CONTROLS[b - 0x20])
    ensures var e := Apply(c, CONTROLS[b - 0x20], t); e.Some? && ValidChannel(e.value)
  {
    hide Content, NoContent, ValidScreen, Output, Reset, InMode, RolledUp, BackSpaced, ClearedFrom, WithCurrent;
    assert Apply(c, CONTROLS[b - 0x20], t).Some?;
    ApplyValid(c, CONTROLS[b - 0x20], t);
  }

  lemma CommandMeans(b: int, c: ChannelValue, t: int)
    requires 0x20 <= b <= 0x2F && b != 0x28 && ValidChannel(c)
    ensures ValidCommand(CONTROLS[b - 0x20])
    ensures var e := Apply(c, CONTROLS[b - 0x20], t); e.Some? && ValidChannel(e.value) && Means(b, c, e.value, t)
  {
    hide Apply, ValidChannel, TakesUp, TakesBack, DeletesRest, ErasesDisplay, Rolls, ErasesHidden, Flips;
    ControlIs(1, b);
    ControlApplies(b, c, t);
    if b == 0x20 || b == 0x29 || b == 0x2A || b == 0x2B {
      ResumeTakesUp(c, t);
    } else if b == 0x21 {
      BackSpaceTakesBack(c, t);
    } else if b == 0x22 || b == 0x23 {
      Reserved(c, t);
    } else if b == 0x24 {
      DeleteToEndDeletes(c, t);
    } else if 0x25 <= b <= 0x27 {
      RollUpTakesUp(c, b - 0x23, t);
    } else if b == 0x2C {
      EraseDisplayedErases(c, t);
    } else if b == 0x2D {
      CarriageReturnRolls(c, t);
    } else if b == 0x2E {
      EraseHiddenErases(c, t);
    } else {
      EndOfCaptionFlips(c, t);
    }
  }

  lemma Reserved(c: ChannelValue, t: int)
    requires ValidChannel(c)
    ensures Apply(c, Nothing, t) == Some(c)
  {
  }

  lemma ControlParsed(m: Memory, ch: int, b: int)
    requires (ch == 1 || ch == 2) && 0x20 <= b <= 0x2F && !Repeated(m, CodeByte(ch, 0x14), b)
    ensures Parse(m, CodeByte(ch, 0x14), b) == (Action.Run(ch, CommandOf(CodeByte(ch, 0x14), b)), Memory(ch, CodeByte(ch, 0x14), b))
  {
    hide PacOf, CommandOf;
  }

  function Other(v: ParserValue, ch: int): ChannelValue {
    ChannelOf(v, 3 - ch)
  }

  /** A control code that is not repeated acts on its channel as it should, and leaves the other channel alone. */
  lemma ControlCode(v: ParserValue, ch: int, b: int, t: int)
    requires ValidParser(v) && (ch == 1 || ch == 2) && 0x20 <= b <= 0x2F && b != 0x28 && !Repeated(v.memory, CodeByte(ch, 0x14), b)
    ensures var w := Step(v, CodeByte(ch, 0x14), b, t);
            && w.Some? && ValidChannel(ChannelOf(w.value, ch)) && Means(b, ChannelOf(v, ch), ChannelOf(w.value, ch), t)
            && Other(w.value, ch) == Other(v, ch)
  {
    ControlIs(ch, b);
    CommandMeans(b, ChannelOf(v, ch), t);
    ControlParsed(v.memory, ch, b);
    hide Apply, ValidChannel, Means, Parse, CommandOf;
  }

  // ---- preambles

  /** How a row is entered: at an indent of so many steps, or at its left in a color or in italics. */
  datatype Look = Indented(steps: nat) | Colored(number: nat) | Italic

  const COLORS := [White, Green, Blue, Cyan, Red, Yellow, Magenta]

  /** The first byte of a preamble for each row, on channel 1, and whether its second byte is a high one. */
  const ROW_BYTES := [0x11, 0x11, 0x12, 0x12, 0x15, 0x15, 0x16, 0x16, 0x17, 0x17, 0x10, 0x13, 0x13, 0x14, 0x14]
  const ROW_HIGH := [false, true, false, true, false, true, false, true, false, true, false, false, true, false, true]

  predicate SoundLook(look: Look) {
    (look.Indented? ==> look.steps <= 7) && (look.Colored? ==> look.number <= 6)
  }

  function PreambleBytes(ch: int, row: int, look: Look, underline: bool): (int, int)
    requires 1 <= row <= NR_ROWS && SoundLook(look)
  {
    var base := if ROW_HIGH[row - 1] then 0x60 else 0x40;
    var style := match look case Indented(n) => 0x10 + 2 * n case Colored(n) => 2 * n case Italic => 0x0E;
    (CodeByte(ch, ROW_BYTES[row - 1]), base + style + if underline then 1 else 0)
  }

  function PreambleMeant(row: int, look: Look, underline: bool): Pac
    requires SoundLook(look)
  {
    match look
    case Indented(n) => Pac(row, White, false, Some(4 * n), underline)
    case Colored(n) => Pac(row, COLORS[n], false, None, underline)
    case Italic => Pac(row, White, true, None, underline)
  }

  lemma RowRead(row: int)
    requires 1 <= row <= NR_ROWS
    ensures 0x10 <= ROW_BYTES[row - 1] <= 0x17 && (ROW_BYTES[row - 1] == 0x10 ==> !ROW_HIGH[row - 1])
    ensures RowOf(ROW_BYTES[row - 1], !ROW_HIGH[row - 1]) == row
  {
  }

  lemma ColorRead(n: nat)
    requires n <= 6
    ensures (if n == 7 then White else ColorAt(n)) == COLORS[n]
  {
  }

  /** Every row, indent, color and style is read as it was written. */
  lemma PreambleRead(ch: int, row: int, look: Look, underline: bool)
    requires (ch == 1 || ch == 2) && 1 <= row <= NR_ROWS && SoundLook(look)
    ensures var (a, b) := PreambleBytes(ch, row, look, underline);
            && IsPreamble(a, b) && PacOf(a, b) == PreambleMeant(row, look, underline) && (if a <= 0x17 then 1 else 2) == ch
            && 0x40 <= b <= 0x7F && !IsCommand(a, b) && !IsMidrow(a, b) && 0x10 <= a <= 0x1F
  {
    RowRead(row);
    if look.Colored? {
      ColorRead(look.number);
    }
    var first, high := ROW_BYTES[row - 1], ROW_HIGH[row - 1];
    hide RowOf, ColorAt;
    StyleRead(if high then 0x60 else 0x40, look, underline);
  }

  lemma StyleRead(base: int, look: Look, underline: bool)
    requires SoundLook(look)
    ensures var style := match look case Indented(n) => 0x10 + 2 * n case Colored(n) => 2 * n case Italic => 0x0E;
            var i := style + if underline then 1 else 0;
            && 0 <= i < 0x20 && (i % 2 == 1 <==> underline)
            && (look.Colored? ==> i <= 0xd && i / 2 == look.number) && (look.Italic? ==> 0xd < i <= 0xf)
            && (look.Indented? ==> i > 0xf && (i - 0x10) / 2 * 4 == 4 * look.steps)
  {
  }

  // ---- text

  // ---- attributes and special characters

  /** The other codes of two bytes: tabs; styles within a row, by color or in italics; backgrounds; black text; and
      characters of three more sets. */
  datatype Attribute = Tab(columns: nat) | Midrow(number: nat) | MidrowItalic | Ground(number: nat) | NoGround | BlackText
                     | Special(number: nat) | Spanish(number: nat) | German(number: nat)

  const GROUNDS := COLORS + [Black]

  predicate SoundAttribute(x: Attribute) {
    match x
    case Tab(n) => 1 <= n <= 3
    case Midrow(n) => n <= 6
    case Ground(n) => n <= 7
    case Special(n) => n <= 15
    case Spanish(n) => n <= 31
    case German(n) => n <= 31
    case _ => true
  }

  /** Their bytes on channel 1; some are marked, for an underline or for a ground that shines through. */
  function AttributeBytes(x: Attribute, marked: bool): (int, int) {
    var m := if marked then 1 else 0;
    match x
    case Tab(n) => (0x17, 0x20 + n)
    case Midrow(n) => (0x11, 0x20 + 2 * n + m)
    case MidrowItalic => (0x11, 0x2E + m)
    case Ground(n) => (0x10, 0x20 + 2 * n + m)
    case NoGround => (0x17, 0x2D)
    case BlackText => (0x17, 0x2E + m)
    case Special(n) => (0x11, 0x30 + n)
    case Spanish(n) => (0x12, 0x20 + n)
    case German(n) => (0x13, 0x20 + n)
  }

  /** What they mean; the three sets follow the plain characters, whose codes end at 7F. */
  function AttributeMeant(x: Attribute, marked: bool): Command
    requires SoundAttribute(x)
  {
    match x
    case Tab(n) => TabOffset(n)
    case Midrow(n) => SetStyle(Styles(Some(COLORS[n]), Some(marked), Some(false), None, Some(false)))
    case MidrowItalic => SetStyle(Styles(Some(White), Some(marked), Some(true), None, Some(false)))
    case Ground(n) => SetBackground(Styles(None, None, None, Some(if marked then Semi(GROUNDS[n]) else Opaque(GROUNDS[n])), None))
    case NoGround => SetBackground(Styles(None, None, None, Some(Transparent), None))
    case BlackText => SetBackground(Styles(Some(Black), if marked then Some(true) else None, None, None, None))
    case Special(n) => Characters([0x80 + n])
    case Spanish(n) => Characters([0x90 + n])
    case German(n) => Characters([0xB0 + n])
  }

  lemma GroundRead(n: nat)
    requires n <= 7
    ensures ColorAt(n) == GROUNDS[n] && (n <= 6 ==> GROUNDS[n] == COLORS[n])
  {
  }

  lemma Halves(x: Attribute, marked: bool)
    requires SoundAttribute(x)
    ensures var b := AttributeBytes(x, marked).1;
            && (x.Midrow? ==> b < 0x2E && b / 2 - 0x10 == x.number) && (x.Ground? ==> b <= 0x2F && (b - 0x20) / 2 == x.number)
            && (x.Midrow? || x.Ground? || x.MidrowItalic? || x.BlackText? ==> (b % 2 == 1 <==> marked))
  {
  }

  lemma CharacterRead(m: Memory, x: Attribute)
    requires (m.channel == 1 || m.channel == 2) && SoundAttribute(x) && (x.Special? || x.Spanish? || x.German?)
    ensures var (a, b) := AttributeBytes(x, false);
            Parse(m, CodeByte(m.channel, a), b).0 == Action.Run(m.channel, AttributeMeant(x, false))
  {
    hide MidrowStyles, BackgroundStyles, CommandOf, PacOf;
  }

  lemma PlainAttribute(m: Memory, ch: int, x: Attribute, marked: bool)
    requires (ch == 1 || ch == 2) && SoundAttribute(x) && (x.Midrow? || x.MidrowItalic? ==> m.channel == ch)
    requires !(x.Special? || x.Spanish? || x.German?)
    requires var (a, b) := AttributeBytes(x, marked); x.Tab? ==> !Repeated(m, CodeByte(ch, a), b)
    ensures var (a, b) := AttributeBytes(x, marked);
            Parse(m, CodeByte(ch, a), b).0 == Action.Run(ch, AttributeMeant(x, marked))
  {
    Halves(x, marked);
    if x.Midrow? || x.Ground? {
      GroundRead(x.number);
    }
    hide ColorAt, PacOf, CodesOf;
  }

  /** Every one of them is read as it was written, on the channel it is for; styles within a row and characters are for the
      channel of the last command. */
  lemma AttributeRead(m: Memory, ch: int, x: Attribute, marked: bool)
    requires (ch == 1 || ch == 2) && SoundAttribute(x) && (x.Tab? || x.Ground? || x.NoGround? || x.BlackText? || m.channel == ch)
    requires var (a, b) := AttributeBytes(x, marked); x.Tab? ==> !Repeated(m, CodeByte(ch, a), b)
    ensures var (a, b) := AttributeBytes(x, marked);
            Parse(m, CodeByte(ch, a), b).0 == Action.Run(ch, AttributeMeant(x, marked))
  {
    if x.Special? || x.Spanish? || x.German? {
      CharacterRead(m, x);
    } else {
      PlainAttribute(m, ch, x, marked);
    }
  }

  /** Text goes two characters at a time; a single one is followed by nothing. */
  function Pairs(text: seq<int>): (parts: seq<seq<int>>) {
    if text == [] then [] else if |text| == 1 then [text] else [text[..2]] + Pairs(text[2..])
  }

  function PairBytes(part: seq<int>): (b: seq<int>)
    requires 1 <= |part| <= 2
    ensures |b| == 2
  {
    if |part| == 2 then part else [part[0], 0]
  }

  predicate SoundText(text: seq<int>) {
    forall i :: 0 <= i < |text| ==> 0x20 <= text[i] <= 0x7F
  }

  lemma {:induction false} PairsSound(text: seq<int>)
    requires SoundText(text)
    ensures CaptionRuns.All(Pairs(text)) == text && CaptionRuns.PlainParts(Pairs(text))
    ensures forall i :: 0 <= i < |Pairs(text)| ==> 1 <= |Pairs(text)[i]| <= 2 && SoundText(Pairs(text)[i])
    decreases |text|
  {
    PairsJoin(text);
    if |text| >= 2 {
      PairsSound(text[2..]);
    }
  }

  lemma {:induction false} PairsJoin(text: seq<int>)
    ensures CaptionRuns.All(Pairs(text)) == text
    decreases |text|
  {
    if |text| >= 2 {
      PairsJoin(text[2..]);
      assert text[..2] + text[2..] == text;
    } else if |text| == 1 {
      assert CaptionRuns.All([text]) == text + CaptionRuns.All([]);
    }
  }

  /** Characters are told apart, but for the transparent space, which is one more space; plain text is shown as it is. */
  lemma CharactersDiffer(a: int, b: int)
    ensures CodeOf(a) == CodeOf(b) <==> a == b || ((a == 0x20 || a == 0x89) && (b == 0x20 || b == 0x89))
    ensures a != 0x89 ==> CodeOf(a) == a
  {
  }

  // ---- commands as bytes

  /** The pairs of bytes of commands, on one channel. */
  function Bytes(ch: int, commands: seq<(int, int)>): (b: seq<int>)
    ensures |b| == 2 * |commands|
  {
    if commands == [] then [] else [commands[0].0, commands[0].1] + Bytes(ch, commands[1..])
  }

  /** Pairs of bytes that the parser takes for commands of a channel, one by one. */
  ghost predicate Issues(m: Memory, pairs: seq<(int, int)>, ch: int, commands: seq<Command>)
    decreases |pairs|
  {
    && |pairs| == |commands|
    && (pairs != [] ==>
          var (action, q) := Parse(m, pairs[0].0, pairs[0].1);
          action == Action.Run(ch, commands[0]) && Issues(q, pairs[1..], ch, commands[1..]))
  }

  function MemoryAfter(m: Memory, pairs: seq<(int, int)>): Memory
    decreases |pairs|
  {
    if pairs == [] then m else MemoryAfter(Parse(m, pairs[0].0, pairs[0].1).1, pairs[1..])
  }

  function TimedAll(commands: seq<Command>, t: int): (r: seq<Timed>)
    ensures |r| == |commands|
  {
    seq(|commands|, i requires 0 <= i < |commands| => Timed(commands[i], t))
  }

  /** Bytes whose low seven bits are those of the pairs; the highest bit is for parity. */
  ghost predicate Carry(bytes: seq<int>, pairs: seq<(int, int)>) {
    && |bytes| == 2 * |pairs|
    && forall i :: 0 <= i < |pairs| ==> Holds(bytes[2 * i], pairs[i].0) && Holds(bytes[2 * i + 1], pairs[i].1)
  }

  predicate Holds(byte: int, b: int) {
    0 <= b < 128 && (byte == b || byte == 128 + b)
  }

  lemma ParityDropped(byte: int, b: int)
    requires Holds(byte, b)
    ensures Low7(byte) == b
  {
  }

  lemma CarryRest(bytes: seq<int>, pairs: seq<(int, int)>)
    requires Carry(bytes, pairs) && pairs != []
    ensures |bytes| >= 2 && Low7(bytes[0]) == pairs[0].0 && Second(bytes) == pairs[0].1 && Carry(bytes[2..], pairs[1..])
  {
    assert Holds(bytes[2 * 0], pairs[0].0) && Holds(bytes[2 * 0 + 1], pairs[0].1);
    ParityDropped(bytes[0], pairs[0].0);
    ParityDropped(bytes[1], pairs[0].1);
    hide Holds;
    forall i | 0 <= i < |pairs| - 1
      ensures Holds(bytes[2..][2 * i], pairs[1..][i].0) && Holds(bytes[2..][2 * i + 1], pairs[1..][i].1)
    {
      assert bytes[2..][2 * i] == bytes[2 * (i + 1)] && bytes[2..][2 * i + 1] == bytes[2 * (i + 1) + 1];
    }
  }

  /** The commands are run on their channel, and the other one is left alone. */
  lemma {:induction false} FedRuns(v: ParserValue, bytes: seq<int>, pairs: seq<(int, int)>, ch: int, commands: seq<Command>, t: int)
    requires ValidParser(v) && (ch == 1 || ch == 2) && Carry(bytes, pairs) && Issues(v.memory, pairs, ch, commands)
    requires ValidChannel(ChannelOf(v, ch)) && CaptionCues.Run(ChannelOf(v, ch), TimedAll(commands, t)).Some?
    ensures var w := FeedAll(v, bytes, t);
            && w.Some? && ChannelOf(w.value, ch) == CaptionCues.Run(ChannelOf(v, ch), TimedAll(commands, t)).value
            && Other(w.value, ch) == Other(v, ch) && w.value.memory == MemoryAfter(v.memory, pairs)
    decreases |pairs|
  {
    hide Apply, ValidChannel, ValidCommand, Parse;
    if pairs != [] {
      CarryRest(bytes, pairs);
      var run := TimedAll(commands, t);
      assert run[1..] == TimedAll(commands[1..], t);
      var w := Step(v, pairs[0].0, pairs[0].1, t);
      FedRuns(w.value, bytes[2..], pairs[1..], ch, commands[1..], t);
    }
  }

  // ---- a caption

  function LoadPairs(ch: int, row: int, look: Look, underline: bool, text: seq<int>): seq<(int, int)>
    requires 1 <= row <= NR_ROWS && SoundLook(look)
  {
    [(CodeByte(ch, 0x14), 0x20), (CodeByte(ch, 0x14), 0x2E), PreambleBytes(ch, row, look, underline)] + TextPairs(Pairs(text))
  }

  function TextPairs(parts: seq<seq<int>>): (r: seq<(int, int)>)
    ensures |r| == |parts|
  {
    seq(|parts|, i requires 0 <= i < |parts| => if |parts[i]| > 1 then (parts[i][0], parts[i][1]) else if |parts[i]| == 1 then (parts[i][0], 0) else (0, 0))
  }

  function LoadCommands(row: int, look: Look, underline: bool, text: seq<int>): seq<Command>
    requires SoundLook(look)
  {
    [ResumeLoading, EraseHidden, Preamble(PreambleMeant(row, look, underline))] + TextCommands(Pairs(text))
  }

  function TextCommands(parts: seq<seq<int>>): (r: seq<Command>)
    ensures |r| == |parts|
  {
    seq(|parts|, i requires 0 <= i < |parts| => Characters(parts[i]))
  }

  lemma TextParsed(m: Memory, part: seq<int>)
    requires 1 <= |part| <= 2 && SoundText(part) && m.channel > 0
    ensures var (a, b) := if |part| > 1 then (part[0], part[1]) else (part[0], 0);
            Parse(m, a, b) == (Action.Run(m.channel, Characters(part)), m.(lastA := -1, lastB := -1))
  {
    hide PacOf, CommandOf;
    var a, b := part[0], if |part| > 1 then part[1] else 0;
    TextCodes(a, b);
    assert part == if |part| > 1 then [part[0], part[1]] else [part[0]];
    hide CodesOf;
    assert CodesOf(a, b) == part;
    assert part != [];
    assert Parse(m, a, b).0 == Action.Run(m.channel, Characters(part));
    assert Parse(m, a, b).1 == m.(lastA := -1, lastB := -1);
  }

  lemma TextCodes(a: int, b: int)
    requires 0x20 <= a <= 0x7F && (b == 0 || 0x20 <= b <= 0x7F)
    ensures CodesOf(a, b) == if b == 0 then [a] else [a, b]
    ensures !IsCommand(a, b) && !IsMidrow(a, b) && !IsPreamble(a, b) && !IsBackground(a, b)
  {
  }

  lemma {:induction false} TextIssues(m: Memory, parts: seq<seq<int>>)
    requires m.channel > 0 && forall i :: 0 <= i < |parts| ==> 1 <= |parts[i]| <= 2 && SoundText(parts[i])
    ensures Issues(m, TextPairs(parts), m.channel, TextCommands(parts))
    ensures MemoryAfter(m, TextPairs(parts)) == if parts == [] then m else m.(lastA := -1, lastB := -1)
    decreases |parts|
  {
    hide Parse, SoundText;
    if parts != [] {
      TextParsed(m, parts[0]);
      TextIssues(m.(lastA := -1, lastB := -1), parts[1..]);
      assert TextPairs(parts)[1..] == TextPairs(parts[1..]) && TextCommands(parts)[1..] == TextCommands(parts[1..]);
    }
  }

  lemma PreambleParsed(m: Memory, ch: int, row: int, look: Look, underline: bool)
    requires (ch == 1 || ch == 2) && 1 <= row <= NR_ROWS && SoundLook(look) && m.lastB < 0x40
    ensures var (a, b) := PreambleBytes(ch, row, look, underline);
            Parse(m, a, b) == (Action.Run(ch, Preamble(PreambleMeant(row, look, underline))), Memory(ch, a, b))
  {
    PreambleRead(ch, row, look, underline);
    hide PacOf, CommandOf, PreambleBytes, PreambleMeant;
  }

  lemma {:induction false} LoadIssues(m: Memory, ch: int, row: int, look: Look, underline: bool, text: seq<int>)
    requires (ch == 1 || ch == 2) && 1 <= row <= NR_ROWS && SoundLook(look) && SoundText(text) && text != []
    requires !Repeated(m, CodeByte(ch, 0x14), 0x20)
    ensures Issues(m, LoadPairs(ch, row, look, underline, text), ch, LoadCommands(row, look, underline, text))
    ensures MemoryAfter(m, LoadPairs(ch, row, look, underline, text)) == Memory(ch, -1, -1)
  {
    var pairs, commands := LoadPairs(ch, row, look, underline, text), LoadCommands(row, look, underline, text);
    var parts := Pairs(text);
    var first := CodeByte(ch, 0x14);
    var (a, b) := PreambleBytes(ch, row, look, underline);
    var m1, m2, m3 := Memory(ch, first, 0x20), Memory(ch, first, 0x2E), Memory(ch, a, b);
    ControlIs(ch, 0x20);
    ControlIs(ch, 0x2E);
    assert parts != [];
    hide Parse, PreambleBytes, PreambleMeant, Pairs, TextPairs, TextCommands, Issues, MemoryAfter, CommandOf, CodeByte;
    ControlParsed(m, ch, 0x20);
    ControlParsed(m1, ch, 0x2E);
    PreambleParsed(m2, ch, row, look, underline);
    PairsSound(text);
    TextIssues(m3, parts);
    var p1, p2, p3 := pairs[1..], pairs[2..], pairs[3..];
    var c1, c2, c3 := commands[1..], commands[2..], commands[3..];
    assert p3 == TextPairs(parts) && c3 == TextCommands(parts);
    assert p1[1..] == p2 && p2[1..] == p3 && c1[1..] == c2 && c2[1..] == c3;
    FirstIssue(m2, m3, p2, ch, c2);
    FirstIssue(m1, m2, p1, ch, c1);
    FirstIssue(m, m1, pairs, ch, commands);
  }

  lemma {:induction false} FirstIssue(m: Memory, q: Memory, pairs: seq<(int, int)>, ch: int, commands: seq<Command>)
    requires pairs != [] && commands != [] && Parse(m, pairs[0].0, pairs[0].1) == (Action.Run(ch, commands[0]), q)
    requires Issues(q, pairs[1..], ch, commands[1..])
    ensures Issues(m, pairs, ch, commands) && MemoryAfter(m, pairs) == MemoryAfter(q, pairs[1..])
  {
    hide Parse;
  }

  lemma {:induction false} LoadTimed(row: int, look: Look, underline: bool, text: seq<int>, t: int)
    requires SoundLook(look)
    ensures TimedAll(LoadCommands(row, look, underline, text), t) == CaptionRuns.Load(PreambleMeant(row, look, underline), Pairs(text), t)
  {
    hide PreambleMeant, Pairs;
    var p, parts := PreambleMeant(row, look, underline), Pairs(text);
    var left, right := TimedAll(LoadCommands(row, look, underline, text), t), CaptionRuns.Load(p, parts, t);
    forall i | 0 <= i < |left| ensures left[i] == right[i] {
      if i >= 3 {
        assert LoadCommands(row, look, underline, text)[i] == TextCommands(parts)[i - 3];
      }
    }
  }

  /** Data of one control code. */
  lemma {:induction false} OneControl(v: ParserValue, bytes: seq<int>, ch: int, b: int, t: int)
    requires ValidParser(v) && (ch == 1 || ch == 2) && 0x20 <= b <= 0x2F && !Repeated(v.memory, CodeByte(ch, 0x14), b)
    requires Carry(bytes, [(CodeByte(ch, 0x14), b)])
    requires ValidChannel(ChannelOf(v, ch)) && ValidCommand(CommandOf(CodeByte(ch, 0x14), b)) && Apply(ChannelOf(v, ch), CommandOf(CodeByte(ch, 0x14), b), t).Some?
    ensures var w := FeedAll(v, bytes, t);
            && w.Some? && Some(ChannelOf(w.value, ch)) == Apply(ChannelOf(v, ch), CommandOf(CodeByte(ch, 0x14), b), t)
            && Other(w.value, ch) == Other(v, ch) && w.value.memory == Memory(ch, CodeByte(ch, 0x14), b)
  {
    var m := CommandOf(CodeByte(ch, 0x14), b);
    var pairs, commands := [(CodeByte(ch, 0x14), b)], [m];
    ControlParsed(v.memory, ch, b);
    CaptionRuns.RunOne(ChannelOf(v, ch), m, t);
    hide Apply, ValidChannel, ValidCommand, Parse, CommandOf;
    assert pairs[1..] == [] && commands[1..] == [];
    assert TimedAll(commands, t) == [Timed(m, t)];
    FedRuns(v, bytes, pairs, ch, commands, t);
    assert MemoryAfter(v.memory, pairs) == MemoryAfter(Parse(v.memory, pairs[0].0, pairs[0].1).1, []);
  }

  /** The part of it that loads: nothing changes on display, and the hidden picture is the caption. */
  lemma {:induction false} LoadRead(v: ParserValue, ch: int, row: int, look: Look, underline: bool, text: seq<int>, load: seq<int>, loaded: int)
    requires ValidParser(v) && (ch == 1 || ch == 2) && 1 <= row <= NR_ROWS && SoundLook(look) && SoundText(text) && text != []
    requires CaptionRuns.Modal(ChannelOf(v, ch)) && !Repeated(v.memory, CodeByte(ch, 0x14), 0x20)
    requires Carry(load, LoadPairs(ch, row, look, underline, text))
    requires CaptionRuns.ColumnOf(PreambleMeant(row, look, underline)) + |text| <= NR_COLS
    ensures var p, w := PreambleMeant(row, look, underline), FeedAll(v, load, loaded);
            && w.Some? && Other(w.value, ch) == Other(v, ch) && w.value.memory == Memory(ch, -1, -1)
            && var d := ChannelOf(w.value, ch);
               ValidChannel(d) && CaptionRuns.Unseen(ChannelOf(v, ch), d) && d.mode == PopOn
               && Off(d) == CaptionRuns.Drawn(row - 1, CaptionRuns.ColumnOf(p), text, CaptionRuns.PenOf(p))
  {
    var p, c, parts := PreambleMeant(row, look, underline), ChannelOf(v, ch), Pairs(text);
    PairsSound(text);
    LoadIssues(v.memory, ch, row, look, underline, text);
    LoadTimed(row, look, underline, text, loaded);
    assert p.row == row && (p.indent.Some? ==> p.indent.value < NR_COLS) && parts != [] && parts[0] != [];
    hide Apply, ValidChannel, ValidCommand, Parse, CaptionRuns.Load, CaptionRuns.Drawn, NoContent, CaptionRuns.Modal, PreambleMeant, Pairs, LoadPairs,
      LoadCommands, CommandOf, TimedAll, CaptionRuns.PlainParts, FeedAll, Issues, Carry, SoundText, CodeByte, Step, CaptionRuns.Unseen;
    CaptionRuns.Loads(c, p, parts, loaded);
    FedRuns(v, load, LoadPairs(ch, row, look, underline, text), ch, LoadCommands(row, look, underline, text), loaded);
  }

  /** A pop-on caption in bytes, of any channel, row, indent or color, style and text: loaded at one time, shown at another,
      and erased at a third. Just this text is on display in between, and its cue is given out; the other channel does not
      change. */
  lemma {:induction false} CaptionRead(v: ParserValue, ch: int, row: int, look: Look, underline: bool, text: seq<int>,
                    load: seq<int>, show: seq<int>, erase: seq<int>, loaded: int, t: int, end: int)
    requires ValidParser(v) && (ch == 1 || ch == 2) && 1 <= row <= NR_ROWS && SoundLook(look) && SoundText(text) && text != []
    requires CaptionRuns.Modal(ChannelOf(v, ch)) && (ChannelOf(v, ch).cueStart.None? <==> ChannelOf(v, ch).shown == NoContent())
    requires !Repeated(v.memory, CodeByte(ch, 0x14), 0x20)
    requires Carry(load, LoadPairs(ch, row, look, underline, text)) && Carry(show, [(CodeByte(ch, 0x14), 0x2F)]) && Carry(erase, [(CodeByte(ch, 0x14), 0x2C)])
    requires var p := PreambleMeant(row, look, underline);
             && CaptionRuns.ColumnOf(p) + |text| <= NR_COLS
             && CaptionRuns.Drawn(row - 1, CaptionRuns.ColumnOf(p), text, CaptionRuns.PenOf(p)) != NoContent()
    ensures var p := PreambleMeant(row, look, underline);
            var picture := CaptionRuns.Drawn(row - 1, CaptionRuns.ColumnOf(p), text, CaptionRuns.PenOf(p));
            var w := HappenAll(v, [Data(loaded, load), Data(t, show), Data(end, erase)]);
            && w.Some? && Other(w.value, ch) == Other(v, ch)
            && var cues := ChannelOf(w.value, ch).cues;
               cues != [] && cues[|cues| - 1] == CaptionRuns.CueOf(ChannelOf(v, ch), picture, t, end)
  {
    var p, c := PreambleMeant(row, look, underline), ChannelOf(v, ch);
    EndCodes(ch);
    LoadRead(v, ch, row, look, underline, text, load, loaded);
    hide Apply, ValidChannel, ValidCommand, Parse, CaptionRuns.Drawn, NoContent, CaptionRuns.Modal, PreambleMeant, LoadPairs,
      CommandOf, FeedAll, Carry, SoundText, CaptionRuns.CueOf, CodeByte, Step;
    var picture := CaptionRuns.Drawn(row - 1, CaptionRuns.ColumnOf(p), text, CaptionRuns.PenOf(p));
    var v1 := FeedAll(v, load, loaded).value;
    var d := ChannelOf(v1, ch);
    CaptionRuns.Showing(d, picture, t, end);
    CaptionRuns.UnseenCue(c, d, picture, t, end);
    CaptionRuns.EndsApply(d, t);
    NotRepeated(v1.memory, ch, 0x2F);
    OneControl(v1, show, ch, 0x2F, t);
    var v2 := FeedAll(v1, show, t).value;
    var e := ChannelOf(v2, ch);
    CaptionRuns.EndsApply(e, end);
    ShowThenErase(v2.memory, ch);
    OneControl(v2, erase, ch, 0x2C, end);
    ThreeEvents(v, load, show, erase, loaded, t, end);
  }

  lemma EndCodes(ch: int)
    requires ch == 1 || ch == 2
    ensures CommandOf(CodeByte(ch, 0x14), 0x2F) == EndOfCaption && CommandOf(CodeByte(ch, 0x14), 0x2C) == EraseDisplayed
  {
  }

  lemma NotRepeated(m: Memory, ch: int, b: int)
    requires m.lastA == -1 && (ch == 1 || ch == 2)
    ensures !Repeated(m, CodeByte(ch, 0x14), b)
  {
  }

  lemma ShowThenErase(m: Memory, ch: int)
    requires m.lastB == 0x2F
    ensures !Repeated(m, CodeByte(ch, 0x14), 0x2C)
  {
  }

  lemma {:induction false} ThreeEvents(v: ParserValue, a: seq<int>, b: seq<int>, c: seq<int>, loaded: int, t: int, end: int)
    requires ValidParser(v) && FeedAll(v, a, loaded).Some? && FeedAll(FeedAll(v, a, loaded).value, b, t).Some?
    ensures HappenAll(v, [Data(loaded, a), Data(t, b), Data(end, c)]) == FeedAll(FeedAll(FeedAll(v, a, loaded).value, b, t).value, c, end)
  {
    hide FeedAll;
    var events := [Data(loaded, a), Data(t, b), Data(end, c)];
    assert events[1..] == [Data(t, b), Data(end, c)] && events[1..][1..] == [Data(end, c)] && events[1..][1..][1..] == [];
    var v2 := FeedAll(FeedAll(v, a, loaded).value, b, t).value;
    assert HappenAll(v2, [Data(end, c)]) == FeedAll(v2, c, end);
  }
}
