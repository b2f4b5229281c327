/** The parser of CEA-608 byte pairs: it tells commands, preambles, attributes and characters apart, drops repeated
    commands once, and hands each on to its channel. */
module CaptionParser {
  import opened Basics
  import opened CaptionScreen
  import opened CaptionChannel
  import opened CaptionCues

  /** The channel of the last command (-1 before any), and the last command (-1 for none). */
  datatype Memory = Memory(channel: int, lastA: int, lastB: int)

  const FRESH := Memory(-1, -1, -1)

  /** What a pair of bytes comes to: a command for a channel, or nothing. */
  datatype Action = Skip | Run(channel: int, command: Command)

  function ColorAt(i: int): Color {
    if i == 1 then Green else if i == 2 then Blue else if i == 3 then Cyan else if i == 4 then Red
    else if i == 5 then Yellow else if i == 6 then Magenta else if i == 7 then Black else White
  }

  // ---- commands

  predicate IsCommand(a: int, b: int) {
    ((a == 0x14 || a == 0x1C) && 0x20 <= b <= 0x2F) || ((a == 0x17 || a == 0x1F) && 0x21 <= b <= 0x23)
  }

  function CommandOf(a: int, b: int): Command {
    if a == 0x17 || a == 0x1F then TabOffset(if 0x21 <= b <= 0x23 then b - 0x20 else 1)
    else if b == 0x20 then ResumeLoading
    else if b == 0x21 then BackSpace
    else if b == 0x24 then DeleteToEnd
    else if b == 0x25 then RollUpRows(2)
    else if b == 0x26 then RollUpRows(3)
    else if b == 0x27 then RollUpRows(4)
    else if b == 0x28 then SetStyle(Styles(None, None, None, None, Some(true)))
    else if b == 0x29 then ResumeDirect
    else if b == 0x2A || b == 0x2B then ResumeText
    else if b == 0x2C then EraseDisplayed
    else if b == 0x2D then CarriageReturn
    else if b == 0x2E then EraseHidden
    else if b == 0x2F then EndOfCaption
    else Nothing
  }

  // ---- styles within a row

  predicate IsMidrow(a: int, b: int) {
    (a == 0x11 || a == 0x19) && 0x20 <= b <= 0x2F
  }

  function MidrowStyles(b: int): Styles {
    Styles(Some(if b >= 0x2E then White else ColorAt(b / 2 - 0x10)), Some(b % 2 == 1), Some(b >= 0x2E), None, Some(false))
  }

  // ---- preambles

  predicate IsPreamble(a: int, b: int) {
    (((0x11 <= a <= 0x17) || (0x19 <= a <= 0x1F)) && 0x40 <= b <= 0x7F) || ((a == 0x10 || a == 0x18) && 0x40 <= b <= 0x5F)
  }

  /** The row of a preamble, by its first byte (of channel 1) and whether the second is low. */
  function RowOf(a: int, low: bool): (row: int)
    requires 0x10 <= a <= 0x17 && (a == 0x10 ==> low)
    ensures 1 <= row <= NR_ROWS
  {
    if a == 0x10 then 11
    else if a == 0x11 then if low then 1 else 2
    else if a == 0x12 then if low then 3 else 4
    else if a == 0x13 then if low then 12 else 13
    else if a == 0x14 then if low then 14 else 15
    else if a == 0x15 then if low then 5 else 6
    else if a == 0x16 then if low then 7 else 8
    else if low then 9 else 10
  }

  function PacOf(a: int, b: int): (p: Pac)
    requires IsPreamble(a, b)
    ensures 1 <= p.row <= NR_ROWS && (p.indent.Some? ==> p.indent.value <= 28)
  {
    var i := if b > 0x5F then b - 0x60 else b - 0x40;
    var row := RowOf(if a <= 0x17 then a else a - 8, b <= 0x5F);
    if i <= 0xd then Pac(row, if i / 2 == 7 then White else ColorAt(i / 2), false, None, i % 2 == 1)
    else if i <= 0xf then Pac(row, White, true, None, i % 2 == 1)
    else Pac(row, White, false, Some((i - 0x10) / 2 * 4), i % 2 == 1)
  }

  // ---- backgrounds

  predicate IsBackground(a: int, b: int) {
    ((a == 0x10 || a == 0x18) && 0x20 <= b <= 0x2F) || ((a == 0x17 || a == 0x1F) && 0x2D <= b <= 0x2F)
  }

  function BackgroundStyles(a: int, b: int): Styles {
    if a == 0x10 || a == 0x18 then
      var color := ColorAt((b - 0x20) / 2);
      Styles(None, None, None, Some(if b % 2 == 1 then Semi(color) else Opaque(color)), None)
    else if b == 0x2D then Styles(None, None, None, Some(Transparent), None)
    else Styles(Some(Black), if b == 0x2F then Some(true) else None, None, None, None)
  }

  // ---- characters

  function CodesOf(a: int, b: int): seq<int> {
    var c := if a >= 0x19 then a - 8 else a;
    if c == 0x11 then [b + 0x50]
    else if c == 0x12 then [b + 0x70]
    else if c == 0x13 then [b + 0x90]
    else if 0x20 <= a <= 0x7F then if b == 0 then [a] else [a, b]
    else []
  }

  // ---- a pair of bytes

  function Repeated(p: Memory, a: int, b: int): bool {
    a == p.lastA && b == p.lastB
  }

  /** The action, and what is remembered of it. A repeated command is dropped, and forgotten so that it is dropped
      only once. */
  function Parse(p: Memory, a: int, b: int): (Action, Memory) {
    if a == 0 && b == 0 then (Skip, p)
    else if IsCommand(a, b) then
      if Repeated(p, a, b) then (Skip, p.(lastA := -1, lastB := -1))
      else
        var ch := if a == 0x14 || a == 0x17 then 1 else 2;
        (Run(ch, CommandOf(a, b)), Memory(ch, a, b))
    else if IsMidrow(a, b) && p.channel == (if a == 0x11 then 1 else 2) then (Run(p.channel, SetStyle(MidrowStyles(b))), p)
    else if IsPreamble(a, b) then
      if Repeated(p, a, b) then (Skip, p.(lastA := -1, lastB := -1))
      else
        var ch := if a <= 0x17 then 1 else 2;
        (Run(ch, Preamble(PacOf(a, b))), Memory(ch, a, b))
    else if IsBackground(a, b) then (Run(if a < 0x18 then 1 else 2, SetBackground(BackgroundStyles(a, b))), p.(lastA := -1, lastB := -1))
    else
      var codes := CodesOf(a, b);
      if codes == [] then (Skip, p)
      else (if p.channel > 0 then Run(p.channel, Characters(codes)) else Skip, p.(lastA := -1, lastB := -1))
  }

  lemma ParseValid(p: Memory, a: int, b: int)
    requires p.channel == -1 || p.channel == 1 || p.channel == 2
    ensures var (action, q) := Parse(p, a, b);
            && (action.Run? ==> ValidCommand(action.command) && (action.channel == 1 || action.channel == 2))
            && (action.Run? ==> action.command != ResetChannel)
            && (q.channel == -1 || q.channel == 1 || q.channel == 2)
  {
    hide ColorAt;
  }

  /** The same command or preamble three times in a row counts twice: the second is dropped, the third is not. */
  lemma RepeatedOnce(p: Memory, a: int, b: int)
    requires IsCommand(a, b) || IsPreamble(a, b)
    requires 0 <= a && 0 <= b && !Repeated(p, a, b)
    ensures var (first, q) := Parse(p, a, b);
            var (second, r) := Parse(q, a, b);
            var (third, s) := Parse(r, a, b);
            first.Run? && second == Skip && third == first && s == q
  {
    hide ColorAt, PacOf, CommandOf;
  }

  // ---- all data of a time

  datatype ParserValue = ParserValue(memory: Memory, channel1: ChannelValue, channel2: ChannelValue)

  ghost predicate ValidParser(v: ParserValue) {
    && ValidChannel(v.channel1) && ValidChannel(v.channel2)
    && (v.memory.channel == -1 || v.memory.channel == 1 || v.memory.channel == 2)
  }

  /** One pair of bytes; nothing comes of it when the source fails. */
  ghost function Step(v: ParserValue, a: int, b: int, t: int): (r: Option<ParserValue>)
    requires ValidParser(v)
    ensures r.Some? ==> ValidParser(r.value)
  {
    ParseValid(v.memory, a, b);
    var (action, q) := Parse(v.memory, a, b);
    if action == Skip then Some(v.(memory := q))
    else if action.channel == 1 then
      var c := Apply(v.channel1, action.command, t);
      if c.None? then None else
        ApplyValid(v.channel1, action.command, t);
        Some(v.(memory := q, channel1 := c.value))
    else
      var c := Apply(v.channel2, action.command, t);
      if c.None? then None else
        ApplyValid(v.channel2, action.command, t);
        Some(v.(memory := q, channel2 := c.value))
  }

  function Low7(x: int): int {
    x % 128
  }

  /** The byte after one, and 0 past the end. */
  function Second(bytes: seq<int>): int {
    if |bytes| > 1 then Low7(bytes[1]) else 0
  }

  ghost function FeedAll(v: ParserValue, bytes: seq<int>, t: int): (r: Option<ParserValue>)
    requires ValidParser(v)
    ensures r.Some? ==> ValidParser(r.value)
    decreases |bytes|
  {
    if bytes == [] then Some(v)
    else
      var w := Step(v, Low7(bytes[0]), Second(bytes), t);
      if w.None? then None else FeedAll(w.value, if |bytes| > 1 then bytes[2..] else [], t)
  }

  /** Both channels are in order, and have kept cues in step with updates since their last resets. */
  ghost predicate InStep(v: ParserValue, now: int, p1: Past, p2: Past) {
    Timely(v.channel1, now) && Timely(v.channel2, now) && Follows(v.channel1, p1) && Follows(v.channel2, p2)
  }

  lemma StepKeeps(v: ParserValue, a: int, b: int, now: int, t: int, p1: Past, p2: Past)
    requires ValidParser(v) && InStep(v, now, p1, p2) && now <= t && Step(v, a, b, t).Some?
    ensures InStep(Step(v, a, b, t).value, t, p1, p2)
  {
    hide Timely, Follows, Apply, ValidCommand, ValidChannel, Parse;
    ParseValid(v.memory, a, b);
    var (action, q) := Parse(v.memory, a, b);
    QuietTimely(v.channel1, v.channel1, now, t);
    QuietTimely(v.channel2, v.channel2, now, t);
    if action.Run? {
      if action.channel == 1 {
        ApplyTimely(v.channel1, action.command, now, t);
        ApplyFollows(v.channel1, action.command, t, p1);
      } else {
        ApplyTimely(v.channel2, action.command, now, t);
        ApplyFollows(v.channel2, action.command, t, p2);
      }
    }
  }

  /** Data at a time that is not before the last keeps both channels in order and in step. */
  lemma {:induction false} FeedKeeps(v: ParserValue, bytes: seq<int>, now: int, t: int, p1: Past, p2: Past)
    requires ValidParser(v) && InStep(v, now, p1, p2) && now <= t && FeedAll(v, bytes, t).Some?
    ensures InStep(FeedAll(v, bytes, t).value, t, p1, p2)
    decreases |bytes|
  {
    hide Step, InStep, ValidParser;
    if bytes == [] {
      LaterInStep(v, now, t, p1, p2);
    } else {
      StepKeeps(v, Low7(bytes[0]), Second(bytes), now, t, p1, p2);
      FeedKeeps(Step(v, Low7(bytes[0]), Second(bytes), t).value, if |bytes| > 1 then bytes[2..] else [], t, t, p1, p2);
    }
  }

  lemma LaterInStep(v: ParserValue, now: int, t: int, p1: Past, p2: Past)
    requires InStep(v, now, p1, p2) && now <= t
    ensures InStep(v, t, p1, p2)
  {
    hide Timely;
    QuietTimely(v.channel1, v.channel1, now, t);
    QuietTimely(v.channel2, v.channel2, now, t);
  }

  // ---- runs

  /** Data comes at a time, or everything is reset. */
  datatype Event = Data(time: int, bytes: seq<int>) | Clear

  ghost function Cleared(v: ParserValue): (r: ParserValue)
    requires ValidParser(v)
    ensures ValidParser(r)
  {
    ApplyValid(v.channel1, ResetChannel, 0);
    ApplyValid(v.channel2, ResetChannel, 0);
    ParserValue(v.memory.(lastA := -1, lastB := -1), Apply(v.channel1, ResetChannel, 0).value, Apply(v.channel2, ResetChannel, 0).value)
  }

  ghost function Happen(v: ParserValue, e: Event): (r: Option<ParserValue>)
    requires ValidParser(v)
    ensures r.Some? ==> ValidParser(r.value)
  {
    match e
    case Data(t, bytes) => FeedAll(v, bytes, t)
    case Clear => Some(Cleared(v))
  }

  ghost function HappenAll(v: ParserValue, events: seq<Event>): (r: Option<ParserValue>)
    requires ValidParser(v)
    ensures r.Some? ==> ValidParser(r.value)
    decreases |events|
  {
    if events == [] then Some(v)
    else
      var w := Happen(v, events[0]);
      if w.None? then None else HappenAll(w.value, events[1..])
  }

  ghost predicate InTime(events: seq<Event>, now: int)
    decreases |events|
  {
    events == []
    || (events[0].Clear? && InTime(events[1..], now))
    || (events[0].Data? && now <= events[0].time && InTime(events[1..], events[0].time))
  }

  function ChannelOf(v: ParserValue, ch: int): ChannelValue {
    if ch == 1 then v.channel1 else v.channel2
  }

  /** The numbers of the updates of a channel before which everything is reset. */
  ghost function ResetsOf(v: ParserValue, events: seq<Event>, ch: int): set<nat>
    requires ValidParser(v)
    decreases |events|
  {
    if events == [] then {}
    else
      var w := Happen(v, events[0]);
      (if events[0].Clear? then {|ChannelOf(v, ch).updates|} else {}) + if w.None? then {} else ResetsOf(w.value, events[1..], ch)
  }

  lemma ClearedKeeps(v: ParserValue, now: int, p1: Past, p2: Past)
    requires ValidParser(v) && InStep(v, now, p1, p2)
    ensures InStep(Cleared(v), now, PastAfter(v.channel1, ResetChannel, p1), PastAfter(v.channel2, ResetChannel, p2))
  {
    hide Timely, Follows, ValidChannel, NoContent;
    ApplyFollows(v.channel1, ResetChannel, 0, p1);
    ApplyFollows(v.channel2, ResetChannel, 0, p2);
    ResetTimely(v.channel1, Cleared(v).channel1, now, now);
    ResetTimely(v.channel2, Cleared(v).channel2, now, now);
  }

  lemma BothTold(v: ParserValue, now: int, p1: Past, p2: Past, r1: set<nat>, r2: set<nat>)
    requires InStep(v, now, p1, p2) && PastTold(p1, r1) && PastTold(p2, r2)
    ensures Captioned(v.channel1, r1) && Captioned(v.channel2, r2)
  {
    hide Follows, PastTold, Told, NoContent, InOrder;
    AllTold(v.channel1, p1, r1);
    AllTold(v.channel2, p2, r2);
  }

  lemma {:induction false} EventsKeep(v: ParserValue, events: seq<Event>, now: int, p1: Past, p2: Past, r1: set<nat>, r2: set<nat>)
    requires ValidParser(v) && InTime(events, now) && HappenAll(v, events).Some?
    requires InStep(v, now, p1, p2) && PastTold(p1, r1) && PastTold(p2, r2)
    ensures var w := HappenAll(v, events).value;
            Captioned(w.channel1, r1 + ResetsOf(v, events, 1)) && Captioned(w.channel2, r2 + ResetsOf(v, events, 2))
    decreases |events|
  {
    hide InStep, PastTold, Captioned, ValidParser, PastAfter, FeedAll, Cleared;
    if events == [] {
      BothTold(v, now, p1, p2, r1, r2);
      assert r1 + {} == r1 && r2 + {} == r2;
    } else {
      var w := Happen(v, events[0]).value;
      var rest := events[1..];
      match events[0]
      case Data(t, bytes) =>
        FeedKeeps(v, bytes, now, t, p1, p2);
        EventsKeep(w, rest, t, p1, p2, r1, r2);
        assert {} + ResetsOf(w, rest, 1) == ResetsOf(w, rest, 1) && {} + ResetsOf(w, rest, 2) == ResetsOf(w, rest, 2);
      case Clear =>
        ClearedKeeps(v, now, p1, p2);
        NextPasts(v, now, p1, p2, r1, r2);
        var n1, n2 := |v.channel1.updates|, |v.channel2.updates|;
        EventsKeep(w, rest, now, PastAfter(v.channel1, ResetChannel, p1), PastAfter(v.channel2, ResetChannel, p2), r1 + {n1}, r2 + {n2});
        assert r1 + {n1} + ResetsOf(w, rest, 1) == r1 + ({n1} + ResetsOf(w, rest, 1));
        assert r2 + {n2} + ResetsOf(w, rest, 2) == r2 + ({n2} + ResetsOf(w, rest, 2));
    }
  }

  lemma NextPasts(v: ParserValue, now: int, p1: Past, p2: Past, r1: set<nat>, r2: set<nat>)
    requires InStep(v, now, p1, p2) && PastTold(p1, r1) && PastTold(p2, r2)
    ensures PastTold(PastAfter(v.channel1, ResetChannel, p1), r1 + {|v.channel1.updates|})
    ensures PastTold(PastAfter(v.channel2, ResetChannel, p2), r2 + {|v.channel2.updates|})
  {
    hide Follows, Timely, PastTold, PastAfter;
    PastAfterTold(v.channel1, ResetChannel, p1, r1);
    PastAfterTold(v.channel2, ResetChannel, p2, r2);
  }

  /** Whatever bytes come, at times that do not decrease, and whenever everything is reset: on both channels cues are in
      order and tell what was shown. */
  lemma {:induction false} ParserRun(events: seq<Event>, now: int)
    requires InTime(events, now) && HappenAll(New(), events).Some?
    ensures var w := HappenAll(New(), events).value;
            Captioned(w.channel1, ResetsOf(New(), events, 1)) && Captioned(w.channel2, ResetsOf(New(), events, 2))
  {
    hide Captioned, PastTold, Follows, Timely, HappenAll, ResetsOf;
    NewTimely(now);
    NothingTold();
    EventsKeep(New(), events, now, Past([], []), Past([], []), {}, {});
    assert {} + ResetsOf(New(), events, 1) == ResetsOf(New(), events, 1);
    assert {} + ResetsOf(New(), events, 2) == ResetsOf(New(), events, 2);
  }

  function New(): (v: ParserValue)
    ensures ValidParser(v)
  {
    ParserValue(FRESH, NewChannel(), NewChannel())
  }

  // ---- the parser

  method NewChannels() returns (a: Channel, b: Channel)
    ensures fresh(a) && fresh(b) && a in a.Repr && b in b.Repr && fresh(a.Repr) && fresh(b.Repr) && a.Repr !! b.Repr
    ensures a.Valid() && b.Valid() && a.Value() == b.Value() == NewChannel()
  {
    hide a.Valid, a.Value, NewChannel;
    a := new Channel();
    b := new Channel();
  }

  class Parser {
    const channel1: Channel
    const channel2: Channel
    var memory: Memory

    /** The channels have nothing in common. */
    ghost predicate Valid()
      reads this, channel1.Repr, channel2.Repr, channel1, channel2
    {
      && channel1.Valid() && channel2.Valid() && channel1 in channel1.Repr && channel2 in channel2.Repr
      && channel1.Repr !! channel2.Repr && this !in channel1.Repr && this !in channel2.Repr
      && (memory.channel == -1 || memory.channel == 1 || memory.channel == 2)
    }

    ghost function Value(): (v: ParserValue)
      requires Valid()
      reads this, channel1.Repr, channel2.Repr, channel1, channel2
      ensures ValidParser(v)
    {
      ParserValue(memory, channel1.Value(), channel2.Value())
    }

    constructor ()
      ensures Valid() && fresh(channel1.Repr) && fresh(channel2.Repr)
      ensures Value() == New()
    {
      var a, b := NewChannels();
      channel1, channel2, memory := a, b, FRESH;
      new;
      hide channel1.Valid, channel1.Value, NewChannel, ValidParser, ValidChannel;
      assert channel1.Valid() && channel2.Valid();
      assert channel1.Value() == channel2.Value() == NewChannel();
    }

    method Execute(ch: int, m: Command, t: int) returns (ok: bool)
      requires Valid() && ValidCommand(m) && (ch == 1 || ch == 2)
      modifies channel1.Repr, channel2.Repr
      ensures memory == old(memory)
      ensures ok <==> Apply(if ch == 1 then old(channel1.Value()) else old(channel2.Value()), m, t).Some?
      ensures ok && ch == 1 ==> Valid() && channel1.Value() == Apply(old(channel1.Value()), m, t).value
                                && channel2.Value() == old(channel2.Value())
      ensures ok && ch == 2 ==> Valid() && channel2.Value() == Apply(old(channel2.Value()), m, t).value
                                && channel1.Value() == old(channel1.Value())
    {
      hide channel1.Valid, channel1.Value, Apply;
      if ch == 1 {
        ok := channel1.Execute(m, t);
      } else {
        ok := channel2.Execute(m, t);
      }
    }

    /** One pair of bytes; false when the source fails. */
    method Pair(a: int, b: int, t: int) returns (ok: bool)
      requires Valid()
      modifies this, channel1.Repr, channel2.Repr
      ensures ok <==> Step(old(Value()), a, b, t).Some?
      ensures ok ==> Valid() && Value() == Step(old(Value()), a, b, t).value
    {
      hide channel1.Valid, channel1.Value, Apply, Parse;
      ParseValid(memory, a, b);
      var parsed := Parse(memory, a, b);
      ok := true;
      if parsed.0.Run? {
        ok := Execute(parsed.0.channel, parsed.0.command, t);
      }
      memory := parsed.1;
    }

    /** All pairs of bytes of a time. Data at times that do not decrease keeps both channels in order. */
    method AddData(t: int, bytes: seq<int>) returns (ok: bool)
      requires Valid()
      modifies this, channel1.Repr, channel2.Repr
      ensures ok <==> FeedAll(old(Value()), bytes, t).Some?
      ensures ok ==> Valid() && Value() == FeedAll(old(Value()), bytes, t).value
      ensures ok ==> forall now, p1, p2 :: now <= t && InStep(old(Value()), now, p1, p2) ==> InStep(Value(), t, p1, p2)
    {
      hide Step, Valid, Value, InStep;
      assert bytes[0..] == bytes;
      var i := 0;
      while i < |bytes|
        invariant 0 <= i && Valid()
        invariant FeedAll(Value(), if i <= |bytes| then bytes[i..] else [], t) == FeedAll(old(Value()), bytes, t)
        decreases |bytes| - i
      {
        ghost var rest := bytes[i..];
        var a := Low7(bytes[i]);
        var b := if i + 1 < |bytes| then Low7(bytes[i + 1]) else 0;
        assert b == Second(rest) && (|rest| > 1 ==> rest[2..] == bytes[i + 2..]);
        ok := Pair(a, b, t);
        if !ok {
          return;
        }
        i := i + 2;
      }
      ok := true;
      forall now, p1, p2 | now <= t && InStep(old(Value()), now, p1, p2)
        ensures InStep(Value(), t, p1, p2)
      {
        FeedKeeps(old(Value()), bytes, now, t, p1, p2);
      }
    }

    method ResetAll()
      requires Valid()
      modifies this, channel1.Repr, channel2.Repr
      ensures Valid() && Value() == Cleared(old(Value()))
    {
      hide channel1.Valid, channel1.Value;
      var _ := Execute(1, ResetChannel, 0);
      var _ := Execute(2, ResetChannel, 0);
      memory := memory.(lastA := -1, lastB := -1);
    }
  }
}
