/** Sorting the packets of an MPEG transport stream by the elementary stream they belong to, while the tables that
    say which is which are still being found (sections 2.4.3.2 and 2.4.4 of ISO/IEC 13818-1). */
module TsDemux {
  import opened Basics

  const PACKET: int := 188

  /** What has been collected of a PES packet: the payloads, and the size as it is counted. */
  datatype Stream = Stream(chunks: seq<seq<Byte>>, size: int)

  // ---- one packet

  /** The payload of a packet, if it has one, begins at an offset that a damaged adaptation field may put behind the
      end of the packet. */
  datatype Packet = Unsynced | NoPayload | Payload(starts: bool, pid: int, offset: int)

  function PacketAt(data: seq<Byte>, start: nat): (p: Packet)
    requires start + PACKET <= |data|
    ensures p.Payload? ==> 0 <= p.pid < 8192 && start + 4 <= p.offset
  {
    if data[start] != 0x47 then Unsynced
    else
      var stt := data[start + 1] / 64 % 2 == 1;
      var high: int, low: int := data[start + 1], data[start + 2];
      var pid := high % 32 * 256 + low;
      if data[start + 3] / 16 % 4 > 1 then
        var offset: int := start + 5 + data[start + 4];
        if offset == start + PACKET then NoPayload else Payload(stt, pid, offset)
      else Payload(stt, pid, start + 4)
  }

  /** data.subarray */
  function Sub(data: seq<Byte>, from: nat, end: nat): seq<Byte>
    requires end <= |data|
  {
    if from <= end then data[from..end] else []
  }

  // ---- tables

  /** A table that starts in a packet is preceded by the distance to it. */
  function TableAt(data: seq<Byte>, p: Packet): int
    requires p.Payload?
  {
    if p.starts then p.offset + At(data, p.offset) + 1 else p.offset
  }

  function ParsePat(data: seq<Byte>, offset: int): (pid: int)
    ensures 0 <= pid < 8192
  {
    At(data, offset + 10) % 32 * 256 + At(data, offset + 11)
  }

  datatype Pids = Pids(avc: int, audio: int, id3: int, isAac: bool)

  /** Which streams this demuxer takes. */
  datatype Config = Config(mpegSupported: bool, sampleAes: bool)

  /** One entry of the table; the first of each kind counts. */
  function Entry(c: Config, streamType: Byte, pid: int, r: Pids): Pids {
    if streamType == 0x0f || (streamType == 0xcf && c.sampleAes) then (if r.audio == -1 then r.(audio := pid) else r)
    else if streamType == 0x15 then (if r.id3 == -1 then r.(id3 := pid) else r)
    else if streamType == 0x1b || (streamType == 0xdb && c.sampleAes) then (if r.avc == -1 then r.(avc := pid) else r)
    else if (streamType == 0x03 || streamType == 0x04) && c.mpegSupported && r.audio == -1 then r.(audio := pid, isAac := false)
    else r
  }

  function Entries(c: Config, data: seq<Byte>, offset: int, tableEnd: int, r: Pids): Pids
    decreases tableEnd - offset
  {
    if offset >= tableEnd then r
    else
      var pid := At(data, offset + 1) % 32 * 256 + At(data, offset + 2);
      var length := At(data, offset + 3) % 16 * 256 + At(data, offset + 4) + 5;
      Entries(c, data, offset + length, tableEnd, Entry(c, At(data, offset), pid, r))
  }

  function ParsePmt(c: Config, data: seq<Byte>, offset: int): Pids {
    var sectionLength := At(data, offset + 1) % 16 * 256 + At(data, offset + 2);
    var programInfoLength := At(data, offset + 10) % 16 * 256 + At(data, offset + 11);
    Entries(c, data, offset + 12 + programInfoLength, offset + 3 + sectionLength - 4, Pids(-1, -1, -1, true))
  }

  /** The loop over the entries. */
  method ReadPmt(c: Config, data: seq<Byte>, offset: int) returns (r: Pids)
    ensures r == ParsePmt(c, data, offset)
  {
    hide Entry;
    var sectionLength := At(data, offset + 1) % 16 * 256 + At(data, offset + 2);
    var tableEnd := offset + 3 + sectionLength - 4;
    var programInfoLength := At(data, offset + 10) % 16 * 256 + At(data, offset + 11);
    r := Pids(-1, -1, -1, true);
    var at := offset + 12 + programInfoLength;
    while at < tableEnd
      invariant Entries(c, data, at, tableEnd, r) == ParsePmt(c, data, offset)
    {
      r := Entry(c, At(data, at), At(data, at + 1) % 32 * 256 + At(data, at + 2), r);
      at := at + At(data, at + 3) % 16 * 256 + At(data, at + 4) + 5;
    }
  }

  // ---- collecting

  /** One elementary stream: what has been collected of the current PES packet, and what has been handed on to be
      parsed. */
  datatype Flow = Flow(open: Option<Stream>, done: seq<Stream>)

  /** What one packet adds: it may begin a new PES packet. */
  datatype Item = Item(starts: bool, chunk: seq<Byte>, size: int)

  function Fed(f: Flow, i: Item): Flow {
    var g := if i.starts then f.(open := Some(Stream([], 0)), done := if f.open.Some? then f.done + [f.open.value] else f.done) else f;
    if g.open.Some? then g.(open := Some(Stream(g.open.value.chunks + [i.chunk], g.open.value.size + i.size))) else g
  }

  function FedAll(f: Flow, items: seq<Item>): Flow
    decreases |items|
  {
    if items == [] then f else FedAll(Fed(f, items[0]), items[1..])
  }

  /** The identifiers that are looked for, those found last, and what has been collected. */
  datatype State = State(pmtParsed: bool, pmtId: int, pids: Pids, tracks: Pids, avc: Flow, audio: Flow, id3: Flow, unknownPids: bool)

  /** An identifier that is missing does not take the place of one found before. */
  function Found(tracks: Pids, r: Pids): Pids {
    Pids(if r.avc > 0 then r.avc else tracks.avc, if r.audio > 0 then r.audio else tracks.audio,
         if r.id3 > 0 then r.id3 else tracks.id3, if r.audio > 0 then r.isAac else tracks.isAac)
  }

  function ItemOf(data: seq<Byte>, start: nat, p: Packet): Item
    requires start + PACKET <= |data| && p.Payload? && start <= p.offset
  {
    Item(p.starts, Sub(data, p.offset, start + PACKET), start + PACKET - p.offset)
  }

  /** A program map table has been found. */
  function Mapped(s: State, r: Pids): State {
    var t := Found(s.tracks, r);
    State(true, s.pmtId, r.(isAac := t.isAac), t, s.avc, s.audio, s.id3, s.unknownPids && s.pmtParsed)
  }

  /** One packet; the loop starts over when the first map comes after packets that nothing was known of. */
  function Step(c: Config, data: seq<Byte>, s: State, start: nat): (r: (State, bool))
    requires start + PACKET <= |data|
    ensures r.1 ==> !s.pmtParsed && r.0.pmtParsed
    ensures s.pmtParsed ==> r.0.pmtParsed
  {
    var p := PacketAt(data, start);
    if !p.Payload? then (s, false)
    else if p.pid == s.pids.avc then (s.(avc := Fed(s.avc, ItemOf(data, start, p))), false)
    else if p.pid == s.pids.audio then (s.(audio := Fed(s.audio, ItemOf(data, start, p))), false)
    else if p.pid == s.pids.id3 then (s.(id3 := Fed(s.id3, ItemOf(data, start, p))), false)
    else if p.pid == 0 then (s.(pmtId := ParsePat(data, TableAt(data, p))), false)
    else if p.pid == s.pmtId then (Mapped(s, ParsePmt(c, data, TableAt(data, p))), s.unknownPids && !s.pmtParsed)
    else if p.pid == 17 || p.pid == 0x1fff then (s, false)
    else (s.(unknownPids := true), false)
  }

  function Loop(c: Config, data: seq<Byte>, len: nat, s: State, start: nat): (r: State)
    requires len <= |data| && len % PACKET == 0 && start % PACKET == 0
    decreases if s.pmtParsed then 0 else 1, len - start
  {
    if start >= len then s
    else
      var r := Step(c, data, s, start);
      Loop(c, data, len, r.0, if r.1 then 0 else start + PACKET)
  }

  /** How often the loop starts over. */
  function Restarts(c: Config, data: seq<Byte>, len: nat, s: State, start: nat): (n: nat)
    requires len <= |data| && len % PACKET == 0 && start % PACKET == 0
    ensures n <= if s.pmtParsed then 0 else 1
    decreases if s.pmtParsed then 0 else 1, len - start
  {
    if start >= len then 0
    else
      var r := Step(c, data, s, start);
      if r.1 then 1 + Restarts(c, data, len, r.0, 0) else Restarts(c, data, len, r.0, start + PACKET)
  }

  // ---- the plain filter

  /** All packets with a payload and the given identifier, in order. */
  function Filtered(data: seq<Byte>, len: nat, pid: int, start: nat): seq<Item>
    requires len <= |data| && len % PACKET == 0 && start % PACKET == 0
    decreases len - start
  {
    if start >= len then []
    else
      var p := PacketAt(data, start);
      (if p.Payload? && p.pid == pid then [ItemOf(data, start, p)] else []) + Filtered(data, len, pid, start + PACKET)
  }

  /** What the tables of a stream say, all of them alike. */
  datatype Program = Program(pmtId: int, pids: Pids)

  ghost predicate Agrees(c: Config, data: seq<Byte>, g: Program, start: nat)
    requires start + PACKET <= |data|
  {
    var p := PacketAt(data, start);
    && (p.Payload? && p.pid == 0 ==> ParsePat(data, TableAt(data, p)) == g.pmtId)
    && (p.Payload? && p.pid == g.pmtId ==> ParsePmt(c, data, TableAt(data, p)) == g.pids)
  }

  /** No table is an elementary stream, none of these shares its identifier, and none has a reserved one. */
  ghost predicate Distinct(g: Program) {
    && g.pmtId > 0
    && OwnPid(g.pids.avc, g.pmtId) && OwnPid(g.pids.audio, g.pmtId) && OwnPid(g.pids.id3, g.pmtId)
    && (g.pids.avc == -1 || (g.pids.avc != g.pids.audio && g.pids.avc != g.pids.id3))
    && (g.pids.audio == -1 || g.pids.audio != g.pids.id3)
  }

  ghost predicate OwnPid(pid: int, pmtId: int) {
    pid == -1 || (pid > 0 && pid != pmtId && pid != 17 && pid != 0x1fff)
  }

  ghost predicate Consistent(c: Config, data: seq<Byte>, len: nat, g: Program)
    requires len <= |data|
  {
    Distinct(g) && forall start: nat :: start % PACKET == 0 && start + PACKET <= len ==> Agrees(c, data, g, start)
  }

  ghost predicate HasPid(data: seq<Byte>, start: nat, pid: int)
    requires start + PACKET <= |data|
  {
    var p := PacketAt(data, start);
    p.Payload? && p.pid == pid
  }

  ghost predicate Position(len: nat, i: nat) {
    i % PACKET == 0 && i + PACKET <= len
  }

  /** A map comes after an association table. */
  ghost predicate MapAfterPat(data: seq<Byte>, len: nat, g: Program)
    requires len <= |data| && len % PACKET == 0
  {
    exists i: nat, j: nat :: i < j && Position(len, i) && Position(len, j) && HasPid(data, i, 0) && HasPid(data, j, g.pmtId)
  }

  // ---- once the tables are known

  ghost predicate Knows(s: State, g: Program) {
    && s.pmtParsed && s.pmtId == g.pmtId
    && s.pids.avc == g.pids.avc && s.pids.audio == g.pids.audio && s.pids.id3 == g.pids.id3
  }

  /** What each stream collects, when exactly its packets are fed to it. */
  ghost predicate Follows(data: seq<Byte>, len: nat, g: Program, start: nat, s: State, r: State)
    requires len <= |data| && len % PACKET == 0 && start % PACKET == 0
  {
    && r.avc == FedAll(s.avc, Filtered(data, len, g.pids.avc, start))
    && r.audio == FedAll(s.audio, Filtered(data, len, g.pids.audio, start))
    && r.id3 == FedAll(s.id3, Filtered(data, len, g.pids.id3, start))
  }

  /** With the tables known, each stream collects exactly its packets. */
  lemma {:induction false} KnownFollows(c: Config, data: seq<Byte>, len: nat, g: Program, s: State, start: nat)
    requires len <= |data| && len % PACKET == 0 && start % PACKET == 0 && Consistent(c, data, len, g) && Knows(s, g)
    ensures var r := Loop(c, data, len, s, start); Follows(data, len, g, start, s, r) && Knows(r, g)
    decreases len - start
  {
    hide Step, Consistent, FedAt;
    if start < len {
      StepKnown(c, data, len, g, s, start);
      KnownFollows(c, data, len, g, Step(c, data, s, start).0, start + PACKET);
      FedOne(s.avc, data, len, g.pids.avc, start);
      FedOne(s.audio, data, len, g.pids.audio, start);
      FedOne(s.id3, data, len, g.pids.id3, start);
    }
  }

  function FedAt(f: Flow, data: seq<Byte>, start: nat, pid: int): Flow
    requires start + PACKET <= |data|
  {
    var p := PacketAt(data, start);
    if p.Payload? && p.pid == pid then Fed(f, ItemOf(data, start, p)) else f
  }

  lemma StepKnown(c: Config, data: seq<Byte>, len: nat, g: Program, s: State, start: nat)
    requires start + PACKET <= len <= |data| && start % PACKET == 0 && Consistent(c, data, len, g) && Knows(s, g)
    ensures var r := Step(c, data, s, start);
            && !r.1 && Knows(r.0, g)
            && r.0.avc == FedAt(s.avc, data, start, g.pids.avc)
            && r.0.audio == FedAt(s.audio, data, start, g.pids.audio)
            && r.0.id3 == FedAt(s.id3, data, start, g.pids.id3)
  {
    hide ParsePat, ParsePmt, ItemOf, Fed, TableAt;
    assert Agrees(c, data, g, start);
  }

  lemma FedOne(f: Flow, data: seq<Byte>, len: nat, pid: int, start: nat)
    requires len <= |data| && len % PACKET == 0 && start % PACKET == 0 && start < len
    ensures FedAll(f, Filtered(data, len, pid, start))
         == FedAll(FedAt(f, data, start, pid), Filtered(data, len, pid, start + PACKET))
  {
    var rest := Filtered(data, len, pid, start + PACKET);
    if HasPid(data, start, pid) {
      var i := ItemOf(data, start, PacketAt(data, start));
      assert ([i] + rest)[1..] == rest;
    } else {
      assert [] + rest == rest;
    }
  }

  // ---- while the tables are not known

  ghost predicate Nowhere(data: seq<Byte>, len: nat, g: Program, start: nat)
    requires len <= |data| && len % PACKET == 0 && start % PACKET == 0
  {
    && Filtered(data, len, g.pids.avc, 0) == Filtered(data, len, g.pids.avc, start)
    && Filtered(data, len, g.pids.audio, 0) == Filtered(data, len, g.pids.audio, start)
    && Filtered(data, len, g.pids.id3, 0) == Filtered(data, len, g.pids.id3, start)
  }

  /** No map has been found; as long as only packets of no stream have been seen, nothing has been missed. */
  ghost predicate Searching(data: seq<Byte>, len: nat, g: Program, s: State, start: nat)
    requires len <= |data| && len % PACKET == 0 && start % PACKET == 0
  {
    && !s.pmtParsed && s.pids.avc == -1 && s.pids.audio == -1 && s.pids.id3 == -1
    && (s.pmtId == -1 || s.pmtId == g.pmtId)
    && (s.unknownPids || Nowhere(data, len, g, start))
  }

  /** A map comes after an association table, or after one was seen before. */
  ghost predicate MapComes(data: seq<Byte>, len: nat, g: Program, seen: bool, start: nat)
    requires len <= |data| && len % PACKET == 0 && start % PACKET == 0
    decreases len - start
  {
    start < len
    && (if HasPid(data, start, 0) then MapComes(data, len, g, true, start + PACKET)
        else (seen && HasPid(data, start, g.pmtId)) || MapComes(data, len, g, seen, start + PACKET))
  }

  lemma FilterSkips(data: seq<Byte>, len: nat, pid: int, start: nat)
    requires len <= |data| && len % PACKET == 0 && start % PACKET == 0 && start < len && !HasPid(data, start, pid)
    ensures Filtered(data, len, pid, start) == Filtered(data, len, pid, start + PACKET)
  {
    assert [] + Filtered(data, len, pid, start + PACKET) == Filtered(data, len, pid, start + PACKET);
  }

  lemma StillNowhere(data: seq<Byte>, len: nat, g: Program, start: nat)
    requires len <= |data| && len % PACKET == 0 && start % PACKET == 0 && start < len && Nowhere(data, len, g, start)
    requires !HasPid(data, start, g.pids.avc) && !HasPid(data, start, g.pids.audio) && !HasPid(data, start, g.pids.id3)
    ensures Nowhere(data, len, g, start + PACKET)
  {
    hide HasPid;
    FilterSkips(data, len, g.pids.avc, start);
    FilterSkips(data, len, g.pids.audio, start);
    FilterSkips(data, len, g.pids.id3, start);
  }

  lemma StepSearching(c: Config, data: seq<Byte>, len: nat, g: Program, s: State, start: nat)
    requires len <= |data| && len % PACKET == 0 && start % PACKET == 0 && start < len
    requires Consistent(c, data, len, g) && Searching(data, len, g, s, start)
    ensures var r := Step(c, data, s, start);
            && r.0.avc == s.avc && r.0.audio == s.audio && r.0.id3 == s.id3
            && if s.pmtId == g.pmtId && HasPid(data, start, g.pmtId)
               then Knows(r.0, g) && r.1 == s.unknownPids
               else (!r.1 && Searching(data, len, g, r.0, start + PACKET)
                     && (r.0.pmtId == g.pmtId <==> s.pmtId == g.pmtId || HasPid(data, start, 0)))
  {
    hide ParsePat, ParsePmt, TableAt, Filtered, PacketAt, Nowhere;
    assert Agrees(c, data, g, start);
    assert PacketAt(data, start).Payload? ==> PacketAt(data, start).pid >= 0;
    var r := Step(c, data, s, start);
    if !(s.pmtId == g.pmtId && HasPid(data, start, g.pmtId)) && !r.0.unknownPids {
      StillNowhere(data, len, g, start);
    }
  }

  /** Nothing is lost while the tables are looked for: when the first map is found, either nothing has been missed, or
      the loop starts over. */
  lemma {:induction false} SearchFollows(c: Config, data: seq<Byte>, len: nat, g: Program, s: State, start: nat)
    requires len <= |data| && len % PACKET == 0 && start % PACKET == 0
    requires Consistent(c, data, len, g) && Searching(data, len, g, s, start)
    ensures var r := Loop(c, data, len, s, start);
            if MapComes(data, len, g, s.pmtId == g.pmtId, start) then Follows(data, len, g, 0, s, r) && Knows(r, g)
            else r.avc == s.avc && r.audio == s.audio && r.id3 == s.id3 && !r.pmtParsed
    decreases len - start
  {
    hide Step, Consistent, Filtered, HasPid, FedAll;
    if start < len {
      StepSearching(c, data, len, g, s, start);
      var r := Step(c, data, s, start);
      assert HasPid(data, start, 0) ==> !HasPid(data, start, g.pmtId) by {
        NotBoth(c, data, len, g, start);
      }
      if s.pmtId == g.pmtId && HasPid(data, start, g.pmtId) {
        if r.1 {
          KnownFollows(c, data, len, g, r.0, 0);
        } else {
          KnownFollows(c, data, len, g, r.0, start + PACKET);
          NothingMissed(c, data, len, g, s, start);
        }
      } else {
        SearchFollows(c, data, len, g, r.0, start + PACKET);
      }
    }
  }

  lemma NotBoth(c: Config, data: seq<Byte>, len: nat, g: Program, start: nat)
    requires start + PACKET <= len <= |data| && Consistent(c, data, len, g)
    ensures HasPid(data, start, 0) ==> !HasPid(data, start, g.pmtId)
  {
  }

  lemma NothingMissed(c: Config, data: seq<Byte>, len: nat, g: Program, s: State, start: nat)
    requires len <= |data| && len % PACKET == 0 && start % PACKET == 0 && start < len
    requires Consistent(c, data, len, g) && Nowhere(data, len, g, start) && HasPid(data, start, g.pmtId)
    ensures Nowhere(data, len, g, start + PACKET)
  {
    hide Filtered, Nowhere;
    StillNowhere(data, len, g, start);
  }

  /** A demuxer that has seen nothing. */
  function Fresh(): State {
    State(false, -1, Pids(-1, -1, -1, true), Pids(-1, -1, -1, true), Flow(None, []), Flow(None, []), Flow(None, []), false)
  }

  /** On a fresh demuxer each stream collects exactly the packets with its identifier, from the first packet on and
      wherever the tables are, if and only if some map comes after an association table; otherwise nothing at all. */
  lemma {:induction false} FreshFollows(c: Config, data: seq<Byte>, len: nat, g: Program)
    requires len <= |data| && len % PACKET == 0 && Consistent(c, data, len, g)
    ensures var r := Loop(c, data, len, Fresh(), 0);
            if MapAfterPat(data, len, g) then Follows(data, len, g, 0, Fresh(), r) && Knows(r, g)
            else r.avc == r.audio == r.id3 == Flow(None, []) && !r.pmtParsed
  {
    hide Loop, Filtered, Consistent;
    SearchFollows(c, data, len, g, Fresh(), 0);
    ProgramDistinct(c, data, len, g);
    MapComesAfter(data, len, g);
  }

  lemma ProgramDistinct(c: Config, data: seq<Byte>, len: nat, g: Program)
    requires len <= |data| && Consistent(c, data, len, g)
    ensures g.pmtId > 0
  {
  }

  // ---- from one fragment to the next

  /** The identifiers of the streams are kept for the next fragment once they are known, and none before. */
  ghost predicate Kept(s: State, g: Program) {
    && (s.pmtId == -1 || s.pmtId == g.pmtId)
    && (if s.pmtParsed then Same(s.tracks, g.pids) else s.tracks.avc == s.tracks.audio == s.tracks.id3 == -1)
  }

  ghost predicate Same(p: Pids, q: Pids) {
    p.avc == q.avc && p.audio == q.audio && p.id3 == q.id3 && (q.audio > 0 ==> p.isAac == q.isAac)
  }

  lemma StepKept(c: Config, data: seq<Byte>, len: nat, g: Program, s: State, start: nat)
    requires start + PACKET <= len <= |data| && start % PACKET == 0 && Consistent(c, data, len, g) && Kept(s, g)
    ensures Kept(Step(c, data, s, start).0, g)
  {
    hide ParsePat, ParsePmt, TableAt, Fed, ItemOf;
    assert Agrees(c, data, g, start);
  }

  lemma {:induction false} LoopKept(c: Config, data: seq<Byte>, len: nat, g: Program, s: State, start: nat)
    requires len <= |data| && len % PACKET == 0 && start % PACKET == 0 && Consistent(c, data, len, g) && Kept(s, g)
    ensures Kept(Loop(c, data, len, s, start), g)
    decreases if s.pmtParsed then 0 else 1, len - start
  {
    hide Step, Consistent, Kept;
    if start < len {
      var r := Step(c, data, s, start);
      StepKept(c, data, len, g, s, start);
      LoopKept(c, data, len, g, r.0, if r.1 then 0 else start + PACKET);
    }
  }

  ghost predicate MapFrom(data: seq<Byte>, len: nat, g: Program, seen: bool, start: nat)
    requires len <= |data| && len % PACKET == 0
  {
    || (seen && exists j: nat :: start <= j && Position(len, j) && HasPid(data, j, g.pmtId))
    || exists i: nat, j: nat :: start <= i < j && Position(len, i) && Position(len, j) && HasPid(data, i, 0) && HasPid(data, j, g.pmtId)
  }

  lemma {:induction false} MapComesFrom(data: seq<Byte>, len: nat, g: Program, seen: bool, start: nat)
    requires len <= |data| && len % PACKET == 0 && start % PACKET == 0 && g.pmtId != 0
    ensures MapComes(data, len, g, seen, start) <==> MapFrom(data, len, g, seen, start)
    decreases len - start
  {
    hide HasPid;
    if start < len {
      assert Position(len, start);
      NotTwo(data, start, g.pmtId);
      MapComesFrom(data, len, g, seen || HasPid(data, start, 0), start + PACKET);
      NextPosition(len, start);
    }
  }

  lemma NotTwo(data: seq<Byte>, start: nat, pid: int)
    requires start + PACKET <= |data| && pid != 0
    ensures !(HasPid(data, start, 0) && HasPid(data, start, pid))
  {
  }

  lemma NextPosition(len: nat, start: nat)
    requires start % PACKET == 0
    ensures forall i: nat :: Position(len, i) && start <= i ==> i == start || start + PACKET <= i
  {
  }

  lemma {:induction false} MapComesAfter(data: seq<Byte>, len: nat, g: Program)
    requires len <= |data| && len % PACKET == 0 && g.pmtId > 0
    ensures MapComes(data, len, g, false, 0) <==> MapAfterPat(data, len, g)
  {
    hide HasPid, MapComes;
    MapComesFrom(data, len, g, false, 0);
  }

  // ---- as it is computed

  class Track {
    var id: int
    var pesData: Option<Stream>

    /** The PES packets handed on to be parsed so far. */
    var handed: seq<Stream>

    constructor ()
      ensures id == -1 && pesData == None && handed == []
    {
      id, pesData, handed := -1, None, [];
    }

    /** What is collected of a track at the end: a PES packet that is complete is handed on, another one is kept for
        more data to come. */
    ghost predicate Closed(f: Flow, before: seq<Stream>, parses: Stream -> bool)
      reads this
    {
      if f.open.Some? && parses(f.open.value) then pesData == None && handed == before + f.done + [f.open.value]
      else pesData == f.open && handed == before + f.done
    }

    method Close(f: Flow, parses: Stream -> bool)
      modifies this`pesData, this`handed
      ensures Closed(f, old(handed), parses)
    {
      handed := handed + f.done;
      if f.open.Some? && parses(f.open.value) {
        handed := handed + [f.open.value];
        pesData := None;
      } else {
        pesData := f.open;
      }
    }
  }

  /** What one packet does to the stream it belongs to. */
  method Collect(f: Flow, stt: bool, data: seq<Byte>, offset: nat, end: nat) returns (g: Flow)
    requires end <= |data|
    ensures g == Fed(f, Item(stt, Sub(data, offset, end), end - offset))
  {
    g := f;
    if stt {
      if g.open.Some? {
        g := g.(done := g.done + [g.open.value]);
      }
      g := g.(open := Some(Stream([], 0)));
    }
    if g.open.Some? {
      g := g.(open := Some(Stream(g.open.value.chunks + [Sub(data, offset, end)], g.open.value.size + end - offset)));
    }
  }

  class Demuxer {
    const config: Config
    const avcTrack: Track
    const audioTrack: Track
    const id3Track: Track
    var pmtParsed: bool
    var pmtId: int
    var isAac: bool

    ghost predicate Valid() {
      avcTrack != audioTrack && avcTrack != id3Track && audioTrack != id3Track
    }

    /** Where the loop starts from. */
    ghost function Start(): State
      reads this, avcTrack, audioTrack, id3Track
    {
      var ids := Pids(avcTrack.id, audioTrack.id, id3Track.id, isAac);
      State(pmtParsed, pmtId, ids, ids, Flow(avcTrack.pesData, []), Flow(audioTrack.pesData, []), Flow(id3Track.pesData, []), false)
    }

    constructor (config: Config)
      ensures Valid() && Start() == Fresh() && this.config == config
      ensures fresh(avcTrack) && fresh(audioTrack) && fresh(id3Track)
      ensures avcTrack.handed == audioTrack.handed == id3Track.handed == []
    {
      this.config := config;
      avcTrack := new Track();
      audioTrack := new Track();
      id3Track := new Track();
      pmtParsed, pmtId, isAac := false, -1, true;
    }

    /** The identifiers as they are kept from one fragment to the next. */
    ghost predicate Keeps(r: State)
      reads this, avcTrack, audioTrack, id3Track
    {
      pmtParsed == r.pmtParsed && pmtId == r.pmtId && Pids(avcTrack.id, audioTrack.id, id3Track.id, isAac) == r.tracks
    }

    /** A program map table has been found. */
    method Map(r: Pids)
      requires Valid()
      modifies this, avcTrack`id, audioTrack`id, id3Track`id
      ensures pmtParsed && pmtId == old(pmtId)
      ensures Pids(avcTrack.id, audioTrack.id, id3Track.id, isAac) == Found(old(Pids(avcTrack.id, audioTrack.id, id3Track.id, isAac)), r)
    {
      if r.avc > 0 {
        avcTrack.id := r.avc;
      }
      if r.audio > 0 {
        audioTrack.id := r.audio;
        isAac := r.isAac;
      }
      if r.id3 > 0 {
        id3Track.id := r.id3;
      }
      pmtParsed := true;
    }

    /** append: the loop over the packets ends on every input, although it may start over. */
    method Append(data: seq<Byte>, parses: Stream -> bool)
      requires Valid()
      modifies this, avcTrack, audioTrack, id3Track
      ensures Valid()
      ensures var r := Loop(config, data, |data| - |data| % PACKET, old(Start()), 0);
              && Keeps(r)
              && avcTrack.Closed(r.avc, old(avcTrack.handed), parses)
              && audioTrack.Closed(r.audio, old(audioTrack.handed), parses)
              && id3Track.Closed(r.id3, old(id3Track.handed), parses)
    {
      hide ParsePat, ParsePmt, Fed, Found, PacketAt, avcTrack.Closed;
      var avcId, audioId, id3Id := avcTrack.id, audioTrack.id, id3Track.id;
      var avc, audio, id3 := Flow(avcTrack.pesData, []), Flow(audioTrack.pesData, []), Flow(id3Track.pesData, []);
      var unknownPids := false;
      var len := |data| - |data| % PACKET;
      var start := 0;
      while start < len
        invariant 0 <= start && start % PACKET == 0 && len % PACKET == 0 && len <= |data|
        invariant Loop(config, data, len, Now(avcId, audioId, id3Id, avc, audio, id3, unknownPids), start) == Loop(config, data, len, old(Start()), 0)
        invariant avcTrack.handed == old(avcTrack.handed) && audioTrack.handed == old(audioTrack.handed) && id3Track.handed == old(id3Track.handed)
        decreases if pmtParsed then 0 else 1, len - start
      {
        ghost var s, at := Now(avcId, audioId, id3Id, avc, audio, id3, unknownPids), start;
        var p := PacketAt(data, start);
        if p.Payload? {
          var end := start + PACKET;
          if p.pid == avcId {
            avc := Collect(avc, p.starts, data, p.offset, end);
          } else if p.pid == audioId {
            audio := Collect(audio, p.starts, data, p.offset, end);
          } else if p.pid == id3Id {
            id3 := Collect(id3, p.starts, data, p.offset, end);
          } else if p.pid == 0 {
            pmtId := ParsePat(data, TableAt(data, p));
          } else if p.pid == pmtId {
            var parsedPids := ReadPmt(config, data, TableAt(data, p));
            avcId, audioId, id3Id := parsedPids.avc, parsedPids.audio, parsedPids.id3;
            if unknownPids && !pmtParsed {
              unknownPids := false;
              start := -PACKET;
            }
            Map(parsedPids);
          } else if p.pid == 17 || p.pid == 0x1fff {
          } else {
            unknownPids := true;
          }
        }
        start := start + PACKET;
      }
      avcTrack.Close(avc, parses);
      audioTrack.Close(audio, parses);
      id3Track.Close(id3, parses);
    }

    ghost function Now(avcId: int, audioId: int, id3Id: int, avc: Flow, audio: Flow, id3: Flow, unknownPids: bool): State
      reads this, avcTrack, audioTrack, id3Track
    {
      State(pmtParsed, pmtId, Pids(avcId, audioId, id3Id, isAac), Pids(avcTrack.id, audioTrack.id, id3Track.id, isAac), avc, audio, id3, unknownPids)
    }
  }
}
