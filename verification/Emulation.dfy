/** Removing emulation prevention bytes from a unit (section 7.4.1 of ITU-T H.264). */
module Emulation {
  import opened Basics
  import opened AnnexB
  import AnnexBRuns

  // ---- the rule of section 7.4.1

  /** After two zeros, 03 goes before a byte of at most 03. */
  function Escape(payload: seq<Byte>, zeros: nat): seq<Byte>
    decreases |payload|
  {
    if payload == [] then []
    else
      var b := payload[0];
      if zeros >= 2 && b <= 3 then [3, b] + Escape(payload[1..], if b == 0 then 1 else 0)
      else [b] + Escape(payload[1..], if b == 0 then zeros + 1 else 0)
  }

  /** One pass that drops a 03 after two zeros. */
  function Unescape(data: seq<Byte>, zeros: nat): seq<Byte>
    decreases |data|
  {
    if data == [] then []
    else if zeros >= 2 && data[0] == 3 then Unescape(data[1..], 0)
    else [data[0]] + Unescape(data[1..], if data[0] == 0 then zeros + 1 else 0)
  }

  lemma {:induction false} UnescapeEscape(payload: seq<Byte>, zeros: nat)
    requires zeros <= 2
    ensures Unescape(Escape(payload, zeros), zeros) == payload
    decreases |payload|
  {
    if payload != [] {
      var b, rest := payload[0], payload[1..];
      var zeros' := if zeros >= 2 && b <= 3 then (if b == 0 then 1 else 0) else if b == 0 then zeros + 1 else 0;
      UnescapeEscape(rest, zeros');
      var e := Escape(rest, zeros');
      assert ([b] + e)[1..] == e;
      if zeros >= 2 && b <= 3 {
        assert ([3, b] + e)[1..] == [b] + e;
      }
    }
  }

  // ---- the two loops of the source

  /** Byte k is an emulation prevention byte; the byte at 0 is the header and never counts. */
  predicate IsEpb(data: seq<Byte>, k: int) {
    3 <= k < |data| && data[k - 2] == 0 && data[k - 1] == 0 && data[k] == 3
  }

  function EpbsBelow(data: seq<Byte>, k: nat): seq<nat>
    requires k <= |data|
  {
    if k == 0 then []
    else EpbsBelow(data, k - 1) + if IsEpb(data, k - 1) then [k - 1] else []
  }

  /** The bytes below k that are no emulation prevention bytes. */
  function KeptBelow(data: seq<Byte>, k: nat): seq<Byte>
    requires k <= |data|
  {
    if k == 0 then []
    else KeptBelow(data, k - 1) + if IsEpb(data, k - 1) then [] else [data[k - 1]]
  }

  lemma {:induction false} KeptCount(data: seq<Byte>, k: nat)
    requires k <= |data|
    ensures |KeptBelow(data, k)| + |EpbsBelow(data, k)| == k
  {
    if k > 0 {
      KeptCount(data, k - 1);
    }
  }

  lemma {:induction false} KeptPrefix(data: seq<Byte>, k: nat, n: nat)
    requires k <= n <= |data|
    ensures KeptBelow(data, k) <= KeptBelow(data, n)
    ensures EpbsBelow(data, k) <= EpbsBelow(data, n)
    decreases n - k
  {
    if k < n {
      KeptPrefix(data, k, n - 1);
    }
  }

  lemma {:induction false} EpbsRange(data: seq<Byte>, k: nat)
    requires k <= |data|
    ensures forall e :: e in EpbsBelow(data, k) <==> 0 <= e < k && IsEpb(data, e)
  {
    if k > 0 {
      EpbsRange(data, k - 1);
    }
  }

  /** The position at index |EpbsBelow(data, k)| is the first one at k or after it. */
  lemma {:induction false} NextEpb(data: seq<Byte>, k: nat)
    requires k < |data|
    ensures var all := EpbsBelow(data, |data|);
            var m := |EpbsBelow(data, k)|;
            m <= |all| && (IsEpb(data, k) <==> m < |all| && all[m] == k)
  {
    KeptPrefix(data, k, |data|);
    KeptPrefix(data, k + 1, |data|);
    var all, m := EpbsBelow(data, |data|), |EpbsBelow(data, k)|;
    EpbsRange(data, |data|);
    assert m < |all| ==> all[m] in all;
    if IsEpb(data, k) {
      assert EpbsBelow(data, k + 1)[m] == k;
    }
  }

  /** The list of emulation prevention bytes. */
  method FindEpbs(data: seq<Byte>) returns (positions: seq<nat>)
    ensures positions == EpbsBelow(data, |data|)
  {
    positions := [];
    var i := 1;
    NoneBelow(data, if |data| < 3 then |data| else 3);
    while i < |data| - 2
      invariant 1 <= i
      invariant i + 2 <= |data| ==> positions == EpbsBelow(data, i + 2)
      invariant i + 2 > |data| ==> positions == EpbsBelow(data, |data|)
      decreases |data| - i
    {
      if data[i] == 0 && data[i + 1] == 0 && data[i + 2] == 3 {
        positions := positions + [i + 2];
        assert i + 3 < |data| ==> !IsEpb(data, i + 3);
        i := i + 2;
      } else {
        i := i + 1;
      }
    }
  }

  lemma {:induction false} NoneBelow(data: seq<Byte>, k: nat)
    requires k <= |data| && k <= 3
    ensures EpbsBelow(data, k) == []
  {
    if k > 0 {
      NoneBelow(data, k - 1);
    }
  }

  lemma {:induction false} NothingBelow(data: seq<Byte>)
    ensures EpbsBelow(data, 0) == [] && KeptBelow(data, 0) == []
  {
  }

  lemma StepBelow(data: seq<Byte>, k: nat)
    requires k < |data|
    ensures IsEpb(data, k) ==> KeptBelow(data, k + 1) == KeptBelow(data, k) && |EpbsBelow(data, k + 1)| == |EpbsBelow(data, k)| + 1
    ensures !IsEpb(data, k) ==> KeptBelow(data, k + 1) == KeptBelow(data, k) + [data[k]] && EpbsBelow(data, k + 1) == EpbsBelow(data, k)
  {
  }

  method DiscardEpb(data: seq<Byte>) returns (r: seq<Byte>)
    ensures r == KeptBelow(data, |data|)
  {
    hide IsEpb, EpbsBelow, KeptBelow;
    var positions := FindEpbs(data);
    KeptCount(data, |data|);
    NothingBelow(data);
    if |positions| == 0 {
      AllKept(data, |data|);
      return data;
    }
    var newLength := |data| - |positions|;
    var newData := new Byte[newLength];
    ghost var all := positions;
    var sourceIndex := 0;
    var i := 0;
    while i < newLength
      invariant 0 <= i <= newLength && sourceIndex <= |data|
      invariant KeptBelow(data, sourceIndex) == newData[..i]
      invariant |EpbsBelow(data, sourceIndex)| <= |all|
      invariant positions == all[|EpbsBelow(data, sourceIndex)|..]
    {
      KeptCount(data, sourceIndex);
      assert sourceIndex < |data|;
      NextEpb(data, sourceIndex);
      if |positions| > 0 && sourceIndex == positions[0] {
        EpbNotLast(data, sourceIndex, newLength);
        StepBelow(data, sourceIndex);
        sourceIndex := sourceIndex + 1;
        positions := positions[1..];
      }
      StepBelow(data, sourceIndex);
      newData[i] := data[sourceIndex];
      sourceIndex := sourceIndex + 1;
      i := i + 1;
      assert newData[..i] == newData[..i - 1] + [newData[i - 1]];
    }
    KeptPrefix(data, sourceIndex, |data|);
    r := newData[..];
  }

  lemma {:induction false} AllKept(data: seq<Byte>, k: nat)
    requires k <= |data| && EpbsBelow(data, k) == []
    ensures KeptBelow(data, k) == data[..k]
  {
    if k > 0 {
      AllKept(data, k - 1);
      assert data[..k] == data[..k - 1] + [data[k - 1]];
    }
  }

  /** There is a byte to keep after an emulation prevention byte as long as the result is not full. */
  lemma EpbNotLast(data: seq<Byte>, k: nat, newLength: nat)
    requires k < |data| && IsEpb(data, k)
    requires newLength == |KeptBelow(data, |data|)| && |KeptBelow(data, k)| < newLength
    ensures k + 1 < |data| && !IsEpb(data, k + 1)
  {
  }

  // ---- the two forms are one

  /** Zeros just before position k, not counting the header. */
  function ZerosBefore(data: seq<Byte>, k: nat): nat
    requires 1 <= k <= |data|
  {
    if k > 1 && data[k - 1] == 0 then 1 + ZerosBefore(data, k - 1) else 0
  }

  lemma {:induction false} KeptIsUnescape(data: seq<Byte>, k: nat)
    requires 1 <= k <= |data|
    ensures KeptBelow(data, k) + Unescape(data[k..], ZerosBefore(data, k)) == KeptBelow(data, |data|)
    decreases |data| - k
  {
    if k < |data| {
      KeptIsUnescape(data, k + 1);
      assert data[k..][1..] == data[k + 1..];
      assert IsEpb(data, k) <==> ZerosBefore(data, k) >= 2 && data[k] == 3;
    }
  }

  /** For every input, the list of positions and the copy amount to one pass that starts after the header. */
  lemma {:induction false} DiscardIsOnePass(data: seq<Byte>)
    requires data != []
    ensures KeptBelow(data, |data|) == [data[0]] + Unescape(data[1..], 0)
  {
    hide *;
    KeptIsUnescape(data, 1);
    HeaderKept(data);
  }

  lemma {:induction false} HeaderKept(data: seq<Byte>)
    requires data != []
    ensures KeptBelow(data, 1) == [data[0]] && ZerosBefore(data, 1) == 0
  {
    assert KeptBelow(data, 0) == [];
  }

  /** Removing undoes inserting, for every header and payload. */
  lemma {:induction false} DiscardUndoesEscape(header: Byte, payload: seq<Byte>)
    ensures var data := [header] + Escape(payload, 0);
            KeptBelow(data, |data|) == [header] + payload
  {
    var data := [header] + Escape(payload, 0);
    DiscardIsOnePass(data);
    assert data[1..] == Escape(payload, 0);
    UnescapeEscape(payload, 0);
  }

  // ---- escaped units go through a byte stream

  /** No byte below 3 follows two zeros, where z zeros came before. */
  predicate Safe(d: seq<Byte>, z: nat)
    decreases |d|
  {
    d == [] || ((z >= 2 ==> d[0] > 2) && Safe(d[1..], if d[0] == 0 then z + 1 else 0))
  }

  lemma {:induction false} SafeMore(b: Byte, e: seq<Byte>, z: nat)
    requires z >= 2 ==> b > 2
    requires Safe(e, if b == 0 then z + 1 else 0)
    ensures Safe([b] + e, z)
  {
    assert ([b] + e)[1..] == e;
  }

  lemma {:induction false} EscapeSafe(p: seq<Byte>, z: nat)
    requires z <= 2
    ensures Safe(Escape(p, z), z)
    decreases |p|
  {
    hide Safe, Escape;
    if p == [] {
      SafeNone(z);
    } else {
      EscapeFirst(p, z);
      var b, rest := p[0], p[1..];
      if z >= 2 && b <= 3 {
        var e := Escape(rest, if b == 0 then 1 else 0);
        EscapeSafe(rest, if b == 0 then 1 else 0);
        SafeMore(b, e, 0);
        SafeMore(3, [b] + e, z);
      } else {
        EscapeSafe(rest, if b == 0 then z + 1 else 0);
        SafeMore(b, Escape(rest, if b == 0 then z + 1 else 0), z);
      }
    }
  }

  lemma {:induction false} SafeNone(z: nat)
    ensures Safe(Escape([], z), z)
  {
  }

  lemma EscapeFirst(p: seq<Byte>, z: nat)
    requires p != [] && z <= 2
    ensures var b, rest := p[0], p[1..];
            Escape(p, z) == if z >= 2 && b <= 3 then [3] + ([b] + Escape(rest, if b == 0 then 1 else 0))
                            else [b] + Escape(rest, if b == 0 then z + 1 else 0)
  {
    assert forall e: seq<Byte> :: [3, p[0]] + e == [3] + ([p[0]] + e);
  }

  lemma {:induction false} EscapeLast(p: seq<Byte>, z: nat)
    requires z <= 2
    ensures if p == [] then Escape(p, z) == [] else Escape(p, z) != [] && Escape(p, z)[|Escape(p, z)| - 1] == p[|p| - 1]
    decreases |p|
  {
    if p != [] {
      EscapeLast(p[1..], if z >= 2 && p[0] <= 3 then (if p[0] == 0 then 1 else 0) else if p[0] == 0 then z + 1 else 0);
    }
  }

  lemma {:induction false} SafeAt(d: seq<Byte>, z: nat, k: nat)
    requires Safe(d, z) && k + 2 < |d| && d[k] == 0 && d[k + 1] == 0
    ensures d[k + 2] > 2
    decreases |d|
  {
    var d1 := d[1..];
    if k == 0 {
      var d2 := d1[1..];
      assert Safe(d1, z + 1);
      assert Safe(d2, z + 2);
      assert d2[0] == d[2];
    } else {
      assert d1[k - 1] == d[k] && d1[k] == d[k + 1];
      SafeAt(d1, if d[0] == 0 then z + 1 else 0, k - 1);
    }
  }

  /** A unit with a nonzero header whose payload does not end in 00 can be put in a byte stream once escaped. */
  lemma {:induction false} EscapedIsNal(header: Byte, payload: seq<Byte>)
    requires header != 0 && (payload != [] ==> payload[|payload| - 1] != 0)
    ensures AnnexBRuns.Nal([header] + Escape(payload, 0))
  {
    hide Escape;
    EscapeSafe(payload, 0);
    EscapeLast(payload, 0);
    SafeIsNal(header, Escape(payload, 0));
  }

  lemma {:induction false} SafeIsNal(header: Byte, e: seq<Byte>)
    requires header != 0 && Safe(e, 0) && (e != [] ==> e[|e| - 1] != 0)
    ensures AnnexBRuns.Nal([header] + e)
  {
    var n := [header] + e;
    assert n[1..] == e;
    assert Safe(n, 0);
    hide Safe;
    forall k | 0 <= k && k + 2 < |n| && n[k] == 0 && n[k + 1] == 0
      ensures n[k + 2] > 1
    {
      SafeAt(n, 0, k);
    }
  }

  /** A unit to be sent: the three fields of its header (section 7.3.1 of ITU-T H.264) and its payload. */
  datatype Fields = Fields(forbidden: nat, refIdc: nat, kind: nat, bytes: seq<Byte>)

  type Payload = p: Fields | p.forbidden < 2 && p.refIdc < 4 && p.kind < 32 witness Fields(0, 0, 0, [])

  function Header(p: Payload): Byte {
    128 * p.forbidden + 32 * p.refIdc + p.kind
  }

  ghost predicate Sendable(p: Payload) {
    Header(p) != 0 && (p.bytes != [] ==> p.bytes[|p.bytes| - 1] != 0)
  }

  function Escaped(p: Payload): seq<Byte> {
    [Header(p)] + Escape(p.bytes, 0)
  }

  /** The type of a unit is read from its header. */
  lemma KindRead(p: Payload)
    ensures Kind(Header(p)) == p.kind
  {
    assert Header(p) == 32 * (4 * p.forbidden + p.refIdc) + p.kind;
  }

  /** Payloads escaped, joined by start codes, cut into two packets, split and unescaped come out as they were, and each with
      its type. */
  lemma ThroughTheStream(ps: seq<Payload>, four: seq<bool>, cut: nat)
    requires |ps| == |four| && forall i :: 0 <= i < |ps| ==> Sendable(ps[i])
    requires var t := AnnexBRuns.Stream(seq(|ps|, i requires 0 <= i < |ps| => Escaped(ps[i])), four);
             cut <= |AnnexBRuns.Bytes(t)|
    ensures var t := AnnexBRuns.Stream(seq(|ps|, i requires 0 <= i < |ps| => Escaped(ps[i])), four);
            var units := Feed(Feed(FRESH, AnnexBRuns.Bytes(t)[..cut]), AnnexBRuns.Bytes(t)[cut..]).units;
            && |units| == |ps|
            && forall i :: 0 <= i < |ps| ==>
                 && units[i].kind == ps[i].kind
                 && KeptBelow(units[i].data, |units[i].data|) == [Header(ps[i])] + ps[i].bytes
  {
    hide Feed, AnnexBRuns.Nal, KeptBelow, AnnexBRuns.Bytes, Escape, Kind, Header;
    var t := AnnexBRuns.Stream(seq(|ps|, i requires 0 <= i < |ps| => Escaped(ps[i])), four);
    forall i | 0 <= i < |ps|
      ensures AnnexBRuns.Nal(t.nals[i])
    {
      EscapedIsNal(Header(ps[i]), ps[i].bytes);
    }
    AnnexBRuns.TwoPackets(t, cut);
    var units := Feed(Feed(FRESH, AnnexBRuns.Bytes(t)[..cut]), AnnexBRuns.Bytes(t)[cut..]).units;
    forall i | 0 <= i < |ps|
      ensures units[i].kind == ps[i].kind
      ensures KeptBelow(units[i].data, |units[i].data|) == [Header(ps[i])] + ps[i].bytes
    {
      assert AnnexBRuns.Shows(units[i], t.nals[i]);
      KindRead(ps[i]);
      DiscardUndoesEscape(Header(ps[i]), ps[i].bytes);
    }
  }
}
