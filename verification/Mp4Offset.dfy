/** Moving the start time of a fragment, in place. */
module Mp4Offset {
  import opened Basics
  import opened Mp4Boxes
  import opened Mp4Segments
  import opened Mp4Fragments

  // ---- writing numbers into a buffer

  /** A store past the end of a typed array is dropped. */
  function Put(data: seq<Byte>, i: nat, b: Byte): (r: seq<Byte>)
    ensures |r| == |data|
  {
    if i < |data| then data[i := b] else data
  }

  function WriteUint32(data: seq<Byte>, i: nat, v: int): (r: seq<Byte>)
    ensures |r| == |data|
  {
    var b := Be32(v);
    Put(Put(Put(Put(data, i, b[0]), i + 1, b[1]), i + 2, b[2]), i + 3, b[3])
  }

  method StoreUint32(data: array<Byte>, i: nat, v: int)
    modifies data
    ensures data[..] == WriteUint32(old(data[..]), i, v)
  {
    hide Be32;
    var b := Be32(v);
    Store(data, i, b[0]);
    Store(data, i + 1, b[1]);
    Store(data, i + 2, b[2]);
    Store(data, i + 3, b[3]);
  }

  method Store(data: array<Byte>, i: nat, b: Byte)
    modifies data
    ensures data[..] == Put(old(data[..]), i, b)
  {
    if i < data.Length {
      data[i] := b;
    }
  }

  lemma WrittenInside(a: seq<Byte>, old4: seq<Byte>, c: seq<Byte>, v: int)
    requires |old4| == 4
    ensures WriteUint32(a + old4 + c, |a|, v) == a + Be32(v) + c
  {
    hide Be32;
    var b := Be32(v);
    assert b == [b[0], b[1], b[2], b[3]];
  }

  // ---- moving one decode time

  /** Rounding towards zero, as >> does. */
  function Truncate(v: real): int {
    if v >= 0.0 then v.Floor else -(-v).Floor
  }

  /** The remainder of the % operator, which has the sign of its left operand. */
  function Remainder(v: real, m: int): real
    requires m > 0
  {
    v - m as real * Truncate(v / m as real) as real
  }

  /** A time in seconds, in ticks. */
  function Ticks(seconds: real, scale: nat): real {
    seconds * scale as real
  }

  function MoveTime(data: seq<Byte>, tfdt: Range, delta: real): (r: seq<Byte>)
    ensures |r| == |data|
  {
    var high := ReadUint32(data, tfdt.start + 4);
    if tfdt.start < |data| && data[tfdt.start] == 0 then WriteUint32(data, tfdt.start + 4, Truncate(high as real - delta))
    else
      var v := (high * UINT32 + ReadUint32(data, tfdt.start + 8)) as real - delta;
      var written := WriteUint32(data, tfdt.start + 4, (v / UINT32 as real).Floor);
      WriteUint32(written, tfdt.start + 8, Remainder(v, UINT32).Floor)
  }

  function MoveTimes(data: seq<Byte>, tfdts: seq<Range>, delta: real): (r: seq<Byte>)
    ensures |r| == |data|
    decreases |tfdts|
  {
    if tfdts == [] then data else MoveTimes(MoveTime(data, tfdts[0], delta), tfdts[1..], delta)
  }

  /** The buffer, and whether every track was known: an unknown one throws. */
  function MoveHeaders(init: map<nat, nat>, data: seq<Byte>, traf: Range, tfhds: seq<Range>, timeOffset: real): (r: (seq<Byte>, bool))
    ensures |r.0| == |data|
    decreases |tfhds|
  {
    if tfhds == [] then (data, true)
    else
      var id := ReadUint32(data, tfhds[0].start + 4);
      if id !in init then (data, false)
      else
        var tfdts := FindFrom(data, traf.start, traf.end, [TFDT]);
        MoveHeaders(init, MoveTimes(data, tfdts, Ticks(timeOffset, Scale(init[id]))), traf, tfhds[1..], timeOffset)
  }

  function MoveAll(init: map<nat, nat>, data: seq<Byte>, trafs: seq<Range>, timeOffset: real): (r: (seq<Byte>, bool))
    ensures |r.0| == |data|
    decreases |trafs|
  {
    if trafs == [] then (data, true)
    else
      var r := MoveHeaders(init, data, trafs[0], FindFrom(data, trafs[0].start, trafs[0].end, [TFHD]), timeOffset);
      if r.1 then MoveAll(init, r.0, trafs[1..], timeOffset) else r
  }

  /** The buffer with the start of every track fragment moved back. */
  function OffsetStartDts(init: map<nat, nat>, data: seq<Byte>, timeOffset: real): (seq<Byte>, bool) {
    MoveAll(init, data, FindFrom(data, 0, |data|, [MOOF, TRAF]), timeOffset)
  }

  method MoveTimeInPlace(data: array<Byte>, tfdt: Range, delta: real)
    modifies data
    ensures data[..] == MoveTime(old(data[..]), tfdt, delta)
  {
    hide ReadUint32, WriteUint32, Truncate, Remainder;
    var high := ReadUint32(data[..], tfdt.start + 4);
    if tfdt.start < data.Length && data[tfdt.start] == 0 {
      StoreUint32(data, tfdt.start + 4, Truncate(high as real - delta));
    } else {
      var v := (high * UINT32 + ReadUint32(data[..], tfdt.start + 8)) as real - delta;
      var upper := (v / UINT32 as real).Floor;
      var lower := Remainder(v, UINT32).Floor;
      StoreUint32(data, tfdt.start + 4, upper);
      StoreUint32(data, tfdt.start + 8, lower);
    }
  }

  /** The demuxer's loops over track fragments, their headers and their time boxes. */
  method MoveStartDts(init: map<nat, nat>, data: array<Byte>, timeOffset: real) returns (ok: bool)
    modifies data
    ensures (data[..], ok) == OffsetStartDts(init, old(data[..]), timeOffset)
  {
    hide ReadUint32, FindFrom, MoveTime, MoveHeaders;
    var foundTrafs := FindBox(data[..], 0, data.Length, [MOOF, TRAF]);
    var trafs := foundTrafs.value;
    assert trafs[0..] == trafs;
    for i := 0 to |trafs|
      invariant MoveAll(init, data[..], trafs[i..], timeOffset) == OffsetStartDts(init, old(data[..]), timeOffset)
    {
      assert trafs[i..][1..] == trafs[i + 1..];
      ghost var r := MoveHeaders(init, data[..], trafs[i], FindFrom(data[..], trafs[i].start, trafs[i].end, [TFHD]), timeOffset);
      assert MoveAll(init, data[..], trafs[i..], timeOffset)
             == if r.1 then MoveAll(init, r.0, trafs[i + 1..], timeOffset) else r;
      ok := MoveInTraf(init, data, trafs[i], timeOffset);
      assert r.0 == data[..] && r.1 == ok;
      if !ok {
        return;
      }
      assert MoveAll(init, data[..], trafs[i + 1..], timeOffset) == MoveAll(init, r.0, trafs[i + 1..], timeOffset);
    }
    return true;
  }

  method MoveInTraf(init: map<nat, nat>, data: array<Byte>, traf: Range, timeOffset: real) returns (ok: bool)
    modifies data
    ensures (data[..], ok)
            == MoveHeaders(init, old(data[..]), traf, FindFrom(old(data[..]), traf.start, traf.end, [TFHD]), timeOffset)
  {
    hide ReadUint32, FindFrom, MoveTimes, Scale, Ticks;
    var foundTfhds := FindBox(data[..], traf.start, traf.end, [TFHD]);
    var tfhds := foundTfhds.value;
    assert tfhds[0..] == tfhds;
    for i := 0 to |tfhds|
      invariant MoveHeaders(init, data[..], traf, tfhds[i..], timeOffset) == MoveHeaders(init, old(data[..]), traf, tfhds, timeOffset)
    {
      assert tfhds[i..][1..] == tfhds[i + 1..];
      var id := ReadUint32(data[..], tfhds[i].start + 4);
      if id !in init {
        return false;
      }
      var foundTfdts := FindBox(data[..], traf.start, traf.end, [TFDT]);
      var tfdts := foundTfdts.value;
      ghost var now := data[..];
      var delta := Ticks(timeOffset, Scale(init[id]));
      assert tfhds[i..][0] == tfhds[i];
      assert MoveHeaders(init, now, traf, tfhds[i..], timeOffset)
             == MoveHeaders(init, MoveTimes(now, tfdts, delta), traf, tfhds[i + 1..], timeOffset);
      MoveEach(data, tfdts, delta);
    }
    return true;
  }

  method MoveEach(data: array<Byte>, tfdts: seq<Range>, delta: real)
    modifies data
    ensures data[..] == MoveTimes(old(data[..]), tfdts, delta)
  {
    hide MoveTime;
    assert tfdts[0..] == tfdts;
    for i := 0 to |tfdts|
      invariant MoveTimes(data[..], tfdts[i..], delta) == MoveTimes(old(data[..]), tfdts, delta)
    {
      assert tfdts[i..][1..] == tfdts[i + 1..];
      MoveTimeInPlace(data, tfdts[i], delta);
    }
  }

  // ---- what it comes to

  /** The time a fragment has afterwards: on 64 bits, so that a negative time wraps around. */
  function MovedTime(time: int, delta: real): (t: int)
    ensures 0 <= t < UINT32 * UINT32
  {
    (time as real - delta).Floor % (UINT32 * UINT32)
  }

  lemma RealProduct(a: int, b: int)
    ensures a as real * b as real == (a * b) as real
  {
  }

  lemma FloorShift(v: real, n: int)
    ensures (v - n as real).Floor == v.Floor - n
  {
  }

  lemma TruncateNear(q: real)
    ensures Truncate(q) == q.Floor || Truncate(q) == q.Floor + 1
  {
  }

  function Times(a: real, b: real): real {
    a * b
  }

  lemma TimesWhole(a: int, b: int)
    ensures Times(a as real, b as real) == (a * b) as real
  {
    RealProduct(a, b);
  }

  lemma Multiplied(v: real, m: real)
    requires m != 0.0
    ensures Times(v / m, m) == v
  {
  }

  lemma Between(q: real, n: int, m: int)
    requires m > 0 && n as real <= q < n as real + 1.0
    ensures 0.0 <= Times(q, m as real) - Times(n as real, m as real) < m as real
  {
    hide Times;
    var d, r := q - n as real, m as real;
    Scaled(d, r);
    Distributed(q, n as real, r);
  }

  lemma Distributed(a: real, b: real, r: real)
    ensures Times(a, r) - Times(b, r) == Times(a - b, r)
  {
  }

  lemma Scaled(d: real, r: real)
    requires 0.0 <= d < 1.0 && r > 0.0
    ensures 0.0 <= Times(d, r) < r
  {
  }

  lemma FloorBounds(v: real, n: int, m: int)
    requires 0.0 <= v - n as real < m as real
    ensures 0 <= v.Floor - n < m
  {
    FloorShift(v, n);
  }

  /** The quotient of the source is the quotient of the whole part. */
  lemma FloorQuotient(v: real, m: int)
    requires m > 0
    ensures 0 <= v.Floor - (v / m as real).Floor * m < m
  {
    hide Times;
    var q := v / m as real;
    Multiplied(v, m as real);
    Between(q, q.Floor, m);
    TimesWhole(q.Floor, m);
    FloorBounds(v, q.Floor * m, m);
  }

  lemma FloorParts(v: real, m: int)
    requires m > 0
    ensures var upper := (v / m as real).Floor;
            var lower := Remainder(v, m).Floor;
            && 0 <= v.Floor - upper * m < m
            && (v.Floor == upper * m + lower || v.Floor == upper * m + lower + m)
  {
    hide Truncate;
    var q := v / m as real;
    var upper, t := q.Floor, Truncate(q);
    FloorQuotient(v, m);
    TruncateNear(q);
    RealProduct(m, t);
    var p := m * t;
    FloorShift(v, p);
    assert Remainder(v, m) == v - p as real;
    Next(upper, m, t);
  }

  lemma Next(upper: int, m: int, t: int)
    ensures t == upper ==> m * t == upper * m
    ensures t == upper + 1 ==> m * t == upper * m + m
  {
  }

  lemma Be32Same(w: int, j: int)
    ensures Be32(w + UINT32 * j) == Be32(w)
  {
    ByteSame(w, 0x100_0000, 1, j);
    ByteSame(w, 0x1_0000, 0x100, j);
    ByteSame(w, 0x100, 0x1_0000, j);
    ByteSame(w, 1, 0x100_0000, j);
  }

  lemma ByteSame(w: int, d: int, k: int, j: int)
    requires d > 0 && 256 * d * k == UINT32
    ensures (w + UINT32 * j) / d % 256 == w / d % 256
  {
    var m := 256 * k * j;
    Regrouped(d, k, j);
    DivAdd(w, d, m);
    ModAdd(w / d, k * j);
    assert m == 256 * (k * j);
  }

  lemma Regrouped(d: int, k: int, j: int)
    ensures 256 * d * k * j == d * (256 * k * j) && 256 * k * j == 256 * (k * j)
  {
  }

  lemma DivAdd(w: int, d: int, k: int)
    requires d > 0
    ensures (w + d * k) / d == w / d + k
  {
    var q, r := w / d, w % d;
    assert w + d * k == d * (q + k) + r;
    QuotientUnique(w + d * k, d, q + k, r);
  }

  lemma QuotientUnique(n: int, d: int, q: int, r: int)
    requires d > 0 && n == d * q + r && 0 <= r < d
    ensures n / d == q && n % d == r
  {
    var q', r' := n / d, n % d;
    var k := q - q';
    Difference(d, q, q');
    assert d * k == r' - r;
    Apart(d, k);
  }

  lemma Difference(d: int, q: int, q': int)
    ensures d * q - d * q' == d * (q - q')
  {
  }

  lemma Apart(d: int, k: int)
    requires d > 0
    ensures k >= 1 ==> d * k >= d
    ensures k <= -1 ==> d * k <= -d
  {
  }

  lemma ModAdd(x: int, j: int)
    ensures (x + 256 * j) % 256 == x % 256
  {
  }

  /** The two halves written are those of the moved time. */
  lemma MovedBytes(time: int, delta: real)
    ensures var v := time as real - delta;
            && Be32((v / UINT32 as real).Floor) == Be32(MovedTime(time, delta) / UINT32)
            && Be32(Remainder(v, UINT32).Floor) == Be32(MovedTime(time, delta) % UINT32)
  {
    hide Be32, Remainder;
    var v := time as real - delta;
    var upper, lower := (v / UINT32 as real).Floor, Remainder(v, UINT32).Floor;
    FloorParts(v, UINT32);
    var low := v.Floor - upper * UINT32;
    assert v.Floor == UINT32 * upper + low;
    Halves(upper, low);
    var j := upper / UINT32;
    assert upper == upper % UINT32 + UINT32 * j;
    Be32Same(upper % UINT32, j);
    Be32Same(lower, 1);
  }

  lemma Halves(upper: int, low: int)
    requires 0 <= low < UINT32
    ensures (UINT32 * upper + low) % (UINT32 * UINT32) == UINT32 * (upper % UINT32) + low
    ensures (UINT32 * (upper % UINT32) + low) / UINT32 == upper % UINT32
    ensures (UINT32 * (upper % UINT32) + low) % UINT32 == low
  {
    var q, r := upper / UINT32, upper % UINT32;
    var n := UINT32 * upper + low;
    assert n == (UINT32 * UINT32) * q + (UINT32 * r + low);
    QuotientUnique(n, UINT32 * UINT32, q, UINT32 * r + low);
    QuotientUnique(UINT32 * r + low, UINT32, r, low);
  }

  // ---- a fragment with its time moved

  function Front(sequence: int, id: nat, n: nat): seq<Byte> {
    Be32(100 + 17 * n) + MOOF + Bytes(Mfhd(sequence)) + (Be32(76 + 17 * n) + TRAF + Bytes(Tfhd(id)) + (Be32(20) + TFDT + [1, 0, 0, 0]))
  }

  function TimeBytes(time: int): seq<Byte> {
    Be32(time / UINT32) + Be32(time % UINT32)
  }

  function Back(samples: seq<Sample>, rest: seq<Box>): seq<Byte> {
    Bytes(Trun(samples, 88 + |samples|)) + Bytes(Sdtp(samples)) + BytesAll(rest)
  }

  lemma FrontLength(sequence: int, id: nat, samples: seq<Sample>)
    requires FourFlags(samples)
    ensures |Front(sequence, id, |samples|)| == 60
  {
    hide Bytes, Be32;
    FragmentLengths(sequence, 0, id, samples);
    FourTypes();
  }

  lemma TrafSplit(time: int, id: nat, samples: seq<Sample>)
    requires FourFlags(samples)
    ensures Bytes(Traf(id, time, samples))
            == (Be32(76 + 17 * |samples|) + TRAF + Bytes(Tfhd(id)) + (Be32(20) + TFDT + [1, 0, 0, 0])) + TimeBytes(time)
               + (Bytes(Trun(samples, 88 + |samples|)) + Bytes(Sdtp(samples)))
  {
    hide Bytes, Be32, Tfhd, Trun, Sdtp;
    var n := |samples|;
    var trun := Trun(samples, 88 + n);
    FragmentLengths(0, time, id, samples);
    FourParts(Tfhd(id), Tfdt(time), trun, Sdtp(samples));
    TrafBytes(time, id, samples);
    TfdtBytes(time);
    Joined(Be32(76 + 17 * n) + TRAF, Bytes(Tfhd(id)), Be32(20) + TFDT + [1, 0, 0, 0], TimeBytes(time), Bytes(trun), Bytes(Sdtp(samples)));
  }

  lemma Joined<T>(a: seq<T>, b: seq<T>, c: seq<T>, d: seq<T>, e: seq<T>, f: seq<T>)
    ensures a + (b + (c + d) + e + f) == (a + b + c) + d + (e + f)
  {
  }

  lemma TfdtBytes(time: int)
    ensures Bytes(Tfdt(time)) == (Be32(20) + TFDT + [1, 0, 0, 0]) + TimeBytes(time)
  {
    hide Be32;
    var payload := Tfdt(time).payload;
    assert |payload| == 12;
    assert Bytes(Tfdt(time)) == Be32(20) + TFDT + payload;
    assert payload == [1, 0, 0, 0] + TimeBytes(time);
  }

  lemma TrafBytes(time: int, id: nat, samples: seq<Sample>)
    requires FourFlags(samples)
    ensures Bytes(Traf(id, time, samples))
            == Be32(76 + 17 * |samples|) + TRAF
               + BytesAll([Tfhd(id), Tfdt(time), Trun(samples, 88 + |samples|), Sdtp(samples)])
  {
    hide Be32, Tfhd, Tfdt, Trun, Sdtp;
    FragmentLengths(0, time, id, samples);
    MoofLength(0, time, id, samples);
    TrafChildren(time, id, samples);
    WrapIs(Traf(id, time, samples));
  }

  lemma TrafChildren(time: int, id: nat, samples: seq<Sample>)
    requires |Bytes(Sdtp(samples))| == 12 + |samples|
    ensures Traf(id, time, samples) == Node(TRAF, [Tfhd(id), Tfdt(time), Trun(samples, 88 + |samples|), Sdtp(samples)])
  {
  }

  lemma {:induction false} WrapIs(b: Box)
    requires b.Node? && |b.kind| == 4
    ensures Bytes(b) == Be32(|Bytes(b)|) + b.kind + BytesAll(b.children)
  {
  }

  lemma {:induction false} FragmentSplit(bs: seq<Box>, sequence: int, time: int, id: nat, samples: seq<Sample>)
    requires bs != [] && bs[0] == Moof(sequence, time, id, samples) && FourFlags(samples)
    ensures BytesAll(bs) == Front(sequence, id, |samples|) + TimeBytes(time) + Back(samples, bs[1..])
  {
    hide Bytes, Be32, Traf, Mfhd, Tfhd, Trun, Sdtp, TimeBytes;
    var n := |samples|;
    MoofLength(sequence, time, id, samples);
    FourTypes();
    NodeLength(MOOF, Mfhd(sequence), Traf(id, time, samples));
    TrafSplit(time, id, samples);
    MoofLengthSum(Bytes(Mfhd(sequence)) + Bytes(Traf(id, time, samples)), n, sequence, time, id, samples);
    Joined2(Be32(100 + 17 * n) + MOOF, Bytes(Mfhd(sequence)),
            Be32(76 + 17 * n) + TRAF + Bytes(Tfhd(id)) + (Be32(20) + TFDT + [1, 0, 0, 0]), TimeBytes(time),
            Bytes(Trun(samples, 88 + n)) + Bytes(Sdtp(samples)), BytesAll(bs[1..]));
  }

  lemma MoofLengthSum(payload: seq<Byte>, n: nat, sequence: int, time: int, id: nat, samples: seq<Sample>)
    requires payload == Bytes(Mfhd(sequence)) + Bytes(Traf(id, time, samples)) && n == |samples|
    requires |Bytes(Moof(sequence, time, id, samples))| == 100 + 17 * n
    requires Bytes(Moof(sequence, time, id, samples)) == Wrap(MOOF, payload) && |MOOF| == 4
    ensures Bytes(Moof(sequence, time, id, samples)) == Be32(100 + 17 * n) + MOOF + payload
  {
  }

  lemma Joined2<T>(a: seq<T>, b: seq<T>, c: seq<T>, d: seq<T>, e: seq<T>, f: seq<T>)
    ensures (a + (b + (c + d + e))) + f == (a + b + c) + d + (e + f)
  {
  }

  /** Moving the start of a fragment gives the fragment of the moved time, with everything else as it was. */
  lemma {:induction false} OffsetFragment(init: map<nat, nat>, bs: seq<Box>, sequence: int, time: int, id: nat, samples: seq<Sample>, timeOffset: real)
    requires Fragment(bs, sequence, time, id, samples) && id in init
    ensures var t := MovedTime(time, Ticks(timeOffset, Scale(init[id])));
            OffsetStartDts(init, BytesAll(bs), timeOffset) == (BytesAll([Moof(sequence, t, id, samples)] + bs[1..]), true)
  {
    hide Bytes, BytesAll, Holds, FindFrom, Traf, Moof, Sound, ReadUint32, Be32, MoveTime, Ticks, MovedTime, Scale;
    var data := BytesAll(bs);
    var delta := Ticks(timeOffset, Scale(init[id]));
    var traf := Range(32, 24 + |Bytes(Traf(id, time, samples))|);
    var tfhd, tfdt := Range(40, 48), Range(56, 68);
    TrafFound(data, bs, sequence, time, id, samples);
    PartsFound(data, id, time, samples);
    ReadId(data, id);
    var moved := MoveTime(data, tfdt, delta);
    assert [tfdt][1..] == [] && [tfhd][1..] == [] && [traf][1..] == [];
    assert MoveTimes(moved, [tfdt][1..], delta) == moved;
    assert MoveTimes(data, [tfdt], delta) == moved;
    assert MoveHeaders(init, moved, traf, [tfhd][1..], timeOffset) == (moved, true);
    assert MoveHeaders(init, data, traf, [tfhd], timeOffset) == (moved, true);
    assert MoveAll(init, moved, [traf][1..], timeOffset) == (moved, true);
    MoveTimeFragment(data, bs, sequence, time, id, samples, delta);
  }

  /** A fragment of a track that the initialization segment does not declare is an error, and nothing is moved. */
  lemma {:induction false} UnknownTrack(init: map<nat, nat>, bs: seq<Box>, sequence: int, time: int, id: nat, samples: seq<Sample>, timeOffset: real)
    requires Fragment(bs, sequence, time, id, samples) && id !in init
    ensures OffsetStartDts(init, BytesAll(bs), timeOffset) == (BytesAll(bs), false)
  {
    hide Bytes, BytesAll, Holds, FindFrom, Traf, Moof, Sound, ReadUint32, Be32, MoveTimes;
    var data := BytesAll(bs);
    var traf := Range(32, 24 + |Bytes(Traf(id, time, samples))|);
    TrafFound(data, bs, sequence, time, id, samples);
    PartsFound(data, id, time, samples);
    ReadId(data, id);
    assert MoveHeaders(init, data, traf, [Range(40, 48)], timeOffset) == (data, false);
    assert MoveAll(init, data, [traf], timeOffset) == (data, false);
  }

  lemma {:induction false} MoveTimeFragment(data: seq<Byte>, bs: seq<Box>, sequence: int, time: int, id: nat, samples: seq<Sample>, delta: real)
    requires Fragment(bs, sequence, time, id, samples) && data == BytesAll(bs)
    requires Holds(data, 56, Tfdt(time).payload)
    ensures MoveTime(data, Range(56, 68), delta)
            == BytesAll([Moof(sequence, MovedTime(time, delta), id, samples)] + bs[1..])
  {
    hide Bytes, BytesAll, Holds, Moof, Sound, ReadUint32, Be32, MovedTime, Front, Back, Remainder, WriteUint32;
    var t := MovedTime(time, delta);
    var moved := [Moof(sequence, t, id, samples)] + bs[1..];
    assert moved[1..] == bs[1..];
    FragmentSplit(bs, sequence, time, id, samples);
    FragmentSplit(moved, sequence, t, id, samples);
    ReadTime(data, time);
    var version: seq<Byte> := [1, 0, 0, 0];
    assert Tfdt(time).payload == version + (Be32(time / UINT32) + Be32(time % UINT32));
    FirstByte(data, 56, version, Be32(time / UINT32) + Be32(time % UINT32));
    TwoWritten(Front(sequence, id, |samples|), time, Back(samples, bs[1..]), sequence, id, samples, delta);
    InBounds(data);
    MovedBytes(time, delta);
  }

  lemma InBounds(data: seq<Byte>)
    requires At(data, 56) == 1
    ensures 56 < |data| && data[56] == 1
  {
  }

  lemma TwoWritten(front: seq<Byte>, time: int, back: seq<Byte>, sequence: int, id: nat, samples: seq<Sample>, delta: real)
    requires front == Front(sequence, id, |samples|) && FourFlags(samples)
    ensures var v := time as real - delta;
            WriteUint32(WriteUint32(front + TimeBytes(time) + back, 60, (v / UINT32 as real).Floor), 64, Remainder(v, UINT32).Floor)
            == front + (Be32((v / UINT32 as real).Floor) + Be32(Remainder(v, UINT32).Floor)) + back
  {
    hide Be32, Front, Remainder, WriteUint32;
    var v := time as real - delta;
    var a, b := (v / UINT32 as real).Floor, Remainder(v, UINT32).Floor;
    var high, low := Be32(time / UINT32), Be32(time % UINT32);
    FrontLength(sequence, id, samples);
    assert front + TimeBytes(time) + back == front + high + (low + back);
    WrittenInside(front, high, low + back, a);
    assert front + Be32(a) + (low + back) == (front + Be32(a)) + low + back;
    WrittenInside(front + Be32(a), low, back, b);
    assert (front + Be32(a)) + Be32(b) + back == front + (Be32(a) + Be32(b)) + back;
  }

  lemma SoundMoved(sequence: int, time: int, t: int, id: nat, samples: seq<Sample>)
    requires FourFlags(samples) && Sound(Moof(sequence, time, id, samples))
    ensures Sound(Moof(sequence, t, id, samples))
  {
    hide Be32, Mfhd, Tfhd, Trun, Sdtp;
    var whole, whole' := Moof(sequence, time, id, samples), Moof(sequence, t, id, samples);
    MoofLength(sequence, time, id, samples);
    MoofLength(sequence, t, id, samples);
    FragmentLengths(sequence, t, id, samples);
    assert whole.children[0] == whole'.children[0] == Mfhd(sequence);
    var before, after := Traf(id, time, samples), Traf(id, t, samples);
    assert whole.children[1] == before && whole'.children[1] == after;
    SoundChildren(whole);
    SoundChildren(before);
    SoundTfdt(t);
    assert before.children[0] == after.children[0] && before.children[2] == after.children[2] && before.children[3] == after.children[3];
    SoundNode(after);
    SoundNode(whole');
  }

  lemma SoundTfdt(t: int)
    ensures Sound(Tfdt(t))
  {
    FragmentLengths(0, t, 0, []);
    FourTypes();
  }

  lemma {:induction false} SoundNode(b: Box)
    requires b.Node? && |b.kind| == 4 && |Bytes(b)| < UINT32 && AllSound(b.children)
    ensures Sound(b)
  {
  }

  lemma FragmentMoved(bs: seq<Box>, sequence: int, time: int, t: int, id: nat, samples: seq<Sample>)
    requires Fragment(bs, sequence, time, id, samples) && 0 <= t < UINT32 * UINT32
    ensures Fragment([Moof(sequence, t, id, samples)] + bs[1..], sequence, t, id, samples)
  {
    hide Bytes, BytesAll, Moof, Sound;
    SoundMoved(sequence, time, t, id, samples);
  }

  /** The start time read after the move is the moved time. */
  lemma {:induction false} StartMoved(init: map<nat, nat>, bs: seq<Box>, sequence: int, time: int, id: nat, samples: seq<Sample>, timeOffset: real)
    requires Fragment(bs, sequence, time, id, samples) && id in init
    ensures var delta := Ticks(timeOffset, Scale(init[id]));
            StartDts(init, OffsetStartDts(init, BytesAll(bs), timeOffset).0)
            == Ok(MovedTime(time, delta) as real / Scale(init[id]) as real)
  {
    var t := MovedTime(time, Ticks(timeOffset, Scale(init[id])));
    FragmentMoved(bs, sequence, time, t, id, samples);
    var moved := [Moof(sequence, t, id, samples)] + bs[1..];
    hide Bytes, BytesAll, Fragment, StartDts, OffsetStartDts, MovedTime, Moof;
    OffsetFragment(init, bs, sequence, time, id, samples, timeOffset);
    StartDtsRead(init, moved, sequence, t, id, samples);
  }

  /** The moved time is the old time less the offset if and only if the offset is a whole number of ticks that
      leaves a time of 64 bits. */
  lemma MovedExactly(time: int, delta: real)
    ensures MovedTime(time, delta) as real == time as real - delta
            <==> delta.Floor as real == delta && 0.0 <= time as real - delta < (UINT32 * UINT32) as real
  {
    var v := time as real - delta;
    if delta.Floor as real == delta {
      var n := time - delta.Floor;
      assert v == n as real && v.Floor == n;
      SmallTime(n);
    }
    if MovedTime(time, delta) as real == v {
      Whole(time, delta, MovedTime(time, delta));
    }
  }

  /** A time of version 0 afterwards: on 32 bits, rounded towards zero. */
  function ShortMoved(time: int, delta: real): (t: int)
    ensures 0 <= t < UINT32
  {
    Truncate(time as real - delta) % UINT32
  }

  /** That is the whole number next to it on the side of zero. */
  lemma TruncateRounds(v: real)
    ensures var n := Truncate(v);
            if v >= 0.0 then n >= 0 && n as real <= v < n as real + 1.0 else n <= 0 && n as real - 1.0 < v <= n as real
  {
  }

  /** A box of version 0: its time is moved on 32 bits, and nothing else of the buffer changes. */
  lemma ShortMove(data: seq<Byte>, tfdt: Range, delta: real)
    requires tfdt.start + 8 <= |data| && data[tfdt.start] == 0
    ensures var moved := MoveTime(data, tfdt, delta);
            && ReadUint32(moved, tfdt.start + 4) == ShortMoved(ReadUint32(data, tfdt.start + 4), delta)
            && moved[..tfdt.start + 4] == data[..tfdt.start + 4] && moved[tfdt.start + 8..] == data[tfdt.start + 8..]
  {
    hide Be32, ReadUint32, Truncate, WriteUint32;
    var i := tfdt.start + 4;
    var v := Truncate(ReadUint32(data, i) as real - delta);
    var a, b, c := data[..i], data[i..i + 4], data[i + 4..];
    assert data == a + b + c;
    WrittenInside(a, b, c, v);
    ReadBe32(WriteUint32(data, i, v), i, v);
  }

  /** The same on 32 bits: exact if and only if the offset is a whole number of ticks that leaves a time of 32 bits. */
  lemma ShortMovedExactly(time: int, delta: real)
    ensures ShortMoved(time, delta) as real == time as real - delta
            <==> delta.Floor as real == delta && 0.0 <= time as real - delta < UINT32 as real
  {
    var v := time as real - delta;
    if delta.Floor as real == delta {
      var n := time - delta.Floor;
      assert v == n as real && (-v).Floor == -n && v.Floor == n;
    }
    if ShortMoved(time, delta) as real == v {
      Whole(time, delta, ShortMoved(time, delta));
    }
  }

  lemma SmallTime(n: int)
    ensures 0 <= n % (UINT32 * UINT32) < UINT32 * UINT32
    ensures n % (UINT32 * UINT32) == n <==> 0 <= n < UINT32 * UINT32
  {
  }

  lemma Whole(time: int, delta: real, t: int)
    requires t as real == time as real - delta
    ensures delta.Floor as real == delta
  {
    assert delta == (time - t) as real;
  }

  // ---- a move that is not exact

  /** Every fragment header that does not outgrow its size field is sound. */
  lemma SoundFragment(sequence: int, time: int, id: nat, samples: seq<Sample>)
    requires FourFlags(samples) && 100 + 17 * |samples| < UINT32
    ensures Sound(Moof(sequence, time, id, samples))
  {
    hide Be32, Mfhd, Tfhd, Trun, Sdtp, Tfdt;
    var moof, traf := Moof(sequence, time, id, samples), Traf(id, time, samples);
    MoofLength(sequence, time, id, samples);
    FragmentLengths(sequence, time, id, samples);
    FourTypes();
    LeafKinds(sequence, time, id, samples);
    SoundNode(traf);
    SoundNode(moof);
  }

  lemma LeafKinds(sequence: int, time: int, id: nat, samples: seq<Sample>)
    ensures Mfhd(sequence).Leaf? && Tfhd(id).Leaf? && Tfdt(time).Leaf? && Sdtp(samples).Leaf?
    ensures Mfhd(sequence).kind == MFHD && Tfhd(id).kind == TFHD && Tfdt(time).kind == TFDT && Sdtp(samples).kind == SDTP
    ensures forall offset :: Trun(samples, offset).Leaf? && Trun(samples, offset).kind == TRUN
  {
  }

  /** A fragment at tick 10, moved back by half a tick: it is read to start at tick 9, not at 9.5. */
  lemma HalfTickExample()
    ensures var init, bs := map[1 := 1], [Moof(1, 10, 1, [])];
            && StartDts(init, BytesAll(bs)) == Ok(10.0)
            && StartDts(init, OffsetStartDts(init, BytesAll(bs), 0.5).0) == Ok(9.0)
  {
    hide StartDts, OffsetStartDts, BytesAll, Moof;
    var init: map<nat, nat> := map[1 := 1];
    var bs := [Moof(1, 10, 1, [])];
    SoundFragment(1, 10, 1, []);
    assert Fragment(bs, 1, 10, 1, []);
    StartDtsRead(init, bs, 1, 10, 1, []);
    StartMoved(init, bs, 1, 10, 1, [], 0.5);
    assert MovedTime(10, 0.5) == 9;
    assert Ticks(0.5, 1) == 0.5;
  }

  /** A fragment at tick 0 that is moved back by one tick wraps around, in either version. */
  lemma BackBelowZeroExample()
    ensures MovedTime(0, 1.0) == UINT32 * UINT32 - 1
    ensures ShortMoved(0, 1.0) == UINT32 - 1
  {
    assert (0.0 - 1.0).Floor == -1;
  }
}
