/** The last slices of a stream, kept in memory for HTTP clients, and the playlist that lists them. */
module SliceStore {
  import opened Basics

  const UNSIGNED: int := 0x1_0000_0000

  /** A frame that has arrived, with the second it is presented at. */
  datatype Frame = Frame(time: nat, bytes: seq<Byte>)

  type Slices = map<nat, seq<Byte>>

  datatype Store = Store(refTime: nat, buffers: Slices)

  /** Signed division as it is done in C. */
  function Divide(a: int, d: nat): int
    requires d > 0
  {
    if a < 0 then -((-a) / d) else a / d
  }

  function RefTime(s: Store, f: Frame): nat {
    if s.refTime == 0 then f.time % UNSIGNED else s.refTime
  }

  /** The slice a frame belongs to. */
  function Slice(time: nat, refTime: nat, d: nat): (k: nat)
    requires d > 0
  {
    Divide(time - refTime, d) % UNSIGNED
  }

  ghost predicate Least(k: nat, keys: set<nat>) {
    k in keys && forall j :: j in keys ==> k <= j
  }

  lemma {:induction false} FindLeast(keys: set<nat>) returns (k: nat)
    requires keys != {}
    ensures Least(k, keys)
    decreases |keys|
  {
    k :| k in keys;
    var rest := keys - {k};
    assert forall j :: j in keys ==> j == k || j in rest;
    if rest != {} {
      var m := FindLeast(rest);
      if m < k {
        k := m;
      }
    }
  }

  lemma FindLeastExists(keys: set<nat>)
    requires keys != {}
    ensures exists k :: Least(k, keys)
  {
    var k := FindLeast(keys);
  }

  ghost function First(keys: set<nat>): (k: nat)
    requires keys != {}
    ensures k in keys && forall j :: j in keys ==> k <= j
  {
    FindLeastExists(keys);
    var k :| Least(k, keys);
    k
  }

  ghost predicate Greatest(k: nat, keys: set<nat>) {
    k in keys && forall j :: j in keys ==> j <= k
  }

  lemma {:induction false} FindGreatest(keys: set<nat>) returns (k: nat)
    requires keys != {}
    ensures Greatest(k, keys)
    decreases |keys|
  {
    k :| k in keys;
    var rest := keys - {k};
    assert forall j :: j in keys ==> j == k || j in rest;
    if rest != {} {
      var m := FindGreatest(rest);
      if k < m {
        k := m;
      }
    }
  }

  lemma FindGreatestExists(keys: set<nat>)
    requires keys != {}
    ensures exists k :: Greatest(k, keys)
  {
    var k := FindGreatest(keys);
  }

  ghost function Last(keys: set<nat>): (k: nat)
    requires keys != {}
    ensures k in keys && forall j :: j in keys ==> j <= k
  {
    FindGreatestExists(keys);
    var k :| Greatest(k, keys);
    k
  }

  /** The oldest slices are removed until no more than so many are left. */
  ghost function Trimmed(b: Slices, nbSlices: nat): Slices
    decreases |b.Keys|
  {
    if |b.Keys| <= nbSlices then b else Trimmed(b - {First(b.Keys)}, nbSlices)
  }

  function Appended(b: Slices, slice: nat, bytes: seq<Byte>): Slices {
    b[slice := (if slice in b then b[slice] else []) + bytes]
  }

  ghost function Stored(s: Store, f: Frame, d: nat, nbSlices: nat): Store
    requires d > 0
  {
    var ref := RefTime(s, f);
    Store(ref, Trimmed(Appended(s.buffers, Slice(f.time, ref, d), f.bytes), nbSlices))
  }

  // ---- what is kept

  /** The bytes of a slice: those of its frames, in order. */
  function Content(fs: seq<Frame>, refTime: nat, d: nat, k: nat): seq<Byte>
    requires d > 0
    decreases |fs|
  {
    if fs == [] then []
    else
      var last := fs[|fs| - 1];
      Content(fs[..|fs| - 1], refTime, d, k) + if Slice(last.time, refTime, d) == k then last.bytes else []
  }

  ghost function Used(fs: seq<Frame>, refTime: nat, d: nat): (u: set<nat>)
    requires d > 0
    decreases |fs|
  {
    if fs == [] then {} else Used(fs[..|fs| - 1], refTime, d) + {Slice(fs[|fs| - 1].time, refTime, d)}
  }

  /** The newest slices that have been used, and no more than so many of them. */
  ghost predicate Newest(keys: set<nat>, used: set<nat>, nbSlices: nat) {
    && keys <= used && |keys| <= nbSlices
    && (forall j, k :: j in used && k in keys && k <= j ==> j in keys)
    && (|keys| < nbSlices ==> keys == used)
  }

  lemma {:induction false} TrimmedNewest(b: Slices, used: set<nat>, nbSlices: nat)
    requires Above(b.Keys, used) && (|b.Keys| < nbSlices ==> b.Keys == used)
    ensures var t := Trimmed(b, nbSlices);
            Newest(t.Keys, used, nbSlices) && forall k :: k in t ==> k in b && t[k] == b[k]
    decreases |b.Keys|
  {
    if |b.Keys| > nbSlices {
      var t := b - {First(b.Keys)};
      assert t.Keys == b.Keys - {First(b.Keys)};
      TrimmedNewest(t, used, nbSlices);
    }
  }

  /** With a slice every later one that has been used. */
  ghost predicate Above(keys: set<nat>, used: set<nat>) {
    keys <= used && forall j, k :: j in used && k in keys && k <= j ==> j in keys
  }

  /** Frames in the order of their times. */
  ghost predicate Ordered(fs: seq<Frame>) {
    && (forall i :: 0 <= i < |fs| ==> fs[i].time < UNSIGNED)
    && (forall i, j :: 0 <= i <= j < |fs| ==> fs[i].time <= fs[j].time)
    && (fs != [] ==> fs[0].time > 0)
  }

  ghost predicate Keeps(s: Store, fs: seq<Frame>, d: nat, nbSlices: nat)
    requires d > 0
  {
    && s.refTime == (if fs == [] then 0 else fs[0].time)
    && Newest(s.buffers.Keys, Used(fs, s.refTime, d), nbSlices)
    && forall k :: k in s.buffers ==> s.buffers[k] == Content(fs, s.refTime, d, k)
  }

  lemma SliceMonotone(a: nat, b: nat, refTime: nat, d: nat)
    requires d > 0 && refTime <= a <= b < UNSIGNED
    ensures Slice(a, refTime, d) <= Slice(b, refTime, d)
    ensures 0 <= Slice(b, refTime, d) * d <= b - refTime < UNSIGNED
  {
    var x, y := a - refTime, b - refTime;
    DivMonotone(x, y, d);
  }

  lemma DivMonotone(x: nat, y: nat, d: nat)
    requires d > 0 && x <= y < UNSIGNED
    ensures x / d <= y / d && y / d * d <= y && (y / d) % UNSIGNED == y / d && (x / d) % UNSIGNED == x / d
  {
    var p, q := x / d, y / d;
    assert x == d * p + x % d;
    assert y == d * q + y % d;
    if p > q {
      Product(p, q, d);
    }
    Small(x, d);
    Small(y, d);
  }

  lemma Product(p: int, q: int, d: nat)
    requires p > q
    ensures d * p >= d * q + d
  {
    assert d * p - d * q == d * (p - q);
    assert d * (p - q - 1) >= 0;
  }

  lemma Small(y: nat, d: nat)
    requires d > 0 && y < UNSIGNED
    ensures (y / d) % UNSIGNED == y / d
  {
    assert y / d < UNSIGNED;
  }

  lemma {:induction false} UsedUpTo(fs: seq<Frame>, d: nat, k: nat)
    requires d > 0 && fs != [] && Ordered(fs) && k in Used(fs, fs[0].time, d)
    ensures k <= Slice(fs[|fs| - 1].time, fs[0].time, d)
    decreases |fs|
  {
    hide Slice;
    var front := fs[..|fs| - 1];
    if front != [] && k in Used(front, fs[0].time, d) {
      UsedUpTo(front, d, k);
      SliceMonotone(front[|front| - 1].time, fs[|fs| - 1].time, fs[0].time, d);
    }
  }

  /** A slice that no frame has belonged to has no bytes. */
  lemma {:induction false} Unused(fs: seq<Frame>, refTime: nat, d: nat, k: nat)
    requires d > 0 && k !in Used(fs, refTime, d)
    ensures Content(fs, refTime, d, k) == []
    decreases |fs|
  {
    if fs != [] {
      Unused(fs[..|fs| - 1], refTime, d, k);
    }
  }

  /** The slice of the next frame comes after all that have been used, or is the last of them. */
  lemma {:induction false} NextSlice(fs: seq<Frame>, f: Frame, d: nat, k: nat)
    requires d > 0 && fs != [] && Ordered(fs + [f]) && k in Used(fs, fs[0].time, d)
    ensures k <= Slice(f.time, fs[0].time, d)
  {
    hide Slice, Used;
    OrderedFront(fs, f);
    UsedUpTo(fs, d, k);
    SliceMonotone(fs[|fs| - 1].time, f.time, fs[0].time, d);
  }

  lemma OrderedFront(fs: seq<Frame>, f: Frame)
    requires Ordered(fs + [f])
    ensures Ordered(fs) && f.time < UNSIGNED && (fs == [] ==> f.time > 0)
    ensures fs != [] ==> fs[0].time <= fs[|fs| - 1].time <= f.time && fs[0].time > 0
  {
    var all := fs + [f];
    assert all[|fs|] == f && forall i :: 0 <= i < |fs| ==> all[i] == fs[i];
  }

  /** The slices, once there is one more that none of those used before comes after. */
  lemma AppendedAbove(keys: set<nat>, used: set<nat>, slice: nat, nbSlices: nat)
    requires Newest(keys, used, nbSlices) && forall k :: k in used ==> k <= slice
    ensures Above(keys + {slice}, used + {slice})
    ensures |keys + {slice}| < nbSlices ==> keys + {slice} == used + {slice}
  {
    MoreKeys(keys, slice);
  }

  lemma {:induction false} SlicesUpTo(fs: seq<Frame>, f: Frame, d: nat)
    requires d > 0 && Ordered(fs + [f])
    ensures var ref := (fs + [f])[0].time;
            forall k :: k in Used(fs, ref, d) ==> k <= Slice(f.time, ref, d)
  {
    hide Slice, Ordered;
    if fs != [] {
      forall k | k in Used(fs, fs[0].time, d) ensures k <= Slice(f.time, fs[0].time, d) {
        NextSlice(fs, f, d, k);
      }
    }
  }

  /** Of the slices with one more frame, the newest are kept as they are. */
  lemma {:induction false} TrimmedKeeps(b: Slices, keys: set<nat>, used: set<nat>, slice: nat, nbSlices: nat)
    requires Newest(keys, used, nbSlices) && b.Keys == keys + {slice} && forall k :: k in used ==> k <= slice
    ensures var t := Trimmed(b, nbSlices);
            && Newest(t.Keys, used + {slice}, nbSlices)
            && (forall k :: k in t ==> k in b && t[k] == b[k])
            && (slice in t && slice !in keys ==> slice !in used)
  {
    hide Newest, Above, Trimmed;
    AppendedAbove(keys, used, slice, nbSlices);
    TrimmedNewest(b, used + {slice}, nbSlices);
    var t := Trimmed(b, nbSlices);
    NewestFew(t.Keys, used + {slice}, nbSlices);
    if slice in t && slice !in keys {
      OnlyIfUnused(t.Keys, keys, used, slice, nbSlices);
    }
  }

  /** With a frame more, each slice still has the bytes of its frames. */
  lemma {:induction false} AppendedContent(b: Slices, fs: seq<Frame>, f: Frame, ref: nat, d: nat, k: nat)
    requires d > 0 && (forall j :: j in b ==> b[j] == Content(fs, ref, d, j))
    requires k in b || k == Slice(f.time, ref, d)
    requires k !in b ==> k !in Used(fs, ref, d)
    ensures Appended(b, Slice(f.time, ref, d), f.bytes)[k] == Content(fs + [f], ref, d, k)
  {
    hide Slice, Used;
    assert (fs + [f])[..|fs|] == fs;
    if k !in b {
      Unused(fs, ref, d, k);
    }
  }

  /** A frame that arrives keeps the newest slices, each with the bytes of its frames. */
  lemma StoredKeeps(s: Store, fs: seq<Frame>, f: Frame, d: nat, nbSlices: nat)
    requires d > 0 && Keeps(s, fs, d, nbSlices) && Ordered(fs + [f])
    ensures Keeps(Stored(s, f, d, nbSlices), fs + [f], d, nbSlices)
  {
    hide Slice, Ordered, Trimmed, Newest, Above, Content, Used;
    var all := fs + [f];
    var ref := all[0].time;
    RefKept(s, fs, f, d, nbSlices);
    var slice := Slice(f.time, ref, d);
    UsedMore(fs, f, ref, d);
    SlicesUpTo(fs, f, d);
    var b := Appended(s.buffers, slice, f.bytes);
    assert b.Keys == s.buffers.Keys + {slice};
    TrimmedKeeps(b, s.buffers.Keys, Used(fs, ref, d), slice, nbSlices);
    var t := Trimmed(b, nbSlices);
    forall k | k in t
      ensures t[k] == Content(all, ref, d, k)
    {
      AppendedContent(s.buffers, fs, f, ref, d, k);
    }
  }

  lemma {:induction false} UsedMore(fs: seq<Frame>, f: Frame, ref: nat, d: nat)
    requires d > 0
    ensures Used(fs + [f], ref, d) == Used(fs, ref, d) + {Slice(f.time, ref, d)}
  {
    assert (fs + [f])[..|fs|] == fs;
  }

  lemma {:induction false} RefKept(s: Store, fs: seq<Frame>, f: Frame, d: nat, nbSlices: nat)
    requires d > 0 && Keeps(s, fs, d, nbSlices) && Ordered(fs + [f])
    ensures RefTime(s, f) == (fs + [f])[0].time
    ensures Newest(s.buffers.Keys, Used(fs, (fs + [f])[0].time, d), nbSlices)
    ensures forall k :: k in s.buffers ==> s.buffers[k] == Content(fs, (fs + [f])[0].time, d, k)
  {
    hide Newest, Slice;
    OrderedFront(fs, f);
  }

  lemma NewestFew(keys: set<nat>, used: set<nat>, nbSlices: nat)
    requires Newest(keys, used, nbSlices)
    ensures |keys| <= nbSlices
  {
  }

  lemma MoreKeys(keys: set<nat>, slice: nat)
    ensures |keys| <= |keys + {slice}|
  {
    if slice in keys {
      assert keys + {slice} == keys;
    }
  }

  lemma OnlyIfUnused(t: set<nat>, keys: set<nat>, used: set<nat>, slice: nat, nbSlices: nat)
    requires Newest(keys, used, nbSlices) && slice in t && |t| <= nbSlices && slice !in keys
    requires forall k :: k in used ==> k <= slice
    ensures slice !in used
  {
    if keys == {} {
      assert |t| > 0;
    } else {
      assert First(keys) in keys;
    }
  }

  // ---- runs

  /** A frame arrives; one that was too large for the buffer is not stored. */
  datatype Event = Event(frame: Frame, truncated: nat)

  function Accepted(es: seq<Event>): seq<Frame>
    decreases |es|
  {
    if es == [] then []
    else
      var last := es[|es| - 1];
      Accepted(es[..|es| - 1]) + if last.truncated > 0 then [] else [last.frame]
  }

  ghost function Run(es: seq<Event>, d: nat, nbSlices: nat): Store
    requires d > 0
    decreases |es|
  {
    if es == [] then Store(0, map[])
    else
      var s, last := Run(es[..|es| - 1], d, nbSlices), es[|es| - 1];
      if last.truncated > 0 then s else Stored(s, last.frame, d, nbSlices)
  }

  /** After any run of frames in the order of their times, the first of them not at second 0, what is stored is the
      newest slices, no more than allowed, each with the bytes of its frames in order. */
  lemma {:induction false} RunKeeps(es: seq<Event>, d: nat, nbSlices: nat)
    requires d > 0 && Ordered(Accepted(es))
    ensures Keeps(Run(es, d, nbSlices), Accepted(es), d, nbSlices)
    decreases |es|
  {
    hide Stored, Ordered, Newest;
    if es != [] {
      var front, last := es[..|es| - 1], es[|es| - 1];
      if last.truncated > 0 {
        assert Accepted(front) + [] == Accepted(front);
        RunKeeps(front, d, nbSlices);
      } else {
        OrderedFront(Accepted(front), last.frame);
        RunKeeps(front, d, nbSlices);
        StoredKeeps(Run(front, d, nbSlices), Accepted(front), last.frame, d, nbSlices);
      }
    } else {
      NothingKept(d, nbSlices);
    }
  }

  lemma NothingKept(d: nat, nbSlices: nat)
    requires d > 0
    ensures Keeps(Store(0, map[]), [], d, nbSlices)
  {
  }

  // ---- the playlist

  ghost function FirstTime(s: Store, d: nat): nat {
    if s.buffers == map[] then 0 else First(s.buffers.Keys) * d % UNSIGNED
  }

  ghost function Duration(s: Store, d: nat): nat {
    if s.buffers == map[] then 0 else (Last(s.buffers.Keys) - First(s.buffers.Keys)) * d % UNSIGNED
  }

  /** How many slices the playlist lists: all from the first one on, but not the one that is still being written. */
  ghost function Complete(s: Store): nat {
    if s.buffers == map[] then 0 else Last(s.buffers.Keys) - First(s.buffers.Keys)
  }

  /** The segments of a playlist, by the second they start at. */
  function Listed(start: nat, d: nat, n: nat): (l: seq<nat>)
    ensures |l| == n
  {
    seq(n, i requires 0 <= i < n => start + i * d)
  }

  /** The slice that a client seeks to. */
  function Sought(offset: nat, d: nat): nat
    requires d > 0
  {
    offset / d
  }

  lemma SoughtSlice(k: nat, d: nat)
    requires d > 0
    ensures Sought(k * d, d) == k
  {
    OneQuotient(k, d, k * d / d, k * d % d);
  }

  lemma OneQuotient(k: int, d: int, q: int, r: int)
    requires k * d == q * d + r && 0 <= r < d
    ensures q == k
  {
    assert (k - q) * d == r;
    Apart(k - q, d);
  }

  lemma Apart(n: int, d: int)
    requires d > 0
    ensures n >= 1 ==> n * d >= d
    ensures n <= -1 ==> n * d <= -d
  {
  }

  /** The numbers that are multiplied stay below the width of an unsigned integer. */
  ghost predicate Narrow(s: Store, d: nat) {
    forall k :: k in s.buffers ==> k * d < UNSIGNED
  }

  lemma KeptNarrow(s: Store, fs: seq<Frame>, d: nat, nbSlices: nat)
    requires d > 0 && Ordered(fs) && Keeps(s, fs, d, nbSlices)
    ensures Narrow(s, d)
  {
    hide Slice, Used;
    forall k | k in s.buffers
      ensures k * d < UNSIGNED
    {
      if fs == [] {
        assert s.buffers.Keys <= Used([], 0, d);
        NoneUsed(d);
      } else {
        var last := fs[|fs| - 1];
        UsedUpTo(fs, d, k);
        SliceMonotone(last.time, last.time, fs[0].time, d);
        Times(k, Slice(last.time, fs[0].time, d), d);
      }
    }
  }

  lemma {:induction false} NoneUsed(d: nat)
    requires d > 0
    ensures Used([], 0, d) == {}
  {
  }

  lemma Times(a: nat, b: nat, d: nat)
    requires a <= b
    ensures a * d <= b * d
  {
    assert b * d - a * d == (b - a) * d;
  }

  lemma StartAndDuration(s: Store, d: nat)
    requires d > 0 && Narrow(s, d) && s.buffers != map[]
    ensures FirstTime(s, d) == First(s.buffers.Keys) * d
    ensures Duration(s, d) == Complete(s) * d
    ensures Duration(s, d) > 0 <==> Complete(s) > 0
  {
    var a, b := First(s.buffers.Keys), Last(s.buffers.Keys);
    assert a * d < UNSIGNED && b * d < UNSIGNED;
    assert b * d - a * d == (b - a) * d;
    Times(0, a, d);
    Times(0, b - a, d);
    if b - a > 0 {
      Times(1, b - a, d);
    }
  }

  ghost predicate Contiguous(keys: set<nat>) {
    keys != {} ==> forall k :: First(keys) <= k <= Last(keys) ==> k in keys
  }

  /** What a client gets that asks for a segment. */
  ghost predicate Serves(s: Store, d: nat, offset: nat)
    requires d > 0
  {
    Sought(offset, d) in s.buffers
  }

  lemma ListedSlices(s: Store, d: nat, i: nat)
    requires d > 0 && Narrow(s, d) && i < Complete(s)
    ensures Sought(Listed(FirstTime(s, d), d, Complete(s))[i], d) == First(s.buffers.Keys) + i
  {
    hide Sought;
    StartAndDuration(s, d);
    var a := First(s.buffers.Keys);
    assert a * d + i * d == (a + i) * d;
    SoughtSlice(a + i, d);
  }

  /** All that the playlist lists is there if and only if no slice is missing between the first and the last. */
  lemma ListedPresent(s: Store, d: nat)
    requires d > 0 && Narrow(s, d)
    ensures var l := Listed(FirstTime(s, d), d, Complete(s));
            (forall i :: 0 <= i < |l| ==> Serves(s, d, l[i])) <==> Contiguous(s.buffers.Keys)
  {
    hide Sought;
    var l := Listed(FirstTime(s, d), d, Complete(s));
    forall i | 0 <= i < |l|
      ensures Serves(s, d, l[i]) <==> First(s.buffers.Keys) + i in s.buffers
    {
      ListedSlices(s, d, i);
    }
    if s.buffers != map[] && forall i :: 0 <= i < |l| ==> Serves(s, d, l[i]) {
      forall k | First(s.buffers.Keys) <= k <= Last(s.buffers.Keys)
        ensures k in s.buffers.Keys
      {
        if k < Last(s.buffers.Keys) {
          assert Serves(s, d, l[k - First(s.buffers.Keys)]);
        }
      }
    }
    if s.buffers != map[] && Contiguous(s.buffers.Keys) {
      forall i | 0 <= i < |l|
        ensures Serves(s, d, l[i])
      {
        assert First(s.buffers.Keys) + i in s.buffers.Keys;
      }
    }
  }

  // ---- what a client gets

  ghost predicate NonEmpty(fs: seq<Frame>) {
    forall i :: 0 <= i < |fs| ==> fs[i].bytes != []
  }

  /** A slice that has been used has bytes, if frames have. */
  lemma {:induction false} UsedNonEmpty(fs: seq<Frame>, refTime: nat, d: nat, k: nat)
    requires d > 0 && NonEmpty(fs) && k in Used(fs, refTime, d)
    ensures Content(fs, refTime, d, k) != []
    decreases |fs|
  {
    if k in Used(fs[..|fs| - 1], refTime, d) {
      UsedNonEmpty(fs[..|fs| - 1], refTime, d, k);
    }
  }

  /** The last slice kept is the one of the last frame. */
  lemma LastKept(s: Store, fs: seq<Frame>, d: nat, nbSlices: nat)
    requires d > 0 && fs != [] && Ordered(fs) && Keeps(s, fs, d, nbSlices) && nbSlices > 0
    ensures s.buffers != map[] && Last(s.buffers.Keys) == Slice(fs[|fs| - 1].time, fs[0].time, d)
  {
    hide Slice, Ordered, Content;
    var slice := Slice(fs[|fs| - 1].time, fs[0].time, d);
    var used := Used(fs, fs[0].time, d);
    assert slice in used;
    forall k | k in used ensures k <= slice {
      UsedUpTo(fs, d, k);
    }
    NewestHasLast(s.buffers.Keys, used, slice, nbSlices);
  }

  lemma NewestHasLast(keys: set<nat>, used: set<nat>, slice: nat, nbSlices: nat)
    requires Newest(keys, used, nbSlices) && nbSlices > 0 && slice in used && forall k :: k in used ==> k <= slice
    ensures keys != {} && Last(keys) == slice
  {
    assert slice in keys;
  }

  /** Later frames do not add to a slice that is complete. */
  lemma {:induction false} NeverExtended(fs: seq<Frame>, more: seq<Frame>, d: nat, k: nat)
    requires d > 0 && fs != [] && Ordered(fs + more) && k < Slice(fs[|fs| - 1].time, fs[0].time, d)
    ensures Content(fs + more, fs[0].time, d, k) == Content(fs, fs[0].time, d, k)
    decreases |more|
  {
    if more == [] {
      assert fs + more == fs;
    } else {
      var front, f := more[..|more| - 1], more[|more| - 1];
      var all := fs + more;
      assert all == (fs + front) + [f];
      assert all[..|all| - 1] == fs + front;
      OrderedFront(fs + front, f);
      NeverExtended(fs, front, d, k);
      assert all[|fs| - 1].time <= all[|all| - 1].time && all[0].time <= all[|fs| - 1].time;
      SliceMonotone(fs[|fs| - 1].time, f.time, fs[0].time, d);
      hide Slice;
    }
  }

  lemma SegmentComplete(s: Store, fs: seq<Frame>, more: seq<Frame>, d: nat, nbSlices: nat, n: nat, i: nat)
    requires d > 0 && nbSlices > 0 && fs != [] && Ordered(fs) && Ordered(fs + more) && NonEmpty(fs) && Keeps(s, fs, d, nbSlices)
    requires Serves(s, d, n) && i < Complete(s) && Sought(n, d) == First(s.buffers.Keys) + i
    ensures CompleteSegment(s, fs, fs + more, d, n)
  {
    hide Slice, Ordered, NonEmpty, Sought, Used;
    LastKept(s, fs, d, nbSlices);
    UsedNonEmpty(fs, fs[0].time, d, Sought(n, d));
    NeverExtended(fs, more, d, Sought(n, d));
  }

  lemma OrderedPrefix(fs: seq<Frame>, more: seq<Frame>)
    requires Ordered(fs + more)
    ensures Ordered(fs)
  {
    assert forall i :: 0 <= i < |fs| ==> (fs + more)[i] == fs[i];
  }

  ghost predicate CompleteSegment(s: Store, fs: seq<Frame>, later: seq<Frame>, d: nat, n: nat)
    requires d > 0 && fs != []
  {
    var k := Sought(n, d);
    && k in s.buffers && s.buffers[k] != []
    && s.buffers[k] == Content(fs, fs[0].time, d, k) == Content(later, fs[0].time, d, k)
  }

  // ---- when all that is listed is there, in terms of the frames that have arrived

  /** The n-th highest of some numbers, or the lowest if there are fewer. */
  ghost function NthHighest(used: set<nat>, n: nat): (k: nat)
    requires used != {} && n > 0
    ensures k in used
    decreases n
  {
    var rest := used - {Last(used)};
    if n == 1 || rest == {} then Last(used) else NthHighest(rest, n - 1)
  }

  /** Without the highest number, the others are still the highest ones. */
  lemma WithoutLast(keys: set<nat>, used: set<nat>, n: nat)
    requires Newest(keys, used, n) && used != {} && n > 0
    ensures keys != {} && Last(keys) == Last(used)
    ensures n == 1 || used - {Last(used)} == {} <==> keys - {Last(used)} == {}
    ensures n > 1 ==> Newest(keys - {Last(used)}, used - {Last(used)}, n - 1)
  {
    var top := Last(used);
    NewestHasLast(keys, used, top, n);
    OneLess(keys, top);
  }

  lemma OneLess(keys: set<nat>, top: nat)
    requires top in keys
    ensures |keys - {top}| == |keys| - 1
    ensures keys - {top} == {} <==> |keys| == 1
  {
    assert keys == (keys - {top}) + {top};
    assert |keys - {top}| == 0 <==> keys - {top} == {};
  }

  lemma FirstWithout(keys: set<nat>, top: nat)
    requires top in keys && top == Last(keys)
    ensures First(keys) == if keys - {top} == {} then top else First(keys - {top})
  {
    var rest := keys - {top};
    if rest == {} {
      assert First(keys) in rest + {top};
    } else {
      assert First(rest) in keys;
      assert First(keys) != top ==> First(keys) in rest;
    }
  }

  /** The first slice kept is the n-th highest of those used, for n slices kept at most. */
  lemma {:induction false} FirstIsNthHighest(keys: set<nat>, used: set<nat>, n: nat)
    requires Newest(keys, used, n) && used != {} && n > 0
    ensures keys != {} && First(keys) == NthHighest(used, n)
    decreases n
  {
    hide Newest;
    var top := Last(used);
    WithoutLast(keys, used, n);
    FirstWithout(keys, top);
    if n > 1 && used - {top} != {} {
      FirstIsNthHighest(keys - {top}, used - {top}, n - 1);
    }
  }

  /** From the oldest slice kept on, no slice is skipped from one frame to the next. */
  ghost predicate NoSkipKept(fs: seq<Frame>, refTime: nat, d: nat, nbSlices: nat)
    requires d > 0 && nbSlices > 0
  {
    forall i :: 0 < i < |fs| && Used(fs, refTime, d) != {} && Slice(fs[i].time, refTime, d) > NthHighest(Used(fs, refTime, d), nbSlices)
      ==> NextTo(fs, refTime, d, i)
  }

  ghost predicate NextTo(fs: seq<Frame>, refTime: nat, d: nat, i: int)
    requires d > 0 && 0 < i < |fs|
  {
    Slice(fs[i].time, refTime, d) <= Slice(fs[i - 1].time, refTime, d) + 1
  }

  /** Without a skip above some slice, every slice from it up to the newest has been used. */
  lemma {:induction false} AllUsedFrom(fs: seq<Frame>, d: nat, low: nat, k: nat)
    requires d > 0 && fs != [] && Ordered(fs) && low in Used(fs, fs[0].time, d)
    requires forall i :: 0 < i < |fs| && Slice(fs[i].time, fs[0].time, d) > low ==> NextTo(fs, fs[0].time, d, i)
    requires low <= k <= Slice(fs[|fs| - 1].time, fs[0].time, d)
    ensures k in Used(fs, fs[0].time, d)
    decreases |fs|
  {
    hide Slice;
    var n := |fs| - 1;
    var front := fs[..n];
    if k < Slice(fs[n].time, fs[0].time, d) {
      assert front != [];
      assert NextTo(fs, fs[0].time, d, n);
      forall i | 0 < i < n && Slice(front[i].time, front[0].time, d) > low
        ensures NextTo(front, front[0].time, d, i)
      {
        assert NextTo(fs, fs[0].time, d, i);
      }
      AllUsedFrom(front, d, low, k);
    }
  }

  /** A slice that has been used is that of a frame. */
  lemma {:induction false} UsedBy(fs: seq<Frame>, refTime: nat, d: nat, k: nat) returns (j: nat)
    requires d > 0 && k in Used(fs, refTime, d)
    ensures j < |fs| && Slice(fs[j].time, refTime, d) == k
    decreases |fs|
  {
    hide Slice;
    j := |fs| - 1;
    if Slice(fs[j].time, refTime, d) != k {
      j := UsedBy(fs[..j], refTime, d, k);
    }
  }

  lemma {:induction false} FrameUses(fs: seq<Frame>, refTime: nat, d: nat, j: nat)
    requires d > 0 && j < |fs|
    ensures Slice(fs[j].time, refTime, d) in Used(fs, refTime, d)
    decreases |fs|
  {
    hide Slice;
    if j < |fs| - 1 {
      FrameUses(fs[..|fs| - 1], refTime, d, j);
    }
  }

  /** A slice that is skipped is not used by any other frame. */
  lemma {:induction false} SkippedUnused(fs: seq<Frame>, d: nat, i: nat)
    requires d > 0 && Ordered(fs) && 0 < i < |fs| && !NextTo(fs, fs[0].time, d, i)
    ensures Slice(fs[i].time, fs[0].time, d) > 0 && Slice(fs[i].time, fs[0].time, d) - 1 !in Used(fs, fs[0].time, d)
  {
    hide Slice;
    var k := Slice(fs[i].time, fs[0].time, d) - 1;
    if k in Used(fs, fs[0].time, d) {
      var j := UsedBy(fs, fs[0].time, d, k);
      if j < i {
        SliceMonotone(fs[j].time, fs[i - 1].time, fs[0].time, d);
      } else {
        SliceMonotone(fs[i].time, fs[j].time, fs[0].time, d);
      }
    }
  }

  /** The slices kept have no gap if and only if the frames that have arrived skipped none from the oldest one kept on. */
  lemma ContiguousKept(s: Store, fs: seq<Frame>, d: nat, nbSlices: nat)
    requires d > 0 && nbSlices > 0 && fs != [] && Ordered(fs) && Keeps(s, fs, d, nbSlices)
    ensures Contiguous(s.buffers.Keys) <==> NoSkipKept(fs, fs[0].time, d, nbSlices)
  {
    hide Slice, Ordered, Used, Content, Newest, NextTo;
    var keys, used := s.buffers.Keys, Used(fs, fs[0].time, d);
    FrameUses(fs, fs[0].time, d, 0);
    FirstIsNthHighest(keys, used, nbSlices);
    LastKept(s, fs, d, nbSlices);
    NewestAbove(keys, used, nbSlices);
    if NoSkipKept(fs, fs[0].time, d, nbSlices) {
      forall k | First(keys) <= k <= Last(keys)
        ensures k in keys
      {
        AllUsedFrom(fs, d, First(keys), k);
      }
    }
    if Contiguous(keys) {
      forall i | 0 < i < |fs| && Slice(fs[i].time, fs[0].time, d) > First(keys)
        ensures NextTo(fs, fs[0].time, d, i)
      {
        FrameUses(fs, fs[0].time, d, i);
        assert Slice(fs[i].time, fs[0].time, d) in keys;
        if !NextTo(fs, fs[0].time, d, i) {
          SkippedUnused(fs, d, i);
        }
      }
    }
  }

  lemma NewestAbove(keys: set<nat>, used: set<nat>, nbSlices: nat)
    requires Newest(keys, used, nbSlices)
    ensures Above(keys, used)
  {
  }

  /** After any run of frames in the order of their times, all that the playlist lists is there if and only if no frame
      skipped a slice from the oldest one kept on. A skip further back does no harm. */
  lemma {:induction false} ListedServed(es: seq<Event>, d: nat, nbSlices: nat)
    requires d > 0 && nbSlices > 0 && Accepted(es) != [] && Ordered(Accepted(es))
    ensures var s, fs := Run(es, d, nbSlices), Accepted(es);
            var l := Listed(FirstTime(s, d), d, Complete(s));
            (forall i :: 0 <= i < |l| ==> Serves(s, d, l[i])) <==> NoSkipKept(fs, fs[0].time, d, nbSlices)
  {
    hide Run, Accepted, Listed, Serves, Keeps, Ordered, Complete, FirstTime, NoSkipKept, Contiguous;
    var s, fs := Run(es, d, nbSlices), Accepted(es);
    RunKeeps(es, d, nbSlices);
    KeptNarrow(s, fs, d, nbSlices);
    ListedPresent(s, d);
    ContiguousKept(s, fs, d, nbSlices);
  }

  /** Whatever the playlist lists is there with all bytes of its frames, at least one, and complete, as no later frame
      belongs to it, if and only if no slice is skipped among those kept. */
  lemma {:induction false} SegmentsComplete(es: seq<Event>, d: nat, nbSlices: nat, more: seq<Frame>)
    requires d > 0 && nbSlices > 0
    requires var fs := Accepted(es); fs != [] && Ordered(fs + more) && NonEmpty(fs)
    ensures var s, fs := Run(es, d, nbSlices), Accepted(es);
            var l := Listed(FirstTime(s, d), d, Complete(s));
            (forall i :: 0 <= i < |l| ==> CompleteSegment(s, fs, fs + more, d, l[i])) <==> NoSkipKept(fs, fs[0].time, d, nbSlices)
  {
    hide Run, Accepted, Slice, Listed, Sought, Complete, Newest, NoSkipKept, Ordered;
    var s, fs := Run(es, d, nbSlices), Accepted(es);
    OrderedPrefix(fs, more);
    RunKeeps(es, d, nbSlices);
    KeptNarrow(s, fs, d, nbSlices);
    ListedServed(es, d, nbSlices);
    var l := Listed(FirstTime(s, d), d, Complete(s));
    forall i | 0 <= i < |l|
      ensures CompleteSegment(s, fs, fs + more, d, l[i]) <==> Serves(s, d, l[i])
    {
      if Serves(s, d, l[i]) {
        ListedSlices(s, d, i);
        SegmentComplete(s, fs, more, d, nbSlices, l[i], i);
      }
    }
  }

  /** Frames at seconds 1 and 3, with slices of one second: slices 0 and 2 are kept, the playlist lists 0 and 1, and
      there is no slice 1. */
  lemma {:induction false} SkipExample(nbSlices: nat)
    requires nbSlices >= 2
    ensures var s := Run(TWO_FRAMES, 1, nbSlices);
            && s.buffers.Keys == {0, 2}
            && Listed(FirstTime(s, 1), 1, Complete(s)) == [0, 1]
            && Serves(s, 1, 0) && !Serves(s, 1, 1)
  {
    hide Slice, Trimmed;
    var a, b := Frame(1, [7]), Frame(3, [7]);
    assert TWO_FRAMES[..1] == [Event(a, 0)] && [Event(a, 0)][..0] == [];
    var start := Run([], 1, nbSlices);
    var one := Stored(start, a, 1, nbSlices);
    assert Run([Event(a, 0)], 1, nbSlices) == one;
    SliceOne(1, 1);
    SliceOne(3, 1);
    assert Appended(map[], 0, a.bytes).Keys == {0};
    NothingTrimmed(Appended(map[], 0, a.bytes), nbSlices);
    var two := Stored(one, b, 1, nbSlices);
    assert Appended(one.buffers, 2, b.bytes).Keys == {0, 2};
    NothingTrimmed(Appended(one.buffers, 2, b.bytes), nbSlices);
    assert First({0, 2}) == 0 && Last({0, 2}) == 2;
  }

  lemma SliceOne(time: nat, refTime: nat)
    requires refTime <= time < UNSIGNED
    ensures Slice(time, refTime, 1) == time - refTime
  {
  }

  lemma {:induction false} NothingTrimmed(b: Slices, nbSlices: nat)
    requires |b.Keys| <= nbSlices
    ensures Trimmed(b, nbSlices) == b
  {
  }

  const TWO_FRAMES: seq<Event> := [Event(Frame(1, [7]), 0), Event(Frame(3, [7]), 0)]

  // ---- the sink, the subsession and the server as objects

  class MemoryBufferSink {
    var buffers: Slices
    var bufferSize: nat
    var refTime: nat
    const sliceDuration: nat
    const nbSlices: nat

    ghost predicate Valid() {
      sliceDuration > 0
    }

    ghost function Value(): Store
      reads this
    {
      Store(refTime, buffers)
    }

    constructor (bufferSize: nat, sliceDuration: nat, nbSlices: nat)
      requires sliceDuration > 0
      ensures Valid() && Value() == Run([], sliceDuration, nbSlices)
      ensures this.sliceDuration == sliceDuration && this.nbSlices == nbSlices && this.bufferSize == bufferSize
    {
      this.bufferSize := bufferSize;
      this.sliceDuration := sliceDuration;
      this.nbSlices := nbSlices;
      buffers, refTime := map[], 0;
    }

    /** afterGettingFrame: a frame that did not fit makes the buffer larger and is dropped. */
    method AfterGettingFrame(frame: Frame, truncated: nat)
      requires Valid()
      modifies this
      ensures truncated > 0 ==> Value() == old(Value()) && bufferSize == old(bufferSize) + truncated
      ensures truncated == 0 ==> Value() == Stored(old(Value()), frame, sliceDuration, nbSlices) && bufferSize == old(bufferSize)
    {
      if truncated > 0 {
        bufferSize := bufferSize + truncated;
      } else {
        hide Slice;
        if refTime == 0 {
          refTime := frame.time % UNSIGNED;
        }
        var slice := Slice(frame.time, refTime, sliceDuration);
        buffers := Appended(buffers, slice, frame.bytes);
        Trim();
      }
    }

    method Trim()
      modifies this`buffers
      ensures buffers == Trimmed(old(buffers), nbSlices)
    {
      while |buffers.Keys| > nbSlices
        invariant Trimmed(buffers, nbSlices) == Trimmed(old(buffers), nbSlices)
        decreases |buffers.Keys|
      {
        var begin := Begin();
        buffers := buffers - {begin};
      }
    }

    /** The first slice of the map. */
    method Begin() returns (k: nat)
      requires buffers.Keys != {}
      ensures k == First(buffers.Keys)
    {
      k :| k in buffers.Keys;
      var rest := buffers.Keys - {k};
      while rest != {}
        invariant k in buffers.Keys && rest <= buffers.Keys
        invariant forall j :: j in buffers.Keys && j !in rest ==> k <= j
        decreases |rest|
      {
        var j :| j in rest;
        rest := rest - {j};
        if j < k {
          k := j;
        }
      }
    }

    /** The last slice of the map. */
    method Rbegin() returns (k: nat)
      requires buffers.Keys != {}
      ensures k == Last(buffers.Keys)
    {
      k :| k in buffers.Keys;
      var rest := buffers.Keys - {k};
      while rest != {}
        invariant k in buffers.Keys && rest <= buffers.Keys
        invariant forall j :: j in buffers.Keys && j !in rest ==> j <= k
        decreases |rest|
      {
        var j :| j in rest;
        rest := rest - {j};
        if k < j {
          k := j;
        }
      }
    }

    function GetBuffer(slice: nat): seq<Byte>
      reads this
    {
      if slice in buffers then buffers[slice] else []
    }

    function GetBufferSize(slice: nat): nat
      reads this
    {
      if slice in buffers then |buffers[slice]| else 0
    }

    method GetFirstTime() returns (t: nat)
      ensures t == FirstTime(Value(), sliceDuration)
    {
      t := 0;
      if |buffers.Keys| != 0 {
        var k := Begin();
        t := k * sliceDuration % UNSIGNED;
      }
    }

    method GetDuration() returns (t: nat)
      ensures t == Duration(Value(), sliceDuration)
    {
      t := 0;
      if |buffers.Keys| != 0 {
        var first := Begin();
        var last := Rbegin();
        t := (last - first) * sliceDuration % UNSIGNED;
      }
    }
  }

  class Subsession {
    const hlsSink: MemoryBufferSink
    var slice: nat

    constructor (sink: MemoryBufferSink)
      ensures hlsSink == sink && slice == 0
    {
      hlsSink := sink;
      slice := 0;
    }

    /** seekStream: the time is moved back to the start of its slice. */
    method SeekStream(seekNpt: nat) returns (npt: nat, numBytes: nat)
      requires hlsSink.Valid()
      modifies this
      ensures slice == Sought(seekNpt, hlsSink.sliceDuration) && npt == slice * hlsSink.sliceDuration
      ensures npt <= seekNpt < npt + hlsSink.sliceDuration
      ensures numBytes == hlsSink.GetBufferSize(slice)
    {
      slice := Sought(seekNpt, hlsSink.sliceDuration);
      npt := slice * hlsSink.sliceDuration;
      numBytes := hlsSink.GetBufferSize(slice);
      assert seekNpt == hlsSink.sliceDuration * (seekNpt / hlsSink.sliceDuration) + seekNpt % hlsSink.sliceDuration;
    }

    /** getStreamSource: the bytes of the slice that was sought; none if there are none. */
    function GetStreamSource(): seq<Byte>
      reads this, hlsSink
    {
      hlsSink.GetBuffer(slice)
    }
  }

  /** How many slices the loop of the playlist goes through: up to n at most, but fewer if a product wraps around to a
      number that is not below the duration. */
  function Passes(duration: nat, d: nat, k: nat, n: nat): (m: nat)
    requires k <= n
    ensures k <= m <= n
    decreases n - k
  {
    if k == n || k * d % UNSIGNED >= duration then k else Passes(duration, d, k + 1, n)
  }

  function Segments(start: nat, d: nat, n: nat): (l: seq<nat>)
    ensures |l| == n
  {
    seq(n, i requires 0 <= i < n => (start + i * d) % UNSIGNED)
  }

  /** The loop of the playlist: one segment after another, as long as it starts before the end, in unsigned numbers.
      Without a wrap-around these are all complete slices. */
  method SendM3u8PlayList(sink: MemoryBufferSink) returns (ok: bool, segments: seq<nat>)
    requires sink.Valid()
    ensures ok <==> Duration(sink.Value(), sink.sliceDuration) > 0
    ensures var s, d := sink.Value(), sink.sliceDuration;
            ok ==> segments == Segments(FirstTime(s, d), d, Passes(Duration(s, d), d, 0, Complete(s)))
    ensures var s, d := sink.Value(), sink.sliceDuration;
            Narrow(s, d) ==> (ok <==> Complete(s) > 0) && (ok ==> segments == Listed(FirstTime(s, d), d, Complete(s)))
  {
    hide FirstTime, Duration, Complete, Narrow;
    ghost var s := sink.Value();
    var sliceDuration := sink.sliceDuration;
    var duration := sink.GetDuration();
    WholeDuration(s, sliceDuration);
    AllListed(s, sliceDuration);
    if duration <= 0 {
      return false, [];
    }
    var startTime := sink.GetFirstTime();
    ghost var n := Complete(s);
    segments := [];
    var slice := 0;
    while slice * sliceDuration % UNSIGNED < duration
      invariant 0 <= slice <= n && segments == Segments(startTime, sliceDuration, slice)
      invariant Passes(duration, sliceDuration, slice, n) == Passes(duration, sliceDuration, 0, n)
      decreases n - slice
    {
      assert slice != n;
      OneSegment(startTime, sliceDuration, slice);
      segments := segments + [(startTime + slice * sliceDuration) % UNSIGNED];
      slice := slice + 1;
    }
    ok := true;
  }

  lemma OneSegment(start: nat, d: nat, n: nat)
    ensures Segments(start, d, n + 1) == Segments(start, d, n) + [(start + n * d) % UNSIGNED]
  {
  }

  /** The duration is that of the complete slices, with wrap-around. */
  lemma WholeDuration(s: Store, d: nat)
    requires d > 0
    ensures Duration(s, d) == Complete(s) * d % UNSIGNED
  {
  }

  /** The loop ends at the first time that is not below the duration, or at the last. */
  lemma {:induction false} FirstPass(duration: nat, d: nat, k: nat, n: nat)
    requires k <= n
    ensures var m := Passes(duration, d, k, n);
            && k <= m <= n && (m < n ==> m * d % UNSIGNED >= duration)
            && forall j :: k <= j < m ==> j * d % UNSIGNED < duration
    decreases n - k
  {
    if k < n && k * d % UNSIGNED < duration {
      FirstPass(duration, d, k + 1, n);
    }
  }

  lemma {:induction false} AllPasses(duration: nat, d: nat, k: nat, n: nat)
    requires d > 0 && k <= n && duration == n * d && n * d < UNSIGNED
    ensures Passes(duration, d, k, n) == n
    decreases n - k
  {
    if k < n {
      Less(k, n, d);
      AllPasses(duration, d, k + 1, n);
    }
  }

  /** As long as nothing wraps around, all complete slices are listed. */
  lemma {:induction false} AllListed(s: Store, d: nat)
    requires d > 0
    ensures Narrow(s, d) ==>
              && (Duration(s, d) > 0 <==> Complete(s) > 0)
              && Segments(FirstTime(s, d), d, Passes(Duration(s, d), d, 0, Complete(s))) == Listed(FirstTime(s, d), d, Complete(s))
  {
    hide Passes;
    if Narrow(s, d) && s.buffers != map[] {
      StartAndDuration(s, d);
      var a, n := First(s.buffers.Keys), Complete(s);
      assert (a + n) * d < UNSIGNED;
      assert a * d + n * d == (a + n) * d;
      AllPasses(n * d, d, 0, n);
      forall i | 0 <= i < n
        ensures Segments(a * d, d, n)[i] == Listed(a * d, d, n)[i]
      {
        Times(i, n, d);
      }
    } else if s.buffers == map[] {
      assert Passes(0, d, 0, 0) == 0;
    }
  }

  lemma Less(a: nat, b: nat, d: nat)
    requires d > 0
    ensures a * d < b * d <==> a < b
  {
    if a < b {
      Times(a + 1, b, d);
    } else {
      Times(b, a, d);
    }
  }

  /** A client asks for a segment: it gets the slice, or is told that there is none. */
  method GetSegment(subsession: Subsession, offsetInSeconds: nat) returns (ok: bool, body: seq<Byte>)
    requires subsession.hlsSink.Valid()
    modifies subsession
    ensures var b, k := subsession.hlsSink.buffers, Sought(offsetInSeconds, subsession.hlsSink.sliceDuration);
            && (ok <==> k in b && b[k] != [])
            && (ok ==> body == b[k])
  {
    var npt, numBytes := subsession.SeekStream(offsetInSeconds);
    if numBytes == 0 {
      return false, [];
    }
    ok, body := true, subsession.GetStreamSource();
  }
}
