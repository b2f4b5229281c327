/** How far playback can go on from a position: buffered ranges are sorted, small holes between them are closed, and
    the range around the position is looked up. */
module BufferHelper {
  import opened Basics

  datatype Range = Range(start: real, end: real)

  datatype Info = Info(len: real, start: real, end: real, nextStart: Option<real>)

  // ---- sorting

  /** By start, and of ranges with one start the longest first. */
  predicate NotAfter(a: Range, b: Range) {
    a.start < b.start || (a.start == b.start && b.end <= a.end)
  }

  ghost predicate Sorted(s: seq<Range>) {
    forall i, j :: 0 <= i < j < |s| ==> NotAfter(s[i], s[j])
  }

  lemma HeadOf(s: seq<Range>, t: seq<Range>)
    requires Sorted(s) && multiset(s) == multiset(t) && s != [] && t != []
    ensures NotAfter(s[0], t[0])
  {
    assert t[0] in multiset(s);
    var i :| 0 <= i < |s| && s[i] == t[0];
  }

  /** The order leaves nothing open: whatever way ranges are sorted, the outcome is the same. */
  lemma {:induction false} SortedUnique(s: seq<Range>, t: seq<Range>)
    requires Sorted(s) && Sorted(t) && multiset(s) == multiset(t)
    ensures s == t
    decreases |s|
  {
    assert |multiset(s)| == |s| && |multiset(t)| == |t|;
    if s != [] {
      HeadOf(s, t);
      HeadOf(t, s);
      assert s == [s[0]] + s[1..] && t == [t[0]] + t[1..];
      assert multiset(s[1..]) == multiset(s) - multiset{s[0]} && multiset(t[1..]) == multiset(t) - multiset{t[0]};
      SortedUnique(s[1..], t[1..]);
    }
  }

  /** All but the range at one position are in order. */
  ghost predicate SortedBut(s: seq<Range>, n: nat, at: nat) {
    forall i, j :: 0 <= i < j < n && n <= |s| && i != at && j != at ==> NotAfter(s[i], s[j])
  }

  method Insert(a: array<Range>, n: nat)
    requires n < a.Length && Sorted(a[..n])
    modifies a
    ensures Sorted(a[..n + 1]) && multiset(a[..]) == multiset(old(a[..]))
  {
    var j: nat := n;
    assert forall k :: 0 <= k < n ==> a[..n][k] == a[k];
    while j > 0 && !NotAfter(a[j - 1], a[j])
      invariant j <= n
      invariant SortedBut(a[..], n + 1, j)
      invariant forall k :: j < k <= n ==> NotAfter(a[j], a[k])
      invariant multiset(a[..]) == multiset(old(a[..]))
    {
      a[j - 1], a[j] := a[j], a[j - 1];
      j := j - 1;
    }
    assert forall k :: 0 <= k < n + 1 ==> a[..n + 1][k] == a[..][k] == a[k];
  }

  method Sort(a: array<Range>)
    modifies a
    ensures Sorted(a[..]) && multiset(a[..]) == multiset(old(a[..]))
  {
    var n := 0;
    while n < a.Length
      invariant 0 <= n <= a.Length
      invariant Sorted(a[..n]) && multiset(a[..]) == multiset(old(a[..]))
    {
      Insert(a, n);
      n := n + 1;
    }
    assert a[..n] == a[..];
  }

  // ---- closing holes

  /** One more range: it is merged into the last one, unless there is a hole of at least the given length between. */
  function Join(m: seq<Range>, x: Range, hole: real): (r: seq<Range>)
    ensures r != []
  {
    if m == [] then [x]
    else
      var last := m[|m| - 1];
      if x.start - last.end < hole then m[|m| - 1 := Range(last.start, Max(last.end, x.end))] else m + [x]
  }

  function Joined(s: seq<Range>, hole: real): (r: seq<Range>)
    ensures s != [] ==> r != []
  {
    if s == [] then [] else Join(Joined(s[..|s| - 1], hole), s[|s| - 1], hole)
  }

  // ---- looking up a position

  predicate Around(r: Range, pos: real, hole: real) {
    pos + hole >= r.start && pos < r.end
  }

  function Lookup(m: seq<Range>, pos: real, hole: real, so: Info): Info {
    if m == [] then so
    else if Around(m[0], pos, hole) then Lookup(m[1..], pos, hole, Info(m[0].end - pos, m[0].start, m[0].end, so.nextStart))
    else if pos + hole < m[0].start then so.(nextStart := Some(m[0].start))
    else Lookup(m[1..], pos, hole, so)
  }

  /** The answer for ranges that are sorted. */
  function InfoOf(s: seq<Range>, pos: real, hole: real): Info {
    Lookup(Joined(s, hole), pos, hole, Info(0.0, pos, pos, None))
  }

  /** The answer does not depend on the order in which the ranges are given. */
  lemma AnyOrder(s: seq<Range>, t: seq<Range>, pos: real, hole: real)
    requires Sorted(s) && Sorted(t) && multiset(s) == multiset(t)
    ensures InfoOf(s, pos, hole) == InfoOf(t, pos, hole)
  {
    SortedUnique(s, t);
  }

  // ---- what the answer means, in terms of the ranges as they were given

  ghost predicate Proper(s: seq<Range>) {
    forall x :: x in s ==> x.start <= x.end
  }

  /** Ranges of s, each reached from the end of the one before over a hole smaller than the limit. */
  ghost predicate Chain(s: seq<Range>, c: seq<Range>, hole: real) {
    && c != []
    && (forall i :: 0 <= i < |c| ==> c[i] in s)
    && (forall i :: 0 < i < |c| ==> c[i].start - c[i - 1].end < hole)
  }

  ghost predicate Leads(s: seq<Range>, c: seq<Range>, hole: real, start: real, end: real) {
    Chain(s, c, hole) && c[0].start == start && c[|c| - 1].end == end
  }

  /** A merged range can be travelled from its start to its end over ranges of s. */
  ghost predicate Travelled(s: seq<Range>, r: Range, hole: real) {
    exists c :: Leads(s, c, hole, r.start, r.end)
  }

  /** A range belongs to a merged one. */
  ghost predicate Belongs(x: Range, r: Range, hole: real) {
    r.start <= x.start && x.end <= r.end && (x.start == r.start || x.start < r.end + hole)
  }

  ghost predicate BelongsSomewhere(x: Range, m: seq<Range>, hole: real) {
    exists k :: 0 <= k < |m| && Belongs(x, m[k], hole)
  }

  /** Merged ranges are in order, with a hole of at least the limit between any two of them. */
  ghost predicate Separated(m: seq<Range>, hole: real) {
    && (forall k :: 0 <= k < |m| ==> m[k].start <= m[k].end)
    && (forall j, k :: 0 <= j < k < |m| ==> m[k].start - m[j].end >= hole)
  }

  ghost predicate Merges(s: seq<Range>, m: seq<Range>, hole: real) {
    && Separated(m, hole)
    && (forall k :: 0 <= k < |m| ==> Travelled(s, m[k], hole))
    && (forall x :: x in s ==> BelongsSomewhere(x, m, hole))
  }

  lemma MoreRanges(s: seq<Range>, t: seq<Range>, r: Range, hole: real)
    requires Travelled(s, r, hole) && forall x :: x in s ==> x in t
    ensures Travelled(t, r, hole)
  {
    var c :| Leads(s, c, hole, r.start, r.end);
    assert Leads(t, c, hole, r.start, r.end);
  }

  lemma LastStart(s: seq<Range>, r: Range, x: Range, hole: real)
    requires Travelled(s, r, hole) && Sorted(s + [x])
    ensures r.start <= x.start
  {
    var c :| Leads(s, c, hole, r.start, r.end);
    var i :| 0 <= i < |s| && s[i] == c[0];
    assert (s + [x])[i] == s[i] && (s + [x])[|s|] == x;
  }

  lemma OneFurther(s: seq<Range>, r: Range, x: Range, hole: real)
    requires Travelled(s, r, hole) && x.start - r.end < hole
    ensures Travelled(s + [x], Range(r.start, Max(r.end, x.end)), hole)
  {
    var c :| Leads(s, c, hole, r.start, r.end);
    if x.end > r.end {
      assert Leads(s + [x], c + [x], hole, r.start, x.end);
    } else {
      assert Leads(s + [x], c, hole, r.start, r.end);
    }
  }

  lemma JoinMerges(s: seq<Range>, m: seq<Range>, x: Range, hole: real)
    requires Merges(s, m, hole) && Sorted(s + [x]) && x.start <= x.end && hole >= 0.0 && (m == [] ==> s == [])
    ensures Merges(s + [x], Join(m, x, hole), hole)
  {
    var t, r := s + [x], Join(m, x, hole);
    hide Travelled, Sorted, BelongsSomewhere;
    assert forall k :: 0 <= k < |m| - 1 ==> r[k] == m[k];
    forall k | 0 <= k < |m| && r[k] == m[k] ensures Travelled(t, r[k], hole) {
      MoreRanges(s, t, m[k], hole);
    }
    if m == [] {
      NewRange(t, x, hole);
    } else {
      var last := m[|m| - 1];
      LastStart(s, last, x, hole);
      if x.start - last.end < hole {
        OneFurther(s, last, x, hole);
      } else {
        NewRange(t, x, hole);
      }
    }
    forall y | y in t ensures BelongsSomewhere(y, r, hole) {
      if y in s {
        StillBelongs(y, m, x, hole);
      } else {
        Belong(x, r, |r| - 1, hole);
      }
    }
  }

  lemma NewRange(t: seq<Range>, x: Range, hole: real)
    requires x in t
    ensures Travelled(t, x, hole)
  {
    assert Leads(t, [x], hole, x.start, x.end);
  }

  lemma Belong(x: Range, m: seq<Range>, k: nat, hole: real)
    requires k < |m| && Belongs(x, m[k], hole)
    ensures BelongsSomewhere(x, m, hole)
  {
  }

  lemma StillBelongs(y: Range, m: seq<Range>, x: Range, hole: real)
    requires BelongsSomewhere(y, m, hole)
    ensures BelongsSomewhere(y, Join(m, x, hole), hole)
  {
    var k :| 0 <= k < |m| && Belongs(y, m[k], hole);
    Belong(y, Join(m, x, hole), k, hole);
  }

  /** Merging keeps every range, makes nothing up, and leaves no hole below the limit. */
  lemma {:induction false} JoinedMerges(s: seq<Range>, hole: real)
    requires Sorted(s) && Proper(s) && hole >= 0.0
    ensures Merges(s, Joined(s, hole), hole)
    decreases |s|
  {
    if s != [] {
      var front, x := s[..|s| - 1], s[|s| - 1];
      assert s == front + [x];
      JoinedMerges(front, hole);
      JoinMerges(front, Joined(front, hole), x, hole);
    }
  }

  /** A chain cannot leave the merged range it starts in for a later one. */
  lemma {:induction false} ChainStays(s: seq<Range>, m: seq<Range>, c: seq<Range>, hole: real, k: nat)
    requires Merges(s, m, hole) && hole >= 0.0 && k < |m| && Chain(s, c, hole)
    requires k + 1 < |m| ==> c[0].start < m[k + 1].start
    ensures c[|c| - 1].end <= m[k].end
    decreases |c|
  {
    hide Merges;
    if k + 1 < |m| {
      Apart(s, m, hole, k, k + 1);
    }
    var j := BelongTo(s, m, hole, c[0]);
    if j <= k {
      Apart(s, m, hole, j, k);
    } else {
      Apart(s, m, hole, k + 1, j);
    }
    if |c| > 1 {
      assert c[1].start - c[1 - 1].end < hole;
      ChainStays(s, m, c[1..], hole, k);
    }
  }

  // ---- the meaning of the answer

  /** A point that can be reached from a position: by ranges of s, the first of which starts no further away from the
      position than the limit. */
  ghost predicate Reaches(s: seq<Range>, c: seq<Range>, pos: real, hole: real) {
    Chain(s, c, hole) && c[0].start <= pos + hole
  }

  /** The end is the furthest point that can be reached. */
  ghost predicate Furthest(s: seq<Range>, pos: real, hole: real, end: real) {
    && pos <= end
    && (forall c: seq<Range> :: Reaches(s, c, pos, hole) ==> c[|c| - 1].end <= end)
    && (end == pos || exists c: seq<Range> :: Reaches(s, c, pos, hole) && c[|c| - 1].end == end)
  }

  /** The start is that of a range from which the end is reached, and no earlier range leads up to it. */
  ghost predicate Earliest(s: seq<Range>, pos: real, hole: real, start: real, end: real) {
    if end == pos then start == pos
    else
      && start <= pos + hole && Travelled(s, Range(start, end), hole)
      && forall x :: x in s && x.start < start ==> x.end + hole <= start
  }

  /** A range out of reach. */
  ghost predicate OutOfReach(x: Range, pos: real, hole: real, end: real) {
    pos + hole < x.start && end + hole <= x.start
  }

  ghost predicate Next(s: seq<Range>, pos: real, hole: real, end: real, next: Option<real>) {
    && (forall x :: x in s && OutOfReach(x, pos, hole, end) ==> next.Some? && next.value <= x.start)
    && (next.Some? ==> exists x :: x in s && OutOfReach(x, pos, hole, end) && x.start == next.value)
  }

  ghost predicate Answers(s: seq<Range>, pos: real, hole: real, info: Info) {
    && Furthest(s, pos, hole, info.end)
    && Earliest(s, pos, hole, info.start, info.end)
    && info.len == info.end - pos
    && Next(s, pos, hole, info.end, info.nextStart)
  }

  /** The first n merged ranges start within reach of the position, the others do not. */
  ghost predicate Split(m: seq<Range>, pos: real, hole: real, n: nat) {
    && n <= |m|
    && (forall k :: 0 <= k < n ==> m[k].start <= pos + hole)
    && (forall k :: n <= k < |m| ==> pos + hole < m[k].start)
  }

  lemma {:induction false} SplitExists(m: seq<Range>, pos: real, hole: real) returns (n: nat)
    requires Separated(m, hole) && hole >= 0.0
    ensures Split(m, pos, hole, n)
  {
    n := 0;
    while n < |m| && m[n].start <= pos + hole
      invariant n <= |m| && forall k :: 0 <= k < n ==> m[k].start <= pos + hole
    {
      n := n + 1;
    }
    if n < |m| {
      forall k | n < k < |m| ensures m[n].start <= m[k].start {
        assert m[k].start - m[n].end >= hole;
      }
    }
  }

  /** At most one merged range is around the position: the last one within reach, if it does not end before. */
  lemma {:induction false} LookupFinds(m: seq<Range>, pos: real, hole: real, n: nat, so: Info)
    requires Separated(m, hole) && hole >= 0.0 && Split(m, pos, hole, n) && so.nextStart == None
    ensures forall k :: 0 <= k < |m| && Around(m[k], pos, hole) ==> k == n - 1
    ensures Lookup(m, pos, hole, so) ==
            var next := if n < |m| then Some(m[n].start) else None;
            if n > 0 && pos < m[n - 1].end then Info(m[n - 1].end - pos, m[n - 1].start, m[n - 1].end, next)
            else so.(nextStart := next)
    decreases |m|
  {
    if n > 0 {
      var so' := if Around(m[0], pos, hole) then Info(m[0].end - pos, m[0].start, m[0].end, None) else so;
      LookupFinds(m[1..], pos, hole, n - 1, so');
      forall k | 0 <= k < n - 1 ensures !Around(m[k], pos, hole) {
        assert m[n - 1].start - m[k].end >= hole;
      }
      if n > 1 {
        assert m[n - 1].start - m[0].end >= hole;
      }
    }
  }

  lemma TravelOver(s: seq<Range>, m: seq<Range>, hole: real, k: nat) returns (c: seq<Range>)
    requires Merges(s, m, hole) && k < |m|
    ensures Leads(s, c, hole, m[k].start, m[k].end)
  {
    assert Travelled(s, m[k], hole);
    c :| Leads(s, c, hole, m[k].start, m[k].end);
  }

  lemma BelongTo(s: seq<Range>, m: seq<Range>, hole: real, x: Range) returns (k: nat)
    requires Merges(s, m, hole) && x in s
    ensures k < |m| && Belongs(x, m[k], hole)
  {
    assert BelongsSomewhere(x, m, hole);
    k :| 0 <= k < |m| && Belongs(x, m[k], hole);
  }

  lemma Apart(s: seq<Range>, m: seq<Range>, hole: real, j: nat, k: nat)
    requires Merges(s, m, hole) && j <= k < |m| && hole >= 0.0
    ensures m[j].start <= m[k].start && m[j].end <= m[k].end && m[j].start <= m[j].end
    ensures j < k ==> m[k].start - m[j].end >= hole
  {
    hide Travelled, BelongsSomewhere;
  }

  lemma MergesSeparated(s: seq<Range>, m: seq<Range>, hole: real)
    requires Merges(s, m, hole)
    ensures Separated(m, hole)
  {
  }

  /** The end that is found is the furthest that playback from the position can reach over the ranges given, crossing
      holes smaller than the limit only; the start is where that stretch begins, and the next start that of the first
      range out of reach. */
  lemma InfoAnswers(s: seq<Range>, pos: real, hole: real)
    requires Sorted(s) && Proper(s) && hole >= 0.0
    ensures Answers(s, pos, hole, InfoOf(s, pos, hole))
  {
    hide Sorted, Joined, Merges, Lookup, Split;
    var m := Joined(s, hole);
    JoinedMerges(s, hole);
    MergesSeparated(s, m, hole);
    var n := SplitExists(m, pos, hole);
    LookupFinds(m, pos, hole, n, Info(0.0, pos, pos, None));
    var info := InfoOf(s, pos, hole);
    FurthestFound(s, m, pos, hole, n, info.end);
    EarliestFound(s, m, pos, hole, n, info.end, info.start);
    NextFound(s, m, pos, hole, n, info.end, info.nextStart);
  }

  lemma FurthestFound(s: seq<Range>, m: seq<Range>, pos: real, hole: real, n: nat, end: real)
    requires Merges(s, m, hole) && hole >= 0.0 && Split(m, pos, hole, n)
    requires end == if n > 0 && pos < m[n - 1].end then m[n - 1].end else pos
    ensures Furthest(s, pos, hole, end)
  {
    hide Merges;
    forall c: seq<Range> | Reaches(s, c, pos, hole)
      ensures c[|c| - 1].end <= end
    {
      if n == 0 {
        var k := BelongTo(s, m, hole, c[0]);
      } else {
        ChainStays(s, m, c, hole, n - 1);
      }
    }
    if end != pos {
      var c := TravelOver(s, m, hole, n - 1);
      assert Reaches(s, c, pos, hole);
    }
  }

  lemma EarliestFound(s: seq<Range>, m: seq<Range>, pos: real, hole: real, n: nat, end: real, start: real)
    requires Merges(s, m, hole) && hole >= 0.0 && Split(m, pos, hole, n)
    requires end == if n > 0 && pos < m[n - 1].end then m[n - 1].end else pos
    requires start == if end == pos then pos else m[n - 1].start
    ensures Earliest(s, pos, hole, start, end)
  {
    hide Merges;
    if end != pos {
      var c := TravelOver(s, m, hole, n - 1);
      forall x | x in s && x.start < start
        ensures x.end + hole <= start
      {
        var k := BelongTo(s, m, hole, x);
        if k < n {
          Apart(s, m, hole, k, n - 1);
        }
      }
    }
  }

  lemma NextFound(s: seq<Range>, m: seq<Range>, pos: real, hole: real, n: nat, end: real, next: Option<real>)
    requires Merges(s, m, hole) && hole >= 0.0 && Split(m, pos, hole, n)
    requires end == if n > 0 && pos < m[n - 1].end then m[n - 1].end else pos
    requires next == if n < |m| then Some(m[n].start) else None
    ensures Next(s, pos, hole, end, next)
  {
    hide Merges;
    forall x | x in s && OutOfReach(x, pos, hole, end)
      ensures next.Some? && next.value <= x.start
    {
      var k := BelongTo(s, m, hole, x);
      if k >= n {
        Apart(s, m, hole, n, k);
      } else if k < n - 1 {
        Apart(s, m, hole, k, n - 1);
      }
    }
    if n < |m| {
      var c := TravelOver(s, m, hole, n);
      if n > 0 {
        Apart(s, m, hole, n - 1, n);
      }
      assert c[0] in s && OutOfReach(c[0], pos, hole, end);
    }
  }

  /** That meaning leaves nothing open, whatever order the ranges are given in and however often. */
  lemma AnswersUnique(s: seq<Range>, t: seq<Range>, pos: real, hole: real, a: Info, b: Info)
    requires forall x :: x in s <==> x in t
    requires Proper(s) && hole >= 0.0 && Answers(s, pos, hole, a) && Answers(t, pos, hole, b)
    ensures a == b
  {
    SameEnd(s, t, pos, hole, a.end, b.end);
    SameEnd(t, s, pos, hole, b.end, a.end);
    SameStart(s, t, pos, hole, a.start, b.start, a.end);
    SameStart(t, s, pos, hole, b.start, a.start, a.end);
  }

  lemma SameEnd(s: seq<Range>, t: seq<Range>, pos: real, hole: real, a: real, b: real)
    requires forall x :: x in s ==> x in t
    requires Furthest(s, pos, hole, a) && Furthest(t, pos, hole, b)
    ensures a <= b
  {
    if a != pos {
      var c: seq<Range> :| Reaches(s, c, pos, hole) && c[|c| - 1].end == a;
      assert Reaches(t, c, pos, hole);
    }
  }

  lemma SameStart(s: seq<Range>, t: seq<Range>, pos: real, hole: real, a: real, b: real, end: real)
    requires forall x :: x in s ==> x in t
    requires Earliest(s, pos, hole, a, end) && Earliest(t, pos, hole, b, end) && hole >= 0.0
    requires Proper(t) && Furthest(t, pos, hole, end)
    ensures b <= a
  {
    if end != pos && a < b {
      var d :| Leads(t, d, hole, b, end);
      assert Reaches(t, [d[0]], pos, hole) && d[0] in t;
      var c :| Leads(s, c, hole, a, end);
      LedPast(s, t, c, hole, b, end);
    }
  }

  /** No chain that begins before such a start gets past it. */
  lemma {:induction false} LedPast(s: seq<Range>, t: seq<Range>, c: seq<Range>, hole: real, b: real, end: real)
    requires forall x :: x in s ==> x in t
    requires Chain(s, c, hole) && c[0].start < b && hole >= 0.0
    requires forall x :: x in t && x.start < b ==> x.end + hole <= b
    ensures c[|c| - 1].end + hole <= b
    decreases |c|
  {
    assert c[0] in t;
    if |c| > 1 {
      assert c[1].start - c[1 - 1].end < hole;
      LedPast(s, t, c[1..], hole, b, end);
    }
  }

  lemma SameMembers(s: seq<Range>, t: seq<Range>, x: Range)
    requires multiset(s) == multiset(t)
    ensures x in s <==> x in t
  {
    assert x in multiset(s) <==> x in multiset(t);
  }

  lemma SameMeaning(s: seq<Range>, t: seq<Range>, pos: real, hole: real, info: Info)
    requires forall x :: x in s <==> x in t
    requires Answers(t, pos, hole, info)
    ensures Answers(s, pos, hole, info)
  {
    SameChains(s, t, hole);
    if info.end != pos {
      var c :| Leads(t, c, hole, info.start, info.end);
      assert Leads(s, c, hole, info.start, info.end);
      var d: seq<Range> :| Reaches(t, d, pos, hole) && d[|d| - 1].end == info.end;
      assert Reaches(s, d, pos, hole);
    }
    forall c: seq<Range> | Reaches(s, c, pos, hole) ensures c[|c| - 1].end <= info.end {
      assert Reaches(t, c, pos, hole);
    }
  }

  lemma SameChains(s: seq<Range>, t: seq<Range>, hole: real)
    requires forall x :: x in s <==> x in t
    ensures forall c :: Chain(s, c, hole) <==> Chain(t, c, hole)
  {
  }

  lemma Meaning(s: seq<Range>, t: seq<Range>, pos: real, hole: real)
    requires multiset(s) == multiset(t) && Sorted(t)
    ensures Proper(s) && hole >= 0.0 ==> Answers(s, pos, hole, InfoOf(t, pos, hole))
  {
    hide Answers, Sorted, InfoOf;
    forall x ensures x in s <==> x in t {
      SameMembers(s, t, x);
    }
    if Proper(s) && hole >= 0.0 {
      InfoAnswers(t, pos, hole);
      SameMeaning(s, t, pos, hole, InfoOf(t, pos, hole));
    }
  }

  // ---- as it is computed

  /** bufferedInfo: the ranges are sorted in place, holes are closed, and the range around the position is found. */
  method BufferedInfo(buffered: array<Range>, pos: real, maxHoleDuration: real) returns (info: Info)
    modifies buffered
    ensures Sorted(buffered[..]) && multiset(buffered[..]) == multiset(old(buffered[..]))
    ensures info == InfoOf(buffered[..], pos, maxHoleDuration)
    ensures Proper(old(buffered[..])) && maxHoleDuration >= 0.0 ==> Answers(old(buffered[..]), pos, maxHoleDuration, info)
  {
    hide Answers, Sorted, Proper;
    Sort(buffered);
    Meaning(old(buffered[..]), buffered[..], pos, maxHoleDuration);
    var buffered2 := [];
    var i := 0;
    while i < buffered.Length
      invariant 0 <= i <= buffered.Length
      invariant buffered2 == Joined(buffered[..i], maxHoleDuration)
    {
      assert buffered[..i + 1][..i] == buffered[..i];
      var buf2len := |buffered2|;
      if buf2len != 0 {
        var buf2end := buffered2[buf2len - 1].end;
        if buffered[i].start - buf2end < maxHoleDuration {
          if buffered[i].end > buf2end {
            buffered2 := buffered2[buf2len - 1 := buffered2[buf2len - 1].(end := buffered[i].end)];
          }
        } else {
          buffered2 := buffered2 + [buffered[i]];
        }
      } else {
        buffered2 := buffered2 + [buffered[i]];
      }
      i := i + 1;
    }
    assert buffered[..i] == buffered[..];
    info := Find(buffered2, pos, maxHoleDuration);
  }

  method Find(buffered2: seq<Range>, pos: real, maxHoleDuration: real) returns (info: Info)
    ensures info == Lookup(buffered2, pos, maxHoleDuration, Info(0.0, pos, pos, None))
  {
    var bufferLen, bufferStart, bufferEnd := 0.0, pos, pos;
    var bufferStartNext := None;
    var i := 0;
    while i < |buffered2|
      invariant 0 <= i <= |buffered2| && bufferStartNext == None
      invariant Lookup(buffered2, pos, maxHoleDuration, Info(0.0, pos, pos, None))
             == Lookup(buffered2[i..], pos, maxHoleDuration, Info(bufferLen, bufferStart, bufferEnd, None))
    {
      assert buffered2[i..][1..] == buffered2[i + 1..];
      var start, end := buffered2[i].start, buffered2[i].end;
      if pos + maxHoleDuration >= start && pos < end {
        bufferStart, bufferEnd := start, end;
        bufferLen := bufferEnd - pos;
      } else if pos + maxHoleDuration < start {
        bufferStartNext := Some(start);
        break;
      }
      i := i + 1;
    }
    info := Info(bufferLen, bufferStart, bufferEnd, bufferStartNext);
  }
}
