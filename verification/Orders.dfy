/** Lists in an order: what they hold leaves one list, if the order tells all things apart. */
module Orders {

  /** Nothing comes before a thing that it should follow. */
  ghost predicate Ascending<T(!new)>(s: seq<T>, before: (T, T) -> bool) {
    forall i, j :: 0 <= i < j < |s| ==> before(s[i], s[j])
  }

  /** Each thing must follow all that come before it. */
  ghost predicate Rising<T(!new)>(s: seq<T>, before: (T, T) -> bool) {
    forall i, j :: 0 <= i < j < |s| ==> !before(s[j], s[i])
  }

  lemma FirstAlike<T(!new)>(a: seq<T>, b: seq<T>, before: (T, T) -> bool)
    requires Ascending(a, before) && Rising(b, before) && multiset(a) == multiset(b) && a != [] && b != []
    ensures a[0] == b[0]
  {
    assert a[0] in multiset(b) && b[0] in multiset(a);
    var j :| 0 <= j < |b| && b[j] == a[0];
    var i :| 0 <= i < |a| && a[i] == b[0];
    assert i > 0 ==> before(a[0], a[i]);
    assert j > 0 ==> !before(b[j], b[0]);
  }

  lemma SameRest<T>(a: seq<T>, b: seq<T>)
    requires multiset(a) == multiset(b) && a != [] && b != [] && a[0] == b[0]
    ensures multiset(a[1..]) == multiset(b[1..])
    ensures a[1..] == b[1..] ==> a == b
  {
    assert a == [a[0]] + a[1..] && b == [b[0]] + b[1..];
    assert multiset(a[1..]) == multiset(a) - multiset{a[0]} && multiset(b[1..]) == multiset(b) - multiset{b[0]};
  }

  lemma SameSize<T>(a: seq<T>, b: seq<T>)
    requires multiset(a) == multiset(b)
    ensures |a| == |b|
  {
    assert |a| == |multiset(a)| == |multiset(b)| == |b|;
  }

  lemma Tails<T(!new)>(a: seq<T>, b: seq<T>, before: (T, T) -> bool)
    requires Ascending(a, before) && Rising(b, before) && a != [] && b != []
    ensures Ascending(a[1..], before) && Rising(b[1..], before)
  {
  }

  /** Things that are told apart have one order. */
  lemma {:induction false} OneOrder<T(!new)>(a: seq<T>, b: seq<T>, before: (T, T) -> bool)
    requires Ascending(a, before) && Rising(b, before) && multiset(a) == multiset(b)
    ensures a == b
    decreases |a|
  {
    SameSize(a, b);
    hide Ascending, Rising;
    if a != [] {
      FirstAlike(a, b, before);
      Tails(a, b, before);
      SameRest(a, b);
      OneOrder(a[1..], b[1..], before);
    }
  }
}
