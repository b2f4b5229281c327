/** Iterating an invertible step, over an arbitrary carrier: when the period is exactly 255, and that an
    orbit of full length misses nothing. */
module Orbit {

  function Iter<T>(f: T -> T, n: nat, x: T): T {
    if n == 0 then x else f(Iter(f, n - 1, x))
  }

  lemma {:induction false} IterInside<T>(f: T -> T, n: nat, x: T)
    ensures f(Iter(f, n, x)) == Iter(f, n, f(x))
  {
    if n > 0 {
      IterInside(f, n - 1, x);
    }
  }

  lemma {:induction false} IterAdd<T>(f: T -> T, m: nat, n: nat, x: T)
    ensures Iter(f, m + n, x) == Iter(f, m, Iter(f, n, x))
  {
    if m > 0 {
      IterAdd(f, m - 1, n, x);
    }
  }

  ghost predicate Undoes<T(!new)>(g: T -> T, f: T -> T) {
    forall x: T :: g(f(x)) == x
  }

  lemma {:induction false} IterUndoes<T(!new)>(g: T -> T, f: T -> T, n: nat, x: T)
    requires Undoes(g, f)
    ensures Iter(g, n, Iter(f, n, x)) == x
  {
    if n > 0 {
      IterInside(g, n - 1, f(Iter(f, n - 1, x)));
      IterUndoes(g, f, n - 1, x);
    }
  }

  /** Values j steps apart are equal only when j steps lead back to the start. */
  lemma EqualApart<T(!new)>(g: T -> T, f: T -> T, one: T, i: nat, j: nat)
    requires Undoes(g, f)
    requires Iter(f, i + j, one) == Iter(f, i, one)
    ensures Iter(f, j, one) == one
  {
    IterAdd(f, i, j, one);
    IterUndoes(g, f, i, Iter(f, j, one));
    IterUndoes(g, f, i, one);
  }

  lemma {:induction false} MultiplesReturn<T>(f: T -> T, one: T, n: nat, k: nat)
    requires Iter(f, n, one) == one
    ensures Iter(f, n * k, one) == one
  {
    if k > 0 {
      MultiplesReturn(f, one, n, k - 1);
      assert n * k == n * (k - 1) + n;
      IterAdd(f, n * (k - 1), n, one);
    }
  }

  /** If n steps and m steps lead back, and k * m is d modulo n, then d steps lead back. */
  lemma {:induction false} Reduces<T(!new)>(g: T -> T, f: T -> T, one: T, n: nat, m: nat, k: nat, d: nat, q: nat)
    requires Undoes(g, f)
    requires Iter(f, n, one) == one && Iter(f, m, one) == one
    requires m * k == n * q + d
    ensures Iter(f, d, one) == one
  {
    var a, b := m * k, n * q;
    assert Iter(f, a, one) == one by { MultiplesReturn(f, one, m, k); }
    assert Iter(f, b, one) == one by { MultiplesReturn(f, one, n, q); }
    assert a == b + d;
    EqualApart(g, f, one, b, d);
  }

  /** A number m not divisible by p has a multiple m * k that is d modulo n = d * p. */
  lemma Multiplier(m: nat, n: nat, d: nat, p: nat, u: nat, w: nat, k: nat, q: nat)
    requires p > 0 && n == d * p && k == d * u && q == m / p * u + w
    requires m % p * u == p * w + 1
    ensures m * k == n * q + d
  {
    var t, r := m / p, m % p;
    calc {
      m * u;
      { assert m == t * p + r; }
      (t * p + r) * u;
      t * p * u + r * u;
      { assert t * p * u == p * (t * u); }
      p * (t * u) + p * w + 1;
      p * q + 1;
    }
    calc {
      m * k;
      d * (m * u);
      d * (p * q + 1);
      d * p * q + d;
    }
  }

  /** Back at the start after n = 255 = 3 * 5 * 17 steps, but not after a maximal proper divisor of n. */
  ghost predicate FullPeriod<T(!new)>(g: T -> T, f: T -> T, one: T, n: nat) {
    && n == 255
    && Undoes(g, f)
    && Iter(f, n, one) == one
    && Iter(f, n / 3, one) != one && Iter(f, n / 5, one) != one && Iter(f, n / 17, one) != one
  }

  /** A remainder r that is not 0 modulo p has an inverse u, with r * u one more than p * w. */
  function PrimeInverse(r: nat, p: nat): (uw: (nat, nat))
    requires (p == 3 || p == 5 || p == 17) && 0 < r < p
    ensures r * uw.0 == p * uw.1 + 1
  {
    var u := if p == 3 then r
             else if p == 5 then [0, 1, 3, 2, 4][r]
             else [0, 1, 9, 6, 13, 7, 3, 5, 15, 2, 12, 14, 10, 4, 11, 8, 16][r];
    (u, r * u / p)
  }

  /** A number not divisible by the prime factor p of 255 has a multiple that is 255 / p modulo 255. */
  lemma PrimeMultiplier(m: nat, n: nat, d: nat, p: nat) returns (k: nat, q: nat)
    requires (p == 3 || p == 5 || p == 17) && m % p != 0 && n == d * p
    ensures m * k == n * q + d
  {
    var uw := PrimeInverse(m % p, p);
    k, q := d * uw.0, m / p * uw.0 + uw.1;
    Multiplier(m, n, d, p, uw.0, uw.1, k, q);
  }

  /** A number below 255 is not divisible by all of 3, 5 and 17. */
  function Factor(m: nat): (p: nat)
    requires 0 < m < 255
    ensures (p == 3 || p == 5 || p == 17) && m % p != 0
  {
    if m % 3 != 0 then 3 else if m % 5 != 0 then 5 else 17
  }

  lemma {:induction false} NoShorterPeriod<T(!new)>(g: T -> T, f: T -> T, one: T, n: nat, m: nat)
    requires FullPeriod(g, f, one, n)
    requires 0 < m < n
    ensures Iter(f, m, one) != one
  {
    hide Iter, Undoes;
    var p := Factor(m);
    var d := n / p;
    var k, q := PrimeMultiplier(m, n, d, p);
    if Iter(f, m, one) == one {
      Reduces(g, f, one, n, m, k, d, q);
    }
  }

  // ---- an injective sequence of n numbers below n misses none

  function Below(n: nat): (r: set<nat>)
    ensures |r| == n && forall v: nat :: v in r <==> v < n
  {
    if n == 0 then {} else
      Below(n - 1) + {n - 1}
  }

  function Elements(s: seq<nat>): (r: set<nat>)
    ensures forall v: nat :: v in r <==> v in s
  {
    if s == [] then {} else Elements(s[..|s| - 1]) + {s[|s| - 1]}
  }

  ghost predicate Injective(s: seq<nat>) {
    forall i, j :: 0 <= i < j < |s| ==> s[i] != s[j]
  }

  lemma {:induction false} ElementsSize(s: seq<nat>)
    requires Injective(s)
    ensures |Elements(s)| == |s|
  {
    if s != [] {
      ElementsSize(s[..|s| - 1]);
    }
  }

  lemma {:induction false} SubsetSize(a: set<nat>, b: set<nat>)
    requires a <= b
    ensures |a| <= |b|
  {
    if a != {} {
      var x :| x in a;
      SubsetSize(a - {x}, b - {x});
    }
  }

  lemma Pigeonhole(s: seq<nat>, v: nat)
    requires Injective(s) && (forall i :: 0 <= i < |s| ==> s[i] < |s|)
    requires v < |s|
    ensures v in s
  {
    ElementsSize(s);
    if v !in s {
      SubsetSize(Elements(s), Below(|s|) - {v});
    }
  }

  /** A full orbit whose values are numbered below n contains the value of every number. */
  lemma OrbitCovers<T(!new)>(g: T -> T, f: T -> T, one: T, n: nat, index: T -> nat, v: nat) returns (k: nat)
    requires FullPeriod(g, f, one, n)
    requires forall i: nat :: index(Iter(f, i, one)) < n
    requires forall x: T, y: T :: index(x) == index(y) < n ==> x == y
    requires v < n
    ensures k < n && index(Iter(f, k, one)) == v
  {
    hide FullPeriod, Iter;
    var s: seq<nat> := seq(n, i requires 0 <= i < n => index(Iter(f, i, one)));
    forall i, j | 0 <= i < j < n
      ensures s[i] != s[j]
    {
      DistinctApart(g, f, one, n, i, j);
    }
    hide Below, Elements;
    Pigeonhole(s, v);
    k :| 0 <= k < n && s[k] == v;
  }

  lemma FullUndoes<T(!new)>(g: T -> T, f: T -> T, one: T, n: nat)
    requires FullPeriod(g, f, one, n)
    ensures Undoes(g, f)
  {
  }

  lemma {:induction false} DistinctApart<T(!new)>(g: T -> T, f: T -> T, one: T, n: nat, i: nat, j: nat)
    requires FullPeriod(g, f, one, n) && i < j < n
    ensures Iter(f, i, one) != Iter(f, j, one)
  {
    hide Iter;
    var d := j - i;
    FullUndoes(g, f, one, n);
    NoShorterPeriod(g, f, one, n, d);
    if Iter(f, i, one) == Iter(f, j, one) {
      EqualApart(g, f, one, i, d);
    }
  }
}
