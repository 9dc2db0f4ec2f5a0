/**
 The order of the harvested list, by method and then path, and sorting by it in place.
 */
module RouteOrder {

  datatype Route = Route(verb: string, path: string)

  /** The order of strings, character by character; a proper prefix comes first. */
  predicate StringLess(a: string, b: string) {
    b != [] && (a == [] || a[0] < b[0] || (a[0] == b[0] && StringLess(a[1..], b[1..])))
  }

  predicate Less(a: Route, b: Route) {
    if a.verb != b.verb then StringLess(a.verb, b.verb) else StringLess(a.path, b.path)
  }

  lemma {:induction false} StringIrreflexive(a: string)
    ensures !StringLess(a, a)
  {
    if a != [] { StringIrreflexive(a[1..]); }
  }

  lemma {:induction false} StringTransitive(a: string, b: string, c: string)
    requires StringLess(a, b) && StringLess(b, c)
    ensures StringLess(a, c)
  {
    if a != [] && b != [] && c != [] && a[0] == b[0] == c[0] { StringTransitive(a[1..], b[1..], c[1..]); }
  }

  lemma {:induction false} StringTotal(a: string, b: string)
    ensures a == b || StringLess(a, b) || StringLess(b, a)
  {
    if a != [] && b != [] && a[0] == b[0] {
      StringTotal(a[1..], b[1..]);
      assert a == [a[0]] + a[1..] && b == [b[0]] + b[1..];
    }
  }

  /** A strict total order. */
  lemma LessIsStrictTotal(a: Route, b: Route, c: Route)
    ensures !Less(a, a)
    ensures Less(a, b) && Less(b, c) ==> Less(a, c)
    ensures a == b || Less(a, b) || Less(b, a)
    ensures !(Less(a, b) && Less(b, a))
  {
    StringIrreflexive(a.verb);
    StringIrreflexive(a.path);
    StringTotal(a.verb, b.verb);
    StringTotal(a.path, b.path);
    if StringLess(a.verb, b.verb) && StringLess(b.verb, c.verb) { StringTransitive(a.verb, b.verb, c.verb); }
    if StringLess(a.path, b.path) && StringLess(b.path, c.path) { StringTransitive(a.path, b.path, c.path); }
    if StringLess(a.verb, b.verb) && StringLess(b.verb, a.verb) { StringTransitive(a.verb, b.verb, a.verb); }
    if StringLess(a.path, b.path) && StringLess(b.path, a.path) { StringTransitive(a.path, b.path, a.path); }
  }

  ghost predicate StrictlySorted(s: seq<Route>) {
    forall i, j | 0 <= i < j < |s| :: Less(s[i], s[j])
  }

  lemma FirstIsLeast(s: seq<Route>, t: seq<Route>)
    requires StrictlySorted(s) && StrictlySorted(t) && s != [] && t != [] && (forall r :: r in s <==> r in t)
    ensures s[0] == t[0]
  {
    assert s[0] in s && t[0] in t;
    var i :| 0 <= i < |s| && s[i] == t[0];
    var j :| 0 <= j < |t| && t[j] == s[0];
    if i > 0 && j > 0 {
      LessIsStrictTotal(s[0], t[0], s[0]);
    }
  }

  /** There is exactly one strictly increasing list of a given set of routes. */
  lemma {:induction false} SortedListIsUnique(s: seq<Route>, t: seq<Route>)
    requires StrictlySorted(s) && StrictlySorted(t) && (forall r :: r in s <==> r in t)
    ensures s == t
    decreases |s|
  {
    assert |s| > 0 ==> s[0] in s;
    assert |t| > 0 ==> t[0] in t;
    if s != [] {
      assert s[0] in t;
      FirstIsLeast(s, t);
      forall r ensures r in s[1..] <==> r in t[1..] {
        RestHasNotFirst(s, r);
        RestHasNotFirst(t, r);
      }
      SortedListIsUnique(s[1..], t[1..]);
      assert s == [s[0]] + s[1..] && t == [t[0]] + t[1..];
    }
  }

  lemma RestHasNotFirst(s: seq<Route>, r: Route)
    requires s != [] && StrictlySorted(s)
    ensures r in s[1..] <==> r in s && r != s[0]
  {
    LessIsStrictTotal(s[0], s[0], s[0]);
    if r in s && r != s[0] {
      var i :| 0 <= i < |s| && s[i] == r;
      assert s[1..][i - 1] == r;
    }
  }

  /** Everything before `hi` is in order, except around the route on its way down at `at`. */
  ghost predicate SortedBut(s: seq<Route>, hi: nat, at: nat)
    requires at <= hi <= |s|
  {
    forall i, j | 0 <= i < j < hi && j != at :: Less(s[i], s[j])
  }

  /** `s` with the routes at `at` and before it exchanged. */
  function Swapped(s: seq<Route>, at: nat): (t: seq<Route>)
    requires 0 < at < |s|
    ensures |t| == |s| && t[at] == s[at - 1] && t[at - 1] == s[at]
    ensures forall i | 0 <= i < |s| && i != at && i != at - 1 :: t[i] == s[i]
  {
    s[at := s[at - 1]][at - 1 := s[at]]
  }

  lemma SwapDown(s: seq<Route>, hi: nat, at: nat)
    requires 0 < at < hi <= |s| && SortedBut(s, hi, at) && Less(s[at], s[at - 1])
    ensures SortedBut(Swapped(s, at), hi, at - 1)
  {}

  lemma SwapPermutes(s: seq<Route>, at: nat)
    requires 0 < at < |s|
    ensures multiset(Swapped(s, at)) == multiset(s)
    ensures Distinct(s) ==> Distinct(Swapped(s, at))
  {}

  lemma Settled(s: seq<Route>, hi: nat, at: nat)
    requires at < hi <= |s| && Distinct(s) && SortedBut(s, hi, at) && (at > 0 ==> !Less(s[at], s[at - 1]))
    ensures forall i, j | 0 <= i < j < hi :: Less(s[i], s[j])
  {
    if at > 0 {
      assert s[at - 1] != s[at];
      LessIsStrictTotal(s[at - 1], s[at], s[at]);
      forall i | 0 <= i < at ensures Less(s[i], s[at]) { LessIsStrictTotal(s[i], s[at - 1], s[at]); }
    }
  }

  predicate Distinct(s: seq<Route>) {
    forall i, j | 0 <= i < j < |s| :: s[i] != s[j]
  }

  /** Sorts the slice of distinct routes in place. */
  method SortRoutes(a: array<Route>)
    requires Distinct(a[..])
    modifies a
    ensures StrictlySorted(a[..])
    ensures multiset(a[..]) == multiset(old(a[..]))
  {
    for n := 0 to a.Length
      invariant Distinct(a[..]) && multiset(a[..]) == multiset(old(a[..]))
      invariant forall i, j | 0 <= i < j < n :: Less(a[i], a[j])
    {
      SiftDown(a, n);
    }
  }

  method Swap(a: array<Route>, at: nat)
    requires 0 < at < a.Length
    modifies a
    ensures a[..] == Swapped(old(a[..]), at)
  {
    a[at], a[at - 1] := a[at - 1], a[at];
  }

  /** Moves the route at `n` down to its place among the sorted ones before it. */
  method SiftDown(a: array<Route>, n: nat)
    requires n < a.Length && Distinct(a[..])
    requires forall i, j | 0 <= i < j < n :: Less(a[i], a[j])
    modifies a
    ensures Distinct(a[..]) && multiset(a[..]) == multiset(old(a[..]))
    ensures forall i, j | 0 <= i < j <= n :: Less(a[i], a[j])
  {
    var k: nat := n;
    while k > 0 && Less(a[k], a[k - 1])
      invariant k <= n && Distinct(a[..]) && multiset(a[..]) == multiset(old(a[..]))
      invariant SortedBut(a[..], n + 1, k)
    {
      SwapDown(a[..], n + 1, k);
      SwapPermutes(a[..], k);
      Swap(a, k);
      k := k - 1;
    }
    Settled(a[..], n + 1, k);
  }
}
