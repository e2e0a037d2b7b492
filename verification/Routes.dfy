/** The gateway's route table: routes are sorted by the length of their prefix, and a request goes
    to the first whose prefix its path begins with.
  */
module Routes {
  import opened Options

  datatype Route = Route(prefix: string, target: string)

  predicate HasPrefix(path: string, prefix: string) {
    |prefix| <= |path| && path[..|prefix|] == prefix
  }

  /** A path begins with the prefixes from which some text leads to it, and with no others. */
  lemma PrefixIff(path: string, prefix: string)
    ensures HasPrefix(path, prefix) <==> exists rest :: path == prefix + rest
  {
    if HasPrefix(path, prefix) {
      assert path == prefix + path[|prefix|..];
    }
  }

  predicate LongestFirst(routes: seq<Route>) {
    forall i, j :: 0 <= i < j < |routes| ==> |routes[i].prefix| >= |routes[j].prefix|
  }

  /** The sort: any permutation in the order of falling length, as it need not be stable. */
  ghost predicate Sorted(upstreams: seq<Route>, routes: seq<Route>) {
    multiset(routes) == multiset(upstreams) && LongestFirst(routes)
  }

  /** The route for a path: one with the longest prefix. */
  ghost predicate IsLongestMatch(upstreams: seq<Route>, path: string, r: Route) {
    && r in upstreams && HasPrefix(path, r.prefix)
    && forall o :: o in upstreams && HasPrefix(path, o.prefix) ==> |o.prefix| <= |r.prefix|
  }

  /** Two prefixes of one path that are equally long are the same, so the longest one is unique:
      among upstreams with different prefixes neither their order nor the sort matters. */
  lemma LongestMatchIsUnique(upstreams: seq<Route>, path: string, a: Route, b: Route)
    requires IsLongestMatch(upstreams, path, a) && IsLongestMatch(upstreams, path, b)
    ensures a.prefix == b.prefix
    ensures (forall x, y :: x in upstreams && y in upstreams && x.prefix == y.prefix ==> x == y) ==> a == b
  {
  }

  method Insert(sorted: seq<Route>, r: Route) returns (all: seq<Route>)
    requires LongestFirst(sorted)
    ensures LongestFirst(all) && multiset(all) == multiset(sorted) + multiset{r}
  {
    var k := |sorted|;
    while k > 0 && |sorted[k - 1].prefix| < |r.prefix|
      invariant 0 <= k <= |sorted|
      invariant forall i :: k <= i < |sorted| ==> |sorted[i].prefix| < |r.prefix|
    {
      k := k - 1;
    }
    InsertedOnce(sorted, k, r);
    InsertedInOrder(sorted, k, r);
    all := sorted[..k] + [r] + sorted[k..];
  }

  lemma InsertedOnce(s: seq<Route>, k: nat, r: Route)
    requires k <= |s|
    ensures multiset(s[..k] + [r] + s[k..]) == multiset(s) + multiset{r}
  {
    assert s == s[..k] + s[k..];
  }

  lemma InsertedInOrder(s: seq<Route>, k: nat, r: Route)
    requires LongestFirst(s) && k <= |s|
    requires k > 0 ==> |s[k - 1].prefix| >= |r.prefix|
    requires forall i :: k <= i < |s| ==> |s[i].prefix| < |r.prefix|
    ensures LongestFirst(s[..k] + [r] + s[k..])
  {
    assert forall i :: 0 <= i < k ==> |s[i].prefix| >= |s[k - 1].prefix|;
  }

  /** A sort; it keeps the order of routes with equally long prefixes, on which nothing relies. */
  method SortByLength(list: seq<Route>) returns (sorted: seq<Route>)
    ensures Sorted(list, sorted)
  {
    sorted := [];
    for n := 0 to |list|
      invariant Sorted(list[..n], sorted)
    {
      assert list[..n + 1] == list[..n] + [list[n]];
      sorted := Insert(sorted, list[n]);
    }
    assert list[..|list|] == list;
  }

  class Gateway {
    var routes: seq<Route>

    constructor ()
      ensures routes == []
    {
      routes := [];
    }

    /** Replace the table, unless a target is no URL: then nothing changes. */
    method Reload(upstreams: seq<Route>, parses: string -> bool) returns (ok: bool)
      modifies this
      ensures ok <==> forall u :: u in upstreams ==> parses(u.target)
      ensures if ok then Sorted(upstreams, routes) else routes == old(routes)
    {
      var list: seq<Route> := [];
      for n := 0 to |upstreams|
        invariant list == upstreams[..n]
        invariant forall u :: u in upstreams[..n] ==> parses(u.target)
      {
        if !parses(upstreams[n].target) {
          assert upstreams[n] in upstreams;
          return false;
        }
        list := list + [upstreams[n]];
      }
      assert list == upstreams;
      routes := SortByLength(list);
      ok := true;
    }

    /** The route for a path: none if and only if no upstream matches, else a longest match. */
    method Find(ghost upstreams: seq<Route>, path: string) returns (r: Option<Route>)
      requires Sorted(upstreams, routes)
      ensures r.None? <==> forall o :: o in upstreams ==> !HasPrefix(path, o.prefix)
      ensures r.Some? ==> IsLongestMatch(upstreams, path, r.value)
    {
      assert forall o :: o in upstreams <==> o in multiset(upstreams);
      assert forall o :: o in routes <==> o in multiset(routes);
      for n := 0 to |routes|
        invariant forall i :: 0 <= i < n ==> !HasPrefix(path, routes[i].prefix)
      {
        if HasPrefix(path, routes[n].prefix) {
          assert routes[n] in routes;
          return Some(routes[n]);
        }
      }
      r := None;
    }
  }
}
