/** Routes through the static code that the NET+ search finds: alternately a branch
    and a run of instructions up to the next branch. */
module Routes {
  import opened Instructions

  /** `b` follows `a` in address order, or `a` branches to `b`. */
  ghost predicate Follows(c: Code, a: nat, b: nat) {
    Adjacent(c, a, b) || BranchesTo(c, a, b)
  }

  ghost function Pos(c: Code, a: nat): (i: nat)
    requires CodeOk(c) && a in c.insns
    ensures i < |c.addrs| && c.addrs[i] == a
  {
    var i :| 0 <= i < |c.addrs| && c.addrs[i] == a;
    i
  }

  lemma PosUnique(c: Code, i: nat)
    requires CodeOk(c) && i < |c.addrs|
    ensures c.addrs[i] in c.insns && Pos(c, c.addrs[i]) == i
  {
    assert c.addrs[i] in c.addrs;
  }

  /** Instructions `i` to `j`, entered from branch `p`; none before `j` is a region entry. */
  ghost predicate Leg(c: Code, entries: set<nat>, p: nat, i: nat, j: nat) {
    && i <= j < |c.addrs| && BranchesTo(c, p, c.addrs[i])
    && forall k :: i <= k < j ==> c.addrs[k] !in entries
  }

  // ---------- What the search has found ----------

  /** `distance`: branch hops from the region; `next`: the branch target a branch
      was found behind; `parent`: the branch a target was entered from. */
  datatype Found = Found(distance: map<nat, nat>, next: map<nat, nat>, parent: map<nat, nat>)

  /** How branch `x` was found: it is one of the roots, or some legs away from one. */
  ghost predicate FoundAt(c: Code, entries: set<nat>, roots: set<nat>, f: Found, x: nat)
    requires CodeOk(c)
  {
    && x in f.distance && x in c.insns && c.insns[x].isFlow
    && (f.distance[x] == 0 ==> x in roots && x !in f.next)
    && (f.distance[x] > 0 ==>
          && x in f.next && f.next[x] in c.insns && f.next[x] in f.parent && f.parent[f.next[x]] in f.distance
          && f.distance[x] == f.distance[f.parent[f.next[x]]] + 1
          && Leg(c, entries, f.parent[f.next[x]], Pos(c, f.next[x]), Pos(c, x))
          && x !in entries)
  }

  ghost predicate FoundOk(c: Code, entries: set<nat>, roots: set<nat>, f: Found) {
    && CodeOk(c)
    && (forall x: nat {:trigger FoundAt(c, entries, roots, f, x)} :: x in f.distance ==> FoundAt(c, entries, roots, f, x))
    && (forall x :: x in f.next ==> x in f.distance)
  }

  lemma ParentKeeps(c: Code, entries: set<nat>, roots: set<nat>, f: Found, target: nat, cur: nat)
    requires FoundOk(c, entries, roots, f) && target !in f.parent
    ensures FoundOk(c, entries, roots, f.(parent := f.parent[target := cur]))
  {
    var g := f.(parent := f.parent[target := cur]);
    forall x: nat | x in g.distance ensures FoundAt(c, entries, roots, g, x) {
      assert FoundAt(c, entries, roots, f, x);
    }
  }

  function Pushed(f: Found, x: nat, d: nat, target: nat): Found {
    f.(distance := f.distance[x := d], next := f.next[x := target])
  }

  lemma PushKeeps(c: Code, entries: set<nat>, roots: set<nat>, f: Found, cur: nat, target: nat, x: nat)
    requires FoundOk(c, entries, roots, f) && cur in f.distance && x !in f.distance
    requires target in f.parent && f.parent[target] == cur && target in c.insns
    requires x in c.insns && c.insns[x].isFlow && x !in entries
    requires Leg(c, entries, cur, Pos(c, target), Pos(c, x))
    ensures FoundOk(c, entries, roots, Pushed(f, x, f.distance[cur] + 1, target))
  {
    var g := Pushed(f, x, f.distance[cur] + 1, target);
    forall y: nat | y in g.distance ensures FoundAt(c, entries, roots, g, y) {
      if y != x {
        assert FoundAt(c, entries, roots, f, y);
      }
    }
  }

  /** The search found branch `a` on its walk from target `t`. */
  ghost predicate FoundFrom(f: Found, a: nat, t: nat) {
    a in f.next && f.next[a] == t
  }

  /** The step from branch `a` to its target `b` may be part of a loop: `a` is outside the
      region, or the walk from `b` went on to a branch. */
  ghost predicate Used(f: Found, a: nat, b: nat) {
    (a in f.distance && f.distance[a] > 0) || exists y :: FoundFrom(f, y, b)
  }

  /** `b` follows `a` in address order, or `a` is the branch that `b` was first reached
      from, and that step may be part of a loop. */
  ghost predicate TreeStep(c: Code, f: Found, a: nat, b: nat) {
    Adjacent(c, a, b) || (BranchesTo(c, a, b) && b in f.parent && f.parent[b] == a && Used(f, a, b))
  }

  // ---------- Routes ----------

  /** A root, or a route with one more branch hop: over a target at position `i`
      and on to position `j`. */
  datatype Route = At(root: nat) | Hop(before: Route, i: nat, j: nat)

  function End(c: Code, route: Route): nat {
    match route
    case At(x) => x
    case Hop(_, _, j) => if j < |c.addrs| then c.addrs[j] else 0
  }

  function Hops(route: Route): nat {
    match route
    case At(_) => 0
    case Hop(before, _, _) => Hops(before) + 1
  }

  /** The addresses of a route in order. */
  function Addrs(c: Code, route: Route): seq<nat> {
    match route
    case At(x) => [x]
    case Hop(before, i, j) => Addrs(c, before) + Run(c, i, j)
  }

  function Run(c: Code, i: nat, j: nat): seq<nat> {
    if i <= j < |c.addrs| then c.addrs[i..j + 1] else []
  }

  /** A route the search may take: it starts at a root, every hop is a leg, and no
      branch on the way is a region entry. */
  ghost predicate RouteOk(c: Code, entries: set<nat>, roots: set<nat>, route: Route) {
    match route
    case At(x) => x in roots && x in c.insns
    case Hop(before, i, j) =>
      && RouteOk(c, entries, roots, before)
      && Leg(c, entries, End(c, before), i, j)
      && (before.Hop? ==> End(c, before) !in entries)
  }

  /** The route to a branch the search has found, with as many hops as its distance. */
  ghost function RouteTo(c: Code, entries: set<nat>, roots: set<nat>, f: Found, x: nat): (route: Route)
    requires FoundOk(c, entries, roots, f) && x in f.distance
    ensures RouteOk(c, entries, roots, route)
    ensures End(c, route) == x && Hops(route) == f.distance[x]
    ensures route.Hop? ==> x !in entries
    decreases f.distance[x]
  {
    assert FoundAt(c, entries, roots, f, x);
    if f.distance[x] == 0 then At(x)
    else
      var t := f.next[x];
      Hop(RouteTo(c, entries, roots, f, f.parent[t]), Pos(c, t), Pos(c, x))
  }

  /** Step `i` of a path follows the code. */
  ghost predicate FollowsAt(c: Code, p: seq<nat>, i: nat) {
    i + 1 < |p| && Follows(c, p[i], p[i + 1])
  }

  /** A loop-closing path: from a root to its last address, along the code, and
      past no region entry in between. */
  ghost predicate PathOk(c: Code, entries: set<nat>, roots: set<nat>, p: seq<nat>) {
    && p != [] && p[0] in roots
    && (forall i: nat :: i + 1 < |p| ==> FollowsAt(c, p, i))
    && (forall i :: 0 <= i < |p| ==> p[i] in c.insns)
    && (forall i :: 0 < i < |p| - 1 ==> p[i] !in entries)
  }

  lemma {:induction false} RouteIsPath(c: Code, entries: set<nat>, roots: set<nat>, route: Route)
    requires CodeOk(c) && RouteOk(c, entries, roots, route)
    ensures var p := Addrs(c, route);
            PathOk(c, entries, roots, p) && p[|p| - 1] == End(c, route) && (route.At? ==> |p| == 1)
  {
    match route
    case At(_) =>
    case Hop(before, i, j) =>
      RouteIsPath(c, entries, roots, before);
      PathMore(c, entries, roots, Addrs(c, before), i, j);
  }

  lemma PathMore(c: Code, entries: set<nat>, roots: set<nat>, p: seq<nat>, i: nat, j: nat)
    requires CodeOk(c) && PathOk(c, entries, roots, p) && Leg(c, entries, p[|p| - 1], i, j)
    requires |p| > 1 ==> p[|p| - 1] !in entries
    ensures PathOk(c, entries, roots, p + Run(c, i, j))
  {
    var q := p + Run(c, i, j);
    assert forall k :: |p| <= k < |q| ==> q[k] == c.addrs[i + k - |p|];
    forall k: nat | k + 1 < |q| ensures FollowsAt(c, q, k) {
      if k + 1 < |p| {
        assert FollowsAt(c, p, k);
      } else if k + 1 > |p| {
        var m := i + k - |p|;
        assert c.addrs[m] == q[k] && c.addrs[m + 1] == q[k + 1];
      }
    }
  }

  /** Every step of the path is one the search has made. */
  ghost predicate TreePath(c: Code, f: Found, p: seq<nat>) {
    forall i: nat :: i + 1 < |p| ==> TreeStepAt(c, f, p, i)
  }

  ghost predicate TreeStepAt(c: Code, f: Found, p: seq<nat>, i: nat) {
    i + 1 < |p| && TreeStep(c, f, p[i], p[i + 1])
  }

  lemma TreeMore(c: Code, f: Found, p: seq<nat>, i: nat, j: nat)
    requires p != [] && TreePath(c, f, p) && i <= j < |c.addrs| && TreeStep(c, f, p[|p| - 1], c.addrs[i])
    ensures TreePath(c, f, p + Run(c, i, j))
  {
    var q := p + Run(c, i, j);
    assert forall k :: |p| <= k < |q| ==> q[k] == c.addrs[i + k - |p|];
    forall k: nat | k + 1 < |q| ensures TreeStepAt(c, f, q, k) {
      if k + 1 < |p| {
        assert TreeStepAt(c, f, p, k);
      } else if k + 1 > |p| {
        var m := i + k - |p|;
        assert c.addrs[m] == q[k] && c.addrs[m + 1] == q[k + 1];
      }
    }
  }

  /** Routes back to the region only use branches that were the first to reach their
      targets. */
  lemma {:induction false} RouteIsTree(c: Code, entries: set<nat>, roots: set<nat>, f: Found, x: nat)
    requires FoundOk(c, entries, roots, f) && x in f.distance
    ensures TreePath(c, f, Addrs(c, RouteTo(c, entries, roots, f, x)))
    decreases f.distance[x]
  {
    assert FoundAt(c, entries, roots, f, x);
    if f.distance[x] > 0 {
      var t := f.next[x];
      assert FoundFrom(f, x, t);
      var before := RouteTo(c, entries, roots, f, f.parent[t]);
      RouteIsTree(c, entries, roots, f, f.parent[t]);
      RouteIsPath(c, entries, roots, before);
      TreeMore(c, f, Addrs(c, before), Pos(c, t), Pos(c, x));
    }
  }

  /** The path that closes a loop: on from branch `cur` over its target at `i` to `j`. */
  ghost function LoopRoute(c: Code, entries: set<nat>, roots: set<nat>, f: Found, cur: nat, i: nat, j: nat): Route
    requires FoundOk(c, entries, roots, f) && cur in f.distance
  {
    Hop(RouteTo(c, entries, roots, f, cur), i, j)
  }

  /** It runs over one hop more than the distance of `cur`, passes `cur` and ends at `j`. */
  lemma LoopRouteOk(c: Code, entries: set<nat>, roots: set<nat>, f: Found, cur: nat, i: nat, j: nat)
    requires FoundOk(c, entries, roots, f) && cur in f.distance && Leg(c, entries, cur, i, j)
    ensures var route := LoopRoute(c, entries, roots, f, cur, i, j);
            var p := Addrs(c, route);
            && RouteOk(c, entries, roots, route) && Hops(route) == f.distance[cur] + 1
            && PathOk(c, entries, roots, p) && p[|p| - 1] == c.addrs[j] && cur in p
  {
    hide FollowsAt;
    var before := RouteTo(c, entries, roots, f, cur);
    RouteIsPath(c, entries, roots, before);
    RouteIsPath(c, entries, roots, Hop(before, i, j));
    var q := Addrs(c, before);
    assert (q + Run(c, i, j))[|q| - 1] == cur;
  }

  lemma LoopRouteIsTree(c: Code, entries: set<nat>, roots: set<nat>, f: Found, cur: nat, i: nat, j: nat)
    requires FoundOk(c, entries, roots, f) && cur in f.distance && 0 < f.distance[cur] && Leg(c, entries, cur, i, j)
    requires c.addrs[i] in f.parent && f.parent[c.addrs[i]] == cur
    ensures TreePath(c, f, Addrs(c, LoopRoute(c, entries, roots, f, cur, i, j)))
  {
    hide TreePath, PathOk, Addrs, RouteTo;
    var before := RouteTo(c, entries, roots, f, cur);
    RouteIsTree(c, entries, roots, f, cur);
    EndsAt(c, entries, roots, before);
    LoopAddrsAre(c, before, i, j);
    TreeMore(c, f, Addrs(c, before), i, j);
  }

  lemma LoopAddrsAre(c: Code, before: Route, i: nat, j: nat)
    ensures Addrs(c, Hop(before, i, j)) == Addrs(c, before) + Run(c, i, j)
  {
  }

  lemma EndsAt(c: Code, entries: set<nat>, roots: set<nat>, route: Route)
    requires CodeOk(c) && RouteOk(c, entries, roots, route)
    ensures var p := Addrs(c, route); p != [] && p[|p| - 1] == End(c, route)
  {
    RouteIsPath(c, entries, roots, route);
  }
}
