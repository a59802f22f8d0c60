/** NET+: a NET region is expanded by a bounded breadth-first search of the static
    code for paths that lead back into the region. */
module NetPlus {
  import opened EdgeOrder
  import opened Tea
  import opened Flow
  import opened Entries
  import opened Rain
  import opened RegionFormation
  import opened Recording
  import opened Instructions
  import opened Routes
  import opened Paths
  import opened Exploration

  // ---------- What an expansion does to the region ----------

  /** An added address: no region entry, on a route from the region within the
      depth limit, and leading back to the entry of the region. */
  ghost predicate Added(c: Code, entries: set<nat>, roots: set<nat>, limit: nat, s: State, r: nat, e0: nat, a: nat) {
    && a !in entries && a in c.insns && Reaches(s, r, a, e0)
    && exists route :: OnRoute(c, entries, roots, limit, route, a)
  }

  ghost predicate OnRoute(c: Code, entries: set<nat>, roots: set<nat>, limit: nat, route: Route, a: nat) {
    RouteOk(c, entries, roots, route) && Hops(route) <= limit && a in Addrs(c, route)
  }

  ghost predicate EdgeFollows(c: Code, s: State, e: nat) {
    e < |s.edges| && Follows(c, TargetAddrOf(s, s.edges[e].src), TargetAddrOf(s, s.edges[e].tgt))
  }

  ghost function TargetAddrOf(s: State, n: nat): nat {
    if n < |s.nodes| then s.nodes[n].addr else NTE_ADDR
  }

  ghost predicate NewNode(c: Code, s0: State, s: State, r: nat, e0: nat, roots: set<nat>, limit: nat, m: nat) {
    m < |s.nodes| && Added(c, s0.entries.Keys, roots, limit, s, r, e0, s.nodes[m].addr)
  }

  /** Region `r`, as it was in `s0`, expanded to what it is in `s`. */
  ghost predicate Expanded(c: Code, roots: set<nat>, limit: nat, s0: State, s: State, r: nat, e0: nat) {
    && Extensible(s, r) && GrowsWithin(s0, s, r) && s.entries == s0.entries && SameEntryNodes(s0, s, r)
    && (forall a: nat {:trigger Reaches(s, r, e0, a)} :: HasAddr(s, r, a) ==> Reaches(s, r, e0, a))
    && (forall m: nat {:trigger NewNode(c, s0, s, r, e0, roots, limit, m)} ::
          |s0.nodes| <= m < |s.nodes| ==> NewNode(c, s0, s, r, e0, roots, limit, m))
    && (forall e: nat {:trigger EdgeFollows(c, s, e)} :: |s0.edges| <= e < |s.edges| ==> EdgeFollows(c, s, e))
  }

  /** Addresses a loop may be closed at: in the region, and leading to its entry. */
  ghost predicate LoopEntriesOk(s: State, r: nat, e0: nat, loopEntries: set<nat>) {
    forall a :: a in loopEntries ==> HasAddr(s, r, a) && Reaches(s, r, a, e0)
  }

  ghost predicate RootsOk(s0: State, r: nat, roots: set<nat>) {
    forall x :: x in roots ==> HasAddr(s0, r, x)
  }

  /** A new node never has the address of a node the region already had. */
  lemma NewIsNew(s: State, t: State, r: nat, m: nat, a: nat)
    requires UniqueIn(t, r) && Grows(s, t) && |s.nodes| <= m < |t.nodes| && t.nodes[m] == Node(a, r)
    ensures !HasAddr(s, r, a)
  {
    assert forall n :: 0 <= n < |s.nodes| ==> t.nodes[n] == s.nodes[n];
  }

  /** A loop-closing path and the region it is about to be added to. */
  ghost predicate Closes(c: Code, roots: set<nat>, limit: nat, s0: State, s: State, r: nat, e0: nat, route: Route) {
    var p := Addrs(c, route);
    && CodeOk(c) && NTE_ADDR !in c.insns
    && RouteOk(c, s0.entries.Keys, roots, route) && Hops(route) <= limit
    && PathOk(c, s0.entries.Keys, roots, p)
    && HasAddr(s, r, p[|p| - 1]) && Reaches(s, r, p[|p| - 1], e0)
  }

  lemma PathIsPathable(c: Code, entries: set<nat>, roots: set<nat>, s: State, r: nat, p: seq<nat>)
    requires CodeOk(c) && NTE_ADDR !in c.insns && PathOk(c, entries, roots, p) && Extensible(s, r)
    ensures Pathable(s, r, p)
  {
  }

  /** After the path is added, every address of it leads to the region entry, and
      the region entry to it. */
  lemma PathReaches(c: Code, roots: set<nat>, limit: nat, s0: State, s: State, t: State, r: nat, e0: nat, route: Route, i: nat)
    requires Expanded(c, roots, limit, s0, s, r, e0) && RootsOk(s0, r, roots)
    requires Closes(c, roots, limit, s0, s, r, e0, route) && i < |Addrs(c, route)|
    requires Grows(s, t) && Chain(t, r, Addrs(c, route))
    ensures Reaches(t, r, Addrs(c, route)[i], e0) && Reaches(t, r, e0, Addrs(c, route)[i])
  {
    var p := Addrs(c, route);
    GrowthKeepsAddr(s0, s, r, p[0]);
    assert Reaches(s, r, e0, p[0]);
    GrowthKeepsReach(s, t, r, e0, p[0]);
    ChainReaches(t, r, p, 0, i);
    ReachesTransitive(t, r, e0, p[0], p[i]);
    ChainReaches(t, r, p, i, |p| - 1);
    GrowthKeepsReach(s, t, r, p[|p| - 1], e0);
    ReachesTransitive(t, r, p[i], p[|p| - 1], e0);
  }

  lemma AddedChain(c: Code, roots: set<nat>, limit: nat, s0: State, s: State, r: nat, e0: nat, route: Route)
    requires Expanded(c, roots, limit, s0, s, r, e0) && RootsOk(s0, r, roots)
    requires Closes(c, roots, limit, s0, s, r, e0, route)
    ensures var p := Addrs(c, route);
            && Pathable(s, r, p)
            && var t := PathTo(s, r, p, |p|).0;
               Extensible(t, r) && PathAdded(s, t, r, p, |p|) && Chain(t, r, p)
  {
    var p := Addrs(c, route);
    PathIsPathable(c, s0.entries.Keys, roots, s, r, p);
    GrowthKeepsAddr(s0, s, r, p[0]);
    PathToAdds(s, r, p, |p|);
    GrowthKeepsAddr(s, PathTo(s, r, p, |p|).0, r, p[0]);
  }

  /** Adding a loop-closing path keeps the expansion going. */
  lemma PathExpands(c: Code, roots: set<nat>, limit: nat, s0: State, s: State, r: nat, e0: nat, route: Route)
    requires Expanded(c, roots, limit, s0, s, r, e0) && RootsOk(s0, r, roots) && Inv(s0)
    requires Closes(c, roots, limit, s0, s, r, e0, route)
    ensures var p := Addrs(c, route);
            Pathable(s, r, p) && Expanded(c, roots, limit, s0, PathTo(s, r, p, |p|).0, r, e0)
  {
    hide Inv, UniqueIn, Enclosed, HasAddr, Reaches, NewNode, EdgeFollows, PathTo, Closes, RootsOk;
    var p := Addrs(c, route);
    AddedChain(c, roots, limit, s0, s, r, e0, route);
    var t := PathTo(s, r, p, |p|).0;
    assert GrowsWithin(s, t, r) && t.entries == s.entries;
    GrowsWithinTransitive(s0, s, t, r);
    PathExpandsNodes(c, roots, limit, s0, s, t, r, e0, route);
    PathExpandsEdges(c, roots, limit, s0, s, t, r, e0, route);
    forall a: nat {:trigger Reaches(t, r, e0, a)} | HasAddr(t, r, a) ensures Reaches(t, r, e0, a) {
      AllReached(c, roots, limit, s0, s, t, r, e0, route, a);
    }
  }

  lemma PathExpandsNodes(c: Code, roots: set<nat>, limit: nat, s0: State, s: State, t: State, r: nat, e0: nat, route: Route)
    requires Expanded(c, roots, limit, s0, s, r, e0) && RootsOk(s0, r, roots)
    requires Closes(c, roots, limit, s0, s, r, e0, route) && Extensible(t, r)
    requires PathAdded(s, t, r, Addrs(c, route), |Addrs(c, route)|) && Chain(t, r, Addrs(c, route))
    ensures forall m: nat {:trigger NewNode(c, s0, t, r, e0, roots, limit, m)} ::
              |s0.nodes| <= m < |t.nodes| ==> NewNode(c, s0, t, r, e0, roots, limit, m)
  {
    forall m: nat | |s0.nodes| <= m < |t.nodes| ensures NewNode(c, s0, t, r, e0, roots, limit, m) {
      if m < |s.nodes| {
        assert NewNode(c, s0, s, r, e0, roots, limit, m);
        StillAdded(c, s0.entries.Keys, roots, limit, s, t, r, e0, s.nodes[m].addr);
      } else {
        NewlyAdded(c, roots, limit, s0, s, t, r, e0, route, m);
      }
    }
  }

  lemma PathExpandsEdges(c: Code, roots: set<nat>, limit: nat, s0: State, s: State, t: State, r: nat, e0: nat, route: Route)
    requires Expanded(c, roots, limit, s0, s, r, e0) && Closes(c, roots, limit, s0, s, r, e0, route)
    requires PathAdded(s, t, r, Addrs(c, route), |Addrs(c, route)|)
    ensures forall e: nat {:trigger EdgeFollows(c, t, e)} :: |s0.edges| <= e < |t.edges| ==> EdgeFollows(c, t, e)
  {
    forall e: nat | |s0.edges| <= e < |t.edges| ensures EdgeFollows(c, t, e) {
      if e < |s.edges| {
        assert EdgeFollows(c, s, e) && t.edges[e] == s.edges[e];
      } else {
        NewEdgeFollows(c, s0.entries.Keys, roots, t, Addrs(c, route), e, |s.edges|);
      }
    }
  }

  lemma AllReached(c: Code, roots: set<nat>, limit: nat, s0: State, s: State, t: State, r: nat, e0: nat, route: Route, a: nat)
    requires Expanded(c, roots, limit, s0, s, r, e0) && RootsOk(s0, r, roots)
    requires Closes(c, roots, limit, s0, s, r, e0, route)
    requires PathAdded(s, t, r, Addrs(c, route), |Addrs(c, route)|) && Chain(t, r, Addrs(c, route)) && HasAddr(t, r, a)
    ensures Reaches(t, r, e0, a)
  {
    assert forall n :: 0 <= n < |s.nodes| ==> t.nodes[n] == s.nodes[n];
    if HasAddr(s, r, a) {
      assert Reaches(s, r, e0, a);
      GrowthKeepsReach(s, t, r, e0, a);
    } else {
      var n :| 0 <= n < |t.nodes| && t.nodes[n] == Node(a, r);
      var i :| 0 <= i < |Addrs(c, route)| && Addrs(c, route)[i] == a;
      PathReaches(c, roots, limit, s0, s, t, r, e0, route, i);
    }
  }

  lemma StillAdded(c: Code, entries: set<nat>, roots: set<nat>, limit: nat, s: State, t: State, r: nat, e0: nat, a: nat)
    requires Grows(s, t) && Added(c, entries, roots, limit, s, r, e0, a)
    ensures Added(c, entries, roots, limit, t, r, e0, a)
  {
    GrowthKeepsReach(s, t, r, a, e0);
  }

  lemma NewlyAdded(c: Code, roots: set<nat>, limit: nat, s0: State, s: State, t: State, r: nat, e0: nat, route: Route, m: nat)
    requires Expanded(c, roots, limit, s0, s, r, e0) && RootsOk(s0, r, roots)
    requires Closes(c, roots, limit, s0, s, r, e0, route) && Extensible(t, r)
    requires PathAdded(s, t, r, Addrs(c, route), |Addrs(c, route)|) && Chain(t, r, Addrs(c, route))
    requires |s.nodes| <= m < |t.nodes|
    ensures Added(c, s0.entries.Keys, roots, limit, t, r, e0, t.nodes[m].addr)
  {
    var p, a := Addrs(c, route), t.nodes[m].addr;
    var i :| 0 <= i < |p| && p[i] == a;
    assert Reaches(t, r, a, e0) by {
      PathReaches(c, roots, limit, s0, s, t, r, e0, route, i);
    }
    assert 0 < i < |p| - 1 by {
      NewIsNew(s, t, r, m, a);
      GrowthKeepsAddr(s0, s, r, p[0]);
    }
    assert OnRoute(c, s0.entries.Keys, roots, limit, route, a);
  }

  lemma NewEdgeFollows(c: Code, entries: set<nat>, roots: set<nat>, t: State, p: seq<nat>, e: nat, m: nat)
    requires PathOk(c, entries, roots, p) && EdgesOnPath(t, p, m) && m <= e < |t.edges|
    ensures EdgeFollows(c, t, e)
  {
    assert OnPath(t, p, e);
    var i: nat :| StepsAt(t, p, i, e);
    assert FollowsAt(c, p, i);
  }

  /** The branch the path was closed through becomes a place to close loops at. */
  lemma LoopEntryAdded(c: Code, roots: set<nat>, limit: nat, s0: State, s: State, r: nat, e0: nat, route: Route,
                       loopEntries: set<nat>, cur: nat)
    requires Expanded(c, roots, limit, s0, s, r, e0) && RootsOk(s0, r, roots)
    requires Closes(c, roots, limit, s0, s, r, e0, route) && cur in Addrs(c, route)
    requires LoopEntriesOk(s, r, e0, loopEntries)
    ensures var p := Addrs(c, route);
            Pathable(s, r, p) && LoopEntriesOk(PathTo(s, r, p, |p|).0, r, e0, loopEntries + {cur})
  {
    hide Extensible;
    var p := Addrs(c, route);
    AddedChain(c, roots, limit, s0, s, r, e0, route);
    var t := PathTo(s, r, p, |p|).0;
    forall a | a in loopEntries + {cur} ensures HasAddr(t, r, a) && Reaches(t, r, a, e0) {
      if a in loopEntries {
        GrowthKeepsAddr(s, t, r, a);
        GrowthKeepsReach(s, t, r, a, e0);
      } else {
        var i :| 0 <= i < |p| && p[i] == cur;
        PathReaches(c, roots, limit, s0, s, t, r, e0, route, i);
        ChainHas(t, r, p, i);
      }
    }
  }

  // ---------- The search ----------

  function Lookup(m: map<nat, nat>, a: nat): nat {
    if a in m then m[a] else 0
  }

  lemma ReversedConcat(a: seq<nat>, b: seq<nat>)
    ensures Reversed(a + b) == Reversed(b) + Reversed(a)
  {
  }

  /** The local variables of `expand`. */
  class Frontier {
    var queue: seq<nat>
    var distance: map<nat, nat>
    var next: map<nat, nat>
    var parent: map<nat, nat>
    var loopEntries: set<nat>
    /** Every branch that was ever put into the queue. */
    ghost var enqueued: seq<nat>

    ghost function Found(): Found
      reads this`distance, this`next, this`parent
    {
      Routes.Found(distance, next, parent)
    }

    /** No branch is enqueued twice: a branch is enqueued when it gets its distance. */
    ghost predicate EnqueuedOnce()
      reads this`queue, this`distance, this`enqueued
    {
      && Distinct(enqueued) && (forall x :: x in enqueued <==> x in distance)
      && (forall x :: x in queue ==> x in distance)
    }

    constructor ()
      ensures queue == enqueued == [] && Found() == Routes.Found(map[], map[], map[]) && loopEntries == {} && EnqueuedOnce()
    {
      queue, distance, next, parent, loopEntries, enqueued := [], map[], map[], map[], {}, [];
    }

    method Push(x: nat, d: nat)
      requires EnqueuedOnce() && x !in distance
      modifies this`queue, this`distance, this`enqueued
      ensures EnqueuedOnce() && distance == old(distance)[x := d] && queue == old(queue) + [x]
      ensures enqueued == old(enqueued) + [x]
    {
      queue := queue + [x];
      distance := distance[x := d];
      enqueued := enqueued + [x];
    }

    /** A branch of the region. */
    method PushRoot(x: nat)
      requires EnqueuedOnce() && x !in distance
      modifies this`queue, this`distance, this`enqueued, this`parent
      ensures EnqueuedOnce() && queue == old(queue) + [x] && enqueued == old(enqueued) + [x]
      ensures Found() == old(Found()).(distance := old(distance)[x := 0], parent := old(parent)[x := 0])
    {
      Push(x, 0);
      parent := parent[x := 0];
    }

    /** A branch found behind a branch target. */
    method PushBehind(x: nat, d: nat, target: nat)
      requires EnqueuedOnce() && x !in distance
      modifies this`queue, this`distance, this`enqueued, this`next
      ensures EnqueuedOnce() && queue == old(queue) + [x] && Found() == Pushed(old(Found()), x, d, target)
    {
      Push(x, d);
      next := next[x := target];
    }

    method Pop() returns (x: nat)
      requires EnqueuedOnce() && queue != []
      modifies this`queue
      ensures EnqueuedOnce() && x == old(queue)[0] && queue == old(queue)[1..]
    {
      x := queue[0];
      queue := queue[1..];
    }
  }

  /** Appends the instructions from position `j` back to `prev`. */
  method AppendBack(insns: InstructionSet, newpath: seq<nat>, begin: nat, prev: nat) returns (path: seq<nat>)
    requires insns.Valid() && begin in insns.insns && prev in insns.insns
    requires Pos(insns.Model(), prev) <= Pos(insns.Model(), begin)
    ensures path == newpath + Reversed(Run(insns.Model(), Pos(insns.Model(), prev), Pos(insns.Model(), begin)))
  {
    hide CodeOk;
    ghost var c := insns.Model();
    path := newpath;
    var it := insns.Find(begin);
    PosUnique(c, it);
    ghost var top := it;
    while true
      invariant Pos(c, prev) <= it <= top == Pos(c, begin)
      invariant path == newpath + Reversed(c.addrs[it + 1..top + 1])
      decreases it
    {
      path := path + [insns.addrs[it]];
      assert Reversed(c.addrs[it..top + 1]) == Reversed(c.addrs[it + 1..top + 1]) + [c.addrs[it]];
      PosUnique(c, it);
      if insns.addrs[it] == prev { break; }
      it := it - 1;
    }
  }

  /** Follows `parent` and `next` back from the instruction that closes the loop to
      a branch of the region, writing the path down backwards. */
  method RebuildPath(insns: InstructionSet, fr: Frontier, ghost entries: set<nat>, ghost roots: set<nat>,
                     ghost cur: nat, target: nat, last: nat) returns (newpath: seq<nat>)
    requires insns.Valid() && NTE_ADDR !in insns.insns && FoundOk(insns.Model(), entries, roots, fr.Found())
    requires cur in fr.distance && target in fr.parent && fr.parent[target] == cur
    requires target in insns.insns && last in insns.insns
    requires Pos(insns.Model(), target) <= Pos(insns.Model(), last)
    ensures newpath == Reversed(Addrs(insns.Model(),
              LoopRoute(insns.Model(), entries, roots, fr.Found(), cur, Pos(insns.Model(), target), Pos(insns.Model(), last))))
  {
    hide Follows, CodeOk, RouteOk, Run;
    ghost var c, f := insns.Model(), fr.Found();
    var begin, prev := last, target;
    ghost var route := LoopRoute(c, entries, roots, f, cur, Pos(c, target), Pos(c, last));
    ghost var total := Addrs(c, route);
    newpath := [];
    while true
      invariant begin in c.insns && prev in c.insns && prev in f.parent && f.parent[prev] in f.distance
      invariant Pos(c, prev) <= Pos(c, begin)
      invariant route == LoopRoute(c, entries, roots, f, f.parent[prev], Pos(c, prev), Pos(c, begin))
      invariant Reversed(total) == newpath + Reversed(Addrs(c, route))
      decreases f.distance[f.parent[prev]]
    {
      ReversedConcat(Addrs(c, route.before), Run(c, Pos(c, prev), Pos(c, begin)));
      newpath := AppendBack(insns, newpath, begin, prev);
      begin := fr.parent[prev];
      assert FoundAt(c, entries, roots, f, begin);
      prev := Lookup(fr.next, begin);
      route := route.before;
      if prev == 0 {
        newpath := newpath + [begin];
        break;
      }
    }
  }

  /** What the search keeps: the region is being expanded properly, loops may be
      closed where the code thinks they may, and every branch found is within the
      depth limit of a branch of the region. */
  ghost predicate Searching(c: Code, roots: set<nat>, limit: nat, s0: State, s: State, r: nat, e0: nat,
                            f: Found, loopEntries: set<nat>) {
    && CodeOk(c) && NTE_ADDR !in c.insns && Inv(s0) && RootsOk(s0, r, roots)
    && Expanded(c, roots, limit, s0, s, r, e0)
    && LoopEntriesOk(s, r, e0, loopEntries)
    && FoundOk(c, s0.entries.Keys, roots, f)
    && (forall x :: x in f.distance ==> f.distance[x] <= limit)
    && TreeEdges(c, |s0.edges|, s, f)
  }

  lemma SearchCloses(c: Code, roots: set<nat>, limit: nat, s0: State, s: State, r: nat, e0: nat,
                     f: Found, loopEntries: set<nat>, cur: nat, i: nat, j: nat)
    requires Searching(c, roots, limit, s0, s, r, e0, f, loopEntries)
    requires cur in f.distance && 0 < f.distance[cur] < limit
    requires Leg(c, s0.entries.Keys, cur, i, j) && c.addrs[j] in loopEntries
    requires c.addrs[i] in f.parent && f.parent[c.addrs[i]] == cur
    ensures var route := LoopRoute(c, s0.entries.Keys, roots, f, cur, i, j);
            var p := Addrs(c, route);
            && Closes(c, roots, limit, s0, s, r, e0, route) && Pathable(s, r, p)
            && Searching(c, roots, limit, s0, PathTo(s, r, p, |p|).0, r, e0, f, loopEntries + {cur})
  {
    var route := LoopRoute(c, s0.entries.Keys, roots, f, cur, i, j);
    LoopRouteOk(c, s0.entries.Keys, roots, f, cur, i, j);
    assert Closes(c, roots, limit, s0, s, r, e0, route);
    PathExpands(c, roots, limit, s0, s, r, e0, route);
    LoopEntryAdded(c, roots, limit, s0, s, r, e0, route, loopEntries, cur);
    LoopRouteIsTree(c, s0.entries.Keys, roots, f, cur, i, j);
    AddedChain(c, roots, limit, s0, s, r, e0, route);
    TreeEdgesGrow(c, f, |s0.edges|, s, PathTo(s, r, Addrs(c, route), |Addrs(c, route)|).0, r, Addrs(c, route));
  }

  /** The search stays on the side of the system threshold the region is entered on. */
  ghost predicate Sided(w: Search, m: nat, s: State, next: map<nat, nat>) {
    SidedNext(w, next) && SidedEdges(w, m, s)
  }

  /** And so does the path that closes a loop. */
  lemma LoopIsSided(w: Search, s0: State, s: State, f: Found, loopEntries: set<nat>, cur: nat, i: nat, j: nat)
    requires Searching(w.code, w.roots, w.limit, s0, s, w.r, w.e0, f, loopEntries) && w.entries == s0.entries.Keys
    requires Sided(w, |s0.edges|, s, f.next)
    requires cur in f.distance && 0 < f.distance[cur] < w.limit
    requires Leg(w.code, w.entries, cur, i, j) && w.code.addrs[j] in loopEntries
    requires w.code.addrs[i] in f.parent && f.parent[w.code.addrs[i]] == cur
    requires w.config.mixUsrSys || (w.code.addrs[i] < w.config.systemThreshold) == (w.e0 < w.config.systemThreshold)
    ensures var p := Addrs(w.code, LoopRoute(w.code, w.entries, w.roots, f, cur, i, j));
            Pathable(s, w.r, p) && Sided(w, |s0.edges|, PathTo(s, w.r, p, |p|).0, f.next)
  {
    hide SidedEdges, SidedNext, SidedPath, Expanded, TreeEdges, RootsOk, PathTo, RouteTo, Addrs, PathAdded, Pathable, LoopEntriesOk;
    var c, route := w.code, LoopRoute(w.code, w.entries, w.roots, f, cur, i, j);
    var before := RouteTo(c, w.entries, w.roots, f, cur);
    RouteIsSided(w, f, cur);
    EndsAt(c, w.entries, w.roots, before);
    LoopAddrsAre(c, before, i, j);
    SidedMore(w, Addrs(c, before), i, j);
    SearchCloses(c, w.roots, w.limit, s0, s, w.r, w.e0, f, loopEntries, cur, i, j);
    AddedChain(c, w.roots, w.limit, s0, s, w.r, w.e0, route);
    SidedEdgesGrow(w, |s0.edges|, s, PathTo(s, w.r, Addrs(c, route), |Addrs(c, route)|).0, Addrs(c, route));
  }

  /** The edges of the path, too, go from the branches that were first. */
  lemma TreeEdgesGrow(c: Code, f: Found, m: nat, s: State, t: State, r: nat, p: seq<nat>)
    requires TreeEdges(c, m, s, f) && TreePath(c, f, p) && PathAdded(s, t, r, p, |p|)
    ensures TreeEdges(c, m, t, f)
  {
    forall e: nat | m <= e < |t.edges| ensures TreeEdge(c, t, f, e) {
      if e < |s.edges| {
        assert TreeEdge(c, s, f, e) && t.edges[e] == s.edges[e];
      } else {
        assert OnPath(t, p, e);
        var i: nat :| StepsAt(t, p, i, e);
        assert TreeStepAt(c, f, p, i);
      }
    }
  }

  /** The whole loop is in the region then. */
  lemma LoopIsAdded(c: Code, roots: set<nat>, limit: nat, s0: State, s: State, r: nat, e0: nat,
                    f: Found, loopEntries: set<nat>, cur: nat, i: nat, j: nat)
    requires Searching(c, roots, limit, s0, s, r, e0, f, loopEntries)
    requires cur in f.distance && 0 < f.distance[cur] < limit
    requires Leg(c, s0.entries.Keys, cur, i, j) && c.addrs[j] in loopEntries
    requires c.addrs[i] in f.parent && f.parent[c.addrs[i]] == cur
    ensures var p := Addrs(c, LoopRoute(c, s0.entries.Keys, roots, f, cur, i, j));
            && Pathable(s, r, p) && Grows(s, PathTo(s, r, p, |p|).0) && Chain(PathTo(s, r, p, |p|).0, r, p)
            && Searching(c, roots, limit, s0, PathTo(s, r, p, |p|).0, r, e0, f, loopEntries + {cur})
  {
    var route := LoopRoute(c, s0.entries.Keys, roots, f, cur, i, j);
    SearchCloses(c, roots, limit, s0, s, r, e0, f, loopEntries, cur, i, j);
    AddedChain(c, roots, limit, s0, s, r, e0, route);
  }

  lemma ReversedTwice(xs: seq<nat>)
    ensures Reversed(Reversed(xs)) == xs
  {
  }

  /** A search before it has found anything. */
  lemma SearchBegins(c: Code, roots: set<nat>, limit: nat, s: State, r: nat, e0: nat)
    requires CodeOk(c) && NTE_ADDR !in c.insns && Extensible(s, r) && HasAddr(s, r, e0) && RootsOk(s, r, roots)
    requires forall a: nat {:trigger Reaches(s, r, e0, a)} :: HasAddr(s, r, a) ==> Reaches(s, r, e0, a)
    ensures Searching(c, roots, limit, s, s, r, e0, Found(map[], map[], map[]), {})
  {
  }

  /** A branch of the region enters the queue. */
  lemma RootKeeps(c: Code, roots: set<nat>, limit: nat, s0: State, s: State, r: nat, e0: nat,
                  f: Found, loopEntries: set<nat>, x: nat)
    requires Searching(c, roots, limit, s0, s, r, e0, f, loopEntries)
    requires x in roots && x in c.insns && c.insns[x].isFlow && x !in f.distance
    ensures var g := f.(distance := f.distance[x := 0], parent := f.parent[x := 0]);
            x !in f.parent ==> Searching(c, roots, limit, s0, s, r, e0, g, loopEntries)
  {
    var g := f.(distance := f.distance[x := 0], parent := f.parent[x := 0]);
    if x !in f.parent {
      TreeEdgesStay(c, |s0.edges|, s, f, g);
      forall y: nat | y in g.distance ensures FoundAt(c, s0.entries.Keys, roots, g, y) {
        if y != x {
          assert FoundAt(c, s0.entries.Keys, roots, f, y);
        }
      }
    }
  }

  /** A target is given the branch that reached it. */
  lemma TargetKeeps(c: Code, roots: set<nat>, limit: nat, s0: State, s: State, r: nat, e0: nat,
                    f: Found, loopEntries: set<nat>, target: nat, cur: nat)
    requires Searching(c, roots, limit, s0, s, r, e0, f, loopEntries) && target !in f.parent
    ensures Searching(c, roots, limit, s0, s, r, e0, f.(parent := f.parent[target := cur]), loopEntries)
  {
    hide Expanded, LoopEntriesOk, TreeEdges, FoundOk;
    ParentKeeps(c, s0.entries.Keys, roots, f, target, cur);
    TreeEdgesStay(c, |s0.edges|, s, f, f.(parent := f.parent[target := cur]));
  }

  /** A branch is found behind `target`. */
  lemma BranchKeeps(c: Code, roots: set<nat>, limit: nat, s0: State, s: State, r: nat, e0: nat,
                    f: Found, loopEntries: set<nat>, cur: nat, target: nat, x: nat)
    requires Searching(c, roots, limit, s0, s, r, e0, f, loopEntries)
    requires cur in f.distance && f.distance[cur] < limit && x !in f.distance
    requires target in f.parent && f.parent[target] == cur && target in c.insns
    requires x in c.insns && c.insns[x].isFlow && x !in s0.entries
    requires Leg(c, s0.entries.Keys, cur, Pos(c, target), Pos(c, x))
    ensures Searching(c, roots, limit, s0, s, r, e0, Pushed(f, x, f.distance[cur] + 1, target), loopEntries)
  {
    hide Expanded, LoopEntriesOk, TreeEdges;
    PushKeeps(c, s0.entries.Keys, roots, f, cur, target, x);
    TreeEdgesStay(c, |s0.edges|, s, f, Pushed(f, x, f.distance[cur] + 1, target));
  }

  /** The branches of the region the search starts from. */
  ghost function Roots(c: Code, s: State, r: nat, e0: nat): set<nat> {
    set n: nat | n < |s.nodes| && s.nodes[n].region == r && s.nodes[n].addr != e0
      && s.nodes[n].addr in c.insns && c.insns[s.nodes[n].addr].isFlow :: s.nodes[n].addr
  }

  datatype NetPlusState = NetPlusState(tea: State, rec: Recorder)

  ghost predicate InCode(code: Code, buffer: seq<nat>) {
    forall i :: 0 <= i < |buffer| ==> buffer[i] in code.insns
  }

  /** What every NET+ run keeps. */
  ghost predicate NetPlusOk(c: Config, code: Code, s: NetPlusState) {
    && Inv(s.tea) && EntriesIntact(s.tea) && RecorderOk(c, s.rec, s.tea.entries)
    && NTE_ADDR !in code.insns
    && (s.rec.recording ==> InCode(code, s.rec.buffer))
  }

  /** One trace item: as in NET, and a region that is built is then expanded.
      `code` already has the instruction of the item. */
  ghost predicate NetPlusMoves(c: Config, code: Code, limit: nat, s: NetPlusState, t: NetPlusState, a: nat, pick: nat)
    requires Inv(s.tea) && a != NTE_ADDR
  {
    var k, u := TakenBy(s.tea, a, pick), Step(s.tea, a, pick);
    var rec := Record(c, s.rec, k, a);
    if StopsAt(c, s.rec, k, a) then BuiltAndExpanded(c, code, limit, u, rec.buffer, t.tea) && t.rec == rec.(buffer := t.rec.buffer)
    else t == NetPlusState(u, rec)
  }

  /** The search through the code for what to add to region `r`. */
  ghost function SearchFor(config: Config, code: Code, limit: nat, s: State, r: nat, e0: nat): Search {
    Search(config, code, s.entries.Keys, Roots(code, s, r, e0), limit, r, e0)
  }

  /** A region is built from the buffer and then expanded. */
  ghost predicate BuiltAndExpanded(config: Config, code: Code, limit: nat, u: State, buffer: seq<nat>, t: State) {
    && Inv(u) && buffer != [] && NonZero(buffer)
    && var b, r := BuildRegion(u, buffer), |u.regions|;
       && Expanded(code, Roots(code, b, r, buffer[0]), limit, b, t, r, buffer[0])
       && Complete(SearchFor(config, code, limit, b, r, buffer[0]), b, t)
  }

  /** The region is ready to be expanded: reachable from its one entry node, at
      address `e0`, with all its addresses in the code and no edge out of it yet. */
  ghost predicate RegionReady(config: Config, c: Code, s: State, r: nat, e0: nat) {
    && Extensible(s, r) && HasAddr(s, r, e0) && e0 in s.entries
    && (forall n :: n in s.regions[r].nodes ==> config.mixUsrSys || !SwitchedMode(config, e0, s.nodes[n].addr))
    && (forall a: nat {:trigger Reaches(s, r, e0, a)} :: HasAddr(s, r, a) ==> Reaches(s, r, e0, a))
    && (forall n :: n in s.regions[r].nodes ==> s.nodes[n].addr in c.insns)
    && (forall n :: n in s.regions[r].entryNodes ==> n < |s.nodes| && s.nodes[n] == Node(e0, r))
    && (forall n :: 0 <= n < |s.nodes| && s.nodes[n] == Node(e0, r) ==> n in s.regions[r].entryNodes)
  }

  lemma BuiltIsReady(config: Config, code: Code, s: State, buffer: seq<nat>)
    requires Inv(s) && buffer != [] && NonZero(buffer) && InCode(code, buffer) && OneMode(config, buffer)
    ensures RegionReady(config, code, BuildRegion(s, buffer), |s.regions|, buffer[0])
  {
    var t, r := BuildRegion(s, buffer), |s.regions|;
    BuiltReachable(s, buffer);
    BuiltEntryNode(s, buffer);
    BuiltAddrs(config, code, s, buffer);
    BuildRegionWithin(s, buffer);
    hide Inv, BuildRegion, UniqueIn, Enclosed, GrowsWithin, InCode, OneMode;
  }

  /** The first node is the only entry node. */
  lemma BuiltEntryNode(s: State, buffer: seq<nat>)
    requires Inv(s) && buffer != [] && NonZero(buffer)
    ensures var t, r := BuildRegion(s, buffer), |s.regions|;
            && r < |t.regions| && |s.nodes| < |t.nodes| && t.regions[r].entryNodes == {|s.nodes|}
            && t.nodes[|s.nodes|] == Node(buffer[0], r) && UniqueIn(t, r)
  {
    BuildToEntryNodes(s, buffer, |buffer|);
    FirstNodeOfRegion(s, buffer);
    BuiltReachable(s, buffer);
  }

  lemma BuiltAddrs(config: Config, code: Code, s: State, buffer: seq<nat>)
    requires Inv(s) && buffer != [] && NonZero(buffer) && InCode(code, buffer) && OneMode(config, buffer)
    ensures var t, r := BuildRegion(s, buffer), |s.regions|;
            r < |t.regions| && forall n :: n in t.regions[r].nodes ==>
              && n < |t.nodes| && t.nodes[n].addr in code.insns
              && (config.mixUsrSys || !SwitchedMode(config, buffer[0], t.nodes[n].addr))
  {
    var t, r := BuildRegion(s, buffer), |s.regions|;
    BuiltReachable(s, buffer);
    assert RegionOk(t.nodes, r, t.regions[r]);
    hide Inv, BuildRegion, Reaches, Extensible, SwitchedMode;
    forall n | n in t.regions[r].nodes
      ensures t.nodes[n].addr in code.insns && (config.mixUsrSys || !SwitchedMode(config, buffer[0], t.nodes[n].addr))
    {
      assert HasAddr(t, r, t.nodes[n].addr);
    }
  }

  lemma CodeGrows(c: Config, code: Code, more: Code, s: NetPlusState)
    requires NetPlusOk(c, code, s) && NTE_ADDR !in more.insns && code.insns.Keys <= more.insns.Keys
    ensures NetPlusOk(c, more, s)
  {
  }

  /** A recording that stops has a buffer a region can be built from and expanded. */
  lemma StopIsReady(c: Config, code: Code, s: NetPlusState, a: nat, pick: nat)
    requires NetPlusOk(c, code, s) && a != NTE_ADDR
    ensures var k := TakenBy(s.tea, a, pick);
            StopsAt(c, s.rec, k, a) ==>
              var buffer := Record(c, s.rec, k, a).buffer;
              buffer != [] && NonZero(buffer) && InCode(code, buffer) && OneMode(c, buffer)
  {
    TakenMeans(s.tea, a, pick);
    RecordKeeps(c, s.rec, s.tea.entries, TakenBy(s.tea, a, pick), a);
  }

  /** The whole step, in terms of where the automaton was and is: when a recording ends, a
      region is built from it and expanded. */
  lemma NetPlusMovesIs(c: Config, code: Code, limit: nat, s: NetPlusState, t: NetPlusState, a: nat, pick: nat)
    requires NetPlusOk(c, code, s) && a != NTE_ADDR && NetPlusMoves(c, code, limit, s, t, a, pick)
    ensures var u, r := Step(s.tea, a, pick), s.rec;
            var point, n := StartsTrace(s.tea, u, r.lastAddr, a), CountNow(r.counters, a);
            var starts := point && n >= c.hotThreshold && !r.recording;
            var active, buffer := r.recording || starts, if starts then [] else r.buffer;
            var stops := active && EndsTrace(u, buffer, r.lastAddr, a);
            && t.rec.counters == (if point then r.counters[a := n] else r.counters)
            && t.rec.recording == (active && !stops) && t.rec.lastAddr == a
            && (!stops ==> t.tea == u && t.rec.buffer == if active then Buffered(c, buffer, a) else buffer)
            && (stops ==>
                  && buffer != [] && NonZero(buffer) && Inv(u)
                  && var b, q := BuildRegion(u, buffer), |u.regions|;
                     && Expanded(code, Roots(code, b, q, buffer[0]), limit, b, t.tea, q, buffer[0])
                     && Complete(SearchFor(c, code, limit, b, q, buffer[0]), b, t.tea))
  {
    hide Inv, Step, EntriesIntact, BuildRegion, Record, Expanded, Complete, NonZero, EndsTrace, StartsTrace, Buffered, StopsAt;
    RecordIs(c, s.rec, s.tea, a, pick);
  }

  lemma NetPlusKeeps(c: Config, code: Code, limit: nat, s: NetPlusState, t: NetPlusState, a: nat, pick: nat)
    requires NetPlusOk(c, code, s) && a != NTE_ADDR && a in code.insns
    requires NetPlusMoves(c, code, limit, s, t, a, pick)
    ensures NetPlusOk(c, code, t)
    ensures EntriesKept(s.tea, t.tea) && Grows(Step(s.tea, a, pick), t.tea)
  {
    hide Inv, Complete, EntriesIntact, Expanded, Grows;
    var k, u, rec := TakenBy(s.tea, a, pick), Step(s.tea, a, pick), Record(c, s.rec, TakenBy(s.tea, a, pick), a);
    TakenMeans(s.tea, a, pick);
    StepKeepsIntact(s.tea, a, pick);
    GrowsItself(u);
    RecordKeeps(c, s.rec, u.entries, k, a);
    if StopsAt(c, s.rec, k, a) {
      BuildRegionWithin(u, rec.buffer);
      BuildKeepsIntact(u, rec.buffer);
      NewEntryKeeps(c, rec, u.entries, rec.buffer[0], |u.nodes|);
      ExpandedKeepsIntact(c, code, limit, u, rec.buffer, t.tea);
    }
  }

  lemma ExpandedKeepsIntact(c: Config, code: Code, limit: nat, u: State, buffer: seq<nat>, t: State)
    requires BuiltAndExpanded(c, code, limit, u, buffer, t) && EntriesIntact(BuildRegion(u, buffer))
    requires Grows(u, BuildRegion(u, buffer))
    ensures Inv(t) && EntriesIntact(t) && t.entries == BuildRegion(u, buffer).entries && Grows(u, t)
  {
    hide Complete, BuildRegion, EntriesIntact;
    var b := BuildRegion(u, buffer);
    GrowthKeepsIntact(b, t);
    GrowsTransitive(u, b, t);
  }

  // ---------- Every run ----------

  datatype Moment = Moment(state: NetPlusState, code: Code)

  ghost predicate StepAt(c: Config, limit: nat, run: seq<Moment>, trace: seq<Item>, i: nat) {
    i < |trace| < |run| &&
    var m, n, a := run[i], run[i + 1], trace[i].addr;
    && Inv(m.state.tea) && a != NTE_ADDR && a in n.code.insns && NTE_ADDR !in n.code.insns
    && m.code.insns.Keys <= n.code.insns.Keys
    && NetPlusMoves(c, n.code, limit, m.state, n.state, a, trace[i].pick)
  }

  /** The moments of a run over a trace; the code that is known only grows. */
  ghost predicate IsRun(c: Config, limit: nat, loopInit: nat, run: seq<Moment>, trace: seq<Item>) {
    && |run| == |trace| + 1 && run[0].state == NetPlusState(Initial(loopInit), NO_RECORDING)
    && NTE_ADDR !in run[0].code.insns
    && forall i: nat :: i < |trace| ==> StepAt(c, limit, run, trace, i)
  }

  /** At every moment of every run the invariant holds; the cache in front of the
      entries is exact, every entry is hot and there are no more regions than counters. */
  lemma {:induction false} NetPlusTheorem(c: Config, limit: nat, loopInit: nat, run: seq<Moment>, trace: seq<Item>, i: nat)
    requires IsRun(c, limit, loopInit, run, trace) && i <= |trace|
    ensures var s := run[i].state;
            && NetPlusOk(c, run[i].code, s) && EntriesHot(c, s.rec.counters, s.tea.entries)
            && (forall a :: a in s.tea.cache ==> a in s.tea.entries && s.tea.edges[s.tea.cache[a]].tgt == s.tea.entries[a])
            && |s.tea.regions| - 1 == |s.tea.entries| <= |s.rec.counters|
  {
    hide NetPlusMoves;
    var s := run[i].state;
    if i == 0 {
      InitialInv(loopInit);
    } else {
      NetPlusTheorem(c, limit, loopInit, run, trace, i - 1);
      assert StepAt(c, limit, run, trace, i - 1);
      CodeGrows(c, run[i - 1].code, run[i].code, run[i - 1].state);
      NetPlusKeeps(c, run[i].code, limit, run[i - 1].state, s, trace[i - 1].addr, trace[i - 1].pick);
    }
    CachesAgree(s.tea);
    RegionsBoundedByCounters(c, s.rec, s.tea.entries);
  }

  /** The edges the first `i` items of a run follow. */
  ghost function NetPlusHops(c: Config, limit: nat, loopInit: nat, run: seq<Moment>, trace: seq<Item>, i: nat): seq<Hop>
    requires IsRun(c, limit, loopInit, run, trace) && i <= |trace|
  {
    if i == 0 then []
    else
      assert StepAt(c, limit, run, trace, i - 1);
      NetPlusHops(c, limit, loopInit, run, trace, i - 1)
      + [StepHop(run[i - 1].state.tea, trace[i - 1].addr, trace[i - 1].pick)]
  }

  /** They are what all counters count then. */
  lemma {:induction false} NetPlusCounted(c: Config, limit: nat, loopInit: nat, run: seq<Moment>, trace: seq<Item>, i: nat)
    requires IsRun(c, limit, loopInit, run, trace) && i <= |trace|
    ensures Consistent(run[i].state.tea, NetPlusHops(c, limit, loopInit, run, trace, i), loopInit)
  {
    hide Inv, NetPlusMoves, Consistent, Step, Grows, RecorderOk, EntriesIntact;
    if i == 0 {
      InitialConsistent(loopInit);
    } else {
      var h, s, item := NetPlusHops(c, limit, loopInit, run, trace, i - 1), run[i - 1].state, trace[i - 1];
      NetPlusCounted(c, limit, loopInit, run, trace, i - 1);
      NetPlusTheorem(c, limit, loopInit, run, trace, i - 1);
      assert StepAt(c, limit, run, trace, i - 1);
      hide NetPlusOk;
      CodeGrows(c, run[i - 1].code, run[i].code, s);
      NetPlusKeeps(c, run[i].code, limit, s, run[i].state, item.addr, item.pick);
      ItemConsistent(s.tea, run[i].state.tea, item.addr, item.pick, h, loopInit);
    }
  }

  class NETPlus {
    const rain: RAIn
    const recorder: TraceRecorder
    const instructions: InstructionSet
    const depthLimit: nat

    ghost predicate SearchOk(fr: Frontier, s0: State, r: nat, e0: nat, roots: set<nat>)
      reads rain, instructions, fr
    {
      && rain.Valid() && instructions.Valid()
      && Searching(instructions.Model(), roots, depthLimit, s0, rain.State(), r, e0, fr.Found(), fr.loopEntries)
      && Sided(Target(s0, r, e0, roots), |s0.edges|, rain.State(), fr.next)
    }

    constructor (config: Config, instructions: InstructionSet, limit: nat, loopCounter: nat)
      requires instructions.Valid() && NTE_ADDR !in instructions.insns
      ensures this.instructions == instructions && depthLimit == limit && recorder.config == config
      ensures Valid() && Model() == NetPlusState(Initial(loopCounter), NO_RECORDING)
      ensures fresh(rain) && fresh(recorder) && fresh(recorder.profiler)
    {
      rain := new RAIn(loopCounter);
      recorder := new TraceRecorder(config);
      this.instructions, depthLimit := instructions, limit;
    }

    ghost function Model(): NetPlusState
      reads rain, recorder, recorder.profiler
    {
      NetPlusState(rain.State(), recorder.Model())
    }

    ghost predicate Valid()
      reads rain, recorder, recorder.profiler, instructions
    {
      rain.Valid() && instructions.Valid() && NetPlusOk(recorder.config, instructions.Model(), Model())
    }

    /** Branches the search could still find. */
    ghost function Unfound(fr: Frontier): set<nat>
      reads instructions, fr
    {
      instructions.insns.Keys - fr.distance.Keys
    }

    /** From `target` of `cur` the code leads to `last`, where the loop may be closed. */
    ghost predicate LoopAhead(fr: Frontier, s0: State, r: nat, e0: nat, roots: set<nat>, cur: nat, target: nat, last: nat)
      reads rain, instructions, fr
    {
      && SearchOk(fr, s0, r, e0, roots)
      && cur in fr.distance && 0 < fr.distance[cur] < depthLimit
      && target in fr.parent && fr.parent[target] == cur && target in instructions.insns
      && last in instructions.insns && last in fr.loopEntries
      && (recorder.config.mixUsrSys || IsUserInstr(recorder.config, target) == IsUserInstr(recorder.config, e0))
      && Leg(instructions.Model(), s0.entries.Keys, cur, Pos(instructions.Model(), target), Pos(instructions.Model(), last))
    }

    /** What adding the path will make of the region. */
    lemma LoopCloses(fr: Frontier, s0: State, r: nat, e0: nat, roots: set<nat>, cur: nat, target: nat, last: nat)
      requires LoopAhead(fr, s0, r, e0, roots, cur, target, last)
      ensures RouteReady(fr, s0.entries.Keys, roots, r, cur, target, last)
      ensures instructions.Valid() && FoundOk(instructions.Model(), s0.entries.Keys, roots, fr.Found())
      ensures cur in fr.distance && target in instructions.insns && last in instructions.insns
      ensures var p, s := LoopAddrs(fr, s0.entries.Keys, roots, cur, target, last), rain.State();
              && Pathable(s, r, p) && Grows(s, PathTo(s, r, p, |p|).0) && Chain(PathTo(s, r, p, |p|).0, r, p)
              && Searching(instructions.Model(), roots, depthLimit, s0, PathTo(s, r, p, |p|).0, r, e0,
                           fr.Found(), fr.loopEntries + {cur})
              && Sided(Target(s0, r, e0, roots), |s0.edges|, PathTo(s, r, p, |p|).0, fr.next)
    {
      hide Expanded, TreeEdges, Consistent, Sided;
      var c := instructions.Model();
      LoopIsSided(Target(s0, r, e0, roots), s0, rain.State(), fr.Found(), fr.loopEntries, cur, Pos(c, target), Pos(c, last));
      LoopIsAdded(c, roots, depthLimit, s0, rain.State(), r, e0, fr.Found(), fr.loopEntries, cur, Pos(c, target), Pos(c, last));
    }

    lemma StillSearching(fr: Frontier, s0: State, r: nat, e0: nat, roots: set<nat>)
      requires rain.Valid() && instructions.Valid()
      requires Searching(instructions.Model(), roots, depthLimit, s0, rain.State(), r, e0, fr.Found(), fr.loopEntries)
      requires Sided(Target(s0, r, e0, roots), |s0.edges|, rain.State(), fr.next)
      ensures SearchOk(fr, s0, r, e0, roots)
    {
    }

    /** A path that leads back to the region is added to it. */
    method CloseLoop(fr: Frontier, ghost s0: State, r: nat, ghost e0: nat, ghost roots: set<nat>, cur: nat, target: nat, last: nat)
      requires LoopAhead(fr, s0, r, e0, roots, cur, target, last)
      modifies rain, recorder`recordingBuffer, fr`loopEntries
      ensures SearchOk(fr, s0, r, e0, roots) && rain.history == old(rain.history)
      ensures fr.loopEntries == old(fr.loopEntries) + {cur} && cur in old(fr.distance) && target in instructions.insns
      ensures last in instructions.insns
      ensures Grows(old(rain.State()), rain.State())
      ensures LoopOver(Target(s0, r, e0, roots), rain.State(), cur, old(fr.distance[cur]), target, Pos(instructions.Model(), last))
    {
      hide LoopAhead, SearchOk, Searching, Sided, Inv, Consistent, Grows, Chain, Pathable, RouteReady, FoundOk, LoopOver;
      ghost var c, s, f := instructions.Model(), rain.State(), fr.Found();
      LoopCloses(fr, s0, r, e0, roots, cur, target, last);
      ghost var p := LoopAddrs(fr, s0.entries.Keys, roots, cur, target, last);
      ChainIsLoop(fr, s0, r, e0, roots, cur, target, last, PathTo(s, r, p, |p|).0);
      AddRoute(fr, s0.entries.Keys, roots, r, cur, target, last);
      fr.loopEntries := fr.loopEntries + {cur};
      StillSearching(fr, s0, r, e0, roots);
    }

    lemma ChainIsLoop(fr: Frontier, s0: State, r: nat, e0: nat, roots: set<nat>, cur: nat, target: nat, last: nat, t: State)
      requires LoopAhead(fr, s0, r, e0, roots, cur, target, last)
      requires RouteReady(fr, s0.entries.Keys, roots, r, cur, target, last)
      requires Chain(t, r, LoopAddrs(fr, s0.entries.Keys, roots, cur, target, last))
      ensures instructions.Valid() && cur in fr.distance && target in instructions.insns && last in instructions.insns
      ensures LoopOver(Target(s0, r, e0, roots), t, cur, fr.distance[cur], target, Pos(instructions.Model(), last))
    {
      var c, w := instructions.Model(), Target(s0, r, e0, roots);
      var before := RouteTo(c, w.entries, roots, fr.Found(), cur);
      hide Searching, RAIn.Valid, Chain, Leg;
      assert LoopAdded(w, t, cur, fr.distance[cur], Pos(c, target), Pos(c, last), before);
    }

    ghost predicate RouteReady(fr: Frontier, entries: set<nat>, roots: set<nat>, r: nat, cur: nat, target: nat, last: nat)
      reads rain, instructions, fr
    {
      && rain.Valid() && instructions.Valid() && NTE_ADDR !in instructions.insns
      && FoundOk(instructions.Model(), entries, roots, fr.Found())
      && cur in fr.distance && target in fr.parent && fr.parent[target] == cur
      && target in instructions.insns && last in instructions.insns
      && Pos(instructions.Model(), target) <= Pos(instructions.Model(), last)
      && Pathable(rain.State(), r, LoopAddrs(fr, entries, roots, cur, target, last))
    }

    /** Writes the path down and adds it to the region. */
    method AddRoute(fr: Frontier, ghost entries: set<nat>, ghost roots: set<nat>, r: nat, ghost cur: nat, target: nat, last: nat)
      requires RouteReady(fr, entries, roots, r, cur, target, last)
      modifies rain, recorder`recordingBuffer
      ensures rain.Valid() && rain.history == old(rain.history)
      ensures var p := LoopAddrs(fr, entries, roots, cur, target, last);
              rain.State() == PathTo(old(rain.State()), r, p, |p|).0
    {
      var newpath := RebuildPath(instructions, fr, entries, roots, cur, target, last);
      ReversedTwice(LoopAddrs(fr, entries, roots, cur, target, last));
      AddNewPath(rain, recorder, r, newpath);
    }

    ghost function LoopAddrs(fr: Frontier, entries: set<nat>, roots: set<nat>, cur: nat, target: nat, last: nat): seq<nat>
      requires instructions.Valid() && FoundOk(instructions.Model(), entries, roots, fr.Found())
      requires cur in fr.distance && target in instructions.insns && last in instructions.insns
      reads instructions, fr
    {
      var c := instructions.Model();
      Addrs(c, LoopRoute(c, entries, roots, fr.Found(), cur, Pos(c, target), Pos(c, last)))
    }

    ghost function Target(s0: State, r: nat, e0: nat, roots: set<nat>): Search
      reads instructions
    {
      Search(recorder.config, instructions.Model(), s0.entries.Keys, roots, depthLimit, r, e0)
    }

    /** What the search has done so far, at its current distance from the region. */
    ghost predicate ExploredNow(fr: Frontier, s0: State, r: nat, e0: nat, roots: set<nat>, level: nat, busy: set<nat>)
      reads rain, instructions, fr
    {
      Explored(Target(s0, r, e0, roots), rain.State(), fr.Found(), fr.loopEntries, fr.queue, level, busy)
    }

    ghost predicate KnowsTarget(fr: Frontier, s0: State, r: nat, e0: nat, roots: set<nat>, x: nat, t: nat)
      reads instructions, fr
    {
      Handled(Target(s0, r, e0, roots), fr.Found(), x, t)
    }

    /** The search goes by the side of the threshold the region is on. */
    predicate SideOk(userSpace: bool, e0: nat) {
      recorder.config.mixUsrSys || userSpace == IsUserInstr(recorder.config, e0)
    }

    /** The search is busy with branch `cur`, at distance `level`. */
    ghost predicate Scanning(fr: Frontier, s0: State, r: nat, e0: nat, roots: set<nat>, cur: nat, level: nat)
      reads rain, instructions, fr
    {
      && SearchOk(fr, s0, r, e0, roots) && fr.EnqueuedOnce()
      && cur in fr.distance && fr.distance[cur] == level
      && ExploredNow(fr, s0, r, e0, roots, level, {cur})
    }

    /** The search is between two branches. */
    ghost predicate Open(fr: Frontier, s0: State, r: nat, e0: nat, roots: set<nat>, level: nat)
      reads rain, instructions, fr
    {
      SearchOk(fr, s0, r, e0, roots) && fr.EnqueuedOnce() && ExploredNow(fr, s0, r, e0, roots, level, {})
    }

    /** Either nothing new was found, or less is left to find. */
    ghost predicate Progress(distance: map<nat, nat>, queue: seq<nat>, fr: Frontier)
      reads fr`distance, fr`queue, instructions`insns
    {
      if fr.distance == distance then fr.queue == queue
      else instructions.insns.Keys - fr.distance.Keys < instructions.insns.Keys - distance.Keys
    }

    lemma ProgressMade(fr: Frontier, distance: map<nat, nat>, queue: seq<nat>, a: nat)
      requires a in instructions.insns && a !in distance && a in fr.distance && fr.distance == distance[a := fr.distance[a]]
      ensures Progress(distance, queue, fr)
    {
      assert a in instructions.insns.Keys - distance.Keys;
    }

    /** One target of the branch taken from the queue. */
    method ScanTarget(fr: Frontier, ghost s0: State, r: nat, ghost e0: nat, ghost roots: set<nat>,
                      userSpace: bool, cur: nat, target: nat, ghost level: nat)
      requires Scanning(fr, s0, r, e0, roots, cur, level) && level < depthLimit && SideOk(userSpace, e0)
      requires BranchesTo(instructions.Model(), cur, target)
      modifies rain, recorder`recordingBuffer, fr
      ensures Scanning(fr, s0, r, e0, roots, cur, level) && rain.history == old(rain.history)
      ensures KnowsTarget(fr, s0, r, e0, roots, cur, target)
      ensures forall t: nat :: old(KnowsTarget(fr, s0, r, e0, roots, cur, t)) ==> KnowsTarget(fr, s0, r, e0, roots, cur, t)
      ensures Progress(old(fr.distance), old(fr.queue), fr)
    {
      hide Searching, Sided;
      ghost var w, s, f, stops, queue := Target(s0, r, e0, roots), rain.State(), fr.Found(), fr.loopEntries, fr.queue;
      if target in fr.parent {
        KnownTarget(w, s, f, stops, queue, level, cur, target);
        return;
      }
      TargetKeeps(instructions.Model(), roots, depthLimit, s0, s, r, e0, f, stops, target, cur);
      fr.parent := fr.parent[target := cur];
      WalkFrom(fr, s0, r, e0, roots, userSpace, cur, target, f);
      ScanExplored(w, s, rain.State(), f, fr.Found(), stops, fr.loopEntries, queue, fr.queue, level, {cur}, cur, target);
    }

    /** Target `target` of branch `cur` has just been given its parent; `f` is what
        had been found before. */
    ghost predicate Entering(fr: Frontier, s0: State, r: nat, e0: nat, roots: set<nat>, cur: nat, target: nat, f: Found)
      reads rain, instructions, fr
    {
      && SearchOk(fr, s0, r, e0, roots) && fr.EnqueuedOnce()
      && EntryOk(Target(s0, r, e0, roots)) && StopsKnown(Target(s0, r, e0, roots), f, fr.loopEntries)
      && cur in fr.distance && fr.distance[cur] < depthLimit && BranchesTo(instructions.Model(), cur, target)
      && target !in f.parent && fr.Found() == f.(parent := f.parent[target := cur])
      && Ordered(f, fr.queue, fr.distance[cur])
    }

    /** Walks from a branch target to the next branch, region entry or loop entry. */
    method WalkFrom(fr: Frontier, ghost s0: State, r: nat, ghost e0: nat, ghost roots: set<nat>,
                    userSpace: bool, cur: nat, target: nat, ghost f: Found)
      requires Entering(fr, s0, r, e0, roots, cur, target, f) && SideOk(userSpace, e0)
      modifies rain, recorder`recordingBuffer, fr
      ensures SearchOk(fr, s0, r, e0, roots) && fr.EnqueuedOnce() && rain.history == old(rain.history)
      ensures Grows(old(rain.State()), rain.State()) && cur in f.distance
      ensures Scans(Target(s0, r, e0, roots), rain.State(), f, fr.Found(), old(fr.loopEntries), fr.loopEntries, old(fr.queue), fr.queue,
                    f.distance[cur], cur, target)
      ensures ScannedAt(Target(s0, r, e0, roots), rain.State(), fr.Found(), fr.loopEntries, f.distance[cur], target)
      ensures Progress(old(fr.distance), old(fr.queue), fr)
    {
      hide Searching, Sided;
      // instructions up to the next branch
      var it := instructions.Find(target);
      if it == |instructions.addrs| || (userSpace != IsUserInstr(recorder.config, target) && !recorder.config.mixUsrSys) {
        NoWalkSteps(Target(s0, r, e0, roots), rain.State(), f, fr.loopEntries, fr.queue, fr.distance[cur], cur, target);
        return;
      }
      WalkOn(fr, s0, r, e0, roots, cur, target, it, f);
    }

    method WalkOn(fr: Frontier, ghost s0: State, r: nat, ghost e0: nat, ghost roots: set<nat>,
                  cur: nat, target: nat, first: nat, ghost f: Found)
      requires Entering(fr, s0, r, e0, roots, cur, target, f)
      requires first < |instructions.addrs| && instructions.addrs[first] == target
      requires recorder.config.mixUsrSys || IsUserInstr(recorder.config, target) == IsUserInstr(recorder.config, e0)
      modifies rain, recorder`recordingBuffer, fr
      ensures SearchOk(fr, s0, r, e0, roots) && fr.EnqueuedOnce() && rain.history == old(rain.history)
      ensures Grows(old(rain.State()), rain.State()) && cur in f.distance
      ensures Scans(Target(s0, r, e0, roots), rain.State(), f, fr.Found(), old(fr.loopEntries), fr.loopEntries, old(fr.queue), fr.queue,
                    f.distance[cur], cur, target)
      ensures ScannedAt(Target(s0, r, e0, roots), rain.State(), fr.Found(), fr.loopEntries, f.distance[cur], target)
      ensures Progress(old(fr.distance), old(fr.queue), fr)
    {
      hide Consistent;
      ghost var w, d, stops, queue := Target(s0, r, e0, roots), fr.distance[cur], fr.loopEntries, fr.queue;
      PosUnique(w.code, first);
      assert rain.regionEntryNodes == s0.entries && Ordered(f, queue, d);
      hide SearchOk, Ordered, Walked, WalkDone, Scans, ScannedAt, Inv, Consistent;
      var it := RunOn(fr, first, fr.distance[cur], w, f);
      ActOn(fr, s0, r, e0, roots, cur, target, it, f);
      WalkSteps(w, rain.State(), f, fr.Found(), stops, fr.loopEntries, queue, fr.queue, d, cur, target, first, it);
    }

    /** The walk from `target` stopped at position `it`. */
    ghost predicate Stopped(fr: Frontier, s0: State, r: nat, e0: nat, roots: set<nat>, cur: nat, target: nat, f: Found, it: nat)
      reads rain, instructions, fr
    {
      && Entering(fr, s0, r, e0, roots, cur, target, f) && target in instructions.insns
      && (recorder.config.mixUsrSys || IsUserInstr(recorder.config, target) == IsUserInstr(recorder.config, e0))
      && Walked(Target(s0, r, e0, roots), f, fr.loopEntries, fr.distance[cur], Pos(instructions.Model(), target), it)
    }

    /** Closes the loop, or remembers the branch, that the walk stopped at. */
    method ActOn(fr: Frontier, ghost s0: State, r: nat, ghost e0: nat, ghost roots: set<nat>, cur: nat, target: nat,
                 it: nat, ghost f: Found)
      requires Stopped(fr, s0, r, e0, roots, cur, target, f, it) && it <= |instructions.addrs| && cur in fr.distance
      modifies rain, recorder`recordingBuffer, fr
      ensures SearchOk(fr, s0, r, e0, roots) && fr.EnqueuedOnce() && rain.history == old(rain.history)
      ensures Grows(old(rain.State()), rain.State()) && cur in f.distance
      ensures WalkDone(Target(s0, r, e0, roots), rain.State(), f, fr.Found(), old(fr.loopEntries), fr.loopEntries,
                       old(fr.queue), fr.queue, f.distance[cur], cur, target, it)
      ensures Progress(old(fr.distance), old(fr.queue), fr)
    {
      hide Stopped, SearchOk, WalkDone, Grows;
      if it < |instructions.addrs| {
        var a := instructions.addrs[it];
        if a in fr.loopEntries && fr.distance[cur] > 0 {
          ActClose(fr, s0, r, e0, roots, cur, target, it, f);
          return;
        } else if a !in rain.regionEntryNodes {
          ActPush(fr, s0, r, e0, roots, cur, target, it, f);
          return;
        }
      }
      StoppedNowhere(fr, s0, r, e0, roots, cur, target, it, f);
    }

    lemma StoppedNowhere(fr: Frontier, s0: State, r: nat, e0: nat, roots: set<nat>, cur: nat, target: nat, it: nat, f: Found)
      requires Stopped(fr, s0, r, e0, roots, cur, target, f, it)
      requires it < |instructions.addrs| ==>
                 && instructions.addrs[it] in rain.regionEntryNodes
                 && !(instructions.addrs[it] in fr.loopEntries && cur in fr.distance && fr.distance[cur] > 0)
      ensures SearchOk(fr, s0, r, e0, roots) && fr.EnqueuedOnce() && Grows(rain.State(), rain.State()) && cur in f.distance
      ensures WalkDone(Target(s0, r, e0, roots), rain.State(), f, fr.Found(), fr.loopEntries, fr.loopEntries,
                       fr.queue, fr.queue, f.distance[cur], cur, target, it)
    {
      hide Consistent;
      FoundNoBranch(Target(s0, r, e0, roots), rain.State(), f, fr.Found(), fr.loopEntries, fr.loopEntries, fr.queue,
                    fr.distance[cur], cur, target, it);
    }

    lemma StoppedAtLoop(fr: Frontier, s0: State, r: nat, e0: nat, roots: set<nat>, cur: nat, target: nat, it: nat, f: Found)
      requires Stopped(fr, s0, r, e0, roots, cur, target, f, it) && it < |instructions.addrs|
      requires instructions.addrs[it] in fr.loopEntries && cur in fr.distance && 0 < fr.distance[cur]
      ensures LoopAhead(fr, s0, r, e0, roots, cur, target, instructions.addrs[it])
      ensures Grows(rain.State(), rain.State()) && fr.EnqueuedOnce()
      ensures cur in f.distance && fr.distance == f.distance && Ordered(f, fr.queue, f.distance[cur])
      ensures fr.Found() == f.(parent := f.parent[target := cur])
      ensures instructions.Valid() && instructions.addrs[it] in instructions.insns
              && Pos(instructions.Model(), instructions.addrs[it]) == it
    {
      PosUnique(instructions.Model(), it);
      WalkedLeg(Target(s0, r, e0, roots), f, fr.loopEntries, fr.distance[cur], cur, target, it);
    }

    method ActClose(fr: Frontier, ghost s0: State, r: nat, ghost e0: nat, ghost roots: set<nat>, cur: nat, target: nat,
                    it: nat, ghost f: Found)
      requires Stopped(fr, s0, r, e0, roots, cur, target, f, it) && it < |instructions.addrs|
      requires instructions.addrs[it] in fr.loopEntries && cur in fr.distance && fr.distance[cur] > 0
      modifies rain, recorder`recordingBuffer, fr`loopEntries
      ensures SearchOk(fr, s0, r, e0, roots) && fr.EnqueuedOnce() && rain.history == old(rain.history)
      ensures Grows(old(rain.State()), rain.State()) && cur in f.distance
      ensures WalkDone(Target(s0, r, e0, roots), rain.State(), f, fr.Found(), old(fr.loopEntries), fr.loopEntries,
                       fr.queue, fr.queue, f.distance[cur], cur, target, it)
    {
      hide Stopped, LoopAhead, SearchOk, WalkDone, Ordered, Grows, LoopOver;
      ghost var w, stops := Target(s0, r, e0, roots), fr.loopEntries;
      StoppedAtLoop(fr, s0, r, e0, roots, cur, target, it, f);
      CloseLoop(fr, s0, r, e0, roots, cur, target, instructions.addrs[it]);
      FoundNoBranch(w, rain.State(), f, fr.Found(), stops, fr.loopEntries, fr.queue, f.distance[cur], cur, target, it);
    }

    /** A walk that stopped at a new branch has a leg to it. */
    lemma StoppedAtBranch(fr: Frontier, s0: State, r: nat, e0: nat, roots: set<nat>, cur: nat, target: nat, it: nat, f: Found)
      requires Stopped(fr, s0, r, e0, roots, cur, target, f, it) && it < |instructions.addrs|
      requires !(instructions.addrs[it] in fr.loopEntries && fr.distance[cur] > 0) && instructions.addrs[it] !in rain.regionEntryNodes
      ensures BranchAhead(fr, s0, r, e0, roots, cur, target, instructions.addrs[it])
      ensures Grows(rain.State(), rain.State()) && fr.EnqueuedOnce()
      ensures cur in f.distance && fr.distance == f.distance && Ordered(f, fr.queue, f.distance[cur])
      ensures instructions.addrs[it] !in f.next && instructions.addrs[it] !in f.distance
      ensures fr.Found() == f.(parent := f.parent[target := cur])
    {
      PosUnique(instructions.Model(), it);
      WalkedLeg(Target(s0, r, e0, roots), f, fr.loopEntries, fr.distance[cur], cur, target, it);
    }

    /** Branch `a` lies behind `target` of `cur` and has not been found yet. */
    ghost predicate BranchAhead(fr: Frontier, s0: State, r: nat, e0: nat, roots: set<nat>, cur: nat, target: nat, a: nat)
      reads rain, instructions, fr
    {
      && SearchOk(fr, s0, r, e0, roots) && fr.EnqueuedOnce()
      && cur in fr.distance && fr.distance[cur] < depthLimit
      && target in fr.parent && fr.parent[target] == cur && target in instructions.insns
      && a in instructions.insns && instructions.insns[a].isFlow && a !in fr.distance && a !in s0.entries
      && (recorder.config.mixUsrSys || IsUserInstr(recorder.config, target) == IsUserInstr(recorder.config, e0))
      && Leg(instructions.Model(), s0.entries.Keys, cur, Pos(instructions.Model(), target), Pos(instructions.Model(), a))
    }

    method ActPush(fr: Frontier, ghost s0: State, r: nat, ghost e0: nat, ghost roots: set<nat>, cur: nat, target: nat,
                   it: nat, ghost f: Found)
      requires Stopped(fr, s0, r, e0, roots, cur, target, f, it) && it < |instructions.addrs|
      requires cur in fr.distance && !(instructions.addrs[it] in fr.loopEntries && fr.distance[cur] > 0)
      requires instructions.addrs[it] !in rain.regionEntryNodes
      modifies fr
      ensures Grows(rain.State(), rain.State())
      ensures SearchOk(fr, s0, r, e0, roots) && fr.EnqueuedOnce() && cur in f.distance
      ensures WalkDone(Target(s0, r, e0, roots), rain.State(), f, fr.Found(), old(fr.loopEntries), fr.loopEntries,
                       old(fr.queue), fr.queue, f.distance[cur], cur, target, it)
      ensures Progress(old(fr.distance), old(fr.queue), fr)
    {
      hide Stopped, BranchAhead, SearchOk, Frontier.EnqueuedOnce, Grows, WalkDone, Ordered, Progress;
      ghost var w, stops, queue := Target(s0, r, e0, roots), fr.loopEntries, fr.queue;
      StoppedAtBranch(fr, s0, r, e0, roots, cur, target, it, f);
      PushBranch(fr, s0, r, e0, roots, cur, target, instructions.addrs[it]);
      ProgressMade(fr, f.distance, queue, instructions.addrs[it]);
      FoundBranch(w, rain.State(), f, fr.Found(), stops, queue, f.distance[cur], cur, target, it);
    }

    /** The first instruction from position `first` on at which the walk stops. */
    method RunOn(fr: Frontier, first: nat, distance: nat, ghost w: Search, ghost f: Found) returns (it: nat)
      requires instructions.Valid() && first <= |instructions.addrs| && f.distance == fr.distance
      requires w.code == instructions.Model() && w.entries == rain.regionEntryNodes.Keys
      ensures Walked(w, f, fr.loopEntries, distance, first, it)
    {
      it := first;
      while it < |instructions.addrs|
        invariant first <= it <= |instructions.addrs|
        invariant forall k: nat :: first <= k < it ==> !StopsAtPos(w, f, fr.loopEntries, distance, k)
      {
        var a := instructions.addrs[it];
        assert w.code.addrs[it] == a && a in instructions.addrs;
        if a in fr.loopEntries && distance > 0 { break; }
        if a in rain.regionEntryNodes { break; }
        if instructions.insns[a].isFlow && a !in fr.distance { break; }
        it := it + 1;
      }
    }

    /** A branch found for the first time, behind `target` of `cur`. */
    method PushBranch(fr: Frontier, ghost s0: State, r: nat, ghost e0: nat, ghost roots: set<nat>, cur: nat, target: nat, a: nat)
      requires BranchAhead(fr, s0, r, e0, roots, cur, target, a) && cur in fr.distance && a in instructions.insns && a !in fr.distance
      modifies fr
      ensures SearchOk(fr, s0, r, e0, roots) && fr.EnqueuedOnce()
      ensures fr.distance == old(fr.distance)[a := old(fr.distance[cur]) + 1] && fr.queue == old(fr.queue) + [a]
      ensures fr.Found() == Pushed(old(fr.Found()), a, old(fr.distance[cur]) + 1, target) && fr.loopEntries == old(fr.loopEntries)
    {
      hide Consistent;
      BranchKeeps(instructions.Model(), roots, depthLimit, s0, rain.State(), r, e0, fr.Found(), fr.loopEntries, cur, target, a);
      hide Searching, Sided;
      fr.PushBehind(a, fr.distance[cur] + 1, target);
    }

    /** The queue is being filled. */
    ghost predicate Initing(fr: Frontier, s: State, r: nat, e0: nat, roots: set<nat>, rest: set<nat>)
      reads rain, instructions, fr
    {
      && SearchOk(fr, s, r, e0, roots) && fr.EnqueuedOnce() && fr.queue == fr.enqueued
      && RootsQueued(Target(s, r, e0, roots), s, fr.Found(), fr.loopEntries, fr.queue, rest)
    }

    /** The address of an entry node may close loops. */
    method InitEntry(fr: Frontier, r: nat, ghost e0: nat, ghost roots: set<nat>, ghost rest: set<nat>, n: nat)
      requires Initing(fr, rain.State(), r, e0, roots, rest) && n in rest && roots == Roots(instructions.Model(), rain.State(), r, e0)
      requires RegionReady(recorder.config, instructions.Model(), rain.State(), r, e0) && n in rain.regions[r].entryNodes
      modifies fr`loopEntries
      ensures Initing(fr, rain.State(), r, e0, roots, rest - {n})
    {
      hide Consistent, Sided, Inv;
      PassNode(Target(rain.State(), r, e0, roots), rain.State(), fr.Found(), fr.loopEntries, fr.loopEntries + {e0}, fr.queue, rest, n);
      hide RootsQueued;
      fr.loopEntries := fr.loopEntries + {rain.nodes[n].addr};
    }

    /** A branch elsewhere is queued. */
    method InitBranch(fr: Frontier, r: nat, ghost e0: nat, ghost roots: set<nat>, ghost rest: set<nat>, n: nat)
      requires Initing(fr, rain.State(), r, e0, roots, rest) && n in rest && roots == Roots(instructions.Model(), rain.State(), r, e0)
      requires RegionReady(recorder.config, instructions.Model(), rain.State(), r, e0) && n !in rain.regions[r].entryNodes
      modifies fr
      ensures Initing(fr, rain.State(), r, e0, roots, rest - {n})
    {
      hide Consistent, Leg, FollowsAt, Reaches, HasAddr;
      ghost var c, s, w := instructions.Model(), rain.State(), Target(rain.State(), r, e0, roots);
      var a := rain.nodes[n].addr;
      assert RegionOk(s.nodes, r, s.regions[r]);
      if instructions.insns[a].isFlow {
        RootKeeps(c, roots, depthLimit, s, s, r, e0, fr.Found(), fr.loopEntries, a);
        QueueRoot(w, s, fr.Found(), fr.loopEntries, fr.queue, rest, n);
        hide RootsQueued, Searching;
        fr.PushRoot(a);
      } else {
        PassNode(w, s, fr.Found(), fr.loopEntries, fr.loopEntries, fr.queue, rest, n);
      }
    }

    /** Puts the branches of the region into the queue. */
    method InitFrontier(fr: Frontier, r: nat, ghost e0: nat) returns (userSpace: bool)
      requires rain.Valid() && instructions.Valid() && RegionReady(recorder.config, instructions.Model(), rain.State(), r, e0)
      requires NTE_ADDR !in instructions.insns
      requires fr.EnqueuedOnce() && fr.Found() == Found(map[], map[], map[]) && fr.queue == fr.enqueued == [] && fr.loopEntries == {}
      modifies fr
      ensures Open(fr, rain.State(), r, e0, Roots(instructions.Model(), rain.State(), r, e0), 0) && SideOk(userSpace, e0)
      ensures Distinct(fr.queue) && forall x :: x in fr.queue <==> x in Roots(instructions.Model(), rain.State(), r, e0)
    {
      hide Consistent;
      ghost var c, s := instructions.Model(), rain.State();
      ghost var roots := Roots(c, s, r, e0);
      SearchBegins(c, roots, depthLimit, s, r, e0);
      userSpace := false;
      var isFirst, rest := true, rain.regions[r].nodes;
      while rest != {}
        invariant rest <= s.regions[r].nodes && Initing(fr, s, r, e0, roots, rest)
        invariant if isFirst then rest == s.regions[r].nodes else SideOk(userSpace, e0)
        decreases rest
      {
        var n :| n in rest;
        if isFirst {
          isFirst, userSpace := false, IsUserInstr(recorder.config, rain.nodes[n].addr);
        }
        if n in rain.regions[r].entryNodes {
          InitEntry(fr, r, e0, roots, rest, n);
        } else {
          InitBranch(fr, r, e0, roots, rest, n);
        }
        rest := rest - {n};
      }
      AllQueued(Target(s, r, e0, roots), s, fr.Found(), fr.loopEntries, fr.queue);
    }

    /** The branch at the front of the queue. */
    method Next(fr: Frontier, ghost s0: State, r: nat, ghost e0: nat, ghost roots: set<nat>, ghost level: nat)
      returns (current: nat, ghost next: nat)
      requires Open(fr, s0, r, e0, roots, level) && fr.queue != []
      modifies fr`queue
      ensures Scanning(fr, s0, r, e0, roots, current, next)
      ensures current in instructions.insns && instructions.insns[current].isFlow
      ensures current in fr.distance && fr.distance[current] == next && fr.queue == old(fr.queue)[1..]
    {
      hide Consistent, Leg, Inv;
      ghost var w := Target(s0, r, e0, roots);
      PopExplored(w, rain.State(), fr.Found(), fr.loopEntries, fr.queue, level);
      assert FoundAt(w.code, w.entries, roots, fr.Found(), fr.queue[0]);
      current := fr.Pop();
      next := fr.distance[current];
    }

    lemma BranchDone(fr: Frontier, s0: State, r: nat, e0: nat, roots: set<nat>, x: nat, level: nat)
      requires Scanning(fr, s0, r, e0, roots, x, level)
      requires level < depthLimit ==>
                 forall t: nat :: BranchesTo(instructions.Model(), x, t) ==> KnowsTarget(fr, s0, r, e0, roots, x, t)
      ensures Open(fr, s0, r, e0, roots, level)
    {
      ghost var w := Target(s0, r, e0, roots);
      if level < depthLimit {
        forall t: nat | BranchesTo(w.code, x, t) ensures Handled(w, fr.Found(), x, t) {
          assert KnowsTarget(fr, s0, r, e0, roots, x, t);
        }
      }
      hide SearchOk;
      DoneExplored(w, rain.State(), fr.Found(), fr.loopEntries, fr.queue, level, x);
    }

    /** One step of the breadth-first search. */
    method SearchStep(fr: Frontier, ghost s0: State, r: nat, ghost e0: nat, ghost roots: set<nat>, userSpace: bool,
                      ghost level: nat) returns (ghost next: nat)
      requires Open(fr, s0, r, e0, roots, level) && fr.queue != [] && SideOk(userSpace, e0)
      modifies rain, recorder`recordingBuffer, fr
      ensures Open(fr, s0, r, e0, roots, next) && rain.history == old(rain.history)
      ensures Unfound(fr) < old(Unfound(fr)) || (Unfound(fr) == old(Unfound(fr)) && |fr.queue| < old(|fr.queue|))
    {
      hide SearchOk, ExploredNow, Open, Scanning, KnowsTarget, Progress;
      var current;
      current, next := Next(fr, s0, r, e0, roots, level);
      if fr.distance[current] < depthLimit {
        ScanTargets(fr, s0, r, e0, roots, userSpace, current, next);
      }
      BranchDone(fr, s0, r, e0, roots, current, next);
    }

    /** All targets of a branch. */
    method ScanTargets(fr: Frontier, ghost s0: State, r: nat, ghost e0: nat, ghost roots: set<nat>, userSpace: bool,
                       current: nat, ghost level: nat)
      requires Scanning(fr, s0, r, e0, roots, current, level) && level < depthLimit && SideOk(userSpace, e0)
      requires current in instructions.insns && instructions.insns[current].isFlow
      modifies rain, recorder`recordingBuffer, fr
      ensures Scanning(fr, s0, r, e0, roots, current, level) && rain.history == old(rain.history)
      ensures forall t: nat :: BranchesTo(instructions.Model(), current, t) ==> KnowsTarget(fr, s0, r, e0, roots, current, t)
      ensures Unfound(fr) < old(Unfound(fr)) || (Unfound(fr) == old(Unfound(fr)) && fr.queue == old(fr.queue))
    {
      hide Scanning, KnowsTarget;
      var targets := instructions.insns[current].nextAddrs;
      var j := 0;
      while j < |targets|
        invariant j <= |targets| && Scanning(fr, s0, r, e0, roots, current, level) && rain.history == old(rain.history)
        invariant forall i :: 0 <= i < j ==> KnowsTarget(fr, s0, r, e0, roots, current, targets[i])
        invariant Progress(old(fr.distance), old(fr.queue), fr)
      {
        ScanTarget(fr, s0, r, e0, roots, userSpace, current, targets[j], level);
        j := j + 1;
      }
    }

    method Expand(r: nat, ghost e0: nat)
      requires rain.Valid() && instructions.Valid() && NTE_ADDR !in instructions.insns
      requires RegionReady(recorder.config, instructions.Model(), rain.State(), r, e0)
      modifies rain, recorder`recordingBuffer
      ensures rain.Valid() && rain.history == old(rain.history)
      ensures var c, s := instructions.Model(), old(rain.State());
              && Expanded(c, Roots(c, s, r, e0), depthLimit, s, rain.State(), r, e0)
              && Complete(SearchFor(recorder.config, c, depthLimit, s, r, e0), s, rain.State())
    {
      hide *;
      ghost var s, level := rain.State(), 0;
      ghost var roots := Roots(instructions.Model(), s, r, e0);
      var fr := new Frontier();
      // the search starts at the branches of the region
      var userSpace := InitFrontier(fr, r, e0);
      while fr.queue != []
        invariant Open(fr, s, r, e0, roots, level) && rain.history == old(rain.history)
        decreases Unfound(fr), |fr.queue|
      {
        level := SearchStep(fr, s, r, e0, roots, userSpace, level);
      }
      SearchEnds(fr, s, r, e0, level);
    }

    /** With an empty queue the search is complete. */
    lemma SearchEnds(fr: Frontier, s0: State, r: nat, e0: nat, level: nat)
      requires Open(fr, s0, r, e0, Roots(instructions.Model(), s0, r, e0), level) && fr.queue == []
      ensures rain.Valid() && Expanded(instructions.Model(), Roots(instructions.Model(), s0, r, e0), depthLimit, s0, rain.State(), r, e0)
      ensures Complete(SearchFor(recorder.config, instructions.Model(), depthLimit, s0, r, e0), s0, rain.State())
    {
      var w := SearchFor(recorder.config, instructions.Model(), depthLimit, s0, r, e0);
      SearchIsComplete(w, s0, rain.State(), fr.Found(), fr.loopEntries, level);
    }

    method Process(curAddr: nat, insn: Insn) returns (ghost pick: nat)
      requires Valid() && curAddr != NTE_ADDR
      modifies rain, recorder, recorder.profiler, instructions
      ensures Valid()
      ensures instructions.insns == if curAddr in old(instructions.insns) then old(instructions.insns)
                else old(instructions.insns)[curAddr := insn]
      ensures NetPlusMoves(recorder.config, instructions.Model(), depthLimit, old(Model()), Model(), curAddr, pick)
      ensures rain.history == old(rain.history) + [StepHop(old(rain.State()), curAddr, pick)]
    {
      hide Inv, Consistent, Step, TakenBy, Complete, Expanded;
      ghost var s := Model();
      var edg, k;
      edg, k, pick := Transition(rain, curAddr);
      instructions.Learn(curAddr, insn);
      CodeGrows(recorder.config, old(instructions.Model()), instructions.Model(), s);
      StopIsReady(recorder.config, instructions.Model(), s, curAddr, pick);
      var stopRecording := recorder.Process(k, curAddr);
      if stopRecording {
        BuildAndExpand();
      }
      NetPlusKeeps(recorder.config, instructions.Model(), depthLimit, s, Model(), curAddr, pick);
    }

    method BuildAndExpand()
      requires rain.Valid() && instructions.Valid() && NTE_ADDR !in instructions.insns
      requires recorder.recordingBuffer != [] && NonZero(recorder.recordingBuffer)
      requires InCode(instructions.Model(), recorder.recordingBuffer) && OneMode(recorder.config, recorder.recordingBuffer)
      modifies rain, recorder`recordingBuffer
      ensures rain.Valid() && rain.history == old(rain.history)
      ensures BuiltAndExpanded(recorder.config, instructions.Model(), depthLimit, old(rain.State()), old(recorder.recordingBuffer), rain.State())
    {
      BuiltIsReady(recorder.config, instructions.Model(), rain.State(), recorder.recordingBuffer);
      var r := BuildRegionIn(rain, recorder.recordingBuffer);
      Expand(r.value, recorder.recordingBuffer[0]);
    }
  }
}
