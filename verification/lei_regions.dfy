/** The regions Last-Executed Iteration forms, in terms of their addresses and edges. */
module LeiRegions {
  import opened Wrappers
  import opened Tea
  import opened Flow
  import opened Recording
  import opened RegionFormation
  import opened Instructions
  import opened BranchHistory
  import opened Paths
  import opened Lei

  // ---------- One instruction ----------

  /** An instruction the region does not have yet gets a node, and an edge to it from the
      node the walk was at; the first one makes the region and is its entry. */
  lemma PlaceNew(x: Trace, a: nat)
    requires TraceOk(x) && a != NTE_ADDR && !Holds(x, a)
    requires x.region.Some? ==> Extensible(x.tea, x.region.value)
    ensures var y := Place(x, a);
            && y.region == (if x.region.Some? then x.region else Some(|x.tea.regions|)) && y.last == Some(|x.tea.nodes|)
            && y.tea.nodes == x.tea.nodes + [Node(a, y.region.value)]
            && Extensible(y.tea, y.region.value) && GrowsWithin(x.tea, y.tea, y.region.value)
            && (if x.last.Some? then
                  && y.tea.edges == x.tea.edges + [Edge(x.last.value, |x.tea.nodes|)]
                  && Linked(y.tea, y.region.value, x.tea.nodes[x.last.value].addr, a)
                  && y.tea.regions[y.region.value].entryNodes == x.tea.regions[y.region.value].entryNodes
                  && y.tea.regions[y.region.value].exitNodes == x.tea.regions[y.region.value].exitNodes
                else
                  && y.tea.edges == x.tea.edges && a in y.tea.entries && y.tea.entries[a] == |x.tea.nodes|
                  && y.tea.regions[y.region.value].entryNodes == {|x.tea.nodes|}
                  && y.tea.regions[y.region.value].exitNodes == {})
  {
    if x.last.Some? {
      PlaceNext(x, a);
    } else {
      PlaceFirst(x.tea, x.last, a);
    }
  }

  lemma PlaceFirst(s: State, last: Option<nat>, a: nat)
    requires Inv(s) && a != NTE_ADDR && last.None?
    ensures var y, r := Place(Trace(s, None, last), a), |s.regions|;
            && y.region == Some(r) && y.last == Some(|s.nodes|) && y.tea.nodes == s.nodes + [Node(a, r)]
            && Extensible(y.tea, r) && GrowsWithin(s, y.tea, r)
            && y.tea.edges == s.edges && a in y.tea.entries && y.tea.entries[a] == |s.nodes|
            && y.tea.regions[r].entryNodes == {|s.nodes|} && y.tea.regions[r].exitNodes == {}
  {
    FirstChains(s, [a]);
    FirstIs(s, [a]);
    BuildToWithin(s, [a], 1);
  }

  lemma FirstIs(s: State, path: seq<nat>)
    requires Inv(s) && path != [] && NonZero(path)
    ensures Place(NewTrace(s), path[0]) == Trace(BuildTo(s, path, 1).0, Some(|s.regions|), BuildTo(s, path, 1).1)
    ensures var t := BuildTo(s, path, 1).0;
            && t.nodes == s.nodes + [Node(path[0], |s.regions|)] && t.edges == s.edges
            && path[0] in t.entries && t.entries[path[0]] == |s.nodes| && BuildTo(s, path, 1).1 == Some(|s.nodes|)
            && t.regions[|s.regions|].entryNodes == {|s.nodes|} && t.regions[|s.regions|].exitNodes == {}
  {
    hide OutsOk, InsOk, InnerOk, CacheOk, Deterministic;
    assert BuildTo(s, path, 0) == (CreateRegion(s), None);
    CreateRegionInv(s);
    NewRegionIsEmpty(s);
    assert {} + {|s.nodes|} == {|s.nodes|};
  }

  lemma PlaceNext(x: Trace, a: nat)
    requires TraceOk(x) && a != NTE_ADDR && !Holds(x, a) && x.region.Some? && Extensible(x.tea, x.region.value)
    ensures var y, r := Place(x, a), x.region.value;
            && y.region == x.region && y.last == Some(|x.tea.nodes|) && y.tea.nodes == x.tea.nodes + [Node(a, r)]
            && Extensible(y.tea, r) && GrowsWithin(x.tea, y.tea, r)
            && y.tea.edges == x.tea.edges + [Edge(x.last.value, |x.tea.nodes|)]
            && Linked(y.tea, r, x.tea.nodes[x.last.value].addr, a)
            && y.tea.regions[r].entryNodes == x.tea.regions[r].entryNodes
            && y.tea.regions[r].exitNodes == x.tea.regions[r].exitNodes
  {
    var r, last := x.region.value, x.last.value;
    AddAddrKeeps(x.tea, r, x.last, a);
    ExtendEntryNodes(x.tea, r, x.last, a);
    ExtendExitNodes(x.tea, r, x.last, a);
    NextIs(x, a);
  }

  lemma NextIs(x: Trace, a: nat)
    requires TraceOk(x) && a != NTE_ADDR && !Holds(x, a) && x.region.Some? && Enclosed(x.tea, x.region.value)
    ensures var y, e := Place(x, a), Extend(x.tea, x.region.value, x.last, a);
            && y == Trace(e.0, x.region, Some(e.1)) && e.0 == AddAddr(x.tea, x.region.value, x.last, a).0 && e.1 == |x.tea.nodes|
            && y.tea.nodes == x.tea.nodes + [Node(a, x.region.value)]
            && y.tea.edges == x.tea.edges + [Edge(x.last.value, |x.tea.nodes|)]
  {
    hide InsOk, InnerOk, CacheOk;
    var r, last := x.region.value, x.last.value;
    var (t, n) := NodeFor(x.tea, r, a);
    NodeForInv(x.tea, r, a);
    FindOutFinds(t, last, a);
    if e: nat :| LeadsTo(t, e, last, a) {
      assert false;
    }
  }

  /** An instruction it has changes nothing; the walk is at its node. */
  lemma PlaceOld(x: Trace, a: nat)
    requires TraceOk(x) && a != NTE_ADDR && Holds(x, a)
    ensures var y := Place(x, a);
            y.tea == x.tea && y.region == x.region && y.last.Some? && y.last.value < |x.tea.nodes|
            && x.tea.nodes[y.last.value] == Node(a, x.region.value)
  {
    hide OutsOk, InsOk, InnerOk, CacheOk, Deterministic;
  }

  // ---------- Every region that is formed ----------

  /** The region is entered at one node, with that address. */
  ghost predicate EnteredAt(t: State, r: nat, a: nat) {
    r < |t.regions| && exists n :: 0 <= n < |t.nodes| && t.nodes[n] == Node(a, r) && t.regions[r].entryNodes == {n}
  }

  /** Inner edges lead from that address to every other. */
  ghost predicate Reached(t: State, r: nat, a: nat) {
    HasAddr(t, r, a) && forall b :: HasAddr(t, r, b) ==> Reaches(t, r, a, b)
  }

  /** It has one exit node. */
  ghost predicate LeftOnce(t: State, r: nat) {
    r < |t.regions| && exists n :: 0 <= n < |t.nodes| && t.nodes[n].region == r && t.regions[r].exitNodes == {n}
  }

  ghost predicate FormedAt(t: State, r: nat, a: nat) {
    EnteredAt(t, r, a) && Reached(t, r, a) && LeftOnce(t, r)
  }

  /** A region while it is formed: it is not left anywhere yet. */
  ghost predicate Rooted(x: Trace, start: nat) {
    && TraceOk(x)
    && (x.region.Some? ==>
          var r := x.region.value;
          Extensible(x.tea, r) && EnteredAt(x.tea, r, start) && Reached(x.tea, r, start) && x.tea.regions[r].exitNodes == {})
  }

  lemma PlaceRoots(x: Trace, a: nat, start: nat)
    requires Rooted(x, start) && a != NTE_ADDR && (x.region.None? ==> a == start)
    ensures var y := Place(x, a);
            && Rooted(y, start) && y.region == (if x.region.Some? then x.region else Some(|x.tea.regions|))
            && GrowsWithin(x.tea, y.tea, y.region.value)
  {
    hide Inv, Place, UniqueIn, Enclosed, Reached, EnteredAt;
    var y := Place(x, a);
    if Holds(x, a) {
      PlaceOld(x, a);
      StaysRooted(x, y, start);
    } else {
      PlaceNew(x, a);
      var r := y.region.value;
      assert y.tea.nodes[|x.tea.nodes|] == Node(a, r);
      if x.last.Some? {
        NewReached(x.tea, y.tea, r, start, x.tea.nodes[x.last.value].addr, a);
        StaysEntered(x.tea, y.tea, r, start);
      } else {
        FirstReached(x.tea, y.tea, r, a);
      }
    }
  }

  lemma StaysRooted(x: Trace, y: Trace, start: nat)
    requires Rooted(x, start) && y.tea == x.tea && y.region == x.region && y.region.Some?
    requires y.last.Some? && y.last.value < |x.tea.nodes| && x.tea.nodes[y.last.value].region == x.region.value
    ensures Rooted(y, start) && GrowsWithin(x.tea, y.tea, y.region.value)
  {
    hide UniqueIn, Enclosed, Reached, EnteredAt;
  }

  lemma StaysEntered(s: State, t: State, r: nat, a: nat)
    requires EnteredAt(s, r, a) && s.nodes <= t.nodes && r < |t.regions| && t.regions[r].entryNodes == s.regions[r].entryNodes
    ensures EnteredAt(t, r, a)
  {
    var n :| 0 <= n < |s.nodes| && s.nodes[n] == Node(a, r) && s.regions[r].entryNodes == {n};
    assert t.nodes[n] == Node(a, r);
  }

  /** One more node, and an edge to it from a node of the region. */
  lemma NewReached(s: State, t: State, r: nat, start: nat, last: nat, a: nat)
    requires Grows(s, t) && Reached(s, r, start) && HasAddr(s, r, last) && Linked(t, r, last, a)
    requires t.nodes == s.nodes + [Node(a, r)]
    ensures Reached(t, r, start)
  {
    GrowthKeepsAddr(s, t, r, start);
    GrowthKeepsReach(s, t, r, start, last);
    forall b | HasAddr(t, r, b) ensures Reaches(t, r, start, b) {
      if HasAddr(s, r, b) {
        GrowthKeepsReach(s, t, r, start, b);
      } else {
        LinkedHas(t, r, last, a);
        assert LinkedAt(t, r, [last, a], 0);
        assert Chain(t, r, [last, a]);
        ChainReaches(t, r, [last, a], 0, 1);
        ReachesTransitive(t, r, start, last, a);
      }
    }
  }

  lemma FirstReached(s: State, t: State, r: nat, a: nat)
    requires Inv(s) && r >= |s.regions| && t.nodes == s.nodes + [Node(a, r)]
    requires r < |t.regions| && t.regions[r].entryNodes == {|s.nodes|}
    ensures EnteredAt(t, r, a) && Reached(t, r, a)
  {
    assert t.nodes[|s.nodes|] == Node(a, r);
    assert Chain(t, r, [a]);
    ChainReaches(t, r, [a], 0, 0);
  }

  /** Only the region being formed, and regions made since, differ. */
  ghost predicate LeavesOthers(s: State, t: State, r: Option<nat>) {
    && |s.regions| <= |t.regions|
    && (forall q :: 0 <= q < |s.regions| && Some(q) != r ==> t.regions[q] == s.regions[q])
    && (forall n :: |s.nodes| <= n < |t.nodes| ==> Some(t.nodes[n].region) == r || |s.regions| <= t.nodes[n].region)
    && (forall e :: |s.edges| <= e < |t.edges| ==>
          Some(RegionOf(t.nodes, t.edges[e].src)) == r || |s.regions| <= RegionOf(t.nodes, t.edges[e].src))
  }

  lemma RootedItself(x: Trace, start: nat)
    requires Rooted(x, start)
    ensures TraceOk(x) && Inv(x.tea) && Grows(x.tea, x.tea) && LeavesOthers(x.tea, x.tea, x.region)
  {
  }

  lemma PlaceLeavesOthers(x: Trace, a: nat, start: nat)
    requires Rooted(x, start) && a != NTE_ADDR && (x.region.None? ==> a == start)
    ensures var y := Place(x, a);
            && Grows(x.tea, y.tea) && LeavesOthers(x.tea, y.tea, x.region)
            && |y.tea.regions| == (if x.region.None? then |x.tea.regions| + 1 else |x.tea.regions|)
  {
    hide Place, Extensible, EnteredAt, Reached, Inv;
    RootedItself(x, start);
    PlaceRoots(x, a, start);
    assert x.region.Some? ==> x.region.value < |x.tea.regions|;
  }

  /** What follows a step that may have made the region. */
  lemma LeavesOthersTransitive(s: State, t: State, u: State, r: Option<nat>, q: Option<nat>)
    requires Grows(s, t) && Grows(t, u) && LeavesOthers(s, t, r) && LeavesOthers(t, u, q)
    requires q == r || (r.None? && q.Some? && |s.regions| <= q.value) || q.None?
    requires Inv(t)
    ensures LeavesOthers(s, u, r) && Grows(s, u)
  {
    hide OutsOk, InsOk, InnerOk, CacheOk, Deterministic;
    GrowsTransitive(s, t, u);
    forall n | |s.nodes| <= n < |u.nodes| ensures Some(u.nodes[n].region) == r || |s.regions| <= u.nodes[n].region {
      assert n < |t.nodes| ==> u.nodes[n] == t.nodes[n];
    }
    forall e | |s.edges| <= e < |u.edges|
      ensures Some(RegionOf(u.nodes, u.edges[e].src)) == r || |s.regions| <= RegionOf(u.nodes, u.edges[e].src)
    {
      assert e < |t.edges| ==> u.edges[e] == t.edges[e] && t.edges[e].src < |t.nodes|;
    }
  }

  /** A walk that starts a region or goes on with one. */
  lemma {:induction false} WalkRoots(c: Config, code: Code, start: nat, src: nat, x: Trace, i: nat)
    requires Rooted(x, start) && CodeOk(code) && NTE_ADDR !in code.insns
    requires x.region.None? ==> i < |code.addrs| && code.addrs[i] == start
    ensures var (y, end) := WalkTo(c, code, start, src, x, i);
            && Rooted(y, start) && Grows(x.tea, y.tea) && LeavesOthers(x.tea, y.tea, x.region)
            && (x.region.Some? ==> y.region == x.region)
            && (end != Forever && x.region.None? ==> y.region == Some(|x.tea.regions|))
            && |y.tea.regions| == (if x.region.None? && y.region.Some? then |x.tea.regions| + 1 else |x.tea.regions|)
    decreases |code.addrs| - i
  {
    hide Rooted, Place, Inv, Grows, LeavesOthers;
    RootedItself(x, start);
    if i < |code.addrs| {
      var a := code.addrs[i];
      assert a in code.addrs;
      if !OtherSide(c, start, a) && (a == start || a !in x.tea.entries) {
        var y := Place(x, a);
        PlaceRoots(x, a, start);
        PlaceLeavesOthers(x, a, start);
        if a != src {
          RootedItself(y, start);
          WalkRoots(c, code, start, src, y, i + 1);
          LeavesOthersTransitive(x.tea, y.tea, WalkTo(c, code, start, src, y, i + 1).0.tea, x.region, y.region);
        }
      }
    }
  }

  /** The exit is set last; regions made in between stay as they were formed. */
  lemma ClosedForms(y: Trace, t: State, start: nat)
    requires Rooted(y, start) && y.region.Some? && Inv(t) && Grows(y.tea, t) && LeavesOthers(y.tea, t, None)
    ensures var u, r := ClosedIn(y, t), y.region.value;
            && FormedAt(u, r, start) && Grows(t, u) && |u.regions| == |t.regions|
            && (forall q: nat, a: nat :: q != r && FormedAt(t, q, a) ==> FormedAt(u, q, a))
            && LeavesOthers(y.tea, u, y.region)
  {
    hide Inv, Extensible;
    var u, r := ClosedIn(y, t), y.region.value;
    ClosedIs(y, t);
    StaysReached(y.tea, t, r, start);
    SameReached(t, u, r, start);
    StaysEntered(y.tea, u, r, start);
    forall q: nat, a: nat | q != r && FormedAt(t, q, a) ensures FormedAt(u, q, a) {
      SameReached(t, u, q, a);
    }
  }

  lemma ClosedIs(y: Trace, t: State)
    requires TraceOk(y) && y.region.Some? && Inv(t) && Grows(y.tea, t) && LeavesOthers(y.tea, t, None)
    requires y.tea.regions[y.region.value].exitNodes == {}
    ensures var u, r := ClosedIn(y, t), y.region.value;
            && u.nodes == t.nodes && u.edges == t.edges && |u.regions| == |t.regions| && Grows(t, u)
            && (forall q :: 0 <= q < |t.regions| && q != r ==> u.regions[q] == t.regions[q])
            && u.regions[r].entryNodes == y.tea.regions[r].entryNodes && u.regions[r].exitNodes == {y.last.value}
            && u.nodes[y.last.value].region == r
  {
    hide OutsOk, InsOk, InnerOk, CacheOk, Deterministic;
    assert {} + {y.last.value} == {y.last.value};
  }

  lemma StaysReached(s: State, t: State, r: nat, a: nat)
    requires Reached(s, r, a) && Grows(s, t) && r < |s.regions| && LeavesOthers(s, t, None)
    ensures Reached(t, r, a)
  {
    GrowthKeepsAddr(s, t, r, a);
    forall b | HasAddr(t, r, b) ensures Reaches(t, r, a, b) {
      var n :| 0 <= n < |t.nodes| && t.nodes[n] == Node(b, r);
      assert s.nodes[n] == t.nodes[n];
      GrowthKeepsReach(s, t, r, a, b);
    }
  }

  lemma SameReached(t: State, u: State, r: nat, a: nat)
    requires Reached(t, r, a) && Grows(t, u) && u.nodes == t.nodes
    ensures Reached(u, r, a)
  {
    hide Reaches;
    forall b | HasAddr(u, r, b) ensures Reaches(u, r, a, b) {
      assert HasAddr(t, r, b);
      GrowthKeepsReach(t, u, r, a, b);
    }
  }

  /** The region starts at the hot target or, after another trace was come to, at the
      target of a branch of the history. */
  ghost predicate IsFormed(buf: seq<Branch>, start: nat, t: State, q: nat) {
    FormedAt(t, q, start) || exists i: nat :: i < |buf| && FormedAt(t, q, buf[i].tgt)
  }

  ghost predicate AllFormed(buf: seq<Branch>, start: nat, s: State, t: State, r: Option<nat>) {
    && (r.Some? ==> FormedAt(t, r.value, start))
    && forall q: nat :: |s.regions| <= q < |t.regions| ==> IsFormed(buf, start, t, q)
  }

  /** In every region that is formed inner edges lead from its start, at which it is
      entered, to each of its addresses, and it is left at one node. */
  lemma {:induction false} FormRoots(c: Config, code: Code, buf: seq<Branch>, start: nat, x: Trace, prev: nat, k: nat)
    requires Rooted(x, start) && CodeOk(code) && NTE_ADDR !in code.insns && TargetsIn(code, buf) && prev in code.insns
    requires x.region.None? ==> prev == start
    ensures var t := FormFrom(c, code, buf, start, x, prev, k);
            t.Some? ==> && Grows(x.tea, t.value) && LeavesOthers(x.tea, t.value, x.region)
                        && AllFormed(buf, start, x.tea, t.value, x.region)
    decreases |buf| - k
  {
    hide Rooted, WalkTo, Grows, Inv, UniqueIn, CodeOk, PosOf, LeavesOthers, FormedAt, IsFormed;
    RootedItself(x, start);
    if k >= |buf| {
      EndForms(buf, x, start);
    } else {
      KnownPos(code, prev);
      var i := PosOf(code, prev, 0);
      var (y, end) := WalkTo(c, code, start, buf[k].src, x, i);
      WalkRoots(c, code, start, buf[k].src, x, i);
      RootedItself(y, start);
      if end == AtTrace {
        NewRooted(y, start, buf[k].tgt);
        FormRoots(c, code, buf, buf[k].tgt, NewTrace(y.tea), buf[k].tgt, k + 1);
        var t := FormFrom(c, code, buf, buf[k].tgt, NewTrace(y.tea), buf[k].tgt, k + 1);
        if t.Some? {
          NestedForms(buf, k, start, x, y, t.value);
        }
      } else if end == Ran {
        EndForms(buf, y, start);
        MadeForms(buf, start, x, y, ClosedIn(y, y.tea));
        FormRoots(c, code, buf, start, y, buf[k].tgt, k + 1);
        var t := FormFrom(c, code, buf, start, y, buf[k].tgt, k + 1);
        if t.Some? {
          MadeForms(buf, start, x, y, t.value);
        }
      }
    }
  }

  lemma NewRooted(y: Trace, start: nat, a: nat)
    requires Rooted(y, start)
    ensures Rooted(NewTrace(y.tea), a)
  {
  }

  /** The forming ends with the region as it is. */
  lemma EndForms(buf: seq<Branch>, y: Trace, start: nat)
    requires Rooted(y, start)
    ensures var t := ClosedIn(y, y.tea);
            && Grows(y.tea, t) && LeavesOthers(y.tea, t, y.region) && AllFormed(buf, start, y.tea, t, y.region)
  {
    hide Inv, FormedAt, Extensible, Reached, EnteredAt;
    RootedItself(y, start);
    if y.region.Some? {
      ClosedForms(y, y.tea, start);
    }
  }

  /** What is formed after the walk from `x` to `y` is formed after `x`. */
  lemma MadeForms(buf: seq<Branch>, start: nat, x: Trace, y: Trace, t: State)
    requires TraceOk(x) && TraceOk(y) && Grows(x.tea, y.tea) && LeavesOthers(x.tea, y.tea, x.region)
    requires y.region == if x.region.Some? then x.region else Some(|x.tea.regions|)
    requires |y.tea.regions| == if x.region.None? then |x.tea.regions| + 1 else |x.tea.regions|
    requires Grows(y.tea, t) && LeavesOthers(y.tea, t, y.region) && AllFormed(buf, start, y.tea, t, y.region)
    ensures Grows(x.tea, t) && LeavesOthers(x.tea, t, x.region) && AllFormed(buf, start, x.tea, t, x.region)
  {
    hide Inv, FormedAt, UniqueIn;
    LeavesOthersTransitive(x.tea, y.tea, t, x.region, y.region);
    assert FormedAt(t, y.region.value, start);
  }

  /** The rest of the history made regions of its own, in `t`. */
  lemma NestedForms(buf: seq<Branch>, k: nat, start: nat, x: Trace, y: Trace, t: State)
    requires TraceOk(x) && Rooted(y, start) && Grows(x.tea, y.tea) && LeavesOthers(x.tea, y.tea, x.region) && k < |buf|
    requires y.region == if x.region.Some? then x.region else Some(|x.tea.regions|)
    requires |y.tea.regions| == if x.region.None? then |x.tea.regions| + 1 else |x.tea.regions|
    requires Inv(t) && Grows(y.tea, t) && LeavesOthers(y.tea, t, None) && AllFormed(buf, buf[k].tgt, y.tea, t, None)
    ensures var u := ClosedIn(y, t);
            && Grows(x.tea, u) && LeavesOthers(x.tea, u, x.region) && AllFormed(buf, start, x.tea, u, x.region)
  {
    hide Inv, FormedAt, UniqueIn, Rooted;
    RootedItself(y, start);
    var u := ClosedIn(y, t);
    ClosedForms(y, t, start);
    GrowsTransitive(y.tea, t, u);
    forall q: nat | |y.tea.regions| <= q < |u.regions| ensures IsFormed(buf, start, u, q) {
      assert IsFormed(buf, buf[k].tgt, t, q);
      if i: nat :| i < |buf| && FormedAt(t, q, buf[i].tgt) {
        assert FormedAt(u, q, buf[i].tgt);
      }
    }
    MadeForms(buf, start, x, y, u);
  }

  // ---------- A loop without other traces ----------

  /** Positions `i` to `j` of the code are one side's, and no trace starts after the
      first. */
  ghost predicate Straight(c: Config, code: Code, s: State, i: nat, j: nat) {
    && i <= j < |code.addrs|
    && (forall m :: i <= m <= j ==>
          c.mixUsrSys || (code.addrs[m] < c.systemThreshold) == (code.addrs[i] < c.systemThreshold))
    && (forall m :: i < m <= j ==> code.addrs[m] !in s.entries)
  }

  /** The region after the first `k` addresses of a recording. */
  function Built(s: State, path: seq<nat>, k: nat): Trace
    requires Inv(s) && NonZero(path) && 0 < k <= |path|
  {
    Trace(BuildTo(s, path, k).0, Some(|s.regions|), BuildTo(s, path, k).1)
  }

  /** Its nodes are those of the addresses, in order. */
  ghost predicate NodesOfPath(s: State, t: State, path: seq<nat>, k: nat) {
    && k <= |path| && s.nodes <= t.nodes && |t.nodes| == |s.nodes| + k
    && forall i :: 0 <= i < k ==> t.nodes[|s.nodes| + i] == Node(path[i], |s.regions|)
  }

  ghost predicate Increasing(path: seq<nat>) {
    forall i, j :: 0 <= i < j < |path| ==> path[i] < path[j]
  }

  lemma {:induction false} BuiltNodes(s: State, path: seq<nat>, k: nat)
    requires Inv(s) && NonZero(path) && 0 < k <= |path| && Increasing(path)
    ensures NodesOfPath(s, BuildTo(s, path, k).0, path, k) && UniqueIn(BuildTo(s, path, k).0, |s.regions|)
  {
    hide Inv, Place, NodeFor, UniqueIn, Extend;
    if k == 1 {
      FirstIs(s, path);
    } else {
      BuiltNodes(s, path, k - 1);
      var (t, last) := BuildTo(s, path, k - 1);
      NoneYet(s, t, path, k - 1, 0);
      ExtendNodes(t, |s.regions|, last, path[k - 1]);
    }
    PathUnique(s, BuildTo(s, path, k).0, path, k);
  }

  lemma NoneYet(s: State, t: State, path: seq<nat>, k: nat, pick: nat)
    requires Inv(s) && NodesOfPath(s, t, path, k) && k < |path| && Increasing(path)
    ensures 0 < |s.regions| && GetNode(t, |s.regions|, path[k], pick).None?
  {
    forall n | 0 <= n < |t.nodes| ensures t.nodes[n] != Node(path[k], |s.regions|) {
      assert if n < |s.nodes| then t.nodes[n] == s.nodes[n]
             else t.nodes[|s.nodes| + (n - |s.nodes|)] == Node(path[n - |s.nodes|], |s.regions|);
    }
  }

  lemma PathUnique(s: State, t: State, path: seq<nat>, k: nat)
    requires Inv(s) && NodesOfPath(s, t, path, k) && Increasing(path)
    ensures UniqueIn(t, |s.regions|)
  {
    assert forall n :: 0 <= n < |s.nodes| ==> t.nodes[n] == s.nodes[n] && t.nodes[n].region != |s.regions|;
    forall i, j | 0 <= i < j < |t.nodes| && t.nodes[i].region == |s.regions| ensures t.nodes[j] != t.nodes[i] {
      assert t.nodes[|s.nodes| + (i - |s.nodes|)] == Node(path[i - |s.nodes|], |s.regions|);
      assert t.nodes[|s.nodes| + (j - |s.nodes|)] == Node(path[j - |s.nodes|], |s.regions|);
    }
  }

  /** The walk over such positions builds what a recording of their addresses builds. */
  lemma {:induction false} StraightWalk(c: Config, code: Code, s: State, i: nat, j: nat, path: seq<nat>, k: nat)
    requires Inv(s) && CodeOk(code) && NTE_ADDR !in code.insns && Straight(c, code, s, i, j)
    requires path == code.addrs[i..j + 1] && NonZero(path) && 0 < k <= |path|
    ensures TraceOk(Built(s, path, k))
    ensures k < |path| ==> WalkTo(c, code, code.addrs[i], code.addrs[j], Built(s, path, k), i + k)
                           == (Built(s, path, |path|), Ran)
    decreases |path| - k
  {
    hide WalkTo, BuildTo, Inv;
    BuiltNodes(s, path, k);
    BuiltIsTrace(s, path, k);
    if k < |path| {
      var a := code.addrs[i + k];
      assert path[k] == a;
      StraightWalk(c, code, s, i, j, path, k + 1);
      NextBuilt(s, path, k);
      StraightStep(c, code, s, i, j, path, k);
    }
  }

  lemma BuiltIsTrace(s: State, path: seq<nat>, k: nat)
    requires Inv(s) && NonZero(path) && 0 < k <= |path| && UniqueIn(BuildTo(s, path, k).0, |s.regions|)
    ensures TraceOk(Built(s, path, k))
  {
  }

  lemma NextBuilt(s: State, path: seq<nat>, k: nat)
    requires Inv(s) && NonZero(path) && 0 < k < |path| && Increasing(path) && TraceOk(Built(s, path, k))
    ensures Place(Built(s, path, k), path[k]) == Built(s, path, k + 1)
  {
    hide Inv, UniqueIn;
    BuiltNodes(s, path, k);
    NoneYet(s, Built(s, path, k).tea, path, k, 0);
  }

  lemma StraightStep(c: Config, code: Code, s: State, i: nat, j: nat, path: seq<nat>, k: nat)
    requires Inv(s) && CodeOk(code) && NTE_ADDR !in code.insns && Straight(c, code, s, i, j)
    requires path == code.addrs[i..j + 1] && NonZero(path) && 0 < k < |path|
    requires TraceOk(Built(s, path, k)) && TraceOk(Built(s, path, k + 1))
    requires Place(Built(s, path, k), path[k]) == Built(s, path, k + 1)
    ensures WalkTo(c, code, code.addrs[i], code.addrs[j], Built(s, path, k), i + k)
            == if k + 1 == |path| then (Built(s, path, |path|), Ran)
               else WalkTo(c, code, code.addrs[i], code.addrs[j], Built(s, path, k + 1), i + k + 1)
  {
    hide Inv, TraceOk, Place, BuildTo;
    BuildToEntries(s, path, k);
    assert path[0] == code.addrs[i] && path[k] == code.addrs[i + k];
  }

  /** A hot loop whose branch goes from position `j` back to position `i` becomes the
      region of those addresses: each leads to the next, it is entered at the first and
      left from the last. */
  lemma LoopIsFormed(c: Config, code: Code, s: State, buf: seq<Branch>, k: nat, i: nat, j: nat)
    requires Inv(s) && CodeOk(code) && NTE_ADDR !in code.insns && Straight(c, code, s, i, j)
    requires k < |buf| && buf[k].src == code.addrs[j] && buf[k].tgt == code.addrs[i]
    ensures var t := FormFrom(c, code, buf, code.addrs[i], NewTrace(s), code.addrs[i], k);
            var path, r := code.addrs[i..j + 1], |s.regions|;
            && t.Some? && |t.value.regions| == |s.regions| + 1 && |t.value.nodes| == |s.nodes| + |path|
            && Chain(t.value, r, path) && EdgesOnPath(t.value, path, |s.edges|)
            && EntersFirst(t.value, r, path) && LeavesLast(t.value, r, path)
  {
    hide Inv, BuildTo, WalkTo, Chain, EdgesOnPath, EntersFirst, LeavesLast, UniqueIn;
    var path := code.addrs[i..j + 1];
    assert forall m :: 0 <= m < |path| ==> path[m] == code.addrs[i + m] && code.addrs[i + m] in code.addrs;
    LoopIsBuilt(c, code, s, buf, k, i, j, path);
    BuiltIs(s, path);
    BuiltNodes(s, path, |path|);
    BuildRegionWithin(s, path);
  }

  lemma LoopIsBuilt(c: Config, code: Code, s: State, buf: seq<Branch>, k: nat, i: nat, j: nat, path: seq<nat>)
    requires Inv(s) && CodeOk(code) && NTE_ADDR !in code.insns && Straight(c, code, s, i, j)
    requires k < |buf| && buf[k].src == code.addrs[j] && buf[k].tgt == code.addrs[i]
    requires path == code.addrs[i..j + 1] && NonZero(path)
    ensures FormFrom(c, code, buf, code.addrs[i], NewTrace(s), code.addrs[i], k) == Some(BuildRegion(s, path))
  {
    hide Inv, BuildTo, WalkTo, UniqueIn, TraceOk;
    var start, x := code.addrs[i], NewTrace(s);
    NewOk(s);
    assert PosOf(code, start, 0) == i by {
      assert start in code.addrs;
      KnownPos(code, start);
    }
    FirstStep(c, code, s, i, j, path);
    BuiltNodes(s, path, |path|);
    var y := Built(s, path, |path|);
    StraightWalk(c, code, s, i, j, path, |path|);
    assert y.tea.nodes[|s.nodes|] == Node(start, |s.regions|);
    GrowsItself(y.tea);
    assert FormFrom(c, code, buf, start, x, start, k) == Some(ClosedIn(y, y.tea));
  }

  lemma NewOk(s: State)
    requires Inv(s)
    ensures TraceOk(NewTrace(s))
  {
  }

  lemma FirstStep(c: Config, code: Code, s: State, i: nat, j: nat, path: seq<nat>)
    requires Inv(s) && CodeOk(code) && NTE_ADDR !in code.insns && Straight(c, code, s, i, j)
    requires path == code.addrs[i..j + 1] && NonZero(path) && TraceOk(NewTrace(s))
    ensures WalkTo(c, code, code.addrs[i], code.addrs[j], NewTrace(s), i) == (Built(s, path, |path|), Ran)
  {
    hide Inv, BuildTo, TraceOk, Place, NonZero;
    assert path[0] == code.addrs[i];
    FirstIs(s, path);
    StraightWalk(c, code, s, i, j, path, 1);
  }

  /** A walk that looks for something else goes on to the position after them. */
  lemma {:induction false} StraightOn(c: Config, code: Code, s: State, i: nat, j: nat, src: nat, path: seq<nat>, k: nat)
    requires Inv(s) && CodeOk(code) && NTE_ADDR !in code.insns && Straight(c, code, s, i, j) && src !in path
    requires path == code.addrs[i..j + 1] && NonZero(path) && 0 < k <= |path|
    ensures TraceOk(Built(s, path, k)) && TraceOk(Built(s, path, |path|))
    ensures WalkTo(c, code, code.addrs[i], src, Built(s, path, k), i + k)
            == WalkTo(c, code, code.addrs[i], src, Built(s, path, |path|), j + 1)
    decreases |path| - k
  {
    hide WalkTo, BuildTo, Inv;
    BuiltNodes(s, path, k);
    BuiltIsTrace(s, path, k);
    if k < |path| {
      StraightOn(c, code, s, i, j, src, path, k + 1);
      NextBuilt(s, path, k);
      StraightOnStep(c, code, s, i, j, src, path, k);
    }
  }

  lemma StraightOnStep(c: Config, code: Code, s: State, i: nat, j: nat, src: nat, path: seq<nat>, k: nat)
    requires Inv(s) && CodeOk(code) && NTE_ADDR !in code.insns && Straight(c, code, s, i, j) && src !in path
    requires path == code.addrs[i..j + 1] && NonZero(path) && 0 < k < |path|
    requires TraceOk(Built(s, path, k)) && TraceOk(Built(s, path, k + 1))
    requires Place(Built(s, path, k), path[k]) == Built(s, path, k + 1)
    ensures WalkTo(c, code, code.addrs[i], src, Built(s, path, k), i + k)
            == WalkTo(c, code, code.addrs[i], src, Built(s, path, k + 1), i + k + 1)
  {
    hide Inv, TraceOk, Place, BuildTo;
    BuildToEntries(s, path, k);
    assert path[0] == code.addrs[i] && path[k] == code.addrs[i + k];
  }

  /** The walk comes to the start of another trace, or to the end of the code. */
  lemma StraightEnd(c: Config, code: Code, s: State, i: nat, j: nat, src: nat, path: seq<nat>)
    requires Inv(s) && CodeOk(code) && NTE_ADDR !in code.insns && Straight(c, code, s, i, j) && src !in path
    requires path == code.addrs[i..j + 1] && NonZero(path) && TraceOk(NewTrace(s))
    requires j + 1 < |code.addrs| ==>
               && code.addrs[j + 1] in s.entries
               && (c.mixUsrSys || (code.addrs[j + 1] < c.systemThreshold) == (code.addrs[i] < c.systemThreshold))
    ensures TraceOk(Built(s, path, |path|))
    ensures WalkTo(c, code, code.addrs[i], src, NewTrace(s), i)
            == (Built(s, path, |path|), if j + 1 < |code.addrs| then AtTrace else Ran)
  {
    hide Inv, BuildTo, TraceOk, Place, NonZero;
    assert path[0] == code.addrs[i];
    FirstIs(s, path);
    StraightOn(c, code, s, i, j, src, path, 1);
    BuildToEntries(s, path, |path|);
    WalkEnds(c, code, code.addrs[i], src, Built(s, path, |path|), j + 1);
  }

  lemma WalkEnds(c: Config, code: Code, start: nat, src: nat, x: Trace, i: nat)
    requires TraceOk(x) && CodeOk(code) && NTE_ADDR !in code.insns && i <= |code.addrs|
    requires i < |code.addrs| ==>
               && code.addrs[i] in x.tea.entries && code.addrs[i] != start
               && (c.mixUsrSys || (code.addrs[i] < c.systemThreshold) == (start < c.systemThreshold))
    ensures WalkTo(c, code, start, src, x, i) == (x, if i < |code.addrs| then AtTrace else Ran)
  {
    hide TraceOk, Place;
  }

  /** A trace ends before the start of another: when the walk to the last branch of the
      history comes to one after position `j`, the region has the addresses up to there
      and no others. */
  lemma StopsAtTrace(c: Config, code: Code, s: State, buf: seq<Branch>, i: nat, j: nat)
    requires Inv(s) && CodeOk(code) && NTE_ADDR !in code.insns && Straight(c, code, s, i, j)
    requires buf != [] && buf[|buf| - 1].src !in code.addrs[i..j + 1]
    requires j + 1 < |code.addrs| && code.addrs[j + 1] in s.entries
    requires c.mixUsrSys || (code.addrs[j + 1] < c.systemThreshold) == (code.addrs[i] < c.systemThreshold)
    ensures var t := FormFrom(c, code, buf, code.addrs[i], NewTrace(s), code.addrs[i], |buf| - 1);
            var path, r := code.addrs[i..j + 1], |s.regions|;
            && t.Some? && |t.value.regions| == |s.regions| + 1 && |t.value.nodes| == |s.nodes| + |path|
            && Chain(t.value, r, path) && EdgesOnPath(t.value, path, |s.edges|)
            && EntersFirst(t.value, r, path) && LeavesLast(t.value, r, path)
  {
    hide Inv, BuildTo, WalkTo, Chain, EdgesOnPath, EntersFirst, LeavesLast, UniqueIn;
    var path := code.addrs[i..j + 1];
    assert forall m :: 0 <= m < |path| ==> path[m] == code.addrs[i + m] && code.addrs[i + m] in code.addrs;
    NewOk(s);
    assert PosOf(code, code.addrs[i], 0) == i by {
      assert code.addrs[i] in code.addrs;
      KnownPos(code, code.addrs[i]);
    }
    StraightEnd(c, code, s, i, j, buf[|buf| - 1].src, path);
    GrowsItself(Built(s, path, |path|).tea);
    BuiltIs(s, path);
    BuiltNodes(s, path, |path|);
    BuildRegionWithin(s, path);
    assert FormFrom(c, code, buf, code.addrs[i], NewTrace(s), code.addrs[i], |buf| - 1) == Some(BuildRegion(s, path));
  }

  /** A loop of three instructions. */
  lemma LoopOfThree(c: Config, s: State, e: nat, f: nat)
    requires Inv(s) && 11 !in s.entries && 12 !in s.entries
    requires c.mixUsrSys || 12 < c.systemThreshold || c.systemThreshold <= 10
    ensures var code := Code([10, 11, 12], map[10 := Insn(false, []), 11 := Insn(false, []), 12 := Insn(true, [10])]);
            var t, r := FormFrom(c, code, [Branch(12, 10, e), Branch(12, 10, f)], 10, NewTrace(s), 10, 1), |s.regions|;
            && CodeOk(code) && t.Some? && Linked(t.value, r, 10, 11) && Linked(t.value, r, 11, 12)
            && |t.value.nodes| == |s.nodes| + 3 && EntersFirst(t.value, r, [10, 11, 12]) && LeavesLast(t.value, r, [10, 11, 12])
  {
    hide Inv, FormFrom, EntersFirst, LeavesLast, Linked;
    var code := Code([10, 11, 12], map[10 := Insn(false, []), 11 := Insn(false, []), 12 := Insn(true, [10])]);
    var buf := [Branch(12, 10, e), Branch(12, 10, f)];
    LoopIsFormed(c, code, s, buf, 1, 0, 2);
    assert code.addrs[0..3] == [10, 11, 12];
    var t := FormFrom(c, code, buf, 10, NewTrace(s), 10, 1).value;
    assert LinkedAt(t, |s.regions|, [10, 11, 12], 0) && LinkedAt(t, |s.regions|, [10, 11, 12], 1);
  }

  // ---------- One item, written out ----------

  /** The branch at position `i` of the history was taken in a region. */
  ghost predicate LeftRegion(u: State, buf: seq<Branch>, i: nat) {
    i < |buf| && buf[i].edge < |u.edges| && u.edges[buf[i].edge].src < |u.nodes| && u.nodes[u.edges[buf[i].edge].src].region != NO_REGION
  }

  /** What an item leaves: the automaton `u` after the transition, the history `buf` and its
      index `index` before the target is entered in it. */
  ghost predicate BranchIs(c: Config, code: Code, s: LeiState, u: State, buf: seq<Branch>, index: Index, a: nat, again: nat,
                           t: Option<LeiState>)
    requires Inv(u) && CodeOk(code) && NTE_ADDR !in code.insns && a != NTE_ADDR && buf != []
  {
    var newIndex := index[a := |buf| - 1];
    var counts := a in index && (a <= s.lastAddr || LeftRegion(u, buf, index[a]));
    var n := if a in s.counters then s.counters[a] + 1 else 1;
    if !counts then
      t.Some? && t.value.tea == u && t.value.buf == buf && t.value.index == newIndex && t.value.counters == s.counters
    else if n < c.hotThreshold then
      t.Some? && t.value.tea == u && t.value.buf == buf && t.value.index == newIndex && t.value.counters == s.counters[a := n]
    else
      var f := FormFrom(c, code, buf, a, NewTrace(u), a, index[a] + 1);
      if f.None? then t.None?
      else
        && t.Some? && t.value.tea == (if a in f.value.entries then Step(f.value, a, again) else f.value)
        && index[a] < |buf| && t.value.buf == buf[..index[a] + 1] && t.value.counters == s.counters[a := 3]
        && (forall b :: b in t.value.index <==> b in newIndex && !OccursIn(buf, b, index[a] + 1))
        && (forall b :: b in t.value.index ==> t.value.index[b] == newIndex[b])
  }

  /** What the whole item leaves, when the automaton is `u` after the transition. */
  ghost predicate ItemIs(c: Config, code: Code, s: LeiState, u: State, a: nat, len: nat, again: nat, t: Option<LeiState>)
    requires Inv(u) && CodeOk(code) && NTE_ADDR !in code.insns && a != NTE_ADDR
  {
    && (t.Some? ==> t.value.lastAddr == a && t.value.lastLen == len)
    && if u.cur != NTE || (if a >= s.lastAddr then a - s.lastAddr else s.lastAddr - a) <= s.lastLen then
         t.Some? && t.value.tea == u && t.value.buf == s.buf && t.value.index == s.index && t.value.counters == s.counters
       else
         exists e: nat :: e < |u.edges| && u.edges[e] == Edge(s.tea.cur, NTE)
                          && BranchIs(c, code, s, u, (if |s.buf| > 2000 then [] else s.buf) + [Branch(s.lastAddr, a, e)],
                                      if |s.buf| > 2000 then map[] else s.index, a, again, t)
  }

  /** The whole step, in terms of where the automaton was and is. */
  lemma LeiStepIs(c: Config, code: Code, s: LeiState, a: nat, len: nat, pick: nat, again: nat)
    requires LeiOk(code, s) && a != NTE_ADDR && a in code.insns
    ensures ItemIs(c, code, s, Step(s.tea, a, pick), a, len, again, LeiStep(c, code, s, a, len, pick, again))
  {
    hide Inv, Step, Resolve, FormFrom, BranchIs, Profiled, IndexOk, Added;
    var u, e := Step(s.tea, a, pick), Resolve(s.tea, a, pick).1;
    TakenMeans(s.tea, a, pick);
    EdgeTaken(s.tea, a, pick);
    if u.cur == NTE && IsFar(a, s.lastAddr, s.lastLen) {
      BranchStepIs(c, code, s, a, len, pick, again);
      assert BranchIs(c, code, s, u, (if |s.buf| > 2000 then [] else s.buf) + [Branch(s.lastAddr, a, e)],
                      if |s.buf| > 2000 then map[] else s.index, a, again, LeiStep(c, code, s, a, len, pick, again));
    }
  }

  lemma EdgeTaken(s: State, a: nat, pick: nat)
    requires Inv(s) && a != NTE_ADDR
    ensures var u, e := Step(s, a, pick), Resolve(s, a, pick).1;
            e < |u.edges| && u.edges[e] == Edge(s.cur, u.cur)
  {
    ResolveInv(s, a, pick);
  }

  lemma BranchStepIs(c: Config, code: Code, s: LeiState, a: nat, len: nat, pick: nat, again: nat)
    requires LeiOk(code, s) && a != NTE_ADDR && a in code.insns
    requires TakenBy(s.tea, a, pick).toNte && IsFar(a, s.lastAddr, s.lastLen)
    ensures var t := LeiStep(c, code, s, a, len, pick, again);
            && (t.Some? ==> t.value.lastAddr == a && t.value.lastLen == len)
            && BranchIs(c, code, s, Step(s.tea, a, pick),
                        (if |s.buf| > 2000 then [] else s.buf) + [Branch(s.lastAddr, a, Resolve(s.tea, a, pick).1)],
                        if |s.buf| > 2000 then map[] else s.index, a, again, t)
  {
    hide Inv, Step, Resolve, FormFrom, Profiled, IndexOk, TakenBy, OccursIn, Erased, LeftRegion, FollowsExit;
    var u, room := Step(s.tea, a, pick), RoomIndex(s.buf, s.index);
    AddedKeeps(code, s, a, pick);
    if a in room {
      var added := Added(s, a, pick, a, len);
      PreviousTime(s.buf, s.index, Branch(s.lastAddr, a, Resolve(s.tea, a, pick).1));
      ExitMeans(code, added, room[a]);
      ProfiledIs(c, code, added, room[a], again);
    }
  }

  lemma ExitMeans(code: Code, s: LeiState, i: nat)
    requires LeiOk(code, s) && i < |s.buf|
    ensures FollowsExit(s.tea, s.buf, i) <==> LeftRegion(s.tea, s.buf, i)
  {
    hide InnerOk, CacheOk, OutsOk, InsOk, Deterministic;
  }

  lemma ProfiledIs(c: Config, code: Code, s: LeiState, prev: nat, again: nat)
    requires LeiOk(code, s) && prev < |s.buf| && s.lastAddr != NTE_ADDR
    ensures var a, t := s.lastAddr, Profiled(c, code, s, prev, again);
            var n := if a in s.counters then s.counters[a] + 1 else 1;
            if n < c.hotThreshold then t == Some(s.(counters := s.counters[a := n]))
            else
              var f := FormFrom(c, code, s.buf, a, NewTrace(s.tea), a, prev + 1);
              if f.None? then t.None?
              else
                && t.Some? && t.value.tea == (if a in f.value.entries then Step(f.value, a, again) else f.value)
                && t.value.buf == s.buf[..prev + 1] && t.value.counters == s.counters[a := 3]
                && t.value.lastAddr == a && t.value.lastLen == s.lastLen
                && (forall b :: b in t.value.index <==> b in s.index && !OccursIn(s.buf, b, prev + 1))
                && (forall b :: b in t.value.index ==> t.value.index[b] == s.index[b])
  {
    hide Inv, Step, FormFrom, OccursIn, Erased;
    ErasedIs(s.buf, s.index, prev + 1);
    var a := s.lastAddr;
    assert s.counters[a := if a in s.counters then s.counters[a] + 1 else 1][a := 3] == s.counters[a := 3];
  }
}
