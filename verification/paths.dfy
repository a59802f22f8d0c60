/** Adding a path of addresses to a region: `NETPlus::addNewPath`, and what it does
    to reachability inside the region. */
module Paths {
  import opened Wrappers
  import opened Tea
  import opened Flow
  import opened Rain
  import opened RegionFormation
  import opened Recording

  // ---------- The region as a graph of addresses ----------

  ghost predicate HasAddr(s: State, r: nat, a: nat) {
    exists n :: 0 <= n < |s.nodes| && s.nodes[n] == Node(a, r)
  }

  ghost predicate Joins(s: State, r: nat, a: nat, b: nat, e: nat) {
    && 0 < e < |s.edges| && s.edges[e].src < |s.nodes| && s.edges[e].tgt < |s.nodes|
    && s.nodes[s.edges[e].src] == Node(a, r) && s.nodes[s.edges[e].tgt] == Node(b, r)
  }

  /** An edge inside region `r` from address `a` to address `b`. */
  ghost predicate Linked(s: State, r: nat, a: nat, b: nat) {
    exists e: nat :: Joins(s, r, a, b, e)
  }

  /** The step of a path from position `i` is an inner edge. */
  ghost predicate LinkedAt(s: State, r: nat, p: seq<nat>, i: nat) {
    i + 1 < |p| && Linked(s, r, p[i], p[i + 1])
  }

  /** A walk along inner edges of region `r`. */
  ghost predicate Chain(s: State, r: nat, p: seq<nat>) {
    && p != [] && HasAddr(s, r, p[0])
    && forall i: nat :: i + 1 < |p| ==> LinkedAt(s, r, p, i)
  }

  ghost predicate Reaches(s: State, r: nat, a: nat, b: nat) {
    exists p :: Chain(s, r, p) && p[0] == a && p[|p| - 1] == b
  }

  /** Every edge that leaves a node of region `r` stays in it. */
  ghost predicate Enclosed(s: State, r: nat) {
    forall e: nat :: 0 < e < |s.edges| && RegionOf(s.nodes, s.edges[e].src) == r ==>
      RegionOf(s.nodes, s.edges[e].tgt) == r
  }

  lemma GrowthKeepsAddr(s: State, t: State, r: nat, a: nat)
    requires Grows(s, t) && HasAddr(s, r, a)
    ensures HasAddr(t, r, a)
  {
    var n :| 0 <= n < |s.nodes| && s.nodes[n] == Node(a, r);
    assert t.nodes[n] == Node(a, r);
  }

  lemma GrowthKeepsReach(s: State, t: State, r: nat, a: nat, b: nat)
    requires Grows(s, t) && Reaches(s, r, a, b)
    ensures Reaches(t, r, a, b)
  {
    var p :| Chain(s, r, p) && p[0] == a && p[|p| - 1] == b;
    GrowthKeepsChain(s, t, r, p);
  }

  lemma GrowthKeepsChain(s: State, t: State, r: nat, p: seq<nat>)
    requires Grows(s, t) && Chain(s, r, p)
    ensures Chain(t, r, p)
  {
    var n :| 0 <= n < |s.nodes| && s.nodes[n] == Node(p[0], r);
    assert t.nodes[n] == Node(p[0], r);
    forall i: nat | i + 1 < |p| ensures LinkedAt(t, r, p, i) {
      assert LinkedAt(s, r, p, i);
      GrowthKeepsLink(s, t, r, p[i], p[i + 1]);
    }
  }

  lemma ReachesTransitive(s: State, r: nat, a: nat, b: nat, c: nat)
    requires Reaches(s, r, a, b) && Reaches(s, r, b, c)
    ensures Reaches(s, r, a, c)
  {
    var p :| Chain(s, r, p) && p[0] == a && p[|p| - 1] == b;
    var q :| Chain(s, r, q) && q[0] == b && q[|q| - 1] == c;
    var pq := p + q[1..];
    forall i: nat | i + 1 < |pq| ensures LinkedAt(s, r, pq, i) {
      if i < |p| - 1 {
        assert LinkedAt(s, r, p, i);
      } else {
        assert LinkedAt(s, r, q, i - (|p| - 1));
      }
    }
    assert Chain(s, r, pq) && pq[0] == a && pq[|pq| - 1] == c;
  }

  /** Inside a chain the earlier addresses reach the later ones. */
  lemma ChainReaches(s: State, r: nat, p: seq<nat>, i: nat, j: nat)
    requires Chain(s, r, p) && i <= j < |p|
    ensures Reaches(s, r, p[i], p[j])
  {
    var q := p[i..j + 1];
    forall k: nat | k + 1 < |q| ensures LinkedAt(s, r, q, k) {
      assert LinkedAt(s, r, p, i + k);
    }
    if i > 0 {
      assert LinkedAt(s, r, p, i - 1);
      var e: nat :| Joins(s, r, p[i - 1], p[i], e);
    }
    assert HasAddr(s, r, q[0]);
    assert Chain(s, r, q) && q[0] == p[i] && q[|q| - 1] == p[j];
  }

  lemma ChainHas(t: State, r: nat, p: seq<nat>, i: nat)
    requires Chain(t, r, p) && i < |p|
    ensures HasAddr(t, r, p[i])
  {
    if i > 0 {
      assert LinkedAt(t, r, p, i - 1);
      var e: nat :| Joins(t, r, p[i - 1], p[i], e);
    }
  }

  lemma LinkedHas(s: State, r: nat, a: nat, b: nat)
    ensures Linked(s, r, a, b) ==> HasAddr(s, r, a) && HasAddr(s, r, b)
  {
  }

  // ---------- Adding a path ----------

  /** One address of the path: the first only selects a node; each of the others
      gets a node if it has none and an edge from the node before. */
  function AddAddr(s: State, r: nat, last: Option<nat>, a: nat): (State, Option<nat>)
    requires r < |s.regions| && SizesOk(s) && (last.Some? ==> last.value < |s.nodes|)
  {
    if last.None? then (s, GetNode(s, r, a, 0))
    else
      var (t, n) := NodeFor(s, r, a);
      (LinkTo(t, r, last.value, n), Some(n))
  }

  /** No node of region `r` has become an entry. */
  ghost predicate SameEntryNodes(s: State, t: State, r: nat) {
    r < |s.regions| <= |t.regions| && t.regions[r].entryNodes == s.regions[r].entryNodes
  }

  /** Region `r` can be extended: its addresses are unique and nothing leaves it yet. */
  ghost predicate Extensible(s: State, r: nat) {
    Inv(s) && 0 < r < |s.regions| && UniqueIn(s, r) && Enclosed(s, r)
  }

  lemma NodeForExtends(s: State, r: nat, a: nat)
    requires Extensible(s, r) && a != NTE_ADDR
    ensures var (t, n) := NodeFor(s, r, a);
            && Extensible(t, r) && GrowsWithin(s, t, r) && t.entries == s.entries && SameEntryNodes(s, t, r)
            && n < |t.nodes| && t.nodes[n] == Node(a, r) && t.edges == s.edges
            && (forall m :: |s.nodes| <= m < |t.nodes| ==> t.nodes[m].addr == a)
  {
    NodeForInv(s, r, a);
    NodeForUnique(s, r, a);
    NodeForWithin(s, r, a);
  }

  lemma LinkToExtends(s: State, r: nat, last: nat, n: nat)
    requires Extensible(s, r) && last < |s.nodes| && n < |s.nodes|
    requires s.nodes[last].region == r == s.nodes[n].region
    ensures var t := LinkTo(s, r, last, n);
            && Extensible(t, r) && GrowsWithin(s, t, r) && t.entries == s.entries && t.nodes == s.nodes
            && SameEntryNodes(s, t, r)
            && Linked(t, r, s.nodes[last].addr, s.nodes[n].addr)
            && (forall e: nat :: |s.edges| <= e < |t.edges| ==> t.edges[e] == Edge(last, n))
  {
    hide OutsOk, InsOk, InnerOk, CacheOk;
    var a, t := s.nodes[n].addr, LinkTo(s, r, last, n);
    LinkToInv(s, r, last, n);
    LinkToWithin(s, r, last, n);
    FindOutFinds(s, last, a);
    if FindOut(s, last, a).Some? {
      assert Joins(t, r, s.nodes[last].addr, a, FindOut(s, last, a).value);
    } else {
      assert Joins(t, r, s.nodes[last].addr, a, |s.edges|);
    }
  }

  lemma AddAddrKeeps(s: State, r: nat, last: Option<nat>, a: nat)
    requires Extensible(s, r) && a != NTE_ADDR
    requires last.Some? ==> last.value < |s.nodes| && s.nodes[last.value].region == r
    ensures var (t, n) := AddAddr(s, r, last, a);
            && Extensible(t, r) && GrowsWithin(s, t, r) && t.entries == s.entries && SameEntryNodes(s, t, r)
            && (n.Some? ==> n.value < |t.nodes| && t.nodes[n.value] == Node(a, r))
            && (last.Some? ==> n.Some? && Linked(t, r, s.nodes[last.value].addr, a))
            && (HasAddr(s, r, a) ==> n.Some?)
            && (forall m :: |s.nodes| <= m < |t.nodes| ==> t.nodes[m].addr == a)
            && (forall e: nat :: |s.edges| <= e < |t.edges| ==> last.Some? && n.Some? && t.edges[e] == Edge(last.value, n.value))
  {
    if last.Some? {
      var (t, n) := NodeFor(s, r, a);
      NodeForExtends(s, r, a);
      LinkToExtends(t, r, last.value, n);
      GrowsWithinTransitive(s, t, LinkTo(t, r, last.value, n), r);
    }
  }

  ghost predicate Pathable(s: State, r: nat, path: seq<nat>) {
    Extensible(s, r) && NonZero(path)
  }

  /** The region after the first `k` addresses of the path, and the last node. */
  function PathTo(s: State, r: nat, path: seq<nat>, k: nat): (res: (State, Option<nat>))
    requires Pathable(s, r, path) && k <= |path|
    ensures Extensible(res.0, r)
    ensures res.1.Some? ==> k > 0 && res.1.value < |res.0.nodes| && res.0.nodes[res.1.value] == Node(path[k - 1], r)
  {
    if k == 0 then (s, None)
    else
      var (t, last) := PathTo(s, r, path, k - 1);
      AddAddrKeeps(t, r, last, path[k - 1]);
      AddAddr(t, r, last, path[k - 1])
  }

  /** The addresses of the path that were not in the region yet. */
  function NewAddrs(s: State, r: nat, path: seq<nat>, k: nat): (new': seq<nat>)
    requires Pathable(s, r, path) && k <= |path|
    ensures NonZero(new')
  {
    if k == 0 then []
    else
      var (t, last) := PathTo(s, r, path, k - 1);
      NewAddrs(s, r, path, k - 1) +
      if last.Some? && GetNode(t, r, path[k - 1], 0).None? then [path[k - 1]] else []
  }

  /** What adding a path that starts inside the region does: the whole path is a
      chain of inner edges, and only addresses of the path are added. */
  ghost predicate PathAdded(s: State, t: State, r: nat, path: seq<nat>, k: nat)
    requires k <= |path|
  {
    && GrowsWithin(s, t, r) && t.entries == s.entries && SameEntryNodes(s, t, r)
    && (forall i: nat :: i + 1 < k ==> LinkedAt(t, r, path, i))
    && (forall m :: |s.nodes| <= m < |t.nodes| ==> t.nodes[m].addr in path)
    && EdgesOnPath(t, path, |s.edges|)
  }

  /** Every edge from `m` on joins two consecutive positions of the path. */
  ghost predicate EdgesOnPath(t: State, path: seq<nat>, m: nat) {
    forall e: nat :: m <= e < |t.edges| ==> OnPath(t, path, e)
  }

  ghost predicate OnPath(t: State, path: seq<nat>, e: nat) {
    exists i: nat :: StepsAt(t, path, i, e)
  }

  ghost predicate StepsAt(t: State, path: seq<nat>, i: nat, e: nat) {
    && i + 1 < |path| && e < |t.edges| && t.edges[e].src < |t.nodes| && t.edges[e].tgt < |t.nodes|
    && t.nodes[t.edges[e].src].addr == path[i] && t.nodes[t.edges[e].tgt].addr == path[i + 1]
  }

  lemma {:induction false} PathToAdds(s: State, r: nat, path: seq<nat>, k: nat)
    requires Pathable(s, r, path) && 0 < k <= |path| && HasAddr(s, r, path[0])
    ensures PathTo(s, r, path, k).1.Some? && PathAdded(s, PathTo(s, r, path, k).0, r, path, k)
  {
    var (t, last) := PathTo(s, r, path, k - 1);
    AddAddrKeeps(t, r, last, path[k - 1]);
    if k > 1 {
      PathToAdds(s, r, path, k - 1);
      PathAddedMore(s, t, r, path, k, last.value);
    }
  }

  lemma PathAddedMore(s: State, t: State, r: nat, path: seq<nat>, k: nat, last: nat)
    requires Inv(s) && Extensible(t, r) && 1 < k <= |path| && path[k - 1] != NTE_ADDR
    requires PathAdded(s, t, r, path, k - 1)
    requires last < |t.nodes| && t.nodes[last] == Node(path[k - 2], r)
    ensures PathAdded(s, AddAddr(t, r, Some(last), path[k - 1]).0, r, path, k)
  {
    var u := AddAddr(t, r, Some(last), path[k - 1]).0;
    AddAddrKeeps(t, r, Some(last), path[k - 1]);
    GrowsWithinTransitive(s, t, u, r);
    LinksMore(t, u, r, path, k);
    EdgesMore(t, u, path, |s.edges|, k - 2);
  }

  lemma LinksMore(t: State, u: State, r: nat, path: seq<nat>, k: nat)
    requires Grows(t, u) && 1 < k <= |path| && Linked(u, r, path[k - 2], path[k - 1])
    requires forall i: nat :: i + 1 < k - 1 ==> LinkedAt(t, r, path, i)
    ensures forall i: nat :: i + 1 < k ==> LinkedAt(u, r, path, i)
  {
    forall i: nat | i + 1 < k ensures LinkedAt(u, r, path, i) {
      if i + 1 < k - 1 {
        assert LinkedAt(t, r, path, i);
        GrowthKeepsLink(t, u, r, path[i], path[i + 1]);
      }
    }
  }

  lemma EdgesMore(t: State, u: State, path: seq<nat>, m: nat, k: nat)
    requires Grows(t, u) && EdgesOnPath(t, path, m)
    requires forall e: nat :: |t.edges| <= e < |u.edges| ==> StepsAt(u, path, k, e)
    ensures EdgesOnPath(u, path, m)
  {
    forall e: nat | m <= e < |u.edges| ensures OnPath(u, path, e) {
      if e < |t.edges| {
        assert OnPath(t, path, e) && u.edges[e] == t.edges[e];
        var i: nat :| StepsAt(t, path, i, e);
        assert StepsAt(u, path, i, e);
      } else {
        assert StepsAt(u, path, k, e);
      }
    }
  }

  lemma GrowthKeepsLink(s: State, t: State, r: nat, a: nat, b: nat)
    requires Grows(s, t) && Linked(s, r, a, b)
    ensures Linked(t, r, a, b)
  {
    var e: nat :| Joins(s, r, a, b, e);
    assert Joins(t, r, a, b, e);
  }

  function Reversed(xs: seq<nat>): (ys: seq<nat>)
    ensures |ys| == |xs|
    ensures forall i :: 0 <= i < |xs| ==> ys[i] == xs[|xs| - 1 - i]
  {
    seq(|xs|, i requires 0 <= i < |xs| => xs[|xs| - 1 - i])
  }

  /** `addNewPath`: the path arrives backwards. */
  method AddNewPath(rain: RAIn, recorder: TraceRecorder, r: nat, newpath: seq<nat>)
    requires rain.Valid() && Pathable(rain.State(), r, Reversed(newpath))
    modifies rain, recorder`recordingBuffer
    ensures rain.Valid() && rain.history == old(rain.history)
    ensures var path := Reversed(newpath);
            && rain.State() == PathTo(old(rain.State()), r, path, |path|).0
            && recorder.recordingBuffer == old(recorder.recordingBuffer) + NewAddrs(old(rain.State()), r, path, |path|)
  {
    hide Consistent, Inv;
    ghost var s := rain.State();
    var path := Reversed(newpath);
    var lastNode: Option<nat> := None;
    var i := 0;
    while i < |path|
      invariant i <= |path| && rain.Valid() && rain.history == old(rain.history)
      invariant (rain.State(), lastNode) == PathTo(s, r, path, i)
      invariant recorder.recordingBuffer == old(recorder.recordingBuffer) + NewAddrs(s, r, path, i)
    {
      lastNode := AddAddrIn(rain, recorder, r, lastNode, path[i]);
      i := i + 1;
    }
  }

  method AddAddrIn(rain: RAIn, recorder: TraceRecorder, r: nat, last: Option<nat>, a: nat) returns (node: Option<nat>)
    requires rain.Valid() && Extensible(rain.State(), r) && a != NTE_ADDR
    requires last.Some? ==> last.value < |rain.nodes| && rain.nodes[last.value].region == r
    modifies rain, recorder`recordingBuffer
    ensures rain.Valid() && rain.history == old(rain.history)
    ensures (rain.State(), node) == AddAddr(old(rain.State()), r, last, a)
    ensures recorder.recordingBuffer == old(recorder.recordingBuffer) +
              if last.Some? && GetNode(old(rain.State()), r, a, 0).None? then [a] else []
  {
    ghost var pick;
    node, pick := rain.GetNode(r, a);
    UniqueGetNode(rain.State(), r, a, pick);
    if last.None? { return; }
    NodeForExtends(rain.State(), r, a);
    if node.None? {
      var n := rain.InsertNewNode(r, a);
      node := Some(n);
      recorder.recordingBuffer := recorder.recordingBuffer + [a];
    }
    LinkIn(rain, r, last.value, node.value);
  }

  // ---------- A newly built region ----------

  /** The first `k` recorded addresses are a chain, and there is nothing else. */
  ghost predicate BuiltChain(s: State, t: State, buffer: seq<nat>, k: nat)
    requires 0 < k <= |buffer|
  {
    var r := |s.regions|;
    && Extensible(t, r) && GrowsWithin(s, t, r)
    && HasAddr(t, r, buffer[0])
    && (forall i: nat :: i + 1 < k ==> LinkedAt(t, r, buffer, i))
    && (forall m :: |s.nodes| <= m < |t.nodes| ==> t.nodes[m].addr in buffer)
  }

  lemma {:induction false} BuildToChains(s: State, buffer: seq<nat>, k: nat)
    requires Inv(s) && 0 < k <= |buffer| && NonZero(buffer)
    ensures BuiltChain(s, BuildTo(s, buffer, k).0, buffer, k)
  {
    if k == 1 {
      FirstChains(s, buffer);
    } else {
      var (t, last) := BuildTo(s, buffer, k - 1);
      BuildToChains(s, buffer, k - 1);
      NextChains(s, t, buffer, k, last.value);
    }
  }

  lemma FirstChains(s: State, buffer: seq<nat>)
    requires Inv(s) && buffer != [] && NonZero(buffer)
    ensures BuiltChain(s, BuildTo(s, buffer, 1).0, buffer, 1)
  {
    var r, c := |s.regions|, CreateRegion(s);
    BuildToWithin(s, buffer, 1);
    CreateRegionInv(s);
    NewRegionIsEmpty(s);
    NodeForUnique(c, r, buffer[0]);
    NodeForInv(c, r, buffer[0]);
    var t := BuildTo(s, buffer, 1).0;
    assert BuildTo(s, buffer, 0) == (c, None);
    assert t.nodes == NodeFor(c, r, buffer[0]).0.nodes && t.edges == s.edges;
    assert t.nodes[|s.nodes|] == Node(buffer[0], r);
    assert Enclosed(t, r);
  }

  lemma NextChains(s: State, t: State, buffer: seq<nat>, k: nat, last: nat)
    requires Inv(s) && 1 < k <= |buffer| && buffer[k - 1] != NTE_ADDR && BuiltChain(s, t, buffer, k - 1)
    requires last < |t.nodes| && t.nodes[last] == Node(buffer[k - 2], |s.regions|)
    ensures BuiltChain(s, Extend(t, |s.regions|, Some(last), buffer[k - 1]).0, buffer, k)
  {
    hide Enclosed, UniqueIn;
    var r := |s.regions|;
    AddAddrKeeps(t, r, Some(last), buffer[k - 1]);
    var u := AddAddr(t, r, Some(last), buffer[k - 1]).0;
    assert u == Extend(t, r, Some(last), buffer[k - 1]).0;
    GrowsWithinTransitive(s, t, u, r);
    LinksMore(t, u, r, buffer, k);
    var n :| 0 <= n < |t.nodes| && t.nodes[n] == Node(buffer[0], r);
    assert u.nodes[n] == Node(buffer[0], r);
  }

  /** A region built from a recording is reachable from its entry. */
  lemma BuiltReachable(s: State, buffer: seq<nat>)
    requires Inv(s) && buffer != [] && NonZero(buffer)
    ensures var t, r := BuildRegion(s, buffer), |s.regions|;
            && Extensible(t, r) && HasAddr(t, r, buffer[0])
            && (forall a :: HasAddr(t, r, a) ==> a in buffer && Reaches(t, r, buffer[0], a))
            && (forall i :: 0 <= i < |buffer| ==> HasAddr(t, r, buffer[i])) && Chain(t, r, buffer)
  {
    var t, r := BuildRegion(s, buffer), |s.regions|;
    var u := BuildTo(s, buffer, |buffer|).0;
    BuildToChains(s, buffer, |buffer|);
    assert t.nodes == u.nodes && t.edges == u.edges;
    forall i: nat | i + 1 < |buffer| ensures LinkedAt(t, r, buffer, i) {
      assert LinkedAt(u, r, buffer, i);
      var e: nat :| Joins(u, r, buffer[i], buffer[i + 1], e);
      assert Joins(t, r, buffer[i], buffer[i + 1], e);
    }
    var n :| 0 <= n < |u.nodes| && u.nodes[n] == Node(buffer[0], r);
    assert t.nodes[n] == Node(buffer[0], r);
    assert Chain(t, r, buffer);
    forall i | 0 <= i < |buffer| ensures HasAddr(t, r, buffer[i]) {
      ChainHas(t, r, buffer, i);
    }
    forall a | HasAddr(t, r, a) ensures a in buffer && Reaches(t, r, buffer[0], a) {
      var m :| 0 <= m < |t.nodes| && t.nodes[m] == Node(a, r);
      assert |s.nodes| <= m;
      var j :| 0 <= j < |buffer| && buffer[j] == a;
      ChainReaches(t, r, buffer, 0, j);
    }
  }

  /** Every edge of it leads from one recorded address to the next. */
  lemma {:induction false} BuildToEdges(s: State, buffer: seq<nat>, k: nat)
    requires Inv(s) && 0 < k <= |buffer| && NonZero(buffer)
    ensures EdgesOnPath(BuildTo(s, buffer, k).0, buffer, |s.edges|)
  {
    hide Inv;
    if k == 1 {
      FirstAlone(s, buffer);
    } else {
      var (t, last) := BuildTo(s, buffer, k - 1);
      BuildToEdges(s, buffer, k - 1);
      BuildToChains(s, buffer, k - 1);
      NextEdge(s, t, buffer, k, last.value);
    }
  }

  lemma FirstAlone(s: State, buffer: seq<nat>)
    requires Inv(s) && buffer != [] && NonZero(buffer)
    ensures BuildTo(s, buffer, 1).0.edges == s.edges
  {
    hide InnerOk, CacheOk, OutsOk, InsOk, Deterministic;
    assert BuildTo(s, buffer, 0) == (CreateRegion(s), None);
    NewRegionIsEmpty(s);
  }

  lemma NextEdge(s: State, t: State, buffer: seq<nat>, k: nat, last: nat)
    requires Inv(s) && 1 < k <= |buffer| && buffer[k - 1] != NTE_ADDR && BuiltChain(s, t, buffer, k - 1)
    requires last < |t.nodes| && t.nodes[last] == Node(buffer[k - 2], |s.regions|) && EdgesOnPath(t, buffer, |s.edges|)
    ensures EdgesOnPath(Extend(t, |s.regions|, Some(last), buffer[k - 1]).0, buffer, |s.edges|)
  {
    hide Enclosed, UniqueIn;
    var r := |s.regions|;
    AddAddrKeeps(t, r, Some(last), buffer[k - 1]);
    var u := AddAddr(t, r, Some(last), buffer[k - 1]).0;
    assert u == Extend(t, r, Some(last), buffer[k - 1]).0;
    EdgesMore(t, u, buffer, |s.edges|, k - 2);
  }

  /** A region built from a recording, written out: its addresses are the recorded ones,
      its edges lead from each to the next, it is entered at the first and left from the
      last. */
  lemma BuiltIs(s: State, buffer: seq<nat>)
    requires Inv(s) && buffer != [] && NonZero(buffer)
    ensures var t, r := BuildRegion(s, buffer), |s.regions|;
            && Chain(t, r, buffer) && EdgesOnPath(t, buffer, |s.edges|) && UniqueIn(t, r)
            && (forall a :: HasAddr(t, r, a) <==> a in buffer)
            && EntersFirst(t, r, buffer) && LeavesLast(t, r, buffer)
  {
    hide Inv, BuildRegion, Chain, UniqueIn, HasAddr, EdgesOnPath, EntersFirst, LeavesLast, Reaches, Enclosed;
    BuiltReachable(s, buffer);
    BuiltEdges(s, buffer);
    BuiltEnds(s, buffer);
    forall a ensures HasAddr(BuildRegion(s, buffer), |s.regions|, a) <==> a in buffer {
      if a in buffer {
        var i :| 0 <= i < |buffer| && buffer[i] == a;
      }
    }
  }

  lemma BuiltEdges(s: State, buffer: seq<nat>)
    requires Inv(s) && buffer != [] && NonZero(buffer)
    ensures EdgesOnPath(BuildRegion(s, buffer), buffer, |s.edges|)
  {
    var t, u := BuildRegion(s, buffer), BuildTo(s, buffer, |buffer|).0;
    BuildToEdges(s, buffer, |buffer|);
    assert t.nodes == u.nodes && t.edges == u.edges;
    hide Inv, BuildTo, BuildRegion;
    forall e: nat | |s.edges| <= e < |t.edges| ensures OnPath(t, buffer, e) {
      assert OnPath(u, buffer, e);
      var i: nat :| StepsAt(u, buffer, i, e);
      assert StepsAt(t, buffer, i, e);
    }
  }

  lemma BuiltEnds(s: State, buffer: seq<nat>)
    requires Inv(s) && buffer != [] && NonZero(buffer)
    ensures EntersFirst(BuildRegion(s, buffer), |s.regions|, buffer) && LeavesLast(BuildRegion(s, buffer), |s.regions|, buffer)
  {
    hide OutsOk, InsOk, InnerOk, CacheOk, Deterministic, EdgesOk;
    BuildToEntryNodes(s, buffer, |buffer|);
    BuildToExitNodes(s, buffer, |buffer|);
    FirstNodeOfRegion(s, buffer);
    var (u, last) := BuildTo(s, buffer, |buffer|);
    var t, r := BuildRegion(s, buffer), |s.regions|;
    assert t.nodes[last.value] == Node(buffer[|buffer| - 1], r);
    assert {} + {last.value} == {last.value};
  }

  ghost predicate EntersFirst(t: State, r: nat, buffer: seq<nat>)
    requires buffer != []
  {
    r < |t.regions| && exists n :: 0 <= n < |t.nodes| && t.nodes[n] == Node(buffer[0], r) && t.regions[r].entryNodes == {n}
  }

  ghost predicate LeavesLast(t: State, r: nat, buffer: seq<nat>)
    requires buffer != []
  {
    r < |t.regions| && exists n :: 0 <= n < |t.nodes| && t.nodes[n] == Node(buffer[|buffer| - 1], r) && t.regions[r].exitNodes == {n}
  }

  lemma {:induction false} BuildToExitNodes(s: State, buffer: seq<nat>, k: nat)
    requires Inv(s) && k <= |buffer| && NonZero(buffer)
    ensures BuildTo(s, buffer, k).0.regions[|s.regions|].exitNodes == {}
  {
    hide NodeFor, InnerOk, CacheOk, Deterministic;
    if k > 0 {
      var (t, last) := BuildTo(s, buffer, k - 1);
      BuildToExitNodes(s, buffer, k - 1);
      ExtendExitNodes(t, |s.regions|, last, buffer[k - 1]);
    }
  }

  lemma ExtendExitNodes(s: State, r: nat, last: Option<nat>, a: nat)
    requires Inv(s) && 0 < r < |s.regions| && a != NTE_ADDR
    requires last.Some? ==> last.value < |s.nodes| && s.nodes[last.value].region == r
    ensures Extend(s, r, last, a).0.regions[r].exitNodes == s.regions[r].exitNodes
  {
    NodeForInv(s, r, a);
    var (t, n) := NodeFor(s, r, a);
    if last.Some? {
      LinkToInv(t, r, last.value, n);
    }
  }

  /** What a path adds to the recording buffer is what it adds to the region, in order. */
  lemma {:induction false} NewAddrsAre(s: State, r: nat, path: seq<nat>, k: nat)
    requires Pathable(s, r, path) && 0 < k <= |path| && HasAddr(s, r, path[0])
    ensures var t, fresh' := PathTo(s, r, path, k).0, NewAddrs(s, r, path, k);
            && s.nodes <= t.nodes && |t.nodes| == |s.nodes| + |fresh'|
            && forall i :: 0 <= i < |fresh'| ==> t.nodes[|s.nodes| + i] == Node(fresh'[i], r)
  {
    hide Inv, Enclosed, UniqueIn, Extensible;
    PathToAdds(s, r, path, k);
    if k > 1 {
      NewAddrsAre(s, r, path, k - 1);
      PathToAdds(s, r, path, k - 1);
    } else {
      assert PathTo(s, r, path, 0) == (s, None) && NewAddrs(s, r, path, 0) == [];
    }
  }
}
