/** The Trace Execution Automaton as a value, and what every operation on it keeps. */
module Tea {
  import opened Wrappers
  import opened EdgeOrder

  /** Node 0 is `nte`, the interpreter; edge 0 is `nte_loop_edge`; region id 0 is
      the null region, which the source reserves for `nte`. */
  const NTE: nat := 0
  const LOOP: nat := 0
  const NO_REGION: nat := 0
  const NTE_ADDR: nat := 0

  /** What a node and an edge are never changes; what they accumulate is kept
      beside them, at the same index. */
  datatype Node = Node(addr: nat, region: nat)
  datatype Edge = Edge(src: nat, tgt: nat)
  datatype Region = Region(nodes: set<nat>, entryNodes: set<nat>, exitNodes: set<nat>,
                           innerEdges: set<nat>, alive: bool, isFromExpansion: bool)

  const EMPTY_REGION := Region({}, {}, {}, {}, true, false)

  datatype State = State(
    nodes: seq<Node>, outs: seq<seq<nat>>, ins: seq<seq<nat>>, nodeFreq: seq<nat>,
    edges: seq<Edge>, edgeFreq: seq<nat>,
    regions: seq<Region>, entries: map<nat, nat>, cache: map<nat, nat>,
    cur: nat, executed: nat, executedExpansion: nat, transitions: nat, expansions: nat)

  /** A fresh automaton. The counter of `nte_loop_edge` is never initialised by
      the source, so it starts at an arbitrary value. */
  function Initial(loopInit: nat): State {
    State([Node(NTE_ADDR, NO_REGION)], [[]], [[]], [0], [Edge(NTE, NTE)], [loopInit],
          [EMPTY_REGION], map[], map[], NTE, 0, 0, 0, 0)
  }

  // ---------- Well-formed automata ----------

  ghost predicate NodesOk(nodes: seq<Node>, regions: seq<Region>) {
    && 0 < |nodes| && 0 < |regions|
    && nodes[NTE].addr == NTE_ADDR && nodes[NTE].region == NO_REGION
    && forall n :: 0 < n < |nodes| ==>
         && nodes[n].addr != NTE_ADDR
         && 0 < nodes[n].region < |regions|
         && n in regions[nodes[n].region].nodes
  }

  ghost predicate RegionOk(nodes: seq<Node>, r: nat, region: Region) {
    && (forall n :: n in region.nodes ==> 0 < n < |nodes| && nodes[n].region == r)
    && region.entryNodes <= region.nodes
    && region.exitNodes <= region.nodes
  }

  ghost predicate RegionsOk(nodes: seq<Node>, regions: seq<Region>) {
    forall r :: 0 <= r < |regions| ==> RegionOk(nodes, r, regions[r])
  }

  ghost predicate EdgesOk(nodes: seq<Node>, edges: seq<Edge>) {
    && 0 < |edges| && edges[LOOP] == Edge(NTE, NTE)
    && forall e :: 0 <= e < |edges| ==> edges[e].src < |nodes| && edges[e].tgt < |nodes|
  }

  /** The list of a node holds exactly the edges that leave it, each once. */
  ghost predicate IsOutList(edges: seq<Edge>, n: nat, list: seq<nat>) {
    Distinct(list) && forall e :: e in list <==> 0 < e < |edges| && edges[e].src == n
  }

  ghost predicate IsInList(edges: seq<Edge>, n: nat, list: seq<nat>) {
    Distinct(list) && forall e :: e in list <==> 0 < e < |edges| && edges[e].tgt == n
  }

  ghost predicate OutsOk(edges: seq<Edge>, outs: seq<seq<nat>>) {
    forall n :: 0 <= n < |outs| ==> IsOutList(edges, n, outs[n])
  }

  ghost predicate InsOk(edges: seq<Edge>, ins: seq<seq<nat>>) {
    forall n :: 0 <= n < |ins| ==> IsInList(edges, n, ins[n])
  }

  /** The address an edge leads to. */
  function TargetAddr(nodes: seq<Node>, edges: seq<Edge>, e: nat): nat {
    if e < |edges| && edges[e].tgt < |nodes| then nodes[edges[e].tgt].addr else NTE_ADDR
  }

  /** No node has two out-edges that lead to the same address. */
  ghost predicate Deterministic(nodes: seq<Node>, edges: seq<Edge>) {
    forall e, f :: 0 < e < f < |edges| && edges[e].src == edges[f].src ==>
      TargetAddr(nodes, edges, e) != TargetAddr(nodes, edges, f)
  }

  /** The cache holds exactly the out-edges of `nte`, keyed by target address. */
  ghost predicate CacheOk(nodes: seq<Node>, edges: seq<Edge>, cache: map<nat, nat>) {
    && (forall a :: a in cache ==>
          && 0 < cache[a] < |edges| && edges[cache[a]].src == NTE
          && TargetAddr(nodes, edges, cache[a]) == a && a != NTE_ADDR)
    && (forall e :: 0 < e < |edges| && edges[e].src == NTE ==>
          TargetAddr(nodes, edges, e) in cache && cache[TargetAddr(nodes, edges, e)] == e)
  }

  ghost predicate EntriesOk(nodes: seq<Node>, entries: map<nat, nat>) {
    forall a :: a in entries ==> 0 < entries[a] < |nodes| && nodes[entries[a]].addr == a
  }

  function RegionOf(nodes: seq<Node>, n: nat): nat {
    if n < |nodes| then nodes[n].region else NO_REGION
  }

  ghost predicate Inside(nodes: seq<Node>, edges: seq<Edge>, r: nat, e: nat) {
    0 < e < |edges| && RegionOf(nodes, edges[e].src) == r && RegionOf(nodes, edges[e].tgt) == r
  }

  /** `region_inner_edges` holds exactly the edges inside the region. */
  ghost predicate InnerOk(nodes: seq<Node>, edges: seq<Edge>, regions: seq<Region>) {
    forall r: nat, e: nat :: 0 < r < |regions| ==> (e in regions[r].innerEdges <==> Inside(nodes, edges, r, e))
  }

  ghost predicate SizesOk(s: State) {
    && |s.outs| == |s.ins| == |s.nodeFreq| == |s.nodes|
    && |s.edgeFreq| == |s.edges|
    && s.cur < |s.nodes|
  }

  ghost predicate Inv(s: State) {
    && SizesOk(s)
    && NodesOk(s.nodes, s.regions)
    && RegionsOk(s.nodes, s.regions)
    && EdgesOk(s.nodes, s.edges)
    && OutsOk(s.edges, s.outs)
    && InsOk(s.edges, s.ins)
    && Deterministic(s.nodes, s.edges)
    && CacheOk(s.nodes, s.edges, s.cache)
    && EntriesOk(s.nodes, s.entries)
    && InnerOk(s.nodes, s.edges, s.regions)
  }

  lemma InitialInv(loopInit: nat)
    ensures Inv(Initial(loopInit))
  {
  }

  // ---------- Lookup ----------

  function Targets(s: State, list: seq<nat>): (keys: seq<nat>)
    ensures |keys| == |list|
    ensures forall i :: 0 <= i < |list| ==> keys[i] == TargetAddr(s.nodes, s.edges, list[i])
  {
    seq(|list|, i requires 0 <= i < |list| => TargetAddr(s.nodes, s.edges, list[i]))
  }

  /** The edge `findOutEdge` returns on node `n`. */
  function FindOut(s: State, n: nat, a: nat): Option<nat>
    requires n < |s.outs|
  {
    var i := IndexOf(Targets(s, s.outs[n]), a);
    if i < |s.outs[n]| then Some(s.outs[n][i]) else None
  }

  /** The state `findOutEdge` leaves: the edge found is at the head of its list. */
  function AfterFindOut(s: State, n: nat, a: nat): State
    requires n < |s.outs|
  {
    var i := IndexOf(Targets(s, s.outs[n]), a);
    if i < |s.outs[n]| then s.(outs := s.outs[n := MoveToFront(s.outs[n], i)]) else s
  }

  /** Edge `e` leads from `n` to address `a`. */
  ghost predicate LeadsTo(s: State, e: nat, n: nat, a: nat) {
    0 < e < |s.edges| && s.edges[e].src == n && TargetAddr(s.nodes, s.edges, e) == a
  }

  ghost predicate HasOut(s: State, n: nat, a: nat) {
    exists e: nat :: LeadsTo(s, e, n, a)
  }

  /** The list lookup returns the one edge of `n` that leads to `a`, exactly when
      there is one. */
  lemma FindOutFinds(s: State, n: nat, a: nat)
    requires Inv(s) && n < |s.nodes|
    ensures FindOut(s, n, a).Some? <==> HasOut(s, n, a)
    ensures FindOut(s, n, a).Some? ==> LeadsTo(s, FindOut(s, n, a).value, n, a)
    ensures forall e: nat :: LeadsTo(s, e, n, a) ==> FindOut(s, n, a) == Some(e)
  {
    var list := s.outs[n];
    var i := IndexOf(Targets(s, list), a);
    if i < |list| {
      assert list[i] in list;
      assert LeadsTo(s, list[i], n, a);
    }
    forall e: nat | LeadsTo(s, e, n, a)
      ensures FindOut(s, n, a) == Some(e)
    {
      assert e in list;
      var j :| 0 <= j < |list| && list[j] == e;
      assert Targets(s, list)[j] == a;
    }
  }

  lemma AfterFindOutInv(s: State, n: nat, a: nat)
    requires Inv(s) && n < |s.nodes|
    ensures Inv(AfterFindOut(s, n, a))
  {
    var list := s.outs[n];
    var i := IndexOf(Targets(s, list), a);
    if i < |list| {
      MoveToFrontDistinct(list, i);
      MoveToFrontSame(list, i);
    }
  }

  lemma MoveToFrontSame(xs: seq<nat>, i: nat)
    requires i < |xs|
    ensures forall x :: x in MoveToFront(xs, i) <==> x in xs
  {
    MoveToFrontPermutes(xs, i);
    forall x ensures x in MoveToFront(xs, i) <==> x in xs {
      assert x in multiset(MoveToFront(xs, i)) <==> x in multiset(xs);
    }
  }

  // ---------- Growing the automaton ----------

  function CreateRegion(s: State): State {
    s.(regions := s.regions + [EMPTY_REGION])
  }

  /** `new Node(a)` followed by `insertNode` into region `r`. */
  function AddNode(s: State, r: nat, a: nat): State
    requires r < |s.regions|
  {
    s.(nodes := s.nodes + [Node(a, r)], outs := s.outs + [[]], ins := s.ins + [[]],
       nodeFreq := s.nodeFreq + [0],
       regions := s.regions[r := s.regions[r].(nodes := s.regions[r].nodes + {|s.nodes|})])
  }

  /** A new edge at the head of both lists. Its counter starts at 1. */
  function LinkEdge(s: State, src: nat, tgt: nat): State
    requires src < |s.outs| && tgt < |s.ins|
  {
    var e := |s.edges|;
    s.(edges := s.edges + [Edge(src, tgt)], edgeFreq := s.edgeFreq + [1],
       outs := s.outs[src := [e] + s.outs[src]],
       ins := s.ins[tgt := [e] + s.ins[tgt]])
  }

  function CreateInnerEdge(s: State, r: nat, src: nat, tgt: nat): State
    requires r < |s.regions| && src < |s.outs| && tgt < |s.ins|
  {
    var t := LinkEdge(s, src, tgt);
    t.(regions := t.regions[r := t.regions[r].(innerEdges := t.regions[r].innerEdges + {|s.edges|})])
  }

  function CreateInterEdge(s: State, src: nat, tgt: nat): State
    requires src < |s.outs| && tgt < |s.ins| && tgt < |s.nodes|
  {
    var t := LinkEdge(s, src, tgt);
    if src == NTE then t.(cache := t.cache[s.nodes[tgt].addr := |s.edges|]) else t
  }

  function SetEntry(s: State, n: nat): State
    requires n < |s.nodes| && s.nodes[n].region < |s.regions|
  {
    var r := s.nodes[n].region;
    s.(entries := s.entries[s.nodes[n].addr := n],
       regions := s.regions[r := s.regions[r].(entryNodes := s.regions[r].entryNodes + {n})])
  }

  function SetExit(s: State, n: nat): State
    requires n < |s.nodes| && s.nodes[n].region < |s.regions|
  {
    var r := s.nodes[n].region;
    s.(regions := s.regions[r := s.regions[r].(exitNodes := s.regions[r].exitNodes + {n})])
  }

  function MarkMerged(s: State, src: nat, tgt: nat): State
    requires src < |s.regions| && tgt < |s.regions|
  {
    var regions := s.regions[tgt := s.regions[tgt].(isFromExpansion := true)];
    s.(regions := regions[src := regions[src].(alive := false)])
  }

  function ReplaceEntryNode(s: State, n: nat): State
    requires n < |s.nodes| && s.nodes[n].region < |s.regions|
  {
    var r := s.nodes[n].region;
    s.(regions := s.regions[r := s.regions[r].(entryNodes := {n})])
  }

  lemma MarkMergedInv(s: State, src: nat, tgt: nat)
    requires Inv(s) && src < |s.regions| && tgt < |s.regions|
    ensures Inv(MarkMerged(s, src, tgt))
  {
  }

  lemma ReplaceEntryNodeInv(s: State, n: nat)
    requires Inv(s) && 0 < n < |s.nodes|
    ensures Inv(ReplaceEntryNode(s, n))
  {
  }

  lemma CreateRegionInv(s: State)
    requires Inv(s)
    ensures Inv(CreateRegion(s))
  {
    assert forall e :: 0 < e < |s.edges| ==> RegionOf(s.nodes, s.edges[e].src) < |s.regions|;
  }

  lemma AddNodeInv(s: State, r: nat, a: nat)
    requires Inv(s) && 0 < r < |s.regions| && a != NTE_ADDR
    ensures Inv(AddNode(s, r, a))
  {
    var t := AddNode(s, r, a);
    assert NodesOk(t.nodes, t.regions);
    assert RegionsOk(t.nodes, t.regions);
    SameTargets(s, t);
  }

  /** Targets and regions of old edges do not depend on what was added. */
  lemma SameTargets(s: State, t: State)
    requires EdgesOk(s.nodes, s.edges)
    requires s.nodes <= t.nodes && s.edges <= t.edges
    ensures forall e: nat :: e < |s.edges| ==>
              && t.edges[e] == s.edges[e]
              && TargetAddr(t.nodes, t.edges, e) == TargetAddr(s.nodes, s.edges, e)
              && RegionOf(t.nodes, s.edges[e].src) == RegionOf(s.nodes, s.edges[e].src)
              && RegionOf(t.nodes, s.edges[e].tgt) == RegionOf(s.nodes, s.edges[e].tgt)
  {
  }

  lemma LinkedLists(s: State, src: nat, tgt: nat)
    requires Inv(s) && src < |s.nodes| && tgt < |s.nodes|
    ensures var t := LinkEdge(s, src, tgt); OutsOk(t.edges, t.outs) && InsOk(t.edges, t.ins)
  {
    var t := LinkEdge(s, src, tgt);
    var e := |s.edges|;
    forall n | 0 <= n < |t.outs| ensures IsOutList(t.edges, n, t.outs[n]) {
      assert IsOutList(s.edges, n, s.outs[n]);
      assert e !in s.outs[n];
    }
    forall n | 0 <= n < |t.ins| ensures IsInList(t.edges, n, t.ins[n]) {
      assert IsInList(s.edges, n, s.ins[n]);
      assert e !in s.ins[n];
    }
  }

  lemma LinkedInner(s: State, src: nat, tgt: nat)
    requires Inv(s) && src < |s.nodes| && tgt < |s.nodes|
    requires s.nodes[src].region != s.nodes[tgt].region
    ensures var t := LinkEdge(s, src, tgt); InnerOk(t.nodes, t.edges, t.regions)
  {
    var t := LinkEdge(s, src, tgt);
    forall r: nat, e: nat | 0 < r < |t.regions|
      ensures e in t.regions[r].innerEdges <==> Inside(t.nodes, t.edges, r, e)
    {
      assert Inside(t.nodes, t.edges, r, e) <==> Inside(s.nodes, s.edges, r, e);
    }
  }

  lemma LinkedDeterministic(s: State, src: nat, tgt: nat)
    requires Inv(s) && src < |s.nodes| && tgt < |s.nodes|
    requires !HasOut(s, src, s.nodes[tgt].addr)
    ensures var t := LinkEdge(s, src, tgt); Deterministic(t.nodes, t.edges)
  {
    var t := LinkEdge(s, src, tgt);
    forall e, f | 0 < e < f < |t.edges| && t.edges[e].src == t.edges[f].src
      ensures TargetAddr(t.nodes, t.edges, e) != TargetAddr(t.nodes, t.edges, f)
    {
      assert TargetAddr(t.nodes, t.edges, e) == TargetAddr(s.nodes, s.edges, e);
      if f < |s.edges| {
        assert TargetAddr(t.nodes, t.edges, f) == TargetAddr(s.nodes, s.edges, f);
      } else {
        assert !LeadsTo(s, e, src, s.nodes[tgt].addr);
      }
    }
  }

  /** The guard of every edge creation: without it the new edge would be a
      second way to the same address. */
  lemma CreateInnerEdgeInv(s: State, r: nat, src: nat, tgt: nat)
    requires Inv(s) && 0 < r < |s.regions| && src < |s.nodes| && tgt < |s.nodes|
    requires s.nodes[src].region == r == s.nodes[tgt].region
    requires !HasOut(s, src, s.nodes[tgt].addr)
    ensures Inv(CreateInnerEdge(s, r, src, tgt))
  {
    LinkedLists(s, src, tgt);
    LinkedDeterministic(s, src, tgt);
    SameTargets(s, CreateInnerEdge(s, r, src, tgt));
  }

  lemma LinkedCache(s: State, src: nat, tgt: nat)
    requires Inv(s) && src < |s.nodes| && 0 < tgt < |s.nodes|
    requires !HasOut(s, src, s.nodes[tgt].addr)
    ensures var t := CreateInterEdge(s, src, tgt); CacheOk(t.nodes, t.edges, t.cache)
  {
    hide InnerOk, RegionsOk, OutsOk, InsOk, Deterministic;
    var t := CreateInterEdge(s, src, tgt);
    var a := s.nodes[tgt].addr;
    SameTargets(s, t);
    assert a in s.cache ==> LeadsTo(s, s.cache[a], NTE, a);
  }

  lemma CreateInterEdgeInv(s: State, src: nat, tgt: nat)
    requires Inv(s) && src < |s.nodes| && tgt < |s.nodes|
    requires s.nodes[src].region != s.nodes[tgt].region
    requires !HasOut(s, src, s.nodes[tgt].addr)
    ensures Inv(CreateInterEdge(s, src, tgt))
  {
    LinkedLists(s, src, tgt);
    LinkedDeterministic(s, src, tgt);
    LinkedInner(s, src, tgt);
    if tgt != NTE {
      LinkedCache(s, src, tgt);
    }
    assert EdgesOk(s.nodes, LinkEdge(s, src, tgt).edges);
    assert forall e: nat :: e < |s.edges| ==> TargetAddr(s.nodes, LinkEdge(s, src, tgt).edges, e) == TargetAddr(s.nodes, s.edges, e);
  }

  lemma SetEntryInv(s: State, n: nat)
    requires Inv(s) && 0 < n < |s.nodes|
    ensures Inv(SetEntry(s, n))
  {
  }

  lemma SetExitInv(s: State, n: nat)
    requires Inv(s) && 0 < n < |s.nodes|
    ensures Inv(SetExit(s, n))
  {
  }

  // ---------- Transitions ----------

  function FirstNode(s: State, r: nat, a: nat, k: nat): (n: Option<nat>)
    requires k <= |s.nodes|
    ensures n.Some? ==> n.value < |s.nodes| && s.nodes[n.value] == Node(a, r)
    ensures n.None? ==> forall i :: k <= i < |s.nodes| ==> s.nodes[i] != Node(a, r)
    decreases |s.nodes| - k
  {
    if k == |s.nodes| then None
    else if s.nodes[k] == Node(a, r) then Some(k)
    else FirstNode(s, r, a, k + 1)
  }

  /** `getNode(a)` on region `r`. The source scans a set ordered by pointer, so
      when several nodes of the region share the address any of them may come
      first: `pick` says which. */
  function GetNode(s: State, r: nat, a: nat, pick: nat): (n: Option<nat>)
    ensures n.Some? ==> n.value < |s.nodes| && s.nodes[n.value] == Node(a, r)
    ensures n.None? ==> forall i :: 0 <= i < |s.nodes| ==> s.nodes[i] != Node(a, r)
  {
    if pick < |s.nodes| && s.nodes[pick] == Node(a, r) then Some(pick) else FirstNode(s, r, a, 0)
  }

  function QueryNext(s: State, a: nat): Option<nat>
    requires s.cur < |s.outs|
  {
    if s.cur == NTE then
      if a in s.cache then Some(s.cache[a])
      else if a in s.entries then None
      else Some(LOOP)
    else FindOut(s, s.cur, a)
  }

  function AfterQuery(s: State, a: nat): State
    requires s.cur < |s.outs|
  {
    if s.cur == NTE then s else AfterFindOut(s, s.cur, a)
  }

  /** The edge `findOutEdge(nte)` finds by pointer: there is at most one. */
  function FindOutTo(s: State, n: nat, tgt: nat, k: nat): (e: Option<nat>)
    requires n < |s.outs| && k <= |s.outs[n]|
    ensures e.Some? ==> e.value in s.outs[n] && e.value < |s.edges| && s.edges[e.value].tgt == tgt
    ensures e.None? ==> forall i :: k <= i < |s.outs[n]| && s.outs[n][i] < |s.edges| ==> s.edges[s.outs[n][i]].tgt != tgt
    decreases |s.outs[n]| - k
  {
    if k == |s.outs[n]| then None
    else if s.outs[n][k] < |s.edges| && s.edges[s.outs[n][k]].tgt == tgt then Some(s.outs[n][k])
    else FindOutTo(s, n, tgt, k + 1)
  }

  /** Where a missing transition leads: the region entry with the address, else a
      node of the same region with the address, else `nte`. */
  function NextNode(s: State, a: nat, pick: nat): nat
    requires Inv(s)
  {
    if a in s.entries then s.entries[a]
    else
      var n := GetNode(s, s.nodes[s.cur].region, a, pick);
      if n.Some? && s.cur != NTE then n.value else NTE
  }

  /** `addNext`: the new edge, or the edge back to `nte` when there is one. */
  function AddNext(s: State, a: nat, pick: nat): (State, nat)
    requires Inv(s) && QueryNext(s, a).None?
  {
    var tgt := NextNode(s, a, pick);
    var back := FindOutTo(s, s.cur, NTE, 0);
    var r := s.nodes[s.cur].region;
    if tgt == NTE && back.Some? then (s, back.value)
    else if r == s.nodes[tgt].region then (CreateInnerEdge(s, r, s.cur, tgt), |s.edges|)
    else (CreateInterEdge(s, s.cur, tgt), |s.edges|)
  }

  function ExecuteEdge(s: State, e: nat): State
    requires e < |s.edges| && s.edges[e].tgt < |s.nodes| && SizesOk(s)
  {
    var src, tgt := s.edges[e].src, s.edges[e].tgt;
    var r, q := RegionOf(s.nodes, src), RegionOf(s.nodes, tgt);
    s.(cur := tgt,
       edgeFreq := s.edgeFreq[e := s.edgeFreq[e] + 1],
       nodeFreq := s.nodeFreq[tgt := s.nodeFreq[tgt] + 1],
       executed := s.executed + 1,
       executedExpansion := if q != NO_REGION && q < |s.regions| && s.regions[q].isFromExpansion
         then s.executedExpansion + 1 else s.executedExpansion,
       transitions := if r != NO_REGION && q != NO_REGION && r != q then s.transitions + 1 else s.transitions)
  }

  /** The edge one trace item follows, and the automaton just before it is executed. */
  function Resolve(s: State, a: nat, pick: nat): (State, nat)
    requires Inv(s)
  {
    var e := QueryNext(s, a);
    if e.Some? then (AfterQuery(s, a), e.value) else AddNext(s, a, pick)
  }

  lemma QueryNextFinds(s: State, a: nat)
    requires Inv(s) && a != NTE_ADDR
    ensures QueryNext(s, a).Some? && QueryNext(s, a).value != LOOP ==> LeadsTo(s, QueryNext(s, a).value, s.cur, a)
    ensures HasOut(s, s.cur, a) ==> QueryNext(s, a).Some? && QueryNext(s, a).value != LOOP
    ensures QueryNext(s, a) == Some(LOOP) <==> s.cur == NTE && !HasOut(s, NTE, a) && a !in s.entries
    ensures Inv(AfterQuery(s, a))
  {
    if s.cur == NTE {
      assert a in s.cache ==> LeadsTo(s, s.cache[a], NTE, a);
      assert forall e: nat :: LeadsTo(s, e, NTE, a) ==> a in s.cache;
    } else {
      FindOutFinds(s, s.cur, a);
      AfterFindOutInv(s, s.cur, a);
    }
  }

  lemma NoEdgeToNte(s: State, n: nat)
    requires Inv(s) && n < |s.nodes| && FindOutTo(s, n, NTE, 0).None?
    ensures !HasOut(s, n, NTE_ADDR)
  {
    assert forall e: nat :: 0 < e < |s.edges| && s.edges[e].src == n ==> e in s.outs[n];
  }

  /** The regions differ in nothing but their inner edges. */
  ghost predicate SameMembers(a: seq<Region>, b: seq<Region>) {
    |a| == |b| && forall r :: 0 <= r < |a| ==> b[r] == a[r].(innerEdges := b[r].innerEdges)
  }

  /** `addNext` never makes a second edge to an address. */
  lemma AddNextGuard(s: State, a: nat, pick: nat)
    requires Inv(s) && a != NTE_ADDR && QueryNext(s, a).None?
    ensures var tgt := NextNode(s, a, pick);
            && tgt < |s.nodes| && (s.cur == NTE ==> tgt != NTE)
            && ((tgt == NTE && FindOutTo(s, s.cur, NTE, 0).Some?) || !HasOut(s, s.cur, s.nodes[tgt].addr))
            && (s.cur != NTE ==> 0 < s.nodes[s.cur].region < |s.regions|)
  {
    QueryNextFinds(s, a);
    if NextNode(s, a, pick) == NTE && FindOutTo(s, s.cur, NTE, 0).None? {
      NoEdgeToNte(s, s.cur);
    }
  }

  lemma AddNextInv(s: State, a: nat, pick: nat)
    requires Inv(s) && a != NTE_ADDR && QueryNext(s, a).None?
    ensures var (t, e) := AddNext(s, a, pick);
            && Inv(t) && 0 < e < |t.edges| && t.edges[e] == Edge(s.cur, NextNode(s, a, pick))
            && t.cur == s.cur && s.nodes == t.nodes && SameMembers(s.regions, t.regions) && t.entries == s.entries
  {
    AddNextGuard(s, a, pick);
    var tgt := NextNode(s, a, pick);
    var back := FindOutTo(s, s.cur, NTE, 0);
    var r := s.nodes[s.cur].region;
    if tgt == NTE && back.Some? {
      assert back.value in s.outs[s.cur];
    } else if r == s.nodes[tgt].region {
      CreateInnerEdgeInv(s, r, s.cur, tgt);
    } else {
      CreateInterEdgeInv(s, s.cur, tgt);
    }
  }

  /** The edge followed always leaves the current node and leads to `nte` or to a
      node with the address of the trace item. */
  lemma ResolveInv(s: State, a: nat, pick: nat)
    requires Inv(s) && a != NTE_ADDR
    ensures var (t, e) := Resolve(s, a, pick);
            && Inv(t) && e < |t.edges| && t.edges[e].src == s.cur == t.cur
            && (t.edges[e].tgt == NTE || t.nodes[t.edges[e].tgt].addr == a)
            && t.nodes == s.nodes && SameMembers(s.regions, t.regions) && t.entries == s.entries
  {
    QueryNextFinds(s, a);
    if QueryNext(s, a).None? {
      AddNextInv(s, a, pick);
    }
  }

  lemma ExecuteInv(s: State, e: nat)
    requires Inv(s) && e < |s.edges|
    ensures Inv(ExecuteEdge(s, e))
  {
  }

  /** One trace item: `queryNext`, then `addNext` if there is no edge, then `executeEdge`. */
  function Step(s: State, a: nat, pick: nat): (t: State)
    requires Inv(s) && a != NTE_ADDR
    ensures Inv(t)
  {
    ResolveInv(s, a, pick);
    var (t, e) := Resolve(s, a, pick);
    ExecuteEdge(t, e)
  }

  /** The transition function the automaton implements, with no edge lists, no
      cache and no lazily created edge: follow the out-edge with the address, else
      go to the region entry, else to a node of the same region, else to `nte`. */
  ghost function SimpleNext(s: State, a: nat, pick: nat): nat
    requires Inv(s)
  {
    if e: nat :| LeadsTo(s, e, s.cur, a) then s.edges[e].tgt
    else NextNode(s, a, pick)
  }

  /** An existing edge is followed, and there is no other to the address. */
  lemma FollowsEdge(s: State, a: nat, pick: nat)
    requires Inv(s) && a != NTE_ADDR && HasOut(s, s.cur, a)
    ensures QueryNext(s, a).Some? && LeadsTo(s, QueryNext(s, a).value, s.cur, a)
    ensures forall e: nat :: LeadsTo(s, e, s.cur, a) ==> e == QueryNext(s, a).value
  {
    hide InnerOk, RegionsOk, IsOutList;
    QueryNextFinds(s, a);
    FindOutFinds(s, s.cur, a);
  }

  /** `nte` stays where it is only when nothing starts at the address. */
  lemma StaysAtNte(s: State, a: nat, pick: nat)
    requires Inv(s) && a != NTE_ADDR && QueryNext(s, a) == Some(LOOP)
    ensures s.cur == NTE && !HasOut(s, NTE, a) && a !in s.entries && NextNode(s, a, pick) == NTE
  {
    hide InnerOk, RegionsOk, OutsOk, InsOk;
    QueryNextFinds(s, a);
  }

  /** The edge that a trace item follows leads where the simple transition does, and
      to `nte` only when there is neither an edge nor an entry for the address. */
  lemma ResolveTarget(s: State, a: nat, pick: nat)
    requires Inv(s) && a != NTE_ADDR
    ensures var (t, e) := Resolve(s, a, pick);
            && e < |t.edges| && t.edges[e].tgt == SimpleNext(s, a, pick)
            && (t.edges[e].tgt == NTE ==> a !in s.entries && !HasOut(s, s.cur, a))
  {
    hide InnerOk, RegionsOk, OutsOk, InsOk, Deterministic, AddNext;
    if HasOut(s, s.cur, a) {
      FollowsEdge(s, a, pick);
    } else {
      QueryNextFinds(s, a);
      if QueryNext(s, a).None? {
        AddNextInv(s, a, pick);
      } else {
        StaysAtNte(s, a, pick);
      }
    }
  }

  /** The concrete automaton takes exactly the simple transition. */
  lemma StepRefines(s: State, a: nat, pick: nat)
    requires Inv(s) && a != NTE_ADDR
    ensures Step(s, a, pick).cur == SimpleNext(s, a, pick)
    ensures Step(s, a, pick).cur == NTE || s.nodes[Step(s, a, pick).cur].addr == a
    ensures Step(s, a, pick).cur == NTE ==> a !in s.entries && !HasOut(s, s.cur, a)
  {
    hide Inv, Resolve, HasOut, SimpleNext;
    ResolveInv(s, a, pick);
    ResolveTarget(s, a, pick);
  }

  /** Node `n` has the address and is in the region of the current node. */
  ghost predicate InSameRegion(s: State, a: nat, n: nat)
    requires s.cur < |s.nodes|
  {
    n < |s.nodes| && s.nodes[n] == Node(a, s.nodes[s.cur].region)
  }

  /** Where an edge that is added leads, when there was none: to the registered entry; without
      an entry to a node of the same region; else to `nte`. */
  ghost predicate LeadsOn(s: State, a: nat, n: nat)
    requires s.cur < |s.nodes|
  {
    if a in s.entries then n == s.entries[a]
    else if exists m :: InSameRegion(s, a, m) then InSameRegion(s, a, n)
    else n == NTE
  }

  lemma AddNextLeads(s: State, a: nat, pick: nat)
    requires Inv(s) && a != NTE_ADDR && QueryNext(s, a).None?
    ensures var (t, e) := AddNext(s, a, pick);
            && e < |t.edges| && t.edges[e].src == s.cur && LeadsOn(s, a, t.edges[e].tgt)
            && (t.edges == s.edges || t.edges == s.edges + [t.edges[e]])
  {
    AddNextInv(s, a, pick);
    QueryNextFinds(s, a);
    hide InnerOk, RegionsOk, OutsOk, InsOk, CacheOk, Deterministic;
  }

  /** Where a trace item leads, case by case: along the edge there is; without one to the
      registered entry; without an entry to a node of the same region; else to `nte`. */
  lemma StepLeads(s: State, a: nat, pick: nat)
    requires Inv(s) && a != NTE_ADDR
    ensures var n := Step(s, a, pick).cur;
            && (forall e: nat :: LeadsTo(s, e, s.cur, a) ==> n == s.edges[e].tgt)
            && (!HasOut(s, s.cur, a) && a in s.entries ==> n == s.entries[a])
            && (!HasOut(s, s.cur, a) && a !in s.entries && (exists m :: InSameRegion(s, a, m)) ==> InSameRegion(s, a, n))
            && (!HasOut(s, s.cur, a) && a !in s.entries && (forall m :: !InSameRegion(s, a, m)) ==> n == NTE)
  {
    StepRefines(s, a, pick);
    if e: nat :| LeadsTo(s, e, s.cur, a) {
      OneWay(s, s.cur, a);
    }
    hide InnerOk, RegionsOk, OutsOk, InsOk, CacheOk, Deterministic, Step;
  }

  lemma OneWay(s: State, n: nat, a: nat)
    requires Inv(s) && n < |s.nodes|
    ensures forall e: nat, f: nat :: LeadsTo(s, e, n, a) && LeadsTo(s, f, n, a) ==> e == f
  {
    hide InnerOk, RegionsOk, OutsOk, InsOk, CacheOk, NodesOk;
    forall e: nat, f: nat | LeadsTo(s, e, n, a) && LeadsTo(s, f, n, a) ensures e == f {
      assert e < f ==> TargetAddr(s.nodes, s.edges, e) != TargetAddr(s.nodes, s.edges, f);
    }
  }

  /** The edge a trace item follows is there afterwards, and no other is new. */
  lemma StepEdge(s: State, a: nat, pick: nat)
    requires Inv(s) && a != NTE_ADDR
    ensures var t, e := Step(s, a, pick), Resolve(s, a, pick).1;
            && e < |t.edges| && t.edges[e] == Edge(s.cur, t.cur) && t.nodes == s.nodes
            && (t.edges == s.edges || (e == |s.edges| && t.edges == s.edges + [Edge(s.cur, t.cur)]))
            && (HasOut(s, s.cur, a) ==> t.edges == s.edges)
  {
    hide InnerOk, RegionsOk, CacheOk;
    ResolveInv(s, a, pick);
    QueryNextFinds(s, a);
    if QueryNext(s, a).None? {
      AddNextInv(s, a, pick);
    }
  }

  /** An item executed in a region that has absorbed another counts as expansion. */
  lemma StepCountsExpansion(s: State, a: nat, pick: nat)
    requires Inv(s) && a != NTE_ADDR
    ensures var t := Step(s, a, pick);
            t.cur < |s.nodes| && s.nodes[t.cur].region < |s.regions| &&
            t.executedExpansion == s.executedExpansion +
              if t.cur != NTE && s.regions[s.nodes[t.cur].region].isFromExpansion then 1 else 0
  {
    hide InnerOk, RegionsOk, CacheOk, OutsOk, InsOk, Deterministic;
    ResolveInv(s, a, pick);
    StepSameExpansion(s, a, pick);
  }

  lemma StepSameExpansion(s: State, a: nat, pick: nat)
    requires Inv(s) && a != NTE_ADDR
    ensures Resolve(s, a, pick).0.executedExpansion == s.executedExpansion
  {
    hide Inv;
  }

  /** What a trace item adds to the other counters. */
  lemma StepCounts(s: State, a: nat, pick: nat)
    requires Inv(s) && a != NTE_ADDR
    ensures var t, e := Step(s, a, pick), Resolve(s, a, pick).1;
            && |t.nodeFreq| == |s.nodeFreq| && |t.edgeFreq| == |t.edges| && t.cur < |s.nodes|
            && t.executed == s.executed + 1
            && t.transitions == s.transitions +
                 (if s.cur != NTE && t.cur != NTE && s.nodes[s.cur].region != s.nodes[t.cur].region then 1 else 0)
            && (forall n :: 0 <= n < |s.nodeFreq| ==> t.nodeFreq[n] == s.nodeFreq[n] + if n == t.cur then 1 else 0)
            && (forall f :: 0 <= f < |t.edges| ==>
                  t.edgeFreq[f] == (if f < |s.edges| then s.edgeFreq[f] else 1) + if f == e then 1 else 0)
  {
    ResolveInv(s, a, pick);
    ResolveCounts(s, a, pick);
    hide OutsOk, InsOk, InnerOk, CacheOk, Deterministic, RegionsOk, Resolve, EntriesOk;
  }

  lemma ResolveCounts(s: State, a: nat, pick: nat)
    requires Inv(s) && a != NTE_ADDR
    ensures var t := Resolve(s, a, pick).0;
            && t.executed == s.executed && t.transitions == s.transitions && t.nodeFreq == s.nodeFreq
            && |s.edges| <= |t.edges| && |t.edgeFreq| == |t.edges|
            && forall f :: 0 <= f < |t.edges| ==> t.edgeFreq[f] == if f < |s.edges| then s.edgeFreq[f] else 1
  {
    ResolveInv(s, a, pick);
    hide OutsOk, InsOk, InnerOk, CacheOk, Deterministic, RegionsOk, EntriesOk, NodesOk;
  }
}
