/** Conservation laws: what the counters of the automaton mean, over every run. */
module Flow {
  import opened EdgeOrder
  import opened Tea

  /** One executed edge: its nodes and the regions they belong to. */
  datatype Hop = Hop(edge: nat, src: nat, tgt: nat, from: nat, into: nat)

  /** What a counter counts. */
  datatype Kind =
    | Along(edge: nat)
    | Among(list: seq<nat>)
    | Into(node: nat)
    | OutOf(node: nat)
    | Entering(region: nat)
    | Leaving(region: nat)
    | Crossing

  predicate Is(k: Kind, hop: Hop) {
    match k
    case Along(e) => hop.edge == e
    case Among(list) => hop.edge in list
    case Into(n) => hop.tgt == n
    case OutOf(n) => hop.src == n
    case Entering(r) => hop.into == r && hop.from != r
    case Leaving(r) => hop.from == r && hop.into != r
    case Crossing => hop.from != NO_REGION && hop.into != NO_REGION && hop.from != hop.into
  }

  function Tally(h: seq<Hop>, k: Kind): nat {
    if h == [] then 0
    else Tally(h[..|h| - 1], k) + if Is(k, h[|h| - 1]) then 1 else 0
  }

  lemma TallyAppend(h: seq<Hop>, hop: Hop, k: Kind)
    ensures Tally(h + [hop], k) == Tally(h, k) + if Is(k, hop) then 1 else 0
  {
    assert (h + [hop])[..|h|] == h;
  }

  function Last(h: seq<Hop>): nat {
    if h == [] then NTE else h[|h| - 1].tgt
  }

  function LastRegion(h: seq<Hop>): nat {
    if h == [] then NO_REGION else h[|h| - 1].into
  }

  // ---------- The automaton agrees with the edges executed so far ----------

  /** Every hop starts where the one before it ended; the first starts at `nte`. */
  ghost predicate Walk(h: seq<Hop>) {
    forall i :: 0 <= i < |h| ==> h[i].src == Last(h[..i]) && h[i].from == LastRegion(h[..i])
  }

  ghost predicate HopOf(s: State, hop: Hop) {
    && hop.edge < |s.edges| && s.edges[hop.edge] == Edge(hop.src, hop.tgt)
    && hop.src < |s.nodes| && hop.from == s.nodes[hop.src].region
    && hop.tgt < |s.nodes| && hop.into == s.nodes[hop.tgt].region
  }

  ghost predicate HopsOf(s: State, h: seq<Hop>) {
    forall i :: 0 <= i < |h| ==> HopOf(s, h[i])
  }

  /** A counter of an edge starts at 1, except that of `nte_loop_edge`, which
      starts wherever it happens to start. */
  function Base(e: nat, loopInit: nat): nat {
    if e == LOOP then loopInit else 1
  }

  /** Every counter is that of the history. */
  ghost predicate Counts(s: State, h: seq<Hop>, loopInit: nat) {
    && HopsOf(s, h) && s.cur == Last(h)
    && |s.edgeFreq| == |s.edges| && |s.nodeFreq| == |s.nodes|
    && (forall e :: 0 <= e < |s.edges| ==> s.edgeFreq[e] == Base(e, loopInit) + Tally(h, Along(e)))
    && (forall n :: 0 <= n < |s.nodes| ==> s.nodeFreq[n] == Tally(h, Into(n)))
    && s.executed == |h|
    && s.transitions == Tally(h, Crossing)
  }

  /** And the history is a walk. */
  ghost predicate Consistent(s: State, h: seq<Hop>, loopInit: nat) {
    Walk(h) && Counts(s, h, loopInit)
  }

  /** `t` is `s` with nodes, edges, regions, entries or exits added, none executed. */
  ghost predicate Grows(s: State, t: State) {
    && s.nodes <= t.nodes && s.edges <= t.edges
    && |s.nodeFreq| == |s.nodes| && |t.nodeFreq| == |t.nodes|
    && |s.edgeFreq| == |s.edges| && |t.edgeFreq| == |t.edges|
    && (forall n :: 0 <= n < |t.nodes| ==> t.nodeFreq[n] == if n < |s.nodes| then s.nodeFreq[n] else 0)
    && (forall e :: 0 <= e < |t.edges| ==> t.edgeFreq[e] == if e < |s.edges| then s.edgeFreq[e] else 1)
    && t.cur == s.cur && t.executed == s.executed && t.transitions == s.transitions
  }

  lemma GrowsTransitive(s: State, t: State, u: State)
    requires Grows(s, t) && Grows(t, u)
    ensures Grows(s, u)
  {
  }

  lemma GrowsItself(s: State)
    requires Inv(s)
    ensures Grows(s, s)
  {
  }

  lemma InitialConsistent(loopInit: nat)
    ensures Consistent(Initial(loopInit), [], loopInit)
  {
  }

  /** A count of something no hop does is zero. */
  lemma {:induction false} TallyNone(h: seq<Hop>, k: Kind)
    requires forall i :: 0 <= i < |h| ==> !Is(k, h[i])
    ensures Tally(h, k) == 0
  {
    if h != [] {
      TallyNone(h[..|h| - 1], k);
    }
  }

  lemma GrowthConsistent(s: State, t: State, h: seq<Hop>, loopInit: nat)
    requires Consistent(s, h, loopInit) && Grows(s, t) && 0 < |s.edges|
    ensures Consistent(t, h, loopInit)
  {
    forall e | |s.edges| <= e < |t.edges| ensures Tally(h, Along(e)) == 0 {
      TallyNone(h, Along(e));
    }
    forall n | |s.nodes| <= n < |t.nodes| ensures Tally(h, Into(n)) == 0 {
      TallyNone(h, Into(n));
    }
    forall i | 0 <= i < |h| ensures HopOf(t, h[i]) {
      assert HopOf(s, h[i]);
    }
  }

  function HopAlong(s: State, e: nat): Hop
    requires e < |s.edges| && s.edges[e].src < |s.nodes| && s.edges[e].tgt < |s.nodes|
  {
    var src, tgt := s.edges[e].src, s.edges[e].tgt;
    Hop(e, src, tgt, s.nodes[src].region, s.nodes[tgt].region)
  }

  /** Executing any edge counts it, also one that does not leave the current node. */
  lemma ExecuteCounts(s: State, e: nat, h: seq<Hop>, loopInit: nat)
    requires Inv(s) && Counts(s, h, loopInit) && e < |s.edges|
    ensures Counts(ExecuteEdge(s, e), h + [HopAlong(s, e)], loopInit)
  {
    hide RegionsOk, OutsOk, InsOk, Deterministic, CacheOk, EntriesOk, InnerOk;
    var hop := HopAlong(s, e);
    var t, g := ExecuteEdge(s, e), h + [hop];
    forall k ensures Tally(g, k) == Tally(h, k) + if Is(k, hop) then 1 else 0 {
      TallyAppend(h, hop, k);
    }
    forall i | 0 <= i < |g| ensures HopOf(t, g[i]) {
      assert i < |h| ==> HopOf(s, h[i]);
    }
  }

  /** The history stays a walk when the edge leaves the current node. */
  lemma ExecuteWalks(s: State, e: nat, h: seq<Hop>)
    requires Inv(s) && Walk(h) && HopsOf(s, h) && s.cur == Last(h) && e < |s.edges| && s.edges[e].src == s.cur
    ensures Walk(h + [HopAlong(s, e)])
  {
    hide RegionsOk, OutsOk, InsOk, Deterministic, CacheOk, EntriesOk, InnerOk;
    var g := h + [HopAlong(s, e)];
    assert h != [] ==> HopOf(s, h[|h| - 1]);
    forall i | 0 <= i < |g| ensures g[i].src == Last(g[..i]) && g[i].from == LastRegion(g[..i]) {
      assert g[..i] == h[..i];
      assert i == |h| ==> g[..i] == h;
    }
  }

  lemma ExecuteConsistent(s: State, e: nat, h: seq<Hop>, loopInit: nat)
    requires Inv(s) && Consistent(s, h, loopInit) && e < |s.edges| && s.edges[e].src == s.cur
    ensures Consistent(ExecuteEdge(s, e), h + [HopAlong(s, e)], loopInit)
  {
    hide Inv, Walk, HopsOf;
    ExecuteCounts(s, e, h, loopInit);
    ExecuteWalks(s, e, h);
  }

  lemma LinkGrows(s: State, src: nat, tgt: nat)
    requires Inv(s) && src < |s.nodes| && tgt < |s.nodes|
    ensures Grows(s, LinkEdge(s, src, tgt))
  {
  }

  lemma ResolveGrows(s: State, a: nat, pick: nat)
    requires Inv(s) && a != NTE_ADDR
    ensures Grows(s, Resolve(s, a, pick).0)
  {
    if QueryNext(s, a).None? {
      LinkGrows(s, s.cur, NextNode(s, a, pick));
    } else {
      assert AfterQuery(s, a) == s.(outs := AfterQuery(s, a).outs);
    }
  }

  // ---------- Runs ----------

  /** A move of the automaton: a trace item, or growth that keeps it well formed. */
  ghost predicate Next(s: State, t: State) {
    || (Inv(s) && exists a: nat, pick: nat :: a != NTE_ADDR && t == Step(s, a, pick))
    || (Grows(s, t) && Inv(t))
  }

  ghost predicate IsRun(states: seq<State>, loopInit: nat) {
    && states != [] && states[0] == Initial(loopInit)
    && forall i :: 0 <= i < |states| - 1 ==> Next(states[i], states[i + 1])
  }

  /** The hop one trace item takes. */
  function StepHop(s: State, a: nat, pick: nat): Hop
    requires Inv(s) && a != NTE_ADDR
  {
    ResolveInv(s, a, pick);
    var (t, e) := Resolve(s, a, pick);
    HopAlong(t, e)
  }

  lemma StepConsistent(s: State, a: nat, pick: nat, h: seq<Hop>, loopInit: nat)
    requires Inv(s) && a != NTE_ADDR && Consistent(s, h, loopInit)
    ensures Consistent(Step(s, a, pick), h + [StepHop(s, a, pick)], loopInit)
  {
    var (t, e) := Resolve(s, a, pick);
    ResolveInv(s, a, pick);
    ResolveGrows(s, a, pick);
    GrowthConsistent(s, t, h, loopInit);
    ExecuteConsistent(t, e, h, loopInit);
  }

  /** A trace item and whatever growth comes of it. */
  lemma ItemConsistent(s: State, t: State, a: nat, pick: nat, h: seq<Hop>, loopInit: nat)
    requires Inv(s) && a != NTE_ADDR && Consistent(s, h, loopInit) && Grows(Step(s, a, pick), t)
    ensures Consistent(t, h + [StepHop(s, a, pick)], loopInit)
  {
    hide Step, StepHop, Consistent, Grows;
    StepConsistent(s, a, pick, h, loopInit);
    StepEdges(s, a, pick);
    GrowthConsistent(Step(s, a, pick), t, h + [StepHop(s, a, pick)], loopInit);
  }

  lemma StepEdges(s: State, a: nat, pick: nat)
    requires Inv(s) && a != NTE_ADDR
    ensures |s.edges| <= |Step(s, a, pick).edges| && Resolve(s, a, pick).1 < |Step(s, a, pick).edges|
    ensures 0 < |s.edges|
  {
    ResolveInv(s, a, pick);
    ResolveGrows(s, a, pick);
  }

  ghost predicate Counted(s: State, loopInit: nat) {
    exists h :: Consistent(s, h, loopInit)
  }

  lemma NextIsConsistent(s: State, t: State, loopInit: nat)
    requires Inv(s) && Counted(s, loopInit) && Next(s, t)
    ensures Inv(t) && Counted(t, loopInit)
  {
    var h :| Consistent(s, h, loopInit);
    if Grows(s, t) && Inv(t) {
      GrowthConsistent(s, t, h, loopInit);
    } else {
      var a: nat, pick: nat :| a != NTE_ADDR && t == Step(s, a, pick);
      StepConsistent(s, a, pick, h, loopInit);
    }
  }

  /** Every run, whatever grew the automaton along the way, ends in a well-formed
      automaton whose counters are those of the edges executed. */
  lemma {:induction false} RunsAreConsistent(states: seq<State>, loopInit: nat)
    requires IsRun(states, loopInit)
    ensures Inv(states[|states| - 1]) && Counted(states[|states| - 1], loopInit)
  {
    if |states| == 1 {
      InitialInv(loopInit);
      InitialConsistent(loopInit);
    } else {
      RunsAreConsistent(states[..|states| - 1], loopInit);
      assert Next(states[|states| - 2], states[|states| - 2 + 1]);
      NextIsConsistent(states[|states| - 2], states[|states| - 1], loopInit);
    }
  }

  // ---------- Conservation at a node and at a region ----------

  /** What enters a node leaves it, except at the start and at the current node. */
  lemma {:induction false} NodeFlow(h: seq<Hop>, n: nat)
    requires Walk(h)
    ensures Tally(h, Into(n)) + (if n == NTE then 1 else 0) == Tally(h, OutOf(n)) + (if n == Last(h) then 1 else 0)
  {
    if h != [] {
      WalkPrefix(h);
      NodeFlow(h[..|h| - 1], n);
    }
  }

  /** A region has been entered once more than left exactly while the walk is in it. */
  lemma {:induction false} RegionFlow(h: seq<Hop>, r: nat)
    requires Walk(h) && r != NO_REGION
    ensures Tally(h, Entering(r)) == Tally(h, Leaving(r)) + if LastRegion(h) == r then 1 else 0
  {
    if h != [] {
      WalkPrefix(h);
      RegionFlow(h[..|h| - 1], r);
    }
  }

  lemma WalkPrefix(h: seq<Hop>)
    requires Walk(h) && h != []
    ensures Walk(h[..|h| - 1])
    ensures h[|h| - 1].src == Last(h[..|h| - 1]) && h[|h| - 1].from == LastRegion(h[..|h| - 1])
  {
    var g := h[..|h| - 1];
    forall i | 0 <= i < |g| ensures g[i].src == Last(g[..i]) && g[i].from == LastRegion(g[..i]) {
      assert g[..i] == h[..i];
    }
  }

  // ---------- The same laws read off the counters ----------

  function Sum(freq: seq<nat>, list: seq<nat>): nat {
    if list == [] then 0
    else Sum(freq, list[1..]) + if list[0] < |freq| then freq[list[0]] else 0
  }

  /** Hops along any edge of the list. */
  lemma {:induction false} TallySplit(h: seq<Hop>, list: seq<nat>)
    requires list != [] && list[0] !in list[1..]
    ensures Tally(h, Among(list)) == Tally(h, Along(list[0])) + Tally(h, Among(list[1..]))
  {
    if h != [] {
      TallySplit(h[..|h| - 1], list);
      assert h[|h| - 1].edge in list <==> h[|h| - 1].edge == list[0] || h[|h| - 1].edge in list[1..];
    }
  }

  /** The counters of a list of edges add up to one for each edge and one for each
      time an edge of the list was followed. */
  lemma {:induction false} CountersAddUp(s: State, h: seq<Hop>, loopInit: nat, list: seq<nat>)
    requires Consistent(s, h, loopInit)
    requires Distinct(list) && forall i :: 0 <= i < |list| ==> 0 < list[i] < |s.edges|
    ensures Sum(s.edgeFreq, list) == |list| + Tally(h, Among(list))
  {
    if list == [] {
      TallyNone(h, Among(list));
    } else {
      assert list[0] !in list[1..];
      TallySplit(h, list);
      CountersAddUp(s, h, loopInit, list[1..]);
    }
  }

  /** Two kinds that agree on every hop are counted alike. */
  lemma {:induction false} TallyAlike(h: seq<Hop>, j: Kind, k: Kind)
    requires forall i :: 0 <= i < |h| ==> (Is(j, h[i]) <==> Is(k, h[i]))
    ensures Tally(h, j) == Tally(h, k)
  {
    if h != [] {
      TallyAlike(h[..|h| - 1], j, k);
    }
  }

  /** Of two kinds one of which includes the other. */
  lemma {:induction false} TallyWithin(h: seq<Hop>, j: Kind, k: Kind)
    requires forall i :: 0 <= i < |h| && Is(j, h[i]) ==> Is(k, h[i])
    ensures Tally(h, j) <= Tally(h, k)
    ensures Tally(h, j) == Tally(h, k) <==> forall i :: 0 <= i < |h| && Is(k, h[i]) ==> Is(j, h[i])
  {
    if h != [] {
      var g := h[..|h| - 1];
      TallyWithin(g, j, k);
      assert forall i :: 0 <= i < |g| ==> g[i] == h[i];
    }
  }

  /** Kinds that only look at the nodes and regions an edge joins. */
  predicate OfEnds(k: Kind) {
    !k.Along? && !k.Among?
  }

  /** `list` holds the edges of a kind, each once, `nte_loop_edge` left out. */
  ghost predicate Lists(s: State, k: Kind, list: seq<nat>)
    requires EdgesOk(s.nodes, s.edges)
  {
    Distinct(list) && forall e: nat :: e in list <==> 0 < e < |s.edges| && Is(k, HopAlong(s, e))
  }

  const LOOP_HOP := Hop(LOOP, NTE, NTE, NO_REGION, NO_REGION)

  /** The counters of all edges of a kind add up to the number of such edges and
      the number of such hops. */
  lemma CountersOfKind(s: State, h: seq<Hop>, loopInit: nat, k: Kind, list: seq<nat>)
    requires Inv(s) && Consistent(s, h, loopInit)
    requires OfEnds(k) && Lists(s, k, list) && !Is(k, LOOP_HOP)
    ensures Sum(s.edgeFreq, list) == |list| + Tally(h, k)
  {
    assert forall i :: 0 <= i < |list| ==> list[i] in list;
    CountersAddUp(s, h, loopInit, list);
    forall i | 0 <= i < |h| ensures Is(Among(list), h[i]) <==> Is(k, h[i]) {
      assert HopOf(s, h[i]) && HopAlong(s, h[i].edge) == h[i];
    }
    TallyAlike(h, Among(list), k);
  }

  /** A region node was executed as often as its in-edges were followed: their
      counters add up to that and one for each of them. So they add up to the
      counter of the node only for a node nothing leads to. */
  lemma InCountersOfNode(s: State, h: seq<Hop>, loopInit: nat, n: nat)
    requires Inv(s) && Consistent(s, h, loopInit) && 0 < n < |s.nodes|
    ensures Sum(s.edgeFreq, s.ins[n]) == s.nodeFreq[n] + |s.ins[n]|
    ensures Sum(s.edgeFreq, s.ins[n]) == s.nodeFreq[n] <==> forall e :: 0 < e < |s.edges| ==> s.edges[e].tgt != n
  {
    CountersOfKind(s, h, loopInit, Into(n), s.ins[n]);
    if s.ins[n] != [] {
      assert s.ins[n][0] in s.ins[n];
    }
  }

  /** Flow conservation on the counters alone: at every region node the traversals
      of the in-edges exceed those of the out-edges by one while the automaton
      rests there, and equal them otherwise. */
  lemma CounterFlow(s: State, h: seq<Hop>, loopInit: nat, n: nat)
    requires Inv(s) && Consistent(s, h, loopInit) && 0 < n < |s.nodes|
    ensures Sum(s.edgeFreq, s.ins[n]) - |s.ins[n]| ==
            Sum(s.edgeFreq, s.outs[n]) - |s.outs[n]| + if s.cur == n then 1 else 0
  {
    CountersOfKind(s, h, loopInit, Into(n), s.ins[n]);
    CountersOfKind(s, h, loopInit, OutOf(n), s.outs[n]);
    NodeFlow(h, n);
  }

  /** The same at `nte`, where `nte_loop_edge` counts on both sides. */
  lemma CounterFlowAtNte(s: State, h: seq<Hop>, loopInit: nat)
    requires Inv(s) && Consistent(s, h, loopInit)
    ensures s.nodeFreq[NTE] == Sum(s.edgeFreq, s.ins[NTE]) - |s.ins[NTE]| + (s.edgeFreq[LOOP] - loopInit)
    ensures Sum(s.edgeFreq, s.ins[NTE]) - |s.ins[NTE]| + (if s.cur != NTE then 1 else 0) ==
            Sum(s.edgeFreq, s.outs[NTE]) - |s.outs[NTE]|
  {
    NteHops(s, h);
    CountersAddUp(s, h, loopInit, s.ins[NTE]);
    CountersAddUp(s, h, loopInit, s.outs[NTE]);
    NodeFlow(h, NTE);
  }

  lemma {:induction false} NteHops(s: State, h: seq<Hop>)
    requires Inv(s) && HopsOf(s, h)
    ensures forall i :: 0 <= i < |s.ins[NTE]| ==> 0 < s.ins[NTE][i] < |s.edges|
    ensures forall i :: 0 <= i < |s.outs[NTE]| ==> 0 < s.outs[NTE][i] < |s.edges|
    ensures Tally(h, Into(NTE)) == Tally(h, Among(s.ins[NTE])) + Tally(h, Along(LOOP))
    ensures Tally(h, OutOf(NTE)) == Tally(h, Among(s.outs[NTE])) + Tally(h, Along(LOOP))
  {
    assert forall i :: 0 <= i < |s.ins[NTE]| ==> s.ins[NTE][i] in s.ins[NTE];
    assert forall i :: 0 <= i < |s.outs[NTE]| ==> s.outs[NTE][i] in s.outs[NTE];
    if h != [] {
      NteHops(s, h[..|h| - 1]);
      assert HopOf(s, h[|h| - 1]);
    }
  }

  /** The edges of a kind below `m`. */
  function EdgesOfKind(s: State, k: Kind, m: nat): seq<nat>
    requires EdgesOk(s.nodes, s.edges) && m <= |s.edges|
  {
    if m <= 1 then []
    else EdgesOfKind(s, k, m - 1) + if Is(k, HopAlong(s, m - 1)) then [m - 1] else []
  }

  lemma {:induction false} EdgesOfKindLists(s: State, k: Kind, m: nat)
    requires EdgesOk(s.nodes, s.edges) && 1 <= m <= |s.edges|
    ensures Distinct(EdgesOfKind(s, k, m))
    ensures forall e: nat :: e in EdgesOfKind(s, k, m) <==> 0 < e < m && Is(k, HopAlong(s, e))
  {
    if m > 1 {
      EdgesOfKindLists(s, k, m - 1);
    }
  }

  /** How often edges of a kind were followed, read off their counters. */
  function Traversals(s: State, k: Kind): int
    requires EdgesOk(s.nodes, s.edges)
  {
    var list := EdgesOfKind(s, k, |s.edges|);
    Sum(s.edgeFreq, list) - |list|
  }

  lemma TraversalsCount(s: State, h: seq<Hop>, loopInit: nat, k: Kind)
    requires Inv(s) && Consistent(s, h, loopInit) && OfEnds(k) && !Is(k, LOOP_HOP)
    ensures Traversals(s, k) == Tally(h, k)
  {
    EdgesOfKindLists(s, k, |s.edges|);
    CountersOfKind(s, h, loopInit, k, EdgesOfKind(s, k, |s.edges|));
  }

  /** For every region, what came in over edges from outside exceeds what went out
      by one exactly while the automaton is in the region. */
  lemma CounterFlowOfRegion(s: State, h: seq<Hop>, loopInit: nat, r: nat)
    requires Inv(s) && Consistent(s, h, loopInit) && r != NO_REGION
    ensures Traversals(s, Entering(r)) == Traversals(s, Leaving(r)) + if s.nodes[s.cur].region == r then 1 else 0
  {
    TraversalsCount(s, h, loopInit, Entering(r));
    TraversalsCount(s, h, loopInit, Leaving(r));
    RegionFlow(h, r);
    assert h != [] ==> HopOf(s, h[|h| - 1]);
  }

  /** `region_transitions` is the number of traversals of edges that join two
      different regions. */
  lemma TransitionsAreTraversals(s: State, h: seq<Hop>, loopInit: nat)
    requires Inv(s) && Consistent(s, h, loopInit)
    ensures s.transitions == Traversals(s, Crossing)
  {
    TraversalsCount(s, h, loopInit, Crossing);
  }

  // ---------- Every executed instruction is accounted for once ----------

  /** Frequencies of the nodes below `k` that are in the set. */
  function SumIn(freq: seq<nat>, nodes: set<nat>, k: nat): nat
    requires k <= |freq|
  {
    if k == 0 then 0
    else SumIn(freq, nodes, k - 1) + if k - 1 in nodes then freq[k - 1] else 0
  }

  /** `allNodesFreq` of region `r`. */
  function AllNodesFreq(s: State, r: nat): nat
    requires SizesOk(s) && r < |s.regions|
  {
    SumIn(s.nodeFreq, s.regions[r].nodes, |s.nodes|)
  }

  function RegionsFreq(s: State, k: nat): nat
    requires SizesOk(s) && k <= |s.regions|
  {
    if k == 0 then 0 else RegionsFreq(s, k - 1) + AllNodesFreq(s, k - 1)
  }

  lemma {:induction false} SumInUnion(freq: seq<nat>, a: set<nat>, b: set<nat>, k: nat)
    requires k <= |freq| && a !! b
    ensures SumIn(freq, a + b, k) == SumIn(freq, a, k) + SumIn(freq, b, k)
  {
    if k > 0 {
      SumInUnion(freq, a, b, k - 1);
    }
  }

  ghost function NodesBelow(s: State, q: nat): set<nat> {
    set n: nat | 0 < n < |s.nodes| && s.nodes[n].region < q
  }

  lemma {:induction false} RegionsFreqIsSum(s: State, q: nat)
    requires Inv(s) && q <= |s.regions|
    ensures RegionsFreq(s, q) == SumIn(s.nodeFreq, NodesBelow(s, q), |s.nodes|)
  {
    if q == 0 {
      assert NodesBelow(s, 0) == {};
      SumInUnion(s.nodeFreq, {}, {}, |s.nodes|);
      assert NodesBelow(s, 0) + {} == {};
    } else {
      RegionsFreqIsSum(s, q - 1);
      assert RegionOk(s.nodes, q - 1, s.regions[q - 1]);
      assert NodesBelow(s, q) == NodesBelow(s, q - 1) + s.regions[q - 1].nodes;
      SumInUnion(s.nodeFreq, NodesBelow(s, q - 1), s.regions[q - 1].nodes, |s.nodes|);
    }
  }

  function ArrivalSum(h: seq<Hop>, k: nat): nat {
    if k == 0 then 0 else ArrivalSum(h, k - 1) + Tally(h, Into(k - 1))
  }

  lemma {:induction false} ArrivalSumAppend(g: seq<Hop>, hop: Hop, k: nat)
    ensures ArrivalSum(g + [hop], k) == ArrivalSum(g, k) + if hop.tgt < k then 1 else 0
  {
    if k > 0 {
      ArrivalSumAppend(g, hop, k - 1);
      TallyAppend(g, hop, Into(k - 1));
    }
  }

  lemma {:induction false} ArrivalSumIsLength(h: seq<Hop>, k: nat)
    requires forall i :: 0 <= i < |h| ==> h[i].tgt < k
    ensures ArrivalSum(h, k) == |h|
  {
    if h == [] {
      NoArrivals(k);
    } else {
      var g := h[..|h| - 1];
      ArrivalSumIsLength(g, k);
      ArrivalSumAppend(g, h[|h| - 1], k);
      assert h == g + [h[|h| - 1]];
    }
  }

  lemma {:induction false} NoArrivals(k: nat)
    ensures ArrivalSum([], k) == 0
  {
    if k > 0 {
      NoArrivals(k - 1);
    }
  }

  lemma {:induction false} AllNodesSum(freq: seq<nat>, h: seq<Hop>, all: set<nat>, k: nat)
    requires k <= |freq| && forall n :: 0 <= n < k ==> n in all && freq[n] == Tally(h, Into(n))
    ensures SumIn(freq, all, k) == ArrivalSum(h, k)
  {
    if k > 0 {
      AllNodesSum(freq, h, all, k - 1);
    }
  }

  lemma {:induction false} SumOfNte(freq: seq<nat>, k: nat)
    requires 0 < k <= |freq|
    ensures SumIn(freq, {NTE}, k) == freq[NTE]
  {
    if k > 1 {
      SumOfNte(freq, k - 1);
    }
  }

  /** The frequencies of all regions and of `nte` add up to the number of executed
      instructions. */
  lemma Accounting(s: State, h: seq<Hop>, loopInit: nat)
    requires Inv(s) && Consistent(s, h, loopInit)
    ensures RegionsFreq(s, |s.regions|) + s.nodeFreq[NTE] == s.executed
  {
    var inner := NodesBelow(s, |s.regions|);
    RegionsFreqIsSum(s, |s.regions|);
    SumInUnion(s.nodeFreq, inner, {NTE}, |s.nodes|);
    SumOfNte(s.nodeFreq, |s.nodes|);
    AllNodesSum(s.nodeFreq, h, inner + {NTE}, |s.nodes|);
    forall i | 0 <= i < |h| ensures h[i].tgt < |s.nodes| {
      assert HopOf(s, h[i]);
    }
    ArrivalSumIsLength(h, |s.nodes|);
  }

  /** No node belongs to two regions. */
  lemma RegionsDisjoint(s: State, r: nat, q: nat)
    requires Inv(s) && r < q < |s.regions|
    ensures s.regions[r].nodes !! s.regions[q].nodes
  {
    assert RegionOk(s.nodes, r, s.regions[r]) && RegionOk(s.nodes, q, s.regions[q]);
  }
}
