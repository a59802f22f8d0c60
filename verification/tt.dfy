/** Trace Tree: side exits of a region are recorded until they come back to its
    header, and grafted onto the region without looking for duplicates. */
module TT {
  import opened Wrappers
  import opened Tea
  import opened Flow
  import opened Entries
  import opened Rain
  import opened RegionFormation
  import opened Recording
  import opened Paths

  const BACK_BRANCH_LIMIT: nat := 8

  // ---------- Grafting ----------

  /** Region `r` can be extended from `from` by the recorded addresses: the node
      does not lead to the first of them. */
  ghost predicate Graftable(s: State, r: nat, from: nat, buffer: seq<nat>) {
    && Inv(s) && 0 < r < |s.regions| && from < |s.nodes| && s.nodes[from].region == r
    && buffer != [] && NonZero(buffer) && !HasOut(s, from, buffer[0])
  }

  /** The first `k` recorded addresses as a chain of new nodes hanging from `from`. */
  function GraftTo(s: State, r: nat, from: nat, buffer: seq<nat>, k: nat): (res: (State, nat))
    requires Graftable(s, r, from, buffer) && k <= |buffer|
    ensures Inv(res.0) && res.1 < |res.0.nodes| && res.0.nodes[res.1].region == r
    ensures |res.0.regions| == |s.regions|
    ensures k > 0 ==> res.0.outs[res.1] == []
    ensures k == 0 ==> res == (s, from)
  {
    if k == 0 then (s, from)
    else
      var (t, last) := GraftTo(s, r, from, buffer, k - 1);
      LeafLeadsNowhere(t, last, buffer[k - 1]);
      GraftInv(t, r, last, buffer[k - 1]);
      Graft(t, r, last, buffer[k - 1])
  }

  lemma LeafLeadsNowhere(s: State, n: nat, a: nat)
    requires Inv(s) && n < |s.nodes|
    ensures s.outs[n] == [] ==> !HasOut(s, n, a)
  {
    assert IsOutList(s.edges, n, s.outs[n]);
  }

  /** One new node and an edge to it, made without any check. */
  function Graft(s: State, r: nat, last: nat, a: nat): (State, nat)
    requires r < |s.regions| && last < |s.outs| && SizesOk(s)
  {
    (CreateInnerEdge(AddNode(s, r, a), r, last, |s.nodes|), |s.nodes|)
  }

  lemma GraftInv(s: State, r: nat, last: nat, a: nat)
    requires Inv(s) && 0 < r < |s.regions| && last < |s.nodes| && s.nodes[last].region == r && a != NTE_ADDR
    requires !HasOut(s, last, a)
    ensures var (t, n) := Graft(s, r, last, a);
            && Inv(t) && n < |t.nodes| && t.nodes[n].region == r && |t.regions| == |s.regions|
            && t.outs[n] == []
  {
    var u := AddNode(s, r, a);
    AddNodeInv(s, r, a);
    forall e: nat ensures !LeadsTo(u, e, last, a) {
      assert !LeadsTo(s, e, last, a);
    }
    CreateInnerEdgeInv(u, r, last, |s.nodes|);
  }

  /** `expand`: the chain, closed by an edge to the header. */
  function Expand(s: State, r: nat, from: nat, buffer: seq<nat>, header: nat): (t: State)
    requires Graftable(s, r, from, buffer)
    requires header < |s.nodes| && s.nodes[header].region == r
  {
    var (t, last) := GraftTo(s, r, from, buffer, |buffer|);
    GraftWithin(s, r, from, buffer, |buffer|);
    Closed(t, r, last, header)
  }

  /** The edge back to the header, and the expansion counted. */
  function Closed(s: State, r: nat, last: nat, header: nat): State
    requires r < |s.regions| && last < |s.outs| && header < |s.ins|
  {
    var u := CreateInnerEdge(s, r, last, header);
    u.(expansions := u.expansions + 1)
  }

  /** Growth within region `r` that leaves all entries alone. */
  ghost predicate GrowsInside(s: State, t: State, r: nat) {
    && r < |s.regions| && GrowsWithin(s, t, r)
    && t.entries == s.entries && t.regions[r].entryNodes == s.regions[r].entryNodes
  }

  lemma GrowsInsideTransitive(s: State, t: State, u: State, r: nat)
    requires Inv(s) && Inv(t) && GrowsInside(s, t, r) && GrowsInside(t, u, r)
    ensures GrowsInside(s, u, r)
  {
    GrowsWithinTransitive(s, t, u, r);
  }

  lemma {:induction false} GraftWithin(s: State, r: nat, from: nat, buffer: seq<nat>, k: nat)
    requires Graftable(s, r, from, buffer) && k <= |buffer|
    ensures GrowsInside(s, GraftTo(s, r, from, buffer, k).0, r)
  {
    hide InnerOk, CacheOk, Deterministic, GraftTo;
    if k > 0 {
      var (t, last) := GraftTo(s, r, from, buffer, k - 1);
      GraftWithin(s, r, from, buffer, k - 1);
      GraftNext(s, r, from, buffer, k - 1);
      GraftOneWithin(t, r, last, buffer[k - 1]);
      GrowsInsideTransitive(s, t, Graft(t, r, last, buffer[k - 1]).0, r);
    }
  }

  lemma GraftOneWithin(s: State, r: nat, last: nat, a: nat)
    requires Inv(s) && 0 < r < |s.regions| && last < |s.nodes| && s.nodes[last].region == r
    ensures GrowsInside(s, Graft(s, r, last, a).0, r)
  {
  }

  lemma InnerEdgeWithin(s: State, r: nat, src: nat, tgt: nat)
    requires Inv(s) && 0 < r < |s.regions| && src < |s.nodes| && tgt < |s.nodes|
    requires s.nodes[src].region == r == s.nodes[tgt].region
    ensures GrowsInside(s, Closed(s, r, src, tgt), r)
  {
  }

  /** Closing the chain with an edge from its last node to the header. */
  lemma CloseInv(s: State, r: nat, from: nat, buffer: seq<nat>, header: nat)
    requires Graftable(s, r, from, buffer) && header < |s.nodes| && s.nodes[header].region == r
    ensures var (t, last) := GraftTo(s, r, from, buffer, |buffer|);
            && header < |t.nodes| && t.nodes[header] == s.nodes[header]
            && !HasOut(t, last, t.nodes[header].addr) && Inv(Closed(t, r, last, header))
            && GrowsInside(t, Closed(t, r, last, header), r) && GrowsInside(s, t, r)
  {
    var (t, last) := GraftTo(s, r, from, buffer, |buffer|);
    GraftWithin(s, r, from, buffer, |buffer|);
    assert t.nodes[header] == s.nodes[header];
    LeafLeadsNowhere(t, last, t.nodes[header].addr);
    CreateInnerEdgeInv(t, r, last, header);
    InnerEdgeWithin(t, r, last, header);
  }

  /** Grafting never makes a second edge to an address, although it never looks:
      the chain starts at an address its node did not lead to, and every further
      edge leaves a node made a moment before. */
  lemma ExpandInv(s: State, r: nat, from: nat, buffer: seq<nat>, header: nat)
    requires Graftable(s, r, from, buffer) && header < |s.nodes| && s.nodes[header].region == r
    ensures Inv(Expand(s, r, from, buffer, header)) && GrowsInside(s, Expand(s, r, from, buffer, header), r)
  {
    var (t, last) := GraftTo(s, r, from, buffer, |buffer|);
    CloseInv(s, r, from, buffer, header);
    GrowsInsideTransitive(s, t, Closed(t, r, last, header), r);
  }

  /** The node the path is at after `k` recorded addresses: the exit node, then new ones. */
  function PathNode(s: State, from: nat, k: nat): nat {
    if k == 0 then from else |s.nodes| + k - 1
  }

  /** The new nodes and edges after the first `k` recorded addresses. */
  ghost predicate Grafted(s: State, t: State, r: nat, from: nat, buffer: seq<nat>, k: nat)
    requires k <= |buffer|
  {
    && s.nodes <= t.nodes && |t.nodes| == |s.nodes| + k && s.edges <= t.edges && |s.edges| + k <= |t.edges|
    && (forall i :: 0 <= i < k ==> t.nodes[|s.nodes| + i] == Node(buffer[i], r))
    && forall i :: 0 <= i < k ==> t.edges[|s.edges| + i] == Edge(PathNode(s, from, i), PathNode(s, from, i + 1))
  }

  lemma {:induction false} GraftToAdds(s: State, r: nat, from: nat, buffer: seq<nat>, k: nat)
    requires Graftable(s, r, from, buffer) && k <= |buffer|
    ensures var (t, last) := GraftTo(s, r, from, buffer, k);
            Grafted(s, t, r, from, buffer, k) && |t.edges| == |s.edges| + k && last == PathNode(s, from, k)
  {
    hide Inv, GraftTo;
    if k > 0 {
      GraftToAdds(s, r, from, buffer, k - 1);
      GraftNext(s, r, from, buffer, k - 1);
    } else {
      GraftNone(s, r, from, buffer);
    }
  }

  lemma GraftNone(s: State, r: nat, from: nat, buffer: seq<nat>)
    requires Graftable(s, r, from, buffer)
    ensures GraftTo(s, r, from, buffer, 0) == (s, from)
  {
  }

  /** What a graft adds, all of it: a new node for every recorded address, edges from the
      exit node along them, and one from the last of them to the header. */
  lemma ExpandAdds(s: State, r: nat, from: nat, buffer: seq<nat>, header: nat)
    requires Graftable(s, r, from, buffer) && header < |s.nodes| && s.nodes[header].region == r
    ensures var t, n := Expand(s, r, from, buffer, header), |buffer|;
            && Grafted(s, t, r, from, buffer, n)
            && |t.edges| == |s.edges| + n + 1 && t.edges[|s.edges| + n] == Edge(PathNode(s, from, n), header)
            && t.expansions == s.expansions + 1
  {
    hide Inv, GraftTo;
    GraftToAdds(s, r, from, buffer, |buffer|);
    GraftExpansions(s, r, from, buffer, |buffer|);
  }

  lemma {:induction false} GraftExpansions(s: State, r: nat, from: nat, buffer: seq<nat>, k: nat)
    requires Graftable(s, r, from, buffer) && k <= |buffer|
    ensures GraftTo(s, r, from, buffer, k).0.expansions == s.expansions
  {
    hide Inv, GraftTo;
    if k > 0 {
      GraftExpansions(s, r, from, buffer, k - 1);
      GraftNext(s, r, from, buffer, k - 1);
    } else {
      GraftNone(s, r, from, buffer);
    }
  }

  /** So the exit node, the recorded addresses and the header are a chain of inner edges. */
  lemma ExpandChains(s: State, r: nat, from: nat, buffer: seq<nat>, header: nat)
    requires Graftable(s, r, from, buffer) && header < |s.nodes| && s.nodes[header].region == r
    ensures Chain(Expand(s, r, from, buffer, header), r, [s.nodes[from].addr] + buffer + [s.nodes[header].addr])
  {
    var t, p := Expand(s, r, from, buffer, header), [s.nodes[from].addr] + buffer + [s.nodes[header].addr];
    ExpandAdds(s, r, from, buffer, header);
    assert 0 < |s.edges|;
    hide Inv, Expand;
    ClosedPathChains(s, t, r, from, buffer, header);
  }

  lemma ClosedPathChains(s: State, t: State, r: nat, from: nat, buffer: seq<nat>, header: nat)
    requires from < |s.nodes| && header < |s.nodes| && s.nodes[from].region == r == s.nodes[header].region && 0 < |s.edges|
    requires Grafted(s, t, r, from, buffer, |buffer|) && |t.edges| == |s.edges| + |buffer| + 1
    requires t.edges[|s.edges| + |buffer|] == Edge(PathNode(s, from, |buffer|), header)
    ensures Chain(t, r, [s.nodes[from].addr] + buffer + [s.nodes[header].addr])
  {
    var p := [s.nodes[from].addr] + buffer + [s.nodes[header].addr];
    assert t.nodes[from] == Node(p[0], r) && t.nodes[header] == Node(p[|buffer| + 1], r);
    forall i | 0 < i <= |buffer| ensures t.nodes[PathNode(s, from, i)] == Node(p[i], r) {
      assert t.nodes[|s.nodes| + (i - 1)] == Node(buffer[i - 1], r);
    }
    forall i: nat | i + 1 < |p| ensures LinkedAt(t, r, p, i) {
      assert i < |buffer| ==> t.edges[|s.edges| + i] == Edge(PathNode(s, from, i), PathNode(s, from, i + 1));
      assert Joins(t, r, p[i], p[i + 1], |s.edges| + i);
    }
  }

  /** With nothing recorded the only new edge runs from the exit node to the
      header: it is a duplicate exactly when that node already led there. */
  lemma EmptyGraft(s: State, r: nat, from: nat, header: nat)
    requires Inv(s) && 0 < r < |s.regions| && from < |s.nodes| && s.nodes[from].region == r
    requires 0 < header < |s.nodes| && s.nodes[header].region == r
    ensures Inv(CreateInnerEdge(s, r, from, header)) <==> !HasOut(s, from, s.nodes[header].addr)
  {
    if e: nat :| LeadsTo(s, e, from, s.nodes[header].addr) {
      var t := CreateInnerEdge(s, r, from, header);
      assert TargetAddr(t.nodes, t.edges, e) == TargetAddr(t.nodes, t.edges, |s.edges|);
    } else {
      CreateInnerEdgeInv(s, r, from, header);
    }
  }

  // ---------- The state machine ----------

  datatype TtState = TtState(
    tea: State, counters: Counters, recording: bool, lastAddr: nat,
    isSideExit: bool, sideRegion: nat, sideNode: nat, trial: nat, buffer: seq<nat>)

  function Start(loopInit: nat): TtState {
    TtState(Initial(loopInit), map[], false, 0, false, 0, 0, 0, [])
  }

  /** A trace item with the address that follows it. */
  datatype TtItem = TtItem(addr: nat, next: nat, pick: nat)

  /** The entry node of region `r` with the address. */
  function Header(s: State, r: nat, a: nat): (n: Option<nat>)
    requires r < |s.regions|
  {
    if a in s.entries && s.entries[a] in s.regions[r].entryNodes then Some(s.entries[a]) else None
  }

  /** A side exit starts a recording at once; a hot backward target starts an
      ordinary one. */
  function Begin(c: Config, s: TtState, k: Taken, a: nat): TtState
    requires s.tea.cur < |s.tea.nodes|
  {
    if k.exitsRegion && !s.recording then
      s.(isSideExit := true, sideRegion := s.tea.nodes[s.tea.cur].region, sideNode := s.tea.cur,
         buffer := [], recording := true)
    else BeginTrace(c, s, k, a)
  }

  function BeginTrace(c: Config, s: TtState, k: Taken, a: nat): TtState {
    if k.loopsAtNte && a < s.lastAddr then
      var p := Bumped(s.counters, a);
      if IsHot(c, p, a) && !s.recording then s.(counters := p, buffer := [], recording := true)
      else s.(counters := p)
    else s
  }

  predicate OutOfLimit(s: TtState) {
    |s.buffer| > MAX_INST_REG || s.trial > BACK_BRANCH_LIMIT
  }

  function Append(c: Config, s: TtState, addr: nat, next: nat): TtState {
    s.(trial := if addr > next then s.trial + 1 else s.trial,
       buffer := if IsRegionAddrSpace(c, s.buffer, addr) then s.buffer + [addr] else s.buffer)
  }

  /** The side-exit node and buffer can be grafted. */
  ghost predicate CanGraft(s: TtState) {
    Graftable(s.tea, s.sideRegion, s.sideNode, s.buffer)
  }

  ghost predicate HeaderInRegionOk(s: TtState, a: nat) {
    && s.sideRegion < |s.tea.regions|
    && var h := Header(s.tea, s.sideRegion, a);
       h.Some? ==> CanGraft(s) && h.value < |s.tea.nodes| && s.tea.nodes[h.value].region == s.sideRegion
  }

  function RecordSideExit(c: Config, s: TtState, addr: nat, next: nat): TtState
    requires Inv(s.tea) && NonZero(s.buffer) && HeaderInRegionOk(s, addr)
  {
    if OutOfLimit(s) then s.(isSideExit := false, recording := false, buffer := [], trial := 0)
    else
      var h := Header(s.tea, s.sideRegion, addr);
      if h.Some? then
        s.(tea := Expand(s.tea, s.sideRegion, s.sideNode, s.buffer, h.value), isSideExit := false, recording := false)
      else Append(c, s, addr, next)
  }

  function RecordTrace(c: Config, s: TtState, addr: nat, next: nat): TtState
    requires Inv(s.tea) && NonZero(s.buffer)
  {
    if OutOfLimit(s) then s.(buffer := [], trial := 0, recording := false)
    else if |s.buffer| > 1 && s.buffer[0] == addr then
      s.(tea := BuildIfAny(s.tea, s.buffer), recording := false)
    else if |s.buffer| > 1 && !IsRegionAddrSpace(c, s.buffer, addr) then s.(buffer := [], recording := false)
    else Append(c, s, addr, next)
  }

  // ---------- What every run keeps ----------

  /** While a side exit is recorded the automaton stays out of the region, so its
      exit node still does not lead to the first recorded address. */
  ghost predicate SideExitOk(s: TtState) {
    CanGraft(s) && s.tea.cur < |s.tea.nodes| && s.tea.nodes[s.tea.cur].region != s.sideRegion
  }

  ghost predicate TtOk(s: TtState) {
    && Inv(s.tea) && EntriesIntact(s.tea)
    && NonZero(s.buffer)
    && (s.isSideExit ==> s.recording && SideExitOk(s))
    && (s.recording && !s.isSideExit ==> s.buffer != [] && s.buffer[0] !in s.tea.entries)
  }

  /** After the transition, before the recording. */
  ghost predicate Begun(s: TtState, a: nat) {
    && Inv(s.tea) && EntriesIntact(s.tea)
    && NonZero(s.buffer) && a != NTE_ADDR
    && (s.isSideExit ==> s.recording)
    && (s.isSideExit ==>
          && 0 < s.sideRegion < |s.tea.regions| && s.sideNode < |s.tea.nodes| && s.tea.cur < |s.tea.nodes|
          && s.tea.nodes[s.sideNode].region == s.sideRegion
          && (s.buffer == [] ==> a !in s.tea.entries && !HasOut(s.tea, s.sideNode, a))
          && (s.buffer != [] ==> !HasOut(s.tea, s.sideNode, s.buffer[0]))
          && (s.tea.nodes[s.tea.cur].region == s.sideRegion ==> Header(s.tea, s.sideRegion, a).Some?))
    && (s.recording && !s.isSideExit ==>
          if s.buffer == [] then a !in s.tea.entries else s.buffer[0] !in s.tea.entries)
  }

  lemma HeaderInRegion(s: TtState, a: nat)
    requires Begun(s, a) && s.isSideExit
    ensures HeaderInRegionOk(s, a)
  {
    assert RegionOk(s.tea.nodes, s.sideRegion, s.tea.regions[s.sideRegion]);
  }

  /** `TraceTree::process` after the transition. */
  function Proceeded(c: Config, s: TtState, addr: nat, next: nat): TtState
    requires Begun(s, addr)
  {
    var u := if s.isSideExit then HeaderInRegion(s, addr); RecordSideExit(c, s, addr, next)
             else if s.recording then RecordTrace(c, s, addr, next)
             else s;
    u.(lastAddr := addr)
  }

  lemma ProceedKeeps(c: Config, s: TtState, addr: nat, next: nat)
    requires Begun(s, addr)
    ensures TtOk(Proceeded(c, s, addr, next))
    ensures var t := Proceeded(c, s, addr, next).tea; EntriesKept(s.tea, t) && Grows(s.tea, t)
  {
    GrowsItself(s.tea);
    if s.isSideExit {
      HeaderInRegion(s, addr);
      SideExitKeeps(c, s, addr, next);
    } else if s.recording {
      TraceKeeps(c, s, addr, next);
    }
  }

  lemma SideExitKeeps(c: Config, s: TtState, addr: nat, next: nat)
    requires Begun(s, addr) && s.isSideExit && HeaderInRegionOk(s, addr)
    ensures TtOk(RecordSideExit(c, s, addr, next))
    ensures var t := RecordSideExit(c, s, addr, next).tea; EntriesKept(s.tea, t) && Grows(s.tea, t)
  {
    GrowsItself(s.tea);
    if !OutOfLimit(s) {
      var h := Header(s.tea, s.sideRegion, addr);
      if h.Some? {
        ExpandInv(s.tea, s.sideRegion, s.sideNode, s.buffer, h.value);
        ExpandKeeps(s.tea, s.sideRegion, s.sideNode, s.buffer, h.value);
      }
    }
  }

  lemma ExpandKeeps(s: State, r: nat, from: nat, buffer: seq<nat>, header: nat)
    requires Graftable(s, r, from, buffer)
    requires header < |s.nodes| && s.nodes[header].region == r
    requires EntriesIntact(s)
    ensures EntriesIntact(Expand(s, r, from, buffer, header))
  {
    hide Inv, Expand, EntriesIntact;
    var t := Expand(s, r, from, buffer, header);
    ExpandInv(s, r, from, buffer, header);
    GrowthKeepsIntact(s, t);
  }

  lemma TraceKeeps(c: Config, s: TtState, addr: nat, next: nat)
    requires Begun(s, addr) && s.recording && !s.isSideExit
    ensures TtOk(RecordTrace(c, s, addr, next))
    ensures var t := RecordTrace(c, s, addr, next).tea; EntriesKept(s.tea, t) && Grows(s.tea, t)
  {
    hide Inv, EntriesIntact, Grows, BuildIfAny;
    GrowsItself(s.tea);
    BuildKeepsIntact(s.tea, s.buffer);
  }

  /** The transition and what it starts. */
  function Moved(c: Config, s: TtState, item: TtItem): TtState
    requires Inv(s.tea) && item.addr != NTE_ADDR
  {
    Begin(c, s, TakenBy(s.tea, item.addr, item.pick), item.addr).(tea := Step(s.tea, item.addr, item.pick))
  }

  lemma MovedIsBegun(c: Config, s: TtState, item: TtItem)
    requires TtOk(s) && item.addr != NTE_ADDR
    ensures Begun(Moved(c, s, item), item.addr)
  {
    var k, t := TakenBy(s.tea, item.addr, item.pick), Step(s.tea, item.addr, item.pick);
    TakenMeans(s.tea, item.addr, item.pick);
    StepKeepsIntact(s.tea, item.addr, item.pick);
    StepEntryNodes(s.tea, item.addr, item.pick);
    StepRegions(s.tea, item.addr, item.pick);
    if s.isSideExit {
      SideExitContinues(s, item);
    } else if k.exitsRegion && !s.recording {
      SideExitStarts(s, item);
    }
  }

  /** At a side exit the node does not lead to the address that follows. */
  lemma SideExitStarts(s: TtState, item: TtItem)
    requires TtOk(s) && item.addr != NTE_ADDR && s.tea.cur != NTE
    requires Step(s.tea, item.addr, item.pick).cur == NTE
    ensures !HasOut(Step(s.tea, item.addr, item.pick), s.tea.cur, item.addr)
  {
    StepRefines(s.tea, item.addr, item.pick);
    StepOuts(s.tea, item.addr, item.pick, s.tea.cur, item.addr);
  }

  /** The automaton comes back to the region only through its header. */
  lemma SideExitContinues(s: TtState, item: TtItem)
    requires TtOk(s) && item.addr != NTE_ADDR && s.isSideExit
    ensures var t := Step(s.tea, item.addr, item.pick);
            && t.cur < |t.nodes| && !HasOut(t, s.sideNode, s.buffer[0])
            && s.sideRegion < |t.regions|
            && (t.nodes[t.cur].region == s.sideRegion ==> Header(t, s.sideRegion, item.addr).Some?)
  {
    var t := Step(s.tea, item.addr, item.pick);
    StepOuts(s.tea, item.addr, item.pick, s.sideNode, s.buffer[0]);
    StepRegions(s.tea, item.addr, item.pick);
    StepEntryNodes(s.tea, item.addr, item.pick);
    if t.nodes[t.cur].region == s.sideRegion {
      CrossingLandsOnEntry(s.tea, item.addr, item.pick);
    }
  }

  /** `TraceTree::process`. */
  function TtStep(c: Config, s: TtState, item: TtItem): (t: TtState)
    requires TtOk(s) && item.addr != NTE_ADDR
    ensures TtOk(t) && EntriesKept(s.tea, t.tea) && Grows(Step(s.tea, item.addr, item.pick), t.tea)
  {
    StepKeepsIntact(s.tea, item.addr, item.pick);
    MovedIsBegun(c, s, item);
    ProceedKeeps(c, Moved(c, s, item), item.addr, item.next);
    Proceeded(c, Moved(c, s, item), item.addr, item.next)
  }

  // ---------- The step written out ----------

  /** What is recorded when the item begins, in terms of where the automaton was and is. */
  datatype Opening = Opening(side: bool, active: bool, isSide: bool, region: nat, node: nat, buffer: seq<nat>, over: bool)

  ghost function BeginsWith(c: Config, s: TtState, u: State, a: nat): Opening
    requires s.tea.cur < |s.tea.nodes|
  {
    var side := s.tea.cur != NTE && u.cur == NTE && !s.recording;
    var starts := s.tea.cur == NTE && u.cur == NTE && a < s.lastAddr && CountNow(s.counters, a) >= c.hotThreshold && !s.recording;
    var buffer := if side || starts then [] else s.buffer;
    Opening(side, s.recording || side || starts, s.isSideExit || side,
           if side then s.tea.nodes[s.tea.cur].region else s.sideRegion, if side then s.tea.cur else s.sideNode,
           buffer, |buffer| > 1000 || s.trial > 8)
  }

  /** The recording goes on with the address. */
  ghost predicate GoesOn(c: Config, s: TtState, t: TtState, u: State, b: Opening, item: TtItem) {
    && t.tea == u && t.recording && t.isSideExit == b.isSide && t.buffer == Buffered(c, b.buffer, item.addr)
    && t.trial == s.trial + if item.addr > item.next then 1 else 0
  }

  /** The recording is over: nothing is recorded any more. */
  ghost predicate IsOver(t: TtState, u: State, buffer: seq<nat>, trial: nat) {
    t.tea == u && !t.recording && !t.isSideExit && t.buffer == buffer && t.trial == trial
  }

  ghost predicate ExpandedTo(u: State, b: Opening, header: nat, t: State) {
    && Graftable(u, b.region, b.node, b.buffer) && header < |u.nodes| && u.nodes[header].region == b.region
    && t == Expand(u, b.region, b.node, b.buffer, header)
  }

  /** What remains of the item. */
  ghost predicate Remains(c: Config, s: TtState, u: State, t: TtState, b: Opening, item: TtItem) {
    var a := item.addr;
    if !b.active then IsOver(t, u, b.buffer, s.trial)
    else if b.over then IsOver(t, u, [], 0)
    else if b.isSide then
      if a in u.entries && b.region < |u.regions| && u.entries[a] in u.regions[b.region].entryNodes
      then ExpandedTo(u, b, u.entries[a], t.tea) && IsOver(t, t.tea, b.buffer, s.trial)
      else GoesOn(c, s, t, u, b, item)
    else if |b.buffer| > 1 && b.buffer[0] == a then BuiltTo(u, b.buffer, t.tea) && IsOver(t, t.tea, b.buffer, s.trial)
    else if |b.buffer| > 1 && !c.mixUsrSys && (b.buffer[0] < c.systemThreshold) != (a < c.systemThreshold)
    then IsOver(t, u, [], s.trial)
    else GoesOn(c, s, t, u, b, item)
  }

  ghost predicate BuiltTo(u: State, buffer: seq<nat>, t: State) {
    Inv(u) && buffer != [] && NonZero(buffer) && t == BuildRegion(u, buffer)
  }

  lemma MovedIs(c: Config, s: TtState, item: TtItem)
    requires TtOk(s) && item.addr != NTE_ADDR
    ensures var u, m, a := Step(s.tea, item.addr, item.pick), Moved(c, s, item), item.addr;
            var b := BeginsWith(c, s, u, a);
            && m == TtState(u, if s.tea.cur == NTE && u.cur == NTE && a < s.lastAddr then s.counters[a := CountNow(s.counters, a)]
                               else s.counters,
                            b.active, s.lastAddr, b.isSide, b.region, b.node, s.trial, b.buffer)
  {
    hide Inv, Step, EntriesIntact, Graftable, HasOut;
    TakenMeans(s.tea, item.addr, item.pick);
  }

  lemma ProceededIs(c: Config, s: TtState, m: TtState, b: Opening, item: TtItem)
    requires Begun(m, item.addr) && m.trial == s.trial
    requires m.recording == b.active && m.isSideExit == b.isSide && m.sideRegion == b.region && m.sideNode == b.node
    requires m.buffer == b.buffer && b.over == (|b.buffer| > 1000 || s.trial > 8)
    ensures var t := Proceeded(c, m, item.addr, item.next);
            && t.counters == m.counters && t.lastAddr == item.addr && t.sideRegion == m.sideRegion && t.sideNode == m.sideNode
            && Remains(c, s, m.tea, t, b, item)
  {
    hide *;
    if m.isSideExit {
      SideProceededIs(c, s, m, b, item);
    } else {
      TraceProceededIs(c, s, m, b, item);
    }
  }

  lemma SideProceededIs(c: Config, s: TtState, m: TtState, b: Opening, item: TtItem)
    requires Begun(m, item.addr) && m.trial == s.trial
    requires m.recording == b.active && m.isSideExit == b.isSide && m.sideRegion == b.region && m.sideNode == b.node
    requires m.buffer == b.buffer && b.over == (|b.buffer| > 1000 || s.trial > 8)
    requires m.isSideExit
    ensures var t := Proceeded(c, m, item.addr, item.next);
            && t.counters == m.counters && t.lastAddr == item.addr && t.sideRegion == m.sideRegion && t.sideNode == m.sideNode
            && Remains(c, s, m.tea, t, b, item)
  {
    hide Inv, EntriesIntact, SideExitOk, Graftable, Expand, HasOut;
    HeaderInRegion(m, item.addr);
  }

  lemma TraceProceededIs(c: Config, s: TtState, m: TtState, b: Opening, item: TtItem)
    requires Begun(m, item.addr) && m.trial == s.trial
    requires m.recording == b.active && m.isSideExit == b.isSide && m.sideRegion == b.region && m.sideNode == b.node
    requires m.buffer == b.buffer && b.over == (|b.buffer| > 1000 || s.trial > 8)
    requires !m.isSideExit
    ensures var t := Proceeded(c, m, item.addr, item.next);
            && t.counters == m.counters && t.lastAddr == item.addr && t.sideRegion == m.sideRegion && t.sideNode == m.sideNode
            && Remains(c, s, m.tea, t, b, item)
  {
    hide Inv, EntriesIntact, Graftable, Expand, HasOut;
  }

  /** The whole step. */
  lemma TtStepIs(c: Config, s: TtState, item: TtItem)
    requires TtOk(s) && item.addr != NTE_ADDR
    ensures var u, t, a := Step(s.tea, item.addr, item.pick), TtStep(c, s, item), item.addr;
            var b := BeginsWith(c, s, u, a);
            && t.counters == (if s.tea.cur == NTE && u.cur == NTE && a < s.lastAddr then s.counters[a := CountNow(s.counters, a)]
                              else s.counters)
            && t.lastAddr == a && t.sideRegion == b.region && t.sideNode == b.node
            && Remains(c, s, u, t, b, item)
  {
    hide Inv, Step, EntriesIntact, Graftable, HasOut, Remains, Proceeded, Moved, TtOk, Begun;
    StillFits(c, s, item);
    MovedIs(c, s, item);
    ProceededIs(c, s, Moved(c, s, item), BeginsWith(c, s, Step(s.tea, item.addr, item.pick), item.addr), item);
  }

  lemma StillFits(c: Config, s: TtState, item: TtItem)
    requires TtOk(s) && item.addr != NTE_ADDR
    ensures Inv(s.tea) && s.tea.cur < |s.tea.nodes| && Begun(Moved(c, s, item), item.addr)
    ensures TtStep(c, s, item) == Proceeded(c, Moved(c, s, item), item.addr, item.next)
  {
    hide Proceeded, Moved, Begun, EntriesIntact, Graftable;
    MovedIsBegun(c, s, item);
  }

  predicate IsTrace(trace: seq<TtItem>) {
    forall i :: 0 <= i < |trace| ==> trace[i].addr != NTE_ADDR
  }

  /** Every run of Trace Tree, grafts included, keeps the automaton deterministic,
      its entries unique and its side-exit recordings graftable. */
  function TtRun(c: Config, loopInit: nat, trace: seq<TtItem>): (s: TtState)
    requires IsTrace(trace)
    ensures TtOk(s)
  {
    if trace == [] then
      InitialInv(loopInit);
      Start(loopInit)
    else
      TtStep(c, TtRun(c, loopInit, trace[..|trace| - 1]), trace[|trace| - 1])
  }

  /** The edges the items of a trace follow are what all counters of the run count. */
  ghost function TtHops(c: Config, loopInit: nat, trace: seq<TtItem>): (h: seq<Hop>)
    requires IsTrace(trace)
    ensures Consistent(TtRun(c, loopInit, trace).tea, h, loopInit)
  {
    if trace == [] then
      InitialConsistent(loopInit);
      []
    else
      var s, item := TtRun(c, loopInit, trace[..|trace| - 1]), trace[|trace| - 1];
      var h := TtHops(c, loopInit, trace[..|trace| - 1]);
      ItemConsistent(s.tea, TtStep(c, s, item).tea, item.addr, item.pick, h, loopInit);
      h + [StepHop(s.tea, item.addr, item.pick)]
  }

  // ---------- The technique itself ----------

  method GraftNode(rain: RAIn, r: nat, last: nat, addr: nat) returns (node: nat)
    requires rain.Valid() && 0 < r < |rain.regions| && last < |rain.nodes|
    requires rain.nodes[last].region == r && addr != NTE_ADDR && !HasOut(rain.State(), last, addr)
    modifies rain
    ensures rain.Valid() && rain.history == old(rain.history)
    ensures (rain.State(), node) == Graft(old(rain.State()), r, last, addr)
  {
    ghost var s := rain.State();
    node := rain.InsertNewNode(r, addr);
    forall e: nat ensures !LeadsTo(rain.State(), e, last, addr) {
      assert !LeadsTo(s, e, last, addr);
    }
    var _ := rain.CreateInnerRegionEdge(r, last, node);
  }

  /** The loop of `expand` over the recorded addresses. */
  method GraftChain(rain: RAIn, r: nat, from: nat, buffer: seq<nat>) returns (lastNode: nat)
    requires rain.Valid() && Graftable(rain.State(), r, from, buffer)
    modifies rain
    ensures rain.Valid() && rain.history == old(rain.history)
    ensures (rain.State(), lastNode) == GraftTo(old(rain.State()), r, from, buffer, |buffer|)
  {
    ghost var s := rain.State();
    lastNode := from;
    var i := 0;
    while i < |buffer|
      invariant i <= |buffer| && rain.Valid() && rain.history == old(rain.history)
      invariant (rain.State(), lastNode) == GraftTo(s, r, from, buffer, i)
    {
      GraftNext(s, r, from, buffer, i);
      lastNode := GraftNode(rain, r, lastNode, buffer[i]);
      i := i + 1;
    }
  }

  /** The next address of the chain is one its last node does not lead to. */
  lemma GraftNext(s: State, r: nat, from: nat, buffer: seq<nat>, k: nat)
    requires Graftable(s, r, from, buffer) && k < |buffer|
    ensures var (t, last) := GraftTo(s, r, from, buffer, k);
            && last < |t.nodes| && t.nodes[last].region == r && !HasOut(t, last, buffer[k])
            && GraftTo(s, r, from, buffer, k + 1) == Graft(t, r, last, buffer[k])
  {
    var (t, last) := GraftTo(s, r, from, buffer, k);
    LeafLeadsNowhere(t, last, buffer[k]);
  }

  class TraceTree {
    const rain: RAIn
    const profiler: Profiler
    const config: Config
    var recording: bool
    var lastAddr: nat
    var isSideExit: bool
    var sideExitRegion: nat
    var sideExitNode: nat
    var innerLoopTrial: nat
    var recordingBuffer: seq<nat>

    ghost function Model(): TtState
      reads this, rain, profiler
    {
      TtState(rain.State(), profiler.instrFreqCounter, recording, lastAddr,
              isSideExit, sideExitRegion, sideExitNode, innerLoopTrial, recordingBuffer)
    }

    ghost predicate Valid()
      reads this, rain, profiler
    {
      rain.Valid() && TtOk(Model())
    }

    constructor (config: Config, loopCounter: nat)
      ensures Valid() && this.config == config && Model() == Start(loopCounter)
      ensures fresh(rain) && fresh(profiler)
    {
      this.config := config;
      rain := new RAIn(loopCounter);
      profiler := new Profiler();
      recording, lastAddr, isSideExit, sideExitRegion, sideExitNode := false, 0, false, 0, 0;
      innerLoopTrial, recordingBuffer := 0, [];
    }

    method FindHeader(curAddr: nat) returns (header: Option<nat>)
      requires Inv(rain.State()) && EntryNodesRegistered(rain.State()) && sideExitRegion < |rain.regions|
      ensures header == Header(rain.State(), sideExitRegion, curAddr)
    {
      var rest := rain.regions[sideExitRegion].entryNodes;
      while rest != {}
        invariant rest <= rain.regions[sideExitRegion].entryNodes
        invariant forall n :: n in rain.regions[sideExitRegion].entryNodes - rest ==> rain.nodes[n].addr != curAddr
        decreases rest
      {
        var it :| it in rest;
        assert RegionOk(rain.nodes, sideExitRegion, rain.regions[sideExitRegion]);
        if rain.nodes[it].addr == curAddr { return Some(it); }
        rest := rest - {it};
      }
      return None;
    }

    method ExpandSideExit(header: nat)
      requires rain.Valid() && CanGraft(Model()) && header < |rain.nodes| && rain.nodes[header].region == sideExitRegion
      modifies rain
      ensures rain.Valid() && rain.history == old(rain.history)
      ensures rain.State() == Expand(old(rain.State()), sideExitRegion, sideExitNode, recordingBuffer, header)
      ensures Chain(rain.State(), sideExitRegion,
                    [old(rain.nodes[sideExitNode].addr)] + recordingBuffer + [old(rain.nodes[header].addr)])
    {
      hide Consistent, GraftTo;
      ghost var s := rain.State();
      var lastNode := GraftChain(rain, sideExitRegion, sideExitNode, recordingBuffer);
      assert header < |rain.nodes| && rain.nodes[header] == s.nodes[header]
        && !HasOut(rain.State(), lastNode, rain.nodes[header].addr) by {
        CloseInv(s, sideExitRegion, sideExitNode, recordingBuffer, header);
      }
      var _ := rain.CreateInnerRegionEdge(sideExitRegion, lastNode, header);
      rain.CountExpansion();
      ExpandChains(s, sideExitRegion, sideExitNode, recordingBuffer, header);
    }

    method ProcessSideExit(addr: nat, next: nat)
      requires rain.Valid() && EntryNodesRegistered(rain.State()) && HeaderInRegionOk(Model(), addr) && NonZero(recordingBuffer)
      modifies this, rain
      ensures rain.Valid() && Model() == RecordSideExit(config, old(Model()), addr, next) && rain.history == old(rain.history)
    {
      if |recordingBuffer| > MAX_INST_REG || innerLoopTrial > BACK_BRANCH_LIMIT {
        isSideExit := false;
        recording := false;
        recordingBuffer := [];
        innerLoopTrial := 0;
        return;
      }
      // The path may have come back to the region
      var header := FindHeader(addr);
      if header.Some? {
        ghost var s := Model();
        ExpandSideExit(header.value);
        isSideExit := false;
        recording := false;
        assert Model() == s.(tea := rain.State(), isSideExit := false, recording := false);
      } else {
        AppendAddr(addr, next);
      }
    }

    method AppendAddr(addr: nat, next: nat)
      modifies this`innerLoopTrial, this`recordingBuffer
      ensures Model() == Append(config, old(Model()), addr, next)
    {
      if addr > next {
        innerLoopTrial := innerLoopTrial + 1;
      }
      if IsRegionAddrSpace(config, recordingBuffer, addr) {
        recordingBuffer := recordingBuffer + [addr];
      }
    }

    method ProcessTrace(addr: nat, next: nat)
      requires rain.Valid() && NonZero(recordingBuffer)
      modifies this, rain
      ensures rain.Valid() && Model() == RecordTrace(config, old(Model()), addr, next) && rain.history == old(rain.history)
    {
      var stopRecording := false;
      if |recordingBuffer| > MAX_INST_REG || innerLoopTrial > BACK_BRANCH_LIMIT {
        stopRecording := true;
        recordingBuffer := [];
        innerLoopTrial := 0;
      } else if |recordingBuffer| > 1 {
        if recordingBuffer[0] == addr {
          // back where the recording started
          stopRecording := true;
        } else if !IsRegionAddrSpace(config, recordingBuffer, addr) {
          // on the other side of the threshold
          stopRecording := true;
          recordingBuffer := [];
        }
      }
      if stopRecording {
        var _ := BuildRegionIn(rain, recordingBuffer);
        recording := false;
      } else {
        AppendAddr(addr, next);
      }
    }

    method BeginRecording(k: Taken, curAddr: nat, srcRegion: nat, src: nat)
      modifies this, profiler
      ensures var s := old(Model());
              Model() == if k.exitsRegion && !s.recording
                then s.(isSideExit := true, sideRegion := srcRegion, sideNode := src, buffer := [], recording := true)
                else BeginTrace(config, s, k, curAddr)
    {
      if k.exitsRegion && !recording {
        isSideExit := true;
        sideExitRegion := srcRegion;
        sideExitNode := src;
        recordingBuffer := [];
        recording := true;
      } else if k.loopsAtNte && curAddr < lastAddr {
        profiler.Update(curAddr);
        if IsHot(config, profiler.instrFreqCounter, curAddr) && !recording {
          recordingBuffer := [];
          recording := true;
        }
      }
    }

    method Move(curAddr: nat, ghost nxtAddr: nat) returns (ghost pick: nat)
      requires rain.Valid() && curAddr != NTE_ADDR
      modifies this, rain, profiler
      ensures rain.Valid() && Model() == Moved(config, old(Model()), TtItem(curAddr, nxtAddr, pick))
      ensures rain.history == old(rain.history) + [StepHop(old(rain.State()), curAddr, pick)]
    {
      var edg, k;
      edg, k, pick := Transition(rain, curAddr);
      ResolveInv(old(rain.State()), curAddr, pick);
      var src := rain.edges[edg].src;
      BeginRecording(k, curAddr, rain.nodes[src].region, src);
    }

    method Proceed(addr: nat, next: nat)
      requires rain.Valid() && Begun(Model(), addr)
      modifies this, rain
      ensures rain.Valid() && Begun(old(Model()), addr) && rain.history == old(rain.history)
      ensures Model() == Proceeded(config, old(Model()), addr, next)
    {
      if recording && isSideExit {
        HeaderInRegion(Model(), addr);
        ProcessSideExit(addr, next);
      } else if recording {
        ProcessTrace(addr, next);
      }
      lastAddr := addr;
    }

    method Process(curAddr: nat, nxtAddr: nat) returns (ghost pick: nat)
      requires Valid() && curAddr != NTE_ADDR
      modifies this, rain, profiler
      ensures Valid() && Model() == TtStep(config, old(Model()), TtItem(curAddr, nxtAddr, pick))
      ensures rain.history == old(rain.history) + [StepHop(old(rain.State()), curAddr, pick)]
    {
      ghost var s := Model();
      pick := Move(curAddr, nxtAddr);
      MovedIsBegun(config, s, TtItem(curAddr, nxtAddr, pick));
      ProceedKeeps(config, Model(), curAddr, nxtAddr);
      Proceed(curAddr, nxtAddr);
    }
  }
}
