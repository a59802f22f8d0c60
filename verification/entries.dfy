/** Region entries: the cache in front of them never goes stale as long as no
    entry is overwritten. */
module Entries {
  import opened Tea
  import opened Flow

  /** Every edge that comes into a region from outside leads to the node
      registered as the entry for its address. */
  ghost predicate EntersAtEntry(s: State) {
    EntryEdgesOk(s.nodes, s.edges, s.entries)
  }

  ghost predicate EntryEdgesOk(nodes: seq<Node>, edges: seq<Edge>, entries: map<nat, nat>) {
    forall e: nat :: FromOutside(nodes, edges, e) ==> LandsOnEntry(nodes, edges, entries, e)
  }

  ghost predicate FromOutside(nodes: seq<Node>, edges: seq<Edge>, e: nat) {
    && 0 < e < |edges| && edges[e].tgt != NTE
    && RegionOf(nodes, edges[e].src) != RegionOf(nodes, edges[e].tgt)
  }

  ghost predicate LandsOnEntry(nodes: seq<Node>, edges: seq<Edge>, entries: map<nat, nat>, e: nat)
    requires e < |edges|
  {
    var a := TargetAddr(nodes, edges, e);
    a in entries && entries[a] == edges[e].tgt
  }

  /** The edge a cached address leads to is the edge to the registered entry. */
  lemma CacheAgrees(s: State, a: nat)
    requires Inv(s) && EntersAtEntry(s) && a in s.cache
    ensures a in s.entries && s.edges[s.cache[a]].tgt == s.entries[a]
  {
    assert FromOutside(s.nodes, s.edges, s.cache[a]);
  }

  lemma CachesAgree(s: State)
    requires Inv(s) && EntersAtEntry(s)
    ensures forall a :: a in s.cache ==> a in s.entries && s.edges[s.cache[a]].tgt == s.entries[a]
  {
    forall a | a in s.cache ensures a in s.entries && s.edges[s.cache[a]].tgt == s.entries[a] {
      CacheAgrees(s, a);
    }
  }

  lemma LinkEntersAtEntry(s: State, a: nat, pick: nat)
    requires Inv(s) && EntersAtEntry(s) && a != NTE_ADDR && QueryNext(s, a).None?
    ensures EntersAtEntry(AddNext(s, a, pick).0)
  {
    var (t, f) := AddNext(s, a, pick);
    AddNextInv(s, a, pick);
    forall e: nat | FromOutside(t.nodes, t.edges, e) ensures LandsOnEntry(t.nodes, t.edges, t.entries, e) {
      if e < |s.edges| {
        assert FromOutside(s.nodes, s.edges, e);
      } else {
        assert e == f;
      }
    }
  }

  lemma ResolveEntersAtEntry(s: State, a: nat, pick: nat)
    requires Inv(s) && EntersAtEntry(s) && a != NTE_ADDR
    ensures EntersAtEntry(Resolve(s, a, pick).0)
  {
    if QueryNext(s, a).None? {
      LinkEntersAtEntry(s, a, pick);
    } else {
      assert AfterQuery(s, a) == s.(outs := AfterQuery(s, a).outs);
    }
  }

  lemma StepEntersAtEntry(s: State, a: nat, pick: nat)
    requires Inv(s) && EntersAtEntry(s) && a != NTE_ADDR
    ensures EntersAtEntry(Step(s, a, pick))
    ensures Step(s, a, pick).entries == s.entries
  {
    var (t, e) := Resolve(s, a, pick);
    ResolveInv(s, a, pick);
    ResolveEntersAtEntry(s, a, pick);
    assert Step(s, a, pick).nodes == t.nodes && Step(s, a, pick).edges == t.edges;
  }

  /** From `nte` the automaton goes to the registered entry, and stays at `nte`
      exactly when there is none: the cache and the lazily made edges do not show. */
  lemma FromNte(s: State, a: nat, pick: nat)
    requires Inv(s) && EntersAtEntry(s) && a != NTE_ADDR && s.cur == NTE
    ensures Step(s, a, pick).cur == if a in s.entries then s.entries[a] else NTE
  {
    StepRefines(s, a, pick);
    if e: nat :| LeadsTo(s, e, NTE, a) {
      assert FromOutside(s.nodes, s.edges, e);
    }
  }

  /** A trace item that leaves one region for another, or enters one from `nte`,
      lands on the registered entry for its address. */
  lemma CrossingLandsOnEntry(s: State, a: nat, pick: nat)
    requires Inv(s) && EntersAtEntry(s) && a != NTE_ADDR
    requires var n := Step(s, a, pick).cur; n != NTE && s.nodes[n].region != s.nodes[s.cur].region
    ensures a in s.entries && Step(s, a, pick).cur == s.entries[a]
  {
    hide RegionsOk, InnerOk;
    StepRefines(s, a, pick);
    if e: nat :| LeadsTo(s, e, s.cur, a) {
      assert FromOutside(s.nodes, s.edges, e);
    }
  }

  /** Growth that neither touches an entry nor links regions. */
  lemma GrowthEntersAtEntry(s: State, t: State)
    requires Inv(s) && Inv(t) && EntersAtEntry(s)
    requires s.nodes <= t.nodes && s.edges <= t.edges
    requires forall a :: a in s.entries ==> a in t.entries && t.entries[a] == s.entries[a]
    requires forall e: nat :: |s.edges| <= e < |t.edges| ==>
               RegionOf(t.nodes, t.edges[e].src) == RegionOf(t.nodes, t.edges[e].tgt)
    ensures EntersAtEntry(t)
  {
    forall e: nat | FromOutside(t.nodes, t.edges, e) ensures LandsOnEntry(t.nodes, t.edges, t.entries, e) {
      assert FromOutside(s.nodes, s.edges, e);
      assert LandsOnEntry(s.nodes, s.edges, s.entries, e);
    }
  }

  /** A trace item makes no region and no entry. */
  lemma StepRegions(s: State, a: nat, pick: nat)
    requires Inv(s) && a != NTE_ADDR
    ensures |Step(s, a, pick).regions| == |s.regions|
    ensures Step(s, a, pick).nodes == s.nodes && Step(s, a, pick).entries == s.entries
  {
    ResolveInv(s, a, pick);
  }

  /** A trace item adds an edge to the current node at most, and none to an
      address it did not already lead to unless it leads there now. */
  lemma StepOuts(s: State, a: nat, pick: nat, n: nat, b: nat)
    requires Inv(s) && a != NTE_ADDR && n < |s.nodes| && b != NTE_ADDR && !HasOut(s, n, b)
    requires n != s.cur || Step(s, a, pick).cur == NTE
    ensures !HasOut(Step(s, a, pick), n, b)
  {
    hide InnerOk, CacheOk, EntriesOk;
    var (t, f) := Resolve(s, a, pick);
    ResolveInv(s, a, pick);
    ResolveGrows(s, a, pick);
    if QueryNext(s, a).None? {
      AddNextInv(s, a, pick);
    }
    forall e: nat ensures !LeadsTo(Step(s, a, pick), e, n, b) {
      assert !LeadsTo(s, e, n, b);
    }
  }

  /** Every entry node is registered, and every registered node is an entry node
      of its region. */
  ghost predicate EntryNodesRegistered(s: State) {
    && (forall r, n :: 0 <= r < |s.regions| && n in s.regions[r].entryNodes ==>
          0 < n < |s.nodes| && s.nodes[n].addr in s.entries && s.entries[s.nodes[n].addr] == n)
    && (forall a :: a in s.entries ==>
          && s.entries[a] < |s.nodes| && s.nodes[s.entries[a]].region < |s.regions|
          && s.entries[a] in s.regions[s.nodes[s.entries[a]].region].entryNodes)
  }

  lemma StepEntryNodes(s: State, a: nat, pick: nat)
    requires Inv(s) && a != NTE_ADDR
    ensures SameMembers(s.regions, Step(s, a, pick).regions)
  {
    ResolveInv(s, a, pick);
  }

  lemma StepKeepsRegistered(s: State, a: nat, pick: nat)
    requires Inv(s) && a != NTE_ADDR && EntryNodesRegistered(s)
    ensures EntryNodesRegistered(Step(s, a, pick))
  {
    StepEntryNodes(s, a, pick);
    StepRegions(s, a, pick);
  }

  /** Entries are intact: the cache in front of them cannot go stale, every region
      has entry nodes that are registered, and no entry was ever overwritten, since
      there are as many as regions. */
  ghost predicate EntriesIntact(s: State) {
    EntersAtEntry(s) && EntryNodesRegistered(s) && |s.regions| == |s.entries| + 1
  }

  /** The entries of `s` are still those they were. */
  ghost predicate EntriesKept(s: State, t: State) {
    forall a :: a in s.entries ==> a in t.entries && t.entries[a] == s.entries[a]
  }

  lemma StepKeepsIntact(s: State, a: nat, pick: nat)
    requires Inv(s) && a != NTE_ADDR && EntriesIntact(s)
    ensures EntriesIntact(Step(s, a, pick)) && Step(s, a, pick).entries == s.entries
  {
    hide Inv, Step, EntersAtEntry, EntryNodesRegistered;
    StepEntersAtEntry(s, a, pick);
    StepKeepsRegistered(s, a, pick);
    StepRegions(s, a, pick);
  }

  /** Growth inside regions that leaves their entry nodes alone. */
  lemma GrowthKeepsIntact(s: State, t: State)
    requires Inv(s) && Inv(t) && EntriesIntact(s) && s.nodes <= t.nodes && s.edges <= t.edges
    requires t.entries == s.entries && |t.regions| == |s.regions|
    requires forall r :: 0 <= r < |s.regions| ==> t.regions[r].entryNodes == s.regions[r].entryNodes
    requires forall e: nat :: |s.edges| <= e < |t.edges| ==>
               RegionOf(t.nodes, t.edges[e].src) == RegionOf(t.nodes, t.edges[e].tgt)
    ensures EntriesIntact(t)
  {
    GrowthEntersAtEntry(s, t);
    hide Inv, EntersAtEntry;
    assert forall n :: 0 <= n < |s.nodes| ==> t.nodes[n] == s.nodes[n];
  }
}
