/** What the region formation techniques share: thresholds, the profiler and the
    construction of a region from recorded addresses. */
module RegionFormation {
  import opened Wrappers
  import opened Tea
  import opened Flow
  import opened Entries
  import opened Rain

  const MAX_INST_REG: nat := 1000

  datatype Config = Config(hotThreshold: nat, systemThreshold: nat, mixUsrSys: bool)

  predicate IsUserInstr(c: Config, a: nat) { a < c.systemThreshold }

  predicate SwitchedMode(c: Config, a: nat, b: nat) { IsUserInstr(c, a) != IsUserInstr(c, b) }

  predicate IsRegionAddrSpace(c: Config, buffer: seq<nat>, a: nat) {
    |buffer| == 0 || !SwitchedMode(c, buffer[0], a) || c.mixUsrSys
  }

  // ---------- Profiler ----------

  type Counters = map<nat, nat>

  function Bumped(p: Counters, a: nat): Counters {
    p[a := if a in p then p[a] + 1 else 1]
  }

  predicate IsHot(c: Config, p: Counters, a: nat) {
    a in p && p[a] >= c.hotThreshold
  }

  class Profiler {
    var instrFreqCounter: Counters

    constructor ()
      ensures instrFreqCounter == map[]
    {
      instrFreqCounter := map[];
    }

    method Update(addr: nat)
      modifies this
      ensures instrFreqCounter == Bumped(old(instrFreqCounter), addr)
    {
      if addr !in instrFreqCounter {
        instrFreqCounter := instrFreqCounter[addr := 1];
      } else {
        instrFreqCounter := instrFreqCounter[addr := instrFreqCounter[addr] + 1];
      }
    }

    /** The source asserts that the counter exists. */
    method Reset(addr: nat)
      requires addr in instrFreqCounter
      modifies this
      ensures instrFreqCounter == old(instrFreqCounter)[addr := 3]
    {
      instrFreqCounter := instrFreqCounter[addr := 3];
    }
  }

  // ---------- Building a region ----------

  predicate NonZero(buffer: seq<nat>) {
    forall i :: 0 <= i < |buffer| ==> buffer[i] != NTE_ADDR
  }

  /** The node of region `r` with the address, made if there is none. */
  function NodeFor(s: State, r: nat, a: nat): (State, nat)
    requires r < |s.regions|
  {
    var g := GetNode(s, r, a, 0);
    if g.Some? then (s, g.value) else (AddNode(s, r, a), |s.nodes|)
  }

  /** An edge from `last` to `n`, unless `last` already leads to that address. */
  function LinkTo(s: State, r: nat, last: nat, n: nat): State
    requires r < |s.regions| && last < |s.outs| && n < |s.nodes| && SizesOk(s)
  {
    if FindOut(s, last, s.nodes[n].addr).Some? then AfterFindOut(s, last, s.nodes[n].addr)
    else CreateInnerEdge(s, r, last, n)
  }

  lemma NodeForInv(s: State, r: nat, a: nat)
    requires Inv(s) && 0 < r < |s.regions| && a != NTE_ADDR
    ensures var (t, n) := NodeFor(s, r, a);
            && Inv(t) && n < |t.nodes| && t.nodes[n] == Node(a, r) && |t.regions| == |s.regions|
            && Grows(s, t) && t.entries == s.entries
  {
    if GetNode(s, r, a, 0).None? {
      AddNodeInv(s, r, a);
    }
  }

  /** No two nodes of region `r` have the same address. */
  ghost predicate UniqueIn(s: State, r: nat) {
    forall i, j :: 0 <= i < j < |s.nodes| && s.nodes[i].region == r ==> s.nodes[j] != s.nodes[i]
  }

  lemma UniqueGetNode(s: State, r: nat, a: nat, pick: nat)
    requires UniqueIn(s, r)
    ensures GetNode(s, r, a, pick) == GetNode(s, r, a, 0)
  {
  }

  lemma NodeForUnique(s: State, r: nat, a: nat)
    requires r < |s.regions| && UniqueIn(s, r)
    ensures UniqueIn(NodeFor(s, r, a).0, r)
  {
  }

  lemma NewRegionIsEmpty(s: State)
    requires Inv(s)
    ensures UniqueIn(CreateRegion(s), |s.regions|)
    ensures forall a, pick :: GetNode(CreateRegion(s), |s.regions|, a, pick).None?
  {
  }

  lemma LinkToInv(s: State, r: nat, last: nat, n: nat)
    requires Inv(s) && 0 < r < |s.regions| && last < |s.nodes| && n < |s.nodes|
    requires s.nodes[last].region == r == s.nodes[n].region
    ensures var t := LinkTo(s, r, last, n);
            && Inv(t) && |t.regions| == |s.regions| && Grows(s, t) && t.entries == s.entries && t.nodes == s.nodes
  {
    var a := s.nodes[n].addr;
    FindOutFinds(s, last, a);
    if FindOut(s, last, a).Some? {
      AfterFindOutInv(s, last, a);
    } else {
      CreateInnerEdgeInv(s, r, last, n);
    }
  }

  /** One recorded address added to region `r`: the first becomes the entry, the
      others are linked to the one before. */
  function Extend(s: State, r: nat, last: Option<nat>, a: nat): (res: (State, nat))
    requires Inv(s) && 0 < r < |s.regions| && a != NTE_ADDR
    requires last.Some? ==> last.value < |s.nodes| && s.nodes[last.value].region == r
    ensures Inv(res.0) && res.1 < |res.0.nodes| && res.0.nodes[res.1] == Node(a, r)
    ensures |res.0.regions| == |s.regions|
  {
    NodeForInv(s, r, a);
    var (t, n) := NodeFor(s, r, a);
    if last.None? then
      SetEntryInv(t, n);
      (SetEntry(t, n), n)
    else
      LinkToInv(t, r, last.value, n);
      (LinkTo(t, r, last.value, n), n)
  }

  /** The automaton after the first `k` recorded addresses, and the last node. */
  function BuildTo(s: State, buffer: seq<nat>, k: nat): (res: (State, Option<nat>))
    requires Inv(s) && k <= |buffer| && NonZero(buffer)
    ensures Inv(res.0) && |res.0.regions| == |s.regions| + 1
    ensures res.1.Some? <==> k > 0
    ensures res.1.Some? ==> res.1.value < |res.0.nodes| && res.0.nodes[res.1.value] == Node(buffer[k - 1], |s.regions|)
  {
    if k == 0 then
      CreateRegionInv(s);
      (CreateRegion(s), None)
    else
      var (t, last) := BuildTo(s, buffer, k - 1);
      var (u, n) := Extend(t, |s.regions|, last, buffer[k - 1]);
      (u, Some(n))
  }

  /** `buildRegion` on a buffer that is not empty. */
  function BuildRegion(s: State, buffer: seq<nat>): (t: State)
    requires Inv(s) && buffer != [] && NonZero(buffer)
    ensures Inv(t)
  {
    var (t, last) := BuildTo(s, buffer, |buffer|);
    SetExitInv(t, last.value);
    SetExit(t, last.value)
  }

  /** Growth within region `r`: nothing else about the automaton changes. */
  ghost predicate GrowsWithin(s: State, t: State, r: nat) {
    && Grows(s, t)
    && |t.regions| == (if |s.regions| <= r then r + 1 else |s.regions|)
    && (forall q :: 0 <= q < |s.regions| && q != r ==> t.regions[q] == s.regions[q])
    && (forall n :: |s.nodes| <= n < |t.nodes| ==> t.nodes[n].region == r)
    && (forall e :: |s.edges| <= e < |t.edges| ==>
          RegionOf(t.nodes, t.edges[e].src) == r && RegionOf(t.nodes, t.edges[e].tgt) == r)
  }

  lemma GrowsWithinTransitive(s: State, t: State, u: State, r: nat)
    requires Inv(s) && Inv(t) && GrowsWithin(s, t, r) && GrowsWithin(t, u, r)
    ensures GrowsWithin(s, u, r)
  {
    forall e | |s.edges| <= e < |u.edges|
      ensures RegionOf(u.nodes, u.edges[e].src) == r && RegionOf(u.nodes, u.edges[e].tgt) == r
    {
      if e < |t.edges| {
        assert u.edges[e] == t.edges[e];
      }
    }
  }

  lemma NodeForWithin(s: State, r: nat, a: nat)
    requires Inv(s) && 0 < r < |s.regions| && a != NTE_ADDR
    ensures GrowsWithin(s, NodeFor(s, r, a).0, r)
  {
  }

  lemma LinkToWithin(s: State, r: nat, last: nat, n: nat)
    requires Inv(s) && 0 < r < |s.regions| && last < |s.nodes| && n < |s.nodes|
    requires s.nodes[last].region == r == s.nodes[n].region
    ensures GrowsWithin(s, LinkTo(s, r, last, n), r)
  {
  }

  lemma ExtendWithin(s: State, r: nat, last: Option<nat>, a: nat)
    requires Inv(s) && 0 < r < |s.regions| && a != NTE_ADDR
    requires last.Some? ==> last.value < |s.nodes| && s.nodes[last.value].region == r
    ensures GrowsWithin(s, Extend(s, r, last, a).0, r)
  {
    NodeForInv(s, r, a);
    NodeForWithin(s, r, a);
    var (t, n) := NodeFor(s, r, a);
    if last.Some? {
      LinkToInv(t, r, last.value, n);
      LinkToWithin(t, r, last.value, n);
      GrowsWithinTransitive(s, t, LinkTo(t, r, last.value, n), r);
    }
  }

  lemma {:induction false} BuildToWithin(s: State, buffer: seq<nat>, k: nat)
    requires Inv(s) && k <= |buffer| && NonZero(buffer)
    ensures GrowsWithin(s, BuildTo(s, buffer, k).0, |s.regions|)
  {
    if k > 0 {
      var (t, last) := BuildTo(s, buffer, k - 1);
      BuildToWithin(s, buffer, k - 1);
      ExtendWithin(t, |s.regions|, last, buffer[k - 1]);
      GrowsWithinTransitive(s, t, Extend(t, |s.regions|, last, buffer[k - 1]).0, |s.regions|);
    }
  }

  /** Only the first recorded address becomes an entry. */
  lemma {:induction false} BuildToEntries(s: State, buffer: seq<nat>, k: nat)
    requires Inv(s) && k <= |buffer| && NonZero(buffer)
    ensures BuildTo(s, buffer, k).0.entries == if k == 0 then s.entries else s.entries[buffer[0] := |s.nodes|]
  {
    hide NodeFor;
    if k > 0 {
      var (t, last) := BuildTo(s, buffer, k - 1);
      BuildToEntries(s, buffer, k - 1);
      ExtendEntries(t, |s.regions|, last, buffer[k - 1]);
      if k == 1 {
        FirstNodeIsNew(s, buffer[0]);
      }
    }
  }

  lemma ExtendEntries(s: State, r: nat, last: Option<nat>, a: nat)
    requires Inv(s) && 0 < r < |s.regions| && a != NTE_ADDR
    requires last.Some? ==> last.value < |s.nodes| && s.nodes[last.value].region == r
    ensures var (t, n) := Extend(s, r, last, a);
            t.entries == if last.Some? then s.entries else s.entries[a := n]
  {
    NodeForInv(s, r, a);
    var (t, n) := NodeFor(s, r, a);
    if last.Some? {
      LinkToInv(t, r, last.value, n);
    }
  }

  lemma FirstNodeIsNew(s: State, a: nat)
    requires Inv(s) && a != NTE_ADDR
    ensures Inv(CreateRegion(s)) && Extend(CreateRegion(s), |s.regions|, None, a).1 == |s.nodes|
  {
    CreateRegionInv(s);
    NewRegionIsEmpty(s);
  }

  /** The first node is the only entry node of the new region. */
  lemma {:induction false} BuildToEntryNodes(s: State, buffer: seq<nat>, k: nat)
    requires Inv(s) && k <= |buffer| && NonZero(buffer)
    ensures BuildTo(s, buffer, k).0.regions[|s.regions|].entryNodes == if k == 0 then {} else {|s.nodes|}
  {
    hide NodeFor, InnerOk, CacheOk, Deterministic;
    if k > 0 {
      var (t, last) := BuildTo(s, buffer, k - 1);
      BuildToEntryNodes(s, buffer, k - 1);
      ExtendEntryNodes(t, |s.regions|, last, buffer[k - 1]);
      if k == 1 {
        FirstNodeIsNew(s, buffer[0]);
      }
    }
  }

  lemma ExtendEntryNodes(s: State, r: nat, last: Option<nat>, a: nat)
    requires Inv(s) && 0 < r < |s.regions| && a != NTE_ADDR
    requires last.Some? ==> last.value < |s.nodes| && s.nodes[last.value].region == r
    ensures var (t, n) := Extend(s, r, last, a);
            t.regions[r].entryNodes == if last.Some? then s.regions[r].entryNodes else s.regions[r].entryNodes + {n}
  {
    NodeForInv(s, r, a);
    var (t, n) := NodeFor(s, r, a);
    if last.Some? {
      LinkToInv(t, r, last.value, n);
    }
  }

  lemma SetExitWithin(s: State, t: State, n: nat)
    requires GrowsWithin(s, t, |s.regions|) && n < |t.nodes| && t.nodes[n].region == |s.regions|
    ensures GrowsWithin(s, SetExit(t, n), |s.regions|)
  {
  }

  /** A region is built beside everything that exists: one new region, registered
      under the first recorded address; no entry is overwritten when that address
      had none. */
  lemma BuildRegionWithin(s: State, buffer: seq<nat>)
    requires Inv(s) && buffer != [] && NonZero(buffer)
    ensures var t := BuildRegion(s, buffer);
            && GrowsWithin(s, t, |s.regions|)
            && t.entries == s.entries[buffer[0] := |s.nodes|]
  {
    var (t, last) := BuildTo(s, buffer, |buffer|);
    BuildToWithin(s, buffer, |buffer|);
    BuildToEntries(s, buffer, |buffer|);
    SetExitWithin(s, t, last.value);
  }

  lemma BuildRegionRegistered(s: State, buffer: seq<nat>)
    requires Inv(s) && buffer != [] && NonZero(buffer)
    requires EntryNodesRegistered(s) && buffer[0] !in s.entries
    ensures EntryNodesRegistered(BuildRegion(s, buffer))
  {
    hide BuildTo, InnerOk, CacheOk, Deterministic;
    var t, u := BuildTo(s, buffer, |buffer|).0, BuildRegion(s, buffer);
    BuildRegionWithin(s, buffer);
    BuildToEntryNodes(s, buffer, |buffer|);
    FirstNodeOfRegion(s, buffer);
    var m := |s.regions|;
    assert u.regions[m].entryNodes == {|s.nodes|};
    forall r, n | 0 <= r < |u.regions| && n in u.regions[r].entryNodes
      ensures 0 < n < |u.nodes| && u.nodes[n].addr in u.entries && u.entries[u.nodes[n].addr] == n
    {
      if r < m {
        assert u.regions[r] == s.regions[r] && u.nodes[n] == s.nodes[n];
      }
    }
    forall a | a in u.entries
      ensures u.entries[a] < |u.nodes| && u.nodes[u.entries[a]].region < |u.regions|
      ensures u.entries[a] in u.regions[u.nodes[u.entries[a]].region].entryNodes
    {
      if a != buffer[0] {
        assert u.nodes[s.entries[a]] == s.nodes[s.entries[a]];
      }
    }
  }

  lemma FirstNodeOfRegion(s: State, buffer: seq<nat>)
    requires Inv(s) && buffer != [] && NonZero(buffer)
    ensures var u := BuildRegion(s, buffer); |s.nodes| < |u.nodes| && u.nodes[|s.nodes|] == Node(buffer[0], |s.regions|)
  {
    BuildRegionWithin(s, buffer);
    var u := BuildRegion(s, buffer);
    assert buffer[0] in u.entries && u.entries[buffer[0]] == |s.nodes|;
  }

  lemma BuildRegionEntersAtEntry(s: State, buffer: seq<nat>)
    requires Inv(s) && buffer != [] && NonZero(buffer)
    requires EntersAtEntry(s) && buffer[0] !in s.entries
    ensures EntersAtEntry(BuildRegion(s, buffer))
  {
    var t := BuildRegion(s, buffer);
    BuildRegionWithin(s, buffer);
    GrowthEntersAtEntry(s, t);
  }

  /** `buildRegion`: nothing is built from an empty buffer. */
  function BuildIfAny(s: State, buffer: seq<nat>): (t: State)
    requires Inv(s) && NonZero(buffer)
    ensures Inv(t)
  {
    if buffer == [] then s else BuildRegion(s, buffer)
  }

  /** Building a region overwrites no entry and leaves all of them intact. */
  lemma BuildKeepsIntact(s: State, buffer: seq<nat>)
    requires Inv(s) && EntriesIntact(s) && NonZero(buffer) && (buffer != [] ==> buffer[0] !in s.entries)
    ensures var t := BuildIfAny(s, buffer); Grows(s, t) && EntriesIntact(t) && EntriesKept(s, t)
  {
    hide Inv, BuildRegion, EntersAtEntry, EntryNodesRegistered;
    if buffer == [] {
      GrowsItself(s);
    } else {
      BuildRegionWithin(s, buffer);
      BuildRegionEntersAtEntry(s, buffer);
      BuildRegionRegistered(s, buffer);
    }
  }

  /** `buildRegion` on the automaton itself; the region built, if any. */
  method BuildRegionIn(rain: RAIn, buffer: seq<nat>) returns (r: Option<nat>)
    requires rain.Valid() && NonZero(buffer)
    modifies rain
    ensures rain.Valid() && rain.State() == BuildIfAny(old(rain.State()), buffer)
    ensures rain.history == old(rain.history)
    ensures r == if buffer == [] then None else Some(old(|rain.regions|))
  {
    if |buffer| == 0 { return None; }
    ghost var s := rain.State();
    var region := rain.CreateRegion();
    NewRegionIsEmpty(s);
    var lastNode: Option<nat> := None;
    var i := 0;
    while i < |buffer|
      invariant i <= |buffer| && rain.Valid() && rain.history == old(rain.history)
      invariant region == |s.regions| && UniqueIn(rain.State(), region)
      invariant (rain.State(), lastNode) == BuildTo(s, buffer, i)
    {
      var node := ExtendIn(rain, region, lastNode, buffer[i]);
      lastNode := Some(node);
      i := i + 1;
    }
    rain.SetExit(lastNode.value);
    return Some(region);
  }

  method ExtendIn(rain: RAIn, r: nat, last: Option<nat>, a: nat) returns (node: nat)
    requires rain.Valid() && 0 < r < |rain.regions| && a != NTE_ADDR && UniqueIn(rain.State(), r)
    requires last.Some? ==> last.value < |rain.nodes| && rain.nodes[last.value].region == r
    modifies rain
    ensures rain.Valid() && (rain.State(), node) == Extend(old(rain.State()), r, last, a)
    ensures rain.history == old(rain.history) && UniqueIn(rain.State(), r)
  {
    ghost var s := rain.State();
    NodeForUnique(s, r, a);
    NodeForInv(s, r, a);
    node := NodeIn(rain, r, a);
    if last.None? {
      rain.SetEntry(node);
    } else {
      LinkToInv(rain.State(), r, last.value, node);
      LinkIn(rain, r, last.value, node);
    }
  }

  method NodeIn(rain: RAIn, r: nat, a: nat) returns (node: nat)
    requires rain.Valid() && 0 < r < |rain.regions| && a != NTE_ADDR
    requires UniqueIn(rain.State(), r)
    modifies rain
    ensures rain.Valid() && (rain.State(), node) == NodeFor(old(rain.State()), r, a)
    ensures rain.history == old(rain.history)
  {
    var found, pick := rain.GetNode(r, a);
    UniqueGetNode(rain.State(), r, a, pick);
    if found.Some? { return found.value; }
    node := rain.InsertNewNode(r, a);
  }

  method LinkIn(rain: RAIn, r: nat, last: nat, node: nat)
    requires rain.Valid() && 0 < r < |rain.regions| && last < |rain.nodes| && node < |rain.nodes|
    requires rain.nodes[last].region == r == rain.nodes[node].region
    modifies rain
    ensures rain.Valid() && rain.State() == LinkTo(old(rain.State()), r, last, node)
    ensures rain.history == old(rain.history)
  {
    ghost var s := rain.State();
    FindOutFinds(s, last, rain.nodes[node].addr);
    LinkToInv(s, r, last, node);
    var found := rain.FindOutEdge(last, rain.nodes[node].addr);
    if found.None? {
      assert rain.State() == s;
      var _ := rain.CreateInnerRegionEdge(r, last, node);
    } else {
      GrowthConsistent(s, rain.State(), rain.history, rain.loopInit);
    }
  }
}
