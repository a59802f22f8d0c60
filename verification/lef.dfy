/** Last Executing Function: a region that ends in a return absorbs the regions
    whose exits lead to its entry, back to the one that came from a call. */
module Lef {
  import opened EdgeOrder
  import opened Tea
  import opened Flow
  import opened Entries
  import opened Rain
  import opened RegionFormation
  import opened Recording
  import opened Paths

  predicate IsRetInst(op: nat) { op == 0xc3 || op == 0xcb }

  predicate IsCallInst(op: nat) { op == 0xe8 || op == 0xff || op == 0x9a }

  /** For every region, the (source, target) addresses of its exits to `nte`. */
  type OutAddrs = map<nat, set<(nat, nat)>>

  // ---------- Neighbours ----------

  ghost predicate IsEntryAddr(s: State, r: nat, a: nat)
    requires r < |s.regions|
  {
    exists n :: n in s.regions[r].entryNodes && n < |s.nodes| && s.nodes[n].addr == a
  }

  predicate Compatible(c: Config, e: (nat, nat)) {
    c.mixUsrSys || !SwitchedMode(c, e.0, e.1)
  }

  /** An exit of region `q` leads to an entry of region `reg`. */
  ghost predicate LeadsToEntry(c: Config, s: State, out: OutAddrs, q: nat, reg: nat)
    requires reg < |s.regions|
  {
    q in out && exists e :: e in out[q] && Compatible(c, e) && IsEntryAddr(s, reg, e.1)
  }

  ghost function Neighbors(c: Config, s: State, out: OutAddrs, reg: nat): set<nat>
    requires reg < |s.regions|
  {
    set q | q in out && q < |s.regions| && s.regions[q].alive && LeadsToEntry(c, s, out, q, reg)
  }

  // ---------- Merging ----------

  /** `reg` has absorbed the regions in `dead`: it has all their addresses and
      nothing more, they are no longer alive, and nothing else has changed. */
  ghost predicate Absorbed(s: State, t: State, reg: nat, dead: set<nat>) {
    && Inv(t) && Distinct(t.nodes) && Grows(s, t) && t.edges == s.edges && t.entries == s.entries
    && t.expansions == s.expansions
    && reg < |s.regions| == |t.regions| && reg !in dead
    && (forall q: nat :: q < |s.regions| && q != reg ==>
          t.regions[q] == s.regions[q].(alive := s.regions[q].alive && q !in dead))
    && t.regions[reg].entryNodes == s.regions[reg].entryNodes && t.regions[reg].alive == s.regions[reg].alive
    && t.regions[reg].isFromExpansion == (s.regions[reg].isFromExpansion || dead != {})
    && (forall m: nat :: |s.nodes| <= m < |t.nodes| ==> t.nodes[m].region == reg && CameFrom(s, dead, t.nodes[m].addr))
    && (forall q: nat, a: nat :: q in dead && HasAddr(s, q, a) ==> HasAddr(t, reg, a))
  }

  ghost predicate CameFrom(s: State, dead: set<nat>, a: nat) {
    exists q :: q in dead && HasAddr(s, q, a)
  }

  /** The nodes of region `q` outside `visited` are still to be copied to `reg`. */
  ghost predicate Copied(s: State, t: State, reg: nat, q: nat, visited: set<nat>) {
    && Inv(t) && Distinct(t.nodes) && Grows(s, t) && t.edges == s.edges && t.entries == s.entries
    && t.expansions == s.expansions
    && reg < |s.regions| == |t.regions|
    && (forall p: nat :: p < |s.regions| && p != reg ==> t.regions[p] == s.regions[p])
    && t.regions[reg] == s.regions[reg].(nodes := t.regions[reg].nodes)
    && (forall m: nat :: |s.nodes| <= m < |t.nodes| ==> t.nodes[m].region == reg && HasAddr(s, q, t.nodes[m].addr))
    && (forall n: nat :: n in visited && n < |s.nodes| ==> HasAddr(t, reg, s.nodes[n].addr))
  }

  lemma CopyOne(s: State, t: State, reg: nat, q: nat, visited: set<nat>, n: nat)
    requires Inv(s) && Copied(s, t, reg, q, visited) && 0 < reg && 0 < n < |s.nodes| && s.nodes[n].region == q
    ensures Copied(s, NodeFor(t, reg, s.nodes[n].addr).0, reg, q, visited + {n})
  {
    hide RegionsOk, InnerOk, CacheOk;
    var a := s.nodes[n].addr;
    var (u, k) := NodeFor(t, reg, a);
    NodeForInv(t, reg, a);
    assert HasAddr(u, reg, a);
    assert HasAddr(s, q, a);
    forall m: nat | m in visited + {n} && m < |s.nodes| ensures HasAddr(u, reg, s.nodes[m].addr) {
      if m in visited {
        GrowthKeepsAddr(t, u, reg, s.nodes[m].addr);
      }
    }
  }

  lemma NothingAbsorbed(s: State, reg: nat)
    requires Inv(s) && Distinct(s.nodes) && reg < |s.regions|
    ensures Absorbed(s, s, reg, {})
  {
  }

  /** Absorbing one more region. */
  lemma AbsorbOne(s: State, t: State, u: State, reg: nat, dead: set<nat>, q: nat)
    requires Inv(s) && Absorbed(s, t, reg, dead) && q != reg && 0 < q < |s.regions|
    requires Copied(t, u, reg, q, t.regions[q].nodes)
    ensures Absorbed(s, MarkMerged(u, q, reg), reg, dead + {q})
  {
    var v := MarkMerged(u, q, reg);
    MarkMergedInv(u, q, reg);
    AbsorbedRegions(s, t, v, reg, dead, q);
    forall m: nat | |s.nodes| <= m < |v.nodes| ensures v.nodes[m].region == reg && CameFrom(s, dead + {q}, v.nodes[m].addr) {
      var a := v.nodes[m].addr;
      if m < |t.nodes| {
        assert v.nodes[m] == t.nodes[m] && CameFrom(s, dead, a);
        var p :| p in dead && HasAddr(s, p, a);
      } else {
        SameElsewhere(s, t, reg, dead, q, a);
      }
    }
    forall p: nat, a: nat | p in dead + {q} && HasAddr(s, p, a) ensures HasAddr(v, reg, a) {
      if p == q {
        var n :| 0 <= n < |s.nodes| && s.nodes[n] == Node(a, q);
        assert n in s.regions[q].nodes && t.nodes[n] == s.nodes[n];
        assert t.regions[q].nodes == s.regions[q].nodes;
        assert HasAddr(u, reg, a);
      } else {
        GrowthKeepsAddr(t, u, reg, a);
      }
      var k :| 0 <= k < |u.nodes| && u.nodes[k] == Node(a, reg);
      assert v.nodes[k] == Node(a, reg);
    }
  }

  lemma AbsorbedRegions(s: State, t: State, v: State, reg: nat, dead: set<nat>, q: nat)
    requires Absorbed(s, t, reg, dead) && q != reg && q < |s.regions| == |v.regions|
    requires forall p: nat :: p < |s.regions| && p != reg && p != q ==> v.regions[p] == t.regions[p]
    requires v.regions[q] == t.regions[q].(alive := false)
    ensures forall p: nat :: p < |s.regions| && p != reg ==>
              v.regions[p] == s.regions[p].(alive := s.regions[p].alive && p !in dead + {q})
  {
  }

  /** Outside `reg` no node has appeared. */
  lemma SameElsewhere(s: State, t: State, reg: nat, dead: set<nat>, q: nat, a: nat)
    requires Absorbed(s, t, reg, dead) && q != reg
    ensures HasAddr(t, q, a) <==> HasAddr(s, q, a)
  {
    if HasAddr(t, q, a) {
      var n :| 0 <= n < |t.nodes| && t.nodes[n] == Node(a, q);
      assert n < |s.nodes| && s.nodes[n] == t.nodes[n];
    }
    if HasAddr(s, q, a) {
      GrowthKeepsAddr(s, t, q, a);
    }
  }

  method MergeRegions(rain: RAIn, src: nat, tgt: nat)
    requires rain.Valid() && Distinct(rain.nodes) && 0 < src < |rain.regions| && 0 < tgt < |rain.regions| && src != tgt
    modifies rain
    ensures rain.Valid() && rain.history == old(rain.history)
    ensures exists u :: Copied(old(rain.State()), u, tgt, src, old(rain.regions[src].nodes))
                        && rain.State() == MarkMerged(u, src, tgt)
  {
    CopyNodes(rain, src, tgt);
    ghost var u := rain.State();
    rain.MarkMerged(src, tgt);
  }

  method CopyNodes(rain: RAIn, src: nat, tgt: nat)
    requires rain.Valid() && Distinct(rain.nodes) && 0 < src < |rain.regions| && 0 < tgt < |rain.regions| && src != tgt
    modifies rain
    ensures rain.Valid() && rain.history == old(rain.history)
    ensures Copied(old(rain.State()), rain.State(), tgt, src, old(rain.regions[src].nodes))
  {
    hide Consistent;
    ghost var s := rain.State();
    NothingCopied(s, tgt, src);
    var rest := rain.regions[src].nodes;
    assert s.regions[src].nodes - rest == {};
    hide Copied, Inv, Consistent;
    while rest != {}
      invariant rest <= s.regions[src].nodes && rain.history == old(rain.history)
      invariant Copying(rain, s, tgt, src, s.regions[src].nodes - rest)
      decreases rest
    {
      var n :| n in rest;
      CopyNode(rain, s, tgt, src, s.regions[src].nodes - rest, n);
      assert s.regions[src].nodes - rest + {n} == s.regions[src].nodes - (rest - {n});
      rest := rest - {n};
    }
    assert s.regions[src].nodes - rest == s.regions[src].nodes;
  }

  lemma NothingCopied(s: State, tgt: nat, src: nat)
    requires Inv(s) && Distinct(s.nodes) && tgt < |s.regions|
    ensures Copied(s, s, tgt, src, {})
  {
  }

  ghost predicate Copying(rain: RAIn, s: State, tgt: nat, src: nat, done: set<nat>)
    reads rain
  {
    rain.Valid() && Copied(s, rain.State(), tgt, src, done)
  }

  method CopyNode(rain: RAIn, ghost s: State, tgt: nat, src: nat, ghost done: set<nat>, n: nat)
    requires Inv(s) && 0 < tgt < |s.regions| && src < |s.regions| && n in s.regions[src].nodes
    requires Copying(rain, s, tgt, src, done)
    modifies rain
    ensures Copying(rain, s, tgt, src, done + {n}) && rain.history == old(rain.history)
  {
    assert RegionOk(s.nodes, src, s.regions[src]);
    CopyOne(s, rain.State(), tgt, src, done, n);
    var _ := NodeIn(rain, tgt, rain.nodes[n].addr);
  }

  // ---------- Expanding a region ----------

  /** What an expansion has absorbed so far: neighbours only, none of which came
      from a call. */
  ghost predicate Absorbing(c: Config, s: State, t: State, out: OutAddrs, fromCall: map<nat, nat>, reg: nat, dead: set<nat>) {
    && Inv(s) && Distinct(s.nodes) && 0 < reg < |s.regions| && reg !in out
    && (forall q :: q in out ==> 0 < q < |s.regions|)
    && Absorbed(s, t, reg, dead)
    && dead <= Neighbors(c, s, out, reg) && dead !! fromCall.Keys
  }

  /** `t` is `u` with the node at the call target as the only entry node of `reg`. */
  ghost predicate EnteredAtCall(u: State, t: State, reg: nat, a: nat) {
    exists n :: 0 < n < |u.nodes| && u.nodes[n] == Node(a, reg) && reg < |u.regions| && t == ReplaceEntryNode(u, n)
  }

  /** Region `x`, which came from a call, is absorbed last, and the region is
      entered where that call led. */
  ghost predicate CallExitBy(c: Config, s: State, t: State, out: OutAddrs, fromCall: map<nat, nat>, reg: nat,
                             dead: set<nat>, x: nat, u: State) {
    && reg < |s.regions| && x in dead && dead <= Neighbors(c, s, out, reg) && dead * fromCall.Keys == {x}
    && Absorbed(s, u, reg, dead) && EnteredAtCall(u, t, reg, fromCall[x])
  }

  ghost predicate CallExit(c: Config, s: State, t: State, out: OutAddrs, fromCall: map<nat, nat>, reg: nat) {
    exists dead, x, u :: CallExitBy(c, s, t, out, fromCall, reg, dead, x, u)
  }

  /** Entry addresses of `reg` do not change while regions are absorbed. */
  lemma SameEntryAddrs(s: State, t: State, reg: nat, dead: set<nat>, a: nat)
    requires Inv(s) && Absorbed(s, t, reg, dead)
    ensures IsEntryAddr(t, reg, a) <==> IsEntryAddr(s, reg, a)
  {
    assert RegionOk(s.nodes, reg, s.regions[reg]);
    if IsEntryAddr(s, reg, a) {
      var n :| n in s.regions[reg].entryNodes && n < |s.nodes| && s.nodes[n].addr == a;
      assert t.nodes[n] == s.nodes[n];
    }
    if IsEntryAddr(t, reg, a) {
      var n :| n in t.regions[reg].entryNodes && n < |t.nodes| && t.nodes[n].addr == a;
      assert n < |s.nodes| && t.nodes[n] == s.nodes[n];
    }
  }

  /** Absorbing a neighbour. When it came from a call, the address the call led to
      is in the region now: the lookup of its node cannot fail. */
  lemma AbsorbNeighbor(c: Config, s: State, t: State, u: State, out: OutAddrs, fromCall: map<nat, nat>, reg: nat, dead: set<nat>, q: nat)
    requires Absorbing(c, s, t, out, fromCall, reg, dead) && q in Neighbors(c, s, out, reg)
    requires Copied(t, u, reg, q, t.regions[q].nodes)
    ensures Absorbed(s, MarkMerged(u, q, reg), reg, dead + {q})
    ensures q !in fromCall ==> Absorbing(c, s, MarkMerged(u, q, reg), out, fromCall, reg, dead + {q})
    ensures q in fromCall && HasAddr(s, q, fromCall[q]) ==> HasAddr(MarkMerged(u, q, reg), reg, fromCall[q])
  {
    AbsorbOne(s, t, u, reg, dead, q);
  }

  lemma CallExitHolds(c: Config, s: State, u: State, out: OutAddrs, fromCall: map<nat, nat>, reg: nat, dead: set<nat>, q: nat, n: nat)
    requires reg < |s.regions| && q in fromCall && q in Neighbors(c, s, out, reg)
    requires dead <= Neighbors(c, s, out, reg) && dead !! fromCall.Keys
    requires Absorbed(s, u, reg, dead + {q}) && 0 < n < |u.nodes| && u.nodes[n] == Node(fromCall[q], reg)
    ensures CallExit(c, s, ReplaceEntryNode(u, n), out, fromCall, reg)
  {
    var all := dead + {q};
    assert EnteredAtCall(u, ReplaceEntryNode(u, n), reg, fromCall[q]);
    assert all * fromCall.Keys == {q};
    assert CallExitBy(c, s, ReplaceEntryNode(u, n), out, fromCall, reg, all, q, u);
  }

  // ---------- The state machine ----------

  datatype LefState = LefState(tea: State, rec: Recorder, retRegion: nat, callRegion: nat, lastOp: nat,
                               out: OutAddrs, fromCall: map<nat, nat>)

  ghost predicate FromCallOk(s: State, fromCall: map<nat, nat>) {
    forall q :: q in fromCall ==> 0 < q < |s.regions| && HasAddr(s, q, fromCall[q])
  }

  ghost predicate OutOk(s: State, out: OutAddrs) {
    forall q :: q in out ==> 0 < q < |s.regions|
  }

  /** What absorbing leaves: without a neighbour that came from a call all
      neighbours are absorbed. */
  ghost predicate Outcome(c: Config, s: State, u: State, out: OutAddrs, fromCall: map<nat, nat>, reg: nat) {
    reg < |s.regions| &&
    if Neighbors(c, s, out, reg) !! fromCall.Keys then Absorbed(s, u, reg, Neighbors(c, s, out, reg))
    else CallExit(c, s, u, out, fromCall, reg)
  }

  /** `expandRegion`. */
  ghost predicate ExpandedRegion(c: Config, s: State, t: State, out: OutAddrs, fromCall: map<nat, nat>, reg: nat) {
    if reg in fromCall then t == s
    else exists u :: Outcome(c, s, u, out, fromCall, reg) && t == u.(expansions := u.expansions + 1)
  }

  lemma NoneLeft(c: Config, s: State, t: State, out: OutAddrs, reg: nat)
    requires Inv(s) && reg < |s.regions| && reg !in out && OutOk(s, out) && Absorbed(s, t, reg, Neighbors(c, s, out, reg))
    ensures Neighbors(c, t, out, reg) == {}
  {
    var n := Neighbors(c, s, out, reg);
    forall a: nat ensures IsEntryAddr(t, reg, a) <==> IsEntryAddr(s, reg, a) {
      SameEntryAddrs(s, t, reg, n, a);
    }
    forall q: nat | q in out && q < |t.regions| ensures LeadsToEntry(c, t, out, q, reg) <==> LeadsToEntry(c, s, out, q, reg) {
    }
  }

  // ---------- What an expansion absorbs, written out ----------

  /** Exit `e` of a region leads to the address of an entry node of region `reg`, and both
      its ends are on the same side of the threshold unless sides may mix. */
  ghost predicate Enters(c: Config, s: State, e: (nat, nat), reg: nat)
    requires reg < |s.regions|
  {
    && (c.mixUsrSys || (e.0 < c.systemThreshold <==> e.1 < c.systemThreshold))
    && exists n :: n in s.regions[reg].entryNodes && n < |s.nodes| && s.nodes[n].addr == e.1
  }

  ghost predicate HasExitInto(c: Config, s: State, out: OutAddrs, q: nat, reg: nat)
    requires reg < |s.regions|
  {
    q in out && exists e :: e in out[q] && Enters(c, s, e, reg)
  }

  lemma NeighborIff(c: Config, s: State, out: OutAddrs, q: nat, reg: nat)
    requires reg < |s.regions|
    ensures q in Neighbors(c, s, out, reg) <==> q < |s.regions| && s.regions[q].alive && HasExitInto(c, s, out, q, reg)
  {
    if q in out {
      forall e | e in out[q] ensures Enters(c, s, e, reg) <==> Compatible(c, e) && IsEntryAddr(s, reg, e.1) {
      }
    }
  }

  /** An expansion without a call exit absorbs every region that is alive and has such an
      exit, and no other: it is no longer alive and all its addresses are in the region.
      Then no region that is alive has such an exit left. */
  lemma ExpansionAbsorbs(c: Config, s: State, t: State, out: OutAddrs, fromCall: map<nat, nat>, reg: nat)
    requires Inv(s) && 0 < reg < |s.regions| && reg !in out && reg !in fromCall && OutOk(s, out)
    requires ExpandedRegion(c, s, t, out, fromCall, reg)
    requires forall q :: q in fromCall && q < |s.regions| && s.regions[q].alive ==> !HasExitInto(c, s, out, q, reg)
    ensures |t.regions| == |s.regions| && t.regions[reg].entryNodes == s.regions[reg].entryNodes
    ensures forall q: nat :: q < |s.regions| ==>
              (t.regions[q].alive <==> s.regions[q].alive && (q == reg || !HasExitInto(c, s, out, q, reg)))
    ensures forall q: nat, a: nat :: q < |s.regions| && s.regions[q].alive && HasExitInto(c, s, out, q, reg) && HasAddr(s, q, a) ==>
              HasAddr(t, reg, a)
    ensures forall q: nat :: q < |s.regions| && t.regions[q].alive ==> !HasExitInto(c, t, out, q, reg)
  {
    var u :| Outcome(c, s, u, out, fromCall, reg) && t == u.(expansions := u.expansions + 1);
    forall q: nat ensures q in Neighbors(c, s, out, reg) <==> q < |s.regions| && s.regions[q].alive && HasExitInto(c, s, out, q, reg) {
      NeighborIff(c, s, out, q, reg);
    }
    assert Neighbors(c, s, out, reg) !! fromCall.Keys;
    NoneLeft(c, s, u, out, reg);
    hide Inv, Neighbors, HasExitInto, Outcome;
    CountsOnly(c, u, t, out, reg);
    forall q: nat | q < |s.regions| && t.regions[q].alive ensures !HasExitInto(c, t, out, q, reg) {
      NeighborIff(c, u, out, q, reg);
    }
    forall q: nat, a: nat | q < |s.regions| && s.regions[q].alive && HasExitInto(c, s, out, q, reg) && HasAddr(s, q, a)
      ensures HasAddr(t, reg, a)
    {
      assert HasAddr(u, reg, a);
    }
  }

  lemma CountsOnly(c: Config, u: State, t: State, out: OutAddrs, reg: nat)
    requires reg < |u.regions| && t == u.(expansions := u.expansions + 1)
    ensures forall q :: HasExitInto(c, t, out, q, reg) <==> HasExitInto(c, u, out, q, reg)
    ensures forall a :: HasAddr(t, reg, a) <==> HasAddr(u, reg, a)
  {
    forall q ensures HasExitInto(c, t, out, q, reg) <==> HasExitInto(c, u, out, q, reg) {
      if q in out {
        forall e | e in out[q] ensures Enters(c, t, e, reg) <==> Enters(c, u, e, reg) {
        }
      }
    }
  }

  /** With a call exit it absorbs no region without such an exit, either; one of those it
      absorbs came from a call, and the region is entered where that call led, only. */
  lemma CallExitAbsorbs(c: Config, s: State, t: State, out: OutAddrs, fromCall: map<nat, nat>, reg: nat, x: nat)
    requires Inv(s) && 0 < reg < |s.regions| && reg !in out && reg !in fromCall && OutOk(s, out)
    requires ExpandedRegion(c, s, t, out, fromCall, reg)
    requires x in fromCall && x < |s.regions| && s.regions[x].alive && HasExitInto(c, s, out, x, reg)
    ensures |t.regions| == |s.regions|
    ensures forall q: nat :: q < |s.regions| && s.regions[q].alive && !t.regions[q].alive ==> HasExitInto(c, s, out, q, reg)
    ensures exists y :: y in fromCall && y < |s.regions| && !t.regions[y].alive && EnteredOnlyAt(t, reg, fromCall[y])
  {
    var u :| Outcome(c, s, u, out, fromCall, reg) && t == u.(expansions := u.expansions + 1);
    NeighborIff(c, s, out, x, reg);
    assert CallExit(c, s, u, out, fromCall, reg);
    hide Inv, HasExitInto, Outcome, ExpandedRegion;
    var dead, y, v :| CallExitBy(c, s, u, out, fromCall, reg, dead, y, v);
    forall q | q in dead ensures HasExitInto(c, s, out, q, reg) {
      NeighborIff(c, s, out, q, reg);
    }
    hide Neighbors;
    EntersAtCall(s, u, t, reg, dead, y, v, fromCall[y]);
  }

  lemma EntersAtCall(s: State, u: State, t: State, reg: nat, dead: set<nat>, y: nat, v: State, a: nat)
    requires Absorbed(s, v, reg, dead) && EnteredAtCall(v, u, reg, a) && y in dead && y < |s.regions|
    requires t == u.(expansions := u.expansions + 1)
    ensures |t.regions| == |s.regions| && !t.regions[y].alive && EnteredOnlyAt(t, reg, a)
    ensures forall q: nat :: q < |s.regions| && s.regions[q].alive && !t.regions[q].alive ==> q in dead
  {
    hide Inv, Distinct, Grows;
    var n :| 0 < n < |v.nodes| && v.nodes[n] == Node(a, reg) && u == ReplaceEntryNode(v, n);
    assert t.nodes[n] == Node(a, reg) && t.regions[reg].entryNodes == {n};
  }

  /** Region `reg` has one entry node, and it is at address `a`. */
  ghost predicate EnteredOnlyAt(s: State, reg: nat, a: nat) {
    reg < |s.regions| && exists n :: 0 <= n < |s.nodes| && s.nodes[n] == Node(a, reg) && s.regions[reg].entryNodes == {n}
  }

  /** One neighbour, on the same side of the threshold. */
  lemma AbsorbsNeighbor(c: Config, s: State, t: State, reg: nat, q: nat)
    requires Inv(s) && 0 < reg < |s.regions| && 0 < q < |s.regions| && q != reg && s.regions[q].alive
    requires c.systemThreshold > 0x20 && IsEntryAddr(s, reg, 0x10)
    requires ExpandedRegion(c, s, t, map[q := {(0x20, 0x10)}], map[], reg)
    ensures |t.regions| == |s.regions| && !t.regions[q].alive && forall a :: HasAddr(s, q, a) ==> HasAddr(t, reg, a)
  {
    var out: OutAddrs := map[q := {(0x20, 0x10)}];
    assert (0x20, 0x10) in out[q] && Enters(c, s, (0x20, 0x10), reg);
    assert HasExitInto(c, s, out, q, reg);
    ExpansionAbsorbs(c, s, t, out, map[], reg);
  }

  /** A neighbour whose exit crosses the threshold stays as it is when sides may not mix. */
  lemma KeepsAcrossThreshold(c: Config, s: State, t: State, reg: nat, q: nat)
    requires Inv(s) && 0 < reg < |s.regions| && 0 < q < |s.regions| && q != reg && s.regions[q].alive
    requires c.systemThreshold == 0x20 && !c.mixUsrSys
    requires ExpandedRegion(c, s, t, map[q := {(0x20, 0x10)}], map[], reg)
    ensures |t.regions| == |s.regions| && t.regions[q].alive
  {
    var out: OutAddrs := map[q := {(0x20, 0x10)}];
    assert !HasExitInto(c, s, out, q, reg);
    ExpansionAbsorbs(c, s, t, out, map[], reg);
  }

  // ---------- One trace item ----------

  /** `updateOutAddrs` on an exit to `nte`. */
  function OutAfter(s: State, out: OutAddrs, k: Taken, a: nat): OutAddrs
    requires s.cur < |s.nodes|
  {
    if !k.exitsRegion then out
    else
      var r, e := s.nodes[s.cur].region, (s.nodes[s.cur].addr, a);
      out[r := if r in out then out[r] + {e} else {e}]
  }

  /** The marks of a recording: the last return in it, and the last call target. */
  function RetAfter(m: LefState, a: nat, op: nat): nat {
    if IsRetInst(op) then a else m.retRegion
  }

  function CallAfter(m: LefState, stops: bool, a: nat): nat {
    if IsCallInst(m.lastOp) && (m.rec.buffer == [] || !stops) then a else m.callRegion
  }

  /** A recording stopped by a region entered through a call marks that region. */
  function FromCallAfter(m: LefState, k: Taken, a: nat): map<nat, nat>
    requires m.tea.cur < |m.tea.nodes|
  {
    if !k.toNte && IsCallInst(m.lastOp) then m.fromCall[m.tea.nodes[m.tea.cur].region := a] else m.fromCall
  }

  /** The last return of the recording becomes an exit, if it is in the region. */
  function ExitAtReturn(s: State, r: nat, ret: nat): State
    requires Inv(s)
  {
    var n := GetNode(s, r, ret, 0);
    if n.Some? then SetExit(s, n.value) else s
  }

  ghost predicate ExpandedThenExit(c: Config, s: State, x: State, t: State, out: OutAddrs, fromCall: map<nat, nat>, reg: nat, ret: nat) {
    Inv(x) && ExpandedRegion(c, s, x, out, fromCall, reg) && t == ExitAtReturn(x, reg, ret)
  }

  /** From the automaton `u` a region is built, marked, and expanded if it ends in
      a return. */
  ghost predicate BuiltAndExpanded(c: Config, u: State, buffer: seq<nat>, ret: nat, out: OutAddrs, fromCall: map<nat, nat>, t: State) {
    && Inv(u) && buffer != [] && NonZero(buffer)
    && (ret == 0 ==> t == BuildRegion(u, buffer))
    && (ret != 0 ==> exists x :: ExpandedThenExit(c, BuildRegion(u, buffer), x, t, out, fromCall, |u.regions|, ret))
  }

  /** The state once the transition is made and the item profiled: a recording that
      starts clears its marks. */
  ghost predicate Followed(c: Config, s: LefState, m: LefState, k: Taken, a: nat)
    requires s.tea.cur < |s.tea.nodes|
  {
    var starts := m.rec.recording && !s.rec.recording;
    && m.rec == Profile(c, s.rec, k, a) && m.out == OutAfter(s.tea, s.out, k, a)
    && m.retRegion == (if starts then 0 else s.retRegion)
    && m.callRegion == (if starts then 0 else s.callRegion)
    && m.lastOp == s.lastOp && m.fromCall == s.fromCall
  }

  /** The rest of the item. */
  ghost predicate Recorded(c: Config, m: LefState, t: LefState, k: Taken, a: nat, op: nat)
    requires m.tea.cur < |m.tea.nodes|
  {
    var stops := m.rec.recording && Stops(k, m.rec.buffer, m.rec.lastAddr, a);
    && t.lastOp == op && t.out == m.out
    && (if !m.rec.recording then t.retRegion == m.retRegion && t.callRegion == m.callRegion
        else t.retRegion == RetAfter(m, a, op) && t.callRegion == CallAfter(m, stops, a))
    && if stops then StoppedWith(c, m, t, FromCallAfter(m, k, a))
       else t.tea == m.tea && t.fromCall == if m.rec.recording then FromCallAfter(m, k, a) else m.fromCall
  }

  /** The region built is marked with its entry if the recording came from a call. */
  ghost predicate StoppedWith(c: Config, m: LefState, t: LefState, fromCall: map<nat, nat>) {
    && t.rec.buffer != []
    && t.fromCall == (if t.callRegion != 0 then fromCall[|m.tea.regions| := t.rec.buffer[0]] else fromCall)
    && BuiltAndExpanded(c, m.tea, t.rec.buffer, t.retRegion, t.out, t.fromCall, t.tea)
  }

  /** `LEF::process`. */
  ghost predicate LefMoves(c: Config, s: LefState, t: LefState, a: nat, op: nat, pick: nat)
    requires Inv(s.tea) && a != NTE_ADDR
  {
    var k := TakenBy(s.tea, a, pick);
    t.rec == Record(c, s.rec, k, a)
    && exists m :: Between(c, s, m, t, k, a, op) && m.tea == Step(s.tea, a, pick)
  }

  ghost predicate Between(c: Config, s: LefState, m: LefState, t: LefState, k: Taken, a: nat, op: nat) {
    && s.tea.cur < |s.tea.nodes| && m.tea.cur < |m.tea.nodes|
    && Followed(c, s, m, k, a) && Recorded(c, m, t, k, a, op)
  }

  /** What every LEF run keeps. */
  ghost predicate LefOk(c: Config, s: LefState) {
    && Inv(s.tea) && EntersAtEntry(s.tea) && Distinct(s.tea.nodes)
    && RecorderOk(c, s.rec, s.tea.entries)
    && |s.tea.regions| == |s.tea.entries| + 1
    && OutOk(s.tea, s.out) && FromCallOk(s.tea, s.fromCall)
  }

  /** What `process` keeps of the automaton. */
  ghost predicate TeaOk(s: State, out: OutAddrs, fromCall: map<nat, nat>) {
    Inv(s) && EntersAtEntry(s) && Distinct(s.nodes) && OutOk(s, out) && FromCallOk(s, fromCall)
  }

  lemma GrowthKeepsTeaOk(s: State, t: State, out: OutAddrs, fromCall: map<nat, nat>)
    requires TeaOk(s, out, fromCall) && Grows(s, t) && Inv(t) && Distinct(t.nodes)
    requires |s.regions| <= |t.regions| && t.entries == s.entries
    requires forall e: nat :: |s.edges| <= e < |t.edges| ==>
               RegionOf(t.nodes, t.edges[e].src) == RegionOf(t.nodes, t.edges[e].tgt)
    ensures TeaOk(t, out, fromCall)
  {
    GrowthEntersAtEntry(s, t);
    GrowthKeepsFromCall(s, t, fromCall);
  }

  lemma GrowthKeepsFromCall(s: State, t: State, fromCall: map<nat, nat>)
    requires FromCallOk(s, fromCall) && Grows(s, t) && |s.regions| <= |t.regions|
    ensures FromCallOk(t, fromCall)
  {
    forall q | q in fromCall ensures 0 < q < |t.regions| && HasAddr(t, q, fromCall[q]) {
      GrowthKeepsAddr(s, t, q, fromCall[q]);
    }
  }

  /** Building a region keeps all of it; the new region may be marked with its entry. */
  lemma BuildKeepsTeaOk(s: State, buffer: seq<nat>, out: OutAddrs, fromCall: map<nat, nat>)
    requires TeaOk(s, out, fromCall) && buffer != [] && NonZero(buffer) && buffer[0] !in s.entries
    ensures var t, r := BuildRegion(s, buffer), |s.regions|;
            && TeaOk(t, out, fromCall) && TeaOk(t, out, fromCall[r := buffer[0]])
            && |t.regions| == r + 1 && t.entries == s.entries[buffer[0] := |s.nodes|] && Grows(s, t)
  {
    var t, r := BuildRegion(s, buffer), |s.regions|;
    BuildRegionWithin(s, buffer);
    BuildRegionEntersAtEntry(s, buffer);
    assert Distinct(t.nodes) by {
      BuiltReachable(s, buffer);
      StillDistinct(s, t, r);
    }
    GrowthKeepsFromCall(s, t, fromCall);
    MarkedFromCall(s, buffer, fromCall);
  }

  lemma MarkedFromCall(s: State, buffer: seq<nat>, fromCall: map<nat, nat>)
    requires Inv(s) && buffer != [] && NonZero(buffer) && FromCallOk(BuildRegion(s, buffer), fromCall)
    ensures FromCallOk(BuildRegion(s, buffer), fromCall[|s.regions| := buffer[0]])
  {
    FirstNodeOfRegion(s, buffer);
    var t := BuildRegion(s, buffer);
    assert 0 < |s.regions| < |t.regions| && HasAddr(t, |s.regions|, buffer[0]);
    hide Inv, BuildRegion;
    OneMark(t, fromCall, |s.regions|, buffer[0]);
  }

  /** One more mark, at an address the region has. */
  lemma OneMark(s: State, fromCall: map<nat, nat>, r: nat, a: nat)
    requires FromCallOk(s, fromCall) && 0 < r < |s.regions| && HasAddr(s, r, a)
    ensures FromCallOk(s, fromCall[r := a])
  {
  }

  lemma StillDistinct(s: State, t: State, r: nat)
    requires Distinct(s.nodes) && GrowsWithin(s, t, r) && UniqueIn(t, r)
    ensures Distinct(t.nodes)
  {
    forall i, j | 0 <= i < j < |t.nodes| ensures t.nodes[i] != t.nodes[j] {
      if j < |s.nodes| {
        assert t.nodes[i] == s.nodes[i] && t.nodes[j] == s.nodes[j];
      }
    }
  }

  lemma ExpansionKeepsTeaOk(c: Config, s: State, t: State, out: OutAddrs, fromCall: map<nat, nat>, reg: nat)
    requires TeaOk(s, out, fromCall) && ExpandedRegion(c, s, t, out, fromCall, reg)
    ensures TeaOk(t, out, fromCall) && |t.regions| == |s.regions| && t.entries == s.entries && Grows(s, t)
  {
    hide Inv;
    GrowsItself(s);
    if reg !in fromCall {
      var u :| Outcome(c, s, u, out, fromCall, reg) && t == u.(expansions := u.expansions + 1);
      OutcomeKeepsTeaOk(c, s, u, out, fromCall, reg);
      CountKeepsTeaOk(u, out, fromCall);
    }
  }

  lemma CountKeepsTeaOk(u: State, out: OutAddrs, fromCall: map<nat, nat>)
    requires TeaOk(u, out, fromCall)
    ensures TeaOk(u.(expansions := u.expansions + 1), out, fromCall)
  {
    GrowthKeepsTeaOk(u, u.(expansions := u.expansions + 1), out, fromCall);
  }

  lemma AbsorbedKeepsTeaOk(s: State, t: State, out: OutAddrs, fromCall: map<nat, nat>, reg: nat, dead: set<nat>)
    requires TeaOk(s, out, fromCall) && Absorbed(s, t, reg, dead)
    ensures TeaOk(t, out, fromCall) && |t.regions| == |s.regions| && t.entries == s.entries
  {
    GrowthKeepsTeaOk(s, t, out, fromCall);
  }

  lemma AbsorbedGrows(s: State, t: State, reg: nat, dead: set<nat>)
    requires Absorbed(s, t, reg, dead)
    ensures Grows(s, t)
  {
  }

  lemma OutcomeKeepsTeaOk(c: Config, s: State, u: State, out: OutAddrs, fromCall: map<nat, nat>, reg: nat)
    requires TeaOk(s, out, fromCall) && Outcome(c, s, u, out, fromCall, reg)
    ensures TeaOk(u, out, fromCall) && |u.regions| == |s.regions| && u.entries == s.entries && Grows(s, u)
  {
    hide TeaOk, Grows, Neighbors;
    if Neighbors(c, s, out, reg) !! fromCall.Keys {
      AbsorbedKeepsTeaOk(s, u, out, fromCall, reg, Neighbors(c, s, out, reg));
      AbsorbedGrows(s, u, reg, Neighbors(c, s, out, reg));
    } else {
      var dead, x, v :| CallExitBy(c, s, u, out, fromCall, reg, dead, x, v);
      AbsorbedKeepsTeaOk(s, v, out, fromCall, reg, dead);
      AbsorbedGrows(s, v, reg, dead);
      ReplacedKeepsTeaOk(v, u, out, fromCall, reg, fromCall[x]);
      GrowsTransitive(s, v, u);
    }
  }

  lemma ReplacedKeepsTeaOk(v: State, u: State, out: OutAddrs, fromCall: map<nat, nat>, reg: nat, a: nat)
    requires TeaOk(v, out, fromCall) && EnteredAtCall(v, u, reg, a)
    ensures TeaOk(u, out, fromCall) && |u.regions| == |v.regions| && u.entries == v.entries && Grows(v, u)
  {
    var n :| 0 < n < |v.nodes| && v.nodes[n] == Node(a, reg) && u == ReplaceEntryNode(v, n);
    ReplaceEntryNodeInv(v, n);
    GrowthKeepsTeaOk(v, u, out, fromCall);
  }

  lemma ExitKeepsTeaOk(s: State, r: nat, ret: nat, out: OutAddrs, fromCall: map<nat, nat>)
    requires TeaOk(s, out, fromCall) && 0 < r
    ensures var t := ExitAtReturn(s, r, ret);
            TeaOk(t, out, fromCall) && |t.regions| == |s.regions| && t.entries == s.entries && Grows(s, t)
  {
    var n := GetNode(s, r, ret, 0);
    if n.Some? {
      SetExitInv(s, n.value);
      GrowthKeepsTeaOk(s, SetExit(s, n.value), out, fromCall);
    }
  }

  lemma BuiltKeepsTeaOk(c: Config, u: State, buffer: seq<nat>, ret: nat, out: OutAddrs, marked: map<nat, nat>, t: State)
    requires BuiltAndExpanded(c, u, buffer, ret, out, marked, t) && TeaOk(BuildRegion(u, buffer), out, marked)
    ensures TeaOk(t, out, marked)
    ensures |t.regions| == |BuildRegion(u, buffer).regions| && t.entries == BuildRegion(u, buffer).entries
    ensures Grows(BuildRegion(u, buffer), t)
  {
    assert 0 < |u.regions|;
    hide Inv, Grows, BuildRegion, ExpandedRegion, EntersAtEntry, Distinct, OutOk, FromCallOk;
    GrowsItself(BuildRegion(u, buffer));
    if ret != 0 {
      var x :| ExpandedThenExit(c, BuildRegion(u, buffer), x, t, out, marked, |u.regions|, ret);
      ExpansionKeepsTeaOk(c, BuildRegion(u, buffer), x, out, marked, |u.regions|);
      ExitKeepsTeaOk(x, |u.regions|, ret, out, marked);
      GrowsTransitive(BuildRegion(u, buffer), x, t);
    }
  }

  lemma StepKeepsFromCall(s: State, a: nat, pick: nat, fromCall: map<nat, nat>)
    requires Inv(s) && FromCallOk(s, fromCall) && a != NTE_ADDR
    ensures FromCallOk(Step(s, a, pick), fromCall)
  {
    StepRegions(s, a, pick);
    forall q | q in fromCall ensures 0 < q < |s.regions| && HasAddr(Step(s, a, pick), q, fromCall[q]) {
      assert HasAddr(s, q, fromCall[q]);
    }
  }

  /** The transition and the exit it may add. */
  lemma StepKeepsTeaOk(s: State, a: nat, pick: nat, out: OutAddrs, fromCall: map<nat, nat>)
    requires TeaOk(s, out, fromCall) && a != NTE_ADDR
    ensures TeaOk(Step(s, a, pick), OutAfter(s, out, TakenBy(s, a, pick), a), fromCall)
  {
    TakenMeans(s, a, pick);
    StepEntersAtEntry(s, a, pick);
    StepRegions(s, a, pick);
    StepKeepsFromCall(s, a, pick, fromCall);
  }

  /** The region marked has the address it is marked with. */
  lemma MarkKeepsTeaOk(s: State, a: nat, pick: nat, out: OutAddrs, fromCall: map<nat, nat>)
    requires Inv(s) && a != NTE_ADDR && TeaOk(Step(s, a, pick), out, fromCall) && !TakenBy(s, a, pick).toNte
    ensures var u := Step(s, a, pick); TeaOk(u, out, fromCall[u.nodes[u.cur].region := a])
  {
    var u := Step(s, a, pick);
    StepHasAddr(s, a, pick);
    hide Inv, Step, EntersAtEntry, Distinct, HasAddr;
    OneMark(u, fromCall, u.nodes[u.cur].region, a);
  }

  /** Where the automaton is after a trace item, unless it is at `nte`. */
  lemma StepHasAddr(s: State, a: nat, pick: nat)
    requires Inv(s) && a != NTE_ADDR && !TakenBy(s, a, pick).toNte
    ensures var u := Step(s, a, pick);
            && 0 < u.nodes[u.cur].region < |u.regions| && HasAddr(u, u.nodes[u.cur].region, a)
  {
    var u := Step(s, a, pick);
    TakenMeans(s, a, pick);
    StepRegions(s, a, pick);
    StepRefines(s, a, pick);
    assert u.nodes[u.cur] == Node(a, u.nodes[u.cur].region);
  }

  /** A recording stops with a buffer to build from. */
  lemma StopIsReady(c: Config, s: LefState, a: nat, pick: nat)
    requires LefOk(c, s) && a != NTE_ADDR && StopsAt(c, s.rec, TakenBy(s.tea, a, pick), a)
    ensures var b := Record(c, s.rec, TakenBy(s.tea, a, pick), a).buffer;
            b != [] && NonZero(b) && b[0] !in s.tea.entries
    ensures Step(s.tea, a, pick).entries == s.tea.entries
  {
    TakenMeans(s.tea, a, pick);
    StepRegions(s.tea, a, pick);
    RecordKeeps(c, s.rec, s.tea.entries, TakenBy(s.tea, a, pick), a);
  }

  /** What remains of an item keeps it, too. */
  lemma StopKeeps(c: Config, m: LefState, t: LefState, fromCall: map<nat, nat>)
    requires StoppedWith(c, m, t, fromCall) && TeaOk(m.tea, t.out, fromCall)
    requires NonZero(t.rec.buffer) && t.rec.buffer[0] !in m.tea.entries
    ensures TeaOk(t.tea, t.out, t.fromCall) && |t.tea.regions| == |m.tea.regions| + 1
    ensures t.tea.entries == m.tea.entries[t.rec.buffer[0] := |m.tea.nodes|] && Grows(m.tea, t.tea)
  {
    BuildKeepsTeaOk(m.tea, t.rec.buffer, t.out, fromCall);
    BuiltKeepsTeaOk(c, m.tea, t.rec.buffer, t.retRegion, t.out, t.fromCall, t.tea);
    GrowsTransitive(m.tea, BuildRegion(m.tea, t.rec.buffer), t.tea);
  }

  lemma FollowedKeepsTeaOk(c: Config, s: LefState, m: LefState, a: nat, pick: nat)
    requires LefOk(c, s) && a != NTE_ADDR && m.tea == Step(s.tea, a, pick) && Followed(c, s, m, TakenBy(s.tea, a, pick), a)
    ensures TeaOk(m.tea, m.out, m.fromCall) && TeaOk(m.tea, m.out, FromCallAfter(m, TakenBy(s.tea, a, pick), a))
  {
    StepKeepsTeaOk(s.tea, a, pick, s.out, s.fromCall);
    if !TakenBy(s.tea, a, pick).toNte {
      MarkKeepsTeaOk(s.tea, a, pick, m.out, m.fromCall);
    }
  }

  /** What is left of an item keeps it, with or without a new region. */
  lemma RecordedKeeps(c: Config, m: LefState, t: LefState, k: Taken, a: nat, op: nat)
    requires m.tea.cur < |m.tea.nodes| && Recorded(c, m, t, k, a, op)
    requires TeaOk(m.tea, m.out, m.fromCall) && TeaOk(m.tea, m.out, FromCallAfter(m, k, a))
    requires var stops := m.rec.recording && Stops(k, m.rec.buffer, m.rec.lastAddr, a);
             stops ==> NonZero(t.rec.buffer) && t.rec.buffer != [] && t.rec.buffer[0] !in m.tea.entries
    ensures TeaOk(t.tea, t.out, t.fromCall) && Grows(m.tea, t.tea)
    ensures if m.rec.recording && Stops(k, m.rec.buffer, m.rec.lastAddr, a)
            then |t.tea.regions| == |m.tea.regions| + 1 && t.tea.entries == m.tea.entries[t.rec.buffer[0] := |m.tea.nodes|]
            else t.tea == m.tea
  {
    GrowsItself(m.tea);
    if m.rec.recording && Stops(k, m.rec.buffer, m.rec.lastAddr, a) {
      StopKeeps(c, m, t, FromCallAfter(m, k, a));
    }
  }

  /** Every move keeps it: the regions the marks and the exits speak of exist, and
      a mark is always an address of its region. */
  lemma LefKeeps(c: Config, s: LefState, t: LefState, a: nat, op: nat, pick: nat)
    requires LefOk(c, s) && a != NTE_ADDR && LefMoves(c, s, t, a, op, pick)
    ensures LefOk(c, t)
    ensures EntriesKept(s.tea, t.tea) && Grows(Step(s.tea, a, pick), t.tea)
  {
    var k := TakenBy(s.tea, a, pick);
    var m :| Between(c, s, m, t, k, a, op) && m.tea == Step(s.tea, a, pick);
    assert m.tea.entries == s.tea.entries && |m.tea.regions| == |s.tea.regions| by {
      StepRegions(s.tea, a, pick);
    }
    FollowedKeepsTeaOk(c, s, m, a, pick);
    if StopsAt(c, s.rec, k, a) {
      StopIsReady(c, s, a, pick);
    }
    RecordedKeeps(c, m, t, k, a, op);
    RecorderKept(c, s, t, a, pick);
  }

  /** What `process` makes of the exits, the marks and the flags, in terms of where the
      automaton was and is: `stops` is whether the item ends a recording. */
  lemma LefMarks(c: Config, s: LefState, t: LefState, a: nat, op: nat, pick: nat)
    requires Inv(s.tea) && a != NTE_ADDR && LefMoves(c, s, t, a, op, pick)
    ensures var u, k := Step(s.tea, a, pick), TakenBy(s.tea, a, pick);
            var active := Profile(c, s.rec, k, a).recording;
            var starts, stops := active && !s.rec.recording, StopsAt(c, s.rec, k, a);
            var called, r := s.lastOp == 0xe8 || s.lastOp == 0xff || s.lastOp == 0x9a, s.tea.nodes[s.tea.cur].region;
            var marked := if active && u.cur != NTE && called then s.fromCall[u.nodes[u.cur].region := a] else s.fromCall;
            var e := (s.tea.nodes[s.tea.cur].addr, a);
            && t.lastOp == op
            && t.out == (if s.tea.cur != NTE && u.cur == NTE then s.out[r := if r in s.out then s.out[r] + {e} else {e}] else s.out)
            && t.retRegion == (if active && (op == 0xc3 || op == 0xcb) then a else if starts then 0 else s.retRegion)
            && t.callRegion == (if active && called && (starts || s.rec.buffer == [] || !stops) then a
                                else if starts then 0 else s.callRegion)
            && t.fromCall == (if stops && t.callRegion != 0 && t.rec.buffer != [] then marked[|u.regions| := t.rec.buffer[0]] else marked)
            && (!stops ==> t.tea == u)
            && (stops ==> BuiltAndExpanded(c, u, t.rec.buffer, t.retRegion, t.out, t.fromCall, t.tea))
  {
    hide Inv, BuiltAndExpanded, Step;
    var k := TakenBy(s.tea, a, pick);
    TakenMeans(s.tea, a, pick);
    StepRegions(s.tea, a, pick);
    var m :| Between(c, s, m, t, k, a, op) && m.tea == Step(s.tea, a, pick);
  }

  /** With a return in the recording, the node at the last of them is an exit. */
  lemma ReturnIsExit(s: State, r: nat, ret: nat, n: nat)
    requires Inv(s) && Distinct(s.nodes) && n < |s.nodes| && s.nodes[n] == Node(ret, r) && r < |s.regions|
    ensures var t := ExitAtReturn(s, r, ret);
            r < |t.regions| && t.regions[r].exitNodes == s.regions[r].exitNodes + {n}
  {
  }

  lemma RecorderKept(c: Config, s: LefState, t: LefState, a: nat, pick: nat)
    requires LefOk(c, s) && a != NTE_ADDR && t.rec == Record(c, s.rec, TakenBy(s.tea, a, pick), a)
    requires t.tea.entries == if StopsAt(c, s.rec, TakenBy(s.tea, a, pick), a) && t.rec.buffer != []
                                then s.tea.entries[t.rec.buffer[0] := |Step(s.tea, a, pick).nodes|] else s.tea.entries
    ensures RecorderOk(c, t.rec, t.tea.entries)
    ensures forall b :: b in s.tea.entries ==> b in t.tea.entries && t.tea.entries[b] == s.tea.entries[b]
    ensures |t.tea.entries| == if StopsAt(c, s.rec, TakenBy(s.tea, a, pick), a) then |s.tea.entries| + 1 else |s.tea.entries|
  {
    var k := TakenBy(s.tea, a, pick);
    TakenMeans(s.tea, a, pick);
    RecordKeeps(c, s.rec, s.tea.entries, k, a);
    if StopsAt(c, s.rec, k, a) {
      NewEntryKeeps(c, t.rec, s.tea.entries, t.rec.buffer[0], |Step(s.tea, a, pick).nodes|);
    }
  }

  // ---------- Every run ----------

  datatype LefItem = LefItem(addr: nat, opcode: nat, pick: nat)

  ghost predicate StepAt(c: Config, run: seq<LefState>, trace: seq<LefItem>, i: nat) {
    && i < |trace| < |run| && Inv(run[i].tea) && trace[i].addr != NTE_ADDR
    && LefMoves(c, run[i], run[i + 1], trace[i].addr, trace[i].opcode, trace[i].pick)
  }

  ghost predicate IsRun(c: Config, loopInit: nat, run: seq<LefState>, trace: seq<LefItem>) {
    && |run| == |trace| + 1 && run[0] == LefState(Initial(loopInit), NO_RECORDING, 0, 0, 0, map[], map[])
    && forall i: nat :: i < |trace| ==> StepAt(c, run, trace, i)
  }

  /** At every moment of every run the invariant holds: a region marked as coming
      from a call has the address of the mark, and the exits are of regions there
      are; every entry is hot and there are no more regions than counters. */
  lemma {:induction false} LefTheorem(c: Config, loopInit: nat, run: seq<LefState>, trace: seq<LefItem>, i: nat)
    requires IsRun(c, loopInit, run, trace) && i <= |trace|
    ensures LefOk(c, run[i]) && FromCallOk(run[i].tea, run[i].fromCall) && OutOk(run[i].tea, run[i].out)
    ensures forall a :: a in run[i].tea.cache ==>
              a in run[i].tea.entries && run[i].tea.edges[run[i].tea.cache[a]].tgt == run[i].tea.entries[a]
    ensures EntriesHot(c, run[i].rec.counters, run[i].tea.entries)
    ensures |run[i].tea.regions| - 1 == |run[i].tea.entries| <= |run[i].rec.counters|
  {
    hide Inv;
    if i == 0 {
      InitialInv(loopInit);
    } else {
      LefTheorem(c, loopInit, run, trace, i - 1);
      assert StepAt(c, run, trace, i - 1);
      LefKeeps(c, run[i - 1], run[i], trace[i - 1].addr, trace[i - 1].opcode, trace[i - 1].pick);
    }
    CachesAgree(run[i].tea);
    RegionsBoundedByCounters(c, run[i].rec, run[i].tea.entries);
  }

  /** The edges the first `i` items of a run follow. */
  ghost function LefHops(c: Config, loopInit: nat, run: seq<LefState>, trace: seq<LefItem>, i: nat): seq<Hop>
    requires IsRun(c, loopInit, run, trace) && i <= |trace|
  {
    if i == 0 then []
    else
      assert StepAt(c, run, trace, i - 1);
      LefHops(c, loopInit, run, trace, i - 1) + [StepHop(run[i - 1].tea, trace[i - 1].addr, trace[i - 1].pick)]
  }

  /** They are what all counters count then. */
  lemma {:induction false} LefCounted(c: Config, loopInit: nat, run: seq<LefState>, trace: seq<LefItem>, i: nat)
    requires IsRun(c, loopInit, run, trace) && i <= |trace|
    ensures Consistent(run[i].tea, LefHops(c, loopInit, run, trace, i), loopInit)
  {
    hide Inv, LefMoves, Consistent, Step, Grows, FromCallOk, OutOk, RecorderOk;
    if i == 0 {
      InitialConsistent(loopInit);
    } else {
      var h, item := LefHops(c, loopInit, run, trace, i - 1), trace[i - 1];
      LefCounted(c, loopInit, run, trace, i - 1);
      LefTheorem(c, loopInit, run, trace, i - 1);
      assert StepAt(c, run, trace, i - 1);
      hide LefOk;
      LefKeeps(c, run[i - 1], run[i], item.addr, item.opcode, item.pick);
      ItemConsistent(run[i - 1].tea, run[i].tea, item.addr, item.pick, h, loopInit);
    }
  }

  class LEF {
    const rain: RAIn
    const recorder: TraceRecorder
    var retRegion: nat
    var callRegion: nat
    var lastOp: nat
    var regOutAddrs: OutAddrs
    var cameFromCall: map<nat, nat>

    constructor (config: Config, loopCounter: nat)
      ensures recorder.config == config && Valid()
      ensures Model() == LefState(Initial(loopCounter), NO_RECORDING, 0, 0, 0, map[], map[])
      ensures fresh(rain) && fresh(recorder) && fresh(recorder.profiler)
    {
      rain := new RAIn(loopCounter);
      recorder := new TraceRecorder(config);
      retRegion, callRegion, lastOp, regOutAddrs, cameFromCall := 0, 0, 0, map[], map[];
    }

    ghost function Model(): LefState
      reads this, rain, recorder, recorder.profiler
    {
      LefState(rain.State(), recorder.Model(), retRegion, callRegion, lastOp, regOutAddrs, cameFromCall)
    }

    /** One neighbour is absorbed; `exit` tells whether it came from a call. */
    method AbsorbRegion(ghost s: State, q: nat, reg: nat, ghost dead: set<nat>) returns (exit: bool)
      requires rain.Valid() && FromCallOk(s, cameFromCall)
      requires Absorbing(recorder.config, s, rain.State(), regOutAddrs, cameFromCall, reg, dead)
      requires q in Neighbors(recorder.config, s, regOutAddrs, reg)
      modifies rain
      ensures rain.Valid() && rain.history == old(rain.history)
      ensures exit <==> q in cameFromCall
      ensures exit ==> CallExit(recorder.config, s, rain.State(), regOutAddrs, cameFromCall, reg)
      ensures !exit ==> Absorbing(recorder.config, s, rain.State(), regOutAddrs, cameFromCall, reg, dead + {q})
    {
      hide Inv;
      ghost var t := rain.State();
      MergeRegions(rain, q, reg);
      ghost var u :| Copied(t, u, reg, q, t.regions[q].nodes) && rain.State() == MarkMerged(u, q, reg);
      AbsorbNeighbor(recorder.config, s, t, u, regOutAddrs, cameFromCall, reg, dead, q);
      exit := q in cameFromCall;
      if exit {
        EnterAtCall(s, q, reg, dead);
      }
    }

    method EnterAtCall(ghost s: State, q: nat, reg: nat, ghost dead: set<nat>)
      requires rain.Valid() && 0 < reg < |s.regions| && q in cameFromCall && q in Neighbors(recorder.config, s, regOutAddrs, reg)
      requires dead <= Neighbors(recorder.config, s, regOutAddrs, reg) && dead !! cameFromCall.Keys
      requires Absorbed(s, rain.State(), reg, dead + {q}) && HasAddr(rain.State(), reg, cameFromCall[q])
      modifies rain
      ensures rain.Valid() && rain.history == old(rain.history)
      ensures CallExit(recorder.config, s, rain.State(), regOutAddrs, cameFromCall, reg)
    {
      ghost var u := rain.State();
      var node, pick := rain.GetNode(reg, cameFromCall[q]);
      // The source has a branch for a lookup that fails; it is never taken.
      assert node.Some?;
      rain.ReplaceEntryNode(node.value);
      CallExitHolds(recorder.config, s, u, regOutAddrs, cameFromCall, reg, dead, q, node.value);
    }

    /** All exits of one region that is still alive. */
    method TryRegion(ghost s: State, q: nat, reg: nat, ghost dead: set<nat>) returns (merged: bool, exit: bool)
      requires rain.Valid() && FromCallOk(s, cameFromCall)
      requires Absorbing(recorder.config, s, rain.State(), regOutAddrs, cameFromCall, reg, dead)
      requires q in regOutAddrs && s.regions[q].alive
      modifies rain
      ensures rain.Valid() && rain.history == old(rain.history)
      ensures merged <==> q in Neighbors(recorder.config, s, regOutAddrs, reg)
      ensures exit <==> merged && q in cameFromCall
      ensures exit ==> CallExit(recorder.config, s, rain.State(), regOutAddrs, cameFromCall, reg)
      ensures !exit ==> Absorbing(recorder.config, s, rain.State(), regOutAddrs, cameFromCall, reg,
                                  if merged then dead + {q} else dead)
    {
      hide Consistent;
      merged, exit := false, false;
      var rest := regOutAddrs[q];
      while rest != {}
        invariant rest <= regOutAddrs[q] && rain.Valid() && rain.history == old(rain.history)
        invariant merged ==> q in Neighbors(recorder.config, s, regOutAddrs, reg) && q !in cameFromCall
        invariant Absorbing(recorder.config, s, rain.State(), regOutAddrs, cameFromCall, reg,
                            if merged then dead + {q} else dead)
        invariant !merged ==> forall e :: e in regOutAddrs[q] - rest ==>
                                !(Compatible(recorder.config, e) && IsEntryAddr(s, reg, e.1))
        decreases rest
      {
        var e :| e in rest;
        ghost var dead' := if merged then dead + {q} else dead;
        if recorder.config.mixUsrSys || !SwitchedMode(recorder.config, e.0, e.1) {
          var hit := EntryHit(reg, e.1);
          SameEntryAddrs(s, rain.State(), reg, dead', e.1);
          if hit {
            exit := AbsorbRegion(s, q, reg, dead');
            merged := true;
            if exit { return; }
            assert dead' + {q} == dead + {q};
          }
        }
        rest := rest - {e};
      }
    }

    /** Whether the node of the region with the address is one of its entry nodes. */
    method EntryHit(reg: nat, a: nat) returns (hit: bool)
      requires rain.Valid() && Distinct(rain.nodes) && 0 < reg < |rain.regions|
      ensures hit <==> IsEntryAddr(rain.State(), reg, a)
    {
      var node, pick := rain.GetNode(reg, a);
      assert RegionOk(rain.nodes, reg, rain.regions[reg]);
      hit := node.Some? && node.value in rain.regions[reg].entryNodes;
    }
  
    ghost predicate AbsorbingNow(s: State, reg: nat, dead: set<nat>)
      reads this`regOutAddrs, this`cameFromCall, rain
    {
      && rain.Valid() && FromCallOk(s, cameFromCall)
      && Absorbing(recorder.config, s, rain.State(), regOutAddrs, cameFromCall, reg, dead)
    }

    method TryIfAlive(ghost s: State, q: nat, reg: nat, ghost dead: set<nat>) returns (merged: bool, exit: bool)
      requires AbsorbingNow(s, reg, dead) && q in regOutAddrs
      modifies rain
      ensures rain.Valid() && rain.history == old(rain.history)
      ensures merged ==> q !in dead
      ensures q in Neighbors(recorder.config, s, regOutAddrs, reg) ==> merged || q in dead
      ensures exit ==> merged && CallExit(recorder.config, s, rain.State(), regOutAddrs, cameFromCall, reg)
      ensures exit ==> q in cameFromCall && q in Neighbors(recorder.config, s, regOutAddrs, reg)
      ensures !exit ==> AbsorbingNow(s, reg, if merged then dead + {q} else dead)
    {
      merged, exit := false, false;
      if rain.regions[q].alive {
        merged, exit := TryRegion(s, q, reg, dead);
      }
    }

    /** One round over all regions that have exits. */
    method Round(ghost s: State, reg: nat, ghost before: set<nat>) returns (newNeighbors: bool, exit: bool, ghost dead: set<nat>)
      requires AbsorbingNow(s, reg, before)
      modifies rain
      ensures rain.Valid() && rain.history == old(rain.history)
      ensures exit ==> CallExit(recorder.config, s, rain.State(), regOutAddrs, cameFromCall, reg)
      ensures exit ==> !(Neighbors(recorder.config, s, regOutAddrs, reg) !! cameFromCall.Keys)
      ensures !exit ==> AbsorbingNow(s, reg, dead)
      ensures !exit ==> dead == Neighbors(recorder.config, s, regOutAddrs, reg) && (newNeighbors ==> before < dead)
    {
      newNeighbors, exit, dead := false, false, before;
      ghost var neighbors := Neighbors(recorder.config, s, regOutAddrs, reg);
      var rest := regOutAddrs.Keys;
      while rest != {}
        invariant rest <= regOutAddrs.Keys && rain.history == old(rain.history)
        invariant before <= dead && (newNeighbors ==> before < dead)
        invariant AbsorbingNow(s, reg, dead)
        invariant neighbors - rest <= dead
        decreases rest
      {
        var q :| q in rest;
        var merged;
        merged, exit := TryIfAlive(s, q, reg, dead);
        if exit { return; }
        if merged {
          newNeighbors := true;
          dead := dead + {q};
        }
        rest := rest - {q};
      }
    }

    method ExpandRegion(reg: nat)
      requires rain.Valid() && Distinct(rain.nodes) && 0 < reg < |rain.regions| && reg !in regOutAddrs
      requires FromCallOk(rain.State(), cameFromCall) && OutOk(rain.State(), regOutAddrs)
      modifies rain
      ensures rain.Valid() && rain.history == old(rain.history)
      ensures ExpandedRegion(recorder.config, old(rain.State()), rain.State(), regOutAddrs, cameFromCall, reg)
    {
      if reg in cameFromCall { return; }
      ghost var s := rain.State();
      AbsorbAll(reg);
      ghost var u := rain.State();
      rain.CountExpansion();
      assert Outcome(recorder.config, s, u, regOutAddrs, cameFromCall, reg);
    }

    method AbsorbAll(reg: nat)
      requires rain.Valid() && Distinct(rain.nodes) && 0 < reg < |rain.regions| && reg !in regOutAddrs
      requires FromCallOk(rain.State(), cameFromCall) && OutOk(rain.State(), regOutAddrs)
      modifies rain
      ensures rain.Valid() && rain.history == old(rain.history)
      ensures Outcome(recorder.config, old(rain.State()), rain.State(), regOutAddrs, cameFromCall, reg)
    {
      hide CallExit, Neighbors, Consistent;
      ghost var s, dead := rain.State(), {};
      NothingAbsorbed(s, reg);
      var newNeighbors, exit := true, false;
      while newNeighbors && !exit
        invariant rain.Valid() && rain.history == old(rain.history)
        invariant exit ==> CallExit(recorder.config, s, rain.State(), regOutAddrs, cameFromCall, reg)
        invariant exit ==> !(Neighbors(recorder.config, s, regOutAddrs, reg) !! cameFromCall.Keys)
        invariant !exit ==> AbsorbingNow(s, reg, dead)
        invariant !exit && !newNeighbors ==> dead == Neighbors(recorder.config, s, regOutAddrs, reg)
        decreases Neighbors(recorder.config, s, regOutAddrs, reg) - dead, newNeighbors, !exit
      {
        ghost var before := dead;
        newNeighbors, exit, dead := Round(s, reg, before);
        if exit { dead := before; }
      }
    }

    // ---------- One trace item ----------

    ghost predicate Valid()
      reads this, rain, recorder, recorder.profiler
    {
      rain.Valid() && LefOk(recorder.config, Model())
    }

    method UpdateOutAddrs(reg: nat, e: (nat, nat))
      modifies this`regOutAddrs
      ensures regOutAddrs == old(regOutAddrs)[reg := if reg in old(regOutAddrs) then old(regOutAddrs)[reg] + {e} else {e}]
    {
      if reg !in regOutAddrs {
        regOutAddrs := regOutAddrs[reg := {e}];
      } else {
        regOutAddrs := regOutAddrs[reg := regOutAddrs[reg] + {e}];
      }
    }

    /** The transition, the exit it may add, and the start of a recording. */
    method Follow(curAddr: nat) returns (k: Taken, ghost pick: nat)
      requires rain.Valid() && curAddr != NTE_ADDR
      modifies this`regOutAddrs, this`retRegion, this`callRegion, rain, recorder, recorder.profiler
      ensures rain.Valid() && rain.State() == Step(old(rain.State()), curAddr, pick)
      ensures rain.history == old(rain.history) + [StepHop(old(rain.State()), curAddr, pick)]
      ensures k == TakenBy(old(rain.State()), curAddr, pick)
      ensures Followed(recorder.config, old(Model()), Model(), k, curAddr)
    {
      var src := rain.nodes[rain.curNode];
      var edg;
      edg, k, pick := Transition(rain, curAddr);
      Profile(k, curAddr, src.region, src.addr);
    }

    method Profile(k: Taken, curAddr: nat, srcRegion: nat, srcAddr: nat)
      modifies this`regOutAddrs, this`retRegion, this`callRegion, recorder, recorder.profiler
      ensures regOutAddrs == if !k.exitsRegion then old(regOutAddrs)
                else old(regOutAddrs)[srcRegion :=
                  if srcRegion in old(regOutAddrs) then old(regOutAddrs)[srcRegion] + {(srcAddr, curAddr)} else {(srcAddr, curAddr)}]
      ensures recorder.Model() == Recording.Profile(recorder.config, old(recorder.Model()), k, curAddr)
      ensures var starts := recorder.recording && !old(recorder.recording);
              && retRegion == (if starts then 0 else old(retRegion))
              && callRegion == if starts then 0 else old(callRegion)
    {
      if k.exitsRegion {
        UpdateOutAddrs(srcRegion, (srcAddr, curAddr));
      }
      var wasRecording := recorder.recording;
      recorder.ProfileTarget(k, curAddr);
      if recorder.recording && !wasRecording {
        // a new recording has no marks yet
        retRegion, callRegion := 0, 0;
      }
    }

    /** The marks of a recording. */
    method MarkCalls(k: Taken, curAddr: nat, curOpcode: nat, isFirst: bool, stopRecording: bool)
      requires rain.curNode < |rain.nodes|
      modifies this`retRegion, this`callRegion, this`cameFromCall
      ensures cameFromCall == FromCallAfter(old(Model()), k, curAddr)
      ensures retRegion == RetAfter(old(Model()), curAddr, curOpcode)
      ensures callRegion == if IsCallInst(lastOp) && (isFirst || !stopRecording) then curAddr else old(callRegion)
    {
      if !k.toNte && IsCallInst(lastOp) {
        cameFromCall := cameFromCall[rain.nodes[rain.curNode].region := curAddr];
      }
      if IsRetInst(curOpcode) {
        retRegion := curAddr;
      }
      if isFirst {
        if IsCallInst(lastOp) { callRegion := curAddr; }
      } else {
        if IsCallInst(lastOp) && !stopRecording { callRegion := curAddr; }
      }
    }

    /** The stop conditions, the marks, and the region of a recording that stops. */
    method RecordItem(ghost r: Recorder, k: Taken, curAddr: nat, curOpcode: nat)
      requires rain.Valid() && TeaOk(rain.State(), regOutAddrs, FromCallAfter(Model(), k, curAddr))
      requires recorder.Model() == Recording.Profile(recorder.config, r, k, curAddr)
      requires StopsAt(recorder.config, r, k, curAddr) ==>
                 var b := recorder.recordingBuffer; b != [] && NonZero(b) && b[0] !in rain.regionEntryNodes
      modifies this, rain, recorder
      ensures rain.Valid() && recorder.Model() == Record(recorder.config, r, k, curAddr) && rain.history == old(rain.history)
      ensures Recorded(recorder.config, old(Model()), Model(), k, curAddr, curOpcode)
    {
      hide BuiltAndExpanded, Consistent;
      ghost var m := Model();
      var recording, isFirst := recorder.recording, |recorder.recordingBuffer| == 0;
      var stopRecording := recorder.RecordTarget(r, k, curAddr);
      if recording {
        MarkCalls(k, curAddr, curOpcode, isFirst, stopRecording);
      }
      lastOp := curOpcode;
      if stopRecording {
        FormRegion();
        assert StoppedWith(recorder.config, m, Model(), FromCallAfter(m, k, curAddr));
      }
    }

    method Process(curAddr: nat, curOpcode: nat) returns (ghost pick: nat)
      requires Valid() && curAddr != NTE_ADDR
      modifies this, rain, recorder, recorder.profiler
      ensures Valid() && LefMoves(recorder.config, old(Model()), Model(), curAddr, curOpcode, pick)
      ensures rain.history == old(rain.history) + [StepHop(old(rain.State()), curAddr, pick)]
    {
      ghost var s := Model();
      var k;
      k, pick := Follow(curAddr);
      ghost var m := Model();
      FollowedKeepsTeaOk(recorder.config, s, m, curAddr, pick);
      if StopsAt(recorder.config, s.rec, k, curAddr) {
        StopIsReady(recorder.config, s, curAddr, pick);
      }
      RecordItem(s.rec, k, curAddr, curOpcode);
      assert Between(recorder.config, s, m, Model(), k, curAddr, curOpcode);
      LefKeeps(recorder.config, s, Model(), curAddr, curOpcode, pick);
    }

    /** The address of the region's only entry node. */
    method EntryAddr(r: nat, ghost u: State) returns (a: nat)
      requires rain.Valid() && 0 < r == |u.regions| && Inv(u)
      requires var b := recorder.recordingBuffer; b != [] && NonZero(b) && rain.State() == BuildRegion(u, b)
      ensures a == recorder.recordingBuffer[0]
    {
      ghost var b := recorder.recordingBuffer;
      BuildToEntryNodes(u, b, |b|);
      FirstNodeOfRegion(u, b);
      assert rain.regions[r].entryNodes == {|u.nodes|};
      var node :| node in rain.regions[r].entryNodes;
      return rain.nodes[node].addr;
    }

    method MarkIfCalled(r: nat, ghost u: State)
      requires rain.Valid() && 0 < r == |u.regions| && Inv(u)
      requires var b := recorder.recordingBuffer; b != [] && NonZero(b) && rain.State() == BuildRegion(u, b)
      modifies this`cameFromCall
      ensures cameFromCall == if callRegion != 0 then old(cameFromCall)[r := recorder.recordingBuffer[0]] else old(cameFromCall)
    {
      if callRegion != 0 {
        var entry := EntryAddr(r, u);
        cameFromCall := cameFromCall[r := entry];
      }
    }

    /** A region from the recording, marked if it came from a call, and expanded if
        it ends in a return. */
    method FormRegion()
      requires rain.Valid() && TeaOk(rain.State(), regOutAddrs, cameFromCall)
      requires var b := recorder.recordingBuffer; b != [] && NonZero(b) && b[0] !in rain.regionEntryNodes
      modifies rain, this`cameFromCall
      ensures rain.Valid() && rain.history == old(rain.history)
      ensures cameFromCall == if callRegion != 0 then old(cameFromCall)[old(|rain.regions|) := recorder.recordingBuffer[0]]
                else old(cameFromCall)
      ensures BuiltAndExpanded(recorder.config, old(rain.State()), recorder.recordingBuffer, retRegion, regOutAddrs,
                               cameFromCall, rain.State())
    {
      ghost var u := rain.State();
      BuildKeepsTeaOk(u, recorder.recordingBuffer, regOutAddrs, cameFromCall);
      var r := BuildRegionIn(rain, recorder.recordingBuffer);
      MarkIfCalled(r.value, u);
      if retRegion != 0 {
        ExpandToReturn(r.value);
      }
    }

    method ExpandToReturn(r: nat)
      requires rain.Valid() && TeaOk(rain.State(), regOutAddrs, cameFromCall)
      requires 0 < r < |rain.regions| && r !in regOutAddrs
      modifies rain
      ensures rain.Valid() && rain.history == old(rain.history)
      ensures exists x :: ExpandedThenExit(recorder.config, old(rain.State()), x, rain.State(), regOutAddrs, cameFromCall, r, retRegion)
    {
      ghost var s := rain.State();
      ExpandRegion(r);
      ghost var x := rain.State();
      ExpansionKeepsTeaOk(recorder.config, s, x, regOutAddrs, cameFromCall, r);
      ExitAt(r);
      assert ExpandedThenExit(recorder.config, s, x, rain.State(), regOutAddrs, cameFromCall, r, retRegion);
    }

    method ExitAt(r: nat)
      requires rain.Valid() && Distinct(rain.nodes) && 0 < r < |rain.regions|
      modifies rain
      ensures rain.Valid() && rain.history == old(rain.history) && rain.State() == ExitAtReturn(old(rain.State()), r, retRegion)
    {
      var node, pick := rain.GetNode(r, retRegion);
      assert node == GetNode(rain.State(), r, retRegion, 0);
      if node.Some? {
        rain.SetExit(node.value);
      }
    }
  }
}
