/** Searches of NET+ that leave a loop open: one where two branches jump to the same
    target, and one where a branch of the region jumps back itself. */
module OpenLoop {
  import opened Tea
  import opened Flow
  import opened RegionFormation
  import opened Instructions
  import opened Routes
  import opened Paths
  import opened Exploration
  import opened NetPlus

  // ---------- The region ----------

  /** A region of an instruction at 40, where it is entered, and a branch at 41, and what
      the search for its expansion has to go by. */
  ghost predicate AtPair(w: Search, s: State) {
    && w.e0 == 40 && w.roots == {41} && 0 < w.limit
    && (forall a :: a in w.code.insns && a in w.entries ==> a == 40)
    && forall a :: HasAddr(s, w.r, a) ==> a == 40 || a == 41
  }

  ghost predicate PairCode(code: Code) {
    && 40 in code.insns && 41 in code.insns && code.insns[41].isFlow
  }

  ghost predicate NoEntries(code: Code, u: State) {
    forall a :: a in code.insns ==> a !in u.entries
  }

  function Pair(u: State): (b: State)
    requires Inv(u)
    ensures Inv(b)
  {
    BuildRegion(u, [40, 41])
  }

  ghost function SearchOfPair(config: Config, code: Code, limit: nat, u: State): Search
    requires Inv(u)
  {
    SearchFor(config, code, limit, Pair(u), |u.regions|, 40)
  }

  lemma RegionOfPair(config: Config, code: Code, limit: nat, u: State)
    requires Inv(u) && 0 < limit && PairCode(code) && NoEntries(code, u)
    ensures AtPair(SearchOfPair(config, code, limit, u), Pair(u)) && Grows(u, Pair(u))
  {
    hide Inv, BuildRegion, Reaches, Extensible, HasAddr, Roots;
    var buffer, b, r := [40, 41], Pair(u), |u.regions|;
    BuiltReachable(u, buffer);
    BuildRegionWithin(u, buffer);
    assert buffer[1] == 41;
    assert forall a :: HasAddr(b, r, a) ==> a == 40 || a == 41;
    hide Grows;
    RootsOfPair(code, b, r);
  }

  lemma RootsOfPair(code: Code, b: State, r: nat)
    requires PairCode(code) && HasAddr(b, r, 41) && forall a :: HasAddr(b, r, a) ==> a == 40 || a == 41
    ensures Roots(code, b, r, 40) == {41}
  {
    forall x ensures x in Roots(code, b, r, 40) <==> x == 41 {
      if x in Roots(code, b, r, 40) {
        assert HasAddr(b, r, x);
      }
      if x == 41 {
        var n :| 0 <= n < |b.nodes| && b.nodes[n] == Node(41, r);
      }
    }
  }

  /** What an expansion of the region makes of it. */
  lemma PairExpanded(config: Config, code: Code, limit: nat, u: State, t: State)
    requires Inv(u) && 0 < limit && PairCode(code) && NoEntries(code, u)
    requires BuiltAndExpanded(config, code, limit, u, [40, 41], t)
    ensures var w, b := SearchOfPair(config, code, limit, u), Pair(u);
            && w.config == config && w.code == code && w.limit == limit && w.r == |u.regions| && w.e0 == 40
            && AtPair(w, b) && Complete(w, b, t) && Inv(b) && Grows(b, t)
  {
    hide AtPair, Complete, BuildRegion, Grows, Inv;
    RegionOfPair(config, code, limit, u);
  }

  // ---------- Two branches with one target ----------

  /** The branch at 41 goes to 10 or on to 43, where two branches jump to 30; from there
      the code runs back to 40. */
  const FORK := Code([10, 12, 30, 40, 41, 43],
                     map[10 := Insn(true, [30]), 12 := Insn(false, []), 30 := Insn(false, []), 40 := Insn(false, []),
                         41 := Insn(true, [10, 43]), 43 := Insn(true, [30])])

  /** Either branch is found, and the walk from 30 comes back to the entry. */
  lemma ForkWalksBack(w: Search, s: State, f: Found, stops: set<nat>, k: nat)
    requires AtPair(w, s) && w.code == FORK && w.limit == 2 && FoundOk(w.code, w.entries, w.roots, f) && (k == 0 || k == 5)
    requires w.config.mixUsrSys || 43 < w.config.systemThreshold
    ensures WalksBack(w, f, stops, Route.Hop(At(41), k, k), 30, 2, 3) && Jumps(w, FORK.addrs[k], 30)
  {
    var route := Route.Hop(At(41), k, k);
    assert Targeted(w, 41, FORK.addrs[k]) && Targeted(w, FORK.addrs[k], 30);
    assert BranchRun(w, f, {}, FORK.addrs[k], k, k);
    NextAreBranches(w, f);
    assert RouteOk(w.code, w.entries, w.roots, At(41));
    assert Reaching(w, FORK.addrs[k], route);
  }

  lemma ForkOnlyJumps(w: Search, s: State)
    requires AtPair(w, s) && w.code == FORK
    ensures OnlyJumps(w, s, 30) && !RootTarget(w, 30) && forall x :: Jumps(w, x, 30) ==> x == 10 || x == 43
  {
    forall x | Jumps(w, x, 30) ensures (x == 10 || x == 43) && !Adjacent(FORK, x, 30) && !Linked(s, w.r, x, 30) {
      LinkedHas(s, w.r, x, 30);
    }
  }

  lemma TwoJump(w: Search, s: State, f: Found, stops: set<nat>)
    requires AtPair(w, s) && w.code == FORK && w.limit == 2 && FoundOk(w.code, w.entries, w.roots, f)
    requires w.config.mixUsrSys || 43 < w.config.systemThreshold
    ensures WalksBack(w, f, stops, Route.Hop(At(41), 0, 0), 30, 2, 3) && OnlyJumps(w, s, 30) && !RootTarget(w, 30)
    ensures forall x :: Jumps(w, x, 30) <==> x == 10 || x == 43
    ensures w.config.mixUsrSys || (30 < w.config.systemThreshold) == (w.e0 < w.config.systemThreshold)
  {
    ForkWalksBack(w, s, f, stops, 0);
    ForkWalksBack(w, s, f, stops, 5);
    ForkOnlyJumps(w, s);
    hide *;
  }

  lemma FoundThen(w: Search, s: State, t: State, f: Found, stops: set<nat>)
    requires CompleteBy(w, s, t, f, stops)
    ensures FoundOk(w.code, w.entries, w.roots, f)
  {
  }

  /** Of the two loops that could be closed over 30 exactly one is. */
  lemma OneOfTwo(w: Search, s: State, t: State)
    requires AtPair(w, s) && w.code == FORK && w.limit == 2 && Complete(w, s, t) && Inv(s) && Grows(s, t)
    requires w.config.mixUsrSys || 43 < w.config.systemThreshold
    ensures Linked(t, w.r, 10, 30) != Linked(t, w.r, 43, 30)
  {
    hide Inv, Grows, AtPair, CompleteBy, Jumps, Linked, WalksBack, OnlyJumps, RootTarget;
    var f, stops :| CompleteBy(w, s, t, f, stops);
    FoundThen(w, s, t, f, stops);
    TwoJump(w, s, f, stops);
    hide *;
    assert Jumps(w, 10, 30) && Jumps(w, 43, 30);
    AllLoopsIff(w, s, t, f, stops, Route.Hop(At(41), 0, 0), 30, 2, 3);
  }

  lemma ForkIsPair()
    ensures PairCode(FORK)
  {
  }

  /** And that is so whatever the expansion makes of the region. */
  lemma OneLoopStaysOpen(config: Config, u: State, t: State)
    requires Inv(u) && (config.mixUsrSys || 43 < config.systemThreshold) && NoEntries(FORK, u)
    requires BuiltAndExpanded(config, FORK, 2, u, [40, 41], t)
    ensures Linked(t, |u.regions|, 10, 30) != Linked(t, |u.regions|, 43, 30)
  {
    ForkIsPair();
    hide *;
    PairExpanded(config, FORK, 2, u, t);
    OneOfTwo(SearchOfPair(config, FORK, 2, u), Pair(u), t);
  }

  // ---------- A branch of the region ----------

  /** The branch at 41 jumps to 10, and from there the code runs back to 40. */
  const BACK := Code([10, 40, 41], map[10 := Insn(false, []), 40 := Insn(false, []), 41 := Insn(true, [10])])

  lemma BackWalks(w: Search, s: State, f: Found)
    requires AtPair(w, s) && w.code == BACK && FoundOk(w.code, w.entries, w.roots, f)
    ensures ClosingRun(w, f, 10, 0, 1) && RootTarget(w, 10) && !Linked(s, w.r, 41, 10) && !Adjacent(BACK, 41, 10)
  {
    NextAreBranches(w, f);
    LinkedHas(s, w.r, 41, 10);
  }

  lemma NoneOfOne(w: Search, s: State, t: State)
    requires AtPair(w, s) && w.code == BACK && Complete(w, s, t) && Inv(s) && Grows(s, t)
    ensures !Linked(t, w.r, 41, 10)
  {
    hide Inv, Grows, CompleteBy, Linked, ClosingRun, RootTarget;
    var f, stops :| CompleteBy(w, s, t, f, stops);
    FoundThen(w, s, t, f, stops);
    BackWalks(w, s, f);
    RootsCloseNone(w, s, t, f, stops, 41, 10, 0, 1);
  }

  /** Only one branch jumps to 10, and yet its loop stays open whatever the expansion makes
      of the region: it is a branch of the region. */
  lemma RegionLoopStaysOpen(config: Config, limit: nat, u: State, t: State)
    requires Inv(u) && 0 < limit && NoEntries(BACK, u)
    requires BuiltAndExpanded(config, BACK, limit, u, [40, 41], t)
    ensures (forall x :: BranchesTo(BACK, x, 10) <==> x == 41) && !Linked(t, |u.regions|, 41, 10)
  {
    assert PairCode(BACK);
    assert forall x :: BranchesTo(BACK, x, 10) <==> x == 41;
    hide AtPair, Complete, BuildRegion, Grows, Inv, BuiltAndExpanded, NoEntries, Linked, SearchOfPair;
    PairExpanded(config, BACK, limit, u, t);
    NoneOfOne(SearchOfPair(config, BACK, limit, u), Pair(u), t);
  }

  // ---------- A loop across the threshold ----------

  /** Where 30 is below the threshold and the region is not, neither loop is closed when
      modes may not mix. */
  lemma LoopsAcrossStayOpen(config: Config, u: State, t: State)
    requires Inv(u) && !config.mixUsrSys && 30 < config.systemThreshold <= 40 && NoEntries(FORK, u)
    requires BuiltAndExpanded(config, FORK, 2, u, [40, 41], t)
    ensures !Linked(t, |u.regions|, 10, 30) && !Linked(t, |u.regions|, 43, 30)
  {
    ForkIsPair();
    hide Complete, BuildRegion, Grows, Inv, BuiltAndExpanded, NoEntries, SearchOfPair;
    PairExpanded(config, FORK, 2, u, t);
    var w, b := SearchOfPair(config, FORK, 2, u), Pair(u);
    forall x | x == 10 || x == 43 ensures !Linked(t, w.r, x, 30) {
      LinkedHas(b, w.r, x, 30);
      OtherSideGetsNone(w, b, t, x, 30);
    }
  }
}
