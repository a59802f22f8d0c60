/** What the NET+ search does: nothing is left out but what it passes over on purpose.
    Once the queue is empty every branch within the depth limit has been found; every
    target of such a branch has been walked from once, on behalf of the branch that
    reached it first; and where the walk from it comes back to the entry, the loop
    through that branch is in the region, unless the branch is one of the region. A later
    branch with the same target adds nothing. */
module Exploration {
  import opened Tea
  import opened Flow
  import opened RegionFormation
  import opened Instructions
  import opened Routes
  import opened Paths

  /** What does not change during a search. */
  datatype Search = Search(config: Config, code: Code, entries: set<nat>, roots: set<nat>, limit: nat, r: nat, e0: nat)

  predicate FlowAt(c: Code, k: nat) {
    k < |c.addrs| && c.addrs[k] in c.insns && c.insns[c.addrs[k]].isFlow
  }

  /** A walk from target `t` goes past positions `i` to `j`, the last excluded: there is no
      region entry, and no branch that was not known yet. */
  ghost predicate Passes(w: Search, f: Found, t: nat, i: nat, j: nat) {
    forall k: nat {:trigger w.code.addrs[k]} :: i <= k < j < |w.code.addrs| ==>
      w.code.addrs[k] !in w.entries && !FoundFrom(f, w.code.addrs[k], t)
  }

  /** From target `t` at position `i` such a walk comes to the branch at `j`, past no
      address in `stops` before that. */
  ghost predicate BranchRun(w: Search, f: Found, stops: set<nat>, t: nat, i: nat, j: nat) {
    && i <= j < |w.code.addrs| && w.code.addrs[i] == t && Passes(w, f, t, i, j) && FlowAt(w.code, j)
    && w.code.addrs[j] !in w.entries
    && forall k: nat {:trigger w.code.addrs[k]} :: i <= k < j ==> w.code.addrs[k] !in stops
  }

  /** From target `t` at position `i` such a walk comes back to the region's entry. */
  ghost predicate ClosingRun(w: Search, f: Found, t: nat, i: nat, j: nat) {
    i <= j < |w.code.addrs| && w.code.addrs[i] == t && w.code.addrs[j] == w.e0 && Passes(w, f, t, i, j)
  }

  /** In particular past code in which every branch was found no further away than the
      one that jumps to the target: past the branches of the region, for one, and past
      code without a branch. */
  lemma KnownPasses(w: Search, f: Found, t: nat, i: nat, j: nat)
    requires FoundOk(w.code, w.entries, w.roots, f)
    requires t in f.parent && f.parent[t] in f.distance
    requires forall k: nat :: i <= k < j < |w.code.addrs| ==>
               && w.code.addrs[k] !in w.entries
               && (FlowAt(w.code, k) ==> Within(f, w.code.addrs[k], f.distance[f.parent[t]]))
    ensures Passes(w, f, t, i, j)
  {
    NextAreBranches(w, f);
  }

  lemma NextAreBranches(w: Search, f: Found)
    requires FoundOk(w.code, w.entries, w.roots, f)
    ensures forall a :: a in f.next ==> a in w.code.insns && w.code.insns[a].isFlow && FoundBehind(f, a)
  {
    forall a | a in f.next ensures a in w.code.insns && w.code.insns[a].isFlow && FoundBehind(f, a) {
      assert FoundAt(w.code, w.entries, w.roots, f, a);
    }
  }

  ghost predicate Within(f: Found, a: nat, d: nat) {
    a in f.distance && f.distance[a] <= d
  }

  /** A branch that was found behind a target is one hop further than the branch that
      jumps there. */
  ghost predicate FoundBehind(f: Found, a: nat) {
    && a in f.next && f.next[a] in f.parent && f.parent[f.next[a]] in f.distance
    && a in f.distance && f.distance[a] == f.distance[f.parent[f.next[a]]] + 1
  }

  // ---------- What the search keeps ----------

  /** Loops are not closed through the branches of the region itself. */
  function StopsFrom(stops: set<nat>, d: nat): set<nat> {
    if d > 0 then stops else {}
  }

  ghost predicate FindsBranches(w: Search, f: Found, stops: set<nat>, t: nat, d: nat) {
    forall i: nat, j: nat :: BranchRun(w, f, StopsFrom(stops, d), t, i, j) ==>
      w.code.addrs[j] in f.distance && f.distance[w.code.addrs[j]] <= d + 1
  }

  /** The region has a whole loop: all of a route of `d` hops to branch `x` and of the
      code from its target at position `i` to position `m`. */
  ghost predicate LoopAdded(w: Search, s: State, x: nat, d: nat, i: nat, m: nat, route: Route) {
    && RouteOk(w.code, w.entries, w.roots, route) && End(w.code, route) == x && Hops(route) == d
    && Leg(w.code, w.entries, x, i, m) && Chain(s, w.r, Addrs(w.code, route) + Run(w.code, i, m))
  }

  ghost predicate LoopOver(w: Search, s: State, x: nat, d: nat, t: nat, m: nat) {
    exists i: nat, route :: i < |w.code.addrs| && w.code.addrs[i] == t && LoopAdded(w, s, x, d, i, m, route)
  }

  /** The same up to some position no further than `j`. */
  ghost predicate LoopClosed(w: Search, s: State, x: nat, d: nat, t: nat, j: nat) {
    exists m: nat :: m <= j && LoopOver(w, s, x, d, t, m)
  }

  ghost predicate ClosesLoops(w: Search, s: State, f: Found, x: nat, d: nat, t: nat) {
    forall i: nat, j: nat :: ClosingRun(w, f, t, i, j) ==> LoopClosed(w, s, x, d, t, j)
  }

  /** A loop through `x` is in the region. */
  ghost predicate LoopThrough(w: Search, s: State, x: nat, d: nat) {
    exists t: nat, m: nat :: LoopOver(w, s, x, d, t, m)
  }

  lemma GrowthKeepsLoop(w: Search, s: State, s': State, x: nat, d: nat, t: nat, m: nat)
    requires Grows(s, s') && LoopOver(w, s, x, d, t, m)
    ensures LoopOver(w, s', x, d, t, m)
  {
    var i: nat, route :| i < |w.code.addrs| && w.code.addrs[i] == t && LoopAdded(w, s, x, d, i, m, route);
    GrowthKeepsChain(s, s', w.r, Addrs(w.code, route) + Run(w.code, i, m));
    assert LoopAdded(w, s', x, d, i, m, route);
  }

  lemma GrowthKeepsThrough(w: Search, s: State, s': State, x: nat, d: nat)
    requires Grows(s, s') && LoopThrough(w, s, x, d)
    ensures LoopThrough(w, s', x, d)
  {
    var t: nat, m: nat :| LoopOver(w, s, x, d, t, m);
    GrowthKeepsLoop(w, s, s', x, d, t, m);
  }

  lemma GrowthKeepsClosed(w: Search, s: State, s': State, x: nat, d: nat, t: nat, j: nat)
    requires Grows(s, s') && LoopClosed(w, s, x, d, t, j)
    ensures LoopClosed(w, s', x, d, t, j)
  {
    var m: nat :| m <= j && LoopOver(w, s, x, d, t, m);
    GrowthKeepsLoop(w, s, s', x, d, t, m);
  }

  /** Target `t` has been walked from, if modes may mix or it is on the side of the system
      threshold the region is entered on, and it was entered from a branch that the search
      had already taken from its queue. */
  ghost predicate ScannedAt(w: Search, s: State, f: Found, stops: set<nat>, level: nat, t: nat) {
    && t in f.parent && f.parent[t] in f.distance && f.distance[f.parent[t]] <= level
    && BranchesTo(w.code, f.parent[t], t)
    && (t in w.code.insns && (w.config.mixUsrSys || IsUserInstr(w.config, t) == IsUserInstr(w.config, w.e0)) ==>
          && FindsBranches(w, f, stops, t, f.distance[f.parent[t]])
          && (f.distance[f.parent[t]] > 0 ==> ClosesLoops(w, s, f, f.parent[t], f.distance[f.parent[t]], t)))
  }

  ghost predicate AllScanned(w: Search, s: State, f: Found, stops: set<nat>, level: nat) {
    forall t: nat {:trigger ScannedAt(w, s, f, stops, level, t)} ::
      t in f.parent && t !in w.roots ==> ScannedAt(w, s, f, stops, level, t)
  }

  /** Target `t` of `x` is known, and was reached no later than from `x`. */
  ghost predicate Handled(w: Search, f: Found, x: nat, t: nat) {
    && x in f.distance && t in f.parent
    && (t in w.roots || (f.parent[t] in f.distance && f.distance[f.parent[t]] <= f.distance[x]))
  }

  ghost predicate AllHandled(w: Search, f: Found, queue: seq<nat>, busy: set<nat>) {
    forall x: nat, t: nat {:trigger Handled(w, f, x, t)} ::
      x in f.distance && x !in queue && x !in busy && f.distance[x] < w.limit && BranchesTo(w.code, x, t) ==>
        Handled(w, f, x, t)
  }

  /** Breadth first: the queue is in order of distance and spans two levels. */
  ghost predicate Ordered(f: Found, queue: seq<nat>, level: nat) {
    && (forall i :: 0 <= i < |queue| ==> queue[i] in f.distance && level <= f.distance[queue[i]] <= level + 1)
    && (forall i, j :: 0 <= i < j < |queue| ==> f.distance[queue[i]] <= f.distance[queue[j]])
    && (forall x :: x in f.distance && x !in queue ==> f.distance[x] <= level)
  }

  /** The branches of the region were there before any search: nothing reached them. */
  ghost predicate RootsFound(w: Search, f: Found) {
    forall x :: x in w.roots ==> x in f.distance && f.distance[x] == 0 && x in f.parent && f.parent[x] == 0
  }

  /** Loops are closed at the entry and at branches through which one has been. */
  ghost predicate StopsFound(w: Search, s: State, f: Found, stops: set<nat>) {
    w.e0 in stops && forall x :: x in stops && x != w.e0 ==> Stop(w, s, f, x)
  }

  ghost predicate Stop(w: Search, s: State, f: Found, x: nat) {
    x in f.distance && f.distance[x] > 0 && LoopThrough(w, s, x, f.distance[x])
  }

  /** The address the region is entered at is a region entry and no branch of the search,
      and no code is at address 0, which stands for no branch. */
  ghost predicate EntryOk(w: Search) {
    w.e0 in w.entries && w.e0 !in w.roots && 0 !in w.code.insns
  }

  ghost predicate Explored(w: Search, s: State, f: Found, stops: set<nat>, queue: seq<nat>, level: nat, busy: set<nat>) {
    && EntryOk(w) && StopsFound(w, s, f, stops) && RootsFound(w, f) && Ordered(f, queue, level)
    && AllScanned(w, s, f, stops, level) && AllHandled(w, f, queue, busy)
  }

  /** The search once its queue holds the branches of the region. */
  lemma ExplorationBegins(w: Search, s: State, f: Found, stops: set<nat>, queue: seq<nat>)
    requires EntryOk(w) && stops == {w.e0} && RootsFound(w, f)
    requires forall x :: x in f.parent ==> x in w.roots
    requires forall x :: x in f.distance ==> x in queue && f.distance[x] == 0
    requires forall x :: x in queue ==> x in f.distance
    ensures Explored(w, s, f, stops, queue, 0, {})
  {
    assert forall i :: 0 <= i < |queue| ==> queue[i] in queue;
  }

  /** Taking the branch at the front of the queue. */
  lemma PopExplored(w: Search, s: State, f: Found, stops: set<nat>, queue: seq<nat>, level: nat)
    requires Explored(w, s, f, stops, queue, level, {}) && queue != []
    ensures queue[0] in f.distance && Explored(w, s, f, stops, queue[1..], f.distance[queue[0]], {queue[0]})
  {
    var d, rest := f.distance[queue[0]], queue[1..];
    assert forall x :: x in queue ==> x == queue[0] || x in rest;
    assert Ordered(f, rest, d) by {
      forall x | x in f.distance && x !in rest ensures f.distance[x] <= d {
        assert x in queue ==> x == queue[0];
      }
    }
    forall t: nat | t in f.parent && t !in w.roots ensures ScannedAt(w, s, f, stops, d, t) {
      assert ScannedAt(w, s, f, stops, level, t);
    }
    forall x: nat, t: nat
      | x in f.distance && x !in rest && x != queue[0] && f.distance[x] < w.limit && BranchesTo(w.code, x, t)
      ensures Handled(w, f, x, t)
    {
      assert x !in queue;
    }
  }

  /** A branch is done with when its targets are, or when it is too far away. */
  lemma DoneExplored(w: Search, s: State, f: Found, stops: set<nat>, queue: seq<nat>, level: nat, x: nat)
    requires Explored(w, s, f, stops, queue, level, {x}) && x in f.distance
    requires f.distance[x] < w.limit ==> forall t: nat :: BranchesTo(w.code, x, t) ==> Handled(w, f, x, t)
    ensures Explored(w, s, f, stops, queue, level, {})
  {
  }

  /** What was found meanwhile was found from target `t`. */
  ghost predicate NextFrom(f: Found, g: Found, t: nat) {
    && (forall x :: x in f.next ==> x in g.next && g.next[x] == f.next[x])
    && forall x :: x in g.next && x !in f.next ==> g.next[x] == t
  }

  /** The search state before and after one target has been walked from. */
  ghost predicate Scans(w: Search, s: State, f: Found, g: Found, stops: set<nat>, more: set<nat>, queue: seq<nat>, rest: seq<nat>,
                        level: nat, cur: nat, t: nat) {
    && cur in f.distance && f.distance[cur] == level
    && t !in f.parent && g.parent == f.parent[t := cur]
    && stops <= more && (forall x :: x in more && x !in stops ==> x == cur && level > 0 && LoopThrough(w, s, x, level))
    && (forall x :: x in f.distance ==> x in g.distance && g.distance[x] == f.distance[x])
    && NextFrom(f, g, t) && Ordered(g, rest, level)
    && (forall x :: x in queue ==> x in rest) && (forall x :: x in g.distance && x !in f.distance ==> x in rest)
  }

  lemma StillScanned(w: Search, s: State, s': State, f: Found, g: Found, stops: set<nat>, more: set<nat>,
                     queue: seq<nat>, rest: seq<nat>, level: nat, cur: nat, t: nat, u: nat)
    requires Scans(w, s', f, g, stops, more, queue, rest, level, cur, t) && Grows(s, s')
    requires ScannedAt(w, s, f, stops, level, u) && u != t
    ensures ScannedAt(w, s', g, more, level, u)
  {
    if u in w.code.insns && (w.config.mixUsrSys || IsUserInstr(w.config, u) == IsUserInstr(w.config, w.e0)) {
      var d := f.distance[f.parent[u]];
      forall i: nat, j: nat | BranchRun(w, g, StopsFrom(more, d), u, i, j)
        ensures w.code.addrs[j] in g.distance && g.distance[w.code.addrs[j]] <= d + 1
      {
        assert BranchRun(w, f, StopsFrom(stops, d), u, i, j);
      }
      if d > 0 {
        forall i: nat, j: nat | ClosingRun(w, g, u, i, j) ensures LoopClosed(w, s', f.parent[u], d, u, j) {
          assert ClosingRun(w, f, u, i, j);
          GrowthKeepsClosed(w, s, s', f.parent[u], d, u, j);
        }
      }
    }
  }

  lemma ScanExplored(w: Search, s: State, s': State, f: Found, g: Found, stops: set<nat>, more: set<nat>,
                     queue: seq<nat>, rest: seq<nat>, level: nat, busy: set<nat>, cur: nat, t: nat)
    requires Explored(w, s, f, stops, queue, level, busy) && Grows(s, s')
    requires Scans(w, s', f, g, stops, more, queue, rest, level, cur, t)
    requires ScannedAt(w, s', g, more, level, t)
    ensures Explored(w, s', g, more, rest, level, busy) && Handled(w, g, cur, t)
    ensures forall u: nat {:trigger Handled(w, g, cur, u)} :: Handled(w, f, cur, u) ==> Handled(w, g, cur, u)
  {
    forall x | x in more && x != w.e0 ensures Stop(w, s', g, x) {
      if x in stops {
        assert Stop(w, s, f, x);
        GrowthKeepsThrough(w, s, s', x, f.distance[x]);
      }
    }
    forall u: nat | u in g.parent && u !in w.roots ensures ScannedAt(w, s', g, more, level, u) {
      if u != t {
        assert ScannedAt(w, s, f, stops, level, u);
        StillScanned(w, s, s', f, g, stops, more, queue, rest, level, cur, t, u);
      }
    }
    forall x: nat, u: nat
      | x in g.distance && x !in rest && x !in busy && g.distance[x] < w.limit && BranchesTo(w.code, x, u)
      ensures Handled(w, g, x, u)
    {
      assert x in f.distance && Handled(w, f, x, u);
    }
  }

  /** A target that is known already needs no walk. */
  lemma KnownTarget(w: Search, s: State, f: Found, stops: set<nat>, queue: seq<nat>, level: nat, cur: nat, t: nat)
    requires Explored(w, s, f, stops, queue, level, {cur}) && cur in f.distance && f.distance[cur] == level && t in f.parent
    ensures Handled(w, f, cur, t)
  {
    assert t in w.roots || ScannedAt(w, s, f, stops, level, t);
  }

  // ---------- Walking from a target ----------

  /** A walk at distance `d` stops at position `k`. */
  ghost predicate StopsAtPos(w: Search, f: Found, stops: set<nat>, d: nat, k: nat) {
    k < |w.code.addrs| &&
    var a := w.code.addrs[k];
    (a in stops && d > 0) || a in w.entries || (FlowAt(w.code, k) && a !in f.distance)
  }

  /** A walk from position `i` stops at `it`, or ends there with the code. */
  ghost predicate Walked(w: Search, f: Found, stops: set<nat>, d: nat, i: nat, it: nat) {
    && i <= it <= |w.code.addrs|
    && (forall k: nat :: i <= k < it ==> !StopsAtPos(w, f, stops, d, k))
    && (it < |w.code.addrs| ==> StopsAtPos(w, f, stops, d, it))
  }

  /** The instructions walked over are a leg from the branch the walk came from. */
  lemma WalkedLeg(w: Search, f: Found, stops: set<nat>, d: nat, cur: nat, t: nat, it: nat)
    requires CodeOk(w.code) && t in w.code.insns && BranchesTo(w.code, cur, t)
    requires Walked(w, f, stops, d, Pos(w.code, t), it) && it < |w.code.addrs|
    ensures Leg(w.code, w.entries, cur, Pos(w.code, t), it)
    ensures var a := w.code.addrs[it];
            (a in stops && d > 0) || a in w.entries || (a in w.code.insns && w.code.insns[a].isFlow && a !in f.distance)
  {
    forall k: nat | Pos(w.code, t) <= k < it ensures w.code.addrs[k] !in w.entries {
      assert !StopsAtPos(w, f, stops, d, k);
    }
  }

  /** What the search has made of the walk: it found the branch the walk stopped at,
      or added the path if the walk stopped where loops are closed. */
  ghost predicate Acted(w: Search, s: State, f: Found, g: Found, stops: set<nat>, d: nat, cur: nat, t: nat, it: nat) {
    && (forall x :: x in f.distance ==> x in g.distance && g.distance[x] == f.distance[x])
    && (it < |w.code.addrs| ==>
          var a := w.code.addrs[it];
          if a in stops && d > 0 then LoopOver(w, s, cur, d, t, it)
          else a !in w.entries ==> a in g.distance && g.distance[a] <= d + 1 && FoundFrom(g, a, t))
  }

  /** The same with the queue and the parents. */
  ghost predicate WalkDone(w: Search, s: State, f: Found, g: Found, stops: set<nat>, more: set<nat>,
                           queue: seq<nat>, rest: seq<nat>, level: nat, cur: nat, t: nat, it: nat) {
    && g.parent == f.parent[t := cur] && NextFrom(f, g, t) && queue <= rest
    && stops <= more && (forall x :: x in more && x !in stops ==> x == cur && level > 0 && LoopThrough(w, s, x, level))
    && Ordered(g, rest, level) && (forall x :: x in g.distance && x !in f.distance ==> x in rest)
    && Acted(w, s, f, g, stops, level, cur, t, it)
  }

  /** The walk found a branch. */
  lemma FoundBranch(w: Search, s: State, f: Found, g: Found, stops: set<nat>, queue: seq<nat>, level: nat, cur: nat, t: nat, it: nat)
    requires Ordered(f, queue, level) && it < |w.code.addrs| && w.code.addrs[it] !in f.distance
    requires !(w.code.addrs[it] in stops && level > 0)
    requires w.code.addrs[it] !in f.next && g == Pushed(f, w.code.addrs[it], level + 1, t).(parent := f.parent[t := cur])
    ensures WalkDone(w, s, f, g, stops, stops, queue, queue + [w.code.addrs[it]], level, cur, t, it)
  {
  }

  /** The walk found none. */
  lemma FoundNoBranch(w: Search, s: State, f: Found, g: Found, stops: set<nat>, more: set<nat>, queue: seq<nat>,
                      level: nat, cur: nat, t: nat, it: nat)
    requires Ordered(f, queue, level) && stops <= more && (forall x :: x in more && x !in stops ==> x == cur && level > 0 && LoopThrough(w, s, x, level))
    requires g == f.(parent := f.parent[t := cur])
    requires it < |w.code.addrs| ==>
               if w.code.addrs[it] in stops && level > 0 then LoopOver(w, s, cur, level, t, it) else w.code.addrs[it] in w.entries
    ensures WalkDone(w, s, f, g, stops, more, queue, queue, level, cur, t, it)
  {
  }

  ghost predicate StopsKnown(w: Search, f: Found, stops: set<nat>) {
    w.e0 in stops && forall x :: x in stops && x != w.e0 ==> x in f.distance
  }

  /** Then the target has been walked from: branches are found, and if the walk comes back
      to the entry, the loop through `cur` is in the region. */
  lemma WalkScans(w: Search, s: State, f: Found, g: Found, stops: set<nat>, more: set<nat>, d: nat, cur: nat, t: nat, i: nat, it: nat)
    requires CodeOk(w.code) && EntryOk(w) && StopsKnown(w, f, stops) && stops <= more
    requires Walked(w, f, stops, d, i, it) && i < |w.code.addrs| && w.code.addrs[i] == t
    requires Acted(w, s, f, g, stops, d, cur, t, it)
    requires forall x :: x in f.distance ==> f.distance[x] <= d + 1
    ensures FindsBranches(w, g, more, t, d) && (d > 0 ==> ClosesLoops(w, s, g, cur, d, t))
  {
    hide LoopOver;
    PosUnique(w.code, i);
    forall i': nat, j: nat | BranchRun(w, g, StopsFrom(more, d), t, i', j)
      ensures w.code.addrs[j] in g.distance && g.distance[w.code.addrs[j]] <= d + 1
    {
      PosUnique(w.code, i');
      if w.code.addrs[j] !in f.distance {
        assert StopsAtPos(w, f, stops, d, j) && it <= j;
        assert forall k: nat :: i <= k < j ==> w.code.addrs[k] !in StopsFrom(more, d);
      }
    }
    if d > 0 {
      forall i': nat, j: nat | ClosingRun(w, g, t, i', j) ensures LoopClosed(w, s, cur, d, t, j) {
        PosUnique(w.code, i');
        assert StopsAtPos(w, f, stops, d, j) && it <= j;
        assert it < j ==> !FoundFrom(g, w.code.addrs[it], t) && w.code.addrs[it] !in w.entries;
        assert LoopOver(w, s, cur, d, t, it);
      }
    }
  }

  /** The step of the search that a walk makes. */
  lemma WalkSteps(w: Search, s: State, f: Found, g: Found, stops: set<nat>, more: set<nat>, queue: seq<nat>, rest: seq<nat>,
                  level: nat, cur: nat, t: nat, i: nat, it: nat)
    requires CodeOk(w.code) && EntryOk(w) && StopsKnown(w, f, stops) && Ordered(f, queue, level) && t !in f.parent
    requires cur in f.distance && f.distance[cur] == level && BranchesTo(w.code, cur, t)
    requires i < |w.code.addrs| && w.code.addrs[i] == t && Walked(w, f, stops, level, i, it)
    requires WalkDone(w, s, f, g, stops, more, queue, rest, level, cur, t, it)
    ensures Scans(w, s, f, g, stops, more, queue, rest, level, cur, t) && ScannedAt(w, s, g, more, level, t)
  {
    assert forall x :: x in f.distance ==> f.distance[x] <= level + 1 by {
      forall x | x in f.distance ensures f.distance[x] <= level + 1 {
        if x in queue {
          var k :| 0 <= k < |queue| && queue[k] == x;
        }
      }
    }
    WalkScans(w, s, f, g, stops, more, level, cur, t, i, it);
  }

  /** Nor is a walk needed where the code is not known or on the other side. */
  lemma NoWalkSteps(w: Search, s: State, f: Found, stops: set<nat>, queue: seq<nat>, level: nat, cur: nat, t: nat)
    requires Ordered(f, queue, level) && t !in f.parent
    requires cur in f.distance && f.distance[cur] == level && BranchesTo(w.code, cur, t)
    requires t !in w.code.insns || (!w.config.mixUsrSys && IsUserInstr(w.config, t) != IsUserInstr(w.config, w.e0))
    ensures var g := f.(parent := f.parent[t := cur]);
            Scans(w, s, f, g, stops, stops, queue, queue, level, cur, t) && ScannedAt(w, s, g, stops, level, t)
  {
  }

  // ---------- The branches of the region ----------

  /** All branches of the region but for those at the nodes in `rest` are in the queue. */
  ghost predicate RootsQueued(w: Search, s: State, f: Found, stops: set<nat>, queue: seq<nat>, rest: set<nat>) {
    && w.r < |s.regions| && rest <= s.regions[w.r].nodes && stops <= {w.e0}
    && (forall x :: x in f.parent ==> x in f.distance && x in w.roots && f.parent[x] == 0)
    && (forall x :: x in f.distance ==> x in queue && x in f.parent && f.distance[x] == 0)
    && (forall x :: x in queue ==> x in f.distance)
    && (forall n :: n in rest ==> n < |s.nodes| && s.nodes[n].addr !in f.distance)
    && (forall n :: n in s.regions[w.r].nodes && n !in rest ==> NodeQueued(w, s, f, stops, n))
  }

  ghost predicate NodeQueued(w: Search, s: State, f: Found, stops: set<nat>, n: nat) {
    n < |s.nodes| && (s.nodes[n].addr == w.e0 ==> w.e0 in stops) && (s.nodes[n].addr in w.roots ==> s.nodes[n].addr in f.distance)
  }

  lemma QueueRoot(w: Search, s: State, f: Found, stops: set<nat>, queue: seq<nat>, rest: set<nat>, n: nat)
    requires RootsQueued(w, s, f, stops, queue, rest) && n in rest && Inv(s) && UniqueIn(s, w.r)
    requires s.nodes[n].addr in w.roots && s.nodes[n].addr != w.e0
    ensures var a := s.nodes[n].addr;
            RootsQueued(w, s, f.(distance := f.distance[a := 0], parent := f.parent[a := 0]), stops, queue + [a], rest - {n})
  {
    assert RegionOk(s.nodes, w.r, s.regions[w.r]);
    var a := s.nodes[n].addr;
    var g := f.(distance := f.distance[a := 0], parent := f.parent[a := 0]);
    forall m | m in rest - {n} ensures m < |s.nodes| && s.nodes[m].addr !in g.distance {
      assert s.nodes[m] != s.nodes[n];
    }
    forall m | m in s.regions[w.r].nodes && m !in rest - {n} ensures NodeQueued(w, s, g, stops, m) {
      assert m == n || NodeQueued(w, s, f, stops, m);
    }
  }

  lemma PassNode(w: Search, s: State, f: Found, stops: set<nat>, more: set<nat>, queue: seq<nat>, rest: set<nat>, n: nat)
    requires RootsQueued(w, s, f, stops, queue, rest) && n in rest && stops <= more <= {w.e0}
    requires s.nodes[n].addr !in w.roots && (s.nodes[n].addr == w.e0 ==> w.e0 in more)
    ensures RootsQueued(w, s, f, more, queue, rest - {n})
  {
    forall m | m in s.regions[w.r].nodes && m !in rest - {n} ensures NodeQueued(w, s, f, more, m) {
      assert m == n || NodeQueued(w, s, f, stops, m);
    }
  }

  /** The search can begin when all nodes have been looked at. */
  lemma AllQueued(w: Search, s: State, f: Found, stops: set<nat>, queue: seq<nat>)
    requires RootsQueued(w, s, f, stops, queue, {}) && Inv(s) && 0 < w.r && HasAddr(s, w.r, w.e0)
    requires w.roots <= RegionAddrs(s, w.r) && EntryOk(w)
    ensures Explored(w, s, f, stops, queue, 0, {}) && s.regions[w.r].nodes != {}
  {
    var n :| 0 <= n < |s.nodes| && s.nodes[n] == Node(w.e0, w.r);
    assert n in s.regions[w.r].nodes && NodeQueued(w, s, f, stops, n);
    forall x | x in w.roots ensures x in f.distance && x in f.parent && f.parent[x] == 0 {
      var m: nat :| m < |s.nodes| && s.nodes[m].region == w.r && s.nodes[m].addr == x;
      assert m in s.regions[w.r].nodes && NodeQueued(w, s, f, stops, m);
    }
    ExplorationBegins(w, s, f, stops, queue);
  }

  // ---------- Nothing is left out ----------

  /** A route the search can take: every walk starts on the right side of the threshold
      and goes to a branch, past no other that was not known yet and past no place where
      it would close a loop. */
  ghost predicate Searched(w: Search, f: Found, stops: set<nat>, route: Route) {
    match route
    case At(x) => x in w.roots
    case Hop(before, i, j) =>
      && Searched(w, f, stops, before) && Hops(before) < w.limit
      && i <= j < |w.code.addrs| && Targeted(w, End(w.code, before), w.code.addrs[i])
      && BranchRun(w, f, StopsFrom(stops, Hops(before)), w.code.addrs[i], i, j) && (w.code.addrs[i] in w.roots ==> i == j)
  }

  ghost function RegionAddrs(s: State, r: nat): set<nat> {
    set n: nat | n < |s.nodes| && s.nodes[n].region == r :: s.nodes[n].addr
  }

  ghost predicate Targeted(w: Search, x: nat, t: nat) {
    && BranchesTo(w.code, x, t) && t in w.code.insns
    && (w.config.mixUsrSys || IsUserInstr(w.config, t) == IsUserInstr(w.config, w.e0))
  }

  /** The branch at the end of such a route jumps to code from which a walk, on either side
      of the threshold, would come back to the entry. */
  ghost predicate WalksBack(w: Search, f: Found, stops: set<nat>, route: Route, t: nat, i: nat, j: nat) {
    && Searched(w, f, stops, route) && Hops(route) < w.limit && BranchesTo(w.code, End(w.code, route), t)
    && t in w.code.insns && ClosingRun(w, f, t, i, j)
  }

  /** A branch of the region jumps to `t`, or `t` is one. */
  ghost predicate RootTarget(w: Search, t: nat) {
    t in w.roots || exists x :: x in w.roots && BranchesTo(w.code, x, t)
  }

  /** The branch that reached target `t` first did so in no more than `hops` hops, and
      the loop through it is in the region. */
  ghost predicate ClosedFirst(w: Search, s: State, f: Found, hops: nat, t: nat, j: nat) {
    && t in f.parent && f.parent[t] in f.distance && 0 < f.distance[f.parent[t]] <= hops
    && LoopClosed(w, s, f.parent[t], f.distance[f.parent[t]], t, j)
  }

  ghost predicate LoopsClosed(w: Search, s: State, f: Found, stops: set<nat>) {
    forall route: Route, t: nat, i: nat, j: nat ::
      WalksBack(w, f, stops, route, t, i, j) && !RootTarget(w, t)
      && (w.config.mixUsrSys || IsUserInstr(w.config, t) == IsUserInstr(w.config, w.e0)) ==>
        ClosedFirst(w, s, f, Hops(route), t, j)
  }

  /** Every edge added goes on in the code, or from a branch to a target that this
      branch was the first to reach. */
  ghost predicate TreeEdges(c: Code, m: nat, s: State, f: Found) {
    forall e: nat :: m <= e < |s.edges| ==> TreeEdge(c, s, f, e)
  }

  ghost predicate TreeEdge(c: Code, s: State, f: Found, e: nat) {
    && e < |s.edges| && s.edges[e].src < |s.nodes| && s.edges[e].tgt < |s.nodes|
    && TreeStep(c, f, s.nodes[s.edges[e].src].addr, s.nodes[s.edges[e].tgt].addr)
  }

  /** A target keeps the branch that reached it first. */
  lemma TreeEdgesStay(c: Code, m: nat, s: State, f: Found, g: Found)
    requires TreeEdges(c, m, s, f) && FoundMore(f, g)
    ensures TreeEdges(c, m, s, g)
  {
    forall e: nat | m <= e < |s.edges| ensures TreeEdge(c, s, g, e) {
      assert TreeEdge(c, s, f, e);
      StepStays(c, f, g, s.nodes[s.edges[e].src].addr, s.nodes[s.edges[e].tgt].addr);
    }
  }

  // ---------- The side of the threshold ----------

  /** `b` follows `a` in address order, or modes may mix, or `b` is on the side of the system
      threshold the region is entered on. */
  ghost predicate SidedStep(w: Search, a: nat, b: nat) {
    Adjacent(w.code, a, b) || w.config.mixUsrSys || (b < w.config.systemThreshold) == (w.e0 < w.config.systemThreshold)
  }

  ghost predicate SidedEdge(w: Search, s: State, e: nat) {
    && e < |s.edges| && s.edges[e].src < |s.nodes| && s.edges[e].tgt < |s.nodes|
    && SidedStep(w, s.nodes[s.edges[e].src].addr, s.nodes[s.edges[e].tgt].addr)
  }

  ghost predicate SidedEdges(w: Search, m: nat, s: State) {
    forall e: nat :: m <= e < |s.edges| ==> SidedEdge(w, s, e)
  }

  /** Every target a branch was found behind is on that side. */
  ghost predicate SidedNext(w: Search, next: map<nat, nat>) {
    forall x :: x in next ==>
      w.config.mixUsrSys || (next[x] < w.config.systemThreshold) == (w.e0 < w.config.systemThreshold)
  }

  ghost predicate SidedPath(w: Search, p: seq<nat>) {
    forall i: nat :: i + 1 < |p| ==> SidedAt(w, p, i)
  }

  ghost predicate SidedAt(w: Search, p: seq<nat>, i: nat) {
    i + 1 < |p| && SidedStep(w, p[i], p[i + 1])
  }

  lemma SidedMore(w: Search, p: seq<nat>, i: nat, j: nat)
    requires p != [] && SidedPath(w, p) && i <= j < |w.code.addrs| && SidedStep(w, p[|p| - 1], w.code.addrs[i])
    ensures SidedPath(w, p + Run(w.code, i, j))
  {
    var q := p + Run(w.code, i, j);
    assert forall k :: |p| <= k < |q| ==> q[k] == w.code.addrs[i + k - |p|];
    forall k: nat | k + 1 < |q| ensures SidedAt(w, q, k) {
      if k + 1 < |p| {
        assert SidedAt(w, p, k);
      } else if k + 1 > |p| {
        var m := i + k - |p|;
        assert w.code.addrs[m] == q[k] && w.code.addrs[m + 1] == q[k + 1];
      }
    }
  }

  /** Routes back to the region only jump to that side. */
  lemma {:induction false} RouteIsSided(w: Search, f: Found, x: nat)
    requires FoundOk(w.code, w.entries, w.roots, f) && x in f.distance && SidedNext(w, f.next)
    ensures SidedPath(w, Addrs(w.code, RouteTo(w.code, w.entries, w.roots, f, x)))
    decreases f.distance[x]
  {
    assert FoundAt(w.code, w.entries, w.roots, f, x);
    if f.distance[x] > 0 {
      var t := f.next[x];
      var before := RouteTo(w.code, w.entries, w.roots, f, f.parent[t]);
      RouteIsSided(w, f, f.parent[t]);
      RouteIsPath(w.code, w.entries, w.roots, before);
      SidedMore(w, Addrs(w.code, before), Pos(w.code, t), Pos(w.code, x));
    }
  }

  /** The edges of a path that is added, too. */
  lemma SidedEdgesGrow(w: Search, m: nat, s: State, t: State, p: seq<nat>)
    requires SidedEdges(w, m, s) && SidedPath(w, p) && PathAdded(s, t, w.r, p, |p|)
    ensures SidedEdges(w, m, t)
  {
    forall e: nat | m <= e < |t.edges| ensures SidedEdge(w, t, e) {
      if e < |s.edges| {
        assert SidedEdge(w, s, e) && t.edges[e] == s.edges[e];
      } else {
        assert OnPath(t, p, e);
        var i: nat :| StepsAt(t, p, i, e);
        assert SidedAt(w, p, i);
      }
    }
  }

  /** What has been found is not changed. */
  ghost predicate FoundMore(f: Found, g: Found) {
    && (forall x :: x in f.distance ==> x in g.distance && g.distance[x] == f.distance[x])
    && (forall x :: x in f.next ==> x in g.next && g.next[x] == f.next[x])
    && forall t :: t in f.parent ==> t in g.parent && g.parent[t] == f.parent[t]
  }

  lemma StepStays(c: Code, f: Found, g: Found, a: nat, b: nat)
    requires TreeStep(c, f, a, b) && FoundMore(f, g)
    ensures TreeStep(c, g, a, b)
  {
    if y :| FoundFrom(f, y, b) {
      assert FoundFrom(g, y, b);
    }
  }

  /** What the search has found and done in the end. */
  ghost predicate CompleteBy(w: Search, s0: State, s: State, f: Found, stops: set<nat>) {
    && FoundOk(w.code, w.entries, w.roots, f) && EntryOk(w) && RootsFound(w, f) && StopsFound(w, s, f, stops)
    && AllHandled(w, f, [], {}) && TreeEdges(w.code, |s0.edges|, s, f) && LoopsClosed(w, s, f, stops)
    && SidedEdges(w, |s0.edges|, s)
  }

  ghost predicate Complete(w: Search, s0: State, s: State) {
    exists f, stops :: CompleteBy(w, s0, s, f, stops)
  }

  /** When the queue is empty, every branch on such a route has been found, within
      as many hops as the route has. */
  lemma {:induction false} RouteIsFound(w: Search, s: State, f: Found, stops: set<nat>, level: nat, route: Route)
    requires FoundOk(w.code, w.entries, w.roots, f) && Explored(w, s, f, stops, [], level, {})
    requires Searched(w, f, stops, route)
    ensures End(w.code, route) in f.distance && f.distance[End(w.code, route)] <= Hops(route)
  {
    match route
    case At(x) =>
    case Hop(before, i, j) =>
      RouteIsFound(w, s, f, stops, level, before);
      var x, t := End(w.code, before), w.code.addrs[i];
      assert Handled(w, f, x, t);
      if t !in w.roots {
        assert ScannedAt(w, s, f, stops, level, t);
        assert BranchRun(w, f, StopsFrom(stops, f.distance[f.parent[t]]), t, i, j);
      }
  }

  /** And every loop such a branch closes has been closed through the branch that was
      the first to jump where it does. */
  lemma SearchIsComplete(w: Search, s0: State, s: State, f: Found, stops: set<nat>, level: nat)
    requires FoundOk(w.code, w.entries, w.roots, f)
    requires Explored(w, s, f, stops, [], level, {}) && TreeEdges(w.code, |s0.edges|, s, f) && SidedEdges(w, |s0.edges|, s)
    ensures Complete(w, s0, s)
  {
    forall route: Route, t: nat, i: nat, j: nat
      | WalksBack(w, f, stops, route, t, i, j) && !RootTarget(w, t)
        && (w.config.mixUsrSys || IsUserInstr(w.config, t) == IsUserInstr(w.config, w.e0))
      ensures ClosedFirst(w, s, f, Hops(route), t, j)
    {
      RouteIsFound(w, s, f, stops, level, route);
      assert Handled(w, f, End(w.code, route), t);
      assert ScannedAt(w, s, f, stops, level, t);
      assert FoundAt(w.code, w.entries, w.roots, f, f.parent[t]);
      assert ClosesLoops(w, s, f, f.parent[t], f.distance[f.parent[t]], t);
    }
    assert CompleteBy(w, s0, s, f, stops);
  }

  /** A branch within reach of the search jumps to target `t`. */
  ghost predicate Jumps(w: Search, x: nat, t: nat) {
    BranchesTo(w.code, x, t) && exists route :: Reaching(w, x, route)
  }

  ghost predicate Reaching(w: Search, x: nat, route: Route) {
    RouteOk(w.code, w.entries, w.roots, route) && Hops(route) < w.limit && End(w.code, route) == x
  }

  /** There is no other way from branches within reach to target `t` than to jump there,
      and no such edge yet. */
  ghost predicate OnlyJumps(w: Search, s0: State, t: nat) {
    forall x :: Jumps(w, x, t) ==> !Adjacent(w.code, x, t) && !Linked(s0, w.r, x, t)
  }

  lemma {:induction false} SearchedIsRoute(w: Search, f: Found, stops: set<nat>, route: Route, t: nat)
    requires Searched(w, f, stops, route) && BranchesTo(w.code, End(w.code, route), t)
    ensures RouteOk(w.code, w.entries, w.roots, route)
  {
    match route
    case At(_) =>
    case Hop(before, i, j) =>
      SearchedIsRoute(w, f, stops, before, w.code.addrs[i]);
  }

  /** The branch a loop is closed through is within reach and has its edge to the target. */
  lemma ClosedIsLinked(w: Search, s: State, x: nat, d: nat, t: nat, j: nat)
    requires CodeOk(w.code) && LoopClosed(w, s, x, d, t, j) && d < w.limit
    ensures Jumps(w, x, t) && Linked(s, w.r, x, t)
  {
    var m: nat :| m <= j && LoopOver(w, s, x, d, t, m);
    var i: nat, route :| i < |w.code.addrs| && w.code.addrs[i] == t && LoopAdded(w, s, x, d, i, m, route);
    var p := Addrs(w.code, route);
    EndsAt(w.code, w.entries, w.roots, route);
    assert Reaching(w, x, route);
    assert LinkedAt(s, w.r, p + Run(w.code, i, m), |p| - 1);
  }

  /** An edge to the target that is new comes from the branch that reached it first, in a
      step that may be part of a loop. */
  lemma NewLink(w: Search, s0: State, s: State, f: Found, x: nat, t: nat)
    requires Inv(s0) && Grows(s0, s) && !Linked(s0, w.r, x, t) && TreeEdges(w.code, |s0.edges|, s, f)
    requires Linked(s, w.r, x, t) && !Adjacent(w.code, x, t)
    ensures BranchesTo(w.code, x, t) && t in f.parent && f.parent[t] == x && Used(f, x, t)
  {
    var e: nat :| Joins(s, w.r, x, t, e);
    assert !Joins(s0, w.r, x, t, e);
    assert |s0.edges| <= e;
    assert TreeEdge(w.code, s, f, e);
  }

  /** A walk that comes back to the entry found no branch. */
  lemma NoneFoundFrom(w: Search, f: Found, t: nat, i: nat, j: nat)
    requires FoundOk(w.code, w.entries, w.roots, f) && EntryOk(w) && ClosingRun(w, f, t, i, j)
    ensures forall y :: !FoundFrom(f, y, t)
  {
    forall y ensures !FoundFrom(f, y, t) {
      if FoundFrom(f, y, t) {
        FoundBefore(w, f, y, t, i, j);
      }
    }
  }

  lemma FoundBefore(w: Search, f: Found, y: nat, t: nat, i: nat, j: nat)
    requires FoundOk(w.code, w.entries, w.roots, f) && w.e0 in w.entries && FoundFrom(f, y, t)
    requires i <= j < |w.code.addrs| && w.code.addrs[i] == t && w.code.addrs[j] == w.e0
    ensures exists k :: i <= k < j && w.code.addrs[k] == y
  {
    assert FoundAt(w.code, w.entries, w.roots, f, y);
    PosUnique(w.code, i);
    var k := Pos(w.code, y);
    assert i <= k && w.code.addrs[k] == y;
  }

  /** Where the target is a branch of the region, or one jumps to it, the loop is not
      closed: no branch gets an edge to it. */
  lemma RootsCloseNone(w: Search, s0: State, s: State, f: Found, stops: set<nat>, x: nat, t: nat, i: nat, j: nat)
    requires CompleteBy(w, s0, s, f, stops) && Inv(s0) && Grows(s0, s) && 0 < w.limit
    requires ClosingRun(w, f, t, i, j) && RootTarget(w, t) && !Linked(s0, w.r, x, t) && !Adjacent(w.code, x, t)
    ensures !Linked(s, w.r, x, t)
  {
    hide Linked, LoopsClosed, StopsFound, TreeEdges;
    NoneFoundFrom(w, f, t, i, j);
    if t !in w.roots {
      var root :| root in w.roots && BranchesTo(w.code, root, t);
      assert Handled(w, f, root, t);
    }
    if Linked(s, w.r, x, t) {
      NewLink(w, s0, s, f, x, t);
    }
  }

  /** A target on the other side gets no edge when modes may not mix. */
  lemma OtherSideGetsNone(w: Search, s0: State, s: State, x: nat, t: nat)
    requires Complete(w, s0, s) && Inv(s0) && Grows(s0, s)
    requires !w.config.mixUsrSys && (t < w.config.systemThreshold) != (w.e0 < w.config.systemThreshold)
    requires !Linked(s0, w.r, x, t) && !Adjacent(w.code, x, t)
    ensures !Linked(s, w.r, x, t)
  {
    hide LoopsClosed, StopsFound, FoundOk, AllHandled, RootsFound, TreeEdges, Adjacent;
    var f, stops :| CompleteBy(w, s0, s, f, stops);
    forall e: nat | e < |s.edges| ensures !Joins(s, w.r, x, t, e) {
      assert !Joins(s0, w.r, x, t, e);
      assert |s0.edges| <= e ==> SidedEdge(w, s, e);
    }
  }

  /** Where walks from target `t` would come back to the entry, some branch within reach
      that jumps there gets its edge to `t` if and only if `t` is no branch of the region,
      none jumps there, and modes may mix or `t` is on the side of the threshold the region
      is entered on; and all of them do if and only if, besides, there is only one. */
  lemma AllLoopsIff(w: Search, s0: State, s: State, f: Found, stops: set<nat>, route: Route, t: nat, i: nat, j: nat)
    requires CompleteBy(w, s0, s, f, stops) && Inv(s0) && Grows(s0, s)
    requires WalksBack(w, f, stops, route, t, i, j) && OnlyJumps(w, s0, t)
    ensures var sameSide := w.config.mixUsrSys || (t < w.config.systemThreshold) == (w.e0 < w.config.systemThreshold);
            && ((exists x :: Jumps(w, x, t) && Linked(s, w.r, x, t)) <==> !RootTarget(w, t) && sameSide)
            && ((forall x :: Jumps(w, x, t) ==> Linked(s, w.r, x, t)) <==>
                  (forall x, y :: Jumps(w, x, t) && Jumps(w, y, t) ==> x == y) && !RootTarget(w, t) && sameSide)
  {
    hide Jumps, Linked, StopsFound, TreeEdges, LoopClosed, Searched, AllHandled, RootsFound, SidedEdges;
    var sameSide := w.config.mixUsrSys || (t < w.config.systemThreshold) == (w.e0 < w.config.systemThreshold);
    if RootTarget(w, t) || !sameSide {
      EndJumps(w, f, stops, route, t, i, j);
      forall x | Jumps(w, x, t) ensures !Linked(s, w.r, x, t) {
        if RootTarget(w, t) {
          RootsCloseNone(w, s0, s, f, stops, x, t, i, j);
        } else {
          OtherSideGetsNone(w, s0, s, x, t);
        }
      }
    } else {
      assert ClosedFirst(w, s, f, Hops(route), t, j);
      ClosedIsLinked(w, s, f.parent[t], f.distance[f.parent[t]], t, j);
      forall x | Jumps(w, x, t) && Linked(s, w.r, x, t) ensures x == f.parent[t] {
        NewLink(w, s0, s, f, x, t);
      }
    }
  }

  lemma EndJumps(w: Search, f: Found, stops: set<nat>, route: Route, t: nat, i: nat, j: nat)
    requires WalksBack(w, f, stops, route, t, i, j)
    ensures Jumps(w, End(w.code, route), t)
  {
    SearchedIsRoute(w, f, stops, route, t);
    assert Reaching(w, End(w.code, route), route);
  }

  /** Of several branches that jump to a target only one gets an edge to it. */
  lemma OneBranchPerTarget(w: Search, s0: State, s: State, x: nat, y: nat, t: nat)
    requires Complete(w, s0, s) && Inv(s0) && Grows(s0, s) && !Linked(s0, w.r, x, t) && !Linked(s0, w.r, y, t)
    requires x != y && !Adjacent(w.code, x, t) && !Adjacent(w.code, y, t)
    ensures !(Linked(s, w.r, x, t) && Linked(s, w.r, y, t))
  {
    hide LoopsClosed, StopsFound, FoundOk, Linked, AllHandled, RootsFound;
    var f, stops :| CompleteBy(w, s0, s, f, stops);
    if Linked(s, w.r, x, t) && Linked(s, w.r, y, t) {
      NewLink(w, s0, s, f, x, t);
      NewLink(w, s0, s, f, y, t);
    }
  }
}
