/** Last-Executed Iteration: when a hot target is reached again, the branches taken
    since the last time become a region. */
module Lei {
  import opened Wrappers
  import opened Tea
  import opened Flow
  import opened Entries
  import opened Rain
  import opened RegionFormation
  import opened Recording
  import opened Instructions
  import opened BranchHistory

  // ---------- Forming a trace ----------

  /** A region being formed and its last node; none before the first instruction. */
  datatype Trace = Trace(tea: State, region: Option<nat>, last: Option<nat>)

  function NewTrace(s: State): Trace {
    Trace(s, None, None)
  }

  /** Why a walk over the instructions ends: after the branch or at the end of the
      code, at the start of another trace, or never, because the source does not go
      on to the next instruction when the mode switches. */
  datatype Ending = Ran | AtTrace | Forever

  ghost predicate TraceOk(x: Trace) {
    && Inv(x.tea) && (x.region.Some? <==> x.last.Some?)
    && (x.region.Some? ==>
          && 0 < x.region.value < |x.tea.regions| && UniqueIn(x.tea, x.region.value)
          && x.last.value < |x.tea.nodes| && x.tea.nodes[x.last.value].region == x.region.value)
  }

  /** One instruction: its node is looked up in the region, which is made when there
      is none yet; a new node becomes the entry or is linked to the last one. */
  function Place(x: Trace, a: nat): (y: Trace)
    requires TraceOk(x) && a != NTE_ADDR
    ensures TraceOk(y) && Grows(x.tea, y.tea) && y.last.Some? && y.last.value < |y.tea.nodes| && y.tea.nodes[y.last.value].addr == a
  {
    BeginRegionOk(x);
    var b := BeginRegion(x);
    var r := b.region.value;
    var n := GetNode(b.tea, r, a, 0);
    if n.Some? then Trace(b.tea, Some(r), n)
    else
      ExtendUnique(b.tea, r, b.last, a);
      var (t, m) := Extend(b.tea, r, b.last, a);
      Trace(t, Some(r), Some(m))
  }

  function BeginRegion(x: Trace): Trace {
    if x.region.None? then Trace(CreateRegion(x.tea), Some(|x.tea.regions|), None) else x
  }

  lemma BeginRegionOk(x: Trace)
    requires TraceOk(x)
    ensures var b := BeginRegion(x);
            && Inv(b.tea) && b.region.Some? && 0 < b.region.value < |b.tea.regions| && UniqueIn(b.tea, b.region.value)
            && b.last == x.last && Grows(x.tea, b.tea) && b.tea.nodes == x.tea.nodes && b.tea.edges == x.tea.edges
            && (b.last.Some? ==> b.last.value < |b.tea.nodes| && b.tea.nodes[b.last.value].region == b.region.value)
  {
    if x.region.None? {
      CreateRegionInv(x.tea);
      NewRegionIsEmpty(x.tea);
    }
  }

  lemma ExtendUnique(s: State, r: nat, last: Option<nat>, a: nat)
    requires Inv(s) && 0 < r < |s.regions| && a != NTE_ADDR && UniqueIn(s, r)
    requires last.Some? ==> last.value < |s.nodes| && s.nodes[last.value].region == r
    ensures UniqueIn(Extend(s, r, last, a).0, r) && Grows(s, Extend(s, r, last, a).0)
  {
    NodeForInv(s, r, a);
    NodeForUnique(s, r, a);
    var (t, n) := NodeFor(s, r, a);
    if last.Some? {
      LinkToInv(t, r, last.value, n);
    }
  }

  predicate OtherSide(c: Config, start: nat, a: nat) {
    SwitchedMode(c, start, a) && !c.mixUsrSys
  }

  /** The walk from position `i` to the branch at `src`. */
  function WalkTo(c: Config, code: Code, start: nat, src: nat, x: Trace, i: nat): (res: (Trace, Ending))
    requires TraceOk(x) && CodeOk(code) && NTE_ADDR !in code.insns
    ensures TraceOk(res.0) && Grows(x.tea, res.0.tea)
    decreases |code.addrs| - i
  {
    hide Inv, UniqueIn;
    GrowsItself(x.tea);
    if i >= |code.addrs| then (x, Ran)
    else
      var a := code.addrs[i];
      assert a in code.addrs;
      if OtherSide(c, start, a) then (x, Forever)
      else if a != start && a in x.tea.entries then (x, AtTrace)
      else
        var y := Place(x, a);
        if a == src then (y, Ran) else WalkTo(c, code, start, src, y, i + 1)
  }

  /** The position of an address in the code, or past its end. */
  function PosOf(code: Code, a: nat, i: nat): (k: nat)
    requires i <= |code.addrs|
    ensures k <= |code.addrs| && (k < |code.addrs| ==> code.addrs[k] == a)
    ensures k == |code.addrs| ==> forall j :: i <= j < |code.addrs| ==> code.addrs[j] != a
    decreases |code.addrs| - i
  {
    if i == |code.addrs| || code.addrs[i] == a then i else PosOf(code, a, i + 1)
  }

  /** The exit of the region is its last node; more may have been added since. */
  function ClosedIn(y: Trace, s: State): (t: State)
    requires TraceOk(y) && Inv(s) && Grows(y.tea, s)
    ensures Inv(t) && Grows(y.tea, t)
  {
    if y.last.Some? then
      assert s.nodes[y.last.value] == y.tea.nodes[y.last.value];
      SetExitInv(s, y.last.value);
      SetExit(s, y.last.value)
    else s
  }

  /** `formTrace` from branch `k` of the history on, at `prev`; nothing if it does
      not end. When the walk comes to another trace, the rest of the history makes
      a region of its own. */
  function FormFrom(c: Config, code: Code, buf: seq<Branch>, start: nat, x: Trace, prev: nat, k: nat): (t: Option<State>)
    requires TraceOk(x) && CodeOk(code) && NTE_ADDR !in code.insns
    ensures t.Some? ==> Inv(t.value) && Grows(x.tea, t.value)
    decreases |buf| - k
  {
    hide Inv, UniqueIn, Grows;
    if k >= |buf| then
      GrowsItself(x.tea);
      Some(ClosedIn(x, x.tea))
    else
      var (y, end) := WalkTo(c, code, start, buf[k].src, x, PosOf(code, prev, 0));
      GrowsItself(y.tea);
      match end
      case Forever => None
      case AtTrace =>
        var t := FormFrom(c, code, buf, buf[k].tgt, NewTrace(y.tea), buf[k].tgt, k + 1);
        if t.None? then None
        else
          GrowsTransitive(x.tea, y.tea, ClosedIn(y, t.value));
          Some(ClosedIn(y, t.value))
      case Ran =>
        // the branch goes back into the region
        if y.region.Some? && GetNode(y.tea, y.region.value, buf[k].tgt, 0).Some? then
          GrowsTransitive(x.tea, y.tea, ClosedIn(y, y.tea));
          Some(ClosedIn(y, y.tea))
        else
          var t := FormFrom(c, code, buf, start, y, buf[k].tgt, k + 1);
          if t.None? then None
          else
            GrowsTransitive(x.tea, y.tea, t.value);
            t
  }

  // ---------- When it does not end ----------

  /** The walk from position `i` comes to position `k`, on the other side of the
      system threshold, before it ends. */
  ghost predicate StuckAt(c: Config, code: Code, start: nat, src: nat, entries: set<nat>, i: nat, k: nat) {
    && i <= k < |code.addrs| && OtherSide(c, start, code.addrs[k])
    && forall j :: i <= j < k ==> Passes(c, start, src, entries, code.addrs[j])
  }

  predicate Passes(c: Config, start: nat, src: nat, entries: set<nat>, a: nat) {
    !OtherSide(c, start, a) && (a == start || a !in entries) && a != src
  }

  ghost predicate GetsStuck(c: Config, code: Code, start: nat, src: nat, entries: set<nat>, i: nat) {
    exists k :: StuckAt(c, code, start, src, entries, i, k)
  }

  lemma StuckFurther(c: Config, code: Code, start: nat, src: nat, entries: set<nat>, i: nat)
    requires i < |code.addrs| && Passes(c, start, src, entries, code.addrs[i])
    ensures GetsStuck(c, code, start, src, entries, i) <==> GetsStuck(c, code, start, src, entries, i + 1)
  {
    if k :| StuckAt(c, code, start, src, entries, i, k) {
      assert StuckAt(c, code, start, src, entries, i + 1, k);
    }
    var next := i + 1;
    if k :| StuckAt(c, code, start, src, entries, next, k) {
      assert StuckAt(c, code, start, src, entries, i, k);
    }
  }

  lemma StuckHere(c: Config, code: Code, start: nat, src: nat, entries: set<nat>, i: nat)
    requires i < |code.addrs| && !Passes(c, start, src, entries, code.addrs[i])
    ensures GetsStuck(c, code, start, src, entries, i) <==> OtherSide(c, start, code.addrs[i])
  {
    if OtherSide(c, start, code.addrs[i]) {
      assert StuckAt(c, code, start, src, entries, i, i);
    }
  }

  /** The walk never ends if and only if it comes to such a position. */
  lemma {:induction false} ForeverIff(c: Config, code: Code, start: nat, src: nat, x: Trace, i: nat, entries: set<nat>)
    requires TraceOk(x) && CodeOk(code) && NTE_ADDR !in code.insns
    requires forall j :: i <= j < |code.addrs| ==> (code.addrs[j] in x.tea.entries <==> code.addrs[j] in entries)
    ensures WalkTo(c, code, start, src, x, i).1 == Forever <==> GetsStuck(c, code, start, src, entries, i)
    decreases |code.addrs| - i
  {
    hide TraceOk, Place;
    if i < |code.addrs| {
      var a := code.addrs[i];
      assert a in code.addrs;
      if Passes(c, start, src, entries, a) {
        StuckFurther(c, code, start, src, entries, i);
        PlaceEntries(x, a);
        ForeverIff(c, code, start, src, Place(x, a), i + 1, entries);
      } else {
        StuckHere(c, code, start, src, entries, i);
      }
    }
  }

  /** Placing an instruction makes at most that address an entry. */
  lemma PlaceEntries(x: Trace, a: nat)
    requires TraceOk(x) && a != NTE_ADDR
    ensures forall b :: b != a ==> (b in Place(x, a).tea.entries <==> b in x.tea.entries)
  {
    BeginRegionOk(x);
    var b := BeginRegion(x);
    if GetNode(b.tea, b.region.value, a, 0).None? {
      ExtendEntries(b.tea, b.region.value, b.last, a);
    }
  }

  // ---------- Exactly when forming a trace never ends ----------

  /** The position at which the walk from position `i` ends, or the end of the code. */
  function Halt(c: Config, code: Code, start: nat, src: nat, entries: set<nat>, i: nat): (m: nat)
    requires i <= |code.addrs|
    ensures i <= m <= |code.addrs|
    decreases |code.addrs| - i
  {
    if i == |code.addrs| || !Passes(c, start, src, entries, code.addrs[i]) then i
    else Halt(c, code, start, src, entries, i + 1)
  }

  /** How it ends there. */
  function HaltsBy(c: Config, code: Code, start: nat, entries: set<nat>, m: nat): Ending
    requires m <= |code.addrs|
  {
    if m == |code.addrs| then Ran
    else if OtherSide(c, start, code.addrs[m]) then Forever
    else if code.addrs[m] != start && code.addrs[m] in entries then AtTrace
    else Ran
  }

  /** The addresses it has placed: all up to there, and the branch it was looking for. */
  function WalkedOver(c: Config, code: Code, start: nat, entries: set<nat>, i: nat, m: nat): set<nat>
    requires i <= m <= |code.addrs|
  {
    var over := if m < |code.addrs| && HaltsBy(c, code, start, entries, m) == Ran then m + 1 else m;
    set k | i <= k < over :: code.addrs[k]
  }

  /** Forming a trace from branch `k` of the history on never ends. What it takes to see
      this is the code, the history and the region entries; `placed` are the addresses
      the region has so far. No automaton is built. */
  predicate Endless(c: Config, code: Code, buf: seq<Branch>, start: nat, entries: set<nat>, placed: set<nat>, prev: nat, k: nat)
    decreases |buf| - k
  {
    k < |buf| &&
    var i := PosOf(code, prev, 0);
    var m := Halt(c, code, start, buf[k].src, entries, i);
    match HaltsBy(c, code, start, entries, m)
    case Forever => true
    case AtTrace => Endless(c, code, buf, buf[k].tgt, entries + {start}, {}, buf[k].tgt, k + 1)
    case Ran =>
      var more := placed + WalkedOver(c, code, start, entries, i, m);
      buf[k].tgt !in more && Endless(c, code, buf, start, entries, more, buf[k].tgt, k + 1)
  }

  /** The region being formed has the address. */
  ghost predicate Holds(x: Trace, a: nat) {
    x.region.Some? && exists n :: 0 <= n < |x.tea.nodes| && x.tea.nodes[n] == Node(a, x.region.value)
  }

  lemma PlaceHolds(x: Trace, a: nat)
    requires TraceOk(x) && a != NTE_ADDR
    ensures var y := Place(x, a);
            && y.region.Some? && (forall b :: Holds(y, b) <==> Holds(x, b) || b == a)
            && y.tea.entries.Keys == x.tea.entries.Keys + if x.region.None? then {a} else {}
  {
    hide OutsOk, InsOk, InnerOk, CacheOk, Deterministic, UniqueIn;
    BeginRegionOk(x);
    var b, y := BeginRegion(x), Place(x, a);
    var r := b.region.value;
    assert forall n :: 0 <= n < |x.tea.nodes| ==> b.tea.nodes[n] == x.tea.nodes[n];
    assert forall d :: Holds(b, d) <==> Holds(x, d) by {
      assert x.region.None? ==> forall n :: 0 <= n < |b.tea.nodes| ==> b.tea.nodes[n].region != r;
    }
    if GetNode(b.tea, r, a, 0).None? {
      ExtendEntries(b.tea, r, b.last, a);
      ExtendNodes(b.tea, r, b.last, a);
    }
    hide *;
    HoldsMore(b, y, a);
  }

  lemma HoldsMore(b: Trace, y: Trace, a: nat)
    requires b.region.Some? && y.region == b.region
    requires y.tea.nodes == b.tea.nodes + [Node(a, b.region.value)] || (y.tea.nodes == b.tea.nodes && Holds(b, a))
    ensures forall d :: Holds(y, d) <==> Holds(b, d) || d == a
  {
    forall d ensures Holds(y, d) <==> Holds(b, d) || d == a {
      if Holds(b, d) {
        var n :| 0 <= n < |b.tea.nodes| && b.tea.nodes[n] == Node(d, b.region.value);
        assert y.tea.nodes[n] == Node(d, b.region.value);
      }
      assert d == a && !Holds(b, a) ==> y.tea.nodes[|b.tea.nodes|] == Node(d, b.region.value);
    }
  }

  /** The only new node is that of the address. */
  lemma ExtendNodes(s: State, r: nat, last: Option<nat>, a: nat)
    requires Inv(s) && 0 < r < |s.regions| && a != NTE_ADDR && GetNode(s, r, a, 0).None?
    requires last.Some? ==> last.value < |s.nodes| && s.nodes[last.value].region == r
    ensures Extend(s, r, last, a).0.nodes == s.nodes + [Node(a, r)]
  {
    var (t, n) := NodeFor(s, r, a);
    NodeForInv(s, r, a);
    if last.Some? {
      LinkToInv(t, r, last.value, n);
    }
  }

  /** The entries while a trace is formed: those there were, and its start once that has
      been placed. */
  ghost predicate EntriesAre(x: Trace, start: nat, entries: set<nat>) {
    && (forall a :: a != start ==> (a in x.tea.entries <==> a in entries))
    && (x.region.Some? ==> start in x.tea.entries)
  }

  /** A walk, told without the automaton. */
  lemma {:induction false} WalkHalts(c: Config, code: Code, start: nat, src: nat, x: Trace, i: nat, entries: set<nat>)
    requires TraceOk(x) && CodeOk(code) && NTE_ADDR !in code.insns && i <= |code.addrs|
    requires EntriesAre(x, start, entries) && (x.region.None? ==> i < |code.addrs| && code.addrs[i] == start)
    ensures var (y, end) := WalkTo(c, code, start, src, x, i);
            var m := Halt(c, code, start, src, entries, i);
            && end == HaltsBy(c, code, start, entries, m) && y.region.Some? && EntriesAre(y, start, entries)
            && (forall b :: Holds(y, b) <==> Holds(x, b) || b in WalkedOver(c, code, start, entries, i, m))
    decreases |code.addrs| - i
  {
    hide TraceOk, Place, Holds, WalkedOver;
    if i == |code.addrs| || !Passes(c, start, src, entries, code.addrs[i]) {
      WalkHaltsHere(c, code, start, src, x, i, entries);
    } else {
      var a := code.addrs[i];
      assert a in code.addrs;
      PlaceHolds(x, a);
      WalkHalts(c, code, start, src, Place(x, a), i + 1, entries);
      WalkedOverFirst(c, code, start, entries, i, Halt(c, code, start, src, entries, i + 1));
    }
  }

  lemma WalkHaltsHere(c: Config, code: Code, start: nat, src: nat, x: Trace, i: nat, entries: set<nat>)
    requires TraceOk(x) && CodeOk(code) && NTE_ADDR !in code.insns && i <= |code.addrs|
    requires EntriesAre(x, start, entries) && (x.region.None? ==> i < |code.addrs| && code.addrs[i] == start)
    requires i == |code.addrs| || !Passes(c, start, src, entries, code.addrs[i])
    ensures var (y, end) := WalkTo(c, code, start, src, x, i);
            && end == HaltsBy(c, code, start, entries, i) && y.region.Some? && EntriesAre(y, start, entries)
            && (forall b :: Holds(y, b) <==> Holds(x, b) || b in WalkedOver(c, code, start, entries, i, i))
  {
    hide TraceOk, Place, Holds;
    if i < |code.addrs| {
      var a := code.addrs[i];
      assert a in code.addrs;
      if !OtherSide(c, start, a) && (a == start || a !in entries) {
        PlaceHolds(x, a);
      }
    }
  }

  lemma WalkedOverFirst(c: Config, code: Code, start: nat, entries: set<nat>, i: nat, m: nat)
    requires i < m <= |code.addrs|
    ensures WalkedOver(c, code, start, entries, i, m) == {code.addrs[i]} + WalkedOver(c, code, start, entries, i + 1, m)
  {
  }

  lemma NewTraceOk(x: Trace)
    requires TraceOk(x)
    ensures TraceOk(NewTrace(x.tea)) && forall a :: !Holds(NewTrace(x.tea), a)
  {
  }

  /** Forming a trace never ends exactly when that is so. */
  lemma {:induction false} EndlessIff(c: Config, code: Code, buf: seq<Branch>, start: nat, x: Trace, prev: nat, k: nat,
                                      entries: set<nat>, placed: set<nat>)
    requires TraceOk(x) && CodeOk(code) && NTE_ADDR !in code.insns && TargetsIn(code, buf) && start in code.insns
    requires EntriesAre(x, start, entries) && (x.region.None? ==> prev == start) && prev in code.insns
    requires forall b :: b in placed <==> Holds(x, b)
    ensures FormFrom(c, code, buf, start, x, prev, k).None? <==> Endless(c, code, buf, start, entries, placed, prev, k)
    decreases |buf| - k
  {
    hide TraceOk, WalkTo, CodeOk, OtherSide;
    if k < |buf| {
      KnownPos(code, prev);
      var i, src := PosOf(code, prev, 0), buf[k].src;
      var (y, end) := WalkTo(c, code, start, src, x, i);
      WalkHalts(c, code, start, src, x, i, entries);
      var m := Halt(c, code, start, src, entries, i);
      if end == AtTrace {
        NewTraceOk(y);
        EndlessIff(c, code, buf, buf[k].tgt, NewTrace(y.tea), buf[k].tgt, k + 1, entries + {start}, {});
      } else if end == Ran {
        var more := placed + WalkedOver(c, code, start, entries, i, m);
        assert Holds(y, buf[k].tgt) <==> GetNode(y.tea, y.region.value, buf[k].tgt, 0).Some?;
        EndlessIff(c, code, buf, start, y, buf[k].tgt, k + 1, entries, more);
      }
    }
  }

  /** All code is on one side of the threshold, or sides may mix. */
  predicate OneSided(c: Config, code: Code) {
    c.mixUsrSys || forall a, b :: a in code.insns && b in code.insns ==> !SwitchedMode(c, a, b)
  }

  ghost predicate TargetsIn(code: Code, buf: seq<Branch>) {
    forall i :: 0 <= i < |buf| ==> buf[i].tgt in code.insns
  }

  lemma OneSidedWalks(c: Config, code: Code, start: nat, src: nat, x: Trace, i: nat)
    requires TraceOk(x) && CodeOk(code) && NTE_ADDR !in code.insns
    requires OneSided(c, code) && start in code.insns
    ensures WalkTo(c, code, start, src, x, i).1 != Forever
  {
    hide TraceOk, WalkTo;
    ForeverIff(c, code, start, src, x, i, x.tea.entries.Keys);
    assert forall j :: 0 <= j < |code.addrs| ==> code.addrs[j] in code.addrs;
  }

  /** Then a trace is always formed. */
  lemma {:induction false} OneSidedForms(c: Config, code: Code, buf: seq<Branch>, start: nat, x: Trace, prev: nat, k: nat)
    requires TraceOk(x) && CodeOk(code) && NTE_ADDR !in code.insns
    requires OneSided(c, code) && TargetsIn(code, buf) && start in code.insns
    ensures FormFrom(c, code, buf, start, x, prev, k).Some?
    decreases |buf| - k
  {
    hide Inv, UniqueIn, WalkTo;
    if k < |buf| {
      var i := PosOf(code, prev, 0);
      var (y, end) := WalkTo(c, code, start, buf[k].src, x, i);
      OneSidedWalks(c, code, start, buf[k].src, x, i);
      if end == AtTrace {
        OneSidedForms(c, code, buf, buf[k].tgt, NewTrace(y.tea), buf[k].tgt, k + 1);
      } else {
        OneSidedForms(c, code, buf, start, y, buf[k].tgt, k + 1);
      }
    }
  }

  /** With code on both sides a hot loop across the threshold is enough for the
      source never to return. */
  lemma LoopAcrossThreshold(s: State, src: nat)
    requires Inv(s) && 20 !in s.entries
    ensures var c := Config(0, 10, false);
            var code := Code([5, 20], map[5 := Insn(false, []), 20 := Insn(true, [5])]);
            CodeOk(code) && FormFrom(c, code, [Branch(src, 5, 0), Branch(20, 5, 0)], 5, NewTrace(s), 5, 1).None?
  {
    var c := Config(0, 10, false);
    var code := Code([5, 20], map[5 := Insn(false, []), 20 := Insn(true, [5])]);
    ForeverIff(c, code, 5, 20, NewTrace(s), 0, s.entries.Keys);
    assert code.addrs[0] == 5 && PosOf(code, 5, 0) == 0;
    assert StuckAt(c, code, 5, 20, s.entries.Keys, 0, 1);
    assert GetsStuck(c, code, 5, 20, s.entries.Keys, 0);
  }

  // ---------- The edges of a trace ----------

  /** `a` is followed by `b` in the code, or a branch of the history goes to `b`, and the
      walk that looked for it ended at `a`. */
  ghost predicate OnTrace(code: Code, buf: seq<Branch>, a: nat, b: nat) {
    Adjacent(code, a, b) || exists k: nat :: Ended(code, buf, a, k) && buf[k].tgt == b
  }

  /** The walk to branch `k` ended at `a`: where the branch starts, or at the last
      instruction of the code when the branch was not to be found on the way. */
  ghost predicate Ended(code: Code, buf: seq<Branch>, a: nat, k: nat) {
    && k < |buf|
    && (buf[k].src == a || (code.addrs != [] && code.addrs[|code.addrs| - 1] == a && Missed(code, buf, k)))
  }

  /** Branch `k` starts before the target of the branch before it, or where no
      instruction is known. */
  ghost predicate Missed(code: Code, buf: seq<Branch>, k: nat) {
    0 < k < |buf| && (buf[k].src !in code.insns || buf[k].src < buf[k - 1].tgt)
  }

  ghost predicate EdgesOnTrace(code: Code, buf: seq<Branch>, s: State, t: State) {
    forall e :: |s.edges| <= e < |t.edges| ==> EdgeOnTrace(code, buf, t, e)
  }

  ghost predicate EdgeOnTrace(code: Code, buf: seq<Branch>, t: State, e: nat) {
    && e < |t.edges| && t.edges[e].src < |t.nodes| && t.edges[e].tgt < |t.nodes|
    && OnTrace(code, buf, t.nodes[t.edges[e].src].addr, t.nodes[t.edges[e].tgt].addr)
  }

  lemma EdgesOnTraceTransitive(code: Code, buf: seq<Branch>, s: State, t: State, u: State)
    requires EdgesOnTrace(code, buf, s, t) && EdgesOnTrace(code, buf, t, u) && Grows(t, u)
    ensures EdgesOnTrace(code, buf, s, u)
  {
    forall e | |s.edges| <= e < |u.edges| ensures EdgeOnTrace(code, buf, u, e) {
      if e < |t.edges| {
        assert EdgeOnTrace(code, buf, t, e) && u.edges[e] == t.edges[e];
      }
    }
  }

  /** The address of the last node. */
  ghost predicate LastIs(x: Trace, a: nat) {
    x.last.Some? && x.last.value < |x.tea.nodes| && x.tea.nodes[x.last.value].addr == a
  }

  lemma PlaceOnTrace(code: Code, buf: seq<Branch>, x: Trace, a: nat)
    requires TraceOk(x) && a != NTE_ADDR
    requires x.last.Some? ==> OnTrace(code, buf, x.tea.nodes[x.last.value].addr, a)
    ensures EdgesOnTrace(code, buf, x.tea, Place(x, a).tea)
  {
    hide RegionsOk, InnerOk, CacheOk;
    BeginRegionOk(x);
    var b := BeginRegion(x);
    var r := b.region.value;
    if GetNode(b.tea, r, a, 0).None? && b.last.Some? {
      var (t, n) := NodeFor(b.tea, r, a);
      NodeForInv(b.tea, r, a);
      LinkToInv(t, r, b.last.value, n);
    }
  }

  /** A walk only follows the code, and ends at the branch or at the last instruction. */
  lemma {:induction false} WalkOnTrace(c: Config, code: Code, buf: seq<Branch>, start: nat, src: nat, x: Trace, i: nat)
    requires TraceOk(x) && CodeOk(code) && NTE_ADDR !in code.insns
    requires i <= |code.addrs|
    requires i == |code.addrs| ==> code.addrs != [] && LastIs(x, code.addrs[|code.addrs| - 1])
    requires x.last.Some? && i < |code.addrs| ==> OnTrace(code, buf, x.tea.nodes[x.last.value].addr, code.addrs[i])
    ensures var (y, end) := WalkTo(c, code, start, src, x, i);
            && EdgesOnTrace(code, buf, x.tea, y.tea)
            && (end == Ran ==> || LastIs(y, src)
                               || (code.addrs != [] && LastIs(y, code.addrs[|code.addrs| - 1]) && src !in code.addrs[i..]))
    decreases |code.addrs| - i
  {
    if i < |code.addrs| {
      var a := code.addrs[i];
      assert a in code.addrs;
      if !OtherSide(c, start, a) && (a == start || a !in x.tea.entries) {
        PlaceOnTrace(code, buf, x, a);
        var y := Place(x, a);
        if a != src {
          assert i + 1 < |code.addrs| ==> Adjacent(code, a, code.addrs[i + 1]);
          WalkOnTrace(c, code, buf, start, src, y, i + 1);
          EdgesOnTraceTransitive(code, buf, x.tea, y.tea, WalkTo(c, code, start, src, y, i + 1).0.tea);
        }
      }
    }
  }

  /** The branch before `k` ended at `prev`, and the last node is where it started. */
  ghost predicate Continues(code: Code, buf: seq<Branch>, x: Trace, prev: nat, k: nat) {
    x.last.Some? ==>
      && x.last.value < |x.tea.nodes| && 0 < k <= |buf| && buf[k - 1].tgt == prev
      && Ended(code, buf, x.tea.nodes[x.last.value].addr, k - 1)
  }

  lemma NoneContinues(code: Code, buf: seq<Branch>, s: State, prev: nat, k: nat)
    ensures Continues(code, buf, NewTrace(s), prev, k)
  {
  }

  /** One walk, and where it leaves off. */
  lemma WalkContinues(c: Config, code: Code, buf: seq<Branch>, start: nat, x: Trace, prev: nat, k: nat)
    requires TraceOk(x) && CodeOk(code) && NTE_ADDR !in code.insns && prev in code.insns
    requires 0 < k < |buf| && buf[k - 1].tgt == prev && Continues(code, buf, x, prev, k)
    ensures var (y, end) := WalkTo(c, code, start, buf[k].src, x, PosOf(code, prev, 0));
            EdgesOnTrace(code, buf, x.tea, y.tea) && (end == Ran ==> Continues(code, buf, y, buf[k].tgt, k + 1))
  {
    hide TraceOk, WalkTo, CodeOk, EdgesOnTrace, PosOf;
    KnownPos(code, prev);
    if x.last.Some? {
      assert Ended(code, buf, x.tea.nodes[x.last.value].addr, k - 1);
    }
    WalkOnTrace(c, code, buf, start, buf[k].src, x, PosOf(code, prev, 0));
    NotFurtherOn(code, buf, k);
  }

  lemma NotFurtherOn(code: Code, buf: seq<Branch>, k: nat)
    requires CodeOk(code) && 0 < k < |buf| && buf[k - 1].tgt in code.insns
    ensures buf[k].src !in code.addrs[PosOf(code, buf[k - 1].tgt, 0)..] ==> Missed(code, buf, k)
  {
    hide PosOf;
    var i := PosOf(code, buf[k - 1].tgt, 0);
    KnownPos(code, buf[k - 1].tgt);
    assert forall j :: i <= j < |code.addrs| ==> code.addrs[i..][j - i] == code.addrs[j];
    if buf[k].src !in code.addrs[i..] && buf[k].src in code.insns {
      assert buf[k].src in code.addrs;
      var j :| 0 <= j < |code.addrs| && code.addrs[j] == buf[k].src;
      assert j < i;
    }
  }

  lemma KnownPos(code: Code, a: nat)
    requires CodeOk(code) && a in code.insns
    ensures PosOf(code, a, 0) < |code.addrs|
  {
    assert a in code.addrs;
  }

  /** Every edge of the regions formed goes on in the code, or leads from where the walk
      to a branch ended to the target of that branch. */
  lemma {:induction false} FormOnTrace(c: Config, code: Code, buf: seq<Branch>, start: nat, x: Trace, prev: nat, k: nat)
    requires TraceOk(x) && CodeOk(code) && NTE_ADDR !in code.insns && TargetsIn(code, buf) && prev in code.insns
    requires 0 < k <= |buf| && buf[k - 1].tgt == prev && Continues(code, buf, x, prev, k)
    ensures var t := FormFrom(c, code, buf, start, x, prev, k);
            t.Some? ==> EdgesOnTrace(code, buf, x.tea, t.value)
    decreases |buf| - k
  {
    hide WalkTo, EdgesOnTrace, Inv, UniqueIn, CodeOk, PosOf, Continues;
    NoEdges(code, buf, x);
    if k >= |buf| {
      ClosedOnTrace(code, buf, x.tea, x, x.tea);
    } else {
      WalkContinues(c, code, buf, start, x, prev, k);
      var (y, end) := WalkTo(c, code, start, buf[k].src, x, PosOf(code, prev, 0));
      NoEdges(code, buf, y);
      if end == AtTrace {
        NoneContinues(code, buf, y.tea, buf[k].tgt, k + 1);
        FormOnTrace(c, code, buf, buf[k].tgt, NewTrace(y.tea), buf[k].tgt, k + 1);
        var t := FormFrom(c, code, buf, buf[k].tgt, NewTrace(y.tea), buf[k].tgt, k + 1);
        if t.Some? {
          ClosedOnTrace(code, buf, x.tea, y, t.value);
        }
      } else if end == Ran {
        ClosedOnTrace(code, buf, x.tea, y, y.tea);
        FormOnTrace(c, code, buf, start, y, buf[k].tgt, k + 1);
        var t := FormFrom(c, code, buf, start, y, buf[k].tgt, k + 1);
        if t.Some? {
          EdgesOnTraceTransitive(code, buf, x.tea, y.tea, t.value);
        }
      }
    }
  }

  lemma NoEdges(code: Code, buf: seq<Branch>, x: Trace)
    requires TraceOk(x)
    ensures EdgesOnTrace(code, buf, x.tea, x.tea) && Grows(x.tea, x.tea)
  {
  }

  lemma ClosedOnTrace(code: Code, buf: seq<Branch>, s: State, y: Trace, t: State)
    requires TraceOk(y) && Inv(t) && Grows(y.tea, t)
    requires EdgesOnTrace(code, buf, s, y.tea) && EdgesOnTrace(code, buf, y.tea, t)
    ensures EdgesOnTrace(code, buf, s, ClosedIn(y, t))
  {
    var u := ClosedIn(y, t);
    EdgesOnTraceTransitive(code, buf, s, y.tea, t);
    assert u.nodes == t.nodes && u.edges == t.edges;
    forall e | |s.edges| <= e < |u.edges| ensures EdgeOnTrace(code, buf, u, e) {
      assert EdgeOnTrace(code, buf, t, e);
    }
  }

  // ---------- One trace item ----------

  datatype LeiState = LeiState(tea: State, buf: seq<Branch>, index: Index, counters: Counters, lastAddr: nat, lastLen: nat)

  /** The item does not follow the one before it in memory. */
  predicate IsFar(a: nat, lastAddr: nat, lastLen: nat) {
    (if a >= lastAddr then a - lastAddr else lastAddr - a) > lastLen
  }

  /** `is_followed_by_exit`: the branch at position `i` left a region. */
  predicate FollowsExit(s: State, buf: seq<Branch>, i: nat) {
    i < |buf| && buf[i].edge < |s.edges| && RegionOf(s.nodes, s.edges[buf[i].edge].src) != NO_REGION
  }

  /** "Jump newT": the item is executed once more when it is a region entry now. */
  function Jump(s: State, a: nat, pick: nat): (t: State)
    requires Inv(s) && a != NTE_ADDR
    ensures Inv(t)
  {
    if a in s.entries then Step(s, a, pick) else s
  }

  /** A branch has been added to the history: its target was last reached at `prev`. */
  function Profiled(c: Config, code: Code, s: LeiState, prev: nat, pick: nat): (t: Option<LeiState>)
    requires Inv(s.tea) && CodeOk(code) && NTE_ADDR !in code.insns && prev < |s.buf| && s.lastAddr != NTE_ADDR
    ensures t.Some? ==> Inv(t.value.tea)
  {
    var a, counters := s.lastAddr, Bumped(s.counters, s.lastAddr);
    if !IsHot(c, counters, a) then Some(s.(counters := counters))
    else
      var u := FormFrom(c, code, s.buf, a, NewTrace(s.tea), a, prev + 1);
      if u.None? then None
      else Some(LeiState(Jump(u.value, a, pick), s.buf[..prev + 1], Erased(s.buf, s.index, prev + 1),
                         counters[a := 3], a, s.lastLen))
  }

  /** `LEI::process`; `code` has the instruction of the item. */
  function LeiStep(c: Config, code: Code, s: LeiState, a: nat, len: nat, pick: nat, again: nat): (t: Option<LeiState>)
    requires Inv(s.tea) && CodeOk(code) && NTE_ADDR !in code.insns && IndexOk(s.buf, s.index) && a != NTE_ADDR
    ensures t.Some? ==> Inv(t.value.tea)
  {
    var u, e := Step(s.tea, a, pick), Resolve(s.tea, a, pick).1;
    if !(TakenBy(s.tea, a, pick).toNte && IsFar(a, s.lastAddr, s.lastLen)) then
      Some(LeiState(u, s.buf, s.index, s.counters, a, len))
    else
      var buf, room := Room(s.buf) + [Branch(s.lastAddr, a, e)], RoomIndex(s.buf, s.index);
      var added := LeiState(u, buf, room[a := |buf| - 1], s.counters, a, len);
      if a in room && (a <= s.lastAddr || FollowsExit(u, buf, room[a])) then
        PreviousTime(s.buf, s.index, Branch(s.lastAddr, a, e));
        Profiled(c, code, added, room[a], again)
      else Some(added)
  }

  /** The edges the item follows: two when it is executed once more. */
  function ProfiledHops(c: Config, code: Code, s: LeiState, prev: nat, pick: nat): seq<Hop>
    requires Inv(s.tea) && CodeOk(code) && NTE_ADDR !in code.insns && prev < |s.buf| && s.lastAddr != NTE_ADDR
  {
    var a := s.lastAddr;
    if !IsHot(c, Bumped(s.counters, a), a) then []
    else
      var u := FormFrom(c, code, s.buf, a, NewTrace(s.tea), a, prev + 1);
      if u.Some? && a in u.value.entries then [StepHop(u.value, a, pick)] else []
  }

  function LeiStepHops(c: Config, code: Code, s: LeiState, a: nat, len: nat, pick: nat, again: nat): seq<Hop>
    requires Inv(s.tea) && CodeOk(code) && NTE_ADDR !in code.insns && IndexOk(s.buf, s.index) && a != NTE_ADDR
  {
    var u, e := Step(s.tea, a, pick), Resolve(s.tea, a, pick).1;
    [StepHop(s.tea, a, pick)] +
    if !(TakenBy(s.tea, a, pick).toNte && IsFar(a, s.lastAddr, s.lastLen)) then []
    else
      var buf, room := Room(s.buf) + [Branch(s.lastAddr, a, e)], RoomIndex(s.buf, s.index);
      var added := LeiState(u, buf, room[a := |buf| - 1], s.counters, a, len);
      if a in room && (a <= s.lastAddr || FollowsExit(u, buf, room[a])) then
        PreviousTime(s.buf, s.index, Branch(s.lastAddr, a, e));
        ProfiledHops(c, code, added, room[a], again)
      else []
  }

  /** What every LEI run keeps. */
  ghost predicate LeiOk(code: Code, s: LeiState) {
    && Inv(s.tea) && CodeOk(code) && NTE_ADDR !in code.insns
    && IndexOk(s.buf, s.index) && TargetsIn(code, s.buf)
    && forall i :: 0 <= i < |s.buf| ==> s.buf[i].edge < |s.tea.edges|
  }

  /** The automaton will be at `nte`: nothing leads from where it is to the address. */
  ghost predicate Stays(s: State, a: nat)
    requires s.cur < |s.nodes|
  {
    && a !in s.entries && !HasOut(s, s.cur, a)
    && (s.cur != NTE ==> forall n :: 0 <= n < |s.nodes| ==> s.nodes[n] != Node(a, s.nodes[s.cur].region))
  }

  lemma StaysIff(s: State, a: nat, pick: nat)
    requires Inv(s) && a != NTE_ADDR
    ensures TakenBy(s, a, pick).toNte <==> Stays(s, a)
  {
    hide InnerOk, CacheOk, OutsOk, InsOk;
    TakenMeans(s, a, pick);
    StepRefines(s, a, pick);
  }

  /** The item is the target of a branch of the history that is reached again, and it is
      hot now: the branches since position `RoomIndex(..)[a]` become a trace. */
  ghost predicate Forms(c: Config, s: LeiState, a: nat)
    requires s.tea.cur < |s.tea.nodes|
  {
    var room := RoomIndex(s.buf, s.index);
    && Stays(s.tea, a) && IsFar(a, s.lastAddr, s.lastLen)
    && a in room && (a <= s.lastAddr || FollowsExit(s.tea, Room(s.buf), room[a]))
    && IsHot(c, Bumped(s.counters, a), a)
  }

  /** The item makes a trace, and forming it never ends. */
  ghost predicate Hangs(c: Config, code: Code, s: LeiState, a: nat)
    requires s.tea.cur < |s.tea.nodes|
  {
    && Forms(c, s, a)
    && Endless(c, code, Room(s.buf) + [Branch(s.lastAddr, a, 0)], a, s.tea.entries.Keys, {}, a, RoomIndex(s.buf, s.index)[a] + 1)
  }

  /** The edges kept in the history play no part in it. */
  lemma {:induction false} EdgesPlayNoPart(c: Config, code: Code, buf: seq<Branch>, other: seq<Branch>, start: nat,
                                           entries: set<nat>, placed: set<nat>, prev: nat, k: nat)
    requires |buf| == |other| && forall i :: 0 <= i < |buf| ==> buf[i].src == other[i].src && buf[i].tgt == other[i].tgt
    ensures Endless(c, code, buf, start, entries, placed, prev, k) == Endless(c, code, other, start, entries, placed, prev, k)
    decreases |buf| - k
  {
    if k < |buf| {
      var i := PosOf(code, prev, 0);
      var m := Halt(c, code, start, buf[k].src, entries, i);
      EdgesPlayNoPart(c, code, buf, other, buf[k].tgt, entries + {start}, {}, buf[k].tgt, k + 1);
      EdgesPlayNoPart(c, code, buf, other, start, entries, placed + WalkedOver(c, code, start, entries, i, m), buf[k].tgt, k + 1);
    }
  }

  /** Counting a target does not end exactly when forming its trace does not. */
  lemma ProfiledHangsIff(c: Config, code: Code, s: LeiState, prev: nat, pick: nat)
    requires LeiOk(code, s) && prev < |s.buf| && s.lastAddr != NTE_ADDR && s.lastAddr in code.insns
    ensures Profiled(c, code, s, prev, pick).None? <==>
              IsHot(c, Bumped(s.counters, s.lastAddr), s.lastAddr)
              && Endless(c, code, s.buf, s.lastAddr, s.tea.entries.Keys, {}, s.lastAddr, prev + 1)
  {
    hide Inv, FormFrom, Endless;
    EndlessIff(c, code, s.buf, s.lastAddr, NewTrace(s.tea), s.lastAddr, prev + 1, s.tea.entries.Keys, {});
  }

  /** The history with the branch added is fit for forming a trace. */
  lemma AddedKeeps(code: Code, s: LeiState, a: nat, pick: nat)
    requires LeiOk(code, s) && a != NTE_ADDR && a in code.insns
    ensures LeiOk(code, Added(s, a, pick, s.lastAddr, s.lastLen))
  {
    hide Inv;
    AddKeeps(s.buf, s.index, Branch(s.lastAddr, a, Resolve(s.tea, a, pick).1));
    StepEdges(s.tea, a, pick);
  }

  /** The branch added and its target indexed. */
  function Added(s: LeiState, a: nat, pick: nat, lastAddr: nat, lastLen: nat): LeiState
    requires Inv(s.tea) && a != NTE_ADDR
  {
    var buf := Room(s.buf) + [Branch(s.lastAddr, a, Resolve(s.tea, a, pick).1)];
    LeiState(Step(s.tea, a, pick), buf, RoomIndex(s.buf, s.index)[a := |buf| - 1], s.counters, lastAddr, lastLen)
  }

  /** The processing of an item never ends exactly when it hangs. */
  lemma StepHangsIff(c: Config, code: Code, s: LeiState, a: nat, len: nat, pick: nat, again: nat)
    requires LeiOk(code, s) && a != NTE_ADDR && a in code.insns
    ensures LeiStep(c, code, s, a, len, pick, again).None? <==> Hangs(c, code, s, a)
  {
    hide Inv, Profiled, Endless, Step, Resolve;
    var u, e, room := Step(s.tea, a, pick), Resolve(s.tea, a, pick).1, RoomIndex(s.buf, s.index);
    var b, plain := Room(s.buf) + [Branch(s.lastAddr, a, e)], Room(s.buf) + [Branch(s.lastAddr, a, 0)];
    StaysIff(s.tea, a, pick);
    if a in room {
      PreviousTime(s.buf, s.index, Branch(s.lastAddr, a, e));
      SameExit(code, s, a, pick, room[a]);
      AddedKeeps(code, s, a, pick);
      ProfiledHangsIff(c, code, Added(s, a, pick, a, len), room[a], again);
      EdgesPlayNoPart(c, code, b, plain, a, s.tea.entries.Keys, {}, a, room[a] + 1);
    }
  }

  /** Whether a branch of the history left a region does not depend on the item. */
  lemma SameExit(code: Code, s: LeiState, a: nat, pick: nat, i: nat)
    requires LeiOk(code, s) && a != NTE_ADDR && i < |Room(s.buf)|
    ensures var u := Step(s.tea, a, pick);
            && u.entries == s.tea.entries
            && FollowsExit(u, Room(s.buf) + [Branch(s.lastAddr, a, Resolve(s.tea, a, pick).1)], i) == FollowsExit(s.tea, Room(s.buf), i)
  {
    hide InnerOk, CacheOk, OutsOk, InsOk, Deterministic;
    StepRegions(s.tea, a, pick);
    ResolveGrows(s.tea, a, pick);
    var e := s.buf[i].edge;
    assert e < |s.tea.edges| && Step(s.tea, a, pick).edges[e] == s.tea.edges[e];
  }

  /** Every item that is processed to the end keeps the invariant; on one side of the
      threshold all are. */
  lemma LeiKeeps(c: Config, code: Code, s: LeiState, a: nat, len: nat, pick: nat, again: nat)
    requires LeiOk(code, s) && a != NTE_ADDR && a in code.insns
    ensures LeiStep(c, code, s, a, len, pick, again).Some? ==> LeiOk(code, LeiStep(c, code, s, a, len, pick, again).value)
    ensures OneSided(c, code) ==> !Hangs(c, code, s, a)
  {
    hide Inv, Profiled, Hangs, Step, Resolve;
    StepHangsIff(c, code, s, a, len, pick, again);
    AddedKeeps(code, s, a, pick);
    StepEdges(s.tea, a, pick);
    var room := RoomIndex(s.buf, s.index);
    if a in room {
      PreviousTime(s.buf, s.index, Branch(s.lastAddr, a, Resolve(s.tea, a, pick).1));
      ProfiledKeeps(c, code, Added(s, a, pick, a, len), room[a], again);
    }
  }

  lemma ProfiledKeeps(c: Config, code: Code, s: LeiState, prev: nat, pick: nat)
    requires LeiOk(code, s) && prev < |s.buf| && s.lastAddr != NTE_ADDR && s.lastAddr in code.insns
    ensures OneSided(c, code) ==> Profiled(c, code, s, prev, pick).Some?
    ensures Profiled(c, code, s, prev, pick).Some? ==> LeiOk(code, Profiled(c, code, s, prev, pick).value)
  {
    hide Inv, FormFrom;
    var a := s.lastAddr;
    if OneSided(c, code) {
      OneSidedForms(c, code, s.buf, a, NewTrace(s.tea), a, prev + 1);
    }
    var u := FormFrom(c, code, s.buf, a, NewTrace(s.tea), a, prev + 1);
    CutKeeps(s.buf, s.index, prev);
    if u.Some? && a in u.value.entries {
      StepEdges(u.value, a, pick);
    }
  }

  /** The edges followed are what the counters count. */
  lemma StepCounted(c: Config, code: Code, s: LeiState, a: nat, len: nat, pick: nat, again: nat, h: seq<Hop>, loopInit: nat)
    requires LeiOk(code, s) && a != NTE_ADDR && Consistent(s.tea, h, loopInit)
    requires LeiStep(c, code, s, a, len, pick, again).Some?
    ensures Consistent(LeiStep(c, code, s, a, len, pick, again).value.tea, h + LeiStepHops(c, code, s, a, len, pick, again), loopInit)
  {
    hide Inv, Profiled, ProfiledHops, Consistent, StepHop, Step;
    StepConsistent(s.tea, a, pick, h, loopInit);
    var g, room := h + [StepHop(s.tea, a, pick)], RoomIndex(s.buf, s.index);
    assert g == h + ([StepHop(s.tea, a, pick)] + []);
    if a in room {
      PreviousTime(s.buf, s.index, Branch(s.lastAddr, a, Resolve(s.tea, a, pick).1));
      var added := Added(s, a, pick, a, len);
      if Profiled(c, code, added, room[a], again).Some? {
        ProfiledCounted(c, code, added, room[a], again, g, loopInit);
        assert g + ProfiledHops(c, code, added, room[a], again)
            == h + ([StepHop(s.tea, a, pick)] + ProfiledHops(c, code, added, room[a], again));
      }
    }
  }

  lemma ProfiledCounted(c: Config, code: Code, s: LeiState, prev: nat, pick: nat, h: seq<Hop>, loopInit: nat)
    requires Inv(s.tea) && CodeOk(code) && NTE_ADDR !in code.insns && prev < |s.buf| && s.lastAddr != NTE_ADDR
    requires Consistent(s.tea, h, loopInit) && Profiled(c, code, s, prev, pick).Some?
    ensures Consistent(Profiled(c, code, s, prev, pick).value.tea, h + ProfiledHops(c, code, s, prev, pick), loopInit)
  {
    hide Inv, FormFrom, Consistent, Step, StepHop, Erased;
    var a := s.lastAddr;
    assert h + [] == h;
    if IsHot(c, Bumped(s.counters, a), a) {
      var u := FormFrom(c, code, s.buf, a, NewTrace(s.tea), a, prev + 1).value;
      StepEdges(s.tea, a, pick);
      GrowthConsistent(s.tea, u, h, loopInit);
      StepConsistent(u, a, pick, h, loopInit);
    }
  }

  // ---------- Every run ----------

  datatype LeiItem = LeiItem(addr: nat, len: nat, pick: nat, again: nat)

  /** The code known before each item of a trace and after it; it only grows, and has the
      instruction of the item when that is processed. */
  ghost predicate Codes(codes: seq<Code>, trace: seq<LeiItem>) {
    && |codes| == |trace| + 1
    && (forall i :: 0 <= i < |codes| ==> CodeOk(codes[i]) && NTE_ADDR !in codes[i].insns)
    && (forall i, j :: 0 <= i < j < |codes| ==> codes[i].insns.Keys <= codes[j].insns.Keys)
    && (forall i :: 0 <= i < |trace| ==> trace[i].addr != NTE_ADDR && trace[i].addr in codes[i + 1].insns)
  }

  /** A whole run; nothing if the source gets no further. */
  function LeiRun(c: Config, codes: seq<Code>, loopInit: nat, trace: seq<LeiItem>): (t: Option<LeiState>)
    requires Codes(codes, trace)
    ensures t.Some? ==> LeiOk(codes[|trace|], t.value)
  {
    if trace == [] then
      InitialInv(loopInit);
      Some(LeiState(Initial(loopInit), [], map[], map[], 0, 0))
    else
      var n := |trace| - 1;
      var s := LeiRun(c, codes[..n + 1], loopInit, trace[..n]);
      if s.None? then None
      else
        KnownStays(codes[n], codes[n + 1], s.value);
        LeiKeeps(c, codes[n + 1], s.value, trace[n].addr, trace[n].len, trace[n].pick, trace[n].again);
        LeiStep(c, codes[n + 1], s.value, trace[n].addr, trace[n].len, trace[n].pick, trace[n].again)
  }

  lemma KnownStays(code: Code, more: Code, s: LeiState)
    requires LeiOk(code, s) && CodeOk(more) && NTE_ADDR !in more.insns && code.insns.Keys <= more.insns.Keys
    ensures LeiOk(more, s)
  {
  }

  /** Item `i` of the run hangs. */
  ghost predicate HangsAt(c: Config, codes: seq<Code>, loopInit: nat, trace: seq<LeiItem>, i: nat)
    requires Codes(codes, trace)
  {
    i < |trace| &&
    var s := LeiRun(c, codes[..i + 1], loopInit, trace[..i]);
    s.Some? && Hangs(c, codes[i + 1], s.value, trace[i].addr)
  }

  /** The run without its last item, and the code it needs. */
  lemma EarlierHangs(c: Config, codes: seq<Code>, loopInit: nat, trace: seq<LeiItem>, i: nat)
    requires Codes(codes, trace) && i < |trace| - 1
    ensures Codes(codes[..|trace|], trace[..|trace| - 1])
    ensures HangsAt(c, codes, loopInit, trace, i) <==> HangsAt(c, codes[..|trace|], loopInit, trace[..|trace| - 1], i)
  {
    hide LeiRun, Hangs;
    var n := |trace| - 1;
    assert codes[..n + 1][..i + 1] == codes[..i + 1] && trace[..n][..i] == trace[..i];
  }

  /** A run gets to its end exactly when no item hangs. */
  lemma {:induction false} LeiRunIff(c: Config, codes: seq<Code>, loopInit: nat, trace: seq<LeiItem>)
    requires Codes(codes, trace)
    ensures LeiRun(c, codes, loopInit, trace).None? <==> exists i: nat :: HangsAt(c, codes, loopInit, trace, i)
  {
    hide LeiStep, Hangs, LeiOk;
    if trace != [] {
      var n := |trace| - 1;
      var s := LeiRun(c, codes[..n + 1], loopInit, trace[..n]);
      LeiRunIff(c, codes[..n + 1], loopInit, trace[..n]);
      forall i: nat | i < n
        ensures HangsAt(c, codes, loopInit, trace, i) <==> HangsAt(c, codes[..n + 1], loopInit, trace[..n], i)
      {
        EarlierHangs(c, codes, loopInit, trace, i);
      }
      if s.Some? {
        LastItem(c, codes, s.value, trace);
        assert HangsAt(c, codes, loopInit, trace, n) <==> LeiRun(c, codes, loopInit, trace).None?;
        hide LeiRun, HangsAt;
        assert forall i: nat :: HangsAt(c, codes, loopInit, trace, i) ==> i == n by {
          InTrace(c, codes, loopInit, trace);
        }
      } else {
        var i: nat :| HangsAt(c, codes[..n + 1], loopInit, trace[..n], i);
        assert HangsAt(c, codes, loopInit, trace, i);
      }
    }
  }

  lemma InTrace(c: Config, codes: seq<Code>, loopInit: nat, trace: seq<LeiItem>)
    requires Codes(codes, trace)
    ensures forall i: nat :: HangsAt(c, codes, loopInit, trace, i) ==> i < |trace|
  {
    hide LeiRun, Hangs;
  }

  /** While all code is on one side of the threshold no run gets stuck, and the invariant
      holds at its end. */
  lemma {:induction false} LeiTheorem(c: Config, codes: seq<Code>, loopInit: nat, trace: seq<LeiItem>)
    requires Codes(codes, trace) && OneSided(c, codes[|trace|])
    ensures var s := LeiRun(c, codes, loopInit, trace); s.Some? && LeiOk(codes[|trace|], s.value)
  {
    hide LeiStep, Hangs, LeiOk;
    if trace != [] {
      var n := |trace| - 1;
      assert OneSided(c, codes[n]);
      LeiTheorem(c, codes[..n + 1], loopInit, trace[..n]);
      LastItem(c, codes, LeiRun(c, codes[..n + 1], loopInit, trace[..n]).value, trace);
    }
  }

  lemma LastItem(c: Config, codes: seq<Code>, s: LeiState, trace: seq<LeiItem>)
    requires Codes(codes, trace) && trace != [] && LeiOk(codes[|trace| - 1], s)
    ensures var n := |trace| - 1;
            && LeiOk(codes[n + 1], s)
            && (LeiStep(c, codes[n + 1], s, trace[n].addr, trace[n].len, trace[n].pick, trace[n].again).None? <==>
                  Hangs(c, codes[n + 1], s, trace[n].addr))
            && (OneSided(c, codes[n + 1]) ==> !Hangs(c, codes[n + 1], s, trace[n].addr))
  {
    hide LeiStep, Hangs, LeiOk;
    var n := |trace| - 1;
    KnownStays(codes[n], codes[n + 1], s);
    StepHangsIff(c, codes[n + 1], s, trace[n].addr, trace[n].len, trace[n].pick, trace[n].again);
    LeiKeeps(c, codes[n + 1], s, trace[n].addr, trace[n].len, trace[n].pick, trace[n].again);
  }

  /** The edges the items of a trace follow are what all counters of the run count. */
  ghost function LeiHops(c: Config, codes: seq<Code>, loopInit: nat, trace: seq<LeiItem>): (h: seq<Hop>)
    requires Codes(codes, trace) && LeiRun(c, codes, loopInit, trace).Some?
    ensures Consistent(LeiRun(c, codes, loopInit, trace).value.tea, h, loopInit)
  {
    if trace == [] then
      InitialConsistent(loopInit);
      []
    else
      var n := |trace| - 1;
      var s := LeiRun(c, codes[..n + 1], loopInit, trace[..n]).value;
      var h := LeiHops(c, codes[..n + 1], loopInit, trace[..n]);
      KnownStays(codes[n], codes[n + 1], s);
      StepCounted(c, codes[n + 1], s, trace[n].addr, trace[n].len, trace[n].pick, trace[n].again, h, loopInit);
      h + LeiStepHops(c, codes[n + 1], s, trace[n].addr, trace[n].len, trace[n].pick, trace[n].again)
  }

  // ---------- The technique itself ----------

  class LEI {
    const config: Config
    const rain: RAIn
    const profiler: Profiler
    const instructions: InstructionSet
    const history: History
    var lastAddr: nat
    var lastLen: nat

    ghost function Model(): LeiState
      reads this, rain, profiler, history
    {
      LeiState(rain.State(), history.buf, history.bufHash, profiler.instrFreqCounter, lastAddr, lastLen)
    }

    ghost predicate Valid()
      reads this, rain, profiler, history, instructions
    {
      rain.Valid() && instructions.Valid() && LeiOk(instructions.Model(), Model())
    }

    constructor (config: Config, instructions: InstructionSet, loopCounter: nat)
      requires instructions.Valid() && NTE_ADDR !in instructions.insns
      ensures this.config == config && this.instructions == instructions
      ensures Valid() && Model() == LeiState(Initial(loopCounter), [], map[], map[], 0, 0)
      ensures fresh(rain) && fresh(profiler) && fresh(history)
    {
      this.config, this.instructions := config, instructions;
      rain := new RAIn(loopCounter);
      profiler := new Profiler();
      history := new History();
      lastAddr, lastLen := 0, 0;
    }

    /** The region being formed, as the automaton and the two locals have it. */
    ghost function Forming(r: Option<nat>, lastNode: Option<nat>): Trace
      reads rain
    {
      Trace(rain.State(), r, lastNode)
    }

    ghost predicate FormingOk(r: Option<nat>, lastNode: Option<nat>)
      reads rain, instructions
    {
      rain.Valid() && instructions.Valid() && NTE_ADDR !in instructions.insns && TraceOk(Forming(r, lastNode))
    }

    method PlaceInstruction(r: Option<nat>, lastNode: Option<nat>, a: nat) returns (r': Option<nat>, lastNode': Option<nat>)
      requires rain.Valid() && TraceOk(Forming(r, lastNode)) && a != NTE_ADDR
      modifies rain
      ensures rain.Valid() && rain.history == old(rain.history)
      ensures TraceOk(Forming(r', lastNode')) && Forming(r', lastNode') == Place(old(Forming(r, lastNode)), a)
    {
      ghost var x := Forming(r, lastNode);
      BeginRegionOk(x);
      r' := r;
      if r'.None? {
        var region := rain.CreateRegion();
        r' := Some(region);
      }
      assert Forming(r', lastNode) == BeginRegion(x);
      var node, pick := rain.GetNode(r'.value, a);
      UniqueGetNode(rain.State(), r'.value, a, pick);
      if node.Some? {
        lastNode' := node;
      } else {
        var inserted := ExtendIn(rain, r'.value, lastNode, a);
        lastNode' := Some(inserted);
      }
    }

    /** Walks from position `first` to the branch at `src`; tells whether it came to
        another trace. */
    method Walk(start: nat, src: nat, first: nat, r: Option<nat>, lastNode: Option<nat>)
      returns (r': Option<nat>, lastNode': Option<nat>, atTrace: bool)
      requires FormingOk(r, lastNode) && first <= |instructions.addrs|
      requires WalkTo(config, instructions.Model(), start, src, Forming(r, lastNode), first).1 != Forever
      modifies rain
      ensures FormingOk(r', lastNode') && rain.history == old(rain.history)
      ensures (Forming(r', lastNode'), if atTrace then AtTrace else Ran)
              == WalkTo(config, instructions.Model(), start, src, old(Forming(r, lastNode)), first)
    {
      hide TraceOk, Place, RAIn.Valid;
      ghost var c, all := instructions.Model(), WalkTo(config, instructions.Model(), start, src, Forming(r, lastNode), first);
      r', lastNode', atTrace := r, lastNode, false;
      var it := first;
      while it < |instructions.addrs|
        invariant first <= it <= |instructions.addrs| && FormingOk(r', lastNode') && rain.history == old(rain.history)
        invariant WalkTo(config, c, start, src, Forming(r', lastNode'), it) == all
        decreases |instructions.addrs| - it
      {
        var a := instructions.addrs[it];
        assert a in instructions.addrs;
        // another trace starts here
        if a != start && a in rain.regionEntryNodes {
          atTrace := true;
          return;
        }
        r', lastNode' := PlaceInstruction(r', lastNode', a);
        if a == src { return; }
        it := it + 1;
      }
    }

    ghost function Rest(start: nat, x: Trace, prev: nat, branch: nat): Option<State>
      requires TraceOk(x) && instructions.Valid() && NTE_ADDR !in instructions.insns
      reads instructions, history
    {
      FormFrom(config, instructions.Model(), history.buf, start, x, prev, branch)
    }

    /** `formTrace` on the branches after position `last`. */
    method FormTrace(start: nat, last: nat)
      requires FormingOk(None, None) && Rest(start, NewTrace(rain.State()), start, last + 1).Some?
      modifies rain
      ensures rain.Valid() && rain.history == old(rain.history)
      ensures Rest(start, NewTrace(old(rain.State())), start, last + 1) == Some(rain.State())
      decreases |history.buf| - last, 0
    {
      hide TraceOk, Rest, RAIn.Valid, FormFrom, Grows;
      ghost var all := Rest(start, NewTrace(rain.State()), start, last + 1);
      var r, lastNode: Option<nat> := None, None;
      var prev, branch, stop := start, last + 1, false;
      ghost var y := NewTrace(rain.State());
      while branch < |history.buf| && !stop
        invariant last < branch && rain.history == old(rain.history)
        invariant !stop ==> FormingOk(r, lastNode) && Rest(start, Forming(r, lastNode), prev, branch) == all
        invariant stop ==> Formed(y, lastNode, all)
        decreases |history.buf| - branch, !stop
      {
        r, lastNode, stop, y := FormBranch(start, prev, branch, r, lastNode);
        if !stop {
          prev, branch := history.buf[branch].tgt, branch + 1;
        }
      }
      if !stop {
        HistoryEnds(start, r, lastNode, prev, branch);
        y := Forming(r, lastNode);
      }
      Finish(y, lastNode, all);
    }

    /** The forming is over but for the exit of the region `y` had been forming. */
    ghost predicate Formed(y: Trace, lastNode: Option<nat>, all: Option<State>)
      reads rain
    {
      && rain.Valid() && TraceOk(y) && y.last == lastNode && Grows(y.tea, rain.State())
      && all == Some(ClosedIn(y, rain.State()))
    }

    lemma HistoryEnds(start: nat, r: Option<nat>, lastNode: Option<nat>, prev: nat, branch: nat)
      requires FormingOk(r, lastNode) && branch >= |history.buf|
      ensures Formed(Forming(r, lastNode), lastNode, Rest(start, Forming(r, lastNode), prev, branch))
    {
      hide TraceOk;
      GrowsItself(rain.State());
    }

    method Finish(ghost y: Trace, lastNode: Option<nat>, ghost all: Option<State>)
      requires Formed(y, lastNode, all)
      modifies rain
      ensures rain.Valid() && rain.history == old(rain.history) && all == Some(rain.State())
    {
      if lastNode.Some? {
        assert rain.nodes[lastNode.value] == y.tea.nodes[lastNode.value];
        rain.SetExit(lastNode.value);
      }
    }

    /** One branch of the history: a walk to it, and what follows from where the
        walk ended. */
    method FormBranch(start: nat, prev: nat, branch: nat, r: Option<nat>, lastNode: Option<nat>)
      returns (r': Option<nat>, lastNode': Option<nat>, stop: bool, ghost y: Trace)
      requires FormingOk(r, lastNode) && branch < |history.buf| && Rest(start, Forming(r, lastNode), prev, branch).Some?
      modifies rain
      ensures rain.history == old(rain.history)
      ensures !stop ==> FormingOk(r', lastNode')
      ensures !stop ==> Rest(start, Forming(r', lastNode'), history.buf[branch].tgt, branch + 1)
                        == old(Rest(start, Forming(r, lastNode), prev, branch))
      ensures stop ==> Formed(y, lastNode', old(Rest(start, Forming(r, lastNode), prev, branch)))
      decreases |history.buf| - branch, 1
    {
      hide TraceOk, WalkTo, Grows, RAIn.Valid;
      var branchSrc, branchTgt := history.buf[branch].src, history.buf[branch].tgt;
      var it := instructions.Find(prev);
      PosOfFind(instructions.Model(), prev, it);
      var atTrace;
      r', lastNode', atTrace := Walk(start, branchSrc, it, r, lastNode);
      y, stop := Forming(r', lastNode'), true;
      BeginAgain(r', lastNode');
      if atTrace {
        FormTrace(branchTgt, branch);
        return;
      }
      // the branch goes back into the region
      if r'.Some? {
        var n := Lookup(r'.value, lastNode', branchTgt);
        if n.Some? { return; }
      }
      stop := false;
    }

    lemma BeginAgain(r: Option<nat>, lastNode: Option<nat>)
      requires FormingOk(r, lastNode)
      ensures FormingOk(None, None) && Forming(None, None) == NewTrace(rain.State())
      ensures rain.Valid() && Grows(rain.State(), rain.State())
    {
    }

    method Lookup(r: nat, lastNode: Option<nat>, a: nat) returns (node: Option<nat>)
      requires rain.Valid() && TraceOk(Forming(Some(r), lastNode))
      ensures node == GetNode(rain.State(), r, a, 0)
    {
      var found, pick := rain.GetNode(r, a);
      node := found;
      UniqueGetNode(rain.State(), r, a, pick);
    }

    method IsFollowedByExit(prev: nat) returns (exit: bool)
      requires rain.Valid() && prev < |history.buf| && history.buf[prev].edge < |rain.edges|
      ensures exit == FollowsExit(rain.State(), history.buf, prev)
    {
      exit := rain.nodes[rain.edges[history.buf[prev].edge].src].region != NO_REGION;
    }

    /** Counts the target of the branch just added; when it is hot, the branches since
        position `prev` become a trace. */
    method ProfileTarget(tgt: nat, prev: nat, len: nat) returns (ghost again: nat)
      requires rain.Valid() && instructions.Valid() && prev < |history.buf| && tgt != NTE_ADDR && tgt in instructions.insns
      requires LeiOk(instructions.Model(), Model())
      requires IsHot(config, Bumped(profiler.instrFreqCounter, tgt), tgt) ==>
                 !Endless(config, instructions.Model(), history.buf, tgt, rain.regionEntryNodes.Keys, {}, tgt, prev + 1)
      modifies rain, profiler, history
      ensures rain.Valid()
      ensures Profiled(config, instructions.Model(), old(Model()).(lastAddr := tgt, lastLen := len), prev, again)
              == Some(Model().(lastAddr := tgt, lastLen := len))
      ensures rain.history == old(rain.history) +
                ProfiledHops(config, instructions.Model(), old(Model()).(lastAddr := tgt, lastLen := len), prev, again)
    {
      hide RAIn.Valid, TraceOk, FormFrom, Endless, Erased;
      ghost var s := rain.State();
      again := 0;
      profiler.Update(tgt);
      if IsHot(config, profiler.instrFreqCounter, tgt) {
        ReadyToForm(tgt, prev);
        FormTrace(tgt, prev);
        // the history ends where the trace began
        history.CutBack(prev);
        profiler.Reset(tgt);
        again := JumpIfEntry(tgt);
      }
    }

    lemma ReadyToForm(tgt: nat, prev: nat)
      requires rain.Valid() && instructions.Valid() && tgt in instructions.insns
      requires LeiOk(instructions.Model(), Model())
      requires !Endless(config, instructions.Model(), history.buf, tgt, rain.regionEntryNodes.Keys, {}, tgt, prev + 1)
      ensures FormingOk(None, None) && history.Valid() && Rest(tgt, NewTrace(rain.State()), tgt, prev + 1).Some?
    {
      hide Inv, FormFrom, Endless;
      EndlessIff(config, instructions.Model(), history.buf, tgt, NewTrace(rain.State()), tgt, prev + 1,
                 rain.regionEntryNodes.Keys, {});
    }

    /** "Jump newT". */
    method JumpIfEntry(a: nat) returns (ghost pick: nat)
      requires rain.Valid() && a != NTE_ADDR
      modifies rain
      ensures rain.Valid() && rain.State() == Jump(old(rain.State()), a, pick)
      ensures rain.history == old(rain.history) +
                if a in old(rain.regionEntryNodes) then [StepHop(old(rain.State()), a, pick)] else []
    {
      pick := 0;
      if a in rain.regionEntryNodes {
        var edg;
        edg, pick := rain.Advance(a);
      }
    }

    /** The source returns exactly when the item does not hang. */
    method Process(curAddr: nat, insn: Insn, len: nat) returns (ghost pick: nat, ghost again: nat)
      requires Valid() && curAddr != NTE_ADDR
      requires !Hangs(config, Known(instructions.Model(), curAddr, insn), Model(), curAddr)
      modifies this`lastAddr, this`lastLen, rain, profiler, instructions, history
      ensures Valid() && instructions.Model() == Known(old(instructions.Model()), curAddr, insn)
      ensures LeiStep(config, instructions.Model(), old(Model()), curAddr, len, pick, again) == Some(Model())
      ensures rain.history == old(rain.history) +
                LeiStepHops(config, instructions.Model(), old(Model()), curAddr, len, pick, again)
    {
      hide RAIn.Valid, Inv, Hangs;
      ghost var s := Model();
      instructions.Learn(curAddr, insn);
      LearntKeeps(s, curAddr, insn, old(instructions.Model()));
      pick, again := Follow(curAddr, len);
      LeiKeeps(config, instructions.Model(), s, curAddr, len, pick, again);
      lastAddr, lastLen := curAddr, len;
    }

    /** Knowing one more instruction. */
    lemma LearntKeeps(s: LeiState, a: nat, insn: Insn, code: Code)
      requires instructions.Valid() && LeiOk(code, s) && a != NTE_ADDR && instructions.Model() == Known(code, a, insn)
      ensures LeiOk(instructions.Model(), s)
    {
      KnownStays(code, instructions.Model(), s);
    }

    /** The transition, and the branch if it is one. */
    method Follow(curAddr: nat, len: nat) returns (ghost pick: nat, ghost again: nat)
      requires rain.Valid() && LeiOk(instructions.Model(), Model()) && instructions.Valid()
      requires curAddr != NTE_ADDR && curAddr in instructions.insns && !Hangs(config, instructions.Model(), Model(), curAddr)
      modifies rain, profiler, history
      ensures rain.Valid()
      ensures LeiStep(config, instructions.Model(), old(Model()), curAddr, len, pick, again)
              == Some(Model().(lastAddr := curAddr, lastLen := len))
      ensures rain.history == old(rain.history) +
                LeiStepHops(config, instructions.Model(), old(Model()), curAddr, len, pick, again)
    {
      hide RAIn.Valid, Inv, Hangs, Endless, Profiled, ProfiledHops, Step, IndexOk;
      ghost var s := Model();
      var edg, k;
      edg, k, pick := Transition(rain, curAddr);
      again := 0;
      if k.toNte && IsFar(curAddr, lastAddr, lastLen) {
        again := AddBranch(instructions.Model(), s, curAddr, len, edg, pick);
      }
    }

    /** The branch into the history, and the trace it may complete; `s` is what was before
        the transition. */
    method AddBranch(ghost code: Code, ghost s: LeiState, curAddr: nat, len: nat, edg: nat, ghost pick: nat) returns (ghost again: nat)
      requires LeiOk(code, s) && curAddr != NTE_ADDR && curAddr in code.insns && !Hangs(config, code, s, curAddr)
      requires TakenBy(s.tea, curAddr, pick).toNte && IsFar(curAddr, s.lastAddr, s.lastLen)
      requires rain.Valid() && instructions.Valid() && instructions.Model() == code
      requires edg == Resolve(s.tea, curAddr, pick).1 < |rain.edges|
      requires Model() == s.(tea := Step(s.tea, curAddr, pick))
      modifies rain, profiler, history
      ensures rain.Valid()
      ensures LeiStep(config, code, s, curAddr, len, pick, again) == Some(Model().(lastAddr := curAddr, lastLen := len))
      ensures rain.history == old(rain.history) + LeiStepHops(config, code, s, curAddr, len, pick, again)[1..]
    {
      hide RAIn.Valid, Inv, Hangs, Endless, Profiled, ProfiledHops, Step, IndexOk;
      again := 0;
      AddedKeeps(instructions.Model(), s, curAddr, pick);
      var found, prev := history.Add(lastAddr, curAddr, edg);
      if found {
        var exit := IsFollowedByExit(prev);
        if curAddr <= lastAddr || exit {
          DoesNotHang(config, instructions.Model(), s, curAddr, pick);
          again := ProfileTarget(curAddr, prev, len);
        }
      }
    }
  }

  /** Where an item does not hang its trace can be formed, whatever edge it followed. */
  lemma DoesNotHang(c: Config, code: Code, s: LeiState, a: nat, pick: nat)
    requires LeiOk(code, s) && a != NTE_ADDR && a in code.insns && !Hangs(c, code, s, a)
    requires TakenBy(s.tea, a, pick).toNte && IsFar(a, s.lastAddr, s.lastLen) && a in RoomIndex(s.buf, s.index)
    requires var added := Added(s, a, pick, s.lastAddr, s.lastLen);
             a <= s.lastAddr || FollowsExit(added.tea, added.buf, RoomIndex(s.buf, s.index)[a])
    ensures IsHot(c, Bumped(s.counters, a), a) ==>
              !Endless(c, code, Added(s, a, pick, s.lastAddr, s.lastLen).buf, a, Step(s.tea, a, pick).entries.Keys, {}, a,
                       RoomIndex(s.buf, s.index)[a] + 1)
  {
    hide Inv, Endless, Step, Resolve;
    var prev, buf := RoomIndex(s.buf, s.index)[a], Added(s, a, pick, s.lastAddr, s.lastLen).buf;
    StaysIff(s.tea, a, pick);
    PreviousTime(s.buf, s.index, Branch(s.lastAddr, a, Resolve(s.tea, a, pick).1));
    SameExit(code, s, a, pick, prev);
    EdgesPlayNoPart(c, code, buf, Room(s.buf) + [Branch(s.lastAddr, a, 0)], a, s.tea.entries.Keys, {}, a, prev + 1);
  }

  /** What `find` returns is the position of the address. */
  lemma PosOfFind(code: Code, a: nat, i: nat)
    requires CodeOk(code) && i <= |code.addrs|
    requires if a in code.insns then i < |code.addrs| && code.addrs[i] == a else i == |code.addrs|
    ensures PosOf(code, a, 0) == i
  {
    assert a in code.addrs <==> a in code.insns;
  }
}
