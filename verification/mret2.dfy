/** Most Recent Executed Trace: a region is built from what two recordings of the
    same header have in common. */
module Mret2 {
  import opened Tea
  import opened Flow
  import opened Entries
  import opened Rain
  import opened RegionFormation
  import opened Recording

  const STORE_INDEX_SIZE: nat := 10000

  // ---------- Merging two recordings ----------

  /** How far the loop of `mergePhases` gets from position `i`, the address kept
      after the loop included. */
  function MergeLength(first: seq<nat>, second: seq<nat>, i: nat): (n: nat)
    requires i < |first| && i < |second|
    requires first[..i] == second[..i]
    ensures i <= n <= |first| && n <= |second| && first[..n] == second[..n]
    decreases |first| - i
  {
    if first[i] != second[i] then i
    else
      assert first[..i + 1] == first[..i] + [first[i]] && second[..i + 1] == second[..i] + [second[i]];
      if first[i] == first[|first| - 1] || second[i] == second[|second| - 1] then i + 1
      else MergeLength(first, second, i + 1)
  }

  /** `mergePhases`: what is kept is a prefix of both recordings. */
  function Merge(first: seq<nat>, second: seq<nat>): (m: seq<nat>)
    ensures m <= first && m <= second
    ensures m == [] <==> first == [] || second == [] || first[0] != second[0]
  {
    if first == [] || second == [] then [] else first[..MergeLength(first, second, 0)]
  }

  function CommonLength(first: seq<nat>, second: seq<nat>): (n: nat)
    ensures n <= |first| && n <= |second| && first[..n] == second[..n]
    ensures n < |first| && n < |second| ==> first[n] != second[n]
  {
    if first == [] || second == [] || first[0] != second[0] then 0
    else
      var n := CommonLength(first[1..], second[1..]);
      assert first[..n + 1] == [first[0]] + first[1..][..n] && second[..n + 1] == [second[0]] + second[1..][..n];
      n + 1
  }

  /** No address of the common prefix, its last position aside, is the last
      address of one of the recordings. */
  predicate NoEarlyEnd(first: seq<nat>, second: seq<nat>)
    requires first != [] && second != []
  {
    forall i :: 0 <= i < CommonLength(first, second) - 1 ==>
      first[i] != first[|first| - 1] && second[i] != second[|second| - 1]
  }

  lemma {:induction false} MergeLengthBounds(first: seq<nat>, second: seq<nat>, i: nat)
    requires i < |first| && i < |second| && first[..i] == second[..i]
    requires forall j :: 0 <= j < i ==> first[j] != first[|first| - 1] && second[j] != second[|second| - 1]
    ensures MergeLength(first, second, i) == CommonLength(first, second) <==> NoEarlyEnd(first, second)
    decreases |first| - i
  {
    var n := CommonLength(first, second);
    forall j | 0 <= j < i ensures first[j] == second[j] {
      assert first[j] == first[..i][j] && second[j] == second[..i][j];
    }
    if i < n {
      assert first[i] == first[..n][i] && second[i] == second[..n][i];
      assert first[..i + 1] == first[..i] + [first[i]] && second[..i + 1] == second[..i] + [second[i]];
      if first[i] != first[|first| - 1] && second[i] != second[|second| - 1] {
        MergeLengthBounds(first, second, i + 1);
      }
    }
  }

  /** The merge gives the longest common prefix exactly when neither recording
      comes across its own last address before the end of that prefix. */
  lemma MergeIsLongestIff(first: seq<nat>, second: seq<nat>)
    requires first != [] && second != []
    ensures Merge(first, second) == first[..CommonLength(first, second)] <==> NoEarlyEnd(first, second)
  {
    MergeLengthBounds(first, second, 0);
    var m, n := MergeLength(first, second, 0), CommonLength(first, second);
    assert m != n ==> |first[..m]| != |first[..n]|;
  }

  /** In particular when the last address of each recording occurs once in it. */
  lemma MergeIsLongest(first: seq<nat>, second: seq<nat>)
    requires first != [] && second != []
    requires forall i :: 0 <= i < |first| - 1 ==> first[i] != first[|first| - 1]
    requires forall i :: 0 <= i < |second| - 1 ==> second[i] != second[|second| - 1]
    ensures Merge(first, second) == first[..CommonLength(first, second)]
  {
    MergeIsLongestIff(first, second);
  }

  /** A recorded iteration that comes back to its header ends with the header, and
      two identical recordings of it are merged into the header alone. */
  lemma MergeCutsLoops()
    ensures var loop := [3, 1, 2, 3];
            SortedFromSecond(loop) && Merge(loop, loop) == [3] && !NoEarlyEnd(loop, loop)
  {
    var loop := [3, 1, 2, 3];
    assert CommonLength(loop, loop) == 4;
    assert loop[0] == loop[|loop| - 1];
  }

  method MergePhases(first: seq<nat>, second: seq<nat>) returns (aux: seq<nat>)
    ensures aux == Merge(first, second)
  {
    if 0 == |second| || 0 == |first| { return []; }
    var i, j := 0, 0;
    var addr1, addr2 := first[i], second[j];
    var end1, end2 := first[|first| - 1], second[|second| - 1];
    aux := [];
    while addr1 != end1 && addr2 != end2
      invariant 0 <= i == j < |first| && j < |second|
      invariant addr1 == first[i] && addr2 == second[j]
      invariant aux == first[..i] == second[..i]
      invariant MergeLength(first, second, 0) == MergeLength(first, second, i)
      decreases |first| - i
    {
      if addr1 == addr2 {
        aux := aux + [first[i]];
        i, j := i + 1, j + 1;
        addr1, addr2 := first[i], second[j];
      } else {
        break;
      }
    }
    if addr1 == addr2 {
      aux := aux + [first[i]];
    }
  }

  // ---------- The state machine ----------

  datatype Mret2State = Mret2State(
    tea: State, counters: Counters, recording: bool, lastAddr: nat, header: nat,
    phases: map<nat, nat>, recorded: set<nat>, buffer: seq<nat>,
    stored: seq<seq<nat>>, storedIndex: nat)

  function Start(loopInit: nat): Mret2State {
    Mret2State(Initial(loopInit), map[], false, 0, 0, map[], {}, [], seq(STORE_INDEX_SIZE, _ => []), 0)
  }

  /** `getPhase` gives a header phase 1 the first time it is asked. */
  function PhaseOf(phases: map<nat, nat>, a: nat): nat {
    if a in phases then phases[a] else 1
  }

  /** `getStoredIndex`: the first slot whose recording starts with the header,
      or slot 0 when there is none. */
  function StoredIndex(stored: seq<seq<nat>>, a: nat, i: nat): (k: nat)
    requires i <= |stored|
    ensures k < |stored| || k == 0
    ensures || (k < |stored| && stored[k] != [] && stored[k][0] == a)
            || (forall j :: i <= j < |stored| ==> stored[j] == [] || stored[j][0] != a)
    decreases |stored| - i
  {
    if i == |stored| then 0
    else if |stored[i]| > 0 && stored[i][0] == a then i
    else StoredIndex(stored, a, i + 1)
  }

  /** Profiling: a hot address that has not made a region starts a recording; in
      phase 1 its counter starts over. */
  function ProfilePhase(c: Config, s: Mret2State, k: Taken, a: nat): Mret2State {
    if !Profiles(k, s.lastAddr, a) then s
    else
      var p := Bumped(s.counters, a);
      if IsHot(c, p, a) && !s.recording && a !in s.recorded then
        s.(counters := if PhaseOf(s.phases, a) == 1 then p[a := 3] else p,
           phases := s.phases[a := PhaseOf(s.phases, a)], header := a, recording := true)
      else s.(counters := p)
  }

  /** The end of a recording: stored in phase 1, merged and built in phase 2. */
  function Finish(s: Mret2State): Mret2State
    requires Inv(s.tea) && NonZero(s.buffer) && s.storedIndex < |s.stored|
  {
    if PhaseOf(s.phases, s.header) == 1 then
      s.(stored := s.stored[s.storedIndex := s.buffer], buffer := [],
         storedIndex := if s.storedIndex + 1 == STORE_INDEX_SIZE then 0 else s.storedIndex + 1,
         phases := s.phases[s.header := 2], recording := false)
    else
      s.(tea := BuildIfAny(s.tea, Merge(s.stored[StoredIndex(s.stored, s.header, 0)], s.buffer)), buffer := [],
         phases := s.phases[s.header := 1], recorded := s.recorded + {s.header}, recording := false)
  }

  /** Asking for the phase first, as the source does, changes nothing. */
  lemma FinishAsked(s: Mret2State)
    requires Inv(s.tea) && NonZero(s.buffer) && s.storedIndex < |s.stored|
    ensures Finish(s.(phases := s.phases[s.header := PhaseOf(s.phases, s.header)])) == Finish(s)
  {
    var p := s.phases[s.header := PhaseOf(s.phases, s.header)];
    assert p[s.header := 1] == s.phases[s.header := 1] && p[s.header := 2] == s.phases[s.header := 2];
  }

  /** Recording: the buffer grows until a stop condition ends it. */
  function RecordPhase(c: Config, q: Mret2State, k: Taken, a: nat): Mret2State
    requires Inv(q.tea) && NonZero(q.buffer) && q.storedIndex < |q.stored|
  {
    var u := if !q.recording then q
             else if Stops(k, q.buffer, q.lastAddr, a) then Finish(q)
             else if IsRegionAddrSpace(c, q.buffer, a) then q.(buffer := q.buffer + [a])
             else q;
    u.(lastAddr := a)
  }

  /** `MRET2::process`. */
  function Mret2Step(c: Config, s: Mret2State, a: nat, pick: nat): Mret2State
    requires Inv(s.tea) && NonZero(s.buffer) && s.storedIndex < |s.stored| && a != NTE_ADDR
  {
    var k := TakenBy(s.tea, a, pick);
    RecordPhase(c, ProfilePhase(c, s, k, a).(tea := Step(s.tea, a, pick)), k, a)
  }

  predicate StopsInStep(c: Config, s: Mret2State, a: nat, pick: nat)
    requires Inv(s.tea) && a != NTE_ADDR
  {
    var k := TakenBy(s.tea, a, pick);
    var q := ProfilePhase(c, s, k, a);
    q.recording && Stops(k, q.buffer, q.lastAddr, a)
  }

  // ---------- What every run keeps ----------

  /** `log` is what was stored for each header in phase 1, whether or not the ring
      still has it. */
  ghost predicate RingOk(s: Mret2State, log: map<nat, seq<nat>>) {
    && |s.stored| == STORE_INDEX_SIZE && s.storedIndex < STORE_INDEX_SIZE
    && (forall i :: 0 <= i < |s.stored| && s.stored[i] != [] ==>
          s.stored[i][0] in log && log[s.stored[i][0]] == s.stored[i])
    && (forall i, j :: 0 <= i < j < |s.stored| && s.stored[i] != [] && s.stored[j] != [] ==>
          s.stored[i][0] != s.stored[j][0])
  }

  /** A header has been stored exactly when it waits for its second recording or
      has had it. */
  ghost predicate LogOk(s: Mret2State, log: map<nat, seq<nat>>) {
    && (forall h :: h in log ==> log[h] != [] && log[h][0] == h)
    && (forall h :: h in log <==> PhaseOf(s.phases, h) == 2 || h in s.recorded)
    && (forall h :: h in s.phases ==> s.phases[h] == 1 || s.phases[h] == 2)
  }

  ghost predicate RecordingOk(s: Mret2State) {
    && NonZero(s.buffer)
    && (!s.recording ==> s.buffer == [])
    && (s.recording ==>
          && 1 <= |s.buffer| <= MAX_INST_REG + 1 && s.buffer[0] == s.header
          && s.header !in s.recorded
          && forall i :: 0 <= i < |s.buffer| ==> s.buffer[i] !in s.tea.entries)
  }

  ghost predicate Mret2Ok(s: Mret2State, log: map<nat, seq<nat>>) {
    && Inv(s.tea) && EntriesIntact(s.tea)
    && RingOk(s, log) && LogOk(s, log) && RecordingOk(s)
  }

  /** What the step stores, if it stores. */
  function NextLog(c: Config, s: Mret2State, log: map<nat, seq<nat>>, a: nat, pick: nat): map<nat, seq<nat>>
    requires Inv(s.tea) && a != NTE_ADDR
  {
    if StopsInStep(c, s, a, pick) && PhaseOf(s.phases, s.header) == 1 then log[s.header := s.buffer] else log
  }

  /** Where the ring still has the first recording of a header, the merge is with
      that recording; where it has been overwritten, nothing is left to build. */
  lemma MergedWith(s: Mret2State, log: map<nat, seq<nat>>)
    requires RingOk(s, log) && LogOk(s, log) && s.buffer != [] && s.buffer[0] == s.header
    ensures var m := Merge(s.stored[StoredIndex(s.stored, s.header, 0)], s.buffer);
            && m <= s.buffer
            && (m != [] ==> s.header in log && m <= log[s.header] && m[0] == s.header)
            && ((forall j :: 0 <= j < |s.stored| ==> s.stored[j] == [] || s.stored[j][0] != s.header) ==> m == [])
  {
  }

  lemma ProfilePhaseKeeps(c: Config, s: Mret2State, log: map<nat, seq<nat>>, k: Taken, a: nat)
    requires Mret2Ok(s, log)
    ensures var q := ProfilePhase(c, s, k, a);
            && q == s.(counters := q.counters, phases := q.phases, header := q.header, recording := q.recording)
            && RingOk(q, log) && LogOk(q, log)
            && (s.recording ==> q.recording && q.header == s.header && q.phases == s.phases)
            && (q.recording && !s.recording ==> q.buffer == [] && q.header == a && a !in q.recorded && Profiles(k, s.lastAddr, a))
            && (forall b :: b in s.counters ==> b in q.counters)
  {
  }

  /** The end of a recording. In phase 1 the header is stored for the first and
      only time; in phase 2 the region comes from a prefix of both recordings. */
  lemma FinishKeeps(s: Mret2State, log: map<nat, seq<nat>>)
    requires Mret2Ok(s, log) && s.recording
    ensures PhaseOf(s.phases, s.header) == 1 ==> s.header !in log && Mret2Ok(Finish(s), log[s.header := s.buffer])
    ensures PhaseOf(s.phases, s.header) != 1 ==> Mret2Ok(Finish(s), log) && FromBoth(s, log, Finish(s).tea)
    ensures EntriesKept(s.tea, Finish(s).tea) && Grows(s.tea, Finish(s).tea)
  {
    hide Inv, EntriesIntact, Grows, RingOk, RecordingOk, LogOk;
    if PhaseOf(s.phases, s.header) == 1 {
      StoreKeeps(s, log);
      GrowsItself(s.tea);
    } else {
      MergeKeeps(s, log);
    }
  }

  /** The end of a recording in phase 2. */
  lemma MergeKeeps(s: Mret2State, log: map<nat, seq<nat>>)
    requires Mret2Ok(s, log) && s.recording && PhaseOf(s.phases, s.header) != 1
    ensures Mret2Ok(Finish(s), log) && FromBoth(s, log, Finish(s).tea)
    ensures EntriesKept(s.tea, Finish(s).tea) && Grows(s.tea, Finish(s).tea)
  {
    hide Inv, EntriesIntact, BuildIfAny, StoredIndex, Grows, EntriesKept;
    var m := Merge(s.stored[StoredIndex(s.stored, s.header, 0)], s.buffer);
    MergedWith(s, log);
    BuildKeepsIntact(s.tea, m);
    assert s.header in s.phases && s.phases[s.header] == 2;
    assert s.buffer[..|m|] == m;
    if m == [] {
      assert s.buffer[..0] <= log[s.header];
    }
  }

  /** The automaton that the end of a second recording leaves. */
  ghost predicate FromBoth(s: Mret2State, log: map<nat, seq<nat>>, t: State)
    requires Inv(s.tea) && NonZero(s.buffer)
  {
    s.header in log && exists n: nat ::
      n <= |s.buffer| && s.buffer[..n] <= log[s.header] && t == BuildIfAny(s.tea, s.buffer[..n])
  }

  lemma StoreKeeps(s: Mret2State, log: map<nat, seq<nat>>)
    requires Mret2Ok(s, log) && s.recording && PhaseOf(s.phases, s.header) == 1
    ensures s.header !in log && Mret2Ok(Finish(s), log[s.header := s.buffer])
  {
    hide Inv, EntriesIntact;
    var t := Finish(s);
    assert s.header !in log;
    assert RingOk(t, log[s.header := s.buffer]);
  }

  lemma Mret2Keeps(c: Config, s: Mret2State, log: map<nat, seq<nat>>, a: nat, pick: nat)
    requires Mret2Ok(s, log) && a != NTE_ADDR
    ensures Mret2Ok(Mret2Step(c, s, a, pick), NextLog(c, s, log, a, pick))
    // a header is stored at most once
    ensures StopsInStep(c, s, a, pick) && PhaseOf(s.phases, s.header) == 1 ==> s.recording && s.header !in log
    // a region comes from a prefix of both recordings of its header
    ensures StopsInStep(c, s, a, pick) && PhaseOf(s.phases, s.header) != 1 ==>
              FromBoth(s.(tea := Step(s.tea, a, pick)), log, Mret2Step(c, s, a, pick).tea)
    // and without a second recording nothing is built
    ensures !StopsInStep(c, s, a, pick) ==> Mret2Step(c, s, a, pick).tea == Step(s.tea, a, pick)
    // an entry is never overwritten
    ensures var t := Mret2Step(c, s, a, pick).tea; EntriesKept(s.tea, t) && Grows(Step(s.tea, a, pick), t)
  {
    hide Inv, EntriesIntact, RingOk, LogOk, RecordingOk;
    var k, u := TakenBy(s.tea, a, pick), s.(tea := Step(s.tea, a, pick));
    TransitionKeeps(s, log, a, pick);
    ProfileCommutes(c, s, u.tea, k, a);
    RecordPhaseKeeps(c, u, log, k, a);
  }

  lemma TransitionKeeps(s: Mret2State, log: map<nat, seq<nat>>, a: nat, pick: nat)
    requires Mret2Ok(s, log) && a != NTE_ADDR
    ensures Mret2Ok(s.(tea := Step(s.tea, a, pick)), log)
    ensures var k := TakenBy(s.tea, a, pick); k.exitsRegion || k.loopsAtNte ==> k.toNte
    ensures TakenBy(s.tea, a, pick).toNte ==> a !in Step(s.tea, a, pick).entries
    ensures EntriesKept(s.tea, Step(s.tea, a, pick))
  {
    hide EntriesIntact, Inv, RingOk, LogOk;
    TakenMeans(s.tea, a, pick);
    StepKeepsIntact(s.tea, a, pick);
    OtherTea(s, Step(s.tea, a, pick), log);
  }

  lemma OtherTea(s: Mret2State, t: State, log: map<nat, seq<nat>>)
    requires RingOk(s, log) && LogOk(s, log)
    ensures RingOk(s.(tea := t), log) && LogOk(s.(tea := t), log)
  {
  }

  lemma ProfileCommutes(c: Config, s: Mret2State, t: State, k: Taken, a: nat)
    ensures ProfilePhase(c, s.(tea := t), k, a) == ProfilePhase(c, s, k, a).(tea := t)
  {
  }

  /** Profiling and recording, once the transition has been made. */
  lemma RecordPhaseKeeps(c: Config, s: Mret2State, log: map<nat, seq<nat>>, k: Taken, a: nat)
    requires Mret2Ok(s, log) && a != NTE_ADDR
    requires k.exitsRegion || k.loopsAtNte ==> k.toNte
    requires k.toNte ==> a !in s.tea.entries
    ensures var q := ProfilePhase(c, s, k, a);
            var stops, stores := q.recording && Stops(k, q.buffer, q.lastAddr, a), PhaseOf(s.phases, s.header) == 1;
            && Mret2Ok(RecordPhase(c, q, k, a), if stops && stores then log[s.header := s.buffer] else log)
            && (stops && stores ==> s.recording && s.header !in log)
            && (stops && !stores ==> FromBoth(s, log, RecordPhase(c, q, k, a).tea))
            && (!stops ==> RecordPhase(c, q, k, a).tea == s.tea)
            && EntriesKept(s.tea, RecordPhase(c, q, k, a).tea) && Grows(s.tea, RecordPhase(c, q, k, a).tea)
  {
    hide Inv, EntriesIntact, Grows, Finish, IsRegionAddrSpace;
    GrowsItself(s.tea);
    ProfilePhaseKeeps(c, s, log, k, a);
    var q := ProfilePhase(c, s, k, a);
    if q.recording {
      if Stops(k, q.buffer, q.lastAddr, a) {
        StopPhaseKeeps(s, q, log);
      } else {
        AppendPhaseKeeps(c, s, q, log, a);
      }
    }
  }

  lemma StopPhaseKeeps(s: Mret2State, q: Mret2State, log: map<nat, seq<nat>>)
    requires Mret2Ok(s, log) && RingOk(q, log) && LogOk(q, log)
    requires s.recording && q.recording && q.header == s.header && q.phases == s.phases
    requires q == s.(counters := q.counters)
    ensures PhaseOf(s.phases, s.header) == 1 ==> s.header !in log && Mret2Ok(Finish(q), log[s.header := s.buffer])
    ensures PhaseOf(s.phases, s.header) != 1 ==> Mret2Ok(Finish(q), log) && FromBoth(s, log, Finish(q).tea)
    ensures EntriesKept(s.tea, Finish(q).tea) && Grows(s.tea, Finish(q).tea)
  {
    hide Inv, EntriesIntact;
    FinishKeeps(q, log);
  }

  lemma AppendPhaseKeeps(c: Config, s: Mret2State, q: Mret2State, log: map<nat, seq<nat>>, a: nat)
    requires Mret2Ok(s, log) && RingOk(q, log) && LogOk(q, log) && a != NTE_ADDR && a !in s.tea.entries
    requires q == s.(counters := q.counters, phases := q.phases, header := q.header, recording := true)
    requires s.recording ==> q.header == s.header
    requires !s.recording ==> q.header == a && a !in q.recorded
    requires |q.buffer| <= MAX_INST_REG
    ensures Mret2Ok(q.(lastAddr := a, buffer := if IsRegionAddrSpace(c, q.buffer, a) then q.buffer + [a] else q.buffer), log)
  {
  }

  predicate InPhase1(phases: map<nat, nat>, a: nat) {
    a in phases ==> phases[a] == 1
  }

  /** The whole step, in terms of where the automaton was and is: what starts a recording
      and ends it, where it is stored, and what it is merged with. */
  lemma Mret2StepIs(c: Config, s: Mret2State, log: map<nat, seq<nat>>, a: nat, pick: nat)
    requires Mret2Ok(s, log) && a != NTE_ADDR
    ensures var u, t := Step(s.tea, a, pick), Mret2Step(c, s, a, pick);
            var point, n := StartsTrace(s.tea, u, s.lastAddr, a), CountNow(s.counters, a);
            var starts := point && n >= c.hotThreshold && !s.recording && a !in s.recorded;
            var active, header := s.recording || starts, if starts then a else s.header;
            var stops := active && EndsTrace(u, s.buffer, s.lastAddr, a);
            && (StopsInStep(c, s, a, pick) <==> stops)
            && t.counters == (if !point then s.counters else s.counters[a := if starts && InPhase1(s.phases, a) then 3 else n])
            && t.lastAddr == a && t.header == header && (t.recording <==> active && !stops)
            && t.buffer == (if stops then [] else if active then Buffered(c, s.buffer, a) else s.buffer)
            && (!stops ==> t.tea == u && t.stored == s.stored && t.storedIndex == s.storedIndex && t.recorded == s.recorded)
            && (stops && InPhase1(s.phases, header) ==>
                  && t.tea == u && t.recorded == s.recorded && t.phases == s.phases[header := 2]
                  && t.stored == s.stored[s.storedIndex := s.buffer] && t.storedIndex == (s.storedIndex + 1) % 10000)
            && (stops && !InPhase1(s.phases, header) ==>
                  && t.tea == BuildIfAny(u, Merge(s.stored[StoredIndex(s.stored, header, 0)], s.buffer))
                  && t.recorded == s.recorded + {header} && t.phases == s.phases[header := 1]
                  && t.stored == s.stored && t.storedIndex == s.storedIndex)
  {
    hide Inv, Step, EntriesIntact, BuildIfAny, StoredIndex, Merge, ProfilePhase, TakenBy, IsHot, LogOk, StopsInStep, Stops;
    hide StartsTrace, EndsTrace, EntriesKept, NonZero, IsRegionAddrSpace;
    StartIs(c, s, log, a, pick);
    TransitionKeeps(s, log, a, pick);
    assert RingOk(s, log);
    if StopsInStep(c, s, a, pick) {
      StopsOnlyRecording(c, s, log, a, pick);
      var header := s.header;
      assert s.phases[header := PhaseOf(s.phases, header)][header := 2] == s.phases[header := 2];
    }
  }

  lemma StartIs(c: Config, s: Mret2State, log: map<nat, seq<nat>>, a: nat, pick: nat)
    requires Mret2Ok(s, log) && a != NTE_ADDR
    ensures var u, k := Step(s.tea, a, pick), TakenBy(s.tea, a, pick);
            var point, n, q := StartsTrace(s.tea, u, s.lastAddr, a), CountNow(s.counters, a), ProfilePhase(c, s, k, a);
            var starts := point && n >= c.hotThreshold && !s.recording && a !in s.recorded;
            && q == s.(counters := if !point then s.counters else s.counters[a := if starts && InPhase1(s.phases, a) then 3 else n],
                       phases := if starts then s.phases[a := PhaseOf(s.phases, a)] else s.phases,
                       header := if starts then a else s.header, recording := s.recording || starts)
            && (StopsInStep(c, s, a, pick) <==> q.recording && Stops(k, s.buffer, s.lastAddr, a))
            && (Stops(k, s.buffer, s.lastAddr, a) <==> EndsTrace(u, s.buffer, s.lastAddr, a))
            && (if IsRegionAddrSpace(c, s.buffer, a) then s.buffer + [a] else s.buffer) == Buffered(c, s.buffer, a)
  {
    hide Inv, Step, EntriesIntact, RingOk, LogOk;
    TakenMeans(s.tea, a, pick);
  }

  /** A recording does not stop with the item that starts it. */
  lemma StopsOnlyRecording(c: Config, s: Mret2State, log: map<nat, seq<nat>>, a: nat, pick: nat)
    requires Mret2Ok(s, log) && a != NTE_ADDR && StopsInStep(c, s, a, pick)
    ensures s.recording && ProfilePhase(c, s, TakenBy(s.tea, a, pick), a).phases == s.phases
  {
    hide Inv, EntriesIntact, RingOk, LogOk;
    TakenMeans(s.tea, a, pick);
  }

  /** A whole run, with the log of what was stored. */
  function Mret2Run(c: Config, loopInit: nat, trace: seq<Item>): (res: (Mret2State, map<nat, seq<nat>>))
    requires IsTrace(trace)
    ensures Mret2Ok(res.0, res.1)
  {
    if trace == [] then
      InitialInv(loopInit);
      (Start(loopInit), map[])
    else
      var (s, log) := Mret2Run(c, loopInit, trace[..|trace| - 1]);
      var item := trace[|trace| - 1];
      Mret2Keeps(c, s, log, item.addr, item.pick);
      (Mret2Step(c, s, item.addr, item.pick), NextLog(c, s, log, item.addr, item.pick))
  }

  /** The edges the items of a trace follow are what all counters of the run count. */
  ghost function Mret2Hops(c: Config, loopInit: nat, trace: seq<Item>): (h: seq<Hop>)
    requires IsTrace(trace)
    ensures Consistent(Mret2Run(c, loopInit, trace).0.tea, h, loopInit)
  {
    if trace == [] then
      InitialConsistent(loopInit);
      []
    else
      var (s, log) := Mret2Run(c, loopInit, trace[..|trace| - 1]);
      var h, item := Mret2Hops(c, loopInit, trace[..|trace| - 1]), trace[|trace| - 1];
      Mret2Keeps(c, s, log, item.addr, item.pick);
      ItemConsistent(s.tea, Mret2Step(c, s, item.addr, item.pick).tea, item.addr, item.pick, h, loopInit);
      h + [StepHop(s.tea, item.addr, item.pick)]
  }

  /** All recordings stored in phase 1, in order. */
  function Stores(c: Config, loopInit: nat, trace: seq<Item>): seq<seq<nat>>
    requires IsTrace(trace)
  {
    if trace == [] then []
    else
      var s, item := Mret2Run(c, loopInit, trace[..|trace| - 1]).0, trace[|trace| - 1];
      Stores(c, loopInit, trace[..|trace| - 1]) +
      if StopsInStep(c, s, item.addr, item.pick) && InPhase1(s.phases, s.header) then [s.buffer] else []
  }

  /** The ring holds the last 10000 of `all`, in order, and the next goes behind them. */
  ghost predicate Holds(s: Mret2State, all: seq<seq<nat>>) {
    && |s.stored| == 10000 && s.storedIndex == |all| % 10000
    && forall i :: |all| - 10000 <= i < |all| && 0 <= i ==> s.stored[i % 10000] == all[i]
  }

  lemma HoldsOneMore(s: Mret2State, t: Mret2State, all: seq<seq<nat>>, buffer: seq<nat>)
    requires Holds(s, all) && t.stored == s.stored[s.storedIndex := buffer] && t.storedIndex == (s.storedIndex + 1) % 10000
    ensures Holds(t, all + [buffer])
  {
    var more := all + [buffer];
    forall i | |more| - 10000 <= i < |more| && 0 <= i ensures t.stored[i % 10000] == more[i] {
      if i < |all| {
        assert s.stored[i % 10000] == all[i];
        assert i % 10000 != |all| % 10000;
      }
    }
  }

  /** So a recording stays where it is until its slot comes round again. */
  lemma {:induction false} RingHolds(c: Config, loopInit: nat, trace: seq<Item>)
    requires IsTrace(trace)
    ensures Holds(Mret2Run(c, loopInit, trace).0, Stores(c, loopInit, trace))
  {
    hide Mret2Step, Inv, RingOk, LogOk, RecordingOk, EntriesIntact, StopsInStep, Holds;
    if trace == [] {
      NothingStored(loopInit);
    } else {
      var (s, log) := Mret2Run(c, loopInit, trace[..|trace| - 1]);
      var all, item := Stores(c, loopInit, trace[..|trace| - 1]), trace[|trace| - 1];
      RingHolds(c, loopInit, trace[..|trace| - 1]);
      StepHolds(c, s, log, all, item.addr, item.pick);
      assert all + [] == all;
    }
  }

  lemma NothingStored(loopInit: nat)
    ensures Holds(Start(loopInit), [])
  {
  }

  lemma StepHolds(c: Config, s: Mret2State, log: map<nat, seq<nat>>, all: seq<seq<nat>>, a: nat, pick: nat)
    requires Mret2Ok(s, log) && a != NTE_ADDR && Holds(s, all)
    ensures Holds(Mret2Step(c, s, a, pick),
                  if StopsInStep(c, s, a, pick) && InPhase1(s.phases, s.header) then all + [s.buffer] else all)
  {
    hide Mret2Step, Inv, Step, RingOk, LogOk, EntriesIntact, BuildIfAny, Merge, StoredIndex, Buffered;
    Mret2StepIs(c, s, log, a, pick);
    if StopsInStep(c, s, a, pick) {
      StopsOnlyRecording(c, s, log, a, pick);
      if InPhase1(s.phases, s.header) {
        HoldsOneMore(s, Mret2Step(c, s, a, pick), all, s.buffer);
      }
    }
  }

  /** After any trace the cache in front of the entries is exact, and there are as many
      entries as regions. */
  lemma Mret2Theorem(c: Config, loopInit: nat, trace: seq<Item>)
    requires IsTrace(trace)
    ensures var s := Mret2Run(c, loopInit, trace).0.tea;
            && |s.regions| == |s.entries| + 1
            && forall a :: a in s.cache ==> a in s.entries && s.edges[s.cache[a]].tgt == s.entries[a]
  {
    CachesAgree(Mret2Run(c, loopInit, trace).0.tea);
  }

  // ---------- The technique itself ----------

  class MRET2 {
    const rain: RAIn
    const profiler: Profiler
    const config: Config
    var recording: bool
    var lastAddr: nat
    var header: nat
    var phases: map<nat, nat>
    var recorded: set<nat>
    var recordingBuffer: seq<nat>
    var recordingBufferTmp: seq<nat>
    var storedIndex: nat
    const stored: array<seq<nat>>
    ghost var log: map<nat, seq<nat>>

    ghost function Model(): Mret2State
      reads this, rain, profiler, stored
    {
      Mret2State(rain.State(), profiler.instrFreqCounter, recording, lastAddr, header, phases,
                 recorded, recordingBuffer, stored[..], storedIndex)
    }

    ghost predicate Valid()
      reads this, rain, profiler, stored
    {
      rain.Valid() && Mret2Ok(Model(), log)
    }

    constructor (config: Config, loopCounter: nat)
      ensures Valid() && this.config == config && log == map[]
      ensures Model() == Start(loopCounter)
      ensures fresh(rain) && fresh(profiler) && fresh(stored)
    {
      this.config := config;
      rain := new RAIn(loopCounter);
      profiler := new Profiler();
      recording, lastAddr, header := false, 0, 0;
      phases, recorded, log := map[], {}, map[];
      recordingBuffer, recordingBufferTmp := [], [];
      storedIndex := 0;
      stored := new seq<nat>[STORE_INDEX_SIZE](_ => []);
      new;
      assert stored[..] == seq(STORE_INDEX_SIZE, _ => []);
    }

    method GetStoredIndex(addr: nat) returns (index: nat)
      ensures index == StoredIndex(stored[..], addr, 0)
    {
      index := 0;
      while index < stored.Length
        invariant index <= stored.Length
        invariant StoredIndex(stored[..], addr, 0) == StoredIndex(stored[..], addr, index)
      {
        if |stored[index]| > 0 && stored[index][0] == addr { return; }
        index := index + 1;
      }
      index := 0;
    }

    method GetPhase(addr: nat) returns (phase: nat)
      modifies this`phases
      ensures phase == PhaseOf(old(phases), addr) && phases == old(phases)[addr := phase]
    {
      if addr !in phases {
        phases := phases[addr := 1];
      }
      phase := phases[addr];
      assert phases == phases[addr := phase];
    }

    method ProfileTarget(k: Taken, curAddr: nat)
      modifies this`phases, this`header, this`recording, profiler
      ensures Model() == ProfilePhase(config, old(Model()), k, curAddr)
    {
      if Profiles(k, lastAddr, curAddr) {
        profiler.Update(curAddr);
        if IsHot(config, profiler.instrFreqCounter, curAddr) && !recording && curAddr !in recorded {
          // a recording starts here
          var phase := GetPhase(curAddr);
          if phase == 1 {
            profiler.Reset(curAddr);
          }
          header := curAddr;
          recording := true;
        }
      }
    }

    /** The end of a recording in phase 1. */
    method StoreRecording()
      requires Inv(rain.State()) && NonZero(recordingBuffer)
      requires storedIndex < stored.Length && PhaseOf(phases, header) == 1
      modifies this, stored
      ensures Model() == Finish(old(Model()))
      ensures log == old(log)[header := old(recordingBuffer)]
    {
      stored[storedIndex] := recordingBuffer;
      log := log[header := recordingBuffer];
      recordingBuffer := [];
      storedIndex := storedIndex + 1;
      if storedIndex == STORE_INDEX_SIZE { storedIndex := 0; }
      phases := phases[header := 2];
      recording := false;
    }

    /** The end of a recording in phase 2. */
    method BuildFromBoth()
      requires rain.Valid() && NonZero(recordingBuffer)
      requires storedIndex < stored.Length == STORE_INDEX_SIZE && PhaseOf(phases, header) != 1
      modifies this, rain
      ensures rain.Valid() && Model() == Finish(old(Model()))
      ensures log == old(log) && rain.history == old(rain.history)
    {
      hide Consistent, Inv, BuildRegion, BuildIfAny, StoredIndex;
      ghost var s := Model();
      MergeWithStored();
      var merged := recordingBuffer;
      var _ := BuildRegionIn(rain, merged);
      recordingBuffer := [];
      phases := phases[header := 1];
      recorded := recorded + {header};
      recording := false;
    }

    method MergeWithStored()
      requires stored.Length == STORE_INDEX_SIZE
      modifies this`recordingBufferTmp, this`recordingBuffer
      ensures recordingBuffer == Merge(stored[..][StoredIndex(stored[..], header, 0)], old(recordingBuffer))
    {
      var index := GetStoredIndex(header);
      recordingBufferTmp := stored[index];
      recordingBuffer := MergePhases(recordingBufferTmp, recordingBuffer);
    }

    method RecordTarget(k: Taken, curAddr: nat)
      requires rain.Valid() && NonZero(recordingBuffer) && storedIndex < stored.Length == STORE_INDEX_SIZE
      modifies this, rain, stored
      ensures rain.Valid() && Model() == RecordPhase(config, old(Model()), k, curAddr) && rain.history == old(rain.history)
      ensures log == if old(recording) && Stops(k, old(recordingBuffer), old(lastAddr), curAddr) && PhaseOf(old(phases), old(header)) == 1
        then old(log)[old(header) := old(recordingBuffer)] else old(log)
    {
      if recording {
        if Stops(k, recordingBuffer, lastAddr, curAddr) {
          ghost var s := Model();
          var phase := GetPhase(header);
          FinishAsked(s);
          if phase == 1 { StoreRecording(); } else { BuildFromBoth(); }
        } else if IsRegionAddrSpace(config, recordingBuffer, curAddr) {
          recordingBuffer := recordingBuffer + [curAddr];
        }
      }
      lastAddr := curAddr;
    }

    method Process(curAddr: nat) returns (ghost pick: nat)
      requires Valid() && curAddr != NTE_ADDR
      modifies this, rain, profiler, stored
      ensures Valid() && Model() == Mret2Step(config, old(Model()), curAddr, pick)
      ensures log == NextLog(config, old(Model()), old(log), curAddr, pick)
      ensures rain.history == old(rain.history) + [StepHop(old(rain.State()), curAddr, pick)]
    {
      hide Inv, Consistent;
      ghost var s, before := Model(), log;
      var edg, k;
      edg, k, pick := Transition(rain, curAddr);
      Mret2Keeps(config, s, before, curAddr, pick);
      ProfilePhaseKeeps(config, s, before, k, curAddr);
      ProfileTarget(k, curAddr);
      assert Model() == ProfilePhase(config, s, k, curAddr).(tea := Step(s.tea, curAddr, pick));
      RecordTarget(k, curAddr);
    }
  }
}
