/** The recorder NET, NET+ and LEF share: profile start-of-trace points, record
    from the first hot one until a stop condition. */
module Recording {
  import opened Sets
  import opened Tea
  import opened Flow
  import opened Rain
  import opened RegionFormation

  /** A trace item; `pick` settles which of several nodes with the same address
      a set of nodes yields first. */
  datatype Item = Item(addr: nat, pick: nat)

  predicate IsTrace(trace: seq<Item>) {
    forall i :: 0 <= i < |trace| ==> trace[i].addr != NTE_ADDR
  }

  /** What the executed edge tells a technique. */
  datatype Taken = Taken(exitsRegion: bool, loopsAtNte: bool, toNte: bool)

  function TakenBy(s: State, a: nat, pick: nat): Taken
    requires Inv(s) && a != NTE_ADDR
  {
    ResolveInv(s, a, pick);
    var (t, e) := Resolve(s, a, pick);
    var edge := t.edges[e];
    Taken(t.nodes[edge.src].region != NO_REGION && edge.tgt == NTE, e == LOOP, edge.tgt == NTE)
  }

  /** The three conditions in terms of where the automaton was and is. */
  lemma TakenMeans(s: State, a: nat, pick: nat)
    requires Inv(s) && a != NTE_ADDR
    ensures var k, t := TakenBy(s, a, pick), Step(s, a, pick);
            && (k.toNte <==> t.cur == NTE)
            && (k.loopsAtNte <==> s.cur == NTE && t.cur == NTE)
            && (k.exitsRegion <==> s.cur != NTE && t.cur == NTE)
            && (k.toNte ==> a !in s.entries)
  {
    ResolveInv(s, a, pick);
    QueryNextFinds(s, a);
    StepRefines(s, a, pick);
    if QueryNext(s, a).None? {
      AddNextInv(s, a, pick);
    }
  }

  datatype Recorder = Recorder(counters: Counters, recording: bool, lastAddr: nat, buffer: seq<nat>)

  const NO_RECORDING := Recorder(map[], false, 0, [])

  /** Start-of-trace points: exits from a region, and targets of backward jumps
      within `nte`. */
  predicate Profiles(k: Taken, lastAddr: nat, a: nat) {
    k.exitsRegion || (k.loopsAtNte && a < lastAddr)
  }

  predicate Stops(k: Taken, buffer: seq<nat>, lastAddr: nat, a: nat) {
    !k.toNte || |buffer| > MAX_INST_REG || (|buffer| > 1 && a < lastAddr)
  }

  /** Profiling: the counter goes up, and a hot address starts a recording. */
  function Profile(c: Config, r: Recorder, k: Taken, a: nat): Recorder {
    if !Profiles(k, r.lastAddr, a) then r
    else
      var p := Bumped(r.counters, a);
      if IsHot(c, p, a) && !r.recording then r.(counters := p, recording := true, buffer := [])
      else r.(counters := p)
  }

  predicate StopsAt(c: Config, r: Recorder, k: Taken, a: nat) {
    var q := Profile(c, r, k, a);
    q.recording && Stops(k, q.buffer, q.lastAddr, a)
  }

  /** One trace item. A recording that stops leaves its buffer to be built from. */
  function Record(c: Config, r: Recorder, k: Taken, a: nat): Recorder {
    var q := Profile(c, r, k, a);
    if !q.recording then q.(lastAddr := a)
    else if Stops(k, q.buffer, q.lastAddr, a) then q.(recording := false, lastAddr := a)
    else q.(lastAddr := a, buffer := if IsRegionAddrSpace(c, q.buffer, a) then q.buffer + [a] else q.buffer)
  }

  /** The item is a start-of-trace point: the automaton leaves a region for `nte`, or jumps
      back within it. */
  ghost predicate StartsTrace(s: State, t: State, lastAddr: nat, a: nat) {
    t.cur == NTE && (s.cur != NTE || a < lastAddr)
  }

  /** How often the address has been a start-of-trace point, this time included. */
  function CountNow(p: Counters, a: nat): nat {
    if a in p then p[a] + 1 else 1
  }

  /** Recording ends at a region, with more than 1000 addresses, or when from the second on
      the address falls. */
  ghost predicate EndsTrace(t: State, buffer: seq<nat>, lastAddr: nat, a: nat) {
    t.cur != NTE || |buffer| > 1000 || (|buffer| > 1 && a < lastAddr)
  }

  /** The buffer with the address, unless sides may not mix and it is on the other one. */
  function Buffered(c: Config, buffer: seq<nat>, a: nat): seq<nat> {
    if buffer == [] || c.mixUsrSys || (buffer[0] < c.systemThreshold <==> a < c.systemThreshold) then buffer + [a] else buffer
  }

  /** What a trace item makes of the recorder, in terms of where the automaton was and is. */
  lemma RecordIs(c: Config, r: Recorder, s: State, a: nat, pick: nat)
    requires Inv(s) && a != NTE_ADDR
    ensures var t, k := Step(s, a, pick), TakenBy(s, a, pick);
            var starts := StartsTrace(s, t, r.lastAddr, a) && CountNow(r.counters, a) >= c.hotThreshold && !r.recording;
            var active, buffer := r.recording || starts, if starts then [] else r.buffer;
            var stops := active && EndsTrace(t, buffer, r.lastAddr, a);
            && (StopsAt(c, r, k, a) <==> stops)
            && Record(c, r, k, a) ==
                 Recorder(if StartsTrace(s, t, r.lastAddr, a) then r.counters[a := CountNow(r.counters, a)] else r.counters,
                          active && !stops, a, if active && !stops then Buffered(c, buffer, a) else buffer)
  {
    hide Inv, Step;
    TakenMeans(s, a, pick);
  }

  // ---------- What holds while recording ----------

  ghost predicate SortedFromSecond(buffer: seq<nat>) {
    forall i, j :: 1 <= i < j < |buffer| ==> buffer[i] <= buffer[j]
  }

  ghost predicate OneMode(c: Config, buffer: seq<nat>) {
    c.mixUsrSys || forall i :: 0 <= i < |buffer| ==> !SwitchedMode(c, buffer[0], buffer[i])
  }

  /** The buffer of a recording in progress. */
  ghost predicate BufferOk(c: Config, r: Recorder, entries: map<nat, nat>) {
    && 1 <= |r.buffer| <= MAX_INST_REG + 1
    && SortedFromSecond(r.buffer)
    && (|r.buffer| > 1 ==> r.buffer[|r.buffer| - 1] <= r.lastAddr)
    && OneMode(c, r.buffer)
    && (forall i :: 0 <= i < |r.buffer| ==> r.buffer[i] !in entries)
    && IsHot(c, r.counters, r.buffer[0])
  }

  ghost predicate EntriesHot(c: Config, p: Counters, entries: map<nat, nat>) {
    forall a :: a in entries ==> IsHot(c, p, a)
  }

  ghost predicate RecorderOk(c: Config, r: Recorder, entries: map<nat, nat>) {
    && EntriesHot(c, r.counters, entries)
    && (r.recording ==> NonZero(r.buffer) && BufferOk(c, r, entries))
  }

  lemma ProfileKeeps(c: Config, r: Recorder, entries: map<nat, nat>, k: Taken, a: nat)
    requires RecorderOk(c, r, entries)
    ensures var q := Profile(c, r, k, a);
            && EntriesHot(c, q.counters, entries) && q.lastAddr == r.lastAddr
            && (q.recording && r.recording ==> q.buffer == r.buffer && NonZero(q.buffer) && BufferOk(c, q, entries))
            && (q.recording && !r.recording ==> q.buffer == [] && IsHot(c, q.counters, a) && Profiles(k, r.lastAddr, a))
            && (!q.recording ==> !r.recording)
  {
  }

  /** The recorder keeps its invariant; a recording stops only with a buffer that
      met it. */
  lemma RecordKeeps(c: Config, r: Recorder, entries: map<nat, nat>, k: Taken, a: nat)
    requires RecorderOk(c, r, entries) && a != NTE_ADDR
    requires k.exitsRegion || k.loopsAtNte ==> k.toNte
    requires k.toNte ==> a !in entries
    ensures RecorderOk(c, Record(c, r, k, a), entries)
    ensures StopsAt(c, r, k, a) ==>
              r.recording && Record(c, r, k, a).buffer == r.buffer && BufferOk(c, r, entries)
              && IsHot(c, Record(c, r, k, a).counters, r.buffer[0])
  {
    ProfileKeeps(c, r, entries, k, a);
    var q := Profile(c, r, k, a);
    if q.recording && !Stops(k, q.buffer, q.lastAddr, a) && IsRegionAddrSpace(c, q.buffer, a) {
      AppendKeeps(c, q, entries, a);
    }
  }

  lemma AppendKeeps(c: Config, q: Recorder, entries: map<nat, nat>, a: nat)
    requires NonZero(q.buffer) && a != NTE_ADDR && a !in entries
    requires (q.buffer == [] && IsHot(c, q.counters, a)) || BufferOk(c, q, entries)
    requires |q.buffer| <= MAX_INST_REG && (|q.buffer| > 1 ==> q.lastAddr <= a) && IsRegionAddrSpace(c, q.buffer, a)
    ensures NonZero(q.buffer + [a]) && BufferOk(c, q.(buffer := q.buffer + [a], lastAddr := a), entries)
  {
  }

  /** Registering the first recorded address as an entry keeps it too. */
  lemma NewEntryKeeps(c: Config, r: Recorder, entries: map<nat, nat>, a: nat, n: nat)
    requires RecorderOk(c, r, entries) && !r.recording && IsHot(c, r.counters, a)
    ensures RecorderOk(c, r, entries[a := n])
  {
  }

  /** Entries have pairwise distinct counters, so there are no more regions than
      counters. */
  lemma RegionsBoundedByCounters(c: Config, r: Recorder, entries: map<nat, nat>)
    requires RecorderOk(c, r, entries)
    ensures |entries| <= |r.counters|
  {
    assert entries.Keys <= r.counters.Keys;
    SubsetSize(entries.Keys, r.counters.Keys);
  }

  // ---------- The recorder as the techniques keep it ----------

  class TraceRecorder {
    const config: Config
    const profiler: Profiler
    var recording: bool
    var lastAddr: nat
    var recordingBuffer: seq<nat>

    ghost function Model(): Recorder
      reads this, profiler
    {
      Recorder(profiler.instrFreqCounter, recording, lastAddr, recordingBuffer)
    }

    constructor (config: Config)
      ensures this.config == config && fresh(profiler) && Model() == NO_RECORDING
    {
      this.config := config;
      profiler := new Profiler();
      recording, lastAddr, recordingBuffer := false, 0, [];
    }

    method ProfileTarget(k: Taken, curAddr: nat)
      modifies this, profiler
      ensures Model() == Profile(config, old(Model()), k, curAddr)
    {
      var profileTargetInstr := false;
      if k.exitsRegion {
        // where a region was left
        profileTargetInstr := true;
      }
      if k.loopsAtNte && curAddr < lastAddr {
        // where the interpreter jumped back to
        profileTargetInstr := true;
      }
      if profileTargetInstr {
        profiler.Update(curAddr);
        if IsHot(config, profiler.instrFreqCounter, curAddr) && !recording {
          recordingBuffer := [];
          recording := true;
        }
      }
    }

    /** What is left of a trace item once it has been profiled. */
    method RecordTarget(ghost before: Recorder, k: Taken, curAddr: nat) returns (stopRecording: bool)
      requires Model() == Profile(config, before, k, curAddr)
      modifies this
      ensures Model() == Record(config, before, k, curAddr)
      ensures stopRecording <==> StopsAt(config, before, k, curAddr)
    {
      stopRecording := false;
      if recording {
        if !k.toNte {
          // the automaton is in a region again
          stopRecording := true;
        } else if |recordingBuffer| > MAX_INST_REG {
          stopRecording := true;
        } else if |recordingBuffer| > 1 && curAddr < lastAddr {
          stopRecording := true;
        }
        if stopRecording {
          recording := false;
        } else if IsRegionAddrSpace(config, recordingBuffer, curAddr) {
          recordingBuffer := recordingBuffer + [curAddr];
        }
      }
      lastAddr := curAddr;
    }

    method Process(k: Taken, curAddr: nat) returns (stopRecording: bool)
      modifies this, profiler
      ensures Model() == Record(config, old(Model()), k, curAddr)
      ensures stopRecording <==> StopsAt(config, old(Model()), k, curAddr)
    {
      ghost var before := Model();
      ProfileTarget(k, curAddr);
      stopRecording := RecordTarget(before, k, curAddr);
    }
  }

  /** Executes the transition and reports what the edge says. */
  method Transition(rain: RAIn, curAddr: nat) returns (edg: nat, k: Taken, ghost pick: nat)
    requires rain.Valid() && curAddr != NTE_ADDR
    modifies rain
    ensures rain.Valid() && rain.State() == Step(old(rain.State()), curAddr, pick)
    ensures k == TakenBy(old(rain.State()), curAddr, pick)
    ensures edg == Resolve(old(rain.State()), curAddr, pick).1 && edg < |rain.edges|
    ensures rain.history == old(rain.history) + [StepHop(old(rain.State()), curAddr, pick)]
  {
    ghost var s := rain.State();
    edg, pick := rain.Advance(curAddr);
    ResolveInv(s, curAddr, pick);
    var edge := rain.edges[edg];
    k := Taken(rain.nodes[edge.src].region != NO_REGION && edge.tgt == NTE, edg == LOOP, edge.tgt == NTE);
  }
}
