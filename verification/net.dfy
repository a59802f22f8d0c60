/** Next Executing Tail. */
module Net {
  import opened Tea
  import opened Flow
  import opened Entries
  import opened Rain
  import opened RegionFormation
  import opened Recording

  datatype NetState = NetState(tea: State, rec: Recorder)

  function Start(loopInit: nat): NetState {
    NetState(Initial(loopInit), NO_RECORDING)
  }

  /** `NET::process`. */
  function NetStep(c: Config, s: NetState, a: nat, pick: nat): NetState
    requires Inv(s.tea) && (s.rec.recording ==> NonZero(s.rec.buffer)) && a != NTE_ADDR
  {
    var k, t := TakenBy(s.tea, a, pick), Step(s.tea, a, pick);
    var rec := Record(c, s.rec, k, a);
    NetState(if StopsAt(c, s.rec, k, a) then BuildIfAny(t, rec.buffer) else t, rec)
  }

  /** What every NET run keeps. */
  ghost predicate NetOk(c: Config, s: NetState) {
    Inv(s.tea) && EntriesIntact(s.tea) && RecorderOk(c, s.rec, s.tea.entries)
  }

  lemma NetKeeps(c: Config, s: NetState, a: nat, pick: nat)
    requires NetOk(c, s) && a != NTE_ADDR
    ensures NetOk(c, NetStep(c, s, a, pick))
    ensures var t := NetStep(c, s, a, pick).tea; EntriesKept(s.tea, t) && Grows(Step(s.tea, a, pick), t)
    ensures StopsAt(c, s.rec, TakenBy(s.tea, a, pick), a) ==>
              s.rec.buffer != [] && NetStep(c, s, a, pick).tea == BuildRegion(Step(s.tea, a, pick), s.rec.buffer)
  {
    hide Inv, BufferOk, EntriesIntact;
    var k, t := TakenBy(s.tea, a, pick), Step(s.tea, a, pick);
    TakenMeans(s.tea, a, pick);
    StepKeepsIntact(s.tea, a, pick);
    GrowsItself(t);
    RecordKeeps(c, s.rec, t.entries, k, a);
    if StopsAt(c, s.rec, k, a) {
      var rec := Record(c, s.rec, k, a);
      BuildKeepsIntact(t, rec.buffer);
      BuildRegionWithin(t, rec.buffer);
      NewEntryKeeps(c, rec, t.entries, rec.buffer[0], |t.nodes|);
    }
  }

  /** The whole step, in terms of where the automaton was and is. */
  lemma NetStepIs(c: Config, s: NetState, a: nat, pick: nat)
    requires NetOk(c, s) && a != NTE_ADDR
    ensures var t, r := Step(s.tea, a, pick), s.rec;
            var point, n := StartsTrace(s.tea, t, r.lastAddr, a), CountNow(r.counters, a);
            var starts := point && n >= c.hotThreshold && !r.recording;
            var active, buffer := r.recording || starts, if starts then [] else r.buffer;
            var stops := active && EndsTrace(t, buffer, r.lastAddr, a);
            && (stops ==> buffer != [])
            && NetStep(c, s, a, pick) ==
                 NetState(if stops && buffer != [] then BuildRegion(t, buffer) else t,
                          Recorder(if point then r.counters[a := n] else r.counters, active && !stops, a,
                                   if active && !stops then Buffered(c, buffer, a) else buffer))
  {
    hide Inv, Step, EntriesIntact, BuildRegion, BufferOk, Record;
    RecordIs(c, s.rec, s.tea, a, pick);
    NetKeeps(c, s, a, pick);
  }

  // ---------- Every run ----------

  function NetRun(c: Config, loopInit: nat, trace: seq<Item>): (s: NetState)
    requires IsTrace(trace)
    ensures NetOk(c, s)
  {
    if trace == [] then
      InitialInv(loopInit);
      Start(loopInit)
    else
      var s := NetRun(c, loopInit, trace[..|trace| - 1]);
      var item := trace[|trace| - 1];
      NetKeeps(c, s, item.addr, item.pick);
      NetStep(c, s, item.addr, item.pick)
  }

  /** The edges the items of a trace follow are what all counters of the run count. */
  ghost function NetHops(c: Config, loopInit: nat, trace: seq<Item>): (h: seq<Hop>)
    requires IsTrace(trace)
    ensures Consistent(NetRun(c, loopInit, trace).tea, h, loopInit)
  {
    if trace == [] then
      InitialConsistent(loopInit);
      []
    else
      var s, item := NetRun(c, loopInit, trace[..|trace| - 1]), trace[|trace| - 1];
      var h := NetHops(c, loopInit, trace[..|trace| - 1]);
      NetKeeps(c, s, item.addr, item.pick);
      ItemConsistent(s.tea, NetStep(c, s, item.addr, item.pick).tea, item.addr, item.pick, h, loopInit);
      h + [StepHop(s.tea, item.addr, item.pick)]
  }

  /** After any trace: a recording in progress holds a bounded, sorted, one-mode
      buffer of addresses that are no entries; every entry is hot; the cache in
      front of the entries is exact; there are no more regions than counters. */
  lemma NetTheorem(c: Config, loopInit: nat, trace: seq<Item>)
    requires IsTrace(trace)
    ensures var s := NetRun(c, loopInit, trace);
            && (s.rec.recording ==> BufferOk(c, s.rec, s.tea.entries))
            && EntriesHot(c, s.rec.counters, s.tea.entries)
            && (forall a :: a in s.tea.cache ==> a in s.tea.entries && s.tea.edges[s.tea.cache[a]].tgt == s.tea.entries[a])
            && |s.tea.regions| - 1 == |s.tea.entries| <= |s.rec.counters|
  {
    var s := NetRun(c, loopInit, trace);
    CachesAgree(s.tea);
    RegionsBoundedByCounters(c, s.rec, s.tea.entries);
  }

  // ---------- The technique itself ----------

  class NET {
    const rain: RAIn
    const recorder: TraceRecorder

    ghost function Model(): NetState
      reads rain, recorder, recorder.profiler
    {
      NetState(rain.State(), recorder.Model())
    }

    ghost predicate Valid()
      reads rain, recorder, recorder.profiler
    {
      rain.Valid() && NetOk(recorder.config, Model())
    }

    constructor (config: Config, loopCounter: nat)
      ensures Valid() && recorder.config == config && Model() == Start(loopCounter)
      ensures fresh(rain) && fresh(recorder) && fresh(recorder.profiler)
    {
      rain := new RAIn(loopCounter);
      recorder := new TraceRecorder(config);
    }

    method Process(curAddr: nat) returns (ghost pick: nat)
      requires Valid() && curAddr != NTE_ADDR
      modifies rain, recorder, recorder.profiler
      ensures Valid() && Model() == NetStep(recorder.config, old(Model()), curAddr, pick)
      ensures rain.history == old(rain.history) + [StepHop(old(rain.State()), curAddr, pick)]
    {
      hide Inv, Consistent;
      ghost var s := Model();
      var edg, k;
      edg, k, pick := Transition(rain, curAddr);
      NetKeeps(recorder.config, s, curAddr, pick);
      var stopRecording := recorder.Process(k, curAddr);
      if stopRecording {
        assert recorder.recordingBuffer != [];
        var _ := BuildRegionIn(rain, recorder.recordingBuffer);
      }
    }
  }
}
