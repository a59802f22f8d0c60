# RAIn: a verified model

RAIn replays an instruction trace through a Trace Execution Automaton. Its nodes
are code addresses grouped into regions, and one more node, `nte`, stands for the
interpreter. Region formation techniques watch the automaton and grow new regions
while the trace runs. This project models the automaton, six of the techniques, the
statistics computed from the counters, and two small parts of the ELFIO library the
repository carries, and proves what they keep over every run.

## How it is built

The automaton is modelled twice. `Tea.State` is the automaton as a value, with one
function for each operation; `Rain.RAIn` is the object whose fields the operations
update, each method proved against the function of the same step. Laws are proved
about the functions and so hold of the object. The techniques follow the same plan:
a state value with a step function (NET, MRET2, Trace Tree, LEI) or a step relation
where the source iterates over unordered containers (NET+, LEF), and a class whose
`Process` takes exactly that step. A run is a trace of any length from the initial
automaton.

| file | models |
|---|---|
| `edge_lists.dfy` | linked edge lists, relinked in place by move-to-front lookup |
| `tea.dfy`, `rain.dfy` | the automaton: queries, lazily made edges, cache, growth |
| `flow.dfy` | counters against the history of executed edges; conservation laws |
| `entries.dfy` | region entries and the cache in front of them |
| `region_formation.dfy`, `recording.dfy` | profiler, thresholds, region construction, the recorder NET, NET+ and LEF share |
| `net.dfy`, `mret2.dfy`, `tt.dfy` | NET, MRET2, Trace Tree |
| `instruction_set.dfy`, `routes.dfy`, `paths.dfy`, `exploration.dfy`, `netplus.dfy`, `open_loop.dfy` | NET+: static code, search, path rebuilding, expansion, a loop that stays open |
| `lef.dfy` | LEF |
| `branch_history.dfy`, `lei.dfy`, `lei_regions.dfy` | LEI: branch history, index, trace formation, the regions that are formed |
| `statistics.dfy` | cover sets, region and external entry frequencies |
| `segment_order.dfy` | ELFIO: order of segments |
| `elf_section.dfy`, `elf_notes.dfy` | ELFIO: growable section data, note sections |
| `wrappers.dfy` | option type and a set lemma |

Node 0 is `nte` and region 0 the null region, as the source reserves id 0. The
address of `nte` is 0, and trace addresses are not 0: the trace converter rewrites 0
to 1 (`tracegenerator/trace_converter.cpp:84-86`). Where the source scans a set
ordered by pointers (`Region::getNode`), any node with the address may come first; a
parameter `pick` says which, and everything is proved for every `pick`.

## Where the code does not do what one would expect

The model follows the code. These are proved, each with the exact condition where
there is one.

- An edge counter starts at 1, not 0 (`rainlib/rain.h:97`), and the counter of
  `nte_loop_edge` is never initialised (`rainlib/rain.h:96`, `rainlib/rain.h:226-229`).
  So the counters of the in-edges of a node add up to the counter of the node and one
  for each of them, and equal it only when nothing leads to the node
  (`Flow.InCountersOfNode`). Conservation holds of traversals, the counters less
  their start (`Flow.CounterFlow`, `Flow.CounterFlowOfRegion`). The external entries
  reported are the entries into the region and one more for each edge counted, exactly
  when the region was only entered at entry nodes (`Statistics.ExternalEntriesIff`);
  that is always so with NET, NET+, MRET2 and Trace Tree
  (`Statistics.ExternalEntriesExact`), and need not be so after LEF has replaced an
  entry node.
- `MRET2::mergePhases` stops at the first occurrence of the last address of either
  recording, so two identical recordings of a loop that ends at its header merge into
  the header alone (`Mret2.MergeCutsLoops`); `Mret2.MergeIsLongestIff` says exactly
  when the merge is the longest common prefix.
- Trace Tree grafts without looking for an existing edge. This is right because its
  buffer is never empty when it grafts (`TT.ExpandInv`, `TT.TtRun`); with an empty one
  it would make a duplicate edge exactly when the node already led to the header
  (`TT.EmptyGraft`).
- LEI cuts its history back after forming a trace and then no longer knows the target
  the trace was formed for, though it is still in the history
  (`BranchHistory.CutLosesTarget`, `BranchHistory.CutCompleteIff`).
- NET+ does not close every loop that a branch it finds could close. A target is walked
  from once, for the branch that reached it first; a later branch with the same target
  gets no edge to it (`Exploration.OneBranchPerTarget`). And no loop is closed over a
  target that a branch of the region jumps to, or that is one
  (`Exploration.RootsCloseNone`): walks on behalf of the region's own branches do not
  close loops. `OpenLoop.OneLoopStaysOpen` and `OpenLoop.RegionLoopStaysOpen` give a
  region and code for each. `Exploration.AllLoopsIff` is exact: take a target that a
  branch within reach jumps to, from which a walk comes back to the entry, and to which
  branches within reach have no edge yet and no other way than to jump. Then one of them
  gets its edge if and only if the target is no branch of the region, none jumps to it,
  and modes may mix or it is on the side of the threshold the region is entered on; and
  all of them do if and only if, besides, there is only one.
- LEI's walk does not advance when the mode switches (`rainlib/RFTs/lei.cpp:76-98`).
  `Lei.EndlessIff` says exactly when forming a trace never ends, from the code, the
  history and the region entries alone, `Lei.StepHangsIff` when a trace item does not,
  and `Lei.LeiRunIff` when a run gets stuck. `Lei.LoopAcrossThreshold` gives a loop on
  which it does; when modes may mix or all code is on one side it never does
  (`Lei.LeiTheorem`).
- In LEF the entry addresses of a region do not change while it absorbs others, so
  the loop to a fixpoint finds nothing in its second round (`Lef.NoneLeft`), and the
  branch for a call target that is missing after a merge is never taken
  (`Lef.LEF.EnterAtCall`).
- ELFIO's `is_subsequence_of` uses `std::includes`, which is exact on sorted section
  lists (`SegmentOrder.IncludesIff`) but misses containments on others
  (`SegmentOrder.UnsortedUnnoticed`). That all containments are noticed is exactly what
  keeps the rotation from putting a segment before one that strictly contains its
  sections, in whatever order the worklist is (`SegmentOrder.NoticedIff`), and the
  whole function when no segment is at offset 0 (`SegmentOrder.NoticedIffOrdered`); one
  at offset 0 may come first without being noticed (`SegmentOrder.FrontedUnnoticed`).
  For one given order `SegmentOrder.LargerFirstIff` says exactly when none comes too
  early, and `SegmentOrder.GetOrderedSegments` says so of the whole function.
- The loop that brings segments at offset 0 to the front skips the first segment and
  then gives its slot away; `SegmentOrder.FrontedIff` says exactly when all of them
  come first, `SegmentOrder.FirstIsLeftBehind` gives a list on which one does not.
- `get_note` compares the index with the size of the section in bytes, so the first
  index past the notes is not turned down (`ElfNotes.GuardTooWide`), and `add_note`
  with a null descriptor of a size that is not 0 derails the scan
  (`ElfNotes.StepIff`).
- `append_data` doubles a 32-bit capacity; `ElfSection.NoRoomWhenWrapped` gives sizes
  at which the product wraps and the data would not fit.

## Model

| member | source | states |
|---|---|---|
| `EdgeLists.OutEdgeList.FindOutEdge` | rainlib/rain.cpp:89-111 | on the linked list: an edge is found exactly when one has the address, it is the first such edge, it ends up at the head with every other item in its order, the list stays acyclic and a permutation of itself, and a miss changes nothing |
| `EdgeLists.OutEdgeList.Relink` | rainlib/rain.cpp:98-103 | the three pointer assignments are a move to front of the chain of items |
| `EdgeLists.OutEdgeList.InsertEdge` | rainlib/rain.cpp:135-138 | a new item in front of the chain, all others untouched |
| `EdgeOrder.MoveToFrontPermutes` | rainlib/rain.cpp:98-103 | move to front permutes the list |
| `EdgeOrder.MoveToFrontDistinct` | rainlib/rain.cpp:98-103 | and keeps it free of repetitions |
| `Tea.FindOutFinds` | rainlib/rain.cpp:89-111 | in a well-formed automaton the lookup yields the one edge of the node that leads to the address, exactly when there is one |
| `Tea.AfterFindOutInv` | rainlib/rain.cpp:89-111 | the reordering a lookup leaves keeps the automaton well formed |
| `Tea.QueryNextFinds` | rainlib/rain.cpp:284-308 | the query gives the edge of the current node to the address if there is one, the loop edge exactly when `nte` has neither edge nor entry, and otherwise nothing |
| `Tea.AddNextGuard` | rainlib/rain.cpp:310-358 | `addNext` never makes a second edge to an address |
| `Tea.AddNextInv` | rainlib/rain.cpp:310-358 | the edge it returns leaves the current node for the entry, the same-region node or `nte`, and the automaton stays well formed and deterministic |
| `Tea.CreateInnerEdgeInv` | rainlib/rain.cpp:275-281 | an inner edge keeps the automaton well formed when its source had none to that address: the debug assertion on duplicates holds |
| `Tea.CreateInterEdgeInv` | rainlib/rain.cpp:400-415 | so does an edge between regions, cache of `nte` included |
| `Tea.ResolveInv` | rainlib/rain.cpp:284-358 | the edge followed always leaves the current node and leads to `nte` or to the address of the trace item |
| `Tea.StepRefines` | rainlib/rain.cpp:284-380 | lists, cache and lazy edges do not show: a trace item follows the out-edge with the address, else goes to the region entry, else to a node of the same region, else to `nte` |
| `Tea.AddNextLeads` | rainlib/rain.cpp:310-358 | without naming the lookup: the edge that is added leaves the current node for the registered entry of the address; when there is no entry for a node of the same region with the address; when there is none either for `nte`; and no other edge is new |
| `Tea.StepLeads` | rainlib/rain.cpp:284-380 | the same of a whole trace item: along the edge there is, else to the registered entry, else to a node of the same region, else to `nte` |
| `Tea.StepEdge` | rainlib/rain.cpp:284-380 | the edge followed leads from where the automaton was to where it is, and it is the only new one, if any |
| `Tea.StepCounts` | rainlib/rain.cpp:360-380 | `executed_freq`, the counter of the node come to and that of the edge followed go up by one, every other node and edge counter stays, and `region_transitions` goes up exactly when both ends are in regions and in different ones |
| `Tea.StepCountsExpansion` | rainlib/rain.cpp:368-371 | the expansion counter goes up exactly when the node come to is in a region that has absorbed another |
| `Flow.ExecuteCounts` | rainlib/rain.cpp:360-380 | executing any edge, also one that does not leave the current node, keeps every counter equal to what the history of executed edges says |
| `Flow.ExecuteConsistent` | rainlib/rain.cpp:360-380 | and the history stays a walk when the edge leaves the current node |
| `Flow.StepConsistent` | rainlib/rain.cpp:284-380 | so does a whole trace item, with the edge it followed added to the history |
| `Flow.GrowthConsistent` | rainlib/rain.cpp:382-415 | adding nodes, edges and regions does not disturb the counters |
| `Flow.ItemConsistent` | rainlib/rain.cpp:284-415 | so does a trace item together with whatever grows because of it |
| `Flow.RunsAreConsistent` | rainlib/rain.cpp:284-380 | after every run of transitions and growth there is a history that every node, edge, executed and transition counter agrees with |
| `Flow.NodeFlow` | rainlib/rain.cpp:360-380 | over every history arrivals at a node and departures from it differ only at the start and where the automaton rests |
| `Flow.RegionFlow` | rainlib/rain.cpp:360-380 | entries of a region exceed its exits by one exactly while the automaton is in it |
| `Flow.CountersOfKind` | rainlib/rain.cpp:360-365 | the counters of all edges of a kind add up to the number of such edges and the number of such executions |
| `Flow.InCountersOfNode` | rainlib/rain.cpp:360-366 | the in-edge counters of a node add up to its own counter and one for each; they equal it if and only if it has no in-edge |
| `Flow.CounterFlow` | rainlib/rain.cpp:360-366 | read off the counters, traversals into a region node exceed those out of it by one exactly while the automaton rests there |
| `Flow.CounterFlowAtNte` | rainlib/rain.cpp:284-366 | the same at `nte`, whose loop edge counts on both sides |
| `Flow.CounterFlowOfRegion` | rainlib/rain.cpp:360-380 | read off the counters, external traversals into a region exceed those out of it by one exactly while the automaton is in it |
| `Flow.TransitionsAreTraversals` | rainlib/rain.cpp:373-379 | `region_transitions` is the number of traversals of edges that join two different regions |
| `Flow.Accounting` | rainlib/rain.cpp:423-429 | the frequencies of all regions and of `nte` add up to `executed_freq` |
| `Flow.RegionsDisjoint` | rainlib/rf_techniques.h:114-116 | a node is put into one region when it is made (`insertNode`, `rain.h:127-130`), so no node belongs to two |
| `Entries.CacheAgrees` | rainlib/rain.cpp:284-302 | the edge cached for an address leads to the node registered as its entry |
| `Entries.StepEntersAtEntry` | rainlib/rain.cpp:310-358 | a trace item keeps every edge from outside a region on a registered entry |
| `Entries.FromNte` | rainlib/rain.cpp:284-302 | from `nte` the automaton goes to the registered entry, and stays exactly when there is none |
| `Entries.CrossingLandsOnEntry` | rainlib/rain.cpp:310-358 | whatever crosses into a region lands on the registered entry |
| `Entries.StepOuts` | rainlib/rain.cpp:310-358 | a trace item gives no other node an edge, and the current node none while the automaton leaves for `nte` |
| `Entries.StepKeepsRegistered` | rainlib/rain.cpp:310-358 | entry nodes of regions and registered entries stay in agreement |
| `Entries.StepKeepsIntact` | rainlib/rain.cpp:284-380 | after a trace item the cache is still exact, entries registered, and as many as regions |
| `Entries.GrowthKeepsIntact` | rainlib/RFTs/netplus.cpp:123-150 | so they are after growth inside regions |
| `Rain.RAIn.FindOutEdge` | rainlib/rain.cpp:89-111 | the object finds and reorders as the specification does |
| `Rain.RAIn.GetNode` | rainlib/rain.cpp:241-245 | some node of the region with the address, if there is one |
| `Rain.RAIn.QueryNext` | rainlib/rain.cpp:284-308 | the query on the object |
| `Rain.RAIn.AddNext` | rainlib/rain.cpp:310-358 | the new or reused edge on the object, its branches included; the edge leads where the registered entry, a node of the same region and `nte`, in this order, say |
| `Rain.RAIn.CreateInnerRegionEdge` | rainlib/rain.cpp:275-281 | the edge at the head of both lists and among the inner edges, counters still those of the history |
| `Rain.RAIn.CreateInterRegionEdge` | rainlib/rain.cpp:400-415 | the same between regions, with the cache of `nte` |
| `Rain.RAIn.ExecuteEdge` | rainlib/rain.cpp:360-380 | current node and all counters for any edge, and the history grows by this edge |
| `Rain.RAIn.Advance` | rainlib/RFTs/net.cpp:38-42 | query, add and execute: one step of the automaton |
| `Rain.RAIn.SetEntry` | rainlib/rain.cpp:391-394 | the entry is registered and becomes an entry node of its region |
| `RegionFormation.Profiler.Update` | rainlib/rf_utils.h:86-97 | the counter starts at 1 or goes up by 1 |
| `RegionFormation.Profiler.Reset` | rainlib/rf_utils.h:99-104 | the counter goes to 3; it must exist, as the source asserts |
| `RegionFormation.BuildRegionIn` | rainlib/rf_techniques.h:103-141 | building on the object: nothing from an empty buffer, else one region with a node per address, consecutive addresses linked, the first the entry, the last the exit |
| `RegionFormation.BuildRegionWithin` | rainlib/rf_techniques.h:103-141 | building a region leaves all other regions, nodes, edges and counters as they are and registers exactly the first address |
| `RegionFormation.BuildRegionEntersAtEntry` | rainlib/rf_techniques.h:119-125 | when the first address was no entry, edges from outside still land on registered entries |
| `RegionFormation.BuildKeepsIntact` | rainlib/rf_techniques.h:103-141 | then no entry is overwritten, the debug assertion holds: all old entries are kept, the cache stays exact, and there is one entry for every region |
| `RegionFormation.BuildRegionRegistered` | rainlib/rf_techniques.h:119-125 | entry nodes and registered entries stay in agreement |
| `Paths.BuiltIs` | rainlib/rf_techniques.h:103-141 | a region built from a recording, written out: its addresses are the recorded ones, each once, each linked to the next, every new edge leads from one to the next, the one entry node is at the first and the one exit node at the last |
| `Recording.TakenMeans` | rainlib/RFTs/net.cpp:46-54 | the conditions read off the edge, in terms of where the automaton was and is |
| `Recording.RecordKeeps` | rainlib/RFTs/net.cpp:56-98 | while recording the buffer holds 1 to 1001 addresses, ascending from the second on, of one mode, none an entry, the first of them hot; a recording stops only with such a buffer |
| `Recording.RecordIs` | rainlib/RFTs/net.cpp:46-98 | the recorder written out: a start-of-trace point is an item that leaves a region for `nte` or jumps back within it, only such are counted, the count reaching the threshold starts a recording with an empty buffer, and a recording ends at a region, above 1000 addresses, or when from the second on the address falls |
| `Recording.RegionsBoundedByCounters` | rainlib/rf_utils.h:80-127 | there are no more entries than profile counters |
| `Recording.TraceRecorder.Process` | rainlib/RFTs/net.cpp:46-98 | profiling and recording on the object |
| `Recording.Transition` | rainlib/RFTs/net.cpp:38-42 | the step of the automaton, what the techniques read off its edge, and the edge in the history |
| `Net.NetKeeps` | rainlib/RFTs/net.cpp:36-99 | a step keeps the invariant, keeps every entry as it is, and a recording that stops is never empty and becomes a region |
| `Net.NetStepIs` | rainlib/RFTs/net.cpp:36-99 | the whole step written out, the region included |
| `Net.NetTheorem` | rainlib/RFTs/net.cpp:36-99 | after every trace: bounded, sorted, one-mode recording, every entry hot, cache exact, as many regions as entries and no more than counters |
| `Net.NetHops` | rainlib/RFTs/net.cpp:36-99 | every counter of a run counts the edges that the items of its trace follow |
| `Net.NET.Process` | rainlib/RFTs/net.cpp:36-99 | the object takes exactly the step, and its history grows by the edge of the item |
| `Mret2.Merge` | rainlib/RFTs/mret2.cpp:37-70 | what is kept is a prefix of both recordings, empty exactly when they differ at once or one is empty |
| `Mret2.MergeIsLongestIff` | rainlib/RFTs/mret2.cpp:54-67 | it is the longest common prefix if and only if no recording meets its own last address before the end of that prefix |
| `Mret2.MergeIsLongest` | rainlib/RFTs/mret2.cpp:54-67 | in particular when the last address of each occurs once |
| `Mret2.MergeCutsLoops` | rainlib/RFTs/mret2.cpp:54-67 | a loop recorded twice is merged into its header |
| `Mret2.MergePhases` | rainlib/RFTs/mret2.cpp:37-70 | the loop computes the merge and never indexes out of range |
| `Mret2.MergedWith` | rainlib/RFTs/mret2.cpp:72-76 | the merge is with the first recording of the same header, and empty when the ring has lost it |
| `Mret2.MRET2.GetStoredIndex` | rainlib/RFTs/mret2.cpp:72-76 | the first slot whose recording starts with the header, else slot 0 |
| `Mret2.FinishKeeps` | rainlib/RFTs/mret2.cpp:138-157 | a header is stored once and for the first time; a region comes from a prefix of both recordings of its header and overwrites no entry |
| `Mret2.Mret2Keeps` | rainlib/RFTs/mret2.cpp:88-165 | the same of a whole step, also after the ring has wrapped; every old entry is kept and there is one entry for every region |
| `Mret2.Mret2StepIs` | rainlib/RFTs/mret2.cpp:88-165 | the whole step written out: what starts and ends a recording, the slot it is stored in and the next one, the phases, and what it is merged with |
| `Mret2.RingHolds` | rainlib/RFTs/mret2.cpp:140-147 | over every run, each of the last 10000 recordings stored is still in its slot |
| `Mret2.Mret2Run` | rainlib/RFTs/mret2.cpp:88-165 | every run keeps the invariant |
| `Mret2.Mret2Theorem` | rainlib/RFTs/mret2.cpp:88-165 | after every trace the cache is exact and there are as many entries as regions |
| `Mret2.Mret2Hops` | rainlib/RFTs/mret2.cpp:88-165 | every counter of a run counts the edges that the items of its trace follow |
| `Mret2.MRET2.Process` | rainlib/RFTs/mret2.cpp:88-165 | the object takes exactly the step, and its history grows by the edge of the item |
| `TT.ExpandInv` | rainlib/RFTs/tt.cpp:36-50 | a graft makes no second edge to an address although it never looks, and stays within the region |
| `TT.ExpandAdds` | rainlib/RFTs/tt.cpp:36-50 | what a graft adds, all of it: one new node for each recorded address, edges from the exit node along them, and one from the last to the header |
| `TT.ExpandChains` | rainlib/RFTs/tt.cpp:36-50 | so exit node, recorded addresses and header are a chain of inner edges |
| `TT.EmptyGraft` | rainlib/RFTs/tt.cpp:47 | with nothing recorded the edge is a duplicate exactly when the node already led to the header |
| `TT.SideExitStarts` | rainlib/RFTs/tt.cpp:63-68 | at a side exit the node does not lead to the address that follows |
| `TT.SideExitContinues` | rainlib/RFTs/tt.cpp:80-118 | while a side exit is recorded it still does not, and the region is re-entered only through a header |
| `TT.TtStep` | rainlib/RFTs/tt.cpp:52-163 | a step keeps the automaton deterministic, every entry as it is and the recording graftable |
| `TT.TtStepIs` | rainlib/RFTs/tt.cpp:52-163 | the whole step written out: what opens a side exit or a trace, the limits, when the region is expanded or built, and what is recorded otherwise |
| `TT.TtRun` | rainlib/RFTs/tt.cpp:52-163 | so does every run |
| `TT.TtHops` | rainlib/RFTs/tt.cpp:52-163 | every counter of a run counts the edges that the items of its trace follow |
| `TT.TraceTree.ExpandSideExit` | rainlib/RFTs/tt.cpp:36-50 | the chain from the exit node over new nodes to the header, on the object |
| `TT.TraceTree.Process` | rainlib/RFTs/tt.cpp:52-163 | the object takes exactly the step, and its history grows by the edge of the item |
| `Instructions.InstructionSet.Find` | rainlib/rf_utils.h:54-56 | the position of an address in address order, or the end |
| `Instructions.InstructionSet.AddInstruction` | rainlib/rf_utils.h:70-73 | the instruction is added or replaced, the order kept |
| `Instructions.InstructionSet.Learn` | rainlib/RFTs/netplus.cpp:245-246 | an instruction that is not known yet is put in its place in address order |
| `Routes.RouteTo` | rainlib/RFTs/netplus.cpp:199-213 | from `parent` and `next` a branch has a route back to the region with as many hops as its distance |
| `Routes.RouteIsTree` | rainlib/RFTs/netplus.cpp:199-213 | on that route every branch was the first to reach its target |
| `Routes.LoopRouteOk` | rainlib/RFTs/netplus.cpp:191-214 | the path that closes a loop starts at a branch of the region, follows the code, passes no entry on its way and ends where the walk stopped |
| `Paths.AddNewPath` | rainlib/RFTs/netplus.cpp:123-150 | the reversed path added to the region, each address with a node and an edge from the one before |
| `Paths.NewAddrsAre` | rainlib/RFTs/netplus.cpp:137-142 | what a path appends to the recording buffer is what it adds to the region, in order |
| `Paths.BuiltReachable` | rainlib/rf_techniques.h:103-141 | in a region just built every address is reachable from the entry by inner edges |
| `NetPlus.RebuildPath` | rainlib/RFTs/netplus.cpp:195-213 | the loop over `parent` and `next` ends and writes down exactly that path, backwards |
| `NetPlus.PathExpands` | rainlib/RFTs/netplus.cpp:123-150 | adding a loop-closing path: every node of the region stays reachable from the entry, every added node is no entry, lies on a route within the depth limit and leads back to the entry, every added edge follows the code |
| `NetPlus.SearchCloses` | rainlib/RFTs/netplus.cpp:191-217 | closing a loop keeps the search sound, and adds only edges that go on in the code or from the branch that reached a target first |
| `NetPlus.LoopIsAdded` | rainlib/RFTs/netplus.cpp:191-217 | the whole loop is a chain of inner edges then |
| `NetPlus.Frontier.Push` | rainlib/RFTs/netplus.cpp:224-227 | a branch is put into the queue once, when it gets its distance |
| `Exploration.WalkScans` | rainlib/RFTs/netplus.cpp:190-231 | a walk finds the branch it stops at; where it comes back to the entry, past branches known already or none, it leaves the whole loop through the branch it came from in the region |
| `Exploration.KnownPasses` | rainlib/RFTs/netplus.cpp:222-231 | a walk goes past branches that were found no further away than the one it came from |
| `Exploration.RouteIsFound` | rainlib/RFTs/netplus.cpp:152-234 | breadth first: every branch that a route of such walks comes to is found, within as many hops as the route has |
| `Exploration.SearchIsComplete` | rainlib/RFTs/netplus.cpp:152-234 | when the queue is empty, wherever such a branch jumps to code from which a walk comes back to the entry, the target is no branch of the region and none jumps there, and modes may mix or the target is on the side of the threshold the region is entered on, the region has the whole loop through the branch that reached the target first, in no more hops; other branches get no edge to the target |
| `Exploration.RootsCloseNone` | rainlib/RFTs/netplus.cpp:183-219 | over a target that a branch of the region jumps to, or that is one, no loop back to the entry is closed |
| `Exploration.OtherSideGetsNone` | rainlib/RFTs/netplus.cpp:190-191 | when modes may not mix, a target on the other side of the threshold gets no edge |
| `Exploration.AllLoopsIff` | rainlib/RFTs/netplus.cpp:183-219 | where a walk from a target, on either side of the threshold, would come back to the entry and branches within reach have no edge to it yet and no other way there, some branch gets its edge if and only if the target is no branch of the region, none jumps to it, and modes may mix or it is on the side the region is entered on; all do if and only if, besides, there is only one |
| `Exploration.OneBranchPerTarget` | rainlib/RFTs/netplus.cpp:183-186 | of several branches that jump to a target only one gets an edge to it |
| `OpenLoop.OneLoopStaysOpen` | rainlib/RFTs/netplus.cpp:183-186 | a region and code, with modes mixed or all of it below the threshold, where two branches jump to the same target and the loop through exactly one of them is closed |
| `OpenLoop.RegionLoopStaysOpen` | rainlib/RFTs/netplus.cpp:194-219 | a region and code where a single branch jumps back, and its loop stays open because it is a branch of the region |
| `OpenLoop.LoopsAcrossStayOpen` | rainlib/RFTs/netplus.cpp:190-191 | the first of these with the target below the threshold and the region above: neither loop is closed |
| `NetPlus.NETPlus.InitFrontier` | rainlib/RFTs/netplus.cpp:158-174 | the queue starts with exactly the branches of the region that are no entries, each once |
| `NetPlus.NETPlus.Expand` | rainlib/RFTs/netplus.cpp:152-234 | the expansion terminates, adds only what it should and closes the loops it searches for, on the side of the threshold the region is entered on and on no other |
| `NetPlus.NetPlusKeeps` | rainlib/RFTs/netplus.cpp:237-310 | a step keeps every entry as it is and hot, the recording sound and within the known code |
| `NetPlus.NetPlusMovesIs` | rainlib/RFTs/netplus.cpp:237-310 | the whole step written out: when a recording ends a region is built from it and expanded, and otherwise only the automaton and the recorder move |
| `NetPlus.NetPlusTheorem` | rainlib/RFTs/netplus.cpp:237-310 | so does every moment of every run |
| `NetPlus.NetPlusCounted` | rainlib/RFTs/netplus.cpp:237-310 | at every moment every counter counts the edges that the items so far have followed |
| `NetPlus.NETPlus.Process` | rainlib/RFTs/netplus.cpp:237-310 | the object takes such a step, and its history grows by the edge of the item |
| `Lef.MergeRegions` | rainlib/RFTs/lef.cpp:59-73 | every address of the merged region is in the other one, nothing else changes but the two flags |
| `Lef.AbsorbNeighbor` | rainlib/RFTs/lef.cpp:103-118 | after a merge the target of the call that made the merged region is in the region |
| `Lef.SameEntryAddrs` | rainlib/RFTs/lef.cpp:103 | merging does not change which addresses are entries of the region |
| `Lef.NoneLeft` | rainlib/RFTs/lef.cpp:83-122 | after an expansion without a call exit no region that is alive has a compatible exit to an entry of the region |
| `Lef.NeighborIff` | rainlib/RFTs/lef.cpp:89-103 | a region is a neighbour exactly when it is alive and has an exit to an entry address of the region, from the same side of the threshold unless sides may mix |
| `Lef.ExpansionAbsorbs` | rainlib/RFTs/lef.cpp:79-127 | an expansion without a call exit absorbs every such region and no other, with all its addresses, and leaves none that is alive with such an exit |
| `Lef.CallExitAbsorbs` | rainlib/RFTs/lef.cpp:79-127 | with a call exit it absorbs only such regions, one of them from a call, and is then entered only where that call led |
| `Lef.AbsorbsNeighbor` | rainlib/RFTs/lef.cpp:97-107 | one neighbour on the same side, absorbed |
| `Lef.KeepsAcrossThreshold` | rainlib/RFTs/lef.cpp:97-99 | one on the other side, left as it is |
| `Lef.LefMarks` | rainlib/RFTs/lef.cpp:129-217 | what an item makes of the recorded exits, the marks of calls and returns and the automaton, written out |
| `Lef.ReturnIsExit` | rainlib/RFTs/lef.cpp:198-202 | the node at the last return of a recording becomes an exit of the region |
| `Lef.LEF.EnterAtCall` | rainlib/RFTs/lef.cpp:111-118 | the lookup of the call target never fails, and it becomes the only entry node |
| `Lef.LEF.Round` | rainlib/RFTs/lef.cpp:89-121 | one round absorbs all neighbours, or ends at one that came from a call |
| `Lef.LEF.ExpandRegion` | rainlib/RFTs/lef.cpp:79-127 | the expansion terminates with exactly the neighbours absorbed, or at a call exit |
| `Lef.LefKeeps` | rainlib/RFTs/lef.cpp:129-217 | a step keeps every registered entry as it is and hot, and every mark of a call an address of its region |
| `Lef.LefTheorem` | rainlib/RFTs/lef.cpp:129-217 | so does every moment of every run |
| `Lef.LefCounted` | rainlib/RFTs/lef.cpp:129-217 | at every moment every counter counts the edges that the items so far have followed |
| `Lef.LEF.Process` | rainlib/RFTs/lef.cpp:129-217 | the object takes such a step, and its history grows by the edge of the item |
| `BranchHistory.AddKeeps` | rainlib/RFTs/lei.cpp:38-44 | across an insertion, with or without a clear, every index entry is the last position of its target and the history has at most 2001 branches |
| `BranchHistory.PreviousTime` | rainlib/RFTs/lei.cpp:135-147 | the position found is the previous time the target was reached; it was not reached in between |
| `BranchHistory.CutKeeps` | rainlib/RFTs/lei.cpp:149-152 | cutting the history back keeps the index right and loses exactly the targets reached after the cut |
| `BranchHistory.AddComplete` | rainlib/RFTs/lei.cpp:38-44 | an insertion keeps the index complete |
| `BranchHistory.CutCompleteIff` | rainlib/RFTs/lei.cpp:149-152 | a cut keeps it complete if and only if no target that stays is among those cut off |
| `BranchHistory.CutLosesTarget` | rainlib/RFTs/lei.cpp:149-152 | the cut after a trace always loses the target of the trace |
| `BranchHistory.History.Add` | rainlib/RFTs/lei.cpp:133-168 | insertion, lookup and update of the index on the object |
| `BranchHistory.History.CutBack` | rainlib/RFTs/lei.cpp:149-152 | the two erasures on the object |
| `Lei.FormFrom` | rainlib/RFTs/lei.cpp:63-110 | forming a trace, its recursion included, only adds to the automaton and keeps it well formed, if it ends |
| `Lei.ForeverIff` | rainlib/RFTs/lei.cpp:76-98 | a walk never ends if and only if it comes to an instruction on the other side of the threshold |
| `Lei.WalkHalts` | rainlib/RFTs/lei.cpp:76-98 | where a walk ends, how, and which addresses the region then has, told from code and entries alone |
| `Lei.EndlessIff` | rainlib/RFTs/lei.cpp:63-110 | forming a trace, its recursion included, never ends if and only if a condition on code, history and entries holds |
| `Lei.StepHangsIff` | rainlib/RFTs/lei.cpp:119-173 | processing an item never ends if and only if it makes a trace whose forming never ends |
| `Lei.OneSidedForms` | rainlib/RFTs/lei.cpp:63-110 | when modes mix or all code is on one side a trace is always formed |
| `Lei.LoopAcrossThreshold` | rainlib/RFTs/lei.cpp:76-98 | a loop on which it is not |
| `Lei.FormOnTrace` | rainlib/RFTs/lei.cpp:46-110 | every edge of the regions formed goes on to the next instruction of the code, or to the target of a branch of the history from where the branch starts, or from the last instruction of the code when the walk missed the branch |
| `LeiRegions.PlaceNew` | rainlib/RFTs/lei.cpp:46-61 | an instruction the region does not have gets a node and one edge to it, from the node the walk was at; the first is the one entry node and is registered |
| `LeiRegions.FormRoots` | rainlib/RFTs/lei.cpp:63-110 | in every region formed, those of the recursion included, inner edges lead from the address it is entered at, the hot target or the target of a branch of the history, to each of its addresses, and it has one exit node |
| `LeiRegions.LoopIsFormed` | rainlib/RFTs/lei.cpp:63-110 | a hot loop becomes the region of its instructions in order: each is linked to the next, there are no other edges, it is entered at the first and left from the last |
| `LeiRegions.StopsAtTrace` | rainlib/RFTs/lei.cpp:78-82 | the region ends before the start of another trace |
| `LeiRegions.LoopOfThree` | rainlib/RFTs/lei.cpp:63-110 | a loop over 10, 11 and 12 gets the edges from 10 to 11 and from 11 to 12 |
| `LeiRegions.LeiStepIs` | rainlib/RFTs/lei.cpp:119-173 | the whole step written out: which items are branches, what the history and its index become, when the target is counted, and what a hot target leaves |
| `Lei.LeiKeeps` | rainlib/RFTs/lei.cpp:119-173 | an item processed to the end keeps automaton, history and index well formed; with all code on one side none hangs |
| `Lei.LeiRunIff` | rainlib/RFTs/lei.cpp:119-173 | a run gets to its end if and only if none of its items hangs |
| `Lei.LeiTheorem` | rainlib/RFTs/lei.cpp:119-173 | with all code on one side every run does, and ends well formed |
| `Lei.LeiHops` | rainlib/RFTs/lei.cpp:119-173 | every counter of a run counts the edges that its items follow, the second execution after a trace included |
| `Lei.LEI.FormTrace` | rainlib/RFTs/lei.cpp:63-110 | the recursive method on the object, terminating on the branch index; the regions it leaves are those of `LeiRegions.FormRoots` |
| `Lei.LEI.Process` | rainlib/RFTs/lei.cpp:119-173 | on every item that does not hang the object takes exactly the step |
| `Statistics.FirstAreBest` | rainlib/rain.cpp:567 | no set of as many regions outweighs the first ones of the sorted list |
| `Statistics.ScanFindsLeast` | rainlib/rain.cpp:567-596 | the first length that passes the threshold is the least number of regions that do, over all sets of regions, and 0 exactly when no set does |
| `Statistics.SortByCoverage` | rainlib/rain.cpp:515-521 | the list in descending order of frequency, no region lost |
| `Statistics.ScanReports` | rainlib/rain.cpp:567-596 | and the size reported is that of as many regions that cover |
| `Statistics.ExactlyIsNotEnough` | rainlib/rain.cpp:581-584 | regions that account for exactly seven tenths do not cover them |
| `Statistics.Scan` | rainlib/rain.cpp:569-596 | one pass up to the break finds the three cover sets, regions and instructions, and never divides by zero |
| `Statistics.CoverSets` | rainlib/rain.cpp:541-596 | the numbers reported are the least numbers of regions that account for more than 70, 80 and 90 percent of all executed instructions, and the instructions of such regions |
| `Statistics.RegionFreq` | rainlib/rain.cpp:423-429 | the sum over the nodes of a region |
| `Statistics.ExternalEntriesFreq` | rainlib/rain.cpp:470-480 | the sum of the counters of exactly the edges into entry nodes from outside |
| `Statistics.ExternalEntriesIff` | rainlib/rain.cpp:470-480 | that is the number of entries from outside and one for each such edge, if and only if the region was only entered at entry nodes |
| `Statistics.ExternalEntriesExact` | rainlib/rain.cpp:470-480 | which is always so while all entries are intact |
| `SegmentOrder.WalkIncludes` | elfio/elfio.hpp:489-502 | the merging walk over both lists |
| `SegmentOrder.IncludesIsContained` | elfio/elfio.hpp:489-502 | what it accepts is contained, on any lists |
| `SegmentOrder.IncludesIff` | elfio/elfio.hpp:489-502 | on sorted lists it accepts exactly what is contained |
| `SegmentOrder.UnsortedUnnoticed` | elfio/elfio.hpp:489-502 | on others it need not, and then a segment comes before its container |
| `SegmentOrder.RotationAdvances` | elfio/elfio.hpp:524-539 | a rotation brings the first of the largest segments forward, so rotating ends |
| `SegmentOrder.OrderedPermutes` | elfio/elfio.hpp:524-539 | the result is a permutation |
| `SegmentOrder.OrderedIsOrdered` | elfio/elfio.hpp:524-539 | no segment comes before one it is a subsequence of |
| `SegmentOrder.RotatedPass` | elfio/elfio.hpp:524-539 | a rotation takes one from how often the segment at the front is to be rotated and nothing from the others |
| `SegmentOrder.OrderedByPass` | elfio/elfio.hpp:524-539 | the closed form of the rotating worklist: results come in order of how often each has to be rotated, those rotated equally often in their order |
| `SegmentOrder.LargerFirstIff` | elfio/elfio.hpp:524-539 | no result comes before one that strictly contains its sections if and only if every unnoticed container comes first in that order |
| `SegmentOrder.NoneBeforeItsContainer` | elfio/elfio.hpp:524-539 | when containments are noticed that is so for any order of the worklist |
| `SegmentOrder.NoticedIff` | elfio/elfio.hpp:524-539 | the rotation puts no segment before one that strictly contains its sections, for any order of its worklist, if and only if all containments are noticed |
| `SegmentOrder.NoticedIffOrdered` | elfio/elfio.hpp:505-542 | without a segment at offset 0 the same holds of both loops |
| `SegmentOrder.FrontedUnnoticed` | elfio/elfio.hpp:514-522 | with one it need not: a containment that goes unnoticed and is harmless in every order |
| `SegmentOrder.SortedNoticed` | elfio/elfio.hpp:489-502 | with sorted section lists all are noticed |
| `SegmentOrder.PairIff` | elfio/elfio.hpp:524-539 | a segment is put behind a container added after it if and only if the containment is noticed |
| `SegmentOrder.UnrelatedStay` | elfio/elfio.hpp:524-539 | segments of which none contains a later one keep their order |
| `SegmentOrder.FrontedPermutes` | elfio/elfio.hpp:514-522 | the loop to the front permutes the segments |
| `SegmentOrder.FrontedIff` | elfio/elfio.hpp:514-522 | exactly when it brings all segments at offset 0 to the front |
| `SegmentOrder.FirstIsLeftBehind` | elfio/elfio.hpp:514-522 | a list on which it does not |
| `SegmentOrder.SecondToFront` | elfio/elfio.hpp:514-522 | the second of two segments comes to the front if and only if its offset is known to be 0 |
| `SegmentOrder.GetOrderedSegments` | elfio/elfio.hpp:505-542 | both loops: a permutation in which no segment comes before one it is a subsequence of, and none before one that strictly contains its sections exactly when no containment is unnoticed to harm |
| `ElfSection.RoomBelowLimit` | elfio/elfio_section.hpp:175-199 | below a quarter of the 32-bit range the doubled capacity suffices |
| `ElfSection.NoRoomWhenWrapped` | elfio/elfio_section.hpp:181-182 | sizes at which it wraps and does not |
| `ElfSection.Section.AppendData` | elfio/elfio_section.hpp:174-200 | appending on the growable buffer is sequence append, nothing on a section without data |
| `ElfNotes.ConvertTwice` | elfio/elfio_utils.hpp:107-120 | the byte order convertor is its own inverse |
| `ElfNotes.LoadedStored` | elfio/elfio_utils.hpp:107-120 | a word read back is the word written |
| `ElfNotes.StoredIs` | elfio/elfio_utils.hpp:107-120 | the bytes of a word in the file are its digits to base 256, lowest first, or highest first in the other order |
| `ElfNotes.PaddingIs` | elfio/elfio_note.hpp:112-120 | padding is of zeros, up to the next multiple of four and no further |
| `ElfNotes.EntryBytes` | elfio/elfio_note.hpp:95-124 | the bytes of a note in either order, and of one whose descriptor was announced but not given |
| `ElfNotes.StepIff` | elfio/elfio_note.hpp:95-124 | the scan goes from an entry to the next if and only if an announced descriptor was given |
| `ElfNotes.ScanFinds` | elfio/elfio_note.hpp:128-155 | scanning a section with notes finds where each starts |
| `ElfNotes.NotesFound` | elfio/elfio_note.hpp:59-92 | every note is read back where it starts, type, name and descriptor |
| `ElfNotes.DamagedIff` | elfio/elfio_note.hpp:77-81 | where lengths do not wrap around a note is refused exactly when name and descriptor, put where the note starts, would run past the section |
| `ElfNotes.RoundTrip` | elfio/elfio_note.hpp:59-155 | for every sequence of notes, scanning finds as many and reading gives each as it was added |
| `ElfNotes.GuardTooWide` | elfio/elfio_note.hpp:66-68 | the first index past the notes is below the size it is compared with exactly when there are notes |
| `ElfNotes.NoteAccessor.ProcessSection` | elfio/elfio_note.hpp:128-155 | the scanning loop on the object |
| `ElfNotes.NoteAccessor.AddNote` | elfio/elfio_note.hpp:95-124 | contents and start positions after an addition, on a section without data too; one that held some notes holds these and the new one |
| `ElfNotes.NoteAccessor.GetNote` | elfio/elfio_note.hpp:59-92 | reading a note, and when it is refused |
| `ElfNotes.NoteAccessor.AddedIsFound` | elfio/elfio_note.hpp:59-155 | the accessor that added a note and one that scans afresh both find it |

## Left out

- Edge lists inside the automaton: `RAIn` keeps each list as a sequence of edge numbers with the order the linked list has; relinking of pointers is proved in `EdgeLists` alone, and aliasing between items of different nodes is not captured.
- `findInEdge`: the same algorithm as `findOutEdge` on the other list.
- `Rain.RAIn.CreateInterRegionEdge`: does not keep the lists of a region's in- and out-edges nor the list of all inter-region edges, which are written and not read by anything modelled.
- `Region::moveAndDestroy`: its only call is commented out (`rainlib/RFTs/lef.cpp:69`).
- `NETJ` and `LEFPlus`: declared without an implementation; `CallsInPage` only counts.
- `pauseRecording`: initially false and never set.
- Decoding of x86 instructions in `getPossibleNextAddrs` and `isFlowControlInst`: an instruction is given by whether it is one of the flow control instructions and by its possible targets. A branch target that is not in the instruction map, whose iterator the source dereferences, is skipped.
- Names of opcodes: LEF's tests of the first opcode byte are modelled, the other bytes are not.
- Wrap-around of 64-bit counters and addresses, and of the signed difference in LEI's jump test.
- The initial, uninitialised value of LEF's last opcode: no recording can read it.
- `Statistics.SortByCoverage`: stands for `std::sort`, whose comparator uses `>=`; the order among regions of equal frequency is that of one stable sort, and the size in instructions reported for a cover set is that of the least cover set this order gives.
- `Statistics.CoverSets`: coverage is compared as exact fractions where the source rounds to doubles.
- `Exploration.SearchIsComplete`: speaks of routes whose walks pass no address at which the search closes loops; a walk that meets one closes its loop there instead of going on.
- `ElfNotes.NoteAccessor.GetNote`: on notes whose words point outside the section the source reads out of bounds; the method is modelled where the note lies in the section or is refused.
- Trace pipes, compression, ELF loading and disassembly, command line, DOT and CSV output, and the remaining accessors of ELFIO: input and output, or easy members.
- Allocation failure and destructors.
