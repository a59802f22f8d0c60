/** The automaton as the program keeps it: one object whose fields every
    operation updates, each tied to the function of the same step on values. */
module Rain {
  import opened Wrappers
  import opened EdgeOrder
  import opened Tea
  import opened Flow

  class RAIn {
    var nodes: seq<Node>
    var outEdges: seq<seq<nat>>
    var inEdges: seq<seq<nat>>
    var nodeFreq: seq<nat>
    var edges: seq<Edge>
    var edgeFreq: seq<nat>
    var regions: seq<Region>
    var regionEntryNodes: map<nat, nat>
    var nteOutEdgesMap: map<nat, nat>
    var curNode: nat
    var executedFreq: nat
    var executedExpansionFreq: nat
    var regionTransitions: nat
    var expansions: nat

    /** The edges executed so far, and where the loop counter started. */
    ghost var history: seq<Hop>
    ghost const loopInit: nat

    ghost function State(): Tea.State
      reads this
    {
      Tea.State(nodes, outEdges, inEdges, nodeFreq, edges, edgeFreq, regions, regionEntryNodes,
                nteOutEdgesMap, curNode, executedFreq, executedExpansionFreq, regionTransitions, expansions)
    }

    /** Well formed, and every counter is that of the history. */
    ghost predicate Valid()
      reads this
    {
      Inv(State()) && Consistent(State(), history, loopInit)
    }

    constructor (loopCounter: nat)
      ensures Valid() && State() == Initial(loopCounter) && history == []
    {
      nodes, outEdges, inEdges, nodeFreq := [Node(NTE_ADDR, NO_REGION)], [[]], [[]], [0];
      edges, edgeFreq := [Edge(NTE, NTE)], [loopCounter];
      regions, regionEntryNodes, nteOutEdgesMap, curNode := [EMPTY_REGION], map[], map[], NTE;
      executedFreq, executedExpansionFreq, regionTransitions, expansions := 0, 0, 0, 0;
      history, loopInit := [], loopCounter;
      new;
      InitialInv(loopCounter);
      InitialConsistent(loopCounter);
    }

    // ---------- Transitions ----------

    method FindOutEdge(n: nat, nextIp: nat) returns (edge: Option<nat>)
      requires Inv(State()) && n < |nodes|
      modifies this`outEdges
      ensures State() == AfterFindOut(old(State()), n, nextIp)
      ensures edge == FindOut(old(State()), n, nextIp)
    {
      ghost var keys := Targets(State(), outEdges[n]);
      var i := 0;
      while i < |outEdges[n]| && nodes[edges[outEdges[n][i]].tgt].addr != nextIp
        invariant i <= |outEdges[n]|
        invariant forall j :: 0 <= j < i ==> keys[j] != nextIp
      {
        i := i + 1;
      }
      assert i == IndexOf(keys, nextIp);
      if i == |outEdges[n]| { return None; }
      edge := Some(outEdges[n][i]);
      outEdges := outEdges[n := MoveToFront(outEdges[n], i)];
    }

    method GetNode(r: nat, a: nat) returns (n: Option<nat>, ghost pick: nat)
      requires Inv(State()) && 0 < r < |regions|
      ensures n.Some? ==> n.value in regions[r].nodes && nodes[n.value].addr == a
      ensures n.None? ==> forall i :: i in regions[r].nodes ==> nodes[i].addr != a
      ensures n == Tea.GetNode(State(), r, a, pick)
    {
      var rest := regions[r].nodes;
      while rest != {}
        invariant rest <= regions[r].nodes
        invariant forall i :: i in regions[r].nodes - rest ==> nodes[i].addr != a
        decreases rest
      {
        var i :| i in rest;
        if nodes[i].addr == a {
          return Some(i), i;
        }
        rest := rest - {i};
      }
      return None, 0;
    }

    method QueryNext(nextIp: nat) returns (edge: Option<nat>)
      requires Inv(State())
      modifies this`outEdges
      ensures State() == AfterQuery(old(State()), nextIp)
      ensures edge == Tea.QueryNext(old(State()), nextIp)
    {
      if curNode == NTE {
        if nextIp in nteOutEdgesMap {
          return Some(nteOutEdgesMap[nextIp]);
        } else if nextIp in regionEntryNodes {
          return None;
        } else {
          return Some(LOOP);
        }
      }
      edge := FindOutEdge(curNode, nextIp);
    }
  
    /** The edge from `n` to the node `tgt`, compared by identity. */
    method FindOutEdgeTo(n: nat, tgt: nat) returns (edge: Option<nat>)
      requires Inv(State()) && n < |nodes|
      ensures edge == FindOutTo(State(), n, tgt, 0)
    {
      var i := 0;
      while i < |outEdges[n]|
        invariant i <= |outEdges[n]|
        invariant FindOutTo(State(), n, tgt, 0) == FindOutTo(State(), n, tgt, i)
      {
        assert outEdges[n][i] in outEdges[n];
        if edges[outEdges[n][i]].tgt == tgt { return Some(outEdges[n][i]); }
        i := i + 1;
      }
      return None;
    }

    method LinkEdge(src: nat, tgt: nat) returns (ed: nat)
      requires Inv(State()) && src < |nodes| && tgt < |nodes|
      modifies this`edges, this`edgeFreq, this`outEdges, this`inEdges
      ensures State() == Tea.LinkEdge(old(State()), src, tgt) && ed == old(|edges|)
    {
      ed := |edges|;
      edges, edgeFreq := edges + [Edge(src, tgt)], edgeFreq + [1];
      outEdges := outEdges[src := [ed] + outEdges[src]];
      inEdges := inEdges[tgt := [ed] + inEdges[tgt]];
    }

    /** An edge inside a region. The caller shows that `src` has no edge to the
        address of `tgt` yet, which the source only asserts in debug builds. */
    method CreateInnerRegionEdge(r: nat, src: nat, tgt: nat) returns (ed: nat)
      requires Valid() && 0 < r < |regions| && src < |nodes| && tgt < |nodes|
      requires nodes[src].region == r == nodes[tgt].region
      requires !HasOut(State(), src, nodes[tgt].addr)
      modifies this`edges, this`edgeFreq, this`outEdges, this`inEdges, this`regions
      ensures Valid() && State() == CreateInnerEdge(old(State()), r, src, tgt) && ed == old(|edges|)
    {
      CreateInnerEdgeInv(State(), r, src, tgt);
      GrowthConsistent(State(), CreateInnerEdge(State(), r, src, tgt), history, loopInit);
      ed := LinkEdge(src, tgt);
      regions := regions[r := regions[r].(innerEdges := regions[r].innerEdges + {ed})];
    }

    method CreateInterRegionEdge(src: nat, tgt: nat) returns (ed: nat)
      requires Valid() && src < |nodes| && tgt < |nodes|
      requires nodes[src].region != nodes[tgt].region
      requires !HasOut(State(), src, nodes[tgt].addr)
      modifies this`edges, this`edgeFreq, this`outEdges, this`inEdges, this`nteOutEdgesMap
      ensures Valid() && State() == CreateInterEdge(old(State()), src, tgt) && ed == old(|edges|)
    {
      CreateInterEdgeInv(State(), src, tgt);
      GrowthConsistent(State(), CreateInterEdge(State(), src, tgt), history, loopInit);
      ed := LinkEdge(src, tgt);
      if src == NTE {
        nteOutEdgesMap := nteOutEdgesMap[nodes[tgt].addr := ed];
      }
    }

    method AddNext(nextIp: nat) returns (edg: nat, ghost pick: nat)
      requires Valid() && nextIp != NTE_ADDR && Tea.QueryNext(State(), nextIp).None?
      modifies this`edges, this`edgeFreq, this`outEdges, this`inEdges, this`regions, this`nteOutEdgesMap
      ensures Valid() && (State(), edg) == Tea.AddNext(old(State()), nextIp, pick)
      ensures edg < |edges| && edges[edg].src == curNode && LeadsOn(old(State()), nextIp, edges[edg].tgt)
    {
      hide Consistent, InnerOk, CacheOk, InSameRegion;
      ghost var s := State();
      QueryNextFinds(s, nextIp);
      pick := 0;
      if nextIp in regionEntryNodes {
        var nextNode := regionEntryNodes[nextIp];
        if nodes[curNode].region == nodes[nextNode].region {
          // the entry of the region the automaton is in
          edg := CreateInnerRegionEdge(nodes[curNode].region, curNode, nextNode);
        } else {
          // the entry of another region, maybe come to from the interpreter
          edg := CreateInterRegionEdge(curNode, nextNode);
        }
      } else {
        var curReg := nodes[curNode].region;
        var nextNode;
        nextNode, pick := GetNode(curReg, nextIp);
        if nextNode.None? {
          // nothing starts here: back to the interpreter
          var back := FindOutEdgeTo(curNode, NTE);
          if back.Some? {
            edg := back.value;
          } else {
            NoEdgeToNte(State(), curNode);
            edg := CreateInterRegionEdge(curNode, NTE);
          }
        } else {
          edg := CreateInnerRegionEdge(curReg, curNode, nextNode.value);
        }
      }
      AddNextLeads(s, nextIp, pick);
    }

    /** Every edge is counted; the history stays a walk when the edge leaves the
        current node. */
    method ExecuteEdge(edge: nat)
      requires Inv(State()) && Counts(State(), history, loopInit) && edge < |edges|
      modifies this`curNode, this`edgeFreq, this`nodeFreq, this`executedFreq, this`executedExpansionFreq,
               this`regionTransitions, this`history
      ensures State() == Tea.ExecuteEdge(old(State()), edge) && history == old(history) + [HopAlong(old(State()), edge)]
      ensures Inv(State()) && Counts(State(), history, loopInit)
      ensures old(Valid()) && edges[edge].src == old(curNode) ==> Valid()
    {
      hide Counts, Walk;
      ExecuteCounts(State(), edge, history, loopInit);
      ExecuteInv(State(), edge);
      if Valid() && edges[edge].src == curNode {
        ExecuteConsistent(State(), edge, history, loopInit);
      }
      history := history + [HopAlong(State(), edge)];
      CountEdge(edge);
    }

    method CountEdge(edge: nat)
      requires SizesOk(State()) && NodesOk(nodes, regions) && EdgesOk(nodes, edges) && edge < |edges|
      modifies this`curNode, this`edgeFreq, this`nodeFreq, this`executedFreq, this`executedExpansionFreq,
               this`regionTransitions
      ensures State() == Tea.ExecuteEdge(old(State()), edge)
    {
      var tgt := edges[edge].tgt;
      var srcReg, tgtReg := nodes[edges[edge].src].region, nodes[tgt].region;
      assert srcReg < |regions| && tgtReg < |regions|;
      curNode, executedFreq := tgt, executedFreq + 1;
      edgeFreq := edgeFreq[edge := edgeFreq[edge] + 1];
      nodeFreq := nodeFreq[tgt := nodeFreq[tgt] + 1];
      CountRegions(srcReg, tgtReg);
    }

    method CountRegions(srcReg: nat, tgtReg: nat)
      requires tgtReg < |regions|
      modifies this`executedExpansionFreq, this`regionTransitions
      ensures executedExpansionFreq == old(executedExpansionFreq) +
                if tgtReg != NO_REGION && regions[tgtReg].isFromExpansion then 1 else 0
      ensures regionTransitions == old(regionTransitions) +
                if srcReg != NO_REGION && tgtReg != NO_REGION && srcReg != tgtReg then 1 else 0
    {
      if tgtReg != NO_REGION && regions[tgtReg].isFromExpansion {
        executedExpansionFreq := executedExpansionFreq + 1;
      }
      if srcReg != NO_REGION && tgtReg != NO_REGION && srcReg != tgtReg {
        regionTransitions := regionTransitions + 1;
      }
    }

    /** What every technique does first with a trace item: query the edge, add it
        if it is missing, execute it. */
    method Advance(addr: nat) returns (edg: nat, ghost pick: nat)
      requires Valid() && addr != NTE_ADDR
      modifies this
      ensures Valid() && State() == Step(old(State()), addr, pick)
      ensures edg == Resolve(old(State()), addr, pick).1
      ensures history == old(history) + [StepHop(old(State()), addr, pick)]
    {
      hide Inv;
      ghost var s := State();
      QueryNextFinds(s, addr);
      pick := 0;
      var found := QueryNext(addr);
      if found.Some? {
        edg := found.value;
        ResolveInv(s, addr, pick);
        ResolveGrows(s, addr, pick);
        GrowthConsistent(s, State(), history, loopInit);
      } else {
        assert State() == s;
        edg, pick := AddNext(addr);
        ResolveInv(s, addr, pick);
      }
      ExecuteEdge(edg);
    }

    // ---------- Growth ----------

    method CreateRegion() returns (r: nat)
      requires Valid()
      modifies this`regions
      ensures Valid() && State() == Tea.CreateRegion(old(State())) && r == old(|regions|)
    {
      CreateRegionInv(State());
      GrowthConsistent(State(), Tea.CreateRegion(State()), history, loopInit);
      r := |regions|;
      regions := regions + [EMPTY_REGION];
    }

    /** `new Node(addr)` inserted into region `r`. */
    method InsertNewNode(r: nat, addr: nat) returns (n: nat)
      requires Valid() && 0 < r < |regions| && addr != NTE_ADDR
      modifies this`nodes, this`outEdges, this`inEdges, this`nodeFreq, this`regions
      ensures Valid() && State() == AddNode(old(State()), r, addr) && n == old(|nodes|)
    {
      AddNodeInv(State(), r, addr);
      GrowthConsistent(State(), AddNode(State(), r, addr), history, loopInit);
      n := |nodes|;
      nodes, nodeFreq := nodes + [Node(addr, r)], nodeFreq + [0];
      outEdges, inEdges := outEdges + [[]], inEdges + [[]];
      regions := regions[r := regions[r].(nodes := regions[r].nodes + {n})];
    }

    method SetEntry(n: nat)
      requires Valid() && 0 < n < |nodes|
      modifies this`regions, this`regionEntryNodes
      ensures Valid() && State() == Tea.SetEntry(old(State()), n)
    {
      SetEntryInv(State(), n);
      GrowthConsistent(State(), Tea.SetEntry(State(), n), history, loopInit);
      var r := nodes[n].region;
      regionEntryNodes := regionEntryNodes[nodes[n].addr := n];
      regions := regions[r := regions[r].(entryNodes := regions[r].entryNodes + {n})];
    }

    method SetExit(n: nat)
      requires Valid() && 0 < n < |nodes|
      modifies this`regions
      ensures Valid() && State() == Tea.SetExit(old(State()), n)
    {
      SetExitInv(State(), n);
      GrowthConsistent(State(), Tea.SetExit(State(), n), history, loopInit);
      var r := nodes[n].region;
      regions := regions[r := regions[r].(exitNodes := regions[r].exitNodes + {n})];
    }
  
    method CountExpansion()
      requires Valid()
      modifies this`expansions
      ensures Valid() && State() == old(State()).(expansions := old(expansions) + 1)
    {
      ghost var s := State();
      expansions := expansions + 1;
      GrowthConsistent(s, State(), history, loopInit);
    }
  
    /** The flags `mergeRegions` sets on the region merged and the one it is merged into. */
    method MarkMerged(src: nat, tgt: nat)
      requires Valid() && src < |regions| && tgt < |regions|
      modifies this`regions
      ensures Valid() && State() == Tea.MarkMerged(old(State()), src, tgt)
    {
      ghost var s := State();
      MarkMergedInv(s, src, tgt);
      regions := regions[tgt := regions[tgt].(isFromExpansion := true)];
      regions := regions[src := regions[src].(alive := false)];
      GrowthConsistent(s, State(), history, loopInit);
    }

    /** `entry_nodes.clear()` and `setEntryNode`: the registered entry stays as it is. */
    method ReplaceEntryNode(n: nat)
      requires Valid() && 0 < n < |nodes|
      modifies this`regions
      ensures Valid() && State() == Tea.ReplaceEntryNode(old(State()), n)
    {
      ghost var s := State();
      ReplaceEntryNodeInv(s, n);
      var r := nodes[n].region;
      regions := regions[r := regions[r].(entryNodes := {n})];
      GrowthConsistent(s, State(), history, loopInit);
    }
  }
}
