/**
 * The graph store: four id-keyed maps and the active graph id, changed only by its
 * actions, each of which goes through `Commit` so the undo history can record it.
 */
module GraphStore {
  import opened Wrappers
  import opened Json
  import opened Types
  import opened Defaults
  import opened Lists
  import opened GraphOps
  import opened NodeDeletion
  import opened History

  // ---------------------------------------------------------------------------
  // The loops the actions run over copies of the maps
  // ---------------------------------------------------------------------------

  /** The ids of the pins owned by `owner`, found by a pass over every pin. */
  method CollectOwnedPins(pins: map<string, Pin>, owner: string) returns (found: set<string>)
    ensures found == OwnedPinIds(pins, {owner})
  {
    found := {};
    var rest := pins.Keys;
    while rest != {}
      invariant rest <= pins.Keys
      invariant found == set k | k in pins && k !in rest && pins[k].nodeId == owner :: pins[k].id
      decreases |rest|
    {
      var k :| k in rest;
      if pins[k].nodeId == owner {
        found := found + {pins[k].id};
      }
      rest := rest - {k};
    }
  }

  /** The ids of the edges on any of `pinIds`, found by a pass over every edge. */
  method CollectTouchingEdges(edges: map<string, Edge>, pinIds: set<string>) returns (found: set<string>)
    ensures found == TouchingEdgeIds(edges, pinIds)
  {
    found := {};
    var rest := edges.Keys;
    while rest != {}
      invariant rest <= edges.Keys
      invariant found == set k | k in edges && k !in rest && (edges[k].fromPinId in pinIds || edges[k].toPinId in pinIds) :: edges[k].id
      decreases |rest|
    {
      var k :| k in rest;
      if edges[k].fromPinId in pinIds || edges[k].toPinId in pinIds {
        found := found + {edges[k].id};
      }
      rest := rest - {k};
    }
  }

  /** The ids of the edges at one pin, in the order a pass over the edges meets them. */
  method CollectEdgesAtPin(edges: map<string, Edge>, pinId: string) returns (found: seq<string>)
    ensures Elems(found) == EdgesAtPin(edges, pinId)
  {
    found := [];
    var rest := edges.Keys;
    while rest != {}
      invariant rest <= edges.Keys
      invariant Elems(found) == set k | k in edges && k !in rest && (edges[k].fromPinId == pinId || edges[k].toPinId == pinId) :: edges[k].id
      decreases |rest|
    {
      var k :| k in rest;
      if edges[k].fromPinId == pinId || edges[k].toPinId == pinId {
        ElemsSnoc(found + [edges[k].id], |found|);
        assert (found + [edges[k].id])[..|found|] == found;
        found := found + [edges[k].id];
      }
      rest := rest - {k};
    }
  }

  /** Deletes each key in `ks` from `m`. */
  method DeleteKeys<V>(m: map<string, V>, ks: set<string>) returns (r: map<string, V>)
    ensures r == m - ks
  {
    r := m;
    var rest := ks;
    while rest != {}
      invariant rest <= ks
      invariant r == m - (ks - rest)
      decreases |rest|
    {
      var k :| k in rest;
      r := r - {k};
      rest := rest - {k};
    }
  }

  /** Deletes the keys of a list, one at a time. */
  method DeleteListed<V>(m: map<string, V>, ks: seq<string>) returns (r: map<string, V>)
    ensures r == m - Elems(ks)
  {
    r := m;
    var j := 0;
    while j < |ks|
      invariant 0 <= j <= |ks|
      invariant r == m - Elems(ks[..j])
    {
      ElemsSnoc(ks, j);
      r := r - {ks[j]};
      j := j + 1;
    }
    assert ks[..|ks|] == ks;
  }

  /**
   * Filters `removed` out of every graph's `edgeIds`, replacing a graph only when its
   * list got shorter.
   */
  method FilterEdgeLists(graphs: map<string, Graph>, removed: set<string>) returns (r: map<string, Graph>)
    ensures r == PruneEdgeLists(graphs, removed)
  {
    r := graphs;
    var rest := graphs.Keys;
    while rest != {}
      invariant rest <= graphs.Keys && r.Keys == graphs.Keys
      invariant forall g :: g in graphs ==> r[g] == if g in rest then graphs[g] else PruneEdgeLists(graphs, removed)[g]
      decreases |rest|
    {
      var g :| g in rest;
      var graph := r[g];
      var filtered := Without(graph.edgeIds, removed);
      if |filtered| != |graph.edgeIds| {
        r := r[g := graph.(edgeIds := filtered)];
      } else {
        WithoutSameLength(graph.edgeIds, removed);
      }
      rest := rest - {g};
    }
    assert r == PruneEdgeLists(graphs, removed);
  }

  lemma PruneNothing(graphs: map<string, Graph>)
    ensures PruneEdgeLists(graphs, {}) == graphs
  {
    forall g | g in graphs ensures Without(graphs[g].edgeIds, {}) == graphs[g].edgeIds {
      WithoutDisjoint(graphs[g].edgeIds, {});
    }
  }

  lemma OwnedPinIdsAdd(pins: map<string, Pin>, a: set<string>, keep: set<string>, x: string)
    ensures OwnedPinIds(pins, (a + {x}) * keep) == OwnedPinIds(pins, a * keep) + (if x in keep then OwnedPinIds(pins, {x}) else {})
    ensures x in a * keep ==> OwnedPinIds(pins, {x}) <= OwnedPinIds(pins, a * keep)
  {
  }

  /** One turn of the cascade loop, with its two inner loops. */
  method CascadeOne(pins: map<string, Pin>, c: Cascade, nodeId: string) returns (r: Cascade)
    ensures r == CascadeStep(pins, c, nodeId)
  {
    r := c;
    if nodeId !in c.nodes {
      return;
    }
    var key := InnerGraphKey(c.nodes[nodeId].data);
    if key.None? || key.value !in c.graphs {
      return;
    }
    var inner := c.graphs[key.value];
    var newNodes, pinIds := RemoveInnerNodes(pins, c, inner.nodeIds);
    var newEdges := DeleteListed(c.edges, inner.edgeIds);
    r := Cascade(newNodes, newEdges, c.graphs - {key.value}, pinIds);
  }

  /** The inner loop over an inner graph's node ids: drops each node still present and collects its pins. */
  method RemoveInnerNodes(pins: map<string, Pin>, c: Cascade, nodeIds: seq<string>) returns (newNodes: map<string, Node>, pinIds: set<string>)
    ensures newNodes == c.nodes - Elems(nodeIds)
    ensures pinIds == c.pinIds + OwnedPinIds(pins, Elems(nodeIds) * c.nodes.Keys)
  {
    newNodes := c.nodes;
    pinIds := c.pinIds;
    var j := 0;
    while j < |nodeIds|
      invariant 0 <= j <= |nodeIds|
      invariant newNodes == c.nodes - Elems(nodeIds[..j])
      invariant pinIds == c.pinIds + OwnedPinIds(pins, Elems(nodeIds[..j]) * c.nodes.Keys)
    {
      var x := nodeIds[j];
      ElemsSnoc(nodeIds, j);
      OwnedPinIdsAdd(pins, Elems(nodeIds[..j]), c.nodes.Keys, x);
      if x in newNodes {
        var found := CollectOwnedPins(pins, x);
        pinIds := pinIds + found;
        newNodes := newNodes - {x};
      }
      j := j + 1;
    }
    assert nodeIds[..|nodeIds|] == nodeIds;
  }

  /** The cascade loop over the listed ids. */
  method RunCascade(pins: map<string, Pin>, c0: Cascade, ids: seq<string>) returns (c: Cascade)
    ensures c == CascadeAll(pins, c0, ids)
  {
    c := c0;
    var i := 0;
    while i < |ids|
      invariant 0 <= i <= |ids|
      invariant c == CascadeAll(pins, c0, ids[..i])
    {
      assert ids[..i + 1][..i] == ids[..i];
      c := CascadeOne(pins, c, ids[i]);
      i := i + 1;
    }
    assert ids[..|ids|] == ids;
  }

  lemma RemovalNone(nodes: map<string, Node>, graphs: map<string, Graph>, doomed: set<string>)
    ensures RemovalGraphs(nodes, graphs, {}, doomed) == graphs
  {
    forall g | g in graphs ensures ListedIn(nodes, {}, g) == {} {
    }
  }

  /** The removal loop: each listed node still present leaves its graph and the node map. */
  method RemoveListed(nodes: map<string, Node>, graphs: map<string, Graph>, ids: seq<string>, doomed: set<string>)
    returns (newNodes: map<string, Node>, newGraphs: map<string, Graph>)
    ensures newNodes == nodes - Elems(ids)
    ensures newGraphs == RemovalGraphs(nodes, graphs, Elems(ids), doomed)
  {
    newNodes, newGraphs := nodes, graphs;
    RemovalNone(nodes, graphs, doomed);
    var i := 0;
    while i < |ids|
      invariant 0 <= i <= |ids|
      invariant newNodes == nodes - Elems(ids[..i])
      invariant newGraphs == RemovalGraphs(nodes, graphs, Elems(ids[..i]), doomed)
    {
      var nodeId := ids[i];
      ElemsSnoc(ids, i);
      RemovalStep(nodes, graphs, Elems(ids[..i]), doomed, nodeId);
      if nodeId in newNodes {
        var node := newNodes[nodeId];
        if node.graphId in newGraphs {
          var graph := newGraphs[node.graphId];
          newGraphs := newGraphs[node.graphId := graph.(nodeIds := Without(graph.nodeIds, {nodeId}),
                                                        edgeIds := Without(graph.edgeIds, doomed))];
        }
        newNodes := newNodes - {nodeId};
      }
      i := i + 1;
    }
    assert ids[..|ids|] == ids;
  }

  /**
   * Ids handed out in turn — the node id, the input pins, the output pins, then the inner
   * graph — each avoiding everything issued before it, are distinct and new to the state.
   */
  lemma CreationFresh(s: GraphState, t: NodeType, nodeId: string, inIds: seq<string>, outIds: seq<string>, innerId: string, issued: set<string>)
    requires nodeId in issued && Distinct(inIds) && Distinct(outIds)
    requires forall j :: 0 <= j < |inIds| ==> inIds[j] !in issued
    requires forall j :: 0 <= j < |outIds| ==> outIds[j] !in issued + Elems(inIds)
    requires IsContainerType(t) ==> innerId !in issued + Elems(inIds) + Elems(outIds)
    requires nodeId !in Mentioned(s)
    requires forall j :: 0 <= j < |inIds| ==> inIds[j] !in Mentioned(s)
    requires forall j :: 0 <= j < |outIds| ==> outIds[j] !in Mentioned(s)
    requires IsContainerType(t) ==> innerId !in Mentioned(s)
    ensures FreshIds(s, CreationIds(t, nodeId, inIds, outIds, innerId))
  {
    var innerPart: seq<string> := if IsContainerType(t) then [innerId] else [];
    DistinctConcat([nodeId], inIds);
    DistinctConcat([nodeId] + inIds, outIds);
    DistinctConcat([nodeId] + inIds + outIds, innerPart);
    var ids := CreationIds(t, nodeId, inIds, outIds, innerId);
    forall j | 0 <= j < |ids| ensures NotMentioned(s, ids[j]) {
      assert ids[j] in Elems(ids);
      MentionedCovers(s, ids[j]);
    }
  }

  // ---------------------------------------------------------------------------
  // The store
  // ---------------------------------------------------------------------------

  class Store {
    var activeGraphId: string
    var graphs: map<string, Graph>
    var nodes: map<string, Node>
    var edges: map<string, Edge>
    var pins: map<string, Pin>
    /** Every id the id generator has handed out. */
    var issued: set<string>
    /** The undo history; it snapshots the four maps but not `activeGraphId`. */
    const history: Temporal<GraphState>

    ghost predicate Valid()
      reads this, history
    {
      history.Valid()
    }

    /** The part of the store the history snapshots. */
    function State(): GraphState
      reads this
    {
      GraphState(graphs, nodes, edges, pins)
    }

    /** The history after one state change made from `before`. */
    ghost predicate Logged(t: Timeline<GraphState>, tracking: bool, before: GraphState)
      reads history
    {
      history.tracking == tracking && history.Stacks() == Log(t, tracking, before)
    }

    constructor ()
      ensures Valid() && State() == EmptyState && activeGraphId == ""
      ensures history.past == [] && history.future == [] && history.tracking
      ensures fresh(history)
    {
      activeGraphId := "";
      graphs, nodes, edges, pins := map[], map[], map[], map[];
      issued := {};
      history := new Temporal();
    }

    /** The id generator: an id it never handed out and that nothing in the store mentions. */
    method NewId() returns (id: string)
      modifies this
      ensures id !in old(issued) && id !in Mentioned(State())
      ensures issued == old(issued) + {id}
      ensures State() == old(State()) && activeGraphId == old(activeGraphId)
    {
      id := FreshString(issued + Mentioned(State()));
      issued := issued + {id};
    }

    /** The store's `set`: records the snapshot before the change, then writes the four maps. */
    method Commit(r: GraphState)
      requires Valid()
      modifies this, history
      ensures Valid() && State() == r
      ensures activeGraphId == old(activeGraphId) && issued == old(issued)
      ensures Logged(old(history.Stacks()), old(history.tracking), old(State()))
    {
      history.Track(State());
      graphs, nodes, edges, pins := r.graphs, r.nodes, r.edges, r.pins;
    }

    /** A new empty graph, named "Untitled Graph" when no name is given. */
    method CreateGraph(name: Option<string>) returns (id: string)
      requires Valid()
      modifies this, history
      ensures Valid() && NotMentioned(old(State()), id)
      ensures State() == AddGraph(old(State()), id, name.GetOr(DefaultGraphName))
      ensures activeGraphId == old(activeGraphId)
      ensures Logged(old(history.Stacks()), old(history.tracking), old(State()))
    {
      id := NewId();
      MentionedCovers(State(), id);
      Commit(AddGraph(State(), id, name.GetOr(DefaultGraphName)));
    }

    /** Only the active graph changes; the call still goes through the history. */
    method SetActiveGraph(graphId: string)
      requires Valid()
      modifies this, history
      ensures Valid() && activeGraphId == graphId && State() == old(State())
      ensures Logged(old(history.Stacks()), old(history.tracking), old(State()))
    {
      activeGraphId := graphId;
      Commit(State());
    }

    /** The input-pin loop of node creation: `count` pins with fresh ids, all pointing in. */
    method MakeInputPins(nodeId: string, count: nat) returns (newPins: map<string, Pin>, ids: seq<string>)
      modifies this
      ensures |ids| == count && Distinct(ids) && newPins == AddInputPins(map[], nodeId, ids)
      ensures forall j :: 0 <= j < |ids| ==> ids[j] !in old(issued) && ids[j] !in Mentioned(State())
      ensures issued == old(issued) + Elems(ids)
      ensures State() == old(State()) && activeGraphId == old(activeGraphId)
    {
      newPins, ids := map[], [];
      var i := 0;
      while i < count
        invariant 0 <= i <= count && |ids| == i && Distinct(ids)
        invariant newPins == AddInputPins(map[], nodeId, ids)
        invariant forall j :: 0 <= j < |ids| ==> ids[j] !in old(issued) && ids[j] !in Mentioned(State())
        invariant issued == old(issued) + Elems(ids)
        invariant State() == old(State()) && activeGraphId == old(activeGraphId)
      {
        var pinId := NewId();
        newPins := newPins[pinId := Pin(pinId, nodeId, In, None, None, None)];
        ElemsSnoc(ids + [pinId], i);
        assert (ids + [pinId])[..i] == ids;
        ids := ids + [pinId];
        i := i + 1;
      }
    }

    /** The output-pin loop of node creation: pin `i` takes the `i`-th default name. */
    method MakeOutputPins(pins0: map<string, Pin>, nodeId: string, config: PinConfig) returns (newPins: map<string, Pin>, ids: seq<string>)
      modifies this
      ensures |ids| == config.outputCount && Distinct(ids) && newPins == AddOutputPins(pins0, nodeId, ids, config)
      ensures forall j :: 0 <= j < |ids| ==> ids[j] !in old(issued) && ids[j] !in Mentioned(State())
      ensures issued == old(issued) + Elems(ids)
      ensures State() == old(State()) && activeGraphId == old(activeGraphId)
    {
      newPins, ids := pins0, [];
      var i := 0;
      while i < config.outputCount
        invariant 0 <= i <= config.outputCount && |ids| == i && Distinct(ids)
        invariant newPins == AddOutputPins(pins0, nodeId, ids, config)
        invariant forall j :: 0 <= j < |ids| ==> ids[j] !in old(issued) && ids[j] !in Mentioned(State())
        invariant issued == old(issued) + Elems(ids)
        invariant State() == old(State()) && activeGraphId == old(activeGraphId)
      {
        var pinId := NewId();
        newPins := newPins[pinId := Pin(pinId, nodeId, Out, OutputName(config, i), None, None)];
        ElemsSnoc(ids + [pinId], i);
        assert (ids + [pinId])[..i] == ids;
        ids := ids + [pinId];
        i := i + 1;
      }
    }

    /** Both pin loops of node creation, input pins first. */
    method MakeNodePins(nodeId: string, config: PinConfig) returns (newPins: map<string, Pin>, inIds: seq<string>, outIds: seq<string>)
      modifies this
      ensures |inIds| == config.inputCount && |outIds| == config.outputCount
      ensures Distinct(inIds) && Distinct(outIds) && newPins == NewNodePins(nodeId, inIds, outIds, config)
      ensures forall j :: 0 <= j < |inIds| ==> inIds[j] !in old(issued) && inIds[j] !in Mentioned(State())
      ensures forall j :: 0 <= j < |outIds| ==> outIds[j] !in old(issued) + Elems(inIds) && outIds[j] !in Mentioned(State())
      ensures issued == old(issued) + Elems(inIds) + Elems(outIds)
      ensures State() == old(State()) && activeGraphId == old(activeGraphId)
    {
      var inputPins;
      inputPins, inIds := MakeInputPins(nodeId, config.inputCount);
      newPins, outIds := MakeOutputPins(inputPins, nodeId, config);
    }

    /**
     * A node of kind `t` in graph `graphId`, else in the active graph, with its default
     * pins and, for container kinds, a new empty inner graph. When that graph does not
     * exist the source throws (`thrown`) after drawing its ids, and the store is unchanged.
     */
    method CreateNode(t: NodeType, position: Position, graphId: Option<string>)
      returns (nodeId: string, thrown: bool, ghost inIds: seq<string>, ghost outIds: seq<string>, ghost innerId: string)
      requires Valid()
      modifies this, history
      ensures Valid() && activeGraphId == old(activeGraphId)
      ensures FreshIds(old(State()), CreationIds(t, nodeId, inIds, outIds, innerId))
      ensures |inIds| == DefaultPins(t).inputCount && |outIds| == DefaultPins(t).outputCount
      ensures thrown <==> graphId.GetOr(old(activeGraphId)) !in old(graphs)
      ensures !thrown ==> State() == CreateNodeSpec(old(State()), t, position, graphId.GetOr(old(activeGraphId)), nodeId, inIds, outIds, innerId)
      ensures !thrown ==> Logged(old(history.Stacks()), old(history.tracking), old(State()))
      ensures thrown ==> State() == old(State()) && history.Stacks() == old(history.Stacks()) && history.tracking == old(history.tracking)
    {
      var s0 := State();
      ghost var h0, tracking0 := history.Stacks(), history.tracking;
      var target := graphId.GetOr(activeGraphId);
      nodeId := NewId();
      ghost var issued1 := issued;
      var config := DefaultPins(t);
      var d := DefaultNodeData(t);

      var newPins, inputPinIds, outputPinIds := MakeNodePins(nodeId, config);

      // The graphs map with the inner graph added; the source spreads a one-entry map over it.
      var withInner := s0.graphs;
      innerId := "";
      if IsContainerType(t) {
        var innerGraphId := NewId();
        withInner := withInner[innerGraphId := Graph(innerGraphId, InnerGraphName(t), [], [])];
        d := d.(innerGraphId := innerGraphId);
        innerId := innerGraphId;
      }
      inIds, outIds := inputPinIds, outputPinIds;

      var node := Node(nodeId, t, position, DataFields(d), target);
      CreationFresh(s0, t, nodeId, inIds, outIds, innerId, issued1);
      // `graph.nodeIds` on a missing graph is a TypeError, raised before `set` changes anything.
      thrown := target !in s0.graphs;
      if thrown {
        return;
      }
      var graph := s0.graphs[target];
      CreatedNodeData(t, innerId, d);
      assert history.Stacks() == h0 && history.tracking == tracking0 && State() == s0;
      Commit(GraphState(
        withInner[target := graph.(nodeIds := graph.nodeIds + [nodeId])],
        s0.nodes[nodeId := node],
        s0.edges,
        s0.pins + newPins));
    }

    /** Deletes the listed nodes with their pins and edges, cascading one level into containers. */
    method DeleteNodes(nodeIds: seq<string>)
      requires Valid()
      modifies this, history
      ensures Valid() && activeGraphId == old(activeGraphId) && issued == old(issued)
      ensures State() == DeleteNodesSpec(old(State()), nodeIds)
      ensures Logged(old(history.Stacks()), old(history.tracking), old(State()))
    {
      var s0 := State();
      var pinIdsToRemove: set<string> := {};
      var i := 0;
      while i < |nodeIds|
        invariant 0 <= i <= |nodeIds|
        invariant pinIdsToRemove == OwnedPinIds(s0.pins, Elems(nodeIds[..i]))
        modifies {}
      {
        var found := CollectOwnedPins(s0.pins, nodeIds[i]);
        ElemsSnoc(nodeIds, i);
        OwnedPinIdsStep(s0.pins, Elems(nodeIds[..i]), nodeIds[i]);
        pinIdsToRemove := pinIdsToRemove + found;
        i := i + 1;
      }
      assert nodeIds[..|nodeIds|] == nodeIds;
      var edgeIdsToRemove := CollectTouchingEdges(s0.edges, pinIdsToRemove);
      var c := RunCascade(s0.pins, Cascade(s0.nodes, s0.edges, s0.graphs, pinIdsToRemove), nodeIds);
      var newNodes, newGraphs := RemoveListed(c.nodes, c.graphs, nodeIds, edgeIdsToRemove);
      var newPins := DeleteKeys(s0.pins, c.pinIds);
      var newEdges := DeleteKeys(c.edges, edgeIdsToRemove);
      Commit(GraphState(newGraphs, newNodes, newEdges, newPins));
    }

    method MoveNode(nodeId: string, position: Position)
      requires Valid() && nodeId in nodes
      modifies this, history
      ensures Valid() && activeGraphId == old(activeGraphId) && issued == old(issued)
      ensures State() == MoveNodeSpec(old(State()), nodeId, position)
      ensures Logged(old(history.Stacks()), old(history.tracking), old(State()))
    {
      Commit(State().(nodes := nodes[nodeId := nodes[nodeId].(position := position)]));
    }

    /** Shallow-merges `patch` into a node's data; on a missing node the state is kept but still recorded. */
    method UpdateNodeData(nodeId: string, patch: seq<Field>)
      requires Valid()
      modifies this, history
      ensures Valid() && activeGraphId == old(activeGraphId) && issued == old(issued)
      ensures State() == UpdateNodeDataSpec(old(State()), nodeId, patch)
      ensures Logged(old(history.Stacks()), old(history.tracking), old(State()))
    {
      if nodeId !in nodes {
        Commit(State());
        return;
      }
      var node := nodes[nodeId];
      Commit(State().(nodes := nodes[nodeId := node.(data := Spread(node.data, patch))]));
    }

    method AddPin(nodeId: string, direction: PinDirection, name: Option<string>) returns (pinId: string)
      requires Valid()
      modifies this, history
      ensures Valid() && activeGraphId == old(activeGraphId) && NotMentioned(old(State()), pinId)
      ensures State() == AddPinSpec(old(State()), pinId, nodeId, direction, name)
      ensures Logged(old(history.Stacks()), old(history.tracking), old(State()))
    {
      pinId := NewId();
      MentionedCovers(State(), pinId);
      Commit(State().(pins := pins[pinId := Pin(pinId, nodeId, direction, name, None, None)]));
    }

    /** Deletes a pin and the edges at it, and strips those edges from every graph's list. */
    method RemovePin(pinId: string)
      requires Valid()
      modifies this, history
      ensures Valid() && activeGraphId == old(activeGraphId) && issued == old(issued)
      ensures State() == RemovePinSpec(old(State()), pinId)
      ensures Logged(old(history.Stacks()), old(history.tracking), old(State()))
    {
      var s0 := State();
      var edgeIdsToRemove := CollectEdgesAtPin(edges, pinId);
      var newEdges := DeleteListed(edges, edgeIdsToRemove);
      var newGraphs := graphs;
      if |edgeIdsToRemove| > 0 {
        newGraphs := FilterEdgeLists(graphs, Elems(edgeIdsToRemove));
      } else {
        assert Elems(edgeIdsToRemove) == {};
        PruneNothing(graphs);
      }
      var newPins := pins - {pinId};
      Commit(GraphState(newGraphs, nodes, newEdges, newPins));
    }

    method UpdatePin(pinId: string, u: PinUpdate)
      requires Valid() && pinId in pins
      modifies this, history
      ensures Valid() && activeGraphId == old(activeGraphId) && issued == old(issued)
      ensures State() == UpdatePinSpec(old(State()), pinId, u)
      ensures Logged(old(history.Stacks()), old(history.tracking), old(State()))
    {
      var p := pins[pinId];
      Commit(State().(pins := pins[pinId := p.(name := Override(p.name, u.name),
                                               conditionExpr := Override(p.conditionExpr, u.conditionExpr),
                                               instructionExpr := Override(p.instructionExpr, u.instructionExpr))]));
    }

    /**
     * An edge from `fromPinId` to `toPinId`. A fresh id is returned either way; when the
     * source pin or its node is missing nothing is stored and nothing is recorded. When
     * the node's graph is missing, as a hydrated state allows, the source throws
     * (`thrown`) and again nothing changes.
     */
    method CreateEdge(fromPinId: string, toPinId: string, labelText: Option<string>, color: Option<string>)
      returns (id: string, thrown: bool)
      requires Valid()
      modifies this, history
      ensures Valid() && activeGraphId == old(activeGraphId) && NotMentioned(old(State()), id)
      ensures thrown <==> !CreateEdgeDefined(old(State()), fromPinId)
      ensures !thrown ==> State() == CreateEdgeSpec(old(State()), id, fromPinId, toPinId, labelText, color)
      ensures thrown ==> State() == old(State())
      ensures SourceResolves(old(State()), fromPinId) && !thrown ==> Logged(old(history.Stacks()), old(history.tracking), old(State()))
      ensures !SourceResolves(old(State()), fromPinId) || thrown ==> history.Stacks() == old(history.Stacks()) && history.tracking == old(history.tracking)
    {
      id := NewId();
      thrown := false;
      MentionedCovers(State(), id);
      if fromPinId !in pins {
        return;
      }
      var fromPin := pins[fromPinId];
      if fromPin.nodeId !in nodes {
        return;
      }
      var fromNode := nodes[fromPin.nodeId];
      // `s.graphs[fromNode.graphId].edgeIds` on a missing graph is a TypeError inside `set`.
      if fromNode.graphId !in graphs {
        thrown := true;
        return;
      }
      var g := graphs[fromNode.graphId];
      Commit(State().(edges := edges[id := Edge(id, fromPinId, toPinId, labelText, color)],
                      graphs := graphs[fromNode.graphId := g.(edgeIds := g.edgeIds + [id])]));
    }

    /** Deletes the listed edges and filters them out of every graph's list. */
    method DeleteEdges(edgeIds: seq<string>)
      requires Valid()
      modifies this, history
      ensures Valid() && activeGraphId == old(activeGraphId) && issued == old(issued)
      ensures State() == DeleteEdgesSpec(old(State()), edgeIds)
      ensures Logged(old(history.Stacks()), old(history.tracking), old(State()))
    {
      var newEdges := DeleteListed(edges, edgeIds);
      var newGraphs := FilterEdgeLists(graphs, Elems(edgeIds));
      Commit(State().(edges := newEdges, graphs := newGraphs));
    }

    method UpdateEdge(edgeId: string, u: EdgeUpdate)
      requires Valid() && edgeId in edges
      modifies this, history
      ensures Valid() && activeGraphId == old(activeGraphId) && issued == old(issued)
      ensures State() == UpdateEdgeSpec(old(State()), edgeId, u)
      ensures Logged(old(history.Stacks()), old(history.tracking), old(State()))
    {
      var e := edges[edgeId];
      Commit(State().(edges := edges[edgeId := e.(labelText := Override(e.labelText, u.labelText), color := Override(e.color, u.color))]));
    }

    /** Replaces the whole state, as an import does; the replacement is recorded like any change. */
    method Hydrate(newActiveGraphId: string, s: GraphState)
      requires Valid()
      modifies this, history
      ensures Valid() && activeGraphId == newActiveGraphId && State() == s && issued == old(issued)
      ensures Logged(old(history.Stacks()), old(history.tracking), old(State()))
    {
      activeGraphId := newActiveGraphId;
      Commit(s);
    }

    /** Restores the last snapshot, if any; the active graph stays. */
    method Undo()
      requires Valid()
      modifies this, history
      ensures Valid() && activeGraphId == old(activeGraphId) && issued == old(issued)
      ensures history.tracking == old(history.tracking)
      ensures history.Stacks() == UndoStep(old(history.Stacks()), old(State())).0
      ensures State() == UndoStep(old(history.Stacks()), old(State())).1.GetOr(old(State()))
    {
      var restore := history.Undo(State());
      if restore.Some? {
        graphs, nodes, edges, pins := restore.value.graphs, restore.value.nodes, restore.value.edges, restore.value.pins;
      }
    }

    /** Re-applies the last undone snapshot, if any. */
    method Redo()
      requires Valid()
      modifies this, history
      ensures Valid() && activeGraphId == old(activeGraphId) && issued == old(issued)
      ensures history.tracking == old(history.tracking)
      ensures history.Stacks() == RedoStep(old(history.Stacks()), old(State())).0
      ensures State() == RedoStep(old(history.Stacks()), old(State())).1.GetOr(old(State()))
    {
      var restore := history.Redo(State());
      if restore.Some? {
        graphs, nodes, edges, pins := restore.value.graphs, restore.value.nodes, restore.value.edges, restore.value.pins;
      }
    }

    method PauseHistory()
      modifies history
      ensures !history.tracking && history.Stacks() == old(history.Stacks())
    {
      history.Pause();
    }

    method ResumeHistory()
      modifies history
      ensures history.tracking && history.Stacks() == old(history.Stacks())
    {
      history.Resume();
    }
  }
}
