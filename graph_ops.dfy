/**
 * The graph store's state and its operations as functions of that state: what each
 * action of the store leaves behind, and the cross-reference invariant the actions keep.
 */
module GraphOps {
  import opened Wrappers
  import opened Json
  import opened Types
  import opened Defaults
  import opened Lists

  /** The four id-keyed maps; also the snapshot the undo history stores. */
  datatype GraphState = GraphState(
    graphs: map<string, Graph>,
    nodes: map<string, Node>,
    edges: map<string, Edge>,
    pins: map<string, Pin>)

  const EmptyState := GraphState(map[], map[], map[], map[])

  const DefaultGraphName := "Untitled Graph"

  /** The data record a new node of each kind starts with. */
  function DefaultNodeData(t: NodeType): (d: NodeData)
    ensures DataType(d) == t
    ensures IsContainerType(t) ==> d.DialogueContainerData? || d.FlowFragmentData?
    ensures IsContainerType(t) ==> d.innerGraphId == "" && d.labelText == Some("")
  {
    match t
    case DialogueContainer => DialogueContainerData("", Some(""))
    case FlowFragment => FlowFragmentData("", Some(""))
    case Line => LineData(None, "")
    case Choice => ChoiceData(Some(""))
    case Condition => ConditionData("")
    case Instruction => InstructionData("")
    case Jump => JumpData(None, None)
    case Hub => HubData(Some(""))
    case End => EndData
    case Annotation => AnnotationData("", Some("#f5e642"))
  }

  /** Name of the inner graph a container node gets. */
  function InnerGraphName(t: NodeType): string
  {
    if t == DialogueContainer then "Dialogue Inner" else "Fragment Inner"
  }

  /** The data of a freshly created node; a container's records its inner graph's id. */
  function InitialNodeData(t: NodeType, innerGraphId: string): (fs: seq<Field>)
    ensures Lookup(fs, "type") == Some(JStr(NodeTypeName(t)))
    ensures IsContainerType(t) ==> Lookup(fs, "innerGraphId") == Some(JStr(innerGraphId))
    ensures !IsContainerType(t) ==> Lookup(fs, "innerGraphId") == None
  {
    var d := DefaultNodeData(t);
    var fs := DataFields(if IsContainerType(t) then d.(innerGraphId := innerGraphId) else d);
    assert fs[0].key == "type";
    if IsContainerType(t) then LookupAt(fs, 1); fs else fs
  }

  /** The data the store builds step by step is the initial data record. */
  lemma CreatedNodeData(t: NodeType, innerId: string, d: NodeData)
    requires d == (if IsContainerType(t) then var d0 := DefaultNodeData(t); d0.(innerGraphId := innerId) else DefaultNodeData(t))
    ensures DataFields(d) == InitialNodeData(t, innerId)
  {
  }

  /** Every id the state mentions, as a key or as a reference. */
  function Mentioned(s: GraphState): set<string>
  {
    s.graphs.Keys + s.nodes.Keys + s.edges.Keys + s.pins.Keys
    + (set k | k in s.pins :: s.pins[k].nodeId)
    + (set k | k in s.nodes :: s.nodes[k].graphId)
    + (set k | k in s.edges :: s.edges[k].fromPinId)
    + (set k | k in s.edges :: s.edges[k].toPinId)
    + (set g, x | g in s.graphs && x in s.graphs[g].nodeIds :: x)
    + (set g, x | g in s.graphs && x in s.graphs[g].edgeIds :: x)
  }

  /** `x` is neither a key of the state nor referenced from it. */
  ghost predicate NotMentioned(s: GraphState, x: string)
  {
    x !in s.graphs && x !in s.nodes && x !in s.edges && x !in s.pins
    && (forall k :: k in s.pins ==> s.pins[k].nodeId != x)
    && (forall k :: k in s.nodes ==> s.nodes[k].graphId != x)
    && (forall k :: k in s.edges ==> s.edges[k].fromPinId != x && s.edges[k].toPinId != x)
    && (forall g :: g in s.graphs ==> x !in s.graphs[g].nodeIds && x !in s.graphs[g].edgeIds)
  }

  lemma MentionedCovers(s: GraphState, x: string)
    requires x !in Mentioned(s)
    ensures NotMentioned(s, x)
  {
    assert forall g, y :: g in s.graphs && y in s.graphs[g].nodeIds ==> y in Mentioned(s);
    assert forall g, y :: g in s.graphs && y in s.graphs[g].edgeIds ==> y in Mentioned(s);
  }

  /** Ids that are pairwise distinct and collide with nothing in the state. */
  ghost predicate FreshIds(s: GraphState, ids: seq<string>)
  {
    Distinct(ids) && forall i :: 0 <= i < |ids| ==> NotMentioned(s, ids[i])
  }

  // ---------------------------------------------------------------------------
  // The cross-reference invariant
  // ---------------------------------------------------------------------------

  ghost predicate KeysAreIds(s: GraphState)
  {
    (forall k :: k in s.graphs ==> s.graphs[k].id == k)
    && (forall k :: k in s.nodes ==> s.nodes[k].id == k)
    && (forall k :: k in s.edges ==> s.edges[k].id == k)
    && (forall k :: k in s.pins ==> s.pins[k].id == k)
  }

  /** Every pin's owner exists. */
  ghost predicate PinsHaveNodes(s: GraphState)
  {
    forall k :: k in s.pins ==> s.pins[k].nodeId in s.nodes
  }

  /** Every node lives in an existing graph that lists it. */
  ghost predicate NodesListed(s: GraphState)
  {
    forall k :: k in s.nodes ==> s.nodes[k].graphId in s.graphs && k in s.graphs[s.nodes[k].graphId].nodeIds
  }

  /** Every id in a graph's `nodeIds` names a node of that graph. */
  ghost predicate ListedNodesExist(s: GraphState)
  {
    forall g, x :: g in s.graphs && x in s.graphs[g].nodeIds ==> x in s.nodes && s.nodes[x].graphId == g
  }

  /** The graph of the node owning pin `p`, if both exist. */
  function PinGraph(s: GraphState, p: string): Option<string>
  {
    if p in s.pins && s.pins[p].nodeId in s.nodes then Some(s.nodes[s.pins[p].nodeId].graphId) else None
  }

  /** An edge belongs to the graph of its source pin's node. */
  function Home(s: GraphState, e: string): Option<string>
  {
    if e in s.edges then PinGraph(s, s.edges[e].fromPinId) else None
  }

  /**
   * Every edge joins two existing pins of nodes of one graph, and that graph lists it.
   * The store does not check the target pin; the canvas only connects handles shown
   * in one graph, which is what keeps this.
   */
  ghost predicate EdgesWired(s: GraphState)
  {
    forall e :: e in s.edges ==>
      Home(s, e).Some? && PinGraph(s, s.edges[e].toPinId) == Home(s, e)
      && Home(s, e).value in s.graphs && e in s.graphs[Home(s, e).value].edgeIds
  }

  /** Every id in a graph's `edgeIds` names an edge of that graph. */
  ghost predicate ListedEdgesExist(s: GraphState)
  {
    forall g, e :: g in s.graphs && e in s.graphs[g].edgeIds ==> e in s.edges && Home(s, e) == Some(g)
  }

  /** The node side of the invariant: keys, pin owners and node lists agree. */
  ghost predicate NodesIntact(s: GraphState)
  {
    KeysAreIds(s) && PinsHaveNodes(s) && NodesListed(s) && ListedNodesExist(s)
  }

  /** The edge side of the invariant: edges and edge lists agree. */
  ghost predicate EdgesIntact(s: GraphState)
  {
    EdgesWired(s) && ListedEdgesExist(s)
  }

  /** Nothing dangling: the invariant every action below preserves. */
  ghost predicate Consistent(s: GraphState)
  {
    NodesIntact(s) && EdgesIntact(s)
  }

  lemma EmptyConsistent()
    ensures Consistent(EmptyState)
  {
  }

  /**
   * `r` differs from `s` only in payload fields (names, labels, positions, data):
   * the same keys, and every reference between entities is the same.
   */
  ghost predicate SameShape(s: GraphState, r: GraphState)
  {
    && s.graphs.Keys == r.graphs.Keys && s.nodes.Keys == r.nodes.Keys
    && s.edges.Keys == r.edges.Keys && s.pins.Keys == r.pins.Keys
    && (forall k :: k in s.graphs ==>
          r.graphs[k].id == s.graphs[k].id && r.graphs[k].nodeIds == s.graphs[k].nodeIds
          && r.graphs[k].edgeIds == s.graphs[k].edgeIds)
    && (forall k :: k in s.nodes ==> r.nodes[k].id == s.nodes[k].id && r.nodes[k].graphId == s.nodes[k].graphId)
    && (forall k :: k in s.edges ==>
          r.edges[k].id == s.edges[k].id && r.edges[k].fromPinId == s.edges[k].fromPinId
          && r.edges[k].toPinId == s.edges[k].toPinId)
    && (forall k :: k in s.pins ==> r.pins[k].id == s.pins[k].id && r.pins[k].nodeId == s.pins[k].nodeId)
  }

  lemma SameShapeHome(s: GraphState, r: GraphState)
    requires SameShape(s, r)
    ensures forall p :: PinGraph(r, p) == PinGraph(s, p)
    ensures forall e :: Home(r, e) == Home(s, e)
  {
    assert forall p :: PinGraph(r, p) == PinGraph(s, p);
  }

  /** Changing payload fields only cannot break the invariant. */
  lemma SameShapeConsistent(s: GraphState, r: GraphState)
    requires Consistent(s) && SameShape(s, r)
    ensures Consistent(r)
  {
    SameShapeHome(s, r);
    SameShapeNodesIntact(s, r);
    SameShapeEdgesIntact(s, r);
  }

  lemma SameShapeNodesIntact(s: GraphState, r: GraphState)
    requires NodesIntact(s) && SameShape(s, r)
    requires forall p :: PinGraph(r, p) == PinGraph(s, p)
    ensures NodesIntact(r)
  {
  }

  lemma SameShapeEdgesIntact(s: GraphState, r: GraphState)
    requires EdgesIntact(s) && SameShape(s, r)
    requires forall p :: PinGraph(r, p) == PinGraph(s, p)
    requires forall e :: Home(r, e) == Home(s, e)
    ensures EdgesIntact(r)
  {
  }

  /** The wiring (which graph each pin and edge belongs to) is read from pins, nodes and edges only. */
  lemma SameWiring(s: GraphState, r: GraphState)
    requires r.pins == s.pins && r.nodes == s.nodes && r.edges == s.edges
    ensures forall p :: PinGraph(r, p) == PinGraph(s, p)
    ensures forall e :: Home(r, e) == Home(s, e)
  {
  }

  /** The node side reads only graph ids and node lists, nodes, pins, and edge ids. */
  lemma NodesIntactFrame(s: GraphState, r: GraphState)
    requires NodesIntact(s)
    requires r.nodes == s.nodes && r.graphs.Keys == s.graphs.Keys
    requires forall k :: k in r.pins ==> k in s.pins && r.pins[k] == s.pins[k]
    requires forall h :: h in s.graphs ==> r.graphs[h].id == s.graphs[h].id && r.graphs[h].nodeIds == s.graphs[h].nodeIds
    requires forall k :: k in r.edges ==> r.edges[k].id == k
    ensures NodesIntact(r)
  {
  }

  // ---------------------------------------------------------------------------
  // createGraph
  // ---------------------------------------------------------------------------

  function AddGraph(s: GraphState, id: string, name: string): GraphState
  {
    s.(graphs := s.graphs[id := Graph(id, name, [], [])])
  }

  /** A new empty graph under an unused key keeps the state consistent. */
  lemma AddGraphConsistent(s: GraphState, id: string, name: string)
    requires Consistent(s) && id !in s.graphs
    ensures Consistent(AddGraph(s, id, name))
  {
    var r := AddGraph(s, id, name);
    AddedGraphNodesIntact(s, id, name, r);
    AddedGraphEdgesIntact(s, id, name, r);
  }

  lemma AddedGraphNodesIntact(s: GraphState, id: string, name: string, r: GraphState)
    requires NodesIntact(s) && id !in s.graphs && r == AddGraph(s, id, name)
    ensures NodesIntact(r)
  {
    SameWiring(s, r);
  }

  lemma AddedGraphEdgesIntact(s: GraphState, id: string, name: string, r: GraphState)
    requires EdgesIntact(s) && id !in s.graphs && r == AddGraph(s, id, name)
    ensures EdgesIntact(r)
  {
    SameWiring(s, r);
  }

  // ---------------------------------------------------------------------------
  // createNode
  // ---------------------------------------------------------------------------

  /** The input pins the creation loop adds, one per id, in order. */
  function AddInputPins(pins: map<string, Pin>, nodeId: string, ids: seq<string>): map<string, Pin>
  {
    if ids == [] then pins
    else AddInputPins(pins, nodeId, ids[..|ids| - 1])[ids[|ids| - 1] := Pin(ids[|ids| - 1], nodeId, In, None, None, None)]
  }

  /** The output pins the creation loop adds; the `i`-th takes the `i`-th default name. */
  function AddOutputPins(pins: map<string, Pin>, nodeId: string, ids: seq<string>, c: PinConfig): map<string, Pin>
  {
    if ids == [] then pins
    else AddOutputPins(pins, nodeId, ids[..|ids| - 1], c)[ids[|ids| - 1] := Pin(ids[|ids| - 1], nodeId, Out, OutputName(c, |ids| - 1), None, None)]
  }

  lemma {:induction false} AddInputPinsContents(pins: map<string, Pin>, nodeId: string, ids: seq<string>)
    ensures AddInputPins(pins, nodeId, ids).Keys == pins.Keys + Elems(ids)
    ensures forall k :: k in pins && k !in ids ==> AddInputPins(pins, nodeId, ids)[k] == pins[k]
    ensures forall i :: 0 <= i < |ids| ==> AddInputPins(pins, nodeId, ids)[ids[i]] == Pin(ids[i], nodeId, In, None, None, None)
  {
    if ids != [] {
      var init := ids[..|ids| - 1];
      AddInputPinsContents(pins, nodeId, init);
      assert ids == init + [ids[|ids| - 1]];
      forall i | 0 <= i < |ids| - 1 ensures ids[i] == init[i] {
      }
    }
  }

  lemma {:induction false} AddOutputPinsContents(pins: map<string, Pin>, nodeId: string, ids: seq<string>, c: PinConfig)
    requires Distinct(ids)
    ensures AddOutputPins(pins, nodeId, ids, c).Keys == pins.Keys + Elems(ids)
    ensures forall k :: k in pins && k !in ids ==> AddOutputPins(pins, nodeId, ids, c)[k] == pins[k]
    ensures forall i :: 0 <= i < |ids| ==> AddOutputPins(pins, nodeId, ids, c)[ids[i]] == Pin(ids[i], nodeId, Out, OutputName(c, i), None, None)
  {
    if ids != [] {
      var init := ids[..|ids| - 1];
      AddOutputPinsContents(pins, nodeId, init, c);
      assert ids == init + [ids[|ids| - 1]];
      forall i | 0 <= i < |ids| - 1 ensures ids[i] == init[i] && ids[i] != ids[|ids| - 1] {
      }
    }
  }

  /** The pins a new node gets, keyed by their ids. */
  function NewNodePins(nodeId: string, inIds: seq<string>, outIds: seq<string>, c: PinConfig): map<string, Pin>
  {
    AddOutputPins(AddInputPins(map[], nodeId, inIds), nodeId, outIds, c)
  }

  /** One pin per id, input pins first, output pin `i` named by the table. */
  lemma NewNodePinsContents(nodeId: string, inIds: seq<string>, outIds: seq<string>, c: PinConfig)
    requires Distinct(inIds) && Distinct(outIds)
    requires forall i, j :: 0 <= i < |inIds| && 0 <= j < |outIds| ==> inIds[i] != outIds[j]
    ensures var np := NewNodePins(nodeId, inIds, outIds, c);
      && np.Keys == Elems(inIds) + Elems(outIds)
      && (forall i :: 0 <= i < |inIds| ==> np[inIds[i]] == Pin(inIds[i], nodeId, In, None, None, None))
      && (forall i :: 0 <= i < |outIds| ==> np[outIds[i]] == Pin(outIds[i], nodeId, Out, OutputName(c, i), None, None))
  {
    AddInputPinsContents(map[], nodeId, inIds);
    AddOutputPinsContents(AddInputPins(map[], nodeId, inIds), nodeId, outIds, c);
  }

  /**
   * The state after creating a node of kind `t` with the given fresh ids in the
   * graph `target`; `innerId` is used by container kinds only.
   */
  function CreateNodeSpec(s: GraphState, t: NodeType, position: Position, target: string,
                          nodeId: string, inIds: seq<string>, outIds: seq<string>, innerId: string): GraphState
    requires target in s.graphs
  {
    var graphs := if IsContainerType(t) then s.graphs[innerId := Graph(innerId, InnerGraphName(t), [], [])] else s.graphs;
    var g := s.graphs[target];
    GraphState(
      graphs[target := g.(nodeIds := g.nodeIds + [nodeId])],
      s.nodes[nodeId := Node(nodeId, t, position, InitialNodeData(t, innerId), target)],
      s.edges,
      s.pins + NewNodePins(nodeId, inIds, outIds, DefaultPins(t)))
  }

  /** The ids a node creation uses, in the order the store generates them. */
  function CreationIds(t: NodeType, nodeId: string, inIds: seq<string>, outIds: seq<string>, innerId: string): seq<string>
  {
    [nodeId] + inIds + outIds + (if IsContainerType(t) then [innerId] else [])
  }

  lemma CreationIdsFacts(s: GraphState, t: NodeType, nodeId: string, inIds: seq<string>, outIds: seq<string>, innerId: string)
    requires FreshIds(s, CreationIds(t, nodeId, inIds, outIds, innerId))
    ensures NotMentioned(s, nodeId)
    ensures Distinct(inIds) && Distinct(outIds)
    ensures forall i :: 0 <= i < |inIds| ==> NotMentioned(s, inIds[i]) && inIds[i] != nodeId
    ensures forall i :: 0 <= i < |outIds| ==> NotMentioned(s, outIds[i]) && outIds[i] != nodeId
    ensures forall i, j :: 0 <= i < |inIds| && 0 <= j < |outIds| ==> inIds[i] != outIds[j]
    ensures IsContainerType(t) ==> NotMentioned(s, innerId) && innerId != nodeId
  {
    var ids := CreationIds(t, nodeId, inIds, outIds, innerId);
    assert ids[0] == nodeId;
    assert forall i :: 0 <= i < |inIds| ==> inIds[i] == ids[1 + i];
    assert forall i :: 0 <= i < |outIds| ==> outIds[i] == ids[1 + |inIds| + i];
    if IsContainerType(t) {
      assert innerId == ids[|ids| - 1];
    }
  }

  /** The pins owned by node `n` with direction `d`. */
  function OwnedPins(pins: map<string, Pin>, n: string, d: PinDirection): set<string>
  {
    set k | k in pins && pins[k].nodeId == n && pins[k].direction == d
  }

  lemma OwnedNewPins(nodeId: string, inIds: seq<string>, outIds: seq<string>, c: PinConfig)
    requires Distinct(inIds) && Distinct(outIds)
    requires forall i, j :: 0 <= i < |inIds| && 0 <= j < |outIds| ==> inIds[i] != outIds[j]
    ensures OwnedPins(NewNodePins(nodeId, inIds, outIds, c), nodeId, In) == Elems(inIds)
    ensures OwnedPins(NewNodePins(nodeId, inIds, outIds, c), nodeId, Out) == Elems(outIds)
  {
    NewNodePinsContents(nodeId, inIds, outIds, c);
  }

  lemma OwnedPinsUnion(pins: map<string, Pin>, np: map<string, Pin>, n: string, d: PinDirection)
    requires forall k :: k in pins ==> pins[k].nodeId != n
    ensures OwnedPins(pins + np, n, d) == OwnedPins(np, n, d)
  {
  }

  /** Adding the new pins to a pin map that has none of their keys and none owned by the node. */
  lemma PinsAfterCreation(pins: map<string, Pin>, nodeId: string, inIds: seq<string>, outIds: seq<string>, c: PinConfig)
    requires Distinct(inIds) && Distinct(outIds)
    requires forall i, j :: 0 <= i < |inIds| && 0 <= j < |outIds| ==> inIds[i] != outIds[j]
    requires forall k :: k in pins ==> pins[k].nodeId != nodeId && k !in inIds && k !in outIds
    ensures var r := pins + NewNodePins(nodeId, inIds, outIds, c);
      && OwnedPins(r, nodeId, In) == Elems(inIds)
      && OwnedPins(r, nodeId, Out) == Elems(outIds)
      && |OwnedPins(r, nodeId, In)| == |inIds|
      && |OwnedPins(r, nodeId, Out)| == |outIds|
      && (forall i :: 0 <= i < |outIds| ==> outIds[i] in r && r[outIds[i]].name == OutputName(c, i))
      && (forall k :: k in pins ==> k in r && r[k] == pins[k])
  {
    var np := NewNodePins(nodeId, inIds, outIds, c);
    NewNodePinsContents(nodeId, inIds, outIds, c);
    OwnedNewPins(nodeId, inIds, outIds, c);
    OwnedPinsUnion(pins, np, nodeId, In);
    OwnedPinsUnion(pins, np, nodeId, Out);
    DistinctCard(inIds);
    DistinctCard(outIds);
  }

  /**
   * A created node owns exactly one input pin per input id and one output pin per
   * output id; output `i` carries the `i`-th default name; old pins are kept.
   */
  lemma CreateNodePins(s: GraphState, t: NodeType, position: Position, target: string,
                       nodeId: string, inIds: seq<string>, outIds: seq<string>, innerId: string)
    requires target in s.graphs
    requires FreshIds(s, CreationIds(t, nodeId, inIds, outIds, innerId))
    ensures var r := CreateNodeSpec(s, t, position, target, nodeId, inIds, outIds, innerId);
      && OwnedPins(r.pins, nodeId, In) == Elems(inIds)
      && OwnedPins(r.pins, nodeId, Out) == Elems(outIds)
      && |OwnedPins(r.pins, nodeId, In)| == |inIds|
      && |OwnedPins(r.pins, nodeId, Out)| == |outIds|
      && (forall i :: 0 <= i < |outIds| ==> outIds[i] in r.pins && r.pins[outIds[i]].name == OutputName(DefaultPins(t), i))
      && (forall k :: k in s.pins ==> k in r.pins && r.pins[k] == s.pins[k])
  {
    CreationIdsFacts(s, t, nodeId, inIds, outIds, innerId);
    PinsAfterCreation(s.pins, nodeId, inIds, outIds, DefaultPins(t));
  }

  function AddNode(s: GraphState, n: Node): GraphState
    requires n.graphId in s.graphs
  {
    var g := s.graphs[n.graphId];
    s.(nodes := s.nodes[n.id := n], graphs := s.graphs[n.graphId := g.(nodeIds := g.nodeIds + [n.id])])
  }

  lemma AddNodeNodesIntact(s: GraphState, n: Node)
    requires NodesIntact(s) && n.graphId in s.graphs && n.id !in s.nodes
    ensures NodesIntact(AddNode(s, n))
  {
  }

  lemma AddNodeEdgesIntact(s: GraphState, n: Node)
    requires PinsHaveNodes(s) && EdgesIntact(s) && n.graphId in s.graphs && n.id !in s.nodes
    ensures EdgesIntact(AddNode(s, n))
  {
    var r := AddNode(s, n);
    assert forall p :: PinGraph(r, p) == PinGraph(s, p);
  }

  /** A new node under an unused key, listed in an existing graph, keeps the state consistent. */
  lemma AddNodeConsistent(s: GraphState, n: Node)
    requires Consistent(s) && n.graphId in s.graphs && n.id !in s.nodes
    ensures Consistent(AddNode(s, n))
  {
    AddNodeNodesIntact(s, n);
    AddNodeEdgesIntact(s, n);
  }

  function AddPins(s: GraphState, np: map<string, Pin>): GraphState
  {
    s.(pins := s.pins + np)
  }

  lemma AddPinsNodesIntact(s: GraphState, np: map<string, Pin>)
    requires NodesIntact(s)
    requires forall k :: k in np ==> np[k].id == k && np[k].nodeId in s.nodes
    ensures NodesIntact(AddPins(s, np))
  {
    var r := AddPins(s, np);
    assert r.nodes == s.nodes && r.graphs == s.graphs && r.edges == s.edges;
    forall k | k in r.pins
      ensures r.pins[k].id == k && r.pins[k].nodeId in r.nodes
    {
      if k in np {
        assert r.pins[k] == np[k];
      } else {
        assert r.pins[k] == s.pins[k];
      }
    }
  }

  lemma AddPinsEdgesIntact(s: GraphState, np: map<string, Pin>)
    requires EdgesIntact(s)
    requires forall k :: k in np ==> k !in s.pins
    ensures EdgesIntact(AddPins(s, np))
  {
    var r := AddPins(s, np);
    assert forall p :: p in s.pins ==> PinGraph(r, p) == PinGraph(s, p);
    assert forall e :: Home(r, e) == Home(s, e);
  }

  /** New pins under unused keys, owned by existing nodes, keep the state consistent. */
  lemma AddPinsConsistent(s: GraphState, np: map<string, Pin>)
    requires Consistent(s)
    requires forall k :: k in np ==> k !in s.pins && np[k].id == k && np[k].nodeId in s.nodes
    ensures Consistent(AddPins(s, np))
  {
    AddPinsNodesIntact(s, np);
    AddPinsEdgesIntact(s, np);
  }

  /** Creating a node is adding the inner graph, then the node, then its pins. */
  lemma CreateNodeSteps(s: GraphState, t: NodeType, position: Position, target: string,
                        nodeId: string, inIds: seq<string>, outIds: seq<string>, innerId: string)
    requires target in s.graphs
    requires IsContainerType(t) ==> innerId !in s.graphs
    ensures var s1 := if IsContainerType(t) then AddGraph(s, innerId, InnerGraphName(t)) else s;
      var n := Node(nodeId, t, position, InitialNodeData(t, innerId), target);
      CreateNodeSpec(s, t, position, target, nodeId, inIds, outIds, innerId)
        == AddPins(AddNode(s1, n), NewNodePins(nodeId, inIds, outIds, DefaultPins(t)))
  {
  }

  /** The new pins sit under unused keys, each under its own id, owned by the node. */
  lemma NewNodePinsFit(s: GraphState, nodeId: string, inIds: seq<string>, outIds: seq<string>, c: PinConfig)
    requires nodeId in s.nodes
    requires Distinct(inIds) && Distinct(outIds)
    requires forall i, j :: 0 <= i < |inIds| && 0 <= j < |outIds| ==> inIds[i] != outIds[j]
    requires forall i :: 0 <= i < |inIds| ==> inIds[i] !in s.pins
    requires forall i :: 0 <= i < |outIds| ==> outIds[i] !in s.pins
    ensures var np := NewNodePins(nodeId, inIds, outIds, c);
      forall k :: k in np ==> k !in s.pins && np[k].id == k && np[k].nodeId in s.nodes
  {
    NewNodePinsContents(nodeId, inIds, outIds, c);
    var np := NewNodePins(nodeId, inIds, outIds, c);
    forall k | k in np
      ensures k !in s.pins && np[k].id == k && np[k].nodeId in s.nodes
    {
      if k in Elems(inIds) {
        var i :| 0 <= i < |inIds| && inIds[i] == k;
      } else {
        var i :| 0 <= i < |outIds| && outIds[i] == k;
      }
    }
  }

  /** Creating a node with fresh ids in an existing graph keeps the state consistent. */
  lemma CreateNodeConsistent(s: GraphState, t: NodeType, position: Position, target: string,
                             nodeId: string, inIds: seq<string>, outIds: seq<string>, innerId: string)
    requires Consistent(s) && target in s.graphs
    requires FreshIds(s, CreationIds(t, nodeId, inIds, outIds, innerId))
    ensures Consistent(CreateNodeSpec(s, t, position, target, nodeId, inIds, outIds, innerId))
  {
    CreationIdsFacts(s, t, nodeId, inIds, outIds, innerId);
    CreateNodeSteps(s, t, position, target, nodeId, inIds, outIds, innerId);
    var s1 := if IsContainerType(t) then AddGraph(s, innerId, InnerGraphName(t)) else s;
    if IsContainerType(t) {
      AddGraphConsistent(s, innerId, InnerGraphName(t));
    }
    var n := Node(nodeId, t, position, InitialNodeData(t, innerId), target);
    AddNodeConsistent(s1, n);
    var s2 := AddNode(s1, n);
    assert s2.pins == s.pins && nodeId in s2.nodes;
    NewNodePinsFit(s2, nodeId, inIds, outIds, DefaultPins(t));
    AddPinsConsistent(s2, NewNodePins(nodeId, inIds, outIds, DefaultPins(t)));
  }

  // ---------------------------------------------------------------------------
  // moveNode, updateNodeData
  // ---------------------------------------------------------------------------

  function MoveNodeSpec(s: GraphState, nodeId: string, position: Position): GraphState
    requires nodeId in s.nodes
  {
    s.(nodes := s.nodes[nodeId := s.nodes[nodeId].(position := position)])
  }

  lemma MoveNodeConsistent(s: GraphState, nodeId: string, position: Position)
    requires Consistent(s) && nodeId in s.nodes
    ensures Consistent(MoveNodeSpec(s, nodeId, position))
  {
    SameShapeConsistent(s, MoveNodeSpec(s, nodeId, position));
  }

  /** Shallow-merges `patch` into a node's data; a missing node leaves the state as it is. */
  function UpdateNodeDataSpec(s: GraphState, nodeId: string, patch: seq<Field>): GraphState
  {
    if nodeId !in s.nodes then s
    else s.(nodes := s.nodes[nodeId := s.nodes[nodeId].(data := Spread(s.nodes[nodeId].data, patch))])
  }

  /**
   * Merging data changes only that node's data: every patched key reads back as
   * patched, every other key keeps its value, and id, kind, position and graph stay.
   */
  lemma UpdateNodeDataEffect(s: GraphState, nodeId: string, patch: seq<Field>, k: string)
    requires nodeId in s.nodes && UniqueKeys(patch)
    ensures var r := UpdateNodeDataSpec(s, nodeId, patch);
      && r.nodes.Keys == s.nodes.Keys
      && (forall x :: x in s.nodes && x != nodeId ==> r.nodes[x] == s.nodes[x])
      && r.nodes[nodeId].id == s.nodes[nodeId].id
      && r.nodes[nodeId].kind == s.nodes[nodeId].kind
      && r.nodes[nodeId].position == s.nodes[nodeId].position
      && r.nodes[nodeId].graphId == s.nodes[nodeId].graphId
      && Lookup(r.nodes[nodeId].data, k) == (if HasKey(patch, k) then Lookup(patch, k) else Lookup(s.nodes[nodeId].data, k))
      && (r.graphs, r.edges, r.pins) == (s.graphs, s.edges, s.pins)
  {
    SpreadLookup(s.nodes[nodeId].data, patch, k);
  }

  lemma UpdateNodeDataConsistent(s: GraphState, nodeId: string, patch: seq<Field>)
    requires Consistent(s)
    ensures Consistent(UpdateNodeDataSpec(s, nodeId, patch))
  {
    if nodeId in s.nodes {
      SameShapeConsistent(s, UpdateNodeDataSpec(s, nodeId, patch));
    }
  }

  // ---------------------------------------------------------------------------
  // addPin, updatePin
  // ---------------------------------------------------------------------------

  function AddPinSpec(s: GraphState, pinId: string, nodeId: string, direction: PinDirection, name: Option<string>): GraphState
  {
    s.(pins := s.pins[pinId := Pin(pinId, nodeId, direction, name, None, None)])
  }

  /** Adding a fresh pin to an existing node keeps the state consistent. */
  lemma AddPinConsistent(s: GraphState, pinId: string, nodeId: string, direction: PinDirection, name: Option<string>)
    requires Consistent(s) && FreshIds(s, [pinId]) && nodeId in s.nodes
    ensures Consistent(AddPinSpec(s, pinId, nodeId, direction, name))
  {
    assert pinId !in s.pins by {
      assert [pinId][0] == pinId;
    }
    AddOnePinConsistent(s, Pin(pinId, nodeId, direction, name, None, None));
  }

  lemma AddOnePinConsistent(s: GraphState, p: Pin)
    requires Consistent(s) && p.id !in s.pins && p.nodeId in s.nodes
    ensures Consistent(s.(pins := s.pins[p.id := p]))
  {
    assert s.pins[p.id := p] == s.pins + map[p.id := p];
    AddPinsConsistent(s, map[p.id := p]);
  }

  /** A partial update: `None` leaves a field alone, `Some(v)` assigns `v` (possibly `undefined`). */
  datatype PinUpdate = PinUpdate(name: Option<Option<string>>, conditionExpr: Option<Option<string>>, instructionExpr: Option<Option<string>>)

  function Override<T>(current: T, update: Option<T>): T
  {
    match update
    case Some(v) => v
    case None => current
  }

  function UpdatePinSpec(s: GraphState, pinId: string, u: PinUpdate): GraphState
    requires pinId in s.pins
  {
    var p := s.pins[pinId];
    s.(pins := s.pins[pinId := p.(name := Override(p.name, u.name),
                                  conditionExpr := Override(p.conditionExpr, u.conditionExpr),
                                  instructionExpr := Override(p.instructionExpr, u.instructionExpr))])
  }

  lemma UpdatePinConsistent(s: GraphState, pinId: string, u: PinUpdate)
    requires Consistent(s) && pinId in s.pins
    ensures Consistent(UpdatePinSpec(s, pinId, u))
  {
    SameShapeConsistent(s, UpdatePinSpec(s, pinId, u));
  }

  // ---------------------------------------------------------------------------
  // removePin, deleteEdges
  // ---------------------------------------------------------------------------

  /** Ids of the edges that start or end at pin `pinId`. */
  function EdgesAtPin(edges: map<string, Edge>, pinId: string): set<string>
  {
    set k | k in edges && (edges[k].fromPinId == pinId || edges[k].toPinId == pinId) :: edges[k].id
  }

  /** Every graph's `edgeIds` with the ids in `removed` filtered out. */
  function PruneEdgeLists(graphs: map<string, Graph>, removed: set<string>): (r: map<string, Graph>)
    ensures r.Keys == graphs.Keys
  {
    map g | g in graphs :: graphs[g].(edgeIds := Without(graphs[g].edgeIds, removed))
  }

  function RemovePinSpec(s: GraphState, pinId: string): GraphState
  {
    var removed := EdgesAtPin(s.edges, pinId);
    GraphState(PruneEdgeLists(s.graphs, removed), s.nodes, s.edges - removed, s.pins - {pinId})
  }

  /**
   * Removing a pin leaves no edge at that pin and no graph listing a removed edge;
   * nodes, other pins and other edges are untouched.
   */
  lemma RemovePinEffect(s: GraphState, pinId: string)
    requires KeysAreIds(s)
    ensures var r := RemovePinSpec(s, pinId);
      && pinId !in r.pins
      && (forall k :: k in r.edges ==> r.edges[k].fromPinId != pinId && r.edges[k].toPinId != pinId)
      && (forall k :: k in s.edges && s.edges[k].fromPinId != pinId && s.edges[k].toPinId != pinId ==> k in r.edges && r.edges[k] == s.edges[k])
      && (forall g :: g in r.graphs ==> forall e :: e in r.graphs[g].edgeIds ==> e !in s.edges || e in r.edges)
      && r.nodes == s.nodes
      && (forall k :: k in s.pins && k != pinId ==> k in r.pins && r.pins[k] == s.pins[k])
  {
  }

  /** Removing the edges `removed` from the edge map and from every graph's list. */
  function PruneEdges(s: GraphState, removed: set<string>): GraphState
  {
    s.(edges := s.edges - removed, graphs := PruneEdgeLists(s.graphs, removed))
  }

  lemma PruneEdgesNodesIntact(s: GraphState, removed: set<string>)
    requires NodesIntact(s)
    ensures NodesIntact(PruneEdges(s, removed))
  {
    NodesIntactFrame(s, PruneEdges(s, removed));
  }

  lemma PruneEdgesEdgesIntact(s: GraphState, removed: set<string>)
    requires EdgesIntact(s)
    ensures EdgesIntact(PruneEdges(s, removed))
  {
    var r := PruneEdges(s, removed);
    assert forall p :: PinGraph(r, p) == PinGraph(s, p);
    PrunedEdgesWired(s, removed, r);
    PrunedListedEdges(s, removed, r);
  }

  lemma PrunedEdgesWired(s: GraphState, removed: set<string>, r: GraphState)
    requires EdgesWired(s) && r == PruneEdges(s, removed)
    requires forall p :: PinGraph(r, p) == PinGraph(s, p)
    ensures EdgesWired(r)
  {
    forall e | e in r.edges
      ensures Home(r, e).Some? && PinGraph(r, r.edges[e].toPinId) == Home(r, e)
      ensures Home(r, e).value in r.graphs && e in r.graphs[Home(r, e).value].edgeIds
    {
      assert Home(r, e) == Home(s, e);
    }
  }

  lemma PrunedListedEdges(s: GraphState, removed: set<string>, r: GraphState)
    requires ListedEdgesExist(s) && r == PruneEdges(s, removed)
    ensures ListedEdgesExist(r)
  {
    forall g, e | g in r.graphs && e in r.graphs[g].edgeIds
      ensures e in r.edges && Home(r, e) == Some(g)
    {
      assert r.graphs[g].edgeIds == Without(s.graphs[g].edgeIds, removed);
      assert e in s.graphs[g].edgeIds && e !in removed;
      ListedEdgeExists(s, g, e);
      assert r.pins == s.pins && r.nodes == s.nodes && r.edges[e] == s.edges[e];
    }
  }

  lemma ListedEdgeExists(s: GraphState, g: string, e: string)
    requires ListedEdgesExist(s) && g in s.graphs && e in s.graphs[g].edgeIds
    ensures e in s.edges && Home(s, e) == Some(g)
  {
  }

  /** Removing any set of edges together with their list entries keeps the state consistent. */
  lemma PruneEdgesConsistent(s: GraphState, removed: set<string>)
    requires Consistent(s)
    ensures Consistent(PruneEdges(s, removed))
  {
    PruneEdgesNodesIntact(s, removed);
    PruneEdgesEdgesIntact(s, removed);
  }

  lemma DropUnusedPinEdgesIntact(s: GraphState, pinId: string)
    requires EdgesIntact(s)
    requires forall e :: e in s.edges ==> s.edges[e].fromPinId != pinId && s.edges[e].toPinId != pinId
    ensures EdgesIntact(s.(pins := s.pins - {pinId}))
  {
    var r := s.(pins := s.pins - {pinId});
    assert forall e :: e in s.edges ==> Home(r, e) == Home(s, e) && PinGraph(r, s.edges[e].toPinId) == PinGraph(s, s.edges[e].toPinId);
  }

  /** Dropping a pin no edge uses keeps the state consistent. */
  lemma DropUnusedPinConsistent(s: GraphState, pinId: string)
    requires Consistent(s)
    requires forall e :: e in s.edges ==> s.edges[e].fromPinId != pinId && s.edges[e].toPinId != pinId
    ensures Consistent(s.(pins := s.pins - {pinId}))
  {
    NodesIntactFrame(s, s.(pins := s.pins - {pinId}));
    DropUnusedPinEdgesIntact(s, pinId);
  }

  lemma RemovePinConsistent(s: GraphState, pinId: string)
    requires Consistent(s)
    ensures Consistent(RemovePinSpec(s, pinId))
  {
    var removed := EdgesAtPin(s.edges, pinId);
    var s1 := PruneEdges(s, removed);
    PruneEdgesConsistent(s, removed);
    assert forall e :: e in s1.edges ==> s1.edges[e].fromPinId != pinId && s1.edges[e].toPinId != pinId;
    DropUnusedPinConsistent(s1, pinId);
  }

  function DeleteEdgesSpec(s: GraphState, edgeIds: seq<string>): GraphState
  {
    s.(edges := s.edges - Elems(edgeIds), graphs := PruneEdgeLists(s.graphs, Elems(edgeIds)))
  }

  /** The deleted ids are gone from the edge map and from every graph's list; nothing else changes. */
  lemma DeleteEdgesEffect(s: GraphState, edgeIds: seq<string>)
    ensures var r := DeleteEdgesSpec(s, edgeIds);
      && (forall e :: e in edgeIds ==> e !in r.edges && forall g :: g in r.graphs ==> e !in r.graphs[g].edgeIds)
      && (forall e :: e in s.edges && e !in edgeIds ==> e in r.edges && r.edges[e] == s.edges[e])
      && (forall g :: g in s.graphs ==> r.graphs[g].nodeIds == s.graphs[g].nodeIds && r.graphs[g].name == s.graphs[g].name)
      && r.nodes == s.nodes && r.pins == s.pins
  {
  }

  lemma DeleteEdgesConsistent(s: GraphState, edgeIds: seq<string>)
    requires Consistent(s)
    ensures Consistent(DeleteEdgesSpec(s, edgeIds))
  {
    PruneEdgesConsistent(s, Elems(edgeIds));
  }

  // ---------------------------------------------------------------------------
  // createEdge, updateEdge
  // ---------------------------------------------------------------------------

  /** The source pin and its node exist: the edge will be inserted. */
  predicate SourceResolves(s: GraphState, fromPinId: string)
  {
    fromPinId in s.pins && s.pins[fromPinId].nodeId in s.nodes
  }

  /** The call does not throw: when the source resolves, its node's graph exists. */
  predicate CreateEdgeDefined(s: GraphState, fromPinId: string)
  {
    SourceResolves(s, fromPinId) ==> s.nodes[s.pins[fromPinId].nodeId].graphId in s.graphs
  }

  function CreateEdgeSpec(s: GraphState, id: string, fromPinId: string, toPinId: string,
                          labelText: Option<string>, color: Option<string>): GraphState
    requires CreateEdgeDefined(s, fromPinId)
  {
    if !SourceResolves(s, fromPinId) then s
    else
      var g := s.nodes[s.pins[fromPinId].nodeId].graphId;
      s.(edges := s.edges[id := Edge(id, fromPinId, toPinId, labelText, color)],
         graphs := s.graphs[g := s.graphs[g].(edgeIds := s.graphs[g].edgeIds + [id])])
  }

  /**
   * An unresolved source changes nothing; otherwise the edge is stored and appended
   * to its source node's graph, whatever the target pin is.
   */
  lemma CreateEdgeEffect(s: GraphState, id: string, fromPinId: string, toPinId: string,
                         labelText: Option<string>, color: Option<string>)
    requires CreateEdgeDefined(s, fromPinId)
    ensures var r := CreateEdgeSpec(s, id, fromPinId, toPinId, labelText, color);
      && (!SourceResolves(s, fromPinId) ==> r == s)
      && (SourceResolves(s, fromPinId) ==>
            var g := s.nodes[s.pins[fromPinId].nodeId].graphId;
            && r.edges == s.edges[id := Edge(id, fromPinId, toPinId, labelText, color)]
            && r.graphs[g].edgeIds == s.graphs[g].edgeIds + [id]
            && r.graphs.Keys == s.graphs.Keys
            && (forall h :: h in s.graphs && h != g ==> r.graphs[h] == s.graphs[h])
            && r.nodes == s.nodes && r.pins == s.pins)
  {
  }

  /** The target pin is not checked: an edge to a pin that does not exist is stored. */
  lemma CreateEdgeIgnoresTarget(s: GraphState, id: string, fromPinId: string, toPinId: string)
    requires CreateEdgeDefined(s, fromPinId) && SourceResolves(s, fromPinId) && toPinId !in s.pins
    ensures id in CreateEdgeSpec(s, id, fromPinId, toPinId, None, None).edges
    ensures !EdgesWired(CreateEdgeSpec(s, id, fromPinId, toPinId, None, None))
  {
    var r := CreateEdgeSpec(s, id, fromPinId, toPinId, None, None);
    assert PinGraph(r, toPinId) == None;
  }

  lemma CreateEdgeNodesIntact(s: GraphState, id: string, fromPinId: string, toPinId: string,
                              labelText: Option<string>, color: Option<string>)
    requires NodesIntact(s) && CreateEdgeDefined(s, fromPinId)
    requires SourceResolves(s, fromPinId) ==> id !in s.edges
    ensures NodesIntact(CreateEdgeSpec(s, id, fromPinId, toPinId, labelText, color))
  {
    var r := CreateEdgeSpec(s, id, fromPinId, toPinId, labelText, color);
    NodesIntactFrame(s, r);
  }

  /** How the created edge sits in the new state: the old edges keep their graphs, the new one is in `g`. */
  lemma CreateEdgeHomes(s: GraphState, id: string, fromPinId: string, toPinId: string,
                        labelText: Option<string>, color: Option<string>)
    requires id !in s.edges && CreateEdgeDefined(s, fromPinId) && PinGraph(s, fromPinId).Some?
    ensures var r := CreateEdgeSpec(s, id, fromPinId, toPinId, labelText, color);
      var g := PinGraph(s, fromPinId).value;
      && r.edges == s.edges[id := Edge(id, fromPinId, toPinId, labelText, color)]
      && r.graphs == s.graphs[g := s.graphs[g].(edgeIds := s.graphs[g].edgeIds + [id])]
      && (forall p :: PinGraph(r, p) == PinGraph(s, p))
      && (forall e :: e in s.edges ==> Home(r, e) == Home(s, e))
      && Home(r, id) == Some(g)
  {
    var r := CreateEdgeSpec(s, id, fromPinId, toPinId, labelText, color);
    assert r.pins == s.pins && r.nodes == s.nodes;
  }

  lemma CreateEdgeEdgesWired(s: GraphState, id: string, fromPinId: string, toPinId: string,
                             labelText: Option<string>, color: Option<string>)
    requires EdgesWired(s) && id !in s.edges && CreateEdgeDefined(s, fromPinId)
    requires PinGraph(s, fromPinId).Some? && PinGraph(s, toPinId) == PinGraph(s, fromPinId)
    ensures EdgesWired(CreateEdgeSpec(s, id, fromPinId, toPinId, labelText, color))
  {
    var r := CreateEdgeSpec(s, id, fromPinId, toPinId, labelText, color);
    CreateEdgeHomes(s, id, fromPinId, toPinId, labelText, color);
    forall e | e in r.edges
      ensures Home(r, e).Some? && PinGraph(r, r.edges[e].toPinId) == Home(r, e)
      ensures Home(r, e).value in r.graphs && e in r.graphs[Home(r, e).value].edgeIds
    {
      if e != id {
        assert Home(r, e) == Home(s, e);
      }
    }
  }

  lemma CreateEdgeListedEdges(s: GraphState, id: string, fromPinId: string, toPinId: string,
                              labelText: Option<string>, color: Option<string>)
    requires ListedEdgesExist(s) && id !in s.edges && CreateEdgeDefined(s, fromPinId)
    requires PinGraph(s, fromPinId).Some?
    ensures ListedEdgesExist(CreateEdgeSpec(s, id, fromPinId, toPinId, labelText, color))
  {
    var r := CreateEdgeSpec(s, id, fromPinId, toPinId, labelText, color);
    var g := PinGraph(s, fromPinId).value;
    CreateEdgeHomes(s, id, fromPinId, toPinId, labelText, color);
    forall h, e | h in r.graphs && e in r.graphs[h].edgeIds ensures e in r.edges && Home(r, e) == Some(h) {
      if h == g && e == id {
      } else {
        assert e in s.graphs[h].edgeIds;
      }
    }
  }

  lemma CreateEdgeEdgesIntact(s: GraphState, id: string, fromPinId: string, toPinId: string,
                              labelText: Option<string>, color: Option<string>)
    requires EdgesIntact(s) && id !in s.edges && CreateEdgeDefined(s, fromPinId)
    requires PinGraph(s, fromPinId).Some? && PinGraph(s, toPinId) == PinGraph(s, fromPinId)
    ensures EdgesIntact(CreateEdgeSpec(s, id, fromPinId, toPinId, labelText, color))
  {
    CreateEdgeEdgesWired(s, id, fromPinId, toPinId, labelText, color);
    CreateEdgeListedEdges(s, id, fromPinId, toPinId, labelText, color);
  }

  /** An edge between two pins of one graph, under a fresh id, keeps the state consistent. */
  lemma CreateEdgeConsistent(s: GraphState, id: string, fromPinId: string, toPinId: string,
                             labelText: Option<string>, color: Option<string>)
    requires Consistent(s) && FreshIds(s, [id])
    requires PinGraph(s, fromPinId).Some? && PinGraph(s, toPinId) == PinGraph(s, fromPinId)
    ensures CreateEdgeDefined(s, fromPinId)
    ensures Consistent(CreateEdgeSpec(s, id, fromPinId, toPinId, labelText, color))
  {
    assert [id][0] == id;
    assert NotMentioned(s, id);
    CreateEdgeNodesIntact(s, id, fromPinId, toPinId, labelText, color);
    CreateEdgeEdgesIntact(s, id, fromPinId, toPinId, labelText, color);
  }

  datatype EdgeUpdate = EdgeUpdate(labelText: Option<Option<string>>, color: Option<Option<string>>)

  function UpdateEdgeSpec(s: GraphState, edgeId: string, u: EdgeUpdate): GraphState
    requires edgeId in s.edges
  {
    var e := s.edges[edgeId];
    s.(edges := s.edges[edgeId := e.(labelText := Override(e.labelText, u.labelText), color := Override(e.color, u.color))])
  }

  lemma UpdateEdgeConsistent(s: GraphState, edgeId: string, u: EdgeUpdate)
    requires Consistent(s) && edgeId in s.edges
    ensures Consistent(UpdateEdgeSpec(s, edgeId, u))
  {
    SameShapeConsistent(s, UpdateEdgeSpec(s, edgeId, u));
  }
}
