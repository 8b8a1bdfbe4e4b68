/**
 * The mapping from store records to the canvas library's nodes and edges: a node
 * takes its own pins out of a pin list, split by direction, and an edge names its
 * two pins as handles; `ResolveEdgeNodes` finds the nodes behind those pins.
 */
module FlowMappings {
  import opened Wrappers
  import opened Json
  import opened Types

  /**
   * The `data` of a canvas node: the node's own data fields other than the three the
   * mapping writes, and those three.
   */
  datatype FlowData = FlowData(fields: seq<Field>, inputPins: seq<Pin>, outputPins: seq<Pin>, nodeId: string)

  datatype FlowNode = FlowNode(id: string, kind: NodeType, position: Position, data: FlowData)

  datatype FlowEdge = FlowEdge(
    id: string,
    source: string,
    target: string,
    sourceHandle: string,
    targetHandle: string,
    edgeType: string,
    labelText: Option<string>,
    color: Option<string>)

  const WrittenKeys: set<string> := {"inputPins", "outputPins", "nodeId"}

  /** The fields whose key is not in `ks`, in order. */
  function DropKeys(fs: seq<Field>, ks: set<string>): (r: seq<Field>)
    ensures forall f :: f in r <==> f in fs && f.key !in ks
  {
    if fs == [] then []
    else if fs[0].key in ks then DropKeys(fs[1..], ks)
    else [fs[0]] + DropKeys(fs[1..], ks)
  }

  /** Reading a key other than `ks` sees the same value with or without them. */
  lemma {:induction false} DropKeysLookup(fs: seq<Field>, ks: set<string>, q: string)
    requires q !in ks
    ensures Lookup(DropKeys(fs, ks), q) == Lookup(fs, q)
  {
    if fs != [] {
      DropKeysLookup(fs[1..], ks, q);
    }
  }

  /** `pins.filter((p) => p.nodeId === nodeId && p.direction === d)`. */
  function Owned(pins: seq<Pin>, nodeId: string, d: PinDirection): (r: seq<Pin>)
    ensures forall p :: p in r <==> p in pins && p.nodeId == nodeId && p.direction == d
  {
    if pins == [] then []
    else if pins[0].nodeId == nodeId && pins[0].direction == d then [pins[0]] + Owned(pins[1..], nodeId, d)
    else Owned(pins[1..], nodeId, d)
  }

  /** `{ ...node.data, inputPins, outputPins, nodeId: node.id }` with the pins of the node. */
  function ToFlowNode(node: Node, pins: seq<Pin>): FlowNode
  {
    FlowNode(
      node.id, node.kind, node.position,
      FlowData(
        DropKeys(node.data, WrittenKeys),
        Owned(pins, node.id, In),
        Owned(pins, node.id, Out),
        node.id))
  }

  /** Id, type and position are copied; every data key but the three written ones reads as in the node. */
  lemma ToFlowNodeCopies(node: Node, pins: seq<Pin>, q: string)
    requires q !in WrittenKeys
    ensures var r := ToFlowNode(node, pins);
      r.id == node.id && r.kind == node.kind && r.position == node.position && r.data.nodeId == node.id &&
      Lookup(r.data.fields, q) == Lookup(node.data, q)
  {
    DropKeysLookup(node.data, WrittenKeys, q);
  }

  /** The input pins are exactly the listed pins of the node with direction `in`, the output pins those with `out`. */
  lemma ToFlowNodePins(node: Node, pins: seq<Pin>, p: Pin)
    ensures var r := ToFlowNode(node, pins);
      (p in r.data.inputPins <==> p in pins && p.nodeId == node.id && p.direction == In) &&
      (p in r.data.outputPins <==> p in pins && p.nodeId == node.id && p.direction == Out)
  {
  }

  /** The pins of `pins` owned by `nodeId`, in order. */
  function PinsOf(pins: seq<Pin>, nodeId: string): seq<Pin>
  {
    if pins == [] then []
    else if pins[0].nodeId == nodeId then [pins[0]] + PinsOf(pins[1..], nodeId)
    else PinsOf(pins[1..], nodeId)
  }

  /**
   * The two groups split the node's pins: no pin is in both, and together, counted
   * with repeats, they are the node's pins of the list.
   */
  lemma {:induction false} ToFlowNodePartition(node: Node, pins: seq<Pin>)
    ensures var r := ToFlowNode(node, pins);
      multiset(r.data.inputPins) + multiset(r.data.outputPins) == multiset(PinsOf(pins, node.id)) &&
      multiset(r.data.inputPins) * multiset(r.data.outputPins) == multiset{}
  {
    if pins != [] {
      ToFlowNodePartition(node, pins[1..]);
      var rest := ToFlowNode(node, pins[1..]).data;
      var p := pins[0];
      assert pins == [p] + pins[1..];
      if p.nodeId == node.id {
        if p.direction == In {
          assert Owned(pins, node.id, In) == [p] + rest.inputPins;
          assert p !in rest.outputPins;
        } else {
          assert Owned(pins, node.id, Out) == [p] + rest.outputPins;
          assert p !in rest.inputPins;
        }
      }
    }
  }

  /** `toReactFlowEdge`: the pins become the handles; the node ends are left to be resolved. */
  function ToFlowEdge(e: Edge): (r: FlowEdge)
    ensures r.id == e.id && r.sourceHandle == e.fromPinId && r.targetHandle == e.toPinId
    ensures r.source == "" && r.target == "" && r.edgeType == "labeled"
    ensures r.labelText == e.labelText && r.color == e.color
  {
    FlowEdge(e.id, "", "", e.fromPinId, e.toPinId, "labeled", e.labelText, e.color)
  }

  /** `resolveEdgeNodes`: the owners of the edge's two pins, `''` for a pin that does not exist. */
  function ResolveEdgeNodes(e: Edge, pins: map<string, Pin>): (r: (string, string))
    ensures r.0 == if e.fromPinId in pins then pins[e.fromPinId].nodeId else ""
    ensures r.1 == if e.toPinId in pins then pins[e.toPinId].nodeId else ""
  {
    var source := if e.fromPinId in pins then pins[e.fromPinId].nodeId else "";
    var target := if e.toPinId in pins then pins[e.toPinId].nodeId else "";
    (source, target)
  }

  /** The resolved ends are the owners of the canvas edge's handles. */
  lemma ResolveMatchesHandles(e: Edge, pins: map<string, Pin>)
    requires e.fromPinId in pins && e.toPinId in pins
    ensures ResolveEdgeNodes(e, pins) == (pins[ToFlowEdge(e).sourceHandle].nodeId, pins[ToFlowEdge(e).targetHandle].nodeId)
  {
  }
}
