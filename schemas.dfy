/**
 * The shape an export document must have to be imported (`ProjectExportSchema` and
 * the schemas it is built from), as decoders from parsed JSON to typed records. A
 * decoder returns `None` exactly where the schema's `parse` throws; on success it
 * returns the record `parse` returns, which holds only the declared fields.
 */
module Schemas {
  import opened Wrappers
  import opened Json
  import opened Types

  /** A node as an export document lists it: its pins travel with it. */
  datatype NodeDoc = NodeDoc(
    id: string,
    kind: NodeType,
    position: Position,
    inputPins: seq<Pin>,
    outputPins: seq<Pin>,
    data: seq<Field>)

  datatype GraphDoc = GraphDoc(id: string, name: string, nodes: seq<NodeDoc>, edges: seq<Edge>)

  /** The whole export document. */
  datatype ExportDoc = ExportDoc(
    schemaVersion: int,
    id: string,
    name: string,
    createdAt: string,
    updatedAt: string,
    characters: seq<Character>,
    hierarchyRoot: seq<TreeNode>,
    graphs: seq<GraphDoc>)

  /** `z.string()` under key `k`. */
  function StrField(fs: seq<Field>, k: string): (r: Option<string>)
    ensures r.Some? <==> Lookup(fs, k).Some? && Lookup(fs, k).value.JStr?
    ensures r.Some? ==> Lookup(fs, k) == Some(JStr(r.value))
  {
    match Lookup(fs, k)
    case Some(JStr(s)) => Some(s)
    case _ => None
  }

  /** `z.string().min(1)` under key `k`: a non-empty string. */
  function NameField(fs: seq<Field>, k: string): (r: Option<string>)
    ensures r.Some? ==> Lookup(fs, k) == Some(JStr(r.value)) && r.value != ""
    ensures Lookup(fs, k) == Some(JStr("")) ==> r.None?
    ensures (forall s :: Lookup(fs, k) != Some(JStr(s))) ==> r.None?
    ensures forall s :: Lookup(fs, k) == Some(JStr(s)) && s != "" ==> r == Some(s)
  {
    match StrField(fs, k)
    case Some(s) => if s == "" then None else Some(s)
    case None => None
  }

  /**
   * `z.string().optional()` under key `k`: `Some(None)` when the key is absent,
   * `Some(Some(s))` for a string, `None` (rejected) for anything else.
   */
  function OptStrField(fs: seq<Field>, k: string): (r: Option<Option<string>>)
    ensures r == Some(None) <==> !HasKey(fs, k)
    ensures r.None? <==> HasKey(fs, k) && !Lookup(fs, k).value.JStr?
    ensures forall s :: r == Some(Some(s)) <==> Lookup(fs, k) == Some(JStr(s))
  {
    match Lookup(fs, k)
    case None => Some(None)
    case Some(JStr(s)) => Some(Some(s))
    case Some(_) => None
  }

  /** `z.number()` under key `k`. */
  function NumField(fs: seq<Field>, k: string): (r: Option<int>)
    ensures forall n :: r == Some(n) <==> Lookup(fs, k) == Some(JNum(n))
  {
    match Lookup(fs, k)
    case Some(JNum(n)) => Some(n)
    case _ => None
  }

  /** `z.array(...)` under key `k`: the elements, not yet checked. */
  function ArrField(fs: seq<Field>, k: string): (r: Option<seq<Json>>)
    ensures forall xs :: r == Some(xs) <==> Lookup(fs, k) == Some(JArr(xs))
  {
    match Lookup(fs, k)
    case Some(JArr(xs)) => Some(xs)
    case _ => None
  }

  /** `z.array(schema)`: every element must pass; the results keep the order. */
  function DecodeAll<T>(items: seq<Json>, decode: Json -> Option<T>): (r: Option<seq<T>>)
    ensures r.Some? <==> forall i :: 0 <= i < |items| ==> decode(items[i]).Some?
    ensures r.Some? ==> |r.value| == |items|
    ensures r.Some? ==> forall i :: 0 <= i < |items| ==> decode(items[i]) == Some(r.value[i])
  {
    if items == [] then Some([])
    else
      match (decode(items[0]), DecodeAll(items[1..], decode))
      case (Some(x), Some(xs)) =>
        assert forall i :: 1 <= i < |items| ==> items[i] == items[1..][i - 1];
        Some([x] + xs)
      case (None, _) => None
      case (_, None) =>
        assert forall i :: 0 <= i < |items[1..]| ==> items[1..][i] == items[i + 1];
        None
  }

  /** The optional field under `k` decoded to `v`: absent for `None`, else that string. */
  predicate OptionalIs(fs: seq<Field>, k: string, v: Option<string>)
  {
    if v.None? then !HasKey(fs, k) else Lookup(fs, k) == Some(JStr(v.value))
  }

  /** `PositionSchema`: an object with a number under `x` and under `y`. */
  function DecodePosition(j: Json): (r: Option<Position>)
    ensures r.Some? <==> j.JObj? && NumField(j.fields, "x").Some? && NumField(j.fields, "y").Some?
    ensures r.Some? ==> j.JObj? && Lookup(j.fields, "x") == Some(JNum(r.value.x)) && Lookup(j.fields, "y") == Some(JNum(r.value.y))
  {
    match j
    case JObj(fs) =>
      (match (NumField(fs, "x"), NumField(fs, "y"))
       case (Some(x), Some(y)) => Some(Position(x, y))
       case _ => None)
    case _ => None
  }

  /** `z.enum(['in', 'out'])` under `direction`. */
  function DirectionField(fs: seq<Field>): (r: Option<PinDirection>)
    ensures r.Some? ==> Lookup(fs, "direction") == Some(JStr(DirectionName(r.value)))
    ensures forall d :: Lookup(fs, "direction") == Some(JStr(DirectionName(d))) ==> r == Some(d)
  {
    match StrField(fs, "direction")
    case Some(s) => DirectionFromName(s)
    case None => None
  }

  /**
   * `PinSchema`: the direction must be exactly "in" or "out"; each of the three
   * optional strings may be absent.
   */
  function DecodePin(j: Json): (r: Option<Pin>)
    ensures r.Some? <==> (j.JObj? && StrField(j.fields, "id").Some? && StrField(j.fields, "nodeId").Some? &&
      DirectionField(j.fields).Some? && OptStrField(j.fields, "name").Some? &&
      OptStrField(j.fields, "conditionExpr").Some? && OptStrField(j.fields, "instructionExpr").Some?)
    ensures r.Some? ==> j.JObj? && Lookup(j.fields, "id") == Some(JStr(r.value.id))
    ensures r.Some? ==> Lookup(j.fields, "nodeId") == Some(JStr(r.value.nodeId))
    ensures r.Some? ==> Lookup(j.fields, "direction") == Some(JStr(DirectionName(r.value.direction)))
    ensures r.Some? ==> OptionalIs(j.fields, "name", r.value.name)
    ensures r.Some? ==> OptionalIs(j.fields, "conditionExpr", r.value.conditionExpr)
    ensures r.Some? ==> OptionalIs(j.fields, "instructionExpr", r.value.instructionExpr)
    ensures j.JObj? && Lookup(j.fields, "direction") == Some(JStr("sideways")) ==> r.None?
  {
    match j
    case JObj(fs) =>
      (match (StrField(fs, "id"), StrField(fs, "nodeId"), DirectionField(fs),
              OptStrField(fs, "name"), OptStrField(fs, "conditionExpr"), OptStrField(fs, "instructionExpr"))
       case (Some(id), Some(nodeId), Some(d), Some(n), Some(c), Some(i)) => Some(Pin(id, nodeId, d, n, c, i))
       case _ => None)
    case _ => None
  }

  /** `EdgeSchema`: label and colour may be absent. */
  function DecodeEdge(j: Json): (r: Option<Edge>)
    ensures r.Some? <==> (j.JObj? && StrField(j.fields, "id").Some? && StrField(j.fields, "fromPinId").Some? &&
      StrField(j.fields, "toPinId").Some? && OptStrField(j.fields, "label").Some? && OptStrField(j.fields, "color").Some?)
    ensures r.Some? ==> j.JObj? && Lookup(j.fields, "id") == Some(JStr(r.value.id))
    ensures r.Some? ==> Lookup(j.fields, "fromPinId") == Some(JStr(r.value.fromPinId))
    ensures r.Some? ==> Lookup(j.fields, "toPinId") == Some(JStr(r.value.toPinId))
    ensures r.Some? ==> OptionalIs(j.fields, "label", r.value.labelText)
    ensures r.Some? ==> OptionalIs(j.fields, "color", r.value.color)
  {
    match j
    case JObj(fs) =>
      (match (StrField(fs, "id"), StrField(fs, "fromPinId"), StrField(fs, "toPinId"),
              OptStrField(fs, "label"), OptStrField(fs, "color"))
       case (Some(id), Some(from), Some(to), Some(l), Some(c)) => Some(Edge(id, from, to, l, c))
       case _ => None)
    case _ => None
  }

  /** `z.enum` of the ten node types. */
  function TypeField(fs: seq<Field>): (r: Option<NodeType>)
    ensures r.Some? ==> Lookup(fs, "type") == Some(JStr(NodeTypeName(r.value)))
    ensures forall t :: Lookup(fs, "type") == Some(JStr(NodeTypeName(t))) ==> r == Some(t)
  {
    match StrField(fs, "type")
    case Some(s) => NodeTypeFromName(s)
    case None => None
  }

  /** `NodeSchema`: `data` may be any object; its fields are kept as they are. */
  function DecodeNode(j: Json): (r: Option<NodeDoc>)
    ensures r.Some? <==> (j.JObj? && StrField(j.fields, "id").Some? && TypeField(j.fields).Some? &&
      Lookup(j.fields, "position").Some? && DecodePosition(Lookup(j.fields, "position").value).Some? &&
      ArrField(j.fields, "inputPins").Some? && DecodeAll(ArrField(j.fields, "inputPins").value, DecodePin).Some? &&
      ArrField(j.fields, "outputPins").Some? && DecodeAll(ArrField(j.fields, "outputPins").value, DecodePin).Some? &&
      Lookup(j.fields, "data").Some? && Lookup(j.fields, "data").value.JObj?)
    ensures r.Some? ==> Lookup(j.fields, "id") == Some(JStr(r.value.id))
    ensures r.Some? ==> Lookup(j.fields, "type") == Some(JStr(NodeTypeName(r.value.kind)))
    ensures r.Some? ==> Lookup(j.fields, "data") == Some(JObj(r.value.data))
    ensures r.Some? ==> DecodePosition(Lookup(j.fields, "position").value) == Some(r.value.position)
    ensures r.Some? ==> DecodeAll(ArrField(j.fields, "inputPins").value, DecodePin) == Some(r.value.inputPins)
    ensures r.Some? ==> DecodeAll(ArrField(j.fields, "outputPins").value, DecodePin) == Some(r.value.outputPins)
  {
    match j
    case JObj(fs) =>
      (match (StrField(fs, "id"), TypeField(fs), Lookup(fs, "position"),
              ArrField(fs, "inputPins"), ArrField(fs, "outputPins"), Lookup(fs, "data"))
       case (Some(id), Some(t), Some(p), Some(ins), Some(outs), Some(JObj(data))) =>
         (match (DecodePosition(p), DecodeAll(ins, DecodePin), DecodeAll(outs, DecodePin))
          case (Some(pos), Some(ip), Some(op)) => Some(NodeDoc(id, t, pos, ip, op, data))
          case _ => None)
       case _ => None)
    case _ => None
  }

  /** `GraphSchema`: the name must be non-empty. */
  function DecodeGraph(j: Json): (r: Option<GraphDoc>)
    ensures r.Some? <==> (j.JObj? && StrField(j.fields, "id").Some? && NameField(j.fields, "name").Some? &&
      ArrField(j.fields, "nodes").Some? && DecodeAll(ArrField(j.fields, "nodes").value, DecodeNode).Some? &&
      ArrField(j.fields, "edges").Some? && DecodeAll(ArrField(j.fields, "edges").value, DecodeEdge).Some?)
    ensures r.Some? ==> Lookup(j.fields, "id") == Some(JStr(r.value.id))
    ensures r.Some? ==> DecodeAll(ArrField(j.fields, "nodes").value, DecodeNode) == Some(r.value.nodes)
    ensures r.Some? ==> DecodeAll(ArrField(j.fields, "edges").value, DecodeEdge) == Some(r.value.edges)
    ensures r.Some? ==> Lookup(j.fields, "name") == Some(JStr(r.value.name)) && r.value.name != ""
  {
    match j
    case JObj(fs) =>
      (match (StrField(fs, "id"), NameField(fs, "name"), ArrField(fs, "nodes"), ArrField(fs, "edges"))
       case (Some(id), Some(name), Some(ns), Some(es)) =>
         (match (DecodeAll(ns, DecodeNode), DecodeAll(es, DecodeEdge))
          case (Some(nodes), Some(edges)) => Some(GraphDoc(id, name, nodes, edges))
          case _ => None)
       case _ => None)
    case _ => None
  }

  /** `CharacterSchema`: the name must be non-empty. */
  function DecodeCharacter(j: Json): (r: Option<Character>)
    ensures r.Some? <==> j.JObj? && StrField(j.fields, "id").Some? && NameField(j.fields, "name").Some?
    ensures r.Some? ==> Lookup(j.fields, "id") == Some(JStr(r.value.id))
    ensures r.Some? ==> Lookup(j.fields, "name") == Some(JStr(r.value.name)) && r.value.name != ""
  {
    match j
    case JObj(fs) =>
      (match (StrField(fs, "id"), NameField(fs, "name"))
       case (Some(id), Some(name)) => Some(Character(id, name))
       case _ => None)
    case _ => None
  }

  /** `z.enum` of the five tree-node types. */
  function TreeTypeField(fs: seq<Field>): (r: Option<TreeNodeType>)
    ensures r.Some? ==> Lookup(fs, "type") == Some(JStr(TreeNodeTypeName(r.value)))
    ensures forall t :: Lookup(fs, "type") == Some(JStr(TreeNodeTypeName(t))) ==> r == Some(t)
  {
    match StrField(fs, "type")
    case Some(s) => TreeNodeTypeFromName(s)
    case None => None
  }

  /** A tree node's own fields, with its children still undecoded. */
  datatype TreeHead = TreeHead(id: string, kind: TreeNodeType, name: string, children: seq<Json>, graphId: Option<string>)

  /** The fields of `TreeNodeSchema` other than the recursive check of `children`. */
  function DecodeTreeHead(j: Json): (r: Option<TreeHead>)
    ensures r.Some? <==> (j.JObj? && StrField(j.fields, "id").Some? && TreeTypeField(j.fields).Some? &&
      NameField(j.fields, "name").Some? && OptStrField(j.fields, "graphId").Some? && ArrField(j.fields, "children").Some?)
    ensures r.Some? ==> Lookup(j.fields, "id") == Some(JStr(r.value.id))
    ensures r.Some? ==> Lookup(j.fields, "type") == Some(JStr(TreeNodeTypeName(r.value.kind)))
    ensures r.Some? ==> Lookup(j.fields, "name") == Some(JStr(r.value.name)) && r.value.name != ""
    ensures r.Some? ==> OptionalIs(j.fields, "graphId", r.value.graphId)
    ensures r.Some? ==> ArrField(j.fields, "children") == Some(r.value.children)
  {
    match j
    case JObj(fs) =>
      (match (StrField(fs, "id"), TreeTypeField(fs), NameField(fs, "name"), ArrField(fs, "children"), OptStrField(fs, "graphId"))
       case (Some(id), Some(t), Some(name), Some(cs), Some(g)) => Some(TreeHead(id, t, name, cs, g))
       case _ => None)
    case _ => None
  }

  /** `TreeNodeSchema`, applied again to every child at every depth. */
  function DecodeTreeNode(j: Json): (r: Option<TreeNode>)
    ensures r.Some? ==> j.JObj? && Lookup(j.fields, "id") == Some(JStr(r.value.id))
    ensures r.Some? ==> Lookup(j.fields, "type") == Some(JStr(TreeNodeTypeName(r.value.kind)))
    ensures r.Some? ==> Lookup(j.fields, "name") == Some(JStr(r.value.name)) && r.value.name != ""
    ensures r.Some? ==> OptionalIs(j.fields, "graphId", r.value.graphId)
    decreases j, 1
  {
    match DecodeTreeHead(j)
    case Some(h) =>
      (match DecodeTreeNodes(h.children)
       case Some(kids) => Some(TreeNode(h.id, h.kind, h.name, kids, h.graphId))
       case None => None)
    case None => None
  }


  /**
   * A tree node is accepted exactly when each of its own fields passes and its
   * `children` array decodes as a whole; the decoded children are that array's.
   * (Stated apart from `DecodeTreeNode` so that the two mutually recursive
   * contracts do not unfold each other without end.)
   */
  lemma TreeNodeAccepted(j: Json)
    ensures DecodeTreeNode(j).Some? <==> (j.JObj? && StrField(j.fields, "id").Some? && TreeTypeField(j.fields).Some? &&
      NameField(j.fields, "name").Some? && OptStrField(j.fields, "graphId").Some? &&
      ArrField(j.fields, "children").Some? && DecodeTreeNodes(ArrField(j.fields, "children").value).Some?)
    ensures DecodeTreeNode(j).Some? ==> DecodeTreeNodes(ArrField(j.fields, "children").value) == Some(DecodeTreeNode(j).value.children)
  {
  }

  /** `z.array(TreeNodeSchema)`. */
  function DecodeTreeNodes(cs: seq<Json>): (r: Option<seq<TreeNode>>)
    ensures r.Some? ==> |r.value| == |cs|
    decreases cs
  {
    if cs == [] then Some([])
    else
      match (DecodeTreeNode(cs[0]), DecodeTreeNodes(cs[1..]))
      case (Some(t), Some(ts)) =>
        Some([t] + ts)
      case _ => None
  }

  /** One step of `z.array(TreeNodeSchema)`: the first child, then the rest. */
  lemma TreeNodesCons(cs: seq<Json>)
    requires cs != []
    ensures DecodeTreeNodes(cs).Some? <==> DecodeTreeNode(cs[0]).Some? && DecodeTreeNodes(cs[1..]).Some?
    ensures DecodeTreeNodes(cs).Some? ==> DecodeTreeNodes(cs).value == [DecodeTreeNode(cs[0]).value] + DecodeTreeNodes(cs[1..]).value
  {
  }



  /** A rejected children array has a rejected child. */
  lemma {:induction false} TreeNodesRejected(cs: seq<Json>)
    requires DecodeTreeNodes(cs).None?
    ensures exists i :: 0 <= i < |cs| && DecodeTreeNode(cs[i]).None?
    decreases cs
  {
    TreeNodesCons(cs);
    if DecodeTreeNode(cs[0]).Some? {
      TreeNodesRejected(cs[1..]);
      var k :| 0 <= k < |cs[1..]| && DecodeTreeNode(cs[1..][k]).None?;
      assert cs[1..][k] == cs[k + 1];
    }
  }

  /** A children array is accepted exactly when every one of its elements is. */
  lemma TreeNodesAccepted(cs: seq<Json>)
    ensures DecodeTreeNodes(cs).Some? <==> forall i :: 0 <= i < |cs| ==> DecodeTreeNode(cs[i]).Some?
  {
    if DecodeTreeNodes(cs).Some? {
      forall i | 0 <= i < |cs| ensures DecodeTreeNode(cs[i]).Some? {
        TreeNodesAcceptedAt(cs, i);
      }
    } else {
      TreeNodesRejected(cs);
    }
  }

  /** An accepted children array has no rejected child. */
  lemma {:induction false} TreeNodesAcceptedAt(cs: seq<Json>, i: int)
    requires DecodeTreeNodes(cs).Some? && 0 <= i < |cs|
    ensures DecodeTreeNode(cs[i]).Some?
    decreases i
  {
    TreeNodesCons(cs);
    if i > 0 {
      TreeNodesAcceptedAt(cs[1..], i - 1);
      assert cs[1..][i - 1] == cs[i];
    }
  }




  /** `ProjectExportSchema`: `schemaVersion` must be an integer of at least 1. */
  function DecodeDoc(j: Json): (r: Option<ExportDoc>)
    ensures r.Some? <==> (j.JObj? && NumField(j.fields, "schemaVersion").Some? && NumField(j.fields, "schemaVersion").value >= 1 &&
      StrField(j.fields, "id").Some? && NameField(j.fields, "name").Some? &&
      StrField(j.fields, "createdAt").Some? && StrField(j.fields, "updatedAt").Some? &&
      ArrField(j.fields, "characters").Some? && DecodeAll(ArrField(j.fields, "characters").value, DecodeCharacter).Some? &&
      ArrField(j.fields, "hierarchyRoot").Some? && DecodeTreeNodes(ArrField(j.fields, "hierarchyRoot").value).Some? &&
      ArrField(j.fields, "graphs").Some? && DecodeAll(ArrField(j.fields, "graphs").value, DecodeGraph).Some?)
    ensures r.Some? ==> Lookup(j.fields, "schemaVersion") == Some(JNum(r.value.schemaVersion)) && r.value.schemaVersion >= 1
    ensures r.Some? ==> Lookup(j.fields, "id") == Some(JStr(r.value.id))
    ensures r.Some? ==> Lookup(j.fields, "name") == Some(JStr(r.value.name)) && r.value.name != ""
    ensures r.Some? ==> Lookup(j.fields, "createdAt") == Some(JStr(r.value.createdAt))
    ensures r.Some? ==> Lookup(j.fields, "updatedAt") == Some(JStr(r.value.updatedAt))
    ensures r.Some? ==> DecodeAll(ArrField(j.fields, "characters").value, DecodeCharacter) == Some(r.value.characters)
    ensures r.Some? ==> DecodeTreeNodes(ArrField(j.fields, "hierarchyRoot").value) == Some(r.value.hierarchyRoot)
    ensures r.Some? ==> DecodeAll(ArrField(j.fields, "graphs").value, DecodeGraph) == Some(r.value.graphs)
  {
    match j
    case JObj(fs) =>
      (match (NumField(fs, "schemaVersion"), StrField(fs, "id"), NameField(fs, "name"),
              StrField(fs, "createdAt"), StrField(fs, "updatedAt"))
       case (Some(v), Some(id), Some(name), Some(created), Some(updated)) =>
         if v < 1 then None
         else
           (match (ArrField(fs, "characters"), ArrField(fs, "hierarchyRoot"), ArrField(fs, "graphs"))
            case (Some(cs), Some(hs), Some(gs)) =>
              (match (DecodeAll(cs, DecodeCharacter), DecodeTreeNodes(hs), DecodeAll(gs, DecodeGraph))
               case (Some(chars), Some(tree), Some(graphs)) =>
                 Some(ExportDoc(v, id, name, created, updated, chars, tree, graphs))
               case _ => None)
            case _ => None)
       case _ => None)
    case _ => None
  }

  /** Every name in the tree, at every depth, is non-empty. */
  predicate TreeNamed(t: TreeNode)
  {
    t.name != "" && forall i :: 0 <= i < |t.children| ==> TreeNamed(t.children[i])
  }

  /** Tree nodes are checked at every depth: whatever is accepted is named throughout. */
  lemma {:induction false} TreeNodeChecksEveryDepth(j: Json)
    requires DecodeTreeNode(j).Some?
    ensures TreeNamed(DecodeTreeNode(j).value)
    decreases j, 1
  {
    var cs := DecodeTreeHead(j).value.children;
    assert Lookup(j.fields, "children") == Some(JArr(cs));
    TreeNodesCheckEveryDepth(cs);
  }

  /** Every tree node of an accepted children array is named throughout. */
  lemma {:induction false} TreeNodesCheckEveryDepth(cs: seq<Json>)
    requires DecodeTreeNodes(cs).Some?
    ensures forall i :: 0 <= i < |DecodeTreeNodes(cs).value| ==> TreeNamed(DecodeTreeNodes(cs).value[i])
    decreases cs, 0
  {
    if cs != [] {
      TreeNodesCons(cs);
      var first := DecodeTreeNode(cs[0]).value;
      var rest := DecodeTreeNodes(cs[1..]).value;
      TreeNodeChecksEveryDepth(cs[0]);
      TreeNodesCheckEveryDepth(cs[1..]);
      forall i | 0 <= i < |[first] + rest| ensures TreeNamed(([first] + rest)[i]) {
        if i > 0 {
          assert ([first] + rest)[i] == rest[i - 1];
        }
      }
    }
  }

  /** A child anywhere below that fails the schema makes its parent fail. */
  lemma TreeNodeBadChild(j: Json, cs: seq<Json>, i: int)
    requires j.JObj? && Lookup(j.fields, "children") == Some(JArr(cs))
    requires 0 <= i < |cs| && DecodeTreeNode(cs[i]).None?
    ensures DecodeTreeNode(j).None?
  {
    TreeNodesAccepted(cs);
  }

  /** A `schemaVersion` that is not a number, such as "one", is rejected. */
  lemma VersionMustBeNumber(fs: seq<Field>, s: string)
    requires Lookup(fs, "schemaVersion") == Some(JStr(s))
    ensures DecodeDoc(JObj(fs)).None?
  {
  }

  /** A document without a project name, or with an empty one, is rejected. */
  lemma NameRequired(fs: seq<Field>)
    requires !HasKey(fs, "name") || Lookup(fs, "name") == Some(JStr(""))
    ensures DecodeDoc(JObj(fs)).None?
  {
  }

  /** Node `data` must be an object: an array or a string is rejected. */
  lemma DataMustBeObject(j: Json)
    requires j.JObj? && Lookup(j.fields, "data").Some? && !Lookup(j.fields, "data").value.JObj?
    ensures DecodeNode(j).None?
  {
  }

  /** A pin with only the three required fields is accepted; its optional fields are absent. */
  lemma MinimalPinAccepted(id: string, nodeId: string)
    ensures DecodePin(JObj([Field("id", JStr(id)), Field("nodeId", JStr(nodeId)), Field("direction", JStr("in"))]))
      == Some(Pin(id, nodeId, In, None, None, None))
  {
    MinimalPinFields([Field("id", JStr(id)), Field("nodeId", JStr(nodeId)), Field("direction", JStr("in"))], id, nodeId);
  }

  lemma MinimalPinFields(fs: seq<Field>, id: string, nodeId: string)
    requires fs == [Field("id", JStr(id)), Field("nodeId", JStr(nodeId)), Field("direction", JStr("in"))]
    ensures StrField(fs, "id") == Some(id) && StrField(fs, "nodeId") == Some(nodeId) && DirectionField(fs) == Some(In)
    ensures OptStrField(fs, "name") == Some(None) && OptStrField(fs, "conditionExpr") == Some(None)
    ensures OptStrField(fs, "instructionExpr") == Some(None)
  {
    LookupAt(fs, 0);
    LookupAt(fs, 1);
    LookupAt(fs, 2);
    assert DirectionName(In) == "in";
    assert !HasKey(fs, "name") && !HasKey(fs, "conditionExpr") && !HasKey(fs, "instructionExpr");
  }

  /** An edge without `label` or `color` is accepted. */
  lemma MinimalEdgeAccepted(id: string, fromPinId: string, toPinId: string)
    ensures DecodeEdge(JObj([Field("id", JStr(id)), Field("fromPinId", JStr(fromPinId)), Field("toPinId", JStr(toPinId))]))
      == Some(Edge(id, fromPinId, toPinId, None, None))
  {
    var fs := [Field("id", JStr(id)), Field("fromPinId", JStr(fromPinId)), Field("toPinId", JStr(toPinId))];
    LookupAt(fs, 0);
    LookupAt(fs, 1);
    LookupAt(fs, 2);
    assert !HasKey(fs, "label") && !HasKey(fs, "color");
  }

  /**
   * A node with no pins and an empty `data` object is accepted, whatever its kind:
   * `data` is only required to be an object.
   */
  lemma EmptyDataNodeAccepted(fs: seq<Field>, id: string, t: NodeType, pos: seq<Field>, x: int, y: int)
    requires Lookup(fs, "id") == Some(JStr(id)) && Lookup(fs, "type") == Some(JStr(NodeTypeName(t)))
    requires Lookup(fs, "position") == Some(JObj(pos)) && Lookup(pos, "x") == Some(JNum(x)) && Lookup(pos, "y") == Some(JNum(y))
    requires Lookup(fs, "inputPins") == Some(JArr([])) && Lookup(fs, "outputPins") == Some(JArr([]))
    requires Lookup(fs, "data") == Some(JObj([]))
    ensures DecodeNode(JObj(fs)) == Some(NodeDoc(id, t, Position(x, y), [], [], []))
  {
    EmptyDataNodeFields(fs, id, t, pos, x, y);
    assert DecodeAll([], DecodePin) == Some([]);
  }

  lemma EmptyDataNodeFields(fs: seq<Field>, id: string, t: NodeType, pos: seq<Field>, x: int, y: int)
    requires Lookup(fs, "id") == Some(JStr(id)) && Lookup(fs, "type") == Some(JStr(NodeTypeName(t)))
    requires Lookup(fs, "position") == Some(JObj(pos)) && Lookup(pos, "x") == Some(JNum(x)) && Lookup(pos, "y") == Some(JNum(y))
    requires Lookup(fs, "inputPins") == Some(JArr([])) && Lookup(fs, "outputPins") == Some(JArr([]))
    ensures StrField(fs, "id") == Some(id) && TypeField(fs) == Some(t)
    ensures DecodePosition(JObj(pos)) == Some(Position(x, y))
    ensures ArrField(fs, "inputPins") == Some([]) && ArrField(fs, "outputPins") == Some([])
  {
  }

}
