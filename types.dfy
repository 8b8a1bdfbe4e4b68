/**
 * The document model: positions, node kinds, pins, edges, typed node data, nodes,
 * graphs, the project hierarchy and characters.
 */
module Types {
  import opened Wrappers
  import opened Json

  /** Canvas coordinates. Numbers are modelled as integers. */
  datatype Position = Position(x: int, y: int)

  datatype NodeType =
    | DialogueContainer | FlowFragment | Line | Choice | Condition
    | Instruction | Jump | Hub | End | Annotation

  /** The tag the source writes for each node kind. */
  function NodeTypeName(t: NodeType): string
  {
    match t
    case DialogueContainer => "dialogueContainer"
    case FlowFragment => "flowFragment"
    case Line => "line"
    case Choice => "choice"
    case Condition => "condition"
    case Instruction => "instruction"
    case Jump => "jump"
    case Hub => "hub"
    case End => "end"
    case Annotation => "annotation"
  }

  /** Reads a tag back; `None` for anything that names no node kind. */
  function NodeTypeFromName(s: string): (r: Option<NodeType>)
    ensures r.Some? ==> NodeTypeName(r.value) == s
  {
    if s == "dialogueContainer" then Some(DialogueContainer)
    else if s == "flowFragment" then Some(FlowFragment)
    else if s == "line" then Some(Line)
    else if s == "choice" then Some(Choice)
    else if s == "condition" then Some(Condition)
    else if s == "instruction" then Some(Instruction)
    else if s == "jump" then Some(Jump)
    else if s == "hub" then Some(Hub)
    else if s == "end" then Some(End)
    else if s == "annotation" then Some(Annotation)
    else None
  }

  /** Tags and node kinds are in one-to-one correspondence. */
  lemma NodeTypeNameRoundTrip(t: NodeType)
    ensures NodeTypeFromName(NodeTypeName(t)) == Some(t)
  {
  }

  /** The kinds that own an inner graph. */
  predicate IsContainerType(t: NodeType)
  {
    t == DialogueContainer || t == FlowFragment
  }

  datatype PinDirection = In | Out

  function DirectionName(d: PinDirection): string
  {
    match d
    case In => "in"
    case Out => "out"
  }

  function DirectionFromName(s: string): (r: Option<PinDirection>)
    ensures r.Some? ==> DirectionName(r.value) == s
    ensures s == "in" || s == "out" ==> r.Some?
  {
    if s == "in" then Some(In) else if s == "out" then Some(Out) else None
  }

  /** A connection point owned by the node `nodeId`. */
  datatype Pin = Pin(
    id: string,
    nodeId: string,
    direction: PinDirection,
    name: Option<string>,
    conditionExpr: Option<string>,
    instructionExpr: Option<string>)

  /** A directed connection from an output pin to an input pin. */
  datatype Edge = Edge(
    id: string,
    fromPinId: string,
    toPinId: string,
    labelText: Option<string>,  // the source's `label`
    color: Option<string>)

  /** The typed shape of each kind's `data` record; the tag is implied by the variant. */
  datatype NodeData =
    | DialogueContainerData(innerGraphId: string, labelText: Option<string>)
    | FlowFragmentData(innerGraphId: string, labelText: Option<string>)
    | LineData(speakerId: Option<string>, text: string)
    | ChoiceData(prompt: Option<string>)
    | ConditionData(expression: string)
    | InstructionData(expression: string)
    | JumpData(targetNodeId: Option<string>, targetPath: Option<seq<string>>)
    | HubData(labelText: Option<string>)
    | EndData
    | AnnotationData(text: string, color: Option<string>)

  /** The kind a data record belongs to. */
  function DataType(d: NodeData): NodeType
  {
    match d
    case DialogueContainerData(_, _) => DialogueContainer
    case FlowFragmentData(_, _) => FlowFragment
    case LineData(_, _) => Line
    case ChoiceData(_) => Choice
    case ConditionData(_) => Condition
    case InstructionData(_) => Instruction
    case JumpData(_, _) => Jump
    case HubData(_) => Hub
    case EndData => End
    case AnnotationData(_, _) => Annotation
  }

  function OptStr(k: string, v: Option<string>): (fs: seq<Field>)
    ensures |fs| == (if v.Some? then 1 else 0) && forall i :: 0 <= i < |fs| ==> fs[i].key == k
  {
    match v
    case Some(s) => [Field(k, JStr(s))]
    case None => []
  }

  function StrArray(ss: seq<string>): (j: Json)
    ensures j.JArr? && |j.items| == |ss|
  {
    JArr(seq(|ss|, i requires 0 <= i < |ss| => JStr(ss[i])))
  }

  /**
   * The object literal for a data record: `type` first, then the declared fields in
   * order, an `undefined` optional field being left out.
   */
  function DataFields(d: NodeData): (fs: seq<Field>)
    ensures |fs| > 0 && fs[0] == Field("type", JStr(NodeTypeName(DataType(d))))
    ensures UniqueKeys(fs)
    ensures HasKey(fs, "innerGraphId") <==> IsContainerType(DataType(d))
  {
    var tag := [Field("type", JStr(NodeTypeName(DataType(d))))];
    match d
    case DialogueContainerData(g, l) =>
      var fs := tag + [Field("innerGraphId", JStr(g))] + OptStr("label", l);
      assert fs[1].key == "innerGraphId";
      fs
    case FlowFragmentData(g, l) =>
      var fs := tag + [Field("innerGraphId", JStr(g))] + OptStr("label", l);
      assert fs[1].key == "innerGraphId";
      fs
    case LineData(sp, t) => tag + OptStr("speakerId", sp) + [Field("text", JStr(t))]
    case ChoiceData(p) => tag + OptStr("prompt", p)
    case ConditionData(e) => tag + [Field("expression", JStr(e))]
    case InstructionData(e) => tag + [Field("expression", JStr(e))]
    case JumpData(t, p) =>
      tag + OptStr("targetNodeId", t) + (if p.Some? then [Field("targetPath", StrArray(p.value))] else [])
    case HubData(l) => tag + OptStr("label", l)
    case EndData => tag
    case AnnotationData(t, c) => tag + [Field("text", JStr(t))] + OptStr("color", c)
  }

  /**
   * A node of a graph. Its `data` is kept as the untyped record the store holds,
   * since `updateNodeData` can merge any fields into it.
   */
  datatype Node = Node(
    id: string,
    kind: NodeType,
    position: Position,
    data: seq<Field>,
    graphId: string)

  /** A graph lists the ids of its nodes and edges; the records live in flat maps. */
  datatype Graph = Graph(id: string, name: string, nodeIds: seq<string>, edgeIds: seq<string>)

  datatype TreeNodeType = Folder | Chapter | Arc | GraphRef | AssetRef

  function TreeNodeTypeName(t: TreeNodeType): string
  {
    match t
    case Folder => "folder"
    case Chapter => "chapter"
    case Arc => "arc"
    case GraphRef => "graphRef"
    case AssetRef => "assetRef"
  }

  function TreeNodeTypeFromName(s: string): (r: Option<TreeNodeType>)
    ensures r.Some? ==> TreeNodeTypeName(r.value) == s
  {
    if s == "folder" then Some(Folder)
    else if s == "chapter" then Some(Chapter)
    else if s == "arc" then Some(Arc)
    else if s == "graphRef" then Some(GraphRef)
    else if s == "assetRef" then Some(AssetRef)
    else None
  }

  lemma TreeNodeTypeNameRoundTrip(t: TreeNodeType)
    ensures TreeNodeTypeFromName(TreeNodeTypeName(t)) == Some(t)
  {
  }

  /** An entry of the project hierarchy. */
  datatype TreeNode = TreeNode(
    id: string,
    kind: TreeNodeType,
    name: string,
    children: seq<TreeNode>,
    graphId: Option<string>)

  datatype Character = Character(id: string, name: string)

  /** The project record the project store holds. */
  datatype Project = Project(
    id: string,
    name: string,
    schemaVersion: int,
    createdAt: string,
    updatedAt: string,
    characters: map<string, Character>,
    hierarchyRoot: seq<TreeNode>)
}
