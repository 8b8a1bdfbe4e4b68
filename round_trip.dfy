/**
 * Export, import, export again. The text `exportProject` writes is the rendering of a
 * canonical value (keys sorted at every depth); parsing that text gives back the
 * canonical value, so the import side starts from `Canon(DocJson(d))`.
 *
 * - `ExportDocDecodes`: the canonical export passes the migration gate and the export
 *   schema, and decodes to the exported document itself, except that node data comes
 *   back in canonical key order.
 * - `ExportImportExport`: exporting the stores that import hydrates from an export
 *   gives the same text again.
 * - `EmptyNameNotImported`: with an empty project name the export is not importable.
 */
module RoundTrip {
  import opened Wrappers
  import opened Json
  import opened Types
  import opened Schemas
  import opened Serializer
  import Importer
  import Migrations
  import opened StableStringify
  import Sorting
  import GraphOps

  // ---- Reading a canonical object ----

  /** What a canonical object holds under a key: the original value there, canonicalised. */
  lemma CanonLookupValue(fs: seq<Field>, k: string)
    requires UniqueKeys(fs)
    ensures Lookup(Canon(JObj(fs)).fields, k) ==
      if Lookup(fs, k).Some? then Some(Canon(Lookup(fs, k).value)) else None
  {
    if Lookup(fs, k).Some? {
      var i :| 0 <= i < |fs| && fs[i] == Field(k, Lookup(fs, k).value);
      CanonFieldAt(fs, i);
    } else {
      CanonAbsent(fs, k);
    }
  }

  /** What the canonical form of an optional string field holds. */
  lemma CanonWritten(fs: seq<Field>, k: string, v: Option<string>)
    requires UniqueKeys(fs) && Lookup(fs, k) == Written(v)
    ensures OptStrField(Canon(JObj(fs)).fields, k) == Some(v)
  {
    CanonLookupValue(fs, k);
  }

  // ---- Each record decodes to itself ----

  /** The fields of a canonical pin record, as the pin schema reads them. */
  lemma CanonPinFields(p: Pin, fs: seq<Field>, cf: seq<Field>)
    requires fs == PinJson(p).fields && cf == Canon(JObj(fs)).fields
    ensures StrField(cf, "id") == Some(p.id) && StrField(cf, "nodeId") == Some(p.nodeId)
    ensures DirectionField(cf) == Some(p.direction)
    ensures OptStrField(cf, "name") == Some(p.name) && OptStrField(cf, "conditionExpr") == Some(p.conditionExpr)
    ensures OptStrField(cf, "instructionExpr") == Some(p.instructionExpr)
  {
    PinJsonFields(p);
    CanonLookupValue(fs, "id");
    CanonLookupValue(fs, "nodeId");
    CanonLookupValue(fs, "direction");
    CanonWritten(fs, "name", p.name);
    CanonWritten(fs, "conditionExpr", p.conditionExpr);
    CanonWritten(fs, "instructionExpr", p.instructionExpr);
  }

  lemma DecodeCanonPin(p: Pin)
    ensures DecodePin(Canon(PinJson(p))) == Some(p)
  {
    var fs := PinJson(p).fields;
    var cf := Canon(JObj(fs)).fields;
    CanonPinFields(p, fs, cf);
    assert Canon(PinJson(p)) == JObj(cf);
  }

  /** The fields of a canonical edge record, as the edge schema reads them. */
  lemma CanonEdgeFields(e: Edge, fs: seq<Field>, cf: seq<Field>)
    requires fs == EdgeJson(e).fields && cf == Canon(JObj(fs)).fields
    ensures StrField(cf, "id") == Some(e.id) && StrField(cf, "fromPinId") == Some(e.fromPinId)
    ensures StrField(cf, "toPinId") == Some(e.toPinId)
    ensures OptStrField(cf, "label") == Some(e.labelText) && OptStrField(cf, "color") == Some(e.color)
  {
    EdgeJsonFields(e);
    CanonLookupValue(fs, "id");
    CanonLookupValue(fs, "fromPinId");
    CanonLookupValue(fs, "toPinId");
    CanonWritten(fs, "label", e.labelText);
    CanonWritten(fs, "color", e.color);
  }

  lemma DecodeCanonEdge(e: Edge)
    ensures DecodeEdge(Canon(EdgeJson(e))) == Some(e)
  {
    var fs := EdgeJson(e).fields;
    var cf := Canon(JObj(fs)).fields;
    CanonEdgeFields(e, fs, cf);
    assert Canon(EdgeJson(e)) == JObj(cf);
  }

  lemma DecodeCanonPosition(p: Position)
    ensures DecodePosition(Canon(PositionJson(p))) == Some(p)
  {
    var fs := PositionJson(p).fields;
    CanonFieldAt(fs, 0);
    CanonFieldAt(fs, 1);
  }

  /** A canonical array holds each item canonicalised, in place. */
  lemma CanonArray(xs: seq<Json>, i: int)
    requires 0 <= i < |xs|
    ensures Canon(JArr(xs)).JArr? && |Canon(JArr(xs)).items| == |xs| && Canon(JArr(xs)).items[i] == Canon(xs[i])
  {
  }

  lemma DecodeCanonPins(ps: seq<Pin>)
    ensures DecodeAll(Canon(PinsJson(ps)).items, DecodePin) == Some(ps)
  {
    var items := Canon(PinsJson(ps)).items;
    forall i | 0 <= i < |ps| ensures DecodePin(items[i]) == Some(ps[i]) {
      CanonArray(PinsJson(ps).items, i);
      DecodeCanonPin(ps[i]);
    }
    var r := DecodeAll(items, DecodePin);
    assert r.Some? && |r.value| == |ps|;
    assert r.value == ps;
  }

  lemma DecodeCanonEdges(es: seq<Edge>)
    ensures DecodeAll(Canon(EdgesJson(es)).items, DecodeEdge) == Some(es)
  {
    var xs := EdgesJson(es).items;
    var items := Canon(JArr(xs)).items;
    forall i | 0 <= i < |es| ensures DecodeEdge(items[i]) == Some(es[i]) {
      CanonArray(xs, i);
      DecodeCanonEdge(es[i]);
    }
    var r := DecodeAll(items, DecodeEdge);
    assert r.Some? && |r.value| == |es|;
    assert r.value == es;
  }

  // ---- Nodes and graphs come back with their data in canonical key order ----

  /** An object's fields in canonical order, values canonicalised. */
  function CanonData(fs: seq<Field>): seq<Field>
  {
    Canon(JObj(fs)).fields
  }

  function CanonNode(n: NodeDoc): NodeDoc
  {
    n.(data := CanonData(n.data))
  }

  function CanonNodes(ns: seq<NodeDoc>): (r: seq<NodeDoc>)
    ensures |r| == |ns| && forall i :: 0 <= i < |ns| ==> r[i] == CanonNode(ns[i])
  {
    seq(|ns|, i requires 0 <= i < |ns| => CanonNode(ns[i]))
  }

  function CanonGraph(g: GraphDoc): GraphDoc
  {
    g.(nodes := CanonNodes(g.nodes))
  }

  function CanonGraphs(gs: seq<GraphDoc>): (r: seq<GraphDoc>)
    ensures |r| == |gs| && forall i :: 0 <= i < |gs| ==> r[i] == CanonGraph(gs[i])
  {
    seq(|gs|, i requires 0 <= i < |gs| => CanonGraph(gs[i]))
  }

  /** The document as the export schema reads it back from the canonical text. */
  function CanonDoc(d: ExportDoc): ExportDoc
  {
    d.(graphs := CanonGraphs(d.graphs))
  }

  lemma NodeJsonUnique(n: NodeDoc)
    ensures NodeJson(n).JObj? && UniqueKeys(NodeJson(n).fields)
  {
  }

  /** The fields of a canonical node record, as the node schema reads them. */
  lemma CanonNodeFields(n: NodeDoc, fs: seq<Field>, cf: seq<Field>)
    requires fs == NodeJson(n).fields && cf == Canon(JObj(fs)).fields
    ensures StrField(cf, "id") == Some(n.id) && TypeField(cf) == Some(n.kind)
    ensures Lookup(cf, "position") == Some(Canon(PositionJson(n.position)))
    ensures ArrField(cf, "inputPins") == Some(Canon(PinsJson(n.inputPins)).items)
    ensures ArrField(cf, "outputPins") == Some(Canon(PinsJson(n.outputPins)).items)
    ensures Lookup(cf, "data") == Some(JObj(CanonData(n.data)))
  {
    NodeJsonUnique(n);
    CanonFieldAt(fs, 0);
    CanonFieldAt(fs, 1);
    CanonFieldAt(fs, 2);
    CanonFieldAt(fs, 3);
    CanonFieldAt(fs, 4);
    CanonFieldAt(fs, 5);
  }

  lemma DecodeCanonNode(n: NodeDoc)
    ensures DecodeNode(Canon(NodeJson(n))) == Some(CanonNode(n))
  {
    var fs := NodeJson(n).fields;
    var cf := Canon(JObj(fs)).fields;
    CanonNodeFields(n, fs, cf);
    DecodeCanonPosition(n.position);
    DecodeCanonPins(n.inputPins);
    DecodeCanonPins(n.outputPins);
    DecodeNodeFrom(Canon(NodeJson(n)), cf, CanonNode(n), Canon(PinsJson(n.inputPins)).items, Canon(PinsJson(n.outputPins)).items);
  }

  /** A node decodes to `n` when each of its fields decodes to `n`'s. */
  lemma DecodeNodeFrom(j: Json, cf: seq<Field>, n: NodeDoc, ins: seq<Json>, outs: seq<Json>)
    requires j == JObj(cf) && StrField(cf, "id") == Some(n.id) && TypeField(cf) == Some(n.kind)
    requires Lookup(cf, "position").Some? && DecodePosition(Lookup(cf, "position").value) == Some(n.position)
    requires ArrField(cf, "inputPins") == Some(ins) && DecodeAll(ins, DecodePin) == Some(n.inputPins)
    requires ArrField(cf, "outputPins") == Some(outs) && DecodeAll(outs, DecodePin) == Some(n.outputPins)
    requires Lookup(cf, "data") == Some(JObj(n.data))
    ensures DecodeNode(j) == Some(n)
  {
  }

  lemma DecodeCanonNodes(ns: seq<NodeDoc>)
    ensures DecodeAll(Canon(NodesJson(ns)).items, DecodeNode) == Some(CanonNodes(ns))
  {
    var xs := NodesJson(ns).items;
    var items := Canon(JArr(xs)).items;
    forall i | 0 <= i < |ns| ensures DecodeNode(items[i]) == Some(CanonNode(ns[i])) {
      CanonArray(xs, i);
      DecodeCanonNode(ns[i]);
    }
    var r := DecodeAll(items, DecodeNode);
    assert r.Some? && |r.value| == |ns|;
    assert r.value == CanonNodes(ns);
  }

  lemma GraphJsonFields(g: GraphDoc, fs: seq<Field>, cf: seq<Field>)
    requires fs == GraphJson(g).fields && cf == Canon(JObj(fs)).fields
    ensures StrField(cf, "id") == Some(g.id) && Lookup(cf, "name") == Some(JStr(g.name))
    ensures ArrField(cf, "nodes") == Some(Canon(NodesJson(g.nodes)).items)
    ensures ArrField(cf, "edges") == Some(Canon(EdgesJson(g.edges)).items)
  {
    assert UniqueKeys(fs);
    CanonFieldAt(fs, 0);
    CanonFieldAt(fs, 1);
    CanonFieldAt(fs, 2);
    CanonFieldAt(fs, 3);
  }

  lemma DecodeCanonGraph(g: GraphDoc)
    requires g.name != ""
    ensures DecodeGraph(Canon(GraphJson(g))) == Some(CanonGraph(g))
  {
    var fs := GraphJson(g).fields;
    var cf := Canon(JObj(fs)).fields;
    GraphJsonFields(g, fs, cf);
    DecodeCanonNodes(g.nodes);
    DecodeCanonEdges(g.edges);
    DecodeGraphFrom(Canon(GraphJson(g)), cf, CanonGraph(g), Canon(NodesJson(g.nodes)).items, Canon(EdgesJson(g.edges)).items);
  }

  /** A graph decodes to `g` when each of its fields decodes to `g`'s. */
  lemma DecodeGraphFrom(j: Json, cf: seq<Field>, g: GraphDoc, ns: seq<Json>, es: seq<Json>)
    requires j == JObj(cf) && StrField(cf, "id") == Some(g.id) && Lookup(cf, "name") == Some(JStr(g.name)) && g.name != ""
    requires ArrField(cf, "nodes") == Some(ns) && DecodeAll(ns, DecodeNode) == Some(g.nodes)
    requires ArrField(cf, "edges") == Some(es) && DecodeAll(es, DecodeEdge) == Some(g.edges)
    ensures DecodeGraph(j) == Some(g)
  {
    assert NameField(cf, "name") == Some(g.name);
  }

  lemma DecodeCanonCharacter(c: Character)
    requires c.name != ""
    ensures DecodeCharacter(Canon(CharacterJson(c))) == Some(c)
  {
    var fs := CharacterJson(c).fields;
    CanonFieldAt(fs, 0);
    CanonFieldAt(fs, 1);
  }

  lemma DecodeCanonCharacters(cs: seq<Character>)
    requires forall i :: 0 <= i < |cs| ==> cs[i].name != ""
    ensures DecodeAll(Canon(CharactersJson(cs)).items, DecodeCharacter) == Some(cs)
  {
    var xs := CharactersJson(cs).items;
    var items := Canon(JArr(xs)).items;
    forall i | 0 <= i < |cs| ensures DecodeCharacter(items[i]) == Some(cs[i]) {
      CanonArray(xs, i);
      DecodeCanonCharacter(cs[i]);
    }
    var r := DecodeAll(items, DecodeCharacter);
    assert r.Some? && |r.value| == |cs|;
    assert r.value == cs;
  }

  lemma DecodeCanonGraphs(gs: seq<GraphDoc>)
    requires forall i :: 0 <= i < |gs| ==> gs[i].name != ""
    ensures DecodeAll(Canon(GraphsJson(gs)).items, DecodeGraph) == Some(CanonGraphs(gs))
  {
    var xs := GraphsJson(gs).items;
    var items := Canon(JArr(xs)).items;
    forall i | 0 <= i < |gs| ensures DecodeGraph(items[i]) == Some(CanonGraph(gs[i])) {
      CanonArray(xs, i);
      DecodeCanonGraph(gs[i]);
    }
    var r := DecodeAll(items, DecodeGraph);
    assert r.Some? && |r.value| == |gs|;
    assert r.value == CanonGraphs(gs);
  }

  lemma TreeNodeJsonShape(t: TreeNode)
    ensures var fs := TreeNodeJson(t).fields;
      UniqueKeys(fs) && |fs| == (if t.graphId.Some? then 5 else 4) &&
      fs[0] == Field("id", JStr(t.id)) && fs[1] == Field("type", JStr(TreeNodeTypeName(t.kind))) &&
      fs[2] == Field("name", JStr(t.name)) && fs[3] == Field("children", TreeNodesJson(t.children)) &&
      (t.graphId.Some? ==> fs[4] == Field("graphId", JStr(t.graphId.value))) &&
      (t.graphId.None? ==> !HasKey(fs, "graphId"))
  {
  }

  /** The fields of a canonical tree node, as the tree-node schema reads them. */
  lemma CanonTreeFields(t: TreeNode, fs: seq<Field>, cf: seq<Field>)
    requires fs == TreeNodeJson(t).fields && cf == Canon(JObj(fs)).fields
    ensures StrField(cf, "id") == Some(t.id) && TreeTypeField(cf) == Some(t.kind)
    ensures Lookup(cf, "name") == Some(JStr(t.name)) && OptStrField(cf, "graphId") == Some(t.graphId)
    ensures ArrField(cf, "children") == Some(Canon(TreeNodesJson(t.children)).items)
  {
    TreeNodeJsonShape(t);
    CanonFieldAt(fs, 0);
    CanonFieldAt(fs, 1);
    CanonFieldAt(fs, 2);
    CanonFieldAt(fs, 3);
    if t.graphId.Some? {
      CanonFieldAt(fs, 4);
    } else {
      CanonAbsent(fs, "graphId");
    }
  }

  /** A tree node named at every depth decodes from its canonical record to itself. */
  lemma {:induction false} DecodeCanonTree(t: TreeNode)
    requires TreeNamed(t)
    ensures DecodeTreeNode(Canon(TreeNodeJson(t))) == Some(t)
    decreases t, 1
  {
    var fs := TreeNodeJson(t).fields;
    var cf := Canon(JObj(fs)).fields;
    CanonTreeFields(t, fs, cf);
    DecodeCanonTrees(t.children);
    DecodeTreeFrom(Canon(TreeNodeJson(t)), cf, t, Canon(TreeNodesJson(t.children)).items);
  }

  /** A tree node decodes to `t` when its own fields are `t`'s and its children decode to `t`'s. */
  lemma DecodeTreeFrom(j: Json, cf: seq<Field>, t: TreeNode, cs: seq<Json>)
    requires j == JObj(cf) && StrField(cf, "id") == Some(t.id) && TreeTypeField(cf) == Some(t.kind)
    requires Lookup(cf, "name") == Some(JStr(t.name)) && t.name != "" && OptStrField(cf, "graphId") == Some(t.graphId)
    requires ArrField(cf, "children") == Some(cs) && DecodeTreeNodes(cs) == Some(t.children)
    ensures DecodeTreeNode(j) == Some(t)
  {
  }

  lemma {:induction false} DecodeCanonTrees(ts: seq<TreeNode>)
    requires forall i :: 0 <= i < |ts| ==> TreeNamed(ts[i])
    ensures DecodeTreeNodes(Canon(TreeNodesJson(ts)).items) == Some(ts)
    decreases ts, 0
  {
    if ts != [] {
      assert forall i :: 0 <= i < |ts[1..]| ==> TreeNamed(ts[1..][i]) by {
        forall i | 0 <= i < |ts[1..]| ensures TreeNamed(ts[1..][i]) {
          assert ts[1..][i] == ts[i + 1];
        }
      }
      DecodeCanonTree(ts[0]);
      DecodeCanonTrees(ts[1..]);
      DecodeTreesStep(ts);
    }
  }

  /** The canonical list of tree nodes decodes when its first node and the rest's list do. */
  lemma DecodeTreesStep(ts: seq<TreeNode>)
    requires ts != [] && DecodeTreeNode(Canon(TreeNodeJson(ts[0]))) == Some(ts[0])
    requires DecodeTreeNodes(Canon(TreeNodesJson(ts[1..])).items) == Some(ts[1..])
    ensures DecodeTreeNodes(Canon(TreeNodesJson(ts)).items) == Some(ts)
  {
    var cs := Canon(TreeNodesJson(ts)).items;
    CanonTreesSplit(ts, cs);
    DecodeTreesCons(cs, ts[0], ts[1..]);
    assert ts == [ts[0]] + ts[1..];
  }

  lemma DecodeTreesCons(cs: seq<Json>, t: TreeNode, rest: seq<TreeNode>)
    requires cs != [] && DecodeTreeNode(cs[0]) == Some(t) && DecodeTreeNodes(cs[1..]) == Some(rest)
    ensures DecodeTreeNodes(cs) == Some([t] + rest)
  {
  }

  /** The canonical list of tree nodes: the first node's record, then the rest's list. */
  lemma CanonTreesSplit(ts: seq<TreeNode>, cs: seq<Json>)
    requires ts != [] && cs == Canon(TreeNodesJson(ts)).items
    ensures cs != [] && cs[0] == Canon(TreeNodeJson(ts[0])) && cs[1..] == Canon(TreeNodesJson(ts[1..])).items
  {
    var xs := TreeNodesJson(ts).items;
    TreeNodesTail(ts);
    CanonArray(xs, 0);
    CanonTail(xs);
  }

  lemma TreeNodesTail(ts: seq<TreeNode>)
    requires ts != []
    ensures TreeNodesJson(ts).items[0] == TreeNodeJson(ts[0])
    ensures TreeNodesJson(ts).items[1..] == TreeNodesJson(ts[1..]).items
  {
    var a, b := TreeNodesJson(ts).items[1..], TreeNodesJson(ts[1..]).items;
    assert forall i :: 0 <= i < |b| ==> a[i] == b[i];
  }

  /** Canonicalising an array commutes with dropping its first item. */
  lemma CanonTail(xs: seq<Json>)
    requires xs != []
    ensures Canon(JArr(xs)).items[1..] == Canon(JArr(xs[1..])).items
  {
    var a, b := Canon(JArr(xs)).items[1..], Canon(JArr(xs[1..])).items;
    forall i | 0 <= i < |b| ensures a[i] == b[i] {
      CanonArray(xs, i + 1);
      CanonArray(xs[1..], i);
    }
  }

  // ---- The document ----

  /** Every name the export schema requires to be non-empty is non-empty. */
  predicate DocNamed(d: ExportDoc)
  {
    d.name != "" &&
    (forall i :: 0 <= i < |d.characters| ==> d.characters[i].name != "") &&
    (forall i :: 0 <= i < |d.graphs| ==> d.graphs[i].name != "") &&
    (forall i :: 0 <= i < |d.hierarchyRoot| ==> TreeNamed(d.hierarchyRoot[i]))
  }

  lemma DocJsonUnique(d: ExportDoc)
    ensures UniqueKeys(DocJson(d).fields)
  {
  }

  /** The fields of the canonical export document, as the export schema reads them. */
  lemma CanonDocFields(d: ExportDoc, fs: seq<Field>, cf: seq<Field>)
    requires fs == DocJson(d).fields && cf == Canon(JObj(fs)).fields
    ensures Lookup(cf, "schemaVersion") == Some(JNum(d.schemaVersion))
    ensures StrField(cf, "id") == Some(d.id) && Lookup(cf, "name") == Some(JStr(d.name))
    ensures StrField(cf, "createdAt") == Some(d.createdAt) && StrField(cf, "updatedAt") == Some(d.updatedAt)
    ensures ArrField(cf, "characters") == Some(Canon(CharactersJson(d.characters)).items)
    ensures ArrField(cf, "hierarchyRoot") == Some(Canon(TreeNodesJson(d.hierarchyRoot)).items)
    ensures ArrField(cf, "graphs") == Some(Canon(GraphsJson(d.graphs)).items)
  {
    DocJsonUnique(d);
    CanonFieldAt(fs, 0);
    CanonFieldAt(fs, 1);
    CanonFieldAt(fs, 2);
    CanonFieldAt(fs, 3);
    CanonFieldAt(fs, 4);
    CanonFieldAt(fs, 5);
    CanonFieldAt(fs, 6);
    CanonFieldAt(fs, 7);
  }

  /** The canonical export document passes the export schema and comes back as itself, node data canonicalised. */
  lemma DecodeCanonDoc(d: ExportDoc)
    requires DocNamed(d) && d.schemaVersion >= 1
    ensures DecodeDoc(Canon(DocJson(d))) == Some(CanonDoc(d))
  {
    var fs := DocJson(d).fields;
    var cf := Canon(JObj(fs)).fields;
    CanonDocFields(d, fs, cf);
    DecodeCanonCharacters(d.characters);
    DecodeCanonTrees(d.hierarchyRoot);
    DecodeCanonGraphs(d.graphs);
    DecodeDocFrom(Canon(DocJson(d)), cf, CanonDoc(d),
      Canon(CharactersJson(d.characters)).items, Canon(TreeNodesJson(d.hierarchyRoot)).items, Canon(GraphsJson(d.graphs)).items);
  }

  /** A document decodes to `d` when each of its fields decodes to `d`'s. */
  lemma DecodeDocFrom(j: Json, cf: seq<Field>, d: ExportDoc, cs: seq<Json>, hs: seq<Json>, gs: seq<Json>)
    requires j == JObj(cf) && Lookup(cf, "schemaVersion") == Some(JNum(d.schemaVersion)) && d.schemaVersion >= 1
    requires StrField(cf, "id") == Some(d.id) && Lookup(cf, "name") == Some(JStr(d.name)) && d.name != ""
    requires StrField(cf, "createdAt") == Some(d.createdAt) && StrField(cf, "updatedAt") == Some(d.updatedAt)
    requires ArrField(cf, "characters") == Some(cs) && DecodeAll(cs, DecodeCharacter) == Some(d.characters)
    requires ArrField(cf, "hierarchyRoot") == Some(hs) && DecodeTreeNodes(hs) == Some(d.hierarchyRoot)
    requires ArrField(cf, "graphs") == Some(gs) && DecodeAll(gs, DecodeGraph) == Some(d.graphs)
    ensures DecodeDoc(j) == Some(d)
  {
    assert NumField(cf, "schemaVersion") == Some(d.schemaVersion);
    assert NameField(cf, "name") == Some(d.name);
  }

  /**
   * The canonical export of a document whose names are all non-empty and whose
   * version is the current one passes migration (no step runs) and the export
   * schema, and comes back as the document itself, node data in canonical order.
   */
  lemma ExportDocDecodes(d: ExportDoc)
    requires DocNamed(d) && d.schemaVersion == Migrations.CurrentVersion
    ensures Importer.Validated(Canon(DocJson(d))) == Ok(CanonDoc(d))
  {
    var fs := DocJson(d).fields;
    var cf := Canon(JObj(fs)).fields;
    CanonDocFields(d, fs, cf);
    DecodeCanonDoc(d);
    assert Migrations.Migrate(Canon(DocJson(d))) == Ok(cf);
  }

  // ---- A document in the shape an export has ----

  function NodeDocKey(n: NodeDoc): string { n.id }
  function GraphDocKey(g: GraphDoc): string { g.id }

  function DirPins(n: NodeDoc, d: PinDirection): seq<Pin>
  {
    if d == In then n.inputPins else n.outputPins
  }

  /** A node's pins of each direction are sorted by distinct ids, owned by it, with that direction. */
  ghost predicate PinsShaped(n: NodeDoc)
  {
    forall d ::
      Sorting.SortedBy(DirPins(n, d), PinKey) && Sorting.KeysDistinct(DirPins(n, d), PinKey) &&
      forall x :: x in DirPins(n, d) ==> x.nodeId == n.id && x.direction == d
  }

  ghost predicate GraphShaped(g: GraphDoc)
  {
    Sorting.SortedBy(g.nodes, NodeDocKey) && Sorting.SortedBy(g.edges, EdgeKey) &&
    forall k :: 0 <= k < |g.nodes| ==> PinsShaped(g.nodes[k])
  }

  /** Two nodes of the document with the same id are the same node. */
  ghost predicate NodesDetermined(gs: seq<GraphDoc>)
  {
    forall a, b, m, n :: 0 <= a < |gs| && 0 <= b < |gs| && m in gs[a].nodes && n in gs[b].nodes && m.id == n.id ==> m == n
  }

  /**
   * Graphs and characters sorted by distinct ids, each graph's nodes and edges sorted,
   * each node's pins in order and its own, and an id naming one node, one pin, one edge.
   */
  ghost predicate DocShaped(d: ExportDoc)
  {
    Sorting.SortedBy(d.characters, CharacterKey) && Sorting.KeysDistinct(d.characters, CharacterKey) &&
    Sorting.SortedBy(d.graphs, GraphDocKey) && Sorting.KeysDistinct(d.graphs, GraphDocKey) &&
    (forall i :: 0 <= i < |d.graphs| ==> GraphShaped(d.graphs[i])) &&
    NodesDetermined(d.graphs) &&
    Sorting.KeyDetermines(Importer.AllPins(d.graphs), PinKey) &&
    Sorting.KeyDetermines(Importer.AllEdges(d.graphs), EdgeKey)
  }

  // ---- Importing, then exporting again ----

  /** The node as the graph store holds it: `type` added to its data unless the data has one. */
  function RetypedNode(n: NodeDoc): NodeDoc
  {
    n.(data := Importer.NodeRecord(n, "").data)
  }

  function RetypedGraph(g: GraphDoc): GraphDoc
  {
    g.(nodes := seq(|g.nodes|, i requires 0 <= i < |g.nodes| => RetypedNode(g.nodes[i])))
  }

  function RetypedDoc(d: ExportDoc): ExportDoc
  {
    d.(graphs := seq(|d.graphs|, i requires 0 <= i < |d.graphs| => RetypedGraph(d.graphs[i])))
  }

  /** Sorting the values of a map built from a sorted list with distinct keys gives the list back. */
  lemma IndexSorted<T>(xs: seq<T>, key: T -> string, order: seq<string>)
    requires Sorting.SortedBy(xs, key) && Sorting.KeysDistinct(xs, key)
    requires Enumerates(order, Importer.Index(map[], xs, key).Keys)
    ensures Sorting.SortBy(ValuesIn(Importer.Index(map[], xs, key), order), key) == xs
  {
    var m := Importer.Index(map[], xs, key);
    forall k | k in m ensures key(m[k]) == k {
      Importer.IndexValue(xs, key, k);
    }
    var vs := ValuesIn(m, order);
    ValuesKeysDistinct(m, order, key);
    Sorting.SortByKeysDistinct(vs, key);
    Sorting.SortBySorted(vs, key);
    forall e ensures e in Sorting.SortBy(vs, key) <==> e in xs {
      assert e in Sorting.SortBy(vs, key) <==> e in multiset(vs);
      ValuesElements(m, order, e);
      if e in xs {
        Importer.IndexDistinct(map[], xs, key, e);
      }
      if k :| k in m && m[k] == e {
        Importer.IndexValue(xs, key, k);
      }
    }
    Sorting.SortedSameElements(Sorting.SortBy(vs, key), xs, key);
  }

  /** A document node is in the node map under its id, as the record of a node equal to it. */
  lemma FlatNode(gs: seq<GraphDoc>, a: int, k: int) returns (b: int)
    requires NodesDetermined(gs) && 0 <= a < |gs| && 0 <= k < |gs[a].nodes|
    ensures var n := gs[a].nodes[k];
      n.id in Importer.Flatten(gs).nodes && 0 <= b < |gs| &&
      Importer.Flatten(gs).nodes[n.id] == Importer.NodeRecord(n, gs[b].id)
  {
    var n := gs[a].nodes[k];
    var all := Importer.AllNodes(gs);
    Importer.AllNodesHas(gs, a, k);
    var i :| 0 <= i < |all| && all[i] == Importer.NodeRecord(n, gs[a].id);
    Importer.IndexKeys(map[], all, NodeKey, n.id);
    Importer.IndexValue(all, NodeKey, n.id);
    var v := Importer.Index(map[], all, NodeKey)[n.id];
    var m;
    b, m := Importer.AllNodesMember(gs, v);
    assert gs[a].nodes[k] in gs[a].nodes;
  }

  ghost predicate AllPinsShaped(gs: seq<GraphDoc>)
  {
    forall b, j :: 0 <= b < |gs| && 0 <= j < |gs[b].nodes| ==> PinsShaped(gs[b].nodes[j])
  }

  /** Where a pin of the pin map sits in the document: among its owner's pins of its direction. */
  lemma FlatPinOwner(gs: seq<GraphDoc>, x: Pin) returns (b: int, j: int)
    requires AllPinsShaped(gs) && x in Importer.AllPins(gs)
    ensures 0 <= b < |gs| && 0 <= j < |gs[b].nodes| && x in DirPins(gs[b].nodes[j], x.direction)
    ensures x.nodeId == gs[b].nodes[j].id
  {
    b, j := Importer.AllPinsMember(gs, x);
    var m := gs[b].nodes[j];
    assert PinsShaped(m);
    assert DirPins(m, In) == m.inputPins && DirPins(m, Out) == m.outputPins;
  }

  /** Re-exporting a node's pins of one direction from the pin map gives its pins back. */
  lemma FlatNodePins(gs: seq<GraphDoc>, a: int, k: int, po: seq<string>, d: PinDirection)
    requires 0 <= a < |gs| && 0 <= k < |gs[a].nodes|
    requires NodesDetermined(gs) && AllPinsShaped(gs) && Sorting.KeyDetermines(Importer.AllPins(gs), PinKey)
    requires Enumerates(po, Importer.Flatten(gs).pins.Keys)
    ensures NodePins(Importer.Flatten(gs).pins, po, gs[a].nodes[k].id, d) == DirPins(gs[a].nodes[k], d)
  {
    var n := gs[a].nodes[k];
    var all := Importer.AllPins(gs);
    var pins := Importer.Flatten(gs).pins;
    assert pins == Importer.Index(map[], all, PinKey);
    forall key | key in pins ensures pins[key].id == key {
      Importer.IndexValue(all, PinKey, key);
    }
    var vs := ValuesIn(pins, po);
    var kept := Filter(vs, OwnedBy(n.id, d));
    var got := Sorting.SortBy(kept, PinKey);
    ValuesKeysDistinct(pins, po, PinKey);
    FilterKeysDistinct(vs, OwnedBy(n.id, d), PinKey);
    Sorting.SortByKeysDistinct(kept, PinKey);
    Sorting.SortBySorted(kept, PinKey);
    assert PinsShaped(n);
    forall x ensures x in got <==> x in DirPins(n, d) {
      NodePinsExact(pins, po, n.id, d, x);
      if x in DirPins(n, d) {
        assert x in n.inputPins || x in n.outputPins;
        Importer.AllPinsHas(gs, a, k, x);
        Importer.IndexDetermined(all, PinKey, x);
      }
      if x in got {
        var key :| key in pins && pins[key] == x;
        Importer.IndexValue(all, PinKey, key);
        var b, j := FlatPinOwner(gs, x);
        assert gs[b].nodes[j] in gs[b].nodes && n in gs[a].nodes;
      }
    }
    Sorting.SortedSameElements(got, DirPins(n, d), PinKey);
  }

  /** Listing ids that all have a record keeps every one of them. */
  lemma AllPresent(ids: seq<string>, keys: set<string>)
    requires forall i :: 0 <= i < |ids| ==> ids[i] in keys
    ensures Present(ids, keys) == ids
  {
    Lists.WithoutDisjoint(ids, Lists.Elems(ids) - keys);
  }

  /** Re-exporting a flattened graph's nodes gives its nodes back, each with its stored data. */
  lemma ReexportNodes(gs: seq<GraphDoc>, a: int, po: seq<string>)
    requires 0 <= a < |gs| && Sorting.SortedBy(gs[a].nodes, NodeDocKey)
    requires NodesDetermined(gs) && AllPinsShaped(gs) && Sorting.KeyDetermines(Importer.AllPins(gs), PinKey)
    requires Enumerates(po, Importer.Flatten(gs).pins.Keys)
    ensures ExportGraph(Importer.Flatten(gs), po, Importer.GraphRecord(gs[a])).nodes == RetypedGraph(gs[a]).nodes
  {
    var s' := Importer.Flatten(gs);
    var g := gs[a];
    var ids := Importer.NodeIds(g.nodes);
    forall k | 0 <= k < |ids| ensures ids[k] in s'.nodes {
      var b := FlatNode(gs, a, k);
    }
    AllPresent(ids, s'.nodes.Keys);
    var listed := ListedNodes(s'.nodes, ids);
    forall i, j | 0 <= i < j < |listed| ensures Strings.Le(NodeKey(listed[i]), NodeKey(listed[j])) {
      assert NodeKey(listed[i]) == NodeDocKey(g.nodes[i]) && NodeKey(listed[j]) == NodeDocKey(g.nodes[j]);
    }
    Sorting.SortByIdentity(listed, NodeKey);
    var got := ExportGraph(s', po, Importer.GraphRecord(g)).nodes;
    forall k | 0 <= k < |g.nodes| ensures got[k] == RetypedNode(g.nodes[k]) {
      var b := FlatNode(gs, a, k);
      assert listed[k] == Importer.NodeRecord(g.nodes[k], gs[b].id);
      FlatNodePins(gs, a, k, po, In);
      FlatNodePins(gs, a, k, po, Out);
    }
  }

  /** Re-exporting a flattened graph's edges gives its edges back. */
  lemma ReexportEdges(gs: seq<GraphDoc>, a: int, po: seq<string>)
    requires 0 <= a < |gs| && Sorting.SortedBy(gs[a].edges, EdgeKey)
    requires Sorting.KeyDetermines(Importer.AllEdges(gs), EdgeKey)
    requires Enumerates(po, Importer.Flatten(gs).pins.Keys)
    ensures ExportGraph(Importer.Flatten(gs), po, Importer.GraphRecord(gs[a])).edges == gs[a].edges
  {
    var s' := Importer.Flatten(gs);
    var g := gs[a];
    var ids := Importer.EdgeIds(g.edges);
    forall k | 0 <= k < |g.edges| ensures ids[k] in s'.edges && s'.edges[ids[k]] == g.edges[k] {
      Importer.AllEdgesHas(gs, a, g.edges[k]);
      Importer.IndexDetermined(Importer.AllEdges(gs), EdgeKey, g.edges[k]);
    }
    AllPresent(ids, s'.edges.Keys);
    var listed := ListedEdges(s'.edges, ids);
    assert listed == g.edges;
    Sorting.SortByIdentity(listed, EdgeKey);
  }

  lemma ReexportGraph(gs: seq<GraphDoc>, a: int, po: seq<string>)
    requires 0 <= a < |gs| && GraphShaped(gs[a])
    requires NodesDetermined(gs) && AllPinsShaped(gs)
    requires Sorting.KeyDetermines(Importer.AllPins(gs), PinKey) && Sorting.KeyDetermines(Importer.AllEdges(gs), EdgeKey)
    requires Enumerates(po, Importer.Flatten(gs).pins.Keys)
    ensures ExportGraph(Importer.Flatten(gs), po, Importer.GraphRecord(gs[a])) == RetypedGraph(gs[a])
  {
    ReexportNodes(gs, a, po);
    ReexportEdges(gs, a, po);
  }

  /** Re-exporting the graphs of a document in export shape gives them back, node data retyped. */
  lemma ReexportGraphs(gs: seq<GraphDoc>, go: seq<string>, po: seq<string>)
    requires Sorting.SortedBy(gs, GraphDocKey) && Sorting.KeysDistinct(gs, GraphDocKey)
    requires forall i :: 0 <= i < |gs| ==> GraphShaped(gs[i])
    requires NodesDetermined(gs)
    requires Sorting.KeyDetermines(Importer.AllPins(gs), PinKey) && Sorting.KeyDetermines(Importer.AllEdges(gs), EdgeKey)
    requires Enumerates(go, Importer.Flatten(gs).graphs.Keys) && Enumerates(po, Importer.Flatten(gs).pins.Keys)
    ensures var got := ExportGraphs(Importer.Flatten(gs), go, po);
      |got| == |gs| && forall i :: 0 <= i < |gs| ==> got[i] == RetypedGraph(gs[i])
  {
    var s' := Importer.Flatten(gs);
    var recs := Importer.GraphRecords(gs);
    forall i, j | 0 <= i < j < |recs| ensures Strings.Le(GraphKey(recs[i]), GraphKey(recs[j])) && GraphKey(recs[i]) != GraphKey(recs[j]) {
      assert GraphKey(recs[i]) == GraphDocKey(gs[i]) && GraphKey(recs[j]) == GraphDocKey(gs[j]);
    }
    IndexSorted(recs, GraphKey, go);
    assert Sorting.SortBy(ValuesIn(s'.graphs, go), GraphKey) == recs;
    assert AllPinsShaped(gs) by {
      forall b, j | 0 <= b < |gs| && 0 <= j < |gs[b].nodes| ensures PinsShaped(gs[b].nodes[j]) {
        assert GraphShaped(gs[b]);
      }
    }
    var got := ExportGraphs(s', go, po);
    forall i | 0 <= i < |gs| ensures got[i] == RetypedGraph(gs[i]) {
      assert got[i] == ExportGraph(s', po, recs[i]);
      ReexportGraph(gs, i, po);
    }
  }

  lemma RetypedGraphsAre(d: ExportDoc, got: seq<GraphDoc>)
    requires |got| == |d.graphs| && forall i :: 0 <= i < |got| ==> got[i] == RetypedGraph(d.graphs[i])
    ensures got == RetypedDoc(d).graphs
  {
  }

  /** Hydrating the stores from a document in export shape, then exporting, gives the document back, node data retyped. */
  lemma ReexportDoc(d: ExportDoc, go: seq<string>, po: seq<string>, co: seq<string>)
    requires DocShaped(d)
    requires Enumerates(go, Importer.Flatten(d.graphs).graphs.Keys)
    requires Enumerates(po, Importer.Flatten(d.graphs).pins.Keys)
    requires Enumerates(co, Importer.ProjectOf(d).characters.Keys)
    ensures ExportDocument(Importer.Flatten(d.graphs), Importer.ProjectOf(d), go, po, co) == RetypedDoc(d)
  {
    IndexSorted(d.characters, CharacterKey, co);
    ReexportGraphs(d.graphs, go, po);
    RetypedGraphsAre(d, ExportGraphs(Importer.Flatten(d.graphs), go, po));
  }

  // ---- An export is in export shape ----

  /** The pins an exported node lists are stored under their ids. */
  lemma ExportNodePinStored(pins: map<string, Pin>, po: seq<string>, n: Node, d: PinDirection, x: Pin)
    requires Enumerates(po, pins.Keys) && (forall k :: k in pins ==> pins[k].id == k)
    requires x in DirPins(ExportNode(pins, po, n), d)
    ensures x.id in pins && pins[x.id] == x && x.nodeId == n.id && x.direction == d
  {
    NodePinsExact(pins, po, n.id, d, x);
  }

  lemma ExportNodeShaped(pins: map<string, Pin>, po: seq<string>, n: Node)
    requires Enumerates(po, pins.Keys) && (forall k :: k in pins ==> pins[k].id == k)
    ensures PinsShaped(ExportNode(pins, po, n))
  {
    var en := ExportNode(pins, po, n);
    forall d ensures Sorting.SortedBy(DirPins(en, d), PinKey) && Sorting.KeysDistinct(DirPins(en, d), PinKey) &&
      forall x :: x in DirPins(en, d) ==> x.nodeId == en.id && x.direction == d
    {
      var vs := ValuesIn(pins, po);
      ValuesKeysDistinct(pins, po, PinKey);
      FilterKeysDistinct(vs, OwnedBy(n.id, d), PinKey);
      Sorting.SortByKeysDistinct(Filter(vs, OwnedBy(n.id, d)), PinKey);
      Sorting.SortBySorted(Filter(vs, OwnedBy(n.id, d)), PinKey);
      forall x | x in DirPins(en, d) ensures x.nodeId == en.id && x.direction == d {
        ExportNodePinStored(pins, po, n, d, x);
      }
    }
  }

  /** A listed node is the node stored under its id. */
  lemma ListedNodeStored(nodes: map<string, Node>, ids: seq<string>, x: Node)
    requires forall k :: k in nodes ==> nodes[k].id == k
    requires x in ListedNodes(nodes, ids)
    ensures x.id in nodes && nodes[x.id] == x
  {
    var listed := ListedNodes(nodes, ids);
    var present := Present(ids, nodes.Keys);
    var i :| 0 <= i < |listed| && listed[i] == x;
    assert present[i] in present;
  }

  /** The nodes of an exported graph, position by position. */
  lemma ExportGraphNodes(s: GraphOps.GraphState, po: seq<string>, g: Graph, k: int)
    requires Enumerates(po, s.pins.Keys)
    requires 0 <= k < |ExportGraph(s, po, g).nodes|
    ensures var nodes := Sorting.SortBy(ListedNodes(s.nodes, g.nodeIds), NodeKey);
      k < |nodes| && ExportGraph(s, po, g).nodes[k] == ExportNode(s.pins, po, nodes[k])
  {
  }

  /** A node of an exported graph is the export of the node stored under its id. */
  lemma ExportedNodeStored(s: GraphOps.GraphState, po: seq<string>, g: Graph, m: NodeDoc)
    requires Enumerates(po, s.pins.Keys) && GraphOps.KeysAreIds(s)
    requires m in ExportGraph(s, po, g).nodes
    ensures m.id in s.nodes && m == ExportNode(s.pins, po, s.nodes[m.id])
  {
    var listed := ListedNodes(s.nodes, g.nodeIds);
    var nodes := Sorting.SortBy(listed, NodeKey);
    var gd := ExportGraph(s, po, g);
    var k :| 0 <= k < |gd.nodes| && gd.nodes[k] == m;
    ExportGraphNodes(s, po, g, k);
    assert nodes[k] in multiset(listed);
    ListedNodeStored(s.nodes, g.nodeIds, nodes[k]);
  }

  /** The export's graphs, in graph-id order with distinct ids. */
  lemma ExportedGraphsOrdered(s: GraphOps.GraphState, go: seq<string>, po: seq<string>)
    requires Enumerates(go, s.graphs.Keys) && Enumerates(po, s.pins.Keys)
    requires forall k :: k in s.graphs ==> s.graphs[k].id == k
    ensures var gs := ExportGraphs(s, go, po);
      Sorting.SortedBy(gs, GraphDocKey) && Sorting.KeysDistinct(gs, GraphDocKey)
  {
    var gs := ExportGraphs(s, go, po);
    var graphs := Sorting.SortBy(ValuesIn(s.graphs, go), GraphKey);
    ValuesKeysDistinct(s.graphs, go, GraphKey);
    Sorting.SortBySorted(ValuesIn(s.graphs, go), GraphKey);
    Sorting.SortByKeysDistinct(ValuesIn(s.graphs, go), GraphKey);
    forall i, j | 0 <= i < j < |gs|
      ensures Strings.Le(GraphDocKey(gs[i]), GraphDocKey(gs[j])) && GraphDocKey(gs[i]) != GraphDocKey(gs[j])
    {
      ExportGraphsAt(s, go, po, i);
      ExportGraphsAt(s, go, po, j);
    }
  }

  /** The graphs of the export, position by position. */
  lemma ExportGraphsAt(s: GraphOps.GraphState, go: seq<string>, po: seq<string>, i: int)
    requires Enumerates(go, s.graphs.Keys) && Enumerates(po, s.pins.Keys)
    requires 0 <= i < |ExportGraphs(s, go, po)|
    ensures var graphs := Sorting.SortBy(ValuesIn(s.graphs, go), GraphKey);
      i < |graphs| && GraphDocKey(ExportGraphs(s, go, po)[i]) == GraphKey(graphs[i])
  {
  }

  /** The export's graphs: each the export of a stored graph, in graph-id order. */
  lemma ExportedGraphs(s: GraphOps.GraphState, go: seq<string>, po: seq<string>)
    requires Enumerates(go, s.graphs.Keys) && Enumerates(po, s.pins.Keys) && GraphOps.KeysAreIds(s)
    ensures var gs := ExportGraphs(s, go, po);
      Sorting.SortedBy(gs, GraphDocKey) && Sorting.KeysDistinct(gs, GraphDocKey) &&
      forall i :: 0 <= i < |gs| ==> exists g :: g in s.graphs.Values && gs[i] == ExportGraph(s, po, g)
  {
    ExportedGraphsOrdered(s, go, po);
    ExportGraphsSorted(s, go, po);
  }

  lemma ExportedGraphShaped(s: GraphOps.GraphState, po: seq<string>, g: Graph)
    requires Enumerates(po, s.pins.Keys) && GraphOps.KeysAreIds(s)
    ensures GraphShaped(ExportGraph(s, po, g))
  {
    var gd := ExportGraph(s, po, g);
    ExportGraphSorted(s, po, g);
    forall a, b | 0 <= a < b < |gd.nodes| ensures Strings.Le(NodeDocKey(gd.nodes[a]), NodeDocKey(gd.nodes[b])) {
      assert NodeDocKey(gd.nodes[a]) == gd.nodes[a].id && NodeDocKey(gd.nodes[b]) == gd.nodes[b].id;
    }
    forall k | 0 <= k < |gd.nodes| ensures PinsShaped(gd.nodes[k]) {
      ExportedNodeStored(s, po, g, gd.nodes[k]);
      ExportNodeShaped(s.pins, po, s.nodes[gd.nodes[k].id]);
    }
  }

  /** A node of the export is the export of the node stored under its id. */
  lemma ExportedNodeAt(s: GraphOps.GraphState, go: seq<string>, po: seq<string>, a: int, m: NodeDoc)
    requires Enumerates(go, s.graphs.Keys) && Enumerates(po, s.pins.Keys) && GraphOps.KeysAreIds(s)
    requires 0 <= a < |ExportGraphs(s, go, po)| && m in ExportGraphs(s, go, po)[a].nodes
    ensures m.id in s.nodes && m == ExportNode(s.pins, po, s.nodes[m.id])
  {
    ExportedGraphs(s, go, po);
    var g :| g in s.graphs.Values && ExportGraphs(s, go, po)[a] == ExportGraph(s, po, g);
    ExportedNodeStored(s, po, g, m);
  }

  /** A pin of the export is the pin stored under its id. */
  lemma ExportedPinStored(s: GraphOps.GraphState, go: seq<string>, po: seq<string>, x: Pin)
    requires Enumerates(go, s.graphs.Keys) && Enumerates(po, s.pins.Keys) && GraphOps.KeysAreIds(s)
    requires x in Importer.AllPins(ExportGraphs(s, go, po))
    ensures x.id in s.pins && s.pins[x.id] == x
  {
    var gs := ExportGraphs(s, go, po);
    var b, j := Importer.AllPinsMember(gs, x);
    var m := gs[b].nodes[j];
    ExportedNodeAt(s, go, po, b, m);
    var d := if x in m.inputPins then In else Out;
    ExportNodePinStored(s.pins, po, s.nodes[m.id], d, x);
  }

  /** An edge of the export is the edge stored under its id. */
  lemma ExportedEdgeStored(s: GraphOps.GraphState, go: seq<string>, po: seq<string>, x: Edge)
    requires Enumerates(go, s.graphs.Keys) && Enumerates(po, s.pins.Keys) && GraphOps.KeysAreIds(s)
    requires x in Importer.AllEdges(ExportGraphs(s, go, po))
    ensures x.id in s.edges && s.edges[x.id] == x
  {
    var gs := ExportGraphs(s, go, po);
    var b := Importer.AllEdgesMember(gs, x);
    ExportedGraphs(s, go, po);
    var g :| g in s.graphs.Values && gs[b] == ExportGraph(s, po, g);
    GraphEdgesExact(s, po, g, x);
  }

  lemma ExportedNodesDetermined(s: GraphOps.GraphState, go: seq<string>, po: seq<string>)
    requires Enumerates(go, s.graphs.Keys) && Enumerates(po, s.pins.Keys) && GraphOps.KeysAreIds(s)
    ensures NodesDetermined(ExportGraphs(s, go, po))
  {
    var gs := ExportGraphs(s, go, po);
    forall a, b, m, n | 0 <= a < |gs| && 0 <= b < |gs| && m in gs[a].nodes && n in gs[b].nodes && m.id == n.id
      ensures m == n
    {
      ExportedNodeAt(s, go, po, a, m);
      ExportedNodeAt(s, go, po, b, n);
    }
  }

  lemma ExportedPinsDetermined(s: GraphOps.GraphState, go: seq<string>, po: seq<string>)
    requires Enumerates(go, s.graphs.Keys) && Enumerates(po, s.pins.Keys) && GraphOps.KeysAreIds(s)
    ensures Sorting.KeyDetermines(Importer.AllPins(ExportGraphs(s, go, po)), PinKey)
  {
    var pins := Importer.AllPins(ExportGraphs(s, go, po));
    forall i, j | 0 <= i < |pins| && 0 <= j < |pins| && PinKey(pins[i]) == PinKey(pins[j]) ensures pins[i] == pins[j] {
      ExportedPinStored(s, go, po, pins[i]);
      ExportedPinStored(s, go, po, pins[j]);
    }
  }

  lemma ExportedEdgesDetermined(s: GraphOps.GraphState, go: seq<string>, po: seq<string>)
    requires Enumerates(go, s.graphs.Keys) && Enumerates(po, s.pins.Keys) && GraphOps.KeysAreIds(s)
    ensures Sorting.KeyDetermines(Importer.AllEdges(ExportGraphs(s, go, po)), EdgeKey)
  {
    var edges := Importer.AllEdges(ExportGraphs(s, go, po));
    forall i, j | 0 <= i < |edges| && 0 <= j < |edges| && EdgeKey(edges[i]) == EdgeKey(edges[j]) ensures edges[i] == edges[j] {
      ExportedEdgeStored(s, go, po, edges[i]);
      ExportedEdgeStored(s, go, po, edges[j]);
    }
  }

  /** Within the export, an id names one node, one pin and one edge. */
  lemma ExportedDetermined(s: GraphOps.GraphState, go: seq<string>, po: seq<string>)
    requires Enumerates(go, s.graphs.Keys) && Enumerates(po, s.pins.Keys) && GraphOps.KeysAreIds(s)
    ensures NodesDetermined(ExportGraphs(s, go, po))
    ensures Sorting.KeyDetermines(Importer.AllPins(ExportGraphs(s, go, po)), PinKey)
    ensures Sorting.KeyDetermines(Importer.AllEdges(ExportGraphs(s, go, po)), EdgeKey)
  {
    ExportedNodesDetermined(s, go, po);
    ExportedPinsDetermined(s, go, po);
    ExportedEdgesDetermined(s, go, po);
  }

  /** Every exported graph is in export shape. */
  lemma ExportedGraphsShaped(s: GraphOps.GraphState, go: seq<string>, po: seq<string>)
    requires Enumerates(go, s.graphs.Keys) && Enumerates(po, s.pins.Keys) && GraphOps.KeysAreIds(s)
    ensures forall i :: 0 <= i < |ExportGraphs(s, go, po)| ==> GraphShaped(ExportGraphs(s, go, po)[i])
  {
    var gs := ExportGraphs(s, go, po);
    ExportedGraphs(s, go, po);
    forall i | 0 <= i < |gs| ensures GraphShaped(gs[i]) {
      var g :| g in s.graphs.Values && gs[i] == ExportGraph(s, po, g);
      ExportedGraphShaped(s, po, g);
    }
  }

  /** The export of stores whose records sit under their ids is in export shape. */
  lemma ExportShaped(s: GraphOps.GraphState, p: Project, go: seq<string>, po: seq<string>, co: seq<string>)
    requires GraphOps.KeysAreIds(s) && forall k :: k in p.characters ==> p.characters[k].id == k
    requires Enumerates(go, s.graphs.Keys) && Enumerates(po, s.pins.Keys) && Enumerates(co, p.characters.Keys)
    ensures DocShaped(ExportDocument(s, p, go, po, co))
  {
    Sorting.SortBySorted(ValuesIn(p.characters, co), CharacterKey);
    ValuesKeysDistinct(p.characters, co, CharacterKey);
    Sorting.SortByKeysDistinct(ValuesIn(p.characters, co), CharacterKey);
    ExportedGraphs(s, go, po);
    ExportedGraphsShaped(s, go, po);
    ExportedDetermined(s, go, po);
  }

  // ---- Canonical node data keeps the export shape ----

  lemma {:induction false} NodesPinsCanon(ns: seq<NodeDoc>)
    ensures Importer.NodesPins(CanonNodes(ns)) == Importer.NodesPins(ns)
    decreases |ns|
  {
    if ns != [] {
      var last := |ns| - 1;
      assert CanonNodes(ns)[..last] == CanonNodes(ns[..last]);
      NodesPinsCanon(ns[..last]);
    }
  }

  lemma {:induction false} AllPinsCanon(gs: seq<GraphDoc>)
    ensures Importer.AllPins(CanonGraphs(gs)) == Importer.AllPins(gs)
    ensures Importer.AllEdges(CanonGraphs(gs)) == Importer.AllEdges(gs)
    decreases |gs|
  {
    if gs != [] {
      var last := |gs| - 1;
      assert CanonGraphs(gs)[..last] == CanonGraphs(gs[..last]);
      AllPinsCanon(gs[..last]);
      NodesPinsCanon(gs[last].nodes);
    }
  }

  lemma CanonGraphShaped(g: GraphDoc)
    requires GraphShaped(g)
    ensures GraphShaped(CanonGraph(g))
  {
    var c := CanonGraph(g);
    forall i, j | 0 <= i < j < |c.nodes| ensures Strings.Le(NodeDocKey(c.nodes[i]), NodeDocKey(c.nodes[j])) {
      assert NodeDocKey(c.nodes[i]) == NodeDocKey(g.nodes[i]) && NodeDocKey(c.nodes[j]) == NodeDocKey(g.nodes[j]);
    }
    forall k | 0 <= k < |c.nodes| ensures PinsShaped(c.nodes[k]) {
      assert PinsShaped(g.nodes[k]);
      assert forall d :: DirPins(c.nodes[k], d) == DirPins(g.nodes[k], d);
    }
  }

  lemma CanonNodeIn(gs: seq<GraphDoc>, a: int, m: NodeDoc) returns (n: NodeDoc)
    requires 0 <= a < |gs| && m in CanonGraphs(gs)[a].nodes
    ensures n in gs[a].nodes && m == CanonNode(n)
  {
    var ns := CanonNodes(gs[a].nodes);
    var i :| 0 <= i < |ns| && ns[i] == m;
    n := gs[a].nodes[i];
  }

  lemma CanonNodesDetermined(gs: seq<GraphDoc>)
    requires NodesDetermined(gs)
    ensures NodesDetermined(CanonGraphs(gs))
  {
    var cs := CanonGraphs(gs);
    forall a, b, m, n | 0 <= a < |cs| && 0 <= b < |cs| && m in cs[a].nodes && n in cs[b].nodes && m.id == n.id
      ensures m == n
    {
      var m0 := CanonNodeIn(gs, a, m);
      var n0 := CanonNodeIn(gs, b, n);
      assert m0.id == n0.id;
    }
  }

  lemma CanonGraphsShaped(gs: seq<GraphDoc>)
    requires Sorting.SortedBy(gs, GraphDocKey) && Sorting.KeysDistinct(gs, GraphDocKey)
    requires forall i :: 0 <= i < |gs| ==> GraphShaped(gs[i])
    ensures Sorting.SortedBy(CanonGraphs(gs), GraphDocKey) && Sorting.KeysDistinct(CanonGraphs(gs), GraphDocKey)
    ensures forall i :: 0 <= i < |gs| ==> GraphShaped(CanonGraphs(gs)[i])
  {
    var cs := CanonGraphs(gs);
    forall i, j | 0 <= i < j < |cs| ensures Strings.Le(GraphDocKey(cs[i]), GraphDocKey(cs[j])) && GraphDocKey(cs[i]) != GraphDocKey(cs[j]) {
      assert GraphDocKey(cs[i]) == GraphDocKey(gs[i]) && GraphDocKey(cs[j]) == GraphDocKey(gs[j]);
    }
    forall i | 0 <= i < |cs| ensures GraphShaped(cs[i]) {
      CanonGraphShaped(gs[i]);
    }
  }

  /** Putting node data in canonical order keeps a document in export shape. */
  lemma CanonDocShaped(d: ExportDoc)
    requires DocShaped(d)
    ensures DocShaped(CanonDoc(d))
  {
    CanonGraphsShaped(d.graphs);
    CanonNodesDetermined(d.graphs);
    AllPinsCanon(d.graphs);
  }

  // ---- Node data settles after one import ----

  /** Key sets of an object are the keys it has. */
  lemma KeySetHas(fs: seq<Field>, k: string)
    ensures k in KeySet(fs) <==> HasKey(fs, k)
  {
    if HasKey(fs, k) {
      var i :| 0 <= i < |fs| && fs[i].key == k;
    }
  }

  /**
   * Data that has a `type` and unique keys, once canonicalised and given the import's
   * `type` default, prints as before: the default loses to the data's own `type`.
   */
  lemma DataSettles(t: NodeType, data: seq<Field>)
    requires HasKey(data, "type") && WellFormed(JObj(data))
    ensures Canon(JObj(Spread([Field("type", JStr(NodeTypeName(t)))], CanonData(data)))) == Canon(JObj(data))
  {
    var base := [Field("type", JStr(NodeTypeName(t)))];
    var cd := CanonData(data);
    var sp := Spread(base, cd);
    CanonWellFormed(JObj(data));
    assert Canon(JObj(data)) == JObj(cd);
    CanonLookup(data, "type");
    SpreadUnique(base, cd);
    forall k ensures k in KeySet(sp) <==> k in KeySet(cd) {
      SpreadLookup(base, cd, k);
      KeySetHas(sp, k);
      KeySetHas(cd, k);
    }
    forall i | 0 <= i < |sp| ensures WellFormed(sp[i].value) && Lookup(cd, sp[i].key) == Some(sp[i].value) {
      LookupAt(sp, i);
      SpreadLookup(base, cd, sp[i].key);
    }
    forall i, j | 0 <= i < |sp| && 0 <= j < |cd| && sp[i].key == cd[j].key
      ensures SameUpToKeyOrder(sp[i].value, cd[j].value)
    {
      LookupAt(cd, j);
      SameUpToKeyOrderReflexive(cd[j].value);
    }
    assert SameUpToKeyOrder(JObj(sp), JObj(cd));
    CanonOrderIndependent(JObj(sp), JObj(cd));
    CanonIdempotent(JObj(data));
  }

  // ---- Documents that print the same ----

  /** Two nodes equal but for data, whose data print the same. */
  ghost predicate NodeSamePrint(a: NodeDoc, b: NodeDoc)
  {
    a.(data := b.data) == b && Canon(JObj(a.data)) == Canon(JObj(b.data))
  }

  ghost predicate GraphSamePrint(a: GraphDoc, b: GraphDoc)
  {
    a.(nodes := b.nodes) == b && |a.nodes| == |b.nodes| &&
    forall k :: 0 <= k < |a.nodes| ==> NodeSamePrint(a.nodes[k], b.nodes[k])
  }

  ghost predicate DocSamePrint(a: ExportDoc, b: ExportDoc)
  {
    a.(graphs := b.graphs) == b && |a.graphs| == |b.graphs| &&
    forall i :: 0 <= i < |a.graphs| ==> GraphSamePrint(a.graphs[i], b.graphs[i])
  }

  lemma SamePrintNode(a: NodeDoc, b: NodeDoc)
    requires NodeSamePrint(a, b)
    ensures Canon(NodeJson(a)) == Canon(NodeJson(b))
  {
    var fa, fb := NodeJson(a).fields, NodeJson(b).fields;
    assert CanonFields(fa) == CanonFields(fb);
  }

  lemma SamePrintNodes(xs: seq<NodeDoc>, ys: seq<NodeDoc>)
    requires |xs| == |ys| && forall k :: 0 <= k < |xs| ==> NodeSamePrint(xs[k], ys[k])
    ensures Canon(NodesJson(xs)) == Canon(NodesJson(ys))
  {
    var a, b := Canon(NodesJson(xs)).items, Canon(NodesJson(ys)).items;
    forall k | 0 <= k < |xs| ensures a[k] == b[k] {
      CanonArray(NodesJson(xs).items, k);
      CanonArray(NodesJson(ys).items, k);
      SamePrintNode(xs[k], ys[k]);
    }
    assert a == b;
  }

  lemma SamePrintGraph(a: GraphDoc, b: GraphDoc)
    requires GraphSamePrint(a, b)
    ensures Canon(GraphJson(a)) == Canon(GraphJson(b))
  {
    SamePrintNodes(a.nodes, b.nodes);
    var fa, fb := GraphJson(a).fields, GraphJson(b).fields;
    assert CanonFields(fa) == CanonFields(fb);
  }

  lemma SamePrintGraphs(xs: seq<GraphDoc>, ys: seq<GraphDoc>)
    requires |xs| == |ys| && forall k :: 0 <= k < |xs| ==> GraphSamePrint(xs[k], ys[k])
    ensures Canon(GraphsJson(xs)) == Canon(GraphsJson(ys))
  {
    var a, b := Canon(GraphsJson(xs)).items, Canon(GraphsJson(ys)).items;
    forall k | 0 <= k < |xs| ensures a[k] == b[k] {
      CanonArray(GraphsJson(xs).items, k);
      CanonArray(GraphsJson(ys).items, k);
      SamePrintGraph(xs[k], ys[k]);
    }
    assert a == b;
  }

  /** Documents equal but for node data that prints the same have the same canonical form. */
  lemma SamePrintDoc(a: ExportDoc, b: ExportDoc)
    requires DocSamePrint(a, b)
    ensures Canon(DocJson(a)) == Canon(DocJson(b))
  {
    SamePrintGraphs(a.graphs, b.graphs);
    var fa, fb := DocJson(a).fields, DocJson(b).fields;
    assert CanonFields(fa) == CanonFields(fb);
  }

  /** Every node's data has a `type` and unique keys at every depth. */
  ghost predicate DocDataTyped(d: ExportDoc)
  {
    forall a, k :: 0 <= a < |d.graphs| && 0 <= k < |d.graphs[a].nodes| ==>
      HasKey(d.graphs[a].nodes[k].data, "type") && WellFormed(JObj(d.graphs[a].nodes[k].data))
  }

  lemma GraphSettles(g: GraphDoc)
    requires forall k :: 0 <= k < |g.nodes| ==> HasKey(g.nodes[k].data, "type") && WellFormed(JObj(g.nodes[k].data))
    ensures GraphSamePrint(g, RetypedGraph(CanonGraph(g)))
  {
    var r := RetypedGraph(CanonGraph(g));
    forall k | 0 <= k < |g.nodes| ensures NodeSamePrint(g.nodes[k], r.nodes[k]) {
      var n := g.nodes[k];
      assert r.nodes[k] == RetypedNode(CanonNode(n));
      DataSettles(n.kind, n.data);
    }
  }

  /** Importing a document with typed data and exporting again prints every node's data as before. */
  lemma DocSettles(d: ExportDoc)
    requires DocDataTyped(d)
    ensures DocSamePrint(d, RetypedDoc(CanonDoc(d)))
  {
    var r := RetypedDoc(CanonDoc(d));
    forall i | 0 <= i < |d.graphs| ensures GraphSamePrint(d.graphs[i], r.graphs[i]) {
      assert r.graphs[i] == RetypedGraph(CanonGraph(d.graphs[i]));
      GraphSettles(d.graphs[i]);
    }
  }

  // ---- The stores' round trip ----

  /** The names the export schema requires to be non-empty are so in the stores, and the version is current. */
  predicate StoreNamed(s: GraphOps.GraphState, p: Project)
  {
    p.name != "" && p.schemaVersion == Migrations.CurrentVersion &&
    (forall k :: k in p.characters ==> p.characters[k].name != "") &&
    (forall k :: k in s.graphs ==> s.graphs[k].name != "") &&
    (forall i :: 0 <= i < |p.hierarchyRoot| ==> TreeNamed(p.hierarchyRoot[i]))
  }

  /**
   * What the round trip needs of the stores besides names: every record sits under
   * its own id, and every node's data has a `type` (as created nodes' data does)
   * and unique keys (as a JavaScript object's has).
   */
  ghost predicate StoreReady(s: GraphOps.GraphState, p: Project)
  {
    GraphOps.KeysAreIds(s) && (forall k :: k in p.characters ==> p.characters[k].id == k) &&
    forall k :: k in s.nodes ==> HasKey(s.nodes[k].data, "type") && WellFormed(JObj(s.nodes[k].data))
  }

  lemma ExportCharactersNamed(p: Project, co: seq<string>)
    requires forall k :: k in p.characters ==> p.characters[k].name != ""
    requires Enumerates(co, p.characters.Keys)
    ensures forall i :: 0 <= i < |ExportCharacters(p, co)| ==> ExportCharacters(p, co)[i].name != ""
  {
    var cs := ExportCharacters(p, co);
    var vs := ValuesIn(p.characters, co);
    forall i | 0 <= i < |cs| ensures cs[i].name != "" {
      assert cs[i] in multiset(Sorting.SortBy(vs, CharacterKey));
      assert cs[i] in vs;
      ValuesElements(p.characters, co, cs[i]);
    }
  }

  lemma ExportGraphsNamed(s: GraphOps.GraphState, go: seq<string>, po: seq<string>)
    requires forall k :: k in s.graphs ==> s.graphs[k].name != ""
    requires Enumerates(go, s.graphs.Keys) && Enumerates(po, s.pins.Keys)
    ensures forall i :: 0 <= i < |ExportGraphs(s, go, po)| ==> ExportGraphs(s, go, po)[i].name != ""
  {
    var gs := ExportGraphs(s, go, po);
    var graphs := Sorting.SortBy(ValuesIn(s.graphs, go), GraphKey);
    forall i | 0 <= i < |gs| ensures gs[i].name != "" {
      var g := graphs[i];
      assert gs[i] == ExportGraph(s, po, g);
      assert g in multiset(graphs);
      assert g in ValuesIn(s.graphs, go);
      ValuesElements(s.graphs, go, g);
    }
  }

  lemma ExportNamed(s: GraphOps.GraphState, p: Project, go: seq<string>, po: seq<string>, co: seq<string>)
    requires StoreNamed(s, p)
    requires Enumerates(go, s.graphs.Keys) && Enumerates(po, s.pins.Keys) && Enumerates(co, p.characters.Keys)
    ensures DocNamed(ExportDocument(s, p, go, po, co))
  {
    ExportCharactersNamed(p, co);
    ExportGraphsNamed(s, go, po);
  }

  lemma ExportDataTyped(s: GraphOps.GraphState, p: Project, go: seq<string>, po: seq<string>, co: seq<string>)
    requires StoreReady(s, p)
    requires Enumerates(go, s.graphs.Keys) && Enumerates(po, s.pins.Keys) && Enumerates(co, p.characters.Keys)
    ensures DocDataTyped(ExportDocument(s, p, go, po, co))
  {
    var gs := ExportGraphs(s, go, po);
    forall a, k | 0 <= a < |gs| && 0 <= k < |gs[a].nodes|
      ensures HasKey(gs[a].nodes[k].data, "type") && WellFormed(JObj(gs[a].nodes[k].data))
    {
      var m := gs[a].nodes[k];
      ExportedNodeAt(s, go, po, a, m);
    }
  }

  /**
   * Import of an export: the canonical form of the stores' export passes migration
   * and the export schema, and comes back as the exported document itself.
   */
  lemma ExportImports(s: GraphOps.GraphState, p: Project, go: seq<string>, po: seq<string>, co: seq<string>)
    requires StoreNamed(s, p)
    requires Enumerates(go, s.graphs.Keys) && Enumerates(po, s.pins.Keys) && Enumerates(co, p.characters.Keys)
    ensures var d := ExportDocument(s, p, go, po, co);
      Importer.Validated(Canon(DocJson(d))) == Ok(CanonDoc(d)) &&
      Importer.Import(Canon(DocJson(d))) ==
        Ok(Importer.Imported(Importer.FirstGraphId(CanonDoc(d).graphs), Importer.Flatten(CanonDoc(d).graphs), Importer.ProjectOf(CanonDoc(d))))
  {
    ExportNamed(s, p, go, po, co);
    ExportDocDecodes(ExportDocument(s, p, go, po, co));
  }

  /**
   * Export, import, export: loading the stores' export into fresh stores and
   * exporting those prints exactly the text the first export printed.
   */
  lemma ExportImportExport(s: GraphOps.GraphState, p: Project, go: seq<string>, po: seq<string>, co: seq<string>,
                           r: Importer.Imported, go2: seq<string>, po2: seq<string>, co2: seq<string>)
    requires StoreNamed(s, p) && StoreReady(s, p)
    requires Enumerates(go, s.graphs.Keys) && Enumerates(po, s.pins.Keys) && Enumerates(co, p.characters.Keys)
    requires Importer.Import(Canon(DocJson(ExportDocument(s, p, go, po, co)))) == Ok(r)
    requires Enumerates(go2, r.state.graphs.Keys) && Enumerates(po2, r.state.pins.Keys) && Enumerates(co2, r.project.characters.Keys)
    ensures ExportProject(r.state, r.project, go2, po2, co2) == ExportProject(s, p, go, po, co)
  {
    var d := ExportDocument(s, p, go, po, co);
    var cd := CanonDoc(d);
    ExportImports(s, p, go, po, co);
    assert r.state == Importer.Flatten(cd.graphs) && r.project == Importer.ProjectOf(cd);
    ExportShaped(s, p, go, po, co);
    CanonDocShaped(d);
    ReexportDoc(cd, go2, po2, co2);
    ExportDataTyped(s, p, go, po, co);
    DocSettles(d);
    SamePrintDoc(d, RetypedDoc(cd));
  }

  /**
   * After the project is renamed to the empty string, its export no longer imports:
   * the export schema wants a non-empty name, and a version other than the current
   * one stops earlier, in migration.
   */
  lemma EmptyNameNotImported(s: GraphOps.GraphState, p: Project, go: seq<string>, po: seq<string>, co: seq<string>)
    requires p.name == ""
    requires Enumerates(go, s.graphs.Keys) && Enumerates(po, s.pins.Keys) && Enumerates(co, p.characters.Keys)
    ensures Importer.Import(Canon(DocJson(ExportDocument(s, p, go, po, co)))).Err?
    ensures p.schemaVersion == Migrations.CurrentVersion ==>
      Importer.Import(Canon(DocJson(ExportDocument(s, p, go, po, co)))) == Err(Importer.Invalid)
  {
    var d := ExportDocument(s, p, go, po, co);
    var fs := DocJson(d).fields;
    var cf := Canon(JObj(fs)).fields;
    CanonDocFields(d, fs, cf);
    EmptyNameRejected(cf, p.schemaVersion);
  }

  /** A document whose `name` is the empty string does not import, whatever its version. */
  lemma EmptyNameRejected(cf: seq<Field>, v: int)
    requires Lookup(cf, "schemaVersion") == Some(JNum(v)) && Lookup(cf, "name") == Some(JStr(""))
    ensures Importer.Import(JObj(cf)).Err?
    ensures v == Migrations.CurrentVersion ==> Importer.Import(JObj(cf)) == Err(Importer.Invalid)
  {
    assert Migrations.VersionOf(cf) == Migrations.Num(v);
    if v == Migrations.CurrentVersion {
      assert Migrations.Migrate(JObj(cf)) == Ok(cf);
      assert DecodeDoc(JObj(cf)).None?;
    }
  }
}
