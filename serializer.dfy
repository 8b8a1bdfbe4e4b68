/**
 * `exportProject`: the graph store and the project store written out as one export
 * document, with graphs, nodes, edges, pins and characters sorted by id, each node's
 * pins gathered from the pin map, and undefined optional fields left out. The text is
 * `stableStringify` of that document.
 *
 * `Object.values` walks a map in an order the code does not control; here that order
 * is a parameter (an enumeration of the map's keys), and `ExportDeterministic` shows
 * the output does not depend on it.
 */
module Serializer {
  import opened Wrappers
  import opened Json
  import opened Types
  import opened Lists
  import opened Sorting
  import opened Schemas
  import opened GraphOps
  import StableStringify

  function GraphKey(g: Graph): string { g.id }
  function NodeKey(n: Node): string { n.id }
  function EdgeKey(e: Edge): string { e.id }
  function PinKey(p: Pin): string { p.id }
  function CharacterKey(c: Character): string { c.id }

  /** `order` lists every key of the map exactly once. */
  predicate Enumerates(order: seq<string>, keys: set<string>)
  {
    Distinct(order) && Elems(order) == keys
  }

  /** `Object.values(m)`, walking the keys in `order`. */
  function ValuesIn<T>(m: map<string, T>, order: seq<string>): (r: seq<T>)
    requires forall i :: 0 <= i < |order| ==> order[i] in m
    ensures |r| == |order|
    ensures forall i :: 0 <= i < |order| ==> r[i] == m[order[i]]
  {
    seq(|order|, i requires 0 <= i < |order| => m[order[i]])
  }

  /** `Array.prototype.filter`. */
  function Filter<T(!new)>(xs: seq<T>, keep: T -> bool): (r: seq<T>)
    ensures |r| <= |xs|
    ensures forall x :: x in r <==> x in xs && keep(x)
  {
    if xs == [] then []
    else if keep(xs[0]) then [xs[0]] + Filter(xs[1..], keep)
    else Filter(xs[1..], keep)
  }

  /** The ids of `ids` that have a record in the map, in list order, repeats kept. */
  function Present(ids: seq<string>, keys: set<string>): (r: seq<string>)
    ensures forall x :: x in r <==> x in ids && x in keys
  {
    Without(ids, Elems(ids) - keys)
  }

  /** `graph.nodeIds.map((id) => nodes[id]).filter(Boolean)`. */
  function ListedNodes(nodes: map<string, Node>, ids: seq<string>): (r: seq<Node>)
    ensures |r| == |Present(ids, nodes.Keys)|
    ensures forall i :: 0 <= i < |r| ==> r[i] == nodes[Present(ids, nodes.Keys)[i]]
  {
    var present := Present(ids, nodes.Keys);
    assert forall i :: 0 <= i < |present| ==> present[i] in present;
    ValuesIn(nodes, present)
  }

  /** `graph.edgeIds.map((id) => edges[id]).filter(Boolean)`. */
  function ListedEdges(edges: map<string, Edge>, ids: seq<string>): (r: seq<Edge>)
    ensures |r| == |Present(ids, edges.Keys)|
    ensures forall i :: 0 <= i < |r| ==> r[i] == edges[Present(ids, edges.Keys)[i]]
  {
    var present := Present(ids, edges.Keys);
    assert forall i :: 0 <= i < |present| ==> present[i] in present;
    ValuesIn(edges, present)
  }

  /** Pins owned by `nodeId` with direction `d`. */
  function OwnedBy(nodeId: string, d: PinDirection): Pin -> bool
  {
    (p: Pin) => p.nodeId == nodeId && p.direction == d
  }

  /** The pins of one direction for a node, taken from the whole pin map, sorted by id. */
  function NodePins(pins: map<string, Pin>, pinOrder: seq<string>, nodeId: string, d: PinDirection): seq<Pin>
    requires Enumerates(pinOrder, pins.Keys)
  {
    SortBy(Filter(ValuesIn(pins, pinOrder), OwnedBy(nodeId, d)), PinKey)
  }

  function ExportNode(pins: map<string, Pin>, pinOrder: seq<string>, n: Node): NodeDoc
    requires Enumerates(pinOrder, pins.Keys)
  {
    NodeDoc(n.id, n.kind, n.position, NodePins(pins, pinOrder, n.id, In), NodePins(pins, pinOrder, n.id, Out), n.data)
  }

  function ExportGraph(s: GraphState, pinOrder: seq<string>, g: Graph): (r: GraphDoc)
    requires Enumerates(pinOrder, s.pins.Keys)
    ensures r.id == g.id && r.name == g.name
  {
    var nodes := SortBy(ListedNodes(s.nodes, g.nodeIds), NodeKey);
    GraphDoc(
      g.id, g.name,
      seq(|nodes|, i requires 0 <= i < |nodes| => ExportNode(s.pins, pinOrder, nodes[i])),
      SortBy(ListedEdges(s.edges, g.edgeIds), EdgeKey))
  }

  /** The graphs of the export, sorted by id, each with its nodes, pins and edges. */
  function ExportGraphs(s: GraphState, graphOrder: seq<string>, pinOrder: seq<string>): seq<GraphDoc>
    requires Enumerates(graphOrder, s.graphs.Keys)
    requires Enumerates(pinOrder, s.pins.Keys)
  {
    var graphs := SortBy(ValuesIn(s.graphs, graphOrder), GraphKey);
    seq(|graphs|, i requires 0 <= i < |graphs| => ExportGraph(s, pinOrder, graphs[i]))
  }

  /** The characters of the export, sorted by id. */
  function ExportCharacters(p: Project, characterOrder: seq<string>): seq<Character>
    requires Enumerates(characterOrder, p.characters.Keys)
  {
    SortBy(ValuesIn(p.characters, characterOrder), CharacterKey)
  }

  /** The export document for the two stores' state. */
  function ExportDocument(s: GraphState, p: Project, graphOrder: seq<string>, pinOrder: seq<string>, characterOrder: seq<string>): (d: ExportDoc)
    requires Enumerates(graphOrder, s.graphs.Keys)
    requires Enumerates(pinOrder, s.pins.Keys)
    requires Enumerates(characterOrder, p.characters.Keys)
    ensures d.schemaVersion == p.schemaVersion && d.id == p.id && d.name == p.name
    ensures d.createdAt == p.createdAt && d.updatedAt == p.updatedAt
    ensures d.hierarchyRoot == p.hierarchyRoot
  {
    ExportDoc(
      p.schemaVersion, p.id, p.name, p.createdAt, p.updatedAt,
      ExportCharacters(p, characterOrder),
      p.hierarchyRoot,
      ExportGraphs(s, graphOrder, pinOrder))
  }

  /** `result[k] = v` when `v` is defined; nothing otherwise. */
  function PutDefined(fs: seq<Field>, k: string, v: Option<string>): seq<Field>
  {
    if v.Some? then Put(fs, k, JStr(v.value)) else fs
  }

  /** `serializePin`: the three required fields, then each optional one that is defined. */
  function PinJson(p: Pin): (j: Json)
    ensures j.JObj? && UniqueKeys(j.fields)
  {
    var base := [Field("id", JStr(p.id)), Field("nodeId", JStr(p.nodeId)), Field("direction", JStr(DirectionName(p.direction)))];
    var withName := PutDefined(base, "name", p.name);
    var withCondition := PutDefined(withName, "conditionExpr", p.conditionExpr);
    PutDefinedUnique(base, "name", p.name);
    PutDefinedUnique(withName, "conditionExpr", p.conditionExpr);
    PutDefinedUnique(withCondition, "instructionExpr", p.instructionExpr);
    JObj(PutDefined(withCondition, "instructionExpr", p.instructionExpr))
  }

  /** The edge record: the three required fields, then `label` and `color` when defined. */
  function EdgeJson(e: Edge): (j: Json)
    ensures j.JObj? && UniqueKeys(j.fields)
  {
    var base := [Field("id", JStr(e.id)), Field("fromPinId", JStr(e.fromPinId)), Field("toPinId", JStr(e.toPinId))];
    var withLabel := PutDefined(base, "label", e.labelText);
    PutDefinedUnique(base, "label", e.labelText);
    PutDefinedUnique(withLabel, "color", e.color);
    JObj(PutDefined(withLabel, "color", e.color))
  }

  lemma PutDefinedUnique(fs: seq<Field>, k: string, v: Option<string>)
    requires UniqueKeys(fs)
    ensures UniqueKeys(PutDefined(fs, k, v))
  {
    if v.Some? {
      PutUnique(fs, k, JStr(v.value));
    }
  }

  lemma PutDefinedLookup(fs: seq<Field>, k: string, v: Option<string>, q: string)
    ensures Lookup(PutDefined(fs, k, v), q) == if q == k && v.Some? then Some(JStr(v.value)) else Lookup(fs, q)
  {
    if v.Some? {
      PutLookup(fs, k, JStr(v.value), q);
    }
  }

  /** What an optional field's lookup finds: its string when defined, nothing otherwise. */
  function Written(v: Option<string>): Option<Json>
  {
    if v.Some? then Some(JStr(v.value)) else None
  }

  function PositionJson(p: Position): Json
  {
    JObj([Field("x", JNum(p.x)), Field("y", JNum(p.y))])
  }

  function PinsJson(ps: seq<Pin>): (j: Json)
    ensures j.JArr? && |j.items| == |ps|
  {
    JArr(seq(|ps|, i requires 0 <= i < |ps| => PinJson(ps[i])))
  }

  function NodeJson(n: NodeDoc): Json
  {
    JObj([
      Field("id", JStr(n.id)), Field("type", JStr(NodeTypeName(n.kind))),
      Field("position", PositionJson(n.position)),
      Field("inputPins", PinsJson(n.inputPins)), Field("outputPins", PinsJson(n.outputPins)),
      Field("data", JObj(n.data))])
  }

  function GraphJson(g: GraphDoc): Json
  {
    JObj([
      Field("id", JStr(g.id)), Field("name", JStr(g.name)),
      Field("nodes", NodesJson(g.nodes)), Field("edges", EdgesJson(g.edges))])
  }

  function NodesJson(ns: seq<NodeDoc>): (j: Json)
    ensures j.JArr? && |j.items| == |ns|
  {
    JArr(seq(|ns|, i requires 0 <= i < |ns| => NodeJson(ns[i])))
  }

  function EdgesJson(es: seq<Edge>): (j: Json)
    ensures j.JArr? && |j.items| == |es|
  {
    JArr(seq(|es|, i requires 0 <= i < |es| => EdgeJson(es[i])))
  }

  function CharacterJson(c: Character): Json
  {
    JObj([Field("id", JStr(c.id)), Field("name", JStr(c.name))])
  }

  /** A stored tree node as `JSON.stringify` sees it: an undefined `graphId` is dropped. */
  function TreeNodeJson(t: TreeNode): Json
  {
    JObj([
      Field("id", JStr(t.id)), Field("type", JStr(TreeNodeTypeName(t.kind))), Field("name", JStr(t.name)),
      Field("children", TreeNodesJson(t.children))] + OptStr("graphId", t.graphId))
  }

  function TreeNodesJson(ts: seq<TreeNode>): (j: Json)
    ensures j.JArr? && |j.items| == |ts|
  {
    JArr(seq(|ts|, i requires 0 <= i < |ts| => TreeNodeJson(ts[i])))
  }

  /** The top-level record, with exactly its eight keys. */
  function DocJson(d: ExportDoc): (j: Json)
    ensures j.JObj? && Keys(j.fields) == ["schemaVersion", "id", "name", "createdAt", "updatedAt", "characters", "hierarchyRoot", "graphs"]
  {
    JObj([
      Field("schemaVersion", JNum(d.schemaVersion)),
      Field("id", JStr(d.id)), Field("name", JStr(d.name)),
      Field("createdAt", JStr(d.createdAt)), Field("updatedAt", JStr(d.updatedAt)),
      Field("characters", CharactersJson(d.characters)),
      Field("hierarchyRoot", TreeNodesJson(d.hierarchyRoot)),
      Field("graphs", GraphsJson(d.graphs))])
  }

  function CharactersJson(cs: seq<Character>): (j: Json)
    ensures j.JArr? && |j.items| == |cs|
  {
    JArr(seq(|cs|, i requires 0 <= i < |cs| => CharacterJson(cs[i])))
  }

  function GraphsJson(gs: seq<GraphDoc>): (j: Json)
    ensures j.JArr? && |j.items| == |gs|
  {
    JArr(seq(|gs|, i requires 0 <= i < |gs| => GraphJson(gs[i])))
  }

  /** `exportProject`: the text written out. */
  function ExportProject(s: GraphState, p: Project, graphOrder: seq<string>, pinOrder: seq<string>, characterOrder: seq<string>): string
    requires Enumerates(graphOrder, s.graphs.Keys)
    requires Enumerates(pinOrder, s.pins.Keys)
    requires Enumerates(characterOrder, p.characters.Keys)
  {
    StableStringify.Stringify(DocJson(ExportDocument(s, p, graphOrder, pinOrder, characterOrder)))
  }

  // ---- What the document holds ----

  /** A graph's nodes and edges, and each node's pins, are sorted by id. */
  lemma ExportGraphSorted(s: GraphState, pinOrder: seq<string>, g: Graph)
    requires Enumerates(pinOrder, s.pins.Keys)
    ensures var gd := ExportGraph(s, pinOrder, g);
      SortedBy(gd.nodes, (n: NodeDoc) => n.id) && SortedBy(gd.edges, EdgeKey) &&
      forall k :: 0 <= k < |gd.nodes| ==>
        SortedBy(gd.nodes[k].inputPins, PinKey) && SortedBy(gd.nodes[k].outputPins, PinKey)
  {
    var nodes := SortBy(ListedNodes(s.nodes, g.nodeIds), NodeKey);
    SortBySorted(ListedNodes(s.nodes, g.nodeIds), NodeKey);
    SortBySorted(ListedEdges(s.edges, g.edgeIds), EdgeKey);
    var gd := ExportGraph(s, pinOrder, g);
    forall a, b | 0 <= a < b < |gd.nodes| ensures Strings.Le(gd.nodes[a].id, gd.nodes[b].id) {
      assert gd.nodes[a].id == nodes[a].id && gd.nodes[b].id == nodes[b].id;
    }
    forall k | 0 <= k < |gd.nodes|
      ensures SortedBy(gd.nodes[k].inputPins, PinKey) && SortedBy(gd.nodes[k].outputPins, PinKey)
    {
      SortBySorted(Filter(ValuesIn(s.pins, pinOrder), OwnedBy(nodes[k].id, In)), PinKey);
      SortBySorted(Filter(ValuesIn(s.pins, pinOrder), OwnedBy(nodes[k].id, Out)), PinKey);
    }
  }

  /** The exported graphs are sorted by id, and each is the export of a stored graph. */
  lemma ExportGraphsSorted(s: GraphState, graphOrder: seq<string>, pinOrder: seq<string>)
    requires Enumerates(graphOrder, s.graphs.Keys)
    requires Enumerates(pinOrder, s.pins.Keys)
    ensures var gs := ExportGraphs(s, graphOrder, pinOrder);
      SortedBy(gs, (g: GraphDoc) => g.id) &&
      forall i :: 0 <= i < |gs| ==> exists g :: g in s.graphs.Values && gs[i] == ExportGraph(s, pinOrder, g)
  {
    var gs := ExportGraphs(s, graphOrder, pinOrder);
    var graphs := SortBy(ValuesIn(s.graphs, graphOrder), GraphKey);
    SortBySorted(ValuesIn(s.graphs, graphOrder), GraphKey);
    forall a, b | 0 <= a < b < |gs| ensures Strings.Le(gs[a].id, gs[b].id) {
      assert gs[a].id == graphs[a].id && gs[b].id == graphs[b].id;
    }
    forall i | 0 <= i < |gs| ensures exists g :: g in s.graphs.Values && gs[i] == ExportGraph(s, pinOrder, g) {
      assert graphs[i] in multiset(ValuesIn(s.graphs, graphOrder));
      ValuesElements(s.graphs, graphOrder, graphs[i]);
      var k :| k in s.graphs && s.graphs[k] == graphs[i];
      assert graphs[i] in s.graphs.Values;
    }
  }

  /**
   * Graphs and characters are sorted by id, each exported graph is a stored graph's
   * export, and (`ExportGraphSorted`) everything inside each graph is sorted too.
   */
  lemma ExportSorted(s: GraphState, p: Project, graphOrder: seq<string>, pinOrder: seq<string>, characterOrder: seq<string>)
    requires Enumerates(graphOrder, s.graphs.Keys)
    requires Enumerates(pinOrder, s.pins.Keys)
    requires Enumerates(characterOrder, p.characters.Keys)
    ensures var d := ExportDocument(s, p, graphOrder, pinOrder, characterOrder);
      SortedBy(d.characters, CharacterKey) && SortedBy(d.graphs, (g: GraphDoc) => g.id) &&
      forall i :: 0 <= i < |d.graphs| ==> exists g :: g in s.graphs.Values && d.graphs[i] == ExportGraph(s, pinOrder, g)
  {
    SortBySorted(ValuesIn(p.characters, characterOrder), CharacterKey);
    ExportGraphsSorted(s, graphOrder, pinOrder);
  }

  /**
   * A node's exported pins of one direction are exactly the pins of the whole map that
   * it owns with that direction.
   */
  lemma NodePinsExact(pins: map<string, Pin>, pinOrder: seq<string>, nodeId: string, d: PinDirection, x: Pin)
    requires Enumerates(pinOrder, pins.Keys)
    ensures x in NodePins(pins, pinOrder, nodeId, d) <==> (exists k :: k in pins && pins[k] == x) && x.nodeId == nodeId && x.direction == d
  {
    var vs := ValuesIn(pins, pinOrder);
    var kept := Filter(vs, OwnedBy(nodeId, d));
    ValuesElements(pins, pinOrder, x);
    assert x in NodePins(pins, pinOrder, nodeId, d) <==> x in multiset(kept);
    assert x in kept <==> x in vs && OwnedBy(nodeId, d)(x);
  }

  /** A graph's exported nodes are exactly its listed node ids that exist, each as stored. */
  lemma GraphNodesExact(s: GraphState, pinOrder: seq<string>, g: Graph, n: Node)
    requires Enumerates(pinOrder, s.pins.Keys)
    ensures (exists k :: 0 <= k < |ExportGraph(s, pinOrder, g).nodes| && ExportGraph(s, pinOrder, g).nodes[k] == ExportNode(s.pins, pinOrder, n))
      <== (exists id :: id in g.nodeIds && id in s.nodes && s.nodes[id] == n)
    ensures (exists k :: 0 <= k < |ExportGraph(s, pinOrder, g).nodes| && ExportGraph(s, pinOrder, g).nodes[k].id == n.id)
      ==> (exists id :: id in g.nodeIds && id in s.nodes && s.nodes[id].id == n.id)
  {
    var listed := ListedNodes(s.nodes, g.nodeIds);
    var present := Present(g.nodeIds, s.nodes.Keys);
    var nodes := SortBy(listed, NodeKey);
    var gd := ExportGraph(s, pinOrder, g);
    if id :| id in g.nodeIds && id in s.nodes && s.nodes[id] == n {
      assert id in present;
      var i :| 0 <= i < |present| && present[i] == id;
      assert listed[i] == n;
      assert n in multiset(nodes);
      var k :| 0 <= k < |nodes| && nodes[k] == n;
      assert gd.nodes[k] == ExportNode(s.pins, pinOrder, n);
    }
    if k :| 0 <= k < |gd.nodes| && gd.nodes[k].id == n.id {
      assert nodes[k] in multiset(listed);
      var i :| 0 <= i < |listed| && listed[i] == nodes[k];
      assert present[i] in present;
    }
  }

  /** A graph's exported edges are exactly its listed edge ids that exist, each as stored. */
  lemma GraphEdgesExact(s: GraphState, pinOrder: seq<string>, g: Graph, e: Edge)
    requires Enumerates(pinOrder, s.pins.Keys)
    ensures e in ExportGraph(s, pinOrder, g).edges <==> exists id :: id in g.edgeIds && id in s.edges && s.edges[id] == e
  {
    var listed := ListedEdges(s.edges, g.edgeIds);
    var present := Present(g.edgeIds, s.edges.Keys);
    assert e in ExportGraph(s, pinOrder, g).edges <==> e in multiset(listed);
    if id :| id in g.edgeIds && id in s.edges && s.edges[id] == e {
      assert id in present;
      var i :| 0 <= i < |present| && present[i] == id;
      assert listed[i] == e;
    }
    if e in listed {
      var i :| 0 <= i < |listed| && listed[i] == e;
      assert present[i] in present;
    }
  }

  // ---- Independence from the enumeration order ----

  /** Each record is stored under its own id. */
  ghost predicate StoredUnderIds(s: GraphState, p: Project)
  {
    (forall k :: k in s.graphs ==> s.graphs[k].id == k) &&
    (forall k :: k in s.pins ==> s.pins[k].id == k) &&
    (forall k :: k in p.characters ==> p.characters[k].id == k)
  }

  lemma FilterKeysDistinct<T(!new)>(xs: seq<T>, keep: T -> bool, key: T -> string)
    requires KeysDistinct(xs, key)
    ensures KeysDistinct(Filter(xs, keep), key)
  {
    if xs != [] {
      FilterKeysDistinct(xs[1..], keep, key);
      var rest := Filter(xs[1..], keep);
      forall j | 0 <= j < |rest| ensures key(rest[j]) != key(xs[0]) {
        assert rest[j] in xs[1..];
        var q :| 0 <= q < |xs[1..]| && xs[1..][q] == rest[j];
        assert xs[q + 1] == rest[j];
      }
    }
  }

  /** Values walked in an enumeration of keys that are their ids have distinct ids. */
  lemma ValuesKeysDistinct<T>(m: map<string, T>, order: seq<string>, key: T -> string)
    requires Enumerates(order, m.Keys)
    requires forall k :: k in m ==> key(m[k]) == k
    ensures KeysDistinct(ValuesIn(m, order), key)
  {
  }

  lemma ValuesElements<T>(m: map<string, T>, order: seq<string>, x: T)
    requires Enumerates(order, m.Keys)
    ensures x in ValuesIn(m, order) <==> exists k :: k in m && m[k] == x
  {
    var vs := ValuesIn(m, order);
    if k :| k in m && m[k] == x {
      assert k in Elems(order);
      var i :| 0 <= i < |order| && order[i] == k;
      assert vs[i] == x;
    }
  }

  /**
   * Sorting the values of a map, filtered by `keep`, gives the same sequence whichever
   * enumeration of the keys was walked, when each value's key is its map key.
   */
  lemma SortedValuesIndependent<T(!new)>(m: map<string, T>, a: seq<string>, b: seq<string>, keep: T -> bool, key: T -> string)
    requires Enumerates(a, m.Keys) && Enumerates(b, m.Keys)
    requires forall k :: k in m ==> key(m[k]) == k
    ensures SortBy(Filter(ValuesIn(m, a), keep), key) == SortBy(Filter(ValuesIn(m, b), keep), key)
  {
    var xa, xb := Filter(ValuesIn(m, a), keep), Filter(ValuesIn(m, b), keep);
    ValuesKeysDistinct(m, a, key);
    ValuesKeysDistinct(m, b, key);
    FilterKeysDistinct(ValuesIn(m, a), keep, key);
    FilterKeysDistinct(ValuesIn(m, b), keep, key);
    SortByKeysDistinct(xa, key);
    SortByKeysDistinct(xb, key);
    SortBySorted(xa, key);
    SortBySorted(xb, key);
    var sa, sb := SortBy(xa, key), SortBy(xb, key);
    forall x ensures x in sa <==> x in sb {
      ValuesElements(m, a, x);
      ValuesElements(m, b, x);
      assert x in sa <==> x in multiset(xa);
      assert x in sb <==> x in multiset(xb);
    }
    SortedSameElements(sa, sb, key);
  }

  /** `SortedValuesIndependent` without a filter. */
  lemma SortedAllValuesIndependent<T>(m: map<string, T>, a: seq<string>, b: seq<string>, key: T -> string)
    requires Enumerates(a, m.Keys) && Enumerates(b, m.Keys)
    requires forall k :: k in m ==> key(m[k]) == k
    ensures SortBy(ValuesIn(m, a), key) == SortBy(ValuesIn(m, b), key)
  {
    var xa, xb := ValuesIn(m, a), ValuesIn(m, b);
    ValuesKeysDistinct(m, a, key);
    ValuesKeysDistinct(m, b, key);
    SortByKeysDistinct(xa, key);
    SortByKeysDistinct(xb, key);
    SortBySorted(xa, key);
    SortBySorted(xb, key);
    var sa, sb := SortBy(xa, key), SortBy(xb, key);
    forall x ensures x in sa <==> x in sb {
      ValuesElements(m, a, x);
      ValuesElements(m, b, x);
      assert x in sa <==> x in multiset(xa);
      assert x in sb <==> x in multiset(xb);
    }
    SortedSameElements(sa, sb, key);
  }

  lemma ExportNodeIndependent(pins: map<string, Pin>, a: seq<string>, b: seq<string>, n: Node)
    requires Enumerates(a, pins.Keys) && Enumerates(b, pins.Keys)
    requires forall k :: k in pins ==> pins[k].id == k
    ensures ExportNode(pins, a, n) == ExportNode(pins, b, n)
  {
    SortedValuesIndependent(pins, a, b, OwnedBy(n.id, In), PinKey);
    SortedValuesIndependent(pins, a, b, OwnedBy(n.id, Out), PinKey);
  }

  lemma ExportGraphIndependent(s: GraphState, a: seq<string>, b: seq<string>, g: Graph)
    requires Enumerates(a, s.pins.Keys) && Enumerates(b, s.pins.Keys)
    requires forall k :: k in s.pins ==> s.pins[k].id == k
    ensures ExportGraph(s, a, g) == ExportGraph(s, b, g)
  {
    var nodes := SortBy(ListedNodes(s.nodes, g.nodeIds), NodeKey);
    var da, db := ExportGraph(s, a, g).nodes, ExportGraph(s, b, g).nodes;
    forall i | 0 <= i < |nodes| ensures da[i] == db[i] {
      ExportNodeIndependent(s.pins, a, b, nodes[i]);
    }
    assert da == db;
  }

  lemma ExportGraphsIndependent(s: GraphState, ga: seq<string>, pa: seq<string>, gb: seq<string>, pb: seq<string>)
    requires forall k :: k in s.graphs ==> s.graphs[k].id == k
    requires forall k :: k in s.pins ==> s.pins[k].id == k
    requires Enumerates(ga, s.graphs.Keys) && Enumerates(pa, s.pins.Keys)
    requires Enumerates(gb, s.graphs.Keys) && Enumerates(pb, s.pins.Keys)
    ensures ExportGraphs(s, ga, pa) == ExportGraphs(s, gb, pb)
  {
    SortedAllValuesIndependent(s.graphs, ga, gb, GraphKey);
    var graphs := SortBy(ValuesIn(s.graphs, ga), GraphKey);
    var d1, d2 := ExportGraphs(s, ga, pa), ExportGraphs(s, gb, pb);
    forall i | 0 <= i < |graphs| ensures d1[i] == d2[i] {
      ExportGraphIndependent(s, pa, pb, graphs[i]);
    }
    assert d1 == d2;
  }

  /**
   * The export depends only on the stores' state, not on the order in which the maps
   * of graphs, pins and characters are walked.
   */
  lemma ExportDeterministic(s: GraphState, p: Project,
                            ga: seq<string>, pa: seq<string>, ca: seq<string>,
                            gb: seq<string>, pb: seq<string>, cb: seq<string>)
    requires StoredUnderIds(s, p)
    requires Enumerates(ga, s.graphs.Keys) && Enumerates(pa, s.pins.Keys) && Enumerates(ca, p.characters.Keys)
    requires Enumerates(gb, s.graphs.Keys) && Enumerates(pb, s.pins.Keys) && Enumerates(cb, p.characters.Keys)
    ensures ExportDocument(s, p, ga, pa, ca) == ExportDocument(s, p, gb, pb, cb)
  {
    SortedAllValuesIndependent(p.characters, ca, cb, CharacterKey);
    ExportGraphsIndependent(s, ga, pa, gb, pb);
  }

  /** The exported text, too, is independent of the enumeration order. */
  lemma ExportTextDeterministic(s: GraphState, p: Project,
                                ga: seq<string>, pa: seq<string>, ca: seq<string>,
                                gb: seq<string>, pb: seq<string>, cb: seq<string>)
    requires StoredUnderIds(s, p)
    requires Enumerates(ga, s.graphs.Keys) && Enumerates(pa, s.pins.Keys) && Enumerates(ca, p.characters.Keys)
    requires Enumerates(gb, s.graphs.Keys) && Enumerates(pb, s.pins.Keys) && Enumerates(cb, p.characters.Keys)
    ensures ExportProject(s, p, ga, pa, ca) == ExportProject(s, p, gb, pb, cb)
  {
    ExportDeterministic(s, p, ga, pa, ca, gb, pb, cb);
  }

  /** A pin's record holds its fields, an optional one exactly when it is defined. */
  lemma PinJsonFields(p: Pin)
    ensures Lookup(PinJson(p).fields, "id") == Some(JStr(p.id))
    ensures Lookup(PinJson(p).fields, "nodeId") == Some(JStr(p.nodeId))
    ensures Lookup(PinJson(p).fields, "direction") == Some(JStr(DirectionName(p.direction)))
    ensures Lookup(PinJson(p).fields, "name") == Written(p.name)
    ensures Lookup(PinJson(p).fields, "conditionExpr") == Written(p.conditionExpr)
    ensures Lookup(PinJson(p).fields, "instructionExpr") == Written(p.instructionExpr)
  {
    var base := [Field("id", JStr(p.id)), Field("nodeId", JStr(p.nodeId)), Field("direction", JStr(DirectionName(p.direction)))];
    var withName := PutDefined(base, "name", p.name);
    var withCondition := PutDefined(withName, "conditionExpr", p.conditionExpr);
    LookupAt(base, 0);
    LookupAt(base, 1);
    LookupAt(base, 2);
    assert !HasKey(base, "name") && !HasKey(base, "conditionExpr") && !HasKey(base, "instructionExpr");
    PutDefinedLookup(base, "name", p.name, "id");
    PutDefinedLookup(base, "name", p.name, "nodeId");
    PutDefinedLookup(base, "name", p.name, "direction");
    PutDefinedLookup(base, "name", p.name, "name");
    PutDefinedLookup(base, "name", p.name, "conditionExpr");
    PutDefinedLookup(base, "name", p.name, "instructionExpr");
    PutDefinedLookup(withName, "conditionExpr", p.conditionExpr, "id");
    PutDefinedLookup(withName, "conditionExpr", p.conditionExpr, "nodeId");
    PutDefinedLookup(withName, "conditionExpr", p.conditionExpr, "direction");
    PutDefinedLookup(withName, "conditionExpr", p.conditionExpr, "name");
    PutDefinedLookup(withName, "conditionExpr", p.conditionExpr, "conditionExpr");
    PutDefinedLookup(withName, "conditionExpr", p.conditionExpr, "instructionExpr");
    PutDefinedLookup(withCondition, "instructionExpr", p.instructionExpr, "id");
    PutDefinedLookup(withCondition, "instructionExpr", p.instructionExpr, "nodeId");
    PutDefinedLookup(withCondition, "instructionExpr", p.instructionExpr, "direction");
    PutDefinedLookup(withCondition, "instructionExpr", p.instructionExpr, "name");
    PutDefinedLookup(withCondition, "instructionExpr", p.instructionExpr, "conditionExpr");
    PutDefinedLookup(withCondition, "instructionExpr", p.instructionExpr, "instructionExpr");
  }

  /** An edge's record holds its fields, `label` and `color` exactly when defined. */
  lemma EdgeJsonFields(e: Edge)
    ensures Lookup(EdgeJson(e).fields, "id") == Some(JStr(e.id))
    ensures Lookup(EdgeJson(e).fields, "fromPinId") == Some(JStr(e.fromPinId))
    ensures Lookup(EdgeJson(e).fields, "toPinId") == Some(JStr(e.toPinId))
    ensures Lookup(EdgeJson(e).fields, "label") == Written(e.labelText)
    ensures Lookup(EdgeJson(e).fields, "color") == Written(e.color)
  {
    var base := [Field("id", JStr(e.id)), Field("fromPinId", JStr(e.fromPinId)), Field("toPinId", JStr(e.toPinId))];
    var withLabel := PutDefined(base, "label", e.labelText);
    LookupAt(base, 0);
    LookupAt(base, 1);
    LookupAt(base, 2);
    assert !HasKey(base, "label") && !HasKey(base, "color");
    PutDefinedLookup(base, "label", e.labelText, "id");
    PutDefinedLookup(base, "label", e.labelText, "fromPinId");
    PutDefinedLookup(base, "label", e.labelText, "toPinId");
    PutDefinedLookup(base, "label", e.labelText, "label");
    PutDefinedLookup(base, "label", e.labelText, "color");
    PutDefinedLookup(withLabel, "color", e.color, "id");
    PutDefinedLookup(withLabel, "color", e.color, "fromPinId");
    PutDefinedLookup(withLabel, "color", e.color, "toPinId");
    PutDefinedLookup(withLabel, "color", e.color, "label");
    PutDefinedLookup(withLabel, "color", e.color, "color");
  }
}
