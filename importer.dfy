/**
 * `importProject`: an export document, already parsed, goes through the migration
 * gate and the schema, is flattened into the graph store's id-keyed maps and the
 * project record, and only then are the two stores hydrated. Any failure before
 * that point leaves both stores as they were.
 */
module Importer {
  import opened Wrappers
  import opened Json
  import opened Types
  import opened Schemas
  import opened GraphOps
  import opened Lists
  import Serializer
  import Sorting
  import Migrations
  import GraphStore
  import ProjectStore

  datatype ImportError =
    | MigrationFailed(cause: Migrations.MigrationError)
    /** The migrated document does not have the export schema's shape. */
    | Invalid

  // ---- Keyed maps built by assignment in list order ----

  /**
   * `for (const x of xs) m[key(x)] = x`: each element stored under its key, a later
   * element overwriting an earlier one with the same key.
   */
  function Index<T>(m: map<string, T>, xs: seq<T>, key: T -> string): map<string, T>
    decreases |xs|
  {
    if xs == [] then m else Index(m, xs[..|xs| - 1], key)[key(xs[|xs| - 1]) := xs[|xs| - 1]]
  }

  lemma IndexSnoc<T>(m: map<string, T>, xs: seq<T>, x: T, key: T -> string)
    ensures Index(m, xs + [x], key) == Index(m, xs, key)[key(x) := x]
  {
    assert (xs + [x])[..|xs|] == xs;
  }

  lemma {:induction false} IndexConcat<T>(m: map<string, T>, xs: seq<T>, ys: seq<T>, key: T -> string)
    ensures Index(m, xs + ys, key) == Index(Index(m, xs, key), ys, key)
    decreases |ys|
  {
    if ys == [] {
      assert xs + ys == xs;
    } else {
      var ys' := ys[..|ys| - 1];
      var y := ys[|ys| - 1];
      assert ys == ys' + [y];
      assert xs + ys == (xs + ys') + [y];
      IndexSnoc(m, xs + ys', y, key);
      IndexConcat(m, xs, ys', key);
      IndexSnoc(Index(m, xs, key), ys', y, key);
    }
  }

  /** The keys after the loop: the old ones and the key of every element. */
  lemma {:induction false} IndexKeys<T>(m: map<string, T>, xs: seq<T>, key: T -> string, k: string)
    ensures k in Index(m, xs, key) <==> k in m || exists i :: 0 <= i < |xs| && key(xs[i]) == k
    decreases |xs|
  {
    if xs != [] {
      var xs' := xs[..|xs| - 1];
      IndexKeys(m, xs', key, k);
      if exists i :: 0 <= i < |xs'| && key(xs'[i]) == k {
        var i :| 0 <= i < |xs'| && key(xs'[i]) == k;
        assert xs[i] == xs'[i];
      }
      if i :| 0 <= i < |xs| && key(xs[i]) == k {
        if i < |xs'| {
          assert xs'[i] == xs[i];
        }
      }
    }
  }

  /** The value under a key is the last element with that key. */
  lemma {:induction false} IndexLastWins<T>(m: map<string, T>, xs: seq<T>, key: T -> string, i: int)
    requires 0 <= i < |xs|
    requires forall j :: i < j < |xs| ==> key(xs[j]) != key(xs[i])
    ensures key(xs[i]) in Index(m, xs, key) && Index(m, xs, key)[key(xs[i])] == xs[i]
    decreases |xs|
  {
    if i < |xs| - 1 {
      var xs' := xs[..|xs| - 1];
      assert forall j :: i < j < |xs'| ==> xs'[j] == xs[j];
      IndexLastWins(m, xs', key, i);
    }
  }

  /** A key no element has keeps its old entry, or stays absent. */
  lemma {:induction false} IndexUntouched<T>(m: map<string, T>, xs: seq<T>, key: T -> string, k: string)
    requires forall i :: 0 <= i < |xs| ==> key(xs[i]) != k
    ensures k in Index(m, xs, key) <==> k in m
    ensures k in m ==> Index(m, xs, key)[k] == m[k]
    decreases |xs|
  {
    if xs != [] {
      var xs' := xs[..|xs| - 1];
      assert forall i :: 0 <= i < |xs'| ==> xs'[i] == xs[i];
      IndexUntouched(m, xs', key, k);
    }
  }

  /** `for (const x of xs) m[key(x)] = x`, as the loop runs it. */
  method IndexInto<T>(m: map<string, T>, xs: seq<T>, key: T -> string) returns (r: map<string, T>)
    ensures r == Index(m, xs, key)
  {
    r := m;
    var i := 0;
    while i < |xs|
      invariant 0 <= i <= |xs|
      invariant r == Index(m, xs[..i], key)
    {
      IndexSnoc(m, xs[..i], xs[i], key);
      TakeSnoc(xs, i);
      r := r[key(xs[i]) := xs[i]];
      i := i + 1;
    }
    assert xs[..|xs|] == xs;
  }

  // ---- What the flattening produces ----

  /** The stored node for a document node: `type` defaults to the node's type, and a `type` in the data wins. */
  function NodeRecord(n: NodeDoc, graphId: string): (r: Node)
    ensures r.id == n.id && r.kind == n.kind && r.position == n.position && r.graphId == graphId
  {
    Node(n.id, n.kind, n.position, Spread([Field("type", JStr(NodeTypeName(n.kind)))], n.data), graphId)
  }

  function NodeIds(ns: seq<NodeDoc>): (r: seq<string>)
    ensures |r| == |ns| && forall i :: 0 <= i < |ns| ==> r[i] == ns[i].id
  {
    seq(|ns|, i requires 0 <= i < |ns| => ns[i].id)
  }

  function EdgeIds(es: seq<Edge>): (r: seq<string>)
    ensures |r| == |es| && forall i :: 0 <= i < |es| ==> r[i] == es[i].id
  {
    seq(|es|, i requires 0 <= i < |es| => es[i].id)
  }

  /** The stored graph: its document node and edge ids, in document order. */
  function GraphRecord(g: GraphDoc): Graph
  {
    Graph(g.id, g.name, NodeIds(g.nodes), EdgeIds(g.edges))
  }

  function GraphRecords(gs: seq<GraphDoc>): (r: seq<Graph>)
    ensures |r| == |gs| && forall i :: 0 <= i < |gs| ==> r[i] == GraphRecord(gs[i])
  {
    seq(|gs|, i requires 0 <= i < |gs| => GraphRecord(gs[i]))
  }

  function GraphNodes(g: GraphDoc): (r: seq<Node>)
    ensures |r| == |g.nodes| && forall i :: 0 <= i < |r| ==> r[i] == NodeRecord(g.nodes[i], g.id)
  {
    seq(|g.nodes|, i requires 0 <= i < |g.nodes| => NodeRecord(g.nodes[i], g.id))
  }

  /** Every node record, graph by graph, in document order. */
  function AllNodes(gs: seq<GraphDoc>): seq<Node>
    decreases |gs|
  {
    if gs == [] then [] else AllNodes(gs[..|gs| - 1]) + GraphNodes(gs[|gs| - 1])
  }

  /** Every pin of the nodes, node by node, input pins before output pins. */
  function NodesPins(ns: seq<NodeDoc>): seq<Pin>
    decreases |ns|
  {
    if ns == [] then [] else NodesPins(ns[..|ns| - 1]) + ns[|ns| - 1].inputPins + ns[|ns| - 1].outputPins
  }

  function AllPins(gs: seq<GraphDoc>): seq<Pin>
    decreases |gs|
  {
    if gs == [] then [] else AllPins(gs[..|gs| - 1]) + NodesPins(gs[|gs| - 1].nodes)
  }

  function AllEdges(gs: seq<GraphDoc>): seq<Edge>
    decreases |gs|
  {
    if gs == [] then [] else AllEdges(gs[..|gs| - 1]) + gs[|gs| - 1].edges
  }

  /** `if (!firstGraphId) firstGraphId = g.id`, over the graphs in order. */
  function FirstGraphId(gs: seq<GraphDoc>): string
    decreases |gs|
  {
    if gs == [] then ""
    else
      var first := FirstGraphId(gs[..|gs| - 1]);
      if first == "" then gs[|gs| - 1].id else first
  }

  /** The four maps the graph store is hydrated with. */
  function Flatten(gs: seq<GraphDoc>): GraphState
  {
    GraphState(
      Index(map[], GraphRecords(gs), Serializer.GraphKey),
      Index(map[], AllNodes(gs), Serializer.NodeKey),
      Index(map[], AllEdges(gs), Serializer.EdgeKey),
      Index(map[], AllPins(gs), Serializer.PinKey))
  }

  /** The project record the project store is hydrated with. */
  function ProjectOf(d: ExportDoc): Project
  {
    Project(d.id, d.name, d.schemaVersion, d.createdAt, d.updatedAt,
            Index(map[], d.characters, Serializer.CharacterKey), d.hierarchyRoot)
  }

  datatype Imported = Imported(activeGraphId: string, state: GraphState, project: Project)

  /** `ProjectExportSchema.parse(migrateToLatest(raw))`: the validated document, or why it throws. */
  function Validated(raw: Json): Result<ExportDoc, ImportError>
  {
    match Migrations.Migrate(raw)
    case Err(e) => Err(MigrationFailed(e))
    case Ok(migrated) =>
      match DecodeDoc(JObj(migrated))
      case None => Err(Invalid)
      case Some(d) => Ok(d)
  }

  /** What `importProject` loads into the stores for a parsed file, or why it throws. */
  function Import(raw: Json): Result<Imported, ImportError>
  {
    match Validated(raw)
    case Err(e) => Err(e)
    case Ok(d) => Ok(Imported(FirstGraphId(d.graphs), Flatten(d.graphs), ProjectOf(d)))
  }

  // ---- The loops ----

  /** `for (const e of g.edges)`: records each edge and collects its id. */
  method StoreEdges(edges: map<string, Edge>, es: seq<Edge>) returns (r: map<string, Edge>, ids: seq<string>)
    ensures r == Index(edges, es, Serializer.EdgeKey) && ids == EdgeIds(es)
  {
    r, ids := edges, [];
    var i := 0;
    while i < |es|
      invariant 0 <= i <= |es|
      invariant r == Index(edges, es[..i], Serializer.EdgeKey)
      invariant ids == EdgeIds(es)[..i]
    {
      IndexSnoc(edges, es[..i], es[i], Serializer.EdgeKey);
      TakeSnoc(es, i);
      TakeSnoc(EdgeIds(es), i);
      ids := ids + [es[i].id];
      r := r[es[i].id := es[i]];
      i := i + 1;
    }
    assert es[..|es|] == es;
    assert EdgeIds(es)[..|es|] == EdgeIds(es);
  }

  /** The two pin loops of one node: its input pins, then its output pins. */
  method StoreNodePins(pins: map<string, Pin>, n: NodeDoc) returns (r: map<string, Pin>)
    ensures r == Index(pins, n.inputPins + n.outputPins, Serializer.PinKey)
  {
    r := IndexInto(pins, n.inputPins, Serializer.PinKey);
    r := IndexInto(r, n.outputPins, Serializer.PinKey);
    IndexConcat(pins, n.inputPins, n.outputPins, Serializer.PinKey);
  }

  lemma NodesPinsSnoc(ns: seq<NodeDoc>, n: NodeDoc)
    ensures NodesPins(ns + [n]) == NodesPins(ns) + (n.inputPins + n.outputPins)
  {
    assert (ns + [n])[..|ns|] == ns;
  }

  /** One turn of the node loop keeps the node and pin maps equal to the folds over the nodes so far. */
  lemma StoreNodesStep(nodes: map<string, Node>, pins: map<string, Pin>, g: GraphDoc, i: int)
    requires 0 <= i < |g.nodes|
    ensures Index(nodes, GraphNodes(g)[..i + 1], Serializer.NodeKey) ==
      Index(nodes, GraphNodes(g)[..i], Serializer.NodeKey)[g.nodes[i].id := NodeRecord(g.nodes[i], g.id)]
    ensures Index(pins, NodesPins(g.nodes[..i + 1]), Serializer.PinKey) ==
      Index(Index(pins, NodesPins(g.nodes[..i]), Serializer.PinKey), g.nodes[i].inputPins + g.nodes[i].outputPins, Serializer.PinKey)
  {
    var records := GraphNodes(g);
    TakeSnoc(records, i);
    TakeSnoc(g.nodes, i);
    IndexSnoc(nodes, records[..i], records[i], Serializer.NodeKey);
    NodesPinsSnoc(g.nodes[..i], g.nodes[i]);
    IndexConcat(pins, NodesPins(g.nodes[..i]), g.nodes[i].inputPins + g.nodes[i].outputPins, Serializer.PinKey);
  }

  /** `for (const n of g.nodes)`: records each node and its pins and collects the node ids. */
  method StoreNodes(nodes: map<string, Node>, pins: map<string, Pin>, g: GraphDoc)
    returns (rn: map<string, Node>, rp: map<string, Pin>, ids: seq<string>)
    ensures rn == Index(nodes, GraphNodes(g), Serializer.NodeKey)
    ensures rp == Index(pins, NodesPins(g.nodes), Serializer.PinKey)
    ensures ids == NodeIds(g.nodes)
  {
    rn, rp, ids := nodes, pins, [];
    var i := 0;
    while i < |g.nodes|
      invariant 0 <= i <= |g.nodes|
      invariant rn == Index(nodes, GraphNodes(g)[..i], Serializer.NodeKey)
      invariant rp == Index(pins, NodesPins(g.nodes[..i]), Serializer.PinKey)
      invariant ids == NodeIds(g.nodes)[..i]
    {
      var n := g.nodes[i];
      StoreNodesStep(nodes, pins, g, i);
      TakeSnoc(NodeIds(g.nodes), i);
      ids := ids + [n.id];
      rn := rn[n.id := NodeRecord(n, g.id)];
      rp := StoreNodePins(rp, n);
      i := i + 1;
    }
    assert g.nodes[..|g.nodes|] == g.nodes;
    assert GraphNodes(g)[..|g.nodes|] == GraphNodes(g);
    assert NodeIds(g.nodes)[..|g.nodes|] == NodeIds(g.nodes);
  }

  lemma FirstGraphIdStep(gs: seq<GraphDoc>, i: int)
    requires 0 <= i < |gs|
    ensures FirstGraphId(gs[..i + 1]) == if FirstGraphId(gs[..i]) == "" then gs[i].id else FirstGraphId(gs[..i])
  {
    assert gs[..i + 1][..i] == gs[..i];
  }

  lemma GraphRecordsStep(gs: seq<GraphDoc>, i: int)
    requires 0 <= i < |gs|
    ensures Index(map[], GraphRecords(gs[..i + 1]), Serializer.GraphKey) ==
      Index(map[], GraphRecords(gs[..i]), Serializer.GraphKey)[gs[i].id := GraphRecord(gs[i])]
  {
    assert gs[..i + 1][..i] == gs[..i];
    assert GraphRecords(gs[..i + 1]) == GraphRecords(gs[..i]) + [GraphRecord(gs[i])];
    IndexSnoc(map[], GraphRecords(gs[..i]), GraphRecord(gs[i]), Serializer.GraphKey);
  }

  lemma AllNodesStep(gs: seq<GraphDoc>, i: int)
    requires 0 <= i < |gs|
    ensures Index(map[], AllNodes(gs[..i + 1]), Serializer.NodeKey) ==
      Index(Index(map[], AllNodes(gs[..i]), Serializer.NodeKey), GraphNodes(gs[i]), Serializer.NodeKey)
  {
    assert gs[..i + 1][..i] == gs[..i];
    IndexConcat(map[], AllNodes(gs[..i]), GraphNodes(gs[i]), Serializer.NodeKey);
  }

  lemma AllPinsStep(gs: seq<GraphDoc>, i: int)
    requires 0 <= i < |gs|
    ensures Index(map[], AllPins(gs[..i + 1]), Serializer.PinKey) ==
      Index(Index(map[], AllPins(gs[..i]), Serializer.PinKey), NodesPins(gs[i].nodes), Serializer.PinKey)
  {
    assert gs[..i + 1][..i] == gs[..i];
    IndexConcat(map[], AllPins(gs[..i]), NodesPins(gs[i].nodes), Serializer.PinKey);
  }

  lemma AllEdgesStep(gs: seq<GraphDoc>, i: int)
    requires 0 <= i < |gs|
    ensures Index(map[], AllEdges(gs[..i + 1]), Serializer.EdgeKey) ==
      Index(Index(map[], AllEdges(gs[..i]), Serializer.EdgeKey), gs[i].edges, Serializer.EdgeKey)
  {
    assert gs[..i + 1][..i] == gs[..i];
    IndexConcat(map[], AllEdges(gs[..i]), gs[i].edges, Serializer.EdgeKey);
  }

  /** One turn of the graph loop extends each fold by the graph's own part. */
  lemma FlattenStep(gs: seq<GraphDoc>, i: int)
    requires 0 <= i < |gs|
    ensures FirstGraphId(gs[..i + 1]) == if FirstGraphId(gs[..i]) == "" then gs[i].id else FirstGraphId(gs[..i])
    ensures Index(map[], GraphRecords(gs[..i + 1]), Serializer.GraphKey) ==
      Index(map[], GraphRecords(gs[..i]), Serializer.GraphKey)[gs[i].id := GraphRecord(gs[i])]
    ensures Index(map[], AllNodes(gs[..i + 1]), Serializer.NodeKey) ==
      Index(Index(map[], AllNodes(gs[..i]), Serializer.NodeKey), GraphNodes(gs[i]), Serializer.NodeKey)
    ensures Index(map[], AllPins(gs[..i + 1]), Serializer.PinKey) ==
      Index(Index(map[], AllPins(gs[..i]), Serializer.PinKey), NodesPins(gs[i].nodes), Serializer.PinKey)
    ensures Index(map[], AllEdges(gs[..i + 1]), Serializer.EdgeKey) ==
      Index(Index(map[], AllEdges(gs[..i]), Serializer.EdgeKey), gs[i].edges, Serializer.EdgeKey)
  {
    FirstGraphIdStep(gs, i);
    GraphRecordsStep(gs, i);
    AllNodesStep(gs, i);
    AllPinsStep(gs, i);
    AllEdgesStep(gs, i);
  }

  /** The outer loop over the document's graphs. */
  method FlattenGraphs(gs: seq<GraphDoc>) returns (firstGraphId: string, s: GraphState)
    ensures firstGraphId == FirstGraphId(gs) && s == Flatten(gs)
  {
    var graphs: map<string, Graph> := map[];
    var nodes: map<string, Node> := map[];
    var edges: map<string, Edge> := map[];
    var pins: map<string, Pin> := map[];
    firstGraphId := "";
    var i := 0;
    while i < |gs|
      invariant 0 <= i <= |gs|
      invariant firstGraphId == FirstGraphId(gs[..i])
      invariant graphs == Index(map[], GraphRecords(gs[..i]), Serializer.GraphKey)
      invariant nodes == Index(map[], AllNodes(gs[..i]), Serializer.NodeKey)
      invariant edges == Index(map[], AllEdges(gs[..i]), Serializer.EdgeKey)
      invariant pins == Index(map[], AllPins(gs[..i]), Serializer.PinKey)
    {
      var g := gs[i];
      FlattenStep(gs, i);
      if firstGraphId == "" {
        firstGraphId := g.id;
      }
      var nodeIds, edgeIds;
      nodes, pins, nodeIds := StoreNodes(nodes, pins, g);
      edges, edgeIds := StoreEdges(edges, g.edges);
      graphs := graphs[g.id := Graph(g.id, g.name, nodeIds, edgeIds)];
      i := i + 1;
    }
    assert gs[..|gs|] == gs;
    s := GraphState(graphs, nodes, edges, pins);
  }

  // ---- Properties of the flattening ----

  /** With distinct keys, every element is what the map holds under its key. */
  lemma IndexDistinct<T>(m: map<string, T>, xs: seq<T>, key: T -> string, x: T)
    requires Sorting.KeysDistinct(xs, key) && x in xs
    ensures key(x) in Index(m, xs, key) && Index(m, xs, key)[key(x)] == x
  {
    var i :| 0 <= i < |xs| && xs[i] == x;
    IndexLastWins(m, xs, key, i);
  }

  /** Every value of a map built from nothing is an element stored under its own key. */
  lemma {:induction false} IndexValue<T>(xs: seq<T>, key: T -> string, k: string)
    requires k in Index(map[], xs, key)
    ensures Index(map[], xs, key)[k] in xs && key(Index(map[], xs, key)[k]) == k
    decreases |xs|
  {
    var xs' := xs[..|xs| - 1];
    if key(xs[|xs| - 1]) != k {
      IndexValue(xs', key, k);
      assert Index(map[], xs', key)[k] in xs';
    }
  }

  /** When equal keys mean equal elements, every element is what the map holds under its key. */
  lemma IndexDetermined<T>(xs: seq<T>, key: T -> string, x: T)
    requires Sorting.KeyDetermines(xs, key) && x in xs
    ensures key(x) in Index(map[], xs, key) && Index(map[], xs, key)[key(x)] == x
  {
    var i :| 0 <= i < |xs| && xs[i] == x;
    IndexKeys(map[], xs, key, key(x));
    IndexValue(xs, key, key(x));
    var v := Index(map[], xs, key)[key(x)];
    var j :| 0 <= j < |xs| && xs[j] == v;
  }

  /**
   * Node data is the document's data with `type` defaulting to the node's type: a
   * `type` in the data wins, and every other key comes from the data.
   */
  lemma NodeRecordData(n: NodeDoc, graphId: string, q: string)
    requires UniqueKeys(n.data)
    ensures var data := NodeRecord(n, graphId).data;
      Lookup(data, q) ==
        if HasKey(n.data, q) then Lookup(n.data, q)
        else if q == "type" then Some(JStr(NodeTypeName(n.kind)))
        else None
  {
    SpreadLookup([Field("type", JStr(NodeTypeName(n.kind)))], n.data, q);
  }

  /** The graph map: one entry per document graph id, the last graph with an id winning. */
  lemma FlattenGraphKeys(gs: seq<GraphDoc>, k: string)
    ensures k in Flatten(gs).graphs <==> exists i :: 0 <= i < |gs| && gs[i].id == k
  {
    IndexKeys(map[], GraphRecords(gs), Serializer.GraphKey, k);
    if i :| 0 <= i < |gs| && gs[i].id == k {
      assert Serializer.GraphKey(GraphRecords(gs)[i]) == k;
    }
  }

  /** A graph's stored record lists its document node and edge ids, in document order. */
  lemma FlattenGraphRecord(gs: seq<GraphDoc>, i: int)
    requires 0 <= i < |gs| && forall j :: i < j < |gs| ==> gs[j].id != gs[i].id
    ensures gs[i].id in Flatten(gs).graphs
    ensures var g := Flatten(gs).graphs[gs[i].id];
      g.id == gs[i].id && g.name == gs[i].name &&
      |g.nodeIds| == |gs[i].nodes| && (forall k :: 0 <= k < |g.nodeIds| ==> g.nodeIds[k] == gs[i].nodes[k].id) &&
      |g.edgeIds| == |gs[i].edges| && (forall k :: 0 <= k < |g.edgeIds| ==> g.edgeIds[k] == gs[i].edges[k].id)
  {
    IndexLastWins(map[], GraphRecords(gs), Serializer.GraphKey, i);
  }

  lemma {:induction false} AllNodesHas(gs: seq<GraphDoc>, gi: int, ni: int)
    requires 0 <= gi < |gs| && 0 <= ni < |gs[gi].nodes|
    ensures NodeRecord(gs[gi].nodes[ni], gs[gi].id) in AllNodes(gs)
    decreases |gs|
  {
    var x := NodeRecord(gs[gi].nodes[ni], gs[gi].id);
    if gi == |gs| - 1 {
      assert GraphNodes(gs[gi])[ni] == x;
    } else {
      AllNodesHas(gs[..|gs| - 1], gi, ni);
    }
  }

  lemma {:induction false} NodesPinsHas(ns: seq<NodeDoc>, ni: int, p: Pin)
    requires 0 <= ni < |ns| && (p in ns[ni].inputPins || p in ns[ni].outputPins)
    ensures p in NodesPins(ns)
    decreases |ns|
  {
    if ni < |ns| - 1 {
      NodesPinsHas(ns[..|ns| - 1], ni, p);
    }
  }

  lemma {:induction false} AllPinsHas(gs: seq<GraphDoc>, gi: int, ni: int, p: Pin)
    requires 0 <= gi < |gs| && 0 <= ni < |gs[gi].nodes|
    requires p in gs[gi].nodes[ni].inputPins || p in gs[gi].nodes[ni].outputPins
    ensures p in AllPins(gs)
    decreases |gs|
  {
    if gi == |gs| - 1 {
      NodesPinsHas(gs[gi].nodes, ni, p);
    } else {
      AllPinsHas(gs[..|gs| - 1], gi, ni, p);
    }
  }

  lemma {:induction false} AllEdgesHas(gs: seq<GraphDoc>, gi: int, e: Edge)
    requires 0 <= gi < |gs| && e in gs[gi].edges
    ensures e in AllEdges(gs)
    decreases |gs|
  {
    if gi < |gs| - 1 {
      AllEdgesHas(gs[..|gs| - 1], gi, e);
    }
  }

  /** A node record comes from a node of some document graph, with that graph's id. */
  lemma {:induction false} AllNodesMember(gs: seq<GraphDoc>, v: Node) returns (gi: int, n: NodeDoc)
    requires v in AllNodes(gs)
    ensures 0 <= gi < |gs| && n in gs[gi].nodes && v == NodeRecord(n, gs[gi].id)
    decreases |gs|
  {
    var last := gs[|gs| - 1];
    if v in GraphNodes(last) {
      var k :| 0 <= k < |GraphNodes(last)| && GraphNodes(last)[k] == v;
      gi, n := |gs| - 1, last.nodes[k];
    } else {
      gi, n := AllNodesMember(gs[..|gs| - 1], v);
      assert gs[..|gs| - 1][gi] == gs[gi];
    }
  }

  /** A pin of the nodes is an input or output pin of one of them. */
  lemma {:induction false} NodesPinsMember(ns: seq<NodeDoc>, p: Pin) returns (ni: int)
    requires p in NodesPins(ns)
    ensures 0 <= ni < |ns| && (p in ns[ni].inputPins || p in ns[ni].outputPins)
    decreases |ns|
  {
    var last := ns[|ns| - 1];
    if p in last.inputPins || p in last.outputPins {
      ni := |ns| - 1;
    } else {
      ni := NodesPinsMember(ns[..|ns| - 1], p);
      assert ns[..|ns| - 1][ni] == ns[ni];
    }
  }

  /** A pin of the document is an input or output pin of a node of some graph. */
  lemma {:induction false} AllPinsMember(gs: seq<GraphDoc>, p: Pin) returns (gi: int, ni: int)
    requires p in AllPins(gs)
    ensures 0 <= gi < |gs| && 0 <= ni < |gs[gi].nodes|
    ensures p in gs[gi].nodes[ni].inputPins || p in gs[gi].nodes[ni].outputPins
    decreases |gs|
  {
    if p in NodesPins(gs[|gs| - 1].nodes) {
      gi := |gs| - 1;
      ni := NodesPinsMember(gs[gi].nodes, p);
    } else {
      gi, ni := AllPinsMember(gs[..|gs| - 1], p);
      assert gs[..|gs| - 1][gi] == gs[gi];
    }
  }

  /** An edge of the document is an edge of some graph. */
  lemma {:induction false} AllEdgesMember(gs: seq<GraphDoc>, e: Edge) returns (gi: int)
    requires e in AllEdges(gs)
    ensures 0 <= gi < |gs| && e in gs[gi].edges
    decreases |gs|
  {
    if e in gs[|gs| - 1].edges {
      gi := |gs| - 1;
    } else {
      gi := AllEdgesMember(gs[..|gs| - 1], e);
      assert gs[..|gs| - 1][gi] == gs[gi];
    }
  }

  /**
   * When node ids are distinct across the document, each node is stored under its id
   * with the enclosing graph as its `graphId`.
   */
  lemma FlattenNode(gs: seq<GraphDoc>, gi: int, ni: int)
    requires 0 <= gi < |gs| && 0 <= ni < |gs[gi].nodes|
    requires Sorting.KeysDistinct(AllNodes(gs), Serializer.NodeKey)
    ensures var n := gs[gi].nodes[ni];
      n.id in Flatten(gs).nodes && Flatten(gs).nodes[n.id] == NodeRecord(n, gs[gi].id)
  {
    AllNodesHas(gs, gi, ni);
    IndexDistinct(map[], AllNodes(gs), Serializer.NodeKey, NodeRecord(gs[gi].nodes[ni], gs[gi].id));
  }

  /** When pin ids are distinct across the document, every input and output pin is stored verbatim under its id. */
  lemma FlattenPin(gs: seq<GraphDoc>, gi: int, ni: int, p: Pin)
    requires 0 <= gi < |gs| && 0 <= ni < |gs[gi].nodes|
    requires p in gs[gi].nodes[ni].inputPins || p in gs[gi].nodes[ni].outputPins
    requires Sorting.KeysDistinct(AllPins(gs), Serializer.PinKey)
    ensures p.id in Flatten(gs).pins && Flatten(gs).pins[p.id] == p
  {
    AllPinsHas(gs, gi, ni, p);
    IndexDistinct(map[], AllPins(gs), Serializer.PinKey, p);
  }

  /** When edge ids are distinct across the document, every edge is stored verbatim under its id. */
  lemma FlattenEdge(gs: seq<GraphDoc>, gi: int, e: Edge)
    requires 0 <= gi < |gs| && e in gs[gi].edges
    requires Sorting.KeysDistinct(AllEdges(gs), Serializer.EdgeKey)
    ensures e.id in Flatten(gs).edges && Flatten(gs).edges[e.id] == e
  {
    AllEdgesHas(gs, gi, e);
    IndexDistinct(map[], AllEdges(gs), Serializer.EdgeKey, e);
  }

  /** `activeGraphId` is `''` exactly when every document graph has the empty id. */
  lemma {:induction false} FirstGraphIdEmpty(gs: seq<GraphDoc>)
    ensures FirstGraphId(gs) == "" <==> forall j :: 0 <= j < |gs| ==> gs[j].id == ""
    decreases |gs|
  {
    if gs != [] {
      var prefix := gs[..|gs| - 1];
      FirstGraphIdEmpty(prefix);
      assert forall j :: 0 <= j < |prefix| ==> prefix[j] == gs[j];
    }
  }

  /** Otherwise it is the id of the first graph whose id is not empty. */
  lemma {:induction false} FirstGraphIdFirst(gs: seq<GraphDoc>, i: int)
    requires 0 <= i < |gs| && gs[i].id != ""
    requires forall j :: 0 <= j < i ==> gs[j].id == ""
    ensures FirstGraphId(gs) == gs[i].id
    decreases |gs|
  {
    var prefix := gs[..|gs| - 1];
    if i == |gs| - 1 {
      FirstGraphIdEmpty(prefix);
    } else {
      FirstGraphIdFirst(prefix, i);
    }
  }

  /** The characters list becomes a map keyed by id; with distinct ids, each is stored as given. */
  lemma ProjectCharacters(d: ExportDoc, c: Character)
    requires Sorting.KeysDistinct(d.characters, Serializer.CharacterKey) && c in d.characters
    ensures c.id in ProjectOf(d).characters && ProjectOf(d).characters[c.id] == c
  {
    IndexDistinct(map[], d.characters, Serializer.CharacterKey, c);
  }

  /** A file at a newer schema version is rejected before anything else is looked at. */
  lemma ImportRejectsNewer(fs: seq<Field>, v: int)
    requires Lookup(fs, "schemaVersion") == Some(JNum(v)) && v > Migrations.CurrentVersion
    ensures Import(JObj(fs)).Err? && Import(JObj(fs)).error.MigrationFailed?
    ensures Import(JObj(fs)).error.cause.Unsupported?
  {
    Migrations.NewerVersionRejected(fs, v);
  }

  /** A file that passes the gate but not the schema is rejected as invalid. */
  lemma ImportRejectsMalformed(raw: Json)
    requires Migrations.Migrate(raw).Ok? && DecodeDoc(JObj(Migrations.Migrate(raw).value)).None?
    ensures Import(raw) == Err(Invalid)
  {
  }

  /** The first three lines of `importProject`: parse (already done), migrate, validate. */
  method Validate(raw: Json) returns (r: Result<ExportDoc, ImportError>)
    ensures r == Validated(raw)
  {
    var migrated := Migrations.MigrateToLatest(raw);
    if migrated.Err? {
      return Err(MigrationFailed(migrated.error));
    }
    var validated := DecodeDoc(JObj(migrated.value));
    if validated.None? {
      return Err(Invalid);
    }
    return Ok(validated.value);
  }

  /**
   * `importProject`: migrate, validate, flatten, then hydrate the graph store and the
   * project store. When it fails, neither store has been touched.
   */
  method ImportProject(raw: Json, graphStore: GraphStore.Store, projectStore: ProjectStore.Store)
    returns (error: Option<ImportError>)
    requires graphStore.Valid()
    modifies graphStore, graphStore.history, projectStore
    ensures error.Some? <==> Import(raw).Err?
    ensures error.Some? ==> error.value == Import(raw).error
    ensures error.Some? ==> unchanged(graphStore, graphStore.history, projectStore)
    ensures error.None? ==> (graphStore.Valid() &&
      graphStore.activeGraphId == Import(raw).value.activeGraphId &&
      graphStore.State() == Import(raw).value.state &&
      projectStore.Snapshot() == Import(raw).value.project)
    ensures error.None? ==> graphStore.Logged(old(graphStore.history.Stacks()), old(graphStore.history.tracking), old(graphStore.State()))
  {
    var validated := Validate(raw);
    if validated.Err? {
      return Some(validated.error);
    }
    HydrateStores(validated.value, graphStore, projectStore);
    return None;
  }

  /** The hydrating half of `importProject`, once the document is valid. */
  method HydrateStores(d: ExportDoc, graphStore: GraphStore.Store, projectStore: ProjectStore.Store)
    requires graphStore.Valid()
    modifies graphStore, graphStore.history, projectStore
    ensures graphStore.Valid() && graphStore.activeGraphId == FirstGraphId(d.graphs)
    ensures graphStore.State() == Flatten(d.graphs) && projectStore.Snapshot() == ProjectOf(d)
    ensures graphStore.Logged(old(graphStore.history.Stacks()), old(graphStore.history.tracking), old(graphStore.State()))
  {
    var firstGraphId, s := FlattenGraphs(d.graphs);
    graphStore.Hydrate(firstGraphId, s);
    var characters := IndexInto(map[], d.characters, Serializer.CharacterKey);
    projectStore.Hydrate(Project(d.id, d.name, d.schemaVersion, d.createdAt, d.updatedAt, characters, d.hierarchyRoot));
  }
}
