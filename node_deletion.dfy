/**
 * `deleteNodes`: the listed nodes go with their pins and the edges on those pins,
 * and a container takes its inner graph with it, one level deep.
 */
module NodeDeletion {
  import opened Wrappers
  import opened Json
  import opened Types
  import opened Lists
  import opened GraphOps

  /**
   * The inner graph a node's data points at, as the cascade reads it: the data is
   * tagged as a container kind and its `innerGraphId` is truthy; that value is
   * then used as a property key.
   */
  function InnerGraphKey(data: seq<Field>): Option<string>
  {
    var tag := Lookup(data, "type");
    if tag == Some(JStr(NodeTypeName(DialogueContainer))) || tag == Some(JStr(NodeTypeName(FlowFragment))) then
      match Lookup(data, "innerGraphId")
      case Some(v) => if Truthy(v) then Some(PropertyKey(v)) else None
      case None => None
    else None
  }

  /** An `innerGraphId` of `["g"]` names the graph "g", as `String(["g"])` is "g". */
  lemma ArrayInnerGraphKey(data: seq<Field>, g: string)
    requires Lookup(data, "type") == Some(JStr(NodeTypeName(DialogueContainer))) ||
      Lookup(data, "type") == Some(JStr(NodeTypeName(FlowFragment)))
    requires Lookup(data, "innerGraphId") == Some(JArr([JStr(g)]))
    ensures InnerGraphKey(data) == Some(g)
  {
  }

  /** Ids of the pins whose owner is one of `owners`. */
  function OwnedPinIds(pins: map<string, Pin>, owners: set<string>): set<string>
  {
    set k | k in pins && pins[k].nodeId in owners :: pins[k].id
  }

  /** Ids of the edges that start or end at one of `pinIds`. */
  function TouchingEdgeIds(edges: map<string, Edge>, pinIds: set<string>): set<string>
  {
    set k | k in edges && (edges[k].fromPinId in pinIds || edges[k].toPinId in pinIds) :: edges[k].id
  }

  /** The working copies the cascade loop updates, and the pins collected so far. */
  datatype Cascade = Cascade(
    nodes: map<string, Node>,
    edges: map<string, Edge>,
    graphs: map<string, Graph>,
    pinIds: set<string>)

  /**
   * One turn of the cascade loop: a listed node that still exists and points at an
   * existing inner graph takes that graph, the nodes it lists (with their pins) and
   * the edges it lists. The removed inner nodes are not cascaded in turn.
   */
  function CascadeStep(pins: map<string, Pin>, c: Cascade, nodeId: string): Cascade
  {
    if nodeId in c.nodes then
      match InnerGraphKey(c.nodes[nodeId].data)
      case Some(g) =>
        if g in c.graphs then
          var inner := c.graphs[g];
          Cascade(c.nodes - Elems(inner.nodeIds), c.edges - Elems(inner.edgeIds), c.graphs - {g},
                  c.pinIds + OwnedPinIds(pins, Elems(inner.nodeIds) * c.nodes.Keys))
        else c
      case None => c
    else c
  }

  /** The cascade loop run over the listed ids in order. */
  function CascadeAll(pins: map<string, Pin>, c: Cascade, ids: seq<string>): Cascade
  {
    if ids == [] then c else CascadeStep(pins, CascadeAll(pins, c, ids[..|ids| - 1]), ids[|ids| - 1])
  }

  /** The ids in `done` that still exist in `nodes` and live in graph `g`. */
  function ListedIn(nodes: map<string, Node>, done: set<string>, g: string): set<string>
  {
    set x | x in done && x in nodes && nodes[x].graphId == g
  }

  /** Graph `g` after the removal loop has handled the ids in `done`. */
  function PrunedGraph(nodes: map<string, Node>, graphs: map<string, Graph>, done: set<string>,
                       doomed: set<string>, g: string): Graph
    requires g in graphs
  {
    var gone := ListedIn(nodes, done, g);
    if gone == {} then graphs[g]
    else graphs[g].(nodeIds := Without(graphs[g].nodeIds, gone), edgeIds := Without(graphs[g].edgeIds, doomed))
  }

  /** What graph `g` still lists after the removal loop. */
  lemma PrunedMembers(nodes: map<string, Node>, graphs: map<string, Graph>, done: set<string>,
                      doomed: set<string>, g: string)
    requires g in graphs
    ensures var p := PrunedGraph(nodes, graphs, done, doomed, g);
      && p.id == graphs[g].id
      && (forall x :: x in p.nodeIds <==> x in graphs[g].nodeIds && x !in ListedIn(nodes, done, g))
      && (forall e :: e in p.edgeIds <==> e in graphs[g].edgeIds && (ListedIn(nodes, done, g) == {} || e !in doomed))
  {
  }

  /**
   * The removal loop over the ids in `done`: each existing listed node leaves its
   * graph's `nodeIds`, that graph drops the `doomed` edges, and the node is deleted.
   */
  function RemovalGraphs(nodes: map<string, Node>, graphs: map<string, Graph>, done: set<string>,
                         doomed: set<string>): (r: map<string, Graph>)
    ensures r.Keys == graphs.Keys
  {
    map g | g in graphs :: PrunedGraph(nodes, graphs, done, doomed, g)
  }

  /** The state after `deleteNodes(ids)`. */
  function DeleteNodesSpec(s: GraphState, ids: seq<string>): GraphState
  {
    var p1 := OwnedPinIds(s.pins, Elems(ids));
    var e1 := TouchingEdgeIds(s.edges, p1);
    var c := CascadeAll(s.pins, Cascade(s.nodes, s.edges, s.graphs, p1), ids);
    GraphState(RemovalGraphs(c.nodes, c.graphs, Elems(ids), e1), c.nodes - Elems(ids), c.edges - e1, s.pins - c.pinIds)
  }

  // ---------------------------------------------------------------------------
  // Loop steps, in the form the store's loops use them
  // ---------------------------------------------------------------------------

  /** One graph's entry after the removal loop handles one more id. */
  lemma PrunedGraphStep(nodes: map<string, Node>, graphs: map<string, Graph>, done: set<string>,
                        doomed: set<string>, x: string, h: string)
    requires h in graphs
    ensures var cur := PrunedGraph(nodes, graphs, done, doomed, h);
      PrunedGraph(nodes, graphs, done + {x}, doomed, h)
        == if x in nodes && x !in done && nodes[x].graphId == h then
             cur.(nodeIds := Without(cur.nodeIds, {x}), edgeIds := Without(cur.edgeIds, doomed))
           else cur
  {
    if x in nodes && x !in done && nodes[x].graphId == h {
      var gone := ListedIn(nodes, done, h);
      assert ListedIn(nodes, done + {x}, h) == gone + {x};
      if gone != {} {
        WithoutWithout(graphs[h].nodeIds, gone, {x});
        WithoutWithout(graphs[h].edgeIds, doomed, doomed);
        assert doomed + doomed == doomed;
      } else {
        assert gone + {x} == {x};
      }
    } else {
      assert ListedIn(nodes, done + {x}, h) == ListedIn(nodes, done, h);
    }
  }

  /** The removal loop handling one more id. */
  lemma RemovalStep(nodes: map<string, Node>, graphs: map<string, Graph>, done: set<string>,
                    doomed: set<string>, x: string)
    ensures var cur := RemovalGraphs(nodes, graphs, done, doomed);
      var curNodes := nodes - done;
      RemovalGraphs(nodes, graphs, done + {x}, doomed)
        == if x in curNodes && curNodes[x].graphId in cur then
             var g := curNodes[x].graphId;
             cur[g := cur[g].(nodeIds := Without(cur[g].nodeIds, {x}), edgeIds := Without(cur[g].edgeIds, doomed))]
           else cur
  {
    var cur := RemovalGraphs(nodes, graphs, done, doomed);
    var next := RemovalGraphs(nodes, graphs, done + {x}, doomed);
    forall h | h in graphs
      ensures next[h] == if x in nodes && x !in done && nodes[x].graphId == h then
                           cur[h].(nodeIds := Without(cur[h].nodeIds, {x}), edgeIds := Without(cur[h].edgeIds, doomed))
                         else cur[h]
    {
      PrunedGraphStep(nodes, graphs, done, doomed, x, h);
    }
  }

  /** Collecting one more owner's pins. */
  lemma OwnedPinIdsStep(pins: map<string, Pin>, owners: set<string>, x: string)
    ensures OwnedPinIds(pins, owners + {x}) == OwnedPinIds(pins, owners) + OwnedPinIds(pins, {x})
  {
  }

  lemma OwnedPinIdsEmpty(pins: map<string, Pin>)
    ensures OwnedPinIds(pins, {}) == {}
  {
  }

  // ---------------------------------------------------------------------------
  // What deletion removes
  // ---------------------------------------------------------------------------

  /** The cascade only ever removes entities and adds collected pins. */
  lemma {:induction false} CascadeAllShrinks(pins: map<string, Pin>, c: Cascade, ids: seq<string>)
    ensures var r := CascadeAll(pins, c, ids);
      && c.pinIds <= r.pinIds
      && (forall x :: x in r.nodes ==> x in c.nodes && r.nodes[x] == c.nodes[x])
      && (forall e :: e in r.edges ==> e in c.edges && r.edges[e] == c.edges[e])
      && (forall g :: g in r.graphs ==> g in c.graphs && r.graphs[g] == c.graphs[g])
  {
    if ids != [] {
      CascadeAllShrinks(pins, c, ids[..|ids| - 1]);
    }
  }

  /**
   * Deleting nodes removes every listed node, every pin a listed id owns and every
   * edge on such a pin; whatever remains was there before, unchanged.
   */
  lemma DeleteNodesEffect(s: GraphState, ids: seq<string>)
    requires KeysAreIds(s)
    ensures var r := DeleteNodesSpec(s, ids);
      && (forall x :: x in ids ==> x !in r.nodes)
      && (forall k :: k in r.pins ==> r.pins[k].nodeId !in ids)
      && (forall k :: k in r.edges ==>
            r.edges[k].fromPinId !in OwnedPinIds(s.pins, Elems(ids)) && r.edges[k].toPinId !in OwnedPinIds(s.pins, Elems(ids)))
      && (forall x :: x in r.nodes ==> x in s.nodes && r.nodes[x] == s.nodes[x])
      && (forall k :: k in r.pins ==> k in s.pins && r.pins[k] == s.pins[k])
      && (forall k :: k in r.edges ==> k in s.edges && r.edges[k] == s.edges[k])
      && r.graphs.Keys <= s.graphs.Keys
  {
    var p1 := OwnedPinIds(s.pins, Elems(ids));
    var c0 := Cascade(s.nodes, s.edges, s.graphs, p1);
    CascadeAllShrinks(s.pins, c0, ids);
    var r := DeleteNodesSpec(s, ids);
    assert forall k :: k in s.pins && s.pins[k].nodeId in ids ==> k in p1;
  }

  /** The node ids the graphs `gs` of `graphs` list. */
  ghost function NodesListedBy(graphs: map<string, Graph>, gs: set<string>): set<string>
  {
    set g, x | g in gs && g in graphs && x in graphs[g].nodeIds :: x
  }

  /** The edge ids the graphs `gs` of `graphs` list. */
  ghost function EdgesListedBy(graphs: map<string, Graph>, gs: set<string>): set<string>
  {
    set g, e | g in gs && g in graphs && e in graphs[g].edgeIds :: e
  }

  /** Collecting the pins of two owner sets is collecting those of their union. */
  lemma OwnedPinIdsUnion(pins: map<string, Pin>, a: set<string>, b: set<string>)
    ensures OwnedPinIds(pins, a) + OwnedPinIds(pins, b) == OwnedPinIds(pins, a + b)
  {
  }

  /**
   * Where the cascade stands against `s`: it has dropped some graphs, untouched until
   * then, and with them exactly the nodes and edges those graphs list and the pins
   * of those nodes.
   */
  ghost predicate CascadeTracks(s: GraphState, p1: set<string>, c: Cascade)
  {
    var dropped := s.graphs.Keys - c.graphs.Keys;
    && c.graphs.Keys <= s.graphs.Keys
    && (forall g :: g in c.graphs ==> c.graphs[g] == s.graphs[g])
    && c.nodes == s.nodes - NodesListedBy(s.graphs, dropped)
    && c.edges == s.edges - EdgesListedBy(s.graphs, dropped)
    && c.pinIds == p1 + OwnedPinIds(s.pins, NodesListedBy(s.graphs, dropped) * s.nodes.Keys)
  }

  lemma DropTracked(s: GraphState, p1: set<string>, c: Cascade, g: string)
    requires CascadeTracks(s, p1, c) && g in c.graphs
    ensures var inner := c.graphs[g];
      CascadeTracks(s, p1, Cascade(c.nodes - Elems(inner.nodeIds), c.edges - Elems(inner.edgeIds), c.graphs - {g},
                                   c.pinIds + OwnedPinIds(s.pins, Elems(inner.nodeIds) * c.nodes.Keys)))
  {
    var d := s.graphs.Keys - c.graphs.Keys;
    var d2 := s.graphs.Keys - (c.graphs - {g}).Keys;
    assert d2 == d + {g};
    var nl := NodesListedBy(s.graphs, d);
    var inner := s.graphs[g];
    assert NodesListedBy(s.graphs, d2) == nl + Elems(inner.nodeIds);
    assert EdgesListedBy(s.graphs, d2) == EdgesListedBy(s.graphs, d) + Elems(inner.edgeIds);
    assert c.nodes.Keys == s.nodes.Keys - nl;
    assert nl * s.nodes.Keys + Elems(inner.nodeIds) * (s.nodes.Keys - nl) == (nl + Elems(inner.nodeIds)) * s.nodes.Keys;
    OwnedPinIdsUnion(s.pins, nl * s.nodes.Keys, Elems(inner.nodeIds) * (s.nodes.Keys - nl));
  }

  /** The graphs the cascade has dropped so far. */
  ghost function Dropped(s: GraphState, c: Cascade): set<string>
  {
    s.graphs.Keys - c.graphs.Keys
  }

  /**
   * The cascade over `ids` tracks `s`; each graph it dropped is the inner graph a listed
   * node of `s` points at, and every listed node of `s` that no dropped graph lists
   * has had the existing graph it points at dropped.
   */
  lemma {:induction false} CascadeAllTracks(s: GraphState, p1: set<string>, ids: seq<string>)
    ensures var c := CascadeAll(s.pins, Cascade(s.nodes, s.edges, s.graphs, p1), ids);
      && CascadeTracks(s, p1, c)
      && (forall g :: g in Dropped(s, c) ==>
            exists x :: x in ids && x in s.nodes && InnerGraphKey(s.nodes[x].data) == Some(g))
      && (forall x :: (x in ids && x in s.nodes && x !in NodesListedBy(s.graphs, Dropped(s, c)) &&
                       InnerGraphKey(s.nodes[x].data).Some? && InnerGraphKey(s.nodes[x].data).value in s.graphs) ==>
            InnerGraphKey(s.nodes[x].data).value in Dropped(s, c))
  {
    var c0 := Cascade(s.nodes, s.edges, s.graphs, p1);
    if ids == [] {
      assert NodesListedBy(s.graphs, {}) == {} && EdgesListedBy(s.graphs, {}) == {};
      OwnedPinIdsEmpty(s.pins);
    } else {
      var init := ids[..|ids| - 1];
      var x := ids[|ids| - 1];
      assert forall y :: y in ids <==> y in init || y == x;
      var c := CascadeAll(s.pins, c0, init);
      CascadeAllTracks(s, p1, init);
      var c2 := CascadeStep(s.pins, c, x);
      if x in c.nodes && InnerGraphKey(c.nodes[x].data).Some? && InnerGraphKey(c.nodes[x].data).value in c.graphs {
        DropTracked(s, p1, c, InnerGraphKey(c.nodes[x].data).value);
      }
      assert Dropped(s, c) <= Dropped(s, c2);
      assert NodesListedBy(s.graphs, Dropped(s, c)) <= NodesListedBy(s.graphs, Dropped(s, c2));
    }
  }

  /**
   * Exactly what survives `deleteNodes(ids)`, in terms of the graphs the cascade drops:
   * a node when it is not listed and no dropped graph lists it; a pin when its owner is
   * not listed and is not such a removed inner node; an edge when no dropped graph lists
   * it and neither end is a pin of a listed node; a graph when it was not dropped. Each
   * dropped graph is the inner graph of a listed node, and a listed container that was
   * not itself removed by the cascade loses the existing graph it points at.
   */
  lemma DeleteNodesSurvivors(s: GraphState, ids: seq<string>)
    requires KeysAreIds(s)
    ensures var r := DeleteNodesSpec(s, ids);
      var dropped := s.graphs.Keys - r.graphs.Keys;
      var inner := NodesListedBy(s.graphs, dropped);
      var p1 := OwnedPinIds(s.pins, Elems(ids));
      && r.graphs.Keys <= s.graphs.Keys
      && (forall x :: x in r.nodes <==> x in s.nodes && x !in ids && x !in inner)
      && (forall k :: k in r.pins <==>
            k in s.pins && s.pins[k].nodeId !in ids && (s.pins[k].nodeId !in inner || s.pins[k].nodeId !in s.nodes))
      && (forall e :: e in r.edges <==>
            e in s.edges && e !in EdgesListedBy(s.graphs, dropped) && s.edges[e].fromPinId !in p1 && s.edges[e].toPinId !in p1)
      && (forall g :: g in dropped ==> exists x :: x in ids && x in s.nodes && InnerGraphKey(s.nodes[x].data) == Some(g))
      && (forall x :: (x in ids && x in s.nodes && x !in inner &&
                       InnerGraphKey(s.nodes[x].data).Some? && InnerGraphKey(s.nodes[x].data).value in s.graphs) ==>
            InnerGraphKey(s.nodes[x].data).value in dropped)
  {
    var p1 := OwnedPinIds(s.pins, Elems(ids));
    var c := CascadeAll(s.pins, Cascade(s.nodes, s.edges, s.graphs, p1), ids);
    CascadeAllTracks(s, p1, ids);
    var r := DeleteNodesSpec(s, ids);
    assert r.graphs.Keys == c.graphs.Keys;
    assert s.graphs.Keys - r.graphs.Keys == Dropped(s, c);
    var inner := NodesListedBy(s.graphs, Dropped(s, c));
    OwnedPinIdsMembers(s.pins, Elems(ids));
    OwnedPinIdsMembers(s.pins, inner * s.nodes.Keys);
    assert forall e :: e in TouchingEdgeIds(s.edges, p1) <==>
      e in s.edges && (s.edges[e].fromPinId in p1 || s.edges[e].toPinId in p1);
  }

  /** Listing only ids that name no node changes nothing, when every pin has its node. */
  lemma DeleteAbsentNodes(s: GraphState, ids: seq<string>)
    requires PinsHaveNodes(s)
    requires forall x :: x in ids ==> x !in s.nodes
    ensures DeleteNodesSpec(s, ids) == s
  {
    var p1 := OwnedPinIds(s.pins, Elems(ids));
    assert p1 == {};
    var c0 := Cascade(s.nodes, s.edges, s.graphs, p1);
    CascadeAllAbsent(s.pins, c0, ids);
    forall g | g in s.graphs ensures ListedIn(s.nodes, Elems(ids), g) == {} {
    }
    assert RemovalGraphs(s.nodes, s.graphs, Elems(ids), {}) == s.graphs;
    assert s.nodes - Elems(ids) == s.nodes;
  }

  lemma {:induction false} CascadeAllAbsent(pins: map<string, Pin>, c: Cascade, ids: seq<string>)
    requires forall x :: x in ids ==> x !in c.nodes
    ensures CascadeAll(pins, c, ids) == c
  {
    if ids != [] {
      CascadeAllAbsent(pins, c, ids[..|ids| - 1]);
    }
  }

  /**
   * Deleting one container whose data points at an existing graph `g` removes `g`,
   * the nodes and edges `g` lists and the pins of those nodes; every other graph,
   * including the inner graph of a container nested in `g`, is kept.
   */
  lemma DeleteContainerOneLevel(s: GraphState, c: string, g: string)
    requires KeysAreIds(s)
    requires c in s.nodes && InnerGraphKey(s.nodes[c].data) == Some(g) && g in s.graphs
    ensures var r := DeleteNodesSpec(s, [c]);
      && r.graphs.Keys == s.graphs.Keys - {g}
      && (forall x :: x in s.graphs[g].nodeIds ==> x !in r.nodes)
      && (forall e :: e in s.graphs[g].edgeIds ==> e !in r.edges)
      && (forall k :: k in r.pins ==> r.pins[k].nodeId !in s.graphs[g].nodeIds || r.pins[k].nodeId !in s.nodes)
      && (forall x :: x in s.nodes && x != c && x !in s.graphs[g].nodeIds ==> x in r.nodes)
  {
    var p1 := OwnedPinIds(s.pins, Elems([c]));
    var c0 := Cascade(s.nodes, s.edges, s.graphs, p1);
    assert [c][..0] == [];
    assert CascadeAll(s.pins, c0, [c]) == CascadeStep(s.pins, c0, c);
  }

  // ---------------------------------------------------------------------------
  // Deletion keeps the store consistent
  // ---------------------------------------------------------------------------

  /** Pins whose owner exists but lives in a graph outside `graphs`. */
  ghost function DetachedPins(s: GraphState, graphs: map<string, Graph>): set<string>
  {
    set k | k in s.pins && s.pins[k].nodeId in s.nodes && s.nodes[s.pins[k].nodeId].graphId !in graphs
  }

  /** The cascade keeps some graphs of `s`, untouched. */
  ghost predicate CascadeGraphs(s: GraphState, c: Cascade)
  {
    forall g :: g in c.graphs ==> g in s.graphs && c.graphs[g] == s.graphs[g]
  }

  /** The cascade keeps exactly the nodes of `s` whose graph it keeps. */
  ghost predicate CascadeNodes(s: GraphState, c: Cascade)
  {
    && (forall x :: x in c.nodes ==> x in s.nodes && c.nodes[x] == s.nodes[x] && s.nodes[x].graphId in c.graphs)
    && (forall x :: x in s.nodes && s.nodes[x].graphId in c.graphs ==> x in c.nodes)
  }

  /** The cascade keeps exactly the edges of `s` whose graph it keeps. */
  ghost predicate CascadeEdges(s: GraphState, c: Cascade)
  {
    && (forall e :: e in c.edges ==> e in s.edges && c.edges[e] == s.edges[e] && Home(s, e).Some? && Home(s, e).value in c.graphs)
    && (forall e :: e in s.edges && Home(s, e).Some? && Home(s, e).value in c.graphs ==> e in c.edges)
  }

  /** What the cascade has collected so far: the listed nodes' pins and the pins of dropped graphs. */
  ghost predicate CascadeInv(s: GraphState, p1: set<string>, c: Cascade)
  {
    CascadeGraphs(s, c) && CascadeNodes(s, c) && CascadeEdges(s, c) && c.pinIds == p1 + DetachedPins(s, c.graphs)
  }

  lemma OwnedPinIdsMembers(pins: map<string, Pin>, owners: set<string>)
    requires forall k :: k in pins ==> pins[k].id == k
    ensures forall k :: k in OwnedPinIds(pins, owners) <==> k in pins && pins[k].nodeId in owners
  {
  }

  lemma CascadeStart(s: GraphState, p1: set<string>)
    requires Consistent(s)
    ensures CascadeInv(s, p1, Cascade(s.nodes, s.edges, s.graphs, p1))
  {
    assert DetachedPins(s, s.graphs) == {};
  }

  /** Dropping inner graph `g`, its listed nodes, their pins and its listed edges keeps the cascade's invariant. */
  lemma DropInnerGraph(s: GraphState, p1: set<string>, c: Cascade, g: string)
    requires Consistent(s) && CascadeInv(s, p1, c) && g in c.graphs
    ensures var inner := c.graphs[g];
      CascadeInv(s, p1, Cascade(c.nodes - Elems(inner.nodeIds), c.edges - Elems(inner.edgeIds), c.graphs - {g},
                                c.pinIds + OwnedPinIds(s.pins, Elems(inner.nodeIds) * c.nodes.Keys)))
  {
    var inner := c.graphs[g];
    var r := Cascade(c.nodes - Elems(inner.nodeIds), c.edges - Elems(inner.edgeIds), c.graphs - {g},
                     c.pinIds + OwnedPinIds(s.pins, Elems(inner.nodeIds) * c.nodes.Keys));
    DropInnerNodes(s, c, g);
    DropInnerEdges(s, c, g);
    DropInnerPins(s, c, g);
  }

  lemma DropInnerNodes(s: GraphState, c: Cascade, g: string)
    requires NodesListed(s) && ListedNodesExist(s)
    requires CascadeGraphs(s, c) && CascadeNodes(s, c) && g in c.graphs
    ensures var inner := c.graphs[g];
      var r := Cascade(c.nodes - Elems(inner.nodeIds), c.edges, c.graphs - {g}, c.pinIds);
      CascadeGraphs(s, r) && CascadeNodes(s, r)
  {
  }

  lemma DropInnerEdges(s: GraphState, c: Cascade, g: string)
    requires EdgesWired(s) && ListedEdgesExist(s)
    requires CascadeGraphs(s, c) && CascadeEdges(s, c) && g in c.graphs
    ensures var inner := c.graphs[g];
      CascadeEdges(s, Cascade(c.nodes, c.edges - Elems(inner.edgeIds), c.graphs - {g}, c.pinIds))
  {
  }

  lemma DropInnerPins(s: GraphState, c: Cascade, g: string)
    requires KeysAreIds(s) && NodesListed(s) && ListedNodesExist(s)
    requires CascadeGraphs(s, c) && CascadeNodes(s, c) && g in c.graphs
    ensures DetachedPins(s, c.graphs - {g})
      == DetachedPins(s, c.graphs) + OwnedPinIds(s.pins, Elems(c.graphs[g].nodeIds) * c.nodes.Keys)
  {
    OwnedPinIdsMembers(s.pins, Elems(c.graphs[g].nodeIds) * c.nodes.Keys);
  }

  lemma {:induction false} CascadeAllInv(s: GraphState, p1: set<string>, ids: seq<string>)
    requires Consistent(s)
    ensures CascadeInv(s, p1, CascadeAll(s.pins, Cascade(s.nodes, s.edges, s.graphs, p1), ids))
  {
    if ids == [] {
      CascadeStart(s, p1);
    } else {
      var c := CascadeAll(s.pins, Cascade(s.nodes, s.edges, s.graphs, p1), ids[..|ids| - 1]);
      CascadeAllInv(s, p1, ids[..|ids| - 1]);
      var x := ids[|ids| - 1];
      if x in c.nodes && InnerGraphKey(c.nodes[x].data).Some? && InnerGraphKey(c.nodes[x].data).value in c.graphs {
        DropInnerGraph(s, p1, c, InnerGraphKey(c.nodes[x].data).value);
      }
    }
  }

  /** The last phase: listed nodes leave their graphs and the collected pins and edges go. */
  function Finish(s: GraphState, c: Cascade, listed: set<string>, doomed: set<string>): GraphState
  {
    GraphState(RemovalGraphs(c.nodes, c.graphs, listed, doomed), c.nodes - listed, c.edges - doomed, s.pins - c.pinIds)
  }

  /** Which pins of `s` are left in `r`, and that they keep their graph. */
  ghost predicate PinsSurvive(s: GraphState, p1: set<string>, c: Cascade, r: GraphState)
    requires PinsHaveNodes(s)
  {
    forall k :: k in s.pins ==>
      (k in r.pins <==> k !in p1 && s.nodes[s.pins[k].nodeId].graphId in c.graphs)
      && (k in r.pins ==> PinGraph(r, k) == PinGraph(s, k))
  }

  /**
   * A pin is left after deletion exactly when it was not collected for a listed node
   * and its owner's graph was kept; its owner is then left too.
   */
  lemma FinishPins(s: GraphState, p1: set<string>, c: Cascade, listed: set<string>, r: GraphState)
    requires PinsHaveNodes(s) && CascadeNodes(s, c)
    requires c.pinIds == p1 + DetachedPins(s, c.graphs)
    requires forall k :: k in s.pins && s.pins[k].nodeId in listed ==> k in p1
    requires r.nodes == c.nodes - listed && r.pins == s.pins - c.pinIds
    ensures PinsSurvive(s, p1, c, r)
  {
    forall k | k in s.pins
      ensures (k in r.pins <==> k !in p1 && s.nodes[s.pins[k].nodeId].graphId in c.graphs)
      ensures k in r.pins ==> PinGraph(r, k) == PinGraph(s, k)
    {
      var o := s.pins[k].nodeId;
      assert o in s.nodes;
      assert k in DetachedPins(s, c.graphs) <==> s.nodes[o].graphId !in c.graphs;
      if k in r.pins {
        assert o in c.nodes;
        assert o !in listed;
        assert o in r.nodes && r.nodes[o] == s.nodes[o];
      }
    }
  }

  lemma FinishKeys(s: GraphState, c: Cascade, listed: set<string>, doomed: set<string>)
    requires KeysAreIds(s) && CascadeGraphs(s, c) && CascadeNodes(s, c) && CascadeEdges(s, c)
    ensures KeysAreIds(Finish(s, c, listed, doomed))
  {
  }

  lemma FinishPinsHaveNodes(s: GraphState, p1: set<string>, c: Cascade, listed: set<string>, doomed: set<string>, r: GraphState)
    requires r == Finish(s, c, listed, doomed)
    requires PinsHaveNodes(s) && CascadeNodes(s, c)
    requires c.pinIds == p1 + DetachedPins(s, c.graphs)
    requires forall k :: k in s.pins && s.pins[k].nodeId in listed ==> k in p1
    ensures PinsHaveNodes(r)
  {
    FinishPins(s, p1, c, listed, r);
    forall k | k in r.pins ensures r.pins[k].nodeId in r.nodes {
      assert PinGraph(r, k) == PinGraph(s, k);
    }
  }

  lemma FinishNodesListed(s: GraphState, c: Cascade, listed: set<string>, doomed: set<string>, r: GraphState)
    requires r == Finish(s, c, listed, doomed)
    requires NodesListed(s) && CascadeGraphs(s, c) && CascadeNodes(s, c)
    ensures NodesListed(r)
  {
    forall x | x in r.nodes ensures r.nodes[x].graphId in r.graphs && x in r.graphs[r.nodes[x].graphId].nodeIds {
      var h := s.nodes[x].graphId;
      PrunedMembers(c.nodes, c.graphs, listed, doomed, h);
    }
  }

  lemma FinishListedNodes(s: GraphState, c: Cascade, listed: set<string>, doomed: set<string>, r: GraphState)
    requires r == Finish(s, c, listed, doomed)
    requires ListedNodesExist(s) && CascadeGraphs(s, c) && CascadeNodes(s, c)
    ensures ListedNodesExist(r)
  {
    forall h, x | h in r.graphs && x in r.graphs[h].nodeIds ensures x in r.nodes && r.nodes[x].graphId == h {
      PrunedMembers(c.nodes, c.graphs, listed, doomed, h);
      assert x in s.graphs[h].nodeIds && x !in ListedIn(c.nodes, listed, h);
    }
  }

  /** What holds when the removal phase starts: the invariant, the cascade's invariant and the collected ids. */
  ghost predicate Removable(s: GraphState, p1: set<string>, c: Cascade, listed: set<string>, doomed: set<string>)
  {
    && NodesIntact(s) && EdgesIntact(s)
    && CascadeGraphs(s, c) && CascadeNodes(s, c) && CascadeEdges(s, c)
    && c.pinIds == p1 + DetachedPins(s, c.graphs)
    && (forall k :: k in s.pins && s.pins[k].nodeId in listed ==> k in p1)
    && (forall k :: k in p1 ==> k in s.pins && s.pins[k].nodeId in listed)
    && doomed == TouchingEdgeIds(s.edges, p1)
  }

  lemma FinishEdgesWired(s: GraphState, p1: set<string>, c: Cascade, listed: set<string>, doomed: set<string>, r: GraphState)
    requires r == Finish(s, c, listed, doomed)
    requires Removable(s, p1, c, listed, doomed)
    ensures EdgesWired(r)
  {
    EdgesKept(s, p1, c, listed, doomed, r);
    forall e | e in r.edges
      ensures Home(r, e).Some? && PinGraph(r, r.edges[e].toPinId) == Home(r, e)
      ensures Home(r, e).value in r.graphs && e in r.graphs[Home(r, e).value].edgeIds
    {
      PrunedMembers(c.nodes, c.graphs, listed, doomed, Home(s, e).value);
    }
  }

  lemma FinishListedEdges(s: GraphState, p1: set<string>, c: Cascade, listed: set<string>, doomed: set<string>, r: GraphState)
    requires r == Finish(s, c, listed, doomed)
    requires Removable(s, p1, c, listed, doomed)
    ensures ListedEdgesExist(r)
  {
    FinishPins(s, p1, c, listed, r);
    forall h, e | h in r.graphs && e in r.graphs[h].edgeIds ensures e in r.edges && Home(r, e) == Some(h) {
      ListedEdgeStays(s, p1, c, listed, doomed, r, h, e);
    }
  }


  /** An edge a kept graph still lists is left, in that graph. */
  lemma ListedEdgeStays(s: GraphState, p1: set<string>, c: Cascade, listed: set<string>, doomed: set<string>,
                        r: GraphState, h: string, e: string)
    requires KeysAreIds(s) && PinsHaveNodes(s) && EdgesIntact(s)
    requires CascadeGraphs(s, c) && CascadeNodes(s, c) && CascadeEdges(s, c)
    requires forall k :: k in p1 ==> k in s.pins && s.pins[k].nodeId in listed
    requires doomed == TouchingEdgeIds(s.edges, p1)
    requires r == Finish(s, c, listed, doomed) && PinsSurvive(s, p1, c, r)
    requires h in r.graphs && e in r.graphs[h].edgeIds
    ensures e in r.edges && Home(r, e) == Some(h)
  {
    ListedEdgeKept(s, p1, c, listed, doomed, h, e);
    EdgeKept(s, p1, c, doomed, r, e);
  }

  /** An edge still listed by a graph after deletion was not collected. */
  lemma ListedEdgeKept(s: GraphState, p1: set<string>, c: Cascade, listed: set<string>, doomed: set<string>, h: string, e: string)
    requires KeysAreIds(s) && EdgesIntact(s) && CascadeGraphs(s, c) && CascadeNodes(s, c) && CascadeEdges(s, c)
    requires forall k :: k in p1 ==> k in s.pins && s.pins[k].nodeId in listed
    requires doomed == TouchingEdgeIds(s.edges, p1)
    requires h in c.graphs && e in RemovalGraphs(c.nodes, c.graphs, listed, doomed)[h].edgeIds
    ensures e in c.edges - doomed && Home(s, e) == Some(h)
  {
    PrunedMembers(c.nodes, c.graphs, listed, doomed, h);
    assert e in s.graphs[h].edgeIds;
    if e in doomed {
      CollectedEdgeOwner(s, p1, c, listed, doomed, h, e);
    }
  }

  /** A collected edge of a kept graph `h` sits on a pin of a listed node of `h`. */
  lemma CollectedEdgeOwner(s: GraphState, p1: set<string>, c: Cascade, listed: set<string>, doomed: set<string>, h: string, e: string)
    requires KeysAreIds(s) && EdgesWired(s) && CascadeNodes(s, c)
    requires forall k :: k in p1 ==> k in s.pins && s.pins[k].nodeId in listed
    requires doomed == TouchingEdgeIds(s.edges, p1)
    requires h in c.graphs && e in doomed && Home(s, e) == Some(h)
    ensures ListedIn(c.nodes, listed, h) != {}
  {
    var q :| q in p1 && (q == s.edges[e].fromPinId || q == s.edges[e].toPinId);
    assert PinGraph(s, q) == Some(h);
    assert s.pins[q].nodeId in ListedIn(c.nodes, listed, h);
  }

  /** The edges left after deletion keep both endpoints and their graph. */
  lemma EdgesKept(s: GraphState, p1: set<string>, c: Cascade, listed: set<string>, doomed: set<string>, r: GraphState)
    requires Removable(s, p1, c, listed, doomed)
    requires r.nodes == c.nodes - listed && r.edges == c.edges - doomed && r.pins == s.pins - c.pinIds
    ensures forall e :: e in r.edges ==>
      r.edges[e] == s.edges[e] && Home(r, e) == Home(s, e) && PinGraph(r, r.edges[e].toPinId) == PinGraph(s, s.edges[e].toPinId)
  {
    FinishPins(s, p1, c, listed, r);
    forall e | e in r.edges
      ensures r.edges[e] == s.edges[e] && Home(r, e) == Home(s, e) && PinGraph(r, r.edges[e].toPinId) == PinGraph(s, s.edges[e].toPinId)
    {
      EdgeKept(s, p1, c, doomed, r, e);
    }
  }

  lemma EdgeKept(s: GraphState, p1: set<string>, c: Cascade, doomed: set<string>, r: GraphState, e: string)
    requires KeysAreIds(s) && PinsHaveNodes(s) && EdgesWired(s) && CascadeEdges(s, c)
    requires PinsSurvive(s, p1, c, r)
    requires doomed == TouchingEdgeIds(s.edges, p1)
    requires r.edges == c.edges - doomed && e in r.edges
    ensures r.edges[e] == s.edges[e] && Home(r, e) == Home(s, e) && PinGraph(r, r.edges[e].toPinId) == PinGraph(s, s.edges[e].toPinId)
  {
    var f := s.edges[e].fromPinId;
    var t := s.edges[e].toPinId;
    assert f !in p1 && t !in p1;
    assert f in r.pins && t in r.pins;
  }

  /** Deleting nodes keeps the store consistent. */
  lemma DeleteNodesConsistent(s: GraphState, ids: seq<string>)
    requires Consistent(s)
    ensures Consistent(DeleteNodesSpec(s, ids))
  {
    var p1 := OwnedPinIds(s.pins, Elems(ids));
    var e1 := TouchingEdgeIds(s.edges, p1);
    var c := CascadeAll(s.pins, Cascade(s.nodes, s.edges, s.graphs, p1), ids);
    CascadeAllInv(s, p1, ids);
    OwnedPinIdsMembers(s.pins, Elems(ids));
    assert DeleteNodesSpec(s, ids) == Finish(s, c, Elems(ids), e1);
    assert Removable(s, p1, c, Elems(ids), e1);
    FinishKeys(s, c, Elems(ids), e1);
    var r := Finish(s, c, Elems(ids), e1);
    FinishPinsHaveNodes(s, p1, c, Elems(ids), e1, r);
    FinishNodesListed(s, c, Elems(ids), e1, r);
    FinishListedNodes(s, c, Elems(ids), e1, r);
    FinishEdgesWired(s, p1, c, Elems(ids), e1, r);
    FinishListedEdges(s, p1, c, Elems(ids), e1, r);
  }
}
