/**
 * The graph validator: advisory warnings for one graph, four rules per listed node
 * followed by the broken-edge rule per listed edge. It only reads the store.
 */
module Validator {
  import opened Wrappers
  import opened Json
  import opened Strings
  import opened Types
  import opened GraphOps

  datatype Warning = Warning(nodeId: string, message: string, rule: string)

  const ChoiceMinEdges := "choice-min-edges"
  const ChoiceEdgeLabel := "choice-edge-label"
  const EndNoOutput := "end-no-output"
  const JumpNeedsTarget := "jump-needs-target"
  const BrokenEdge := "broken-edge"

  // ---------------------------------------------------------------------------
  // What the rules look at
  // ---------------------------------------------------------------------------

  /** The ids of the node's `out` pins, found among all pins by their `nodeId`. */
  function OutputPinIds(pins: map<string, Pin>, nodeId: string): set<string>
  {
    set k | k in pins && pins[k].nodeId == nodeId && pins[k].direction == Out :: pins[k].id
  }

  /** The keys of the edges whose source is one of the node's output pins. */
  function OutgoingEdges(s: GraphState, nodeId: string): set<string>
  {
    set k | k in s.edges && s.edges[k].fromPinId in OutputPinIds(s.pins, nodeId)
  }

  /** `!edge.label?.trim()`: no label, or one made only of whitespace. */
  predicate BlankLabel(e: Edge)
  {
    e.labelText.None? || Trim(e.labelText.value) == ""
  }

  function UnlabeledEdges(s: GraphState, nodeId: string): set<string>
  {
    set k | k in OutgoingEdges(s, nodeId) && BlankLabel(s.edges[k])
  }

  /** `node.data.type === 'jump' && !node.data.targetNodeId`. */
  predicate JumpWithoutTarget(data: seq<Field>)
  {
    Lookup(data, "type") == Some(JStr(NodeTypeName(Jump))) &&
    var target := Lookup(data, "targetNodeId");
    target.None? || !Truthy(target.value)
  }

  // ---------------------------------------------------------------------------
  // The rules
  // ---------------------------------------------------------------------------

  function Repeat(w: Warning, n: nat): (r: seq<Warning>)
    ensures |r| == n && forall i :: 0 <= i < n ==> r[i] == w
  {
    if n == 0 then [] else Repeat(w, n - 1) + [w]
  }

  function ChoiceMinWarning(nodeId: string, n: nat): Warning
  {
    Warning(nodeId, "Choice node has " + NatToString(n) + " outgoing edge(s), needs at least 2", ChoiceMinEdges)
  }

  /**
   * The four node rules, in order, for a node of `kind` with `n` outgoing edges, `unlabeled`
   * of them without a label, and `noTarget` when it is a jump without a target.
   */
  function RuleWarnings(nodeId: string, kind: NodeType, n: nat, unlabeled: nat, noTarget: bool): seq<Warning>
  {
    (if kind == Choice && n < 2 then [ChoiceMinWarning(nodeId, n)] else [])
    + (if kind == Choice then Repeat(Warning(nodeId, "Choice edge missing label", ChoiceEdgeLabel), unlabeled) else [])
    + (if kind == End && n > 0 then [Warning(nodeId, "End node should have no outgoing edges", EndNoOutput)] else [])
    + (if kind == Jump && noTarget then [Warning(nodeId, "Jump node has no target", JumpNeedsTarget)] else [])
  }

  /** The warnings for one listed node id, in rule order; none for a missing node. */
  function NodeWarnings(s: GraphState, nodeId: string): seq<Warning>
  {
    if nodeId !in s.nodes then []
    else
      var node := s.nodes[nodeId];
      RuleWarnings(nodeId, node.kind, |OutgoingEdges(s, nodeId)|, |UnlabeledEdges(s, nodeId)|,
                   node.kind == Jump && JumpWithoutTarget(node.data))
  }

  /** The warnings for one listed edge id: one per side whose pin is missing. */
  function EdgeWarnings(s: GraphState, edgeId: string): seq<Warning>
  {
    if edgeId !in s.edges then []
    else
      var e := s.edges[edgeId];
      (if e.fromPinId !in s.pins then [Warning("", "Edge " + e.id + " references non-existent source pin", BrokenEdge)] else [])
      + (if e.toPinId !in s.pins then [Warning("", "Edge " + e.id + " references non-existent target pin", BrokenEdge)] else [])
  }

  function AllNodeWarnings(s: GraphState, ids: seq<string>): seq<Warning>
  {
    if ids == [] then [] else AllNodeWarnings(s, ids[..|ids| - 1]) + NodeWarnings(s, ids[|ids| - 1])
  }

  function AllEdgeWarnings(s: GraphState, ids: seq<string>): seq<Warning>
  {
    if ids == [] then [] else AllEdgeWarnings(s, ids[..|ids| - 1]) + EdgeWarnings(s, ids[|ids| - 1])
  }

  /** What `validateGraph` returns for a graph id. */
  function Validation(s: GraphState, graphId: string): seq<Warning>
  {
    if graphId !in s.graphs then []
    else AllNodeWarnings(s, s.graphs[graphId].nodeIds) + AllEdgeWarnings(s, s.graphs[graphId].edgeIds)
  }

  // ---------------------------------------------------------------------------
  // validateGraph
  // ---------------------------------------------------------------------------

  /** The output-pin filter: a pass over all pins. */
  method CollectOutputPins(pins: map<string, Pin>, nodeId: string) returns (ids: set<string>)
    ensures ids == OutputPinIds(pins, nodeId)
  {
    ids := {};
    var rest := pins.Keys;
    while rest != {}
      invariant rest <= pins.Keys
      invariant ids == set k | k in pins && k !in rest && pins[k].nodeId == nodeId && pins[k].direction == Out :: pins[k].id
      decreases |rest|
    {
      var k :| k in rest;
      if pins[k].nodeId == nodeId && pins[k].direction == Out {
        ids := ids + {pins[k].id};
      }
      rest := rest - {k};
    }
  }

  /** The edges already looked at, outside `rest`, whose source is one of `pinIds`. */
  ghost function Picked(edges: map<string, Edge>, rest: set<string>, pinIds: set<string>): set<string>
  {
    set k | k in edges && k !in rest && edges[k].fromPinId in pinIds
  }

  /** The edges of `ks` without a label. */
  ghost function BlankOf(edges: map<string, Edge>, ks: set<string>): set<string>
  {
    set k | k in ks && k in edges && BlankLabel(edges[k])
  }

  /** Looking at one more edge adds it to the picked edges when its source is one of `pinIds`. */
  lemma PickStep(edges: map<string, Edge>, rest: set<string>, pinIds: set<string>, k: string)
    requires k in rest && rest <= edges.Keys
    ensures var p := Picked(edges, rest, pinIds);
      var q := Picked(edges, rest - {k}, pinIds);
      k !in p &&
      q == (if edges[k].fromPinId in pinIds then p + {k} else p) &&
      BlankOf(edges, q) == (if edges[k].fromPinId in pinIds && BlankLabel(edges[k]) then BlankOf(edges, p) + {k} else BlankOf(edges, p))
  {
  }

  /** The outgoing-edge filter: counts the outgoing edges and those of them without a label. */
  method CountOutgoing(s: GraphState, nodeId: string) returns (count: nat, unlabeled: nat)
    ensures count == |OutgoingEdges(s, nodeId)| && unlabeled == |UnlabeledEdges(s, nodeId)|
  {
    var outputPins := CollectOutputPins(s.pins, nodeId);
    count, unlabeled := 0, 0;
    ghost var seen: set<string> := {};
    ghost var blank: set<string> := {};
    var rest := s.edges.Keys;
    while rest != {}
      invariant rest <= s.edges.Keys
      invariant seen == Picked(s.edges, rest, outputPins)
      invariant blank == BlankOf(s.edges, seen)
      invariant count == |seen| && unlabeled == |blank|
      decreases |rest|
    {
      var k :| k in rest;
      PickStep(s.edges, rest, outputPins, k);
      assert k !in seen && k !in blank;
      if s.edges[k].fromPinId in outputPins {
        seen := seen + {k};
        count := count + 1;
        if BlankLabel(s.edges[k]) {
          blank := blank + {k};
          unlabeled := unlabeled + 1;
        }
      }
      rest := rest - {k};
    }
    assert seen == OutgoingEdges(s, nodeId);
    assert blank == UnlabeledEdges(s, nodeId);
  }

  /** The body of the node loop: the four node rules, in order. */
  method CheckNode(s: GraphState, nodeId: string) returns (forNode: seq<Warning>)
    requires nodeId in s.nodes
    ensures forNode == NodeWarnings(s, nodeId)
  {
    var node := s.nodes[nodeId];
    var n, unlabeled := CountOutgoing(s, nodeId);
    forNode := [];
    if node.kind == Choice && n < 2 {
      forNode := forNode + [ChoiceMinWarning(nodeId, n)];
    }
    ghost var minPart := forNode;
    if node.kind == Choice {
      var j := 0;
      while j < unlabeled
        invariant 0 <= j <= unlabeled
        invariant forNode == minPart + Repeat(Warning(nodeId, "Choice edge missing label", ChoiceEdgeLabel), j)
      {
        forNode := forNode + [Warning(nodeId, "Choice edge missing label", ChoiceEdgeLabel)];
        j := j + 1;
      }
    }
    if node.kind == End && n > 0 {
      forNode := forNode + [Warning(nodeId, "End node should have no outgoing edges", EndNoOutput)];
    }
    if node.kind == Jump && JumpWithoutTarget(node.data) {
      forNode := forNode + [Warning(nodeId, "Jump node has no target", JumpNeedsTarget)];
    }
  }

  /** The node loop of `validateGraph`. */
  method CheckNodes(s: GraphState, nodeIds: seq<string>) returns (warnings: seq<Warning>)
    ensures warnings == AllNodeWarnings(s, nodeIds)
  {
    warnings := [];
    var i := 0;
    while i < |nodeIds|
      invariant 0 <= i <= |nodeIds|
      invariant warnings == AllNodeWarnings(s, nodeIds[..i])
    {
      var nodeId := nodeIds[i];
      assert nodeIds[..i + 1][..i] == nodeIds[..i];
      if nodeId in s.nodes {
        var forNode := CheckNode(s, nodeId);
        warnings := warnings + forNode;
      }
      i := i + 1;
    }
    assert nodeIds[..|nodeIds|] == nodeIds;
  }

  /** The edge loop of `validateGraph`: the broken-edge rule. */
  method CheckEdges(s: GraphState, edgeIds: seq<string>) returns (warnings: seq<Warning>)
    ensures warnings == AllEdgeWarnings(s, edgeIds)
  {
    warnings := [];
    var i := 0;
    while i < |edgeIds|
      invariant 0 <= i <= |edgeIds|
      invariant warnings == AllEdgeWarnings(s, edgeIds[..i])
    {
      var edgeId := edgeIds[i];
      assert edgeIds[..i + 1][..i] == edgeIds[..i];
      if edgeId in s.edges {
        var edge := s.edges[edgeId];
        if edge.fromPinId !in s.pins {
          warnings := warnings + [Warning("", "Edge " + edge.id + " references non-existent source pin", BrokenEdge)];
        }
        if edge.toPinId !in s.pins {
          warnings := warnings + [Warning("", "Edge " + edge.id + " references non-existent target pin", BrokenEdge)];
        }
      }
      i := i + 1;
    }
    assert edgeIds[..|edgeIds|] == edgeIds;
  }

  /** `validateGraph` over a snapshot of the graph store. */
  method ValidateGraph(s: GraphState, graphId: string) returns (warnings: seq<Warning>)
    ensures warnings == Validation(s, graphId)
  {
    if graphId !in s.graphs {
      return [];
    }
    var graph := s.graphs[graphId];
    var nodePart := CheckNodes(s, graph.nodeIds);
    var edgePart := CheckEdges(s, graph.edgeIds);
    warnings := nodePart + edgePart;
  }

  // ---------------------------------------------------------------------------
  // What the rules promise
  // ---------------------------------------------------------------------------

  /** The number of warnings of one rule. */
  function RuleCount(ws: seq<Warning>, rule: string): nat
  {
    if ws == [] then 0 else RuleCount(ws[..|ws| - 1], rule) + (if ws[|ws| - 1].rule == rule then 1 else 0)
  }

  lemma {:induction false} RuleCountConcat(a: seq<Warning>, b: seq<Warning>, rule: string)
    ensures RuleCount(a + b, rule) == RuleCount(a, rule) + RuleCount(b, rule)
    decreases |b|
  {
    if b == [] {
      assert a + b == a;
    } else {
      assert (a + b)[..|a + b| - 1] == a + b[..|b| - 1];
      RuleCountConcat(a, b[..|b| - 1], rule);
    }
  }

  lemma {:induction false} RuleCountRepeat(w: Warning, n: nat, rule: string)
    ensures RuleCount(Repeat(w, n), rule) == if w.rule == rule then n else 0
  {
    if n > 0 {
      assert Repeat(w, n)[..n - 1] == Repeat(w, n - 1);
      RuleCountRepeat(w, n - 1, rule);
    }
  }

  lemma RuleCountParts(a: seq<Warning>, b: seq<Warning>, c: seq<Warning>, d: seq<Warning>, rule: string)
    ensures RuleCount(a + b + c + d, rule) == RuleCount(a, rule) + RuleCount(b, rule) + RuleCount(c, rule) + RuleCount(d, rule)
  {
    RuleCountConcat(a, b, rule);
    RuleCountConcat(a + b, c, rule);
    RuleCountConcat(a + b + c, d, rule);
  }

  /**
   * How many warnings of each rule one listed node gets: one `choice-min-edges` for a
   * choice with fewer than two outgoing edges, one `choice-edge-label` per unlabeled
   * outgoing edge of a choice, one `end-no-output` for an end node with an outgoing
   * edge, one `jump-needs-target` for a jump without target; none for a missing node.
   */
  lemma NodeRuleCounts(s: GraphState, nodeId: string)
    ensures nodeId !in s.nodes ==> NodeWarnings(s, nodeId) == []
    ensures nodeId in s.nodes ==>
      var node := s.nodes[nodeId];
      var n := |OutgoingEdges(s, nodeId)|;
      && RuleCount(NodeWarnings(s, nodeId), ChoiceMinEdges) == (if node.kind == Choice && n < 2 then 1 else 0)
      && RuleCount(NodeWarnings(s, nodeId), ChoiceEdgeLabel) == (if node.kind == Choice then |UnlabeledEdges(s, nodeId)| else 0)
      && RuleCount(NodeWarnings(s, nodeId), EndNoOutput) == (if node.kind == End && n > 0 then 1 else 0)
      && RuleCount(NodeWarnings(s, nodeId), JumpNeedsTarget) == (if node.kind == Jump && JumpWithoutTarget(node.data) then 1 else 0)
      && RuleCount(NodeWarnings(s, nodeId), BrokenEdge) == 0
  {
    if nodeId in s.nodes {
      var node := s.nodes[nodeId];
      RuleWarningCounts(nodeId, node.kind, |OutgoingEdges(s, nodeId)|, |UnlabeledEdges(s, nodeId)|,
                        node.kind == Jump && JumpWithoutTarget(node.data));
    }
  }

  /** How many warnings of each rule the four node rules give. */
  lemma RuleWarningCounts(nodeId: string, kind: NodeType, n: nat, unlabeled: nat, noTarget: bool)
    ensures var ws := RuleWarnings(nodeId, kind, n, unlabeled, noTarget);
      && RuleCount(ws, ChoiceMinEdges) == (if kind == Choice && n < 2 then 1 else 0)
      && RuleCount(ws, ChoiceEdgeLabel) == (if kind == Choice then unlabeled else 0)
      && RuleCount(ws, EndNoOutput) == (if kind == End && n > 0 then 1 else 0)
      && RuleCount(ws, JumpNeedsTarget) == (if kind == Jump && noTarget then 1 else 0)
      && RuleCount(ws, BrokenEdge) == 0
  {
    var a := if kind == Choice && n < 2 then [ChoiceMinWarning(nodeId, n)] else [];
    var w := Warning(nodeId, "Choice edge missing label", ChoiceEdgeLabel);
    var b := if kind == Choice then Repeat(w, unlabeled) else [];
    var c := if kind == End && n > 0 then [Warning(nodeId, "End node should have no outgoing edges", EndNoOutput)] else [];
    var d := if kind == Jump && noTarget then [Warning(nodeId, "Jump node has no target", JumpNeedsTarget)] else [];
    forall rule | rule in {ChoiceMinEdges, ChoiceEdgeLabel, EndNoOutput, JumpNeedsTarget, BrokenEdge}
      ensures RuleCount(a + b + c + d, rule) == RuleCount(a, rule) + RuleCount(b, rule) + RuleCount(c, rule) + RuleCount(d, rule)
    {
      RuleCountParts(a, b, c, d, rule);
    }
    RuleCountRepeat(w, unlabeled, ChoiceMinEdges);
    RuleCountRepeat(w, unlabeled, ChoiceEdgeLabel);
    RuleCountRepeat(w, unlabeled, BrokenEdge);
    RuleCountRepeat(w, unlabeled, EndNoOutput);
    RuleCountRepeat(w, unlabeled, JumpNeedsTarget);
  }

  /** The number of sides of a listed edge whose pin is missing. */
  function MissingSides(s: GraphState, edgeId: string): nat
  {
    if edgeId !in s.edges then 0
    else (if s.edges[edgeId].fromPinId !in s.pins then 1 else 0) + (if s.edges[edgeId].toPinId !in s.pins then 1 else 0)
  }

  /** A listed edge gets one `broken-edge` warning, with an empty node id, per missing side. */
  lemma EdgeRuleCounts(s: GraphState, edgeId: string)
    ensures |EdgeWarnings(s, edgeId)| == MissingSides(s, edgeId)
    ensures forall i :: 0 <= i < |EdgeWarnings(s, edgeId)| ==> EdgeWarnings(s, edgeId)[i].rule == BrokenEdge && EdgeWarnings(s, edgeId)[i].nodeId == ""
  {
  }

  /** Every broken-edge warning comes after every node warning, and only those have that rule. */
  lemma {:induction false} BrokenEdgesLast(s: GraphState, graphId: string)
    requires graphId in s.graphs
    ensures var ws := Validation(s, graphId);
      var k := |AllNodeWarnings(s, s.graphs[graphId].nodeIds)|;
      && (forall i :: 0 <= i < k ==> ws[i].rule != BrokenEdge)
      && (forall i :: k <= i < |ws| ==> ws[i].rule == BrokenEdge && ws[i].nodeId == "")
  {
    NodePartRules(s, s.graphs[graphId].nodeIds);
    EdgePartRules(s, s.graphs[graphId].edgeIds);
  }

  lemma {:induction false} NodePartRules(s: GraphState, ids: seq<string>)
    ensures forall i :: 0 <= i < |AllNodeWarnings(s, ids)| ==> AllNodeWarnings(s, ids)[i].rule != BrokenEdge
  {
    if ids != [] {
      NodePartRules(s, ids[..|ids| - 1]);
      NodeRules(s, ids[|ids| - 1]);
    }
  }

  lemma NodeRules(s: GraphState, nodeId: string)
    ensures forall i :: 0 <= i < |NodeWarnings(s, nodeId)| ==> NodeWarnings(s, nodeId)[i].rule != BrokenEdge
  {
  }

  lemma {:induction false} EdgePartRules(s: GraphState, ids: seq<string>)
    ensures forall i :: 0 <= i < |AllEdgeWarnings(s, ids)| ==> AllEdgeWarnings(s, ids)[i].rule == BrokenEdge && AllEdgeWarnings(s, ids)[i].nodeId == ""
  {
    if ids != [] {
      EdgePartRules(s, ids[..|ids| - 1]);
      EdgeRuleCounts(s, ids[|ids| - 1]);
    }
  }

  /** A node is clean when none of the four node rules fires for it. */
  predicate CleanNode(s: GraphState, nodeId: string)
  {
    nodeId in s.nodes ==>
      var node := s.nodes[nodeId];
      && (node.kind == Choice ==> |OutgoingEdges(s, nodeId)| >= 2 && UnlabeledEdges(s, nodeId) == {})
      && (node.kind == End ==> OutgoingEdges(s, nodeId) == {})
      && (node.kind == Jump ==> !JumpWithoutTarget(node.data))
  }

  /**
   * A graph has no warnings exactly when it is unknown, or every listed node is clean and
   * every listed edge that exists has both its pins.
   */
  lemma NoWarningsIff(s: GraphState, graphId: string)
    ensures Validation(s, graphId) == [] <==>
      graphId !in s.graphs ||
      ((forall i :: 0 <= i < |s.graphs[graphId].nodeIds| ==> CleanNode(s, s.graphs[graphId].nodeIds[i])) &&
       (forall i :: 0 <= i < |s.graphs[graphId].edgeIds| ==> MissingSides(s, s.graphs[graphId].edgeIds[i]) == 0))
  {
    if graphId in s.graphs {
      NodesQuiet(s, s.graphs[graphId].nodeIds);
      EdgesQuiet(s, s.graphs[graphId].edgeIds);
    }
  }

  lemma {:induction false} NodesQuiet(s: GraphState, ids: seq<string>)
    ensures AllNodeWarnings(s, ids) == [] <==> forall i :: 0 <= i < |ids| ==> CleanNode(s, ids[i])
  {
    if ids != [] {
      var init := ids[..|ids| - 1];
      NodesQuiet(s, init);
      NodeQuiet(s, ids[|ids| - 1]);
      assert forall i :: 0 <= i < |init| ==> init[i] == ids[i];
      if forall i :: 0 <= i < |init| ==> CleanNode(s, init[i]) {
        if CleanNode(s, ids[|ids| - 1]) {
          forall i | 0 <= i < |ids| ensures CleanNode(s, ids[i]) {
            if i < |init| {
              assert CleanNode(s, init[i]);
            }
          }
        }
      }
    }
  }

  lemma NodeQuiet(s: GraphState, nodeId: string)
    ensures NodeWarnings(s, nodeId) == [] <==> CleanNode(s, nodeId)
  {
    if nodeId in s.nodes {
      var w := Warning(nodeId, "Choice edge missing label", ChoiceEdgeLabel);
      var u := |UnlabeledEdges(s, nodeId)|;
      assert |Repeat(w, u)| == u;
    }
  }

  lemma {:induction false} EdgesQuiet(s: GraphState, ids: seq<string>)
    ensures AllEdgeWarnings(s, ids) == [] <==> forall i :: 0 <= i < |ids| ==> MissingSides(s, ids[i]) == 0
  {
    if ids != [] {
      var init := ids[..|ids| - 1];
      EdgesQuiet(s, init);
      EdgeRuleCounts(s, ids[|ids| - 1]);
      assert forall i :: 0 <= i < |init| ==> init[i] == ids[i];
      if forall i :: 0 <= i < |init| ==> MissingSides(s, init[i]) == 0 {
        if MissingSides(s, ids[|ids| - 1]) == 0 {
          forall i | 0 <= i < |ids| ensures MissingSides(s, ids[i]) == 0 {
            if i < |init| {
              assert MissingSides(s, init[i]) == 0;
            }
          }
        }
      }
    }
  }
}
