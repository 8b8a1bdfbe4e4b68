/**
 * The UI store: the canvas viewport, the current selection, the stack of graphs the
 * user has entered (container nodes open their inner graph) and the viewport last
 * seen in each graph.
 */
module UIStore {
  import opened Wrappers

  /** Pan offset and zoom of the canvas. */
  datatype Viewport = Viewport(x: int, y: int, zoom: int)

  const InitialViewport := Viewport(0, 0, 1)

  datatype Panel = Properties | NoPanel

  /** Everything the store holds, as one value. */
  datatype UIState = UIState(
    viewport: Viewport,
    selectedNodeIds: seq<string>,
    selectedEdgeIds: seq<string>,
    navigationStack: seq<string>,
    activePanel: Panel,
    graphViewports: map<string, Viewport>)

  /** `[...stack, graphId]`. */
  function Push(stack: seq<string>, graphId: string): (r: seq<string>)
    ensures |r| == |stack| + 1 && r[|stack|] == graphId && r[..|stack|] == stack
  {
    stack + [graphId]
  }

  /** `popNavigation`: the last entry and the stack without it, or nothing on an empty stack. */
  function Pop(stack: seq<string>): (r: (Option<string>, seq<string>))
    ensures stack == [] ==> r == (None, stack)
    ensures stack != [] ==> r.0 == Some(stack[|stack| - 1]) && r.1 + [stack[|stack| - 1]] == stack
  {
    if stack == [] then (None, stack) else (Some(stack[|stack| - 1]), stack[..|stack| - 1])
  }

  /** Popping right after a push gives back the pushed graph and the stack as it was. */
  lemma PopAfterPush(stack: seq<string>, graphId: string)
    ensures Pop(Push(stack, graphId)) == (Some(graphId), stack)
  {
    assert Push(stack, graphId)[..|stack|] == stack;
  }

  /** Pushing back what was popped restores the stack. */
  lemma PushAfterPop(stack: seq<string>)
    requires stack != []
    ensures Push(Pop(stack).1, Pop(stack).0.value) == stack
  {
  }

  /** `graphViewports[graphId]`: the viewport saved for the graph, if any. */
  function Restore(memo: map<string, Viewport>, graphId: string): (r: Option<Viewport>)
    ensures r.Some? <==> graphId in memo
    ensures r.Some? ==> r.value == memo[graphId]
  {
    if graphId in memo then Some(memo[graphId]) else None
  }

  /** After saving `v` for `g`, restoring `g` gives `v` and every other graph gives what it gave before. */
  lemma RestoreAfterSave(memo: map<string, Viewport>, g: string, v: Viewport, h: string)
    ensures Restore(memo[g := v], h) == if h == g then Some(v) else Restore(memo, h)
  {
  }

  class Store {
    var viewport: Viewport
    var selectedNodeIds: seq<string>
    var selectedEdgeIds: seq<string>
    var navigationStack: seq<string>
    var activePanel: Panel
    var graphViewports: map<string, Viewport>

    function State(): UIState
      reads this
    {
      UIState(viewport, selectedNodeIds, selectedEdgeIds, navigationStack, activePanel, graphViewports)
    }

    constructor ()
      ensures State() == UIState(InitialViewport, [], [], [], Properties, map[])
    {
      viewport := InitialViewport;
      selectedNodeIds, selectedEdgeIds, navigationStack := [], [], [];
      activePanel := Properties;
      graphViewports := map[];
    }

    method SetViewport(v: Viewport)
      modifies this
      ensures State() == old(State()).(viewport := v)
    {
      viewport := v;
    }

    /** Replaces both selection lists. */
    method SetSelection(nodeIds: seq<string>, edgeIds: seq<string>)
      modifies this
      ensures State() == old(State()).(selectedNodeIds := nodeIds, selectedEdgeIds := edgeIds)
    {
      selectedNodeIds, selectedEdgeIds := nodeIds, edgeIds;
    }

    method PushNavigation(graphId: string)
      modifies this
      ensures State() == old(State()).(navigationStack := Push(old(navigationStack), graphId))
    {
      navigationStack := navigationStack + [graphId];
    }

    /** Removes and returns the top of the stack; on an empty stack returns nothing and changes nothing. */
    method PopNavigation() returns (popped: Option<string>)
      modifies this
      ensures popped == Pop(old(navigationStack)).0
      ensures State() == old(State()).(navigationStack := Pop(old(navigationStack)).1)
    {
      if |navigationStack| == 0 {
        return None;
      }
      var stack := navigationStack;
      popped := Some(stack[|stack| - 1]);
      stack := stack[..|stack| - 1];
      navigationStack := stack;
    }

    method SaveGraphViewport(graphId: string, v: Viewport)
      modifies this
      ensures State() == old(State()).(graphViewports := old(graphViewports)[graphId := v])
    {
      graphViewports := graphViewports[graphId := v];
    }

    /** The viewport last saved for `graphId`, if any; reads the store and changes nothing. */
    function RestoreGraphViewport(graphId: string): (r: Option<Viewport>)
      reads this
      ensures r.Some? <==> graphId in graphViewports
      ensures r.Some? ==> r.value == graphViewports[graphId]
    {
      Restore(graphViewports, graphId)
    }
  }
}
