/**
 * Undo/redo history of the graph store: a bounded stack of past snapshots and a
 * stack of future snapshots, recorded on every tracked state change.
 */
module History {
  import opened Wrappers

  /** Maximum number of past snapshots kept. */
  const Limit: nat := 100

  /** The two stacks; the most recent snapshot is last in each. */
  datatype Timeline<S> = Timeline(past: seq<S>, future: seq<S>)

  predicate Bounded<S>(t: Timeline<S>)
  {
    |t.past| + |t.future| <= Limit
  }

  /**
   * Records the snapshot taken before a change: pushes it, drops the oldest
   * when over the limit, and clears the redo stack.
   */
  function Record<S>(t: Timeline<S>, before: S): (r: Timeline<S>)
    ensures r.future == []
    ensures |r.past| > 0 && r.past[|r.past| - 1] == before
    ensures |t.past| < Limit ==> r.past == t.past + [before]
    ensures |t.past| == Limit ==> r.past == t.past[1..] + [before]
    ensures |t.past| <= Limit ==> Bounded(r)
  {
    var p := t.past + [before];
    Timeline(if |p| > Limit then p[1..] else p, [])
  }

  /** What a state change does to the stacks: it records `before` unless paused. */
  function Log<S>(t: Timeline<S>, tracking: bool, before: S): (r: Timeline<S>)
    ensures !tracking ==> r == t
    ensures tracking ==> r.future == [] && |r.past| > 0 && r.past[|r.past| - 1] == before
  {
    if tracking then Record(t, before) else t
  }

  /**
   * Steps back: the last past snapshot is returned for the store to apply and
   * the current state goes onto the future stack. `None` when there is nothing to undo.
   */
  function UndoStep<S>(t: Timeline<S>, current: S): (Timeline<S>, Option<S>)
  {
    if t.past == [] then (t, None)
    else (Timeline(t.past[..|t.past| - 1], t.future + [current]), Some(t.past[|t.past| - 1]))
  }

  /** Steps forward: the mirror image of `UndoStep`. */
  function RedoStep<S>(t: Timeline<S>, current: S): (Timeline<S>, Option<S>)
  {
    if t.future == [] then (t, None)
    else (Timeline(t.past + [current], t.future[..|t.future| - 1]), Some(t.future[|t.future| - 1]))
  }

  /** Undo and redo move one snapshot between the stacks and keep the total bounded. */
  lemma UndoRedoKeepBound<S>(t: Timeline<S>, current: S)
    requires Bounded(t)
    ensures Bounded(UndoStep(t, current).0) && Bounded(RedoStep(t, current).0)
  {
  }

  /** Undoing right after a recorded change gives back the state before it. */
  lemma UndoAfterRecord<S>(t: Timeline<S>, before: S, after: S)
    ensures UndoStep(Record(t, before), after).1 == Some(before)
    ensures UndoStep(Record(t, before), after).0.future == [after]
  {
  }

  /** Redo undoes an undo: stacks and current state come back exactly. */
  lemma RedoAfterUndo<S>(t: Timeline<S>, current: S)
    requires t.past != []
    ensures var (t', prev) := UndoStep(t, current);
      prev.Some? && RedoStep(t', prev.value) == (t, Some(current))
  {
    var (t', prev) := UndoStep(t, current);
    assert t'.past + [prev.value] == t.past;
  }

  /** Undo undoes a redo. */
  lemma UndoAfterRedo<S>(t: Timeline<S>, current: S)
    requires t.future != []
    ensures var (t', next) := RedoStep(t, current);
      next.Some? && UndoStep(t', next.value) == (t, Some(current))
  {
    var (t', next) := RedoStep(t, current);
    assert t'.future + [next.value] == t.future;
  }

  /** The recorder the store writes through; paused, it records nothing. */
  class Temporal<S> {
    var past: seq<S>
    var future: seq<S>
    var tracking: bool

    ghost predicate Valid()
      reads this
    {
      Bounded(Timeline(past, future))
    }

    constructor ()
      ensures Valid() && past == [] && future == [] && tracking
    {
      past, future, tracking := [], [], true;
    }

    function Stacks(): Timeline<S>
      reads this
    {
      Timeline(past, future)
    }

    /** Called by every state change with the snapshot taken before it. */
    method Track(before: S)
      requires Valid()
      modifies this
      ensures Valid() && tracking == old(tracking)
      ensures Stacks() == Log(old(Stacks()), old(tracking), before)
    {
      if tracking {
        var t := Record(Stacks(), before);
        past, future := t.past, t.future;
      }
    }

    method Pause()
      modifies this
      ensures !tracking && Stacks() == old(Stacks())
    {
      tracking := false;
    }

    method Resume()
      modifies this
      ensures tracking && Stacks() == old(Stacks())
    {
      tracking := true;
    }

    method Clear()
      modifies this
      ensures Valid() && past == [] && future == [] && tracking == old(tracking)
    {
      past, future := [], [];
    }

    /** Pops the snapshot to restore and pushes `current` for redo. */
    method Undo(current: S) returns (restore: Option<S>)
      requires Valid()
      modifies this
      ensures Valid() && tracking == old(tracking)
      ensures (Stacks(), restore) == UndoStep(old(Stacks()), current)
    {
      UndoRedoKeepBound(Stacks(), current);
      var (t, r) := UndoStep(Stacks(), current);
      past, future, restore := t.past, t.future, r;
    }

    method Redo(current: S) returns (restore: Option<S>)
      requires Valid()
      modifies this
      ensures Valid() && tracking == old(tracking)
      ensures (Stacks(), restore) == RedoStep(old(Stacks()), current)
    {
      UndoRedoKeepBound(Stacks(), current);
      var (t, r) := RedoStep(Stacks(), current);
      past, future, restore := t.past, t.future, r;
    }
  }
}
