/**
 * The project hierarchy: an ordered forest of tree nodes and the helpers the project
 * store uses to edit it. Every helper returns a new forest.
 */
module Tree {
  import opened Wrappers
  import opened Types
  import opened Lists

  /** The ids of the top-level nodes, in order. */
  function TopIds(nodes: seq<TreeNode>): (r: seq<string>)
    ensures |r| == |nodes| && forall i :: 0 <= i < |nodes| ==> r[i] == nodes[i].id
  {
    seq(|nodes|, i requires 0 <= i < |nodes| => nodes[i].id)
  }

  lemma TopIdsCons(n: TreeNode, ns: seq<TreeNode>)
    ensures TopIds([n] + ns) == [n.id] + TopIds(ns)
  {
    assert forall i :: 1 <= i <= |ns| ==> ([n] + ns)[i] == ns[i - 1];
  }

  /** `containsNode`: some node, at any depth, has id `x`. */
  predicate Contains(nodes: seq<TreeNode>, x: string)
    decreases nodes
  {
    nodes != [] && (nodes[0].id == x || Contains(nodes[0].children, x) || Contains(nodes[1..], x))
  }

  /** The number of nodes, at any depth, with id `x`. */
  function Count(nodes: seq<TreeNode>, x: string): nat
    decreases nodes
  {
    if nodes == [] then 0
    else (if nodes[0].id == x then 1 else 0) + Count(nodes[0].children, x) + Count(nodes[1..], x)
  }

  lemma {:induction false} ContainsIffCount(nodes: seq<TreeNode>, x: string)
    ensures Contains(nodes, x) <==> Count(nodes, x) > 0
    decreases nodes
  {
    if nodes != [] {
      ContainsIffCount(nodes[0].children, x);
      ContainsIffCount(nodes[1..], x);
    }
  }

  /** `n` is one of the nodes of the forest, at some depth, verbatim. */
  predicate Occurs(nodes: seq<TreeNode>, n: TreeNode)
    decreases nodes
  {
    nodes != [] && (nodes[0] == n || Occurs(nodes[0].children, n) || Occurs(nodes[1..], n))
  }

  /**
   * The first node with id `x` in document order (a node before its children, its
   * children before its later siblings).
   */
  function Find(nodes: seq<TreeNode>, x: string): (r: Option<TreeNode>)
    ensures r.Some? <==> Contains(nodes, x)
    ensures r.Some? ==> r.value.id == x && Occurs(nodes, r.value)
    decreases nodes
  {
    if nodes == [] then None
    else if nodes[0].id == x then Some(nodes[0])
    else
      var below := Find(nodes[0].children, x);
      if below.Some? then below else Find(nodes[1..], x)
  }

  // ---------------------------------------------------------------------------
  // findAndRemoveNode
  // ---------------------------------------------------------------------------

  datatype Removal = Removal(remaining: seq<TreeNode>, removed: Option<TreeNode>)

  /**
   * Some occurrence of `x` lies outside every node with id `id`: the nodes that survive
   * removing `id` are exactly these.
   */
  predicate Outside(nodes: seq<TreeNode>, id: string, x: string)
    decreases nodes
  {
    nodes != [] &&
    ((nodes[0].id != id && (nodes[0].id == x || Outside(nodes[0].children, id, x))) || Outside(nodes[1..], id, x))
  }

  /**
   * `findAndRemoveNode`: drops every node with id `id` together with its subtree, and
   * reports the last one the walk met.
   */
  function FindAndRemove(nodes: seq<TreeNode>, id: string): (r: Removal)
    ensures r.removed.Some? <==> Contains(nodes, id)
    ensures r.removed.Some? ==> r.removed.value.id == id && Occurs(nodes, r.removed.value)
    ensures !Contains(r.remaining, id)
    ensures forall x :: Contains(r.remaining, x) <==> Outside(nodes, id, x)
    ensures TopIds(r.remaining) == Without(TopIds(nodes), {id})
    ensures !Contains(nodes, id) ==> r.remaining == nodes
    decreases nodes
  {
    if nodes == [] then Removal([], None)
    else
      var rest := FindAndRemove(nodes[1..], id);
      TopIdsCons(nodes[0], nodes[1..]);
      assert [nodes[0]] + nodes[1..] == nodes;
      if nodes[0].id == id then
        Removal(rest.remaining, if rest.removed.Some? then rest.removed else Some(nodes[0]))
      else
        var below := FindAndRemove(nodes[0].children, id);
        var kept := [nodes[0].(children := below.remaining)] + rest.remaining;
        TopIdsCons(nodes[0].(children := below.remaining), rest.remaining);
        Removal(kept, if rest.removed.Some? then rest.removed else below.removed)
  }

  /** `x` lies strictly below some node with id `a`. */
  predicate BelowSome(nodes: seq<TreeNode>, a: string, x: string)
    decreases nodes
  {
    nodes != [] &&
    ((nodes[0].id == a && Contains(nodes[0].children, x)) || BelowSome(nodes[0].children, a, x) || BelowSome(nodes[1..], a, x))
  }

  /** A node whose id occurs once goes with its whole subtree. */
  lemma {:induction false} RemoveTakesSubtree(nodes: seq<TreeNode>, id: string, x: string)
    requires Count(nodes, x) == 1 && BelowSome(nodes, id, x)
    ensures !Contains(FindAndRemove(nodes, id).remaining, x)
    decreases nodes
  {
    NotOutside(nodes, id, x);
  }

  lemma {:induction false} NotOutside(nodes: seq<TreeNode>, id: string, x: string)
    requires Count(nodes, x) <= 1 && BelowSome(nodes, id, x)
    ensures !Outside(nodes, id, x)
    decreases nodes
  {
    var n := nodes[0];
    if n.id == id && Contains(n.children, x) {
      ContainsIffCount(n.children, x);
      NoCountNotOutside(nodes[1..], id, x);
      ContainsIffCount(nodes[1..], x);
    } else if BelowSome(n.children, id, x) {
      NotOutside(n.children, id, x);
      BelowContains(n.children, id, x);
      ContainsIffCount(n.children, x);
      NoCountNotOutside(nodes[1..], id, x);
    } else {
      NotOutside(nodes[1..], id, x);
      BelowContains(nodes[1..], id, x);
      ContainsIffCount(nodes[1..], x);
      NoCountNotOutside(n.children, id, x);
    }
  }

  lemma {:induction false} NoCountNotOutside(nodes: seq<TreeNode>, id: string, x: string)
    requires Count(nodes, x) == 0
    ensures !Outside(nodes, id, x)
    decreases nodes
  {
    if nodes != [] {
      NoCountNotOutside(nodes[0].children, id, x);
      NoCountNotOutside(nodes[1..], id, x);
    }
  }

  lemma {:induction false} BelowContains(nodes: seq<TreeNode>, a: string, x: string)
    requires BelowSome(nodes, a, x)
    ensures Contains(nodes, x)
    decreases nodes
  {
    if nodes[0].id == a && Contains(nodes[0].children, x) {
    } else if BelowSome(nodes[0].children, a, x) {
      BelowContains(nodes[0].children, a, x);
    } else {
      BelowContains(nodes[1..], a, x);
    }
  }

  /** With `id` occurring once, the subtree reported removed is the one `Find` sees. */
  lemma {:induction false} RemovedIsFound(nodes: seq<TreeNode>, id: string)
    requires Count(nodes, id) == 1
    ensures FindAndRemove(nodes, id).removed == Find(nodes, id)
    decreases nodes
  {
    var rest := FindAndRemove(nodes[1..], id);
    ContainsIffCount(nodes[1..], id);
    ContainsIffCount(nodes[0].children, id);
    if nodes[0].id != id {
      if Count(nodes[0].children, id) == 1 {
        RemovedIsFound(nodes[0].children, id);
      } else {
        RemovedIsFound(nodes[1..], id);
      }
    }
  }

  // ---------------------------------------------------------------------------
  // isDescendant
  // ---------------------------------------------------------------------------

  /**
   * `isDescendant`: the first node with id `a` in document order decides, by whether
   * `t` lies below it; a subtree that holds `a` without `t` lets the walk go on.
   */
  predicate IsDescendant(nodes: seq<TreeNode>, a: string, t: string)
    decreases nodes
  {
    if nodes == [] then false
    else if nodes[0].id == a then Contains(nodes[0].children, t)
    else IsDescendant(nodes[0].children, a, t) || IsDescendant(nodes[1..], a, t)
  }

  /** A positive answer always names a real ancestor. */
  lemma {:induction false} IsDescendantSound(nodes: seq<TreeNode>, a: string, t: string)
    requires IsDescendant(nodes, a, t)
    ensures BelowSome(nodes, a, t)
    decreases nodes
  {
    if nodes[0].id != a {
      if IsDescendant(nodes[0].children, a, t) {
        IsDescendantSound(nodes[0].children, a, t);
      } else {
        IsDescendantSound(nodes[1..], a, t);
      }
    }
  }

  /** When `a` names at most one node, the answer is exact. */
  lemma {:induction false} IsDescendantComplete(nodes: seq<TreeNode>, a: string, t: string)
    requires Count(nodes, a) <= 1 && BelowSome(nodes, a, t)
    ensures IsDescendant(nodes, a, t)
    decreases nodes
  {
    if nodes[0].id == a {
      if !Contains(nodes[0].children, t) {
        if BelowSome(nodes[0].children, a, t) {
          NoCountNotBelow(nodes[0].children, a, t);
        } else {
          NoCountNotBelow(nodes[1..], a, t);
        }
      }
    } else if BelowSome(nodes[0].children, a, t) {
      IsDescendantComplete(nodes[0].children, a, t);
    } else {
      IsDescendantComplete(nodes[1..], a, t);
    }
  }

  lemma {:induction false} NoCountNotBelow(nodes: seq<TreeNode>, a: string, t: string)
    requires Count(nodes, a) == 0
    ensures !BelowSome(nodes, a, t)
    decreases nodes
  {
    if nodes != [] {
      NoCountNotBelow(nodes[0].children, a, t);
      NoCountNotBelow(nodes[1..], a, t);
    }
  }

  /** A node that occurs once is not its own descendant. */
  lemma NotOwnDescendant(nodes: seq<TreeNode>, a: string)
    requires Count(nodes, a) == 1
    ensures !IsDescendant(nodes, a, a)
  {
    if IsDescendant(nodes, a, a) {
      IsDescendantSound(nodes, a, a);
      NotOutsideTwice(nodes, a);
    }
  }

  lemma {:induction false} NotOutsideTwice(nodes: seq<TreeNode>, a: string)
    requires BelowSome(nodes, a, a)
    ensures Count(nodes, a) >= 2
    decreases nodes
  {
    if nodes[0].id == a && Contains(nodes[0].children, a) {
      ContainsIffCount(nodes[0].children, a);
    } else if BelowSome(nodes[0].children, a, a) {
      NotOutsideTwice(nodes[0].children, a);
    } else {
      NotOutsideTwice(nodes[1..], a);
    }
  }

  // ---------------------------------------------------------------------------
  // updateTreeNode
  // ---------------------------------------------------------------------------

  /**
   * `updateTreeNode`: every node with id `id` that is not below another one is
   * replaced by `f` of it; the walk does not enter the replaced nodes.
   */
  function UpdateTreeNode(nodes: seq<TreeNode>, id: string, f: TreeNode -> TreeNode): (r: seq<TreeNode>)
    ensures |r| == |nodes|
    ensures forall i :: 0 <= i < |nodes| && nodes[i].id == id ==> r[i] == f(nodes[i])
    ensures forall i :: 0 <= i < |nodes| && nodes[i].id != id ==> r[i].id == nodes[i].id && r[i].name == nodes[i].name
    decreases nodes
  {
    if nodes == [] then []
    else
      var head := if nodes[0].id == id then f(nodes[0]) else nodes[0].(children := UpdateTreeNode(nodes[0].children, id, f));
      [head] + UpdateTreeNode(nodes[1..], id, f)
  }

  /** Without a matching node the forest is returned as it was. */
  lemma {:induction false} UpdateAbsent(nodes: seq<TreeNode>, id: string, f: TreeNode -> TreeNode)
    requires !Contains(nodes, id)
    ensures UpdateTreeNode(nodes, id, f) == nodes
    decreases nodes
  {
    if nodes != [] {
      UpdateAbsent(nodes[0].children, id, f);
      UpdateAbsent(nodes[1..], id, f);
      assert nodes == [nodes[0]] + nodes[1..];
    }
  }

  /** For an id-preserving `f`, the node `Find` sees afterwards is `f` of the one it saw before. */
  lemma {:induction false} UpdateFind(nodes: seq<TreeNode>, id: string, f: TreeNode -> TreeNode)
    requires Contains(nodes, id)
    requires forall n :: f(n).id == n.id
    ensures Find(UpdateTreeNode(nodes, id, f), id) == Some(f(Find(nodes, id).value))
    decreases nodes
  {
    var r := UpdateTreeNode(nodes, id, f);
    if nodes[0].id != id {
      assert r[0] == nodes[0].(children := UpdateTreeNode(nodes[0].children, id, f)) && r[1..] == UpdateTreeNode(nodes[1..], id, f);
      if Contains(nodes[0].children, id) {
        UpdateFind(nodes[0].children, id, f);
      } else {
        UpdateAbsent(nodes[0].children, id, f);
        UpdateFind(nodes[1..], id, f);
      }
    }
  }

  // ---------------------------------------------------------------------------
  // renameTreeNode and the append-child updater
  // ---------------------------------------------------------------------------

  function Renamed(name: string): TreeNode -> TreeNode
  {
    (n: TreeNode) => n.(name := name)
  }

  function WithChild(child: TreeNode): TreeNode -> TreeNode
  {
    (n: TreeNode) => n.(children := n.children + [child])
  }

  /** Same ids, kinds and graph links at every position, whatever the names. */
  predicate SameShape(a: seq<TreeNode>, b: seq<TreeNode>)
    decreases a
  {
    |a| == |b| &&
    (a != [] ==>
      a[0].id == b[0].id && a[0].kind == b[0].kind && a[0].graphId == b[0].graphId &&
      SameShape(a[0].children, b[0].children) && SameShape(a[1..], b[1..]))
  }

  /** Renaming keeps the structure, the order and every field but the name. */
  lemma {:induction false} RenameKeepsShape(nodes: seq<TreeNode>, id: string, name: string)
    ensures SameShape(nodes, UpdateTreeNode(nodes, id, Renamed(name)))
    decreases nodes
  {
    var r := UpdateTreeNode(nodes, id, Renamed(name));
    if nodes != [] {
      assert r[1..] == UpdateTreeNode(nodes[1..], id, Renamed(name));
      RenameKeepsShape(nodes[1..], id, name);
      if nodes[0].id == id {
        SameShapeRefl(nodes[0].children);
      } else {
        RenameKeepsShape(nodes[0].children, id, name);
      }
    }
  }

  lemma {:induction false} SameShapeRefl(nodes: seq<TreeNode>)
    ensures SameShape(nodes, nodes)
    decreases nodes
  {
    if nodes != [] {
      SameShapeRefl(nodes[0].children);
      SameShapeRefl(nodes[1..]);
    }
  }

  /** Renaming changes the name of the matching node and no other node's name. */
  lemma {:induction false} RenameNames(nodes: seq<TreeNode>, id: string, name: string, x: string)
    ensures var r := UpdateTreeNode(nodes, id, Renamed(name));
      && (Find(r, x).Some? <==> Find(nodes, x).Some?)
      && (Find(r, x).Some? ==> Find(r, x).value.name == if x == id then name else Find(nodes, x).value.name)
    decreases nodes
  {
    var r := UpdateTreeNode(nodes, id, Renamed(name));
    if nodes != [] {
      assert r[1..] == UpdateTreeNode(nodes[1..], id, Renamed(name));
      RenameNames(nodes[1..], id, name, x);
      if nodes[0].id != id {
        RenameNames(nodes[0].children, id, name, x);
      }
    }
  }

  /** Appending a child: the parent `Find` sees gains it as its last child; nothing else is added. */
  lemma AddChildEffect(nodes: seq<TreeNode>, parentId: string, child: TreeNode)
    requires Contains(nodes, parentId)
    ensures var p := Find(nodes, parentId).value;
      Find(UpdateTreeNode(nodes, parentId, WithChild(child)), parentId) == Some(p.(children := p.children + [child]))
  {
    UpdateFind(nodes, parentId, WithChild(child));
  }

  /** Appending a childless node under existing parents adds exactly its id. */
  lemma {:induction false} AddChildContains(nodes: seq<TreeNode>, parentId: string, child: TreeNode, x: string)
    requires child.children == []
    ensures Contains(UpdateTreeNode(nodes, parentId, WithChild(child)), x)
        <==> Contains(nodes, x) || (x == child.id && Contains(nodes, parentId))
    decreases nodes
  {
    if nodes != [] {
      var r := UpdateTreeNode(nodes, parentId, WithChild(child));
      assert r[1..] == UpdateTreeNode(nodes[1..], parentId, WithChild(child));
      AddChildContains(nodes[1..], parentId, child, x);
      if nodes[0].id == parentId {
        AppendContains(nodes[0].children, child, x);
      } else {
        AddChildContains(nodes[0].children, parentId, child, x);
      }
    }
  }

  lemma {:induction false} AppendContains(nodes: seq<TreeNode>, child: TreeNode, x: string)
    requires child.children == []
    ensures Contains(nodes + [child], x) <==> Contains(nodes, x) || x == child.id
    decreases nodes
  {
    if nodes == [] {
      assert [child][1..] == [];
    } else {
      assert (nodes + [child])[1..] == nodes[1..] + [child];
      AppendContains(nodes[1..], child, x);
    }
  }

  // ---------------------------------------------------------------------------
  // insertNode
  // ---------------------------------------------------------------------------

  /** Where `Array.prototype.splice` puts an element for `index` in a list of length `len`. */
  function SpliceIndex(len: nat, index: int): (k: nat)
    ensures k <= len
  {
    if index < 0 then (if len + index < 0 then 0 else len + index)
    else if index > len then len
    else index
  }

  /** `xs.splice(index, 0, x)` on a copy of `xs`. */
  function Splice<T>(xs: seq<T>, index: int, x: T): (r: seq<T>)
    ensures |r| == |xs| + 1
    ensures r[SpliceIndex(|xs|, index)] == x
    ensures r[..SpliceIndex(|xs|, index)] + r[SpliceIndex(|xs|, index) + 1..] == xs
  {
    var k := SpliceIndex(|xs|, index);
    var r := xs[..k] + [x] + xs[k..];
    assert r[..k] == xs[..k] && r[k + 1..] == xs[k..];
    r
  }

  /** An index at or past the end appends. */
  lemma SplicePastEnd<T>(xs: seq<T>, index: int, x: T)
    requires index >= |xs|
    ensures Splice(xs, index, x) == xs + [x]
  {
    var r := Splice(xs, index, x);
    assert r[..|xs|] == xs;
    assert r == r[..|xs|] + [r[|xs|]];
  }

  /**
   * `insertNode`: with no parent, splices into the top-level list; otherwise splices
   * into the children of each parent match not below another one.
   */
  function InsertNode(nodes: seq<TreeNode>, parentId: Option<string>, n: TreeNode, index: int): (r: seq<TreeNode>)
    decreases nodes
  {
    if parentId.None? then Splice(nodes, index, n)
    else if nodes == [] then []
    else
      var head := if nodes[0].id == parentId.value then nodes[0].(children := Splice(nodes[0].children, index, n))
                  else nodes[0].(children := InsertNode(nodes[0].children, parentId, n, index));
      [head] + InsertNode(nodes[1..], parentId, n, index)
  }

  function SplicedChild(n: TreeNode, index: int): TreeNode -> TreeNode
  {
    (p: TreeNode) => p.(children := Splice(p.children, index, n))
  }

  /** Inserting under a parent is updating that parent with a splice into its children. */
  lemma {:induction false} InsertIsUpdate(nodes: seq<TreeNode>, p: string, n: TreeNode, index: int)
    ensures InsertNode(nodes, Some(p), n, index) == UpdateTreeNode(nodes, p, SplicedChild(n, index))
    decreases nodes
  {
    if nodes != [] {
      InsertIsUpdate(nodes[0].children, p, n, index);
      InsertIsUpdate(nodes[1..], p, n, index);
    }
  }

  /** Under an existing parent, the parent `Find` sees has `n` spliced into its children. */
  lemma InsertUnderParent(nodes: seq<TreeNode>, p: string, n: TreeNode, index: int)
    requires Contains(nodes, p)
    ensures var q := Find(nodes, p).value;
      Find(InsertNode(nodes, Some(p), n, index), p) == Some(q.(children := Splice(q.children, index, n)))
  {
    InsertIsUpdate(nodes, p, n, index);
    UpdateFind(nodes, p, SplicedChild(n, index));
  }

  /** Under a parent that is not in the forest, nothing is inserted anywhere. */
  lemma InsertUnknownParent(nodes: seq<TreeNode>, p: string, n: TreeNode, index: int)
    requires !Contains(nodes, p)
    ensures InsertNode(nodes, Some(p), n, index) == nodes
  {
    InsertIsUpdate(nodes, p, n, index);
    UpdateAbsent(nodes, p, SplicedChild(n, index));
  }

  // ---------------------------------------------------------------------------
  // moveTreeNode
  // ---------------------------------------------------------------------------

  /**
   * The new hierarchy `moveTreeNode` sets, or `None` where it returns the state as it
   * was: a non-empty new parent below the node, or a node that is not in the tree.
   */
  function MoveTree(root: seq<TreeNode>, nodeId: string, newParentId: Option<string>, newIndex: int): (r: Option<seq<TreeNode>>)
    ensures !Contains(root, nodeId) ==> r.None?
  {
    if newParentId.Some? && newParentId.value != "" && IsDescendant(root, nodeId, newParentId.value) then None
    else
      var cut := FindAndRemove(root, nodeId);
      if cut.removed.None? then None
      else Some(InsertNode(cut.remaining, newParentId, cut.removed.value, newIndex))
  }

  /** A node that occurs once cannot be moved below one of its own descendants. */
  lemma MoveIntoOwnSubtreeRefused(root: seq<TreeNode>, nodeId: string, p: string, newIndex: int)
    requires Count(root, nodeId) <= 1 && p != "" && BelowSome(root, nodeId, p)
    ensures MoveTree(root, nodeId, Some(p), newIndex).None?
  {
    IsDescendantComplete(root, nodeId, p);
  }

  /** Moving to the top level puts the node's subtree at the splice position of the remaining list. */
  lemma MoveToTop(root: seq<TreeNode>, nodeId: string, newIndex: int)
    requires Count(root, nodeId) == 1 && Contains(root, nodeId)
    ensures var rest := FindAndRemove(root, nodeId).remaining;
      MoveTree(root, nodeId, None, newIndex) == Some(Splice(rest, newIndex, Find(root, nodeId).value))
  {
    RemovedIsFound(root, nodeId);
    ContainsIffCount(root, nodeId);
  }

  /** Moving under a parent that survives the cut splices the subtree into that parent's children. */
  lemma MoveUnderParent(root: seq<TreeNode>, nodeId: string, p: string, newIndex: int)
    requires Count(root, nodeId) == 1 && Contains(root, nodeId) && p != "" && !BelowSome(root, nodeId, p)
    requires Contains(FindAndRemove(root, nodeId).remaining, p)
    ensures var rest := FindAndRemove(root, nodeId).remaining;
      var q := Find(rest, p).value;
      && MoveTree(root, nodeId, Some(p), newIndex).Some?
      && Find(MoveTree(root, nodeId, Some(p), newIndex).value, p) == Some(q.(children := Splice(q.children, newIndex, Find(root, nodeId).value)))
  {
    if IsDescendant(root, nodeId, p) {
      IsDescendantSound(root, nodeId, p);
    }
    RemovedIsFound(root, nodeId);
    ContainsIffCount(root, nodeId);
    InsertUnderParent(FindAndRemove(root, nodeId).remaining, p, Find(root, nodeId).value, newIndex);
  }

  /**
   * As written, a move whose parent is not in the tree after the cut is not refused: the
   * subtree is cut out and inserted nowhere, so it is dropped from the hierarchy.
   */
  lemma MoveToMissingParentDrops(root: seq<TreeNode>, nodeId: string, p: string, newIndex: int)
    requires Contains(root, nodeId) && !Contains(root, p)
    ensures MoveTree(root, nodeId, Some(p), newIndex) == Some(FindAndRemove(root, nodeId).remaining)
    ensures !Contains(MoveTree(root, nodeId, Some(p), newIndex).value, nodeId)
  {
    if p != "" && IsDescendant(root, nodeId, p) {
      IsDescendantSound(root, nodeId, p);
      BelowContains(root, nodeId, p);
    }
    var cut := FindAndRemove(root, nodeId);
    if Contains(cut.remaining, p) {
      OutsideContains(root, nodeId, p);
    }
    InsertUnknownParent(cut.remaining, p, cut.removed.value, newIndex);
  }

  /** As written, moving a node under itself passes the guard and drops its subtree. */
  lemma MoveUnderItselfDrops(root: seq<TreeNode>, nodeId: string, newIndex: int)
    requires Count(root, nodeId) == 1
    ensures MoveTree(root, nodeId, Some(nodeId), newIndex) == Some(FindAndRemove(root, nodeId).remaining)
    ensures !Contains(MoveTree(root, nodeId, Some(nodeId), newIndex).value, nodeId)
  {
    NotOwnDescendant(root, nodeId);
    ContainsIffCount(root, nodeId);
    var cut := FindAndRemove(root, nodeId);
    InsertUnknownParent(cut.remaining, nodeId, cut.removed.value, newIndex);
  }

  lemma {:induction false} OutsideContains(nodes: seq<TreeNode>, id: string, x: string)
    requires Outside(nodes, id, x)
    ensures Contains(nodes, x)
    decreases nodes
  {
    if nodes[0].id != id && (nodes[0].id == x || Outside(nodes[0].children, id, x)) {
      if nodes[0].id != x {
        OutsideContains(nodes[0].children, id, x);
      }
    } else {
      OutsideContains(nodes[1..], id, x);
    }
  }

  // ---------------------------------------------------------------------------
  // addTreeNode
  // ---------------------------------------------------------------------------

  /** The hierarchy after `addTreeNode`: appended at the top level, or as last child of the parent. */
  function AddTreeNodeSpec(root: seq<TreeNode>, parentId: Option<string>, n: TreeNode): seq<TreeNode>
  {
    if parentId.None? then root + [n] else UpdateTreeNode(root, parentId.value, WithChild(n))
  }

  /** Under an unknown parent the hierarchy is unchanged. */
  lemma AddUnderUnknownParent(root: seq<TreeNode>, parentId: string, n: TreeNode)
    requires !Contains(root, parentId)
    ensures AddTreeNodeSpec(root, Some(parentId), n) == root
  {
    UpdateAbsent(root, parentId, WithChild(n));
  }
}
