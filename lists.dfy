/** Sequence helpers for id lists: membership sets, `filter` by a removal set, fresh ids. */
module Lists {

  /** The set of elements of an id list. */
  function Elems(xs: seq<string>): (r: set<string>)
    ensures forall x :: x in r <==> x in xs
  {
    set x | x in xs
  }

  lemma ElemsSnoc(xs: seq<string>, i: int)
    requires 0 <= i < |xs|
    ensures Elems(xs[..i + 1]) == Elems(xs[..i]) + {xs[i]}
  {
    assert xs[..i + 1] == xs[..i] + [xs[i]];
  }

  /** `xs.filter((id) => !removed.has(id))`. */
  function Without(xs: seq<string>, removed: set<string>): (r: seq<string>)
    ensures |r| <= |xs|
    ensures forall x :: x in r <==> x in xs && x !in removed
  {
    if xs == [] then []
    else if xs[0] in removed then Without(xs[1..], removed)
    else [xs[0]] + Without(xs[1..], removed)
  }

  /** A filter that drops nothing returns the list itself. */
  lemma {:induction false} WithoutSameLength(xs: seq<string>, removed: set<string>)
    requires |Without(xs, removed)| == |xs|
    ensures Without(xs, removed) == xs
  {
    if xs != [] {
      if xs[0] !in removed {
        WithoutSameLength(xs[1..], removed);
      }
    }
  }

  /** Filtering twice is filtering once by both sets. */
  lemma {:induction false} WithoutWithout(xs: seq<string>, a: set<string>, b: set<string>)
    ensures Without(Without(xs, a), b) == Without(xs, a + b)
  {
    if xs != [] {
      WithoutWithout(xs[1..], a, b);
    }
  }

  /** A filter whose removal set misses the list returns the list itself. */
  lemma {:induction false} WithoutDisjoint(xs: seq<string>, removed: set<string>)
    requires forall x :: x in xs ==> x !in removed
    ensures Without(xs, removed) == xs
  {
    if xs != [] {
      WithoutDisjoint(xs[1..], removed);
    }
  }

  /** The elements of a list are all distinct. */
  predicate Distinct(xs: seq<string>)
  {
    forall i, j :: 0 <= i < j < |xs| ==> xs[i] != xs[j]
  }

  lemma {:induction false} DistinctCard(xs: seq<string>)
    requires Distinct(xs)
    ensures |Elems(xs)| == |xs|
  {
    if xs != [] {
      var init := xs[..|xs| - 1];
      DistinctCard(init);
      assert xs == init + [xs[|xs| - 1]];
      assert Elems(xs) == Elems(init) + {xs[|xs| - 1]};
      assert xs[|xs| - 1] !in Elems(init);
    }
  }

  /** Two distinct lists with no element in common concatenate to a distinct list. */
  lemma DistinctConcat(a: seq<string>, b: seq<string>)
    requires Distinct(a) && Distinct(b) && Elems(a) !! Elems(b)
    ensures Distinct(a + b)
  {
    forall i, j | 0 <= i < j < |a + b| ensures (a + b)[i] != (a + b)[j] {
      if i < |a| && j >= |a| {
        assert (a + b)[i] in Elems(a) && (a + b)[j] == b[j - |a|];
      }
    }
  }

  /** A prefix one element longer is the shorter prefix and that element. */
  lemma TakeSnoc<T>(xs: seq<T>, i: int)
    requires 0 <= i < |xs|
    ensures xs[..i + 1] == xs[..i] + [xs[i]]
  {
  }

  /** A string that is none of `used`: one character longer than the longest of them. */
  method FreshString(used: set<string>) returns (s: string)
    ensures s !in used
  {
    var longest: nat := 0;
    var rest := used;
    while rest != {}
      invariant rest <= used
      invariant forall u :: u in used - rest ==> |u| <= longest
      decreases |rest|
    {
      var u :| u in rest;
      if |u| > longest {
        longest := |u|;
      }
      rest := rest - {u};
    }
    s := seq(longest + 1, _ => 'n');
    assert forall u :: u in used ==> |u| < |s|;
  }
}
