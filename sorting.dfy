/**
 * The stable sort behind `Array.prototype.sort` with a `localeCompare` comparator on a
 * string key (`sortById`, and the key sort inside `stableStringify`).
 */
module Sorting {
  import Strings

  /** Every element's key is at most every later element's key. */
  predicate SortedBy<T>(xs: seq<T>, key: T -> string)
  {
    forall i, j :: 0 <= i < j < |xs| ==> Strings.Le(key(xs[i]), key(xs[j]))
  }

  /** Elements with equal keys are equal: the key identifies its element. */
  ghost predicate KeyDetermines<T>(xs: seq<T>, key: T -> string)
  {
    forall i, j :: 0 <= i < |xs| && 0 <= j < |xs| && key(xs[i]) == key(xs[j]) ==> xs[i] == xs[j]
  }

  /** Inserts `x` after every element whose key is not greater than its own. */
  function InsertBy<T>(x: T, s: seq<T>, key: T -> string): (r: seq<T>)
    ensures multiset(r) == multiset(s) + multiset{x}
    ensures |r| == |s| + 1
  {
    if s == [] then [x]
    else if Strings.Le(key(s[0]), key(x)) then
      assert s == [s[0]] + s[1..];
      [s[0]] + InsertBy(x, s[1..], key)
    else [x] + s
  }

  /** Stable insertion sort: elements with equal keys keep their input order. */
  function SortBy<T>(xs: seq<T>, key: T -> string): (r: seq<T>)
    ensures multiset(r) == multiset(xs)
    ensures |r| == |xs|
  {
    if xs == [] then []
    else
      assert xs == xs[..|xs| - 1] + [xs[|xs| - 1]];
      InsertBy(xs[|xs| - 1], SortBy(xs[..|xs| - 1], key), key)
  }

  lemma {:induction false} InsertBySorted<T>(x: T, s: seq<T>, key: T -> string)
    requires SortedBy(s, key)
    ensures SortedBy(InsertBy(x, s, key), key)
  {
    if s != [] {
      if Strings.Le(key(s[0]), key(x)) {
        var t := InsertBy(x, s[1..], key);
        InsertBySorted(x, s[1..], key);
        forall j | 0 <= j < |t| ensures Strings.Le(key(s[0]), key(t[j])) {
          assert t[j] in multiset(t);
          if t[j] != x {
            assert t[j] in multiset(s[1..]);
            var k :| 0 <= k < |s[1..]| && s[1..][k] == t[j];
            assert s[k + 1] == t[j];
          }
        }
        assert InsertBy(x, s, key) == [s[0]] + t;
      } else {
        Strings.LeTotal(key(s[0]), key(x));
        forall j | 0 <= j < |s| ensures Strings.Le(key(x), key(s[j])) {
          if j > 0 {
            Strings.LeTransitive(key(x), key(s[0]), key(s[j]));
          }
        }
      }
    }
  }

  /** The result of `SortBy` is sorted by the key. */
  lemma {:induction false} SortBySorted<T>(xs: seq<T>, key: T -> string)
    ensures SortedBy(SortBy(xs, key), key)
  {
    if xs != [] {
      SortBySorted(xs[..|xs| - 1], key);
      InsertBySorted(xs[|xs| - 1], SortBy(xs[..|xs| - 1], key), key);
    }
  }

  lemma {:induction false} InsertByAtEnd<T>(x: T, s: seq<T>, key: T -> string)
    requires forall i :: 0 <= i < |s| ==> Strings.Le(key(s[i]), key(x))
    ensures InsertBy(x, s, key) == s + [x]
  {
    if s != [] {
      InsertByAtEnd(x, s[1..], key);
      assert s == [s[0]] + s[1..];
    }
  }

  /** Sorting an already sorted sequence changes nothing. */
  lemma {:induction false} SortByIdentity<T>(xs: seq<T>, key: T -> string)
    requires SortedBy(xs, key)
    ensures SortBy(xs, key) == xs
  {
    if xs != [] {
      var init := xs[..|xs| - 1];
      SortByIdentity(init, key);
      InsertByAtEnd(xs[|xs| - 1], init, key);
      assert init + [xs[|xs| - 1]] == xs;
    }
  }

  lemma MultisetHead<T>(a: seq<T>)
    requires a != []
    ensures multiset(a) == multiset{a[0]} + multiset(a[1..])
  {
    assert a == [a[0]] + a[1..];
  }

  lemma TailMultisets<T>(a: seq<T>, b: seq<T>)
    requires a != [] && b != [] && a[0] == b[0]
    requires multiset(a) == multiset(b)
    ensures multiset(a[1..]) == multiset(b[1..])
  {
    MultisetHead(a);
    MultisetHead(b);
    assert multiset(a[1..]) == multiset(a) - multiset{a[0]};
    assert multiset(b[1..]) == multiset(b) - multiset{b[0]};
  }

  /** Two sorted non-empty sequences with the same elements start with the same element. */
  lemma SortedHeadsEqual<T>(a: seq<T>, b: seq<T>, key: T -> string)
    requires a != [] && b != []
    requires SortedBy(a, key) && SortedBy(b, key)
    requires multiset(a) == multiset(b)
    requires KeyDetermines(a, key)
    ensures a[0] == b[0]
  {
    assert b[0] in multiset(a);
    var i :| 0 <= i < |a| && a[i] == b[0];
    assert a[0] in multiset(b);
    var j :| 0 <= j < |b| && b[j] == a[0];
    Strings.LeReflexive(key(a[0]));
    Strings.LeReflexive(key(b[0]));
    assert Strings.Le(key(a[0]), key(b[0]));
    assert Strings.Le(key(b[0]), key(a[0]));
    Strings.LeAntisymmetric(key(a[0]), key(b[0]));
    assert key(a[0]) == key(a[i]);
  }

  lemma SortedTail<T>(a: seq<T>, key: T -> string)
    requires a != [] && SortedBy(a, key)
    ensures SortedBy(a[1..], key)
  {
    forall i, j | 0 <= i < j < |a[1..]|
      ensures Strings.Le(key(a[1..][i]), key(a[1..][j]))
    {
      assert a[1..][i] == a[i + 1] && a[1..][j] == a[j + 1];
    }
  }

  lemma KeyDeterminesTail<T>(a: seq<T>, key: T -> string)
    requires a != [] && KeyDetermines(a, key)
    ensures KeyDetermines(a[1..], key)
  {
    forall p, q | 0 <= p < |a[1..]| && 0 <= q < |a[1..]| && key(a[1..][p]) == key(a[1..][q])
      ensures a[1..][p] == a[1..][q]
    {
      assert a[1..][p] == a[p + 1] && a[1..][q] == a[q + 1];
    }
  }

  lemma KeysDistinctTail<T>(a: seq<T>, key: T -> string)
    requires a != [] && KeysDistinct(a, key)
    ensures KeysDistinct(a[1..], key)
  {
    forall i, j | 0 <= i < j < |a[1..]|
      ensures key(a[1..][i]) != key(a[1..][j])
    {
      assert a[1..][i] == a[i + 1] && a[1..][j] == a[j + 1];
    }
  }

  /**
   * Two sorted sequences with the same elements, whose keys identify their elements,
   * are equal.
   */
  lemma {:induction false} SortedUnique<T>(a: seq<T>, b: seq<T>, key: T -> string)
    requires SortedBy(a, key) && SortedBy(b, key)
    requires multiset(a) == multiset(b)
    requires KeyDetermines(a, key)
    ensures a == b
  {
    assert |a| == |multiset(a)| == |b|;
    if a != [] {
      SortedHeadsEqual(a, b, key);
      TailMultisets(a, b);
      KeyDeterminesTail(a, key);
      SortedTail(a, key);
      SortedTail(b, key);
      SortedUnique(a[1..], b[1..], key);
      assert a == [a[0]] + a[1..] && b == [b[0]] + b[1..];
    }
  }

  /**
   * Sorting makes the input's order irrelevant: two orderings of the same elements
   * sort to the same sequence when keys identify elements.
   */
  lemma SortByPermutationInvariant<T>(a: seq<T>, b: seq<T>, key: T -> string)
    requires multiset(a) == multiset(b)
    requires KeyDetermines(a, key)
    ensures SortBy(a, key) == SortBy(b, key)
  {
    SortBySorted(a, key);
    SortBySorted(b, key);
    var sa := SortBy(a, key);
    forall p, q | 0 <= p < |sa| && 0 <= q < |sa| && key(sa[p]) == key(sa[q]) ensures sa[p] == sa[q] {
      assert sa[p] in multiset(a) && sa[q] in multiset(a);
      var p' :| 0 <= p' < |a| && a[p'] == sa[p];
      var q' :| 0 <= q' < |a| && a[q'] == sa[q];
    }
    SortedUnique(sa, SortBy(b, key), key);
  }

  /** No two elements share a key. */
  predicate KeysDistinct<T>(xs: seq<T>, key: T -> string)
  {
    forall i, j :: 0 <= i < j < |xs| ==> key(xs[i]) != key(xs[j])
  }

  lemma {:induction false} InsertByKeysDistinct<T>(x: T, s: seq<T>, key: T -> string)
    requires KeysDistinct(s, key)
    requires forall i :: 0 <= i < |s| ==> key(s[i]) != key(x)
    ensures KeysDistinct(InsertBy(x, s, key), key)
  {
    if s != [] && Strings.Le(key(s[0]), key(x)) {
      var t := InsertBy(x, s[1..], key);
      InsertByKeysDistinct(x, s[1..], key);
      forall j | 0 <= j < |t| ensures key(s[0]) != key(t[j]) {
        assert t[j] in multiset(t);
        if t[j] != x {
          assert t[j] in multiset(s[1..]);
          var k :| 0 <= k < |s[1..]| && s[1..][k] == t[j];
          assert s[k + 1] == t[j];
        }
      }
      assert InsertBy(x, s, key) == [s[0]] + t;
    }
  }

  /** Sorting keeps keys distinct. */
  lemma {:induction false} SortByKeysDistinct<T>(xs: seq<T>, key: T -> string)
    requires KeysDistinct(xs, key)
    ensures KeysDistinct(SortBy(xs, key), key)
  {
    if xs != [] {
      var init := xs[..|xs| - 1];
      var last := xs[|xs| - 1];
      SortByKeysDistinct(init, key);
      var s := SortBy(init, key);
      forall i | 0 <= i < |s| ensures key(s[i]) != key(last) {
        assert s[i] in multiset(init);
        var k :| 0 <= k < |init| && init[k] == s[i];
      }
      InsertByKeysDistinct(last, s, key);
    }
  }

  /**
   * Two sorted sequences with distinct keys and the same elements are equal: a sorted
   * order is determined by the set of elements alone.
   */
  lemma {:induction false} SortedSameElements<T>(a: seq<T>, b: seq<T>, key: T -> string)
    requires SortedBy(a, key) && SortedBy(b, key)
    requires KeysDistinct(a, key) && KeysDistinct(b, key)
    requires forall e :: e in a <==> e in b
    ensures a == b
  {
    assert b != [] ==> b[0] in b;
    if a != [] {
      assert a[0] in a;
      var j :| 0 <= j < |b| && b[j] == a[0];
      assert b != [] && b[0] in b;
      var i :| 0 <= i < |a| && a[i] == b[0];
      Strings.LeReflexive(key(a[0]));
      Strings.LeReflexive(key(b[0]));
      assert Strings.Le(key(a[0]), key(b[0]));
      assert Strings.Le(key(b[0]), key(a[0]));
      Strings.LeAntisymmetric(key(a[0]), key(b[0]));
      assert j == 0;
      forall e ensures e in a[1..] <==> e in b[1..] {
        if e in a[1..] {
          var p :| 0 <= p < |a[1..]| && a[1..][p] == e;
          assert a[p + 1] == e && e != a[0];
          assert e in a && e in b;
          var q :| 0 <= q < |b| && b[q] == e;
          assert q != 0;
          assert b[1..][q - 1] == e;
        }
        if e in b[1..] {
          var p :| 0 <= p < |b[1..]| && b[1..][p] == e;
          assert b[p + 1] == e && e != b[0];
          assert e in b && e in a;
          var q :| 0 <= q < |a| && a[q] == e;
          assert q != 0;
          assert a[1..][q - 1] == e;
        }
      }
      SortedTail(a, key);
      SortedTail(b, key);
      KeysDistinctTail(a, key);
      KeysDistinctTail(b, key);
      SortedSameElements(a[1..], b[1..], key);
      assert a == [a[0]] + a[1..] && b == [b[0]] + b[1..];
    }
  }
}
