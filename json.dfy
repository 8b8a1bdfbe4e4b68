/**
 * JSON-like values as the stores hold them: node `data` records, parsed import files
 * and the export document. Objects keep their fields in insertion order, as
 * JavaScript objects with non-numeric keys do.
 */
module Json {
  import opened Wrappers
  import Strings

  datatype Json =
    | JNull
    | JBool(b: bool)
    | JNum(n: int)
    | JStr(s: string)
    | JArr(items: seq<Json>)
    | JObj(fields: seq<Field>)

  datatype Field = Field(key: string, value: Json)

  function FieldKey(f: Field): string
  {
    f.key
  }

  function Keys(fs: seq<Field>): (ks: seq<string>)
    ensures |ks| == |fs|
    ensures forall i :: 0 <= i < |fs| ==> ks[i] == fs[i].key
  {
    if fs == [] then [] else [fs[0].key] + Keys(fs[1..])
  }

  /** No key occurs twice, as in every JavaScript object. */
  predicate UniqueKeys(fs: seq<Field>)
  {
    forall i, j :: 0 <= i < j < |fs| ==> fs[i].key != fs[j].key
  }

  predicate HasKey(fs: seq<Field>, k: string)
  {
    exists i :: 0 <= i < |fs| && fs[i].key == k
  }

  /** `obj[k]`: the value stored under `k`, `None` for `undefined`. */
  function Lookup(fs: seq<Field>, k: string): (r: Option<Json>)
    ensures r.None? <==> !HasKey(fs, k)
    ensures r.Some? ==> exists i :: 0 <= i < |fs| && fs[i] == Field(k, r.value)
  {
    if fs == [] then None
    else if fs[0].key == k then Some(fs[0].value)
    else
      assert forall i :: 1 <= i < |fs| ==> fs[i] == fs[1..][i - 1];
      Lookup(fs[1..], k)
  }

  /** In an object with unique keys, the field at index `i` is what `Lookup` finds. */
  lemma {:induction false} LookupAt(fs: seq<Field>, i: int)
    requires UniqueKeys(fs) && 0 <= i < |fs|
    ensures Lookup(fs, fs[i].key) == Some(fs[i].value)
  {
    if i > 0 {
      LookupAt(fs[1..], i - 1);
    }
  }

  /** Every object, at every depth, has unique keys. */
  predicate WellFormed(j: Json)
  {
    match j
    case JArr(items) => forall i :: 0 <= i < |items| ==> WellFormed(items[i])
    case JObj(fs) => UniqueKeys(fs) && forall i :: 0 <= i < |fs| ==> WellFormed(fs[i].value)
    case _ => true
  }

  /** JavaScript truthiness: `null`, `false`, `0` and `""` are falsy. */
  predicate Truthy(j: Json)
  {
    match j
    case JNull => false
    case JBool(b) => b
    case JNum(n) => n != 0
    case JStr(s) => s != ""
    case _ => true
  }

  /**
   * The property key `obj[v]` looks up: `String(v)`. An array joins its elements'
   * keys with commas, a `null` element giving the empty string; any other object
   * is "[object Object]".
   */
  function PropertyKey(j: Json): (r: string)
    ensures j.JStr? ==> r == j.s
    decreases j
  {
    match j
    case JNull => "null"
    case JBool(b) => if b then "true" else "false"
    case JNum(n) => Strings.IntToString(n)
    case JStr(s) => s
    case JArr(items) => JoinedKeys(items)
    case JObj(_) => "[object Object]"
  }

  /** `Array.prototype.join(",")` over the elements' keys. */
  function JoinedKeys(items: seq<Json>): (r: string)
    ensures |items| == 1 && items[0].JStr? ==> r == items[0].s
    decreases items
  {
    if items == [] then ""
    else
      var head := if items[0].JNull? then "" else PropertyKey(items[0]);
      if |items| == 1 then head else head + "," + JoinedKeys(items[1..])
  }

  /** Two strings in an array key as their comma join; a `null` element keys as nothing. */
  lemma ArrayKeys(a: string, b: string)
    ensures PropertyKey(JArr([JStr(a), JStr(b)])) == a + "," + b
    ensures PropertyKey(JArr([JStr(a), JNull])) == a + ","
  {
    assert [JStr(a), JStr(b)][1..] == [JStr(b)];
    assert [JStr(a), JNull][1..] == [JNull];
    assert JoinedKeys([JNull]) == "";
  }

  /** Assigns `obj[k] = v`: overwrites in place when `k` is present, else appends. */
  function Put(fs: seq<Field>, k: string, v: Json): (r: seq<Field>)
    ensures HasKey(fs, k) ==> |r| == |fs|
    ensures !HasKey(fs, k) ==> r == fs + [Field(k, v)]
  {
    if fs == [] then [Field(k, v)]
    else if fs[0].key == k then [Field(k, v)] + fs[1..]
    else
      assert HasKey(fs, k) ==> HasKey(fs[1..], k) by {
        if HasKey(fs, k) {
          var i :| 0 <= i < |fs| && fs[i].key == k;
          assert fs[1..][i - 1].key == k;
        }
      }
      [fs[0]] + Put(fs[1..], k, v)
  }

  lemma {:induction false} PutLookup(fs: seq<Field>, k: string, v: Json, q: string)
    ensures Lookup(Put(fs, k, v), q) == if q == k then Some(v) else Lookup(fs, q)
  {
    if fs != [] && fs[0].key != k {
      PutLookup(fs[1..], k, v, q);
    }
  }

  lemma {:induction false} PutKeys(fs: seq<Field>, k: string, v: Json)
    ensures forall q :: HasKey(Put(fs, k, v), q) <==> HasKey(fs, q) || q == k
  {
    forall q ensures HasKey(Put(fs, k, v), q) <==> HasKey(fs, q) || q == k {
      PutLookup(fs, k, v, q);
    }
  }

  lemma {:induction false} PutUnique(fs: seq<Field>, k: string, v: Json)
    requires UniqueKeys(fs)
    ensures UniqueKeys(Put(fs, k, v))
  {
    if fs != [] && fs[0].key != k {
      PutUnique(fs[1..], k, v);
      PutKeys(fs[1..], k, v);
      var r := Put(fs[1..], k, v);
      forall j | 0 <= j < |r| ensures r[j].key != fs[0].key {
        assert HasKey(r, r[j].key);
        assert forall i :: 0 <= i < |fs[1..]| ==> fs[1..][i].key == fs[i + 1].key;
      }
    }
  }

  /**
   * Object spread `{...base, ...patch}`: the fields of `base` in order, each
   * overridden by `patch`, followed by the keys only `patch` has.
   */
  function Spread(base: seq<Field>, patch: seq<Field>): seq<Field>
    decreases patch
  {
    if patch == [] then base
    else Spread(Put(base, patch[0].key, patch[0].value), patch[1..])
  }

  /** After a spread, a key takes its value from the patch when the patch has it. */
  lemma {:induction false} SpreadLookup(base: seq<Field>, patch: seq<Field>, q: string)
    requires UniqueKeys(patch)
    ensures Lookup(Spread(base, patch), q) == if HasKey(patch, q) then Lookup(patch, q) else Lookup(base, q)
    decreases patch
  {
    if patch != [] {
      var b' := Put(base, patch[0].key, patch[0].value);
      SpreadLookup(b', patch[1..], q);
      PutLookup(base, patch[0].key, patch[0].value, q);
      if HasKey(patch[1..], q) {
        var i :| 0 <= i < |patch[1..]| && patch[1..][i].key == q;
        assert patch[i + 1].key == q;
        assert q != patch[0].key;
        assert HasKey(patch, q);
      } else if HasKey(patch, q) {
        var i :| 0 <= i < |patch| && patch[i].key == q;
        if i > 0 {
          assert patch[1..][i - 1].key == q;
        }
      }
    }
  }

  lemma {:induction false} SpreadUnique(base: seq<Field>, patch: seq<Field>)
    requires UniqueKeys(base)
    ensures UniqueKeys(Spread(base, patch))
    decreases patch
  {
    if patch != [] {
      PutUnique(base, patch[0].key, patch[0].value);
      SpreadUnique(Put(base, patch[0].key, patch[0].value), patch[1..]);
    }
  }

  /** A spread keeps every key of the base in its place: fields only ever get appended. */
  lemma {:induction false} SpreadKeepsPrefixKeys(base: seq<Field>, patch: seq<Field>)
    ensures |Spread(base, patch)| >= |base|
    ensures forall i :: 0 <= i < |base| ==> Spread(base, patch)[i].key == base[i].key
    decreases patch
  {
    if patch != [] {
      var b' := Put(base, patch[0].key, patch[0].value);
      PutPreservesKeys(base, patch[0].key, patch[0].value);
      SpreadKeepsPrefixKeys(b', patch[1..]);
    }
  }

  lemma {:induction false} PutPreservesKeys(fs: seq<Field>, k: string, v: Json)
    ensures |Put(fs, k, v)| >= |fs|
    ensures forall i :: 0 <= i < |fs| ==> Put(fs, k, v)[i].key == fs[i].key
  {
    if fs != [] && fs[0].key != k {
      PutPreservesKeys(fs[1..], k, v);
    }
  }
}
