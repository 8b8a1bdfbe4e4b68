/**
 * `stableStringify`: `JSON.stringify` with a replacer that rebuilds every non-array
 * object with its entries sorted by key, and an indent of two spaces. `Canon` is the
 * value the replacer produces; `Render` is the indented text.
 */
module StableStringify {
  import opened Wrappers
  import opened Json
  import Strings
  import Sorting

  /** The value with every object's fields sorted by key, at every depth. */
  function Canon(j: Json): (r: Json)
    ensures j.JArr? <==> r.JArr?
    ensures j.JObj? <==> r.JObj?
    ensures j.JArr? ==> |r.items| == |j.items|
    ensures j.JObj? ==> |r.fields| == |j.fields|
    ensures !j.JArr? && !j.JObj? ==> r == j
  {
    match j
    case JArr(items) => JArr(CanonItems(items))
    case JObj(fs) => JObj(Sorting.SortBy(CanonFields(fs), FieldKey))
    case _ => j
  }

  /** Array elements, each canonicalised, in their original order. */
  function CanonItems(items: seq<Json>): (r: seq<Json>)
    ensures |r| == |items|
  {
    seq(|items|, i requires 0 <= i < |items| => Canon(items[i]))
  }

  /** Object fields with canonicalised values, still in insertion order. */
  function CanonFields(fs: seq<Field>): (r: seq<Field>)
    ensures |r| == |fs|
    ensures forall i :: 0 <= i < |fs| ==> r[i].key == fs[i].key
  {
    seq(|fs|, i requires 0 <= i < |fs| => Field(fs[i].key, Canon(fs[i].value)))
  }

  /** Keys sorted in every object, at every depth. */
  predicate Canonical(j: Json)
  {
    match j
    case JArr(items) => forall i :: 0 <= i < |items| ==> Canonical(items[i])
    case JObj(fs) => Sorting.SortedBy(fs, FieldKey) && forall i :: 0 <= i < |fs| ==> Canonical(fs[i].value)
    case _ => true
  }

  /** Every object in the output has its keys in sorted order, at every nesting level. */
  lemma {:induction false} CanonSorted(j: Json)
    ensures Canonical(Canon(j))
  {
    match j
    case JArr(items) =>
      forall i | 0 <= i < |items| ensures Canonical(Canon(j).items[i]) {
        CanonSorted(items[i]);
      }
    case JObj(fs) =>
      var mapped := CanonFields(fs);
      var sorted := Sorting.SortBy(mapped, FieldKey);
      Sorting.SortBySorted(mapped, FieldKey);
      forall k | 0 <= k < |sorted| ensures Canonical(sorted[k].value) {
        assert sorted[k] in multiset(mapped);
        var i :| 0 <= i < |mapped| && mapped[i] == sorted[k];
        CanonSorted(fs[i].value);
      }
    case _ =>
  }

  /** Arrays keep their element order: element `i` of the output comes from element `i`. */
  lemma CanonKeepsArrayOrder(items: seq<Json>, i: int)
    requires 0 <= i < |items|
    ensures Canon(JArr(items)).items[i] == Canon(items[i])
  {
  }

  /** An object's output has exactly its keys, each with its canonicalised value. */
  lemma CanonLookup(fs: seq<Field>, k: string)
    requires UniqueKeys(fs)
    ensures HasKey(Canon(JObj(fs)).fields, k) <==> HasKey(fs, k)
    ensures forall i :: 0 <= i < |fs| && fs[i].key == k ==> Lookup(Canon(JObj(fs)).fields, k) == Some(Canon(fs[i].value))
  {
    var mapped := CanonFields(fs);
    var sorted := Sorting.SortBy(mapped, FieldKey);
    assert Sorting.KeysDistinct(mapped, FieldKey);
    Sorting.SortByKeysDistinct(mapped, FieldKey);
    if HasKey(sorted, k) {
      var p :| 0 <= p < |sorted| && sorted[p].key == k;
      assert sorted[p] in multiset(mapped);
      var i :| 0 <= i < |mapped| && mapped[i] == sorted[p];
      assert fs[i].key == k;
    }
    forall i | 0 <= i < |fs| && fs[i].key == k ensures Lookup(sorted, k) == Some(Canon(fs[i].value)) {
      assert mapped[i] in multiset(sorted);
      var p :| 0 <= p < |sorted| && sorted[p] == mapped[i];
      LookupAt(sorted, p);
    }
  }

  /** A value whose keys are already sorted everywhere is its own canonical form. */
  lemma {:induction false} CanonOfCanonical(j: Json)
    requires Canonical(j)
    ensures Canon(j) == j
  {
    match j
    case JArr(items) =>
      forall i | 0 <= i < |items| ensures Canon(items[i]) == items[i] {
        CanonOfCanonical(items[i]);
      }
      assert CanonItems(items) == items;
    case JObj(fs) =>
      forall i | 0 <= i < |fs| ensures Canon(fs[i].value) == fs[i].value {
        CanonOfCanonical(fs[i].value);
      }
      assert CanonFields(fs) == fs;
      Sorting.SortByIdentity(fs, FieldKey);
    case _ =>
  }

  /** Canonicalising twice is canonicalising once. */
  lemma CanonIdempotent(j: Json)
    ensures Canon(Canon(j)) == Canon(j)
  {
    CanonSorted(j);
    CanonOfCanonical(Canon(j));
  }

  /** The keys of an object, as a set. */
  function KeySet(fs: seq<Field>): (r: set<string>)
    ensures forall i :: 0 <= i < |fs| ==> fs[i].key in r
  {
    set f | f in fs :: f.key
  }

  /**
   * The two values are the same up to the insertion order of object keys, at every
   * depth: arrays agree element by element, objects have the same keys and agree on
   * the value under each, and everything else is equal.
   */
  predicate SameUpToKeyOrder(a: Json, b: Json)
  {
    match a
    case JArr(xs) =>
      b.JArr? && |xs| == |b.items| &&
      forall i :: 0 <= i < |xs| ==> SameUpToKeyOrder(xs[i], b.items[i])
    case JObj(fs) =>
      b.JObj? && KeySet(fs) == KeySet(b.fields) &&
      forall i, j :: 0 <= i < |fs| && 0 <= j < |b.fields| && fs[i].key == b.fields[j].key ==>
        SameUpToKeyOrder(fs[i].value, b.fields[j].value)
    case _ => a == b
  }

  /** Two values that differ only in key insertion order have the same canonical form. */
  lemma {:induction false} CanonOrderIndependent(a: Json, b: Json)
    requires WellFormed(a) && WellFormed(b)
    requires SameUpToKeyOrder(a, b)
    ensures Canon(a) == Canon(b)
    decreases a, 1
  {
    match a
    case JArr(xs) =>
      forall i | 0 <= i < |xs| ensures Canon(xs[i]) == Canon(b.items[i]) {
        CanonOrderIndependent(xs[i], b.items[i]);
      }
      assert CanonItems(xs) == CanonItems(b.items);
    case JObj(fs) =>
      var ma, mb := CanonFields(fs), CanonFields(b.fields);
      var sa, sb := Sorting.SortBy(ma, FieldKey), Sorting.SortBy(mb, FieldKey);
      forall e ensures e in sa <==> e in sb {
        if e in sa {
          assert e in multiset(ma);
          CanonFieldsCovered(a, b, e);
          assert e in multiset(sb);
        }
        if e in sb {
          assert e in multiset(mb);
          CanonFieldsCoveredBack(a, b, e);
          assert e in multiset(sa);
        }
      }
      Sorting.SortBySorted(ma, FieldKey);
      Sorting.SortBySorted(mb, FieldKey);
      assert Sorting.KeysDistinct(ma, FieldKey);
      assert Sorting.KeysDistinct(mb, FieldKey);
      Sorting.SortByKeysDistinct(ma, FieldKey);
      Sorting.SortByKeysDistinct(mb, FieldKey);
      Sorting.SortedSameElements(sa, sb, FieldKey);
    case _ =>
  }

  /** Each canonicalised field of `a` is a canonicalised field of `b`. */
  lemma {:induction false} CanonFieldsCovered(a: Json, b: Json, e: Field)
    requires a.JObj? && WellFormed(a) && WellFormed(b)
    requires SameUpToKeyOrder(a, b)
    requires e in CanonFields(a.fields)
    ensures e in CanonFields(b.fields)
    decreases a, 0
  {
    var fs, gs := a.fields, b.fields;
    var i :| 0 <= i < |fs| && CanonFields(fs)[i] == e;
    assert fs[i].key in KeySet(gs);
    var j :| 0 <= j < |gs| && gs[j].key == fs[i].key;
    CanonOrderIndependent(fs[i].value, gs[j].value);
    assert CanonFields(gs)[j] == e;
  }

  /** Each canonicalised field of `b` is a canonicalised field of `a`. */
  lemma {:induction false} CanonFieldsCoveredBack(a: Json, b: Json, e: Field)
    requires a.JObj? && WellFormed(a) && WellFormed(b)
    requires SameUpToKeyOrder(a, b)
    requires e in CanonFields(b.fields)
    ensures e in CanonFields(a.fields)
    decreases a, 0
  {
    var fs, gs := a.fields, b.fields;
    var j :| 0 <= j < |gs| && CanonFields(gs)[j] == e;
    assert gs[j].key in KeySet(fs);
    var i :| 0 <= i < |fs| && fs[i].key == gs[j].key;
    CanonOrderIndependent(fs[i].value, gs[j].value);
    assert CanonFields(fs)[i] == e;
  }

  /** Canonicalising keeps keys unique at every depth. */
  lemma {:induction false} CanonWellFormed(j: Json)
    requires WellFormed(j)
    ensures WellFormed(Canon(j))
  {
    match j
    case JArr(items) =>
      forall i | 0 <= i < |items| ensures WellFormed(Canon(j).items[i]) {
        CanonWellFormed(items[i]);
      }
    case JObj(fs) =>
      var mapped := CanonFields(fs);
      var sorted := Sorting.SortBy(mapped, FieldKey);
      assert Sorting.KeysDistinct(mapped, FieldKey);
      Sorting.SortByKeysDistinct(mapped, FieldKey);
      forall k | 0 <= k < |sorted| ensures WellFormed(sorted[k].value) {
        assert sorted[k] in multiset(mapped);
        var i :| 0 <= i < |mapped| && mapped[i] == sorted[k];
        CanonWellFormed(fs[i].value);
      }
    case _ =>
  }

  /** An object's canonical form reads, under each of its keys, that key's canonicalised value. */
  lemma CanonFieldAt(fs: seq<Field>, i: int)
    requires UniqueKeys(fs) && 0 <= i < |fs|
    ensures Lookup(Canon(JObj(fs)).fields, fs[i].key) == Some(Canon(fs[i].value))
  {
    CanonLookup(fs, fs[i].key);
  }

  /** A key the object does not have is not in its canonical form either. */
  lemma CanonAbsent(fs: seq<Field>, k: string)
    requires UniqueKeys(fs) && !HasKey(fs, k)
    ensures Lookup(Canon(JObj(fs)).fields, k) == None
  {
    CanonLookup(fs, k);
  }

  /** A well-formed value is the same as itself up to key order. */
  lemma {:induction false} SameUpToKeyOrderReflexive(j: Json)
    requires WellFormed(j)
    ensures SameUpToKeyOrder(j, j)
  {
    match j
    case JArr(xs) =>
      forall i | 0 <= i < |xs| ensures SameUpToKeyOrder(xs[i], xs[i]) {
        SameUpToKeyOrderReflexive(xs[i]);
      }
    case JObj(fs) =>
      forall a, b | 0 <= a < |fs| && 0 <= b < |fs| && fs[a].key == fs[b].key
        ensures SameUpToKeyOrder(fs[a].value, fs[b].value)
      {
        assert a == b;
        SameUpToKeyOrderReflexive(fs[a].value);
      }
    case _ =>
  }

  /** `2 * depth` spaces. */
  function Indent(depth: nat): (r: string)
    ensures |r| == 2 * depth
    ensures forall i :: 0 <= i < |r| ==> r[i] == ' '
  {
    if depth == 0 then "" else "  " + Indent(depth - 1)
  }

  /** The four lower-case hexadecimal digits `JSON.stringify` writes after `\u`. */
  function Hex4(n: nat): (r: string)
    requires n < 0x1_0000
    ensures |r| == 4
  {
    [HexDigit(n / 0x1000), HexDigit(n / 0x100 % 0x10), HexDigit(n / 0x10 % 0x10), HexDigit(n % 0x10)]
  }

  function HexDigit(d: nat): char
    requires d < 16
  {
    "0123456789abcdef"[d]
  }

  /** One character of a JSON string literal. */
  function EscapeChar(c: char): (r: string)
    ensures |r| >= 1
  {
    if c == '"' then "\\\""
    else if c == '\\' then "\\\\"
    else if c == '\U{0008}' then "\\b"
    else if c == '\U{000C}' then "\\f"
    else if c == '\n' then "\\n"
    else if c == '\r' then "\\r"
    else if c == '\t' then "\\t"
    else if (c as int) < 0x20 then "\\u" + Hex4(c as int)
    else [c]
  }

  function EscapeChars(s: string): string
  {
    if s == [] then "" else EscapeChar(s[0]) + EscapeChars(s[1..])
  }

  /** A string literal: escaped characters between double quotes. */
  function Quote(s: string): (r: string)
    ensures |r| >= 2 && r[0] == '"' && r[|r| - 1] == '"'
  {
    "\"" + EscapeChars(s) + "\""
  }

  /**
   * `JSON.stringify(j, null, 2)` for a value nested `depth` levels deep: a non-empty
   * array or object puts each element on its own line, indented one level further,
   * and closes on a line at its own level; empty ones print as `[]` and `{}`.
   */
  function Render(j: Json, depth: nat): (r: string)
    ensures |r| >= 1
    ensures j.JArr? ==> r[0] == '[' && r[|r| - 1] == ']'
    ensures j.JObj? ==> r[0] == '{' && r[|r| - 1] == '}'
    ensures j.JStr? ==> r[0] == '"' && r[|r| - 1] == '"'
  {
    match j
    case JNull => "null"
    case JBool(b) => if b then "true" else "false"
    case JNum(n) => Strings.IntToString(n)
    case JStr(s) => Quote(s)
    case JArr(items) =>
      if items == [] then "[]"
      else "[\n" + RenderItems(items, depth + 1) + "\n" + Indent(depth) + "]"
    case JObj(fs) =>
      if fs == [] then "{}"
      else "{\n" + RenderFields(fs, depth + 1) + "\n" + Indent(depth) + "}"
  }

  /** Array elements, one per line at `depth`, separated by `,` and a line break. */
  function RenderItems(items: seq<Json>, depth: nat): string
    requires items != []
  {
    var line := Indent(depth) + Render(items[0], depth);
    if |items| == 1 then line else line + ",\n" + RenderItems(items[1..], depth)
  }

  /** Object members `"key": value`, one per line at `depth`. */
  function RenderFields(fs: seq<Field>, depth: nat): string
    requires fs != []
  {
    var line := Indent(depth) + Quote(fs[0].key) + ": " + Render(fs[0].value, depth);
    if |fs| == 1 then line else line + ",\n" + RenderFields(fs[1..], depth)
  }

  /** `stableStringify`: the canonical form, printed with a two-space indent. */
  function Stringify(j: Json): string
  {
    Render(Canon(j), 0)
  }

  /** The text depends only on the value up to key insertion order. */
  lemma StringifyOrderIndependent(a: Json, b: Json)
    requires WellFormed(a) && WellFormed(b)
    requires SameUpToKeyOrder(a, b)
    ensures Stringify(a) == Stringify(b)
  {
    CanonOrderIndependent(a, b);
  }

  /** Stringifying the canonical form gives the same text. */
  lemma StringifyCanon(j: Json)
    ensures Stringify(Canon(j)) == Stringify(j)
  {
    CanonIdempotent(j);
  }

  /** A one-field object prints on three lines, its member indented by two spaces. */
  lemma RenderOneField(k: string, v: string)
    ensures Stringify(JObj([Field(k, JStr(v))])) == "{\n  " + Quote(k) + ": " + Quote(v) + "\n}"
  {
    OneFieldCanonical(k, v);
    OneFieldRendered(k, v);
  }

  lemma OneFieldCanonical(k: string, v: string)
    ensures Canon(JObj([Field(k, JStr(v))])) == JObj([Field(k, JStr(v))])
  {
    var fs := [Field(k, JStr(v))];
    assert Canon(JStr(v)) == JStr(v);
    assert CanonFields(fs)[0] == fs[0];
    assert CanonFields(fs) == fs;
    Sorting.SortByIdentity(fs, FieldKey);
  }

  lemma OneFieldRendered(k: string, v: string)
    ensures Render(JObj([Field(k, JStr(v))]), 0) == "{\n  " + Quote(k) + ": " + Quote(v) + "\n}"
  {
    var f := Field(k, JStr(v));
    assert Indent(1) == "  " && Indent(0) == "";
    assert RenderFields([f], 1) == "  " + Quote(k) + ": " + Render(JStr(v), 1);
    assert Render(JObj([f]), 0) == "{\n" + RenderFields([f], 1) + "\n" + "" + "}";
    OneFieldLayout(Quote(k), Quote(v));
  }

  lemma OneFieldLayout(q: string, w: string)
    ensures "{\n" + ("  " + q + ": " + w) + "\n" + "" + "}" == "{\n  " + q + ": " + w + "\n}"
  {
  }


}
