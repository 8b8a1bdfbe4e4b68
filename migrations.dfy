/**
 * `migrateToLatest`: the version gate and the chain of schema migrations an import
 * file passes through before it is validated. The list of migrations is empty today,
 * so a supported file comes out as a copy of itself.
 */
module Migrations {
  import opened Wrappers
  import opened Json
  import Strings

  const CurrentVersion: int := 1

  /** `Steps[i]` upgrades a version `i + 1` document to version `i + 2`; there are none yet. */
  const Steps: seq<seq<Field> -> seq<Field>> := []

  /**
   * A version as JavaScript arithmetic and comparison see it: a number, or `NaN` for
   * a value that does not coerce to one.
   */
  datatype Version = Num(n: int) | NaN

  datatype MigrationError =
    | Unsupported(message: string)
    /** `migrations[i]` read below index 0 is `undefined`, and calling it throws. */
    | NotAFunction

  /**
   * `{ ...data }`: an object's own fields, in order; an array's elements and a
   * string's characters under their decimal indices; nothing for other primitives.
   */
  function Copy(data: Json): (r: seq<Field>)
    ensures data.JObj? ==> r == data.fields
    ensures data.JNull? || data.JBool? || data.JNum? ==> r == []
    ensures data.JArr? ==> (|r| == |data.items| &&
      forall i :: 0 <= i < |r| ==> r[i] == Field(Strings.NatToString(i), data.items[i]))
  {
    match data
    case JObj(fs) => fs
    case JArr(items) => seq(|items|, i requires 0 <= i < |items| => Field(Strings.NatToString(i), items[i]))
    case JStr(s) => seq(|s|, i requires 0 <= i < |s| => Field(Strings.NatToString(i), JStr([s[i]])))
    case _ => []
  }

  /**
   * `(current.schemaVersion as number) ?? 1`, as a number: `undefined` and `null`
   * become 1, a boolean counts as 0 or 1, and anything else but a number is `NaN`.
   */
  function VersionOf(fs: seq<Field>): (v: Version)
    ensures !HasKey(fs, "schemaVersion") ==> v == Num(1)
    ensures Lookup(fs, "schemaVersion") == Some(JNull) ==> v == Num(1)
    ensures forall n :: Lookup(fs, "schemaVersion") == Some(JNum(n)) ==> v == Num(n)
    ensures v.NaN? <==> (Lookup(fs, "schemaVersion").Some? &&
                         (Lookup(fs, "schemaVersion").value.JStr? ||
                          Lookup(fs, "schemaVersion").value.JArr? ||
                          Lookup(fs, "schemaVersion").value.JObj?))
  {
    match Lookup(fs, "schemaVersion")
    case None => Num(1)
    case Some(JNull) => Num(1)
    case Some(JBool(b)) => Num(if b then 1 else 0)
    case Some(JNum(n)) => Num(n)
    case Some(_) => NaN
  }

  const MessageStart := "Unsupported schema version "
  const MessageMiddle := ". Current version is "
  const MessageEnd := ". Please update the application."

  function UnsupportedMessage(v: int): string
  {
    MessageStart + Strings.IntToString(v) + MessageMiddle + Strings.IntToString(CurrentVersion) + MessageEnd
  }

  /** The loop `for (let i = from; i < migrations.length; i++) current = migrations[i](current)`. */
  function Run(steps: seq<seq<Field> -> seq<Field>>, current: seq<Field>, from: int): Result<seq<Field>, MigrationError>
    decreases |steps| - from
  {
    if from >= |steps| then Ok(current)
    else if from < 0 then Err(NotAFunction)
    else Run(steps, steps[from](current), from + 1)
  }

  /** Applies `steps` in order, first to last. */
  function Chain(current: seq<Field>, steps: seq<seq<Field> -> seq<Field>>): seq<Field>
    decreases |steps|
  {
    if steps == [] then current else Chain(steps[0](current), steps[1..])
  }

  /** What `migrateToLatest` returns or throws for a parsed document, given the migration list. */
  function MigrateWith(steps: seq<seq<Field> -> seq<Field>>, data: Json): Result<seq<Field>, MigrationError>
  {
    var current := Copy(data);
    match VersionOf(current)
    case NaN => Ok(current)
    case Num(v) => if v > CurrentVersion then Err(Unsupported(UnsupportedMessage(v))) else Run(steps, current, v - 1)
  }

  /** What `migrateToLatest` returns or throws with today's migration list. */
  function Migrate(data: Json): Result<seq<Field>, MigrationError>
  {
    MigrateWith(Steps, data)
  }

  /** The migration gate and loop over any migration list. */
  method Upgrade(steps: seq<seq<Field> -> seq<Field>>, data: Json) returns (r: Result<seq<Field>, MigrationError>)
    ensures r == MigrateWith(steps, data)
  {
    var current := Copy(data);
    var version := VersionOf(current);
    if version.NaN? {
      return Ok(current);
    }
    if version.n > CurrentVersion {
      return Err(Unsupported(UnsupportedMessage(version.n)));
    }
    var i := version.n - 1;
    while i < |steps|
      invariant Run(steps, current, i) == MigrateWith(steps, data)
      decreases |steps| - i
    {
      if i < 0 {
        return Err(NotAFunction);
      }
      current := steps[i](current);
      i := i + 1;
    }
    return Ok(current);
  }

  /** `migrateToLatest`. */
  method MigrateToLatest(data: Json) returns (r: Result<seq<Field>, MigrationError>)
    ensures r == Migrate(data)
  {
    r := Upgrade(Steps, data);
  }

  // ---- Properties ----

  /** From a version in the supported range the migrations run in order, from `version - 1` to the end. */
  lemma {:induction false} RunChains(steps: seq<seq<Field> -> seq<Field>>, current: seq<Field>, from: int)
    requires 0 <= from <= |steps|
    ensures Run(steps, current, from) == Ok(Chain(current, steps[from..]))
    decreases |steps| - from
  {
    if from < |steps| {
      RunChains(steps, steps[from](current), from + 1);
      assert steps[from..][1..] == steps[from + 1..];
    }
  }

  /** A document at the current version comes out as a copy equal to the input. */
  lemma CurrentVersionIsCopy(data: Json)
    requires data.JObj?
    requires VersionOf(data.fields) == Num(CurrentVersion)
    ensures Migrate(data) == Ok(data.fields)
  {
    RunChains(Steps, data.fields, CurrentVersion - 1);
  }

  /** A missing or `null` version counts as version 1. */
  lemma MissingVersionIsCurrent(fs: seq<Field>)
    requires !HasKey(fs, "schemaVersion") || Lookup(fs, "schemaVersion") == Some(JNull)
    ensures Migrate(JObj(fs)) == Ok(fs)
  {
    CurrentVersionIsCopy(JObj(fs));
  }

  /**
   * A newer version is rejected with a message that starts "Unsupported schema
   * version", then names that version and, after "Current version is", the current one.
   */
  lemma NewerVersionRejected(fs: seq<Field>, v: int)
    requires Lookup(fs, "schemaVersion") == Some(JNum(v)) && v > CurrentVersion
    ensures Migrate(JObj(fs)).Err? && Migrate(JObj(fs)).error.Unsupported?
    ensures var m := Migrate(JObj(fs)).error.message;
      var sv := Strings.IntToString(v);
      Strings.OccursAt(MessageStart, m, 0) &&
      Strings.OccursAt(sv, m, |MessageStart|) &&
      Strings.OccursAt(MessageMiddle, m, |MessageStart| + |sv|) &&
      Strings.OccursAt(Strings.IntToString(CurrentVersion), m, |MessageStart| + |sv| + |MessageMiddle|)
  {
    var sv := Strings.IntToString(v);
    var cv := Strings.IntToString(CurrentVersion);
    var m := UnsupportedMessage(v);
    assert m == MessageStart + sv + MessageMiddle + cv + MessageEnd;
    assert m[..|MessageStart|] == MessageStart;
    assert m[|MessageStart|..|MessageStart| + |sv|] == sv;
    assert m[|MessageStart| + |sv|..|MessageStart| + |sv| + |MessageMiddle|] == MessageMiddle;
    assert m[|MessageStart| + |sv| + |MessageMiddle|..|MessageStart| + |sv| + |MessageMiddle| + |cv|] == cv;
  }

  /** A version below 1 reads `migrations[-1]` or lower, which is not a function. */
  lemma OlderVersionFails(fs: seq<Field>, v: int)
    requires Lookup(fs, "schemaVersion") == Some(JNum(v)) && v < 1
    ensures Migrate(JObj(fs)) == Err(NotAFunction)
  {
  }

  /** A version that does not coerce to a number skips both the gate and the loop. */
  lemma NaNVersionPassesThrough(fs: seq<Field>)
    requires VersionOf(fs).NaN?
    ensures Migrate(JObj(fs)) == Ok(fs)
  {
  }
}
