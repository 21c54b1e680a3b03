/**
 * The Revisionable trait: which attributes of a record are tracked, how they
 * are stringified and compared, the per-model configuration getters, and the
 * history queries over the record's ordered revision list.
 */
module Revisionable {
  import opened Wrappers
  import opened Revisions

  /**
   * The value of an optional model property such as `$revisionEnabled`.
   * `Null` stands both for a property set to null and for one that is not
   * declared (Eloquent answers an undeclared property with null).
   */
  datatype PropValue = Null | Bool(b: bool) | Int(i: int) | Str(s: string)

  /**
   * Per-model configuration. `revisionable` and `nonRevisionable` are `None`
   * when the property is not declared, otherwise the property cast to a list.
   */
  datatype Config = Config(
    revisionable: Option<seq<string>>,
    nonRevisionable: Option<seq<string>>,
    revisionEnabled: PropValue,
    revisionLimit: PropValue,
    revisionLimitCleanup: PropValue)

  /**
   * A revisionable record as the listener sees it: its table, its morph
   * type and key, the attributes as loaded (`original`) and as they are now
   * (`attributes`). `V` is the type of raw attribute values.
   */
  datatype Record<V> = Record(
    table: string,
    morphClass: string,
    key: nat,
    original: map<string, V>,
    attributes: map<string, V>,
    config: Config)

  /** The deny-list used when a model declares no `nonRevisionable` property. */
  const DefaultNonRevisionable: seq<string> := ["created_at", "updated_at", "deleted_at"]

  /** The keys of a flipped list (`array_flip`). */
  function KeySet(names: seq<string>): set<string> {
    set k | k in names
  }

  /** The allow-list; empty when the property is not declared. */
  function GetRevisionable(c: Config): (allow: seq<string>)
    ensures c.revisionable.None? ==> allow == []
    ensures c.revisionable.Some? ==> allow == c.revisionable.value
  {
    if c.revisionable.Some? then c.revisionable.value else []
  }

  /** The deny-list; the three timestamp columns when the property is not declared. */
  function GetNonRevisionable(c: Config): (deny: seq<string>)
    ensures c.nonRevisionable.None? ==> KeySet(deny) == {"created_at", "updated_at", "deleted_at"}
    ensures c.nonRevisionable.Some? ==> deny == c.nonRevisionable.value
  {
    if c.nonRevisionable.Some? then c.nonRevisionable.value else DefaultNonRevisionable
  }

  /**
   * Attribute selection: a non-empty allow-list keeps exactly the listed
   * keys, otherwise the deny-list keys are dropped. Values are kept as they
   * are and no key is added.
   */
  function GetRevisionableItems<V>(c: Config, values: map<string, V>): (r: map<string, V>)
    ensures |GetRevisionable(c)| > 0 ==> r.Keys == values.Keys * KeySet(GetRevisionable(c))
    ensures |GetRevisionable(c)| == 0 ==> r.Keys == values.Keys - KeySet(GetNonRevisionable(c))
    ensures forall k :: k in r ==> k in values && r[k] == values[k]
  {
    var allow := GetRevisionable(c);
    if |allow| > 0 then
      map k | k in values && k in allow :: values[k]
    else
      var deny := GetNonRevisionable(c);
      map k | k in values && k !in deny :: values[k]
  }

  /** Without an allow-list or a deny-list, exactly the three timestamp columns are dropped. */
  lemma DefaultSelectionDropsTimestamps<V>(c: Config, values: map<string, V>)
    requires |GetRevisionable(c)| == 0 && c.nonRevisionable.None?
    ensures GetRevisionableItems(c, values).Keys == values.Keys - {"created_at", "updated_at", "deleted_at"}
  {
  }

  /** Selecting twice selects nothing more. */
  lemma SelectionIdempotent<V>(c: Config, values: map<string, V>)
    ensures GetRevisionableItems(c, GetRevisionableItems(c, values)) == GetRevisionableItems(c, values)
  {
  }

  /** Stringification (`array_map` of the string cast): same keys, each value converted by `toStr`. */
  function PrepareAttributes<V>(attributes: map<string, V>, toStr: V -> string): (r: map<string, string>)
    ensures r.Keys == attributes.Keys
    ensures forall k :: k in r ==> r[k] == toStr(attributes[k])
  {
    map k | k in attributes :: toStr(attributes[k])
  }

  /** Selecting and then stringifying is the same as stringifying and then selecting. */
  lemma PrepareCommutesWithSelection<V>(c: Config, values: map<string, V>, toStr: V -> string)
    ensures PrepareAttributes(GetRevisionableItems(c, values), toStr)
         == GetRevisionableItems(c, PrepareAttributes(values, toStr))
  {
  }

  /** The tracked, stringified attributes as loaded. */
  function GetOldAttributes<V>(rec: Record<V>, toStr: V -> string): (r: map<string, string>)
    ensures r.Keys == GetRevisionableItems(rec.config, rec.original).Keys
    ensures forall k :: k in r ==> k in rec.original && r[k] == toStr(rec.original[k])
  {
    PrepareAttributes(GetRevisionableItems(rec.config, rec.original), toStr)
  }

  /** The tracked, stringified attributes as they are now. */
  function GetNewAttributes<V>(rec: Record<V>, toStr: V -> string): (r: map<string, string>)
    ensures r.Keys == GetRevisionableItems(rec.config, rec.attributes).Keys
    ensures forall k :: k in r ==> k in rec.attributes && r[k] == toStr(rec.attributes[k])
  {
    PrepareAttributes(GetRevisionableItems(rec.config, rec.attributes), toStr)
  }

  /**
   * `array_diff_assoc(new, old)`: the entries of `newAttrs` whose key is
   * missing from `oldAttrs` or whose value differs there.
   */
  function GetDiff(newAttrs: map<string, string>, oldAttrs: map<string, string>): (d: map<string, string>)
    ensures forall k :: k in d <==> k in newAttrs && (k !in oldAttrs || oldAttrs[k] != newAttrs[k])
    ensures forall k :: k in d ==> d[k] == newAttrs[k]
  {
    map k | k in newAttrs && (k !in oldAttrs || oldAttrs[k] != newAttrs[k]) :: newAttrs[k]
  }

  /** The diff is empty exactly when every new entry is already present, unchanged, in the old map. */
  lemma DiffEmptyIffSubmap(newAttrs: map<string, string>, oldAttrs: map<string, string>)
    ensures GetDiff(newAttrs, oldAttrs) == map[]
        <==> forall k :: k in newAttrs ==> k in oldAttrs && oldAttrs[k] == newAttrs[k]
  {
  }

  /** A map compared with itself has no diff. */
  lemma DiffOfSameIsEmpty(attrs: map<string, string>)
    ensures GetDiff(attrs, attrs) == map[]
  {
  }

  /** Applying the diff on top of the old map reproduces every new entry. */
  lemma DiffPatchesOld(newAttrs: map<string, string>, oldAttrs: map<string, string>)
    ensures forall k :: k in newAttrs ==>
              k in oldAttrs + GetDiff(newAttrs, oldAttrs) && (oldAttrs + GetDiff(newAttrs, oldAttrs))[k] == newAttrs[k]
  {
  }

  /** The diff the `updated` handler tests: new tracked attributes against old ones. */
  function RecordDiff<V>(rec: Record<V>, toStr: V -> string): (d: map<string, string>)
    ensures forall k :: k in d ==>
              k in GetRevisionableItems(rec.config, rec.attributes) && d[k] == toStr(rec.attributes[k])
    ensures forall k :: k in GetNewAttributes(rec, toStr) && k !in GetOldAttributes(rec, toStr) ==> k in d
    ensures d == map[] <==> forall k :: k in GetNewAttributes(rec, toStr) ==>
              k in GetOldAttributes(rec, toStr) && GetOldAttributes(rec, toStr)[k] == GetNewAttributes(rec, toStr)[k]
  {
    DiffEmptyIffSubmap(GetNewAttributes(rec, toStr), GetOldAttributes(rec, toStr));
    GetDiff(GetNewAttributes(rec, toStr), GetOldAttributes(rec, toStr))
  }

  /** A change confined to attributes that are not tracked yields an empty diff. */
  lemma UntrackedChangeHasNoDiff<V>(rec: Record<V>, toStr: V -> string)
    requires GetRevisionableItems(rec.config, rec.original) == GetRevisionableItems(rec.config, rec.attributes)
    ensures RecordDiff(rec, toStr) == map[]
  {
  }

  /** Touching only `updated_at` on a model with the default configuration yields an empty diff. */
  lemma TimestampTouchHasNoDiff<V>(rec: Record<V>, toStr: V -> string, stamp: V)
    requires |GetRevisionable(rec.config)| == 0 && rec.config.nonRevisionable.None?
    requires rec.attributes == rec.original["updated_at" := stamp]
    ensures RecordDiff(rec, toStr) == map[]
  {
  }

  // ---------------------------------------------------------------------
  // Per-model configuration getters

  /** Revisioning is off only when `$revisionEnabled` is exactly `false`. */
  function EnableRevisionForModel(revisionEnabled: PropValue): (enabled: bool)
    ensures !enabled <==> revisionEnabled == Bool(false)
  {
    if revisionEnabled.Null? then true
    else if revisionEnabled == Bool(false) then false
    else true
  }

  predicate IsDigit(ch: char) {
    '0' <= ch <= '9'
  }

  predicate AllDigits(s: string) {
    forall i :: 0 <= i < |s| ==> IsDigit(s[i])
  }

  /** The integer numeric strings `is_numeric` accepts: an optional sign and at least one digit. */
  predicate IsIntegerString(s: string) {
    if |s| > 0 && (s[0] == '+' || s[0] == '-') then |s| > 1 && AllDigits(s[1..])
    else |s| > 0 && AllDigits(s)
  }

  /** The value of a string of decimal digits. */
  function DigitsValue(s: string): nat
    requires AllDigits(s)
  {
    if s == [] then 0
    else 10 * DigitsValue(s[..|s| - 1]) + (s[|s| - 1] as int - '0' as int)
  }

  /** The number a numeric string stands for when PHP compares or subtracts with it. */
  function ParseInt(s: string): int
    requires IsIntegerString(s)
  {
    if s[0] == '-' then 0 - DigitsValue(s[1..]) as int
    else if s[0] == '+' then DigitsValue(s[1..])
    else DigitsValue(s)
  }

  /** The decimal digits of a natural number, without leading zeros. */
  function Digits(n: nat): (s: string)
    ensures |s| > 0 && AllDigits(s)
    decreases n
  {
    var last := ['0' + (n % 10) as char];
    if n < 10 then last else Digits(n / 10) + last
  }

  /** PHP's string form of an integer. */
  function DecimalString(n: int): string {
    if n < 0 then "-" + Digits(-n) else Digits(n)
  }

  lemma {:induction false} DigitsValueOfDigits(n: nat)
    ensures DigitsValue(Digits(n)) == n
    decreases n
  {
    var s := Digits(n);
    if n >= 10 {
      DigitsValueOfDigits(n / 10);
      assert s[..|s| - 1] == Digits(n / 10);
    }
  }

  /** A limit written as a decimal string reads back as the same number. */
  lemma ParseIntRoundTrip(n: int)
    ensures IsIntegerString(DecimalString(n)) && ParseInt(DecimalString(n)) == n
  {
    var s := DecimalString(n);
    if n < 0 {
      assert s[1..] == Digits(-n);
      DigitsValueOfDigits(-n);
    } else {
      DigitsValueOfDigits(n);
    }
  }

  /** `is_numeric` on a property value (booleans are not numeric). */
  predicate IsNumeric(p: PropValue)
    ensures IsNumeric(p) ==> p.Int? || p.Str?
    ensures p.Int? ==> IsNumeric(p)
    ensures p.Str? ==> (IsNumeric(p) <==> IsIntegerString(p.s))
  {
    match p
    case Int(_) => true
    case Str(s) => IsIntegerString(s)
    case _ => false
  }

  /**
   * How many revisions to keep: the configured default when the property is
   * null or not numeric, otherwise the property's number.
   */
  function GetRevisionLimit(revisionLimit: PropValue, default: int): (limit: int)
    ensures !IsNumeric(revisionLimit) ==> limit == default
    ensures revisionLimit.Int? ==> limit == revisionLimit.i
    ensures revisionLimit.Str? && IsNumeric(revisionLimit) ==> limit == ParseInt(revisionLimit.s)
  {
    if revisionLimit.Null? then default
    else if !IsNumeric(revisionLimit) then default
    else match revisionLimit
      case Int(i) => i
      case Str(s) => ParseInt(s)
  }

  /** PHP's loose `$value == false` on a property value. */
  predicate LooselyFalse(p: PropValue)
    ensures p.Null? || p == Bool(false) || p == Int(0) || p == Str("") || p == Str("0") <==> LooselyFalse(p)
  {
    match p
    case Null => true
    case Bool(b) => !b
    case Int(i) => i == 0
    case Str(s) => s == "" || s == "0"
  }

  /**
   * Whether old revisions are pruned: the configured default when the
   * property is null, otherwise the property's truthiness.
   */
  function GetRevisionLimitCleanup(revisionLimitCleanup: PropValue, default: bool): (cleanup: bool)
    ensures revisionLimitCleanup.Null? ==> cleanup == default
    ensures !revisionLimitCleanup.Null? ==> (cleanup <==> !LooselyFalse(revisionLimitCleanup))
  {
    if revisionLimitCleanup.Null? then default
    else if LooselyFalse(revisionLimitCleanup) then false
    else true
  }

  // ---------------------------------------------------------------------
  // History queries over the newest-first revision list

  /** Index `i` holds the first revision, in list order, created at or before `t`. */
  ghost predicate FirstAtOrBefore(revs: seq<Revision>, t: int, i: int) {
    && 0 <= i < |revs|
    && revs[i].createdAt <= t
    && forall j :: 0 <= j < i ==> revs[j].createdAt > t
  }

  /** The position `where('created_at', '<=', t)->first()` picks. */
  function SnapshotIndex(revs: seq<Revision>, t: int): (r: Option<nat>)
    ensures r.Some? ==> FirstAtOrBefore(revs, t, r.value)
    ensures r.None? <==> forall i :: 0 <= i < |revs| ==> revs[i].createdAt > t
  {
    if revs == [] then None
    else if revs[0].createdAt <= t then Some(0)
    else match SnapshotIndex(revs[1..], t)
      case None => None
      case Some(i) => Some(i + 1)
  }

  /** The record's version at time `t`: the first listed revision created at or before `t`. */
  function Snapshot(revs: seq<Revision>, t: int): (r: Option<Revision>)
    ensures r.None? <==> forall i :: 0 <= i < |revs| ==> revs[i].createdAt > t
    ensures r.Some? ==> exists i :: FirstAtOrBefore(revs, t, i) && revs[i] == r.value
  {
    match SnapshotIndex(revs, t)
    case None => None
    case Some(i) => Some(revs[i])
  }

  /** On a list that is newest first by time, the snapshot is the latest revision at or before `t`. */
  lemma SnapshotIsLatestAtOrBefore(revs: seq<Revision>, t: int)
    requires NewestFirstByTime(revs)
    requires Snapshot(revs, t).Some?
    ensures Snapshot(revs, t).value.createdAt <= t
    ensures forall i :: 0 <= i < |revs| && revs[i].createdAt <= t ==>
              revs[i].createdAt <= Snapshot(revs, t).value.createdAt
  {
  }

  /** The revision `step` places back from the newest (`skip(step)->first()`). */
  function HistoryStep(revs: seq<Revision>, step: nat): (r: Option<Revision>)
    ensures r.Some? <==> step < |revs|
    ensures r.Some? ==> r.value == revs[step]
  {
    if step < |revs| then Some(revs[step]) else None
  }

  /**
   * Whether the record has history: at time `t` when a truthy timestamp is
   * given, at all otherwise (a timestamp of 0 is falsy in PHP).
   */
  function HasHistory(revs: seq<Revision>, timestamp: Option<int>): (b: bool)
    ensures (timestamp.None? || timestamp == Some(0)) ==> (b <==> |revs| > 0)
    ensures timestamp.Some? && timestamp.value != 0 ==>
              (b <==> exists i :: 0 <= i < |revs| && revs[i].createdAt <= timestamp.value)
  {
    if timestamp.Some? && timestamp.value != 0 then Snapshot(revs, timestamp.value).Some?
    else |revs| > 0
  }
}
