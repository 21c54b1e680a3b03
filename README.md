# Revisionable: a Dafny model of the revisioning engine

This project models the core of the `laravel-revisionable` package: the
`Revisionable` trait that decides which attributes of an Eloquent record are
tracked, stringifies and diffs them, reads the per-model configuration and
answers history queries; and the `Listener` observer that reacts to the
`created`, `updated`, `deleted` and `restored` events by storing one revision
and then pruning the oldest revisions down to the configured limit.

Files:

- `wrappers.dfy` — `Option`, for PHP's `null` results.
- `revisions.dfy` — the `Revision` row (the migration's columns) and the
  orderings assumed of a record's revision relation.
- `revisionable.dfy` — the trait, as pure functions over `map<string, V>` and
  `seq<Revision>`, with the lemmas about them.
- `listener.dfy` — specification functions for the event handlers and the
  retention policy, their lemmas, and the class `Listener`, whose methods
  change a record's revision list in place and are proved against those
  functions. `Log` keeps the source's loop that destroys the oldest revisions
  one at a time.

Modelling decisions:

- Raw attribute values have a type parameter `V`. Stringification is the
  parameter `toStr: V -> string`, which stands for PHP's `(string)` cast. The
  `instanceof DateTime` test at
  src/JohannesSchobel/Revisionable/Traits/Revisionable.php:109 names no
  imported class. Inside the trait's namespace it refers to
  `JohannesSchobel\Revisionable\Traits\DateTime`, which does not exist, so
  the `fromDateTime` branch is never taken. Date values are string-cast like
  every other value.
- A model property such as `$revisionLimit` is a `PropValue`:
  `Null | Bool | Int | Str`. An undeclared property reads as `Null`.
- The acting user, the request addresses, the clock and the two configuration
  defaults form one `Environment` value that every handler receives.
- One `Listener` object stands for the revision list of the one record it
  observes, together with the table's next auto-increment id. The record is
  fixed by the constants `subjectType` and `subjectId`. `Valid()` keeps every
  listed revision on that record. Each handler requires the record it is given
  to be that record, as `$revisioned->revisions()` only ever sees the record's
  own rows (src/JohannesSchobel/Revisionable/Traits/Revisionable.php:160-164).
  The constructor starts from any existing history that is newest first and
  below the next id.
- The `ordered()` scope is defined outside these files. The model assumes that
  it lists revisions newest first, by strictly decreasing id. This is
  `Revisions.NewestFirst`, kept by `Listener.Valid()`. Ordering by
  `created_at` is the separate predicate `Revisions.NewestFirstByTime`. A clock
  that does not run backwards preserves it (`HandledKeepsChronology`).
- The revision limit is an `int`. A negative limit makes `take($diff)` take
  every revision, so pruning then empties the list, the new revision
  included. The model reproduces this.

A deliberate deviation from the code as written:

- The listener calls `getConfigRevisionForModel`, `getConfigRevisionLimitCleanup`
  and `getConfigRevisionLimit`
  (src/JohannesSchobel/Revisionable/Laravel/Listener.php:68, :101, :103).
  None of the modelled files defines these methods. The trait defines
  `enableRevisionForModel` (:242), `getRevisionLimit` (:259) and
  `getRevisionLimitCleanup` (:277) in
  src/JohannesSchobel/Revisionable/Traits/Revisionable.php. Eloquent passes an
  unknown method call on to its query builder, which throws. So unless the
  host model defines the `getConfig*` methods itself, `log` as written fails
  at line 68 and stores nothing, for every event. The model does not
  reproduce that failure. On purpose, it wires the listener to the trait's
  getters (`EnableRevisionForModel`, `LimitOf`, `CleanupOf`), which is what
  the names evidently intend.

Points where the model follows the code as written:
- A `restored` event has no case in `log`'s switch. It therefore stores empty
  `old` and `new` maps, not both snapshots.
- Pruning takes the oldest revisions by reversing the newest-first list.
  Under the ordering assumption these are the lowest ids.
- `hasHistory(0)` behaves like `hasHistory()`, because 0 is falsy in PHP.

## Model

| member | source | states |
|---|---|---|
| Revisionable.GetRevisionableItems | src/JohannesSchobel/Revisionable/Traits/Revisionable.php:122-153 | With a non-empty allow-list, the keys are exactly the input keys that are on the list. Otherwise they are the input keys minus the deny-list, which defaults to the three timestamp columns. Values are unchanged and no key is added. |
| Revisionable.GetRevisionable | src/JohannesSchobel/Revisionable/Traits/Revisionable.php:137-140 | The allow-list is empty when the property is not declared, and the declared list otherwise. |
| Revisionable.GetNonRevisionable | src/JohannesSchobel/Revisionable/Traits/Revisionable.php:148-153 | The deny-list is exactly `created_at`, `updated_at`, `deleted_at` when the property is not declared, and the declared list otherwise. |
| Revisionable.DefaultSelectionDropsTimestamps | src/JohannesSchobel/Revisionable/Traits/Revisionable.php:148-153 | With neither list declared, exactly `created_at`, `updated_at` and `deleted_at` are removed. |
| Revisionable.SelectionIdempotent | src/JohannesSchobel/Revisionable/Traits/Revisionable.php:122-129 | Selecting an already selected map changes nothing. |
| Revisionable.PrepareAttributes | src/JohannesSchobel/Revisionable/Traits/Revisionable.php:106-113 | Stringification keeps the key set and replaces each value by its string form. |
| Revisionable.PrepareCommutesWithSelection | src/JohannesSchobel/Revisionable/Traits/Revisionable.php:80-97 | Selecting then stringifying equals stringifying then selecting. |
| Revisionable.GetOldAttributes | src/JohannesSchobel/Revisionable/Traits/Revisionable.php:80-85 | The keys are exactly the tracked keys of the attributes as loaded. Each value is that attribute's string form. |
| Revisionable.GetNewAttributes | src/JohannesSchobel/Revisionable/Traits/Revisionable.php:92-97 | The keys are exactly the tracked keys of the current attributes. Each value is that attribute's string form. |
| Revisionable.GetDiff | src/JohannesSchobel/Revisionable/Traits/Revisionable.php:70-73 | The diff holds exactly the new entries whose key is absent from the old map or whose value differs there, with the new value. |
| Revisionable.DiffEmptyIffSubmap | src/JohannesSchobel/Revisionable/Traits/Revisionable.php:70-73 | The diff is empty if and only if every new entry appears unchanged in the old map. |
| Revisionable.DiffOfSameIsEmpty | src/JohannesSchobel/Revisionable/Traits/Revisionable.php:70-73 | A map has no diff against itself. |
| Revisionable.DiffPatchesOld | src/JohannesSchobel/Revisionable/Traits/Revisionable.php:70-73 | Laying the diff over the old map reproduces every new entry. |
| Revisionable.RecordDiff | src/JohannesSchobel/Revisionable/Traits/Revisionable.php:70-97 | Every key in the record's diff is a tracked current attribute and carries its string form. A tracked key that is new since loading is always in the diff. The diff is empty if and only if every new tracked value equals the old one. |
| Revisionable.UntrackedChangeHasNoDiff | src/JohannesSchobel/Revisionable/Traits/Revisionable.php:70-97 | When the tracked attributes are the same before and after, the record's diff is empty. |
| Revisionable.TimestampTouchHasNoDiff | src/JohannesSchobel/Revisionable/Traits/Revisionable.php:148-153 | Under the default configuration, changing only `updated_at` gives an empty diff. |
| Revisionable.EnableRevisionForModel | src/JohannesSchobel/Revisionable/Traits/Revisionable.php:242-252 | Revisioning is off if and only if the property is exactly `false`. Null and every other value give true. |
| Revisionable.IsNumeric | src/JohannesSchobel/Revisionable/Traits/Revisionable.php:266 | The integer-string subset of `is_numeric`: only integers and strings can qualify. Every integer does, and a string does if and only if it is an optionally signed run of digits. |
| Revisionable.GetRevisionLimit | src/JohannesSchobel/Revisionable/Traits/Revisionable.php:259-271 | A null or non-numeric property gives the configured default. An integer gives itself. A numeric string gives the number it spells. |
| Revisionable.DigitsValueOfDigits | src/JohannesSchobel/Revisionable/Traits/Revisionable.php:266-270 | The decimal digits of a natural number read back as that number. |
| Revisionable.ParseIntRoundTrip | src/JohannesSchobel/Revisionable/Traits/Revisionable.php:266-270 | An integer written as a string is numeric and reads back as the same limit. |
| Revisionable.LooselyFalse | src/JohannesSchobel/Revisionable/Traits/Revisionable.php:284 | A value is loosely `== false` if and only if it is null, `false`, `0`, `""` or `"0"`. |
| Revisionable.GetRevisionLimitCleanup | src/JohannesSchobel/Revisionable/Traits/Revisionable.php:277-289 | A null property gives the default. Any other property gives false if it is loosely false (`false`, `0`, `""`, `"0"`) and true otherwise. |
| Revisionable.SnapshotIndex | src/JohannesSchobel/Revisionable/Traits/Revisionable.php:28-35 | Gives the first position whose revision was created at or before `t`. Gives none if and only if every revision is later. |
| Revisionable.Snapshot | src/JohannesSchobel/Revisionable/Traits/Revisionable.php:28-35 | Gives none if and only if every revision is later than `t`. Otherwise gives the first listed revision created at or before `t`. |
| Revisionable.SnapshotIsLatestAtOrBefore | src/JohannesSchobel/Revisionable/Traits/Revisionable.php:28-35 | On a list that is newest first by `created_at`, the snapshot is the latest revision created at or before `t`. |
| Revisionable.HistoryStep | src/JohannesSchobel/Revisionable/Traits/Revisionable.php:44-47 | Gives the revision at position `step` of the newest-first list. Gives none if and only if `step` is at least the length. |
| Revisionable.HasHistory | src/JohannesSchobel/Revisionable/Traits/Revisionable.php:56-63 | With a truthy timestamp, true if and only if some revision was created at or before it. Otherwise true if and only if the list is non-empty. |
| RevisionListener.PayloadFor | src/JohannesSchobel/Revisionable/Laravel/Listener.php:72-85 | `created` stores only the new attributes. `deleted` stores only the old ones. `updated` stores both. `restored` stores neither. |
| RevisionListener.NewRevision | src/JohannesSchobel/Revisionable/Laravel/Listener.php:87-98 | The stored row has the next id and carries the action, the table name, the record's morph type and key, the user id, both request addresses, the current time and the action's payload. |
| RevisionListener.Logged | src/JohannesSchobel/Revisionable/Laravel/Listener.php:66-113 | A disabled model keeps its list. Otherwise the result is a prefix of the list with the new revision in front. Without pruning it is exactly one entry longer. |
| RevisionListener.Handled | src/JohannesSchobel/Revisionable/Laravel/Listener.php:23-58 | An event that does not qualify (an update with an empty diff) keeps the list. Otherwise the result is the list unchanged or a prefix of it with the new revision in front, so it grows by at most one. |
| RevisionListener.Retain | src/JohannesSchobel/Revisionable/Laravel/Listener.php:100-111 | The result is always a prefix of the list: only the oldest entries go. With cleanup on and more entries than the limit, its length is the limit, or 0 when the limit is negative. Otherwise the list is unchanged. |
| RevisionListener.RetainIdempotent | src/JohannesSchobel/Revisionable/Laravel/Listener.php:101-103 | A second pass of pruning removes nothing. |
| RevisionListener.DisabledModelLogsNothing | src/JohannesSchobel/Revisionable/Laravel/Listener.php:66-70 | With `$revisionEnabled === false`, no event changes the list or uses an id. |
| RevisionListener.EmptyDiffLogsNothing | src/JohannesSchobel/Revisionable/Laravel/Listener.php:33-38 | An `updated` event with an empty diff leaves the list and the next id unchanged. |
| RevisionListener.QualifyingEventAppendsOne | src/JohannesSchobel/Revisionable/Laravel/Listener.php:87-98 | Covers a qualifying event on an enabled model that does not trigger pruning. It adds exactly one revision, in front, and keeps the older ones. The new revision has the next id and carries the action, table, subject, user, timestamp and the action's payload. |
| RevisionListener.PruningKeepsNewest | src/JohannesSchobel/Revisionable/Laravel/Listener.php:100-111 | Covers cleanup when the count after the append exceeds the limit. The list becomes exactly the newest `limit` revisions (none for a negative limit), in their order. The new revision survives whenever the limit is at least 1. |
| RevisionListener.HandledKeepsOrder | src/JohannesSchobel/Revisionable/Laravel/Listener.php:87-111 | Every handler keeps the list newest first, with all ids below the next id. |
| RevisionListener.HandledKeepsChronology | src/JohannesSchobel/Revisionable/Laravel/Listener.php:87-98 | With a clock that does not run backwards, every handler keeps the list ordered by `created_at`. |
| RevisionListener.PrependKeepsOrder | src/JohannesSchobel/Revisionable/Laravel/Listener.php:87-98 | Putting the revision with the next id in front keeps the list newest first. |
| RevisionListener.PrependKeepsSubject | src/JohannesSchobel/Revisionable/Laravel/Listener.php:87-98 | Putting a revision of the same record in front keeps the whole list on that record. |
| RevisionListener.Reversed | src/JohannesSchobel/Revisionable/Laravel/Listener.php:107 | `reverse()` gives the list oldest first: position k holds the k-th entry from the end. |
| RevisionListener.Take | src/JohannesSchobel/Revisionable/Laravel/Listener.php:107 | For the positive count that line 107 passes, `take(n)` gives the first `min(n, length)` entries. |
| RevisionListener.DoomedIsOldest | src/JohannesSchobel/Revisionable/Laravel/Listener.php:105-108 | The i-th revision the loop destroys is the i-th oldest. |
| RevisionListener.RemoveId | src/JohannesSchobel/Revisionable/Laravel/Listener.php:109 | After `Revision::destroy($id)`, a revision remains if and only if it was listed and has a different id. Every other row survives, and none is added. |
| RevisionListener.RemoveIdKeepsOrder | src/JohannesSchobel/Revisionable/Laravel/Listener.php:109 | Destroying an id keeps the survivors newest first. |
| RevisionListener.RemoveIdKeepsBounds | src/JohannesSchobel/Revisionable/Laravel/Listener.php:109 | Destroying an id keeps every survivor below the next id and on the observed record. |
| RevisionListener.RemoveOldest | src/JohannesSchobel/Revisionable/Laravel/Listener.php:108-110 | On a newest-first list, destroying the last entry's id removes exactly that entry. |
| RevisionListener.DestroyNextOldest | src/JohannesSchobel/Revisionable/Laravel/Listener.php:108-110 | Once the i oldest are gone, destroying the next oldest leaves the prefix one entry shorter. |
| RevisionListener.Listener.constructor | src/JohannesSchobel/Revisionable/Laravel/Listener.php:13-16 | A listener for one record starts from that record's existing history, which must be newest first, below the next id and on that record. The injected user provider becomes the `userId` input. |
| RevisionListener.Listener.Created | src/JohannesSchobel/Revisionable/Laravel/Listener.php:23-26 | The `created` handler leaves the list that `Handled` describes for `created`. |
| RevisionListener.Listener.Updated | src/JohannesSchobel/Revisionable/Laravel/Listener.php:33-38 | The `updated` handler logs only for a non-empty diff. The new list is `Handled` for `updated`. |
| RevisionListener.Listener.Deleted | src/JohannesSchobel/Revisionable/Laravel/Listener.php:45-48 | The `deleted` handler leaves the list that `Handled` describes for `deleted`. |
| RevisionListener.Listener.Restored | src/JohannesSchobel/Revisionable/Laravel/Listener.php:55-58 | The `restored` handler leaves the list that `Handled` describes for `restored`. |
| RevisionListener.Listener.Log | src/JohannesSchobel/Revisionable/Laravel/Listener.php:66-113 | Keeps the list valid. A disabled model changes nothing. Otherwise one revision is added and the destroy loop leaves exactly `Retain` of the appended list. The next id advances by one exactly when a revision was stored. |
| RevisionListener.Listener.Destroy | src/JohannesSchobel/Revisionable/Laravel/Listener.php:109 | Keeps the list valid. It removes from this record's list exactly the revisions with the given id, and the next id is unchanged. |

## Left out

- Rollback: none of the modelled files contains rollback code, so none is modelled.
- The service provider, the session and guard user providers, the `ExecutesActions` trait and the migration are framework glue. The acting user is the `userId` input, and the migration's columns shape `Revision`.
- `bootRevisionable` (observer registration) is not modelled. The four handler methods stand for the registered observer.
- Relation accessors and `latestRevision`, and `wrapRevision` with the presenter class, are not modelled. The presenter class is not part of this model.
- `json_encode` of `old`/`new` is not modelled: they stay maps. The `$_SERVER` address lookups are opaque optional strings.
- `Carbon::parse` is not modelled: timestamps are integers.
- PrepareAttributes: the `(string)` cast is not interpreted; it is the `toStr` parameter.
- IsNumeric: only the integer strings that `is_numeric` accepts are modelled. Strings such as `"1.5"`, `"1e3"`, `".5"`, `" 5"` and (since PHP 8) `"5 "` count as non-numeric here, although PHP accepts them.
- GetRevisionLimit: a numeric string with a fraction, an exponent or surrounding whitespace is treated as non-numeric, although PHP's `is_numeric` accepts it. Float limits are not modelled.
- GetRevisionLimit: the configured default is an integer. A null default, and PHP's loose `count > null` comparison it would cause, are not modelled.
- GetRevisionLimitCleanup: the configured default is a boolean, not an arbitrary PHP value.
- Take: a negative count is not modelled. Laravel would then take entries from the end, but the only call passes a positive count.
- HistoryStep: the step is a natural number. Negative `skip` offsets are not modelled.
- Listener.Destroy: `Revision::destroy` deletes by id across the whole table. The model sees only the observed record's list.
- Listener.Log: storage failures, transactions and concurrent appends or prunes are not modelled. Each call runs to completion alone.
