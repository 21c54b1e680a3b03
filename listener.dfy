/**
 * The model observer: one handler per lifecycle event, the shared `log`
 * that appends a revision, and the retention loop that destroys the oldest
 * revisions once the record holds more than its limit.
 */
module RevisionListener {
  import opened Wrappers
  import opened Revisions
  import opened Revisionable

  /**
   * What the listener reads from outside the record: the acting user from
   * the user provider, the request addresses from `$_SERVER`, the clock
   * that stamps `created_at`, and the `revisionable.revisions.limit` and
   * `revisionable.revisions.limitCleanup` configuration defaults.
   */
  datatype Environment = Environment(
    userId: Option<nat>,
    ip: Option<string>,
    ipForwarded: Option<string>,
    now: int,
    defaultLimit: int,
    defaultLimitCleanup: bool)

  /** The `old` and `new` attribute maps a revision stores for an action. */
  datatype Payload = Payload(oldAttributes: map<string, string>, newAttributes: map<string, string>)

  /**
   * The switch in `log`: `created` fills only `new`, `deleted` only `old`,
   * `updated` both, and `restored` (no case of its own) neither.
   */
  function PayloadFor<V>(action: Action, rec: Record<V>, toStr: V -> string): (p: Payload)
    ensures action == Created ==> p == Payload(map[], GetNewAttributes(rec, toStr))
    ensures action == Deleted ==> p == Payload(GetOldAttributes(rec, toStr), map[])
    ensures action == Updated ==> p == Payload(GetOldAttributes(rec, toStr), GetNewAttributes(rec, toStr))
    ensures action == Restored ==> p == Payload(map[], map[])
  {
    match action
    case Created => Payload(map[], GetNewAttributes(rec, toStr))
    case Deleted => Payload(GetOldAttributes(rec, toStr), map[])
    case Updated => Payload(GetOldAttributes(rec, toStr), GetNewAttributes(rec, toStr))
    case Restored => Payload(map[], map[])
  }

  /** The row `revisions()->create(...)` stores, with the id the table assigns. */
  function NewRevision<V>(id: nat, action: Action, rec: Record<V>, toStr: V -> string, env: Environment): (r: Revision)
    ensures r.id == id && r.action == action && r.tableName == rec.table
    ensures r.revisionableType == rec.morphClass && r.revisionableId == rec.key
    ensures r.userId == env.userId && r.ip == env.ip && r.ipForwarded == env.ipForwarded && r.createdAt == env.now
    ensures Payload(r.oldAttributes, r.newAttributes) == PayloadFor(action, rec, toStr)
  {
    var p := PayloadFor(action, rec, toStr);
    Revision(id, action, rec.table, rec.morphClass, rec.key, env.userId,
             p.oldAttributes, p.newAttributes, env.ip, env.ipForwarded, env.now)
  }

  function Max(a: int, b: int): int {
    if a >= b then a else b
  }

  /** The model's limit getter, wired to the trait's `getRevisionLimit`. */
  function LimitOf<V>(rec: Record<V>, env: Environment): int {
    GetRevisionLimit(rec.config.revisionLimit, env.defaultLimit)
  }

  /** The model's cleanup getter, wired to the trait's `getRevisionLimitCleanup`. */
  function CleanupOf<V>(rec: Record<V>, env: Environment): bool {
    GetRevisionLimitCleanup(rec.config.revisionLimitCleanup, env.defaultLimitCleanup)
  }

  /**
   * Retention: with cleanup on and more revisions than the limit, only the
   * newest `limit` revisions (none for a negative limit) survive, in order;
   * otherwise nothing is removed.
   */
  function Retain(revs: seq<Revision>, limit: int, cleanup: bool): (kept: seq<Revision>)
    ensures |kept| <= |revs| && kept == revs[..|kept|]
    ensures cleanup && |revs| > limit ==> |kept| == Max(limit, 0)
    ensures !(cleanup && |revs| > limit) ==> kept == revs
  {
    if cleanup && |revs| > limit then revs[..Max(limit, 0)] else revs
  }

  /** Retention applied a second time removes nothing more. */
  lemma RetainIdempotent(revs: seq<Revision>, limit: int, cleanup: bool)
    ensures Retain(Retain(revs, limit, cleanup), limit, cleanup) == Retain(revs, limit, cleanup)
  {
  }

  /** The revision list after `log(action)` on a list `revs` whose next id is `nextId`. */
  function Logged<V>(revs: seq<Revision>, nextId: nat, action: Action, rec: Record<V>,
                     toStr: V -> string, env: Environment): (r: seq<Revision>)
    ensures !EnableRevisionForModel(rec.config.revisionEnabled) ==> r == revs
    ensures EnableRevisionForModel(rec.config.revisionEnabled) ==>
              |r| <= |revs| + 1 && r == ([NewRevision(nextId, action, rec, toStr, env)] + revs)[..|r|]
    ensures (EnableRevisionForModel(rec.config.revisionEnabled) && !(CleanupOf(rec, env) && |revs| + 1 > LimitOf(rec, env)))
              ==> |r| == |revs| + 1
  {
    if !EnableRevisionForModel(rec.config.revisionEnabled) then revs
    else Retain([NewRevision(nextId, action, rec, toStr, env)] + revs, LimitOf(rec, env), CleanupOf(rec, env))
  }

  /** Whether the handler for `action` calls `log`: `updated` only for a non-empty diff. */
  predicate Qualifies<V>(action: Action, rec: Record<V>, toStr: V -> string) {
    action != Updated || |RecordDiff(rec, toStr)| > 0
  }

  /** The revision list after the handler for `action` has run. */
  function Handled<V>(revs: seq<Revision>, nextId: nat, action: Action, rec: Record<V>,
                      toStr: V -> string, env: Environment): (r: seq<Revision>)
    ensures !Qualifies(action, rec, toStr) ==> r == revs
    ensures |r| <= |revs| + 1
    ensures r == revs || r == ([NewRevision(nextId, action, rec, toStr, env)] + revs)[..|r|]
  {
    if Qualifies(action, rec, toStr) then Logged(revs, nextId, action, rec, toStr, env) else revs
  }

  /** The next id after the handler for `action` has run: one id is used per stored revision. */
  function NextIdAfter<V>(nextId: nat, action: Action, rec: Record<V>, toStr: V -> string): nat {
    if Qualifies(action, rec, toStr) && EnableRevisionForModel(rec.config.revisionEnabled) then nextId + 1
    else nextId
  }

  /** A model with revisioning switched off never gains or loses a revision. */
  lemma DisabledModelLogsNothing<V>(revs: seq<Revision>, nextId: nat, action: Action, rec: Record<V>,
                                    toStr: V -> string, env: Environment)
    requires rec.config.revisionEnabled == Bool(false)
    ensures Handled(revs, nextId, action, rec, toStr, env) == revs
    ensures NextIdAfter(nextId, action, rec, toStr) == nextId
  {
  }

  /** An update whose tracked attributes did not change is not logged. */
  lemma EmptyDiffLogsNothing<V>(revs: seq<Revision>, nextId: nat, rec: Record<V>,
                                toStr: V -> string, env: Environment)
    requires RecordDiff(rec, toStr) == map[]
    ensures Handled(revs, nextId, Updated, rec, toStr, env) == revs
    ensures NextIdAfter(nextId, Updated, rec, toStr) == nextId
  {
  }

  /**
   * A qualifying event on an enabled model that does not trigger pruning
   * adds exactly one revision, in front, carrying the action, the table,
   * the subject, the user and the action's payload.
   */
  lemma QualifyingEventAppendsOne<V>(revs: seq<Revision>, nextId: nat, action: Action, rec: Record<V>,
                                     toStr: V -> string, env: Environment)
    requires EnableRevisionForModel(rec.config.revisionEnabled) && Qualifies(action, rec, toStr)
    requires !CleanupOf(rec, env) || |revs| + 1 <= LimitOf(rec, env)
    ensures |Handled(revs, nextId, action, rec, toStr, env)| == |revs| + 1
    ensures Handled(revs, nextId, action, rec, toStr, env)[1..] == revs
    ensures var r := Handled(revs, nextId, action, rec, toStr, env)[0];
            && r.id == nextId && r.action == action && r.tableName == rec.table
            && r.revisionableType == rec.morphClass && r.revisionableId == rec.key
            && r.userId == env.userId && r.createdAt == env.now
            && Payload(r.oldAttributes, r.newAttributes) == PayloadFor(action, rec, toStr)
  {
  }

  /**
   * When the append takes the record over its limit with cleanup on, the
   * list is brought down to exactly the limit (zero for a negative limit)
   * by dropping only the oldest entries; the new revision survives whenever
   * the limit is at least one.
   */
  lemma PruningKeepsNewest<V>(revs: seq<Revision>, nextId: nat, action: Action, rec: Record<V>,
                              toStr: V -> string, env: Environment)
    requires EnableRevisionForModel(rec.config.revisionEnabled) && Qualifies(action, rec, toStr)
    requires CleanupOf(rec, env) && |revs| + 1 > LimitOf(rec, env)
    ensures var after := Handled(revs, nextId, action, rec, toStr, env);
            && |after| == Max(LimitOf(rec, env), 0)
            && after == ([NewRevision(nextId, action, rec, toStr, env)] + revs)[..|after|]
            && (LimitOf(rec, env) >= 1 ==> after[0] == NewRevision(nextId, action, rec, toStr, env))
  {
  }

  /** Logging keeps the list newest first and below the next id. */
  lemma HandledKeepsOrder<V>(revs: seq<Revision>, nextId: nat, action: Action, rec: Record<V>,
                             toStr: V -> string, env: Environment)
    requires NewestFirst(revs) && IdsBelow(revs, nextId)
    ensures NewestFirst(Handled(revs, nextId, action, rec, toStr, env))
    ensures IdsBelow(Handled(revs, nextId, action, rec, toStr, env), NextIdAfter(nextId, action, rec, toStr))
  {
  }

  /** With a clock that does not run backwards, logging keeps the list newest first by `created_at`. */
  lemma HandledKeepsChronology<V>(revs: seq<Revision>, nextId: nat, action: Action, rec: Record<V>,
                                  toStr: V -> string, env: Environment)
    requires NewestFirstByTime(revs)
    requires revs != [] ==> revs[0].createdAt <= env.now
    ensures NewestFirstByTime(Handled(revs, nextId, action, rec, toStr, env))
  {
  }

  /** `$collection->reverse()`: the list read oldest first. */
  function Reversed(revs: seq<Revision>): (r: seq<Revision>)
    ensures |r| == |revs|
    ensures forall k :: 0 <= k < |revs| ==> r[k] == revs[|revs| - 1 - k]
  {
    seq(|revs|, k requires 0 <= k < |revs| => revs[|revs| - 1 - k])
  }

  /** `$collection->take(n)` for a positive `n`: the first `n` entries, or all of them when fewer. */
  function Take(revs: seq<Revision>, n: int): (r: seq<Revision>)
    requires n > 0
    ensures |r| == if n >= |revs| then |revs| else n
    ensures r == revs[..|r|]
  {
    if n >= |revs| then revs else revs[..n]
  }

  /** `Revision::destroy($id)` as seen from one record's list: every revision with that id is gone. */
  function RemoveId(revs: seq<Revision>, id: nat): (r: seq<Revision>)
    ensures forall x :: x in r <==> x in revs && x.id != id
    ensures |r| <= |revs|
  {
    if revs == [] then []
    else (if revs[0].id == id then [] else [revs[0]]) + RemoveId(revs[1..], id)
  }

  /** Destroying an id keeps the survivors newest first: the filter does not reorder them. */
  lemma {:induction false} RemoveIdKeepsOrder(revs: seq<Revision>, id: nat)
    requires NewestFirst(revs)
    ensures NewestFirst(RemoveId(revs, id))
  {
    if revs != [] {
      RemoveIdKeepsOrder(revs[1..], id);
      var rest := RemoveId(revs[1..], id);
      if revs[0].id != id {
        forall j | 0 <= j < |rest|
          ensures rest[j].id < revs[0].id
        {
          assert rest[j] in revs[1..];
        }
        assert RemoveId(revs, id) == [revs[0]] + rest;
      }
    }
  }

  /** Destroying an id keeps every survivor below the id bound and on the same record. */
  lemma RemoveIdKeepsBounds(revs: seq<Revision>, id: nat, nextId: nat, subjectType: string, subjectId: nat)
    requires IdsBelow(revs, nextId) && OfSubject(revs, subjectType, subjectId)
    ensures IdsBelow(RemoveId(revs, id), nextId) && OfSubject(RemoveId(revs, id), subjectType, subjectId)
  {
  }

  /** On a newest-first list, destroying the oldest revision's id removes just that last entry. */
  lemma {:induction false} RemoveOldest(revs: seq<Revision>)
    requires NewestFirst(revs) && revs != []
    ensures RemoveId(revs, revs[|revs| - 1].id) == revs[..|revs| - 1]
  {
    var id := revs[|revs| - 1].id;
    if |revs| > 1 {
      assert revs[0].id > id;
      assert revs[1..][|revs| - 2] == revs[|revs| - 1];
      RemoveOldest(revs[1..]);
      assert revs[1..][..|revs| - 2] == revs[1..|revs| - 1];
      assert [revs[0]] + revs[1..|revs| - 1] == revs[..|revs| - 1];
    }
  }

  /** The `i`-th revision the retention loop destroys is the `i`-th oldest. */
  lemma DoomedIsOldest(appended: seq<Revision>, doomed: seq<Revision>, diff: int, i: nat)
    requires diff > 0 && doomed == Take(Reversed(appended), diff) && i < |doomed|
    ensures doomed[i] == appended[|appended| - 1 - i]
  {
  }

  /** Once the `i` oldest are gone, destroying the next oldest leaves one entry fewer. */
  lemma DestroyNextOldest(appended: seq<Revision>, i: nat)
    requires NewestFirst(appended) && i < |appended|
    ensures RemoveId(appended[..|appended| - i], appended[|appended| - 1 - i].id) == appended[..|appended| - (i + 1)]
  {
    var n := |appended|;
    var rest := appended[..n - i];
    assert rest[|rest| - 1] == appended[n - 1 - i];
    PrefixKeepsOrder(appended, n - i);
    RemoveOldest(rest);
    assert rest[..|rest| - 1] == appended[..n - (i + 1)];
  }

  /** Putting the revision with the next id in front keeps the list newest first. */
  lemma PrependKeepsOrder(revs: seq<Revision>, nextId: nat, entry: Revision)
    requires NewestFirst(revs) && IdsBelow(revs, nextId) && entry.id == nextId
    ensures NewestFirst([entry] + revs) && IdsBelow([entry] + revs, nextId + 1)
  {
  }

  /** Putting a revision of the same record in front keeps the list on that record. */
  lemma PrependKeepsSubject(revs: seq<Revision>, entry: Revision, subjectType: string, subjectId: nat)
    requires OfSubject(revs, subjectType, subjectId)
    requires entry.revisionableType == subjectType && entry.revisionableId == subjectId
    ensures OfSubject([entry] + revs, subjectType, subjectId)
  {
  }

  /** A prefix of a newest-first list is newest first. */
  lemma PrefixKeepsOrder(revs: seq<Revision>, k: nat)
    requires NewestFirst(revs) && k <= |revs|
    ensures NewestFirst(revs[..k])
  {
  }

  /**
   * The listener together with the revision list of the one record it is
   * observing, identified by `subjectType` and `subjectId`. `revisions` is
   * that record's `revisions()` relation, newest first; `nextId` is the id
   * the table hands out next.
   */
  class Listener {
    const subjectType: string
    const subjectId: nat
    var revisions: seq<Revision>
    var nextId: nat

    ghost predicate Valid()
      reads this
    {
      && NewestFirst(revisions)
      && IdsBelow(revisions, nextId)
      && OfSubject(revisions, subjectType, subjectId)
    }

    /** A listener for the record `(subjectType, subjectId)` with its existing history. */
    constructor (subjectType: string, subjectId: nat, history: seq<Revision>, nextId: nat)
      requires NewestFirst(history) && IdsBelow(history, nextId) && OfSubject(history, subjectType, subjectId)
      ensures Valid()
      ensures this.subjectType == subjectType && this.subjectId == subjectId
      ensures revisions == history && this.nextId == nextId
    {
      this.subjectType := subjectType;
      this.subjectId := subjectId;
      revisions := history;
      this.nextId := nextId;
    }

    /** The `created` handler. */
    method Created<V>(rec: Record<V>, toStr: V -> string, env: Environment)
      requires Valid()
      requires rec.morphClass == subjectType && rec.key == subjectId
      modifies this
      ensures Valid()
      ensures revisions == Handled(old(revisions), old(nextId), Action.Created, rec, toStr, env)
      ensures nextId == NextIdAfter(old(nextId), Action.Created, rec, toStr)
    {
      Log(Action.Created, rec, toStr, env);
    }

    /** The `updated` handler: logs only when the tracked attributes changed. */
    method Updated<V>(rec: Record<V>, toStr: V -> string, env: Environment)
      requires Valid()
      requires rec.morphClass == subjectType && rec.key == subjectId
      modifies this
      ensures Valid()
      ensures revisions == Handled(old(revisions), old(nextId), Action.Updated, rec, toStr, env)
      ensures nextId == NextIdAfter(old(nextId), Action.Updated, rec, toStr)
    {
      if |RecordDiff(rec, toStr)| > 0 {
        Log(Action.Updated, rec, toStr, env);
      }
    }

    /** The `deleted` handler. */
    method Deleted<V>(rec: Record<V>, toStr: V -> string, env: Environment)
      requires Valid()
      requires rec.morphClass == subjectType && rec.key == subjectId
      modifies this
      ensures Valid()
      ensures revisions == Handled(old(revisions), old(nextId), Action.Deleted, rec, toStr, env)
      ensures nextId == NextIdAfter(old(nextId), Action.Deleted, rec, toStr)
    {
      Log(Action.Deleted, rec, toStr, env);
    }

    /** The `restored` handler. */
    method Restored<V>(rec: Record<V>, toStr: V -> string, env: Environment)
      requires Valid()
      requires rec.morphClass == subjectType && rec.key == subjectId
      modifies this
      ensures Valid()
      ensures revisions == Handled(old(revisions), old(nextId), Action.Restored, rec, toStr, env)
      ensures nextId == NextIdAfter(old(nextId), Action.Restored, rec, toStr)
    {
      Log(Action.Restored, rec, toStr, env);
    }

    /**
     * `log`: nothing when revisioning is off for the model; otherwise
     * store one new revision, then, with cleanup on and more revisions than
     * the limit, destroy the `count - limit` oldest ones one by one.
     */
    method Log<V>(action: Action, rec: Record<V>, toStr: V -> string, env: Environment)
      requires Valid()
      requires rec.morphClass == subjectType && rec.key == subjectId
      modifies this
      ensures Valid()
      ensures revisions == Logged(old(revisions), old(nextId), action, rec, toStr, env)
      ensures nextId == if EnableRevisionForModel(rec.config.revisionEnabled) then old(nextId) + 1 else old(nextId)
    {
      if !EnableRevisionForModel(rec.config.revisionEnabled) {
        return;
      }
      var entry := NewRevision(nextId, action, rec, toStr, env);
      var cleanup := CleanupOf(rec, env);
      var limit := LimitOf(rec, env);
      ghost var goal := Retain([entry] + revisions, limit, cleanup);
      assert goal == Logged(revisions, nextId, action, rec, toStr, env);
      PrependKeepsOrder(revisions, nextId, entry);
      PrependKeepsSubject(revisions, entry, subjectType, subjectId);
      revisions := [entry] + revisions;
      nextId := nextId + 1;

      if cleanup {
        if |revisions| > limit {
          var diff := |revisions| - limit;
          var doomed := Take(Reversed(revisions), diff);
          ghost var appended := revisions;
          ghost var n := |appended|;
          var i := 0;
          while i < |doomed|
            invariant 0 <= i <= |doomed| <= n
            invariant revisions == appended[..n - i]
            invariant nextId == old(nextId) + 1
            invariant Valid()
          {
            DoomedIsOldest(appended, doomed, diff, i);
            DestroyNextOldest(appended, i);
            Destroy(doomed[i].id);
            i := i + 1;
          }
        }
      }
      assert revisions == goal;
    }

    /** `Revision::destroy($id)` on this record's revisions. */
    method Destroy(id: nat)
      requires Valid()
      modifies this
      ensures Valid()
      ensures revisions == RemoveId(old(revisions), id)
      ensures nextId == old(nextId)
    {
      RemoveIdKeepsOrder(revisions, id);
      RemoveIdKeepsBounds(revisions, id, nextId, subjectType, subjectId);
      revisions := RemoveId(revisions, id);
    }
  }
}
