/**
 * One row of the revisions table (the migration's column list) and the
 * orderings the model assumes for a record's revision relation.
 */
module Revisions {
  import opened Wrappers

  /** The four lifecycle events the listener records, stored in the `action` column. */
  datatype Action = Created | Updated | Deleted | Restored

  /**
   * A stored revision. `oldAttributes` and `newAttributes` hold the selected,
   * stringified attributes that the source stores JSON-encoded; `createdAt`
   * is an integer timestamp.
   */
  datatype Revision = Revision(
    id: nat,
    action: Action,
    tableName: string,
    revisionableType: string,
    revisionableId: nat,
    userId: Option<nat>,
    oldAttributes: map<string, string>,
    newAttributes: map<string, string>,
    ip: Option<string>,
    ipForwarded: Option<string>,
    createdAt: int)

  /**
   * The modelling assumption about the `ordered()` scope: the revision
   * relation lists a record's revisions newest first, that is by strictly
   * decreasing insertion id.
   */
  ghost predicate NewestFirst(revs: seq<Revision>) {
    forall i, j :: 0 <= i < j < |revs| ==> revs[i].id > revs[j].id
  }

  /** Newest first also by timestamp: `created_at` never increases along the list. */
  ghost predicate NewestFirstByTime(revs: seq<Revision>) {
    forall i, j :: 0 <= i < j < |revs| ==> revs[i].createdAt >= revs[j].createdAt
  }

  /** Every stored id is below the next id the table will hand out. */
  ghost predicate IdsBelow(revs: seq<Revision>, nextId: nat) {
    forall i :: 0 <= i < |revs| ==> revs[i].id < nextId
  }

  /** Every revision in the list belongs to the record with this morph type and key. */
  ghost predicate OfSubject(revs: seq<Revision>, subjectType: string, subjectId: nat) {
    forall i :: 0 <= i < |revs| ==> revs[i].revisionableType == subjectType && revs[i].revisionableId == subjectId
  }
}
