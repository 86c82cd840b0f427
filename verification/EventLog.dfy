/** The table of events as a log of versions.

    A version belongs to a key: a room, a set and a label.  Labels are numbered in collation
    order; a label may be missing.  Times of creation are whole microseconds. */
module EventLog {
  import opened Options

  datatype Key = Key(room: nat, eventSet: string, eventLabel: Option<int>)

  datatype Version = Version(
    key: Key,
    attribute: Option<string>,
    removed: bool,
    payload: string,
    occurredAt: int,
    createdBy: string,
    createdAt: int,
    originalOccurredAt: int,
    originalCreatedBy: string)

  predicate OfSet(v: Version, room: nat, eventSet: string) {
    v.key.room == room && v.key.eventSet == eventSet
  }

  /** Within one set of one room all versions of a label carry the same original time. */
  ghost predicate OneOriginal(table: seq<Version>, room: nat, eventSet: string) {
    forall v, w | v in table && w in table && OfSet(v, room, eventSet) && v.key == w.key ::
      v.originalOccurredAt == w.originalOccurredAt
  }

  /** Within one set of one room no two versions of a label occurred at the same time. */
  ghost predicate DistinctTimes(table: seq<Version>, room: nat, eventSet: string) {
    forall v, w | v in table && w in table && OfSet(v, room, eventSet) && v.key == w.key ::
      v.occurredAt == w.occurredAt ==> v == w
  }
}
