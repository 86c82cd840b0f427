/** The vacuum: deleting history that is too deep or too old, and labels that were deleted long
    ago. */
module Vacuum {
  import opened Options
  import opened Sorting
  import opened EventLog
  import opened SetState

  const DELETED := "deleted"
  const MICROS_IN_SECOND := 1_000_000

  /** The configuration, the instant of the run, and the rooms that keep their history. */
  datatype Settings = Settings(
    maxHistorySize: nat,
    maxHistorySeconds: int,
    maxDeletedSeconds: int,
    now: int,
    preserved: set<nat>)

  datatype Record = Record(id: nat, version: Version)

  ghost predicate DistinctIds(table: seq<Record>) {
    forall i, j :: 0 <= i < j < |table| ==> table[i].id != table[j].id
  }

  /** `w` is numbered before `r` in its partition; the database may number versions of the same
      time in any order, here it goes by the identifiers. */
  predicate NumberedBefore(w: Record, r: Record) {
    w.version.key == r.version.key
    && (w.version.occurredAt > r.version.occurredAt
        || (w.version.occurredAt == r.version.occurredAt && w.id < r.id))
  }

  function Later(table: seq<Record>, r: Record): set<Record> {
    set w | w in table && NumberedBefore(w, r)
  }

  /** ROW_NUMBER() OVER (PARTITION BY room_id, set, label ORDER BY occurred_at DESC). */
  function ReverseOrdinal(table: seq<Record>, r: Record): nat {
    |Later(table, r)| + 1
  }

  predicate OlderThan(c: Settings, v: Version, seconds: int) {
    v.createdAt < c.now - seconds * MICROS_IN_SECOND
  }

  predicate TooDeep(c: Settings, table: seq<Record>, r: Record) {
    r.version.key.room !in c.preserved && ReverseOrdinal(table, r) > c.maxHistorySize
  }

  predicate TooOld(c: Settings, table: seq<Record>, r: Record) {
    r.version.key.room !in c.preserved && ReverseOrdinal(table, r) > 1 && OlderThan(c, r.version, c.maxHistorySeconds)
  }

  /** The latest version of a label, saying for long enough that the label was deleted. */
  predicate EndsLabel(c: Settings, table: seq<Record>, s: Record) {
    s.version.key.room !in c.preserved && ReverseOrdinal(table, s) == 1
    && s.version.attribute == Some(DELETED) && OlderThan(c, s.version, c.maxDeletedSeconds)
  }

  /** A missing label joins with nothing. */
  predicate Expired(c: Settings, table: seq<Record>, k: Key) {
    k.eventLabel.Some? && exists s :: s in table && s.version.key == k && EndsLabel(c, table, s)
  }

  predicate Doomed(c: Settings, table: seq<Record>, r: Record) {
    TooDeep(c, table, r) || TooOld(c, table, r) || Expired(c, table, r.version.key)
  }

  function Vacuumed(c: Settings, table: seq<Record>): seq<Record> {
    Filter((r: Record) => !Doomed(c, table, r), table)
  }

  // ---- The statement: three selections of identifiers, then a deletion --------------------------

  method SelectIds(table: seq<Record>, p: Record -> bool) returns (ids: set<nat>)
    requires DistinctIds(table)
    ensures forall r :: r in table ==> (r.id in ids <==> p(r))
  {
    ids := {};
    for i := 0 to |table|
      invariant forall j :: 0 <= j < i ==> (table[j].id in ids <==> p(table[j]))
      invariant forall j :: i <= j < |table| ==> table[j].id !in ids
    {
      if p(table[i]) {
        ids := ids + {table[i].id};
      }
    }
  }

  predicate Joins(s: Record, e: Record) {
    e.version.key == s.version.key && e.version.key.eventLabel.Some?
  }

  /** One of the first `n` rows ends the label of `r`. */
  ghost predicate EndedBy(c: Settings, table: seq<Record>, n: nat, r: Record)
    requires n <= |table|
  {
    n > 0 && ((EndsLabel(c, table, table[n - 1]) && Joins(table[n - 1], r)) || EndedBy(c, table, n - 1, r))
  }

  lemma {:induction false} EndedIffExpired(c: Settings, table: seq<Record>, n: nat, r: Record)
    requires n <= |table|
    ensures EndedBy(c, table, n, r) <==> exists s :: s in table[..n] && EndsLabel(c, table, s) && Joins(s, r)
  {
    if n > 0 {
      EndedIffExpired(c, table, n - 1, r);
      assert table[..n] == table[..n - 1] + [table[n - 1]];
    }
  }

  /** The label of a key is deleted and has been so for longer than deleted labels are kept: its newest
      version says so. */
  lemma {:induction false} ExpiredByColumns(c: Settings, table: seq<Record>, k: Key)
    ensures Expired(c, table, k) <==>
      && k.eventLabel.Some? && k.room !in c.preserved
      && exists s ::
        && s in table && s.version.key == k
        && s.version.attribute == Some("deleted")
        && s.version.createdAt < c.now - c.maxDeletedSeconds * 1_000_000
        && forall w :: w in table && w.version.key == k ==>
             w.version.occurredAt < s.version.occurredAt
             || (w.version.occurredAt == s.version.occurredAt && w.id >= s.id)
  {
    forall s | s in table && s.version.key == k
      ensures ReverseOrdinal(table, s) == 1 <==> forall w :: w in table && w.version.key == k ==>
        w.version.occurredAt < s.version.occurredAt || (w.version.occurredAt == s.version.occurredAt && w.id >= s.id)
    {
      FirstIffNewest(table, s);
    }
  }

  method SelectExpired(c: Settings, table: seq<Record>) returns (ids: set<nat>)
    requires DistinctIds(table)
    ensures forall r :: r in table ==> (r.id in ids <==> Expired(c, table, r.version.key))
    ensures forall r :: r in table ==> (r.id in ids <==>
      && r.version.key.eventLabel.Some? && r.version.key.room !in c.preserved
      && exists s ::
        && s in table && s.version.key == r.version.key
        && s.version.attribute == Some("deleted")
        && s.version.createdAt < c.now - c.maxDeletedSeconds * 1_000_000
        && forall w :: w in table && w.version.key == r.version.key ==>
             w.version.occurredAt < s.version.occurredAt
             || (w.version.occurredAt == s.version.occurredAt && w.id >= s.id))
  {
    ids := {};
    for i := 0 to |table|
      invariant forall r :: r in table ==> (r.id in ids <==> EndedBy(c, table, i, r))
    {
      var s := table[i];
      if EndsLabel(c, table, s) {
        var joined := SelectIds(table, e => Joins(s, e));
        ids := ids + joined;
      }
    }
    assert table[..|table|] == table;
    forall r | r in table ensures r.id in ids <==> Expired(c, table, r.version.key) {
      EndedIffExpired(c, table, |table|, r);
    }
    forall r | r in table {
      ExpiredByColumns(c, table, r.version.key);
    }
  }

  method Delete(table: seq<Record>, ids: set<nat>) returns (rest: seq<Record>)
    ensures rest == Filter((r: Record) => r.id !in ids, table)
  {
    rest := [];
    for i := 0 to |table|
      invariant rest == Filter((r: Record) => r.id !in ids, table[..i])
    {
      FilterSnoc((r: Record) => r.id !in ids, table[..i], table[i]);
      assert table[..i + 1] == table[..i] + [table[i]];
      if table[i].id !in ids {
        rest := rest + [table[i]];
      }
    }
    assert table[..|table|] == table;
  }

  /** What stays, by columns.  A room that keeps its history keeps all of it.  Elsewhere a version stays
      if fewer than `maxHistorySize` versions of its key are numbered before it, if it is the newest or
      not older than the history that is kept, and if its label was not deleted too long ago. */
  lemma {:induction false} SurvivorByColumns(c: Settings, table: seq<Record>, r: Record)
    ensures r in Vacuumed(c, table) <==>
      && r in table
      && (r.version.key.room in c.preserved
          || (var ahead := set w | w in table && w.version.key == r.version.key
                && (w.version.occurredAt > r.version.occurredAt
                    || (w.version.occurredAt == r.version.occurredAt && w.id < r.id));
              && |ahead| < c.maxHistorySize
              && (ahead == {} || r.version.createdAt >= c.now - c.maxHistorySeconds * 1_000_000)
              && !(r.version.key.eventLabel.Some? && exists s ::
                   && s in table && s.version.key == r.version.key && s.version.attribute == Some("deleted")
                   && s.version.createdAt < c.now - c.maxDeletedSeconds * 1_000_000
                   && forall w :: w in table && w.version.key == r.version.key ==>
                        w.version.occurredAt < s.version.occurredAt
                        || (w.version.occurredAt == s.version.occurredAt && w.id >= s.id))))
  {
    Survivors(c, table);
    ExpiredByColumns(c, table, r.version.key);
    assert Later(table, r)
        == set w | w in table && w.version.key == r.version.key
             && (w.version.occurredAt > r.version.occurredAt
                 || (w.version.occurredAt == r.version.occurredAt && w.id < r.id));
  }

  class EventTable {
    var rows: seq<Record>

    ghost predicate Valid()
      reads this
    {
      DistinctIds(rows)
    }

    constructor (rows: seq<Record>)
      requires DistinctIds(rows)
      ensures this.rows == rows && Valid()
    {
      this.rows := rows;
    }

    method Vacuum(c: Settings)
      requires Valid()
      modifies this
      ensures rows == Vacuumed(c, old(rows)) && Valid()
      ensures forall r :: r in rows <==>
        && r in old(rows)
        && (r.version.key.room in c.preserved
            || (var ahead := set w | w in old(rows) && w.version.key == r.version.key
                  && (w.version.occurredAt > r.version.occurredAt
                      || (w.version.occurredAt == r.version.occurredAt && w.id < r.id));
                && |ahead| < c.maxHistorySize
                && (ahead == {} || r.version.createdAt >= c.now - c.maxHistorySeconds * 1_000_000)
                && !(r.version.key.eventLabel.Some? && exists s ::
                       && s in old(rows) && s.version.key == r.version.key && s.version.attribute == Some("deleted")
                       && s.version.createdAt < c.now - c.maxDeletedSeconds * 1_000_000
                       && forall w :: w in old(rows) && w.version.key == r.version.key ==>
                            w.version.occurredAt < s.version.occurredAt
                            || (w.version.occurredAt == s.version.occurredAt && w.id >= s.id))))
    {
      var table := rows;
      var deep := SelectIds(table, r => TooDeep(c, table, r));
      var stale := SelectIds(table, r => TooOld(c, table, r));
      var expired := SelectExpired(c, table);
      rows := Delete(table, deep + stale + expired);
      FilterAgrees((r: Record) => r.id !in deep + stale + expired, (r: Record) => !Doomed(c, table, r), table);
      VacuumedDistinct(c, table);
      forall r {
        SurvivorByColumns(c, table, r);
      }
    }
  }

  lemma {:induction false} FilterDistinct(p: Record -> bool, table: seq<Record>)
    requires DistinctIds(table)
    ensures DistinctIds(Filter(p, table))
  {
    if table != [] {
      FilterDistinct(p, table[1..]);
      FilterMembers(p, table[1..]);
      var rest := Filter(p, table[1..]);
      forall j | 0 <= j < |rest| ensures rest[j].id != table[0].id {
        assert rest[j] in rest;
      }
      assert Filter(p, table) == if p(table[0]) then [table[0]] + rest else rest;
    }
  }

  lemma {:induction false} VacuumedDistinct(c: Settings, table: seq<Record>)
    requires DistinctIds(table)
    ensures DistinctIds(Vacuumed(c, table))
  {
    FilterDistinct((r: Record) => !Doomed(c, table, r), table);
  }

  // ---- Ordinals --------------------------------------------------------------------------

  lemma {:induction false} Survivors(c: Settings, table: seq<Record>)
    ensures forall r :: r in Vacuumed(c, table) <==> r in table && !Doomed(c, table, r)
  {
    FilterMembers((r: Record) => !Doomed(c, table, r), table);
  }

  lemma {:induction false} SubsetSize(a: set<Record>, b: set<Record>)
    requires a <= b
    ensures |a| <= |b|
  {
    assert a + (b - a) == b;
  }

  /** Nothing of its key is numbered before it. */
  ghost predicate IsNewest(table: seq<Record>, r: Record) {
    r in table && forall w :: w in table ==> !NumberedBefore(w, r)
  }

  lemma {:induction false} FirstIffNewest(table: seq<Record>, r: Record)
    requires r in table
    ensures ReverseOrdinal(table, r) == 1 <==> IsNewest(table, r)
  {
    if ReverseOrdinal(table, r) == 1 {
      forall w | w in table ensures !NumberedBefore(w, r) {
        assert w !in Later(table, r);
      }
    } else {
      assert Later(table, r) != {};
      var w :| w in Later(table, r);
    }
  }

  /** Fewer rows, smaller ordinals. */
  lemma {:induction false} OrdinalShrinks(c: Settings, table: seq<Record>, r: Record)
    ensures ReverseOrdinal(Vacuumed(c, table), r) <= ReverseOrdinal(table, r)
  {
    Survivors(c, table);
    SubsetSize(Later(Vacuumed(c, table), r), Later(table, r));
  }

  /** Every key has a version that is numbered first. */
  lemma {:induction false} NewestOf(table: seq<Record>, r: Record) returns (l: Record)
    requires r in table
    ensures IsNewest(table, l) && l.version.key == r.version.key && l.version.occurredAt >= r.version.occurredAt
    decreases Later(table, r)
  {
    if Later(table, r) == {} {
      l := r;
      forall w | w in table ensures !NumberedBefore(w, r) {
        assert w !in Later(table, r);
      }
    } else {
      var w :| w in Later(table, r);
      assert w !in Later(table, w);
      l := NewestOf(table, w);
    }
  }

  lemma {:induction false} OneNewest(table: seq<Record>, r: Record, s: Record)
    requires DistinctIds(table) && r in table && s in table && r.version.key == s.version.key
    requires !NumberedBefore(r, s) && !NumberedBefore(s, r)
    ensures r == s
  {
    var i :| 0 <= i < |table| && table[i] == r;
    var j :| 0 <= j < |table| && table[j] == s;
  }

  /** The latest version stays unless its whole label goes. */
  lemma {:induction false} NewestSurvives(c: Settings, table: seq<Record>, r: Record)
    requires c.maxHistorySize >= 1 && IsNewest(table, r)
    ensures r in Vacuumed(c, table) <==> !Expired(c, table, r.version.key)
  {
    Survivors(c, table);
    FirstIffNewest(table, r);
  }

  lemma {:induction false} SameNewest(c: Settings, table: seq<Record>, r: Record)
    requires c.maxHistorySize >= 1 && DistinctIds(table)
    ensures IsNewest(Vacuumed(c, table), r) <==> IsNewest(table, r) && !Expired(c, table, r.version.key)
  {
    Survivors(c, table);
    if IsNewest(table, r) {
      NewestSurvives(c, table, r);
    }
    if IsNewest(Vacuumed(c, table), r) {
      var l := NewestOf(table, r);
      NewestSurvives(c, table, l);
      OneNewest(table, l, r);
    }
  }

  // ---- What a reader sees -----------------------------------------------------------------

  const VersionOf: Record -> Version := (r: Record) => r.version

  function Versions(table: seq<Record>): seq<Version> {
    Map(VersionOf, table)
  }

  lemma {:induction false} VersionsMembers(table: seq<Record>, v: Version)
    ensures v in Versions(table) <==> exists r :: r in table && r.version == v
  {
    if v in Versions(table) {
      var i :| 0 <= i < |table| && Versions(table)[i] == v;
      assert table[i] in table;
    }
    if r :| r in table && r.version == v {
      var i :| 0 <= i < |table| && table[i] == r;
      assert Versions(table)[i] == v;
    }
  }

  lemma {:induction false} NewestIsLatest(q: Query, table: seq<Record>, r: Record)
    requires q.occurredAt.None? && OneOriginal(Versions(table), q.room, q.eventSet)
    requires IsNewest(table, r) && InScope(q, r.version)
    ensures IsLatest(q, Versions(table), r.version)
  {
    VersionsMembers(table, r.version);
    forall w | w in Versions(table) && InScope(q, w) && w.key.eventLabel == r.version.key.eventLabel
      ensures w.occurredAt <= r.version.occurredAt
    {
      VersionsMembers(table, w);
      var s :| s in table && s.version == w;
      assert !NumberedBefore(s, r);
    }
  }

  lemma {:induction false} LatestIsNewest(q: Query, table: seq<Record>, v: Version) returns (r: Record)
    requires q.occurredAt.None? && Fit(q, Versions(table)) && IsLatest(q, Versions(table), v)
    requires forall w :: w in table && OfSet(w.version, q.room, q.eventSet) ==> w.version.occurredAt < MAX_INSTANT
    ensures IsNewest(table, r) && r.version == v
  {
    VersionsMembers(table, v);
    var s :| s in table && s.version == v;
    r := NewestOf(table, s);
    VersionsMembers(table, r.version);
    assert OfSet(v, q.room, q.eventSet) && v.key == r.version.key;
    assert r.version.originalOccurredAt == v.originalOccurredAt;
    assert InScope(q, r.version);
  }

  lemma {:induction false} FitAfter(c: Settings, table: seq<Record>, q: Query)
    requires Fit(q, Versions(table))
    ensures Fit(q, Versions(Vacuumed(c, table)))
  {
    Survivors(c, table);
    forall v | v in Versions(Vacuumed(c, table)) ensures v in Versions(table) {
      VersionsMembers(Vacuumed(c, table), v);
      VersionsMembers(table, v);
    }
  }

  /** The latest version of a label, after and before. */
  lemma {:induction false} LatestAfter(c: Settings, table: seq<Record>, q: Query, v: Version)
    requires c.maxHistorySize >= 1 && q.occurredAt.None? && DistinctIds(table) && Fit(q, Versions(table))
    requires forall w :: w in table && OfSet(w.version, q.room, q.eventSet) ==> w.version.occurredAt < MAX_INSTANT
    ensures IsLatest(q, Versions(Vacuumed(c, table)), v)
       <==> IsLatest(q, Versions(table), v) && !Expired(c, table, v.key)
  {
    var after := Vacuumed(c, table);
    Survivors(c, table);
    FitAfter(c, table, q);
    if IsLatest(q, Versions(after), v) {
      var r := LatestIsNewest(q, after, v);
      SameNewest(c, table, r);
      NewestIsLatest(q, table, r);
    }
    if IsLatest(q, Versions(table), v) && !Expired(c, table, v.key) {
      var r := LatestIsNewest(q, table, v);
      SameNewest(c, table, r);
      NewestIsLatest(q, after, r);
    }
  }

  // ---- Main results -------------------------------------------------------------------------

  /** A read of the present state does not see the vacuum, but for the labels that expired. */
  lemma {:induction false} VacuumKeepsState(c: Settings, table: seq<Record>, q: Query)
    requires c.maxHistorySize >= 1 && q.occurredAt.None? && DistinctIds(table) && Fit(q, Versions(table))
    requires forall w :: w in table && OfSet(w.version, q.room, q.eventSet) ==> w.version.occurredAt < MAX_INSTANT
    ensures Rows(q, Versions(Vacuumed(c, table)))
         == Filter((v: Version) => !Expired(c, table, v.key), Rows(q, Versions(table)))
    ensures forall v :: v in Rows(q, Versions(Vacuumed(c, table))) <==>
      && v in Rows(q, Versions(table))
      && !(v.key.eventLabel.Some? && v.key.room !in c.preserved
           && exists s ::
             && s in table && s.version.key == v.key && s.version.attribute == Some("deleted")
             && s.version.createdAt < c.now - c.maxDeletedSeconds * 1_000_000
             && forall w :: w in table && w.version.key == v.key ==>
                  w.version.occurredAt < s.version.occurredAt
                  || (w.version.occurredAt == s.version.occurredAt && w.id >= s.id))
  {
    var before, after := Versions(table), Versions(Vacuumed(c, table));
    var alive := (v: Version) => !Expired(c, table, v.key);
    FitAfter(c, table, q);
    ReadRefinesReplay(q, before);
    ReadRefinesReplay(q, after);
    FilterSorted(alive, Rows(q, before));
    FilterMembers(alive, Rows(q, before));
    forall v ensures v in Rows(q, after) <==> v in Filter(alive, Rows(q, before)) {
      ReplayIsLatest(q, before, v);
      ReplayIsLatest(q, after, v);
      LatestAfter(c, table, q, v);
    }
    SortedByMembers(Rows(q, after), Filter(alive, Rows(q, before)));
    forall v | v in Rows(q, before) {
      ExpiredByColumns(c, table, v.key);
    }
  }

  /** Afterwards no label has more versions than allowed. */
  lemma {:induction false} HistoryIsBounded(c: Settings, table: seq<Record>, k: Key)
    requires k.room !in c.preserved && DistinctIds(table)
    ensures |set r | r in Vacuumed(c, table) && r.version.key == k| <= c.maxHistorySize
  {
    var after := Vacuumed(c, table);
    var versions := set r | r in after && r.version.key == k;
    Survivors(c, table);
    if versions != {} {
      var any :| any in versions;
      var oldest := LastIn(table, versions, any);
      SubsetSize(versions, Later(table, oldest) + {oldest});
    }
  }

  lemma {:induction false} LastIn(table: seq<Record>, versions: set<Record>, r: Record) returns (last: Record)
    requires r in versions && DistinctIds(table)
    requires forall w :: w in versions ==> w in table && w.version.key == r.version.key
    ensures last in versions && forall w :: w in versions ==> w == last || w in Later(table, last)
    decreases versions
  {
    if versions == {r} {
      last := r;
    } else {
      var rest := versions - {r};
      assert versions == rest + {r};
      var w :| w in rest;
      last := LastIn(table, rest, w);
      if NumberedBefore(last, r) {
        last := r;
      } else {
        OneNewestOr(table, r, last);
      }
    }
  }

  lemma {:induction false} OneNewestOr(table: seq<Record>, r: Record, s: Record)
    requires DistinctIds(table) && r in table && s in table && r.version.key == s.version.key && !NumberedBefore(s, r)
    ensures r == s || NumberedBefore(r, s)
  {
    if !NumberedBefore(r, s) {
      OneNewest(table, r, s);
    }
  }

  /** Short and recent history is not touched: with no more versions than allowed, this one not too
      old, and a label whose newest version does not say that it was deleted too long ago, it stays. */
  lemma {:induction false} RecentHistoryKept(c: Settings, table: seq<Record>, r: Record)
    requires r in table && r.version.createdAt >= c.now - c.maxHistorySeconds * 1_000_000
    requires |set w | w in table && w.version.key == r.version.key| <= c.maxHistorySize
    requires !(r.version.key.eventLabel.Some? && r.version.key.room !in c.preserved && exists s ::
        && s in table && s.version.key == r.version.key && s.version.attribute == Some("deleted")
        && s.version.createdAt < c.now - c.maxDeletedSeconds * 1_000_000
        && forall w :: w in table && w.version.key == r.version.key ==>
             w.version.occurredAt < s.version.occurredAt
             || (w.version.occurredAt == s.version.occurredAt && w.id >= s.id))
    ensures r in Vacuumed(c, table)
  {
    var versions := set w | w in table && w.version.key == r.version.key;
    Survivors(c, table);
    assert r !in Later(table, r);
    SubsetSize(Later(table, r) + {r}, versions);
    ExpiredByColumns(c, table, r.version.key);
  }

  /** A version behind the newest one of its key survives only if it is recent. */
  lemma {:induction false} OldHistoryGoes(c: Settings, table: seq<Record>, r: Record)
    requires r.version.key.room !in c.preserved && r.version.createdAt < c.now - c.maxHistorySeconds * 1_000_000
    ensures r in Vacuumed(c, table) ==> forall w :: w in table && w.version.key == r.version.key ==>
      w.version.occurredAt < r.version.occurredAt
      || (w.version.occurredAt == r.version.occurredAt && w.id >= r.id)
  {
    Survivors(c, table);
    if r in table {
      FirstIffNewest(table, r);
    }
  }

  /** A second run at the same instant deletes nothing. */
  lemma {:induction false} VacuumTwice(c: Settings, table: seq<Record>)
    requires DistinctIds(table)
    ensures Vacuumed(c, Vacuumed(c, table)) == Vacuumed(c, table)
  {
    var after := Vacuumed(c, table);
    forall r | r in after ensures !Doomed(c, after, r) {
      NotDoomedAgain(c, table, r);
    }
    FilterAll((r: Record) => !Doomed(c, after, r), after);
  }

  lemma {:induction false} NotDoomedAgain(c: Settings, table: seq<Record>, r: Record)
    requires DistinctIds(table) && r in Vacuumed(c, table)
    ensures !Doomed(c, Vacuumed(c, table), r)
  {
    var after := Vacuumed(c, table);
    Survivors(c, table);
    OrdinalShrinks(c, table, r);
    forall s | s in after && s.version.key == r.version.key && r.version.key.eventLabel.Some?
      ensures !EndsLabel(c, after, s)
    {
      if c.maxHistorySize >= 1 {
        FirstIffNewest(after, s);
        FirstIffNewest(table, s);
        SameNewest(c, table, s);
      } else {
        NoHistoryNoState(c, table, s);
      }
    }
  }

  /** With no history allowed at all, even the latest versions go. */
  lemma {:induction false} NoHistoryNoState(c: Settings, table: seq<Record>, r: Record)
    requires c.maxHistorySize == 0
    ensures r in Vacuumed(c, table) <==> r in table && r.version.key.room in c.preserved
  {
    Survivors(c, table);
  }
}
