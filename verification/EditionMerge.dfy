/** The query of an edition commit: the events of the source room joined with the changes
    of the edition, the cuts taken out. */
module EditionMerge {
  import opened Intervals
  import opened Numbers
  import opened Options
  import opened Sorting
  import opened RoomEvents
  import opened Monotonise

  /** A live event of the source room. */
  datatype Source = Source(id: nat, event: Event)

  datatype Data = Data(cut: Command, payload: string)

  datatype Change =
    | Addition(kind: string, eventSet: Option<string>, eventLabel: Option<string>, newData: Data,
               at: int, createdBy: string)
    | Modification(target: nat, newKind: Option<string>, eventSet: Option<string>, eventLabel: Option<string>,
                   data: Option<Data>, newAt: Option<int>)
    | Removal(target: nat)
    | BulkRemoval(eventSet: Option<string>)

  function Coalesce<T>(a: Option<T>, b: T): T {
    match a case Some(v) => v case None => b
  }

  // ---- The join -----------------------------------------------------------------

  /** `set NOT IN (SELECT event_set FROM removed_sets)`: a missing name in the list makes the
      test fail for every set. */
  predicate SetSurvives(changes: seq<Change>, s: string) {
    forall i :: 0 <= i < |changes| && changes[i].BulkRemoval? ==>
      changes[i].eventSet.Some? && changes[i].eventSet.value != s
  }

  function Surviving(source: seq<Source>, changes: seq<Change>): seq<Source> {
    Filter((s: Source) => SetSurvives(changes, s.event.body.eventSet), source)
  }

  predicate Targets(change: Change, id: nat) {
    (change.Modification? || change.Removal?) && change.target == id
  }

  function ChangesOf(changes: seq<Change>, id: nat): seq<Change> {
    Filter((c: Change) => Targets(c, id), changes)
  }

  /** The cut length before `t`: here there is no special case for a gap at 0. */
  function CutBefore(gaps: seq<Interval>, t: int): int {
    if gaps == [] then 0
    else (if gaps[0].start < t then Min(gaps[0].stop, t) - gaps[0].start else 0) + CutBefore(gaps[1..], t)
  }

  datatype Origin = FromEvent(id: nat) | FromAddition(index: nat)

  datatype Merged = Merged(origin: Origin, body: Body, at: int, createdAt: int)

  /** The insert names neither `attribute` nor `removed`; both take their defaults. */
  function Defaulted(body: Body): Body {
    body.(attribute := None, removed := false)
  }

  function Untouched(s: Source, gaps: seq<Interval>): Merged {
    Merged(FromEvent(s.id), Defaulted(s.event.body),
      s.event.occurredAt - CutBefore(gaps, s.event.occurredAt), s.event.createdAt)
  }

  /** A modified event keeps its creator and its binary data, and is moved by the cuts before
      the time it had. */
  function Modified(s: Source, c: Change, gaps: seq<Interval>): Merged
    requires c.Modification?
  {
    var b := s.event.body;
    var d := Coalesce(c.data, Data(b.cut, b.payload));
    Merged(
      FromEvent(s.id),
      Defaulted(b).(
        kind := Coalesce(c.newKind, b.kind),
        eventSet := Coalesce(c.eventSet, b.eventSet),
        eventLabel := if c.eventLabel.Some? then c.eventLabel else b.eventLabel,
        cut := d.cut,
        payload := d.payload),
      Coalesce(c.newAt, s.event.occurredAt) - CutBefore(gaps, s.event.occurredAt),
      s.event.createdAt)
  }

  /** An addition is not moved by the cuts: the query looks for the time of an event. */
  function Added(c: Change, index: nat, now: int): Merged
    requires c.Addition?
  {
    Merged(
      FromAddition(index),
      Body(c.kind, Coalesce(c.eventSet, c.kind), c.eventLabel, c.newData.cut, c.newData.payload, None, None, false,
        c.createdBy),
      c.at,
      now)
  }

  function ModifiedRows(s: Source, own: seq<Change>, gaps: seq<Interval>): seq<Merged> {
    if own == [] then []
    else (if own[0].Modification? then [Modified(s, own[0], gaps)] else []) + ModifiedRows(s, own[1..], gaps)
  }

  function RowsOf(s: Source, changes: seq<Change>, gaps: seq<Interval>): seq<Merged> {
    var own := ChangesOf(changes, s.id);
    if own == [] then [Untouched(s, gaps)] else ModifiedRows(s, own, gaps)
  }

  function EventRows(source: seq<Source>, changes: seq<Change>, gaps: seq<Interval>): seq<Merged> {
    if source == [] then [] else RowsOf(source[0], changes, gaps) + EventRows(source[1..], changes, gaps)
  }

  /** The additions among the changes from position `i` on. */
  function AddedRows(changes: seq<Change>, i: nat, now: int): seq<Merged>
    requires i <= |changes|
    decreases |changes| - i
  {
    if i == |changes| then []
    else (if changes[i].Addition? then [Added(changes[i], i, now)] else []) + AddedRows(changes, i + 1, now)
  }

  /** A modification that matches no row of the join yields a row without a creator, which the
      table refuses. */
  predicate Dangling(source: seq<Source>, changes: seq<Change>, c: Change) {
    c.Modification? && forall i :: 0 <= i < |source| ==>
      source[i].id != c.target || !SetSurvives(changes, source[i].event.body.eventSet)
  }

  function MergedRows(source: seq<Source>, changes: seq<Change>, gaps: seq<Interval>, now: int): Option<seq<Merged>> {
    if exists i :: 0 <= i < |changes| && Dangling(source, changes, changes[i]) then None
    else Some(EventRows(Surviving(source, changes), changes, gaps) + AddedRows(changes, 0, now))
  }

  // ---- The outer select ------------------------------------------------------------

  function Rows(merged: seq<Merged>): (rows: seq<Row>)
    ensures |rows| == |merged|
    ensures forall i :: 0 <= i < |merged| ==> rows[i] == Row(merged[i].at, true, merged[i].createdAt)
  {
    seq(|merged|, i requires 0 <= i < |merged| => Row(merged[i].at, true, merged[i].createdAt))
  }

  function Committed(merged: seq<Merged>, offset: int): (r: seq<Event>)
    ensures |r| == |merged|
    ensures forall i :: 0 <= i < |merged| ==>
      r[i] == Event(merged[i].body, Spread(Rows(merged), i) + offset, merged[i].createdAt)
  {
    seq(|merged|, i requires 0 <= i < |merged| =>
      Event(merged[i].body, Spread(Rows(merged), i) + offset, merged[i].createdAt))
  }

  // ---- Conservation -----------------------------------------------------------------

  function Count(rows: seq<Merged>, o: Origin): nat {
    if rows == [] then 0 else (if rows[0].origin == o then 1 else 0) + Count(rows[1..], o)
  }

  lemma {:induction false} CountConcat(a: seq<Merged>, b: seq<Merged>, o: Origin)
    ensures Count(a + b, o) == Count(a, o) + Count(b, o)
  {
    if a == [] {
      assert a + b == b;
    } else {
      CountConcat(a[1..], b, o);
      assert (a + b)[1..] == a[1..] + b;
    }
  }

  function Modifications(own: seq<Change>): nat {
    if own == [] then 0 else (if own[0].Modification? then 1 else 0) + Modifications(own[1..])
  }

  /** How many rows an event of the join yields. */
  function Copies(changes: seq<Change>, id: nat): nat {
    var own := ChangesOf(changes, id);
    if own == [] then 1 else Modifications(own)
  }

  lemma {:induction false} CountModified(s: Source, own: seq<Change>, gaps: seq<Interval>, o: Origin)
    ensures Count(ModifiedRows(s, own, gaps), o) == if o == FromEvent(s.id) then Modifications(own) else 0
  {
    if own != [] {
      CountModified(s, own[1..], gaps, o);
      CountConcat(if own[0].Modification? then [Modified(s, own[0], gaps)] else [], ModifiedRows(s, own[1..], gaps), o);
    }
  }

  lemma {:induction false} CountEventRows(source: seq<Source>, changes: seq<Change>, gaps: seq<Interval>, o: Origin)
    requires forall i, j :: 0 <= i < j < |source| ==> source[i].id != source[j].id
    ensures Count(EventRows(source, changes, gaps), o) ==
      if o.FromEvent? && exists i :: 0 <= i < |source| && source[i].id == o.id then Copies(changes, o.id) else 0
  {
    if source != [] {
      CountEventRows(source[1..], changes, gaps, o);
      CountConcat(RowsOf(source[0], changes, gaps), EventRows(source[1..], changes, gaps), o);
      CountModified(source[0], ChangesOf(changes, source[0].id), gaps, o);
    }
  }

  lemma {:induction false} CountAdded(changes: seq<Change>, i: nat, now: int, o: Origin)
    requires i <= |changes|
    ensures Count(AddedRows(changes, i, now), o) ==
      if o.FromAddition? && i <= o.index < |changes| && changes[o.index].Addition? then 1 else 0
    decreases |changes| - i
  {
    if i < |changes| {
      CountAdded(changes, i + 1, now, o);
      CountConcat(if changes[i].Addition? then [Added(changes[i], i, now)] else [], AddedRows(changes, i + 1, now), o);
    }
  }

  ghost predicate DistinctIds(source: seq<Source>) {
    forall i, j :: 0 <= i < j < |source| ==> source[i].id != source[j].id
  }

  /** The event is live in the source room and its set is not removed in bulk. */
  ghost predicate Joined(source: seq<Source>, changes: seq<Change>, id: nat) {
    exists s :: s in source && s.id == id && SetSurvives(changes, s.event.body.eventSet)
  }

  lemma {:induction false} SurvivingIds(source: seq<Source>, p: Source -> bool)
    requires DistinctIds(source)
    ensures DistinctIds(Filter(p, source))
    ensures forall s :: s in Filter(p, source) <==> s in source && p(s)
  {
    FilterMembers(p, source);
    if source != [] {
      SurvivingIds(source[1..], p);
      var rest := Filter(p, source[1..]);
      forall j | 0 <= j < |rest| ensures source[0].id != rest[j].id {
        assert rest[j] in rest;
      }
    }
  }

  lemma {:induction false} MergeCounts(source: seq<Source>, changes: seq<Change>, gaps: seq<Interval>, now: int,
                                       o: Origin)
    requires DistinctIds(source) && MergedRows(source, changes, gaps, now).Some?
    ensures Count(MergedRows(source, changes, gaps, now).value, o) ==
      match o
      case FromEvent(id) => (if Joined(source, changes, id) then Copies(changes, id) else 0)
      case FromAddition(i) => (if i < |changes| && changes[i].Addition? then 1 else 0)
  {
    var surviving := Surviving(source, changes);
    SurvivingIds(source, (s: Source) => SetSurvives(changes, s.event.body.eventSet));
    CountConcat(EventRows(surviving, changes, gaps), AddedRows(changes, 0, now), o);
    CountEventRows(surviving, changes, gaps, o);
    CountAdded(changes, 0, now, o);
    if o.FromEvent? {
      if Joined(source, changes, o.id) {
        var s :| s in source && s.id == o.id && SetSurvives(changes, s.event.body.eventSet);
        assert s in surviving;
      }
      if i :| 0 <= i < |surviving| && surviving[i].id == o.id {
        assert surviving[i] in surviving;
      }
    }
  }

  // ---- The same by positions ----------------------------------------------------------

  ghost function RowsAt(rows: seq<Merged>, o: Origin, from: nat): set<nat> {
    set k: nat | from <= k < |rows| && rows[k].origin == o
  }

  lemma {:induction false} RowsAtStep(rows: seq<Merged>, o: Origin, from: nat)
    requires from < |rows|
    ensures |RowsAt(rows, o, from)| == |RowsAt(rows, o, from + 1)| + (if rows[from].origin == o then 1 else 0)
  {
    assert RowsAt(rows, o, from) == RowsAt(rows, o, from + 1) + (if rows[from].origin == o then {from} else {});
  }

  lemma {:induction false} CountCons(row: Merged, rest: seq<Merged>, o: Origin)
    ensures Count([row] + rest, o) == (if row.origin == o then 1 else 0) + Count(rest, o)
  {
    assert ([row] + rest)[1..] == rest;
  }

  lemma {:induction false} CountByPosition(rows: seq<Merged>, o: Origin, from: nat)
    requires from <= |rows|
    ensures Count(rows[from..], o) == |RowsAt(rows, o, from)|
    decreases |rows| - from
  {
    if from < |rows| {
      CountByPosition(rows, o, from + 1);
      assert rows[from..] == [rows[from]] + rows[from + 1..];
      CountCons(rows[from], rows[from + 1..], o);
      RowsAtStep(rows, o, from);
    } else {
      assert RowsAt(rows, o, from) == {};
    }
  }

  ghost function ModifiersAt(changes: seq<Change>, id: nat, from: nat): set<nat> {
    set i: nat | from <= i < |changes| && changes[i].Modification? && changes[i].target == id
  }

  lemma {:induction false} ModifiersAtStep(changes: seq<Change>, id: nat, from: nat)
    requires from < |changes|
    ensures |ModifiersAt(changes, id, from)| == |ModifiersAt(changes, id, from + 1)|
      + (if changes[from].Modification? && changes[from].target == id then 1 else 0)
  {
    var c := changes[from];
    assert ModifiersAt(changes, id, from)
        == ModifiersAt(changes, id, from + 1) + (if c.Modification? && c.target == id then {from} else {});
  }

  lemma {:induction false} ModificationsCons(c: Change, rest: seq<Change>, id: nat)
    ensures Modifications(ChangesOf([c] + rest, id))
         == (if c.Modification? && c.target == id then 1 else 0) + Modifications(ChangesOf(rest, id))
  {
    var own := ChangesOf(rest, id);
    FilterCons((x: Change) => Targets(x, id), c, rest);
    if Targets(c, id) {
      assert ([c] + own)[1..] == own && ChangesOf([c] + rest, id) == [c] + own;
    } else {
      assert ChangesOf([c] + rest, id) == own;
    }
  }

  lemma {:induction false} ModificationsByPosition(changes: seq<Change>, id: nat, from: nat)
    requires from <= |changes|
    ensures Modifications(ChangesOf(changes[from..], id)) == |ModifiersAt(changes, id, from)|
    decreases |changes| - from
  {
    if from < |changes| {
      ModificationsByPosition(changes, id, from + 1);
      assert changes[from..] == [changes[from]] + changes[from + 1..];
      ModificationsCons(changes[from], changes[from + 1..], id);
      ModifiersAtStep(changes, id, from);
    } else {
      assert ModifiersAt(changes, id, from) == {};
    }
  }

  lemma {:induction false} NoneAimed(changes: seq<Change>, id: nat)
    ensures ChangesOf(changes, id) != [] <==>
      exists i :: 0 <= i < |changes| && (changes[i].Modification? || changes[i].Removal?) && changes[i].target == id
  {
    var own := ChangesOf(changes, id);
    FilterMembers((c: Change) => Targets(c, id), changes);
    if own != [] {
      assert own[0] in own;
    }
    if i :| 0 <= i < |changes| && (changes[i].Modification? || changes[i].Removal?) && changes[i].target == id {
      assert Targets(changes[i], id) && changes[i] in own;
    }
  }

  /** Nothing is lost, doubled or invented.  An event outside the sets removed in bulk comes out once
      if no modification and no removal aims at it, and otherwise once for every modification; other
      events do not come out; an addition comes out once, and nothing else does. */
  lemma {:induction false} MergeConserves(source: seq<Source>, changes: seq<Change>, gaps: seq<Interval>, now: int,
                                          o: Origin)
    requires DistinctIds(source) && MergedRows(source, changes, gaps, now).Some?
    ensures var merged := MergedRows(source, changes, gaps, now).value;
      |set k: nat | k < |merged| && merged[k].origin == o| ==
      match o
      case FromAddition(i) => (if i < |changes| && changes[i].Addition? then 1 else 0)
      case FromEvent(id) =>
        if !exists s ::
          && s in source && s.id == id
          && (forall b :: 0 <= b < |changes| && changes[b].BulkRemoval? ==>
                changes[b].eventSet.Some? && changes[b].eventSet.value != s.event.body.eventSet)
        then 0
        else if exists i ::
          0 <= i < |changes| && (changes[i].Modification? || changes[i].Removal?) && changes[i].target == id
        then |set i: nat | i < |changes| && changes[i].Modification? && changes[i].target == id|
        else 1
  {
    var merged := MergedRows(source, changes, gaps, now).value;
    MergeCounts(source, changes, gaps, now, o);
    CountByPosition(merged, o, 0);
    assert merged[0..] == merged && changes[0..] == changes;
    assert RowsAt(merged, o, 0) == set k: nat | k < |merged| && merged[k].origin == o;
    if o.FromEvent? {
      NoneAimed(changes, o.id);
      ModificationsByPosition(changes, o.id, 0);
      assert ModifiersAt(changes, o.id, 0)
          == set i: nat | i < |changes| && changes[i].Modification? && changes[i].target == o.id;
    }
  }

  /** With at most one change aimed at it, an event outside the sets removed in bulk comes out once,
      unless that change removes it. */
  lemma {:induction false} OneChangeOneRow(source: seq<Source>, changes: seq<Change>, gaps: seq<Interval>, now: int,
                                           s: Source)
    requires DistinctIds(source) && MergedRows(source, changes, gaps, now).Some?
    requires s in source && forall b :: 0 <= b < |changes| && changes[b].BulkRemoval? ==>
      changes[b].eventSet.Some? && changes[b].eventSet.value != s.event.body.eventSet
    requires forall i, j | 0 <= i < j < |changes|
      && (changes[i].Modification? || changes[i].Removal?) && (changes[j].Modification? || changes[j].Removal?) ::
      changes[i].target != s.id || changes[j].target != s.id
    ensures var merged := MergedRows(source, changes, gaps, now).value;
      |set k: nat | k < |merged| && merged[k].origin == FromEvent(s.id)| ==
        if exists i :: 0 <= i < |changes| && changes[i].Removal? && changes[i].target == s.id then 0 else 1
  {
    var aimed := set i: nat | i < |changes| && changes[i].Modification? && changes[i].target == s.id;
    MergeConserves(source, changes, gaps, now, FromEvent(s.id));
    if i :| 0 <= i < |changes| && (changes[i].Modification? || changes[i].Removal?) && changes[i].target == s.id {
      assert aimed == if changes[i].Modification? then {i} else {};
      forall j | 0 <= j < |changes| && changes[j].Removal? && changes[j].target == s.id ensures i == j {
      }
    }
  }

  // ---- What becomes of one row -----------------------------------------------------

  lemma {:induction false} ModifiedRowFrom(s: Source, own: seq<Change>, gaps: seq<Interval>, k: nat)
    requires k < |ModifiedRows(s, own, gaps)|
    ensures exists c :: c in own && c.Modification? && ModifiedRows(s, own, gaps)[k] == Modified(s, c, gaps)
  {
    if own[0].Modification? {
      if k == 0 {
        assert own[0] in own;
      } else {
        ModifiedRowFrom(s, own[1..], gaps, k - 1);
      }
    } else {
      ModifiedRowFrom(s, own[1..], gaps, k);
    }
  }

  lemma {:induction false} InOneOfTwo(first: seq<Merged>, rest: seq<Merged>, row: Merged)
    requires row in first + rest
    ensures row in first || row in rest
  {
  }

  lemma {:induction false} EventRowFrom(source: seq<Source>, changes: seq<Change>, gaps: seq<Interval>, row: Merged)
    returns (s: Source)
    requires row in EventRows(source, changes, gaps)
    ensures s in source && row in RowsOf(s, changes, gaps)
  {
    var first, rest := RowsOf(source[0], changes, gaps), EventRows(source[1..], changes, gaps);
    if row in first {
      s := source[0];
    } else {
      InOneOfTwo(first, rest, row);
      s := EventRowFrom(source[1..], changes, gaps, row);
    }
  }

  lemma {:induction false} AddedRowFrom(changes: seq<Change>, i: nat, now: int, k: nat)
    requires i <= |changes| && k < |AddedRows(changes, i, now)|
    ensures AddedRows(changes, i, now)[k].origin.FromAddition? && !AddedRows(changes, i, now)[k].body.removed
    decreases |changes| - i
  {
    if changes[i].Addition? {
      if k > 0 {
        AddedRowFrom(changes, i + 1, now, k - 1);
      }
    } else {
      AddedRowFrom(changes, i + 1, now, k);
    }
  }

  /** The cut length before an instant. */
  lemma {:induction false} CutBeforeIsMeasure(gaps: seq<Interval>, t: nat)
    requires Ordered(gaps) && StartsFrom(gaps, 0)
    ensures CutBefore(gaps, t) == Measure(Points(gaps), t)
  {
    if gaps == [] {
      MeasureOfNothing(t);
    } else {
      CutBeforeIsMeasure(gaps[1..], t);
      MeasureOfList(gaps, t);
    }
  }

  lemma {:induction false} RowOfChanged(s: Source, changes: seq<Change>, gaps: seq<Interval>, row: Merged)
    requires row in RowsOf(s, changes, gaps)
    ensures row.origin == FromEvent(s.id)
    ensures ChangesOf(changes, s.id) == [] ==> row == Untouched(s, gaps)
    ensures ChangesOf(changes, s.id) != [] ==>
      exists c :: c in ChangesOf(changes, s.id) && c.Modification? && row == Modified(s, c, gaps)
  {
    var own := ChangesOf(changes, s.id);
    if own != [] {
      var m :| 0 <= m < |ModifiedRows(s, own, gaps)| && ModifiedRows(s, own, gaps)[m] == row;
      ModifiedRowFrom(s, own, gaps, m);
    }
  }

  /** A row that comes from an event comes from a live event outside the sets removed in bulk. */
  lemma {:induction false} SourceOfRow(source: seq<Source>, changes: seq<Change>, gaps: seq<Interval>, now: int,
                                       merged: seq<Merged>, k: nat)
    returns (s: Source)
    requires MergedRows(source, changes, gaps, now) == Some(merged)
    requires k < |merged| && merged[k].origin.FromEvent?
    ensures s in source && SetSurvives(changes, s.event.body.eventSet)
    ensures merged[k] in RowsOf(s, changes, gaps)
  {
    var rows := EventRows(Surviving(source, changes), changes, gaps);
    if k >= |rows| {
      AddedRowFrom(changes, 0, now, k - |rows|);
    }
    s := EventRowFrom(Surviving(source, changes), changes, gaps, rows[k]);
    FilterMembers((s: Source) => SetSurvives(changes, s.event.body.eventSet), source);
  }

  /** An event of the clone that no modification and no removal aims at is an event of the source room:
      it keeps its kind, set, label, data and creator, and it is moved to the front by the cut length
      before its own time, then on by its rank among ties and by the offset. */
  lemma {:induction false} UnmodifiedSurvivor(source: seq<Source>, changes: seq<Change>, gaps: seq<Interval>,
                                              now: int, offset: int, k: nat)
    returns (s: Source)
    requires Ordered(gaps) && StartsFrom(gaps, 0) && forall e :: e in source ==> 0 <= e.event.occurredAt
    requires MergedRows(source, changes, gaps, now).Some? && k < |MergedRows(source, changes, gaps, now).value|
    requires var o := MergedRows(source, changes, gaps, now).value[k].origin;
      o.FromEvent? && forall i ::
        0 <= i < |changes| && (changes[i].Modification? || changes[i].Removal?) ==> changes[i].target != o.id
    ensures var merged := MergedRows(source, changes, gaps, now).value;
      var e, t := Committed(merged, offset)[k], s.event.occurredAt;
      && s in source && merged[k].origin == FromEvent(s.id)
      && e.body == s.event.body.(attribute := None, removed := false) && e.createdAt == s.event.createdAt
      && e.occurredAt == Measure(Complement(Points(gaps)), t) + Rank(Rows(merged), k) + offset
  {
    var merged := MergedRows(source, changes, gaps, now).value;
    s := SourceOfRow(source, changes, gaps, now, merged, k);
    NoneAimed(changes, s.id);
    RowOfChanged(s, changes, gaps, merged[k]);
    UntouchedIsRetimed(s, gaps);
  }

  /** What a reader of an event gets: the compact form when there is one. */
  function Shown(body: Body): string {
    Coalesce(body.binary, body.payload)
  }

  /** Every other event of the clone that comes from the source room comes from an event and one
      modification aimed at it.  It takes from the modification what that gives and keeps the rest; its
      creator cannot be changed, and the cuts taken off are those before its old time.  A drawing
      keeps its compact form, so that new data does not show. */
  lemma {:induction false} ModifiedSurvivor(source: seq<Source>, changes: seq<Change>, gaps: seq<Interval>, now: int,
                                            k: nat)
    returns (s: Source, i: nat)
    requires Ordered(gaps) && StartsFrom(gaps, 0) && forall e :: e in source ==> 0 <= e.event.occurredAt
    requires MergedRows(source, changes, gaps, now).Some? && k < |MergedRows(source, changes, gaps, now).value|
    requires var o := MergedRows(source, changes, gaps, now).value[k].origin;
      o.FromEvent? && exists j ::
        0 <= j < |changes| && (changes[j].Modification? || changes[j].Removal?) && changes[j].target == o.id
    ensures s in source && i < |changes| && changes[i].Modification? && changes[i].target == s.id
    ensures var m, old', c := MergedRows(source, changes, gaps, now).value[k], s.event, changes[i];
      && m.origin == FromEvent(s.id)
      && m.body.createdBy == old'.body.createdBy && m.createdAt == old'.createdAt
      && m.body.kind == (if c.newKind.Some? then c.newKind.value else old'.body.kind)
      && m.body.eventSet == (if c.eventSet.Some? then c.eventSet.value else old'.body.eventSet)
      && m.body.eventLabel == (if c.eventLabel.Some? then c.eventLabel else old'.body.eventLabel)
      && m.body.payload == (if c.data.Some? then c.data.value.payload else old'.body.payload)
      && m.body.cut == (if c.data.Some? then c.data.value.cut else old'.body.cut)
      && m.body.binary == old'.body.binary && m.body.attribute == None && !m.body.removed
      && (c.data.Some? ==> (Shown(m.body) == c.data.value.payload <==>
            old'.body.binary.None? || old'.body.binary.value == c.data.value.payload))
      && m.at == (if c.newAt.Some? then c.newAt.value else old'.occurredAt) - Measure(Points(gaps), old'.occurredAt)
  {
    var merged := MergedRows(source, changes, gaps, now).value;
    s := SourceOfRow(source, changes, gaps, now, merged, k);
    NoneAimed(changes, merged[k].origin.id);
    RowOfChanged(s, changes, gaps, merged[k]);
    var c :| c in ChangesOf(changes, s.id) && c.Modification? && merged[k] == Modified(s, c, gaps);
    FilterMembers((c: Change) => Targets(c, s.id), changes);
    i :| 0 <= i < |changes| && changes[i] == c;
    CutBeforeIsMeasure(gaps, s.event.occurredAt);
  }

  lemma {:induction false} ModifiedRowOf(s: Source, own: seq<Change>, gaps: seq<Interval>, c: Change)
    requires c in own && c.Modification?
    ensures Modified(s, c, gaps) in ModifiedRows(s, own, gaps)
  {
    if own[0] != c {
      ModifiedRowOf(s, own[1..], gaps, c);
    }
  }

  lemma {:induction false} EventRowOf(source: seq<Source>, changes: seq<Change>, gaps: seq<Interval>, s: Source,
                                      row: Merged)
    requires s in source && row in RowsOf(s, changes, gaps)
    ensures row in EventRows(source, changes, gaps)
  {
    if source[0] != s {
      EventRowOf(source[1..], changes, gaps, s, row);
    }
  }

  lemma {:induction false} ModifiedRowShows(source: seq<Source>, changes: seq<Change>, gaps: seq<Interval>, s: Source,
                                            c: Change)
    requires s in source && SetSurvives(changes, s.event.body.eventSet)
    requires c in changes && c.Modification? && c.target == s.id
    ensures Modified(s, c, gaps) in EventRows(Surviving(source, changes), changes, gaps)
  {
    FilterMembers((s: Source) => SetSurvives(changes, s.event.body.eventSet), source);
    FilterMembers((c: Change) => Targets(c, s.id), changes);
    ModifiedRowOf(s, ChangesOf(changes, s.id), gaps, c);
    EventRowOf(Surviving(source, changes), changes, gaps, s, Modified(s, c, gaps));
  }

  /** No modification is lost: each yields a row of the event it aims at. */
  lemma {:induction false} ModificationShows(source: seq<Source>, changes: seq<Change>, gaps: seq<Interval>, now: int,
                                             i: nat)
    returns (s: Source, k: nat)
    requires MergedRows(source, changes, gaps, now).Some? && i < |changes| && changes[i].Modification?
    ensures s in source && s.id == changes[i].target
    ensures var merged := MergedRows(source, changes, gaps, now).value;
      k < |merged| && merged[k] == Modified(s, changes[i], gaps)
  {
    var rows := EventRows(Surviving(source, changes), changes, gaps);
    assert !Dangling(source, changes, changes[i]);
    var j :| 0 <= j < |source| && source[j].id == changes[i].target
      && SetSurvives(changes, source[j].event.body.eventSet);
    s := source[j];
    ModifiedRowShows(source, changes, gaps, s, changes[i]);
    k :| 0 <= k < |rows| && rows[k] == Modified(s, changes[i], gaps);
  }

  lemma {:induction false} AddedRowIs(changes: seq<Change>, i: nat, now: int, k: nat)
    requires i <= |changes| && k < |AddedRows(changes, i, now)|
    ensures exists j: nat ::
      j < |changes| && changes[j].Addition? && AddedRows(changes, i, now)[k] == Added(changes[j], j, now)
    decreases |changes| - i
  {
    if changes[i].Addition? {
      if k > 0 {
        AddedRowIs(changes, i + 1, now, k - 1);
      }
    } else {
      AddedRowIs(changes, i + 1, now, k);
    }
  }

  lemma {:induction false} AdditionOfRow(source: seq<Source>, changes: seq<Change>, gaps: seq<Interval>, now: int,
                                         merged: seq<Merged>, k: nat)
    returns (j: nat)
    requires MergedRows(source, changes, gaps, now) == Some(merged)
    requires k < |merged| && merged[k].origin.FromAddition?
    ensures j < |changes| && changes[j].Addition? && merged[k] == Added(changes[j], j, now)
  {
    var surviving := Surviving(source, changes);
    var rows := EventRows(surviving, changes, gaps);
    if k < |rows| {
      var s := EventRowFrom(surviving, changes, gaps, rows[k]);
      RowOfChanged(s, changes, gaps, rows[k]);
    }
    AddedRowIs(changes, 0, now, k - |rows|);
    j :| 0 <= j < |changes| && changes[j].Addition?
      && AddedRows(changes, 0, now)[k - |rows|] == Added(changes[j], j, now);
  }

  /** An addition comes out as it was given, at the time it was given: no cut moves it. */
  lemma {:induction false} AdditionAsGiven(source: seq<Source>, changes: seq<Change>, gaps: seq<Interval>, now: int,
                                           k: nat)
    requires MergedRows(source, changes, gaps, now).Some? && k < |MergedRows(source, changes, gaps, now).value|
    requires MergedRows(source, changes, gaps, now).value[k].origin.FromAddition?
    ensures var m := MergedRows(source, changes, gaps, now).value[k];
      m.origin.index < |changes| && changes[m.origin.index].Addition? && var c := changes[m.origin.index];
      && m.at == c.at && m.createdAt == now
      && m.body == Body(c.kind, if c.eventSet.Some? then c.eventSet.value else c.kind, c.eventLabel, c.newData.cut,
                        c.newData.payload, None, None, false, c.createdBy)
  {
    var _ := AdditionOfRow(source, changes, gaps, now, MergedRows(source, changes, gaps, now).value, k);
  }

  lemma {:induction false} UntouchedIsRetimed(s: Source, gaps: seq<Interval>)
    requires Ordered(gaps) && StartsFrom(gaps, 0) && 0 <= s.event.occurredAt
    ensures Untouched(s, gaps).at == Measure(Complement(Points(gaps)), s.event.occurredAt)
  {
    CutBeforeIsMeasure(gaps, s.event.occurredAt);
    MeasureComplement(Points(gaps), s.event.occurredAt);
  }

  /** The new time of a row: its instant and the offset, pushed on by one for every row of its instant
      that was created before it, or at the same time and stands in front of it. */
  lemma {:induction false} CommittedTime(merged: seq<Merged>, offset: int, k: nat)
    requires k < |merged|
    ensures Committed(merged, offset)[k].occurredAt == merged[k].at + Rank(Rows(merged), k) + offset
    ensures Rank(Rows(merged), k)
      == |set j: nat | j < |merged| && merged[j].at == merged[k].at
                     && (merged[j].createdAt < merged[k].createdAt
                         || (merged[j].createdAt == merged[k].createdAt && j < k))|
      < |merged|
  {
    var rows := Rows(merged);
    RankBelowSize(rows, k);
    assert Ahead(rows, k)
        == set j: nat | j < |merged| && merged[j].at == merged[k].at
                      && (merged[j].createdAt < merged[k].createdAt
                          || (merged[j].createdAt == merged[k].createdAt && j < k));
  }

  /** Of two rows of one instant the one created first comes first, and rows created at the same time
      keep their places. */
  lemma {:induction false} TiesCommittedInOrder(merged: seq<Merged>, offset: int, i: nat, j: nat)
    requires i < |merged| && j < |merged| && i != j && merged[i].at == merged[j].at
    ensures Committed(merged, offset)[i].occurredAt < Committed(merged, offset)[j].occurredAt <==>
      merged[i].createdAt < merged[j].createdAt || (merged[i].createdAt == merged[j].createdAt && i < j)
  {
    TiesFollowCreation(Rows(merged), i, j);
  }

  /** The clone is in strict order of new instant, creation and place exactly when every group of ties
      has room before the next instant. */
  lemma {:induction false} CommitOrder(merged: seq<Merged>, offset: int)
    ensures
      (forall i: nat, j: nat | i < |merged| && j < |merged| ::
         (merged[i].at < merged[j].at
          || (merged[i].at == merged[j].at
              && (merged[i].createdAt < merged[j].createdAt
                  || (merged[i].createdAt == merged[j].createdAt && i < j))))
         ==> Committed(merged, offset)[i].occurredAt < Committed(merged, offset)[j].occurredAt)
      <==> HasRoom(Rows(merged), true)
  {
    StrictOrderIffRoom(Rows(merged), true);
  }

  // ---- What the query loses ----------------------------------------------------------

  /** No event of a clone is marked as removed, whatever the mark in the source room. */
  lemma {:induction false} RemovalMarkIsLost(source: seq<Source>, changes: seq<Change>, gaps: seq<Interval>, now: int,
                                             k: nat)
    requires MergedRows(source, changes, gaps, now).Some? && k < |MergedRows(source, changes, gaps, now).value|
    ensures !MergedRows(source, changes, gaps, now).value[k].body.removed
  {
    var merged := MergedRows(source, changes, gaps, now).value;
    if merged[k].origin.FromEvent? {
      var s := SourceOfRow(source, changes, gaps, now, merged, k);
      RowOfChanged(s, changes, gaps, merged[k]);
    } else {
      var _ := AdditionOfRow(source, changes, gaps, now, merged, k);
    }
  }

  /** A removed note is back, as if it had never been removed. */
  lemma {:induction false} RemovedNoteReturns(now: int)
    ensures var note := Event(Body("message", "notes", Some("n"), Unknown, "text", None, None, true, "user"), 10, 0);
      var merged := MergedRows([Source(7, note)], [], [], now);
      merged.Some? && |merged.value| == 1 && merged.value[0].body == note.body.(removed := false)
  {
    var note := Event(Body("message", "notes", Some("n"), Unknown, "text", None, None, true, "user"), 10, 0);
    var source := [Source(7, note)];
    FilterAll((s: Source) => SetSurvives([], s.event.body.eventSet), source);
    assert source[1..] == [] && ChangesOf([], 7) == [];
    assert RowsOf(source[0], [], []) == [Untouched(source[0], [])];
  }

  /** New data for a drawing: a reader still gets the old drawing. */
  lemma {:induction false} DrawingHidesModification(now: int)
    ensures var body := Body("draw", "board", Some("d"), Unknown, "", Some("line"), None, false, "user");
      var drawing := Event(body, 10, 0);
      var change := Modification(7, None, None, None, Some(Data(Unknown, "circle")), None);
      var merged := MergedRows([Source(7, drawing)], [change], [], now);
      merged.Some? && |merged.value| == 1 && Shown(merged.value[0].body) == "line"
  {
    var drawing := Event(Body("draw", "board", Some("d"), Unknown, "", Some("line"), None, false, "user"), 10, 0);
    var change := Modification(7, None, None, None, Some(Data(Unknown, "circle")), None);
    var source, changes := [Source(7, drawing)], [change];
    FilterAll((s: Source) => SetSurvives(changes, s.event.body.eventSet), source);
    FilterAll((c: Change) => Targets(c, 7), changes);
    assert source[1..] == [] && changes[1..] == [];
    assert !Dangling(source, changes, change) by {
      assert source[0].id == 7 && SetSurvives(changes, "board");
    }
    assert ModifiedRows(source[0], [], []) == [];
    assert ModifiedRows(source[0], changes, []) == [Modified(source[0], change, [])];
  }
}
