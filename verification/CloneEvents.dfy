/** The query of the adjustment that clones the events of a room with new times. */
module CloneEvents {
  import opened Intervals
  import opened Options
  import opened Sorting
  import opened RoomEvents
  import opened Retime
  import opened Monotonise

  /** The inner select: re-timed instants, partitioned into stream events and the others. */
  function Rows(room: seq<Event>, gaps: seq<Interval>, offset: int): (rows: seq<Row>)
    ensures |rows| == |room|
    ensures forall i :: 0 <= i < |room| ==>
      rows[i] == Row(Retimed(gaps, room[i].occurredAt) + offset, IsStream(room[i]), room[i].createdAt)
  {
    seq(|room|, i requires 0 <= i < |room| =>
      Row(Retimed(gaps, room[i].occurredAt) + offset, IsStream(room[i]), room[i].createdAt))
  }

  /** Stream events keep the re-timed instant, the others are spread out. */
  function NewTime(room: seq<Event>, gaps: seq<Interval>, offset: int, i: nat): int
    requires i < |room|
  {
    var rows := Rows(room, gaps, offset);
    if IsStream(room[i]) then rows[i].at else Spread(rows, i)
  }

  /** None when the query fails: it does as soon as a row makes it look for the one gap that
      starts at 0 and there are several. */
  function Clone(room: seq<Event>, gaps: seq<Interval>, offset: int): (r: Option<seq<Event>>)
    ensures r.Some? ==> |r.value| == |room|
    ensures r.Some? ==> forall i :: 0 <= i < |room| ==>
      r.value[i] == room[i].(occurredAt := NewTime(room, gaps, offset, i))
  {
    if room != [] && ZeroStarts(gaps) > 1 then None
    else Some(seq(|room|, i requires 0 <= i < |room| => room[i].(occurredAt := NewTime(room, gaps, offset, i))))
  }

  /** How far spreading moves an event. */
  function TieRank(room: seq<Event>, gaps: seq<Interval>, offset: int, i: nat): nat
    requires i < |room|
  {
    if IsStream(room[i]) then 0 else Rank(Rows(room, gaps, offset), i)
  }

  /** The new time is the re-timed instant plus the offset; an event that is not a cut event is pushed
      on by one for every other such event of its re-timed instant that was created before it, or at
      the same time and stands in front of it in the table. */
  lemma {:induction false} NewTimeIsRetimedPlusRank(room: seq<Event>, gaps: seq<Interval>, offset: int, i: nat)
    requires i < |room|
    ensures NewTime(room, gaps, offset, i)
         == Retimed(gaps, room[i].occurredAt) + offset + TieRank(room, gaps, offset, i)
    ensures TieRank(room, gaps, offset, i) < |room|
    ensures room[i].body.kind == "stream" ==> TieRank(room, gaps, offset, i) == 0
    ensures room[i].body.kind != "stream" ==>
      TieRank(room, gaps, offset, i)
      == |set j: nat | j < |room| && room[j].body.kind != "stream"
                     && Retimed(gaps, room[j].occurredAt) == Retimed(gaps, room[i].occurredAt)
                     && (room[j].createdAt < room[i].createdAt
                         || (room[j].createdAt == room[i].createdAt && j < i))|
  {
    var rows := Rows(room, gaps, offset);
    RankBelowSize(rows, i);
    if !IsStream(room[i]) {
      assert Ahead(rows, i)
          == set j: nat | j < |room| && room[j].body.kind != "stream"
                        && Retimed(gaps, room[j].occurredAt) == Retimed(gaps, room[i].occurredAt)
                        && (room[j].createdAt < room[i].createdAt
                            || (room[j].createdAt == room[i].createdAt && j < i));
    }
  }

  /** Of two events that re-timing puts on one instant, neither of them a cut event, the clone has
      the one created first in front; if they were created at the same time, the one in front. */
  lemma {:induction false} TiesClonedInOrder(room: seq<Event>, gaps: seq<Interval>, offset: int, i: nat, j: nat)
    requires Clone(room, gaps, offset).Some? && i < |room| && j < |room| && i != j
    requires room[i].body.kind != "stream" && room[j].body.kind != "stream"
    requires Retimed(gaps, room[i].occurredAt) == Retimed(gaps, room[j].occurredAt)
    ensures var clone := Clone(room, gaps, offset).value;
      clone[i].occurredAt < clone[j].occurredAt <==>
        room[i].createdAt < room[j].createdAt || (room[i].createdAt == room[j].createdAt && i < j)
  {
    TiesFollowCreation(Rows(room, gaps, offset), i, j);
  }

  /** Cloned events other than cuts are in strict order of re-timed instant, creation and place, so no
      two of them share an instant, exactly when every group of ties has room before the next instant. */
  lemma {:induction false} CloneOrder(room: seq<Event>, gaps: seq<Interval>, offset: int)
    ensures
      (forall i: nat, j: nat
         | i < |room| && j < |room| && room[i].body.kind != "stream" && room[j].body.kind != "stream" ::
         (Retimed(gaps, room[i].occurredAt) < Retimed(gaps, room[j].occurredAt)
          || (Retimed(gaps, room[i].occurredAt) == Retimed(gaps, room[j].occurredAt)
              && (room[i].createdAt < room[j].createdAt || (room[i].createdAt == room[j].createdAt && i < j))))
         ==> NewTime(room, gaps, offset, i) < NewTime(room, gaps, offset, j))
      <==> HasRoom(Rows(room, gaps, offset), false)
  {
    var rows := Rows(room, gaps, offset);
    StrictOrderIffRoom(rows, false);
    forall i: nat | i < |room| && room[i].body.kind != "stream"
      ensures NewTime(room, gaps, offset, i) == Spread(rows, i) && rows[i].partition == false
      ensures rows[i].at == Retimed(gaps, room[i].occurredAt) + offset && rows[i].createdAt == room[i].createdAt
    {
    }
  }

  // ---- Cut events read back from a cloned room -----------------------------

  function Shifting(gaps: seq<Interval>): Event -> Event {
    (e: Event) => e.(occurredAt := Retimed(gaps, e.occurredAt))
  }

  function ShiftingRow(gaps: seq<Interval>): CutRow -> CutRow {
    (r: CutRow) => r.(event := Shifting(gaps)(r.event))
  }

  ghost predicate StreamsNotBefore0(room: seq<Event>) {
    forall e :: e in room && IsStream(e) ==> 0 <= e.occurredAt
  }

  /** What cloning does to cut events: spreading does not concern them. */
  ghost predicate StreamsShifted(room: seq<Event>, clone: seq<Event>, gaps: seq<Interval>) {
    && |clone| == |room|
    && (forall i :: 0 <= i < |room| ==> IsStream(clone[i]) == IsStream(room[i]))
    && (forall i :: 0 <= i < |room| && IsStream(room[i]) ==> clone[i] == Shifting(gaps)(room[i]))
  }

  lemma {:induction false} CloneShiftsStreams(room: seq<Event>, clone: seq<Event>, gaps: seq<Interval>)
    requires Clone(room, gaps, 0) == Some(clone)
    ensures StreamsShifted(room, clone, gaps)
  {
  }

  lemma {:induction false} ClonedRowsUpTo(room: seq<Event>, clone: seq<Event>, gaps: seq<Interval>, n: nat)
    requires StreamsShifted(room, clone, gaps) && n <= |room|
    ensures |CutRowsUpTo(clone, n)| == |CutRowsUpTo(room, n)|
    ensures forall k :: 0 <= k < |CutRowsUpTo(room, n)| ==>
      CutRowsUpTo(clone, n)[k] == ShiftingRow(gaps)(CutRowsUpTo(room, n)[k])
  {
    if n > 0 {
      ClonedRowsUpTo(room, clone, gaps, n - 1);
    }
  }

  lemma {:induction false} ClonedRows(room: seq<Event>, clone: seq<Event>, gaps: seq<Interval>)
    requires Clone(room, gaps, 0) == Some(clone)
    ensures CutRows(clone) == Map(ShiftingRow(gaps), CutRows(room))
  {
    CloneShiftsStreams(room, clone, gaps);
    ClonedRowsUpTo(room, clone, gaps, |room|);
  }

  predicate CreatedOrPlacedBefore(room: seq<Event>, i: nat, j: nat)
    requires i < |room| && j < |room|
  {
    room[i].createdAt < room[j].createdAt || (room[i].createdAt == room[j].createdAt && i < j)
  }

  /** A later cut event that re-timing brings to the instant of an earlier one still comes after
      it: it was created later, or at the same time and stands behind it in the table. */
  ghost predicate TiesReadBack(room: seq<Event>, gaps: seq<Interval>) {
    forall i, j | 0 <= i < |room| && 0 <= j < |room| && IsStream(room[i]) && IsStream(room[j]) ::
      room[i].occurredAt < room[j].occurredAt && Retimed(gaps, room[i].occurredAt) == Retimed(gaps, room[j].occurredAt)
      ==> CreatedOrPlacedBefore(room, i, j)
  }

  lemma {:induction false} ShiftingKeepsRowOrder(room: seq<Event>, gaps: seq<Interval>, r: CutRow, s: CutRow)
    requires Ordered(gaps) && StartsFrom(gaps, 0) && TiesReadBack(room, gaps) && StreamsNotBefore0(room)
    requires r in CutRows(room) && s in CutRows(room) && r.position < s.position
    ensures InRowOrder(r, s) <==> InRowOrder(ShiftingRow(gaps)(r), ShiftingRow(gaps)(s))
  {
    RowOfRoom(room, r);
    RowOfRoom(room, s);
    var e, f := room[r.position], room[s.position];
    assert e.occurredAt < f.occurredAt && Retimed(gaps, e.occurredAt) == Retimed(gaps, f.occurredAt)
      ==> e.createdAt <= f.createdAt;
    assert f.occurredAt < e.occurredAt && Retimed(gaps, f.occurredAt) == Retimed(gaps, e.occurredAt)
      ==> f.createdAt < e.createdAt;
    assert InRowOrder(r, s) <==> ListedBefore(e, f);
    assert ShiftingRow(gaps)(r).event == Shifting(gaps)(e) && ShiftingRow(gaps)(s).event == Shifting(gaps)(f);
    assert InRowOrder(ShiftingRow(gaps)(r), ShiftingRow(gaps)(s))
      <==> ListedBefore(Shifting(gaps)(e), Shifting(gaps)(f));
    if e.occurredAt <= f.occurredAt {
      RetimedShape(gaps, e.occurredAt, f.occurredAt);
      assert Retimed(gaps, e.occurredAt) <= Retimed(gaps, f.occurredAt);
      assert ListedBefore(e, f) <==> ListedBefore(Shifting(gaps)(e), Shifting(gaps)(f));
    } else {
      RetimedShape(gaps, f.occurredAt, e.occurredAt);
      assert ListedBefore(e, f) <==> ListedBefore(Shifting(gaps)(e), Shifting(gaps)(f));
    }
  }

  lemma {:induction false} ShiftingKeepsOrder(room: seq<Event>, gaps: seq<Interval>)
    requires Ordered(gaps) && StartsFrom(gaps, 0) && TiesReadBack(room, gaps) && StreamsNotBefore0(room)
    ensures KeepsOrder(InRowOrder, InRowOrder, ShiftingRow(gaps), CutRows(room))
  {
    var rows := CutRows(room);
    CutRowsRise(room, |room|);
    forall i, j | 0 <= i < j < |rows|
      ensures InRowOrder(rows[i], rows[j]) <==> InRowOrder(ShiftingRow(gaps)(rows[i]), ShiftingRow(gaps)(rows[j]))
    {
      ShiftingKeepsRowOrder(room, gaps, rows[i], rows[j]);
    }
  }

  lemma {:induction false} RowsReadBack(room: seq<Event>, gaps: seq<Interval>, clone: seq<Event>)
    requires Ordered(gaps) && StartsFrom(gaps, 0) && TiesReadBack(room, gaps) && StreamsNotBefore0(room)
    requires Clone(room, gaps, 0) == Some(clone)
    ensures ListedRows(clone) == Map(ShiftingRow(gaps), ListedRows(room))
  {
    ClonedRows(room, clone, gaps);
    ShiftingKeepsOrder(room, gaps);
    SortCommutes(InRowOrder, InRowOrder, ShiftingRow(gaps), CutRows(room));
  }

  /** The cut events of the clone, as listed, are those of the source, as listed, re-timed. */
  lemma {:induction false} CutsReadBack(room: seq<Event>, gaps: seq<Interval>, clone: seq<Event>)
    requires Ordered(gaps) && StartsFrom(gaps, 0) && TiesReadBack(room, gaps) && StreamsNotBefore0(room)
    requires Clone(room, gaps, 0) == Some(clone)
    ensures ListCuts(clone) == Map(Shifting(gaps), ListCuts(room))
  {
    RowsReadBack(room, gaps, clone);
    ListCutsByRows(room);
    ListCutsByRows(clone);
    var a, b := ListCuts(clone), Map(Shifting(gaps), ListCuts(room));
    forall k | 0 <= k < |a| ensures a[k] == b[k] {
      assert a[k] == ListedRows(clone)[k].event;
    }
  }

  // ---- Exactly when they come back in order ----------------------------------

  function Positions(rows: seq<CutRow>): seq<nat> {
    Map(PositionOf, rows)
  }

  lemma {:induction false} ListedRowsShape(room: seq<Event>)
    ensures SortedBy(InRowOrder, ListedRows(room))
    ensures forall r :: r in ListedRows(room) <==> r in CutRows(room)
  {
    SortSorts(InRowOrder, CutRows(room));
    SortKeeps(InRowOrder, CutRows(room));
  }

  /** Where a row stands in the listing. */
  lemma {:induction false} PlaceOf(room: seq<Event>, i: nat) returns (k: nat)
    requires i < |room| && IsStream(room[i])
    ensures k < |ListedRows(room)| && ListedRows(room)[k] == CutRow(i, room[i])
  {
    CutRowsComplete(room, |room|, i);
    ListedRowsShape(room);
    k :| k < |ListedRows(room)| && ListedRows(room)[k] == CutRow(i, room[i]);
  }

  lemma {:induction false} FirstOfTwo(room: seq<Event>, i: nat, j: nat, both: CutRow -> bool)
    requires j < i < |room| && IsStream(room[i]) && IsStream(room[j])
    requires forall r :: both(r) <==> r == CutRow(i, room[i]) || r == CutRow(j, room[j])
    ensures Filter(both, CutRows(room)) != [] && Filter(both, CutRows(room))[0] == CutRow(j, room[j])
  {
    var rows := CutRows(room);
    CutRowsComplete(room, |room|, j);
    CutRowsRise(room, |room|);
    FilterMembers(both, rows);
    assert CutRow(j, room[j]) in Filter(both, rows);
    var first := FilterFirst(both, rows);
    var place :| 0 <= place < |rows| && rows[place] == CutRow(j, room[j]);
    assert first <= place;
  }

  lemma {:induction false} FirstListedOfTwo(room: seq<Event>, i: nat, j: nat, both: CutRow -> bool) returns (found: nat)
    requires j < i < |room| && IsStream(room[i]) && IsStream(room[j])
    requires room[i].occurredAt == room[j].occurredAt && room[i].createdAt == room[j].createdAt
    requires forall r :: both(r) <==> r == CutRow(i, room[i]) || r == CutRow(j, room[j])
    ensures found < |ListedRows(room)| && ListedRows(room)[found] == CutRow(j, room[j])
    ensures forall m :: 0 <= m < found ==> !both(ListedRows(room)[m])
  {
    FirstOfTwo(room, i, j, both);
    SortStable(InRowOrder, both, CutRows(room));
    found := FilterFirst(both, ListedRows(room));
  }

  /** Of two rows that tie in both times the one in front in the table is listed first. */
  lemma {:induction false} TieListedByTable(room: seq<Event>, i: nat, j: nat, k: nat, m: nat)
    requires j < i < |room| && IsStream(room[i]) && IsStream(room[j])
    requires room[i].occurredAt == room[j].occurredAt && room[i].createdAt == room[j].createdAt
    requires k < |ListedRows(room)| && ListedRows(room)[k] == CutRow(i, room[i])
    requires m < |ListedRows(room)| && ListedRows(room)[m] == CutRow(j, room[j])
    ensures m < k
  {
    var both := (r: CutRow) => r == CutRow(i, room[i]) || r == CutRow(j, room[j]);
    var found := FirstListedOfTwo(room, i, j, both);
    assert both(ListedRows(room)[k]);
    assert found <= k;
    DistinctRows(room, found, m);
  }

  lemma {:induction false} DistinctRows(room: seq<Event>, k: nat, m: nat)
    requires k < |ListedRows(room)| && m < |ListedRows(room)| && ListedRows(room)[k] == ListedRows(room)[m]
    ensures k == m
  {
    var rows, listed := CutRows(room), ListedRows(room);
    SortKeeps(InRowOrder, rows);
    CutRowsRise(room, |room|);
    OnceOnly(rows, listed[k]);
    if k < m {
      TwiceInside(listed, k, m);
    } else if m < k {
      TwiceInside(listed, m, k);
    }
  }

  lemma {:induction false} OnceOnly(rows: seq<CutRow>, r: CutRow)
    requires Rising(rows)
    ensures multiset(rows)[r] <= 1
  {
    if rows != [] {
      assert rows == [rows[0]] + rows[1..];
      OnceOnly(rows[1..], r);
      assert rows[0] == r ==> r !in rows[1..];
    }
  }

  lemma {:induction false} TwiceInside(rows: seq<CutRow>, k: nat, m: nat)
    requires k < m < |rows| && rows[k] == rows[m]
    ensures multiset(rows)[rows[k]] >= 2
  {
    assert rows == [rows[0]] + rows[1..];
    if k > 0 {
      TwiceInside(rows[1..], k - 1, m - 1);
    } else {
      assert rows[1..][m - 1] == rows[m];
    }
  }

  lemma {:induction false} ListedRowsInOrder(room: seq<Event>, k: nat, m: nat)
    requires k < m < |ListedRows(room)|
    ensures ListedBefore(ListedRows(room)[k].event, ListedRows(room)[m].event)
  {
    SortSorts(InRowOrder, CutRows(room));
    SortedPair(InRowOrder, ListedRows(room), k, m);
  }

  lemma {:induction false} RowAt(room: seq<Event>, k: nat, i: nat)
    requires k < |ListedRows(room)| && Positions(ListedRows(room))[k] == i
    ensures i < |room| && ListedRows(room)[k] == CutRow(i, room[i])
  {
    var r := ListedRows(room)[k];
    SortKeeps(InRowOrder, CutRows(room));
    assert r in ListedRows(room);
    RowOfRoom(room, r);
  }

  lemma {:induction false} EarlierRowFirst(room: seq<Event>, i: nat, j: nat, k: nat, m: nat)
    requires i < |room| && j < |room| && room[i].occurredAt < room[j].occurredAt
    requires k < |ListedRows(room)| && ListedRows(room)[k] == CutRow(i, room[i])
    requires m < |ListedRows(room)| && ListedRows(room)[m] == CutRow(j, room[j])
    ensures k < m
  {
    if m < k {
      ListedRowsInOrder(room, m, k);
    }
  }

  lemma {:induction false} TieFollowsRows(room: seq<Event>, i: nat, j: nat, k: nat, m: nat)
    requires i < |room| && j < |room| && i != j && IsStream(room[i]) && IsStream(room[j])
    requires room[i].occurredAt == room[j].occurredAt
    requires k < m < |ListedRows(room)|
    requires ListedRows(room)[k] == CutRow(i, room[i]) && ListedRows(room)[m] == CutRow(j, room[j])
    ensures CreatedOrPlacedBefore(room, i, j)
  {
    ListedRowsInOrder(room, k, m);
    if room[i].createdAt == room[j].createdAt && j < i {
      TieListedByTable(room, i, j, k, m);
    }
  }

  lemma {:induction false} OrderShowsTies(room: seq<Event>, gaps: seq<Interval>, clone: seq<Event>, i: nat, j: nat)
    requires Clone(room, gaps, 0) == Some(clone)
    requires i < |room| && j < |room| && IsStream(room[i]) && IsStream(room[j])
    requires Positions(ListedRows(clone)) == Positions(ListedRows(room))
    requires room[i].occurredAt < room[j].occurredAt
    requires Retimed(gaps, room[i].occurredAt) == Retimed(gaps, room[j].occurredAt)
    ensures CreatedOrPlacedBefore(room, i, j)
  {
    var k := PlaceOf(room, i);
    var m := PlaceOf(room, j);
    EarlierRowFirst(room, i, j, k, m);
    assert Positions(ListedRows(room))[k] == i && Positions(ListedRows(room))[m] == j;
    RowAt(clone, k, i);
    RowAt(clone, m, j);
    assert clone[i] == Shifting(gaps)(room[i]) && clone[j] == Shifting(gaps)(room[j]);
    TieFollowsRows(clone, i, j, k, m);
  }

  /** The list query on the clone gives the rows of the cut events in the order of the source
      exactly when no tie made by re-timing is reversed by the times of creation or, those being
      equal, by the table. */
  lemma {:induction false} RowsReadBackIff(room: seq<Event>, gaps: seq<Interval>, clone: seq<Event>)
    requires Ordered(gaps) && StartsFrom(gaps, 0) && StreamsNotBefore0(room)
    requires Clone(room, gaps, 0) == Some(clone)
    ensures Positions(ListedRows(clone)) == Positions(ListedRows(room)) <==> TiesReadBack(room, gaps)
  {
    if TiesReadBack(room, gaps) {
      RowsReadBack(room, gaps, clone);
      var a, b := ListedRows(clone), ListedRows(room);
      forall k | 0 <= k < |a| ensures Positions(a)[k] == Positions(b)[k] {
      }
    }
    if Positions(ListedRows(clone)) == Positions(ListedRows(room)) {
      forall i, j | 0 <= i < |room| && 0 <= j < |room| && IsStream(room[i]) && IsStream(room[j])
        && room[i].occurredAt < room[j].occurredAt
        && Retimed(gaps, room[i].occurredAt) == Retimed(gaps, room[j].occurredAt)
        ensures CreatedOrPlacedBefore(room, i, j)
      {
        OrderShowsTies(room, gaps, clone, i, j);
      }
    }
  }

  // ---- Whatever order the database gives to full ties --------------------------

  /** Any result that the ORDER BY of the list query allows. */
  ghost predicate Reading(room: seq<Event>, list: seq<Event>) {
    SortedBy(InListOrder, list) && multiset(list) == multiset(Filter(Streams, room))
  }

  lemma {:induction false} ReadFromRoom(room: seq<Event>, list: seq<Event>, i: nat)
    requires Reading(room, list) && i < |list|
    ensures list[i] in room && IsStream(list[i])
  {
    assert list[i] in multiset(list);
    assert list[i] in Filter(Streams, room);
    FilterMembers(Streams, room);
  }

  /** What can be seen of a cut event: its command and its two times. */
  datatype Stamp = Stamp(cut: Command, at: int, createdAt: int)

  const StampOf: Event -> Stamp := (e: Event) => Stamp(e.body.cut, e.occurredAt, e.createdAt)

  predicate Settled(e: Event, f: Event) {
    e.createdAt < f.createdAt || (e.createdAt == f.createdAt && e.body.cut == f.body.cut)
  }

  /** Ties made by re-timing follow the times of creation, and those that remain hold the same
      command. */
  ghost predicate TiesSettled(list: seq<Event>, gaps: seq<Interval>) {
    forall i, j | 0 <= i < j < |list| ::
      Retimed(gaps, list[i].occurredAt) == Retimed(gaps, list[j].occurredAt) ==> Settled(list[i], list[j])
  }

  ghost predicate SameKeySameCut(list: seq<Event>) {
    forall i, j | 0 <= i < j < |list| ::
      KeyOf(list[i]) == KeyOf(list[j]) ==> list[i].body.cut == list[j].body.cut
  }

  datatype Key = Key(at: int, createdAt: int)

  const KeyOf: Event -> Key := (e: Event) => Key(e.occurredAt, e.createdAt)

  const ByKey: (Key, Key) -> bool := (k: Key, l: Key) => k.at < l.at || (k.at == l.at && k.createdAt <= l.createdAt)

  lemma {:induction false} SortedKeys(list: seq<Event>)
    requires SortedBy(InListOrder, list)
    ensures SortedBy(ByKey, Map(KeyOf, list))
  {
    var keys := Map(KeyOf, list);
    forall i, j | 0 <= i < j < |keys| ensures ByKey(keys[i], keys[j]) {
      assert InListOrder(list[i], list[j]);
    }
  }

  lemma KeysDiffer()
    ensures Antisymmetric(ByKey)
  {
  }

  /** Two sorted lists of the same events have the same times in every place. */
  lemma {:induction false} SortedTwins(a: seq<Event>, b: seq<Event>)
    requires SortedBy(InListOrder, a) && SortedBy(InListOrder, b) && multiset(a) == multiset(b)
    ensures Map(KeyOf, a) == Map(KeyOf, b) && |a| == |b|
  {
    SortedKeys(a);
    SortedKeys(b);
    MapPermutes(KeyOf, a, b);
    KeysDiffer();
    SortedOnce(ByKey, Map(KeyOf, a), Map(KeyOf, b));
  }

  lemma {:induction false} TwinLooksAlike(a: seq<Event>, b: seq<Event>, i: nat)
    requires Map(KeyOf, a) == Map(KeyOf, b) && |a| == |b| && i < |b| && b[i] in a
    requires SameKeySameCut(a)
    ensures StampOf(b[i]) == StampOf(a[i])
  {
    var k :| 0 <= k < |a| && a[k] == b[i];
    assert KeyOf(a[i]) == Map(KeyOf, b)[i] == KeyOf(b[i]);
    if k < i {
      assert a[k].body.cut == a[i].body.cut;
    } else if i < k {
      assert a[i].body.cut == a[k].body.cut;
    }
  }

  lemma {:induction false} TwinsLookAlike(a: seq<Event>, b: seq<Event>)
    requires SortedBy(InListOrder, a) && SortedBy(InListOrder, b) && multiset(a) == multiset(b)
    requires SameKeySameCut(a)
    ensures Map(StampOf, b) == Map(StampOf, a)
  {
    SortedTwins(a, b);
    SameMembers(a, b);
    var x, y := Map(StampOf, b), Map(StampOf, a);
    forall i: nat | i < |b| ensures x[i] == y[i] {
      TwinLooksAlike(a, b, i);
    }
  }

  lemma {:induction false} SameMembers(a: seq<Event>, b: seq<Event>)
    requires multiset(a) == multiset(b)
    ensures forall i :: 0 <= i < |b| ==> b[i] in a
  {
    forall i | 0 <= i < |b| ensures b[i] in a {
      assert b[i] in multiset(a);
    }
  }

  lemma {:induction false} StreamsPointwise(a: seq<Event>, b: seq<Event>, gaps: seq<Interval>)
    requires StreamsShifted(a, b, gaps)
    ensures Filter(Streams, b) == Map(Shifting(gaps), Filter(Streams, a))
  {
    if a != [] {
      StreamsPointwise(a[1..], b[1..], gaps);
    }
  }

  /** The re-timed list holds the cut events of the clone. */
  lemma {:induction false} RetimedReading(room: seq<Event>, gaps: seq<Interval>, clone: seq<Event>, list: seq<Event>)
    requires Clone(room, gaps, 0) == Some(clone) && Reading(room, list)
    ensures multiset(Map(Shifting(gaps), list)) == multiset(Filter(Streams, clone))
  {
    CloneShiftsStreams(room, clone, gaps);
    StreamsPointwise(room, clone, gaps);
    MapPermutes(Shifting(gaps), list, Filter(Streams, room));
  }

  lemma {:induction false} SettledIsSorted(list: seq<Event>, gaps: seq<Interval>)
    requires Ordered(gaps) && StartsFrom(gaps, 0) && SortedBy(InListOrder, list)
    requires (forall i :: 0 <= i < |list| ==> 0 <= list[i].occurredAt) && TiesSettled(list, gaps)
    ensures SortedBy(InListOrder, Map(Shifting(gaps), list)) && SameKeySameCut(Map(Shifting(gaps), list))
  {
    var moved := Map(Shifting(gaps), list);
    forall i, j | 0 <= i < j < |list| ensures InListOrder(moved[i], moved[j]) {
      assert InListOrder(list[i], list[j]);
      RetimedShape(gaps, list[i].occurredAt, list[j].occurredAt);
    }
  }

  lemma {:induction false} SwapIsReading(room: seq<Event>, list: seq<Event>, i: nat, j: nat) returns (other: seq<Event>)
    requires Reading(room, list) && i < j < |list| && KeyOf(list[i]) == KeyOf(list[j])
    ensures Reading(room, other) && |other| == |list| && other[i] == list[j]
  {
    other := list[i := list[j]][j := list[i]];
    forall a, b | 0 <= a < b < |other| ensures InListOrder(other[a], other[b]) {
      assert KeyOf(other[a]) == KeyOf(list[a]) && KeyOf(other[b]) == KeyOf(list[b]);
      assert InListOrder(list[a], list[b]);
    }
  }

  /** All results of the list query on the clone look like `moved`. */
  ghost predicate EveryReadingLooksLike(clone: seq<Event>, moved: seq<Event>) {
    forall r {:trigger Reading(clone, r)} :: Reading(clone, r) ==> Map(StampOf, r) == Map(StampOf, moved)
  }

  lemma {:induction false} SameTimesSameCut(clone: seq<Event>, moved: seq<Event>, i: nat, j: nat)
    requires Reading(clone, moved) && i < j < |moved| && KeyOf(moved[i]) == KeyOf(moved[j])
    requires EveryReadingLooksLike(clone, moved)
    ensures moved[i].body.cut == moved[j].body.cut
  {
    var other := SwapIsReading(clone, moved, i, j);
    assert Map(StampOf, other)[i] == Map(StampOf, moved)[i];
  }

  lemma {:induction false} ReadInOrder(room: seq<Event>, list: seq<Event>, i: nat, j: nat)
    requires Reading(room, list) && i < j < |list|
    ensures ListedBefore(list[i], list[j])
  {
    assert InListOrder(list[i], list[j]);
  }

  lemma {:induction false} TieSettled(clone: seq<Event>, moved: seq<Event>, i: nat, j: nat)
    requires Reading(clone, moved) && EveryReadingLooksLike(clone, moved)
    requires i < j < |moved| && moved[i].occurredAt == moved[j].occurredAt
    ensures Settled(moved[i], moved[j])
  {
    ReadInOrder(clone, moved, i, j);
    if moved[i].createdAt == moved[j].createdAt {
      SameTimesSameCut(clone, moved, i, j);
    }
  }

  lemma {:induction false} AgreementSettles(room: seq<Event>, gaps: seq<Interval>, clone: seq<Event>, list: seq<Event>)
    requires Clone(room, gaps, 0) == Some(clone) && Reading(room, list)
    requires EveryReadingLooksLike(clone, Map(Shifting(gaps), list))
    ensures TiesSettled(list, gaps)
  {
    var moved, first := Map(Shifting(gaps), list), ListCuts(clone);
    ListCutsInOrder(clone);
    RetimedReading(room, gaps, clone, list);
    assert Reading(clone, first);
    SameStampsSorted(first, moved);
    assert Reading(clone, moved);
    forall i, j | 0 <= i < j < |list| && Retimed(gaps, list[i].occurredAt) == Retimed(gaps, list[j].occurredAt)
      ensures Settled(list[i], list[j])
    {
      assert moved[i] == Shifting(gaps)(list[i]) && moved[j] == Shifting(gaps)(list[j]);
      TieSettled(clone, moved, i, j);
    }
  }

  lemma {:induction false} SameStampsSorted(a: seq<Event>, b: seq<Event>)
    requires Map(StampOf, a) == Map(StampOf, b) && SortedBy(InListOrder, a)
    ensures SortedBy(InListOrder, b)
  {
    assert |a| == |Map(StampOf, a)| == |b|;
    forall i, j | 0 <= i < j < |b| ensures InListOrder(b[i], b[j]) {
      SortedPair(InListOrder, a, i, j);
      assert StampOf(a[i]) == Map(StampOf, b)[i] == StampOf(b[i]);
      assert StampOf(a[j]) == Map(StampOf, b)[j] == StampOf(b[j]);
    }
  }

  /** The clone reads like the source, whatever order the database gives to rows with equal
      times, exactly when no tie made by re-timing is reversed by the times of creation and no
      two different commands tie in both times. */
  lemma {:induction false} EveryReadingIff(room: seq<Event>, gaps: seq<Interval>, clone: seq<Event>, list: seq<Event>)
    requires Ordered(gaps) && StartsFrom(gaps, 0) && StreamsNotBefore0(room)
    requires Clone(room, gaps, 0) == Some(clone) && Reading(room, list)
    ensures EveryReadingLooksLike(clone, Map(Shifting(gaps), list)) <==> TiesSettled(list, gaps)
  {
    if EveryReadingLooksLike(clone, Map(Shifting(gaps), list)) {
      AgreementSettles(room, gaps, clone, list);
    }
    if TiesSettled(list, gaps) {
      forall i | 0 <= i < |list| ensures 0 <= list[i].occurredAt {
        ReadFromRoom(room, list, i);
      }
      SettledIsSorted(list, gaps);
      RetimedReading(room, gaps, clone, list);
      forall r | Reading(clone, r) ensures Map(StampOf, r) == Map(StampOf, Map(Shifting(gaps), list)) {
        TwinsLookAlike(Map(Shifting(gaps), list), r);
      }
    }
  }
}
