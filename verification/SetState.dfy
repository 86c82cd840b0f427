/** Reading the state of a set of events: the latest version of every label.  A missing label
    sorts last. */
module SetState {
  import opened Options
  import opened Sorting
  import opened EventLog

  const MAX_INSTANT := 9223372036854775807

  /** `limit` belongs to the query but is applied separately below. */
  datatype Query = Query(
    room: nat,
    eventSet: string,
    attribute: Option<string>,
    occurredAt: Option<int>,
    originalOccurredAt: int)

  // ---- The two queries -----------------------------------------------------------------

  predicate InScope(q: Query, v: Version) {
    && v.key.room == q.room && v.key.eventSet == q.eventSet
    && v.originalOccurredAt < q.originalOccurredAt
    && v.occurredAt < (if q.occurredAt.Some? then q.occurredAt.value else MAX_INSTANT)
  }

  function Scope(q: Query, table: seq<Version>): seq<Version> {
    Filter((v: Version) => InScope(q, v), table)
  }

  predicate LabelBefore(a: Option<int>, b: Option<int>) {
    a.Some? && (b.None? || a.value < b.value)
  }

  /** Strictly before in ORDER BY original_occurred_at DESC, label ASC. */
  predicate GroupBefore(a: Version, b: Version) {
    a.originalOccurredAt > b.originalOccurredAt
    || (a.originalOccurredAt == b.originalOccurredAt && LabelBefore(a.key.eventLabel, b.key.eventLabel))
  }

  predicate SameGroup(a: Version, b: Version) {
    a.originalOccurredAt == b.originalOccurredAt && a.key.eventLabel == b.key.eventLabel
  }

  /** … and then occurred_at DESC. */
  const InReadOrder: (Version, Version) -> bool := (a: Version, b: Version) =>
    GroupBefore(a, b) || (SameGroup(a, b) && a.occurredAt >= b.occurredAt)

  /** DISTINCT ON (original_occurred_at, label): the first row of every run. */
  function KeepFirst(prev: Option<Version>, list: seq<Version>): seq<Version>
    decreases list
  {
    if list == [] then []
    else if prev.Some? && SameGroup(prev.value, list[0]) then KeepFirst(prev, list[1..])
    else [list[0]] + KeepFirst(Some(list[0]), list[1..])
  }

  function Picked(q: Query, table: seq<Version>): seq<Version> {
    KeepFirst(None, Sort(InReadOrder, Scope(q, table)))
  }

  /** No version of its label in scope occurred later. */
  predicate Newest(q: Query, table: seq<Version>, v: Version) {
    forall w :: w in table && InScope(q, w) && w.key.eventLabel == v.key.eventLabel ==> w.occurredAt <= v.occurredAt
  }

  predicate TiesWith(q: Query, v: Version, w: Version) {
    InScope(q, w) && w.key.eventLabel == v.key.eventLabel && w.occurredAt == v.occurredAt
  }

  /** ROW_NUMBER() OVER (PARTITION BY room_id, set, label ORDER BY occurred_at DESC) = 1, within
      the scope of the query; versions of one time are numbered in table order. */
  predicate Numbered1(q: Query, table: seq<Version>, v: Version) {
    var ties := Filter((w: Version) => TiesWith(q, v, w), table);
    Newest(q, table, v) && ties != [] && ties[0] == v
  }

  predicate HasAttribute(q: Query, v: Version) {
    q.attribute.Some? ==> v.attribute == q.attribute
  }

  predicate Read(q: Query, table: seq<Version>, v: Version) {
    !v.removed && HasAttribute(q, v) && (q.attribute.Some? ==> Numbered1(q, table, v))
  }

  /** What `execute` returns before its limit. */
  function Rows(q: Query, table: seq<Version>): seq<Version> {
    Filter((v: Version) => Read(q, table, v), Picked(q, table))
  }

  function Take(list: seq<Version>, n: nat): seq<Version> {
    if n < |list| then list[..n] else list
  }

  /** `w` says that the label of `v` was removed, at the time of `v` or later. */
  predicate RemovesSince(q: Query, w: Version, v: Version) {
    InScope(q, w) && w.removed && w.key.eventLabel == v.key.eventLabel && w.occurredAt >= v.occurredAt
  }

  /** bool_or(removed) OVER (PARTITION BY room_id, set, label ORDER BY occurred_at DESC): over the
      versions from the newest down to this one, those that tie with it included. */
  predicate RemovedWindowed(q: Query, table: seq<Version>, v: Version) {
    exists w :: w in table && RemovesSince(q, w, v)
  }

  predicate Counted(q: Query, table: seq<Version>, v: Version) {
    !RemovedWindowed(q, table, v) && HasAttribute(q, v)
  }

  function TotalCount(q: Query, table: seq<Version>): nat {
    |Filter((v: Version) => Counted(q, table, v), Picked(q, table))|
  }

  /** What the trigger provides, asked of the versions of the one set that is read. */
  ghost predicate Fit(q: Query, table: seq<Version>) {
    OneOriginal(table, q.room, q.eventSet) && DistinctTimes(table, q.room, q.eventSet)
  }

  // ---- The reference: replay the log --------------------------------------------------------

  /** Reads the log in any order and keeps, for every label in scope, the version that occurred
      last. */
  function Replay(q: Query, log: seq<Version>): map<Option<int>, Version> {
    if log == [] then map[]
    else
      var v, state := log[|log| - 1], Replay(q, log[..|log| - 1]);
      if !InScope(q, v) || (v.key.eventLabel in state && state[v.key.eventLabel].occurredAt > v.occurredAt) then state
      else state[v.key.eventLabel := v]
  }

  ghost predicate IsLatest(q: Query, table: seq<Version>, v: Version) {
    v in table && InScope(q, v) && Newest(q, table, v)
  }

  lemma {:induction false} ReplayKeepsLatest(q: Query, log: seq<Version>, l: Option<int>)
    ensures l in Replay(q, log) <==> exists v :: v in log && InScope(q, v) && v.key.eventLabel == l
    ensures l in Replay(q, log) ==> Replay(q, log)[l].key.eventLabel == l && IsLatest(q, log, Replay(q, log)[l])
  {
    if log != [] {
      var init, last := log[..|log| - 1], log[|log| - 1];
      assert log == init + [last];
      ReplayKeepsLatest(q, init, l);
      ReplayKeepsLatest(q, init, last.key.eventLabel);
    }
  }

  lemma {:induction false} ReplayIsLatest(q: Query, table: seq<Version>, v: Version)
    requires DistinctTimes(table, q.room, q.eventSet)
    ensures (v.key.eventLabel in Replay(q, table) && Replay(q, table)[v.key.eventLabel] == v) <==> IsLatest(q, table, v)
  {
    ReplayKeepsLatest(q, table, v.key.eventLabel);
    if IsLatest(q, table, v) {
      var w := Replay(q, table)[v.key.eventLabel];
      assert v.key == w.key && v.occurredAt == w.occurredAt;
    }
  }

  // ---- Sorting and picking ---------------------------------------------------------------------

  lemma ReadOrderIsTotal()
    ensures Total(InReadOrder) && Transitive(InReadOrder)
  {
  }

  ghost predicate StrictlySorted(list: seq<Version>) {
    list == [] || ((forall v :: v in list[1..] ==> GroupBefore(list[0], v)) && StrictlySorted(list[1..]))
  }

  lemma {:induction false} TailInReadOrder(list: seq<Version>)
    requires list != [] && SortedBy(InReadOrder, list)
    ensures forall x :: x in list[1..] ==> InReadOrder(list[0], x)
    ensures SortedBy(InReadOrder, list[1..])
  {
    forall x | x in list[1..] ensures InReadOrder(list[0], x) {
      var i :| 0 < i < |list| && list[i] == x;
    }
  }

  lemma {:induction false} KeepFirstMembers(prev: Option<Version>, list: seq<Version>)
    requires SortedBy(InReadOrder, list)
    requires prev.Some? ==> forall v :: v in list ==> InReadOrder(prev.value, v)
    ensures forall v :: v in KeepFirst(prev, list) ==> v in list && (prev.Some? ==> GroupBefore(prev.value, v))
    ensures StrictlySorted(KeepFirst(prev, list))
    decreases list
  {
    if list != [] {
      TailInReadOrder(list);
      if prev.Some? && SameGroup(prev.value, list[0]) {
        KeepFirstMembers(prev, list[1..]);
      } else {
        KeepFirstMembers(Some(list[0]), list[1..]);
        KeptHead(prev, list[0], KeepFirst(Some(list[0]), list[1..]));
      }
    }
  }

  lemma {:induction false} KeptHead(prev: Option<Version>, first: Version, rest: seq<Version>)
    requires StrictlySorted(rest) && forall v :: v in rest ==> GroupBefore(first, v)
    requires prev.Some? ==> InReadOrder(prev.value, first) && !SameGroup(prev.value, first)
    ensures StrictlySorted([first] + rest)
    ensures forall v :: v in [first] + rest ==> (v == first || v in rest) && (prev.Some? ==> GroupBefore(prev.value, v))
  {
    assert ([first] + rest)[1..] == rest;
  }

  /** Whatever is in the list is represented by a version of its group that occurred no earlier. */
  lemma {:induction false} KeepFirstRepresents(prev: Option<Version>, list: seq<Version>, v: Version)
    returns (w: Version)
    requires SortedBy(InReadOrder, list) && v in list
    requires prev.Some? ==> forall x :: x in list ==> InReadOrder(prev.value, x)
    ensures (w in KeepFirst(prev, list) || prev == Some(w)) && SameGroup(w, v) && w.occurredAt >= v.occurredAt
    decreases list
  {
    if prev.Some? && SameGroup(prev.value, v) {
      assert InReadOrder(prev.value, v);
      w := prev.value;
    } else if prev.Some? && SameGroup(prev.value, list[0]) {
      assert v in list[1..];
      w := KeepFirstRepresents(prev, list[1..], v);
    } else if v == list[0] {
      w := v;
    } else {
      assert v in list[1..];
      forall x | x in list[1..] ensures InReadOrder(list[0], x) {
        var i :| 0 < i < |list| && list[i] == x;
      }
      w := KeepFirstRepresents(Some(list[0]), list[1..], v);
    }
  }

  lemma {:induction false} SortedScope(q: Query, table: seq<Version>)
    ensures SortedBy(InReadOrder, Sort(InReadOrder, Scope(q, table)))
    ensures forall v :: v in Sort(InReadOrder, Scope(q, table)) <==> v in table && InScope(q, v)
  {
    ReadOrderIsTotal();
    SortSorts(InReadOrder, Scope(q, table));
    SortKeeps(InReadOrder, Scope(q, table));
    FilterMembers((v: Version) => InScope(q, v), table);
  }

  /** Given what the trigger provides, the query picks exactly the latest version of every label. */
  lemma {:induction false} PickedIsLatest(q: Query, table: seq<Version>, v: Version)
    requires Fit(q, table)
    ensures v in Picked(q, table) <==> IsLatest(q, table, v)
  {
    var sorted := Sort(InReadOrder, Scope(q, table));
    SortedScope(q, table);
    KeepFirstMembers(None, sorted);
    if v in Picked(q, table) {
      forall x | x in table && InScope(q, x) && x.key.eventLabel == v.key.eventLabel
        ensures x.occurredAt <= v.occurredAt
      {
        var w := KeepFirstRepresents(None, sorted, x);
        assert x.key == v.key;
        StrictGroups(Picked(q, table), v, w);
      }
    }
    if IsLatest(q, table, v) {
      var w := KeepFirstRepresents(None, sorted, v);
      assert v.key == w.key;
    }
  }

  lemma {:induction false} HeadOrTail(list: seq<Version>, v: Version)
    requires v in list
    ensures v == list[0] || v in list[1..]
  {
  }

  lemma {:induction false} StrictGroups(list: seq<Version>, v: Version, w: Version)
    requires StrictlySorted(list) && v in list && w in list && SameGroup(v, w)
    ensures v == w
  {
    HeadOrTail(list, v);
    HeadOrTail(list, w);
    if list[0] != v && list[0] != w {
      StrictGroups(list[1..], v, w);
    }
  }

  lemma {:induction false} PickedSorted(q: Query, table: seq<Version>)
    ensures StrictlySorted(Picked(q, table))
  {
    SortedScope(q, table);
    KeepFirstMembers(None, Sort(InReadOrder, Scope(q, table)));
  }

  lemma {:induction false} FilterSorted(p: Version -> bool, list: seq<Version>)
    requires StrictlySorted(list)
    ensures StrictlySorted(Filter(p, list))
  {
    if list != [] {
      FilterSorted(p, list[1..]);
      FilterMembers(p, list[1..]);
      var rest := Filter(p, list[1..]);
      assert if p(list[0]) then Filter(p, list) == [list[0]] + rest && Filter(p, list)[1..] == rest
        else Filter(p, list) == rest;
    }
  }

  /** Order and members determine a result. */
  lemma {:induction false} SortedByMembers(a: seq<Version>, b: seq<Version>)
    requires StrictlySorted(a) && StrictlySorted(b) && forall v :: v in a <==> v in b
    ensures a == b
  {
    assert (a != [] ==> a[0] in a) && (b != [] ==> b[0] in b);
    if a != [] && b != [] {
      HeadOrTail(b, a[0]);
      HeadOrTail(a, b[0]);
      assert a[0] == b[0];
      forall v ensures v in a[1..] <==> v in b[1..] {
        assert v in a[1..] <==> v in a && v != a[0];
        assert v in b[1..] <==> v in b && v != b[0];
      }
      SortedByMembers(a[1..], b[1..]);
    }
  }

  /** Where labels have distinct times the newest version is numbered first. */
  lemma {:induction false} NewestIsNumbered1(q: Query, table: seq<Version>, v: Version)
    requires DistinctTimes(table, q.room, q.eventSet) && IsLatest(q, table, v)
    ensures Numbered1(q, table, v)
  {
    var ties := (w: Version) => TiesWith(q, v, w);
    FilterMembers(ties, table);
    assert v in Filter(ties, table);
    var k := FilterFirst(ties, table);
    assert table[k].key == v.key;
  }

  // ---- Main results ------------------------------------------------------------------------------

  /** The query refines replaying the log: it returns, in strict order of original time
      (descending) and label, exactly the label states that are not removed and that carry the
      attribute asked for. */
  lemma {:induction false} ReadRefinesReplay(q: Query, table: seq<Version>)
    requires Fit(q, table)
    ensures StrictlySorted(Rows(q, table))
    ensures forall v :: v in Rows(q, table) <==>
      && v.key.eventLabel in Replay(q, table) && Replay(q, table)[v.key.eventLabel] == v
      && !v.removed && HasAttribute(q, v)
  {
    var p := (v: Version) => Read(q, table, v);
    PickedSorted(q, table);
    FilterSorted(p, Picked(q, table));
    FilterMembers(p, Picked(q, table));
    forall v ensures v in Rows(q, table) <==>
      && v.key.eventLabel in Replay(q, table) && Replay(q, table)[v.key.eventLabel] == v
      && !v.removed && HasAttribute(q, v)
    {
      PickedIsLatest(q, table, v);
      ReplayIsLatest(q, table, v);
      if IsLatest(q, table, v) {
        NewestIsNumbered1(q, table, v);
      }
    }
  }

  // ---- The same by the columns of the table ---------------------------------------------------------

  lemma {:induction false} LatestByColumns(q: Query, table: seq<Version>, v: Version)
    requires OneOriginal(table, q.room, q.eventSet)
    ensures IsLatest(q, table, v) <==>
      && v in table && v.key.room == q.room && v.key.eventSet == q.eventSet
      && v.originalOccurredAt < q.originalOccurredAt
      && v.occurredAt < (if q.occurredAt.Some? then q.occurredAt.value else 9223372036854775807)
      && forall w :: w in table && w.key == v.key
           && w.occurredAt < (if q.occurredAt.Some? then q.occurredAt.value else 9223372036854775807)
           ==> w.occurredAt <= v.occurredAt
  {
    if v in table && InScope(q, v) {
      forall w | w in table && w.key == v.key
        ensures InScope(q, w) <==>
          w.occurredAt < (if q.occurredAt.Some? then q.occurredAt.value else 9223372036854775807)
      {
        assert w.originalOccurredAt == v.originalOccurredAt;
      }
    }
  }

  /** DISTINCT ON by columns: a version is picked iff it is of the room and the set asked for, first
      occurred before the cursor, and is the last of its label to occur before the instant asked for. */
  lemma {:induction false} PickedByColumns(q: Query, table: seq<Version>, v: Version)
    requires Fit(q, table)
    ensures v in Picked(q, table) <==>
      && v in table && v.key.room == q.room && v.key.eventSet == q.eventSet
      && v.originalOccurredAt < q.originalOccurredAt
      && v.occurredAt < (if q.occurredAt.Some? then q.occurredAt.value else 9223372036854775807)
      && forall w :: w in table && w.key == v.key
           && w.occurredAt < (if q.occurredAt.Some? then q.occurredAt.value else 9223372036854775807)
           ==> w.occurredAt <= v.occurredAt
  {
    PickedIsLatest(q, table, v);
    LatestByColumns(q, table, v);
  }

  /** The rows by columns: what is picked, unless it is removed or lacks the attribute asked for. */
  lemma {:induction false} RowsByColumns(q: Query, table: seq<Version>, v: Version)
    requires Fit(q, table)
    ensures v in Rows(q, table) <==>
      && v in table && v.key.room == q.room && v.key.eventSet == q.eventSet
      && v.originalOccurredAt < q.originalOccurredAt
      && v.occurredAt < (if q.occurredAt.Some? then q.occurredAt.value else 9223372036854775807)
      && !v.removed && (q.attribute.Some? ==> v.attribute == q.attribute)
      && forall w :: w in table && w.key == v.key
           && w.occurredAt < (if q.occurredAt.Some? then q.occurredAt.value else 9223372036854775807)
           ==> w.occurredAt <= v.occurredAt
  {
    ReadRefinesReplay(q, table);
    ReplayIsLatest(q, table, v);
    LatestByColumns(q, table, v);
  }

  /** The reference by columns, for a log of any content: it holds a label iff a version in scope does,
      and holds for it one that no other version in scope occurred after. */
  lemma {:induction false} ReplayByColumns(q: Query, log: seq<Version>, l: Option<int>)
    ensures l in Replay(q, log) <==> exists v ::
      && v in log && v.key == Key(q.room, q.eventSet, l) && v.originalOccurredAt < q.originalOccurredAt
      && v.occurredAt < (if q.occurredAt.Some? then q.occurredAt.value else 9223372036854775807)
    ensures l in Replay(q, log) ==>
      && Replay(q, log)[l] in log && Replay(q, log)[l].key == Key(q.room, q.eventSet, l)
      && forall w :: w in log && w.key == Key(q.room, q.eventSet, l) && w.originalOccurredAt < q.originalOccurredAt
           && w.occurredAt < (if q.occurredAt.Some? then q.occurredAt.value else 9223372036854775807)
           ==> w.occurredAt <= Replay(q, log)[l].occurredAt
  {
    ReplayKeepsLatest(q, log, l);
    forall v | v in log
      ensures InScope(q, v) && v.key.eventLabel == l <==>
        && v.key == Key(q.room, q.eventSet, l) && v.originalOccurredAt < q.originalOccurredAt
        && v.occurredAt < (if q.occurredAt.Some? then q.occurredAt.value else 9223372036854775807)
    {
    }
  }

  /** A note written at 10 and changed at 20, read as it was at 15. */
  lemma PastIsRead()
    ensures var a := Version(Key(1, "notes", Some(1)), None, false, "a", 10, "user", 10, 10, "user");
      var b := Version(Key(1, "notes", Some(1)), None, false, "b", 20, "user", 20, 10, "user");
      var q := Query(1, "notes", None, Some(15), 100);
      Fit(q, [a, b]) && a in Rows(q, [a, b]) && b !in Rows(q, [a, b])
  {
    var a := Version(Key(1, "notes", Some(1)), None, false, "a", 10, "user", 10, 10, "user");
    var b := Version(Key(1, "notes", Some(1)), None, false, "b", 20, "user", 20, 10, "user");
    var q := Query(1, "notes", None, Some(15), 100);
    assert a in [a, b];
    RowsByColumns(q, [a, b], a);
    RowsByColumns(q, [a, b], b);
  }

  lemma {:induction false} StrictlySortedAt(list: seq<Version>, i: nat, j: nat)
    requires StrictlySorted(list) && i < j < |list|
    ensures GroupBefore(list[i], list[j])
  {
    if i == 0 {
      assert list[j] in list[1..];
    } else {
      StrictlySortedAt(list[1..], i - 1, j - 1);
    }
  }

  /** Later first; labels of one original time in order, and what has no label last. */
  lemma {:induction false} RowsInOrder(q: Query, table: seq<Version>, i: nat, j: nat)
    requires i < j < |Rows(q, table)|
    ensures var v, w := Rows(q, table)[i], Rows(q, table)[j];
      || v.originalOccurredAt > w.originalOccurredAt
      || (v.originalOccurredAt == w.originalOccurredAt && v.key.eventLabel.Some?
          && (w.key.eventLabel.Some? ==> v.key.eventLabel.value < w.key.eventLabel.value))
  {
    PickedSorted(q, table);
    FilterSorted((v: Version) => Read(q, table, v), Picked(q, table));
    StrictlySortedAt(Rows(q, table), i, j);
  }

  /** The count is the size of the unlimited result. */
  lemma {:induction false} CountIsSize(q: Query, table: seq<Version>)
    requires Fit(q, table)
    ensures TotalCount(q, table) == |Rows(q, table)|
  {
    var p := (v: Version) => Read(q, table, v);
    var c := (v: Version) => Counted(q, table, v);
    forall v | v in Picked(q, table) ensures p(v) <==> c(v) {
      PickedIsLatest(q, table, v);
      RemovedLatest(q, table, v);
      NewestIsNumbered1(q, table, v);
    }
    FilterAgrees(p, c, Picked(q, table));
  }

  lemma {:induction false} RemovedLatest(q: Query, table: seq<Version>, v: Version)
    requires DistinctTimes(table, q.room, q.eventSet) && IsLatest(q, table, v)
    ensures RemovedWindowed(q, table, v) <==> v.removed
  {
    if w :| w in table && RemovesSince(q, w, v) {
      assert v.key == w.key;
    }
  }

  // ---- When count and rows agree on a table of any content ----------------------------------------

  /** The version at `i` is in scope and comes first, by time and then by table order, among the
      versions in scope with its original time and its label. */
  ghost predicate Leads(q: Query, table: seq<Version>, i: nat) {
    i < |table| && InScope(q, table[i]) &&
    forall j :: 0 <= j < |table| && InScope(q, table[j]) && SameGroup(table[i], table[j]) ==>
      table[j].occurredAt < table[i].occurredAt || (table[j].occurredAt == table[i].occurredAt && i <= j)
  }

  predicate Twin(v: Version, w: Version) {
    SameGroup(v, w) && v.occurredAt == w.occurredAt
  }

  lemma {:induction false} KeptIsFirstTwin(prev: Option<Version>, list: seq<Version>, v: Version)
    requires SortedBy(InReadOrder, list) && v in KeepFirst(prev, list)
    requires prev.Some? ==> forall x :: x in list ==> InReadOrder(prev.value, x)
    ensures Filter((w: Version) => Twin(v, w), list) != [] && Filter((w: Version) => Twin(v, w), list)[0] == v
    decreases list
  {
    var twins := (w: Version) => Twin(v, w);
    KeepFirstMembers(prev, list);
    if prev.Some? && SameGroup(prev.value, list[0]) {
      KeptIsFirstTwin(prev, list[1..], v);
      assert !twins(list[0]);
    } else if v == list[0] {
      assert twins(list[0]);
    } else {
      TailInReadOrder(list);
      KeepFirstMembers(Some(list[0]), list[1..]);
      assert v in KeepFirst(Some(list[0]), list[1..]);
      KeptIsFirstTwin(Some(list[0]), list[1..], v);
      assert !twins(list[0]);
    }
  }

  lemma {:induction false} PickedPosition(q: Query, table: seq<Version>, v: Version) returns (i: nat)
    requires v in Picked(q, table)
    ensures i < |table| && table[i] == v && InScope(q, v)
    ensures forall j :: 0 <= j < i && InScope(q, table[j]) ==> !Twin(v, table[j])
  {
    var twins := (w: Version) => Twin(v, w);
    var sorted := Sort(InReadOrder, Scope(q, table));
    SortedScope(q, table);
    KeptIsFirstTwin(None, sorted, v);
    SortStable(InReadOrder, twins, Scope(q, table));
    var both := (w: Version) => InScope(q, w) && Twin(v, w);
    FilterTwice(twins, (w: Version) => InScope(q, w), both, table);
    i := FilterFirst(both, table);
  }

  lemma {:induction false} PickedIsLast(q: Query, table: seq<Version>, v: Version, x: Version)
    requires v in Picked(q, table) && x in table && InScope(q, x) && SameGroup(v, x)
    ensures x.occurredAt <= v.occurredAt
  {
    var sorted := Sort(InReadOrder, Scope(q, table));
    SortedScope(q, table);
    KeepFirstMembers(None, sorted);
    var w := KeepFirstRepresents(None, sorted, x);
    StrictGroups(Picked(q, table), v, w);
  }

  lemma {:induction false} PickedLeads(q: Query, table: seq<Version>, v: Version) returns (i: nat)
    requires v in Picked(q, table)
    ensures Leads(q, table, i) && table[i] == v
  {
    i := PickedPosition(q, table, v);
    forall j | 0 <= j < |table| && InScope(q, table[j]) && SameGroup(v, table[j])
      ensures table[j].occurredAt < v.occurredAt || (table[j].occurredAt == v.occurredAt && i <= j)
    {
      PickedIsLast(q, table, v, table[j]);
      assert table[j].occurredAt == v.occurredAt ==> Twin(v, table[j]);
    }
  }

  /** What the query picks are the versions that lead. */
  lemma {:induction false} LeaderIsPicked(q: Query, table: seq<Version>, i: nat)
    requires Leads(q, table, i)
    ensures table[i] in Picked(q, table)
  {
    var sorted := Sort(InReadOrder, Scope(q, table));
    SortedScope(q, table);
    var w := KeepFirstRepresents(None, sorted, table[i]);
    var k := PickedLeads(q, table, w);
    assert SameGroup(table[i], table[k]) && SameGroup(table[k], table[i]);
  }

  lemma {:induction false} FilterWithin(p: Version -> bool, c: Version -> bool, list: seq<Version>)
    requires forall v :: v in list && c(v) ==> p(v)
    ensures |Filter(c, list)| <= |Filter(p, list)|
    ensures |Filter(c, list)| == |Filter(p, list)| <==> forall v :: v in list && p(v) ==> c(v)
  {
    if list != [] {
      FilterWithin(p, c, list[1..]);
      HeadOrTailAll(p, c, list);
    }
  }

  lemma {:induction false} HeadOrTailAll(p: Version -> bool, c: Version -> bool, list: seq<Version>)
    requires list != []
    ensures (forall v :: v in list && p(v) ==> c(v)) <==>
      (p(list[0]) ==> c(list[0])) && forall v :: v in list[1..] && p(v) ==> c(v)
  {
    assert list == [list[0]] + list[1..];
  }

  /** A live version that leads its group, and a removal of its label at its time or later: by a
      version of another original time, unless both occurred at once. */
  ghost predicate Overtaken(q: Query, table: seq<Version>, i: nat, j: nat) {
    && Leads(q, table, i) && !table[i].removed
    && j < |table| && RemovesSince(q, table[j], table[i])
    && (table[j].originalOccurredAt != table[i].originalOccurredAt || table[j].occurredAt == table[i].occurredAt)
  }

  lemma {:induction false} RemovedIsOvertaken(q: Query, table: seq<Version>, v: Version)
    requires v in Picked(q, table) && !v.removed
    ensures RemovedWindowed(q, table, v) <==> exists i: nat, j: nat :: Overtaken(q, table, i, j) && table[i] == v
  {
    if RemovedWindowed(q, table, v) {
      var w :| w in table && RemovesSince(q, w, v);
      var i := PickedLeads(q, table, v);
      var j: nat :| j < |table| && table[j] == w;
      assert Overtaken(q, table, i, j);
    }
  }

  /** On a table of any content, without an attribute, the count never exceeds the rows, and it
      equals them exactly when no leading live version is overtaken by a removal of its label. */
  lemma {:induction false} CountAgreesIff(q: Query, table: seq<Version>)
    requires q.attribute.None?
    ensures TotalCount(q, table) <= |Rows(q, table)|
    ensures TotalCount(q, table) == |Rows(q, table)| <==> !exists i: nat, j: nat :: Overtaken(q, table, i, j)
  {
    var p := (v: Version) => Read(q, table, v);
    var c := (v: Version) => Counted(q, table, v);
    forall v | v in Picked(q, table) && c(v) ensures p(v) {
      LiveUnlessRemoved(q, table, v);
    }
    FilterWithin(p, c, Picked(q, table));
    if i: nat, j: nat :| Overtaken(q, table, i, j) {
      LeaderIsPicked(q, table, i);
      assert table[j] in table && p(table[i]) && !c(table[i]);
    }
    if v :| v in Picked(q, table) && p(v) && !c(v) {
      RemovedIsOvertaken(q, table, v);
    }
  }

  lemma {:induction false} LiveUnlessRemoved(q: Query, table: seq<Version>, v: Version)
    requires v in Picked(q, table) && !RemovedWindowed(q, table, v)
    ensures !v.removed
  {
    var i := PickedPosition(q, table, v);
    assert v in table && (v.removed ==> RemovesSince(q, v, v));
  }

  /** Events without a label are not versions of one another for the trigger, but the count puts
      them in one partition: here one row is read and none is counted. */
  lemma UnlabelledMiscount()
    ensures var a := Version(Key(1, "notes", None), None, false, "a", 10, "user", 10, 10, "user");
      var b := Version(Key(1, "notes", None), None, true, "b", 20, "user", 20, 20, "user");
      var q := Query(1, "notes", None, None, 100);
      TotalCount(q, [a, b]) < |Rows(q, [a, b])|
  {
    var a := Version(Key(1, "notes", None), None, false, "a", 10, "user", 10, 10, "user");
    var b := Version(Key(1, "notes", None), None, true, "b", 20, "user", 20, 20, "user");
    var q := Query(1, "notes", None, None, 100);
    assert Overtaken(q, [a, b], 0, 1);
    CountAgreesIff(q, [a, b]);
  }

  // ---- The same when an attribute is asked for ------------------------------------------------------

  /** The version at `j` is numbered before the one at `i`. */
  predicate NumberedBefore(q: Query, table: seq<Version>, j: nat, i: nat)
    requires i < |table| && j < |table|
  {
    InScope(q, table[j]) && table[j].key.eventLabel == table[i].key.eventLabel
    && (table[j].occurredAt > table[i].occurredAt || (table[j].occurredAt == table[i].occurredAt && j < i))
  }

  ghost predicate First(q: Query, table: seq<Version>, i: nat)
    requires i < |table|
  {
    forall j: nat | j < |table| :: !NumberedBefore(q, table, j, i)
  }

  /** A version with the attribute leads its group and is not removed, at its time or later, but
      another version of its label is numbered before it: it is counted and not read. */
  ghost predicate Superseded(q: Query, table: seq<Version>, i: nat) {
    Leads(q, table, i) && HasAttribute(q, table[i]) && !RemovedWindowed(q, table, table[i]) && !First(q, table, i)
  }

  /** A live version with the attribute leads its group and is numbered first, but a removal of its
      label occurred at the same time: it is read and not counted. */
  ghost predicate Shadowed(q: Query, table: seq<Version>, i: nat) {
    && Leads(q, table, i) && HasAttribute(q, table[i]) && !table[i].removed && First(q, table, i)
    && exists j: nat :: j < |table| && table[j].removed && TiesWith(q, table[i], table[j])
  }

  ghost function SupersededIn(q: Query, table: seq<Version>): set<nat> {
    set i: nat | i < |table| && Superseded(q, table, i)
  }

  ghost function ShadowedIn(q: Query, table: seq<Version>): set<nat> {
    set i: nat | i < |table| && Shadowed(q, table, i)
  }

  lemma {:induction false} LeaderNumbered1(q: Query, table: seq<Version>, i: nat)
    requires Leads(q, table, i)
    ensures Numbered1(q, table, table[i]) <==> First(q, table, i)
  {
    var v := table[i];
    var ties := (w: Version) => TiesWith(q, v, w);
    FilterMembers(ties, table);
    assert v in Filter(ties, table);
    var k := FilterFirst(ties, table);
    assert k <= i;
    if Numbered1(q, table, v) {
      assert SameGroup(v, table[k]);
      forall j: nat | j < |table| ensures !NumberedBefore(q, table, j, i) {
        assert j < k ==> !ties(table[j]);
      }
    }
    if First(q, table, i) {
      assert !NumberedBefore(q, table, k, i);
      forall w | w in table && InScope(q, w) && w.key.eventLabel == v.key.eventLabel
        ensures w.occurredAt <= v.occurredAt
      {
        var j: nat :| j < |table| && table[j] == w;
        assert !NumberedBefore(q, table, j, i);
      }
    }
  }

  /** One filter and another, told apart by what only one of them keeps. */
  lemma {:induction false} FilterBalance(p: Version -> bool, c: Version -> bool, list: seq<Version>)
    ensures |Filter(p, list)| + |Filter((v: Version) => c(v) && !p(v), list)|
         == |Filter(c, list)| + |Filter((v: Version) => p(v) && !c(v), list)|
  {
    if list != [] {
      FilterBalance(p, c, list[1..]);
    }
  }

  /** Positions of leading versions that are in `list` and meet `p`. */
  ghost function LeadersIn(q: Query, table: seq<Version>, p: Version -> bool, list: seq<Version>): set<nat> {
    set i: nat | i < |table| && Leads(q, table, i) && table[i] in list && p(table[i])
  }

  lemma {:induction false} OneLeader(q: Query, table: seq<Version>, i: nat, j: nat)
    requires Leads(q, table, i) && Leads(q, table, j) && SameGroup(table[i], table[j])
    ensures i == j
  {
    assert SameGroup(table[j], table[i]);
  }

  lemma {:induction false} LeadersCons(q: Query, table: seq<Version>, p: Version -> bool, list: seq<Version>, i: nat)
    requires list != [] && StrictlySorted(list) && Leads(q, table, i) && table[i] == list[0]
    ensures i !in LeadersIn(q, table, p, list[1..])
    ensures LeadersIn(q, table, p, list) == LeadersIn(q, table, p, list[1..]) + (if p(list[0]) then {i} else {})
  {
    assert list[0] in list[1..] ==> GroupBefore(list[0], list[0]);
    assert list == [list[0]] + list[1..];
    forall k: nat | k < |table| && Leads(q, table, k) && table[k] == list[0] ensures k == i {
      OneLeader(q, table, i, k);
    }
  }

  lemma {:induction false} LeadersCounted(q: Query, table: seq<Version>, p: Version -> bool, list: seq<Version>)
    requires StrictlySorted(list) && forall v :: v in list ==> v in Picked(q, table)
    ensures |LeadersIn(q, table, p, list)| == |Filter(p, list)|
  {
    if list == [] {
      assert LeadersIn(q, table, p, list) == {};
    } else {
      var i := PickedLeads(q, table, list[0]);
      LeadersCounted(q, table, p, list[1..]);
      LeadersCons(q, table, p, list, i);
    }
  }

  lemma {:induction false} CountedNotRead(q: Query, table: seq<Version>)
    requires q.attribute.Some?
    ensures |Filter((v: Version) => Counted(q, table, v) && !Read(q, table, v), Picked(q, table))|
         == |SupersededIn(q, table)|
  {
    var p := (v: Version) => Counted(q, table, v) && !Read(q, table, v);
    PickedSorted(q, table);
    LeadersCounted(q, table, p, Picked(q, table));
    forall i: nat ensures i in LeadersIn(q, table, p, Picked(q, table)) <==> i in SupersededIn(q, table) {
      if i < |table| && Leads(q, table, i) {
        LeaderIsPicked(q, table, i);
        LeaderNumbered1(q, table, i);
        if !RemovedWindowed(q, table, table[i]) {
          LiveUnlessRemoved(q, table, table[i]);
        }
      }
    }
    assert LeadersIn(q, table, p, Picked(q, table)) == SupersededIn(q, table);
  }

  lemma {:induction false} ReadNotCounted(q: Query, table: seq<Version>)
    requires q.attribute.Some?
    ensures |Filter((v: Version) => Read(q, table, v) && !Counted(q, table, v), Picked(q, table))|
         == |ShadowedIn(q, table)|
  {
    var p := (v: Version) => Read(q, table, v) && !Counted(q, table, v);
    PickedSorted(q, table);
    LeadersCounted(q, table, p, Picked(q, table));
    forall i: nat ensures i in LeadersIn(q, table, p, Picked(q, table)) <==> i in ShadowedIn(q, table) {
      if i < |table| && Leads(q, table, i) {
        LeaderIsPicked(q, table, i);
        LeaderNumbered1(q, table, i);
        if First(q, table, i) {
          ShadowedIff(q, table, i);
        }
      }
    }
    assert LeadersIn(q, table, p, Picked(q, table)) == ShadowedIn(q, table);
  }

  lemma {:induction false} ShadowedIff(q: Query, table: seq<Version>, i: nat)
    requires i < |table| && First(q, table, i)
    ensures RemovedWindowed(q, table, table[i]) <==>
      exists j: nat :: j < |table| && table[j].removed && TiesWith(q, table[i], table[j])
  {
    if w :| w in table && RemovesSince(q, w, table[i]) {
      var j: nat :| j < |table| && table[j] == w;
      assert !NumberedBefore(q, table, j, i);
      assert TiesWith(q, table[i], table[j]);
    }
    if j: nat :| j < |table| && table[j].removed && TiesWith(q, table[i], table[j]) {
      assert table[j] in table && RemovesSince(q, table[j], table[i]);
    }
  }

  /** With an attribute, on a table of any content: what the count has too many are the superseded
      versions, what it has too few are the shadowed ones. */
  lemma {:induction false} CountWithAttributeIff(q: Query, table: seq<Version>)
    requires q.attribute.Some?
    ensures TotalCount(q, table) + |ShadowedIn(q, table)| == |Rows(q, table)| + |SupersededIn(q, table)|
    ensures TotalCount(q, table) == |Rows(q, table)| <==> |SupersededIn(q, table)| == |ShadowedIn(q, table)|
  {
    var p := (v: Version) => Read(q, table, v);
    var c := (v: Version) => Counted(q, table, v);
    FilterBalance(p, c, Picked(q, table));
    CountedNotRead(q, table);
    ReadNotCounted(q, table);
    FilterAgrees((v: Version) => c(v) && !p(v),
      (v: Version) => Counted(q, table, v) && !Read(q, table, v), Picked(q, table));
    FilterAgrees((v: Version) => p(v) && !c(v),
      (v: Version) => Read(q, table, v) && !Counted(q, table, v), Picked(q, table));
  }

  /** Of two events without a label only the first has the attribute: it is counted, not read. */
  lemma UnlabelledOvercount()
    ensures var a := Version(Key(1, "notes", None), Some("pinned"), false, "a", 10, "user", 10, 10, "user");
      var b := Version(Key(1, "notes", None), None, false, "b", 20, "user", 20, 20, "user");
      var q := Query(1, "notes", Some("pinned"), None, 100);
      TotalCount(q, [a, b]) > |Rows(q, [a, b])|
  {
    var a := Version(Key(1, "notes", None), Some("pinned"), false, "a", 10, "user", 10, 10, "user");
    var b := Version(Key(1, "notes", None), None, false, "b", 20, "user", 20, 20, "user");
    var q := Query(1, "notes", Some("pinned"), None, 100);
    var table := [a, b];
    assert Leads(q, table, 0) && NumberedBefore(q, table, 1, 0);
    assert !RemovedWindowed(q, table, a);
    assert 0 in SupersededIn(q, table);
    assert ShadowedIn(q, table) == {};
    CountWithAttributeIff(q, table);
  }

  // ---- Other sets --------------------------------------------------------------------------------------

  lemma {:induction false} ScopeOfOwn(q: Query, table: seq<Version>)
    ensures Scope(q, Filter((v: Version) => OfSet(v, q.room, q.eventSet), table)) == Scope(q, table)
  {
    var inScope := (v: Version) => InScope(q, v);
    FilterTwice(inScope, (v: Version) => OfSet(v, q.room, q.eventSet), inScope, table);
  }

  /** What is stored in other rooms and sets does not show, in the rows or in the count. */
  lemma {:induction false} OtherSetsUnseen(q: Query, table: seq<Version>)
    ensures var own := Filter((v: Version) => v.key.room == q.room && v.key.eventSet == q.eventSet, table);
      Rows(q, own) == Rows(q, table) && TotalCount(q, own) == TotalCount(q, table)
  {
    var own := Filter((v: Version) => OfSet(v, q.room, q.eventSet), table);
    FilterAgrees(
      (v: Version) => OfSet(v, q.room, q.eventSet),
      (v: Version) => v.key.room == q.room && v.key.eventSet == q.eventSet,
      table);
    ScopeOfOwn(q, table);
    FilterMembers((v: Version) => OfSet(v, q.room, q.eventSet), table);
    forall v ensures Numbered1(q, own, v) <==> Numbered1(q, table, v) {
      SameNewestOfOwn(q, table, own, v);
      var ties := (w: Version) => TiesWith(q, v, w);
      FilterTwice(ties, (w: Version) => OfSet(w, q.room, q.eventSet), ties, table);
    }
    forall v ensures RemovedWindowed(q, own, v) <==> RemovedWindowed(q, table, v) {
      if w :| w in table && RemovesSince(q, w, v) {
        assert w in own;
      }
    }
    FilterAgrees(
      (v: Version) => Read(q, own, v),
      (v: Version) => Read(q, table, v),
      Picked(q, table));
    FilterAgrees(
      (v: Version) => Counted(q, own, v),
      (v: Version) => Counted(q, table, v),
      Picked(q, table));
  }

  lemma {:induction false} SameNewestOfOwn(q: Query, table: seq<Version>, own: seq<Version>, v: Version)
    requires forall w :: w in own <==> w in table && OfSet(w, q.room, q.eventSet)
    ensures Newest(q, own, v) <==> Newest(q, table, v)
  {
  }
}
