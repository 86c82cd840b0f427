/** The endpoint that reads the state of a room, and reading it page by page. */
module StateEndpoint {
  import opened Options
  import opened Sorting
  import opened EventLog
  import opened SetState

  const MAX_SETS := 10
  const MAX_LIMIT_PER_SET := 100

  datatype Payload = Payload(
    sets: seq<string>,
    attribute: Option<string>,
    occurredAt: Option<int>,
    originalOccurredAt: Option<int>,
    limit: Option<int>)

  /** The length of the room in nanoseconds if it is closed; a stored time may be unusable. */
  datatype RoomEnd = Open | Closed(length: int) | BadTime

  datatype Value = HasNext(flag: bool) | Single(event: Version) | Collection(events: seq<Version>)

  datatype Response = State(state: map<string, Value>) | InvalidStateSets | InvalidRoomTime | DbQueryFailed

  const HAS_NEXT := "has_next"

  function LimitOf(payload: Payload): int {
    var limit := if payload.limit.Some? then payload.limit.value else MAX_LIMIT_PER_SET;
    if limit < MAX_LIMIT_PER_SET then limit else MAX_LIMIT_PER_SET
  }

  function CursorOf(payload: Payload, end: RoomEnd): int {
    if payload.originalOccurredAt.Some? then payload.originalOccurredAt.value
    else if end.Closed? then end.length + 1
    else MAX_INSTANT
  }

  predicate NoCursor(payload: Payload, end: RoomEnd) {
    payload.originalOccurredAt.None? && end.BadTime?
  }

  function QueryOf(payload: Payload, room: nat, end: RoomEnd, s: string): Query {
    Query(room, s, payload.attribute, payload.occurredAt, CursorOf(payload, end))
  }

  /** A set whose first event has no label is shown as that event alone. */
  function Shown(events: seq<Version>): Value {
    if events != [] && events[0].key.eventLabel.None? then Single(events[0]) else Collection(events)
  }

  function Page(payload: Payload, room: nat, end: RoomEnd, table: seq<Version>, s: string): seq<Version>
    requires LimitOf(payload) >= 0
  {
    Take(Rows(QueryOf(payload, room, end, s), table), LimitOf(payload))
  }

  function More(payload: Payload, room: nat, end: RoomEnd, table: seq<Version>, s: string): bool {
    TotalCount(QueryOf(payload, room, end, s), table) > LimitOf(payload)
  }

  /** What the response map holds after the sets in `done`: a page for each, and the flag if a
      single set was asked for (and is not itself called like the flag). */
  ghost predicate Holds(payload: Payload, room: nat, end: RoomEnd, table: seq<Version>, done: seq<string>,
                        state: map<string, Value>)
    requires LimitOf(payload) >= 0
  {
    && (forall k :: k in state <==> k in done || (k == HAS_NEXT && |payload.sets| == 1 && done != []))
    && (forall s :: s in done ==> s in state && state[s] == Shown(Page(payload, room, end, table, s)))
    && (|payload.sets| == 1 && done != [] && done[0] != HAS_NEXT ==>
          HAS_NEXT in state && state[HAS_NEXT] == HasNext(More(payload, room, end, table, done[0])))
  }

  lemma {:induction false} HoldsFirst(payload: Payload, room: nat, end: RoomEnd, table: seq<Version>, s: string)
    requires LimitOf(payload) >= 0 && payload.sets == [s]
    ensures Holds(payload, room, end, table, [s],
      map[HAS_NEXT := HasNext(More(payload, room, end, table, s))][s := Shown(Page(payload, room, end, table, s))])
  {
  }

  lemma {:induction false} HoldsStep(payload: Payload, room: nat, end: RoomEnd, table: seq<Version>,
                                     done: seq<string>, s: string, state: map<string, Value>)
    requires LimitOf(payload) >= 0 && |payload.sets| != 1
    requires Holds(payload, room, end, table, done, state)
    ensures Holds(payload, room, end, table, done + [s], state[s := Shown(Page(payload, room, end, table, s))])
  {
    var after := state[s := Shown(Page(payload, room, end, table, s))];
    forall x | x in done + [s] ensures x in after && after[x] == Shown(Page(payload, room, end, table, x)) {
      assert x == s || x in done;
    }
    forall k ensures k in after <==> k in done + [s] {
      assert k in after <==> k == s || k in state;
    }
  }

  /** The page of a set, by the fields of the request: at most a hundred rows from before the cursor,
      which is the one given or else the end of the room. */
  lemma {:induction false} PageByFields(payload: Payload, room: nat, end: RoomEnd, table: seq<Version>, s: string)
    requires LimitOf(payload) >= 0 && (payload.originalOccurredAt.Some? || !end.BadTime?)
    ensures
      var limit: nat := if payload.limit.Some? && payload.limit.value < 100 then payload.limit.value else 100;
      var cursor := if payload.originalOccurredAt.Some? then payload.originalOccurredAt.value
        else if end.Closed? then end.length + 1 else 9223372036854775807;
      var q := Query(room, s, payload.attribute, payload.occurredAt, cursor);
      && Page(payload, room, end, table, s)
         == (if limit < |Rows(q, table)| then Rows(q, table)[..limit] else Rows(q, table))
      && (More(payload, room, end, table, s) <==> TotalCount(q, table) > limit)
  {
  }

  /** What a response holds for a set: its page, or the first row alone if that has no label. */
  lemma {:induction false} ResponseByFields(payload: Payload, room: nat, end: RoomEnd, table: seq<Version>,
                                            state: map<string, Value>, s: string)
    requires LimitOf(payload) >= 0 && s in payload.sets && Holds(payload, room, end, table, payload.sets, state)
    ensures s in state
    ensures var page := Page(payload, room, end, table, s);
      state[s] == if page != [] && page[0].key.eventLabel.None? then Single(page[0]) else Collection(page)
    ensures payload.sets == [s] && s != HAS_NEXT ==>
      HAS_NEXT in state && state[HAS_NEXT] == HasNext(More(payload, room, end, table, s))
  {
    assert state[s] == Shown(Page(payload, room, end, table, s));
  }

  /** Ten sets at most; what the response holds is said by `ResponseByFields` and `PageByFields`. */
  method Handle(payload: Payload, room: nat, end: RoomEnd, table: seq<Version>) returns (response: Response)
    ensures response.InvalidStateSets? <==> |payload.sets| == 0 || |payload.sets| > 10
    ensures response.InvalidRoomTime? <==>
      0 < |payload.sets| <= 10 && payload.originalOccurredAt.None? && end.BadTime?
    ensures response.DbQueryFailed? <==>
      && 0 < |payload.sets| <= 10 && (payload.originalOccurredAt.Some? || !end.BadTime?)
      && payload.limit.Some? && payload.limit.value < 0
    ensures response.State? ==>
      LimitOf(payload) >= 0 && Holds(payload, room, end, table, payload.sets, response.state)
  {
    if |payload.sets| == 0 || |payload.sets| > MAX_SETS {
      return InvalidStateSets;
    }
    var limit := LimitOf(payload);
    if NoCursor(payload, end) {
      return InvalidRoomTime;
    }
    var state: map<string, Value> := map[];
    for i := 0 to |payload.sets|
      invariant i > 0 ==> limit >= 0
      invariant i == 0 ==> state == map[]
      invariant limit >= 0 ==> Holds(payload, room, end, table, payload.sets[..i], state)
    {
      var s := payload.sets[i];
      assert payload.sets[..i + 1] == payload.sets[..i] + [s];
      if |payload.sets| == 1 {
        state := state[HAS_NEXT := HasNext(More(payload, room, end, table, s))];
      }
      if limit < 0 {
        return DbQueryFailed;
      }
      if |payload.sets| == 1 {
        HoldsFirst(payload, room, end, table, s);
      } else {
        HoldsStep(payload, room, end, table, payload.sets[..i], s, state);
      }
      state := state[s := Shown(Page(payload, room, end, table, s))];
    }
    assert payload.sets[..|payload.sets|] == payload.sets;
    return State(state);
  }

  // ---- Paging -----------------------------------------------------------------------

  /** The state from a cursor on. */
  function RowsFrom(q: Query, table: seq<Version>, cursor: int): seq<Version> {
    Rows(q.(originalOccurredAt := cursor), table)
  }

  /** A client that reads one set page by page: it goes on while told that there is more, from
      the original time of the last event it got. */
  ghost function ReadAll(q: Query, table: seq<Version>, cursor: int, limit: nat): seq<Version>
    requires Fit(q, table) && limit >= 1
    decreases |RowsFrom(q, table, cursor)|
  {
    var page := Take(RowsFrom(q, table, cursor), limit);
    if TotalCount(q.(originalOccurredAt := cursor), table) > limit then
      PageAdvances(q, table, cursor, limit);
      page + ReadAll(q, table, page[limit - 1].originalOccurredAt, limit)
    else page
  }

  /** This is reading by responses: the events of a response, and if it says that there is more, what
      the same request with the original time of the last of them as its cursor gives. */
  lemma {:induction false} NextPage(payload: Payload, room: nat, end: RoomEnd, table: seq<Version>, s: string,
                                    state: map<string, Value>)
    requires payload.sets == [s] && s != HAS_NEXT && LimitOf(payload) >= 1
    requires Fit(QueryOf(payload, room, end, s), table)
    requires Holds(payload, room, end, table, payload.sets, state) && state[s].Collection?
    ensures var q, limit, events := QueryOf(payload, room, end, s), LimitOf(payload), state[s].events;
      if state[HAS_NEXT] == HasNext(true) then
        && |events| == limit
        && var next := payload.(originalOccurredAt := Some(events[limit - 1].originalOccurredAt));
        && QueryOf(next, room, end, s) == q.(originalOccurredAt := next.originalOccurredAt.value)
        && ReadAll(q, table, q.originalOccurredAt, limit)
           == events + ReadAll(q, table, next.originalOccurredAt.value, limit)
      else
        state[HAS_NEXT] == HasNext(false) && ReadAll(q, table, q.originalOccurredAt, limit) == events
  {
    var q, limit := QueryOf(payload, room, end, s), LimitOf(payload);
    assert q.(originalOccurredAt := q.originalOccurredAt) == q;
    assert state[s] == Shown(Page(payload, room, end, table, s));
    if TotalCount(q, table) > limit {
      PageAdvances(q, table, q.originalOccurredAt, limit);
    }
  }

  function Below(rows: seq<Version>, cursor: int): seq<Version> {
    Filter((v: Version) => v.originalOccurredAt < cursor, rows)
  }

  lemma {:induction false} NewestBelow(q: Query, table: seq<Version>, cursor: int, v: Version)
    requires OneOriginal(table, q.room, q.eventSet) && cursor <= q.originalOccurredAt
    requires v in table && InScope(q.(originalOccurredAt := cursor), v)
    ensures IsLatest(q.(originalOccurredAt := cursor), table, v) <==> IsLatest(q, table, v)
  {
    var q' := q.(originalOccurredAt := cursor);
    forall w | w in table && w.key.eventLabel == v.key.eventLabel ensures InScope(q, w) <==> InScope(q', w) {
      assert InScope(q, w) || InScope(q', w) ==> w.key == v.key;
    }
  }

  lemma {:induction false} ShownBelow(q: Query, table: seq<Version>, cursor: int, v: Version)
    requires Fit(q, table) && cursor <= q.originalOccurredAt
    ensures v in RowsFrom(q, table, cursor) <==> v in Rows(q, table) && v.originalOccurredAt < cursor
  {
    var q' := q.(originalOccurredAt := cursor);
    ReadRefinesReplay(q, table);
    ReadRefinesReplay(q', table);
    ReplayIsLatest(q, table, v);
    ReplayIsLatest(q', table, v);
    if v in table && InScope(q', v) {
      NewestBelow(q, table, cursor, v);
    }
  }

  /** Moving the cursor down leaves exactly the labels whose original time is below it, in the
      same state. */
  lemma {:induction false} CursorRestricts(q: Query, table: seq<Version>, cursor: int)
    requires Fit(q, table) && cursor <= q.originalOccurredAt
    ensures RowsFrom(q, table, cursor) == Below(Rows(q, table), cursor)
  {
    var q' := q.(originalOccurredAt := cursor);
    var below := (v: Version) => v.originalOccurredAt < cursor;
    ReadRefinesReplay(q, table);
    ReadRefinesReplay(q', table);
    FilterSorted(below, Rows(q, table));
    FilterMembers(below, Rows(q, table));
    forall v ensures v in Rows(q', table) <==> v in Below(Rows(q, table), cursor) {
      ShownBelow(q, table, cursor, v);
    }
    SortedByMembers(Rows(q', table), Below(Rows(q, table), cursor));
  }

  lemma {:induction false} BelowShrinks(rows: seq<Version>, k: nat)
    requires k < |rows|
    ensures |Below(rows, rows[k].originalOccurredAt)| < |rows|
  {
    if k == 0 {
      BelowAtMost(rows[1..], rows[0].originalOccurredAt);
    } else {
      BelowShrinks(rows[1..], k - 1);
    }
  }

  lemma {:induction false} BelowAtMost(rows: seq<Version>, cursor: int)
    ensures |Below(rows, cursor)| <= |rows|
  {
    if rows != [] {
      BelowAtMost(rows[1..], cursor);
    }
  }

  lemma {:induction false} PageEnd(q: Query, table: seq<Version>, limit: nat)
    requires Fit(q, table) && limit >= 1 && TotalCount(q, table) > limit
    ensures |Rows(q, table)| > limit && Rows(q, table)[limit - 1].originalOccurredAt < q.originalOccurredAt
  {
    CountIsSize(q, table);
    ReadRefinesReplay(q, table);
    var v := Rows(q, table)[limit - 1];
    assert v in Rows(q, table);
    ReplayIsLatest(q, table, v);
  }

  /** Every further page starts from fewer rows, so reading comes to an end. */
  lemma {:induction false} PageAdvances(q: Query, table: seq<Version>, cursor: int, limit: nat)
    requires Fit(q, table) && limit >= 1
    requires TotalCount(q.(originalOccurredAt := cursor), table) > limit
    ensures var rows := RowsFrom(q, table, cursor);
      && |rows| > limit
      && var next := rows[limit - 1].originalOccurredAt;
      && next < cursor
      && RowsFrom(q, table, next) == Below(rows, next) && |Below(rows, next)| < |rows|
  {
    var q', rows := q.(originalOccurredAt := cursor), RowsFrom(q, table, cursor);
    PageEnd(q', table, limit);
    CursorRestricts(q', table, rows[limit - 1].originalOccurredAt);
    BelowShrinks(rows, limit - 1);
  }

  /** The same pages taken from a fixed list. */
  ghost function Pages(rows: seq<Version>, limit: nat): seq<Version>
    requires limit >= 1
    decreases |rows|
  {
    if |rows| <= limit then rows
    else
      BelowShrinks(rows, limit - 1);
      rows[..limit] + Pages(Below(rows, rows[limit - 1].originalOccurredAt), limit)
  }

  lemma {:induction false} ReadAllIsPages(q: Query, table: seq<Version>, cursor: int, limit: nat)
    requires Fit(q, table) && limit >= 1
    ensures ReadAll(q, table, cursor, limit) == Pages(RowsFrom(q, table, cursor), limit)
    decreases |RowsFrom(q, table, cursor)|
  {
    CountIsSize(q.(originalOccurredAt := cursor), table);
    if TotalCount(q.(originalOccurredAt := cursor), table) > limit {
      PageAdvances(q, table, cursor, limit);
      ReadAllIsPages(q, table, RowsFrom(q, table, cursor)[limit - 1].originalOccurredAt, limit);
    }
  }

  /** No page ends between two labels with the same original time. */
  ghost predicate NoSplitTie(rows: seq<Version>, limit: nat)
    requires limit >= 1
    decreases |rows|
  {
    |rows| <= limit ||
    (rows[limit - 1].originalOccurredAt != rows[limit].originalOccurredAt && NoSplitTie(rows[limit..], limit))
  }

  lemma {:induction false} BelowOfSorted(rows: seq<Version>, k: nat)
    requires StrictlySorted(rows) && k < |rows|
    ensures forall i :: 0 <= i <= k ==> rows[i].originalOccurredAt >= rows[k].originalOccurredAt
    ensures forall i :: k <= i < |rows| ==> rows[i].originalOccurredAt <= rows[k].originalOccurredAt
    ensures StrictlySorted(rows[k..])
  {
    if k == 0 {
      assert rows[0..] == rows;
      assert forall i :: 0 < i < |rows| ==> rows[i] in rows[1..];
    } else {
      BelowOfSorted(rows[1..], k - 1);
      assert rows[1..][k - 1..] == rows[k..];
      assert rows[k] in rows[1..];
    }
  }

  lemma {:induction false} BelowDropsPrefix(rows: seq<Version>, k: nat, cursor: int)
    requires k <= |rows| && forall i :: 0 <= i < k ==> rows[i].originalOccurredAt >= cursor
    ensures Below(rows, cursor) == Below(rows[k..], cursor)
  {
    if k > 0 {
      BelowDropsPrefix(rows[1..], k - 1, cursor);
      assert rows[1..][k - 1..] == rows[k..];
    } else {
      assert rows[0..] == rows;
    }
  }

  lemma {:induction false} BelowKeepsAll(rows: seq<Version>, cursor: int)
    requires forall i :: 0 <= i < |rows| ==> rows[i].originalOccurredAt < cursor
    ensures Below(rows, cursor) == rows
  {
    if rows != [] {
      BelowKeepsAll(rows[1..], cursor);
    }
  }

  lemma {:induction false} PagesAtMost(rows: seq<Version>, limit: nat)
    requires limit >= 1 && StrictlySorted(rows)
    ensures |Pages(rows, limit)| <= |rows|
    decreases |rows|
  {
    if |rows| > limit {
      var next := rows[limit - 1].originalOccurredAt;
      BelowShrinks(rows, limit - 1);
      FilterSorted((v: Version) => v.originalOccurredAt < next, rows);
      PagesAtMost(Below(rows, next), limit);
      BelowOfSorted(rows, limit - 1);
      BelowDropsPrefix(rows, limit, next);
      BelowAtMost(rows[limit..], next);
    }
  }

  lemma {:induction false} PagesComplete(rows: seq<Version>, limit: nat)
    requires limit >= 1 && StrictlySorted(rows)
    ensures Pages(rows, limit) == rows <==> NoSplitTie(rows, limit)
    decreases |rows|
  {
    if |rows| > limit {
      var next := rows[limit - 1].originalOccurredAt;
      var rest := rows[limit..];
      BelowOfSorted(rows, limit - 1);
      BelowOfSorted(rows, limit);
      BelowDropsPrefix(rows, limit, next);
      assert rows == rows[..limit] + rest;
      if rows[limit].originalOccurredAt < next {
        BelowKeepsAll(rest, next);
        PagesComplete(rest, limit);
        assert rows[..limit] + Pages(rest, limit) == rows <==> Pages(rest, limit) == rest by {
          assert (rows[..limit] + Pages(rest, limit))[limit..] == Pages(rest, limit);
        }
      } else {
        BelowShrinks(rest, 0);
        FilterSorted((v: Version) => v.originalOccurredAt < next, rest);
        PagesAtMost(Below(rest, next), limit);
      }
    }
  }

  /** Reading page by page gives the whole state, every label once and in order, exactly when
      no page ends between two labels with the same original time. */
  lemma {:induction false} PagingComplete(q: Query, table: seq<Version>, limit: nat)
    requires Fit(q, table) && limit >= 1
    ensures ReadAll(q, table, q.originalOccurredAt, limit) == Rows(q, table) <==> NoSplitTie(Rows(q, table), limit)
  {
    assert q.(originalOccurredAt := q.originalOccurredAt) == q;
    ReadRefinesReplay(q, table);
    ReadAllIsPages(q, table, q.originalOccurredAt, limit);
    PagesComplete(Rows(q, table), limit);
  }

  /** In particular it does when the labels have distinct original times. */
  lemma {:induction false} DistinctOriginalsPageCompletely(q: Query, table: seq<Version>, limit: nat)
    requires Fit(q, table) && limit >= 1
    requires forall v, w | v in table && w in table && OfSet(v, q.room, q.eventSet) && OfSet(w, q.room, q.eventSet) ::
      v.originalOccurredAt == w.originalOccurredAt ==> v.key == w.key
    ensures ReadAll(q, table, q.originalOccurredAt, limit) == Rows(q, table)
  {
    ReadRefinesReplay(q, table);
    forall v | v in Rows(q, table) ensures v in table && InScope(q, v) {
      ReplayIsLatest(q, table, v);
    }
    NoTies(Rows(q, table), limit);
    PagingComplete(q, table, limit);
  }

  lemma {:induction false} NeighboursApart(rows: seq<Version>, k: nat)
    requires StrictlySorted(rows) && 0 < k < |rows|
    ensures GroupBefore(rows[k - 1], rows[k]) && StrictlySorted(rows[k..])
  {
    if k == 1 {
      assert rows[1] in rows[1..];
    } else {
      NeighboursApart(rows[1..], k - 1);
      assert rows[1..][k - 1..] == rows[k..];
    }
  }

  lemma {:induction false} NoTies(rows: seq<Version>, limit: nat)
    requires limit >= 1 && StrictlySorted(rows)
    requires forall v, w :: v in rows && w in rows && v.originalOccurredAt == w.originalOccurredAt ==> SameGroup(v, w)
    ensures NoSplitTie(rows, limit)
    decreases |rows|
  {
    if |rows| > limit {
      NeighboursApart(rows, limit);
      assert rows[limit] in rows && rows[limit - 1] in rows;
      NoTies(rows[limit..], limit);
    }
  }

  lemma {:induction false} ReadIfLatest(q: Query, table: seq<Version>, v: Version)
    requires Fit(q, table) && IsLatest(q, table, v) && !v.removed && q.attribute.None?
    ensures v in Rows(q, table)
  {
    ReadRefinesReplay(q, table);
    ReplayIsLatest(q, table, v);
  }

  lemma {:induction false} AllAtOnce(q: Query, table: seq<Version>, at: int)
    requires Fit(q, table) && forall v :: v in table ==> v.originalOccurredAt == at
    ensures forall i :: 0 <= i < |Rows(q, table)| ==> Rows(q, table)[i].originalOccurredAt == at
  {
    ReadRefinesReplay(q, table);
    forall i | 0 <= i < |Rows(q, table)| ensures Rows(q, table)[i].originalOccurredAt == at {
      assert Rows(q, table)[i] in Rows(q, table);
      ReplayIsLatest(q, table, Rows(q, table)[i]);
    }
  }

  /** Two labels that appeared at the same instant, read one at a time: one is never seen. */
  lemma PagingMayLose()
    ensures var a := Version(Key(1, "notes", Some(1)), None, false, "a", 10, "user", 10, 10, "user");
      var b := Version(Key(1, "notes", Some(2)), None, false, "b", 10, "user", 10, 10, "user");
      var q := Query(1, "notes", None, None, 100);
      Fit(q, [a, b]) && ReadAll(q, [a, b], 100, 1) != Rows(q, [a, b])
  {
    var a := Version(Key(1, "notes", Some(1)), None, false, "a", 10, "user", 10, 10, "user");
    var b := Version(Key(1, "notes", Some(2)), None, false, "b", 10, "user", 10, 10, "user");
    var q := Query(1, "notes", None, None, 100);
    assert a in [a, b] && b in [a, b];
    ReadIfLatest(q, [a, b], a);
    ReadIfLatest(q, [a, b], b);
    AllAtOnce(q, [a, b], 10);
    assert |Rows(q, [a, b])| > 1;
    PagingComplete(q, [a, b], 1);
  }
}
