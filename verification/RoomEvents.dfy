/** The events of a room as the timeline operations see them. */
module RoomEvents {
  import opened Options
  import opened Sorting

  /** `data["cut"]`: the two commands the program knows, or anything else. */
  datatype Command = Start | Stop | Unknown

  /** Every column but the two times; `data` is split into its cut command
      and the rest, and `binary` is the compact form of a drawing. */
  datatype Body = Body(
    kind: string,
    eventSet: string,
    eventLabel: Option<string>,
    cut: Command,
    payload: string,
    binary: Option<string>,
    attribute: Option<string>,
    removed: bool,
    createdBy: string)

  datatype Event = Event(body: Body, occurredAt: int, createdAt: int)

  const STREAM := "stream"

  predicate IsStream(e: Event) { e.body.kind == STREAM }

  /** ORDER BY occurred_at ASC, created_at ASC. */
  predicate ListedBefore(e: Event, f: Event) {
    e.occurredAt < f.occurredAt || (e.occurredAt == f.occurredAt && e.createdAt <= f.createdAt)
  }

  const InListOrder: (Event, Event) -> bool := (e, f) => ListedBefore(e, f)

  const Streams: Event -> bool := e => IsStream(e)

  /** The list query for the cut events of a room. */
  function ListCuts(room: seq<Event>): seq<Event> {
    Sort(InListOrder, Filter(Streams, room))
  }

  /** The events of a room once its cut events are deleted. */
  function WithoutStreams(room: seq<Event>): seq<Event> {
    Filter((e: Event) => !IsStream(e), room)
  }

  /** Cut events come back in order of time, and they are the stream events of the room. */
  lemma {:induction false} ListCutsInOrder(room: seq<Event>)
    ensures SortedBy(InListOrder, ListCuts(room))
    ensures forall e :: e in ListCuts(room) <==> e in room && IsStream(e)
    ensures multiset(ListCuts(room)) == multiset(Filter(Streams, room))
  {
    SortSorts(InListOrder, Filter(Streams, room));
    SortKeeps(InListOrder, Filter(Streams, room));
    FilterMembers(Streams, room);
  }

  /** The deletion leaves the events that are no cut events, all of them and in order. */
  lemma {:induction false} WithoutStreamsKeepsOthers(room: seq<Event>) returns (at: seq<nat>)
    ensures Increasing(at) && |at| == |WithoutStreams(room)|
    ensures forall k :: 0 <= k < |at| ==> at[k] < |room| && WithoutStreams(room)[k] == room[at[k]]
    ensures forall i: nat :: i < |room| ==> (i in at <==> room[i].body.kind != "stream")
  {
    at := FilterPlaces((e: Event) => !IsStream(e), room);
  }

  // ---- Rows of the table ------------------------------------------------------

  /** A cut event and the place of its row in the table. */
  datatype CutRow = CutRow(position: nat, event: Event)

  function CutRowsUpTo(room: seq<Event>, n: nat): (r: seq<CutRow>)
    requires n <= |room|
    ensures forall i :: 0 <= i < |r| ==>
      r[i].position < n && room[r[i].position] == r[i].event && IsStream(r[i].event)
  {
    if n == 0 then []
    else CutRowsUpTo(room, n - 1) + (if IsStream(room[n - 1]) then [CutRow(n - 1, room[n - 1])] else [])
  }

  function CutRows(room: seq<Event>): seq<CutRow> {
    CutRowsUpTo(room, |room|)
  }

  const InRowOrder: (CutRow, CutRow) -> bool := (a: CutRow, b: CutRow) => ListedBefore(a.event, b.event)

  const EventOf: CutRow -> Event := (r: CutRow) => r.event

  const PositionOf: CutRow -> nat := (r: CutRow) => r.position

  /** The list query by rows: rows with both times equal keep table order. */
  function ListedRows(room: seq<Event>): seq<CutRow> {
    Sort(InRowOrder, CutRows(room))
  }

  ghost predicate Rising(rows: seq<CutRow>) {
    forall i, j :: 0 <= i < j < |rows| ==> rows[i].position < rows[j].position
  }

  lemma {:induction false} CutRowsRise(room: seq<Event>, n: nat)
    requires n <= |room|
    ensures Rising(CutRowsUpTo(room, n))
  {
    if n > 0 {
      CutRowsRise(room, n - 1);
    }
  }

  lemma {:induction false} RowOfRoom(room: seq<Event>, r: CutRow)
    requires r in CutRows(room)
    ensures r.position < |room| && room[r.position] == r.event && r.event in room && IsStream(r.event)
  {
  }

  lemma {:induction false} CutRowsComplete(room: seq<Event>, n: nat, i: nat)
    requires i < n <= |room| && IsStream(room[i])
    ensures CutRow(i, room[i]) in CutRowsUpTo(room, n)
  {
    if i < n - 1 {
      CutRowsComplete(room, n - 1, i);
    }
  }

  lemma {:induction false} EventsOfRows(room: seq<Event>, n: nat)
    requires n <= |room|
    ensures Map(EventOf, CutRowsUpTo(room, n)) == Filter(Streams, room[..n])
  {
    if n > 0 {
      var e, before := room[n - 1], CutRowsUpTo(room, n - 1);
      EventsOfRows(room, n - 1);
      FilterSnoc(Streams, room[..n - 1], e);
      assert room[..n] == room[..n - 1] + [e];
      if IsStream(e) {
        var row := CutRow(n - 1, e);
        assert CutRowsUpTo(room, n) == before + [row];
        MapConcat(EventOf, before, [row]);
        MapOne(EventOf, row);
      } else {
        assert CutRowsUpTo(room, n) == before;
      }
    }
  }

  /** Listing rows is listing events. */
  lemma {:induction false} ListCutsByRows(room: seq<Event>)
    ensures ListCuts(room) == Map(EventOf, ListedRows(room))
  {
    EventsOfRows(room, |room|);
    assert room[..|room|] == room;
    SortCommutes(InRowOrder, InListOrder, EventOf, CutRows(room));
  }
}
