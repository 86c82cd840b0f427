/** The opening time of a room and how it may be moved while the clock runs. */
module RoomTime {
  import opened Options

  datatype Bound = Included(at: int) | Excluded(at: int) | Unbounded

  datatype End = Until(at: int) | Forever

  datatype RoomTime = RoomTime(start: int, end: End)

  function New(start: Bound, end: Bound): Option<RoomTime> {
    match (start, end)
    case (Included(s), Excluded(e)) => if s < e then Some(RoomTime(s, Until(e))) else None
    case (Included(s), Unbounded) => Some(RoomTime(s, Forever))
    case _ => None
  }

  function Update(room: RoomTime, start: Bound, end: Bound, now: int): Option<RoomTime> {
    match New(start, end)
    case None => None
    case Some(wanted) =>
      if room.start > now then Some(wanted)
      else if room.end.Until? && room.end.at < now then None
      else match wanted.end
        case Until(e) => Some(RoomTime(room.start, Until(if e > now then e else now)))
        case Forever => Some(RoomTime(room.start, Forever))
  }

  predicate IsOpenAt(room: RoomTime, x: int) {
    room.start <= x && (room.end.Until? ==> x < room.end.at)
  }

  predicate Sound(room: RoomTime) {
    room.end.Until? ==> room.start <= room.end.at
  }

  // ---- Whole runs ------------------------------------------------------------------------

  datatype Request = Request(start: Bound, end: Bound, now: int)

  /** A refused update leaves the room as it is. */
  function After(room: RoomTime, r: Request): RoomTime {
    match Update(room, r.start, r.end, r.now) case Some(new') => new' case None => room
  }

  function Run(room: RoomTime, requests: seq<Request>): RoomTime
    decreases requests
  {
    if requests == [] then room else Run(After(room, requests[0]), requests[1..])
  }

  /** The clock never runs backwards, from `now` on. */
  predicate Clocked(requests: seq<Request>, now: int) {
    requests == [] || (now <= requests[0].now && Clocked(requests[1..], requests[0].now))
  }

  lemma {:induction false} UpdateStarted(room: RoomTime, r: Request)
    requires Sound(room) && room.start <= r.now
    ensures Sound(After(room, r)) && After(room, r).start == room.start
    ensures forall x :: x < r.now ==> (IsOpenAt(After(room, r), x) <==> IsOpenAt(room, x))
  {
  }

  /** When an update is accepted, and what it does to the future: from now on the room is open exactly
      as requested, and if it has not started, so it is at any time. */
  lemma {:induction false} AcceptedAsRequested(room: RoomTime, r: Request, x: int)
    ensures Update(room, r.start, r.end, r.now).Some? <==>
      && r.start.Included? && (r.end.Unbounded? || (r.end.Excluded? && r.start.at < r.end.at))
      && (room.start > r.now || room.end.Forever? || r.now <= room.end.at)
    ensures Update(room, r.start, r.end, r.now).Some? && (room.start > r.now || x >= r.now) ==>
      (IsOpenAt(After(room, r), x) <==>
         (if room.start > r.now then r.start.at <= x else room.start <= x) && (r.end.Excluded? ==> x < r.end.at))
  {
  }

  /** The request at `i` was accepted and no later one was. */
  ghost predicate LastAccepted(room: RoomTime, requests: seq<Request>, i: nat)
    requires i < |requests|
  {
    && Update(Run(room, requests[..i]), requests[i].start, requests[i].end, requests[i].now).Some?
    && forall j :: i < j < |requests| ==>
         Update(Run(room, requests[..j]), requests[j].start, requests[j].end, requests[j].now).None?
  }

  lemma {:induction false} RunSnoc(room: RoomTime, requests: seq<Request>, r: Request)
    ensures Run(room, requests + [r]) == After(Run(room, requests), r)
    decreases requests
  {
    if requests == [] {
      assert [r][1..] == [];
    } else {
      RunSnoc(After(room, requests[0]), requests[1..], r);
      assert (requests + [r])[1..] == requests[1..] + [r];
    }
  }

  lemma {:induction false} RefusedFrom(room: RoomTime, requests: seq<Request>, i: nat, n: nat)
    requires i < n <= |requests| && LastAccepted(room, requests, i)
    ensures Run(room, requests[..n]) == After(Run(room, requests[..i]), requests[i])
    decreases n
  {
    RunSnoc(room, requests[..n - 1], requests[n - 1]);
    assert requests[..n] == requests[..n - 1] + [requests[n - 1]];
    if i < n - 1 {
      RefusedFrom(room, requests, i, n - 1);
    }
  }

  /** After any run the last accepted request decides: from its instant on a room that has started by
      then is open until the end that was requested, and any other from the requested start as well. */
  lemma {:induction false} LastAcceptedDecides(room: RoomTime, requests: seq<Request>, i: nat, x: int)
    requires i < |requests| && LastAccepted(room, requests, i)
    ensures var r, before := requests[i], Run(room, requests[..i]);
      before.start > r.now || x >= r.now ==>
        (IsOpenAt(Run(room, requests), x) <==>
           (if before.start > r.now then r.start.at else before.start) <= x && (r.end.Excluded? ==> x < r.end.at))
  {
    RefusedFrom(room, requests, i, |requests|);
    assert requests[..|requests|] == requests;
    AcceptedAsRequested(Run(room, requests[..i]), requests[i], x);
  }

  /** Once a room has started, no run of updates moves its start or rewrites what was: an instant
      before `now` is in the room afterwards iff it was before. */
  lemma {:induction false} PastIsFixed(room: RoomTime, requests: seq<Request>, now: int)
    requires Sound(room) && room.start <= now && Clocked(requests, now)
    ensures Sound(Run(room, requests)) && Run(room, requests).start == room.start
    ensures forall x :: x < now ==> (IsOpenAt(Run(room, requests), x) <==> IsOpenAt(room, x))
    decreases requests
  {
    if requests != [] {
      UpdateStarted(room, requests[0]);
      PastIsFixed(After(room, requests[0]), requests[1..], requests[0].now);
    }
  }

  /** A room whose end has passed refuses every update, forever. */
  lemma {:induction false} ClosedForever(room: RoomTime, requests: seq<Request>, now: int)
    requires Sound(room) && room.end.Until? && room.end.at < now && Clocked(requests, now)
    ensures Run(room, requests) == room
    ensures forall i :: 0 <= i < |requests| ==>
      Update(room, requests[i].start, requests[i].end, requests[i].now) == None
  {
    if requests != [] {
      ClosedForever(room, requests[1..], requests[0].now);
    }
  }

  /** Rooms stay sound whatever happens, the start included. */
  lemma {:induction false} AlwaysSound(room: RoomTime, requests: seq<Request>)
    requires Sound(room)
    ensures Sound(Run(room, requests))
    decreases requests
  {
    if requests != [] {
      AlwaysSound(After(room, requests[0]), requests[1..]);
    }
  }

  predicate Empty(room: RoomTime) {
    room.end.Until? && room.end.at <= room.start
  }

  /** A well-formed request at the very instant of the start; it is accepted. */
  predicate AtStart(room: RoomTime, r: Request) {
    r.now == room.start && New(r.start, r.end).Some?
  }

  predicate Closes(room: RoomTime, r: Request) {
    r.end.Excluded? && r.end.at <= room.start
  }

  ghost predicate NoneAtStart(room: RoomTime, requests: seq<Request>) {
    forall i :: 0 <= i < |requests| ==> !AtStart(room, requests[i])
  }

  /** The request at `i` closes the room at its start and is the last one at that instant. */
  ghost predicate ClosesLast(room: RoomTime, requests: seq<Request>, i: nat) {
    i < |requests| && AtStart(room, requests[i]) && Closes(room, requests[i]) && NoneAtStart(room, requests[i + 1..])
  }

  /** The last of these requests closes the room, or there is none and the room is empty. */
  ghost predicate EndsEmpty(room: RoomTime, requests: seq<Request>) {
    (Empty(room) && NoneAtStart(room, requests)) || exists i: nat :: ClosesLast(room, requests, i)
  }

  lemma {:induction false} OneMore(room: RoomTime, r: Request)
    requires Sound(room) && room.start <= r.now
    ensures var after := After(room, r);
      && Sound(after) && after.start == room.start
      && (Empty(after) <==> if AtStart(room, r) then Closes(room, r) else Empty(room))
  {
  }

  lemma {:induction false} NoneAtStartCons(room: RoomTime, r: Request, rest: seq<Request>)
    ensures NoneAtStart(room, [r] + rest) <==> !AtStart(room, r) && NoneAtStart(room, rest)
  {
    var all := [r] + rest;
    assert all[0] == r;
    if NoneAtStart(room, all) {
      forall i | 0 <= i < |rest| ensures !AtStart(room, rest[i]) {
        assert all[i + 1] == rest[i];
      }
    }
  }

  lemma {:induction false} ClosesLastCons(room: RoomTime, r: Request, rest: seq<Request>, i: nat)
    ensures ClosesLast(room, [r] + rest, i) <==>
      if i == 0 then AtStart(room, r) && Closes(room, r) && NoneAtStart(room, rest) else ClosesLast(room, rest, i - 1)
  {
    var all := [r] + rest;
    if i == 0 {
      assert all[1..] == rest;
    } else if i < |all| {
      assert all[i] == rest[i - 1] && all[i + 1..] == rest[i..];
    }
  }

  lemma {:induction false} SameStart(room: RoomTime, after: RoomTime, requests: seq<Request>)
    requires after.start == room.start
    ensures NoneAtStart(after, requests) <==> NoneAtStart(room, requests)
    ensures forall i: nat :: ClosesLast(after, requests, i) <==> ClosesLast(room, requests, i)
  {
    forall r: seq<Request> ensures NoneAtStart(after, r) <==> NoneAtStart(room, r) {
      assert forall i :: 0 <= i < |r| ==> (AtStart(after, r[i]) <==> AtStart(room, r[i]));
    }
  }

  lemma {:induction false} EndsEmptyStep(room: RoomTime, r: Request, rest: seq<Request>)
    requires Sound(room) && room.start <= r.now
    ensures EndsEmpty(room, [r] + rest) <==> EndsEmpty(After(room, r), rest)
  {
    OneMore(room, r);
    SameStart(room, After(room, r), rest);
    NoneAtStartCons(room, r, rest);
    ClosesLastCons(room, r, rest, 0);
    if i: nat :| ClosesLast(room, [r] + rest, i) {
      ClosesLastCons(room, r, rest, i);
      assert i > 0 ==> ClosesLast(After(room, r), rest, i - 1);
    }
    if i: nat :| ClosesLast(After(room, r), rest, i) {
      ClosesLastCons(room, r, rest, i + 1);
      assert ClosesLast(room, [r] + rest, i + 1);
    }
  }

  /** Over any run after the start, a room is left with no length exactly when the last well-formed
      request at the instant of its start closes it then and there; later requests change nothing
      about it. */
  lemma {:induction false} EmptyIff(room: RoomTime, requests: seq<Request>, now: int)
    requires Sound(room) && room.start <= now && Clocked(requests, now)
    ensures Empty(Run(room, requests)) <==> EndsEmpty(room, requests)
    decreases requests
  {
    if requests != [] {
      var r, rest := requests[0], requests[1..];
      OneMore(room, r);
      EmptyIff(After(room, r), rest, r.now);
      assert [r] + rest == requests;
      EndsEmptyStep(room, r, rest);
    }
  }

  /** A room that has not started may be moved anywhere, and then the past may change: exactly
      when the start it is given is in the past. */
  lemma {:induction false} UnstartedMayRewritePast(room: RoomTime, r: Request)
    requires room.start > r.now && Update(room, r.start, r.end, r.now).Some?
    ensures (exists x :: x < r.now && IsOpenAt(After(room, r), x) != IsOpenAt(room, x)) <==> r.start.at < r.now
  {
    if r.start.at < r.now {
      assert IsOpenAt(After(room, r), r.start.at) && !IsOpenAt(room, r.start.at);
    }
  }

  /** A room announced for 20 is moved at 10 to have started at 0: it has suddenly been open. */
  lemma PastMayChange()
    ensures var room, r := RoomTime(20, Forever), Request(Included(0), Unbounded, 10);
      !IsOpenAt(room, 5) && IsOpenAt(After(room, r), 5)
  {
  }
}
