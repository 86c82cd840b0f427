/** The consumer of messages from the broker: at least one delivery of every message, at most
    one stored event. */
module NatsConsumer {
  import opened Options

  // ---- Messages and their surroundings ---------------------------------------------------

  datatype Message = Message(
    subjectOk: bool,
    payloadOk: bool,
    headersOk: bool,
    entityType: string,
    eventId: int,
    eventLabel: string,
    createdAt: int)

  /** A room found for the message, and where it starts if its time is usable. */
  datatype Room = Room(id: nat, start: Option<int>)

  /** `LostReply`: the row is in, but the consumer hears of an error. */
  datatype InsertReply = Healthy | Rejected | LostReply

  /** What the surroundings do during one delivery. */
  datatype Env = Env(
    firstConnection: bool,
    room: Option<Room>,
    secondConnection: bool,
    dataOk: bool,
    insert: InsertReply,
    ack: bool)

  /** `Crash` kills the process after the message was handled, before it is acknowledged. */
  datatype Input = Deliver(message: Message, env: Env) | Crash(message: Message, env: Env) | StreamError

  datatype Stored = Stored(entityType: string, eventId: int, room: nat, eventLabel: string, occurredAt: int)

  datatype HandleResult = Handled | DbConnAcquisitionFailed | Other

  datatype Config = Config(suspendSeconds: nat, maxSuspendSeconds: nat)

  predicate Has(store: seq<Stored>, entityType: string, eventId: int) {
    exists i :: 0 <= i < |store| && store[i].entityType == entityType && store[i].eventId == eventId
  }

  /** The unique constraint on (entity_type, entity_event_id). */
  predicate Unique(store: seq<Stored>) {
    forall i, j :: 0 <= i < j < |store| ==>
      store[i].entityType != store[j].entityType || store[i].eventId != store[j].eventId
  }

  // ---- Handling one message ------------------------------------------------------------------

  predicate ReachesInsert(m: Message, e: Env) {
    && m.subjectOk && m.payloadOk && e.firstConnection
    && e.room.Some? && m.headersOk && e.room.value.start.Some?
    && e.secondConnection && e.dataOk
  }

  predicate LacksConnection(m: Message, e: Env) {
    && m.subjectOk && m.payloadOk
    && (!e.firstConnection
        || (e.room.Some? && m.headersOk && e.room.value.start.Some? && !e.secondConnection))
  }

  function RowOf(m: Message, e: Env): Stored
    requires e.room.Some? && e.room.value.start.Some?
  {
    Stored(m.entityType, m.eventId, e.room.value.id, m.eventLabel, m.createdAt - e.room.value.start.value)
  }

  /** The store after a message: a row more, if it gets that far and the row is new. */
  function StoreAfter(store: seq<Stored>, m: Message, e: Env): seq<Stored> {
    if ReachesInsert(m, e) && !Has(store, m.entityType, m.eventId) && !e.insert.Rejected? then store + [RowOf(m, e)]
    else store
  }

  /** By fields: a row of the room that was found, at the time since it started, if everything worked and
      no row of the entity event is there. */
  lemma {:induction false} StoreAfterByFields(store: seq<Stored>, m: Message, e: Env)
    ensures
      if m.subjectOk && m.payloadOk && e.firstConnection && e.room.Some? && m.headersOk
        && e.room.value.start.Some? && e.secondConnection && e.dataOk && !e.insert.Rejected?
        && forall row :: row in store ==> row.entityType != m.entityType || row.eventId != m.eventId
      then StoreAfter(store, m, e) == store
        + [Stored(m.entityType, m.eventId, e.room.value.id, m.eventLabel, m.createdAt - e.room.value.start.value)]
      else StoreAfter(store, m, e) == store
  {
    if row :| row in store && row.entityType == m.entityType && row.eventId == m.eventId {
      assert Has(store, m.entityType, m.eventId);
    }
  }

  // ---- What an input does to the loop -----------------------------------------------------------

  predicate Acknowledges(input: Input) {
    input.Deliver? && ReachesInsert(input.message, input.env) && input.env.insert.Healthy? && input.env.ack
  }

  /** A handled message ends a row of failures, and so does a process that starts anew. */
  predicate EndsFailures(input: Input) {
    input.Crash? || (input.Deliver? && ReachesInsert(input.message, input.env) && input.env.insert.Healthy?)
  }

  predicate Fails(input: Input) {
    input.Deliver? && LacksConnection(input.message, input.env)
  }

  function PauseAfter(input: Input, retryCount: nat, c: Config): Option<nat> {
    if Fails(input) then Some(NextSuspendInterval(retryCount, c)) else None
  }

  /** The failures since the last success. */
  function Failures(inputs: seq<Input>, before: nat): nat {
    if inputs == [] then before
    else
      var n, last := Failures(inputs[..|inputs| - 1], before), inputs[|inputs| - 1];
      if EndsFailures(last) then 0 else if Fails(last) then n + 1 else n
  }

  /** The messages acknowledged, in order. */
  function Acked(inputs: seq<Input>): seq<Message> {
    if inputs == [] then []
    else
      var last := inputs[|inputs| - 1];
      Acked(inputs[..|inputs| - 1]) + (if Acknowledges(last) then [last.message] else [])
  }

  /** The state of a consumer. */
  datatype Snapshot = Snapshot(store: seq<Stored>, acked: seq<Message>, retryCount: nat, pause: Option<nat>)

  class Consumer {
    var store: seq<Stored>
    var acked: seq<Message>
    var retryCount: nat
    var suspendInterval: Option<nat>
    ghost var sleeps: seq<nat>  // the intervals chosen since the last success

    constructor ()
      ensures store == [] && acked == [] && retryCount == 0 && suspendInterval == None && sleeps == []
    {
      store, acked, retryCount, suspendInterval, sleeps := [], [], 0, None, [];
    }

    ghost predicate Valid(c: Config)
      reads this
    {
      && Unique(store)
      && (forall m :: m in acked ==> Has(store, m.entityType, m.eventId))
      && |sleeps| == retryCount
      && (forall i :: 0 <= i < |sleeps| ==> sleeps[i] == NextSuspendInterval(i + 1, c))
    }

    method HandleMessage(m: Message, e: Env) returns (r: HandleResult)
      modifies this`store
      ensures store == StoreAfter(old(store), m, e)
      ensures r.Handled? <==>
        && m.subjectOk && m.payloadOk && e.firstConnection && e.room.Some? && m.headersOk
        && e.room.value.start.Some? && e.secondConnection && e.dataOk && e.insert.Healthy?
      ensures r.DbConnAcquisitionFailed? <==>
        && m.subjectOk && m.payloadOk
        && (!e.firstConnection
            || (e.room.Some? && m.headersOk && e.room.value.start.Some? && !e.secondConnection))
    {
      if !m.subjectOk || !m.payloadOk {
        return Other;
      }
      if !e.firstConnection {
        return DbConnAcquisitionFailed;
      }
      if e.room.None? || !m.headersOk || e.room.value.start.None? {
        return Other;
      }
      if !e.secondConnection {
        return DbConnAcquisitionFailed;
      }
      if !e.dataOk {
        return Other;
      }
      if !e.insert.Rejected? && !Has(store, m.entityType, m.eventId) {
        store := store + [RowOf(m, e)];
      }
      // a violation of the unique constraint is as good as a new row
      return if e.insert.Healthy? then Handled else Other;
    }

    /** One input of the stream. */
    method HandleInput(c: Config, input: Input)
      requires Valid(c)
      modifies this
      ensures Valid(c)
      ensures store == if input.StreamError? then old(store) else StoreAfter(old(store), input.message, input.env)
      ensures acked == old(acked) + (if Acknowledges(input) then [input.message] else [])
      ensures retryCount == if EndsFailures(input) then 0 else old(retryCount) + (if Fails(input) then 1 else 0)
      ensures suspendInterval == PauseAfter(input, retryCount, c)
      ensures sleeps == if EndsFailures(input) then []
                        else if Fails(input) then old(sleeps) + [NextSuspendInterval(retryCount, c)] else old(sleeps)
    {
      suspendInterval := None;
      match input
      case StreamError =>
      case Crash(m, e) =>
        var _ := HandleMessage(m, e);
        StoreKeepsUnique(old(store), m, e);
        retryCount, sleeps := 0, [];  // the process starts anew; the message will come again
      case Deliver(m, e) =>
        var r := HandleMessage(m, e);
        StoreKeepsUnique(old(store), m, e);
        match r
        case Handled =>
          retryCount, sleeps := 0, [];
          if e.ack {
            acked := acked + [m];
          }
        case DbConnAcquisitionFailed =>
          retryCount := retryCount + 1;
          suspendInterval := Some(NextSuspendInterval(retryCount, c));
          sleeps := sleeps + [suspendInterval.value];
        case Other =>
    }

    /** Any stream: messages again and again, in any order, with failures and crashes anywhere.
        No entity event is ever stored twice, nothing stored is lost, everything that was
        acknowledged is stored, and the pauses count the failures since the last success. */
    method HandleStream(c: Config, inputs: seq<Input>)
      requires Valid(c)
      modifies this
      ensures Valid(c)
      ensures store == StoreAfterAll(old(store), inputs)
      ensures acked == old(acked) + Acked(inputs)
      ensures |sleeps| == retryCount == Failures(inputs, old(retryCount))
      ensures inputs != [] ==> suspendInterval == PauseAfter(inputs[|inputs| - 1], retryCount, c)
      ensures Bounded(c) ==>
        ((forall i, j :: 0 <= i < j < |sleeps| ==> sleeps[i] <= sleeps[j] <= c.maxSuspendSeconds)
          <==> !Vanishes(retryCount, c) || Vanishes(1, c))
    {
      ghost var start := Snapshot(store, acked, retryCount, suspendInterval);
      assert inputs[..0] == [];
      for i := 0 to |inputs|
        invariant Valid(c)
        invariant HandledSoFar(c, start, inputs, i, Snapshot(store, acked, retryCount, suspendInterval))
      {
        ghost var before := Snapshot(store, acked, retryCount, suspendInterval);
        HandleInput(c, inputs[i]);
        HandledNext(c, start, inputs, i, before, Snapshot(store, acked, retryCount, suspendInterval));
      }
      assert inputs[..|inputs|] == inputs;
      if Bounded(c) {
        SleepsGrowIff(sleeps, c);
      }
    }
  }

  function StoreAfterAll(store: seq<Stored>, inputs: seq<Input>): seq<Stored> {
    if inputs == [] then store
    else
      var before, last := StoreAfterAll(store, inputs[..|inputs| - 1]), inputs[|inputs| - 1];
      if last.StreamError? then before else StoreAfter(before, last.message, last.env)
  }

  /** The state after the first `i` inputs. */
  ghost predicate HandledSoFar(c: Config, start: Snapshot, inputs: seq<Input>, i: nat, s: Snapshot) {
    && i <= |inputs|
    && s.store == StoreAfterAll(start.store, inputs[..i])
    && s.acked == start.acked + Acked(inputs[..i])
    && s.retryCount == Failures(inputs[..i], start.retryCount)
    && (i > 0 ==> s.pause == PauseAfter(inputs[i - 1], s.retryCount, c))
  }

  lemma {:induction false} HandledNext(c: Config, start: Snapshot, inputs: seq<Input>, i: nat, s: Snapshot,
                                       s': Snapshot)
    requires i < |inputs| && HandledSoFar(c, start, inputs, i, s)
    requires var input := inputs[i];
      && s'.store == (if input.StreamError? then s.store else StoreAfter(s.store, input.message, input.env))
      && s'.acked == s.acked + (if Acknowledges(input) then [input.message] else [])
      && s'.retryCount == (if EndsFailures(input) then 0 else s.retryCount + (if Fails(input) then 1 else 0))
      && s'.pause == PauseAfter(input, s'.retryCount, c)
    ensures HandledSoFar(c, start, inputs, i + 1, s')
  {
    assert inputs[..i + 1][..i] == inputs[..i];
  }

  function FailuresAfter(inputs: seq<Input>, k: nat): set<nat> {
    set i: nat | k < i < |inputs| && Fails(inputs[i])
  }

  lemma {:induction false} FailuresAfterLast(init: seq<Input>, last: Input, k: nat)
    requires k < |init|
    ensures |FailuresAfter(init + [last], k)| == |FailuresAfter(init, k)| + (if Fails(last) then 1 else 0)
  {
    var n, before := |init|, FailuresAfter(init, k);
    assert n !in before;
    assert FailuresAfter(init + [last], k) == if Fails(last) then before + {n} else before;
  }

  lemma {:induction false} FailuresSnoc(init: seq<Input>, last: Input, before: nat)
    ensures Failures(init + [last], before)
         == if EndsFailures(last) then 0 else Failures(init, before) + (if Fails(last) then 1 else 0)
  {
    assert (init + [last])[..|init|] == init;
  }

  lemma {:induction false} FailuresBehind(inputs: seq<Input>, before: nat, k: nat)
    requires k < |inputs| && EndsFailures(inputs[k]) && forall i :: k < i < |inputs| ==> !EndsFailures(inputs[i])
    ensures Failures(inputs, before) == |FailuresAfter(inputs, k)|
  {
    var init, last := inputs[..|inputs| - 1], inputs[|inputs| - 1];
    assert inputs == init + [last];
    FailuresSnoc(init, last, before);
    if k == |init| {
      assert FailuresAfter(inputs, k) == {};
    } else {
      FailuresBehind(init, before, k);
      FailuresAfterLast(init, last, k);
    }
  }

  /** The failures counted are the lost connections behind the last message that was handled or the last
      start of the process, if there is one. */
  lemma {:induction false} FailuresSince(inputs: seq<Input>, before: nat, k: nat)
    requires k < |inputs|
    requires inputs[k].Crash?
      || (inputs[k].Deliver? && ReachesInsert(inputs[k].message, inputs[k].env) && inputs[k].env.insert.Healthy?)
    requires forall i | k < i < |inputs| ::
      && !inputs[i].Crash?
      && (inputs[i].Deliver? && ReachesInsert(inputs[i].message, inputs[i].env) ==> !inputs[i].env.insert.Healthy?)
    ensures Failures(inputs, before)
      == |set i: nat | k < i < |inputs| && inputs[i].Deliver? && LacksConnection(inputs[i].message, inputs[i].env)|
  {
    FailuresBehind(inputs, before, k);
    assert FailuresAfter(inputs, k)
        == set i: nat | k < i < |inputs| && inputs[i].Deliver? && LacksConnection(inputs[i].message, inputs[i].env);
  }

  predicate Stores(m: Message, e: Env, t: string, id: int) {
    ReachesInsert(m, e) && !e.insert.Rejected? && m.entityType == t && m.eventId == id
  }

  lemma {:induction false} HasAfter(store: seq<Stored>, m: Message, e: Env, t: string, id: int)
    ensures Has(StoreAfter(store, m, e), t, id) <==> Has(store, t, id) || Stores(m, e, t, id)
  {
    var after := StoreAfter(store, m, e);
    if Has(store, t, id) {
      var i :| 0 <= i < |store| && store[i].entityType == t && store[i].eventId == id;
      assert after[i] == store[i];
    } else if Stores(m, e, t, id) {
      assert after[|store|] == RowOf(m, e);
    }
  }

  lemma {:induction false} StoreKeepsUnique(store: seq<Stored>, m: Message, e: Env)
    requires Unique(store)
    ensures Unique(StoreAfter(store, m, e))
    ensures forall t, id :: Has(store, t, id) ==> Has(StoreAfter(store, m, e), t, id)
    ensures ReachesInsert(m, e) && e.insert.Healthy? ==> Has(StoreAfter(store, m, e), m.entityType, m.eventId)
  {
    forall t, id ensures Has(store, t, id) ==> Has(StoreAfter(store, m, e), t, id) {
      HasAfter(store, m, e, t, id);
    }
    HasAfter(store, m, e, m.entityType, m.eventId);
  }

  // ---- What a whole stream leaves in the store ------------------------------------------------

  ghost predicate Delivers(inputs: seq<Input>, i: nat, t: string, id: int) {
    i < |inputs| && !inputs[i].StreamError? && Stores(inputs[i].message, inputs[i].env, t, id)
  }

  lemma {:induction false} DeliversBefore(inputs: seq<Input>, t: string, id: int)
    requires inputs != []
    ensures var last := |inputs| - 1;
      (exists i: nat :: Delivers(inputs, i, t, id)) <==>
        (exists i: nat :: Delivers(inputs[..last], i, t, id)) || Delivers(inputs, last, t, id)
  {
    var last := |inputs| - 1;
    if i: nat :| Delivers(inputs, i, t, id) && i < last {
      assert Delivers(inputs[..last], i, t, id);
    }
    if i: nat :| Delivers(inputs[..last], i, t, id) {
      assert Delivers(inputs, i, t, id);
    }
  }

  /** An entity event is stored, and stored once, exactly if one of its deliveries got as far as
      an insert that was not rejected. */
  lemma {:induction false} StoredIffDelivered(inputs: seq<Input>, t: string, id: int)
    ensures var store := StoreAfterAll([], inputs);
      && Unique(store)
      && (Has(store, t, id) <==> exists i: nat :: Delivers(inputs, i, t, id))
      && forall j, k :: 0 <= j < k < |store| ==>
           store[j].entityType != store[k].entityType || store[j].eventId != store[k].eventId
  {
    if inputs != [] {
      var last := |inputs| - 1;
      var before := StoreAfterAll([], inputs[..last]);
      StoredIffDelivered(inputs[..last], t, id);
      DeliversBefore(inputs, t, id);
      if !inputs[last].StreamError? {
        StoreKeepsUnique(before, inputs[last].message, inputs[last].env);
        HasAfter(before, inputs[last].message, inputs[last].env, t, id);
      }
    }
  }

  /** What was acknowledged is stored. */
  lemma {:induction false} AckedIsStored(inputs: seq<Input>, m: Message)
    requires m in Acked(inputs)
    ensures exists row :: row in StoreAfterAll([], inputs) && row.entityType == m.entityType && row.eventId == m.eventId
  {
    var last := |inputs| - 1;
    var before := StoreAfterAll([], inputs[..last]);
    if m in Acked(inputs[..last]) {
      AckedIsStored(inputs[..last], m);
      assert Has(before, m.entityType, m.eventId);
    }
    if !inputs[last].StreamError? {
      HasAfter(before, inputs[last].message, inputs[last].env, m.entityType, m.eventId);
    }
    var k :| 0 <= k < |StoreAfterAll([], inputs)| && StoreAfterAll([], inputs)[k].entityType == m.entityType
      && StoreAfterAll([], inputs)[k].eventId == m.eventId;
  }

  /** Its row is the one of the first such delivery; later ones leave no trace. */
  lemma {:induction false} RowOfFirstDelivery(inputs: seq<Input>, t: string, id: int, i: nat, k: nat)
    requires Delivers(inputs, i, t, id) && forall j: nat :: j < i ==> !Delivers(inputs, j, t, id)
    requires k < |StoreAfterAll([], inputs)|
    requires StoreAfterAll([], inputs)[k].entityType == t && StoreAfterAll([], inputs)[k].eventId == id
    ensures var m, e := inputs[i].message, inputs[i].env;
      StoreAfterAll([], inputs)[k]
        == Stored(m.entityType, m.eventId, e.room.value.id, m.eventLabel, m.createdAt - e.room.value.start.value)
  {
    var last := |inputs| - 1;
    var init := inputs[..last];
    var before := StoreAfterAll([], init);
    StoredIffDelivered(init, t, id);
    forall j: nat | j < last ensures Delivers(init, j, t, id) <==> Delivers(inputs, j, t, id) {
    }
    if i < last {
      assert Has(before, t, id);
      if k < |before| {
        RowOfFirstDelivery(init, t, id, i, k);
      }
    } else {
      assert !Has(before, t, id);
    }
  }

  // ---- Suspending --------------------------------------------------------------------------

  const U64 := 0x1_0000_0000_0000_0000

  function Pow2(n: nat): (r: nat)
    ensures r > 0
  {
    if n == 0 then 1 else 2 * Pow2(n - 1)
  }

  /** In 64-bit arithmetic, both the power and the product wrap around. */
  function NextSuspendInterval(retryCount: nat, c: Config): nat {
    var seconds := (c.suspendSeconds * (Pow2(retryCount) % U64)) % U64;
    if seconds <= c.maxSuspendSeconds then seconds else c.maxSuspendSeconds
  }

  /** The pause that is meant: the exponential, capped. */
  function Meant(r: nat, c: Config): nat {
    if c.suspendSeconds * Pow2(r) <= c.maxSuspendSeconds then c.suspendSeconds * Pow2(r) else c.maxSuspendSeconds
  }

  lemma {:induction false} Pow2Grows(a: nat, b: nat)
    requires a <= b
    ensures Pow2(a) <= Pow2(b)
    decreases b
  {
    if a < b {
      Pow2Grows(a, b - 1);
    }
  }

  lemma {:induction false} MultiplyMonotone(s: nat, a: nat, b: nat)
    requires a <= b
    ensures s * a <= s * b
    ensures s > 0 ==> a <= s * a
  {
  }

  lemma {:induction false} NoWrap(a: nat)
    requires a < U64
    ensures a % U64 == a
  {
  }

  /** As long as the product fits, it is the plain exponential, capped. */
  lemma {:induction false} SuspendFits(r: nat, c: Config)
    requires c.suspendSeconds * Pow2(r) < U64
    ensures NextSuspendInterval(r, c) == Meant(r, c)
  {
    var s, p := c.suspendSeconds, Pow2(r);
    if s > 0 {
      MultiplyMonotone(s, p, p);
      NoWrap(p);
    }
    assert s * (p % U64) == s * p;
    NoWrap(s * p);
  }

  /** So the interval never shrinks from one failure to the next and never exceeds the cap. */
  lemma {:induction false} SuspendGrows(r: nat, r': nat, c: Config)
    requires r <= r' && c.suspendSeconds * Pow2(r') < U64
    ensures NextSuspendInterval(r, c) <= NextSuspendInterval(r', c) <= c.maxSuspendSeconds
  {
    Pow2Grows(r, r');
    MultiplyMonotone(c.suspendSeconds, Pow2(r), Pow2(r'));
    SuspendFits(r, c);
    SuspendFits(r', c);
  }

  /** The intervals chosen since the last success. */
  lemma {:induction false} SleepsNeverShrink(sleeps: seq<nat>, c: Config)
    requires forall i :: 0 <= i < |sleeps| ==> sleeps[i] == NextSuspendInterval(i + 1, c)
    requires c.suspendSeconds * Pow2(|sleeps|) < U64
    ensures forall i, j :: 0 <= i < j < |sleeps| ==> sleeps[i] <= sleeps[j] <= c.maxSuspendSeconds
  {
    forall i, j | 0 <= i < j < |sleeps| ensures sleeps[i] <= sleeps[j] <= c.maxSuspendSeconds {
      Pow2Grows(j + 1, |sleeps|);
      MultiplyMonotone(c.suspendSeconds, Pow2(j + 1), Pow2(|sleeps|));
      SuspendGrows(i + 1, j + 1, c);
    }
  }

  lemma {:induction false} Pow2Vanishes(r: nat)
    requires r >= 64
    ensures Pow2(r) % U64 == 0
  {
    if r == 64 {
      Pow2At64();
    } else {
      Pow2Vanishes(r - 1);
      DoubleVanishes(Pow2(r - 1));
    }
  }

  lemma {:induction false} DoubleVanishes(a: nat)
    requires a % U64 == 0
    ensures (2 * a) % U64 == 0
  {
    var q := a / U64;
    assert 2 * a == U64 * (2 * q);
  }

  lemma {:induction false} Pow2Plus4(n: nat)
    ensures Pow2(n + 4) == 16 * Pow2(n)
  {
    assert Pow2(n + 2) == 4 * Pow2(n);
  }

  lemma {:induction false} Pow2At(k: nat)
    ensures Pow2(4 * k) == Pow16(k)
  {
    if k > 0 {
      Pow2Plus4(4 * k - 4);
      Pow2At(k - 1);
    }
  }

  function Pow16(k: nat): nat {
    if k == 0 then 1 else 16 * Pow16(k - 1)
  }

  lemma Pow2At64()
    ensures Pow2(64) == U64
  {
    Pow2At(16);
    assert Pow16(8) == 0x1_0000_0000;
    assert Pow16(16) == U64;
  }

  /** After 64 failures in a row without a success the wrap-around leaves no pause at all. */
  lemma {:induction false} SuspendVanishes(r: nat, c: Config)
    requires r >= 64
    ensures NextSuspendInterval(r, c) == 0
  {
    Pow2Vanishes(r);
  }

  // ---- Exactly when the pause falls -----------------------------------------------------------

  /** Neither bound is 0, and their product fits in 64 bits. */
  predicate Bounded(c: Config) {
    0 < c.suspendSeconds && 0 < c.maxSuspendSeconds && c.suspendSeconds * c.maxSuspendSeconds <= U64
  }

  predicate Vanishes(r: nat, c: Config) {
    (c.suspendSeconds * Pow2(r)) % U64 == 0
  }

  lemma {:induction false} Pow2Adds(a: nat, b: nat)
    ensures Pow2(a + b) == Pow2(a) * Pow2(b)
  {
    if a > 0 {
      Pow2Adds(a - 1, b);
      assert Pow2(a + b) == 2 * Pow2(a - 1 + b);
      DoubleOfProduct(Pow2(a - 1), Pow2(b));
    }
  }

  lemma {:induction false} DoubleOfProduct(a: nat, b: nat)
    ensures 2 * (a * b) == (2 * a) * b
  {
  }

  lemma {:induction false} Residue(a: nat, m: nat) returns (q: nat)
    requires m > 0
    ensures a == q * m + a % m
  {
    q := a / m;
  }

  lemma {:induction false} SameResidue(a: nat, b: nat, k: int)
    requires a - b == k * U64
    ensures a % U64 == b % U64
  {
  }

  lemma {:induction false} CancelFactor(s: nat, a: nat, b: nat)
    requires s > 0 && s * a <= s * b
    ensures a <= b
  {
    Distribute(s, b);
    if b < a {
      MultiplyMonotone(s, b + 1, a);
    }
  }

  lemma {:induction false} Distribute(s: nat, a: nat)
    ensures s * (a + 1) == s * a + s
  {
  }

  /** Wrapping the power before the product makes no difference. */
  lemma {:induction false} WrapOnce(r: nat, c: Config)
    ensures (c.suspendSeconds * (Pow2(r) % U64)) % U64 == (c.suspendSeconds * Pow2(r)) % U64
  {
    var s, p := c.suspendSeconds, Pow2(r);
    var q := Residue(p, U64);
    assert s * p == s * (q * U64 + p % U64) == s * (q * U64) + s * (p % U64);
    assert s * (q * U64) == (s * q) * U64;
    SameResidue(s * p, s * (p % U64), s * q);
  }

  /** What is left of a multiple of a divisor of the word size is such a multiple. */
  lemma {:induction false} ResidueIsMultiple(s: nat, p: nat, other: nat)
    requires p > 0 && p * other == U64
    ensures (s * p) % U64 == 0 || (s * p) % U64 >= p
  {
    var m := (s * p) % U64;
    var q := Residue(s * p, U64);
    var k := s - q * other;
    assert q * U64 == (q * other) * p;
    assert m == s * p - (q * other) * p == k * p;
    if k <= 0 {
      NoneOfNegative(-k, p);
      assert k * p == -((-k) * p);
    } else {
      MultiplyMonotone(p, 1, k);
    }
  }

  lemma {:induction false} NoneOfNegative(k: nat, p: nat)
    ensures 0 <= k * p
  {
  }

  lemma {:induction false} WrappedIsLong(r: nat, c: Config)
    requires 0 < c.suspendSeconds && c.suspendSeconds * c.maxSuspendSeconds <= U64
    requires c.suspendSeconds * Pow2(r) >= U64 && !Vanishes(r, c)
    ensures c.maxSuspendSeconds <= (c.suspendSeconds * Pow2(r)) % U64
  {
    var s, p := c.suspendSeconds, Pow2(r);
    if r >= 64 {
      Pow2Vanishes(r);
      WrapOnce(r, c);
    } else {
      Pow2Adds(r, 64 - r);
      Pow2At64();
      ResidueIsMultiple(s, p, Pow2(64 - r));
      CancelFactor(s, c.maxSuspendSeconds, p);
    }
  }

  /** With a product of both bounds that fits, the pause is the one that is meant, or none: it
      falls below exactly when the wrapped product is 0. */
  lemma {:induction false} PauseFallsIff(r: nat, c: Config)
    requires Bounded(c)
    ensures NextSuspendInterval(r, c) == if Vanishes(r, c) then 0 else Meant(r, c)
    ensures NextSuspendInterval(r, c) < Meant(r, c) <==> Vanishes(r, c)
  {
    var s, p := c.suspendSeconds, Pow2(r);
    WrapOnce(r, c);
    MultiplyMonotone(s, p, p);
    MultiplyMonotone(p, 1, s);
    assert 0 < s * p;
    if s * p < U64 {
      NoWrap(s * p);
    } else {
      MultiplyMonotone(s, c.maxSuspendSeconds, c.maxSuspendSeconds);
      MultiplyMonotone(c.maxSuspendSeconds, 1, s);
      if !Vanishes(r, c) {
        WrappedIsLong(r, c);
      }
    }
  }

  lemma {:induction false} VanishesOn(r: nat, r': nat, c: Config)
    requires r <= r' && Vanishes(r, c)
    ensures Vanishes(r', c)
    decreases r'
  {
    if r < r' {
      VanishesOn(r, r' - 1, c);
      DoubleVanishes(c.suspendSeconds * Pow2(r' - 1));
      assert c.suspendSeconds * (2 * Pow2(r' - 1)) == 2 * (c.suspendSeconds * Pow2(r' - 1));
    }
  }

  lemma {:induction false} MeantGrows(r: nat, r': nat, c: Config)
    requires r <= r'
    ensures Meant(r, c) <= Meant(r', c) <= c.maxSuspendSeconds
  {
    Pow2Grows(r, r');
    MultiplyMonotone(c.suspendSeconds, Pow2(r), Pow2(r'));
  }

  /** The pauses since the last success never exceed the cap, and they never shrink exactly as
      long as the last product does not wrap to 0 (or the very first one does). */
  lemma {:induction false} SleepsGrowIff(sleeps: seq<nat>, c: Config)
    requires Bounded(c)
    requires forall i :: 0 <= i < |sleeps| ==> sleeps[i] == NextSuspendInterval(i + 1, c)
    ensures forall i :: 0 <= i < |sleeps| ==> sleeps[i] <= c.maxSuspendSeconds
    ensures (forall i, j :: 0 <= i < j < |sleeps| ==> sleeps[i] <= sleeps[j])
       <==> !Vanishes(|sleeps|, c) || Vanishes(1, c)
  {
    var n := |sleeps|;
    forall i | 0 <= i < n ensures sleeps[i] <= c.maxSuspendSeconds {
      PauseFallsIff(i + 1, c);
    }
    if !Vanishes(n, c) || Vanishes(1, c) {
      forall i, j | 0 <= i < j < n ensures sleeps[i] <= sleeps[j] {
        LaterIsLonger(i + 1, j + 1, n, c);
      }
    } else {
      PauseFallsIff(1, c);
      if n > 1 {
        PauseFallsIff(n, c);
        FirstIsPositive(c);
        assert sleeps[0] > sleeps[n - 1];
      } else if n == 0 {
        NothingVanishesAtOnce(c);
      }
    }
  }

  lemma {:induction false} LaterIsLonger(r: nat, r': nat, n: nat, c: Config)
    requires Bounded(c)
    requires 1 <= r <= r' <= n && (!Vanishes(n, c) || Vanishes(1, c))
    ensures NextSuspendInterval(r, c) <= NextSuspendInterval(r', c)
  {
    PauseFallsIff(r, c);
    PauseFallsIff(r', c);
    MeantGrows(r, r', c);
    if Vanishes(r', c) {
      VanishesOn(r', n, c);
      VanishesOn(1, r, c);
    }
  }

  lemma {:induction false} FirstIsPositive(c: Config)
    requires 0 < c.suspendSeconds && 0 < c.maxSuspendSeconds
    ensures Meant(1, c) > 0
  {
    assert Pow2(1) == 2;
  }

  /** Before any failure nothing has wrapped, unless the interval itself is a multiple of the word
      size; then the first pause is none either. */
  lemma {:induction false} NothingVanishesAtOnce(c: Config)
    ensures Vanishes(0, c) ==> Vanishes(1, c)
  {
    if Vanishes(0, c) {
      VanishesOn(0, 1, c);
    }
  }

  /** With pauses from four seconds up to a minute, the sixty-second failure in a row is followed
      by no pause. */
  lemma FourSecondsVanish()
    ensures NextSuspendInterval(61, Config(4, 60)) == 60 && NextSuspendInterval(62, Config(4, 60)) == 0
  {
    var c := Config(4, 60);
    Pow2At64();
    assert Pow2(64) == 4 * Pow2(62) && Pow2(62) == 2 * Pow2(61);
    PauseFallsIff(61, c);
    PauseFallsIff(62, c);
  }
}
