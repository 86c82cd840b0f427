/** The trigger that gives every new version of an event the time and the creator of the
    first one, and the protocol of concurrent transactions that it takes part in. */
module InsertTrigger {
  import opened Numbers
  import opened Options
  import opened Sorting
  import opened EventLog

  /** What the insert supplies; `createdAt` only in tests and clones. */
  datatype NewRow = NewRow(
    key: Key,
    attribute: Option<string>,
    removed: bool,
    payload: string,
    occurredAt: int,
    createdBy: string,
    createdAt: Option<int>)

  // ---- The trigger ---------------------------------------------------------------

  function OfKey(rows: seq<Version>, k: Key): seq<Version> {
    Filter((v: Version) => v.key == k, rows)
  }

  /** What the trigger selects from: a missing label equals no label, itself included. */
  function Candidates(rows: seq<Version>, k: Key): seq<Version> {
    if k.eventLabel.None? then [] else OfKey(rows, k)
  }

  const ByCreation: (Version, Version) -> bool := (a: Version, b: Version) => a.createdAt <= b.createdAt

  /** SELECT … ORDER BY created_at LIMIT 1 may return any version created first. */
  ghost predicate IsEarliest(versions: seq<Version>, o: Option<Version>) {
    match o
    case None => versions == []
    case Some(v) => v in versions && forall w :: w in versions ==> v.createdAt <= w.createdAt
  }

  /** The row that the trigger makes, once it holds the lock and has read the original. */
  function Stamped(row: NewRow, original: Option<Version>, now: int): Version {
    var createdAt := if row.createdAt.Some? then row.createdAt.value
      else if original.Some? then Max(now, original.value.createdAt + 1) else now;
    var o := if original.Some? then (original.value.occurredAt, original.value.createdBy)
      else (row.occurredAt, row.createdBy);
    Version(row.key, row.attribute, row.removed, row.payload, row.occurredAt, row.createdBy, createdAt, o.0, o.1)
  }

  method OnEventInsert(visible: seq<Version>, row: NewRow, now: int) returns (r: Version)
    ensures exists o :: IsEarliest(Candidates(visible, row.key), o) && r == Stamped(row, o, now)
    ensures r.key == row.key && r.payload == row.payload && r.removed == row.removed && r.attribute == row.attribute
    ensures r.occurredAt == row.occurredAt && r.createdBy == row.createdBy
    ensures row.createdAt.Some? ==> r.createdAt == row.createdAt.value
    ensures row.key.eventLabel.None? || (forall v :: v in visible ==> v.key != row.key) ==>
      && r.originalOccurredAt == row.occurredAt && r.originalCreatedBy == row.createdBy
      && (row.createdAt.None? ==> r.createdAt == now)
    ensures row.key.eventLabel.Some? && (exists v :: v in visible && v.key == row.key) ==> exists o ::
      && o in visible && o.key == row.key
      && (forall v :: v in visible && v.key == row.key ==> o.createdAt <= v.createdAt)
      && r.originalOccurredAt == o.occurredAt && r.originalCreatedBy == o.createdBy
      && (row.createdAt.None? ==> r.createdAt == if now > o.createdAt then now else o.createdAt + 1)
  {
    var candidates := Candidates(visible, row.key);
    var sorted := Sort(ByCreation, candidates);
    var original: Option<Version> := if sorted == [] then None else Some(sorted[0]);
    r := Version(row.key, row.attribute, row.removed, row.payload, row.occurredAt, row.createdBy, 0, 0, "");
    r := r.(originalOccurredAt := if original.Some? then original.value.occurredAt else row.occurredAt);
    r := r.(originalCreatedBy := if original.Some? then original.value.createdBy else row.createdBy);
    r := r.(createdAt :=
      if row.createdAt.Some? then row.createdAt.value
      else if original.Some? then Max(now, original.value.createdAt + 1) else now);
    HeadIsEarliest(candidates);
    NoneOfKey(visible, row.key);
    FilterMembers((v: Version) => v.key == row.key, visible);
  }

  lemma {:induction false} HeadIsEarliest(versions: seq<Version>)
    ensures var s := Sort(ByCreation, versions); IsEarliest(versions, if s == [] then None else Some(s[0]))
  {
    var s := Sort(ByCreation, versions);
    SortKeeps(ByCreation, versions);
    SortSorts(ByCreation, versions);
    assert |multiset(s)| == |multiset(versions)|;
    if s != [] {
      assert s[0] in s;
      forall w | w in versions ensures s[0].createdAt <= w.createdAt {
        var i :| 0 <= i < |s| && s[i] == w;
        assert i > 0 ==> ByCreation(s[0], s[i]);
      }
    }
  }

  // ---- Transactions ----------------------------------------------------------------

  /** Where a transaction stands in an insert: past the lock, past the read. */
  datatype Phase = Idle | Locked(row: NewRow) | HasRead(row: NewRow, original: Option<Version>)

  /** `start` is what `now()` returns; locks last until the transaction ends. */
  datatype Txn = Txn(start: int, locks: set<int>, own: seq<Version>, phase: Phase)

  datatype State = State(committed: seq<Version>, clock: int, txns: map<nat, Txn>)

  datatype Action =
    | Tick(now: int)
    | Begin(t: nat)
    | Lock(t: nat, row: NewRow)
    | Read(t: nat, original: Option<Version>)
    | Insert(t: nat)
    | Commit(t: nat)
    | Abort(t: nat)

  ghost predicate Init(s: State) {
    s.committed == [] && s.txns == map[]
  }

  /** `hash` is any function from keys to advisory locks; keys may share a lock. */
  ghost predicate Step(hash: Key -> int, s: State, a: Action, s': State) {
    match a
    case Tick(now) => now >= s.clock && s' == s.(clock := now)
    case Begin(t) => t !in s.txns && s' == s.(txns := s.txns[t := Txn(s.clock, {}, [], Idle)])
    case Lock(t, row) =>
      && t in s.txns && s.txns[t].phase.Idle? && row.createdAt.None?
      && (forall u :: u in s.txns && u != t ==> hash(row.key) !in s.txns[u].locks)
      && s' == s.(txns := s.txns[t := s.txns[t].(locks := s.txns[t].locks + {hash(row.key)}, phase := Locked(row))])
    case Read(t, original) =>
      && t in s.txns && s.txns[t].phase.Locked?
      && IsEarliest(Candidates(s.committed + s.txns[t].own, s.txns[t].phase.row.key), original)
      && s' == s.(txns := s.txns[t := s.txns[t].(phase := HasRead(s.txns[t].phase.row, original))])
    case Insert(t) =>
      && t in s.txns && s.txns[t].phase.HasRead?
      && var x := s.txns[t];
      && s' == s.(txns := s.txns[t :=
           x.(own := x.own + [Stamped(x.phase.row, x.phase.original, x.start)], phase := Idle)])
    case Commit(t) =>
      && t in s.txns && s.txns[t].phase.Idle?
      && s' == s.(committed := s.committed + s.txns[t].own, txns := s.txns - {t})
    case Abort(t) => t in s.txns && s' == s.(txns := s.txns - {t})
  }

  // ---- The invariant ------------------------------------------------------------------

  ghost predicate Follows(o: Version, v: Version) {
    v.originalOccurredAt == o.occurredAt && v.originalCreatedBy == o.createdBy && o.createdAt < v.createdAt
  }

  /** The versions of one key, oldest first: the first one is its own original and was created
      strictly before the others, which all refer to it. */
  ghost predicate Chain(versions: seq<Version>) {
    versions != [] ==>
      && versions[0].originalOccurredAt == versions[0].occurredAt
      && versions[0].originalCreatedBy == versions[0].createdBy
      && forall i :: 0 < i < |versions| ==> Follows(versions[0], versions[i])
  }

  ghost predicate HoldsItsLocks(hash: Key -> int, x: Txn) {
    && (forall v :: v in x.own ==> hash(v.key) in x.locks)
    && (!x.phase.Idle? ==> hash(x.phase.row.key) in x.locks && x.phase.row.createdAt.None?)
  }

  ghost predicate ReadIsCurrent(committed: seq<Version>, x: Txn) {
    x.phase.HasRead? ==> IsEarliest(Candidates(committed + x.own, x.phase.row.key), x.phase.original)
  }

  ghost predicate ChainsWith(rows: seq<Version>) {
    forall k: Key :: k.eventLabel.Some? ==> Chain(OfKey(rows, k))
  }

  ghost predicate Inv(hash: Key -> int, s: State) {
    && ChainsWith(s.committed)
    && (forall t, u :: t in s.txns && u in s.txns && t != u ==> s.txns[t].locks !! s.txns[u].locks)
    && (forall t :: t in s.txns ==> HoldsItsLocks(hash, s.txns[t]))
    && (forall t :: t in s.txns ==> ReadIsCurrent(s.committed, s.txns[t]))
    && (forall t :: t in s.txns ==> ChainsWith(s.committed + s.txns[t].own))
  }

  lemma {:induction false} OfKeyConcat(a: seq<Version>, b: seq<Version>, k: Key)
    ensures OfKey(a + b, k) == OfKey(a, k) + OfKey(b, k)
  {
    FilterConcat((v: Version) => v.key == k, a, b);
  }

  lemma {:induction false} NoneOfKey(rows: seq<Version>, k: Key)
    ensures OfKey(rows, k) == [] <==> forall v :: v in rows ==> v.key != k
  {
    FilterMembers((v: Version) => v.key == k, rows);
    if OfKey(rows, k) == [] {
      forall v | v in rows ensures v.key != k {
        assert v.key == k ==> v in OfKey(rows, k);
      }
    } else {
      assert OfKey(rows, k)[0] in OfKey(rows, k);
    }
  }

  /** A stamped version extends the chain it was read from. */
  lemma {:induction false} StampExtends(versions: seq<Version>, row: NewRow, original: Option<Version>, now: int)
    requires Chain(versions) && IsEarliest(versions, original) && row.createdAt.None?
    ensures Chain(versions + [Stamped(row, original, now)])
  {
    if versions != [] {
      var i :| 0 <= i < |versions| && versions[i] == original.value;
      assert versions[0] in versions;
      assert i > 0 ==> Follows(versions[0], versions[i]);
    }
  }

  lemma {:induction false} InsertKeepsChains(committed: seq<Version>, x: Txn)
    requires x.phase.HasRead? && x.phase.row.createdAt.None?
    requires ReadIsCurrent(committed, x) && ChainsWith(committed + x.own)
    ensures ChainsWith(committed + (x.own + [Stamped(x.phase.row, x.phase.original, x.start)]))
  {
    var v := Stamped(x.phase.row, x.phase.original, x.start);
    assert committed + (x.own + [v]) == (committed + x.own) + [v];
    forall k: Key | k.eventLabel.Some? ensures Chain(OfKey(committed + (x.own + [v]), k)) {
      OfKeyConcat(committed + x.own, [v], k);
      assert [v][1..] == [] && OfKey([], k) == [];
      assert OfKey([v], k) == if v.key == k then [v] else [];
      assert Chain(OfKey(committed + x.own, k));
      if v.key == k {
        StampExtends(OfKey(committed + x.own, k), x.phase.row, x.phase.original, x.start);
      } else {
        assert OfKey(committed + x.own, k) + [] == OfKey(committed + x.own, k);
      }
    }
  }

  /** A commit shows nothing to another transaction about the keys that one has locked. */
  lemma {:induction false} CommitUnseen(hash: Key -> int, committed: seq<Version>, x: Txn, y: Txn, k: Key)
    requires HoldsItsLocks(hash, x) && x.locks !! y.locks && hash(k) in y.locks
    ensures OfKey(committed + x.own + y.own, k) == OfKey(committed + y.own, k)
  {
    NoneOfKey(x.own, k);
    OfKeyConcat(committed + x.own, y.own, k);
    OfKeyConcat(committed, x.own, k);
    OfKeyConcat(committed, y.own, k);
    assert OfKey(committed, k) + [] == OfKey(committed, k);
  }

  lemma {:induction false} CommitKeepsOther(hash: Key -> int, committed: seq<Version>, x: Txn, y: Txn)
    requires HoldsItsLocks(hash, x) && HoldsItsLocks(hash, y) && x.locks !! y.locks
    requires ReadIsCurrent(committed, y) && ChainsWith(committed + x.own) && ChainsWith(committed + y.own)
    ensures ReadIsCurrent(committed + x.own, y) && ChainsWith(committed + x.own + y.own)
  {
    if y.phase.HasRead? {
      CommitUnseen(hash, committed, x, y, y.phase.row.key);
    }
    forall k: Key | k.eventLabel.Some? ensures Chain(OfKey(committed + x.own + y.own, k)) {
      if hash(k) in y.locks {
        CommitUnseen(hash, committed, x, y, k);
        assert Chain(OfKey(committed + y.own, k));
      } else {
        NoneOfKey(y.own, k);
        OfKeyConcat(committed + x.own, y.own, k);
        assert OfKey(committed + x.own, k) + [] == OfKey(committed + x.own, k);
        assert Chain(OfKey(committed + x.own, k));
      }
    }
  }

  lemma {:induction false} CommitKeepsInv(hash: Key -> int, s: State, t: nat, s': State)
    requires Inv(hash, s) && Step(hash, s, Commit(t), s')
    ensures Inv(hash, s')
  {
    forall u | u in s'.txns
      ensures ReadIsCurrent(s'.committed, s'.txns[u]) && ChainsWith(s'.committed + s'.txns[u].own)
    {
      CommitKeepsOther(hash, s.committed, s.txns[t], s.txns[u]);
    }
  }

  lemma {:induction false} InsertKeepsInv(hash: Key -> int, s: State, t: nat, s': State)
    requires Inv(hash, s) && Step(hash, s, Insert(t), s')
    ensures Inv(hash, s')
  {
    InsertKeepsChains(s.committed, s.txns[t]);
  }

  /** Every step of every transaction keeps the invariant. */
  lemma {:induction false} StepKeepsInv(hash: Key -> int, s: State, a: Action, s': State)
    requires Inv(hash, s) && Step(hash, s, a, s')
    ensures Inv(hash, s')
  {
    match a
    case Insert(t) => InsertKeepsInv(hash, s, t, s');
    case Commit(t) => CommitKeepsInv(hash, s, t, s');
    case _ =>
      assert s.committed + [] == s.committed;
  }

  // ---- Whole runs -----------------------------------------------------------------------

  /** Any interleaving of any transactions: states one step apart, from an empty table. */
  ghost predicate Run(hash: Key -> int, states: seq<State>, actions: seq<Action>) {
    && |states| == |actions| + 1 && Init(states[0])
    && forall i :: 0 <= i < |actions| ==> Step(hash, states[i], actions[i], states[i + 1])
  }

  lemma {:induction false} RunKeepsInv(hash: Key -> int, states: seq<State>, actions: seq<Action>, i: nat)
    requires Run(hash, states, actions) && i < |states|
    ensures Inv(hash, states[i])
  {
    if i > 0 {
      RunKeepsInv(hash, states, actions, i - 1);
      StepKeepsInv(hash, states[i - 1], actions[i - 1], states[i]);
    }
  }

  /** In every state of every run, the first surviving version of a key was created strictly
      before all others, and all versions carry its time and its creator as the original ones. */
  lemma {:induction false} OriginalIsFirst(hash: Key -> int, states: seq<State>, actions: seq<Action>, i: nat, k: Key,
                                           j: nat)
    requires Run(hash, states, actions) && i < |states|
    requires k.eventLabel.Some? && j < |OfKey(states[i].committed, k)|
    ensures var versions := OfKey(states[i].committed, k);
      && versions[j].originalOccurredAt == versions[0].occurredAt
      && versions[j].originalCreatedBy == versions[0].createdBy
      && (j > 0 ==> versions[0].createdAt < versions[j].createdAt)
  {
    RunKeepsInv(hash, states, actions, i);
    assert Chain(OfKey(states[i].committed, k));
  }

  /** So a set of labelled events is always fit for the state queries. */
  lemma {:induction false} RunGivesOneOriginal(hash: Key -> int, states: seq<State>, actions: seq<Action>, i: nat,
                                               room: nat, eventSet: string)
    requires Run(hash, states, actions) && i < |states|
    requires forall v :: v in states[i].committed && v.key.room == room && v.key.eventSet == eventSet ==>
      v.key.eventLabel.Some?
    ensures OneOriginal(states[i].committed, room, eventSet)
  {
    var table := states[i].committed;
    forall v, w | v in table && w in table && OfSet(v, room, eventSet) && v.key == w.key
      ensures v.originalOccurredAt == w.originalOccurredAt
    {
      FilterMembers((x: Version) => x.key == v.key, table);
      var versions := OfKey(table, v.key);
      var m :| 0 <= m < |versions| && versions[m] == v;
      var n :| 0 <= n < |versions| && versions[n] == w;
      OriginalIsFirst(hash, states, actions, i, v.key, m);
      OriginalIsFirst(hash, states, actions, i, v.key, n);
    }
  }

  /** The original of a key never changes: a run only ever adds versions behind it. */
  lemma {:induction false} OriginalIsForever(hash: Key -> int, states: seq<State>, actions: seq<Action>, i: nat,
                                             j: nat, k: Key)
    requires Run(hash, states, actions) && i <= j < |states|
    ensures OfKey(states[i].committed, k) <= OfKey(states[j].committed, k)
    decreases j - i
  {
    if i < j {
      OriginalIsForever(hash, states, actions, i, j - 1, k);
      var s, a := states[j - 1], actions[j - 1];
      assert Step(hash, s, a, states[j]);
      if a.Commit? {
        OfKeyConcat(s.committed, s.txns[a.t].own, k);
      }
    }
  }

  // ---- Waiting for the lock lets everyone through ---------------------------------------------

  /** Some run ends in `s`. */
  ghost predicate Reach(hash: Key -> int, s: State) {
    exists states, actions :: Run(hash, states, actions) && states[|states| - 1] == s
  }

  lemma {:induction false} StartReached(hash: Key -> int, s: State)
    requires Init(s)
    ensures Reach(hash, s)
  {
    assert Run(hash, [s], []);
  }

  lemma {:induction false} NextReached(hash: Key -> int, s: State, a: Action, s': State)
    requires Reach(hash, s) && Step(hash, s, a, s')
    ensures Reach(hash, s')
  {
    var states, actions :| Run(hash, states, actions) && states[|states| - 1] == s;
    var more, done := states + [s'], actions + [a];
    forall i | 0 <= i < |done| ensures Step(hash, more[i], done[i], more[i + 1]) {
      if i < |actions| {
        assert Step(hash, states[i], actions[i], states[i + 1]);
      }
    }
    assert Run(hash, more, done) && more[|more| - 1] == s';
  }

  /** A transaction that nobody keeps from its lock can insert what it wants and commit, whatever the
      others are about. */
  lemma {:induction false} InsertReached(hash: Key -> int, s: State, t: nat, row: NewRow, original: Option<Version>)
    requires Reach(hash, s) && t in s.txns && s.txns[t] == Txn(s.txns[t].start, {}, [], Idle)
    requires row.createdAt.None? && forall u :: u in s.txns && u != t ==> hash(row.key) !in s.txns[u].locks
    requires IsEarliest(Candidates(s.committed, row.key), original)
    ensures Reach(hash, State(s.committed + [Stamped(row, original, s.txns[t].start)], s.clock, s.txns - {t}))
  {
    var start, lock, v := s.txns[t].start, {hash(row.key)}, Stamped(row, original, s.txns[t].start);
    var locked := s.(txns := s.txns[t := Txn(start, lock, [], Locked(row))]);
    assert {} + lock == lock;
    NextReached(hash, s, Lock(t, row), locked);
    var read := locked.(txns := locked.txns[t := Txn(start, lock, [], HasRead(row, original))]);
    assert s.committed + [] == s.committed;
    NextReached(hash, locked, Read(t, original), read);
    var inserted := read.(txns := read.txns[t := Txn(start, lock, [v], Idle)]);
    assert [] + [v] == [v];
    NextReached(hash, read, Insert(t), inserted);
    var end := State(s.committed + [v], s.clock, s.txns - {t});
    assert inserted.txns - {t} == s.txns - {t};
    NextReached(hash, inserted, Commit(t), end);
  }

  lemma {:induction false} TwoBegin(hash: Key -> int, startA: int, startB: int)
    requires startA <= startB
    ensures Reach(hash, State([], startB, map[][0 := Txn(startA, {}, [], Idle)][1 := Txn(startB, {}, [], Idle)]))
  {
    var s0 := State([], startA, map[]);
    var s1 := s0.(txns := s0.txns[0 := Txn(startA, {}, [], Idle)]);
    var s2 := s1.(clock := startB);
    StartReached(hash, s0);
    NextReached(hash, s0, Begin(0), s1);
    NextReached(hash, s1, Tick(startB), s2);
    NextReached(hash, s2, Begin(1), s2.(txns := s2.txns[1 := Txn(startB, {}, [], Idle)]));
  }

  /** Two transactions that have both begun insert into one key, one after the other: the second takes
      the time and the creator of the first, and is created after it even if both began at once. */
  lemma {:induction false} SecondFollowsFirst(hash: Key -> int, a: NewRow, b: NewRow, startA: int, startB: int)
    returns (s: State)
    requires a.key == b.key && a.key.eventLabel.Some? && a.createdAt.None? && b.createdAt.None? && startA <= startB
    ensures Reach(hash, s) && |s.committed| == 2
    ensures var v, w := s.committed[0], s.committed[1];
      && v == Version(a.key, a.attribute, a.removed, a.payload, a.occurredAt, a.createdBy, startA,
                      a.occurredAt, a.createdBy)
      && w == Version(b.key, b.attribute, b.removed, b.payload, b.occurredAt, b.createdBy,
                      if startA < startB then startB else startA + 1, a.occurredAt, a.createdBy)
  {
    var s0 := State([], startB, map[][0 := Txn(startA, {}, [], Idle)][1 := Txn(startB, {}, [], Idle)]);
    TwoBegin(hash, startA, startB);
    InsertReached(hash, s0, 0, a, None);
    var v := Stamped(a, None, startA);
    assert [] + [v] == [v] && [v][1..] == [];
    var s1 := State([v], startB, s0.txns - {0});
    assert OfKey([v], b.key) == [v];
    InsertReached(hash, s1, 1, b, Some(v));
    s := State([v] + [Stamped(b, Some(v), startB)], startB, s1.txns - {1});
  }

  // ---- The same without the lock ----------------------------------------------------------

  /** The steps of a trigger that takes its lock without waiting for others to give it up. */
  ghost predicate UnlockedStep(hash: Key -> int, s: State, a: Action, s': State) {
    if a.Lock? then
      && a.t in s.txns && s.txns[a.t].phase.Idle? && a.row.createdAt.None?
      && s' == s.(txns :=
           s.txns[a.t := s.txns[a.t].(locks := s.txns[a.t].locks + {hash(a.row.key)}, phase := Locked(a.row))])
    else Step(hash, s, a, s')
  }

  ghost predicate UnlockedRun(hash: Key -> int, states: seq<State>, actions: seq<Action>) {
    && |states| == |actions| + 1 && Init(states[0])
    && forall i :: 0 <= i < |actions| ==> UnlockedStep(hash, states[i], actions[i], states[i + 1])
  }

  /** Some run ends in `s`. */
  ghost predicate UnlockedReach(hash: Key -> int, s: State) {
    exists states, actions :: UnlockedRun(hash, states, actions) && states[|states| - 1] == s
  }

  lemma {:induction false} ReachesStart(hash: Key -> int, s: State)
    requires Init(s)
    ensures UnlockedReach(hash, s)
  {
    assert UnlockedRun(hash, [s], []);
  }

  lemma {:induction false} ReachesNext(hash: Key -> int, s: State, a: Action, s': State)
    requires UnlockedReach(hash, s) && UnlockedStep(hash, s, a, s')
    ensures UnlockedReach(hash, s')
  {
    var states, actions :| UnlockedRun(hash, states, actions) && states[|states| - 1] == s;
    var more, done := states + [s'], actions + [a];
    forall i | 0 <= i < |done| ensures UnlockedStep(hash, more[i], done[i], more[i + 1]) {
      if i < |actions| {
        assert UnlockedStep(hash, states[i], actions[i], states[i + 1]);
      }
    }
    assert UnlockedRun(hash, more, done) && more[|more| - 1] == s';
  }

  /** One transaction that has begun takes the lock and reads a key that is empty for it. */
  lemma {:induction false} ReachesRead(hash: Key -> int, s: State, t: nat, row: NewRow, s': State)
    requires UnlockedReach(hash, s) && s.committed == []
    requires t in s.txns && s.txns[t] == Txn(s.txns[t].start, {}, [], Idle) && row.createdAt.None?
    requires s' == s.(txns := s.txns[t := Txn(s.txns[t].start, {hash(row.key)}, [], HasRead(row, None))])
    ensures UnlockedReach(hash, s')
  {
    var start, lock := s.txns[t].start, {hash(row.key)};
    var locked := s.(txns := s.txns[t := Txn(start, lock, [], Locked(row))]);
    assert {} + lock == lock;
    ReachesNext(hash, s, Lock(t, row), locked);
    assert locked.committed + locked.txns[t].own == [];
    assert locked.txns[t := s'.txns[t]] == s'.txns;
    ReachesNext(hash, locked, Read(t, None), s');
  }

  /** It then inserts what it has read and commits. */
  lemma {:induction false} ReachesCommit(hash: Key -> int, s: State, t: nat, row: NewRow, s': State)
    requires UnlockedReach(hash, s) && t in s.txns && s.txns[t].own == [] && s.txns[t].phase == HasRead(row, None)
    requires s' == State(s.committed + [Stamped(row, None, s.txns[t].start)], s.clock, s.txns - {t})
    ensures UnlockedReach(hash, s')
  {
    var x := s.txns[t];
    var inserted := s.(txns := s.txns[t := x.(own := [Stamped(row, None, x.start)], phase := Idle)]);
    assert [] + [Stamped(row, None, x.start)] == [Stamped(row, None, x.start)];
    ReachesNext(hash, s, Insert(t), inserted);
    assert inserted.txns - {t} == s.txns - {t};
    ReachesNext(hash, inserted, Commit(t), s');
  }

  lemma {:induction false} ReachesTwo(hash: Key -> int, startA: int, startB: int)
    requires startA <= startB
    ensures UnlockedReach(hash,
      State([], startB, map[][0 := Txn(startA, {}, [], Idle)][1 := Txn(startB, {}, [], Idle)]))
  {
    var s0 := State([], startA, map[]);
    var s1 := s0.(txns := s0.txns[0 := Txn(startA, {}, [], Idle)]);
    var s2 := s1.(clock := startB);
    ReachesStart(hash, s0);
    ReachesNext(hash, s0, Begin(0), s1);
    ReachesNext(hash, s1, Tick(startB), s2);
    ReachesNext(hash, s2, Begin(1), s2.(txns := s2.txns[1 := Txn(startB, {}, [], Idle)]));
  }

  /** Two transactions insert into one key that is empty, both reading before either commits. */
  lemma {:induction false} ReachesBoth(hash: Key -> int, a: NewRow, b: NewRow, startA: int, startB: int)
    returns (s: State)
    requires a.createdAt.None? && b.createdAt.None? && startA <= startB
    ensures UnlockedReach(hash, s) && s.committed == [Stamped(a, None, startA), Stamped(b, None, startB)]
  {
    var s0 := State([], startB, map[][0 := Txn(startA, {}, [], Idle)][1 := Txn(startB, {}, [], Idle)]);
    ReachesTwo(hash, startA, startB);
    var s1 := s0.(txns := s0.txns[0 := Txn(startA, {hash(a.key)}, [], HasRead(a, None))]);
    ReachesRead(hash, s0, 0, a, s1);
    var s2 := s1.(txns := s1.txns[1 := Txn(startB, {hash(b.key)}, [], HasRead(b, None))]);
    ReachesRead(hash, s1, 1, b, s2);
    var s3 := State([Stamped(a, None, startA)], startB, s2.txns - {0});
    assert [] + [Stamped(a, None, startA)] == [Stamped(a, None, startA)];
    ReachesCommit(hash, s2, 0, a, s3);
    s := State([Stamped(a, None, startA)] + [Stamped(b, None, startB)], startB, s3.txns - {1});
    ReachesCommit(hash, s3, 1, b, s);
  }

  lemma {:induction false} ChainsOfTwo(v: Version, w: Version)
    requires v.key == w.key && v.key.eventLabel.Some?
    ensures ChainsWith([v, w]) <==> Chain([v, w])
  {
    assert [v] + [w] == [v, w] && [w] + [] == [w];
    forall k: Key ensures OfKey([v, w], k) == if k == v.key then [v, w] else [] {
      FilterCons((x: Version) => x.key == k, v, [w]);
      FilterCons((x: Version) => x.key == k, w, []);
    }
  }

  /** Without the lock there is a run that leaves a key with two originals, unless the second
      insert happens to agree with the first and to start later. */
  lemma {:induction false} UnlockedRunMakesTwoOriginals(hash: Key -> int, a: NewRow, b: NewRow, startA: int,
                                                        startB: int)
    returns (s: State)
    requires a.key == b.key && a.key.eventLabel.Some? && a.createdAt.None? && b.createdAt.None? && startA <= startB
    ensures UnlockedReach(hash, s)
    ensures ChainsWith(s.committed) <==>
      a.occurredAt == b.occurredAt && a.createdBy == b.createdBy && startA < startB
  {
    s := ReachesBoth(hash, a, b, startA, startB);
    ChainsOfTwo(s.committed[0], s.committed[1]);
    assert s.committed == [s.committed[0], s.committed[1]];
    assert Chain(s.committed) <==> Follows(s.committed[0], s.committed[1]);
  }
}
