/** Collecting the cuts of an edition: cut events and cut changes, merged by time, drive a
    machine that counts nesting. */
module CollectGaps {
  import opened Intervals
  import opened Options
  import opened Sorting
  import opened RoomEvents
  import C = CutEvents

  /** A stream change of the edition; its time and its data may be missing. */
  datatype CutChange = CutChange(occurredAt: Option<int>, cut: Option<Command>)

  /** An event or a change; no command when a change has no data. */
  datatype Item = Item(command: Option<Command>, at: int)

  const ByTime: (Item, Item) -> bool := (a: Item, b: Item) => a.at <= b.at

  function EventItems(events: seq<Event>): seq<Item> {
    if events == [] then [] else [Item(Some(events[0].body.cut), events[0].occurredAt)] + EventItems(events[1..])
  }

  function ChangeItems(changes: seq<CutChange>): seq<Item>
    requires forall i :: 0 <= i < |changes| ==> changes[i].occurredAt.Some?
  {
    if changes == [] then []
    else [Item(changes[0].cut, changes[0].occurredAt.value)] + ChangeItems(changes[1..])
  }

  function Merged(events: seq<Event>, changes: seq<CutChange>): seq<Item>
    requires forall i :: 0 <= i < |changes| ==> changes[i].occurredAt.Some?
  {
    Sort(ByTime, EventItems(events) + ChangeItems(changes))
  }

  ghost predicate InTimeOrder(items: seq<Item>) {
    forall i, j :: 0 <= i < j < |items| ==> items[i].at <= items[j].at
  }

  /** The merge is in time order, loses nothing, and keeps the order of simultaneous items,
      events before changes. */
  lemma {:induction false} MergedInOrder(events: seq<Event>, changes: seq<CutChange>, t: int)
    requires forall i :: 0 <= i < |changes| ==> changes[i].occurredAt.Some?
    ensures InTimeOrder(Merged(events, changes))
    ensures multiset(Merged(events, changes)) == multiset(EventItems(events) + ChangeItems(changes))
    ensures var at := (x: Item) => x.at == t;
      Filter(at, Merged(events, changes)) == Filter(at, EventItems(events)) + Filter(at, ChangeItems(changes))
  {
    var items := EventItems(events) + ChangeItems(changes);
    var at := (x: Item) => x.at == t;
    SortSorts(ByTime, items);
    assert forall i, j :: 0 <= i < j < |Sort(ByTime, items)| ==> ByTime(Sort(ByTime, items)[i], Sort(ByTime, items)[j]);
    SortKeeps(ByTime, items);
    SortStable(ByTime, at, items);
    FilterConcat(at, EventItems(events), ChangeItems(changes));
  }

  lemma {:induction false} EventItemsNotBefore(events: seq<Event>, low: int)
    requires forall e :: e in events ==> low <= e.occurredAt
    ensures forall x :: x in EventItems(events) ==> low <= x.at
  {
    if events != [] {
      EventItemsNotBefore(events[1..], low);
    }
  }

  lemma {:induction false} ChangeItemsNotBefore(changes: seq<CutChange>, low: int)
    requires forall i :: 0 <= i < |changes| ==> changes[i].occurredAt.Some?
    requires forall c :: c in changes ==> low <= c.occurredAt.value
    ensures forall x :: x in ChangeItems(changes) ==> low <= x.at
  {
    if changes != [] {
      ChangeItemsNotBefore(changes[1..], low);
    }
  }

  lemma {:induction false} MergedNotBefore(events: seq<Event>, changes: seq<CutChange>, low: int)
    requires forall i :: 0 <= i < |changes| ==> changes[i].occurredAt.Some?
    requires forall e :: e in events ==> low <= e.occurredAt
    requires forall c :: c in changes ==> low <= c.occurredAt.value
    ensures forall k :: 0 <= k < |Merged(events, changes)| ==> low <= Merged(events, changes)[k].at
  {
    var merged := Merged(events, changes);
    EventItemsNotBefore(events, low);
    ChangeItemsNotBefore(changes, low);
    SortKeeps(ByTime, EventItems(events) + ChangeItems(changes));
    forall k | 0 <= k < |merged| ensures low <= merged[k].at {
      assert merged[k] in merged;
    }
  }

  // ---- Nesting ---------------------------------------------------------------

  function Delta(item: Item): int {
    if item.command == Some(Start) then 1 else if item.command == Some(Stop) then -1 else 0
  }

  /** Starts minus stops among the first `k` items. */
  function Depth(items: seq<Item>, k: nat): int
    requires k <= |items|
  {
    if k == 0 then 0 else Depth(items, k - 1) + Delta(items[k - 1])
  }

  predicate Known(item: Item) {
    item.command == Some(Start) || item.command == Some(Stop)
  }

  /** The first `n` items hold known commands and never more stops than starts. */
  ghost predicate Balanced(items: seq<Item>, n: nat)
    requires n <= |items|
  {
    n == 0 || (Balanced(items, n - 1) && Known(items[n - 1]) && Depth(items, n) >= 0)
  }

  lemma {:induction false} BalancedBelow(items: seq<Item>, n: nat, k: nat)
    requires k <= n <= |items| && Balanced(items, n)
    ensures Balanced(items, k) && Depth(items, k) >= 0
    decreases n
  {
    if k < n {
      BalancedBelow(items, n - 1, k);
    }
  }

  lemma {:induction false} BalancedKnown(items: seq<Item>, n: nat, k: nat)
    requires k < n <= |items| && Balanced(items, n)
    ensures Known(items[k])
    decreases n
  {
    if k < n - 1 {
      BalancedKnown(items, n - 1, k);
    }
  }

  /** Known commands only, and no prefix with more stops than starts. */
  ghost predicate PrefixesBalance(items: seq<Item>, n: nat)
    requires n <= |items|
  {
    && (forall k: nat :: k < n ==> Known(items[k]))
    && (forall k: nat :: k <= n ==> Depth(items, k) >= 0)
  }

  lemma {:induction false} BalancedIfPrefixes(items: seq<Item>, n: nat)
    requires n <= |items| && PrefixesBalance(items, n)
    ensures Balanced(items, n)
  {
    if n > 0 {
      BalancedIfPrefixes(items, n - 1);
      assert Known(items[n - 1]) && Depth(items, n) >= 0;
    }
  }

  lemma {:induction false} PrefixesOfBalanced(items: seq<Item>, n: nat)
    requires n <= |items| && Balanced(items, n)
    ensures PrefixesBalance(items, n)
  {
    forall k: nat | k < n ensures Known(items[k]) {
      BalancedKnown(items, n, k);
    }
    forall k: nat | k <= n ensures Depth(items, k) >= 0 {
      BalancedBelow(items, n, k);
    }
  }

  /** The same by position. */
  lemma {:induction false} BalancedByPrefix(items: seq<Item>, n: nat)
    requires n <= |items|
    ensures Balanced(items, n) <==> PrefixesBalance(items, n)
  {
    if Balanced(items, n) {
      PrefixesOfBalanced(items, n);
    } else if PrefixesBalance(items, n) {
      BalancedIfPrefixes(items, n);
    }
  }

  /** The first item that the machine refuses. */
  ghost predicate Offends(items: seq<Item>, k: nat) {
    k < |items| && Balanced(items, k) && !Balanced(items, k + 1)
  }

  /** A maximal stretch of positive depth that comes back to 0. */
  ghost predicate Excursion(items: seq<Item>, i: nat, j: nat)
    requires i < j < |items|
  {
    && Depth(items, i) == 0 && Depth(items, j + 1) == 0
    && forall k :: i < k <= j ==> Depth(items, k) > 0
  }

  /** The item that opened the stretch the first `k` items end in. */
  function Opening(items: seq<Item>, k: nat): (i: nat)
    requires 0 < k <= |items| && Depth(items, k) > 0
    ensures i < k && (i == 0 || Depth(items, i) <= 0)
  {
    if k == 1 || Depth(items, k - 1) <= 0 then k - 1 else Opening(items, k - 1)
  }

  predicate Closes(items: seq<Item>, k: nat)
    requires k < |items|
  {
    Depth(items, k) > 0 && Depth(items, k + 1) == 0
  }

  /** The gaps closed within the first `n` items. */
  function Gaps(items: seq<Item>, n: nat): seq<Interval>
    requires n <= |items|
  {
    if n == 0 then []
    else if Closes(items, n - 1) then
      Gaps(items, n - 1) + [Interval(items[Opening(items, n - 1)].at, items[n - 1].at)]
    else Gaps(items, n - 1)
  }

  /** The positions of their two ends. */
  function Ends(items: seq<Item>, n: nat): seq<(nat, nat)>
    requires n <= |items|
  {
    if n == 0 then []
    else if Closes(items, n - 1) then Ends(items, n - 1) + [(Opening(items, n - 1), n - 1)]
    else Ends(items, n - 1)
  }

  // ---- The machine -------------------------------------------------------------

  datatype State = Started(at: int, nesting: nat) | Stopped

  /** `Panic` stands for a change without the time or the data the code insists on. */
  datatype Outcome = Collected(gaps: seq<Interval>) | Invalid(index: nat) | Panic

  method CollectGaps(cutEvents: seq<Event>, cutChanges: seq<CutChange>) returns (outcome: Outcome)
    ensures (exists i :: 0 <= i < |cutChanges| && cutChanges[i].occurredAt.None?) ==> outcome.Panic?
    ensures (forall i :: 0 <= i < |cutChanges| ==> cutChanges[i].occurredAt.Some?) ==>
      var items := Merged(cutEvents, cutChanges);
      && (outcome.Collected? <==> Balanced(items, |items|))
      && (outcome.Collected? ==> outcome.gaps == Gaps(items, |items|))
      && (outcome.Invalid? ==> Offends(items, outcome.index) && items[outcome.index].command.Some?)
      && (outcome.Panic? ==> exists k: nat :: Offends(items, k) && items[k].command.None?)
  {
    var items: seq<Item> := EventItems(cutEvents);
    for i := 0 to |cutChanges|
      invariant forall j :: 0 <= j < i ==> cutChanges[j].occurredAt.Some?
      invariant items == EventItems(cutEvents) + ChangeItems(cutChanges[..i])
    {
      if cutChanges[i].occurredAt.None? {
        return Panic;
      }
      ChangeItemsSnoc(cutChanges, i);
      items := items + [Item(cutChanges[i].cut, cutChanges[i].occurredAt.value)];
    }
    assert cutChanges[..|cutChanges|] == cutChanges;
    outcome := RunMachine(Sort(ByTime, items));
  }

  method RunMachine(items: seq<Item>) returns (outcome: Outcome)
    ensures outcome.Collected? <==> Balanced(items, |items|)
    ensures outcome.Collected? ==> outcome.gaps == Gaps(items, |items|)
    ensures outcome.Invalid? ==> Offends(items, outcome.index) && items[outcome.index].command.Some?
    ensures outcome.Panic? ==> exists k: nat :: Offends(items, k) && items[k].command.None?
  {
    var gaps: seq<Interval> := [];
    var state := Stopped;
    for k := 0 to |items|
      invariant Balanced(items, k)
      invariant gaps == Gaps(items, k)
      invariant state.Stopped? <==> Depth(items, k) == 0
      invariant state.Started? ==> Depth(items, k) == state.nesting + 1 && state.at == items[Opening(items, k)].at
    {
      var command, at := items[k].command, items[k].at;
      MachineStep(items, k);
      if command.None? {
        return Panic;
      }
      match (command.value, state)
      case (Start, Stopped) =>
        state := Started(at, 0);
      case (Start, Started(start, nesting)) =>
        state := Started(start, nesting + 1);
      case (Stop, Started(start, nesting)) =>
        if nesting == 0 {
          gaps := gaps + [Interval(start, at)];
          state := Stopped;
        } else {
          state := Started(start, nesting - 1);
        }
      case _ =>
        return Invalid(k);
    }
    return Collected(gaps);
  }

  /** What one more item changes. */
  lemma {:induction false} MachineStep(items: seq<Item>, k: nat)
    requires k < |items| && Balanced(items, k)
    ensures Depth(items, k) >= 0 && Depth(items, k + 1) == Depth(items, k) + Delta(items[k])
    ensures Offends(items, k) <==> !Known(items[k]) || Depth(items, k + 1) < 0
    ensures Offends(items, k) ==> !Balanced(items, |items|)
    ensures Depth(items, k) > 0 && Depth(items, k + 1) > 0 ==> Opening(items, k + 1) == Opening(items, k)
    ensures Depth(items, k) == 0 && Depth(items, k + 1) > 0 ==> Opening(items, k + 1) == k
  {
    BalancedBelow(items, k, k);
    if Balanced(items, |items|) {
      BalancedBelow(items, |items|, k + 1);
    }
  }

  lemma {:induction false} ChangeItemsSnoc(changes: seq<CutChange>, i: nat)
    requires i < |changes| && forall j :: 0 <= j <= i ==> changes[j].occurredAt.Some?
    ensures ChangeItems(changes[..i + 1])
         == ChangeItems(changes[..i]) + [Item(changes[i].cut, changes[i].occurredAt.value)]
  {
    if i > 0 {
      ChangeItemsSnoc(changes[1..], i - 1);
      assert changes[1..][..i] == changes[..i + 1][1..] && changes[1..][..i - 1] == changes[..i][1..];
    }
  }

  // ---- What the gaps are ---------------------------------------------------------

  lemma {:induction false} OpeningIsTheOne(items: seq<Item>, i: nat, k: nat)
    requires i < k <= |items| && Depth(items, i) == 0 && forall m :: i < m <= k ==> Depth(items, m) > 0
    ensures Opening(items, k) == i
  {
    if i < k - 1 {
      OpeningIsTheOne(items, i, k - 1);
    }
  }

  lemma {:induction false} OpeningStaysPositive(items: seq<Item>, n: nat, k: nat)
    requires 0 < k <= n <= |items| && Balanced(items, n) && Depth(items, k) > 0
    ensures Depth(items, Opening(items, k)) == 0
    ensures forall m :: Opening(items, k) < m <= k ==> Depth(items, m) > 0
  {
    BalancedBelow(items, n, k - 1);
    if k > 1 && Depth(items, k - 1) > 0 {
      OpeningStaysPositive(items, n, k - 1);
    }
  }

  /** The gaps, in order, belong to exactly the maximal closed excursions of nesting depth
      above 0. */
  lemma {:induction false} EndsAreExcursions(items: seq<Item>, n: nat, i: nat, j: nat)
    requires n <= |items| && Balanced(items, n) && i < j < |items|
    ensures (i, j) in Ends(items, n) <==> j < n && Excursion(items, i, j)
    decreases n
  {
    if n > 0 {
      EndsAreExcursions(items, n - 1, i, j);
      if j == n - 1 {
        if Excursion(items, i, j) {
          OpeningIsTheOne(items, i, j);
        }
        if Closes(items, j) {
          OpeningStaysPositive(items, n, j);
        }
      }
    }
  }

  lemma {:induction false} GapsByEnds(items: seq<Item>, n: nat)
    requires n <= |items|
    ensures |Gaps(items, n)| == |Ends(items, n)|
    ensures forall k :: 0 <= k < |Ends(items, n)| ==>
      var (i, j) := Ends(items, n)[k];
      i < j < n && Gaps(items, n)[k] == Interval(items[i].at, items[j].at)
  {
    if n > 0 {
      GapsByEnds(items, n - 1);
    }
  }

  lemma {:induction false} NothingClosesInside(items: seq<Item>, k: nat)
    requires k < |items| && Depth(items, k) > 0
    ensures Gaps(items, k) == Gaps(items, Opening(items, k))
    ensures Opening(items, k) < k
  {
    if k > 1 && Depth(items, k - 1) > 0 {
      NothingClosesInside(items, k - 1);
    }
  }

  lemma {:induction false} OrderedSnoc(list: seq<Interval>, g: Interval, low: int)
    requires Ordered(list) && StartsFrom(list, low) && low <= g.start <= g.stop
    requires list != [] ==> Last(list).stop <= g.start
    ensures Ordered(list + [g]) && StartsFrom(list + [g], low)
  {
    if list != [] {
      StopsByLast(list);
      OrderedSnoc(list[1..], g, list[0].stop);
      assert (list + [g])[1..] == list[1..] + [g];
      StartsFromLower(list[1..] + [g], list[0].stop, low);
    }
  }

  /** Gaps come out sorted and non-overlapping. */
  lemma {:induction false} GapsOrdered(items: seq<Item>, n: nat, low: int)
    requires n <= |items| && InTimeOrder(items)
    requires forall k :: 0 <= k < |items| ==> low <= items[k].at
    ensures Ordered(Gaps(items, n)) && StartsFrom(Gaps(items, n), low)
    ensures Gaps(items, n) != [] ==> Last(Gaps(items, n)).stop <= items[n - 1].at
  {
    if n > 0 {
      GapsOrdered(items, n - 1, low);
      if Closes(items, n - 1) {
        var o := Opening(items, n - 1);
        NothingClosesInside(items, n - 1);
        GapsOrdered(items, o, low);
        OrderedSnoc(Gaps(items, n - 1), Interval(items[o].at, items[n - 1].at), low);
      }
    }
  }

  lemma {:induction false} CoveredByExcursion(items: seq<Item>, n: nat, i: nat, j: nat, x: int)
    requires i < j < n <= |items| && Excursion(items, i, j)
    requires items[i].at <= x < items[j].at
    ensures Covers(Gaps(items, n), x)
    decreases n
  {
    if j == n - 1 {
      OpeningIsTheOne(items, i, j);
      ConcatCovers(Gaps(items, j), [Interval(items[i].at, items[j].at)], x);
    } else {
      CoveredByExcursion(items, n - 1, i, j, x);
      if Closes(items, n - 1) {
        ConcatCovers(Gaps(items, n - 1), [Interval(items[Opening(items, n - 1)].at, items[n - 1].at)], x);
      }
    }
  }

  lemma {:induction false} ExcursionOfCovered(items: seq<Item>, n: nat, x: int) returns (i: nat, j: nat)
    requires n <= |items| && Balanced(items, n) && Covers(Gaps(items, n), x)
    ensures i < j < n && Excursion(items, i, j) && items[i].at <= x < items[j].at
  {
    if Covers(Gaps(items, n - 1), x) {
      i, j := ExcursionOfCovered(items, n - 1, x);
    } else {
      i, j := Opening(items, n - 1), n - 1;
      ConcatCovers(Gaps(items, n - 1), [Interval(items[i].at, items[j].at)], x);
      OpeningStaysPositive(items, n, j);
    }
  }

  /** The nesting depth at instant `x`, between items `k` and `k + 1`, is positive and comes
      back to 0 at item `m`. */
  ghost predicate NestedAt(items: seq<Item>, x: int, k: nat, m: nat)
    requires k + 1 < |items| && m < |items|
  {
    k < m && items[k].at <= x < items[k + 1].at && Depth(items, k + 1) > 0 && Depth(items, m + 1) == 0
  }

  lemma {:induction false} NeighboursAround(items: seq<Item>, i: nat, j: nat, x: int) returns (k: nat)
    requires i < j < |items| && items[i].at <= x < items[j].at
    ensures i <= k < j && items[k].at <= x < items[k + 1].at
    decreases j
  {
    if items[j - 1].at <= x {
      k := j - 1;
    } else {
      k := NeighboursAround(items, i, j - 1, x);
    }
  }

  lemma {:induction false} FirstReturn(items: seq<Item>, i: nat, k: nat, m: nat) returns (j: nat)
    requires i < k <= m < |items| && Balanced(items, |items|) && Depth(items, m + 1) == 0
    requires forall n :: i < n <= k ==> Depth(items, n) > 0
    ensures k <= j <= m && Depth(items, j + 1) == 0 && forall n :: i < n <= j ==> Depth(items, n) > 0
    decreases m - k
  {
    BalancedBelow(items, |items|, k + 1);
    if Depth(items, k + 1) == 0 {
      j := k;
    } else {
      j := FirstReturn(items, i, k + 1, m);
    }
  }

  lemma {:induction false} NestingOfCovered(items: seq<Item>, x: int) returns (k: nat, m: nat)
    requires Balanced(items, |items|) && Covers(Gaps(items, |items|), x)
    ensures k + 1 < |items| && m < |items| && NestedAt(items, x, k, m)
  {
    var i, j := ExcursionOfCovered(items, |items|, x);
    k := NeighboursAround(items, i, j, x);
    m := j;
  }

  lemma {:induction false} CoveredByNesting(items: seq<Item>, x: int, k: nat, m: nat)
    requires Balanced(items, |items|) && InTimeOrder(items)
    requires k + 1 < |items| && m < |items| && NestedAt(items, x, k, m)
    ensures Covers(Gaps(items, |items|), x)
  {
    OpeningStaysPositive(items, |items|, k + 1);
    var i := Opening(items, k + 1);
    var j := FirstReturn(items, i, k + 1, m);
    CoveredByExcursion(items, |items|, i, j, x);
  }

  /** An instant is cut iff the nesting depth at it is positive and later comes back to 0. */
  lemma {:induction false} GapsAreNesting(items: seq<Item>, x: int)
    requires Balanced(items, |items|) && InTimeOrder(items)
    ensures Covers(Gaps(items, |items|), x) <==>
      exists k: nat, m: nat :: k + 1 < |items| && m < |items| && NestedAt(items, x, k, m)
  {
    if Covers(Gaps(items, |items|), x) {
      var k, m := NestingOfCovered(items, x);
      assert NestedAt(items, x, k, m);
    }
    if k: nat, m: nat :| k + 1 < |items| && m < |items| && NestedAt(items, x, k, m) {
      CoveredByNesting(items, x, k, m);
    }
  }

  /** A start and the stop that brings the depth back to where the start found it. */
  ghost predicate Matched(items: seq<Item>, i: nat, j: nat)
    requires i < j < |items|
  {
    && items[i].command == Some(Start) && items[j].command == Some(Stop)
    && Depth(items, j + 1) == Depth(items, i)
    && forall k :: i < k <= j ==> Depth(items, k) > Depth(items, i)
  }

  /** Instant `x` lies in a matched pair `(i, j)` within a closed excursion `(p, q)`. */
  ghost predicate MatchedAround(items: seq<Item>, x: int, i: nat, j: nat, p: nat, q: nat) {
    && p <= i < j <= q < |items|
    && Matched(items, i, j) && Excursion(items, p, q)
    && items[i].at <= x < items[j].at
  }

  lemma {:induction false} ExcursionIsMatched(items: seq<Item>, i: nat, j: nat)
    requires i < j < |items| && Balanced(items, |items|) && Excursion(items, i, j)
    ensures Matched(items, i, j)
  {
    assert Depth(items, i + 1) == Delta(items[i]) && Depth(items, j + 1) == Depth(items, j) + Delta(items[j]);
  }

  /** The gaps together are all matched start and stop intervals of closed excursions. */
  lemma {:induction false} GapsAreMatchedPairs(items: seq<Item>, x: int)
    requires Balanced(items, |items|) && InTimeOrder(items)
    ensures Covers(Gaps(items, |items|), x) <==>
      exists i: nat, j: nat, p: nat, q: nat :: MatchedAround(items, x, i, j, p, q)
  {
    if Covers(Gaps(items, |items|), x) {
      var i, j := ExcursionOfCovered(items, |items|, x);
      ExcursionIsMatched(items, i, j);
      assert MatchedAround(items, x, i, j, i, j);
    }
    if i: nat, j: nat, p: nat, q: nat :| MatchedAround(items, x, i, j, p, q) {
      CoveredByPair(items, x, i, j, p, q);
    }
  }

  lemma {:induction false} CoveredByPair(items: seq<Item>, x: int, i: nat, j: nat, p: nat, q: nat)
    requires Balanced(items, |items|) && InTimeOrder(items) && MatchedAround(items, x, i, j, p, q)
    ensures Covers(Gaps(items, |items|), x)
  {
    assert items[p].at <= items[i].at && items[j].at <= items[q].at;
    CoveredByExcursion(items, |items|, p, q, x);
  }

  // ---- Agreement with the flat machine --------------------------------------------

  function ItemsOf(marks: seq<C.Mark>): (r: seq<Item>)
    ensures |r| == |marks|
    ensures forall i :: 0 <= i < |marks| ==> r[i] == Item(Some(marks[i].cut), marks[i].at)
  {
    seq(|marks|, i requires 0 <= i < |marks| => Item(Some(marks[i].cut), marks[i].at))
  }

  predicate Alternating(marks: seq<C.Mark>) {
    forall i :: 0 <= i < |marks| ==> marks[i].cut == if i % 2 == 0 then Start else Stop
  }

  lemma {:induction false} AlternatingDepth(marks: seq<C.Mark>, n: nat)
    requires n <= |marks| && Alternating(marks)
    ensures Depth(ItemsOf(marks), n) == n % 2
    ensures Balanced(ItemsOf(marks), n)
  {
    if n > 0 {
      AlternatingDepth(marks, n - 1);
    }
  }

  lemma {:induction false} AdjacentPairsSnoc(marks: seq<C.Mark>, a: C.Mark)
    requires marks != []
    ensures var last := marks[|marks| - 1];
      C.AdjacentPairs(marks + [a]) == C.AdjacentPairs(marks)
        + (if last.cut == Start && a.cut == Stop then [Interval(last.at, a.at)] else [])
  {
    var rest := marks[1..];
    assert (marks + [a])[1..] == rest + [a];
    if rest != [] {
      AdjacentPairsSnoc(rest, a);
      assert rest[|rest| - 1] == marks[|marks| - 1];
    }
  }

  lemma {:induction false} AlternatingStep(marks: seq<C.Mark>, k: nat)
    requires k < |marks| && Alternating(marks)
    ensures Gaps(ItemsOf(marks), k + 1) == Gaps(ItemsOf(marks), k)
      + (if k % 2 == 1 then [Interval(marks[k - 1].at, marks[k].at)] else [])
  {
    AlternatingDepth(marks, k);
    AlternatingDepth(marks, k + 1);
    if k % 2 == 1 {
      AlternatingDepth(marks, k - 1);
      assert Opening(ItemsOf(marks), k) == k - 1;
    }
  }

  lemma {:induction false} AlternatingPairsStep(marks: seq<C.Mark>, k: nat)
    requires k < |marks| && Alternating(marks)
    ensures C.AdjacentPairs(marks[..k + 1]) == C.AdjacentPairs(marks[..k])
      + (if k % 2 == 1 then [Interval(marks[k - 1].at, marks[k].at)] else [])
  {
    var before := marks[..k];
    assert marks[..k + 1] == before + [marks[k]];
    if k > 0 {
      AdjacentPairsSnoc(before, marks[k]);
      assert before[|before| - 1] == marks[k - 1];
    }
  }

  lemma {:induction false} AlternatingGaps(marks: seq<C.Mark>, n: nat)
    requires n <= |marks| && Alternating(marks)
    ensures Gaps(ItemsOf(marks), n) == C.AdjacentPairs(marks[..n])
  {
    if n > 0 {
      AlternatingGaps(marks, n - 1);
      AlternatingStep(marks, n - 1);
      AlternatingPairsStep(marks, n - 1);
    }
  }

  /** On cuts that alternate, beginning with a start, both machines give the same gaps. */
  lemma {:induction false} AgreesWithFlatMachine(marks: seq<C.Mark>)
    requires Alternating(marks)
    ensures Balanced(ItemsOf(marks), |marks|)
    ensures Gaps(ItemsOf(marks), |marks|) == C.CutGaps(marks)
  {
    AlternatingDepth(marks, |marks|);
    AlternatingGaps(marks, |marks|);
    assert marks[..|marks|] == marks;
    assert ([C.VIRTUAL_START] + marks)[1..] == marks;
  }
}
