/** The commit of an edition: cuts collected, events cloned, segments reported. */
module EditionCommit {
  import opened Intervals
  import opened Options
  import opened Sorting
  import opened RoomEvents
  import opened AdjustRoom
  import opened Monotonise
  import Cuts = CollectGaps
  import M = EditionMerge
  import I = InvertSegments

  datatype Outcome = Committed(room: seq<Event>, segments: seq<Interval>) | BadCuts | DanglingChange

  function EventsOf(source: seq<M.Source>): seq<Event> {
    Map((s: M.Source) => s.event, source)
  }

  predicate AllTimed(cutChanges: seq<Cuts.CutChange>) {
    forall i :: 0 <= i < |cutChanges| ==> cutChanges[i].occurredAt.Some?
  }

  /** The collected cuts. */
  function CutGapsOf(source: seq<M.Source>, cutChanges: seq<Cuts.CutChange>): seq<Interval>
    requires AllTimed(cutChanges)
  {
    var items := Cuts.Merged(ListCuts(EventsOf(source)), cutChanges);
    Cuts.Gaps(items, |items|)
  }

  /** The segments before truncation. */
  function SegmentNanos(source: seq<M.Source>, cutChanges: seq<Cuts.CutChange>, duration: nat, min: nat): seq<Interval>
    requires AllTimed(cutChanges)
  {
    I.Inverted(CutGapsOf(source, cutChanges), duration, min)
  }

  ghost predicate CutsBalance(source: seq<M.Source>, cutChanges: seq<Cuts.CutChange>)
    requires AllTimed(cutChanges)
  {
    var items := Cuts.Merged(ListCuts(EventsOf(source)), cutChanges);
    Cuts.Balanced(items, |items|)
  }

  /** `cutChanges` are the stream changes as listed; `duration` and `min` are in nanoseconds,
      `offset` and the reported segments in milliseconds. */
  method Commit(source: seq<M.Source>, changes: seq<M.Change>, cutChanges: seq<Cuts.CutChange>,
                duration: nat, now: int, offset: int, min: nat)
    returns (outcome: Outcome)
    ensures !AllTimed(cutChanges) ==> outcome.BadCuts?
    ensures AllTimed(cutChanges) ==>
      var merged := M.MergedRows(source, changes, CutGapsOf(source, cutChanges), now);
      && (outcome.BadCuts? <==> !CutsBalance(source, cutChanges))
      && (outcome.Committed? <==> CutsBalance(source, cutChanges) && merged.Some?)
      && (outcome.Committed? ==>
            outcome.room == WithoutStreams(M.Committed(merged.value, offset * MS))
            && outcome.segments == ToMillis(SegmentNanos(source, cutChanges, duration, min)))
  {
    var collected := Cuts.CollectGaps(ListCuts(EventsOf(source)), cutChanges);
    if !collected.Collected? {
      return BadCuts;
    }
    var merged := M.MergedRows(source, changes, collected.gaps, now);
    if merged.None? {
      return DanglingChange;
    }
    var segments := I.InvertSegments(collected.gaps, duration, min);
    return Committed(WithoutStreams(M.Committed(merged.value, offset * MS)), ToMillis(segments));
  }

  // ---- When it goes through ---------------------------------------------------------------

  lemma {:induction false} MergesIff(source: seq<M.Source>, changes: seq<M.Change>, gaps: seq<Interval>, now: int)
    ensures M.MergedRows(source, changes, gaps, now).Some? <==>
      forall c :: c in changes && c.Modification? ==> M.Joined(source, changes, c.target)
  {
    forall i | 0 <= i < |changes| && changes[i].Modification?
      ensures M.Dangling(source, changes, changes[i]) <==> !M.Joined(source, changes, changes[i].target)
    {
      if M.Joined(source, changes, changes[i].target) {
        var s :| s in source && s.id == changes[i].target && M.SetSurvives(changes, s.event.body.eventSet);
        var k :| 0 <= k < |source| && source[k] == s;
        assert source[k].id == changes[i].target && M.SetSurvives(changes, source[k].event.body.eventSet);
      }
    }
    if M.MergedRows(source, changes, gaps, now).Some? {
      forall c | c in changes && c.Modification? ensures M.Joined(source, changes, c.target) {
        var i :| 0 <= i < |changes| && changes[i] == c;
        assert !M.Dangling(source, changes, changes[i]);
      }
    } else {
      var i :| 0 <= i < |changes| && M.Dangling(source, changes, changes[i]);
      assert changes[i] in changes;
    }
  }

  /** The commit goes through exactly when, in the order of time with events before changes, all
      commands are known and no stop comes without a start, and every modification aims at a live
      event of the room outside the sets removed in bulk. */
  lemma {:induction false} CommitsIff(source: seq<M.Source>, changes: seq<M.Change>, cutChanges: seq<Cuts.CutChange>,
                                      now: int)
    requires AllTimed(cutChanges)
    ensures (CutsBalance(source, cutChanges)
             && M.MergedRows(source, changes, CutGapsOf(source, cutChanges), now).Some?) <==>
      var items := Cuts.Merged(ListCuts(EventsOf(source)), cutChanges);
      && Cuts.PrefixesBalance(items, |items|)
      && (forall c :: c in changes && c.Modification? ==> M.Joined(source, changes, c.target))
  {
    var items := Cuts.Merged(ListCuts(EventsOf(source)), cutChanges);
    Cuts.BalancedByPrefix(items, |items|);
    MergesIff(source, changes, CutGapsOf(source, cutChanges), now);
  }

  /** A modification of an event whose set the same edition removes: the commit fails. */
  lemma {:induction false} ModificationInRemovedSet(now: int)
    ensures var event := Event(Body("message", "notes", None, Unknown, "old", None, None, false, "user"), 10, 0);
      var change := M.Modification(7, None, None, None, Some(M.Data(Unknown, "new")), None);
      M.MergedRows([M.Source(7, event)], [change, M.BulkRemoval(Some("notes"))], [], now).None?
  {
    var event := Event(Body("message", "notes", None, Unknown, "old", None, None, false, "user"), 10, 0);
    var change := M.Modification(7, None, None, None, Some(M.Data(Unknown, "new")), None);
    var changes := [change, M.BulkRemoval(Some("notes"))];
    assert changes[1].BulkRemoval? && !M.SetSurvives(changes, "notes");
    assert M.Dangling([M.Source(7, event)], changes, changes[0]);
  }

  // ---- Events and segments -------------------------------------------------------------------

  /** Cuts from time 0 on are collected in order. */
  lemma {:induction false} CollectedOrdered(source: seq<M.Source>, cutChanges: seq<Cuts.CutChange>)
    requires AllTimed(cutChanges)
    requires (forall s :: s in source ==> 0 <= s.event.occurredAt)
    requires (forall c :: c in cutChanges ==> 0 <= c.occurredAt.value)
    ensures Ordered(CutGapsOf(source, cutChanges)) && StartsFrom(CutGapsOf(source, cutChanges), 0)
  {
    var events := ListCuts(EventsOf(source));
    var items := Cuts.Merged(events, cutChanges);
    ListCutsInOrder(EventsOf(source));
    forall e | e in events ensures 0 <= e.occurredAt {
      var i :| 0 <= i < |source| && EventsOf(source)[i] == e;
      assert source[i] in source;
    }
    Cuts.MergedInOrder(events, cutChanges, 0);
    Cuts.MergedNotBefore(events, cutChanges, 0);
    Cuts.GapsOrdered(items, |items|, 0);
  }

  /** Up to here the reported segments are what the cuts leave; a tail too short to be reported
      is not part of them. */
  function ReportedEnd(gaps: seq<Interval>, duration: nat, min: nat): int {
    if gaps == [] || I.HasTail(gaps, duration, min) then duration else Last(gaps).stop
  }

  lemma {:induction false} SegmentAt(gaps: seq<Interval>, duration: nat, min: nat, x: nat)
    requires Ordered(gaps) && StartsFrom(gaps, 0)
    ensures 0 <= ReportedEnd(gaps, duration, min)
    ensures Covers(I.Inverted(gaps, duration, min), x) <==> !Covers(gaps, x) && x < ReportedEnd(gaps, duration, min)
    ensures Covers(gaps, x) ==> x < ReportedEnd(gaps, duration, min)
  {
    if gaps == [] {
      SingleCovers(Interval(0, duration), x);
    } else {
      StopsByLast(gaps);
      I.InvertedCovers(gaps, duration, min, x);
      if Covers(gaps, x) {
        InsideHull(gaps, x);
      }
    }
  }

  /** The length that the cuts leave before an instant is the length of the reported segments
      before it exactly up to their end. */
  lemma {:induction false} KeptIsReported(gaps: seq<Interval>, duration: nat, min: nat, t: nat)
    requires Ordered(gaps) && StartsFrom(gaps, 0)
    ensures Measure(Complement(Points(gaps)), t) == Measure(Points(I.Inverted(gaps, duration, min)), t) <==>
      t <= ReportedEnd(gaps, duration, min)
  {
    var segments, rest := Points(I.Inverted(gaps, duration, min)), Complement(Points(gaps));
    SegmentAt(gaps, duration, min, t);
    var end: nat := ReportedEnd(gaps, duration, min);
    forall x: nat | x < t || x < end
      ensures x < end ==> (x in segments <==> x in rest)
      ensures x >= end ==> x !in segments && x in rest
    {
      SegmentAt(gaps, duration, min, x);
    }
    if t <= end {
      MeasureCongruent(segments, rest, t);
    } else {
      MeasureCongruent(segments, rest, end);
      MeasureGrowth(segments, end, t);
      MeasureGrowth(rest, end, t);
    }
  }

  /** A live event that is shown in the clone as it is: no change aims at it, its set is not
      removed, and it is not a cut. */
  ghost predicate Unmodified(source: seq<M.Source>, changes: seq<M.Change>, s: M.Source) {
    && s in source && s.event.body.kind != "stream"
    && (forall i :: 0 <= i < |changes| && (changes[i].Modification? || changes[i].Removal?) ==>
          changes[i].target != s.id)
    && (forall i :: 0 <= i < |changes| && changes[i].BulkRemoval? ==>
          changes[i].eventSet.Some? && changes[i].eventSet.value != s.event.body.eventSet)
  }

  /** Every unmodified event is in the clone, with its contents, at the length of `segments` before
      its old time, then on by its rank among ties and by the offset. */
  ghost predicate FollowsSegments(source: seq<M.Source>, changes: seq<M.Change>, merged: seq<M.Merged>,
                                  segments: seq<Interval>, offset: int, room: seq<Event>) {
    forall k: nat, s | k < |merged| && Unmodified(source, changes, s) && merged[k].origin == M.FromEvent(s.id) ::
      Placed(merged, segments, offset, room, k, s)
  }

  ghost predicate Placed(merged: seq<M.Merged>, segments: seq<Interval>, offset: int, room: seq<Event>,
                         k: nat, s: M.Source)
    requires k < |merged|
  {
    && s.event.occurredAt >= 0
    && var e := M.Committed(merged, offset)[k];
    && e in room
    && e.body == s.event.body.(attribute := None, removed := false) && e.createdAt == s.event.createdAt
    && e.occurredAt == Measure(Points(segments), s.event.occurredAt) + Rank(M.Rows(merged), k) + offset
  }

  lemma {:induction false} UniqueId(source: seq<M.Source>, s: M.Source, t: M.Source)
    requires M.DistinctIds(source) && s in source && t in source && s.id == t.id
    ensures s == t
  {
    var i :| 0 <= i < |source| && source[i] == s;
    var j :| 0 <= j < |source| && source[j] == t;
  }

  lemma {:induction false} PlacedIff(source: seq<M.Source>, changes: seq<M.Change>, gaps: seq<Interval>, now: int,
                                     offset: int, duration: nat, min: nat, k: nat, s: M.Source)
    requires Ordered(gaps) && StartsFrom(gaps, 0) && M.DistinctIds(source)
    requires forall e :: e in source ==> 0 <= e.event.occurredAt
    requires M.MergedRows(source, changes, gaps, now).Some? && Unmodified(source, changes, s)
    requires var merged := M.MergedRows(source, changes, gaps, now).value;
      k < |merged| && merged[k].origin == M.FromEvent(s.id)
    ensures var merged := M.MergedRows(source, changes, gaps, now).value;
      Placed(merged, I.Inverted(gaps, duration, min), offset, WithoutStreams(M.Committed(merged, offset)), k, s) <==>
        s.event.occurredAt <= ReportedEnd(gaps, duration, min)
  {
    var merged := M.MergedRows(source, changes, gaps, now).value;
    var t := M.UnmodifiedSurvivor(source, changes, gaps, now, offset, k);
    UniqueId(source, s, t);
    KeptIsReported(gaps, duration, min, s.event.occurredAt);
    var e := M.Committed(merged, offset)[k];
    FilterMembers((e: Event) => !IsStream(e), M.Committed(merged, offset));
    assert e in M.Committed(merged, offset) && !IsStream(e);
  }

  lemma {:induction false} RowWithOrigin(rows: seq<M.Merged>, o: M.Origin) returns (k: nat)
    requires M.Count(rows, o) > 0
    ensures k < |rows| && rows[k].origin == o
  {
    if rows[0].origin == o {
      k := 0;
    } else {
      k := RowWithOrigin(rows[1..], o);
      k := k + 1;
    }
  }

  /** In a committed clone every unmodified event lies at the length of the reported segments before
      its old time, plus its rank among ties and the offset, exactly when none of these events was
      in a tail too short to be reported. */
  lemma {:induction false} CommitFollowsSegments(source: seq<M.Source>, changes: seq<M.Change>,
                                                 cutChanges: seq<Cuts.CutChange>, duration: nat, now: int,
                                                 offset: int, min: nat)
    requires AllTimed(cutChanges) && M.DistinctIds(source)
    requires (forall s :: s in source ==> 0 <= s.event.occurredAt)
    requires (forall c :: c in cutChanges ==> 0 <= c.occurredAt.value)
    requires M.MergedRows(source, changes, CutGapsOf(source, cutChanges), now).Some?
    ensures var gaps := CutGapsOf(source, cutChanges);
      var merged := M.MergedRows(source, changes, gaps, now).value;
      var room := WithoutStreams(M.Committed(merged, offset));
      FollowsSegments(source, changes, merged, SegmentNanos(source, cutChanges, duration, min), offset, room) <==>
        forall s | Unmodified(source, changes, s) :: s.event.occurredAt <= ReportedEnd(gaps, duration, min)
  {
    var gaps := CutGapsOf(source, cutChanges);
    var merged := M.MergedRows(source, changes, gaps, now).value;
    var segments := SegmentNanos(source, cutChanges, duration, min);
    var room := WithoutStreams(M.Committed(merged, offset));
    CollectedOrdered(source, cutChanges);
    forall k: nat, s | k < |merged| && Unmodified(source, changes, s) && merged[k].origin == M.FromEvent(s.id)
      ensures Placed(merged, segments, offset, room, k, s) <==>
        s.event.occurredAt <= ReportedEnd(gaps, duration, min)
    {
      PlacedIff(source, changes, gaps, now, offset, duration, min, k, s);
    }
    forall s | Unmodified(source, changes, s) && FollowsSegments(source, changes, merged, segments, offset, room)
      ensures s.event.occurredAt <= ReportedEnd(gaps, duration, min)
    {
      M.NoneAimed(changes, s.id);
      M.MergeCounts(source, changes, gaps, now, M.FromEvent(s.id));
      assert M.Joined(source, changes, s.id);
      var k := RowWithOrigin(merged, M.FromEvent(s.id));
      assert Placed(merged, segments, offset, room, k, s);
    }
  }

  lemma {:induction false} GapOfTwo(a: Cuts.Item, b: Cuts.Item)
    requires a.command == Some(Start) && b.command == Some(Stop)
    ensures Cuts.Gaps([a, b], 2) == [Interval(a.at, b.at)]
  {
    var items := [a, b];
    assert Cuts.Depth(items, 0) == 0 && Cuts.Depth(items, 1) == 1 && Cuts.Depth(items, 2) == 0;
    assert Cuts.Gaps(items, 0) == [] && Cuts.Gaps(items, 1) == [];
  }

  lemma {:induction false} OnePartCut(source: seq<M.Source>)
    requires forall s :: s in source ==> !IsStream(s.event)
    ensures var cutChanges := [Cuts.CutChange(Some(5 * MS), Some(Start)), Cuts.CutChange(Some(10 * MS), Some(Stop))];
      CutGapsOf(source, cutChanges) == [Interval(5 * MS, 10 * MS)]
  {
    var a, b := Cuts.CutChange(Some(5 * MS), Some(Start)), Cuts.CutChange(Some(10 * MS), Some(Stop));
    var x, y := Cuts.Item(Some(Start), 5 * MS), Cuts.Item(Some(Stop), 10 * MS);
    NoCuts(source);
    assert [a, b][1..] == [b] && [b][1..] == [];
    assert Cuts.ChangeItems([b]) == [y];
    assert Cuts.EventItems([]) + Cuts.ChangeItems([a, b]) == [x, y];
    SortOfSorted(Cuts.ByTime, [x, y]);
    GapOfTwo(x, y);
  }

  lemma {:induction false} NoCuts(source: seq<M.Source>)
    requires forall s :: s in source ==> !IsStream(s.event)
    ensures ListCuts(EventsOf(source)) == []
  {
    var events := EventsOf(source);
    forall i | 0 <= i < |events| ensures !IsStream(events[i]) {
      assert source[i] in source;
    }
    FilterNone(Streams, events);
  }

  /** The part from 5 to 10 ms is cut out of a room of 15 ms that reports no segment of up to 6: an
      event at 14 lies at 9 in the clone, four after the end of the only segment. */
  lemma {:induction false} LateEventLeavesSegments(now: int)
    ensures var body := Body("message", "notes", None, Unknown, "", None, None, false, "user");
      var note := M.Source(1, Event(body, 14 * MS, 0));
      var cutChanges := [Cuts.CutChange(Some(5 * MS), Some(Start)), Cuts.CutChange(Some(10 * MS), Some(Stop))];
      var gaps, segments := CutGapsOf([note], cutChanges), SegmentNanos([note], cutChanges, 15 * MS, 6 * MS);
      && M.MergedRows([note], [], gaps, now).Some?
      && var merged := M.MergedRows([note], [], gaps, now).value;
      && segments == [Interval(0, 5 * MS)]
      && !FollowsSegments([note], [], merged, segments, 0, WithoutStreams(M.Committed(merged, 0)))
  {
    var body := Body("message", "notes", None, Unknown, "", None, None, false, "user");
    var note := M.Source(1, Event(body, 14 * MS, 0));
    var cutChanges := [Cuts.CutChange(Some(5 * MS), Some(Start)), Cuts.CutChange(Some(10 * MS), Some(Stop))];
    var gaps := CutGapsOf([note], cutChanges);
    OnePartCut([note]);
    assert gaps[1..] == [] && I.GapsFrom(10 * MS, [], 15 * MS, 6 * MS) == [];
    assert I.Inverted(gaps, 15 * MS, 6 * MS) == [Interval(0, 5 * MS)];
    assert M.MergedRows([note], [], gaps, now).Some?;
    assert ReportedEnd(gaps, 15 * MS, 6 * MS) == 10 * MS;
    assert Unmodified([note], [], note);
    CommitFollowsSegments([note], [], cutChanges, 15 * MS, now, 0, 6 * MS);
  }
}
