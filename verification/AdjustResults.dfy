/** The results of an adjustment in the terms of the job alone: its segments, its cut events, its
    offsets in milliseconds. */
module AdjustResults {
  import opened Intervals
  import opened Numbers
  import opened Sorting
  import opened RoomEvents
  import opened CutEvents
  import I = InvertSegments
  import X = Intersect
  import opened Retime
  import opened CloneEvents
  import opened Footage
  import opened AdjustRoom

  // ---- Segments and gaps ----------------------------------------------------------

  lemma {:induction false} RecordedAt(job: Job, x: int)
    ensures Covers(ToNanos(job.segments, job.rtcOffset), x) <==>
      exists i :: 0 <= i < |job.segments|
        && (job.segments[i].start + job.rtcOffset) * 1_000_000 <= x
        && x < (job.segments[i].stop + job.rtcOffset) * 1_000_000
  {
    var list := ToNanos(job.segments, job.rtcOffset);
    CoversByIndex(list, x);
    forall i | 0 <= i < |list|
      ensures list[i].start == (job.segments[i].start + job.rtcOffset) * 1_000_000
      ensures list[i].stop == (job.segments[i].stop + job.rtcOffset) * 1_000_000
    {
      ToNanosAt(job.segments, job.rtcOffset, i);
    }
  }

  /** The first round takes out what is not recorded, but for the end of the room if no more than
      the minimum is left of it after the recording. */
  lemma {:induction false} FirstRoundGaps(job: Job, x: nat)
    requires WellFormedJob(job)
    ensures var finish := (Last(job.segments).stop + job.rtcOffset) * 1_000_000;
      Covers(SegmentGaps(job), x) <==>
        && x < (if job.duration - finish > job.min then job.duration else finish)
        && !exists i :: 0 <= i < |job.segments|
             && (job.segments[i].start + job.rtcOffset) * 1_000_000 <= x
             && x < (job.segments[i].stop + job.rtcOffset) * 1_000_000
  {
    var list := ToNanos(job.segments, job.rtcOffset);
    ToNanosShape(job.segments, job.rtcOffset, 0);
    I.InvertedCovers(list, job.duration, job.min, x);
    RecordedAt(job, x);
  }

  // ---- The original segments that are reported ---------------------------------------

  lemma {:induction false} RecordedOnOwnLine(job: Job, y: int)
    ensures Covers(ToNanos(job.segments, job.rtcOffset), y + job.rtcOffset * 1_000_000) <==>
      exists i :: 0 <= i < |job.segments|
        && job.segments[i].start * 1_000_000 <= y < job.segments[i].stop * 1_000_000
  {
    RecordedAt(job, y + job.rtcOffset * 1_000_000);
    if i :| 0 <= i < |job.segments| && job.segments[i].start * 1_000_000 <= y < job.segments[i].stop * 1_000_000 {
      assert (job.segments[i].start + job.rtcOffset) * 1_000_000 <= y + job.rtcOffset * 1_000_000;
    }
  }

  /** Instant `y` of the recording stays: a segment holds it, the instant of the room it was recorded at
      is not cut, and it comes before the end of the last cut unless more than the minimum is left of
      the recording after that. */
  ghost predicate Stays(job: Job, list: seq<Event>, y: int)
    requires job.segments != []
  {
    && (exists i ::
          0 <= i < |job.segments| && job.segments[i].start * 1_000_000 <= y < job.segments[i].stop * 1_000_000)
    && !CutAt(MarksOf(list), y + job.rtcOffset * 1_000_000)
    && var cuts := CutGaps(MarksOf(list));
       (cuts == []
        || (Last(job.segments).stop + job.rtcOffset) * 1_000_000 - Last(cuts).stop > job.min
        || y + job.rtcOffset * 1_000_000 < Last(cuts).stop)
  }

  lemma {:induction false} ReportedAt(v: Input, x: int, y: int)
    requires WellFormed(v) && x == y + v.lag
    ensures Covers(CutOriginal(v), y) <==>
      Covers(v.segments, x) && !Covers(v.cuts, x)
      && (v.cuts == [] || Finish(v) - Last(v.cuts).stop > v.min || x < Last(v.cuts).stop)
  {
    CutOriginalCovers(v, x);
  }

  lemma {:induction false} StaysIff(job: Job, list: seq<Event>, x: int, y: int)
    requires job.segments != [] && x == y + job.rtcOffset * 1_000_000
    ensures var cuts, segments := CutGaps(MarksOf(list)), ToNanos(job.segments, job.rtcOffset);
      Stays(job, list, y) <==>
        Covers(segments, x) && !Covers(cuts, x)
        && (cuts == [] || Last(segments).stop - Last(cuts).stop > job.min || x < Last(cuts).stop)
  {
    RecordedOnOwnLine(job, y);
    CutGapsPoints(MarksOf(list), x);
  }

  lemma {:induction false} StaysIffReported(job: Job, list: seq<Event>, y: int)
    requires WellFormedJob(job) && Reading(job.room, list)
    ensures Covers(CutOriginal(FootageWith(job, CutGaps(MarksOf(list)))), y) <==> Stays(job, list, y)
  {
    var x := y + job.rtcOffset * 1_000_000;
    ReadingIsWellFormed(job, list);
    ReportedAt(FootageWith(job, CutGaps(MarksOf(list))), x, y);
    StaysIff(job, list, x, y);
  }

  lemma {:induction false} CutOriginalInMillis(job: Job, list: seq<Event>, i: nat)
    requires WellFormedJob(job) && Reading(job.room, list)
    ensures var kept := CutOriginal(FootageWith(job, CutGaps(MarksOf(list))));
      && Ordered(kept) && X.NoneEmpty(kept) && |ToMillis(kept)| == |kept|
      && (i < |kept| ==> ToMillis(kept)[i] == Interval(kept[i].start / 1_000_000, kept[i].stop / 1_000_000))
  {
    var kept := CutOriginal(FootageWith(job, CutGaps(MarksOf(list))));
    ReadingIsWellFormed(job, list);
    CutOriginalShape(FootageWith(job, CutGaps(MarksOf(list))));
    ToMillisAt(kept);
    OrderedByIndex(kept);
    StartsFromByIndex(kept, 0);
  }

  /** The reported original segments are the segments of the job without its cuts, on the line of the
      recording, truncated to milliseconds. */
  lemma {:induction false} CutOriginalByJob(job: Job, list: seq<Event>, read: seq<Event>, o: Output)
    returns (kept: seq<Interval>)
    requires WellFormedJob(job) && AdjustedFrom(job, list, read, o)
    ensures Ordered(kept) && X.NoneEmpty(kept) && forall y: int :: Covers(kept, y) <==> Stays(job, list, y)
    ensures |o.cutOriginalSegments| == |kept| && forall i :: 0 <= i < |kept| ==>
      o.cutOriginalSegments[i] == Interval(kept[i].start / 1_000_000, kept[i].stop / 1_000_000)
  {
    kept := CutOriginal(FootageWith(job, CutGaps(MarksOf(list))));
    CutOriginalInMillis(job, list, 0);
    forall y: int ensures Covers(kept, y) <==> Stays(job, list, y) {
      StaysIffReported(job, list, y);
    }
    forall i: nat | i < |kept|
      ensures o.cutOriginalSegments[i] == Interval(kept[i].start / 1_000_000, kept[i].stop / 1_000_000)
    {
      CutOriginalInMillis(job, list, i);
    }
  }

  // ---- A room without cut events ------------------------------------------------------

  const NotEmpty: Interval -> bool := (g: Interval) => g.start < g.stop

  lemma {:induction false} MergeWithWhole(end: int, list: seq<Interval>)
    requires Ordered(list) && StartsFrom(list, 0) && (list == [] || Last(list).stop <= end)
    ensures X.Merge([Interval(0, end)], list) == Filter(NotEmpty, list)
  {
    if list != [] {
      StopsByLast(list);
      StartsFromLower(list[1..], list[0].stop, 0);
      MergeWithWhole(end, list[1..]);
    }
  }

  const InNanos: Interval -> Interval := (g: Interval) => Interval(g.start * 1_000_000, g.stop * 1_000_000)

  lemma {:induction false} OwnLine(segments: seq<Interval>, rtcOffset: int)
    ensures Translate(ToNanos(segments, rtcOffset), -(rtcOffset * 1_000_000)) == Map(InNanos, segments)
  {
    if segments != [] {
      OwnLine(segments[1..], rtcOffset);
    }
  }

  lemma {:induction false} BackInMillis(list: seq<Interval>)
    requires forall i :: 0 <= i < |list| ==> 0 <= list[i].start <= list[i].stop
    ensures ToMillis(Map(InNanos, list)) == list
  {
    if list != [] {
      BackInMillis(list[1..]);
      MapTail(InNanos, list);
    }
  }

  lemma {:induction false} NoCutEvents(room: seq<Event>, list: seq<Event>)
    requires Reading(room, list) && forall i :: 0 <= i < |room| ==> room[i].body.kind != "stream"
    ensures list == [] && CutGaps(MarksOf(list)) == []
  {
    FilterNone(Streams, room);
    assert |multiset(list)| == 0;
  }

  lemma {:induction false} UncutOfNothing(v: Input)
    requires v.segments != [] && v.cuts == []
    ensures Uncut(v) == [Interval(0, Finish(v) - v.lag)]
  {
    assert Translate([], -v.lag) == [];
  }

  lemma {:induction false} MovedSegments(v: Input)
    requires WellFormed(v)
    ensures var moved := Translate(v.segments, -v.lag);
      Ordered(moved) && StartsFrom(moved, 0) && moved != [] && Last(moved).stop == Finish(v) - v.lag
  {
    TranslateOrdered(v.segments, -v.lag, v.lag);
  }

  lemma {:induction false} MergeUncut(v: Input, both: seq<Interval>, moved: seq<Interval>, end: int)
    requires v.segments != [] && both == CutOriginal(v) && moved == Translate(v.segments, -v.lag)
    requires Uncut(v) == [Interval(0, end)]
    ensures both == X.Merge([Interval(0, end)], moved)
  {
  }

  lemma {:induction false} NothingCut(v: Input, moved: seq<Interval>)
    requires WellFormed(v) && v.cuts == [] && moved == Translate(v.segments, -v.lag)
    ensures CutOriginal(v) == Filter(NotEmpty, moved)
  {
    var end := Finish(v) - v.lag;
    UncutOfNothing(v);
    MovedSegments(v);
    MergeUncut(v, CutOriginal(v), moved, end);
    MergeWithWhole(end, moved);
  }

  lemma {:induction false} NotEmptyInMillis(segments: seq<Interval>)
    requires Ordered(segments) && StartsFrom(segments, 0)
    ensures ToMillis(Filter(NotEmpty, Map(InNanos, segments))) == Filter(NotEmpty, segments)
  {
    var kept := Filter(NotEmpty, segments);
    FilterMap(NotEmpty, NotEmpty, InNanos, segments);
    OrderedByIndex(segments);
    StartsFromByIndex(segments, 0);
    forall i | 0 <= i < |kept| ensures 0 <= kept[i].start <= kept[i].stop {
      FilterMember(NotEmpty, segments, kept[i]);
    }
    BackInMillis(kept);
  }

  lemma {:induction false} UncutFootage(job: Job)
    requires WellFormed(FootageWith(job, []))
    ensures CutOriginal(FootageWith(job, [])) == Filter(NotEmpty, Map(InNanos, job.segments))
  {
    var v := FootageWith(job, []);
    NothingCut(v, Translate(v.segments, -v.lag));
    OwnLine(job.segments, job.rtcOffset);
  }

  /** Without cut events the recording is reported as it is, wherever it starts in the room, but for
      empty segments. */
  lemma {:induction false} UncutRecordingAsGiven(job: Job, list: seq<Event>, read: seq<Event>, o: Output)
    requires WellFormedJob(job) && AdjustedFrom(job, list, read, o)
    requires forall i :: 0 <= i < |job.room| ==> job.room[i].body.kind != "stream"
    ensures o.cutOriginalSegments == Filter(NotEmpty, job.segments)
  {
    NoCutEvents(job.room, list);
    ReadingIsWellFormed(job, list);
    UncutFootage(job);
    NotEmptyInMillis(job.segments);
  }

  // ---- The modified room ----------------------------------------------------------------

  /** The modified segments, before truncation, are what the cuts read back leave of the total length
      of the recording; a rest of at most the minimum after the last cut is dropped. */
  lemma {:induction false} ModifiedByJob(job: Job, list: seq<Event>, read: seq<Event>, o: Output)
    returns (kept: seq<Interval>)
    requires WellFormedJob(job) && AdjustedFrom(job, list, read, o)
    ensures Ordered(kept) && StartsFrom(kept, 0)
    ensures |o.modifiedSegments| == |kept| && forall i :: 0 <= i < |kept| ==>
      o.modifiedSegments[i] == Interval(kept[i].start / 1_000_000, kept[i].stop / 1_000_000)
    ensures forall u: nat :: Covers(kept, u) <==>
      var cuts, total := CutGaps(MarksOf(read)), TotalLength(job.segments) * 1_000_000;
      && !CutAt(MarksOf(read), u)
      && u < if cuts == [] || total - Last(cuts).stop > job.min then total else Last(cuts).stop
  {
    var cuts := CutGaps(MarksOf(read));
    kept := ModifiedWith(job, cuts);
    ModifiedInMillis(job, list, read, o);
    forall u: nat ensures Covers(kept, u) <==>
      && !CutAt(MarksOf(read), u)
      && u < if cuts == [] || TotalLength(job.segments) * 1_000_000 - Last(cuts).stop > job.min
             then TotalLength(job.segments) * 1_000_000 else Last(cuts).stop
    {
      ModifiedAt(job, list, read, o, u);
    }
  }

  lemma {:induction false} ModifiedInMillis(job: Job, list: seq<Event>, read: seq<Event>, o: Output)
    requires WellFormedJob(job) && AdjustedFrom(job, list, read, o)
    ensures var kept := ModifiedWith(job, CutGaps(MarksOf(read)));
      && Ordered(kept) && StartsFrom(kept, 0) && |o.modifiedSegments| == |kept|
      && forall i :: 0 <= i < |kept| ==>
           o.modifiedSegments[i] == Interval(kept[i].start / 1_000_000, kept[i].stop / 1_000_000)
  {
    var cuts, v := CutGaps(MarksOf(read)), FootageWith(job, CutGaps(MarksOf(list)));
    var kept := ModifiedWith(job, cuts);
    ReadingIsWellFormed(job, list);
    ReadCutsShape(job, o.originalRoom, read);
    FinishIsTotal(v);
    ToNanosShape(job.segments, job.rtcOffset, 0);
    I.InvertedOrdered(cuts, TotalLength(job.segments) * MS, job.min);
    ToMillisAt(kept);
    OrderedByIndex(kept);
    StartsFromByIndex(kept, 0);
  }

  lemma {:induction false} ModifiedAt(job: Job, list: seq<Event>, read: seq<Event>, o: Output, u: nat)
    requires WellFormedJob(job) && AdjustedFrom(job, list, read, o)
    ensures var cuts, total := CutGaps(MarksOf(read)), TotalLength(job.segments) * 1_000_000;
      Covers(ModifiedWith(job, cuts), u) <==>
        && !CutAt(MarksOf(read), u)
        && u < if cuts == [] || total - Last(cuts).stop > job.min then total else Last(cuts).stop
  {
    var cuts, total := CutGaps(MarksOf(read)), TotalLength(job.segments) * 1_000_000;
    ReadCutsShape(job, o.originalRoom, read);
    CutGapsPoints(MarksOf(read), u);
    if cuts == [] {
      SingleCovers(Interval(0, total), u);
    } else {
      I.InvertedCovers(cuts, total, job.min, u);
    }
  }

  /** The modified room holds the events of the room that are no cut events, all of them and in order.
      Each keeps its contents; it lies at the length that the two rounds leave before it, pushed on by
      at most its ranks among the ties of each round, plus the offset. */
  lemma {:induction false} ModifiedRoomByJob(job: Job, list: seq<Event>, read: seq<Event>, o: Output)
    returns (at: seq<nat>)
    requires WellFormedJob(job) && AdjustedFrom(job, list, read, o)
    ensures Increasing(at) && |at| == |o.modifiedRoom| && |o.originalRoom| == |job.room|
    ensures forall i: nat :: i < |job.room| ==> (i in at <==> job.room[i].body.kind != "stream")
    ensures forall k :: 0 <= k < |at| ==>
      && at[k] < |job.room| && o.modifiedRoom[k].body == job.room[at[k]].body
      && o.modifiedRoom[k].createdAt == job.room[at[k]].createdAt
      && MovedAsMeant(job, read, o, at[k], o.modifiedRoom[k].occurredAt)
  {
    var modifiedRoom := Clone(o.originalRoom, CutGaps(MarksOf(read)), job.offset * MS).value;
    at := WithoutStreamsKeepsOthers(modifiedRoom);
    forall k | 0 <= k < |at|
      ensures o.modifiedRoom[k].body == job.room[at[k]].body && o.modifiedRoom[k].createdAt == job.room[at[k]].createdAt
      ensures MovedAsMeant(job, read, o, at[k], o.modifiedRoom[k].occurredAt)
    {
      assert o.modifiedRoom[k] == modifiedRoom[at[k]];
      EventMoves(job, list, read, o, at[k]);
    }
  }

  /** Where an event of the modified room has to lie, given where it was. */
  ghost predicate MovedAsMeant(job: Job, read: seq<Event>, o: Output, i: nat, at: int)
    requires i < |job.room| == |o.originalRoom|
  {
    var gaps, cuts, t := SegmentGaps(job), CutGaps(MarksOf(read)), job.room[i].occurredAt;
    0 <= t ==>
      Kept(cuts, Kept(gaps, t)) <= at - job.offset * 1_000_000
        <= Kept(cuts, Kept(gaps, t)) + TieRank(job.room, gaps, 0, i)
           + TieRank(o.originalRoom, cuts, job.offset * 1_000_000, i)
  }

  lemma {:induction false} EventMoves(job: Job, list: seq<Event>, read: seq<Event>, o: Output, i: nat)
    requires WellFormedJob(job) && AdjustedFrom(job, list, read, o) && i < |job.room|
    ensures var e := Clone(o.originalRoom, CutGaps(MarksOf(read)), job.offset * MS).value[i];
      && e.body == job.room[i].body && e.createdAt == job.room[i].createdAt
      && MovedAsMeant(job, read, o, i, e.occurredAt)
  {
    if 0 <= job.room[i].occurredAt {
      EventTimes(job, list, read, o, i);
    }
  }
}
