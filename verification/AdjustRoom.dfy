/** The adjustment of a room: events and cuts moved to the line of the recorded segments,
    then the cut parts taken out as well, and the two segment lists that are reported. */
module AdjustRoom {
  import opened Intervals
  import opened Numbers
  import opened Options
  import opened Sorting
  import opened RoomEvents
  import opened CutEvents
  import I = InvertSegments
  import X = Intersect
  import opened Retime
  import opened CloneEvents
  import opened Footage

  const MS := 1_000_000

  /** `room` holds the events of the real-time room, the cut events made from breaks and
      video groups included; `segments`, `rtcOffset` and `offset` are in milliseconds,
      `duration` and `min` in nanoseconds. */
  datatype Job = Job(
    room: seq<Event>,
    segments: seq<Interval>,
    rtcOffset: int,
    duration: nat,
    offset: int,
    min: nat)

  datatype Output = Output(
    originalRoom: seq<Event>,
    modifiedRoom: seq<Event>,
    modifiedSegments: seq<Interval>,
    cutOriginalSegments: seq<Interval>)

  datatype Outcome = Adjusted(output: Output) | NoSegments | CloneFailed | BadCut(index: nat)

  // ---- Units ----------------------------------------------------------------

  function ToNanos(segments: seq<Interval>, rtcOffset: int): (r: seq<Interval>)
    ensures |r| == |segments|
    ensures segments != [] ==> Last(r).stop == (Last(segments).stop + rtcOffset) * MS
  {
    if segments == [] then []
    else [Interval((segments[0].start + rtcOffset) * MS, (segments[0].stop + rtcOffset) * MS)]
         + ToNanos(segments[1..], rtcOffset)
  }

  function ToMillis(list: seq<Interval>): seq<Interval> {
    if list == [] then []
    else [Interval(Div(list[0].start, MS), Div(list[0].stop, MS))] + ToMillis(list[1..])
  }

  /** The same, with no start before 0. */
  function ToMillisFromZero(list: seq<Interval>): seq<Interval> {
    if list == [] then []
    else [Interval(Max(Div(list[0].start, MS), 0), Div(list[0].stop, MS))] + ToMillisFromZero(list[1..])
  }

  /** Units by position. */
  lemma {:induction false} ToNanosAt(segments: seq<Interval>, rtcOffset: int, i: nat)
    requires i < |segments|
    ensures ToNanos(segments, rtcOffset)[i]
         == Interval((segments[i].start + rtcOffset) * 1_000_000, (segments[i].stop + rtcOffset) * 1_000_000)
  {
    if i > 0 {
      ToNanosAt(segments[1..], rtcOffset, i - 1);
    }
  }

  /** Truncation; from 0 on it rounds down. */
  lemma {:induction false} ToMillisAt(list: seq<Interval>)
    ensures |ToMillis(list)| == |ToMillisFromZero(list)| == |list|
    ensures forall i :: 0 <= i < |list| && 0 <= list[i].start <= list[i].stop ==>
      ToMillis(list)[i] == ToMillisFromZero(list)[i] == Interval(list[i].start / 1_000_000, list[i].stop / 1_000_000)
    ensures forall i :: 0 <= i < |list| && list[i].start < 0 <= list[i].stop ==>
      && ToMillis(list)[i] == Interval(-(-list[i].start / 1_000_000), list[i].stop / 1_000_000)
      && ToMillisFromZero(list)[i] == Interval(0, list[i].stop / 1_000_000)
  {
    if list != [] {
      ToMillisAt(list[1..]);
    }
  }

  // ---- What each step computes ------------------------------------------------

  function SegmentGaps(job: Job): seq<Interval> {
    I.Inverted(ToNanos(job.segments, job.rtcOffset), job.duration, job.min)
  }

  function Cuts(job: Job): seq<Interval> {
    CutGaps(MarksOf(ListCuts(job.room)))
  }

  /** The cut events as read back from the original room. */
  function ClonedMarks(job: Job): seq<Mark> {
    match Clone(job.room, SegmentGaps(job), 0)
    case Some(room) => MarksOf(ListCuts(room))
    case None => []
  }

  function ClonedCuts(job: Job): seq<Interval> {
    CutGaps(ClonedMarks(job))
  }

  /** The adjustment in the terms of the footage comparison, for cuts as read from the room. */
  function FootageWith(job: Job, cuts: seq<Interval>): Input {
    Input(ToNanos(job.segments, job.rtcOffset), job.rtcOffset * MS, job.duration, job.min, cuts)
  }

  function FootageOf(job: Job): Input {
    FootageWith(job, Cuts(job))
  }

  /** The segments of the modified room before truncation, for cuts as read from its source. */
  function ModifiedWith(job: Job, cuts: seq<Interval>): seq<Interval> {
    I.Inverted(cuts, TotalLength(job.segments) * MS, job.min)
  }

  function ModifiedNanos(job: Job): seq<Interval> {
    ModifiedWith(job, ClonedCuts(job))
  }

  ghost predicate AdjustedAs(job: Job, o: Output) {
    && job.segments != []
    && Clone(job.room, SegmentGaps(job), 0) == Some(o.originalRoom)
    && var modifiedRoom := Clone(o.originalRoom, ClonedCuts(job), job.offset * MS);
    && modifiedRoom.Some?
    && o.modifiedRoom == WithoutStreams(modifiedRoom.value)
    && o.modifiedSegments == ToMillisFromZero(ModifiedNanos(job))
    && o.cutOriginalSegments == ToMillis(CutOriginal(FootageOf(job)))
  }

  predicate AllKnown(marks: seq<Mark>) {
    FirstUnknown(marks) == |marks|
  }

  /** Both queries succeed and every cut event holds a known command. */
  predicate Succeeds(job: Job) {
    && job.segments != []
    && Clone(job.room, SegmentGaps(job), 0).Some?
    && AllKnown(ClonedMarks(job)) && AllKnown(MarksOf(ListCuts(job.room)))
    && Clone(Clone(job.room, SegmentGaps(job), 0).value, ClonedCuts(job), job.offset * MS).Some?
  }

  // ---- The steps ------------------------------------------------------------

  method CutOriginalSegments(job: Job) returns (r: Result<seq<Interval>>)
    requires job.segments != []
    ensures r.Ok? <==> AllKnown(MarksOf(ListCuts(job.room)))
    ensures r.Ok? ==> r.value == ToMillis(CutOriginal(FootageOf(job)))
    ensures r.Invalid? ==> r.index < |ListCuts(job.room)| && ListCuts(job.room)[r.index].body.cut == Unknown
  {
    var lag, finish := job.rtcOffset * MS, job.segments[|job.segments| - 1].stop * MS;
    var cuts := CutEventsToGaps(ListCuts(job.room));
    if cuts.Invalid? {
      return cuts;
    }
    ghost var v := FootageOf(job);
    assert finish == Finish(v) - v.lag;
    var uncut := I.InvertSegments(Translate(cuts.value, -lag), finish, job.min);
    assert uncut == Uncut(v);
    var both := X.Intersect(uncut, Translate(ToNanos(job.segments, job.rtcOffset), -lag));
    return Ok(ToMillis(both));
  }

  method Adjust(job: Job) returns (outcome: Outcome)
    ensures outcome.NoSegments? <==> job.segments == []
    ensures outcome.BadCut? ==> exists e :: e in job.room && IsStream(e) && e.body.cut == Unknown
    ensures outcome.CloneFailed? ==> ZeroStarts(SegmentGaps(job)) > 1 || ZeroStarts(ClonedCuts(job)) > 1
    ensures outcome.Adjusted? <==> Succeeds(job)
    ensures outcome.Adjusted? ==> AdjustedAs(job, outcome.output)
  {
    var segmentGaps := I.InvertSegments(ToNanos(job.segments, job.rtcOffset), job.duration, job.min);
    if job.segments == [] {
      return NoSegments;
    }
    var originalRoom := Clone(job.room, segmentGaps, 0);
    if originalRoom.None? {
      return CloneFailed;
    }
    var cutGaps := CutEventsToGaps(ListCuts(originalRoom.value));
    if cutGaps.Invalid? {
      UnknownInClone(job.room, segmentGaps, cutGaps.index);
      return BadCut(cutGaps.index);
    }
    var cutOriginal := CutOriginalSegments(job);
    if cutOriginal.Invalid? {
      UnknownInRoom(job.room, cutOriginal.index);
      return BadCut(cutOriginal.index);
    }
    var modifiedRoom := Clone(originalRoom.value, cutGaps.value, job.offset * MS);
    if modifiedRoom.None? {
      return CloneFailed;
    }
    var modified := I.InvertSegments(cutGaps.value, TotalLength(job.segments) * MS, job.min);
    return Adjusted(Output(
      originalRoom.value,
      WithoutStreams(modifiedRoom.value),
      ToMillisFromZero(modified),
      cutOriginal.value));
  }

  lemma {:induction false} UnknownInRoom(room: seq<Event>, k: nat)
    requires k < |ListCuts(room)| && ListCuts(room)[k].body.cut == Unknown
    ensures exists e :: e in room && IsStream(e) && e.body.cut == Unknown
  {
    ListCutsInOrder(room);
    assert ListCuts(room)[k] in ListCuts(room);
  }

  lemma {:induction false} UnknownInClone(room: seq<Event>, gaps: seq<Interval>, k: nat)
    requires Clone(room, gaps, 0).Some?
    requires var clone := Clone(room, gaps, 0).value;
      k < |ListCuts(clone)| && ListCuts(clone)[k].body.cut == Unknown
    ensures exists e :: e in room && IsStream(e) && e.body.cut == Unknown
  {
    var clone := Clone(room, gaps, 0).value;
    UnknownInRoom(clone, k);
    var e :| e in clone && IsStream(e) && e.body.cut == Unknown;
    var i :| 0 <= i < |room| && clone[i] == e;
    assert room[i] in room;
  }

  // ---- What the caller has to provide ---------------------------------------

  /** Segments in order and not before the start of the recording or of the room; cut
      events within the room. */
  ghost predicate WellFormedJob(job: Job) {
    && job.segments != [] && Ordered(job.segments)
    && StartsFrom(job.segments, 0) && StartsFrom(job.segments, -job.rtcOffset)
    && (forall e :: e in job.room && IsStream(e) ==> 0 <= e.occurredAt <= job.duration)
  }

  lemma {:induction false} ToNanosShape(segments: seq<Interval>, rtcOffset: int, low: int)
    requires Ordered(segments) && StartsFrom(segments, low)
    ensures Ordered(ToNanos(segments, rtcOffset))
    ensures StartsFrom(ToNanos(segments, rtcOffset), (low + rtcOffset) * MS)
    ensures TotalLength(ToNanos(segments, rtcOffset)) == TotalLength(segments) * MS
  {
    if segments != [] {
      var g := Interval((segments[0].start + rtcOffset) * MS, (segments[0].stop + rtcOffset) * MS);
      ToNanosShape(segments[1..], rtcOffset, segments[0].stop);
      OrderedCons(g, ToNanos(segments[1..], rtcOffset));
      StartsFromLower([g] + ToNanos(segments[1..], rtcOffset), g.start, (low + rtcOffset) * MS);
      assert ToNanos(segments, rtcOffset)[1..] == ToNanos(segments[1..], rtcOffset);
    }
  }

  lemma {:induction false} ListCutsIsReading(room: seq<Event>)
    ensures Reading(room, ListCuts(room))
  {
    ListCutsInOrder(room);
  }

  lemma {:induction false} ReadMarks(room: seq<Event>, list: seq<Event>)
    requires Reading(room, list)
    ensures InTimeOrder(MarksOf(list))
    ensures forall i :: 0 <= i < |list| ==> list[i] in room && IsStream(list[i])
  {
    forall i | 0 <= i < |list| ensures list[i] in room && IsStream(list[i]) {
      ReadFromRoom(room, list, i);
    }
    forall i, j | 0 <= i < j < |list| ensures list[i].occurredAt <= list[j].occurredAt {
      ReadInOrder(room, list, i, j);
    }
  }

  lemma {:induction false} ReadingIsWellFormed(job: Job, list: seq<Event>)
    requires WellFormedJob(job) && Reading(job.room, list)
    ensures var v := FootageWith(job, CutGaps(MarksOf(list)));
      WellFormed(v) && CutsWithinRoom(v) && Gaps(v) == SegmentGaps(job)
    ensures Ordered(SegmentGaps(job)) && StartsFrom(SegmentGaps(job), 0)
  {
    ToNanosShape(job.segments, job.rtcOffset, 0);
    ToNanosShape(job.segments, job.rtcOffset, -job.rtcOffset);
    ReadMarks(job.room, list);
    CutGapsOrdered(MarksOf(list));
    CutGapsWithin(MarksOf(list), job.duration);
    GapsShape(FootageWith(job, CutGaps(MarksOf(list))));
  }

  lemma {:induction false} JobIsWellFormed(job: Job)
    requires WellFormedJob(job)
    ensures WellFormed(FootageOf(job)) && CutsWithinRoom(FootageOf(job))
    ensures SegmentGaps(job) == Gaps(FootageOf(job))
    ensures Ordered(SegmentGaps(job)) && StartsFrom(SegmentGaps(job), 0)
  {
    ListCutsIsReading(job.room);
    ReadingIsWellFormed(job, ListCuts(job.room));
  }

  lemma {:induction false} ClonedStream(job: Job, clone: seq<Event>, e: Event)
    requires WellFormedJob(job) && Clone(job.room, SegmentGaps(job), 0) == Some(clone)
    requires e in clone && IsStream(e)
    ensures 0 <= e.occurredAt
  {
    JobIsWellFormed(job);
    CloneShiftsStreams(job.room, clone, SegmentGaps(job));
    var i :| 0 <= i < |clone| && clone[i] == e;
    assert job.room[i] in job.room;
    RetimedShape(SegmentGaps(job), job.room[i].occurredAt, job.room[i].occurredAt);
  }

  /** The cuts read back are in order, whatever became of their ties. */
  lemma {:induction false} ReadCutsShape(job: Job, clone: seq<Event>, read: seq<Event>)
    requires WellFormedJob(job) && Clone(job.room, SegmentGaps(job), 0) == Some(clone) && Reading(clone, read)
    ensures InTimeOrder(MarksOf(read)) && forall i :: 0 <= i < |read| ==> 0 <= MarksOf(read)[i].at
    ensures Ordered(CutGaps(MarksOf(read))) && StartsFrom(CutGaps(MarksOf(read)), 0)
  {
    ReadMarks(clone, read);
    forall i | 0 <= i < |read| ensures 0 <= MarksOf(read)[i].at {
      ClonedStream(job, clone, read[i]);
    }
    CutGapsOrdered(MarksOf(read));
  }

  /** The gaps of the second round are the cuts, re-timed by the first. */
  lemma {:induction false} SecondRoundGaps(job: Job)
    requires WellFormedJob(job) && TiesReadBack(job.room, SegmentGaps(job))
    requires Clone(job.room, SegmentGaps(job), 0).Some?
    ensures ClonedMarks(job) == RetimedMarks(t => Retimed(SegmentGaps(job), t), MarksOf(ListCuts(job.room)))
    ensures ClonedCuts(job) == ShiftedCuts(FootageOf(job))
  {
    var gaps := SegmentGaps(job);
    var f := t => Retimed(SegmentGaps(job), t);
    var marks := MarksOf(ListCuts(job.room));
    JobIsWellFormed(job);
    RetimedIsKept(gaps, 0);
    CutsReadBack(job.room, gaps, Clone(job.room, gaps, 0).value);
    assert ClonedMarks(job) == RetimedMarks(f, marks);
    CutGapsCommute(f, marks);
    RetimedListByIndex(gaps, Cuts(job));
  }

  /** Whatever order the database gives to cut events with equal times: when ties are settled,
      the cuts read back from the clone are those read from the room, re-timed. */
  lemma {:induction false} AnyReadingGaps(job: Job, list: seq<Event>, read: seq<Event>)
    requires WellFormedJob(job) && Clone(job.room, SegmentGaps(job), 0).Some?
    requires Reading(job.room, list) && Reading(Clone(job.room, SegmentGaps(job), 0).value, read)
    requires TiesSettled(list, SegmentGaps(job))
    ensures MarksOf(read) == RetimedMarks(t => Retimed(SegmentGaps(job), t), MarksOf(list))
    ensures CutGaps(MarksOf(read)) == RetimedList(SegmentGaps(job), CutGaps(MarksOf(list)))
  {
    var gaps := SegmentGaps(job);
    var f := t => Retimed(SegmentGaps(job), t);
    var clone := Clone(job.room, gaps, 0).value;
    JobIsWellFormed(job);
    RetimedIsKept(gaps, 0);
    EveryReadingIff(job.room, gaps, clone, list);
    SameStampsSameMarks(gaps, list, read);
    CutGapsCommute(f, MarksOf(list));
    RetimedListByIndex(gaps, CutGaps(MarksOf(list)));
  }

  lemma {:induction false} SameStampsSameMarks(gaps: seq<Interval>, list: seq<Event>, read: seq<Event>)
    requires Map(StampOf, read) == Map(StampOf, Map(Shifting(gaps), list))
    ensures MarksOf(read) == RetimedMarks(t => Retimed(gaps, t), MarksOf(list))
  {
    var moved := Map(Shifting(gaps), list);
    assert |read| == |Map(StampOf, read)| == |moved|;
    forall i | 0 <= i < |read| ensures MarksOf(read)[i] == Mark(list[i].body.cut, Retimed(gaps, list[i].occurredAt)) {
      assert Map(StampOf, read)[i] == Map(StampOf, moved)[i] == StampOf(Shifting(gaps)(list[i]));
    }
  }

  lemma {:induction false} RetimedListByIndex(gaps: seq<Interval>, cuts: seq<Interval>)
    ensures forall i :: 0 <= i < |cuts| ==>
      RetimedList(gaps, cuts)[i] == Interval(Retimed(gaps, cuts[i].start), Retimed(gaps, cuts[i].stop))
  {
    if cuts != [] {
      RetimedListByIndex(gaps, cuts[1..]);
    }
  }

  // ---- Main results, for every order in which the database may list cut events --------

  /** What an adjustment yields when the cut events of the room are listed as `list` and those of
      its clone as `read`. */
  ghost predicate AdjustedFrom(job: Job, list: seq<Event>, read: seq<Event>, o: Output) {
    && job.segments != []
    && Clone(job.room, SegmentGaps(job), 0) == Some(o.originalRoom)
    && Reading(job.room, list) && Reading(o.originalRoom, read)
    && var modifiedRoom := Clone(o.originalRoom, CutGaps(MarksOf(read)), job.offset * MS);
    && modifiedRoom.Some?
    && o.modifiedRoom == WithoutStreams(modifiedRoom.value)
    && o.modifiedSegments == ToMillisFromZero(ModifiedWith(job, CutGaps(MarksOf(read))))
    && o.cutOriginalSegments == ToMillis(CutOriginal(FootageWith(job, CutGaps(MarksOf(list)))))
  }

  /** The cuts read back are the cuts of the room, re-timed. */
  predicate ReadBack(job: Job, list: seq<Event>, read: seq<Event>) {
    CutGaps(MarksOf(read)) == RetimedList(SegmentGaps(job), CutGaps(MarksOf(list)))
  }

  /** In table order they are, when no tie is reversed. */
  lemma {:induction false} AdjustedInTableOrder(job: Job, o: Output)
    requires WellFormedJob(job) && AdjustedAs(job, o)
    ensures AdjustedFrom(job, ListCuts(job.room), ListCuts(o.originalRoom), o)
    ensures TiesReadBack(job.room, SegmentGaps(job)) ==> ReadBack(job, ListCuts(job.room), ListCuts(o.originalRoom))
  {
    ListCutsIsReading(job.room);
    ListCutsIsReading(o.originalRoom);
    JobIsWellFormed(job);
    if TiesReadBack(job.room, SegmentGaps(job)) {
      SecondRoundGaps(job);
    }
  }

  /** The original segments that are reported are those of the footage comparison; the modified
      ones are what the cuts read back leave, and those of the comparison when the cuts read back
      are the cuts of the room. */
  lemma {:induction false} ReportedSegments(job: Job, list: seq<Event>, read: seq<Event>, o: Output, u: nat)
    requires WellFormedJob(job) && AdjustedFrom(job, list, read, o)
    ensures var v, cuts := FootageWith(job, CutGaps(MarksOf(list))), CutGaps(MarksOf(read));
      var modified, total := ModifiedWith(job, cuts), TotalLength(job.segments) * MS;
      && o.cutOriginalSegments == ToMillis(CutOriginal(v))
      && o.modifiedSegments == ToMillisFromZero(modified)
      && (cuts != [] && I.HasTail(cuts, total, job.min) ==>
            (Covers(modified, u) <==> !Covers(cuts, u) && u < Max(Last(cuts).stop, total)))
      && (cuts != [] && !I.HasTail(cuts, total, job.min) ==>
            (Covers(modified, u) <==> !Covers(cuts, u) && u < Last(cuts).stop))
      && (ReadBack(job, list, read) ==> modified == Modified(v))
  {
    var cuts := CutGaps(MarksOf(read));
    ReadingIsWellFormed(job, list);
    ReadCutsShape(job, o.originalRoom, read);
    ToNanosShape(job.segments, job.rtcOffset, 0);
    if cuts != [] {
      I.InvertedCovers(cuts, TotalLength(job.segments) * MS, job.min, u);
    }
  }

  /** Length of the room before `t` that neither the segment gaps nor the cuts take out. */
  ghost function OneStage(job: Job, cuts: seq<Interval>, t: nat): int {
    t - Measure(Points(SegmentGaps(job)) + Points(cuts), t)
  }

  /** What two rounds leave before `t`, the second by the cuts read back. */
  ghost function TwoStages(job: Job, cuts: seq<Interval>, t: nat): nat {
    Kept(cuts, Kept(SegmentGaps(job), t))
  }

  lemma {:induction false} TwoStagesAreOne(job: Job, list: seq<Event>, t: nat)
    requires WellFormedJob(job) && Reading(job.room, list)
    ensures var cuts := CutGaps(MarksOf(list));
      TwoStages(job, RetimedList(SegmentGaps(job), cuts), t) == OneStage(job, cuts, t)
  {
    var gaps, cuts := SegmentGaps(job), CutGaps(MarksOf(list));
    ReadingIsWellFormed(job, list);
    TwoRoundsAreOne(gaps, cuts, t);
    RetimedIsKept(gaps, 0);
    RetimedIsKept(gaps, t);
    RetimedListOrdered(gaps, cuts, 0);
    RetimedIsKept(RetimedList(gaps, cuts), Kept(gaps, t));
  }

  /** What happens to one event.  A cut event goes to exactly the length that two rounds leave
      before it, any other event goes there too, except that spreading ties may push it on: by its
      rank among the events that share its instant in the original room, and again by its rank in
      the modified room, never further.  Nothing else changes.  When the cuts read back are the
      cuts of the room, two rounds leave what neither gaps nor cuts take out. */
  lemma {:induction false} EventTimes(job: Job, list: seq<Event>, read: seq<Event>, o: Output, i: nat)
    requires WellFormedJob(job) && AdjustedFrom(job, list, read, o)
    requires i < |job.room| && 0 <= job.room[i].occurredAt
    ensures var gaps, cuts := SegmentGaps(job), CutGaps(MarksOf(read));
      var t := job.room[i].occurredAt;
      var e, m := o.originalRoom[i], Clone(o.originalRoom, cuts, job.offset * 1_000_000).value[i];
      var r1, r2 := TieRank(job.room, gaps, 0, i), TieRank(o.originalRoom, cuts, job.offset * 1_000_000, i);
      && e.body == m.body == job.room[i].body && e.createdAt == m.createdAt == job.room[i].createdAt
      && e.occurredAt == Kept(gaps, t) + r1
      && TwoStages(job, cuts, t) <= m.occurredAt - job.offset * 1_000_000 <= TwoStages(job, cuts, t) + r1 + r2
      && (IsStream(job.room[i]) ==> r1 == r2 == 0)
      && (ReadBack(job, list, read) ==> TwoStages(job, cuts, t) == OneStage(job, CutGaps(MarksOf(list)), t))
  {
    var gaps, cuts := SegmentGaps(job), CutGaps(MarksOf(read));
    var t := job.room[i].occurredAt;
    ReadingIsWellFormed(job, list);
    ReadCutsShape(job, o.originalRoom, read);
    NewTimeIsRetimedPlusRank(job.room, gaps, 0, i);
    NewTimeIsRetimedPlusRank(o.originalRoom, cuts, job.offset * MS, i);
    RetimedIsKept(gaps, t);
    RetimedIsKept(cuts, Kept(gaps, t));
    RetimedShape(cuts, Kept(gaps, t), o.originalRoom[i].occurredAt);
    TwoStagesAreOne(job, list, t);
  }

  /** Two rounds with the cuts `back` leave what neither the gaps nor `cuts` take out. */
  ghost predicate StagesAgree(job: Job, cuts: seq<Interval>, back: seq<Interval>) {
    forall t: nat | t <= job.duration :: TwoStages(job, back, t) == OneStage(job, cuts, t)
  }

  ghost predicate SameInstants(a: seq<Interval>, b: seq<Interval>, end: nat) {
    forall u: nat | u < end :: Covers(a, u) <==> Covers(b, u)
  }

  lemma {:induction false} StagesShowInstant(job: Job, list: seq<Event>, back: seq<Interval>, u: nat)
    requires WellFormedJob(job) && Reading(job.room, list) && StagesAgree(job, CutGaps(MarksOf(list)), back)
    requires u < Kept(SegmentGaps(job), job.duration)
    ensures Covers(back, u) <==> Covers(RetimedList(SegmentGaps(job), CutGaps(MarksOf(list))), u)
  {
    var gaps, cuts := SegmentGaps(job), CutGaps(MarksOf(list));
    ReadingIsWellFormed(job, list);
    var x := KeptStep(gaps, job.duration, u);
    TwoStagesAreOne(job, list, x);
    TwoStagesAreOne(job, list, x + 1);
    assert TwoStages(job, back, x) == OneStage(job, cuts, x);
    assert TwoStages(job, back, x + 1) == OneStage(job, cuts, x + 1);
    KeptShowsInstant(back, RetimedList(gaps, cuts), u);
  }

  lemma {:induction false} InstantsShowStage(job: Job, list: seq<Event>, back: seq<Interval>, t: nat)
    requires WellFormedJob(job) && Reading(job.room, list) && t <= job.duration
    requires SameInstants(back, RetimedList(SegmentGaps(job), CutGaps(MarksOf(list))),
                          Kept(SegmentGaps(job), job.duration))
    ensures TwoStages(job, back, t) == OneStage(job, CutGaps(MarksOf(list)), t)
  {
    var gaps, moved := SegmentGaps(job), RetimedList(SegmentGaps(job), CutGaps(MarksOf(list)));
    TwoStagesAreOne(job, list, t);
    MeasureGrowth(Complement(Points(gaps)), t, job.duration);
    MeasureCongruent(Complement(Points(back)), Complement(Points(moved)), Kept(gaps, t));
  }

  /** Two rounds take out the gaps and the cuts, no more and no less, exactly when the cuts read back
      cover the instants that the cuts of the room, re-timed, cover. */
  lemma {:induction false} OneStageIff(job: Job, list: seq<Event>, read: seq<Event>)
    requires WellFormedJob(job) && Reading(job.room, list)
    ensures var gaps, cuts, back := SegmentGaps(job), CutGaps(MarksOf(list)), CutGaps(MarksOf(read));
      StagesAgree(job, cuts, back) <==> SameInstants(back, RetimedList(gaps, cuts), Kept(gaps, job.duration))
  {
    var gaps, cuts, back := SegmentGaps(job), CutGaps(MarksOf(list)), CutGaps(MarksOf(read));
    if SameInstants(back, RetimedList(gaps, cuts), Kept(gaps, job.duration)) {
      forall t: nat | t <= job.duration ensures TwoStages(job, back, t) == OneStage(job, cuts, t) {
        InstantsShowStage(job, list, back, t);
      }
    }
    if StagesAgree(job, cuts, back) {
      forall u: nat | u < Kept(gaps, job.duration) ensures Covers(back, u) <==> Covers(RetimedList(gaps, cuts), u) {
        StagesShowInstant(job, list, back, u);
      }
    }
  }

  // ---- Milliseconds ---------------------------------------------------------------

  lemma {:induction false} DivMonotone(a: int, b: int)
    requires a <= b
    ensures Div(a, MS) <= Div(b, MS)
    ensures a >= 0 ==> Div(a, MS) * MS <= a < Div(a, MS) * MS + MS
  {
  }

  /** Truncation keeps the reported lists sorted and non-overlapping. */
  lemma {:induction false} ToMillisOrdered(list: seq<Interval>, low: nat)
    requires Ordered(list) && StartsFrom(list, low)
    ensures Ordered(ToMillis(list)) && StartsFrom(ToMillis(list), Div(low, MS))
    ensures ToMillisFromZero(list) == ToMillis(list)
  {
    if list != [] {
      var g := Interval(Div(list[0].start, MS), Div(list[0].stop, MS));
      DivMonotone(low, list[0].start);
      DivMonotone(list[0].start, list[0].stop);
      ToMillisOrdered(list[1..], list[0].stop);
      OrderedCons(g, ToMillis(list[1..]));
      StartsFromLower([g] + ToMillis(list[1..]), g.start, Div(low, MS));
    }
  }

  /** Truncated lists are sorted, and the one bound that is clamped never needs it. */
  lemma {:induction false} ReportedOrdered(job: Job, list: seq<Event>, read: seq<Event>, o: Output)
    requires WellFormedJob(job) && AdjustedFrom(job, list, read, o)
    ensures Ordered(o.modifiedSegments) && Ordered(o.cutOriginalSegments)
    ensures StartsFrom(o.modifiedSegments, 0) && StartsFrom(o.cutOriginalSegments, 0)
  {
    var v, cuts := FootageWith(job, CutGaps(MarksOf(list))), CutGaps(MarksOf(read));
    ReadingIsWellFormed(job, list);
    ReadCutsShape(job, o.originalRoom, read);
    FinishIsTotal(v);
    ToNanosShape(job.segments, job.rtcOffset, 0);
    I.InvertedOrdered(cuts, TotalLength(job.segments) * MS, job.min);
    CutOriginalShape(v);
    ToMillisOrdered(ModifiedWith(job, cuts), 0);
    ToMillisOrdered(CutOriginal(v), 0);
  }
}
