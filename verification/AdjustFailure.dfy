/** When an adjustment fails: the re-timing query looks for the one gap that starts at 0 and finds
    several. */
module AdjustFailure {
  import opened Intervals
  import opened Options
  import opened Sorting
  import opened RoomEvents
  import opened CutEvents
  import I = InvertSegments
  import opened Retime
  import opened CloneEvents
  import opened Footage
  import opened AdjustRoom

  // ---- Gaps that start at 0 ------------------------------------------------------

  lemma {:induction false} NoZeroStarts(list: seq<Interval>)
    requires StartsFrom(list, 1)
    ensures ZeroStarts(list) == 0
  {
    if list != [] {
      NoZeroStarts(list[1..]);
    }
  }

  /** The first round finds at most one gap at 0 when the first segment is not empty. */
  lemma {:induction false} FirstRoundSucceeds(v: Input)
    requires WellFormed(v) && v.segments[0].start < v.segments[0].stop
    ensures ZeroStarts(Gaps(v)) <= 1
  {
    var rest := I.GapsFrom(v.segments[0].stop, v.segments[1..], v.duration, v.min);
    FinishOnRecording(v);
    I.GapsFromOrdered(v.segments[0].stop, v.segments[1..], v.duration, v.min);
    StartsFromLower(rest, v.segments[0].stop, 1);
    NoZeroStarts(rest);
    assert Gaps(v) != rest ==> Gaps(v)[1..] == rest;
  }

  lemma {:induction false} RetimedToZero(v: Input, t: nat)
    requires WellFormed(v) && v.segments[0].start < v.segments[0].stop
    ensures Retimed(Gaps(v), t) == 0 <==> t <= v.segments[0].start
  {
    var first := v.segments[0].start;
    GapsShape(v);
    FinishOnRecording(v);
    SegmentsSurvive(v, first);
    assert Covers(v.segments, first);
    RetimedIsFootageBefore(v, first);
    forall x: nat | x < first ensures x !in Points(v.segments) {
      StartsFromFirst(v.segments);
      if Covers(v.segments, x) {
        CoveredAfterStart(v.segments, first, x);
      }
    }
    MeasureGrowth(Points(v.segments), 0, first);
    RetimedReflects(Gaps(v), first, t);
    if t <= first {
      RetimedShape(Gaps(v), t, first);
    }
  }

  lemma {:induction false} LateCutsNotAtZero(v: Input, cuts: seq<Interval>, low: nat)
    requires WellFormed(v) && v.segments[0].start < v.segments[0].stop
    requires Ordered(cuts) && StartsFrom(cuts, low) && v.segments[0].start < low
    ensures ZeroStarts(RetimedList(Gaps(v), cuts)) == 0
  {
    if cuts != [] {
      RetimedToZero(v, cuts[0].start);
      LateCutsNotAtZero(v, cuts[1..], cuts[0].stop);
      assert RetimedList(Gaps(v), cuts)[1..] == RetimedList(Gaps(v), cuts[1..]);
    }
  }

  /** The second round finds several gaps at 0, and the query fails, exactly when a second cut
      opens before the recording or with it: re-timing brings both cuts to the same instant. */
  lemma {:induction false} SecondRoundFailsIff(v: Input)
    requires WellFormed(v) && v.segments[0].start < v.segments[0].stop
    ensures ZeroStarts(ShiftedCuts(v)) > 1 <==> |v.cuts| > 1 && v.cuts[1].start <= v.segments[0].start
  {
    var cuts, first := v.cuts, v.segments[0].start;
    var list := ShiftedCuts(v);
    if cuts != [] {
      FinishOnRecording(v);
      RetimedToZero(v, cuts[0].start);
      assert list[1..] == RetimedList(Gaps(v), cuts[1..]);
      if first < cuts[0].stop {
        LateCutsNotAtZero(v, cuts[1..], cuts[0].stop);
      } else if |cuts| > 1 {
        RetimedToZero(v, cuts[1].start);
        assert list[2..] == RetimedList(Gaps(v), cuts[2..]);
        assert list[1..][1..] == list[2..];
        if first < cuts[1].start {
          StartsFromFirst(cuts[1..]);
          LateCutsNotAtZero(v, cuts[1..], cuts[1].start);
        }
      }
    }
  }

  lemma {:induction false} FirstUnknownRetimed(f: int -> int, marks: seq<Mark>)
    ensures FirstUnknown(RetimedMarks(f, marks)) == FirstUnknown(marks)
  {
    if marks != [] {
      FirstUnknownRetimed(f, marks[1..]);
      assert RetimedMarks(f, marks)[1..] == RetimedMarks(f, marks[1..]);
    }
  }

  lemma {:induction false} AllKnownIff(room: seq<Event>)
    ensures AllKnown(MarksOf(ListCuts(room))) <==> forall e :: e in room && IsStream(e) ==> e.body.cut != Unknown
  {
    var list := ListCuts(room);
    ListCutsInOrder(room);
    if AllKnown(MarksOf(list)) {
      forall e | e in room && IsStream(e) ensures e.body.cut != Unknown {
        var i :| 0 <= i < |list| && list[i] == e;
        assert MarksOf(list)[i].cut == e.body.cut;
      }
    } else {
      UnknownInRoom(room, FirstUnknown(MarksOf(list)));
    }
  }

  /** An ordered list has several gaps at 0 exactly when its second gap starts there. */
  lemma {:induction false} SeveralZeroStarts(list: seq<Interval>)
    requires Ordered(list) && StartsFrom(list, 0)
    ensures ZeroStarts(list) > 1 <==> |list| > 1 && list[1].start == 0
  {
    if |list| > 1 {
      var rest := list[1..];
      StopsByLast(rest);
      if list[1].start > 0 {
        StartsFromFirst(rest);
        StartsFromLower(rest, rest[0].start, 1);
        NoZeroStarts(rest);
      }
    }
  }

  /** Whatever the order of the cut events read back, the second query fails exactly when the second
      cut read back starts at 0. */
  lemma {:induction false} QueryFailsIff(job: Job, clone: seq<Event>, read: seq<Event>)
    requires WellFormedJob(job) && Clone(job.room, SegmentGaps(job), 0) == Some(clone) && Reading(clone, read)
    ensures var cuts := CutGaps(MarksOf(read));
      Clone(clone, cuts, job.offset * MS).None? <==> |cuts| > 1 && cuts[1].start == 0
  {
    ReadCutsShape(job, clone, read);
    SeveralZeroStarts(CutGaps(MarksOf(read)));
    if clone == [] {
      assert read == [] by {
        assert |multiset(read)| == |multiset(Filter(Streams, clone))|;
      }
      assert CutGaps([]) == [];
    }
  }

  // ---- The condition on the room ---------------------------------------------------

  /** How often a start is at once followed by a stop. */
  function Closings(commands: seq<Command>): nat {
    if |commands| < 2 then 0
    else (if commands[0] == Start && commands[1] == Stop then 1 else 0) + Closings(commands[1..])
  }

  /** The commands at 0, and the one after them. */
  function ZeroRun(marks: seq<Mark>): (r: seq<Command>)
    ensures marks != [] ==> r != [] && r[0] == marks[0].cut
  {
    if marks == [] then []
    else if marks[0].at > 0 then [marks[0].cut]
    else [marks[0].cut] + ZeroRun(marks[1..])
  }

  lemma {:induction false} LatePairs(marks: seq<Mark>)
    requires InTimeOrder(marks) && (marks != [] ==> marks[0].at > 0)
    ensures ZeroStarts(AdjacentPairs(marks)) == 0
  {
    AdjacentPairsOrdered(marks);
    if marks != [] {
      StartsFromLower(AdjacentPairs(marks), marks[0].at, 1);
      NoZeroStarts(AdjacentPairs(marks));
    }
  }

  lemma {:induction false} ZeroStartsConcat(a: seq<Interval>, b: seq<Interval>)
    ensures ZeroStarts(a + b) == ZeroStarts(a) + ZeroStarts(b)
  {
    if a == [] {
      assert a + b == b;
    } else {
      ZeroStartsConcat(a[1..], b);
      assert (a + b)[1..] == a[1..] + b;
    }
  }

  lemma {:induction false} ZeroRunStep(marks: seq<Mark>)
    requires |marks| >= 2 && marks[0].at <= 0
    ensures Closings(ZeroRun(marks)) ==
      (if marks[0].cut == Start && marks[1].cut == Stop then 1 else 0) + Closings(ZeroRun(marks[1..]))
  {
    var run := ZeroRun(marks[1..]);
    assert ZeroRun(marks) == [marks[0].cut] + run && run[0] == marks[1].cut;
    assert ZeroRun(marks)[1..] == run;
  }

  /** Gaps at 0 are closings among the commands at 0. */
  lemma {:induction false} ZeroStartsAreClosings(marks: seq<Mark>)
    requires InTimeOrder(marks) && forall i :: 0 <= i < |marks| ==> 0 <= marks[i].at
    ensures ZeroStarts(AdjacentPairs(marks)) == Closings(ZeroRun(marks))
  {
    if marks != [] && marks[0].at > 0 {
      LatePairs(marks);
    } else if |marks| >= 2 {
      ZeroStartsAreClosings(marks[1..]);
      ZeroStartsConcat(PairOf(marks[0], marks[1]), AdjacentPairs(marks[1..]));
      ZeroRunStep(marks);
    }
  }

  lemma {:induction false} ZeroCutGaps(marks: seq<Mark>)
    requires InTimeOrder(marks) && forall i :: 0 <= i < |marks| ==> 0 <= marks[i].at
    ensures ZeroStarts(CutGaps(marks)) == Closings([Start] + ZeroRun(marks))
  {
    var all := [VIRTUAL_START] + marks;
    assert all[1..] == marks;
    ZeroStartsAreClosings(all);
  }

  const CutOf: Event -> Command := (e: Event) => e.body.cut

  lemma {:induction false} ZeroRunSplits(early: seq<Event>, late: seq<Event>)
    requires forall i :: 0 <= i < |early| ==> early[i].occurredAt <= 0
    requires late != [] ==> late[0].occurredAt > 0
    ensures ZeroRun(MarksOf(early + late)) == Map(CutOf, early) + (if late == [] then [] else [late[0].body.cut])
  {
    var marks := MarksOf(early + late);
    if early == [] {
      assert early + late == late;
    } else {
      assert early + late == [early[0]] + (early[1..] + late);
      ZeroRunSplits(early[1..], late);
      assert marks[1..] == MarksOf(early[1..] + late);
      assert marks[0] == Mark(early[0].body.cut, early[0].occurredAt);
      assert Map(CutOf, early) == [early[0].body.cut] + Map(CutOf, early[1..]);
      Regroup([early[0].body.cut], Map(CutOf, early[1..]), if late == [] then [] else [late[0].body.cut]);
    }
  }

  /** Where the recording starts on the line of the room. */
  function Beginning(job: Job): int
    requires job.segments != []
  {
    (job.segments[0].start + job.rtcOffset) * MS
  }

  const ByCreation: (Event, Event) -> bool := (e: Event, f: Event) => e.createdAt <= f.createdAt

  /** In order of the instant an event is moved to, and then of creation. */
  function ByRetimed(gaps: seq<Interval>): (Event, Event) -> bool {
    (e: Event, f: Event) => ListedBefore(Shifting(gaps)(e), Shifting(gaps)(f))
  }

  function IsEarly(job: Job): Event -> bool
    requires job.segments != []
  {
    (e: Event) => e.occurredAt <= Beginning(job)
  }

  function IsLate(job: Job): Event -> bool
    requires job.segments != []
  {
    (e: Event) => e.occurredAt > Beginning(job)
  }

  /** The cut events that re-timing brings to 0, in order of creation and then of the table. */
  function EarlyCuts(job: Job): seq<Event>
    requires job.segments != []
  {
    Sort(ByCreation, Filter(IsEarly(job), Filter(Streams, job.room)))
  }

  function LateCuts(job: Job): seq<Event>
    requires job.segments != []
  {
    Sort(ByRetimed(SegmentGaps(job)), Filter(IsLate(job), Filter(Streams, job.room)))
  }

  /** The virtual start, the commands up to the beginning of the recording in order of creation, and
      the first command after it. */
  function EarlyCommands(job: Job): seq<Command>
    requires job.segments != []
  {
    [Start] + (Map(CutOf, EarlyCuts(job)) + (if LateCuts(job) == [] then [] else [LateCuts(job)[0].body.cut]))
  }

  lemma {:induction false} MovedToZero(job: Job, e: Event)
    requires WellFormedJob(job) && job.segments[0].start < job.segments[0].stop
    requires e in job.room && IsStream(e)
    ensures 0 <= Shifting(SegmentGaps(job))(e).occurredAt
    ensures Shifting(SegmentGaps(job))(e).occurredAt == 0 <==> e.occurredAt <= Beginning(job)
  {
    JobIsWellFormed(job);
    RetimedToZero(FootageOf(job), e.occurredAt);
    RetimedShape(SegmentGaps(job), e.occurredAt, e.occurredAt);
  }

  lemma {:induction false} EarlyInOrder(job: Job, early: seq<Event>)
    requires WellFormedJob(job) && job.segments[0].start < job.segments[0].stop
    requires forall e :: e in early ==> e in job.room && IsStream(e) && e.occurredAt <= Beginning(job)
    ensures var f := Shifting(SegmentGaps(job)); Sort(InListOrder, Map(f, early)) == Map(f, Sort(ByCreation, early))
  {
    var f := Shifting(SegmentGaps(job));
    forall i, j | 0 <= i < j < |early|
      ensures ByCreation(early[i], early[j]) <==> InListOrder(f(early[i]), f(early[j]))
    {
      MovedToZero(job, early[i]);
      MovedToZero(job, early[j]);
    }
    SortCommutes(ByCreation, InListOrder, f, early);
  }

  lemma {:induction false} LateInOrder(gaps: seq<Interval>, late: seq<Event>)
    ensures Sort(InListOrder, Map(Shifting(gaps), late)) == Map(Shifting(gaps), Sort(ByRetimed(gaps), late))
  {
    SortCommutes(ByRetimed(gaps), InListOrder, Shifting(gaps), late);
  }

  /** The cut events of the clone are listed in two parts: those that re-timing brings to 0 and the
      others. */
  lemma {:induction false} ClonedInTwoParts(job: Job, clone: seq<Event>)
    requires WellFormedJob(job) && job.segments[0].start < job.segments[0].stop
    requires Clone(job.room, SegmentGaps(job), 0) == Some(clone)
    ensures var f := Shifting(SegmentGaps(job)); ListCuts(clone) == Map(f, EarlyCuts(job)) + Map(f, LateCuts(job))
  {
    var f, streams := Shifting(SegmentGaps(job)), Filter(Streams, job.room);
    var isEarly, isLate := IsEarly(job), IsLate(job);
    var atZero, after0 := (e: Event) => e.occurredAt <= 0, (e: Event) => e.occurredAt > 0;
    CloneShiftsStreams(job.room, clone, SegmentGaps(job));
    StreamsPointwise(job.room, clone, SegmentGaps(job));
    FilterMembers(Streams, job.room);
    forall e | e in streams ensures (isEarly(e) <==> atZero(f(e))) && (isLate(e) <==> after0(f(e))) {
      MovedToZero(job, e);
    }
    FilterMap(isEarly, atZero, f, streams);
    FilterMap(isLate, after0, f, streams);
    SortSplits(InListOrder, atZero, after0, Map(f, streams));
    FilterMembers(isEarly, streams);
    EarlyInOrder(job, Filter(isEarly, streams));
    LateInOrder(SegmentGaps(job), Filter(isLate, streams));
  }

  lemma {:induction false} StreamOfRoom(room: seq<Event>, e: Event)
    requires e in Filter(Streams, room)
    ensures e in room && IsStream(e)
  {
    FilterMembers(Streams, room);
    assert Streams(e);
  }

  lemma {:induction false} EarlyAtZero(job: Job, k: nat)
    requires WellFormedJob(job) && job.segments[0].start < job.segments[0].stop && k < |EarlyCuts(job)|
    ensures Shifting(SegmentGaps(job))(EarlyCuts(job)[k]).occurredAt == 0
  {
    var streams := Filter(Streams, job.room);
    SortedPartAt(ByCreation, IsEarly(job), streams, k);
    StreamOfRoom(job.room, EarlyCuts(job)[k]);
    MovedToZero(job, EarlyCuts(job)[k]);
  }

  lemma {:induction false} FirstLate(job: Job) returns (e: Event)
    requires job.segments != [] && LateCuts(job) != []
    ensures e == LateCuts(job)[0] && e.occurredAt > Beginning(job) && e in Filter(Streams, job.room)
  {
    e := LateCuts(job)[0];
    SortedPartAt(ByRetimed(SegmentGaps(job)), IsLate(job), Filter(Streams, job.room), 0);
  }

  lemma {:induction false} LateAfterZero(job: Job)
    requires WellFormedJob(job) && job.segments[0].start < job.segments[0].stop && LateCuts(job) != []
    ensures Shifting(SegmentGaps(job))(LateCuts(job)[0]).occurredAt > 0
  {
    var e := FirstLate(job);
    StreamOfRoom(job.room, e);
    MovedToZero(job, e);
  }

  lemma {:induction false} CommandsOfClone(job: Job, clone: seq<Event>)
    requires WellFormedJob(job) && job.segments[0].start < job.segments[0].stop
    requires Clone(job.room, SegmentGaps(job), 0) == Some(clone)
    ensures [Start] + ZeroRun(MarksOf(ListCuts(clone))) == EarlyCommands(job)
  {
    var f := Shifting(SegmentGaps(job));
    var early, late := Map(f, EarlyCuts(job)), Map(f, LateCuts(job));
    ClonedInTwoParts(job, clone);
    forall i | 0 <= i < |early| ensures early[i].occurredAt <= 0 {
      EarlyAtZero(job, i);
    }
    if late != [] {
      LateAfterZero(job);
      assert late[0] == f(LateCuts(job)[0]);
    }
    ZeroRunSplits(early, late);
    MapTwice(f, EarlyCuts(job));
  }

  /** The gaps at 0 that the second query finds are the closings among the early commands. */
  lemma {:induction false} ZeroStartsOfClone(job: Job, clone: seq<Event>)
    requires WellFormedJob(job) && job.segments[0].start < job.segments[0].stop
    requires Clone(job.room, SegmentGaps(job), 0) == Some(clone)
    ensures ZeroStarts(ClonedCuts(job)) == Closings(EarlyCommands(job))
  {
    ListCutsIsReading(clone);
    ReadCutsShape(job, clone, ListCuts(clone));
    ZeroCutGaps(MarksOf(ListCuts(clone)));
    CommandsOfClone(job, clone);
  }

  lemma {:induction false} MapTwice(f: Event -> Event, list: seq<Event>)
    requires forall e :: f(e).body == e.body
    ensures Map(CutOf, Map(f, list)) == Map(CutOf, list)
  {
    forall i | 0 <= i < |list| ensures Map(CutOf, Map(f, list))[i] == Map(CutOf, list)[i] {
      assert Map(f, list)[i] == f(list[i]);
    }
  }

  // ---- Main results ------------------------------------------------------------------

  lemma {:induction false} ClonedKnownIff(job: Job, clone: seq<Event>)
    requires Clone(job.room, SegmentGaps(job), 0) == Some(clone)
    ensures AllKnown(MarksOf(ListCuts(clone))) <==> forall e :: e in job.room && IsStream(e) ==> e.body.cut != Unknown
  {
    CloneShiftsStreams(job.room, clone, SegmentGaps(job));
    AllKnownIff(clone);
    forall i | 0 <= i < |clone| ensures clone[i].body == job.room[i].body {
    }
    if forall e :: e in job.room && IsStream(e) ==> e.body.cut != Unknown {
      forall e | e in clone && IsStream(e) ensures e.body.cut != Unknown {
        var i :| 0 <= i < |clone| && clone[i] == e;
        assert job.room[i] in job.room;
      }
    }
    if forall e :: e in clone && IsStream(e) ==> e.body.cut != Unknown {
      forall e | e in job.room && IsStream(e) ensures e.body.cut != Unknown {
        var i :| 0 <= i < |job.room| && job.room[i] == e;
        assert clone[i] in clone;
      }
    }
  }

  /** With a first segment that is not empty, an adjustment succeeds exactly when every cut event
      holds a known command and, among those up to the beginning of the recording, in order of
      creation, at most one start (the virtual one included) is at once followed by a stop. */
  lemma {:induction false} AdjustSucceedsIff(job: Job)
    requires WellFormedJob(job) && job.segments[0].start < job.segments[0].stop
    ensures Succeeds(job) <==>
      && (forall e :: e in job.room && IsStream(e) ==> e.body.cut != Unknown)
      && Closings(EarlyCommands(job)) <= 1
  {
    JobIsWellFormed(job);
    FirstRoundSucceeds(FootageOf(job));
    var clone := Clone(job.room, SegmentGaps(job), 0).value;
    ClonedKnownIff(job, clone);
    AllKnownIff(job.room);
    ZeroStartsOfClone(job, clone);
    ListCutsIsReading(clone);
    QueryFailsIff(job, clone, ListCuts(clone));
    ReadCutsShape(job, clone, ListCuts(clone));
    SeveralZeroStarts(ClonedCuts(job));
  }

  /** When no tie is reversed this means that no second cut opens before the recording or with it. */
  lemma {:induction false} AdjustSucceedsByCuts(job: Job)
    requires WellFormedJob(job) && job.segments[0].start < job.segments[0].stop
    requires TiesReadBack(job.room, SegmentGaps(job))
    ensures Succeeds(job) <==>
      && (forall e :: e in job.room && IsStream(e) ==> e.body.cut != Unknown)
      && !(|Cuts(job)| > 1 && Cuts(job)[1].start <= Beginning(job))
  {
    JobIsWellFormed(job);
    FirstRoundSucceeds(FootageOf(job));
    AdjustSucceedsIff(job);
    SecondRoundGaps(job);
    SecondRoundFailsIff(FootageOf(job));
    ZeroStartsOfClone(job, Clone(job.room, SegmentGaps(job), 0).value);
  }
}
