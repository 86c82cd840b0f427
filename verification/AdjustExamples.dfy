/** Recordings on which an adjustment does not do what one would expect.  Times are given in
    milliseconds; unless it is given, all cut events have one time of creation. */
module AdjustExamples {
  import opened Intervals
  import opened Options
  import opened Sorting
  import opened RoomEvents
  import opened CutEvents
  import I = InvertSegments
  import opened Retime
  import opened CloneEvents
  import opened Footage
  import opened AdjustRoom
  import opened AdjustFailure

  function CueMade(cut: Command, at: int, createdAt: int): Event {
    Event(Body(STREAM, STREAM, None, cut, "", None, None, false, "scheduler"), at * MS, createdAt)
  }

  function Cue(cut: Command, at: int): Event {
    CueMade(cut, at, 0)
  }

  function Example(room: seq<Event>, segments: seq<Interval>, duration: nat, min: nat): Job {
    Job(room, segments, 0, duration * MS, 0, min * MS)
  }

  lemma {:induction false} ListedAsTheyStand(room: seq<Event>)
    requires SortedBy(InListOrder, room) && forall e :: e in room ==> IsStream(e)
    ensures ListCuts(room) == room
  {
    FilterAll(Streams, room);
    SortOfSorted(InListOrder, room);
  }

  lemma {:induction false} PairsOfFour(v: Mark, a: Mark, b: Mark, c: Mark)
    ensures AdjacentPairs([v, a, b, c]) == PairOf(v, a) + (PairOf(a, b) + PairOf(b, c))
  {
    assert [v, a, b, c][1..] == [a, b, c] && [a, b, c][1..] == [b, c] && [b, c][1..] == [c];
    assert AdjacentPairs([b, c]) == PairOf(b, c) + AdjacentPairs([c]);
  }

  lemma {:induction false} PairsStep(a: Mark, b: Mark, rest: seq<Mark>)
    ensures AdjacentPairs([a, b] + rest) == PairOf(a, b) + AdjacentPairs([b] + rest)
  {
    assert ([a, b] + rest)[1..] == [b] + rest;
  }

  lemma {:induction false} PairsOfSix(v: Mark, a: Mark, b: Mark, c: Mark, d: Mark, e: Mark)
    ensures AdjacentPairs([v, a, b, c, d, e])
         == PairOf(v, a) + (PairOf(a, b) + (PairOf(b, c) + (PairOf(c, d) + PairOf(d, e))))
  {
    PairsOfFour(b, c, d, e);
    PairsStep(a, b, [c, d, e]);
    PairsStep(v, a, [b, c, d, e]);
    assert [v, a] + [b, c, d, e] == [v, a, b, c, d, e] && [a] + [b, c, d, e] == [a, b] + [c, d, e];
    assert [b] + [c, d, e] == [b, c, d, e];
  }

  function MarkOf(e: Event): Mark { Mark(e.body.cut, e.occurredAt) }

  /** The gaps of three cut events, listed as they stand. */
  lemma {:induction false} GapsOfThree(a: Event, b: Event, c: Event)
    requires IsStream(a) && IsStream(b) && IsStream(c)
    requires a.occurredAt < b.occurredAt < c.occurredAt
    ensures CutGaps(MarksOf(ListCuts([a, b, c])))
         == PairOf(VIRTUAL_START, MarkOf(a)) + (PairOf(MarkOf(a), MarkOf(b)) + PairOf(MarkOf(b), MarkOf(c)))
  {
    ListedAsTheyStand([a, b, c]);
    assert MarksOf([a, b, c]) == [MarkOf(a), MarkOf(b), MarkOf(c)];
    assert [VIRTUAL_START] + [MarkOf(a), MarkOf(b), MarkOf(c)] == [VIRTUAL_START, MarkOf(a), MarkOf(b), MarkOf(c)];
    PairsOfFour(VIRTUAL_START, MarkOf(a), MarkOf(b), MarkOf(c));
  }

  lemma {:induction false} GapsOfFive(a: Event, b: Event, c: Event, d: Event, e: Event)
    ensures CutGaps(MarksOf([a, b, c, d, e]))
         == PairOf(VIRTUAL_START, MarkOf(a)) + (PairOf(MarkOf(a), MarkOf(b))
            + (PairOf(MarkOf(b), MarkOf(c)) + (PairOf(MarkOf(c), MarkOf(d)) + PairOf(MarkOf(d), MarkOf(e)))))
  {
    var marks := [MarkOf(a), MarkOf(b), MarkOf(c), MarkOf(d), MarkOf(e)];
    assert MarksOf([a, b, c, d, e]) == marks;
    assert [VIRTUAL_START] + marks == [VIRTUAL_START, marks[0], marks[1], marks[2], marks[3], marks[4]];
    PairsOfSix(VIRTUAL_START, marks[0], marks[1], marks[2], marks[3], marks[4]);
  }

  lemma {:induction false} RetimedByOne(start: int, stop: int, t: int)
    requires 0 < start <= stop
    ensures Retimed([Interval(start, stop)], t)
         == if t <= start then t else if t <= stop then start else t - (stop - start)
  {
    var gaps := [Interval(start, stop)];
    assert gaps[1..] == [];
    assert !HeadGapReaches(gaps, t);
    assert CoveredBefore(gaps[1..], t) == 0;
  }

  // ---- Two cuts before the recording ------------------------------------------------

  function EarlyBreaks(): Job {
    Example([Cue(Stop, 3), Cue(Start, 5), Cue(Stop, 12)], [Interval(10, 20)], 20, 0)
  }

  lemma EarlyBreaksShape()
    ensures Cuts(EarlyBreaks()) == [Interval(0, 3 * MS), Interval(5 * MS, 12 * MS)]
    ensures WellFormedJob(EarlyBreaks())
  {
    GapsOfThree(Cue(Stop, 3), Cue(Start, 5), Cue(Stop, 12));
  }

  lemma {:induction false} TableOrderReadsBack(room: seq<Event>, gaps: seq<Interval>)
    requires forall i, j | 0 <= i < |room| && 0 <= j < |room| ::
      room[i].createdAt == room[j].createdAt && (room[i].occurredAt < room[j].occurredAt ==> i < j)
    ensures TiesReadBack(room, gaps)
  {
  }

  /** A break that ends, and another that begins, before the recording starts: the adjustment
      fails. */
  lemma SecondRoundMayFail()
    ensures WellFormedJob(EarlyBreaks()) && TiesReadBack(EarlyBreaks().room, SegmentGaps(EarlyBreaks()))
    ensures !Succeeds(EarlyBreaks())
  {
    EarlyBreaksShape();
    TableOrderReadsBack(EarlyBreaks().room, SegmentGaps(EarlyBreaks()));
    AdjustSucceedsByCuts(EarlyBreaks());
  }

  // ---- Cuts before the recording in another order of creation ----------------------------------

  /** A manual cut from 2 to 4 and, made later, a break from 3 to 5, before the recording. */
  function OverlappingCuts(): Job {
    Example([CueMade(Start, 2, 1), CueMade(Stop, 4, 2), CueMade(Start, 3, 3), CueMade(Stop, 5, 4)],
      [Interval(10, 20)], 20, 0)
  }

  /** The same three commands as for early breaks, the first two created the other way round. */
  function LateEntry(): Job {
    Example([CueMade(Stop, 3, 5), CueMade(Start, 5, 4), CueMade(Stop, 12, 6)], [Interval(10, 20)], 20, 0)
  }

  lemma {:induction false} SortCons(x: Event, s: seq<Event>)
    ensures Sort(InListOrder, [x] + s) == Insert(InListOrder, x, Sort(InListOrder, s))
  {
    assert ([x] + s)[1..] == s;
  }

  lemma {:induction false} SwapsFront(c: Event, d: Event, e: Event)
    requires d.occurredAt < c.occurredAt < e.occurredAt
    ensures Sort(InListOrder, [c, d, e]) == [d, c, e]
  {
    SortOfSorted(InListOrder, [d, e]);
    assert [d, e][1..] == [e] && Insert(InListOrder, c, [e]) == [c, e];
    SortCons(c, [d, e]);
    assert [c] + [d, e] == [c, d, e];
  }

  lemma {:induction false} PairsOfFive(v: Mark, a: Mark, b: Mark, c: Mark, d: Mark)
    ensures AdjacentPairs([v, a, b, c, d]) == PairOf(v, a) + (PairOf(a, b) + (PairOf(b, c) + PairOf(c, d)))
  {
    PairsOfFour(a, b, c, d);
    assert [v, a, b, c, d][1..] == [a, b, c, d];
  }

  lemma {:induction false} ListsMiddleFirst(a: Event, b: Event, c: Event, d: Event)
    requires a.occurredAt < c.occurredAt < b.occurredAt < d.occurredAt
    ensures Sort(InListOrder, [a, b, c, d]) == [a, c, b, d]
  {
    SwapsFront(b, c, d);
    SortCons(a, [b, c, d]);
    assert [a] + [b, c, d] == [a, b, c, d];
  }

  /** The gaps of four cut events of which the second and the third are listed the other way round. */
  lemma {:induction false} GapsOfSwapped(a: Event, b: Event, c: Event, d: Event)
    requires IsStream(a) && IsStream(b) && IsStream(c) && IsStream(d)
    requires a.occurredAt < c.occurredAt < b.occurredAt < d.occurredAt
    ensures CutGaps(MarksOf(ListCuts([a, b, c, d])))
         == PairOf(VIRTUAL_START, MarkOf(a))
            + (PairOf(MarkOf(a), MarkOf(c)) + (PairOf(MarkOf(c), MarkOf(b)) + PairOf(MarkOf(b), MarkOf(d))))
  {
    FilterAll(Streams, [a, b, c, d]);
    ListsMiddleFirst(a, b, c, d);
    var marks := [MarkOf(a), MarkOf(c), MarkOf(b), MarkOf(d)];
    assert MarksOf([a, c, b, d]) == marks;
    assert [VIRTUAL_START] + marks == [VIRTUAL_START, marks[0], marks[1], marks[2], marks[3]];
    PairsOfFive(VIRTUAL_START, marks[0], marks[1], marks[2], marks[3]);
  }

  lemma OverlappingCutsShape()
    ensures WellFormedJob(OverlappingCuts()) && Cuts(OverlappingCuts()) == [Interval(3 * MS, 4 * MS)]
  {
    GapsOfSwapped(CueMade(Start, 2, 1), CueMade(Stop, 4, 2), CueMade(Start, 3, 3), CueMade(Stop, 5, 4));
  }

  lemma {:induction false} ClosingsOf(a: Command, rest: seq<Command>)
    requires rest != []
    ensures Closings([a] + rest) == (if a == Start && rest[0] == Stop then 1 else 0) + Closings(rest)
  {
    assert ([a] + rest)[1..] == rest;
  }

  lemma {:induction false} AllEarly(job: Job)
    requires job.segments != [] && SortedBy(ByCreation, job.room)
    requires forall i :: 0 <= i < |job.room| ==> IsStream(job.room[i]) && job.room[i].occurredAt <= Beginning(job)
    ensures EarlyCuts(job) == job.room && LateCuts(job) == []
  {
    FilterAll(Streams, job.room);
    FilterAll(IsEarly(job), job.room);
    FilterNone(IsLate(job), job.room);
    SortOfSorted(ByCreation, job.room);
  }

  lemma {:induction false} FourEarly(job: Job, a: Event, b: Event, c: Event, d: Event)
    requires job.segments != [] && job.room == [a, b, c, d]
    requires IsStream(a) && IsStream(b) && IsStream(c) && IsStream(d)
    requires a.createdAt < b.createdAt < c.createdAt < d.createdAt
    requires a.occurredAt <= Beginning(job) && b.occurredAt <= Beginning(job)
    requires c.occurredAt <= Beginning(job) && d.occurredAt <= Beginning(job)
    ensures EarlyCommands(job) == [Start, a.body.cut, b.body.cut, c.body.cut, d.body.cut]
  {
    AllEarly(job);
    assert Map(CutOf, job.room) == [a.body.cut, b.body.cut, c.body.cut, d.body.cut];
  }

  lemma OverlappingCommands()
    ensures EarlyCommands(OverlappingCuts()) == [Start, Start, Stop, Start, Stop]
  {
    FourEarly(OverlappingCuts(), CueMade(Start, 2, 1), CueMade(Stop, 4, 2), CueMade(Start, 3, 3), CueMade(Stop, 5, 4));
  }

  lemma TwoClosings()
    ensures Closings([Start, Start, Stop, Start, Stop]) == 2
  {
    ClosingsOf(Start, [Stop]);
    ClosingsOf(Stop, [Start, Stop]);
    ClosingsOf(Start, [Stop, Start, Stop]);
    ClosingsOf(Start, [Start, Stop, Start, Stop]);
  }

  lemma OneClosing()
    ensures Closings([Start, Start, Stop, Stop]) == 1
  {
    ClosingsOf(Stop, [Stop]);
    ClosingsOf(Start, [Stop, Stop]);
    ClosingsOf(Start, [Start, Stop, Stop]);
  }

  /** One cut alone makes the adjustment fail: read back in order of creation it becomes two. */
  lemma OneCutMayFail()
    ensures WellFormedJob(OverlappingCuts()) && |Cuts(OverlappingCuts())| == 1 && !Succeeds(OverlappingCuts())
  {
    OverlappingCutsShape();
    OverlappingCommands();
    TwoClosings();
    AdjustSucceedsIff(OverlappingCuts());
  }

  lemma {:induction false} PartsOfThree(p: Event -> bool, a: Event, b: Event, c: Event)
    requires p(a) == p(b) != p(c)
    ensures Filter(p, [a, b, c]) == if p(c) then [c] else [a, b]
  {
    assert [a, b, c] == [a] + ([b] + [c]) && [c] == [c] + [];
    FilterCons(p, a, [b] + [c]);
    FilterCons(p, b, [c]);
    FilterCons(p, c, []);
  }

  lemma {:induction false} LastIsLate(job: Job, a: Event, b: Event, c: Event)
    requires job.segments != [] && job.room == [a, b, c] && IsStream(a) && IsStream(b) && IsStream(c)
    requires a.occurredAt <= Beginning(job) && b.occurredAt <= Beginning(job) < c.occurredAt
    requires b.createdAt < a.createdAt
    ensures EarlyCuts(job) == [b, a] && LateCuts(job) == [c]
  {
    FilterAll(Streams, [a, b, c]);
    PartsOfThree(IsEarly(job), a, b, c);
    PartsOfThree(IsLate(job), a, b, c);
    SortSwapsTwo(a, b);
    SortOfCons(ByRetimed(SegmentGaps(job)), c, []);
    assert [c] + [] == [c];
  }

  lemma {:induction false} SortSwapsTwo(a: Event, b: Event)
    requires b.createdAt < a.createdAt
    ensures Sort(ByCreation, [a, b]) == [b, a]
  {
    assert [a, b][1..] == [b] && [b][1..] == [];
    assert Sort(ByCreation, [b]) == [b];
    assert Insert(ByCreation, a, []) == [a];
  }

  lemma LateEntryCommands()
    ensures EarlyCommands(LateEntry()) == [Start, Start, Stop, Stop]
  {
    LastIsLate(LateEntry(), CueMade(Stop, 3, 5), CueMade(Start, 5, 4), CueMade(Stop, 12, 6));
    assert Map(CutOf, [CueMade(Start, 5, 4), CueMade(Stop, 3, 5)]) == [Start, Stop];
  }

  lemma LateEntryShape()
    ensures WellFormedJob(LateEntry())
    ensures Cuts(LateEntry()) == [Interval(0, 3 * MS), Interval(5 * MS, 12 * MS)]
  {
    GapsOfThree(CueMade(Stop, 3, 5), CueMade(Start, 5, 4), CueMade(Stop, 12, 6));
  }

  lemma LateEntryKnown()
    ensures forall e :: e in LateEntry().room ==> e.body.cut != Unknown
  {
  }

  /** And two that open before it need not: read back in order of creation they become one. */
  lemma TwoEarlyCutsMaySucceed()
    ensures WellFormedJob(LateEntry()) && Succeeds(LateEntry())
    ensures Cuts(LateEntry()) == [Interval(0, 3 * MS), Interval(5 * MS, 12 * MS)]
  {
    LateEntryShape();
    LateEntryCommands();
    OneClosing();
    LateEntryKnown();
    AdjustSucceedsIff(LateEntry());
  }

  // ---- Two tail rules ------------------------------------------------------------------

  function LongPause(): Job {
    Example([Cue(Stop, 0), Cue(Start, 3), Cue(Stop, 10)], [Interval(0, 12), Interval(100, 103)], 103, 5)
  }

  lemma LongPauseShape()
    ensures var v := FootageOf(LongPause());
      && v.cuts == Cuts(LongPause()) == [Interval(0, 0), Interval(3 * MS, 10 * MS)]
      && v.segments == [Interval(0, 12 * MS), Interval(100 * MS, 103 * MS)]
      && Gaps(v) == SegmentGaps(LongPause()) == [Interval(12 * MS, 100 * MS)]
  {
    GapsOfThree(Cue(Stop, 0), Cue(Start, 3), Cue(Stop, 10));
    var given := LongPause().segments;
    assert given[1..] == [Interval(100, 103)];
    var segments := ToNanos(given, 0);
    assert segments == [Interval(0, 12 * MS), Interval(100 * MS, 103 * MS)];
    assert segments[1..] == [Interval(100 * MS, 103 * MS)];
  }

  lemma LongPauseSucceeds()
    ensures WellFormedJob(LongPause()) && TiesReadBack(LongPause().room, SegmentGaps(LongPause()))
    ensures Succeeds(LongPause())
  {
    LongPauseShape();
    assert LongPause().segments[1..] == [Interval(100, 103)];
    TableOrderReadsBack(LongPause().room, SegmentGaps(LongPause()));
    AdjustSucceedsByCuts(LongPause());
  }

  lemma LongPauseTails()
    ensures var v := FootageOf(LongPause()); WellFormedJob(LongPause()) && !TailsAgree(v)
  {
    var v := FootageOf(LongPause());
    LongPauseSucceeds();
    LongPauseShape();
    RetimedByOne(12 * MS, 100 * MS, 10 * MS);
    assert LastCut(v) == 10 * MS;
    assert v.segments[1..] == [Interval(100 * MS, 103 * MS)];
    assert TotalLength(v.segments) == 15 * MS;
  }

  /** The tail after the last cut is long on the recording, which paused in it, and short on the
      re-timed line: only one list reports it. */
  lemma TailsMayDisagree()
    ensures WellFormedJob(LongPause()) && TiesReadBack(LongPause().room, SegmentGaps(LongPause()))
    ensures Succeeds(LongPause()) && !SameFootage(FootageOf(LongPause()))
  {
    LongPauseSucceeds();
    LongPauseTails();
    JobIsWellFormed(LongPause());
    FootageAgrees(FootageOf(LongPause()));
  }

  // ---- A cut in a short tail -------------------------------------------------------------

  function LateCut(): Job {
    Example([Cue(Stop, 0), Cue(Start, 12), Cue(Stop, 14)], [Interval(0, 10)], 15, 6)
  }

  lemma LateCutShape()
    ensures var v := FootageOf(LateCut());
      && v.cuts == Cuts(LateCut()) == [Interval(0, 0), Interval(12 * MS, 14 * MS)]
      && v.segments == [Interval(0, 10 * MS)] && Gaps(v) == SegmentGaps(LateCut()) == []
    ensures WellFormedJob(LateCut())
  {
    GapsOfThree(Cue(Stop, 0), Cue(Start, 12), Cue(Stop, 14));
    assert ToNanos(LateCut().segments, 0) == [Interval(0, 10 * MS)];
  }

  lemma LateCutOutside()
    ensures var v := FootageOf(LateCut()); v.segments != [] && !CutsStayInside(v)
  {
    var v := FootageOf(LateCut());
    LateCutShape();
    assert v.cuts[1..] == [Interval(12 * MS, 14 * MS)];
    assert !StaysInside(0, v.cuts[1..], 10 * MS);
  }

  lemma LateCutSucceeds()
    ensures WellFormedJob(LateCut()) && TiesReadBack(LateCut().room, SegmentGaps(LateCut()))
    ensures Succeeds(LateCut())
  {
    LateCutShape();
    TableOrderReadsBack(LateCut().room, SegmentGaps(LateCut()));
    AdjustSucceedsByCuts(LateCut());
  }

  /** The room goes on a little after the recording, too short to become a gap, and a cut opens
      there: the modified segments run on to it. */
  lemma CutInShortTail()
    ensures WellFormedJob(LateCut()) && TiesReadBack(LateCut().room, SegmentGaps(LateCut()))
    ensures Succeeds(LateCut()) && !SameFootage(FootageOf(LateCut()))
  {
    LateCutSucceeds();
    LateCutOutside();
    JobIsWellFormed(LateCut());
    FootageAgrees(FootageOf(LateCut()));
  }

  // ---- A tie read the other way round ---------------------------------------------------

  /** One part is cut until 5, the next from 7 on; nothing was recorded from 4 to 8.  The row of
      the second cut stands before that of the first. */
  function ReversedTie(): Job {
    Example([Cue(Stop, 0), Cue(Start, 1), Cue(Start, 7), Cue(Stop, 5), Cue(Stop, 20)],
      [Interval(0, 4), Interval(8, 20)], 20, 0)
  }

  lemma ReversedTieListed()
    ensures ListCuts(ReversedTie().room)
         == [Cue(Stop, 0), Cue(Start, 1), Cue(Stop, 5), Cue(Start, 7), Cue(Stop, 20)]
  {
    ListSwapsMiddle(Cue(Stop, 0), Cue(Start, 1), Cue(Start, 7), Cue(Stop, 5), Cue(Stop, 20));
  }

  lemma {:induction false} ListSwapsMiddle(a: Event, b: Event, c: Event, d: Event, e: Event)
    requires IsStream(a) && IsStream(b) && IsStream(c) && IsStream(d) && IsStream(e)
    requires a.occurredAt < b.occurredAt < d.occurredAt < c.occurredAt < e.occurredAt
    ensures ListCuts([a, b, c, d, e]) == [a, b, d, c, e]
  {
    FilterAll(Streams, [a, b, c, d, e]);
    SwapsFront(c, d, e);
    SortCons(b, [c, d, e]);
    assert [b] + [c, d, e] == [b, c, d, e] && Sort(InListOrder, [b, c, d, e]) == [b, d, c, e];
    SortCons(a, [b, c, d, e]);
    assert [a] + [b, c, d, e] == [a, b, c, d, e];
  }

  lemma {:induction false} ListKeepsFive(a: Event, b: Event, c: Event, d: Event, e: Event)
    requires IsStream(a) && IsStream(b) && IsStream(c) && IsStream(d) && IsStream(e)
    requires a.createdAt == b.createdAt == c.createdAt == d.createdAt == e.createdAt
    requires a.occurredAt <= b.occurredAt <= c.occurredAt <= d.occurredAt <= e.occurredAt
    ensures ListCuts([a, b, c, d, e]) == [a, b, c, d, e]
  {
    ListedAsTheyStand([a, b, c, d, e]);
  }

  lemma ReversedTieCuts()
    ensures Cuts(ReversedTie()) == [Interval(0, 0), Interval(1 * MS, 5 * MS), Interval(7 * MS, 20 * MS)]
  {
    ReversedTieListed();
    GapsOfFive(Cue(Stop, 0), Cue(Start, 1), Cue(Stop, 5), Cue(Start, 7), Cue(Stop, 20));
  }

  lemma ReversedTieGaps()
    ensures SegmentGaps(ReversedTie()) == [Interval(4 * MS, 8 * MS)]
    ensures TotalLength(ReversedTie().segments) == 16
    ensures TotalLength(ToNanos(ReversedTie().segments, 0)) == 16 * MS
    ensures WellFormedJob(ReversedTie())
  {
    var job := ReversedTie();
    assert job.segments[1..] == [Interval(8, 20)];
    var nanos := ToNanos(job.segments, 0);
    assert nanos == [Interval(0, 4 * MS), Interval(8 * MS, 20 * MS)];
    assert nanos[1..] == [Interval(8 * MS, 20 * MS)];
  }

  lemma {:induction false} ReversedTieClone(clone: seq<Event>)
    requires Clone(ReversedTie().room, [Interval(4 * MS, 8 * MS)], 0) == Some(clone)
    ensures clone == [Cue(Stop, 0), Cue(Start, 1), Cue(Start, 4), Cue(Stop, 4), Cue(Stop, 16)]
  {
    var room, gaps := ReversedTie().room, [Interval(4 * MS, 8 * MS)];
    CloneShiftsStreams(room, clone, gaps);
    RetimedByOne(4 * MS, 8 * MS, 0);
    RetimedByOne(4 * MS, 8 * MS, 1 * MS);
    RetimedByOne(4 * MS, 8 * MS, 7 * MS);
    RetimedByOne(4 * MS, 8 * MS, 5 * MS);
    RetimedByOne(4 * MS, 8 * MS, 20 * MS);
    assert clone[0] == Shifting(gaps)(room[0]) && clone[1] == Shifting(gaps)(room[1]);
    assert clone[2] == Shifting(gaps)(room[2]) && clone[3] == Shifting(gaps)(room[3]);
    assert clone[4] == Shifting(gaps)(room[4]);
  }

  lemma ReversedTieRead()
    ensures CutGaps(MarksOf(ListCuts(
              [Cue(Stop, 0), Cue(Start, 1), Cue(Start, 4), Cue(Stop, 4), Cue(Stop, 16)])))
         == [Interval(0, 0), Interval(4 * MS, 4 * MS)]
  {
    ListKeepsFive(Cue(Stop, 0), Cue(Start, 1), Cue(Start, 4), Cue(Stop, 4), Cue(Stop, 16));
    GapsOfFive(Cue(Stop, 0), Cue(Start, 1), Cue(Start, 4), Cue(Stop, 4), Cue(Stop, 16));
  }

  lemma ReversedTieClonedCuts()
    ensures ClonedCuts(ReversedTie()) == [Interval(0, 0), Interval(4 * MS, 4 * MS)]
  {
    var job := ReversedTie();
    var gaps := [Interval(4 * MS, 8 * MS)];
    ReversedTieGaps();
    assert gaps[1..] == [] && ZeroStarts(gaps) == 0;
    ReversedTieClone(Clone(job.room, gaps, 0).value);
    ReversedTieRead();
  }

  lemma ReversedTieShiftedCuts()
    ensures ShiftedCuts(FootageOf(ReversedTie()))
         == [Interval(0, 0), Interval(1 * MS, 4 * MS), Interval(4 * MS, 16 * MS)]
  {
    ReversedTieCuts();
    ReversedTieGaps();
    RetimedListByIndex([Interval(4 * MS, 8 * MS)], Cuts(ReversedTie()));
    RetimedByOne(4 * MS, 8 * MS, 0);
    RetimedByOne(4 * MS, 8 * MS, 1 * MS);
    RetimedByOne(4 * MS, 8 * MS, 5 * MS);
    RetimedByOne(4 * MS, 8 * MS, 7 * MS);
    RetimedByOne(4 * MS, 8 * MS, 20 * MS);
  }

  lemma ReversedTieIsReversed()
    ensures !TiesReadBack(ReversedTie().room, [Interval(4 * MS, 8 * MS)])
  {
    var room := ReversedTie().room;
    RetimedByOne(4 * MS, 8 * MS, 5 * MS);
    RetimedByOne(4 * MS, 8 * MS, 7 * MS);
    assert room[3].occurredAt < room[2].occurredAt && IsStream(room[3]) && IsStream(room[2]);
    assert !CreatedOrPlacedBefore(room, 3, 2);
  }

  lemma {:induction false} InvertedTwo(b: Interval, duration: int)
    requires b.stop < duration
    ensures I.Inverted([Interval(0, 0), b], duration, 0) == [Interval(0, b.start), Interval(b.stop, duration)]
  {
    assert [Interval(0, 0), b][1..] == [b] && [b][1..] == [];
    assert I.GapsFrom(b.stop, [], duration, 0) == [Interval(b.stop, duration)];
    assert I.GapsFrom(0, [b], duration, 0) == [Interval(0, b.start)] + I.GapsFrom(b.stop, [], duration, 0);
  }

  lemma {:induction false} InvertedThree(b: Interval, c: Interval, duration: int)
    requires duration <= c.stop
    ensures I.Inverted([Interval(0, 0), b, c], duration, 0) == [Interval(0, b.start), Interval(b.stop, c.start)]
  {
    assert [Interval(0, 0), b, c][1..] == [b, c] && [b, c][1..] == [c] && [c][1..] == [];
    assert I.GapsFrom(c.stop, [], duration, 0) == [];
    assert I.GapsFrom(b.stop, [c], duration, 0) == [Interval(b.stop, c.start)] + I.GapsFrom(c.stop, [], duration, 0);
    assert I.GapsFrom(0, [b, c], duration, 0) == [Interval(0, b.start)] + I.GapsFrom(b.stop, [c], duration, 0);
  }

  /** Re-timing brings the end of the first cut and the start of the second to one instant; read
      in the order of the table both cuts are lost, and the modified room is reported whole. */
  lemma ReversedTieLosesCut()
    ensures WellFormedJob(ReversedTie()) && !TiesReadBack(ReversedTie().room, SegmentGaps(ReversedTie()))
    ensures Modified(FootageOf(ReversedTie())) == [Interval(0, 1 * MS), Interval(4 * MS, 4 * MS)]
    ensures ModifiedNanos(ReversedTie()) == [Interval(0, 4 * MS), Interval(4 * MS, 16 * MS)]
  {
    ReversedTieGaps();
    ReversedTieIsReversed();
    ReversedTieShiftedCuts();
    ReversedTieClonedCuts();
    InvertedThree(Interval(1 * MS, 4 * MS), Interval(4 * MS, 16 * MS), 16 * MS);
    InvertedTwo(Interval(4 * MS, 4 * MS), 16 * MS);
  }
}
