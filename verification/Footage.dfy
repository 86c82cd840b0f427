/** The two segment lists that an adjustment reports: the original segments without the
    cuts, on the line of the recording, and the segments of the modified room, on the line
    re-timed by the segment gaps.  When do they describe the same footage? */
module Footage {
  import opened Intervals
  import opened Numbers
  import opened InvertSegments
  import opened Intersect
  import opened Retime

  /** `segments` are on the line of the real-time room, `lag` is where the recording starts
      on that line, `duration` is the length of the room. */
  datatype Input = Input(segments: seq<Interval>, lag: int, duration: nat, min: nat, cuts: seq<Interval>)

  ghost predicate WellFormed(v: Input) {
    && v.segments != [] && Ordered(v.segments) && StartsFrom(v.segments, 0) && StartsFrom(v.segments, v.lag)
    && Ordered(v.cuts) && StartsFrom(v.cuts, 0)
  }

  function Gaps(v: Input): seq<Interval> {
    Inverted(v.segments, v.duration, v.min)
  }

  function Finish(v: Input): int
    requires v.segments != []
  {
    Last(v.segments).stop
  }

  /** The inverted cuts on the line of the recording. */
  function Uncut(v: Input): seq<Interval>
    requires v.segments != []
  {
    Inverted(Translate(v.cuts, -v.lag), Finish(v) - v.lag, v.min)
  }

  /** Both lists before truncation to milliseconds. */
  function CutOriginal(v: Input): seq<Interval>
    requires v.segments != []
  {
    Merge(Uncut(v), Translate(v.segments, -v.lag))
  }

  function ShiftedCuts(v: Input): seq<Interval> {
    RetimedList(Gaps(v), v.cuts)
  }

  function Modified(v: Input): seq<Interval> {
    Inverted(ShiftedCuts(v), TotalLength(v.segments), v.min)
  }

  // ---- The line re-timed by the segment gaps ------------------------------

  lemma {:induction false} GapsShape(v: Input)
    requires WellFormed(v)
    ensures Ordered(Gaps(v)) && StartsFrom(Gaps(v), 0)
  {
    InvertedOrdered(v.segments, v.duration, v.min);
  }

  lemma {:induction false} FinishOnRecording(v: Input)
    requires WellFormed(v)
    ensures 0 <= v.segments[0].start && v.lag <= v.segments[0].start <= Finish(v)
  {
    StopsByLast(v.segments);
  }

  /** Segments survive; nothing else does before the end of the last one. */
  lemma {:induction false} SegmentsSurvive(v: Input, x: nat)
    requires WellFormed(v)
    ensures Covers(v.segments, x) ==> !Covers(Gaps(v), x) && x < Finish(v)
    ensures !Covers(Gaps(v), x) && x < Finish(v) ==> Covers(v.segments, x)
    ensures x >= Finish(v) && !HasTail(v.segments, v.duration, v.min) ==> !Covers(Gaps(v), x)
    ensures Finish(v) <= x < v.duration && HasTail(v.segments, v.duration, v.min) ==> Covers(Gaps(v), x)
  {
    InvertedCovers(v.segments, v.duration, v.min, x);
    if Covers(v.segments, x) {
      InsideHull(v.segments, x);
    }
  }

  /** Up to the end of the last segment a re-timed instant is the length of the segments
      before it. */
  lemma {:induction false} RetimedIsFootageBefore(v: Input, t: nat)
    requires WellFormed(v) && t <= Finish(v)
    ensures Retimed(Gaps(v), t) == Kept(Gaps(v), t) == Measure(Points(v.segments), t)
  {
    GapsShape(v);
    RetimedIsKept(Gaps(v), t);
    forall x: nat | x < t ensures x in Points(v.segments) <==> x in Complement(Points(Gaps(v))) {
      SegmentsSurvive(v, x);
    }
    MeasureCongruent(Points(v.segments), Complement(Points(Gaps(v))), t);
  }

  /** The end of the last segment goes to the total length of the segments. */
  lemma {:induction false} FinishIsTotal(v: Input)
    requires WellFormed(v)
    ensures 0 <= Finish(v)
    ensures Retimed(Gaps(v), Finish(v)) == Kept(Gaps(v), Finish(v)) == TotalLength(v.segments)
  {
    FinishOnRecording(v);
    RetimedIsFootageBefore(v, Finish(v));
    TotalLengthIsMeasure(v.segments, Finish(v));
  }

  /** After it, time stands still until the end of the room, or runs on if the stretch that
      is left was too short to become a gap. */
  lemma {:induction false} RetimedAfterFinish(v: Input, t: nat)
    requires WellFormed(v) && Finish(v) <= t
    ensures HasTail(v.segments, v.duration, v.min) && t <= v.duration ==>
      Retimed(Gaps(v), t) == TotalLength(v.segments)
    ensures !HasTail(v.segments, v.duration, v.min) ==>
      Retimed(Gaps(v), t) == TotalLength(v.segments) + (t - Finish(v))
  {
    GapsShape(v);
    FinishIsTotal(v);
    RetimedShape(Gaps(v), Finish(v), t);
    forall x: nat | Finish(v) <= x < t
      ensures HasTail(v.segments, v.duration, v.min) && t <= v.duration ==> Covers(Gaps(v), x)
      ensures !HasTail(v.segments, v.duration, v.min) ==> !Covers(Gaps(v), x)
    {
      SegmentsSurvive(v, x);
    }
  }

  /** So every event of the room lands inside the derived room, give or take the shortest
      reportable segment. */
  lemma {:induction false} RetimedRange(v: Input, t: nat)
    requires WellFormed(v) && t <= v.duration
    ensures 0 <= Retimed(Gaps(v), t) <= TotalLength(v.segments) + v.min
  {
    GapsShape(v);
    FinishIsTotal(v);
    if t <= Finish(v) {
      RetimedShape(Gaps(v), t, Finish(v));
    } else {
      RetimedAfterFinish(v, t);
    }
  }

  /** Before the total length, every re-timed instant is an instant of a segment. */
  lemma {:induction false} FootageOnto(v: Input, u: nat) returns (x: nat)
    requires WellFormed(v) && u < TotalLength(v.segments)
    ensures Covers(v.segments, x) && !Covers(Gaps(v), x) && Retimed(Gaps(v), x) == u
  {
    GapsShape(v);
    FinishIsTotal(v);
    x := RetimedOnto(Gaps(v), Finish(v), u);
    SegmentsSurvive(v, x);
  }

  lemma {:induction false} FootageInside(v: Input, x: nat)
    requires WellFormed(v) && Covers(v.segments, x)
    ensures !Covers(Gaps(v), x) && 0 <= Retimed(Gaps(v), x) < TotalLength(v.segments)
  {
    GapsShape(v);
    SegmentsSurvive(v, x);
    FinishIsTotal(v);
    RetimedReflects(Gaps(v), x, Finish(v));
    RetimedShape(Gaps(v), x, x);
  }

  // ---- What each list covers ----------------------------------------------

  /** The inverted cuts keep what follows the last cut only if it is longer than `min`. */
  predicate TailReported(v: Input)
    requires v.segments != []
  {
    v.cuts == [] || Finish(v) - Last(v.cuts).stop > v.min
  }

  lemma {:induction false} UncutCovers(v: Input, x: int)
    requires WellFormed(v) && Covers(v.segments, x)
    ensures Covers(Uncut(v), x - v.lag) <==> !Covers(v.cuts, x) && (TailReported(v) || x < Last(v.cuts).stop)
  {
    InsideHull(v.segments, x);
    CoveredAfterStart(v.segments, v.lag, x);
    if v.cuts == [] {
      SingleCovers(Interval(0, Finish(v) - v.lag), x - v.lag);
    } else {
      MovedInversion(v.cuts, -v.lag, Finish(v) - v.lag, v.min, x - v.lag);
    }
  }

  lemma {:induction false} MovedInversion(cuts: seq<Interval>, d: int, duration: int, min: nat, y: nat)
    requires cuts != [] && Ordered(cuts) && StartsFrom(cuts, 0)
    ensures Covers(Inverted(Translate(cuts, d), duration, min), y) <==>
      !Covers(cuts, y - d)
      && (y < Last(cuts).stop + d || (LongEnough(Last(cuts).stop + d, duration, min) && y < duration))
  {
    TranslateOrdered(cuts, d, 0);
    InvertedCovers(Translate(cuts, d), duration, min, y);
    TranslateCovers(cuts, d, y);
  }

  lemma {:induction false} UncutOrdered(v: Input)
    requires WellFormed(v)
    ensures Ordered(Uncut(v))
  {
    FinishOnRecording(v);
    TranslateOrdered(v.cuts, -v.lag, 0);
    InvertedOrdered(Translate(v.cuts, -v.lag), Finish(v) - v.lag, v.min);
  }

  lemma {:induction false} CutOriginalShape(v: Input)
    requires WellFormed(v)
    ensures Ordered(CutOriginal(v)) && StartsFrom(CutOriginal(v), 0) && NoneEmpty(CutOriginal(v))
  {
    UncutOrdered(v);
    TranslateOrdered(v.segments, -v.lag, v.lag);
    IntersectShape(Uncut(v), Translate(v.segments, -v.lag));
    IntersectStartsFrom(Uncut(v), Translate(v.segments, -v.lag), 0);
  }

  lemma {:induction false} MovedIntersection(uncut: seq<Interval>, segments: seq<Interval>, d: int,
                                             both: seq<Interval>, x: int, y: int)
    requires Ordered(uncut) && Ordered(segments) && StartsFrom(segments, 0) && y == x + d
    requires both == Merge(uncut, Translate(segments, d))
    ensures Covers(both, y) <==> Covers(uncut, y) && Covers(segments, x)
  {
    TranslateOrdered(segments, d, 0);
    IntersectCovers(uncut, Translate(segments, d), y);
    TranslateCovers(segments, d, y);
  }

  lemma {:induction false} BothCover(v: Input, both: seq<Interval>, uncut: seq<Interval>, x: int, y: int)
    requires v.segments != [] && Ordered(v.segments) && StartsFrom(v.segments, 0) && Ordered(uncut)
    requires both == CutOriginal(v) && uncut == Uncut(v) && y == x - v.lag
    ensures Covers(both, y) <==> Covers(uncut, y) && Covers(v.segments, x)
  {
    MovedIntersection(uncut, v.segments, -v.lag, both, x, y);
  }

  /** The first list is the segments minus the cuts, but for a short stretch at the end. */
  lemma {:induction false} CutOriginalCovers(v: Input, x: int)
    requires WellFormed(v)
    ensures Covers(CutOriginal(v), x - v.lag) <==>
      Covers(v.segments, x) && !Covers(v.cuts, x) && (TailReported(v) || x < Last(v.cuts).stop)
  {
    UncutOrdered(v);
    BothCover(v, CutOriginal(v), Uncut(v), x, x - v.lag);
    if Covers(v.segments, x) {
      UncutCovers(v, x);
    }
  }

  lemma {:induction false} ModifiedShape(v: Input)
    requires WellFormed(v)
    ensures Ordered(ShiftedCuts(v)) && StartsFrom(ShiftedCuts(v), 0)
    ensures Ordered(Modified(v)) && StartsFrom(Modified(v), 0)
  {
    GapsShape(v);
    FinishIsTotal(v);
    RetimedIsKept(Gaps(v), 0);
    RetimedListOrdered(Gaps(v), v.cuts, 0);
    InvertedOrdered(ShiftedCuts(v), TotalLength(v.segments), v.min);
  }

  /** Where the last cut ends on the re-timed line. */
  function LastCut(v: Input): int
    requires v.cuts != []
  {
    Retimed(Gaps(v), Last(v.cuts).stop)
  }

  /** Before the end of the modified room or, if the tail after the last cut is too short, before
      the end of that cut. */
  predicate BeforeEnd(v: Input, u: nat) {
    if v.cuts == [] then u < TotalLength(v.segments)
    else
      u < LastCut(v)
      || (LongEnough(LastCut(v), TotalLength(v.segments), v.min) && u < TotalLength(v.segments))
  }

  lemma {:induction false} ModifiedCovers(v: Input, u: nat)
    requires WellFormed(v)
    ensures Covers(Modified(v), u) <==> !Covers(ShiftedCuts(v), u) && BeforeEnd(v, u)
  {
    ModifiedShape(v);
    if v.cuts == [] {
      SingleCovers(Interval(0, TotalLength(v.segments)), u);
    } else {
      InvertedCovers(ShiftedCuts(v), TotalLength(v.segments), v.min, u);
    }
  }

  // ---- When the two lists agree --------------------------------------------

  /** An instant of the re-timed line that comes from footage of the first list. */
  ghost predicate FromCutOriginal(v: Input, u: nat)
    requires v.segments != []
  {
    exists x: nat :: Covers(CutOriginal(v), x - v.lag) && Retimed(Gaps(v), x) == u
  }

  /** The second list is the image of the first under the re-timing. */
  ghost predicate SameFootage(v: Input)
    requires v.segments != []
  {
    forall u: nat :: Covers(Modified(v), u) <==> FromCutOriginal(v, u)
  }

  /** No cut starts after the end of the last segment, unless it touches the cut before it. */
  predicate StaysInside(prev: int, cuts: seq<Interval>, finish: int)
    decreases cuts
  {
    cuts == [] ||
    ((cuts[0].start <= finish || cuts[0].start == prev) && StaysInside(cuts[0].stop, cuts[1..], finish))
  }

  predicate CutsStayInside(v: Input)
    requires v.segments != []
  {
    HasTail(v.segments, v.duration, v.min) || StaysInside(0, v.cuts, Finish(v))
  }

  /** The two tail rules, one applied to the recording and one to what is left of it, do not
      disagree on footage that exists. */
  predicate TailsAgree(v: Input)
    requires v.segments != []
  {
    !TailReported(v) || v.cuts == [] || LastCut(v) >= TotalLength(v.segments)
    || TotalLength(v.segments) - LastCut(v) > v.min
  }

  lemma {:induction false} NothingLeftOutside(v: Input, prev: nat, cuts: seq<Interval>, u: nat)
    requires WellFormed(v) && !HasTail(v.segments, v.duration, v.min)
    requires Ordered(cuts) && StartsFrom(cuts, prev) && StaysInside(prev, cuts, Finish(v))
    requires u >= TotalLength(v.segments) && u >= Retimed(Gaps(v), prev)
    ensures Covers(RetimedList(Gaps(v), cuts), u) || u >= Retimed(Gaps(v), End(prev, cuts))
    decreases cuts
  {
    if cuts != [] && u >= Retimed(Gaps(v), cuts[0].stop) {
      NothingLeftOutside(v, cuts[0].stop, cuts[1..], u);
      assert RetimedList(Gaps(v), cuts)[1..] == RetimedList(Gaps(v), cuts[1..]);
    } else if cuts != [] && cuts[0].start <= Finish(v) {
      GapsShape(v);
      FinishIsTotal(v);
      RetimedShape(Gaps(v), cuts[0].start, Finish(v));
    }
  }

  lemma {:induction false} SomethingLeftOutside(v: Input, prev: nat, cuts: seq<Interval>) returns (u: nat)
    requires WellFormed(v) && !HasTail(v.segments, v.duration, v.min)
    requires Ordered(cuts) && StartsFrom(cuts, prev) && !StaysInside(prev, cuts, Finish(v))
    ensures TotalLength(v.segments) <= u && Retimed(Gaps(v), prev) <= u < Retimed(Gaps(v), Last(cuts).stop)
    ensures !Covers(RetimedList(Gaps(v), cuts), u)
    decreases cuts
  {
    var gaps := Gaps(v);
    GapsShape(v);
    StopsByLast(cuts);
    RetimedShape(gaps, cuts[0].start, cuts[0].stop);
    RetimedShape(gaps, cuts[0].stop, Last(cuts).stop);
    if cuts[0].start <= Finish(v) || cuts[0].start == prev {
      u := SomethingLeftOutside(v, cuts[0].stop, cuts[1..]);
      RetimedShape(gaps, prev, cuts[0].stop);
      ConsCovers(
        Interval(Retimed(gaps, cuts[0].start), Retimed(gaps, cuts[0].stop)), RetimedList(gaps, cuts[1..]), u);
    } else {
      u := JustBefore(v, prev, cuts[0].start);
      NothingBeforeFirst(gaps, cuts, u);
    }
  }

  lemma {:induction false} NothingBeforeFirst(gaps: seq<Interval>, cuts: seq<Interval>, u: nat)
    requires Ordered(gaps) && StartsFrom(gaps, 0) && Ordered(cuts) && cuts != [] && 0 <= cuts[0].start
    requires u < Retimed(gaps, cuts[0].start)
    ensures !Covers(RetimedList(gaps, cuts), u)
  {
    StartsFromFirst(cuts);
    RetimedListOrdered(gaps, cuts, cuts[0].start);
    if Covers(RetimedList(gaps, cuts), u) {
      CoveredAfterStart(RetimedList(gaps, cuts), Retimed(gaps, cuts[0].start), u);
    }
  }

  lemma {:induction false} JustBefore(v: Input, prev: nat, t: nat) returns (u: nat)
    requires WellFormed(v) && !HasTail(v.segments, v.duration, v.min)
    requires prev < t && Finish(v) < t
    ensures u + 1 == Retimed(Gaps(v), t)
    ensures TotalLength(v.segments) <= u && Retimed(Gaps(v), prev) <= u
  {
    GapsShape(v);
    FinishIsTotal(v);
    RetimedAfterFinish(v, t);
    RetimedShape(Gaps(v), prev, t);
    u := Retimed(Gaps(v), t) - 1;
    if Finish(v) <= prev {
      RetimedAfterFinish(v, prev);
    } else {
      RetimedShape(Gaps(v), prev, Finish(v));
    }
  }

  /** Nothing is reported beyond the end of the footage. */
  lemma {:induction false} ModifiedStaysInside(v: Input, u: nat)
    requires WellFormed(v) && CutsStayInside(v) && Covers(Modified(v), u)
    requires CutsWithinRoom(v)
    ensures u < TotalLength(v.segments)
  {
    ModifiedCovers(v, u);
    if v.cuts != [] && u >= TotalLength(v.segments) {
      if HasTail(v.segments, v.duration, v.min) {
        LastCutInside(v);
      } else {
        GapsShape(v);
        RetimedIsKept(Gaps(v), 0);
        NothingLeftOutside(v, 0, v.cuts, u);
      }
    }
  }

  /** Cut events lie in the room. */
  predicate CutsWithinRoom(v: Input) {
    v.cuts == [] || Last(v.cuts).stop <= v.duration
  }

  lemma {:induction false} LastCutInside(v: Input)
    requires WellFormed(v) && CutsWithinRoom(v) && v.cuts != []
    requires HasTail(v.segments, v.duration, v.min)
    ensures LastCut(v) <= TotalLength(v.segments)
  {
    StopsByLast(v.cuts);
    GapsShape(v);
    FinishIsTotal(v);
    if Last(v.cuts).stop <= Finish(v) {
      RetimedShape(Gaps(v), Last(v.cuts).stop, Finish(v));
    } else {
      RetimedAfterFinish(v, Last(v.cuts).stop);
    }
  }

  /** One instant of footage is in both lists or in neither, when the tail rules agree. */
  lemma {:induction false} SameForOneInstant(v: Input, x: nat)
    requires WellFormed(v) && Covers(v.segments, x) && TailsAgree(v)
    ensures 0 <= Retimed(Gaps(v), x)
    ensures Covers(Modified(v), Retimed(Gaps(v), x)) <==> Covers(CutOriginal(v), x - v.lag)
  {
    GapsShape(v);
    FootageInside(v, x);
    ModifiedCovers(v, Retimed(Gaps(v), x));
    CutOriginalCovers(v, x);
    CutSeenThroughRetiming(Gaps(v), v.cuts, x);
    if v.cuts != [] {
      TailLengths(v, x);
    }
  }

  lemma {:induction false} TailLengths(v: Input, x: nat)
    requires WellFormed(v) && Covers(v.segments, x) && v.cuts != []
    ensures 0 <= LastCut(v) && (Retimed(Gaps(v), x) < LastCut(v) <==> x < Last(v.cuts).stop)
    ensures LastCut(v) < TotalLength(v.segments) ==>
      TotalLength(v.segments) - LastCut(v) <= Finish(v) - Last(v.cuts).stop
  {
    var l := Last(v.cuts).stop;
    StopsByLast(v.cuts);
    GapsShape(v);
    FootageInside(v, x);
    FinishIsTotal(v);
    RetimedReflects(Gaps(v), x, l);
    RetimedShape(Gaps(v), l, l);
    if l <= Finish(v) {
      RetimedShape(Gaps(v), l, Finish(v));
    } else {
      RetimedShape(Gaps(v), Finish(v), l);
    }
  }

  lemma {:induction false} AgreeImpliesSame(v: Input)
    requires WellFormed(v) && CutsWithinRoom(v) && CutsStayInside(v) && TailsAgree(v)
    ensures SameFootage(v)
  {
    forall u: nat ensures Covers(Modified(v), u) <==> FromCutOriginal(v, u) {
      if Covers(Modified(v), u) {
        ModifiedStaysInside(v, u);
        var x := FootageOnto(v, u);
        SameForOneInstant(v, x);
        assert Covers(CutOriginal(v), x - v.lag);
      }
      if FromCutOriginal(v, u) {
        var x: nat :| Covers(CutOriginal(v), x - v.lag) && Retimed(Gaps(v), x) == u;
        CutOriginalCovers(v, x);
        SameForOneInstant(v, x);
      }
    }
  }

  lemma {:induction false} SameImpliesAgree(v: Input)
    requires WellFormed(v) && CutsWithinRoom(v) && SameFootage(v)
    ensures CutsStayInside(v) && TailsAgree(v)
  {
    if !CutsStayInside(v) {
      var u := SomethingLeftOutside(v, 0, v.cuts);
      ModifiedCovers(v, u);
      assert FromCutOriginal(v, u);
      var x: nat :| Covers(CutOriginal(v), x - v.lag) && Retimed(Gaps(v), x) == u;
      CutOriginalCovers(v, x);
      FootageInside(v, x);
    }
    if !TailsAgree(v) {
      StopsByLast(v.cuts);
      GapsShape(v);
      RetimedShape(Gaps(v), Last(v.cuts).stop, Last(v.cuts).stop);
      var x := FootageOnto(v, LastCut(v));
      TailLengths(v, x);
      ModifiedCovers(v, LastCut(v));
      CutOriginalCovers(v, x);
      if Covers(v.cuts, x) {
        InsideHull(v.cuts, x);
      }
      assert Covers(CutOriginal(v), x - v.lag);
      assert FromCutOriginal(v, LastCut(v));
    }
  }

  /** The two reported lists describe the same footage exactly when no cut opens in a short
      tail of the room and the two tail rules agree. */
  lemma {:induction false} FootageAgrees(v: Input)
    requires WellFormed(v) && CutsWithinRoom(v)
    ensures SameFootage(v) <==> CutsStayInside(v) && TailsAgree(v)
  {
    if SameFootage(v) {
      SameImpliesAgree(v);
    } else if CutsStayInside(v) && TailsAgree(v) {
      AgreeImpliesSame(v);
    }
  }

  lemma {:induction false} WithinRoomIsInside(prev: int, cuts: seq<Interval>, finish: int)
    requires Ordered(cuts) && (cuts == [] || Last(cuts).stop <= finish)
    ensures StaysInside(prev, cuts, finish)
    decreases cuts
  {
    if cuts != [] {
      StopsByLast(cuts);
      WithinRoomIsInside(cuts[0].stop, cuts[1..], finish);
    }
  }

  /** With no shortest segment length they always do. */
  lemma {:induction false} FootageAgreesWithoutMinimum(v: Input)
    requires WellFormed(v) && CutsWithinRoom(v) && v.min == 0
    ensures SameFootage(v)
  {
    if !HasTail(v.segments, v.duration, v.min) {
      WithinRoomIsInside(0, v.cuts, Finish(v));
    }
    AgreeImpliesSame(v);
  }

  // ---- Equal lengths --------------------------------------------------------

  lemma {:induction false} EndOfLast(list: seq<Interval>, end: int)
    requires Ordered(list) && NoneEmpty(list) && list != []
    requires forall x :: Covers(list, x) ==> x < end
    ensures Last(list).stop <= end
  {
    assert Covers(list, list[0].stop - 1);
    if |list| > 1 {
      assert forall x :: Covers(list[1..], x) ==> Covers(list, x);
      EndOfLast(list[1..], end);
    }
  }

  lemma {:induction false} PulledBack(v: Input, x: nat)
    requires WellFormed(v) && TailsAgree(v) && x < Finish(v)
    ensures x in PullBack(Gaps(v), Points(Modified(v))) <==> x in Points(Translate(CutOriginal(v), v.lag))
  {
    TranslateCovers(CutOriginal(v), v.lag, x);
    SegmentsSurvive(v, x);
    if Covers(v.segments, x) {
      SameForOneInstant(v, x);
    } else {
      CutOriginalCovers(v, x);
    }
  }

  /** The same footage has the same length. */
  lemma {:induction false} SameLength(v: Input)
    requires WellFormed(v) && CutsWithinRoom(v) && SameFootage(v)
    ensures TotalLength(CutOriginal(v)) == TotalLength(Modified(v))
  {
    var gaps, total, finish := Gaps(v), TotalLength(v.segments), Finish(v);
    var here := Translate(CutOriginal(v), v.lag);
    GapsShape(v);
    FinishIsTotal(v);
    SameImpliesAgree(v);
    CutOriginalOnRoomLine(v);
    ModifiedMeasured(v);
    forall x: nat | x < finish ensures x in PullBack(gaps, Points(Modified(v))) <==> x in Points(here) {
      PulledBack(v, x);
    }
    MeasureCongruent(PullBack(gaps, Points(Modified(v))), Points(here), finish);
    MeasureOfImage(gaps, Points(Modified(v)), finish);
  }

  lemma {:induction false} CutOriginalInside(v: Input, x: int)
    requires WellFormed(v) && Covers(CutOriginal(v), x)
    ensures x < Finish(v) - v.lag && 0 <= x + v.lag
  {
    CutOriginalCovers(v, x + v.lag);
    InsideHull(v.segments, x + v.lag);
    CoveredAfterStart(v.segments, 0, x + v.lag);
  }

  lemma {:induction false} CutOriginalEnds(v: Input)
    requires WellFormed(v) && CutOriginal(v) != []
    ensures Last(CutOriginal(v)).stop <= Finish(v) - v.lag && 0 <= CutOriginal(v)[0].start + v.lag
  {
    var list := CutOriginal(v);
    CutOriginalShape(v);
    forall x | Covers(list, x) ensures x < Finish(v) - v.lag {
      CutOriginalInside(v, x);
    }
    EndOfLast(list, Finish(v) - v.lag);
    CutOriginalInside(v, list[0].start);
  }

  lemma {:induction false} CutOriginalOnRoomLine(v: Input)
    requires WellFormed(v)
    ensures 0 <= Finish(v)
    ensures TotalLength(CutOriginal(v)) == Measure(Points(Translate(CutOriginal(v), v.lag)), Finish(v))
  {
    var list := CutOriginal(v);
    FinishIsTotal(v);
    CutOriginalShape(v);
    if list != [] {
      CutOriginalEnds(v);
      StartsFromFirst(list);
      TranslateOrdered(list, v.lag, list[0].start);
      StartsFromLower(Translate(list, v.lag), list[0].start + v.lag, 0);
    }
    TranslateLength(list, v.lag);
    TotalLengthIsMeasure(Translate(list, v.lag), Finish(v));
  }

  lemma {:induction false} ModifiedMeasured(v: Input)
    requires WellFormed(v) && CutsWithinRoom(v) && CutsStayInside(v)
    ensures 0 <= TotalLength(v.segments)
    ensures TotalLength(Modified(v)) == Measure(Points(Modified(v)), TotalLength(v.segments))
  {
    var list, total := Modified(v), TotalLength(v.segments);
    FinishIsTotal(v);
    ModifiedShape(v);
    var end: nat := if list == [] then total else Max(total, Last(list).stop);
    forall u: nat | total <= u < end ensures u !in Points(list) {
      if Covers(list, u) {
        ModifiedStaysInside(v, u);
      }
    }
    MeasureGrowth(Points(list), total, end);
    TotalLengthIsMeasure(list, end);
  }
}
