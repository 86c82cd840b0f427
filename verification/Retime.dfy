/** The re-timing expression shared by the two queries that clone events: every
    instant loses the part of the gaps that lies before it. */
module Retime {
  import opened Intervals
  import opened Numbers

  /** `SUM(LEAST(stop, t) - start)` over the gaps with `0 <= start < t`. */
  function CoveredBefore(gaps: seq<Interval>, t: int): int {
    if gaps == [] then 0
    else (if 0 <= gaps[0].start < t then Min(gaps[0].stop, t) - gaps[0].start else 0)
         + CoveredBefore(gaps[1..], t)
  }

  /** The scalar subquery for "the gap that starts at 0" fails on more than one row. */
  function ZeroStarts(gaps: seq<Interval>): nat {
    if gaps == [] then 0 else (if gaps[0].start == 0 then 1 else 0) + ZeroStarts(gaps[1..])
  }

  predicate HeadGapReaches(gaps: seq<Interval>, t: int) {
    gaps != [] && ((gaps[0].start == 0 && t <= gaps[0].stop) || HeadGapReaches(gaps[1..], t))
  }

  function Retimed(gaps: seq<Interval>, t: int): int {
    if HeadGapReaches(gaps, t) then 0 else t - CoveredBefore(gaps, t)
  }

  /** The query case by case, for gaps of any shape and any instant: up to the stop of a gap that starts
      at 0 everything goes to 0; otherwise the gaps before the instant are taken off.  So an instant
      before the room goes to 0 or stays where it is. */
  lemma {:induction false} RetimedByRows(gaps: seq<Interval>, t: int)
    ensures Retimed(gaps, t)
         == if exists i :: 0 <= i < |gaps| && gaps[i].start == 0 && t <= gaps[i].stop then 0
            else t - CoveredBefore(gaps, t)
    ensures t <= 0 ==> CoveredBefore(gaps, t) == 0
  {
    HeadGapByRows(gaps, t);
    NothingBeforeStart(gaps, t);
  }

  lemma {:induction false} HeadGapByRows(gaps: seq<Interval>, t: int)
    ensures HeadGapReaches(gaps, t) <==> exists i :: 0 <= i < |gaps| && gaps[i].start == 0 && t <= gaps[i].stop
  {
    if gaps != [] {
      HeadGapByRows(gaps[1..], t);
      if i :| 0 <= i < |gaps| && gaps[i].start == 0 && t <= gaps[i].stop {
        assert i > 0 ==> gaps[1..][i - 1] == gaps[i];
      }
      if i :| 0 <= i < |gaps[1..]| && gaps[1..][i].start == 0 && t <= gaps[1..][i].stop {
        assert gaps[i + 1] == gaps[1..][i];
      }
    }
  }

  lemma {:induction false} NothingBeforeStart(gaps: seq<Interval>, t: int)
    ensures t <= 0 ==> CoveredBefore(gaps, t) == 0
  {
    if gaps != [] {
      NothingBeforeStart(gaps[1..], t);
    }
  }

  /** Length of what the gaps leave of `[0, t)`: the meaning of a re-timed instant. */
  ghost function Kept(gaps: seq<Interval>, t: nat): nat {
    Measure(Complement(Points(gaps)), t)
  }

  lemma {:induction false} CoveredIsMeasure(gaps: seq<Interval>, t: nat)
    requires Ordered(gaps) && StartsFrom(gaps, 0)
    ensures CoveredBefore(gaps, t) == Measure(Points(gaps), t)
  {
    if gaps == [] {
      MeasureOfNothing(t);
    } else {
      StartsFromLower(gaps[1..], gaps[0].stop, 0);
      CoveredIsMeasure(gaps[1..], t);
      MeasureOfList(gaps, t);
    }
  }

  /** The query's formula, with its special case for a gap at 0, is exactly the length
      left uncovered before `t`. */
  lemma {:induction false} RetimedIsKept(gaps: seq<Interval>, t: nat)
    requires Ordered(gaps) && StartsFrom(gaps, 0)
    ensures Retimed(gaps, t) == Kept(gaps, t)
  {
    CoveredIsMeasure(gaps, t);
    MeasureComplement(Points(gaps), t);
    if HeadGapReaches(gaps, t) {
      forall x: nat | x < t ensures x in Points(gaps) {
        HeadGapCovers(gaps, t, x);
      }
      MeasureGrowth(Points(gaps), 0, t);
    }
  }

  lemma {:induction false} HeadGapCovers(gaps: seq<Interval>, t: int, x: nat)
    requires HeadGapReaches(gaps, t) && x < t
    ensures Covers(gaps, x)
  {
    if !(gaps[0].start == 0 && t <= gaps[0].stop) {
      HeadGapCovers(gaps[1..], t, x);
    }
  }

  /** Re-timing keeps the order of instants, never stretches a distance, stops inside a
      gap and leaves distances alone outside the gaps. */
  lemma {:induction false} RetimedShape(gaps: seq<Interval>, t: nat, u: nat)
    requires Ordered(gaps) && StartsFrom(gaps, 0) && t <= u
    ensures 0 <= Retimed(gaps, t) <= Retimed(gaps, u) <= Retimed(gaps, t) + (u - t)
    ensures (forall x :: t <= x < u ==> Covers(gaps, x)) ==> Retimed(gaps, u) == Retimed(gaps, t)
    ensures (forall x :: t <= x < u ==> !Covers(gaps, x)) ==> Retimed(gaps, u) == Retimed(gaps, t) + (u - t)
  {
    RetimedIsKept(gaps, t);
    RetimedIsKept(gaps, u);
    MeasureGrowth(Complement(Points(gaps)), t, u);
  }

  /** Two instants outside the gaps are told apart, and their order with any re-timed
      instant is the order they had. */
  lemma {:induction false} RetimedReflects(gaps: seq<Interval>, x: nat, t: nat)
    requires Ordered(gaps) && StartsFrom(gaps, 0) && !Covers(gaps, x)
    ensures Retimed(gaps, x) < Retimed(gaps, t) <==> x < t
  {
    if x < t {
      RetimedShape(gaps, x, x + 1);
      RetimedShape(gaps, x + 1, t);
    } else {
      RetimedShape(gaps, t, x);
    }
  }

  /** A set of instants of the re-timed line, measured there or measured through the
      re-timing on the part of the original line that survives. */
  ghost function PullBack(gaps: seq<Interval>, s: iset<int>): iset<int> {
    iset x: int | x >= 0 && !Covers(gaps, x) && Retimed(gaps, x) in s
  }

  lemma {:induction false} MeasureOfImage(gaps: seq<Interval>, s: iset<int>, t: nat)
    requires Ordered(gaps) && StartsFrom(gaps, 0)
    ensures Measure(PullBack(gaps, s), t) == Measure(s, Kept(gaps, t))
  {
    if t > 0 {
      MeasureOfImage(gaps, s, t - 1);
      RetimedIsKept(gaps, t - 1);
    }
  }

  /** Every instant before the end of the re-timed line comes from a surviving one. */
  lemma {:induction false} RetimedOnto(gaps: seq<Interval>, t: nat, u: nat) returns (x: nat)
    requires Ordered(gaps) && StartsFrom(gaps, 0) && u < Kept(gaps, t)
    ensures x < t && !Covers(gaps, x) && Retimed(gaps, x) == u
  {
    if u < Kept(gaps, t - 1) {
      x := RetimedOnto(gaps, t - 1, u);
    } else {
      x := t - 1;
      RetimedIsKept(gaps, x);
    }
  }

  lemma {:induction false} KeptStep(gaps: seq<Interval>, t: nat, u: nat) returns (x: nat)
    requires Ordered(gaps) && StartsFrom(gaps, 0) && u < Kept(gaps, t)
    ensures x < t && Kept(gaps, x) == u && Kept(gaps, x + 1) == u + 1
  {
    x := RetimedOnto(gaps, t, u);
    RetimedIsKept(gaps, x);
  }

  /** What is left before an instant and before the next one shows whether it is covered. */
  lemma {:induction false} KeptShowsInstant(a: seq<Interval>, b: seq<Interval>, u: nat)
    requires Kept(a, u) == Kept(b, u) && Kept(a, u + 1) == Kept(b, u + 1)
    ensures Covers(a, u) <==> Covers(b, u)
  {
    assert Kept(a, u + 1) == Kept(a, u) + (if Covers(a, u) then 0 else 1);
    assert Kept(b, u + 1) == Kept(b, u) + (if Covers(b, u) then 0 else 1);
  }

  /** The gaps that `cuts` become on the line re-timed by `gaps`. */
  function RetimedList(gaps: seq<Interval>, cuts: seq<Interval>): (r: seq<Interval>)
    ensures |r| == |cuts|
    ensures cuts != [] ==> Last(r).stop == Retimed(gaps, Last(cuts).stop)
  {
    if cuts == [] then []
    else [Interval(Retimed(gaps, cuts[0].start), Retimed(gaps, cuts[0].stop))] + RetimedList(gaps, cuts[1..])
  }

  lemma {:induction false} RetimedListOrdered(gaps: seq<Interval>, cuts: seq<Interval>, low: nat)
    requires Ordered(gaps) && StartsFrom(gaps, 0)
    requires Ordered(cuts) && StartsFrom(cuts, low)
    ensures Ordered(RetimedList(gaps, cuts)) && StartsFrom(RetimedList(gaps, cuts), Retimed(gaps, low))
    ensures 0 <= Retimed(gaps, low)
  {
    RetimedShape(gaps, low, low);
    if cuts != [] {
      RetimedShape(gaps, low, cuts[0].start);
      RetimedShape(gaps, cuts[0].start, cuts[0].stop);
      RetimedListOrdered(gaps, cuts[1..], cuts[0].stop);
      OrderedCons(Interval(Retimed(gaps, cuts[0].start), Retimed(gaps, cuts[0].stop)), RetimedList(gaps, cuts[1..]));
      StartsFromLower(RetimedList(gaps, cuts), Retimed(gaps, cuts[0].start), Retimed(gaps, low));
    }
  }

  /** A surviving instant is cut on the re-timed line iff it is cut on the original one. */
  lemma {:induction false} CutSeenThroughRetiming(gaps: seq<Interval>, cuts: seq<Interval>, x: nat)
    requires Ordered(gaps) && StartsFrom(gaps, 0)
    requires Ordered(cuts) && StartsFrom(cuts, 0)
    requires !Covers(gaps, x)
    ensures Covers(RetimedList(gaps, cuts), Retimed(gaps, x)) <==> Covers(cuts, x)
  {
    if cuts != [] {
      RetimedReflects(gaps, x, cuts[0].start);
      RetimedReflects(gaps, x, cuts[0].stop);
      StartsFromLower(cuts[1..], cuts[0].stop, 0);
      CutSeenThroughRetiming(gaps, cuts[1..], x);
      assert RetimedList(gaps, cuts)[1..] == RetimedList(gaps, cuts[1..]);
    }
  }

  /** Two rounds are one: re-timing by `gaps` and then by the re-timed `cuts` leaves
      exactly the length that neither of them covers. */
  lemma {:induction false} TwoRoundsAreOne(gaps: seq<Interval>, cuts: seq<Interval>, t: nat)
    requires Ordered(gaps) && StartsFrom(gaps, 0)
    requires Ordered(cuts) && StartsFrom(cuts, 0)
    ensures Retimed(RetimedList(gaps, cuts), Retimed(gaps, t))
         == Measure(Complement(Points(gaps) + Points(cuts)), t)
         == t - Measure(Points(gaps) + Points(cuts), t)
  {
    var cuts' := RetimedList(gaps, cuts);
    var kept := Complement(Points(cuts'));
    RetimedListOrdered(gaps, cuts, 0);
    RetimedIsKept(gaps, 0);
    RetimedIsKept(gaps, t);
    RetimedIsKept(cuts', Kept(gaps, t));
    MeasureOfImage(gaps, kept, t);
    forall x: nat | x < t
      ensures x in PullBack(gaps, kept) <==> x in Complement(Points(gaps) + Points(cuts))
    {
      if !Covers(gaps, x) {
        CutSeenThroughRetiming(gaps, cuts, x);
      }
    }
    MeasureCongruent(PullBack(gaps, kept), Complement(Points(gaps) + Points(cuts)), t);
    MeasureComplement(Points(gaps) + Points(cuts), t);
  }
}
