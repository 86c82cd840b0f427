/** Half-open intervals of instants, the sets of instants they cover, and the
    length of such a set before a given instant.

    An instant is a whole number of nanoseconds.  The length of a set before `t`
    is the number of its instants in `[0, t)`, which needs no interval arithmetic:
    the formulas of the program are proved against it. */
module Intervals {
  import opened Numbers

  datatype Interval = Interval(start: int, stop: int)

  ghost predicate Covers(list: seq<Interval>, x: int) {
    list != [] && (list[0].start <= x < list[0].stop || Covers(list[1..], x))
  }

  predicate StartsFrom(list: seq<Interval>, low: int) {
    list == [] || (low <= list[0].start && StartsFrom(list[1..], low))
  }

  /** Sorted and non-overlapping; intervals may be empty and may touch. */
  predicate Ordered(list: seq<Interval>) {
    list == [] || (list[0].start <= list[0].stop && StartsFrom(list[1..], list[0].stop) && Ordered(list[1..]))
  }

  /** The same three notions by position. */
  lemma {:induction false} CoversByIndex(list: seq<Interval>, x: int)
    ensures Covers(list, x) <==> exists i :: 0 <= i < |list| && list[i].start <= x < list[i].stop
  {
    if list != [] {
      CoversByIndex(list[1..], x);
      if list[0].start <= x < list[0].stop {
        assert 0 <= 0 < |list| && list[0].start <= x < list[0].stop;
      } else if Covers(list[1..], x) {
        var i :| 0 <= i < |list[1..]| && list[1..][i].start <= x < list[1..][i].stop;
        assert list[i + 1] == list[1..][i];
      }
    }
  }

  lemma {:induction false} StartsFromByIndex(list: seq<Interval>, low: int)
    ensures StartsFrom(list, low) <==> forall i :: 0 <= i < |list| ==> low <= list[i].start
  {
    if list != [] {
      StartsFromByIndex(list[1..], low);
      assert forall i :: 0 < i < |list| ==> list[i] == list[1..][i - 1];
    }
  }

  lemma {:induction false} OrderedByIndex(list: seq<Interval>)
    ensures Ordered(list) <==>
      && (forall i :: 0 <= i < |list| ==> list[i].start <= list[i].stop)
      && (forall i, j :: 0 <= i < j < |list| ==> list[i].stop <= list[j].start)
  {
    if list != [] {
      OrderedByIndex(list[1..]);
      StartsFromByIndex(list[1..], list[0].stop);
      assert forall i :: 0 < i < |list| ==> list[i] == list[1..][i - 1];
    }
  }

  function Last(list: seq<Interval>): Interval
    requires list != []
  {
    list[|list| - 1]
  }

  function TotalLength(list: seq<Interval>): int {
    if list == [] then 0 else list[0].stop - list[0].start + TotalLength(list[1..])
  }

  /** Every interval moved by `d`. */
  function Translate(list: seq<Interval>, d: int): (r: seq<Interval>)
    ensures |r| == |list|
    ensures list != [] ==> Last(r).stop == Last(list).stop + d
  {
    if list == [] then []
    else [Interval(list[0].start + d, list[0].stop + d)] + Translate(list[1..], d)
  }

  // ---- Sets of instants and their length ---------------------------------

  ghost function Points(list: seq<Interval>): iset<int> {
    iset x | Covers(list, x)
  }

  ghost function Complement(s: iset<int>): iset<int> {
    iset x | x !in s
  }

  ghost function Measure(s: iset<int>, t: nat): nat {
    if t == 0 then 0 else Measure(s, t - 1) + (if t - 1 in s then 1 else 0)
  }

  lemma {:induction false} MeasureCongruent(a: iset<int>, b: iset<int>, t: nat)
    requires forall x :: 0 <= x < t ==> (x in a <==> x in b)
    ensures Measure(a, t) == Measure(b, t)
  {
    if t > 0 {
      MeasureCongruent(a, b, t - 1);
    }
  }

  lemma {:induction false} MeasureUnion(a: iset<int>, b: iset<int>, t: nat)
    requires forall x :: 0 <= x < t ==> x !in a || x !in b
    ensures Measure(a + b, t) == Measure(a, t) + Measure(b, t)
  {
    if t > 0 {
      MeasureUnion(a, b, t - 1);
    }
  }

  lemma {:induction false} MeasureComplement(s: iset<int>, t: nat)
    ensures Measure(s, t) + Measure(Complement(s), t) == t
  {
    if t > 0 {
      MeasureComplement(s, t - 1);
    }
  }

  /** Length grows with `t`, never faster than `t`, and exactly by the instants of
      the set that lie between the two ends. */
  lemma {:induction false} MeasureGrowth(s: iset<int>, t: nat, u: nat)
    requires t <= u
    ensures 0 <= Measure(s, u) - Measure(s, t) <= u - t
    ensures (forall x :: t <= x < u ==> x in s) ==> Measure(s, u) - Measure(s, t) == u - t
    ensures (forall x :: t <= x < u ==> x !in s) ==> Measure(s, u) == Measure(s, t)
    decreases u
  {
    if t < u {
      MeasureGrowth(s, t, u - 1);
    }
  }

  lemma {:induction false} MeasureOfOne(g: Interval, t: nat)
    requires 0 <= g.start <= g.stop
    ensures Measure(Points([g]), t) == if g.start < t then Min(g.stop, t) - g.start else 0
  {
    if t > 0 {
      MeasureOfOne(g, t - 1);
      SingleCovers(g, t - 1);
    }
  }

  lemma {:induction false} MeasureOfNothing(t: nat)
    ensures Measure(Points([]), t) == 0
  {
    MeasureGrowth(Points([]), 0, t);
  }

  /** An ordered list adds up: the first interval, then the others. */
  lemma {:induction false} MeasureOfList(list: seq<Interval>, t: nat)
    requires list != [] && Ordered(list) && StartsFrom(list, 0)
    ensures Measure(Points(list), t)
         == (if list[0].start < t then Min(list[0].stop, t) - list[0].start else 0) + Measure(Points(list[1..]), t)
  {
    var first, others := Points([list[0]]), Points(list[1..]);
    forall x ensures (x !in first || x !in others) && (x in Points(list) <==> x in first + others) {
      SingleCovers(list[0], x);
      if Covers(list[1..], x) {
        CoveredAfterStart(list[1..], list[0].stop, x);
      }
    }
    assert Points(list) == first + others;
    MeasureUnion(first, others, t);
    MeasureOfOne(list[0], t);
  }

  /** The total length of an ordered list inside `[0, t)` is the measure of its points. */
  lemma {:induction false} TotalLengthIsMeasure(list: seq<Interval>, t: nat)
    requires Ordered(list) && StartsFrom(list, 0)
    requires list != [] ==> Last(list).stop <= t
    ensures TotalLength(list) == Measure(Points(list), t)
  {
    if list == [] {
      MeasureOfNothing(t);
    } else {
      TotalLengthIsMeasure(list[1..], t);
      MeasureOfList(list, t);
      StopsByLast(list);
    }
  }

  // ---- One interval at a time --------------------------------------------

  lemma {:induction false} CoveredAfterStart(list: seq<Interval>, low: int, x: int)
    requires StartsFrom(list, low) && Covers(list, x)
    ensures low <= x
  {
    if !(list[0].start <= x < list[0].stop) {
      CoveredAfterStart(list[1..], low, x);
    }
  }

  lemma {:induction false} InsideHull(list: seq<Interval>, x: int)
    requires list != [] && Ordered(list) && Covers(list, x)
    ensures list[0].start <= x < Last(list).stop
  {
    StopsByLast(list);
    if !(list[0].start <= x < list[0].stop) {
      InsideHull(list[1..], x);
      CoveredAfterStart(list[1..], list[0].stop, x);
    }
  }

  lemma {:induction false} StopsByLast(list: seq<Interval>)
    requires list != [] && Ordered(list)
    ensures list[0].start <= list[0].stop <= Last(list).stop
  {
    if |list| > 1 {
      StopsByLast(list[1..]);
    }
  }

  lemma {:induction false} StartsFromLower(list: seq<Interval>, high: int, low: int)
    requires StartsFrom(list, high) && low <= high
    ensures StartsFrom(list, low)
  {
    if list != [] {
      StartsFromLower(list[1..], high, low);
    }
  }

  lemma {:induction false} OrderedCons(g: Interval, list: seq<Interval>)
    requires g.start <= g.stop && Ordered(list) && StartsFrom(list, g.stop)
    ensures Ordered([g] + list) && StartsFrom([g] + list, g.start)
  {
    assert ([g] + list)[1..] == list;
    StartsFromLower(list, g.stop, g.start);
  }

  lemma {:induction false} StartsFromFirst(list: seq<Interval>)
    requires list != [] && Ordered(list)
    ensures StartsFrom(list, list[0].start)
  {
    StartsFromLower(list[1..], list[0].stop, list[0].start);
  }

  lemma {:induction false} SingleCovers(g: Interval, x: int)
    ensures Covers([g], x) <==> g.start <= x < g.stop
  {
  }

  lemma {:induction false} ConsCovers(g: Interval, list: seq<Interval>, x: int)
    ensures Covers([g] + list, x) <==> g.start <= x < g.stop || Covers(list, x)
  {
    assert ([g] + list)[1..] == list;
  }

  lemma {:induction false} ConcatCovers(a: seq<Interval>, b: seq<Interval>, x: int)
    ensures Covers(a + b, x) <==> Covers(a, x) || Covers(b, x)
  {
    if a == [] {
      assert a + b == b;
    } else {
      ConcatCovers(a[1..], b, x);
      assert (a + b)[1..] == a[1..] + b;
    }
  }

  lemma {:induction false} TranslateOrdered(list: seq<Interval>, d: int, low: int)
    requires Ordered(list) && StartsFrom(list, low)
    ensures Ordered(Translate(list, d)) && StartsFrom(Translate(list, d), low + d)
  {
    if list != [] {
      TranslateOrdered(list[1..], d, list[0].stop);
      OrderedCons(Interval(list[0].start + d, list[0].stop + d), Translate(list[1..], d));
      StartsFromLower(Translate(list, d), list[0].start + d, low + d);
    }
  }

  /** Moving a list moves its points. */
  lemma {:induction false} TranslateCovers(list: seq<Interval>, d: int, x: int)
    ensures Covers(Translate(list, d), x) <==> Covers(list, x - d)
  {
    if list != [] {
      TranslateCovers(list[1..], d, x);
      ConsCovers(Interval(list[0].start + d, list[0].stop + d), Translate(list[1..], d), x);
    }
  }

  lemma {:induction false} TranslateLength(list: seq<Interval>, d: int)
    ensures TotalLength(Translate(list, d)) == TotalLength(list)
  {
    if list != [] {
      TranslateLength(list[1..], d);
      assert Translate(list, d)[1..] == Translate(list[1..], d);
    }
  }
}
