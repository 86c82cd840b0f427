/** The two-pointer intersection of two interval lists. */
module Intersect {
  import opened Intervals
  import opened Numbers
  import opened Options
  import opened Sorting

  /** The overlap of two intervals, as a list of at most one interval. */
  function Overlap(p: Interval, q: Interval): seq<Interval> {
    var s := Max(p.start, q.start);
    var e := Min(p.stop, q.stop);
    if s < e then [Interval(s, e)] else []
  }

  /** What the loop produces from two remaining lists, whatever they hold. */
  function Merge(a: seq<Interval>, b: seq<Interval>): seq<Interval>
    decreases |a| + |b|
  {
    if a == [] || b == [] then []
    else Overlap(a[0], b[0]) + (if a[0].stop < b[0].stop then Merge(a[1..], b) else Merge(a, b[1..]))
  }

  /** The reference: every pair of one interval from each list, in order, with the
      empty overlaps left out. */
  function Row(p: Interval, b: seq<Interval>): seq<Interval> {
    if b == [] then [] else Overlap(p, b[0]) + Row(p, b[1..])
  }

  function Pairwise(a: seq<Interval>, b: seq<Interval>): seq<Interval> {
    if a == [] then [] else Row(a[0], b) + Pairwise(a[1..], b)
  }

  method Push(x: Interval, y: Interval, list: seq<Interval>) returns (result: seq<Interval>)
    ensures result == list + Overlap(x, y)
  {
    result := list;
    var start, stop := Max(x.start, y.start), Min(x.stop, y.stop);
    if start < stop {
      result := result + [Interval(start, stop)];
    }
  }

  /** What is done and what the loop will produce from the rest make up the result. */
  ghost predicate OnTrack(a: seq<Interval>, i: nat, b: seq<Interval>, j: nat, done: seq<Interval>) {
    i <= |a| && j <= |b| && done + Merge(a[i..], b[j..]) == Merge(a, b)
  }

  /** An iterator handed out `i` items, of which the loop is done with `p`. */
  predicate Holding(state: Option<Interval>, list: seq<Interval>, i: nat, p: nat) {
    p <= i <= |list| && if state.Some? then i == p + 1 && state.value == list[p] else i == p
  }

  method Refill(state: Option<Interval>, list: seq<Interval>, i: nat, ghost p: nat)
    returns (next: Option<Interval>, j: nat)
    requires Holding(state, list, i, p)
    ensures Holding(next, list, j, p) && (next.None? <==> p == |list|)
  {
    next, j := state, i;
    if state.None? && i < |list| {
      next, j := Some(list[i]), i + 1;
    }
  }

  method Intersect(a: seq<Interval>, b: seq<Interval>) returns (result: seq<Interval>)
    ensures result == Merge(a, b)
  {
    var aState: Option<Interval>, bState: Option<Interval> := None, None;
    var i, j := 0, 0;  // what the two iterators have handed out
    ghost var p, q := 0, 0;  // what the loop is done with
    result := [];
    Begin(a, b);
    while true
      invariant Holding(aState, a, i, p) && Holding(bState, b, j, q)
      invariant OnTrack(a, p, b, q, result)
      decreases |a| + |b| - p - q
    {
      aState, i := Refill(aState, a, i, p);
      bState, j := Refill(bState, b, j, q);
      if aState.None? || bState.None? {
        NothingLeft(a, p, b, q, result);
        break;
      }
      ghost var done := result;
      result := Push(aState.value, bState.value, result);
      if aState.value.stop < bState.value.stop {
        DropsFirst(a, p, b, q, done);
        aState, p := None, p + 1;
      } else {
        DropsSecond(a, p, b, q, done);
        bState, q := None, q + 1;
      }
    }
  }

  lemma {:induction false} Begin(a: seq<Interval>, b: seq<Interval>)
    ensures OnTrack(a, 0, b, 0, [])
  {
    assert a[0..] == a && b[0..] == b;
  }

  lemma {:induction false} DropsFirst(a: seq<Interval>, i: nat, b: seq<Interval>, j: nat, done: seq<Interval>)
    requires i < |a| && j < |b| && a[i].stop < b[j].stop && OnTrack(a, i, b, j, done)
    ensures OnTrack(a, i + 1, b, j, done + Overlap(a[i], b[j]))
  {
    assert a[i..][1..] == a[i + 1..];
    Regroup(done, Overlap(a[i], b[j]), Merge(a[i + 1..], b[j..]));
  }

  lemma {:induction false} DropsSecond(a: seq<Interval>, i: nat, b: seq<Interval>, j: nat, done: seq<Interval>)
    requires i < |a| && j < |b| && b[j].stop <= a[i].stop && OnTrack(a, i, b, j, done)
    ensures OnTrack(a, i, b, j + 1, done + Overlap(a[i], b[j]))
  {
    assert b[j..][1..] == b[j + 1..];
    Regroup(done, Overlap(a[i], b[j]), Merge(a[i..], b[j + 1..]));
  }

  lemma {:induction false} NothingLeft(a: seq<Interval>, i: nat, b: seq<Interval>, j: nat, done: seq<Interval>)
    requires OnTrack(a, i, b, j, done) && (i == |a| || j == |b|)
    ensures done == Merge(a, b)
  {
    assert Merge(a[i..], b[j..]) == [];
  }

  // ---- Merge is the pairwise intersection --------------------------------

  lemma {:induction false} RowSkips(p: Interval, b: seq<Interval>)
    requires StartsFrom(b, p.stop)
    ensures Row(p, b) == []
  {
    if b != [] {
      RowSkips(p, b[1..]);
    }
  }

  lemma {:induction false} PairwiseSkips(a: seq<Interval>, b: seq<Interval>)
    requires b != [] && StartsFrom(a, b[0].stop)
    ensures Pairwise(a, b) == Pairwise(a, b[1..])
  {
    if a != [] {
      PairwiseSkips(a[1..], b);
      assert Row(a[0], b) == Row(a[0], b[1..]);
    }
  }

  /** Dropping the head that ends first loses no pair. */
  lemma {:induction false} PairwiseDropsFirst(a: seq<Interval>, b: seq<Interval>)
    requires Ordered(b) && a != [] && b != [] && a[0].stop <= b[0].stop
    ensures Pairwise(a, b) == Overlap(a[0], b[0]) + Pairwise(a[1..], b)
  {
    StartsFromLower(b[1..], b[0].stop, a[0].stop);
    RowSkips(a[0], b[1..]);
  }

  lemma {:induction false} PairwiseDropsSecond(a: seq<Interval>, b: seq<Interval>)
    requires Ordered(a) && a != [] && b != [] && b[0].stop <= a[0].stop
    ensures Pairwise(a, b) == Overlap(a[0], b[0]) + Pairwise(a, b[1..])
  {
    StartsFromLower(a[1..], a[0].stop, b[0].stop);
    PairwiseSkips(a[1..], b);
    Regroup(Overlap(a[0], b[0]), Row(a[0], b[1..]), Pairwise(a[1..], b[1..]));
  }

  lemma {:induction false} MergeIsPairwise(a: seq<Interval>, b: seq<Interval>)
    requires Ordered(a) && Ordered(b)
    ensures Merge(a, b) == Pairwise(a, b)
    decreases |a| + |b|
  {
    if b == [] {
      NothingToPair(a);
    } else if a != [] {
      if a[0].stop < b[0].stop {
        MergeIsPairwise(a[1..], b);
        PairwiseDropsFirst(a, b);
      } else {
        MergeIsPairwise(a, b[1..]);
        PairwiseDropsSecond(a, b);
      }
    }
  }

  lemma {:induction false} NothingToPair(a: seq<Interval>)
    ensures Pairwise(a, []) == []
  {
    if a != [] {
      NothingToPair(a[1..]);
    }
  }

  // ---- What the result means ---------------------------------------------

  /** An instant is covered by the result iff it is covered by both inputs. */
  lemma {:induction false} IntersectCovers(a: seq<Interval>, b: seq<Interval>, x: int)
    requires Ordered(a) && Ordered(b)
    ensures Covers(Merge(a, b), x) <==> Covers(a, x) && Covers(b, x)
  {
    MergeIsPairwise(a, b);
    PairwiseCovers(a, b, x);
  }

  lemma {:induction false} RowCovers(p: Interval, b: seq<Interval>, x: int)
    ensures Covers(Row(p, b), x) <==> p.start <= x < p.stop && Covers(b, x)
  {
    if b != [] {
      RowCovers(p, b[1..], x);
      ConcatCovers(Overlap(p, b[0]), Row(p, b[1..]), x);
    }
  }

  lemma {:induction false} PairwiseCovers(a: seq<Interval>, b: seq<Interval>, x: int)
    ensures Covers(Pairwise(a, b), x) <==> Covers(a, x) && Covers(b, x)
  {
    if a != [] {
      PairwiseCovers(a[1..], b, x);
      RowCovers(a[0], b, x);
      ConcatCovers(Row(a[0], b), Pairwise(a[1..], b), x);
    }
  }

  /** Whatever one input stays to the right of, the result stays to the right of. */
  lemma {:induction false} IntersectStartsFrom(a: seq<Interval>, b: seq<Interval>, low: int)
    requires StartsFrom(a, low) || StartsFrom(b, low)
    ensures StartsFrom(Merge(a, b), low)
    decreases |a| + |b|
  {
    if a != [] && b != [] {
      var rest := if a[0].stop < b[0].stop then Merge(a[1..], b) else Merge(a, b[1..]);
      if a[0].stop < b[0].stop {
        IntersectStartsFrom(a[1..], b, low);
      } else {
        IntersectStartsFrom(a, b[1..], low);
      }
      var o := Overlap(a[0], b[0]);
      assert o == [] ==> o + rest == rest;
      assert o != [] ==> (o + rest)[1..] == rest;
    }
  }

  ghost predicate NoneEmpty(list: seq<Interval>) {
    list == [] || (list[0].start < list[0].stop && NoneEmpty(list[1..]))
  }

  /** The result is sorted and disjoint and holds no empty interval. */
  lemma {:induction false} IntersectShape(a: seq<Interval>, b: seq<Interval>)
    requires Ordered(a) && Ordered(b)
    ensures Ordered(Merge(a, b)) && NoneEmpty(Merge(a, b))
    decreases |a| + |b|
  {
    if a != [] && b != [] {
      if a[0].stop < b[0].stop {
        IntersectShape(a[1..], b);
        IntersectStartsFrom(a[1..], b, a[0].stop);
        PrependOverlap(a[0], b[0], Merge(a[1..], b));
      } else {
        IntersectShape(a, b[1..]);
        IntersectStartsFrom(a, b[1..], b[0].stop);
        PrependOverlap(a[0], b[0], Merge(a, b[1..]));
      }
    }
  }

  lemma {:induction false} PrependOverlap(p: Interval, q: Interval, rest: seq<Interval>)
    requires Ordered(rest) && NoneEmpty(rest) && StartsFrom(rest, Min(p.stop, q.stop))
    ensures Ordered(Overlap(p, q) + rest) && NoneEmpty(Overlap(p, q) + rest)
  {
    if Overlap(p, q) == [] {
      assert Overlap(p, q) + rest == rest;
    } else {
      assert (Overlap(p, q) + rest)[1..] == rest;
    }
  }

  /** Fewer intervals come out than went in. */
  lemma {:induction false} IntersectSize(a: seq<Interval>, b: seq<Interval>)
    requires a != [] && b != []
    ensures |Merge(a, b)| <= |a| + |b| - 1
    decreases |a| + |b|
  {
    if a[0].stop < b[0].stop {
      if |a| > 1 {
        IntersectSize(a[1..], b);
      }
    } else if |b| > 1 {
      IntersectSize(a, b[1..]);
    }
  }

  /** The order of the arguments does not matter, although a tie always advances
      the second list. */
  lemma {:induction false} IntersectCommutes(a: seq<Interval>, b: seq<Interval>)
    requires Ordered(a) && Ordered(b)
    ensures Merge(a, b) == Merge(b, a)
    decreases |a| + |b|
  {
    if a != [] && b != [] {
      if a[0].stop < b[0].stop {
        IntersectCommutes(a[1..], b);
      } else if a[0].stop > b[0].stop {
        IntersectCommutes(a, b[1..]);
      } else {
        IntersectCommutes(a[1..], b[1..]);
        PassedHead(a, b[1..]);
        PassedHead(b, a[1..]);
      }
    }
  }

  /** A head that ends no later than everything left in the other list is dead weight. */
  lemma {:induction false} PassedHead(a: seq<Interval>, b: seq<Interval>)
    requires Ordered(a) && Ordered(b)
    requires a != [] && StartsFrom(b, a[0].stop)
    ensures Merge(a, b) == Merge(a[1..], b)
  {
    MergeIsPairwise(a, b);
    MergeIsPairwise(a[1..], b);
    RowSkips(a[0], b);
  }
}
