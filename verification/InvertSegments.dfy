/** Turning segments into the gaps around them, and back. */
module InvertSegments {
  import opened Intervals

  /** What is left after `from` becomes a gap only if it is longer than `min`. */
  predicate LongEnough(from: int, duration: int, min: nat) {
    from < duration && duration - from > min
  }

  /** The gaps from `from` on, when `segments` are still to come. */
  function GapsFrom(from: int, segments: seq<Interval>, duration: int, min: nat): seq<Interval>
    decreases segments
  {
    if segments == [] then
      (if LongEnough(from, duration, min) then [Interval(from, duration)] else [])
    else
      [Interval(from, segments[0].start)] + GapsFrom(segments[0].stop, segments[1..], duration, min)
  }

  /** A first segment at 0 or earlier has no gap before it. */
  function Inverted(segments: seq<Interval>, duration: int, min: nat): seq<Interval> {
    if segments == [] then [Interval(0, duration)]
    else if segments[0].start > 0 then GapsFrom(0, segments, duration, min)
    else GapsFrom(segments[0].stop, segments[1..], duration, min)
  }

  method InvertSegments(segments: seq<Interval>, duration: int, min: nat) returns (gaps: seq<Interval>)
    ensures gaps == Inverted(segments, duration, min)
  {
    if segments == [] {
      return [Interval(0, duration)];
    }
    gaps := [];
    if segments[0].start > 0 {
      gaps := gaps + [Interval(0, segments[0].start)];
    }
    GapsStart(segments, duration, min, gaps);
    for i := 0 to |segments| - 1
      invariant gaps + GapsFrom(segments[i].stop, segments[i + 1..], duration, min) == Inverted(segments, duration, min)
    {
      GapsStep(segments, i, duration, min, gaps);
      gaps := gaps + [Interval(segments[i].stop, segments[i + 1].start)];
    }
    var last := segments[|segments| - 1].stop;
    assert segments[|segments| - 1 + 1..] == [];
    if last < duration && duration - last > min {
      gaps := gaps + [Interval(last, duration)];
    }
  }

  lemma {:induction false} GapsStart(segments: seq<Interval>, duration: int, min: nat, gaps: seq<Interval>)
    requires segments != []
    requires gaps == if segments[0].start > 0 then [Interval(0, segments[0].start)] else []
    ensures gaps + GapsFrom(segments[0].stop, segments[1..], duration, min) == Inverted(segments, duration, min)
  {
  }

  lemma {:induction false} GapsStep(segments: seq<Interval>, i: nat, duration: int, min: nat, gaps: seq<Interval>)
    requires i + 1 < |segments|
    ensures gaps + GapsFrom(segments[i].stop, segments[i + 1..], duration, min)
         == gaps + [Interval(segments[i].stop, segments[i + 1].start)]
            + GapsFrom(segments[i + 1].stop, segments[i + 2..], duration, min)
  {
    assert segments[i + 1..][1..] == segments[i + 2..];
  }

  // ---- The gaps are the complement of the segments -----------------------

  predicate HasTail(segments: seq<Interval>, duration: int, min: nat)
    requires segments != []
  {
    LongEnough(Last(segments).stop, duration, min)
  }

  /** The end of the list, or `from` if there is none. */
  function End(from: int, segments: seq<Interval>): int {
    if segments == [] then from else Last(segments).stop
  }

  lemma {:induction false} GapsFromCovers(from: int, segments: seq<Interval>, duration: int, min: nat, x: int)
    requires Ordered(segments) && StartsFrom(segments, from)
    ensures Covers(GapsFrom(from, segments, duration, min), x) <==>
      from <= x && !Covers(segments, x)
      && (x < End(from, segments) || (LongEnough(End(from, segments), duration, min) && x < duration))
    decreases segments
  {
    if segments != [] {
      GapsFromCovers(segments[0].stop, segments[1..], duration, min, x);
      ConsCovers(Interval(from, segments[0].start), GapsFrom(segments[0].stop, segments[1..], duration, min), x);
      StopsByLast(segments);
      if Covers(segments[1..], x) {
        InsideHull(segments[1..], x);
      }
    }
  }

  /** From 0 on, an instant is in a gap iff it is in no segment, up to the end of the last
      segment, or up to the end of the room if the stretch after it became a gap.  The
      segments may start before 0 and may end after the room. */
  lemma {:induction false} InvertedCovers(segments: seq<Interval>, duration: int, min: nat, x: nat)
    requires segments != [] && Ordered(segments)
    ensures Covers(Inverted(segments, duration, min), x) <==>
      !Covers(segments, x) && (x < Last(segments).stop || (HasTail(segments, duration, min) && x < duration))
  {
    if segments[0].start > 0 {
      StartsFromFirst(segments);
      StartsFromLower(segments, segments[0].start, 0);
      GapsFromCovers(0, segments, duration, min, x);
    } else {
      StopsByLast(segments);
      GapsFromCovers(segments[0].stop, segments[1..], duration, min, x);
      if Covers(segments[1..], x) {
        CoveredAfterStart(segments[1..], segments[0].stop, x);
      }
    }
  }

  lemma {:induction false} GapsFromOrdered(from: int, segments: seq<Interval>, duration: int, min: nat)
    requires Ordered(segments) && StartsFrom(segments, from)
    ensures Ordered(GapsFrom(from, segments, duration, min))
    ensures StartsFrom(GapsFrom(from, segments, duration, min), from)
    decreases segments
  {
    if segments != [] {
      var rest := GapsFrom(segments[0].stop, segments[1..], duration, min);
      GapsFromOrdered(segments[0].stop, segments[1..], duration, min);
      StartsFromLower(rest, segments[0].stop, segments[0].start);
      OrderedCons(Interval(from, segments[0].start), rest);
    }
  }

  /** Gaps come out sorted and non-overlapping, and not before 0 unless the segments do. */
  lemma {:induction false} InvertedOrdered(segments: seq<Interval>, duration: int, min: nat)
    requires Ordered(segments)
    requires segments == [] ==> 0 <= duration
    ensures Ordered(Inverted(segments, duration, min))
    ensures StartsFrom(segments, 0) ==> StartsFrom(Inverted(segments, duration, min), 0)
  {
    if segments == [] {
    } else if segments[0].start > 0 {
      StartsFromFirst(segments);
      StartsFromLower(segments, segments[0].start, 0);
      GapsFromOrdered(0, segments, duration, min);
    } else {
      GapsFromOrdered(segments[0].stop, segments[1..], duration, min);
      if StartsFrom(segments, 0) {
        StartsFromLower(Inverted(segments, duration, min), segments[0].stop, 0);
      }
    }
  }

  /** What the tail rule leaves out of both lists. */
  function DroppedTail(segments: seq<Interval>, duration: int, min: nat): int {
    if segments == [] || HasTail(segments, duration, min) then 0 else duration - Last(segments).stop
  }

  lemma {:induction false} GapsFromLength(from: int, segments: seq<Interval>, duration: int, min: nat)
    ensures TotalLength(GapsFrom(from, segments, duration, min)) + TotalLength(segments)
         == (if LongEnough(End(from, segments), duration, min) then duration else End(from, segments)) - from
    decreases segments
  {
    if segments != [] {
      GapsFromLength(segments[0].stop, segments[1..], duration, min);
    }
  }

  /** Segments, gaps and the dropped tail together are exactly as long as the room. */
  lemma {:induction false} InvertConserves(segments: seq<Interval>, duration: int, min: nat)
    requires StartsFrom(segments, 0)
    ensures TotalLength(Inverted(segments, duration, min)) + TotalLength(segments)
          + DroppedTail(segments, duration, min) == duration
    ensures segments != [] && Last(segments).stop <= duration ==> 0 <= DroppedTail(segments, duration, min) <= min
  {
    if segments != [] {
      if segments[0].start > 0 {
        GapsFromLength(0, segments, duration, min);
      } else {
        GapsFromLength(segments[0].stop, segments[1..], duration, min);
      }
    }
  }

  // ---- Inverting twice ---------------------------------------------------

  /** The exact condition under which the gaps still determine the segments. */
  predicate InvertsBack(segments: seq<Interval>, duration: int, min: nat) {
    || segments == []
    || segments == [Interval(0, duration)]
    || (segments[0].stop > 0
        && (HasTail(segments, duration, min)
            || (Last(segments).stop == duration && LongEnough(Last(segments).start, duration, min))))
  }

  /** Inverting the gaps that follow the segment `[a, b)` gives that segment and the rest. */
  lemma {:induction false} GapsFromTwice(a: int, b: int, rest: seq<Interval>, duration: int, min: nat)
    requires Last([Interval(a, b)] + rest).stop <= duration
    ensures var all := [Interval(a, b)] + rest;
      GapsFrom(a, GapsFrom(b, rest, duration, min), duration, min) == all <==>
        HasTail(all, duration, min) || (Last(all).stop == duration && LongEnough(Last(all).start, duration, min))
    decreases rest
  {
    if rest != [] {
      var r := rest[0];
      GapsFromTwice(r.start, r.stop, rest[1..], duration, min);
      assert [r] + rest[1..] == rest;
      var gaps := GapsFrom(r.stop, rest[1..], duration, min);
      assert ([Interval(b, r.start)] + gaps)[1..] == gaps;
      var back := GapsFrom(r.start, gaps, duration, min);
      assert GapsFrom(a, [Interval(b, r.start)] + gaps, duration, min) == [Interval(a, b)] + back;
      assert back == rest <==> [Interval(a, b)] + back == [Interval(a, b)] + rest by {
        assert ([Interval(a, b)] + back)[1..] == back && ([Interval(a, b)] + rest)[1..] == rest;
      }
    }
  }

  lemma {:induction false} GapsFromTwiceSize(a: int, b: int, rest: seq<Interval>, duration: int, min: nat)
    ensures |GapsFrom(a, GapsFrom(b, rest, duration, min), duration, min)| <= |rest| + 1
    decreases rest
  {
    if rest != [] {
      var gaps := GapsFrom(rest[0].stop, rest[1..], duration, min);
      GapsFromTwiceSize(rest[0].start, rest[0].stop, rest[1..], duration, min);
      assert ([Interval(b, rest[0].start)] + gaps)[1..] == gaps;
    }
  }

  lemma {:induction false} InvertTwice(segments: seq<Interval>, duration: int, min: nat)
    requires Ordered(segments) && StartsFrom(segments, 0)
    requires segments != [] ==> Last(segments).stop <= duration
    ensures Inverted(Inverted(segments, duration, min), duration, min) == segments
       <==> InvertsBack(segments, duration, min)
  {
    if segments != [] {
      var s, rest := segments[0], segments[1..];
      var gaps := GapsFrom(s.stop, rest, duration, min);
      assert [s] + rest == segments;
      GapsFromTwice(s.start, s.stop, rest, duration, min);
      if s.start > 0 {
        assert ([Interval(0, s.start)] + gaps)[1..] == gaps;
      } else if s.stop == 0 && rest != [] {
        GapsFromTwiceSize(rest[0].start, rest[0].stop, rest[1..], duration, min);
        var more := GapsFrom(rest[0].stop, rest[1..], duration, min);
        assert ([Interval(0, rest[0].start)] + more)[1..] == more;
        assert |Inverted(gaps, duration, min)| <= |rest|;
      }
    }
  }

  /** A room that goes on a little after its only segment: no gap is left, and inverting nothing
      gives the whole room. */
  lemma InvertTwiceMayDiffer()
    ensures Inverted([Interval(0, 10)], 15, 5) == [] && Inverted([], 15, 5) == [Interval(0, 15)]
  {
    assert [Interval(0, 10)][1..] == [];
  }
}
