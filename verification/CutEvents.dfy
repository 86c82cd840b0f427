/** Turning a list of cut events into gaps with a flat state machine. */
module CutEvents {
  import opened Intervals
  import opened RoomEvents
  import opened Sorting

  /** What the machine reads of an event. */
  datatype Mark = Mark(cut: Command, at: int)

  function MarksOf(events: seq<Event>): (r: seq<Mark>)
    ensures |r| == |events|
    ensures forall i :: 0 <= i < |events| ==> r[i] == Mark(events[i].body.cut, events[i].occurredAt)
  {
    seq(|events|, i requires 0 <= i < |events| => Mark(events[i].body.cut, events[i].occurredAt))
  }

  datatype Result<T> = Ok(value: T) | Invalid(index: nat)

  /** Where the first command other than start or stop stands, if there is one. */
  function FirstUnknown(marks: seq<Mark>): (r: nat)
    ensures r <= |marks|
    ensures forall i :: 0 <= i < r ==> marks[i].cut != Unknown
    ensures r < |marks| ==> marks[r].cut == Unknown
  {
    if marks == [] || marks[0].cut == Unknown then 0 else 1 + FirstUnknown(marks[1..])
  }

  /** The reference: a gap is a start immediately followed by a stop. */
  function PairOf(first: Mark, second: Mark): seq<Interval> {
    if first.cut == Start && second.cut == Stop then [Interval(first.at, second.at)] else []
  }

  function AdjacentPairs(marks: seq<Mark>): seq<Interval> {
    if |marks| < 2 then [] else PairOf(marks[0], marks[1]) + AdjacentPairs(marks[1..])
  }

  const VIRTUAL_START := Mark(Start, 0)

  /** The recording counts as cut from 0 until the first stop. */
  function CutGaps(marks: seq<Mark>): seq<Interval> {
    AdjacentPairs([VIRTUAL_START] + marks)
  }

  datatype State = Started(at: int) | Stopped

  method CutEventsToGaps(cutEvents: seq<Event>) returns (r: Result<seq<Interval>>)
    ensures r.Ok? <==> FirstUnknown(MarksOf(cutEvents)) == |cutEvents|
    ensures r.Ok? ==> r.value == CutGaps(MarksOf(cutEvents))
    ensures r.Invalid? ==> r.index == FirstUnknown(MarksOf(cutEvents))
  {
    var gaps: seq<Interval> := [];
    var state := Started(0);
    ghost var marks := [VIRTUAL_START] + MarksOf(cutEvents);
    assert marks[0..] == marks;
    for k := 0 to |cutEvents|
      invariant state == if marks[k].cut == Start then Started(marks[k].at) else Stopped
      invariant marks[k].cut != Unknown
      invariant gaps + AdjacentPairs(marks[k..]) == CutGaps(MarksOf(cutEvents))
      invariant k <= FirstUnknown(MarksOf(cutEvents))
    {
      var command, at := cutEvents[k].body.cut, cutEvents[k].occurredAt;
      assert marks[k + 1] == Mark(command, at);
      PairStep(marks, k, gaps);
      match (command, state)
      case (Start, Started(_)) =>
        state := Started(at);
      case (Start, Stopped) =>
        state := Started(at);
      case (Stop, Started(start)) =>
        gaps := gaps + [Interval(start, at)];
        state := Stopped;
      case (Stop, Stopped) =>
      case (Unknown, _) =>
        return Invalid(k);
    }
    return Ok(gaps);
  }

  lemma {:induction false} PairStep(marks: seq<Mark>, k: nat, gaps: seq<Interval>)
    requires k + 1 < |marks|
    ensures gaps + PairOf(marks[k], marks[k + 1]) + AdjacentPairs(marks[k + 1..]) == gaps + AdjacentPairs(marks[k..])
  {
    assert marks[k..][1..] == marks[k + 1..];
    Regroup(gaps, PairOf(marks[k], marks[k + 1]), AdjacentPairs(marks[k + 1..]));
  }

  // ---- Shape of the gaps --------------------------------------------------

  ghost predicate InTimeOrder(marks: seq<Mark>) {
    forall i, j :: 0 <= i < j < |marks| ==> marks[i].at <= marks[j].at
  }

  lemma {:induction false} AdjacentPairsOrdered(marks: seq<Mark>)
    requires InTimeOrder(marks)
    ensures Ordered(AdjacentPairs(marks))
    ensures marks != [] ==> StartsFrom(AdjacentPairs(marks), marks[0].at)
  {
    if |marks| >= 2 {
      var rest := marks[1..];
      assert rest[0] == marks[1];
      AdjacentPairsOrdered(rest);
      if marks[0].cut == Start && marks[1].cut == Stop {
        OrderedCons(Interval(marks[0].at, marks[1].at), AdjacentPairs(rest));
      } else {
        assert AdjacentPairs(marks) == AdjacentPairs(rest);
        StartsFromLower(AdjacentPairs(rest), marks[1].at, marks[0].at);
      }
    }
  }

  /** Cut events in time order, none before 0, give sorted gaps that do not overlap. */
  lemma {:induction false} CutGapsOrdered(marks: seq<Mark>)
    requires InTimeOrder(marks) && forall i :: 0 <= i < |marks| ==> 0 <= marks[i].at
    ensures Ordered(CutGaps(marks)) && StartsFrom(CutGaps(marks), 0)
  {
    AdjacentPairsOrdered([VIRTUAL_START] + marks);
  }

  lemma {:induction false} AdjacentPairsWithin(marks: seq<Mark>, end: int)
    requires forall i :: 0 <= i < |marks| ==> marks[i].at <= end
    ensures AdjacentPairs(marks) != [] ==> Last(AdjacentPairs(marks)).stop <= end
  {
    if |marks| >= 2 {
      AdjacentPairsWithin(marks[1..], end);
    }
  }

  lemma {:induction false} CutGapsWithin(marks: seq<Mark>, end: nat)
    requires forall i :: 0 <= i < |marks| ==> marks[i].at <= end
    ensures CutGaps(marks) != [] ==> Last(CutGaps(marks)).stop <= end
  {
    AdjacentPairsWithin([VIRTUAL_START] + marks, end);
  }

  /** An instant is cut iff the last command at or before it is a start (the virtual one
      included) and a stop follows at once. */
  ghost predicate CutAt(marks: seq<Mark>, x: int) {
    var all := [VIRTUAL_START] + marks;
    exists k :: 0 <= k < |marks| && all[k].cut == Start && all[k + 1].cut == Stop && all[k].at <= x < all[k + 1].at
  }

  lemma {:induction false} AdjacentPairsPoints(marks: seq<Mark>, x: int)
    ensures Covers(AdjacentPairs(marks), x) <==>
      exists k :: 0 <= k < |marks| - 1 && marks[k].cut == Start && marks[k + 1].cut == Stop
               && marks[k].at <= x < marks[k + 1].at
  {
    if |marks| >= 2 {
      AdjacentPairsPoints(marks[1..], x);
      var first := if marks[0].cut == Start && marks[1].cut == Stop then [Interval(marks[0].at, marks[1].at)] else [];
      ConcatCovers(first, AdjacentPairs(marks[1..]), x);
      if Covers(first, x) {
        SingleCovers(Interval(marks[0].at, marks[1].at), x);
        assert marks[0].at <= x < marks[0 + 1].at;
      }
    }
  }

  lemma {:induction false} CutGapsPoints(marks: seq<Mark>, x: int)
    ensures Covers(CutGaps(marks), x) <==> CutAt(marks, x)
  {
    AdjacentPairsPoints([VIRTUAL_START] + marks, x);
  }

  // ---- Re-timing ----------------------------------------------------------

  function RetimedMarks(f: int -> int, marks: seq<Mark>): (r: seq<Mark>)
    ensures |r| == |marks|
    ensures forall i :: 0 <= i < |marks| ==> r[i] == Mark(marks[i].cut, f(marks[i].at))
  {
    seq(|marks|, i requires 0 <= i < |marks| => Mark(marks[i].cut, f(marks[i].at)))
  }

  function Moved(f: int -> int): Interval -> Interval {
    (g: Interval) => Interval(f(g.start), f(g.stop))
  }

  lemma {:induction false} AdjacentPairsCommute(f: int -> int, marks: seq<Mark>)
    ensures AdjacentPairs(RetimedMarks(f, marks)) == Map(Moved(f), AdjacentPairs(marks))
  {
    if |marks| >= 2 {
      AdjacentPairsCommute(f, marks[1..]);
      assert RetimedMarks(f, marks)[1..] == RetimedMarks(f, marks[1..]);
      MapConcat(Moved(f), PairOf(marks[0], marks[1]), AdjacentPairs(marks[1..]));
      PairMoves(f, marks[0], marks[1]);
    }
  }

  lemma {:induction false} PairMoves(f: int -> int, a: Mark, b: Mark)
    ensures Map(Moved(f), PairOf(a, b)) == PairOf(Mark(a.cut, f(a.at)), Mark(b.cut, f(b.at)))
  {
  }

  /** The machine commutes with every re-timing that fixes 0. */
  lemma {:induction false} CutGapsCommute(f: int -> int, marks: seq<Mark>)
    requires f(0) == 0
    ensures CutGaps(RetimedMarks(f, marks)) == Map(Moved(f), CutGaps(marks))
  {
    AdjacentPairsCommute(f, [VIRTUAL_START] + marks);
    assert RetimedMarks(f, [VIRTUAL_START] + marks) == [VIRTUAL_START] + RetimedMarks(f, marks);
  }
}
