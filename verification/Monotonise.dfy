/** Spreading out events that re-timing put on the same instant:
    `occurred_at + ROW_NUMBER() OVER (PARTITION BY occurred_at, … ORDER BY created_at) - 1`.
    Rows with equal `created_at` are numbered in table order. */
module Monotonise {

  datatype Row = Row(at: int, partition: bool, createdAt: int)

  predicate Valid(rows: seq<Row>, i: nat) { i < |rows| }

  predicate Together(rows: seq<Row>, i: nat, j: nat)
    requires Valid(rows, i) && Valid(rows, j)
  {
    rows[i].at == rows[j].at && rows[i].partition == rows[j].partition
  }

  predicate CreatedBefore(rows: seq<Row>, i: nat, j: nat)
    requires Valid(rows, i) && Valid(rows, j)
  {
    rows[i].createdAt < rows[j].createdAt || (rows[i].createdAt == rows[j].createdAt && i < j)
  }

  function Peers(rows: seq<Row>, i: nat): set<nat>
    requires Valid(rows, i)
  {
    set j: nat | j < |rows| && Together(rows, j, i)
  }

  /** The rows numbered before row `i` in its partition. */
  function Ahead(rows: seq<Row>, i: nat): set<nat>
    requires Valid(rows, i)
  {
    set j: nat | j < |rows| && Together(rows, j, i) && CreatedBefore(rows, j, i)
  }

  function Rank(rows: seq<Row>, i: nat): nat
    requires Valid(rows, i)
  {
    |Ahead(rows, i)|
  }

  function Spread(rows: seq<Row>, i: nat): int
    requires Valid(rows, i)
  {
    rows[i].at + Rank(rows, i)
  }

  // ---- Row numbers --------------------------------------------------------

  lemma {:induction false} SmallerSet(a: set<nat>, b: set<nat>)
    requires a < b
    ensures |a| < |b|
  {
    assert a + (b - a) == b;
  }

  lemma {:induction false} RankBelowSize(rows: seq<Row>, i: nat)
    requires Valid(rows, i)
    ensures Rank(rows, i) < |Peers(rows, i)| <= |rows|
  {
    assert i in Peers(rows, i) - Ahead(rows, i);
    SmallerSet(Ahead(rows, i), Peers(rows, i));
    IndicesAtMost(Peers(rows, i), |rows|);
  }

  lemma {:induction false} IndicesAtMost(s: set<nat>, n: nat)
    requires forall i :: i in s ==> i < n
    ensures |s| <= n
  {
    if n == 0 {
      assert s == {};
    } else {
      IndicesAtMost(s - {n - 1}, n - 1);
      assert s <= (s - {n - 1}) + {n - 1};
    }
  }

  lemma {:induction false} RankFollowsCreation(rows: seq<Row>, i: nat, j: nat)
    requires Valid(rows, i) && Valid(rows, j) && Together(rows, i, j) && CreatedBefore(rows, i, j)
    ensures Rank(rows, i) < Rank(rows, j)
  {
    assert i in Ahead(rows, j) - Ahead(rows, i);
    assert Ahead(rows, i) <= Ahead(rows, j);
    SmallerSet(Ahead(rows, i), Ahead(rows, j));
  }

  /** Every partition has a row numbered last ... */
  lemma {:induction false} LastPeer(rows: seq<Row>, i: nat, s: set<nat>) returns (k: nat)
    requires Valid(rows, i) && i in s && s <= Peers(rows, i)
    ensures k in s && forall j :: j in s && j != k ==> CreatedBefore(rows, j, k)
    decreases s
  {
    if s == {i} {
      k := i;
    } else {
      var o :| o in s && o != i;
      var rest := s - {o};
      k := LastPeer(rows, i, rest);
      assert forall j :: j in s ==> j in rest || j == o;
      if CreatedBefore(rows, k, o) {
        k := o;
      }
    }
  }

  lemma {:induction false} LastRank(rows: seq<Row>, i: nat) returns (k: nat)
    requires Valid(rows, i)
    ensures k in Peers(rows, i) && Rank(rows, k) == |Peers(rows, i)| - 1
  {
    k := LastPeer(rows, i, Peers(rows, i));
    assert Ahead(rows, k) == Peers(rows, i) - {k};
  }

  /** ... and a row numbered first. */
  lemma {:induction false} FirstRank(rows: seq<Row>, i: nat) returns (k: nat)
    requires Valid(rows, i)
    ensures k in Peers(rows, i) && Rank(rows, k) == 0
    decreases Rank(rows, i)
  {
    if Ahead(rows, i) == {} {
      k := i;
    } else {
      var j :| j in Ahead(rows, i);
      RankFollowsCreation(rows, j, i);
      k := FirstRank(rows, j);
    }
  }

  // ---- When the result is in strict order ---------------------------------

  /** The order the rows are meant to have: by re-timed instant, then by creation. */
  predicate Precedes(rows: seq<Row>, i: nat, j: nat)
    requires Valid(rows, i) && Valid(rows, j)
  {
    rows[i].at < rows[j].at || (rows[i].at == rows[j].at && CreatedBefore(rows, i, j))
  }

  predicate StrictlyOrdered(rows: seq<Row>, part: bool) {
    forall i: nat, j: nat | i < |rows| && j < |rows| && rows[i].partition == part && rows[j].partition == part ::
      Precedes(rows, i, j) ==> Spread(rows, i) < Spread(rows, j)
  }

  /** No group of ties is larger than the distance to any later instant in use. */
  predicate HasRoom(rows: seq<Row>, part: bool) {
    forall i: nat, j: nat | i < |rows| && j < |rows| && rows[i].partition == part && rows[j].partition == part ::
      rows[i].at < rows[j].at ==> |Peers(rows, i)| <= rows[j].at - rows[i].at
  }

  lemma {:induction false} SpreadInOrder(rows: seq<Row>, i: nat, j: nat)
    requires Valid(rows, i) && Valid(rows, j)
    requires rows[i].partition == rows[j].partition && Precedes(rows, i, j)
    requires rows[i].at < rows[j].at ==> |Peers(rows, i)| <= rows[j].at - rows[i].at
    ensures Spread(rows, i) < Spread(rows, j)
  {
    if rows[i].at == rows[j].at {
      RankFollowsCreation(rows, i, j);
    } else {
      RankBelowSize(rows, i);
    }
  }

  /** A row is pushed on by one for every row of its instant and partition that was created before
      it, or at the same time and stands in front of it. */
  lemma {:induction false} SpreadByCreation(rows: seq<Row>, i: nat)
    requires Valid(rows, i)
    ensures Spread(rows, i) == rows[i].at
      + |set k: nat | k < |rows| && rows[k].at == rows[i].at && rows[k].partition == rows[i].partition
                    && (rows[k].createdAt < rows[i].createdAt || (rows[k].createdAt == rows[i].createdAt && k < i))|
    ensures Spread(rows, i) - rows[i].at < |rows|
  {
    RankBelowSize(rows, i);
    assert Ahead(rows, i)
        == set k: nat | k < |rows| && rows[k].at == rows[i].at && rows[k].partition == rows[i].partition
                      && (rows[k].createdAt < rows[i].createdAt || (rows[k].createdAt == rows[i].createdAt && k < i));
  }

  /** Of two rows of one instant and partition the one created first comes out first; rows created
      at the same time come out in table order. */
  lemma {:induction false} TiesFollowCreation(rows: seq<Row>, i: nat, j: nat)
    requires Valid(rows, i) && Valid(rows, j) && i != j
    requires rows[i].at == rows[j].at && rows[i].partition == rows[j].partition
    ensures Spread(rows, i) < Spread(rows, j) <==>
      rows[i].createdAt < rows[j].createdAt || (rows[i].createdAt == rows[j].createdAt && i < j)
  {
    if CreatedBefore(rows, i, j) {
      RankFollowsCreation(rows, i, j);
    } else {
      RankFollowsCreation(rows, j, i);
    }
  }

  /** Final times are strictly increasing in the order of instant, then of creation, then of the
      table, so also distinct, exactly when every group of ties has room before the next instant. */
  lemma {:induction false} StrictOrderIffRoom(rows: seq<Row>, part: bool)
    ensures StrictlyOrdered(rows, part) <==> HasRoom(rows, part)
    ensures HasRoom(rows, part) <==>
      forall i: nat, j: nat | i < |rows| && j < |rows| && rows[i].partition == part && rows[j].partition == part ::
        (rows[i].at < rows[j].at
         || (rows[i].at == rows[j].at
             && (rows[i].createdAt < rows[j].createdAt || (rows[i].createdAt == rows[j].createdAt && i < j))))
        ==> Spread(rows, i) < Spread(rows, j)
  {
    if HasRoom(rows, part) {
      forall i: nat, j: nat | i < |rows| && j < |rows| && rows[i].partition == part && rows[j].partition == part
        && Precedes(rows, i, j)
        ensures Spread(rows, i) < Spread(rows, j)
      {
        SpreadInOrder(rows, i, j);
      }
    } else {
      var i: nat, j: nat :| i < |rows| && j < |rows| && rows[i].partition == part && rows[j].partition == part
        && rows[i].at < rows[j].at && rows[j].at - rows[i].at < |Peers(rows, i)|;
      var last := LastRank(rows, i);
      var first := FirstRank(rows, j);
      assert Precedes(rows, last, first) && Spread(rows, first) <= Spread(rows, last);
    }
  }

  lemma {:induction false} StrictOrderIsInjective(rows: seq<Row>, i: nat, j: nat)
    requires Valid(rows, i) && Valid(rows, j) && i != j && rows[i].partition == rows[j].partition
    requires HasRoom(rows, rows[i].partition)
    ensures Spread(rows, i) != Spread(rows, j)
  {
    StrictOrderIffRoom(rows, rows[i].partition);
    assert Precedes(rows, i, j) || Precedes(rows, j, i);
  }
}
