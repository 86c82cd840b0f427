/** ORDER BY and stable sorting, on sequences. */
module Sorting {

  ghost predicate Total<T(!new)>(le: (T, T) -> bool) {
    forall x, y :: le(x, y) || le(y, x)
  }

  ghost predicate Transitive<T(!new)>(le: (T, T) -> bool) {
    forall x, y, z :: le(x, y) && le(y, z) ==> le(x, z)
  }

  ghost predicate SortedBy<T>(le: (T, T) -> bool, s: seq<T>) {
    forall i, j :: 0 <= i < j < |s| ==> le(s[i], s[j])
  }

  function Insert<T>(le: (T, T) -> bool, x: T, s: seq<T>): seq<T> {
    if s == [] then [x]
    else if le(x, s[0]) then [x] + s
    else [s[0]] + Insert(le, x, s[1..])
  }

  /** A stable sort: an element stays in front of later ones it ties with. */
  function Sort<T>(le: (T, T) -> bool, s: seq<T>): seq<T> {
    if s == [] then [] else Insert(le, s[0], Sort(le, s[1..]))
  }

  function Map<T, U>(f: T -> U, s: seq<T>): (r: seq<U>)
    ensures |r| == |s| && forall i :: 0 <= i < |s| ==> r[i] == f(s[i])
  {
    if s == [] then [] else [f(s[0])] + Map(f, s[1..])
  }

  function Filter<T>(p: T -> bool, s: seq<T>): seq<T> {
    if s == [] then [] else (if p(s[0]) then [s[0]] else []) + Filter(p, s[1..])
  }

  lemma {:induction false} FilterMembers<T>(p: T -> bool, s: seq<T>)
    ensures forall x :: x in Filter(p, s) <==> x in s && p(x)
  {
    if s != [] {
      FilterMembers(p, s[1..]);
      assert s == [s[0]] + s[1..];
    }
  }

  lemma {:induction false} InsertKeeps<T>(le: (T, T) -> bool, x: T, s: seq<T>)
    ensures multiset(Insert(le, x, s)) == multiset{x} + multiset(s)
  {
    if s != [] {
      assert s == [s[0]] + s[1..];
      InsertKeeps(le, x, s[1..]);
    }
  }

  /** Sorting neither loses nor invents an element. */
  lemma {:induction false} SortKeeps<T>(le: (T, T) -> bool, s: seq<T>)
    ensures multiset(Sort(le, s)) == multiset(s)
    ensures forall x :: x in Sort(le, s) <==> x in s
  {
    if s != [] {
      assert s == [s[0]] + s[1..];
      SortKeeps(le, s[1..]);
      InsertKeeps(le, s[0], Sort(le, s[1..]));
    }
    assert forall x :: x in Sort(le, s) <==> x in multiset(Sort(le, s));
  }

  lemma {:induction false} InsertSorts<T(!new)>(le: (T, T) -> bool, x: T, s: seq<T>)
    requires Total(le) && Transitive(le) && SortedBy(le, s)
    ensures SortedBy(le, Insert(le, x, s))
  {
    if s != [] && !le(x, s[0]) {
      InsertSorts(le, x, s[1..]);
      InsertKeeps(le, x, s[1..]);
      var r := Insert(le, x, s[1..]);
      forall k | 0 <= k < |r| ensures le(s[0], r[k]) {
        assert r[k] in multiset(r);
      }
    }
  }

  lemma {:induction false} SortSorts<T(!new)>(le: (T, T) -> bool, s: seq<T>)
    requires Total(le) && Transitive(le)
    ensures SortedBy(le, Sort(le, s))
  {
    if s != [] {
      SortSorts(le, s[1..]);
      InsertSorts(le, s[0], Sort(le, s[1..]));
    }
  }

  lemma {:induction false} SortOfSorted<T>(le: (T, T) -> bool, s: seq<T>)
    requires SortedBy(le, s)
    ensures Sort(le, s) == s
  {
    if s != [] {
      SortOfSorted(le, s[1..]);
    }
  }

  lemma {:induction false} InsertStable<T(!new)>(le: (T, T) -> bool, p: T -> bool, x: T, s: seq<T>)
    requires forall y, z :: p(y) && p(z) ==> le(y, z)
    ensures Filter(p, Insert(le, x, s)) == Filter(p, [x] + s)
  {
    FilterCons(p, x, s);
    if s != [] && !le(x, s[0]) {
      InsertStable(le, p, x, s[1..]);
      FilterCons(p, x, s[1..]);
      FilterCons(p, s[0], Insert(le, x, s[1..]));
    }
  }

  lemma {:induction false} FilterCons<T>(p: T -> bool, x: T, s: seq<T>)
    ensures Filter(p, [x] + s) == (if p(x) then [x] else []) + Filter(p, s)
  {
    assert ([x] + s)[1..] == s;
  }

  lemma {:induction false} FilterConcat<T>(p: T -> bool, a: seq<T>, b: seq<T>)
    ensures Filter(p, a + b) == Filter(p, a) + Filter(p, b)
  {
    if a == [] {
      assert a + b == b;
    } else {
      var rest := a[1..];
      FilterConcat(p, rest, b);
      assert a == [a[0]] + rest && a + b == [a[0]] + (rest + b);
      FilterCons(p, a[0], rest);
      FilterCons(p, a[0], rest + b);
      Regroup(if p(a[0]) then [a[0]] else [], Filter(p, rest), Filter(p, b));
    }
  }

  lemma {:induction false} Regroup<T>(a: seq<T>, b: seq<T>, c: seq<T>)
    ensures (a + b) + c == a + (b + c)
  {
  }

  lemma {:induction false} FilterSnoc<T>(p: T -> bool, s: seq<T>, x: T)
    ensures Filter(p, s + [x]) == Filter(p, s) + (if p(x) then [x] else [])
  {
    FilterConcat(p, s, [x]);
    FilterCons(p, x, []);
    assert [x] + [] == [x];
  }

  lemma {:induction false} FilterAll<T>(p: T -> bool, s: seq<T>)
    requires forall x :: x in s ==> p(x)
    ensures Filter(p, s) == s
  {
    if s != [] {
      FilterAll(p, s[1..]);
    }
  }

  lemma {:induction false} FilterTwice<T>(p: T -> bool, inner: T -> bool, both: T -> bool, s: seq<T>)
    requires forall x :: x in s ==> (both(x) <==> inner(x) && p(x))
    ensures Filter(p, Filter(inner, s)) == Filter(both, s)
  {
    if s != [] {
      FilterTwice(p, inner, both, s[1..]);
      assert s[0] in s;
      if inner(s[0]) {
        FilterCons(p, s[0], Filter(inner, s[1..]));
      } else {
        assert Filter(inner, s) == Filter(inner, s[1..]);
      }
    }
  }

  lemma {:induction false} FilterAgrees<T>(p: T -> bool, c: T -> bool, s: seq<T>)
    requires forall x :: x in s ==> (p(x) <==> c(x))
    ensures Filter(p, s) == Filter(c, s)
  {
    if s != [] {
      FilterAgrees(p, c, s[1..]);
    }
  }

  lemma {:induction false} FilterNone<T>(p: T -> bool, s: seq<T>)
    requires forall i :: 0 <= i < |s| ==> !p(s[i])
    ensures Filter(p, s) == []
  {
    if s != [] {
      FilterNone(p, s[1..]);
    }
  }

  /** What a filter finds first. */
  lemma {:induction false} FilterFirst<T>(p: T -> bool, s: seq<T>) returns (k: nat)
    requires Filter(p, s) != []
    ensures k < |s| && s[k] == Filter(p, s)[0] && p(s[k]) && forall m :: 0 <= m < k ==> !p(s[m])
  {
    if p(s[0]) {
      k := 0;
    } else {
      k := FilterFirst(p, s[1..]);
      k := k + 1;
    }
  }

  ghost predicate Increasing(at: seq<nat>) {
    forall i, j :: 0 <= i < j < |at| ==> at[i] < at[j]
  }

  /** A filter keeps the elements at some places, in order, and those are all that it wants. */
  lemma {:induction false} FilterPlaces<T>(p: T -> bool, s: seq<T>) returns (at: seq<nat>)
    ensures Increasing(at) && |at| == |Filter(p, s)|
    ensures forall k :: 0 <= k < |at| ==> at[k] < |s| && p(s[at[k]]) && Filter(p, s)[k] == s[at[k]]
    ensures forall i: nat :: i < |s| && p(s[i]) ==> i in at
  {
    if s == [] {
      at := [];
    } else {
      var last := |s| - 1;
      assert s == s[..last] + [s[last]];
      FilterSnoc(p, s[..last], s[last]);
      at := FilterPlaces(p, s[..last]);
      if p(s[last]) {
        at := at + [last];
      }
    }
  }

  /** Elements that tie with each other keep their order. */
  lemma {:induction false} SortStable<T(!new)>(le: (T, T) -> bool, p: T -> bool, s: seq<T>)
    requires forall y, z :: p(y) && p(z) ==> le(y, z)
    ensures Filter(p, Sort(le, s)) == Filter(p, s)
  {
    if s != [] {
      SortStable(le, p, s[1..]);
      InsertStable(le, p, s[0], Sort(le, s[1..]));
      FilterCons(p, s[0], Sort(le, s[1..]));
    }
  }

  /** `f` keeps every comparison of an element of `s` with a later one. */
  ghost predicate KeepsOrder<T, U>(le: (T, T) -> bool, le': (U, U) -> bool, f: T -> U, s: seq<T>) {
    forall i, j :: 0 <= i < j < |s| ==> (le(s[i], s[j]) <==> le'(f(s[i]), f(s[j])))
  }

  lemma {:induction false} InsertCommutes<T, U>(le: (T, T) -> bool, le': (U, U) -> bool, f: T -> U, x: T, s: seq<T>)
    requires forall y :: y in s ==> (le(x, y) <==> le'(f(x), f(y)))
    ensures Insert(le', f(x), Map(f, s)) == Map(f, Insert(le, x, s))
  {
    if s != [] && !le(x, s[0]) {
      InsertCommutes(le, le', f, x, s[1..]);
    }
  }

  lemma {:induction false} KeepsOrderOfTail<T, U>(le: (T, T) -> bool, le': (U, U) -> bool, f: T -> U, s: seq<T>)
    requires s != [] && KeepsOrder(le, le', f, s)
    ensures KeepsOrder(le, le', f, s[1..])
    ensures forall y :: y in Sort(le, s[1..]) ==> (le(s[0], y) <==> le'(f(s[0]), f(y)))
  {
    SortKeeps(le, s[1..]);
    forall y | y in Sort(le, s[1..]) ensures le(s[0], y) <==> le'(f(s[0]), f(y)) {
      assert y in multiset(s[1..]);
      var j :| 0 < j < |s| && s[j] == y;
    }
  }

  /** Sorting commutes with a change that keeps these comparisons. */
  lemma {:induction false} SortCommutes<T, U>(le: (T, T) -> bool, le': (U, U) -> bool, f: T -> U, s: seq<T>)
    requires KeepsOrder(le, le', f, s)
    ensures Sort(le', Map(f, s)) == Map(f, Sort(le, s))
  {
    if s != [] {
      KeepsOrderOfTail(le, le', f, s);
      SortCommutes(le, le', f, s[1..]);
      InsertCommutes(le, le', f, s[0], Sort(le, s[1..]));
      assert Map(f, s)[1..] == Map(f, s[1..]);
    }
  }

  lemma {:induction false} InsertBefore<T(!new)>(le: (T, T) -> bool, x: T, a: seq<T>, b: seq<T>)
    requires b != [] ==> le(x, b[0])
    ensures Insert(le, x, a + b) == Insert(le, x, a) + b
  {
    if a == [] {
      assert a + b == b;
    } else {
      assert (a + b)[1..] == a[1..] + b;
      if !le(x, a[0]) {
        InsertBefore(le, x, a[1..], b);
        Regroup([a[0]], Insert(le, x, a[1..]), b);
      } else {
        Regroup([x], a, b);
      }
    }
  }

  lemma {:induction false} InsertBehind<T(!new)>(le: (T, T) -> bool, x: T, a: seq<T>, b: seq<T>)
    requires forall i :: 0 <= i < |a| ==> !le(x, a[i])
    ensures Insert(le, x, a + b) == a + Insert(le, x, b)
  {
    if a == [] {
      assert a + b == b;
    } else {
      assert (a + b)[1..] == a[1..] + b;
      InsertBehind(le, x, a[1..], b);
      Regroup([a[0]], a[1..], Insert(le, x, b));
      assert [a[0]] + a[1..] == a;
    }
  }

  lemma {:induction false} SortedElement<T>(le: (T, T) -> bool, s: seq<T>, i: nat)
    requires i < |Sort(le, s)|
    ensures Sort(le, s)[i] in s
  {
    var x := Sort(le, s)[i];
    SortKeeps(le, s);
    assert x in multiset(Sort(le, s));
    assert x in multiset(s);
  }

  lemma {:induction false} SortedPartAt<T>(le: (T, T) -> bool, p: T -> bool, s: seq<T>, i: nat)
    requires i < |Sort(le, Filter(p, s))|
    ensures p(Sort(le, Filter(p, s))[i]) && Sort(le, Filter(p, s))[i] in s
  {
    SortedElement(le, Filter(p, s), i);
    FilterMember(p, s, Sort(le, Filter(p, s))[i]);
  }

  lemma {:induction false} FilterMember<T>(p: T -> bool, s: seq<T>, x: T)
    requires x in Filter(p, s)
    ensures x in s && p(x)
  {
    var rest := Filter(p, s[1..]);
    if x in rest {
      FilterMember(p, s[1..], x);
    } else if p(s[0]) {
      assert Filter(p, s) == [s[0]] + rest;
    }
  }

  lemma {:induction false} SortedPart<T>(le: (T, T) -> bool, p: T -> bool, s: seq<T>)
    ensures var sorted := Sort(le, Filter(p, s));
      forall i :: 0 <= i < |sorted| ==> p(sorted[i]) && sorted[i] in s
  {
    var sorted := Sort(le, Filter(p, s));
    forall i | 0 <= i < |sorted| ensures p(sorted[i]) && sorted[i] in s {
      SortedPartAt(le, p, s, i);
    }
  }

  /** Elements of one kind before those of another can be sorted apart. */
  lemma {:induction false} SortSplits<T(!new)>(le: (T, T) -> bool, p: T -> bool, other: T -> bool, s: seq<T>)
    requires forall x :: other(x) <==> !p(x)
    requires forall x, y :: x in s && y in s && p(x) && !p(y) ==> le(x, y) && !le(y, x)
    ensures Sort(le, s) == Sort(le, Filter(p, s)) + Sort(le, Filter(other, s))
  {
    if s != [] {
      var x, rest := s[0], s[1..];
      var a, b := Sort(le, Filter(p, rest)), Sort(le, Filter(other, rest));
      assert s == [x] + rest;
      SortSplits(le, p, other, rest);
      FilterCons(p, x, rest);
      FilterCons(other, x, rest);
      SortedPart(le, p, rest);
      SortedPart(le, other, rest);
      if p(x) {
        InsertBefore(le, x, a, b);
        SortOfCons(le, x, Filter(p, rest));
        assert [] + Filter(other, rest) == Filter(other, rest);
      } else {
        InsertBehind(le, x, a, b);
        SortOfCons(le, x, Filter(other, rest));
        assert [] + Filter(p, rest) == Filter(p, rest);
      }
    }
  }

  lemma {:induction false} SortOfCons<T>(le: (T, T) -> bool, x: T, s: seq<T>)
    ensures Sort(le, [x] + s) == Insert(le, x, Sort(le, s))
  {
    assert ([x] + s)[1..] == s;
  }

  lemma {:induction false} FilterMap<T, U>(p: T -> bool, p': U -> bool, f: T -> U, s: seq<T>)
    requires forall x :: x in s ==> (p(x) <==> p'(f(x)))
    ensures Filter(p', Map(f, s)) == Map(f, Filter(p, s))
  {
    if s != [] {
      FilterMap(p, p', f, s[1..]);
      assert Map(f, s)[1..] == Map(f, s[1..]);
    }
  }

  lemma {:induction false} MapConcat<T, U>(f: T -> U, a: seq<T>, b: seq<T>)
    ensures Map(f, a + b) == Map(f, a) + Map(f, b)
  {
    forall i | 0 <= i < |a + b| ensures Map(f, a + b)[i] == (Map(f, a) + Map(f, b))[i] {
    }
  }

  lemma {:induction false} MapOne<T, U>(f: T -> U, x: T)
    ensures Map(f, [x]) == [f(x)]
  {
  }

  /** All elements but one. */
  function Without<T>(s: seq<T>, k: nat): (r: seq<T>)
    requires k < |s|
    ensures |r| == |s| - 1
  {
    if k == 0 then s[1..] else [s[0]] + Without(s[1..], k - 1)
  }

  lemma {:induction false} ConsBag<T>(x: T, s: seq<T>)
    ensures multiset([x] + s) == multiset{x} + multiset(s)
  {
  }

  lemma {:induction false} HeadBag<T>(s: seq<T>)
    requires s != []
    ensures multiset(s) == multiset{s[0]} + multiset(s[1..])
  {
    assert s == [s[0]] + s[1..];
  }

  lemma {:induction false} WithoutKeepsOthers<T>(s: seq<T>, k: nat)
    requires k < |s|
    ensures multiset(s) == multiset{s[k]} + multiset(Without(s, k))
  {
    HeadBag(s);
    if k > 0 {
      WithoutKeepsOthers(s[1..], k - 1);
      ConsBag(s[0], Without(s[1..], k - 1));
    }
  }

  lemma {:induction false} WithoutHead<T>(a: seq<T>, b: seq<T>, k: nat)
    requires a != [] && k < |b| && b[k] == a[0] && multiset(a) == multiset(b)
    ensures multiset(a[1..]) == multiset(Without(b, k))
  {
    HeadBag(a);
    WithoutKeepsOthers(b, k);
    CancelOne(a[0], multiset(a[1..]), multiset(Without(b, k)));
  }

  lemma {:induction false} CancelOne<T>(x: T, a: multiset<T>, b: multiset<T>)
    requires multiset{x} + a == multiset{x} + b
    ensures a == b
  {
    assert (multiset{x} + a) - multiset{x} == a;
    assert (multiset{x} + b) - multiset{x} == b;
  }

  lemma {:induction false} MapTail<T, U>(f: T -> U, s: seq<T>)
    requires s != []
    ensures Map(f, s) == [f(s[0])] + Map(f, s[1..])
    ensures Map(f, s)[0] == f(s[0]) && Map(f, s)[1..] == Map(f, s[1..])
  {
  }

  lemma {:induction false} WithoutAt<T>(s: seq<T>, k: nat, i: nat)
    requires k < |s| && i < |s| - 1
    ensures Without(s, k)[i] == s[if i < k then i else i + 1]
  {
    if k > 0 && i > 0 {
      WithoutAt(s[1..], k - 1, i - 1);
    }
  }

  lemma {:induction false} MapWithout<T, U>(f: T -> U, s: seq<T>, k: nat)
    requires k < |s|
    ensures Map(f, Without(s, k)) == Without(Map(f, s), k)
  {
    var a, b := Map(f, Without(s, k)), Without(Map(f, s), k);
    forall i: nat | i < |s| - 1 ensures a[i] == b[i] {
      WithoutAt(s, k, i);
      WithoutAt(Map(f, s), k, i);
    }
  }

  /** A permutation stays one when every element is changed. */
  lemma {:induction false} MapPermutes<T, U>(f: T -> U, a: seq<T>, b: seq<T>)
    requires multiset(a) == multiset(b)
    ensures multiset(Map(f, a)) == multiset(Map(f, b))
    decreases |a|
  {
    if a == [] {
      assert |multiset(b)| == 0;
    } else {
      assert a[0] in multiset(b);
      var k :| 0 <= k < |b| && b[k] == a[0];
      WithoutHead(a, b, k);
      MapPermutes(f, a[1..], Without(b, k));
      MapTail(f, a);
      HeadBag(Map(f, a));
      MapWithout(f, b, k);
      WithoutKeepsOthers(Map(f, b), k);
    }
  }

  ghost predicate Antisymmetric<T(!new)>(le: (T, T) -> bool) {
    forall x, y :: le(x, y) && le(y, x) ==> x == y
  }

  lemma {:induction false} SortedPair<T>(le: (T, T) -> bool, s: seq<T>, i: nat, j: nat)
    requires SortedBy(le, s) && i < j < |s|
    ensures le(s[i], s[j])
  {
  }

  lemma {:induction false} SortedTail<T>(le: (T, T) -> bool, s: seq<T>)
    requires s != [] && SortedBy(le, s)
    ensures SortedBy(le, s[1..])
  {
  }

  lemma {:induction false} SameHead<T(!new)>(le: (T, T) -> bool, a: seq<T>, b: seq<T>)
    requires Antisymmetric(le) && SortedBy(le, a) && SortedBy(le, b)
    requires a != [] && b != [] && multiset(a) == multiset(b)
    ensures a[0] == b[0]
  {
    assert a[0] in multiset(b) && b[0] in multiset(a);
    var i :| 0 <= i < |a| && a[i] == b[0];
    var j :| 0 <= j < |b| && b[j] == a[0];
    if i > 0 && j > 0 {
      assert le(a[0], a[i]) && le(b[0], b[j]);
    }
  }

  /** An order without ties leaves no choice. */
  lemma {:induction false} SortedOnce<T(!new)>(le: (T, T) -> bool, a: seq<T>, b: seq<T>)
    requires Antisymmetric(le) && SortedBy(le, a) && SortedBy(le, b)
    requires multiset(a) == multiset(b)
    ensures a == b
  {
    assert |multiset(a)| == |a| && |multiset(b)| == |b|;
    if a != [] {
      SameHead(le, a, b);
      WithoutHead(a, b, 0);
      SortedTail(le, a);
      SortedTail(le, b);
      SortedOnce(le, a[1..], b[1..]);
      assert [a[0]] + a[1..] == a && [b[0]] + b[1..] == b;
    }
  }
}
