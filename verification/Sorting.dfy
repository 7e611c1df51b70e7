/** The stable sort the scripts rely on (`Array.prototype.sort`), over an arbitrary comparator. */
module Sorting {
  import opened Common

  ghost predicate TotalPreorder<T(!new)>(leq: (T, T) -> bool) {
    && (forall x, y :: leq(x, y) || leq(y, x))
    && (forall x, y, z :: leq(x, y) && leq(y, z) ==> leq(x, z))
  }

  ghost predicate Sorted<T>(leq: (T, T) -> bool, xs: seq<T>) {
    forall i, j :: 0 <= i < j < |xs| ==> leq(xs[i], xs[j])
  }

  /** Put `x` before the first element it does not exceed: equal elements keep their order. */
  function Insert<T>(leq: (T, T) -> bool, x: T, xs: seq<T>): (r: seq<T>)
    ensures multiset(r) == multiset{x} + multiset(xs)
    ensures |r| == |xs| + 1
  {
    if xs == [] then [x]
    else if leq(x, xs[0]) then [x] + xs
    else
      assert xs == [xs[0]] + xs[1..];
      [xs[0]] + Insert(leq, x, xs[1..])
  }

  function Sort<T>(leq: (T, T) -> bool, xs: seq<T>): (r: seq<T>)
    ensures multiset(r) == multiset(xs)
    ensures |r| == |xs|
  {
    if xs == [] then []
    else
      assert xs == [xs[0]] + xs[1..];
      Insert(leq, xs[0], Sort(leq, xs[1..]))
  }

  lemma SameElements<T>(xs: seq<T>, ys: seq<T>)
    requires multiset(xs) == multiset(ys)
    ensures forall x :: x in xs <==> x in ys
  {
    forall x ensures x in xs <==> x in ys {
      assert x in xs <==> x in multiset(xs);
      assert x in ys <==> x in multiset(ys);
    }
  }

  lemma {:induction false} InsertSorted<T(!new)>(leq: (T, T) -> bool, x: T, xs: seq<T>)
    requires TotalPreorder(leq) && Sorted(leq, xs)
    ensures Sorted(leq, Insert(leq, x, xs))
  {
    if xs != [] && !leq(x, xs[0]) {
      InsertSorted(leq, x, xs[1..]);
      var rest := Insert(leq, x, xs[1..]);
      forall y | y in rest ensures leq(xs[0], y) {
        assert y in multiset(rest);
        assert y == x || y in xs[1..];
      }
    }
  }

  lemma {:induction false} SortSorts<T(!new)>(leq: (T, T) -> bool, xs: seq<T>)
    requires TotalPreorder(leq)
    ensures Sorted(leq, Sort(leq, xs))
  {
    if xs != [] {
      SortSorts(leq, xs[1..]);
      InsertSorted(leq, xs[0], Sort(leq, xs[1..]));
    }
  }

  lemma {:induction false} SortOfSorted<T>(leq: (T, T) -> bool, xs: seq<T>)
    requires Sorted(leq, xs)
    ensures Sort(leq, xs) == xs
  {
    if xs != [] {
      SortOfSorted(leq, xs[1..]);
      if |xs| > 1 {
        assert leq(xs[0], xs[1]);
      }
    }
  }

  /** Where no two elements tie, two sorted permutations of one another are equal. */
  lemma {:induction false} SortedUnique<T(!new)>(leq: (T, T) -> bool, xs: seq<T>, ys: seq<T>)
    requires TotalPreorder(leq)
    requires forall x, y :: x in xs && y in xs && leq(x, y) && leq(y, x) ==> x == y
    requires Sorted(leq, xs) && Sorted(leq, ys) && multiset(xs) == multiset(ys)
    ensures xs == ys
  {
    if xs == [] {
      assert |multiset(ys)| == 0;
    } else {
      assert |multiset(ys)| == |xs|;
      assert xs[0] in multiset(ys) && ys[0] in multiset(xs);
      var i :| 0 <= i < |ys| && ys[i] == xs[0];
      var j :| 0 <= j < |xs| && xs[j] == ys[0];
      LeqRefl(leq, xs[0]);
      assert leq(ys[0], ys[i]) && leq(xs[0], xs[j]);
      TailMultiset(xs);
      TailMultiset(ys);
      SortedUnique(leq, xs[1..], ys[1..]);
    }
  }

  ghost predicate DistinctBy<T, K>(key: T -> K, xs: seq<T>) {
    forall i, j :: 0 <= i < j < |xs| ==> key(xs[i]) != key(xs[j])
  }

  lemma {:induction false} InsertDistinct<T, K>(leq: (T, T) -> bool, key: T -> K, x: T, xs: seq<T>)
    requires DistinctBy(key, xs) && forall y :: y in xs ==> key(y) != key(x)
    ensures DistinctBy(key, Insert(leq, x, xs))
  {
    if xs != [] && !leq(x, xs[0]) {
      var rest := Insert(leq, x, xs[1..]);
      assert forall i :: 0 <= i < |xs[1..]| ==> xs[1..][i] == xs[i + 1];
      InsertDistinct(leq, key, x, xs[1..]);
      forall y | y in rest ensures key(y) != key(xs[0]) {
        assert y in multiset(rest);
        assert y == x || y in xs[1..];
      }
    }
  }

  lemma {:induction false} SortDistinct<T, K>(leq: (T, T) -> bool, key: T -> K, xs: seq<T>)
    requires DistinctBy(key, xs)
    ensures DistinctBy(key, Sort(leq, xs))
  {
    if xs != [] {
      assert forall i :: 0 <= i < |xs[1..]| ==> xs[1..][i] == xs[i + 1];
      SortDistinct(leq, key, xs[1..]);
      var rest := Sort(leq, xs[1..]);
      forall y | y in rest ensures key(y) != key(xs[0]) {
        assert y in multiset(rest);
        var i :| 0 <= i < |xs[1..]| && xs[1..][i] == y;
        assert key(xs[0]) != key(xs[i + 1]);
      }
      InsertDistinct(leq, key, xs[0], rest);
    }
  }

  lemma LeqRefl<T(!new)>(leq: (T, T) -> bool, x: T)
    requires TotalPreorder(leq)
    ensures leq(x, x)
  {}

  lemma TailMultiset<T>(xs: seq<T>)
    requires xs != []
    ensures multiset(xs[1..]) == multiset(xs) - multiset{xs[0]}
  {
    assert xs == [xs[0]] + xs[1..];
  }

  lemma FilterCons<T>(p: T -> bool, x: T, xs: seq<T>)
    ensures Filter(p, [x] + xs) == if p(x) then [x] + Filter(p, xs) else Filter(p, xs)
  {
    assert ([x] + xs)[1..] == xs;
  }

  lemma InsertFirst<T(!new)>(leq: (T, T) -> bool, x: T, xs: seq<T>)
    requires forall y :: y in xs ==> leq(x, y)
    ensures Insert(leq, x, xs) == [x] + xs
  {}

  lemma InsertLater<T(!new)>(leq: (T, T) -> bool, x: T, y: T, ys: seq<T>)
    requires !leq(x, y)
    ensures Insert(leq, x, [y] + ys) == [y] + Insert(leq, x, ys)
  {
    assert ([y] + ys)[1..] == ys;
  }

  lemma SortedHead<T(!new)>(leq: (T, T) -> bool, x: T, xs: seq<T>)
    requires TotalPreorder(leq) && Sorted(leq, xs) && xs != [] && leq(x, xs[0])
    ensures forall y :: y in xs ==> leq(x, y)
  {
    LeqRefl(leq, xs[0]);
  }

  lemma {:induction false} FilterInsert<T(!new)>(leq: (T, T) -> bool, p: T -> bool, x: T, xs: seq<T>)
    requires TotalPreorder(leq) && Sorted(leq, xs)
    ensures Filter(p, Insert(leq, x, xs)) == if p(x) then Insert(leq, x, Filter(p, xs)) else Filter(p, xs)
  {
    if xs == [] {
      FilterCons(p, x, xs);
      assert [x] + xs == [x];
    } else if leq(x, xs[0]) {
      SortedHead(leq, x, xs);
      InsertFirst(leq, x, xs);
      InsertFirst(leq, x, Filter(p, xs));
      FilterCons(p, x, xs);
    } else {
      var y, ys := xs[0], xs[1..];
      assert xs == [y] + ys;
      FilterInsert(leq, p, x, ys);
      InsertLater(leq, x, y, ys);
      InsertLater(leq, x, y, Filter(p, ys));
      FilterCons(p, y, ys);
      FilterCons(p, y, Insert(leq, x, ys));
    }
  }

  /** Selecting and sorting commute. */
  lemma {:induction false} SortFilters<T(!new)>(leq: (T, T) -> bool, p: T -> bool, xs: seq<T>)
    requires TotalPreorder(leq)
    ensures Sort(leq, Filter(p, xs)) == Filter(p, Sort(leq, xs))
  {
    if xs != [] {
      var x, rest := xs[0], xs[1..];
      assert xs == [x] + rest;
      SortFilters(leq, p, rest);
      SortSorts(leq, rest);
      FilterInsert(leq, p, x, Sort(leq, rest));
      FilterCons(p, x, rest);
      SortCons(leq, x, rest);
      SortCons(leq, x, Filter(p, rest));
    }
  }

  lemma SortCons<T>(leq: (T, T) -> bool, x: T, xs: seq<T>)
    ensures Sort(leq, [x] + xs) == Insert(leq, x, Sort(leq, xs))
  {
    assert ([x] + xs)[1..] == xs;
  }
}
