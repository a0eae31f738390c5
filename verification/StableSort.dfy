/** Python's `list.sort` and `sorted`: a stable sort. `before(x, y)` says that `x` may stand before `y`. */
module StableSort {

  ghost predicate TotalPreorder<T(!new)>(before: (T, T) -> bool) {
    && (forall x, y :: before(x, y) || before(y, x))
    && (forall x, y, z :: before(x, y) && before(y, z) ==> before(x, z))
  }

  ghost predicate IsSorted<T>(xs: seq<T>, before: (T, T) -> bool) {
    forall i, j | 0 <= i < j < |xs| :: before(xs[i], xs[j])
  }

  function Insert<T>(x: T, xs: seq<T>, before: (T, T) -> bool): (r: seq<T>)
    ensures |r| == |xs| + 1
    ensures multiset(r) == multiset(xs) + multiset{x}
  {
    if xs == [] then [x]
    else if before(x, xs[0]) then [x] + xs
    else
      assert xs == [xs[0]] + xs[1..];
      [xs[0]] + Insert(x, xs[1..], before)
  }

  function Sort<T>(xs: seq<T>, before: (T, T) -> bool): (r: seq<T>)
    ensures |r| == |xs|
    ensures multiset(r) == multiset(xs)
  {
    if xs == [] then []
    else
      assert xs == [xs[0]] + xs[1..];
      Insert(xs[0], Sort(xs[1..], before), before)
  }

  lemma InMultiset<T>(xs: seq<T>, ys: seq<T>, x: T)
    requires multiset(xs) == multiset(ys)
    ensures x in xs <==> x in ys
  {
    assert x in xs <==> x in multiset(xs);
    assert x in ys <==> x in multiset(ys);
  }

  lemma SortKeepsElements<T(!new)>(xs: seq<T>, before: (T, T) -> bool)
    ensures forall x :: x in Sort(xs, before) <==> x in xs
  {
    forall x ensures x in Sort(xs, before) <==> x in xs { InMultiset(Sort(xs, before), xs, x); }
  }

  lemma {:induction false} InsertKeepsSorted<T(!new)>(x: T, xs: seq<T>, before: (T, T) -> bool)
    requires TotalPreorder(before) && IsSorted(xs, before)
    ensures IsSorted(Insert(x, xs, before), before)
  {
    if xs != [] && !before(x, xs[0]) {
      var tail := xs[1..];
      InsertKeepsSorted(x, tail, before);
      var r := Insert(x, tail, before);
      forall y | y in r ensures before(xs[0], y) {
        assert y in multiset(r);
        assert y in multiset(tail) || y == x;
        assert y in tail || y == x;
      }
    } else if xs != [] {
      forall y | y in xs ensures before(x, y) {
        assert before(x, xs[0]);
      }
    }
  }

  lemma {:induction false} SortSorts<T(!new)>(xs: seq<T>, before: (T, T) -> bool)
    requires TotalPreorder(before)
    ensures IsSorted(Sort(xs, before), before)
  {
    if xs != [] {
      SortSorts(xs[1..], before);
      InsertKeepsSorted(xs[0], Sort(xs[1..], before), before);
    }
  }

  function Filter<T(!new)>(xs: seq<T>, keep: T -> bool): seq<T> {
    if xs == [] then []
    else if keep(xs[0]) then [xs[0]] + Filter(xs[1..], keep)
    else Filter(xs[1..], keep)
  }

  lemma {:induction false} InFilter<T(!new)>(xs: seq<T>, keep: T -> bool)
    ensures forall x :: x in Filter(xs, keep) <==> x in xs && keep(x)
  {
    if xs != [] {
      InFilter(xs[1..], keep);
      assert forall x :: x in xs <==> x == xs[0] || x in xs[1..];
    }
  }

  lemma {:induction false} FilterCount<T(!new)>(xs: seq<T>, keep: T -> bool, x: T)
    ensures multiset(Filter(xs, keep))[x] == if keep(x) then multiset(xs)[x] else 0
  {
    if xs != [] {
      assert xs == [xs[0]] + xs[1..];
      FilterCount(xs[1..], keep, x);
    }
  }

  lemma FilterCons<T(!new)>(x: T, xs: seq<T>, keep: T -> bool)
    ensures Filter([x] + xs, keep) == if keep(x) then [x] + Filter(xs, keep) else Filter(xs, keep)
  {
    assert ([x] + xs)[1..] == xs;
  }

  lemma {:induction false} InsertIsStable<T(!new)>(x: T, xs: seq<T>, before: (T, T) -> bool, same: T -> bool)
    requires forall y, z | same(y) && same(z) :: before(y, z)
    ensures Filter(Insert(x, xs, before), same) == if same(x) then [x] + Filter(xs, same) else Filter(xs, same)
  {
    FilterCons(x, xs, same);
    if xs != [] && !before(x, xs[0]) {
      InsertIsStable(x, xs[1..], before, same);
      FilterCons(xs[0], Insert(x, xs[1..], before), same);
    }
  }

  /** Elements that tie keep their order. */
  lemma {:induction false} SortIsStable<T(!new)>(xs: seq<T>, before: (T, T) -> bool, same: T -> bool)
    requires forall y, z | same(y) && same(z) :: before(y, z)
    ensures Filter(Sort(xs, before), same) == Filter(xs, same)
  {
    if xs != [] {
      SortIsStable(xs[1..], before, same);
      InsertIsStable(xs[0], Sort(xs[1..], before), before, same);
    }
  }

  /** If all elements tie, nothing moves. */
  lemma {:induction false} SortOfTies<T(!new)>(xs: seq<T>, before: (T, T) -> bool)
    requires forall x, y | x in xs && y in xs :: before(x, y)
    ensures Sort(xs, before) == xs
  {
    if xs != [] {
      SortOfTies(xs[1..], before);
    }
  }

  function Map<T, U>(f: T -> U, xs: seq<T>): (r: seq<U>)
    ensures |r| == |xs| && forall i | 0 <= i < |xs| :: r[i] == f(xs[i])
  {
    seq(|xs|, i requires 0 <= i < |xs| => f(xs[i]))
  }

  lemma MapTail<T, U>(f: T -> U, xs: seq<T>)
    requires xs != []
    ensures Map(f, xs)[1..] == Map(f, xs[1..])
  {
  }

  lemma MapOne<T, U>(f: T -> U, x: T)
    ensures Map(f, [x]) == [f(x)]
  {
  }

  lemma MapConcat<T, U>(f: T -> U, xs: seq<T>, ys: seq<T>)
    ensures Map(f, xs + ys) == Map(f, xs) + Map(f, ys)
  {
  }

  lemma {:induction false} InsertMapped<T(!new), U>(x: T, xs: seq<T>, f: T -> U, before: (T, T) -> bool, beforeMapped: (U, U) -> bool)
    requires forall y | y in xs :: before(x, y) == beforeMapped(f(x), f(y))
    ensures Map(f, Insert(x, xs, before)) == Insert(f(x), Map(f, xs), beforeMapped)
  {
    MapOne(f, x);
    if xs != [] {
      MapTail(f, xs);
      if before(x, xs[0]) {
        MapConcat(f, [x], xs);
      } else {
        var rest := Insert(x, xs[1..], before);
        InsertMapped(x, xs[1..], f, before, beforeMapped);
        MapOne(f, xs[0]);
        MapConcat(f, [xs[0]], rest);
      }
    }
  }

  /** Sorting by a key that is kept by `f` may be done before or after applying `f`. */
  lemma {:induction false} SortMapped<T(!new), U>(xs: seq<T>, f: T -> U, before: (T, T) -> bool, beforeMapped: (U, U) -> bool)
    requires forall x, y | x in xs && y in xs :: before(x, y) == beforeMapped(f(x), f(y))
    ensures Map(f, Sort(xs, before)) == Sort(Map(f, xs), beforeMapped)
  {
    if xs != [] {
      var rest := Sort(xs[1..], before);
      SortMapped(xs[1..], f, before, beforeMapped);
      SortKeepsElements(xs[1..], before);
      assert forall y | y in rest :: before(xs[0], y) == beforeMapped(f(xs[0]), f(y));
      InsertMapped(xs[0], rest, f, before, beforeMapped);
      MapTail(f, xs);
    }
  }

  function Not<T>(p: T -> bool): T -> bool {
    x => !p(x)
  }

  // ---------- Sorting a list whose elements fall into a first and a second group ----------

  /** In `xs`, the elements of the first group stand strictly before the others. */
  ghost predicate Separates<T(!new)>(xs: seq<T>, first: T -> bool, before: (T, T) -> bool) {
    forall x, y | x in xs && y in xs && first(x) && !first(y) :: before(x, y) && !before(y, x)
  }

  lemma {:induction false} InsertIntoFirst<T(!new)>(x: T, a: seq<T>, b: seq<T>, before: (T, T) -> bool)
    requires forall y | y in b :: before(x, y)
    ensures Insert(x, a + b, before) == Insert(x, a, before) + b
  {
    if a == [] {
      assert a + b == b;
    } else if before(x, a[0]) {
      assert [x] + (a + b) == [x] + a + b;
    } else {
      assert (a + b)[1..] == a[1..] + b;
      InsertIntoFirst(x, a[1..], b, before);
    }
  }

  lemma {:induction false} InsertIntoSecond<T(!new)>(x: T, a: seq<T>, b: seq<T>, before: (T, T) -> bool)
    requires forall y | y in a :: !before(x, y)
    ensures Insert(x, a + b, before) == a + Insert(x, b, before)
  {
    if a == [] {
      assert a + b == b;
    } else {
      var i := Insert(x, b, before);
      assert (a + b)[0] == a[0] && (a + b)[1..] == a[1..] + b;
      InsertIntoSecond(x, a[1..], b, before);
      assert [a[0]] + (a[1..] + i) == a + i;
    }
  }

  lemma SortedGroup<T(!new)>(xs: seq<T>, keep: T -> bool, before: (T, T) -> bool)
    ensures forall y :: y in Sort(Filter(xs, keep), before) <==> y in xs && keep(y)
  {
    SortKeepsElements(Filter(xs, keep), before);
    InFilter(xs, keep);
  }

  lemma SortedGroupCons<T(!new)>(x: T, xs: seq<T>, keep: T -> bool, before: (T, T) -> bool)
    ensures var rest := Sort(Filter(xs, keep), before);
      Sort(Filter([x] + xs, keep), before) == if keep(x) then Insert(x, rest, before) else rest
  {
    FilterCons(x, xs, keep);
    assert ([x] + Filter(xs, keep))[1..] == Filter(xs, keep);
  }

  /** Sorting the groups one by one sorts the whole list. */
  lemma {:induction false} SortByGroups<T(!new)>(xs: seq<T>, first: T -> bool, before: (T, T) -> bool)
    requires Separates(xs, first, before)
    ensures Sort(xs, before) == Sort(Filter(xs, first), before) + Sort(Filter(xs, Not(first)), before)
  {
    if xs != [] {
      var x, rest := xs[0], xs[1..];
      assert xs == [x] + rest && Separates(rest, first, before);
      hide Sort, Insert, Filter, Separates;
      SortByGroups(rest, first, before);
      OneMoreInGroups(x, rest, xs, first, before);
    }
  }

  lemma OneMoreInGroups<T(!new)>(x: T, rest: seq<T>, xs: seq<T>, first: T -> bool, before: (T, T) -> bool)
    requires xs == [x] + rest && Separates(xs, first, before)
    requires Sort(rest, before) == Sort(Filter(rest, first), before) + Sort(Filter(rest, Not(first)), before)
    ensures Sort(xs, before) == Sort(Filter(xs, first), before) + Sort(Filter(xs, Not(first)), before)
  {
    var a, b := Sort(Filter(rest, first), before), Sort(Filter(rest, Not(first)), before);
    SortedGroup(rest, first, before);
    SortedGroup(rest, Not(first), before);
    SortedGroupCons(x, rest, first, before);
    SortedGroupCons(x, rest, Not(first), before);
    assert Sort(xs, before) == Insert(x, a + b, before) by { assert xs[1..] == rest; }
    assert x in xs && forall y | y in rest :: y in xs;
    if first(x) {
      InsertIntoFirst(x, a, b, before);
    } else {
      InsertIntoSecond(x, a, b, before);
    }
  }
}
