/**
 * Python's built-in stable sort, and the order it uses on strings. The sort is
 * defined by insertion from the right. Three facts determine it and are all
 * that its users need: the result is ordered, it holds the same elements as
 * often, and elements that compare equal stay in the order they came in. Beside
 * it stand filtering, which keeps the order, and the code point order of
 * strings, which is total and tells different strings apart.
 */
module Sorting {

  ghost predicate TotalPreorder<T(!new)>(le: (T, T) -> bool) {
    && (forall x, y :: le(x, y) || le(y, x))
    && (forall x, y, z :: le(x, y) && le(y, z) ==> le(x, z))
  }

  function SetOf<T(==)>(xs: seq<T>): set<T> { set x | x in xs }

  ghost predicate SortedBy<T>(le: (T, T) -> bool, xs: seq<T>) {
    forall i, j :: 0 <= i < j < |xs| ==> le(xs[i], xs[j])
  }

  function Filter<T(!new)>(keep: T -> bool, xs: seq<T>): (r: seq<T>)
    ensures |r| <= |xs|
  {
    if xs == [] then [] else (if keep(xs[0]) then [xs[0]] else []) + Filter(keep, xs[1..])
  }

  lemma {:induction false} InFilter<T(!new)>(keep: T -> bool, xs: seq<T>)
    ensures forall x :: x in Filter(keep, xs) <==> x in xs && keep(x)
  {
    if xs != [] {
      InFilter(keep, xs[1..]);
      assert xs == [xs[0]] + xs[1..];
    }
  }

  lemma Regroup<T>(a: seq<T>, b: seq<T>, c: seq<T>)
    ensures a + (b + c) == (a + b) + c
  {
  }

  lemma {:induction false} FilterAppend<T(!new)>(keep: T -> bool, xs: seq<T>, ys: seq<T>)
    ensures Filter(keep, xs + ys) == Filter(keep, xs) + Filter(keep, ys)
  {
    if xs == [] {
      assert xs + ys == ys;
    } else {
      var head := if keep(xs[0]) then [xs[0]] else [];
      assert (xs + ys)[1..] == xs[1..] + ys;
      FilterAppend(keep, xs[1..], ys);
      Regroup(head, Filter(keep, xs[1..]), Filter(keep, ys));
    }
  }

  lemma FilterCons<T(!new)>(keep: T -> bool, x: T, xs: seq<T>)
    ensures Filter(keep, [x] + xs) == if keep(x) then [x] + Filter(keep, xs) else Filter(keep, xs)
  {
    assert ([x] + xs)[1..] == xs;
  }

  lemma FilterSnoc<T(!new)>(keep: T -> bool, xs: seq<T>, i: nat)
    requires i < |xs|
    ensures Filter(keep, xs[..i + 1]) == Filter(keep, xs[..i]) + if keep(xs[i]) then [xs[i]] else []
  {
    assert xs[..i + 1] == xs[..i] + [xs[i]];
    FilterAppend(keep, xs[..i], [xs[i]]);
  }

  lemma {:induction false} FilterNone<T(!new)>(keep: T -> bool, xs: seq<T>)
    requires forall x :: x in xs ==> !keep(x)
    ensures Filter(keep, xs) == []
  {
    if xs != [] {
      assert xs[0] in xs;
      FilterNone(keep, xs[1..]);
    }
  }

  lemma {:induction false} FilterAll<T(!new)>(keep: T -> bool, xs: seq<T>)
    requires forall x :: x in xs ==> keep(x)
    ensures Filter(keep, xs) == xs
  {
    if xs != [] {
      FilterAll(keep, xs[1..]);
      assert xs == [xs[0]] + xs[1..];
    }
  }

  lemma {:induction false} FilterSame<T(!new)>(f: T -> bool, g: T -> bool, xs: seq<T>)
    requires forall x :: x in xs ==> f(x) == g(x)
    ensures Filter(f, xs) == Filter(g, xs)
  {
    if xs != [] {
      FilterSame(f, g, xs[1..]);
    }
  }

  lemma {:induction false} FilterBehind<T(!new)>(f: T -> bool, g: T -> bool, xs: seq<T>, n: nat)
    requires n <= |xs| && (forall i :: 0 <= i < n ==> !f(xs[i])) && forall i :: n <= i < |xs| ==> f(xs[i]) == g(xs[i])
    ensures Filter(f, xs) == Filter(g, xs[n..])
  {
    if n == 0 {
      FilterSame(f, g, xs);
    } else {
      FilterBehind(f, g, xs[1..], n - 1);
    }
  }

  lemma {:induction false} FilterKeepsSorted<T(!new)>(le: (T, T) -> bool, keep: T -> bool, xs: seq<T>)
    requires SortedBy(le, xs)
    ensures SortedBy(le, Filter(keep, xs))
  {
    if xs != [] {
      FilterKeepsSorted(le, keep, xs[1..]);
      InFilter(keep, xs[1..]);
      var rest := Filter(keep, xs[1..]);
      forall j | 0 <= j < |rest| ensures le(xs[0], rest[j]) {
        assert rest[j] in rest;
      }
    }
  }

  lemma FilterTwiceCons<T(!new)>(f: T -> bool, g: T -> bool, x: T, xs: seq<T>)
    ensures Filter(f, Filter(g, [x] + xs)) == (if f(x) && g(x) then [x] else []) + Filter(f, Filter(g, xs))
  {
    FilterCons(g, x, xs);
    FilterCons(f, x, Filter(g, xs));
  }

  lemma {:induction false} FilterTwice<T(!new)>(f: T -> bool, g: T -> bool, xs: seq<T>)
    ensures Filter(f, Filter(g, xs)) == Filter(g, Filter(f, xs))
  {
    if xs != [] {
      assert xs == [xs[0]] + xs[1..];
      FilterTwice(f, g, xs[1..]);
      FilterTwiceCons(f, g, xs[0], xs[1..]);
      FilterTwiceCons(g, f, xs[0], xs[1..]);
    }
  }

  lemma {:induction false} FilterSplitsMultiset<T(!new)>(keep: T -> bool, xs: seq<T>, x: T)
    ensures multiset(Filter(keep, xs))[x] == if keep(x) then multiset(xs)[x] else 0
  {
    if xs != [] {
      assert xs == [xs[0]] + xs[1..];
      FilterSplitsMultiset(keep, xs[1..], x);
    }
  }

  function Insert<T>(le: (T, T) -> bool, x: T, ys: seq<T>): (r: seq<T>)
    ensures multiset(r) == multiset([x]) + multiset(ys)
    ensures |r| == |ys| + 1
  {
    if ys == [] || le(x, ys[0]) then [x] + ys
    else
      assert ys == [ys[0]] + ys[1..];
      [ys[0]] + Insert(le, x, ys[1..])
  }

  /** The result of sorted(xs): equal elements keep their input order. */
  function StableSort<T>(le: (T, T) -> bool, xs: seq<T>): (r: seq<T>)
    ensures multiset(r) == multiset(xs)
    ensures |r| == |xs|
  {
    if xs == [] then []
    else
      assert xs == [xs[0]] + xs[1..];
      Insert(le, xs[0], StableSort(le, xs[1..]))
  }

  lemma SameElements<T(!new)>(le: (T, T) -> bool, xs: seq<T>)
    ensures forall x :: x in StableSort(le, xs) <==> x in xs
  {
    forall x ensures x in StableSort(le, xs) <==> x in xs {
      assert x in StableSort(le, xs) <==> x in multiset(StableSort(le, xs));
      assert x in xs <==> x in multiset(xs);
    }
  }

  lemma {:induction false} InsertKeepsSorted<T(!new)>(le: (T, T) -> bool, x: T, ys: seq<T>)
    requires TotalPreorder(le) && SortedBy(le, ys)
    ensures SortedBy(le, Insert(le, x, ys))
  {
    if ys != [] && !le(x, ys[0]) {
      InsertKeepsSorted(le, x, ys[1..]);
      var tail := Insert(le, x, ys[1..]);
      forall y | y in tail ensures le(ys[0], y) {
        assert y in multiset(tail);
        assert y == x || y in ys[1..];
      }
    }
  }

  lemma {:induction false} StableSortSorts<T(!new)>(le: (T, T) -> bool, xs: seq<T>)
    requires TotalPreorder(le)
    ensures SortedBy(le, StableSort(le, xs))
  {
    if xs != [] {
      StableSortSorts(le, xs[1..]);
      InsertKeepsSorted(le, xs[0], StableSort(le, xs[1..]));
    }
  }

  lemma {:induction false} SortedStays<T(!new)>(le: (T, T) -> bool, xs: seq<T>)
    requires SortedBy(le, xs)
    ensures StableSort(le, xs) == xs
  {
    if xs != [] {
      SortedStays(le, xs[1..]);
      assert xs == [xs[0]] + xs[1..];
    }
  }

  lemma {:induction false} SameInsert<T(!new)>(le: (T, T) -> bool, fine: (T, T) -> bool, x: T, ys: seq<T>)
    requires forall y :: y in ys ==> (le(x, y) <==> fine(x, y))
    ensures Insert(le, x, ys) == Insert(fine, x, ys)
  {
    if ys != [] && !le(x, ys[0]) {
      SameInsert(le, fine, x, ys[1..]);
    }
  }

  /** A stable sort also sorts by any finer order that the input already follows among ties. */
  lemma {:induction false} SameSort<T(!new)>(le: (T, T) -> bool, fine: (T, T) -> bool, xs: seq<T>)
    requires forall i, j :: 0 <= i < j < |xs| ==> (le(xs[i], xs[j]) <==> fine(xs[i], xs[j]))
    ensures StableSort(le, xs) == StableSort(fine, xs)
  {
    if xs != [] {
      SameSort(le, fine, xs[1..]);
      SameElements(le, xs[1..]);
      SameInsert(le, fine, xs[0], StableSort(le, xs[1..]));
    }
  }

  lemma {:induction false} InsertKeepsTies<T(!new)>(le: (T, T) -> bool, tie: T -> bool, x: T, ys: seq<T>)
    requires forall i :: 0 <= i < |ys| && tie(x) && tie(ys[i]) ==> le(x, ys[i])
    ensures Filter(tie, Insert(le, x, ys)) == if tie(x) then [x] + Filter(tie, ys) else Filter(tie, ys)
  {
    if ys == [] || le(x, ys[0]) {
      FilterCons(tie, x, ys);
    } else {
      var y, rest := ys[0], ys[1..];
      assert !(tie(x) && tie(y));
      InsertKeepsTies(le, tie, x, rest);
      FilterCons(tie, y, Insert(le, x, rest));
      assert ys == [y] + rest;
      FilterCons(tie, y, rest);
    }
  }

  ghost predicate Tied<T(!new)>(le: (T, T) -> bool, tie: T -> bool, xs: seq<T>) {
    forall i, j :: 0 <= i < |xs| && 0 <= j < |xs| && tie(xs[i]) && tie(xs[j]) ==> le(xs[i], xs[j])
  }

  lemma TiedWithHead<T(!new)>(le: (T, T) -> bool, tie: T -> bool, xs: seq<T>)
    requires xs != [] && Tied(le, tie, xs)
    ensures Tied(le, tie, xs[1..])
    ensures forall y :: y in StableSort(le, xs[1..]) && tie(xs[0]) && tie(y) ==> le(xs[0], y)
  {
    SameElements(le, xs[1..]);
    forall y | y in StableSort(le, xs[1..]) && tie(xs[0]) && tie(y) ensures le(xs[0], y) {
      var j :| 0 <= j < |xs[1..]| && xs[1..][j] == y;
      assert xs[j + 1] == y;
    }
  }

  /** Stability: elements that compare equal to each other keep their order. */
  lemma {:induction false} StableSortIsStable<T(!new)>(le: (T, T) -> bool, tie: T -> bool, xs: seq<T>)
    requires Tied(le, tie, xs)
    ensures Filter(tie, StableSort(le, xs)) == Filter(tie, xs)
  {
    if xs != [] {
      TiedWithHead(le, tie, xs);
      var sorted := StableSort(le, xs[1..]);
      assert forall i :: 0 <= i < |sorted| ==> sorted[i] in sorted;
      StableSortIsStable(le, tie, xs[1..]);
      InsertKeepsTies(le, tie, xs[0], StableSort(le, xs[1..]));
    }
  }

  /** Code-point order on strings. */
  predicate StringLeq(a: string, b: string) {
    a == [] || (b != [] && (a[0] < b[0] || (a[0] == b[0] && StringLeq(a[1..], b[1..]))))
  }

  lemma {:induction false} StringLeqTotal(a: string, b: string)
    ensures StringLeq(a, b) || StringLeq(b, a)
    ensures StringLeq(a, b) && StringLeq(b, a) ==> a == b
  {
    if a != [] && b != [] && a[0] == b[0] {
      StringLeqTotal(a[1..], b[1..]);
      assert a == [a[0]] + a[1..] && b == [b[0]] + b[1..];
    }
  }

  lemma {:induction false} StringLeqTransitive(a: string, b: string, c: string)
    requires StringLeq(a, b) && StringLeq(b, c)
    ensures StringLeq(a, c)
  {
    if a != [] && a[0] == b[0] == c[0] {
      StringLeqTransitive(a[1..], b[1..], c[1..]);
    }
  }

  ghost predicate Ascending<T>(le: (T, T) -> bool, xs: seq<T>) {
    forall i, j :: 0 <= i < j < |xs| ==> le(xs[i], xs[j]) && xs[i] != xs[j]
  }

  lemma StringOrder()
    ensures TotalPreorder(StringLeq)
  {
    forall x, y ensures StringLeq(x, y) || StringLeq(y, x) {
      StringLeqTotal(x, y);
    }
    forall x, y, z | StringLeq(x, y) && StringLeq(y, z) ensures StringLeq(x, z) {
      StringLeqTransitive(x, y, z);
    }
  }

  /** The result of sorted(set(…)). */
  method SortedSet<T(==, !new)>(le: (T, T) -> bool, elements: set<T>) returns (r: seq<T>)
    requires TotalPreorder(le)
    ensures Ascending(le, r)
    ensures forall x :: x in r <==> x in elements
    ensures r == [] <==> elements == {}
  {
    var listed, todo := [], elements;
    while todo != {}
      invariant todo <= elements && forall x :: x in listed <==> x in elements - todo
      invariant forall x :: multiset(listed)[x] <= 1
    {
      var x :| x in todo;
      assert x !in listed;
      assert multiset(listed)[x] == 0;
      listed, todo := listed + [x], todo - {x};
    }
    r := StableSort(le, listed);
    SameElements(le, listed);
    SortedOnce(le, listed, r);
    if r != [] {
      assert r[0] in r;
    }
  }

  lemma SortedOnce<T(!new)>(le: (T, T) -> bool, listed: seq<T>, r: seq<T>)
    requires TotalPreorder(le) && r == StableSort(le, listed) && forall x :: multiset(listed)[x] <= 1
    ensures Ascending(le, r)
  {
    StableSortSorts(le, listed);
    forall i, j | 0 <= i < j < |r| ensures r[i] != r[j] {
      NoRepeats(r, i, j);
    }
  }

  lemma NoRepeats<T(!new)>(r: seq<T>, i: nat, j: nat)
    requires i < j < |r| && forall x :: multiset(r)[x] <= 1
    ensures r[i] != r[j]
  {
    assert r == r[..j] + r[j..];
    assert r[i] in multiset(r[..j]) && r[j] in multiset(r[j..]) by {
      assert r[..j][i] == r[i] && r[j..][0] == r[j];
    }
    assert multiset(r)[r[i]] == multiset(r[..j])[r[i]] + multiset(r[j..])[r[i]];
  }
}
