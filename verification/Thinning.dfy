/**
 * Going down a ranked list and leaving out what an element kept before it
 * blocks. This is the shape both of dropping explained matches and of naming
 * each symptom once. The list that is left is characterised without the walk:
 * an element is kept exactly when no kept element of better rank blocks it,
 * and only one set of elements has that property, whatever blocks what. Strict
 * orders make the list itself unique.
 */
module Thinning {
  import opened Sorting

  predicate Blocked<T(==, !new)>(blocks: (T, T) -> bool, kept: seq<T>, x: T) {
    exists k :: k in kept && blocks(k, x)
  }

  /** The first `n` elements without the blocked ones. */
  function Thin<T(==, !new)>(blocks: (T, T) -> bool, ranked: seq<T>, n: nat): (r: seq<T>)
    requires n <= |ranked|
    ensures |r| <= n
  {
    if n == 0 then []
    else
      var before := Thin(blocks, ranked, n - 1);
      if Blocked(blocks, before, ranked[n - 1]) then before else before + [ranked[n - 1]]
  }

  ghost predicate Distinct<T>(xs: seq<T>) {
    forall i, j :: 0 <= i < j < |xs| ==> xs[i] != xs[j]
  }

  /** The element stands at one of the first `n` places. */
  ghost predicate Before<T>(ranked: seq<T>, n: nat, x: T) {
    exists i :: 0 <= i < n && i < |ranked| && ranked[i] == x
  }

  lemma {:induction false} ThinFrom<T(!new)>(blocks: (T, T) -> bool, ranked: seq<T>, n: nat)
    requires n <= |ranked|
    ensures forall k :: k in Thin(blocks, ranked, n) ==> Before(ranked, n, k)
    ensures 0 < n ==> Thin(blocks, ranked, n) != [] && Thin(blocks, ranked, n)[0] == ranked[0]
  {
    if 0 < n {
      ThinFrom(blocks, ranked, n - 1);
      assert n == 1 ==> Thin(blocks, ranked, 0) == [];
    }
  }

  lemma {:induction false} ThinIff<T(!new)>(blocks: (T, T) -> bool, ranked: seq<T>, n: nat, i: nat)
    requires Distinct(ranked) && i < n <= |ranked|
    ensures ranked[i] in Thin(blocks, ranked, n) <==> !Blocked(blocks, Thin(blocks, ranked, i), ranked[i])
    ensures forall k :: k in Thin(blocks, ranked, i) <==> k in Thin(blocks, ranked, n) && Before(ranked, i, k)
  {
    ThinFrom(blocks, ranked, i);
    if i == n - 1 {
      assert !Before(ranked, i, ranked[i]);
    } else {
      ThinIff(blocks, ranked, n - 1, i);
      assert !Before(ranked, i, ranked[n - 1]) && ranked[i] != ranked[n - 1];
    }
  }

  lemma {:induction false} ThinStaysSorted<T(!new)>(blocks: (T, T) -> bool, le: (T, T) -> bool, ranked: seq<T>, n: nat)
    requires n <= |ranked| && SortedBy(le, ranked) && Distinct(ranked)
    ensures SortedBy(le, Thin(blocks, ranked, n)) && Distinct(Thin(blocks, ranked, n))
  {
    if 0 < n {
      ThinStaysSorted(blocks, le, ranked, n - 1);
      ThinFrom(blocks, ranked, n - 1);
      var before := Thin(blocks, ranked, n - 1);
      forall i | 0 <= i < |before| ensures le(before[i], ranked[n - 1]) && before[i] != ranked[n - 1] {
        assert before[i] in before;
      }
    }
  }

  /** No two kept elements block each other downwards. */
  lemma {:induction false} NothingBlocked<T(!new)>(blocks: (T, T) -> bool, ranked: seq<T>, n: nat)
    requires n <= |ranked|
    ensures forall i, j :: 0 <= i < j < |Thin(blocks, ranked, n)| ==>
            !blocks(Thin(blocks, ranked, n)[i], Thin(blocks, ranked, n)[j])
  {
    if 0 < n {
      NothingBlocked(blocks, ranked, n - 1);
      var before := Thin(blocks, ranked, n - 1);
      forall i | 0 <= i < |before| ensures before[i] in before {
      }
    }
  }

  /** The order tells the elements of the list apart. */
  ghost predicate Separates<T(!new)>(le: (T, T) -> bool, xs: seq<T>) {
    forall a, b :: a in xs && b in xs && le(a, b) && le(b, a) ==> a == b
  }

  /** Sorting a list without repeats by an order that separates it. */
  lemma SortedStrictly<T(!new)>(le: (T, T) -> bool, xs: seq<T>)
    requires TotalPreorder(le) && Separates(le, xs) && forall x :: multiset(xs)[x] <= 1
    ensures SortedBy(le, StableSort(le, xs)) && Separates(le, StableSort(le, xs)) && Distinct(StableSort(le, xs))
    ensures forall x :: x in StableSort(le, xs) <==> x in xs
  {
    SameElements(le, xs);
    SortedOnce(le, xs, StableSort(le, xs));
    StableSortSorts(le, xs);
  }

  /** There is only one way to put given elements in an order that separates them. */
  lemma {:induction false} SortedUniquely<T(!new)>(le: (T, T) -> bool, xs: seq<T>, ys: seq<T>)
    requires TotalPreorder(le) && Separates(le, xs) && multiset(xs) == multiset(ys)
    requires SortedBy(le, xs) && SortedBy(le, ys)
    ensures xs == ys
  {
    assert |multiset(xs)| == |xs| == |multiset(ys)| == |ys|;
    if xs != [] {
      FirstOfSorted(le, xs, ys);
      WithoutFirst(xs);
      WithoutFirst(ys);
      SortedUniquely(le, xs[1..], ys[1..]);
    }
  }

  lemma WithoutFirst<T>(xs: seq<T>)
    requires xs != []
    ensures xs == [xs[0]] + xs[1..] && multiset(xs[1..]) == multiset(xs) - multiset{xs[0]}
    ensures forall x :: x in xs[1..] ==> x in xs
  {
    assert xs == [xs[0]] + xs[1..];
  }

  lemma FirstOfSorted<T(!new)>(le: (T, T) -> bool, xs: seq<T>, ys: seq<T>)
    requires TotalPreorder(le) && Separates(le, xs) && multiset(xs) == multiset(ys) && xs != [] && ys != []
    requires SortedBy(le, xs) && SortedBy(le, ys)
    ensures xs[0] == ys[0]
  {
    assert xs[0] in multiset(ys) && ys[0] in multiset(xs);
    var i :| 0 <= i < |xs| && xs[i] == ys[0];
    var j :| 0 <= j < |ys| && ys[j] == xs[0];
    assert le(xs[0], xs[i]) && le(ys[0], ys[j]);
  }

  lemma OutranksIsBefore<T(!new)>(le: (T, T) -> bool, ranked: seq<T>, i: nat, k: T)
    requires SortedBy(le, ranked) && Separates(le, ranked) && Distinct(ranked)
    requires i < |ranked| && k in ranked && k != ranked[i]
    ensures le(k, ranked[i]) <==> Before(ranked, i, k)
  {
    var j :| 0 <= j < |ranked| && ranked[j] == k;
    if j < i {
      assert le(ranked[j], ranked[i]);
    } else {
      assert le(ranked[i], ranked[j]);
      assert !Before(ranked, i, k);
    }
  }

  /** An element is kept exactly when no kept element of better rank blocks it. */
  lemma KeptIff<T(!new)>(blocks: (T, T) -> bool, le: (T, T) -> bool, ranked: seq<T>, x: T)
    requires SortedBy(le, ranked) && Separates(le, ranked) && Distinct(ranked) && x in ranked
    ensures var kept := Thin(blocks, ranked, |ranked|);
      x in kept <==> !exists k :: k in kept && k != x && le(k, x) && blocks(k, x)
  {
    var kept := Thin(blocks, ranked, |ranked|);
    var i :| 0 <= i < |ranked| && ranked[i] == x;
    ThinIff(blocks, ranked, |ranked|, i);
    ThinFrom(blocks, ranked, |ranked|);
    assert !Before(ranked, i, x);
    forall k | k in kept && k != x ensures le(k, x) <==> k in Thin(blocks, ranked, i) {
      OutranksIsBefore(le, ranked, i, k);
    }
  }

  // ---- The kept elements, without going down any list

  /** Exactly those of `all` are kept that no kept element of better rank blocks. */
  ghost predicate Keeps<T(!new)>(blocks: (T, T) -> bool, le: (T, T) -> bool, all: set<T>, kept: set<T>) {
    forall x :: x in kept <==> x in all && !BlockedIn(blocks, le, kept, x)
  }

  ghost predicate BlockedIn<T(!new)>(blocks: (T, T) -> bool, le: (T, T) -> bool, kept: set<T>, x: T) {
    exists k :: k in kept && k != x && le(k, x) && blocks(k, x)
  }

  ghost predicate Strictly<T(!new)>(le: (T, T) -> bool, ranked: seq<T>) {
    SortedBy(le, ranked) && Separates(le, ranked) && Distinct(ranked)
  }

  lemma ThinKeeps<T(!new)>(blocks: (T, T) -> bool, le: (T, T) -> bool, ranked: seq<T>)
    requires Strictly(le, ranked)
    ensures Keeps(blocks, le, SetOf(ranked), SetOf(Thin(blocks, ranked, |ranked|)))
  {
    ThinFrom(blocks, ranked, |ranked|);
    forall x | x in ranked {
      KeptIff(blocks, le, ranked, x);
    }
  }

  ghost predicate AgreeTo<T>(ranked: seq<T>, s: set<T>, t: set<T>, n: nat) {
    n <= |ranked| && forall i :: 0 <= i < n ==> (ranked[i] in s <==> ranked[i] in t)
  }

  /** What is kept of an element depends on the elements before it. */
  lemma OneMoreAgrees<T(!new)>(blocks: (T, T) -> bool, le: (T, T) -> bool, ranked: seq<T>, all: set<T>, s: set<T>,
                               t: set<T>, n: nat)
    requires Strictly(le, ranked) && n < |ranked| && AgreeTo(ranked, s, t, n)
    requires all == SetOf(ranked) && Keeps(blocks, le, all, s) && Keeps(blocks, le, all, t)
    ensures ranked[n] in s ==> ranked[n] in t
  {
    var x := ranked[n];
    if x in s && x !in t {
      var k :| k in t && k != x && le(k, x) && blocks(k, x);
      OutranksIsBefore(le, ranked, n, k);
    }
  }

  lemma {:induction false} AgreeStepByStep<T>(ranked: seq<T>, s: set<T>, t: set<T>, n: nat)
    requires n <= |ranked|
    requires forall i: nat :: i < |ranked| && AgreeTo(ranked, s, t, i) ==> (ranked[i] in s <==> ranked[i] in t)
    ensures AgreeTo(ranked, s, t, n)
  {
    if 0 < n {
      AgreeStepByStep(ranked, s, t, n - 1);
    }
  }

  lemma KeptAgree<T(!new)>(blocks: (T, T) -> bool, le: (T, T) -> bool, ranked: seq<T>, all: set<T>, s: set<T>,
                           t: set<T>)
    requires Strictly(le, ranked) && all == SetOf(ranked) && Keeps(blocks, le, all, s) && Keeps(blocks, le, all, t)
    ensures AgreeTo(ranked, s, t, |ranked|)
  {
    forall i: nat | i < |ranked| && AgreeTo(ranked, s, t, i) ensures ranked[i] in s <==> ranked[i] in t {
      OneMoreAgrees(blocks, le, ranked, all, s, t, i);
      OneMoreAgrees(blocks, le, ranked, all, t, s, i);
    }
    AgreeStepByStep(ranked, s, t, |ranked|);
  }

  /** There is only one such set. */
  lemma KeptIsUnique<T(!new)>(blocks: (T, T) -> bool, le: (T, T) -> bool, ranked: seq<T>, kept: set<T>)
    requires Strictly(le, ranked)
    ensures Keeps(blocks, le, SetOf(ranked), kept) <==> kept == SetOf(Thin(blocks, ranked, |ranked|))
  {
    var thin := SetOf(Thin(blocks, ranked, |ranked|));
    ThinKeeps(blocks, le, ranked);
    if Keeps(blocks, le, SetOf(ranked), kept) {
      KeptAgree(blocks, le, ranked, SetOf(ranked), kept, thin);
      forall x ensures x in kept <==> x in thin {
        if x in ranked {
          var i :| 0 <= i < |ranked| && ranked[i] == x;
        }
      }
    }
  }

  lemma {:induction false} OnlyOnce<T>(xs: seq<T>, x: T)
    requires Distinct(xs)
    ensures multiset(xs)[x] == if x in xs then 1 else 0
  {
    if xs != [] {
      var init, last := xs[..|xs| - 1], xs[|xs| - 1];
      assert xs == init + [last];
      OnlyOnce(init, x);
    }
  }

  /** A strictly ordered list is determined by its elements. */
  lemma OneStrictList<T(!new)>(le: (T, T) -> bool, xs: seq<T>, ys: seq<T>)
    requires TotalPreorder(le) && Strictly(le, xs) && Strictly(le, ys) && SetOf(xs) == SetOf(ys)
    ensures xs == ys
  {
    forall x ensures multiset(xs)[x] == multiset(ys)[x] {
      OnlyOnce(xs, x);
      OnlyOnce(ys, x);
      assert x in xs <==> x in SetOf(xs);
      assert x in ys <==> x in SetOf(ys);
    }
    SortedUniquely(le, xs, ys);
  }

  lemma ThinPair<T(!new)>(blocks: (T, T) -> bool, a: T, b: T)
    ensures Thin(blocks, [a, b], 2) == if blocks(a, b) then [a] else [a, b]
  {
    assert Thin(blocks, [a, b], 1) == [] + [a];
    assert Blocked(blocks, [a], b) <==> blocks(a, b);
  }

  lemma ThinTriple<T(!new)>(blocks: (T, T) -> bool, a: T, b: T, c: T)
    requires !blocks(a, b) && blocks(b, c)
    ensures Thin(blocks, [a, b, c], 3) == [a, b]
  {
    var all := [a, b, c];
    assert Thin(blocks, all, 1) == [] + [a];
    assert !Blocked(blocks, [a], all[1]);
    assert Thin(blocks, all, 2) == [a, b];
    assert b in [a, b] && Blocked(blocks, [a, b], all[2]);
  }
}
