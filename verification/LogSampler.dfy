/**
 * A bounded sample of log streams: newest entries first, one per stream and
 * round. What the turns take is first counted over lists of any elements:
 * after some rounds and a part of one more, each list has given its newest
 * ones. The streams' own readable values are then followed through filtering,
 * sorting and sampling, one part per stream, repeats included.
 */
module LogSampler {
  import opened Sorting
  import opened Wrappers

  /** The text and labels of a log entry. */
  type Body(==, 0, !new)

  datatype Entry = Entry(timestamp: string, body: Body)
  /** A returned stream; its values may be missing, and single values unreadable or blank. */
  datatype Stream = Stream(values: Option<seq<Option<Entry>>>)

  predicate Earlier(a: Entry, b: Entry) {
    StringLeq(a.timestamp, b.timestamp)
  }

  function Readable(values: seq<Option<Entry>>): seq<Entry> {
    if values == [] then []
    else Readable(values[..|values| - 1]) + match values[|values| - 1] { case Some(e) => [e] case None => [] }
  }

  function EntriesOf(stream: Stream): seq<Entry> {
    if stream.values.Some? then StableSort(Earlier, Readable(stream.values.value)) else []
  }

  function Mapped<S, T>(f: S -> T, xs: seq<S>, n: nat): (r: seq<T>)
    requires n <= |xs|
    ensures |r| == n
  {
    if n == 0 then [] else Mapped(f, xs, n - 1) + [f(xs[n - 1])]
  }

  function AllEntries(streams: seq<Stream>, n: nat): seq<seq<Entry>>
    requires n <= |streams|
  {
    Mapped(EntriesOf, streams, n)
  }

  /** The lists among the first `n` that are not empty. */
  function NonEmpty<T>(all: seq<seq<T>>, n: nat): (r: seq<seq<T>>)
    requires n <= |all|
    ensures |r| == Line(all, n)
  {
    if n == 0 then [] else NonEmpty(all, n - 1) + if |all[n - 1]| > 0 then [all[n - 1]] else []
  }

  /** How many of the first `n` that is: where the next one will stand. */
  function Line<T>(all: seq<seq<T>>, n: nat): nat
    requires n <= |all|
  {
    if n == 0 then 0 else Line(all, n - 1) + if |all[n - 1]| > 0 then 1 else 0
  }

  /** The streams that have anything to show, each from oldest to newest. */
  function Timelines(streams: seq<Stream>): seq<seq<Entry>> {
    NonEmpty(AllEntries(streams, |streams|), |streams|)
  }

  // ---- The round robin, declaratively

  function Min(a: int, b: int): int { if a < b then a else b }

  /** How many entries of stream `i` are taken after `rounds` rounds and the first `cut` streams of another. */
  function Share<T>(lines: seq<seq<T>>, rounds: nat, cut: nat, i: nat): nat
    requires i < |lines|
  {
    Min(|lines[i]|, if i < cut then rounds + 1 else rounds)
  }

  function Taken<T>(lines: seq<seq<T>>, rounds: nat, cut: nat, n: nat): nat
    requires n <= |lines|
  {
    if n == 0 then 0 else Taken(lines, rounds, cut, n - 1) + Share(lines, rounds, cut, n - 1)
  }

  function Total<T>(lines: seq<seq<T>>, n: nat): nat
    requires n <= |lines|
  {
    if n == 0 then 0 else Total(lines, n - 1) + |lines[n - 1]|
  }

  /**
   * The picks in order: every round takes each stream's newest entry not
   * taken yet; the last round stops after its first `cut` streams.
   */
  function Picks<T>(lines: seq<seq<T>>, rounds: nat, cut: nat): seq<T>
    requires cut <= |lines|
    decreases rounds, cut
  {
    if cut == 0 then (if rounds == 0 then [] else Picks(lines, rounds - 1, |lines|))
    else
      var line := lines[cut - 1];
      Picks(lines, rounds, cut - 1) + if rounds < |line| then [line[|line| - 1 - rounds]] else []
  }

  // ---- What is taken

  /** How often `x` is among the newest `share` entries of a stream. */
  ghost function InNewest<T>(line: seq<T>, share: nat, x: T): nat {
    if share == 0 then 0
    else InNewest(line, share - 1, x) + if share <= |line| && line[|line| - share] == x then 1 else 0
  }

  lemma {:induction false} NewestIsSuffix<T>(line: seq<T>, share: nat, x: T)
    requires share <= |line|
    ensures InNewest(line, share, x) == multiset(line[|line| - share..])[x]
  {
    if share == 0 {
      assert line[|line|..] == [];
    } else {
      NewestIsSuffix(line, share - 1, x);
      assert line[|line| - share..] == [line[|line| - share]] + line[|line| - share + 1..];
    }
  }

  /** How often `x` is in the shares of the first `n` streams together. */
  ghost function InShares<T>(lines: seq<seq<T>>, rounds: nat, cut: nat, n: nat, x: T): nat
    requires n <= |lines|
  {
    if n == 0 then 0
    else InShares(lines, rounds, cut, n - 1, x) + InNewest(lines[n - 1], Share(lines, rounds, cut, n - 1), x)
  }

  lemma {:induction false} OneMorePick<T>(lines: seq<seq<T>>, rounds: nat, cut: nat, n: nat, x: T)
    requires cut < |lines| && n <= |lines|
    ensures InShares(lines, rounds, cut + 1, n, x) == InShares(lines, rounds, cut, n, x)
         + if cut < n && rounds < |lines[cut]| && lines[cut][|lines[cut]| - 1 - rounds] == x then 1 else 0
    ensures Taken(lines, rounds, cut + 1, n)
            == Taken(lines, rounds, cut, n) + if cut < n && rounds < |lines[cut]| then 1 else 0
  {
    if 0 < n {
      OneMorePick(lines, rounds, cut, n - 1, x);
    }
  }

  lemma {:induction false} NextRound<T>(lines: seq<seq<T>>, rounds: nat, n: nat, x: T)
    requires n <= |lines|
    ensures InShares(lines, rounds, |lines|, n, x) == InShares(lines, rounds + 1, 0, n, x)
    ensures Taken(lines, rounds, |lines|, n) == Taken(lines, rounds + 1, 0, n)
  {
    if 0 < n {
      NextRound(lines, rounds, n - 1, x);
    }
  }

  lemma {:induction false} NothingYet<T>(lines: seq<seq<T>>, n: nat, x: T)
    requires n <= |lines|
    ensures InShares(lines, 0, 0, n, x) == 0 && Taken(lines, 0, 0, n) == 0
  {
    if 0 < n {
      NothingYet(lines, n - 1, x);
    }
  }

  function Count<T(==)>(xs: seq<T>, x: T): nat {
    if xs == [] then 0 else Count(xs[..|xs| - 1], x) + if xs[|xs| - 1] == x then 1 else 0
  }

  lemma CountSnoc<T>(xs: seq<T>, y: T, x: T)
    ensures Count(xs + [y], x) == Count(xs, x) + if y == x then 1 else 0
  {
    assert (xs + [y])[..|xs|] == xs;
  }

  lemma {:induction false} CountIsMultiset<T>(xs: seq<T>, x: T)
    ensures Count(xs, x) == multiset(xs)[x]
  {
    if xs != [] {
      CountIsMultiset(xs[..|xs| - 1], x);
      assert xs == xs[..|xs| - 1] + [xs[|xs| - 1]];
    }
  }

  lemma CountStep<T>(lines: seq<seq<T>>, rounds: nat, cut: nat, x: T)
    requires 0 < cut <= |lines|
    ensures Count(Picks(lines, rounds, cut), x) == Count(Picks(lines, rounds, cut - 1), x)
         + if rounds < |lines[cut - 1]| && lines[cut - 1][|lines[cut - 1]| - 1 - rounds] == x then 1 else 0
    ensures |Picks(lines, rounds, cut)| == |Picks(lines, rounds, cut - 1)| + if rounds < |lines[cut - 1]| then 1 else 0
  {
    var line, before := lines[cut - 1], Picks(lines, rounds, cut - 1);
    if rounds < |line| {
      CountSnoc(before, line[|line| - 1 - rounds], x);
    } else {
      assert Picks(lines, rounds, cut) == before;
    }
  }

  /** The picks are, with repeats, exactly the shares of all streams. */
  ghost predicate PicksMatch<T>(lines: seq<seq<T>>, picks: seq<T>, rounds: nat, cut: nat, x: T) {
    && Count(picks, x) == InShares(lines, rounds, cut, |lines|, x)
    && |picks| == Taken(lines, rounds, cut, |lines|)
  }

  lemma StepMatches<T>(lines: seq<seq<T>>, rounds: nat, cut: nat, x: T)
    requires 0 < cut <= |lines| && PicksMatch(lines, Picks(lines, rounds, cut - 1), rounds, cut - 1, x)
    ensures PicksMatch(lines, Picks(lines, rounds, cut), rounds, cut, x)
  {
    OneMorePick(lines, rounds, cut - 1, |lines|, x);
    CountStep(lines, rounds, cut, x);
  }

  lemma RoundMatches<T>(lines: seq<seq<T>>, picks: seq<T>, rounds: nat, x: T)
    requires 0 < rounds && PicksMatch(lines, picks, rounds - 1, |lines|, x)
    ensures PicksMatch(lines, picks, rounds, 0, x)
  {
    NextRound(lines, rounds - 1, |lines|, x);
  }

  /** The round robin takes from every stream exactly its newest share. */
  lemma {:induction false} PicksAreNewest<T>(lines: seq<seq<T>>, rounds: nat, cut: nat, x: T)
    requires cut <= |lines|
    ensures PicksMatch(lines, Picks(lines, rounds, cut), rounds, cut, x)
    decreases rounds, cut
  {
    if 0 < cut {
      PicksAreNewest(lines, rounds, cut - 1, x);
      StepMatches(lines, rounds, cut, x);
    } else if 0 < rounds {
      PicksAreNewest(lines, rounds - 1, |lines|, x);
      RoundMatches(lines, Picks(lines, rounds - 1, |lines|), rounds, x);
    } else {
      NothingYet(lines, |lines|, x);
    }
  }

  lemma {:induction false} TakenAtMostTotal<T>(lines: seq<seq<T>>, rounds: nat, cut: nat, n: nat)
    requires n <= |lines|
    ensures Taken(lines, rounds, cut, n) <= Total(lines, n)
  {
    if 0 < n {
      TakenAtMostTotal(lines, rounds, cut, n - 1);
    }
  }

  lemma {:induction false} EverythingTaken<T>(lines: seq<seq<T>>, rounds: nat, n: nat)
    requires n <= |lines| && forall i :: 0 <= i < n ==> |lines[i]| <= rounds
    ensures Taken(lines, rounds, 0, n) == Total(lines, n)
  {
    if 0 < n {
      EverythingTaken(lines, rounds, n - 1);
    }
  }

  // ---- The sample

  /** How much of the streams a sample may hold. */
  function Quota<T>(lines: seq<seq<T>>, limit: int): nat {
    Min(if limit < 0 then 0 else limit, Total(lines, |lines|))
  }

  /** Shares differ by at most one unless the smaller stream is used up; earlier streams go first. */
  lemma SharesAreFair<T>(lines: seq<seq<T>>, rounds: nat, cut: nat, i: nat, j: nat)
    requires i < |lines| && j < |lines|
    ensures Share(lines, rounds, cut, i) <= |lines[i]|
    ensures Share(lines, rounds, cut, i) <= Share(lines, rounds, cut, j) + 1
            || Share(lines, rounds, cut, j) == |lines[j]|
    ensures i < j ==>
            Share(lines, rounds, cut, j) <= Share(lines, rounds, cut, i) || Share(lines, rounds, cut, i) == |lines[i]|
  {
  }

  lemma FullSample<T(0)>(lines: seq<seq<T>>, limit: int, rounds: nat, cut: nat)
    requires cut <= |lines| && |Picks(lines, rounds, cut)| <= (if limit < 0 then 0 else limit)
    requires |Picks(lines, rounds, cut)| >= limit || (cut == 0 && forall i :: 0 <= i < |lines| ==> |lines[i]| <= rounds)
    ensures |Picks(lines, rounds, cut)| == Quota(lines, limit)
  {
    var any: T := *;
    PicksAreNewest(lines, rounds, cut, any);
    TakenAtMostTotal(lines, rounds, cut, |lines|);
    if |Picks(lines, rounds, cut)| < limit {
      EverythingTaken(lines, rounds, |lines|);
    }
  }

  lemma TimeOrder()
    ensures TotalPreorder(Earlier)
  {
    forall x, y ensures Earlier(x, y) || Earlier(y, x) {
      StringLeqTotal(x.timestamp, y.timestamp);
    }
    forall x, y, z | Earlier(x, y) && Earlier(y, z) ensures Earlier(x, z) {
      StringLeqTransitive(x.timestamp, y.timestamp, z.timestamp);
    }
  }

  /** No entry left out of a stream is newer than one that was taken from it. */
  lemma NewestFirst(stream: Stream, share: nat, left: nat, taken: nat)
    requires share <= |EntriesOf(stream)| && left < |EntriesOf(stream)| - share <= taken < |EntriesOf(stream)|
    ensures Earlier(EntriesOf(stream)[left], EntriesOf(stream)[taken])
  {
    TimeOrder();
    if stream.values.Some? {
      StableSortSorts(Earlier, Readable(stream.values.value));
    }
  }

  // ---- The sample, told from the streams alone

  /** The readable entries of a stream, with repeats. */
  function Values(stream: Stream): multiset<Entry> {
    if stream.values.None? then multiset{} else multiset(Readable(stream.values.value))
  }

  lemma {:induction false} ReadableCounts(values: seq<Option<Entry>>, x: Entry)
    ensures Count(Readable(values), x) == Count(values, Some(x))
  {
    if values != [] {
      var init, last := values[..|values| - 1], values[|values| - 1];
      ReadableCounts(init, x);
      if last.Some? {
        CountSnoc(Readable(init), last.value, x);
      } else {
        assert Readable(init) + [] == Readable(init);
      }
    }
  }

  /** An entry is there as often as the stream's values have it. */
  lemma ValuesCount(stream: Stream, x: Entry)
    ensures Values(stream)[x] == if stream.values.Some? then multiset(stream.values.value)[Some(x)] else 0
  {
    if stream.values.Some? {
      ReadableCounts(stream.values.value, x);
      CountIsMultiset(Readable(stream.values.value), x);
      CountIsMultiset(stream.values.value, Some(x));
    }
  }

  /** The first `n` multisets together. */
  function SumOf<T>(parts: seq<multiset<T>>, n: nat): multiset<T>
    requires n <= |parts|
  {
    if n == 0 then multiset{} else SumOf(parts, n - 1) + parts[n - 1]
  }

  function Sum<T>(parts: seq<multiset<T>>): multiset<T> {
    SumOf(parts, |parts|)
  }

  /** Nothing left in the stream is newer than anything taken. */
  ghost predicate Newest(part: multiset<Entry>, all: multiset<Entry>) {
    part <= all && forall x, y :: x in all - part && y in part ==> Earlier(x, y)
  }

  /** The first stream gets as much as the second, or all it has, or one less if it comes later. */
  ghost predicate Fair(part: multiset<Entry>, all: multiset<Entry>, other: multiset<Entry>, first: bool) {
    part == all || |other| <= |part| || (!first && |other| == |part| + 1)
  }

  /**
   * A part of every stream, the newest entries each; no stream gets two more
   * than another that has entries left, and the earlier one is served first.
   */
  ghost predicate FairParts(streams: seq<Stream>, parts: seq<multiset<Entry>>) {
    && |parts| == |streams|
    && (forall i :: 0 <= i < |streams| ==> Newest(parts[i], Values(streams[i])))
    && (forall i, j :: 0 <= i < |streams| && 0 <= j < |streams| ==> Fair(parts[i], Values(streams[i]), parts[j], i < j))
  }

  /** The readable entries of all streams together. */
  function ValuesOf(streams: seq<Stream>): multiset<Entry> {
    Sum(Mapped(Values, streams, |streams|))
  }

  /** Every list that is not empty is kept, in order. */
  lemma {:induction false} LineOf<T>(all: seq<seq<T>>, i: nat, n: nat)
    requires i < n <= |all|
    ensures Line(all, i) + (if |all[i]| > 0 then 1 else 0) <= Line(all, n)
    ensures |all[i]| > 0 ==> NonEmpty(all, n)[Line(all, i)] == all[i]
  {
    if i < n - 1 {
      LineOf(all, i, n - 1);
    }
  }

  /** How many entries of a list are taken. */
  function Allotted<T>(all: seq<seq<T>>, rounds: nat, cut: nat, i: nat): (share: nat)
    requires i < |all|
    ensures share <= |all[i]|
  {
    Min(|all[i]|, if Line(all, i) < cut then rounds + 1 else rounds)
  }

  /** The newest `share` entries. */
  function Tail<T>(entries: seq<T>, share: nat): seq<T>
    requires share <= |entries|
  {
    entries[|entries| - share..]
  }

  function Part<T>(all: seq<seq<T>>, rounds: nat, cut: nat, i: nat): multiset<T>
    requires i < |all|
  {
    multiset(Tail(all[i], Allotted(all, rounds, cut, i)))
  }

  ghost predicate ArePartsOf<T>(parts: seq<multiset<T>>, all: seq<seq<T>>, rounds: nat, cut: nat) {
    |parts| == |all| && forall i :: 0 <= i < |all| ==> parts[i] == Part(all, rounds, cut, i)
  }

  lemma {:induction false} MappedAt<S, T>(f: S -> T, xs: seq<S>, n: nat, i: nat)
    requires i < n <= |xs|
    ensures Mapped(f, xs, n)[i] == f(xs[i])
  {
    if i < n - 1 {
      MappedAt(f, xs, n - 1, i);
    }
  }

  lemma EntriesAreValues(stream: Stream)
    ensures multiset(EntriesOf(stream)) == Values(stream) && SortedBy(Earlier, EntriesOf(stream))
  {
    TimeOrder();
    if stream.values.Some? {
      StableSortSorts(Earlier, Readable(stream.values.value));
    }
  }

  lemma TailSplits(entries: seq<Entry>, share: nat)
    requires share <= |entries|
    ensures multiset(entries) == multiset(entries[..|entries| - share]) + multiset(Tail(entries, share))
    ensures |multiset(Tail(entries, share))| == share
  {
    assert entries == entries[..|entries| - share] + Tail(entries, share);
  }

  lemma EarlierBefore(entries: seq<Entry>, cut: nat, x: Entry, y: Entry)
    requires cut <= |entries| && SortedBy(Earlier, entries) && x in entries[..cut] && y in entries[cut..]
    ensures Earlier(x, y)
  {
    var i :| 0 <= i < cut && entries[i] == x;
    var j :| cut <= j < |entries| && entries[j] == y;
  }

  /** The newest entries of a sorted list. */
  lemma TailIsNewest(entries: seq<Entry>, share: nat)
    requires share <= |entries| && SortedBy(Earlier, entries)
    ensures Newest(multiset(Tail(entries, share)), multiset(entries))
    ensures share == |entries| ==> multiset(Tail(entries, share)) == multiset(entries)
  {
    var cut := |entries| - share;
    TailSplits(entries, share);
    forall x, y | x in multiset(entries[..cut]) && y in multiset(Tail(entries, share)) ensures Earlier(x, y) {
      EarlierBefore(entries, cut, x, y);
    }
    assert multiset(entries) - multiset(Tail(entries, share)) == multiset(entries[..cut]);
  }

  /** A part against the stream it is taken from, which has `total` entries. */
  ghost predicate PartIs(part: multiset<Entry>, values: multiset<Entry>, share: nat, total: nat) {
    Newest(part, values) && |part| == share && |values| == total && (share == total ==> part == values)
  }

  lemma PartOfStream(stream: Stream, share: nat)
    requires share <= |EntriesOf(stream)|
    ensures PartIs(multiset(Tail(EntriesOf(stream), share)), Values(stream), share, |EntriesOf(stream)|)
  {
    EntriesAreValues(stream);
    TailSplits(EntriesOf(stream), share);
    TailIsNewest(EntriesOf(stream), share);
    assert |multiset(EntriesOf(stream))| == |EntriesOf(stream)|;
  }

  /** The parts are taken from these streams. */
  ghost predicate Cut(streams: seq<Stream>, all: seq<seq<Entry>>, parts: seq<multiset<Entry>>, rounds: nat, cut: nat) {
    && |streams| == |all| == |parts|
    && forall i :: 0 <= i < |all| ==> PartIs(parts[i], Values(streams[i]), Allotted(all, rounds, cut, i), |all[i]|)
  }

  lemma PartsAreCut(streams: seq<Stream>, all: seq<seq<Entry>>, parts: seq<multiset<Entry>>, rounds: nat, cut: nat)
    requires all == AllEntries(streams, |streams|) && ArePartsOf(parts, all, rounds, cut)
    ensures Cut(streams, all, parts, rounds, cut)
  {
    forall i | 0 <= i < |all|
      ensures PartIs(parts[i], Values(streams[i]), Allotted(all, rounds, cut, i), |all[i]|)
    {
      MappedAt(EntriesOf, streams, |streams|, i);
      PartOfStream(streams[i], Allotted(all, rounds, cut, i));
    }
  }

  lemma AllottedFairly<T>(all: seq<seq<T>>, rounds: nat, cut: nat, i: nat, j: nat)
    requires i < |all| && j < |all|
    ensures var a, b := Allotted(all, rounds, cut, i), Allotted(all, rounds, cut, j);
      a == |all[i]| || b <= a || (j <= i && b == a + 1)
  {
    if i < j {
      LineOf(all, i, j);
    }
  }

  lemma PartsAreFair(streams: seq<Stream>, all: seq<seq<Entry>>, parts: seq<multiset<Entry>>, rounds: nat, cut: nat)
    requires Cut(streams, all, parts, rounds, cut)
    ensures FairParts(streams, parts)
  {
    forall i, j | 0 <= i < |streams| && 0 <= j < |streams|
      ensures Fair(parts[i], Values(streams[i]), parts[j], i < j)
    {
      AllottedFairly(all, rounds, cut, i, j);
    }
  }

  lemma {:induction false} SharesOfPrefix<T>(lines: seq<seq<T>>, more: seq<seq<T>>, rounds: nat, cut: nat, n: nat, x: T)
    requires n <= |lines|
    ensures InShares(lines + more, rounds, cut, n, x) == InShares(lines, rounds, cut, n, x)
  {
    if 0 < n {
      SharesOfPrefix(lines, more, rounds, cut, n - 1, x);
    }
  }

  /** One more list adds what is taken of it. */
  lemma OneMoreLine<T>(all: seq<seq<T>>, rounds: nat, cut: nat, n: nat, x: T)
    requires 0 < n <= |all|
    ensures InShares(NonEmpty(all, n), rounds, cut, Line(all, n), x)
         == InShares(NonEmpty(all, n - 1), rounds, cut, Line(all, n - 1), x)
            + InNewest(all[n - 1], Allotted(all, rounds, cut, n - 1), x)
  {
    var before, k, list := NonEmpty(all, n - 1), Line(all, n - 1), all[n - 1];
    if |list| > 0 {
      SharesOfPrefix(before, [list], rounds, cut, k, x);
      assert NonEmpty(all, n) == before + [list];
    } else {
      assert NonEmpty(all, n) == before;
    }
  }

  /** How often `x` is taken from the first `n` lists together. */
  ghost function InParts<T>(all: seq<seq<T>>, rounds: nat, cut: nat, n: nat, x: T): nat
    requires n <= |all|
  {
    if n == 0 then 0
    else InParts(all, rounds, cut, n - 1, x) + InNewest(all[n - 1], Allotted(all, rounds, cut, n - 1), x)
  }

  lemma {:induction false} InPartsIsSum<T>(all: seq<seq<T>>, rounds: nat, cut: nat, parts: seq<multiset<T>>, n: nat,
                                           x: T)
    requires n <= |all| && ArePartsOf(parts, all, rounds, cut)
    ensures InParts(all, rounds, cut, n, x) == SumOf(parts, n)[x]
  {
    if 0 < n {
      InPartsIsSum(all, rounds, cut, parts, n - 1, x);
      NewestIsSuffix(all[n - 1], Allotted(all, rounds, cut, n - 1), x);
      assert parts[n - 1] == Part(all, rounds, cut, n - 1);
    }
  }

  lemma {:induction false} InPartsIsInShares<T>(all: seq<seq<T>>, rounds: nat, cut: nat, n: nat, x: T)
    requires n <= |all|
    ensures InParts(all, rounds, cut, n, x) == InShares(NonEmpty(all, n), rounds, cut, Line(all, n), x)
  {
    if 0 < n {
      InPartsIsInShares(all, rounds, cut, n - 1, x);
      OneMoreLine(all, rounds, cut, n, x);
    }
  }

  function Lengths<T>(all: seq<seq<T>>, n: nat): nat
    requires n <= |all|
  {
    if n == 0 then 0 else Lengths(all, n - 1) + |all[n - 1]|
  }

  lemma {:induction false} LengthsAreTotal<T>(all: seq<seq<T>>, n: nat)
    requires n <= |all|
    ensures Lengths(all, n) == Total(NonEmpty(all, n), Line(all, n))
  {
    if 0 < n {
      LengthsAreTotal(all, n - 1);
      if |all[n - 1]| > 0 {
        TotalOfPrefix(NonEmpty(all, n - 1), [all[n - 1]], Line(all, n - 1));
      } else {
        assert NonEmpty(all, n) == NonEmpty(all, n - 1);
      }
    }
  }

  lemma {:induction false} LengthsAreSum<T>(all: seq<seq<T>>, parts: seq<multiset<T>>, n: nat)
    requires n <= |parts| == |all| && forall i :: 0 <= i < |all| ==> |all[i]| == |parts[i]|
    ensures Lengths(all, n) == |SumOf(parts, n)|
  {
    if 0 < n {
      LengthsAreSum(all, parts, n - 1);
    }
  }

  lemma {:induction false} TotalOfPrefix<T>(lines: seq<seq<T>>, more: seq<seq<T>>, n: nat)
    requires n <= |lines|
    ensures Total(lines + more, n) == Total(lines, n)
  {
    if 0 < n {
      TotalOfPrefix(lines, more, n - 1);
    }
  }

  method Read(values: seq<Option<Entry>>) returns (entries: seq<Entry>)
    ensures entries == Readable(values)
  {
    entries := [];
    for k := 0 to |values|
      invariant entries == Readable(values[..k])
    {
      assert values[..k + 1][..k] == values[..k];
      if values[k].Some? {
        entries := entries + [values[k].value];
      }
    }
    assert values[..|values|] == values;
  }

  /** Sorts every stream and drops the empty ones. */
  method Collect(streams: seq<Stream>) returns (lines: seq<seq<Entry>>)
    ensures lines == Timelines(streams)
  {
    lines := [];
    for i := 0 to |streams|
      invariant lines == NonEmpty(AllEntries(streams, i), i)
    {
      var entries := ReadStream(streams[i]);
      NextLine(AllEntries(streams, i), entries);
      if entries != [] {
        lines := lines + [entries];
      }
    }
  }

  lemma NextLine<T>(all: seq<seq<T>>, list: seq<T>)
    ensures NonEmpty(all + [list], |all| + 1) == NonEmpty(all, |all|) + if |list| > 0 then [list] else []
  {
    NonEmptyOfPrefix(all, [list], |all|);
  }

  lemma {:induction false} NonEmptyOfPrefix<T>(all: seq<seq<T>>, more: seq<seq<T>>, n: nat)
    requires n <= |all|
    ensures NonEmpty(all + more, n) == NonEmpty(all, n)
  {
    if 0 < n {
      NonEmptyOfPrefix(all, more, n - 1);
    }
  }

  method ReadStream(stream: Stream) returns (entries: seq<Entry>)
    ensures entries == EntriesOf(stream)
  {
    entries := [];
    if stream.values.Some? {
      entries := Read(stream.values.value);
      entries := StableSort(Earlier, entries);
    }
  }

  /**
   * At most `limit` entries in time order: the newest ones of every stream,
   * taken in turns so that no stream crowds out another. There are fewer than
   * the limit only if the streams together have no more.
   */
  method SampleEntries(streams: seq<Stream>, limit: int := 8)
      returns (sample: seq<Entry>, ghost parts: seq<multiset<Entry>>)
    ensures FairParts(streams, parts) && multiset(sample) == Sum(parts)
    ensures |sample| == Min(if limit < 0 then 0 else limit, |ValuesOf(streams)|)
    ensures SortedBy(Earlier, sample)
  {
    var lines := Collect(streams);
    var entries;
    ghost var rounds, cut;
    entries, rounds, cut := TakeTurns(lines, limit);
    parts := PartsOf(AllEntries(streams, |streams|), rounds, cut);
    sample := StableSort(Earlier, entries);
    forall x ensures multiset(entries)[x] == InShares(lines, rounds, cut, |lines|, x) {
      PicksAreNewest(lines, rounds, cut, x);
      CountIsMultiset(entries, x);
    }
    TimeOrder();
    StableSortSorts(Earlier, entries);
    WholeSample(streams, rounds, cut, parts, sample);
  }

  ghost function PartsOf<T>(all: seq<seq<T>>, rounds: nat, cut: nat): (parts: seq<multiset<T>>)
    ensures ArePartsOf(parts, all, rounds, cut)
  {
    seq(|all|, i requires 0 <= i < |all| => Part(all, rounds, cut, i))
  }

  lemma WholeSample(streams: seq<Stream>, rounds: nat, cut: nat, parts: seq<multiset<Entry>>, sample: seq<Entry>)
    requires ArePartsOf(parts, AllEntries(streams, |streams|), rounds, cut)
    requires forall x ::
      multiset(sample)[x] == InShares(Timelines(streams), rounds, cut, |Timelines(streams)|, x)
    ensures FairParts(streams, parts) && multiset(sample) == Sum(parts)
    ensures Total(Timelines(streams), |Timelines(streams)|) == |ValuesOf(streams)|
  {
    var all := AllEntries(streams, |streams|);
    PartsAreCut(streams, all, parts, rounds, cut);
    PartsAreFair(streams, all, parts, rounds, cut);
    LengthsAreTotal(all, |all|);
    var values := Mapped(Values, streams, |streams|);
    forall i | 0 <= i < |all| ensures |all[i]| == |values[i]| {
      MappedAt(Values, streams, |streams|, i);
    }
    LengthsAreSum(all, values, |all|);
    forall x ensures multiset(sample)[x] == Sum(parts)[x] {
      InPartsIsSum(all, rounds, cut, parts, |all|, x);
      InPartsIsInShares(all, rounds, cut, |all|, x);
    }
  }

  /** Where every stream stands: the index of its newest entry not taken yet. */
  ghost predicate At<T>(lines: seq<seq<T>>, rounds: nat, cut: nat, positions: seq<int>) {
    && |positions| == |lines|
    && forall i :: 0 <= i < |lines| ==> positions[i] == |lines[i]| - 1 - Share(lines, rounds, cut, i)
  }

  method TakeTurns<T(0)>(lines: seq<seq<T>>, limit: int) returns (entries: seq<T>, ghost rounds: nat, ghost cut: nat)
    ensures cut <= |lines| && entries == Picks(lines, rounds, cut)
    ensures |entries| == Quota(lines, limit)
  {
    var positions := seq(|lines|, i requires 0 <= i < |lines| => |lines[i]| - 1);
    var added := true;
    entries, rounds, cut := [], 0, 0;
    while |entries| < limit && added
      invariant cut <= |lines| && entries == Picks(lines, rounds, cut) && At(lines, rounds, cut, positions)
      invariant |entries| <= (if limit < 0 then 0 else limit) && (|entries| < limit ==> cut == 0)
      invariant !added ==> |entries| >= limit || forall i :: 0 <= i < |lines| ==> |lines[i]| <= rounds
      decreases added, limit - |entries|
    {
      entries, positions, added, cut := OneRound(lines, limit, rounds, entries, positions);
      if |entries| < limit {
        rounds, cut := rounds + 1, 0;
      }
    }
    FullSample(lines, limit, rounds, cut);
  }

  method OneRound<T>(lines: seq<seq<T>>, limit: int, ghost rounds: nat, entries0: seq<T>, positions0: seq<int>)
    returns (entries: seq<T>, positions: seq<int>, added: bool, ghost cut: nat)
    requires |entries0| < limit && entries0 == Picks(lines, rounds, 0) && At(lines, rounds, 0, positions0)
    ensures cut <= |lines| && entries == Picks(lines, rounds, cut) && At(lines, rounds, cut, positions)
    ensures |entries0| <= |entries| <= limit && (|entries| < limit ==> cut == |lines|)
    ensures added ==> |entries0| < |entries|
    ensures !added ==> cut == |lines| && forall i :: 0 <= i < |lines| ==> |lines[i]| <= rounds
  {
    entries, positions, added := entries0, positions0, false;
    for index := 0 to |lines|
      invariant |entries0| <= |entries| < limit
      invariant entries == Picks(lines, rounds, index) && At(lines, rounds, index, positions)
      invariant added ==> |entries0| < |entries|
      invariant !added ==> forall i :: 0 <= i < index ==> |lines[i]| <= rounds
    {
      var line := lines[index];
      if 0 <= positions[index] {
        entries := entries + [line[positions[index]]];
        positions := positions[index := positions[index] - 1];
        added := true;
        if limit <= |entries| {
          cut := index + 1;
          return;
        }
      }
    }
    cut := |lines|;
  }
}
