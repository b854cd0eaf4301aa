/**
 * When every symptom match that is left out is accounted for by one that is
 * returned. An omitted match may be explained by one that is itself omitted
 * because its name is taken; the question is for which symptom names of a
 * catalog this can lose something. One half is a proof over all texts, the
 * other builds, for any names that clash, keywords and a text that lose a
 * match: runs of one neutral character, nested in each other.
 */
module SymptomCoverage {
  import opened KeywordScan
  import opened NegatedSpans
  import opened Sorting
  import opened SymptomMatcher
  import SymptomReport
  import opened Thinning

  /** It is returned, or its name is, or a returned match of better rank explains it. */
  ghost predicate Accounted(q: Query, ms: seq<Match>, m: Match) {
    || m in Resolved(q, ms)
    || AlreadyNamed(q, ms, m)
    || exists k :: k in Resolved(q, ms) && Ranks(q, k, m) && Explains(q, k, m)
  }

  ghost predicate AllAccounted(q: Query, ms: seq<Match>) {
    forall m :: m in ms ==> Accounted(q, ms, m)
  }

  // ---- The names of a catalog

  function NamesIn(symptoms: seq<Symptom>): seq<string> {
    seq(|symptoms|, i requires 0 <= i < |symptoms| => symptoms[i].name)
  }

  /** The symptom names of the first `n` families, position by position. */
  function NamesUpTo(catalog: Catalog, n: nat): (names: seq<string>)
    requires n <= |catalog|
    ensures |names| == Size(catalog, n)
  {
    if n == 0 then [] else NamesUpTo(catalog, n - 1) + NamesIn(catalog[n - 1].1)
  }

  function NamesOf(catalog: Catalog): seq<string> {
    NamesUpTo(catalog, |catalog|)
  }

  ghost predicate InOrder(ms: seq<Match>) {
    forall i, j :: 0 <= i < j < |ms| ==> ms[i].position < ms[j].position
  }

  /** The match stands at one of these names' positions and its symptom has that name. */
  ghost predicate Carries(m: Match, names: seq<string>, start: nat) {
    start <= m.position < start + |names| && m.symptom.name == names[m.position - start]
  }

  ghost predicate AllCarry(ms: seq<Match>, names: seq<string>, start: nat) {
    forall m :: m in ms ==> Carries(m, names, start)
  }

  /** Matches in catalog order whose symptoms carry these names, the first name standing at position `start`. */
  ghost predicate NamedFrom(ms: seq<Match>, names: seq<string>, start: nat) {
    InOrder(ms) && AllCarry(ms, names, start)
  }

  ghost predicate Named(ms: seq<Match>, names: seq<string>) {
    NamedFrom(ms, names, 0)
  }

  lemma NamedTogether(xs: seq<Match>, ys: seq<Match>, names: seq<string>, more: seq<string>, start: nat)
    requires NamedFrom(xs, names, start) && NamedFrom(ys, more, start + |names|)
    ensures NamedFrom(xs + ys, names + more, start)
  {
    var all := xs + ys;
    forall i, j | 0 <= i < j < |all| ensures all[i].position < all[j].position {
      if i < |xs| <= j {
        assert xs[i] in xs && ys[j - |xs|] in ys;
        assert Carries(xs[i], names, start) && Carries(ys[j - |xs|], more, start + |names|);
      }
    }
    forall m | m in all ensures Carries(m, names + more, start) {
      assert m in xs || m in ys;
    }
  }

  lemma OneMoreName(xs: seq<Match>, more: seq<Match>, names: seq<string>, name: string, start: nat)
    requires NamedFrom(xs, names, start)
    requires more == [] || (|more| == 1 && more[0].position == start + |names| && more[0].symptom.name == name)
    ensures NamedFrom(xs + more, names + [name], start)
  {
    NamedTogether(xs, more, names, [name], start);
  }

  lemma NamesGrow(symptoms: seq<Symptom>, n: nat)
    requires n < |symptoms|
    ensures NamesIn(symptoms[..n + 1]) == NamesIn(symptoms[..n]) + [symptoms[n].name] && |NamesIn(symptoms[..n])| == n
  {
  }

  lemma {:induction false} FamilyIsNamed(find: (Family, Symptom) -> seq<string>, family: Family,
                                         symptoms: seq<Symptom>, n: nat, start: nat)
    requires n <= |symptoms|
    ensures NamedFrom(FamilyMatches(find, family, symptoms, n, start), NamesIn(symptoms[..n]), start)
  {
    if 0 < n {
      var before, hits := FamilyMatches(find, family, symptoms, n - 1, start), find(family, symptoms[n - 1]);
      var more := if hits != [] then [Match(family, symptoms[n - 1], hits, start + n - 1)] else [];
      FamilyIsNamed(find, family, symptoms, n - 1, start);
      NamesGrow(symptoms, n - 1);
      OneMoreName(before, more, NamesIn(symptoms[..n - 1]), symptoms[n - 1].name, start);
      OneMoreSymptom(find, family, symptoms, n - 1, start, hits);
    }
  }

  lemma OneMoreFamily(find: (Family, Symptom) -> seq<string>, catalog: Catalog, n: nat)
    requires n < |catalog|
    ensures var (family, symptoms) := catalog[n];
      && NamesUpTo(catalog, n + 1) == NamesUpTo(catalog, n) + NamesIn(symptoms)
      && Matches(find, catalog, n + 1)
         == Matches(find, catalog, n) + FamilyMatches(find, family, symptoms, |symptoms|, Size(catalog, n))
  {
  }

  /** The catalog pass gives matches that carry the catalog's names. */
  lemma {:induction false} MatchesAreNamed(find: (Family, Symptom) -> seq<string>, catalog: Catalog, n: nat)
    requires n <= |catalog|
    ensures Named(Matches(find, catalog, n), NamesUpTo(catalog, n))
  {
    if 0 < n {
      var (family, symptoms) := catalog[n - 1];
      var names, start := NamesUpTo(catalog, n - 1), Size(catalog, n - 1);
      var here := FamilyMatches(find, family, symptoms, |symptoms|, start);
      MatchesAreNamed(find, catalog, n - 1);
      FamilyIsNamed(find, family, symptoms, |symptoms|, start);
      assert symptoms[..|symptoms|] == symptoms;
      OneMoreFamily(find, catalog, n - 1);
      NamedTogether(Matches(find, catalog, n - 1), here, names, NamesIn(symptoms), 0);
    }
  }

  /** Two symptoms share a non-empty name and a third has another one. */
  ghost predicate Clash(names: seq<string>, i: nat, j: nat, l: nat) {
    && i < |names| && j < |names| && l < |names|
    && i != j && names[i] == names[j] != "" && names[l] != names[i]
  }

  // ---- Without a clash nothing is lost

  lemma AccountedWithoutClash(q: Query, names: seq<string>, ms: seq<Match>, m: Match)
    requires Named(ms, names) && m in ms && forall i, j, l :: !Clash(names, i, j, l)
    ensures Accounted(q, ms, m)
  {
    ReturnedIff(q, ms, m);
    if m !in Resolved(q, ms) && !AlreadyNamed(q, ms, m) {
      var k :| k in Strong(q, ms) && Ranks(q, k, m) && Explains(q, k, m);
      if k !in Resolved(q, ms) {
        ExplainersAreRepresented(q, ms, k);
        var r :| r in Resolved(q, ms) && r != k && Ranks(q, r, k) && SameName(r, k);
        OneNameForAll(q, names, ms, r, k, m);
        KeysAreOrdered(KeyOf(r, q), KeyOf(k, q), KeyOf(m, q));
        assert SameName(r, m);
      }
    }
  }

  lemma OneNameForAll(q: Query, names: seq<string>, ms: seq<Match>, r: Match, k: Match, m: Match)
    requires Named(ms, names) && m in ms && forall i, j, l :: !Clash(names, i, j, l)
    requires r in Resolved(q, ms) && k in Strong(q, ms) && r != k && SameName(r, k)
    ensures SameName(r, m)
  {
    StrongIsStrict(q, ms);
    ThinFrom(SameName, Strong(q, ms), |Strong(q, ms)|);
    assert Before(Strong(q, ms), |Strong(q, ms)|, r);
    OtherPlace(ms, r, k);
    assert !Clash(names, r.position, k.position, m.position);
  }

  // ---- With a clash something can be

  /** Three matches: two short hits, one long one, and one whose single hit is part of that. */
  predicate Chain(q: Query, a: Match, b: Match, c: Match) {
    && |a.hits| == 2 && |b.hits| == |c.hits| == 1
    && |a.hits[0]| < |c.hits[0]| && |a.hits[1]| < |c.hits[0]| < |b.hits[0]|
    && Within(c.hits[0], b.hits[0])
    && a.hits[0] !in q.genericState && b.hits[0] !in q.genericState && c.hits[0] !in q.genericState
    && b.hits[0] !in q.genericContext && c.hits[0] !in q.genericContext
  }

  /**
   * What a stronger match explains can be omitted although that match is not
   * returned either: the first two share their name, the third has another.
   */
  lemma ExplainerNeedNotBeReturned(q: Query, a: Match, b: Match, c: Match, ms: seq<Match>)
    requires Chain(q, a, b, c) && SameName(a, b) && multiset(ms) == multiset([a, b, c]) && Positioned(ms)
    ensures Strong(q, ms) == [a, b] && Resolved(q, ms) == [a]
    ensures Explains(q, b, c) && !Explains(q, a, c)
  {
    LongExplains(q, b, c);
    ShortExplainsNothing(q, a, b);
    ShortExplainsNothing(q, a, c);
    ChainRanks(q, a, b, c);
    RankedIsStrict(q, ms);
    OrderIsTotal(q);
    SortedUniquely(Order(q), Ranked(q, ms), [a, b, c]);
    assert |multiset(ms)| == |multiset([a, b, c])|;
    ThinTriple(Explaining(q), a, b, c);
    NamedPair(q, ms, a, b);
  }

  lemma NamedPair(q: Query, ms: seq<Match>, a: Match, b: Match)
    requires Strong(q, ms) == [a, b] && SameName(a, b)
    ensures Resolved(q, ms) == [a]
  {
    ThinPair(SameName, a, b);
  }

  lemma LongExplains(q: Query, b: Match, c: Match)
    requires |b.hits| == |c.hits| == 1 && |c.hits[0]| < |b.hits[0]| && Within(c.hits[0], b.hits[0])
    ensures Explains(q, b, c)
  {
    assert b.hits[0] in b.hits && c.hits != b.hits;
  }

  lemma LongestOfOne(hits: seq<string>)
    requires |hits| == 1
    ensures Longest(hits) == |hits[0]|
  {
    assert hits[1..] == [];
  }

  lemma ChainRanks(q: Query, a: Match, b: Match, c: Match)
    requires Chain(q, a, b, c)
    ensures SortedBy(Order(q), [a, b, c])
  {
    LongestOfOne(b.hits);
    LongestOfOne(c.hits);
    assert a.hits[0] in a.hits && b.hits[0] in b.hits && c.hits[0] in c.hits;
    assert Ranks(q, a, b) && Ranks(q, a, c) && Ranks(q, b, c);
  }

  lemma ShortExplainsNothing(q: Query, a: Match, m: Match)
    requires |a.hits| == 2 && |m.hits| == 1 && |a.hits[0]| < |m.hits[0]| && |a.hits[1]| < |m.hits[0]|
             && m.hits[0] !in q.genericContext
    ensures !Explains(q, a, m)
  {
    assert m.hits[0] in m.hits;
    forall s | s in a.hits ensures !Within(m.hits[0], s) {
      assert s == a.hits[0] || s == a.hits[1];
    }
  }

  // ---- A catalog and a text that show it

  function Run(c: char, n: nat): (r: string)
    ensures |r| == n
  {
    seq(n, _ => c)
  }

  /**
   * What the rules say about runs of one character: it belongs to no token, is
   * its own lower case, negates nothing, and the family needs no other context.
   */
  ghost predicate Neutral(x: Matching, f: Family, c: char) {
    && !x.rules.alnum(c)
    && (forall n: nat :: x.lower(Run(c, n)) == Run(c, n))
    && (forall n: nat, a: nat, b: nat :: a <= b <= n ==> !x.rules.negated(Run(c, n), a, b))
    && (forall n: nat, s :: x.supported(f, s, Run(c, n)))
  }

  /** Runs no longer than the text, longest first. */
  ghost predicate Runs(c: char, n: nat, keywords: seq<string>) {
    && (forall k :: k in keywords ==> 0 < |k| <= n && k == Run(c, |k|))
    && SortedBy(LongerFirst, keywords)
  }

  lemma RunPasses(r: Rules, c: char, n: nat, k: nat, idx: nat)
    requires !r.alnum(c) && 0 < k && idx + k <= n
    ensures Passes(r, Run(c, n), Run(c, k), idx)
  {
    assert Run(c, n)[idx..idx + k] == Run(c, k);
  }

  lemma NothingRecorded(x: Matching, f: Family, c: char, n: nat, keywords: set<string>)
    requires Neutral(x, f, c)
    ensures Recorded(ReadingOf(x.rules, Run(c, n)), keywords) == {}
  {
    var t := TheReading(x.rules, Run(c, n));
    NothingNegated(t, keywords);
  }

  lemma RunIsReported(x: Matching, f: Family, c: char, n: nat, keywords: set<string>, k: nat)
    requires Neutral(x, f, c) && 0 < k <= n
    ensures Reported(ReadingOf(x.rules, Run(c, n)), keywords, Run(c, k))
  {
    var text, keyword := Run(c, n), Run(c, k);
    NothingRecorded(x, f, c, n, keywords);
    RunPasses(x.rules, c, n, k, 0);
    assert OccursAt(text, keyword, 0) && KeywordScan.Find(text, keyword, 0) == 0;
    FirstOccurrence(text, keyword, 0);
    assert 0 in Occurrences(text, keyword, 0);
    assert Hit(ReadingOf(x.rules, text), {}, keyword, 0);
  }

  lemma {:induction false} LoweredStays(lower: string -> string, keywords: seq<string>)
    requires forall k :: k in keywords ==> lower(k) == k
    ensures Lowered(lower, keywords) == keywords
  {
    if keywords != [] {
      LoweredStays(lower, keywords[..|keywords| - 1]);
    }
  }

  /** In a run every shorter run is a hit. */
  lemma RunsAreHits(x: Matching, f: Family, c: char, n: nat, s: Symptom)
    requires Neutral(x, f, c) && Runs(c, n, s.keywords)
    ensures SymptomMatcher.Finder(x, Run(c, n))(f, s) == s.keywords
  {
    var text, keywords := Run(c, n), s.keywords;
    LoweredStays(x.lower, keywords);
    SortedStays(LongerFirst, keywords);
    forall k | k in keywords ensures Reported(ReadingOf(x.rules, text), SetOf(keywords), k) {
      RunIsReported(x, f, c, n, SetOf(keywords), |k|);
    }
    FilterAll(k => Reported(ReadingOf(x.rules, text), SetOf(keywords), k), keywords);
  }

  lemma LongerThanAll(words: set<string>) returns (n: nat)
    ensures 0 < n && forall w :: w in words ==> |w| < n
    decreases |words|
  {
    n := 1;
    if words != {} {
      var w :| w in words;
      var rest := LongerThanAll(words - {w});
      n := if |w| < rest then rest else |w| + 1;
    }
  }

  lemma RunWithin(c: char, m: nat, n: nat)
    requires m <= n
    ensures Within(Run(c, m), Run(c, n))
  {
    assert Run(c, n)[0..m] == Run(c, m);
    assert OccursAt(Run(c, n), Run(c, m), 0);
  }

  /** Keywords for three positions: two runs, a longest one, and one that is part of the longest. */
  function KeywordsAt(c: char, n: nat, i: nat, j: nat, l: nat, at: nat): seq<string> {
    if at == i then [Run(c, n + 1), Run(c, n)]
    else if at == j then [Run(c, n + 3)]
    else if at == l then [Run(c, n + 2)]
    else []
  }

  function SymptomsWith(names: seq<string>, keywords: nat -> seq<string>, d: Details): seq<Symptom> {
    seq(|names|, at requires 0 <= at < |names| => Symptom(names[at], keywords(at), d))
  }

  function MatchAt(f: Family, symptoms: seq<Symptom>, at: nat): Match
    requires at < |symptoms|
  {
    Match(f, symptoms[at], symptoms[at].keywords, at)
  }

  lemma MatchesOfOneFamily(find: (Family, Symptom) -> seq<string>, f: Family, symptoms: seq<Symptom>, m: Match)
    ensures m in Matches(find, [(f, symptoms)], 1) <==>
            m.position < |symptoms| && m.hits != []
            && m == Match(f, symptoms[m.position], find(f, symptoms[m.position]), m.position)
  {
    var catalog := [(f, symptoms)];
    assert Matches(find, catalog, 0) == [] && Size(catalog, 0) == 0;
    assert Matches(find, catalog, 1) == FamilyMatches(find, f, symptoms, |symptoms|, 0);
    SymptomReport.FamilyMatchesAre(find, f, symptoms, |symptoms|, 0, m);
  }

  lemma MatchesOfRuns(x: Matching, f: Family, c: char, n: nat, symptoms: seq<Symptom>, m: Match)
    requires Neutral(x, f, c) && forall s :: s in symptoms ==> Runs(c, n, s.keywords)
    ensures m in AllMatches(x, Run(c, n), [(f, symptoms)]) <==>
            m.position < |symptoms| && symptoms[m.position].keywords != [] && m == MatchAt(f, symptoms, m.position)
  {
    MatchesOfOneFamily(SymptomMatcher.Finder(x, Run(c, n)), f, symptoms, m);
    if m.position < |symptoms| {
      RunsAreHits(x, f, c, n, symptoms[m.position]);
    }
  }

  lemma JustThree(ms: seq<Match>, a: Match, b: Match, c: Match)
    requires Positioned(ms) && a != b && a != c && b != c
    requires forall m :: m in ms <==> m == a || m == b || m == c
    ensures multiset(ms) == multiset([a, b, c])
  {
    forall m ensures multiset(ms)[m] == multiset([a, b, c])[m] {
      OnePosition(ms, m);
      assert m in ms <==> m in multiset(ms);
    }
  }

  /** Three symptoms with keywords give three matches. */
  lemma ThreeMatches(x: Matching, f: Family, c: char, n: nat, symptoms: seq<Symptom>, i: nat, j: nat, l: nat)
    requires Neutral(x, f, c) && forall s :: s in symptoms ==> Runs(c, n, s.keywords)
    requires i < |symptoms| && j < |symptoms| && l < |symptoms| && i != j && i != l && j != l
    requires forall at :: 0 <= at < |symptoms| ==> (symptoms[at].keywords != [] <==> at == i || at == j || at == l)
    ensures var ms := AllMatches(x, Run(c, n), [(f, symptoms)]);
      Positioned(ms)
      && multiset(ms) == multiset([MatchAt(f, symptoms, i), MatchAt(f, symptoms, j), MatchAt(f, symptoms, l)])
  {
    var ms := AllMatches(x, Run(c, n), [(f, symptoms)]);
    MatchesArePositioned(SymptomMatcher.Finder(x, Run(c, n)), [(f, symptoms)], 1);
    forall m ensures m in ms <==>
        m == MatchAt(f, symptoms, i) || m == MatchAt(f, symptoms, j) || m == MatchAt(f, symptoms, l) {
      MatchesOfRuns(x, f, c, n, symptoms, m);
    }
    JustThree(ms, MatchAt(f, symptoms, i), MatchAt(f, symptoms, j), MatchAt(f, symptoms, l));
  }

  lemma KeywordsAreRuns(c: char, n: nat, i: nat, j: nat, l: nat, at: nat)
    requires 0 < n
    ensures Runs(c, n + 3, KeywordsAt(c, n, i, j, l, at))
    ensures KeywordsAt(c, n, i, j, l, at) != [] <==> at == i || at == j || at == l
  {
  }

  lemma RunsChain(q: Query, c: char, n: nat, m1: Match, m2: Match, m3: Match)
    requires forall w :: w in q.genericState + q.genericContext ==> |w| < n
    requires m1.hits == [Run(c, n + 1), Run(c, n)] && m2.hits == [Run(c, n + 3)] && m3.hits == [Run(c, n + 2)]
    ensures Chain(q, m1, m2, m3)
  {
    RunWithin(c, n + 2, n + 3);
  }

  ghost predicate Chained(q: Query, f: Family, c: char, n: nat, symptoms: seq<Symptom>, i: nat, j: nat, l: nat) {
    && i < |symptoms| && j < |symptoms| && l < |symptoms| && i != j && i != l && j != l
    && (forall s :: s in symptoms ==> Runs(c, n, s.keywords))
    && (forall at :: 0 <= at < |symptoms| ==> (symptoms[at].keywords != [] <==> at == i || at == j || at == l))
    && Chain(q, MatchAt(f, symptoms, i), MatchAt(f, symptoms, j), MatchAt(f, symptoms, l))
  }

  /** One family with these names and three symptoms that have keywords. */
  lemma ChainOfSymptoms(q: Query, names: seq<string>, f: Family, c: char, i: nat, j: nat, l: nat)
    returns (n: nat, symptoms: seq<Symptom>)
    requires i < |names| && j < |names| && l < |names| && i != j && i != l && j != l
    ensures NamesIn(symptoms) == names && Chained(q, f, c, n, symptoms, i, j, l)
  {
    var k := LongerThanAll(q.genericState + q.genericContext);
    var d: Details := *;
    n, symptoms := k + 3, SymptomsWith(names, (at: nat) => KeywordsAt(c, k, i, j, l, at), d);
    forall at: nat ensures Runs(c, n, KeywordsAt(c, k, i, j, l, at))
                   ensures KeywordsAt(c, k, i, j, l, at) != [] <==> at == i || at == j || at == l
    {
      KeywordsAreRuns(c, k, i, j, l, at);
    }
    RunsChain(q, c, k, MatchAt(f, symptoms, i), MatchAt(f, symptoms, j), MatchAt(f, symptoms, l));
  }

  lemma NamesOfOneFamily(f: Family, symptoms: seq<Symptom>)
    ensures NamesOf([(f, symptoms)]) == NamesIn(symptoms) && |NamesIn(symptoms)| == |symptoms|
    ensures forall at :: 0 <= at < |symptoms| ==> symptoms[at].name == NamesIn(symptoms)[at]
  {
    assert NamesUpTo([(f, symptoms)], 0) == [];
  }

  lemma ChainLosesAMatch(x: Matching, q: Query, f: Family, c: char, n: nat, symptoms: seq<Symptom>,
                         i: nat, j: nat, l: nat)
    requires Neutral(x, f, c) && Chained(q, f, c, n, symptoms, i, j, l)
    requires symptoms[i].name == symptoms[j].name != "" && symptoms[l].name != symptoms[i].name
    ensures !AllAccounted(q, AllMatches(x, Run(c, n), [(f, symptoms)]))
  {
    ThreeMatches(x, f, c, n, symptoms, i, j, l);
    LostAmongThree(q, AllMatches(x, Run(c, n), [(f, symptoms)]), f, symptoms, i, j, l);
  }

  /** For names that clash: a catalog with these names and a text in which a match is lost. */
  lemma ClashLosesAMatch(x: Matching, q: Query, names: seq<string>, f: Family, c: char, i: nat, j: nat, l: nat)
    returns (text: string, catalog: Catalog)
    requires Neutral(x, f, c) && Clash(names, i, j, l)
    ensures NamesOf(catalog) == names && !AllAccounted(q, AllMatches(x, text, catalog))
  {
    var n, symptoms := ChainOfSymptoms(q, names, f, c, i, j, l);
    text, catalog := Run(c, n), [(f, symptoms)];
    NamesOfOneFamily(f, symptoms);
    ChainLosesAMatch(x, q, f, c, n, symptoms, i, j, l);
  }

  lemma LostAmongThree(q: Query, ms: seq<Match>, f: Family, symptoms: seq<Symptom>, i: nat, j: nat, l: nat)
    requires i < |symptoms| && j < |symptoms| && l < |symptoms|
    requires symptoms[i].name == symptoms[j].name != "" && symptoms[l].name != symptoms[i].name
    requires Chain(q, MatchAt(f, symptoms, i), MatchAt(f, symptoms, j), MatchAt(f, symptoms, l))
    requires Positioned(ms)
    requires multiset(ms) == multiset([MatchAt(f, symptoms, i), MatchAt(f, symptoms, j), MatchAt(f, symptoms, l)])
    ensures !AllAccounted(q, ms)
  {
    var a, b, c := MatchAt(f, symptoms, i), MatchAt(f, symptoms, j), MatchAt(f, symptoms, l);
    ExplainerNeedNotBeReturned(q, a, b, c, ms);
    OnlyOneReturned(q, ms, a, c);
    assert c in multiset(ms);
  }

  lemma OnlyOneReturned(q: Query, ms: seq<Match>, a: Match, c: Match)
    requires Resolved(q, ms) == [a] && a.symptom.name != c.symptom.name && !Explains(q, a, c)
    ensures !Accounted(q, ms, c)
  {
  }

  /**
   * Whatever the evidence says and whatever the keywords are, every omitted
   * match is accounted for by a returned one, exactly for catalogs in which no
   * two symptoms share a non-empty name that a third one does not have.
   */
  lemma AccountedIff(x: Matching, q: Query, names: seq<string>, f: Family, c: char)
    requires Neutral(x, f, c)
    ensures (forall text, catalog :: NamesOf(catalog) == names ==> AllAccounted(q, AllMatches(x, text, catalog)))
       <==> forall i, j, l :: !Clash(names, i, j, l)
  {
    if i: nat, j: nat, l: nat :| Clash(names, i, j, l) {
      var text, catalog := ClashLosesAMatch(x, q, names, f, c, i, j, l);
      assert NamesOf(catalog) == names && !AllAccounted(q, AllMatches(x, text, catalog));
    } else {
      forall text, catalog, m | NamesOf(catalog) == names && m in AllMatches(x, text, catalog)
        ensures Accounted(q, AllMatches(x, text, catalog), m)
      {
        MatchesAreNamed(SymptomMatcher.Finder(x, text), catalog, |catalog|);
        AccountedWithoutClash(q, names, AllMatches(x, text, catalog), m);
      }
    }
  }
}
