/** What a list of reported symptoms must be, told from the matches and the guesses alone. */
module SymptomReport {
  import Bm25
  import opened Sorting
  import NegatedSpans
  import opened SymptomMatcher
  import opened Thinning

  // ---- The order of matches

  /** There are hits, and none of them is outside the table of generic states. */
  ghost predicate NothingConcrete(q: Query, hits: seq<string>) {
    hits != [] && !exists h :: h in hits && h !in q.genericState
  }

  /** Concrete hits before generic ones, then more hits, then a longer one, then the ranked family, then the catalog. */
  lemma RanksIff(q: Query, a: Match, b: Match)
    ensures Ranks(q, a, b) <==>
      var ga, gb := NothingConcrete(q, a.hits), NothingConcrete(q, b.hits);
      var la, lb := Longest(a.hits), Longest(b.hits);
      if ga != gb then gb
      else if |a.hits| != |b.hits| then |a.hits| > |b.hits|
      else if la != lb then la > lb
      else if (a.family == q.top) != (b.family == q.top) then a.family == q.top
      else a.position <= b.position
  {
  }

  /** The hit occurs somewhere in one of the stronger match's hits. */
  ghost predicate Inside(h: string, hits: seq<string>) {
    exists s, i: nat :: s in hits && NegatedSpans.OccursAt(s, h, i)
  }

  /** A stronger match explains one whose hits all occur in its own, or whose one hit is a mere context. */
  lemma ExplainsIff(q: Query, k: Match, m: Match)
    ensures Explains(q, k, m) <==>
      || (m.hits != k.hits && forall h :: h in m.hits ==> Inside(h, k.hits))
      || (|m.hits| == 1 && |k.hits| > 1 && m.hits[0] in q.genericContext)
  {
    forall h ensures Inside(h, k.hits) <==> exists s :: s in k.hits && Within(h, s) {
      if s, i: nat :| s in k.hits && NegatedSpans.OccursAt(s, h, i) {
        assert Within(h, s);
      }
    }
  }

  // ---- Exact matches

  /** The surviving matches: those that no survivor of better rank explains. */
  ghost predicate Survive(q: Query, ms: seq<Match>, strong: set<Match>) {
    forall m :: m in strong <==> m in ms && !exists k :: k in strong && k != m && Ranks(q, k, m) && Explains(q, k, m)
  }

  /** In strict rank order, the survivors whose non-empty name no better one of the list has. */
  ghost predicate NamedOnce(q: Query, strong: set<Match>, list: seq<Match>) {
    && (forall i, j :: 0 <= i < j < |list| ==> list[i] != list[j] && Ranks(q, list[i], list[j]))
    && (forall m :: m in list <==>
          m in strong && !exists k :: k in list && k != m && Ranks(q, k, m) && SameName(k, m))
  }

  ghost predicate ProperList(q: Query, ms: seq<Match>, list: seq<Match>) {
    exists strong :: Survive(q, ms, strong) && NamedOnce(q, strong, list)
  }

  lemma SurviveIsKeeps(q: Query, ms: seq<Match>, strong: set<Match>)
    ensures Survive(q, ms, strong) <==> Keeps(Explaining(q), Order(q), SetOf(ms), strong)
  {
    forall m ensures BlockedIn(Explaining(q), Order(q), strong, m) <==>
      exists k :: k in strong && k != m && Ranks(q, k, m) && Explains(q, k, m)
    {
      if k :| k in strong && k != m && Ranks(q, k, m) && Explains(q, k, m) {
        assert Order(q)(k, m) && Explaining(q)(k, m);
      }
    }
  }

  lemma OneSurvivorSet(q: Query, ms: seq<Match>, strong: set<Match>)
    requires Positioned(ms)
    ensures Survive(q, ms, strong) <==> strong == SetOf(Strong(q, ms))
  {
    RankedIsStrict(q, ms);
    SurviveIsKeeps(q, ms, strong);
    assert SetOf(Ranked(q, ms)) == SetOf(ms);
    KeptIsUnique(Explaining(q), Order(q), Ranked(q, ms), strong);
  }

  lemma ListOrder(q: Query, list: seq<Match>)
    ensures SortedBy(Order(q), list) && Distinct(list) <==>
      forall i, j :: 0 <= i < j < |list| ==> list[i] != list[j] && Ranks(q, list[i], list[j])
  {
    if SortedBy(Order(q), list) && Distinct(list) {
      forall i, j | 0 <= i < j < |list| ensures Ranks(q, list[i], list[j]) {
        assert Order(q)(list[i], list[j]);
      }
    }
  }

  lemma NamedIsKeeps(q: Query, strong: set<Match>, list: seq<Match>)
    ensures (forall m :: m in list <==>
               m in strong && !exists k :: k in list && k != m && Ranks(q, k, m) && SameName(k, m))
       <==> Keeps(SameName, Order(q), strong, SetOf(list))
  {
    forall m ensures BlockedIn(SameName, Order(q), SetOf(list), m) <==>
      exists k :: k in list && k != m && Ranks(q, k, m) && SameName(k, m)
    {
      if k :| k in list && k != m && Ranks(q, k, m) && SameName(k, m) {
        assert k in SetOf(list) && Order(q)(k, m);
      }
    }
    assert forall m :: m in SetOf(list) <==> m in list;
  }

  /** The reported list has these properties, and no other list of these matches does. */
  lemma ProperIsUnique(q: Query, ms: seq<Match>, list: seq<Match>)
    requires Positioned(ms)
    ensures ProperList(q, ms, list) <==> list == Resolved(q, ms)
  {
    var ranked := Strong(q, ms);
    forall strong ensures Survive(q, ms, strong) <==> strong == SetOf(ranked) {
      OneSurvivorSet(q, ms, strong);
    }
    StrongIsStrict(q, ms);
    OneNamedList(q, ranked, list);
  }

  lemma OneNamedList(q: Query, ranked: seq<Match>, list: seq<Match>)
    requires Strictly(Order(q), ranked)
    ensures NamedOnce(q, SetOf(ranked), list) <==> list == Thin(SameName, ranked, |ranked|)
  {
    var thin := Thin(SameName, ranked, |ranked|);
    ListOrder(q, list);
    ListOrder(q, thin);
    NamedIsKeeps(q, SetOf(ranked), list);
    NamedIsKeeps(q, SetOf(ranked), thin);
    ThinKeeps(SameName, Order(q), ranked);
    ThinFrom(SameName, ranked, |ranked|);
    ThinStaysSorted(SameName, Order(q), ranked, |ranked|);
    if NamedOnce(q, SetOf(ranked), list) {
      KeptIsUnique(SameName, Order(q), ranked, SetOf(list));
      OrderIsTotal(q);
      StillSeparates(Order(q), ranked, list);
      StillSeparates(Order(q), ranked, thin);
      OneStrictList(Order(q), list, thin);
    }
  }

  lemma StillSeparates<T(!new)>(le: (T, T) -> bool, ranked: seq<T>, list: seq<T>)
    requires Separates(le, ranked) && forall x :: x in SetOf(list) ==> x in ranked
    ensures Separates(le, list)
  {
    assert forall x :: x in list ==> x in SetOf(list);
  }

  // ---- Guesses

  type Found = seq<Bm25.Ranked<(Family, Symptom)>>

  /** A guess is what the index found at its position. */
  ghost predicate IsFound(found: Found, m: Match) {
    m.position < |found| && found[m.position].key == (m.family, m.symptom) && m.hits == []
  }

  /** The top family's guesses first; within that, in the order found. */
  predicate GuessedBefore(q: Query, a: Match, b: Match) {
    if (a.family == q.top) != (b.family == q.top) then a.family == q.top else a.position <= b.position
  }

  function GuessOrder(q: Query): (Match, Match) -> bool {
    (a, b) => GuessedBefore(q, a, b)
  }

  /** In that order, everything found whose non-empty name no guess before it has. */
  ghost predicate ProperGuesses(q: Query, found: Found, list: seq<Match>) {
    && (forall i, j :: 0 <= i < j < |list| ==> list[i] != list[j] && GuessedBefore(q, list[i], list[j]))
    && (forall m :: m in list <==>
          IsFound(found, m) && !exists k :: k in list && k != m && GuessedBefore(q, k, m) && SameName(k, m))
  }

  lemma GuessOrderIsTotal(q: Query)
    ensures TotalPreorder(GuessOrder(q))
  {
  }

  /** Thinning the found matches, in their order, by name. */
  lemma ThinnedAreProper(q: Query, found: Found, ms: seq<Match>)
    requires Positioned(ms) && forall m :: m in ms <==> IsFound(found, m)
    ensures var sorted := StableSort(GuessOrder(q), ms);
      ProperGuesses(q, found, Thin(SameName, sorted, |sorted|))
  {
    var le := GuessOrder(q);
    var sorted := StableSort(le, ms);
    SortedGuesses(q, ms);
    var list := Thin(SameName, sorted, |sorted|);
    ThinFrom(SameName, sorted, |sorted|);
    ThinStaysSorted(SameName, le, sorted, |sorted|);
    forall i, j | 0 <= i < j < |list| ensures GuessedBefore(q, list[i], list[j]) {
      assert le(list[i], list[j]);
    }
    forall m ensures m in list <==>
      IsFound(found, m) && !exists k :: k in list && k != m && GuessedBefore(q, k, m) && SameName(k, m)
    {
      if m in sorted {
        KeptIff(SameName, le, sorted, m);
      }
    }
  }

  lemma SortedGuesses(q: Query, ms: seq<Match>)
    requires Positioned(ms)
    ensures Strictly(GuessOrder(q), StableSort(GuessOrder(q), ms))
    ensures forall m :: m in StableSort(GuessOrder(q), ms) <==> m in ms
  {
    GuessOrderIsTotal(q);
    forall a, b | a in ms && b in ms && GuessOrder(q)(a, b) && GuessOrder(q)(b, a) ensures a == b {
      OnePlace(ms, a, b);
    }
    forall m ensures multiset(ms)[m] <= 1 {
      OnePosition(ms, m);
    }
    SortedStrictly(GuessOrder(q), ms);
  }

  // ---- The catalog pass

  lemma {:induction false} LoweredAt(lower: string -> string, keywords: seq<string>, i: nat)
    requires i < |keywords|
    ensures Lowered(lower, keywords)[i] == lower(keywords[i])
  {
    if i < |keywords| - 1 {
      LoweredAt(lower, keywords[..|keywords| - 1], i);
    }
  }

  lemma {:induction false} FamilyMatchesAre(find: (Family, Symptom) -> seq<string>, f: Family, symptoms: seq<Symptom>,
                                            n: nat, start: nat, m: Match)
    requires n <= |symptoms|
    ensures m in FamilyMatches(find, f, symptoms, n, start) <==>
            start <= m.position < start + n && m.hits != []
            && m == Match(f, symptoms[m.position - start], find(f, symptoms[m.position - start]), m.position)
  {
    if 0 < n {
      FamilyMatchesAre(find, f, symptoms, n - 1, start, m);
    }
  }

  /** The match is that of symptom `s` of family `k`. */
  ghost predicate MatchesAt(find: (Family, Symptom) -> seq<string>, catalog: Catalog, m: Match, k: nat, s: nat) {
    && k < |catalog| && s < |catalog[k].1| && m.hits != []
    && m == Match(catalog[k].0, catalog[k].1[s], find(catalog[k].0, catalog[k].1[s]), Size(catalog, k) + s)
  }

  /** The matches are the symptoms with a supported hit, each at its place in the catalog. */
  lemma {:induction false} MatchesAre(find: (Family, Symptom) -> seq<string>, catalog: Catalog, n: nat, m: Match)
    requires n <= |catalog|
    ensures m in Matches(find, catalog, n) <==> exists k: nat, s: nat :: k < n && MatchesAt(find, catalog, m, k, s)
  {
    if 0 < n {
      var (family, symptoms) := catalog[n - 1];
      MatchesAre(find, catalog, n - 1, m);
      FamilyMatchesAre(find, family, symptoms, |symptoms|, Size(catalog, n - 1), m);
      if m in FamilyMatches(find, family, symptoms, |symptoms|, Size(catalog, n - 1)) {
        assert MatchesAt(find, catalog, m, n - 1, m.position - Size(catalog, n - 1));
      }
    }
  }
}
