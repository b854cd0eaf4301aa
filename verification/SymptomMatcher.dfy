/** Which curated symptoms an incident's evidence matches: rank, drop what a stronger match explains, name each once. */
module SymptomMatcher {
  import opened KeywordScan
  import opened Sorting
  import NegatedSpans
  import opened Thinning

  type Family(==, !new)
  type Details(==, 0, !new)

  datatype Symptom = Symptom(name: string, keywords: seq<string>, details: Details)

  /** A catalog in its own order: families, each with its symptoms. */
  type Catalog = seq<(Family, seq<Symptom>)>

  /** str.lower, the scan rules, and the extra context in the text that some symptoms need. */
  datatype Matching = Matching(lower: string -> string, rules: Rules, supported: (Family, Symptom, string) -> bool)

  datatype Match = Match(family: Family, symptom: Symptom, hits: seq<string>, position: nat)

  /** The ranked family, and the two tables of generic hits. */
  datatype Query = Query(top: Family, genericState: set<string>, genericContext: set<string>)

  // ---- Ranking

  predicate OnlyGeneric(q: Query, hits: seq<string>) {
    hits != [] && forall h :: h in hits ==> h in q.genericState
  }

  function Longest(hits: seq<string>): (r: nat)
    ensures forall h :: h in hits ==> |h| <= r
    ensures hits != [] ==> exists h :: h in hits && |h| == r
  {
    if hits == [] then 0
    else
      var rest := Longest(hits[1..]);
      assert forall h :: h in hits <==> h == hits[0] || h in hits[1..];
      if |hits[0]| >= rest then |hits[0]| else rest
  }

  /** The sort key, as a tuple in ascending order. */
  datatype Key = Key(generic: bool, fewer: int, shorter: int, otherFamily: bool, position: nat)

  function KeyOf(m: Match, q: Query): Key {
    Key(OnlyGeneric(q, m.hits), -|m.hits|, -(Longest(m.hits) as int), m.family != q.top, m.position)
  }

  predicate KeyLeq(a: Key, b: Key) {
    if a.generic != b.generic then b.generic
    else if a.fewer != b.fewer then a.fewer < b.fewer
    else if a.shorter != b.shorter then a.shorter < b.shorter
    else if a.otherFamily != b.otherFamily then b.otherFamily
    else a.position <= b.position
  }

  predicate Ranks(q: Query, a: Match, b: Match) {
    KeyLeq(KeyOf(a, q), KeyOf(b, q))
  }

  function Order(q: Query): (Match, Match) -> bool {
    (a, b) => Ranks(q, a, b)
  }

  function Ranked(q: Query, ms: seq<Match>): seq<Match> {
    StableSort(Order(q), ms)
  }

  lemma KeysAreOrdered(a: Key, b: Key, c: Key)
    ensures KeyLeq(a, b) || KeyLeq(b, a)
    ensures KeyLeq(a, b) && KeyLeq(b, c) ==> KeyLeq(a, c)
    ensures KeyLeq(a, b) && KeyLeq(b, a) ==> a == b
  {
  }

  lemma OrderIsTotal(q: Query)
    ensures TotalPreorder(Order(q))
  {
    var le := Order(q);
    forall x, y ensures le(x, y) || le(y, x) {
      KeysAreOrdered(KeyOf(x, q), KeyOf(y, q), KeyOf(y, q));
    }
    forall x, y, z | le(x, y) && le(y, z) ensures le(x, z) {
      KeysAreOrdered(KeyOf(x, q), KeyOf(y, q), KeyOf(z, q));
    }
  }

  // ---- Dropping what a stronger match explains

  predicate Within(h: string, s: string) {
    exists i :: 0 <= i <= |s| && NegatedSpans.OccursAt(s, h, i)
  }

  /** Every hit is part of one of the stronger hits. */
  predicate SubsumedBy(hits: seq<string>, stronger: seq<string>) {
    hits != stronger && forall h :: h in hits ==> exists s :: s in stronger && Within(h, s)
  }

  predicate LoneContext(q: Query, hits: seq<string>, stronger: seq<string>) {
    |hits| == 1 && |stronger| > 1 && hits[0] in q.genericContext
  }

  predicate Explains(q: Query, stronger: Match, m: Match) {
    SubsumedBy(m.hits, stronger.hits) || LoneContext(q, m.hits, stronger.hits)
  }

  function Explaining(q: Query): (Match, Match) -> bool {
    (stronger, m) => Explains(q, stronger, m)
  }

  /** The later match adds nothing: its non-empty name is taken. */
  predicate SameName(k: Match, m: Match) {
    m.symptom.name != "" && k.symptom.name == m.symptom.name
  }

  /** The ranked matches that nothing stronger explains. */
  function Strong(q: Query, ms: seq<Match>): seq<Match> {
    Thin(Explaining(q), Ranked(q, ms), |ms|)
  }

  /** What is returned: every name once. */
  function Resolved(q: Query, ms: seq<Match>): seq<Match> {
    Thin(SameName, Strong(q, ms), |Strong(q, ms)|)
  }

  // ---- What the result holds

  /** Matches as the catalog pass produces them: one position each. */
  ghost predicate Positioned(ms: seq<Match>) {
    forall i, j :: 0 <= i < j < |ms| ==> ms[i].position != ms[j].position
  }

  lemma {:induction false} OnePosition(ms: seq<Match>, x: Match)
    requires Positioned(ms)
    ensures multiset(ms)[x] <= 1
  {
    if ms != [] {
      var init, last := ms[..|ms| - 1], ms[|ms| - 1];
      assert ms == init + [last];
      OnePosition(init, x);
      if last == x {
        assert x !in init;
        assert multiset(init)[x] == 0;
      }
    }
  }

  lemma OnePlace(ms: seq<Match>, a: Match, b: Match)
    requires Positioned(ms) && a in ms && b in ms && a.position == b.position
    ensures a == b
  {
    var i :| 0 <= i < |ms| && ms[i] == a;
    var j :| 0 <= j < |ms| && ms[j] == b;
    assert i == j;
  }

  lemma OtherPlace(ms: seq<Match>, a: Match, b: Match)
    requires Positioned(ms) && a in ms && b in ms && a != b
    ensures a.position != b.position
  {
    var i :| 0 <= i < |ms| && ms[i] == a;
    var j :| 0 <= j < |ms| && ms[j] == b;
    assert i != j;
  }

  lemma PositionsSeparate(q: Query, ms: seq<Match>)
    requires Positioned(ms)
    ensures Separates(Order(q), ms)
  {
    forall a, b | a in ms && b in ms && Order(q)(a, b) && Order(q)(b, a) ensures a == b {
      KeysAreOrdered(KeyOf(a, q), KeyOf(b, q), KeyOf(b, q));
      OnePlace(ms, a, b);
    }
  }

  lemma RankedIsStrict(q: Query, ms: seq<Match>)
    requires Positioned(ms)
    ensures var ranked := Ranked(q, ms); SortedBy(Order(q), ranked) && Separates(Order(q), ranked) && Distinct(ranked)
    ensures forall m :: m in Ranked(q, ms) <==> m in ms
  {
    OrderIsTotal(q);
    PositionsSeparate(q, ms);
    forall x ensures multiset(ms)[x] <= 1 {
      OnePosition(ms, x);
    }
    SortedStrictly(Order(q), ms);
  }

  lemma StrongIsStrict(q: Query, ms: seq<Match>)
    requires Positioned(ms)
    ensures var strong := Strong(q, ms); SortedBy(Order(q), strong) && Separates(Order(q), strong) && Distinct(strong)
    ensures forall m :: m in Strong(q, ms) ==> m in ms
    ensures ms != [] ==> Strong(q, ms) != [] && Resolved(q, ms) != []
  {
    RankedIsStrict(q, ms);
    ThinStaysSorted(Explaining(q), Order(q), Ranked(q, ms), |ms|);
    ThinFrom(Explaining(q), Ranked(q, ms), |ms|);
    ThinFrom(SameName, Strong(q, ms), |Strong(q, ms)|);
  }

  /** A match of better rank that survives the ranking stage explains it. */
  ghost predicate Overshadowed(q: Query, ms: seq<Match>, m: Match) {
    exists k :: k in Strong(q, ms) && Ranks(q, k, m) && Explains(q, k, m)
  }

  /** A returned match of better rank already carries its name. */
  ghost predicate AlreadyNamed(q: Query, ms: seq<Match>, m: Match) {
    exists k :: k in Resolved(q, ms) && k != m && Ranks(q, k, m) && SameName(k, m)
  }

  /**
   * Exactly which matches are returned: those that no surviving match of
   * better rank explains, and whose name no better returned match carries.
   */
  lemma ReturnedIff(q: Query, ms: seq<Match>, m: Match)
    requires Positioned(ms) && m in ms
    ensures m in Strong(q, ms) <==> !Overshadowed(q, ms, m)
    ensures m in Resolved(q, ms) <==> !Overshadowed(q, ms, m) && !AlreadyNamed(q, ms, m)
  {
    RankedIsStrict(q, ms);
    StrongIsStrict(q, ms);
    KeptIff(Explaining(q), Order(q), Ranked(q, ms), m);
    NotSelfExplained(q, m);
    if m in Strong(q, ms) {
      KeptIff(SameName, Order(q), Strong(q, ms), m);
    } else {
      ThinFrom(SameName, Strong(q, ms), |Strong(q, ms)|);
    }
  }

  lemma NotSelfExplained(q: Query, m: Match)
    ensures !Explains(q, m, m)
  {
  }

  /**
   * Whoever explains an omitted match is returned itself, unless the name it
   * carries is already given by a returned match of better rank.
   */
  lemma ExplainersAreRepresented(q: Query, ms: seq<Match>, k: Match)
    requires Positioned(ms) && k in Strong(q, ms)
    ensures k in Resolved(q, ms) || AlreadyNamed(q, ms, k)
  {
    StrongIsStrict(q, ms);
    ReturnedIff(q, ms, k);
  }

  /** In rank order: concrete mechanisms before generic states, and each non-empty name once. */
  lemma ReturnedInOrder(q: Query, ms: seq<Match>, i: nat, j: nat)
    requires Positioned(ms) && i < j < |Resolved(q, ms)|
    ensures var r := Resolved(q, ms);
      && Ranks(q, r[i], r[j])
      && (OnlyGeneric(q, r[i].hits) ==> OnlyGeneric(q, r[j].hits))
      && (r[j].symptom.name != "" ==> r[i].symptom.name != r[j].symptom.name)
  {
    StrongIsStrict(q, ms);
    var strong := Strong(q, ms);
    ThinStaysSorted(SameName, Order(q), strong, |strong|);
    NothingBlocked(SameName, strong, |strong|);
    assert Order(q)(Resolved(q, ms)[i], Resolved(q, ms)[j]);
  }

  // ---- The catalog pass

  function Lowered(lower: string -> string, keywords: seq<string>): (r: seq<string>)
    ensures |r| == |keywords|
  {
    if keywords == [] then [] else Lowered(lower, keywords[..|keywords| - 1]) + [lower(keywords[|keywords| - 1])]
  }

  /** The hits of a symptom, none if its context is missing. */
  function Finder(x: Matching, text: string): (Family, Symptom) -> seq<string> {
    (family, symptom) =>
      if x.supported(family, symptom, text) then HitList(x.rules, text, Lowered(x.lower, symptom.keywords)) else []
  }

  /** The matches among the first `n` symptoms of a family whose first symptom has position `start`. */
  function FamilyMatches(find: (Family, Symptom) -> seq<string>, family: Family, symptoms: seq<Symptom>, n: nat,
                         start: nat): seq<Match>
    requires n <= |symptoms|
  {
    if n == 0 then []
    else
      var before, symptom := FamilyMatches(find, family, symptoms, n - 1, start), symptoms[n - 1];
      var hits := find(family, symptom);
      before + if hits != [] then [Match(family, symptom, hits, start + n - 1)] else []
  }

  function Size(catalog: Catalog, n: nat): nat
    requires n <= |catalog|
  {
    if n == 0 then 0 else Size(catalog, n - 1) + |catalog[n - 1].1|
  }

  /** All symptoms of the first `n` families with a supported hit, in catalog order. */
  function Matches(find: (Family, Symptom) -> seq<string>, catalog: Catalog, n: nat): seq<Match>
    requires n <= |catalog|
  {
    if n == 0 then []
    else
      var (family, symptoms) := catalog[n - 1];
      Matches(find, catalog, n - 1) + FamilyMatches(find, family, symptoms, |symptoms|, Size(catalog, n - 1))
  }

  function AllMatches(x: Matching, text: string, catalog: Catalog): seq<Match> {
    Matches(Finder(x, text), catalog, |catalog|)
  }

  ghost predicate Between(ms: seq<Match>, from: int, to: int) {
    forall m :: m in ms ==> from <= m.position < to
  }

  lemma {:induction false} FamilyPositions(find: (Family, Symptom) -> seq<string>, family: Family,
                                           symptoms: seq<Symptom>, n: nat, start: nat)
    requires n <= |symptoms|
    ensures Positioned(FamilyMatches(find, family, symptoms, n, start))
    ensures Between(FamilyMatches(find, family, symptoms, n, start), start, start + n)
  {
    if 0 < n {
      FamilyPositions(find, family, symptoms, n - 1, start);
      var hits := find(family, symptoms[n - 1]);
      if hits != [] {
        PositionedTogether(FamilyMatches(find, family, symptoms, n - 1, start),
                           [Match(family, symptoms[n - 1], hits, start + n - 1)],
                           start, start + n - 1, start + n);
      }
    }
  }

  lemma {:induction false} MatchesArePositioned(find: (Family, Symptom) -> seq<string>, catalog: Catalog, n: nat)
    requires n <= |catalog|
    ensures Positioned(Matches(find, catalog, n)) && Between(Matches(find, catalog, n), 0, Size(catalog, n))
  {
    if 0 < n {
      MatchesArePositioned(find, catalog, n - 1);
      var symptoms, start := catalog[n - 1].1, Size(catalog, n - 1);
      FamilyPositions(find, catalog[n - 1].0, symptoms, |symptoms|, start);
      PositionedTogether(Matches(find, catalog, n - 1),
                         FamilyMatches(find, catalog[n - 1].0, symptoms, |symptoms|, start),
                         0, start, start + |symptoms|);
    }
  }

  lemma PositionedTogether(xs: seq<Match>, ys: seq<Match>, from: int, middle: int, to: int)
    requires Positioned(xs) && Positioned(ys) && Between(xs, from, middle) && Between(ys, middle, to)
    requires from <= middle <= to
    ensures Positioned(xs + ys) && Between(xs + ys, from, to)
  {
    var all := xs + ys;
    forall i, j | 0 <= i < j < |all| ensures all[i].position != all[j].position {
      if i < |xs| <= j {
        assert xs[i] in xs && ys[j - |xs|] in ys;
      }
    }
  }

  method LowerAll(lower: string -> string, keywords: seq<string>) returns (r: seq<string>)
    ensures r == Lowered(lower, keywords)
  {
    r := [];
    for i := 0 to |keywords|
      invariant r == Lowered(lower, keywords[..i])
    {
      assert keywords[..i + 1][..i] == keywords[..i];
      r := r + [lower(keywords[i])];
    }
    assert keywords[..|keywords|] == keywords;
  }

  method Find(x: Matching, text: string, family: Family, symptom: Symptom) returns (hits: seq<string>)
    ensures hits == Finder(x, text)(family, symptom)
  {
    var keywords := LowerAll(x.lower, symptom.keywords);
    var negated;
    hits, negated := KeywordHits(x.rules, text, keywords);
    if !x.supported(family, symptom, text) {
      hits := [];
    }
  }

  /** FamilyMatches takes one more symptom. */
  lemma OneMoreSymptom(find: (Family, Symptom) -> seq<string>, family: Family, symptoms: seq<Symptom>, n: nat,
                       start: nat, hits: seq<string>)
    requires n < |symptoms| && hits == find(family, symptoms[n])
    ensures FamilyMatches(find, family, symptoms, n + 1, start) == FamilyMatches(find, family, symptoms, n, start)
         + if hits != [] then [Match(family, symptoms[n], hits, start + n)] else []
  {
  }

  method MatchFamily(x: Matching, text: string, family: Family, symptoms: seq<Symptom>, start: nat)
      returns (matched: seq<Match>)
    ensures matched == FamilyMatches(Finder(x, text), family, symptoms, |symptoms|, start)
  {
    matched := [];
    for n := 0 to |symptoms|
      invariant matched == FamilyMatches(Finder(x, text), family, symptoms, n, start)
    {
      var hits := Find(x, text, family, symptoms[n]);
      OneMoreSymptom(Finder(x, text), family, symptoms, n, start, hits);
      if hits != [] {
        matched := matched + [Match(family, symptoms[n], hits, start + n)];
      }
    }
  }

  method MatchCatalog(x: Matching, text: string, catalog: Catalog) returns (matched: seq<Match>)
    ensures matched == AllMatches(x, text, catalog) && Positioned(matched)
  {
    matched := [];
    var position := 0;
    for n := 0 to |catalog|
      invariant matched == Matches(Finder(x, text), catalog, n) && position == Size(catalog, n)
    {
      var more := MatchFamily(x, text, catalog[n].0, catalog[n].1, position);
      matched := matched + more;
      position := position + |catalog[n].1|;
    }
    MatchesArePositioned(Finder(x, text), catalog, |catalog|);
  }

  // ---- The matcher

  method KeepStrongest(q: Query, ranked: seq<Match>) returns (kept: seq<Match>)
    ensures kept == Thin(Explaining(q), ranked, |ranked|)
  {
    kept := [];
    for n := 0 to |ranked|
      invariant kept == Thin(Explaining(q), ranked, n)
    {
      if !Blocked(Explaining(q), kept, ranked[n]) {
        kept := kept + [ranked[n]];
      }
    }
  }

  /** The names already seen are those of the kept matches. */
  ghost predicate Seen(seen: set<string>, kept: seq<Match>) {
    forall name :: name in seen <==> exists k :: k in kept && k.symptom.name == name
  }

  method DedupeNames(ms: seq<Match>) returns (kept: seq<Match>)
    ensures kept == Thin(SameName, ms, |ms|)
  {
    kept := [];
    var seen: set<string> := {};
    for n := 0 to |ms|
      invariant kept == Thin(SameName, ms, n) && Seen(seen, kept)
    {
      var name := ms[n].symptom.name;
      assert Blocked(SameName, kept, ms[n]) <==> name != "" && name in seen;
      if !(name != "" && name in seen) {
        seen := seen + {name};
        kept := kept + [ms[n]];
      }
    }
  }
}
