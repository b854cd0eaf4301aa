/** The whole symptom matcher: exact matches, and the recall index over the redacted query when there are none. */
module SymptomRecall {
  import Bm25
  import Bm25Index
  import opened KeywordScan
  import opened Redaction
  import opened Sorting
  import opened SymptomMatcher
  import opened SymptomReport
  import opened Thinning

  /** The word tables, the logarithm, and the two token patterns: of the index, and of a query's stretches. */
  datatype Recall = Recall(lexicon: Bm25.Lexicon, log: real -> real, tokenize: string -> seq<string>,
                           stretches: string -> seq<Stretch>)
  {
    ghost predicate Sound() {
      && (forall x: real :: x > 1.0 ==> log(x) > 0.0)
      && (forall text :: InText(stretches(text), text))
    }
  }

  ghost predicate InText(tokens: seq<Stretch>, text: string) {
    forall t :: t in tokens ==> t.start < t.end <= |text|
  }

  type Named = (Family, Symptom)

  const TOP_K := 3

  // ---- The documents of the index

  function FamilyEntries(family: Family, symptoms: seq<Symptom>): seq<Named> {
    seq(|symptoms|, i requires 0 <= i < |symptoms| => (family, symptoms[i]))
  }

  /** Every symptom of the first `n` families, in catalog order. */
  function Entries(catalog: Catalog, n: nat): seq<Named>
    requires n <= |catalog|
  {
    if n == 0 then [] else Entries(catalog, n - 1) + FamilyEntries(catalog[n - 1].0, catalog[n - 1].1)
  }

  function Joined(words: seq<string>): string {
    if words == [] then "" else if |words| == 1 then words[0] else words[0] + " " + Joined(words[1..])
  }

  /** A symptom's name and keywords. */
  function Document(rec: Recall, e: Named): seq<string> {
    rec.tokenize(e.1.name + " " + Joined(e.1.keywords))
  }

  function Documents(rec: Recall, entries: seq<Named>): seq<seq<string>> {
    seq(|entries|, i requires 0 <= i < |entries| => Document(rec, entries[i]))
  }

  function CorpusOf(rec: Recall, entries: seq<Named>): Bm25.Corpus {
    Bm25.Corpus(Documents(rec, entries), rec.lexicon, rec.log)
  }

  /** The lower-cased keywords of these entries. */
  function KeywordsOf(x: Matching, entries: seq<Named>): seq<string> {
    if entries == [] then []
    else KeywordsOf(x, entries[..|entries| - 1]) + Lowered(x.lower, entries[|entries| - 1].1.keywords)
  }

  /** The alert's own text as the index sees it: lower case, negated mentions blanked. */
  function Asked(x: Matching, rec: Recall, entries: seq<Named>, query: string): string {
    var lowered := x.lower(query);
    Redacted(x.rules, lowered, KeywordsOf(x, entries), rec.stretches(lowered))
  }

  function Found(x: Matching, rec: Recall, entries: seq<Named>, query: string): seq<Bm25.Ranked<Named>> {
    Bm25.Answer(CorpusOf(rec, entries), entries, rec.tokenize(Asked(x, rec, entries, query)), TOP_K)
  }

  // ---- From what is found to what is reported

  predicate TopFirst(q: Query, a: Match, b: Match) {
    a.family == q.top || b.family != q.top
  }

  function FirstTop(q: Query): (Match, Match) -> bool {
    (a, b) => TopFirst(q, a, b)
  }

  /** What the index finds, as matches without hits. */
  function AsMatches(found: seq<Bm25.Ranked<Named>>): seq<Match> {
    seq(|found|, i requires 0 <= i < |found| => Match(found[i].key.0, found[i].key.1, [], i))
  }

  function Guesses(q: Query, found: seq<Bm25.Ranked<Named>>): seq<Match> {
    var sorted := StableSort(FirstTop(q), AsMatches(found));
    Thin(SameName, sorted, |sorted|)
  }

  datatype Answer = Exact(matches: seq<Match>) | Guessed(matches: seq<Match>)

  /** What is to be reported for the observed text and the alert's own text. */
  function Reports(x: Matching, rec: Recall, catalog: Catalog, observed: string, query: string, q: Query): Answer {
    var text := x.lower(observed);
    var ms := AllMatches(x, text, catalog);
    if text == "" || catalog == [] then Exact([])
    else if ms == [] && query != "" then Guessed(Guesses(q, Found(x, rec, Entries(catalog, |catalog|), query)))
    else Exact(Resolved(q, ms))
  }

  /**
   * The answer, told without the steps that make it: with exact matches a
   * list of them in rank order, nothing explained, every name once; without,
   * what the index found in the same manner, or nothing.
   */
  ghost predicate IsAnswer(x: Matching, rec: Recall, catalog: Catalog, observed: string, query: string, q: Query,
                           answer: Answer) {
    var ms := AllMatches(x, x.lower(observed), catalog);
    if x.lower(observed) == "" || catalog == [] || (ms == [] && query == "") then answer == Exact([])
    else if ms != [] then answer.Exact? && answer.matches != [] && ProperList(q, ms, answer.matches)
    else answer.Guessed? && ProperGuesses(q, Found(x, rec, Entries(catalog, |catalog|), query), answer.matches)
  }

  lemma ReportsIsAnswer(x: Matching, rec: Recall, catalog: Catalog, observed: string, query: string, q: Query)
    ensures IsAnswer(x, rec, catalog, observed, query, q, Reports(x, rec, catalog, observed, query, q))
  {
    var ms := AllMatches(x, x.lower(observed), catalog);
    MatchesArePositioned(SymptomMatcher.Finder(x, x.lower(observed)), catalog, |catalog|);
    if ms != [] {
      StrongIsStrict(q, ms);
      ProperIsUnique(q, ms, Resolved(q, ms));
    } else {
      GuessesAreProper(q, Found(x, rec, Entries(catalog, |catalog|), query));
      NothingResolves(q);
    }
  }

  lemma NothingResolves(q: Query)
    ensures Resolved(q, []) == []
  {
    assert Ranked(q, []) == [];
  }

  // ---- What a guess is

  /** A document of the index that passes its gate for the redacted query. */
  ghost predicate Recalled(x: Matching, rec: Recall, catalog: Catalog, query: string, family: Family,
                           symptom: Symptom) {
    var entries := Entries(catalog, |catalog|);
    var probes := Bm25.ProbesOf(rec.lexicon, Bm25.Dedupe(rec.tokenize(Asked(x, rec, entries, query))));
    exists i ::
        0 <= i < |entries| && entries[i] == (family, symptom) && Bm25.Qualifies(CorpusOf(rec, entries), i, probes)
  }

  ghost predicate Listed(catalog: Catalog, family: Family, symptom: Symptom) {
    exists k :: 0 <= k < |catalog| && catalog[k].0 == family && symptom in catalog[k].1
  }

  lemma {:induction false} EntriesAreListed(catalog: Catalog, n: nat, e: Named)
    requires n <= |catalog| && e in Entries(catalog, n)
    ensures Listed(catalog, e.0, e.1)
  {
    var here := FamilyEntries(catalog[n - 1].0, catalog[n - 1].1);
    if e in here {
      var i :| 0 <= i < |here| && here[i] == e;
      assert catalog[n - 1].1[i] == e.1;
    } else {
      EntriesAreListed(catalog, n - 1, e);
    }
  }

  lemma GuessesAreProper(q: Query, found: seq<Bm25.Ranked<Named>>)
    ensures ProperGuesses(q, found, Guesses(q, found))
  {
    var ms := AsMatches(found);
    forall m ensures m in ms <==> IsFound(found, m) {
      if IsFound(found, m) {
        assert ms[m.position] == m;
      }
    }
    SameSort(FirstTop(q), GuessOrder(q), ms);
    ThinnedAreProper(q, found, ms);
  }

  /** The guess is what was found, or has its non-empty name. */
  ghost predicate StandsFor(k: Match, r: Bm25.Ranked<Named>) {
    (k.family, k.symptom) == r.key || (r.key.1.name != "" && k.symptom.name == r.key.1.name)
  }

  /** Nothing found is dropped but for its name, and there are no more guesses than finds. */
  lemma GuessesAreFound(q: Query, found: seq<Bm25.Ranked<Named>>)
    ensures |Guesses(q, found)| <= |found|
    ensures forall m :: m in Guesses(q, found) ==> exists r :: r in found && r.key == (m.family, m.symptom)
    ensures forall r :: r in found ==> exists k :: k in Guesses(q, found) && StandsFor(k, r)
  {
    GuessesAreProper(q, found);
    forall m | m in Guesses(q, found) ensures exists r :: r in found && r.key == (m.family, m.symptom) {
      assert IsFound(found, m) && found[m.position] in found;
    }
    forall r | r in found
      ensures exists k :: k in Guesses(q, found) && StandsFor(k, r)
    {
      var i :| 0 <= i < |found| && found[i] == r;
      var m := Match(r.key.0, r.key.1, [], i);
      assert IsFound(found, m);
      if m !in Guesses(q, found) {
        var k :| k in Guesses(q, found) && k != m && GuessedBefore(q, k, m) && SameName(k, m);
      }
    }
  }

  lemma FoundIsRecalled(x: Matching, rec: Recall, catalog: Catalog, query: string, r: Bm25.Ranked<Named>)
    requires r in Found(x, rec, Entries(catalog, |catalog|), query)
    ensures Listed(catalog, r.key.0, r.key.1) && Recalled(x, rec, catalog, query, r.key.0, r.key.1)
  {
    var entries := Entries(catalog, |catalog|);
    var c, tokens := CorpusOf(rec, entries), rec.tokenize(Asked(x, rec, entries, query));
    var probes := Bm25.ProbesOf(rec.lexicon, Bm25.Dedupe(tokens));
    Bm25.AnswerIsBestFirst(c, entries, tokens, TOP_K);
    assert Bm25.IsQualified(c, entries, probes, r);
    var i :| 0 <= i < |entries| && Bm25.Qualifies(c, i, probes) && entries[i] == r.key;
    EntriesAreListed(catalog, |catalog|, entries[i]);
  }

  /** Every guess is an entry of the catalog that passes the index's gate for the redacted query; at most three. */
  lemma GuessesAreRecalled(x: Matching, rec: Recall, catalog: Catalog, query: string, q: Query)
    ensures var guesses := Guesses(q, Found(x, rec, Entries(catalog, |catalog|), query));
      && |guesses| <= 3
      && forall m :: m in guesses ==>
           Listed(catalog, m.family, m.symptom) && Recalled(x, rec, catalog, query, m.family, m.symptom)
  {
    var found := Found(x, rec, Entries(catalog, |catalog|), query);
    var guesses := Guesses(q, found);
    GuessesAreFound(q, found);
    forall m | m in guesses
      ensures Listed(catalog, m.family, m.symptom) && Recalled(x, rec, catalog, query, m.family, m.symptom)
    {
      var r :| r in found && r.key == (m.family, m.symptom);
      FoundIsRecalled(x, rec, catalog, query, r);
    }
  }

  // ---- Negated mentions never bring a guess

  /** Every character of the query that is not a blank lies in a negated keyword or in a negated token. */
  ghost predicate AllNegated(x: Matching, rec: Recall, entries: seq<Named>, lowered: string) {
    forall i :: 0 <= i < |lowered| ==>
      lowered[i] == ' ' || NegatedByAny(x.rules, lowered, KeywordsOf(x, entries), i)
      || NegatedToken(x.rules, lowered, rec.stretches(lowered), i)
  }

  predicate AllBlank(text: string) {
    forall c :: c in text ==> c == ' '
  }

  /** An alert text that says only what is not the case brings no guess. */
  lemma NegatedBringsNothing(x: Matching, rec: Recall, entries: seq<Named>, query: string)
    requires AllNegated(x, rec, entries, x.lower(query))
    requires forall text :: AllBlank(text) ==> rec.tokenize(text) == []
    ensures Found(x, rec, entries, query) == []
  {
    var lowered := x.lower(query);
    var asked := Asked(x, rec, entries, query);
    forall i | 0 <= i < |asked| ensures asked[i] == ' ' {
      RedactedIff(x.rules, lowered, KeywordsOf(x, entries), rec.stretches(lowered), i);
    }
    assert AllBlank(asked);
    assert Bm25.Dedupe([]) == [];
    Bm25.NoProbesNoResults(CorpusOf(rec, entries), entries, |entries|);
  }

  // ---- The matcher

  /** The keywords and documents of these entries. */
  ghost predicate Collected(x: Matching, rec: Recall, entries: seq<Named>, keywords: seq<string>,
                            documents: seq<(Named, seq<string>)>) {
    && keywords == KeywordsOf(x, entries)
    && |documents| == |entries|
    && forall i :: 0 <= i < |entries| ==> documents[i] == (entries[i], Document(rec, entries[i]))
  }

  method CollectOne(x: Matching, rec: Recall, ghost entries: seq<Named>, keywords: seq<string>,
                    documents: seq<(Named, seq<string>)>, e: Named)
    returns (words: seq<string>, texts: seq<(Named, seq<string>)>)
    requires Collected(x, rec, entries, keywords, documents)
    ensures Collected(x, rec, entries + [e], words, texts)
  {
    assert (entries + [e])[..|entries|] == entries;
    var lowered := LowerAll(x.lower, e.1.keywords);
    words := keywords + lowered;
    texts := documents + [(e, rec.tokenize(e.1.name + " " + Joined(e.1.keywords)))];
  }

  method Collect(x: Matching, rec: Recall, catalog: Catalog)
    returns (ghost entries: seq<Named>, keywords: seq<string>, documents: seq<(Named, seq<string>)>)
    ensures entries == Entries(catalog, |catalog|) && Collected(x, rec, entries, keywords, documents)
  {
    entries, keywords, documents := [], [], [];
    for n := 0 to |catalog|
      invariant entries == Entries(catalog, n) && Collected(x, rec, entries, keywords, documents)
    {
      ghost var here := FamilyEntries(catalog[n].0, catalog[n].1);
      for k := 0 to |catalog[n].1|
        invariant entries == Entries(catalog, n) + here[..k] && Collected(x, rec, entries, keywords, documents)
      {
        var e := (catalog[n].0, catalog[n].1[k]);
        keywords, documents := CollectOne(x, rec, entries, keywords, documents, e);
        assert here[..k + 1] == here[..k] + [e];
        entries := entries + [e];
      }
      assert here[..|here|] == here;
    }
  }

  /** Asking the index with the redacted query. */
  method Guess(x: Matching, rec: Recall, catalog: Catalog, query: string, q: Query) returns (answer: Answer)
    requires rec.Sound()
    ensures answer == Guessed(Guesses(q, Found(x, rec, Entries(catalog, |catalog|), query)))
  {
    ghost var entries;
    var keywords, documents;
    entries, keywords, documents := Collect(x, rec, catalog);
    var lowered := x.lower(query);
    var chars := RedactNegatedKeywords(x.rules, lowered, keywords, rec.stretches(lowered));
    var index := new Bm25Index.BM25Index<Named>(documents, rec.lexicon, rec.log);
    assert index.docs == Documents(rec, entries) && index.keys == entries;
    var found := index.Search(rec.tokenize(chars[..]), TOP_K);
    var named := DedupeNames(StableSort(FirstTop(q), AsMatches(found)));
    answer := Guessed(named);
  }

  /** The symptoms to report; the index is asked only when nothing matches exactly. */
  method MatchSymptoms(x: Matching, rec: Recall, catalog: Catalog, observed: string, query: string, q: Query)
    returns (answer: Answer)
    requires rec.Sound()
    ensures answer == Reports(x, rec, catalog, observed, query, q)
    ensures IsAnswer(x, rec, catalog, observed, query, q, answer)
  {
    var text := x.lower(observed);
    ReportsIsAnswer(x, rec, catalog, observed, query, q);
    if text == "" || catalog == [] {
      return Exact([]);
    }
    var matched := MatchCatalog(x, text, catalog);
    if matched == [] && query != "" {
      answer := Guess(x, rec, catalog, query, q);
      return;
    }
    StrongIsStrict(q, matched);
    var kept := KeepStrongest(q, Ranked(q, matched));
    var named := DedupeNames(kept);
    answer := Exact(named);
  }
}
