/** What the recall fallback finds: which documents, for which words of the alert, and what is never dropped. */
module RecallLaws {
  import Bm25
  import Bm25Laws
  import opened KeywordScan
  import opened Redaction
  import opened SymptomMatcher
  import opened SymptomRecall

  /** " ".join: a single word is itself, and two lists are joined by a blank. */
  lemma {:induction false} JoinedAppend(a: seq<string>, b: seq<string>)
    requires a != [] && b != []
    ensures Joined(a + b) == Joined(a) + " " + Joined(b)
    ensures |a| == 1 ==> Joined(a) == a[0]
  {
    if |a| == 1 {
      assert (a + b)[1..] == b;
    } else {
      assert (a + b)[1..] == a[1..] + b;
      JoinedAppend(a[1..], b);
      Regroup(a[0] + " ", Joined(a[1..]), " " + Joined(b));
    }
  }

  lemma Regroup(a: string, b: string, c: string)
    ensures a + (b + c) == (a + b) + c
  {
  }

  /** Every symptom of every family is an entry. */
  lemma {:induction false} ListedIsEntry(catalog: Catalog, n: nat, k: nat, s: nat)
    requires k < n <= |catalog| && s < |catalog[k].1|
    ensures (catalog[k].0, catalog[k].1[s]) in Entries(catalog, n)
  {
    if k == n - 1 {
      var here := FamilyEntries(catalog[k].0, catalog[k].1);
      assert here[s] == (catalog[k].0, catalog[k].1[s]) && here[s] in here;
    } else {
      ListedIsEntry(catalog, n - 1, k, s);
    }
  }

  /** The keyword is one of an entry's, in lower case. */
  ghost predicate KeywordOf(x: Matching, entries: seq<Named>, keyword: string, j: nat, i: nat) {
    j < |entries| && i < |entries[j].1.keywords| && keyword == x.lower(entries[j].1.keywords[i])
  }

  lemma {:induction false} LoweredHas(lower: string -> string, keywords: seq<string>, k: string)
    ensures k in Lowered(lower, keywords) <==> exists i :: 0 <= i < |keywords| && k == lower(keywords[i])
  {
    if keywords != [] {
      var init := keywords[..|keywords| - 1];
      LoweredHas(lower, init, k);
      assert forall i :: 0 <= i < |init| ==> init[i] == keywords[i];
    }
  }

  /** The negation rules see all keywords of all entries. */
  lemma {:induction false} KeywordsAre(x: Matching, entries: seq<Named>, keyword: string)
    ensures keyword in KeywordsOf(x, entries) <==> exists j: nat, i: nat :: KeywordOf(x, entries, keyword, j, i)
  {
    if entries != [] {
      var init, last := entries[..|entries| - 1], entries[|entries| - 1];
      KeywordsAre(x, init, keyword);
      LoweredHas(x.lower, last.1.keywords, keyword);
      if j: nat, i: nat :| KeywordOf(x, init, keyword, j, i) {
        assert KeywordOf(x, entries, keyword, j, i);
      }
      if i :| 0 <= i < |last.1.keywords| && keyword == x.lower(last.1.keywords[i]) {
        assert KeywordOf(x, entries, keyword, |entries| - 1, i);
      }
      if j: nat, i: nat :| KeywordOf(x, entries, keyword, j, i) {
        if j < |init| {
          assert KeywordOf(x, init, keyword, j, i);
        }
      }
    }
  }

  /** The index is asked with the alert's own words, but for the negated ones. */
  lemma AskedAt(x: Matching, rec: Recall, entries: seq<Named>, query: string, i: nat)
    ensures |Asked(x, rec, entries, query)| == |x.lower(query)|
    ensures i < |x.lower(query)| ==>
      var lowered := x.lower(query);
      Asked(x, rec, entries, query)[i]
        == if NegatedByAny(x.rules, lowered, KeywordsOf(x, entries), i)
              || NegatedToken(x.rules, lowered, rec.stretches(lowered), i) then ' ' else lowered[i]
  {
    var lowered := x.lower(query);
    if i < |lowered| {
      RedactedIff(x.rules, lowered, KeywordsOf(x, entries), rec.stretches(lowered), i);
    }
  }

  // ---- What is found

  /** The tokens the index is asked with. */
  function Tokens(x: Matching, rec: Recall, catalog: Catalog, query: string): seq<string> {
    rec.tokenize(Asked(x, rec, Entries(catalog, |catalog|), query))
  }

  function IndexOf(rec: Recall, catalog: Catalog): Bm25.Corpus {
    CorpusOf(rec, Entries(catalog, |catalog|))
  }

  /** A rare, long term of a symptom's name or keywords recalls it by a token of the query that stands for it. */
  lemma SignatureRecalls(x: Matching, rec: Recall, catalog: Catalog, query: string, e: Named, source: string,
                         term: string)
    requires e in Entries(catalog, |catalog|)
    requires term in rec.tokenize(e.1.name + " " + Joined(e.1.keywords))
    requires source in Tokens(x, rec, catalog, query) && term in Bm25.Terms(rec.lexicon, source)
    requires source !in rec.lexicon.nonEvidence && term !in rec.lexicon.nonEvidence
    requires Bm25.Signature(IndexOf(rec, catalog), term)
    ensures Recalled(x, rec, catalog, query, e.0, e.1)
  {
    var entries, c := Entries(catalog, |catalog|), IndexOf(rec, catalog);
    var i :| 0 <= i < |entries| && entries[i] == e;
    var p := Bm25.Probe(source, term);
    Bm25.ProbeOrigin(rec.lexicon, Bm25.Dedupe(Tokens(x, rec, catalog, query)), p);
    assert c.docs[i] == Document(rec, e) && Bm25.Evidence(c, i, p);
    assert Bm25.Qualifies(c, i, Bm25.ProbesOf(rec.lexicon, Bm25.Dedupe(Tokens(x, rec, catalog, query))));
  }

  /** What entry i would be found as. */
  function FindOf(x: Matching, rec: Recall, catalog: Catalog, query: string, i: nat): Bm25.Ranked<Named>
    requires i < |Entries(catalog, |catalog|)|
  {
    Bm25Laws.Listing(IndexOf(rec, catalog), Entries(catalog, |catalog|), i, Tokens(x, rec, catalog, query))
  }

  /** A qualified entry is guessed, or a guess has its name, or the index found three entries that score no lower. */
  lemma QualifiedIsGuessed(x: Matching, rec: Recall, catalog: Catalog, query: string, q: Query, i: nat)
    requires i < |Entries(catalog, |catalog|)|
    requires Bm25.Qualifies(IndexOf(rec, catalog), i,
                            Bm25Laws.Probes(IndexOf(rec, catalog), Tokens(x, rec, catalog, query)))
    ensures var found := Found(x, rec, Entries(catalog, |catalog|), query);
      || (exists k :: k in Guesses(q, found) && StandsFor(k, FindOf(x, rec, catalog, query, i)))
      || (|found| == 3 && forall r :: r in found ==> r.score >= FindOf(x, rec, catalog, query, i).score)
  {
    var entries := Entries(catalog, |catalog|);
    var found, r := Found(x, rec, entries, query), FindOf(x, rec, catalog, query, i);
    GuessesAreFound(q, found);
    if r !in found {
      LeftOut(IndexOf(rec, catalog), entries, Tokens(x, rec, catalog, query), i);
    }
  }

  lemma LeftOut(c: Bm25.Corpus, entries: seq<Named>, tokens: seq<string>, i: nat)
    requires i < |entries| == |c.docs| && Bm25.Qualifies(c, i, Bm25Laws.Probes(c, tokens))
    requires Bm25Laws.Listing(c, entries, i, tokens) !in Bm25.Answer(c, entries, tokens, TOP_K)
    ensures |Bm25.Answer(c, entries, tokens, TOP_K)| == TOP_K
    ensures forall r :: r in Bm25.Answer(c, entries, tokens, TOP_K) ==>
              r.score >= Bm25Laws.Listing(c, entries, i, tokens).score
  {
    Bm25.AnswerIsBestFirst(c, entries, tokens, TOP_K);
    assert Bm25.IsQualified(c, entries, Bm25Laws.Probes(c, tokens), Bm25Laws.Listing(c, entries, i, tokens));
  }
}
