/** The BM25 recall index: loops over score, hit and flag lists, and the gate they compute. */
module Bm25 {
  import opened Sorting

  const K1: real := 1.5
  const B: real := 0.75
  const RARE_DF_RATIO: real := 0.25
  const SIGNATURE_DF: nat := 2
  const SIGNATURE_LEN: nat := 6

  datatype Stem = Stem(prefix: string, terms: seq<string>)

  /** The curated word tables. */
  datatype Lexicon = Lexicon(synonyms: map<string, seq<string>>, stems: seq<Stem>, nonEvidence: set<string>)

  /** One query token together with one term it is matched through. */
  datatype Probe = Probe(source: string, term: string)

  /** The corpus as token lists; `log` is the natural logarithm. */
  datatype Corpus = Corpus(docs: seq<seq<string>>, lexicon: Lexicon, log: real -> real)

  ghost predicate LogPositive(c: Corpus) { forall x: real :: x > 1.0 ==> c.log(x) > 0.0 }

  // ----- What the index counts

  function Df(docs: seq<seq<string>>, term: string): (r: nat)
    ensures r <= |docs|
  {
    if docs == [] then 0 else Df(docs[..|docs| - 1], term) + if term in docs[|docs| - 1] then 1 else 0
  }

  lemma {:induction false} DfPositive(docs: seq<seq<string>>, term: string)
    ensures Df(docs, term) > 0 <==> exists i :: 0 <= i < |docs| && term in docs[i]
  {
    if docs != [] {
      var front := docs[..|docs| - 1];
      DfPositive(front, term);
      if i :| 0 <= i < |docs| && term in docs[i] {
        if i < |front| { assert front[i] == docs[i]; }
      }
    }
  }

  function TotalLength(docs: seq<seq<string>>): (r: nat)
    ensures (exists d :: d in docs && d != []) ==> r > 0
  {
    if docs == [] then 0
    else
      var front, last := docs[..|docs| - 1], docs[|docs| - 1];
      assert docs == front + [last];
      TotalLength(front) + |last|
  }

  function AverageLength(docs: seq<seq<string>>): (r: real)
    ensures r >= 0.0
  {
    if docs == [] then 0.0 else TotalLength(docs) as real / |docs| as real
  }

  function NormalLength(docs: seq<seq<string>>): (r: real)
    ensures r > 0.0
  {
    if AverageLength(docs) == 0.0 then 1.0 else AverageLength(docs)
  }

  // ----- What one probe contributes

  function Terms(l: Lexicon, source: string): seq<string> {
    [source] + (if source in l.synonyms then l.synonyms[source] else []) + Bridge(l.stems, source)
  }

  function Bridge(stems: seq<Stem>, source: string): seq<string> {
    if stems == [] then [] else if stems[0].prefix <= source then stems[0].terms else Bridge(stems[1..], source)
  }

  function Idf(c: Corpus, term: string): real {
    var df := Df(c.docs, term) as real;
    (c.log)(1.0 + (|c.docs| as real - df + 0.5) / (df + 0.5))
  }

  /** One term's saturated, length-normalised share of a document's score. */
  function Share(idf: real, tf: nat, length: nat, average: real): (r: real)
    requires average > 0.0
    ensures idf > 0.0 && tf > 0 ==> r > 0.0
  {
    var denom := tf as real + K1 * (1.0 - B + B * length as real / average);
    assert denom > 0.0 by { assert B * length as real / average >= 0.0; }
    var top := idf * tf as real * (K1 + 1.0);
    assert idf > 0.0 && tf > 0 ==> top > 0.0;
    assert top > 0.0 ==> top / denom > 0.0;
    top / denom
  }

  function Weight(c: Corpus, i: nat, term: string): real
    requires i < |c.docs|
  {
    Share(Idf(c, term), multiset(c.docs[i])[term], |c.docs[i]|, NormalLength(c.docs))
  }

  function Gain(c: Corpus, i: nat, term: string): real
    requires i < |c.docs|
  {
    if term in c.docs[i] then Weight(c, i, term) else 0.0
  }

  predicate Rare(c: Corpus, term: string)
    requires c.docs != []
  {
    Df(c.docs, term) as real / |c.docs| as real <= RARE_DF_RATIO
  }

  predicate Signature(c: Corpus, term: string)
    requires c.docs != []
  {
    Rare(c, term) && Df(c.docs, term) <= SIGNATURE_DF && |term| >= SIGNATURE_LEN
  }

  /** The probe hits the document with words that count as evidence. */
  predicate Evidence(c: Corpus, i: nat, p: Probe)
    requires i < |c.docs|
  {
    p.term in c.docs[i] && p.source !in c.lexicon.nonEvidence && p.term !in c.lexicon.nonEvidence
  }

  // ----- Totals over the probes tried

  function Score(c: Corpus, i: nat, probes: seq<Probe>): real
    requires i < |c.docs|
  {
    if probes == [] then 0.0
    else Score(c, i, probes[..|probes| - 1]) + Gain(c, i, probes[|probes| - 1].term)
  }

  function Hits(c: Corpus, i: nat, probes: seq<Probe>): set<string>
    requires i < |c.docs|
  {
    set p | p in probes && Evidence(c, i, p) :: p.source
  }

  predicate RareHit(c: Corpus, i: nat, probes: seq<Probe>)
    requires i < |c.docs|
  {
    exists p :: p in probes && Evidence(c, i, p) && Rare(c, p.term)
  }

  predicate SignatureHit(c: Corpus, i: nat, probes: seq<Probe>)
    requires i < |c.docs|
  {
    exists p :: p in probes && Evidence(c, i, p) && Signature(c, p.term)
  }

  function ProbesOf(l: Lexicon, sources: seq<string>): seq<Probe> {
    if sources == [] then []
    else ProbesOf(l, sources[..|sources| - 1]) + Pairs(sources[|sources| - 1], Terms(l, sources[|sources| - 1]))
  }

  function Pairs(source: string, terms: seq<string>): (r: seq<Probe>)
    ensures |r| == |terms| && forall k :: 0 <= k < |r| ==> r[k] == Probe(source, terms[k])
  {
    seq(|terms|, k requires 0 <= k < |terms| => Probe(source, terms[k]))
  }

  /** The gate in the module's own words: a signature-grade hit, or two distinct query tokens and a rare term. */
  predicate Qualifies(c: Corpus, i: nat, probes: seq<Probe>)
    requires i < |c.docs|
  {
    SignatureHit(c, i, probes) || (|Hits(c, i, probes)| >= 2 && RareHit(c, i, probes))
  }

  // ----- The code's gate is that gate

  lemma QuotientPositive(a: real, b: real)
    requires a > 0.0 && b > 0.0
    ensures a / b > 0.0
  {
  }

  lemma WeightPositive(c: Corpus, i: nat, term: string)
    requires LogPositive(c) && i < |c.docs| && term in c.docs[i]
    ensures Weight(c, i, term) > 0.0
  {
    var df := Df(c.docs, term) as real;
    QuotientPositive(|c.docs| as real - df + 0.5, df + 0.5);
    assert Idf(c, term) > 0.0;
  }

  lemma {:induction false} ScorePositive(c: Corpus, i: nat, probes: seq<Probe>)
    requires LogPositive(c) && i < |c.docs|
    ensures Score(c, i, probes) >= 0.0
    ensures (exists p :: p in probes && p.term in c.docs[i]) ==> Score(c, i, probes) > 0.0
  {
    if probes != [] {
      var front, last := probes[..|probes| - 1], probes[|probes| - 1];
      assert probes == front + [last];
      ScorePositive(c, i, front);
      if last.term in c.docs[i] { WeightPositive(c, i, last.term); }
    }
  }

  lemma CardinalityOne<T>(s: set<T>, x: T)
    requires x in s
    ensures |s| >= 1
  {
    assert s == {x} + (s - {x});
  }

  lemma GateIsQualifies(c: Corpus, i: nat, probes: seq<Probe>)
    requires LogPositive(c) && i < |c.docs|
    ensures Qualifies(c, i, probes) <==>
            Score(c, i, probes) > 0.0 &&
            ((|Hits(c, i, probes)| >= 2 && RareHit(c, i, probes))
             || (|Hits(c, i, probes)| == 1 && SignatureHit(c, i, probes)))
  {
    ScorePositive(c, i, probes);
    if SignatureHit(c, i, probes) {
      var p :| p in probes && Evidence(c, i, p) && Signature(c, p.term);
      CardinalityOne(Hits(c, i, probes), p.source);
    }
  }

  // ----- More query tokens never hurt

  lemma {:induction false} ProbeOrigin(l: Lexicon, sources: seq<string>, p: Probe)
    ensures p in ProbesOf(l, sources) <==> p.source in sources && p.term in Terms(l, p.source)
  {
    if sources != [] {
      var front, last := sources[..|sources| - 1], sources[|sources| - 1];
      assert sources == front + [last];
      ProbeOrigin(l, front, p);
      if p.source == last && p.term in Terms(l, last) {
        var k :| 0 <= k < |Terms(l, last)| && Terms(l, last)[k] == p.term;
        assert Pairs(last, Terms(l, last))[k] == p;
      }
    }
  }

  lemma SubsetCardinality<T>(a: set<T>, b: set<T>)
    requires a <= b
    ensures |a| <= |b|
  {
    assert b == a + (b - a);
  }

  lemma QualifiesMonotone(c: Corpus, i: nat, few: seq<string>, more: seq<string>)
    requires i < |c.docs| && forall s :: s in few ==> s in more
    requires Qualifies(c, i, ProbesOf(c.lexicon, few))
    ensures Qualifies(c, i, ProbesOf(c.lexicon, more))
  {
    var p1, p2 := ProbesOf(c.lexicon, few), ProbesOf(c.lexicon, more);
    forall p | p in p1 ensures p in p2 {
      ProbeOrigin(c.lexicon, few, p);
      ProbeOrigin(c.lexicon, more, p);
    }
    assert Hits(c, i, p1) <= Hits(c, i, p2);
    SubsetCardinality(Hits(c, i, p1), Hits(c, i, p2));
  }

  lemma {:induction false} ScoreAppend(c: Corpus, i: nat, a: seq<Probe>, b: seq<Probe>)
    requires i < |c.docs|
    ensures Score(c, i, a + b) == Score(c, i, a) + Score(c, i, b)
  {
    if b == [] {
      assert a + b == a;
    } else {
      assert (a + b)[..|a + b| - 1] == a + b[..|b| - 1];
      ScoreAppend(c, i, a, b[..|b| - 1]);
    }
  }

  predicate Distinct(xs: seq<string>) { forall i, j :: 0 <= i < j < |xs| ==> xs[i] != xs[j] }

  function Of(c: Corpus, i: nat, source: string): real
    requires i < |c.docs|
  {
    Score(c, i, Pairs(source, Terms(c.lexicon, source)))
  }

  function BySource(c: Corpus, i: nat, sources: seq<string>): real
    requires i < |c.docs|
  {
    if sources == [] then 0.0 else BySource(c, i, sources[..|sources| - 1]) + Of(c, i, sources[|sources| - 1])
  }

  lemma {:induction false} ScoreBySource(c: Corpus, i: nat, sources: seq<string>)
    requires i < |c.docs|
    ensures Score(c, i, ProbesOf(c.lexicon, sources)) == BySource(c, i, sources)
  {
    if sources != [] {
      var front, last := sources[..|sources| - 1], sources[|sources| - 1];
      ScoreBySource(c, i, front);
      ScoreAppend(c, i, ProbesOf(c.lexicon, front), Pairs(last, Terms(c.lexicon, last)));
    }
  }

  /** Dropping one source from a query takes exactly its share from the score. */
  lemma {:induction false} ScoreWithout(c: Corpus, i: nat, sources: seq<string>, k: nat)
    requires i < |c.docs| && k < |sources|
    ensures BySource(c, i, sources) == BySource(c, i, sources[..k] + sources[k + 1..]) + Of(c, i, sources[k])
  {
    var front, last := sources[..|sources| - 1], sources[|sources| - 1];
    var without := sources[..k] + sources[k + 1..];
    if k == |sources| - 1 {
      assert without == front;
    } else {
      var shorter := front[..k] + front[k + 1..];
      assert front[k] == sources[k];
      ScoreWithout(c, i, front, k);
      assert sources[..k] == front[..k] && sources[k + 1..] == front[k + 1..] + [last];
      assert without == shorter + [last];
      assert without[..|without| - 1] == shorter && without[|without| - 1] == last;
      assert BySource(c, i, without) == BySource(c, i, shorter) + Of(c, i, last);
    }
  }

  lemma {:induction false} ScoreMonotone(c: Corpus, i: nat, few: seq<string>, more: seq<string>)
    requires LogPositive(c) && i < |c.docs|
    requires Distinct(few) && Distinct(more) && forall s :: s in few ==> s in more
    ensures BySource(c, i, few) <= BySource(c, i, more)
    decreases |few|
  {
    if few == [] {
      ScorePositive(c, i, ProbesOf(c.lexicon, more));
      ScoreBySource(c, i, more);
    } else {
      var x := few[|few| - 1];
      var front := few[..|few| - 1];
      assert x in few;
      var k :| 0 <= k < |more| && more[k] == x;
      var rest := more[..k] + more[k + 1..];
      forall s | s in front ensures s in rest {
        assert s in few && s != x;
        var j :| 0 <= j < |more| && more[j] == s;
        assert rest[if j < k then j else j - 1] == s;
      }
      ScoreMonotone(c, i, front, rest);
      ScoreWithout(c, i, more, k);
    }
  }

  // ----- The whole answer

  datatype Ranked<K> = Ranked(key: K, score: real)

  function Better<K>(): (Ranked<K>, Ranked<K>) -> bool { (x: Ranked<K>, y: Ranked<K>) => x.score >= y.score }

  function Qualified<K>(c: Corpus, keys: seq<K>, probes: seq<Probe>, upTo: nat): seq<Ranked<K>>
    requires |keys| == |c.docs| && upTo <= |keys|
  {
    if upTo == 0 then []
    else
      Qualified(c, keys, probes, upTo - 1)
      + if Qualifies(c, upTo - 1, probes) then [Ranked(keys[upTo - 1], Score(c, upTo - 1, probes))] else []
  }

  function Take<T>(xs: seq<T>, n: nat): seq<T> { if n <= |xs| then xs[..n] else xs }

  /** Python's dict.fromkeys order: the first occurrence of each token. */
  function Dedupe(xs: seq<string>): (r: seq<string>)
    ensures Distinct(r) && forall x :: x in r <==> x in xs
  {
    if xs == [] then []
    else
      var front, last := xs[..|xs| - 1], xs[|xs| - 1];
      assert xs == front + [last];
      if last in front then Dedupe(front) else Dedupe(front) + [last]
  }

  function Answer<K>(c: Corpus, keys: seq<K>, query: seq<string>, topK: nat): seq<Ranked<K>>
    requires |keys| == |c.docs|
  {
    var probes := ProbesOf(c.lexicon, Dedupe(query));
    Take(StableSort(Better(), Qualified(c, keys, probes, |keys|)), topK)
  }

  lemma {:induction false} NoProbesNoResults<K>(c: Corpus, keys: seq<K>, upTo: nat)
    requires |keys| == |c.docs| && upTo <= |keys|
    ensures Qualified(c, keys, [], upTo) == []
  {
    if upTo > 0 { NoProbesNoResults(c, keys, upTo - 1); }
  }

  /** Every document a query finds or ranks, a longer query still qualifies, with a score no lower. */
  lemma LongerQueryKeepsDocuments(c: Corpus, i: nat, query: seq<string>, longer: seq<string>)
    requires LogPositive(c) && i < |c.docs| && forall t :: t in query ==> t in longer
    ensures var p, q := ProbesOf(c.lexicon, Dedupe(query)), ProbesOf(c.lexicon, Dedupe(longer));
            && (Qualifies(c, i, p) ==> Qualifies(c, i, q))
            && Score(c, i, p) <= Score(c, i, q)
  {
    if Qualifies(c, i, ProbesOf(c.lexicon, Dedupe(query))) { QualifiesMonotone(c, i, Dedupe(query), Dedupe(longer)); }
    ScoreMonotone(c, i, Dedupe(query), Dedupe(longer));
    ScoreBySource(c, i, Dedupe(query));
    ScoreBySource(c, i, Dedupe(longer));
  }

  lemma {:induction false} QualifiedExactly<K(!new)>(c: Corpus, keys: seq<K>, probes: seq<Probe>, upTo: nat,
                                                     r: Ranked<K>)
    requires |keys| == |c.docs| && upTo <= |keys|
    ensures r in Qualified(c, keys, probes, upTo) <==>
            exists i :: 0 <= i < upTo && Qualifies(c, i, probes) && r == Ranked(keys[i], Score(c, i, probes))
  {
    if upTo > 0 { QualifiedExactly(c, keys, probes, upTo - 1, r); }
  }

  ghost predicate IsQualified<K(!new)>(c: Corpus, keys: seq<K>, probes: seq<Probe>, r: Ranked<K>)
    requires |keys| == |c.docs|
  {
    exists i :: 0 <= i < |keys| && Qualifies(c, i, probes) && r == Ranked(keys[i], Score(c, i, probes))
  }

  /** A list cut from a best-first list: still best first, and nothing it leaves out beats what it keeps. */
  lemma TakeBest<K(!new)>(all: seq<Ranked<K>>, topK: nat)
    ensures var a := Take(StableSort(Better(), all), topK);
            && (forall r :: r in a ==> r in all)
            && (forall x, y :: 0 <= x < y < |a| ==> a[x].score >= a[y].score)
            && (forall r, x :: r in all && r !in a && 0 <= x < |a| ==> a[x].score >= r.score)
            && ((exists r :: r in all && r !in a) ==> |a| == topK)
  {
    var sorted := StableSort(Better(), all);
    var a := Take(sorted, topK);
    StableSortSorts(Better(), all);
    SameElements(Better(), all);
    assert forall x, y :: 0 <= x < y < |sorted| ==> Better<K>()(sorted[x], sorted[y]);
    assert forall w :: 0 <= w < |a| ==> a[w] == sorted[w] && sorted[w] in a;
    forall r, x | r in all && r !in a && 0 <= x < |a| ensures a[x].score >= r.score {
      var z :| 0 <= z < |sorted| && sorted[z] == r;
    }
  }

  /** The answer holds qualified documents only, best first, and leaves out none that beats one it keeps. */
  lemma AnswerIsBestFirst<K(!new)>(c: Corpus, keys: seq<K>, query: seq<string>, topK: nat)
    requires |keys| == |c.docs|
    ensures var a := Answer(c, keys, query, topK);
            var probes := ProbesOf(c.lexicon, Dedupe(query));
            && (forall r :: r in a ==> IsQualified(c, keys, probes, r))
            && (forall x, y :: 0 <= x < y < |a| ==> a[x].score >= a[y].score)
            && (forall r, x :: IsQualified(c, keys, probes, r) && r !in a && 0 <= x < |a| ==> a[x].score >= r.score)
            && ((exists r :: IsQualified(c, keys, probes, r) && r !in a) ==> |a| == topK)
  {
    var probes := ProbesOf(c.lexicon, Dedupe(query));
    var all := Qualified(c, keys, probes, |keys|);
    forall r ensures r in all <==> IsQualified(c, keys, probes, r) { QualifiedExactly(c, keys, probes, |keys|, r); }
    TakeBest(all, topK);
  }

  /** One document's entries in the four lists search updates are its totals over these probes. */
  predicate RowTallied(c: Corpus, i: nat, score: real, hits: set<string>, rare: bool, signature: bool,
                       probes: seq<Probe>)
    requires i < |c.docs|
  {
    && score == Score(c, i, probes) && hits == Hits(c, i, probes)
    && rare == RareHit(c, i, probes) && signature == SignatureHit(c, i, probes)
  }

  lemma RowGrows(c: Corpus, i: nat, probes: seq<Probe>, p: Probe)
    requires i < |c.docs|
    ensures Score(c, i, probes + [p]) == Score(c, i, probes) + Gain(c, i, p.term)
    ensures Hits(c, i, probes + [p]) == Hits(c, i, probes) + (if Evidence(c, i, p) then {p.source} else {})
    ensures RareHit(c, i, probes + [p]) == (RareHit(c, i, probes) || (Evidence(c, i, p) && Rare(c, p.term)))
    ensures SignatureHit(c, i, probes + [p])
            == (SignatureHit(c, i, probes) || (Evidence(c, i, p) && Signature(c, p.term)))
  {
    var more := probes + [p];
    assert more[..|more| - 1] == probes && more[|more| - 1] == p;
    assert forall q :: q in more <==> q in probes || q == p;
  }
}
