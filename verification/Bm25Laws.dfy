/** What a recall score means: how it answers to occurrences, lengths, rarity and synonyms, up to the ranking. */
module Bm25Laws {
  import opened Bm25

  // ----- Quotients

  lemma LessQuotient(a: real, b: real, c: real, d: real)
    requires b > 0.0 && d > 0.0 && a * d < c * b
    ensures a / b < c / d
  {
    assert a / b == (a * d) / (b * d);
    assert c / d == (c * b) / (b * d);
    Divides(a * d, c * b, b * d);
  }

  lemma Divides(x: real, y: real, z: real)
    requires z > 0.0 && x < y
    ensures x / z < y / z
  {
    assert (y - x) / z > 0.0;
    assert y / z - x / z == (y - x) / z;
  }

  lemma Times(a: real, b: real, c: real)
    requires a < b && c > 0.0
    ensures a * c < b * c
  {
  }

  lemma Cancels(a: real, b: real)
    requires b > 0.0
    ensures a * b / b == a
  {
  }

  // ----- One term's share

  /** What stands beside the number of occurrences in the denominator. */
  function Damping(length: nat, average: real): (d: real)
    requires average > 0.0
    ensures d > 0.0
  {
    assert B * length as real / average >= 0.0;
    K1 * (1.0 - B + B * length as real / average)
  }

  lemma ShareIs(idf: real, tf: nat, length: nat, average: real)
    requires average > 0.0
    ensures Share(idf, tf, length, average)
            == idf * (tf as real) * (K1 + 1.0) / (tf as real + Damping(length, average))
  {
  }

  lemma FractionRises(m: real, n: real, d: real)
    requires d > 0.0 && 0.0 <= m < n
    ensures m / (m + d) < n / (n + d) < 1.0
  {
    Times(m, n, d);
    assert m * (n + d) == m * n + m * d && n * (m + d) == m * n + n * d;
    LessQuotient(m, m + d, n, n + d);
    LessQuotient(n, n + d, 1.0, 1.0);
  }

  lemma Swap(w: real, m: real, s: real)
    requires s > 0.0
    ensures w * m / s == (m / s) * w
  {
  }

  lemma SaturationRises(w: real, m: real, n: real, d: real)
    requires w > 0.0 && d > 0.0 && 0.0 <= m < n
    ensures w * m / (m + d) < w * n / (n + d) < w
  {
    FractionRises(m, n, d);
    Times(m / (m + d), n / (n + d), w);
    Times(n / (n + d), 1.0, w);
    Swap(w, m, m + d);
    Swap(w, n, n + d);
  }

  /** The share as a saturating curve in the number of occurrences. */
  lemma ShareSaturates(idf: real, tf: nat, length: nat, average: real)
    requires average > 0.0
    ensures var t := tf as real;
      Share(idf, tf, length, average) == (idf * (K1 + 1.0)) * t / (t + Damping(length, average))
  {
    ShareIs(idf, tf, length, average);
    assert idf * (tf as real) * (K1 + 1.0) == (idf * (K1 + 1.0)) * (tf as real);
  }

  /** More occurrences, a larger share. */
  lemma ShareRises(idf: real, few: nat, many: nat, length: nat, average: real)
    requires idf > 0.0 && average > 0.0 && few < many
    ensures Share(idf, few, length, average) < Share(idf, many, length, average)
  {
    ShareSaturates(idf, few, length, average);
    ShareSaturates(idf, many, length, average);
    SaturationRises(idf * (K1 + 1.0), few as real, many as real, Damping(length, average));
  }

  lemma DampingRises(short: nat, long: nat, average: real)
    requires average > 0.0 && short < long
    ensures Damping(short, average) < Damping(long, average)
  {
    Times(short as real, long as real, B);
    Divides(B * short as real, B * long as real, average);
  }

  /** In a longer document the same occurrences are worth less. */
  lemma ShareFallsWithLength(idf: real, tf: nat, short: nat, long: nat, average: real)
    requires idf > 0.0 && average > 0.0 && 0 < tf && short < long
    ensures Share(idf, tf, long, average) < Share(idf, tf, short, average)
  {
    DampingRises(short, long, average);
    ShareIs(idf, tf, short, average);
    ShareIs(idf, tf, long, average);
    var t, w := tf as real, idf * (tf as real) * (K1 + 1.0);
    assert idf * t > 0.0 && w > 0.0;
    var a, b := t + Damping(short, average), t + Damping(long, average);
    Times(a, b, w);
    LessQuotient(w, b, w, a);
  }

  /** A rarer term is worth more. */
  lemma ShareRisesWithIdf(low: real, high: real, tf: nat, length: nat, average: real)
    requires low < high && average > 0.0 && 0 < tf
    ensures Share(low, tf, length, average) < Share(high, tf, length, average)
  {
    ShareIs(low, tf, length, average);
    ShareIs(high, tf, length, average);
    var w := (tf as real) * (K1 + 1.0);
    assert w > 0.0;
    Times(low, high, w);
    assert low * (tf as real) * (K1 + 1.0) == low * w && high * (tf as real) * (K1 + 1.0) == high * w;
    Divides(low * w, high * w, tf as real + Damping(length, average));
  }

  /** One occurrence in a document of average length is worth the term's weight. */
  lemma ShareAtAverage(idf: real, length: nat)
    requires 0 < length
    ensures Share(idf, 1, length, length as real) == idf
  {
    ShareIs(idf, 1, length, length as real);
    Cancels(B, length as real);
    Cancels(idf, K1 + 1.0);
  }

  /** However often a term occurs, it is worth less than two and a half times its weight. */
  lemma ShareIsBounded(idf: real, tf: nat, length: nat, average: real)
    requires average > 0.0 && idf > 0.0
    ensures Share(idf, tf, length, average) < 2.5 * idf
  {
    ShareSaturates(idf, tf, length, average);
    SaturationRises(idf * (K1 + 1.0), tf as real, tf as real + 1.0, Damping(length, average));
  }

  // ----- Rarity

  ghost predicate Increasing(log: real -> real) {
    forall x, y :: 0.0 < x < y ==> log(x) < log(y)
  }

  function DocsWith(docs: seq<seq<string>>, term: string): set<nat> {
    set i: nat | i < |docs| && term in docs[i]
  }

  /** The number of documents with a term. */
  lemma {:induction false} DfCounts(docs: seq<seq<string>>, term: string)
    ensures Df(docs, term) == |DocsWith(docs, term)|
  {
    if docs != [] {
      var n := |docs| - 1;
      DfCounts(docs[..n], term);
      assert DocsWith(docs, term) == DocsWith(docs[..n], term) + if term in docs[n] then {n} else {};
    }
  }

  /** The quotient under the logarithm falls as more documents hold the term. */
  lemma QuotientFalls(n: real, few: real, many: real)
    requires 0.0 <= few < many <= n
    ensures 0.0 < (n - many + 0.5) / (many + 0.5) < (n - few + 0.5) / (few + 0.5)
  {
    var a, b, x, y := n - few + 0.5, n - many + 0.5, few + 0.5, many + 0.5;
    Times(b, a, x);
    Times(x, y, a);
    LessQuotient(b, y, a, x);
    QuotientPositive(b, y);
  }

  /** A term in fewer documents has the larger weight. */
  lemma IdfFalls(c: Corpus, rare: string, common: string)
    requires Increasing(c.log) && Df(c.docs, rare) < Df(c.docs, common)
    ensures Idf(c, rare) > Idf(c, common)
  {
    QuotientFalls(|c.docs| as real, Df(c.docs, rare) as real, Df(c.docs, common) as real);
  }

  // ----- Which terms a query token is matched through

  predicate FirstStem(stems: seq<Stem>, source: string, k: nat)
    requires k < |stems|
  {
    stems[k].prefix <= source && forall j :: 0 <= j < k ==> !(stems[j].prefix <= source)
  }

  lemma {:induction false} BridgeOf(stems: seq<Stem>, source: string, k: nat)
    requires k < |stems| && FirstStem(stems, source, k)
    ensures Bridge(stems, source) == stems[k].terms
  {
    if 0 < k {
      assert forall j :: 0 <= j < k - 1 ==> stems[1..][j] == stems[j + 1];
      BridgeOf(stems[1..], source, k - 1);
    }
  }

  lemma {:induction false} NoBridge(stems: seq<Stem>, source: string)
    requires forall k :: 0 <= k < |stems| ==> !(stems[k].prefix <= source)
    ensures Bridge(stems, source) == []
  {
    if stems != [] {
      NoBridge(stems[1..], source);
    }
  }

  /** A token is matched through itself, its synonyms, and the terms of the first stem it begins with. */
  lemma TermsIff(l: Lexicon, source: string, term: string)
    ensures forall k :: 0 <= k < |l.stems| && FirstStem(l.stems, source, k) ==>
      (term in Terms(l, source) <==>
        term == source || (source in l.synonyms && term in l.synonyms[source]) || term in l.stems[k].terms)
    ensures (forall k :: 0 <= k < |l.stems| ==> !(l.stems[k].prefix <= source)) ==>
      (term in Terms(l, source) <==> term == source || (source in l.synonyms && term in l.synonyms[source]))
  {
    forall k | 0 <= k < |l.stems| && FirstStem(l.stems, source, k) ensures Bridge(l.stems, source) == l.stems[k].terms {
      BridgeOf(l.stems, source, k);
    }
    if forall k :: 0 <= k < |l.stems| ==> !(l.stems[k].prefix <= source) {
      NoBridge(l.stems, source);
    }
  }

  /** The probes of a query. */
  function Probes(c: Corpus, query: seq<string>): seq<Probe> {
    ProbesOf(c.lexicon, Dedupe(query))
  }

  /** A document that carries a term of a query token scores for it, and is hit by it unless one is no evidence. */
  lemma TermScores(c: Corpus, i: nat, query: seq<string>, source: string, term: string)
    requires LogPositive(c) && i < |c.docs| && source in query && term in Terms(c.lexicon, source) && term in c.docs[i]
    ensures Score(c, i, Probes(c, query)) > 0.0
    ensures source !in c.lexicon.nonEvidence && term !in c.lexicon.nonEvidence ==>
              source in Hits(c, i, Probes(c, query))
  {
    var p := Probe(source, term);
    ProbeOrigin(c.lexicon, Dedupe(query), p);
    assert p in Probes(c, query) && p.term in c.docs[i];
    ScorePositive(c, i, Probes(c, query));
  }

  // ----- The gate

  /** The document shows a query token through one of its terms, and both count as evidence. */
  ghost predicate Shows(c: Corpus, i: nat, query: seq<string>, source: string, term: string)
    requires i < |c.docs|
  {
    && source in query && term in Terms(c.lexicon, source) && term in c.docs[i]
    && source !in c.lexicon.nonEvidence && term !in c.lexicon.nonEvidence
  }

  /** In a quarter of the documents at most. */
  ghost predicate Scarce(c: Corpus, term: string) {
    4 * |DocsWith(c.docs, term)| <= |c.docs|
  }

  ghost predicate ShowsScarce(c: Corpus, i: nat, query: seq<string>)
    requires i < |c.docs|
  {
    exists s, t :: Shows(c, i, query, s, t) && Scarce(c, t)
  }

  /** In at most two documents, and six letters long. */
  ghost predicate ShowsSignature(c: Corpus, i: nat, query: seq<string>)
    requires i < |c.docs|
  {
    exists s, t :: Shows(c, i, query, s, t) && Scarce(c, t) && |DocsWith(c.docs, t)| <= 2 && 6 <= |t|
  }

  ghost predicate Shown(c: Corpus, i: nat, query: seq<string>, source: string)
    requires i < |c.docs|
  {
    exists t :: Shows(c, i, query, source, t)
  }

  lemma AtMostAQuarter(part: real, whole: real)
    requires whole > 0.0
    ensures part / whole <= 0.25 <==> 4.0 * part <= whole
  {
    if part / whole <= 0.25 {
      assert part / whole * whole <= 0.25 * whole;
    } else {
      assert part / whole * whole > 0.25 * whole;
    }
  }

  lemma RareIsScarce(c: Corpus, term: string)
    requires c.docs != []
    ensures Rare(c, term) <==> Scarce(c, term)
    ensures Signature(c, term) <==> Scarce(c, term) && |DocsWith(c.docs, term)| <= 2 && 6 <= |term|
  {
    DfCounts(c.docs, term);
    AtMostAQuarter(Df(c.docs, term) as real, |c.docs| as real);
  }

  lemma EvidenceIs(c: Corpus, i: nat, query: seq<string>, p: Probe)
    requires i < |c.docs|
    ensures p in Probes(c, query) && Evidence(c, i, p) <==> Shows(c, i, query, p.source, p.term)
  {
    ProbeOrigin(c.lexicon, Dedupe(query), p);
  }

  lemma TwoOf<T>(s: set<T>)
    ensures |s| >= 2 <==> exists x, y :: x in s && y in s && x != y
  {
    if x, y :| x in s && y in s && x != y {
      SubsetCardinality({x, y}, s);
    }
    if |s| >= 2 {
      var x :| x in s;
      assert |s - {x}| == |s| - 1;
      var y :| y in s - {x};
    }
  }

  lemma HitsAre(c: Corpus, i: nat, query: seq<string>, source: string)
    requires i < |c.docs|
    ensures source in Hits(c, i, Probes(c, query)) <==> Shown(c, i, query, source)
  {
    if source in Hits(c, i, Probes(c, query)) {
      var p :| p in Probes(c, query) && Evidence(c, i, p) && p.source == source;
      EvidenceIs(c, i, query, p);
    }
    if t :| Shows(c, i, query, source, t) {
      EvidenceIs(c, i, query, Probe(source, t));
    }
  }

  lemma RareHitIs(c: Corpus, i: nat, query: seq<string>)
    requires i < |c.docs|
    ensures RareHit(c, i, Probes(c, query)) <==> ShowsScarce(c, i, query)
    ensures SignatureHit(c, i, Probes(c, query)) <==> ShowsSignature(c, i, query)
  {
    forall p ensures p in Probes(c, query) && Evidence(c, i, p) <==> Shows(c, i, query, p.source, p.term) {
      EvidenceIs(c, i, query, p);
    }
    forall t ensures Rare(c, t) <==> Scarce(c, t) { RareIsScarce(c, t); }
    forall t ensures Signature(c, t) <==> Scarce(c, t) && |DocsWith(c.docs, t)| <= 2 && 6 <= |t| {
      RareIsScarce(c, t);
    }
    forall s, t | Shows(c, i, query, s, t) ensures Probe(s, t) in Probes(c, query) && Evidence(c, i, Probe(s, t)) {
      EvidenceIs(c, i, query, Probe(s, t));
    }
  }

  /** A rare, long term shown is enough; otherwise a rare one together with two query tokens shown. */
  lemma QualifiesIff(c: Corpus, i: nat, query: seq<string>)
    requires i < |c.docs|
    ensures Qualifies(c, i, Probes(c, query)) <==>
      || ShowsSignature(c, i, query)
      || (ShowsScarce(c, i, query) && exists s, s' :: s != s' && Shown(c, i, query, s) && Shown(c, i, query, s'))
  {
    RareHitIs(c, i, query);
    TwoOf(Hits(c, i, Probes(c, query)));
    forall s ensures s in Hits(c, i, Probes(c, query)) <==> Shown(c, i, query, s) {
      HitsAre(c, i, query, s);
    }
  }

  // ----- The average

  function Concat(docs: seq<seq<string>>): seq<string> {
    if docs == [] then [] else Concat(docs[..|docs| - 1]) + docs[|docs| - 1]
  }

  /** The average times the number of documents is the number of tokens in all of them. */
  lemma {:induction false} AverageIs(docs: seq<seq<string>>)
    ensures TotalLength(docs) == |Concat(docs)|
    ensures AverageLength(docs) * |docs| as real == |Concat(docs)| as real
  {
    if docs != [] {
      AverageIs(docs[..|docs| - 1]);
      assert AverageLength(docs) == TotalLength(docs) as real / |docs| as real;
    }
  }

  // ----- The ranking

  /** Of two documents as long as each other, the first has more of one term and as much of every other probed one. */
  ghost predicate MoreOf(c: Corpus, i: nat, j: nat, probes: seq<Probe>, term: string)
    requires i < |c.docs| && j < |c.docs|
  {
    && |c.docs[i]| == |c.docs[j]| && multiset(c.docs[j])[term] < multiset(c.docs[i])[term]
    && forall p :: p in probes && p.term != term ==> multiset(c.docs[i])[p.term] == multiset(c.docs[j])[p.term]
  }

  lemma InDoc(c: Corpus, i: nat, term: string)
    requires i < |c.docs|
    ensures term in c.docs[i] <==> multiset(c.docs[i])[term] > 0
  {
  }

  lemma GainCompares(c: Corpus, i: nat, j: nat, probes: seq<Probe>, term: string, p: Probe)
    requires LogPositive(c) && i < |c.docs| && j < |c.docs| && MoreOf(c, i, j, probes, term) && p in probes
    ensures p.term == term ==> Gain(c, j, p.term) < Gain(c, i, p.term)
    ensures p.term != term ==> Gain(c, j, p.term) == Gain(c, i, p.term)
    ensures Evidence(c, j, p) ==> Evidence(c, i, p)
  {
    InDoc(c, i, p.term);
    InDoc(c, j, p.term);
    if p.term == term {
      WeightPositive(c, i, term);
      if term in c.docs[j] {
        var df := Df(c.docs, term) as real;
        QuotientPositive(|c.docs| as real - df + 0.5, df + 0.5);
        ShareRises(Idf(c, term), multiset(c.docs[j])[term], multiset(c.docs[i])[term], |c.docs[i]|,
                   NormalLength(c.docs));
      }
    }
  }

  lemma {:induction false} ScoreCompares(c: Corpus, i: nat, j: nat, probes: seq<Probe>, term: string, n: nat)
    requires LogPositive(c) && i < |c.docs| && j < |c.docs| && MoreOf(c, i, j, probes, term) && n <= |probes|
    ensures Score(c, j, probes[..n]) <= Score(c, i, probes[..n])
    ensures (exists k :: 0 <= k < n && probes[k].term == term) ==> Score(c, j, probes[..n]) < Score(c, i, probes[..n])
  {
    if 0 < n {
      ScoreCompares(c, i, j, probes, term, n - 1);
      GainCompares(c, i, j, probes, term, probes[n - 1]);
      OneMoreProbe(c, i, probes, n);
      OneMoreProbe(c, j, probes, n);
    }
  }

  lemma OneMoreProbe(c: Corpus, i: nat, probes: seq<Probe>, n: nat)
    requires i < |c.docs| && 0 < n <= |probes|
    ensures Score(c, i, probes[..n]) == Score(c, i, probes[..n - 1]) + Gain(c, i, probes[n - 1].term)
  {
    assert probes[..n][..n - 1] == probes[..n - 1];
  }

  lemma MoreQualifies(c: Corpus, i: nat, j: nat, probes: seq<Probe>, term: string)
    requires LogPositive(c) && i < |c.docs| && j < |c.docs| && MoreOf(c, i, j, probes, term)
    requires Qualifies(c, j, probes)
    ensures Qualifies(c, i, probes)
  {
    forall p | p in probes && Evidence(c, j, p) ensures Evidence(c, i, p) {
      GainCompares(c, i, j, probes, term, p);
    }
    assert Hits(c, j, probes) <= Hits(c, i, probes);
    SubsetCardinality(Hits(c, j, probes), Hits(c, i, probes));
  }

  /** What a document would be listed as. */
  function Listing<K>(c: Corpus, keys: seq<K>, i: nat, query: seq<string>): Ranked<K>
    requires i < |keys| == |c.docs|
  {
    Ranked(keys[i], Score(c, i, Probes(c, query)))
  }

  /** A qualified document that beats a listed one is listed before it. */
  lemma BetterIsBefore<K(!new)>(c: Corpus, keys: seq<K>, query: seq<string>, topK: nat, r: Ranked<K>, y: nat)
    requires |keys| == |c.docs| && IsQualified(c, keys, Probes(c, query), r)
    requires y < |Answer(c, keys, query, topK)| && Answer(c, keys, query, topK)[y].score < r.score
    ensures exists x :: 0 <= x < y && Answer(c, keys, query, topK)[x] == r
  {
    AnswerIsBestFirst(c, keys, query, topK);
    BeforeInSorted(Answer(c, keys, query, topK), r, y);
  }

  lemma BeforeInSorted<K>(a: seq<Ranked<K>>, r: Ranked<K>, y: nat)
    requires forall x, z :: 0 <= x < z < |a| ==> a[x].score >= a[z].score
    requires r in a && y < |a| && a[y].score < r.score
    ensures exists x :: 0 <= x < y && a[x] == r
  {
    var x :| 0 <= x < |a| && a[x] == r;
    assert x < y;
  }

  // ----- How many are listed

  function Below(n: nat, ok: nat -> bool): set<nat> {
    set i: nat | i < n && ok(i)
  }

  lemma BelowNext(n: nat, ok: nat -> bool)
    ensures |Below(n + 1, ok)| == |Below(n, ok)| + if ok(n) then 1 else 0
  {
    if ok(n) {
      assert Below(n + 1, ok) == Below(n, ok) + {n};
    } else {
      assert Below(n + 1, ok) == Below(n, ok);
    }
  }

  function Passing(c: Corpus, probes: seq<Probe>): nat -> bool {
    (i: nat) => i < |c.docs| && Qualifies(c, i, probes)
  }

  /** The documents that pass the gate. */
  function QualifiedDocs(c: Corpus, probes: seq<Probe>): set<nat> {
    Below(|c.docs|, Passing(c, probes))
  }

  lemma {:induction false} QualifiedCount<K>(c: Corpus, keys: seq<K>, probes: seq<Probe>, n: nat)
    requires |keys| == |c.docs| && n <= |keys|
    ensures |Qualified(c, keys, probes, n)| == |Below(n, Passing(c, probes))|
  {
    if 0 < n {
      QualifiedCount(c, keys, probes, n - 1);
      BelowNext(n - 1, Passing(c, probes));
    } else {
      assert Below(0, Passing(c, probes)) == {};
    }
  }

  /** The answer lists every qualified document once, or as many as the limit allows. */
  lemma AnswerSize<K>(c: Corpus, keys: seq<K>, query: seq<string>, topK: nat)
    requires |keys| == |c.docs|
    ensures var all := |QualifiedDocs(c, Probes(c, query))|;
      |Answer(c, keys, query, topK)| == if topK <= all then topK else all
  {
    QualifiedCount(c, keys, Probes(c, query), |keys|);
  }

  lemma MoreScores(c: Corpus, i: nat, j: nat, probes: seq<Probe>, term: string)
    requires LogPositive(c) && i < |c.docs| && j < |c.docs| && MoreOf(c, i, j, probes, term)
    requires exists p :: p in probes && p.term == term
    ensures Score(c, j, probes) < Score(c, i, probes)
  {
    var p :| p in probes && p.term == term;
    var k :| 0 <= k < |probes| && probes[k] == p;
    ScoreCompares(c, i, j, probes, term, |probes|);
    assert probes[..|probes|] == probes;
  }

  /** The document with more occurrences of a probed term comes first, at any limit. */
  lemma MoreRanksHigher<K(!new)>(c: Corpus, keys: seq<K>, query: seq<string>, topK: nat, i: nat, j: nat, term: string,
                                 y: nat)
    requires LogPositive(c) && i < |keys| == |c.docs| && j < |keys|
    requires MoreOf(c, i, j, Probes(c, query), term) && exists p :: p in Probes(c, query) && p.term == term
    requires Qualifies(c, j, Probes(c, query))
    requires y < |Answer(c, keys, query, topK)| && Answer(c, keys, query, topK)[y] == Listing(c, keys, j, query)
    ensures exists x :: 0 <= x < y && Answer(c, keys, query, topK)[x] == Listing(c, keys, i, query)
  {
    MoreScores(c, i, j, Probes(c, query), term);
    MoreQualifies(c, i, j, Probes(c, query), term);
    BetterIsBefore(c, keys, query, topK, Listing(c, keys, i, query), y);
  }
}
