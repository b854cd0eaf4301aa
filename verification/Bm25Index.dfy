/** BM25Index: the constructor's counting loops and search's in-place accumulation. */
module Bm25Index {
  import opened Sorting
  import opened Bm25

  /** One document's term counts. */
  ghost predicate CountsOf(counts: map<string, nat>, tokens: seq<string>) {
    && counts.Keys == (set t | t in tokens)
    && forall t :: t in counts ==> counts[t] == multiset(tokens)[t]
  }

  ghost predicate DfOf(df: map<string, nat>, docs: seq<seq<string>>) {
    && (forall t :: t in df <==> Df(docs, t) > 0)
    && (forall t :: t in df ==> df[t] == Df(docs, t))
  }

  method CountTokens(tokens: seq<string>) returns (counts: map<string, nat>)
    ensures CountsOf(counts, tokens)
  {
    counts := map[];
    for k := 0 to |tokens|
      invariant CountsOf(counts, tokens[..k])
    {
      var t := tokens[k];
      assert tokens[..k + 1] == tokens[..k] + [t];
      counts := counts[t := (if t in counts then counts[t] else 0) + 1];
    }
    assert tokens[..|tokens|] == tokens;
  }

  method BumpDf(df: map<string, nat>, counts: map<string, nat>) returns (r: map<string, nat>)
    ensures r.Keys == df.Keys + counts.Keys
    ensures forall t :: t in r ==> r[t] == (if t in df then df[t] else 0) + if t in counts then 1 else 0
  {
    r := df;
    var rest := counts.Keys;
    while rest != {}
      invariant rest <= counts.Keys
      invariant r.Keys == df.Keys + (counts.Keys - rest)
      invariant forall t :: t in r ==>
                r[t] == (if t in df then df[t] else 0) + if t in counts && t !in rest then 1 else 0
      decreases rest
    {
      var t :| t in rest;
      r := r[t := (if t in r then r[t] else 0) + 1];
      rest := rest - {t};
    }
  }

  class BM25Index<K> {
    const lexicon: Lexicon
    const log: real -> real
    var keys: seq<K>
    var tf: seq<map<string, nat>>
    var lengths: seq<nat>
    var df: map<string, nat>
    var n: nat
    var avgdl: real
    ghost var docs: seq<seq<string>>

    ghost function Model(): Corpus
      reads this
    {
      Corpus(docs, lexicon, log)
    }

    ghost predicate Valid()
      reads this
    {
      && n == |docs| == |keys| == |tf| == |lengths|
      && (forall i :: 0 <= i < n ==> CountsOf(tf[i], docs[i]) && lengths[i] == |docs[i]|)
      && DfOf(df, docs)
      && avgdl == AverageLength(docs)
    }

    constructor (documents: seq<(K, seq<string>)>, words: Lexicon, logarithm: real -> real)
      ensures Valid() && lexicon == words && log == logarithm
      ensures |docs| == |documents| && forall i :: 0 <= i < |documents| ==>
              docs[i] == documents[i].1 && keys[i] == documents[i].0
    {
      ghost var texts := seq(|documents|, i requires 0 <= i < |documents| => documents[i].1);
      var tf', lengths', df', total := CountDocuments(documents, texts);
      lexicon, log := words, logarithm;
      keys := seq(|documents|, i requires 0 <= i < |documents| => documents[i].0);
      tf, lengths, df, n := tf', lengths', df', |documents|;
      avgdl := if |documents| == 0 then 0.0 else total as real / |documents| as real;
      docs := texts;
    }

    static method CountDocuments(documents: seq<(K, seq<string>)>, ghost texts: seq<seq<string>>)
      returns (tf: seq<map<string, nat>>, lengths: seq<nat>, df: map<string, nat>, total: nat)
      requires |texts| == |documents| && forall i :: 0 <= i < |documents| ==> texts[i] == documents[i].1
      ensures |tf| == |lengths| == |texts| && DfOf(df, texts) && total == TotalLength(texts)
      ensures forall i :: 0 <= i < |texts| ==> CountsOf(tf[i], texts[i]) && lengths[i] == |texts[i]|
    {
      tf, lengths, df, total := [], [], map[], 0;
      for i := 0 to |documents|
        invariant |tf| == |lengths| == i
        invariant forall j :: 0 <= j < i ==> CountsOf(tf[j], texts[j]) && lengths[j] == |texts[j]|
        invariant DfOf(df, texts[..i])
        invariant total == TotalLength(texts[..i])
      {
        var tokens := documents[i].1;
        var counts := CountTokens(tokens);
        assert texts[..i + 1][..i] == texts[..i] && texts[..i + 1][i] == tokens;
        assert forall t :: Df(texts[..i + 1], t) == Df(texts[..i], t) + if t in tokens then 1 else 0;
        df := BumpDf(df, counts);
        tf, lengths, total := tf + [counts], lengths + [|tokens|], total + |tokens|;
      }
      assert texts[..|documents|] == texts;
    }

    /** The four lists hold, for each document, the totals over the probes tried so far. */
    ghost predicate Tallied(scores: array<real>, hits: array<set<string>>, rare: array<bool>, signature: array<bool>,
                            probes: seq<Probe>)
      requires Valid() && n > 0
      reads this, scores, hits, rare, signature
    {
      && scores.Length == hits.Length == rare.Length == signature.Length == n
      && forall i :: 0 <= i < n ==> RowTallied(Model(), i, scores[i], hits[i], rare[i], signature[i], probes)
    }

    /** The body of the loop over one query token's terms. */
    method TryTerm(source: string, term: string, scores: array<real>, hits: array<set<string>>,
                   rare: array<bool>, signature: array<bool>, ghost probes: seq<Probe>)
      requires Valid() && n > 0 && Tallied(scores, hits, rare, signature, probes)
      requires rare != signature
      modifies scores, hits, rare, signature
      ensures Tallied(scores, hits, rare, signature, probes + [Probe(source, term)])
    {
      ghost var c := Model();
      ghost var p := Probe(source, term);
      if term !in df || df[term] == 0 {
        forall i | 0 <= i < n ensures RowTallied(c, i, scores[i], hits[i], rare[i], signature[i], probes + [p]) {
          DfPositive(docs, term);
          RowGrows(c, i, probes, p);
        }
        return;
      }
      var d := df[term];
      var idf := log(1.0 + (n as real - d as real + 0.5) / (d as real + 0.5));
      var isRare := d as real / n as real <= RARE_DF_RATIO;
      Sweep(source, term, idf, isRare, isRare && d <= SIGNATURE_DF && |term| >= SIGNATURE_LEN,
            scores, hits, rare, signature, probes);
    }

    /** The loop over documents for one term. */
    method Sweep(source: string, term: string, idf: real, isRare: bool, isSignature: bool,
                 scores: array<real>, hits: array<set<string>>, rare: array<bool>, signature: array<bool>,
                 ghost probes: seq<Probe>)
      requires Valid() && n > 0 && Tallied(scores, hits, rare, signature, probes)
      requires rare != signature
      requires idf == Idf(Model(), term) && isRare == Rare(Model(), term) && isSignature == Signature(Model(), term)
      modifies scores, hits, rare, signature
      ensures Tallied(scores, hits, rare, signature, probes + [Probe(source, term)])
    {
      ghost var c := Model();
      ghost var more := probes + [Probe(source, term)];
      for i := 0 to n
        invariant forall j :: 0 <= j < i ==> RowTallied(c, j, scores[j], hits[j], rare[j], signature[j], more)
        invariant forall j :: i <= j < n ==> RowTallied(c, j, scores[j], hits[j], rare[j], signature[j], probes)
      {
        if term in tf[i] {
          UpdateRow(i, source, term, idf, isRare, isSignature, scores, hits, rare, signature, probes);
        } else {
          RowGrows(c, i, probes, Probe(source, term));
        }
      }
    }

    /** A document that carries the term: its score grows, and its flags too when the hit is evidence. */
    method UpdateRow(i: nat, source: string, term: string, idf: real, isRare: bool, isSignature: bool,
                     scores: array<real>, hits: array<set<string>>, rare: array<bool>, signature: array<bool>,
                     ghost probes: seq<Probe>)
      requires Valid() && i < n && term in tf[i]
      requires scores.Length == hits.Length == rare.Length == signature.Length == n && rare != signature
      requires RowTallied(Model(), i, scores[i], hits[i], rare[i], signature[i], probes)
      requires idf == Idf(Model(), term) && isRare == Rare(Model(), term) && isSignature == Signature(Model(), term)
      modifies scores, hits, rare, signature
      ensures RowTallied(Model(), i, scores[i], hits[i], rare[i], signature[i], probes + [Probe(source, term)])
      ensures forall j :: 0 <= j < n && j != i ==>
                scores[j] == old(scores[j]) && hits[j] == old(hits[j]) && rare[j] == old(rare[j])
                    && signature[j] == old(signature[j])
    {
      ghost var c := Model();
      var share := Share(idf, tf[i][term], lengths[i], if avgdl == 0.0 then 1.0 else avgdl);
      assert share == Gain(c, i, term);
      RowGrows(c, i, probes, Probe(source, term));
      scores[i] := scores[i] + share;
      if source !in lexicon.nonEvidence && term !in lexicon.nonEvidence {
        hits[i] := hits[i] + {source};
        rare[i] := rare[i] || isRare;
        signature[i] := signature[i] || isSignature;
      }
    }

    method Search(query: seq<string>, topK: nat) returns (found: seq<Ranked<K>>)
      requires Valid() && LogPositive(Model())
      ensures found == Answer(Model(), keys, query, topK)
    {
      ghost var c := Model();
      if n == 0 {
        assert Answer(c, keys, query, topK) == [];
        return [];
      }
      var sources := Dedupe(query);
      if sources == [] {
        NoProbesNoResults(c, keys, |keys|);
        return [];
      }
      var scores, hits := new real[n](_ => 0.0), new set<string>[n](_ => {});
      var rare, signature := new bool[n](_ => false), new bool[n](_ => false);
      ghost var probes := TryAll(sources, scores, hits, rare, signature);
      var qualified := Select(scores, hits, rare, signature, probes);
      found := Take(StableSort(Better(), qualified), topK);
    }

    /** The nested loops over query tokens and their terms. */
    method TryAll(sources: seq<string>, scores: array<real>, hits: array<set<string>>,
                  rare: array<bool>, signature: array<bool>) returns (ghost probes: seq<Probe>)
      requires Valid() && n > 0 && Tallied(scores, hits, rare, signature, [])
      requires rare != signature
      modifies scores, hits, rare, signature
      ensures probes == ProbesOf(lexicon, sources) && Tallied(scores, hits, rare, signature, probes)
    {
      probes := [];
      for s := 0 to |sources|
        invariant Tallied(scores, hits, rare, signature, probes)
        invariant probes == ProbesOf(lexicon, sources[..s])
      {
        var terms := Terms(lexicon, sources[s]);
        ghost var before := probes;
        for t := 0 to |terms|
          invariant Tallied(scores, hits, rare, signature, probes)
          invariant probes == before + Pairs(sources[s], terms[..t])
        {
          TryTerm(sources[s], terms[t], scores, hits, rare, signature, probes);
          probes := probes + [Probe(sources[s], terms[t])];
        }
        assert terms[..|terms|] == terms;
        assert sources[..s + 1][..s] == sources[..s];
      }
      assert sources[..|sources|] == sources;
    }

    method Select(scores: array<real>, hits: array<set<string>>, rare: array<bool>, signature: array<bool>,
                  ghost probes: seq<Probe>) returns (qualified: seq<Ranked<K>>)
      requires Valid() && n > 0 && Tallied(scores, hits, rare, signature, probes) && LogPositive(Model())
      ensures qualified == Qualified(Model(), keys, probes, n)
    {
      qualified := [];
      for i := 0 to n
        invariant qualified == Qualified(Model(), keys, probes, i)
      {
        GateIsQualifies(Model(), i, probes);
        assert RowTallied(Model(), i, scores[i], hits[i], rare[i], signature[i], probes);
        if scores[i] > 0.0 && ((|hits[i]| >= 2 && rare[i]) || (|hits[i]| == 1 && signature[i])) {
          qualified := qualified + [Ranked(keys[i], scores[i])];
        }
      }
    }
  }
}
