/** Which spans a keyword scan records as negated, and what it reports, without any order of processing. */
module NegatedSpans {

  datatype Reading = Reading(
    text: string,
    passes: (string, nat) -> bool,       // the occurrence survives the boundary rules
    negated: (nat, nat) -> bool, // text[start..end) is negated
    scan: string -> seq<nat>)            // the occurrences the keyword's scan looks at, in order

  predicate OccursAt(text: string, keyword: string, idx: nat) {
    idx + |keyword| <= |text| && text[idx..idx + |keyword|] == keyword
  }

  /** Real occurrences of a non-empty keyword, left to right, none overlapping the one before. */
  ghost predicate Ascends(text: string, keyword: string, occ: seq<nat>) {
    && (forall i :: 0 <= i < |occ| ==> keyword != [] && OccursAt(text, keyword, occ[i]))
    && (forall i, j :: 0 <= i < j < |occ| ==> occ[i] + |keyword| <= occ[j])
  }

  ghost predicate Sound(t: Reading) { forall k :: Ascends(t.text, k, t.scan(k)) }

  /** A recorded span [start, End()) together with the keyword found there. */
  datatype Span = Span(start: nat, word: string) {
    function End(): nat { start + |word| }

    predicate Contains(a: nat, b: nat) { start <= a && b <= End() }
  }

  /** A strictly longer span among `spans` contains [a, b). */
  predicate Covered(spans: set<Span>, a: nat, b: nat) {
    exists s :: s in spans && s.Contains(a, b) && |s.word| > b - a
  }

  /** An occurrence that counts as a hit. */
  predicate Hit(t: Reading, spans: set<Span>, keyword: string, idx: nat) {
    t.passes(keyword, idx) && !t.negated(idx, idx + |keyword|) && !Covered(spans, idx, idx + |keyword|)
  }

  /** An occurrence that is negated and lies in no longer recorded span. */
  predicate Negation(t: Reading, spans: set<Span>, keyword: string, idx: nat) {
    t.passes(keyword, idx) && t.negated(idx, idx + |keyword|) && !Covered(spans, idx, idx + |keyword|)
  }

  predicate HitBefore(t: Reading, spans: set<Span>, keyword: string, limit: nat) {
    exists h :: h in t.scan(keyword) && h < limit && Hit(t, spans, keyword, h)
  }

  predicate HitSomewhere(t: Reading, spans: set<Span>, keyword: string) {
    exists h :: h in t.scan(keyword) && Hit(t, spans, keyword, h)
  }

  /** The scan of a keyword records the span at a: a negation it meets before any hit ends the scan. */
  predicate Records(t: Reading, spans: set<Span>, keyword: string, a: nat) {
    a in t.scan(keyword) && Negation(t, spans, keyword, a) && !HitBefore(t, spans, keyword, a)
  }

  /** The spans recorded for keywords of at least this length; only longer ones decide about a span. */
  function AtLeast(t: Reading, keywords: set<string>, length: nat): set<Span>
    decreases |t.text| + 1 - length
  {
    if length > |t.text| then {}
    else
      var longer := AtLeast(t, keywords, length + 1);
      longer + set w, a | w in keywords && a in t.scan(w) && |w| == length && Records(t, longer, w, a) :: Span(a, w)
  }

  function Recorded(t: Reading, keywords: set<string>): set<Span> { AtLeast(t, keywords, 1) }

  /** The keyword's scan ends in a hit. */
  predicate Reported(t: Reading, keywords: set<string>, keyword: string) {
    HitSomewhere(t, Recorded(t, keywords), keyword)
  }

  lemma {:induction false} WordsAtLeast(t: Reading, keywords: set<string>, length: nat)
    ensures forall s :: s in AtLeast(t, keywords, length) ==> length <= |s.word| <= |t.text|
    decreases |t.text| + 1 - length
  {
    if length <= |t.text| { WordsAtLeast(t, keywords, length + 1); }
  }

  lemma {:induction false} Nested(t: Reading, keywords: set<string>, low: nat, high: nat)
    requires low <= high
    ensures forall s :: s in AtLeast(t, keywords, high) <==> s in AtLeast(t, keywords, low) && |s.word| >= high
    decreases |t.text| + 1 - low
  {
    WordsAtLeast(t, keywords, low);
    if low < high {
      if low <= |t.text| {
        Nested(t, keywords, low + 1, high);
      } else {
        assert AtLeast(t, keywords, high) == {};
      }
    }
  }

  /** Only longer spans matter to what happens at an occurrence. */
  lemma LongerDecide(t: Reading, all: set<Span>, longer: set<Span>, keyword: string, a: nat)
    requires forall s :: s in longer <==> s in all && |s.word| > |keyword|
    ensures Records(t, all, keyword, a) <==> Records(t, longer, keyword, a)
  {
    forall h: nat ensures Covered(all, h, h + |keyword|) <==> Covered(longer, h, h + |keyword|)
                  ensures Hit(t, all, keyword, h) <==> Hit(t, longer, keyword, h)
    {
      assert Covered(all, h, h + |keyword|) <==> Covered(longer, h, h + |keyword|);
    }
  }

  /** A fixed point: exactly the spans their own keywords' scans record, given each other. */
  ghost predicate Fixed(t: Reading, keywords: set<string>, all: set<Span>) {
    forall s: Span :: s in all <==> s.word in keywords && Records(t, all, s.word, s.start)
  }

  lemma LevelIff(t: Reading, keywords: set<string>, s: Span)
    requires |s.word| <= |t.text|
    ensures s in AtLeast(t, keywords, |s.word|) <==>
            s.word in keywords && Records(t, AtLeast(t, keywords, |s.word| + 1), s.word, s.start)
  {
    WordsAtLeast(t, keywords, |s.word| + 1);
    assert s == Span(s.start, s.word);
  }

  lemma RecordedIsFixed(t: Reading, keywords: set<string>)
    requires Sound(t)
    ensures Fixed(t, keywords, Recorded(t, keywords))
  {
    var all := Recorded(t, keywords);
    WordsAtLeast(t, keywords, 1);
    forall s: Span ensures s in all <==> s.word in keywords && Records(t, all, s.word, s.start) {
      if 0 < |s.word| <= |t.text| {
        Nested(t, keywords, 1, |s.word|);
        Nested(t, keywords, 1, |s.word| + 1);
        LevelIff(t, keywords, s);
        LongerDecide(t, all, AtLeast(t, keywords, |s.word| + 1), s.word, s.start);
      } else {
        assert Ascends(t.text, s.word, t.scan(s.word));
      }
    }
  }

  lemma RecordedIsNegated(t: Reading, keywords: set<string>, s: Span)
    requires Sound(t) && s in Recorded(t, keywords)
    ensures s.End() <= |t.text| && t.negated(s.start, s.End())
  {
    RecordedIsFixed(t, keywords);
    assert Records(t, Recorded(t, keywords), s.word, s.start) && Ascends(t.text, s.word, t.scan(s.word));
  }

  lemma NothingNegated(t: Reading, keywords: set<string>)
    requires Sound(t) && forall a: nat, b: nat :: a <= b <= |t.text| ==> !t.negated(a, b)
    ensures Recorded(t, keywords) == {}
  {
    forall s | s in Recorded(t, keywords) ensures s.End() <= |t.text| && t.negated(s.start, s.End()) {
      RecordedIsNegated(t, keywords, s);
    }
  }

  function Longer(all: set<Span>, length: nat): set<Span> {
    set s | s in all && |s.word| > length
  }

  lemma NothingLongerThanText(t: Reading, keywords: set<string>, all: set<Span>, length: nat)
    requires Sound(t) && Fixed(t, keywords, all) && |t.text| <= length
    ensures Longer(all, length) == {}
  {
    forall s | s in all ensures |s.word| <= length {
      assert Records(t, all, s.word, s.start) && Ascends(t.text, s.word, t.scan(s.word));
    }
  }

  lemma AgreeOnSpan(t: Reading, keywords: set<string>, a: set<Span>, b: set<Span>, s: Span)
    requires Fixed(t, keywords, a) && Fixed(t, keywords, b) && Longer(a, |s.word|) == Longer(b, |s.word|)
    ensures s in a <==> s in b
  {
    LongerDecide(t, a, Longer(a, |s.word|), s.word, s.start);
    LongerDecide(t, b, Longer(b, |s.word|), s.word, s.start);
  }

  lemma AgreeOneShorter(t: Reading, keywords: set<string>, a: set<Span>, b: set<Span>, length: nat)
    requires Fixed(t, keywords, a) && Fixed(t, keywords, b) && Longer(a, length + 1) == Longer(b, length + 1)
    ensures Longer(a, length) == Longer(b, length)
  {
    forall s: Span | |s.word| == length + 1 ensures s in a <==> s in b {
      AgreeOnSpan(t, keywords, a, b, s);
    }
    LongerSplits(a, length);
    LongerSplits(b, length);
  }

  lemma LongerSplits(all: set<Span>, length: nat)
    ensures forall s :: s in Longer(all, length) <==>
            s in Longer(all, length + 1) || (s in all && |s.word| == length + 1)
  {
  }

  /** Two fixed points agree on long spans, and so, length by length, on shorter ones. */
  lemma {:induction false} FixedAgree(t: Reading, keywords: set<string>, a: set<Span>, b: set<Span>, length: nat)
    requires Sound(t) && Fixed(t, keywords, a) && Fixed(t, keywords, b)
    ensures Longer(a, length) == Longer(b, length)
    decreases |t.text| - length
  {
    if length < |t.text| {
      FixedAgree(t, keywords, a, b, length + 1);
      AgreeOneShorter(t, keywords, a, b, length);
    } else {
      NothingLongerThanText(t, keywords, a, length);
      NothingLongerThanText(t, keywords, b, length);
    }
  }

  /** There is exactly one fixed point: the rule of recording needs no processing order. */
  lemma FixedIsUnique(t: Reading, keywords: set<string>, all: set<Span>)
    requires Sound(t)
    ensures Fixed(t, keywords, all) <==> all == Recorded(t, keywords)
  {
    RecordedIsFixed(t, keywords);
    if Fixed(t, keywords, all) {
      var recorded := Recorded(t, keywords);
      FixedAgree(t, keywords, all, recorded, 0);
      forall s: Span ensures s in all <==> s in recorded {
        assert s in Longer(all, 0) <==> s in Longer(recorded, 0);
        assert Ascends(t.text, s.word, t.scan(s.word));
      }
    }
  }

  /** No recorded negated span of any length contains [a, b). */
  predicate InNoSpan(spans: set<Span>, a: nat, b: nat) {
    forall s :: s in spans ==> !s.Contains(a, b)
  }

  /** Two occurrences at one place and of one length are the same. */
  lemma SamePlaceSameWord(t: Reading, s: Span, keyword: string, idx: nat)
    requires Sound(t) && keyword != [] && OccursAt(t.text, keyword, idx)
    requires s.start in t.scan(s.word) && s.Contains(idx, idx + |keyword|) && |s.word| <= |keyword|
    ensures s == Span(idx, keyword)
  {
    assert Ascends(t.text, s.word, t.scan(s.word));
    assert OccursAt(t.text, s.word, s.start);
  }

  /** A hit lies in no recorded span of any length: an equally long one would be the occurrence itself, negated. */
  lemma HitIsUncovered(t: Reading, keywords: set<string>, all: set<Span>, keyword: string, idx: nat)
    requires Sound(t) && Fixed(t, keywords, all) && idx in t.scan(keyword)
    ensures Hit(t, all, keyword, idx) <==>
            t.passes(keyword, idx) && !t.negated(idx, idx + |keyword|) && InNoSpan(all, idx, idx + |keyword|)
  {
    assert Ascends(t.text, keyword, t.scan(keyword));
    forall s | s in all && s.Contains(idx, idx + |keyword|) && |s.word| <= |keyword| ensures s == Span(idx, keyword) {
      assert Records(t, all, s.word, s.start);
      SamePlaceSameWord(t, s, keyword, idx);
    }
  }

  /** A keyword is reported exactly when its scan meets an occurrence that passes the boundary rules, is not negated and
      lies in no recorded negated span. */
  lemma ReportedIff(t: Reading, keywords: set<string>, keyword: string)
    requires Sound(t)
    ensures Reported(t, keywords, keyword) <==>
            exists idx :: idx in t.scan(keyword) && t.passes(keyword, idx) && !t.negated(idx, idx + |keyword|)
                          && InNoSpan(Recorded(t, keywords), idx, idx + |keyword|)
  {
    RecordedIsFixed(t, keywords);
    forall idx | idx in t.scan(keyword) { HitIsUncovered(t, keywords, Recorded(t, keywords), keyword, idx); }
  }

  // ----- One keyword's scan, step by step

  /** `spans` are exactly the recorded spans of the keywords already processed, and this one's among `seen`. */
  ghost predicate Scanned(all: set<Span>, spans: seq<Span>, done: set<string>, keyword: string, seen: seq<nat>) {
    forall s: Span :: s in spans <==> s in all && (s.word in done || (s.word == keyword && s.start in seen))
  }

  /** How far the scan of a keyword has come: k occurrences seen, none of them a hit. */
  ghost predicate Progress(t: Reading, all: set<Span>, spans: seq<Span>, done: set<string>, keyword: string, k: nat) {
    && k <= |t.scan(keyword)| && Scanned(all, spans, done, keyword, t.scan(keyword)[..k])
    && forall j :: 0 <= j < k ==> !Hit(t, all, keyword, t.scan(keyword)[j])
  }

  /** The check against recorded spans sees exactly the longer ones, or the very span itself. */
  lemma CoverCheck(t: Reading, keywords: set<string>, all: set<Span>, spans: seq<Span>, done: set<string>,
                   keyword: string, k: nat)
    requires Sound(t) && Fixed(t, keywords, all) && k < |t.scan(keyword)|
    requires Progress(t, all, spans, done, keyword, k)
    requires forall w :: w in keywords && |w| > |keyword| ==> w in done
    ensures var idx := t.scan(keyword)[k];
            (exists s :: s in spans && s.Contains(idx, idx + |keyword|)) <==>
            Covered(all, idx, idx + |keyword|) || Span(idx, keyword) in spans
  {
    var idx := t.scan(keyword)[k];
    assert Ascends(t.text, keyword, t.scan(keyword));
    forall s | s in spans && s.Contains(idx, idx + |keyword|) && |s.word| <= |keyword| ensures s == Span(idx, keyword) {
      assert Records(t, all, s.word, s.start);
      SamePlaceSameWord(t, s, keyword, idx);
    }
    assert Span(idx, keyword).Contains(idx, idx + |keyword|);
  }

  lemma NoneEarlier(t: Reading, all: set<Span>, keyword: string, k: nat)
    requires Sound(t) && k < |t.scan(keyword)|
    requires forall j :: 0 <= j < k ==> !Hit(t, all, keyword, t.scan(keyword)[j])
    ensures !HitBefore(t, all, keyword, t.scan(keyword)[k])
  {
    assert Ascends(t.text, keyword, t.scan(keyword));
  }

  /** With no hit so far, the next occurrence is recorded exactly when it is a negation. */
  lemma RecordedHere(t: Reading, keywords: set<string>, all: set<Span>, keyword: string, k: nat)
    requires Sound(t) && Fixed(t, keywords, all) && keyword in keywords && k < |t.scan(keyword)|
    requires forall j :: 0 <= j < k ==> !Hit(t, all, keyword, t.scan(keyword)[j])
    ensures var idx := t.scan(keyword)[k]; Span(idx, keyword) in all <==> Negation(t, all, keyword, idx)
  {
    NoneEarlier(t, all, keyword, k);
    var s := Span(t.scan(keyword)[k], keyword);
    assert s in all <==> s.word in keywords && Records(t, all, s.word, s.start);
  }

  lemma StepOver(t: Reading, keywords: set<string>, all: set<Span>, prior: seq<Span>, spans: seq<Span>,
                 done: set<string>, keyword: string, k: nat)
    requires Sound(t) && Fixed(t, keywords, all) && keyword in keywords && k < |t.scan(keyword)|
    requires Progress(t, all, prior, done, keyword, k)
    requires var idx := t.scan(keyword)[k];
             && !Hit(t, all, keyword, idx)
             && (|| (spans == prior && (Negation(t, all, keyword, idx) ==> Span(idx, keyword) in prior))
                 || (spans == prior + [Span(idx, keyword)] && Negation(t, all, keyword, idx)))
    ensures Progress(t, all, spans, done, keyword, k + 1)
  {
    var occ := t.scan(keyword);
    RecordedHere(t, keywords, all, keyword, k);
    assert occ[..k + 1] == occ[..k] + [occ[k]];
    forall s: Span
        ensures s in spans <==> s in all && (s.word in done || (s.word == keyword && s.start in occ[..k + 1])) {
      assert s.start in occ[..k + 1] <==> s.start in occ[..k] || s.start == occ[k];
      assert s in spans <==> s in prior || (s == Span(occ[k], keyword) && spans != prior);
    }
  }

  /** A hit ends the scan: nothing from there on is recorded for this keyword. */
  lemma HitEndsScan(t: Reading, keywords: set<string>, all: set<Span>, spans: seq<Span>, done: set<string>,
                    keyword: string, k: nat)
    requires Sound(t) && Fixed(t, keywords, all) && k < |t.scan(keyword)| && Hit(t, all, keyword, t.scan(keyword)[k])
    requires Progress(t, all, spans, done, keyword, k)
    ensures Scanned(all, spans, done + {keyword}, [], [])
  {
    var occ := t.scan(keyword);
    assert Ascends(t.text, keyword, occ);
    forall s | s in all && s.word == keyword ensures s.start in occ[..k] {
      assert Records(t, all, keyword, s.start);
      var j :| 0 <= j < |occ| && occ[j] == s.start;
      assert !HitBefore(t, all, keyword, s.start) && occ[k] in occ;
      assert j < k;
      assert occ[..k][j] == s.start;
    }
  }

  lemma NothingLeft(t: Reading, keywords: set<string>, all: set<Span>, spans: seq<Span>, done: set<string>,
                    keyword: string)
    requires Fixed(t, keywords, all) && Progress(t, all, spans, done, keyword, |t.scan(keyword)|)
    ensures !HitSomewhere(t, all, keyword) && Scanned(all, spans, done + {keyword}, [], [])
  {
    var occ := t.scan(keyword);
    assert occ[..|occ|] == occ;
    forall s | s in all && s.word == keyword ensures s.start in occ { assert Records(t, all, keyword, s.start); }
  }
}
