/** Keyword hits in evidence text: the boundary rules and the scanner that applies them. */
module KeywordScan {
  import opened Sorting
  import opened NegatedSpans

  /** What the scan takes as given: Python's character classes, the two small word tables and the negation patterns. */
  datatype Rules = Rules(
    alnum: char -> bool,
    digit: char -> bool,
    stemSuffix: string -> bool,              // "s", "ed", "ing", ...: what may follow a keyword inside its token
    atomicToken: string -> bool,             // compound tokens no proper part of which counts
    negated: (string, nat, nat) -> bool)     // a stretch of a text is negated

  predicate AsciiAlnum(r: Rules, c: char) { c as int < 128 && r.alnum(c) }

  function TokenStart(r: Rules, text: string, idx: nat): (s: nat)
    requires idx <= |text|
    ensures s <= idx
  {
    if idx > 0 && AsciiAlnum(r, text[idx - 1]) then TokenStart(r, text, idx - 1) else idx
  }

  function TokenEnd(r: Rules, text: string, end: nat): (e: nat)
    requires end <= |text|
    ensures end <= e <= |text|
    decreases |text| - end
  {
    if end < |text| && AsciiAlnum(r, text[end]) then TokenEnd(r, text, end + 1) else end
  }

  predicate AllDigits(r: Rules, s: string) { s != [] && forall c :: c in s ==> r.digit(c) }

  /** text.find(keyword, start): the first occurrence, or -1. */
  function Find(text: string, keyword: string, start: nat): (idx: int)
    ensures idx >= 0 ==> start <= idx && OccursAt(text, keyword, idx)
    ensures idx < 0 ==> idx == -1
    decreases |text| - start
  {
    if start + |keyword| > |text| then -1
    else if OccursAt(text, keyword, start) then start
    else Find(text, keyword, start + 1)
  }

  /** It is the first from there on, and -1 means there is none. */
  lemma {:induction false} FindIsFirst(text: string, keyword: string, start: nat)
    ensures var f := Find(text, keyword, start);
      forall i: nat :: start <= i && (f < 0 || i < f) ==> !OccursAt(text, keyword, i)
    decreases |text| - start
  {
    if start + |keyword| <= |text| && !OccursAt(text, keyword, start) {
      FindIsFirst(text, keyword, start + 1);
    }
  }

  /** The occurrence text[idx..idx+|keyword|) survives the boundary rules. */
  predicate Passes(r: Rules, text: string, keyword: string, idx: nat)
    requires keyword != [] && idx + |keyword| <= |text|
  {
    var end := idx + |keyword|;
    var tokenStart, tokenEnd := TokenStart(r, text, idx), TokenEnd(r, text, end);
    var token := text[tokenStart..tokenEnd];
    && !(AllDigits(r, keyword) && tokenStart != idx)
    && !(r.alnum(keyword[|keyword| - 1]) && end < |text| && AsciiAlnum(r, text[end])
         && !r.stemSuffix(text[end..tokenEnd]))
    && !(token != keyword && r.atomicToken(token))
  }

  ghost predicate Alnums(r: Rules, text: string, a: nat, b: nat) {
    b <= |text| && forall i :: a <= i < b ==> AsciiAlnum(r, text[i])
  }

  /** text[s..e) is text[idx..end) with all the letters and digits before and after it. */
  ghost predicate Token(r: Rules, text: string, idx: nat, end: nat, s: nat, e: nat) {
    && s <= idx <= end <= e <= |text|
    && Alnums(r, text, s, idx) && (s == 0 || !AsciiAlnum(r, text[s - 1]))
    && Alnums(r, text, end, e) && (e == |text| || !AsciiAlnum(r, text[e]))
  }

  lemma {:induction false} StartIs(r: Rules, text: string, idx: nat, s: nat)
    requires s <= idx <= |text| && Alnums(r, text, s, idx) && (s == 0 || !AsciiAlnum(r, text[s - 1]))
    ensures TokenStart(r, text, idx) == s
    decreases idx
  {
    if s < idx { StartIs(r, text, idx - 1, s); }
  }

  lemma {:induction false} EndIs(r: Rules, text: string, end: nat, e: nat)
    requires end <= e <= |text| && Alnums(r, text, end, e) && (e == |text| || !AsciiAlnum(r, text[e]))
    ensures TokenEnd(r, text, end) == e
    decreases e - end
  {
    if end < e { EndIs(r, text, end + 1, e); }
  }

  /** An occurrence passes in terms of the token around it: digits begin it, only a suffix follows, and no compound. */
  lemma PassesIff(r: Rules, text: string, keyword: string, idx: nat, s: nat, e: nat)
    requires keyword != [] && OccursAt(text, keyword, idx) && Token(r, text, idx, idx + |keyword|, s, e)
    ensures Passes(r, text, keyword, idx) <==>
      && ((forall c :: c in keyword ==> r.digit(c)) ==> s == idx)
      && (r.alnum(keyword[|keyword| - 1]) && idx + |keyword| < e ==> r.stemSuffix(text[idx + |keyword|..e]))
      && (s < idx || idx + |keyword| < e ==> !r.atomicToken(text[s..e]))
  {
    StartIs(r, text, idx, s);
    EndIs(r, text, idx + |keyword|, e);
  }

  /** The occurrences the left-to-right, non-overlapping scan from `start` on looks at. */
  function Occurrences(text: string, keyword: string, start: nat): seq<nat>
    decreases |text| - start
  {
    var f := Find(text, keyword, start);
    if keyword == [] || f < 0 then [] else [f] + Occurrences(text, keyword, f + |keyword|)
  }

  lemma FirstOccurrence(text: string, keyword: string, start: nat)
    ensures var f := Find(text, keyword, start);
            Occurrences(text, keyword, start)
            == if keyword == [] || f < 0 then [] else [f] + Occurrences(text, keyword, f + |keyword|)
  {
  }

  /** The entry behind position k, or -1. */
  function Behind(occ: seq<nat>, k: int): int
    requires -1 <= k
  {
    if k + 1 < |occ| then occ[k + 1] else -1
  }

  /** Each entry is what `find` gives behind the one before it, and behind the last there is nothing. */
  ghost predicate Hops(find: nat -> int, width: nat, occ: seq<nat>, start: nat)
    decreases |occ|
  {
    find(start) == Behind(occ, -1) && (occ != [] ==> Hops(find, width, occ[1..], occ[0] + width))
  }

  lemma {:induction false} HopsNext(find: nat -> int, width: nat, occ: seq<nat>, start: nat, k: nat)
    requires Hops(find, width, occ, start) && k < |occ|
    ensures find(occ[k] + width) == Behind(occ, k)
    decreases k
  {
    if k == 0 {
      assert Behind(occ[1..], -1) == Behind(occ, 0);
    } else {
      HopsNext(find, width, occ[1..], occ[0] + width, k - 1);
    }
  }

  function Finder(text: string, keyword: string): nat -> int {
    (start: nat) => Find(text, keyword, start)
  }

  lemma {:induction false} OccurrencesHop(text: string, keyword: string, start: nat)
    requires keyword != []
    ensures Hops(Finder(text, keyword), |keyword|, Occurrences(text, keyword, start), start)
    decreases |text| - start
  {
    var f := Finder(text, keyword)(start);
    FirstOccurrence(text, keyword, start);
    if f >= 0 {
      OccurrencesHop(text, keyword, f + |keyword|);
      var rest := Occurrences(text, keyword, f + |keyword|);
      assert ([f] + rest)[1..] == rest;
    }
  }

  lemma {:induction false} HopsAscend(find: nat -> int, width: nat, occ: seq<nat>, start: nat, occurs: nat -> bool)
    requires Hops(find, width, occ, start)
    requires forall from: nat :: find(from) >= 0 ==> from <= find(from) && occurs(find(from))
    ensures forall i :: 0 <= i < |occ| ==> start <= occ[i] && occurs(occ[i])
    ensures forall i, j :: 0 <= i < j < |occ| ==> occ[i] + width <= occ[j]
    decreases |occ|
  {
    if occ != [] {
      HopsAscend(find, width, occ[1..], occ[0] + width, occurs);
      assert occ[0] == find(start);
      assert forall i :: 0 < i < |occ| ==> occ[i] == occ[1..][i - 1];
    }
  }

  lemma OccurrencesAscend(text: string, keyword: string)
    ensures Ascends(text, keyword, Occurrences(text, keyword, 0))
  {
    if keyword != [] {
      OccurrencesHop(text, keyword, 0);
      HopsAscend(Finder(text, keyword), |keyword|, Occurrences(text, keyword, 0), 0,
                 (i: nat) => OccursAt(text, keyword, i));
    }
  }

  /** One of the occurrences covers position i. */
  ghost predicate MeetsOver(occ: seq<nat>, width: nat, i: nat) {
    exists a :: a in occ && a <= i < a + width
  }

  /** Every occurrence is met, or begins inside one that is. */
  lemma {:induction false} NoneOverlooked(text: string, keyword: string, start: nat, i: nat)
    requires keyword != [] && start <= i && OccursAt(text, keyword, i)
    ensures MeetsOver(Occurrences(text, keyword, start), |keyword|, i)
    decreases |text| - start
  {
    FindIsFirst(text, keyword, start);
    FirstOccurrence(text, keyword, start);
    var f := Find(text, keyword, start);
    assert f in Occurrences(text, keyword, start);
    if f + |keyword| <= i {
      NoneOverlooked(text, keyword, f + |keyword|, i);
    }
  }

  /** The scan meets exactly the occurrences that begin inside no other one it meets. */
  lemma MetIff(text: string, keyword: string, i: nat)
    requires keyword != []
    ensures i in Occurrences(text, keyword, 0) <==>
      OccursAt(text, keyword, i) && forall a :: a in Occurrences(text, keyword, 0) && a < i ==> a + |keyword| <= i
  {
    OccurrencesAscend(text, keyword);
    if OccursAt(text, keyword, i) {
      NoneOverlooked(text, keyword, 0, i);
    }
  }

  /** The scan of a text under these rules, as the span theory sees it. */
  function ReadingOf(r: Rules, text: string): Reading {
    Reading(text,
            (k: string, i: nat) => k != [] && i + |k| <= |text| && Passes(r, text, k, i),
            (a: nat, b: nat) => r.negated(text, a, b),
            k => Occurrences(text, k, 0))
  }

  /** This reading is the scan of the text under these rules, as far as one keyword goes. */
  ghost predicate Reads(t: Reading, r: Rules, text: string, keyword: string) {
    && t.text == text && (forall a, b :: t.negated(a, b) == r.negated(text, a, b))
    && t.scan(keyword) == Occurrences(text, keyword, 0)
    && forall i: nat :: keyword != [] && i + |keyword| <= |text| ==> t.passes(keyword, i) == Passes(r, text, keyword, i)
  }

  lemma TheReading(r: Rules, text: string) returns (t: Reading)
    ensures t == ReadingOf(r, text) && t.text == text && Sound(t) && forall k :: Reads(t, r, text, k)
  {
    t := ReadingOf(r, text);
    forall k ensures Ascends(text, k, Occurrences(text, k, 0)) { OccurrencesAscend(text, k); }
  }

  predicate LongerFirst(x: string, y: string) { |x| >= |y| }

  /** The hit list: reported keywords, longest first, ties in the order given. */
  function HitList(r: Rules, text: string, keywords: seq<string>): seq<string> {
    Filter(k => Reported(ReadingOf(r, text), SetOf(keywords), k), StableSort(LongerFirst, keywords))
  }

  /** An occurrence the scan meets, that passes the boundary rules, is not negated and lies in no recorded negated
      span. */
  ghost predicate Counts(r: Rules, text: string, spans: set<Span>, keyword: string, idx: nat) {
    && idx in Occurrences(text, keyword, 0) && keyword != [] && idx + |keyword| <= |text|
    && Passes(r, text, keyword, idx) && !r.negated(text, idx, idx + |keyword|) && InNoSpan(spans, idx, idx + |keyword|)
  }

  /**
   * Main result on hits: which keywords are reported, stated on the text and
   * on any set of spans that obeys the recording rule; there is only one.
   */
  lemma KeywordReportedIff(r: Rules, text: string, keywords: set<string>, spans: set<Span>, keyword: string)
    requires Fixed(ReadingOf(r, text), keywords, spans)
    ensures Reported(ReadingOf(r, text), keywords, keyword) <==> exists idx :: Counts(r, text, spans, keyword, idx)
  {
    var t := TheReading(r, text);
    FixedIsUnique(t, keywords, spans);
    ReportedIff(t, keywords, keyword);
    assert Reads(t, r, text, keyword) && Ascends(text, keyword, t.scan(keyword));
    forall idx: nat
      ensures Counts(r, text, spans, keyword, idx) <==>
              idx in t.scan(keyword) && t.passes(keyword, idx) && !t.negated(idx, idx + |keyword|)
              && InNoSpan(spans, idx, idx + |keyword|)
    {
    }
  }

  /** The hit list holds exactly the keywords with an occurrence that counts, given any spans that obey the rule. */
  lemma HitIff(r: Rules, text: string, keywords: seq<string>, spans: set<Span>, keyword: string)
    requires Fixed(ReadingOf(r, text), SetOf(keywords), spans)
    ensures keyword in HitList(r, text, keywords) <==>
            keyword in keywords && exists idx :: Counts(r, text, spans, keyword, idx)
  {
    KeywordReportedIff(r, text, SetOf(keywords), spans, keyword);
    InFilter(k => Reported(ReadingOf(r, text), SetOf(keywords), k), StableSort(LongerFirst, keywords));
    SameElements(LongerFirst, keywords);
  }

  lemma LongerFirstIsTotal()
    ensures TotalPreorder(LongerFirst)
  {
  }

  /** Longer hits come first, and those of one length in the order their keywords are given. */
  lemma HitsInOrder(r: Rules, text: string, keywords: seq<string>, length: nat)
    ensures forall i, j :: 0 <= i < j < |HitList(r, text, keywords)| ==>
              |HitList(r, text, keywords)[i]| >= |HitList(r, text, keywords)[j]|
    ensures var reported := k => Reported(ReadingOf(r, text), SetOf(keywords), k);
      var long := (k: string) => |k| == length;
      Filter(long, HitList(r, text, keywords)) == Filter(long, Filter(reported, keywords))
  {
    var reported := k => Reported(ReadingOf(r, text), SetOf(keywords), k);
    var long := (k: string) => |k| == length;
    LongerFirstIsTotal();
    StableSortSorts(LongerFirst, keywords);
    FilterKeepsSorted(LongerFirst, reported, StableSort(LongerFirst, keywords));
    assert forall i, j :: 0 <= i < j < |HitList(r, text, keywords)| ==>
             LongerFirst(HitList(r, text, keywords)[i], HitList(r, text, keywords)[j]);
    FilterTwice(long, reported, StableSort(LongerFirst, keywords));
    StableSortIsStable(LongerFirst, long, keywords);
    FilterTwice(long, reported, keywords);
  }

  /** In a text that negates nothing, a keyword that occurs, and whose occurrences pass the boundary rules, is a hit. */
  lemma AffirmedIsHit(r: Rules, text: string, keywords: seq<string>, keyword: string, i: nat)
    requires keyword in keywords && keyword != [] && OccursAt(text, keyword, i)
    requires forall a: nat, b: nat :: a <= b <= |text| ==> !r.negated(text, a, b)
    requires forall a: nat :: OccursAt(text, keyword, a) ==> Passes(r, text, keyword, a)
    ensures keyword in HitList(r, text, keywords)
  {
    var t := TheReading(r, text);
    var spans := Recorded(t, SetOf(keywords));
    RecordedIsFixed(t, SetOf(keywords));
    NothingNegated(t, SetOf(keywords));
    NoneOverlooked(text, keyword, 0, i);
    var a :| a in Occurrences(text, keyword, 0) && a <= i < a + |keyword|;
    OccurrencesAscend(text, keyword);
    assert Counts(r, text, spans, keyword, a);
    HitIff(r, text, keywords, spans, keyword);
  }

  /** The multiset of hits, and the recorded spans, do not depend on the order the keywords are given in. */
  lemma OrderDoesNotMatter(r: Rules, text: string, xs: seq<string>, ys: seq<string>)
    requires multiset(xs) == multiset(ys)
    ensures multiset(HitList(r, text, xs)) == multiset(HitList(r, text, ys))
    ensures Recorded(ReadingOf(r, text), SetOf(xs)) == Recorded(ReadingOf(r, text), SetOf(ys))
  {
    forall k ensures k in xs <==> k in ys {
      assert k in xs <==> k in multiset(xs);
      assert k in ys <==> k in multiset(ys);
    }
    assert SetOf(xs) == SetOf(ys);
    var keep := k => Reported(ReadingOf(r, text), SetOf(xs), k);
    var keep' := k => Reported(ReadingOf(r, text), SetOf(ys), k);
    forall k ensures multiset(HitList(r, text, xs))[k] == multiset(HitList(r, text, ys))[k] {
      FilterSplitsMultiset(keep, StableSort(LongerFirst, xs), k);
      FilterSplitsMultiset(keep', StableSort(LongerFirst, ys), k);
    }
  }

  // ----- The scanner

  method CoveredBySome(spans: seq<Span>, a: nat, b: nat) returns (yes: bool)
    ensures yes <==> exists s :: s in spans && s.Contains(a, b)
  {
    for i := 0 to |spans|
      invariant forall j :: 0 <= j < i ==> !spans[j].Contains(a, b)
    {
      if spans[i].Contains(a, b) { return true; }
    }
    return false;
  }

  method WalkToken(r: Rules, text: string, idx: nat, end: nat) returns (tokenStart: nat, tokenEnd: nat)
    requires idx <= end <= |text|
    ensures tokenStart == TokenStart(r, text, idx) && tokenEnd == TokenEnd(r, text, end)
  {
    tokenStart := idx;
    while tokenStart > 0 && AsciiAlnum(r, text[tokenStart - 1])
      invariant tokenStart <= idx && TokenStart(r, text, tokenStart) == TokenStart(r, text, idx)
    {
      tokenStart := tokenStart - 1;
    }
    tokenEnd := end;
    while tokenEnd < |text| && AsciiAlnum(r, text[tokenEnd])
      invariant end <= tokenEnd <= |text| && TokenEnd(r, text, tokenEnd) == TokenEnd(r, text, end)
    {
      tokenEnd := tokenEnd + 1;
    }
  }

  method Boundary(r: Rules, text: string, keyword: string, idx: nat) returns (passes: bool)
    requires keyword != [] && idx + |keyword| <= |text|
    ensures passes == Passes(r, text, keyword, idx)
  {
    var end := idx + |keyword|;
    var tokenStart, tokenEnd := WalkToken(r, text, idx, end);
    if AllDigits(r, keyword) && tokenStart != idx { return false; }
    var token := text[tokenStart..tokenEnd];
    if r.alnum(keyword[|keyword| - 1]) && end < |text| && AsciiAlnum(r, text[end]) {
      if !r.stemSuffix(text[end..tokenEnd]) { return false; }
    }
    if token != keyword && r.atomicToken(token) { return false; }
    return true;
  }

  /** What the scan does with one occurrence: a hit, a recorded negation, or nothing. */
  method Judge(ghost t: Reading, ghost keywords: set<string>, ghost all: set<Span>, ghost done: set<string>,
               keyword: string, prior: seq<Span>, ghost k: nat, idx: nat, passes: bool, negated: bool)
    returns (hit: bool, spans: seq<Span>)
    requires keyword in keywords && k < |t.scan(keyword)| && idx == t.scan(keyword)[k]
    requires passes == t.passes(keyword, idx) && negated == t.negated(idx, idx + |keyword|)
    requires Sound(t) && Fixed(t, keywords, all) && Progress(t, all, prior, done, keyword, k)
    requires forall w :: w in keywords && |w| > |keyword| ==> w in done
    ensures hit ==> HitSomewhere(t, all, keyword) && Scanned(all, spans, done + {keyword}, [], [])
    ensures !hit ==> Progress(t, all, spans, done, keyword, k + 1)
  {
    RecordedHere(t, keywords, all, keyword, k);
    CoverCheck(t, keywords, all, prior, done, keyword, k);
    spans := prior;
    if passes {
      var covered := CoveredBySome(prior, idx, idx + |keyword|);
      if !covered {
        if !negated {
          assert Hit(t, all, keyword, idx) && idx in t.scan(keyword);
          HitEndsScan(t, keywords, all, prior, done, keyword, k);
          return true, prior;
        }
        spans := prior + [Span(idx, keyword)];
      }
    }
    StepOver(t, keywords, all, prior, spans, done, keyword, k);
    hit := false;
  }

  lemma FindFirst(text: string, keyword: string, start: nat)
    requires keyword != []
    ensures Find(text, keyword, start) == Behind(Occurrences(text, keyword, start), -1)
  {
    FirstOccurrence(text, keyword, start);
  }

  /** Searching on behind one occurrence finds the next, or nothing behind the last. */
  lemma FindNext(text: string, keyword: string, k: nat)
    requires keyword != [] && k < |Occurrences(text, keyword, 0)|
    ensures var occ := Occurrences(text, keyword, 0);
            Finder(text, keyword)(occ[k] + |keyword|) == Behind(occ, k)
  {
    OccurrencesHop(text, keyword, 0);
    HopsNext(Finder(text, keyword), |keyword|, Occurrences(text, keyword, 0), 0, k);
  }

  lemma OccurrencesOccur(text: string, keyword: string, k: nat)
    requires keyword != [] && k < |Occurrences(text, keyword, 0)|
    ensures OccursAt(text, keyword, Occurrences(text, keyword, 0)[k])
  {
    OccurrencesAscend(text, keyword);
  }

  /** The scan for one keyword. Every longer keyword has been scanned before it. */
  method ScanKeyword(r: Rules, text: string, ghost t: Reading, ghost keywords: set<string>, ghost all: set<Span>,
                     ghost done: set<string>, keyword: string, before: seq<Span>)
    returns (hit: bool, spans: seq<Span>)
    requires keyword != [] && keyword in keywords && Reads(t, r, text, keyword) && Sound(t) && Fixed(t, keywords, all)
    requires Scanned(all, before, done, [], [])
    requires forall k :: k in keywords && |k| > |keyword| ==> k in done
    ensures hit == HitSomewhere(t, all, keyword)
    ensures Scanned(all, spans, done + {keyword}, [], [])
  {
    ghost var k: nat := 0;
    FindFirst(text, keyword, 0);
    spans := before;
    var idx := Find(text, keyword, 0);
    while idx >= 0
      invariant Progress(t, all, spans, done, keyword, k)
      invariant idx == Behind(t.scan(keyword), k - 1)
      decreases |t.scan(keyword)| - k
    {
      hit, spans, idx := LookAt(r, text, t, keywords, all, done, keyword, spans, k, idx);
      if hit { return true, spans; }
      k := k + 1;
    }
    NothingLeft(t, keywords, all, spans, done, keyword);
    hit := false;
  }

  method SearchOn(text: string, keyword: string, ghost occ: seq<nat>, ghost k: nat, idx: nat) returns (next: int)
    requires keyword != [] && occ == Occurrences(text, keyword, 0) && k < |occ| && idx == occ[k]
    ensures idx + |keyword| <= |text| && next == Behind(occ, k)
  {
    OccurrencesOccur(text, keyword, k);
    FindNext(text, keyword, k);
    next := Find(text, keyword, idx + |keyword|);
  }

  /** One turn of that loop: judge the occurrence at idx and, unless it is a hit, find the next one. */
  method LookAt(r: Rules, text: string, ghost t: Reading, ghost keywords: set<string>, ghost all: set<Span>,
                ghost done: set<string>, keyword: string, prior: seq<Span>, ghost k: nat, idx: nat)
    returns (hit: bool, spans: seq<Span>, next: int)
    requires keyword != [] && keyword in keywords && Reads(t, r, text, keyword) && Sound(t) && Fixed(t, keywords, all)
    requires forall w :: w in keywords && |w| > |keyword| ==> w in done
    requires k < |t.scan(keyword)| && idx == t.scan(keyword)[k] && Progress(t, all, prior, done, keyword, k)
    ensures hit ==> HitSomewhere(t, all, keyword) && Scanned(all, spans, done + {keyword}, [], [])
    ensures !hit ==> Progress(t, all, spans, done, keyword, k + 1)
    ensures !hit ==> next == Behind(t.scan(keyword), k)
  {
    OccurrencesOccur(text, keyword, k);
    next := -1;
    var passes := Boundary(r, text, keyword, idx);
    hit, spans := Judge(t, keywords, all, done, keyword, prior, k, idx, passes, r.negated(text, idx, idx + |keyword|));
    if !hit { next := SearchOn(text, keyword, t.scan(keyword), k, idx); }
  }

  /** Sorted by length, everything longer than an entry comes before it. */
  lemma LongerComeBefore(order: seq<string>, i: nat, k: string)
    requires SortedBy(LongerFirst, order) && i < |order| && k in order && |k| > |order[i]|
    ensures k in order[..i]
  {
    var j :| 0 <= j < |order| && order[j] == k;
    assert i < j ==> LongerFirst(order[i], order[j]);
    assert order[..i][j] == k;
  }

  /** The hits and spans after the first i keywords of the length order. */
  ghost predicate Tallied(t: Reading, keywords: set<string>, all: set<Span>, order: seq<string>, i: nat,
                          hits: seq<string>, spans: seq<Span>)
  {
    && i <= |order| && hits == Filter(k => HitSomewhere(t, all, k), order[..i])
    && Scanned(all, spans, SetOf(order[..i]), [], [])
  }

  lemma TallyNext(t: Reading, keywords: set<string>, all: set<Span>, order: seq<string>, i: nat,
                  hits: seq<string>, spans: seq<Span>, hit: bool, next: seq<Span>)
    requires Sound(t) && Fixed(t, keywords, all) && i < |order| && Tallied(t, keywords, all, order, i, hits, spans)
    requires order[i] != [] ==>
             hit == HitSomewhere(t, all, order[i]) && Scanned(all, next, SetOf(order[..i]) + {order[i]}, [], [])
    requires order[i] == [] ==> !hit && next == spans
    ensures Tallied(t, keywords, all, order, i + 1, if hit then hits + [order[i]] else hits, next)
  {
    var keep := k => HitSomewhere(t, all, k);
    assert order[..i + 1] == order[..i] + [order[i]];
    assert SetOf(order[..i + 1]) == SetOf(order[..i]) + {order[i]};
    FilterAppend(keep, order[..i], [order[i]]);
    assert Filter(keep, [order[i]]) == if keep(order[i]) then [order[i]] else [];
    if order[i] == [] {
      assert Ascends(t.text, order[i], t.scan(order[i]));
      assert forall s :: s in all && s.word == [] ==> Records(t, all, s.word, s.start);
    }
  }

  method KeywordHits(r: Rules, text: string, keywords: seq<string>) returns (hits: seq<string>, negated: bool)
    ensures hits == HitList(r, text, keywords)
    ensures negated <==> Recorded(ReadingOf(r, text), SetOf(keywords)) != {}
  {
    ghost var t := TheReading(r, text);
    hits, negated := ScanAll(r, text, t, keywords);
  }

  /** The loop over the keywords, longest first. */
  method ScanAll(r: Rules, text: string, ghost t: Reading, keywords: seq<string>)
      returns (hits: seq<string>, negated: bool)
    requires Sound(t) && forall k :: Reads(t, r, text, k)
    ensures hits == Filter(k => Reported(t, SetOf(keywords), k), StableSort(LongerFirst, keywords))
    ensures negated <==> Recorded(t, SetOf(keywords)) != {}
  {
    ghost var given := SetOf(keywords);
    ghost var all := Recorded(t, given);
    RecordedIsFixed(t, given);
    var order := StableSort(LongerFirst, keywords);
    StableSortSorts(LongerFirst, keywords);
    SameElements(LongerFirst, keywords);
    var spans: seq<Span>;
    hits, spans := [], [];
    for i := 0 to |order|
      invariant Tallied(t, given, all, order, i, hits, spans)
    {
      var hit, next := false, spans;
      if order[i] != [] {
        forall k | k in given && |k| > |order[i]| ensures k in SetOf(order[..i]) { LongerComeBefore(order, i, k); }
        hit, next := ScanKeyword(r, text, t, given, all, SetOf(order[..i]), order[i], spans);
      }
      TallyNext(t, given, all, order, i, hits, spans, hit, next);
      if hit { hits := hits + [order[i]]; }
      spans := next;
    }
    assert order[..|order|] == order;
    negated := spans != [];
    assert forall s: Span :: s in all ==> s in spans;
    if spans != [] { assert spans[0] in all; }
    SameFilter(t, given, order);
  }

  lemma {:induction false} SameFilter(t: Reading, keywords: set<string>, xs: seq<string>)
    ensures Filter(k => HitSomewhere(t, Recorded(t, keywords), k), xs) == Filter(k => Reported(t, keywords, k), xs)
  {
    if xs != [] { SameFilter(t, keywords, xs[1..]); }
  }
}
