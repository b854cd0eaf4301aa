/**
 * Blanking the negated mentions out of a fuzzy query before it reaches the
 * recall index. The code works on a character buffer and skips a mention that
 * lies inside one it has blanked before; the specification says of each
 * position on its own whether it is blanked. Skipping makes no difference,
 * because what is skipped is covered, and the order of keywords makes none
 * either.
 */
module Redaction {
  import opened Sorting
  import opened KeywordScan

  /** A stretch of the query; the token pattern's matches come in this form too. */
  datatype Stretch = Stretch(start: nat, end: nat)

  /** One flag per position of the text: set when the position is blanked. */
  function Mark(marks: seq<bool>, a: nat, b: nat): (r: seq<bool>)
    ensures |r| == |marks| && forall i :: 0 <= i < |marks| ==> r[i] == (marks[i] || a <= i < b)
  {
    seq(|marks|, i requires 0 <= i < |marks| => marks[i] || a <= i < b)
  }

  function Marks(length: nat, spans: seq<Stretch>): (r: seq<bool>)
    ensures |r| == length
  {
    if spans == [] then seq(length, _ => false)
    else Mark(Marks(length, spans[..|spans| - 1]), spans[|spans| - 1].start, spans[|spans| - 1].end)
  }

  /** The marks after the scan of a keyword has looked at these occurrences. */
  function MarkNegated(r: Rules, text: string, keyword: string, occ: seq<nat>, marks: seq<bool>): (m: seq<bool>)
    ensures |m| == |marks|
  {
    if occ == [] then marks
    else
      var a := occ[|occ| - 1];
      var m := MarkNegated(r, text, keyword, occ[..|occ| - 1], marks);
      if r.negated(text, a, a + |keyword|) then Mark(m, a, a + |keyword|) else m
  }

  function MarkKeywords(r: Rules, text: string, keywords: seq<string>, marks: seq<bool>): (m: seq<bool>)
    ensures |m| == |marks|
  {
    if keywords == [] then marks
    else
      var k := keywords[|keywords| - 1];
      MarkNegated(r, text, k, Occurrences(text, k, 0), MarkKeywords(r, text, keywords[..|keywords| - 1], marks))
  }

  function MarkTokens(r: Rules, text: string, tokens: seq<Stretch>, marks: seq<bool>): (m: seq<bool>)
    ensures |m| == |marks|
  {
    if tokens == [] then marks
    else
      var t := tokens[|tokens| - 1];
      var m := MarkTokens(r, text, tokens[..|tokens| - 1], marks);
      if r.negated(text, t.start, t.end) then Mark(m, t.start, t.end) else m
  }

  function Show(text: string, marks: seq<bool>): (r: string)
    requires |marks| == |text|
    ensures |r| == |text| && forall i :: 0 <= i < |text| ==> r[i] == if marks[i] then ' ' else text[i]
  {
    seq(|text|, i requires 0 <= i < |text| => if marks[i] then ' ' else text[i])
  }

  // ----- What is blanked does not depend on the order of the keywords

  predicate NegatedAmong(r: Rules, text: string, keyword: string, occ: seq<nat>, i: nat) {
    exists a :: a in occ && r.negated(text, a, a + |keyword|) && a <= i < a + |keyword|
  }

  predicate NegatedToken(r: Rules, text: string, tokens: seq<Stretch>, i: nat) {
    exists t :: t in tokens && r.negated(text, t.start, t.end) && t.start <= i < t.end
  }

  lemma AmongGrows(r: Rules, text: string, keyword: string, front: seq<nat>, last: nat, i: nat)
    ensures NegatedAmong(r, text, keyword, front + [last], i) <==>
            NegatedAmong(r, text, keyword, front, i)
                || (r.negated(text, last, last + |keyword|) && last <= i < last + |keyword|)
  {
    assert forall a :: a in front + [last] <==> a in front || a == last;
    if NegatedAmong(r, text, keyword, front + [last], i) {
      var a :| a in front + [last] && r.negated(text, a, a + |keyword|) && a <= i < a + |keyword|;
      if a in front { assert NegatedAmong(r, text, keyword, front, i); }
    }
    if NegatedAmong(r, text, keyword, front, i) {
      var a :| a in front && r.negated(text, a, a + |keyword|) && a <= i < a + |keyword|;
      assert a in front + [last];
    }
    assert last in front + [last];
  }

  lemma {:induction false} MarkNegatedIff(r: Rules, text: string, keyword: string, occ: seq<nat>, marks: seq<bool>,
                                          i: nat)
    requires i < |marks|
    ensures MarkNegated(r, text, keyword, occ, marks)[i] <==> marks[i] || NegatedAmong(r, text, keyword, occ, i)
  {
    if occ != [] {
      var front, last := occ[..|occ| - 1], occ[|occ| - 1];
      MarkNegatedIff(r, text, keyword, front, marks, i);
      AmongGrows(r, text, keyword, front, last, i);
      assert occ == front + [last];
    }
  }

  predicate NegatedByAny(r: Rules, text: string, keywords: seq<string>, i: nat) {
    exists k :: k in keywords && NegatedAmong(r, text, k, Occurrences(text, k, 0), i)
  }

  lemma AnyGrows(r: Rules, text: string, front: seq<string>, last: string, i: nat)
    ensures NegatedByAny(r, text, front + [last], i) <==>
            NegatedByAny(r, text, front, i) || NegatedAmong(r, text, last, Occurrences(text, last, 0), i)
  {
    if NegatedByAny(r, text, front + [last], i) {
      var k :| k in front + [last] && NegatedAmong(r, text, k, Occurrences(text, k, 0), i);
      if k in front { assert NegatedByAny(r, text, front, i); }
    }
    if NegatedByAny(r, text, front, i) {
      var k :| k in front && NegatedAmong(r, text, k, Occurrences(text, k, 0), i);
      assert k in front + [last];
    }
    assert last in front + [last];
  }

  lemma {:induction false} MarkKeywordsIff(r: Rules, text: string, keywords: seq<string>, marks: seq<bool>, i: nat)
    requires i < |marks|
    ensures MarkKeywords(r, text, keywords, marks)[i] <==> marks[i] || NegatedByAny(r, text, keywords, i)
  {
    if keywords != [] {
      var front, last := keywords[..|keywords| - 1], keywords[|keywords| - 1];
      MarkKeywordsIff(r, text, front, marks, i);
      MarkNegatedIff(r, text, last, Occurrences(text, last, 0), MarkKeywords(r, text, front, marks), i);
      AnyGrows(r, text, front, last, i);
      assert keywords == front + [last];
    }
  }

  lemma {:induction false} MarkTokensIff(r: Rules, text: string, tokens: seq<Stretch>, marks: seq<bool>, i: nat)
    requires i < |marks|
    ensures MarkTokens(r, text, tokens, marks)[i] <==> marks[i] || NegatedToken(r, text, tokens, i)
  {
    if tokens != [] {
      var front, last := tokens[..|tokens| - 1], tokens[|tokens| - 1];
      MarkTokensIff(r, text, front, marks, i);
      assert tokens == front + [last] && last in tokens;
      assert NegatedToken(r, text, tokens, i) <==>
             NegatedToken(r, text, front, i) || (r.negated(text, last.start, last.end) && last.start <= i < last.end);
    }
  }

  function Redacted(r: Rules, text: string, keywords: seq<string>, tokens: seq<Stretch>): string {
    Show(text, MarkTokens(r, text, tokens, MarkKeywords(r, text, StableSort(LongerFirst, keywords), Marks(|text|, []))))
  }

  /** A position is blanked exactly when it lies in a negated occurrence a keyword's scan meets or in a negated
      token. */
  lemma RedactedIff(r: Rules, text: string, keywords: seq<string>, tokens: seq<Stretch>, i: nat)
    requires i < |text|
    ensures Redacted(r, text, keywords, tokens)[i] ==
            if NegatedByAny(r, text, keywords, i) || NegatedToken(r, text, tokens, i) then ' ' else text[i]
  {
    var order := StableSort(LongerFirst, keywords);
    SameElements(LongerFirst, keywords);
    MarkKeywordsIff(r, text, order, Marks(|text|, []), i);
    MarkTokensIff(r, text, tokens, MarkKeywords(r, text, order, Marks(|text|, [])), i);
  }

  // ----- The loops

  method Blank(chars: array<char>, text: string, redacted: seq<Stretch>, a: nat, b: nat) returns (more: seq<Stretch>)
    requires chars[..] == Show(text, Marks(|text|, redacted)) && a <= b <= |text|
    modifies chars
    ensures Marks(|text|, more) == Mark(Marks(|text|, redacted), a, b)
    ensures chars[..] == Show(text, Marks(|text|, more))
  {
    more := redacted + [Stretch(a, b)];
    assert more[..|more| - 1] == redacted;
    ghost var marks := Marks(|text|, redacted);
    forall i | 0 <= i < |text| ensures chars[i] == if marks[i] then ' ' else text[i] {
      assert chars[i] == chars[..][i];
    }
    for k := a to b
      invariant forall i :: 0 <= i < |text| ==> chars[i] == if marks[i] || a <= i < k then ' ' else text[i]
    {
      chars[k] := ' ';
    }
  }

  lemma {:induction false} MarkedBySome(length: nat, spans: seq<Stretch>, k: nat, i: nat)
    requires k < |spans| && spans[k].start <= i < spans[k].end && i < length
    ensures Marks(length, spans)[i]
  {
    if k < |spans| - 1 { MarkedBySome(length, spans[..|spans| - 1], k, i); }
  }

  method Contained(text: string, spans: seq<Stretch>, a: nat, b: nat) returns (yes: bool)
    ensures yes ==> Mark(Marks(|text|, spans), a, b) == Marks(|text|, spans)
  {
    for k := 0 to |spans| {
      if spans[k].start <= a && b <= spans[k].end {
        forall i | 0 <= i < |text| && a <= i < b { MarkedBySome(|text|, spans, k, i); }
        return true;
      }
    }
    return false;
  }

  /** One stretch: blanked when it is negated, unless one already blanked contains it. */
  method RedactStretch(text: string, chars: array<char>, prior: seq<Stretch>, a: nat, b: nat, negated: bool)
      returns (redacted: seq<Stretch>)
    requires chars[..] == Show(text, Marks(|text|, prior)) && a <= b <= |text|
    modifies chars
    ensures chars[..] == Show(text, Marks(|text|, redacted))
    ensures Marks(|text|, redacted) == if negated then Mark(Marks(|text|, prior), a, b) else Marks(|text|, prior)
  {
    redacted := prior;
    var covered := Contained(text, prior, a, b);
    if !covered && negated { redacted := Blank(chars, text, prior, a, b); }
  }

  /** The blanking loop for one keyword. */
  method RedactKeyword(r: Rules, text: string, keyword: string, chars: array<char>, before: seq<Stretch>)
      returns (redacted: seq<Stretch>)
    requires keyword != [] && chars[..] == Show(text, Marks(|text|, before))
    modifies chars
    ensures chars[..] == Show(text, Marks(|text|, redacted))
    ensures Marks(|text|, redacted)
            == MarkNegated(r, text, keyword, Occurrences(text, keyword, 0), Marks(|text|, before))
  {
    ghost var occ := Occurrences(text, keyword, 0);
    ghost var marks := Marks(|text|, before);
    ghost var k: nat := 0;
    FindFirst(text, keyword, 0);
    redacted := before;
    var idx := Find(text, keyword, 0);
    while idx >= 0
      invariant k <= |occ| && idx == Behind(occ, k - 1)
      invariant chars[..] == Show(text, Marks(|text|, redacted))
      invariant Marks(|text|, redacted) == MarkNegated(r, text, keyword, occ[..k], marks)
      decreases |occ| - k
    {
      var next := SearchOn(text, keyword, occ, k, idx);
      redacted := RedactNext(r, text, keyword, chars, redacted, occ, k, marks, idx);
      k, idx := k + 1, next;
    }
    assert occ[..k] == occ;
  }

  method RedactNext(r: Rules, text: string, keyword: string, chars: array<char>, prior: seq<Stretch>,
                    ghost occ: seq<nat>, ghost k: nat, ghost marks: seq<bool>, idx: nat)
    returns (redacted: seq<Stretch>)
    requires k < |occ| && idx == occ[k] && idx + |keyword| <= |text|
    requires chars[..] == Show(text, Marks(|text|, prior)) && |marks| == |text|
    requires Marks(|text|, prior) == MarkNegated(r, text, keyword, occ[..k], marks)
    modifies chars
    ensures chars[..] == Show(text, Marks(|text|, redacted))
    ensures Marks(|text|, redacted) == MarkNegated(r, text, keyword, occ[..k + 1], marks)
  {
    redacted := RedactStretch(text, chars, prior, idx, idx + |keyword|, r.negated(text, idx, idx + |keyword|));
    MarkNegatedNext(r, text, keyword, occ, k, marks);
  }

  lemma MarkNegatedNext(r: Rules, text: string, keyword: string, occ: seq<nat>, k: nat, marks: seq<bool>)
    requires k < |occ|
    ensures var m := MarkNegated(r, text, keyword, occ[..k], marks);
            MarkNegated(r, text, keyword, occ[..k + 1], marks)
            == if r.negated(text, occ[k], occ[k] + |keyword|) then Mark(m, occ[k], occ[k] + |keyword|) else m
  {
    assert occ[..k + 1][..k] == occ[..k];
  }

  /** Negated mentions are blanked, everything else is kept. */
  method RedactNegatedKeywords(r: Rules, text: string, keywords: seq<string>, tokens: seq<Stretch>)
      returns (chars: array<char>)
    requires forall t :: t in tokens ==> t.start < t.end <= |text|
    ensures chars[..] == Redacted(r, text, keywords, tokens)
  {
    var order := StableSort(LongerFirst, keywords);
    ghost var none := Marks(|text|, []);
    chars := new char[|text|](i requires 0 <= i < |text| => text[i]);
    var redacted: seq<Stretch> := [];
    for k := 0 to |order|
      invariant fresh(chars) && chars[..] == Show(text, Marks(|text|, redacted))
      invariant Marks(|text|, redacted) == MarkKeywords(r, text, order[..k], none)
    {
      assert order[..k + 1][..k] == order[..k];
      assert order[k] == [] ==> Occurrences(text, order[k], 0) == [];
      if order[k] != [] { redacted := RedactKeyword(r, text, order[k], chars, redacted); }
    }
    assert order[..|order|] == order;
    for k := 0 to |tokens|
      invariant fresh(chars) && chars[..] == Show(text, Marks(|text|, redacted))
      invariant Marks(|text|, redacted) == MarkTokens(r, text, tokens[..k], MarkKeywords(r, text, order, none))
    {
      assert tokens[..k + 1][..k] == tokens[..k];
      redacted := RedactStretch(text, chars, redacted, tokens[k].start, tokens[k].end,
                                r.negated(text, tokens[k].start, tokens[k].end));
    }
    assert tokens[..|tokens|] == tokens;
  }
}
