/** The string-aware balanced-brace scanner that finds JSON objects in a model's reply. */
module BalancedScan {
  import opened Wrappers

  // ----- The scanner's state machine

  datatype Scan = Scan(depth: int, inString: bool, escaped: bool)

  const START := Scan(0, false, false)

  function Step(s: Scan, ch: char): Scan {
    if s.inString then
      if s.escaped then s.(escaped := false)
      else if ch == '\\' then s.(escaped := true)
      else if ch == '"' then s.(inString := false)
      else s
    else if ch == '"' then s.(inString := true)
    else if ch == '{' then s.(depth := s.depth + 1)
    else if ch == '}' then s.(depth := s.depth - 1)
    else s
  }

  function Fold(s: Scan, text: string): Scan
    decreases |text|
  {
    if text == [] then s else Fold(Step(s, text[0]), text[1..])
  }

  lemma {:induction false} FoldAppend(s: Scan, a: string, b: string)
    ensures Fold(s, a + b) == Fold(Fold(s, a), b)
    decreases |a|
  {
    if a == [] {
      assert a + b == b;
    } else {
      assert (a + b)[1..] == a[1..] + b;
      FoldAppend(Step(s, a[0]), a[1..], b);
    }
  }

  function FindBrace(text: string, from: nat): (r: nat)
    requires from <= |text|
    ensures from <= r <= |text|
    ensures r < |text| ==> text[r] == '{'
    ensures '{' !in text[from..r]
    decreases |text| - from
  {
    if from == |text| || text[from] == '{' then from
    else
      var r := FindBrace(text, from + 1);
      assert text[from..r] == [text[from]] + text[from + 1..r];
      r
  }

  /** The machine's state after reading text[start..end). */
  function At(text: string, start: nat, end: nat): Scan
    requires start <= end <= |text|
  {
    Fold(START, text[start..end])
  }

  lemma AtNext(text: string, start: nat, index: nat)
    requires start <= index < |text|
    ensures At(text, start, index + 1) == Step(At(text, start, index), text[index])
  {
    assert text[start..index + 1] == text[start..index] + [text[index]];
    FoldAppend(START, text[start..index], [text[index]]);
    var s := At(text, start, index);
    assert Fold(s, [text[index]]) == Fold(Step(s, text[index]), []);
  }

  /** The candidate text[start..end) closes: its braces outside strings are matched for the first time at its end. */
  ghost predicate Balanced(text: string, start: nat, end: nat)
    requires start < end <= |text|
  {
    && At(text, start, end).depth == 0
    && forall k :: start < k < end ==> At(text, start, k).depth > 0
  }

  ghost predicate Unclosed(text: string, start: nat)
    requires start <= |text|
  {
    forall k :: start < k <= |text| ==> At(text, start, k).depth > 0
  }

  /** A candidate that starts at an opening brace either closes at exactly one place or never. */
  lemma BalancedOnce(text: string, start: nat, e1: nat, e2: nat)
    requires start < e1 <= |text| && start < e2 <= |text|
    requires Balanced(text, start, e1) && Balanced(text, start, e2)
    ensures e1 == e2
  {
  }

  datatype Block = Block(start: nat, end: nat)

  predicate InText(text: string, blocks: seq<Block>) {
    forall b :: b in blocks ==> b.start <= b.end <= |text|
  }

  /** The blocks the scan tries, in order: after a closed block it resumes behind it, otherwise one character on. */
  ghost predicate BlocksFrom(text: string, from: nat, blocks: seq<Block>)
    requires from <= |text|
    decreases |text| - from
  {
    var start := FindBrace(text, from);
    if start == |text| then blocks == []
    else if Unclosed(text, start) then BlocksFrom(text, start + 1, blocks)
    else
      && blocks != []
      && blocks[0].start == start < blocks[0].end <= |text| && Balanced(text, start, blocks[0].end)
      && BlocksFrom(text, blocks[0].end, blocks[1..])
  }

  function Texts(text: string, blocks: seq<Block>): seq<string>
    requires InText(text, blocks)
  {
    if blocks == [] then [] else [text[blocks[0].start..blocks[0].end]] + Texts(text, blocks[1..])
  }

  function Parsed<V>(candidates: seq<string>, loads: string -> Option<V>): seq<V> {
    if candidates == [] then []
    else (match loads(candidates[0]) case Some(v) => [v] case None => []) + Parsed(candidates[1..], loads)
  }

  lemma {:induction false} ParsedAppend<V>(xs: seq<string>, ys: seq<string>, loads: string -> Option<V>)
    ensures Parsed(xs + ys, loads) == Parsed(xs, loads) + Parsed(ys, loads)
  {
    if xs == [] {
      assert xs + ys == ys;
    } else {
      assert (xs + ys)[1..] == xs[1..] + ys;
      ParsedAppend(xs[1..], ys, loads);
    }
  }

  /** In any text at all, the blocks come in order, do not overlap and each starts at a brace it balances. */
  lemma {:induction false} BlocksInOrder(text: string, from: nat, blocks: seq<Block>)
    requires from <= |text| && BlocksFrom(text, from, blocks)
    ensures forall i :: 0 <= i < |blocks| ==>
            from <= blocks[i].start < blocks[i].end <= |text| && text[blocks[i].start] == '{'
    ensures forall i, j :: 0 <= i < j < |blocks| ==> blocks[i].end <= blocks[j].start
    decreases |text| - from
  {
    var start := FindBrace(text, from);
    if start < |text| {
      if Unclosed(text, start) {
        BlocksInOrder(text, start + 1, blocks);
      } else {
        BlocksInOrder(text, blocks[0].end, blocks[1..]);
        forall i | 1 <= i < |blocks|
            ensures blocks[0].end <= blocks[i].start < blocks[i].end <= |text| && text[blocks[i].start] == '{' {
          assert blocks[1..][i - 1] == blocks[i];
        }
        forall i, j | 0 <= i < j < |blocks| ensures blocks[i].end <= blocks[j].start {
          if i > 0 { assert blocks[1..][i - 1] == blocks[i] && blocks[1..][j - 1] == blocks[j]; }
        }
      }
    }
  }

  lemma {:induction false} BlocksUnique(text: string, from: nat, xs: seq<Block>, ys: seq<Block>)
    requires from <= |text| && BlocksFrom(text, from, xs) && BlocksFrom(text, from, ys)
    ensures xs == ys
    decreases |text| - from
  {
    var start := FindBrace(text, from);
    if start < |text| {
      if Unclosed(text, start) {
        BlocksUnique(text, start + 1, xs, ys);
      } else {
        BalancedOnce(text, start, xs[0].end, ys[0].end);
        BlocksUnique(text, xs[0].end, xs[1..], ys[1..]);
        assert xs == [xs[0]] + xs[1..] && ys == [ys[0]] + ys[1..];
      }
    }
  }

  // ----- The scanner

  /** The inner loop: where the candidate that starts here closes, if it does. */
  method CloseOf(text: string, start: nat) returns (end: Option<nat>)
    requires start < |text| && text[start] == '{'
    ensures end.Some? ==> start < end.value <= |text| && Balanced(text, start, end.value)
    ensures end.None? ==> Unclosed(text, start)
  {
    var depth, inString, escaped := 0, false, false;
    var index := start;
    while index < |text|
      invariant start <= index <= |text|
      invariant Scan(depth, inString, escaped) == At(text, start, index)
      invariant index > start ==> depth > 0
      invariant index == start ==> !inString
      invariant forall k :: start < k <= index ==> At(text, start, k).depth > 0
    {
      var ch := text[index];
      AtNext(text, start, index);
      if inString {
        if escaped {
          escaped := false;
        } else if ch == '\\' {
          escaped := true;
        } else if ch == '"' {
          inString := false;
        }
      } else if ch == '"' {
        inString := true;
      } else if ch == '{' {
        depth := depth + 1;
      } else if ch == '}' {
        depth := depth - 1;
        if depth == 0 { return Some(index + 1); }
      }
      index := index + 1;
    }
    return None;
  }

  /** What the scan has left to do at `from` completes the blocks it has already seen. */
  ghost predicate Continues(text: string, from: nat, seen: seq<Block>)
    requires from <= |text|
  {
    forall rest :: BlocksFrom(text, from, rest) ==> BlocksFrom(text, 0, seen + rest)
  }

  lemma ContinuesStep(text: string, from: nat, seen: seq<Block>, end: Option<nat>)
    requires from <= |text| && Continues(text, from, seen) && FindBrace(text, from) < |text|
    requires end.None? ==> Unclosed(text, FindBrace(text, from))
    requires end.Some? ==>
             FindBrace(text, from) < end.value <= |text| && Balanced(text, FindBrace(text, from), end.value)
    ensures var start := FindBrace(text, from);
            match end
            case None => Continues(text, start + 1, seen)
            case Some(e) => Continues(text, e, seen + [Block(start, e)])
  {
    var start := FindBrace(text, from);
    match end {
      case None =>
        forall rest | BlocksFrom(text, start + 1, rest) ensures BlocksFrom(text, 0, seen + rest) {
          assert BlocksFrom(text, from, rest);
        }
      case Some(e) =>
        assert !Unclosed(text, start) by { assert At(text, start, e).depth == 0; }
        forall rest | BlocksFrom(text, e, rest) ensures BlocksFrom(text, 0, seen + [Block(start, e)] + rest) {
          var longer := [Block(start, e)] + rest;
          assert longer[1..] == rest;
          assert BlocksFrom(text, from, longer);
          assert seen + [Block(start, e)] + rest == seen + longer;
        }
    }
  }

  /** Every balanced, parseable value of a reply, in order; `loads` stands for json.loads. */
  method BalancedJsonObjects<V(!new)>(text: string, loads: string -> Option<V>)
      returns (found: seq<V>, ghost blocks: seq<Block>)
    ensures BlocksFrom(text, 0, blocks)
    ensures InText(text, blocks)
    ensures found == Parsed(Texts(text, blocks), loads)
    ensures Yields(text, loads, found)
  {
    found, blocks := [], [];
    ghost var from: nat := 0;
    assert forall rest: seq<Block> :: [] + rest == rest;
    assert Continues(text, 0, blocks);
    var start := FindBrace(text, 0);
    while start < |text|
      invariant from <= |text| && start == FindBrace(text, from)
      invariant InText(text, blocks)
      invariant found == Parsed(Texts(text, blocks), loads)
      invariant Continues(text, from, blocks)
      decreases |text| - start
    {
      var nextStart := start + 1;
      var end := CloseOf(text, start);
      ghost var seen := blocks;
      if end.Some? {
        nextStart := end.value;
        var candidate := text[start..end.value];
        blocks := blocks + [Block(start, end.value)];
        TextsAppend(text, seen, Block(start, end.value));
        ParsedAppend(Texts(text, seen), [candidate], loads);
        match loads(candidate) {
          case None =>
          case Some(v) => found := found + [v];
        }
      }
      ContinuesStep(text, from, seen, end);
      from := nextStart;
      start := FindBrace(text, nextStart);
    }
    assert BlocksFrom(text, from, []);
    assert blocks + [] == blocks;
  }

  lemma {:induction false} TextsAppend(text: string, blocks: seq<Block>, b: Block)
    requires InText(text, blocks)
    requires b.start <= b.end <= |text|
    ensures Texts(text, blocks + [b]) == Texts(text, blocks) + [text[b.start..b.end]]
  {
    if blocks == [] {
      assert Texts(text, [b]) == [text[b.start..b.end]] + Texts(text, [b][1..]);
    } else {
      assert (blocks + [b])[1..] == blocks[1..] + [b];
      TextsAppend(text, blocks[1..], b);
    }
  }

  /** `found` is what a whole scan of the text yields. */
  ghost predicate Yields<V(!new)>(text: string, loads: string -> Option<V>, found: seq<V>) {
    exists blocks :: BlocksFrom(text, 0, blocks) && InText(text, blocks) && found == Parsed(Texts(text, blocks), loads)
  }

  lemma YieldsOnce<V(!new)>(text: string, loads: string -> Option<V>, xs: seq<V>, ys: seq<V>)
    requires Yields(text, loads, xs) && Yields(text, loads, ys)
    ensures xs == ys
  {
    var b :| BlocksFrom(text, 0, b) && InText(text, b) && xs == Parsed(Texts(text, b), loads);
    var c :| BlocksFrom(text, 0, c) && InText(text, c) && ys == Parsed(Texts(text, c), loads);
    BlocksUnique(text, 0, b, c);
  }

  /** parse_json_object: the first parsed value, kept only when it is an object. */
  method ParseJsonObject<V(!new)>(text: string, loads: string -> Option<V>, isObject: V -> bool) returns (r: Option<V>)
    ensures forall found :: Yields(text, loads, found) ==>
              r == if found != [] && isObject(found[0]) then Some(found[0]) else None
  {
    var found, blocks := BalancedJsonObjects(text, loads);
    forall other | Yields(text, loads, other) ensures other == found { YieldsOnce(text, loads, found, other); }
    r := if found != [] && isObject(found[0]) then Some(found[0]) else None;
  }

  ghost predicate LastObject<V>(found: seq<V>, isObject: V -> bool, r: Option<V>) {
    match r
    case None => forall v :: v in found ==> !isObject(v)
    case Some(v) => exists i :: 0 <= i < |found| && found[i] == v && isObject(v) &&
                                forall j :: i < j < |found| ==> !isObject(found[j])
  }

  lemma OneMoreFound<V>(found: seq<V>, v: V, isObject: V -> bool, r: Option<V>)
    requires LastObject(found, isObject, r)
    ensures LastObject(found + [v], isObject, if isObject(v) then Some(v) else r)
  {
    assert (found + [v])[|found|] == v;
    if r.Some? {
      var i :| 0 <= i < |found| && found[i] == r.value && isObject(r.value) &&
               forall j :: i < j < |found| ==> !isObject(found[j]);
      assert (found + [v])[i] == r.value;
    }
  }

  /** parse_last_json_object: the last parsed value that is an object. */
  method ParseLastJsonObject<V(!new)>(text: string, loads: string -> Option<V>, isObject: V -> bool)
      returns (r: Option<V>)
    ensures forall found :: Yields(text, loads, found) ==> LastObject(found, isObject, r)
  {
    var found, blocks := BalancedJsonObjects(text, loads);
    forall other | Yields(text, loads, other) ensures other == found { YieldsOnce(text, loads, found, other); }
    r := LastOf(found, isObject);
  }

  method LastOf<V>(found: seq<V>, isObject: V -> bool) returns (r: Option<V>)
    ensures LastObject(found, isObject, r)
  {
    r := None;
    for i := 0 to |found|
      invariant LastObject(found[..i], isObject, r)
    {
      OneMoreFound(found[..i], found[i], isObject, r);
      assert found[..i + 1] == found[..i] + [found[i]];
      if isObject(found[i]) {
        r := Some(found[i]);
      }
    }
    assert found[..|found|] == found;
  }
}
