/**
 * JSON texts (RFC 8259, sections 2, 4, 5 and 7) and the proof that the brace
 * scanner recovers them. A text is printed from a value that also holds its
 * blanks and the spelling of its strings, so every way of writing a value down
 * is covered. The proof goes by what reading a piece of text does to the
 * scanner's depth and string state, piece by piece along the grammar.
 */
module JsonPrinter {
  import opened Wrappers
  import opened BalancedScan

  /** One character of a string: itself, a two-character escape, or \u with four hexadecimal digits. */
  datatype StrItem = Plain(c: char) | Escape(c: char) | Unicode(h1: char, h2: char, h3: char, h4: char)

  /** A concrete JSON text: every place where section 2 allows whitespace holds some. */
  datatype Json =
    | Word(text: string)                          // true, false, null or a number
    | Str(items: seq<StrItem>)
    | Arr(pad: string, elements: seq<Element>)
    | Obj(pad: string, members: seq<Member>)

  datatype Element = Element(before: string, value: Json, after: string)

  datatype Member =
      Member(before: string, key: seq<StrItem>, afterKey: string, beforeValue: string, value: Json, after: string)

  ghost predicate Blank(s: string) { forall c :: c in s ==> c in " \t\n\r" }

  ghost predicate Hex(c: char) { '0' <= c <= '9' || 'a' <= c <= 'f' || 'A' <= c <= 'F' }

  ghost predicate ValidItem(i: StrItem) {
    match i
    case Plain(c) => c != '"' && c != '\\' && c >= ' '
    case Escape(c) => c in "\"\\/bfnrt"
    case Unicode(a, b, c, d) => Hex(a) && Hex(b) && Hex(c) && Hex(d)
  }

  ghost predicate ValidWord(s: string) {
    s in ["true", "false", "null"] || (s != [] && forall c :: c in s ==> c in "0123456789+-.eE")
  }

  ghost predicate Valid(j: Json) {
    match j
    case Word(text) => ValidWord(text)
    case Str(items) => forall i :: i in items ==> ValidItem(i)
    case Arr(pad, es) => Blank(pad) && forall e :: e in es ==> Blank(e.before) && Valid(e.value) && Blank(e.after)
    case Obj(pad, ms) =>
      Blank(pad) && forall m :: m in ms ==>
        Blank(m.before) && (forall i :: i in m.key ==> ValidItem(i)) && Blank(m.afterKey) && Blank(m.beforeValue)
        && Valid(m.value) && Blank(m.after)
  }

  function PrintItem(i: StrItem): string {
    match i
    case Plain(c) => [c]
    case Escape(c) => ['\\', c]
    case Unicode(a, b, c, d) => ['\\', 'u', a, b, c, d]
  }

  function PrintItems(items: seq<StrItem>): string {
    if items == [] then [] else PrintItem(items[0]) + PrintItems(items[1..])
  }

  function Quoted(items: seq<StrItem>): string { ['"'] + PrintItems(items) + ['"'] }

  function Print(j: Json): string
    decreases j, 1
  {
    match j
    case Word(text) => text
    case Str(items) => Quoted(items)
    case Arr(pad, es) => ['['] + pad + PrintElements(es) + [']']
    case Obj(pad, ms) => ['{'] + pad + PrintMembers(ms) + ['}']
  }

  function PrintElements(es: seq<Element>): string
    decreases es, 0
  {
    if es == [] then []
    else
      es[0].before + Print(es[0].value) + es[0].after + (if |es| == 1 then [] else [',']) + PrintElements(es[1..])
  }

  function MemberText(m: Member, value: string): string {
    m.before + Quoted(m.key) + m.afterKey + [':'] + m.beforeValue + value + m.after
  }

  function PrintMembers(ms: seq<Member>): string
    decreases ms, 0
  {
    if ms == [] then []
    else
      MemberText(ms[0], Print(ms[0].value)) + (if |ms| == 1 then [] else [',']) + PrintMembers(ms[1..])
  }

  // ----- The texts, one part after the other

  lemma {:induction false} MoreItems(items: seq<StrItem>, i: StrItem)
    ensures PrintItems(items + [i]) == PrintItems(items) + PrintItem(i)
  {
    if items == [] {
      assert [] + [i] == [i] && [i][1..] == [];
    } else {
      assert (items + [i])[1..] == items[1..] + [i];
      MoreItems(items[1..], i);
    }
  }

  lemma Glued(first: string, rest: string, last: string, more: bool)
    requires !more ==> rest == ""
    ensures first + Comma(true) + (rest + Comma(more) + last) == first + Comma(more) + rest + Comma(true) + last
  {
  }

  function ElementText(e: Element): string { e.before + Print(e.value) + e.after }

  function Comma(more: bool): string { if more then [','] else [] }

  lemma FirstElement(e: Element, es: seq<Element>)
    ensures PrintElements([e] + es) == ElementText(e) + Comma(es != []) + PrintElements(es)
  {
    assert ([e] + es)[1..] == es;
  }

  /** The elements of an array stand between commas. */
  lemma {:induction false} MoreElements(es: seq<Element>, e: Element)
    ensures PrintElements(es + [e]) == PrintElements(es) + Comma(es != []) + ElementText(e)
  {
    if es == [] {
      assert [] + [e] == [e] + [];
      FirstElement(e, []);
    } else {
      assert es + [e] == [es[0]] + (es[1..] + [e]) && es == [es[0]] + es[1..];
      MoreElements(es[1..], e);
      FirstElement(es[0], es[1..] + [e]);
      FirstElement(es[0], es[1..]);
      Glued(ElementText(es[0]), PrintElements(es[1..]), ElementText(e), es[1..] != []);
    }
  }

  lemma FirstMember(m: Member, ms: seq<Member>)
    ensures PrintMembers([m] + ms) == MemberText(m, Print(m.value)) + Comma(ms != []) + PrintMembers(ms)
  {
    assert ([m] + ms)[1..] == ms;
  }

  /** So do the members of an object. */
  lemma {:induction false} MoreMembers(ms: seq<Member>, m: Member)
    ensures PrintMembers(ms + [m]) == PrintMembers(ms) + Comma(ms != []) + MemberText(m, Print(m.value))
  {
    if ms == [] {
      assert [] + [m] == [m] + [];
      FirstMember(m, []);
    } else {
      assert ms + [m] == [ms[0]] + (ms[1..] + [m]) && ms == [ms[0]] + ms[1..];
      MoreMembers(ms[1..], m);
      FirstMember(ms[0], ms[1..] + [m]);
      FirstMember(ms[0], ms[1..]);
      var first, last := MemberText(ms[0], Print(ms[0].value)), MemberText(m, Print(m.value));
      Glued(first, PrintMembers(ms[1..]), last, ms[1..] != []);
    }
  }

  // ----- Reading a printed value leaves the scanner where it was

  /** Reading `text` outside strings at depth d never goes below d and ends at d, outside strings. */
  ghost predicate Level(text: string) {
    forall d: int ::
        Fold(Scan(d, false, false), text) == Scan(d, false, false) && StaysAbove(Scan(d, false, false), text, d)
  }

  ghost predicate StaysAbove(s: Scan, text: string, d: int) {
    forall k :: 0 <= k <= |text| ==> Fold(s, text[..k]).depth >= d
  }

  lemma StaysAboveAppend(s: Scan, a: string, b: string, d: int)
    requires StaysAbove(s, a, d) && StaysAbove(Fold(s, a), b, d)
    ensures StaysAbove(s, a + b, d)
  {
    forall k | 0 <= k <= |a + b| ensures Fold(s, (a + b)[..k]).depth >= d {
      if k <= |a| {
        assert (a + b)[..k] == a[..k];
      } else {
        assert (a + b)[..k] == a + b[..k - |a|];
        FoldAppend(s, a, b[..k - |a|]);
      }
    }
  }

  lemma LevelAppend(a: string, b: string)
    requires Level(a) && Level(b)
    ensures Level(a + b)
  {
    forall d: int ensures Fold(Scan(d, false, false), a + b) == Scan(d, false, false)
                          && StaysAbove(Scan(d, false, false), a + b, d) {
      FoldAppend(Scan(d, false, false), a, b);
      StaysAboveAppend(Scan(d, false, false), a, b, d);
    }
  }

  predicate Quiet(c: char) { c != '"' && c != '{' && c != '}' }

  lemma {:induction false} QuietFold(s: Scan, text: string)
    requires !s.inString && forall c :: c in text ==> Quiet(c)
    ensures Fold(s, text) == s
    decreases |text|
  {
    if text != [] {
      assert text[0] in text;
      QuietFold(s, text[1..]);
    }
  }

  lemma QuietLevel(text: string)
    requires forall c :: c in text ==> Quiet(c)
    ensures Level(text)
  {
    forall d: int, k | 0 <= k <= |text| ensures Fold(Scan(d, false, false), text[..k]) == Scan(d, false, false) {
      QuietFold(Scan(d, false, false), text[..k]);
    }
    assert text[..|text|] == text;
  }

  lemma {:induction false} InStringDepth(s: Scan, items: seq<StrItem>)
    requires s.inString && !s.escaped && forall i :: i in items ==> ValidItem(i)
    ensures Fold(s, PrintItems(items)) == s && StaysAbove(s, PrintItems(items), s.depth)
    decreases |items|
  {
    if items != [] {
      var head, tail := PrintItem(items[0]), PrintItems(items[1..]);
      assert items[0] in items;
      ItemFold(s, items[0]);
      InStringDepth(s, items[1..]);
      FoldAppend(s, head, tail);
      StaysAboveAppend(s, head, tail, s.depth);
    }
  }

  lemma OneStep(s: Scan, c: char, rest: string)
    ensures Fold(s, [c] + rest) == Fold(Step(s, c), rest)
  {
    assert ([c] + rest)[1..] == rest;
  }

  lemma ItemFold(s: Scan, i: StrItem)
    requires s.inString && !s.escaped && ValidItem(i)
    ensures Fold(s, PrintItem(i)) == s && StaysAbove(s, PrintItem(i), s.depth)
  {
    var text := PrintItem(i);
    forall k | 0 <= k <= |text|
      ensures Fold(s, text[..k]) == if k == 1 && text[0] == '\\' then s.(escaped := true) else s
    {
      if k > 0 { OneStep(s, text[0], text[1..k]); assert text[..k] == [text[0]] + text[1..k]; }
      if k > 1 { OneStep(Step(s, text[0]), text[1], text[2..k]); assert text[1..k] == [text[1]] + text[2..k]; }
      if k > 2 { HexFold(s, text[2..k]); }
    }
    assert text[..|text|] == text;
  }

  lemma {:induction false} HexFold(s: Scan, text: string)
    requires s.inString && !s.escaped && forall c :: c in text ==> Hex(c)
    ensures Fold(s, text) == s
    decreases |text|
  {
    if text != [] {
      assert text[0] in text;
      HexFold(s, text[1..]);
    }
  }

  lemma QuotedLevel(items: seq<StrItem>)
    requires forall i :: i in items ==> ValidItem(i)
    ensures Level(Quoted(items))
  {
    var inner := PrintItems(items);
    forall d: int ensures Fold(Scan(d, false, false), Quoted(items)) == Scan(d, false, false)
                          && StaysAbove(Scan(d, false, false), Quoted(items), d) {
      var s, t := Scan(d, false, false), Scan(d, true, false);
      OneStep(s, '"', []);
      OneStep(t, '"', []);
      InStringDepth(t, items);
      FoldAppend(s, ['"'], inner);
      StaysAboveSingle(s, '"', d);
      StaysAboveAppend(s, ['"'], inner, d);
      FoldAppend(s, ['"'] + inner, ['"']);
      StaysAboveSingle(t, '"', d);
      StaysAboveAppend(s, ['"'] + inner, ['"'], d);
    }
  }

  lemma StaysAboveSingle(s: Scan, c: char, d: int)
    requires s.depth >= d && Step(s, c).depth >= d
    ensures StaysAbove(s, [c], d) && Fold(s, [c]) == Step(s, c)
  {
    OneStep(s, c, []);
    assert [c] + [] == [c];
    forall k | 0 <= k <= 1 ensures Fold(s, [c][..k]).depth >= d {
      assert [c][..0] == [] && [c][..1] == [c];
    }
  }

  lemma BracedPrefix(s: Scan, inner: string, k: nat)
    requires !s.inString && !s.escaped && Level(inner) && 0 < k <= 1 + |inner|
    ensures Fold(s, (['{'] + inner + ['}'])[..k]).depth > s.depth
  {
    var t := Scan(s.depth + 1, false, false);
    assert StaysAbove(t, inner, s.depth + 1);
    assert Fold(t, inner[..k - 1]).depth >= s.depth + 1;
    OneStep(s, '{', inner[..k - 1]);
    assert Step(s, '{') == t;
    assert (['{'] + inner + ['}'])[..k] == ['{'] + inner[..k - 1];
  }

  /** Braces around level text bring the scanner back to where it was. */
  lemma BracedFold(s: Scan, inner: string)
    requires !s.inString && !s.escaped && Level(inner)
    ensures Fold(s, ['{'] + inner + ['}']) == s
  {
    var t := Scan(s.depth + 1, false, false);
    assert Fold(t, inner) == t;
    OneStep(s, '{', inner);
    FoldAppend(s, ['{'] + inner, ['}']);
    OneStep(t, '}', []);
    assert ['}'] + [] == ['}'];
  }

  lemma BracedLevel(inner: string)
    requires Level(inner)
    ensures Level(['{'] + inner + ['}'])
  {
    var text := ['{'] + inner + ['}'];
    forall d: int ensures Fold(Scan(d, false, false), text) == Scan(d, false, false)
                          && StaysAbove(Scan(d, false, false), text, d) {
      var s := Scan(d, false, false);
      BracedFold(s, inner);
      forall k | 0 <= k <= |text| ensures Fold(s, text[..k]).depth >= d {
        if k == |text| { assert text[..k] == text; } else if k > 0 { BracedPrefix(s, inner, k); }
      }
    }
  }

  lemma WordIsQuiet(text: string)
    requires ValidWord(text)
    ensures forall c :: c in text ==> Quiet(c)
  {
    assert forall c :: c in "true" || c in "false" || c in "null" || c in "0123456789+-.eE" ==> Quiet(c);
  }

  lemma {:induction false} PrintLevel(j: Json)
    requires Valid(j)
    ensures Level(Print(j))
    decreases j, 1
  {
    match j {
      case Word(text) =>
        WordIsQuiet(text);
        QuietLevel(text);
      case Str(items) =>
        QuotedLevel(items);
      case Arr(pad, es) =>
        ElementsLevel(es);
        ArrayLevel(pad, PrintElements(es));
      case Obj(pad, ms) =>
        MembersLevel(ms);
        ObjectLevel(pad, PrintMembers(ms));
    }
  }

  lemma ArrayLevel(pad: string, inner: string)
    requires Blank(pad) && Level(inner)
    ensures Level(['['] + pad + inner + [']'])
  {
    QuietLevel(['['] + pad);
    QuietLevel([']']);
    LevelAppend(['['] + pad, inner);
    LevelAppend(['['] + pad + inner, [']']);
  }

  lemma ObjectLevel(pad: string, inner: string)
    requires Blank(pad) && Level(inner)
    ensures Level(['{'] + pad + inner + ['}'])
  {
    QuietLevel(pad);
    LevelAppend(pad, inner);
    BracedLevel(pad + inner);
    assert ['{'] + pad + inner + ['}'] == ['{'] + (pad + inner) + ['}'];
  }

  lemma {:induction false} ElementsLevel(es: seq<Element>)
    requires forall e :: e in es ==> Blank(e.before) && Valid(e.value) && Blank(e.after)
    ensures Level(PrintElements(es))
    decreases es, 0
  {
    if es == [] {
      QuietLevel([]);
    } else {
      var e := es[0];
      assert e in es;
      var comma := if |es| == 1 then [] else [','];
      QuietLevel(e.before);
      PrintLevel(e.value);
      QuietLevel(e.after);
      QuietLevel(comma);
      ElementsLevel(es[1..]);
      LevelAppend(e.before, Print(e.value));
      LevelAppend(e.before + Print(e.value), e.after);
      LevelAppend(e.before + Print(e.value) + e.after, comma);
      LevelAppend(e.before + Print(e.value) + e.after + comma, PrintElements(es[1..]));
    }
  }

  lemma {:induction false} MembersLevel(ms: seq<Member>)
    requires forall m :: m in ms ==>
               Blank(m.before) && (forall i :: i in m.key ==> ValidItem(i)) && Blank(m.afterKey) && Blank(m.beforeValue)
               && Valid(m.value) && Blank(m.after)
    ensures Level(PrintMembers(ms))
    decreases ms, 0
  {
    if ms == [] {
      QuietLevel([]);
    } else {
      var m := ms[0];
      assert m in ms;
      var comma := if |ms| == 1 then [] else [','];
      PrintLevel(m.value);
      MemberLevel(m, Print(m.value), comma);
      MembersLevel(ms[1..]);
      LevelAppend(MemberText(m, Print(m.value)) + comma, PrintMembers(ms[1..]));
    }
  }

  lemma MemberLevel(m: Member, value: string, comma: string)
    requires Blank(m.before) && (forall i :: i in m.key ==> ValidItem(i)) && Blank(m.afterKey) && Blank(m.beforeValue)
             && Blank(m.after)
    requires Level(value) && (comma == [] || comma == [','])
    ensures Level(MemberText(m, value) + comma)
  {
    QuietLevel(m.before);
    QuotedLevel(m.key);
    LevelAppend(m.before, Quoted(m.key));
    QuietLevel(m.afterKey);
    LevelAppend(m.before + Quoted(m.key), m.afterKey);
    QuietLevel([':']);
    LevelAppend(m.before + Quoted(m.key) + m.afterKey, [':']);
    QuietLevel(m.beforeValue);
    LevelAppend(m.before + Quoted(m.key) + m.afterKey + [':'], m.beforeValue);
    LevelAppend(m.before + Quoted(m.key) + m.afterKey + [':'] + m.beforeValue, value);
    QuietLevel(m.after);
    LevelAppend(m.before + Quoted(m.key) + m.afterKey + [':'] + m.beforeValue + value, m.after);
    QuietLevel(comma);
    LevelAppend(MemberText(m, value), comma);
  }

  // ----- Main results

  ghost predicate IsObject(o: Json) { o.Obj? && Valid(o) }

  ghost predicate AreObjects(objects: seq<Json>) { forall i :: 0 <= i < |objects| ==> IsObject(objects[i]) }

  predicate BraceFree(gaps: seq<string>) { forall i :: 0 <= i < |gaps| ==> '{' !in gaps[i] }

  /** A reply: objects separated by prose that holds no opening brace. */
  function Reply(gaps: seq<string>, objects: seq<Json>): string
    requires |gaps| == |objects| + 1
    decreases |objects|
  {
    if objects == [] then gaps[0] else gaps[0] + Print(objects[0]) + Reply(gaps[1..], objects[1..])
  }

  lemma ObjectBalanced(text: string, start: nat, o: Json)
    requires IsObject(o)
    requires start + |Print(o)| <= |text| && text[start..start + |Print(o)|] == Print(o)
    ensures Balanced(text, start, start + |Print(o)|) && !Unclosed(text, start)
  {
    var inner := o.pad + PrintMembers(o.members);
    assert Print(o) == ['{'] + inner + ['}'];
    QuietLevel(o.pad);
    MembersLevel(o.members);
    LevelAppend(o.pad, PrintMembers(o.members));
    BracedBalanced(text, start, inner);
  }

  lemma BracedBalanced(text: string, start: nat, inner: string)
    requires Level(inner) && start + |inner| + 2 <= |text|
    requires text[start..start + |inner| + 2] == ['{'] + inner + ['}']
    ensures Balanced(text, start, start + |inner| + 2) && !Unclosed(text, start)
  {
    var p, end := ['{'] + inner + ['}'], start + |inner| + 2;
    BracedFold(START, inner);
    assert At(text, start, end).depth == 0;
    forall k | start < k < end ensures At(text, start, k).depth > 0 {
      assert text[start..k] == p[..k - start];
      BracedPrefix(START, inner, k - start);
    }
  }

  lemma {:induction false} FirstBrace(text: string, from: nat, brace: nat)
    requires from <= brace < |text| && text[brace] == '{' && '{' !in text[from..brace]
    ensures FindBrace(text, from) == brace
    decreases brace - from
  {
    if from < brace {
      assert text[from..brace] == [text[from]] + text[from + 1..brace];
      FirstBrace(text, from + 1, brace);
    }
  }

  lemma {:induction false} NoBrace(text: string, from: nat)
    requires from <= |text| && '{' !in text[from..]
    ensures FindBrace(text, from) == |text|
    decreases |text| - from
  {
    if from < |text| {
      assert text[from..] == [text[from]] + text[from + 1..];
      NoBrace(text, from + 1);
    }
  }

  /** A brace-free gap and an object at the scanner's position become exactly one block. */
  lemma ObjectIsNextBlock(text: string, from: nat, start: nat, end: nat, o: Json, later: seq<Block>)
    requires from <= start <= end <= |text| && '{' !in text[from..start]
    requires IsObject(o) && text[start..end] == Print(o)
    requires BlocksFrom(text, end, later)
    ensures BlocksFrom(text, from, [Block(start, end)] + later)
  {
    assert |Print(o)| == end - start && Print(o)[0] == '{' && text[start..end][0] == text[start];
    FirstBrace(text, from, start);
    ObjectBalanced(text, start, o);
    var blocks := [Block(start, end)] + later;
    assert blocks[1..] == later;
  }

  /** From this position the scanner's blocks are the spans, and their texts the printed objects. */
  ghost predicate Recovers(text: string, from: nat, spans: seq<Block>, objects: seq<Json>)
    requires from <= |text|
  {
    BlocksFrom(text, from, spans) && InText(text, spans) && ArePrints(Texts(text, spans), objects)
  }

  ghost predicate ArePrints(texts: seq<string>, objects: seq<Json>) {
    |texts| == |objects| && forall i :: 0 <= i < |objects| ==> texts[i] == Print(objects[i])
  }

  ghost predicate Holds(text: string, from: nat, gaps: seq<string>, objects: seq<Json>) {
    |gaps| == |objects| + 1 && from <= |text| && text[from..] == Reply(gaps, objects)
  }

  /** Behind the first gap stands the first object, and behind that the rest of the reply. */
  lemma NextObject(text: string, from: nat, gaps: seq<string>, objects: seq<Json>) returns (start: nat, end: nat)
    requires Holds(text, from, gaps, objects) && objects != []
    ensures from <= start <= end <= |text|
    ensures text[from..start] == gaps[0] && text[start..end] == Print(objects[0])
    ensures Holds(text, end, gaps[1..], objects[1..])
  {
    var gap, p, rest := gaps[0], Print(objects[0]), Reply(gaps[1..], objects[1..]);
    start, end := from + |gap|, from + |gap| + |p|;
    var whole := gap + p + rest;
    assert text[from..start] == whole[..|gap|];
    assert text[start..end] == whole[|gap|..|gap| + |p|];
    assert text[end..] == whole[|gap| + |p|..];
  }

  lemma TextsCons(text: string, block: Block, later: seq<Block>)
    requires InText(text, later) && block.start <= block.end <= |text|
    ensures InText(text, [block] + later)
    ensures Texts(text, [block] + later) == [text[block.start..block.end]] + Texts(text, later)
  {
    assert ([block] + later)[1..] == later;
  }

  lemma RecoversOneMore(text: string, from: nat, start: nat, end: nat, later: seq<Block>, objects: seq<Json>)
    returns (spans: seq<Block>)
    requires objects != [] && IsObject(objects[0])
    requires from <= start <= end <= |text| && '{' !in text[from..start] && text[start..end] == Print(objects[0])
    requires Recovers(text, end, later, objects[1..])
    ensures Recovers(text, from, spans, objects)
  {
    spans := [Block(start, end)] + later;
    ObjectIsNextBlock(text, from, start, end, objects[0], later);
    TextsCons(text, Block(start, end), later);
    assert objects == [objects[0]] + objects[1..];
  }

  lemma {:induction false} ScanFindsObjects(text: string, from: nat, gaps: seq<string>, objects: seq<Json>)
    returns (spans: seq<Block>)
    requires Holds(text, from, gaps, objects) && BraceFree(gaps) && AreObjects(objects)
    ensures Recovers(text, from, spans, objects)
    decreases |objects|
  {
    if objects == [] {
      NoBrace(text, from);
      spans := [];
    } else {
      var start, end := NextObject(text, from, gaps, objects);
      var later := ScanFindsObjects(text, end, gaps[1..], objects[1..]);
      spans := RecoversOneMore(text, from, start, end, later, objects);
    }
  }

  lemma {:induction false} ParsedAll<V>(candidates: seq<string>, loads: string -> Option<V>, values: seq<V>)
    requires |candidates| == |values|
    requires forall i :: 0 <= i < |values| ==> loads(candidates[i]) == Some(values[i])
    ensures Parsed(candidates, loads) == values
  {
    if candidates != [] {
      ParsedAll(candidates[1..], loads, values[1..]);
    }
  }

  /** The scanner undoes the printer: whatever braces, quotes and escapes their strings hold, the objects of a reply
      come out all, in order, provided only that json.loads reads each of their texts. */
  lemma ScanUndoesPrint<V(!new)>(gaps: seq<string>, objects: seq<Json>, loads: string -> Option<V>, values: seq<V>)
    requires |gaps| == |objects| + 1 && |values| == |objects|
    requires BraceFree(gaps) && AreObjects(objects)
    requires forall i :: 0 <= i < |objects| ==> loads(Print(objects[i])) == Some(values[i])
    ensures forall found :: Yields(Reply(gaps, objects), loads, found) <==> found == values
  {
    var text := Reply(gaps, objects);
    var spans := ScanFindsObjects(text, 0, gaps, objects);
    ParsedAll(Texts(text, spans), loads, values);
    assert Yields(text, loads, values);
    forall found | Yields(text, loads, found) ensures found == values { YieldsOnce(text, loads, found, values); }
  }

  /** The first candidate of prose without an opening brace, an object and any text at all is exactly that object's
      text. */
  lemma FirstCandidate(gap: string, o: Json, rest: string, blocks: seq<Block>)
    requires '{' !in gap && IsObject(o)
    requires BlocksFrom(gap + Print(o) + rest, 0, blocks)
    ensures blocks != [] && blocks[0] == Block(|gap|, |gap| + |Print(o)|)
  {
    var text := gap + Print(o) + rest;
    var start, p := |gap|, Print(o);
    assert text[0..start] == gap && text[start..start + |p|] == p && p[0] == '{';
    assert text[start] == text[start..start + |p|][0];
    FirstBrace(text, 0, start);
    ObjectBalanced(text, start, o);
    BalancedOnce(text, start, blocks[0].end, start + |p|);
  }
}
