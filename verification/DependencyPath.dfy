/** The check order of a component: a bounded breadth-first walk over a dependency graph with cycles. */
module DependencyPath {

  /** Component names; only their equality matters here. */
  type Name(==, !new)

  datatype Component = Component(dependsOn: seq<Name>, saasOnly: bool)
  type Graph = map<Name, Component>

  predicate Usable(g: Graph, name: Name) {
    name in g && !g[name].saasOnly
  }

  function DependsOn(g: Graph, name: Name): seq<Name> {
    if name in g then g[name].dependsOn else []
  }

  predicate Edge(g: Graph, from: Name, to: Name) {
    to in DependsOn(g, from) && Usable(g, to)
  }

  function Ring(g: Graph, near: set<Name>): set<Name>
  {
    set x, d | x in near && d in DependsOn(g, x) && Edge(g, x, d) :: d
  }

  /** The components at most `depth` dependency edges from the start. */
  function Within(g: Graph, start: Name, depth: int): set<Name>
    decreases if depth < 0 then 0 else depth
  {
    if depth <= 0 then {start}
    else Within(g, start, depth - 1) + Ring(g, Within(g, start, depth - 1))
  }

  /** A walk of dependency edges whose every step lands on a usable component. */
  ghost predicate IsWalk(g: Graph, start: Name, walk: seq<Name>)
    decreases |walk|
  {
    if |walk| <= 1 then walk == [start]
    else
      var before := walk[..|walk| - 1];
      IsWalk(g, start, before) && Leads(g, before[|before| - 1], walk[|walk| - 1])
  }

  /** The first depends on the second, which is known and not only part of the hosted product. */
  ghost predicate Leads(g: Graph, from: Name, to: Name) {
    from in g && to in g && !g[to].saasOnly && exists k :: 0 <= k < |g[from].dependsOn| && g[from].dependsOn[k] == to
  }

  lemma EdgeLeads(g: Graph, from: Name, to: Name)
    ensures Edge(g, from, to) <==> Leads(g, from, to)
  {
  }

  ghost predicate ReachedBy(g: Graph, start: Name, depth: int, x: Name, walk: seq<Name>) {
    IsWalk(g, start, walk) && 0 < |walk| <= depth + 1 && walk[|walk| - 1] == x
  }

  lemma WalkReaches(g: Graph, start: Name, depth: nat, x: Name, walk: seq<Name>)
    requires ReachedBy(g, start, depth, x, walk)
    ensures x in Within(g, start, depth)
  {
    WalkStaysWithin(g, start, walk);
    WithinMonotone(g, start, |walk| - 1, depth);
  }

  /** Distance is the length of a shortest walk. */
  lemma WithinIsReachable(g: Graph, start: Name, depth: nat, x: Name)
    ensures x in Within(g, start, depth) <==> exists walk :: ReachedBy(g, start, depth, x, walk)
  {
    if x in Within(g, start, depth) {
      var walk := WalkTo(g, start, depth, x);
      assert ReachedBy(g, start, depth, x, walk);
    }
    if walk :| ReachedBy(g, start, depth, x, walk) {
      WalkReaches(g, start, depth, x, walk);
    }
  }

  lemma {:induction false} WalkTo(g: Graph, start: Name, depth: nat, x: Name) returns (walk: seq<Name>)
    requires x in Within(g, start, depth)
    ensures ReachedBy(g, start, depth, x, walk)
  {
    if depth == 0 {
      walk := [start];
    } else if x in Within(g, start, depth - 1) {
      walk := WalkTo(g, start, depth - 1, x);
    } else {
      var parent :| parent in Within(g, start, depth - 1) && Edge(g, parent, x);
      EdgeLeads(g, parent, x);
      var before := WalkTo(g, start, depth - 1, parent);
      walk := before + [x];
      assert walk[..|walk| - 1] == before;
    }
  }

  lemma {:induction false} WalkStaysWithin(g: Graph, start: Name, walk: seq<Name>)
    requires IsWalk(g, start, walk)
    ensures walk != [] && walk[|walk| - 1] in Within(g, start, |walk| - 1)
    decreases |walk|
  {
    if 1 < |walk| {
      EdgeLeads(g, walk[|walk| - 2], walk[|walk| - 1]);
      WalkStaysWithin(g, start, walk[..|walk| - 1]);
    }
  }

  lemma {:induction false} WithinMonotone(g: Graph, start: Name, j: int, k: int)
    requires j <= k
    ensures Within(g, start, j) <= Within(g, start, k)
    decreases k - j
  {
    if 0 < k && j < k {
      WithinMonotone(g, start, j, k - 1);
    }
  }

  /** Everything but the start lies on the ring around the previous depth. */
  lemma {:induction false} WithinIsRing(g: Graph, start: Name, depth: nat)
    ensures Within(g, start, depth + 1) == {start} + Ring(g, Within(g, start, depth))
  {
    if 0 < depth {
      WithinIsRing(g, start, depth - 1);
      assert Within(g, start, depth - 1) <= Within(g, start, depth);
    }
  }

  // ---- The order of the walk

  /** The dependency lists of the given components, one after the other. */
  function Dependencies(g: Graph, names: seq<Name>): seq<Name> {
    if names == [] then []
    else Dependencies(g, names[..|names| - 1]) + DependsOn(g, names[|names| - 1])
  }

  function Elements(names: seq<Name>): set<Name> {
    if names == [] then {} else Elements(names[..|names| - 1]) + {names[|names| - 1]}
  }

  lemma {:induction false} InElements(names: seq<Name>, x: Name)
    ensures x in Elements(names) <==> x in names
  {
    if names != [] {
      InElements(names[..|names| - 1], x);
      assert names == names[..|names| - 1] + [names[|names| - 1]];
    }
  }

  /** The usable names of a list other than the start, each at its first occurrence. */
  function Firsts(g: Graph, start: Name, names: seq<Name>): seq<Name> {
    if names == [] then []
    else
      var init, last := names[..|names| - 1], names[|names| - 1];
      Firsts(g, start, init) +
      if last != start && last !in Elements(init) && Usable(g, last) then [last] else []
  }

  lemma {:induction false} DependenciesAppend(g: Graph, xs: seq<Name>, ys: seq<Name>)
    ensures Dependencies(g, xs + ys) == Dependencies(g, xs) + Dependencies(g, ys)
    decreases |ys|
  {
    if ys == [] {
      assert xs + ys == xs;
    } else {
      assert (xs + ys)[..|xs + ys| - 1] == xs + ys[..|ys| - 1];
      DependenciesAppend(g, xs, ys[..|ys| - 1]);
    }
  }

  lemma {:induction false} InDependencies(g: Graph, names: seq<Name>, d: Name)
    ensures d in Dependencies(g, names) <==> exists x :: x in names && d in DependsOn(g, x)
    decreases |names|
  {
    if names != [] {
      InDependencies(g, names[..|names| - 1], d);
      assert names == names[..|names| - 1] + [names[|names| - 1]];
    }
  }

  lemma {:induction false} InFirsts(g: Graph, start: Name, names: seq<Name>, d: Name)
    ensures d in Firsts(g, start, names) <==> d in names && d != start && Usable(g, d)
    decreases |names|
  {
    if names != [] {
      InFirsts(g, start, names[..|names| - 1], d);
      InElements(names[..|names| - 1], d);
      assert names == names[..|names| - 1] + [names[|names| - 1]];
    }
  }

  lemma FirstsSnoc(g: Graph, start: Name, was: seq<Name>, dep: Name)
    ensures Firsts(g, start, was + [dep])
         == Firsts(g, start, was) + if dep != start && dep !in Elements(was) && Usable(g, dep) then [dep] else []
    ensures Elements(was + [dep]) == Elements(was) + {dep}
  {
    assert (was + [dep])[..|was|] == was;
  }

  lemma Regroup(a: seq<Name>, b: seq<Name>, c: seq<Name>)
    ensures a + (b + c) == (a + b) + c
  {
  }

  lemma DependenciesSnoc(g: Graph, names: seq<Name>, x: Name)
    ensures Dependencies(g, names + [x]) == Dependencies(g, names) + DependsOn(g, x)
  {
    assert (names + [x])[..|names|] == names;
  }

  lemma {:induction false} FirstsGrow(g: Graph, start: Name, xs: seq<Name>, ys: seq<Name>)
    ensures Firsts(g, start, xs) <= Firsts(g, start, xs + ys)
    decreases |ys|
  {
    if ys == [] {
      assert xs + ys == xs;
    } else {
      var zs, y := xs + ys[..|ys| - 1], ys[|ys| - 1];
      FirstsGrow(g, start, xs, ys[..|ys| - 1]);
      FirstsSnoc(g, start, zs, y);
      assert xs + ys == zs + [y];
    }
  }

  lemma {:induction false} FirstsDistinct(g: Graph, start: Name, names: seq<Name>)
    ensures Distinct([start] + Firsts(g, start, names))
    decreases |names|
  {
    if names != [] {
      var init, last := names[..|names| - 1], names[|names| - 1];
      FirstsDistinct(g, start, init);
      InFirsts(g, start, init, last);
      InElements(init, last);
      var was := [start] + Firsts(g, start, init);
      assert [start] + Firsts(g, start, names) == was || [start] + Firsts(g, start, names) == was + [last];
      assert [start] + Firsts(g, start, names) == was + [last] ==> last !in was;
    }
  }

  ghost predicate Distinct(names: seq<Name>) {
    forall i, j :: 0 <= i < j < |names| ==> names[i] != names[j]
  }

  /**
   * The order the walk must produce: the start, then the usable dependencies
   * of everything one edge closer, in order of first mention.
   */
  function CheckOrder(g: Graph, start: Name, depth: int): seq<Name> {
    Iterate(path => Expand(g, start, path), [start], depth)
  }

  function Expand(g: Graph, start: Name, path: seq<Name>): seq<Name> {
    [start] + Firsts(g, start, Dependencies(g, path))
  }

  function Iterate<T>(f: T -> T, x: T, n: int): T
    decreases if n < 0 then 0 else n
  {
    if n <= 0 then x else f(Iterate(f, x, n - 1))
  }

  lemma {:induction false} IterateSettles<T>(f: T -> T, x: T, j: nat, k: nat)
    requires j <= k && Iterate(f, x, j + 1) == Iterate(f, x, j)
    ensures Iterate(f, x, k) == Iterate(f, x, j)
    decreases k
  {
    if j < k {
      IterateSettles(f, x, j, k - 1);
    }
  }

  lemma Deeper(g: Graph, start: Name, depth: nat)
    ensures CheckOrder(g, start, depth + 1) == Expand(g, start, CheckOrder(g, start, depth))
  {
  }

  /** The order lists exactly the components in reach, without repeats. */
  lemma {:induction false} OrderIsComplete(g: Graph, start: Name, depth: int)
    ensures Elements(CheckOrder(g, start, depth)) == Within(g, start, depth)
    ensures Distinct(CheckOrder(g, start, depth))
    decreases if depth < 0 then 0 else depth
  {
    if 0 < depth {
      OrderIsComplete(g, start, depth - 1);
      Deeper(g, start, depth - 1);
      NextRing(g, start, depth - 1, CheckOrder(g, start, depth - 1));
      FirstsDistinct(g, start, Dependencies(g, CheckOrder(g, start, depth - 1)));
    }
  }

  lemma NextRing(g: Graph, start: Name, depth: nat, path: seq<Name>)
    requires Elements(path) == Within(g, start, depth)
    ensures Elements([start] + Firsts(g, start, Dependencies(g, path))) == Within(g, start, depth + 1)
  {
    var near, next := Within(g, start, depth), [start] + Firsts(g, start, Dependencies(g, path));
    forall x ensures x in path <==> x in near { InElements(path, x); }
    WithinIsRing(g, start, depth);
    forall d ensures d in Elements(next) <==> d in {start} + Ring(g, near) {
      InFirsts(g, start, Dependencies(g, path), d);
      InDependencies(g, path, d);
      InElements(next, d);
      assert d in Ring(g, near) <==> exists x :: x in near && Edge(g, x, d);
    }
  }

  lemma ExpandGrows(g: Graph, start: Name, near: seq<Name>, far: seq<Name>)
    requires near <= far
    ensures Expand(g, start, near) <= Expand(g, start, far)
  {
    var more := far[|near|..];
    assert far == near + more;
    DependenciesAppend(g, near, more);
    FirstsGrow(g, start, Dependencies(g, near), Dependencies(g, more));
  }

  /** Longer lists expand to longer lists, and every expansion begins with `x`. */
  ghost predicate Extending<T(!new)>(f: seq<T> -> seq<T>, x: seq<T>) {
    (forall y :: Begins(f, x, y)) && forall a, b :: Follows(f, a, b)
  }

  predicate Begins<T(==)>(f: seq<T> -> seq<T>, x: seq<T>, y: seq<T>) { x <= f(y) }

  predicate Follows<T(==)>(f: seq<T> -> seq<T>, a: seq<T>, b: seq<T>) { a <= b ==> f(a) <= f(b) }

  lemma ExtendsPair<T(!new)>(f: seq<T> -> seq<T>, x: seq<T>, a: seq<T>, b: seq<T>)
    requires Extending(f, x)
    ensures x <= f(b) && (a <= b ==> f(a) <= f(b))
  {
    assert Begins(f, x, b) && Follows(f, a, b);
  }

  lemma OneRound<T>(f: seq<T> -> seq<T>, x: seq<T>, k: int)
    ensures Iterate(f, x, k) == if k <= 0 then x else f(Iterate(f, x, k - 1))
  {
  }

  lemma {:induction false} IterateGrows<T(!new)>(f: seq<T> -> seq<T>, x: seq<T>, j: int, k: int)
    requires j <= k && Extending(f, x)
    ensures Iterate(f, x, j) <= Iterate(f, x, k)
    decreases if k < 0 then 0 else k
  {
    if 0 < k {
      OneRound(f, x, k);
      if 0 < j {
        OneRound(f, x, j);
        IterateGrows(f, x, j - 1, k - 1);
      }
      ExtendsPair(f, x, Iterate(f, x, j - 1), Iterate(f, x, k - 1));
    }
  }

  /** Looking further only appends. */
  lemma OrderGrows(g: Graph, start: Name, j: int, k: int)
    requires j <= k
    ensures CheckOrder(g, start, j) <= CheckOrder(g, start, k)
  {
    var f := path => Expand(g, start, path);
    forall a, b ensures Follows(f, a, b) {
      if a <= b { ExpandGrows(g, start, a, b); }
    }
    IterateGrows(f, [start], j, k);
  }

  /** No component comes before one that is strictly closer to the start. */
  lemma NearestFirst(g: Graph, start: Name, maxDepth: int, i: nat, j: nat, depth: int)
    requires i < j < |CheckOrder(g, start, maxDepth)| && CheckOrder(g, start, maxDepth)[j] in Within(g, start, depth)
    ensures CheckOrder(g, start, maxDepth)[i] in Within(g, start, depth)
  {
    var order, near := CheckOrder(g, start, maxDepth), CheckOrder(g, start, depth);
    OrderIsComplete(g, start, maxDepth);
    OrderIsComplete(g, start, depth);
    InElements(order, order[i]);
    InElements(near, order[i]);
    InElements(near, order[j]);
    if depth <= maxDepth {
      OrderGrows(g, start, depth, maxDepth);
      var at :| 0 <= at < |near| && near[at] == order[j];
      assert at == j && near[i] == order[i];
    } else {
      WithinMonotone(g, start, maxDepth, depth);
    }
  }

  /** The p-th component lists x as its k-th dependency. */
  ghost predicate Mentions(g: Graph, near: seq<Name>, p: int, k: int, x: Name) {
    0 <= p < |near| && near[p] in g && 0 <= k < |g[near[p]].dependsOn| && g[near[p]].dependsOn[k] == x
  }

  /** The dependencies looked at before the p-th component's k-th one. */
  ghost function MentionedBefore(g: Graph, near: seq<Name>, p: nat, k: nat): seq<Name>
    requires p < |near| && k <= |DependsOn(g, near[p])|
  {
    Dependencies(g, near[..p]) + DependsOn(g, near[p])[..k]
  }

  lemma UpTo(a: seq<Name>, b: seq<Name>, c: seq<Name>, k: nat)
    requires k < |b|
    ensures a + b[..k] + [b[k]] <= a + b + c
  {
    assert a + b[..k] + [b[k]] == (a + b + c)[..|a| + k + 1];
  }

  lemma MentionAt(g: Graph, near: seq<Name>, p: nat, k: nat)
    requires p < |near| && k < |DependsOn(g, near[p])|
    ensures MentionedBefore(g, near, p, k) + [DependsOn(g, near[p])[k]] <= Dependencies(g, near)
  {
    var deps, first, more := DependsOn(g, near[p]), near[..p] + [near[p]], near[p + 1..];
    assert near == first + more;
    DependenciesAppend(g, first, more);
    DependenciesSnoc(g, near[..p], near[p]);
    UpTo(Dependencies(g, near[..p]), deps, Dependencies(g, more), k);
  }

  lemma MentionedEarlier(g: Graph, near: seq<Name>, p: nat, k: nat, x: Name)
    requires p < |near| && k <= |DependsOn(g, near[p])| && x in MentionedBefore(g, near, p, k)
    ensures exists p', k' :: Mentions(g, near, p', k', x) && (p' < p || (p' == p && k' < k))
  {
    if x in Dependencies(g, near[..p]) {
      InDependencies(g, near[..p], x);
      var y :| y in near[..p] && x in DependsOn(g, y);
      var p' :| 0 <= p' < p && near[p'] == y;
      var k' :| 0 <= k' < |DependsOn(g, y)| && DependsOn(g, y)[k'] == x;
      assert Mentions(g, near, p', k', x);
    } else {
      var k' :| 0 <= k' < k && DependsOn(g, near[p])[k'] == x;
      assert Mentions(g, near, p, k', x);
    }
  }

  lemma OnePlace(names: seq<Name>, i: nat, j: nat)
    requires Distinct(names) && i < |names| && j < |names| && names[i] == names[j]
    ensures i == j
  {
  }

  /** The first occurrences up to a name's own one hold everything that comes before it. */
  lemma FirstsUpTo(g: Graph, start: Name, was: seq<Name>, all: seq<Name>, j: nat)
    requires was <= all && j < |Firsts(g, start, all)| && Firsts(g, start, all)[j] in was
    ensures j < |Firsts(g, start, was)|
  {
    var few, many := Firsts(g, start, was), Firsts(g, start, all);
    assert all == was + all[|was|..];
    FirstsGrow(g, start, was, all[|was|..]);
    InFirsts(g, start, all, many[j]);
    InFirsts(g, start, was, many[j]);
    var at :| 0 <= at < |few| && few[at] == many[j];
    FirstsDistinct(g, start, all);
    OnePlace([start] + many, at + 1, j + 1);
  }

  lemma EarlierIsMentioned(g: Graph, start: Name, was: seq<Name>, x: Name, all: seq<Name>, i: nat, j: nat)
    requires was + [x] <= all && i < j < |Firsts(g, start, all)| && x == Firsts(g, start, all)[j]
    ensures Firsts(g, start, all)[i] in was
  {
    FirstsUpTo(g, start, was + [x], all, j);
    FirstsSnoc(g, start, was, x);
    assert all == was + all[|was|..];
    FirstsGrow(g, start, was, all[|was|..]);
    assert Firsts(g, start, all)[i] == Firsts(g, start, was)[i];
    InFirsts(g, start, was, Firsts(g, start, all)[i]);
  }

  /** Of two components the earlier one is mentioned before any mention of the later one. */
  lemma FirstMentionFirst(g: Graph, start: Name, depth: nat, i: nat, j: nat, p: nat, k: nat)
    requires var order, near := CheckOrder(g, start, depth + 1), CheckOrder(g, start, depth);
      0 < i < j < |order| && Mentions(g, near, p, k, order[j])
    ensures var order, near := CheckOrder(g, start, depth + 1), CheckOrder(g, start, depth);
      exists p', k' :: Mentions(g, near, p', k', order[i]) && (p' < p || (p' == p && k' < k))
  {
    var order, near := CheckOrder(g, start, depth + 1), CheckOrder(g, start, depth);
    Deeper(g, start, depth);
    MentionAt(g, near, p, k);
    EarlierIsMentioned(g, start, MentionedBefore(g, near, p, k), order[j], Dependencies(g, near), i - 1, j - 1);
    MentionedEarlier(g, near, p, k, order[i]);
  }

  // ---- The walk itself

  /** The check order: nothing for an unknown component. */
  method Path(g: Graph, name: Name, maxDepth: int := 4) returns (path: seq<Name>)
    ensures path == if name in g then CheckOrder(g, name, maxDepth) else []
  {
    if name !in g {
      return [];
    }
    path := [name];
    var seen, frontier, depth := {name}, g[name].dependsOn, 0;
    ghost var walked := [];
    Begin(g, name);
    while depth < maxDepth && frontier != []
      invariant 0 <= depth && (depth <= maxDepth || depth == 0)
      invariant path == CheckOrder(g, name, depth)
      invariant Walked(g, name, path, seen, frontier, walked)
    {
      Deeper(g, name, depth);
      path, seen, frontier, walked := OneLevel(g, name, path, seen, frontier, walked);
      depth := depth + 1;
    }
    Finished(g, name, depth, maxDepth, frontier, walked);
  }

  /** What the walk knows: `walked` lists the dependencies looked at, `frontier` the ones still due. */
  ghost predicate Walked(g: Graph, start: Name, path: seq<Name>, seen: set<Name>, frontier: seq<Name>,
                         walked: seq<Name>) {
    && path == [start] + Firsts(g, start, walked)
    && seen == {start} + Elements(walked)
    && walked + frontier == Dependencies(g, path)
  }

  /** Once there is nothing left to expand, looking further changes nothing. */
  lemma Finished(g: Graph, start: Name, depth: nat, maxDepth: int, frontier: seq<Name>, walked: seq<Name>)
    requires (depth <= maxDepth || depth == 0) && (maxDepth <= depth || frontier == [])
    requires CheckOrder(g, start, depth) == [start] + Firsts(g, start, walked)
    requires walked + frontier == Dependencies(g, CheckOrder(g, start, depth))
    ensures CheckOrder(g, start, maxDepth) == CheckOrder(g, start, depth)
  {
    if depth < maxDepth {
      assert walked + frontier == walked;
      Deeper(g, start, depth);
      IterateSettles(path => Expand(g, start, path), [start], depth, maxDepth);
    }
  }

  lemma Begin(g: Graph, start: Name)
    ensures [start] == CheckOrder(g, start, 0)
    ensures Walked(g, start, [start], {start}, DependsOn(g, start), [])
  {
    DependenciesSnoc(g, [], start);
    assert {start} + Elements([]) == {start};
    assert [start] + Firsts(g, start, []) == [start] == [] + [start];
    assert Dependencies(g, []) + DependsOn(g, start) == DependsOn(g, start) == [] + DependsOn(g, start);
  }

  method OneLevel(g: Graph, start: Name, path0: seq<Name>, seen0: set<Name>, frontier: seq<Name>,
                  ghost walked0: seq<Name>)
    returns (path: seq<Name>, seen: set<Name>, next: seq<Name>, ghost walked: seq<Name>)
    requires Walked(g, start, path0, seen0, frontier, walked0)
    ensures path == Expand(g, start, path0)
    ensures Walked(g, start, path, seen, next, walked)
  {
    path, seen, next := path0, seen0, [];
    ghost var due := Dependencies(g, path0);
    walked := walked0;
    var i := 0;
    while i < |frontier|
      invariant 0 <= i <= |frontier| && walked == walked0 + frontier[..i]
      invariant path == [start] + Firsts(g, start, walked) && seen == {start} + Elements(walked)
      invariant due + next == Dependencies(g, path)
    {
      var dep := frontier[i];
      path, seen, next := Visit(g, start, dep, path, seen, next, walked, due);
      walked := walked + [dep];
      i := i + 1;
    }
    assert walked == due;
  }

  method Visit(g: Graph, start: Name, dep: Name, path0: seq<Name>, seen0: set<Name>, next0: seq<Name>,
               ghost walked: seq<Name>, ghost due: seq<Name>)
    returns (path: seq<Name>, seen: set<Name>, next: seq<Name>)
    requires path0 == [start] + Firsts(g, start, walked) && seen0 == {start} + Elements(walked)
    requires due + next0 == Dependencies(g, path0)
    ensures path == [start] + Firsts(g, start, walked + [dep]) && seen == {start} + Elements(walked + [dep])
    ensures due + next == Dependencies(g, path)
  {
    Visited(g, start, walked, dep, path0, seen0);
    DueNext(g, path0, dep, due, next0);
    path, seen, next := path0, seen0, next0;
    if dep !in seen {
      seen := seen + {dep};
      if Usable(g, dep) {
        path := path + [dep];
        next := next + g[dep].dependsOn;
      }
    }
  }

  lemma Visited(g: Graph, start: Name, walked: seq<Name>, dep: Name, path: seq<Name>, seen: set<Name>)
    requires path == [start] + Firsts(g, start, walked) && seen == {start} + Elements(walked)
    ensures {start} + Elements(walked + [dep]) == seen + {dep}
    ensures [start] + Firsts(g, start, walked + [dep]) == if dep !in seen && Usable(g, dep) then path + [dep] else path
  {
    FirstsSnoc(g, start, walked, dep);
    Regroup([start], Firsts(g, start, walked), [dep]);
    ElementsOf(start, walked, dep);
  }

  lemma ElementsOf(start: Name, walked: seq<Name>, dep: Name)
    ensures {start} + (Elements(walked) + {dep}) == ({start} + Elements(walked)) + {dep}
    ensures dep in {start} + Elements(walked) <==> dep == start || dep in Elements(walked)
  {
  }

  /** Listing one more component appends its dependencies to what is due. */
  lemma DueNext(g: Graph, path: seq<Name>, dep: Name, due: seq<Name>, next: seq<Name>)
    requires due + next == Dependencies(g, path)
    ensures due + (next + DependsOn(g, dep)) == Dependencies(g, path + [dep])
  {
    DependenciesSnoc(g, path, dep);
    Regroup(due, next, DependsOn(g, dep));
  }
}
