/** The audit-history query predicate of an alert target, and the check of the rows it returns. */
module HistoryPredicate {
  import opened Sorting
  import opened Wrappers

  datatype Column =
    | Workload | WorkloadName | WorkloadId | Pod | PodName | ResourceId
    | Project | ProjectName | Queue | QueueName | Namespace

  datatype Target = Target(workloadName: Word, workloadId: Word, pod: Word, project: Word, queue: Word, namespace: Word)

  /** The strings in cells and targets; what happens to them is given by Text. */
  datatype Word = Word(text: string)

  const BLANK := Word("")

  /** str.strip, str.casefold, SQL lower and string order. */
  datatype Text = Text(strip: Word -> Word, fold: Word -> Word, lower: Word -> Word, leq: (Word, Word) -> bool) {
    ghost predicate Sane() {
      && TotalPreorder(leq)
      && strip(BLANK) == lower(BLANK) == BLANK
      && forall s :: fold(s) == BLANK <==> s == BLANK
    }

    function Key(s: Word): Word {
      fold(strip(s))
    }
  }

  /** A row's text per column; a missing column and a NULL both read as "". */
  type Row = map<Column, Word>

  function Cell(row: Row, column: Column): Word {
    if column in row then row[column] else BLANK
  }

  const STRONG: set<Column> := {Workload, WorkloadName, WorkloadId, Pod, PodName, ResourceId}
  const TARGET_COLUMNS: set<Column> := STRONG + {Project, ProjectName, Queue, QueueName}
  const SCOPE: seq<Column> := [Namespace, Project, ProjectName, Queue, QueueName]

  function ColumnValues(t: Target, column: Column): seq<Word> {
    match column
    case Workload | ResourceId => [t.workloadName, t.workloadId]
    case WorkloadName => [t.workloadName]
    case WorkloadId => [t.workloadId]
    case Pod | PodName => [t.pod]
    case Project | ProjectName => [t.project]
    case Queue | QueueName => [t.queue]
    case Namespace => [t.namespace]
  }

  /** The normalized values that would prove that a row is about the target. */
  function Expected(x: Text, t: Target, column: Column): set<Word> {
    set v | v in ColumnValues(t, column) && x.strip(v) != BLANK :: x.Key(v)
  }

  predicate HasStrongIdentity(x: Text, t: Target) {
    exists column :: column in STRONG && Expected(x, t, column) != {}
  }

  /** What the clause builder derives from a target before it looks at any table. */
  datatype Profile = Profile(strong: bool, allowed: set<Column>, expected: Column -> set<Word>)

  function About(x: Text, t: Target): Profile {
    var strong := HasStrongIdentity(x, t);
    Profile(strong, if strong then STRONG else TARGET_COLUMNS, column => Expected(x, t, column))
  }

  /** The column is in the table and the target says something about it. */
  predicate Constrained(p: Profile, available: set<Column>, column: Column) {
    column in available && p.expected(column) != {}
  }

  // ---- The generated predicate

  /** `column = ANY($n)` with a bound list, or `column IN (…)` with the values written out. */
  datatype Test = Bound(column: Column, placeholder: nat) | Inline(column: Column, values: seq<Word>)

  /** ` AND (i1 OR i2 …) AND s1 AND s2 …` */
  datatype Clause = Clause(identity: seq<Test>, scope: seq<Test>)

  const FIRST_PLACEHOLDER := 3

  ghost predicate Holds(x: Text, test: Test, bindings: seq<seq<Word>>, row: Row) {
    match test
    case Bound(column, n) => FIRST_PLACEHOLDER <= n < FIRST_PLACEHOLDER + |bindings|
        && x.lower(Cell(row, column)) in bindings[n - FIRST_PLACEHOLDER]
    case Inline(column, values) => x.lower(Cell(row, column)) in values
  }

  ghost predicate Selects(x: Text, clause: Clause, bindings: seq<seq<Word>>, row: Row) {
    && (exists test :: test in clause.identity && Holds(x, test, bindings, row))
    && (forall test :: test in clause.scope ==> Holds(x, test, bindings, row))
  }

  /** The placeholders are $3, $4, … in the order of the text, one per bound list. */
  ghost predicate Numbered(tests: seq<Test>, bindings: seq<seq<Word>>, mcp: bool) {
    if mcp then bindings == [] && forall i :: 0 <= i < |tests| ==> tests[i].Inline?
    else |bindings| == |tests| && forall i :: 0 <= i < |tests| ==>
        tests[i].Bound? && tests[i].placeholder == FIRST_PLACEHOLDER + i
  }

  // ---- What it has to mean

  predicate Matches(x: Text, p: Profile, row: Row, column: Column) {
    x.lower(Cell(row, column)) in p.expected(column)
  }

  ghost predicate SomeIdentity(x: Text, p: Profile, available: set<Column>, row: Row) {
    exists column :: column in p.allowed && column in available && Matches(x, p, row, column)
  }

  ghost predicate AllScopes(x: Text, p: Profile, available: set<Column>, row: Row) {
    forall column :: column in SCOPE && Constrained(p, available, column) ==> Matches(x, p, row, column)
  }

  /** Some identity column matches and, for a strong identity, every known scope column too. */
  ghost predicate Wanted(x: Text, p: Profile, available: set<Column>, row: Row) {
    SomeIdentity(x, p, available, row) && (p.strong ==> AllScopes(x, p, available, row))
  }

  // ---- Compiling

  /** The tests for the given columns, bound lists starting at slot `first`. */
  ghost predicate TestsFor(x: Text, p: Profile, tests: seq<Test>, bindings: seq<seq<Word>>, columns: seq<Column>,
                           first: nat, mcp: bool) {
    && |tests| == |columns|
    && forall i :: 0 <= i < |tests| ==> TestFor(x, p, tests[i], bindings, columns[i], if mcp then 0 else first + i, mcp)
  }

  ghost predicate TestFor(x: Text, p: Profile, test: Test, bindings: seq<seq<Word>>, column: Column, slot: nat,
                          mcp: bool) {
    && test.column == column
    && (if mcp then test.Inline? && Lists(x, test.values, p.expected(column))
        else test == Bound(column, FIRST_PLACEHOLDER + slot) && slot < |bindings|
             && Lists(x, bindings[slot], p.expected(column)))
  }

  ghost predicate Lists(x: Text, values: seq<Word>, wanted: set<Word>) {
    Ascending(x.leq, values) && forall v :: v in values <==> v in wanted
  }

  /** The constrained columns of a list, in its order. */
  function Usable(p: Profile, available: set<Column>, allowed: set<Column>, columns: seq<Column>): (r: seq<Column>)
    ensures forall c :: c in r <==> c in columns && c in allowed && Constrained(p, available, c)
  {
    if columns == [] then []
    else
      var last := columns[|columns| - 1];
      Usable(p, available, allowed, columns[..|columns| - 1]) +
      if last in allowed && Constrained(p, available, last) then [last] else []
  }

  lemma UsableNext(p: Profile, available: set<Column>, allowed: set<Column>, columns: seq<Column>, i: nat)
    requires i < |columns|
    ensures Usable(p, available, allowed, columns[..i + 1]) == Usable(p, available, allowed, columns[..i])
         + if columns[i] in allowed && Constrained(p, available, columns[i]) then [columns[i]] else []
  {
    assert columns[..i + 1][..i] == columns[..i];
  }

  lemma OneMoreTest(x: Text, p: Profile, tests: seq<Test>, before: seq<seq<Word>>, columns: seq<Column>, first: nat,
                    mcp: bool, test: Test, after: seq<seq<Word>>, column: Column)
    requires TestsFor(x, p, tests, before, columns, first, mcp) && before <= after
    requires TestFor(x, p, test, after, column, if mcp then 0 else first + |tests|, mcp)
    ensures TestsFor(x, p, tests + [test], after, columns + [column], first, mcp)
  {
    forall i | 0 <= i < |tests| ensures TestFor(x, p, tests[i], after, columns[i], if mcp then 0 else first + i, mcp) {
      assert TestFor(x, p, tests[i], before, columns[i], if mcp then 0 else first + i, mcp);
    }
  }

  method CompileColumn(x: Text, p: Profile, available: set<Column>, column: Column, mcp: bool, tests0: seq<Test>,
                       bindings0: seq<seq<Word>>, ghost used: seq<Column>, ghost first: nat)
    returns (tests: seq<Test>, bindings: seq<seq<Word>>)
    requires x.Sane() && TestsFor(x, p, tests0, bindings0, used, first, mcp)
    requires |bindings0| == first + if mcp then 0 else |tests0|
    ensures bindings0 <= bindings && |bindings| == first + if mcp then 0 else |tests|
    ensures TestsFor(x, p, tests, bindings,
                     used + if Constrained(p, available, column) then [column] else [], first, mcp)
  {
    var values := SortedSet(x.leq, p.expected(column));
    if column in available && values != [] {
      var test := if mcp then Inline(column, values) else Bound(column, FIRST_PLACEHOLDER + |bindings0|);
      bindings := if mcp then bindings0 else bindings0 + [values];
      tests := tests0 + [test];
      OneMoreTest(x, p, tests0, bindings0, used, first, mcp, test, bindings, column);
    } else {
      tests, bindings := tests0, bindings0;
      assert used + [] == used;
    }
  }

  method Compile(x: Text, p: Profile, available: set<Column>, allowed: set<Column>, columns: seq<Column>, mcp: bool,
                 bindings0: seq<seq<Word>>)
    returns (tests: seq<Test>, bindings: seq<seq<Word>>)
    requires x.Sane()
    ensures bindings0 <= bindings && |bindings| == |bindings0| + if mcp then 0 else |tests|
    ensures TestsFor(x, p, tests, bindings, Usable(p, available, allowed, columns), |bindings0|, mcp)
  {
    tests, bindings := [], bindings0;
    ghost var used := [];
    for i := 0 to |columns|
      invariant bindings0 <= bindings && |bindings| == |bindings0| + if mcp then 0 else |tests|
      invariant used == Usable(p, available, allowed, columns[..i])
      invariant TestsFor(x, p, tests, bindings, used, |bindings0|, mcp)
    {
      UsableNext(p, available, allowed, columns, i);
      if columns[i] in allowed {
        tests, bindings := CompileColumn(x, p, available, columns[i], mcp, tests, bindings, used, |bindings0|);
        used := used + if Constrained(p, available, columns[i]) then [columns[i]] else [];
      }
    }
    assert columns[..|columns|] == columns;
  }

  /** An iteration order of the target columns; a frozenset has no fixed one. */
  ghost predicate IterationOrder(order: seq<Column>) {
    && (forall column :: column in order <==> column in TARGET_COLUMNS)
    && forall i, j :: 0 <= i < j < |order| ==> order[i] != order[j]
  }

  /**
   * The clause of an alert target and the lists to bind. None when the table
   * has no column that could identify the target.
   */
  method HistoryTargetClause(x: Text, t: Target, available: set<Column>, order: seq<Column>, mcp: bool)
    returns (clause: Option<Clause>, bindings: seq<seq<Word>>)
    requires x.Sane() && IterationOrder(order)
    ensures clause.None? <==>
            forall column :: column in About(x, t).allowed ==> !Constrained(About(x, t), available, column)
    ensures clause.Some? ==> Numbered(clause.value.identity + clause.value.scope, bindings, mcp)
    ensures forall i :: 0 <= i < |bindings| ==> bindings[i] != [] && Ascending(x.leq, bindings[i])
    ensures clause.Some? ==> forall row :: Selects(x, clause.value, bindings, row) <==>
            Wanted(x, About(x, t), available, row)
  {
    clause, bindings := ClauseFor(x, About(x, t), available, order, mcp);
  }

  method ClauseFor(x: Text, p: Profile, available: set<Column>, order: seq<Column>, mcp: bool)
    returns (clause: Option<Clause>, bindings: seq<seq<Word>>)
    requires x.Sane() && IterationOrder(order) && p.allowed <= TARGET_COLUMNS
    ensures clause.None? <==> forall column :: column in p.allowed ==> !Constrained(p, available, column)
    ensures clause.Some? ==> Numbered(clause.value.identity + clause.value.scope, bindings, mcp)
    ensures forall i :: 0 <= i < |bindings| ==> bindings[i] != [] && Ascending(x.leq, bindings[i])
    ensures clause.Some? ==> forall row :: Selects(x, clause.value, bindings, row) <==> Wanted(x, p, available, row)
  {
    ghost var named := Usable(p, available, p.allowed, order);
    var identity;
    identity, bindings := Compile(x, p, available, p.allowed, order, mcp, []);
    if identity == [] {
      return None, [];
    }
    assert named[0] in named;
    var scopeColumns := if p.strong then SCOPE else [];
    ghost var required, first := Usable(p, available, SCOPES, scopeColumns), bindings;
    var scope;
    scope, bindings := Compile(x, p, available, SCOPES, scopeColumns, mcp, bindings);
    clause := Some(Clause(identity, scope));
    StillTests(x, p, identity, first, bindings, named, mcp);
    NumberedTogether(x, p, identity, scope, bindings, named, required, mcp);
    SelectsWanted(x, p, available, order, identity, scope, bindings, mcp);
  }

  /** The compiled tests together mean what is wanted, on every row. */
  lemma SelectsWanted(x: Text, p: Profile, available: set<Column>, order: seq<Column>, identity: seq<Test>,
                      scope: seq<Test>, bindings: seq<seq<Word>>, mcp: bool)
    requires IterationOrder(order) && p.allowed <= TARGET_COLUMNS
    requires TestsFor(x, p, identity, bindings, Usable(p, available, p.allowed, order), 0, mcp)
    requires TestsFor(x, p, scope, bindings, Usable(p, available, SCOPES, if p.strong then SCOPE else []),
                      if mcp then 0 else |identity|, mcp)
    ensures forall row :: Selects(x, Clause(identity, scope), bindings, row) <==> Wanted(x, p, available, row)
  {
    var named, required :=
        Usable(p, available, p.allowed, order), Usable(p, available, SCOPES, if p.strong then SCOPE else []);
    forall row ensures Selects(x, Clause(identity, scope), bindings, row) <==> Wanted(x, p, available, row) {
      AnyHolds(x, p, identity, bindings, named, 0, mcp, row);
      AllHold(x, p, scope, bindings, required, if mcp then 0 else |identity|, mcp, row);
    }
  }

  const SCOPES: set<Column> := {Namespace, Project, ProjectName, Queue, QueueName}

  /** Binding more lists does not disturb the tests already compiled. */
  lemma StillTests(x: Text, p: Profile, tests: seq<Test>, before: seq<seq<Word>>, after: seq<seq<Word>>,
                   columns: seq<Column>, mcp: bool)
    requires TestsFor(x, p, tests, before, columns, 0, mcp) && before <= after
    ensures TestsFor(x, p, tests, after, columns, 0, mcp)
  {
    forall i | 0 <= i < |tests| ensures TestFor(x, p, tests[i], after, columns[i], if mcp then 0 else 0 + i, mcp) {
      assert TestFor(x, p, tests[i], before, columns[i], if mcp then 0 else 0 + i, mcp);
    }
  }

  lemma NumberedTogether(x: Text, p: Profile, identity: seq<Test>, scope: seq<Test>, bindings: seq<seq<Word>>,
                         named: seq<Column>, required: seq<Column>, mcp: bool)
    requires TestsFor(x, p, identity, bindings, named, 0, mcp)
    requires TestsFor(x, p, scope, bindings, required, if mcp then 0 else |identity|, mcp)
    requires if mcp then bindings == [] else |bindings| == |identity| + |scope|
    requires forall c :: c in named || c in required ==> p.expected(c) != {}
    ensures Numbered(identity + scope, bindings, mcp)
    ensures forall i :: 0 <= i < |bindings| ==> bindings[i] != [] && Ascending(x.leq, bindings[i])
  {
    var tests, columns := identity + scope, named + required;
    forall i | 0 <= i < |tests|
      ensures TestFor(x, p, tests[i], bindings, columns[i], if mcp then 0 else i, mcp) && p.expected(columns[i]) != {}
    {
      if i < |identity| {
        assert TestFor(x, p, identity[i], bindings, named[i], if mcp then 0 else 0 + i, mcp);
        assert named[i] in named;
      } else {
        var k := i - |identity|;
        assert TestFor(x, p, scope[k], bindings, required[k], if mcp then 0 else |identity| + k, mcp);
        assert required[k] in required;
      }
    }
    forall i | 0 <= i < |bindings| ensures bindings[i] != [] && Ascending(x.leq, bindings[i]) {
      assert TestFor(x, p, tests[i], bindings, columns[i], i, mcp);
      var v :| v in p.expected(columns[i]);
      assert v in bindings[i];
    }
  }

  lemma TestMatches(x: Text, p: Profile, test: Test, bindings: seq<seq<Word>>, column: Column, slot: nat, mcp: bool,
                    row: Row)
    requires TestFor(x, p, test, bindings, column, slot, mcp)
    ensures Holds(x, test, bindings, row) <==> Matches(x, p, row, column)
  {
  }

  lemma AnyHolds(x: Text, p: Profile, tests: seq<Test>, bindings: seq<seq<Word>>, columns: seq<Column>, first: nat,
                 mcp: bool, row: Row)
    requires TestsFor(x, p, tests, bindings, columns, first, mcp)
    ensures (exists test :: test in tests && Holds(x, test, bindings, row)) <==>
            exists c :: c in columns && Matches(x, p, row, c)
  {
    forall i | 0 <= i < |tests| ensures Holds(x, tests[i], bindings, row) <==> Matches(x, p, row, columns[i]) {
      TestMatches(x, p, tests[i], bindings, columns[i], if mcp then 0 else first + i, mcp, row);
    }
    AnyOf(tests, columns, test => Holds(x, test, bindings, row), c => Matches(x, p, row, c));
  }

  lemma AllHold(x: Text, p: Profile, tests: seq<Test>, bindings: seq<seq<Word>>, columns: seq<Column>, first: nat,
                mcp: bool, row: Row)
    requires TestsFor(x, p, tests, bindings, columns, first, mcp)
    ensures (forall test :: test in tests ==> Holds(x, test, bindings, row)) <==>
            forall c :: c in columns ==> Matches(x, p, row, c)
  {
    forall i | 0 <= i < |tests| ensures !Holds(x, tests[i], bindings, row) <==> !Matches(x, p, row, columns[i]) {
      TestMatches(x, p, tests[i], bindings, columns[i], if mcp then 0 else first + i, mcp, row);
    }
    AnyOf(tests, columns, test => !Holds(x, test, bindings, row), c => !Matches(x, p, row, c));
  }

  lemma AnyOf<A(!new), B(!new)>(xs: seq<A>, ys: seq<B>, f: A -> bool, g: B -> bool)
    requires |xs| == |ys| && forall i :: 0 <= i < |xs| ==> f(xs[i]) == g(ys[i])
    ensures (exists x :: x in xs && f(x)) <==> exists y :: y in ys && g(y)
  {
    if x :| x in xs && f(x) {
      var i :| 0 <= i < |xs| && xs[i] == x;
      assert ys[i] in ys;
    }
    if y :| y in ys && g(y) {
      var i :| 0 <= i < |ys| && ys[i] == y;
      assert xs[i] in xs;
    }
  }
}
