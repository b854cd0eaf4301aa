/**
 * The in-memory check of the audit rows a query returned, and how it compares
 * with the query. The two read a cell differently: the query takes it whole
 * and only lower-cases it, the check cuts it to 240 characters, strips it and
 * folds its case. Which rows are missed or refused is decided exactly, first
 * over arbitrary readings and then for targets of ordinary values.
 */
module HistoryCheck {
  import opened HistoryPredicate
  import opened Wrappers

  // ---- What the query returns of a row

  const CELL_LIMIT := 240

  /** SQL's left(…, 240). */
  function Left(cell: Word): Word {
    if |cell.text| <= CELL_LIMIT then cell else Word(cell.text[..CELL_LIMIT])
  }

  /** The predicate reads whole cells; what is returned, and then checked, is cut. */
  function Returned(row: Row): Row {
    map column | column in row :: Left(row[column])
  }

  lemma ReturnedCell(row: Row, column: Column)
    ensures Cell(Returned(row), column) == Left(Cell(row, column))
  {
  }

  // ---- Which fields speak for which column

  function Normal(x: Text, v: Word): set<Word> {
    if x.strip(v) == BLANK then {} else {x.Key(v)}
  }

  /** Name and id both stand for a workload and a resource; every other column has its own field. */
  lemma ExpectedByColumn(x: Text, t: Target)
    ensures Expected(x, t, Pod) == Expected(x, t, PodName) == Normal(x, t.pod)
    ensures Expected(x, t, WorkloadName) == Normal(x, t.workloadName)
    ensures Expected(x, t, WorkloadId) == Normal(x, t.workloadId)
    ensures Expected(x, t, Workload) == Expected(x, t, ResourceId)
         == Normal(x, t.workloadName) + Normal(x, t.workloadId)
    ensures Expected(x, t, Project) == Expected(x, t, ProjectName) == Normal(x, t.project)
    ensures Expected(x, t, Queue) == Expected(x, t, QueueName) == Normal(x, t.queue)
    ensures Expected(x, t, Namespace) == Normal(x, t.namespace)
  {
    OneField(x, t, Pod, t.pod);
    OneField(x, t, PodName, t.pod);
    OneField(x, t, WorkloadName, t.workloadName);
    OneField(x, t, WorkloadId, t.workloadId);
    TwoFields(x, t, Workload, t.workloadName, t.workloadId);
    TwoFields(x, t, ResourceId, t.workloadName, t.workloadId);
    OneField(x, t, Project, t.project);
    OneField(x, t, ProjectName, t.project);
    OneField(x, t, Queue, t.queue);
    OneField(x, t, QueueName, t.queue);
    OneField(x, t, Namespace, t.namespace);
  }

  lemma OneField(x: Text, t: Target, column: Column, v: Word)
    requires ColumnValues(t, column) == [v]
    ensures Expected(x, t, column) == Normal(x, v)
  {
    assert forall w :: w in ColumnValues(t, column) <==> w == v;
  }

  lemma TwoFields(x: Text, t: Target, column: Column, v: Word, w: Word)
    requires ColumnValues(t, column) == [v, w]
    ensures Expected(x, t, column) == Normal(x, v) + Normal(x, w)
  {
    assert forall u :: u in ColumnValues(t, column) <==> u == v || u == w;
  }

  // ---- Checking one row

  datatype Kind = WorkloadNameKind | WorkloadIdKind | PodKind | ProjectKind | QueueKind | NamespaceKind
  datatype Entity = Entity(kind: Kind, name: Word)

  function KindOf(t: Target, column: Column, value: Word): Kind {
    match column
    case ResourceId => if value == t.workloadId then WorkloadIdKind else WorkloadNameKind
    case Workload | WorkloadName => WorkloadNameKind
    case WorkloadId => WorkloadIdKind
    case Pod | PodName => PodKind
    case Project | ProjectName => ProjectKind
    case Queue | QueueName => QueueKind
    case Namespace => NamespaceKind
  }

  predicate Identifies(x: Text, p: Profile, available: set<Column>, row: Row, column: Column) {
    var value := x.strip(Cell(row, column));
    column in p.allowed && column in available && value != BLANK && x.fold(value) in p.expected(column)
  }

  predicate InScope(x: Text, p: Profile, available: set<Column>, row: Row, column: Column) {
    Constrained(p, available, column) ==> x.Key(Cell(row, column)) in p.expected(column)
  }

  ghost predicate ScopeHolds(x: Text, p: Profile, available: set<Column>, row: Row) {
    forall column :: column in SCOPE ==> InScope(x, p, available, row, column)
  }

  /** The row proves a target identity and contradicts no known scope. */
  ghost predicate Verified(x: Text, p: Profile, available: set<Column>, row: Row) {
    && (exists column :: Identifies(x, p, available, row, column))
    && ScopeHolds(x, p, available, row)
  }

  /** The entity is that of the first identifying column in iteration order, named by the row's own text. */
  ghost predicate Proves(x: Text, t: Target, available: set<Column>, order: seq<Column>, row: Row, entity: Entity) {
    exists i :: 0 <= i < |order| && ProvesFirst(x, t, available, order, row, i)
                && entity == EntityIn(x, t, row, order[i])
  }

  /** The proved entity is the row's and the target's own: of the column's kind, and up to case the column's field. */
  lemma EntityIsOfTarget(x: Text, t: Target, available: set<Column>, order: seq<Column>, row: Row, entity: Entity)
    requires Proves(x, t, available, order, row, entity)
    ensures exists column :: column in order && column in available && entity.name == x.strip(Cell(row, column))
                             && Bears(x, t, column, entity)
  {
    var i :| 0 <= i < |order| && ProvesFirst(x, t, available, order, row, i) && entity == EntityIn(x, t, row, order[i]);
    assert x.fold(entity.name) in Expected(x, t, order[i]) && order[i] in About(x, t).allowed;
    ColumnBears(x, t, order[i], entity.name);
  }

  /** A resource column holds the workload's name or id, and an id as written makes it one; `Workload` is a name. */
  ghost predicate Bears(x: Text, t: Target, column: Column, entity: Entity) {
    var name, workload := x.fold(entity.name), {x.Key(t.workloadName), x.Key(t.workloadId)};
    match column
    case Pod | PodName => entity.kind == PodKind && name == x.Key(t.pod)
    case WorkloadId => entity.kind == WorkloadIdKind && name == x.Key(t.workloadId)
    case WorkloadName => entity.kind == WorkloadNameKind && name == x.Key(t.workloadName)
    case Workload => entity.kind == WorkloadNameKind && name in workload
    case ResourceId =>
      name in workload && entity.kind == if entity.name == t.workloadId then WorkloadIdKind else WorkloadNameKind
    case Project | ProjectName => entity.kind == ProjectKind && name == x.Key(t.project)
    case Queue | QueueName => entity.kind == QueueKind && name == x.Key(t.queue)
    case Namespace => false
  }

  lemma ColumnBears(x: Text, t: Target, column: Column, value: Word)
    requires column in TARGET_COLUMNS && x.fold(value) in Expected(x, t, column)
    ensures Bears(x, t, column, Entity(KindOf(t, column, value), value))
  {
    match column
    case Workload | ResourceId => TwoFields(x, t, column, t.workloadName, t.workloadId);
    case WorkloadName => OneField(x, t, column, t.workloadName);
    case WorkloadId => OneField(x, t, column, t.workloadId);
    case Pod | PodName => OneField(x, t, column, t.pod);
    case Project | ProjectName => OneField(x, t, column, t.project);
    case Queue | QueueName => OneField(x, t, column, t.queue);
    case Namespace =>
  }

  function EntityIn(x: Text, t: Target, row: Row, column: Column): Entity {
    var value := x.strip(Cell(row, column));
    Entity(KindOf(t, column, value), value)
  }

  ghost predicate ProvesFirst(x: Text, t: Target, available: set<Column>, order: seq<Column>, row: Row, i: nat)
    requires i < |order|
  {
    && Verified(x, About(x, t), available, row)
    && Identifies(x, About(x, t), available, row, order[i])
    && forall j :: 0 <= j < i ==> !Identifies(x, About(x, t), available, row, order[j])
  }

  /** The identity a returned row proves. */
  method RowEntity(x: Text, t: Target, available: set<Column>, order: seq<Column>, row: Row)
    returns (entity: Option<Entity>)
    requires IterationOrder(order)
    ensures entity.Some? <==> Verified(x, About(x, t), available, row)
    ensures entity.Some? ==> Proves(x, t, available, order, row, entity.value)
  {
    var p := About(x, t);
    AllowedAreListed(p, order);
    var i := FirstIdentifying(x, p, available, order, row);
    if i == |order| {
      return None;
    }
    var held := CheckScope(x, p, available, row);
    if held {
      assert ProvesFirst(x, t, available, order, row, i);
      entity := Some(EntityIn(x, t, row, order[i]));
    } else {
      entity := None;
    }
  }

  method CheckScope(x: Text, p: Profile, available: set<Column>, row: Row) returns (held: bool)
    ensures held <==> ScopeHolds(x, p, available, row)
  {
    for k := 0 to |SCOPE|
      invariant forall c :: c in SCOPE[..k] ==> InScope(x, p, available, row, c)
    {
      var column := SCOPE[k];
      assert SCOPE[..k + 1] == SCOPE[..k] + [column];
      if column in available && p.expected(column) != {} && x.Key(Cell(row, column)) !in p.expected(column) {
        assert column in SCOPE && !InScope(x, p, available, row, column);
        return false;
      }
    }
    assert SCOPE[..|SCOPE|] == SCOPE;
    held := true;
  }

  lemma AllowedAreListed(p: Profile, order: seq<Column>)
    requires IterationOrder(order) && p.allowed <= TARGET_COLUMNS
    ensures forall column :: column in p.allowed ==> column in order
  {
  }

  method FirstIdentifying(x: Text, p: Profile, available: set<Column>, order: seq<Column>, row: Row)
    returns (found: nat)
    requires forall column :: column in p.allowed ==> column in order
    ensures found <= |order| && (found == |order| ==> forall column :: !Identifies(x, p, available, row, column))
    ensures found < |order| ==> Identifies(x, p, available, row, order[found])
    ensures forall j :: 0 <= j < found ==> !Identifies(x, p, available, row, order[j])
  {
    found := 0;
    while found < |order|
      invariant found <= |order|
      invariant forall j :: 0 <= j < found ==> !Identifies(x, p, available, row, order[j])
    {
      var column := order[found];
      if column in p.allowed && column in available {
        var value := x.strip(Cell(row, column));
        if value != BLANK && x.fold(value) in p.expected(column) {
          return;
        }
      }
      found := found + 1;
    }
  }

  // ---- One cell, read by the query and by the check

  /** The query's test of a whole cell. */
  predicate Tested(x: Text, p: Profile, column: Column, cell: Word) {
    x.lower(cell) in p.expected(column)
  }

  /** The check of the same cell as it is returned. */
  predicate Accepted(x: Text, p: Profile, column: Column, cell: Word) {
    x.Key(Left(cell)) in p.expected(column)
  }

  ghost predicate Testable(x: Text, p: Profile, column: Column) {
    exists cell :: Tested(x, p, column, cell)
  }

  ghost predicate Acceptable(x: Text, p: Profile, column: Column) {
    exists cell :: Accepted(x, p, column, cell)
  }

  /** Some cell passes the check only: it has blanks around an expected value, say. */
  ghost predicate Splits(x: Text, p: Profile, column: Column) {
    exists cell :: Accepted(x, p, column, cell) && !Tested(x, p, column, cell)
  }

  /** Some cell passes the query's test only: it is an expected value too long to be returned whole, say. */
  ghost predicate Loses(x: Text, p: Profile, column: Column) {
    exists cell :: Tested(x, p, column, cell) && !Accepted(x, p, column, cell)
  }

  /** What holds of the profile of a target. */
  ghost predicate Shaped(x: Text, p: Profile) {
    && x.Sane()
    && (forall column :: BLANK !in p.expected(column))
    && (p.strong ==> forall column :: column in SCOPE ==> column !in p.allowed)
  }

  lemma AboutIsShaped(x: Text, t: Target)
    requires x.Sane()
    ensures Shaped(x, About(x, t))
    ensures About(x, t).strong <==> exists column :: column in STRONG && About(x, t).expected(column) != {}
  {
  }

  /** On the returned row the check reads each cell as Accepted says. */
  lemma CheckReads(x: Text, p: Profile, available: set<Column>, row: Row, column: Column)
    requires Shaped(x, p)
    ensures Identifies(x, p, available, Returned(row), column) <==>
            column in p.allowed && column in available && Accepted(x, p, column, Cell(row, column))
    ensures InScope(x, p, available, Returned(row), column) <==>
            (Constrained(p, available, column) ==> Accepted(x, p, column, Cell(row, column)))
  {
    ReturnedCell(row, column);
  }

  lemma BlankPassesNothing(x: Text, p: Profile, column: Column)
    requires Shaped(x, p)
    ensures !Tested(x, p, column, BLANK) && !Accepted(x, p, column, BLANK)
  {
  }

  // ---- Rows the query misses and rows the check refuses

  /** The check accepts the row, and the query does not select it. */
  ghost predicate Missed(x: Text, p: Profile, available: set<Column>, row: Row) {
    Verified(x, p, available, Returned(row)) && !Wanted(x, p, available, row)
  }

  /** The query selects the row, and the check refuses it. */
  ghost predicate Refused(x: Text, p: Profile, available: set<Column>, row: Row) {
    Wanted(x, p, available, row) && !Verified(x, p, available, Returned(row))
  }

  predicate Scoped(p: Profile, available: set<Column>, column: Column) {
    column in SCOPE && Constrained(p, available, column)
  }

  predicate Identity(p: Profile, available: set<Column>, column: Column) {
    column in p.allowed && column in available
  }

  ghost predicate SplitScope(x: Text, p: Profile, available: set<Column>, column: Column) {
    Scoped(p, available, column) && Splits(x, p, column)
  }

  ghost predicate LostScope(x: Text, p: Profile, available: set<Column>, column: Column) {
    Scoped(p, available, column) && Loses(x, p, column)
  }

  /**
   * A strong identity is missed through the identity column or any scope
   * column, a weak one only if the row escapes every scope column that would
   * identify it too. Either way all the check looks at must be acceptable.
   */
  ghost predicate Escapes(x: Text, p: Profile, available: set<Column>, column: Column) {
    && Identity(p, available, column) && Acceptable(x, p, column)
    && (forall d :: Scoped(p, available, d) ==> Acceptable(x, p, d))
    && (if p.strong then Splits(x, p, column) || exists d :: SplitScope(x, p, available, d)
        else Splits(x, p, column) && forall d :: Scoped(p, available, d) && d in p.allowed ==> Splits(x, p, d))
  }

  /**
   * A strong identity is refused through the identity column or any scope
   * column that loses a cell. A weak one is refused through the identity
   * column too, or because a scope column the query does not test contradicts.
   */
  ghost predicate Fails(x: Text, p: Profile, available: set<Column>, column: Column) {
    && Identity(p, available, column) && Testable(x, p, column)
    && (if p.strong then
          && (forall d :: Scoped(p, available, d) ==> Testable(x, p, d))
          && (Loses(x, p, column) || exists d :: LostScope(x, p, available, d))
        else Loses(x, p, column) || exists d :: d != column && Scoped(p, available, d))
  }

  ghost predicate CanMiss(x: Text, p: Profile, available: set<Column>) {
    exists column :: Escapes(x, p, available, column)
  }

  ghost predicate CanRefuse(x: Text, p: Profile, available: set<Column>) {
    exists column :: Fails(x, p, available, column)
  }

  lemma MissedEscapes(x: Text, p: Profile, available: set<Column>, row: Row)
    requires Shaped(x, p) && Missed(x, p, available, row)
    ensures CanMiss(x, p, available)
  {
    forall d ensures Identifies(x, p, available, Returned(row), d) <==>
                     Identity(p, available, d) && Accepted(x, p, d, Cell(row, d))
             ensures Scoped(p, available, d) ==> Accepted(x, p, d, Cell(row, d)) {
      CheckReads(x, p, available, row, d);
    }
    var c :| Identifies(x, p, available, Returned(row), c);
    assert Accepted(x, p, c, Cell(row, c));
    assert forall d :: Matches(x, p, row, d) <==> Tested(x, p, d, Cell(row, d));
    if p.strong && Matches(x, p, row, c) {
      var d :| d in SCOPE && Constrained(p, available, d) && !Matches(x, p, row, d);
      assert Accepted(x, p, d, Cell(row, d)) && SplitScope(x, p, available, d);
    }
    assert Escapes(x, p, available, c);
  }

  lemma RefusedFails(x: Text, p: Profile, available: set<Column>, row: Row)
    requires Shaped(x, p) && Refused(x, p, available, row)
    ensures CanRefuse(x, p, available)
  {
    var c :| c in p.allowed && c in available && Matches(x, p, row, c);
    assert Tested(x, p, c, Cell(row, c));
    CheckReads(x, p, available, row, c);
    if !Identifies(x, p, available, Returned(row), c) {
      assert Loses(x, p, c);
    } else {
      var d :| d in SCOPE && !InScope(x, p, available, Returned(row), d);
      CheckReads(x, p, available, row, d);
      assert Scoped(p, available, d) && !Accepted(x, p, d, Cell(row, d));
      if p.strong {
        assert Matches(x, p, row, d) && Tested(x, p, d, Cell(row, d)) && LostScope(x, p, available, d);
      } else {
        assert d != c;
      }
    }
    forall d | p.strong && Scoped(p, available, d) ensures Testable(x, p, d) {
      assert Matches(x, p, row, d) && Tested(x, p, d, Cell(row, d));
    }
    assert Fails(x, p, available, c);
  }

  // ---- Building such rows

  lemma PickRow(columns: set<Column>, good: (Column, Word) -> bool) returns (row: Row)
    requires forall e :: e in columns ==> exists cell :: good(e, cell)
    ensures row.Keys == columns && forall e :: e in columns ==> good(e, row[e])
  {
    row := map e | e in columns :: var cell :| good(e, cell); cell;
  }

  ghost function Filled(p: Profile, available: set<Column>, c: Column): (filled: set<Column>)
    ensures forall e :: e in filled <==> e == c || Scoped(p, available, e)
  {
    {c} + set e | e in SCOPE && Constrained(p, available, e)
  }

  lemma AllAccepted(x: Text, p: Profile, available: set<Column>, c: Column, row: Row)
    requires Shaped(x, p) && Identity(p, available, c) && row.Keys == Filled(p, available, c)
    requires forall e :: e in row ==> Accepted(x, p, e, row[e])
    ensures Verified(x, p, available, Returned(row))
  {
    CheckReads(x, p, available, row, c);
    forall e | e in SCOPE ensures InScope(x, p, available, Returned(row), e) {
      CheckReads(x, p, available, row, e);
    }
    assert Identifies(x, p, available, Returned(row), c);
  }

  lemma AllTested(x: Text, p: Profile, available: set<Column>, c: Column, row: Row)
    requires Identity(p, available, c) && row.Keys == Filled(p, available, c)
    requires forall e :: e in row ==> Tested(x, p, e, row[e])
    ensures Wanted(x, p, available, row)
  {
    assert Matches(x, p, row, c);
    forall e | e in SCOPE && Constrained(p, available, e) ensures Matches(x, p, row, e) {
      assert e in row;
    }
  }

  lemma NothingTested(x: Text, p: Profile, available: set<Column>, row: Row)
    requires Shaped(x, p) && forall e :: e in row && e in p.allowed ==> !Tested(x, p, e, row[e])
    ensures !Wanted(x, p, available, row)
  {
    forall e | e in p.allowed ensures !Matches(x, p, row, e) {
      BlankPassesNothing(x, p, e);
    }
  }

  lemma NothingAccepted(x: Text, p: Profile, available: set<Column>, row: Row)
    requires Shaped(x, p) && forall e :: e in row && e in p.allowed ==> !Accepted(x, p, e, row[e])
    ensures !Verified(x, p, available, Returned(row))
  {
    forall e ensures !Identifies(x, p, available, Returned(row), e) {
      CheckReads(x, p, available, row, e);
      BlankPassesNothing(x, p, e);
    }
  }

  /** A row of accepted cells, of which those in `splitting` fail the query's test. */
  lemma AcceptedCells(x: Text, p: Profile, columns: set<Column>, splitting: set<Column>) returns (row: Row)
    requires forall e :: e in columns ==> Acceptable(x, p, e) && (e in splitting ==> Splits(x, p, e))
    ensures row.Keys == columns && forall e :: e in row ==> Accepted(x, p, e, row[e])
    ensures forall e :: e in row && e in splitting ==> !Tested(x, p, e, row[e])
  {
    var good := (e, cell) => Accepted(x, p, e, cell) && (e in splitting ==> !Tested(x, p, e, cell));
    forall e | e in columns ensures exists cell :: good(e, cell) {
      var cell :| Accepted(x, p, e, cell) && (e in splitting ==> !Tested(x, p, e, cell));
      assert good(e, cell);
    }
    row := PickRow(columns, good);
  }

  /** A row of cells that pass the query's test, of which that of `losing` fails the check. */
  lemma TestedCells(x: Text, p: Profile, columns: set<Column>, losing: Column) returns (row: Row)
    requires forall e :: e in columns ==> Testable(x, p, e) && (e == losing ==> Loses(x, p, e))
    ensures row.Keys == columns && forall e :: e in row ==> Tested(x, p, e, row[e])
    ensures losing in row ==> !Accepted(x, p, losing, row[losing])
  {
    var good := (e, cell) => Tested(x, p, e, cell) && (e == losing ==> !Accepted(x, p, e, cell));
    forall e | e in columns ensures exists cell :: good(e, cell) {
      var cell :| Tested(x, p, e, cell) && (e == losing ==> !Accepted(x, p, e, cell));
      assert good(e, cell);
    }
    row := PickRow(columns, good);
  }

  lemma IdentityIsMissed(x: Text, p: Profile, available: set<Column>, c: Column) returns (row: Row)
    requires Shaped(x, p) && Escapes(x, p, available, c) && Splits(x, p, c)
    ensures Missed(x, p, available, row)
  {
    var filled := Filled(p, available, c);
    row := AcceptedCells(x, p, filled, filled * p.allowed);
    AllAccepted(x, p, available, c, row);
    NothingTested(x, p, available, row);
  }

  lemma ScopeIsMissed(x: Text, p: Profile, available: set<Column>, c: Column, d: Column) returns (row: Row)
    requires Shaped(x, p) && Escapes(x, p, available, c) && p.strong && SplitScope(x, p, available, d)
    ensures Missed(x, p, available, row)
  {
    row := AcceptedCells(x, p, Filled(p, available, c), {d});
    AllAccepted(x, p, available, c, row);
    assert d in row && !Matches(x, p, row, d);
  }

  lemma EscapeIsMissed(x: Text, p: Profile, available: set<Column>, c: Column) returns (row: Row)
    requires Shaped(x, p) && Escapes(x, p, available, c)
    ensures Missed(x, p, available, row)
  {
    if Splits(x, p, c) {
      row := IdentityIsMissed(x, p, available, c);
    } else {
      var d :| SplitScope(x, p, available, d);
      row := ScopeIsMissed(x, p, available, c, d);
    }
  }

  lemma StrongIsRefused(x: Text, p: Profile, available: set<Column>, c: Column, d: Column) returns (row: Row)
    requires Shaped(x, p) && Fails(x, p, available, c) && p.strong
    requires Loses(x, p, d) && (d == c || Scoped(p, available, d))
    ensures Refused(x, p, available, row)
  {
    row := TestedCells(x, p, Filled(p, available, c), d);
    AllTested(x, p, available, c, row);
    if d == c {
      NothingAccepted(x, p, available, row);
    } else {
      CheckReads(x, p, available, row, d);
      assert !InScope(x, p, available, Returned(row), d);
    }
  }

  lemma FailIsRefused(x: Text, p: Profile, available: set<Column>, c: Column) returns (row: Row)
    requires Shaped(x, p) && Fails(x, p, available, c)
    ensures Refused(x, p, available, row)
  {
    if !p.strong {
      row := WeakIsRefused(x, p, available, c);
    } else if Loses(x, p, c) {
      row := StrongIsRefused(x, p, available, c, c);
    } else {
      var d :| LostScope(x, p, available, d);
      row := StrongIsRefused(x, p, available, c, d);
    }
  }

  lemma WeakIsRefused(x: Text, p: Profile, available: set<Column>, c: Column) returns (row: Row)
    requires Shaped(x, p) && Fails(x, p, available, c) && !p.strong
    ensures Refused(x, p, available, row)
  {
    if Loses(x, p, c) {
      var cell :| Tested(x, p, c, cell) && !Accepted(x, p, c, cell);
      row := map[c := cell];
      NothingAccepted(x, p, available, row);
    } else {
      var cell :| Tested(x, p, c, cell);
      var d :| d != c && Scoped(p, available, d);
      row := map[c := cell];
      CheckReads(x, p, available, row, d);
      BlankPassesNothing(x, p, d);
      assert !InScope(x, p, available, Returned(row), d);
    }
    assert Matches(x, p, row, c);
  }

  /** The query misses a row that the check would accept exactly when cells that pass only the check let one escape. */
  lemma MissesIff(x: Text, t: Target, available: set<Column>)
    requires x.Sane()
    ensures (exists row :: Missed(x, About(x, t), available, row)) <==> CanMiss(x, About(x, t), available)
  {
    var p := About(x, t);
    AboutIsShaped(x, t);
    if row :| Missed(x, p, available, row) {
      MissedEscapes(x, p, available, row);
    }
    if c :| Escapes(x, p, available, c) {
      var row := EscapeIsMissed(x, p, available, c);
    }
  }

  /** The query returns some row that the check refuses exactly when an identity column fails, as above. */
  lemma RefusesIff(x: Text, t: Target, available: set<Column>)
    requires x.Sane()
    ensures (exists row :: Refused(x, About(x, t), available, row)) <==> CanRefuse(x, About(x, t), available)
  {
    var p := About(x, t);
    AboutIsShaped(x, t);
    if row :| Refused(x, p, available, row) {
      RefusedFails(x, p, available, row);
    }
    if c :| Fails(x, p, available, c) {
      var row := FailIsRefused(x, p, available, c);
    }
  }

  /** Query and check select the same rows, whatever is in the table, exactly when neither can happen. */
  lemma QueryIsExactIff(x: Text, t: Target, available: set<Column>)
    requires x.Sane()
    ensures var p := About(x, t);
      (forall row :: Wanted(x, p, available, row) <==> Verified(x, p, available, Returned(row)))
      <==> !CanMiss(x, p, available) && !CanRefuse(x, p, available)
  {
    var p := About(x, t);
    MissesIff(x, t, available);
    RefusesIff(x, t, available);
    if forall row :: Wanted(x, p, available, row) <==> Verified(x, p, available, Returned(row)) {
      assert forall row :: !Missed(x, p, available, row) && !Refused(x, p, available, row);
    } else {
      var row :| !(Wanted(x, p, available, row) <==> Verified(x, p, available, Returned(row)));
      assert Missed(x, p, available, row) || Refused(x, p, available, row);
    }
  }

  // ---- Where query and check do agree

  /** The two readings answer alike in every column of the table. */
  ghost predicate Agrees(x: Text, p: Profile, available: set<Column>, row: Row) {
    forall c :: c in available ==> (Tested(x, p, c, Cell(row, c)) <==> Accepted(x, p, c, Cell(row, c)))
  }

  /** The query selects what the check accepts if no cell that the check accepts fails the query's test. */
  lemma QuerySelectsVerified(x: Text, p: Profile, available: set<Column>, row: Row)
    requires Shaped(x, p) && Verified(x, p, available, Returned(row))
    requires forall c :: c in available && Accepted(x, p, c, Cell(row, c)) ==> Tested(x, p, c, Cell(row, c))
    ensures Wanted(x, p, available, row)
  {
    var c :| Identifies(x, p, available, Returned(row), c);
    CheckReads(x, p, available, row, c);
    assert Matches(x, p, row, c);
    forall d | d in SCOPE && Constrained(p, available, d) ensures Matches(x, p, row, d) {
      CheckReads(x, p, available, row, d);
    }
  }

  /** On a row they read alike they agree, except that a weak identity leaves the scope to the check. */
  lemma QueryAgainstCheck(x: Text, p: Profile, available: set<Column>, row: Row)
    requires Shaped(x, p) && Agrees(x, p, available, row)
    ensures Verified(x, p, available, Returned(row)) <==>
            Wanted(x, p, available, row) && ScopeHolds(x, p, available, Returned(row))
    ensures p.strong ==> (Verified(x, p, available, Returned(row)) <==> Wanted(x, p, available, row))
  {
    if Wanted(x, p, available, row) {
      var c :| c in p.allowed && c in available && Matches(x, p, row, c);
      CheckReads(x, p, available, row, c);
      if p.strong {
        forall d | d in SCOPE ensures InScope(x, p, available, Returned(row), d) {
          CheckReads(x, p, available, row, d);
          assert Constrained(p, available, d) ==> Matches(x, p, row, d);
        }
      }
    }
    if Verified(x, p, available, Returned(row)) {
      QuerySelectsVerified(x, p, available, row);
    }
  }

  /** Without a clause there is no row the check would accept. */
  lemma NoClauseNoRow(x: Text, p: Profile, available: set<Column>, row: Row)
    requires forall column :: column in p.allowed ==> !Constrained(p, available, column)
    ensures !Verified(x, p, available, row)
  {
    forall column ensures !Identifies(x, p, available, row, column) {
      assert column in p.allowed ==> !Constrained(p, available, column);
    }
  }

  ghost predicate CaseOnlyAt(x: Text, s: Word) {
    && x.lower(s) == x.fold(s) && x.lower(x.lower(s)) == x.lower(s)
    && |x.lower(s).text| == |s.text| && Left(x.lower(s)) == x.lower(Left(s))
    && x.strip(x.lower(s)) == x.lower(x.strip(s)) && x.strip(x.strip(s)) == x.strip(s)
  }

  /** Lower-casing works character by character, and so goes together with cutting and with stripping. */
  ghost predicate CaseOnly(x: Text) {
    forall s :: CaseOnlyAt(x, s)
  }

  lemma ExpectedIsNormal(x: Text, t: Target, column: Column, v: Word)
    requires CaseOnly(x) && v in Expected(x, t, column)
    ensures x.lower(v) == v && x.strip(v) == v
  {
    var w :| w in ColumnValues(t, column) && v == x.Key(w);
    var a := x.strip(w);
    assert x.Key(w) == x.fold(a);
    assert CaseOnlyAt(x, w);
    assert CaseOnlyAt(x, a);
    assert x.fold(a) == x.lower(a);
    assert x.strip(a) == a;
  }

  lemma KeyOfCut(x: Text, cell: Word)
    requires CaseOnly(x)
    ensures x.Key(Left(cell)) == x.strip(Left(x.lower(cell)))
  {
    assert CaseOnlyAt(x, cell) && CaseOnlyAt(x, Left(cell)) && CaseOnlyAt(x, x.strip(Left(cell)));
  }

  /** The value does not survive the cut to what is returned. */
  predicate TooLong(x: Text, t: Target, column: Column, v: Word) {
    v in Expected(x, t, column) && x.strip(Left(v)) !in Expected(x, t, column)
  }

  /** Whether a cell is lost can then be told from the target: it is one of a value too long to survive the cut. */
  lemma LosesIff(x: Text, t: Target, column: Column)
    requires CaseOnly(x)
    ensures Loses(x, About(x, t), column) <==> exists v :: TooLong(x, t, column, v)
    ensures forall v :: TooLong(x, t, column, v) ==> |v.text| > CELL_LIMIT
  {
    var p := About(x, t);
    forall v | TooLong(x, t, column, v) ensures |v.text| > CELL_LIMIT && Loses(x, p, column) {
      ExpectedIsNormal(x, t, column, v);
      KeyOfCut(x, v);
      assert Tested(x, p, column, v) && !Accepted(x, p, column, v);
    }
    if cell :| Tested(x, p, column, cell) && !Accepted(x, p, column, cell) {
      KeyOfCut(x, cell);
      assert TooLong(x, t, column, x.lower(cell));
    }
  }

  lemma SomethingIsLost(x: Text, p: Profile, available: set<Column>) returns (d: Column)
    requires p.strong && CanRefuse(x, p, available)
    ensures Loses(x, p, d)
  {
    var c :| Fails(x, p, available, c);
    if Loses(x, p, c) {
      d := c;
    } else {
      d :| LostScope(x, p, available, d);
    }
  }

  ghost predicate AllFit(x: Text, t: Target) {
    forall column, v :: v in Expected(x, t, column) ==> |v.text| <= CELL_LIMIT
  }

  /** A strong identity whose values all fit is never refused what the query selects. */
  lemma ShortIsNeverRefused(x: Text, t: Target, available: set<Column>, row: Row)
    requires x.Sane() && CaseOnly(x) && About(x, t).strong && AllFit(x, t)
    requires Wanted(x, About(x, t), available, row)
    ensures Verified(x, About(x, t), available, Returned(row))
  {
    var p := About(x, t);
    if Refused(x, p, available, row) {
      AboutIsShaped(x, t);
      RefusedFails(x, p, available, row);
      var d := SomethingIsLost(x, p, available);
      LosesIff(x, t, d);
      assert false;
    }
  }

  // ---- Both conditions, told from the target and the table

  function Spaced(v: Word): Word {
    Word(" " + v.text)
  }

  ghost predicate StripsSpaces(x: Text) {
    forall v :: x.strip(Spaced(v)) == x.strip(v)
  }

  /** Every value fits even with a space before it. */
  ghost predicate AllShort(x: Text, t: Target) {
    forall column, v :: v in Expected(x, t, column) ==> |v.text| < CELL_LIMIT
  }

  lemma SpacedReads(x: Text, v: Word)
    requires CaseOnly(x) && StripsSpaces(x) && x.lower(v) == v && x.strip(v) == v && |v.text| < CELL_LIMIT
    ensures x.Key(Left(Spaced(v))) == v
    ensures x.strip(x.lower(Spaced(v))) == v && |x.lower(Spaced(v)).text| == |v.text| + 1
  {
    assert CaseOnlyAt(x, v) && CaseOnlyAt(x, Spaced(v)) && x.strip(Spaced(v)) == v;
  }

  lemma ShortValue(x: Text, t: Target, column: Column, v: Word)
    requires CaseOnly(x) && StripsSpaces(x) && v in Expected(x, t, column) && |v.text| < CELL_LIMIT
    ensures Tested(x, About(x, t), column, v) && Splits(x, About(x, t), column)
  {
    var p, cell := About(x, t), Spaced(v);
    ExpectedIsNormal(x, t, column, v);
    SpacedReads(x, v);
    assert Accepted(x, p, column, cell);
    if Tested(x, p, column, cell) {
      ExpectedIsNormal(x, t, column, x.lower(cell));
      assert false;
    }
  }

  /** For values of ordinary length, the query can miss a row as soon as there is a query at all. */
  lemma ShortMissesIff(x: Text, t: Target, available: set<Column>)
    requires x.Sane() && CaseOnly(x) && StripsSpaces(x) && AllShort(x, t)
    ensures var p := About(x, t);
      CanMiss(x, p, available) <==> exists c :: Identity(p, available, c) && Constrained(p, available, c)
  {
    var p := About(x, t);
    forall c | p.expected(c) != {} ensures Splits(x, p, c) && Acceptable(x, p, c) {
      var v :| v in Expected(x, t, c);
      ShortValue(x, t, c, v);
    }
    if c :| Identity(p, available, c) && Constrained(p, available, c) {
      assert Escapes(x, p, available, c);
    }
    if c :| Escapes(x, p, available, c) {
      assert Constrained(p, available, c);
    }
  }

  /** A known identity column, and a known scope column besides. */
  predicate TwoKnown(p: Profile, available: set<Column>, c: Column, d: Column) {
    Identity(p, available, c) && p.expected(c) != {} && Scoped(p, available, d) && d != c
  }

  lemma NothingLost(x: Text, p: Profile, available: set<Column>)
    requires forall c :: !Loses(x, p, c) && (Testable(x, p, c) <==> p.expected(c) != {})
    ensures CanRefuse(x, p, available) <==> !p.strong && exists c, d :: TwoKnown(p, available, c, d)
  {
    if c :| Fails(x, p, available, c) {
      assert !p.strong;
      var d :| d != c && Scoped(p, available, d);
      assert TwoKnown(p, available, c, d);
    }
    if c, d :| !p.strong && TwoKnown(p, available, c, d) {
      assert Fails(x, p, available, c);
    }
  }

  /** And it returns a refused row exactly for a weak identity with two known columns, one of them a scope column. */
  lemma ShortRefusesIff(x: Text, t: Target, available: set<Column>)
    requires x.Sane() && CaseOnly(x) && StripsSpaces(x) && AllShort(x, t)
    ensures var p := About(x, t);
      CanRefuse(x, p, available) <==> !p.strong && exists c, d :: TwoKnown(p, available, c, d)
  {
    var p := About(x, t);
    forall c ensures !Loses(x, p, c) && (Testable(x, p, c) <==> p.expected(c) != {}) {
      LosesIff(x, t, c);
      if p.expected(c) != {} {
        var v :| v in Expected(x, t, c);
        ShortValue(x, t, c, v);
      }
    }
    NothingLost(x, p, available);
  }

  // ---- Rows on which they differ

  /** Blanks off both ends. */
  function Trimmed(s: string): string {
    if s != "" && s[0] == ' ' then Trimmed(s[1..])
    else if s != "" && s[|s| - 1] == ' ' then Trimmed(s[..|s| - 1])
    else s
  }

  /** Text without capital letters. */
  function Plain(): Text {
    Text((w: Word) => Word(Trimmed(w.text)), w => w, w => w, (_, _) => true)
  }

  lemma PlainIsSane()
    ensures Plain().Sane()
  {
  }

  lemma ExpectsOnly(t: Target, column: Column, w: Word)
    requires ColumnValues(t, column) == [w] && Trimmed(w.text) == w.text
    ensures Expected(Plain(), t, column) == if w == BLANK then {} else {w}
  {
    assert w in ColumnValues(t, column);
    assert Plain().strip(w) == w == Plain().Key(w);
  }

  function OnlyPod(pod: Word): Target {
    Target(BLANK, BLANK, pod, BLANK, BLANK, BLANK)
  }

  lemma PodIsStrong(pod: Word)
    requires pod != BLANK && Trimmed(pod.text) == pod.text
    ensures var p := About(Plain(), OnlyPod(pod)); p.strong && Pod in p.allowed && p.expected(Pod) == {pod}
  {
    ExpectsOnly(OnlyPod(pod), Pod, pod);
    assert Pod in STRONG && Expected(Plain(), OnlyPod(pod), Pod) != {};
  }

  /** A table whose only column is the pod. */
  lemma PodProfile(p: Profile, pod: Word, row: Row)
    requires Shaped(Plain(), p) && p.strong && Pod in p.allowed && p.expected(Pod) == {pod} && row.Keys == {Pod}
    ensures Wanted(Plain(), p, {Pod}, row) <==> row[Pod] == pod
    ensures Verified(Plain(), p, {Pod}, Returned(row)) <==> Trimmed(Left(row[Pod]).text) == pod.text
  {
    var x := Plain();
    assert Matches(x, p, row, Pod) <==> row[Pod] == pod;
    forall c | c in SCOPE ensures InScope(x, p, {Pod}, Returned(row), c) && !Constrained(p, {Pod}, c) {
      assert c != Pod;
    }
    CheckReads(x, p, {Pod}, row, Pod);
    assert forall c :: Identifies(x, p, {Pod}, Returned(row), c) ==> c == Pod;
  }

  lemma PodRow(pod: Word, cell: Word)
    requires pod != BLANK && Trimmed(pod.text) == pod.text
    ensures var p := About(Plain(), OnlyPod(pod));
      && (Wanted(Plain(), p, {Pod}, map[Pod := cell]) <==> cell == pod)
      && (Verified(Plain(), p, {Pod}, Returned(map[Pod := cell])) <==> Trimmed(Left(cell).text) == pod.text)
  {
    PlainIsSane();
    AboutIsShaped(Plain(), OnlyPod(pod));
    PodIsStrong(pod);
    PodProfile(About(Plain(), OnlyPod(pod)), pod, map[Pod := cell]);
  }

  /** The check accepts a pod name with a space before it; the query does not select it. */
  lemma PaddedPodIsMissed()
    ensures Missed(Plain(), About(Plain(), OnlyPod(Word("pod-1"))), {Pod}, map[Pod := Word(" pod-1")])
  {
    var pod, padded := "pod-1", " pod-1";
    assert padded[0] == ' ' && padded[1..] == pod && pod[0] == 'p' && pod[4] == '1';
    assert Trimmed(padded) == Trimmed(pod) == pod;
    PodRow(Word(pod), Word(padded));
  }

  /** The query selects the row of a pod name of 250 characters, and the check refuses it. */
  lemma LongPodIsRefused()
    ensures var pod := Word(seq(250, _ => 'p'));
      Refused(Plain(), About(Plain(), OnlyPod(pod)), {Pod}, map[Pod := pod])
  {
    var pod := Word(seq(250, _ => 'p'));
    var cut := Left(pod);
    assert cut.text[0] == 'p' && cut.text[239] == 'p' && Trimmed(cut.text) == cut.text;
    assert Trimmed(pod.text) == pod.text;
    PodRow(pod, pod);
  }

  function ProjectAndQueue(): Target {
    Target(BLANK, BLANK, BLANK, Word("p"), Word("q"), BLANK)
  }

  lemma ProjectIsWeak()
    ensures !About(Plain(), ProjectAndQueue()).strong
    ensures Expected(Plain(), ProjectAndQueue(), Project) == {Word("p")}
    ensures Expected(Plain(), ProjectAndQueue(), Queue) == {Word("q")}
  {
    var t := ProjectAndQueue();
    assert "p"[0] == 'p' && "q"[0] == 'q';
    assert Trimmed("") == "" && Trimmed("p") == "p" && Trimmed("q") == "q";
    ExpectsOnly(t, Project, Word("p"));
    ExpectsOnly(t, Queue, Word("q"));
    forall c | c in STRONG ensures Expected(Plain(), t, c) == {} {
      assert forall v :: v in ColumnValues(t, c) ==> v == BLANK;
    }
  }

  lemma OtherQueue(p: Profile, row: Row)
    requires !p.strong && Project in p.allowed && p.expected(Project) == {Word("p")} && p.expected(Queue) == {Word("q")}
    requires row == map[Project := Word("p"), Queue := Word("r")]
    ensures Refused(Plain(), p, {Project, Queue}, row)
  {
    var x := Plain();
    assert "q"[0] == 'q' && "r"[0] == 'r' && Trimmed("r") == "r";
    assert Matches(x, p, row, Project);
    ReturnedCell(row, Queue);
    assert x.Key(Left(Word("r"))) == Word("r") != Word("q");
    assert Constrained(p, {Project, Queue}, Queue) && Queue in SCOPE;
    assert !InScope(x, p, {Project, Queue}, Returned(row), Queue);
  }

  /** For an alert with only a project and a queue, the query selects a row of that project in another queue. */
  lemma OtherQueueIsRefused()
    ensures var p := About(Plain(), ProjectAndQueue());
      !p.strong && Refused(Plain(), p, {Project, Queue}, map[Project := Word("p"), Queue := Word("r")])
  {
    ProjectIsWeak();
    OtherQueue(About(Plain(), ProjectAndQueue()), map[Project := Word("p"), Queue := Word("r")]);
  }
}
