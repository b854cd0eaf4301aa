/** The verdict on a sample of returned audit rows: all or nothing, with the span and the identity they prove. */
module HistoryRows {
  import opened HistoryCheck
  import opened HistoryPredicate
  import opened Wrappers

  /** An element of the sample; the time is missing when it cannot be parsed. */
  datatype Received = Malformed | Sampled(time: Option<int>, row: Row)

  datatype Span = Span(start: int, end: int)

  /** The row is one that can bear on the cause: it happened by then. */
  predicate Early(causalEnd: int, r: Received) {
    r.Sampled? && r.time.Some? && r.time.value <= causalEnd
  }

  /** A row that does not spoil the sample. */
  ghost predicate Fine(x: Text, t: Target, available: set<Column>, start: int, causalEnd: int, r: Received) {
    && r.Sampled? && r.time.Some?
    && (Early(causalEnd, r) ==> start <= r.time.value && Verified(x, About(x, t), available, r.row))
  }

  /** The sample proves the count: no row spoils it and one is early enough. */
  ghost predicate Proven(x: Text, t: Target, available: set<Column>, start: int, causalEnd: int, rows: seq<Received>) {
    && (forall r :: r in rows ==> Fine(x, t, available, start, causalEnd, r))
    && (exists r :: r in rows && Early(causalEnd, r))
  }

  /** The tightest span around the early rows. */
  ghost predicate Around(causalEnd: int, rows: seq<Received>, span: Span) {
    && (forall r :: r in rows && Early(causalEnd, r) ==> span.start <= r.time.value <= span.end)
    && (exists r :: r in rows && Early(causalEnd, r) && r.time.value == span.start)
    && (exists r :: r in rows && Early(causalEnd, r) && r.time.value == span.end)
  }

  predicate Specific(e: Entity) { e.kind == PodKind || e.kind == WorkloadIdKind }

  /** The first specific identity, else the first of all. */
  function Preferred(entities: seq<Entity>): Entity
    requires entities != []
  {
    var at := FirstSpecific(entities);
    if at < |entities| then entities[at] else entities[0]
  }

  function FirstSpecific(entities: seq<Entity>): (at: nat)
    ensures at <= |entities| && forall i :: 0 <= i < at ==> !Specific(entities[i])
    ensures at < |entities| ==> Specific(entities[at])
  {
    if entities == [] || Specific(entities[0]) then 0 else 1 + FirstSpecific(entities[1..])
  }

  /** The first pod or workload id among them, and if there is none the first of all. */
  ghost predicate MostSpecific(entities: seq<Entity>, e: Entity) {
    || (exists i :: 0 <= i < |entities| && entities[i] == e && e.kind in {PodKind, WorkloadIdKind}
                    && forall k :: 0 <= k < i ==> entities[k].kind !in {PodKind, WorkloadIdKind})
    || (entities != [] && e == entities[0] && forall k :: 0 <= k < |entities| ==>
          entities[k].kind !in {PodKind, WorkloadIdKind})
  }

  lemma PreferredIs(entities: seq<Entity>)
    requires entities != []
    ensures forall e :: MostSpecific(entities, e) <==> e == Preferred(entities)
  {
    var at := FirstSpecific(entities);
    forall e | MostSpecific(entities, e) ensures e == Preferred(entities) {
      if at < |entities| {
        var i :| 0 <= i < |entities| && entities[i] == e && e.kind in {PodKind, WorkloadIdKind}
          && forall k :: 0 <= k < i ==> entities[k].kind !in {PodKind, WorkloadIdKind};
        assert i == at;
      }
    }
    if at < |entities| {
      assert entities[at].kind in {PodKind, WorkloadIdKind};
    }
  }

  /** One identity for each early row, in order. */
  ghost predicate Identities(x: Text, t: Target, available: set<Column>, order: seq<Column>, causalEnd: int,
                             rows: seq<Received>, entities: seq<Entity>)
    decreases |rows|
  {
    if rows == [] then entities == []
    else
      var init, last := rows[..|rows| - 1], rows[|rows| - 1];
      if !Early(causalEnd, last) then Identities(x, t, available, order, causalEnd, init, entities)
      else entities != [] && Identities(x, t, available, order, causalEnd, init, entities[..|entities| - 1])
           && Proves(x, t, available, order, last.row, entities[|entities| - 1])
  }

  /** The most specific field of the alert itself. */
  function TargetEntity(x: Text, t: Target): Option<Entity> {
    if x.strip(t.pod) != BLANK then Some(Entity(PodKind, x.strip(t.pod)))
    else if x.strip(t.workloadId) != BLANK then Some(Entity(WorkloadIdKind, x.strip(t.workloadId)))
    else if x.strip(t.workloadName) != BLANK then Some(Entity(WorkloadNameKind, x.strip(t.workloadName)))
    else if x.strip(t.project) != BLANK then Some(Entity(ProjectKind, x.strip(t.project)))
    else if x.strip(t.queue) != BLANK then Some(Entity(QueueKind, x.strip(t.queue)))
    else if x.strip(t.namespace) != BLANK then Some(Entity(NamespaceKind, x.strip(t.namespace)))
    else None
  }

  /** The alert's fields from the most specific one on. */
  ghost function Fields(t: Target): seq<Entity> {
    [Entity(PodKind, t.pod), Entity(WorkloadIdKind, t.workloadId), Entity(WorkloadNameKind, t.workloadName),
     Entity(ProjectKind, t.project), Entity(QueueKind, t.queue), Entity(NamespaceKind, t.namespace)]
  }

  /** The first field that is not blank, stripped; none if all are blank. */
  ghost predicate FirstField(x: Text, t: Target, entity: Option<Entity>) {
    var blank := (i: nat) => i < 6 ==> x.strip(Fields(t)[i].name) == BLANK;
    if entity.None? then forall i :: 0 <= i < 6 ==> blank(i)
    else exists i :: 0 <= i < 6 && !blank(i) && (forall k :: 0 <= k < i ==> blank(k))
                     && entity.value == Entity(Fields(t)[i].kind, x.strip(Fields(t)[i].name))
  }

  lemma TargetEntityIs(x: Text, t: Target)
    ensures FirstField(x, t, TargetEntity(x, t))
  {
    var f := Fields(t);
    assert f[0].name == t.pod && f[1].name == t.workloadId && f[2].name == t.workloadName;
    assert f[3].name == t.project && f[4].name == t.queue && f[5].name == t.namespace;
  }

  /** Whether the sample may support the count of matching rows. */
  ghost predicate Trusted(x: Text, t: Target, available: set<Column>, range: Option<Span>, causalEnd: Option<int>,
                          rows: Option<seq<Received>>, matches: nat) {
    && range.Some? && range.value.start <= range.value.end
    && (0 < matches ==> causalEnd.Some? && rows.Some?
                        && Proven(x, t, available, range.value.start, causalEnd.value, rows.value))
  }

  method VerifiedRows(x: Text, t: Target, available: set<Column>, order: seq<Column>, range: Option<Span>,
                      causalEnd: Option<int>, rows: Option<seq<Received>>, matches: nat)
    returns (ok: bool, span: Option<Span>, entity: Option<Entity>, ghost entities: seq<Entity>)
    requires IterationOrder(order)
    ensures ok <==> Trusted(x, t, available, range, causalEnd, rows, matches)
    ensures !ok ==> span.None? && entity.None?
    ensures ok && matches == 0 ==> span.None? && FirstField(x, t, entity)
    ensures ok && 0 < matches ==> span.Some? && Around(causalEnd.value, rows.value, span.value)
    ensures ok && 0 < matches ==>
      range.value.start <= span.value.start <= span.value.end <= causalEnd.value
    ensures ok && 0 < matches ==>
      Identities(x, t, available, order, causalEnd.value, rows.value, entities)
      && entity.Some? && MostSpecific(entities, entity.value)
  {
    ok, span, entity, entities := false, None, None, [];
    if range.None? || range.value.end < range.value.start {
      return;
    }
    if matches == 0 {
      TargetEntityIs(x, t);
      return true, None, TargetEntity(x, t), [];
    }
    if causalEnd.None? || rows.None? || rows.value == [] {
      return;
    }
    var fine, found, proven := Walk(x, t, available, order, range.value.start, causalEnd.value, rows.value);
    if !fine || found.None? {
      return;
    }
    PreferredIs(proven);
    return true, found, Some(Preferred(proven)), proven;
  }

  /** One row: whether it is fine, and the identity it proves if it is early. */
  method Judge(x: Text, t: Target, available: set<Column>, order: seq<Column>, start: int, causalEnd: int, r: Received)
    returns (fine: bool, entity: Option<Entity>)
    requires IterationOrder(order)
    ensures fine <==> Fine(x, t, available, start, causalEnd, r)
    ensures fine ==> (entity.Some? <==> Early(causalEnd, r))
    ensures fine && entity.Some? ==> Proves(x, t, available, order, r.row, entity.value)
  {
    fine, entity := true, None;
    if r.Malformed? || r.time.None? {
      fine := false;
    } else if r.time.value <= causalEnd {
      if r.time.value < start {
        fine := false;
      } else {
        entity := RowEntity(x, t, available, order, r.row);
        fine := entity.Some?;
      }
    }
  }

  /** What the loop knows about the rows it has seen. */
  ghost predicate Walked(x: Text, t: Target, available: set<Column>, order: seq<Column>, start: int, causalEnd: int,
                         rows: seq<Received>, span: Option<Span>, entities: seq<Entity>) {
    && (forall r :: r in rows ==> Fine(x, t, available, start, causalEnd, r))
    && Identities(x, t, available, order, causalEnd, rows, entities)
    && Spanned(causalEnd, start, rows, span) && (span.Some? ==> entities != [])
  }

  lemma WalkedOn(x: Text, t: Target, available: set<Column>, order: seq<Column>, start: int, causalEnd: int,
                 rows: seq<Received>, r: Received, span: Option<Span>, entities: seq<Entity>, entity: Option<Entity>)
    requires Walked(x, t, available, order, start, causalEnd, rows, span, entities)
    requires Fine(x, t, available, start, causalEnd, r) && (entity.Some? <==> Early(causalEnd, r))
    requires entity.Some? ==> Proves(x, t, available, order, r.row, entity.value)
    ensures entity.None? ==> Walked(x, t, available, order, start, causalEnd, rows + [r], span, entities)
    ensures entity.Some? ==> Walked(x, t, available, order, start, causalEnd, rows + [r],
                                    Some(Widened(span, r.time.value)), entities + [entity.value])
  {
    NoMoreSpan(causalEnd, start, rows, r, span);
    assert (rows + [r])[..|rows|] == rows;
    if entity.Some? {
      assert (entities + [entity.value])[..|entities|] == entities;
    }
  }

  /** The loop over the sample; it gives up at the first row that spoils it. */
  method Walk(x: Text, t: Target, available: set<Column>, order: seq<Column>, start: int, causalEnd: int,
              rows: seq<Received>)
    returns (fine: bool, span: Option<Span>, entities: seq<Entity>)
    requires IterationOrder(order)
    ensures fine <==> forall r :: r in rows ==> Fine(x, t, available, start, causalEnd, r)
    ensures fine ==> Walked(x, t, available, order, start, causalEnd, rows, span, entities)
  {
    fine, span, entities := true, None, [];
    for i := 0 to |rows|
      invariant fine && Walked(x, t, available, order, start, causalEnd, rows[..i], span, entities)
    {
      var r := rows[i];
      OneMoreRow(rows, i);
      var rowIsFine, entity := Judge(x, t, available, order, start, causalEnd, r);
      if !rowIsFine {
        assert r in rows;
        return false, None, [];
      }
      WalkedOn(x, t, available, order, start, causalEnd, rows[..i], r, span, entities, entity);
      if entity.Some? {
        span, entities := Some(Widened(span, r.time.value)), entities + [entity.value];
      }
    }
    assert rows[..|rows|] == rows;
  }

  lemma OneMoreRow(rows: seq<Received>, i: nat)
    requires i < |rows|
    ensures rows[..i + 1] == rows[..i] + [rows[i]]
  {
  }

  ghost predicate Spanned(causalEnd: int, start: int, rows: seq<Received>, span: Option<Span>) {
    if span.None? then forall r :: r in rows ==> !Early(causalEnd, r)
    else Around(causalEnd, rows, span.value) && start <= span.value.start <= span.value.end <= causalEnd
  }

  function Widened(span: Option<Span>, at: int): Span {
    if span.None? then Span(at, at)
    else Span(if at < span.value.start then at else span.value.start,
              if span.value.end < at then at else span.value.end)
  }

  lemma NoMoreSpan(causalEnd: int, start: int, rows: seq<Received>, r: Received, span: Option<Span>)
    requires Spanned(causalEnd, start, rows, span)
    ensures !Early(causalEnd, r) ==> Spanned(causalEnd, start, rows + [r], span)
    ensures Early(causalEnd, r) && start <= r.time.value ==>
              Spanned(causalEnd, start, rows + [r], Some(Widened(span, r.time.value)))
  {
    var more := rows + [r];
    assert r in more && forall s :: s in rows ==> s in more;
    if span.Some? {
      var first :| first in rows && Early(causalEnd, first) && first.time.value == span.value.start;
      var last :| last in rows && Early(causalEnd, last) && last.time.value == span.value.end;
      assert first in more && last in more;
    }
  }

  /**
   * One early row that the query selects and the check refuses spoils the
   * whole sample: the table's history cannot support any claim.
   */
  lemma RefusedRowSpoils(x: Text, t: Target, available: set<Column>, range: Option<Span>, causalEnd: int,
                         rows: seq<Received>, matches: nat, time: int, row: Row)
    requires 0 < matches && time <= causalEnd && Sampled(Some(time), Returned(row)) in rows
    ensures Refused(x, About(x, t), available, row) ==>
              !Trusted(x, t, available, range, Some(causalEnd), Some(rows), matches)
  {
    var r := Sampled(Some(time), Returned(row));
    assert Early(causalEnd, r);
    if Refused(x, About(x, t), available, row) && range.Some? {
      assert !Fine(x, t, available, range.value.start, causalEnd, r);
    }
  }

  /** The received row is one that the query selects in its window, cut. */
  ghost predicate Answered(x: Text, t: Target, available: set<Column>, range: Span, r: Received) {
    && r.Sampled? && r.time.Some? && range.start <= r.time.value <= range.end
    && exists row :: r.row == Returned(row) && Wanted(x, About(x, t), available, row)
  }

  lemma OwnRowIsFine(x: Text, t: Target, available: set<Column>, range: Span, causalEnd: int, r: Received)
    requires x.Sane() && CaseOnly(x) && About(x, t).strong && AllFit(x, t) && Answered(x, t, available, range, r)
    ensures Fine(x, t, available, range.start, causalEnd, r)
  {
    var row :| r.row == Returned(row) && Wanted(x, About(x, t), available, row);
    ShortIsNeverRefused(x, t, available, row);
  }

  /** For a strong identity whose values all fit, a sample of the query's own rows fails only by coming too late. */
  lemma OwnSampleIsTrusted(x: Text, t: Target, available: set<Column>, range: Span, causalEnd: int,
                           rows: seq<Received>, matches: nat)
    requires x.Sane() && CaseOnly(x) && About(x, t).strong && AllFit(x, t) && range.start <= range.end && 0 < matches
    requires forall r :: r in rows ==> Answered(x, t, available, range, r)
    ensures Trusted(x, t, available, Some(range), Some(causalEnd), Some(rows), matches) <==>
            exists r :: r in rows && Early(causalEnd, r)
  {
    forall r | r in rows ensures Fine(x, t, available, range.start, causalEnd, r) {
      OwnRowIsFine(x, t, available, range, causalEnd, r);
    }
  }
}
