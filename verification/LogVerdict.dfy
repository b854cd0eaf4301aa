/** What a Loki query result proves about an alert target: present, absent, or nothing. */
module LogVerdict {
  import opened Sorting
  import opened Wrappers

  /** Names, labels and log lines; only their equality and the rules of Texts matter here. */
  datatype Word = Word(text: string)

  // ---- Time windows, in microseconds

  const SECOND := 1_000_000
  const MINUTE := 60 * SECOND

  datatype Window = Window(start: int, end: int) {
    predicate Holds(t: int) { start <= t <= end }
  }

  /** Formatting an instant drops its microseconds. */
  function Floor(t: int): (r: int)
    ensures r <= t < r + SECOND && r % SECOND == 0
  {
    t - t % SECOND
  }

  /** Five minutes before the alert to five minutes after its resolution; a firing alert counts as fifteen minutes
      long. */
  function IncidentWindow(fired: int, resolved: Option<int>): Window {
    var end := if resolved.Some? && fired <= resolved.value then resolved.value else fired + 15 * MINUTE;
    Window(Floor(fired - 5 * MINUTE), Floor(end + 5 * MINUTE))
  }

  /** What may substantiate a cause: up to the resolution, or up to now while the alert fires. */
  function CausalWindow(fired: int, resolved: Option<int>, now: int): Window {
    var end := if resolved.Some? && fired <= resolved.value then resolved.value else now;
    Window(Floor(fired - 5 * MINUTE), Floor(end))
  }

  /** The causal window lies inside the incident window for a resolved alert, and for a firing one during its first
      twenty minutes. */
  lemma CausalInsideIncidentIff(fired: int, resolved: Option<int>, now: int)
    ensures CausalWindow(fired, resolved, now).start == IncidentWindow(fired, resolved).start
    ensures CausalWindow(fired, resolved, now).end <= IncidentWindow(fired, resolved).end <==>
      (resolved.Some? && fired <= resolved.value) || now < Floor(fired + 20 * MINUTE) + SECOND
  {
    if resolved.Some? && fired <= resolved.value {
      FloorMonotone(resolved.value, resolved.value + 5 * MINUTE);
    } else {
      FloorBelow(now, fired + 20 * MINUTE);
    }
  }

  lemma FloorMonotone(a: int, b: int)
    requires a <= b
    ensures Floor(a) <= Floor(b)
  {
    FloorBelow(a, b);
  }

  lemma FloorBelow(a: int, b: int)
    ensures Floor(a) <= Floor(b) <==> a < Floor(b) + SECOND
  {
    var p, q := a / SECOND, b / SECOND;
    assert Floor(a) == p * SECOND && Floor(b) == q * SECOND;
  }

  // ---- Query results

  datatype Labels = Labels(namespace: Word, pod: Word, names: seq<Word>)

  /** A retained log entry; any part may be missing or unreadable. */
  datatype Entry = Entry(time: Option<int>, line: Option<Word>, labels: Option<Labels>)

  datatype QueryName =
      ErrorLogs | RecentLogs | Drilldown | WorkloadHistory | ControlPlaneForWorkload | ControlPlaneErrors | Unnamed

  datatype Item = Item(
    name: QueryName,
    error: bool,
    lineCount: nat,
    samples: seq<Entry>,
    verification: Option<seq<Entry>>,
    streamLabels: seq<Option<Labels>>,
    labelsComplete: bool,
    direct: bool,
    responseComplete: bool,
    range: Option<Window>,
    selectsTarget: bool,
    namespaceSelected: Word -> bool,
    coverageVerified: bool)

  datatype Target = Target(namespace: Word, pod: Word, workload: Word, workloadId: Word)

  /** The collection plan's narrower scope, where it has one. */
  datatype Plan = Plan(namespace: Word, pod: Word, workload: Word)

  /** The text rules: which lines affirm a failure, which are correlated failures, and how names occur in text. */
  datatype Texts = Texts(
    affirms: Word -> bool,
    correlates: Word -> bool,
    mentions: (Word, Word) -> bool,
    namesToken: (Word, Word) -> bool,
    longEnough: Word -> bool,
    blank: Word,
    platform: set<Word>)

  function Verification(item: Item): seq<Entry> {
    if item.verification.Some? then item.verification.value else item.samples
  }

  predicate Proper(w: Option<Window>) {
    w.Some? && w.value.start <= w.value.end
  }

  predicate Affirms(x: Texts, w: Option<Window>, e: Entry) {
    Proper(w) && e.time.Some? && w.value.Holds(e.time.value) && e.line.Some? && x.affirms(e.line.value)
  }

  predicate Correlates(x: Texts, w: Option<Window>, e: Entry) {
    Proper(w) && e.time.Some? && w.value.Holds(e.time.value) && e.line.Some? && x.correlates(e.line.value)
  }

  function Affirmative(x: Texts, w: Option<Window>, entries: seq<Entry>): seq<Entry> {
    Filter(e => Affirms(x, w, e), entries)
  }

  method AffirmativeLines(x: Texts, w: Option<Window>, entries: seq<Entry>) returns (lines: seq<Entry>)
    ensures lines == Affirmative(x, w, entries)
  {
    lines := [];
    if w.None? || w.value.end < w.value.start {
      FilterNone(e => Affirms(x, w, e), entries);
      return;
    }
    for i := 0 to |entries|
      invariant lines == Affirmative(x, w, entries[..i])
    {
      var e := entries[i];
      FilterSnoc(e => Affirms(x, w, e), entries, i);
      if e.time.Some? && w.value.start <= e.time.value <= w.value.end && e.line.Some? {
        if x.affirms(e.line.value) {
          lines := lines + [e];
        }
      }
    }
    assert entries[..|entries|] == entries;
  }

  /** Whether any readable timestamp lies in the window; None when that cannot be told. */
  function InWindow(w: Option<Window>, entries: seq<Entry>): Option<bool> {
    if !Proper(w) || forall e :: e in entries ==> e.time.None? then None
    else Some(exists e :: e in entries && e.time.Some? && w.value.Holds(e.time.value))
  }

  // ---- Target scope

  datatype Entity =
      PodNamed(name: Word) | WorkloadNamed(name: Word) | NamespaceNamed(name: Word) | WorkloadId(name: Word)

  predicate Correlated(name: QueryName) {
    name == WorkloadHistory || name == ControlPlaneForWorkload
  }

  /** The scope a query must prove: the plan's where it has one, else the target's. */
  function ScopeOf(x: Texts, t: Target, plan: Option<Plan>): Plan {
    if plan.None? then Plan(t.namespace, t.pod, t.workload)
    else Plan(
      if plan.value.namespace != x.blank then plan.value.namespace else t.namespace,
      if plan.value.pod != x.blank then plan.value.pod else t.pod,
      if plan.value.workload != x.blank then plan.value.workload else t.workload)
  }

  function EntityOf(x: Texts, scope: Plan): Entity {
    if scope.pod != x.blank then PodNamed(scope.pod)
    else if scope.workload != x.blank then WorkloadNamed(scope.workload)
    else NamespaceNamed(scope.namespace)
  }

  /** The labels name the scope's namespace, and its pod or workload. */
  predicate LabelsMatch(x: Texts, scope: Plan, labels: Labels) {
    && labels.namespace == scope.namespace
    && (scope.pod != x.blank ==> labels.pod == scope.pod)
    && (scope.pod == x.blank && scope.workload != x.blank ==> exists n ::
        n in labels.names && x.mentions(scope.workload, n))
  }

  predicate Labelled(x: Texts, scope: Plan, labels: Option<Labels>) {
    labels.Some? && LabelsMatch(x, scope, labels.value)
  }

  /** An empty result is trusted only from Loki itself, for the exact range and selector, with known log coverage. */
  predicate DirectEmpty(item: Item, w: Option<Window>) {
    item.lineCount == 0 && item.direct && item.responseComplete && item.coverageVerified && item.range == w
        && item.selectsTarget
  }

  /** Complete stream labels, or else the labels of every affirmative entry. */
  predicate LabelsProve(x: Texts, item: Item, scope: Plan, w: Option<Window>) {
    if item.labelsComplete && item.streamLabels != [] then forall l :: l in item.streamLabels ==> Labelled(x, scope, l)
    else
      && Affirmative(x, w, Verification(item)) != []
      && forall e :: e in Affirmative(x, w, Verification(item)) ==> Labelled(x, scope, e.labels)
  }

  predicate StreamScope(x: Texts, item: Item, t: Target, plan: Option<Plan>, w: Option<Window>) {
    var scope := ScopeOf(x, t, plan);
    && (item.name == ErrorLogs || item.name == RecentLogs || item.name == Drilldown)
    && scope.namespace != x.blank
    && (DirectEmpty(item, w) || LabelsProve(x, item, scope, w))
  }

  /** The immutable identity a correlated row must mention. */
  function Identity(x: Texts, t: Target, plan: Option<Plan>): Option<Entity> {
    var pod := if plan.Some? && plan.value.pod != x.blank then plan.value.pod else t.pod;
    if t.workloadId != x.blank then Some(WorkloadId(t.workloadId))
    else if x.longEnough(pod) then Some(PodNamed(pod))
    else None
  }

  predicate RowIdentifies(x: Texts, item: Item, t: Target, identity: Entity, e: Entry) {
    && e.line.Some? && x.namesToken(identity.name, e.line.value)
    && e.labels.Some? && e.labels.value.namespace != x.blank && item.namespaceSelected(e.labels.value.namespace)
    && (item.name == WorkloadHistory ==> t.namespace != x.blank && e.labels.value.namespace == t.namespace)
  }

  predicate CorrelatedScope(x: Texts, item: Item, t: Target, plan: Option<Plan>, w: Option<Window>) {
    var rows := Filter(e => Correlates(x, w, e), Verification(item));
    Identity(x, t, plan).Some? && rows != [] && forall e :: e in rows ==>
        RowIdentifies(x, item, t, Identity(x, t, plan).value, e)
  }

  predicate TargetScope(x: Texts, item: Item, t: Target, plan: Option<Plan>, w: Option<Window>) {
    if Correlated(item.name) then CorrelatedScope(x, item, t, plan, w) else StreamScope(x, item, t, plan, w)
  }

  // ---- The verdict

  datatype Polarity = Present | Absent | Unknown | Unavailable

  /** The polarity before the target's scope is checked. */
  function Claim(x: Texts, item: Item, w: Option<Window>, causal: Option<Window>, t: Option<Target>): Polarity {
    var affirmed := Affirmative(x, causal, Verification(item)) != [];
    var inWindow := InWindow(w, item.samples) == Some(true);
    if item.error then Unavailable
    else if item.name == ControlPlaneErrors then
      if t.Some? && t.value.namespace in x.platform && inWindow && affirmed then Present else Unknown
    else if Correlated(item.name) && t.None? then Unknown
    else if w.None? then Unknown
    else if item.name == RecentLogs then Unknown
    else if Correlated(item.name) && !affirmed then Unknown
    else if item.lineCount == 0 then Absent
    else if !inWindow then Unknown
    else if item.name == ErrorLogs && !affirmed then Unknown
    else Present
  }

  predicate ScopeHolds(x: Texts, item: Item, w: Option<Window>, t: Target, plan: Option<Plan>) {
    if item.name == ControlPlaneErrors then t.namespace in x.platform else TargetScope(x, item, t, plan, w)
  }

  function Verdict(x: Texts, item: Item, w: Option<Window>, causal: Option<Window>, t: Option<Target>,
                   plan: Option<Plan>): Polarity {
    var claim := Claim(x, item, w, causal, t);
    if (claim == Present || claim == Absent) && t.Some? && !ScopeHolds(x, item, w, t.value, plan) then Unknown
        else claim
  }

  predicate CausalQuery(name: QueryName) {
    name == ErrorLogs || Correlated(name) || name == ControlPlaneErrors
  }

  /** Presence is backed by a line that affirms a failure inside the causal window, and by the scope check. */
  lemma PresentIsBacked(x: Texts, item: Item, w: Option<Window>, causal: Option<Window>, t: Target, plan: Option<Plan>)
    requires Verdict(x, item, w, causal, Some(t), plan) == Present && CausalQuery(item.name)
    ensures !item.error && ScopeHolds(x, item, w, t, plan) && InWindow(w, item.samples) == Some(true)
    ensures SomeAffirms(x, causal, Verification(item))
  {
    var lines := Affirmative(x, causal, Verification(item));
    InFilter(e => Affirms(x, causal, e), Verification(item));
    assert lines[0] in lines;
    assert Affirms(x, causal, lines[0]);
  }

  /** An unfiltered tail is never a verdict, and a failed query never more than unavailable. */
  lemma TailAndErrorsProveNothing(x: Texts, item: Item, w: Option<Window>, causal: Option<Window>, t: Option<Target>,
                                  plan: Option<Plan>)
    ensures item.name == RecentLogs ==>
            Verdict(x, item, w, causal, t, plan) == if item.error then Unavailable else Unknown
    ensures Verdict(x, item, w, causal, t, plan) == Unavailable <==> item.error
  {
  }

  /** The query returned no stream and kept no entry. */
  ghost predicate NoStreams(item: Item) {
    item.lineCount == 0 && item.streamLabels == [] && Verification(item) == []
  }

  /** Absence without any stream is claimed only for a direct, complete answer under known log coverage. */
  lemma AbsentIsDirect(x: Texts, item: Item, w: Option<Window>, causal: Option<Window>, t: Target, plan: Option<Plan>)
    requires NoStreams(item)
    ensures Verdict(x, item, w, causal, Some(t), plan) == Absent <==>
      && (item.name == ErrorLogs || item.name == Drilldown) && !item.error && w.Some?
      && ScopeOf(x, t, plan).namespace != x.blank && DirectEmpty(item, w)
  {
  }

  // ---- Log coverage

  /** The first recent-log query of the batch. */
  function Recent(items: seq<Item>): Option<Item> {
    if items == [] then None else if items[0].name == RecentLogs then Some(items[0]) else Recent(items[1..])
  }

  /** The unfiltered tail returned in-window lines of the target. */
  predicate Covers(x: Texts, recent: Item, w: Option<Window>, t: Target, plan: Option<Plan>) {
    !recent.error && 0 < recent.lineCount && InWindow(w, recent.samples) == Some(true)
        && TargetScope(x, recent, t, plan, w)
  }

  predicate Coverage(x: Texts, items: seq<Item>, w: Option<Window>, t: Target, plan: Option<Plan>) {
    Recent(items).Some? && Covers(x, Recent(items).value, w, t, plan)
  }

  function Annotated(item: Item, verified: bool): Item {
    if item.name == ErrorLogs || item.name == RecentLogs then item.(coverageVerified := verified) else item
  }

  /** The unfiltered query of the batch returned lines inside the window, tied to the target by their labels. */
  ghost predicate ShowsTarget(x: Texts, recent: Item, w: Option<Window>, t: Target, plan: Option<Plan>) {
    && recent.name == RecentLogs && !recent.error && 0 < recent.lineCount
    && InWindow(w, recent.samples) == Some(true)
    && LabelsProve(x, recent, ScopeOf(x, t, plan), w)
  }

  lemma {:induction false} RecentIsFirst(items: seq<Item>, i: nat)
    requires i <= |items| && forall k :: 0 <= k < i ==> items[k].name != RecentLogs
    ensures Recent(items) == Recent(items[i..])
  {
    if 0 < i {
      RecentIsFirst(items, i - 1);
      assert items[i - 1..][1..] == items[i..];
    } else {
      assert items[0..] == items;
    }
  }

  method FindRecent(items: array<Item>) returns (recent: Option<Item>)
    ensures recent == Recent(items[..])
  {
    for i := 0 to items.Length
      invariant forall k :: 0 <= k < i ==> items[k].name != RecentLogs
    {
      if items[i].name == RecentLogs {
        RecentIsFirst(items[..], i);
        assert items[..][i..][0] == items[i];
        return Some(items[i]);
      }
    }
    RecentIsFirst(items[..], items.Length);
    assert items[..][items.Length..] == [];
    recent := None;
  }

  /** Records on the target's own queries whether the batch shows log coverage. */
  method AnnotateCoverage(x: Texts, items: array<Item>, w: Option<Window>, t: Target, plan: Option<Plan>)
    modifies items
    ensures forall i :: 0 <= i < items.Length ==>
            items[i] == Annotated(old(items[i]), Coverage(x, old(items[..]), w, t, plan))
  {
    var recent := FindRecent(items);
    var verified := recent.Some? && Covers(x, recent.value, w, t, plan);
    for i := 0 to items.Length
      invariant forall k :: i <= k < items.Length ==> items[k] == old(items[k])
      invariant forall k :: 0 <= k < i ==> items[k] == Annotated(old(items[k]), verified)
    {
      if items[i].name == ErrorLogs || items[i].name == RecentLogs {
        items[i] := items[i].(coverageVerified := verified);
      }
    }
  }

  lemma {:induction false} RecentIsListed(items: seq<Item>)
    requires Recent(items).Some?
    ensures Recent(items).value in items && Recent(items).value.name == RecentLogs
  {
    if items[0].name != RecentLogs {
      RecentIsListed(items[1..]);
    }
  }

  /**
   * In an annotated batch, absence of errors without any stream means that the
   * unfiltered query of the same batch did see the target's logs in the window.
   */
  lemma AbsentIsBacked(x: Texts, before: seq<Item>, i: nat, w: Option<Window>, causal: Option<Window>, t: Target,
                       plan: Option<Plan>)
    requires i < |before| && before[i].name == ErrorLogs && NoStreams(before[i])
    requires Verdict(x, Annotated(before[i], Coverage(x, before, w, t, plan)), w, causal, Some(t), plan) == Absent
    ensures before[i].direct && before[i].responseComplete && before[i].range == w
    ensures exists recent :: recent in before && ShowsTarget(x, recent, w, t, plan)
  {
    AbsentIsDirect(x, Annotated(before[i], Coverage(x, before, w, t, plan)), w, causal, t, plan);
    RecentIsListed(before);
    assert ShowsTarget(x, Recent(before).value, w, t, plan);
  }

  /** Presence of this query always rests on a line that affirms a failure inside the causal window. */
  ghost predicate Backed(name: QueryName) {
    forall x, item: Item, w, causal, t, plan ::
      item.name == name && Verdict(x, item, w, causal, Some(t), plan) == Present ==>
        SomeAffirms(x, causal, Verification(item))
  }

  ghost predicate SomeAffirms(x: Texts, causal: Option<Window>, entries: seq<Entry>) {
    exists e :: e in entries && Affirms(x, causal, e)
  }

  /** Every query's presence is backed that way, except that of an ad-hoc drill-down. */
  lemma BackedIff(name: QueryName)
    ensures Backed(name) <==> name != Drilldown
  {
    if name == Drilldown {
      var x, item, w, t := BareDrilldown();
      assert Verdict(x, item, Some(w), Some(w), Some(t), None) == Present;
      assert !SomeAffirms(x, Some(w), Verification(item));
    } else {
      forall x, item: Item, w, causal, t, plan |
        item.name == name && Verdict(x, item, w, causal, Some(t), plan) == Present
        ensures SomeAffirms(x, causal, Verification(item))
      {
        NamedQuery(x, item, w, causal, t, plan);
        PresentIsBacked(x, item, w, causal, t, plan);
      }
    }
  }

  lemma NamedQuery(x: Texts, item: Item, w: Option<Window>, causal: Option<Window>, t: Target, plan: Option<Plan>)
    requires Verdict(x, item, w, causal, Some(t), plan) == Present && item.name != Drilldown
    ensures CausalQuery(item.name)
  {
  }

  /** One in-window line under complete labels of the target, in a text where nothing affirms a failure. */
  lemma BareDrilldown() returns (x: Texts, item: Item, w: Window, t: Target)
    ensures item.name == Drilldown
    ensures Verdict(x, item, Some(w), Some(w), Some(t), None) == Present
    ensures !SomeAffirms(x, Some(w), Verification(item))
  {
    var blank, ns := Word(""), Word("team-a");
    x := Texts(_ => false, _ => false, (_, _) => false, (_, _) => false, _ => false, blank, {});
    w, t := Window(0, 0), Target(ns, blank, blank, blank);
    var labels := Some(Labels(ns, blank, []));
    var line := Entry(Some(0), Some(Word("started")), labels);
    item := Item(Drilldown, false, 1, [line], None, [labels], true, true, true, None, true, _ => false, false);
    assert line in item.samples && InWindow(Some(w), item.samples) == Some(true);
    assert blank.text == "" && ns.text == "team-a" && ns != blank;
    assert ScopeOf(x, t, None) == Plan(ns, blank, blank) && LabelsMatch(x, Plan(ns, blank, blank), labels.value);
    assert LabelsProve(x, item, ScopeOf(x, t, None), Some(w));
  }

  // ---- The evidence window

  predicate Within(causal: Window, e: Entry) {
    e.time.Some? && causal.Holds(e.time.value)
  }

  /** The span is the tightest one around all entries inside the causal window. */
  ghost predicate Spans(causal: Window, entries: seq<Entry>, span: Window) {
    && causal.start <= span.start <= span.end <= causal.end
    && (forall e :: e in entries && Within(causal, e) ==> span.Holds(e.time.value))
    && (exists e :: e in entries && e.time == Some(span.start))
    && (exists e :: e in entries && e.time == Some(span.end))
  }

  function Stretched(span: Option<Window>, at: int): Window {
    if span.None? then Window(at, at)
    else Window(if at < span.value.start then at else span.value.start,
                if at > span.value.end then at else span.value.end)
  }

  lemma SpanGoesOn(causal: Window, entries: seq<Entry>, e: Entry, span: Option<Window>)
    requires if span.Some? then Spans(causal, entries, span.value) else forall e :: e in entries ==> !Within(causal, e)
    ensures span.Some? && !Within(causal, e) ==> Spans(causal, entries + [e], span.value)
    ensures Within(causal, e) ==> Spans(causal, entries + [e], Stretched(span, e.time.value))
  {
    assert e in entries + [e];
    if span.Some? {
      var first :| first in entries && first.time == Some(span.value.start);
      var last :| last in entries && last.time == Some(span.value.end);
      assert first in entries + [e] && last in entries + [e];
    }
  }

  /** The span of the retained entries inside the causal window. */
  method EvidenceWindow(causal: Option<Window>, entries: seq<Entry>) returns (span: Option<Window>)
    ensures span.Some? <==> Proper(causal) && exists e :: e in entries && Within(causal.value, e)
    ensures span.Some? ==> Spans(causal.value, entries, span.value)
  {
    span := None;
    if causal.None? || causal.value.end < causal.value.start {
      return;
    }
    for i := 0 to |entries|
      invariant span.Some? <==> exists e :: e in entries[..i] && Within(causal.value, e)
      invariant span.Some? ==> Spans(causal.value, entries[..i], span.value)
    {
      assert entries[..i + 1] == entries[..i] + [entries[i]];
      SpanGoesOn(causal.value, entries[..i], entries[i], span);
      if entries[i].time.Some? {
        var at := entries[i].time.value;
        if causal.value.Holds(at) {
          span := Some(Stretched(span, at));
        }
      }
    }
    assert entries[..|entries|] == entries;
  }

  /** Evidence for a resolved alert lies inside the incident window. */
  lemma EvidenceInsideIncident(fired: int, resolved: int, now: int, span: Window)
    requires fired <= resolved
    requires var c := CausalWindow(fired, Some(resolved), now); c.start <= span.start <= span.end <= c.end
    ensures IncidentWindow(fired, Some(resolved)).Holds(span.start)
            && IncidentWindow(fired, Some(resolved)).Holds(span.end)
  {
    CausalInsideIncidentIff(fired, Some(resolved), now);
  }

  // ---- One observation

  datatype Observation = Observation(
    polarity: Polarity, entity: Option<Entity>, affirmative: nat, window: Option<Window>, causal: Option<Window>,
        evidence: Option<Window>)

  function EntityFor(x: Texts, item: Item, t: Target, plan: Option<Plan>): Option<Entity> {
    if item.name == ControlPlaneErrors then Some(NamespaceNamed(t.namespace))
    else if Correlated(item.name) then Identity(x, t, plan)
    else Some(EntityOf(x, ScopeOf(x, t, plan)))
  }

  /** An alert's times as far as they could be read. */
  datatype Times = Times(fired: Option<int>, resolved: Option<int>, now: int)

  function WindowOf(times: Times): Option<Window> {
    if times.fired.Some? then Some(IncidentWindow(times.fired.value, times.resolved)) else None
  }

  function CausalOf(times: Times): Option<Window> {
    if times.fired.Some? then Some(CausalWindow(times.fired.value, times.resolved, times.now)) else None
  }

  /** The causal window of a query: the target's own where there is a target, else the requested range. */
  function CausalFor(w: Option<Window>, times: Times, t: Option<Target>): Option<Window> {
    if t.Some? && w.Some? && CausalOf(times).Some? then CausalOf(times) else w
  }

  /** The typed observation of one query result for a requested range, with or without an alert target. */
  method QueryObservation(x: Texts, item: Item, w: Option<Window>, times: Times, t: Option<Target>, plan: Option<Plan>)
    returns (o: Observation)
    ensures o.window == w && o.causal == CausalFor(w, times, t)
    ensures o.polarity == Verdict(x, item, w, o.causal, t, plan)
    ensures o.entity.Some? <==> t.Some? && (o.polarity == Present || o.polarity == Absent)
    ensures o.entity.Some? ==> ScopeHolds(x, item, w, t.value, plan) && o.entity == EntityFor(x, item, t.value, plan)
    ensures o.evidence.Some? <==>
            o.polarity == Present && Proper(o.causal) && exists e :: e in item.samples && Within(o.causal.value, e)
    ensures o.evidence.Some? ==> Spans(o.causal.value, item.samples, o.evidence.value)
    ensures o.evidence.Some? && t.Some? && w == WindowOf(times) && times.resolved.Some?
            && times.fired.value <= times.resolved.value
      ==> w.value.Holds(o.evidence.value.start) && w.value.Holds(o.evidence.value.end)
    ensures o.affirmative == |Affirmative(x, o.causal, Verification(item))|
  {
    var causal := CausalFor(w, times, t);
    var lines := AffirmativeLines(x, causal, Verification(item));
    var polarity, entity := Claim(x, item, w, causal, t), None;
    if t.Some? && (polarity == Present || polarity == Absent) {
      if ScopeHolds(x, item, w, t.value, plan) {
        entity := EntityFor(x, item, t.value, plan);
        EntityIsKnown(x, item, w, t.value, plan);
      } else {
        polarity := Unknown;
      }
    }
    var evidence := None;
    if polarity == Present {
      evidence := EvidenceWindow(causal, item.samples);
      if evidence.Some? && t.Some? && w == WindowOf(times) && times.resolved.Some?
          && times.fired.value <= times.resolved.value {
        EvidenceInsideIncident(times.fired.value, times.resolved.value, times.now, evidence.value);
      }
    }
    o := Observation(polarity, entity, |lines|, w, causal, evidence);
  }

  lemma EntityIsKnown(x: Texts, item: Item, w: Option<Window>, t: Target, plan: Option<Plan>)
    requires ScopeHolds(x, item, w, t, plan)
    ensures EntityFor(x, item, t, plan).Some?
  {
  }
}
