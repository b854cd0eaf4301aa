/** Exactly when a log query is present, absent, unknown or unavailable, down to labels and lines. */
module LogPresence {
  import opened LogVerdict
  import opened Sorting
  import opened Wrappers

  /** Some retained entry is known to lie in the requested range. */
  ghost predicate Seen(w: Option<Window>, item: Item) {
    w.Some? && w.value.start <= w.value.end
    && exists e :: e in item.samples && e.time.Some? && w.value.start <= e.time.value <= w.value.end
  }

  /** An entry kept for checking; a result without such a list keeps its samples. */
  ghost predicate Kept(item: Item, e: Entry) {
    match item.verification
    case Some(entries) => e in entries
    case None => e in item.samples
  }

  /** Some line affirms a failure inside the causal window. */
  ghost predicate Affirmed(x: Texts, causal: Option<Window>, item: Item) {
    exists e :: Kept(item, e) && AffirmsAt(x, causal, e)
  }

  ghost predicate AffirmsAt(x: Texts, w: Option<Window>, e: Entry) {
    && w.Some? && e.time.Some? && w.value.start <= e.time.value <= w.value.end
    && e.line.Some? && x.affirms(e.line.value)
  }

  lemma SeenIs(w: Option<Window>, item: Item)
    ensures InWindow(w, item.samples) == Some(true) <==> Seen(w, item)
  {
  }

  lemma AffirmedIs(x: Texts, w: Option<Window>, item: Item)
    ensures Affirmative(x, w, Verification(item)) != [] <==> Affirmed(x, w, item)
    ensures forall e :: e in Affirmative(x, w, Verification(item)) <==> Kept(item, e) && AffirmsAt(x, w, e)
  {
    var lines := Affirmative(x, w, Verification(item));
    InFilter(e => Affirms(x, w, e), Verification(item));
    assert forall e :: e in lines <==> Kept(item, e) && AffirmsAt(x, w, e);
    if lines != [] {
      assert lines[0] in lines;
    }
  }

  // ---- What ties a result to the target

  /** What a query must prove: the plan's words where it has them, else the target's own. */
  lemma ScopeIs(x: Texts, t: Target, plan: Option<Plan>)
    ensures plan.None? ==> ScopeOf(x, t, plan) == Plan(t.namespace, t.pod, t.workload)
    ensures plan.Some? ==>
      var s, p := ScopeOf(x, t, plan), plan.value;
      && s.namespace == (if p.namespace == x.blank then t.namespace else p.namespace)
      && s.pod == (if p.pod == x.blank then t.pod else p.pod)
      && s.workload == (if p.workload == x.blank then t.workload else p.workload)
  {
  }

  /** The labels name the namespace, and the pod if it is known, else the workload if that is known. */
  ghost predicate Names(x: Texts, s: Plan, labels: Option<Labels>) {
    && labels.Some? && labels.value.namespace == s.namespace
    && (s.pod != x.blank ==> labels.value.pod == s.pod)
    && (s.pod == x.blank && s.workload != x.blank ==>
          exists i :: 0 <= i < |labels.value.names| && x.mentions(s.workload, labels.value.names[i]))
  }

  /** By complete stream labels, or else by the labels of every line that affirms a failure in the range. */
  ghost predicate LabelProof(x: Texts, item: Item, s: Plan, w: Option<Window>) {
    if item.labelsComplete && item.streamLabels != [] then
      forall i :: 0 <= i < |item.streamLabels| ==> Names(x, s, item.streamLabels[i])
    else
      Affirmed(x, w, item) && forall e :: Kept(item, e) && AffirmsAt(x, w, e) ==> Names(x, s, e.labels)
  }

  lemma LabelledIs(x: Texts, s: Plan, labels: Option<Labels>)
    ensures Labelled(x, s, labels) <==> Names(x, s, labels)
  {
    if labels.Some? {
      if n :| n in labels.value.names && x.mentions(s.workload, n) {
        var i :| 0 <= i < |labels.value.names| && labels.value.names[i] == n;
      }
    }
  }

  lemma LabelProofIs(x: Texts, item: Item, s: Plan, w: Option<Window>)
    ensures LabelsProve(x, item, s, w) <==> LabelProof(x, item, s, w)
  {
    AffirmedIs(x, w, item);
    forall l ensures Labelled(x, s, l) <==> Names(x, s, l) {
      LabelledIs(x, s, l);
    }
  }

  /** The target's own streams: a known namespace, and labels, or Loki's own word on an empty answer. */
  ghost predicate StreamProof(x: Texts, item: Item, t: Target, plan: Option<Plan>, w: Option<Window>) {
    var s := ScopeOf(x, t, plan);
    && s.namespace != x.blank
    && (LabelProof(x, item, s, w)
        || (item.lineCount == 0 && item.direct && item.responseComplete && item.range == w && item.selectsTarget
            && item.coverageVerified))
  }

  lemma StreamProofIs(x: Texts, item: Item, t: Target, plan: Option<Plan>, w: Option<Window>)
    requires !Correlated(item.name)
    ensures TargetScope(x, item, t, plan, w) <==>
            item.name in {ErrorLogs, RecentLogs, Drilldown} && StreamProof(x, item, t, plan, w)
  {
    LabelProofIs(x, item, ScopeOf(x, t, plan), w);
  }

  ghost predicate CorrelatesAt(x: Texts, w: Option<Window>, e: Entry) {
    && w.Some? && e.time.Some? && w.value.start <= e.time.value <= w.value.end
    && e.line.Some? && x.correlates(e.line.value)
  }

  /** The target's immutable name: its workload id, else a pod name that is long enough, the plan's first. */
  ghost predicate IsIdentity(x: Texts, t: Target, plan: Option<Plan>, name: Word) {
    if t.workloadId != x.blank then name == t.workloadId
    else x.longEnough(name)
         && name == (if plan.Some? && plan.value.pod != x.blank then plan.value.pod else t.pod)
  }

  lemma IdentityIs(x: Texts, t: Target, plan: Option<Plan>, name: Word)
    ensures IsIdentity(x, t, plan, name) <==> Identity(x, t, plan).Some? && Identity(x, t, plan).value.name == name
    ensures Identity(x, t, plan).Some? ==>
            Identity(x, t, plan).value == if t.workloadId != x.blank then WorkloadId(t.workloadId)
                                          else PodNamed(Identity(x, t, plan).value.name)
  {
  }

  /** The row has the name as a token, and labels in the query's namespace; a history row, in the target's own. */
  ghost predicate RowNames(x: Texts, item: Item, t: Target, name: Word, e: Entry) {
    && e.line.Some? && x.namesToken(name, e.line.value)
    && e.labels.Some? && e.labels.value.namespace != x.blank && item.namespaceSelected(e.labels.value.namespace)
    && (item.name == WorkloadHistory ==> e.labels.value.namespace == t.namespace)
  }

  /** Some row in the range reports a failure, and every such row names the target's identity. */
  ghost predicate RowProof(x: Texts, item: Item, t: Target, plan: Option<Plan>, w: Option<Window>) {
    exists name :: IsIdentity(x, t, plan, name)
      && (exists e :: Kept(item, e) && CorrelatesAt(x, w, e))
      && forall e :: Kept(item, e) && CorrelatesAt(x, w, e) ==> RowNames(x, item, t, name, e)
  }

  lemma RowsAre(x: Texts, item: Item, w: Option<Window>)
    ensures var rows := Filter(e => Correlates(x, w, e), Verification(item));
      && (forall e :: e in rows <==> Kept(item, e) && CorrelatesAt(x, w, e))
      && (rows != [] <==> exists e :: Kept(item, e) && CorrelatesAt(x, w, e))
  {
    var rows := Filter(e => Correlates(x, w, e), Verification(item));
    InFilter(e => Correlates(x, w, e), Verification(item));
    if rows != [] {
      assert rows[0] in rows;
    }
  }

  lemma RowProofIs(x: Texts, item: Item, t: Target, plan: Option<Plan>, w: Option<Window>)
    requires Correlated(item.name)
    ensures TargetScope(x, item, t, plan, w) <==> RowProof(x, item, t, plan, w)
  {
    RowsAre(x, item, w);
    forall name { IdentityIs(x, t, plan, name); }
    if TargetScope(x, item, t, plan, w) {
      assert IsIdentity(x, t, plan, Identity(x, t, plan).value.name);
    }
  }

  // ---- The verdicts

  /** What a query with this name must show of the target; an unnamed one can show nothing. */
  ghost predicate Tied(x: Texts, item: Item, t: Target, plan: Option<Plan>, w: Option<Window>) {
    match item.name
    case ErrorLogs | RecentLogs | Drilldown => StreamProof(x, item, t, plan, w)
    case WorkloadHistory | ControlPlaneForWorkload => RowProof(x, item, t, plan, w)
    case ControlPlaneErrors => t.namespace in x.platform
    case Unnamed => false
  }

  lemma TiedIs(x: Texts, item: Item, t: Target, plan: Option<Plan>, w: Option<Window>)
    ensures ScopeHolds(x, item, w, t, plan) <==> Tied(x, item, t, plan, w)
  {
    if Correlated(item.name) {
      RowProofIs(x, item, t, plan, w);
    } else {
      StreamProofIs(x, item, t, plan, w);
    }
  }

  /** A present answer has an entry in the range and, but for ad-hoc queries, a line that affirms a failure. */
  ghost predicate ShowsFailure(x: Texts, item: Item, w: Option<Window>, causal: Option<Window>) {
    && Seen(w, item)
    && (item.name == ControlPlaneErrors || 0 < item.lineCount)
    && (item.name in {Drilldown, Unnamed} || Affirmed(x, causal, item))
  }

  /** Exactly when a query is present: it did not fail, is no plain tail, shows a failure, and is tied to the target. */
  lemma PresentIff(x: Texts, item: Item, w: Option<Window>, causal: Option<Window>, t: Target, plan: Option<Plan>)
    ensures Verdict(x, item, w, causal, Some(t), plan) == Present <==>
      !item.error && item.name != RecentLogs && ShowsFailure(x, item, w, causal) && Tied(x, item, t, plan, w)
  {
    SeenIs(w, item);
    AffirmedIs(x, causal, item);
    TiedIs(x, item, t, plan, w);
  }

  /** Without a target only the queries that claim nothing about one can be present. */
  lemma PresentWithoutTargetIff(x: Texts, item: Item, w: Option<Window>, causal: Option<Window>, plan: Option<Plan>)
    ensures Verdict(x, item, w, causal, None, plan) == Present <==>
      !item.error && item.name in {ErrorLogs, Drilldown, Unnamed} && ShowsFailure(x, item, w, causal)
  {
    SeenIs(w, item);
    AffirmedIs(x, causal, item);
  }

  /**
   * Exactly when absence is claimed: no lines over a requested range, and for
   * a target the proof of its scope. A correlated query's kept rows must
   * affirm a failure even then.
   */
  lemma AbsentIff(x: Texts, item: Item, w: Option<Window>, causal: Option<Window>, t: Target, plan: Option<Plan>)
    ensures Verdict(x, item, w, causal, Some(t), plan) == Absent <==>
      && !item.error && w.Some? && item.lineCount == 0 && item.name !in {RecentLogs, ControlPlaneErrors}
      && (Correlated(item.name) ==> Affirmed(x, causal, item)) && Tied(x, item, t, plan, w)
    ensures Verdict(x, item, w, causal, None, plan) == Absent <==>
      !item.error && w.Some? && item.lineCount == 0 && item.name in {ErrorLogs, Drilldown, Unnamed}
  {
    AffirmedIs(x, causal, item);
    TiedIs(x, item, t, plan, w);
  }

  /** An error query over streams whose complete labels are the target's, with a failure line in both windows. */
  lemma LabelledErrorsArePresent(x: Texts, item: Item, w: Window, causal: Window, t: Target, e: Entry)
    requires item.name == ErrorLogs && !item.error && 0 < item.lineCount
    requires item.labelsComplete && item.streamLabels != [] && t.namespace != x.blank
    requires forall i :: 0 <= i < |item.streamLabels| ==>
               Names(x, Plan(t.namespace, t.pod, t.workload), item.streamLabels[i])
    requires e in item.samples && Kept(item, e) && e.time.Some? && e.line.Some? && x.affirms(e.line.value)
    requires w.start <= e.time.value <= w.end && causal.start <= e.time.value <= causal.end
    ensures Verdict(x, item, Some(w), Some(causal), Some(t), None) == Present
  {
    ScopeIs(x, t, None);
    assert AffirmsAt(x, Some(causal), e);
    PresentIff(x, item, Some(w), Some(causal), t, None);
  }

  /** What the observation names as the thing observed. */
  lemma EntityIs(x: Texts, item: Item, t: Target, plan: Option<Plan>)
    ensures item.name == ControlPlaneErrors ==> EntityFor(x, item, t, plan) == Some(NamespaceNamed(t.namespace))
    ensures Correlated(item.name) && t.workloadId != x.blank ==>
            EntityFor(x, item, t, plan) == Some(WorkloadId(t.workloadId))
    ensures Correlated(item.name) && EntityFor(x, item, t, plan).Some? ==>
            IsIdentity(x, t, plan, EntityFor(x, item, t, plan).value.name)
    ensures !Correlated(item.name) && item.name != ControlPlaneErrors ==>
      var s := ScopeOf(x, t, plan);
      EntityFor(x, item, t, plan) == Some(if s.pod != x.blank then PodNamed(s.pod)
                                          else if s.workload != x.blank then WorkloadNamed(s.workload)
                                          else NamespaceNamed(s.namespace))
  {
    forall name { IdentityIs(x, t, plan, name); }
  }

  // ---- Log coverage

  /** A tail query that succeeded, and saw lines in the range that are the target's own. */
  ghost predicate TailShows(x: Texts, item: Item, w: Option<Window>, t: Target, plan: Option<Plan>) {
    item.name == RecentLogs && !item.error && 0 < item.lineCount && Seen(w, item) && StreamProof(x, item, t, plan, w)
  }

  /** The first tail query of the batch shows the target; later ones are not looked at. */
  ghost predicate BatchShows(x: Texts, items: seq<Item>, w: Option<Window>, t: Target, plan: Option<Plan>) {
    exists i :: 0 <= i < |items| && (forall k :: 0 <= k < i ==> items[k].name != RecentLogs)
      && TailShows(x, items[i], w, t, plan)
  }

  lemma {:induction false} RecentAt(items: seq<Item>) returns (i: nat)
    requires Recent(items).Some?
    ensures i < |items| && items[i].name == RecentLogs && Recent(items) == Some(items[i])
    ensures forall k :: 0 <= k < i ==> items[k].name != RecentLogs
  {
    if items[0].name == RecentLogs { return 0; }
    var j := RecentAt(items[1..]);
    assert forall k :: 0 < k <= j ==> items[k] == items[1..][k - 1];
    return j + 1;
  }

  lemma CoversIs(x: Texts, item: Item, w: Option<Window>, t: Target, plan: Option<Plan>)
    requires item.name == RecentLogs
    ensures Covers(x, item, w, t, plan) <==> TailShows(x, item, w, t, plan)
  {
    SeenIs(w, item);
    StreamProofIs(x, item, t, plan, w);
  }

  lemma CoverageIs(x: Texts, items: seq<Item>, w: Option<Window>, t: Target, plan: Option<Plan>)
    ensures Coverage(x, items, w, t, plan) <==> BatchShows(x, items, w, t, plan)
  {
    if Coverage(x, items, w, t, plan) {
      var i := RecentAt(items);
      CoversIs(x, items[i], w, t, plan);
    }
    if BatchShows(x, items, w, t, plan) {
      var i :| 0 <= i < |items| && (forall k :: 0 <= k < i ==> items[k].name != RecentLogs)
        && TailShows(x, items[i], w, t, plan);
      RecentIsFirst(items, i);
      CoversIs(x, items[i], w, t, plan);
    }
  }

  /** Error and tail queries alike are covered exactly when the batch shows the target; nothing else changes. */
  lemma CoveredIff(x: Texts, items: seq<Item>, w: Option<Window>, t: Target, plan: Option<Plan>, i: nat)
    requires i < |items|
    ensures var before, after := items[i], Annotated(items[i], Coverage(x, items, w, t, plan));
      && after == before.(coverageVerified := after.coverageVerified)
      && after.coverageVerified == if before.name in {ErrorLogs, RecentLogs} then BatchShows(x, items, w, t, plan)
                                   else before.coverageVerified
  {
    CoverageIs(x, items, w, t, plan);
  }

  // ---- The windows

  lemma WholeSeconds(t: int)
    requires t % SECOND == 0
    ensures Floor(t) == t
  {
  }

  /** For whole seconds: five minutes to either side, or to twenty minutes after the start of a firing alert. */
  lemma WindowsAre(fired: int, resolved: Option<int>, now: int)
    requires fired % SECOND == 0 && now % SECOND == 0 && (resolved.Some? ==> resolved.value % SECOND == 0)
    ensures var known := resolved.Some? && fired <= resolved.value;
      && IncidentWindow(fired, resolved)
         == Window(fired - 300_000_000, if known then resolved.value + 300_000_000 else fired + 1_200_000_000)
      && CausalWindow(fired, resolved, now) == Window(fired - 300_000_000, if known then resolved.value else now)
  {
    WholeSeconds(fired - 5 * MINUTE);
    WholeSeconds(now);
    WholeSeconds(fired + 20 * MINUTE);
    if resolved.Some? {
      WholeSeconds(resolved.value);
      WholeSeconds(resolved.value + 5 * MINUTE);
    }
  }

  /** A query for a target is judged by the alert's causal window, any other by the requested range. */
  lemma CausalIs(w: Option<Window>, times: Times, t: Option<Target>)
    ensures t.Some? && w.Some? && times.fired.Some? ==>
              CausalFor(w, times, t) == Some(CausalWindow(times.fired.value, times.resolved, times.now))
    ensures t.None? || w.None? || times.fired.None? ==> CausalFor(w, times, t) == w
    ensures WindowOf(times) ==
            match times.fired { case Some(fired) => Some(IncidentWindow(fired, times.resolved)) case None => None }
  {
  }
}
