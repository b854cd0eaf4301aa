/** The runtime knowledge registry: validated snapshots, swapped whole and layered over the baseline catalogs. */
module KnowledgeRegistry {
  import opened CatalogMerge
  import opened Wrappers

  type PackageId(==, 0, !new)
  type ProbeId(==, !new)
  type Revision(==, 0, !new)

  type Modes = map<Family, seq<Entry>>

  /** One package after validation. */
  datatype Parsed =
      Parsed(id: PackageId, active: bool, modes: Modes, issues: seq<Entry>, probes: map<Family, seq<ProbeId>>)

  /** A package as received, and what validating it gives; None when it is unusable. */
  datatype Package = Package(parsed: Option<Parsed>)

  /** A payload; its revision and package list may be missing or malformed. */
  datatype Payload = Payload(revision: Option<Revision>, packages: Option<seq<Package>>)

  datatype Snapshot = Snapshot(
    revision: Revision,
    modes: Modes, activeModes: Modes, shadowModes: Modes,
    issues: seq<Entry>, activeIssues: seq<Entry>, shadowIssues: seq<Entry>,
    probes: map<Family, map<PackageId, seq<ProbeId>>>,
    packageCount: nat,
    activeIds: seq<PackageId>, shadowIds: seq<PackageId>)

  // ---- What a list of valid packages amounts to

  function Listed(m: Modes, family: Family): seq<Entry> {
    if family in m then m[family] else []
  }

  /** dict.setdefault(family, []).extend(entries), for every family of `more`. */
  function Extended(m: Modes, more: Modes): Modes {
    map family | family in m.Keys + more.Keys :: Listed(m, family) + Listed(more, family)
  }

  function AllModes(ps: seq<Parsed>): Modes {
    if ps == [] then map[] else Extended(AllModes(ps[..|ps| - 1]), ps[|ps| - 1].modes)
  }

  function AllIssues(ps: seq<Parsed>): seq<Entry> {
    if ps == [] then [] else AllIssues(ps[..|ps| - 1]) + ps[|ps| - 1].issues
  }

  /** Shadow packages register no probes. */
  function ProbesOf(p: Parsed): map<Family, seq<ProbeId>> {
    if p.active then p.probes else map[]
  }

  function Registered(m: map<Family, map<PackageId, seq<ProbeId>>>, p: Parsed)
      : map<Family, map<PackageId, seq<ProbeId>>> {
    map family | family in m.Keys + ProbesOf(p).Keys ::
      var known := if family in m then m[family] else map[];
      if family in ProbesOf(p) then known[p.id := ProbesOf(p)[family]] else known
  }

  function AllProbes(ps: seq<Parsed>): map<Family, map<PackageId, seq<ProbeId>>> {
    if ps == [] then map[] else Registered(AllProbes(ps[..|ps| - 1]), ps[|ps| - 1])
  }

  function Ids(ps: seq<Parsed>): seq<PackageId> {
    if ps == [] then [] else Ids(ps[..|ps| - 1]) + [ps[|ps| - 1].id]
  }

  /** The packages with the given status, in order. */
  function Having(ps: seq<Parsed>, active: bool): seq<Parsed> {
    if ps == [] then []
    else Having(ps[..|ps| - 1], active) + if ps[|ps| - 1].active == active then [ps[|ps| - 1]] else []
  }

  function Usable(packages: seq<Package>): (r: seq<Parsed>)
    ensures |r| <= |packages|
  {
    if packages == [] then []
    else
      var last := packages[|packages| - 1];
      Usable(packages[..|packages| - 1]) + match last.parsed { case Some(p) => [p] case None => [] }
  }

  function Built(revision: Revision, ps: seq<Parsed>, packageCount: nat): Snapshot {
    Snapshot(revision,
      AllModes(ps), AllModes(Having(ps, true)), AllModes(Having(ps, false)),
      AllIssues(ps), AllIssues(Having(ps, true)), AllIssues(Having(ps, false)),
      AllProbes(ps), packageCount, Ids(Having(ps, true)), Ids(Having(ps, false)))
  }

  /** Validation of a whole payload; None is a validation error. */
  function Validated(payload: Payload, isolateFailures: bool): Option<Snapshot> {
    if payload.revision.None? || payload.packages.None? then None
    else
      var packages := payload.packages.value;
      var ps := Usable(packages);
      if !isolateFailures && |ps| < |packages| then None
      else if packages != [] && ps == [] then None
      else Some(Built(payload.revision.value, ps, |packages|))
  }

  /** The usable packages of a payload on their own. */
  function OnlyUsable(packages: seq<Package>): seq<Package> {
    if packages == [] then []
    else OnlyUsable(packages[..|packages| - 1])
         + if packages[|packages| - 1].parsed.Some? then [packages[|packages| - 1]] else []
  }

  lemma UsableSnoc(packages: seq<Package>, last: Package)
    ensures Usable(packages + [last]) == Usable(packages) + match last.parsed { case Some(p) => [p] case None => [] }
  {
    assert (packages + [last])[..|packages|] == packages;
  }

  lemma {:induction false} OnlyUsableIsUsable(packages: seq<Package>)
    ensures Usable(OnlyUsable(packages)) == Usable(packages)
    ensures |OnlyUsable(packages)| == |Usable(packages)|
  {
    if packages != [] {
      var init, last := packages[..|packages| - 1], packages[|packages| - 1];
      OnlyUsableIsUsable(init);
      assert packages == init + [last];
      UsableSnoc(init, last);
      UsableSnoc(OnlyUsable(init), last);
      assert OnlyUsable(packages) == OnlyUsable(init) + if last.parsed.Some? then [last] else [];
      assert last.parsed.None? ==> Usable(packages) == Usable(init) && OnlyUsable(packages) == OnlyUsable(init);
    }
  }

  lemma BuiltCounts(revision: Revision, ps: seq<Parsed>, m: nat, n: nat)
    ensures Built(revision, ps, n) == Built(revision, ps, m).(packageCount := n)
  {
  }

  /**
   * Isolating failures gives exactly what strict validation gives on the
   * usable packages alone, except for the count of packages received; it
   * fails where strict validation could not even see the list, or when a
   * non-empty list has nothing usable in it.
   */
  lemma IsolationIsStrictOnUsable(payload: Payload)
    ensures payload.packages.None? ==> Validated(payload, true).None?
    ensures payload.packages.Some? ==>
      var alone := Payload(payload.revision, Some(OnlyUsable(payload.packages.value)));
      Validated(payload, true) ==
        if Validated(alone, false).None? then None
        else if payload.packages.value != [] && OnlyUsable(payload.packages.value) == [] then None
        else Some(Validated(alone, false).value.(packageCount := |payload.packages.value|))
  {
    if payload.packages.Some? {
      var packages := payload.packages.value;
      OnlyUsableIsUsable(packages);
      if payload.revision.Some? && (packages == [] || OnlyUsable(packages) != []) {
        BuiltCounts(payload.revision.value, Usable(packages), |OnlyUsable(packages)|, |packages|);
      }
    }
  }

  // ---- Active and shadow

  /** `all` is made of `left` and `right`, each in its own order. */
  ghost predicate Interleaves<T>(all: seq<T>, left: seq<T>, right: seq<T>)
    decreases |all|
  {
    if all == [] then left == [] && right == []
    else
      var last, init := all[|all| - 1], all[..|all| - 1];
      || (left != [] && left[|left| - 1] == last && Interleaves(init, left[..|left| - 1], right))
      || (right != [] && right[|right| - 1] == last && Interleaves(init, left, right[..|right| - 1]))
  }

  lemma {:induction false} InterleavesGrow<T>(all: seq<T>, left: seq<T>, right: seq<T>, more: seq<T>)
    requires Interleaves(all, left, right)
    ensures Interleaves(all + more, left + more, right) && Interleaves(all + more, left, right + more)
    decreases |more|
  {
    if more == [] {
      assert all + more == all && left + more == left && right + more == right;
    } else {
      var init, last := more[..|more| - 1], more[|more| - 1];
      InterleavesGrow(all, left, right, init);
      assert (all + more)[..|all + more| - 1] == all + init;
      assert (left + more)[..|left + more| - 1] == left + init;
      assert (right + more)[..|right + more| - 1] == right + init;
    }
  }

  /** Per family, the combined list interleaves the active and the shadow list in package order. */
  lemma {:induction false} CombinedInterleaves(ps: seq<Parsed>, family: Family)
    ensures Interleaves(Listed(AllModes(ps), family), Listed(AllModes(Having(ps, true)), family),
                        Listed(AllModes(Having(ps, false)), family))
  {
    if ps != [] {
      var init, last := ps[..|ps| - 1], ps[|ps| - 1];
      CombinedInterleaves(init, family);
      InterleavesGrow(Listed(AllModes(init), family), Listed(AllModes(Having(init, true)), family),
                      Listed(AllModes(Having(init, false)), family), Listed(last.modes, family));
      ListedSnoc(ps, family);
      ListedSnoc(Having(ps, last.active), family);
      assert Having(ps, last.active)[..|Having(ps, last.active)| - 1] == Having(init, last.active);
      assert Having(ps, !last.active) == Having(init, !last.active);
    }
  }

  lemma ListedSnoc(ps: seq<Parsed>, family: Family)
    requires ps != []
    ensures Listed(AllModes(ps), family) == Listed(AllModes(ps[..|ps| - 1]), family)
            + Listed(ps[|ps| - 1].modes, family)
  {
  }

  lemma NothingRegistered(m: map<Family, map<PackageId, seq<ProbeId>>>, p: Parsed)
    requires !p.active
    ensures Registered(m, p) == m
  {
  }

  lemma {:induction false} ProbesNeedActive(ps: seq<Parsed>)
    ensures AllProbes(ps) == AllProbes(Having(ps, true))
  {
    if ps != [] {
      var init, last := ps[..|ps| - 1], ps[|ps| - 1];
      ProbesNeedActive(init);
      assert ps == init + [last];
      HavingSnoc(init, last, true);
      ProbesSnoc(init, last);
      if last.active {
        ProbesSnoc(Having(init, true), last);
      } else {
        assert Having(ps, true) == Having(init, true);
        NothingRegistered(AllProbes(init), last);
      }
    }
  }

  // ---- Validating in one pass

  method ExtendModes(m: Modes, more: Modes) returns (r: Modes)
    ensures r == Extended(m, more)
  {
    r := m;
    var todo := more.Keys;
    while todo != {}
      invariant todo <= more.Keys && r.Keys == m.Keys + (more.Keys - todo)
      invariant forall family :: family in r ==>
        r[family] == if family in todo then m[family] else Extended(m, more)[family]
    {
      var family :| family in todo;
      todo := todo - {family};
      r := r[family := Listed(r, family) + more[family]];
    }
  }

  method RegisterProbes(m: map<Family, map<PackageId, seq<ProbeId>>>, p: Parsed)
      returns (r: map<Family, map<PackageId, seq<ProbeId>>>)
    ensures r == Registered(m, p)
  {
    r := m;
    var probes := ProbesOf(p);
    var todo := probes.Keys;
    while todo != {}
      invariant todo <= probes.Keys && r.Keys == m.Keys + (probes.Keys - todo)
      invariant forall family :: family in r ==>
        r[family] == if family in todo then m[family] else Registered(m, p)[family]
    {
      var family :| family in todo;
      todo := todo - {family};
      var known := if family in r then r[family] else map[];
      r := r[family := known[p.id := probes[family]]];
    }
  }

  /** The lists a pass over the packages has gathered so far. */
  datatype Gathered = Gathered(modes: Modes, issues: seq<Entry>, ids: seq<PackageId>)

  function Gather(ps: seq<Parsed>): Gathered {
    Gathered(AllModes(ps), AllIssues(ps), Ids(ps))
  }

  method Add(g: Gathered, p: Parsed, ghost ps: seq<Parsed>) returns (r: Gathered)
    requires g == Gather(ps)
    ensures r == Gather(ps + [p])
  {
    assert (ps + [p])[..|ps|] == ps;
    var modes := ExtendModes(g.modes, p.modes);
    r := Gathered(modes, g.issues + p.issues, g.ids + [p.id]);
  }

  lemma HavingSnoc(ps: seq<Parsed>, p: Parsed, active: bool)
    ensures Having(ps + [p], active) == Having(ps, active) + if p.active == active then [p] else []
  {
    assert (ps + [p])[..|ps|] == ps;
  }

  lemma ProbesSnoc(ps: seq<Parsed>, p: Parsed)
    ensures AllProbes(ps + [p]) == Registered(AllProbes(ps), p)
  {
    assert (ps + [p])[..|ps|] == ps;
  }

  /** Everything one pass keeps. */
  datatype Pass =
      Pass(all: Gathered, active: Gathered, shadow: Gathered, probes: map<Family, map<PackageId, seq<ProbeId>>>)

  function PassOver(ps: seq<Parsed>): Pass {
    Pass(Gather(ps), Gather(Having(ps, true)), Gather(Having(ps, false)), AllProbes(ps))
  }

  method AddPackage(pass: Pass, p: Parsed, ghost ps: seq<Parsed>) returns (r: Pass)
    requires pass == PassOver(ps)
    ensures r == PassOver(ps + [p])
  {
    HavingSnoc(ps, p, true);
    HavingSnoc(ps, p, false);
    ProbesSnoc(ps, p);
    var all := Add(pass.all, p, ps);
    var mine := Add(if p.active then pass.active else pass.shadow, p, Having(ps, p.active));
    var probes := RegisterProbes(pass.probes, p);
    r := if p.active then Pass(all, mine, pass.shadow, probes) else Pass(all, pass.active, mine, probes);
    assert Having(ps, !p.active) + [] == Having(ps, !p.active);
  }

  method Validate(payload: Payload, isolateFailures: bool) returns (snapshot: Option<Snapshot>)
    ensures snapshot == Validated(payload, isolateFailures)
  {
    if payload.revision.None? || payload.packages.None? {
      return None;
    }
    var packages := payload.packages.value;
    ghost var ps := Usable(packages);
    var pass := ReadPackages(packages, isolateFailures);
    IdsCount(ps);
    if pass.None? || (packages != [] && pass.value.active.ids == [] && pass.value.shadow.ids == []) {
      return None;
    }
    var Pass(all, active, shadow, probes) := pass.value;
    snapshot := Some(Snapshot(payload.revision.value, all.modes, active.modes, shadow.modes, all.issues, active.issues,
                              shadow.issues, probes, |packages|, active.ids, shadow.ids));
  }

  lemma TakeSnoc<T>(xs: seq<T>, i: nat)
    requires i < |xs|
    ensures xs[..i + 1] == xs[..i] + [xs[i]]
  {
  }

  method ReadPackages(packages: seq<Package>, isolateFailures: bool) returns (pass: Option<Pass>)
    ensures pass == if !isolateFailures && |Usable(packages)| < |packages| then None
            else Some(PassOver(Usable(packages)))
  {
    var read := Pass(Gather([]), Gather([]), Gather([]), map[]);
    ghost var ps := [];
    for i := 0 to |packages|
      invariant ps == Usable(packages[..i]) && read == PassOver(ps)
      invariant !isolateFailures ==> |ps| == i
    {
      TakeSnoc(packages, i);
      UsableSnoc(packages[..i], packages[i]);
      if packages[i].parsed.Some? {
        read := AddPackage(read, packages[i].parsed.value, ps);
        ps := ps + [packages[i].parsed.value];
      } else if !isolateFailures {
        StillShort(packages, i);
        return None;
      }
    }
    assert packages[..|packages|] == packages;
    pass := Some(read);
  }

  lemma {:induction false} StillShort(packages: seq<Package>, i: nat)
    requires i < |packages| && packages[i].parsed.None?
    ensures |Usable(packages)| < |packages|
  {
    if i < |packages| - 1 {
      StillShort(packages[..|packages| - 1], i);
    }
  }

  lemma {:induction false} IdsCount(ps: seq<Parsed>)
    ensures |Ids(Having(ps, true))| + |Ids(Having(ps, false))| == |ps|
  {
    if ps != [] {
      var init, last := ps[..|ps| - 1], ps[|ps| - 1];
      IdsCount(init);
      assert Having(ps, last.active)[..|Having(ps, last.active)| - 1] == Having(init, last.active);
      assert Having(ps, !last.active) == Having(init, !last.active);
    }
  }

  // ---- The registry

  datatype Mode = Off | Shadow | Assist | Authoritative

  /** How one fetch ends: unchanged, any failure, or a body. */
  datatype Fetched = NotModified | FetchFailed | Received(payload: Payload)

  /** The last payload of a history that validates, if there is one. */
  function LastGood(history: seq<Fetched>): Option<Snapshot> {
    if history == [] then None
    else match history[|history| - 1]
      case Received(payload) =>
        if Validated(payload, true).Some? then Validated(payload, true) else LastGood(history[..|history| - 1])
      case _ => LastGood(history[..|history| - 1])
  }

  lemma {:induction false} LastGoodIsOnePayload(history: seq<Fetched>)
    ensures LastGood(history).Some? <==>
            exists k :: 0 <= k < |history| && history[k].Received? && Validated(history[k].payload, true).Some?
    ensures LastGood(history).Some? ==>
      exists k :: 0 <= k < |history| && history[k].Received? && Validated(history[k].payload, true) == LastGood(history)
  {
    if history != [] {
      LastGoodIsOnePayload(history[..|history| - 1]);
    }
  }

  function MergedModes(baseline: Modes, runtime: Modes): Modes {
    map family | family in baseline.Keys + runtime.Keys ::
        Merged(Listed(baseline, family), Listed(runtime, family), true)
  }

  /** What a mode lets the merged catalogs see of a snapshot. */
  function VisibleModes(mode: Mode, snapshot: Option<Snapshot>): Modes {
    match mode
    case Authoritative => if snapshot.Some? then snapshot.value.modes else map[]
    case Assist => if snapshot.Some? then snapshot.value.activeModes else map[]
    case _ => map[]
  }

  function VisibleIssues(mode: Mode, snapshot: Option<Snapshot>): seq<Entry> {
    match mode
    case Authoritative => if snapshot.Some? then snapshot.value.issues else []
    case Assist => if snapshot.Some? then snapshot.value.activeIssues else []
    case _ => []
  }

  /** A well-formed payload with exactly these active packages. */
  ghost predicate Lists(p: Payload, active: seq<Parsed>) {
    p.revision.Some? && p.packages.Some? && Having(Usable(p.packages.value), true) == active
  }

  /** The snapshot in force when a payload arrives after this history. */
  function After(history: seq<Fetched>, p: Payload): (r: Option<Snapshot>)
    ensures r == if Validated(p, true).Some? then Validated(p, true) else LastGood(history)
  {
    var now := history + [Received(p)];
    assert now[..|now| - 1] == history;
    LastGood(now)
  }

  /** What analyses in assist mode see of a snapshot, and which probes are registered. */
  ghost predicate SameView(a: Option<Snapshot>, b: Option<Snapshot>) {
    && VisibleModes(Assist, a) == VisibleModes(Assist, b) && VisibleIssues(Assist, a) == VisibleIssues(Assist, b)
    && (a.Some? <==> b.Some?)
    && (a.Some? ==> a.value.probes == b.value.probes && a.value.activeIds == b.value.activeIds)
  }

  /** Payloads with these active packages all have the same effect, whatever shadow or unusable packages they list. */
  ghost predicate ShadowIsInvisible(active: seq<Parsed>) {
    forall history, p, q :: Lists(p, active) && Lists(q, active) ==> SameView(After(history, p), After(history, q))
  }

  lemma {:induction false} HavingIsShort(ps: seq<Parsed>, active: bool)
    ensures |Having(ps, active)| <= |ps|
  {
    if ps != [] {
      HavingIsShort(ps[..|ps| - 1], active);
    }
  }

  /** Some active package makes the whole payload valid. */
  lemma ActiveValidates(p: Payload, active: seq<Parsed>)
    requires Lists(p, active) && active != []
    ensures Validated(p, true) == Some(Built(p.revision.value, Usable(p.packages.value), |p.packages.value|))
  {
    HavingIsShort(Usable(p.packages.value), true);
  }

  lemma OnlyPackage(p: Parsed)
    ensures Usable([Package(Some(p))]) == [p]
    ensures Having([p], true) == if p.active then [p] else []
  {
    UsableSnoc([], Package(Some(p)));
    HavingSnoc([], p, true);
    assert [] + [Package(Some(p))] == [Package(Some(p))] && [] + [p] == [p];
  }

  lemma OnlyIssues(p: Parsed)
    ensures AllIssues([p]) == p.issues
  {
    assert [p][..0] == [];
  }

  /** Without one, an empty list retires the old catalog and a list of one unusable package keeps it. */
  lemma OldCatalogStays() returns (history: seq<Fetched>, p: Payload, q: Payload)
    ensures Lists(p, []) && Lists(q, []) && !SameView(After(history, p), After(history, q))
  {
    var name: Name, content: Content, id: PackageId, revision: Revision := *, *, *, *;
    var prior := Parsed(id, true, map[], [Entry(name, content)], map[]);
    OnlyPackage(prior);
    OnlyIssues(prior);
    var first := Received(Payload(Some(revision), Some([Package(Some(prior))])));
    history := [first];
    assert history[..0] == [] && LastGood(history).value.activeIssues == [Entry(name, content)];
    p, q := Payload(Some(revision), Some([])), Payload(Some(revision), Some([Package(None)]));
    assert [Package(None)][..0] == [] && Usable([Package(None)]) == [];
    assert Validated(q, true).None? && After(history, p).value.activeIssues == [];
  }

  lemma ActiveView(active: seq<Parsed>, history: seq<Fetched>, p: Payload)
    requires Lists(p, active) && active != []
    ensures var now := After(history, p);
      && now.Some? && now.value.activeModes == AllModes(active) && now.value.activeIssues == AllIssues(active)
      && now.value.probes == AllProbes(active) && now.value.activeIds == Ids(active)
  {
    ActiveValidates(p, active);
    ProbesNeedActive(Usable(p.packages.value));
  }

  /**
   * In assist mode, and for probes always, shadow packages have no effect,
   * exactly if some package is active.
   */
  lemma ShadowIsInvisibleIff(active: seq<Parsed>)
    ensures ShadowIsInvisible(active) <==> active != []
  {
    if active == [] {
      var history, p, q := OldCatalogStays();
      assert Lists(p, active) && Lists(q, active);
    } else {
      forall history, p, q | Lists(p, active) && Lists(q, active)
        ensures SameView(After(history, p), After(history, q))
      {
        ActiveView(active, history, p);
        ActiveView(active, history, q);
      }
    }
  }

  lemma MergedModesTwice(baseline: Modes, runtime: Modes)
    ensures MergedModes(MergedModes(baseline, runtime), runtime) == MergedModes(baseline, runtime)
  {
    forall family | family in baseline.Keys + runtime.Keys
      ensures Merged(Merged(Listed(baseline, family), Listed(runtime, family), true), Listed(runtime, family), true)
           == Merged(Listed(baseline, family), Listed(runtime, family), true)
    {
      MergeTwice(Listed(baseline, family), Listed(runtime, family), true);
    }
  }

  lemma MergeNothing(baseline: Modes)
    ensures MergedModes(baseline, map[]) == baseline
  {
  }

  method MergeModes(baseline: Modes, runtime: Modes) returns (catalog: Modes)
    ensures catalog == MergedModes(baseline, runtime)
  {
    catalog := baseline;
    var todo := runtime.Keys;
    while todo != {}
      invariant todo <= runtime.Keys && catalog.Keys == baseline.Keys + (runtime.Keys - todo)
      invariant forall family :: family in catalog ==>
        catalog[family] == if family in todo then baseline[family] else MergedModes(baseline, runtime)[family]
    {
      var family :| family in todo;
      todo := todo - {family};
      var merged := MergeEntries(Listed(catalog, family), runtime[family], true);
      catalog := catalog[family := merged];
    }
  }

  class Registry {
    const mode: Mode
    const configured: bool
    var snapshot: Option<Snapshot>
    ghost var history: seq<Fetched>

    ghost predicate Valid()
      reads this`snapshot, this`history
    {
      snapshot == LastGood(history)
    }

    constructor (mode: Mode, configured: bool)
      ensures Valid() && history == [] && this.mode == mode && this.configured == configured
    {
      this.mode, this.configured, snapshot, history := mode, configured, None, [];
    }

    /** One refresh; it either installs a whole validated payload or changes nothing. */
    method Refresh(fetched: Fetched) returns (changed: bool)
      requires Valid()
      modifies this`snapshot, this`history
      ensures Valid()
      ensures mode == Off || !configured ==> !changed && history == old(history)
      ensures mode != Off && configured ==> history == old(history) + [fetched]
      ensures !changed ==> snapshot == old(snapshot)
      ensures changed <==> mode != Off && configured && fetched.Received? && Validated(fetched.payload, true).Some?
    {
      if mode == Off || !configured {
        return false;
      }
      history := history + [fetched];
      assert history[..|history| - 1] == old(history);
      changed := false;
      if fetched.Received? {
        var next := Validate(fetched.payload, true);
        if next.Some? {
          snapshot := next;
          changed := true;
        }
      }
    }

    method FailureModes(baseline: Modes) returns (catalog: Modes)
      requires Valid()
      ensures catalog == MergedModes(baseline, VisibleModes(mode, LastGood(history)))
    {
      if snapshot.None? || (mode != Assist && mode != Authoritative) {
        MergeNothing(baseline);
        return baseline;
      }
      catalog := MergeModes(baseline, if mode == Assist then snapshot.value.activeModes else snapshot.value.modes);
    }

    method KnownIssues(baseline: seq<Entry>) returns (issues: seq<Entry>)
      requires Valid()
      ensures issues == Merged(baseline, VisibleIssues(mode, LastGood(history)), true)
    {
      if snapshot.None? || (mode != Assist && mode != Authoritative) {
        return baseline;
      }
      issues := MergeEntries(
        baseline, if mode == Authoritative then snapshot.value.issues else snapshot.value.activeIssues, true);
    }
  }
}
