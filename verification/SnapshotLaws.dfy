/** What an installed snapshot holds, told from the packages of its payload, and what each mode makes visible of it. */
module SnapshotLaws {
  import opened CatalogMerge
  import opened KnowledgeRegistry
  import opened Wrappers

  // ---- Which packages count

  lemma {:induction false} UsableIs(packages: seq<Package>, p: Parsed)
    ensures p in Usable(packages) <==> exists k :: 0 <= k < |packages| && packages[k].parsed == Some(p)
  {
    if packages != [] {
      var init, last := packages[..|packages| - 1], packages[|packages| - 1];
      UsableIs(init, p);
      assert forall k :: 0 <= k < |init| ==> init[k] == packages[k];
    }
  }

  lemma {:induction false} HavingIs(ps: seq<Parsed>, active: bool, p: Parsed)
    ensures p in Having(ps, active) <==> p in ps && p.active == active
  {
    if ps != [] {
      HavingIs(ps[..|ps| - 1], active, p);
      assert ps == ps[..|ps| - 1] + [ps[|ps| - 1]];
    }
  }

  /** In the payload's order. */
  lemma {:induction false} HavingKeepsOrder(ps: seq<Parsed>, active: bool, ids: seq<PackageId>)
    requires ids == Ids(Having(ps, active))
    ensures ps != [] && ps[|ps| - 1].active == active ==>
      ids == Ids(Having(ps[..|ps| - 1], active)) + [ps[|ps| - 1].id]
    ensures ps != [] && ps[|ps| - 1].active != active ==> ids == Ids(Having(ps[..|ps| - 1], active))
  {
    if ps != [] {
      var before := Having(ps[..|ps| - 1], active);
      if ps[|ps| - 1].active == active {
        assert (before + [ps[|ps| - 1]])[..|before|] == before;
      } else {
        assert before + [] == before;
      }
    }
  }

  // ---- What they contribute

  ghost predicate SomeOf(ps: seq<Parsed>, has: Parsed -> bool) {
    exists p :: p in ps && has(p)
  }

  lemma LastOrBefore(ps: seq<Parsed>, has: Parsed -> bool)
    requires ps != []
    ensures SomeOf(ps, has) <==> SomeOf(ps[..|ps| - 1], has) || has(ps[|ps| - 1])
  {
    assert ps == ps[..|ps| - 1] + [ps[|ps| - 1]];
    assert ps[|ps| - 1] in ps;
  }

  function HasEntry(family: Family, e: Entry): Parsed -> bool {
    (p: Parsed) => e in Listed(p.modes, family)
  }

  lemma {:induction false} ModesHas(ps: seq<Parsed>, family: Family, e: Entry)
    ensures e in Listed(AllModes(ps), family) <==> SomeOf(ps, HasEntry(family, e))
  {
    if ps != [] {
      ModesHas(ps[..|ps| - 1], family, e);
      LastOrBefore(ps, HasEntry(family, e));
      ListedSnoc(ps, family);
    }
  }

  lemma {:induction false} IssuesHas(ps: seq<Parsed>, e: Entry)
    ensures e in AllIssues(ps) <==> exists p :: p in ps && e in p.issues
  {
    if ps != [] {
      IssuesHas(ps[..|ps| - 1], e);
      assert ps == ps[..|ps| - 1] + [ps[|ps| - 1]];
    }
  }

  /** The package registers templates for the family under this id. */
  function Registers(family: Family, id: PackageId): Parsed -> bool {
    (p: Parsed) => p.active && p.id == id && family in p.probes
  }

  predicate Known(m: map<Family, map<PackageId, seq<ProbeId>>>, family: Family, id: PackageId) {
    family in m && id in m[family]
  }

  lemma OneMorePackage(m: map<Family, map<PackageId, seq<ProbeId>>>, p: Parsed, family: Family, id: PackageId)
    ensures Registers(family, id)(p) ==> Known(Registered(m, p), family, id)
                                         && Registered(m, p)[family][id] == p.probes[family]
    ensures !Registers(family, id)(p) ==>
      && (Known(Registered(m, p), family, id) <==> Known(m, family, id))
      && (Known(m, family, id) ==> Registered(m, p)[family][id] == m[family][id])
  {
  }

  /** Templates are known exactly for what some active package registers, and the last one's are in force. */
  lemma {:induction false} ProbesAre(ps: seq<Parsed>, family: Family, id: PackageId)
    ensures Known(AllProbes(ps), family, id) <==> SomeOf(ps, Registers(family, id))
    ensures ps != [] && Registers(family, id)(ps[|ps| - 1]) ==>
              Known(AllProbes(ps), family, id) && AllProbes(ps)[family][id] == ps[|ps| - 1].probes[family]
    ensures ps != [] && !Registers(family, id)(ps[|ps| - 1]) && Known(AllProbes(ps), family, id) ==>
      var before := AllProbes(ps[..|ps| - 1]);
      Known(before, family, id) && AllProbes(ps)[family][id] == before[family][id]
  {
    if ps != [] {
      ProbesAre(ps[..|ps| - 1], family, id);
      LastOrBefore(ps, Registers(family, id));
      OneMorePackage(AllProbes(ps[..|ps| - 1]), ps[|ps| - 1], family, id);
    }
  }

  // ---- The snapshot of a payload

  /** When a payload is accepted at all. */
  lemma ValidIff(payload: Payload, isolateFailures: bool)
    ensures Validated(payload, isolateFailures).Some? <==>
      && payload.revision.Some? && payload.packages.Some?
      && (payload.packages.value == [] || Usable(payload.packages.value) != [])
      && (isolateFailures || |Usable(payload.packages.value)| == |payload.packages.value|)
  {
  }

  /** Some usable package of the payload, with one of these statuses, has the entry. */
  ghost predicate Brings(packages: seq<Package>, family: Family, e: Entry, active: bool, shadow: bool) {
    exists p :: p in Usable(packages) && (if p.active then active else shadow) && e in Listed(p.modes, family)
  }

  ghost predicate BringsIssue(packages: seq<Package>, e: Entry, active: bool, shadow: bool) {
    exists p :: p in Usable(packages) && (if p.active then active else shadow) && e in p.issues
  }

  ghost predicate Carries(packages: seq<Package>, id: PackageId, active: bool) {
    exists p :: p in Usable(packages) && p.active == active && p.id == id
  }

  lemma {:induction false} IdsHas(ps: seq<Parsed>, id: PackageId)
    ensures id in Ids(ps) <==> exists p :: p in ps && p.id == id
  {
    if ps != [] {
      IdsHas(ps[..|ps| - 1], id);
      assert ps == ps[..|ps| - 1] + [ps[|ps| - 1]];
    }
  }

  /** The two lists of ids name the usable packages of each status. */
  lemma IdsAre(payload: Payload, isolateFailures: bool, id: PackageId)
    requires Validated(payload, isolateFailures).Some?
    ensures var s, packages := Validated(payload, isolateFailures).value, payload.packages.value;
      && (id in s.activeIds <==> Carries(packages, id, true))
      && (id in s.shadowIds <==> Carries(packages, id, false))
  {
    var ps := Usable(payload.packages.value);
    IdsHas(Having(ps, true), id);
    IdsHas(Having(ps, false), id);
    forall p { HavingIs(ps, true, p); }
    forall p { HavingIs(ps, false, p); }
  }

  /** Every list of a snapshot holds exactly what the usable packages of its kind bring. */
  lemma SnapshotHolds(payload: Payload, isolateFailures: bool, family: Family, e: Entry)
    requires Validated(payload, isolateFailures).Some?
    ensures var s, packages := Validated(payload, isolateFailures).value, payload.packages.value;
      && s.revision == payload.revision.value && s.packageCount == |packages|
      && (e in Listed(s.modes, family) <==> Brings(packages, family, e, true, true))
      && (e in Listed(s.activeModes, family) <==> Brings(packages, family, e, true, false))
      && (e in Listed(s.shadowModes, family) <==> Brings(packages, family, e, false, true))
      && (e in s.issues <==> BringsIssue(packages, e, true, true))
      && (e in s.activeIssues <==> BringsIssue(packages, e, true, false))
      && (e in s.shadowIssues <==> BringsIssue(packages, e, false, true))
  {
    var ps := Usable(payload.packages.value);
    ModesHas(ps, family, e);
    IssuesHas(ps, e);
    assert SomeOf(ps, HasEntry(family, e)) <==> exists p :: p in ps && e in Listed(p.modes, family);
    KindHolds(ps, true, family, e);
    KindHolds(ps, false, family, e);
  }

  lemma KindHolds(ps: seq<Parsed>, active: bool, family: Family, e: Entry)
    ensures e in Listed(AllModes(Having(ps, active)), family) <==>
            exists p :: p in ps && p.active == active && e in Listed(p.modes, family)
    ensures e in AllIssues(Having(ps, active)) <==> exists p :: p in ps && p.active == active && e in p.issues
  {
    ModesHas(Having(ps, active), family, e);
    IssuesHas(Having(ps, active), e);
    forall p ensures p in Having(ps, active) <==> p in ps && p.active == active {
      HavingIs(ps, active, p);
    }
  }

  // ---- What is seen of it

  /** Off and shadow show nothing, assist what active packages bring, authoritative everything. */
  lemma ModeShows(mode: Mode, s: Snapshot)
    ensures mode == Authoritative ==> VisibleModes(mode, Some(s)) == s.modes && VisibleIssues(mode, Some(s)) == s.issues
    ensures mode == Assist ==>
              VisibleModes(mode, Some(s)) == s.activeModes && VisibleIssues(mode, Some(s)) == s.activeIssues
    ensures mode == Off || mode == Shadow ==> VisibleModes(mode, Some(s)) == map[] && VisibleIssues(mode, Some(s)) == []
    ensures VisibleModes(mode, None) == map[] && VisibleIssues(mode, None) == []
  {
  }

  /** The merged catalog has every family of either, each merged on its own. */
  lemma MergedFamily(baseline: Modes, runtime: Modes, family: Family)
    ensures Listed(MergedModes(baseline, runtime), family)
            == Merged(Listed(baseline, family), Listed(runtime, family), true)
    ensures family in MergedModes(baseline, runtime) <==> family in baseline || family in runtime
  {
  }

  /** The last payload of a history decides, unless it is invalid. */
  lemma LastDecides(history: seq<Fetched>, fetched: Fetched)
    ensures LastGood([]) == None
    ensures LastGood(history + [fetched]) ==
            if fetched.Received? && Validated(fetched.payload, true).Some? then Validated(fetched.payload, true)
            else LastGood(history)
  {
    assert (history + [fetched])[..|history|] == history;
  }
}
