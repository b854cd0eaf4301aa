/** Repeated mirror runs over a fixed package list: what they converge to and what they never touch. */
module MirrorConvergence {
  import opened Wrappers
  import opened MirrorSpec

  /** Rows that share a package id agree on its status; distinct ids (the table's primary key) imply it. */
  ghost predicate OneStatusPerId(ops: seq<Op>) {
    forall i, j :: 0 <= i < |ops| && 0 <= j < |ops| && ops[i].id == ops[j].id ==> ops[i].active == ops[j].active
  }

  ghost predicate Compiles(ops: seq<Op>, id: string, active: bool, name: string) {
    exists op :: op in ops && op.id == id && op.active == active && op.entry.name == name
  }

  /** No retired package of this run still holds the name. */
  ghost predicate Settled(v: View, ops: seq<Op>, name: string) {
    v.node.Some? ==> !Compiles(ops, v.node.value.owner, false, name)
  }

  function LastEntry(ops: seq<Op>, id: string, name: string): Option<Entry> {
    if ops == [] then None
    else
      var later := LastEntry(ops[1..], id, name);
      if later.Some? then later
      else if ops[0].id == id && ops[0].entry.name == name then Some(ops[0].entry) else None
  }

  function ActionsOf(ops: seq<Op>, id: string, name: string): set<string> {
    if ops == [] then {}
    else
      (if ops[0].id == id && ops[0].entry.name == name then Elements(ops[0].entry.actions) else {})
      + ActionsOf(ops[1..], id, name)
  }

  lemma CompilesTail(ops: seq<Op>, id: string, active: bool, name: string)
    requires ops != []
    ensures Compiles(ops, id, active, name) <==>
            (ops[0].id == id && ops[0].active == active && ops[0].entry.name == name)
                || Compiles(ops[1..], id, active, name)
  {
    assert ops[0] in ops;
    assert forall op :: op in ops <==> op == ops[0] || op in ops[1..];
  }

  lemma TailKeepsStatus(ops: seq<Op>)
    requires ops != [] && OneStatusPerId(ops)
    ensures OneStatusPerId(ops[1..])
  {
    forall i, j | 0 <= i < |ops[1..]| && 0 <= j < |ops[1..]| && ops[1..][i].id == ops[1..][j].id
      ensures ops[1..][i].active == ops[1..][j].active
    {
      assert ops[i + 1].id == ops[j + 1].id;
    }
  }

  lemma OneStatus(ops: seq<Op>, id: string, name: string, other: string)
    requires OneStatusPerId(ops) && Compiles(ops, id, true, name)
    ensures !Compiles(ops, id, false, other)
  {
  }

  /** What a whole run makes of a name some listed package x keeps: x's last entry decides, its actions accumulate. */
  function Kept(v: View, ops: seq<Op>, id: string, name: string): View
    requires v.node.Some?
  {
    var last := LastEntry(ops, id, name);
    if last.None? then v
    else View(Some(v.node.value.(keywords := Elements(last.value.keywords), facts := {})),
              {last.value.family}, v.remedies + ActionsOf(ops, id, name))
  }

  lemma {:induction false} RunOnOwned(v: View, ops: seq<Op>, name: string)
    requires v.node.Some? && Settled(v, ops, name)
    ensures RunView(v, ops, name) == Kept(v, ops, v.node.value.owner, name)
    decreases |ops|
  {
    if ops != [] {
      var id := v.node.value.owner;
      CompilesTail(ops, id, false, name);
      var u := if ops[0].entry.name == name then ApplyView(v, ops[0]) else v;
      RunOnOwned(u, ops[1..], name);
      if LastEntry(ops[1..], id, name).None? { NoEntryNoActions(ops[1..], id, name); }
      assert Kept(u, ops[1..], id, name).remedies == Kept(v, ops, id, name).remedies;
    }
  }

  lemma {:induction false} NoEntryNoActions(ops: seq<Op>, id: string, name: string)
    requires LastEntry(ops, id, name).None?
    ensures ActionsOf(ops, id, name) == {}
  {
    if ops != [] { NoEntryNoActions(ops[1..], id, name); }
  }

  lemma {:induction false} LastEntryCompiles(ops: seq<Op>, id: string, name: string)
    ensures LastEntry(ops, id, name).Some? <==> Compiles(ops, id, true, name) || Compiles(ops, id, false, name)
  {
    if ops != [] {
      LastEntryCompiles(ops[1..], id, name);
      CompilesTail(ops, id, true, name);
      CompilesTail(ops, id, false, name);
    }
  }

  /** A free name stays free, or the first active package that compiles it keeps it to the end of the run. */
  lemma {:induction false} RunOnFree(v: View, ops: seq<Op>, name: string)
    requires v.node.None? && OneStatusPerId(ops)
    ensures var r := RunView(v, ops, name);
            if r.node.None? then r == v && forall op :: op in ops && op.active ==> op.entry.name != name
            else var id := r.node.value.owner;
                 && Compiles(ops, id, true, name)
                 && LastEntry(ops, id, name).Some?
                 && r == View(Some(BLANK_NODE.(owner := id,
                                              keywords := Elements(LastEntry(ops, id, name).value.keywords))),
                              {LastEntry(ops, id, name).value.family}, v.remedies + ActionsOf(ops, id, name))
    decreases |ops|
  {
    if ops != [] {
      var op := ops[0];
      TailKeepsStatus(ops);
      if op.entry.name == name && op.active {
        var u := ApplyView(v, op);
        CompilesTail(ops, op.id, true, name);
        CompilesTail(ops, op.id, false, name);
        OneStatus(ops, op.id, name, name);
        RunOnOwned(u, ops[1..], name);
        LastEntryCompiles(ops, op.id, name);
        if LastEntry(ops[1..], op.id, name).None? { NoEntryNoActions(ops[1..], op.id, name); }
      } else {
        RunOnFree(v, ops[1..], name);
        var r := RunView(v, ops[1..], name);
        if r.node.Some? {
          var id := r.node.value.owner;
          CompilesTail(ops, id, true, name);
          OneStatus(ops, id, name, name);
          CompilesTail(ops, id, false, name);
          assert !(op.id == id && op.entry.name == name);
        }
      }
    }
  }

  /** After one run no listed inactive package holds a name it compiles. */
  lemma {:induction false} RunSettles(v: View, ops: seq<Op>, name: string)
    requires OneStatusPerId(ops)
    ensures Settled(RunView(v, ops, name), ops, name)
    decreases |ops|
  {
    if v.node.None? {
      RunOnFree(v, ops, name);
      var r := RunView(v, ops, name);
      if r.node.Some? { OneStatus(ops, r.node.value.owner, name, name); }
    } else if ops != [] {
      var op := ops[0];
      TailKeepsStatus(ops);
      var u := if op.entry.name == name then ApplyView(v, op) else v;
      RunSettles(u, ops[1..], name);
      var r := RunView(u, ops[1..], name);
      if r.node.Some? {
        var id := r.node.value.owner;
        CompilesTail(ops, id, false, name);
        if op.id == id && !op.active && op.entry.name == name {
          OwnerOrigin(u, ops[1..], name);
          CompilesTail(ops, id, true, name);
          OneStatus(ops, id, name, name);
          assert false;
        }
      }
    }
  }

  /** A name's owner after a run owned it before or is an active package that compiles it. */
  lemma {:induction false} OwnerOrigin(v: View, ops: seq<Op>, name: string)
    ensures var r := RunView(v, ops, name);
            r.node.Some? ==> (v.node.Some? && v.node.value.owner == r.node.value.owner)
                             || Compiles(ops, r.node.value.owner, true, name)
    decreases |ops|
  {
    if ops != [] {
      var u := if ops[0].entry.name == name then ApplyView(v, ops[0]) else v;
      OwnerOrigin(u, ops[1..], name);
      var r := RunView(v, ops, name);
      if r.node.Some? { CompilesTail(ops, r.node.value.owner, true, name); }
    }
  }

  lemma ViewFixedAfterTwo(v: View, ops: seq<Op>, name: string)
    requires OneStatusPerId(ops)
    ensures var r := RunView(RunView(v, ops, name), ops, name);
            RunView(r, ops, name) == r && Settled(r, ops, name)
  {
    var u := RunView(v, ops, name);
    RunSettles(v, ops, name);
    var r := RunView(u, ops, name);
    RunSettles(u, ops, name);
    if u.node.Some? {
      RunOnOwned(u, ops, name);
      RunOnOwned(r, ops, name);
    } else {
      RunOnFree(u, ops, name);
      if r.node.Some? {
        RunOnOwned(r, ops, name);
        assert r.remedies + ActionsOf(ops, r.node.value.owner, name) == r.remedies;
      }
    }
  }

  // ----- The causes and actions a run creates

  ghost predicate AllSettled(s: Store, ops: seq<Op>) {
    forall name :: Settled(ViewOf(s, name), ops, name)
  }

  /** Every write the ops could still make is already in the graph. */
  ghost predicate Saturated(s: Store, ops: seq<Op>) {
    forall op :: op in ops && Writes(ViewOf(s, op.entry.name), op) ==>
      op.entry.family in s.causes && Elements(op.entry.actions) <= s.actions
  }

  lemma SettledStep(s: Store, ops: seq<Op>)
    requires ops != [] && OneStatusPerId(ops) && AllSettled(s, ops)
    ensures AllSettled(Apply(s, ops[0]), ops[1..])
  {
    var t := Apply(s, ops[0]);
    forall name ensures Settled(ViewOf(t, name), ops[1..], name) {
      ViewAfterApply(s, ops[0], name);
      var v := ViewOf(t, name);
      assert Settled(ViewOf(s, name), ops, name);
      if v.node.Some? {
        CompilesTail(ops, v.node.value.owner, false, name);
        if name == ops[0].entry.name && Writes(ViewOf(s, name), ops[0]) {
          CompilesTail(ops, ops[0].id, true, name);
          OneStatus(ops, ops[0].id, name, name);
        }
      }
    }
  }

  lemma {:induction false} SaturatedRunAddsNothing(s: Store, ops: seq<Op>)
    requires OneStatusPerId(ops) && AllSettled(s, ops) && Saturated(s, ops)
    ensures RunOps(s, ops).causes == s.causes && RunOps(s, ops).actions == s.actions
    decreases |ops|
  {
    if ops != [] {
      var op, t := ops[0], Apply(s, ops[0]);
      assert op in ops;
      SettledStep(s, ops);
      TailKeepsStatus(ops);
      forall o | o in ops[1..] && Writes(ViewOf(t, o.entry.name), o)
        ensures o.entry.family in t.causes && Elements(o.entry.actions) <= t.actions
      {
        ViewAfterApply(s, op, o.entry.name);
        assert Settled(ViewOf(s, o.entry.name), ops, o.entry.name);
        assert o in ops;
        if o.entry.name == op.entry.name && ViewOf(s, o.entry.name).node.Some? && ViewOf(t, o.entry.name).node.None? {
          CompilesTail(ops, op.id, false, op.entry.name);
          assert false;
        }
        assert Writes(ViewOf(s, o.entry.name), o);
      }
      SaturatedRunAddsNothing(t, ops[1..]);
    }
  }

  lemma {:induction false} RunOnlyAdds(s: Store, ops: seq<Op>)
    ensures s.causes <= RunOps(s, ops).causes && s.actions <= RunOps(s, ops).actions
    decreases |ops|
  {
    if ops != [] { RunOnlyAdds(Apply(s, ops[0]), ops[1..]); }
  }

  /** From a settled graph, every entry of the package that ends up owning a name was applied. */
  lemma {:induction false} OwnersEntriesApplied(s: Store, ops: seq<Op>, op: Op)
    requires OneStatusPerId(ops) && AllSettled(s, ops) && op in ops && op.active
    requires var v := ViewOf(RunOps(s, ops), op.entry.name); v.node.Some? && v.node.value.owner == op.id
    ensures op.entry.family in RunOps(s, ops).causes && Elements(op.entry.actions) <= RunOps(s, ops).actions
    decreases |ops|
  {
    var t := Apply(s, ops[0]);
    if op == ops[0] {
      var v := ViewOf(s, op.entry.name);
      ViewAfterRun(s, ops, op.entry.name);
      assert Settled(v, ops, op.entry.name);
      if v.node.Some? { RunOnOwned(v, ops, op.entry.name); }
      assert Writes(v, op);
      RunOnlyAdds(t, ops[1..]);
    } else {
      SettledStep(s, ops);
      TailKeepsStatus(ops);
      OwnersEntriesApplied(t, ops[1..], op);
    }
  }

  // ----- Main results

  /** Two runs reach a fixed point from any graph: the third changes nothing at all. */
  lemma ThirdRunChangesNothing(s: Store, rows: seq<Row>)
    requires OneStatusPerId(OpsOf(rows))
    ensures var twice := Run(Run(s, rows), rows); Run(twice, rows) == twice
  {
    var ops := OpsOf(rows);
    var s1 := RunOps(s, ops);
    var s2 := RunOps(s1, ops);
    var s3 := RunOps(s2, ops);
    forall name ensures ViewOf(s3, name) == ViewOf(s2, name) && Settled(ViewOf(s2, name), ops, name)
                        && Settled(ViewOf(s1, name), ops, name) {
      ViewAfterRun(s, ops, name);
      ViewAfterRun(s1, ops, name);
      ViewAfterRun(s2, ops, name);
      ViewFixedAfterTwo(ViewOf(s, name), ops, name);
      RunSettles(ViewOf(s, name), ops, name);
    }
    forall op | op in ops && Writes(ViewOf(s2, op.entry.name), op)
      ensures op.entry.family in s2.causes && Elements(op.entry.actions) <= s2.actions
    {
      var name := op.entry.name;
      if ViewOf(s2, name).node.None? {
        ViewAfterRun(s2, ops, name);
        RunOnFree(ViewOf(s2, name), ops, name);
        assert false;
      }
      OwnersEntriesApplied(s1, ops, op);
    }
    SaturatedRunAddsNothing(s2, ops);
    SameViewsSameStore(s3, s2);
  }

  /** No package is listed twice. */
  ghost predicate DistinctIds(rows: seq<Row>) {
    forall i, j :: 0 <= i < j < |rows| ==> rows[i].packageId != rows[j].packageId
  }

  predicate ComesFrom(row: Row, op: Op) {
    op.id == row.packageId && op.active == row.active && op.entry in row.entries
  }

  lemma {:induction false} OpOrigin(rows: seq<Row>, op: Op)
    ensures op in OpsOf(rows) <==>
            exists i :: 0 <= i < |rows| && ComesFrom(rows[i], op)
  {
    if rows != [] {
      OpOrigin(rows[1..], op);
      var head := RowOps(rows[0]);
      assert OpsOf(rows) == head + OpsOf(rows[1..]);
      if ComesFrom(rows[0], op) {
        var k :| 0 <= k < |rows[0].entries| && rows[0].entries[k] == op.entry;
        assert head[k] == op;
      }
      if i :| 1 <= i < |rows| && ComesFrom(rows[i], op) {
        assert rows[1..][i - 1] == rows[i];
      }
      if i :| 0 <= i < |rows[1..]| && ComesFrom(rows[1..][i], op) {
        assert rows[i + 1] == rows[1..][i];
      }
    }
  }

  lemma DistinctIdsGiveOneStatus(rows: seq<Row>)
    requires DistinctIds(rows)
    ensures OneStatusPerId(OpsOf(rows))
  {
    var ops := OpsOf(rows);
    forall i, j | 0 <= i < |ops| && 0 <= j < |ops| && ops[i].id == ops[j].id ensures ops[i].active == ops[j].active {
      OpOrigin(rows, ops[i]);
      OpOrigin(rows, ops[j]);
    }
  }

  // ----- The rows a fetch returns

  /** str.strip. */
  function Strip(blank: char -> bool, s: string): (r: string)
    ensures r != "" ==> !blank(r[0]) && !blank(r[|r| - 1])
  {
    if s != "" && blank(s[0]) then Strip(blank, s[1..])
    else if s != "" && blank(s[|s| - 1]) then Strip(blank, s[..|s| - 1])
    else s
  }

  /** A row as the table holds it; package_id is the primary key. */
  datatype Stored = Stored(packageId: string, active: bool, entries: seq<Entry>)

  ghost predicate Keyed(table: seq<Stored>) {
    forall i, j :: 0 <= i < j < |table| ==> table[i].packageId != table[j].packageId
  }

  /** The id the backend gives a package: of a run, and of the stripped hash of its analysis. */
  ghost predicate BackendId(blank: char -> bool, id: string) {
    exists run, hash :: Strip(blank, hash) != "" && id == "KPK-" + run + ":" + Strip(blank, hash)
  }

  /** The mirror strips the ids it reads. */
  function Fetched(blank: char -> bool, table: seq<Stored>): seq<Row> {
    seq(|table|, i requires 0 <= i < |table| =>
      Row(Strip(blank, table[i].packageId), table[i].active, table[i].entries))
  }

  /** Nothing is stripped off such an id. */
  lemma BackendIdStays(blank: char -> bool, id: string)
    requires !blank('K') && BackendId(blank, id)
    ensures Strip(blank, id) == id
  {
    var run, hash :| Strip(blank, hash) != "" && id == "KPK-" + run + ":" + Strip(blank, hash);
    var h := Strip(blank, hash);
    assert id[0] == 'K' && id[|id| - 1] == h[|h| - 1];
  }

  /** Whatever the graph holds and the table lists, two runs of the job reach a fixed point. */
  lemma MirrorConverges(blank: char -> bool, s: Store, table: seq<Stored>)
    requires !blank('K') && Keyed(table) && forall i :: 0 <= i < |table| ==> BackendId(blank, table[i].packageId)
    ensures var rows := Fetched(blank, table);
            var twice := Run(Run(s, rows), rows); Run(twice, rows) == twice
  {
    var rows := Fetched(blank, table);
    forall i | 0 <= i < |rows| ensures rows[i].packageId == table[i].packageId {
      BackendIdStays(blank, table[i].packageId);
    }
    DistinctIdsGiveOneStatus(rows);
    ThirdRunChangesNothing(s, rows);
  }

  /** A symptom whose owner compiles nothing for it in this list is left exactly as it was. */
  lemma UncompiledOwnerUntouched(s: Store, ops: seq<Op>, name: string)
    requires ViewOf(s, name).node.Some?
    requires forall active :: !Compiles(ops, ViewOf(s, name).node.value.owner, active, name)
    ensures ViewOf(RunOps(s, ops), name) == ViewOf(s, name)
  {
    var v := ViewOf(s, name);
    ViewAfterRun(s, ops, name);
    RunOnOwned(v, ops, name);
    LastEntryCompiles(ops, v.node.value.owner, name);
  }

  ghost predicate Curated(v: View) { v.node.Some? && v.node.value.owner == "" }

  lemma {:induction false} FactsNeverReturn(v: View, ops: seq<Op>, name: string)
    requires v.node.Some? ==> v.node.value.facts == {}
    ensures var r := RunView(v, ops, name); r.node.Some? ==> r.node.value.facts == {}
    decreases |ops|
  {
    if ops != [] {
      FactsNeverReturn(if ops[0].entry.name == name then ApplyView(v, ops[0]) else v, ops[1..], name);
    }
  }

  lemma {:induction false} BlankIdTakesCurated(v: View, ops: seq<Op>, op: Op)
    requires op in ops && op.id == "" && Curated(v) && v.node.value.facts != {}
    ensures RunView(v, ops, op.entry.name) != v
    decreases |ops|
  {
    var name := op.entry.name;
    var u := if ops[0].entry.name == name then ApplyView(v, ops[0]) else v;
    if u == v {
      if ops[0] == op { assert false; }
      BlankIdTakesCurated(v, ops[1..], op);
    } else {
      FactsNeverReturn(u, ops[1..], name);
    }
  }

  ghost predicate LeavesCuratedAlone(rows: seq<Row>) {
    forall s: Store, name: string :: Curated(ViewOf(s, name)) ==> ViewOf(Run(s, rows), name) == ViewOf(s, name)
  }

  lemma BlankIdCounterexample(rows: seq<Row>, op: Op) returns (s: Store)
    requires op in OpsOf(rows) && op.id == ""
    ensures Curated(ViewOf(s, op.entry.name)) && ViewOf(Run(s, rows), op.entry.name) != ViewOf(s, op.entry.name)
  {
    var name := op.entry.name;
    s := Store(map[name := BLANK_NODE.(facts := {Reason("curated")})], {}, {}, {}, {});
    assert Reason("curated") in ViewOf(s, name).node.value.facts;
    ViewAfterRun(s, OpsOf(rows), name);
    BlankIdTakesCurated(ViewOf(s, name), OpsOf(rows), op);
  }

  /** Curated symptoms are safe from a package list exactly when no row that compiles something has a blank id. */
  lemma CuratedSafeIff(rows: seq<Row>)
    ensures LeavesCuratedAlone(rows) <==> forall op :: op in OpsOf(rows) ==> op.id != ""
  {
    var ops := OpsOf(rows);
    if forall op :: op in ops ==> op.id != "" {
      forall s: Store, name: string | Curated(ViewOf(s, name)) ensures ViewOf(Run(s, rows), name) == ViewOf(s, name) {
        UncompiledOwnerUntouched(s, ops, name);
      }
    } else {
      var op :| op in ops && op.id == "";
      var s := BlankIdCounterexample(rows, op);
    }
  }

  function RunAll(s: Store, history: seq<seq<Row>>): Store
    decreases |history|
  {
    if history == [] then s else RunAll(Run(s, history[0]), history[1..])
  }

  /** Any number of runs over any lists, with any rows failing, leaves curated symptoms untouched. */
  lemma {:induction false} CuratedUntouchedForever(s: Store, history: seq<seq<Row>>, name: string)
    requires Curated(ViewOf(s, name))
    requires forall rows, row :: rows in history && row in rows ==> row.packageId != ""
    ensures ViewOf(RunAll(s, history), name) == ViewOf(s, name)
    decreases |history|
  {
    if history != [] {
      forall op | op in OpsOf(history[0]) ensures op.id != "" {
        OpOrigin(history[0], op);
        var i :| 0 <= i < |history[0]| && op.id == history[0][i].packageId;
        assert history[0][i] in history[0];
      }
      CuratedSafeIff(history[0]);
      assert ViewOf(Run(s, history[0]), name) == ViewOf(s, name);
      CuratedUntouchedForever(Run(s, history[0]), history[1..], name);
    }
  }

  /** One run takes a symptom from an inactive package exactly when that package still compiles it; the next owner is
      active. */
  lemma InactiveOwnerReleasedIff(s: Store, rows: seq<Row>, name: string)
    requires DistinctIds(rows)
    requires ViewOf(s, name).node.Some? && !Compiles(OpsOf(rows), ViewOf(s, name).node.value.owner, true, name)
    ensures var p := ViewOf(s, name).node.value.owner;
            var r := ViewOf(Run(s, rows), name);
            && ((r.node.None? || r.node.value.owner != p) <==> Compiles(OpsOf(rows), p, false, name))
            && (r.node.Some? && r.node.value.owner != p ==> Compiles(OpsOf(rows), r.node.value.owner, true, name))
  {
    var ops := OpsOf(rows);
    var v := ViewOf(s, name);
    DistinctIdsGiveOneStatus(rows);
    ViewAfterRun(s, ops, name);
    OwnerOrigin(v, ops, name);
    RunSettles(v, ops, name);
    if !Compiles(ops, v.node.value.owner, false, name) { UncompiledOwnerUntouched(s, ops, name); }
  }

  /** After a run an owned symptom points at its owner's last compiled family and no other, unless the owner
      compiles nothing for it: then its families are what they were. */
  lemma OwnedPointsAtOneFamily(s: Store, rows: seq<Row>, name: string)
    requires DistinctIds(rows) && ViewOf(Run(s, rows), name).node.Some?
    ensures var ops := OpsOf(rows);
            var r := ViewOf(Run(s, rows), name);
            var last := LastEntry(ops, r.node.value.owner, name);
            if last.Some? then
              r.families == {last.value.family} && r.node.value.keywords == Elements(last.value.keywords)
            else r == ViewOf(s, name)
  {
    var ops := OpsOf(rows);
    var v := ViewOf(s, name);
    var r := ViewOf(Run(s, rows), name);
    DistinctIdsGiveOneStatus(rows);
    ViewAfterRun(s, ops, name);
    RunSettles(v, ops, name);
    LastEntryCompiles(ops, r.node.value.owner, name);
    RunFromAnything(v, ops, name);
  }

  /** A retired owner earlier in the list frees a name to later rows; the run after is then decided as from free. */
  lemma {:induction false} RunFromAnything(v: View, ops: seq<Op>, name: string)
    requires OneStatusPerId(ops)
    ensures var r := RunView(v, ops, name);
            r.node.Some? ==>
              var last := LastEntry(ops, r.node.value.owner, name);
              if last.Some? then
                r.families == {last.value.family} && r.node.value.keywords == Elements(last.value.keywords)
              else r == v
    decreases |ops|
  {
    if Settled(v, ops, name) {
      if v.node.Some? { RunOnOwned(v, ops, name); } else { RunOnFree(v, ops, name); }
    } else {
      var op := ops[0];
      TailKeepsStatus(ops);
      var u := if op.entry.name == name then ApplyView(v, op) else v;
      RunFromAnything(u, ops[1..], name);
      var r := RunView(v, ops, name);
      if r.node.Some? {
        var id := r.node.value.owner;
        var p := v.node.value.owner;
        RunSettles(v, ops, name);
        assert id != p;
        OwnerOrigin(u, ops[1..], name);
        assert Compiles(ops[1..], id, true, name);
        CompilesTail(ops, id, true, name);
        OneStatus(ops, id, name, name);
        LastEntryCompiles(ops[1..], id, name);
        CompilesTail(ops, id, false, name);
      }
    }
  }

  // ----- Where the limits are

  const SAMPLE := Entry("image_pull_error", "Stuck Pull", ["errimagepull"], ["Check the tag"])

  function Holds(owner: string): View {
    View(Some(BLANK_NODE.(owner := owner, keywords := {"errimagepull"})), {"image_pull_error"}, {"Check the tag"})
  }

  function Holding(owner: string): Store {
    Store(map[SAMPLE.name := Holds(owner).node.value], {Edge(SAMPLE.name, "image_pull_error")},
          {Edge(SAMPLE.name, "Check the tag")}, {"image_pull_error"}, {"Check the tag"})
  }

  lemma ViewOfHolding(owner: string)
    ensures ViewOf(Holding(owner), SAMPLE.name) == Holds(owner)
  {
    var s := Holding(owner);
    assert Edge(SAMPLE.name, "image_pull_error") in s.indicates;
    assert Edge(SAMPLE.name, "Check the tag") in s.resolvedBy;
  }

  lemma SampleStep(v: View, id: string, active: bool)
    ensures v == Holds(id) && !active ==> ApplyView(v, Op(id, active, SAMPLE)) == View(None, {}, {})
    ensures v == View(None, {}, {}) ==> ApplyView(v, Op(id, active, SAMPLE)) == if active then Holds(id) else v
  {
    assert Elements(SAMPLE.keywords) == {"errimagepull"} && Elements(SAMPLE.actions) == {"Check the tag"};
  }

  /** One run is not enough: a later row's retired package frees a name an earlier active row was refused. */
  lemma OneRunIsNotEnough()
    ensures exists s: Store, rows :: DistinctIds(rows) && Run(Run(s, rows), rows) != Run(s, rows)
  {
    var rows := [Row("a", true, [SAMPLE]), Row("p", false, [SAMPLE])];
    var ops := [Op("a", true, SAMPLE), Op("p", false, SAMPLE)];
    var s := Holding("p");
    assert OpsOf(rows) == ops by { assert OpsOf(rows[1..]) == RowOps(rows[1]) + []; }
    ViewOfHolding("p");
    SampleStep(Holds("p"), "p", false);
    ViewAfterRun(s, ops, SAMPLE.name);
    assert RunView(Holds("p"), ops, SAMPLE.name) == RunView(Holds("p"), ops[1..], SAMPLE.name) == View(None, {}, {});
    SampleStep(View(None, {}, {}), "a", true);
    ViewAfterRun(Run(s, rows), ops, SAMPLE.name);
    assert RunView(View(None, {}, {}), ops, SAMPLE.name) == RunView(Holds("a"), ops[1..], SAMPLE.name) == Holds("a");
    assert ViewOf(Run(Run(s, rows), rows), SAMPLE.name) != ViewOf(Run(s, rows), SAMPLE.name);
  }

  /** Without one status per id the runs need not converge: this name changes hands on every run, for ever. */
  lemma ConflictingRowsOscillate()
    ensures var ops := [Op("q", false, SAMPLE), Op("r", true, SAMPLE), Op("p", false, SAMPLE),
                        Op("q", true, SAMPLE), Op("r", false, SAMPLE), Op("p", true, SAMPLE)];
            && !OneStatusPerId(ops)
            && RunView(Holds("p"), ops, SAMPLE.name) == Holds("q")
            && RunView(Holds("q"), ops, SAMPLE.name) == Holds("p")
  {
    var ops := [Op("q", false, SAMPLE), Op("r", true, SAMPLE), Op("p", false, SAMPLE),
                Op("q", true, SAMPLE), Op("r", false, SAMPLE), Op("p", true, SAMPLE)];
    assert ops[0].id == ops[3].id && ops[0].active != ops[3].active;
    var free := View(None, {}, {});
    SampleStep(Holds("p"), "p", false);
    SampleStep(free, "q", true);
    SampleStep(Holds("q"), "q", false);
    SampleStep(free, "r", true);
    SampleStep(Holds("r"), "r", false);
    SampleStep(free, "p", true);
    var n := SAMPLE.name;
    assert RunView(Holds("q"), ops[4..], n) == RunView(Holds("q"), ops[5..], n) == Holds("q");
    assert RunView(Holds("p"), ops[1..], n) == RunView(Holds("p"), ops[2..], n) == RunView(free, ops[3..], n)
           == Holds("q");
    assert RunView(Holds("r"), ops[3..], n) == RunView(Holds("r"), ops[4..], n) == RunView(free, ops[5..], n)
           == Holds("p");
    assert RunView(free, ops[1..], n) == RunView(Holds("r"), ops[2..], n) == Holds("p");
  }
}
