/** The knowledge graph as the mirror job updates it: each method is one of the job's read-then-write helpers. */
module GraphMirror {
  import opened Wrappers
  import opened MirrorSpec

  datatype Fields = Fields(reason: string, reasonKo: string, component: string, nameKo: string,
                           exclusiveActions: bool, requiresLifecycle: bool, actionsKo: seq<string>)

  const NO_FIELDS := Fields("", "", "", "", false, false, [])

  datatype Attribute = ReasonAttr | ReasonKoAttr | ComponentAttr | NameKoAttr | StatementKoAttr

  function Fact(attribute: Attribute, text: string): TextFact {
    match attribute
    case ReasonAttr => Reason(text)
    case ReasonKoAttr => ReasonKo(text)
    case ComponentAttr => Component(text)
    case NameKoAttr => NameKo(text)
    case StatementKoAttr => StatementKo(text)
  }

  predicate Carries(fact: TextFact, attribute: Attribute) { fact == Fact(attribute, fact.text) }

  function Values(attribute: Attribute, desired: seq<string>): set<TextFact> {
    set v | v in desired && v != "" :: Fact(attribute, v)
  }

  /** The facts a symptom holds once one attribute was reconciled with the desired values; blanks are not values. */
  function Reconciled(facts: set<TextFact>, attribute: Attribute, desired: seq<string>): set<TextFact> {
    (set f | f in facts && !Carries(f, attribute)) + Values(attribute, desired)
  }

  function TextsReconciled(facts: set<TextFact>, fields: Fields): set<TextFact> {
    var f1 := Reconciled(facts, ReasonAttr, [fields.reason]);
    var f2 := Reconciled(f1, ReasonKoAttr, [fields.reasonKo]);
    var f3 := Reconciled(f2, ComponentAttr, [fields.component]);
    Reconciled(f3, NameKoAttr, [fields.nameKo])
  }

  function Ensured(node: Node, keywords: seq<string>, fields: Fields): Node {
    Node(node.owner, Elements(keywords),
         Reconciled(TextsReconciled(node.facts, fields), StatementKoAttr, fields.actionsKo),
         node.exclusiveActions || fields.exclusiveActions, node.requiresLifecycle || fields.requiresLifecycle)
  }

  lemma EnsuredWithoutFields(node: Node, keywords: seq<string>)
    ensures Ensured(node, keywords, NO_FIELDS) == node.(keywords := Elements(keywords), facts := {})
  {
    forall f ensures f !in Ensured(node, keywords, NO_FIELDS).facts {
      match f
      case Reason(_) => assert Carries(f, ReasonAttr);
      case ReasonKo(_) => assert Carries(f, ReasonKoAttr);
      case Component(_) => assert Carries(f, ComponentAttr);
      case NameKo(_) => assert Carries(f, NameKoAttr);
      case StatementKo(_) => assert Carries(f, StatementKoAttr);
    }
  }

  /** Afterwards a symptom has exactly the given texts, blanks apart, and its flags are never taken away. */
  lemma EnsuredHas(node: Node, keywords: seq<string>, fields: Fields, text: string)
    ensures var after := Ensured(node, keywords, fields);
      && (Reason(text) in after.facts <==> text == fields.reason && text != "")
      && (ReasonKo(text) in after.facts <==> text == fields.reasonKo && text != "")
      && (Component(text) in after.facts <==> text == fields.component && text != "")
      && (NameKo(text) in after.facts <==> text == fields.nameKo && text != "")
      && (StatementKo(text) in after.facts <==> text in fields.actionsKo && text != "")
      && (text in after.keywords <==> text in keywords)
      && after.owner == node.owner
      && after.exclusiveActions == (node.exclusiveActions || fields.exclusiveActions)
      && after.requiresLifecycle == (node.requiresLifecycle || fields.requiresLifecycle)
  {
    assert Carries(Reason(text), ReasonAttr) && Carries(ReasonKo(text), ReasonKoAttr);
    assert Carries(Component(text), ComponentAttr) && Carries(NameKo(text), NameKoAttr);
    assert Carries(StatementKo(text), StatementKoAttr);
  }

  lemma LastUpdateCounts(m: map<string, Node>, name: string, first: Node, last: Node)
    ensures m[name := first][name := last] == m[name := last]
  {
  }

  class Graph {
    var symptoms: map<string, Node>
    var indicates: set<Edge>
    var resolvedBy: set<Edge>
    var causes: set<string>
    var actions: set<string>

    ghost function State(): Store
      reads this
    {
      Store(symptoms, indicates, resolvedBy, causes, actions)
    }

    method EnsureCause(family: string)
      modifies this`causes
      ensures causes == old(causes) + {family}
    {
      if family !in causes { causes := causes + {family}; }
    }

    method EnsureAction(statement: string)
      modifies this`actions
      ensures actions == old(actions) + {statement}
    {
      if statement !in actions { actions := actions + {statement}; }
    }

    method DropFacts(name: string, stale: set<TextFact>)
      requires name in symptoms
      modifies this`symptoms
      ensures symptoms == old(symptoms)[name := old(symptoms)[name].(facts := old(symptoms)[name].facts - stale)]
    {
      var before := symptoms[name];
      var rows := stale;
      while rows != {}
        invariant rows <= stale
        invariant name in symptoms && symptoms == old(symptoms)[name := symptoms[name]]
        invariant symptoms[name] == before.(facts := symptoms[name].facts)
        invariant symptoms[name].facts == before.facts - (stale - rows)
        decreases rows
      {
        var f :| f in rows;
        symptoms := symptoms[name := symptoms[name].(facts := symptoms[name].facts - {f})];
        rows := rows - {f};
      }
      assert symptoms[name].facts == before.facts - stale;
    }

    method AddValues(name: string, attribute: Attribute, desired: seq<string>)
      requires name in symptoms
      modifies this`symptoms
      ensures symptoms == old(symptoms)[name := old(symptoms)[name].(
                            facts := old(symptoms)[name].facts + Values(attribute, desired))]
    {
      var before := symptoms[name];
      var i := 0;
      while i < |desired|
        invariant 0 <= i <= |desired|
        invariant name in symptoms && symptoms == old(symptoms)[name := symptoms[name]]
        invariant symptoms[name] == before.(facts := symptoms[name].facts)
        invariant symptoms[name].facts == before.facts + Values(attribute, desired[..i])
      {
        var v := desired[i];
        assert desired[..i + 1] == desired[..i] + [v];
        assert Values(attribute, desired[..i + 1])
            == Values(attribute, desired[..i]) + (if v != "" then {Fact(attribute, v)} else {});
        if v != "" && Fact(attribute, v) !in symptoms[name].facts {
          symptoms := symptoms[name := symptoms[name].(facts := symptoms[name].facts + {Fact(attribute, v)})];
        }
        i := i + 1;
      }
      assert desired[..i] == desired;
    }

    method ReplaceAttribute(name: string, attribute: Attribute, desired: seq<string>)
      requires name in symptoms
      modifies this`symptoms
      ensures symptoms == old(symptoms)[name := old(symptoms)[name].(
                            facts := Reconciled(old(symptoms)[name].facts, attribute, desired))]
    {
      var before := symptoms[name];
      var stale := set f | f in before.facts && Carries(f, attribute) && (f.text == "" || f.text !in desired);
      DropFacts(name, stale);
      AddValues(name, attribute, desired);
      forall f ensures f in before.facts - stale + Values(attribute, desired)
                       <==> f in Reconciled(before.facts, attribute, desired) {
        if f in before.facts - stale && Carries(f, attribute) {
          assert Fact(attribute, f.text) in Values(attribute, desired);
        }
      }
      assert before.facts - stale + Values(attribute, desired) == Reconciled(before.facts, attribute, desired);
    }

    method EnsureKeywords(name: string, keywords: seq<string>)
      requires name in symptoms
      modifies this`symptoms
      ensures symptoms == old(symptoms)[name := old(symptoms)[name].(keywords := Elements(keywords))]
    {
      var before := symptoms[name];
      var i := 0;
      while i < |keywords|
        invariant 0 <= i <= |keywords|
        invariant name in symptoms && symptoms == old(symptoms)[name := symptoms[name]]
        invariant symptoms[name] == before.(keywords := symptoms[name].keywords)
        invariant symptoms[name].keywords == before.keywords + Elements(keywords[..i])
      {
        assert Elements(keywords[..i + 1]) == Elements(keywords[..i]) + {keywords[i]};
        if keywords[i] !in symptoms[name].keywords {
          symptoms := symptoms[name := symptoms[name].(keywords := symptoms[name].keywords + {keywords[i]})];
        }
        i := i + 1;
      }
      assert keywords[..i] == keywords;
      var all := symptoms[name].keywords;
      var stale := set k | k in all && k !in keywords;
      var rows := stale;
      while rows != {}
        invariant rows <= stale
        invariant name in symptoms && symptoms == old(symptoms)[name := symptoms[name]]
        invariant symptoms[name] == before.(keywords := symptoms[name].keywords)
        invariant symptoms[name].keywords == all - (stale - rows)
        decreases rows
      {
        var k :| k in rows;
        symptoms := symptoms[name := symptoms[name].(keywords := symptoms[name].keywords - {k})];
        rows := rows - {k};
      }
      assert symptoms[name].keywords == all - stale == Elements(keywords);
    }

    method EnsureSymptom(name: string, keywords: seq<string>, fields: Fields)
      modifies this`symptoms
      ensures symptoms == old(symptoms)[name := Ensured(
                            if name in old(symptoms) then old(symptoms)[name] else BLANK_NODE, keywords, fields)]
    {
      if name !in symptoms { symptoms := symptoms[name := BLANK_NODE]; }
      ghost var base, n0 := symptoms, symptoms[name];
      EnsureKeywords(name, keywords);
      ghost var n1 := symptoms[name];
      ReplaceTexts(name, fields);
      ghost var n2 := symptoms[name];
      LastUpdateCounts(base, name, n1, n2);
      RaiseFlags(name, fields);
      ghost var n3 := symptoms[name];
      LastUpdateCounts(base, name, n2, n3);
      ReplaceAttribute(name, StatementKoAttr, fields.actionsKo);
      LastUpdateCounts(base, name, n3, symptoms[name]);
      LastUpdateCounts(old(symptoms), name, n0, symptoms[name]);
      assert base == old(symptoms)[name := n0];
    }

    method RaiseFlags(name: string, fields: Fields)
      requires name in symptoms
      modifies this`symptoms
      ensures symptoms == old(symptoms)[name := old(symptoms)[name].(
                            exclusiveActions := old(symptoms)[name].exclusiveActions || fields.exclusiveActions,
                            requiresLifecycle := old(symptoms)[name].requiresLifecycle || fields.requiresLifecycle)]
    {
      if fields.exclusiveActions && !symptoms[name].exclusiveActions {
        symptoms := symptoms[name := symptoms[name].(exclusiveActions := true)];
      }
      if fields.requiresLifecycle && !symptoms[name].requiresLifecycle {
        symptoms := symptoms[name := symptoms[name].(requiresLifecycle := true)];
      }
    }

    method ReplaceTexts(name: string, fields: Fields)
      requires name in symptoms
      modifies this`symptoms
      ensures symptoms == old(symptoms)[name := old(symptoms)[name].(
                            facts := TextsReconciled(old(symptoms)[name].facts, fields))]
    {
      ReplaceAttribute(name, ReasonAttr, [fields.reason]);
      ghost var n1 := symptoms[name];
      ReplaceAttribute(name, ReasonKoAttr, [fields.reasonKo]);
      ghost var n2 := symptoms[name];
      LastUpdateCounts(old(symptoms), name, n1, n2);
      ReplaceAttribute(name, ComponentAttr, [fields.component]);
      ghost var n3 := symptoms[name];
      LastUpdateCounts(old(symptoms), name, n2, n3);
      ReplaceAttribute(name, NameKoAttr, [fields.nameKo]);
      LastUpdateCounts(old(symptoms), name, n3, symptoms[name]);
    }

    /** The learned package id is replaced, not added to. */
    method MarkOwner(name: string, id: string)
      requires name in symptoms
      modifies this`symptoms
      ensures symptoms == old(symptoms)[name := old(symptoms)[name].(owner := id)]
    {
      symptoms := symptoms[name := symptoms[name].(owner := "")];
      symptoms := symptoms[name := symptoms[name].(owner := id)];
    }

    /** The stale edges go; the new one needs both of its nodes. */
    method RelateIndicates(name: string, family: string)
      modifies this`indicates
      ensures var linked := family in Targets(old(indicates), name) || (name in symptoms && family in causes);
        indicates == Retarget(old(indicates), name, if linked then {family} else {})
    {
      var current := Targets(indicates, name);
      var stale := current - {family};
      var rows := stale;
      while rows != {}
        invariant rows <= stale
        invariant indicates == set e | e in old(indicates) && !(e.symptom == name && e.target in stale - rows)
        decreases rows
      {
        var f :| f in rows;
        indicates := indicates - {Edge(name, f)};
        rows := rows - {f};
      }
      forall e ensures e in indicates <==> e in old(indicates) && (e.symptom != name || e.target == family) {
        if e in old(indicates) && e.symptom == name { assert e.target in current; }
      }
      if family in current {
        assert Edge(name, family) in indicates;
        return;
      }
      if name in symptoms && family in causes {
        indicates := indicates + {Edge(name, family)};
      }
    }

    method RelateResolvedBy(name: string, statement: string)
      modifies this`resolvedBy
      ensures resolvedBy == old(resolvedBy)
                            + if name in symptoms && statement in actions then {Edge(name, statement)} else {}
    {
      if Edge(name, statement) in resolvedBy {
        return;
      }
      if name in symptoms && statement in actions {
        resolvedBy := resolvedBy + {Edge(name, statement)};
      }
    }

    method RelateActions(name: string, statements: seq<string>)
      requires name in symptoms
      modifies this`actions, this`resolvedBy
      ensures actions == old(actions) + Elements(statements)
      ensures resolvedBy == Retarget(old(resolvedBy), name, Targets(old(resolvedBy), name) + Elements(statements))
    {
      var i := 0;
      while i < |statements|
        invariant 0 <= i <= |statements|
        invariant actions == old(actions) + Elements(statements[..i])
        invariant resolvedBy == old(resolvedBy) + (set t | t in Elements(statements[..i]) :: Edge(name, t))
      {
        assert Elements(statements[..i + 1]) == Elements(statements[..i]) + {statements[i]};
        assert (set t | t in Elements(statements[..i + 1]) :: Edge(name, t))
            == (set t | t in Elements(statements[..i]) :: Edge(name, t)) + {Edge(name, statements[i])};
        EnsureAction(statements[i]);
        RelateResolvedBy(name, statements[i]);
        i := i + 1;
      }
      assert statements[..i] == statements;
      var all := Targets(old(resolvedBy), name) + Elements(statements);
      forall e ensures e in Retarget(old(resolvedBy), name, all) <==> e in resolvedBy {
        if e in old(resolvedBy) && e.symptom == name {
          assert e.target in Targets(old(resolvedBy), name);
          assert Edge(name, e.target) in Retarget(old(resolvedBy), name, all);
        }
      }
    }

    /** What the mirror decides by: it may write a name exactly if that is free or owned by the package at hand. */
    method SymptomOwner(name: string) returns (found: bool, owner: string)
      ensures found <==> ViewOf(State(), name).node.Some?
      ensures found ==> owner == ViewOf(State(), name).node.value.owner
      ensures forall id :: (!found || owner == id) <==> Mine(ViewOf(State(), name), id)
    {
      found := name in symptoms;
      owner := if found then symptoms[name].owner else "";
    }

    method RetractLearnedSymptom(name: string)
      requires name in symptoms
      modifies this
      ensures State() == WithView(old(State()), name, View(None, {}, {}))
    {
      indicates := set e | e in indicates && e.symptom != name;
      resolvedBy := set e | e in resolvedBy && e.symptom != name;
      symptoms := symptoms - {name};
      assert indicates == Retarget(old(indicates), name, {});
      assert resolvedBy == Retarget(old(resolvedBy), name, {});
    }

    /** One entry of an active package written over a free name or over the package's own symptom. */
    method Project(id: string, e: Entry)
      requires Mine(ViewOf(State(), e.name), id)
      modifies this
      ensures State() == Apply(old(State()), Op(id, true, e))
    {
      ghost var prior := if e.name in symptoms then symptoms[e.name] else BLANK_NODE;
      EnsureCause(e.family);
      EnsureSymptom(e.name, e.keywords, NO_FIELDS);
      MarkOwner(e.name, id);
      RelateIndicates(e.name, e.family);
      RelateActions(e.name, e.actions);
      EnsuredWithoutFields(prior, e.keywords);
      assert symptoms == old(symptoms)[e.name := symptoms[e.name]];
    }

    /** One package's approved knowledge, projected or retracted. */
    method MirrorLearnedKnowledge(row: Row) returns (written: nat, skipped: nat)
      modifies this
      ensures State() == RunOps(old(State()), RowOps(row))
      ensures (written, skipped) == Tally(old(State()), RowOps(row))
    {
      written, skipped := 0, 0;
      ghost var ops := RowOps(row);
      var i := 0;
      while i < |row.entries|
        invariant 0 <= i <= |row.entries|
        invariant RunOps(old(State()), ops) == RunOps(State(), ops[i..])
        invariant Tally(old(State()), ops)
                  == (Tally(State(), ops[i..]).0 + written, Tally(State(), ops[i..]).1 + skipped)
      {
        var e := row.entries[i];
        assert ops[i..][0] == Op(row.packageId, row.active, e);
        assert ops[i..][1..] == ops[i + 1..];
        var found, owner := SymptomOwner(e.name);
        i := i + 1;
        if found && owner != row.packageId {
          skipped := skipped + 1;
          continue;
        }
        if !row.active {
          if found {
            RetractLearnedSymptom(e.name);
            written := written + 1;
          }
          continue;
        }
        Project(row.packageId, e);
        written := written + 1;
      }
    }

    /** One row's transaction; when it fails, the graph is as it was. */
    method MirrorTransaction(row: Row, commits: bool) returns (written: nat, skipped: nat)
      modifies this
      ensures State() == if commits then RunOps(old(State()), RowOps(row)) else old(State())
      ensures written == if commits then Tally(old(State()), RowOps(row)).0 else 0
      ensures skipped == if commits then Tally(old(State()), RowOps(row)).1 else 0
    {
      var saved := (symptoms, indicates, resolvedBy, causes, actions);
      written, skipped := MirrorLearnedKnowledge(row);
      if !commits {
        symptoms, indicates, resolvedBy, causes, actions := saved.0, saved.1, saved.2, saved.3, saved.4;
        written, skipped := 0, 0;
      }
    }

    /**
     * The per-row transaction loop over a list of packages. A row is mirrored
     * when its transaction commits and its state is recorded afterwards; any
     * other counts as failed, but what was committed stays.
     */
    method MirrorRun(rows: seq<Row>, commits: seq<bool>, recorded: seq<bool>)
      returns (knowledge: nat, collisions: nat, mirrored: nat, failed: nat)
      requires |rows| == |commits| == |recorded|
      modifies this
      ensures State() == Run(old(State()), Committed(rows, commits))
      ensures (knowledge, collisions) == Tally(old(State()), OpsOf(Committed(rows, commits)))
      ensures mirrored == |Committed(rows, Both(commits, recorded))| && mirrored + failed == |rows|
    {
      knowledge, collisions, mirrored, failed := 0, 0, 0, 0;
      ghost var start, done := State(), [];
      ghost var tally := Tally(start, OpsOf(done));
      ghost var both := Both(commits, recorded);
      for i := 0 to |rows|
        invariant done == Committed(rows[..i], commits[..i])
        invariant State() == Run(start, done) && tally == Tally(start, OpsOf(done))
        invariant knowledge == tally.0 && collisions == tally.1
        invariant mirrored == |Committed(rows[..i], both[..i])| && mirrored + failed == i
      {
        CommittedGrows(rows, commits, i);
        CommittedGrows(rows, both, i);
        RunGrows(start, done, rows[i]);
        var written, skipped := MirrorTransaction(rows[i], commits[i]);
        knowledge, collisions := knowledge + written, collisions + skipped;
        if commits[i] {
          done := done + [rows[i]];
          tally := Tally(start, OpsOf(done));
        }
        if commits[i] && recorded[i] {
          mirrored := mirrored + 1;
        } else {
          failed := failed + 1;
        }
      }
      assert rows[..|rows|] == rows && commits[..|rows|] == commits && both[..|rows|] == both;
    }
  }

  function Both(a: seq<bool>, b: seq<bool>): seq<bool>
    requires |a| == |b|
  {
    seq(|a|, i requires 0 <= i < |a| => a[i] && b[i])
  }

  lemma {:induction false} CommittedGrows(rows: seq<Row>, commits: seq<bool>, i: nat)
    requires |rows| == |commits| && i < |rows|
    ensures Committed(rows[..i + 1], commits[..i + 1])
         == Committed(rows[..i], commits[..i]) + if commits[i] then [rows[i]] else []
  {
    if i > 0 {
      CommittedGrows(rows[1..], commits[1..], i - 1);
      assert rows[..i][1..] == rows[1..][..i - 1] && commits[..i][1..] == commits[1..][..i - 1];
      assert rows[..i + 1][1..] == rows[1..][..i] && commits[..i + 1][1..] == commits[1..][..i];
    }
  }

  lemma {:induction false} RunOpsAppend(s: Store, ops: seq<Op>, more: seq<Op>)
    ensures RunOps(s, ops + more) == RunOps(RunOps(s, ops), more)
    decreases |ops|
  {
    if ops == [] {
      assert ops + more == more;
    } else {
      assert (ops + more)[1..] == ops[1..] + more;
      RunOpsAppend(Apply(s, ops[0]), ops[1..], more);
    }
  }

  lemma {:induction false} OpsOfAppend(rows: seq<Row>, row: Row)
    ensures OpsOf(rows + [row]) == OpsOf(rows) + RowOps(row)
  {
    if rows == [] {
      assert rows + [row] == [row];
      assert OpsOf([row]) == RowOps(row) + OpsOf([row][1..]);
    } else {
      assert (rows + [row])[1..] == rows[1..] + [row];
      OpsOfAppend(rows[1..], row);
      assert RowOps(rows[0]) + (OpsOf(rows[1..]) + RowOps(row)) == OpsOf(rows) + RowOps(row);
    }
  }

  lemma {:induction false} TallyAppend(s: Store, ops: seq<Op>, more: seq<Op>)
    ensures Tally(s, ops + more).0 == Tally(s, ops).0 + Tally(RunOps(s, ops), more).0
    ensures Tally(s, ops + more).1 == Tally(s, ops).1 + Tally(RunOps(s, ops), more).1
    decreases |ops|
  {
    if ops == [] {
      assert ops + more == more;
    } else {
      assert (ops + more)[1..] == ops[1..] + more;
      TallyAppend(Apply(s, ops[0]), ops[1..], more);
    }
  }

  lemma RunGrows(s: Store, rows: seq<Row>, row: Row)
    ensures Run(s, rows + [row]) == RunOps(Run(s, rows), RowOps(row))
    ensures Tally(s, OpsOf(rows + [row])).0 == Tally(s, OpsOf(rows)).0 + Tally(Run(s, rows), RowOps(row)).0
    ensures Tally(s, OpsOf(rows + [row])).1 == Tally(s, OpsOf(rows)).1 + Tally(Run(s, rows), RowOps(row)).1
  {
    OpsOfAppend(rows, row);
    RunOpsAppend(s, OpsOf(rows), RowOps(row));
    TallyAppend(s, OpsOf(rows), RowOps(row));
  }
}
