/** What one mirror run does to the knowledge graph, on values: one entry touches one symptom name. */
module MirrorSpec {
  import opened Wrappers

  datatype TextFact = Reason(text: string) | ReasonKo(text: string) | Component(text: string)
                    | NameKo(text: string) | StatementKo(text: string)

  /** A symptom's own attributes; `owner` is its learned_package_id, "" when it carries none (curated). */
  datatype Node = Node(owner: string, keywords: set<string>, facts: set<TextFact>,
                       exclusiveActions: bool, requiresLifecycle: bool)

  datatype Edge = Edge(symptom: string, target: string)

  datatype Store = Store(symptoms: map<string, Node>, indicates: set<Edge>, resolvedBy: set<Edge>,
                         causes: set<string>, actions: set<string>)

  /** One symptom of one compiled package. */
  datatype Entry = Entry(family: string, name: string, keywords: seq<string>, actions: seq<string>)

  datatype Row = Row(packageId: string, active: bool, entries: seq<Entry>)

  /** One loop step of a run: an entry together with its row's id and status. */
  datatype Op = Op(id: string, active: bool, entry: Entry)

  /** Everything the graph says about one symptom name. */
  datatype View = View(node: Option<Node>, families: set<string>, remedies: set<string>)

  const BLANK_NODE := Node("", {}, {}, false, false)

  function Targets(edges: set<Edge>, name: string): set<string> {
    set e | e in edges && e.symptom == name :: e.target
  }

  function Retarget(edges: set<Edge>, name: string, targets: set<string>): set<Edge> {
    (set e | e in edges && e.symptom != name) + (set t | t in targets :: Edge(name, t))
  }

  function ViewOf(s: Store, name: string): View {
    View(if name in s.symptoms then Some(s.symptoms[name]) else None,
         Targets(s.indicates, name), Targets(s.resolvedBy, name))
  }

  function WithView(s: Store, name: string, v: View): Store {
    s.(symptoms := if v.node.Some? then s.symptoms[name := v.node.value] else s.symptoms - {name},
       indicates := Retarget(s.indicates, name, v.families),
       resolvedBy := Retarget(s.resolvedBy, name, v.remedies))
  }

  function Elements(xs: seq<string>): set<string> { set x | x in xs }

  /** An existing symptom is only touched by the package it is marked with. */
  predicate Mine(v: View, id: string) { v.node.None? || v.node.value.owner == id }

  predicate Writes(v: View, op: Op) { op.active && Mine(v, op.id) }

  predicate Counted(v: View, op: Op) { Mine(v, op.id) && (op.active || v.node.Some?) }

  function Learned(v: View, op: Op): Node {
    var prior := if v.node.Some? then v.node.value else BLANK_NODE;
    Node(op.id, Elements(op.entry.keywords), {}, prior.exclusiveActions, prior.requiresLifecycle)
  }

  function ApplyView(v: View, op: Op): View {
    if !Mine(v, op.id) then v
    else if op.active then
      View(Some(Learned(v, op)), {op.entry.family}, v.remedies + Elements(op.entry.actions))
    else if v.node.Some? then View(None, {}, {})
    else v
  }

  function Apply(s: Store, op: Op): Store {
    var v := ViewOf(s, op.entry.name);
    var t := if Counted(v, op) then WithView(s, op.entry.name, ApplyView(v, op)) else s;
    if Writes(v, op) then
      t.(causes := s.causes + {op.entry.family}, actions := s.actions + Elements(op.entry.actions))
    else t
  }

  function RunOps(s: Store, ops: seq<Op>): Store
    decreases |ops|
  {
    if ops == [] then s else RunOps(Apply(s, ops[0]), ops[1..])
  }

  /** (written, skipped) of the loop over one package's entries. */
  function Tally(s: Store, ops: seq<Op>): (nat, nat)
    decreases |ops|
  {
    if ops == [] then (0, 0)
    else
      var v := ViewOf(s, ops[0].entry.name);
      var rest := Tally(Apply(s, ops[0]), ops[1..]);
      (rest.0 + (if Counted(v, ops[0]) then 1 else 0), rest.1 + (if Mine(v, ops[0].id) then 0 else 1))
  }

  function RowOps(row: Row): (r: seq<Op>)
    ensures |r| == |row.entries|
    ensures forall i :: 0 <= i < |r| ==> r[i] == Op(row.packageId, row.active, row.entries[i])
  {
    seq(|row.entries|, i requires 0 <= i < |row.entries| => Op(row.packageId, row.active, row.entries[i]))
  }

  function OpsOf(rows: seq<Row>): seq<Op> {
    if rows == [] then [] else RowOps(rows[0]) + OpsOf(rows[1..])
  }

  /** The rows whose transaction committed; the others leave no trace in the graph. */
  function Committed(rows: seq<Row>, commits: seq<bool>): (r: seq<Row>)
    requires |rows| == |commits|
    ensures forall row :: row in r ==> row in rows
  {
    if rows == [] then []
    else (if commits[0] then [rows[0]] else []) + Committed(rows[1..], commits[1..])
  }

  function Run(s: Store, rows: seq<Row>): Store { RunOps(s, OpsOf(rows)) }

  function RunView(v: View, ops: seq<Op>, name: string): View
    decreases |ops|
  {
    if ops == [] then v
    else RunView(if ops[0].entry.name == name then ApplyView(v, ops[0]) else v, ops[1..], name)
  }

  /** One more entry counts as refused if another owner has its name, as written if it learns or retracts something. */
  lemma {:induction false} TallySnoc(s: Store, ops: seq<Op>, op: Op)
    ensures var v, before, after := ViewOf(RunOps(s, ops), op.entry.name), Tally(s, ops), Tally(s, ops + [op]);
      if v.node.Some? && v.node.value.owner != op.id then after == (before.0, before.1 + 1)
      else if op.active || v.node.Some? then after == (before.0 + 1, before.1)
      else after == before
    decreases |ops|
  {
    if ops == [] {
      assert ops + [op] == [op] && [op][1..] == [];
    } else {
      assert (ops + [op])[1..] == ops[1..] + [op];
      TallySnoc(Apply(s, ops[0]), ops[1..], op);
    }
  }

  // ----- One run, one name at a time

  lemma ViewAfterWithView(s: Store, name: string, v: View, other: string)
    ensures ViewOf(WithView(s, name, v), other) == if other == name then v else ViewOf(s, other)
  {
    RetargetTargets(s.indicates, name, v.families, other);
    RetargetTargets(s.resolvedBy, name, v.remedies, other);
  }

  lemma RetargetTargets(edges: set<Edge>, name: string, targets: set<string>, other: string)
    ensures Targets(Retarget(edges, name, targets), other) == if other == name then targets else Targets(edges, other)
  {
    var r := Retarget(edges, name, targets);
    if other == name {
      forall t ensures t in Targets(r, other) <==> t in targets {
        assert t in targets ==> Edge(name, t) in r;
      }
    } else {
      forall t ensures t in Targets(r, other) <==> t in Targets(edges, other) {
        assert Edge(other, t) in r <==> Edge(other, t) in edges;
        assert t in Targets(r, other) <==> Edge(other, t) in r;
        assert t in Targets(edges, other) <==> Edge(other, t) in edges;
      }
    }
  }

  lemma ViewAfterApply(s: Store, op: Op, name: string)
    ensures ViewOf(Apply(s, op), name)
         == if op.entry.name == name then ApplyView(ViewOf(s, name), op) else ViewOf(s, name)
  {
    var v := ViewOf(s, op.entry.name);
    ViewAfterWithView(s, op.entry.name, ApplyView(v, op), name);
  }

  /** Marked with another package, or with none: no entry of this one may touch it. */
  ghost predicate Foreign(s: Store, op: Op) {
    op.entry.name in s.symptoms && s.symptoms[op.entry.name].owner != op.id
  }

  /** An active entry of the symptom's own package: the node is rewritten but for its two flags, and points at one
      family. */
  lemma LearnedIs(s: Store, op: Op)
    requires op.active && !Foreign(s, op)
    ensures var name, after := op.entry.name, Apply(s, op);
      && after.symptoms == s.symptoms[name := after.symptoms[name]]
      && var n := after.symptoms[name];
      && n.owner == op.id && n.facts == {} && (forall k :: k in n.keywords <==> k in op.entry.keywords)
      && (if name in s.symptoms
          then n.exclusiveActions == s.symptoms[name].exclusiveActions
            && n.requiresLifecycle == s.symptoms[name].requiresLifecycle
          else !n.exclusiveActions && !n.requiresLifecycle)
      && (forall e :: e in after.indicates <==>
            e == Edge(name, op.entry.family) || (e in s.indicates && e.symptom != name))
      && (forall e :: e in after.resolvedBy <==>
            e in s.resolvedBy || (e.symptom == name && e.target in op.entry.actions))
      && (forall c :: c in after.causes <==> c in s.causes || c == op.entry.family)
      && (forall a :: a in after.actions <==> a in s.actions || a in op.entry.actions)
  {
  }

  /** An inactive entry removes its own package's symptom with all edges, and nothing else. */
  lemma RetractedIs(s: Store, op: Op)
    requires !op.active && !Foreign(s, op)
    ensures var name, after := op.entry.name, Apply(s, op);
      && after.causes == s.causes && after.actions == s.actions
      && (name !in s.symptoms ==> after == s)
      && (name in s.symptoms ==>
            && after.symptoms == s.symptoms - {name}
            && (forall e :: e in after.indicates <==> e in s.indicates && e.symptom != name)
            && (forall e :: e in after.resolvedBy <==> e in s.resolvedBy && e.symptom != name))
  {
  }

  lemma ForeignIsKept(s: Store, op: Op)
    ensures Foreign(s, op) ==> Apply(s, op) == s
  {
  }

  /** Names do not interfere: the run restricted to a name decides what the graph says about it. */
  lemma {:induction false} ViewAfterRun(s: Store, ops: seq<Op>, name: string)
    ensures ViewOf(RunOps(s, ops), name) == RunView(ViewOf(s, name), ops, name)
    decreases |ops|
  {
    if ops != [] {
      ViewAfterApply(s, ops[0], name);
      ViewAfterRun(Apply(s, ops[0]), ops[1..], name);
    }
  }

  lemma SameViewsSameStore(s: Store, t: Store)
    requires forall name :: ViewOf(s, name) == ViewOf(t, name)
    requires s.causes == t.causes && s.actions == t.actions
    ensures s == t
  {
    forall name ensures name in s.symptoms <==> name in t.symptoms {
      assert ViewOf(s, name).node == ViewOf(t, name).node;
    }
    forall name | name in s.symptoms ensures s.symptoms[name] == t.symptoms[name] {
      assert ViewOf(s, name).node == ViewOf(t, name).node;
    }
    assert s.symptoms == t.symptoms;
    forall e ensures e in s.indicates <==> e in t.indicates {
      assert ViewOf(s, e.symptom).families == ViewOf(t, e.symptom).families;
      assert e in s.indicates <==> e.target in Targets(s.indicates, e.symptom);
      assert e in t.indicates <==> e.target in Targets(t.indicates, e.symptom);
    }
    forall e ensures e in s.resolvedBy <==> e in t.resolvedBy {
      assert ViewOf(s, e.symptom).remedies == ViewOf(t, e.symptom).remedies;
      assert e in s.resolvedBy <==> e.target in Targets(s.resolvedBy, e.symptom);
      assert e in t.resolvedBy <==> e.target in Targets(t.resolvedBy, e.symptom);
    }
  }
}
