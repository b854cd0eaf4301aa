/** Effective Helm values of two releases: merging, flattening and diffing value trees. */
module HelmValues {
  import opened Sorting

  /** A scalar or list; equal atoms are the values the diff compares as equal. */
  type Atom(==, !new)

  datatype Value = Null | Scalar(atom: Atom) | Table(entries: map<string, Value>)
  type Tree = v: Value | v.Table? witness Table(map[])

  // ---- Merging overrides over chart defaults

  function Merged(base: Tree, overrides: Tree): Tree
    decreases overrides
  {
    Table(map key | key in base.entries.Keys + overrides.entries.Keys ::
      if key !in overrides.entries then base.entries[key]
      else if overrides.entries[key].Table? && key in base.entries && base.entries[key].Table? then
        Merged(base.entries[key], overrides.entries[key])
      else overrides.entries[key])
  }

  method Merge(base: Tree, overrides: Tree) returns (result: Tree)
    ensures result == Merged(base, overrides)
    decreases overrides
  {
    var merged := base.entries;
    var todo := overrides.entries.Keys;
    while todo != {}
      invariant todo <= overrides.entries.Keys
      invariant merged.Keys == base.entries.Keys + (overrides.entries.Keys - todo)
      invariant forall key :: key in merged ==>
        merged[key] == (if key in overrides.entries && key !in todo then Merged(base, overrides) else base).entries[key]
    {
      var key :| key in todo;
      todo := todo - {key};
      var value := overrides.entries[key];
      if value.Table? && key in merged && merged[key].Table? {
        value := Merge(merged[key], value);
      }
      merged := merged[key := value];
    }
    assert merged == Merged(base, overrides).entries;
    result := Table(merged);
  }

  /** Applying the same overrides again changes nothing. */
  lemma {:induction false} MergeTwice(base: Tree, overrides: Tree)
    ensures Merged(Merged(base, overrides), overrides) == Merged(base, overrides)
    decreases overrides
  {
    var once := Merged(base, overrides);
    forall key | key in overrides.entries ensures Merged(once, overrides).entries[key] == once.entries[key] {
      var value := overrides.entries[key];
      if value.Table? && once.entries[key].Table? {
        if key in base.entries && base.entries[key].Table? {
          MergeTwice(base.entries[key], value);
        } else {
          MergeSelf(value);
        }
      }
    }
    assert Merged(once, overrides).entries == once.entries;
  }

  lemma {:induction false} MergeSelf(tree: Tree)
    ensures Merged(tree, tree) == tree
  {
    forall key | key in tree.entries ensures Merged(tree, tree).entries[key] == tree.entries[key] {
      if tree.entries[key].Table? {
        MergeSelf(tree.entries[key]);
      }
    }
    assert Merged(tree, tree).entries == tree.entries;
  }

  // ---- Leaves

  predicate IsLeaf(v: Value) {
    v.Table? ==> v.entries == map[]
  }

  /** The tree holds this leaf under these keys; an empty table counts as a leaf. */
  predicate LeafAt(v: Value, keys: seq<string>, leaf: Value)
    decreases |keys|
  {
    if keys == [] then v == leaf && IsLeaf(leaf)
    else v.Table? && keys[0] in v.entries && LeafAt(v.entries[keys[0]], keys[1..], leaf)
  }

  /** The overrides say something on the way to, or exactly at, this place. */
  predicate Overrides(v: Value, keys: seq<string>)
    decreases |keys|
  {
    keys == [] || !v.Table? || (keys[0] in v.entries && Overrides(v.entries[keys[0]], keys[1..]))
  }

  /**
   * A value other than a table is in the merged tree exactly when the
   * overrides hold it, or the defaults do and the overrides leave it alone.
   */
  lemma {:induction false} MergedLeaf(base: Tree, overrides: Tree, keys: seq<string>, leaf: Value)
    requires keys != [] && !leaf.Table?
    ensures LeafAt(Merged(base, overrides), keys, leaf)
       <==> LeafAt(overrides, keys, leaf) || (LeafAt(base, keys, leaf) && !Overrides(overrides, keys))
    decreases |keys|
  {
    var key, rest := keys[0], keys[1..];
    if key in base.entries && key in overrides.entries && base.entries[key].Table? && overrides.entries[key].Table?
        && rest != [] {
      MergedLeaf(base.entries[key], overrides.entries[key], rest, leaf);
    }
  }

  lemma {:induction false} HasLeaf(v: Value) returns (keys: seq<string>, leaf: Value)
    ensures LeafAt(v, keys, leaf)
  {
    if IsLeaf(v) {
      keys, leaf := [], v;
    } else {
      var key :| key in v.entries;
      var rest;
      rest, leaf := HasLeaf(v.entries[key]);
      keys := [key] + rest;
    }
  }

  ghost predicate SameLeaves(v: Value, w: Value) {
    forall keys, leaf :: LeafAt(v, keys, leaf) <==> LeafAt(w, keys, leaf)
  }

  /** A tree is determined by its leaves. */
  lemma {:induction false} LeavesDetermine(v: Value, w: Value)
    requires SameLeaves(v, w)
    ensures v == w
    decreases v
  {
    if IsLeaf(v) {
      assert LeafAt(v, [], v) && LeafAt(w, [], v);
    } else if IsLeaf(w) {
      assert LeafAt(w, [], w) && LeafAt(v, [], w);
    } else {
      LeafKeys(v, w);
      LeafKeys(w, v);
      forall key | key in v.entries ensures v.entries[key] == w.entries[key] {
        LeavesOfChild(v, w, key);
        LeavesDetermine(v.entries[key], w.entries[key]);
      }
    }
  }

  lemma LeafKeys(v: Value, w: Value)
    requires SameLeaves(v, w) && !IsLeaf(v) && !IsLeaf(w)
    ensures v.entries.Keys <= w.entries.Keys
  {
    forall key | key in v.entries ensures key in w.entries {
      var rest, leaf := HasLeaf(v.entries[key]);
      assert ([key] + rest)[1..] == rest;
      assert LeafAt(v, [key] + rest, leaf) && LeafAt(w, [key] + rest, leaf);
    }
  }

  lemma LeavesOfChild(v: Value, w: Value, key: string)
    requires SameLeaves(v, w) && v.Table? && w.Table? && key in v.entries && key in w.entries
    ensures SameLeaves(v.entries[key], w.entries[key])
  {
    forall keys, leaf ensures LeafAt(v.entries[key], keys, leaf) <==> LeafAt(w.entries[key], keys, leaf) {
      assert ([key] + keys)[1..] == keys;
      assert LeafAt(v, [key] + keys, leaf) <==> LeafAt(w, [key] + keys, leaf);
    }
  }

  // ---- Dotted paths

  function Extend(prefix: string, key: string): string {
    if prefix == "" then key else prefix + "." + key
  }

  function PathText(prefix: string, keys: seq<string>): string
    decreases |keys|
  {
    if keys == [] then prefix else PathText(Extend(prefix, keys[0]), keys[1..])
  }

  predicate PlainKey(key: string) {
    key != "" && '.' !in key
  }

  /** Every key of the tree is non-empty and free of dots. */
  ghost predicate Plain(v: Value) {
    v.Table? ==> forall key :: key in v.entries ==> PlainKey(key) && Plain(v.entries[key])
  }

  ghost predicate PlainKeys(keys: seq<string>) {
    forall i :: 0 <= i < |keys| ==> PlainKey(keys[i])
  }

  // ---- Trees over a set of keys

  ghost predicate KeysIn(keys: seq<string>, ok: set<string>) {
    forall i :: 0 <= i < |keys| ==> keys[i] in ok
  }

  /** The tree uses no other keys. */
  predicate Over(v: Value, ok: set<string>) {
    v.Table? ==> forall key :: key in v.entries ==> key in ok && Over(v.entries[key], ok)
  }

  /** All keys of a tree, at any depth. */
  function KeysOf(v: Value): set<string> {
    if v.Table? then v.entries.Keys + set key, k | key in v.entries && k in KeysOf(v.entries[key]) :: k else {}
  }

  lemma {:induction false} OverKeysOf(v: Value, ok: set<string>)
    requires KeysOf(v) <= ok
    ensures Over(v, ok)
  {
    if v.Table? {
      forall key | key in v.entries ensures key in ok && Over(v.entries[key], ok) {
        assert key in v.entries.Keys;
        OverKeysOf(v.entries[key], ok);
      }
    }
  }

  lemma {:induction false} PlainKeysOf(v: Value)
    requires Plain(v)
    ensures forall k :: k in KeysOf(v) ==> PlainKey(k)
  {
    if v.Table? {
      forall key | key in v.entries ensures forall k :: k in KeysOf(v.entries[key]) ==> PlainKey(k) {
        PlainKeysOf(v.entries[key]);
      }
    }
  }

  ghost predicate SamePath(a: seq<string>, b: seq<string>) {
    PathText("", a) == PathText("", b)
  }

  /** No two places below the root share a dotted path. */
  ghost predicate Decodes(ok: set<string>) {
    forall a, b :: KeysIn(a, ok) && KeysIn(b, ok) && a != [] && b != [] && SamePath(a, b) ==> a == b
  }

  /** Equal flat forms mean equal trees. */
  ghost predicate Injective(ok: set<string>) {
    forall v: Tree, w: Tree, flat ::
      Over(v, ok) && Over(w, ok) && Flattens(v, "", flat) && Flattens(w, "", flat) ==> v == w
  }

  /** Plain keys decode. */
  lemma PlainDecodes(ok: set<string>)
    requires forall k :: k in ok ==> PlainKey(k)
    ensures Decodes(ok)
  {
    forall a, b | KeysIn(a, ok) && KeysIn(b, ok) && a != [] && b != [] && SamePath(a, b) ensures a == b {
      PathTextInjective(a, b);
    }
  }

  lemma {:induction false} PathTextSnoc(prefix: string, keys: seq<string>, key: string)
    ensures PathText(prefix, keys + [key]) == Extend(PathText(prefix, keys), key)
    decreases |keys|
  {
    if keys != [] {
      assert (keys + [key])[1..] == keys[1..] + [key];
      PathTextSnoc(Extend(prefix, keys[0]), keys[1..], key);
    } else {
      assert (keys + [key])[1..] == [];
    }
  }

  lemma SplitAtLastDot(x: string, k: string, y: string, m: string)
    requires '.' !in k && '.' !in m && x + "." + k == y + "." + m
    ensures x == y && k == m
  {
    var s := x + "." + k;
    assert s[|x|] == '.' && s[|y|] == '.';
    assert forall i :: |x| < i < |s| ==> s[i] == k[i - |x| - 1];
    assert forall i :: |y| < i < |s| ==> s[i] == m[i - |y| - 1];
    assert |x| == |y|;
    assert x == s[..|x|] && y == s[..|y|] && k == s[|x| + 1..] && m == s[|y| + 1..];
  }

  lemma {:induction false} PathNotEmpty(keys: seq<string>)
    requires PlainKeys(keys) && keys != []
    ensures PathText("", keys) != ""
  {
    PathTextSnoc("", keys[..|keys| - 1], keys[|keys| - 1]);
    assert keys[..|keys| - 1] + [keys[|keys| - 1]] == keys;
  }

  /** Under plain keys a dotted path names one place. */
  lemma {:induction false} PathTextInjective(a: seq<string>, b: seq<string>)
    requires PlainKeys(a) && PlainKeys(b) && PathText("", a) == PathText("", b)
    ensures a == b
    decreases |a|
  {
    if a == [] || b == [] {
      if a != [] { PathNotEmpty(a); }
      if b != [] { PathNotEmpty(b); }
    } else {
      var a0, k, b0, m := a[..|a| - 1], a[|a| - 1], b[..|b| - 1], b[|b| - 1];
      assert a == a0 + [k] && b == b0 + [m];
      PathTextSnoc("", a0, k);
      PathTextSnoc("", b0, m);
      if a0 != [] { PathNotEmpty(a0); }
      if b0 != [] { PathNotEmpty(b0); }
      DotsAgree(PathText("", a0), k, PathText("", b0), m);
      PathTextInjective(a0, b0);
    }
  }

  lemma DotsAgree(x: string, k: string, y: string, m: string)
    requires PlainKey(k) && PlainKey(m) && Extend(x, k) == Extend(y, m)
    ensures x == y && k == m
  {
    DotFrom(x, k);
    DotFrom(y, m);
    if x != "" {
      SplitAtLastDot(x, k, y, m);
    }
  }

  lemma DotFrom(x: string, k: string)
    requires PlainKey(k)
    ensures '.' in Extend(x, k) <==> x != ""
  {
    if x != "" {
      assert Extend(x, k)[|x|] == '.';
    }
  }

  // ---- Flattening

  ghost predicate EntryVia(v: Value, prefix: string, keys: seq<string>, path: string, leaf: Value) {
    LeafAt(v, keys, leaf) && PathText(prefix, keys) == path
  }

  /** The leaf is listed under this path; the root itself is listed only when it is not a table. */
  ghost predicate Entry(v: Value, prefix: string, path: string, leaf: Value) {
    exists keys :: EntryVia(v, prefix, keys, path, leaf) && (v.Table? ==> keys != [])
  }

  /** A flat form: one of the leaves of every path that has any, and no other path. */
  ghost predicate Flattens(v: Value, prefix: string, flat: map<string, Value>) {
    && (forall path :: path in flat ==> Entry(v, prefix, path, flat[path]))
    && (forall path, leaf :: Entry(v, prefix, path, leaf) ==> path in flat)
  }

  ghost predicate FlattensKeys(v: Tree, prefix: string, done: set<string>, flat: map<string, Value>) {
    && (forall path :: path in flat ==> exists key ::
        key in done && key in v.entries && Child(v, prefix, key, path, flat[path]))
    && (forall key, path, leaf :: key in done && key in v.entries && Child(v, prefix, key, path, leaf) ==> path in flat)
  }

  ghost predicate Child(v: Tree, prefix: string, key: string, path: string, leaf: Value)
    requires key in v.entries
  {
    exists keys :: EntryVia(v.entries[key], Extend(prefix, key), keys, path, leaf)
  }

  lemma ChildrenMakeEntries(v: Tree, prefix: string, path: string, leaf: Value)
    ensures Entry(v, prefix, path, leaf) <==> exists key :: key in v.entries && Child(v, prefix, key, path, leaf)
  {
    if keys :| EntryVia(v, prefix, keys, path, leaf) && keys != [] {
      assert EntryVia(v.entries[keys[0]], Extend(prefix, keys[0]), keys[1..], path, leaf);
    }
    if key :| key in v.entries && Child(v, prefix, key, path, leaf) {
      var rest :| EntryVia(v.entries[key], Extend(prefix, key), rest, path, leaf);
      assert ([key] + rest)[1..] == rest;
      assert EntryVia(v, prefix, [key] + rest, path, leaf);
    }
  }

  method Flatten(value: Value, prefix: string := "") returns (flat: map<string, Value>)
    ensures Flattens(value, prefix, flat)
    decreases value
  {
    if !value.Table? {
      flat := map[prefix := value];
      assert EntryVia(value, prefix, [], prefix, value);
      return;
    }
    flat := map[];
    var todo := value.entries.Keys;
    while todo != {}
      invariant todo <= value.entries.Keys
      invariant FlattensKeys(value, prefix, value.entries.Keys - todo, flat)
    {
      var key :| key in todo;
      ghost var done, was := value.entries.Keys - todo, flat;
      todo := todo - {key};
      var child, path := value.entries[key], Extend(prefix, key);
      var inner := map[path := child];
      if child.Table? && child.entries != map[] {
        inner := Flatten(child, path);
        ChildFlat(value, prefix, key, inner);
      } else {
        LeafFlat(value, prefix, key);
      }
      flat := flat + inner;
      OneMoreKey(value, prefix, done, key, was, inner);
      assert value.entries.Keys - todo == done + {key};
    }
    AllKeys(value, prefix, flat);
  }

  ghost predicate FlattensChild(v: Tree, prefix: string, key: string, inner: map<string, Value>)
    requires key in v.entries
  {
    && (forall path :: path in inner ==> Child(v, prefix, key, path, inner[path]))
    && (forall path, leaf :: Child(v, prefix, key, path, leaf) ==> path in inner)
  }

  lemma ChildFlat(v: Tree, prefix: string, key: string, inner: map<string, Value>)
    requires key in v.entries && !IsLeaf(v.entries[key])
    requires Flattens(v.entries[key], Extend(prefix, key), inner)
    ensures FlattensChild(v, prefix, key, inner)
  {
    forall path, leaf | Child(v, prefix, key, path, leaf) ensures path in inner {
      var keys :| EntryVia(v.entries[key], Extend(prefix, key), keys, path, leaf);
      assert Entry(v.entries[key], Extend(prefix, key), path, leaf);
    }
  }

  lemma LeafFlat(v: Tree, prefix: string, key: string)
    requires key in v.entries && IsLeaf(v.entries[key])
    ensures FlattensChild(v, prefix, key, map[Extend(prefix, key) := v.entries[key]])
  {
    assert EntryVia(v.entries[key], Extend(prefix, key), [], Extend(prefix, key), v.entries[key]);
  }

  lemma OneMoreKey(v: Tree, prefix: string, done: set<string>, key: string,
                   flat: map<string, Value>, inner: map<string, Value>)
    requires FlattensKeys(v, prefix, done, flat) && key in v.entries && FlattensChild(v, prefix, key, inner)
    ensures FlattensKeys(v, prefix, done + {key}, flat + inner)
  {
  }

  lemma AllKeys(v: Tree, prefix: string, flat: map<string, Value>)
    requires FlattensKeys(v, prefix, v.entries.Keys, flat)
    ensures Flattens(v, prefix, flat)
  {
    forall path | path in flat ensures Entry(v, prefix, path, flat[path]) {
      ChildrenMakeEntries(v, prefix, path, flat[path]);
    }
    forall path, leaf | Entry(v, prefix, path, leaf) ensures path in flat {
      ChildrenMakeEntries(v, prefix, path, leaf);
    }
  }

  lemma {:induction false} OverLeaf(v: Value, ok: set<string>, keys: seq<string>, leaf: Value)
    requires Over(v, ok) && LeafAt(v, keys, leaf)
    ensures KeysIn(keys, ok)
    decreases |keys|
  {
    if keys != [] {
      OverLeaf(v.entries[keys[0]], ok, keys[1..], leaf);
      assert keys == [keys[0]] + keys[1..];
    }
  }

  lemma {:induction false} OneLeafAt(v: Value, keys: seq<string>, a: Value, b: Value)
    requires LeafAt(v, keys, a) && LeafAt(v, keys, b)
    ensures a == b
    decreases |keys|
  {
    if keys != [] {
      OneLeafAt(v.entries[keys[0]], keys[1..], a, b);
    }
  }

  /** Where paths decode, the flat form lists exactly the leaves below the root. */
  lemma FlatIsExact(v: Tree, ok: set<string>, flat: map<string, Value>, keys: seq<string>, leaf: Value)
    requires Over(v, ok) && Decodes(ok) && Flattens(v, "", flat) && KeysIn(keys, ok) && keys != []
    ensures LeafAt(v, keys, leaf) <==> PathText("", keys) in flat && flat[PathText("", keys)] == leaf
  {
    var path := PathText("", keys);
    if LeafAt(v, keys, leaf) {
      assert EntryVia(v, "", keys, path, leaf);
      assert Entry(v, "", path, leaf);
    }
    if path in flat {
      var held :| EntryVia(v, "", held, path, flat[path]) && held != [];
      OverLeaf(v, ok, held, flat[path]);
      assert SamePath(held, keys);
      if LeafAt(v, keys, leaf) {
        OneLeafAt(v, keys, leaf, flat[path]);
      }
    }
  }

  lemma FlattenInjective(v: Tree, w: Tree, ok: set<string>, flat: map<string, Value>)
    requires Over(v, ok) && Over(w, ok) && Decodes(ok) && Flattens(v, "", flat) && Flattens(w, "", flat)
    ensures v == w
  {
    LeavesCarryOver(v, w, ok, flat);
    LeavesCarryOver(w, v, ok, flat);
    LeavesDetermine(v, w);
  }

  lemma LeavesCarryOver(v: Tree, w: Tree, ok: set<string>, flat: map<string, Value>)
    requires Over(v, ok) && Over(w, ok) && Decodes(ok) && Flattens(v, "", flat) && Flattens(w, "", flat)
    ensures forall keys, leaf :: LeafAt(v, keys, leaf) ==> LeafAt(w, keys, leaf)
  {
    forall keys, leaf | LeafAt(v, keys, leaf) ensures LeafAt(w, keys, leaf) {
      OverLeaf(v, ok, keys, leaf);
      if keys != [] {
        FlatIsExact(v, ok, flat, keys, leaf);
        FlatIsExact(w, ok, flat, keys, leaf);
      } else {
        EmptyFlat(v, flat);
        EmptyFlat(w, flat);
      }
    }
  }

  lemma EmptyFlat(v: Tree, flat: map<string, Value>)
    requires Flattens(v, "", flat)
    ensures v.entries == map[] <==> flat == map[]
  {
    if v.entries != map[] {
      var keys, leaf := HasLeaf(v);
      assert EntryVia(v, "", keys, PathText("", keys), leaf);
      assert Entry(v, "", PathText("", keys), leaf);
      assert PathText("", keys) in flat;
    }
  }

  /** A tree over such keys has one flat form, whatever order its tables are walked in. */
  lemma FlattenIsUnique(v: Tree, ok: set<string>, flat: map<string, Value>, other: map<string, Value>)
    requires Over(v, ok) && Decodes(ok) && Flattens(v, "", flat) && Flattens(v, "", other)
    ensures flat == other
  {
    SameFlat(v, ok, flat, other);
    SameFlat(v, ok, other, flat);
  }

  lemma SameFlat(v: Tree, ok: set<string>, flat: map<string, Value>, other: map<string, Value>)
    requires Over(v, ok) && Decodes(ok) && Flattens(v, "", flat) && Flattens(v, "", other)
    ensures forall path :: path in flat ==> path in other && other[path] == flat[path]
  {
    forall path | path in flat ensures path in other && other[path] == flat[path] {
      var keys :| EntryVia(v, "", keys, path, flat[path]) && keys != [];
      OverLeaf(v, ok, keys, flat[path]);
      FlatIsExact(v, ok, other, keys, flat[path]);
    }
  }

  // ---- Exactly when flattening loses nothing

  /** One table inside the other along these keys, around a leaf. */
  function Nest(keys: seq<string>, leaf: Value): Value
    decreases |keys|
  {
    if keys == [] then leaf else Table(map[keys[0] := Nest(keys[1..], leaf)])
  }

  lemma {:induction false} NestLeaves(keys: seq<string>, leaf: Value, ok: set<string>, there: seq<string>, other: Value)
    requires IsLeaf(leaf) && KeysIn(keys, ok) && !leaf.Table?
    ensures LeafAt(Nest(keys, leaf), there, other) <==> there == keys && other == leaf
    ensures Over(Nest(keys, leaf), ok)
    decreases |keys|
  {
    if keys == [] {
      assert !leaf.Table?;
    } else {
      var inner := Nest(keys[1..], leaf);
      NestLeaves(keys[1..], leaf, ok, if there == [] then [] else there[1..], other);
      if there != [] {
        assert keys == [keys[0]] + keys[1..] && there == [there[0]] + there[1..];
      } else {
        assert keys[0] in map[keys[0] := inner];
      }
    }
  }

  lemma NestFlattens(keys: seq<string>, leaf: Value, ok: set<string>)
    requires keys != [] && KeysIn(keys, ok) && !leaf.Table?
    ensures Flattens(Nest(keys, leaf), "", map[PathText("", keys) := leaf])
  {
    var v, path := Nest(keys, leaf), PathText("", keys);
    forall p, other ensures Entry(v, "", p, other) <==> p == path && other == leaf {
      NestLeaves(keys, leaf, ok, keys, leaf);
      if p == path && other == leaf {
        assert EntryVia(v, "", keys, path, leaf);
      }
      if there :| EntryVia(v, "", there, p, other) && there != [] {
        NestLeaves(keys, leaf, ok, there, other);
      }
    }
  }

  /** Two places with one dotted path give two trees with one flat form. */
  lemma ClashGivesTwins(ok: set<string>, a: seq<string>, b: seq<string>)
    requires KeysIn(a, ok) && KeysIn(b, ok) && a != [] && b != [] && SamePath(a, b) && a != b
    ensures !Injective(ok)
  {
    NestFlattens(a, Null, ok);
    NestFlattens(b, Null, ok);
    NestLeaves(a, Null, ok, a, Null);
    NestLeaves(b, Null, ok, b, Null);
    NestLeaves(b, Null, ok, a, Null);
    var v: Tree, w: Tree := Nest(a, Null), Nest(b, Null);
    assert v != w && Flattens(v, "", map[PathText("", a) := Null]) && Flattens(w, "", map[PathText("", a) := Null]);
  }

  /** Flattening loses nothing over a set of keys exactly when no two key sequences over it share a dotted path. */
  lemma InjectiveIff(ok: set<string>)
    ensures Injective(ok) <==> Decodes(ok)
  {
    if Decodes(ok) {
      forall v: Tree, w: Tree, flat |
        Over(v, ok) && Over(w, ok) && Flattens(v, "", flat) && Flattens(w, "", flat)
        ensures v == w
      {
        FlattenInjective(v, w, ok, flat);
      }
    } else {
      var a, b :| KeysIn(a, ok) && KeysIn(b, ok) && a != [] && b != [] && SamePath(a, b) && a != b;
      ClashGivesTwins(ok, a, b);
    }
  }

  /** The keys "a.b", "a" and "b" do not decode: {"a.b": x} and {"a": {"b": x}} flatten alike. */
  lemma DottedKeysCollide()
    ensures !Decodes({"a.b", "a", "b"}) && !Injective({"a.b", "a", "b"})
  {
    var ok, nested, dotted := {"a.b", "a", "b"}, ["a", "b"], ["a.b"];
    assert PathText("", nested) == PathText("a", ["b"]) by {
      assert nested[1..] == ["b"];
    }
    assert PathText("a", ["b"]) == PathText("a.b", []) by {
      assert ["b"][1..] == [] && "a" + "." + "b" == "a.b";
    }
    assert PathText("", dotted) == PathText("a.b", []) by {
      assert dotted[1..] == [];
    }
    assert KeysIn(nested, ok) && KeysIn(dotted, ok) && SamePath(nested, dotted) && |nested| != |dotted|;
    InjectiveIff(ok);
  }

  // ---- Comparing two releases

  datatype Change<T> = Change(key: string, before: T, after: T)

  const DIFF_MAX_KEYS := 25

  function Get(flat: map<string, Value>, key: string): Value {
    if key in flat then flat[key] else Null
  }

  predicate Differs(current: map<string, Value>, prior: map<string, Value>, key: string) {
    !(key in current && key in prior && current[key] == prior[key])
  }

  /** The change goes from what the prior release has at the path to what the current one has, both masked. */
  ghost predicate IsChange<T>(mask: (string, Value) -> T, current: map<string, Value>, prior: map<string, Value>,
                              change: Change<T>) {
    && change.before == mask(change.key, if change.key in prior then prior[change.key] else Null)
    && change.after == mask(change.key, if change.key in current then current[change.key] else Null)
  }

  ghost predicate Shows<T>(mask: (string, Value) -> T, current: map<string, Value>, prior: map<string, Value>,
                           diff: seq<Change<T>>, keys: seq<string>) {
    && |diff| <= |keys|
    && forall i :: 0 <= i < |diff| ==> diff[i].key == keys[i] && IsChange(mask, current, prior, diff[i])
  }

  /** The paths among the first `n` whose values differ. */
  function Differing(current: map<string, Value>, prior: map<string, Value>, keys: seq<string>, n: nat): seq<string>
    requires n <= |keys|
  {
    if n == 0 then []
    else Differing(current, prior, keys, n - 1) + if Differs(current, prior, keys[n - 1]) then [keys[n - 1]] else []
  }

  lemma {:induction false} DifferingIs(current: map<string, Value>, prior: map<string, Value>, keys: seq<string>,
                                       n: nat)
    requires n <= |keys| && Ascending(StringLeq, keys)
    ensures Ascending(StringLeq, Differing(current, prior, keys, n))
    ensures forall key :: key in Differing(current, prior, keys, n) <==>
            key in keys[..n] && Differs(current, prior, key)
  {
    if 0 < n {
      DifferingIs(current, prior, keys, n - 1);
      assert keys[..n] == keys[..n - 1] + [keys[n - 1]];
      var was := Differing(current, prior, keys, n - 1);
      forall i | 0 <= i < |was| ensures StringLeq(was[i], keys[n - 1]) && was[i] != keys[n - 1] {
        assert was[i] in was && was[i] in keys[..n - 1];
        var at :| 0 <= at < n - 1 && keys[..n - 1][at] == was[i];
      }
    }
  }

  /** The shown changes are the first ones, in key order, of all paths whose values differ. */
  ghost predicate ShowsFirst<T(!new)>(mask: (string, Value) -> T, current: map<string, Value>,
                                       prior: map<string, Value>, diff: seq<Change<T>>, keys: seq<string>) {
    && Ascending(StringLeq, keys)
    && (forall key :: key in keys <==> (key in current || key in prior) && Differs(current, prior, key))
    && |diff| == (if |keys| < DIFF_MAX_KEYS then |keys| else DIFF_MAX_KEYS)
    && Shows(mask, current, prior, diff, keys)
  }

  /**
   * Diff of two releases. Where the dotted paths over their keys decode, it is
   * empty exactly when both releases have the same effective values.
   */
  method ValuesDiff<T(!new)>(mask: (string, Value) -> T, current: Tree, prior: Tree)
    returns (diff: seq<Change<T>>, ghost currentFlat: map<string, Value>, ghost priorFlat: map<string, Value>,
             ghost differing: seq<string>)
    ensures Flattens(current, "", currentFlat) && Flattens(prior, "", priorFlat)
    ensures ShowsFirst(mask, currentFlat, priorFlat, diff, differing)
    ensures diff == [] <==> currentFlat == priorFlat
    ensures Decodes(KeysOf(current) + KeysOf(prior)) ==> (diff == [] <==> current == prior)
    ensures Plain(current) && Plain(prior) ==> (diff == [] <==> current == prior)
  {
    var now := Flatten(current);
    var before := Flatten(prior);
    currentFlat, priorFlat := now, before;
    StringOrder();
    var keys := SortedSet(StringLeq, now.Keys + before.Keys);
    var changes := AllChanges(mask, now, before, keys);
    diff := changes[..if |changes| < DIFF_MAX_KEYS then |changes| else DIFF_MAX_KEYS];
    differing := Differing(now, before, keys, |keys|);
    CutShows(mask, now, before, changes, differing, |diff|);
    DifferingIs(now, before, keys, |keys|);
    assert keys[..|keys|] == keys;
    EmptyDiff(now, before, differing);
    SameFlatSameTree(current, prior, now, before);
  }

  lemma CutShows<T>(mask: (string, Value) -> T, now: map<string, Value>, before: map<string, Value>,
                    changes: seq<Change<T>>, keys: seq<string>, k: nat)
    requires Shows(mask, now, before, changes, keys) && k <= |changes|
    ensures Shows(mask, now, before, changes[..k], keys)
  {
  }

  method AllChanges<T>(mask: (string, Value) -> T, now: map<string, Value>, before: map<string, Value>,
                       keys: seq<string>) returns (changes: seq<Change<T>>)
    ensures |changes| == |Differing(now, before, keys, |keys|)|
    ensures Shows(mask, now, before, changes, Differing(now, before, keys, |keys|))
  {
    changes := [];
    for i := 0 to |keys|
      invariant |changes| == |Differing(now, before, keys, i)|
      invariant Shows(mask, now, before, changes, Differing(now, before, keys, i))
    {
      var key := keys[i];
      if !(key in now && key in before && now[key] == before[key]) {
        changes := changes + [Change(key, mask(key, Get(before, key)), mask(key, Get(now, key)))];
      }
    }
  }

  lemma EmptyDiff(now: map<string, Value>, before: map<string, Value>, differing: seq<string>)
    requires forall key :: key in differing <==> (key in now || key in before) && Differs(now, before, key)
    ensures differing == [] <==> now == before
  {
    if differing == [] {
      forall key ensures key in now <==> key in before {
        assert key !in differing;
      }
      forall key | key in now ensures now[key] == before[key] {
        assert key !in differing;
      }
      assert now == before;
    } else {
      assert differing[0] in differing;
    }
  }

  lemma SameFlatSameTree(current: Tree, prior: Tree, now: map<string, Value>, before: map<string, Value>)
    requires Flattens(current, "", now) && Flattens(prior, "", before)
    ensures Decodes(KeysOf(current) + KeysOf(prior)) ==> (now == before <==> current == prior)
    ensures Plain(current) && Plain(prior) ==> Decodes(KeysOf(current) + KeysOf(prior))
  {
    var ok := KeysOf(current) + KeysOf(prior);
    OverKeysOf(current, ok);
    OverKeysOf(prior, ok);
    if Plain(current) && Plain(prior) {
      PlainKeysOf(current);
      PlainKeysOf(prior);
      PlainDecodes(ok);
    }
    if Decodes(ok) {
      if now == before {
        FlattenInjective(current, prior, ok, now);
      }
      if current == prior {
        FlattenIsUnique(current, ok, now, before);
      }
    }
  }
}
