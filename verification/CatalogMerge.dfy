/** Layering runtime entries over a baseline catalog, by entry name. */
module CatalogMerge {

  type Name(==, 0, !new)
  type Content(==, 0, !new)
  type Family(==, !new)

  /** A symptom or a known issue. */
  datatype Entry = Entry(name: Name, content: Content)

  /** The last position of a name, or -1. */
  function LastIndex(entries: seq<Entry>, name: Name): (r: int)
    ensures -1 <= r < |entries|
    ensures r >= 0 ==> entries[r].name == name
    ensures forall i :: r < i < |entries| ==> entries[i].name != name
  {
    if entries == [] then -1
    else if entries[|entries| - 1].name == name then |entries| - 1
    else LastIndex(entries[..|entries| - 1], name)
  }

  /** One runtime entry: replaces the last entry of its name, or is appended. */
  function Put(entries: seq<Entry>, e: Entry, authoritative: bool): seq<Entry> {
    var at := LastIndex(entries, e.name);
    if at < 0 then entries + [e] else if authoritative then entries[at := e] else entries
  }

  function Merged(baseline: seq<Entry>, runtime: seq<Entry>, authoritative: bool): seq<Entry> {
    if runtime == [] then baseline
    else Put(Merged(baseline, runtime[..|runtime| - 1], authoritative), runtime[|runtime| - 1], authoritative)
  }

  /** The dictionary `existing`, which holds the last index of every listed name. */
  ghost predicate Indexes(existing: map<Name, nat>, entries: seq<Entry>) {
    forall name :: if name in existing then existing[name] == LastIndex(entries, name) else LastIndex(entries, name) < 0
  }

  lemma LastIndexUnique(entries: seq<Entry>, name: Name, at: int)
    requires -1 <= at < |entries| && (at >= 0 ==> entries[at].name == name)
    requires forall i :: at < i < |entries| ==> entries[i].name != name
    ensures LastIndex(entries, name) == at
  {
  }

  lemma IndexesAppend(existing: map<Name, nat>, entries: seq<Entry>, e: Entry)
    requires Indexes(existing, entries)
    ensures Indexes(existing[e.name := |entries|], entries + [e])
  {
    var after := entries + [e];
    forall name
      ensures if name in existing[e.name := |entries|]
              then existing[e.name := |entries|][name] == LastIndex(after, name)
              else LastIndex(after, name) < 0
    {
      LastIndexUnique(after, name, if name == e.name then |entries| else LastIndex(entries, name));
    }
  }

  lemma IndexesReplace(existing: map<Name, nat>, entries: seq<Entry>, e: Entry, at: nat)
    requires Indexes(existing, entries) && at < |entries| && entries[at].name == e.name
    ensures Indexes(existing, entries[at := e])
  {
    forall name ensures LastIndex(entries[at := e], name) == LastIndex(entries, name) {
      LastIndexUnique(entries[at := e], name, LastIndex(entries, name));
    }
  }

  method MergeEntries(baseline: seq<Entry>, runtime: seq<Entry>, authoritative: bool) returns (merged: seq<Entry>)
    ensures merged == Merged(baseline, runtime, authoritative)
  {
    merged := [];
    var existing: map<Name, nat> := map[];
    for i := 0 to |baseline|
      invariant merged == baseline[..i] && Indexes(existing, merged)
    {
      IndexesAppend(existing, merged, baseline[i]);
      existing := existing[baseline[i].name := |merged|];
      merged := merged + [baseline[i]];
    }
    for i := 0 to |runtime|
      invariant merged == Merged(baseline, runtime[..i], authoritative) && Indexes(existing, merged)
    {
      var e := runtime[i];
      assert runtime[..i + 1][..i] == runtime[..i];
      if e.name in existing {
        if authoritative {
          IndexesReplace(existing, merged, e, existing[e.name]);
          merged := merged[existing[e.name] := e];
        }
      } else {
        IndexesAppend(existing, merged, e);
        existing := existing[e.name := |merged|];
        merged := merged + [e];
      }
    }
    assert runtime[..|runtime|] == runtime;
  }

  // ---- What merging keeps and changes

  /** Every position keeps its name, so baseline entries stay where they are. */
  lemma {:induction false} PositionsKept(baseline: seq<Entry>, runtime: seq<Entry>, authoritative: bool)
    ensures |baseline| <= |Merged(baseline, runtime, authoritative)|
    ensures forall i :: 0 <= i < |baseline| ==> Merged(baseline, runtime, authoritative)[i].name == baseline[i].name
    ensures !authoritative ==> baseline <= Merged(baseline, runtime, authoritative)
    decreases |runtime|
  {
    if runtime != [] {
      PositionsKept(baseline, runtime[..|runtime| - 1], authoritative);
    }
  }

  /** The last runtime entry of a name is the one in force. */
  lemma {:induction false} LastRuntimeWins(baseline: seq<Entry>, runtime: seq<Entry>, name: Name)
    requires LastIndex(runtime, name) >= 0
    ensures var merged := Merged(baseline, runtime, true);
      LastIndex(merged, name) >= 0 && merged[LastIndex(merged, name)] == runtime[LastIndex(runtime, name)]
    decreases |runtime|
  {
    var init, e := runtime[..|runtime| - 1], runtime[|runtime| - 1];
    var before := Merged(baseline, init, true);
    PutIsLast(before, e);
    if e.name != name {
      assert runtime == init + [e];
      LastRuntimeWins(baseline, init, name);
      PutElsewhere(before, e, name);
    }
  }

  lemma PutIsLast(entries: seq<Entry>, e: Entry)
    ensures var after := Put(entries, e, true);
      LastIndex(after, e.name) >= 0 && after[LastIndex(after, e.name)] == e
  {
    var at := LastIndex(entries, e.name);
    LastIndexUnique(Put(entries, e, true), e.name, if at < 0 then |entries| else at);
  }

  lemma PutElsewhere(entries: seq<Entry>, e: Entry, name: Name)
    requires e.name != name && LastIndex(entries, name) >= 0
    ensures var after, at := Put(entries, e, true), LastIndex(entries, name);
      LastIndex(after, name) == at && after[at] == entries[at]
  {
    LastIndexUnique(Put(entries, e, true), name, LastIndex(entries, name));
  }

  /** Entries whose name the runtime does not mention are untouched, and nothing else is added. */
  lemma {:induction false} OthersUntouched(baseline: seq<Entry>, runtime: seq<Entry>, authoritative: bool, i: nat)
    requires i < |Merged(baseline, runtime, authoritative)|
    requires LastIndex(runtime, Merged(baseline, runtime, authoritative)[i].name) < 0
    ensures i < |baseline| && Merged(baseline, runtime, authoritative)[i] == baseline[i]
    decreases |runtime|
  {
    if runtime != [] {
      var init, e := runtime[..|runtime| - 1], runtime[|runtime| - 1];
      var before := Merged(baseline, init, authoritative);
      var name := Merged(baseline, runtime, authoritative)[i].name;
      assert e.name != name;
      assert i < |before| && before[i] == Merged(baseline, runtime, authoritative)[i];
      LastIndexUnique(init, name, -1);
      OthersUntouched(baseline, init, authoritative, i);
    }
  }

  /** A name that the baseline does not have is listed once. */
  lemma {:induction false} NewNamesOnce(baseline: seq<Entry>, runtime: seq<Entry>, authoritative: bool, i: nat, j: nat)
    requires i < j < |Merged(baseline, runtime, authoritative)| && |baseline| <= j
    ensures Merged(baseline, runtime, authoritative)[i].name != Merged(baseline, runtime, authoritative)[j].name
    decreases |runtime|
  {
    if runtime != [] {
      var init, e := runtime[..|runtime| - 1], runtime[|runtime| - 1];
      var before := Merged(baseline, init, authoritative);
      if j < |before| {
        NewNamesOnce(baseline, init, authoritative, i, j);
      }
    }
  }

  /** A name that is listed stays listed at the same last position. */
  lemma {:induction false} SameLast(baseline: seq<Entry>, runtime: seq<Entry>, authoritative: bool, name: Name)
    requires LastIndex(baseline, name) >= 0
    ensures LastIndex(Merged(baseline, runtime, authoritative), name) == LastIndex(baseline, name)
    decreases |runtime|
  {
    if runtime != [] {
      var init := runtime[..|runtime| - 1];
      SameLast(baseline, init, authoritative, name);
      LastIndexUnique(Merged(baseline, runtime, authoritative), name, LastIndex(baseline, name));
    }
  }

  /** Of several entries of one name only the last is ever replaced. */
  lemma {:induction false} OnlyLastReplaced(baseline: seq<Entry>, runtime: seq<Entry>, authoritative: bool, i: nat)
    requires i < |baseline| && i != LastIndex(baseline, baseline[i].name)
    ensures i < |Merged(baseline, runtime, authoritative)| && Merged(baseline, runtime, authoritative)[i] == baseline[i]
    decreases |runtime|
  {
    if runtime != [] {
      var init := runtime[..|runtime| - 1];
      OnlyLastReplaced(baseline, init, authoritative, i);
      SameLast(baseline, init, authoritative, baseline[i].name);
    }
  }

  lemma {:induction false} NoGrowth(entries: seq<Entry>, runtime: seq<Entry>, authoritative: bool)
    requires forall k :: 0 <= k < |runtime| ==> LastIndex(entries, runtime[k].name) >= 0
    ensures |Merged(entries, runtime, authoritative)| == |entries|
    decreases |runtime|
  {
    if runtime != [] {
      var init, e := runtime[..|runtime| - 1], runtime[|runtime| - 1];
      NoGrowth(entries, init, authoritative);
      SameLast(entries, init, authoritative, e.name);
    }
  }

  lemma {:induction false} Mentioned(baseline: seq<Entry>, runtime: seq<Entry>, authoritative: bool, k: nat)
    requires k < |runtime|
    ensures LastIndex(Merged(baseline, runtime, authoritative), runtime[k].name) >= 0
    decreases |runtime|
  {
    var init, e := runtime[..|runtime| - 1], runtime[|runtime| - 1];
    var before := Merged(baseline, init, authoritative);
    var name := runtime[k].name;
    if k < |runtime| - 1 {
      Mentioned(baseline, init, authoritative, k);
      SameLast(before, [e], authoritative, name);
      assert [e][..0] == [] && Merged(before, [e], authoritative) == Put(before, e, authoritative);
    } else if LastIndex(before, name) < 0 {
      LastIndexUnique(before + [e], name, |before|);
    } else {
      SameLast(before, [e], authoritative, name);
      assert [e][..0] == [] && Merged(before, [e], authoritative) == Put(before, e, authoritative);
    }
  }

  /** Merging the same runtime entries again changes nothing. */
  lemma MergeTwice(baseline: seq<Entry>, runtime: seq<Entry>, authoritative: bool)
    ensures Merged(Merged(baseline, runtime, authoritative), runtime, authoritative)
            == Merged(baseline, runtime, authoritative)
  {
    var once := Merged(baseline, runtime, authoritative);
    forall k | 0 <= k < |runtime| ensures LastIndex(once, runtime[k].name) >= 0 {
      Mentioned(baseline, runtime, authoritative, k);
    }
    var twice := Merged(once, runtime, authoritative);
    NoGrowth(once, runtime, authoritative);
    PositionsKept(once, runtime, authoritative);
    if authoritative {
      forall i | 0 <= i < |once| ensures twice[i] == once[i] {
        SameEntryAgain(baseline, runtime, i);
      }
    }
  }

  lemma SameEntryAgain(baseline: seq<Entry>, runtime: seq<Entry>, i: nat)
    requires i < |Merged(baseline, runtime, true)|
    requires i < |Merged(Merged(baseline, runtime, true), runtime, true)|
    ensures Merged(Merged(baseline, runtime, true), runtime, true)[i] == Merged(baseline, runtime, true)[i]
  {
    var once := Merged(baseline, runtime, true);
    var name := once[i].name;
    PositionsKept(once, runtime, true);
    if LastIndex(runtime, name) < 0 {
      OthersUntouched(once, runtime, true, i);
    } else if i != LastIndex(once, name) {
      OnlyLastReplaced(once, runtime, true, i);
    } else {
      SameLast(once, runtime, true, name);
      LastRuntimeWins(once, runtime, name);
      LastRuntimeWins(baseline, runtime, name);
    }
  }
}
