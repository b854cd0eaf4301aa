/** The catalog merge on the heap: what it returns shares no entry with the catalogs it was made from. */
module CatalogCopies {
  import opened CatalogMerge

  /** An entry as the program holds it: an object that whoever has it may update. */
  class Item {
    var entry: Entry

    constructor (entry: Entry)
      ensures this.entry == entry
    {
      this.entry := entry;
    }
  }

  function Values(items: seq<Item>): (r: seq<Entry>)
    reads items
    ensures |r| == |items| && forall i :: 0 <= i < |items| ==> r[i] == items[i].entry
  {
    seq(|items|, i requires 0 <= i < |items| reads items => items[i].entry)
  }

  /** One object is one object in the copy, too. */
  ghost predicate SameSharing(items: seq<Item>, copies: seq<Item>) {
    |items| == |copies| && forall i, j :: 0 <= i < |items| && 0 <= j < |items| ==>
      (items[i] == items[j] <==> copies[i] == copies[j])
  }

  /** copy.deepcopy of a list: new objects, shared among themselves as the old ones were. */
  method CopyAll(items: seq<Item>) returns (copies: seq<Item>)
    ensures SameSharing(items, copies) && Values(copies) == Values(items)
    ensures forall c :: c in copies ==> fresh(c)
  {
    copies := [];
    var memo: map<Item, Item> := map[];
    for i := 0 to |items|
      invariant |copies| == i && forall j :: 0 <= j < i ==> items[j] in memo && copies[j] == memo[items[j]]
      invariant forall m :: m in memo ==> m in items && fresh(memo[m]) && memo[m].entry == m.entry
      invariant forall m, n :: m in memo && n in memo && memo[m] == memo[n] ==> m == n
    {
      if items[i] !in memo {
        var c := new Item(items[i].entry);
        memo := memo[items[i] := c];
      }
      copies := copies + [memo[items[i]]];
    }
  }

  /** Where each name stands last. */
  method IndexNames(items: seq<Item>) returns (existing: map<Name, nat>)
    ensures Indexes(existing, Values(items))
  {
    existing := map[];
    for i := 0 to |items|
      invariant Indexes(existing, Values(items[..i]))
    {
      IndexesAppend(existing, Values(items[..i]), items[i].entry);
      assert Values(items[..i + 1]) == Values(items[..i]) + [items[i].entry];
      existing := existing[items[i].entry.name := i];
    }
    assert items[..|items|] == items;
  }

  lemma MergedSnoc(baseline: seq<Entry>, runtime: seq<Entry>, i: nat, authoritative: bool)
    requires i < |runtime|
    ensures Merged(baseline, runtime[..i + 1], authoritative)
            == Put(Merged(baseline, runtime[..i], authoritative), runtime[i], authoritative)
  {
    assert runtime[..i + 1][..i] == runtime[..i];
  }

  /** One runtime entry: its copy replaces the last entry of its name, or is appended. */
  method PutItem(merged0: seq<Item>, existing0: map<Name, nat>, item: Item, authoritative: bool)
    returns (merged: seq<Item>, existing: map<Name, nat>)
    requires Indexes(existing0, Values(merged0))
    ensures Values(merged) == Put(Values(merged0), item.entry, authoritative) && Indexes(existing, Values(merged))
    ensures forall m :: m in merged ==> m in merged0 || fresh(m)
  {
    merged, existing := merged0, existing0;
    ghost var before := Values(merged0);
    var name := item.entry.name;
    if name !in existing {
      var c := new Item(item.entry);
      IndexesAppend(existing, before, item.entry);
      existing := existing[name := |merged|];
      merged := merged + [c];
      assert Values(merged) == before + [item.entry];
    } else if authoritative {
      var c := new Item(item.entry);
      IndexesReplace(existing, before, item.entry, existing[name]);
      merged := merged[existing[name] := c];
      assert Values(merged) == before[existing[name] := item.entry];
    }
  }

  /**
   * The merge has the entries that merging the values gives, every one in an
   * object of its own making, and changes no object that was there before.
   */
  method MergeItems(baseline: seq<Item>, runtime: seq<Item>, authoritative: bool) returns (merged: seq<Item>)
    ensures Values(merged) == Merged(Values(baseline), Values(runtime), authoritative)
    ensures forall m :: m in merged ==> fresh(m)
  {
    ghost var base, run := Values(baseline), Values(runtime);
    merged := CopyAll(baseline);
    var existing := IndexNames(merged);
    for i := 0 to |runtime|
      invariant Values(merged) == Merged(base, run[..i], authoritative) && Indexes(existing, Values(merged))
      invariant forall m :: m in merged ==> fresh(m)
    {
      MergedSnoc(base, run, i, authoritative);
      merged, existing := PutItem(merged, existing, runtime[i], authoritative);
    }
    assert run[..|runtime|] == run;
  }
}
