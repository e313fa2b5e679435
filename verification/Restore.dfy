/** Restoring a snapshot (`restoreSnapshot`, src/engine.cpp:3064-3073, 3107-3129): items are
    inserted in passes, each as soon as its parent is there and its list is long enough. */
module Restore {
  import opened Wrappers
  import opened Sequences
  import opened ListInserts
  import opened GroupPlanner
  import opened Documents
  import opened DocumentLists
  import opened DocumentItems
  import opened Undo
  import opened Batches
  import P = ParentChain

  predicate ListReady(schema: Schema, doc: Doc, item: Item) {
    GroupOf(schema, item).Some? && item.listIndex.Some? ==> item.listIndex.value <= |At(doc.groups, GroupOf(schema, item).value)|
  }

  /** One pass. Nothing when an insertion throws. */
  ghost function RestorePass(schema: Schema, doc: Doc, waiting: seq<Snapshot>): (r: Option<(Doc, seq<Snapshot>)>)
    ensures r.Some? ==> |r.value.1| <= |waiting|
    decreases |waiting|
  {
    if waiting == [] then Some((doc, []))
    else
      var s := waiting[0];
      if Ready(doc.items, s) && ListReady(schema, doc, s.item) then
        match InsertItem(schema, doc, s.id, s.item)
        case None => None
        case Some(next) => RestorePass(schema, next, waiting[1..])
      else
        match RestorePass(schema, doc, waiting[1..])
        case None => None
        case Some((d, rest)) => Some((d, [s] + rest))
  }

  /** Passes until nothing waits. Nothing when one inserts nothing, or throws. */
  ghost function RestoreAll(schema: Schema, doc: Doc, waiting: seq<Snapshot>): Option<Doc>
    decreases |waiting|
  {
    if waiting == [] then Some(doc)
    else match RestorePass(schema, doc, waiting)
      case None => None
      case Some((d, rest)) => if |rest| == |waiting| then None else RestoreAll(schema, d, rest)
  }

  /** `doc` is on its way to `whole`: it holds some of its items as they are, each with its
      parent, and the front parts of its lists; the rest waits. */
  ghost predicate Restoring(schema: Schema, whole: Doc, doc: Doc, waiting: seq<Snapshot>) {
    && WellFormed(schema, whole) && InOrder(schema, doc, {})
    && Partition(schema, whole.items, doc.items, waiting)
    && (forall x :: x in doc.items ==> x in whole.items && doc.items[x] == whole.items[x])
    && (forall i :: 0 <= i < |waiting| ==> waiting[i].id in whole.items && waiting[i].item == whole.items[waiting[i].id])
    && (forall key :: At(doc.groups, key) <= At(whole.groups, key))
  }

  /** The front part of a list holds exactly its members that are there. */
  lemma FrontPart(schema: Schema, whole: Doc, doc: Doc, waiting: seq<Snapshot>, x: ItemId, key: GroupKey)
    requires Restoring(schema, whole, doc, waiting) && x in whole.items && GroupOf(schema, whole.items[x]) == Some(key)
    ensures whole.items[x].listIndex.Some? && whole.items[x].listIndex.value < |At(whole.groups, key)|
    ensures At(whole.groups, key)[whole.items[x].listIndex.value] == x
    ensures x in doc.items <==> whole.items[x].listIndex.value < |At(doc.groups, key)|
  {
    hide Sound, Partition;
    PositionIsCache(schema, whole, x, key);
    var at := whole.items[x].listIndex.value;
    if at < |At(doc.groups, key)| {
      assert SlotOk(schema, doc, key, at);
    }
    if x in doc.items {
      assert CacheOk(schema, doc, x);
    }
  }

  /** A waiting item whose list is long enough for it comes just at its end. */
  lemma WaitingComesNext(schema: Schema, whole: Doc, doc: Doc, waiting: seq<Snapshot>, i: nat, key: GroupKey)
    requires Restoring(schema, whole, doc, waiting) && i < |waiting| && GroupOf(schema, waiting[i].item) == Some(key)
    ensures waiting[i].item.listIndex.Some?
    ensures |At(doc.groups, key)| <= waiting[i].item.listIndex.value < |At(whole.groups, key)|
    ensures At(whole.groups, key)[waiting[i].item.listIndex.value] == waiting[i].id
  {
    hide Sound, InOrder;
    FrontPart(schema, whole, doc, waiting, waiting[i].id, key);
  }

  /** Inserting an item that is ready brings the document one item nearer. */
  lemma RestoreNext(schema: Schema, whole: Doc, doc: Doc, waiting: seq<Snapshot>, i: nat)
    requires Restoring(schema, whole, doc, waiting) && i < |waiting|
    requires Ready(doc.items, waiting[i]) && ListReady(schema, doc, waiting[i].item)
    ensures InsertItem(schema, doc, waiting[i].id, waiting[i].item).Some?
    ensures Restoring(schema, whole, InsertItem(schema, doc, waiting[i].id, waiting[i].item).value, RemoveAt(waiting, i))
  {
    hide Sound, Accepts, Partition, InOrder, RemoveAt, InsertIntoGroup, AsksRightly, GroupOf;
    var s := waiting[i];
    var group := GroupOf(schema, s.item);
    ReadyIsAccepted(schema, whole.items, doc.items, waiting, i);
    if group.Some? {
      WaitingComesNext(schema, whole, doc, waiting, i, group.value);
    }
    if group.Some? {
      PlacedAtEnd(At(doc.groups, group.value), s.item, s.id);
    }
    FitsThere(schema, doc, s.id, s.item);
    NotYetThere(schema, whole, doc, waiting, i);
    NewIsSkipped(schema, doc, s.id);
    WaitingAsksRightly(schema, whole, doc, waiting, i);
    InsertKeepsOrder(schema, doc, s.id, s.item);
    AppendedItems(schema, doc, s.id, s.item);
    StoreNext(schema, whole.items, doc.items, waiting, i);
    RestAt(waiting, i);
    ExtendedLists(schema, whole.groups, doc, s.id, s.item);
  }

  /** An item that comes next in its list keeps the lists front parts of the whole ones. */
  lemma ExtendedLists(schema: Schema, whole: Groups, doc: Doc, id: ItemId, item: Item)
    requires InsertIntoGroup(schema, doc, id, item).Some? && forall key :: At(doc.groups, key) <= At(whole, key)
    requires GroupOf(schema, item).Some? ==>
               var list, all := At(doc.groups, GroupOf(schema, item).value), At(whole, GroupOf(schema, item).value);
               item.listIndex == Some(|list|) && |list| < |all| && all[|list|] == id
    ensures forall key :: At(InsertIntoGroup(schema, doc, id, item).value.groups, key) <= At(whole, key)
  {
    hide Reindexed, GroupOf;
    if GroupOf(schema, item).Some? {
      PlacedAtEnd(At(doc.groups, GroupOf(schema, item).value), item, id);
    }
  }

  lemma FitsThere(schema: Schema, doc: Doc, id: ItemId, item: Item)
    requires GroupOf(schema, item).Some? ==> Fits(At(doc.groups, GroupOf(schema, item).value), Insert(id, item.listIndex))
    ensures InsertIntoGroup(schema, doc, id, item).Some?
  {
  }

  lemma PlacedAtEnd(list: seq<ItemId>, item: Item, id: ItemId)
    requires item.listIndex == Some(|list|)
    ensures Fits(list, Insert(id, item.listIndex)) && Place(list, Insert(id, item.listIndex)) == list + [id]
  {
  }

  lemma NotYetThere(schema: Schema, whole: Doc, doc: Doc, waiting: seq<Snapshot>, i: nat)
    requires Restoring(schema, whole, doc, waiting) && i < |waiting|
    ensures waiting[i].id !in doc.items
  {
  }

  lemma WaitingAsksRightly(schema: Schema, whole: Doc, doc: Doc, waiting: seq<Snapshot>, i: nat)
    requires Restoring(schema, whole, doc, waiting) && i < |waiting|
    ensures AsksRightly(schema, waiting[i].item)
  {
    StoredAsksRightly(schema, whole, waiting[i].id);
  }

  /** Appending an item to its list changes no other item. */
  lemma AppendedItems(schema: Schema, doc: Doc, id: ItemId, item: Item)
    requires InsertItem(schema, doc, id, item).Some?
    requires GroupOf(schema, item).Some? ==> item.listIndex == Some(|At(doc.groups, GroupOf(schema, item).value)|)
    ensures InsertItem(schema, doc, id, item).value.items == doc.items[id := item]
  {
    hide Accepts, GroupOf;
  }

  /** While items wait, one of them is ready. */
  lemma SomeoneCanBeRestored(schema: Schema, whole: Doc, doc: Doc, waiting: seq<Snapshot>) returns (i: nat)
    requires Restoring(schema, whole, doc, waiting) && waiting != []
    ensures i < |waiting| && Ready(doc.items, waiting[i]) && ListReady(schema, doc, waiting[i].item)
  {
    hide Sound, Partition;
    WaitingIsRooted(schema, whole, doc, waiting);
    i := LowestReady(schema, whole.items, doc.items, waiting, 0);
    if GroupOf(schema, waiting[i].item).Some? {
      var key := GroupOf(schema, waiting[i].item).value;
      WaitingComesNext(schema, whole, doc, waiting, i, key);
      i := NextInList(schema, whole, doc, waiting, i, key);
    }
  }

  lemma WaitingIsRooted(schema: Schema, whole: Doc, doc: Doc, waiting: seq<Snapshot>)
    requires Restoring(schema, whole, doc, waiting) && waiting != []
    ensures P.Rooted(Parents(whole.items), Some(waiting[0].id))
  {
  }

  /** The item next in the list waits too, with the same parent. */
  lemma NextInList(schema: Schema, whole: Doc, doc: Doc, waiting: seq<Snapshot>, i: nat, key: GroupKey) returns (j: nat)
    requires Restoring(schema, whole, doc, waiting) && i < |waiting| && Ready(doc.items, waiting[i])
    requires GroupOf(schema, waiting[i].item) == Some(key) && |At(doc.groups, key)| < |At(whole.groups, key)|
    ensures j < |waiting| && Ready(doc.items, waiting[j]) && ListReady(schema, doc, waiting[j].item)
  {
    hide Sound;
    var n := |At(doc.groups, key)|;
    var x := At(whole.groups, key)[n];
    assert SlotOk(schema, whole, key, n);
    FrontPart(schema, whole, doc, waiting, x, key);
    assert Waits(waiting, x);
    j :| 0 <= j < |waiting| && waiting[j].id == x;
  }

  /** A pass goes on towards the whole, and inserts something if anything is ready. */
  lemma {:induction false} RestorePassFacts(schema: Schema, whole: Doc, doc: Doc, skipped: seq<Snapshot>, waiting: seq<Snapshot>)
    requires Restoring(schema, whole, doc, skipped + waiting)
    ensures var pass := RestorePass(schema, doc, waiting);
            && pass.Some? && Restoring(schema, whole, pass.value.0, skipped + pass.value.1)
            && ((exists i :: 0 <= i < |waiting| && Ready(doc.items, waiting[i]) && ListReady(schema, doc, waiting[i].item)) ==>
                  |pass.value.1| < |waiting|)
    decreases |waiting|
  {
    hide Restoring, Ready, ListReady, InsertItem;
    if waiting != [] {
      var all, s := skipped + waiting, waiting[0];
      assert all[|skipped|] == s;
      if Ready(doc.items, s) && ListReady(schema, doc, s.item) {
        RestoreNext(schema, whole, doc, all, |skipped|);
        assert RemoveAt(all, |skipped|) == skipped + waiting[1..];
        RestorePassFacts(schema, whole, InsertItem(schema, doc, s.id, s.item).value, skipped, waiting[1..]);
      } else {
        assert skipped + [s] + waiting[1..] == all;
        RestorePassFacts(schema, whole, doc, skipped + [s], waiting[1..]);
        var rest := RestorePass(schema, doc, waiting[1..]).value.1;
        assert skipped + [s] + rest == skipped + ([s] + rest);
        if i :| 0 <= i < |waiting| && Ready(doc.items, waiting[i]) && ListReady(schema, doc, waiting[i].item) {
          assert waiting[1..][i - 1] == waiting[i];
        }
      }
    }
  }

  lemma {:induction false} RestoreAllFacts(schema: Schema, whole: Doc, doc: Doc, waiting: seq<Snapshot>)
    requires Restoring(schema, whole, doc, waiting)
    ensures RestoreAll(schema, doc, waiting) == Some(whole)
    decreases |waiting|
  {
    if waiting == [] {
      NothingLeft(schema, whole, doc);
    } else {
      hide Restoring, RestorePass;
      var i := SomeoneCanBeRestored(schema, whole, doc, waiting);
      assert [] + waiting == waiting;
      RestorePassFacts(schema, whole, doc, [], waiting);
      var pass := RestorePass(schema, doc, waiting).value;
      assert [] + pass.1 == pass.1;
      RestoreAllFacts(schema, whole, pass.0, pass.1);
    }
  }

  lemma NothingLeft(schema: Schema, whole: Doc, doc: Doc)
    requires Restoring(schema, whole, doc, [])
    ensures doc == whole
  {
    hide Sound;
    forall x | x in whole.items
      ensures x in doc.items
    {
      assert !Waits([], x);
    }
    assert doc.items == whole.items;
    forall key
      ensures At(doc.groups, key) == At(whole.groups, key)
    {
      ListHoldsGroup(schema, doc, {}, key);
      ListHoldsGroup(schema, whole, {}, key);
      InOrderDistinct(schema, doc, {}, key);
      InOrderDistinct(schema, whole, {}, key);
      DistinctSize(At(doc.groups, key));
      DistinctSize(At(whole.groups, key));
      assert SetOf(At(doc.groups, key)) == SetOf(At(whole.groups, key));
    }
    SameGroups(doc.groups, whole.groups);
  }

  /** An enumeration of all items of a document. */
  ghost predicate Enumerates(items: Items, snapshots: seq<Snapshot>) {
    && (forall i :: 0 <= i < |snapshots| ==> snapshots[i].id in items && snapshots[i].item == items[snapshots[i].id])
    && (forall i, j :: 0 <= i < j < |snapshots| ==> snapshots[i].id != snapshots[j].id)
    && (forall x :: x in items ==> Waits(snapshots, x))
  }

  /** Whatever order a well-formed document's items were written in, restoring them makes
      progress in every pass and rebuilds the document. */
  lemma RestoreRebuilds(schema: Schema, whole: Doc, snapshots: seq<Snapshot>)
    requires WellFormed(schema, whole) && Enumerates(whole.items, snapshots)
    ensures RestoreAll(schema, Doc(map[], map[]), snapshots) == Some(whole)
  {
    RestoreAllFacts(schema, whole, Doc(map[], map[]), snapshots);
  }
}
