/** Every reachable document is well formed, and undoing what was recorded restores the
    document it was recorded in. */
module Undo {
  import opened Wrappers
  import opened Sequences
  import opened Values
  import opened ListInserts
  import opened GroupPlanner
  import opened Documents
  import opened DocumentLists
  import opened DocumentItems
  import opened Changes

  // ----- Small facts about one insertion or erasure -----

  lemma InsertItemFacts(schema: Schema, doc: Doc, id: ItemId, item: Item)
    requires WellFormed(schema, doc) && id !in doc.items && AsksRightly(schema, item)
    requires InsertItem(schema, doc, id, item).Some?
    ensures var d := InsertItem(schema, doc, id, item).value;
            && WellFormed(schema, d) && d.items[id] == item && Bare(d.items) == Bare(doc.items)[id := BareItem(item)]
            && forall key :: Survivors(At(d.groups, key), {id}) == At(doc.groups, key)
  {
    var g := InsertIntoGroup(schema, doc, id, item).value;
    var d := InsertItem(schema, doc, id, item).value;
    NewIsSkipped(schema, doc, id);
    InsertKeepsOrder(schema, doc, id, item);
    AcceptKeepsSound(schema, doc.items, id, item);
    BareWith(g.items, id, item);
    BareWith(doc.items, id, item);
    SoundBare(schema, doc.items[id := item], d.items);
    InsertedSurvives(schema, doc, id, item);
  }

  lemma BareWith(items: Items, id: ItemId, item: Item)
    ensures Bare(items[id := item]) == Bare(items)[id := BareItem(item)]
  {
  }

  lemma AddThenDrop(items: Items, id: ItemId, item: Item)
    requires id !in items
    ensures items[id := item] - {id} == items
  {
  }

  lemma SetThenSetBack(items: Items, id: ItemId, item: Item)
    requires id in items
    ensures items[id := item][id := items[id]] == items
  {
  }

  lemma NewIsSkipped(schema: Schema, doc: Doc, id: ItemId)
    requires InOrder(schema, doc, {}) && id !in doc.items
    ensures InOrder(schema, doc, {id})
  {
    forall key, i | 0 <= i < |At(doc.groups, key)|
      ensures At(doc.groups, key)[i] != id
    {
      assert SlotOk(schema, doc, key, i);
    }
  }

  /** Taking the inserted item out of the lists again gives the lists from before. */
  lemma InsertedSurvives(schema: Schema, doc: Doc, id: ItemId, item: Item)
    requires InOrder(schema, doc, {id}) && InsertIntoGroup(schema, doc, id, item).Some?
    ensures forall key :: Survivors(At(InsertIntoGroup(schema, doc, id, item).value.groups, key), {id}) == At(doc.groups, key)
  {
    forall key
      ensures Survivors(At(InsertIntoGroup(schema, doc, id, item).value.groups, key), {id}) == At(doc.groups, key)
    {
      InsertedSurvivesAt(schema, doc, id, item, key);
    }
  }

  lemma InsertedSurvivesAt(schema: Schema, doc: Doc, id: ItemId, item: Item, key: GroupKey)
    requires InOrder(schema, doc, {id}) && InsertIntoGroup(schema, doc, id, item).Some?
    ensures Survivors(At(InsertIntoGroup(schema, doc, id, item).value.groups, key), {id}) == At(doc.groups, key)
  {
    hide Reindexed, Survivors, InOrder, GroupOf, InsertAt, RemoveAt;
    var list := At(doc.groups, key);
    ListHoldsGroup(schema, doc, {id}, key);
    if GroupOf(schema, item) == Some(key) {
      var at := item.listIndex.GetOr(|list|);
      InOrderDistinct(schema, doc, {id}, key);
      InsertThenRemove(list, at, id);
    } else {
      SurvivorsOfNone(list, {id});
    }
  }

  lemma InsertThenRemove(list: seq<ItemId>, at: nat, id: ItemId)
    requires Distinct(list) && id !in list && at <= |list|
    ensures Survivors(InsertAt(list, at, id), {id}) == list
  {
    hide Survivors;
    InsertAtDistinct(list, at, id);
    assert InsertAt(list, at, id)[at] == id;
    SurvivorsOfOne(InsertAt(list, at, id), at);
    assert RemoveAt(InsertAt(list, at, id), at) == list;
  }

  lemma RemoveThenInsert(list: seq<ItemId>, at: nat)
    requires Distinct(list) && at < |list|
    ensures |Survivors(list, {list[at]})| == |list| - 1
    ensures InsertAt(Survivors(list, {list[at]}), at, list[at]) == list
  {
    hide Survivors;
    SurvivorsOfOne(list, at);
    assert InsertAt(RemoveAt(list, at), at, list[at]) == list;
  }

  /** An item put back at its old position gives the lists from before it was taken out. */
  lemma PutBackLists(schema: Schema, doc: Doc, without: Doc, id: ItemId)
    requires InOrder(schema, doc, {}) && id in doc.items
    requires forall key :: At(without.groups, key) == Survivors(At(doc.groups, key), {id})
    ensures var d := InsertIntoGroup(schema, without, id, doc.items[id]);
            d.Some? && forall key :: At(d.value.groups, key) == At(doc.groups, key)
  {
    hide Reindexed, Survivors, InOrder, GroupOf, InsertAt, RemoveAt, Position;
    var group := GroupOf(schema, doc.items[id]);
    OthersSurvive(schema, doc, id, group);
    if group.Some? {
      var key := group.value;
      PositionIsCache(schema, doc, id, key);
      InOrderDistinct(schema, doc, {}, key);
      RemoveThenInsert(At(doc.groups, key), doc.items[id].listIndex.value);
    }
  }

  lemma StoredAsksRightly(schema: Schema, doc: Doc, id: ItemId)
    requires WellFormed(schema, doc) && id in doc.items
    ensures AsksRightly(schema, doc.items[id])
  {
    OrderedAsksRightly(schema, doc, id);
  }

  lemma OrderedAsksRightly(schema: Schema, doc: Doc, id: ItemId)
    requires InOrder(schema, doc, {}) && id in doc.items
    ensures AsksRightly(schema, doc.items[id])
  {
    assert CacheOk(schema, doc, id);
  }

  /** Two well-ordered documents with the same bare items and the same lists are one. */
  lemma SameDocument(schema: Schema, a: Doc, b: Doc)
    requires InOrder(schema, a, {}) && InOrder(schema, b, {})
    requires Bare(a.items) == Bare(b.items) && forall key :: At(a.groups, key) == At(b.groups, key)
    ensures a == b
  {
    SameGroups(a.groups, b.groups);
    OrderDetermines(schema, a, b);
  }

  /** Putting an erased item back restores the document. */
  lemma PutBack(schema: Schema, doc: Doc, without: Doc, id: ItemId)
    requires WellFormed(schema, doc) && InOrder(schema, without, {}) && id in doc.items && Childless(doc.items, id)
    requires Bare(without.items) == Bare(doc.items) - {id}
    requires forall key :: At(without.groups, key) == Survivors(At(doc.groups, key), {id})
    ensures InsertItem(schema, without, id, doc.items[id]) == Some(doc)
  {
    hide Reindexed, Survivors, InOrder, GroupOf, InsertIntoGroup, Accepts, Sound, AsksRightly;
    var item := doc.items[id];
    assert id !in without.items by {
      assert without.items.Keys == Bare(without.items).Keys;
    }
    WithoutIsPart(schema, doc, without, id);
    AcceptedBack(schema, doc.items, without.items, id, item, None);
    PutBackLists(schema, doc, without, id);
    StoredAsksRightly(schema, doc, id);
    var g := InsertIntoGroup(schema, without, id, item).value;
    var d := InsertItem(schema, without, id, item).value;
    NewIsSkipped(schema, without, id);
    InsertKeepsOrder(schema, without, id, item);
    BareWith(g.items, id, item);
    assert (Bare(doc.items) - {id})[id := BareItem(item)] == Bare(doc.items);
    SameDocument(schema, d, doc);
  }

  lemma WithoutIsPart(schema: Schema, doc: Doc, without: Doc, id: ItemId)
    requires WellFormed(schema, doc) && id in doc.items && Childless(doc.items, id)
    requires Bare(without.items) == Bare(doc.items) - {id}
    ensures PartOf(without.items, doc.items, id)
    ensures doc.items[id].parent.Some? ==> doc.items[id].parent.value in without.items
  {
    assert without.items.Keys == Bare(without.items).Keys;
    ParentChain.RootedNeverReturns(Parents(doc.items), id, 0);
    assert ParentFits(schema, doc.items, doc.items[id]);
    forall x | x in without.items
      ensures x in doc.items && SameBare(without.items[x], doc.items[x])
      ensures without.items[x].parent.Some? ==> without.items[x].parent.value in without.items
    {
      assert Bare(without.items)[x] == Bare(doc.items)[x];
      SameBareFields(without.items[x], doc.items[x]);
      assert ParentFits(schema, doc.items, doc.items[x]);
    }
  }

  // ----- Updates -----

  lemma UpdateFacts(schema: Schema, doc: Doc, id: ItemId, item: Item)
    requires WellFormed(schema, doc) && id in doc.items && AsksRightly(schema, item)
    requires item.container == doc.items[id].container && UpdateItem(schema, doc, id, item).Some?
    ensures var d := UpdateItem(schema, doc, id, item).value;
            && WellFormed(schema, d) && d.items.Keys == doc.items.Keys && d.items[id] == item
            && Bare(d.items) == Bare(doc.items)[id := BareItem(item)]
            && forall key :: Survivors(At(d.groups, key), {id}) == Survivors(At(doc.groups, key), {id})
  {
    hide Reindexed, InOrder, Sound, Survivors, RemoveFromGroup, InsertIntoGroup, GroupOf, Accepts, AsksRightly;
    var d := UpdateItem(schema, doc, id, item).value;
    var was := doc.items[id];
    AcceptKeepsSound(schema, doc.items, id, item);
    BareWith(doc.items, id, item);
    if MembershipChanged(schema, was, item) {
      var r := RemoveFromGroup(schema, doc, id, was);
      RemoveKeepsOrder(schema, doc, id);
      InsertKeepsOrder(schema, r, id, item);
      InsertedSurvives(schema, r, id, item);
      BareWith(InsertIntoGroup(schema, r, id, item).value.items, id, item);
    } else {
      UpdateInPlaceInOrder(schema, doc, id, item);
    }
    SoundBare(schema, doc.items[id := item], d.items);
    assert d.items.Keys == Bare(d.items).Keys;
  }

  lemma UpdateInPlaceInOrder(schema: Schema, doc: Doc, id: ItemId, item: Item)
    requires InOrder(schema, doc, {}) && id in doc.items && AsksRightly(schema, item)
    requires !MembershipChanged(schema, doc.items[id], item)
    ensures InOrder(schema, Doc(doc.items[id := item], doc.groups), {})
  {
    var d := Doc(doc.items[id := item], doc.groups);
    forall key, i | 0 <= i < |At(d.groups, key)|
      ensures SlotOk(schema, d, key, i)
    {
      assert SlotOk(schema, doc, key, i);
    }
    forall x | x in d.items
      ensures CacheOk(schema, d, x)
    {
      assert CacheOk(schema, doc, x);
    }
  }

  /** Updating an item back restores the document. */
  lemma UpdateBack(schema: Schema, doc: Doc, id: ItemId, item: Item)
    requires WellFormed(schema, doc) && id in doc.items && AsksRightly(schema, item)
    requires item.container == doc.items[id].container && UpdateItem(schema, doc, id, item).Some?
    ensures UpdateItem(schema, UpdateItem(schema, doc, id, item).value, id, doc.items[id]) == Some(doc)
  {
    hide WellFormed, Accepts, AsksRightly, Survivors, UpdateItem, MembershipChanged, InsertIntoGroup, RemoveFromGroup, Bare;
    var was := doc.items[id];
    var d := UpdateItem(schema, doc, id, item).value;
    UpdateFacts(schema, doc, id, item);
    WasAcceptable(schema, doc, d, id, item);
    StoredAsksRightly(schema, doc, id);
    ChangedBothWays(schema, was, item);
    if MembershipChanged(schema, was, item) {
      MoveBack(schema, doc, d, id, item);
      UpdateByMoving(schema, d, id, was);
    } else {
      UpdateInPlace(schema, doc, id, item);
      UpdateInPlace(schema, d, id, was);
      assert doc.items[id := item][id := was] == doc.items;
    }
  }

  lemma WasAcceptable(schema: Schema, doc: Doc, d: Doc, id: ItemId, item: Item)
    requires WellFormed(schema, doc) && id in doc.items && d.items.Keys == doc.items.Keys
    requires Bare(d.items) == Bare(doc.items)[id := BareItem(item)]
    ensures Accepts(schema, d.items, id, doc.items[id], Some(item))
  {
    UpdatedIsPart(schema, doc, d, id, item);
    AcceptedBack(schema, doc.items, d.items, id, doc.items[id], Some(item));
  }

  lemma ChangedBothWays(schema: Schema, a: Item, b: Item)
    ensures MembershipChanged(schema, a, b) == MembershipChanged(schema, b, a)
  {
  }

  lemma UpdateInPlace(schema: Schema, doc: Doc, id: ItemId, item: Item)
    requires id in doc.items && !MembershipChanged(schema, doc.items[id], item)
    requires Accepts(schema, doc.items, id, item, Some(doc.items[id])) || UpdateItem(schema, doc, id, item).Some?
    ensures UpdateItem(schema, doc, id, item) == Some(Doc(doc.items[id := item], doc.groups))
  {
  }

  lemma UpdateByMoving(schema: Schema, doc: Doc, id: ItemId, item: Item)
    requires id in doc.items && MembershipChanged(schema, doc.items[id], item)
    requires Accepts(schema, doc.items, id, item, Some(doc.items[id]))
    ensures var g := InsertIntoGroup(schema, RemoveFromGroup(schema, doc, id, doc.items[id]), id, item);
            g.Some? ==> UpdateItem(schema, doc, id, item) == Some(Doc(g.value.items[id := item], g.value.groups))
  {
  }

  lemma MoveBack(schema: Schema, doc: Doc, d: Doc, id: ItemId, item: Item)
    requires WellFormed(schema, doc) && WellFormed(schema, d) && id in doc.items && id in d.items && d.items[id] == item
    requires AsksRightly(schema, doc.items[id]) && Bare(d.items) == Bare(doc.items)[id := BareItem(item)]
    requires forall key :: Survivors(At(d.groups, key), {id}) == Survivors(At(doc.groups, key), {id})
    ensures var g := InsertIntoGroup(schema, RemoveFromGroup(schema, d, id, item), id, doc.items[id]);
            g.Some? && Doc(g.value.items[id := doc.items[id]], g.value.groups) == doc
  {
    hide Reindexed, Survivors, InOrder, InsertIntoGroup, RemoveFromGroup, Sound, AsksRightly, GroupOf, Bare;
    var was := doc.items[id];
    var r := RemoveFromGroup(schema, d, id, item);
    RemoveKeepsOrder(schema, d, id);
    PutBackLists(schema, doc, r, id);
    var g := InsertIntoGroup(schema, r, id, was).value;
    InsertKeepsOrder(schema, r, id, was);
    BareWith(g.items, id, was);
    BareAt(doc.items, id);
    SetThenSetBack(Bare(doc.items), id, BareItem(item));
    SameDocument(schema, Doc(g.items[id := was], g.groups), doc);
  }

  lemma BareAt(items: Items, id: ItemId)
    requires id in items
    ensures id in Bare(items) && Bare(items)[id] == BareItem(items[id])
  {
  }

  lemma UpdatedIsPart(schema: Schema, doc: Doc, d: Doc, id: ItemId, item: Item)
    requires WellFormed(schema, doc) && id in doc.items && d.items.Keys == doc.items.Keys
    requires Bare(d.items) == Bare(doc.items)[id := BareItem(item)]
    ensures PartOf(d.items, doc.items, id)
    ensures doc.items[id].parent.Some? ==> doc.items[id].parent.value in d.items
  {
    assert ParentFits(schema, doc.items, doc.items[id]);
    forall x | x in d.items && x != id
      ensures SameBare(d.items[x], doc.items[x])
      ensures d.items[x].parent.Some? ==> d.items[x].parent.value in d.items
    {
      assert Bare(d.items)[x] == Bare(doc.items)[x];
      SameBareFields(d.items[x], doc.items[x]);
      assert ParentFits(schema, doc.items, doc.items[x]);
    }
  }

  // ----- Each request -----

  lemma RehungAsksRightly(schema: Schema, doc: Doc, id: ItemId, parent: Option<ItemId>, targetIndex: Option<nat>)
    requires WellFormed(schema, doc) && id in doc.items
    requires Rehung(schema, doc.items[id], parent, targetIndex).Some?
    ensures var item := Rehung(schema, doc.items[id], parent, targetIndex).value;
            AsksRightly(schema, item) && item.container == doc.items[id].container
  {
    StoredAsksRightly(schema, doc, id);
  }

  /** Hanging an item back at its old position gives the item from before. */
  lemma RehungBack(schema: Schema, doc: Doc, id: ItemId, parent: Option<ItemId>, targetIndex: Option<nat>)
    requires WellFormed(schema, doc) && id in doc.items
    requires Rehung(schema, doc.items[id], parent, targetIndex).Some?
    ensures var was := doc.items[id];
            Rehung(schema, Rehung(schema, was, parent, targetIndex).value, was.parent,
                   if was.parent.Some? then was.listIndex else None) == Some(was)
  {
    StoredAsksRightly(schema, doc, id);
  }

  lemma SetCellBack(item: Item, column: ColumnId, v: Value)
    ensures SetCell(SetCell(item.values, column, v), column, ValueAt(item, column)) == item.values
  {
  }

  lemma EraseOne(schema: Schema, doc: Doc, id: ItemId)
    requires WellFormed(schema, doc) && id in doc.items && Childless(doc.items, id)
    ensures WellFormed(schema, EraseAll(schema, doc, {id})) && WellFormed(schema, EraseItem(schema, doc, id, doc.items[id]))
    ensures id !in EraseAll(schema, doc, {id}).items && AsksRightly(schema, doc.items[id])
    ensures EraseAll(schema, doc, {id}) == EraseItem(schema, doc, id, doc.items[id])
    ensures InsertItem(schema, EraseAll(schema, doc, {id}), id, doc.items[id]) == Some(doc)
  {
    hide Reindexed, InOrder, Sound, Survivors, RemoveFromGroup, InsertItem;
    var all, one := EraseAll(schema, doc, {id}), EraseItem(schema, doc, id, doc.items[id]);
    StoredAsksRightly(schema, doc, id);
    EraseAllKeepsOrder(schema, doc, {id});
    EraseKeepsOrder(schema, doc, id);
    RemoveKeepsOrder(schema, doc, id);
    SameDocument(schema, all, one);
    EraseKeepsSound(schema, doc.items, {id});
    assert Bare(doc.items - {id}) == Bare(doc.items) - {id};
    SoundBare(schema, doc.items - {id}, all.items);
    PutBack(schema, doc, all, id);
  }

  lemma EraseInserted(schema: Schema, doc: Doc, id: ItemId, item: Item)
    requires WellFormed(schema, doc) && id !in doc.items && AsksRightly(schema, item)
    requires InsertItem(schema, doc, id, item).Some?
    ensures EraseItem(schema, InsertItem(schema, doc, id, item).value, id, item) == doc
  {
    var d := InsertItem(schema, doc, id, item).value;
    hide Reindexed, Survivors, InOrder, InsertIntoGroup, RemoveFromGroup, Accepts, Sound, AsksRightly, InsertItem, Bare;
    InsertItemFacts(schema, doc, id, item);
    EraseKeepsOrder(schema, d, id);
    RemoveKeepsOrder(schema, d, id);
    AddThenDrop(Bare(doc.items), id, BareItem(item));
    SameDocument(schema, EraseItem(schema, d, id, item), doc);
  }

  lemma RotateBackDocument(schema: Schema, doc: Doc, key: GroupKey, start: nat, count: nat, offset: int)
    requires WellFormed(schema, doc)
    ensures WellFormed(schema, RotateGroup(doc, key, start, count, offset))
    ensures RotateGroup(RotateGroup(doc, key, start, count, offset), key, start, count, -offset) == doc
  {
    hide Reindexed, InOrder, Sound, Documents.RotateList;
    var d := RotateGroup(doc, key, start, count, offset);
    var back := RotateGroup(d, key, start, count, -offset);
    RotateKeepsOrder(schema, doc, key, start, count, offset);
    RotateKeepsOrder(schema, d, key, start, count, -offset);
    SoundBare(schema, doc.items, d.items);
    var list := At(doc.groups, key);
    if count > 0 && start + count <= |list| {
      RotateBack(list, start, count, offset);
    }
    SameDocument(schema, back, doc);
  }

  /** Every request keeps a well-formed document well formed. */
  lemma PerformKeepsWellFormed(schema: Schema, doc: Doc, request: Request)
    requires WellFormed(schema, doc) && Perform(schema, doc, request).Some?
    ensures WellFormed(schema, Perform(schema, doc, request).value)
  {
    PerformAndUndo(schema, doc, request);
  }

  /** The recorded change of a request, inverted and applied, restores the document; and
      applied as it is, it repeats the request. */
  lemma PerformAndUndo(schema: Schema, doc: Doc, request: Request)
    requires WellFormed(schema, doc) && Perform(schema, doc, request).Some?
    ensures var d, change := Perform(schema, doc, request).value, Recorded(schema, doc, request);
            && WellFormed(schema, d)
            && Apply(schema, d, Inverse(change)) == Some(doc) && Describes(schema, d, Inverse(change))
            && Apply(schema, doc, change) == Some(d) && Describes(schema, doc, change)
  {
    hide InsertItem, EraseItem, UpdateItem, EraseAll, RotateGroup, WellFormed, AsksRightly;
    match request
    case InsertRow(id, _, _, _) =>
      BuiltAsksRightly(schema, doc, request);
      InsertItemFacts(schema, doc, id, Built(request));
      EraseInserted(schema, doc, id, Built(request));
    case InsertInList(id, _, _, _, _) =>
      BuiltAsksRightly(schema, doc, request);
      InsertItemFacts(schema, doc, id, Built(request));
      EraseInserted(schema, doc, id, Built(request));
    case RemoveLeaf(id) =>
      EraseOne(schema, doc, id);
    case RemoveAtIndex(key, index) =>
      EraseOne(schema, doc, At(doc.groups, key)[index]);
    case SetValue(id, column, v) =>
      var item := doc.items[id].(values := SetCell(doc.items[id].values, column, v));
      SetValueAsksRightly(schema, doc, id, item);
      UpdateFacts(schema, doc, id, item);
      UpdateBack(schema, doc, id, item);
      SetCellBack(doc.items[id], column, v);
    case SetParent(id, parent, targetIndex) =>
      var item := Rehung(schema, doc.items[id], parent, targetIndex).value;
      RehungAsksRightly(schema, doc, id, parent, targetIndex);
      RehungBack(schema, doc, id, parent, targetIndex);
      UpdateFacts(schema, doc, id, item);
      UpdateBack(schema, doc, id, item);
    case Rotate(key, start, count, offset) =>
      RotateBackDocument(schema, doc, key, start, count, offset);
  }

  lemma BuiltAsksRightly(schema: Schema, doc: Doc, request: Request)
    requires (request.InsertRow? || request.InsertInList?) && Allowed(schema, doc, request)
    ensures AsksRightly(schema, Built(request))
  {
  }

  lemma SetValueAsksRightly(schema: Schema, doc: Doc, id: ItemId, item: Item)
    requires WellFormed(schema, doc) && id in doc.items
    requires item == doc.items[id].(values := item.values)
    ensures AsksRightly(schema, item)
  {
    StoredAsksRightly(schema, doc, id);
  }

  // ----- Runs of requests -----

  /** A run of requests: the document it ends in and the changes it records. */
  ghost function PerformAll(schema: Schema, doc: Doc, requests: seq<Request>): Option<(Doc, seq<Change>)>
    decreases |requests|
  {
    if requests == [] then Some((doc, []))
    else match Perform(schema, doc, requests[0])
      case None => None
      case Some(next) =>
        match PerformAll(schema, next, requests[1..])
        case None => None
        case Some((last, changes)) => Some((last, [Recorded(schema, doc, requests[0])] + changes))
  }

  /** Whatever the run, its change set inverted leads back to the document step by step,
      and as it is it leads through the run again. */
  lemma {:induction false} UndoRun(schema: Schema, doc: Doc, requests: seq<Request>)
    requires WellFormed(schema, doc) && PerformAll(schema, doc, requests).Some?
    ensures var (last, changes) := PerformAll(schema, doc, requests).value;
            && Faithful(schema, last, InverseAll(changes)) && ApplyAll(schema, last, InverseAll(changes)) == Some(doc)
            && Faithful(schema, doc, changes) && ApplyAll(schema, doc, changes) == Some(last)
    decreases |requests|
  {
    hide WellFormed, Allowed, Apply, Recorded, Inverse, Describes, InsertItem, UpdateItem, EraseItem, EraseAll, RotateGroup;
    if requests != [] {
      var next := Perform(schema, doc, requests[0]).value;
      var (last, changes) := PerformAll(schema, next, requests[1..]).value;
      var first := Recorded(schema, doc, requests[0]);
      PerformAndUndo(schema, doc, requests[0]);
      UndoRun(schema, next, requests[1..]);
      assert ([first] + changes)[1..] == changes;
      OneChange(schema, next, Inverse(first), doc);
      ApplyAllAppends(schema, last, InverseAll(changes), [Inverse(first)]);
      FaithfulSplits(schema, last, InverseAll(changes), [Inverse(first)]);
    }
  }

  lemma OneChange(schema: Schema, doc: Doc, change: Change, next: Doc)
    requires WellFormed(schema, doc) && WellFormed(schema, next)
    requires Describes(schema, doc, change) && Apply(schema, doc, change) == Some(next)
    ensures ApplyAll(schema, doc, [change]) == Some(next) && Faithful(schema, doc, [change])
  {
    hide Apply, WellFormed;
  }
}
