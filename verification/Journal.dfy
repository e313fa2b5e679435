/** The first-touch journal of a transaction, and what restoring from it gives back
    (src/engine.cpp:258-339). */
module Journals {
  import opened Wrappers
  import opened Sequences
  import opened ListInserts
  import opened GroupPlanner
  import opened Documents
  import opened DocumentLists
  import opened DocumentItems
  import opened Undo
  import opened Engine

  type ItemJournal = map<ItemId, Option<Item>>
  type GroupJournal = map<GroupKey, Option<seq<ItemId>>>

  /** What restoring would leave at a key: what was saved, or else what is there. */
  function Back<K, V>(now: map<K, V>, journal: map<K, Option<V>>, k: K): Option<V> {
    if k in journal then journal[k] else Held(now, k)
  }

  predicate SameHeld(a: Option<Item>, b: Option<Item>) {
    a.Some? == b.Some? && (a.Some? ==> SameBare(a.value, b.value))
  }

  /** Items that were not saved are as at the beginning and saved ones were saved so, up
      to cached positions; lists are and were saved exactly, missing ones too. */
  ghost predicate Covers(begin: Items, beginGroups: Groups, now: Items, groups: Groups, saved: ItemJournal, savedGroups: GroupJournal) {
    && (forall id :: SameHeld(Back(now, saved, id), Held(begin, id)))
    && (forall key :: Back(groups, savedGroups, key) == Held(beginGroups, key))
  }

  /** A position that is not as at the beginning belongs to a list that was saved. */
  ghost predicate DriftsInSavedLists(schema: Schema, begin: Items, now: Items, saved: ItemJournal, savedGroups: GroupJournal) {
    forall id :: id in begin && Back(now, saved, id).Some? ==>
      Back(now, saved, id).value.listIndex == begin[id].listIndex || InSavedList(schema, begin[id], savedGroups)
  }

  ghost predicate InSavedList(schema: Schema, item: Item, savedGroups: GroupJournal) {
    GroupOf(schema, item).Some? && GroupOf(schema, item).value in savedGroups
  }

  /** Whatever the saved lists hold would stand there with the right cached position. */
  predicate PositionsSaved(now: Items, saved: ItemJournal, list: seq<ItemId>) {
    forall i :: 0 <= i < |list| ==> Back(now, saved, list[i]).Some? && Back(now, saved, list[i]).value.listIndex == Some(i)
  }

  predicate ExactlyRestorable(now: Items, saved: ItemJournal, savedGroups: GroupJournal) {
    forall key :: key in savedGroups && savedGroups[key].Some? ==> PositionsSaved(now, saved, savedGroups[key].value)
  }

  lemma NothingSaved(schema: Schema, items: Items, groups: Groups)
    ensures Covers(items, groups, items, groups, map[], map[])
    ensures DriftsInSavedLists(schema, items, items, map[], map[])
  {
  }

  /** Saving an item or a list the first time it is touched. */
  lemma SaveItem(schema: Schema, begin: Items, beginGroups: Groups, now: Items, groups: Groups, saved: ItemJournal, savedGroups: GroupJournal, id: ItemId)
    requires Covers(begin, beginGroups, now, groups, saved, savedGroups) && id !in saved
    requires DriftsInSavedLists(schema, begin, now, saved, savedGroups)
    ensures Covers(begin, beginGroups, now, groups, saved[id := Held(now, id)], savedGroups)
    ensures DriftsInSavedLists(schema, begin, now, saved[id := Held(now, id)], savedGroups)
  {
    var more := saved[id := Held(now, id)];
    assert forall x :: Back(now, more, x) == Back(now, saved, x);
  }

  lemma SaveGroup(schema: Schema, begin: Items, beginGroups: Groups, now: Items, groups: Groups, saved: ItemJournal, savedGroups: GroupJournal, key: GroupKey)
    requires Covers(begin, beginGroups, now, groups, saved, savedGroups) && key !in savedGroups
    requires DriftsInSavedLists(schema, begin, now, saved, savedGroups)
    ensures Covers(begin, beginGroups, now, groups, saved, savedGroups[key := Held(groups, key)])
    ensures DriftsInSavedLists(schema, begin, now, saved, savedGroups[key := Held(groups, key)])
  {
    var more := savedGroups[key := Held(groups, key)];
    assert forall k :: Back(groups, more, k) == Back(groups, savedGroups, k);
    assert forall item :: InSavedList(schema, item, savedGroups) ==> InSavedList(schema, item, more);
  }

  /** Only what was saved has been changed. */
  ghost predicate OnlySavedChanged(now: Items, groups: Groups, now': Items, groups': Groups, saved: ItemJournal, savedGroups: GroupJournal) {
    && (forall id :: id !in saved ==> SameHeld(Held(now, id), Held(now', id)))
    && (forall key :: key !in savedGroups ==> Held(groups, key) == Held(groups', key))
  }

  /** Changing what was saved keeps the journal covering. Items in `skip` may be in no list. */
  lemma Touch(schema: Schema, begin: Items, beginGroups: Groups, now: Items, groups: Groups, now': Items, groups': Groups,
              saved: ItemJournal, savedGroups: GroupJournal, skip: set<ItemId>)
    requires Covers(begin, beginGroups, now, groups, saved, savedGroups)
    requires DriftsInSavedLists(schema, begin, now, saved, savedGroups)
    requires OnlySavedChanged(now, groups, now', groups', saved, savedGroups) && skip <= saved.Keys
    requires InOrder(schema, Doc(now, WithoutEmpties(groups)), {}) && InOrder(schema, Doc(now', WithoutEmpties(groups')), skip)
    ensures Covers(begin, beginGroups, now', groups', saved, savedGroups)
    ensures DriftsInSavedLists(schema, begin, now', saved, savedGroups)
  {
    hide InOrder, GroupOf, SameBare;
    forall id
      ensures SameHeld(Back(now', saved, id), Held(begin, id))
    {
      assert SameHeld(Back(now, saved, id), Held(begin, id));
      if id !in saved {
        assert SameHeld(Held(now, id), Held(now', id));
        SameHeldThrough(Held(now', id), Held(now, id), Held(begin, id));
      }
    }
    forall key
      ensures Back(groups', savedGroups, key) == Held(beginGroups, key)
    {
      assert Back(groups, savedGroups, key) == Held(beginGroups, key);
    }
    forall id | id in begin && Back(now', saved, id).Some?
      ensures Back(now', saved, id).value.listIndex == begin[id].listIndex || InSavedList(schema, begin[id], savedGroups)
    {
      assert SameHeld(Back(now, saved, id), Held(begin, id));
      if id !in saved {
        assert SameHeld(Held(now, id), Held(now', id));
        GroupsAlike(schema, now[id], begin[id]);
        MovesInChangedLists(schema, now, groups, now', groups', id, skip);
        if GroupOf(schema, now[id]).Some? {
          var key := GroupOf(schema, now[id]).value;
          assert key !in savedGroups ==> Held(groups, key) == Held(groups', key);
          SameLists(groups, groups', key);
        }
      }
    }
  }

  lemma SameLists(a: Groups, b: Groups, key: GroupKey)
    ensures Held(a, key) == Held(b, key) ==> At(a, key) == At(b, key)
  {
  }

  lemma SameHeldThrough(a: Option<Item>, b: Option<Item>, c: Option<Item>)
    requires SameHeld(b, a) && SameHeld(b, c)
    ensures SameHeld(a, c)
  {
  }

  lemma GroupsAlike(schema: Schema, a: Item, b: Item)
    requires SameBare(a, b)
    ensures GroupOf(schema, a) == GroupOf(schema, b)
  {
    SameBareFields(a, b);
  }

  /** Between documents in order, an item's position changes only with its list. */
  lemma MovesInChangedLists(schema: Schema, now: Items, groups: Groups, now': Items, groups': Groups, id: ItemId, skip: set<ItemId>)
    requires InOrder(schema, Doc(now, WithoutEmpties(groups)), {}) && InOrder(schema, Doc(now', WithoutEmpties(groups')), skip)
    requires id in now && id in now' && id !in skip && SameBare(now[id], now'[id])
    ensures now'[id].listIndex == now[id].listIndex
         || (GroupOf(schema, now[id]).Some? && At(groups, GroupOf(schema, now[id]).value) != At(groups', GroupOf(schema, now[id]).value))
  {
    var a, b := Doc(now, WithoutEmpties(groups)), Doc(now', WithoutEmpties(groups'));
    GroupsAlike(schema, now[id], now'[id]);
    assert CacheOk(schema, a, id) && CacheOk(schema, b, id);
    if GroupOf(schema, now[id]).Some? {
      var key := GroupOf(schema, now[id]).value;
      assert At(a.groups, key) == At(groups, key) && At(b.groups, key) == At(groups', key);
      InOrderDistinct(schema, a, {}, key);
    }
  }

  /** Restoring gives back every item up to its cached position, and every list exactly. */
  lemma RestoredIsBegin(schema: Schema, begin: Items, beginGroups: Groups, now: Items, groups: Groups, saved: ItemJournal,
                        savedGroups: GroupJournal, restored: Items, restoredGroups: Groups)
    requires Covers(begin, beginGroups, now, groups, saved, savedGroups)
    requires forall id :: Held(restored, id) == Back(now, saved, id)
    requires forall key :: Held(restoredGroups, key) == Back(groups, savedGroups, key)
    ensures restoredGroups == beginGroups && SameExceptIndexes(begin, restored)
  {
    forall key
      ensures key in restoredGroups <==> key in beginGroups
      ensures key in beginGroups ==> restoredGroups[key] == beginGroups[key]
    {
      assert Held(restoredGroups, key) == Held(beginGroups, key);
    }
    assert restoredGroups == beginGroups;
    forall id
      ensures id in restored <==> id in begin
      ensures id in begin ==> SameBare(begin[id], restored[id])
    {
      assert SameHeld(Held(restored, id), Held(begin, id));
    }
  }

  /** The cached positions come back too exactly when each saved list finds its members
      with the right ones. */
  lemma RestoredExactlyIff(schema: Schema, begin: Items, beginGroups: Groups, now: Items, groups: Groups, saved: ItemJournal,
                           savedGroups: GroupJournal, restored: Items)
    requires Covers(begin, beginGroups, now, groups, saved, savedGroups)
    requires DriftsInSavedLists(schema, begin, now, saved, savedGroups)
    requires InOrder(schema, Doc(begin, WithoutEmpties(beginGroups)), {})
    requires forall id :: Held(restored, id) == Back(now, saved, id)
    ensures restored == begin <==> ExactlyRestorable(now, saved, savedGroups)
  {
    hide InOrder, GroupOf, SameBare;
    if restored == begin {
      forall key | key in savedGroups && savedGroups[key].Some?
        ensures PositionsSaved(now, saved, savedGroups[key].value)
      {
        BeginLists(schema, begin, beginGroups, now, groups, saved, savedGroups, key);
        forall i | 0 <= i < |savedGroups[key].value|
          ensures Back(now, saved, savedGroups[key].value[i]) == Some(begin[savedGroups[key].value[i]])
        {
          assert Held(restored, savedGroups[key].value[i]) == Back(now, saved, savedGroups[key].value[i]);
        }
      }
    }
    if ExactlyRestorable(now, saved, savedGroups) {
      forall id
        ensures Held(restored, id) == Held(begin, id)
      {
        assert SameHeld(Back(now, saved, id), Held(begin, id));
        if id in begin {
          SameButPosition(restored[id], begin[id]);
          if InSavedList(schema, begin[id], savedGroups) {
            var key := GroupOf(schema, begin[id]).value;
            BeginPosition(schema, begin, beginGroups, id, key);
            assert Back(groups, savedGroups, key) == Held(beginGroups, key);
            assert PositionsSaved(now, saved, savedGroups[key].value);
          }
        }
      }
      SameHoldings(restored, begin);
    }
  }

  lemma SameHoldings(a: Items, b: Items)
    requires forall id :: Held(a, id) == Held(b, id)
    ensures a == b
  {
    forall id
      ensures id in a <==> id in b
      ensures id in a ==> a[id] == b[id]
    {
      assert Held(a, id) == Held(b, id);
    }
  }

  lemma SameButPosition(a: Item, b: Item)
    requires SameBare(a, b)
    ensures a.listIndex == b.listIndex ==> a == b
  {
    assert a == BareItem(a).(listIndex := a.listIndex) && b == BareItem(b).(listIndex := b.listIndex);
  }

  lemma BeginPosition(schema: Schema, begin: Items, beginGroups: Groups, id: ItemId, key: GroupKey)
    requires InOrder(schema, Doc(begin, WithoutEmpties(beginGroups)), {}) && id in begin && GroupOf(schema, begin[id]) == Some(key)
    ensures key in beginGroups && begin[id].listIndex.Some? && begin[id].listIndex.value < |beginGroups[key]|
    ensures beginGroups[key][begin[id].listIndex.value] == id
  {
    assert CacheOk(schema, Doc(begin, WithoutEmpties(beginGroups)), id);
    assert At(WithoutEmpties(beginGroups), key) == At(beginGroups, key);
  }

  lemma BeginLists(schema: Schema, begin: Items, beginGroups: Groups, now: Items, groups: Groups, saved: ItemJournal,
                   savedGroups: GroupJournal, key: GroupKey)
    requires Covers(begin, beginGroups, now, groups, saved, savedGroups) && key in savedGroups && savedGroups[key].Some?
    requires InOrder(schema, Doc(begin, WithoutEmpties(beginGroups)), {})
    ensures forall i :: 0 <= i < |savedGroups[key].value| ==>
              savedGroups[key].value[i] in begin && begin[savedGroups[key].value[i]].listIndex == Some(i)
  {
    var list, doc := savedGroups[key].value, Doc(begin, WithoutEmpties(beginGroups));
    assert Back(groups, savedGroups, key) == Held(beginGroups, key);
    assert At(doc.groups, key) == At(beginGroups, key) == list;
    forall i | 0 <= i < |list|
      ensures list[i] in begin && begin[list[i]].listIndex == Some(i)
    {
      assert SlotOk(schema, doc, key, i);
    }
  }

  // ----- When the failure of a transaction with one change is undone exactly -----

  lemma OneSavedList(now: Items, saved: ItemJournal, key: GroupKey, held: Option<seq<ItemId>>)
    ensures ExactlyRestorable(now, saved, map[key := held]) <==> (held.Some? ==> PositionsSaved(now, saved, held.value))
  {
    hide PositionsSaved;
    var savedGroups: GroupJournal := map[key := held];
    assert savedGroups[key] == held;
  }

  /** Positions are saved right when nothing has moved. */
  lemma SavedIffUnmoved(now: Items, saved: ItemJournal, list: seq<ItemId>, position: seq<nat>)
    requires |position| == |list|
    requires forall i :: 0 <= i < |list| ==> Back(now, saved, list[i]).Some? && Back(now, saved, list[i]).value.listIndex == Some(position[i])
    ensures PositionsSaved(now, saved, list) <==> forall i :: 0 <= i < |list| ==> position[i] == i
  {
  }

  /** A lone insertion into a list is taken back exactly when it went to the end. */
  lemma LoneInsertExactIff(schema: Schema, doc: Doc, id: ItemId, item: Item, key: GroupKey)
    requires InOrder(schema, doc, {}) && id !in doc.items && AsksRightly(schema, item) && GroupOf(schema, item) == Some(key)
    requires InsertItem(schema, doc, id, item).Some?
    ensures ExactlyRestorable(InsertItem(schema, doc, id, item).value.items, map[id := None], map[key := Held(doc.groups, key)])
       <==> item.listIndex == Some(|At(doc.groups, key)|)
  {
    hide InOrder, GroupOf, Reindexed, Accepts, InsertAt;
    var d, list, at := InsertItem(schema, doc, id, item).value, At(doc.groups, key), item.listIndex.value;
    NewIsSkipped(schema, doc, id);
    InsertKeepsOrder(schema, doc, id, item);
    ListHoldsGroup(schema, doc, {}, key);
    assert id !in list;
    InsertAtElsewhere(list, at, id);
    var saved: ItemJournal := map[id := None];
    var position := seq(|list|, i requires 0 <= i < |list| => if i < at then i else i + 1);
    forall i: nat | i < |list|
      ensures Back(d.items, saved, list[i]).Some? && Back(d.items, saved, list[i]).value.listIndex == Some(position[i])
    {
      assert list[i] in list;
      AtItsPlace(schema, d, key, position[i]);
    }
    SavedIffUnmoved(d.items, saved, list, position);
    OneSavedList(d.items, saved, key, Held(doc.groups, key));
    assert at < |list| ==> position[at] == at + 1;
  }

  lemma AtItsPlace(schema: Schema, doc: Doc, key: GroupKey, i: nat)
    requires InOrder(schema, doc, {}) && i < |At(doc.groups, key)|
    ensures At(doc.groups, key)[i] in doc.items && doc.items[At(doc.groups, key)[i]].listIndex == Some(i)
  {
    assert SlotOk(schema, doc, key, i);
  }

  /** A lone removal from a list is taken back exactly when it was of the last member. */
  lemma LoneRemovalExactIff(schema: Schema, doc: Doc, key: GroupKey, at: nat)
    requires InOrder(schema, doc, {}) && at < |At(doc.groups, key)|
    ensures var id := At(doc.groups, key)[at];
            id in doc.items &&
            (ExactlyRestorable(EraseItem(schema, doc, id, doc.items[id]).items, map[id := Some(doc.items[id])],
                               map[key := Some(At(doc.groups, key))])
             <==> at == |At(doc.groups, key)| - 1)
  {
    hide InOrder, EraseItem, RemoveAt, Survivors;
    var list := At(doc.groups, key);
    var id := list[at];
    AtItsPlace(schema, doc, key, at);
    var d, saved := EraseItem(schema, doc, id, doc.items[id]), map[id := Some(doc.items[id])];
    ErasedLists(schema, doc, id);
    InOrderDistinct(schema, doc, {}, key);
    SurvivorsOfOne(list, at);
    RestOfList(list, at);
    var position := seq(|list|, i requires 0 <= i < |list| => if i <= at then i else i - 1);
    forall i: nat | i < |list|
      ensures Back(d.items, saved, list[i]).Some? && Back(d.items, saved, list[i]).value.listIndex == Some(position[i])
    {
      if i != at {
        AtItsPlace(schema, d, key, position[i]);
      }
    }
    SavedIffUnmoved(d.items, saved, list, position);
    OneSavedList(d.items, saved, key, Some(list));
    assert at < |list| - 1 ==> position[at + 1] == at;
  }

  lemma ErasedLists(schema: Schema, doc: Doc, id: ItemId)
    requires InOrder(schema, doc, {}) && id in doc.items
    ensures var d := EraseItem(schema, doc, id, doc.items[id]);
            InOrder(schema, d, {}) && forall key :: At(d.groups, key) == Survivors(At(doc.groups, key), {id})
  {
    hide InOrder, RemoveFromGroup, Survivors;
    EraseKeepsOrder(schema, doc, id);
    RemoveKeepsOrder(schema, doc, id);
  }

  lemma RestOfList(list: seq<ItemId>, at: nat)
    requires at < |list|
    ensures forall i :: 0 <= i < |list| - 1 ==> RemoveAt(list, at)[i] == list[if i < at then i else i + 1]
  {
  }

  /** A lone rotation is taken back exactly when it moved nothing. */
  lemma LoneRotationExactIff(schema: Schema, doc: Doc, key: GroupKey, start: nat, count: nat, offset: int)
    requires InOrder(schema, doc, {}) && count > 0 && start + count <= |At(doc.groups, key)|
    ensures ExactlyRestorable(RotateGroup(doc, key, start, count, offset).items, map[], map[key := Some(At(doc.groups, key))])
       <==> offset % count == 0
  {
    hide InOrder, RotateGroup, RotateList;
    var list, d, shift := At(doc.groups, key), RotateGroup(doc, key, start, count, offset), offset % count;
    RotateKeepsOrder(schema, doc, key, start, count, offset);
    RotatedList(doc, key, start, count, offset);
    RotateListAt(list, start, count, offset);
    InOrderDistinct(schema, doc, {}, key);
    var position := seq(|list|, i requires 0 <= i < |list| => Rotated(i, start, count, shift));
    var saved: ItemJournal := map[];
    forall i: nat | i < |list|
      ensures Back(d.items, saved, list[i]).Some? && Back(d.items, saved, list[i]).value.listIndex == Some(position[i])
    {
      AtItsPlace(schema, d, key, position[i]);
    }
    SavedIffUnmoved(d.items, saved, list, position);
    OneSavedList(d.items, saved, key, Some(list));
    assert shift > 0 ==> position[start] != start;
  }

  lemma RotatedList(doc: Doc, key: GroupKey, start: nat, count: nat, offset: int)
    requires count > 0 && start + count <= |At(doc.groups, key)|
    ensures At(RotateGroup(doc, key, start, count, offset).groups, key) == RotateList(At(doc.groups, key), start, count, offset)
  {
    hide Reindexed, RotateList;
  }

  /** Where a rotation takes a position. */
  function Rotated(i: nat, start: nat, count: nat, shift: nat): nat
    requires shift < count
  {
    if i < start || i >= start + count then i
    else if i >= start + shift then i - shift else i + count - shift
  }
}
