/** Transactions (`Transaction::Impl`, src/engine.cpp:258-339, 627-637, 1304-1325, 3515-4060):
    each operation saves what it is about to touch, changes the engine and records the
    change; a failure puts everything back from what was saved. */
module Transactions {
  import opened Wrappers
  import opened Sequences
  import opened Values
  import opened ListInserts
  import opened GroupPlanner
  import opened Documents
  import opened DocumentLists
  import opened DocumentItems
  import opened Changes
  import opened Undo
  import opened Cascade
  import opened Subtrees
  import opened Engine
  import opened Journals
  import opened History
  import opened JointUpdates
  import opened Requests
  import opened Replay
  import opened SmoothReplay
  import RadixSort
  import ParentChain

  datatype State = Active | Committed | Failed | RolledBack

  class Transaction {
    const engine: DocumentEngine
    var rollbackItems: ItemJournal
    var rollbackListGroups: GroupJournal
    var changeSet: seq<Change>
    var state: State
    ghost const begin: Items
    ghost const beginGroups: Groups

    constructor (engine: DocumentEngine)
      requires InOrder(engine.schema, engine.State(), {})
      ensures this.engine == engine && begin == engine.items && beginGroups == engine.listGroups
      ensures Valid() && state == Active && changeSet == [] && rollbackItems == map[] && rollbackListGroups == map[]
    {
      this.engine := engine;
      rollbackItems, rollbackListGroups, changeSet, state := map[], map[], [], Active;
      begin, beginGroups := engine.items, engine.listGroups;
      new;
      NothingSaved(engine.schema, engine.items, engine.listGroups);
    }

    ghost predicate Recoverable()
      reads this, engine
    {
      && Covers(begin, beginGroups, engine.items, engine.listGroups, rollbackItems, rollbackListGroups)
      && DriftsInSavedLists(engine.schema, begin, engine.items, rollbackItems, rollbackListGroups)
      && InOrder(engine.schema, Doc(begin, WithoutEmpties(beginGroups)), {})
    }

    /** What holds between any two operations. */
    ghost predicate Valid()
      reads this, engine
    {
      Recoverable() && InOrder(engine.schema, engine.State(), {})
    }

    /** The document the transaction began with. */
    ghost function Begin(): Doc
      reads this
    {
      Doc(begin, WithoutEmpties(beginGroups))
    }

    /** After a failure: the lists as at the beginning, and the items up to cached positions. */
    ghost predicate GivenUp()
      reads this, engine
    {
      state == Failed && engine.listGroups == beginGroups && SameExceptIndexes(begin, engine.items)
    }

    /** The change set leads back to the beginning and forward again. */
    ghost predicate Walked()
      reads this, engine
    {
      Walks(engine.schema, Begin(), engine.State(), changeSet)
    }

    /** What an operation did to the document it met. */
    ghost predicate Did(before: Doc, log: seq<Change>, request: Request, ok: bool)
      reads this, engine
    {
      && (ok <==> Perform(engine.schema, before, request).Some?)
      && (ok ==>
            && Valid() && state == Active && Some(engine.State()) == Perform(engine.schema, before, request)
            && changeSet == log + [Recorded(engine.schema, before, request)]
            && (Walks(engine.schema, Begin(), before, log) ==> Walked()))
      && (!ok ==> GivenUp())
    }

    lemma DidOneMore(before: Doc, log: seq<Change>, request: Request)
      requires Some(engine.State()) == Perform(engine.schema, before, request)
      requires Allowed(engine.schema, before, request) && changeSet == log + [Recorded(engine.schema, before, request)]
      ensures Walks(engine.schema, Begin(), before, log) ==> Walked()
    {
      if Walks(engine.schema, Begin(), before, log) {
        WalkOn(engine.schema, Begin(), before, log, request);
      }
    }

    /** `recordRollbackItem`. */
    method RecordItem(id: ItemId)
      requires Valid()
      modifies this`rollbackItems
      ensures Valid() && rollbackItems.Keys == old(rollbackItems).Keys + {id}
    {
      if id !in rollbackItems {
        SaveItem(engine.schema, begin, beginGroups, engine.items, engine.listGroups, rollbackItems, rollbackListGroups, id);
        rollbackItems := rollbackItems[id := if id in engine.items then Some(engine.items[id]) else None];
      }
    }

    /** `recordRollbackListGroup`. */
    method RecordListGroup(key: GroupKey)
      requires Valid()
      modifies this`rollbackListGroups
      ensures Valid() && key in rollbackListGroups && old(rollbackListGroups).Keys <= rollbackListGroups.Keys
    {
      if key !in rollbackListGroups {
        SaveGroup(engine.schema, begin, beginGroups, engine.items, engine.listGroups, rollbackItems, rollbackListGroups, key);
        rollbackListGroups :=
          rollbackListGroups[key := if key in engine.listGroups then Some(engine.listGroups[key]) else None];
      }
    }

    /** `recordRollbackForSnapshotInsert` and `recordRollbackForSnapshotRemove`. */
    method RecordSnapshot(id: ItemId, item: Item)
      requires Valid()
      modifies this`rollbackItems, this`rollbackListGroups
      ensures Valid() && id in rollbackItems && (GroupOf(engine.schema, item).Some? ==> GroupOf(engine.schema, item).value in rollbackListGroups)
      ensures rollbackItems.Keys == old(rollbackItems).Keys + {id} && old(rollbackListGroups).Keys <= rollbackListGroups.Keys
    {
      hide Valid;
      RecordItem(id);
      if GroupOf(engine.schema, item).Some? {
        RecordListGroup(GroupOf(engine.schema, item).value);
      }
    }

    /** `recordRollbackForSnapshotsRemove`: the items, and every list that holds one of them. */
    method RecordRemovals(ids: seq<ItemId>)
      requires Valid()
      modifies this`rollbackItems, this`rollbackListGroups
      ensures Valid() && SetOf(ids) <= rollbackItems.Keys
      ensures forall key, i :: 0 <= i < |At(engine.listGroups, key)| && At(engine.listGroups, key)[i] in ids ==> key in rollbackListGroups
    {
      hide Valid;
      for i := 0 to |ids|
        invariant Valid() && forall j :: 0 <= j < i ==> ids[j] in rollbackItems
      {
        RecordItem(ids[i]);
      }
      var keys := engine.listGroups.Keys;
      while keys != {}
        invariant Valid() && keys <= engine.listGroups.Keys && forall j :: 0 <= j < |ids| ==> ids[j] in rollbackItems
        invariant forall key, i :: key !in keys && 0 <= i < |At(engine.listGroups, key)| && At(engine.listGroups, key)[i] in ids ==>
                    key in rollbackListGroups
        decreases keys
      {
        var key :| key in keys;
        keys := keys - {key};
        var group := engine.listGroups[key];
        if exists i :: 0 <= i < |group| && group[i] in ids {
          RecordListGroup(key);
        }
      }
    }

    /** `restoreRollbackJournal`. */
    method RestoreJournal()
      modifies engine
      ensures forall id :: Held(engine.items, id) == Back(old(engine.items), rollbackItems, id)
      ensures forall key :: Held(engine.listGroups, key) == Back(old(engine.listGroups), rollbackListGroups, key)
    {
      ghost var now, groups := engine.items, engine.listGroups;
      var ids := rollbackItems.Keys;
      while ids != {}
        invariant ids <= rollbackItems.Keys && engine.listGroups == groups
        invariant forall id :: Held(engine.items, id) == if id in ids then Held(now, id) else Back(now, rollbackItems, id)
        decreases ids
      {
        var id :| id in ids;
        ids := ids - {id};
        ghost var was := engine.items;
        match rollbackItems[id]
        case Some(item) => engine.items := engine.items[id := item];
        case None => engine.items := engine.items - {id};
        assert forall x :: x != id ==> Held(engine.items, x) == Held(was, x);
      }
      var keys := rollbackListGroups.Keys;
      ghost var restored := engine.items;
      while keys != {}
        invariant keys <= rollbackListGroups.Keys && engine.items == restored
        invariant forall key :: Held(engine.listGroups, key) == if key in keys then Held(groups, key) else Back(groups, rollbackListGroups, key)
        decreases keys
      {
        var key :| key in keys;
        keys := keys - {key};
        ghost var was := engine.listGroups;
        match rollbackListGroups[key]
        case Some(group) => engine.listGroups := engine.listGroups[key := group];
        case None => engine.listGroups := engine.listGroups - {key};
        assert forall k :: k != key ==> Held(engine.listGroups, k) == Held(was, k);
      }
    }

    /** `markFailed`, with `restoreRollbackJournal`. */
    method MarkFailed()
      requires Recoverable() && state == Active
      modifies this`state, engine
      ensures GivenUp()
      ensures engine.items == begin <==> old(ExactlyRestorable(engine.items, rollbackItems, rollbackListGroups))
      ensures forall id :: Held(engine.items, id) == Back(old(engine.items), rollbackItems, id)
    {
      hide Covers, DriftsInSavedLists, InOrder, ExactlyRestorable;
      ghost var now, groups := engine.items, engine.listGroups;
      state := Failed;
      RestoreJournal();
      RestoredIsBegin(engine.schema, begin, beginGroups, now, groups, rollbackItems, rollbackListGroups, engine.items, engine.listGroups);
      RestoredExactlyIff(engine.schema, begin, beginGroups, now, groups, rollbackItems, rollbackListGroups, engine.items);
    }

    /** An insertion, checked, saved for rollback, stored and recorded. */
    method InsertNew(id: ItemId, item: Item, change: Change) returns (ok: bool)
      requires Valid() && state == Active && id !in engine.items && AsksRightly(engine.schema, item)
      modifies this, engine
      ensures ok <==> InsertItem(engine.schema, old(engine.State()), id, item).Some?
      ensures ok ==> Valid() && state == Active && Some(engine.State()) == InsertItem(engine.schema, old(engine.State()), id, item)
      ensures ok ==> changeSet == old(changeSet) + [change] && rollbackItems.Keys == old(rollbackItems).Keys + {id}
      ensures !ok ==> GivenUp()
    {
      hide Covers, DriftsInSavedLists, InOrder, Accepts, InsertIntoGroup, ExactlyRestorable, AsksRightly, GroupOf;
      ghost var before, now, groups := engine.State(), engine.items, engine.listGroups;
      ok := engine.Validate(id, item, None);
      if ok {
        RecordSnapshot(id, item);
        ok := engine.InsertSnapshot(id, item);
        if ok {
          InsertInOrder(engine.schema, before, id, item);
        }
        OnlyOneChanged(engine.schema, now, groups, engine.items, engine.listGroups, id, item, rollbackItems, rollbackListGroups);
        Touch(engine.schema, begin, beginGroups, now, groups, engine.items, engine.listGroups, rollbackItems, rollbackListGroups, {});
      }
      if ok {
        changeSet := changeSet + [change];
      } else {
        MarkFailed();
      }
    }

    /** Into a table (`insert`). */
    method Insert(id: ItemId, container: ContainerId, parent: Option<ItemId>, values: Cells) returns (ok: bool)
      requires Valid() && state == Active && id !in engine.items
      modifies this, engine
      ensures Did(old(engine.State()), old(changeSet), InsertRow(id, container, parent, values), ok)
      ensures ok ==>
                && engine.items == old(engine.items)[id := Item(container, parent, values, None)]
                && (forall key :: At(engine.listGroups, key) == At(old(engine.listGroups), key))
                && changeSet == old(changeSet) + [ItemInserted(id, Item(container, parent, values, None))]
      ensures Sound(engine.schema, old(engine.items)) ==>
                (ok <==>
                   && container in engine.schema && !engine.schema[container].isList && CellsFit(engine.schema[container], values)
                   && OwnerFits(engine.schema, old(engine.items), container, parent)
                   && CellsFree(engine.schema, old(engine.items), id, container, parent, values))
    {
      hide Valid, InsertItem, Accepts, Walks, CellsFit, OwnerFits, CellsFree, Sound;
      ghost var before, log := engine.State(), changeSet;
      ghost var request := InsertRow(id, container, parent, values);
      RowInserted(engine.schema, before, id, container, parent, values);
      if container !in engine.schema || engine.schema[container].isList {
        ValidRecovers();
        MarkFailed();
        return false;
      }
      BuiltAsksRightly(engine.schema, engine.State(), request);
      var item := Item(container, parent, values, None);
      ok := InsertNew(id, item, ItemInserted(id, item));
      if ok {
        DidOneMore(before, log, request);
      }
    }

    /** Into a list (`insert` with a position). */
    method InsertAtPosition(id: ItemId, container: ContainerId, parent: Option<ItemId>, index: nat, values: Cells) returns (ok: bool)
      requires Valid() && state == Active && id !in engine.items
      modifies this, engine
      ensures Did(old(engine.State()), old(changeSet), InsertInList(id, container, parent, index, values), ok)
      ensures ok ==>
                && id in engine.items && engine.items[id] == Item(container, parent, values, if parent.Some? then Some(index) else None)
                && OnlyThis(old(engine.items), engine.items, id)
                && (parent.Some? ==>
                      var list := At(old(engine.listGroups), GroupKey(container, parent.value));
                      && index <= |list| && At(engine.listGroups, GroupKey(container, parent.value)) == list[..index] + [id] + list[index..]
                      && changeSet == old(changeSet) + [ListInserted(GroupKey(container, parent.value), index, id, engine.items[id])])
                && (parent.None? ==> changeSet == old(changeSet) + [ItemInserted(id, engine.items[id])])
                && forall key :: parent.None? || key != GroupKey(container, parent.value) ==>
                     At(engine.listGroups, key) == At(old(engine.listGroups), key)
      ensures Sound(engine.schema, old(engine.items)) ==>
                (ok <==>
                   && container in engine.schema && engine.schema[container].isList && engine.schema[container].target.Some?
                   && index <= (if parent.Some? then |At(old(engine.listGroups), GroupKey(container, parent.value))| else 0)
                   && CellsFit(engine.schema[container], values) && OwnerFits(engine.schema, old(engine.items), container, parent)
                   && CellsFree(engine.schema, old(engine.items), id, container, parent, values))
      ensures ok ==> rollbackItems.Keys == old(rollbackItems).Keys + {id}
    {
      hide InsertItem, Accepts, Walks, CellsFit, OwnerFits, CellsFree, OnlyThis, Sound, InOrder, Covers, DriftsInSavedLists;
      ghost var before, log := engine.State(), changeSet;
      ghost var request := InsertInList(id, container, parent, index, values);
      ListItemInserted(engine.schema, before, id, container, parent, index, values);
      var groupSize := if parent.Some? then |At(engine.listGroups, GroupKey(container, parent.value))| else 0;
      if container !in engine.schema || !engine.schema[container].isList || engine.schema[container].target.None? || index > groupSize {
        ValidRecovers();
        MarkFailed();
        return false;
      }
      BuiltAsksRightly(engine.schema, engine.State(), request);
      var item := Item(container, parent, values, if parent.Some? then Some(index) else None);
      ok := InsertNew(id, item,
        if parent.Some? then ListInserted(GroupKey(container, parent.value), index, id, item) else ItemInserted(id, item));
      if ok {
        DidOneMore(before, log, request);
      }
    }

    /** Replaces a stored item: checked, saved for rollback, moved between lists, recorded. */
    method ReplaceStored(id: ItemId, item: Item, changes: seq<Change>) returns (ok: bool)
      requires Valid() && state == Active && id in engine.items && AsksRightly(engine.schema, item)
      modifies this, engine
      ensures ok <==> UpdateItem(engine.schema, old(engine.State()), id, item).Some?
      ensures ok ==> Valid() && state == Active && Some(engine.State()) == UpdateItem(engine.schema, old(engine.State()), id, item)
      ensures ok ==> changeSet == old(changeSet) + changes
      ensures !ok ==> GivenUp()
    {
      hide Covers, DriftsInSavedLists, InOrder, Accepts, InsertIntoGroup, RemoveFromGroup, ExactlyRestorable, AsksRightly, GroupOf;
      var was := engine.items[id];
      ghost var before, now, groups := engine.State(), engine.items, engine.listGroups;
      ok := engine.Validate(id, item, Some(was));
      if ok {
        RecordSnapshot(id, was);
        RecordSnapshot(id, item);
        ok := engine.MoveAndStore(id, item);
        if ok {
          UpdateInOrder(engine.schema, before, id, item);
        } else {
          RemoveKeepsOrder(engine.schema, before, id);
        }
        TwoListsChanged(engine.schema, now, groups, engine.items, engine.listGroups, id, item, rollbackItems, rollbackListGroups);
        Touch(engine.schema, begin, beginGroups, now, groups, engine.items, engine.listGroups, rollbackItems, rollbackListGroups,
              if ok then {} else {id});
      }
      if ok {
        changeSet := changeSet + changes;
      } else {
        MarkFailed();
      }
    }

    /** `update` of a plain column. */
    method Update(id: ItemId, column: ColumnId, v: Value) returns (ok: bool)
      requires Valid() && state == Active
      modifies this, engine
      ensures Did(old(engine.State()), old(changeSet), SetValue(id, column, v), ok)
      ensures ok ==>
                && id in old(engine.items)
                && engine.items == old(engine.items)[id := old(engine.items)[id].(values :=
                     if v == Null then old(engine.items)[id].values - {column} else old(engine.items)[id].values[column := v])]
                && (forall key :: At(engine.listGroups, key) == At(old(engine.listGroups), key))
                && changeSet == old(changeSet) + [ColumnUpdated(id, column, Held(old(engine.items)[id].values, column).GetOr(Null), v)]
      ensures Sound(engine.schema, old(engine.items)) ==>
                (ok <==>
                   && id in old(engine.items) && old(engine.items)[id].container in engine.schema
                   && column in engine.schema[old(engine.items)[id].container].columns
                   && (if v == Null then engine.schema[old(engine.items)[id].container].columns[column].nullable
                       else Tag(v) == engine.schema[old(engine.items)[id].container].columns[column].tag)
                   && CellFree(engine.schema, old(engine.items), id, old(engine.items)[id].container, old(engine.items)[id].parent, column,
                               if v == Null then None else Some(v)))
    {
      hide UpdateItem, Accepts, InOrder, Covers, DriftsInSavedLists, Walks, CellFree, Sound;
      ghost var before, log := engine.State(), changeSet;
      ValueSet(engine.schema, before, id, column, v);
      if id !in engine.items || engine.items[id].container !in engine.schema
        || column !in engine.schema[engine.items[id].container].columns {
        MarkFailed();
        return false;
      }
      var was := engine.items[id];
      OrderedAsksRightly(engine.schema, engine.State(), id);
      var item := was.(values := SetCell(was.values, column, v));
      ok := ReplaceStored(id, item, [ColumnUpdated(id, column, ValueAt(was, column), v)]);
      if ok {
        DidOneMore(before, log, SetValue(id, column, v));
      }
    }

    /** `update` of the relation column. */
    method UpdateParent(id: ItemId, parent: Option<ItemId>, targetIndex: Option<nat>) returns (ok: bool)
      requires Valid() && state == Active
      modifies this, engine
      ensures Did(old(engine.State()), old(changeSet), SetParent(id, parent, targetIndex), ok)
      ensures ok ==>
                && id in old(engine.items) && old(engine.items)[id].container in engine.schema && id in engine.items
                && engine.items[id].container == old(engine.items)[id].container && engine.items[id].parent == parent
                && engine.items[id].values == old(engine.items)[id].values && OnlyThis(old(engine.items), engine.items, id)
                && (if engine.schema[old(engine.items)[id].container].isList
                    then ListsMoved(old(engine.State()).groups, engine.State().groups, id, old(engine.items)[id].container,
                                    old(engine.items)[id].parent, old(engine.items)[id].listIndex,
                                    parent, if parent.Some? then targetIndex else None)
                    else forall key :: At(engine.listGroups, key) == At(old(engine.listGroups), key))
                && changeSet == old(changeSet)
                     + [ParentUpdated(id, old(engine.items)[id].parent, parent, targetIndex, old(engine.items)[id].listIndex)]
      ensures Sound(engine.schema, old(engine.items)) ==>
                (ok <==>
                   && id in old(engine.items) && old(engine.items)[id].container in engine.schema
                   && engine.schema[old(engine.items)[id].container].target.Some?
                   && (engine.schema[old(engine.items)[id].container].isList && parent.Some? ==>
                         targetIndex.Some?
                         && targetIndex.value <= Room(old(engine.State()).groups, old(engine.items)[id].container, old(engine.items)[id].parent, parent.value))
                   && OwnerFits(engine.schema, old(engine.items), old(engine.items)[id].container, parent)
                   && !ParentChain.Visits(Parents(old(engine.items)), parent, id)
                   && CellsFree(engine.schema, old(engine.items), id, old(engine.items)[id].container, parent, old(engine.items)[id].values))
    {
      hide UpdateItem, Accepts, InOrder, Covers, DriftsInSavedLists, Walks, OwnerFits, CellsFree, OnlyThis, ListsMoved, Room, Sound,
        ParentChain.Visits;
      ghost var before, log := engine.State(), changeSet;
      ParentSet(engine.schema, before, id, parent, targetIndex);
      if id !in engine.items || Rehung(engine.schema, engine.items[id], parent, targetIndex).None? {
        MarkFailed();
        return false;
      }
      var was := engine.items[id];
      OrderedAsksRightly(engine.schema, engine.State(), id);
      var item := Rehung(engine.schema, was, parent, targetIndex).value;
      ok := ReplaceStored(id, item, [ParentUpdated(id, was.parent, parent, targetIndex, was.listIndex)]);
      if ok {
        DidOneMore(before, log, SetParent(id, parent, targetIndex));
      }
    }

    /** `update` of several columns at once. From a well-formed document its part of the change
        set leads there and back exactly when the way from the old owner to the new one is
        clear. */
    method UpdateColumns(id: ItemId, edits: seq<Edit>) returns (ok: bool)
      requires Valid() && state == Active
      modifies this, engine
      ensures ok <==> Joint(engine.schema, old(engine.State()), id, edits).Some?
      ensures ok ==> Valid() && state == Active && Some(engine.State()) == Joint(engine.schema, old(engine.State()), id, edits)
      ensures ok && edits != [] ==>
                && id in old(engine.items) && id in engine.items && AllSet(old(engine.items)[id], engine.items[id], edits)
                && OnlyThis(old(engine.items), engine.items, id)
      ensures Sound(engine.schema, old(engine.items)) && edits != [] ==>
                (ok ==> id in old(engine.items))
                && (id in old(engine.items) ==> forall now :: AllSet(old(engine.items)[id], now, edits) ==>
                      (ok <==>
                         && now.container in engine.schema && Apart(edits) && Legal(engine.schema, now.container, edits)
                         && CellsFit(engine.schema[now.container], now.values)
                         && OwnerFits(engine.schema, old(engine.items), now.container, now.parent)
                         && !ParentChain.Visits(Parents(old(engine.items)), now.parent, id)
                         && CellsFree(engine.schema, old(engine.items), id, now.container, now.parent, now.values)))
      ensures ok && edits == [] ==> changeSet == old(changeSet)
      ensures ok && edits != [] ==> changeSet == old(changeSet) + Records(id, old(engine.items)[id], edits)
      ensures ok && edits != [] && WellFormed(engine.schema, old(engine.State())) ==>
                && old(engine.items)[id].container in engine.schema
                && (Leads(engine.schema, old(engine.State()), engine.State(), Records(id, old(engine.items)[id], edits))
                    <==> ClearOnTheWay(engine.schema, old(engine.State()), id, edits))
                && (ClearOnTheWay(engine.schema, old(engine.State()), id, edits) && old(Walked()) ==> Walked())
      ensures !ok ==> GivenUp()
    {
      hide UpdateItem, Accepts, InOrder, Covers, DriftsInSavedLists, Walks, Leads, Edited, Apart, Records, ClearOnTheWay, WellFormed,
        AllSet, OnlyThis, Sound, Legal, CellsFit, OwnerFits, CellsFree, ParentChain.Visits;
      if edits == [] {
        return true;
      }
      if Sound(engine.schema, engine.items) && id in engine.items {
        forall now | AllSet(engine.items[id], now, edits)
          ensures Joint(engine.schema, engine.State(), id, edits).Some?
             <==> && now.container in engine.schema && Apart(edits) && Legal(engine.schema, now.container, edits)
                  && CellsFit(engine.schema[now.container], now.values)
                  && OwnerFits(engine.schema, engine.items, now.container, now.parent)
                  && !ParentChain.Visits(Parents(engine.items), now.parent, id)
                  && CellsFree(engine.schema, engine.items, id, now.container, now.parent, now.values)
        {
          JointAcceptedIff(engine.schema, engine.State(), id, edits, now);
        }
      }
      if id !in engine.items || !Apart(edits) || Edited(engine.schema, engine.items[id], edits).None? {
        MarkFailed();
        return false;
      }
      ghost var before, log, walked := engine.State(), changeSet, Walked();
      var was := engine.items[id];
      OrderedAsksRightly(engine.schema, engine.State(), id);
      EditedAsksRightly(engine.schema, was, edits);
      var item := Edited(engine.schema, was, edits).value;
      ok := ReplaceStored(id, item, Records(id, was, edits));
      if ok {
        JointSet(engine.schema, before, id, edits);
      }
      if ok && WellFormed(engine.schema, before) {
        JointLeadsIff(engine.schema, before, id, edits);
        JointReplayedIff(engine.schema, before, id, edits);
        if walked && ClearOnTheWay(engine.schema, before, id, edits) {
          WalksJoin(engine.schema, Begin(), before, engine.State(), log, Records(id, was, edits));
        }
      }
    }

    /** `rotate`. */
    method RotateAt(key: GroupKey, start: nat, count: nat, offset: int) returns (ok: bool)
      requires Valid() && state == Active
      modifies this, engine
      ensures Did(old(engine.State()), old(changeSet), Rotate(key, start, count, offset), ok)
      ensures ok <==> start + count <= |At(old(engine.listGroups), key)|
      ensures ok ==>
                && TurnedLeft(At(old(engine.listGroups), key), At(engine.listGroups, key), start, count, offset)
                && (forall other :: other != key ==> At(engine.listGroups, other) == At(old(engine.listGroups), other))
                && engine.items.Keys == old(engine.items).Keys
                && (forall x :: x in engine.items ==> SameFields(engine.items[x], old(engine.items)[x]))
                && changeSet == old(changeSet) + [ListRotated(key, start, count, offset)]
    {
      hide Covers, DriftsInSavedLists, InOrder, ExactlyRestorable, RotateGroup, Walks, TurnedLeft, SameFields;
      ghost var log := changeSet;
      TurnedRound(engine.schema, engine.State(), key, start, count, offset);
      ok := start + count <= |At(engine.listGroups, key)|;
      if !ok {
        MarkFailed();
        return;
      }
      ghost var before := engine.State();
      if count > 0 && key in engine.listGroups {
        RecordListGroup(key);
        ghost var now, groups := engine.items, engine.listGroups;
        engine.RotateListGroup(key, start, count, offset);
        RotateKeepsOrder(engine.schema, before, key, start, count, offset);
        OneListChanged(now, groups, engine.items, engine.listGroups, key, rollbackItems, rollbackListGroups);
        Touch(engine.schema, begin, beginGroups, now, groups, engine.items, engine.listGroups, rollbackItems, rollbackListGroups, {});
      } else {
        NothingToRotate(before, key, start, count, offset);
      }
      changeSet := changeSet + [ListRotated(key, start, count, offset)];
      DidOneMore(before, log, Rotate(key, start, count, offset));
    }

    /** `remove`: the item with everything below it. */
    method Remove(id: ItemId) returns (ok: bool, ghost order: seq<ItemId>)
      requires Valid() && state == Active && NoRounds(engine.items)
      modifies this, engine
      ensures ok <==> id in old(engine.items)
      ensures ok ==> Valid() && state == Active && Collected(old(engine.items), id, order) && forall x :: x in order ==> x in old(engine.items)
      ensures ok ==> engine.State() == EraseAll(engine.schema, old(engine.State()), SetOf(order))
                     && changeSet == old(changeSet) + CascadeChanges(old(engine.items), order)
      ensures ok ==>
                && (forall x :: x in order <==> x in old(engine.items) && ParentChain.Visits(Parents(old(engine.items)), Some(x), id))
                && engine.items.Keys == old(engine.items).Keys - SetOf(order)
                && (forall x :: x in engine.items ==> SameFields(engine.items[x], old(engine.items)[x]))
                && (forall key :: At(engine.listGroups, key) == Survivors(At(old(engine.listGroups), key), SetOf(order)))
                && |changeSet| == |old(changeSet)| + |order| && order != [] && order[0] == id
                && forall i :: 0 <= i < |order| ==>
                     changeSet[|old(changeSet)| + i] == if i == 0 then ItemRemoved(id, old(engine.items)[id])
                                                        else CascadeRemoved(order[i], old(engine.items)[order[i]], id)
      ensures ok && old(changeSet) == [] && WellFormed(engine.schema, old(engine.State())) ==>
                Leads(engine.schema, old(engine.State()), engine.State(), changeSet)
      ensures !ok ==> GivenUp()
    {
      hide Covers, DriftsInSavedLists, InOrder, ExactlyRestorable, EraseAll, Below, NoRounds, Survivors, Leads, WellFormed, Collected, SameFields,
        ParentChain.Visits;
      if id !in engine.items {
        MarkFailed();
        return false, [];
      }
      ghost var before := engine.State();
      var childrenByParent := engine.ChildrenByParent();
      var toRemove := engine.Collect(childrenByParent, id);
      CollectedAreItems(engine.items, id, toRemove);
      CollectedMeans(engine.items, id, toRemove);
      ManyTakenOut(engine.schema, before, SetOf(toRemove));
      var operationChange := CascadeChanges(engine.items, toRemove);
      EraseRecorded(toRemove);
      if changeSet == [] && WellFormed(engine.schema, before) {
        CascadeLeads(engine.schema, before, id, toRemove);
        assert changeSet + operationChange == operationChange;
      }
      changeSet := changeSet + operationChange;
      return true, toRemove;
    }

    /** Saves a batch of items and erases them. */
    method EraseRecorded(ids: seq<ItemId>)
      requires Valid() && state == Active
      modifies this`rollbackItems, this`rollbackListGroups, engine
      ensures Valid() && engine.State() == EraseAll(engine.schema, old(engine.State()), SetOf(ids))
    {
      hide Covers, DriftsInSavedLists, InOrder, EraseAll, Survivors;
      ghost var before := engine.State();
      RecordRemovals(ids);
      ghost var now, groups := engine.items, engine.listGroups;
      engine.EraseSnapshots(ids);
      EraseAllKeepsOrder(engine.schema, before, SetOf(ids));
      ManyRemoved(now, groups, engine.items, engine.listGroups, ids, rollbackItems, rollbackListGroups);
      Touch(engine.schema, begin, beginGroups, now, groups, engine.items, engine.listGroups, rollbackItems, rollbackListGroups, {});
    }

    /** `removeAt`: one item of a list, whatever hangs below it. An index out of range is
        refused without giving the transaction up. */
    method RemoveAtPosition(key: GroupKey, index: nat) returns (ok: bool)
      requires Valid() && state == Active
      modifies this, engine
      ensures Valid() && state == Active && (ok <==> index < |At(old(engine.listGroups), key)|)
      ensures !ok ==> engine.State() == old(engine.State()) && changeSet == old(changeSet)
      ensures ok ==> var id := At(old(engine.listGroups), key)[index];
                && id in old(engine.items)
                && engine.State() == EraseItem(engine.schema, old(engine.State()), id, old(engine.items)[id])
                && changeSet == old(changeSet) + [ListRemoved(key, index, id, old(engine.items)[id])]
                && engine.items.Keys == old(engine.items).Keys - {id}
                && (forall x :: x in engine.items ==> SameFields(engine.items[x], old(engine.items)[x]))
                && (forall k :: At(engine.listGroups, k) ==
                      var list := At(old(engine.listGroups), k); if k == key then list[..index] + list[index + 1..] else list)
                && (Childless(old(engine.items), id) ==> Did(old(engine.State()), old(changeSet), RemoveAtIndex(key, index), true))
      ensures old(NoRounds(engine.items)) ==> NoRounds(engine.items)
    {
      hide Covers, DriftsInSavedLists, InOrder, ExactlyRestorable, EraseItem, Walks, NoRounds, SameFields;
      ghost var log := changeSet;
      if index >= |At(engine.listGroups, key)| {
        return false;
      }
      ghost var before := engine.State();
      var id := engine.listGroups[key][index];
      ListHoldsGroup(engine.schema, before, {}, key);
      assert id in At(before.groups, key);
      MemberTakenOut(engine.schema, before, key, index);
      var snapshot := engine.items[id];
      RecordSnapshot(id, snapshot);
      ghost var now, groups := engine.items, engine.listGroups;
      engine.EraseSnapshot(id, snapshot);
      EraseKeepsOrder(engine.schema, before, id);
      if NoRounds(before.items) {
        EraseMakesNoRounds(engine.schema, before, id, snapshot);
      }
      OnlyOneChanged(engine.schema, now, groups, engine.items, engine.listGroups, id, snapshot, rollbackItems, rollbackListGroups);
      Touch(engine.schema, begin, beginGroups, now, groups, engine.items, engine.listGroups, rollbackItems, rollbackListGroups, {});
      changeSet := changeSet + [ListRemoved(key, index, id, snapshot)];
      if Childless(before.items, id) {
        DidOneMore(before, log, RemoveAtIndex(key, index));
      }
      ok := true;
    }

    /** `commit`. */
    method Commit() returns (committed: seq<Change>)
      requires state == Active
      modifies this`state
      ensures state == Committed && committed == changeSet
    {
      state := Committed;
      committed := changeSet;
    }

    /** `rollback`: replays the inverse, if the failure has not put everything back already.
        A replay that fails leaves what was saved as it was saved. */
    method Rollback() returns (ok: bool)
      requires state == Active || state == Failed
      requires forall i :: 0 <= i < |changeSet| && Removes(changeSet[i]) ==> changeSet[i].id < RadixSort.IDS
      modifies this`state, engine
      ensures old(state) == Failed ==> ok && engine.items == old(engine.items) && engine.listGroups == old(engine.listGroups)
      ensures old(state) == Active && Leads(engine.schema, Begin(), old(engine.State()), changeSet) ==> ok && engine.State() == Begin()
      ensures if ok then state == RolledBack
              else state == Active
                   && (forall id :: id in rollbackItems ==> Held(engine.items, id) == rollbackItems[id])
                   && (forall key :: key in rollbackListGroups ==> Held(engine.listGroups, key) == rollbackListGroups[key])
    {
      hide Smooth, Replayed;
      if state == Failed {
        state := RolledBack;
        return true;
      }
      var inverse := Invert(changeSet);
      ok := engine.ApplyChangeSet(inverse);
      if ok {
        state := RolledBack;
      } else {
        RestoreJournal();
      }
    }

    lemma ValidRecovers()
      requires Valid()
      ensures Recoverable()
    {
    }
  }

  /** Storing or dropping one item touches that item and its list. */
  lemma OnlyOneChanged(schema: Schema, now: Items, groups: Groups, now': Items, groups': Groups, id: ItemId, item: Item,
                       saved: ItemJournal, savedGroups: GroupJournal)
    requires forall x :: x != id ==> (x in now' <==> x in now) && (x in now' ==> SameBare(now'[x], now[x]))
    requires OnlyGroupChanged(groups, groups', GroupOf(schema, item))
    requires id in saved && (GroupOf(schema, item).Some? ==> GroupOf(schema, item).value in savedGroups)
    ensures OnlySavedChanged(now, groups, now', groups', saved, savedGroups)
  {
    hide GroupOf;
    forall key | key !in savedGroups
      ensures Held(groups, key) == Held(groups', key)
    {
      assert At(groups, key) == At(groups', key);
    }
  }

  lemma InsertInOrder(schema: Schema, doc: Doc, id: ItemId, item: Item)
    requires InOrder(schema, doc, {}) && id !in doc.items && AsksRightly(schema, item) && InsertItem(schema, doc, id, item).Some?
    ensures InOrder(schema, InsertItem(schema, doc, id, item).value, {})
  {
    hide InOrder, AsksRightly, InsertIntoGroup;
    NewIsSkipped(schema, doc, id);
    InsertKeepsOrder(schema, doc, id, item);
  }

  /** Replacing one item touches that item, the list it leaves and the list it joins. */
  lemma TwoListsChanged(schema: Schema, now: Items, groups: Groups, now': Items, groups': Groups, id: ItemId, item: Item,
                        saved: ItemJournal, savedGroups: GroupJournal)
    requires id in now && id in saved
    requires now'.Keys == now.Keys && forall x :: x in now' && x != id ==> SameBare(now'[x], now[x])
    requires forall key :: GroupOf(schema, now[id]) != Some(key) && GroupOf(schema, item) != Some(key) ==>
               (key in groups' <==> key in groups) && At(groups', key) == At(groups, key)
    requires GroupOf(schema, now[id]).Some? ==> GroupOf(schema, now[id]).value in savedGroups
    requires GroupOf(schema, item).Some? ==> GroupOf(schema, item).value in savedGroups
    ensures OnlySavedChanged(now, groups, now', groups', saved, savedGroups)
  {
    hide GroupOf;
    forall key | key !in savedGroups
      ensures Held(groups, key) == Held(groups', key)
    {
      assert At(groups', key) == At(groups, key);
    }
  }

  lemma OneListChanged(now: Items, groups: Groups, now': Items, groups': Groups, key: GroupKey, saved: ItemJournal, savedGroups: GroupJournal)
    requires OnlyGroupChanged(groups, groups', Some(key)) && SameExceptIndexes(now, now') && key in savedGroups
    ensures OnlySavedChanged(now, groups, now', groups', saved, savedGroups)
  {
    forall k | k !in savedGroups
      ensures Held(groups, k) == Held(groups', k)
    {
      assert At(groups, k) == At(groups', k);
    }
  }

  /** Removing many items touches them and the lists that held one of them. */
  lemma ManyRemoved(now: Items, groups: Groups, now': Items, groups': Groups, ids: seq<ItemId>, saved: ItemJournal, savedGroups: GroupJournal)
    requires groups'.Keys == groups.Keys && forall key :: At(groups', key) == Survivors(At(groups, key), SetOf(ids))
    requires now'.Keys == now.Keys - SetOf(ids) && forall x :: x in now' ==> SameBare(now[x], now'[x])
    requires SetOf(ids) <= saved.Keys
    requires forall key, i :: 0 <= i < |At(groups, key)| && At(groups, key)[i] in ids ==> key in savedGroups
    ensures OnlySavedChanged(now, groups, now', groups', saved, savedGroups)
  {
    hide Survivors;
    forall key | key !in savedGroups
      ensures Held(groups, key) == Held(groups', key)
    {
      SurvivorsOfNone(At(groups, key), SetOf(ids));
      assert At(groups', key) == At(groups, key);
    }
    forall id | id !in saved
      ensures SameHeld(Held(now, id), Held(now', id))
    {
      assert id !in SetOf(ids);
    }
  }

  lemma UpdateInOrder(schema: Schema, doc: Doc, id: ItemId, item: Item)
    requires InOrder(schema, doc, {}) && id in doc.items && AsksRightly(schema, item) && UpdateItem(schema, doc, id, item).Some?
    ensures InOrder(schema, UpdateItem(schema, doc, id, item).value, {})
  {
    hide InOrder, AsksRightly, InsertIntoGroup, RemoveFromGroup, MembershipChanged, Accepts;
    if MembershipChanged(schema, doc.items[id], item) {
      RemoveKeepsOrder(schema, doc, id);
      InsertKeepsOrder(schema, RemoveFromGroup(schema, doc, id, doc.items[id]), id, item);
    } else {
      UpdateInPlaceInOrder(schema, doc, id, item);
    }
  }

  lemma NothingToRotate(doc: Doc, key: GroupKey, start: nat, count: nat, offset: int)
    requires start + count <= |At(doc.groups, key)| && (count == 0 || At(doc.groups, key) == [])
    ensures RotateGroup(doc, key, start, count, offset) == doc
  {
  }

  /** What is collected are the items whose chain of parents comes by the root. */
  lemma CollectedMeans(items: Items, root: ItemId, order: seq<ItemId>)
    requires Collected(items, root, order)
    ensures order != [] && order[0] == root
    ensures forall x :: x in order <==> x in items && ParentChain.Visits(Parents(items), Some(x), root)
  {
    hide ParentChain.Visits;
    forall x
      ensures x in order <==> x in items && ParentChain.Visits(Parents(items), Some(x), root)
    {
      assert x in order <==> x in SetOf(order);
    }
  }

  lemma CollectedAreItems(items: Items, root: ItemId, order: seq<ItemId>)
    requires Collected(items, root, order)
    ensures order != [] && forall x :: x in order ==> x in items
  {
    forall x | x in order
      ensures x in items
    {
      assert x in SetOf(order);
    }
  }

  /** Taking one item out of its list leaves a well-formed document exactly when nothing
      hangs below it. */
  lemma RemoveAtKeepsWellFormedIff(schema: Schema, doc: Doc, id: ItemId)
    requires WellFormed(schema, doc) && id in doc.items
    ensures WellFormed(schema, EraseItem(schema, doc, id, doc.items[id])) <==> Childless(doc.items, id)
  {
    hide InOrder, RemoveFromGroup;
    var d := EraseItem(schema, doc, id, doc.items[id]);
    if Childless(doc.items, id) {
      EraseOne(schema, doc, id);
    } else {
      var x :| x in doc.items && doc.items[x].parent == Some(id);
      ParentChain.RootedNeverReturns(Parents(doc.items), id, 0);
      EraseKeepsOrder(schema, doc, id);
      OrphanIsUntyped(schema, doc, d, id, x);
    }
  }

  lemma OrphanIsUntyped(schema: Schema, doc: Doc, d: Doc, id: ItemId, x: ItemId)
    requires Bare(d.items) == Bare(doc.items) - {id} && x in doc.items && doc.items[x].parent == Some(id) && x != id
    ensures !Typed(schema, d.items)
  {
    assert x in Bare(d.items) && id !in Bare(d.items);
    assert x in d.items && id !in d.items;
    assert Bare(d.items)[x] == Bare(doc.items)[x];
    SameBareFields(d.items[x], doc.items[x]);
    assert d.items[x].container in schema ==> !ParentFits(schema, d.items, d.items[x]);
  }

  const PLAIN: Container := Container(false, None, false, map[])
  const LISTED: Container := Container(true, Some(0), false, map[])
  const BELOW_LISTED: Container := Container(false, Some(1), false, map[])

  /** A table, lists below its items, and a table below theirs. */
  const Nested: Schema := map[0 := PLAIN, 1 := LISTED, 2 := BELOW_LISTED]

  const OWNER: Item := Item(0, None, map[], None)
  const MEMBER: Item := Item(1, Some(7), map[], Some(0))
  const LEAF: Item := Item(2, Some(1), map[], None)

  /** Item 7 owns a list that holds item 1, which item 3 hangs under. */
  const Family: Doc := Doc(map[7 := OWNER, 1 := MEMBER, 3 := LEAF], map[GroupKey(1, 7) := [1]])

  lemma FamilyIsForest()
    ensures Forest(Family.items)
  {
    var items := Family.items;
    var parents := Parents(items);
    assert items[7] == OWNER && items[1] == MEMBER && items[3] == LEAF;
    assert parents[7] == None && parents[1] == Some(7) && parents[3] == Some(1);
    assert ParentChain.Climb(parents, Some(7), 0) == ParentChain.At(7);
    assert ParentChain.Climb(parents, Some(7), 1) == ParentChain.Top;
    assert ParentChain.Rooted(parents, Some(7));
    ParentChain.RootedOneUp(parents, 1);
    ParentChain.RootedOneUp(parents, 3);
  }

  lemma FamilyIsInOrder()
    ensures InOrder(Nested, Family, {})
  {
    var items := Family.items;
    assert items[7] == OWNER && items[1] == MEMBER && items[3] == LEAF;
    assert Nested[0] == PLAIN && Nested[1] == LISTED && Nested[2] == BELOW_LISTED;
    forall key, i | 0 <= i < |At(Family.groups, key)|
      ensures SlotOk(Nested, Family, key, i)
    {
      assert key == GroupKey(1, 7) && At(Family.groups, key) == [1];
    }
  }

  lemma FamilyIsWellFormed()
    ensures WellFormed(Nested, Family)
  {
    hide Forest, InOrder;
    var items := Family.items;
    FamilyIsForest();
    FamilyIsInOrder();
    assert items[7] == OWNER && items[1] == MEMBER && items[3] == LEAF;
    assert Nested[0] == PLAIN && Nested[1] == LISTED && Nested[2] == BELOW_LISTED;
    assert Typed(Nested, items) && Unique(Nested, items);
  }

  /** Removed by position, the member leaves what hung under it behind. */
  lemma RemoveAtLeavesAnOrphan()
    ensures WellFormed(Nested, Family) && At(Family.groups, GroupKey(1, 7)) == [1]
    ensures !WellFormed(Nested, EraseItem(Nested, Family, 1, MEMBER))
  {
    FamilyIsWellFormed();
    assert Family.items[1] == MEMBER && Family.items[3] == LEAF;
    RemoveAtKeepsWellFormedIff(Nested, Family, 1);
  }

  /** A failed transaction that inserted at the front of a list of one: the list is as before,
      but its member still has the position it was pushed to. */
  method RollbackLeavesPositions() returns (engine: DocumentEngine, transaction: Transaction)
    ensures engine.listGroups == map[GroupKey(1, 7) := [1]] && transaction.state == Failed
    ensures 1 in engine.items && engine.items[1] == MEMBER.(listIndex := Some(1))
  {
    hide Perform, Walks, Covers, DriftsInSavedLists, InOrder, ExactlyRestorable, WellFormed, Allowed, Recorded;
    engine := new DocumentEngine(Nested);
    engine.items, engine.listGroups := Family.items, Family.groups;
    assert engine.State() == Family;
    FamilyIsWellFormed();
    WellFormedInOrder(Nested, Family);
    transaction := new Transaction(engine);
    PushedBack();
    var ok := transaction.InsertAtPosition(2, 1, Some(7), 0, map[]);
    transaction.MarkFailed();
    assert Held(engine.items, 1) == Some(MEMBER.(listIndex := Some(1)));
  }

  lemma PushedBack()
    ensures var pushed := Perform(Nested, Family, InsertInList(2, 1, Some(7), 0, map[]));
            pushed.Some? && 1 in pushed.value.items && pushed.value.items[1] == MEMBER.(listIndex := Some(1))
  {
    var request := InsertInList(2, 1, Some(7), 0, map[]);
    var item := Built(request);
    var key, items := GroupKey(1, 7), Family.items;
    assert Nested[1] == LISTED && items[7] == OWNER && items[1] == MEMBER;
    var parents := Parents(items);
    assert ParentChain.Climb(parents, Some(7), 0) == ParentChain.At(7);
    assert ParentChain.Climb(parents, Some(7), 1) == ParentChain.Top;
    assert ParentChain.EndsWithout(parents, 2, Some(7), ParentChain.Top);
    assert Accepts(Nested, items, 2, item, None);
    assert At(Family.groups, key) == [1] && Place([1], Insert(2, Some(0))) == [2, 1];
    assert Reindexed(items[1 := MEMBER.(listIndex := Some(1))], [2, 1], 2) == items[1 := MEMBER.(listIndex := Some(1))];
    assert Reindexed(items, [2, 1], 1) == items[1 := MEMBER.(listIndex := Some(1))];
  }
}
