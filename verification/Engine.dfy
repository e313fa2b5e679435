/** The engine's state and the operations that change it in place (`DocumentEngine::Impl`,
    src/engine.cpp:380-467, 1222-1302, 1594-1813). */
module Engine {
  import opened Wrappers
  import opened Sequences
  import opened Values
  import opened ListInserts
  import opened GroupPlanner
  import opened Documents
  import opened DocumentLists
  import opened DocumentItems
  import opened Changes
  import opened Undo
  import opened Batches
  import opened Replay
  import opened Cascade
  import opened ListRefresh
  import RadixSort
  import opened BatchOrder
  import opened SmoothReplay
  import opened Subtrees
  import opened Restore
  import P = ParentChain

  /** The engine keeps a group whose list has run empty; a document leaves it out. */
  function WithoutEmpties(groups: Groups): (r: Groups)
    ensures NoEmpties(r) && forall key :: At(r, key) == At(groups, key)
  {
    map key | key in groups && groups[key] != [] :: groups[key]
  }

  lemma Stored(groups: Groups, key: GroupKey, list: seq<ItemId>)
    ensures forall k :: At(groups[key := list], k) == if k == key then list else At(groups, k)
    ensures key in groups ==> At(groups, key) == groups[key]
  {
    var after := groups[key := list];
    forall k
      ensures At(after, k) == if k == key then list else At(groups, k)
    {
      assert k in after <==> k in groups || k == key;
    }
  }

  lemma StoredList(groups: Groups, key: GroupKey, list: seq<ItemId>)
    ensures WithoutEmpties(groups[key := list]) == Put(WithoutEmpties(groups), key, list)
  {
  }

  class DocumentEngine {
    const schema: Schema
    var items: Items
    var listGroups: Groups

    constructor (schema: Schema)
      ensures this.schema == schema && items == map[] && listGroups == map[]
    {
      this.schema, items, listGroups := schema, map[], map[];
    }

    /** The document the engine holds. */
    ghost function State(): Doc
      reads this
    {
      Doc(items, WithoutEmpties(listGroups))
    }

    /** `refreshListIndexes`. */
    method RefreshListIndexes(key: GroupKey, start: nat)
      modifies this`items
      ensures items == Reindexed(old(items), At(listGroups, key), start)
    {
      var list := At(listGroups, key);
      var i := start;
      while i < |list|
        invariant Reindexed(items, list, i) == Reindexed(old(items), list, start)
        decreases |list| - i
      {
        if list[i] in items {
          items := items[list[i] := items[list[i]].(listIndex := Some(i))];
        }
        i := i + 1;
      }
    }

    /** `std::find`. */
    method Find(list: seq<ItemId>, id: ItemId) returns (at: Option<nat>)
      ensures at == IndexOf(list, id)
    {
      var i := 0;
      assert list[0..] == list;
      while i < |list|
        invariant i <= |list|
        invariant IndexOf(list, id) == match IndexOf(list[i..], id) case None => None case Some(k) => Some(i + k)
      {
        assert list[i..][1..] == list[i + 1..];
        if list[i] == id {
          return Some(i);
        }
        i := i + 1;
      }
      at := None;
    }

    /** `removeFromListGroup`. */
    method RemoveFromListGroup(id: ItemId, item: Item)
      modifies this
      ensures State() == RemoveFromGroup(schema, old(State()), id, item)
      ensures OnlyGroupChanged(old(listGroups), listGroups, GroupOf(schema, item)) && SameExceptIndexes(old(items), items)
    {
      var group := GroupOf(schema, item);
      SameAsBefore(items);
      if group.None? || group.value !in listGroups {
        return;
      }
      var key, list := group.value, listGroups[group.value];
      var at := item.listIndex;
      if at.None? || at.value >= |list| || list[at.value] != id {
        at := Find(list, id);
        if at.None? {
          return;
        }
      }
      StoredList(listGroups, key, RemoveAt(list, at.value));
      listGroups := listGroups[key := RemoveAt(list, at.value)];
      RefreshListIndexes(key, at.value);
      ReindexedSame(old(items), RemoveAt(list, at.value), at.value);
    }

    /** `insertIntoListGroup`. It makes the group before it looks at the index. */
    method InsertIntoListGroup(id: ItemId, item: Item) returns (ok: bool)
      modifies this
      ensures ok <==> InsertIntoGroup(schema, old(State()), id, item).Some?
      ensures Some(State()) == if ok then InsertIntoGroup(schema, old(State()), id, item) else Some(old(State()))
      ensures OnlyGroupChanged(old(listGroups), listGroups, GroupOf(schema, item)) && SameExceptIndexes(old(items), items)
    {
      var group := GroupOf(schema, item);
      SameAsBefore(items);
      if group.None? {
        return true;
      }
      var key := group.value;
      if key !in listGroups {
        listGroups := listGroups[key := []];
      }
      var list := listGroups[key];
      assert WithoutEmpties(listGroups) == WithoutEmpties(old(listGroups));
      var index := item.listIndex.GetOr(|list|);
      if index > |list| {
        return false;
      }
      StoredList(listGroups, key, InsertAt(list, index, id));
      listGroups := listGroups[key := InsertAt(list, index, id)];
      RefreshListIndexes(key, index + 1);
      ReindexedSame(old(items), InsertAt(list, index, id), index + 1);
      ok := true;
    }

    /** `updateListGroup`, and then the new item in its place. */
    method MoveAndStore(id: ItemId, item: Item) returns (ok: bool)
      requires id in items
      modifies this
      ensures var was := old(items)[id];
              var moved := InsertIntoGroup(schema, RemoveFromGroup(schema, old(State()), id, was), id, item);
              && (ok <==> !MembershipChanged(schema, was, item) || moved.Some?)
              && (ok ==> State() == if MembershipChanged(schema, was, item) then Doc(moved.value.items[id := item], moved.value.groups)
                                    else Doc(old(items)[id := item], old(State()).groups))
              && (!ok ==> State() == RemoveFromGroup(schema, old(State()), id, was))
      ensures forall key :: GroupOf(schema, old(items)[id]) != Some(key) && GroupOf(schema, item) != Some(key) ==>
                (key in listGroups <==> key in old(listGroups)) && At(listGroups, key) == At(old(listGroups), key)
      ensures items.Keys == old(items).Keys && forall x :: x in items && x != id ==> SameBare(items[x], old(items)[x])
    {
      var was := items[id];
      if MembershipChanged(schema, was, item) {
        RemoveFromListGroup(id, was);
        ok := InsertIntoListGroup(id, item);
        if !ok {
          return;
        }
      }
      items := items[id := item];
      ok := true;
    }

    /** `validateSnapshot`. */
    method Validate(id: ItemId, item: Item, previous: Option<Item>) returns (ok: bool)
      ensures ok <==> Accepts(schema, items, id, item, previous)
    {
      if item.container !in schema || !ValuesFit(schema[item.container], item) || !ParentFits(schema, items, item) {
        return false;
      }
      var verdict := P.EnsureNoCycle(Parents(items), id, item.parent);
      ok := verdict == P.Fine && UniqueFor(schema, items, id, item, previous);
    }

    /** `insertSnapshot`. */
    method InsertSnapshot(id: ItemId, item: Item) returns (ok: bool)
      modifies this
      ensures ok <==> InsertItem(schema, old(State()), id, item).Some?
      ensures Some(State()) == if ok then InsertItem(schema, old(State()), id, item) else Some(old(State()))
      ensures OnlyGroupChanged(old(listGroups), listGroups, GroupOf(schema, item))
      ensures forall x :: x != id ==> (x in items <==> x in old(items)) && (x in items ==> SameBare(items[x], old(items)[x]))
    {
      SameAsBefore(items);
      ok := Validate(id, item, None);
      if ok {
        ok := InsertIntoListGroup(id, item);
        if ok {
          items := items[id := item];
        }
      }
    }

    /** `eraseSnapshot`. */
    method EraseSnapshot(id: ItemId, item: Item)
      modifies this
      ensures State() == EraseItem(schema, old(State()), id, item)
      ensures OnlyGroupChanged(old(listGroups), listGroups, GroupOf(schema, item))
      ensures forall x :: x != id ==> (x in items <==> x in old(items)) && (x in items ==> SameBare(items[x], old(items)[x]))
    {
      RemoveFromListGroup(id, item);
      items := items - {id};
    }

    /** The rotation of a stored list. */
    method RotateListGroup(key: GroupKey, start: nat, count: nat, offset: int)
      modifies this
      ensures State() == RotateGroup(old(State()), key, start, count, offset)
      ensures OnlyGroupChanged(old(listGroups), listGroups, Some(key)) && SameExceptIndexes(old(items), items)
    {
      SameAsBefore(items);
      var list := At(listGroups, key);
      if count > 0 && start + count <= |list| {
        var rotated := RotateList(list, start, count, offset);
        StoredList(listGroups, key, rotated);
        listGroups := listGroups[key := rotated];
        RefreshListIndexes(key, start);
        ReindexedSame(old(items), rotated, start);
      }
    }

    /** `applyOperation`. */
    method ApplyOperation(change: Change) returns (ok: bool)
      modifies this
      ensures ok <==> Apply(schema, old(State()), change).Some?
      ensures ok ==> Apply(schema, old(State()), change) == Some(State())
      ensures !ok ==> State() == Refused(schema, old(State()), change)
    {
      match change
      case ItemInserted(id, item) => ok := InsertSnapshot(id, item);
      case ListInserted(_, _, id, item) => ok := InsertSnapshot(id, item);
      case ItemRemoved(id, item) => EraseSnapshot(id, item); ok := true;
      case CascadeRemoved(id, item, _) => EraseSnapshot(id, item); ok := true;
      case ListRemoved(_, _, id, item) => EraseSnapshot(id, item); ok := true;
      case ColumnUpdated(id, column, _, v) =>
        if id !in items {
          return false;
        }
        ok := ReplaceItem(id, items[id].(values := SetCell(items[id].values, column, v)));
      case ParentUpdated(id, _, parent, targetIndex, _) =>
        if id !in items {
          return false;
        }
        var item := Rehung(schema, items[id], parent, targetIndex);
        if item.None? {
          return false;
        }
        ok := ReplaceItem(id, item.value);
      case ListRotated(key, start, count, offset) => RotateListGroup(key, start, count, offset); ok := true;
    }

    method ReplaceItem(id: ItemId, item: Item) returns (ok: bool)
      requires id in items
      modifies this
      ensures ok <==> UpdateItem(schema, old(State()), id, item).Some?
      ensures ok ==> UpdateItem(schema, old(State()), id, item) == Some(State())
      ensures !ok ==> State() == RefusedItem(schema, old(State()), id, item)
    {
      ok := Validate(id, item, Some(items[id]));
      if ok {
        ok := MoveAndStore(id, item);
      }
    }

    // ----- Batches -----

    /** Writes a whole list and its items' positions. */
    method RewriteList(key: GroupKey, list: seq<ItemId>)
      modifies this
      ensures listGroups == old(listGroups)[key := list] && items == Reindexed(old(items), list, 0)
      ensures SameExceptIndexes(old(items), items)
    {
      listGroups := listGroups[key := list];
      RefreshListIndexes(key, 0);
      ReindexedSame(old(items), list, 0);
    }

    /** Drops the removed ids from one list, and rewrites it if it loses someone. */
    method DropFromList(key: GroupKey, removed: set<ItemId>) returns (rewritten: bool)
      requires key in listGroups
      modifies this
      ensures listGroups == old(listGroups)[key := Survivors(old(listGroups)[key], removed)]
      ensures items == if rewritten then Reindexed(old(items), listGroups[key], 0) else old(items)
      ensures !rewritten ==> listGroups == old(listGroups)
      ensures SameExceptIndexes(old(items), items)
    {
      hide Survivors, Reindexed;
      SameAsBefore(items);
      var group := listGroups[key];
      var retained := Survivors(group, removed);
      KeptAll(group, removed);
      rewritten := |retained| != |group|;
      if rewritten {
        RewriteList(key, retained);
      }
    }

    /** The same for every list. */
    method DropFromLists(removed: set<ItemId>, ghost was: Doc, ghost goal: Groups) returns (ghost done: set<GroupKey>)
      requires was == Doc(items, WithoutEmpties(listGroups)) && goal == GroupSurvivors(was.groups, removed)
      modifies this
      ensures listGroups.Keys == old(listGroups).Keys && SameExceptIndexes(old(items), items)
      ensures forall key :: At(listGroups, key) == At(goal, key)
      ensures forall key :: key !in done ==> At(goal, key) == At(was.groups, key)
      ensures InOrder(schema, was, {}) ==> Refreshed(schema, was.items, items, goal, done)
    {
      hide *;
      var keys := listGroups.Keys;
      done := {};
      SurvivingGroups(listGroups, removed);
      NothingSurvives(listGroups, removed);
      NothingRefreshed(schema, items, goal);
      SameAsBefore(items);
      if InOrder(schema, was, {}) {
        AllSurvivorsHold(schema, was, removed);
      }
      while keys != {}
        invariant keys <= listGroups.Keys == old(listGroups).Keys
        invariant SameExceptIndexes(old(items), items)
        invariant forall key :: At(listGroups, key) == if key in keys then At(old(listGroups), key) else At(goal, key)
        invariant forall key :: key !in keys && key !in done ==> At(goal, key) == At(was.groups, key)
        invariant InOrder(schema, was, {}) ==> Refreshed(schema, was.items, items, goal, done)
        decreases keys
      {
        var key :| key in keys;
        keys := keys - {key};
        ghost var before := items;
        Stored(listGroups, key, Survivors(listGroups[key], removed));
        var rewritten := DropFromList(key, removed);
        SameThrice(old(items), before, items);
        if rewritten {
          if InOrder(schema, was, {}) {
            RefreshOne(schema, was.items, before, goal, done, key);
          }
          done := done + {key};
        }
      }
    }

    /** `eraseSnapshots`: rewrites the lists that lose someone, then drops the items. */
    method EraseSnapshots(ids: seq<ItemId>)
      modifies this
      ensures InOrder(schema, old(State()), {}) ==> State() == EraseAll(schema, old(State()), SetOf(ids))
      ensures listGroups.Keys == old(listGroups).Keys
      ensures forall key :: At(listGroups, key) == Survivors(At(old(listGroups), key), SetOf(ids))
      ensures items.Keys == old(items).Keys - SetOf(ids) && forall x :: x in items ==> SameBare(old(items)[x], items[x])
    {
      hide SameBare, Survivors, Refreshed, InOrder, GroupSurvivors, EraseAll;
      var removed := SetOf(ids);
      ghost var was := State();
      ghost var goal := GroupSurvivors(was.groups, removed);
      SurvivingGroups(listGroups, removed);
      ghost var done := DropFromLists(removed, was, goal);
      if InOrder(schema, was, {}) {
        RefreshedSameLists(schema, was.items, items, goal, WithoutEmpties(listGroups), done);
        ErasedAll(schema, was, items, WithoutEmpties(listGroups), done, removed);
      }
      items := items - removed;
    }

    /** The positions of a batch's ids, unless one is taken or comes twice. */
    method IndexById(snapshots: seq<Snapshot>) returns (fresh_: bool, positionById: map<ItemId, nat>)
      ensures fresh_ == FreshIds(items, snapshots)
      ensures fresh_ ==> Indexes(positionById, snapshots)
    {
      positionById := map[];
      for i := 0 to |snapshots|
        invariant FreshIds(items, snapshots[..i]) && Indexes(positionById, snapshots[..i])
      {
        if snapshots[i].id in items || snapshots[i].id in positionById {
          return false, positionById;
        }
        positionById := positionById[snapshots[i].id := i];
      }
      assert snapshots[..|snapshots|] == snapshots;
      fresh_ := true;
    }

    /** Takes the stored items out again, last first. */
    method RollBack(applied: seq<ItemId>)
      modifies this`items
      ensures items == old(items) - SetOf(applied)
    {
      var i: nat := |applied|;
      while i > 0
        invariant i <= |applied| && items == old(items) - SetOf(applied[i..])
      {
        i := i - 1;
        assert SetOf(applied[i..]) == {applied[i]} + SetOf(applied[i + 1..]);
        items := items - {applied[i]};
      }
      assert applied[0..] == applied;
    }

    /** Stores the waiting snapshots in passes, or none of them. */
    method AcceptPending(order: seq<Snapshot>) returns (ok: bool)
      requires FreshIds(items, order)
      modifies this`items
      ensures ok <==> AcceptAll(schema, old(items), order).Some?
      ensures Some(items) == if ok then AcceptAll(schema, old(items), order) else Some(old(items))
    {
      hide Accepts, AcceptPass;
      var pending := order;
      var applied: seq<ItemId> := [];
      while pending != []
        invariant AcceptAll(schema, items, pending) == AcceptAll(schema, old(items), order)
        invariant items - SetOf(applied) == old(items) && forall s :: s in pending ==> s.id !in old(items)
        decreases |pending|
      {
        AcceptAllStep(schema, items, pending);
        ghost var before := items;
        var remaining, stored := AcceptOnce(pending);
        TakenOut(items, before, old(items), applied, stored);
        applied := applied + stored;
        if |remaining| == |pending| {
          RollBack(applied);
          return false;
        }
        pending := remaining;
      }
      ok := true;
    }

    /** One pass. */
    method AcceptOnce(pending: seq<Snapshot>) returns (remaining: seq<Snapshot>, stored: seq<ItemId>)
      modifies this`items
      ensures (items, remaining) == AcceptPass(schema, old(items), pending)
      ensures forall s :: s in remaining ==> s in pending
      ensures forall x :: x in stored ==> exists s :: s in pending && s.id == x
      ensures items - SetOf(stored) == old(items) - SetOf(stored)
    {
      hide Accepts;
      remaining, stored := [], [];
      assert pending[0..] == pending;
      ghost var rest := AcceptPass(schema, items, pending).1;
      assert [] + rest == rest;
      for i := 0 to |pending|
        invariant var (s, r) := AcceptPass(schema, items, pending[i..]);
                  (s, remaining + r) == AcceptPass(schema, old(items), pending)
        invariant forall s :: s in remaining ==> s in pending
        invariant forall x :: x in stored ==> exists s :: s in pending && s.id == x
        invariant items - SetOf(stored) == old(items) - SetOf(stored)
      {
        var s := pending[i];
        assert pending[i..][1..] == pending[i + 1..];
        var ok := Validate(s.id, s.item, None);
        if ok {
          PutAndOut(items, stored, s.id, s.item);
          items := items[s.id := s.item];
          OneMoreOut(items, stored, s.id);
          OneMoreOut(old(items), stored, s.id);
          stored := stored + [s.id];
        } else {
          ghost var after := AcceptPass(schema, items, pending[i + 1..]).1;
          assert remaining + [s] + after == remaining + ([s] + after);
          remaining := remaining + [s];
        }
      }
      assert pending[|pending|..] == [];
      assert remaining + [] == remaining;
    }

    /** Writes the planned lists and the positions of their items. */
    method WritePlans(plans: Groups, ghost sure: bool)
      requires sure ==> forall key :: key in plans ==> Holds(schema, items, key, plans[key])
      modifies this
      ensures listGroups == old(listGroups) + plans && SameExceptIndexes(old(items), items)
      ensures sure ==> Refreshed(schema, old(items), items, plans, plans.Keys)
    {
      hide Refreshed, Holds, Reindexed;
      var keys := plans.Keys;
      assert plans.Keys - keys == {};
      NothingRefreshed(schema, items, plans);
      SameAsBefore(items);
      while keys != {}
        invariant keys <= plans.Keys && SameExceptIndexes(old(items), items)
        invariant forall key :: key in listGroups <==> key in old(listGroups) || (key in plans && key !in keys)
        invariant forall key :: key in listGroups ==>
                    listGroups[key] == if key in plans && key !in keys then plans[key] else old(listGroups)[key]
        invariant sure ==> Refreshed(schema, old(items), items, plans, plans.Keys - keys)
        decreases keys
      {
        var key :| key in keys;
        ghost var now := items;
        RewriteList(key, plans[key]);
        if sure {
          RefreshOne(schema, old(items), now, plans, plans.Keys - keys, key);
          assert plans.Keys - keys + {key} == plans.Keys - (keys - {key});
        }
        keys := keys - {key};
      }
      assert listGroups == old(listGroups) + plans;
      assert plans.Keys - keys == plans.Keys;
    }

    /** `insertItemSnapshots`: plans the lists, stores the items parents first, and then
        writes the lists. When it refuses it leaves everything as it was. */
    method InsertItemSnapshots(snapshots: seq<Snapshot>) returns (ok: bool)
      requires forall i :: 0 <= i < |snapshots| ==> snapshots[i].id < RadixSort.IDS
      modifies this
      ensures ok <==> InsertBatch(schema, old(State()), snapshots, OrderOf(schema, snapshots)).Some?
      ensures !ok ==> items == old(items) && listGroups == old(listGroups)
      ensures ok && InOrder(schema, old(State()), {}) && (forall i :: 0 <= i < |snapshots| ==> AsksRightly(schema, snapshots[i].item))
        ==> Some(State()) == InsertBatch(schema, old(State()), snapshots, OrderOf(schema, snapshots))
    {
      hide Accepts, AcceptAll, InOrder, SettleRows, RowsOf, Refreshed, Holds, Adds, OrderOf, Indexes;
      ghost var was := State();
      var unused, positionById := IndexById(snapshots);
      if !unused {
        return false;
      }
      var rows := RowsOf(schema, snapshots);
      var planned, plans := PlanBatch(listGroups, rows);
      SettledAlike(listGroups, was.groups, rows);
      if !planned {
        return false;
      }
      var order := OrderByParent(schema, snapshots, positionById);
      FreshArranged(items, snapshots, order);
      BatchAdds(schema, items, snapshots, order);
      ok := AcceptPending(order);
      if ok {
        ghost var groups := SettleRows(was.groups, rows).0;
        ghost var base := items;
        ghost var sure := InOrder(schema, was, {}) && forall i :: 0 <= i < |snapshots| ==> AsksRightly(schema, snapshots[i].item);
        if sure {
          PlansHold(schema, was, snapshots, base, listGroups, plans);
        }
        WritePlans(plans, sure);
        SettledHasNoEmpties(was.groups, rows);
        SameGroups(WithoutEmpties(listGroups), groups);
        if sure {
          RefreshedSameLists(schema, base, items, plans, groups, plans.Keys);
          InsertedAll(schema, was, snapshots, base, items, groups, plans.Keys);
        }
      }
    }

    // ----- Replay -----

    /** Applies each change, and gives those that fail. */
    method TryChanges(changes: seq<Change>) returns (late: seq<Change>)
      requires forall c :: c in changes ==> c.ItemInserted? || c.ListInserted?
      modifies this
      ensures (State(), late) == TryEach(schema, old(State()), changes)
      ensures forall c :: c in late ==> c in changes
    {
      hide Apply;
      late := [];
      assert changes[0..] == changes;
      ghost var rest := TryEach(schema, State(), changes).1;
      assert [] + rest == rest;
      for i := 0 to |changes|
        invariant var (d, l) := TryEach(schema, State(), changes[i..]);
                  (d, late + l) == TryEach(schema, old(State()), changes)
        invariant forall c :: c in late ==> c in changes
      {
        assert changes[i..][1..] == changes[i + 1..];
        var ok := ApplyOperation(changes[i]);
        if !ok {
          ghost var after := TryEach(schema, State(), changes[i + 1..]).1;
          assert late + [changes[i]] + after == late + ([changes[i]] + after);
          late := late + [changes[i]];
        }
      }
      assert changes[|changes|..] == [];
      assert late + [] == late;
    }

    /** Tries the late insertions again and again. */
    method DrainPending(late: seq<Change>) returns (ok: bool)
      requires forall c :: c in late ==> c.ItemInserted? || c.ListInserted?
      modifies this
      ensures ok <==> Drain(schema, old(State()), late).Some?
      ensures ok ==> Some(State()) == Drain(schema, old(State()), late)
      ensures late == [] ==> State() == old(State())
    {
      hide Apply, TryEach;
      var pending := late;
      while pending != []
        invariant Drain(schema, State(), pending) == Drain(schema, old(State()), late)
        invariant forall c :: c in pending ==> c.ItemInserted? || c.ListInserted?
        invariant late == [] ==> pending == [] && State() == old(State())
        decreases |pending|
      {
        ghost var before := State();
        var remaining := TryChanges(pending);
        if |remaining| == |pending| {
          TryEachStuck(schema, before, pending);
          ok := ApplyOperation(remaining[0]);
          return;
        }
        pending := remaining;
      }
      ok := true;
    }

    /** A run of insertions, in one batch if that goes through. */
    method ApplyInsertions(run: seq<Change>) returns (late: seq<Change>)
      requires run != [] && forall i :: 0 <= i < |run| ==> run[i].ItemInserted? && run[i].id < RadixSort.IDS
      modifies this
      ensures var batch := RunBatch(schema, old(State()), run);
              if batch.None? then (State(), late) == TryEach(schema, old(State()), run)
              else late == [] && (InOrder(schema, old(State()), {}) && AskRightly(schema, Inserted(run)) ==> State() == batch.value)
      ensures forall c :: c in late ==> c.ItemInserted?
    {
      hide InsertBatch, InOrder, TryEach, AsksRightly, OrderOf;
      if |run| > 1 {
        var whole := InsertItemSnapshots(Inserted(run));
        if whole {
          return [];
        }
      }
      late := TryChanges(run);
    }

    method ApplyRemovals(run: seq<Change>) returns (ok: bool)
      requires run != [] && forall i :: 0 <= i < |run| ==> Removes(run[i])
      modifies this
      ensures |run| > 1 && InOrder(schema, old(State()), {}) ==> State() == EraseAll(schema, old(State()), Removed(run))
      ensures |run| == 1 ==> Apply(schema, old(State()), run[0]) == Some(State())
      ensures ok
    {
      hide InOrder, EraseAll;
      if |run| == 1 {
        ok := ApplyOperation(run[0]);
      } else {
        var ids := seq(|run|, i requires 0 <= i < |run| => IdOf(run[i]));
        EraseSnapshots(ids);
        RemovedIds(run, ids);
        ok := true;
      }
    }

    /** `applyChangeSet`. */
    method ApplyChangeSet(changes: seq<Change>) returns (ok: bool)
      requires forall i :: 0 <= i < |changes| && changes[i].ItemInserted? ==> changes[i].id < RadixSort.IDS
      modifies this
      ensures var spec := Replayed(schema, old(State()), changes, []);
              Smooth(schema, old(State()), changes) ==> (ok <==> spec.Some?) && (ok ==> Some(State()) == spec)
      ensures AllUpdates(changes) ==> State() == Stopped(schema, old(State()), changes)
    {
      hide *;
      var pendingInserts: seq<Change> := [];
      var operationIndex := 0;
      ghost var smooth, updates, last := Smooth(schema, State(), changes), AllUpdates(changes), Stopped(schema, State(), changes);
      assert changes[0..] == changes;
      while operationIndex < |changes|
        invariant operationIndex <= |changes|
        invariant smooth ==> Smooth(schema, State(), changes[operationIndex..])
        invariant smooth ==>
                    Replayed(schema, State(), changes[operationIndex..], pendingInserts) == Replayed(schema, old(State()), changes, [])
        invariant forall c :: c in pendingInserts ==> c.ItemInserted? || c.ListInserted?
        invariant updates ==> pendingInserts == [] && AllUpdates(changes[operationIndex..]) && Stopped(schema, State(), changes[operationIndex..]) == last
      {
        var rest := changes[operationIndex..];
        ghost var before := State();
        if updates {
          UpdatesOneOn(schema, before, rest);
        }
        var inserts, removals := LeadingInserts(rest), LeadingRemovals(rest);
        if inserts > 0 {
          var late := ApplyInsertions(rest[..inserts]);
          if smooth {
            InsertionsStep(schema, before, rest, pendingInserts, State(), late);
          }
          pendingInserts := pendingInserts + late;
          operationIndex := operationIndex + inserts;
          assert rest[inserts..] == changes[operationIndex..];
        } else if removals > 0 {
          var done := ApplyRemovals(rest[..removals]);
          if smooth {
            RemovalsStep(schema, before, rest, pendingInserts, State());
          }
          operationIndex := operationIndex + removals;
          assert rest[removals..] == changes[operationIndex..];
        } else {
          ok := ApplyOperation(rest[0]);
          RefusedInsertion(schema, before, rest[0]);
          if smooth {
            SingleStep(schema, before, rest, pendingInserts, State(), ok);
          }
          if !ok {
            if !rest[0].ListInserted? {
              return;
            }
            pendingInserts := pendingInserts + [rest[0]];
          }
          operationIndex := operationIndex + 1;
          assert rest[1..] == changes[operationIndex..];
        }
      }
      assert changes[operationIndex..] == [];
      LastStep(schema, State(), pendingInserts);
      StopsAtTheEnd(schema, State());
      ok := DrainPending(pendingInserts);
    }

    // ----- Collecting a subtree, and restoring a snapshot -----

    method ChildrenByParent() returns (childrenByParent: map<ItemId, seq<ItemId>>)
      ensures ListsChildren(items, childrenByParent)
    {
      childrenByParent := map[];
      var candidates, listed := items.Keys, {};
      while candidates != {}
        invariant candidates + listed == items.Keys && candidates !! listed
        invariant forall p :: p in childrenByParent ==> Distinct(childrenByParent[p])
        invariant forall p, c :: p in childrenByParent && c in childrenByParent[p] ==> c in listed && ChildOf(items, c, p)
        invariant forall c :: c in listed && items[c].parent.Some? ==> ListedUnder(childrenByParent, c, items[c].parent.value)
        decreases candidates
      {
        var id :| id in candidates;
        candidates, listed := candidates - {id}, listed + {id};
        if items[id].parent.Some? {
          var p := items[id].parent.value;
          var children := if p in childrenByParent then childrenByParent[p] else [];
          assert forall c :: c in children + [id] <==> c in children || c == id;
          childrenByParent := childrenByParent[p := children + [id]];
        }
      }
    }

    /** The recursion that collects an item and everything below it. */
    method Collect(childrenByParent: map<ItemId, seq<ItemId>>, id: ItemId) returns (order: seq<ItemId>)
      requires NoRounds(items) && id in items && ListsChildren(items, childrenByParent)
      ensures Collected(items, id, order)
      decreases |Below(items, id)|
    {
      hide NoRounds, Below, Collecting, Collected, ChildOf;
      order := [id];
      CollectingStart(items, id);
      var children := if id in childrenByParent then childrenByParent[id] else [];
      AllChildren(items, childrenByParent, id, children);
      for k := 0 to |children|
        invariant Collecting(items, id, children[..k], order)
      {
        assert children[k] in children && children[k] !in children[..k];
        ChildIsSmaller(items, id, children[k]);
        ChildIsThere(items, children[k], id);
        var sub := Collect(childrenByParent, children[k]);
        assert forall c :: c in children[..k] ==> c in children;
        CollectNext(items, id, children[..k], children[k], order, sub);
        assert children[..k + 1] == children[..k] + [children[k]];
        order := order + sub;
      }
      assert children[..|children|] == children;
      CollectedAll(items, id, children, order);
    }

    /** One pass of `restoreSnapshot` over what waits. */
    method RestoreOnce(snapshots: seq<Snapshot>) returns (ok: bool, remaining: seq<Snapshot>)
      modifies this
      ensures var pass := RestorePass(schema, old(State()), snapshots);
              (ok <==> pass.Some?) && (ok ==> pass == Some((State(), remaining)))
    {
      hide InsertItem;
      remaining := [];
      assert snapshots[0..] == snapshots;
      RestoreSkipping(RestorePass(schema, State(), snapshots), []);
      for i := 0 to |snapshots|
        invariant RestorePass(schema, old(State()), snapshots) == After(RestorePass(schema, State(), snapshots[i..]), remaining)
      {
        var s := snapshots[i];
        assert snapshots[i..][1..] == snapshots[i + 1..];
        if Ready(items, s) && ListReady(schema, Doc(items, listGroups), s.item) {
          ok := InsertSnapshot(s.id, s.item);
          if !ok {
            return;
          }
        } else {
          AfterOneMore(RestorePass(schema, State(), snapshots[i + 1..]), remaining, s);
          remaining := remaining + [s];
        }
      }
      assert snapshots[|snapshots|..] == [];
      assert remaining + [] == remaining;
      ok := true;
    }

    /** `restoreSnapshot`: forgets what was there and inserts what the snapshot holds. */
    method RestoreSnapshot(snapshot: seq<Snapshot>) returns (ok: bool)
      modifies this
      ensures ok <==> RestoreAll(schema, Doc(map[], map[]), snapshot).Some?
      ensures ok ==> Some(State()) == RestoreAll(schema, Doc(map[], map[]), snapshot)
    {
      hide RestorePass;
      items, listGroups := map[], map[];
      var snapshots := snapshot;
      while snapshots != []
        invariant RestoreAll(schema, State(), snapshots) == RestoreAll(schema, Doc(map[], map[]), snapshot)
        decreases |snapshots|
      {
        var pass, remaining := RestoreOnce(snapshots);
        if !pass || |remaining| == |snapshots| {
          return false;
        }
        snapshots := remaining;
      }
      ok := true;
    }
  }

  /** At most the one group differs, be it made, changed or left alone. */
  ghost predicate OnlyGroupChanged(a: Groups, b: Groups, group: Option<GroupKey>) {
    forall key :: group != Some(key) ==> (key in a <==> key in b) && At(a, key) == At(b, key)
  }

  /** The items are the same but for cached positions. */
  ghost predicate SameExceptIndexes(a: Items, b: Items) {
    a.Keys == b.Keys && forall x :: x in a ==> SameBare(a[x], b[x])
  }

  lemma SameAsBefore(items: Items)
    ensures SameExceptIndexes(items, items)
  {
  }

  lemma SameThrice(a: Items, b: Items, c: Items)
    requires SameExceptIndexes(a, b) && SameExceptIndexes(b, c)
    ensures SameExceptIndexes(a, c)
  {
  }

  /** Renumbering changes nothing but cached positions. */
  lemma {:induction false} ReindexedSame(items: Items, list: seq<ItemId>, from: nat)
    ensures SameExceptIndexes(items, Reindexed(items, list, from))
    decreases |list| - from
  {
    if from < |list| {
      var id := list[from];
      ReindexedSame(if id in items then items[id := items[id].(listIndex := Some(from))] else items, list, from + 1);
    }
  }

  // ----- Facts for the batches -----

  lemma OneMoreOut(items: Items, out: seq<ItemId>, id: ItemId)
    ensures items - SetOf(out + [id]) == items - SetOf(out) - {id}
  {
    assert SetOf(out + [id]) == SetOf(out) + {id};
  }

  lemma PutAndOut(items: Items, out: seq<ItemId>, id: ItemId, item: Item)
    ensures items[id := item] - SetOf(out) - {id} == items - SetOf(out) - {id}
  {
  }

  lemma TakenOut(now: Items, before: Items, start: Items, applied: seq<ItemId>, stored: seq<ItemId>)
    requires now - SetOf(stored) == before - SetOf(stored) && before - SetOf(applied) == start
    requires forall x :: x in stored ==> x !in start
    ensures now - SetOf(applied + stored) == start
  {
    var a, s := SetOf(applied), SetOf(stored);
    assert SetOf(applied + stored) == s + a;
    assert now - (s + a) == now - s - a;
    assert before - s - a == before - a - s;
  }

  lemma SurvivingGroups(groups: Groups, removed: set<ItemId>)
    ensures forall key :: At(GroupSurvivors(WithoutEmpties(groups), removed), key) == Survivors(At(groups, key), removed)
  {
    hide Survivors;
    forall key
      ensures At(GroupSurvivors(WithoutEmpties(groups), removed), key) == Survivors(At(groups, key), removed)
    {
      GroupSurvivorsAt(WithoutEmpties(groups), removed, key);
    }
  }

  lemma NothingSurvives(groups: Groups, removed: set<ItemId>)
    ensures forall key :: key !in groups ==> At(groups, key) == [] == Survivors(At(groups, key), removed)
  {
  }

  lemma {:induction false} KeptAll(list: seq<ItemId>, removed: set<ItemId>)
    ensures |Survivors(list, removed)| == |list| ==> Survivors(list, removed) == list
  {
    if list != [] {
      KeptAll(list[1..], removed);
    }
  }

  lemma AllSurvivorsHold(schema: Schema, doc: Doc, removed: set<ItemId>)
    requires InOrder(schema, doc, {})
    ensures forall key :: Holds(schema, doc.items, key, At(GroupSurvivors(doc.groups, removed), key))
  {
    hide Holds, InOrder, Survivors;
    forall key
      ensures Holds(schema, doc.items, key, At(GroupSurvivors(doc.groups, removed), key))
    {
      GroupSurvivorsAt(doc.groups, removed, key);
      SurvivorsHold(schema, doc, removed, key);
    }
  }

  lemma RefreshedSameLists(schema: Schema, base: Items, now: Items, a: Groups, b: Groups, done: set<GroupKey>)
    requires Refreshed(schema, base, now, a, done) && forall key :: key in done ==> At(a, key) == At(b, key)
    ensures Refreshed(schema, base, now, b, done)
  {
  }

  /** A pass is the first step of storing all. */
  lemma AcceptAllStep(schema: Schema, items: Items, waiting: seq<Snapshot>)
    requires waiting != []
    ensures var (stored, rest) := AcceptPass(schema, items, waiting);
            AcceptAll(schema, items, waiting) == if |rest| == |waiting| then None else AcceptAll(schema, stored, rest)
  {
    hide AcceptPass;
  }

  /** Settling looks at the lists only, not at which empty ones are kept. */
  lemma SettledAlike(a: Groups, b: Groups, rows: seq<Row>)
    requires forall key :: At(a, key) == At(b, key)
    ensures SettleRows(a, rows).1 == [] <==> SettleRows(b, rows).1 == []
    ensures forall key :: At(SettleRows(a, rows).0, key) == At(SettleRows(b, rows).0, key)
  {
    hide Settle, InsertsFor;
    SettledPerGroup(a, rows);
    SettledPerGroup(b, rows);
    forall key
      ensures At(SettleRows(a, rows).0, key) == At(SettleRows(b, rows).0, key)
    {
      SettlePerGroup(a, rows, key);
      SettlePerGroup(b, rows, key);
    }
  }

  lemma FreshArranged(items: Items, snapshots: seq<Snapshot>, order: seq<Snapshot>)
    requires FreshIds(items, snapshots) && multiset(order) == multiset(snapshots)
    ensures FreshIds(items, order)
  {
    ArrangedDistinct(order, snapshots);
    forall i | 0 <= i < |order|
      ensures order[i] in snapshots
    {
      assert order[i] in order;
    }
  }

  /** The plans hold the batch's members and the old ones. */
  lemma PlansHold(schema: Schema, doc: Doc, batch: seq<Snapshot>, base: Items, stored: Groups, plans: Groups)
    requires InOrder(schema, doc, {}) && FreshIds(doc.items, batch) && Adds(doc.items, batch, base) && AllIn(batch, base)
    requires SettleRows(doc.groups, RowsOf(schema, batch)).1 == []
    requires forall key :: At(stored + plans, key) == At(SettleRows(doc.groups, RowsOf(schema, batch)).0, key)
    ensures forall key :: key in plans ==> Holds(schema, base, key, plans[key])
  {
    hide Holds, Adds, SettleRows, RowsOf, InOrder;
    var groups := SettleRows(doc.groups, RowsOf(schema, batch)).0;
    forall key | key in plans
      ensures Holds(schema, base, key, plans[key])
    {
      assert At(stored + plans, key) == plans[key];
      BatchLists(schema, doc, batch, base, groups, key);
    }
  }

  // ----- Facts for the replay -----

  lemma RemovedIds(run: seq<Change>, ids: seq<ItemId>)
    requires forall i :: 0 <= i < |run| ==> Removes(run[i])
    requires |ids| == |run| && forall i :: 0 <= i < |run| ==> ids[i] == IdOf(run[i])
    ensures SetOf(ids) == Removed(run)
  {
    forall x | x in Removed(run)
      ensures x in SetOf(ids)
    {
      var i :| 0 <= i < |run| && IdOf(run[i]) == x;
      assert ids[i] == x;
    }
    forall x | x in SetOf(ids)
      ensures x in Removed(run)
    {
      var i :| 0 <= i < |ids| && ids[i] == x;
      assert IdOf(run[i]) == x;
    }
  }

  /** The replay of the rest, after a run of insertions. */
  lemma InsertionsStep(schema: Schema, doc: Doc, rest: seq<Change>, pending: seq<Change>, next: Doc, late: seq<Change>)
    requires rest != [] && LeadingInserts(rest) > 0 && Smooth(schema, doc, rest)
    requires var run := rest[..LeadingInserts(rest)];
             var batch := RunBatch(schema, doc, run);
             if batch.None? then (next, late) == TryEach(schema, doc, run)
             else late == [] && (InOrder(schema, doc, {}) && AskRightly(schema, Inserted(run)) ==> next == batch.value)
    ensures Smooth(schema, next, rest[LeadingInserts(rest)..])
    ensures Replayed(schema, next, rest[LeadingInserts(rest)..], pending + late)
         == Replayed(schema, doc, rest, pending)
  {
    hide InsertBatch, LeadingInserts, BatchOrdering, InOrder, AskRightly, TryEach;
    assert pending + [] == pending;
  }

  lemma RemovalsStep(schema: Schema, doc: Doc, rest: seq<Change>, pending: seq<Change>, next: Doc)
    requires rest != [] && LeadingInserts(rest) == 0 && LeadingRemovals(rest) > 0 && Smooth(schema, doc, rest)
    requires var run := rest[..LeadingRemovals(rest)];
             && (|run| > 1 && InOrder(schema, doc, {}) ==> next == EraseAll(schema, doc, Removed(run)))
             && (|run| == 1 ==> Apply(schema, doc, run[0]) == Some(next))
    ensures Smooth(schema, next, rest[LeadingRemovals(rest)..])
    ensures Replayed(schema, next, rest[LeadingRemovals(rest)..], pending)
         == Replayed(schema, doc, rest, pending)
  {
    hide EraseAll, LeadingInserts, LeadingRemovals, InOrder, Apply;
  }

  lemma SingleStep(schema: Schema, doc: Doc, rest: seq<Change>, pending: seq<Change>, next: Doc, ok: bool)
    requires rest != [] && LeadingInserts(rest) == 0 && LeadingRemovals(rest) == 0 && Smooth(schema, doc, rest)
    requires ok <==> Apply(schema, doc, rest[0]).Some?
    requires ok ==> Apply(schema, doc, rest[0]) == Some(next)
    requires !ok && rest[0].ListInserted? ==> next == doc
    ensures ok || rest[0].ListInserted? ==> Smooth(schema, next, rest[1..])
    ensures var now := if ok then Some(pending) else if rest[0].ListInserted? then Some(pending + [rest[0]]) else None;
            Replayed(schema, doc, rest, pending) ==
            if now.None? then None else Replayed(schema, next, rest[1..], now.value)
  {
    hide LeadingInserts, LeadingRemovals, Apply, BatchOrdering;
  }

  lemma LastStep(schema: Schema, doc: Doc, pending: seq<Change>)
    ensures Replayed(schema, doc, [], pending) == Drain(schema, doc, pending)
  {
    hide Drain;
  }

  // ----- Facts for collecting and restoring -----

  lemma AllChildren(items: Items, childrenByParent: map<ItemId, seq<ItemId>>, id: ItemId, children: seq<ItemId>)
    requires ListsChildren(items, childrenByParent)
    requires children == if id in childrenByParent then childrenByParent[id] else []
    ensures Distinct(children) && forall c :: c in children <==> ChildOf(items, c, id)
  {
    forall c | ChildOf(items, c, id)
      ensures c in children
    {
      assert ListedUnder(childrenByParent, c, id);
    }
  }

  lemma ChildIsThere(items: Items, child: ItemId, parent: ItemId)
    requires ChildOf(items, child, parent)
    ensures child in items
  {
  }

  /** A pass seen from its middle, with what it has left waiting so far. */
  ghost function After(pass: Option<(Doc, seq<Snapshot>)>, remaining: seq<Snapshot>): Option<(Doc, seq<Snapshot>)> {
    match pass
    case None => None
    case Some((d, rest)) => Some((d, remaining + rest))
  }

  lemma RestoreSkipping(pass: Option<(Doc, seq<Snapshot>)>, remaining: seq<Snapshot>)
    requires remaining == []
    ensures After(pass, remaining) == pass
  {
    if pass.Some? {
      assert remaining + pass.value.1 == pass.value.1;
    }
  }

  lemma AfterOneMore(pass: Option<(Doc, seq<Snapshot>)>, remaining: seq<Snapshot>, s: Snapshot)
    ensures After(After(pass, [s]), remaining) == After(pass, remaining + [s])
  {
    if pass.Some? {
      assert remaining + ([s] + pass.value.1) == remaining + [s] + pass.value.1;
    }
  }
}
