/** What the list operations do to documents whose lists are in order. */
module DocumentLists {
  import opened Wrappers
  import opened DivisionFacts
  import opened Sequences
  import opened ListInserts
  import opened GroupPlanner
  import opened Documents

  lemma InOrderDistinct(schema: Schema, doc: Doc, skip: set<ItemId>, key: GroupKey)
    requires InOrder(schema, doc, skip)
    ensures Distinct(At(doc.groups, key))
  {
    var list := At(doc.groups, key);
    forall i, j | 0 <= i < j < |list|
      ensures list[i] != list[j]
    {
      assert SlotOk(schema, doc, key, i) && SlotOk(schema, doc, key, j);
    }
  }

  /** An item in its list is found there by its cached position. */
  lemma PositionIsCache(schema: Schema, doc: Doc, id: ItemId, key: GroupKey)
    requires InOrder(schema, doc, {}) && id in doc.items && GroupOf(schema, doc.items[id]) == Some(key)
    ensures doc.items[id].listIndex.Some? && doc.items[id].listIndex.value < |At(doc.groups, key)|
    ensures At(doc.groups, key)[doc.items[id].listIndex.value] == id
    ensures Position(At(doc.groups, key), id, doc.items[id].listIndex) == doc.items[id].listIndex
  {
    assert CacheOk(schema, doc, id);
  }

  lemma ReindexedBare(items: Items, list: seq<ItemId>, from: nat)
    requires Distinct(list)
    ensures Bare(Reindexed(items, list, from)) == Bare(items)
  {
    forall id | id in items
      ensures BareItem(Reindexed(items, list, from)[id]) == BareItem(items[id])
    {
      ReindexedAt(items, list, from, id);
    }
  }

  /** A list changed from position `from` on, and written back with its positions: the
      document is in order again if the list holds the right items. */
  lemma RelistedInOrder(schema: Schema, doc: Doc, skip: set<ItemId>, skip': set<ItemId>, key: GroupKey, list: seq<ItemId>, from: nat)
    requires InOrder(schema, doc, skip) && Distinct(list) && from <= |list|
    requires forall i :: 0 <= i < from ==> i < |At(doc.groups, key)| && list[i] == At(doc.groups, key)[i]
    requires forall id :: id in list ==> id in doc.items && id !in skip' && GroupOf(schema, doc.items[id]) == Some(key)
    requires forall id :: id in doc.items && id !in skip' && GroupOf(schema, doc.items[id]) == Some(key) ==> id in list
    requires forall id :: id in doc.items && id !in skip' && GroupOf(schema, doc.items[id]) != Some(key) ==> id !in skip
    requires forall id :: id in skip' && id in doc.items ==> id in skip || GroupOf(schema, doc.items[id]) == Some(key)
    requires forall k, i :: 0 <= i < |At(doc.groups, k)| ==> At(doc.groups, k)[i] !in skip' || k == key
    ensures InOrder(schema, Doc(Reindexed(doc.items, list, from), Put(doc.groups, key, list)), skip')
  {
    var d := Doc(Reindexed(doc.items, list, from), Put(doc.groups, key, list));
    forall k, i | 0 <= i < |At(d.groups, k)|
      ensures SlotOk(schema, d, k, i) && At(d.groups, k)[i] !in skip'
    {
      var id := At(d.groups, k)[i];
      if k == key {
        assert id in list;
        ReindexedAt(doc.items, list, from, id);
        if i < from {
          assert SlotOk(schema, doc, k, i);
        }
      } else {
        assert SlotOk(schema, doc, k, i);
        ReindexedAt(doc.items, list, from, id);
      }
    }
    forall id | id in d.items && id !in skip'
      ensures CacheOk(schema, d, id)
    {
      ReindexedAt(doc.items, list, from, id);
      if id in list {
        var i :| 0 <= i < |list| && list[i] == id;
        assert At(d.groups, key)[i] == id && SlotOk(schema, d, key, i);
      } else {
        assert CacheOk(schema, doc, id);
      }
    }
  }

  lemma {:induction false} SurvivorsOfNone(list: seq<ItemId>, removed: set<ItemId>)
    requires forall id :: id in list ==> id !in removed
    ensures Survivors(list, removed) == list
  {
    if list != [] {
      SurvivorsOfNone(list[1..], removed);
    }
  }

  lemma {:induction false} SurvivorsOfOne(list: seq<ItemId>, at: nat)
    requires Distinct(list) && at < |list|
    ensures Survivors(list, {list[at]}) == RemoveAt(list, at)
  {
    if at == 0 {
      SurvivorsOfNone(list[1..], {list[0]});
      assert RemoveAt(list, 0) == list[1..];
    } else {
      SurvivorsOfOne(list[1..], at - 1);
      assert RemoveAt(list, at) == [list[0]] + RemoveAt(list[1..], at - 1);
    }
  }

  /** The lists an item is not in stay as they are. */
  lemma OthersSurvive(schema: Schema, doc: Doc, id: ItemId, key: Option<GroupKey>)
    requires InOrder(schema, doc, {}) && id in doc.items && GroupOf(schema, doc.items[id]) == key
    ensures forall k :: key != Some(k) ==> Survivors(At(doc.groups, k), {id}) == At(doc.groups, k)
  {
    forall k | key != Some(k)
      ensures Survivors(At(doc.groups, k), {id}) == At(doc.groups, k)
    {
      forall i | 0 <= i < |At(doc.groups, k)|
        ensures At(doc.groups, k)[i] != id
      {
        assert SlotOk(schema, doc, k, i);
      }
      SurvivorsOfNone(At(doc.groups, k), {id});
    }
  }

  /** Taking an item out of its list. */
  lemma RemoveKeepsOrder(schema: Schema, doc: Doc, id: ItemId)
    requires InOrder(schema, doc, {}) && id in doc.items
    ensures var d := RemoveFromGroup(schema, doc, id, doc.items[id]);
            && InOrder(schema, d, {id}) && Bare(d.items) == Bare(doc.items)
            && forall key :: At(d.groups, key) == Survivors(At(doc.groups, key), {id})
  {
    match GroupOf(schema, doc.items[id])
    case None =>
      forall key, i | 0 <= i < |At(doc.groups, key)|
        ensures At(doc.groups, key)[i] != id
      {
        assert SlotOk(schema, doc, key, i);
      }
      OthersSurvive(schema, doc, id, None);
    case Some(key) =>
      RemoveFromListInOrder(schema, doc, id, key);
  }

  lemma RemoveFromListInOrder(schema: Schema, doc: Doc, id: ItemId, key: GroupKey)
    requires InOrder(schema, doc, {}) && id in doc.items && GroupOf(schema, doc.items[id]) == Some(key)
    ensures var d := RemoveFromGroup(schema, doc, id, doc.items[id]);
            && InOrder(schema, d, {id}) && Bare(d.items) == Bare(doc.items)
            && forall key :: At(d.groups, key) == Survivors(At(doc.groups, key), {id})
  {
    hide RemoveAt, Reindexed, CacheOk, InOrder, GroupOf, Position;
    OthersSurvive(schema, doc, id, Some(key));
    PositionIsCache(schema, doc, id, key);
    InOrderDistinct(schema, doc, {}, key);
    var list := At(doc.groups, key);
    var at := doc.items[id].listIndex.value;
    var rest := RemoveAt(list, at);
    RemoveAtDistinct(list, at);
    SurvivorsOfOne(list, at);
    ListHoldsGroup(schema, doc, {}, key);
    forall k, i | 0 <= i < |At(doc.groups, k)|
      ensures At(doc.groups, k)[i] != id || k == key
    {
      ListHoldsGroup(schema, doc, {}, k);
    }
    RemoveAtElsewhere(list, at);
    ReindexedBare(doc.items, rest, at);
    RelistedInOrder(schema, doc, {}, {id}, key, rest, at);
  }

  lemma RemoveAtElsewhere(list: seq<ItemId>, at: nat)
    requires at < |list|
    ensures forall i :: 0 <= i < at ==> RemoveAt(list, at)[i] == list[i]
  {
  }

  lemma RemoveAtDistinct(list: seq<ItemId>, at: nat)
    requires Distinct(list) && at < |list|
    ensures Distinct(RemoveAt(list, at))
    ensures forall x :: x in RemoveAt(list, at) <==> x in list && x != list[at]
  {
    var rest := RemoveAt(list, at);
    assert forall i :: 0 <= i < |rest| ==> rest[i] == list[if i < at then i else i + 1];
    forall x | x in list && x != list[at]
      ensures x in rest
    {
      var i :| 0 <= i < |list| && list[i] == x;
      assert rest[if i < at then i else i - 1] == x;
    }
  }

  lemma InsertAtDistinct(list: seq<ItemId>, at: nat, id: ItemId)
    requires Distinct(list) && at <= |list| && id !in list
    ensures Distinct(InsertAt(list, at, id))
    ensures forall x :: x in InsertAt(list, at, id) <==> x in list || x == id
  {
    var more := InsertAt(list, at, id);
    assert forall i :: 0 <= i < |more| ==> more[i] == if i < at then list[i] else if i == at then id else list[i - 1];
    forall x | x in list
      ensures x in more
    {
      var i :| 0 <= i < |list| && list[i] == x;
      assert more[if i < at then i else i + 1] == x;
    }
    assert more[at] == id;
  }

  /** Putting an item into its list, and into the document. */
  lemma InsertKeepsOrder(schema: Schema, doc: Doc, id: ItemId, item: Item)
    requires InOrder(schema, doc, {id}) && AsksRightly(schema, item)
    requires InsertIntoGroup(schema, doc, id, item).Some?
    ensures var d := InsertIntoGroup(schema, doc, id, item).value;
            && InOrder(schema, Doc(d.items[id := item], d.groups), {})
            && Bare(d.items) == Bare(doc.items)
  {
    var d := InsertIntoGroup(schema, doc, id, item).value;
    var with := Doc(doc.items[id := item], doc.groups);
    assert InOrder(schema, with, {id}) by {
      forall k, i | 0 <= i < |At(with.groups, k)|
        ensures SlotOk(schema, with, k, i) && At(with.groups, k)[i] != id
      {
        assert SlotOk(schema, doc, k, i);
      }
      forall x | x in with.items && x != id
        ensures CacheOk(schema, with, x)
      {
        assert CacheOk(schema, doc, x);
      }
    }
    match GroupOf(schema, item)
    case None =>
      forall k, i | 0 <= i < |At(with.groups, k)|
        ensures SlotOk(schema, with, k, i)
      {
      }
      assert CacheOk(schema, with, id);
    case Some(key) =>
      InsertIntoListInOrder(schema, doc, with, id, item, key);
  }

  lemma InsertIntoListInOrder(schema: Schema, doc: Doc, with: Doc, id: ItemId, item: Item, key: GroupKey)
    requires InOrder(schema, doc, {id}) && InOrder(schema, with, {id})
    requires with == Doc(doc.items[id := item], doc.groups)
    requires GroupOf(schema, item) == Some(key) && item.listIndex.Some? && item.listIndex.value <= |At(doc.groups, key)|
    ensures var d := InsertIntoGroup(schema, doc, id, item).value;
            && InOrder(schema, Doc(d.items[id := item], d.groups), {})
            && Bare(d.items) == Bare(doc.items)
  {
    hide InsertAt, Reindexed, CacheOk, InOrder;
    var list, at := At(doc.groups, key), item.listIndex.value;
    ListHoldsGroup(schema, doc, {id}, key);
    ListHoldsGroup(schema, with, {id}, key);
    InOrderDistinct(schema, doc, {id}, key);
    InsertAtDistinct(list, at, id);
    var more := InsertAt(list, at, id);
    ReindexedBare(doc.items, more, at + 1);
    InsertAtElsewhere(list, at, id);
    ReindexedWith(doc.items, more, at + 1, id, item);
    ReindexedOneEarlier(with.items, more, at);
    NotSkipped(schema, with, {id});
    RelistedInOrder(schema, with, {id}, {}, key, more, at);
  }

  lemma ListHoldsGroup(schema: Schema, doc: Doc, skip: set<ItemId>, key: GroupKey)
    requires InOrder(schema, doc, skip)
    ensures forall x :: x in At(doc.groups, key) <==>
              x in doc.items && x !in skip && GroupOf(schema, doc.items[x]) == Some(key)
  {
    var list := At(doc.groups, key);
    forall x | x in list
      ensures x in doc.items && x !in skip && GroupOf(schema, doc.items[x]) == Some(key)
    {
      var i :| 0 <= i < |list| && list[i] == x;
      assert SlotOk(schema, doc, key, i);
    }
    forall x | x in doc.items && x !in skip && GroupOf(schema, doc.items[x]) == Some(key)
      ensures x in list
    {
      assert CacheOk(schema, doc, x);
    }
  }

  lemma NotSkipped(schema: Schema, doc: Doc, skip: set<ItemId>)
    requires InOrder(schema, doc, skip)
    ensures forall k, i :: 0 <= i < |At(doc.groups, k)| ==> At(doc.groups, k)[i] !in skip
  {
  }

  lemma InsertAtElsewhere(list: seq<ItemId>, at: nat, id: ItemId)
    requires at <= |list| && id !in list
    ensures InsertAt(list, at, id)[at] == id
    ensures forall i :: 0 <= i < at ==> InsertAt(list, at, id)[i] == list[i]
    ensures forall i :: at < i <= |list| ==> InsertAt(list, at, id)[i] == list[i - 1] && list[i - 1] in list
  {
  }

  /** An item that knows its position already can be left out of the refresh. */
  lemma ReindexedOneEarlier(items: Items, list: seq<ItemId>, at: nat)
    requires at < |list| && list[at] in items && items[list[at]].listIndex == Some(at)
    ensures Reindexed(items, list, at) == Reindexed(items, list, at + 1)
  {
    assert items[list[at] := items[list[at]].(listIndex := Some(at))] == items;
  }

  /** Refreshing the positions behind an item commutes with storing it. */
  lemma {:induction false} ReindexedWith(items: Items, list: seq<ItemId>, from: nat, id: ItemId, item: Item)
    requires forall i :: from <= i < |list| ==> list[i] != id
    ensures Reindexed(items, list, from)[id := item] == Reindexed(items[id := item], list, from)
    decreases |list| - from
  {
    if from < |list| {
      var x := list[from];
      if x in items {
        var next := items[x := items[x].(listIndex := Some(from))];
        ReindexedWith(next, list, from + 1, id, item);
        assert next[id := item] == items[id := item][x := items[id := item][x].(listIndex := Some(from))];
      } else {
        ReindexedWith(items, list, from + 1, id, item);
      }
    }
  }

  /** Erasing an item. */
  lemma EraseKeepsOrder(schema: Schema, doc: Doc, id: ItemId)
    requires InOrder(schema, doc, {}) && id in doc.items
    ensures var d := EraseItem(schema, doc, id, doc.items[id]);
            InOrder(schema, d, {}) && Bare(d.items) == Bare(doc.items) - {id}
  {
    RemoveKeepsOrder(schema, doc, id);
    var r := RemoveFromGroup(schema, doc, id, doc.items[id]);
    SkippedCanGo(schema, r, id);
    assert Bare(r.items - {id}) == Bare(r.items) - {id};
  }

  lemma SkippedCanGo(schema: Schema, doc: Doc, id: ItemId)
    requires InOrder(schema, doc, {id})
    ensures InOrder(schema, Doc(doc.items - {id}, doc.groups), {})
  {
    var d := Doc(doc.items - {id}, doc.groups);
    forall k, i | 0 <= i < |At(d.groups, k)|
      ensures SlotOk(schema, d, k, i)
    {
      assert SlotOk(schema, doc, k, i);
    }
    forall x | x in d.items
      ensures CacheOk(schema, d, x)
    {
      assert CacheOk(schema, doc, x);
    }
  }

  // ----- Rotation -----

  lemma RotateListAt(list: seq<ItemId>, start: nat, count: nat, offset: int)
    requires count > 0 && start + count <= |list|
    ensures var r, shift := RotateList(list, start, count, offset), offset % count;
            forall i :: 0 <= i < |list| ==>
              r[i] == list[if i < start || i >= start + count then i
                           else if i < start + count - shift then i + shift else i + shift - count]
  {
  }

  lemma RotateListMembers(list: seq<ItemId>, start: nat, count: nat, offset: int)
    requires count > 0 && start + count <= |list| && Distinct(list)
    ensures Distinct(RotateList(list, start, count, offset))
    ensures forall x :: x in RotateList(list, start, count, offset) <==> x in list
  {
    RotateListAt(list, start, count, offset);
    var r, shift := RotateList(list, start, count, offset), offset % count;
    forall x | x in list
      ensures x in r
    {
      var i :| 0 <= i < |list| && list[i] == x;
      assert r[if i < start || i >= start + count then i
               else if i >= start + shift then i - shift else i + count - shift] == x;
    }
  }

  /** Rotating back by the opposite offset restores the list. */
  lemma RotateBack(list: seq<ItemId>, start: nat, count: nat, offset: int)
    requires count > 0 && start + count <= |list|
    ensures RotateList(RotateList(list, start, count, offset), start, count, -offset) == list
  {
    var r := RotateList(list, start, count, offset);
    RotateListAt(list, start, count, offset);
    RotateListAt(r, start, count, -offset);
    OppositeShift(offset, count);
    var back := RotateList(r, start, count, -offset);
    forall i | 0 <= i < |list|
      ensures back[i] == list[i]
    {
    }
  }

  lemma OppositeShift(offset: int, count: nat)
    requires count > 0
    ensures (-offset) % count == if offset % count == 0 then 0 else count - offset % count
  {
    var q := offset / count;
    DivisionRule(offset, count);
    if offset % count == 0 {
      RemainderOf(-offset, -q, 0, count);
    } else {
      assert -offset == (-q - 1) * count + (count - offset % count);
      RemainderOf(-offset, -q - 1, count - offset % count, count);
    }
  }

  lemma RotateKeepsOrder(schema: Schema, doc: Doc, key: GroupKey, start: nat, count: nat, offset: int)
    requires InOrder(schema, doc, {})
    ensures InOrder(schema, RotateGroup(doc, key, start, count, offset), {})
    ensures Bare(RotateGroup(doc, key, start, count, offset).items) == Bare(doc.items)
  {
    var list := At(doc.groups, key);
    if count > 0 && start + count <= |list| {
      var r := RotateList(list, start, count, offset);
      hide RotateList, InOrder, Reindexed;
      InOrderDistinct(schema, doc, {}, key);
      RotateListMembers(list, start, count, offset);
      RotateListAt(list, start, count, offset);
      ListHoldsGroup(schema, doc, {}, key);
      ReindexedBare(doc.items, r, start);
      RelistedInOrder(schema, doc, {}, {}, key, r, start);
    }
  }

  // ----- Erasing many at once -----

  lemma {:induction false} IndexOfAt(list: seq<ItemId>, at: nat)
    requires Distinct(list) && at < |list|
    ensures IndexOf(list, list[at]) == Some(at)
  {
    if at > 0 {
      IndexOfAt(list[1..], at - 1);
    }
  }

  lemma {:induction false} SurvivorsDistinct(list: seq<ItemId>, removed: set<ItemId>)
    requires Distinct(list)
    ensures Distinct(Survivors(list, removed))
  {
    if list != [] {
      SurvivorsDistinct(list[1..], removed);
      var rest := Survivors(list[1..], removed);
      forall i | 0 <= i < |rest|
        ensures rest[i] != list[0]
      {
        assert rest[i] in rest;
        var j :| 0 <= j < |list[1..]| && list[1..][j] == rest[i];
        assert list[j + 1] == rest[i];
      }
    }
  }

  lemma GroupSurvivorsAt(groups: Groups, removed: set<ItemId>, key: GroupKey)
    ensures At(GroupSurvivors(groups, removed), key) == Survivors(At(groups, key), removed)
  {
  }

  /** Lists that hold each item of their group once put a document in order, whatever
      positions its items had. */
  lemma ListedInOrder(schema: Schema, items: Items, groups: Groups)
    requires NoEmpties(groups) && forall key :: Distinct(At(groups, key))
    requires forall key, x :: x in At(groups, key) <==> x in items && GroupOf(schema, items[x]) == Some(key)
    ensures InOrder(schema, Doc(Listed(schema, items, groups), groups), {})
    ensures Bare(Listed(schema, items, groups)) == Bare(items)
  {
    var d := Doc(Listed(schema, items, groups), groups);
    forall x | x in items
      ensures GroupOf(schema, d.items[x]) == GroupOf(schema, items[x])
    {
    }
    forall key, i | 0 <= i < |At(groups, key)|
      ensures SlotOk(schema, d, key, i)
    {
      var x := At(groups, key)[i];
      assert x in At(groups, key);
      IndexOfAt(At(groups, key), i);
    }
    forall x | x in d.items
      ensures CacheOk(schema, d, x)
    {
      if GroupOf(schema, items[x]).Some? {
        assert x in At(groups, GroupOf(schema, items[x]).value);
      }
    }
  }

  lemma EraseAllKeepsOrder(schema: Schema, doc: Doc, removed: set<ItemId>)
    requires InOrder(schema, doc, {})
    ensures var d := EraseAll(schema, doc, removed);
            && InOrder(schema, d, {}) && Bare(d.items) == Bare(doc.items) - removed
            && forall key :: At(d.groups, key) == Survivors(At(doc.groups, key), removed)
  {
    var groups := GroupSurvivors(doc.groups, removed);
    var items := doc.items - removed;
    forall key
      ensures Distinct(At(groups, key)) && At(groups, key) == Survivors(At(doc.groups, key), removed)
      ensures forall x :: x in At(groups, key) <==> x in items && GroupOf(schema, items[x]) == Some(key)
    {
      GroupSurvivorsAt(doc.groups, removed, key);
      InOrderDistinct(schema, doc, {}, key);
      SurvivorsDistinct(At(doc.groups, key), removed);
      ListHoldsGroup(schema, doc, {}, key);
    }
    ListedInOrder(schema, items, groups);
    assert Bare(items) == Bare(doc.items) - removed;
  }
}
