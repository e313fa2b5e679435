/** Rewriting many lists at once and then the positions of their items, as the batch
    operations of the engine do (src/engine.cpp:1278-1297, 1640-1644). */
module ListRefresh {
  import opened Wrappers
  import opened Sequences
  import opened ListInserts
  import opened GroupPlanner
  import opened Documents
  import opened DocumentLists
  import opened DocumentItems
  import opened Batches

  // ----- Settling loses no member and invents none -----

  function InsertIds(inserts: seq<Insert>): (r: seq<ItemId>)
    ensures |r| == |inserts|
  {
    seq(|inserts|, i requires 0 <= i < |inserts| => inserts[i].id)
  }

  lemma PlaceMembers(list: seq<ItemId>, x: Insert)
    requires Fits(list, x)
    ensures multiset(Place(list, x)) == multiset(list) + multiset{x.id}
  {
    var at := x.index.GetOr(|list|);
    assert list == list[..at] + list[at..];
  }

  lemma FirstId(waiting: seq<Insert>)
    requires waiting != []
    ensures multiset(InsertIds(waiting)) == multiset{waiting[0].id} + multiset(InsertIds(waiting[1..]))
  {
    assert InsertIds(waiting) == [waiting[0].id] + InsertIds(waiting[1..]);
  }

  lemma {:induction false} PassMembers(list: seq<ItemId>, waiting: seq<Insert>)
    ensures var (l, rest) := Pass(list, waiting);
            multiset(l) + multiset(InsertIds(rest)) == multiset(list) + multiset(InsertIds(waiting))
    decreases |waiting|
  {
    if waiting != [] {
      hide Place, Fits, InsertIds;
      FirstId(waiting);
      if Fits(list, waiting[0]) {
        PlaceMembers(list, waiting[0]);
        PassMembers(Place(list, waiting[0]), waiting[1..]);
      } else {
        PassMembers(list, waiting[1..]);
        var (l, rest) := Pass(list, waiting[1..]);
        var put := [waiting[0]] + rest;
        FirstId(put);
        assert put[0] == waiting[0] && put[1..] == rest;
        Shifted(multiset(l), multiset(InsertIds(rest)), multiset(list), multiset(InsertIds(waiting[1..])), multiset{waiting[0].id});
        assert Pass(list, waiting) == (l, put);
      }
    }
  }

  lemma Shifted(a: multiset<ItemId>, b: multiset<ItemId>, c: multiset<ItemId>, d: multiset<ItemId>, x: multiset<ItemId>)
    requires a + b == c + d
    ensures a + (x + b) == c + (x + d)
  {
    assert a + (x + b) == (a + b) + x;
    assert c + (x + d) == (c + d) + x;
  }

  lemma {:induction false} SettleMembers(list: seq<ItemId>, waiting: seq<Insert>)
    ensures var (l, rest) := Settle(list, waiting);
            multiset(l) + multiset(InsertIds(rest)) == multiset(list) + multiset(InsertIds(waiting))
    decreases |waiting|
  {
    hide Pass, InsertIds;
    PassMembers(list, waiting);
    var (l, rest) := Pass(list, waiting);
    if |rest| < |waiting| {
      SettleMembers(l, rest);
    }
  }

  // ----- The positions of rewritten lists -----

  /** `now` is `base` with the positions of the lists in `done` written into their items. */
  ghost predicate Refreshed(schema: Schema, base: Items, now: Items, groups: Groups, done: set<GroupKey>) {
    && now.Keys == base.Keys
    && (forall x :: x in base ==> SameBare(now[x], base[x]))
    && (forall x :: x in base && (GroupOf(schema, base[x]).Some? ==> GroupOf(schema, base[x]).value !in done) ==> now[x] == base[x])
    && (forall key, i :: key in done && 0 <= i < |At(groups, key)| ==> Numbered(now, At(groups, key)[i], i))
  }

  ghost predicate Numbered(items: Items, id: ItemId, i: nat) {
    id in items && items[id].listIndex == Some(i)
  }

  /** A list that holds items of its group, each once. */
  ghost predicate Holds(schema: Schema, items: Items, key: GroupKey, list: seq<ItemId>) {
    Distinct(list) && forall i :: 0 <= i < |list| ==> list[i] in items && GroupOf(schema, items[list[i]]) == Some(key)
  }

  /** Rewriting one more list. */
  lemma RefreshOne(schema: Schema, base: Items, now: Items, groups: Groups, done: set<GroupKey>, key: GroupKey)
    requires Refreshed(schema, base, now, groups, done)
    requires forall k :: k in done + {key} ==> Holds(schema, base, k, At(groups, k))
    ensures Refreshed(schema, base, Reindexed(now, At(groups, key), 0), groups, done + {key})
  {
    hide Reindexed, GroupOf, SameBare;
    var list := At(groups, key);
    var next := Reindexed(now, list, 0);
    forall x | x in base
      ensures SameBare(next[x], base[x])
      ensures x !in list ==> next[x] == now[x]
      ensures forall i :: 0 <= i < |list| && list[i] == x ==> next[x].listIndex == Some(i)
    {
      ReindexedAt(now, list, 0, x);
      SameBareBoth(next[x], now[x], base[x]);
    }
    forall k, i | k in done + {key} && 0 <= i < |At(groups, k)|
      ensures Numbered(next, At(groups, k)[i], i)
    {
      var x := At(groups, k)[i];
      assert Holds(schema, base, k, At(groups, k));
      if k != key {
        assert x !in list;
        assert Numbered(now, x, i);
      }
    }
  }

  lemma SameBareBoth(a: Item, b: Item, c: Item)
    requires a.(listIndex := None) == b.(listIndex := None) && SameBare(b, c)
    ensures SameBare(a, c)
  {
  }

  lemma NothingRefreshed(schema: Schema, base: Items, groups: Groups)
    ensures Refreshed(schema, base, base, groups, {})
  {
  }

  /** Once the lists that were rewritten are done, every item stands where its list has it. */
  lemma RefreshedIsListed(schema: Schema, base: Items, now: Items, groups: Groups, done: set<GroupKey>)
    requires Refreshed(schema, base, now, groups, done)
    requires forall key :: Holds(schema, base, key, At(groups, key))
    requires forall x :: x in base && GroupOf(schema, base[x]).Some? ==> x in At(groups, GroupOf(schema, base[x]).value)
    requires forall x :: x in base && GroupOf(schema, base[x]).None? ==> base[x].listIndex == None
    requires forall key, i :: key !in done && 0 <= i < |At(groups, key)| ==> Numbered(base, At(groups, key)[i], i)
    ensures now == Listed(schema, base, groups)
  {
    hide GroupOf, SameBare;
    forall x | x in base
      ensures now[x] == Listed(schema, base, groups)[x]
    {
      OneListed(now[x], base[x]);
      match GroupOf(schema, base[x])
      case None =>
      case Some(key) =>
        var list := At(groups, key);
        assert Holds(schema, base, key, list);
        var i :| 0 <= i < |list| && list[i] == x;
        IndexOfAt(list, i);
        if key in done {
          assert Numbered(now, list[i], i);
        } else {
          assert Numbered(base, list[i], i);
        }
    }
  }

  lemma OneListed(now: Item, base: Item)
    requires SameBare(now, base)
    ensures now == base.(listIndex := now.listIndex)
  {
  }

  // ----- The lists of a batch of removals -----

  /** Dropping the removed items after the lists were rewritten. */
  lemma RefreshedWithout(schema: Schema, base: Items, now: Items, groups: Groups, done: set<GroupKey>, removed: set<ItemId>)
    requires Refreshed(schema, base, now, groups, done)
    requires forall key, i :: 0 <= i < |At(groups, key)| ==> At(groups, key)[i] !in removed
    ensures Refreshed(schema, base - removed, now - removed, groups, done)
  {
    forall key, i | key in done && 0 <= i < |At(groups, key)|
      ensures Numbered(now - removed, At(groups, key)[i], i)
    {
      assert Numbered(now, At(groups, key)[i], i);
    }
  }

  lemma SurvivorsHold(schema: Schema, doc: Doc, removed: set<ItemId>, key: GroupKey)
    requires InOrder(schema, doc, {})
    ensures Holds(schema, doc.items, key, Survivors(At(doc.groups, key), removed))
    ensures Holds(schema, doc.items - removed, key, Survivors(At(doc.groups, key), removed))
  {
    hide Survivors;
    InOrderDistinct(schema, doc, {}, key);
    SurvivorsDistinct(At(doc.groups, key), removed);
    ListHoldsGroup(schema, doc, {}, key);
    var list := Survivors(At(doc.groups, key), removed);
    assert forall i :: 0 <= i < |list| ==> list[i] in list;
  }

  /** Lists rewritten where they lost someone, positions written, items dropped: that is
      `EraseAll`. */
  lemma ErasedAll(schema: Schema, doc: Doc, now: Items, groups: Groups, done: set<GroupKey>, removed: set<ItemId>)
    requires InOrder(schema, doc, {}) && Refreshed(schema, doc.items, now, groups, done) && NoEmpties(groups)
    requires forall key :: At(groups, key) == Survivors(At(doc.groups, key), removed)
    requires forall key :: key !in done ==> Survivors(At(doc.groups, key), removed) == At(doc.groups, key)
    ensures Doc(now - removed, groups) == EraseAll(schema, doc, removed)
  {
    hide GroupOf, Survivors, Refreshed, Holds;
    var rest := doc.items - removed;
    forall key
      ensures At(groups, key) == At(GroupSurvivors(doc.groups, removed), key)
      ensures Holds(schema, rest, key, At(groups, key))
      ensures forall x :: x in At(groups, key) <==> x in rest && GroupOf(schema, rest[x]) == Some(key)
    {
      GroupSurvivorsAt(doc.groups, removed, key);
      SurvivorsHold(schema, doc, removed, key);
      ListHoldsGroup(schema, doc, {}, key);
    }
    assert NoEmpties(GroupSurvivors(doc.groups, removed));
    SameGroups(groups, GroupSurvivors(doc.groups, removed));
    forall key, i | 0 <= i < |At(groups, key)|
      ensures At(groups, key)[i] !in removed
      ensures key !in done ==> Numbered(rest, At(groups, key)[i], i)
    {
      assert At(groups, key)[i] in At(groups, key);
      if key !in done {
        assert SlotOk(schema, doc, key, i);
      }
    }
    forall x | x in rest && GroupOf(schema, rest[x]).None?
      ensures rest[x].listIndex == None
    {
      assert CacheOk(schema, doc, x);
    }
    RefreshedWithout(schema, doc.items, now, groups, done, removed);
    RefreshedIsListed(schema, rest, now - removed, groups, done);
  }

  // ----- The items and lists of a batch of insertions -----

  /** `items` holds what `base` held, untouched, and otherwise only snapshots of the batch. */
  ghost predicate Adds(base: Items, batch: seq<Snapshot>, items: Items) {
    && (forall x :: x in base ==> x in items && items[x] == base[x])
    && (forall x :: x in items && x !in base ==> exists i :: 0 <= i < |batch| && batch[i].id == x && items[x] == batch[i].item)
  }

  ghost predicate AllIn(batch: seq<Snapshot>, items: Items) {
    forall i :: 0 <= i < |batch| ==> batch[i].id in items
  }

  ghost predicate InOrWaiting(batch: seq<Snapshot>, items: Items, waiting: seq<Snapshot>) {
    forall i :: 0 <= i < |batch| ==> batch[i].id in items || batch[i] in waiting
  }

  lemma AddsOne(base: Items, batch: seq<Snapshot>, items: Items, i: nat)
    requires Adds(base, batch, items) && i < |batch| && batch[i].id !in base
    ensures Adds(base, batch, items[batch[i].id := batch[i].item])
  {
  }

  lemma {:induction false} AcceptPassAdds(schema: Schema, base: Items, batch: seq<Snapshot>, items: Items, skipped: seq<Snapshot>, waiting: seq<Snapshot>)
    requires Adds(base, batch, items) && FreshIds(base, batch) && forall s :: s in waiting ==> s in batch
    requires InOrWaiting(batch, items, skipped + waiting)
    ensures var (stored, rest) := AcceptPass(schema, items, waiting);
            && Adds(base, batch, stored) && (forall s :: s in rest ==> s in batch) && InOrWaiting(batch, stored, skipped + rest)
    decreases |waiting|
  {
    hide Accepts, Adds;
    if waiting != [] {
      var s := waiting[0];
      assert s in batch;
      if Accepts(schema, items, s.id, s.item, None) {
        var i :| 0 <= i < |batch| && batch[i] == s;
        AddsOne(base, batch, items, i);
        assert InOrWaiting(batch, items[s.id := s.item], skipped + waiting[1..]);
        AcceptPassAdds(schema, base, batch, items[s.id := s.item], skipped, waiting[1..]);
      } else {
        assert skipped + [s] + waiting[1..] == skipped + waiting;
        AcceptPassAdds(schema, base, batch, items, skipped + [s], waiting[1..]);
        var rest := AcceptPass(schema, items, waiting[1..]).1;
        assert skipped + [s] + rest == skipped + ([s] + rest);
      }
    }
  }

  lemma {:induction false} AcceptAllAdds(schema: Schema, base: Items, batch: seq<Snapshot>, items: Items, waiting: seq<Snapshot>)
    requires Adds(base, batch, items) && FreshIds(base, batch) && forall s :: s in waiting ==> s in batch
    requires InOrWaiting(batch, items, waiting)
    ensures var all := AcceptAll(schema, items, waiting); all.Some? ==> Adds(base, batch, all.value) && AllIn(batch, all.value)
    decreases |waiting|
  {
    if waiting != [] {
      hide AcceptPass, Adds, InOrWaiting, FreshIds;
      assert [] + waiting == waiting;
      AcceptPassAdds(schema, base, batch, items, [], waiting);
      var (stored, rest) := AcceptPass(schema, items, waiting);
      assert [] + rest == rest;
      if |rest| < |waiting| {
        AcceptAllAdds(schema, base, batch, stored, rest);
      }
    }
  }

  lemma BatchAdds(schema: Schema, base: Items, batch: seq<Snapshot>, order: seq<Snapshot>)
    requires FreshIds(base, batch) && multiset(order) == multiset(batch)
    ensures var all := AcceptAll(schema, base, order); all.Some? ==> Adds(base, batch, all.value) && AllIn(batch, all.value)
  {
    forall s
      ensures s in order <==> s in batch
    {
      assert s in multiset(order) <==> s in multiset(batch);
    }
    AcceptAllAdds(schema, base, batch, base, order);
  }

  /** What a settled list holds: the old members, and the batch's members of the group. */
  lemma SettledMembers(schema: Schema, doc: Doc, batch: seq<Snapshot>, key: GroupKey)
    requires InOrder(schema, doc, {}) && FreshIds(doc.items, batch)
    requires SettleRows(doc.groups, RowsOf(schema, batch)).1 == []
    ensures var list := At(SettleRows(doc.groups, RowsOf(schema, batch)).0, key);
            && Distinct(list)
            && forall x :: x in list <==> x in At(doc.groups, key) || exists i :: 0 <= i < |batch| && batch[i].id == x && GroupOf(schema, batch[i].item) == Some(key)
  {
    hide SettleRows, Settle, GroupOf, InsertsFor, RowsOf, InOrder;
    var rows := RowsOf(schema, batch);
    var mine, was := InsertsFor(rows, key), At(doc.groups, key);
    var list := At(SettleRows(doc.groups, rows).0, key);
    SettlePerGroup(doc.groups, rows, key);
    NothingLeftOver(key);
    SettleMembers(was, mine);
    JoinNothingLeft(list);
    InOrderDistinct(schema, doc, {}, key);
    ListHoldsGroup(schema, doc, {}, key);
    MineAre(schema, doc.items, batch, key, mine);
    JoinedMembers(was, InsertIds(mine), list);
  }

  lemma NothingLeftOver(key: GroupKey)
    ensures InsertsFor([], key) == []
  {
  }

  lemma JoinNothingLeft(list: seq<ItemId>)
    ensures multiset(list) + multiset(InsertIds([])) == multiset(list)
  {
  }

  /** The ids a batch has for a group. */
  lemma MineAre(schema: Schema, items: Items, batch: seq<Snapshot>, key: GroupKey, mine: seq<Insert>)
    requires FreshIds(items, batch) && mine == InsertsFor(RowsOf(schema, batch), key)
    ensures Distinct(InsertIds(mine)) && forall x :: x in InsertIds(mine) ==> x !in items
    ensures forall x :: x in InsertIds(mine) <==> exists i :: 0 <= i < |batch| && batch[i].id == x && GroupOf(schema, batch[i].item) == Some(key)
  {
    hide GroupOf, InsertsFor, RowsOf;
    InsertsForDistinct(schema, batch, key);
    forall x | x in InsertIds(mine)
      ensures exists i :: 0 <= i < |batch| && batch[i].id == x && GroupOf(schema, batch[i].item) == Some(key)
      ensures x !in items
    {
      var j :| 0 <= j < |mine| && InsertIds(mine)[j] == x;
      InsertsForMember(schema, batch, key, mine[j]);
      var i :| 0 <= i < |batch| && RowOf(schema, batch[i]) == Row(Some(key), mine[j]);
      assert batch[i].id == x;
    }
    forall i | 0 <= i < |batch| && GroupOf(schema, batch[i].item) == Some(key)
      ensures batch[i].id in InsertIds(mine)
    {
      var row := RowOf(schema, batch[i]);
      InsertsForMember(schema, batch, key, row.insert);
      var j :| 0 <= j < |mine| && mine[j] == row.insert;
      assert InsertIds(mine)[j] == batch[i].id;
    }
  }

  lemma JoinedMembers(a: seq<ItemId>, b: seq<ItemId>, list: seq<ItemId>)
    requires Distinct(a) && Distinct(b) && (forall x :: x in b ==> x !in a) && multiset(list) == multiset(a) + multiset(b)
    ensures Distinct(list) && forall x :: x in list <==> x in a || x in b
  {
    forall i, j | 0 <= i < j < |a + b|
      ensures (a + b)[i] != (a + b)[j]
    {
      if i < |a| <= j {
        assert (a + b)[i] in a && (a + b)[j] in b;
      }
    }
    ArrangedDistinct(list, a + b);
  }

  /** Planned lists and positions written over the accepted items: that is the batch. */
  lemma InsertedAll(schema: Schema, doc: Doc, batch: seq<Snapshot>, base: Items, now: Items, groups: Groups, done: set<GroupKey>)
    requires InOrder(schema, doc, {}) && FreshIds(doc.items, batch) && Adds(doc.items, batch, base) && AllIn(batch, base)
    requires forall i :: 0 <= i < |batch| ==> AsksRightly(schema, batch[i].item)
    requires SettleRows(doc.groups, RowsOf(schema, batch)) == (groups, [])
    requires Refreshed(schema, base, now, groups, done)
    requires forall key :: key !in done ==> At(groups, key) == At(doc.groups, key)
    ensures now == Listed(schema, base, groups)
  {
    hide GroupOf, SettleRows, Refreshed, Holds, InOrder, SlotOk, CacheOk, RowsOf;
    forall key
      ensures Holds(schema, base, key, At(groups, key))
    {
      BatchLists(schema, doc, batch, base, groups, key);
    }
    forall x | x in base
      ensures GroupOf(schema, base[x]).Some? ==> x in At(groups, GroupOf(schema, base[x]).value)
      ensures GroupOf(schema, base[x]).None? ==> base[x].listIndex == None
    {
      InItsList(schema, doc, batch, base, groups, x);
    }
    forall key, i | key !in done && 0 <= i < |At(groups, key)|
      ensures Numbered(base, At(groups, key)[i], i)
    {
      StillNumbered(schema, doc, batch, base, key, i);
    }
    RefreshedIsListed(schema, base, now, groups, done);
  }

  lemma StillNumbered(schema: Schema, doc: Doc, batch: seq<Snapshot>, base: Items, key: GroupKey, i: nat)
    requires InOrder(schema, doc, {}) && Adds(doc.items, batch, base) && i < |At(doc.groups, key)|
    ensures Numbered(base, At(doc.groups, key)[i], i)
  {
    assert SlotOk(schema, doc, key, i);
  }

  lemma BatchLists(schema: Schema, doc: Doc, batch: seq<Snapshot>, base: Items, groups: Groups, key: GroupKey)
    requires InOrder(schema, doc, {}) && FreshIds(doc.items, batch) && Adds(doc.items, batch, base) && AllIn(batch, base)
    requires SettleRows(doc.groups, RowsOf(schema, batch)) == (groups, [])
    ensures Holds(schema, base, key, At(groups, key))
  {
    hide GroupOf, SettleRows, InOrder, RowsOf;
    var list := At(groups, key);
    SettledMembers(schema, doc, batch, key);
    ListHoldsGroup(schema, doc, {}, key);
    forall i | 0 <= i < |list|
      ensures list[i] in base && GroupOf(schema, base[list[i]]) == Some(key)
    {
      var x := list[i];
      assert x in list;
      if x !in At(doc.groups, key) {
        var j :| 0 <= j < |batch| && batch[j].id == x && GroupOf(schema, batch[j].item) == Some(key);
        BatchItemIs(doc.items, batch, base, j);
      }
    }
  }

  lemma BatchItemIs(items: Items, batch: seq<Snapshot>, base: Items, j: nat)
    requires FreshIds(items, batch) && Adds(items, batch, base) && AllIn(batch, base) && j < |batch|
    ensures batch[j].id in base && base[batch[j].id] == batch[j].item
  {
  }

  lemma InItsList(schema: Schema, doc: Doc, batch: seq<Snapshot>, base: Items, groups: Groups, x: ItemId)
    requires InOrder(schema, doc, {}) && FreshIds(doc.items, batch) && Adds(doc.items, batch, base) && x in base
    requires forall i :: 0 <= i < |batch| ==> AsksRightly(schema, batch[i].item)
    requires SettleRows(doc.groups, RowsOf(schema, batch)) == (groups, [])
    ensures GroupOf(schema, base[x]).Some? ==> x in At(groups, GroupOf(schema, base[x]).value)
    ensures GroupOf(schema, base[x]).None? ==> base[x].listIndex == None
  {
    hide SettleRows, RowsOf, GroupOf;
    if x in doc.items {
      assert CacheOk(schema, doc, x);
    }
    if GroupOf(schema, base[x]).Some? {
      var key := GroupOf(schema, base[x]).value;
      SettledMembers(schema, doc, batch, key);
      ListHoldsGroup(schema, doc, {}, key);
    }
  }
}
