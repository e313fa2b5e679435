/** Removing an item with everything below it (`Transaction::remove`,
    src/engine.cpp:3637-3703), and undoing that. */
module Cascade {
  import opened Wrappers
  import opened Sequences
  import opened ListInserts
  import opened GroupPlanner
  import opened Documents
  import opened DocumentLists
  import opened DocumentItems
  import opened Changes
  import opened Undo
  import opened Batches
  import opened Replay
  import P = ParentChain

  /** The items whose chain of parents passes through `root`. */
  ghost function Below(items: Items, root: ItemId): (r: set<ItemId>)
    ensures forall x :: x in r <==> x in items && P.Visits(Parents(items), Some(x), root)
  {
    set x | x in items && P.Visits(Parents(items), Some(x), root)
  }

  /** An order in which a subtree may be collected: the root, then everything below it. */
  ghost predicate Collected(items: Items, root: ItemId, order: seq<ItemId>) {
    Distinct(order) && order != [] && order[0] == root && SetOf(order) == Below(items, root)
  }

  /** What a cascading removal records: one removal, then the cascaded ones. */
  function CascadeChanges(items: Items, order: seq<ItemId>): (r: seq<Change>)
    requires order != [] && forall x :: x in order ==> x in items
    ensures |r| == |order|
  {
    seq(|order|, i requires 0 <= i < |order| =>
      if i == 0 then ItemRemoved(order[0], items[order[0]]) else CascadeRemoved(order[i], items[order[i]], order[0]))
  }

  // ----- What a subtree is -----

  lemma RootIsBelow(items: Items, root: ItemId)
    requires root in items
    ensures root in Below(items, root)
  {
    assert P.Climb(Parents(items), Some(root), 0) == P.At(root);
  }

  /** What hangs under the subtree is in it, and what is in it hangs under it. */
  lemma BelowByParent(items: Items, root: ItemId, x: ItemId)
    requires x in items && x != root
    ensures x in Below(items, root) <==> items[x].parent.Some? && P.Visits(Parents(items), items[x].parent, root)
  {
    var parents := Parents(items);
    assert P.Climb(parents, Some(x), 0) == P.At(x);
    if n: nat :| P.Climb(parents, Some(x), n) == P.At(root) {
      P.StartOneUp(parents, x, n - 1);
      assert P.Climb(parents, parents[x], n - 1) == P.At(root);
      if items[x].parent.None? {
        P.ClimbEnded(parents, parents[x], 0, n - 1);
      }
    }
    if items[x].parent.Some? {
      if n: nat :| P.Climb(parents, parents[x], n) == P.At(root) {
        P.StartOneUp(parents, x, n);
        assert P.Climb(parents, Some(x), n + 1) == P.At(root);
      }
    }
  }

  lemma BelowClosed(schema: Schema, items: Items, root: ItemId, x: ItemId)
    requires Sound(schema, items) && x in items && items[x].parent.Some?
    ensures items[x].parent.value in Below(items, root) ==> x in Below(items, root)
    ensures x in Below(items, root) && x != root ==> items[x].parent.value in Below(items, root)
  {
    assert ParentFits(schema, items, items[x]);
    if x != root {
      BelowByParent(items, root, x);
    } else {
      RootIsBelow(items, root);
    }
  }

  /** Removing a whole subtree leaves a well-formed document. */
  lemma CascadeKeepsWellFormed(schema: Schema, doc: Doc, root: ItemId)
    requires WellFormed(schema, doc) && root in doc.items
    ensures WellFormed(schema, EraseAll(schema, doc, Below(doc.items, root)))
  {
    var removed := Below(doc.items, root);
    forall x | x in doc.items && x !in removed && doc.items[x].parent.Some?
      ensures doc.items[x].parent.value !in removed
    {
      BelowClosed(schema, doc.items, root, x);
    }
    hide Below;
    EraseAllKeepsOrder(schema, doc, removed);
    EraseKeepsSound(schema, doc.items, removed);
    BareMinus(doc.items, removed);
    SoundBare(schema, doc.items - removed, EraseAll(schema, doc, removed).items);
  }

  lemma BareMinus(items: Items, removed: set<ItemId>)
    ensures Bare(items - removed) == Bare(items) - removed
  {
  }

  // ----- Putting the subtree back -----

  /** The snapshots of some items, in some order. */
  ghost predicate SnapshotsOf(items: Items, removed: set<ItemId>, snapshots: seq<Snapshot>) {
    && (forall i :: 0 <= i < |snapshots| ==>
          snapshots[i].id in removed && snapshots[i].id in items && snapshots[i].item == items[snapshots[i].id])
    && (forall i, j :: 0 <= i < j < |snapshots| ==> snapshots[i].id != snapshots[j].id)
    && (forall x :: x in removed ==> Waits(snapshots, x))
  }

  /** The inserts for a group are its removed members, each asking for its old position. */
  lemma InsertsForGroup(schema: Schema, doc: Doc, removed: set<ItemId>, snapshots: seq<Snapshot>, key: GroupKey)
    requires InOrder(schema, doc, {}) && SnapshotsOf(doc.items, removed, snapshots)
    ensures var mine, list := InsertsFor(RowsOf(schema, snapshots), key), At(doc.groups, key);
            && (forall i, j :: 0 <= i < j < |mine| ==> mine[i].id != mine[j].id)
            && (forall x :: x in mine ==> x.id in removed && x.index.Some? && x.index.value < |list| && list[x.index.value] == x.id)
            && (forall p :: 0 <= p < |list| && list[p] in removed ==> Insert(list[p], Some(p)) in mine)
  {
    hide GroupOf;
    var mine, list := InsertsFor(RowsOf(schema, snapshots), key), At(doc.groups, key);
    InsertsForDistinct(schema, snapshots, key);
    forall x | x in mine
      ensures x.id in removed && x.index.Some? && x.index.value < |list| && list[x.index.value] == x.id
    {
      InsertsForMember(schema, snapshots, key, x);
      var i :| 0 <= i < |snapshots| && RowOf(schema, snapshots[i]) == Row(Some(key), x);
      PositionIsCache(schema, doc, x.id, key);
    }
    forall p: nat | p < |list| && list[p] in removed
      ensures Insert(list[p], Some(p)) in mine
    {
      assert SlotOk(schema, doc, key, p) && Waits(snapshots, list[p]);
      var i :| 0 <= i < |snapshots| && snapshots[i].id == list[p];
      assert RowOf(schema, snapshots[i]) == Row(Some(key), Insert(list[p], Some(p)));
      InsertsForMember(schema, snapshots, key, Insert(list[p], Some(p)));
    }
  }

  /** As many inserts as the list has members, when each member has just one. */
  lemma AsManyInserts(list: seq<ItemId>, mine: seq<Insert>)
    requires Distinct(list) && forall i, j :: 0 <= i < j < |mine| ==> mine[i].id != mine[j].id
    requires forall x :: x in mine ==> x.index.Some? && x.index.value < |list| && list[x.index.value] == x.id
    requires forall p :: 0 <= p < |list| ==> Insert(list[p], Some(p)) in mine
    ensures |mine| == |list|
  {
    var ids := seq(|mine|, i requires 0 <= i < |mine| => mine[i].id);
    DistinctSize(ids);
    DistinctSize(list);
    forall id
      ensures id in SetOf(ids) <==> id in SetOf(list)
    {
      if id in SetOf(ids) {
        var i :| 0 <= i < |ids| && ids[i] == id;
        assert mine[i] in mine;
      }
      if id in SetOf(list) {
        var p :| 0 <= p < |list| && list[p] == id;
        var i :| 0 <= i < |mine| && mine[i] == Insert(list[p], Some(p));
        assert ids[i] == id;
      }
    }
    assert SetOf(ids) == SetOf(list);
  }

  /** A list all of whose members went settles back from nothing. */
  lemma WholeListSettles(list: seq<ItemId>, removed: set<ItemId>, mine: seq<Insert>)
    requires Distinct(list) && forall x :: x in list ==> x in removed
    requires forall i, j :: 0 <= i < j < |mine| ==> mine[i].id != mine[j].id
    requires forall x :: x in mine ==> x.index.Some? && x.index.value < |list| && list[x.index.value] == x.id
    requires forall p :: 0 <= p < |list| && list[p] in removed ==> Insert(list[p], Some(p)) in mine
    ensures Settle(Survivors(list, removed), mine) == (list, [])
  {
    NoSurvivors(list, removed);
    AsManyInserts(list, mine);
    forall i, j | 0 <= i < j < |mine|
      ensures mine[i].index != mine[j].index
    {
      assert mine[i] in mine && mine[j] in mine;
    }
    SettleFillsTail([], mine, list);
  }

  lemma {:induction false} NoSurvivors(list: seq<ItemId>, removed: set<ItemId>)
    requires forall x :: x in list ==> x in removed
    ensures Survivors(list, removed) == []
  {
    if list != [] {
      NoSurvivors(list[1..], removed);
    }
  }

  /** A list of which only the root went settles back with its one insert. */
  lemma RootListSettles(list: seq<ItemId>, removed: set<ItemId>, mine: seq<Insert>, root: ItemId)
    requires Distinct(list) && root in removed && forall x :: x in list && x in removed ==> x == root
    requires forall i, j :: 0 <= i < j < |mine| ==> mine[i].id != mine[j].id
    requires forall x :: x in mine ==> x.id in removed && x.index.Some? && x.index.value < |list| && list[x.index.value] == x.id
    requires forall p :: 0 <= p < |list| && list[p] in removed ==> Insert(list[p], Some(p)) in mine
    ensures Settle(Survivors(list, removed), mine) == (list, [])
  {
    forall x | x in mine
      ensures x.id == root
    {
      assert list[x.index.value] in list;
    }
    if mine == [] {
      assert forall p :: 0 <= p < |list| ==> list[p] !in removed;
      SurvivorsOfNone(list, removed);
      SettleNothing(list);
    } else {
      assert |mine| <= 1 || mine[0].id != mine[1].id;
      assert mine[0] in mine && mine == [mine[0]];
      var at := mine[0].index.value;
      SurvivorsOnly(list, removed, root);
      RemoveThenInsert(list, at);
      SettleOne(Survivors(list, {root}), mine[0]);
    }
  }

  lemma {:induction false} SurvivorsOnly(list: seq<ItemId>, removed: set<ItemId>, root: ItemId)
    requires root in removed && forall x :: x in list && x in removed ==> x == root
    ensures Survivors(list, removed) == Survivors(list, {root})
  {
    if list != [] {
      assert list[0] in list;
      SurvivorsOnly(list[1..], removed, root);
    }
  }

  lemma SettleOne(list: seq<ItemId>, x: Insert)
    requires Fits(list, x)
    ensures Settle(list, [x]) == (Place(list, x), [])
  {
    assert [x][1..] == [];
    SettleNothing(Place(list, x));
  }

  /** Every list settles back. */
  lemma ListsSettle(schema: Schema, doc: Doc, root: ItemId, snapshots: seq<Snapshot>, key: GroupKey)
    requires WellFormed(schema, doc) && root in doc.items
    requires SnapshotsOf(doc.items, Below(doc.items, root), snapshots)
    ensures var removed := Below(doc.items, root);
            Settle(Survivors(At(doc.groups, key), removed), InsertsFor(RowsOf(schema, snapshots), key)) == (At(doc.groups, key), [])
  {
    var removed, list := Below(doc.items, root), At(doc.groups, key);
    var mine := InsertsFor(RowsOf(schema, snapshots), key);
    InsertsForGroup(schema, doc, removed, snapshots, key);
    InOrderDistinct(schema, doc, {}, key);
    ListHoldsGroup(schema, doc, {}, key);
    RootIsBelow(doc.items, root);
    forall x | x in list
      ensures key.owner in removed ==> x in removed
      ensures key.owner !in removed && x in removed ==> x == root
    {
      BelowClosed(schema, doc.items, root, x);
    }
    if key.owner in removed {
      WholeListSettles(list, removed, mine);
    } else {
      RootListSettles(list, removed, mine, root);
    }
  }

  /** A removed subtree, put back as one batch in any order, restores the document. */
  lemma SubtreeBack(schema: Schema, doc: Doc, root: ItemId, snapshots: seq<Snapshot>, order: seq<Snapshot>)
    requires WellFormed(schema, doc) && root in doc.items
    requires SnapshotsOf(doc.items, Below(doc.items, root), snapshots) && multiset(order) == multiset(snapshots)
    ensures InsertBatch(schema, EraseAll(schema, doc, Below(doc.items, root)), snapshots, order) == Some(doc)
  {
    hide Below, SnapshotsOf, SettleRows, EraseAll, Sound;
    var removed := Below(doc.items, root);
    var d := EraseAll(schema, doc, removed);
    CascadeKeepsWellFormed(schema, doc, root);
    EraseAllKeepsOrder(schema, doc, removed);
    RestIsPart(schema, doc, d, removed, snapshots);
    PartitionArranged(schema, doc.items, d.items, snapshots, order);
    var rows := RowsOf(schema, snapshots);
    forall key: GroupKey
      ensures Settle(At(d.groups, key), InsertsFor(rows, key)) == (At(doc.groups, key), [])
      ensures At(SettleRows(d.groups, rows).0, key) == At(doc.groups, key)
    {
      ListsSettle(schema, doc, root, snapshots, key);
      SettlePerGroup(d.groups, rows, key);
    }
    SettledPerGroup(d.groups, rows);
    BatchCompletes(schema, doc, d, snapshots, order);
  }

  lemma RestIsPart(schema: Schema, doc: Doc, d: Doc, removed: set<ItemId>, snapshots: seq<Snapshot>)
    requires WellFormed(schema, doc) && WellFormed(schema, d) && Bare(d.items) == Bare(doc.items) - removed
    requires SnapshotsOf(doc.items, removed, snapshots)
    ensures Partition(schema, doc.items, d.items, snapshots)
  {
    hide Sound, InOrder;
    assert d.items.Keys == Bare(d.items).Keys && doc.items.Keys == Bare(doc.items).Keys;
    forall x | x in d.items
      ensures x in doc.items && SameBare(d.items[x], doc.items[x])
      ensures d.items[x].parent.Some? ==> d.items[x].parent.value in d.items
    {
      assert Bare(d.items)[x] == Bare(doc.items)[x];
      StoredParent(schema, d, x);
    }
  }

  // ----- The change set of a cascading removal -----

  lemma {:induction false} InverseAllAt(changes: seq<Change>, i: nat)
    requires i < |changes|
    ensures InverseAll(changes)[i] == Inverse(changes[|changes| - 1 - i])
    decreases |changes|
  {
    if i < |changes| - 1 {
      InverseAllAt(changes[1..], i);
    }
  }

  lemma {:induction false} AllLead(changes: seq<Change>)
    requires forall i :: 0 <= i < |changes| ==> changes[i].ItemInserted?
    ensures LeadingInserts(changes) == |changes|
  {
    if changes != [] {
      AllLead(changes[1..]);
    }
  }

  /** The inverse of a cascading removal inserts the subtree, last collected first. */
  lemma CascadeInverse(items: Items, order: seq<ItemId>)
    requires order != [] && forall x :: x in order ==> x in items
    ensures var changes := InverseAll(CascadeChanges(items, order));
            && |changes| == |order| == LeadingInserts(changes)
            && forall i :: 0 <= i < |order| ==> changes[i] == ItemInserted(order[|order| - 1 - i], items[order[|order| - 1 - i]])
  {
    var changes := InverseAll(CascadeChanges(items, order));
    forall i | 0 <= i < |changes|
      ensures changes[i] == ItemInserted(order[|order| - 1 - i], items[order[|order| - 1 - i]])
    {
      InverseAllAt(CascadeChanges(items, order), i);
    }
    AllLead(changes);
  }

  /** A change set that is one batch. */
  lemma OneBatch(schema: Schema, doc: Doc, changes: seq<Change>, arrange: Arrangement, whole: Doc)
    requires |changes| > 1 && LeadingInserts(changes) == |changes|
    requires InsertBatch(schema, doc, Inserted(changes), arrange(Inserted(changes))) == Some(whole)
    ensures ApplyChangeSet(schema, doc, changes, [], arrange) == Some(whole)
  {
    hide InsertBatch, LeadingInserts;
    assert changes[..|changes|] == changes && changes[|changes|..] == [];
  }

  lemma OneInsertion(schema: Schema, doc: Doc, change: Change, arrange: Arrangement, whole: Doc)
    requires change.ItemInserted? && Apply(schema, doc, change) == Some(whole)
    ensures ApplyChangeSet(schema, doc, [change], [], arrange) == Some(whole)
  {
    hide Apply;
    var changes := [change];
    assert changes[1..] == [] && changes[..1] == changes;
    assert LeadingInserts([change]) == 1;
    assert TryEach(schema, doc, [change]) == (whole, []);
  }

  /** Undoing one lone cascading removal restores the document, in whatever order the
      subtree was collected and in whatever order the batch is tried. */
  lemma UndoCascade(schema: Schema, doc: Doc, root: ItemId, order: seq<ItemId>, arrange: Arrangement)
    requires WellFormed(schema, doc) && root in doc.items && Collected(doc.items, root, order) && Arranges(arrange)
    ensures forall x :: x in order ==> x in doc.items
    ensures ApplyChangeSet(schema, EraseAll(schema, doc, SetOf(order)), InverseAll(CascadeChanges(doc.items, order)), [], arrange)
         == Some(doc)
  {
    assert forall x :: x in order ==> x in SetOf(order);
    var changes := InverseAll(CascadeChanges(doc.items, order));
    var d := EraseAll(schema, doc, SetOf(order));
    CascadeInverse(doc.items, order);
    if |order| == 1 {
      LoneItem(schema, doc, root, order);
      EraseOne(schema, doc, root);
      assert changes == [ItemInserted(root, doc.items[root])];
      OneInsertion(schema, d, changes[0], arrange, doc);
    } else {
      SnapshotsBack(doc.items, order, changes);
      SubtreeBack(schema, doc, root, Inserted(changes), arrange(Inserted(changes)));
      OneBatch(schema, d, changes, arrange, doc);
    }
  }

  lemma SnapshotsBack(items: Items, order: seq<ItemId>, changes: seq<Change>)
    requires Distinct(order) && |changes| == |order| && forall x :: x in order ==> x in items
    requires forall i :: 0 <= i < |order| ==> changes[i] == ItemInserted(order[|order| - 1 - i], items[order[|order| - 1 - i]])
    ensures SnapshotsOf(items, SetOf(order), Inserted(changes))
  {
    var snapshots := Inserted(changes);
    forall i | 0 <= i < |snapshots|
      ensures snapshots[i] == Snapshot(order[|order| - 1 - i], items[order[|order| - 1 - i]])
    {
      assert changes[i] == ItemInserted(order[|order| - 1 - i], items[order[|order| - 1 - i]]);
    }
    forall x | x in SetOf(order)
      ensures Waits(snapshots, x)
    {
      var i :| 0 <= i < |order| && order[i] == x;
      assert snapshots[|order| - 1 - i].id == x;
    }
  }

  lemma LoneItem(schema: Schema, doc: Doc, root: ItemId, order: seq<ItemId>)
    requires WellFormed(schema, doc) && root in doc.items && Collected(doc.items, root, order) && |order| == 1
    ensures Childless(doc.items, root) && SetOf(order) == {root}
  {
    assert order == [root];
    forall x | x in doc.items
      ensures doc.items[x].parent != Some(root)
    {
      if doc.items[x].parent == Some(root) {
        RootIsBelow(doc.items, root);
        BelowClosed(schema, doc.items, root, x);
        assert x in SetOf(order);
        P.RootedNeverReturns(Parents(doc.items), root, 0);
      }
    }
  }
}
