/** What each request of a transaction does to the items and lists, and when it is refused,
    said of the stored cells, parents and lists themselves (src/engine.cpp:667-812,
    3515-3634, 3714-3998). */
module Requests {
  import opened Wrappers
  import opened Sequences
  import opened Values
  import opened ListInserts
  import opened GroupPlanner
  import opened Documents
  import opened DocumentLists
  import opened DocumentItems
  import opened Changes
  import opened Undo
  import opened JointUpdates
  import opened DivisionFacts
  import P = ParentChain

  // ----- What validation asks -----

  /** Every cell is of a column and of the column's type, and columns without one may be null. */
  predicate CellsFit(container: Container, cells: Cells) {
    && (forall k :: k in cells ==> k in container.columns && Tag(cells[k]) == container.columns[k].tag)
    && (forall k :: k in container.columns && k !in cells ==> container.columns[k].nullable)
  }

  /** The parent is stored in the container that parents come from; without one, none is needed. */
  predicate OwnerFits(schema: Schema, items: Items, container: ContainerId, parent: Option<ItemId>) {
    && container in schema
    && match parent
       case None => !schema[container].needsParent
       case Some(p) => p in items && schema[container].target == Some(items[p].container)
  }

  /** The other item is of the container and, if its values are unique below each owner, of
      the same owner. */
  predicate InScope(schema: Schema, other: Item, container: ContainerId, parent: Option<ItemId>) {
    && container in schema && other.container == container
    && (schema[container].target.None? || (parent.Some? && other.parent == parent))
  }

  /** No other item of the scope has the cell of a unique column. Being null is such a cell
      where nulls count. */
  predicate CellFree(schema: Schema, items: Items, id: ItemId, container: ContainerId, parent: Option<ItemId>, k: ColumnId, cell: Option<Value>) {
    && container in schema
    && (k in schema[container].columns && schema[container].columns[k].unique && (cell.Some? || schema[container].columns[k].countsNull) ==>
          forall other :: other in items && other != id && InScope(schema, items[other], container, parent) ==> Held(items[other].values, k) != cell)
  }

  predicate CellsFree(schema: Schema, items: Items, id: ItemId, container: ContainerId, parent: Option<ItemId>, cells: Cells) {
    container in schema && forall k :: k in schema[container].columns ==> CellFree(schema, items, id, container, parent, k, Held(cells, k))
  }

  /** The item up to its position. */
  predicate SameFields(a: Item, b: Item) {
    a.container == b.container && a.parent == b.parent && a.values == b.values
  }

  /** No item but this one has come, gone or changed, but for positions. */
  ghost predicate OnlyThis(before: Items, after: Items, id: ItemId) {
    forall x :: x != id ==> (x in before <==> x in after) && (x in before ==> SameFields(after[x], before[x]))
  }

  // ----- What validation is -----

  lemma CellsFitIff(container: Container, item: Item)
    ensures ValuesFit(container, item) <==> CellsFit(container, item.values)
  {
    if ValuesFit(container, item) {
      forall k | k in container.columns && k !in item.values
        ensures container.columns[k].nullable
      {
        assert Admits(container.columns[k], ValueAt(item, k));
      }
      forall k | k in item.values
        ensures k in container.columns && Tag(item.values[k]) == container.columns[k].tag
      {
        assert Admits(container.columns[k], ValueAt(item, k));
      }
    }
  }

  lemma CellsFreeIff(schema: Schema, items: Items, id: ItemId, item: Item)
    requires item.container in schema
    ensures CellsFree(schema, items, id, item.container, item.parent, item.values)
       <==> forall other, k :: other in items && other != id ==> !Clash(schema, item, items[other], k)
  {
    var columns := schema[item.container].columns;
    forall other, k | other in items && other != id && k in columns
      ensures Clash(schema, item, items[other], k)
         <==> columns[k].unique && (Held(item.values, k).Some? || columns[k].countsNull) && InScope(schema, items[other], item.container, item.parent)
              && Held(items[other].values, k) == Held(item.values, k)
    {
      ClashIff(schema, item, items[other], k);
    }
  }

  lemma ClashIff(schema: Schema, item: Item, other: Item, k: ColumnId)
    requires item.container in schema && k in schema[item.container].columns
    ensures Clash(schema, item, other, k)
       <==> schema[item.container].columns[k].unique && (Held(item.values, k).Some? || schema[item.container].columns[k].countsNull)
            && InScope(schema, other, item.container, item.parent) && Held(other.values, k) == Held(item.values, k)
  {
  }

  /** An item is accepted exactly when its cells fit, its owner fits and is not below it, and
      no other item of its scope has one of its unique cells. */
  lemma AcceptsIff(schema: Schema, items: Items, id: ItemId, item: Item)
    requires Sound(schema, items) && (id in items ==> items[id].container == item.container)
    ensures Accepts(schema, items, id, item, if id in items then Some(items[id]) else None)
       <==> && item.container in schema && CellsFit(schema[item.container], item.values)
            && OwnerFits(schema, items, item.container, item.parent) && !P.Visits(Parents(items), item.parent, id)
            && CellsFree(schema, items, id, item.container, item.parent, item.values)
  {
    hide CellsFit, ValuesFit, CellsFree, Clash, P.Visits, P.EndsWithout, UniqueFor;
    if item.container in schema {
      CellsFitIff(schema[item.container], item);
      CellsFreeIff(schema, items, id, item);
      UniqueIff(schema, items, id, item);
      assert ParentFits(schema, items, item) <==> OwnerFits(schema, items, item.container, item.parent);
      if ParentFits(schema, items, item) {
        EndsIff(items, id, item.parent);
      }
    }
  }

  lemma UniqueIff(schema: Schema, items: Items, id: ItemId, item: Item)
    requires Sound(schema, items) && (id in items ==> items[id].container == item.container) && item.container in schema
    ensures UniqueFor(schema, items, id, item, if id in items then Some(items[id]) else None)
       <==> forall other, k :: other in items && other != id ==> !Clash(schema, item, items[other], k)
  {
    hide Clash;
    if UniqueFor(schema, items, id, item, if id in items then Some(items[id]) else None) {
      forall other, k | other in items && other != id
        ensures !Clash(schema, item, items[other], k)
      {
        NewDoesNotClash(schema, items, id, item, other, k);
      }
    }
  }

  lemma EndsIff(items: Items, id: ItemId, parent: Option<ItemId>)
    requires Forest(items) && (parent.Some? ==> parent.value in items)
    ensures P.EndsWithout(Parents(items), id, parent, P.Top) <==> !P.Visits(Parents(items), parent, id)
  {
    var parents := Parents(items);
    assert P.Climb(parents, None, 0) == P.Top;
    if parent.Some? {
      assert P.Rooted(parents, parent);
    }
    var n: nat :| P.Climb(parents, parent, n) == P.Top;
    if P.Visits(parents, parent, id) && P.EndsWithout(parents, id, parent, P.Top) {
      var k: nat :| P.Climb(parents, parent, k) == P.At(id);
      var m: nat :| P.Climb(parents, parent, m) == P.Top && forall j: nat :: j < m ==> P.Climb(parents, parent, j) != P.At(id);
      TopStays(parents, parent, m, k);
    }
  }

  lemma {:induction false} TopStays(parents: P.Parents, start: Option<ItemId>, m: nat, k: nat)
    requires P.Climb(parents, start, m) == P.Top && m <= k
    ensures P.Climb(parents, start, k) == P.Top
    decreases k
  {
    if m < k {
      TopStays(parents, start, m, k - 1);
    }
  }

  /** A fresh item is met by no chain. */
  lemma FreshIsNotMet(items: Items, id: ItemId, parent: Option<ItemId>)
    requires Forest(items) && id !in items && (parent.Some? ==> parent.value in items)
    ensures !P.Visits(Parents(items), parent, id)
  {
    var parents := Parents(items);
    if k: nat :| P.Climb(parents, parent, k) == P.At(id) {
      assert P.Climb(parents, None, 0) == P.Top;
      if parent.Some? {
        assert P.Rooted(parents, parent);
      }
      var n: nat :| P.Climb(parents, parent, n) == P.Top;
      if n <= k {
        TopStays(parents, parent, n, k);
      } else {
        assert P.Climb(parents, parent, k + 1) == P.Lost;
        LostStays(parents, parent, k + 1, n);
      }
    }
  }

  lemma {:induction false} LostStays(parents: P.Parents, start: Option<ItemId>, m: nat, k: nat)
    requires P.Climb(parents, start, m) == P.Lost && m <= k
    ensures P.Climb(parents, start, k) == P.Lost
    decreases k
  {
    if m < k {
      LostStays(parents, start, m, k - 1);
    }
  }

  // ----- Insertions -----

  lemma RowInserted(schema: Schema, doc: Doc, id: ItemId, container: ContainerId, parent: Option<ItemId>, values: Cells)
    requires id !in doc.items
    ensures var r := Perform(schema, doc, InsertRow(id, container, parent, values));
            && (r.Some? ==> r.value.items == doc.items[id := Item(container, parent, values, None)] && r.value.groups == doc.groups)
            && (Sound(schema, doc.items) ==>
                  (r.Some? <==>
                     && container in schema && !schema[container].isList && CellsFit(schema[container], values)
                     && OwnerFits(schema, doc.items, container, parent) && CellsFree(schema, doc.items, id, container, parent, values)))
  {
    hide Accepts, CellsFit, CellsFree, P.Visits, Forest, Typed, Unique;
    var item := Item(container, parent, values, None);
    if Sound(schema, doc.items) {
      AcceptsIff(schema, doc.items, id, item);
      if OwnerFits(schema, doc.items, container, parent) {
        FreshIsNotMet(doc.items, id, parent);
      }
    }
  }

  lemma ListItemInserted(schema: Schema, doc: Doc, id: ItemId, container: ContainerId, parent: Option<ItemId>, index: nat, values: Cells)
    requires id !in doc.items && InOrder(schema, doc, {})
    ensures var r := Perform(schema, doc, InsertInList(id, container, parent, index, values));
            && (r.Some? ==>
                  && id in r.value.items && r.value.items[id] == Item(container, parent, values, if parent.Some? then Some(index) else None)
                  && OnlyThis(doc.items, r.value.items, id)
                  && (parent.Some? ==>
                        var list := At(doc.groups, GroupKey(container, parent.value));
                        index <= |list| && At(r.value.groups, GroupKey(container, parent.value)) == list[..index] + [id] + list[index..])
                  && forall key :: parent.None? || key != GroupKey(container, parent.value) ==> At(r.value.groups, key) == At(doc.groups, key))
            && (Sound(schema, doc.items) ==>
                  (r.Some? <==>
                     && container in schema && schema[container].isList && schema[container].target.Some?
                     && index <= (if parent.Some? then |At(doc.groups, GroupKey(container, parent.value))| else 0)
                     && CellsFit(schema[container], values)
                     && OwnerFits(schema, doc.items, container, parent) && CellsFree(schema, doc.items, id, container, parent, values)))
  {
    hide Accepts, CellsFit, CellsFree, P.Visits, Forest, Typed, Unique, InOrder, OwnerFits, OnlyThis, Reindexed;
    var request := InsertInList(id, container, parent, index, values);
    var item := Item(container, parent, values, if parent.Some? then Some(index) else None);
    if Sound(schema, doc.items) {
      AcceptsIff(schema, doc.items, id, item);
      if OwnerFits(schema, doc.items, container, parent) {
        OwnerIsThere(schema, doc.items, container, parent);
        FreshIsNotMet(doc.items, id, parent);
      }
    }
    if Perform(schema, doc, request).Some? {
      NewIsSkipped(schema, doc, id);
      InsertKeepsOrder(schema, doc, id, item);
      BareMeansOnlyThis(doc.items, InsertIntoGroup(schema, doc, id, item).value.items, id, item);
    }
  }

  lemma OwnerIsThere(schema: Schema, items: Items, container: ContainerId, parent: Option<ItemId>)
    requires OwnerFits(schema, items, container, parent)
    ensures parent.Some? ==> parent.value in items
  {
  }

  lemma BareMeansOnlyThis(before: Items, after: Items, id: ItemId, item: Item)
    requires Bare(after) == Bare(before)
    ensures OnlyThis(before, after, id) && OnlyThis(before, after[id := item], id)
  {
    BareSame(after, before);
    forall x
      ensures x in before <==> x in after
      ensures x in before ==> SameFields(after[x], before[x])
    {
      assert x in Bare(after) <==> x in Bare(before);
      if x in before {
        assert Bare(after)[x] == Bare(before)[x];
        SameBareFields(after[x], before[x]);
      }
    }
  }

  // ----- Updates of one column -----

  /** What a stored item meets. */
  lemma StoredIsRight(schema: Schema, items: Items, id: ItemId)
    requires Sound(schema, items) && id in items
    ensures var item := items[id];
            && item.container in schema && CellsFit(schema[item.container], item.values)
            && OwnerFits(schema, items, item.container, item.parent) && !P.Visits(Parents(items), item.parent, id)
            && CellsFree(schema, items, id, item.container, item.parent, item.values)
  {
    hide CellsFit, ValuesFit, CellsFree, Clash, P.Rooted;
    var item := items[id];
    CellsFitIff(schema[item.container], item);
    CellsFreeIff(schema, items, id, item);
    if k: nat :| P.Climb(Parents(items), item.parent, k) == P.At(id) {
      P.RootedNeverReturns(Parents(items), id, k);
    }
  }

  /** The cells with one set; setting null takes it away. */
  lemma OneCellFits(container: Container, cells: Cells, column: ColumnId, v: Value)
    requires CellsFit(container, cells) && column in container.columns
    ensures CellsFit(container, SetCell(cells, column, v))
       <==> if v == Null then container.columns[column].nullable else Tag(v) == container.columns[column].tag
  {
    var after := SetCell(cells, column, v);
    if CellsFit(container, after) {
      assert v != Null ==> after[column] == v;
      assert v == Null ==> column !in after;
    }
  }

  lemma OneCellFree(schema: Schema, items: Items, id: ItemId, container: ContainerId, parent: Option<ItemId>, cells: Cells, column: ColumnId, v: Value)
    requires CellsFree(schema, items, id, container, parent, cells) && column in schema[container].columns
    ensures CellsFree(schema, items, id, container, parent, SetCell(cells, column, v))
       <==> CellFree(schema, items, id, container, parent, column, if v == Null then None else Some(v))
  {
    hide CellFree;
    var after := SetCell(cells, column, v);
    assert Held(after, column) == if v == Null then None else Some(v);
    assert forall k :: k != column ==> Held(after, k) == Held(cells, k);
  }

  lemma ValueSet(schema: Schema, doc: Doc, id: ItemId, column: ColumnId, v: Value)
    ensures var r := Perform(schema, doc, SetValue(id, column, v));
            && (r.Some? ==>
                  && id in doc.items
                  && r.value.items == doc.items[id := doc.items[id].(values :=
                       if v == Null then doc.items[id].values - {column} else doc.items[id].values[column := v])]
                  && r.value.groups == doc.groups)
            && (Sound(schema, doc.items) ==>
                  (r.Some? <==>
                     && id in doc.items && doc.items[id].container in schema && column in schema[doc.items[id].container].columns
                     && (if v == Null then schema[doc.items[id].container].columns[column].nullable
                         else Tag(v) == schema[doc.items[id].container].columns[column].tag)
                     && CellFree(schema, doc.items, id, doc.items[id].container, doc.items[id].parent, column, if v == Null then None else Some(v))))
  {
    hide Accepts, CellsFit, CellFree, CellsFree, P.Visits, Sound, InsertIntoGroup, RemoveFromGroup;
    if id in doc.items && doc.items[id].container in schema && column in schema[doc.items[id].container].columns {
      var was := doc.items[id];
      var item := was.(values := SetCell(was.values, column, v));
      assert !MembershipChanged(schema, was, item);
      if Sound(schema, doc.items) {
        StoredIsRight(schema, doc.items, id);
        AcceptsIff(schema, doc.items, id, item);
        OneCellFits(schema[was.container], was.values, column, v);
        OneCellFree(schema, doc.items, id, was.container, was.parent, was.values, column, v);
      }
    }
  }

  // ----- Moves -----

  /** What a move does to the lists: the item is out of the old one, and in the new one at the
      position that was asked for. */
  ghost predicate ListsMoved(before: Groups, after: Groups, id: ItemId, container: ContainerId, from: Option<ItemId>, at: Option<nat>, to: Option<ItemId>, target: Option<nat>) {
    && (forall key :: !(from.Some? && key == GroupKey(container, from.value)) && !(to.Some? && key == GroupKey(container, to.value)) ==>
          At(after, key) == At(before, key))
    && (from.Some? ==>
          var list := At(before, GroupKey(container, from.value));
          && at.Some? && at.value < |list| && list[at.value] == id
          && (to != from ==> At(after, GroupKey(container, from.value)) == list[..at.value] + list[at.value + 1..]))
    && (to.Some? ==>
          var list := At(after, GroupKey(container, to.value));
          && target.Some? && target.value < |list| && list[target.value] == id
          && list[..target.value] + list[target.value + 1..]
             == if to == from then At(before, GroupKey(container, to.value))[..at.value] + At(before, GroupKey(container, to.value))[at.value + 1..]
                else At(before, GroupKey(container, to.value)))
  }

  /** How many positions the new list offers. */
  function Room(groups: Groups, container: ContainerId, from: Option<ItemId>, to: ItemId): int {
    |At(groups, GroupKey(container, to))| - if from == Some(to) then 1 else 0
  }

  /** Out of the old list. */
  lemma TakenOut(schema: Schema, doc: Doc, id: ItemId)
    requires InOrder(schema, doc, {}) && id in doc.items
    ensures var was, without := doc.items[id], RemoveFromGroup(schema, doc, id, doc.items[id]);
            match GroupOf(schema, was)
            case None => without.groups == doc.groups
            case Some(key) =>
              var list := At(doc.groups, key);
              && was.listIndex.Some? && was.listIndex.value < |list| && list[was.listIndex.value] == id
              && forall k :: At(without.groups, k) == if k == key then RemoveAt(list, was.listIndex.value) else At(doc.groups, k)
  {
    hide Reindexed;
    assert CacheOk(schema, doc, id);
  }

  /** Into the new one. */
  lemma PutIn(schema: Schema, doc: Doc, id: ItemId, item: Item)
    requires AsksRightly(schema, item)
    ensures var moved := InsertIntoGroup(schema, doc, id, item);
            match GroupOf(schema, item)
            case None => moved == Some(doc)
            case Some(key) =>
              && item.listIndex.Some? && (moved.Some? <==> item.listIndex.value <= |At(doc.groups, key)|)
              && (moved.Some? ==> forall k :: At(moved.value.groups, k) == if k == key then InsertAt(At(doc.groups, key), item.listIndex.value, id) else At(doc.groups, k))
  {
    hide Reindexed;
  }

  lemma OutAndIn(schema: Schema, doc: Doc, id: ItemId, item: Item)
    requires InOrder(schema, doc, {}) && id in doc.items && item.container == doc.items[id].container && AsksRightly(schema, item)
    requires item.container in schema && schema[item.container].isList
    ensures var was := doc.items[id];
            var moved := InsertIntoGroup(schema, RemoveFromGroup(schema, doc, id, was), id, item);
            && (moved.Some? <==> (item.parent.Some? ==> item.listIndex.value <= Room(doc.groups, item.container, was.parent, item.parent.value)))
            && (moved.Some? ==> ListsMoved(doc.groups, moved.value.groups, id, item.container, was.parent, was.listIndex, item.parent, item.listIndex))
  {
    hide InOrder, RemoveFromGroup, InsertIntoGroup, InsertAt;
    var was := doc.items[id];
    var without := RemoveFromGroup(schema, doc, id, was);
    TakenOut(schema, doc, id);
    PutIn(schema, without, id, item);
    if item.parent.Some? && item.listIndex.value <= |At(without.groups, GroupKey(item.container, item.parent.value))| {
      PutThenTake(At(without.groups, GroupKey(item.container, item.parent.value)), item.listIndex.value, id);
    }
  }

  lemma PutThenTake(list: seq<ItemId>, t: nat, id: ItemId)
    requires t <= |list|
    ensures var now := InsertAt(list, t, id); now[t] == id && now[..t] + now[t + 1..] == list
  {
  }

  lemma ParentSet(schema: Schema, doc: Doc, id: ItemId, parent: Option<ItemId>, targetIndex: Option<nat>)
    requires InOrder(schema, doc, {})
    ensures var r := Perform(schema, doc, SetParent(id, parent, targetIndex));
            && (r.Some? ==>
                  && id in doc.items && doc.items[id].container in schema && id in r.value.items
                  && r.value.items[id].container == doc.items[id].container && r.value.items[id].parent == parent
                  && r.value.items[id].values == doc.items[id].values && OnlyThis(doc.items, r.value.items, id)
                  && if schema[doc.items[id].container].isList
                     then ListsMoved(doc.groups, r.value.groups, id, doc.items[id].container, doc.items[id].parent, doc.items[id].listIndex,
                                     parent, if parent.Some? then targetIndex else None)
                     else forall key :: At(r.value.groups, key) == At(doc.groups, key))
            && (Sound(schema, doc.items) ==>
                  (r.Some? <==>
                     && id in doc.items && doc.items[id].container in schema && schema[doc.items[id].container].target.Some?
                     && (schema[doc.items[id].container].isList && parent.Some? ==>
                           targetIndex.Some? && targetIndex.value <= Room(doc.groups, doc.items[id].container, doc.items[id].parent, parent.value))
                     && OwnerFits(schema, doc.items, doc.items[id].container, parent) && !P.Visits(Parents(doc.items), parent, id)
                     && CellsFree(schema, doc.items, id, doc.items[id].container, parent, doc.items[id].values)))
  {
    hide Accepts, CellsFit, CellsFree, P.Visits, Sound, InOrder, InsertIntoGroup, RemoveFromGroup, ListsMoved, OwnerFits, OnlyThis, Room;
    if id in doc.items && Rehung(schema, doc.items[id], parent, targetIndex).Some? {
      var was := doc.items[id];
      var item := Rehung(schema, was, parent, targetIndex).value;
      OrderedAsksRightly(schema, doc, id);
      if Sound(schema, doc.items) {
        StoredIsRight(schema, doc.items, id);
        AcceptsIff(schema, doc.items, id, item);
      }
      if schema[was.container].isList {
        OutAndIn(schema, doc, id, item);
        if !MembershipChanged(schema, was, item) {
          Unchanged(schema, doc, id, item);
        }
      } else {
        assert !MembershipChanged(schema, was, item);
      }
      if UpdateItem(schema, doc, id, item).Some? {
        OthersStay(schema, doc, id, item);
      }
    }
  }

  /** An update that changes no membership stays in range, and leaves the lists. */
  lemma Unchanged(schema: Schema, doc: Doc, id: ItemId, item: Item)
    requires InOrder(schema, doc, {}) && id in doc.items && item.container == doc.items[id].container && AsksRightly(schema, item)
    requires item.container in schema && schema[item.container].isList && !MembershipChanged(schema, doc.items[id], item)
    ensures item.parent.Some? ==> item.listIndex.value <= Room(doc.groups, item.container, doc.items[id].parent, item.parent.value)
    ensures ListsMoved(doc.groups, doc.groups, id, item.container, doc.items[id].parent, doc.items[id].listIndex, item.parent, item.listIndex)
  {
    assert CacheOk(schema, doc, id);
  }

  lemma OthersStay(schema: Schema, doc: Doc, id: ItemId, item: Item)
    requires InOrder(schema, doc, {}) && id in doc.items && AsksRightly(schema, item) && UpdateItem(schema, doc, id, item).Some?
    ensures var items := UpdateItem(schema, doc, id, item).value.items; OnlyThis(doc.items, items, id) && id in items && items[id] == item
  {
    hide Accepts, InOrder, InsertIntoGroup, RemoveFromGroup, OnlyThis;
    if MembershipChanged(schema, doc.items[id], item) {
      RemoveKeepsOrder(schema, doc, id);
      var r := RemoveFromGroup(schema, doc, id, doc.items[id]);
      InsertKeepsOrder(schema, r, id, item);
      BareMeansOnlyThis(doc.items, InsertIntoGroup(schema, r, id, item).value.items, id, item);
    } else {
      BareMeansOnlyThis(doc.items, doc.items, id, item);
    }
  }

  // ----- Several columns at once -----

  /** Each column that is given holds what it is given, and the others what they held. */
  ghost predicate AllSet(was: Item, now: Item, edits: seq<Edit>) {
    && now.container == was.container
    && (forall e :: e in edits && e.ParentEdit? ==> now.parent == e.parent)
    && (forall e :: e in edits && e.CellEdit? ==> Held(now.values, e.column) == if e.v == Null then None else Some(e.v))
    && ((forall e :: e in edits ==> e.CellEdit?) ==> now.parent == was.parent)
    && forall k :: (forall e :: e in edits && e.CellEdit? ==> e.column != k) ==> Held(now.values, k) == Held(was.values, k)
  }

  lemma JointSet(schema: Schema, doc: Doc, id: ItemId, edits: seq<Edit>)
    requires InOrder(schema, doc, {}) && edits != [] && Joint(schema, doc, id, edits).Some?
    ensures var d := Joint(schema, doc, id, edits).value;
            id in doc.items && id in d.items && AllSet(doc.items[id], d.items[id], edits) && OnlyThis(doc.items, d.items, id)
  {
    hide UpdateItem, InOrder, OnlyThis, Edited, EditOne, Apart, AsksRightly;
    var was := doc.items[id];
    var item := Edited(schema, was, edits).value;
    OrderedAsksRightly(schema, doc, id);
    EditedAsksRightly(schema, was, edits);
    OthersStay(schema, doc, id, item);
    WholeWay(schema, was, edits);
    HalfWayIs(schema, was, edits, |edits|);
    WholeIsSet(schema, was, item, edits);
  }

  lemma WholeIsSet(schema: Schema, was: Item, item: Item, edits: seq<Edit>)
    requires IsHalfWay(schema, was, edits, |edits|, item)
    ensures AllSet(was, item, edits)
  {
    forall e | e in edits && e.CellEdit?
      ensures Held(item.values, e.column) == if e.v == Null then None else Some(e.v)
    {
      var i: nat :| i < |edits| && edits[i] == e;
      assert ValueAt(item, edits[i].column) == edits[i].v;
    }
    forall k | forall e :: e in edits && e.CellEdit? ==> e.column != k
      ensures Held(item.values, k) == Held(was.values, k)
    {
      assert forall i :: 0 <= i < |edits| && edits[i].CellEdit? ==> edits[i] in edits && edits[i].column != k;
      assert ValueAt(item, k) == ValueAt(was, k);
    }
    forall e | e in edits && e.ParentEdit?
      ensures item.parent == e.parent
    {
      var i: nat :| i < |edits| && edits[i] == e;
    }
    if forall e :: e in edits ==> e.CellEdit? {
      assert forall i :: 0 <= i < |edits| ==> edits[i] in edits;
    }
  }

  /** The columns are the container's, and a move asks for no position. */
  predicate Legal(schema: Schema, container: ContainerId, edits: seq<Edit>) {
    container in schema && forall e :: e in edits ==>
      if e.CellEdit? then e.column in schema[container].columns
      else schema[container].target.Some? && (schema[container].isList ==> e.parent.None?)
  }

  lemma {:induction false} EditedIff(schema: Schema, item: Item, edits: seq<Edit>)
    requires item.container in schema
    ensures Edited(schema, item, edits).Some? <==> Legal(schema, item.container, edits)
    decreases |edits|
  {
    if edits != [] {
      assert forall e :: e in edits <==> e == edits[0] || e in edits[1..];
      assert EditOne(schema, item, edits[0]).Some? <==>
               if edits[0].CellEdit? then edits[0].column in schema[item.container].columns
               else schema[item.container].target.Some? && (schema[item.container].isList ==> edits[0].parent.None?);
      if EditOne(schema, item, edits[0]).Some? {
        EditedIff(schema, EditOne(schema, item, edits[0]).value, edits[1..]);
      }
    }
  }

  /** The edits determine what the item holds. */
  lemma SetDetermines(was: Item, a: Item, b: Item, edits: seq<Edit>)
    requires AllSet(was, a, edits) && AllSet(was, b, edits)
    ensures SameFields(a, b)
  {
    forall k
      ensures Held(a.values, k) == Held(b.values, k)
    {
      if e :| e in edits && e.CellEdit? && e.column == k {
        assert Held(a.values, e.column) == Held(b.values, e.column);
      }
    }
    forall k
      ensures k in a.values <==> k in b.values
      ensures k in a.values ==> a.values[k] == b.values[k]
    {
      assert Held(a.values, k) == Held(b.values, k);
    }
    assert a.values == b.values;
    if e :| e in edits && e.ParentEdit? {
      assert a.parent == b.parent;
    }
  }

  /** An accepted joint update always goes through: it joins no list. */
  lemma JoinsNoList(schema: Schema, doc: Doc, id: ItemId, item: Item, edits: seq<Edit>)
    requires InOrder(schema, doc, {}) && id in doc.items && AllSet(doc.items[id], item, edits) && Legal(schema, item.container, edits)
    requires AsksRightly(schema, item) && ((forall e :: e in edits ==> e.CellEdit?) ==> item.listIndex == doc.items[id].listIndex)
    ensures UpdateItem(schema, doc, id, item).Some? <==> Accepts(schema, doc.items, id, item, Some(doc.items[id]))
  {
    hide Accepts, InOrder, RemoveFromGroup;
    if e :| e in edits && e.ParentEdit? {
      assert GroupOf(schema, item) == None;
    } else {
      assert !MembershipChanged(schema, doc.items[id], item);
    }
  }

  /** A joint update is accepted exactly when its columns are legal, none is given twice, and
      what the item comes to hold would be. */
  lemma JointAcceptedIff(schema: Schema, doc: Doc, id: ItemId, edits: seq<Edit>, now: Item)
    requires InOrder(schema, doc, {}) && Sound(schema, doc.items) && edits != [] && id in doc.items && AllSet(doc.items[id], now, edits)
    ensures Joint(schema, doc, id, edits).Some?
       <==> && now.container in schema && Apart(edits) && Legal(schema, now.container, edits)
            && CellsFit(schema[now.container], now.values)
            && OwnerFits(schema, doc.items, now.container, now.parent) && !P.Visits(Parents(doc.items), now.parent, id)
            && CellsFree(schema, doc.items, id, now.container, now.parent, now.values)
  {
    hide InOrder, Accepts, UpdateItem, CellsFit, OwnerFits, CellsFree, P.Visits, AllSet, IsHalfWay, Legal, Edited, Apart, AsksRightly, Typed, Forest, Unique;
    var was := doc.items[id];
    SetKeepsContainer(was, now, edits);
    StoredIsRight(schema, doc.items, id);
    EditedIff(schema, was, edits);
    if Apart(edits) && Edited(schema, was, edits).Some? {
      var item := Edited(schema, was, edits).value;
      OrderedAsksRightly(schema, doc, id);
      EditedAsksRightly(schema, was, edits);
      WholeWay(schema, was, edits);
      HalfWayIs(schema, was, edits, |edits|);
      WholeIsSet(schema, was, item, edits);
      WholeKeepsPosition(schema, was, item, edits);
      SetDetermines(was, item, now, edits);
      JoinsNoList(schema, doc, id, item, edits);
      AcceptsIff(schema, doc.items, id, item);
    }
  }

  lemma SetKeepsContainer(was: Item, now: Item, edits: seq<Edit>)
    requires AllSet(was, now, edits)
    ensures now.container == was.container
  {
  }

  lemma WholeKeepsPosition(schema: Schema, was: Item, item: Item, edits: seq<Edit>)
    requires IsHalfWay(schema, was, edits, |edits|, item)
    ensures (forall e :: e in edits ==> e.CellEdit?) ==> item.listIndex == was.listIndex
  {
    if forall e :: e in edits ==> e.CellEdit? {
      assert forall i :: 0 <= i < |edits| ==> edits[i] in edits;
    }
  }

  // ----- Removals -----

  lemma MemberTakenOut(schema: Schema, doc: Doc, key: GroupKey, index: nat)
    requires InOrder(schema, doc, {}) && index < |At(doc.groups, key)|
    ensures var list, id := At(doc.groups, key), At(doc.groups, key)[index];
            && id in doc.items
            && var d := EraseItem(schema, doc, id, doc.items[id]);
               && d.items.Keys == doc.items.Keys - {id} && (forall x :: x in d.items ==> SameFields(d.items[x], doc.items[x]))
               && forall k :: At(d.groups, k) == if k == key then list[..index] + list[index + 1..] else At(doc.groups, k)
  {
    hide RemoveFromGroup, SameFields;
    var id := At(doc.groups, key)[index];
    assert SlotOk(schema, doc, key, index);
    TakenOut(schema, doc, id);
    EraseKeepsOrder(schema, doc, id);
    FieldsStay(doc.items, EraseItem(schema, doc, id, doc.items[id]).items, {id});
  }

  lemma FieldsStay(before: Items, after: Items, removed: set<ItemId>)
    requires Bare(after) == Bare(before) - removed
    ensures after.Keys == before.Keys - removed && forall x :: x in after ==> SameFields(after[x], before[x])
  {
    assert after.Keys == Bare(after).Keys && before.Keys == Bare(before).Keys;
    forall x | x in after
      ensures SameFields(after[x], before[x])
    {
      assert Bare(after)[x] == Bare(before)[x];
      SameBareFields(after[x], before[x]);
    }
  }

  lemma ManyTakenOut(schema: Schema, doc: Doc, removed: set<ItemId>)
    requires InOrder(schema, doc, {})
    ensures var d := EraseAll(schema, doc, removed);
            && d.items.Keys == doc.items.Keys - removed && (forall x :: x in d.items ==> SameFields(d.items[x], doc.items[x]))
            && forall key :: At(d.groups, key) == Survivors(At(doc.groups, key), removed)
  {
    hide EraseAll, SameFields, InOrder;
    EraseAllKeepsOrder(schema, doc, removed);
    FieldsStay(doc.items, EraseAll(schema, doc, removed).items, removed);
  }

  // ----- Rotations -----

  /** The segment turned left by the offset: each place holds what stood so many places on,
      counted round. */
  ghost predicate TurnedLeft(before: seq<ItemId>, after: seq<ItemId>, start: nat, count: nat, offset: int)
    requires start + count <= |before|
  {
    && |after| == |before|
    && (forall i :: 0 <= i < start || start + count <= i < |before| ==> after[i] == before[i])
    && forall i :: start <= i < start + count ==> after[i] == before[start + (i - start + offset) % count]
  }

  lemma ShiftedRound(i: nat, offset: int, count: nat)
    requires i < count
    ensures var shift := offset % count;
            (i + offset) % count == if i + shift < count then i + shift else i + shift - count
  {
    var shift := offset % count;
    DivisionRule(offset, count);
    if i + shift < count {
      RemainderOf(i + offset, offset / count, i + shift, count);
    } else {
      assert (offset / count + 1) * count == (offset / count) * count + count;
      RemainderOf(i + offset, offset / count + 1, i + shift - count, count);
    }
  }

  lemma RotatedLeft(list: seq<ItemId>, start: nat, count: nat, offset: int)
    requires count > 0 && start + count <= |list|
    ensures TurnedLeft(list, RotateList(list, start, count, offset), start, count, offset)
  {
    hide RotateList;
    RotateListAt(list, start, count, offset);
    var r := RotateList(list, start, count, offset);
    forall i | start <= i < start + count
      ensures r[i] == list[start + (i - start + offset) % count]
    {
      ShiftedRound(i - start, offset, count);
    }
  }

  lemma TurnedRound(schema: Schema, doc: Doc, key: GroupKey, start: nat, count: nat, offset: int)
    requires InOrder(schema, doc, {})
    ensures var r, list := Perform(schema, doc, Rotate(key, start, count, offset)), At(doc.groups, key);
            && (r.Some? <==> start + count <= |list|)
            && (r.Some? ==>
                  && TurnedLeft(list, At(r.value.groups, key), start, count, offset)
                  && (forall other :: other != key ==> At(r.value.groups, other) == At(doc.groups, other))
                  && r.value.items.Keys == doc.items.Keys && forall x :: x in doc.items ==> SameFields(r.value.items[x], doc.items[x]))
  {
    hide InOrder, Reindexed, TurnedLeft, RotateList;
    var list := At(doc.groups, key);
    if start + count <= |list| {
      if count > 0 {
        var rotated := RotateList(list, start, count, offset);
        RotatedLeft(list, start, count, offset);
        InOrderDistinct(schema, doc, {}, key);
        RotateListMembers(list, start, count, offset);
        ReindexedBare(doc.items, rotated, start);
        AllTheSame(doc.items, Reindexed(doc.items, rotated, start));
      } else {
        NotTurned(list, start, offset);
      }
    }
  }

  lemma NotTurned(list: seq<ItemId>, start: nat, offset: int)
    requires start <= |list|
    ensures TurnedLeft(list, list, start, 0, offset)
  {
  }

  lemma AllTheSame(before: Items, after: Items)
    requires Bare(after) == Bare(before)
    ensures after.Keys == before.Keys && forall x :: x in before ==> SameFields(after[x], before[x])
  {
    BareSame(after, before);
    forall x | x in before
      ensures SameFields(after[x], before[x])
    {
      SameBareFields(after[x], before[x]);
    }
  }
}
