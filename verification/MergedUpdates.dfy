/** What merging does to a run of updates of one cell, moves between and within lists
    included: the one update it leaves does the same to the document, positions and all
    (src/change.cpp:247-263, src/engine.cpp:1738-1813). */
module MergedUpdates {
  import opened Wrappers
  import opened Values
  import opened ListInserts
  import opened GroupPlanner
  import opened Documents
  import opened DocumentLists
  import opened DocumentItems
  import opened Changes
  import opened Undo
  import opened SmoothReplay
  import opened JointUpdates
  import M = Merges
  import Codec
  import L = Logs

  /** Two updates of one cell. */
  predicate SameCell(a: Change, b: Change) {
    || (a.ColumnUpdated? && b.ColumnUpdated? && a.id == b.id && a.column == b.column)
    || (a.ParentUpdated? && b.ParentUpdated? && a.id == b.id)
  }

  /** The earlier one's old side and the later one's new side. */
  function Joined(a: Change, b: Change): (r: Change)
    requires SameCell(a, b)
    ensures forall c :: SameCell(r, c) == SameCell(a, c)
  {
    if b.ColumnUpdated? then ColumnUpdated(b.id, b.column, a.oldValue, b.newValue)
    else ParentUpdated(b.id, a.oldParent, b.newParent, b.targetIndex, a.oldListIndex)
  }

  /** A run of updates of one cell as one. */
  function Together(first: Change, more: seq<Change>): (r: Change)
    requires forall c :: c in more ==> SameCell(first, c)
    decreases |more|
  {
    if more == [] then first
    else
      assert more[0] in more && forall c :: c in more[1..] ==> c in more;
      Together(Joined(first, more[0]), more[1..])
  }

  /** What an update makes of the item. */
  function Updated(schema: Schema, item: Item, c: Change): Option<Item>
    requires IsUpdate(c)
  {
    match c
    case ColumnUpdated(_, column, _, v) => Some(item.(values := SetCell(item.values, column, v)))
    case ParentUpdated(_, _, parent, targetIndex, _) => Rehung(schema, item, parent, targetIndex)
  }

  lemma ApplyUpdates(schema: Schema, doc: Doc, c: Change)
    requires IsUpdate(c)
    ensures Apply(schema, doc, c) ==
            if c.id !in doc.items || Updated(schema, doc.items[c.id], c).None? then None
            else UpdateItem(schema, doc, c.id, Updated(schema, doc.items[c.id], c).value)
  {
    hide UpdateItem;
  }

  /** Of two updates of one cell the later one tells. */
  lemma LaterTells(schema: Schema, item: Item, a: Change, b: Change)
    requires SameCell(a, b) && Updated(schema, item, a).Some?
    ensures var x := Updated(schema, item, a).value;
            Updated(schema, x, b) == Updated(schema, item, b) == Updated(schema, item, Joined(a, b))
  {
    if a.ColumnUpdated? {
      assert SetCell(SetCell(item.values, a.column, a.newValue), a.column, b.newValue) == SetCell(item.values, a.column, b.newValue);
    }
  }

  lemma UpdatedAsksRightly(schema: Schema, item: Item, c: Change)
    requires IsUpdate(c) && AsksRightly(schema, item) && Updated(schema, item, c).Some?
    ensures var x := Updated(schema, item, c).value; AsksRightly(schema, x) && x.container == item.container
  {
  }

  /** One update changes one item. */
  lemma UpdateGoes(schema: Schema, doc: Doc, c: Change)
    requires IsUpdate(c) && WellFormed(schema, doc) && Apply(schema, doc, c).Some?
    ensures var d := Apply(schema, doc, c).value;
            && c.id in doc.items && Updated(schema, doc.items[c.id], c).Some?
            && WellFormed(schema, d) && OnlyItem(doc, d, c.id, Updated(schema, doc.items[c.id], c).value)
  {
    hide WellFormed, UpdateItem, AsksRightly, OnlyItem, Updated;
    ApplyUpdates(schema, doc, c);
    StoredAsksRightly(schema, doc, c.id);
    UpdatedAsksRightly(schema, doc.items[c.id], c);
    UpdatedIsOnlyItem(schema, doc, c.id, Updated(schema, doc.items[c.id], c).value);
  }

  lemma UpdatedIsOnTheWay(schema: Schema, item: Item, c: Change)
    requires IsUpdate(c) && item.container in schema && Updated(schema, item, c).Some?
    requires ValuesFit(schema[item.container], Updated(schema, item, c).value) && ValuesFit(schema[item.container], item)
    ensures var y := Updated(schema, item, c).value; OneOnTheWay(schema, item, y, y)
  {
    var y := Updated(schema, item, c).value;
    if c.ColumnUpdated? {
      if c.column in schema[item.container].columns {
        assert y.values == SetCell(item.values, c.column, ValueAt(y, c.column));
      } else {
        assert c.column !in y.values;
        assert y.values == item.values;
      }
    }
  }

  /** A list that the item has been put into has room for it at that position. */
  lemma RoomInList(schema: Schema, doc: Doc, d: Doc, id: ItemId, y: Item)
    requires WellFormed(schema, doc) && WellFormed(schema, d) && id in doc.items && OnlyItem(doc, d, id, y)
    ensures InsertIntoGroup(schema, RemoveFromGroup(schema, doc, id, doc.items[id]), id, y).Some?
  {
    hide Survivors, Bare, Sound, Reindexed, InOrder;
    if GroupOf(schema, y).Some? {
      var key := GroupOf(schema, y).value;
      StoredPosition(schema, d, id, key);
      ListByOne(schema, d, id, key);
      assert id !in Survivors(At(d.groups, key), {id});
      AtLeastSurvivors(schema, doc, id, key);
    }
  }

  lemma AtLeastSurvivors(schema: Schema, doc: Doc, id: ItemId, key: GroupKey)
    requires WellFormed(schema, doc) && id in doc.items
    ensures |Survivors(At(doc.groups, key), {id})| <= |At(RemoveFromGroup(schema, doc, id, doc.items[id]).groups, key)|
  {
    hide Sound, Reindexed, Survivors;
    RemoveKeepsOrder(schema, doc, id);
  }

  /** If an item can get somewhere at all, it can get there by one update. */
  lemma UpdateAtOnce(schema: Schema, doc: Doc, d: Doc, id: ItemId, y: Item)
    requires WellFormed(schema, doc) && WellFormed(schema, d) && id in doc.items && OnlyItem(doc, d, id, y)
    requires AsksRightly(schema, y) && OneOnTheWay(schema, doc.items[id], y, y)
    ensures UpdateItem(schema, doc, id, y) == Some(d)
  {
    hide WellFormed, OnlyItem, Accepts, AsksRightly, Sits, InsertIntoGroup, RemoveFromGroup, OneOnTheWay;
    SameItself(schema, doc, id);
    StoredSits(schema, doc, d, id, y);
    OnTheWayIsAccepted(schema, doc, doc, d, id, doc.items[id], y, y);
    RoomInList(schema, doc, d, id, y);
    assert UpdateItem(schema, doc, id, y).Some?;
    WayKeepsContainer(schema, doc.items[id], y);
    UpdatedIsOnlyItem(schema, doc, id, y);
    OnlyOneDocument(schema, doc, UpdateItem(schema, doc, id, y).value, d, id, y);
  }

  lemma WayKeepsContainer(schema: Schema, x: Item, y: Item)
    requires OneOnTheWay(schema, x, y, y)
    ensures y.container == x.container
  {
  }

  /** Two updates of one cell, joined, lead where they lead. */
  lemma JoinedGoes(schema: Schema, doc: Doc, a: Change, b: Change)
    requires WellFormed(schema, doc) && SameCell(a, b)
    requires Apply(schema, doc, a).Some? && Apply(schema, Apply(schema, doc, a).value, b).Some?
    ensures Apply(schema, doc, Joined(a, b)) == Apply(schema, Apply(schema, doc, a).value, b)
  {
    hide WellFormed, UpdateItem, AsksRightly, OnlyItem, Updated, Apply, ValuesFit, OneOnTheWay;
    var m, id := Apply(schema, doc, a).value, a.id;
    var d := Apply(schema, m, b).value;
    UpdateGoes(schema, doc, a);
    UpdateGoes(schema, m, b);
    var was := doc.items[id];
    var x := Updated(schema, was, a).value;
    OnlyItemHas(doc, m, id, x);
    LaterTells(schema, was, a, b);
    var y := Updated(schema, was, b).value;
    OnlyItemHas(m, d, id, y);
    OnlyItemThrough(doc, m, d, id, x, y);
    StoredAsksRightly(schema, doc, id);
    UpdatedAsksRightly(schema, was, b);
    StoredFits(schema, doc, id);
    StoredFits(schema, d, id);
    UpdatedIsOnTheWay(schema, was, b);
    UpdateAtOnce(schema, doc, d, id, y);
    ApplyUpdates(schema, doc, Joined(a, b));
  }

  lemma StoredFits(schema: Schema, doc: Doc, id: ItemId)
    requires WellFormed(schema, doc) && id in doc.items
    ensures doc.items[id].container in schema && ValuesFit(schema[doc.items[id].container], doc.items[id])
  {
    ItemFits(schema, doc.items, id);
  }

  /** A run of updates of one cell, merged, leads where the run leads. */
  lemma {:induction false} TogetherGoes(schema: Schema, doc: Doc, first: Change, more: seq<Change>)
    requires WellFormed(schema, doc) && IsUpdate(first) && forall c :: c in more ==> SameCell(first, c)
    requires Apply(schema, doc, first).Some? && ApplyAll(schema, Apply(schema, doc, first).value, more).Some?
    ensures Apply(schema, doc, Together(first, more)) == ApplyAll(schema, Apply(schema, doc, first).value, more)
    decreases |more|
  {
    hide WellFormed, Apply, Joined;
    if more != [] {
      assert more[0] in more && forall c :: c in more[1..] ==> c in more;
      JoinedGoes(schema, doc, first, more[0]);
      TogetherGoes(schema, doc, Joined(first, more[0]), more[1..]);
    }
  }

  // ----- Taking the merged update back -----

  /** The update records the old side that it meets. */
  predicate MeetsOldSide(doc: Doc, c: Change) {
    && IsUpdate(c) && c.id in doc.items
    && if c.ColumnUpdated? then c.oldValue == ValueAt(doc.items[c.id], c.column)
       else c.oldParent == doc.items[c.id].parent && c.oldListIndex == doc.items[c.id].listIndex
  }

  lemma {:induction false} TogetherMeets(doc: Doc, first: Change, more: seq<Change>)
    requires MeetsOldSide(doc, first) && forall c :: c in more ==> SameCell(first, c)
    ensures MeetsOldSide(doc, Together(first, more))
    decreases |more|
  {
    if more != [] {
      assert more[0] in more && forall c :: c in more[1..] ==> c in more;
      TogetherMeets(doc, Joined(first, more[0]), more[1..]);
    }
  }

  lemma InverseUpdates(schema: Schema, doc: Doc, c: Change)
    requires MeetsOldSide(doc, c) && Updated(schema, doc.items[c.id], c).Some? && AsksRightly(schema, doc.items[c.id])
    ensures IsUpdate(Inverse(c)) && Inverse(c).id == c.id
    ensures Updated(schema, Updated(schema, doc.items[c.id], c).value, Inverse(c)) == Some(doc.items[c.id])
  {
    if c.ColumnUpdated? {
      SetCellBack(doc.items[c.id], c.column, c.newValue);
    }
  }

  /** An update that records what it meets is taken back by its inverse. */
  lemma UpdateTakenBack(schema: Schema, doc: Doc, c: Change)
    requires WellFormed(schema, doc) && MeetsOldSide(doc, c) && Apply(schema, doc, c).Some?
    ensures Apply(schema, Apply(schema, doc, c).value, Inverse(c)) == Some(doc)
  {
    hide WellFormed, UpdateItem, AsksRightly, OnlyItem, Updated, Apply, Inverse;
    var d, was := Apply(schema, doc, c).value, doc.items[c.id];
    UpdateGoes(schema, doc, c);
    ApplyUpdates(schema, doc, c);
    OnlyItemHas(doc, d, c.id, Updated(schema, was, c).value);
    StoredAsksRightly(schema, doc, c.id);
    UpdatedAsksRightly(schema, was, c);
    InverseUpdates(schema, doc, c);
    UpdateBack(schema, doc, c.id, Updated(schema, was, c).value);
    ApplyUpdates(schema, d, Inverse(c));
  }

  // ----- What merging operations leaves -----

  lemma JoinSays(relations: L.Relations, a: Codec.Operation, b: Codec.Operation, x: Change, y: Change)
    requires M.SameColumn(a, b) && L.Says(relations, a, x) && L.Says(relations, b, y)
    ensures SameCell(x, y) && L.Says(relations, M.Join(a, b), Joined(x, y))
  {
  }

  lemma SaysSameCell(relations: L.Relations, a: Codec.Operation, ops: seq<Codec.Operation>, x: Change, changes: seq<Change>)
    requires L.Says(relations, a, x) && L.SaysAll(relations, ops, changes) && forall op :: op in ops ==> M.SameColumn(a, op)
    ensures forall c :: c in changes ==> SameCell(x, c)
  {
    hide L.Says, M.SameColumn;
    forall i | 0 <= i < |changes|
      ensures SameCell(x, changes[i])
    {
      assert ops[i] in ops;
      JoinSays(relations, a, ops[i], x, changes[i]);
    }
  }

  lemma {:induction false} MergedSays(relations: L.Relations, first: Codec.Operation, more: seq<Codec.Operation>, x: Change, changes: seq<Change>, index: seq<nat>)
    requires L.Says(relations, first, x) && L.SaysAll(relations, more, changes) && forall op :: op in more ==> M.SameColumn(first, op)
    ensures forall c :: c in changes ==> SameCell(x, c)
    ensures var merged := M.MergeFrom(M.State([first], index), more).ops;
            |merged| == 1 && L.Says(relations, merged[0], Together(x, changes))
    decreases |more|
  {
    hide L.Says, M.Join, M.SameColumn, Joined;
    SaysSameCell(relations, first, more, x, changes);
    if more != [] {
      assert more[0] in more && forall op :: op in more[1..] ==> op in more;
      JoinSays(relations, first, more[0], x, changes[0]);
      var joined := M.Join(first, more[0]);
      assert M.Step(M.State([first], index), more[0]) == M.State([joined], index + [0]);
      forall op | op in more[1..]
        ensures M.SameColumn(joined, op)
      {
        SameColumnTurned(first, more[0], op);
      }
      MergedSays(relations, joined, more[1..], Joined(x, changes[0]), changes[1..], index + [0]);
    }
  }

  lemma SameColumnTurned(a: Codec.Operation, b: Codec.Operation, op: Codec.Operation)
    requires M.SameColumn(a, b) && M.SameColumn(a, op)
    ensures M.SameColumn(M.Join(a, b), op)
  {
  }

  /** Merging a run of updates of one cell leaves one operation. Where the run leads from one
      document to another, the operation's change leads there too, and back if the first of
      the run records what it meets: items, lists and positions are the same. */
  lemma MergedRunLeads(schema: Schema, relations: L.Relations, doc: Doc, ops: seq<Codec.Operation>, changes: seq<Change>)
    returns (change: Change)
    requires ops != [] && L.SaysAll(relations, ops, changes) && forall op :: op in ops ==> M.SameColumn(ops[0], op)
    requires WellFormed(schema, doc) && ApplyAll(schema, doc, changes).Some?
    ensures var merged, d := M.MergeOps(ops).ops, ApplyAll(schema, doc, changes).value;
            && |merged| == 1 && L.Says(relations, merged[0], change)
            && Apply(schema, doc, change) == Some(d)
            && (MeetsOldSide(doc, changes[0]) ==> Apply(schema, d, Inverse(change)) == Some(doc))
  {
    hide WellFormed, Apply, L.Says, M.SameColumn, M.Step, MeetsOldSide, Inverse;
    var first, more := changes[0], changes[1..];
    assert ops[0] in ops && forall op :: op in ops[1..] ==> op in ops;
    assert L.SaysAll(relations, ops[1..], more);
    FirstMerged(ops);
    MergedSays(relations, ops[0], ops[1..], first, more, [0]);
    SaysUpdate(relations, ops[0], first);
    change := Together(first, more);
    TogetherGoes(schema, doc, first, more);
    if MeetsOldSide(doc, first) {
      TogetherMeets(doc, first, more);
      UpdateTakenBack(schema, doc, change);
    }
  }

  lemma FirstMerged(ops: seq<Codec.Operation>)
    requires ops != []
    ensures M.MergeOps(ops) == M.MergeFrom(M.State([ops[0]], [0]), ops[1..])
  {
    assert M.Step(M.State([], []), ops[0]) == M.State([ops[0]], [0]);
  }

  lemma SaysUpdate(relations: L.Relations, op: Codec.Operation, change: Change)
    requires L.Says(relations, op, change) && M.SameColumn(op, op)
    ensures IsUpdate(change)
  {
  }
}
