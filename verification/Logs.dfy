/** What the operations of the change log say in terms of documents, and their inverses
    (`invertOperation`, src/change.cpp:44-114; src/change_log.cpp:470-511). */
module Logs {
  import opened Wrappers
  import opened Values
  import opened ListInserts
  import opened GroupPlanner
  import D = Documents
  import C = Changes
  import opened Codec

  /** The relation column of each container that has one. */
  type Relations = map<nat, nat>

  /** `invertOperation`. */
  function InverseOp(op: Operation): Operation
    requires op.ListRotated? ==> op.offset > -0x8000_0000_0000_0000
  {
    match op
    case ItemInserted(item) => ItemRemoved(item, false)
    case ItemRemoved(item, _) => ItemInserted(item)
    case ColumnUpdated(itemId, column, oldValue, newValue, targetIndex, oldListIndex) =>
      ColumnUpdated(itemId, column, newValue, oldValue, if oldValue != Null then oldListIndex else None, targetIndex)
    case ComputedColumnUpdated(itemId, column, oldValue, newValue) => ComputedColumnUpdated(itemId, column, newValue, oldValue)
    case CascadeRemoved(item, _) => ItemInserted(item)
    case ListInserted(list, v, index, item) => ListRemoved(list, v, index, item)
    case ListRemoved(list, v, index, item) => ListInserted(list, v, index, item)
    case ListRotated(list, v, startIndex, count, offset) => ListRotated(list, v, startIndex, count, -offset)
  }

  /** `valueForColumn`. */
  function FirstValue(values: seq<ColumnValue>, k: nat): Value {
    if values == [] then Null
    else if values[0].column.columnId == k then values[0].value
    else FirstValue(values[1..], k)
  }

  predicate SameIndex(a: Option<uint64>, b: Option<nat>) {
    a.Some? == b.Some? && (a.Some? ==> a.value == b.value)
  }

  /** The value of a relation column is the id of the parent, or null. */
  predicate IsParent(v: Value, parent: Option<nat>) {
    match parent
    case None => v == Null
    case Some(p) => v.UInt64? && v.unsigned == p
  }

  predicate IsRelation(relations: Relations, container: nat, k: nat) {
    container in relations && relations[container] == k
  }

  /** The snapshot is of this item. */
  ghost predicate SaysItem(relations: Relations, s: ItemSnapshot, id: nat, item: D.Item) {
    && s.id == id && s.containerId == item.container && SameIndex(s.parentId, item.parent) && SameIndex(s.listIndex, item.listIndex)
    && (forall k :: IsRelation(relations, item.container, k) ==> k !in item.values)
    && (forall k :: !IsRelation(relations, item.container, k) ==> FirstValue(s.values, k) == D.ValueAt(item, k))
  }

  /** The operation is this change. */
  ghost predicate Says(relations: Relations, op: Operation, change: C.Change) {
    match op
    case ItemInserted(s) => change.ItemInserted? && SaysItem(relations, s, change.id, change.item)
    case ItemRemoved(s, _) => change.ItemRemoved? && SaysItem(relations, s, change.id, change.item)
    case CascadeRemoved(s, ancestor) =>
      change.CascadeRemoved? && SaysItem(relations, s, change.id, change.item) && change.ancestor == ancestor
    case ColumnUpdated(itemId, column, oldValue, newValue, targetIndex, oldListIndex) =>
      if IsRelation(relations, column.containerId, column.columnId) then
        && change.ParentUpdated? && change.id == itemId && IsParent(oldValue, change.oldParent) && IsParent(newValue, change.newParent)
        && SameIndex(targetIndex, change.targetIndex) && SameIndex(oldListIndex, change.oldListIndex)
      else
        change.ColumnUpdated? && change.id == itemId && change.column == column.columnId && change.oldValue == oldValue && change.newValue == newValue
    case ComputedColumnUpdated(_, _, _, _) => false
    case ListInserted(list, v, index, s) =>
      && change.ListInserted? && SaysItem(relations, s, change.id, change.item) && change.index == index
      && change.key.container == list.containerId && IsParent(v, Some(change.key.owner))
    case ListRemoved(list, v, index, s) =>
      && change.ListRemoved? && SaysItem(relations, s, change.id, change.item) && change.index == index
      && change.key.container == list.containerId && IsParent(v, Some(change.key.owner))
    case ListRotated(list, v, startIndex, count, offset) =>
      && change.ListRotated? && change.key.container == list.containerId && IsParent(v, Some(change.key.owner))
      && change.start == startIndex && change.count == count && change.offset == offset
  }

  /** An operation says one change. */
  lemma SaysOne(relations: Relations, op: Operation, a: C.Change, b: C.Change)
    requires Says(relations, op, a) && Says(relations, op, b)
    ensures a == b
  {
    hide SaysItem;
    match op
    case ItemInserted(s) => SaysOneItem(relations, s, a.id, a.item, b.id, b.item);
    case ItemRemoved(s, _) => SaysOneItem(relations, s, a.id, a.item, b.id, b.item);
    case CascadeRemoved(s, _) => SaysOneItem(relations, s, a.id, a.item, b.id, b.item);
    case ListInserted(_, _, _, s) => SaysOneItem(relations, s, a.id, a.item, b.id, b.item);
    case ListRemoved(_, _, _, s) => SaysOneItem(relations, s, a.id, a.item, b.id, b.item);
    case _ =>
  }

  lemma SaysOneItem(relations: Relations, s: ItemSnapshot, i: nat, a: D.Item, j: nat, b: D.Item)
    requires SaysItem(relations, s, i, a) && SaysItem(relations, s, j, b)
    ensures i == j && a == b
  {
    hide FirstValue;
    forall k
      ensures k in a.values <==> k in b.values
      ensures k in a.values && k in b.values ==> a.values[k] == b.values[k]
    {
      if IsRelation(relations, a.container, k) {
        assert k !in a.values && k !in b.values;
      } else {
        assert D.ValueAt(a, k) == FirstValue(s.values, k) == D.ValueAt(b, k);
      }
    }
    assert a.values == b.values;
  }

  /** The inverse of the operation says the inverse of the change. */
  lemma InverseSays(relations: Relations, op: Operation, change: C.Change)
    requires Says(relations, op, change) && (op.ListRotated? ==> op.offset > -0x8000_0000_0000_0000)
    ensures Says(relations, InverseOp(op), C.Inverse(change))
  {
    hide SaysItem;
  }

  ghost predicate SaysAll(relations: Relations, ops: seq<Operation>, changes: seq<C.Change>) {
    |ops| == |changes| && forall i :: 0 <= i < |ops| ==> Says(relations, ops[i], changes[i])
  }

  /** `invert` on operations. */
  function InverseOps(ops: seq<Operation>): (r: seq<Operation>)
    requires forall op :: op in ops && op.ListRotated? ==> op.offset > -0x8000_0000_0000_0000
    ensures |r| == |ops|
  {
    if ops == [] then [] else InverseOps(ops[1..]) + [InverseOp(ops[0])]
  }

  lemma {:induction false} InversesSay(relations: Relations, ops: seq<Operation>, changes: seq<C.Change>)
    requires SaysAll(relations, ops, changes) && forall op :: op in ops && op.ListRotated? ==> op.offset > -0x8000_0000_0000_0000
    ensures SaysAll(relations, InverseOps(ops), C.InverseAll(changes))
    decreases |ops|
  {
    hide Says, C.Inverse, InverseOp;
    if ops != [] {
      assert ops[0] in ops;
      InversesSay(relations, ops[1..], changes[1..]);
      InverseSays(relations, ops[0], changes[0]);
    }
  }

  /** What was recorded, written to the log and read back is replayed to the same document:
      the bytes determine the changes. */
  lemma LogDetermines(relations: Relations, x: ChangeSet, changes: seq<C.Change>)
    requires x.Storable() && x.LinksInRange() && SaysAll(relations, x.operations, changes)
    ensures Deserialize(Serialize(x)).Some?
    ensures forall others :: SaysAll(relations, Deserialize(Serialize(x)).value.operations, others) ==> others == changes
  {
    hide Says;
    SerializedReadsBack(x);
    forall others | SaysAll(relations, x.operations, others)
      ensures others == changes
    {
      forall i | 0 <= i < |changes|
        ensures others[i] == changes[i]
      {
        SaysOne(relations, x.operations[i], others[i], changes[i]);
      }
    }
  }
}
