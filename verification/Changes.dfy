/** Change operations, their inverses and their replay (src/change.cpp:44-114,
    src/engine.cpp:1663-1813), and the transaction's operations that record them. */
module Changes {
  import opened Wrappers
  import opened Values
  import opened ListInserts
  import opened GroupPlanner
  import opened Documents

  datatype Change =
    | ItemInserted(id: ItemId, item: Item)
    | ItemRemoved(id: ItemId, item: Item)
    | CascadeRemoved(id: ItemId, item: Item, ancestor: ItemId)
    | ColumnUpdated(id: ItemId, column: ColumnId, oldValue: Value, newValue: Value)
    /** A column update of the relation column. */
    | ParentUpdated(id: ItemId, oldParent: Option<ItemId>, newParent: Option<ItemId>,
                    targetIndex: Option<nat>, oldListIndex: Option<nat>)
    | ListInserted(key: GroupKey, index: nat, id: ItemId, item: Item)
    | ListRemoved(key: GroupKey, index: nat, id: ItemId, item: Item)
    | ListRotated(key: GroupKey, start: nat, count: nat, offset: int)

  /** `invertOperation`. */
  function Inverse(change: Change): Change {
    match change
    case ItemInserted(id, item) => ItemRemoved(id, item)
    case ItemRemoved(id, item) => ItemInserted(id, item)
    case CascadeRemoved(id, item, _) => ItemInserted(id, item)
    case ColumnUpdated(id, column, oldValue, newValue) => ColumnUpdated(id, column, newValue, oldValue)
    case ParentUpdated(id, oldParent, newParent, targetIndex, oldListIndex) =>
      ParentUpdated(id, newParent, oldParent, if oldParent.Some? then oldListIndex else None, targetIndex)
    case ListInserted(key, index, id, item) => ListRemoved(key, index, id, item)
    case ListRemoved(key, index, id, item) => ListInserted(key, index, id, item)
    case ListRotated(key, start, count, offset) => ListRotated(key, start, count, -offset)
  }

  /** `ChangeSet::invert`: the inverses, last change first. */
  function InverseAll(changes: seq<Change>): (r: seq<Change>)
    ensures |r| == |changes|
  {
    if changes == [] then [] else InverseAll(changes[1..]) + [Inverse(changes[0])]
  }

  function SetCell(cells: Cells, column: ColumnId, v: Value): Cells {
    if v == Null then cells - {column} else cells[column := v]
  }

  /** An item with its relation column set. In a list this asks for a position. */
  function Rehung(schema: Schema, item: Item, parent: Option<ItemId>, targetIndex: Option<nat>): (r: Option<Item>) {
    if item.container !in schema || schema[item.container].target.None? then None
    else if !schema[item.container].isList then Some(item.(parent := parent))
    else if parent.None? then Some(item.(parent := None, listIndex := None))
    else if targetIndex.None? then None
    else Some(item.(parent := parent, listIndex := targetIndex))
  }

  /** `applyOperation`: nothing when it throws. */
  ghost function Apply(schema: Schema, doc: Doc, change: Change): Option<Doc> {
    match change
    case ItemInserted(id, item) => InsertItem(schema, doc, id, item)
    case ListInserted(_, _, id, item) => InsertItem(schema, doc, id, item)
    case ItemRemoved(id, item) => Some(EraseItem(schema, doc, id, item))
    case CascadeRemoved(id, item, _) => Some(EraseItem(schema, doc, id, item))
    case ListRemoved(_, _, id, item) => Some(EraseItem(schema, doc, id, item))
    case ColumnUpdated(id, column, _, v) =>
      if id !in doc.items then None
      else UpdateItem(schema, doc, id, doc.items[id].(values := SetCell(doc.items[id].values, column, v)))
    case ParentUpdated(id, _, parent, targetIndex, _) =>
      if id !in doc.items then None
      else (
        match Rehung(schema, doc.items[id], parent, targetIndex)
        case None => None
        case Some(item) => UpdateItem(schema, doc, id, item)
      )
    case ListRotated(key, start, count, offset) => Some(RotateGroup(doc, key, start, count, offset))
  }

  /** Replay one change after the other. */
  ghost function ApplyAll(schema: Schema, doc: Doc, changes: seq<Change>): Option<Doc>
    decreases |changes|
  {
    if changes == [] then Some(doc)
    else match Apply(schema, doc, changes[0])
      case None => None
      case Some(next) => ApplyAll(schema, next, changes[1..])
  }

  lemma {:induction false} ApplyAllAppends(schema: Schema, doc: Doc, a: seq<Change>, b: seq<Change>)
    requires ApplyAll(schema, doc, a).Some?
    ensures ApplyAll(schema, doc, a + b) == ApplyAll(schema, ApplyAll(schema, doc, a).value, b)
    decreases |a|
  {
    if a == [] {
      assert a + b == b;
    } else {
      assert (a + b)[0] == a[0] && (a + b)[1..] == a[1..] + b;
      ApplyAllAppends(schema, Apply(schema, doc, a[0]).value, a[1..], b);
    }
  }

  /** The change says what the document holds: what it inserts is not there, and what it
      removes is there just so. */
  predicate Describes(schema: Schema, doc: Doc, change: Change) {
    match change
    case ItemInserted(id, item) => id !in doc.items && AsksRightly(schema, item)
    case ListInserted(_, _, id, item) => id !in doc.items && AsksRightly(schema, item)
    case ItemRemoved(id, item) => id in doc.items && doc.items[id] == item
    case CascadeRemoved(id, item, _) => id in doc.items && doc.items[id] == item
    case ListRemoved(_, _, id, item) => id in doc.items && doc.items[id] == item
    case _ => true
  }

  /** A change set that goes from well-formed document to well-formed document, each
      change describing the one it meets. */
  ghost predicate Faithful(schema: Schema, doc: Doc, changes: seq<Change>)
    decreases |changes|
  {
    && WellFormed(schema, doc)
    && (changes != [] ==>
          && Describes(schema, doc, changes[0])
          && Apply(schema, doc, changes[0]).Some?
          && Faithful(schema, Apply(schema, doc, changes[0]).value, changes[1..]))
  }

  lemma {:induction false} FaithfulEnds(schema: Schema, doc: Doc, changes: seq<Change>)
    requires Faithful(schema, doc, changes)
    ensures ApplyAll(schema, doc, changes).Some? && WellFormed(schema, ApplyAll(schema, doc, changes).value)
    decreases |changes|
  {
    if changes != [] {
      FaithfulEnds(schema, Apply(schema, doc, changes[0]).value, changes[1..]);
    }
  }

  lemma {:induction false} FaithfulSplits(schema: Schema, doc: Doc, a: seq<Change>, b: seq<Change>)
    requires ApplyAll(schema, doc, a).Some?
    ensures Faithful(schema, doc, a + b) <==> Faithful(schema, doc, a) && Faithful(schema, ApplyAll(schema, doc, a).value, b)
    decreases |a|
  {
    if a == [] {
      assert a + b == b;
    } else {
      assert (a + b)[0] == a[0] && (a + b)[1..] == a[1..] + b;
      FaithfulSplits(schema, Apply(schema, doc, a[0]).value, a[1..], b);
    }
  }

  // ----- The transaction's operations -----

  datatype Request =
    /** Into a table. */
    | InsertRow(id: ItemId, container: ContainerId, parent: Option<ItemId>, values: Cells)
    | InsertInList(id: ItemId, container: ContainerId, parent: Option<ItemId>, index: nat, values: Cells)
    /** An item without children. */
    | RemoveLeaf(id: ItemId)
    | RemoveAtIndex(key: GroupKey, index: nat)
    | SetValue(id: ItemId, column: ColumnId, v: Value)
    | SetParent(id: ItemId, parent: Option<ItemId>, targetIndex: Option<nat>)
    | Rotate(key: GroupKey, start: nat, count: nat, offset: int)

  predicate Childless(items: Items, id: ItemId) {
    forall x :: x in items ==> items[x].parent != Some(id)
  }

  /** The item an insertion builds. */
  function Built(request: Request): Item
    requires request.InsertRow? || request.InsertInList?
  {
    match request
    case InsertRow(_, container, parent, values) => Item(container, parent, values, None)
    case InsertInList(_, container, parent, index, values) =>
      Item(container, parent, values, if parent.Some? then Some(index) else None)
  }

  /** What the request demands beyond what validation checks. New ids are fresh, and the
      removal of a whole subtree is a request of its own. */
  predicate Allowed(schema: Schema, doc: Doc, request: Request) {
    match request
    case InsertRow(id, container, _, _) =>
      id !in doc.items && container in schema && !schema[container].isList
    case InsertInList(id, container, parent, index, _) =>
      && id !in doc.items && container in schema && schema[container].isList && schema[container].target.Some?
      && if parent.Some? then index <= |At(doc.groups, GroupKey(container, parent.value))| else index == 0
    case RemoveLeaf(id) => id in doc.items && Childless(doc.items, id)
    case RemoveAtIndex(key, index) =>
      && index < |At(doc.groups, key)| && At(doc.groups, key)[index] in doc.items
      && Childless(doc.items, At(doc.groups, key)[index])
    case SetValue(id, column, v) =>
      && id in doc.items && doc.items[id].container in schema
      && column in schema[doc.items[id].container].columns
    case SetParent(id, _, _) => id in doc.items
    case Rotate(key, start, count, _) => start + count <= |At(doc.groups, key)|
  }

  /** The change a request records in the state it meets. */
  function Recorded(schema: Schema, doc: Doc, request: Request): Change
    requires Allowed(schema, doc, request)
  {
    match request
    case InsertRow(id, _, _, _) => ItemInserted(id, Built(request))
    case InsertInList(id, container, parent, index, _) =>
      if parent.None? then ItemInserted(id, Built(request))
      else ListInserted(GroupKey(container, parent.value), index, id, Built(request))
    case RemoveLeaf(id) => ItemRemoved(id, doc.items[id])
    case RemoveAtIndex(key, index) =>
      ListRemoved(key, index, At(doc.groups, key)[index], doc.items[At(doc.groups, key)[index]])
    case SetValue(id, column, v) => ColumnUpdated(id, column, ValueAt(doc.items[id], column), v)
    case SetParent(id, parent, targetIndex) =>
      ParentUpdated(id, doc.items[id].parent, parent, targetIndex, doc.items[id].listIndex)
    case Rotate(key, start, count, offset) => ListRotated(key, start, count, offset)
  }

  /** What a request does: nothing when it throws. */
  ghost function Perform(schema: Schema, doc: Doc, request: Request): Option<Doc> {
    if !Allowed(schema, doc, request) then None
    else match request
      case InsertRow(id, _, _, _) => InsertItem(schema, doc, id, Built(request))
      case InsertInList(id, _, _, _, _) => InsertItem(schema, doc, id, Built(request))
      case RemoveLeaf(id) => Some(EraseAll(schema, doc, {id}))
      case RemoveAtIndex(key, index) =>
        var id := At(doc.groups, key)[index];
        Some(EraseItem(schema, doc, id, doc.items[id]))
      case SetValue(id, column, v) =>
        UpdateItem(schema, doc, id, doc.items[id].(values := SetCell(doc.items[id].values, column, v)))
      case SetParent(id, parent, targetIndex) => (
        match Rehung(schema, doc.items[id], parent, targetIndex)
        case None => None
        case Some(item) => UpdateItem(schema, doc, id, item)
      )
      case Rotate(key, start, count, offset) => Some(RotateGroup(doc, key, start, count, offset))
  }
}
