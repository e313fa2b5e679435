/** The document as a value: items with parents and values, and the ordered list groups
    (src/engine.cpp:258-467, 639-812, 1222-1238). */
module Documents {
  import opened Wrappers
  import opened Sequences
  import opened Values
  import opened ListInserts
  import opened GroupPlanner
  import ParentChain

  type ContainerId = nat
  type ColumnId = nat

  /** A stored column: the type tag of its values, and what its index asks of them. */
  datatype Column = Column(tag: byte, nullable: bool, unique: bool, countsNull: bool)

  /** A table or list. `target` is the container its items' parents live in. */
  datatype Container =
    Container(isList: bool, target: Option<ContainerId>, needsParent: bool, columns: map<ColumnId, Column>)

  type Schema = map<ContainerId, Container>

  ghost predicate NoNulls(cells: map<ColumnId, Value>) {
    forall c :: c in cells ==> cells[c] != Null
  }

  /** The column values of an item, without the null ones. */
  type Cells = cells: map<ColumnId, Value> | NoNulls(cells)

  /** An item. `parent` is the value of the container's relation column, and `listIndex`
      the cached position in the item's list group. */
  datatype Item = Item(container: ContainerId, parent: Option<ItemId>, values: Cells, listIndex: Option<nat>)

  type Items = map<ItemId, Item>

  /** A document. Its groups leave out the empty ones. */
  datatype Doc = Doc(items: Items, groups: Groups)

  function Put(groups: Groups, key: GroupKey, list: seq<ItemId>): (r: Groups)
    ensures forall k :: At(r, k) == if k == key then list else At(groups, k)
  {
    if list == [] then groups - {key} else groups[key := list]
  }

  predicate NoEmpties(groups: Groups) {
    forall k :: k in groups ==> groups[k] != []
  }

  /** Groups without empty ones are equal when they hold the same lists. */
  lemma SameGroups(a: Groups, b: Groups)
    requires NoEmpties(a) && NoEmpties(b) && forall k :: At(a, k) == At(b, k)
    ensures a == b
  {
    forall k
      ensures k in a <==> k in b
    {
      assert At(a, k) == At(b, k);
    }
    forall k | k in a
      ensures a[k] == b[k]
    {
      assert At(a, k) == At(b, k);
    }
  }

  /** The list group an item belongs to. */
  function GroupOf(schema: Schema, item: Item): Option<GroupKey> {
    if item.container in schema && schema[item.container].isList && item.parent.Some?
    then Some(GroupKey(item.container, item.parent.value)) else None
  }

  /** An item that asks for a position exactly when it belongs to a list. */
  predicate AsksRightly(schema: Schema, item: Item) {
    GroupOf(schema, item).Some? <==> item.listIndex.Some?
  }

  // ----- List groups -----

  /** `refreshListIndexes`: writes the positions `from ..` of a list into its items. */
  function Reindexed(items: Items, list: seq<ItemId>, from: nat): (r: Items)
    ensures r.Keys == items.Keys
    decreases |list| - from
  {
    if from >= |list| then items
    else
      var id := list[from];
      Reindexed(if id in items then items[id := items[id].(listIndex := Some(from))] else items, list, from + 1)
  }

  lemma {:induction false} ReindexedAt(items: Items, list: seq<ItemId>, from: nat, id: ItemId)
    requires id in items && Distinct(list)
    ensures Reindexed(items, list, from)[id].(listIndex := None) == items[id].(listIndex := None)
    ensures id !in list ==> Reindexed(items, list, from)[id] == items[id]
    ensures forall i :: 0 <= i < |list| && list[i] == id ==>
              Reindexed(items, list, from)[id].listIndex == if i < from then items[id].listIndex else Some(i)
    decreases |list| - from
  {
    if from < |list| {
      var x := list[from];
      ReindexedAt(if x in items then items[x := items[x].(listIndex := Some(from))] else items, list, from + 1, id);
    }
  }

  function IndexOf(list: seq<ItemId>, id: ItemId): (r: Option<nat>)
    ensures r.Some? ==> r.value < |list| && list[r.value] == id
    ensures r.None? ==> id !in list
  {
    if list == [] then None
    else if list[0] == id then Some(0)
    else match IndexOf(list[1..], id) case None => None case Some(i) => Some(i + 1)
  }

  /** Where an item stands in its list: at its cached position, or else where a search finds it. */
  function Position(list: seq<ItemId>, id: ItemId, hint: Option<nat>): (r: Option<nat>)
    ensures r.Some? ==> r.value < |list| && list[r.value] == id
    ensures r.None? ==> id !in list
  {
    if hint.Some? && hint.value < |list| && list[hint.value] == id then hint else IndexOf(list, id)
  }

  function RemoveFromGroup(schema: Schema, doc: Doc, id: ItemId, item: Item): Doc {
    match GroupOf(schema, item)
    case None => doc
    case Some(key) =>
      var list := At(doc.groups, key);
      match Position(list, id, item.listIndex)
      case None => doc
      case Some(i) => Doc(Reindexed(doc.items, RemoveAt(list, i), i), Put(doc.groups, key, RemoveAt(list, i)))
  }

  /** Nothing when the position asked for is out of range. */
  function InsertIntoGroup(schema: Schema, doc: Doc, id: ItemId, item: Item): Option<Doc> {
    match GroupOf(schema, item)
    case None => Some(doc)
    case Some(key) =>
      var list := At(doc.groups, key);
      var row := Insert(id, item.listIndex);
      if !Fits(list, row) then None
      else Some(Doc(Reindexed(doc.items, Place(list, row), item.listIndex.GetOr(|list|) + 1), Put(doc.groups, key, Place(list, row))))
  }

  predicate MembershipChanged(schema: Schema, old_: Item, new_: Item) {
    || GroupOf(schema, old_) != GroupOf(schema, new_)
    || (GroupOf(schema, old_).Some? && old_.listIndex != new_.listIndex)
  }

  // ----- Validation -----

  function ValueAt(item: Item, column: ColumnId): Value {
    if column in item.values then item.values[column] else Null
  }

  predicate Admits(column: Column, v: Value) {
    if v == Null then column.nullable else Tag(v) == column.tag
  }

  predicate ValuesFit(container: Container, item: Item) {
    && item.values.Keys <= container.columns.Keys
    && forall c :: c in container.columns ==> Admits(container.columns[c], ValueAt(item, c))
  }

  /** Two items in one scope share a value that a unique column has only once. */
  predicate Clash(schema: Schema, a: Item, b: Item, column: ColumnId) {
    && a.container == b.container && a.container in schema
    && var container := schema[a.container];
    && (container.target.Some? ==> a.parent.Some? && a.parent == b.parent)
    && column in container.columns && container.columns[column].unique
    && (ValueAt(a, column) != Null || container.columns[column].countsNull)
    && ValueAt(a, column) == ValueAt(b, column)
  }

  /** `uniqueColumnNeedsValidation`: an update checks only what it changes. */
  predicate NeedsCheck(schema: Schema, previous: Option<Item>, item: Item, column: ColumnId)
    requires item.container in schema
  {
    || previous.None?
    || (schema[item.container].target.Some? && previous.value.parent != item.parent)
    || ValueAt(previous.value, column) != ValueAt(item, column)
  }

  predicate UniqueFor(schema: Schema, items: Items, id: ItemId, item: Item, previous: Option<Item>)
    requires item.container in schema
  {
    forall other, column ::
      (other in items && other != id && column in schema[item.container].columns && NeedsCheck(schema, previous, item, column))
      ==> !Clash(schema, item, items[other], column)
  }

  predicate ParentFits(schema: Schema, items: Items, item: Item)
    requires item.container in schema
  {
    if item.parent.None? then !schema[item.container].needsParent else
      && schema[item.container].target.Some?
      && item.parent.value in items
      && items[item.parent.value].container == schema[item.container].target.value
  }

  function Parents(items: Items): ParentChain.Parents {
    map id | id in items :: items[id].parent
  }

  /** `validateSnapshot`: what an item has to meet to be stored under `id`. */
  ghost predicate Accepts(schema: Schema, items: Items, id: ItemId, item: Item, previous: Option<Item>) {
    && item.container in schema
    && ValuesFit(schema[item.container], item)
    && ParentFits(schema, items, item)
    && ParentChain.EndsWithout(Parents(items), id, item.parent, ParentChain.Top)
    && UniqueFor(schema, items, id, item, previous)
  }

  // ----- Operations -----

  /** `insertSnapshot`. */
  ghost function InsertItem(schema: Schema, doc: Doc, id: ItemId, item: Item): Option<Doc> {
    if !Accepts(schema, doc.items, id, item, None) then None
    else match InsertIntoGroup(schema, doc, id, item)
      case None => None
      case Some(d) => Some(Doc(d.items[id := item], d.groups))
  }

  /** `eraseSnapshot`. */
  function EraseItem(schema: Schema, doc: Doc, id: ItemId, item: Item): Doc {
    var d := RemoveFromGroup(schema, doc, id, item);
    Doc(d.items - {id}, d.groups)
  }

  /** An update: validation, the move between list groups, the new item. */
  ghost function UpdateItem(schema: Schema, doc: Doc, id: ItemId, item: Item): Option<Doc>
    requires id in doc.items
  {
    var was := doc.items[id];
    if !Accepts(schema, doc.items, id, item, Some(was)) then None
    else if !MembershipChanged(schema, was, item) then Some(Doc(doc.items[id := item], doc.groups))
    else match InsertIntoGroup(schema, RemoveFromGroup(schema, doc, id, was), id, item)
      case None => None
      case Some(d) => Some(Doc(d.items[id := item], d.groups))
  }

  /** The segment `start .. start + count` rotated left by `offset`, which may be negative. */
  function RotateList(list: seq<ItemId>, start: nat, count: nat, offset: int): (r: seq<ItemId>)
    requires count > 0 && start + count <= |list|
    ensures |r| == |list|
  {
    var first, last := start, start + count;
    var shift := offset % count;
    list[..first] + list[first + shift..last] + list[first..first + shift] + list[last..]
  }

  function RotateGroup(doc: Doc, key: GroupKey, start: nat, count: nat, offset: int): Doc {
    var list := At(doc.groups, key);
    if count == 0 || start + count > |list| then doc
    else
      var rotated := RotateList(list, start, count, offset);
      Doc(Reindexed(doc.items, rotated, start), Put(doc.groups, key, rotated))
  }

  /** A list without the removed ids (`std::remove_if`). */
  function Survivors(list: seq<ItemId>, removed: set<ItemId>): (r: seq<ItemId>)
    ensures |r| <= |list|
    ensures forall id :: id in r <==> id in list && id !in removed
  {
    if list == [] then []
    else (if list[0] in removed then [] else [list[0]]) + Survivors(list[1..], removed)
  }

  function GroupSurvivors(groups: Groups, removed: set<ItemId>): (r: Groups) {
    map key | key in groups && Survivors(groups[key], removed) != [] :: Survivors(groups[key], removed)
  }

  /** Every item with the position its group's list gives it. */
  function Listed(schema: Schema, items: Items, groups: Groups): Items {
    map id | id in items :: items[id].(listIndex :=
      match GroupOf(schema, items[id])
      case None => None
      case Some(key) => IndexOf(At(groups, key), id))
  }

  /** `eraseSnapshots`: many items at once. */
  function EraseAll(schema: Schema, doc: Doc, removed: set<ItemId>): Doc {
    var groups := GroupSurvivors(doc.groups, removed);
    Doc(Listed(schema, doc.items - removed, groups), groups)
  }

  // ----- Well-formed documents -----

  /** Position `i` of a list holds an item of that group which knows that it is there. */
  ghost predicate SlotOk(schema: Schema, doc: Doc, key: GroupKey, i: nat)
    requires i < |At(doc.groups, key)|
  {
    var id := At(doc.groups, key)[i];
    id in doc.items && GroupOf(schema, doc.items[id]) == Some(key) && doc.items[id].listIndex == Some(i)
  }

  /** An item's cached position is where its group's list holds it. */
  ghost predicate CacheOk(schema: Schema, doc: Doc, id: ItemId)
    requires id in doc.items
  {
    var item := doc.items[id];
    match GroupOf(schema, item)
    case None => item.listIndex == None
    case Some(key) =>
      item.listIndex.Some? && item.listIndex.value < |At(doc.groups, key)| && At(doc.groups, key)[item.listIndex.value] == id
  }

  /** Lists and cached positions agree, and items in `skip` are in no list. */
  ghost predicate InOrder(schema: Schema, doc: Doc, skip: set<ItemId>) {
    && (forall key, i :: 0 <= i < |At(doc.groups, key)| ==> SlotOk(schema, doc, key, i) && At(doc.groups, key)[i] !in skip)
    && (forall id :: id in doc.items && id !in skip ==> CacheOk(schema, doc, id))
    && NoEmpties(doc.groups)
  }

  ghost predicate Forest(items: Items) {
    forall id :: id in items ==> ParentChain.Rooted(Parents(items), Some(id))
  }

  ghost predicate Typed(schema: Schema, items: Items) {
    forall id :: id in items ==>
      items[id].container in schema && ValuesFit(schema[items[id].container], items[id]) && ParentFits(schema, items, items[id])
  }

  ghost predicate Unique(schema: Schema, items: Items) {
    forall a, b, column :: a in items && b in items && a != b ==> !Clash(schema, items[a], items[b], column)
  }

  /** What holds of the items whatever their cached positions. */
  ghost predicate Sound(schema: Schema, items: Items) {
    Forest(items) && Typed(schema, items) && Unique(schema, items)
  }

  ghost predicate WellFormed(schema: Schema, doc: Doc) {
    Sound(schema, doc.items) && InOrder(schema, doc, {})
  }

  /** An item without its cached position, and the same for all of them. */
  function BareItem(item: Item): Item {
    item.(listIndex := None)
  }

  function Bare(items: Items): (r: Items)
    ensures r.Keys == items.Keys
  {
    map id | id in items :: BareItem(items[id])
  }

  /** Lists in order determine the caches: the bare items and the lists are the document. */
  lemma OrderDetermines(schema: Schema, a: Doc, b: Doc)
    requires InOrder(schema, a, {}) && InOrder(schema, b, {})
    requires Bare(a.items) == Bare(b.items) && a.groups == b.groups
    ensures a == b
  {
    assert a.items.Keys == Bare(a.items).Keys == b.items.Keys;
    forall id | id in a.items
      ensures a.items[id] == b.items[id]
    {
      var x, y := a.items[id], b.items[id];
      assert Bare(a.items)[id] == BareItem(x) && Bare(b.items)[id] == BareItem(y);
      assert x == y.(listIndex := x.listIndex);
      assert GroupOf(schema, x) == GroupOf(schema, y);
      if GroupOf(schema, x).Some? {
        var list := At(a.groups, GroupOf(schema, x).value);
        assert list[x.listIndex.value] == id && list[y.listIndex.value] == id;
      }
    }
  }
}
