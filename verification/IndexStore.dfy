/** The runtime indexes of the items, kept up to date item by item
    (src/support/runtime_index.cpp:421-540, 1310-1530). */
module IndexStores {
  import opened Wrappers
  import opened Sequences
  import opened Values
  import opened Tallies
  import K = KdTrees
  import T = IntervalTrees
  import V = IntervalIndexes
  import opened IntervalStores
  import O = OrderedIndexes

  type ContainerId = nat
  type ColumnId = nat
  type VariantId = uint32

  /** A column as the indexes see it. A column of a variant applies to that variant's items. */
  datatype ColumnInfo = ColumnInfo(tag: byte, indexed: bool, variant: Option<VariantId>, ranged: bool, aggregate: Option<Options>)

  datatype IntervalInfo = IntervalInfo(groupBy: seq<ColumnId>, start: ColumnId, end: ColumnId)

  datatype OrderedInfo = OrderedInfo(groupBy: seq<ColumnId>, orderBy: seq<ColumnId>)

  /** A container: its columns, the columns of its relations, and its special indexes. */
  datatype ContainerInfo =
    ContainerInfo(columns: map<ColumnId, ColumnInfo>, hasVariants: bool, relations: set<ColumnId>,
                  intervals: seq<IntervalInfo>, ordereds: seq<OrderedInfo>)

  type IndexSchema = map<ContainerId, ContainerInfo>

  /** What the indexes look at in an item. */
  datatype Row = Row(container: ContainerId, variant: Option<VariantId>, cells: map<ColumnId, Value>)

  type Rows = map<ItemId, Row>

  function CellAt(row: Row, column: ColumnId): Value {
    if column in row.cells then row.cells[column] else Null
  }

  function CellsAt(row: Row, columns: seq<ColumnId>): (r: seq<Value>)
    ensures |r| == |columns|
  {
    seq(|columns|, i requires 0 <= i < |columns| => CellAt(row, columns[i]))
  }

  function VariantValue(row: Row): Value {
    if row.variant.Some? then UInt64(row.variant.value) else Null
  }

  predicate Applies(column: ColumnInfo, row: Row) {
    column.variant.Some? ==> row.variant == column.variant
  }

  // ----- Scalar buckets -----

  type Buckets = map<Value, set<ItemId>>

  /** Each bucket holds just the items with its value. */
  ghost predicate AreBuckets(b: Buckets, e: map<ItemId, Value>) {
    && (forall v :: v in b ==> b[v] == Having(e, v) && b[v] != {})
    && (forall id :: id in e ==> e[id] in b)
  }

  /** `ScalarValueIndex::add` and `remove`. */
  function Put(b: Buckets, v: Value, id: ItemId): Buckets {
    b[v := (if v in b then b[v] else {}) + {id}]
  }

  function Take(b: Buckets, v: Value, id: ItemId): Buckets {
    if v !in b then b
    else if b[v] - {id} == {} then b - {v}
    else b[v := b[v] - {id}]
  }

  lemma PutHolds(b: Buckets, e: map<ItemId, Value>, id: ItemId, v: Value)
    requires AreBuckets(b, e) && id !in e
    ensures AreBuckets(Put(b, v, id), e[id := v])
  {
    forall w | w in Put(b, v, id)
      ensures Put(b, v, id)[w] == Having(e[id := v], w) && Put(b, v, id)[w] != {}
    {
      HavingMore(e, id, v, w);
      NoneHas(b, e, w);
    }
  }

  lemma NoneHas(b: Buckets, e: map<ItemId, Value>, w: Value)
    requires AreBuckets(b, e)
    ensures w !in b ==> Having(e, w) == {}
  {
  }

  lemma TakeHolds(b: Buckets, e: map<ItemId, Value>, id: ItemId)
    requires AreBuckets(b, e) && id in e
    ensures AreBuckets(Take(b, e[id], id), e - {id})
  {
    forall w | w in Take(b, e[id], id)
      ensures Take(b, e[id], id)[w] == Having(e - {id}, w)
    {
      HavingLess(e, id, w);
    }
    forall x | x in e - {id}
      ensures e[x] in Take(b, e[id], id)
    {
      assert x in Having(e, e[x]);
    }
  }

  /** The buckets are determined by the items, however they came about. */
  lemma BucketsDetermined(a: Buckets, b: Buckets, e: map<ItemId, Value>)
    requires AreBuckets(a, e) && AreBuckets(b, e)
    ensures a == b
  {
    forall v
      ensures v in a <==> v in b
    {
      if v in a {
        var id :| id in a[v];
        assert e[id] == v;
      }
      if v in b {
        var id :| id in b[v];
        assert e[id] == v;
      }
    }
  }

  /** `ScalarValueIndex::query`: the buckets whose key compares as asked. */
  method QueryBuckets(b: Buckets, op: Operator, v: Value, ghost e: map<ItemId, Value>) returns (result: set<ItemId>)
    requires AreBuckets(b, e)
    ensures forall id :: id in result <==> id in e && Satisfies(e[id], op, v)
  {
    hide Compare;
    result := {};
    var keys := b.Keys;
    while keys != {}
      invariant keys <= b.Keys
      invariant forall id :: id in result <==> id in e && e[id] !in keys && Satisfies(e[id], op, v)
      decreases keys
    {
      var key :| key in keys;
      keys := keys - {key};
      assert forall id :: id in b[key] <==> id in e && e[id] == key;
      if Satisfies(key, op, v) {
        result := result + b[key];
      }
    }
  }

  // ----- What each index should hold -----

  datatype FieldKey = VariantKey(container: ContainerId) | ColumnKey(container: ContainerId, column: ColumnId)

  /** The value under which an item stands in an index, if it does. */
  function Entry(schema: IndexSchema, row: Row, key: FieldKey): Option<Value> {
    match key
    case VariantKey(c) =>
      if row.container == c && (c in schema ==> schema[c].hasVariants) then Some(VariantValue(row)) else None
    case ColumnKey(c, k) =>
      if row.container == c && c in schema && k in schema[c].columns && schema[c].columns[k].indexed && Applies(schema[c].columns[k], row)
      then Some(CellAt(row, k)) else None
  }

  function Entries(schema: IndexSchema, rows: Rows, key: FieldKey): map<ItemId, Value> {
    map id | id in rows && Entry(schema, rows[id], key).Some? :: Entry(schema, rows[id], key).value
  }

  function InContainer(rows: Rows, c: ContainerId): set<ItemId> {
    set id | id in rows && rows[id].container == c
  }

  /** The parents of a container's items by a relation column. */
  function ParentEntries(rows: Rows, c: ContainerId, relation: ColumnId): map<ItemId, Value> {
    map id | id in rows && rows[id].container == c :: CellAt(rows[id], relation)
  }

  predicate Aggregated(schema: IndexSchema, c: ContainerId, k: ColumnId) {
    c in schema && k in schema[c].columns && schema[c].columns[k].indexed && schema[c].columns[k].aggregate.Some?
  }

  function OptionsOf(schema: IndexSchema, c: ContainerId, k: ColumnId): Options {
    if Aggregated(schema, c, k) then schema[c].columns[k].aggregate.value else Options(false, false, false)
  }

  predicate Summed(schema: IndexSchema, row: Row, c: ContainerId, k: ColumnId) {
    row.container == c && Aggregated(schema, c, k) && Applies(schema[c].columns[k], row)
  }

  function ColumnCells(schema: IndexSchema, rows: Rows, c: ContainerId, k: ColumnId): map<ItemId, Value> {
    map id | id in rows && Summed(schema, rows[id], c, k) :: CellAt(rows[id], k)
  }

  /** The same for the items under one parent. */
  function GroupCells(schema: IndexSchema, rows: Rows, c: ContainerId, k: ColumnId, relation: ColumnId, parent: Value): map<ItemId, Value> {
    map id | id in rows && Summed(schema, rows[id], c, k) && CellAt(rows[id], relation) == parent :: CellAt(rows[id], k)
  }

  /** `runtimeNumericValue` of the integer types. */
  function Numeric(v: Value): Option<int> {
    match v
    case Int64(i) => Some(i)
    case UInt64(u) => Some(u)
    case _ => None
  }

  /** An item's coordinates in the kd-tree. */
  function Coordinates(schema: IndexSchema, row: Row): map<ColumnId, int> {
    if row.container !in schema then map[]
    else
      var columns := schema[row.container].columns;
      map k | k in columns && columns[k].indexed && columns[k].ranged && Applies(columns[k], row) && Numeric(CellAt(row, k)).Some? ::
        Numeric(CellAt(row, k)).value
  }

  function PointsOf(schema: IndexSchema, rows: Rows, c: ContainerId): map<ItemId, map<ColumnId, int>> {
    map id | id in rows && rows[id].container == c && Coordinates(schema, rows[id]) != map[] :: Coordinates(schema, rows[id])
  }

  // ----- The special indexes -----

  /** What an interval index reads of a row. */
  function IntervalRow(id: ItemId, row: Row, info: IntervalInfo): V.Row {
    V.Row(id, CellsAt(row, info.groupBy), CellAt(row, info.start), CellAt(row, info.end))
  }

  function IntervalRows(rows: Rows, c: ContainerId, info: IntervalInfo): set<V.Row> {
    set id | id in rows && rows[id].container == c :: IntervalRow(id, rows[id], info)
  }

  /** What an ordered index reads of a row. */
  function OrderedRow(id: ItemId, row: Row, info: OrderedInfo): O.Row {
    O.Row(id, CellsAt(row, info.groupBy), CellsAt(row, info.orderBy))
  }

  function OrderedRows(rows: Rows, c: ContainerId, info: OrderedInfo): set<O.Row> {
    set id | id in rows && rows[id].container == c :: OrderedRow(id, rows[id], info)
  }

  /** Of two items: at the first order column where they differ the one has the lesser value,
      or they differ in none and it has the smaller id. */
  ghost predicate ComesFirst(info: OrderedInfo, a: ItemId, rowA: Row, b: ItemId, rowB: Row) {
    || (exists k ::
          && 0 <= k < |info.orderBy| && Less(CellAt(rowA, info.orderBy[k]), CellAt(rowB, info.orderBy[k]))
          && forall j :: 0 <= j < k ==> CellAt(rowA, info.orderBy[j]) == CellAt(rowB, info.orderBy[j]))
    || (a < b && forall j :: 0 <= j < |info.orderBy| ==> CellAt(rowA, info.orderBy[j]) == CellAt(rowB, info.orderBy[j]))
  }

  /** The stored item has the other one's group, all order values and none that is null, and
      lies on the side that is asked for. */
  ghost predicate IsBeside(rows: Rows, c: ContainerId, info: OrderedInfo, id: ItemId, row: Row, excluded: set<ItemId>, backward: bool, other: ItemId) {
    && other in rows && rows[other].container == c && other !in excluded
    && (forall k :: k in info.groupBy ==> CellAt(rows[other], k) == CellAt(row, k) && CellAt(row, k) != Null)
    && (forall k :: k in info.orderBy ==> CellAt(rows[other], k) != Null && CellAt(row, k) != Null)
    && if backward then ComesFirst(info, other, rows[other], id, row) else ComesFirst(info, id, row, other, rows[other])
  }

  lemma ComesFirstIff(info: OrderedInfo, a: ItemId, rowA: Row, b: ItemId, rowB: Row)
    ensures ComesFirst(info, a, rowA, b, rowB) <==> O.Ahead(OrderedRow(a, rowA, info), OrderedRow(b, rowB, info))
  {
    hide Less, CellAt;
    var x, y := OrderedRow(a, rowA, info).order, OrderedRow(b, rowB, info).order;
    assert |x| == |y| == |info.orderBy|;
    forall j: nat | j < |x|
      ensures x[j] == CellAt(rowA, info.orderBy[j]) && y[j] == CellAt(rowB, info.orderBy[j])
    {
    }
    if k: nat :| O.DiffersFirstAt(x, y, k) {
      assert Less(CellAt(rowA, info.orderBy[k]), CellAt(rowB, info.orderBy[k]));
      assert forall j :: 0 <= j < k ==> x[j] == y[j];
    }
    if k: nat :| k < |info.orderBy| && Less(CellAt(rowA, info.orderBy[k]), CellAt(rowB, info.orderBy[k]))
                 && forall j :: 0 <= j < k ==> CellAt(rowA, info.orderBy[j]) == CellAt(rowB, info.orderBy[j]) {
      assert O.DiffersFirstAt(x, y, k);
    }
    assert x == y <==> forall j :: 0 <= j < |info.orderBy| ==> x[j] == y[j];
  }

  lemma BesideIff(rows: Rows, c: ContainerId, info: OrderedInfo, id: ItemId, row: Row, excluded: set<ItemId>, backward: bool, other: ItemId)
    requires other in rows && rows[other].container == c
    ensures IsBeside(rows, c, info, id, row, excluded, backward, other)
       <==> O.Eligible(OrderedRows(rows, c, info), OrderedRow(id, row, info), excluded, backward, OrderedRow(other, rows[other], info))
  {
    hide CellAt, ComesFirst, O.Ahead;
    ComesFirstIff(info, other, rows[other], id, row);
    ComesFirstIff(info, id, row, other, rows[other]);
    SameCells(rows[other], row, info.groupBy);
    CellsWithoutNull(rows[other], info.orderBy);
    CellsWithoutNull(row, info.orderBy);
    CellsWithoutNull(rows[other], info.groupBy);
  }

  lemma SameCells(a: Row, b: Row, columns: seq<ColumnId>)
    ensures CellsAt(a, columns) == CellsAt(b, columns) <==> forall k :: k in columns ==> CellAt(a, k) == CellAt(b, k)
  {
    hide CellAt;
    if CellsAt(a, columns) == CellsAt(b, columns) {
      forall k | k in columns
        ensures CellAt(a, k) == CellAt(b, k)
      {
        var j :| 0 <= j < |columns| && columns[j] == k;
        assert CellsAt(a, columns)[j] == CellsAt(b, columns)[j];
      }
    }
  }

  lemma CellsWithoutNull(row: Row, columns: seq<ColumnId>)
    ensures Null !in CellsAt(row, columns) <==> forall k :: k in columns ==> CellAt(row, k) != Null
  {
    hide CellAt;
    forall k | k in columns
      ensures CellAt(row, k) in CellsAt(row, columns)
    {
      var j :| 0 <= j < |columns| && columns[j] == k;
      assert CellsAt(row, columns)[j] == CellAt(row, k);
    }
  }

  lemma BesideAll(rows: Rows, c: ContainerId, info: OrderedInfo, id: ItemId, row: Row, excluded: set<ItemId>, backward: bool)
    ensures forall other :: other in rows && rows[other].container == c ==>
              (IsBeside(rows, c, info, id, row, excluded, backward, other)
               <==> O.Eligible(OrderedRows(rows, c, info), OrderedRow(id, row, info), excluded, backward, OrderedRow(other, rows[other], info)))
    ensures forall other :: IsBeside(rows, c, info, id, row, excluded, backward, other) ==> other in rows && rows[other].container == c
    ensures forall found :: O.Eligible(OrderedRows(rows, c, info), OrderedRow(id, row, info), excluded, backward, found) ==>
              found.id in rows && rows[found.id].container == c && found == OrderedRow(found.id, rows[found.id], info)
    ensures forall a, b :: a in rows && b in rows ==>
              (ComesFirst(info, a, rows[a], b, rows[b]) <==> O.Ahead(OrderedRow(a, rows[a], info), OrderedRow(b, rows[b], info)))
  {
    hide CellAt, CellsAt, ComesFirst, O.Ahead;
    forall a, b | a in rows && b in rows
      ensures ComesFirst(info, a, rows[a], b, rows[b]) <==> O.Ahead(OrderedRow(a, rows[a], info), OrderedRow(b, rows[b], info))
    {
      ComesFirstIff(info, a, rows[a], b, rows[b]);
    }
    forall other | other in rows && rows[other].container == c
      ensures IsBeside(rows, c, info, id, row, excluded, backward, other)
         <==> O.Eligible(OrderedRows(rows, c, info), OrderedRow(id, row, info), excluded, backward, OrderedRow(other, rows[other], info))
    {
      BesideIff(rows, c, info, id, row, excluded, backward, other);
    }
  }

  predicate HasInterval(schema: IndexSchema, key: IntervalKey) {
    key.container in schema && key.index < |schema[key.container].intervals|
  }

  function IntervalOf(schema: IndexSchema, key: IntervalKey): IntervalInfo
    requires HasInterval(schema, key)
  {
    schema[key.container].intervals[key.index]
  }

  /** The interval indexes in `done` have the new rows and the others the old ones. */
  ghost predicate IntervalsBetween(schema: IndexSchema, contents: Contents, old_: Rows, new_: Rows, done: set<IntervalKey>) {
    forall key :: HasInterval(schema, key) ==>
      RowsAt(contents, key) == IntervalRows(if key in done then new_ else old_, key.container, IntervalOf(schema, key))
  }

  ghost predicate IntervalsHold(schema: IndexSchema, contents: Contents, rows: Rows) {
    IntervalsBetween(schema, contents, rows, rows, {})
  }

  datatype OrderedKey = OrderedKey(container: ContainerId, index: nat)

  type Ordereds = map<OrderedKey, O.Groups>

  function GroupsIn(ordereds: Ordereds, key: OrderedKey): O.Groups {
    if key in ordereds then ordereds[key] else map[]
  }

  predicate HasOrdered(schema: IndexSchema, key: OrderedKey) {
    key.container in schema && key.index < |schema[key.container].ordereds|
  }

  function OrderedOf(schema: IndexSchema, key: OrderedKey): OrderedInfo
    requires HasOrdered(schema, key)
  {
    schema[key.container].ordereds[key.index]
  }

  ghost predicate OrderedsBetween(schema: IndexSchema, ordereds: Ordereds, old_: Rows, new_: Rows, done: set<OrderedKey>) {
    forall key :: HasOrdered(schema, key) ==>
      O.Files(GroupsIn(ordereds, key), OrderedRows(if key in done then new_ else old_, key.container, OrderedOf(schema, key)))
  }

  ghost predicate OrderedsHold(schema: IndexSchema, ordereds: Ordereds, rows: Rows) {
    OrderedsBetween(schema, ordereds, rows, rows, {})
  }

  lemma IntervalRowsMore(rows: Rows, id: ItemId, row: Row, c: ContainerId, info: IntervalInfo)
    requires id !in rows
    ensures IntervalRows(rows[id := row], c, info)
         == IntervalRows(rows, c, info) + if row.container == c then {IntervalRow(id, row, info)} else {}
  {
    hide CellAt, CellsAt;
    var after := rows[id := row];
    forall x | x in IntervalRows(rows, c, info)
      ensures x in IntervalRows(after, c, info)
    {
      var i :| i in rows && rows[i].container == c && IntervalRow(i, rows[i], info) == x;
      assert i in after && after[i] == rows[i];
    }
    assert id in after && after[id] == row;
  }

  lemma IntervalRowsLess(rows: Rows, id: ItemId, c: ContainerId, info: IntervalInfo)
    requires id in rows
    ensures IntervalRows(rows - {id}, c, info)
         == IntervalRows(rows, c, info) - if rows[id].container == c then {IntervalRow(id, rows[id], info)} else {}
  {
    hide CellAt, CellsAt;
    var after := rows - {id};
    forall x | x in IntervalRows(rows, c, info) && x != IntervalRow(id, rows[id], info)
      ensures x in IntervalRows(after, c, info)
    {
      var i :| i in rows && rows[i].container == c && IntervalRow(i, rows[i], info) == x;
      assert i in after && after[i] == rows[i];
    }
    assert rows[id].container != c ==> IntervalRow(id, rows[id], info) !in IntervalRows(rows, c, info);
  }

  lemma OrderedRowsMore(rows: Rows, id: ItemId, row: Row, c: ContainerId, info: OrderedInfo)
    requires id !in rows
    ensures OrderedRows(rows[id := row], c, info)
         == OrderedRows(rows, c, info) + if row.container == c then {OrderedRow(id, row, info)} else {}
  {
    hide CellsAt;
    var after := rows[id := row];
    forall x | x in OrderedRows(rows, c, info)
      ensures x in OrderedRows(after, c, info)
    {
      var i :| i in rows && rows[i].container == c && OrderedRow(i, rows[i], info) == x;
      assert i in after && after[i] == rows[i];
    }
    assert id in after && after[id] == row;
  }

  lemma OrderedRowsLess(rows: Rows, id: ItemId, c: ContainerId, info: OrderedInfo)
    requires id in rows
    ensures OrderedRows(rows - {id}, c, info)
         == OrderedRows(rows, c, info) - if rows[id].container == c then {OrderedRow(id, rows[id], info)} else {}
  {
    hide CellsAt;
    var after := rows - {id};
    forall x | x in OrderedRows(rows, c, info) && x != OrderedRow(id, rows[id], info)
      ensures x in OrderedRows(after, c, info)
    {
      var i :| i in rows && rows[i].container == c && OrderedRow(i, rows[i], info) == x;
      assert i in after && after[i] == rows[i];
    }
    assert rows[id].container != c ==> OrderedRow(id, rows[id], info) !in OrderedRows(rows, c, info);
  }

  lemma IntervalAdded(schema: IndexSchema, contents: Contents, rows: Rows, id: ItemId, row: Row, done: set<IntervalKey>, key: IntervalKey)
    requires IntervalsBetween(schema, contents, rows, rows[id := row], done) && id !in rows && key !in done
    requires HasInterval(schema, key) && key.container == row.container
    ensures IntervalsBetween(schema, contents[key := RowsAt(contents, key) + {IntervalRow(id, row, IntervalOf(schema, key))}],
                             rows, rows[id := row], done + {key})
  {
    hide IntervalRows;
    IntervalRowsMore(rows, id, row, key.container, IntervalOf(schema, key));
  }

  lemma IntervalRemoved(schema: IndexSchema, contents: Contents, rows: Rows, id: ItemId, done: set<IntervalKey>, key: IntervalKey, after: Contents)
    requires IntervalsBetween(schema, contents, rows, rows - {id}, done) && id in rows && key !in done
    requires HasInterval(schema, key) && key.container == rows[id].container
    requires after == if key in contents then contents[key := contents[key] - {IntervalRow(id, rows[id], IntervalOf(schema, key))}] else contents
    ensures IntervalsBetween(schema, after, rows, rows - {id}, done + {key})
  {
    hide IntervalRows;
    IntervalRowsLess(rows, id, key.container, IntervalOf(schema, key));
  }

  lemma IntervalsAllAdded(schema: IndexSchema, contents: Contents, rows: Rows, id: ItemId, row: Row, done: set<IntervalKey>)
    requires IntervalsBetween(schema, contents, rows, rows[id := row], done) && id !in rows
    requires forall key :: HasInterval(schema, key) && key.container == row.container ==> key in done
    ensures IntervalsHold(schema, contents, rows[id := row])
  {
    hide IntervalRows;
    forall key | HasInterval(schema, key)
      ensures RowsAt(contents, key) == IntervalRows(rows[id := row], key.container, IntervalOf(schema, key))
    {
      IntervalRowsMore(rows, id, row, key.container, IntervalOf(schema, key));
    }
  }

  lemma IntervalsAllRemoved(schema: IndexSchema, contents: Contents, rows: Rows, id: ItemId, done: set<IntervalKey>)
    requires IntervalsBetween(schema, contents, rows, rows - {id}, done) && id in rows
    requires forall key :: HasInterval(schema, key) && key.container == rows[id].container ==> key in done
    ensures IntervalsHold(schema, contents, rows - {id})
  {
    hide IntervalRows;
    forall key | HasInterval(schema, key)
      ensures RowsAt(contents, key) == IntervalRows(rows - {id}, key.container, IntervalOf(schema, key))
    {
      IntervalRowsLess(rows, id, key.container, IntervalOf(schema, key));
    }
  }

  lemma OrderedAdded(schema: IndexSchema, ordereds: Ordereds, rows: Rows, id: ItemId, row: Row, done: set<OrderedKey>, key: OrderedKey)
    requires OrderedsBetween(schema, ordereds, rows, rows[id := row], done) && id !in rows && key !in done
    requires HasOrdered(schema, key) && key.container == row.container
    ensures OrderedsBetween(schema, ordereds[key := O.Add(GroupsIn(ordereds, key), OrderedRow(id, row, OrderedOf(schema, key)))],
                            rows, rows[id := row], done + {key})
  {
    hide OrderedRows, O.Files, O.Add;
    var info := OrderedOf(schema, key);
    OrderedRowsMore(rows, id, row, key.container, info);
    O.AddFiles(GroupsIn(ordereds, key), OrderedRows(rows, key.container, info), OrderedRow(id, row, info));
  }

  lemma OrderedRemoved(schema: IndexSchema, ordereds: Ordereds, rows: Rows, id: ItemId, done: set<OrderedKey>, key: OrderedKey)
    requires OrderedsBetween(schema, ordereds, rows, rows - {id}, done) && id in rows && key !in done
    requires HasOrdered(schema, key) && key.container == rows[id].container
    ensures OrderedsBetween(schema, ordereds[key := O.Remove(GroupsIn(ordereds, key), OrderedRow(id, rows[id], OrderedOf(schema, key)))],
                            rows, rows - {id}, done + {key})
  {
    hide OrderedRows, O.Files, O.Remove;
    var info := OrderedOf(schema, key);
    OrderedRowsLess(rows, id, key.container, info);
    O.RemoveFiles(GroupsIn(ordereds, key), OrderedRows(rows, key.container, info), OrderedRow(id, rows[id], info));
  }

  lemma OrderedsAllAdded(schema: IndexSchema, ordereds: Ordereds, rows: Rows, id: ItemId, row: Row, done: set<OrderedKey>)
    requires OrderedsBetween(schema, ordereds, rows, rows[id := row], done) && id !in rows
    requires forall key :: HasOrdered(schema, key) && key.container == row.container ==> key in done
    ensures OrderedsHold(schema, ordereds, rows[id := row])
  {
    hide OrderedRows, O.Files;
    forall key | HasOrdered(schema, key)
      ensures O.Files(GroupsIn(ordereds, key), OrderedRows(rows[id := row], key.container, OrderedOf(schema, key)))
    {
      OrderedRowsMore(rows, id, row, key.container, OrderedOf(schema, key));
      var now := if key in done then rows[id := row] else rows;
      assert OrderedRows(rows[id := row], key.container, OrderedOf(schema, key)) == OrderedRows(now, key.container, OrderedOf(schema, key));
      assert O.Files(GroupsIn(ordereds, key), OrderedRows(now, key.container, OrderedOf(schema, key)));
    }
  }

  lemma OrderedsAllRemoved(schema: IndexSchema, ordereds: Ordereds, rows: Rows, id: ItemId, done: set<OrderedKey>)
    requires OrderedsBetween(schema, ordereds, rows, rows - {id}, done) && id in rows
    requires forall key :: HasOrdered(schema, key) && key.container == rows[id].container ==> key in done
    ensures OrderedsHold(schema, ordereds, rows - {id})
  {
    hide OrderedRows, O.Files;
    forall key | HasOrdered(schema, key)
      ensures O.Files(GroupsIn(ordereds, key), OrderedRows(rows - {id}, key.container, OrderedOf(schema, key)))
    {
      OrderedRowsLess(rows, id, key.container, OrderedOf(schema, key));
      var now := if key in done then rows - {id} else rows;
      assert OrderedRows(rows - {id}, key.container, OrderedOf(schema, key)) == OrderedRows(now, key.container, OrderedOf(schema, key));
      assert O.Files(GroupsIn(ordereds, key), OrderedRows(now, key.container, OrderedOf(schema, key)));
    }
  }

  lemma NoSpecialDone(schema: IndexSchema, contents: Contents, ordereds: Ordereds, old_: Rows, new_: Rows)
    ensures IntervalsHold(schema, contents, old_) ==> IntervalsBetween(schema, contents, old_, new_, {})
    ensures OrderedsHold(schema, ordereds, old_) ==> OrderedsBetween(schema, ordereds, old_, new_, {})
  {
    hide IntervalRows, OrderedRows, O.Files;
  }

  // ----- What the maps hold -----

  ghost predicate ContainersHold(items: map<ContainerId, set<ItemId>>, rows: Rows) {
    forall c :: Held(items, c) == if InContainer(rows, c) == {} then None else Some(InContainer(rows, c))
  }

  function At(indexes: map<FieldKey, Buckets>, key: FieldKey): Buckets {
    if key in indexes then indexes[key] else map[]
  }

  /** The indexes in `done` hold the new rows and the others the old ones. */
  ghost predicate ScalarsBetween(schema: IndexSchema, indexes: map<FieldKey, Buckets>, old_: Rows, new_: Rows, done: set<FieldKey>) {
    forall key :: AreBuckets(At(indexes, key), Entries(schema, if key in done then new_ else old_, key)) && (key in indexes ==> indexes[key] != map[])
  }

  ghost predicate ScalarsHold(schema: IndexSchema, indexes: map<FieldKey, Buckets>, rows: Rows) {
    ScalarsBetween(schema, indexes, rows, rows, {})
  }

  datatype RelationKey = RelationKey(container: ContainerId, relation: ColumnId)

  ghost predicate CountsOf(counts: map<Value, nat>, e: map<ItemId, Value>) {
    forall v :: Held(counts, v) == if Having(e, v) == {} then None else Some(|Having(e, v)|)
  }

  predicate Related(schema: IndexSchema, key: RelationKey) {
    key.container in schema && key.relation in schema[key.container].relations
  }

  function CountsAt(counts: map<RelationKey, map<Value, nat>>, key: RelationKey): map<Value, nat> {
    if key in counts then counts[key] else map[]
  }

  ghost predicate CountsBetween(schema: IndexSchema, counts: map<RelationKey, map<Value, nat>>, old_: Rows, new_: Rows, done: set<RelationKey>) {
    forall key: RelationKey :: Related(schema, key) ==>
      CountsOf(CountsAt(counts, key), ParentEntries(if key in done then new_ else old_, key.container, key.relation))
  }

  ghost predicate CountsHold(schema: IndexSchema, counts: map<RelationKey, map<Value, nat>>, rows: Rows) {
    CountsBetween(schema, counts, rows, rows, {})
  }

  datatype Group = Group(relation: ColumnId, parent: Value)

  /** `AggregateColumnData`. */
  datatype AggregateColumn = AggregateColumn(total: Bucket, groups: map<Group, Bucket>)

  datatype AggregateKey = AggregateKey(container: ContainerId, column: ColumnId)

  /** There is a bucket exactly when there are items for it. */
  ghost predicate BucketFits(b: Option<Bucket>, options: Options, e: map<ItemId, Value>) {
    if e == map[] then b.None? else b.Some? && Tells(b.value, options, e)
  }

  /** A bucket that gains or loses an item's value. One that runs empty is dropped. */
  function BucketAdded(b: Option<Bucket>, options: Options, v: Value): (r: Option<Bucket>)
    ensures r.Some?
  {
    Some(Added(b.GetOr(EMPTY_BUCKET), options, v))
  }

  function BucketRemoved(b: Option<Bucket>, options: Options, v: Value): Option<Bucket> {
    if b.None? || Removed(b.value, options, v).count == 0 then None else Some(Removed(b.value, options, v))
  }

  lemma BucketAddedFits(b: Option<Bucket>, options: Options, e: map<ItemId, Value>, id: ItemId, v: Value)
    requires BucketFits(b, options, e) && id !in e
    ensures BucketFits(BucketAdded(b, options, v), options, e[id := v])
  {
    hide Added, Tells;
    assert id in e[id := v];
    if e == map[] {
      NothingTold(options);
    }
    AddedTells(b.GetOr(EMPTY_BUCKET), options, e, id, v);
  }

  lemma BucketRemovedFits(b: Option<Bucket>, options: Options, e: map<ItemId, Value>, id: ItemId)
    requires BucketFits(b, options, e) && id in e
    ensures BucketFits(BucketRemoved(b, options, e[id]), options, e - {id})
  {
    hide Removed, Tells;
    RemovedTells(b.value, options, e, id);
  }

  function TotalOf(a: Option<AggregateColumn>): Option<Bucket> {
    if a.Some? then Some(a.value.total) else None
  }

  function GroupsOf(a: Option<AggregateColumn>): map<Group, Bucket> {
    if a.Some? then a.value.groups else map[]
  }

  ghost predicate GroupsBetween(schema: IndexSchema, groups: map<Group, Bucket>, c: ContainerId, k: ColumnId,
                                old_: Rows, new_: Rows, done: set<ColumnId>)
    requires c in schema
  {
    forall r, parent :: r in schema[c].relations ==>
      BucketFits(Held(groups, Group(r, parent)), OptionsOf(schema, c, k), GroupCells(schema, if r in done then new_ else old_, c, k, r, parent))
  }

  ghost predicate ColumnFits(schema: IndexSchema, a: Option<AggregateColumn>, c: ContainerId, k: ColumnId, rows: Rows)
    requires c in schema
  {
    && BucketFits(TotalOf(a), OptionsOf(schema, c, k), ColumnCells(schema, rows, c, k))
    && (OptionsOf(schema, c, k).byParent ==> GroupsBetween(schema, GroupsOf(a), c, k, rows, rows, {}))
  }

  ghost predicate AggregatesBetween(schema: IndexSchema, columns: map<AggregateKey, AggregateColumn>, old_: Rows, new_: Rows, done: set<AggregateKey>) {
    forall key: AggregateKey :: Aggregated(schema, key.container, key.column) ==>
      ColumnFits(schema, Held(columns, key), key.container, key.column, if key in done then new_ else old_)
  }

  ghost predicate AggregatesHold(schema: IndexSchema, columns: map<AggregateKey, AggregateColumn>, rows: Rows) {
    AggregatesBetween(schema, columns, rows, rows, {})
  }

  // ----- Columns that have only had integers -----

  predicate CleanBucket(b: Option<Bucket>, options: Options, tag: byte) {
    b.Some? ==> Clean(b.value, options, tag)
  }

  ghost predicate CleanGroups(groups: map<Group, Bucket>, options: Options, tag: byte) {
    forall g :: CleanBucket(Held(groups, g), options, tag)
  }

  ghost predicate CleanColumn(a: Option<AggregateColumn>, options: Options, tag: byte) {
    CleanBucket(TotalOf(a), options, tag) && CleanGroups(GroupsOf(a), options, tag)
  }

  lemma BucketStaysClean(b: Option<Bucket>, options: Options, v: Value, tag: byte)
    requires CleanBucket(b, options, tag) && Whole(v, tag)
    ensures CleanBucket(BucketAdded(b, options, v), options, tag) && CleanBucket(BucketRemoved(b, options, v), options, tag)
  {
  }

  /** A column not spoiled by the row stays clean. */
  lemma CleanStep(schema: IndexSchema, columns: map<AggregateKey, AggregateColumn>, row: Row, k: ColumnId, a: Option<AggregateColumn>, spoiled: set<AggregateKey>)
    requires AllClean(schema, columns, spoiled) && Spoils(schema, row) <= spoiled && Summed(schema, row, row.container, k)
    requires forall tag ::
               (CleanColumn(Held(columns, AggregateKey(row.container, k)), OptionsOf(schema, row.container, k), tag) && Whole(CellAt(row, k), tag))
               ==> CleanColumn(a, OptionsOf(schema, row.container, k), tag)
    ensures AllClean(schema, Stored(columns, AggregateKey(row.container, k), a), spoiled)
  {
    hide CleanColumn, Whole, CellAt, Stored;
    var key := AggregateKey(row.container, k);
    if key !in spoiled {
      assert key !in Spoils(schema, row);
      assert CleanColumn(Held(columns, key), OptionsOf(schema, key.container, key.column), TagAt(schema, key));
    }
    ColumnStaysClean(columns, key, a, schema, spoiled);
  }

  lemma NoneIsClean(options: Options)
    ensures forall tag :: CleanColumn(None, options, tag)
  {
  }

  lemma ColumnStaysClean(columns: map<AggregateKey, AggregateColumn>, key: AggregateKey, a: Option<AggregateColumn>, schema: IndexSchema, spoiled: set<AggregateKey>)
    requires AllClean(schema, columns, spoiled)
    requires key !in spoiled ==> CleanColumn(a, OptionsOf(schema, key.container, key.column), TagAt(schema, key))
    ensures AllClean(schema, Stored(columns, key, a), spoiled)
  {
    hide CleanColumn, OptionsOf, TagAt, Stored;
  }

  /** The aggregated columns in which the row has anything but an integer of the column's type. */
  function Spoils(schema: IndexSchema, row: Row): set<AggregateKey> {
    if row.container !in schema then {}
    else
      var columns := schema[row.container].columns;
      set k | k in columns && Summed(schema, row, row.container, k) && !Whole(CellAt(row, k), columns[k].tag) :: AggregateKey(row.container, k)
  }

  function TagAt(schema: IndexSchema, key: AggregateKey): byte {
    if key.container in schema && key.column in schema[key.container].columns then schema[key.container].columns[key.column].tag else 0
  }

  /** The sums of the columns that no row has spoiled are integers. */
  ghost predicate AllClean(schema: IndexSchema, columns: map<AggregateKey, AggregateColumn>, spoiled: set<AggregateKey>) {
    forall key :: key !in spoiled ==> CleanColumn(Held(columns, key), OptionsOf(schema, key.container, key.column), TagAt(schema, key))
  }

  // ----- How the contents change with one item -----

  lemma EntriesMore(schema: IndexSchema, rows: Rows, id: ItemId, row: Row, key: FieldKey)
    requires id !in rows
    ensures id !in Entries(schema, rows, key)
    ensures Entries(schema, rows[id := row], key)
         == if Entry(schema, row, key).Some? then Entries(schema, rows, key)[id := Entry(schema, row, key).value] else Entries(schema, rows, key)
  {
    hide Entry;
  }

  lemma EntriesLess(schema: IndexSchema, rows: Rows, id: ItemId, key: FieldKey)
    requires id in rows
    ensures Entries(schema, rows - {id}, key) == Entries(schema, rows, key) - {id}
    ensures id in Entries(schema, rows, key) <==> Entry(schema, rows[id], key).Some?
    ensures Entry(schema, rows[id], key).Some? ==> Entries(schema, rows, key)[id] == Entry(schema, rows[id], key).value
  {
    hide Entry;
  }

  lemma ParentEntriesMore(rows: Rows, id: ItemId, row: Row, c: ContainerId, r: ColumnId)
    requires id !in rows
    ensures id !in ParentEntries(rows, c, r)
    ensures ParentEntries(rows[id := row], c, r) == if row.container == c then ParentEntries(rows, c, r)[id := CellAt(row, r)] else ParentEntries(rows, c, r)
  {
  }

  lemma ParentEntriesLess(rows: Rows, id: ItemId, c: ContainerId, r: ColumnId)
    requires id in rows
    ensures ParentEntries(rows - {id}, c, r) == ParentEntries(rows, c, r) - {id}
    ensures id in ParentEntries(rows, c, r) <==> rows[id].container == c
    ensures rows[id].container == c ==> ParentEntries(rows, c, r)[id] == CellAt(rows[id], r)
  {
  }

  lemma ColumnCellsMore(schema: IndexSchema, rows: Rows, id: ItemId, row: Row, c: ContainerId, k: ColumnId)
    requires id !in rows
    ensures id !in ColumnCells(schema, rows, c, k)
    ensures ColumnCells(schema, rows[id := row], c, k)
         == if Summed(schema, row, c, k) then ColumnCells(schema, rows, c, k)[id := CellAt(row, k)] else ColumnCells(schema, rows, c, k)
  {
    hide Summed, CellAt;
  }

  lemma ColumnCellsLess(schema: IndexSchema, rows: Rows, id: ItemId, c: ContainerId, k: ColumnId)
    requires id in rows
    ensures ColumnCells(schema, rows - {id}, c, k) == ColumnCells(schema, rows, c, k) - {id}
    ensures id in ColumnCells(schema, rows, c, k) <==> Summed(schema, rows[id], c, k)
    ensures Summed(schema, rows[id], c, k) ==> ColumnCells(schema, rows, c, k)[id] == CellAt(rows[id], k)
  {
    hide Summed, CellAt;
  }

  lemma GroupCellsMore(schema: IndexSchema, rows: Rows, id: ItemId, row: Row, c: ContainerId, k: ColumnId, r: ColumnId, parent: Value)
    requires id !in rows
    ensures id !in GroupCells(schema, rows, c, k, r, parent)
    ensures GroupCells(schema, rows[id := row], c, k, r, parent)
         == if Summed(schema, row, c, k) && CellAt(row, r) == parent then GroupCells(schema, rows, c, k, r, parent)[id := CellAt(row, k)]
            else GroupCells(schema, rows, c, k, r, parent)
  {
    hide Summed, CellAt;
  }

  lemma GroupCellsLess(schema: IndexSchema, rows: Rows, id: ItemId, c: ContainerId, k: ColumnId, r: ColumnId, parent: Value)
    requires id in rows
    ensures GroupCells(schema, rows - {id}, c, k, r, parent) == GroupCells(schema, rows, c, k, r, parent) - {id}
    ensures id in GroupCells(schema, rows, c, k, r, parent) <==> Summed(schema, rows[id], c, k) && CellAt(rows[id], r) == parent
    ensures id in GroupCells(schema, rows, c, k, r, parent) ==> GroupCells(schema, rows, c, k, r, parent)[id] == CellAt(rows[id], k)
  {
    hide Summed, CellAt;
  }

  /** One more scalar index brought up to date. */
  lemma ScalarAdded(schema: IndexSchema, indexes: map<FieldKey, Buckets>, rows: Rows, id: ItemId, row: Row, done: set<FieldKey>, key: FieldKey)
    requires ScalarsBetween(schema, indexes, rows, rows[id := row], done) && id !in rows && key !in done
    requires Entry(schema, row, key).Some?
    ensures ScalarsBetween(schema, indexes[key := Put(At(indexes, key), Entry(schema, row, key).value, id)], rows, rows[id := row], done + {key})
  {
    hide Entry, Entries, AreBuckets;
    var v := Entry(schema, row, key).value;
    var more := indexes[key := Put(At(indexes, key), v, id)];
    EntriesMore(schema, rows, id, row, key);
    assert AreBuckets(At(indexes, key), Entries(schema, rows, key));
    PutHolds(At(indexes, key), Entries(schema, rows, key), id, v);
    assert v in more[key];
    forall k
      ensures AreBuckets(At(more, k), Entries(schema, if k in done + {key} then rows[id := row] else rows, k)) && (k in more ==> more[k] != map[])
    {
      assert AreBuckets(At(indexes, k), Entries(schema, if k in done then rows[id := row] else rows, k));
    }
  }

  lemma ScalarRemoved(schema: IndexSchema, indexes: map<FieldKey, Buckets>, rows: Rows, id: ItemId, done: set<FieldKey>, key: FieldKey, after: map<FieldKey, Buckets>)
    requires ScalarsBetween(schema, indexes, rows, rows - {id}, done) && id in rows && key !in done
    requires Entry(schema, rows[id], key).Some?
    requires var b := Take(At(indexes, key), Entry(schema, rows[id], key).value, id);
             after == if b == map[] then indexes - {key} else indexes[key := b]
    ensures ScalarsBetween(schema, after, rows, rows - {id}, done + {key})
  {
    hide Entry, Entries, AreBuckets, Take;
    EntriesLess(schema, rows, id, key);
    assert AreBuckets(At(indexes, key), Entries(schema, rows, key));
    TakeHolds(At(indexes, key), Entries(schema, rows, key), id);
    forall k
      ensures AreBuckets(At(after, k), Entries(schema, if k in done + {key} then rows - {id} else rows, k)) && (k in after ==> after[k] != map[])
    {
      assert AreBuckets(At(indexes, k), Entries(schema, if k in done then rows - {id} else rows, k));
    }
  }

  /** Indexes in which the item does not stand need no change. */
  lemma ScalarsAllAdded(schema: IndexSchema, indexes: map<FieldKey, Buckets>, rows: Rows, id: ItemId, row: Row, done: set<FieldKey>)
    requires ScalarsBetween(schema, indexes, rows, rows[id := row], done) && id !in rows
    requires forall key :: Entry(schema, row, key).Some? ==> key in done
    ensures ScalarsHold(schema, indexes, rows[id := row])
  {
    hide Entry, Entries, AreBuckets;
    forall key
      ensures AreBuckets(At(indexes, key), Entries(schema, rows[id := row], key)) && (key in indexes ==> indexes[key] != map[])
    {
      EntriesMore(schema, rows, id, row, key);
      assert AreBuckets(At(indexes, key), Entries(schema, if key in done then rows[id := row] else rows, key));
    }
  }

  lemma ScalarsAllRemoved(schema: IndexSchema, indexes: map<FieldKey, Buckets>, rows: Rows, id: ItemId, done: set<FieldKey>)
    requires ScalarsBetween(schema, indexes, rows, rows - {id}, done) && id in rows
    requires forall key :: Entry(schema, rows[id], key).Some? ==> key in done
    ensures ScalarsHold(schema, indexes, rows - {id})
  {
    hide Entry, Entries, AreBuckets;
    forall key
      ensures AreBuckets(At(indexes, key), Entries(schema, rows - {id}, key)) && (key in indexes ==> indexes[key] != map[])
    {
      EntriesLess(schema, rows, id, key);
      assert Entries(schema, rows, key) - {id} == Entries(schema, rows, key) || id in Entries(schema, rows, key);
      assert AreBuckets(At(indexes, key), Entries(schema, if key in done then rows - {id} else rows, key));
    }
  }

  lemma NothingDone(schema: IndexSchema, indexes: map<FieldKey, Buckets>, counts: map<RelationKey, map<Value, nat>>,
                    columns: map<AggregateKey, AggregateColumn>, old_: Rows, new_: Rows)
    ensures ScalarsHold(schema, indexes, old_) ==> ScalarsBetween(schema, indexes, old_, new_, {})
    ensures CountsHold(schema, counts, old_) ==> CountsBetween(schema, counts, old_, new_, {})
    ensures AggregatesHold(schema, columns, old_) ==> AggregatesBetween(schema, columns, old_, new_, {})
  {
    hide AreBuckets, Entries, CountsOf, ParentEntries, ColumnFits;
  }

  // ----- Parent counts -----

  function CountPlus(counts: map<Value, nat>, v: Value): map<Value, nat> {
    counts[v := Held(counts, v).GetOr(0) + 1]
  }

  function CountMinus(counts: map<Value, nat>, v: Value): map<Value, nat> {
    if v !in counts then counts
    else if counts[v] <= 1 then counts - {v}
    else counts[v := counts[v] - 1]
  }

  lemma CountPlusHolds(counts: map<Value, nat>, e: map<ItemId, Value>, id: ItemId, v: Value)
    requires CountsOf(counts, e) && id !in e
    ensures CountsOf(CountPlus(counts, v), e[id := v])
  {
    hide Having;
    forall w
      ensures Held(CountPlus(counts, v), w) == if Having(e[id := v], w) == {} then None else Some(|Having(e[id := v], w)|)
    {
      HavingMore(e, id, v, w);
      assert Held(counts, w) == if Having(e, w) == {} then None else Some(|Having(e, w)|);
    }
  }

  lemma CountMinusHolds(counts: map<Value, nat>, e: map<ItemId, Value>, id: ItemId)
    requires CountsOf(counts, e) && id in e
    ensures CountsOf(CountMinus(counts, e[id]), e - {id})
  {
    forall w
      ensures Held(CountMinus(counts, e[id]), w) == if Having(e - {id}, w) == {} then None else Some(|Having(e - {id}, w)|)
    {
      HavingLess(e, id, w);
      assert Held(counts, w) == if Having(e, w) == {} then None else Some(|Having(e, w)|);
      assert id in Having(e, e[id]);
      assert |Having(e - {id}, w)| == 0 ==> Having(e - {id}, w) == {};
    }
  }

  lemma CountAdded(schema: IndexSchema, counts: map<RelationKey, map<Value, nat>>, rows: Rows, id: ItemId, row: Row,
                   done: set<RelationKey>, r: ColumnId)
    requires CountsBetween(schema, counts, rows, rows[id := row], done) && id !in rows
    requires var key := RelationKey(row.container, r); Related(schema, key) && key !in done
    ensures var key := RelationKey(row.container, r);
            CountsBetween(schema, counts[key := CountPlus(CountsAt(counts, key), CellAt(row, r))], rows, rows[id := row], done + {key})
  {
    hide CountsOf, ParentEntries, CountPlus, CellAt;
    var key := RelationKey(row.container, r);
    var more := counts[key := CountPlus(CountsAt(counts, key), CellAt(row, r))];
    ParentEntriesMore(rows, id, row, row.container, r);
    assert CountsOf(CountsAt(counts, key), ParentEntries(rows, row.container, r));
    CountPlusHolds(CountsAt(counts, key), ParentEntries(rows, row.container, r), id, CellAt(row, r));
    forall k: RelationKey | Related(schema, k)
      ensures CountsOf(CountsAt(more, k), ParentEntries(if k in done + {key} then rows[id := row] else rows, k.container, k.relation))
    {
      assert CountsOf(CountsAt(counts, k), ParentEntries(if k in done then rows[id := row] else rows, k.container, k.relation));
    }
  }

  lemma CountRemoved(schema: IndexSchema, counts: map<RelationKey, map<Value, nat>>, rows: Rows, id: ItemId,
                     done: set<RelationKey>, r: ColumnId, after: map<RelationKey, map<Value, nat>>)
    requires CountsBetween(schema, counts, rows, rows - {id}, done) && id in rows
    requires var key := RelationKey(rows[id].container, r);
             && Related(schema, key) && key !in done
             && var left := CountMinus(CountsAt(counts, key), CellAt(rows[id], r));
                after == if left == map[] then counts - {key} else counts[key := left]
    ensures CountsBetween(schema, after, rows, rows - {id}, done + {RelationKey(rows[id].container, r)})
  {
    hide CountsOf, ParentEntries, CountMinus, CellAt;
    var key := RelationKey(rows[id].container, r);
    ParentEntriesLess(rows, id, rows[id].container, r);
    assert CountsOf(CountsAt(counts, key), ParentEntries(rows, rows[id].container, r));
    CountMinusHolds(CountsAt(counts, key), ParentEntries(rows, rows[id].container, r), id);
    forall k: RelationKey | Related(schema, k)
      ensures CountsOf(CountsAt(after, k), ParentEntries(if k in done + {key} then rows - {id} else rows, k.container, k.relation))
    {
      assert CountsOf(CountsAt(counts, k), ParentEntries(if k in done then rows - {id} else rows, k.container, k.relation));
    }
  }

  lemma CountsAllAdded(schema: IndexSchema, counts: map<RelationKey, map<Value, nat>>, rows: Rows, id: ItemId, row: Row, done: set<RelationKey>)
    requires CountsBetween(schema, counts, rows, rows[id := row], done) && id !in rows
    requires forall key: RelationKey :: Related(schema, key) && key.container == row.container ==> key in done
    ensures CountsHold(schema, counts, rows[id := row])
  {
    hide CountsOf, ParentEntries;
    forall k: RelationKey | Related(schema, k)
      ensures CountsOf(CountsAt(counts, k), ParentEntries(rows[id := row], k.container, k.relation))
    {
      ParentEntriesMore(rows, id, row, k.container, k.relation);
      assert CountsOf(CountsAt(counts, k), ParentEntries(if k in done then rows[id := row] else rows, k.container, k.relation));
    }
  }

  lemma CountsAllRemoved(schema: IndexSchema, counts: map<RelationKey, map<Value, nat>>, rows: Rows, id: ItemId, done: set<RelationKey>)
    requires CountsBetween(schema, counts, rows, rows - {id}, done) && id in rows
    requires forall key: RelationKey :: Related(schema, key) && key.container == rows[id].container ==> key in done
    ensures CountsHold(schema, counts, rows - {id})
  {
    hide CountsOf, ParentEntries;
    forall k: RelationKey | Related(schema, k)
      ensures CountsOf(CountsAt(counts, k), ParentEntries(rows - {id}, k.container, k.relation))
    {
      ParentEntriesLess(rows, id, k.container, k.relation);
      assert ParentEntries(rows, k.container, k.relation) - {id} == ParentEntries(rows, k.container, k.relation) || id in ParentEntries(rows, k.container, k.relation);
      assert CountsOf(CountsAt(counts, k), ParentEntries(if k in done then rows - {id} else rows, k.container, k.relation));
    }
  }

  // ----- Aggregates -----

  function Stored<K(!new), V>(m: map<K, V>, k: K, v: Option<V>): (r: map<K, V>)
    ensures forall x :: Held(r, x) == if x == k then v else Held(m, x)
  {
    if v.Some? then m[k := v.value] else m - {k}
  }

  lemma GroupAdded(schema: IndexSchema, groups: map<Group, Bucket>, rows: Rows, id: ItemId, row: Row, k: ColumnId, done: set<ColumnId>, r: ColumnId)
    requires row.container in schema && Summed(schema, row, row.container, k) && id !in rows && r !in done
    requires GroupsBetween(schema, groups, row.container, k, rows, rows[id := row], done)
    ensures var g := Group(r, CellAt(row, r));
            r in schema[row.container].relations ==>
              GroupsBetween(schema, Stored(groups, g, BucketAdded(Held(groups, g), OptionsOf(schema, row.container, k), CellAt(row, k))),
                            row.container, k, rows, rows[id := row], done + {r})
  {
    hide BucketFits, GroupCells, BucketAdded, Summed, OptionsOf, CellAt, Stored;
    var c, options, g := row.container, OptionsOf(schema, row.container, k), Group(r, CellAt(row, r));
    var more := Stored(groups, g, BucketAdded(Held(groups, g), options, CellAt(row, k)));
    if r in schema[c].relations {
      forall s, parent | s in schema[c].relations
        ensures BucketFits(Held(more, Group(s, parent)), options, GroupCells(schema, if s in done + {r} then rows[id := row] else rows, c, k, s, parent))
      {
        GroupCellsMore(schema, rows, id, row, c, k, s, parent);
        assert BucketFits(Held(groups, Group(s, parent)), options, GroupCells(schema, if s in done then rows[id := row] else rows, c, k, s, parent));
        if Group(s, parent) == g {
          BucketAddedFits(Held(groups, g), options, GroupCells(schema, rows, c, k, s, parent), id, CellAt(row, k));
        }
      }
    }
  }

  lemma GroupRemoved(schema: IndexSchema, groups: map<Group, Bucket>, rows: Rows, id: ItemId, k: ColumnId, done: set<ColumnId>, r: ColumnId)
    requires id in rows && rows[id].container in schema && Summed(schema, rows[id], rows[id].container, k) && r !in done
    requires GroupsBetween(schema, groups, rows[id].container, k, rows, rows - {id}, done)
    ensures var c, g := rows[id].container, Group(r, CellAt(rows[id], r));
            r in schema[c].relations ==>
              GroupsBetween(schema, Stored(groups, g, BucketRemoved(Held(groups, g), OptionsOf(schema, c, k), CellAt(rows[id], k))),
                            c, k, rows, rows - {id}, done + {r})
  {
    hide BucketFits, GroupCells, BucketRemoved, Summed, OptionsOf, CellAt, Stored;
    var c := rows[id].container;
    var options, g := OptionsOf(schema, c, k), Group(r, CellAt(rows[id], r));
    var more := Stored(groups, g, BucketRemoved(Held(groups, g), options, CellAt(rows[id], k)));
    if r in schema[c].relations {
      forall s, parent | s in schema[c].relations
        ensures BucketFits(Held(more, Group(s, parent)), options, GroupCells(schema, if s in done + {r} then rows - {id} else rows, c, k, s, parent))
      {
        GroupCellsLess(schema, rows, id, c, k, s, parent);
        assert BucketFits(Held(groups, Group(s, parent)), options, GroupCells(schema, if s in done then rows - {id} else rows, c, k, s, parent));
        var e := GroupCells(schema, rows, c, k, s, parent);
        if Group(s, parent) == g {
          BucketRemovedFits(Held(groups, g), options, e, id);
        } else {
          assert id !in e ==> e - {id} == e;
        }
      }
    }
  }

  lemma GroupsStart(schema: IndexSchema, groups: map<Group, Bucket>, c: ContainerId, k: ColumnId, old_: Rows, new_: Rows)
    requires c in schema && GroupsBetween(schema, groups, c, k, old_, old_, {})
    ensures GroupsBetween(schema, groups, c, k, old_, new_, {})
  {
    hide BucketFits, GroupCells;
  }

  lemma GroupsDone(schema: IndexSchema, groups: map<Group, Bucket>, c: ContainerId, k: ColumnId, old_: Rows, new_: Rows, done: set<ColumnId>)
    requires c in schema && GroupsBetween(schema, groups, c, k, old_, new_, done) && schema[c].relations <= done
    ensures GroupsBetween(schema, groups, c, k, new_, new_, {})
  {
    hide BucketFits, GroupCells;
  }

  lemma ColumnDone(schema: IndexSchema, columns: map<AggregateKey, AggregateColumn>, old_: Rows, new_: Rows, done: set<AggregateKey>,
                   c: ContainerId, k: ColumnId, a: Option<AggregateColumn>)
    requires AggregatesBetween(schema, columns, old_, new_, done) && Aggregated(schema, c, k) && ColumnFits(schema, a, c, k, new_)
    ensures AggregatesBetween(schema, Stored(columns, AggregateKey(c, k), a), old_, new_, done + {AggregateKey(c, k)})
  {
    hide ColumnFits, Aggregated, Stored;
    var more := Stored(columns, AggregateKey(c, k), a);
    forall key: AggregateKey | Aggregated(schema, key.container, key.column)
      ensures key.container in schema && ColumnFits(schema, Held(more, key), key.container, key.column, if key in done + {AggregateKey(c, k)} then new_ else old_)
    {
      InSchema(schema, key.container, key.column);
      assert ColumnFits(schema, Held(columns, key), key.container, key.column, if key in done then new_ else old_);
    }
  }

  lemma InSchema(schema: IndexSchema, c: ContainerId, k: ColumnId)
    requires Aggregated(schema, c, k)
    ensures c in schema
  {
  }

  /** Columns the item has no value for need no change. */
  lemma AggregatesAllAdded(schema: IndexSchema, columns: map<AggregateKey, AggregateColumn>, rows: Rows, id: ItemId, row: Row, done: set<AggregateKey>)
    requires AggregatesBetween(schema, columns, rows, rows[id := row], done) && id !in rows
    requires forall key: AggregateKey :: Summed(schema, row, key.container, key.column) ==> key in done
    ensures AggregatesHold(schema, columns, rows[id := row])
  {
    hide ColumnFits, Aggregated, Summed;
    forall key: AggregateKey | Aggregated(schema, key.container, key.column)
      ensures key.container in schema && ColumnFits(schema, Held(columns, key), key.container, key.column, rows[id := row])
    {
      InSchema(schema, key.container, key.column);
      assert ColumnFits(schema, Held(columns, key), key.container, key.column, if key in done then rows[id := row] else rows);
      if key !in done {
        StillFitsAdded(schema, Held(columns, key), key.container, key.column, rows, id, row);
      }
    }
  }

  lemma StillFitsAdded(schema: IndexSchema, a: Option<AggregateColumn>, c: ContainerId, k: ColumnId, rows: Rows, id: ItemId, row: Row)
    requires c in schema && ColumnFits(schema, a, c, k, rows) && id !in rows && !Summed(schema, row, c, k)
    ensures ColumnFits(schema, a, c, k, rows[id := row])
  {
    hide BucketFits, ColumnCells, GroupCells, Summed, OptionsOf;
    ColumnCellsMore(schema, rows, id, row, c, k);
    forall r, parent
      ensures GroupCells(schema, rows[id := row], c, k, r, parent) == GroupCells(schema, rows, c, k, r, parent)
    {
      GroupCellsMore(schema, rows, id, row, c, k, r, parent);
    }
  }

  lemma AggregatesAllRemoved(schema: IndexSchema, columns: map<AggregateKey, AggregateColumn>, rows: Rows, id: ItemId, done: set<AggregateKey>)
    requires AggregatesBetween(schema, columns, rows, rows - {id}, done) && id in rows
    requires forall key: AggregateKey :: Summed(schema, rows[id], key.container, key.column) ==> key in done
    ensures AggregatesHold(schema, columns, rows - {id})
  {
    hide ColumnFits, Aggregated, Summed;
    forall key: AggregateKey | Aggregated(schema, key.container, key.column)
      ensures key.container in schema && ColumnFits(schema, Held(columns, key), key.container, key.column, rows - {id})
    {
      InSchema(schema, key.container, key.column);
      assert ColumnFits(schema, Held(columns, key), key.container, key.column, if key in done then rows - {id} else rows);
      if key !in done {
        StillFitsRemoved(schema, Held(columns, key), key.container, key.column, rows, id);
      }
    }
  }

  lemma StillFitsRemoved(schema: IndexSchema, a: Option<AggregateColumn>, c: ContainerId, k: ColumnId, rows: Rows, id: ItemId)
    requires c in schema && ColumnFits(schema, a, c, k, rows) && id in rows && !Summed(schema, rows[id], c, k)
    ensures ColumnFits(schema, a, c, k, rows - {id})
  {
    hide BucketFits, ColumnCells, GroupCells, Summed, OptionsOf;
    ColumnCellsLess(schema, rows, id, c, k);
    NotThere(ColumnCells(schema, rows, c, k), id);
    forall r, parent
      ensures GroupCells(schema, rows - {id}, c, k, r, parent) == GroupCells(schema, rows, c, k, r, parent)
    {
      GroupCellsLess(schema, rows, id, c, k, r, parent);
      NotThere(GroupCells(schema, rows, c, k, r, parent), id);
    }
  }

  lemma NotThere(e: map<ItemId, Value>, id: ItemId)
    ensures id !in e ==> e - {id} == e
  {
  }

  lemma ContainersMore(items: map<ContainerId, set<ItemId>>, rows: Rows, id: ItemId, row: Row)
    requires ContainersHold(items, rows) && id !in rows
    ensures ContainersHold(items[row.container := Held(items, row.container).GetOr({}) + {id}], rows[id := row])
  {
    var more := items[row.container := Held(items, row.container).GetOr({}) + {id}];
    assert id in InContainer(rows[id := row], row.container);
    forall c
      ensures Held(more, c) == if InContainer(rows[id := row], c) == {} then None else Some(InContainer(rows[id := row], c))
    {
      assert InContainer(rows[id := row], c) == if c == row.container then InContainer(rows, c) + {id} else InContainer(rows, c);
      assert Held(items, c) == if InContainer(rows, c) == {} then None else Some(InContainer(rows, c));
    }
  }

  lemma ContainersLess(items: map<ContainerId, set<ItemId>>, rows: Rows, id: ItemId)
    requires ContainersHold(items, rows) && id in rows
    ensures ContainersHold(WithoutItem(items, rows[id].container, id), rows - {id})
  {
    var mine := rows[id].container;
    forall c
      ensures InContainer(rows - {id}, c) == if c == mine then InContainer(rows, c) - {id} else InContainer(rows, c)
    {
    }
    assert Held(items, mine) == if InContainer(rows, mine) == {} then None else Some(InContainer(rows, mine));
    assert id in InContainer(rows, mine);
  }

  lemma PointsMore(schema: IndexSchema, rows: Rows, id: ItemId, row: Row, c: ContainerId)
    requires id !in rows
    ensures PointsOf(schema, rows[id := row], c)
         == if c == row.container && Coordinates(schema, row) != map[] then PointsOf(schema, rows, c)[id := Coordinates(schema, row)] else PointsOf(schema, rows, c)
  {
    hide Coordinates;
  }

  lemma PointsLess(schema: IndexSchema, rows: Rows, id: ItemId, c: ContainerId)
    requires id in rows
    ensures PointsOf(schema, rows - {id}, c) == PointsOf(schema, rows, c) - {id}
    ensures c != rows[id].container ==> PointsOf(schema, rows - {id}, c) == PointsOf(schema, rows, c)
  {
    hide Coordinates;
  }

  lemma AllPointsMore(schema: IndexSchema, rows: Rows, id: ItemId, row: Row)
    requires id !in rows
    ensures forall k :: PointsOf(schema, rows[id := row], k)
                     == if k == row.container && Coordinates(schema, row) != map[] then PointsOf(schema, rows, k)[id := Coordinates(schema, row)]
                        else PointsOf(schema, rows, k)
  {
    hide Coordinates, PointsOf;
    forall k
      ensures PointsOf(schema, rows[id := row], k)
           == if k == row.container && Coordinates(schema, row) != map[] then PointsOf(schema, rows, k)[id := Coordinates(schema, row)] else PointsOf(schema, rows, k)
    {
      PointsMore(schema, rows, id, row, k);
    }
  }

  lemma AllPointsLess(schema: IndexSchema, rows: Rows, id: ItemId)
    requires id in rows
    ensures forall k :: PointsOf(schema, rows - {id}, k) == PointsOf(schema, rows, k) - {id}
    ensures forall k :: k != rows[id].container ==> PointsOf(schema, rows - {id}, k) == PointsOf(schema, rows, k)
  {
    hide Coordinates, PointsOf;
    forall k
      ensures PointsOf(schema, rows - {id}, k) == PointsOf(schema, rows, k) - {id}
      ensures k != rows[id].container ==> PointsOf(schema, rows - {id}, k) == PointsOf(schema, rows, k)
    {
      PointsLess(schema, rows, id, k);
    }
  }

  /** The items of a container, with one less. */
  function WithoutItem(items: map<ContainerId, set<ItemId>>, c: ContainerId, id: ItemId): map<ContainerId, set<ItemId>> {
    var left := Held(items, c).GetOr({}) - {id};
    if left == {} then items - {c} else items[c := left]
  }

  // ----- The store -----

  class RuntimeIndexStore {
    const schema: IndexSchema
    var containerItems: map<ContainerId, set<ItemId>>
    var scalarIndexes: map<FieldKey, Buckets>
    var parentCounts: map<RelationKey, map<Value, nat>>
    var aggregateColumns: map<AggregateKey, AggregateColumn>
    var orderedIndexes: Ordereds
    const rangeIndex: K.ContainerRangeIndex
    const intervalIndexes: IntervalStore
    /** The items that have been added and not removed. */
    ghost var rows: Rows
    /** The aggregated columns that some item, perhaps gone by now, had anything in but an
        integer of the column's type. */
    ghost var spoiled: set<AggregateKey>

    ghost predicate MapsHold()
      reads this
    {
      && ContainersHold(containerItems, rows)
      && ScalarsHold(schema, scalarIndexes, rows)
      && CountsHold(schema, parentCounts, rows)
      && AggregatesHold(schema, aggregateColumns, rows)
      && OrderedsHold(schema, orderedIndexes, rows)
      && AllClean(schema, aggregateColumns, spoiled) && forall id :: id in rows ==> Spoils(schema, rows[id]) <= spoiled
    }

    ghost predicate RangesHold()
      reads this, rangeIndex
    {
      rangeIndex.Valid() && forall c :: rangeIndex.Points(c) == PointsOf(schema, rows, c)
    }

    ghost predicate TreesHold()
      reads this, rangeIndex, intervalIndexes, intervalIndexes.Repr
    {
      && this !in intervalIndexes.Repr && rangeIndex !in intervalIndexes.Repr
      && intervalIndexes.Valid() && IntervalsHold(schema, intervalIndexes.contents, rows)
    }

    /** Every index stands for the rows. */
    ghost predicate Valid()
      reads this, rangeIndex, intervalIndexes, intervalIndexes.Repr
    {
      MapsHold() && RangesHold() && TreesHold()
    }

    constructor (schema: IndexSchema, priorityOf: T.Entry -> nat)
      ensures Valid() && rows == map[] && spoiled == {} && this.schema == schema && intervalIndexes.priorityOf == priorityOf
      ensures fresh(rangeIndex) && fresh(intervalIndexes.Repr)
    {
      this.schema := schema;
      containerItems, scalarIndexes, parentCounts, aggregateColumns, rows := map[], map[], map[], map[], map[];
      orderedIndexes, spoiled := map[], {};
      rangeIndex := new K.ContainerRangeIndex();
      intervalIndexes := new IntervalStore(priorityOf);
      new;
      NoRows(schema);
    }

    /** The interval indexes of a new item. */
    method AddIntervals(id: ItemId, row: Row)
      requires row.container in schema && id !in rows && TreesHold()
      modifies intervalIndexes.Repr
      ensures intervalIndexes.Valid() && fresh(intervalIndexes.Repr - old(intervalIndexes.Repr))
      ensures IntervalsHold(schema, intervalIndexes.contents, rows[id := row])
    {
      hide IntervalsBetween, IntervalStore.Valid, CellAt, CellsAt;
      ghost var done: set<IntervalKey> := {};
      NoSpecialDone(schema, intervalIndexes.contents, orderedIndexes, rows, rows[id := row]);
      for i := 0 to |schema[row.container].intervals|
        invariant intervalIndexes.Valid() && fresh(intervalIndexes.Repr - old(intervalIndexes.Repr))
        invariant forall key :: key in done <==> key.container == row.container && key.index < i
        invariant IntervalsBetween(schema, intervalIndexes.contents, rows, rows[id := row], done)
      {
        var key := IntervalKey(row.container, i);
        IntervalAdded(schema, intervalIndexes.contents, rows, id, row, done, key);
        intervalIndexes.Add(key, IntervalRow(id, row, schema[row.container].intervals[i]));
        done := done + {key};
      }
      IntervalsAllAdded(schema, intervalIndexes.contents, rows, id, row, done);
    }

    method RemoveIntervals(id: ItemId, row: Row)
      requires row.container in schema && id in rows && rows[id] == row && TreesHold()
      modifies intervalIndexes.Repr
      ensures intervalIndexes.Valid() && fresh(intervalIndexes.Repr - old(intervalIndexes.Repr))
      ensures IntervalsHold(schema, intervalIndexes.contents, rows - {id})
    {
      hide IntervalsBetween, IntervalStore.Valid, CellAt, CellsAt;
      ghost var done: set<IntervalKey> := {};
      NoSpecialDone(schema, intervalIndexes.contents, orderedIndexes, rows, rows - {id});
      for i := 0 to |schema[row.container].intervals|
        invariant intervalIndexes.Valid() && fresh(intervalIndexes.Repr - old(intervalIndexes.Repr))
        invariant forall key :: key in done <==> key.container == row.container && key.index < i
        invariant IntervalsBetween(schema, intervalIndexes.contents, rows, rows - {id}, done)
      {
        var key := IntervalKey(row.container, i);
        ghost var was := intervalIndexes.contents;
        intervalIndexes.Remove(key, IntervalRow(id, row, schema[row.container].intervals[i]));
        IntervalRemoved(schema, was, rows, id, done, key, intervalIndexes.contents);
        done := done + {key};
      }
      IntervalsAllRemoved(schema, intervalIndexes.contents, rows, id, done);
    }

    /** The ordered indexes of a new item. */
    method AddOrdereds(id: ItemId, row: Row)
      requires row.container in schema && id !in rows && OrderedsHold(schema, orderedIndexes, rows)
      modifies this`orderedIndexes
      ensures OrderedsHold(schema, orderedIndexes, rows[id := row])
    {
      hide OrderedsBetween, O.Add, CellsAt;
      ghost var done: set<OrderedKey> := {};
      NoSpecialDone(schema, map[], orderedIndexes, rows, rows[id := row]);
      for i := 0 to |schema[row.container].ordereds|
        invariant forall key :: key in done <==> key.container == row.container && key.index < i
        invariant OrderedsBetween(schema, orderedIndexes, rows, rows[id := row], done)
      {
        var key := OrderedKey(row.container, i);
        OrderedAdded(schema, orderedIndexes, rows, id, row, done, key);
        orderedIndexes := orderedIndexes[key := O.Add(GroupsIn(orderedIndexes, key), OrderedRow(id, row, schema[row.container].ordereds[i]))];
        done := done + {key};
      }
      OrderedsAllAdded(schema, orderedIndexes, rows, id, row, done);
    }

    method RemoveOrdereds(id: ItemId, row: Row)
      requires row.container in schema && id in rows && rows[id] == row && OrderedsHold(schema, orderedIndexes, rows)
      modifies this`orderedIndexes
      ensures OrderedsHold(schema, orderedIndexes, rows - {id})
    {
      hide OrderedsBetween, O.Remove, CellsAt;
      ghost var done: set<OrderedKey> := {};
      NoSpecialDone(schema, map[], orderedIndexes, rows, rows - {id});
      for i := 0 to |schema[row.container].ordereds|
        invariant forall key :: key in done <==> key.container == row.container && key.index < i
        invariant OrderedsBetween(schema, orderedIndexes, rows, rows - {id}, done)
      {
        var key := OrderedKey(row.container, i);
        OrderedRemoved(schema, orderedIndexes, rows, id, done, key);
        orderedIndexes := orderedIndexes[key := O.Remove(GroupsIn(orderedIndexes, key), OrderedRow(id, row, schema[row.container].ordereds[i]))];
        done := done + {key};
      }
      OrderedsAllRemoved(schema, orderedIndexes, rows, id, done);
    }

    method AddScalar(key: FieldKey, v: Value, id: ItemId)
      modifies this`scalarIndexes
      ensures scalarIndexes == old(scalarIndexes)[key := Put(At(old(scalarIndexes), key), v, id)]
    {
      scalarIndexes := scalarIndexes[key := Put(At(scalarIndexes, key), v, id)];
    }

    method RemoveScalar(key: FieldKey, v: Value, id: ItemId)
      modifies this`scalarIndexes
      ensures var b := Take(At(old(scalarIndexes), key), v, id);
              scalarIndexes == if b == map[] then old(scalarIndexes) - {key} else old(scalarIndexes)[key := b]
    {
      if key !in scalarIndexes {
        return;
      }
      var b := Take(scalarIndexes[key], v, id);
      if b == map[] {
        scalarIndexes := scalarIndexes - {key};
      } else {
        scalarIndexes := scalarIndexes[key := b];
      }
    }

    /** The parents of a new item. */
    method AddParents(id: ItemId, row: Row)
      requires row.container in schema && id !in rows && CountsHold(schema, parentCounts, rows)
      modifies this`parentCounts
      ensures CountsHold(schema, parentCounts, rows[id := row])
    {
      hide CountsBetween, CountPlus, CellAt;
      var relations := schema[row.container].relations;
      ghost var done: set<RelationKey> := {};
      NothingDone(schema, scalarIndexes, parentCounts, aggregateColumns, rows, rows[id := row]);
      while relations != {}
        invariant relations <= schema[row.container].relations
        invariant forall key :: key in done <==> key.container == row.container && key.relation in schema[row.container].relations && key.relation !in relations
        invariant CountsBetween(schema, parentCounts, rows, rows[id := row], done)
        decreases relations
      {
        var r :| r in relations;
        relations := relations - {r};
        var key := RelationKey(row.container, r);
        CountAdded(schema, parentCounts, rows, id, row, done, r);
        parentCounts := parentCounts[key := CountPlus(CountsAt(parentCounts, key), CellAt(row, r))];
        done := done + {key};
      }
      CountsAllAdded(schema, parentCounts, rows, id, row, done);
    }

    method RemoveParents(id: ItemId, row: Row)
      requires row.container in schema && id in rows && rows[id] == row && CountsHold(schema, parentCounts, rows)
      modifies this`parentCounts
      ensures CountsHold(schema, parentCounts, rows - {id})
    {
      hide CountsBetween, CountMinus, CellAt;
      var relations := schema[row.container].relations;
      ghost var done: set<RelationKey> := {};
      NothingDone(schema, scalarIndexes, parentCounts, aggregateColumns, rows, rows - {id});
      while relations != {}
        invariant relations <= schema[row.container].relations
        invariant forall key :: key in done <==> key.container == row.container && key.relation in schema[row.container].relations && key.relation !in relations
        invariant CountsBetween(schema, parentCounts, rows, rows - {id}, done)
        decreases relations
      {
        var r :| r in relations;
        relations := relations - {r};
        var key := RelationKey(row.container, r);
        var left := CountMinus(CountsAt(parentCounts, key), CellAt(row, r));
        ghost var was := parentCounts;
        if left == map[] {
          parentCounts := parentCounts - {key};
        } else {
          parentCounts := parentCounts[key := left];
        }
        CountRemoved(schema, was, rows, id, done, r, parentCounts);
        done := done + {key};
      }
      CountsAllRemoved(schema, parentCounts, rows, id, done);
    }

    /** A column's aggregates with one more value. */
    method ColumnWith(id: ItemId, row: Row, k: ColumnId) returns (a: AggregateColumn)
      requires id !in rows && Summed(schema, row, row.container, k)
      requires ColumnFits(schema, Held(aggregateColumns, AggregateKey(row.container, k)), row.container, k, rows)
      ensures ColumnFits(schema, Some(a), row.container, k, rows[id := row])
      ensures forall tag ::
                (CleanColumn(Held(aggregateColumns, AggregateKey(row.container, k)), OptionsOf(schema, row.container, k), tag) && Whole(CellAt(row, k), tag))
                ==> CleanColumn(Some(a), OptionsOf(schema, row.container, k), tag)
    {
      hide BucketFits, BucketAdded, GroupsBetween, Summed, CellAt, ColumnCells, CleanBucket, Whole;
      InSchemaSummed(schema, row, k);
      var c := row.container;
      var options, was := OptionsOf(schema, c, k), Held(aggregateColumns, AggregateKey(c, k));
      var v := CellAt(row, k);
      ColumnCellsMore(schema, rows, id, row, c, k);
      BucketAddedFits(TotalOf(was), options, ColumnCells(schema, rows, c, k), id, v);
      var total, groups := BucketAdded(TotalOf(was), options, v).value, GroupsOf(was);
      forall tag | CleanColumn(was, options, tag) && Whole(v, tag)
        ensures CleanBucket(Some(total), options, tag)
      {
        BucketStaysClean(TotalOf(was), options, v, tag);
      }
      if options.byParent {
        var relations := schema[c].relations;
        ghost var done: set<ColumnId> := {};
        GroupsStart(schema, groups, c, k, rows, rows[id := row]);
        while relations != {}
          invariant relations <= schema[c].relations && done == schema[c].relations - relations
          invariant GroupsBetween(schema, groups, c, k, rows, rows[id := row], done)
          invariant forall tag :: CleanColumn(was, options, tag) && Whole(v, tag) ==> CleanGroups(groups, options, tag)
          decreases relations
        {
          var r :| r in relations;
          GroupAdded(schema, groups, rows, id, row, k, done, r);
          relations, done := relations - {r}, done + {r};
          var g := Group(r, CellAt(row, r));
          forall tag | CleanColumn(was, options, tag) && Whole(v, tag)
            ensures CleanGroups(Stored(groups, g, BucketAdded(Held(groups, g), options, v)), options, tag)
          {
            BucketStaysClean(Held(groups, g), options, v, tag);
          }
          groups := Stored(groups, g, BucketAdded(Held(groups, g), options, v));
        }
        GroupsDone(schema, groups, c, k, rows, rows[id := row], done);
      }
      a := AggregateColumn(total, groups);
    }

    /** A column's aggregates with one value less. Without any it is dropped. */
    method ColumnWithout(id: ItemId, row: Row, k: ColumnId) returns (a: Option<AggregateColumn>)
      requires id in rows && rows[id] == row && Summed(schema, row, row.container, k)
      requires ColumnFits(schema, Held(aggregateColumns, AggregateKey(row.container, k)), row.container, k, rows)
      ensures ColumnFits(schema, a, row.container, k, rows - {id})
      ensures forall tag ::
                (CleanColumn(Held(aggregateColumns, AggregateKey(row.container, k)), OptionsOf(schema, row.container, k), tag) && Whole(CellAt(row, k), tag))
                ==> CleanColumn(a, OptionsOf(schema, row.container, k), tag)
    {
      hide BucketFits, BucketRemoved, GroupsBetween, Summed, CellAt, ColumnCells, CleanBucket, Whole;
      InSchemaSummed(schema, row, k);
      var c := row.container;
      var options, was := OptionsOf(schema, c, k), Held(aggregateColumns, AggregateKey(c, k));
      var v := CellAt(row, k);
      ColumnCellsLess(schema, rows, id, c, k);
      BucketRemovedFits(TotalOf(was), options, ColumnCells(schema, rows, c, k), id);
      var total, groups := BucketRemoved(TotalOf(was), options, v), GroupsOf(was);
      forall tag | CleanColumn(was, options, tag) && Whole(v, tag)
        ensures CleanBucket(total, options, tag)
      {
        BucketStaysClean(TotalOf(was), options, v, tag);
      }
      if options.byParent {
        var relations := schema[c].relations;
        ghost var done: set<ColumnId> := {};
        GroupsStart(schema, groups, c, k, rows, rows - {id});
        while relations != {}
          invariant relations <= schema[c].relations && done == schema[c].relations - relations
          invariant GroupsBetween(schema, groups, c, k, rows, rows - {id}, done)
          invariant forall tag :: CleanColumn(was, options, tag) && Whole(v, tag) ==> CleanGroups(groups, options, tag)
          decreases relations
        {
          var r :| r in relations;
          GroupRemoved(schema, groups, rows, id, k, done, r);
          relations, done := relations - {r}, done + {r};
          var g := Group(r, CellAt(row, r));
          forall tag | CleanColumn(was, options, tag) && Whole(v, tag)
            ensures CleanGroups(Stored(groups, g, BucketRemoved(Held(groups, g), options, v)), options, tag)
          {
            BucketStaysClean(Held(groups, g), options, v, tag);
          }
          groups := Stored(groups, g, BucketRemoved(Held(groups, g), options, v));
        }
        GroupsDone(schema, groups, c, k, rows, rows - {id}, done);
      }
      if total.None? {
        a := None;
        NoGroups(schema, groups, c, k, rows - {id}, total);
        NoneIsClean(options);
      } else {
        a := Some(AggregateColumn(total.value, groups));
      }
    }

    /** The columns of a new item: its values, and their aggregates. */
    method AddColumns(id: ItemId, row: Row, ghost done: set<FieldKey>)
      requires row.container in schema && id !in rows
      requires ScalarsBetween(schema, scalarIndexes, rows, rows[id := row], done) && forall key :: key in done ==> key.VariantKey?
      requires AggregatesHold(schema, aggregateColumns, rows)
      requires Entry(schema, row, VariantKey(row.container)).Some? ==> VariantKey(row.container) in done
      requires AllClean(schema, aggregateColumns, spoiled) && Spoils(schema, row) <= spoiled
      modifies this`scalarIndexes, this`aggregateColumns
      ensures ScalarsHold(schema, scalarIndexes, rows[id := row]) && AggregatesHold(schema, aggregateColumns, rows[id := row])
      ensures AllClean(schema, aggregateColumns, spoiled)
    {
      hide ScalarsBetween, AggregatesBetween, ColumnFits, Put, CellAt, Entry, AllClean, Spoils, CleanColumn, OptionsOf;
      var c := row.container;
      var columns := schema[c].columns.Keys;
      ghost var scalars, aggregates: set<AggregateKey> := done, {};
      NothingDone(schema, scalarIndexes, parentCounts, aggregateColumns, rows, rows[id := row]);
      while columns != {}
        invariant columns <= schema[c].columns.Keys
        invariant ScalarsBetween(schema, scalarIndexes, rows, rows[id := row], scalars)
        invariant AggregatesBetween(schema, aggregateColumns, rows, rows[id := row], aggregates)
        invariant forall k :: k in columns ==> ColumnKey(c, k) !in scalars && AggregateKey(c, k) !in aggregates
        invariant forall k :: k in schema[c].columns && k !in columns && Entry(schema, row, ColumnKey(c, k)).Some? ==> ColumnKey(c, k) in scalars
        invariant forall k :: k in schema[c].columns && k !in columns && Summed(schema, row, c, k) ==> AggregateKey(c, k) in aggregates
        invariant done <= scalars && AllClean(schema, aggregateColumns, spoiled)
        decreases columns
      {
        var k :| k in columns;
        columns := columns - {k};
        var column := schema[c].columns[k];
        EntryOfColumn(schema, row, k);
        if column.indexed && Applies(column, row) {
          ScalarAdded(schema, scalarIndexes, rows, id, row, scalars, ColumnKey(c, k));
          AddScalar(ColumnKey(c, k), CellAt(row, k), id);
          scalars := scalars + {ColumnKey(c, k)};
          if column.aggregate.Some? {
            FitsNow(schema, aggregateColumns, rows, rows[id := row], aggregates, c, k);
            var a := ColumnWith(id, row, k);
            CleanStep(schema, aggregateColumns, row, k, Some(a), spoiled);
            ColumnDone(schema, aggregateColumns, rows, rows[id := row], aggregates, c, k, Some(a));
            aggregateColumns := Stored(aggregateColumns, AggregateKey(c, k), Some(a));
            aggregates := aggregates + {AggregateKey(c, k)};
          }
        }
      }
      EntriesElsewhere(schema, row);
      ScalarsAllAdded(schema, scalarIndexes, rows, id, row, scalars);
      AggregatesAllAdded(schema, aggregateColumns, rows, id, row, aggregates);
    }

    method RemoveColumns(id: ItemId, row: Row, ghost done: set<FieldKey>)
      requires row.container in schema && id in rows && rows[id] == row
      requires ScalarsBetween(schema, scalarIndexes, rows, rows - {id}, done) && forall key :: key in done ==> key.VariantKey?
      requires AggregatesHold(schema, aggregateColumns, rows)
      requires Entry(schema, row, VariantKey(row.container)).Some? ==> VariantKey(row.container) in done
      requires AllClean(schema, aggregateColumns, spoiled) && Spoils(schema, row) <= spoiled
      modifies this`scalarIndexes, this`aggregateColumns
      ensures ScalarsHold(schema, scalarIndexes, rows - {id}) && AggregatesHold(schema, aggregateColumns, rows - {id})
      ensures AllClean(schema, aggregateColumns, spoiled)
    {
      hide ScalarsBetween, AggregatesBetween, ColumnFits, Take, CellAt, Entry, AllClean, Spoils, CleanColumn, OptionsOf;
      var c := row.container;
      var columns := schema[c].columns.Keys;
      ghost var scalars, aggregates: set<AggregateKey> := done, {};
      NothingDone(schema, scalarIndexes, parentCounts, aggregateColumns, rows, rows - {id});
      while columns != {}
        invariant columns <= schema[c].columns.Keys
        invariant ScalarsBetween(schema, scalarIndexes, rows, rows - {id}, scalars)
        invariant AggregatesBetween(schema, aggregateColumns, rows, rows - {id}, aggregates)
        invariant forall k :: k in columns ==> ColumnKey(c, k) !in scalars && AggregateKey(c, k) !in aggregates
        invariant forall k :: k in schema[c].columns && k !in columns && Entry(schema, row, ColumnKey(c, k)).Some? ==> ColumnKey(c, k) in scalars
        invariant forall k :: k in schema[c].columns && k !in columns && Summed(schema, row, c, k) ==> AggregateKey(c, k) in aggregates
        invariant done <= scalars && AllClean(schema, aggregateColumns, spoiled)
        decreases columns
      {
        var k :| k in columns;
        columns := columns - {k};
        var column := schema[c].columns[k];
        EntryOfColumn(schema, row, k);
        if column.indexed && Applies(column, row) {
          ghost var was := scalarIndexes;
          RemoveScalar(ColumnKey(c, k), CellAt(row, k), id);
          ScalarRemoved(schema, was, rows, id, scalars, ColumnKey(c, k), scalarIndexes);
          scalars := scalars + {ColumnKey(c, k)};
          if column.aggregate.Some? {
            FitsNow(schema, aggregateColumns, rows, rows - {id}, aggregates, c, k);
            var a := ColumnWithout(id, row, k);
            CleanStep(schema, aggregateColumns, row, k, a, spoiled);
            ColumnDone(schema, aggregateColumns, rows, rows - {id}, aggregates, c, k, a);
            aggregateColumns := Stored(aggregateColumns, AggregateKey(c, k), a);
            aggregates := aggregates + {AggregateKey(c, k)};
          }
        }
      }
      EntriesElsewhere(schema, row);
      ScalarsAllRemoved(schema, scalarIndexes, rows, id, scalars);
      AggregatesAllRemoved(schema, aggregateColumns, rows, id, aggregates);
    }

    /** The maps and the kd-tree of a new item, without the trees of the intervals. */
    method AddToMaps(id: ItemId, row: Row)
      requires MapsHold() && RangesHold() && id !in rows && Spoils(schema, row) <= spoiled
      modifies this`containerItems, this`scalarIndexes, this`parentCounts, this`aggregateColumns, this`orderedIndexes, rangeIndex
      ensures ContainersHold(containerItems, rows[id := row]) && ScalarsHold(schema, scalarIndexes, rows[id := row])
      ensures CountsHold(schema, parentCounts, rows[id := row]) && AggregatesHold(schema, aggregateColumns, rows[id := row])
      ensures OrderedsHold(schema, orderedIndexes, rows[id := row]) && AllClean(schema, aggregateColumns, spoiled)
      ensures rangeIndex.Valid() && forall k :: rangeIndex.Points(k) == PointsOf(schema, rows[id := row], k)
    {
      hide ContainersHold, ScalarsBetween, CountsBetween, AggregatesBetween, OrderedsBetween, Entry, Put, Coordinates, PointsOf, AllClean, Spoils;
      var c := row.container;
      ContainersMore(containerItems, rows, id, row);
      containerItems := containerItems[c := Held(containerItems, c).GetOr({}) + {id}];
      ghost var done: set<FieldKey> := {};
      NothingDone(schema, scalarIndexes, parentCounts, aggregateColumns, rows, rows[id := row]);
      NoSpecialDone(schema, map[], orderedIndexes, rows, rows[id := row]);
      EntryOfVariant(schema, row);
      if c !in schema || schema[c].hasVariants {
        ScalarAdded(schema, scalarIndexes, rows, id, row, done, VariantKey(c));
        AddScalar(VariantKey(c), VariantValue(row), id);
        done := done + {VariantKey(c)};
      }
      AllPointsMore(schema, rows, id, row);
      if c in schema {
        AddOrdereds(id, row);
        AddParents(id, row);
        AddColumns(id, row, done);
        rangeIndex.Add(c, id, Coordinates(schema, row));
      } else {
        UnknownContainer(schema, row);
        ScalarsAllAdded(schema, scalarIndexes, rows, id, row, done);
        CountsAllAdded(schema, parentCounts, rows, id, row, {});
        AggregatesAllAdded(schema, aggregateColumns, rows, id, row, {});
        OrderedsAllAdded(schema, orderedIndexes, rows, id, row, {});
      }
    }

    /** `addItem`. */
    method AddItem(id: ItemId, row: Row)
      requires Valid() && id !in rows
      modifies this, rangeIndex, intervalIndexes.Repr
      ensures Valid() && rows == old(rows)[id := row] && spoiled == old(spoiled) + Spoils(schema, row)
      ensures fresh(intervalIndexes.Repr - old(intervalIndexes.Repr))
    {
      hide ContainersHold, ScalarsBetween, CountsBetween, AggregatesBetween, OrderedsBetween, IntervalsBetween, PointsOf, AllClean, Spoils, IntervalStore.Valid;
      SpoiledMore(schema, aggregateColumns, spoiled, Spoils(schema, row));
      spoiled := spoiled + Spoils(schema, row);
      if row.container in schema {
        AddIntervals(id, row);
      } else {
        NoSpecialDone(schema, intervalIndexes.contents, orderedIndexes, rows, rows[id := row]);
        IntervalsAllAdded(schema, intervalIndexes.contents, rows, id, row, {});
      }
      AddToMaps(id, row);
      rows := rows[id := row];
    }

    method RemoveFromMaps(id: ItemId, row: Row)
      requires MapsHold() && RangesHold() && id in rows && rows[id] == row
      modifies this`containerItems, this`scalarIndexes, this`parentCounts, this`aggregateColumns, this`orderedIndexes, rangeIndex
      ensures ContainersHold(containerItems, rows - {id}) && ScalarsHold(schema, scalarIndexes, rows - {id})
      ensures CountsHold(schema, parentCounts, rows - {id}) && AggregatesHold(schema, aggregateColumns, rows - {id})
      ensures OrderedsHold(schema, orderedIndexes, rows - {id}) && AllClean(schema, aggregateColumns, spoiled)
      ensures rangeIndex.Valid() && forall k :: rangeIndex.Points(k) == PointsOf(schema, rows - {id}, k)
    {
      hide ContainersHold, ScalarsBetween, CountsBetween, AggregatesBetween, OrderedsBetween, Entry, Take, Coordinates, PointsOf, AllClean, Spoils, WithoutItem;
      var c := row.container;
      ContainersLess(containerItems, rows, id);
      containerItems := WithoutItem(containerItems, c, id);
      ghost var done: set<FieldKey> := {};
      NothingDone(schema, scalarIndexes, parentCounts, aggregateColumns, rows, rows - {id});
      NoSpecialDone(schema, map[], orderedIndexes, rows, rows - {id});
      EntryOfVariant(schema, row);
      if c !in schema || schema[c].hasVariants {
        ghost var was := scalarIndexes;
        RemoveScalar(VariantKey(c), VariantValue(row), id);
        ScalarRemoved(schema, was, rows, id, done, VariantKey(c), scalarIndexes);
        done := done + {VariantKey(c)};
      }
      AllPointsLess(schema, rows, id);
      if c in schema {
        RemoveOrdereds(id, row);
        RemoveParents(id, row);
        RemoveColumns(id, row, done);
      } else {
        UnknownContainer(schema, row);
        ScalarsAllRemoved(schema, scalarIndexes, rows, id, done);
        CountsAllRemoved(schema, parentCounts, rows, id, {});
        AggregatesAllRemoved(schema, aggregateColumns, rows, id, {});
        OrderedsAllRemoved(schema, orderedIndexes, rows, id, {});
      }
      rangeIndex.Remove(c, id);
    }

    /** `removeItem`, given the item as it is stored. */
    method RemoveItem(id: ItemId, row: Row)
      requires Valid() && id in rows && rows[id] == row
      modifies this, rangeIndex, intervalIndexes.Repr
      ensures Valid() && rows == old(rows) - {id} && spoiled == old(spoiled)
      ensures fresh(intervalIndexes.Repr - old(intervalIndexes.Repr))
    {
      hide ContainersHold, ScalarsBetween, CountsBetween, AggregatesBetween, OrderedsBetween, IntervalsBetween, PointsOf, AllClean, Spoils, IntervalStore.Valid;
      if row.container in schema {
        RemoveIntervals(id, row);
      } else {
        NoSpecialDone(schema, intervalIndexes.contents, orderedIndexes, rows, rows - {id});
        IntervalsAllRemoved(schema, intervalIndexes.contents, rows, id, {});
      }
      RemoveFromMaps(id, row);
      rows := rows - {id};
    }

    /** `updateItem`: nothing to do when no index looks at what has changed. */
    method UpdateItem(id: ItemId, was: Row, row: Row)
      requires Valid() && id in rows && rows[id] == was
      modifies this, rangeIndex, intervalIndexes.Repr
      ensures Valid() && rows == old(rows)[id := row] && spoiled == old(spoiled) + Spoils(schema, row)
      ensures fresh(intervalIndexes.Repr - old(intervalIndexes.Repr))
    {
      if !Touches(schema, was, row) {
        Untouched(id, row);
        return;
      }
      hide Valid, Spoils, Touches;
      RemoveItem(id, was);
      AddItem(id, row);
      assert rows == old(rows)[id := row];
    }

    ghost method Untouched(id: ItemId, row: Row)
      requires Valid() && id in rows && !Touches(schema, rows[id], row)
      modifies this`rows
      ensures Valid() && rows == old(rows)[id := row] && spoiled == spoiled + Spoils(schema, row)
    {
      hide ContainersHold, ScalarsBetween, CountsBetween, AggregatesBetween, OrderedsBetween, IntervalsBetween, PointsOf, AllClean, Spoils, IntervalStore.Valid, Touches,
           IntervalRows, OrderedRows, Entries, ParentEntries, ColumnCells, GroupCells, InContainer;
      UntouchedStays(schema, rows, id, row);
      UntouchedSpoils(schema, rows[id], row);
      ghost var after := rows[id := row];
      assert forall c :: PointsOf(schema, after, c) == PointsOf(schema, rows, c);
      SameContents(schema, containerItems, scalarIndexes, parentCounts, aggregateColumns, rows, after);
      SameSpecial(schema, intervalIndexes.contents, orderedIndexes, rows, after);
      rows := after;
    }

    // ----- What the store answers -----

    /** `containerItems`. */
    method ContainerItems(c: ContainerId) returns (ids: set<ItemId>)
      requires Valid()
      ensures ids == InContainer(rows, c)
    {
      assert Held(containerItems, c) == if InContainer(rows, c) == {} then None else Some(InContainer(rows, c));
      ids := if c in containerItems then containerItems[c] else {};
    }

    /** `queryItemIds`. */
    method QueryItemIds(items: set<ItemId>, op: Operator, v: Value) returns (result: set<ItemId>)
      requires forall id :: id in items ==> id < 0x1_0000_0000_0000_0000
      ensures forall id :: id in result <==> id in items && Satisfies(IdValue(id), op, v)
    {
      if !v.UInt64? {
        result := set id | id in items && Satisfies(IdValue(id), op, v);
        return;
      }
      var bound := v.unsigned;
      match op
      case EqualTo => result := if bound in items then {bound} else {};
      case NotEqualTo => result := (set id | id in items && id < bound) + (set id | id in items && id > bound);
      case GreaterThan => result := set id | id in items && id > bound;
      case LessThan => result := set id | id in items && id < bound;
      case AtLeast => result := set id | id in items && id >= bound;
      case AtMost => result := set id | id in items && id <= bound;
    }

    /** `queryField`: just the items of the container whose field compares as asked. */
    method QueryField(field: Field, op: Operator, v: Value) returns (result: set<ItemId>)
      requires Valid() && Sensible(schema, rows)
      ensures forall id :: id in result <==> id in rows && rows[id].container == field.Container() && Answers(schema, id, rows[id], field, op, v)
    {
      hide ScalarsBetween, CountsBetween, AggregatesBetween, OrderedsBetween, AllClean, Spoils, RangesHold, TreesHold, Satisfies, Entry, AreBuckets, Entries;
      match field
      case IdField(c) =>
        var items := ContainerItems(c);
        result := QueryItemIds(items, op, v);
      case Scalar(key) =>
        BucketsNow(schema, scalarIndexes, rows, key);
        EntryInContainer(schema, rows, key);
        if key in scalarIndexes {
          result := QueryBuckets(scalarIndexes[key], op, v, Entries(schema, rows, key));
        } else {
          NoEntries(schema, rows, key);
          if key.VariantKey? {
            NoVariants(schema, rows, key.container);
          }
          if key.VariantKey? && Satisfies(Null, op, v) {
            result := ContainerItems(key.container);
          } else {
            result := {};
          }
        }
    }

    /** `queryRange`. */
    method QueryRange(c: ContainerId, constraints: seq<K.Constraint>) returns (result: set<ItemId>)
      requires Valid()
      modifies rangeIndex
      ensures Valid() && K.Answers(PointsOf(schema, rows, c), constraints, result)
    {
      hide ContainersHold, ScalarsBetween, CountsBetween, AggregatesBetween, OrderedsBetween, IntervalsBetween, PointsOf, AllClean, Spoils, IntervalStore.Valid, K.Answers;
      result := rangeIndex.Query(c, constraints);
    }

    /** `queryInterval`: what a scan of the container finds. */
    method QueryInterval(c: ContainerId, i: nat, group: seq<Value>, from: Value, to: Value) returns (ids: set<ItemId>)
      requires Valid() && c in schema && i < |schema[c].intervals|
      ensures ids == V.Scan(IntervalRows(rows, c, schema[c].intervals[i]), group, from, to, {})
    {
      hide MapsHold, RangesHold, IntervalRows, V.Scan, IntervalStore.Valid;
      var key := IntervalKey(c, i);
      assert HasInterval(schema, key);
      ids := intervalIndexes.Query(key, group, from, to);
    }

    /** `previous` and `next`: the nearest neighbour of an item in an ordered index. */
    method Neighbour(c: ContainerId, i: nat, id: ItemId, row: Row, excluded: set<ItemId>, backward: bool) returns (r: Option<ItemId>)
      requires Valid() && c in schema && i < |schema[c].ordereds|
      ensures var info := schema[c].ordereds[i];
              var candidates := O.Candidates(OrderedRows(rows, c, info), OrderedRow(id, row, info), excluded, backward);
              && (r.None? <==> candidates == {})
              && (r.Some? ==> exists e :: e in candidates && e.id == r.value && forall f :: f in candidates ==> f == e || O.Nearer(e, f, backward))
      ensures var info := schema[c].ordereds[i];
              && (r.None? <==> forall other :: !IsBeside(rows, c, info, id, row, excluded, backward, other))
              && (r.Some? ==>
                    && IsBeside(rows, c, info, id, row, excluded, backward, r.value)
                    && forall other :: IsBeside(rows, c, info, id, row, excluded, backward, other) && other != r.value ==>
                         if backward then ComesFirst(info, other, rows[other], r.value, rows[r.value])
                         else ComesFirst(info, r.value, rows[r.value], other, rows[other]))
    {
      hide RangesHold, TreesHold, OrderedRows, O.Candidates, O.Eligible, O.Ahead, O.Nearer, IsBeside, ComesFirst, O.Files, ContainersHold, ScalarsBetween, CountsBetween, AggregatesBetween, AllClean, Spoils;
      var key, info := OrderedKey(c, i), schema[c].ordereds[i];
      assert HasOrdered(schema, key);
      r := O.Nearest(GroupsIn(orderedIndexes, key), OrderedRow(id, row, info), excluded, backward, OrderedRows(rows, c, info));
      BesideAll(rows, c, info, id, row, excluded, backward);
    }
  }

  /** Indexes of the items that stay, built from nothing. */
  method RebuildWithout(schema: IndexSchema, priorityOf: T.Entry -> nat, items: Rows, removed: set<ItemId>) returns (after: RuntimeIndexStore)
    ensures after.Valid() && after.schema == schema && after.rows == items - removed
    ensures forall key :: key in after.spoiled ==> exists id :: id in items && key in Spoils(schema, items[id])
    ensures fresh(after) && fresh(after.rangeIndex) && fresh(after.intervalIndexes.Repr)
  {
    hide *;
    after := new RuntimeIndexStore(schema, priorityOf);
    var left := items.Keys - removed;
    while left != {}
      invariant left <= items.Keys - removed && after.Valid() && after.schema == schema
      invariant fresh(after) && fresh(after.rangeIndex) && fresh(after.intervalIndexes.Repr)
      invariant after.rows.Keys == items.Keys - removed - left && forall id :: id in after.rows ==> after.rows[id] == items[id]
      invariant forall key :: key in after.spoiled ==> exists id :: id in items && key in Spoils(schema, items[id])
      decreases left
    {
      var id :| id in left;
      left := left - {id};
      after.AddItem(id, items[id]);
    }
    assert after.rows == items - removed;
  }

  method RemoveEach(store: RuntimeIndexStore, removed: set<ItemId>, items: Rows)
    requires store.Valid() && items == store.rows && removed <= items.Keys
    modifies store, store.rangeIndex, store.intervalIndexes.Repr
    ensures store.Valid() && store.rows == items - removed && store.spoiled == old(store.spoiled)
  {
    hide *;
    var left := removed;
    while left != {}
      invariant left <= removed && store.Valid() && store.spoiled == old(store.spoiled)
      invariant store.rows.Keys == items.Keys - (removed - left) && forall id :: id in store.rows ==> store.rows[id] == items[id]
      invariant fresh(store.intervalIndexes.Repr - old(store.intervalIndexes.Repr))
      decreases left
    {
      var id :| id in left;
      left := left - {id};
      store.RemoveItem(id, items[id]);
    }
    assert store.rows == items - removed;
  }

  /** The index side of `eraseSnapshots`: when most items go, the indexes of the survivors
      are built anew; otherwise the removed items are taken out one by one. Either way the
      store holds just the survivors. */
  method EraseItems(store: RuntimeIndexStore, items: Rows, removed: set<ItemId>) returns (after: RuntimeIndexStore)
    requires store.Valid() && items == store.rows && removed <= items.Keys
    modifies store, store.rangeIndex, store.intervalIndexes.Repr
    ensures after.Valid() && after.schema == store.schema && after.rows == items - removed && after.spoiled <= old(store.spoiled)
  {
    if |removed| > |items| / 2 {
      after := RebuildWithout(store.schema, store.intervalIndexes.priorityOf, items, removed);
      forall key | key in after.spoiled
        ensures key in store.spoiled
      {
        var id :| id in items && key in Spoils(store.schema, items[id]);
      }
    } else {
      RemoveEach(store, removed, items);
      after := store;
    }
  }

  // ----- Facts for the store -----

  /** The id of an item as a value. */
  function IdValue(id: ItemId): Value {
    if id < 0x1_0000_0000_0000_0000 then UInt64(id) else Null
  }

  datatype Field = IdField(container: ContainerId) | Scalar(key: FieldKey) {
    function Container(): ContainerId {
      match this
      case IdField(c) => c
      case Scalar(key) => key.container
    }
  }

  /** Ids have 64 bits, and only containers with variants have items with one. */
  ghost predicate Sensible(schema: IndexSchema, rows: Rows) {
    forall id :: id in rows ==>
      && id < 0x1_0000_0000_0000_0000
      && (rows[id].container in schema && !schema[rows[id].container].hasVariants ==> rows[id].variant.None?)
  }

  /** The item's field applies to it and compares as asked. */
  predicate Answers(schema: IndexSchema, id: ItemId, row: Row, field: Field, op: Operator, v: Value) {
    match field
    case IdField(_) => Satisfies(IdValue(id), op, v)
    case Scalar(VariantKey(_)) => Satisfies(VariantValue(row), op, v)
    case Scalar(key) => Entry(schema, row, key).Some? && Satisfies(Entry(schema, row, key).value, op, v)
  }

  lemma BucketsNow(schema: IndexSchema, indexes: map<FieldKey, Buckets>, rows: Rows, key: FieldKey)
    requires ScalarsHold(schema, indexes, rows)
    ensures AreBuckets(At(indexes, key), Entries(schema, rows, key))
    ensures key in indexes <==> Entries(schema, rows, key) != map[]
  {
    hide Entries;
    assert AreBuckets(At(indexes, key), Entries(schema, rows, key));
    if key !in indexes {
      assert forall id :: id !in Entries(schema, rows, key);
    } else {
      var v :| v in indexes[key];
      var id :| id in indexes[key][v];
      assert id in Entries(schema, rows, key);
    }
  }

  lemma EntryInContainer(schema: IndexSchema, rows: Rows, key: FieldKey)
    ensures forall id :: id in Entries(schema, rows, key) <==> id in rows && Entry(schema, rows[id], key).Some?
    ensures forall id :: id in Entries(schema, rows, key) ==>
              rows[id].container == key.container && Entries(schema, rows, key)[id] == Entry(schema, rows[id], key).value
    ensures key.VariantKey? ==> forall id :: id in Entries(schema, rows, key) ==> Entries(schema, rows, key)[id] == VariantValue(rows[id])
    ensures key.VariantKey? && Entries(schema, rows, key) != map[] ==>
              forall id :: id in rows && rows[id].container == key.container ==> id in Entries(schema, rows, key)
  {
    if Entries(schema, rows, key) != map[] {
      var id :| id in Entries(schema, rows, key);
    }
  }

  /** Where no item stands in the variant index, no item has a variant. */
  lemma NoVariants(schema: IndexSchema, rows: Rows, c: ContainerId)
    requires Sensible(schema, rows) && forall id :: id in rows ==> Entry(schema, rows[id], VariantKey(c)).None?
    ensures forall id :: id in rows && rows[id].container == c ==> VariantValue(rows[id]) == Null
  {
    forall id | id in rows && rows[id].container == c
      ensures VariantValue(rows[id]) == Null
    {
      EntryOfVariant(schema, rows[id]);
    }
  }

  lemma NoEntries(schema: IndexSchema, rows: Rows, key: FieldKey)
    requires Entries(schema, rows, key) == map[]
    ensures forall id :: id in rows ==> Entry(schema, rows[id], key).None?
  {
    hide Entry;
    forall id | id in rows
      ensures Entry(schema, rows[id], key).None?
    {
      assert id !in Entries(schema, rows, key);
    }
  }

  /** `updateTouchesRuntimeIndexes`. */
  predicate Touches(schema: IndexSchema, was: Row, row: Row) {
    || was.container != row.container
    || was.variant != row.variant
    || (was.container in schema
        && var container := schema[was.container];
           || (exists r :: r in container.relations && CellAt(was, r) != CellAt(row, r))
           || (exists k :: k in container.columns && container.columns[k].ranged && CellAt(was, k) != CellAt(row, k))
           || (exists i :: 0 <= i < |container.ordereds| && (CellsAt(was, container.ordereds[i].groupBy) != CellsAt(row, container.ordereds[i].groupBy)
                 || CellsAt(was, container.ordereds[i].orderBy) != CellsAt(row, container.ordereds[i].orderBy)))
           || (exists i :: 0 <= i < |container.intervals| && (CellsAt(was, container.intervals[i].groupBy) != CellsAt(row, container.intervals[i].groupBy)
                 || CellAt(was, container.intervals[i].start) != CellAt(row, container.intervals[i].start)
                 || CellAt(was, container.intervals[i].end) != CellAt(row, container.intervals[i].end)))
           || (exists k :: k in container.columns && (Applies(container.columns[k], was) || Applies(container.columns[k], row))
                 && CellAt(was, k) != CellAt(row, k) && (container.columns[k].indexed || container.columns[k].aggregate.Some?)))
  }

  /** What the indexes hold of an item is the same before and after an untouching update. */
  lemma UntouchedItem(schema: IndexSchema, was: Row, row: Row)
    requires !Touches(schema, was, row)
    ensures was.container == row.container && Coordinates(schema, was) == Coordinates(schema, row)
    ensures forall key :: Entry(schema, was, key) == Entry(schema, row, key)
    ensures forall c, k :: Summed(schema, was, c, k) == Summed(schema, row, c, k) && (Summed(schema, was, c, k) ==> CellAt(was, k) == CellAt(row, k))
    ensures row.container in schema ==> forall r :: r in schema[row.container].relations ==> CellAt(was, r) == CellAt(row, r)
  {
    forall key
      ensures Entry(schema, was, key) == Entry(schema, row, key)
    {
    }
    forall c, k
      ensures Summed(schema, was, c, k) == Summed(schema, row, c, k) && (Summed(schema, was, c, k) ==> CellAt(was, k) == CellAt(row, k))
    {
    }
    assert Coordinates(schema, was) == Coordinates(schema, row);
  }

  /** The special indexes read the same of both. */
  ghost predicate SameSpecialRows(schema: IndexSchema, rows: Rows, after: Rows) {
    && (forall key :: HasInterval(schema, key) ==> IntervalRows(after, key.container, IntervalOf(schema, key)) == IntervalRows(rows, key.container, IntervalOf(schema, key)))
    && (forall key :: HasOrdered(schema, key) ==> OrderedRows(after, key.container, OrderedOf(schema, key)) == OrderedRows(rows, key.container, OrderedOf(schema, key)))
  }

  lemma UntouchedSpecial(schema: IndexSchema, rows: Rows, id: ItemId, row: Row)
    requires id in rows && !Touches(schema, rows[id], row)
    ensures SameSpecialRows(schema, rows, rows[id := row])
  {
    hide CellAt, CellsAt;
    var was, after := rows[id], rows[id := row];
    forall key | HasInterval(schema, key)
      ensures IntervalRows(after, key.container, IntervalOf(schema, key)) == IntervalRows(rows, key.container, IntervalOf(schema, key))
    {
      if key.container == row.container {
        UntouchedInterval(schema, was, row, key.index);
      }
      SameIntervalRows(rows, id, row, key.container, IntervalOf(schema, key));
    }
    forall key | HasOrdered(schema, key)
      ensures OrderedRows(after, key.container, OrderedOf(schema, key)) == OrderedRows(rows, key.container, OrderedOf(schema, key))
    {
      if key.container == row.container {
        UntouchedOrdered(schema, was, row, key.index);
      }
      SameOrderedRows(rows, id, row, key.container, OrderedOf(schema, key));
    }
  }

  lemma UntouchedInterval(schema: IndexSchema, was: Row, row: Row, i: nat)
    requires !Touches(schema, was, row) && row.container in schema && i < |schema[row.container].intervals|
    ensures forall id :: IntervalRow(id, was, schema[row.container].intervals[i]) == IntervalRow(id, row, schema[row.container].intervals[i])
  {
    hide CellAt, CellsAt;
  }

  lemma UntouchedOrdered(schema: IndexSchema, was: Row, row: Row, i: nat)
    requires !Touches(schema, was, row) && row.container in schema && i < |schema[row.container].ordereds|
    ensures forall id :: OrderedRow(id, was, schema[row.container].ordereds[i]) == OrderedRow(id, row, schema[row.container].ordereds[i])
  {
    hide CellAt, CellsAt;
  }

  lemma SameIntervalRows(rows: Rows, id: ItemId, row: Row, c: ContainerId, info: IntervalInfo)
    requires id in rows && rows[id].container == row.container
    requires row.container == c ==> IntervalRow(id, rows[id], info) == IntervalRow(id, row, info)
    ensures IntervalRows(rows[id := row], c, info) == IntervalRows(rows, c, info)
  {
    hide IntervalRow;
    var after := rows[id := row];
    forall x | x in IntervalRows(rows, c, info)
      ensures x in IntervalRows(after, c, info)
    {
      var i :| i in rows && rows[i].container == c && IntervalRow(i, rows[i], info) == x;
      assert i in after && after[i].container == c && IntervalRow(i, after[i], info) == x;
    }
    forall x | x in IntervalRows(after, c, info)
      ensures x in IntervalRows(rows, c, info)
    {
      var i :| i in after && after[i].container == c && IntervalRow(i, after[i], info) == x;
      assert i in rows && rows[i].container == c && IntervalRow(i, rows[i], info) == x;
    }
  }

  lemma SameOrderedRows(rows: Rows, id: ItemId, row: Row, c: ContainerId, info: OrderedInfo)
    requires id in rows && rows[id].container == row.container
    requires row.container == c ==> OrderedRow(id, rows[id], info) == OrderedRow(id, row, info)
    ensures OrderedRows(rows[id := row], c, info) == OrderedRows(rows, c, info)
  {
    hide OrderedRow;
    var after := rows[id := row];
    forall x | x in OrderedRows(rows, c, info)
      ensures x in OrderedRows(after, c, info)
    {
      var i :| i in rows && rows[i].container == c && OrderedRow(i, rows[i], info) == x;
      assert i in after && after[i].container == c && OrderedRow(i, after[i], info) == x;
    }
    forall x | x in OrderedRows(after, c, info)
      ensures x in OrderedRows(rows, c, info)
    {
      var i :| i in after && after[i].container == c && OrderedRow(i, after[i], info) == x;
      assert i in rows && rows[i].container == c && OrderedRow(i, rows[i], info) == x;
    }
  }

  lemma SameSpecial(schema: IndexSchema, contents: Contents, ordereds: Ordereds, rows: Rows, after: Rows)
    requires IntervalsHold(schema, contents, rows) && OrderedsHold(schema, ordereds, rows) && SameSpecialRows(schema, rows, after)
    ensures IntervalsHold(schema, contents, after) && OrderedsHold(schema, ordereds, after)
  {
    hide IntervalRows, OrderedRows, O.Files;
  }

  /** An untouching update spoils what the item spoiled before. */
  lemma UntouchedSpoils(schema: IndexSchema, was: Row, row: Row)
    requires !Touches(schema, was, row)
    ensures Spoils(schema, row) == Spoils(schema, was)
  {
    hide Touches, Summed, CellAt, Coordinates, Entry;
    UntouchedItem(schema, was, row);
  }

  lemma SpoiledMore(schema: IndexSchema, columns: map<AggregateKey, AggregateColumn>, spoiled: set<AggregateKey>, more: set<AggregateKey>)
    requires AllClean(schema, columns, spoiled)
    ensures AllClean(schema, columns, spoiled + more)
  {
    hide CleanColumn;
  }

  lemma UntouchedStays(schema: IndexSchema, rows: Rows, id: ItemId, row: Row)
    requires id in rows && !Touches(schema, rows[id], row)
    ensures var after := rows[id := row];
            && (forall c :: InContainer(after, c) == InContainer(rows, c) && PointsOf(schema, after, c) == PointsOf(schema, rows, c))
            && (forall key :: Entries(schema, after, key) == Entries(schema, rows, key))
            && (forall key: RelationKey :: Related(schema, key) ==> ParentEntries(after, key.container, key.relation) == ParentEntries(rows, key.container, key.relation))
            && SameSpecialRows(schema, rows, after)
            && (forall c, k :: ColumnCells(schema, after, c, k) == ColumnCells(schema, rows, c, k))
            && (forall c, k, r, parent :: Related(schema, RelationKey(c, r)) ==> GroupCells(schema, after, c, k, r, parent) == GroupCells(schema, rows, c, k, r, parent))
  {
    hide Touches, Entry, Summed, CellAt, Coordinates, SameSpecialRows;
    var after := rows[id := row];
    UntouchedItem(schema, rows[id], row);
    UntouchedSpecial(schema, rows, id, row);
    forall c
      ensures InContainer(after, c) == InContainer(rows, c) && PointsOf(schema, after, c) == PointsOf(schema, rows, c)
    {
    }
    forall key
      ensures Entries(schema, after, key) == Entries(schema, rows, key)
    {
    }
    forall key: RelationKey | Related(schema, key)
      ensures ParentEntries(after, key.container, key.relation) == ParentEntries(rows, key.container, key.relation)
    {
    }
    forall c, k
      ensures ColumnCells(schema, after, c, k) == ColumnCells(schema, rows, c, k)
    {
    }
    forall c, k, r, parent | Related(schema, RelationKey(c, r))
      ensures GroupCells(schema, after, c, k, r, parent) == GroupCells(schema, rows, c, k, r, parent)
    {
      SummedInContainer(schema, rows[id], c, k);
    }
  }

  lemma SummedInContainer(schema: IndexSchema, row: Row, c: ContainerId, k: ColumnId)
    ensures Summed(schema, row, c, k) ==> row.container == c
  {
  }

  /** Maps that hold one set of rows hold another with the same contents. */
  lemma SameContents(schema: IndexSchema, items: map<ContainerId, set<ItemId>>, scalars: map<FieldKey, Buckets>,
                     counts: map<RelationKey, map<Value, nat>>, columns: map<AggregateKey, AggregateColumn>, rows: Rows, after: Rows)
    requires ContainersHold(items, rows) && ScalarsHold(schema, scalars, rows) && CountsHold(schema, counts, rows) && AggregatesHold(schema, columns, rows)
    requires forall c :: InContainer(after, c) == InContainer(rows, c)
    requires forall key :: Entries(schema, after, key) == Entries(schema, rows, key)
    requires forall key: RelationKey :: Related(schema, key) ==> ParentEntries(after, key.container, key.relation) == ParentEntries(rows, key.container, key.relation)
    requires forall c, k :: ColumnCells(schema, after, c, k) == ColumnCells(schema, rows, c, k)
    requires forall c, k, r, parent :: Related(schema, RelationKey(c, r)) ==> GroupCells(schema, after, c, k, r, parent) == GroupCells(schema, rows, c, k, r, parent)
    ensures ContainersHold(items, after) && ScalarsHold(schema, scalars, after) && CountsHold(schema, counts, after) && AggregatesHold(schema, columns, after)
  {
    hide Entries, ParentEntries, ColumnCells, GroupCells, AreBuckets, CountsOf, BucketFits, InContainer;
    forall c
      ensures Held(items, c) == if InContainer(after, c) == {} then None else Some(InContainer(after, c))
    {
      assert Held(items, c) == if InContainer(rows, c) == {} then None else Some(InContainer(rows, c));
    }
    forall key: AggregateKey | Aggregated(schema, key.container, key.column)
      ensures ColumnFits(schema, Held(columns, key), key.container, key.column, after)
    {
      assert ColumnFits(schema, Held(columns, key), key.container, key.column, rows);
      SameColumn(schema, Held(columns, key), key.container, key.column, rows, after);
    }
  }

  lemma SameColumn(schema: IndexSchema, a: Option<AggregateColumn>, c: ContainerId, k: ColumnId, rows: Rows, after: Rows)
    requires c in schema && ColumnFits(schema, a, c, k, rows)
    requires ColumnCells(schema, after, c, k) == ColumnCells(schema, rows, c, k)
    requires forall r, parent :: Related(schema, RelationKey(c, r)) ==> GroupCells(schema, after, c, k, r, parent) == GroupCells(schema, rows, c, k, r, parent)
    ensures ColumnFits(schema, a, c, k, after)
  {
    hide BucketFits, ColumnCells, GroupCells;
    forall r, parent | r in schema[c].relations
      ensures GroupCells(schema, after, c, k, r, parent) == GroupCells(schema, rows, c, k, r, parent)
    {
      assert Related(schema, RelationKey(c, r));
    }
  }

  lemma NoRows(schema: IndexSchema)
    ensures ContainersHold(map[], map[]) && ScalarsHold(schema, map[], map[]) && CountsHold(schema, map[], map[])
    ensures AggregatesHold(schema, map[], map[]) && forall c :: PointsOf(schema, map[], c) == map[]
    ensures IntervalsHold(schema, map[], map[]) && OrderedsHold(schema, map[], map[]) && AllClean(schema, map[], {})
  {
    forall c, info
      ensures IntervalRows(map[], c, info) == {}
    {
    }
    forall c, info
      ensures OrderedRows(map[], c, info) == {}
    {
    }
    forall c
      ensures InContainer(map[], c) == {} && PointsOf(schema, map[], c) == map[]
    {
    }
    forall key
      ensures Entries(schema, map[], key) == map[]
    {
    }
    forall c, r
      ensures ParentEntries(map[], c, r) == map[]
    {
    }
    forall c, k
      ensures ColumnCells(schema, map[], c, k) == map[]
    {
    }
    forall c, k, r, parent
      ensures GroupCells(schema, map[], c, k, r, parent) == map[]
    {
    }
  }

  lemma InSchemaSummed(schema: IndexSchema, row: Row, k: ColumnId)
    requires Summed(schema, row, row.container, k)
    ensures row.container in schema && Aggregated(schema, row.container, k)
  {
  }

  lemma EntryOfColumn(schema: IndexSchema, row: Row, k: ColumnId)
    requires row.container in schema && k in schema[row.container].columns
    ensures var column := schema[row.container].columns[k];
            && Entry(schema, row, ColumnKey(row.container, k)) == (if column.indexed && Applies(column, row) then Some(CellAt(row, k)) else None)
            && (Summed(schema, row, row.container, k) <==> column.indexed && Applies(column, row) && column.aggregate.Some?)
  {
  }

  lemma EntryOfVariant(schema: IndexSchema, row: Row)
    ensures Entry(schema, row, VariantKey(row.container))
         == if row.container in schema ==> schema[row.container].hasVariants then Some(VariantValue(row)) else None
  {
  }

  /** An item stands in no other index. */
  lemma EntriesElsewhere(schema: IndexSchema, row: Row)
    requires row.container in schema
    ensures forall key :: Entry(schema, row, key).Some? ==>
              key == VariantKey(row.container) || (key.ColumnKey? && key.container == row.container && key.column in schema[row.container].columns)
    ensures forall key: AggregateKey :: Summed(schema, row, key.container, key.column) ==>
              key.container == row.container && key.column in schema[row.container].columns
  {
  }

  lemma UnknownContainer(schema: IndexSchema, row: Row)
    requires row.container !in schema
    ensures forall key :: Entry(schema, row, key).Some? ==> key == VariantKey(row.container)
    ensures forall key: AggregateKey :: !Summed(schema, row, key.container, key.column)
    ensures Coordinates(schema, row) == map[]
  {
  }

  lemma FitsNow(schema: IndexSchema, columns: map<AggregateKey, AggregateColumn>, old_: Rows, new_: Rows, done: set<AggregateKey>, c: ContainerId, k: ColumnId)
    requires AggregatesBetween(schema, columns, old_, new_, done) && Aggregated(schema, c, k) && AggregateKey(c, k) !in done
    ensures ColumnFits(schema, Held(columns, AggregateKey(c, k)), c, k, old_)
  {
    hide ColumnFits;
    assert Aggregated(schema, AggregateKey(c, k).container, AggregateKey(c, k).column);
  }

  lemma NoGroups(schema: IndexSchema, groups: map<Group, Bucket>, c: ContainerId, k: ColumnId, rows: Rows, total: Option<Bucket>)
    requires c in schema && BucketFits(total, OptionsOf(schema, c, k), ColumnCells(schema, rows, c, k)) && total.None?
    ensures GroupsBetween(schema, map[], c, k, rows, rows, {})
  {
    hide Summed, CellAt, Tells;
    forall r, parent
      ensures GroupCells(schema, rows, c, k, r, parent) == map[]
    {
      assert forall id :: id in GroupCells(schema, rows, c, k, r, parent) ==> id in ColumnCells(schema, rows, c, k);
    }
  }
}
