/** Counts, sums and extremes from the indexes, and the fold over the rows that they stand
    for (src/support/runtime_index.cpp:1636-1853, src/view.cpp:388-443). */
module Aggregations {
  import opened Wrappers
  import opened Sequences
  import opened Values
  import opened Tallies
  import opened IndexStores

  datatype Kind = Count | Sum | Minimum | Maximum

  /** A result: a number of rows, a sum, or one of the values. */
  datatype Outcome = Counted(n: nat) | Summed(sum: Sum) | Picked(v: Value)

  /** What an aggregation over some items' values should come to. A sum is one of integers
      of one type. */
  ghost predicate Means(kind: Kind, e: map<ItemId, Value>, o: Outcome) {
    match kind
    case Count => o == Counted(|e|)
    case Sum => o.Summed? && o.sum.Total? && Sums(o.sum, e)
    case Minimum => o.Picked? && IsMin(e, o.v)
    case Maximum => o.Picked? && IsMax(e, o.v)
  }

  lemma OneMeaning(kind: Kind, e: map<ItemId, Value>, a: Outcome, b: Outcome)
    requires Means(kind, e, a) && Means(kind, e, b)
    ensures a == b
  {
    hide Less, SumOf;
    ValueOrder();
    if kind.Sum? {
      var id :| id in e;
    }
  }

  /** Of two numbers: how many, their sum, the smaller and the greater. */
  lemma MeansOfTwo(a: int64, b: int64)
    ensures var e: map<ItemId, Value> := map[1 := Int64(a), 2 := Int64(b)];
            && Means(Count, e, Counted(2)) && Means(Sum, e, Summed(Total(2, a + b)))
            && Means(Minimum, e, Picked(Int64(if a < b then a else b))) && Means(Maximum, e, Picked(Int64(if a < b then b else a)))
  {
    hide SumOf;
    var one: map<ItemId, Value> := map[1 := Int64(a)];
    var e: map<ItemId, Value> := map[1 := Int64(a), 2 := Int64(b)];
    assert one[2 := Int64(b)] == e && map[][1 := Int64(a)] == one;
    SumsOfNumbers(map[], 1, a, 0);
    SumsOfNumbers(one, 2, b, 0);
    assert e.Keys == {1, 2} && |e| == |e.Keys|;
    assert e[1] == Int64(a) && e[2] == Int64(b);
  }

  /** What a row counts for. */
  function Weight(kind: Kind, row: Row, k: ColumnId): Value {
    if kind.Count? then Null else CellAt(row, k)
  }

  /** The rows of a container that fall into a group. */
  function Shown(rows: Rows, c: ContainerId, kind: Kind, k: ColumnId, groupBy: Option<ColumnId>, group: Option<Value>): map<ItemId, Value> {
    map id | id in rows && rows[id].container == c && GroupOf(rows[id], groupBy) == group :: Weight(kind, rows[id], k)
  }

  function GroupOf(row: Row, groupBy: Option<ColumnId>): Option<Value> {
    match groupBy
    case None => None
    case Some(r) => Some(CellAt(row, r))
  }

  type Results = map<Option<Value>, Outcome>

  /** One result for every group that has rows, and each what it should be. */
  ghost predicate Right(results: Results, rows: Rows, c: ContainerId, kind: Kind, k: ColumnId, groupBy: Option<ColumnId>) {
    forall group :: (group in results <==> Shown(rows, c, kind, k, groupBy, group) != map[])
                 && (group in results ==> Means(kind, Shown(rows, c, kind, k, groupBy, group), results[group]))
  }

  /** So however they were computed, they are the same. */
  lemma RightIsUnique(a: Results, b: Results, rows: Rows, c: ContainerId, kind: Kind, k: ColumnId, groupBy: Option<ColumnId>)
    requires Right(a, rows, c, kind, k, groupBy) && Right(b, rows, c, kind, k, groupBy)
    ensures a == b
  {
    hide Shown, Means;
    forall group
      ensures group in a <==> group in b
      ensures group in a ==> a[group] == b[group]
    {
      assert group in a <==> Shown(rows, c, kind, k, groupBy, group) != map[];
      assert group in b <==> Shown(rows, c, kind, k, groupBy, group) != map[];
      if group in a {
        OneMeaning(kind, Shown(rows, c, kind, k, groupBy, group), a[group], b[group]);
      }
    }
  }

  // ----- The fold over the rows -----

  function Start(kind: Kind): Outcome {
    match kind
    case Count => Counted(0)
    case Sum => Summed(NoSum)
    case Minimum => Picked(Null)
    case Maximum => Picked(Null)
  }

  /** The row's step of the fold (`updateRow`): a null so far gives way to any value. */
  function Next(kind: Kind, o: Outcome, v: Value): Outcome {
    match (kind, o)
    case (Count, Counted(n)) => Counted(n + 1)
    case (Sum, Summed(sum)) => Summed(Plus(sum, v))
    case (Minimum, Picked(w)) => if w == Null || Less(v, w) then Picked(v) else o
    case (Maximum, Picked(w)) => if w == Null || Less(w, v) then Picked(v) else o
    case _ => o
  }

  /** The fold over values in order. */
  function Folded(kind: Kind, vs: seq<Value>): (o: Outcome)
    ensures match kind case Count => o.Counted? case Sum => o.Summed? case Minimum => o.Picked? case Maximum => o.Picked?
  {
    if vs == [] then Start(kind) else Next(kind, Folded(kind, vs[..|vs| - 1]), vs[|vs| - 1])
  }

  /** The values of a group, in the order of the rows. */
  function InGroup(items: seq<(ItemId, Row)>, kind: Kind, k: ColumnId, groupBy: Option<ColumnId>, group: Option<Value>): seq<Value> {
    if items == [] then []
    else
      var last := |items| - 1;
      InGroup(items[..last], kind, k, groupBy, group)
      + if GroupOf(items[last].1, groupBy) == group then [Weight(kind, items[last].1, k)] else []
  }

  lemma OneMoreFolded(kind: Kind, vs: seq<Value>, v: Value)
    ensures Folded(kind, vs + [v]) == Next(kind, Folded(kind, vs), v)
  {
    assert (vs + [v])[..|vs|] == vs;
  }

  /** The loop of `View::aggregate`. A group without rows has no result here. */
  method Fold(items: seq<(ItemId, Row)>, kind: Kind, k: ColumnId, groupBy: Option<ColumnId>) returns (results: Results)
    ensures FoldOf(results, items, kind, k, groupBy)
  {
    hide GroupOf, Weight, Folded, Next, Start, FoldOf;
    results := map[];
    NoneFolded(kind, k, groupBy);
    for i := 0 to |items|
      invariant FoldOf(results, items[..i], kind, k, groupBy)
    {
      var row := items[i].1;
      assert items[..i + 1] == items[..i] + [items[i]];
      var group, v := GroupOf(row, groupBy), Weight(kind, row, k);
      FoldNext(results, items[..i], items[i], kind, k, groupBy);
      results := results[group := Next(kind, if group in results then results[group] else Start(kind), v)];
    }
    assert items[..|items|] == items;
  }

  lemma NoneFolded(kind: Kind, k: ColumnId, groupBy: Option<ColumnId>)
    ensures FoldOf(map[], [], kind, k, groupBy)
  {
  }

  lemma InGroupNext(items: seq<(ItemId, Row)>, item: (ItemId, Row), kind: Kind, k: ColumnId, groupBy: Option<ColumnId>, group: Option<Value>)
    ensures InGroup(items + [item], kind, k, groupBy, group)
         == if GroupOf(item.1, groupBy) == group then InGroup(items, kind, k, groupBy, group) + [Weight(kind, item.1, k)] else InGroup(items, kind, k, groupBy, group)
  {
    hide GroupOf, Weight;
    assert (items + [item])[..|items|] == items;
  }

  lemma FoldNext(results: Results, items: seq<(ItemId, Row)>, item: (ItemId, Row), kind: Kind, k: ColumnId, groupBy: Option<ColumnId>)
    requires FoldOf(results, items, kind, k, groupBy)
    ensures var group, v := GroupOf(item.1, groupBy), Weight(kind, item.1, k);
            FoldOf(results[group := Next(kind, if group in results then results[group] else Start(kind), v)], items + [item], kind, k, groupBy)
  {
    hide GroupOf, Weight, Folded, Next, Start, InGroup;
    var mine, v := GroupOf(item.1, groupBy), Weight(kind, item.1, k);
    var after := results[mine := Next(kind, if mine in results then results[mine] else Start(kind), v)];
    forall group
      ensures group in after <==> InGroup(items + [item], kind, k, groupBy, group) != []
      ensures group in after ==> after[group] == Folded(kind, InGroup(items + [item], kind, k, groupBy, group))
    {
      InGroupNext(items, item, kind, k, groupBy, group);
      assert group in results <==> InGroup(items, kind, k, groupBy, group) != [];
      OneMoreFolded(kind, InGroup(items, kind, k, groupBy, group), v);
      NothingFolded(kind);
    }
  }

  lemma NothingFolded(kind: Kind)
    ensures Folded(kind, []) == Start(kind)
  {
  }

  ghost predicate FoldOf(results: Results, items: seq<(ItemId, Row)>, kind: Kind, k: ColumnId, groupBy: Option<ColumnId>) {
    forall group :: (group in results <==> InGroup(items, kind, k, groupBy, group) != [])
                 && (group in results ==> results[group] == Folded(kind, InGroup(items, kind, k, groupBy, group)))
  }

  // ----- When the fold comes to what it should -----

  ghost predicate AllWhole(vs: seq<Value>, tag: byte) {
    forall v :: v in vs ==> Whole(v, tag)
  }

  /** No null in between for a minimum, and integers of one type for a sum. */
  ghost predicate FoldsRight(kind: Kind, vs: seq<Value>) {
    match kind
    case Count => true
    case Maximum => true
    case Minimum => Null !in vs || vs[|vs| - 1] == Null
    case Sum => exists tag: byte :: AllWhole(vs, tag)
  }

  /** The values are just those that the items have. */
  ghost predicate Lists(vs: seq<Value>, e: map<ItemId, Value>) {
    && |vs| == |e|
    && Sums(Folded(Sum, vs).sum, e)
    && (forall id :: id in e ==> e[id] in vs) && forall v :: v in vs ==> exists id :: id in e && e[id] == v
  }

  lemma ListsMore(vs: seq<Value>, e: map<ItemId, Value>, id: ItemId, v: Value)
    requires Lists(vs, e) && id !in e
    ensures Lists(vs + [v], e[id := v])
  {
    hide Folded, Sums;
    Sizes(e, id, v);
    OneMoreFolded(Sum, vs, v);
    PlusSums(Folded(Sum, vs).sum, e, id, v);
    var after := e[id := v];
    forall w | w in vs + [v]
      ensures exists x :: x in after && after[x] == w
    {
      if w in vs {
        var x :| x in e && e[x] == w;
        assert x in after && after[x] == w;
      } else {
        assert id in after && after[id] == w;
      }
    }
  }

  lemma ListsNothing()
    ensures Lists([], map[])
  {
  }

  lemma ShownMore(rows: Rows, id: ItemId, row: Row, c: ContainerId, kind: Kind, k: ColumnId, groupBy: Option<ColumnId>, group: Option<Value>)
    requires id !in rows
    ensures id !in Shown(rows, c, kind, k, groupBy, group)
    ensures Shown(rows[id := row], c, kind, k, groupBy, group)
         == if row.container == c && GroupOf(row, groupBy) == group then Shown(rows, c, kind, k, groupBy, group)[id := Weight(kind, row, k)]
            else Shown(rows, c, kind, k, groupBy, group)
  {
    hide GroupOf, Weight;
  }

  /** The rows, each once. */
  ghost predicate Enumerates(items: seq<(ItemId, Row)>, rows: Rows, c: ContainerId) {
    && (forall i :: 0 <= i < |items| ==> items[i].0 in rows && rows[items[i].0] == items[i].1 && items[i].1.container == c)
    && (forall i, j :: 0 <= i < j < |items| ==> items[i].0 != items[j].0)
    && (forall id :: id in rows && rows[id].container == c ==> exists i :: 0 <= i < |items| && items[i].0 == id)
  }

  function RowsOf(items: seq<(ItemId, Row)>): (r: Rows)
    ensures forall id :: id in r <==> exists i :: 0 <= i < |items| && items[i].0 == id
  {
    if items == [] then map[]
    else
      var last := |items| - 1;
      RowsOf(items[..last])[items[last].0 := items[last].1]
  }

  lemma {:induction false} GroupLists(items: seq<(ItemId, Row)>, c: ContainerId, kind: Kind, k: ColumnId, groupBy: Option<ColumnId>, group: Option<Value>)
    requires forall i, j :: 0 <= i < j < |items| ==> items[i].0 != items[j].0
    requires forall i :: 0 <= i < |items| ==> items[i].1.container == c
    ensures Lists(InGroup(items, kind, k, groupBy, group), Shown(RowsOf(items), c, kind, k, groupBy, group))
    decreases |items|
  {
    hide Lists, GroupOf, Weight, Shown;
    if items == [] {
      ListsNothing();
      NothingShown(c, kind, k, groupBy, group);
    } else {
      var last := |items| - 1;
      var front, row := items[..last], items[last].1;
      GroupLists(front, c, kind, k, groupBy, group);
      assert items[last].0 !in RowsOf(front);
      ShownMore(RowsOf(front), items[last].0, row, c, kind, k, groupBy, group);
      assert items == front + [items[last]];
      InGroupNext(front, items[last], kind, k, groupBy, group);
      if GroupOf(row, groupBy) == group {
        ListsMore(InGroup(front, kind, k, groupBy, group), Shown(RowsOf(front), c, kind, k, groupBy, group), items[last].0, Weight(kind, row, k));
      }
    }
  }

  lemma NothingShown(c: ContainerId, kind: Kind, k: ColumnId, groupBy: Option<ColumnId>, group: Option<Value>)
    ensures Shown(map[], c, kind, k, groupBy, group) == map[]
  {
  }

  lemma {:induction false} RowsOfAt(items: seq<(ItemId, Row)>, rows: Rows)
    requires forall i :: 0 <= i < |items| ==> items[i].0 in rows && rows[items[i].0] == items[i].1
    ensures forall id :: id in RowsOf(items) ==> id in rows && RowsOf(items)[id] == rows[id]
    decreases |items|
  {
    if items != [] {
      RowsOfAt(items[..|items| - 1], rows);
    }
  }

  lemma EnumeratedLists(items: seq<(ItemId, Row)>, rows: Rows, c: ContainerId, kind: Kind, k: ColumnId, groupBy: Option<ColumnId>, group: Option<Value>)
    requires Enumerates(items, rows, c)
    ensures Lists(InGroup(items, kind, k, groupBy, group), Shown(rows, c, kind, k, groupBy, group))
  {
    hide Lists, InGroup, GroupOf, Weight;
    GroupLists(items, c, kind, k, groupBy, group);
    RowsOfAt(items, rows);
    EnumeratesAll(items, rows, c);
    SameShown(RowsOf(items), rows, c, kind, k, groupBy, group);
  }

  lemma EnumeratesAll(items: seq<(ItemId, Row)>, rows: Rows, c: ContainerId)
    requires Enumerates(items, rows, c)
    ensures forall id :: id in rows && rows[id].container == c ==> id in RowsOf(items)
  {
  }

  lemma SameShown(some: Rows, rows: Rows, c: ContainerId, kind: Kind, k: ColumnId, groupBy: Option<ColumnId>, group: Option<Value>)
    requires forall id :: id in some ==> id in rows && some[id] == rows[id]
    requires forall id :: id in rows && rows[id].container == c ==> id in some
    ensures Shown(some, c, kind, k, groupBy, group) == Shown(rows, c, kind, k, groupBy, group)
  {
    hide GroupOf, Weight;
  }

  lemma {:induction false} FoldedCount(vs: seq<Value>)
    ensures Folded(Count, vs) == Counted(|vs|)
  {
    if vs != [] {
      FoldedCount(vs[..|vs| - 1]);
    }
  }

  lemma NotBefore(a: Value, b: Value, c: Value)
    requires !Less(b, a) && !Less(c, b)
    ensures !Less(c, a)
  {
    hide Less;
    ValueOrder();
  }

  lemma LessOneWay(a: Value, b: Value)
    ensures Less(a, b) ==> !Less(b, a)
    ensures !Less(a, a)
  {
    CompareTotal(a, b);
    CompareTotal(a, a);
  }

  lemma {:induction false} FoldedMinimum(vs: seq<Value>)
    requires vs != []
    ensures var m := Folded(Minimum, vs).v;
            && m in vs && (m == Null <==> vs[|vs| - 1] == Null)
            && (Null !in vs ==> forall v :: v in vs ==> !Less(v, m))
  {
    hide Less;
    NullIsLeast();
    var last := |vs| - 1;
    var front, x, m := vs[..last], vs[last], Folded(Minimum, vs).v;
    assert vs == front + [x];
    LessOneWay(x, Null);
    if last > 0 {
      var n := Folded(Minimum, front).v;
      FoldedMinimum(front);
      LessOneWay(x, n);
      LessOneWay(x, x);
      if Null !in vs {
        forall v | v in front
          ensures !Less(v, m)
        {
          assert !Less(v, n);
          NotBefore(m, n, v);
        }
      }
    } else {
      assert front == [];
      LessOneWay(x, x);
    }
  }

  lemma {:induction false} FoldedMaximum(vs: seq<Value>)
    requires vs != []
    ensures var m := Folded(Maximum, vs).v; m in vs && forall v :: v in vs ==> !Less(m, v)
  {
    hide Less;
    NullIsLeast();
    var last := |vs| - 1;
    var front, x, m := vs[..last], vs[last], Folded(Maximum, vs).v;
    assert vs == front + [x];
    LessOneWay(x, x);
    if last > 0 {
      var n := Folded(Maximum, front).v;
      FoldedMaximum(front);
      LessOneWay(n, x);
      LessOneWay(Null, x);
      forall v | v in front
        ensures !Less(m, v)
      {
        assert !Less(n, v);
        NotBefore(v, n, m);
      }
    } else {
      assert front == [];
    }
  }

  lemma NullIsLeast()
    ensures forall v :: v != Null ==> Less(Null, v)
    ensures forall v :: !Less(v, Null)
  {
  }

  lemma {:induction false} FoldedSum(vs: seq<Value>, tag: byte)
    requires AllWhole(vs, tag)
    ensures match Folded(Sum, vs).sum case NoSum => vs == [] case Total(t, _) => t == tag && vs != [] case Inexact => false
  {
    if vs != [] {
      assert vs[|vs| - 1] in vs;
      FoldedSum(vs[..|vs| - 1], tag);
    }
  }

  /** A fold comes to what it should exactly when it folds right. */
  lemma FoldMeansIff(kind: Kind, vs: seq<Value>, e: map<ItemId, Value>)
    requires Lists(vs, e) && vs != []
    ensures Means(kind, e, Folded(kind, vs)) <==> FoldsRight(kind, vs)
  {
    hide Less, Folded, SumOf;
    match kind
    case Count => FoldedCount(vs);
    case Sum =>
      if tag: byte :| AllWhole(vs, tag) {
        FoldedSum(vs, tag);
      }
      if Means(Sum, e, Folded(Sum, vs)) {
        assert AllWhole(vs, Folded(Sum, vs).sum.tag);
      }
    case Minimum =>
      ValueOrder();
      NullIsLeast();
      FoldedMinimum(vs);
    case Maximum =>
      FoldedMaximum(vs);
  }

  ghost predicate EachFoldsRight(items: seq<(ItemId, Row)>, kind: Kind, k: ColumnId, groupBy: Option<ColumnId>) {
    forall group :: InGroup(items, kind, k, groupBy, group) != [] ==> FoldsRight(kind, InGroup(items, kind, k, groupBy, group))
  }

  /** Results that are what they should be are those of the fold exactly when every group
      folds right. */
  lemma FoldAgreesIff(results: Results, fold: Results, items: seq<(ItemId, Row)>, rows: Rows, c: ContainerId, kind: Kind, k: ColumnId, groupBy: Option<ColumnId>)
    requires Enumerates(items, rows, c) && Right(results, rows, c, kind, k, groupBy) && FoldOf(fold, items, kind, k, groupBy)
    ensures results == fold <==> EachFoldsRight(items, kind, k, groupBy)
  {
    hide Shown, InGroup, Folded, Means, FoldsRight, Enumerates, Lists;
    forall group
      ensures group in results <==> group in fold
      ensures group in results ==> (results[group] == fold[group] <==> FoldsRight(kind, InGroup(items, kind, k, groupBy, group)))
    {
      var vs, e := InGroup(items, kind, k, groupBy, group), Shown(rows, c, kind, k, groupBy, group);
      EnumeratedLists(items, rows, c, kind, k, groupBy, group);
      ListsAlike(vs, e);
      assert group in results <==> e != map[];
      assert group in fold <==> vs != [];
      if group in results {
        FoldMeansIff(kind, vs, e);
        if Means(kind, e, fold[group]) {
          OneMeaning(kind, e, results[group], fold[group]);
        }
      }
    }
    if EachFoldsRight(items, kind, k, groupBy) {
      forall group | group in results
        ensures results[group] == fold[group]
      {
        assert group in fold <==> InGroup(items, kind, k, groupBy, group) != [];
      }
      assert results == fold;
    } else {
      var group :| InGroup(items, kind, k, groupBy, group) != [] && !FoldsRight(kind, InGroup(items, kind, k, groupBy, group));
      assert group in fold && results != fold;
    }
  }

  lemma ListsAlike(vs: seq<Value>, e: map<ItemId, Value>)
    requires Lists(vs, e)
    ensures vs == [] <==> e == map[]
  {
  }

  // ----- The same from the indexes -----

  /** A column that every item of the container has, aggregated in the way that is asked. */
  predicate Hinted(schema: IndexSchema, c: ContainerId, kind: Kind, k: ColumnId) {
    kind.Count? ||
    (Aggregated(schema, c, k) && schema[c].columns[k].variant.None?
     && (kind.Sum? ==> OptionsOf(schema, c, k).sum) && (kind.Minimum? || kind.Maximum? ==> OptionsOf(schema, c, k).minMax))
  }

  lemma CellsAreShown(schema: IndexSchema, rows: Rows, c: ContainerId, kind: Kind, k: ColumnId)
    requires !kind.Count? && Hinted(schema, c, kind, k)
    ensures ColumnCells(schema, rows, c, k) == Shown(rows, c, kind, k, None, None)
    ensures forall r, parent :: GroupCells(schema, rows, c, k, r, parent) == Shown(rows, c, kind, k, Some(r), Some(parent))
  {
    hide CellAt;
    forall r, parent
      ensures GroupCells(schema, rows, c, k, r, parent) == Shown(rows, c, kind, k, Some(r), Some(parent))
    {
    }
  }

  /** Sums are asked of columns that have only ever had integers of their type. */
  ghost predicate Summable(store: RuntimeIndexStore, c: ContainerId, kind: Kind, k: ColumnId)
    reads store
  {
    kind.Sum? ==> AggregateKey(c, k) !in store.spoiled
  }

  /** What a bucket gives (`aggregateBucketValue`). */
  method BucketValue(b: Bucket, kind: Kind, ghost options: Options, ghost e: map<ItemId, Value>, ghost tag: byte) returns (o: Outcome)
    requires !kind.Count? && e != map[] && Tells(b, options, e)
    requires (kind.Sum? ==> options.sum && Clean(b, options, tag)) && (kind.Minimum? || kind.Maximum? ==> options.minMax)
    ensures Means(kind, e, o)
  {
    hide Less, SumOf;
    if kind.Sum? {
      o := Summed(b.sum);
    } else {
      SomeValue(b, options, e);
      var extreme := Extreme(b, kind.Minimum?);
      o := Picked(extreme);
      ExtremesTold(b, options, e, extreme);
    }
  }

  lemma SomeValue(b: Bucket, options: Options, e: map<ItemId, Value>)
    requires Tells(b, options, e) && options.minMax && e != map[]
    ensures b.values != multiset{}
  {
    var id :| id in e;
    assert id in Having(e, e[id]);
    assert b.values[e[id]] == |Having(e, e[id])|;
  }

  /** `aggregate` without a grouping. */
  method AggregateAll(store: RuntimeIndexStore, c: ContainerId, kind: Kind, k: ColumnId) returns (r: Option<Outcome>)
    requires store.Valid() && Hinted(store.schema, c, kind, k) && Summable(store, c, kind, k)
    ensures r.None? ==> InContainer(store.rows, c) == {}
    ensures r.Some? && InContainer(store.rows, c) != {} ==> Right(map[None := r.value], store.rows, c, kind, k, None)
  {
    hide ContainersHold, ScalarsBetween, CountsBetween, OrderedsBetween, BucketFits, Shown, Means, ColumnCells, GroupCells, Spoils, CleanBucket, CleanGroups;
    ghost var all := Shown(store.rows, c, kind, k, None, None);
    ShownUngrouped(store.rows, c, kind, k);
    if kind.Count? {
      var items := store.ContainerItems(c);
      r := Some(Counted(|items|));
      CountMeans(all, items);
    } else {
      CellsAreShown(store.schema, store.rows, c, kind, k);
      assert Aggregated(store.schema, AggregateKey(c, k).container, AggregateKey(c, k).column);
      var a := Held(store.aggregateColumns, AggregateKey(c, k));
      ghost var tag := TagAt(store.schema, AggregateKey(c, k));
      Fitting(TotalOf(a), OptionsOf(store.schema, c, k), all);
      if a.None? {
        return None;
      }
      if all == map[] {
        NotEmptyHere(a, all);
      }
      if kind.Sum? {
        assert CleanColumn(a, OptionsOf(store.schema, c, k), tag);
        CleanTotal(a, OptionsOf(store.schema, c, k), tag);
      }
      var n := BucketValue(a.value.total, kind, OptionsOf(store.schema, c, k), all, tag);
      r := Some(n);
    }
  }

  lemma CleanTotal(a: Option<AggregateColumn>, options: Options, tag: byte)
    requires CleanColumn(a, options, tag)
    ensures a.Some? ==> Clean(a.value.total, options, tag)
    ensures forall g :: g in GroupsOf(a) ==> Clean(GroupsOf(a)[g], options, tag)
  {
    forall g | g in GroupsOf(a)
      ensures Clean(GroupsOf(a)[g], options, tag)
    {
      assert CleanBucket(Held(GroupsOf(a), g), options, tag);
    }
  }

  lemma NotEmptyHere(a: Option<AggregateColumn>, all: map<ItemId, Value>)
    requires a.Some? && (all == map[] ==> TotalOf(a).None?)
    ensures all != map[]
  {
  }

  lemma Fitting(b: Option<Bucket>, options: Options, e: map<ItemId, Value>)
    requires BucketFits(b, options, e)
    ensures e == map[] <==> b.None?
    ensures b.Some? ==> Tells(b.value, options, e)
  {
  }

  lemma CountMeans(e: map<ItemId, Value>, items: set<ItemId>)
    requires e.Keys == items
    ensures Means(Count, e, Counted(|items|))
  {
    assert |e| == |e.Keys|;
  }

  lemma ShownUngrouped(rows: Rows, c: ContainerId, kind: Kind, k: ColumnId)
    ensures Shown(rows, c, kind, k, None, None).Keys == InContainer(rows, c)
    ensures Shown(rows, c, kind, k, None, None) == map[] <==> InContainer(rows, c) == {}
    ensures forall group :: group != None ==> Shown(rows, c, kind, k, None, group) == map[]
  {
    hide Weight;
    forall group | group != None
      ensures Shown(rows, c, kind, k, None, group) == map[]
    {
    }
    var all := Shown(rows, c, kind, k, None, None);
    if InContainer(rows, c) != {} {
      var id :| id in InContainer(rows, c);
      assert id in all;
    }
    assert all.Keys == InContainer(rows, c);
  }

  lemma ShownGrouped(rows: Rows, c: ContainerId, kind: Kind, k: ColumnId, r: ColumnId)
    ensures Shown(rows, c, kind, k, Some(r), None) == map[]
    ensures forall v :: Shown(rows, c, kind, k, Some(r), Some(v)).Keys == Having(ParentEntries(rows, c, r), v)
  {
    hide Weight, CellAt;
    forall v
      ensures Shown(rows, c, kind, k, Some(r), Some(v)).Keys == Having(ParentEntries(rows, c, r), v)
    {
    }
  }

  /** `aggregate` grouped by parent: counts from the parent counts. */
  method CountByParent(store: RuntimeIndexStore, c: ContainerId, relation: ColumnId) returns (results: Results)
    requires store.Valid() && Related(store.schema, RelationKey(c, relation))
    ensures Right(results, store.rows, c, Count, 0, Some(relation))
  {
    hide ContainersHold, ScalarsBetween, AggregatesBetween, OrderedsBetween, Spoils, AllClean, Shown, ParentEntries, Having;
    var counts := CountsAt(store.parentCounts, RelationKey(c, relation));
    assert CountsOf(counts, ParentEntries(store.rows, c, relation));
    ShownGrouped(store.rows, c, Count, 0, relation);
    results := map v | v in counts :: Some(v) := Counted(counts[v]);
    forall group
      ensures group in results <==> Shown(store.rows, c, Count, 0, Some(relation), group) != map[]
      ensures group in results ==> Means(Count, Shown(store.rows, c, Count, 0, Some(relation), group), results[group])
    {
      var e := Shown(store.rows, c, Count, 0, Some(relation), group);
      if group.Some? {
        var v := group.value;
        assert Held(counts, v) == if Having(ParentEntries(store.rows, c, relation), v) == {} then None else Some(|Having(ParentEntries(store.rows, c, relation), v)|);
        assert |e| == |e.Keys|;
        assert e == map[] <==> e.Keys == {};
      }
    }
  }

  /** `aggregate` grouped by parent: sums and extremes from the group buckets. */
  method AggregateByParent(store: RuntimeIndexStore, c: ContainerId, kind: Kind, k: ColumnId, relation: ColumnId) returns (results: Option<Results>)
    requires store.Valid() && !kind.Count? && Hinted(store.schema, c, kind, k) && Related(store.schema, RelationKey(c, relation))
    requires OptionsOf(store.schema, c, k).byParent && Summable(store, c, kind, k)
    ensures results.None? ==> InContainer(store.rows, c) == {}
    ensures results.Some? ==> Right(results.value, store.rows, c, kind, k, Some(relation))
  {
    hide ContainersHold, ScalarsBetween, CountsBetween, OrderedsBetween, BucketFits, Shown, Means, ColumnCells, GroupCells, Spoils, CleanBucket, CleanGroups;
    ShownUngrouped(store.rows, c, kind, k);
    ShownGrouped(store.rows, c, kind, k, relation);
    ghost var options := OptionsOf(store.schema, c, k);
    var a := Held(store.aggregateColumns, AggregateKey(c, k));
    GroupFacts(store, c, kind, k, relation);
    if a.None? {
      return None;
    }
    var groups := a.value.groups;
    var keys := groups.Keys;
    var found: Results := map[];
    while keys != {}
      invariant keys <= groups.Keys
      invariant forall g :: g in found <==> g.Some? && Group(relation, g.value) in groups && Group(relation, g.value) !in keys
      invariant forall g :: g in found ==> Means(kind, Shown(store.rows, c, kind, k, Some(relation), g), found[g])
      decreases keys
    {
      var key :| key in keys;
      keys := keys - {key};
      if key.relation == relation {
        ghost var e := Shown(store.rows, c, kind, k, Some(relation), Some(key.parent));
        Fitting(Held(groups, Group(relation, key.parent)), options, e);
        var n := BucketValue(groups[key], kind, options, e, TagAt(store.schema, AggregateKey(c, k)));
        found := found[Some(key.parent) := n];
      }
    }
    forall g
      ensures g in found <==> Shown(store.rows, c, kind, k, Some(relation), g) != map[]
    {
      if g.Some? {
        Fitting(Held(groups, Group(relation, g.value)), options, Shown(store.rows, c, kind, k, Some(relation), g));
      }
    }
    results := Some(found);
  }

  /** What the store holds of an aggregated column by parent. */
  lemma GroupFacts(store: RuntimeIndexStore, c: ContainerId, kind: Kind, k: ColumnId, relation: ColumnId)
    requires store.Valid() && !kind.Count? && Hinted(store.schema, c, kind, k) && Related(store.schema, RelationKey(c, relation))
    requires OptionsOf(store.schema, c, k).byParent && Summable(store, c, kind, k)
    ensures var a, options := Held(store.aggregateColumns, AggregateKey(c, k)), OptionsOf(store.schema, c, k);
            && (a.None? ==> Shown(store.rows, c, kind, k, None, None) == map[])
            && (forall v :: BucketFits(Held(GroupsOf(a), Group(relation, v)), options, Shown(store.rows, c, kind, k, Some(relation), Some(v))))
            && (kind.Sum? ==> forall g :: g in GroupsOf(a) ==> Clean(GroupsOf(a)[g], options, TagAt(store.schema, AggregateKey(c, k))))
  {
    hide ContainersHold, ScalarsBetween, CountsBetween, OrderedsBetween, BucketFits, Shown, ColumnCells, GroupCells, Spoils, CleanBucket, CleanGroups;
    CellsAreShown(store.schema, store.rows, c, kind, k);
    assert Aggregated(store.schema, AggregateKey(c, k).container, AggregateKey(c, k).column);
    var a, options := Held(store.aggregateColumns, AggregateKey(c, k)), OptionsOf(store.schema, c, k);
    Fitting(TotalOf(a), options, Shown(store.rows, c, kind, k, None, None));
    forall v
      ensures BucketFits(Held(GroupsOf(a), Group(relation, v)), options, Shown(store.rows, c, kind, k, Some(relation), Some(v)))
    {
    }
    if kind.Sum? {
      assert CleanColumn(a, options, TagAt(store.schema, AggregateKey(c, k)));
      CleanTotal(a, options, TagAt(store.schema, AggregateKey(c, k)));
    }
  }

  // ----- For some parents only -----

  /** The rows under one of some parents. */
  function Under(rows: Rows, relation: ColumnId, parents: set<Value>): Rows {
    map id | id in rows && CellAt(rows[id], relation) in parents :: rows[id]
  }

  lemma UnderOneMore(rows: Rows, c: ContainerId, kind: Kind, k: ColumnId, relation: ColumnId, parents: set<Value>, v: Value)
    requires v !in parents
    ensures var e, f := Shown(Under(rows, relation, parents), c, kind, k, None, None), Shown(rows, c, kind, k, Some(relation), Some(v));
            e.Keys !! f.Keys && Shown(Under(rows, relation, parents + {v}), c, kind, k, None, None) == e + f
  {
    hide Weight, CellAt;
  }

  lemma UnderNone(rows: Rows, c: ContainerId, kind: Kind, k: ColumnId, relation: ColumnId)
    ensures Shown(Under(rows, relation, {}), c, kind, k, None, None) == map[]
  {
    hide Weight, CellAt;
  }

  /** `countParent` over de-duplicated parents. */
  method CountUnder(store: RuntimeIndexStore, c: ContainerId, relation: ColumnId, parents: seq<Value>) returns (total: nat)
    requires store.Valid() && Related(store.schema, RelationKey(c, relation)) && Distinct(parents)
    ensures total == |Shown(Under(store.rows, relation, SetOf(parents)), c, Count, 0, None, None)|
  {
    hide RuntimeIndexStore.Valid, Related, CountsOf, Shown, ParentEntries, Under, SetOf, CountsAt;
    var counts := CountsAt(store.parentCounts, RelationKey(c, relation));
    CountsNow(store, c, relation);
    total := 0;
    UnderNone(store.rows, c, Count, 0, relation);
    NoParents(parents);
    for i := 0 to |parents|
      invariant total == |Shown(Under(store.rows, relation, SetOf(parents[..i])), c, Count, 0, None, None)|
    {
      var v := parents[i];
      OneMoreParent(parents, i);
      UnderOneMore(store.rows, c, Count, 0, relation, SetOf(parents[..i]), v);
      BothSizes(Shown(Under(store.rows, relation, SetOf(parents[..i])), c, Count, 0, None, None), Shown(store.rows, c, Count, 0, Some(relation), Some(v)));
      CountedAt(counts, store.rows, c, relation, v);
      if v in counts {
        total := total + counts[v];
      }
    }
  }

  lemma CountsNow(store: RuntimeIndexStore, c: ContainerId, relation: ColumnId)
    requires store.Valid() && Related(store.schema, RelationKey(c, relation))
    ensures CountsOf(CountsAt(store.parentCounts, RelationKey(c, relation)), ParentEntries(store.rows, c, relation))
  {
    hide CountsOf, ParentEntries;
    var key := RelationKey(c, relation);
    assert CountsOf(CountsAt(store.parentCounts, key), ParentEntries(store.rows, key.container, key.relation));
  }

  lemma NoParents(parents: seq<Value>)
    ensures SetOf(parents[..0]) == {} && parents[..|parents|] == parents
  {
  }

  lemma OneMoreParent(parents: seq<Value>, i: nat)
    requires Distinct(parents) && i < |parents|
    ensures SetOf(parents[..i + 1]) == SetOf(parents[..i]) + {parents[i]} && parents[i] !in SetOf(parents[..i])
  {
  }

  lemma CountedAt(counts: map<Value, nat>, rows: Rows, c: ContainerId, relation: ColumnId, v: Value)
    requires CountsOf(counts, ParentEntries(rows, c, relation))
    ensures |Shown(rows, c, Count, 0, Some(relation), Some(v))| == if v in counts then counts[v] else 0
  {
    hide Shown, ParentEntries, Having;
    ShownGrouped(rows, c, Count, 0, relation);
    var f, e := Shown(rows, c, Count, 0, Some(relation), Some(v)), ParentEntries(rows, c, relation);
    assert Held(counts, v) == if Having(e, v) == {} then None else Some(|Having(e, v)|);
    assert |f| == |f.Keys|;
  }

  /** `aggregateParentSelection` of counts, grouped by the parents. */
  method CountUnderEach(store: RuntimeIndexStore, c: ContainerId, relation: ColumnId, parents: seq<Value>) returns (results: Results)
    requires store.Valid() && Related(store.schema, RelationKey(c, relation))
    ensures Right(results, Under(store.rows, relation, SetOf(parents)), c, Count, 0, Some(relation))
  {
    hide ContainersHold, ScalarsBetween, AggregatesBetween, OrderedsBetween, Spoils, AllClean, Shown, ParentEntries, Having, Under;
    var counts := CountsAt(store.parentCounts, RelationKey(c, relation));
    assert CountsOf(counts, ParentEntries(store.rows, c, relation));
    ShownGrouped(store.rows, c, Count, 0, relation);
    results := map[];
    for i := 0 to |parents|
      invariant forall g :: g in results <==> g.Some? && g.value in parents[..i] && g.value in counts
      invariant forall g :: g in results ==> results[g] == Counted(counts[g.value])
    {
      if parents[i] in counts {
        results := results[Some(parents[i]) := Counted(counts[parents[i]])];
      }
    }
    assert parents[..|parents|] == parents;
    forall g
      ensures g in results <==> Shown(Under(store.rows, relation, SetOf(parents)), c, Count, 0, Some(relation), g) != map[]
      ensures g in results ==> Means(Count, Shown(Under(store.rows, relation, SetOf(parents)), c, Count, 0, Some(relation), g), results[g])
    {
      UnderEach(store.rows, c, Count, 0, relation, SetOf(parents), g);
      var e := Shown(store.rows, c, Count, 0, Some(relation), g);
      if g.Some? {
        var v := g.value;
        assert Held(counts, v) == if Having(ParentEntries(store.rows, c, relation), v) == {} then None else Some(|Having(ParentEntries(store.rows, c, relation), v)|);
        assert |e| == |e.Keys|;
        assert e == map[] <==> e.Keys == {};
      }
    }
  }

  /** Of some parents' rows, each group is whole or not there. */
  lemma UnderEach(rows: Rows, c: ContainerId, kind: Kind, k: ColumnId, relation: ColumnId, parents: set<Value>, g: Option<Value>)
    ensures Shown(Under(rows, relation, parents), c, kind, k, Some(relation), g)
         == if g.Some? && g.value in parents then Shown(rows, c, kind, k, Some(relation), g) else map[]
  {
    hide Weight, CellAt;
  }

  /** `aggregateParentSelection` of sums and extremes, grouped by the parents. */
  method AggregateUnderEach(store: RuntimeIndexStore, c: ContainerId, kind: Kind, k: ColumnId, relation: ColumnId, parents: seq<Value>)
    returns (results: Results)
    requires store.Valid() && !kind.Count? && Hinted(store.schema, c, kind, k) && Related(store.schema, RelationKey(c, relation))
    requires OptionsOf(store.schema, c, k).byParent && Summable(store, c, kind, k)
    ensures Right(results, Under(store.rows, relation, SetOf(parents)), c, kind, k, Some(relation))
  {
    hide ContainersHold, ScalarsBetween, CountsBetween, OrderedsBetween, AggregatesBetween, AllClean, BucketFits, Shown, Means, Under, Spoils;
    GroupFacts(store, c, kind, k, relation);
    var a := Held(store.aggregateColumns, AggregateKey(c, k));
    ghost var options := OptionsOf(store.schema, c, k);
    var groups := GroupsOf(a);
    results := map[];
    for i := 0 to |parents|
      invariant forall g :: g in results <==> g.Some? && g.value in parents[..i] && Group(relation, g.value) in groups
      invariant forall g :: g in results ==> Means(kind, Shown(store.rows, c, kind, k, Some(relation), g), results[g])
    {
      var g := Group(relation, parents[i]);
      if g in groups {
        ghost var e := Shown(store.rows, c, kind, k, Some(relation), Some(parents[i]));
        Fitting(Held(groups, g), options, e);
        var n := BucketValue(groups[g], kind, options, e, TagAt(store.schema, AggregateKey(c, k)));
        results := results[Some(parents[i]) := n];
      }
    }
    assert parents[..|parents|] == parents;
    forall g
      ensures g in results <==> Shown(Under(store.rows, relation, SetOf(parents)), c, kind, k, Some(relation), g) != map[]
      ensures g in results ==> Means(kind, Shown(Under(store.rows, relation, SetOf(parents)), c, kind, k, Some(relation), g), results[g])
    {
      UnderEach(store.rows, c, kind, k, relation, SetOf(parents), g);
      if g.Some? {
        Fitting(Held(groups, Group(relation, g.value)), options, Shown(store.rows, c, kind, k, Some(relation), g));
      }
    }
  }

  /** `aggregateParentSelection` of sums and extremes, without a grouping: the buckets of
      the parents merged. Nothing when they hold nothing. */
  method AggregateUnder(store: RuntimeIndexStore, c: ContainerId, kind: Kind, k: ColumnId, relation: ColumnId, parents: seq<Value>)
    returns (r: Option<Outcome>)
    requires store.Valid() && !kind.Count? && Hinted(store.schema, c, kind, k) && Related(store.schema, RelationKey(c, relation))
    requires OptionsOf(store.schema, c, k).byParent && Distinct(parents) && Summable(store, c, kind, k)
    ensures var e := Shown(Under(store.rows, relation, SetOf(parents)), c, kind, k, None, None);
            (r.None? <==> e == map[]) && (r.Some? ==> Means(kind, e, r.value))
  {
    hide ContainersHold, ScalarsBetween, CountsBetween, OrderedsBetween, AggregatesBetween, AllClean, BucketFits, Shown, Means, Under, Tells, Merged, Spoils, Clean;
    GroupFacts(store, c, kind, k, relation);
    var a := Held(store.aggregateColumns, AggregateKey(c, k));
    var options := OptionsOf(store.schema, c, k);
    ghost var tag := TagAt(store.schema, AggregateKey(c, k));
    var groups := GroupsOf(a);
    var merged := EMPTY_BUCKET;
    NothingTold(options);
    UnderNone(store.rows, c, kind, k, relation);
    NoParents(parents);
    for i := 0 to |parents|
      invariant Tells(merged, options, Shown(Under(store.rows, relation, SetOf(parents[..i])), c, kind, k, None, None))
      invariant kind.Sum? ==> Clean(merged, options, tag)
    {
      var v := parents[i];
      OneMoreParent(parents, i);
      UnderOneMore(store.rows, c, kind, k, relation, SetOf(parents[..i]), v);
      ghost var e, f := Shown(Under(store.rows, relation, SetOf(parents[..i])), c, kind, k, None, None), Shown(store.rows, c, kind, k, Some(relation), Some(v));
      BothSizes(e, f);
      Fitting(Held(groups, Group(relation, v)), options, f);
      if Group(relation, v) in groups {
        MergedTells(merged, groups[Group(relation, v)], options, e, f);
        merged := Merged(merged, groups[Group(relation, v)], options);
      }
    }
    assert parents[..|parents|] == parents;
    ghost var all := Shown(Under(store.rows, relation, SetOf(parents)), c, kind, k, None, None);
    CountTold(merged, options, all);
    if merged.count == 0 {
      return None;
    }
    var n := BucketValue(merged, kind, options, all, tag);
    r := Some(n);
  }

  lemma CountTold(b: Bucket, options: Options, e: map<ItemId, Value>)
    requires Tells(b, options, e)
    ensures b.count == 0 <==> e == map[]
  {
  }

  // ----- Integers, and nulls -----

  /** On a column that holds nothing but integers of one type the fold always agrees. */
  lemma IntegersFoldRight(items: seq<(ItemId, Row)>, kind: Kind, k: ColumnId, groupBy: Option<ColumnId>, tag: byte)
    requires forall i :: 0 <= i < |items| ==> Whole(CellAt(items[i].1, k), tag)
    ensures EachFoldsRight(items, kind, k, groupBy)
  {
    hide Whole;
    if kind.Sum? || kind.Minimum? {
      forall group
        ensures FoldsRight(kind, InGroup(items, kind, k, groupBy, group))
      {
        InGroupWhole(items, kind, k, groupBy, group, tag);
        NullIsNotWhole(tag);
        assert AllWhole(InGroup(items, kind, k, groupBy, group), tag);
      }
    }
  }

  lemma NullIsNotWhole(tag: byte)
    ensures !Whole(Null, tag)
  {
  }

  lemma {:induction false} InGroupWhole(items: seq<(ItemId, Row)>, kind: Kind, k: ColumnId, groupBy: Option<ColumnId>, group: Option<Value>, tag: byte)
    requires !kind.Count? && forall i :: 0 <= i < |items| ==> Whole(CellAt(items[i].1, k), tag)
    ensures forall v :: v in InGroup(items, kind, k, groupBy, group) ==> Whole(v, tag)
    decreases |items|
  {
    hide Whole, CellAt;
    if items != [] {
      InGroupWhole(items[..|items| - 1], kind, k, groupBy, group, tag);
    }
  }

  const NULLABLE: ColumnInfo := ColumnInfo(2, true, None, false, Some(Options(false, true, false)))

  const Nullables: IndexSchema := map[0 := ContainerInfo(map[3 := NULLABLE], false, {}, [], [])]

  /** With a null before an integer, the indexed minimum is null and the folded one is not. */
  method NullMinimaDiffer() returns (indexed: Option<Outcome>, folded: Results)
    ensures indexed == Some(Picked(Null)) && folded == map[None := Picked(Int64(5))]
  {
    hide RuntimeIndexStore.Valid, FoldOf, Means, Shown;
    var first, second := Row(0, None, map[]), Row(0, None, map[3 := Int64(5)]);
    var store := new RuntimeIndexStore(Nullables, e => 0);
    store.AddItem(1, first);
    store.AddItem(2, second);
    assert store.rows == map[1 := first, 2 := second];
    assert Nullables[0].columns[3] == NULLABLE;
    indexed := AggregateAll(store, 0, Minimum, 3);
    NullIsIndexed(store.rows, first, second);
    assert 1 in InContainer(store.rows, 0);
    ghost var results: Results := map[None := indexed.value];
    assert None in results;
    folded := Fold([(1, first), (2, second)], Minimum, 3, None);
    NullIsFolded(folded, first, second);
  }

  lemma NullIsIndexed(rows: Rows, first: Row, second: Row)
    requires first == Row(0, None, map[]) && second == Row(0, None, map[3 := Int64(5)]) && rows == map[1 := first, 2 := second]
    ensures forall o :: Means(Minimum, Shown(rows, 0, Minimum, 3, None, None), o) ==> o == Picked(Null)
  {
    hide Less;
    NullIsLeast();
    var e := Shown(rows, 0, Minimum, 3, None, None);
    assert 1 in rows && rows[1] == first;
    assert e[1] == Null;
    forall o | Means(Minimum, e, o)
      ensures o == Picked(Null)
    {
      assert !Less(e[1], o.v);
    }
  }

  lemma NoGroup()
    ensures forall group :: InGroup([], Minimum, 3, None, group) == []
  {
  }

  lemma NullIsFolded(folded: Results, first: Row, second: Row)
    requires first == Row(0, None, map[]) && second == Row(0, None, map[3 := Int64(5)])
    requires FoldOf(folded, [(1, first), (2, second)], Minimum, 3, None)
    ensures folded == map[None := Picked(Int64(5))]
  {
    hide InGroup, Folded;
    var a, b := (1, first), (2, second);
    assert [a, b] == [] + [a] + [b];
    NoGroup();
    forall group
      ensures InGroup([a, b], Minimum, 3, None, group) == if group == None then [Null, Int64(5)] else []
    {
      InGroupNext([], a, Minimum, 3, None, group);
      InGroupNext([] + [a], b, Minimum, 3, None, group);
    }
    NothingFolded(Minimum);
    OneMoreFolded(Minimum, [], Null);
    OneMoreFolded(Minimum, [Null], Int64(5));
    assert [] + [Null] == [Null] && [Null] + [Int64(5)] == [Null, Int64(5)];
    forall group
      ensures group in folded <==> group == None
    {
      assert InGroup([a, b], Minimum, 3, None, group) == if group == None then [Null, Int64(5)] else [];
    }
    assert folded[None] == Picked(Int64(5));
  }
}
