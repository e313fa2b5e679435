/** The planner over a whole batch: inserts for many groups at once, against passes of
    positional insertion over the mixed batch. */
module GroupPlanner {
  import opened Wrappers
  import opened Sequences
  import opened ListInserts
  import ListPlanner

  /** A list group: the list container and the item its members hang on. */
  datatype GroupKey = GroupKey(container: nat, owner: ItemId)

  type Groups = map<GroupKey, seq<ItemId>>

  /** A group's list. A group that is missing is an empty one. */
  function At(groups: Groups, key: GroupKey): seq<ItemId> {
    if key in groups then groups[key] else []
  }

  /** One row of a batch. Rows outside every list group have no key. */
  datatype Row = Row(key: Option<GroupKey>, insert: Insert)

  predicate RowFits(groups: Groups, row: Row) {
    row.key.Some? ==> Fits(At(groups, row.key.value), row.insert)
  }

  /** Positional insertion of one row. */
  function PlaceRow(groups: Groups, row: Row): Groups
    requires RowFits(groups, row)
  {
    if row.key.None? then groups
    else groups[row.key.value := Place(At(groups, row.key.value), row.insert)]
  }

  /** One pass over the batch in order, with deferral. */
  function PassRows(groups: Groups, waiting: seq<Row>): (r: (Groups, seq<Row>))
    ensures |r.1| <= |waiting|
    decreases |waiting|
  {
    if waiting == [] then (groups, [])
    else if RowFits(groups, waiting[0]) then PassRows(PlaceRow(groups, waiting[0]), waiting[1..])
    else
      var (g, rest) := PassRows(groups, waiting[1..]);
      (g, [waiting[0]] + rest)
  }

  /** Passes repeated until one of them places nothing (src/engine.cpp:1796-1812). */
  function SettleRows(groups: Groups, waiting: seq<Row>): (Groups, seq<Row>)
    decreases |waiting|
  {
    var (g, rest) := PassRows(groups, waiting);
    if |rest| == |waiting| then (g, rest) else SettleRows(g, rest)
  }

  /** The inserts a batch holds for one group, in order. */
  function InsertsFor(rows: seq<Row>, key: GroupKey): (r: seq<Insert>)
    ensures |r| <= |rows|
  {
    if rows == [] then []
    else (if rows[0].key == Some(key) then [rows[0].insert] else []) + InsertsFor(rows[1..], key)
  }

  lemma {:induction false} InsertsForEnd(rows: seq<Row>, row: Row, key: GroupKey)
    ensures InsertsFor(rows + [row], key) == InsertsFor(rows, key) + if row.key == Some(key) then [row.insert] else []
    decreases |rows|
  {
    if rows == [] {
      assert rows + [row] == [row];
    } else {
      assert (rows + [row])[0] == rows[0] && (rows + [row])[1..] == rows[1..] + [row];
      InsertsForEnd(rows[1..], row, key);
    }
  }

  /** A pass over the mixed batch is, for each group, a pass over its own inserts. */
  lemma {:induction false} PassPerGroup(groups: Groups, waiting: seq<Row>, key: GroupKey)
    ensures var (g, rest) := PassRows(groups, waiting);
            (At(g, key), InsertsFor(rest, key)) == Pass(At(groups, key), InsertsFor(waiting, key))
    decreases |waiting|
  {
    if waiting != [] {
      var row, mine := waiting[0], InsertsFor(waiting, key);
      if row.key == Some(key) {
        assert mine[0] == row.insert && mine[1..] == InsertsFor(waiting[1..], key);
      } else {
        assert mine == InsertsFor(waiting[1..], key);
      }
      if RowFits(groups, row) {
        PassPerGroup(PlaceRow(groups, row), waiting[1..], key);
        assert row.key == Some(key) ==> At(PlaceRow(groups, row), key) == Place(At(groups, key), mine[0]);
        assert row.key != Some(key) ==> At(PlaceRow(groups, row), key) == At(groups, key);
      } else {
        PassPerGroup(groups, waiting[1..], key);
        var (g, rest) := PassRows(groups, waiting[1..]);
        assert ([row] + rest)[0] == row && ([row] + rest)[1..] == rest;
        if row.key != Some(key) {
          assert InsertsFor([row] + rest, key) == InsertsFor(rest, key);
        }
      }
    }
  }

  lemma {:induction false} PassRowsWithoutProgress(groups: Groups, waiting: seq<Row>)
    requires |PassRows(groups, waiting).1| == |waiting|
    ensures PassRows(groups, waiting) == (groups, waiting)
    decreases |waiting|
  {
    if waiting != [] && !RowFits(groups, waiting[0]) {
      PassRowsWithoutProgress(groups, waiting[1..]);
      assert waiting == [waiting[0]] + waiting[1..];
    }
  }

  /** What the passes over the mixed batch come to is, for each group, what passes over
      its own inserts come to. */
  lemma {:induction false} SettlePerGroup(groups: Groups, waiting: seq<Row>, key: GroupKey)
    ensures var (g, rest) := SettleRows(groups, waiting);
            (At(g, key), InsertsFor(rest, key)) == Settle(At(groups, key), InsertsFor(waiting, key))
    decreases |waiting|
  {
    var (g, rest) := PassRows(groups, waiting);
    PassPerGroup(groups, waiting, key);
    if |rest| == |waiting| {
      PassRowsWithoutProgress(groups, waiting);
    } else {
      SettlePerGroup(g, rest, key);
      SettleAfterPass(At(groups, key), InsertsFor(waiting, key));
    }
  }

  /** Rows left over belong to groups. */
  lemma {:induction false} LeftRowsHaveKeys(groups: Groups, waiting: seq<Row>)
    ensures forall row :: row in SettleRows(groups, waiting).1 ==> row.key.Some? && row in waiting
    decreases |waiting|
  {
    var (g, rest) := PassRows(groups, waiting);
    PassLeavesKeys(groups, waiting);
    if |rest| < |waiting| {
      LeftRowsHaveKeys(g, rest);
    }
  }

  lemma {:induction false} PassLeavesKeys(groups: Groups, waiting: seq<Row>)
    ensures forall row :: row in PassRows(groups, waiting).1 ==> row.key.Some? && row in waiting
    decreases |waiting|
  {
    if waiting != [] {
      if RowFits(groups, waiting[0]) {
        PassLeavesKeys(PlaceRow(groups, waiting[0]), waiting[1..]);
      } else {
        PassLeavesKeys(groups, waiting[1..]);
      }
    }
  }

  lemma {:induction false} RowIsAmongInserts(rows: seq<Row>, row: Row, key: GroupKey)
    requires row in rows && row.key == Some(key)
    ensures InsertsFor(rows, key) != []
  {
    if rows[0] != row {
      RowIsAmongInserts(rows[1..], row, key);
    }
  }

  /** The passes place a whole batch exactly when they place every group's inserts. */
  lemma SettledPerGroup(groups: Groups, waiting: seq<Row>)
    ensures SettleRows(groups, waiting).1 == [] <==>
            forall key: GroupKey :: Settle(At(groups, key), InsertsFor(waiting, key)).1 == []
  {
    var rest := SettleRows(groups, waiting).1;
    LeftRowsHaveKeys(groups, waiting);
    forall key: GroupKey
      ensures InsertsFor(rest, key) == Settle(At(groups, key), InsertsFor(waiting, key)).1
    {
      SettlePerGroup(groups, waiting, key);
    }
    if rest != [] {
      assert rest[0] in rest;
      RowIsAmongInserts(rest, rest[0], rest[0].key.value);
      assert Settle(At(groups, rest[0].key.value), InsertsFor(waiting, rest[0].key.value)).1 != [];
    }
  }

  /** The inserts of a batch, sorted by group. */
  method SortByGroup(rows: seq<Row>) returns (byGroup: map<GroupKey, seq<Insert>>)
    ensures forall key: GroupKey :: InsertsFor(rows, key) == if key in byGroup then byGroup[key] else []
  {
    byGroup := map[];
    for i := 0 to |rows|
      invariant forall key: GroupKey :: InsertsFor(rows[..i], key) == if key in byGroup then byGroup[key] else []
    {
      forall key: GroupKey
        ensures InsertsFor(rows[..i + 1], key)
             == InsertsFor(rows[..i], key) + if rows[i].key == Some(key) then [rows[i].insert] else []
      {
        assert rows[..i + 1] == rows[..i] + [rows[i]];
        InsertsForEnd(rows[..i], rows[i], key);
      }
      if rows[i].key.Some? {
        var key := rows[i].key.value;
        byGroup := byGroup[key := (if key in byGroup then byGroup[key] else []) + [rows[i].insert]];
      }
    }
    assert rows[..|rows|] == rows;
  }

  /** `planInsertedListGroups`: the plans, put over the groups, are what the passes over
      the mixed batch come to; there are none exactly when those passes get stuck. */
  method PlanBatch(groups: Groups, rows: seq<Row>) returns (ok: bool, plans: Groups)
    ensures ok <==> SettleRows(groups, rows).1 == []
    ensures ok ==> forall key: GroupKey :: At(groups + plans, key) == At(SettleRows(groups, rows).0, key)
  {
    hide Settle, InsertsFor, SettleRows;
    var byGroup := SortByGroup(rows);
    plans := map[];
    var keys := byGroup.Keys;
    SettledPerGroup(groups, rows);
    while keys != {}
      invariant plans.Keys == byGroup.Keys - keys && keys <= byGroup.Keys
      invariant forall key: GroupKey :: key in plans ==> Settle(At(groups, key), InsertsFor(rows, key)) == (plans[key], [])
      decreases keys
    {
      var key :| key in keys;
      var planned, list := ListPlanner.PlanGroup(At(groups, key), byGroup[key]);
      assert InsertsFor(rows, key) == byGroup[key];
      if !planned {
        return false, plans;
      }
      plans := plans[key := list];
      keys := keys - {key};
    }
    forall key: GroupKey
      ensures Settle(At(groups, key), InsertsFor(rows, key)) == (At(groups + plans, key), [])
    {
      if key !in byGroup {
        assert InsertsFor(rows, key) == [];
        SettleNothing(At(groups, key));
      }
    }
    forall key: GroupKey
      ensures At(groups + plans, key) == At(SettleRows(groups, rows).0, key)
    {
      SettlePerGroup(groups, rows, key);
    }
    ok := true;
  }
}
