/** Filters that only choose parents, and counts and aggregates of what they match straight
    from the parent indexes (src/engine.cpp:2163-2236, 2946-2992). */
module ParentSelection {
  import opened Wrappers
  import opened Sequences
  import opened Values
  import opened IndexStores
  import opened Aggregations
  import opened Queries
  import opened QueryExecution

  datatype Selection = Selection(relation: ColumnId, values: seq<Value>)

  /** The expression is one choice of a parent, or several of the same relation. */
  predicate Chooses(e: Expr, relation: ColumnId)
    decreases e
  {
    match e
    case Leaf(f) => f.ref == ParentRef(relation) && f.op == EqualTo
    case Any(children) => children != [] && forall i :: 0 <= i < |children| ==> Chooses(children[i], relation)
    case _ => false
  }

  /** The expression matches exactly the items below one of the chosen parents. */
  ghost predicate Picks(schema: IndexSchema, c: ContainerId, e: Expr, s: Selection) {
    Distinct(s.values) && forall id, row :: Matches(schema, c, id, row, e) <==> CellAt(row, s.relation) in s.values
  }

  lemma EqualIsSame(a: Value, b: Value)
    ensures Compare(a, b) == 0 <==> a == b
  {
    CompareTotal(a, b);
  }

  /** `appendUniqueValue`. */
  method AppendUnique(values: seq<Value>, v: Value) returns (r: seq<Value>)
    requires Distinct(values)
    ensures Distinct(r) && SetOf(r) == SetOf(values) + {v} && values <= r
  {
    for i := 0 to |values|
      invariant v !in values[..i]
    {
      EqualIsSame(values[i], v);
      if Compare(values[i], v) == 0 {
        return values;
      }
    }
    r := values + [v];
  }

  method AppendAll(values: seq<Value>, more: seq<Value>) returns (r: seq<Value>)
    requires Distinct(values)
    ensures Distinct(r) && forall v :: v in r <==> v in values || v in more
  {
    r := values;
    for i := 0 to |more|
      invariant Distinct(r) && forall v :: v in r <==> v in values || v in more[..i]
    {
      var was := r;
      r := AppendUnique(r, more[i]);
      assert forall v :: v in r <==> v in SetOf(was) + {more[i]};
    }
  }

  /** `parentSelectionForExpression`: finds the choice exactly when the expression is one. */
  method SelectionFor(schema: IndexSchema, c: ContainerId, e: Expr) returns (r: Option<Selection>)
    ensures r.Some? ==> Chooses(e, r.value.relation) && Picks(schema, c, e, r.value)
    ensures r.None? ==> forall relation :: !Chooses(e, relation)
    decreases e
  {
    match e
    case Leaf(f) =>
      if f.ref.ParentRef? && f.op.EqualTo? {
        var s := Selection(f.ref.column, [f.value]);
        ChoosesOne(schema, c, f);
        return Some(s);
      }
      r := None;
    case Any(children) => r := SelectionForAny(schema, c, children, e);
    case _ => r := None;
  }

  lemma ChoosesOne(schema: IndexSchema, c: ContainerId, f: Filter)
    requires f.ref.ParentRef? && f.op.EqualTo?
    ensures Picks(schema, c, Leaf(f), Selection(f.ref.column, [f.value]))
  {
    forall id, row
      ensures Matches(schema, c, id, row, Leaf(f)) <==> CellAt(row, f.ref.column) in [f.value]
    {
      EqualIsSame(CellAt(row, f.ref.column), f.value);
    }
  }

  method SelectionForAny(schema: IndexSchema, c: ContainerId, children: seq<Expr>, ghost e: Expr) returns (r: Option<Selection>)
    requires e == Any(children)
    ensures r.Some? ==> Chooses(e, r.value.relation) && Picks(schema, c, e, r.value)
    ensures r.None? ==> forall relation :: !Chooses(e, relation)
    decreases e, 0
  {
    hide Picks;
    var accumulated: Option<Selection> := None;
    for i := 0 to |children|
      invariant accumulated.None? <==> i == 0
      invariant i > 0 ==> Picks(schema, c, Any(children[..i]), accumulated.value)
      invariant i > 0 ==> forall j :: 0 <= j < i ==> Chooses(children[j], accumulated.value.relation)
    {
      var child := SelectionFor(schema, c, children[i]);
      if child.None? {
        assert forall relation :: !Chooses(children[i], relation);
        return None;
      }
      if i == 0 {
        FirstPicks(schema, c, children[0], child.value);
        assert children[..1] == [children[0]];
        accumulated := child;
      } else if accumulated.value.relation != child.value.relation {
        OneRelation(children[0], accumulated.value.relation);
        OneRelation(children[i], child.value.relation);
        return None;
      } else {
        MorePick(schema, c, children[..i], accumulated.value, children[i], child.value);
        assert children[..i] + [children[i]] == children[..i + 1];
        PicksDistinct(schema, c, Any(children[..i]), accumulated.value);
        var values := AppendAll(accumulated.value.values, child.value.values);
        accumulated := Some(accumulated.value.(values := values));
      }
    }
    assert children[..|children|] == children;
    r := accumulated;
  }

  lemma PicksDistinct(schema: IndexSchema, c: ContainerId, e: Expr, s: Selection)
    requires Picks(schema, c, e, s)
    ensures Distinct(s.values)
  {
  }

  /** A choice is of one relation only. */
  lemma {:induction false} OneRelation(e: Expr, relation: ColumnId)
    requires Chooses(e, relation)
    ensures forall other :: Chooses(e, other) ==> other == relation
    decreases e
  {
    if e.Any? {
      OneRelation(e.children[0], relation);
    }
  }

  lemma FirstPicks(schema: IndexSchema, c: ContainerId, child: Expr, s: Selection)
    requires Picks(schema, c, child, s)
    ensures Picks(schema, c, Any([child]), s)
  {
    forall id, row
      ensures Matches(schema, c, id, row, Any([child])) <==> Matches(schema, c, id, row, child)
    {
      assert [child][0] == child;
    }
  }

  /** One more alternative. */
  lemma MorePick(schema: IndexSchema, c: ContainerId, front: seq<Expr>, s: Selection, child: Expr, t: Selection)
    requires Picks(schema, c, Any(front), s) && Picks(schema, c, child, t) && s.relation == t.relation
    ensures forall values :: Distinct(values) && (forall v :: v in values <==> v in s.values || v in t.values) ==>
              Picks(schema, c, Any(front + [child]), s.(values := values))
  {
    forall id, row
      ensures Matches(schema, c, id, row, Any(front + [child])) <==> Matches(schema, c, id, row, Any(front)) || Matches(schema, c, id, row, child)
    {
      MatchesMore(schema, c, id, row, front, child);
    }
  }

  lemma MatchesMore(schema: IndexSchema, c: ContainerId, id: ItemId, row: Row, front: seq<Expr>, child: Expr)
    ensures Matches(schema, c, id, row, Any(front + [child])) <==> Matches(schema, c, id, row, Any(front)) || Matches(schema, c, id, row, child)
  {
    var all := front + [child];
    if Matches(schema, c, id, row, Any(front)) {
      var i :| 0 <= i < |front| && Matches(schema, c, id, row, front[i]);
      assert all[i] == front[i];
    }
    if Matches(schema, c, id, row, child) {
      assert all[|front|] == child;
    }
    if Matches(schema, c, id, row, Any(all)) {
      var i :| 0 <= i < |all| && Matches(schema, c, id, row, all[i]);
      assert i < |front| ==> front[i] == all[i];
    }
  }

  // ----- Answers from the selection -----

  /** What the matching items of a container count for. */
  function Weights(schema: IndexSchema, c: ContainerId, rows: Rows, e: Expr, kind: Kind, k: ColumnId): (r: map<ItemId, Value>)
    ensures r.Keys == Matching(schema, c, rows, e)
  {
    map id | id in Matching(schema, c, rows, e) :: Weight(kind, rows[id], k)
  }

  /** The rows below the chosen parents are the matching ones. */
  lemma SelectedIsMatching(schema: IndexSchema, c: ContainerId, rows: Rows, e: Expr, s: Selection, kind: Kind, k: ColumnId)
    requires Picks(schema, c, e, s)
    ensures Shown(Under(rows, s.relation, SetOf(s.values)), c, kind, k, None, None)
         == Weights(schema, c, rows, e, kind, k)
  {
    hide Weight, CellAt, Matches;
  }

  /** The counter of a view that chooses parents: as many as a query would emit. */
  method CountSelected(store: RuntimeIndexStore, c: ContainerId, e: Expr, s: Selection, offset: nat, limit: Option<nat>) returns (total: nat)
    requires store.Valid() && Related(store.schema, RelationKey(c, s.relation)) && Picks(store.schema, c, e, s)
    ensures total == |Slice(Ascending(Matching(store.schema, c, store.rows, e)), offset, limit)|
    ensures var n := |Matching(store.schema, c, store.rows, e)|;
            total == if n <= offset then 0 else if limit.Some? && limit.value < n - offset then limit.value else n - offset
  {
    hide Picks, Shown, Under, Weights, Matching, Slice, Related;
    PicksDistinct(store.schema, c, e, s);
    var all := CountUnder(store, c, s.relation, s.values);
    SelectedIsMatching(store.schema, c, store.rows, e, s, Count, 0);
    ghost var matching := Matching(store.schema, c, store.rows, e);
    ghost var counted := Weights(store.schema, c, store.rows, e, Count, 0);
    assert |counted| == |counted.Keys|;
    AscendingAscends(matching);
    SliceSize(Ascending(matching), offset, limit);
    total := CountWithOffsetLimit(all, offset, limit);
  }

  /** Its aggregator: what the fold over the matching rows comes to. */
  method AggregateSelected(store: RuntimeIndexStore, c: ContainerId, e: Expr, s: Selection, kind: Kind, k: ColumnId) returns (r: Option<Outcome>)
    requires store.Valid() && !kind.Count? && Hinted(store.schema, c, kind, k) && Related(store.schema, RelationKey(c, s.relation))
    requires OptionsOf(store.schema, c, k).byParent && Summable(store, c, kind, k) && Picks(store.schema, c, e, s)
    ensures var weights := Weights(store.schema, c, store.rows, e, kind, k);
            (r.None? <==> weights == map[]) && (r.Some? ==> Means(kind, weights, r.value))
  {
    hide Picks, Shown, Under, Weights, Matching, Related, Means;
    PicksDistinct(store.schema, c, e, s);
    r := AggregateUnder(store, c, kind, k, s.relation, s.values);
    SelectedIsMatching(store.schema, c, store.rows, e, s, kind, k);
  }

  /** The matching rows of a container. */
  function MatchingRows(schema: IndexSchema, c: ContainerId, rows: Rows, e: Expr): Rows {
    map id | id in Matching(schema, c, rows, e) :: rows[id]
  }

  lemma SelectedGroups(schema: IndexSchema, c: ContainerId, rows: Rows, e: Expr, s: Selection, kind: Kind, k: ColumnId)
    requires Picks(schema, c, e, s)
    ensures forall group :: Shown(Under(rows, s.relation, SetOf(s.values)), c, kind, k, Some(s.relation), group)
                         == Shown(MatchingRows(schema, c, rows, e), c, kind, k, Some(s.relation), group)
  {
    hide Weight, CellAt, Matches;
  }

  /** Its aggregator grouped by the same relation: the groups of the matching rows. */
  method AggregateSelectedEach(store: RuntimeIndexStore, c: ContainerId, e: Expr, s: Selection, kind: Kind, k: ColumnId) returns (results: Results)
    requires store.Valid() && Related(store.schema, RelationKey(c, s.relation)) && Picks(store.schema, c, e, s)
    requires !kind.Count? ==> Hinted(store.schema, c, kind, k) && OptionsOf(store.schema, c, k).byParent && Summable(store, c, kind, k)
    ensures Right(results, MatchingRows(store.schema, c, store.rows, e), c, kind, if kind.Count? then 0 else k, Some(s.relation))
  {
    hide Picks, Shown, Under, MatchingRows, Related, Means;
    SelectedGroups(store.schema, c, store.rows, e, s, kind, if kind.Count? then 0 else k);
    if kind.Count? {
      results := CountUnderEach(store, c, s.relation, s.values);
    } else {
      results := AggregateUnderEach(store, c, kind, k, s.relation, s.values);
    }
  }
}
