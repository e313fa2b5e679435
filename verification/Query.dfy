/** Filter expressions: what they match, negation pushed inward, and the candidates that
    the indexes give for them (src/engine.cpp:1879-1909, 2074-2111, 2238-2566). */
module Queries {
  import opened Wrappers
  import opened Sequences
  import opened Values
  import opened IndexStores
  import K = KdTrees
  import V = IntervalIndexes

  type ItemId = nat

  datatype Ref = IdRef | VariantRef | ColumnRef(column: ColumnId) | ParentRef(column: ColumnId)

  datatype Filter = Filter(ref: Ref, op: Operator, value: Value)

  datatype Expr =
    | Everything
    | Leaf(filter: Filter)
    | All(children: seq<Expr>)
    | Any(children: seq<Expr>)
    | Not(child: Expr)

  /** The filter's field applies to the item and compares as asked. */
  predicate LeafMatches(schema: IndexSchema, c: ContainerId, id: ItemId, row: Row, f: Filter) {
    match f.ref
    case IdRef => Satisfies(IdValue(id), f.op, f.value)
    case VariantRef => Satisfies(VariantValue(row), f.op, f.value)
    case ColumnRef(k) =>
      (c in schema && k in schema[c].columns ==> Applies(schema[c].columns[k], row)) && Satisfies(CellAt(row, k), f.op, f.value)
    case ParentRef(k) => Satisfies(CellAt(row, k), f.op, f.value)
  }

  /** A filter asks the id, the variant's number, or a cell, which a column of a variant has on
      that variant's items only; a cell that is not there is null. */
  lemma LeafMeans(schema: IndexSchema, c: ContainerId, id: ItemId, row: Row, k: ColumnId, op: Operator, v: Value)
    requires id < 0x1_0000_0000_0000_0000
    ensures LeafMatches(schema, c, id, row, Filter(IdRef, op, v)) <==> Satisfies(UInt64(id), op, v)
    ensures LeafMatches(schema, c, id, row, Filter(VariantRef, op, v))
       <==> Satisfies(if row.variant.Some? then UInt64(row.variant.value) else Null, op, v)
    ensures LeafMatches(schema, c, id, row, Filter(ParentRef(k), op, v)) <==> Satisfies(if k in row.cells then row.cells[k] else Null, op, v)
    ensures LeafMatches(schema, c, id, row, Filter(ColumnRef(k), op, v))
       <==> && Satisfies(if k in row.cells then row.cells[k] else Null, op, v)
            && (c in schema && k in schema[c].columns && schema[c].columns[k].variant.Some? ==> row.variant == schema[c].columns[k].variant)
    ensures forall n: uint64 :: LeafMatches(schema, c, id, row, Filter(IdRef, EqualTo, UInt64(n))) <==> id == n
  {
    hide Satisfies;
    forall n: uint64
      ensures LeafMatches(schema, c, id, row, Filter(IdRef, EqualTo, UInt64(n))) <==> id == n
    {
      OperatorsMean(UInt64(id), UInt64(n), 0, 0);
    }
  }

  /** `matchesExpression`. */
  predicate Matches(schema: IndexSchema, c: ContainerId, id: ItemId, row: Row, e: Expr)
    decreases e
  {
    match e
    case Everything => true
    case Leaf(f) => LeafMatches(schema, c, id, row, f)
    case All(children) => forall i :: 0 <= i < |children| ==> Matches(schema, c, id, row, children[i])
    case Any(children) => exists i :: 0 <= i < |children| && Matches(schema, c, id, row, children[i])
    case Not(child) => !Matches(schema, c, id, row, child)
  }

  // ----- Negation pushed inward -----

  /** `reverseComparisonOperator`. */
  function Reverse(op: Operator): Operator {
    match op
    case EqualTo => NotEqualTo
    case NotEqualTo => EqualTo
    case GreaterThan => AtMost
    case LessThan => AtLeast
    case AtLeast => LessThan
    case AtMost => GreaterThan
  }

  /** `fieldAlwaysApplies`. */
  predicate AlwaysApplies(schema: IndexSchema, c: ContainerId, ref: Ref) {
    match ref
    case ColumnRef(k) => c in schema && k in schema[c].columns && schema[c].columns[k].variant.None?
    case _ => true
  }

  /** `normalizeNegation`. */
  function Normalize(schema: IndexSchema, c: ContainerId, e: Expr, negated: bool): Expr
    decreases e
  {
    match e
    case Everything => if negated then Not(Everything) else Everything
    case Leaf(f) =>
      if !negated then e
      else if !AlwaysApplies(schema, c, f.ref) then Not(e)
      else Leaf(Filter(f.ref, Reverse(f.op), f.value))
    case Not(child) => Normalize(schema, c, child, !negated)
    case All(children) =>
      var pushed := seq(|children|, i requires 0 <= i < |children| => Normalize(schema, c, children[i], negated));
      if negated then Any(pushed) else All(pushed)
    case Any(children) =>
      var pushed := seq(|children|, i requires 0 <= i < |children| => Normalize(schema, c, children[i], negated));
      if negated then All(pushed) else Any(pushed)
  }

  lemma LeafReversed(schema: IndexSchema, c: ContainerId, id: ItemId, row: Row, f: Filter)
    ensures AlwaysApplies(schema, c, f.ref) ==>
              LeafMatches(schema, c, id, row, Filter(f.ref, Reverse(f.op), f.value)) == !LeafMatches(schema, c, id, row, f)
  {
    hide Compare;
  }

  /** Normalising keeps what an expression matches, and negating it turns it round. */
  lemma {:induction false} NormalizeMatches(schema: IndexSchema, c: ContainerId, id: ItemId, row: Row, e: Expr, negated: bool)
    ensures Matches(schema, c, id, row, Normalize(schema, c, e, negated)) <==> (Matches(schema, c, id, row, e) != negated)
    decreases e
  {
    hide LeafMatches, Reverse;
    match e
    case Everything =>
    case Leaf(f) => LeafReversed(schema, c, id, row, f);
    case Not(child) => NormalizeMatches(schema, c, id, row, child, !negated);
    case All(children) =>
      NormalizeEach(schema, c, id, row, children, negated);
      PushedMatches(schema, c, id, row, children, Normalize(schema, c, e, negated).children, negated);
    case Any(children) =>
      NormalizeEach(schema, c, id, row, children, negated);
      PushedMatches(schema, c, id, row, children, Normalize(schema, c, e, negated).children, negated);
  }

  lemma {:induction false} NormalizeEach(schema: IndexSchema, c: ContainerId, id: ItemId, row: Row, children: seq<Expr>, negated: bool)
    ensures forall i :: 0 <= i < |children| ==>
              Matches(schema, c, id, row, Normalize(schema, c, children[i], negated)) == (Matches(schema, c, id, row, children[i]) != negated)
    decreases children
  {
    forall i | 0 <= i < |children|
      ensures Matches(schema, c, id, row, Normalize(schema, c, children[i], negated)) == (Matches(schema, c, id, row, children[i]) != negated)
    {
      NormalizeMatches(schema, c, id, row, children[i], negated);
    }
  }

  /** Negation turns "all" into "any", and the other way round. */
  lemma PushedMatches(schema: IndexSchema, c: ContainerId, id: ItemId, row: Row, children: seq<Expr>, pushed: seq<Expr>, negated: bool)
    requires |pushed| == |children|
    requires forall i :: 0 <= i < |children| ==> Matches(schema, c, id, row, pushed[i]) == (Matches(schema, c, id, row, children[i]) != negated)
    ensures Matches(schema, c, id, row, if negated then Any(pushed) else All(pushed)) == (Matches(schema, c, id, row, All(children)) != negated)
    ensures Matches(schema, c, id, row, if negated then All(pushed) else Any(pushed)) == (Matches(schema, c, id, row, Any(children)) != negated)
  {
  }

  /** Negations stand only before the empty expression and before filters of a column that
      does not apply to every item. */
  predicate Normal(schema: IndexSchema, c: ContainerId, e: Expr)
    decreases e
  {
    match e
    case Everything => true
    case Leaf(_) => true
    case Not(child) => child.Everything? || (child.Leaf? && !AlwaysApplies(schema, c, child.filter.ref))
    case All(children) => forall i :: 0 <= i < |children| ==> Normal(schema, c, children[i])
    case Any(children) => forall i :: 0 <= i < |children| ==> Normal(schema, c, children[i])
  }

  lemma {:induction false} NormalizeIsNormal(schema: IndexSchema, c: ContainerId, e: Expr, negated: bool)
    ensures Normal(schema, c, Normalize(schema, c, e, negated))
    decreases e
  {
    match e
    case Everything =>
    case Leaf(_) =>
    case Not(child) => NormalizeIsNormal(schema, c, child, !negated);
    case All(children) =>
      forall i | 0 <= i < |children|
        ensures Normal(schema, c, Normalize(schema, c, children[i], negated))
      {
        NormalizeIsNormal(schema, c, children[i], negated);
      }
    case Any(children) =>
      forall i | 0 <= i < |children|
        ensures Normal(schema, c, Normalize(schema, c, children[i], negated))
      {
        NormalizeIsNormal(schema, c, children[i], negated);
      }
  }

  // ----- What a conjunction says of single columns -----

  /** `columnIdForField`. */
  function ColumnOf(ref: Ref): Option<ColumnId> {
    match ref
    case ColumnRef(k) => Some(k)
    case ParentRef(k) => Some(k)
    case _ => None
  }

  /** `collectEqualityFilters`: nothing when two filters want different values. */
  function Equalities(e: Expr, found: map<ColumnId, Value>): Option<map<ColumnId, Value>>
    decreases e
  {
    match e
    case Leaf(f) =>
      if f.op != EqualTo || ColumnOf(f.ref).None? then Some(found)
      else
        var k := ColumnOf(f.ref).value;
        if k !in found then Some(found[k := f.value])
        else if Compare(found[k], f.value) == 0 then Some(found) else None
    case All(children) => EqualitiesOf(children, found)
    case _ => Some(found)
  }

  function EqualitiesOf(children: seq<Expr>, found: map<ColumnId, Value>): Option<map<ColumnId, Value>>
    decreases children
  {
    if children == [] then Some(found)
    else match Equalities(children[0], found)
      case None => None
      case Some(more) => EqualitiesOf(children[1..], more)
  }

  predicate HasCells(row: Row, cells: map<ColumnId, Value>) {
    forall k :: k in cells ==> CellAt(row, k) == cells[k]
  }

  lemma EqualMeansSame(a: Value, b: Value)
    ensures Satisfies(a, EqualTo, b) ==> a == b
    ensures Compare(a, b) == 0 ==> a == b
  {
    CompareTotal(a, b);
  }

  /** A match has the values that the equalities say. */
  lemma {:induction false} EqualitiesHold(schema: IndexSchema, c: ContainerId, id: ItemId, row: Row, e: Expr, found: map<ColumnId, Value>)
    requires Matches(schema, c, id, row, e) && HasCells(row, found) && Equalities(e, found).Some?
    ensures HasCells(row, Equalities(e, found).value)
    decreases e
  {
    match e
    case Leaf(f) =>
      if f.op == EqualTo && ColumnOf(f.ref).Some? {
        EqualMeansSame(CellAt(row, ColumnOf(f.ref).value), f.value);
      }
    case All(children) =>
      EqualitiesOfHold(schema, c, id, row, children, found);
    case _ =>
  }

  lemma {:induction false} EqualitiesOfHold(schema: IndexSchema, c: ContainerId, id: ItemId, row: Row, children: seq<Expr>, found: map<ColumnId, Value>)
    requires forall i :: 0 <= i < |children| ==> Matches(schema, c, id, row, children[i])
    requires HasCells(row, found) && EqualitiesOf(children, found).Some?
    ensures HasCells(row, EqualitiesOf(children, found).value)
    decreases children
  {
    hide HasCells;
    if children != [] {
      EqualitiesHold(schema, c, id, row, children[0], found);
      EqualitiesOfHold(schema, c, id, row, children[1..], Equalities(children[0], found).value);
    }
  }

  /** `groupKeyFromEqualities`. */
  function GroupKey(groupBy: seq<ColumnId>, cells: map<ColumnId, Value>): Option<seq<Value>> {
    if groupBy == [] then Some([])
    else if groupBy[0] !in cells || cells[groupBy[0]] == Null then None
    else match GroupKey(groupBy[1..], cells)
      case None => None
      case Some(rest) => Some([cells[groupBy[0]]] + rest)
  }

  lemma {:induction false} GroupKeyHolds(row: Row, groupBy: seq<ColumnId>, cells: map<ColumnId, Value>)
    requires HasCells(row, cells) && GroupKey(groupBy, cells).Some?
    ensures GroupKey(groupBy, cells).value == CellsAt(row, groupBy) && Null !in CellsAt(row, groupBy)
  {
    hide HasCells;
    if groupBy != [] {
      GroupKeyHolds(row, groupBy[1..], cells);
      CellKnown(row, groupBy[0], cells);
      assert CellsAt(row, groupBy) == [CellAt(row, groupBy[0])] + CellsAt(row, groupBy[1..]);
    }
  }

  lemma CellKnown(row: Row, k: ColumnId, cells: map<ColumnId, Value>)
    requires HasCells(row, cells) && k in cells
    ensures CellAt(row, k) == cells[k]
  {
  }

  /** The child is a filter that compares the column in this way. */
  predicate Bounds(child: Expr, column: ColumnId, op: Operator) {
    && child.Leaf? && child.filter.op == op
    && (child.filter.ref == ColumnRef(column) || child.filter.ref == ParentRef(column))
  }

  /** The last filter among the children that bounds a column in this way. */
  function LastBound(children: seq<Expr>, column: ColumnId, op: Operator): (r: Option<Value>)
    ensures match r
            case None => forall i :: 0 <= i < |children| ==> !Bounds(children[i], column, op)
            case Some(v) =>
              exists i :: 0 <= i < |children| && Bounds(children[i], column, op) && children[i].filter.value == v
                && forall j :: i < j < |children| ==> !Bounds(children[j], column, op)
  {
    if children == [] then None
    else
      var last := children[|children| - 1];
      if last.Leaf? && ColumnOf(last.filter.ref) == Some(column) && last.filter.op == op then Some(last.filter.value)
      else LastBound(children[..|children| - 1], column, op)
  }

  lemma {:induction false} LastBoundHolds(schema: IndexSchema, c: ContainerId, id: ItemId, row: Row, children: seq<Expr>, column: ColumnId, op: Operator)
    requires forall i :: 0 <= i < |children| ==> Matches(schema, c, id, row, children[i])
    requires LastBound(children, column, op).Some?
    ensures Satisfies(CellAt(row, column), op, LastBound(children, column, op).value)
  {
    hide Satisfies;
    var last := children[|children| - 1];
    assert Matches(schema, c, id, row, last);
    if !(last.Leaf? && ColumnOf(last.filter.ref) == Some(column) && last.filter.op == op) {
      LastBoundHolds(schema, c, id, row, children[..|children| - 1], column, op);
    }
  }

  // ----- The interval shortcut -----

  datatype Probe = Probe(group: seq<Value>, from: Value, to: Value)

  /** What a conjunction asks an interval index, if it asks it anything. */
  function ProbeOf(info: IntervalInfo, children: seq<Expr>): Option<Probe> {
    match EqualitiesOf(children, map[])
    case None => None
    case Some(cells) =>
      match GroupKey(info.groupBy, cells)
      case None => None
      case Some(group) =>
        var to, from := LastBound(children, info.start, LessThan), LastBound(children, info.end, GreaterThan);
        if from.Some? && to.Some? then Some(Probe(group, from.value, to.value)) else None
  }

  /** The row has an interval that begins before it ends. */
  predicate ValidInterval(row: Row, info: IntervalInfo) {
    CellAt(row, info.start) != Null && CellAt(row, info.end) != Null && Less(CellAt(row, info.start), CellAt(row, info.end))
  }

  /** The row is in the probe's group, begins before its end and ends behind its start. */
  predicate Meets(row: Row, info: IntervalInfo, probe: Probe) {
    CellsAt(row, info.groupBy) == probe.group && Less(CellAt(row, info.start), probe.to) && Less(probe.from, CellAt(row, info.end))
  }

  lemma MatchMeets(schema: IndexSchema, c: ContainerId, id: ItemId, row: Row, e: Expr, info: IntervalInfo)
    requires e.All? && Matches(schema, c, id, row, e) && ProbeOf(info, e.children).Some?
    ensures Meets(row, info, ProbeOf(info, e.children).value) && Null !in CellsAt(row, info.groupBy)
  {
    hide Compare, GroupKey, LastBound, EqualitiesOf, CellAt, CellsAt;
    var probe := ProbeOf(info, e.children).value;
    var cells := EqualitiesOf(e.children, map[]).value;
    EqualitiesOfHold(schema, c, id, row, e.children, map[]);
    GroupKeyHolds(row, info.groupBy, cells);
    LastBoundHolds(schema, c, id, row, e.children, info.start, LessThan);
    LastBoundHolds(schema, c, id, row, e.children, info.end, GreaterThan);
    CompareTotal(CellAt(row, info.end), probe.from);
  }

  /** A match with a valid interval overlaps a valid probe in its group. */
  lemma MatchOverlaps(schema: IndexSchema, c: ContainerId, rows: Rows, id: ItemId, e: Expr, info: IntervalInfo)
    requires id in rows && rows[id].container == c && e.All? && Matches(schema, c, id, rows[id], e)
    requires ProbeOf(info, e.children).Some?
    requires Less(ProbeOf(info, e.children).value.from, ProbeOf(info, e.children).value.to) && ValidInterval(rows[id], info)
    ensures var probe := ProbeOf(info, e.children).value;
            id in V.Scan(IntervalRows(rows, c, info), probe.group, probe.from, probe.to, {})
  {
    hide Matches, ProbeOf, Less, CellAt, CellsAt;
    var row := rows[id];
    MatchMeets(schema, c, id, row, e, info);
    var entry := IntervalRow(id, row, info);
    assert entry in IntervalRows(rows, c, info);
    assert V.Stored(entry) && entry.group == ProbeOf(info, e.children).value.group;
  }

  /** The shortcut finds every match exactly when nothing matches, or the probe is valid and
      every match has a valid interval. */
  lemma IntervalShortcutIff(schema: IndexSchema, c: ContainerId, rows: Rows, e: Expr, info: IntervalInfo)
    requires e.All? && ProbeOf(info, e.children).Some?
    ensures var probe := ProbeOf(info, e.children).value;
            (forall id :: id in rows && rows[id].container == c && Matches(schema, c, id, rows[id], e) ==>
               id in V.Scan(IntervalRows(rows, c, info), probe.group, probe.from, probe.to, {}))
            <==> forall id :: id in rows && rows[id].container == c && Matches(schema, c, id, rows[id], e) ==>
                   Less(probe.from, probe.to) && ValidInterval(rows[id], info)
  {
    hide Matches, ProbeOf, Less, CellAt, CellsAt;
    var probe := ProbeOf(info, e.children).value;
    forall id | id in rows && rows[id].container == c && Matches(schema, c, id, rows[id], e)
      ensures id in V.Scan(IntervalRows(rows, c, info), probe.group, probe.from, probe.to, {})
         <==> Less(probe.from, probe.to) && ValidInterval(rows[id], info)
    {
      if Less(probe.from, probe.to) && ValidInterval(rows[id], info) {
        MatchOverlaps(schema, c, rows, id, e, info);
      }
    }
  }

  /** A conjunction that asks nothing but the group and the two bounds. */
  ghost predicate AsksOnly(schema: IndexSchema, c: ContainerId, e: Expr, info: IntervalInfo, probe: Probe) {
    forall id, row :: Meets(row, info, probe) && Null !in CellsAt(row, info.groupBy) ==> Matches(schema, c, id, row, e)
  }

  /** Of such a conjunction: exactly when no row of the group meets both bounds, or the probe
      is valid and each that does has a valid interval. */
  lemma PlainShortcutIff(schema: IndexSchema, c: ContainerId, rows: Rows, e: Expr, info: IntervalInfo)
    requires e.All? && ProbeOf(info, e.children).Some? && AsksOnly(schema, c, e, info, ProbeOf(info, e.children).value)
    ensures var probe := ProbeOf(info, e.children).value;
            (forall id :: id in rows && rows[id].container == c && Matches(schema, c, id, rows[id], e) ==>
               id in V.Scan(IntervalRows(rows, c, info), probe.group, probe.from, probe.to, {}))
            <==> forall id :: id in rows && rows[id].container == c && Null !in CellsAt(rows[id], info.groupBy) && Meets(rows[id], info, probe) ==>
                   Less(probe.from, probe.to) && ValidInterval(rows[id], info)
  {
    hide Matches, ProbeOf, Meets, Less, ValidInterval, CellsAt;
    IntervalShortcutIff(schema, c, rows, e, info);
    forall id | id in rows && rows[id].container == c
      ensures Matches(schema, c, id, rows[id], e) <==>
              Meets(rows[id], info, ProbeOf(info, e.children).value) && Null !in CellsAt(rows[id], info.groupBy)
    {
      if Matches(schema, c, id, rows[id], e) {
        MatchMeets(schema, c, id, rows[id], e, info);
      }
    }
  }

  // ----- The range shortcut -----

  /** `runtimeValueSupportsOrdering`. */
  predicate Ordered(tag: byte) {
    2 <= tag <= 4
  }

  function TagOf(schema: IndexSchema, c: ContainerId, ref: Ref): byte {
    match ref
    case ColumnRef(k) => if c in schema && k in schema[c].columns then schema[c].columns[k].tag else 0
    case _ => 3
  }

  /** `rangeConstraintForFilter`. */
  predicate RangeFilter(schema: IndexSchema, c: ContainerId, f: Filter) {
    Ordered(TagOf(schema, c, f.ref)) && Ordered(Tag(f.value))
  }

  /** `collectPureAndRangeConstraints`: the filters of a conjunction of nothing but ranges. */
  function RangeFilters(schema: IndexSchema, c: ContainerId, e: Expr): Option<seq<Filter>>
    decreases e
  {
    match e
    case Everything => Some([])
    case Leaf(f) => if RangeFilter(schema, c, f) then Some([f]) else None
    case All(children) => RangeFiltersOf(schema, c, children)
    case _ => None
  }

  function RangeFiltersOf(schema: IndexSchema, c: ContainerId, children: seq<Expr>): Option<seq<Filter>>
    decreases children
  {
    if children == [] then Some([])
    else match RangeFilters(schema, c, children[0])
      case None => None
      case Some(first) =>
        match RangeFiltersOf(schema, c, children[1..])
        case None => None
        case Some(rest) => Some(first + rest)
  }

  lemma {:induction false} RangeFiltersMatch(schema: IndexSchema, c: ContainerId, id: ItemId, row: Row, e: Expr)
    requires RangeFilters(schema, c, e).Some? && Matches(schema, c, id, row, e)
    ensures forall f :: f in RangeFilters(schema, c, e).value ==> LeafMatches(schema, c, id, row, f)
    decreases e
  {
    hide LeafMatches;
    if e.All? {
      RangeFiltersOfMatch(schema, c, id, row, e.children);
    }
  }

  lemma {:induction false} RangeFiltersOfMatch(schema: IndexSchema, c: ContainerId, id: ItemId, row: Row, children: seq<Expr>)
    requires RangeFiltersOf(schema, c, children).Some? && forall i :: 0 <= i < |children| ==> Matches(schema, c, id, row, children[i])
    ensures forall f :: f in RangeFiltersOf(schema, c, children).value ==> LeafMatches(schema, c, id, row, f)
    decreases children
  {
    hide LeafMatches;
    if children != [] {
      RangeFiltersMatch(schema, c, id, row, children[0]);
      RangeFiltersOfMatch(schema, c, id, row, children[1..]);
    }
  }

  /** `hasDeclaredRangeIndexFor`. */
  predicate Declared(rangeIndexes: seq<set<ColumnId>>, filters: seq<Filter>) {
    exists i :: 0 <= i < |rangeIndexes| &&
      forall j :: 0 <= j < |filters| ==> ColumnOf(filters[j].ref).Some? && ColumnOf(filters[j].ref).value in rangeIndexes[i]
  }

  predicate TakesRange(schema: IndexSchema, c: ContainerId, rangeIndexes: seq<set<ColumnId>>, e: Expr) {
    && RangeFilters(schema, c, e).Some?
    && |RangeFilters(schema, c, e).value| > 1
    && Declared(rangeIndexes, RangeFilters(schema, c, e).value)
  }

  function ConstraintsOf(filters: seq<Filter>): (r: seq<K.Constraint>)
    ensures |r| == |filters|
  {
    seq(|filters|, i requires 0 <= i < |filters| =>
      K.Constraint(ColumnOf(filters[i].ref).GetOr(0), filters[i].op, Numeric(filters[i].value)))
  }

  /** The row has a number of the filter's own type in the filter's column, and the column
      is one of the kd-tree's. */
  predicate Comparable(schema: IndexSchema, c: ContainerId, row: Row, f: Filter) {
    && ColumnOf(f.ref).Some?
    && var k := ColumnOf(f.ref).value;
       && c in schema && k in schema[c].columns && schema[c].columns[k].indexed && schema[c].columns[k].ranged && schema[c].columns[k].variant.None?
       && Tag(CellAt(row, k)) == Tag(f.value) && Numeric(f.value).Some?
  }

  /** On integers of one type the filter and the kd-tree compare alike. */
  lemma SameComparison(a: Value, op: Operator, b: Value, k: ColumnId)
    requires Tag(a) == Tag(b) && Numeric(b).Some?
    ensures Numeric(a).Some?
    ensures Satisfies(a, op, b) <==> K.Contains(K.Constraint(k, op, Numeric(b)), Numeric(a).value)
  {
  }

  lemma MatchInRange(schema: IndexSchema, c: ContainerId, rows: Rows, id: ItemId, e: Expr)
    requires id in rows && rows[id].container == c && RangeFilters(schema, c, e).Some? && Matches(schema, c, id, rows[id], e)
    requires |RangeFilters(schema, c, e).value| > 0
    requires forall f :: f in RangeFilters(schema, c, e).value ==> Comparable(schema, c, rows[id], f)
    ensures id in PointsOf(schema, rows, c)
    ensures K.Matches(PointsOf(schema, rows, c)[id], ConstraintsOf(RangeFilters(schema, c, e).value))
  {
    hide Matches, RangeFilters, Satisfies, K.Contains, CellAt;
    var filters := RangeFilters(schema, c, e).value;
    var constraints := ConstraintsOf(filters);
    var coordinates := Coordinates(schema, rows[id]);
    RangeFiltersMatch(schema, c, id, rows[id], e);
    forall i | 0 <= i < |filters|
      ensures constraints[i].field in coordinates && K.Contains(constraints[i], coordinates[constraints[i].field])
    {
      var f := filters[i];
      assert f in filters;
      SameComparison(CellAt(rows[id], ColumnOf(f.ref).value), f.op, f.value, ColumnOf(f.ref).value);
    }
    assert constraints[0].field in coordinates;
  }

  /** The filter's column has a coordinate in the kd-tree, the row an integer in it, and that
      compares with the filter's as numbers do, whatever their types. */
  predicate NumberStands(schema: IndexSchema, c: ContainerId, row: Row, f: Filter) {
    && ColumnOf(f.ref).Some? && Numeric(f.value).Some?
    && var k := ColumnOf(f.ref).value;
       && c in schema && k in schema[c].columns && schema[c].columns[k].indexed && schema[c].columns[k].ranged && Applies(schema[c].columns[k], row)
       && Numeric(CellAt(row, k)).Some?
       && var number, bound := Numeric(CellAt(row, k)).value, Numeric(f.value).value;
          match f.op
          case EqualTo => number == bound
          case NotEqualTo => number != bound
          case GreaterThan => number > bound
          case LessThan => number < bound
          case AtLeast => number >= bound
          case AtMost => number <= bound
  }

  /** A range index is sure of every match exactly when every match has, for each filter, an
      integer that stands to the filter's as asked. */
  lemma RangeShortcutIff(schema: IndexSchema, c: ContainerId, rows: Rows, rangeIndexes: seq<set<ColumnId>>, e: Expr)
    requires TakesRange(schema, c, rangeIndexes, e)
    ensures (forall id :: id in rows && rows[id].container == c && Matches(schema, c, id, rows[id], e) ==>
               id in PointsOf(schema, rows, c) && K.Matches(PointsOf(schema, rows, c)[id], ConstraintsOf(RangeFilters(schema, c, e).value)))
            <==> forall id :: id in rows && rows[id].container == c && Matches(schema, c, id, rows[id], e) ==>
                   forall f :: f in RangeFilters(schema, c, e).value ==> NumberStands(schema, c, rows[id], f)
  {
    hide Matches, RangeFilters, PointsOf, ConstraintsOf, K.Matches, NumberStands, RangeFilter;
    var filters := RangeFilters(schema, c, e).value;
    forall id | id in rows && rows[id].container == c && Matches(schema, c, id, rows[id], e)
      ensures id in PointsOf(schema, rows, c) && K.Matches(PointsOf(schema, rows, c)[id], ConstraintsOf(filters))
         <==> forall f :: f in filters ==> NumberStands(schema, c, rows[id], f)
    {
      PointStandsIff(schema, c, rows, id, filters);
    }
  }

  lemma PointStandsIff(schema: IndexSchema, c: ContainerId, rows: Rows, id: ItemId, filters: seq<Filter>)
    requires id in rows && rows[id].container == c && |filters| > 0
    requires forall i :: 0 <= i < |filters| ==> ColumnOf(filters[i].ref).Some?
    ensures id in PointsOf(schema, rows, c) && K.Matches(PointsOf(schema, rows, c)[id], ConstraintsOf(filters))
       <==> forall f :: f in filters ==> NumberStands(schema, c, rows[id], f)
  {
    hide NumberStands, Coordinates, K.Contains;
    var constraints, values := ConstraintsOf(filters), Coordinates(schema, rows[id]);
    forall i | 0 <= i < |filters|
      ensures NumberStands(schema, c, rows[id], filters[i]) <==> constraints[i].field in values && K.Contains(constraints[i], values[constraints[i].field])
    {
      FilterStandsIff(schema, c, rows[id], filters[i]);
    }
    assert filters[0] in filters && constraints[0].field in values ==> values != map[];
  }

  lemma FilterStandsIff(schema: IndexSchema, c: ContainerId, row: Row, f: Filter)
    requires row.container == c && ColumnOf(f.ref).Some?
    ensures var k, values := ColumnOf(f.ref).value, Coordinates(schema, row);
            NumberStands(schema, c, row, f) <==> k in values && K.Contains(K.Constraint(k, f.op, Numeric(f.value)), values[k])
  {
    hide CellAt, Applies;
  }

  // ----- What makes the candidates complete -----

  /** The column of a filter has an index of its own. */
  predicate Direct(schema: IndexSchema, c: ContainerId, f: Filter) {
    match f.ref
    case ColumnRef(k) => c in schema && k in schema[c].columns && schema[c].columns[k].indexed
    case ParentRef(k) =>
      c in schema && k in schema[c].columns && schema[c].columns[k].indexed && schema[c].columns[k].variant.None?
    case _ => true
  }

  /** Relation columns always have an index of their own. */
  predicate ParentsIndexed(schema: IndexSchema, c: ContainerId, e: Expr)
    decreases e
  {
    match e
    case Everything => true
    case Leaf(f) => f.ref.ParentRef? ==> Direct(schema, c, f)
    case Not(_) => true
    case All(children) => forall i :: 0 <= i < |children| ==> ParentsIndexed(schema, c, children[i])
    case Any(children) => forall i :: 0 <= i < |children| ==> ParentsIndexed(schema, c, children[i])
  }

  /** A negated filter whose column has no index of its own. */
  predicate Lost(schema: IndexSchema, c: ContainerId, e: Expr) {
    e.Not? && e.child.Leaf? && !Direct(schema, c, e.child.filter)
  }

  predicate NoneLost(schema: IndexSchema, c: ContainerId, e: Expr)
    decreases e
  {
    match e
    case Not(_) => !Lost(schema, c, e)
    case All(children) => forall i :: 0 <= i < |children| ==> NoneLost(schema, c, children[i])
    case Any(children) => forall i :: 0 <= i < |children| ==> NoneLost(schema, c, children[i])
    case _ => true
  }

  /** What is left of a match when lost negations hold of nothing. */
  predicate Found(schema: IndexSchema, c: ContainerId, id: ItemId, row: Row, e: Expr)
    decreases e
  {
    match e
    case Not(_) => !Lost(schema, c, e) && Matches(schema, c, id, row, e)
    case All(children) => forall i :: 0 <= i < |children| ==> Found(schema, c, id, row, children[i])
    case Any(children) => exists i :: 0 <= i < |children| && Found(schema, c, id, row, children[i])
    case _ => Matches(schema, c, id, row, e)
  }

  lemma {:induction false} FoundMatches(schema: IndexSchema, c: ContainerId, id: ItemId, row: Row, e: Expr)
    ensures Found(schema, c, id, row, e) ==> Matches(schema, c, id, row, e)
    ensures NoneLost(schema, c, e) ==> (Found(schema, c, id, row, e) <==> Matches(schema, c, id, row, e))
    decreases e
  {
    hide LeafMatches, Direct;
    if e.All? || e.Any? {
      forall i | 0 <= i < |e.children|
        ensures Found(schema, c, id, row, e.children[i]) ==> Matches(schema, c, id, row, e.children[i])
        ensures NoneLost(schema, c, e.children[i]) ==> (Found(schema, c, id, row, e.children[i]) <==> Matches(schema, c, id, row, e.children[i]))
      {
        FoundMatches(schema, c, id, row, e.children[i]);
      }
    }
  }

  /** `validateQueryableField`: what the engine lets a filter ask. */
  predicate Queryable(schema: IndexSchema, c: ContainerId, ref: Ref) {
    match ref
    case ColumnRef(k) =>
      c in schema && k in schema[c].columns
      && (schema[c].columns[k].indexed
          || (exists i :: 0 <= i < |schema[c].ordereds| && (k in schema[c].ordereds[i].groupBy || k in schema[c].ordereds[i].orderBy))
          || (exists i :: 0 <= i < |schema[c].intervals| &&
                (k in schema[c].intervals[i].groupBy || k == schema[c].intervals[i].start || k == schema[c].intervals[i].end)))
    case _ => true
  }

  /** The index field a filter goes to. */
  function FieldOf(c: ContainerId, ref: Ref): Field {
    match ref
    case IdRef => IdField(c)
    case VariantRef => Scalar(VariantKey(c))
    case ColumnRef(k) => Scalar(ColumnKey(c, k))
    case ParentRef(k) => Scalar(ColumnKey(c, k))
  }

  /** The index answers just what the filter matches. */
  lemma DirectAnswers(schema: IndexSchema, c: ContainerId, id: ItemId, row: Row, f: Filter)
    requires Direct(schema, c, f) && row.container == c
    ensures Answers(schema, id, row, FieldOf(c, f.ref), f.op, f.value) <==> LeafMatches(schema, c, id, row, f)
  {
    hide Satisfies, Applies, CellAt;
    if f.ref.ParentRef? {
      AppliesAlways(schema[c].columns[f.ref.column], row);
    }
  }

  lemma AppliesAlways(column: ColumnInfo, row: Row)
    requires column.variant.None?
    ensures Applies(column, row)
  {
  }
}
