/** Candidate sets from the indexes, and the unsorted query of a table
    (src/engine.cpp:2228-2236, 2429-2566, 2601-2726). */
module QueryExecution {
  import opened Wrappers
  import opened Sequences
  import opened Values
  import opened IndexStores
  import opened Queries
  import K = KdTrees
  import V = IntervalIndexes

  // ----- Ids in order -----

  /** The ids of a set in ascending order, as an ordered set gives them. */
  function Ascending(s: set<ItemId>): (r: seq<ItemId>)
    ensures forall x :: x in r <==> x in s
    decreases |s|
  {
    if s == {} then []
    else
      var first := Least(s);
      assert |s - {first}| < |s|;
      [first] + Ascending(s - {first})
  }

  /** Each id once, and every one before the greater ones. */
  lemma {:induction false} AscendingAscends(s: set<ItemId>)
    ensures |Ascending(s)| == |s| && forall i, j :: 0 <= i < j < |s| ==> Ascending(s)[i] < Ascending(s)[j]
    decreases |s|
  {
    if s != {} {
      var first := Least(s);
      var rest := s - {first};
      assert |rest| < |s|;
      AscendingAscends(rest);
      forall i | 0 <= i < |rest|
        ensures first < Ascending(rest)[i]
      {
        assert Ascending(rest)[i] in rest;
      }
    }
  }

  function Smaller(s: set<ItemId>, x: ItemId): set<ItemId> {
    set y | y in s && y < x
  }

  /** Before an id stand just the smaller ones. */
  lemma {:induction false} AscendingRank(s: set<ItemId>, i: nat)
    requires i < |Ascending(s)|
    ensures |Smaller(s, Ascending(s)[i])| == i
    decreases i
  {
    var x, first := Ascending(s)[i], Least(s);
    var rest := s - {first};
    if i == 0 {
      assert Smaller(s, x) == {};
    } else {
      AscendingRank(rest, i - 1);
      assert x == Ascending(rest)[i - 1] && x in rest;
      assert Smaller(s, x) == {first} + Smaller(rest, x);
    }
  }

  /** Of a list, the ids in a set. */
  function Only(list: seq<ItemId>, keep: set<ItemId>): (r: seq<ItemId>)
    ensures |r| <= |list|
  {
    if list == [] then []
    else
      var last := |list| - 1;
      Only(list[..last], keep) + if list[last] in keep then [list[last]] else []
  }

  lemma OnlyNext(list: seq<ItemId>, x: ItemId, keep: set<ItemId>)
    ensures Only(list + [x], keep) == Only(list, keep) + if x in keep then [x] else []
  {
    assert (list + [x])[..|list|] == list;
  }

  lemma {:induction false} OnlyFirst(x: ItemId, list: seq<ItemId>, keep: set<ItemId>)
    ensures Only([x] + list, keep) == (if x in keep then [x] else []) + Only(list, keep)
  {
    if list == [] {
      assert [x] + list == [] + [x];
      OnlyNext([], x, keep);
    } else {
      var last := |list| - 1;
      assert [x] + list == ([x] + list[..last]) + [list[last]];
      OnlyNext([x] + list[..last], list[last], keep);
      OnlyFirst(x, list[..last], keep);
    }
  }

  /** Sifting an ordered set leaves the ordered subset. */
  lemma {:induction false} OnlyAscending(s: set<ItemId>, keep: set<ItemId>)
    ensures Only(Ascending(s), keep) == Ascending(s * keep)
    decreases |s|
  {
    if s == {} {
      assert s * keep == {};
    } else {
      var first := Least(s);
      var rest := s - {first};
      assert |rest| < |s|;
      OnlyAscending(rest, keep);
      OnlyFirst(first, Ascending(rest), keep);
      if first in keep {
        var kept := s * keep;
        assert first in kept && Least(kept) == first;
        assert kept - {first} == rest * keep;
      } else {
        assert s * keep == rest * keep;
      }
    }
  }

  /** A part of a list: what is left behind the offset, up to the limit. */
  function Slice(s: seq<ItemId>, offset: nat, limit: Option<nat>): seq<ItemId> {
    var rest := if offset >= |s| then [] else s[offset..];
    if limit.Some? && limit.value < |rest| then rest[..limit.value] else rest
  }

  /** `countWithOffsetLimit`. */
  function CountWithOffsetLimit(total: nat, offset: nat, limit: Option<nat>): nat {
    if offset >= total then 0
    else if limit.Some? && limit.value < total - offset then limit.value
    else total - offset
  }

  /** A count of the matches gives the count of the slice. */
  lemma SliceSize(s: seq<ItemId>, offset: nat, limit: Option<nat>)
    ensures |Slice(s, offset, limit)| == CountWithOffsetLimit(|s|, offset, limit)
  {
  }

  /** One more match. */
  lemma SliceNext(s: seq<ItemId>, x: ItemId, offset: nat, limit: Option<nat>)
    ensures Slice(s + [x], offset, limit)
         == if |s| < offset || (limit.Some? && |Slice(s, offset, limit)| >= limit.value) then Slice(s, offset, limit) else Slice(s, offset, limit) + [x]
    ensures |s| < offset ==> Slice(s, offset, limit) == []
  {
  }

  /** A full slice stays as it is. */
  lemma SliceFull(s: seq<ItemId>, more: seq<ItemId>, offset: nat, limit: Option<nat>)
    requires limit.Some? && |s| >= offset && |Slice(s, offset, limit)| >= limit.value
    ensures Slice(s + more, offset, limit) == Slice(s, offset, limit)
  {
    assert (s + more)[offset..] == s[offset..] + more;
  }

  /** The matches of a container. */
  function Matching(schema: IndexSchema, c: ContainerId, rows: Rows, e: Expr): set<ItemId> {
    set id | id in rows && rows[id].container == c && Matches(schema, c, id, rows[id], e)
  }

  /** The matches that are left when lost negations hold of nothing. */
  function FoundOf(schema: IndexSchema, c: ContainerId, rows: Rows, e: Expr): set<ItemId> {
    set id | id in rows && rows[id].container == c && Found(schema, c, id, rows[id], e)
  }

  lemma FoundIsMatching(schema: IndexSchema, c: ContainerId, rows: Rows, e: Expr)
    ensures FoundOf(schema, c, rows, e) <= Matching(schema, c, rows, e)
    ensures NoneLost(schema, c, e) ==> FoundOf(schema, c, rows, e) == Matching(schema, c, rows, e)
  {
    hide Found, Matches, NoneLost;
    forall id | id in rows && rows[id].container == c
      ensures Found(schema, c, id, rows[id], e) ==> Matches(schema, c, id, rows[id], e)
      ensures NoneLost(schema, c, e) ==> (Found(schema, c, id, rows[id], e) <==> Matches(schema, c, id, rows[id], e))
    {
      FoundMatches(schema, c, id, rows[id], e);
    }
  }

  // ----- Candidates -----

  function IntervalsOf(schema: IndexSchema, c: ContainerId): seq<IntervalInfo> {
    if c in schema then schema[c].intervals else []
  }

  /** The first interval index that a conjunction asks, and what it asks. */
  function FirstProbe(intervals: seq<IntervalInfo>, children: seq<Expr>): (r: Option<(nat, Probe)>)
    ensures r.Some? ==> r.value.0 < |intervals| && ProbeOf(intervals[r.value.0], children) == Some(r.value.1)
    ensures forall i :: 0 <= i < (if r.Some? then r.value.0 else |intervals|) ==> ProbeOf(intervals[i], children) == None
  {
    if intervals == [] then None
    else
      match ProbeOf(intervals[0], children)
      case Some(probe) => Some((0, probe))
      case None =>
        match FirstProbe(intervals[1..], children)
        case None => None
        case Some((i, probe)) => Some((i + 1, probe))
  }

  /** Where a conjunction takes the interval shortcut, its probe and the intervals are valid;
      where it takes the range shortcut, the items have numbers of the filters' types. */
  ghost predicate ShortcutSafe(schema: IndexSchema, c: ContainerId, rows: Rows, rangeIndexes: seq<set<ColumnId>>, e: Expr)
    requires e.All?
  {
    match FirstProbe(IntervalsOf(schema, c), e.children)
    case Some((i, probe)) =>
      Less(probe.from, probe.to)
      && forall id :: id in rows && rows[id].container == c ==> ValidInterval(rows[id], IntervalsOf(schema, c)[i])
    case None =>
      TakesRange(schema, c, rangeIndexes, e) ==>
        forall id, f :: id in rows && rows[id].container == c && f in RangeFilters(schema, c, e).value ==> Comparable(schema, c, rows[id], f)
  }

  ghost predicate Safe(schema: IndexSchema, c: ContainerId, rows: Rows, rangeIndexes: seq<set<ColumnId>>, e: Expr)
    decreases e
  {
    match e
    case All(children) =>
      ShortcutSafe(schema, c, rows, rangeIndexes, e)
      && forall i :: 0 <= i < |children| ==> Safe(schema, c, rows, rangeIndexes, children[i])
    case Any(children) => forall i :: 0 <= i < |children| ==> Safe(schema, c, rows, rangeIndexes, children[i])
    case _ => true
  }

  // ----- What the candidates are -----

  /** The expression has candidates: some index says something of it. */
  predicate Proposes(schema: IndexSchema, c: ContainerId, rangeIndexes: seq<set<ColumnId>>, e: Expr)
    decreases e
  {
    match e
    case Everything => false
    case Leaf(f) => Direct(schema, c, f)
    case Not(_) => true
    case All(children) =>
      FirstProbe(IntervalsOf(schema, c), children).Some?
      || TakesRange(schema, c, rangeIndexes, e)
      || exists i :: 0 <= i < |children| && Proposes(schema, c, rangeIndexes, children[i])
    case Any(children) => children != [] && forall i :: 0 <= i < |children| ==> Proposes(schema, c, rangeIndexes, children[i])
  }

  /** What an interval index finds. */
  predicate IntervalKept(row: Row, info: IntervalInfo, probe: Probe) {
    Less(probe.from, probe.to) && ValidInterval(row, info) && Null !in CellsAt(row, info.groupBy) && Meets(row, info, probe)
  }

  /** What the range index finds for certain; and, when loose, what it may find too. */
  ghost predicate RangeKept(points: map<ItemId, K.Coordinates>, id: ItemId, constraints: seq<K.Constraint>, loose: bool) {
    id in points
    && (K.Matches(points[id], constraints)
        || (loose && !K.Carries(points[id], constraints)
            && forall i :: 0 <= i < |constraints| ==> K.Carried(points, constraints[i].field)))
  }

  /** The item is among the candidates of an expression, if it has any: what an interval or
      a range index finds where one is asked, what all or any of the parts keep, and nothing
      of a negation whose own expression has none. When loose, points without a number in
      some column of a range that other points have a number in may be among them. */
  ghost predicate Kept(schema: IndexSchema, c: ContainerId, rangeIndexes: seq<set<ColumnId>>, rows: Rows, id: ItemId, e: Expr, loose: bool)
    requires id in rows
    decreases e
  {
    match e
    case Everything => true
    case Leaf(f) => Direct(schema, c, f) ==> LeafMatches(schema, c, id, rows[id], f)
    case Not(child) => Proposes(schema, c, rangeIndexes, child) && !Kept(schema, c, rangeIndexes, rows, id, child, !loose)
    case All(children) =>
      (match FirstProbe(IntervalsOf(schema, c), children)
       case Some((i, probe)) => IntervalKept(rows[id], IntervalsOf(schema, c)[i], probe)
       case None =>
         if TakesRange(schema, c, rangeIndexes, e)
         then RangeKept(PointsOf(schema, rows, c), id, ConstraintsOf(RangeFilters(schema, c, e).value), loose)
         else forall i :: 0 <= i < |children| ==> Kept(schema, c, rangeIndexes, rows, id, children[i], loose))
    case Any(children) => children == [] || exists i :: 0 <= i < |children| && Kept(schema, c, rangeIndexes, rows, id, children[i], loose)
  }

  ghost function KeptOf(schema: IndexSchema, c: ContainerId, rangeIndexes: seq<set<ColumnId>>, rows: Rows, e: Expr, loose: bool): set<ItemId> {
    set id | id in rows && rows[id].container == c && Kept(schema, c, rangeIndexes, rows, id, e, loose)
  }

  /** Where a conjunction asks the range index, every point of the container has a number in
      each column it asks about, or no point has one in some column. */
  ghost predicate RangesExact(schema: IndexSchema, c: ContainerId, rangeIndexes: seq<set<ColumnId>>, rows: Rows, e: Expr)
    decreases e
  {
    match e
    case All(children) =>
      FirstProbe(IntervalsOf(schema, c), children).Some?
      || if TakesRange(schema, c, rangeIndexes, e)
         then PointsComplete(PointsOf(schema, rows, c), ConstraintsOf(RangeFilters(schema, c, e).value))
         else forall i :: 0 <= i < |children| ==> RangesExact(schema, c, rangeIndexes, rows, children[i])
    case Any(children) => forall i :: 0 <= i < |children| ==> RangesExact(schema, c, rangeIndexes, rows, children[i])
    case Not(child) => RangesExact(schema, c, rangeIndexes, rows, child)
    case _ => true
  }

  ghost predicate PointsComplete(points: map<ItemId, K.Coordinates>, constraints: seq<K.Constraint>) {
    (forall id :: id in points ==> K.Carries(points[id], constraints))
    || exists i :: 0 <= i < |constraints| && !K.Carried(points, constraints[i].field)
  }

  /** Then nothing is loose. */
  lemma {:induction false} ExactIsTight(schema: IndexSchema, c: ContainerId, rangeIndexes: seq<set<ColumnId>>, rows: Rows, id: ItemId, e: Expr)
    requires id in rows && RangesExact(schema, c, rangeIndexes, rows, e)
    ensures Kept(schema, c, rangeIndexes, rows, id, e, false) <==> Kept(schema, c, rangeIndexes, rows, id, e, true)
    decreases e
  {
    hide Direct, LeafMatches, IntervalKept, Proposes, FirstProbe, TakesRange, K.Matches, K.Carries, K.Carried, ConstraintsOf, PointsOf;
    match e
    case Not(child) => ExactIsTight(schema, c, rangeIndexes, rows, id, child);
    case All(children) =>
      if FirstProbe(IntervalsOf(schema, c), children).None? && !TakesRange(schema, c, rangeIndexes, e) {
        forall i | 0 <= i < |children|
          ensures Kept(schema, c, rangeIndexes, rows, id, children[i], false) <==> Kept(schema, c, rangeIndexes, rows, id, children[i], true)
        {
          ExactIsTight(schema, c, rangeIndexes, rows, id, children[i]);
        }
      }
    case Any(children) =>
      forall i | 0 <= i < |children|
        ensures Kept(schema, c, rangeIndexes, rows, id, children[i], false) <==> Kept(schema, c, rangeIndexes, rows, id, children[i], true)
      {
        ExactIsTight(schema, c, rangeIndexes, rows, id, children[i]);
      }
    case _ =>
  }

  /** An expression without candidates keeps everything. */
  lemma {:induction false} UnproposedIsKept(schema: IndexSchema, c: ContainerId, rangeIndexes: seq<set<ColumnId>>, rows: Rows, id: ItemId, e: Expr, loose: bool)
    requires id in rows && !Proposes(schema, c, rangeIndexes, e)
    ensures Kept(schema, c, rangeIndexes, rows, id, e, loose)
    decreases e
  {
    hide Direct, LeafMatches, IntervalKept, FirstProbe, TakesRange, RangeKept;
    match e
    case All(children) =>
      forall i | 0 <= i < |children|
        ensures Kept(schema, c, rangeIndexes, rows, id, children[i], loose)
      {
        UnproposedIsKept(schema, c, rangeIndexes, rows, id, children[i], loose);
      }
    case Any(children) =>
      if children != [] {
        var i :| 0 <= i < |children| && !Proposes(schema, c, rangeIndexes, children[i]);
        UnproposedIsKept(schema, c, rangeIndexes, rows, id, children[i], loose);
      }
    case _ =>
  }

  /** With safe shortcuts a match that does not hang on a lost negation is kept. */
  lemma {:induction false} FoundIsKept(schema: IndexSchema, c: ContainerId, rangeIndexes: seq<set<ColumnId>>, rows: Rows, id: ItemId, e: Expr)
    requires id in rows && rows[id].container == c && Normal(schema, c, e) && Safe(schema, c, rows, rangeIndexes, e)
    requires Found(schema, c, id, rows[id], e)
    ensures Kept(schema, c, rangeIndexes, rows, id, e, false)
    decreases e
  {
    hide Direct, LeafMatches, IntervalKept, FirstProbe, TakesRange, RangeKept, ShortcutSafe, Normal;
    FoundMatches(schema, c, id, rows[id], e);
    match e
    case Not(child) => NegatedKept(schema, c, rangeIndexes, rows, id, e, false);
    case All(children) =>
      match FirstProbe(IntervalsOf(schema, c), children) {
        case Some((i, probe)) => ProbedIsKept(schema, c, rangeIndexes, rows, id, e);
        case None =>
          if TakesRange(schema, c, rangeIndexes, e) {
            RangedIsKept(schema, c, rangeIndexes, rows, id, e);
          } else {
            forall i | 0 <= i < |children|
              ensures Kept(schema, c, rangeIndexes, rows, id, children[i], false)
            {
              NormalChild(schema, c, e, i);
              FoundIsKept(schema, c, rangeIndexes, rows, id, children[i]);
            }
          }
      }
    case Any(children) =>
      var i :| 0 <= i < |children| && Found(schema, c, id, rows[id], children[i]);
      NormalChild(schema, c, e, i);
      FoundIsKept(schema, c, rangeIndexes, rows, id, children[i]);
    case _ =>
  }

  lemma NormalChild(schema: IndexSchema, c: ContainerId, e: Expr, i: nat)
    requires (e.All? || e.Any?) && Normal(schema, c, e) && i < |e.children|
    ensures Normal(schema, c, e.children[i])
  {
  }

  /** A negation keeps what it finds, and a lost one nothing. */
  lemma NegatedKept(schema: IndexSchema, c: ContainerId, rangeIndexes: seq<set<ColumnId>>, rows: Rows, id: ItemId, e: Expr, loose: bool)
    requires id in rows && e.Not? && Normal(schema, c, e)
    ensures Kept(schema, c, rangeIndexes, rows, id, e, loose) <==> Found(schema, c, id, rows[id], e)
  {
    hide Direct, LeafMatches;
    var child := e.child;
    assert child.Leaf? || child.Everything?;
    assert child.Leaf? ==> (Kept(schema, c, rangeIndexes, rows, id, child, !loose) <==> (Direct(schema, c, child.filter) ==> LeafMatches(schema, c, id, rows[id], child.filter)));
    assert Matches(schema, c, id, rows[id], child) <==> (child.Leaf? ==> LeafMatches(schema, c, id, rows[id], child.filter));
  }

  lemma ProbedIsKept(schema: IndexSchema, c: ContainerId, rangeIndexes: seq<set<ColumnId>>, rows: Rows, id: ItemId, e: Expr)
    requires id in rows && rows[id].container == c && e.All? && Matches(schema, c, id, rows[id], e)
    requires ShortcutSafe(schema, c, rows, rangeIndexes, e) && FirstProbe(IntervalsOf(schema, c), e.children).Some?
    ensures var (i, probe) := FirstProbe(IntervalsOf(schema, c), e.children).value;
            IntervalKept(rows[id], IntervalsOf(schema, c)[i], probe)
  {
    hide Matches, FirstProbe, Less, ProbeOf, Meets, ValidInterval, TakesRange;
    var (i, probe) := FirstProbe(IntervalsOf(schema, c), e.children).value;
    MatchMeets(schema, c, id, rows[id], e, IntervalsOf(schema, c)[i]);
  }

  lemma RangedIsKept(schema: IndexSchema, c: ContainerId, rangeIndexes: seq<set<ColumnId>>, rows: Rows, id: ItemId, e: Expr)
    requires id in rows && rows[id].container == c && e.All? && Matches(schema, c, id, rows[id], e)
    requires ShortcutSafe(schema, c, rows, rangeIndexes, e)
    requires FirstProbe(IntervalsOf(schema, c), e.children).None? && TakesRange(schema, c, rangeIndexes, e)
    ensures RangeKept(PointsOf(schema, rows, c), id, ConstraintsOf(RangeFilters(schema, c, e).value), false)
  {
    hide Matches, FirstProbe, K.Matches, PointsOf, ConstraintsOf, RangeFilters, Comparable;
    MatchInRange(schema, c, rows, id, e);
  }

  /** What a scan of the intervals finds. */
  lemma ScanIsKept(rows: Rows, c: ContainerId, info: IntervalInfo, probe: Probe)
    ensures V.Scan(IntervalRows(rows, c, info), probe.group, probe.from, probe.to, {})
         == set id | id in rows && rows[id].container == c && IntervalKept(rows[id], info, probe)
  {
    hide Less, CellAt, CellsAt;
    var found := V.Scan(IntervalRows(rows, c, info), probe.group, probe.from, probe.to, {});
    forall id | id in rows && rows[id].container == c && IntervalKept(rows[id], info, probe)
      ensures id in found
    {
      var entry := IntervalRow(id, rows[id], info);
      assert entry in IntervalRows(rows, c, info) && V.Stored(entry);
    }
  }

  lemma AnsweredIsBetween(schema: IndexSchema, c: ContainerId, rows: Rows, constraints: seq<K.Constraint>, ids: set<ItemId>)
    requires K.Answers(PointsOf(schema, rows, c), constraints, ids)
    ensures forall id :: id in ids ==> id in rows && rows[id].container == c && RangeKept(PointsOf(schema, rows, c), id, constraints, true)
    ensures forall id :: id in rows && RangeKept(PointsOf(schema, rows, c), id, constraints, false) ==> id in ids
  {
    hide K.Matches, K.Carries, K.Carried, K.SpanInside, Coordinates;
  }

  lemma LeafKept(schema: IndexSchema, c: ContainerId, rangeIndexes: seq<set<ColumnId>>, rows: Rows, f: Filter)
    ensures Direct(schema, c, f) ==> forall loose :: KeptOf(schema, c, rangeIndexes, rows, Leaf(f), loose) == Matching(schema, c, rows, Leaf(f))
  {
    hide Direct, LeafMatches;
  }

  // ----- The parts taken so far -----

  ghost function KeptByAll(schema: IndexSchema, c: ContainerId, rangeIndexes: seq<set<ColumnId>>, rows: Rows, children: seq<Expr>, n: nat, loose: bool): set<ItemId>
    requires n <= |children|
  {
    set id | id in rows && rows[id].container == c && forall j :: 0 <= j < n ==> Kept(schema, c, rangeIndexes, rows, id, children[j], loose)
  }

  ghost function KeptByAny(schema: IndexSchema, c: ContainerId, rangeIndexes: seq<set<ColumnId>>, rows: Rows, children: seq<Expr>, n: nat, loose: bool): set<ItemId>
    requires n <= |children|
  {
    set id | id in rows && rows[id].container == c && exists j :: 0 <= j < n && Kept(schema, c, rangeIndexes, rows, id, children[j], loose)
  }

  lemma AllNext(schema: IndexSchema, c: ContainerId, rangeIndexes: seq<set<ColumnId>>, rows: Rows, children: seq<Expr>, i: nat, loose: bool)
    requires i < |children|
    ensures KeptByAll(schema, c, rangeIndexes, rows, children, 0, loose) == InContainer(rows, c)
    ensures KeptByAll(schema, c, rangeIndexes, rows, children, i + 1, loose)
         == KeptByAll(schema, c, rangeIndexes, rows, children, i, loose) * KeptOf(schema, c, rangeIndexes, rows, children[i], loose)
    ensures KeptOf(schema, c, rangeIndexes, rows, children[i], loose) <= InContainer(rows, c)
    ensures !Proposes(schema, c, rangeIndexes, children[i]) ==> KeptOf(schema, c, rangeIndexes, rows, children[i], loose) == InContainer(rows, c)
  {
    hide Kept, Proposes;
    if !Proposes(schema, c, rangeIndexes, children[i]) {
      forall id | id in rows
        ensures Kept(schema, c, rangeIndexes, rows, id, children[i], loose)
      {
        UnproposedIsKept(schema, c, rangeIndexes, rows, id, children[i], loose);
      }
    }
  }

  lemma AnyNext(schema: IndexSchema, c: ContainerId, rangeIndexes: seq<set<ColumnId>>, rows: Rows, children: seq<Expr>, i: nat, loose: bool)
    requires i < |children|
    ensures KeptByAny(schema, c, rangeIndexes, rows, children, 0, loose) == {}
    ensures KeptByAny(schema, c, rangeIndexes, rows, children, i + 1, loose)
         == KeptByAny(schema, c, rangeIndexes, rows, children, i, loose) + KeptOf(schema, c, rangeIndexes, rows, children[i], loose)
  {
    hide Kept;
  }

  lemma AllKept(schema: IndexSchema, c: ContainerId, rangeIndexes: seq<set<ColumnId>>, rows: Rows, children: seq<Expr>)
    requires FirstProbe(IntervalsOf(schema, c), children).None? && !TakesRange(schema, c, rangeIndexes, All(children))
    ensures forall loose :: KeptOf(schema, c, rangeIndexes, rows, All(children), loose) == KeptByAll(schema, c, rangeIndexes, rows, children, |children|, loose)
    ensures Proposes(schema, c, rangeIndexes, All(children)) <==> exists i :: 0 <= i < |children| && Proposes(schema, c, rangeIndexes, children[i])
  {
    hide FirstProbe, TakesRange;
  }

  lemma AnyKept(schema: IndexSchema, c: ContainerId, rangeIndexes: seq<set<ColumnId>>, rows: Rows, children: seq<Expr>)
    ensures children != [] ==>
              forall loose :: KeptOf(schema, c, rangeIndexes, rows, Any(children), loose) == KeptByAny(schema, c, rangeIndexes, rows, children, |children|, loose)
  {
  }

  class QueryEngine {
    const store: RuntimeIndexStore
    const container: ContainerId
    const rangeIndexes: seq<set<ColumnId>>

    constructor (store: RuntimeIndexStore, container: ContainerId, rangeIndexes: seq<set<ColumnId>>)
      ensures this.store == store && this.container == container && this.rangeIndexes == rangeIndexes
    {
      this.store, this.container, this.rangeIndexes := store, container, rangeIndexes;
    }

    ghost predicate Valid()
      reads this, store, store.rangeIndex, store.intervalIndexes, store.intervalIndexes.Repr
    {
      store.Valid() && Sensible(store.schema, store.rows)
    }

    ghost predicate SafeFor(e: Expr)
      reads this, store
    {
      Safe(store.schema, container, store.rows, rangeIndexes, e)
    }

    /** The ids hold every item that is kept, and none but those that may come with them. */
    ghost predicate Between(ids: set<ItemId>, e: Expr)
      reads this, store
    {
      KeptOf(store.schema, container, rangeIndexes, store.rows, e, false) <= ids <= KeptOf(store.schema, container, rangeIndexes, store.rows, e, true)
    }

    /** `indexedCandidatesForFilter`. */
    method LeafCandidates(f: Filter) returns (r: Option<set<ItemId>>)
      requires Valid() && (f.ref.ParentRef? ==> Direct(store.schema, container, f))
      ensures Valid() && (r.Some? <==> Direct(store.schema, container, f))
      ensures r.Some? ==> r.value == Matching(store.schema, container, store.rows, Leaf(f))
    {
      hide LeafMatches, Answers, RuntimeIndexStore.Valid;
      if !Direct(store.schema, container, f) {
        return None;
      }
      var ids := store.QueryField(FieldOf(container, f.ref), f.op, f.value);
      forall id
        ensures id in ids <==> id in Matching(store.schema, container, store.rows, Leaf(f))
      {
        if id in store.rows && store.rows[id].container == container {
          DirectAnswers(store.schema, container, id, store.rows[id], f);
        }
      }
      r := Some(ids);
    }

    /** `intervalCandidatesForExpression`: what a scan of the intervals finds for the probe. */
    method IntervalCandidates(e: Expr) returns (r: Option<set<ItemId>>)
      requires Valid() && e.All?
      ensures Valid() && (r.Some? <==> FirstProbe(IntervalsOf(store.schema, container), e.children).Some?)
      ensures r.Some? ==> forall loose :: r.value == KeptOf(store.schema, container, rangeIndexes, store.rows, e, loose)
    {
      hide Less, ProbeOf, V.Scan, TakesRange, RuntimeIndexStore.Valid, IntervalRows, IntervalKept, FirstProbe;
      var found := FirstProbe(IntervalsOf(store.schema, container), e.children);
      if found.None? {
        return None;
      }
      var (i, probe) := found.value;
      var ids := store.QueryInterval(container, i, probe.group, probe.from, probe.to);
      ScanIsKept(store.rows, container, IntervalsOf(store.schema, container)[i], probe);
      r := Some(ids);
    }

    /** The range shortcut. */
    method RangeCandidates(e: Expr) returns (r: Option<set<ItemId>>)
      requires Valid() && e.All? && FirstProbe(IntervalsOf(store.schema, container), e.children).None?
      modifies store.rangeIndex
      ensures Valid() && (r.Some? <==> TakesRange(store.schema, container, rangeIndexes, e)) && (r.Some? ==> Between(r.value, e))
      ensures r.Some? ==> K.Answers(PointsOf(store.schema, store.rows, container), ConstraintsOf(RangeFilters(store.schema, container, e).value), r.value)
    {
      hide FirstProbe, RangeFilters, RuntimeIndexStore.Valid, PointsOf, ConstraintsOf, K.Matches, K.Carries, K.Answers, RangeKept;
      if !TakesRange(store.schema, container, rangeIndexes, e) {
        return None;
      }
      var constraints := ConstraintsOf(RangeFilters(store.schema, container, e).value);
      var ids := store.QueryRange(container, constraints);
      AnsweredIsBetween(store.schema, container, store.rows, constraints, ids);
      r := Some(ids);
    }

    /** `indexedCandidatesForExpression`: a set exactly when some index says something of the
        expression, and then the items that are kept. */
    method Candidates(e: Expr) returns (r: Option<set<ItemId>>)
      requires Valid() && Normal(store.schema, container, e) && ParentsIndexed(store.schema, container, e)
      modifies store.rangeIndex
      ensures Valid() && (r.Some? <==> Proposes(store.schema, container, rangeIndexes, e)) && (r.Some? ==> Between(r.value, e))
      decreases e
    {
      hide LeafMatches, Direct, Valid, IntervalKept, RangeKept, FirstProbe, TakesRange, PointsOf, ConstraintsOf, RangeFilters;
      match e
      case Everything => r := None;
      case Leaf(f) =>
        r := LeafCandidates(f);
        LeafKept(store.schema, container, rangeIndexes, store.rows, f);
      case Not(child) =>
        NegatedChild(store.schema, container, e);
        var inner := Candidates(child);
        var universe := Universe();
        r := Some(if inner.None? then {} else universe - inner.value);
      case All(children) =>
        r := IntervalCandidates(e);
        if r.None? {
          r := RangeCandidates(e);
          if r.None? {
            r := Intersection(e, children);
          }
        }
      case Any(children) =>
        r := Union(e, children);
    }

    method Universe() returns (ids: set<ItemId>)
      requires Valid()
      ensures Valid() && ids == InContainer(store.rows, container)
    {
      ids := store.ContainerItems(container);
    }

    /** The candidates of all children that have any. */
    method Intersection(e: Expr, children: seq<Expr>) returns (r: Option<set<ItemId>>)
      requires Valid() && e == All(children) && Normal(store.schema, container, e) && ParentsIndexed(store.schema, container, e)
      requires FirstProbe(IntervalsOf(store.schema, container), children).None? && !TakesRange(store.schema, container, rangeIndexes, e)
      modifies store.rangeIndex
      ensures Valid() && (r.Some? <==> Proposes(store.schema, container, rangeIndexes, e)) && (r.Some? ==> Between(r.value, e))
      decreases e, 0
    {
      hide Kept, FirstProbe, TakesRange, Valid;
      r := None;
      ghost var schema, rows := store.schema, store.rows;
      for i := 0 to |children|
        invariant Valid() && (r.Some? <==> exists j :: 0 <= j < i && Proposes(schema, container, rangeIndexes, children[j]))
        invariant KeptByAll(schema, container, rangeIndexes, rows, children, i, false)
                  <= (if r.None? then InContainer(rows, container) else r.value)
                  <= KeptByAll(schema, container, rangeIndexes, rows, children, i, true)
      {
        var some := Candidates(children[i]);
        AllNext(schema, container, rangeIndexes, rows, children, i, false);
        AllNext(schema, container, rangeIndexes, rows, children, i, true);
        if some.Some? {
          r := Some(if r.None? then some.value else r.value * some.value);
        }
      }
      AllKept(schema, container, rangeIndexes, rows, children);
    }

    /** The candidates of any child, if all children have some. */
    method Union(e: Expr, children: seq<Expr>) returns (r: Option<set<ItemId>>)
      requires Valid() && e == Any(children) && Normal(store.schema, container, e) && ParentsIndexed(store.schema, container, e)
      modifies store.rangeIndex
      ensures Valid() && (r.Some? <==> Proposes(store.schema, container, rangeIndexes, e)) && (r.Some? ==> Between(r.value, e))
      decreases e, 0
    {
      hide Kept, Valid;
      r := None;
      ghost var schema, rows := store.schema, store.rows;
      for i := 0 to |children|
        invariant Valid() && (r.None? <==> i == 0) && forall j :: 0 <= j < i ==> Proposes(schema, container, rangeIndexes, children[j])
        invariant r.Some? ==> KeptByAny(schema, container, rangeIndexes, rows, children, i, false) <= r.value
                              <= KeptByAny(schema, container, rangeIndexes, rows, children, i, true)
      {
        var some := Candidates(children[i]);
        AnyNext(schema, container, rangeIndexes, rows, children, i, false);
        AnyNext(schema, container, rangeIndexes, rows, children, i, true);
        if some.None? {
          return None;
        }
        r := Some(if r.None? then some.value else r.value + some.value);
      }
      AnyKept(schema, container, rangeIndexes, rows, children);
    }

    // ----- The query -----

    /** The emitting loop: what matches, behind the offset and up to the limit. */
    method Emit(ids: seq<ItemId>, items: Rows, e: Expr, offset: nat, limit: Option<nat>) returns (result: seq<ItemId>)
      requires Valid()
      ensures Valid() && result == Slice(Only(ids, Matching(store.schema, container, items, e)), offset, limit)
    {
      hide Slice, Matches, Only, Valid;
      ghost var keep := Matching(store.schema, container, items, e);
      var skipped := 0;
      result := [];
      EmptySlice(offset, limit, keep);
      for i := 0 to |ids|
        invariant Valid()
        invariant skipped == if |Only(ids[..i], keep)| < offset then |Only(ids[..i], keep)| else offset
        invariant result == Slice(Only(ids[..i], keep), offset, limit)
      {
        var id := ids[i];
        assert ids[..i + 1] == ids[..i] + [id];
        OnlyNext(ids[..i], id, keep);
        SliceNext(Only(ids[..i], keep), id, offset, limit);
        assert Only(ids[..i], keep) + [] == Only(ids[..i], keep);
        if id in items && items[id].container == container && Matches(store.schema, container, id, items[id], e) {
          if skipped < offset {
            skipped := skipped + 1;
          } else if limit.Some? && |result| >= limit.value {
            assert ids[..i] + ids[i..] == ids;
            OnlySplit(ids[..i], ids[i..], keep);
            SliceFull(Only(ids[..i], keep), Only(ids[i..], keep), offset, limit);
            return;
          } else {
            result := result + [id];
          }
        }
      }
      assert ids[..|ids|] == ids;
    }

    /** A query of a table without sort keys: the negations are pushed inward, and the
        candidates sifted in the order of their ids. What it shows are the matches that are
        kept; where range indexes are asked, matches that they may find may come with them,
        and none does where the points are complete. */
    method Execute(items: Rows, filter: Expr, offset: nat, limit: Option<nat>) returns (result: seq<ItemId>, ghost shown: set<ItemId>)
      requires Valid() && items == store.rows
      requires ParentsIndexed(store.schema, container, Normalize(store.schema, container, filter, false))
      modifies store.rangeIndex
      ensures Valid() && result == Slice(Ascending(shown), offset, limit)
      ensures forall i, j :: 0 <= i < j < |result| ==> result[i] < result[j]
      ensures forall i :: 0 <= i < |result| ==> result[i] in shown && |Smaller(shown, result[i])| == offset + i
      ensures |result| == if |shown| <= offset then 0 else if limit.Some? && limit.value < |shown| - offset then limit.value else |shown| - offset
      ensures var e, matching := Normalize(store.schema, container, filter, false), Matching(store.schema, container, items, filter);
              && matching * KeptOf(store.schema, container, rangeIndexes, items, e, false) <= shown
              && shown <= matching * KeptOf(store.schema, container, rangeIndexes, items, e, true)
              && (RangesExact(store.schema, container, rangeIndexes, items, e) ==>
                    shown == matching * KeptOf(store.schema, container, rangeIndexes, items, e, false))
              && (SafeFor(e) ==> FoundOf(store.schema, container, items, e) <= shown)
              && (SafeFor(e) && NoneLost(store.schema, container, e) ==> shown == matching)
    {
      hide Valid, Normalize, Safe, ParentsIndexed, Normal, Slice, Only, Ascending, Smaller, Matches, Found, NoneLost, FirstProbe, Kept, Proposes, RangesExact;
      var e := Normalize(store.schema, container, filter, false);
      NormalizeIsNormal(store.schema, container, filter, false);
      SameMatches(store.schema, container, items, filter);
      FoundIsMatching(store.schema, container, items, e);
      KeptFacts(store.schema, container, rangeIndexes, items, e);
      var candidates := Candidates(e);
      var universe := Universe();
      var ids := if candidates.Some? then candidates.value else universe;
      ghost var keep := Matching(store.schema, container, items, e);
      shown := ids * keep;
      OnlyAscending(ids, keep);
      result := Emit(Ascending(ids), items, e, offset, limit);
      SlicedInOrder(shown, offset, limit);
    }
  }

  /** A slice of an ascending list holds the ids in order, with the offset's number of smaller
      ids before its first. */
  lemma SlicedInOrder(s: set<ItemId>, offset: nat, limit: Option<nat>)
    ensures var r := Slice(Ascending(s), offset, limit);
            && (forall i, j :: 0 <= i < j < |r| ==> r[i] < r[j])
            && (forall i :: 0 <= i < |r| ==> r[i] in s && |Smaller(s, r[i])| == offset + i)
            && |r| == if |s| <= offset then 0 else if limit.Some? && limit.value < |s| - offset then limit.value else |s| - offset
  {
    hide Ascending, Smaller;
    var all, r := Ascending(s), Slice(Ascending(s), offset, limit);
    AscendingAscends(s);
    forall i | 0 <= i < |r|
      ensures r[i] == all[offset + i] && r[i] in s && |Smaller(s, r[i])| == offset + i
    {
      AscendingRank(s, offset + i);
    }
  }

  lemma KeptFacts(schema: IndexSchema, c: ContainerId, rangeIndexes: seq<set<ColumnId>>, rows: Rows, e: Expr)
    requires Normal(schema, c, e)
    ensures !Proposes(schema, c, rangeIndexes, e) ==> forall loose :: KeptOf(schema, c, rangeIndexes, rows, e, loose) == InContainer(rows, c)
    ensures RangesExact(schema, c, rangeIndexes, rows, e) ==>
              KeptOf(schema, c, rangeIndexes, rows, e, false) == KeptOf(schema, c, rangeIndexes, rows, e, true)
    ensures Safe(schema, c, rows, rangeIndexes, e) ==> FoundOf(schema, c, rows, e) <= KeptOf(schema, c, rangeIndexes, rows, e, false)
  {
    hide Kept, Proposes, RangesExact, Safe, Found, Normal;
    forall id | id in rows && rows[id].container == c
      ensures !Proposes(schema, c, rangeIndexes, e) ==> forall loose :: Kept(schema, c, rangeIndexes, rows, id, e, loose)
      ensures RangesExact(schema, c, rangeIndexes, rows, e) ==>
                (Kept(schema, c, rangeIndexes, rows, id, e, false) <==> Kept(schema, c, rangeIndexes, rows, id, e, true))
      ensures Safe(schema, c, rows, rangeIndexes, e) && Found(schema, c, id, rows[id], e) ==> Kept(schema, c, rangeIndexes, rows, id, e, false)
    {
      if !Proposes(schema, c, rangeIndexes, e) {
        UnproposedIsKept(schema, c, rangeIndexes, rows, id, e, false);
        UnproposedIsKept(schema, c, rangeIndexes, rows, id, e, true);
      }
      if RangesExact(schema, c, rangeIndexes, rows, e) {
        ExactIsTight(schema, c, rangeIndexes, rows, id, e);
      }
      if Safe(schema, c, rows, rangeIndexes, e) && Found(schema, c, id, rows[id], e) {
        FoundIsKept(schema, c, rangeIndexes, rows, id, e);
      }
    }
  }

  lemma SameSlicesIff(a: set<ItemId>, b: set<ItemId>)
    ensures (forall offset, limit :: Slice(Ascending(a), offset, limit) == Slice(Ascending(b), offset, limit)) <==> a == b
  {
    var whole := Slice(Ascending(a), 0, None);
    assert whole == Ascending(a) && Slice(Ascending(b), 0, None) == Ascending(b);
    if Ascending(a) == Ascending(b) {
      assert forall x :: x in a <==> x in Ascending(a);
      assert forall x :: x in b <==> x in Ascending(b);
    }
  }

  /** Every slice of what is shown is the slice of the matches exactly when every match is
      kept. */
  lemma ShownRightIff(schema: IndexSchema, c: ContainerId, rangeIndexes: seq<set<ColumnId>>, rows: Rows, filter: Expr)
    ensures var e, matching := Normalize(schema, c, filter, false), Matching(schema, c, rows, filter);
            (forall offset, limit ::
               Slice(Ascending(matching * KeptOf(schema, c, rangeIndexes, rows, e, false)), offset, limit) == Slice(Ascending(matching), offset, limit))
            <==> forall id :: id in matching ==> Kept(schema, c, rangeIndexes, rows, id, e, false)
  {
    hide Kept, Matches, Normalize, Slice, Ascending;
    var e, matching := Normalize(schema, c, filter, false), Matching(schema, c, rows, filter);
    SameSlicesIff(matching * KeptOf(schema, c, rangeIndexes, rows, e, false), matching);
  }

  lemma EmptySlice(offset: nat, limit: Option<nat>, keep: set<ItemId>)
    ensures Slice([], offset, limit) == [] && Only([], keep) == []
  {
  }

  lemma {:induction false} OnlySplit(a: seq<ItemId>, b: seq<ItemId>, keep: set<ItemId>)
    ensures Only(a + b, keep) == Only(a, keep) + Only(b, keep)
    decreases |b|
  {
    if b == [] {
      assert a + b == a;
    } else {
      var last := |b| - 1;
      assert a + b == (a + b[..last]) + [b[last]];
      OnlyNext(a + b[..last], b[last], keep);
      OnlySplit(a, b[..last], keep);
    }
  }

  lemma SameMatches(schema: IndexSchema, c: ContainerId, rows: Rows, e: Expr)
    ensures Matching(schema, c, rows, Normalize(schema, c, e, false)) == Matching(schema, c, rows, e)
  {
    hide Matches, Normalize;
    forall id | id in rows
      ensures Matches(schema, c, id, rows[id], Normalize(schema, c, e, false)) == Matches(schema, c, id, rows[id], e)
    {
      NormalizeMatches(schema, c, id, rows[id], e, false);
    }
  }

  lemma NegatedChild(schema: IndexSchema, c: ContainerId, e: Expr)
    requires e.Not? && Normal(schema, c, e)
    ensures Normal(schema, c, e.child) && ParentsIndexed(schema, c, e.child)
    ensures e.child.Leaf? || e.child.Everything?
  {
  }

  // ----- Where the answer falls short -----

  /** Whatever a negated filter of a column compares with, nothing matches it, exactly when
      the container has no items: so a lost negation is answered rightly exactly then. */
  lemma LostExactIff(schema: IndexSchema, c: ContainerId, rows: Rows, k: ColumnId)
    ensures (forall op, v :: Matching(schema, c, rows, Not(Leaf(Filter(ColumnRef(k), op, v)))) == {}) <==> InContainer(rows, c) == {}
  {
    hide Satisfies;
    if id :| id in InContainer(rows, c) {
      var v := CellAt(rows[id], k);
      DiffersFromItself(v);
      NegatedLeaf(schema, c, id, rows[id], Filter(ColumnRef(k), NotEqualTo, v));
      assert id in Matching(schema, c, rows, Not(Leaf(Filter(ColumnRef(k), NotEqualTo, v))));
    }
  }

  lemma NegatedLeaf(schema: IndexSchema, c: ContainerId, id: ItemId, row: Row, f: Filter)
    ensures Matches(schema, c, id, row, Not(Leaf(f))) <==> !LeafMatches(schema, c, id, row, f)
  {
    hide LeafMatches;
  }

  lemma DiffersFromItself(v: Value)
    ensures !Satisfies(v, NotEqualTo, v)
  {
  }

  /** Of one filter: its lost negation is answered rightly, whatever the slice, exactly when
      every item of the container has the variant and satisfies it. */
  lemma LostFilterExactIff(schema: IndexSchema, c: ContainerId, rows: Rows, f: Filter)
    requires f.ref.ColumnRef? && c in schema && f.ref.column in schema[c].columns
    ensures (forall offset, limit :: Slice(Ascending(Matching(schema, c, rows, Not(Leaf(f)))), offset, limit) == [])
       <==> forall id :: id in rows && rows[id].container == c ==>
              Applies(schema[c].columns[f.ref.column], rows[id]) && Satisfies(CellAt(rows[id], f.ref.column), f.op, f.value)
  {
    hide Satisfies, Applies, CellAt;
    var missed := Matching(schema, c, rows, Not(Leaf(f)));
    if missed == {} {
      assert Ascending(missed) == [];
      forall id | id in rows && rows[id].container == c
        ensures Applies(schema[c].columns[f.ref.column], rows[id]) && Satisfies(CellAt(rows[id], f.ref.column), f.op, f.value)
      {
        assert id !in missed;
        NegatedLeaf(schema, c, id, rows[id], f);
      }
    } else {
      var id :| id in missed;
      NegatedLeaf(schema, c, id, rows[id], f);
      assert id in Ascending(missed);
      assert Slice(Ascending(missed), 0, None) == Ascending(missed);
    }
  }

  const START: ColumnInfo := ColumnInfo(2, false, None, false, None)
  const NICKNAME: ColumnInfo := ColumnInfo(2, false, Some(1), false, None)

  /** A table with an interval index from column 1 to column 2, grouped by column 5, which
      only the items of variant 1 have. None of the columns has an index of its own. */
  const Spans: IndexSchema :=
    map[0 := ContainerInfo(map[1 := START, 2 := START, 5 := NICKNAME], true, {}, [IntervalInfo([5], 1, 2)], [])]

  /** The same without a grouping. */
  const Ungrouped: IndexSchema := map[0 := ContainerInfo(map[1 := START, 2 := START], true, {}, [IntervalInfo([], 1, 2)], [])]

  /** A negated column without an index of its own finds nothing, though the engine lets it
      be asked and the item matches: its variant does not have the column. */
  method NegatedUnindexedColumn() returns (result: seq<ItemId>)
    ensures result == []
    ensures var f := Filter(ColumnRef(5), EqualTo, Int64(7));
            Queryable(Spans, 0, f.ref) && Matching(Spans, 0, map[1 := Row(0, Some(2), map[1 := Int64(0), 2 := Int64(10)])], Not(Leaf(f))) == {1}
  {
    hide RuntimeIndexStore.Valid, Slice;
    var store := new RuntimeIndexStore(Spans, e => 0);
    var row := Row(0, Some(2), map[1 := Int64(0), 2 := Int64(10)]);
    ghost var none: Rows := store.rows;
    store.AddItem(1, row);
    assert store.rows == map[1 := row];
    var f := Filter(ColumnRef(5), EqualTo, Int64(7));
    SpansFacts(f, row);
    var engine := new QueryEngine(store, 0, []);
    ghost var shown;
    result, shown := engine.Execute(map[1 := row], Not(Leaf(f)), 0, None);
    EmptySlice(0, None, {});
  }

  lemma SpansFacts(f: Filter, row: Row)
    requires f == Filter(ColumnRef(5), EqualTo, Int64(7)) && row == Row(0, Some(2), map[1 := Int64(0), 2 := Int64(10)])
    ensures Normalize(Spans, 0, Not(Leaf(f)), false) == Not(Leaf(f)) && Lost(Spans, 0, Not(Leaf(f)))
    ensures ParentsIndexed(Spans, 0, Not(Leaf(f))) && Queryable(Spans, 0, f.ref)
    ensures Sensible(Spans, map[1 := row]) && Matching(Spans, 0, map[1 := row], Not(Leaf(f))) == {1}
  {
    hide Satisfies;
    assert Spans[0].columns[5] == NICKNAME;
    assert Spans[0].intervals[0] == IntervalInfo([5], 1, 2) && 5 in Spans[0].intervals[0].groupBy;
    assert !LeafMatches(Spans, 0, 1, row, f);
    assert Matches(Spans, 0, 1, row, Not(Leaf(f)));
    assert 1 in Matching(Spans, 0, map[1 := row], Not(Leaf(f)));
  }

  function BothBounds(below: Value, above: Value): (e: Expr)
    ensures e.All?
  {
    All([Leaf(Filter(ColumnRef(1), LessThan, below)), Leaf(Filter(ColumnRef(2), GreaterThan, above))])
  }

  /** A probe that is no interval finds nothing, though the stored interval begins before its
      end and ends behind its start. */
  method ReversedProbeFindsNothing() returns (result: seq<ItemId>)
    ensures result == []
    ensures Matching(Ungrouped, 0, map[1 := Row(0, None, map[1 := Int64(0), 2 := Int64(10)])], BothBounds(Int64(5), Int64(7))) == {1}
  {
    hide Matching;
    result := AskBounds(Ungrouped, [], Row(0, None, map[1 := Int64(0), 2 := Int64(10)]), Int64(5), Int64(7));
  }

  /** Nor does a valid probe find an interval without a start, though nothing is less than a
      start. */
  method NullStartFindsNothing() returns (result: seq<ItemId>)
    ensures result == []
    ensures Matching(Ungrouped, 0, map[1 := Row(0, None, map[2 := Int64(10)])], BothBounds(Int64(5), Int64(3))) == {1}
  {
    hide Matching;
    result := AskBounds(Ungrouped, [], Row(0, None, map[2 := Int64(10)]), Int64(5), Int64(3));
  }

  /** Two columns with a range index. */
  const Ranged: IndexSchema := map[0 := ContainerInfo(map[1 := ColumnInfo(2, true, None, true, None), 2 := ColumnInfo(2, true, None, true, None)], true, {}, [], [])]

  /** A range index finds no item without a number below a bound, though nothing is less. */
  method NullBelowBoundFindsNothing() returns (result: seq<ItemId>)
    ensures result == []
    ensures Matching(Ranged, 0, map[1 := Row(0, None, map[2 := Int64(10)])], BothBounds(Int64(5), Int64(7))) == {1}
  {
    hide Matching, BothBounds, Dropped;
    RangedFacts(Row(0, None, map[2 := Int64(10)]), Int64(5));
    result := AskBounds(Ranged, [{1, 2}], Row(0, None, map[2 := Int64(10)]), Int64(5), Int64(7));
  }

  /** And it compares a signed 10 with an unsigned 5 as numbers, where the filter goes by
      their types. */
  method MixedTypesFindNothing() returns (result: seq<ItemId>)
    ensures result == []
    ensures Matching(Ranged, 0, map[1 := Row(0, None, map[1 := Int64(10), 2 := Int64(10)])], BothBounds(UInt64(5), Int64(7))) == {1}
  {
    hide Matching, BothBounds, Dropped;
    RangedFacts(Row(0, None, map[1 := Int64(10), 2 := Int64(10)]), UInt64(5));
    result := AskBounds(Ranged, [{1, 2}], Row(0, None, map[1 := Int64(10), 2 := Int64(10)]), UInt64(5), Int64(7));
  }

  /** A conjunction that the one row matches, and that its shortcut does not keep it of. */
  ghost predicate Dropped(schema: IndexSchema, rangeIndexes: seq<set<ColumnId>>, row: Row, e: Expr)
    requires e.All?
  {
    match FirstProbe(IntervalsOf(schema, 0), e.children)
    case Some((i, probe)) => !IntervalKept(row, IntervalsOf(schema, 0)[i], probe)
    case None =>
      TakesRange(schema, 0, rangeIndexes, e)
      && !RangeKept(PointsOf(schema, map[1 := row], 0), 1, ConstraintsOf(RangeFilters(schema, 0, e).value), true)
  }

  lemma RangedFacts(row: Row, below: Value)
    requires row == Row(0, None, map[2 := Int64(10)]) || row == Row(0, None, map[1 := Int64(10), 2 := Int64(10)])
    requires below == Int64(5) || below == UInt64(5)
    ensures Dropped(Ranged, [{1, 2}], row, BothBounds(below, Int64(7)))
  {
    hide K.Contains, K.Carried, K.Carries;
    var e := BothBounds(below, Int64(7));
    var lower, upper := e.children[0].filter, e.children[1].filter;
    assert Ranged[0].columns[1].tag == 2 && Ranged[0].columns[2].tag == 2;
    assert e.children[1..] == [Leaf(upper)] && [Leaf(upper)][1..] == [];
    assert RangeFilters(Ranged, 0, Leaf(lower)) == Some([lower]) && RangeFilters(Ranged, 0, Leaf(upper)) == Some([upper]);
    assert RangeFiltersOf(Ranged, 0, []) == Some([]) && [upper] + [] == [upper] && [lower] + [upper] == [lower, upper];
    assert [Leaf(upper)][0] == Leaf(upper) && e.children[0] == Leaf(lower);
    assert RangeFiltersOf(Ranged, 0, [Leaf(upper)]) == Some([upper]);
    assert RangeFiltersOf(Ranged, 0, e.children) == Some([lower, upper]);
    assert Declared([{1, 2}], [lower, upper]) by {
      assert [{1, 2}][0] == {1, 2};
    }
    NotKept(row, lower, upper);
  }

  lemma NotKept(row: Row, lower: Filter, upper: Filter)
    requires row == Row(0, None, map[2 := Int64(10)]) || row == Row(0, None, map[1 := Int64(10), 2 := Int64(10)])
    requires lower.ref == ColumnRef(1) && lower.op == LessThan && (lower.value == Int64(5) || lower.value == UInt64(5))
    requires upper.ref == ColumnRef(2)
    ensures !RangeKept(PointsOf(Ranged, map[1 := row], 0), 1, ConstraintsOf([lower, upper]), true)
  {
    var points, constraints := PointsOf(Ranged, map[1 := row], 0), ConstraintsOf([lower, upper]);
    assert constraints[0] == K.Constraint(1, LessThan, Some(5)) && constraints[1].field == 2;
    assert Ranged[0].columns[1].ranged && Ranged[0].columns[2].ranged;
    if 1 in points && 1 in row.cells {
      assert points[1] == Coordinates(Ranged, row);
      assert 1 in points[1] && points[1][1] == 10 && 2 in points[1];
    }
  }

  /** Such a row stored, and asked for. */
  method AskBounds(schema: IndexSchema, rangeIndexes: seq<set<ColumnId>>, row: Row, below: Value, above: Value) returns (result: seq<ItemId>)
    requires row.container == 0 && row.variant == None && Dropped(schema, rangeIndexes, row, BothBounds(below, above))
    requires 0 in schema && forall k :: k in schema[0].columns ==> schema[0].columns[k].variant == None
    requires Less(CellAt(row, 1), below) && Less(above, CellAt(row, 2))
    ensures result == [] && Matching(schema, 0, map[1 := row], BothBounds(below, above)) == {1}
  {
    hide RuntimeIndexStore.Valid, Slice, Dropped, FirstProbe, Less, CellAt;
    BothMatch(schema, row, below, above);
    var store := new RuntimeIndexStore(schema, e => 0);
    store.AddItem(1, row);
    assert store.rows == map[1 := row];
    var e := BothBounds(below, above);
    BoundsFacts(schema, rangeIndexes, row, below, above);
    var engine := new QueryEngine(store, 0, rangeIndexes);
    ghost var shown;
    result, shown := engine.Execute(map[1 := row], e, 0, None);
    EmptySlice(0, None, {});
  }

  lemma BothMatch(schema: IndexSchema, row: Row, below: Value, above: Value)
    requires row.container == 0 && row.variant == None
    requires 0 in schema && forall k :: k in schema[0].columns ==> schema[0].columns[k].variant == None
    requires Less(CellAt(row, 1), below) && Less(above, CellAt(row, 2))
    ensures Matching(schema, 0, map[1 := row], BothBounds(below, above)) == {1}
  {
    hide Compare, CellAt;
    CompareTotal(above, CellAt(row, 2));
    var e := BothBounds(below, above);
    assert Matches(schema, 0, 1, row, e.children[0]) && Matches(schema, 0, 1, row, e.children[1]);
    assert 1 in Matching(schema, 0, map[1 := row], e);
  }

  lemma BoundsFacts(schema: IndexSchema, rangeIndexes: seq<set<ColumnId>>, row: Row, below: Value, above: Value)
    requires row.container == 0 && row.variant == None && Dropped(schema, rangeIndexes, row, BothBounds(below, above))
    ensures var e := BothBounds(below, above);
            Normalize(schema, 0, e, false) == e && ParentsIndexed(schema, 0, e) && Sensible(schema, map[1 := row])
            && KeptOf(schema, 0, rangeIndexes, map[1 := row], e, true) == {}
  {
    hide FirstProbe, TakesRange, IntervalKept, RangeKept, RangeFilters, ConstraintsOf, PointsOf;
    var e := BothBounds(below, above);
    assert Normalize(schema, 0, e.children[0], false) == e.children[0] && Normalize(schema, 0, e.children[1], false) == e.children[1];
    assert Normalize(schema, 0, e, false).children == e.children;
  }
}
