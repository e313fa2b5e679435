/** The lazily rebuilt kd-tree of a container's numeric columns (`ContainerRangeIndex`,
    src/support/runtime_index.cpp:319-386, 690-837). */
module KdTrees {
  import opened Wrappers
  import opened Sequences
  import opened Values

  type ItemId = nat
  type ContainerId = nat
  type Field = nat

  /** A constraint on a field. Its bound is missing when its value is no number. */
  datatype Constraint = Constraint(field: Field, op: Operator, bound: Option<int>)

  /** `constraintContains`. */
  predicate Contains(c: Constraint, v: int) {
    c.bound.Some? && match c.op
      case EqualTo => v == c.bound.value
      case NotEqualTo => v != c.bound.value
      case GreaterThan => v > c.bound.value
      case LessThan => v < c.bound.value
      case AtLeast => v >= c.bound.value
      case AtMost => v <= c.bound.value
  }

  /** `boundsOutside`. */
  predicate Outside(c: Constraint, lo: int, hi: int) {
    c.bound.None? || match c.op
      case EqualTo => c.bound.value < lo || c.bound.value > hi
      case NotEqualTo => lo == hi && lo == c.bound.value
      case GreaterThan => hi <= c.bound.value
      case LessThan => lo >= c.bound.value
      case AtLeast => hi < c.bound.value
      case AtMost => lo > c.bound.value
  }

  /** `boundsInside`. */
  predicate Inside(c: Constraint, lo: int, hi: int) {
    c.bound.Some? && match c.op
      case EqualTo => lo == hi && lo == c.bound.value
      case NotEqualTo => c.bound.value < lo || c.bound.value > hi
      case GreaterThan => lo > c.bound.value
      case LessThan => hi < c.bound.value
      case AtLeast => lo >= c.bound.value
      case AtMost => hi <= c.bound.value
  }

  /** The two box tests say exactly whether none, and whether all, of a box satisfies the
      constraint. */
  lemma BoxTestsExact(c: Constraint, lo: int, hi: int)
    requires lo <= hi
    ensures Outside(c, lo, hi) <==> forall v :: lo <= v <= hi ==> !Contains(c, v)
    ensures Inside(c, lo, hi) <==> forall v :: lo <= v <= hi ==> Contains(c, v)
  {
    if c.bound.Some? {
      var b := c.bound.value;
      if forall v :: lo <= v <= hi ==> Contains(c, v) {
        assert Contains(c, lo) && Contains(c, hi);
        assert lo <= b <= hi ==> Contains(c, b);
      }
      if forall v :: lo <= v <= hi ==> !Contains(c, v) {
        assert !Contains(c, lo) && !Contains(c, hi);
        assert lo <= b <= hi ==> !Contains(c, b);
      }
    } else {
      assert !Contains(c, lo);
    }
  }

  type Coordinates = map<Field, int>

  datatype Point = Point(id: ItemId, values: Coordinates)

  /** The point has every constrained field, and satisfies every constraint. */
  predicate Matches(values: Coordinates, constraints: seq<Constraint>) {
    forall i :: 0 <= i < |constraints| ==> constraints[i].field in values && Contains(constraints[i], values[constraints[i].field])
  }

  predicate Carries(values: Coordinates, constraints: seq<Constraint>) {
    forall i :: 0 <= i < |constraints| ==> constraints[i].field in values
  }

  datatype Span = Span(lo: int, hi: int)

  /** A node holds the ids below it, a box around their points, and either the positions
      of a few points or two subtrees. */
  datatype Tree =
    | Empty
    | Leaf(ids: set<ItemId>, bounds: map<Field, Span>, points: seq<nat>)
    | Node(ids: set<ItemId>, bounds: map<Field, Span>, left: Tree, right: Tree)

  /** The positions of the points below a node. */
  function Members(t: Tree): set<nat> {
    match t
    case Empty => {}
    case Leaf(_, _, points) => SetOf(points)
    case Node(_, _, left, right) => Members(left) + Members(right)
  }

  function IdsOf(points: seq<Point>, members: set<nat>): set<ItemId> {
    set i | i in members && i < |points| :: points[i].id
  }

  /** The box around some points: a field is in it when a point has it, and then it spans
      from the least to the greatest value. */
  ghost predicate Box(points: seq<Point>, members: set<nat>, bounds: map<Field, Span>) {
    && (forall i, f :: i in members && i < |points| && f in points[i].values ==>
          f in bounds && bounds[f].lo <= points[i].values[f] <= bounds[f].hi)
    && (forall f :: f in bounds ==> Attained(points, members, f, bounds[f].lo) && Attained(points, members, f, bounds[f].hi))
  }

  ghost predicate Attained(points: seq<Point>, members: set<nat>, f: Field, v: int) {
    exists i :: i in members && i < |points| && f in points[i].values && points[i].values[f] == v
  }

  ghost predicate Sound(t: Tree, points: seq<Point>) {
    && (forall i :: i in Members(t) ==> i < |points|)
    && match t
       case Empty => true
       case Leaf(ids, bounds, _) => ids == IdsOf(points, Members(t)) && Box(points, Members(t), bounds)
       case Node(ids, bounds, left, right) =>
         ids == IdsOf(points, Members(t)) && Box(points, Members(t), bounds) && Sound(left, points) && Sound(right, points)
  }

  // ----- Building -----

  /** A span widened to take in a value. */
  function Widened(span: Option<Span>, v: Option<int>): (r: Span)
    requires span.Some? || v.Some?
  {
    match (span, v)
    case (None, Some(x)) => Span(x, x)
    case (Some(s), None) => s
    case (Some(s), Some(x)) => Span(if x < s.lo then x else s.lo, if x > s.hi then x else s.hi)
  }

  /** The box grown by one point. */
  method Grow(points: seq<Point>, ghost members: set<nat>, bounds: map<Field, Span>, i: nat) returns (grown: map<Field, Span>)
    requires i < |points| && Box(points, members, bounds)
    ensures Box(points, members + {i}, grown)
  {
    hide Attained;
    var values := points[i].values;
    grown := map f | f in bounds.Keys + values.Keys :: Widened(Held(bounds, f), Held(values, f));
    forall j, f | j in members + {i} && j < |points| && f in points[j].values
      ensures f in grown && grown[f].lo <= points[j].values[f] <= grown[f].hi
    {
      if j in members {
        assert f in bounds;
      }
    }
    forall f | f in grown
      ensures Attained(points, members + {i}, f, grown[f].lo) && Attained(points, members + {i}, f, grown[f].hi)
    {
      if f in bounds {
        AttainedMore(points, members, i, f, bounds[f].lo);
        AttainedMore(points, members, i, f, bounds[f].hi);
      }
      if f in values {
        AttainedByNew(points, members, i, f);
      }
    }
  }

  lemma AttainedByNew(points: seq<Point>, members: set<nat>, i: nat, f: Field)
    requires i < |points| && f in points[i].values
    ensures Attained(points, members + {i}, f, points[i].values[f])
  {
    assert i in members + {i};
  }

  lemma AttainedMore(points: seq<Point>, members: set<nat>, i: nat, f: Field, v: int)
    requires Attained(points, members, f, v)
    ensures Attained(points, members + {i}, f, v)
  {
    var j :| j in members && j < |points| && f in points[j].values && points[j].values[f] == v;
    assert j in members + {i};
  }

  /** The ids and the box of some points. */
  method Summarise(points: seq<Point>, indexes: seq<nat>) returns (ids: set<ItemId>, bounds: map<Field, Span>)
    requires forall i :: i in indexes ==> i < |points|
    ensures ids == IdsOf(points, SetOf(indexes)) && Box(points, SetOf(indexes), bounds)
  {
    hide Box;
    ids, bounds := {}, map[];
    EmptyBox(points);
    for k := 0 to |indexes|
      invariant ids == IdsOf(points, SetOf(indexes[..k])) && Box(points, SetOf(indexes[..k]), bounds)
    {
      assert indexes[k] in indexes;
      assert SetOf(indexes[..k + 1]) == SetOf(indexes[..k]) + {indexes[k]};
      bounds := Grow(points, SetOf(indexes[..k]), bounds, indexes[k]);
      IdsMore(points, SetOf(indexes[..k]), indexes[k]);
      ids := ids + {points[indexes[k]].id};
    }
    assert indexes[..|indexes|] == indexes;
  }

  lemma EmptyBox(points: seq<Point>)
    ensures Box(points, SetOf([]), map[]) && IdsOf(points, SetOf([])) == {}
  {
  }

  lemma IdsMore(points: seq<Point>, members: set<nat>, i: nat)
    requires i < |points|
    ensures IdsOf(points, members + {i}) == IdsOf(points, members) + {points[i].id}
  {
    forall id | id in IdsOf(points, members) + {points[i].id}
      ensures id in IdsOf(points, members + {i})
    {
      if id in IdsOf(points, members) {
        var j :| j in members && j < |points| && points[j].id == id;
        assert j in members + {i};
      } else {
        assert i in members + {i};
      }
    }
  }

  /** The order by a field. Points without it come first. */
  predicate Before(points: seq<Point>, f: Field, i: nat, j: nat) {
    i < |points| && j < |points| &&
    (f in points[i].values ==> f in points[j].values && points[i].values[f] <= points[j].values[f])
  }

  ghost predicate SortedBy(points: seq<Point>, f: Field, s: seq<nat>) {
    forall i, j :: 0 <= i < j < |s| ==> Before(points, f, s[i], s[j])
  }

  /** `stable_sort` by a field. */
  method SortByField(points: seq<Point>, f: Field, indexes: seq<nat>) returns (sorted: seq<nat>)
    requires forall i :: i in indexes ==> i < |points|
    ensures multiset(sorted) == multiset(indexes) && SortedBy(points, f, sorted)
  {
    hide Before;
    sorted := [];
    for k := 0 to |indexes|
      invariant multiset(sorted) == multiset(indexes[..k]) && SortedBy(points, f, sorted)
      invariant forall i :: i in sorted ==> i < |points|
    {
      assert indexes[..k + 1] == indexes[..k] + [indexes[k]];
      assert indexes[k] in indexes;
      ghost var was := sorted;
      sorted := InsertByField(points, f, sorted, indexes[k]);
      OneMoreMember(was, indexes[k], sorted);
    }
    assert indexes[..|indexes|] == indexes;
  }

  method InsertByField(points: seq<Point>, f: Field, sorted: seq<nat>, x: nat) returns (more: seq<nat>)
    requires SortedBy(points, f, sorted) && x < |points| && forall i :: i in sorted ==> i < |points|
    ensures multiset(more) == multiset(sorted) + multiset{x} && SortedBy(points, f, more)
  {
    hide Before;
    var at: nat := |sorted|;
    while at > 0 && !Before(points, f, sorted[at - 1], x)
      invariant at <= |sorted| && forall j :: at <= j < |sorted| ==> Before(points, f, x, sorted[j])
    {
      assert sorted[at - 1] in sorted;
      EitherBefore(points, f, sorted[at - 1], x);
      at := at - 1;
    }
    more := sorted[..at] + [x] + sorted[at..];
    assert sorted == sorted[..at] + sorted[at..];
    Inserted(points, f, sorted, at, x);
  }

  lemma OneMoreMember(a: seq<nat>, x: nat, b: seq<nat>)
    requires multiset(b) == multiset(a) + multiset{x}
    ensures forall i :: i in b ==> i in a || i == x
  {
    forall i | i in b
      ensures i in a || i == x
    {
      assert i in multiset(b);
    }
  }

  lemma EitherBefore(points: seq<Point>, f: Field, i: nat, j: nat)
    requires i < |points| && j < |points|
    ensures Before(points, f, i, j) || Before(points, f, j, i)
  {
  }

  lemma BeforeThrough(points: seq<Point>, f: Field, i: nat, j: nat, k: nat)
    requires Before(points, f, i, j) && Before(points, f, j, k)
    ensures Before(points, f, i, k)
  {
  }

  lemma Inserted(points: seq<Point>, f: Field, sorted: seq<nat>, at: nat, x: nat)
    requires SortedBy(points, f, sorted) && at <= |sorted|
    requires at > 0 ==> Before(points, f, sorted[at - 1], x)
    requires forall j :: at <= j < |sorted| ==> Before(points, f, x, sorted[j])
    ensures SortedBy(points, f, sorted[..at] + [x] + sorted[at..])
  {
    hide Before;
    var more := sorted[..at] + [x] + sorted[at..];
    forall i | 0 <= i < at
      ensures Before(points, f, sorted[i], x)
    {
      if i < at - 1 {
        BeforeThrough(points, f, sorted[i], sorted[at - 1], x);
      }
    }
    forall i, j | 0 <= i < j < |more|
      ensures Before(points, f, more[i], more[j])
    {
      var a, b := if i < at then i else i - 1, if j < at then j else j - 1;
      assert i != at ==> more[i] == sorted[a];
      assert j != at ==> more[j] == sorted[b];
    }
  }

  const LEAF_SIZE := 32

  /** The recursive build. Half of more than 32 points is fewer, so it ends. */
  method Build(points: seq<Point>, dimensions: seq<Field>, indexes: seq<nat>, depth: nat) returns (t: Tree)
    requires forall i :: i in indexes ==> i < |points|
    ensures Sound(t, points) && Members(t) == SetOf(indexes)
    decreases |indexes|
  {
    hide Box, IdsOf, SortedBy;
    if indexes == [] {
      return Empty;
    }
    var ids, bounds := Summarise(points, indexes);
    if |indexes| <= LEAF_SIZE || dimensions == [] {
      return Leaf(ids, bounds, indexes);
    }
    var splitField := dimensions[depth % |dimensions|];
    var sorted := SortByField(points, splitField, indexes);
    SameMembers(sorted, indexes);
    var mid := |sorted| / 2;
    assert sorted == sorted[..mid] + sorted[mid..];
    assert SetOf(sorted) == SetOf(sorted[..mid]) + SetOf(sorted[mid..]);
    assert forall i :: i in sorted[..mid] || i in sorted[mid..] ==> i in sorted;
    var left := Build(points, dimensions, sorted[..mid], depth + 1);
    var right := Build(points, dimensions, sorted[mid..], depth + 1);
    t := Node(ids, bounds, left, right);
  }

  lemma SameMembers(a: seq<nat>, b: seq<nat>)
    requires multiset(a) == multiset(b)
    ensures |a| == |b| && SetOf(a) == SetOf(b) && forall i :: i in a <==> i in b
  {
    assert |a| == |multiset(a)| == |multiset(b)| == |b|;
    forall i
      ensures i in a <==> i in b
    {
      assert i in multiset(a) <==> i in multiset(b);
    }
  }

  // ----- Visiting -----

  /** The box lets every, or no, point of a node through. */
  predicate InsideAll(bounds: map<Field, Span>, constraints: seq<Constraint>) {
    forall i :: 0 <= i < |constraints| ==>
      constraints[i].field in bounds && Inside(constraints[i], bounds[constraints[i].field].lo, bounds[constraints[i].field].hi)
  }

  predicate OutsideSome(bounds: map<Field, Span>, constraints: seq<Constraint>) {
    exists i :: 0 <= i < |constraints| &&
      (constraints[i].field !in bounds || Outside(constraints[i], bounds[constraints[i].field].lo, bounds[constraints[i].field].hi))
  }

  lemma PrunedHasNoMatch(points: seq<Point>, members: set<nat>, bounds: map<Field, Span>, constraints: seq<Constraint>, i: nat)
    requires Box(points, members, bounds) && OutsideSome(bounds, constraints) && i in members && i < |points|
    ensures !Matches(points[i].values, constraints)
  {
    var k :| 0 <= k < |constraints| &&
      (constraints[k].field !in bounds || Outside(constraints[k], bounds[constraints[k].field].lo, bounds[constraints[k].field].hi));
    var f := constraints[k].field;
    if f in points[i].values {
      BoxTestsExact(constraints[k], bounds[f].lo, bounds[f].hi);
    }
  }

  lemma InsideMatches(points: seq<Point>, members: set<nat>, bounds: map<Field, Span>, constraints: seq<Constraint>, i: nat)
    requires Box(points, members, bounds) && InsideAll(bounds, constraints) && i in members && i < |points|
    requires Carries(points[i].values, constraints)
    ensures Matches(points[i].values, constraints)
  {
    forall k | 0 <= k < |constraints|
      ensures Contains(constraints[k], points[i].values[constraints[k].field])
    {
      var f := constraints[k].field;
      BoxTestsExact(constraints[k], bounds[f].lo, bounds[f].hi);
    }
  }

  /** No box lies inside and outside. */
  lemma NotBothWays(points: seq<Point>, members: set<nat>, bounds: map<Field, Span>, constraints: seq<Constraint>)
    requires Box(points, members, bounds)
    ensures !(InsideAll(bounds, constraints) && OutsideSome(bounds, constraints))
  {
    forall k | 0 <= k < |constraints| && constraints[k].field in bounds
      ensures var span := bounds[constraints[k].field]; !(Inside(constraints[k], span.lo, span.hi) && Outside(constraints[k], span.lo, span.hi))
    {
      var c, f := constraints[k], constraints[k].field;
      var i :| i in members && i < |points| && f in points[i].values && points[i].values[f] == bounds[f].lo;
      BoxTestsExact(c, bounds[f].lo, bounds[f].hi);
    }
  }

  /** The box tests of a node, constraint by constraint. */
  method TestBox(bounds: map<Field, Span>, constraints: seq<Constraint>) returns (outside: bool, insideAll: bool)
    ensures outside == OutsideSome(bounds, constraints)
    ensures !outside ==> insideAll == InsideAll(bounds, constraints)
  {
    insideAll := true;
    for k := 0 to |constraints|
      invariant !OutsideSome(bounds, constraints[..k])
      invariant insideAll == InsideAll(bounds, constraints[..k])
    {
      var c := constraints[k];
      assert constraints[..k + 1] == constraints[..k] + [c];
      if c.field !in bounds || Outside(c, bounds[c.field].lo, bounds[c.field].hi) {
        return true, false;
      }
      insideAll := insideAll && Inside(c, bounds[c.field].lo, bounds[c.field].hi);
    }
    assert constraints[..|constraints|] == constraints;
    outside := false;
  }

  /** What a visit may find: every match, and of the points that have all constrained
      fields only the matches. */
  ghost predicate Finds(points: seq<Point>, members: set<nat>, constraints: seq<Constraint>, found: set<nat>) {
    && found <= members
    && (forall i :: i in members && i < |points| && Matches(points[i].values, constraints) ==> i in found)
    && (forall i :: i in found && i < |points| && Carries(points[i].values, constraints) ==> Matches(points[i].values, constraints))
  }

  /** The pruned visit. `found` are the positions whose ids it gives. */
  method Visit(t: Tree, points: seq<Point>, constraints: seq<Constraint>) returns (result: set<ItemId>, ghost found: set<nat>)
    requires Sound(t, points)
    ensures Finds(points, Members(t), constraints, found) && result == IdsOf(points, found)
    ensures !t.Empty? && OutsideSome(t.bounds, constraints) ==> found == {}
    ensures !t.Empty? && InsideAll(t.bounds, constraints) ==> found == Members(t)
    decreases t
  {
    hide Box, Matches, Carries, OutsideSome, InsideAll;
    result, found := {}, {};
    if t.Empty? {
      return;
    }
    var outside, insideAll := TestBox(t.bounds, constraints);
    NotBothWays(points, Members(t), t.bounds, constraints);
    if outside {
      forall i | i in Members(t)
        ensures !Matches(points[i].values, constraints)
      {
        PrunedHasNoMatch(points, Members(t), t.bounds, constraints, i);
      }
      return;
    }
    if insideAll {
      forall i | i in Members(t) && Carries(points[i].values, constraints)
        ensures Matches(points[i].values, constraints)
      {
        InsideMatches(points, Members(t), t.bounds, constraints, i);
      }
      return t.ids, Members(t);
    }
    if t.Leaf? {
      assert forall i :: i in t.points ==> i in Members(t);
      result, found := Sift(points, t.points, constraints);
    } else {
      var a, foundLeft := Visit(t.left, points, constraints);
      var b, foundRight := Visit(t.right, points, constraints);
      result, found := a + b, foundLeft + foundRight;
      IdsOfBoth(points, foundLeft, foundRight);
    }
  }

  lemma IdsOfBoth(points: seq<Point>, a: set<nat>, b: set<nat>)
    ensures IdsOf(points, a + b) == IdsOf(points, a) + IdsOf(points, b)
  {
    forall id | id in IdsOf(points, a) + IdsOf(points, b)
      ensures id in IdsOf(points, a + b)
    {
      if id in IdsOf(points, a) {
        var i :| i in a && i < |points| && points[i].id == id;
        assert i in a + b;
      } else {
        var i :| i in b && i < |points| && points[i].id == id;
        assert i in a + b;
      }
    }
  }

  /** The points of a leaf, one by one. */
  method Sift(points: seq<Point>, leaf: seq<nat>, constraints: seq<Constraint>) returns (result: set<ItemId>, ghost found: set<nat>)
    requires forall i :: i in leaf ==> i < |points|
    ensures Finds(points, SetOf(leaf), constraints, found) && result == IdsOf(points, found)
  {
    hide Matches, Carries, IdsOf;
    result, found := {}, {};
    NoIds(points);
    for k := 0 to |leaf|
      invariant found == set i | i in leaf[..k] && i < |points| && Matches(points[i].values, constraints)
      invariant result == IdsOf(points, found)
    {
      assert leaf[..k + 1] == leaf[..k] + [leaf[k]] && leaf[k] in leaf;
      if Matches(points[leaf[k]].values, constraints) {
        IdsMore(points, found, leaf[k]);
        result, found := result + {points[leaf[k]].id}, found + {leaf[k]};
      }
    }
    assert leaf[..|leaf|] == leaf;
  }

  lemma NoIds(points: seq<Point>)
    ensures IdsOf(points, {}) == {}
  {
  }

  // ----- The index -----

  /** A container's points, and the tree over them, which is out of date while `dirty`. */
  datatype Container =
    Container(pointById: map<ItemId, Coordinates>, points: seq<Point>, dimensions: seq<Field>, root: Tree, dirty: bool)

  /** The points listed, each id once. */
  ghost predicate Lists(points: seq<Point>, pointById: map<ItemId, Coordinates>) {
    && (forall i :: 0 <= i < |points| ==> points[i].id in pointById && points[i].values == pointById[points[i].id])
    && (forall i, j :: 0 <= i < j < |points| ==> points[i].id != points[j].id)
    && (forall id :: id in pointById ==> Listed(points, id))
  }

  ghost predicate Listed(points: seq<Point>, id: ItemId) {
    exists i :: 0 <= i < |points| && points[i].id == id
  }

  ghost predicate CacheValid(c: Container) {
    !c.dirty ==> Lists(c.points, c.pointById) && Sound(c.root, c.points) && Members(c.root) == Range(|c.points|)
  }

  ghost predicate Carried(points: map<ItemId, Coordinates>, f: Field) {
    exists id :: id in points && f in points[id]
  }

  /** The constraint holds on the whole span of the values that points have. */
  ghost predicate SpanInside(points: map<ItemId, Coordinates>, c: Constraint) {
    && Carried(points, c.field)
    && forall a, b, v: int ::
         (a in points && b in points && c.field in points[a] && c.field in points[b] && points[a][c.field] <= v <= points[b][c.field])
         ==> Contains(c, v)
  }

  /** What a query answers: every match, and of the points that have all constrained fields
      only the matches; but all points when the constraints hold on the whole spans, and
      none when a constrained field is missing everywhere. */
  ghost predicate Answers(points: map<ItemId, Coordinates>, constraints: seq<Constraint>, result: set<ItemId>) {
    && result <= points.Keys
    && (forall id :: id in points && Matches(points[id], constraints) ==> id in result)
    && (forall id :: id in result && Carries(points[id], constraints) ==> Matches(points[id], constraints))
    && ((forall i :: 0 <= i < |constraints| ==> SpanInside(points, constraints[i])) ==> result == points.Keys)
    && ((exists i :: 0 <= i < |constraints| && !Carried(points, constraints[i].field)) ==> result == {})
  }

  class ContainerRangeIndex {
    var containers: map<ContainerId, Container>

    ghost predicate Valid()
      reads this
    {
      forall c :: c in containers ==> CacheValid(containers[c])
    }

    /** The points of a container. */
    ghost function Points(c: ContainerId): map<ItemId, Coordinates>
      reads this
    {
      if c in containers then containers[c].pointById else map[]
    }

    constructor ()
      ensures Valid() && forall c :: Points(c) == map[]
    {
      containers := map[];
    }

    /** `add`: an item without a numeric value leaves the index as it is. */
    method Add(c: ContainerId, id: ItemId, values: Coordinates)
      requires Valid()
      modifies this
      ensures Valid()
      ensures Points(c) == if values == map[] then old(Points(c)) else old(Points(c))[id := values]
      ensures forall other :: other != c ==> Points(other) == old(Points(other))
    {
      if values == map[] {
        return;
      }
      var container := if c in containers then containers[c] else Container(map[], [], [], Empty, true);
      containers := containers[c := container.(pointById := container.pointById[id := values], dirty := true)];
    }

    method Remove(c: ContainerId, id: ItemId)
      requires Valid()
      modifies this
      ensures Valid()
      ensures Points(c) == old(Points(c)) - {id}
      ensures forall other :: other != c ==> Points(other) == old(Points(other))
    {
      if c !in containers {
        return;
      }
      var container := containers[c];
      var rest := container.pointById - {id};
      if rest == map[] {
        containers := containers - {c};
      } else {
        containers := containers[c := container.(pointById := rest, dirty := true)];
      }
    }

    /** `query`: rebuilds the tree if points have changed, then visits it. */
    method Query(c: ContainerId, constraints: seq<Constraint>) returns (result: set<ItemId>)
      requires Valid()
      modifies this
      ensures Valid() && forall k :: Points(k) == old(Points(k))
      ensures Answers(Points(c), constraints, result)
    {
      if c !in containers {
        NoPoints(constraints);
        return {};
      }
      if containers[c].dirty {
        var rebuilt := Rebuild(containers[c].pointById);
        containers := containers[c := rebuilt];
      }
      hide Answers, Sound, Lists, Members, IdsOf, Finds, OutsideSome, InsideAll;
      var container := containers[c];
      assert CacheValid(container);
      var ids, found := Visit(container.root, container.points, constraints);
      result := ids;
      AnswerIs(container.root, container.points, container.pointById, found, constraints, result);
    }
  }

  lemma FoundIds(points: seq<Point>, pointById: map<ItemId, Coordinates>, found: set<nat>, constraints: seq<Constraint>, result: set<ItemId>)
    requires Lists(points, pointById) && Finds(points, Range(|points|), constraints, found) && result == IdsOf(points, found)
    ensures result <= pointById.Keys
    ensures forall id :: id in pointById && Matches(pointById[id], constraints) ==> id in result
    ensures forall id :: id in result && Carries(pointById[id], constraints) ==> Matches(pointById[id], constraints)
  {
    forall id | id in pointById && Matches(pointById[id], constraints)
      ensures id in result
    {
      assert Listed(points, id);
      var i: nat :| i < |points| && points[i].id == id;
      assert i in Range(|points|);
    }
    forall id | id in result
      ensures id in pointById && (Carries(pointById[id], constraints) ==> Matches(pointById[id], constraints))
    {
      var i :| i in found && i < |points| && points[i].id == id;
    }
  }

  /** The points in a list, the fields they have, and the tree. */
  method Rebuild(pointById: map<ItemId, Coordinates>) returns (c: Container)
    ensures c.pointById == pointById && !c.dirty && CacheValid(c)
  {
    hide Sound;
    var points := ListPoints(pointById);
    var dimensions := ListFields(points);
    var indexes := AllIndexes(|points|);
    var root := Build(points, dimensions, indexes, 0);
    c := Container(pointById, points, dimensions, root, false);
  }

  method AllIndexes(n: nat) returns (indexes: seq<nat>)
    ensures SetOf(indexes) == Range(n) && forall i :: i in indexes ==> i < n
  {
    indexes := [];
    for k := 0 to n
      invariant |indexes| == k && forall i :: 0 <= i < k ==> indexes[i] == i
    {
      indexes := indexes + [k];
    }
    assert forall i | i in Range(n) :: indexes[i] == i;
  }

  method ListPoints(pointById: map<ItemId, Coordinates>) returns (points: seq<Point>)
    ensures Lists(points, pointById)
  {
    points := [];
    var ids := pointById.Keys;
    while ids != {}
      invariant ids <= pointById.Keys
      invariant forall i :: 0 <= i < |points| ==>
                  points[i].id in pointById && points[i].id !in ids && points[i].values == pointById[points[i].id]
      invariant forall i, j :: 0 <= i < j < |points| ==> points[i].id != points[j].id
      invariant forall id :: id in pointById && id !in ids ==> Listed(points, id)
      decreases ids
    {
      var id :| id in ids;
      ids := ids - {id};
      ghost var was := points;
      points := points + [Point(id, pointById[id])];
      forall x | x in pointById && x !in ids
        ensures Listed(points, x)
      {
        if x == id {
          assert points[|was|].id == id;
        } else {
          assert Listed(was, x);
          var i :| 0 <= i < |was| && was[i].id == x;
          assert points[i].id == x;
        }
      }
    }
  }

  /** The fields that any point has. */
  method ListFields(points: seq<Point>) returns (dimensions: seq<Field>)
    ensures forall f :: f in dimensions <==> exists i :: 0 <= i < |points| && f in points[i].values
  {
    var fields: set<Field> := {};
    for i := 0 to |points|
      invariant forall f :: f in fields <==> exists k :: 0 <= k < i && f in points[k].values
    {
      fields := fields + points[i].values.Keys;
    }
    dimensions := [];
    ghost var all := fields;
    while fields != {}
      invariant fields <= all && forall f :: f in dimensions <==> f in all && f !in fields
      decreases fields
    {
      var f := Least(fields);
      dimensions := dimensions + [f];
      fields := fields - {f};
    }
  }

  // ----- The whole answer -----

  lemma NoPoints(constraints: seq<Constraint>)
    ensures Answers(map[], constraints, {})
  {
  }

  lemma AnswerIs(t: Tree, points: seq<Point>, pointById: map<ItemId, Coordinates>, found: set<nat>, constraints: seq<Constraint>, result: set<ItemId>)
    requires Lists(points, pointById) && Sound(t, points) && Members(t) == Range(|points|)
    requires Finds(points, Members(t), constraints, found) && result == IdsOf(points, found)
    requires !t.Empty? && OutsideSome(t.bounds, constraints) ==> found == {}
    requires !t.Empty? && InsideAll(t.bounds, constraints) ==> found == Members(t)
    ensures Answers(pointById, constraints, result)
  {
    hide Lists, Sound, Members, IdsOf, OutsideSome, InsideAll, Matches, Carries, SpanInside, Carried;
    FoundIds(points, pointById, found, constraints, result);
    WholeAnswer(t, points, pointById, found, constraints, result);
  }

  lemma WholeAnswer(t: Tree, points: seq<Point>, pointById: map<ItemId, Coordinates>, found: set<nat>, constraints: seq<Constraint>, result: set<ItemId>)
    requires Lists(points, pointById) && Sound(t, points) && Members(t) == Range(|points|) && result == IdsOf(points, found)
    requires result <= pointById.Keys && found <= Members(t)
    requires !t.Empty? && OutsideSome(t.bounds, constraints) ==> found == {}
    requires !t.Empty? && InsideAll(t.bounds, constraints) ==> found == Members(t)
    ensures (forall i :: 0 <= i < |constraints| ==> SpanInside(pointById, constraints[i])) ==> result == pointById.Keys
    ensures (exists i :: 0 <= i < |constraints| && !Carried(pointById, constraints[i].field)) ==> result == {}
  {
    hide Lists, Box, Inside, Outside, SpanInside, Carried;
    AllIds(points, pointById);
    if t.Empty? {
      assert Range(|points|) == {};
      return;
    }
    if forall i :: 0 <= i < |constraints| ==> SpanInside(pointById, constraints[i]) {
      forall i | 0 <= i < |constraints|
        ensures constraints[i].field in t.bounds
        ensures Inside(constraints[i], t.bounds[constraints[i].field].lo, t.bounds[constraints[i].field].hi)
      {
        BoxInside(t, points, pointById, constraints[i]);
      }
    }
    if i :| 0 <= i < |constraints| && !Carried(pointById, constraints[i].field) {
      NotInBox(t, points, pointById, constraints[i].field);
      assert OutsideSome(t.bounds, constraints);
    }
  }

  lemma AllIds(points: seq<Point>, pointById: map<ItemId, Coordinates>)
    requires Lists(points, pointById)
    ensures IdsOf(points, Range(|points|)) == pointById.Keys
  {
    forall id | id in pointById
      ensures id in IdsOf(points, Range(|points|))
    {
      assert Listed(points, id);
      var i: nat :| i < |points| && points[i].id == id;
      assert i in Range(|points|);
    }
  }

  lemma ListedPoint(points: seq<Point>, pointById: map<ItemId, Coordinates>, i: nat)
    requires Lists(points, pointById) && i < |points|
    ensures points[i].id in pointById && pointById[points[i].id] == points[i].values
  {
  }

  /** A value of a field that the box ends at is one of a point. */
  lemma AttainedById(points: seq<Point>, pointById: map<ItemId, Coordinates>, members: set<nat>, f: Field, v: int) returns (id: ItemId)
    requires Lists(points, pointById) && Attained(points, members, f, v)
    ensures id in pointById && f in pointById[id] && pointById[id][f] == v
  {
    hide Lists;
    var a :| a in members && a < |points| && f in points[a].values && points[a].values[f] == v;
    ListedPoint(points, pointById, a);
    id := points[a].id;
  }

  lemma FieldInBox(points: seq<Point>, pointById: map<ItemId, Coordinates>, bounds: map<Field, Span>, f: Field)
    requires Lists(points, pointById) && Box(points, Range(|points|), bounds) && Carried(pointById, f)
    ensures f in bounds
  {
    hide Box;
    var id :| id in pointById && f in pointById[id];
    assert Listed(points, id);
    var i: nat :| i < |points| && points[i].id == id;
    InsideBox(points, Range(|points|), bounds, i, f);
  }

  lemma InsideBox(points: seq<Point>, members: set<nat>, bounds: map<Field, Span>, i: nat, f: Field)
    requires Box(points, members, bounds) && i in members && i < |points| && f in points[i].values
    ensures f in bounds
  {
  }

  lemma EndsAttained(points: seq<Point>, members: set<nat>, bounds: map<Field, Span>, f: Field)
    requires Box(points, members, bounds) && f in bounds
    ensures Attained(points, members, f, bounds[f].lo) && Attained(points, members, f, bounds[f].hi) && bounds[f].lo <= bounds[f].hi
  {
    var i :| i in members && i < |points| && f in points[i].values && points[i].values[f] == bounds[f].lo;
  }

  lemma BoxInside(t: Tree, points: seq<Point>, pointById: map<ItemId, Coordinates>, c: Constraint)
    requires Lists(points, pointById) && !t.Empty? && Members(t) == Range(|points|) && Box(points, Members(t), t.bounds)
    requires SpanInside(pointById, c)
    ensures c.field in t.bounds && Inside(c, t.bounds[c.field].lo, t.bounds[c.field].hi)
  {
    hide Contains, Inside, Lists, Box, Carried, Attained, Members;
    FieldInBox(points, pointById, t.bounds, c.field);
    EndsAttained(points, Members(t), t.bounds, c.field);
    var span := t.bounds[c.field];
    var a := AttainedById(points, pointById, Members(t), c.field, span.lo);
    var b := AttainedById(points, pointById, Members(t), c.field, span.hi);
    BoxTestsExact(c, span.lo, span.hi);
  }

  lemma NotInBox(t: Tree, points: seq<Point>, pointById: map<ItemId, Coordinates>, f: Field)
    requires Lists(points, pointById) && !t.Empty? && Members(t) == Range(|points|) && Box(points, Members(t), t.bounds)
    requires !Carried(pointById, f)
    ensures f !in t.bounds
  {
    hide Lists, Box, Attained, Members;
    if f in t.bounds {
      EndsAttained(points, Members(t), t.bounds, f);
      var id := AttainedById(points, pointById, Members(t), f, t.bounds[f].lo);
    }
  }

  // ----- When queries are exact -----

  function MatchesOf(points: map<ItemId, Coordinates>, constraints: seq<Constraint>): set<ItemId> {
    set id | id in points && Matches(points[id], constraints)
  }

  function FieldsOf(constraints: seq<Constraint>): set<Field> {
    set i | 0 <= i < |constraints| :: constraints[i].field
  }

  /** Whatever is asked of these fields, the answer is the matches and nothing else. */
  ghost predicate ExactFor(points: map<ItemId, Coordinates>, fields: set<Field>) {
    forall constraints, result :: FieldsOf(constraints) == fields && Answers(points, constraints, result) ==>
      result == MatchesOf(points, constraints)
  }

  /** A bound that no value of the field is below. */
  ghost function LowBound(points: map<ItemId, Coordinates>, f: Field): (r: int)
    ensures forall id :: id in points && f in points[id] ==> points[id][f] >= r
  {
    if points == map[] then 0
    else
      var id :| id in points;
      var r := LowBound(points - {id}, f);
      assert forall x :: x in points && x != id ==> x in points - {id} && (points - {id})[x] == points[x];
      if f in points[id] && points[id][f] < r then points[id][f] else r
  }

  /** One constraint for each field, that every value satisfies. */
  lemma AlwaysTrue(points: map<ItemId, Coordinates>, fields: set<Field>) returns (constraints: seq<Constraint>)
    ensures FieldsOf(constraints) == fields
    ensures forall i :: 0 <= i < |constraints| ==> constraints[i] == Constraint(constraints[i].field, AtLeast, Some(LowBound(points, constraints[i].field)))
    decreases |fields|
  {
    if fields == {} {
      constraints := [];
    } else {
      var f :| f in fields;
      var rest := AlwaysTrue(points, fields - {f});
      constraints := [Constraint(f, AtLeast, Some(LowBound(points, f)))] + rest;
      forall g
        ensures g in FieldsOf(constraints) <==> g == f || g in FieldsOf(rest)
      {
        if g in FieldsOf(rest) {
          var i :| 0 <= i < |rest| && rest[i].field == g;
          assert constraints[i + 1].field == g;
        }
        assert constraints[0].field == f;
      }
      assert FieldsOf(constraints) == fields;
    }
  }

  /** Queries about some fields are exact, whatever they ask, exactly when every point has
      all the fields or one of the fields is missing everywhere. */
  lemma ExactIff(points: map<ItemId, Coordinates>, fields: set<Field>)
    ensures ExactFor(points, fields)
       <==> (forall id :: id in points ==> fields <= points[id].Keys) || exists f :: f in fields && !Carried(points, f)
  {
    if forall id :: id in points ==> fields <= points[id].Keys {
      CompleteIsExact(points, fields);
    } else if exists f :: f in fields && !Carried(points, f) {
      MissingIsExact(points, fields);
    } else {
      var id :| id in points && !(fields <= points[id].Keys);
      SomeoneComesThrough(points, fields, id);
    }
  }

  lemma CompleteIsExact(points: map<ItemId, Coordinates>, fields: set<Field>)
    requires forall id :: id in points ==> fields <= points[id].Keys
    ensures ExactFor(points, fields)
  {
    forall constraints: seq<Constraint>, result: set<ItemId> | FieldsOf(constraints) == fields && Answers(points, constraints, result)
      ensures result == MatchesOf(points, constraints)
    {
      forall i | 0 <= i < |constraints|
        ensures constraints[i].field in fields
      {
        assert constraints[i].field in FieldsOf(constraints);
      }
    }
  }

  lemma MissingIsExact(points: map<ItemId, Coordinates>, fields: set<Field>)
    requires exists f :: f in fields && !Carried(points, f)
    ensures ExactFor(points, fields)
  {
    forall constraints: seq<Constraint>, result: set<ItemId> | FieldsOf(constraints) == fields && Answers(points, constraints, result)
      ensures result == MatchesOf(points, constraints)
    {
      var f :| f in fields && !Carried(points, f);
      assert f in FieldsOf(constraints);
      var i :| 0 <= i < |constraints| && constraints[i].field == f;
      assert forall id :: id in points ==> constraints[i].field !in points[id];
    }
  }

  lemma SomeoneComesThrough(points: map<ItemId, Coordinates>, fields: set<Field>, id: ItemId)
    requires id in points && !(fields <= points[id].Keys) && forall f :: f in fields ==> Carried(points, f)
    ensures !ExactFor(points, fields)
  {
    hide Carried, LowBound;
    var constraints := AlwaysTrue(points, fields);
    forall i | 0 <= i < |constraints|
      ensures SpanInside(points, constraints[i]) && Carried(points, constraints[i].field)
      ensures forall x :: x in points && constraints[i].field in points[x] ==> Contains(constraints[i], points[x][constraints[i].field])
    {
      assert constraints[i].field in FieldsOf(constraints);
    }
    assert Answers(points, constraints, points.Keys);
    var f :| f in fields && f !in points[id];
    assert f in FieldsOf(constraints);
    var i :| 0 <= i < |constraints| && constraints[i].field == f;
    assert id !in MatchesOf(points, constraints);
  }

  /** A point without a constrained field comes through when the others' span satisfies the
      constraint: here the item 2 has no field 5 at all. */
  method IncompletePointComesThrough() returns (result: set<ItemId>)
    ensures result == {1, 2}
    ensures MatchesOf(map[1 := map[5 := 10], 2 := map[6 := 0]], [Constraint(5, GreaterThan, Some(0))]) == {1}
  {
    var index := new ContainerRangeIndex();
    var first: Coordinates, second: Coordinates := map[5 := 10], map[6 := 0];
    assert 5 in first && 6 in second;
    index.Add(0, 1, first);
    index.Add(0, 2, second);
    ghost var points := index.Points(0);
    assert points == map[1 := first, 2 := second];
    var c := Constraint(5, GreaterThan, Some(0));
    OneCarries(points, first, second, c);
    result := index.Query(0, [c]);
  }

  lemma OneCarries(points: map<ItemId, Coordinates>, first: Coordinates, second: Coordinates, c: Constraint)
    requires points == map[1 := first, 2 := second] && first == map[5 := 10] && second == map[6 := 0]
    requires c == Constraint(5, GreaterThan, Some(0))
    ensures forall result :: Answers(points, [c], result) ==> result == {1, 2}
    ensures MatchesOf(points, [c]) == {1}
  {
    assert 1 in points && points[1] == first && 5 in first && 2 in points && points[2] == second && 5 !in second;
    assert Carried(points, 5);
    assert SpanInside(points, c);
    assert [c][0] == c;
  }
}
