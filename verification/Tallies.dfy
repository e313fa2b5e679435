/** Counts, sums and extremes of the values some items have, and the buckets that keep them
    up to date (src/support/runtime_index.cpp:253-309). */
module Tallies {
  import opened Wrappers
  import opened Sequences
  import opened Values

  type ItemId = nat

  /** The items that have a value. */
  function Having<T(==)>(e: map<ItemId, T>, v: T): set<ItemId> {
    set id | id in e && e[id] == v
  }

  lemma HavingMore<T>(e: map<ItemId, T>, id: ItemId, v: T, w: T)
    requires id !in e
    ensures Having(e[id := v], w) == Having(e, w) + if w == v then {id} else {}
    ensures |Having(e[id := v], w)| == |Having(e, w)| + if w == v then 1 else 0
  {
    assert id !in Having(e, w);
  }

  lemma HavingLess<T>(e: map<ItemId, T>, id: ItemId, w: T)
    requires id in e
    ensures Having(e - {id}, w) == Having(e, w) - {id}
    ensures |Having(e - {id}, w)| == |Having(e, w)| - if w == e[id] then 1 else 0
  {
    assert w == e[id] ==> id in Having(e, w);
    assert w != e[id] ==> id !in Having(e, w);
  }

  lemma Sizes<T>(e: map<ItemId, T>, id: ItemId, v: T)
    ensures id !in e ==> |e[id := v]| == |e| + 1
    ensures id in e ==> |e - {id}| == |e| - 1
  {
    assert |e| == |e.Keys|;
    if id !in e {
      assert e[id := v].Keys == e.Keys + {id};
      assert |e[id := v]| == |e[id := v].Keys|;
    } else {
      assert (e - {id}).Keys == e.Keys - {id};
      assert |e - {id}| == |(e - {id}).Keys|;
    }
  }

  /** The integer that a value is. */
  function IntOf(v: Value): int {
    match v
    case Int64(i) => i
    case UInt64(u) => u
    case _ => 0
  }

  /** The value is an integer of the type with this tag. */
  predicate Whole(v: Value, tag: byte) {
    (tag == 2 || tag == 3) && Tag(v) == tag
  }

  function SumOf(e: map<ItemId, Value>): int
    decreases |e|
  {
    if e == map[] then 0
    else
      var first := Least(e.Keys);
      Sizes(e, first, Null);
      IntOf(e[first]) + SumOf(e - {first})
  }

  /** The sum does not depend on where one begins. */
  lemma {:induction false} SumWithout(e: map<ItemId, Value>, id: ItemId)
    requires id in e
    ensures SumOf(e) == IntOf(e[id]) + SumOf(e - {id})
    decreases |e|
  {
    var first := Least(e.Keys);
    Sizes(e, first, Null);
    if id != first {
      SumWithout(e - {first}, id);
      var rest := e - {id};
      assert rest.Keys == e.Keys - {id};
      assert first in rest && Least(rest.Keys) == first;
      assert e - {first} - {id} == rest - {first};
    }
  }

  lemma SumWith(e: map<ItemId, Value>, id: ItemId, v: Value)
    requires id !in e
    ensures SumOf(e[id := v]) == IntOf(v) + SumOf(e)
  {
    SumWithout(e[id := v], id);
    assert e[id := v] - {id} == e;
  }

  /** Sums add up the numbers, of either type. */
  lemma SumsOfNumbers(e: map<ItemId, Value>, id: ItemId, i: int64, u: uint64)
    requires id !in e
    ensures SumOf(map[]) == 0
    ensures SumOf(e[id := Int64(i)]) == SumOf(e) + i && SumOf(e[id := UInt64(u)]) == SumOf(e) + u
  {
    SumWith(e, id, Int64(i));
    SumWith(e, id, UInt64(u));
  }

  ghost predicate IsMin(e: map<ItemId, Value>, v: Value) {
    (exists id :: id in e && e[id] == v) && forall id :: id in e ==> !Less(e[id], v)
  }

  ghost predicate IsMax(e: map<ItemId, Value>, v: Value) {
    (exists id :: id in e && e[id] == v) && forall id :: id in e ==> !Less(v, e[id])
  }

  // ----- Sums -----

  /** A sum so far: null, an integer of one type, or else some double. */
  datatype Sum = NoSum | Total(tag: byte, n: int) | Inexact

  /** `sumValues` with a value. */
  function Plus(sum: Sum, v: Value): Sum {
    match sum
    case NoSum => if v.Int64? || v.UInt64? then Total(Tag(v), IntOf(v)) else Inexact
    case Total(tag, n) => if Whole(v, tag) then Total(tag, n + IntOf(v)) else Inexact
    case Inexact => Inexact
  }

  /** `subtractValues`. */
  function Minus(sum: Sum, v: Value): Sum {
    match sum
    case NoSum => NoSum
    case Total(tag, n) => if Whole(v, tag) then Total(tag, n - IntOf(v)) else Inexact
    case Inexact => Inexact
  }

  /** `sumValues` of two sums. */
  function PlusSum(a: Sum, b: Sum): Sum {
    match (a, b)
    case (NoSum, Total(_, _)) => b
    case (Total(tag, m), Total(tag', n)) => if tag == tag' then Total(tag, m + n) else Inexact
    case _ => Inexact
  }

  /** The sum is that of these items: null without any, and an integer only of items that
      are all integers of its type. */
  ghost predicate Sums(sum: Sum, e: map<ItemId, Value>) {
    match sum
    case NoSum => e == map[]
    case Total(tag, n) => e != map[] && n == SumOf(e) && forall id :: id in e ==> Whole(e[id], tag)
    case Inexact => e != map[]
  }

  datatype Options = Options(sum: bool, minMax: bool, byParent: bool)

  /** `AggregateBucket`. Without a value the sum is null. */
  datatype Bucket = Bucket(count: nat, sum: Sum, values: multiset<Value>)

  const EMPTY_BUCKET := Bucket(0, NoSum, multiset{})

  /** `addAggregateValue`. */
  function Added(b: Bucket, options: Options, v: Value): Bucket {
    Bucket(b.count + 1, if options.sum then Plus(b.sum, v) else b.sum, if options.minMax then b.values[v := b.values[v] + 1] else b.values)
  }

  /** `removeAggregateValue`. */
  function Removed(b: Bucket, options: Options, v: Value): Bucket {
    Bucket(if b.count > 0 then b.count - 1 else 0,
           if options.sum then Minus(b.sum, v) else b.sum,
           if options.minMax && v in b.values then b.values[v := b.values[v] - 1] else b.values)
  }

  /** `mergeAggregateBucket`. */
  function Merged(target: Bucket, source: Bucket, options: Options): Bucket {
    Bucket(target.count + source.count,
           if options.sum then PlusSum(target.sum, source.sum) else target.sum,
           if options.minMax then target.values + source.values else target.values)
  }

  /** The bucket counts, sums and lists just these items' values. */
  ghost predicate Tells(b: Bucket, options: Options, e: map<ItemId, Value>) {
    && b.count == |e|
    && (options.sum ==> Sums(b.sum, e))
    && (options.minMax ==> forall v :: b.values[v] == |Having(e, v)|)
  }

  /** The bucket's sum is an integer of the type, if there is anything to sum. */
  predicate Clean(b: Bucket, options: Options, tag: byte) {
    options.sum ==> b.sum.NoSum? || (b.sum.Total? && b.sum.tag == tag)
  }

  lemma NothingTold(options: Options)
    ensures Tells(EMPTY_BUCKET, options, map[]) && forall tag :: Clean(EMPTY_BUCKET, options, tag)
  {
    var e: map<ItemId, Value> := map[];
    forall v
      ensures |Having(e, v)| == 0
    {
      assert Having(e, v) == {};
    }
  }

  lemma PlusSums(sum: Sum, e: map<ItemId, Value>, id: ItemId, v: Value)
    requires Sums(sum, e) && id !in e
    ensures Sums(Plus(sum, v), e[id := v])
  {
    hide SumOf;
    SumWith(e, id, v);
    NothingSummed();
    assert id in e[id := v];
  }

  lemma MinusSums(sum: Sum, e: map<ItemId, Value>, id: ItemId)
    requires Sums(sum, e) && id in e && e - {id} != map[]
    ensures Sums(Minus(sum, e[id]), e - {id})
  {
    hide SumOf;
    SumWithout(e, id);
  }

  lemma AddedTells(b: Bucket, options: Options, e: map<ItemId, Value>, id: ItemId, v: Value)
    requires Tells(b, options, e) && id !in e
    ensures Tells(Added(b, options, v), options, e[id := v])
    ensures forall tag :: Clean(b, options, tag) && Whole(v, tag) ==> Clean(Added(b, options, v), options, tag)
  {
    hide Sums, Having;
    Sizes(e, id, v);
    if options.sum {
      PlusSums(b.sum, e, id, v);
    }
    forall w
      ensures options.minMax ==> Added(b, options, v).values[w] == |Having(e[id := v], w)|
    {
      HavingMore(e, id, v, w);
    }
  }

  lemma NothingSummed()
    ensures SumOf(map[]) == 0
  {
  }

  /** A bucket from which the last value goes is dropped, with whatever sum it has. */
  lemma RemovedTells(b: Bucket, options: Options, e: map<ItemId, Value>, id: ItemId)
    requires Tells(b, options, e) && id in e
    ensures Removed(b, options, e[id]).count == |e| - 1
    ensures e - {id} != map[] ==> Removed(b, options, e[id]).count > 0 && Tells(Removed(b, options, e[id]), options, e - {id})
    ensures e - {id} == map[] ==> Removed(b, options, e[id]).count == 0
    ensures forall tag :: Clean(b, options, tag) ==> Clean(Removed(b, options, e[id]), options, tag)
  {
    hide Having;
    Sizes(e, id, Null);
    if options.sum && e - {id} != map[] {
      MinusSums(b.sum, e, id);
    }
    forall w
      ensures options.minMax ==> Removed(b, options, e[id]).values[w] == |Having(e - {id}, w)|
    {
      HavingLess(e, id, w);
      HasItself(e, id);
    }
    assert |e - {id}| == 0 ==> e - {id} == map[];
  }

  lemma HasItself(e: map<ItemId, Value>, id: ItemId)
    requires id in e
    ensures |Having(e, e[id])| > 0
  {
    assert id in Having(e, e[id]);
  }

  /** Buckets of different items merge into the bucket of all of them. */
  lemma MergedTells(a: Bucket, b: Bucket, options: Options, e: map<ItemId, Value>, f: map<ItemId, Value>)
    requires Tells(a, options, e) && Tells(b, options, f) && e.Keys !! f.Keys && f != map[]
    ensures Tells(Merged(a, b, options), options, e + f)
    ensures forall tag :: Clean(a, options, tag) && Clean(b, options, tag) ==> Clean(Merged(a, b, options), options, tag)
  {
    hide Sums, Having;
    BothSizes(e, f);
    if options.sum {
      SumsOfBoth(a.sum, b.sum, e, f);
    }
    forall w
      ensures options.minMax ==> Merged(a, b, options).values[w] == |Having(e + f, w)|
    {
      HavingBoth(e, f, w);
    }
  }

  lemma SumsOfBoth(a: Sum, b: Sum, e: map<ItemId, Value>, f: map<ItemId, Value>)
    requires Sums(a, e) && Sums(b, f) && e.Keys !! f.Keys && f != map[]
    ensures Sums(PlusSum(a, b), e + f) && !b.NoSum?
  {
    hide SumOf, Whole;
    BothSizes(e, f);
    SumOfBoth(e, f);
    NothingSummed();
  }

  lemma BothSizes(e: map<ItemId, Value>, f: map<ItemId, Value>)
    requires e.Keys !! f.Keys
    ensures |e + f| == |e| + |f|
    ensures e == map[] ==> e + f == f
    ensures f == map[] ==> e + f == e
    ensures e + f == map[] ==> e == map[] && f == map[]
  {
    assert (e + f).Keys == e.Keys + f.Keys;
    assert |e + f| == |(e + f).Keys| == |e.Keys| + |f.Keys|;
  }

  lemma HavingBoth(e: map<ItemId, Value>, f: map<ItemId, Value>, w: Value)
    requires e.Keys !! f.Keys
    ensures |Having(e + f, w)| == |Having(e, w)| + |Having(f, w)|
  {
    assert Having(e + f, w) == Having(e, w) + Having(f, w);
    assert Having(e, w) !! Having(f, w);
  }

  lemma {:induction false} SumOfBoth(e: map<ItemId, Value>, f: map<ItemId, Value>)
    requires e.Keys !! f.Keys
    ensures SumOf(e + f) == SumOf(e) + SumOf(f)
    decreases |f|
  {
    hide SumOf;
    if f == map[] {
      NothingSummed();
      assert e + f == e;
    } else {
      var id := Least(f.Keys);
      Sizes(f, id, Null);
      SumOfBoth(e, f - {id});
      SumWithout(f, id);
      WithoutOne(e, f, id);
      SumWithout(e + f, id);
    }
  }

  lemma WithoutOne(e: map<ItemId, Value>, f: map<ItemId, Value>, id: ItemId)
    requires e.Keys !! f.Keys && id in f
    ensures e.Keys !! (f - {id}).Keys
    ensures id in e + f && (e + f)[id] == f[id] && e + f - {id} == e + (f - {id})
  {
  }

  /** The first and the last key of the values are the least and the greatest value. */
  lemma ExtremesTold(b: Bucket, options: Options, e: map<ItemId, Value>, v: Value)
    requires Tells(b, options, e) && options.minMax && v in b.values
    ensures (forall w :: w in b.values ==> !Less(w, v)) <==> IsMin(e, v)
    ensures (forall w :: w in b.values ==> !Less(v, w)) <==> IsMax(e, v)
  {
    hide Less, Sums;
    assert b.values[v] == |Having(e, v)|;
    var x :| x in Having(e, v);
    forall id | id in e
      ensures e[id] in b.values
    {
      HasItself(e, id);
    }
    forall w | w in b.values
      ensures exists id :: id in e && e[id] == w
    {
      assert b.values[w] == |Having(e, w)|;
      var y :| y in Having(e, w);
    }
  }

  lemma SomeMember(m: multiset<Value>)
    ensures m == multiset{} || exists v :: v in m
  {
    if !(exists v :: v in m) {
      assert m == multiset{};
    }
  }

  /** `minMaxValue`, by going through the values in order: null without any. */
  method Extreme(b: Bucket, least: bool) returns (r: Value)
    ensures b.values == multiset{} ==> r == Null
    ensures b.values != multiset{} ==> r in b.values && forall w :: w in b.values ==> if least then !Less(w, r) else !Less(r, w)
  {
    hide Less;
    ValueOrder();
    if b.values == multiset{} {
      return Null;
    }
    SomeMember(b.values);
    r :| r in b.values;
    var rest := b.values;
    while rest != multiset{}
      invariant forall w :: w in rest ==> w in b.values
      invariant r in b.values
      invariant forall w :: w in b.values && w !in rest ==> if least then !Less(w, r) else !Less(r, w)
      decreases |rest|
    {
      SomeMember(rest);
      var v :| v in rest;
      rest := rest - multiset{v};
      if if least then Less(v, r) else Less(r, v) {
        r := v;
      }
    }
  }
}
