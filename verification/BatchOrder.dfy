/** The order a batch is inserted in: parents before their children
    (`orderSnapshotsByParent`, src/engine.cpp:1510-1592). */
module BatchOrder {
  import opened Wrappers
  import opened Sequences
  import opened CountingSort
  import opened RadixSort
  import opened Documents
  import opened ListInserts
  import opened Batches

  /** For each position of a batch, the position of its parent if that is in the batch. */
  type Links = seq<Option<nat>>

  ghost predicate InBatch(links: Links) {
    forall i :: 0 <= i < |links| && links[i].Some? ==> links[i].value < |links|
  }

  /** Ranks that grow from every parent to its children. */
  ghost predicate Ranks(links: Links, rank: seq<nat>) {
    |rank| == |links|
    && forall i :: 0 <= i < |links| && links[i].Some? && links[i].value < |links| ==> rank[links[i].value] < rank[i]
  }

  ghost predicate Acyclic(links: Links) {
    exists rank :: Ranks(links, rank)
  }

  /** The positions without a parent in the batch. */
  function Roots(links: Links, n: nat): (r: seq<nat>)
    requires n <= |links|
    ensures forall p: nat :: p in r <==> p < n && links[p].None?
    ensures Distinct(r)
  {
    if n == 0 then [] else Roots(links, n - 1) + if links[n - 1].None? then [n - 1] else []
  }

  /** The positions with a parent in the batch. */
  function Linked(links: Links, n: nat): (r: seq<nat>)
    requires n <= |links|
    ensures forall p: nat :: p in r <==> p < n && links[p].Some?
    ensures Distinct(r)
  {
    if n == 0 then [] else Linked(links, n - 1) + if links[n - 1].Some? then [n - 1] else []
  }

  /** Each position's children, in the order they are visited in. */
  type Families = seq<seq<nat>>

  ghost predicate AreFamilies(links: Links, families: Families) {
    && |families| == |links|
    && forall p :: 0 <= p < |links| ==> IsFamily(links, families[p], p)
  }

  ghost predicate IsFamily(links: Links, family: seq<nat>, p: nat) {
    && Distinct(family)
    && forall i: nat :: i in family <==> i < |links| && links[i] == Some(p)
  }

  /** The families of some positions, one after the other. */
  function Offspring(families: Families, order: seq<nat>): seq<nat> {
    if order == [] then []
    else
      var last := |order| - 1;
      Offspring(families, order[..last]) + if order[last] < |families| then families[order[last]] else []
  }

  lemma {:induction false} OffspringMembers(links: Links, families: Families, order: seq<nat>)
    requires AreFamilies(links, families)
    ensures forall i: nat :: i in Offspring(families, order) <==> i < |links| && links[i].Some? && links[i].value < |links| && links[i].value in order
  {
    if order != [] {
      var last := |order| - 1;
      OffspringMembers(links, families, order[..last]);
      assert order == order[..last] + [order[last]];
      assert order[last] < |links| ==> IsFamily(links, families[order[last]], order[last]);
    }
  }

  lemma {:induction false} OffspringDistinct(links: Links, families: Families, order: seq<nat>)
    requires AreFamilies(links, families) && Distinct(order)
    ensures Distinct(Offspring(families, order))
  {
    if order != [] {
      var last := |order| - 1;
      OffspringDistinct(links, families, order[..last]);
      OffspringMembers(links, families, order[..last]);
      if order[last] < |families| {
        assert IsFamily(links, families[order[last]], order[last]);
        forall i | i in Offspring(families, order[..last])
          ensures i !in families[order[last]]
        {
          assert order[last] !in order[..last];
        }
        JoinDistinct(Offspring(families, order[..last]), families[order[last]]);
      }
    }
  }

  lemma JoinDistinct(a: seq<nat>, b: seq<nat>)
    requires Distinct(a) && Distinct(b) && forall x :: x in a ==> x !in b
    ensures Distinct(a + b)
  {
    forall i, j | 0 <= i < j < |a + b|
      ensures (a + b)[i] != (a + b)[j]
    {
      if i < |a| <= j {
        assert (a + b)[i] in a && (a + b)[j] in b;
      }
    }
  }

  /** A visit so far: the ready positions follow the visited ones, roots first and then
      family after family. */
  ghost predicate Visiting(links: Links, families: Families, order: seq<nat>, ready: seq<nat>) {
    order + ready == Roots(links, |links|) + Offspring(families, order)
  }

  lemma VisitedOnce(links: Links, families: Families, order: seq<nat>, ready: seq<nat>)
    requires InBatch(links) && AreFamilies(links, families) && Visiting(links, families, order, ready) && Distinct(order)
    ensures Distinct(order + ready)
    ensures forall i: nat :: i in order + ready <==> i < |links| && (links[i].Some? ==> links[i].value in order)
  {
    OffspringMembers(links, families, order);
    OffspringDistinct(links, families, order);
    JoinDistinct(Roots(links, |links|), Offspring(families, order));
    forall i: nat
      ensures i in order + ready <==> i < |links| && (links[i].Some? ==> links[i].value in order)
    {
      assert i in order + ready <==> i in Roots(links, |links|) || i in Offspring(families, order);
    }
  }

  lemma VisitNext(links: Links, families: Families, order: seq<nat>, ready: seq<nat>)
    requires InBatch(links) && AreFamilies(links, families) && Visiting(links, families, order, ready) && Distinct(order)
    requires ready != []
    ensures ready[0] < |links| && Distinct(order + [ready[0]])
    ensures Visiting(links, families, order + [ready[0]], ready[1..] + families[ready[0]])
    ensures links[ready[0]].Some? ==> links[ready[0]].value in order
  {
    VisitedOnce(links, families, order, ready);
    hide Roots, Offspring, AreFamilies, Distinct;
    var x := ready[0];
    assert (order + ready)[|order|] == x && x in order + ready;
    FrontDistinct(order + ready, |order| + 1);
    assert order + [x] == (order + ready)[..|order| + 1];
    OffspringNext(families, order, x);
    Regroup(order, ready, families[x], Roots(links, |links|), Offspring(families, order));
  }

  lemma FrontDistinct(s: seq<nat>, n: nat)
    requires Distinct(s) && n <= |s|
    ensures Distinct(s[..n])
  {
  }

  lemma OffspringNext(families: Families, order: seq<nat>, x: nat)
    requires x < |families|
    ensures Offspring(families, order + [x]) == Offspring(families, order) + families[x]
  {
    assert (order + [x])[..|order|] == order;
  }

  lemma Regroup(order: seq<nat>, ready: seq<nat>, family: seq<nat>, roots: seq<nat>, offspring: seq<nat>)
    requires order + ready == roots + offspring && ready != []
    ensures order + [ready[0]] + (ready[1..] + family) == roots + (offspring + family)
  {
    assert [ready[0]] + ready[1..] == ready;
    assert order + [ready[0]] + (ready[1..] + family) == order + ready + family;
  }

  /** Every position whose parent is in the batch comes after it. */
  ghost predicate ParentsFirst(links: Links, order: seq<nat>) {
    forall j :: 0 <= j < |order| && order[j] < |links| && links[order[j]].Some? ==> links[order[j]].value in order[..j]
  }

  /** A finished visit has met every position with a rank. */
  lemma {:induction false} RankedIsVisited(links: Links, families: Families, order: seq<nat>, rank: seq<nat>, i: nat)
    requires InBatch(links) && AreFamilies(links, families) && Visiting(links, families, order, []) && Distinct(order)
    requires Ranks(links, rank) && i < |links|
    ensures i in order
    decreases rank[i]
  {
    VisitedOnce(links, families, order, []);
    if links[i].Some? {
      RankedIsVisited(links, families, order, rank, links[i].value);
    }
    assert i in order + [];
  }

  /** It has met all exactly when the links are acyclic. */
  lemma VisitComplete(links: Links, families: Families, order: seq<nat>)
    requires InBatch(links) && AreFamilies(links, families) && Visiting(links, families, order, []) && Distinct(order)
    requires ParentsFirst(links, order)
    ensures |order| == |links| <==> Acyclic(links)
    ensures |order| == |links| ==> SetOf(order) == Range(|links|)
  {
    VisitedOnce(links, families, order, []);
    DistinctSize(order);
    assert SetOf(order) <= Range(|links|) by {
      forall x | x in order
        ensures x < |links|
      {
        assert x in order + [];
      }
    }
    SubsetSize(SetOf(order), Range(|links|));
    if Acyclic(links) {
      var rank :| Ranks(links, rank);
      forall i | i in Range(|links|)
        ensures i in order
      {
        RankedIsVisited(links, families, order, rank, i);
      }
      assert SetOf(order) == Range(|links|);
    }
    if |order| == |links| {
      var rank := PlaceOfEach(links, order);
      assert Acyclic(links);
    }
  }

  /** Positions ranked by where the order has them. */
  lemma PlaceOfEach(links: Links, order: seq<nat>) returns (rank: seq<nat>)
    requires InBatch(links) && Distinct(order) && SetOf(order) == Range(|links|) && ParentsFirst(links, order)
    ensures Ranks(links, rank)
  {
    rank := seq(|links|, i requires 0 <= i < |links| => IndexOf(order, i).GetOr(0));
    forall i | 0 <= i < |links| && links[i].Some?
      ensures rank[links[i].value] < rank[i]
    {
      var p := links[i].value;
      assert i in Range(|links|) && p in Range(|links|);
      var j := IndexOf(order, i).value;
      assert p in order[..j];
      var k :| 0 <= k < j && order[k] == p;
    }
  }

  /** The breadth-first visit. */
  method Visit(links: Links, families: Families) returns (order: seq<nat>)
    requires InBatch(links) && AreFamilies(links, families)
    ensures |order| == |links| <==> Acyclic(links)
    ensures Acyclic(links) ==> SetOf(order) == Range(|links|) && Distinct(order) && ParentsFirst(links, order)
    ensures Acyclic(links) ==> order == Roots(links, |links|) + Offspring(families, order)
  {
    hide Roots, Offspring;
    var ready: seq<nat> := [];
    NoRoots(links);
    for i := 0 to |links|
      invariant ready == Roots(links, i)
    {
      RootsNext(links, i);
      if links[i].None? {
        ready := ready + [i];
      }
    }
    order := [];
    FirstVisit(links, families);
    while ready != []
      invariant Visiting(links, families, order, ready) && Distinct(order) && ParentsFirst(links, order)
      invariant |order| <= |links|
      decreases |links| - |order|
    {
      VisitNext(links, families, order, ready);
      NoMoreThanLinks(links, families, order, ready);
      NextFirst(links, order, ready[0]);
      order, ready := order + [ready[0]], ready[1..] + families[ready[0]];
    }
    VisitComplete(links, families, order);
    assert order + [] == order;
  }

  lemma RootsNext(links: Links, n: nat)
    requires n < |links|
    ensures Roots(links, n + 1) == Roots(links, n) + if links[n].None? then [n] else []
  {
  }

  lemma NoRoots(links: Links)
    ensures Roots(links, 0) == []
  {
  }

  lemma FirstVisit(links: Links, families: Families)
    ensures Visiting(links, families, [], Roots(links, |links|))
  {
  }

  lemma NoMoreThanLinks(links: Links, families: Families, order: seq<nat>, ready: seq<nat>)
    requires InBatch(links) && AreFamilies(links, families) && Visiting(links, families, order, ready) && Distinct(order)
    ensures |order + ready| <= |links|
  {
    VisitedOnce(links, families, order, ready);
    DistinctSize(order + ready);
    SubsetSize(SetOf(order + ready), Range(|links|));
  }

  lemma NextFirst(links: Links, order: seq<nat>, x: nat)
    requires ParentsFirst(links, order) && x < |links| && (links[x].Some? ==> links[x].value in order)
    ensures ParentsFirst(links, order + [x])
  {
    forall j | 0 <= j < |order + [x]| && (order + [x])[j] < |links| && links[(order + [x])[j]].Some?
      ensures links[(order + [x])[j]].value in (order + [x])[..j]
    {
      assert (order + [x])[..j] == order[..j];
    }
  }

  // ----- The batch's snapshots -----

  /** `positionById`. */
  ghost predicate Indexes(positionById: map<ItemId, nat>, snapshots: seq<Snapshot>) {
    && (forall i :: 0 <= i < |snapshots| ==> snapshots[i].id in positionById && positionById[snapshots[i].id] == i)
    && (forall id :: id in positionById ==> positionById[id] < |snapshots| && snapshots[positionById[id]].id == id)
  }

  function LinkOf(positionById: map<ItemId, nat>, s: Snapshot): Option<nat> {
    if s.item.parent.Some? && s.item.parent.value in positionById then Some(positionById[s.item.parent.value]) else None
  }

  function LinksOf(positionById: map<ItemId, nat>, snapshots: seq<Snapshot>): (r: Links)
    ensures |r| == |snapshots|
  {
    seq(|snapshots|, i requires 0 <= i < |snapshots| => LinkOf(positionById, snapshots[i]))
  }

  function Ids(snapshots: seq<Snapshot>): (r: seq<nat>)
    ensures |r| == |snapshots|
  {
    seq(|snapshots|, i requires 0 <= i < |snapshots| => snapshots[i].id)
  }

  /** Siblings of one container without a unique column are put in the order of their ids;
      others keep the order of the batch, which decides between clashing values. */
  predicate Sortable(schema: Schema, snapshots: seq<Snapshot>, siblings: seq<nat>) {
    siblings != [] && forall p :: p in siblings ==>
      p < |snapshots| && snapshots[p].item.container in schema
      && snapshots[p].item.container == (if siblings[0] < |snapshots| then snapshots[siblings[0]].item.container else 0)
      && forall c :: c in schema[snapshots[p].item.container].columns ==> !schema[snapshots[p].item.container].columns[c].unique
  }

  /** A family in the order it is visited in. */
  ghost predicate Arranged(schema: Schema, snapshots: seq<Snapshot>, links: Links, family: seq<nat>, p: nat) {
    && IsFamily(links, family, p)
    && if Sortable(schema, snapshots, family) then SortedById(family, Ids(snapshots))
       else Grows(family)
  }

  predicate Within(order: seq<nat>, n: nat) {
    forall i :: 0 <= i < |order| ==> order[i] < n
  }

  /** The snapshots at some positions. */
  function Pick(snapshots: seq<Snapshot>, order: seq<nat>): (r: seq<Snapshot>)
    requires Within(order, |snapshots|)
    ensures |r| == |order|
  {
    seq(|order|, i requires 0 <= i < |order| => snapshots[order[i]])
  }

  lemma {:induction false} PickCounts(snapshots: seq<Snapshot>, a: seq<nat>, b: seq<nat>)
    requires Within(a, |snapshots|) && Within(b, |snapshots|) && multiset(a) == multiset(b)
    ensures multiset(Pick(snapshots, a)) == multiset(Pick(snapshots, b))
    decreases |a|
  {
    assert |a| == |multiset(a)| == |multiset(b)| == |b|;
    if a == [] {
      assert Pick(snapshots, a) == Pick(snapshots, b);
    } else {
      var last := |a| - 1;
      assert a == a[..last] + [a[last]];
      assert a[last] in multiset(b);
      var i :| 0 <= i < |b| && b[i] == a[last];
      PickOneOut(snapshots, a, last);
      PickOneOut(snapshots, b, i);
      PickCounts(snapshots, RemoveAt(a, last), RemoveAt(b, i));
    }
  }

  lemma PickOneOut(snapshots: seq<Snapshot>, order: seq<nat>, i: nat)
    requires Within(order, |snapshots|) && i < |order|
    ensures multiset(RemoveAt(order, i)) == multiset(order) - multiset{order[i]}
    ensures Within(RemoveAt(order, i), |snapshots|)
    ensures multiset(Pick(snapshots, order)) == multiset(Pick(snapshots, RemoveAt(order, i))) + multiset{snapshots[order[i]]}
  {
    var rest := RemoveAt(order, i);
    assert order == order[..i] + [order[i]] + order[i + 1..];
    var picked := Pick(snapshots, order);
    assert picked == picked[..i] + [picked[i]] + picked[i + 1..];
    assert Pick(snapshots, rest) == picked[..i] + picked[i + 1..];
  }

  /** The positions below `n` as they come. */
  function Straight(n: nat): (r: seq<nat>)
    ensures |r| == n && Distinct(r) && SetOf(r) == Range(n)
    ensures forall i :: 0 <= i < n ==> r[i] == i
  {
    var r: seq<nat> := seq(n, i => i);
    assert forall x | x in Range(n) :: r[x] == x;
    r
  }

  lemma SameSetSameCounts(a: seq<nat>, b: seq<nat>)
    requires Distinct(a) && Distinct(b) && SetOf(a) == SetOf(b)
    ensures multiset(a) == multiset(b)
  {
    forall x: nat
      ensures multiset(a)[x] == multiset(b)[x]
    {
      CountOnce(a, x);
      CountOnce(b, x);
      assert x in a <==> x in SetOf(a);
      assert x in b <==> x in SetOf(b);
    }
  }

  lemma PickAll(snapshots: seq<Snapshot>, order: seq<nat>)
    requires Distinct(order) && SetOf(order) == Range(|snapshots|)
    ensures Within(order, |snapshots|)
    ensures multiset(Pick(snapshots, order)) == multiset(snapshots)
  {
    forall i | 0 <= i < |order|
      ensures order[i] < |snapshots|
    {
      assert order[i] in SetOf(order);
    }
    var all := Straight(|snapshots|);
    SameSetSameCounts(order, all);
    PickCounts(snapshots, order, all);
    assert Pick(snapshots, all) == snapshots;
  }

  /** Each snapshot's parent, if it is in the batch, comes earlier. */
  predicate ParentsEarlier(snapshots: seq<Snapshot>) {
    forall j, k :: 0 <= j < |snapshots| && 0 <= k < |snapshots| && snapshots[j].item.parent == Some(snapshots[k].id) ==> k < j
  }

  lemma PickedParentsEarlier(positionById: map<ItemId, nat>, snapshots: seq<Snapshot>, order: seq<nat>)
    requires Indexes(positionById, snapshots) && ParentsFirst(LinksOf(positionById, snapshots), order) && Distinct(order)
    requires Within(order, |snapshots|)
    ensures ParentsEarlier(Pick(snapshots, order))
  {
    var picked, links := Pick(snapshots, order), LinksOf(positionById, snapshots);
    forall j, k | 0 <= j < |picked| && 0 <= k < |picked| && picked[j].item.parent == Some(picked[k].id)
      ensures k < j
    {
      assert order[j] in order && order[k] in order;
      assert links[order[j]] == Some(order[k]);
      assert order[k] in order[..j];
      var i :| 0 <= i < j && order[i] == order[k];
    }
  }

  /** The members of a bucket of linked positions are the family. */
  lemma BucketIsFamily(links: Links, key: seq<nat>, p: nat)
    requires |key| == |links| && forall i :: 0 <= i < |links| ==> key[i] == links[i].GetOr(0)
    ensures IsFamily(links, InBucket(Linked(links, |links|), key, p), p)
    ensures Grows(InBucket(Linked(links, |links|), key, p))
  {
    InBucketMembers(Linked(links, |links|), key, p);
    LinkedGrow(links, |links|);
    InBucketGrows(Linked(links, |links|), key, p);
  }

  ghost predicate Grows(s: seq<nat>) {
    forall i, j :: 0 <= i < j < |s| ==> s[i] < s[j]
  }

  lemma {:induction false} LinkedGrow(links: Links, n: nat)
    requires n <= |links|
    ensures Grows(Linked(links, n))
  {
    if n > 0 {
      LinkedGrow(links, n - 1);
      var before := Linked(links, n - 1);
      forall i | 0 <= i < |before|
        ensures before[i] < n - 1
      {
        assert before[i] in before;
      }
    }
  }

  lemma {:induction false} InBucketGrows(src: seq<nat>, key: seq<nat>, b: nat)
    requires Grows(src)
    ensures Grows(InBucket(src, key, b))
    decreases |src|
  {
    if src != [] {
      var last := |src| - 1;
      InBucketGrows(src[..last], key, b);
      InBucketMembers(src[..last], key, b);
      var r := InBucket(src[..last], key, b);
      forall i | 0 <= i < |r|
        ensures r[i] < src[last]
      {
        assert r[i] in r && r[i] in src[..last];
      }
    }
  }

  lemma LinkedNext(links: Links, n: nat)
    requires n < |links|
    ensures Linked(links, n + 1) == Linked(links, n) + if links[n].Some? then [n] else []
  {
  }

  lemma NoneLinked(links: Links)
    ensures Linked(links, 0) == []
  {
  }

  /** Siblings sorted by id are still the family. */
  lemma SortedFamily(schema: Schema, snapshots: seq<Snapshot>, links: Links, siblings: seq<nat>, sorted: seq<nat>, p: nat)
    requires |links| == |snapshots|
    requires IsFamily(links, siblings, p) && multiset(sorted) == multiset(siblings) && SortedById(sorted, Ids(snapshots))
    requires Sortable(schema, snapshots, siblings)
    ensures Arranged(schema, snapshots, links, sorted, p)
  {
    ArrangedDistinct(sorted, siblings);
    assert sorted[0] in siblings;
  }

  // ----- There is only one such order -----

  /** `order` visits the roots and then family after family, each family arranged, and
      meets every position. */
  ghost predicate Orders(schema: Schema, snapshots: seq<Snapshot>, links: Links, families: Families, order: seq<nat>) {
    && |families| == |links| == |snapshots| == |order|
    && (forall p :: 0 <= p < |families| ==> Arranged(schema, snapshots, links, families[p], p))
    && Tour(links, families, order)
  }

  ghost predicate Tour(links: Links, families: Families, order: seq<nat>) {
    && order == Roots(links, |links|) + Offspring(families, order)
    && Distinct(order) && SetOf(order) == Range(|links|) && ParentsFirst(links, order)
  }

  ghost predicate Ordered(schema: Schema, snapshots: seq<Snapshot>, order: seq<nat>) {
    exists positionById, families ::
      Indexes(positionById, snapshots) && Orders(schema, snapshots, LinksOf(positionById, snapshots), families, order)
  }

  /** The order a batch is inserted in. */
  ghost function OrderOf(schema: Schema, snapshots: seq<Snapshot>): (r: seq<Snapshot>)
    ensures multiset(r) == multiset(snapshots)
  {
    if exists order :: Ordered(schema, snapshots, order) then
      var order :| Ordered(schema, snapshots, order);
      PickAll(snapshots, order);
      Pick(snapshots, order)
    else snapshots
  }

  lemma OneIndex(snapshots: seq<Snapshot>, a: map<ItemId, nat>, b: map<ItemId, nat>)
    requires Indexes(a, snapshots) && Indexes(b, snapshots)
    ensures a == b
  {
  }

  lemma OneFamily(schema: Schema, snapshots: seq<Snapshot>, links: Links, p: nat, a: seq<nat>, b: seq<nat>)
    requires |links| == |snapshots| && Arranged(schema, snapshots, links, a, p) && Arranged(schema, snapshots, links, b, p)
    requires forall i, j :: 0 <= i < j < |snapshots| ==> snapshots[i].id != snapshots[j].id
    ensures a == b
  {
    hide Sortable, SortedById, DistinctIds;
    SameFamily(links, a, b, p);
    SameSetSameCounts(a, b);
    SortableAlike(schema, snapshots, a, b);
    DistinctAsGiven(snapshots, a);
    if Sortable(schema, snapshots, a) {
      OneOrderById(a, b, Ids(snapshots));
    } else {
      GrowsByPosition(a, |snapshots|);
      GrowsByPosition(b, |snapshots|);
      OneOrderById(a, b, Straight(|snapshots|));
    }
  }

  lemma SameFamily(links: Links, a: seq<nat>, b: seq<nat>, p: nat)
    requires IsFamily(links, a, p) && IsFamily(links, b, p)
    ensures SetOf(a) == SetOf(b) && Within(a, |links|) && Within(b, |links|)
  {
    assert forall i :: 0 <= i < |a| ==> a[i] in a;
    assert forall i :: 0 <= i < |b| ==> b[i] in b;
  }

  lemma SortableAlike(schema: Schema, snapshots: seq<Snapshot>, a: seq<nat>, b: seq<nat>)
    requires SetOf(a) == SetOf(b)
    ensures Sortable(schema, snapshots, a) == Sortable(schema, snapshots, b)
  {
    assert forall x :: x in a <==> x in SetOf(a);
    assert forall x :: x in b <==> x in SetOf(b);
    assert a != [] ==> a[0] in a;
    assert b != [] ==> b[0] in b;
  }

  lemma DistinctAsGiven(snapshots: seq<Snapshot>, a: seq<nat>)
    requires Within(a, |snapshots|)
    requires forall i, j :: 0 <= i < j < |snapshots| ==> snapshots[i].id != snapshots[j].id
    ensures DistinctIds(a, Ids(snapshots)) && DistinctIds(a, Straight(|snapshots|))
  {
  }

  lemma GrowsByPosition(a: seq<nat>, n: nat)
    requires Within(a, n) && Grows(a)
    ensures SortedById(a, Straight(n))
  {
  }

  lemma {:induction false} OffspringLonger(families: Families, order: seq<nat>, k: nat)
    requires k <= |order|
    ensures |Offspring(families, order[..k])| <= |Offspring(families, order)|
    ensures Offspring(families, order)[..|Offspring(families, order[..k])|] == Offspring(families, order[..k])
    decreases |order|
  {
    if k < |order| {
      var last := |order| - 1;
      OffspringLonger(families, order[..last], k);
      assert order[..last][..k] == order[..k];
    } else {
      assert order[..k] == order;
    }
  }

  /** What comes next is known from what came before. */
  lemma NextIsKnown(links: Links, families: Families, order: seq<nat>, k: nat)
    requires InBatch(links) && AreFamilies(links, families) && k < |order| && Tour(links, families, order)
    ensures var known := Roots(links, |links|) + Offspring(families, order[..k]);
            k < |known| && known[k] == order[k]
  {
    hide Roots, Offspring;
    var known := Roots(links, |links|) + Offspring(families, order[..k]);
    OffspringLonger(families, order, k);
    assert known == order[..|known|];
    OffspringMembers(links, families, order[..k]);
    assert order[k] in SetOf(order);
    assert order[k] in known;
    var i :| 0 <= i < |known| && known[i] == order[k];
    assert order[i] == order[k];
  }

  lemma {:induction false} OneOrder(links: Links, families: Families, a: seq<nat>, b: seq<nat>, k: nat)
    requires InBatch(links) && AreFamilies(links, families) && |a| == |b| && k <= |a|
    requires Tour(links, families, a) && Tour(links, families, b)
    ensures a[..k] == b[..k]
    decreases k
  {
    hide Tour, AreFamilies, Roots, Offspring, InBatch;
    if k > 0 {
      OneOrder(links, families, a, b, k - 1);
      NextIsKnown(links, families, a, k - 1);
      NextIsKnown(links, families, b, k - 1);
      assert a[..k] == a[..k - 1] + [a[k - 1]] && b[..k] == b[..k - 1] + [b[k - 1]];
    }
  }

  lemma ArrangedAreFamilies(schema: Schema, snapshots: seq<Snapshot>, links: Links, families: Families, order: seq<nat>)
    requires Orders(schema, snapshots, links, families, order)
    ensures AreFamilies(links, families)
  {
    forall p | 0 <= p < |links|
      ensures IsFamily(links, families[p], p)
    {
      assert Arranged(schema, snapshots, links, families[p], p);
    }
  }

  lemma OnlyOrder(schema: Schema, snapshots: seq<Snapshot>, links: Links, f: Families, a: seq<nat>, g: Families, b: seq<nat>)
    requires InBatch(links) && Orders(schema, snapshots, links, f, a) && Orders(schema, snapshots, links, g, b)
    requires forall i, j :: 0 <= i < j < |snapshots| ==> snapshots[i].id != snapshots[j].id
    ensures a == b
  {
    hide Roots, Offspring, Arranged, IsFamily, AreFamilies;
    ArrangedAreFamilies(schema, snapshots, links, f, a);
    forall p | 0 <= p < |f|
      ensures f[p] == g[p]
    {
      OneFamily(schema, snapshots, links, p, f[p], g[p]);
    }
    assert f == g;
    OneOrder(links, f, a, b, |a|);
    assert a[..|a|] == a && b[..|b|] == b;
  }

  lemma OrderFound(schema: Schema, snapshots: seq<Snapshot>, positionById: map<ItemId, nat>, families: Families, order: seq<nat>)
    requires Indexes(positionById, snapshots) && Orders(schema, snapshots, LinksOf(positionById, snapshots), families, order)
    ensures Within(order, |snapshots|) && OrderOf(schema, snapshots) == Pick(snapshots, order)
  {
    hide Orders, Indexes, Pick;
    OrderedWithin(schema, snapshots, positionById, families, order);
    assert Ordered(schema, snapshots, order);
    forall other | Ordered(schema, snapshots, other)
      ensures other == order
    {
      var p, f :| Indexes(p, snapshots) && Orders(schema, snapshots, LinksOf(p, snapshots), f, other);
      OneIndex(snapshots, positionById, p);
      LinksInBatch(p, snapshots);
      IndexedDistinct(positionById, snapshots);
      OnlyOrder(schema, snapshots, LinksOf(p, snapshots), families, order, f, other);
    }
  }

  lemma OrderedWithin(schema: Schema, snapshots: seq<Snapshot>, positionById: map<ItemId, nat>, families: Families, order: seq<nat>)
    requires Orders(schema, snapshots, LinksOf(positionById, snapshots), families, order)
    ensures Within(order, |snapshots|)
  {
    PickAll(snapshots, order);
  }

  lemma IndexedDistinct(positionById: map<ItemId, nat>, snapshots: seq<Snapshot>)
    requires Indexes(positionById, snapshots)
    ensures forall i, j :: 0 <= i < j < |snapshots| ==> snapshots[i].id != snapshots[j].id
  {
  }

  lemma CyclicOrder(schema: Schema, snapshots: seq<Snapshot>, positionById: map<ItemId, nat>)
    requires Indexes(positionById, snapshots) && !Acyclic(LinksOf(positionById, snapshots))
    ensures OrderOf(schema, snapshots) == snapshots
  {
    hide Indexes, Acyclic, Pick;
    if o :| Ordered(schema, snapshots, o) {
      var p, f :| Indexes(p, snapshots) && Orders(schema, snapshots, LinksOf(p, snapshots), f, o);
      OneIndex(snapshots, positionById, p);
      LinksInBatch(p, snapshots);
      var rank := PlaceOfEach(LinksOf(p, snapshots), o);
      RankedIsAcyclic(LinksOf(p, snapshots), rank);
      assert false;
    }
  }

  lemma RankedIsAcyclic(links: Links, rank: seq<nat>)
    requires Ranks(links, rank)
    ensures Acyclic(links)
  {
  }

  // ----- The order, position by position -----

  /** First the positions without a parent in the batch, as they came; then those with one,
      in the turn of their parents. */
  ghost predicate InTurn(links: Links, order: seq<nat>)
    requires Within(order, |links|)
  {
    forall i, j :: 0 <= i < j < |order| ==>
      && (links[order[j]].None? ==> links[order[i]].None? && order[i] < order[j])
      && (links[order[i]].Some? ==> ParentBefore(links, order, order[i], order[j]))
  }

  /** The parent of the one does not come behind the parent of the other. */
  ghost predicate ParentBefore(links: Links, order: seq<nat>, a: nat, b: nat) {
    a < |links| && b < |links| && exists x, y :: 0 <= x <= y < |order| && links[a] == Some(order[x]) && links[b] == Some(order[y])
  }

  /** The children of a position are all of one container without unique columns. */
  ghost predicate PlainFamily(schema: Schema, snapshots: seq<Snapshot>, links: Links, p: nat)
    requires |links| == |snapshots|
  {
    forall a, b :: 0 <= a < |links| && 0 <= b < |links| && links[a] == Some(p) && links[b] == Some(p) ==>
      && snapshots[a].item.container == snapshots[b].item.container && snapshots[a].item.container in schema
      && forall c :: c in schema[snapshots[a].item.container].columns ==> !schema[snapshots[a].item.container].columns[c].unique
  }

  /** Siblings stand in the order of their ids, or as they came if some of them may clash. */
  ghost predicate SiblingsInOrder(schema: Schema, snapshots: seq<Snapshot>, links: Links, order: seq<nat>)
    requires Within(order, |links|) && |links| == |snapshots|
  {
    forall i, j :: 0 <= i < j < |order| && links[order[i]].Some? && links[order[i]] == links[order[j]] ==>
      if PlainFamily(schema, snapshots, links, links[order[i]].value) then snapshots[order[i]].id <= snapshots[order[j]].id
      else order[i] < order[j]
  }

  lemma {:induction false} RootsGrow(links: Links, n: nat)
    requires n <= |links|
    ensures forall i, j :: 0 <= i < j < |Roots(links, n)| ==> Roots(links, n)[i] < Roots(links, n)[j]
  {
    if n > 0 {
      RootsGrow(links, n - 1);
      var front := Roots(links, n - 1);
      forall i | 0 <= i < |front|
        ensures front[i] < n - 1
      {
        assert front[i] in front;
      }
    }
  }

  /** Of two places among the offspring, the first one's parent does not come later; and of two
      children of one parent the first one comes first in its family. */
  ghost predicate OffspringStands(links: Links, families: Families, order: seq<nat>, a: nat, b: nat)
    requires a < b < |Offspring(families, order)|
  {
    var x, y := Offspring(families, order)[a], Offspring(families, order)[b];
    && ParentBefore(links, order, x, y)
    && (x < |links| && y < |links| && links[x] == links[y] && links[x].Some? && links[x].value < |families| ==>
          ComesBefore(families[links[x].value], x, y))
  }

  ghost predicate ComesBefore(family: seq<nat>, x: nat, y: nat) {
    exists u, v :: 0 <= u < v < |family| && family[u] == x && family[v] == y
  }

  lemma {:induction false} OffspringInTurn(links: Links, families: Families, order: seq<nat>, a: nat, b: nat)
    requires AreFamilies(links, families) && Distinct(order) && Within(order, |links|) && a < b < |Offspring(families, order)|
    ensures OffspringStands(links, families, order, a, b)
    decreases |order|
  {
    hide ParentBefore, ComesBefore;
    var last := |order| - 1;
    var front, p := order[..last], order[last];
    var known, family := Offspring(families, front), families[p];
    assert Offspring(families, order) == known + family;
    assert IsFamily(links, family, p);
    assert front + [p] == order;
    if b < |known| {
      OffspringInTurn(links, families, front, a, b);
      LaterStill(links, front, p, known[a], known[b]);
    } else {
      assert family[b - |known|] in family;
      if a < |known| {
        OffspringMembers(links, families, front);
        assert known[a] in known;
        FrontThenLast(links, order, known[a], family[b - |known|]);
      } else {
        assert family[a - |known|] in family;
        BothLast(links, order, family[a - |known|], family[b - |known|]);
        InFamily(family, a - |known|, b - |known|);
      }
    }
  }

  lemma LaterStill(links: Links, front: seq<nat>, p: nat, a: nat, b: nat)
    requires ParentBefore(links, front, a, b)
    ensures ParentBefore(links, front + [p], a, b)
  {
    var x, y :| 0 <= x <= y < |front| && links[a] == Some(front[x]) && links[b] == Some(front[y]);
    assert (front + [p])[x] == front[x] && (front + [p])[y] == front[y];
  }

  lemma FrontThenLast(links: Links, order: seq<nat>, a: nat, b: nat)
    requires order != [] && Distinct(order) && a < |links| && b < |links|
    requires links[a].Some? && links[a].value in order[..|order| - 1] && links[b] == Some(order[|order| - 1])
    ensures ParentBefore(links, order, a, b) && links[a] != links[b]
  {
    var x :| 0 <= x < |order| - 1 && order[..|order| - 1][x] == links[a].value;
    assert order[x] == links[a].value;
  }

  lemma BothLast(links: Links, order: seq<nat>, a: nat, b: nat)
    requires order != [] && a < |links| && b < |links| && links[a] == links[b] == Some(order[|order| - 1])
    ensures ParentBefore(links, order, a, b)
  {
  }

  lemma InFamily(family: seq<nat>, u: nat, v: nat)
    requires u < v < |family|
    ensures ComesBefore(family, family[u], family[v])
  {
  }

  lemma SortableIff(schema: Schema, snapshots: seq<Snapshot>, links: Links, family: seq<nat>, p: nat)
    requires IsFamily(links, family, p) && family != [] && |links| == |snapshots|
    ensures Sortable(schema, snapshots, family) <==> PlainFamily(schema, snapshots, links, p)
  {
    assert family[0] in family;
    forall a | 0 <= a < |links| && links[a] == Some(p)
      ensures a in family
    {
    }
    forall a | a in family
      ensures a < |links| && links[a] == Some(p)
    {
    }
  }

  lemma SiblingOrder(schema: Schema, snapshots: seq<Snapshot>, links: Links, family: seq<nat>, p: nat, x: nat, y: nat)
    requires Arranged(schema, snapshots, links, family, p) && |links| == |snapshots| && ComesBefore(family, x, y)
    ensures x < |links| && y < |links|
    ensures if PlainFamily(schema, snapshots, links, p) then snapshots[x].id <= snapshots[y].id else x < y
  {
    hide Sortable, PlainFamily, SortedById;
    SortableIff(schema, snapshots, links, family, p);
    var u, v :| 0 <= u < v < |family| && family[u] == x && family[v] == y;
    assert family[u] in family && family[v] in family;
    if Sortable(schema, snapshots, family) {
      SortedPair(family, Ids(snapshots), u, v);
    } else {
      GrownPair(family, u, v);
    }
  }

  lemma SortedPair(s: seq<nat>, ids: seq<nat>, u: nat, v: nat)
    requires SortedById(s, ids) && u < v < |s|
    ensures s[u] < |ids| && s[v] < |ids| && ids[s[u]] <= ids[s[v]]
  {
  }

  lemma GrownPair(s: seq<nat>, u: nat, v: nat)
    requires Grows(s) && u < v < |s|
    ensures s[u] < s[v]
  {
  }

  /** The first places are the roots', the others the offspring's. */
  lemma PlacesSplit(links: Links, families: Families, order: seq<nat>, i: nat)
    requires Tour(links, families, order) && AreFamilies(links, families) && i < |order|
    ensures order[i] < |links|
    ensures i < |Roots(links, |links|)| ==> links[order[i]].None? && order[i] == Roots(links, |links|)[i]
    ensures i >= |Roots(links, |links|)| ==>
              links[order[i]].Some? && i - |Roots(links, |links|)| < |Offspring(families, order)|
              && order[i] == Offspring(families, order)[i - |Roots(links, |links|)|]
  {
    TourIsJoined(links, families, order);
    hide Tour, AreFamilies, Roots, Offspring;
    var roots, known := Roots(links, |links|), Offspring(families, order);
    OffspringMembers(links, families, order);
    if i < |roots| {
      assert (roots + known)[i] == roots[i] && roots[i] in roots;
    } else {
      assert (roots + known)[i] == known[i - |roots|] && known[i - |roots|] in known;
    }
  }

  lemma TourIsJoined(links: Links, families: Families, order: seq<nat>)
    requires Tour(links, families, order)
    ensures order == Roots(links, |links|) + Offspring(families, order)
  {
  }

  lemma PairStands(schema: Schema, snapshots: seq<Snapshot>, links: Links, families: Families, order: seq<nat>, i: nat, j: nat)
    requires InBatch(links) && Orders(schema, snapshots, links, families, order) && Within(order, |links|) && i < j < |order|
    ensures links[order[j]].None? ==> links[order[i]].None? && order[i] < order[j]
    ensures links[order[i]].Some? ==> ParentBefore(links, order, order[i], order[j])
    ensures links[order[i]].Some? && links[order[i]] == links[order[j]] ==>
              if PlainFamily(schema, snapshots, links, links[order[i]].value) then snapshots[order[i]].id <= snapshots[order[j]].id
              else order[i] < order[j]
  {
    hide Arranged, PlainFamily, ParentBefore, ComesBefore, ParentsFirst, AreFamilies, Roots, Offspring;
    ArrangedAreFamilies(schema, snapshots, links, families, order);
    var r := |Roots(links, |links|)|;
    PlacesSplit(links, families, order, i);
    PlacesSplit(links, families, order, j);
    RootsGrow(links, |links|);
    if i >= r {
      OffspringInTurn(links, families, order, i - r, j - r);
      if links[order[i]] == links[order[j]] {
        var p := links[order[i]].value;
        SiblingOrder(schema, snapshots, links, families[p], p, order[i], order[j]);
      }
    }
  }

  /** What the order is, said of any two positions. */
  lemma OrderMeans(schema: Schema, snapshots: seq<Snapshot>, links: Links, families: Families, order: seq<nat>)
    requires InBatch(links) && Orders(schema, snapshots, links, families, order)
    ensures Within(order, |links|) && InTurn(links, order) && SiblingsInOrder(schema, snapshots, links, order)
  {
    hide PlainFamily, InTurn, SiblingsInOrder, InBatch, Arranged;
    TourWithin(links, families, order);
    hide Orders;
    OrderInTurn(schema, snapshots, links, families, order);
    OrderOfSiblings(schema, snapshots, links, families, order);
  }

  lemma OrderInTurn(schema: Schema, snapshots: seq<Snapshot>, links: Links, families: Families, order: seq<nat>)
    requires InBatch(links) && Orders(schema, snapshots, links, families, order) && Within(order, |links|)
    ensures InTurn(links, order)
  {
    hide PlainFamily, ParentBefore, InBatch, Orders;
    forall i, j | 0 <= i < j < |order|
      ensures links[order[j]].None? ==> links[order[i]].None? && order[i] < order[j]
      ensures links[order[i]].Some? ==> ParentBefore(links, order, order[i], order[j])
    {
      PairStands(schema, snapshots, links, families, order, i, j);
    }
  }

  lemma OrderOfSiblings(schema: Schema, snapshots: seq<Snapshot>, links: Links, families: Families, order: seq<nat>)
    requires InBatch(links) && Orders(schema, snapshots, links, families, order) && Within(order, |links|) && |links| == |snapshots|
    ensures SiblingsInOrder(schema, snapshots, links, order)
  {
    hide PlainFamily, ParentBefore, InBatch, Orders;
    forall i, j | 0 <= i < j < |order| && links[order[i]].Some? && links[order[i]] == links[order[j]]
      ensures if PlainFamily(schema, snapshots, links, links[order[i]].value) then snapshots[order[i]].id <= snapshots[order[j]].id
              else order[i] < order[j]
    {
      PairStands(schema, snapshots, links, families, order, i, j);
    }
  }

  lemma TourWithin(links: Links, families: Families, order: seq<nat>)
    requires Tour(links, families, order)
    ensures Within(order, |links|)
  {
    forall i | 0 <= i < |order|
      ensures order[i] < |links|
    {
      assert order[i] in SetOf(order);
    }
  }

  /** `orderSnapshotsByParent`. */
  method OrderByParent(schema: Schema, snapshots: seq<Snapshot>, positionById: map<ItemId, nat>)
    returns (ordered: seq<Snapshot>)
    requires Indexes(positionById, snapshots) && forall i :: 0 <= i < |snapshots| ==> snapshots[i].id < IDS
    ensures multiset(ordered) == multiset(snapshots) && ordered == OrderOf(schema, snapshots)
    ensures Acyclic(LinksOf(positionById, snapshots)) ==> ParentsEarlier(ordered)
    ensures !Acyclic(LinksOf(positionById, snapshots)) ==> ordered == snapshots
    ensures Acyclic(LinksOf(positionById, snapshots)) ==>
              exists order :: Within(order, |snapshots|) && ordered == Pick(snapshots, order)
                && InTurn(LinksOf(positionById, snapshots), order) && SiblingsInOrder(schema, snapshots, LinksOf(positionById, snapshots), order)
  {
    hide InTurn, SiblingsInOrder, Roots, Linked, Offspring, Acyclic, InBucket, Buckets, Indexes, SortedById, Start, Arranged;
    var links, n := LinksOf(positionById, snapshots), |snapshots|;
    LinksInBatch(positionById, snapshots);
    var families := FormFamilies(schema, snapshots, links);
    var order := Visit(links, families);
    if |order| != n {
      CyclicOrder(schema, snapshots, positionById);
      return snapshots;
    }
    PickAll(snapshots, order);
    PickedParentsEarlier(positionById, snapshots, order);
    ordered := Pick(snapshots, order);
    OrderFound(schema, snapshots, positionById, families, order);
    OrderMeans(schema, snapshots, links, families, order);
  }

  lemma LinksInBatch(positionById: map<ItemId, nat>, snapshots: seq<Snapshot>)
    requires Indexes(positionById, snapshots)
    ensures InBatch(LinksOf(positionById, snapshots))
  {
  }

  /** Counts the children of each position, lines them up by parent, and puts each family
      in its order. */
  method FormFamilies(schema: Schema, snapshots: seq<Snapshot>, links: Links) returns (families: Families)
    requires |links| == |snapshots| && InBatch(links) && forall i :: 0 <= i < |snapshots| ==> snapshots[i].id < IDS
    ensures AreFamilies(links, families)
    ensures forall p :: 0 <= p < |families| ==> Arranged(schema, snapshots, links, families[p], p)
  {
    hide Roots, Linked, InBucket, Buckets, SortedById, Sortable, InBatch;
    var n := |snapshots|;
    var key := seq(n, i requires 0 <= i < n => links[i].GetOr(0));
    var linked: seq<nat> := [];
    NoneLinked(links);
    for i := 0 to n
      invariant linked == Linked(links, i)
    {
      LinkedNext(links, i);
      if links[i].Some? {
        linked := linked + [i];
      }
    }
    KeysInBatch(links, key);
    var childOffsets := CountOffsets(linked, key, n);
    var nextChildPosition := new nat[n + 1](i requires 0 <= i <= n reads childOffsets => childOffsets[i]);
    var children := new nat[|linked|](_ => 0);
    Scatter(linked, key, n, nextChildPosition, children);
    families := [];
    for parent := 0 to n
      invariant |families| == parent
      invariant children[..] == Buckets(linked, key, n) && forall b :: 0 <= b <= n ==> childOffsets[b] == Start(linked, key, b)
      invariant forall p :: 0 <= p < parent ==> IsFamily(links, families[p], p) && Arranged(schema, snapshots, links, families[p], p)
    {
      BucketAt(linked, key, parent, n);
      BucketIsFamily(links, key, parent);
      var siblings := children[childOffsets[parent]..childOffsets[parent + 1]];
      FamilyInRange(links, siblings, parent, Ids(snapshots));
      if |siblings| >= 2 && Sortable(schema, snapshots, siblings) {
        var sorted := SortPositionsById(siblings, Ids(snapshots));
        SortedFamily(schema, snapshots, links, siblings, sorted, parent);
        siblings := sorted;
      } else {
        OneIsSorted(siblings, Ids(snapshots));
      }
      families := families + [siblings];
    }
  }

  lemma KeysInBatch(links: Links, key: seq<nat>)
    requires InBatch(links) && |key| == |links| && forall i :: 0 <= i < |links| ==> key[i] == links[i].GetOr(0)
    ensures forall p :: p in Linked(links, |links|) ==> KeyOf(key, p) < |links|
  {
  }

  lemma FamilyInRange(links: Links, family: seq<nat>, p: nat, ids: seq<nat>)
    requires IsFamily(links, family, p) && |ids| == |links|
    ensures forall i :: 0 <= i < |family| ==> family[i] < |ids|
  {
    forall i | 0 <= i < |family|
      ensures family[i] < |ids|
    {
      assert family[i] in family;
    }
  }

  lemma OneIsSorted(s: seq<nat>, ids: seq<nat>)
    requires forall i :: 0 <= i < |s| ==> s[i] < |ids|
    ensures |s| < 2 ==> SortedById(s, ids)
  {
  }
}
