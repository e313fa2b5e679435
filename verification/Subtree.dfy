/** The subtree under an item is the item and the subtrees under its children, each apart
    from the others: what the collecting recursion of a removal stands on
    (src/engine.cpp:3651-3673). */
module Subtrees {
  import opened Wrappers
  import opened Sequences
  import opened ListInserts
  import opened GroupPlanner
  import opened Documents
  import opened Cascade
  import P = ParentChain

  /** No chain of parents goes round, though parents may be missing. */
  ghost predicate NoRounds(items: Items) {
    forall id :: id in items ==> P.Ends(Parents(items), Some(id))
  }

  lemma ForestHasNoRounds(items: Items)
    requires Forest(items)
    ensures NoRounds(items)
  {
    forall id | id in items
      ensures P.Ends(Parents(items), Some(id))
    {
      var n: nat :| P.Climb(Parents(items), Some(id), n) == P.Top;
    }
  }

  /** Erasing an item, whatever hangs under it, makes no chain go round. */
  lemma EraseMakesNoRounds(schema: Schema, doc: Doc, id: ItemId, item: Item)
    requires NoRounds(doc.items)
    ensures NoRounds(EraseItem(schema, doc, id, item).items)
  {
    var d := EraseItem(schema, doc, id, item);
    ErasedParents(schema, doc, id, item);
    forall x | x in d.items
      ensures P.Ends(Parents(d.items), Some(x))
    {
      P.EndsWithoutIt(Parents(doc.items), id, Some(x));
    }
  }

  lemma ErasedParents(schema: Schema, doc: Doc, id: ItemId, item: Item)
    ensures Parents(EraseItem(schema, doc, id, item).items) == Parents(doc.items) - {id}
  {
    hide Reindexed, GroupOf, Position;
    if GroupOf(schema, item).Some? {
      var list := At(doc.groups, GroupOf(schema, item).value);
      if Position(list, id, item.listIndex).Some? {
        var i := Position(list, id, item.listIndex).value;
        ReindexedParents(doc.items, RemoveAt(list, i), i);
      }
    }
    var after := RemoveFromGroup(schema, doc, id, item).items;
    assert Parents(after) == Parents(doc.items);
    assert Parents(after - {id}) == Parents(after) - {id};
  }

  lemma {:induction false} ReindexedParents(items: Items, list: seq<ItemId>, from: nat)
    ensures Parents(Reindexed(items, list, from)) == Parents(items)
    decreases |list| - from
  {
    if from < |list| {
      var x := list[from];
      var next := if x in items then items[x := items[x].(listIndex := Some(from))] else items;
      ReindexedParents(next, list, from + 1);
      assert Parents(next) == Parents(items);
    }
  }

  /** The items under any of the given ones. */
  ghost function UnderAny(items: Items, roots: seq<ItemId>): set<ItemId> {
    if roots == [] then {} else UnderAny(items, roots[..|roots| - 1]) + Below(items, roots[|roots| - 1])
  }

  lemma {:induction false} UnderAnyMember(items: Items, roots: seq<ItemId>, x: ItemId)
    ensures x in UnderAny(items, roots) <==> exists i :: 0 <= i < |roots| && x in Below(items, roots[i])
  {
    if roots != [] {
      hide Below;
      var last := |roots| - 1;
      UnderAnyMember(items, roots[..last], x);
      if i :| 0 <= i < |roots| && x in Below(items, roots[i]) && i < last {
        assert roots[..last][i] == roots[i];
      }
    }
  }

  predicate ChildOf(items: Items, child: ItemId, parent: ItemId) {
    child in items && items[child].parent == Some(parent)
  }

  /** What is under an item, other than itself, is under one of its children. */
  lemma UnderSomeChild(items: Items, root: ItemId, x: ItemId) returns (child: ItemId)
    requires x in Below(items, root) && x != root
    ensures ChildOf(items, child, root) && x in Below(items, child)
  {
    var parents := Parents(items);
    var n: nat :| P.Climb(parents, Some(x), n) == P.At(root);
    assert n > 0;
    var before := P.Climb(parents, Some(x), n - 1);
    assert before.At?;
    child := before.id;
  }

  /** What is under a child is under the item. */
  lemma UnderChild(items: Items, root: ItemId, child: ItemId, x: ItemId)
    requires ChildOf(items, child, root) && x in Below(items, child)
    ensures x in Below(items, root)
  {
    var parents := Parents(items);
    var n: nat :| P.Climb(parents, Some(x), n) == P.At(child);
    assert P.Climb(parents, Some(x), n + 1) == P.At(root);
  }

  /** Where no chain goes round, no item is under its own child. */
  lemma NotUnderChild(items: Items, root: ItemId, child: ItemId)
    requires NoRounds(items) && ChildOf(items, child, root)
    ensures root !in Below(items, child)
  {
    var parents := Parents(items);
    if root in Below(items, child) {
      var n: nat :| P.Climb(parents, Some(root), n) == P.At(child);
      var m := P.FirstVisit(parents, Some(root), child, n);
      if m == 0 {
        P.EndingNeverReturns(parents, child, 0);
      } else {
        P.StartOneUp(parents, root, m - 1);
        assert P.Climb(parents, parents[root], m) == P.At(root);
        P.EndingNeverReturns(parents, root, m);
      }
    }
  }

  /** Nothing is under two children at once. */
  lemma UnderOneChild(items: Items, root: ItemId, a: ItemId, b: ItemId, x: ItemId)
    requires NoRounds(items) && ChildOf(items, a, root) && ChildOf(items, b, root) && a != b
    requires x in Below(items, a)
    ensures x !in Below(items, b)
  {
    var parents := Parents(items);
    var n: nat :| P.Climb(parents, Some(x), n) == P.At(a);
    forall m: nat
      ensures P.Climb(parents, Some(x), m) != P.At(b)
    {
      if n <= m {
        NeverMetAbove(items, root, a, b, x, n, m);
      } else if P.Climb(parents, Some(x), m) == P.At(b) {
        NeverMetAbove(items, root, b, a, x, m, n);
      }
    }
  }

  lemma NeverMetAbove(items: Items, root: ItemId, a: ItemId, b: ItemId, x: ItemId, n: nat, m: nat)
    requires ChildOf(items, a, root) && ChildOf(items, b, root) && NoRounds(items) && a != b
    requires n <= m && P.Climb(Parents(items), Some(x), n) == P.At(a)
    ensures P.Climb(Parents(items), Some(x), m) != P.At(b)
  {
    var parents := Parents(items);
    if n < m {
      P.ClimbSum(parents, Some(x), n, m - n);
      P.StartOneUp(parents, a, m - n - 1);
      if root in items {
        NotUnderChild(items, root, b);
        assert !P.Visits(parents, Some(root), b);
      } else {
        NotThere(parents, root, m - n - 1);
      }
    }
  }

  /** A climb from outside the items goes nowhere. */
  lemma {:induction false} NotThere(parents: P.Parents, id: ItemId, n: nat)
    requires id !in parents
    ensures P.Climb(parents, Some(id), n) == if n == 0 then P.At(id) else P.Lost
  {
    if n > 0 {
      NotThere(parents, id, n - 1);
    }
  }

  /** The children listed for an item: all of them, each once. */
  ghost predicate ListsChildren(items: Items, childrenByParent: map<ItemId, seq<ItemId>>) {
    && (forall p :: p in childrenByParent ==> Distinct(childrenByParent[p]))
    && (forall p, c :: p in childrenByParent && c in childrenByParent[p] ==> ChildOf(items, c, p))
    && (forall c :: c in items && items[c].parent.Some? ==> ListedUnder(childrenByParent, c, items[c].parent.value))
  }

  ghost predicate ListedUnder(childrenByParent: map<ItemId, seq<ItemId>>, c: ItemId, p: ItemId) {
    p in childrenByParent && c in childrenByParent[p]
  }

  /** What has been collected of an item's subtree when `done` of its children are. */
  ghost predicate Collecting(items: Items, root: ItemId, done: seq<ItemId>, order: seq<ItemId>) {
    Distinct(order) && order != [] && order[0] == root && SetOf(order) == {root} + UnderAny(items, done)
  }

  lemma CollectingStart(items: Items, root: ItemId)
    ensures Collecting(items, root, [], [root])
  {
    assert SetOf([root]) == {root};
  }

  lemma CollectNext(items: Items, root: ItemId, done: seq<ItemId>, child: ItemId, order: seq<ItemId>, sub: seq<ItemId>)
    requires NoRounds(items) && Collecting(items, root, done, order) && Collected(items, child, sub)
    requires ChildOf(items, child, root) && child !in done && forall c :: c in done ==> ChildOf(items, c, root)
    ensures Collecting(items, root, done + [child], order + sub)
  {
    hide Below, NoRounds, ChildOf, UnderAny;
    forall x | x in order
      ensures x !in sub
    {
      assert x in SetOf(order);
      if x == root {
        NotUnderChild(items, root, child);
        assert x !in SetOf(sub);
      } else {
        UnderAnyMember(items, done, x);
        var i :| 0 <= i < |done| && x in Below(items, done[i]);
        UnderOneChild(items, root, done[i], child, x);
        assert x !in SetOf(sub);
      }
    }
    assert SetOf(order + sub) == SetOf(order) + SetOf(sub);
    UnderAnyNext(items, done, child);
    forall i, j | 0 <= i < j < |order + sub|
      ensures (order + sub)[i] != (order + sub)[j]
    {
      if i < |order| <= j {
        assert (order + sub)[i] in order && (order + sub)[j] in sub;
      }
    }
  }

  lemma UnderAnyNext(items: Items, done: seq<ItemId>, child: ItemId)
    ensures UnderAny(items, done + [child]) == UnderAny(items, done) + Below(items, child)
  {
    assert (done + [child])[..|done|] == done;
  }

  lemma CollectedAll(items: Items, root: ItemId, children: seq<ItemId>, order: seq<ItemId>)
    requires root in items && Collecting(items, root, children, order)
    requires forall c :: c in children ==> ChildOf(items, c, root)
    requires forall c :: ChildOf(items, c, root) ==> c in children
    ensures Collected(items, root, order)
  {
    hide Below, UnderAny, ChildOf;
    forall x
      ensures x in SetOf(order) <==> x in Below(items, root)
    {
      UnderAnyMember(items, children, x);
      RootIsBelow(items, root);
      if x in Below(items, root) && x != root {
        var c := UnderSomeChild(items, root, x);
        var i :| 0 <= i < |children| && children[i] == c;
      }
      if i :| 0 <= i < |children| && x in Below(items, children[i]) {
        UnderChild(items, root, children[i], x);
      }
    }
    assert SetOf(order) == Below(items, root);
  }

  /** The recursion goes down to a smaller subtree. */
  lemma ChildIsSmaller(items: Items, root: ItemId, child: ItemId)
    requires NoRounds(items) && root in items && ChildOf(items, child, root)
    ensures |Below(items, child)| < |Below(items, root)|
  {
    NotUnderChild(items, root, child);
    RootIsBelow(items, root);
    forall x | x in Below(items, child)
      ensures x in Below(items, root)
    {
      UnderChild(items, root, child, x);
    }
    hide Below;
    SubsetSize(Below(items, child), Below(items, root));
  }
}
