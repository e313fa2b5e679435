/** What the operations do to the items: parents, column values and unique columns. */
module DocumentItems {
  import opened Wrappers
  import opened Values
  import opened ListInserts
  import opened Documents
  import P = ParentChain

  // ----- Soundness does not look at cached positions -----

  predicate SameBare(a: Item, b: Item) {
    BareItem(a) == BareItem(b)
  }

  lemma SameBareFields(a: Item, b: Item)
    requires SameBare(a, b)
    ensures a.container == b.container && a.parent == b.parent && a.values == b.values
  {
    assert BareItem(a).values == a.values && BareItem(b).values == b.values;
  }

  lemma BareSame(a: Items, b: Items)
    requires Bare(a) == Bare(b)
    ensures a.Keys == b.Keys && forall id :: id in a ==> SameBare(a[id], b[id])
  {
    assert a.Keys == Bare(a).Keys == b.Keys;
    forall id | id in a
      ensures SameBare(a[id], b[id])
    {
      assert Bare(a)[id] == Bare(b)[id];
    }
  }

  lemma SoundBare(schema: Schema, a: Items, b: Items)
    requires Bare(a) == Bare(b) && Sound(schema, a)
    ensures Sound(schema, b) && Parents(a) == Parents(b)
  {
    BareSame(a, b);
    forall id | id in a
      ensures a[id].container == b[id].container && a[id].parent == b[id].parent && a[id].values == b[id].values
    {
      SameBareFields(a[id], b[id]);
    }
    assert Parents(a) == Parents(b);
    forall id | id in b
      ensures b[id].container in schema && ValuesFit(schema[b[id].container], b[id]) && ParentFits(schema, b, b[id])
    {
      SameValuesFit(schema[a[id].container], a[id], b[id]);
    }
    forall x, y, column | x in b && y in b && x != y
      ensures !Clash(schema, b[x], b[y], column)
    {
      assert !Clash(schema, a[x], a[y], column);
    }
  }

  lemma SameValuesFit(container: Container, a: Item, b: Item)
    requires ValuesFit(container, a) && a.values == b.values
    ensures ValuesFit(container, b)
  {
    forall c | c in container.columns
      ensures Admits(container.columns[c], ValueAt(b, c))
    {
      assert ValueAt(a, c) == ValueAt(b, c);
    }
  }

  lemma ClashSymmetric(schema: Schema, a: Item, b: Item, column: ColumnId)
    ensures Clash(schema, a, b, column) == Clash(schema, b, a, column)
  {
  }

  // ----- Accepted items keep the items sound -----

  /** Storing an accepted item, new or in place of one of the same container, keeps the
      items sound, although an update checks no unique column it leaves unchanged. */
  lemma AcceptKeepsSound(schema: Schema, items: Items, id: ItemId, item: Item)
    requires Sound(schema, items)
    requires id in items ==> items[id].container == item.container
    requires Accepts(schema, items, id, item, if id in items then Some(items[id]) else None)
    ensures Sound(schema, items[id := item])
  {
    var after := items[id := item];
    assert Parents(after) == Parents(items)[id := item.parent];
    P.HangingKeepsRoots(Parents(items), id, item.parent);
    AcceptKeepsTyped(schema, items, id, item);
    AcceptKeepsUnique(schema, items, id, item);
  }

  lemma AcceptKeepsTyped(schema: Schema, items: Items, id: ItemId, item: Item)
    requires Sound(schema, items)
    requires id in items ==> items[id].container == item.container
    requires Accepts(schema, items, id, item, if id in items then Some(items[id]) else None)
    ensures Typed(schema, items[id := item])
  {
    hide Clash, ValuesFit, P.EndsWithout, P.Rooted, UniqueFor;
    var after := items[id := item];
    forall x | x in after
      ensures after[x].container in schema && ValuesFit(schema[after[x].container], after[x])
      ensures ParentFits(schema, after, after[x])
    {
    }
  }

  lemma AcceptKeepsUnique(schema: Schema, items: Items, id: ItemId, item: Item)
    requires Unique(schema, items) && item.container in schema
    requires id in items ==> items[id].container == item.container
    requires UniqueFor(schema, items, id, item, if id in items then Some(items[id]) else None)
    ensures Unique(schema, items[id := item])
  {
    var after := items[id := item];
    forall x, y, column | x in after && y in after && x != y
      ensures !Clash(schema, after[x], after[y], column)
    {
      if x == id {
        NewDoesNotClash(schema, items, id, item, y, column);
      } else if y == id {
        NewDoesNotClash(schema, items, id, item, x, column);
        ClashSymmetric(schema, item, items[x], column);
      }
    }
  }

  lemma NewDoesNotClash(schema: Schema, items: Items, id: ItemId, item: Item, other: ItemId, column: ColumnId)
    requires Unique(schema, items) && item.container in schema
    requires id in items ==> items[id].container == item.container
    requires UniqueFor(schema, items, id, item, if id in items then Some(items[id]) else None)
    requires other in items && other != id
    ensures !Clash(schema, item, items[other], column)
  {
    var previous := if id in items then Some(items[id]) else None;
    if column in schema[item.container].columns {
      if !NeedsCheck(schema, previous, item, column) {
        assert !Clash(schema, items[id], items[other], column);
      }
    }
  }

  // ----- Erasing -----

  /** No item that stays hangs under one that goes. */
  ghost predicate NoOrphans(items: Items, removed: set<ItemId>) {
    forall x :: x in items && x !in removed && items[x].parent.Some? ==> items[x].parent.value !in removed
  }

  lemma EraseKeepsSound(schema: Schema, items: Items, removed: set<ItemId>)
    requires Sound(schema, items) && NoOrphans(items, removed)
    ensures Sound(schema, items - removed)
  {
    var after := items - removed;
    forall x | x in after
      ensures P.Rooted(Parents(after), Some(x))
    {
      var n: nat :| P.Climb(Parents(items), Some(x), n) == P.Top;
      ClimbAmongRest(items, removed, x, n);
    }
  }

  lemma {:induction false} ClimbAmongRest(items: Items, removed: set<ItemId>, x: ItemId, n: nat)
    requires NoOrphans(items, removed) && x in items && x !in removed
    ensures P.Climb(Parents(items - removed), Some(x), n) == P.Climb(Parents(items), Some(x), n)
    ensures P.Climb(Parents(items), Some(x), n).At? ==> P.Climb(Parents(items), Some(x), n).id !in removed
    decreases n
  {
    if n > 0 {
      ClimbAmongRest(items, removed, x, n - 1);
    }
  }

  // ----- Putting items of a sound document back -----

  /** `part` holds items of the sound `whole`, up to their positions, and with each its
      parent. The item `id` may be anything. */
  ghost predicate PartOf(part: Items, whole: Items, id: ItemId) {
    forall x :: x in part && x != id ==>
      && x in whole && SameBare(part[x], whole[x])
      && (part[x].parent.Some? ==> part[x].parent.value in part)
  }

  /** An item of a sound document is accepted back into any part that has its parent. */
  lemma AcceptedBack(schema: Schema, whole: Items, part: Items, id: ItemId, item: Item, previous: Option<Item>)
    requires Sound(schema, whole) && id in whole && SameBare(item, whole[id])
    requires PartOf(part, whole, id)
    requires item.parent.Some? ==> item.parent.value in part
    ensures Accepts(schema, part, id, item, previous)
  {
    SameBareFields(item, whole[id]);
    SameValuesFit(schema[item.container], whole[id], item);
    forall x | x in part && x != id
      ensures x in whole && part[x].container == whole[x].container
      ensures part[x].parent == whole[x].parent && part[x].values == whole[x].values
    {
      SameBareFields(part[x], whole[x]);
    }
    assert ParentFits(schema, whole, whole[id]);
    P.RootedNeverReturns(Parents(whole), id, 0);
    BackWithoutCycle(whole, part, id, item.parent);
    forall other, column | other in part && other != id && column in schema[item.container].columns
      ensures !Clash(schema, item, part[other], column)
    {
      assert !Clash(schema, whole[id], whole[other], column);
    }
  }

  lemma BackWithoutCycle(whole: Items, part: Items, id: ItemId, parent: Option<ItemId>)
    requires Forest(whole) && id in whole && whole[id].parent == parent
    requires forall x :: x in part && x != id ==>
      x in whole && part[x].parent == whole[x].parent && (part[x].parent.Some? ==> part[x].parent.value in part)
    requires parent.Some? ==> parent.value in part
    ensures P.EndsWithout(Parents(part), id, parent, P.Top)
  {
    var small, big := Parents(part), Parents(whole);
    P.RootedOneUp(big, id);
    var n: nat :| P.Climb(big, parent, n) == P.Top;
    forall k: nat
      ensures P.Climb(big, parent, k) != P.At(id)
    {
      P.RootedNeverReturns(big, id, k);
    }
    forall k: nat | k <= n
      ensures P.Climb(small, parent, k) == P.Climb(big, parent, k)
    {
      P.ClimbInPart(small, big, parent, id, k);
    }
  }
}
