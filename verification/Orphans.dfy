/** Snapshots whose items do not all hang together: which documents a restored snapshot can
    stand for (src/engine.cpp:3107-3129), and which ones a removal by position leaves
    (src/engine.cpp:3714-3755). */
module Orphans {
  import opened Wrappers
  import opened Sequences
  import opened ListInserts
  import opened GroupPlanner
  import opened Documents
  import opened DocumentLists
  import opened DocumentItems
  import opened Changes
  import opened Undo
  import opened Batches
  import opened Restore
  import opened Subtrees
  import P = ParentChain

  /** Every parent is there. */
  predicate ParentsThere(items: Items) {
    forall id :: id in items && items[id].parent.Some? ==> items[id].parent.value in items
  }

  /** What a well-formed document has but for its parents: they fit if they are there. */
  ghost predicate WellFormedButParents(schema: Schema, doc: Doc) {
    && InOrder(schema, doc, {}) && Unique(schema, doc.items)
    && forall id :: id in doc.items ==> FitsIfThere(schema, doc.items, doc.items[id])
  }

  predicate FitsIfThere(schema: Schema, items: Items, item: Item) {
    && item.container in schema && ValuesFit(schema[item.container], item)
    && (item.parent.Some? ==> schema[item.container].target.Some?)
    && (item.parent.None? || item.parent.value in items ==> ParentFits(schema, items, item))
  }

  /** Chains all reach a root exactly when none goes round and every parent is there. */
  lemma ForestIff(items: Items)
    ensures Forest(items) <==> NoRounds(items) && ParentsThere(items)
  {
    var parents := Parents(items);
    if Forest(items) {
      ForestHasNoRounds(items);
      forall id | id in items && items[id].parent.Some?
        ensures items[id].parent.value in items
      {
        P.RootedOneUp(parents, id);
        var n: nat :| P.Climb(parents, items[id].parent, n) == P.Top;
        StartIsThere(parents, items[id].parent.value, n);
      }
    }
    if NoRounds(items) && ParentsThere(items) {
      forall id | id in items
        ensures P.Rooted(parents, Some(id))
      {
        var n: nat :| !P.Climb(parents, Some(id), n).At?;
        NeverLost(items, id, n);
      }
    }
  }

  lemma {:induction false} StartIsThere(parents: P.Parents, id: ItemId, n: nat)
    requires P.Climb(parents, Some(id), n) == P.Top
    ensures id in parents
  {
    if id !in parents {
      LostStays(parents, id, n);
    }
  }

  lemma {:induction false} LostStays(parents: P.Parents, id: ItemId, n: nat)
    requires id !in parents
    ensures P.Climb(parents, Some(id), n) == if n == 0 then P.At(id) else P.Lost
  {
    if n > 0 {
      LostStays(parents, id, n - 1);
    }
  }

  lemma {:induction false} NeverLost(items: Items, id: ItemId, n: nat)
    requires ParentsThere(items) && id in items
    ensures var place := P.Climb(Parents(items), Some(id), n); place == P.Top || (place.At? && place.id in items)
  {
    if n > 0 {
      NeverLost(items, id, n - 1);
    }
  }

  // ----- Items that wait for ever -----

  ghost predicate InFrom(whole: Items, waiting: seq<Snapshot>) {
    forall i :: 0 <= i < |waiting| ==> waiting[i].id in whole && waiting[i].item == whole[waiting[i].id]
  }

  /** Only items whose chains reach a root are stored. */
  ghost predicate RootedOnly(whole: Items, part: Items) {
    forall x :: x in part ==> P.Rooted(Parents(whole), Some(x))
  }

  lemma InsertedKeys(schema: Schema, doc: Doc, id: ItemId, item: Item)
    requires InsertItem(schema, doc, id, item).Some?
    ensures InsertItem(schema, doc, id, item).value.items.Keys == doc.items.Keys + {id}
  {
    hide Accepts, GroupOf, Reindexed;
    if GroupOf(schema, item).Some? {
      var was := At(doc.groups, GroupOf(schema, item).value);
      var list, at := Place(was, Insert(id, item.listIndex)), item.listIndex.GetOr(|was|) + 1;
      ReindexedParents(doc.items, list, at);
      assert Parents(Reindexed(doc.items, list, at)).Keys == Reindexed(doc.items, list, at).Keys && Parents(doc.items).Keys == doc.items.Keys;
    }
  }

  /** A pass stores only items whose chains reach a root; the others wait on. */
  lemma {:induction false} PassLeavesOrphans(schema: Schema, whole: Items, doc: Doc, waiting: seq<Snapshot>, x: ItemId)
    requires InFrom(whole, waiting) && RootedOnly(whole, doc.items) && !P.Rooted(Parents(whole), Some(x))
    ensures var pass := RestorePass(schema, doc, waiting);
            pass.Some? ==>
              && InFrom(whole, pass.value.1) && RootedOnly(whole, pass.value.0.items)
              && (Waits(waiting, x) ==> Waits(pass.value.1, x))
    decreases |waiting|
  {
    hide InsertItem, ListReady, P.Rooted;
    if waiting != [] {
      var s := waiting[0];
      P.RootedOneUp(Parents(whole), s.id);
      if Ready(doc.items, s) && ListReady(schema, doc, s.item) {
        if InsertItem(schema, doc, s.id, s.item).Some? {
          InsertedKeys(schema, doc, s.id, s.item);
          ReadyIsRooted(whole, doc.items, s);
          PassLeavesOrphans(schema, whole, InsertItem(schema, doc, s.id, s.item).value, waiting[1..], x);
          WaitsBehind(waiting, x);
        }
      } else {
        PassLeavesOrphans(schema, whole, doc, waiting[1..], x);
        if RestorePass(schema, doc, waiting[1..]).Some? {
          var rest := RestorePass(schema, doc, waiting[1..]).value.1;
          WaitsBehind(waiting, x);
          WaitsBehind([s] + rest, x);
          assert ([s] + rest)[1..] == rest;
        }
      }
    }
  }

  lemma ReadyIsRooted(whole: Items, part: Items, s: Snapshot)
    requires RootedOnly(whole, part) && Ready(part, s)
    ensures P.Rooted(Parents(whole), s.item.parent)
  {
    match s.item.parent
    case Some(parent) => assert parent in part;
    case None => assert P.Climb(Parents(whole), None, 0) == P.Top;
  }

  lemma WaitsBehind(waiting: seq<Snapshot>, x: ItemId)
    requires waiting != []
    ensures Waits(waiting, x) <==> waiting[0].id == x || Waits(waiting[1..], x)
  {
    if i :| 0 <= i < |waiting| && waiting[i].id == x {
      assert i > 0 ==> waiting[1..][i - 1].id == x;
    }
    if i :| 0 <= i < |waiting[1..]| && waiting[1..][i].id == x {
      assert waiting[i + 1].id == x;
    }
  }

  lemma {:induction false} OrphansGetStuck(schema: Schema, whole: Items, doc: Doc, waiting: seq<Snapshot>, x: ItemId)
    requires InFrom(whole, waiting) && RootedOnly(whole, doc.items) && Waits(waiting, x) && !P.Rooted(Parents(whole), Some(x))
    ensures RestoreAll(schema, doc, waiting) == None
    decreases |waiting|
  {
    hide RestorePass, P.Rooted, InFrom, RootedOnly;
    PassLeavesOrphans(schema, whole, doc, waiting, x);
    if RestorePass(schema, doc, waiting).Some? {
      var pass := RestorePass(schema, doc, waiting).value;
      if |pass.1| < |waiting| {
        OrphansGetStuck(schema, whole, pass.0, pass.1, x);
      }
    }
  }

  /** Whatever the order, a snapshot is restored exactly when its chains of parents all reach
      a root, and then to the document that it was taken of. */
  lemma RestoreIff(schema: Schema, whole: Doc, snapshots: seq<Snapshot>)
    requires WellFormedButParents(schema, whole) && Enumerates(whole.items, snapshots)
    ensures RestoreAll(schema, Doc(map[], map[]), snapshots) == if Forest(whole.items) then Some(whole) else None
  {
    hide RestoreAll, InOrder, Unique, P.Rooted, ValuesFit;
    if Forest(whole.items) {
      ForestIff(whole.items);
      assert Typed(schema, whole.items);
      RestoreRebuilds(schema, whole, snapshots);
    } else {
      var x :| x in whole.items && !P.Rooted(Parents(whole.items), Some(x));
      OrphansGetStuck(schema, whole.items, Doc(map[], map[]), snapshots, x);
    }
  }

  // ----- What a removal by position leaves -----

  /** The document that an item was removed from by position can be restored from its snapshot
      exactly when nothing hung below the item. */
  lemma RemovedAtRestoresIff(schema: Schema, doc: Doc, id: ItemId, snapshots: seq<Snapshot>)
    requires WellFormed(schema, doc) && id in doc.items
    requires Enumerates(EraseItem(schema, doc, id, doc.items[id]).items, snapshots)
    ensures var d := EraseItem(schema, doc, id, doc.items[id]);
            RestoreAll(schema, Doc(map[], map[]), snapshots) == if Childless(doc.items, id) then Some(d) else None
  {
    hide RestoreAll, InOrder, RemoveFromGroup, Forest, WellFormedButParents, NoRounds;
    var d := EraseItem(schema, doc, id, doc.items[id]);
    EraseKeepsOrder(schema, doc, id);
    RemovedIsButParents(schema, doc, d, id);
    RestoreIff(schema, d, snapshots);
    ForestHasNoRounds(doc.items);
    EraseMakesNoRounds(schema, doc, id, doc.items[id]);
    ForestIff(d.items);
    ForestIff(doc.items);
    NotItsOwnParent(doc.items, id);
    ParentsLeft(schema, doc, d, id);
  }

  lemma NotItsOwnParent(items: Items, id: ItemId)
    requires Forest(items) && id in items
    ensures items[id].parent != Some(id)
  {
    P.RootedNeverReturns(Parents(items), id, 0);
  }

  lemma LeftAlike(doc: Doc, d: Doc, id: ItemId, x: ItemId)
    requires Bare(d.items) == Bare(doc.items) - {id}
    ensures x in d.items <==> x in doc.items && x != id
    ensures x in d.items ==>
              d.items[x].container == doc.items[x].container && d.items[x].parent == doc.items[x].parent && d.items[x].values == doc.items[x].values
  {
    assert d.items.Keys == Bare(d.items).Keys;
    if x in d.items {
      assert Bare(d.items)[x] == Bare(doc.items)[x];
      SameBareFields(d.items[x], doc.items[x]);
    }
  }

  lemma RemovedIsButParents(schema: Schema, doc: Doc, d: Doc, id: ItemId)
    requires WellFormed(schema, doc) && InOrder(schema, d, {}) && Bare(d.items) == Bare(doc.items) - {id}
    ensures WellFormedButParents(schema, d)
  {
    hide InOrder, Bare, Forest, Clash, ValuesFit;
    forall x | x in d.items
      ensures FitsIfThere(schema, d.items, d.items[x])
    {
      LeftAlike(doc, d, id, x);
      if d.items[x].parent.Some? {
        LeftAlike(doc, d, id, d.items[x].parent.value);
      }
      SameValuesFit(schema[doc.items[x].container], doc.items[x], d.items[x]);
    }
    forall a, b, column | a in d.items && b in d.items && a != b
      ensures !Clash(schema, d.items[a], d.items[b], column)
    {
      LeftAlike(doc, d, id, a);
      LeftAlike(doc, d, id, b);
      ClashesAlike(schema, doc.items[a], d.items[a], doc.items[b], d.items[b], column);
    }
  }

  lemma ClashesAlike(schema: Schema, a: Item, a': Item, b: Item, b': Item, column: ColumnId)
    requires a.container == a'.container && a.parent == a'.parent && a.values == a'.values
    requires b.container == b'.container && b.parent == b'.parent && b.values == b'.values
    ensures Clash(schema, a, b, column) == Clash(schema, a', b', column)
  {
  }

  lemma ParentsLeft(schema: Schema, doc: Doc, d: Doc, id: ItemId)
    requires ParentsThere(doc.items) && id in doc.items && Bare(d.items) == Bare(doc.items) - {id}
    requires doc.items[id].parent != Some(id)
    ensures ParentsThere(d.items) <==> Childless(doc.items, id)
  {
    hide Bare;
    forall x
      ensures x in d.items <==> x in doc.items && x != id
      ensures x in d.items ==> d.items[x].parent == doc.items[x].parent
    {
      LeftAlike(doc, d, id, x);
    }
    if ParentsThere(d.items) {
      forall x | x in doc.items
        ensures doc.items[x].parent != Some(id)
      {
        assert x != id ==> x in d.items;
      }
    }
  }
}
