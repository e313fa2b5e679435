/** Every document that transactions reach from the empty one, mixing single requests with
    joint updates and the removal of whole subtrees (src/engine.cpp:380-467, 667-812, 1222-1302, 3637-3703). */
module Reachability {
  import opened Wrappers
  import opened Sequences
  import opened ListInserts
  import opened GroupPlanner
  import opened Documents
  import opened DocumentLists
  import opened Changes
  import opened Undo
  import opened Cascade
  import opened History
  import opened JointUpdates
  import opened Requests
  import ParentChain

  datatype Action =
    | One(request: Request)
    /** The removal of `order[0]` and everything below it, collected in that order. */
    | Tree(order: seq<ItemId>)
    /** Several columns of an item at once. */
    | Many(id: ItemId, edits: seq<Edit>)

  ghost predicate Possible(schema: Schema, doc: Doc, action: Action) {
    match action
    case One(request) => Perform(schema, doc, request).Some?
    case Tree(order) => order != [] && order[0] in doc.items && Collected(doc.items, order[0], order)
    case Many(id, edits) => edits != [] && Joint(schema, doc, id, edits).Some?
  }

  /** The document an action leaves. */
  ghost function Acted(schema: Schema, doc: Doc, action: Action): Doc
    requires Possible(schema, doc, action)
  {
    match action
    case One(request) => Perform(schema, doc, request).value
    case Tree(order) => EraseAll(schema, doc, SetOf(order))
    case Many(id, edits) => Joint(schema, doc, id, edits).value
  }

  /** What an action records. */
  ghost function RecordsOf(schema: Schema, doc: Doc, action: Action): seq<Change>
    requires Possible(schema, doc, action)
  {
    match action
    case One(request) =>
      PerformedWasAllowed(schema, doc, request);
      [Recorded(schema, doc, request)]
    case Tree(order) =>
      CollectedThere(doc.items, order);
      CascadeChanges(doc.items, order)
    case Many(id, edits) => Records(id, doc.items[id], edits)
  }

  lemma CollectedThere(items: Items, order: seq<ItemId>)
    requires order != [] && Collected(items, order[0], order)
    ensures forall x :: x in order ==> x in items
  {
    forall x | x in order
      ensures x in items
    {
      assert x in SetOf(order);
    }
  }

  const Empty: Doc := Doc(map[], map[])

  /** The documents from the empty one on, each made from the one before by one action. */
  ghost predicate Reached(schema: Schema, docs: seq<Doc>, actions: seq<Action>) {
    && |docs| == |actions| + 1 && docs[0] == Empty
    && forall i :: 0 <= i < |actions| ==> Possible(schema, docs[i], actions[i]) && docs[i + 1] == Acted(schema, docs[i], actions[i])
  }

  /** Several columns at once can be replayed exactly when the way to the new owner is clear. */
  ghost predicate Replayable(schema: Schema, doc: Doc, action: Action) {
    action.Many? ==> action.id in doc.items && doc.items[action.id].container in schema && ClearOnTheWay(schema, doc, action.id, action.edits)
  }

  /** One action keeps the document well formed, and what it records leads there and back
      exactly when it can be replayed. */
  lemma ActedLeads(schema: Schema, doc: Doc, action: Action)
    requires WellFormed(schema, doc) && Possible(schema, doc, action)
    ensures WellFormed(schema, Acted(schema, doc, action))
    ensures Replayable(schema, doc, action) <==> Leads(schema, doc, Acted(schema, doc, action), RecordsOf(schema, doc, action))
  {
    hide Leads, WellFormed, Perform, EraseAll, Collected, Walks, Below, UpdateItem, AsksRightly, Edited, ClearOnTheWay;
    match action
    case One(request) =>
      PerformKeepsWellFormed(schema, doc, request);
      NoSteps(schema, doc);
      WalkOn(schema, doc, doc, [], request);
      assert [] + [Recorded(schema, doc, request)] == [Recorded(schema, doc, request)];
      WalksLead(schema, doc, Acted(schema, doc, action), RecordsOf(schema, doc, action));
    case Many(id, edits) =>
      var was := doc.items[id];
      StoredAsksRightly(schema, doc, id);
      EditedAsksRightly(schema, was, edits);
      UpdateFacts(schema, doc, id, Edited(schema, was, edits).value);
      JointReplayedIff(schema, doc, id, edits);
    case Tree(order) =>
      CollectedThere(doc.items, order);
      CollectedIsBelow(doc.items, order);
      CascadeKeepsWellFormed(schema, doc, order[0]);
      CascadeLeads(schema, doc, order[0], order);
  }

  lemma CollectedIsBelow(items: Items, order: seq<ItemId>)
    requires order != [] && Collected(items, order[0], order)
    ensures SetOf(order) == Below(items, order[0])
  {
  }

  /** Every document ever reached is well formed, and the engine's own replay of each
      step's inverse takes it back to the one before. */
  lemma {:induction false} ReachedIsWellFormed(schema: Schema, docs: seq<Doc>, actions: seq<Action>, n: nat)
    requires Reached(schema, docs, actions) && n <= |actions|
    ensures WellFormed(schema, docs[n])
    ensures n < |actions| ==> (Replayable(schema, docs[n], actions[n]) <==> Leads(schema, docs[n], docs[n + 1], RecordsOf(schema, docs[n], actions[n])))
  {
    hide Leads, WellFormed, Possible, Acted, RecordsOf, Replayable;
    if n == 0 {
      EmptyIsWellFormed(schema);
    } else {
      ReachedIsWellFormed(schema, docs, actions, n - 1);
      ActedLeads(schema, docs[n - 1], actions[n - 1]);
    }
    if n < |actions| {
      ActedLeads(schema, docs[n], actions[n]);
    }
  }

  lemma EmptyIsWellFormed(schema: Schema)
    ensures WellFormed(schema, Empty)
  {
  }

  /** What that means: chains of parents end, each list holds an item at a position exactly
      when the item is associated with that list and knows that position, and no two items
      of one scope share a unique value. */
  lemma ReachedMeans(schema: Schema, docs: seq<Doc>, actions: seq<Action>, n: nat)
    requires Reached(schema, docs, actions) && n <= |actions|
    ensures var items, groups := docs[n].items, docs[n].groups;
            && (forall id :: id in items && items[id].parent.Some? ==> items[id].parent.value in items)
            && (forall id :: id in items ==> ParentChain.Rooted(Parents(items), Some(id)))
            && (forall key, i: nat, id ::
                  id in items ==>
                  (GroupOf(schema, items[id]) == Some(key) && items[id].listIndex == Some(i)
                   <==> i < |At(groups, key)| && At(groups, key)[i] == id))
            && (forall key :: Distinct(At(groups, key)) && forall id :: id in At(groups, key) ==> id in items)
            && (forall a, b, column :: a in items && b in items && a != b ==> !Clash(schema, items[a], items[b], column))
            && (forall id :: id in items ==>
                  && items[id].container in schema && CellsFit(schema[items[id].container], items[id].values)
                  && OwnerFits(schema, items, items[id].container, items[id].parent)
                  && CellsFree(schema, items, id, items[id].container, items[id].parent, items[id].values))
  {
    hide CellsFit, CellsFree, ValuesFit;
    ReachedIsWellFormed(schema, docs, actions, n);
    var doc := docs[n];
    forall id | id in doc.items
      ensures doc.items[id].container in schema && CellsFit(schema[doc.items[id].container], doc.items[id].values)
      ensures OwnerFits(schema, doc.items, doc.items[id].container, doc.items[id].parent)
      ensures CellsFree(schema, doc.items, id, doc.items[id].container, doc.items[id].parent, doc.items[id].values)
    {
      StoredIsRight(schema, doc.items, id);
    }
    forall id | id in doc.items && doc.items[id].parent.Some?
      ensures doc.items[id].parent.value in doc.items
    {
      assert ParentFits(schema, doc.items, doc.items[id]);
    }
    forall key, i: nat, id | id in doc.items
      ensures GroupOf(schema, doc.items[id]) == Some(key) && doc.items[id].listIndex == Some(i)
              <==> i < |At(doc.groups, key)| && At(doc.groups, key)[i] == id
    {
      assert CacheOk(schema, doc, id);
      if i < |At(doc.groups, key)| {
        assert SlotOk(schema, doc, key, i);
      }
    }
    forall key
      ensures Distinct(At(doc.groups, key)) && forall id :: id in At(doc.groups, key) ==> id in doc.items
    {
      InOrderDistinct(schema, doc, {}, key);
      ListHoldsGroup(schema, doc, {}, key);
    }
  }
}
