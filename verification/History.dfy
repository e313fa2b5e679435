/** Change sets that lead from one document to another and back (`rollback`, `undo` and
    `redo`, src/engine.cpp:3160-3219, 4038-4060). */
module History {
  import opened Wrappers
  import opened Sequences
  import opened ListInserts
  import opened GroupPlanner
  import opened Documents
  import opened Changes
  import opened Undo
  import opened Batches
  import opened Replay
  import opened Cascade
  import opened SmoothReplay

  /** Step by step from `a` to `b` by the changes, and from `b` to `a` by their inverses. */
  ghost predicate Walks(schema: Schema, a: Doc, b: Doc, changes: seq<Change>) {
    && Faithful(schema, a, changes) && ApplyAll(schema, a, changes) == Some(b)
    && Faithful(schema, b, InverseAll(changes)) && ApplyAll(schema, b, InverseAll(changes)) == Some(a)
  }

  /** The engine's replay leads from `a` to `b`, and that of the inverse back. */
  ghost predicate Leads(schema: Schema, a: Doc, b: Doc, changes: seq<Change>) {
    && Smooth(schema, a, changes) && Replayed(schema, a, changes, []) == Some(b)
    && Smooth(schema, b, InverseAll(changes)) && Replayed(schema, b, InverseAll(changes), []) == Some(a)
  }

  /** `ChangeSet::invert` (src/change.cpp:199-211). */
  method Invert(changes: seq<Change>) returns (inverse: seq<Change>)
    ensures inverse == InverseAll(changes)
    ensures forall i :: 0 <= i < |inverse| && inverse[i].ItemInserted? ==> exists j :: 0 <= j < |changes| && Removes(changes[j]) && changes[j].id == inverse[i].id
  {
    inverse := [];
    var i: nat := |changes|;
    assert changes[i..] == [];
    while i > 0
      invariant i <= |changes| && inverse == InverseAll(changes[i..])
      invariant forall k :: 0 <= k < |inverse| && inverse[k].ItemInserted? ==>
                  exists j :: 0 <= j < |changes| && Removes(changes[j]) && changes[j].id == inverse[k].id
    {
      i := i - 1;
      assert changes[i..][1..] == changes[i + 1..];
      InverseAllAppends([changes[i]], changes[i + 1..]);
      assert changes[i..] == [changes[i]] + changes[i + 1..];
      assert InverseAll([changes[i]]) == [Inverse(changes[i])];
      inverse := inverse + [Inverse(changes[i])];
    }
    assert changes[0..] == changes;
  }

  lemma NoSteps(schema: Schema, a: Doc)
    requires WellFormed(schema, a)
    ensures Walks(schema, a, a, [])
  {
  }

  lemma {:induction false} InverseAllAppends(a: seq<Change>, b: seq<Change>)
    ensures InverseAll(a + b) == InverseAll(b) + InverseAll(a)
    decreases |a|
  {
    if a == [] {
      assert a + b == b;
    } else {
      assert (a + b)[0] == a[0] && (a + b)[1..] == a[1..] + b;
      InverseAllAppends(a[1..], b);
    }
  }

  /** One request further. */
  lemma WalkOn(schema: Schema, a: Doc, b: Doc, changes: seq<Change>, request: Request)
    requires Walks(schema, a, b, changes) && Perform(schema, b, request).Some?
    ensures Allowed(schema, b, request)
    ensures Walks(schema, a, Perform(schema, b, request).value, changes + [Recorded(schema, b, request)])
  {
    hide Apply, WellFormed, Perform, Recorded, Describes, Inverse, Allowed;
    PerformedWasAllowed(schema, b, request);
    var next, change := Perform(schema, b, request).value, Recorded(schema, b, request);
    WalksEnds(schema, a, b, changes);
    PerformAndUndo(schema, b, request);
    OneChange(schema, b, change, next);
    OneChange(schema, next, Inverse(change), b);
    ApplyAllAppends(schema, a, changes, [change]);
    FaithfulSplits(schema, a, changes, [change]);
    InverseAllAppends(changes, [change]);
    assert InverseAll([change]) == [Inverse(change)];
    ApplyAllAppends(schema, next, [Inverse(change)], InverseAll(changes));
    FaithfulSplits(schema, next, [Inverse(change)], InverseAll(changes));
  }

  /** One walk after another. */
  lemma WalksJoin(schema: Schema, a: Doc, b: Doc, c: Doc, first: seq<Change>, second: seq<Change>)
    requires Walks(schema, a, b, first) && Walks(schema, b, c, second)
    ensures Walks(schema, a, c, first + second)
  {
    hide Apply, WellFormed, Describes, Inverse;
    ApplyAllAppends(schema, a, first, second);
    FaithfulSplits(schema, a, first, second);
    InverseAllAppends(first, second);
    ApplyAllAppends(schema, c, InverseAll(second), InverseAll(first));
    FaithfulSplits(schema, c, InverseAll(second), InverseAll(first));
  }

  lemma PerformedWasAllowed(schema: Schema, doc: Doc, request: Request)
    requires Perform(schema, doc, request).Some?
    ensures Allowed(schema, doc, request)
  {
  }

  lemma WalksEnds(schema: Schema, a: Doc, b: Doc, changes: seq<Change>)
    requires Walks(schema, a, b, changes)
    ensures WellFormed(schema, a) && WellFormed(schema, b)
  {
    FaithfulEnds(schema, a, changes);
  }

  /** The engine's batches come to the same. */
  lemma WalksLead(schema: Schema, a: Doc, b: Doc, changes: seq<Change>)
    requires Walks(schema, a, b, changes)
    ensures Leads(schema, a, b, changes)
  {
    hide Faithful, Smooth, Arranges, InverseAll, ApplyAll;
    BatchOrderingArranges(schema);
    FaithfulIsSmooth(schema, a, changes);
    FaithfulIsSmooth(schema, b, InverseAll(changes));
    BatchesAreFaithful(schema, a, changes, BatchOrdering(schema));
    BatchesAreFaithful(schema, b, InverseAll(changes), BatchOrdering(schema));
  }

  lemma {:induction false} AllLeadingRemovals(changes: seq<Change>)
    requires forall i :: 0 <= i < |changes| ==> Removes(changes[i])
    ensures LeadingRemovals(changes) == |changes|
  {
    if changes != [] {
      AllLeadingRemovals(changes[1..]);
    }
  }

  /** A change set that is one run of removals. */
  lemma OneRunOfRemovals(schema: Schema, doc: Doc, changes: seq<Change>, next: Doc)
    requires changes != [] && InOrder(schema, doc, {}) && forall i :: 0 <= i < |changes| ==> Removes(changes[i])
    requires next == EraseAll(schema, doc, Removed(changes))
    requires |changes| == 1 ==> Apply(schema, doc, changes[0]) == Some(next)
    ensures Smooth(schema, doc, changes) && Replayed(schema, doc, changes, []) == Some(next)
  {
    hide EraseAll, InOrder, Apply, LeadingRemovals, BatchOrdering;
    AllLeadingRemovals(changes);
    assert changes[..|changes|] == changes && changes[|changes|..] == [];
    assert LeadingInserts(changes) == 0;
    assert ApplyChangeSet(schema, next, [], [], BatchOrdering(schema)) == Some(next);
  }

  /** One lone cascading removal leads there and back. */
  lemma CascadeLeads(schema: Schema, doc: Doc, root: ItemId, order: seq<ItemId>)
    requires WellFormed(schema, doc) && root in doc.items && Collected(doc.items, root, order)
    requires order != [] && forall x :: x in order ==> x in doc.items
    ensures Leads(schema, doc, EraseAll(schema, doc, SetOf(order)), CascadeChanges(doc.items, order))
  {
    hide Smooth, Replayed, EraseAll, WellFormed, Collected, InverseAll, Arranges;
    var changes := CascadeChanges(doc.items, order);
    BatchOrderingArranges(schema);
    CascadeUndoIsSmooth(schema, doc, root, order);
    UndoCascade(schema, doc, root, order, BatchOrdering(schema));
    ReplayedIs(schema, EraseAll(schema, doc, SetOf(order)), InverseAll(changes));
    CascadeRemoves(doc.items, order);
    WellFormedInOrder(schema, doc);
    if |order| == 1 {
      LoneItem(schema, doc, root, order);
      EraseOne(schema, doc, root);
      CollectedRoot(doc.items, root, order);
    }
    OneRunOfRemovals(schema, doc, changes, EraseAll(schema, doc, SetOf(order)));
  }

  lemma ReplayedIs(schema: Schema, doc: Doc, changes: seq<Change>)
    ensures Replayed(schema, doc, changes, []) == ApplyChangeSet(schema, doc, changes, [], BatchOrdering(schema))
  {
  }

  lemma CollectedRoot(items: Items, root: ItemId, order: seq<ItemId>)
    requires Collected(items, root, order)
    ensures order[0] == root
  {
  }

  lemma CascadeRemoves(items: Items, order: seq<ItemId>)
    requires order != [] && forall x :: x in order ==> x in items
    ensures var changes := CascadeChanges(items, order);
            (forall i :: 0 <= i < |changes| ==> Removes(changes[i])) && Removed(changes) == SetOf(order)
  {
    var changes := CascadeChanges(items, order);
    forall i | 0 <= i < |changes|
      ensures Removes(changes[i]) && IdOf(changes[i]) == order[i]
    {
    }
    forall x | x in order
      ensures x in Removed(changes)
    {
      var i :| 0 <= i < |order| && order[i] == x;
      assert IdOf(changes[i]) == x;
    }
  }
}
