/** The replays for which the engine's batches, which rewrite only the lists they touch,
    come to what renumbering every list comes to. */
module SmoothReplay {
  import opened Wrappers
  import opened ListInserts
  import opened GroupPlanner
  import opened Documents
  import opened DocumentLists
  import opened Changes
  import opened Undo
  import opened Batches
  import opened Replay
  import opened Cascade
  import opened BatchOrder

  /** The order in which the engine tries a batch. */
  ghost function BatchOrdering(schema: Schema): Arrangement {
    snapshots => OrderOf(schema, snapshots)
  }

  /** What the engine makes of a change set, with insertions that wait. */
  ghost function Replayed(schema: Schema, doc: Doc, changes: seq<Change>, pending: seq<Change>): Option<Doc> {
    ApplyChangeSet(schema, doc, changes, pending, BatchOrdering(schema))
  }

  /** A run of insertions as a batch. */
  ghost function RunBatch(schema: Schema, doc: Doc, run: seq<Change>): Option<Doc>
    requires forall i :: 0 <= i < |run| ==> run[i].ItemInserted?
  {
    if |run| > 1 then InsertBatch(schema, doc, Inserted(run), BatchOrdering(schema)(Inserted(run))) else None
  }

  lemma BatchOrderingArranges(schema: Schema)
    ensures Arranges(BatchOrdering(schema))
  {
  }

  ghost predicate AskRightly(schema: Schema, snapshots: seq<Snapshot>) {
    forall i :: 0 <= i < |snapshots| ==> AsksRightly(schema, snapshots[i].item)
  }

  /** Whenever a batch goes through, the lists are in order. */
  ghost predicate Smooth(schema: Schema, doc: Doc, changes: seq<Change>)
    decreases |changes|
  {
    var inserts, removals := LeadingInserts(changes), LeadingRemovals(changes);
    if changes == [] then true
    else if inserts > 0 then
      var snapshots := Inserted(changes[..inserts]);
      var batch := if inserts > 1 then InsertBatch(schema, doc, snapshots, BatchOrdering(schema)(snapshots)) else None;
      if batch.Some? then InOrder(schema, doc, {}) && AskRightly(schema, snapshots) && Smooth(schema, batch.value, changes[inserts..])
      else Smooth(schema, TryEach(schema, doc, changes[..inserts]).0, changes[inserts..])
    else if removals > 1 then
      InOrder(schema, doc, {}) && Smooth(schema, EraseAll(schema, doc, Removed(changes[..removals])), changes[removals..])
    else match Apply(schema, doc, changes[0])
      case Some(next) => Smooth(schema, next, changes[1..])
      case None => changes[0].ListInserted? ==> Smooth(schema, doc, changes[1..])
  }

  // ----- Change sets of updates -----

  predicate IsUpdate(c: Change) {
    c.ColumnUpdated? || c.ParentUpdated?
  }

  predicate AllUpdates(changes: seq<Change>) {
    forall c :: c in changes ==> IsUpdate(c)
  }

  /** What a refused update leaves: an item that validation lets through has left its list
      before the new position turns out to be out of range. */
  ghost function RefusedItem(schema: Schema, doc: Doc, id: ItemId, item: Item): Doc
    requires id in doc.items
  {
    if Accepts(schema, doc.items, id, item, Some(doc.items[id])) then RemoveFromGroup(schema, doc, id, doc.items[id]) else doc
  }

  ghost function Refused(schema: Schema, doc: Doc, change: Change): Doc {
    match change
    case ColumnUpdated(id, column, _, v) =>
      if id !in doc.items then doc
      else RefusedItem(schema, doc, id, doc.items[id].(values := SetCell(doc.items[id].values, column, v)))
    case ParentUpdated(id, _, parent, targetIndex, _) =>
      if id !in doc.items || Rehung(schema, doc.items[id], parent, targetIndex).None? then doc
      else RefusedItem(schema, doc, id, Rehung(schema, doc.items[id], parent, targetIndex).value)
    case _ => doc
  }

  /** Where a replay of updates stops: behind the last, or at the first that is refused. */
  ghost function Stopped(schema: Schema, doc: Doc, changes: seq<Change>): Doc
    decreases |changes|
  {
    if changes == [] then doc
    else match Apply(schema, doc, changes[0])
      case None => Refused(schema, doc, changes[0])
      case Some(next) => Stopped(schema, next, changes[1..])
  }

  /** Updates are replayed one after the other, and the first that fails ends the replay. */
  lemma {:induction false} UpdatesReplay(schema: Schema, doc: Doc, changes: seq<Change>)
    requires AllUpdates(changes)
    ensures Smooth(schema, doc, changes) && Replayed(schema, doc, changes, []) == ApplyAll(schema, doc, changes)
    ensures ApplyAll(schema, doc, changes).Some? ==> ApplyAll(schema, doc, changes) == Some(Stopped(schema, doc, changes))
    decreases |changes|
  {
    hide Apply, BatchOrdering, Refused;
    if changes != [] {
      UpdatesOneOn(schema, doc, changes);
      if Apply(schema, doc, changes[0]).Some? {
        UpdatesReplay(schema, Apply(schema, doc, changes[0]).value, changes[1..]);
      }
    }
  }

  lemma UpdatesOneOn(schema: Schema, doc: Doc, changes: seq<Change>)
    requires AllUpdates(changes) && changes != []
    ensures LeadingInserts(changes) == 0 && LeadingRemovals(changes) == 0 && AllUpdates(changes[1..]) && !changes[0].ListInserted?
    ensures Stopped(schema, doc, changes) ==
            match Apply(schema, doc, changes[0]) case None => Refused(schema, doc, changes[0]) case Some(next) => Stopped(schema, next, changes[1..])
  {
    hide Apply, Refused;
    assert changes[0] in changes && forall c :: c in changes[1..] ==> c in changes;
  }

  lemma StopsAtTheEnd(schema: Schema, doc: Doc)
    ensures Stopped(schema, doc, []) == doc
  {
  }

  lemma RefusedInsertion(schema: Schema, doc: Doc, change: Change)
    ensures change.ItemInserted? || change.ListInserted? ==> Refused(schema, doc, change) == doc
  {
  }

  lemma {:induction false} FaithfulAsksRightly(schema: Schema, doc: Doc, changes: seq<Change>)
    requires Faithful(schema, doc, changes) && forall i :: 0 <= i < |changes| ==> changes[i].ItemInserted?
    ensures AskRightly(schema, Inserted(changes))
    decreases |changes|
  {
    if changes != [] {
      hide Apply, WellFormed, AsksRightly;
      FaithfulAsksRightly(schema, Apply(schema, doc, changes[0]).value, changes[1..]);
      InsertedRest(changes);
      var all := Inserted(changes);
      forall i | 0 <= i < |all|
        ensures AsksRightly(schema, all[i].item)
      {
        if i > 0 {
          assert all[i] == all[1..][i - 1];
        }
      }
    }
  }

  /** Faithful change sets are replayed smoothly. */
  lemma {:induction false} FaithfulIsSmooth(schema: Schema, doc: Doc, changes: seq<Change>)
    requires Faithful(schema, doc, changes)
    ensures Smooth(schema, doc, changes)
    decreases |changes|
  {
    hide *;
    if changes != [] {
      BatchOrderingArranges(schema);
      var inserts, removals := LeadingInserts(changes), LeadingRemovals(changes);
      var n := if inserts > 1 then inserts else if removals > 1 then removals else 1;
      FaithfulInOrder(schema, doc, changes);
      var next, rest := SplitRun(schema, doc, changes, n);
      FaithfulIsSmooth(schema, next, rest);
      if inserts > 1 {
        BatchIsRun(schema, doc, changes[..n], BatchOrdering(schema));
        FaithfulAsksRightly(schema, doc, changes[..n]);
        SmoothInserts(schema, doc, changes, next);
      } else if removals > 1 {
        EraseIsRun(schema, doc, changes[..n]);
        SmoothRemovals(schema, doc, changes, next);
      } else {
        SmoothOne(schema, doc, changes, next);
      }
    } else {
      SmoothNothing(schema, doc);
    }
  }

  lemma SmoothNothing(schema: Schema, doc: Doc)
    ensures Smooth(schema, doc, [])
  {
  }

  lemma SmoothInserts(schema: Schema, doc: Doc, changes: seq<Change>, next: Doc)
    requires changes != [] && LeadingInserts(changes) > 1 && InOrder(schema, doc, {})
    requires var n := LeadingInserts(changes); var snapshots := Inserted(changes[..n]);
             && InsertBatch(schema, doc, snapshots, BatchOrdering(schema)(snapshots)) == Some(next)
             && AskRightly(schema, snapshots) && Smooth(schema, next, changes[n..])
    ensures Smooth(schema, doc, changes)
  {
    hide InsertBatch, LeadingInserts, BatchOrdering, InOrder, AskRightly;
  }

  lemma SmoothRemovals(schema: Schema, doc: Doc, changes: seq<Change>, next: Doc)
    requires changes != [] && LeadingInserts(changes) <= 1 && LeadingRemovals(changes) > 1 && InOrder(schema, doc, {})
    requires var n := LeadingRemovals(changes);
             next == EraseAll(schema, doc, Removed(changes[..n])) && Smooth(schema, next, changes[n..])
    ensures Smooth(schema, doc, changes)
  {
    hide EraseAll, InOrder, Smooth;
    assert LeadingInserts(changes) == 0;
    SmoothRemoval(schema, doc, changes);
  }

  lemma SmoothRemoval(schema: Schema, doc: Doc, changes: seq<Change>)
    requires changes != [] && LeadingInserts(changes) == 0 && LeadingRemovals(changes) > 1 && InOrder(schema, doc, {})
    requires var n := LeadingRemovals(changes); Smooth(schema, EraseAll(schema, doc, Removed(changes[..n])), changes[n..])
    ensures Smooth(schema, doc, changes)
  {
    hide EraseAll, InOrder, LeadingInserts, LeadingRemovals;
  }

  lemma SmoothOne(schema: Schema, doc: Doc, changes: seq<Change>, next: Doc)
    requires changes != [] && LeadingInserts(changes) <= 1 && LeadingRemovals(changes) <= 1
    requires Apply(schema, doc, changes[0]) == Some(next) && Smooth(schema, next, changes[1..])
    ensures Smooth(schema, doc, changes)
  {
    hide Apply, LeadingInserts, LeadingRemovals;
    if LeadingInserts(changes) == 1 {
      assert changes[..1] == [changes[0]];
      assert TryEach(schema, doc, [changes[0]]) == (next, []);
    }
  }

  lemma FaithfulInOrder(schema: Schema, doc: Doc, changes: seq<Change>)
    requires Faithful(schema, doc, changes)
    ensures InOrder(schema, doc, {})
  {
  }

  /** So is the undoing of a lone cascading removal. */
  lemma CascadeUndoIsSmooth(schema: Schema, doc: Doc, root: ItemId, order: seq<ItemId>)
    requires WellFormed(schema, doc) && root in doc.items && Collected(doc.items, root, order)
    requires forall x :: x in order ==> x in doc.items
    ensures Smooth(schema, EraseAll(schema, doc, Sequences.SetOf(order)), InverseAll(CascadeChanges(doc.items, order)))
  {
    hide *;
    CollectedSome(doc.items, root, order);
    var changes := InverseAll(CascadeChanges(doc.items, order));
    var d := EraseAll(schema, doc, Sequences.SetOf(order));
    CascadeInverse(doc.items, order);
    WellFormedInOrder(schema, doc);
    EraseAllKeepsOrder(schema, doc, Sequences.SetOf(order));
    forall i | 0 <= i < |changes|
      ensures AsksRightly(schema, changes[i].item)
    {
      StoredAsksRightly(schema, doc, order[|order| - 1 - i]);
    }
    OneBatchIsSmooth(schema, d, changes);
  }

  lemma OneBatchIsSmooth(schema: Schema, doc: Doc, changes: seq<Change>)
    requires InOrder(schema, doc, {}) && LeadingInserts(changes) == |changes|
    requires forall i :: 0 <= i < |changes| ==> AsksRightly(schema, changes[i].item)
    ensures Smooth(schema, doc, changes)
  {
    hide InsertBatch, LeadingInserts, OrderOf, InOrder, AsksRightly, TryEach;
    assert changes[..|changes|] == changes && changes[|changes|..] == [];
  }

  lemma WellFormedInOrder(schema: Schema, doc: Doc)
    requires WellFormed(schema, doc)
    ensures InOrder(schema, doc, {})
  {
  }

  lemma CollectedSome(items: Items, root: ItemId, order: seq<ItemId>)
    requires Collected(items, root, order)
    ensures order != []
  {
  }

  /** A pass that applies nothing leaves the document, and nothing of it can be applied. */
  lemma {:induction false} TryEachStuck(schema: Schema, doc: Doc, changes: seq<Change>)
    requires |TryEach(schema, doc, changes).1| == |changes|
    ensures TryEach(schema, doc, changes) == (doc, changes)
    ensures forall i :: 0 <= i < |changes| ==> Apply(schema, doc, changes[i]).None?
    decreases |changes|
  {
    if changes != [] {
      hide Apply;
      match Apply(schema, doc, changes[0])
      case Some(next) =>
      case None =>
        TryEachStuck(schema, doc, changes[1..]);
        assert changes == [changes[0]] + changes[1..];
    }
  }

  /** A round applies some of the changes one after the other, and keeps the others. */
  lemma {:induction false} TryEachMeans(schema: Schema, doc: Doc, changes: seq<Change>) returns (done: seq<Change>)
    ensures var (d, late) := TryEach(schema, doc, changes);
            multiset(done) + multiset(late) == multiset(changes) && ApplyAll(schema, doc, done) == Some(d)
    decreases |changes|
  {
    hide Apply;
    if changes == [] {
      done := [];
    } else {
      assert changes == [changes[0]] + changes[1..];
      match Apply(schema, doc, changes[0])
      case Some(next) =>
        var rest := TryEachMeans(schema, next, changes[1..]);
        done := [changes[0]] + rest;
        assert done[1..] == rest;
      case None =>
        done := TryEachMeans(schema, doc, changes[1..]);
    }
  }

  /** The late changes come to an end: all are applied, in some order, or some are left that
      none of can be applied any more. */
  lemma {:induction false} DrainMeans(schema: Schema, doc: Doc, pending: seq<Change>)
    returns (done: seq<Change>, rest: seq<Change>, d: Doc)
    ensures multiset(done) + multiset(rest) == multiset(pending) && ApplyAll(schema, doc, done) == Some(d)
    ensures match Drain(schema, doc, pending)
            case Some(end) => rest == [] && end == d
            case None => rest != [] && forall c :: c in rest ==> Apply(schema, d, c) == None
    decreases |pending|
  {
    hide Apply, ApplyAll, TryEach;
    if pending == [] {
      NothingToApply(schema, doc);
      done, rest, d := [], [], doc;
    } else {
      var (next, late) := TryEach(schema, doc, pending);
      if |late| == |pending| {
        TryEachStuck(schema, doc, pending);
        NothingToApply(schema, doc);
        done, rest, d := [], pending, doc;
      } else {
        var first := TryEachMeans(schema, doc, pending);
        var more;
        more, rest, d := DrainMeans(schema, next, late);
        done := first + more;
        ApplyAllAppends(schema, doc, first, more);
      }
    }
  }

  lemma NothingToApply(schema: Schema, doc: Doc)
    ensures ApplyAll(schema, doc, []) == Some(doc)
  {
  }
}
