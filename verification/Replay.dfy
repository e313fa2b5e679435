/** `applyChangeSet` with its batches (src/engine.cpp:1745-1813): on faithful change sets it
    does what replaying one change after the other does, and it undoes a cascading removal. */
module Replay {
  import opened Wrappers
  import opened Sequences
  import opened ListInserts
  import opened GroupPlanner
  import opened Documents
  import opened DocumentLists
  import opened DocumentItems
  import opened Changes
  import opened Undo
  import opened Batches

  /** The order a batch's items are tried in: any arrangement of them. */
  type Arrangement = seq<Snapshot> -> seq<Snapshot>

  ghost predicate Arranges(arrange: Arrangement) {
    forall s: seq<Snapshot> :: multiset(arrange(s)) == multiset(s)
  }

  predicate Removes(change: Change) {
    change.ItemRemoved? || change.CascadeRemoved? || change.ListRemoved?
  }

  /** How many changes at the front are plain insertions. */
  function LeadingInserts(changes: seq<Change>): (n: nat)
    ensures n <= |changes| && forall i :: 0 <= i < n ==> changes[i].ItemInserted?
  {
    if changes != [] && changes[0].ItemInserted? then 1 + LeadingInserts(changes[1..]) else 0
  }

  function LeadingRemovals(changes: seq<Change>): (n: nat)
    ensures n <= |changes| && forall i :: 0 <= i < n ==> Removes(changes[i])
  {
    if changes != [] && Removes(changes[0]) then 1 + LeadingRemovals(changes[1..]) else 0
  }

  function Inserted(changes: seq<Change>): (r: seq<Snapshot>)
    requires forall i :: 0 <= i < |changes| ==> changes[i].ItemInserted?
    ensures |r| == |changes|
  {
    seq(|changes|, i requires 0 <= i < |changes| => Snapshot(changes[i].id, changes[i].item))
  }

  function IdOf(change: Change): ItemId
    requires Removes(change)
  {
    change.id
  }

  function Removed(changes: seq<Change>): set<ItemId>
    requires forall i :: 0 <= i < |changes| ==> Removes(changes[i])
  {
    set i | 0 <= i < |changes| :: IdOf(changes[i])
  }

  /** Each change in turn, with those that fail kept for later. */
  ghost function TryEach(schema: Schema, doc: Doc, changes: seq<Change>): (r: (Doc, seq<Change>))
    ensures |r.1| <= |changes|
    decreases |changes|
  {
    if changes == [] then (doc, [])
    else match Apply(schema, doc, changes[0])
      case Some(next) => TryEach(schema, next, changes[1..])
      case None =>
        var (d, late) := TryEach(schema, doc, changes[1..]);
        (d, [changes[0]] + late)
  }

  /** The late insertions, in passes until none is left. Nothing when a pass stores none. */
  ghost function Drain(schema: Schema, doc: Doc, pending: seq<Change>): Option<Doc>
    decreases |pending|
  {
    if pending == [] then Some(doc)
    else
      var (d, late) := TryEach(schema, doc, pending);
      if |late| == |pending| then None else Drain(schema, d, late)
  }

  /** `applyChangeSet`: runs of insertions and of removals go in batches. */
  ghost function ApplyChangeSet(schema: Schema, doc: Doc, changes: seq<Change>, pending: seq<Change>, arrange: Arrangement): Option<Doc>
    decreases |changes|
  {
    var inserts, removals := LeadingInserts(changes), LeadingRemovals(changes);
    if changes == [] then Drain(schema, doc, pending)
    else if inserts > 0 then
      var snapshots := Inserted(changes[..inserts]);
      var batch := if inserts > 1 then InsertBatch(schema, doc, snapshots, arrange(snapshots)) else None;
      if batch.Some? then ApplyChangeSet(schema, batch.value, changes[inserts..], pending, arrange)
      else
        var (d, late) := TryEach(schema, doc, changes[..inserts]);
        ApplyChangeSet(schema, d, changes[inserts..], pending + late, arrange)
    else if removals > 1 then
      ApplyChangeSet(schema, EraseAll(schema, doc, Removed(changes[..removals])), changes[removals..], pending, arrange)
    else
      match Apply(schema, doc, changes[0])
      case Some(next) => ApplyChangeSet(schema, next, changes[1..], pending, arrange)
      case None =>
        if changes[0].ListInserted? then ApplyChangeSet(schema, doc, changes[1..], pending + [changes[0]], arrange) else None
  }

  // ----- A run of insertions -----

  /** Insertions that succeed one after the other settle their lists in one pass, and
      insert just what the last document has beyond the first. */
  lemma {:induction false} InsertionRun(schema: Schema, doc: Doc, changes: seq<Change>)
    requires Faithful(schema, doc, changes) && forall i :: 0 <= i < |changes| ==> changes[i].ItemInserted?
    ensures ApplyAll(schema, doc, changes).Some?
    ensures var last, snapshots := ApplyAll(schema, doc, changes).value, Inserted(changes);
            && PassRows(doc.groups, RowsOf(schema, snapshots)) == (last.groups, [])
            && Partition(schema, last.items, doc.items, snapshots)
    decreases |changes|
  {
    FaithfulEnds(schema, doc, changes);
    var snapshots := Inserted(changes);
    if changes == [] {
      WholeIsPart(schema, doc);
    } else {
      hide Partition, PassRows, RowsOf, InsertItem, Faithful, Describes, ApplyAll, WellFormed, AsksRightly, Inserted, Bare, Survivors;
      var id, item := changes[0].id, changes[0].item;
      FaithfulHead(schema, doc, changes);
      var next := InsertItem(schema, doc, id, item).value;
      InsertionRun(schema, next, changes[1..]);
      InsertedRest(changes);
      InsertItemFacts(schema, doc, id, item);
      FirstRow(schema, doc, next, snapshots);
      var last := ApplyAll(schema, doc, changes).value;
      FirstSnapshot(schema, last.items, doc, next, snapshots);
    }
  }

  lemma FaithfulHead(schema: Schema, doc: Doc, changes: seq<Change>)
    requires Faithful(schema, doc, changes) && changes != [] && changes[0].ItemInserted?
    ensures WellFormed(schema, doc) && changes[0].id !in doc.items && AsksRightly(schema, changes[0].item)
    ensures var next := InsertItem(schema, doc, changes[0].id, changes[0].item);
            && next.Some? && Faithful(schema, next.value, changes[1..])
            && ApplyAll(schema, doc, changes) == ApplyAll(schema, next.value, changes[1..])
            && next.value.items.Keys == doc.items.Keys + {changes[0].id}
  {
    hide Accepts, WellFormed;
  }

  lemma InsertedRest(changes: seq<Change>)
    requires changes != [] && forall i :: 0 <= i < |changes| ==> changes[i].ItemInserted?
    ensures Inserted(changes) != [] && Inserted(changes)[0] == Snapshot(changes[0].id, changes[0].item)
    ensures Inserted(changes[1..]) == Inserted(changes)[1..]
  {
  }

  lemma WholeIsPart(schema: Schema, doc: Doc)
    requires WellFormed(schema, doc)
    ensures Partition(schema, doc.items, doc.items, [])
    ensures PassRows(doc.groups, RowsOf(schema, [])) == (doc.groups, [])
  {
    forall x | x in doc.items
      ensures doc.items[x].parent.Some? ==> doc.items[x].parent.value in doc.items
    {
      assert ParentFits(schema, doc.items, doc.items[x]);
    }
  }

  lemma FirstRow(schema: Schema, doc: Doc, next: Doc, snapshots: seq<Snapshot>)
    requires snapshots != [] && InsertItem(schema, doc, snapshots[0].id, snapshots[0].item) == Some(next)
    ensures PassRows(doc.groups, RowsOf(schema, snapshots)) == PassRows(next.groups, RowsOf(schema, snapshots[1..]))
  {
    hide Accepts, Reindexed;
    var rows := RowsOf(schema, snapshots);
    assert rows[0] == RowOf(schema, snapshots[0]) && rows[1..] == RowsOf(schema, snapshots[1..]);
    assert RowFits(doc.groups, rows[0]) && PlaceRow(doc.groups, rows[0]) == next.groups;
  }

  lemma FirstSnapshot(schema: Schema, last: Items, doc: Doc, next: Doc, snapshots: seq<Snapshot>)
    requires snapshots != [] && WellFormed(schema, doc) && snapshots[0].id !in doc.items
    requires next.items.Keys == doc.items.Keys + {snapshots[0].id} && next.items[snapshots[0].id] == snapshots[0].item
    requires Bare(next.items) == Bare(doc.items)[snapshots[0].id := BareItem(snapshots[0].item)]
    requires Partition(schema, last, next.items, snapshots[1..])
    ensures Partition(schema, last, doc.items, snapshots)
  {
    hide Sound, WellFormed, Waits;
    var s := snapshots[0];
    forall x | x in doc.items
      ensures x in last && SameBare(doc.items[x], last[x]) && (doc.items[x].parent.Some? ==> doc.items[x].parent.value in doc.items)
    {
      assert Bare(next.items)[x] == Bare(doc.items)[x];
      StoredParent(schema, doc, x);
    }
    forall i | 0 <= i < |snapshots|
      ensures snapshots[i].id in last && snapshots[i].id !in doc.items && SameBare(snapshots[i].item, last[snapshots[i].id])
    {
      if i > 0 {
        assert snapshots[1..][i - 1] == snapshots[i];
      }
    }
    forall i, j | 0 <= i < j < |snapshots|
      ensures snapshots[i].id != snapshots[j].id
    {
      assert snapshots[1..][j - 1] == snapshots[j];
      if i > 0 {
        assert snapshots[1..][i - 1] == snapshots[i];
      }
    }
    forall x | x in last && x !in doc.items
      ensures Waits(snapshots, x)
    {
      OneMoreWaits(snapshots, x);
    }
  }

  lemma OneMoreWaits(snapshots: seq<Snapshot>, x: ItemId)
    requires snapshots != [] && (x == snapshots[0].id || Waits(snapshots[1..], x))
    ensures Waits(snapshots, x)
  {
    if x == snapshots[0].id {
      assert snapshots[0].id == x;
    } else {
      var i :| 0 <= i < |snapshots[1..]| && snapshots[1..][i].id == x;
      assert snapshots[i + 1].id == x;
    }
  }

  lemma StoredParent(schema: Schema, doc: Doc, x: ItemId)
    requires WellFormed(schema, doc) && x in doc.items
    ensures doc.items[x].parent.Some? ==> doc.items[x].parent.value in doc.items
  {
    assert ParentFits(schema, doc.items, doc.items[x]);
  }

  /** A different order of the waiting snapshots changes nothing about the partition. */
  lemma PartitionArranged(schema: Schema, whole: Items, part: Items, waiting: seq<Snapshot>, order: seq<Snapshot>)
    requires Partition(schema, whole, part, waiting) && multiset(order) == multiset(waiting)
    ensures Partition(schema, whole, part, order)
  {
    hide Sound, SameBare;
    ArrangedDistinct(order, waiting);
    forall i | 0 <= i < |order|
      ensures order[i].id in whole && order[i].id !in part && SameBare(order[i].item, whole[order[i].id])
    {
      assert order[i] in waiting;
    }
    forall i, j | 0 <= i < j < |order|
      ensures order[i].id != order[j].id
    {
      assert order[i] in waiting && order[j] in waiting;
    }
    forall x | x in whole && x !in part
      ensures Waits(order, x)
    {
      assert Waits(waiting, x);
      var i :| 0 <= i < |waiting| && waiting[i].id == x;
      assert waiting[i] in order;
    }
  }

  /** One pass that places everything is all the passes there are. */
  lemma SettledInOnePass(groups: Groups, rows: seq<Row>)
    requires PassRows(groups, rows).1 == []
    ensures SettleRows(groups, rows) == PassRows(groups, rows)
  {
  }

  /** A batch of insertions that would succeed one after the other gives the same document. */
  lemma BatchIsRun(schema: Schema, doc: Doc, changes: seq<Change>, arrange: Arrangement)
    requires Faithful(schema, doc, changes) && forall i :: 0 <= i < |changes| ==> changes[i].ItemInserted?
    requires Arranges(arrange)
    ensures InsertBatch(schema, doc, Inserted(changes), arrange(Inserted(changes))) == ApplyAll(schema, doc, changes)
  {
    var snapshots := Inserted(changes);
    InsertionRun(schema, doc, changes);
    FaithfulEnds(schema, doc, changes);
    var last := ApplyAll(schema, doc, changes).value;
    SettledInOnePass(doc.groups, RowsOf(schema, snapshots));
    PartitionArranged(schema, last.items, doc.items, snapshots, arrange(snapshots));
    BatchCompletes(schema, last, doc, snapshots, arrange(snapshots));
  }

  // ----- A run of removals -----

  lemma {:induction false} SurvivorsTwice(list: seq<ItemId>, a: set<ItemId>, b: set<ItemId>)
    ensures Survivors(Survivors(list, a), b) == Survivors(list, a + b)
  {
    if list != [] {
      SurvivorsTwice(list[1..], a, b);
      var rest := Survivors(list[1..], a);
      if list[0] in a {
        assert Survivors(list, a) == rest;
      } else {
        assert Survivors(list, a) == [list[0]] + rest;
        assert ([list[0]] + rest)[0] == list[0] && ([list[0]] + rest)[1..] == rest;
      }
    }
  }

  /** Removals one after the other leave the lists and items that removing all at once leaves. */
  lemma {:induction false} RemovalRun(schema: Schema, doc: Doc, changes: seq<Change>)
    requires Faithful(schema, doc, changes) && forall i :: 0 <= i < |changes| ==> Removes(changes[i])
    ensures ApplyAll(schema, doc, changes).Some?
    ensures var last, removed := ApplyAll(schema, doc, changes).value, Removed(changes);
            && Bare(last.items) == Bare(doc.items) - removed
            && forall key :: At(last.groups, key) == Survivors(At(doc.groups, key), removed)
    decreases |changes|
  {
    if changes == [] {
      NothingRemoved(doc);
    } else {
      hide Faithful, Describes, WellFormed, Survivors, EraseItem, Apply, ApplyAll, Bare, Removed;
      var id := IdOf(changes[0]);
      var next := RemovalHead(schema, doc, changes);
      RemovalRun(schema, next, changes[1..]);
      RemovedFirst(changes);
      var rest := Removed(changes[1..]);
      DropTwice(Bare(doc.items), {id}, rest);
      forall key
        ensures Survivors(Survivors(At(doc.groups, key), {id}), rest) == Survivors(At(doc.groups, key), {id} + rest)
      {
        SurvivorsTwice(At(doc.groups, key), {id}, rest);
      }
    }
  }

  lemma NothingRemoved(doc: Doc)
    ensures Bare(doc.items) - Removed([]) == Bare(doc.items)
    ensures forall key :: Survivors(At(doc.groups, key), Removed([])) == At(doc.groups, key)
  {
    forall key
      ensures Survivors(At(doc.groups, key), Removed([])) == At(doc.groups, key)
    {
      SurvivorsOfNone(At(doc.groups, key), Removed([]));
    }
  }

  lemma DropTwice(items: Items, a: set<ItemId>, b: set<ItemId>)
    ensures items - a - b == items - (a + b)
  {
  }

  lemma RemovalHead(schema: Schema, doc: Doc, changes: seq<Change>) returns (next: Doc)
    requires Faithful(schema, doc, changes) && changes != [] && Removes(changes[0])
    ensures Faithful(schema, next, changes[1..]) && ApplyAll(schema, doc, changes) == ApplyAll(schema, next, changes[1..])
    ensures Bare(next.items) == Bare(doc.items) - {IdOf(changes[0])}
    ensures forall key :: At(next.groups, key) == Survivors(At(doc.groups, key), {IdOf(changes[0])})
  {
    hide Survivors, RemoveFromGroup, Sound, InOrder;
    var id := IdOf(changes[0]);
    next := EraseItem(schema, doc, id, doc.items[id]);
    EraseKeepsOrder(schema, doc, id);
    RemoveKeepsOrder(schema, doc, id);
  }

  lemma RemovedFirst(changes: seq<Change>)
    requires changes != [] && forall i :: 0 <= i < |changes| ==> Removes(changes[i])
    ensures Removed(changes) == {IdOf(changes[0])} + Removed(changes[1..])
  {
    forall x | x in Removed(changes)
      ensures x in {IdOf(changes[0])} + Removed(changes[1..])
    {
      var i :| 0 <= i < |changes| && IdOf(changes[i]) == x;
      if i > 0 {
        assert changes[1..][i - 1] == changes[i];
      }
    }
    forall x | x in Removed(changes[1..])
      ensures x in Removed(changes)
    {
      var i :| 0 <= i < |changes[1..]| && IdOf(changes[1..][i]) == x;
      assert changes[i + 1] == changes[1..][i];
    }
  }

  lemma EraseIsRun(schema: Schema, doc: Doc, changes: seq<Change>)
    requires Faithful(schema, doc, changes) && forall i :: 0 <= i < |changes| ==> Removes(changes[i])
    ensures ApplyAll(schema, doc, changes) == Some(EraseAll(schema, doc, Removed(changes)))
  {
    RemovalRun(schema, doc, changes);
    FaithfulEnds(schema, doc, changes);
    EraseAllKeepsOrder(schema, doc, Removed(changes));
    SameDocument(schema, ApplyAll(schema, doc, changes).value, EraseAll(schema, doc, Removed(changes)));
  }

  // ----- Whole change sets -----

  /** On a faithful change set the batches do what one change after the other does. */
  lemma {:induction false} BatchesAreFaithful(schema: Schema, doc: Doc, changes: seq<Change>, arrange: Arrangement)
    requires Faithful(schema, doc, changes) && Arranges(arrange)
    ensures ApplyChangeSet(schema, doc, changes, [], arrange) == ApplyAll(schema, doc, changes)
    decreases |changes|
  {
    if changes != [] {
      hide Apply, EraseAll, InsertBatch, Arranges, Describes, Faithful, ApplyAll, LeadingInserts, LeadingRemovals, WellFormed;
      FaithfulEnds(schema, doc, changes);
      var inserts, removals := LeadingInserts(changes), LeadingRemovals(changes);
      var n := if inserts > 1 then inserts else if removals > 1 then removals else 1;
      var next, rest := SplitRun(schema, doc, changes, n);
      BatchesAreFaithful(schema, next, rest, arrange);
      if inserts > 1 {
        BatchIsRun(schema, doc, changes[..n], arrange);
      } else if removals > 1 {
        EraseIsRun(schema, doc, changes[..n]);
      } else if inserts == 1 {
        assert changes[..1] == [changes[0]];
        assert TryEach(schema, doc, [changes[0]]) == (next, []);
      }
    }
  }

  lemma SplitRun(schema: Schema, doc: Doc, changes: seq<Change>, n: nat) returns (next: Doc, rest: seq<Change>)
    requires Faithful(schema, doc, changes) && 0 < n <= |changes|
    ensures rest == changes[n..] && ApplyAll(schema, doc, changes[..n]) == Some(next)
    ensures Faithful(schema, doc, changes[..n]) && Faithful(schema, next, changes[n..])
    ensures ApplyAll(schema, doc, changes) == ApplyAll(schema, next, changes[n..])
    ensures n == 1 ==> Apply(schema, doc, changes[0]) == Some(next)
  {
    hide Apply, Describes, WellFormed;
    FaithfulPrefix(schema, doc, changes, n);
    assert changes[..n] + changes[n..] == changes;
    ApplyAllAppends(schema, doc, changes[..n], changes[n..]);
    FaithfulSplits(schema, doc, changes[..n], changes[n..]);
    next, rest := ApplyAll(schema, doc, changes[..n]).value, changes[n..];
    if n == 1 {
      assert changes[..1] == [changes[0]];
      assert changes[..1][1..] == [];
    }
  }

  lemma {:induction false} FaithfulPrefix(schema: Schema, doc: Doc, changes: seq<Change>, n: nat)
    requires Faithful(schema, doc, changes) && n <= |changes|
    ensures ApplyAll(schema, doc, changes[..n]).Some?
    decreases n
  {
    if n > 0 {
      FaithfulPrefix(schema, Apply(schema, doc, changes[0]).value, changes[1..], n - 1);
      assert changes[..n][1..] == changes[1..][..n - 1];
    }
  }

  /** Undo and redo: the inverse of whatever a run of requests recorded, applied with its
      batches, restores the document, and the change set itself repeats the run. */
  lemma UndoRestores(schema: Schema, doc: Doc, requests: seq<Request>, arrange: Arrangement)
    requires WellFormed(schema, doc) && PerformAll(schema, doc, requests).Some? && Arranges(arrange)
    ensures var (last, changes) := PerformAll(schema, doc, requests).value;
            && ApplyChangeSet(schema, last, InverseAll(changes), [], arrange) == Some(doc)
            && ApplyChangeSet(schema, doc, changes, [], arrange) == Some(last)
  {
    var (last, changes) := PerformAll(schema, doc, requests).value;
    UndoRun(schema, doc, requests);
    BatchesAreFaithful(schema, last, InverseAll(changes), arrange);
    BatchesAreFaithful(schema, doc, changes, arrange);
  }
}
