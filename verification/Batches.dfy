/** Batched insertion (`insertItemSnapshots`, src/engine.cpp:1594-1646): planned lists, and
    items accepted in passes until their parents are there. */
module Batches {
  import opened Wrappers
  import opened Sequences
  import opened ListInserts
  import opened GroupPlanner
  import opened Documents
  import opened DocumentLists
  import opened DocumentItems
  import P = ParentChain

  /** An item snapshot on its way in. */
  datatype Snapshot = Snapshot(id: ItemId, item: Item)

  function RowOf(schema: Schema, s: Snapshot): Row {
    Row(GroupOf(schema, s.item), Insert(s.id, s.item.listIndex))
  }

  function RowsOf(schema: Schema, snapshots: seq<Snapshot>): seq<Row> {
    seq(|snapshots|, i requires 0 <= i < |snapshots| => RowOf(schema, snapshots[i]))
  }

  lemma {:induction false} InsertsForMember(schema: Schema, snapshots: seq<Snapshot>, key: GroupKey, x: Insert)
    ensures x in InsertsFor(RowsOf(schema, snapshots), key) <==>
            exists i :: 0 <= i < |snapshots| && RowOf(schema, snapshots[i]) == Row(Some(key), x)
    decreases |snapshots|
  {
    if snapshots != [] {
      hide GroupOf;
      var rows := RowsOf(schema, snapshots);
      RowsOfRest(schema, snapshots);
      InsertsForMember(schema, snapshots[1..], key, x);
      if i :| 0 <= i < |snapshots| && RowOf(schema, snapshots[i]) == Row(Some(key), x) && i > 0 {
        assert snapshots[1..][i - 1] == snapshots[i];
      }
      if i :| 0 <= i < |snapshots[1..]| && RowOf(schema, snapshots[1..][i]) == Row(Some(key), x) {
        assert snapshots[i + 1] == snapshots[1..][i];
      }
      assert InsertsFor(rows, key)
          == (if rows[0].key == Some(key) then [rows[0].insert] else []) + InsertsFor(rows[1..], key);
    }
  }

  lemma RowsOfRest(schema: Schema, snapshots: seq<Snapshot>)
    requires snapshots != []
    ensures var rows := RowsOf(schema, snapshots);
            rows != [] && rows[0] == RowOf(schema, snapshots[0]) && rows[1..] == RowsOf(schema, snapshots[1..])
  {
  }

  /** The inserts for a group have distinct ids. */
  lemma {:induction false} InsertsForDistinct(schema: Schema, snapshots: seq<Snapshot>, key: GroupKey)
    requires forall i, j :: 0 <= i < j < |snapshots| ==> snapshots[i].id != snapshots[j].id
    ensures var mine := InsertsFor(RowsOf(schema, snapshots), key);
            forall i, j :: 0 <= i < j < |mine| ==> mine[i].id != mine[j].id
    decreases |snapshots|
  {
    if snapshots != [] {
      hide GroupOf;
      var rows := RowsOf(schema, snapshots);
      RowsOfRest(schema, snapshots);
      InsertsForDistinct(schema, snapshots[1..], key);
      var rest := InsertsFor(rows[1..], key);
      forall i | 0 <= i < |rest|
        ensures rest[i].id != snapshots[0].id
      {
        InsertsForMember(schema, snapshots[1..], key, rest[i]);
        var j :| 0 <= j < |snapshots[1..]| && RowOf(schema, snapshots[1..][j]) == Row(Some(key), rest[i]);
        assert snapshots[j + 1] == snapshots[1..][j];
      }
    }
  }

  /** One pass over the waiting snapshots: each is stored if it is accepted now. */
  ghost function AcceptPass(schema: Schema, items: Items, waiting: seq<Snapshot>): (r: (Items, seq<Snapshot>))
    ensures |r.1| <= |waiting|
    decreases |waiting|
  {
    if waiting == [] then (items, [])
    else if Accepts(schema, items, waiting[0].id, waiting[0].item, None)
    then AcceptPass(schema, items[waiting[0].id := waiting[0].item], waiting[1..])
    else
      var (stored, rest) := AcceptPass(schema, items, waiting[1..]);
      (stored, [waiting[0]] + rest)
  }

  /** Passes until all are stored, or nothing when one stores none. */
  ghost function AcceptAll(schema: Schema, items: Items, waiting: seq<Snapshot>): Option<Items>
    decreases |waiting|
  {
    if waiting == [] then Some(items)
    else
      var (stored, rest) := AcceptPass(schema, items, waiting);
      if |rest| == |waiting| then None else AcceptAll(schema, stored, rest)
  }

  predicate FreshIds(items: Items, snapshots: seq<Snapshot>) {
    && (forall i :: 0 <= i < |snapshots| ==> snapshots[i].id !in items)
    && (forall i, j :: 0 <= i < j < |snapshots| ==> snapshots[i].id != snapshots[j].id)
  }

  /** The batch, with the order its items are tried in. Nothing when it is refused, and
      then the document is as before. */
  ghost function InsertBatch(schema: Schema, doc: Doc, snapshots: seq<Snapshot>, order: seq<Snapshot>): Option<Doc> {
    var (groups, stuck) := SettleRows(doc.groups, RowsOf(schema, snapshots));
    if !FreshIds(doc.items, snapshots) || stuck != [] then None
    else match AcceptAll(schema, doc.items, order)
      case None => None
      case Some(items) => Some(Doc(Listed(schema, items, groups), groups))
  }

  // ----- Parts of a sound document fill up to it -----

  /** `part` holds items of the sound `whole`, each with its parent, and `waiting` holds
      the rest. */
  ghost predicate Partition(schema: Schema, whole: Items, part: Items, waiting: seq<Snapshot>) {
    && Sound(schema, whole)
    && (forall x :: x in part ==> x in whole && SameBare(part[x], whole[x]) && (part[x].parent.Some? ==> part[x].parent.value in part))
    && (forall i :: 0 <= i < |waiting| ==>
          waiting[i].id in whole && waiting[i].id !in part && SameBare(waiting[i].item, whole[waiting[i].id]))
    && (forall i, j :: 0 <= i < j < |waiting| ==> waiting[i].id != waiting[j].id)
    && (forall x :: x in whole && x !in part ==> Waits(waiting, x))
  }

  ghost predicate Waits(waiting: seq<Snapshot>, id: ItemId) {
    exists i :: 0 <= i < |waiting| && waiting[i].id == id
  }

  /** The snapshot's parent is stored already. */
  predicate Ready(part: Items, s: Snapshot) {
    s.item.parent.Some? ==> s.item.parent.value in part
  }

  lemma ReadyIsAccepted(schema: Schema, whole: Items, part: Items, waiting: seq<Snapshot>, i: nat)
    requires Partition(schema, whole, part, waiting) && i < |waiting| && Ready(part, waiting[i])
    ensures Accepts(schema, part, waiting[i].id, waiting[i].item, None)
  {
    AcceptedBack(schema, whole, part, waiting[i].id, waiting[i].item, None);
  }

  /** What is accepted has its parent there. */
  lemma AcceptedIsReady(schema: Schema, items: Items, s: Snapshot)
    requires Accepts(schema, items, s.id, s.item, None)
    ensures Ready(items, s)
  {
  }

  lemma RestAt(waiting: seq<Snapshot>, i: nat)
    requires i < |waiting|
    ensures forall j :: 0 <= j < |waiting| - 1 ==> RemoveAt(waiting, i)[j] == waiting[if j < i then j else j + 1]
  {
  }

  lemma OthersWait(waiting: seq<Snapshot>, i: nat, x: ItemId)
    requires i < |waiting| && Waits(waiting, x) && x != waiting[i].id
    ensures Waits(RemoveAt(waiting, i), x)
  {
    RestAt(waiting, i);
    var j :| 0 <= j < |waiting| && waiting[j].id == x;
    assert RemoveAt(waiting, i)[if j < i then j else j - 1].id == x;
  }

  /** Storing the snapshot at `i` moves it from the waiting ones to the part. */
  lemma StoreNext(schema: Schema, whole: Items, part: Items, waiting: seq<Snapshot>, i: nat)
    requires Partition(schema, whole, part, waiting) && i < |waiting| && Ready(part, waiting[i])
    ensures Partition(schema, whole, part[waiting[i].id := waiting[i].item], RemoveAt(waiting, i))
  {
    hide Sound, SameBare, RemoveAt;
    var s := waiting[i];
    var after, rest := part[s.id := s.item], RemoveAt(waiting, i);
    RestAt(waiting, i);
    forall x | x in after
      ensures x in whole && SameBare(after[x], whole[x]) && (after[x].parent.Some? ==> after[x].parent.value in after)
    {
      if x != s.id {
        assert part[x] == after[x];
      }
    }
    forall j | 0 <= j < |rest|
      ensures rest[j].id in whole && rest[j].id !in after && SameBare(rest[j].item, whole[rest[j].id])
    {
      assert rest[j].id != s.id;
    }
    forall x | x in whole && x !in after
      ensures Waits(rest, x)
    {
      OthersWait(waiting, i, x);
    }
  }

  /** Among waiting snapshots one is always ready: one whose item stands lowest. */
  lemma SomeoneIsReady(schema: Schema, whole: Items, part: Items, waiting: seq<Snapshot>)
    requires Partition(schema, whole, part, waiting) && waiting != []
    ensures exists i :: 0 <= i < |waiting| && Ready(part, waiting[i])
  {
    var i := LowestReady(schema, whole, part, waiting, 0);
  }

  lemma {:induction false} LowestReady(schema: Schema, whole: Items, part: Items, waiting: seq<Snapshot>, from: nat) returns (i: nat)
    requires Partition(schema, whole, part, waiting) && from < |waiting|
    requires P.Rooted(Parents(whole), Some(waiting[from].id))
    ensures i < |waiting| && Ready(part, waiting[i])
    decreases P.Height(Parents(whole), waiting[from].id)
  {
    hide Sound, P.Height;
    if Ready(part, waiting[from]) {
      return from;
    }
    var id, parent := waiting[from].id, waiting[from].item.parent.value;
    SameBareFields(waiting[from].item, whole[id]);
    ParentStored(schema, whole, id, parent);
    assert Waits(waiting, parent);
    var j :| 0 <= j < |waiting| && waiting[j].id == parent;
    P.ParentLower(Parents(whole), id, parent);
    i := LowestReady(schema, whole, part, waiting, j);
  }

  lemma ParentStored(schema: Schema, items: Items, id: ItemId, parent: ItemId)
    requires Sound(schema, items) && id in items && items[id].parent == Some(parent)
    ensures parent in items
  {
    assert ParentFits(schema, items, items[id]);
  }

  /** A pass keeps the partition. `skipped` are the snapshots it has left waiting so far. */
  lemma {:induction false} AcceptPassFacts(schema: Schema, whole: Items, part: Items, skipped: seq<Snapshot>, waiting: seq<Snapshot>)
    requires Partition(schema, whole, part, skipped + waiting)
    ensures var (stored, rest) := AcceptPass(schema, part, waiting);
            Partition(schema, whole, stored, skipped + rest)
    ensures (exists i :: 0 <= i < |waiting| && Ready(part, waiting[i])) ==> |AcceptPass(schema, part, waiting).1| < |waiting|
    decreases |waiting|
  {
    hide Accepts, Partition;
    if waiting != [] {
      var all, s := skipped + waiting, waiting[0];
      assert all[|skipped|] == s;
      if Accepts(schema, part, s.id, s.item, None) {
        AcceptedIsReady(schema, part, s);
        StoreNext(schema, whole, part, all, |skipped|);
        assert RemoveAt(all, |skipped|) == skipped + waiting[1..];
        AcceptPassFacts(schema, whole, part[s.id := s.item], skipped, waiting[1..]);
      } else {
        if Ready(part, s) {
          ReadyIsAccepted(schema, whole, part, all, |skipped|);
        }
        assert skipped + [s] + waiting[1..] == all;
        AcceptPassFacts(schema, whole, part, skipped + [s], waiting[1..]);
        var rest := AcceptPass(schema, part, waiting[1..]).1;
        assert skipped + [s] + rest == skipped + ([s] + rest);
        if i :| 0 <= i < |waiting| && Ready(part, waiting[i]) {
          assert waiting[1..][i - 1] == waiting[i];
        }
      }
    }
  }

  /** In whatever order they are tried, the passes store all that waits. */
  lemma {:induction false} AcceptAllFills(schema: Schema, whole: Items, part: Items, waiting: seq<Snapshot>)
    requires Partition(schema, whole, part, waiting)
    ensures var all := AcceptAll(schema, part, waiting); all.Some? && Bare(all.value) == Bare(whole)
    decreases |waiting|
  {
    if waiting == [] {
      PartIsWhole(schema, whole, part);
    } else {
      hide Partition, AcceptPass;
      SomeoneIsReady(schema, whole, part, waiting);
      assert [] + waiting == waiting;
      AcceptPassFacts(schema, whole, part, [], waiting);
      var (stored, rest) := AcceptPass(schema, part, waiting);
      assert [] + rest == rest;
      AcceptAllFills(schema, whole, stored, rest);
    }
  }

  lemma PartIsWhole(schema: Schema, whole: Items, part: Items)
    requires Partition(schema, whole, part, [])
    ensures Bare(part) == Bare(whole)
  {
    hide Sound;
    forall x | x in whole
      ensures x in part && BareItem(part[x]) == BareItem(whole[x])
    {
      assert !Waits([], x);
    }
  }

  // ----- A batch that completes a document -----

  lemma {:induction false} SettledHasNoEmpties(groups: Groups, rows: seq<Row>)
    requires NoEmpties(groups)
    ensures NoEmpties(SettleRows(groups, rows).0)
    decreases |rows|
  {
    PassHasNoEmpties(groups, rows);
    var (g, rest) := PassRows(groups, rows);
    if |rest| < |rows| {
      SettledHasNoEmpties(g, rest);
    }
  }

  lemma {:induction false} PassHasNoEmpties(groups: Groups, rows: seq<Row>)
    requires NoEmpties(groups)
    ensures NoEmpties(PassRows(groups, rows).0)
    decreases |rows|
  {
    if rows != [] {
      if RowFits(groups, rows[0]) {
        PassHasNoEmpties(PlaceRow(groups, rows[0]), rows[1..]);
      } else {
        PassHasNoEmpties(groups, rows[1..]);
      }
    }
  }

  /** When the rows settle into the lists of a well-formed document, and the snapshots are
      its missing items, the batch gives just that document. */
  lemma BatchCompletes(schema: Schema, whole: Doc, doc: Doc, snapshots: seq<Snapshot>, order: seq<Snapshot>)
    requires WellFormed(schema, whole) && NoEmpties(doc.groups)
    requires Partition(schema, whole.items, doc.items, snapshots) && Partition(schema, whole.items, doc.items, order)
    requires SettleRows(doc.groups, RowsOf(schema, snapshots)).1 == []
    requires forall key :: At(SettleRows(doc.groups, RowsOf(schema, snapshots)).0, key) == At(whole.groups, key)
    ensures InsertBatch(schema, doc, snapshots, order) == Some(whole)
  {
    hide Sound, SettleRows, Accepts, RowsOf, Partition;
    var groups := SettleRows(doc.groups, RowsOf(schema, snapshots)).0;
    SettledHasNoEmpties(doc.groups, RowsOf(schema, snapshots));
    SameGroups(groups, whole.groups);
    AcceptAllFills(schema, whole.items, doc.items, order);
    var items := AcceptAll(schema, doc.items, order).value;
    PartitionIsFresh(schema, whole.items, doc.items, snapshots);
    ListedCompletes(schema, whole, items);
  }

  lemma PartitionIsFresh(schema: Schema, whole: Items, part: Items, waiting: seq<Snapshot>)
    requires Partition(schema, whole, part, waiting)
    ensures FreshIds(part, waiting)
  {
  }

  lemma ListedCompletes(schema: Schema, whole: Doc, items: Items)
    requires InOrder(schema, whole, {}) && Bare(items) == Bare(whole.items)
    ensures Listed(schema, items, whole.groups) == whole.items
  {
    BareSame(items, whole.items);
    forall key
      ensures Distinct(At(whole.groups, key))
      ensures forall x :: x in At(whole.groups, key) <==> x in items && GroupOf(schema, items[x]) == Some(key)
    {
      InOrderDistinct(schema, whole, {}, key);
      ListHoldsGroup(schema, whole, {}, key);
      forall x | x in items
        ensures GroupOf(schema, items[x]) == GroupOf(schema, whole.items[x])
      {
        SameBareFields(items[x], whole.items[x]);
      }
    }
    ListedInOrder(schema, items, whole.groups);
    OrderDetermines(schema, Doc(Listed(schema, items, whole.groups), whole.groups), whole);
  }
}
