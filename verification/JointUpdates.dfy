/** Updates of several columns in one request (src/engine.cpp:1086-1109, 3847-3947): checked
    together, but recorded, replayed and undone column by column. */
module JointUpdates {
  import opened Wrappers
  import opened Sequences
  import opened Values
  import opened ListInserts
  import opened GroupPlanner
  import opened Documents
  import opened DocumentLists
  import opened DocumentItems
  import opened Changes
  import opened Undo
  import opened Replay
  import opened SmoothReplay
  import opened History
  import P = ParentChain

  datatype Edit =
    | CellEdit(column: ColumnId, v: Value)
    /** Of the relation column. A position in a list cannot be asked for here. */
    | ParentEdit(parent: Option<ItemId>)

  predicate SameTarget(a: Edit, b: Edit) {
    (a.ParentEdit? && b.ParentEdit?) || (a.CellEdit? && b.CellEdit? && a.column == b.column)
  }

  /** No column is given twice. */
  predicate Apart(edits: seq<Edit>) {
    forall i, j :: 0 <= i < j < |edits| ==> !SameTarget(edits[i], edits[j])
  }

  /** One edit by itself. */
  function Single(id: ItemId, e: Edit): Request {
    match e
    case CellEdit(column, v) => SetValue(id, column, v)
    case ParentEdit(parent) => SetParent(id, parent, None)
  }

  function Singles(id: ItemId, edits: seq<Edit>): (r: seq<Request>)
    ensures |r| == |edits|
  {
    if edits == [] then [] else [Single(id, edits[0])] + Singles(id, edits[1..])
  }

  function EditOne(schema: Schema, item: Item, e: Edit): Option<Item> {
    match e
    case CellEdit(column, v) =>
      if item.container in schema && column in schema[item.container].columns
      then Some(item.(values := SetCell(item.values, column, v))) else None
    case ParentEdit(parent) => Rehung(schema, item, parent, None)
  }

  /** The item with all edits, or nothing when one is refused. */
  function Edited(schema: Schema, item: Item, edits: seq<Edit>): Option<Item>
    decreases |edits|
  {
    if edits == [] then Some(item)
    else match EditOne(schema, item, edits[0])
      case None => None
      case Some(x) => Edited(schema, x, edits[1..])
  }

  /** What an edit is recorded as, with the old side of the item as it was. */
  function RecordOf(id: ItemId, was: Item, e: Edit): Change {
    match e
    case CellEdit(column, v) => ColumnUpdated(id, column, ValueAt(was, column), v)
    case ParentEdit(parent) => ParentUpdated(id, was.parent, parent, None, was.listIndex)
  }

  function Records(id: ItemId, was: Item, edits: seq<Edit>): (r: seq<Change>)
    ensures |r| == |edits|
  {
    if edits == [] then [] else [RecordOf(id, was, edits[0])] + Records(id, was, edits[1..])
  }

  /** The joint update: nothing when it throws. */
  ghost function Joint(schema: Schema, doc: Doc, id: ItemId, edits: seq<Edit>): Option<Doc> {
    if edits == [] then Some(doc)
    else if id !in doc.items || !Apart(edits) then None
    else match Edited(schema, doc.items[id], edits)
      case None => None
      case Some(item) => UpdateItem(schema, doc, id, item)
  }

  // ----- One edit -----

  lemma EditAsksRightly(schema: Schema, item: Item, e: Edit)
    requires AsksRightly(schema, item) && EditOne(schema, item, e).Some?
    ensures var x := EditOne(schema, item, e).value; AsksRightly(schema, x) && x.container == item.container
  {
  }

  lemma {:induction false} EditedAsksRightly(schema: Schema, item: Item, edits: seq<Edit>)
    requires AsksRightly(schema, item) && Edited(schema, item, edits).Some?
    ensures var x := Edited(schema, item, edits).value; AsksRightly(schema, x) && x.container == item.container
    decreases |edits|
  {
    hide AsksRightly, EditOne;
    if edits != [] {
      EditAsksRightly(schema, item, edits[0]);
      EditedAsksRightly(schema, EditOne(schema, item, edits[0]).value, edits[1..]);
    }
  }

  /** An edit leaves what another one records. */
  lemma EditLeavesOthers(schema: Schema, id: ItemId, item: Item, e: Edit, other: Edit)
    requires EditOne(schema, item, e).Some? && !SameTarget(e, other)
    ensures RecordOf(id, EditOne(schema, item, e).value, other) == RecordOf(id, item, other)
  {
  }

  /** One edit as a request of its own, and as a change that is applied. */
  lemma SinglePerforms(schema: Schema, doc: Doc, id: ItemId, e: Edit)
    requires id in doc.items && EditOne(schema, doc.items[id], e).Some?
    ensures Allowed(schema, doc, Single(id, e)) && Recorded(schema, doc, Single(id, e)) == RecordOf(id, doc.items[id], e)
    ensures var item := EditOne(schema, doc.items[id], e).value;
            && Perform(schema, doc, Single(id, e)) == UpdateItem(schema, doc, id, item)
            && Apply(schema, doc, RecordOf(id, doc.items[id], e)) == UpdateItem(schema, doc, id, item)
  {
    hide UpdateItem;
  }

  // ----- The run of single edits -----

  /** The edits record of `item` what they record of `was`. */
  ghost predicate ReadsAlike(id: ItemId, was: Item, item: Item, edits: seq<Edit>) {
    forall e :: e in edits ==> RecordOf(id, was, e) == RecordOf(id, item, e)
  }

  /** `next` is `doc` with another item under `id`. */
  ghost predicate OnlyItem(doc: Doc, next: Doc, id: ItemId, item: Item) {
    && id in next.items && next.items[id] == item && Bare(next.items) == Bare(doc.items)[id := BareItem(item)]
    && forall key :: Survivors(At(next.groups, key), {id}) == Survivors(At(doc.groups, key), {id})
  }

  lemma UpdatedIsOnlyItem(schema: Schema, doc: Doc, id: ItemId, item: Item)
    requires WellFormed(schema, doc) && id in doc.items && AsksRightly(schema, item)
    requires item.container == doc.items[id].container && UpdateItem(schema, doc, id, item).Some?
    ensures WellFormed(schema, UpdateItem(schema, doc, id, item).value) && OnlyItem(doc, UpdateItem(schema, doc, id, item).value, id, item)
  {
    hide WellFormed, UpdateItem, AsksRightly, Survivors, Bare;
    UpdateFacts(schema, doc, id, item);
  }

  lemma OnlyItemThrough(doc: Doc, next: Doc, last: Doc, id: ItemId, a: Item, b: Item)
    requires OnlyItem(doc, next, id, a) && OnlyItem(next, last, id, b)
    ensures OnlyItem(doc, last, id, b)
  {
    hide Survivors, Bare, BareItem;
    assert Bare(doc.items)[id := BareItem(a)][id := BareItem(b)] == Bare(doc.items)[id := BareItem(b)];
  }

  lemma {:induction false} RunFacts(schema: Schema, doc: Doc, id: ItemId, edits: seq<Edit>, was: Item)
    requires WellFormed(schema, doc) && id in doc.items && Apart(edits) && ReadsAlike(id, was, doc.items[id], edits)
    requires Edited(schema, doc.items[id], edits).Some?
    ensures var run := PerformAll(schema, doc, Singles(id, edits));
            && (ApplyAll(schema, doc, Records(id, was, edits)).Some? <==> run.Some?)
            && (run.Some? ==>
                  && run.value.1 == Records(id, was, edits) && WellFormed(schema, run.value.0)
                  && OnlyItem(doc, run.value.0, id, Edited(schema, doc.items[id], edits).value))
    decreases |edits|
  {
    hide WellFormed, UpdateItem, Perform, Apply, Recorded, RecordOf, EditOne, AsksRightly, OnlyItem, SameTarget, Single, Allowed;
    if edits == [] {
      SameItself(schema, doc, id);
    } else {
      var e, item := edits[0], EditOne(schema, doc.items[id], edits[0]).value;
      assert e in edits;
      SinglePerforms(schema, doc, id, e);
      assert Records(id, was, edits)[1..] == Records(id, was, edits[1..]);
      assert Singles(id, edits)[1..] == Singles(id, edits[1..]);
      var next := UpdateItem(schema, doc, id, item);
      if next.Some? {
        StoredAsksRightly(schema, doc, id);
        EditAsksRightly(schema, doc.items[id], e);
        UpdatedIsOnlyItem(schema, doc, id, item);
        OnlyItemHas(doc, next.value, id, item);
        forall other | other in edits[1..]
          ensures RecordOf(id, was, other) == RecordOf(id, item, other)
        {
          var j :| 0 <= j < |edits[1..]| && edits[1..][j] == other;
          assert edits[j + 1] == other && !SameTarget(edits[0], edits[j + 1]);
          EditLeavesOthers(schema, id, doc.items[id], e, other);
        }
        RunFacts(schema, next.value, id, edits[1..], was);
        var run := PerformAll(schema, next.value, Singles(id, edits[1..]));
        if run.Some? {
          OnlyItemThrough(doc, next.value, run.value.0, id, item, Edited(schema, item, edits[1..]).value);
        }
      }
    }
  }

  lemma OnlyItemHas(doc: Doc, next: Doc, id: ItemId, item: Item)
    requires OnlyItem(doc, next, id, item)
    ensures id in next.items && next.items[id] == item
  {
  }

  lemma SameItself(schema: Schema, doc: Doc, id: ItemId)
    requires id in doc.items
    ensures OnlyItem(doc, doc, id, doc.items[id])
  {
    assert Bare(doc.items)[id := BareItem(doc.items[id])] == Bare(doc.items);
  }

  /** The document is determined by the one from before and by the item. */
  lemma OnlyOneDocument(schema: Schema, doc: Doc, a: Doc, b: Doc, id: ItemId, item: Item)
    requires WellFormed(schema, a) && WellFormed(schema, b) && OnlyItem(doc, a, id, item) && OnlyItem(doc, b, id, item)
    ensures a == b
  {
    hide Survivors, Sound, Bare, InOrder, GroupOf;
    forall key
      ensures At(a.groups, key) == At(b.groups, key)
    {
      ListByOne(schema, a, id, key);
      ListByOne(schema, b, id, key);
    }
    SameDocument(schema, a, b);
  }

  /** A list is its members without the item, and the item at its position. */
  lemma ListByOne(schema: Schema, doc: Doc, id: ItemId, key: GroupKey)
    requires WellFormed(schema, doc) && id in doc.items
    ensures var item, rest := doc.items[id], Survivors(At(doc.groups, key), {id});
            At(doc.groups, key) == if GroupOf(schema, item) == Some(key) && item.listIndex.Some? && item.listIndex.value <= |rest|
                                   then InsertAt(rest, item.listIndex.value, id) else rest
  {
    hide Survivors, Sound, Reindexed;
    var item, list := doc.items[id], At(doc.groups, key);
    InOrderDistinct(schema, doc, {}, key);
    assert CacheOk(schema, doc, id);
    if GroupOf(schema, item) == Some(key) {
      RemoveThenInsert(list, item.listIndex.value);
    } else {
      forall i | 0 <= i < |list|
        ensures list[i] != id
      {
        assert SlotOk(schema, doc, key, i);
      }
      SurvivorsOfNone(list, {id});
    }
  }

  // ----- Half-way items -----

  lemma {:induction false} EditedLast(schema: Schema, item: Item, edits: seq<Edit>, e: Edit)
    ensures Edited(schema, item, edits + [e]) ==
            match Edited(schema, item, edits) case None => None case Some(x) => EditOne(schema, x, e)
    decreases |edits|
  {
    hide EditOne;
    if edits == [] {
      assert edits + [e] == [e] && [e][1..] == [];
    } else {
      assert (edits + [e])[0] == edits[0] && (edits + [e])[1..] == edits[1..] + [e];
      if EditOne(schema, item, edits[0]).Some? {
        EditedLast(schema, EditOne(schema, item, edits[0]).value, edits[1..], e);
      }
    }
  }

  /** The item after the first `k` edits. */
  function HalfWay(schema: Schema, was: Item, edits: seq<Edit>, k: nat): Option<Item>
    requires k <= |edits|
  {
    Edited(schema, was, edits[..k])
  }

  /** What the item is like after the first `k` edits. */
  ghost predicate IsHalfWay(schema: Schema, was: Item, edits: seq<Edit>, k: nat, x: Item)
    requires k <= |edits|
  {
    && x.container == was.container
    && (forall i :: 0 <= i < k && edits[i].ParentEdit? ==> x.parent == edits[i].parent)
    && ((forall i :: 0 <= i < k ==> edits[i].CellEdit?) ==> x.parent == was.parent && x.listIndex == was.listIndex)
    && (forall i :: 0 <= i < k && edits[i].CellEdit? ==> ValueAt(x, edits[i].column) == edits[i].v)
    && (forall c :: (forall i :: 0 <= i < k && edits[i].CellEdit? ==> edits[i].column != c) ==> ValueAt(x, c) == ValueAt(was, c))
  }

  lemma {:induction false} HalfWayIs(schema: Schema, was: Item, edits: seq<Edit>, k: nat)
    requires Apart(edits) && Edited(schema, was, edits).Some? && k <= |edits|
    ensures HalfWay(schema, was, edits, k).Some? && IsHalfWay(schema, was, edits, k, HalfWay(schema, was, edits, k).value)
    ensures k > 0 ==>
              && HalfWay(schema, was, edits, k - 1).Some?
              && HalfWay(schema, was, edits, k) == EditOne(schema, HalfWay(schema, was, edits, k - 1).value, edits[k - 1])
  {
    hide EditOne, IsHalfWay;
    HalfWayGoes(schema, was, edits, k);
    if k == 0 {
      AtTheStart(schema, was, edits);
    } else {
      assert edits[..k] == edits[..k - 1] + [edits[k - 1]];
      EditedLast(schema, was, edits[..k - 1], edits[k - 1]);
      HalfWayIs(schema, was, edits, k - 1);
      OneEditOn(schema, was, edits, k - 1, HalfWay(schema, was, edits, k - 1).value);
    }
  }

  /** The first edits go through when all do. */
  lemma {:induction false} HalfWayGoes(schema: Schema, item: Item, edits: seq<Edit>, k: nat)
    requires Edited(schema, item, edits).Some? && k <= |edits|
    ensures HalfWay(schema, item, edits, k).Some?
    decreases |edits|
  {
    hide EditOne;
    if k > 0 {
      assert edits[..k][0] == edits[0] && edits[..k][1..] == edits[1..][..k - 1];
      HalfWayGoes(schema, EditOne(schema, item, edits[0]).value, edits[1..], k - 1);
    }
  }

  lemma AtTheStart(schema: Schema, was: Item, edits: seq<Edit>)
    ensures HalfWay(schema, was, edits, 0) == Some(was) && IsHalfWay(schema, was, edits, 0, was)
  {
    assert edits[..0] == [];
  }

  lemma OneEditOn(schema: Schema, was: Item, edits: seq<Edit>, k: nat, x: Item)
    requires Apart(edits) && k < |edits| && IsHalfWay(schema, was, edits, k, x) && EditOne(schema, x, edits[k]).Some?
    ensures IsHalfWay(schema, was, edits, k + 1, EditOne(schema, x, edits[k]).value)
  {
    var e, y := edits[k], EditOne(schema, x, edits[k]).value;
    forall i | 0 <= i < k + 1 && edits[i].CellEdit?
      ensures ValueAt(y, edits[i].column) == edits[i].v
    {
      assert i < k ==> !SameTarget(edits[i], edits[k]);
    }
    forall i | 0 <= i < k + 1 && edits[i].ParentEdit?
      ensures y.parent == edits[i].parent
    {
      assert i < k ==> !SameTarget(edits[i], edits[k]);
    }
    forall c | forall i :: 0 <= i < k + 1 && edits[i].CellEdit? ==> edits[i].column != c
      ensures ValueAt(y, c) == ValueAt(was, c)
    {
      assert ValueAt(x, c) == ValueAt(was, c);
      assert e.CellEdit? ==> e.column != c;
    }
  }

  /** What an edit records is what it meets. */
  lemma RecordsWhatItMeets(schema: Schema, id: ItemId, was: Item, edits: seq<Edit>, k: nat)
    requires Apart(edits) && Edited(schema, was, edits).Some? && k < |edits|
    ensures HalfWay(schema, was, edits, k).Some? && HalfWay(schema, was, edits, k).value.container == was.container
    ensures RecordOf(id, was, edits[k]) == RecordOf(id, HalfWay(schema, was, edits, k).value, edits[k])
  {
    HalfWayIs(schema, was, edits, k);
    var x := HalfWay(schema, was, edits, k).value;
    forall i | 0 <= i < k
      ensures !SameTarget(edits[i], edits[k])
    {
    }
    if edits[k].CellEdit? {
      assert ValueAt(x, edits[k].column) == ValueAt(was, edits[k].column);
    }
  }

  // ----- Items that would clash -----

  /** The item shares no unique value with another one of its scope. */
  ghost predicate Sits(schema: Schema, doc: Doc, id: ItemId, item: Item) {
    forall other, c :: other in doc.items && other != id ==> !Clash(schema, item, doc.items[other], c)
  }

  lemma OthersAlike(doc: Doc, cur: Doc, id: ItemId, item: Item, other: ItemId)
    requires OnlyItem(doc, cur, id, item) && other != id && id in doc.items
    ensures other in cur.items <==> other in doc.items
    ensures other in doc.items ==>
              && SameBare(cur.items[other], doc.items[other]) && cur.items[other].container == doc.items[other].container
              && cur.items[other].parent == doc.items[other].parent && cur.items[other].values == doc.items[other].values
  {
    assert Bare(cur.items).Keys == Bare(doc.items).Keys + {id};
    if other in doc.items {
      assert Bare(cur.items)[other] == Bare(doc.items)[other];
      SameBareFields(cur.items[other], doc.items[other]);
    }
  }

  lemma StoredSits(schema: Schema, doc: Doc, cur: Doc, id: ItemId, item: Item)
    requires WellFormed(schema, cur) && OnlyItem(doc, cur, id, item) && id in doc.items
    ensures Sits(schema, doc, id, item)
  {
    hide OnlyItem, Clash, Forest, Typed, InOrder;
    OnlyItemHas(doc, cur, id, item);
    forall other, c | other in doc.items && other != id
      ensures !Clash(schema, item, doc.items[other], c)
    {
      OthersAlike(doc, cur, id, item, other);
      assert !Clash(schema, cur.items[id], cur.items[other], c);
      ClashOfBare(schema, item, cur.items[other], doc.items[other], c);
    }
  }

  lemma ClashOfBare(schema: Schema, item: Item, a: Item, b: Item, c: ColumnId)
    requires a.container == b.container && a.parent == b.parent && a.values == b.values
    ensures Clash(schema, item, a, c) == Clash(schema, item, b, c)
  {
  }

  // ----- One edit forward -----

  lemma ParentsOff(doc: Doc, cur: Doc, id: ItemId, item: Item)
    requires OnlyItem(doc, cur, id, item) && id in doc.items
    ensures P.AgreeOff(Parents(doc.items), Parents(cur.items), id)
  {
    hide OnlyItem;
    OnlyItemHas(doc, cur, id, item);
    forall x | x != id
      ensures x in doc.items <==> x in cur.items
      ensures x in doc.items ==> doc.items[x].parent == cur.items[x].parent
    {
      OthersAlike(doc, cur, id, item, x);
    }
  }

  /** A chain that misses the item is the same whatever the item's parent. */
  lemma EndsAlike(a: P.Parents, b: P.Parents, id: ItemId, parent: Option<ItemId>)
    requires P.AgreeOff(a, b, id) && P.EndsWithout(a, id, parent, P.Top)
    ensures P.EndsWithout(b, id, parent, P.Top)
  {
    var n: nat :| P.Climb(a, parent, n) == P.Top && forall k: nat :: k < n ==> P.Climb(a, parent, k) != P.At(id);
    forall k: nat | k <= n
      ensures P.Climb(b, parent, k) == P.Climb(a, parent, k)
    {
      P.ClimbAgrees(a, b, parent, id, k);
    }
  }

  /** `z` is `x` with its owner, or one of its values, as `final` has it. */
  ghost predicate OneOnTheWay(schema: Schema, x: Item, final: Item, z: Item) {
    && x.container in schema && final.container == x.container && z.container == x.container
    && (z.parent == x.parent || z.parent == final.parent)
    && (z.values == x.values
        || exists column :: column in schema[x.container].columns && z.values == SetCell(x.values, column, ValueAt(final, column)))
  }

  /** An item on the way from `cur` to `d` is accepted when it clashes with no other. */
  lemma OnTheWayIsAccepted(schema: Schema, doc: Doc, cur: Doc, d: Doc, id: ItemId, x: Item, final: Item, z: Item)
    requires id in doc.items && WellFormed(schema, cur) && WellFormed(schema, d) && OnlyItem(doc, cur, id, x) && OnlyItem(doc, d, id, final)
    requires OneOnTheWay(schema, x, final, z) && Sits(schema, doc, id, z)
    ensures Accepts(schema, cur.items, id, z, Some(x))
  {
    hide OnlyItem, Clash, InOrder, Forest, Typed, Unique, ValuesFit, ParentFits, P.EndsWithout, Sits;
    OnlyItemHas(doc, cur, id, x);
    OnlyItemHas(doc, d, id, final);
    ItemFits(schema, cur.items, id);
    ItemFits(schema, d.items, id);
    EditedFits(schema, x, final, z);
    EditedHangs(schema, doc, cur, d, id, x, final, z);
    forall other, c | other in cur.items && other != id
      ensures !Clash(schema, z, cur.items[other], c)
    {
      OthersAlike(doc, cur, id, x, other);
      SitsOf(schema, doc, id, z, other, c);
      ClashOfBare(schema, z, cur.items[other], doc.items[other], c);
    }
  }

  lemma SitsOf(schema: Schema, doc: Doc, id: ItemId, item: Item, other: ItemId, c: ColumnId)
    requires Sits(schema, doc, id, item) && other in doc.items && other != id
    ensures !Clash(schema, item, doc.items[other], c)
  {
  }

  lemma EditedFits(schema: Schema, x: Item, final: Item, z: Item)
    requires OneOnTheWay(schema, x, final, z) && ValuesFit(schema[x.container], x) && ValuesFit(schema[x.container], final)
    ensures ValuesFit(schema[x.container], z)
  {
    hide ValuesFit;
    if z.values == x.values {
      SameValuesFit(schema[x.container], x, z);
    } else {
      var column :| column in schema[x.container].columns && z.values == SetCell(x.values, column, ValueAt(final, column));
      FitsOneMore(schema[x.container], x, final, column);
      SameValuesFit(schema[x.container], x.(values := z.values), z);
    }
  }

  lemma EditedHangs(schema: Schema, doc: Doc, cur: Doc, d: Doc, id: ItemId, x: Item, final: Item, z: Item)
    requires id in doc.items && WellFormed(schema, cur) && WellFormed(schema, d) && OnlyItem(doc, cur, id, x) && OnlyItem(doc, d, id, final)
    requires OneOnTheWay(schema, x, final, z)
    ensures ParentFits(schema, cur.items, z) && P.EndsWithout(Parents(cur.items), id, z.parent, P.Top)
  {
    hide OnlyItem, Clash, InOrder, Unique, ValuesFit, P.EndsWithout;
    OnlyItemHas(doc, cur, id, x);
    OnlyItemHas(doc, d, id, final);
    ItemFits(schema, cur.items, id);
    ItemFits(schema, d.items, id);
    if z.parent == x.parent {
      NeverBack(cur.items, id);
    } else {
      NeverBack(d.items, id);
      ParentsOff(doc, cur, id, x);
      ParentsOff(doc, d, id, final);
      EndsAlike(Parents(d.items), Parents(cur.items), id, final.parent);
      if final.parent.Some? && final.parent.value != id {
        OthersAlike(doc, cur, id, x, final.parent.value);
        OthersAlike(doc, d, id, final, final.parent.value);
      }
    }
  }

  /** An accepted edit goes through: it joins no list. */
  lemma AcceptedGoesThrough(schema: Schema, cur: Doc, id: ItemId, e: Edit)
    requires id in cur.items && AsksRightly(schema, cur.items[id]) && EditOne(schema, cur.items[id], e).Some?
    requires Accepts(schema, cur.items, id, EditOne(schema, cur.items[id], e).value, Some(cur.items[id]))
    ensures UpdateItem(schema, cur, id, EditOne(schema, cur.items[id], e).value).Some?
  {
    hide Accepts, RemoveFromGroup;
  }

  lemma ItemFits(schema: Schema, items: Items, id: ItemId)
    requires Typed(schema, items) && id in items
    ensures items[id].container in schema && ValuesFit(schema[items[id].container], items[id]) && ParentFits(schema, items, items[id])
  {
  }

  lemma NeverBack(items: Items, id: ItemId)
    requires Forest(items) && id in items
    ensures P.EndsWithout(Parents(items), id, items[id].parent, P.Top)
  {
    var parents := Parents(items);
    P.RootedOneUp(parents, id);
    var n: nat :| P.Climb(parents, parents[id], n) == P.Top;
    forall k: nat
      ensures P.Climb(parents, parents[id], k) != P.At(id)
    {
      P.RootedNeverReturns(parents, id, k);
    }
  }

  lemma FitsOneMore(container: Container, was: Item, final: Item, column: ColumnId)
    requires ValuesFit(container, was) && ValuesFit(container, final) && column in container.columns
    ensures ValuesFit(container, was.(values := SetCell(was.values, column, ValueAt(final, column))))
  {
    var item := was.(values := SetCell(was.values, column, ValueAt(final, column)));
    forall c | c in container.columns
      ensures Admits(container.columns[c], ValueAt(item, c))
    {
      assert ValueAt(item, c) == if c == column then ValueAt(final, c) else ValueAt(was, c);
    }
  }

  // ----- The run of edits, forward and backward -----

  /** Every half-way item after the `k`-th clashes with no other. */
  ghost predicate SitAfter(schema: Schema, doc: Doc, id: ItemId, edits: seq<Edit>, k: nat)
    requires id in doc.items && Apart(edits) && Edited(schema, doc.items[id], edits).Some?
  {
    forall j :: k < j <= |edits| ==> HalfWaySits(schema, doc, id, edits, j)
  }

  ghost predicate HalfWaySits(schema: Schema, doc: Doc, id: ItemId, edits: seq<Edit>, j: nat)
    requires id in doc.items && j <= |edits|
  {
    var x := HalfWay(schema, doc.items[id], edits, j);
    x.Some? && Sits(schema, doc, id, x.value)
  }

  lemma {:induction false} ForwardIff(schema: Schema, doc: Doc, cur: Doc, d: Doc, id: ItemId, edits: seq<Edit>, k: nat)
    requires WellFormed(schema, doc) && WellFormed(schema, cur) && WellFormed(schema, d) && id in doc.items
    requires Apart(edits) && Edited(schema, doc.items[id], edits).Some? && k <= |edits|
    requires OnlyItem(doc, d, id, Edited(schema, doc.items[id], edits).value)
    requires HalfWay(schema, doc.items[id], edits, k).Some? && OnlyItem(doc, cur, id, HalfWay(schema, doc.items[id], edits, k).value)
    ensures ApplyAll(schema, cur, Records(id, doc.items[id], edits[k..])).Some? <==> SitAfter(schema, doc, id, edits, k)
    decreases |edits| - k
  {
    hide WellFormed, UpdateItem, Apply, RecordOf, EditOne, AsksRightly, OnlyItem, SameTarget, HalfWay, Sits, IsHalfWay, Apart, Edited;
    var was := doc.items[id];
    if k == |edits| {
      assert edits[k..] == [];
    } else {
      var x := HalfWay(schema, was, edits, k).value;
      HalfWayIs(schema, was, edits, k + 1);
      var y := HalfWay(schema, was, edits, k + 1).value;
      assert edits[k..][0] == edits[k] && edits[k..][1..] == edits[k + 1..];
      assert Records(id, was, edits[k..])[1..] == Records(id, was, edits[k + 1..]);
      RecordsWhatItMeets(schema, id, was, edits, k);
      OnlyItemHas(doc, cur, id, x);
      SinglePerforms(schema, cur, id, edits[k]);
      StoredAsksRightly(schema, cur, id);
      EditAsksRightly(schema, x, edits[k]);
      var next := UpdateItem(schema, cur, id, y);
      if next.Some? {
        UpdatedIsOnlyItem(schema, cur, id, y);
        OnlyItemThrough(doc, cur, next.value, id, x, y);
        StoredSits(schema, doc, next.value, id, y);
        ForwardIff(schema, doc, next.value, d, id, edits, k + 1);
      } else if Sits(schema, doc, id, y) {
        EndsWith(schema, was, edits, k);
        EditIsOnTheWay(schema, x, Edited(schema, was, edits).value, edits[k]);
        OnTheWayIsAccepted(schema, doc, cur, d, id, x, Edited(schema, was, edits).value, y);
        AcceptedGoesThrough(schema, cur, id, edits[k]);
      } else {
        assert !HalfWaySits(schema, doc, id, edits, k + 1);
      }
    }
  }

  lemma EditIsOnTheWay(schema: Schema, x: Item, final: Item, e: Edit)
    requires final.container == x.container && EditOne(schema, x, e).Some?
    requires if e.CellEdit? then ValueAt(final, e.column) == e.v else final.parent == e.parent
    ensures OneOnTheWay(schema, x, final, EditOne(schema, x, e).value)
  {
  }

  /** What an edit says is how the item ends. */
  lemma EndsWith(schema: Schema, was: Item, edits: seq<Edit>, k: nat)
    requires Apart(edits) && Edited(schema, was, edits).Some? && k < |edits|
    ensures var final, x := Edited(schema, was, edits).value, HalfWay(schema, was, edits, k);
            && x.Some? && final.container == x.value.container
            && if edits[k].CellEdit? then ValueAt(final, edits[k].column) == edits[k].v else final.parent == edits[k].parent
  {
    hide EditOne, Edited;
    assert edits[..|edits|] == edits;
    HalfWayIs(schema, was, edits, |edits|);
    HalfWayIs(schema, was, edits, k);
  }

  /** Taking an edit back gives the item from before it. */
  lemma EditBack(schema: Schema, cur: Doc, id: ItemId, was: Item, x: Item, e: Edit)
    requires id in cur.items && AsksRightly(schema, x) && EditOne(schema, x, e) == Some(cur.items[id])
    requires RecordOf(id, was, e) == RecordOf(id, x, e) && was.container == x.container
    ensures Apply(schema, cur, Inverse(RecordOf(id, was, e))) == UpdateItem(schema, cur, id, x)
    ensures Refused(schema, cur, Inverse(RecordOf(id, was, e))) == RefusedItem(schema, cur, id, x)
    ensures OneOnTheWay(schema, cur.items[id], was, x)
  {
    hide UpdateItem, RefusedItem;
    if e.CellEdit? {
      SetCellBack(x, e.column, e.v);
      assert x.values == SetCell(cur.items[id].values, e.column, ValueAt(was, e.column));
    }
  }

  lemma {:induction false} BackwardSits(schema: Schema, doc: Doc, cur: Doc, id: ItemId, edits: seq<Edit>, k: nat)
    requires WellFormed(schema, doc) && WellFormed(schema, cur) && id in doc.items && k <= |edits|
    requires Apart(edits) && Edited(schema, doc.items[id], edits).Some?
    requires HalfWay(schema, doc.items[id], edits, k).Some? && OnlyItem(doc, cur, id, HalfWay(schema, doc.items[id], edits, k).value)
    requires ApplyAll(schema, cur, InverseAll(Records(id, doc.items[id], edits[..k]))).Some?
    ensures forall j :: 0 <= j < k ==> HalfWaySits(schema, doc, id, edits, j)
    decreases k
  {
    hide WellFormed, UpdateItem, Apply, Inverse, RecordOf, EditOne, AsksRightly, OnlyItem, SameTarget, HalfWay, Sits, IsHalfWay, Apart, Edited;
    if k > 0 {
      var was := doc.items[id];
      HalfWayIs(schema, was, edits, k);
      var x, y := HalfWay(schema, was, edits, k - 1).value, HalfWay(schema, was, edits, k).value;
      var e := edits[k - 1];
      OneRecordLess(id, was, edits, k);
      RecordsWhatItMeets(schema, id, was, edits, k - 1);
      StoredAsksRightly(schema, doc, id);
      HalfWayAsksRightly(schema, was, edits, k - 1);
      OnlyItemHas(doc, cur, id, y);
      EditBack(schema, cur, id, was, x, e);
      EditAsksRightly(schema, x, e);
      var next := UpdateItem(schema, cur, id, x).value;
      UpdatedIsOnlyItem(schema, cur, id, x);
      OnlyItemThrough(doc, cur, next, id, y, x);
      StoredSits(schema, doc, next, id, x);
      BackwardSits(schema, doc, next, id, edits, k - 1);
    }
  }

  lemma HalfWayAsksRightly(schema: Schema, was: Item, edits: seq<Edit>, k: nat)
    requires AsksRightly(schema, was) && k <= |edits| && HalfWay(schema, was, edits, k).Some?
    ensures AsksRightly(schema, HalfWay(schema, was, edits, k).value)
  {
    EditedAsksRightly(schema, was, edits[..k]);
  }

  lemma {:induction false} RecordsAppend(id: ItemId, was: Item, edits: seq<Edit>, e: Edit)
    ensures Records(id, was, edits + [e]) == Records(id, was, edits) + [RecordOf(id, was, e)]
    decreases |edits|
  {
    hide RecordOf;
    if edits == [] {
      assert edits + [e] == [e] && [e][1..] == [];
    } else {
      assert (edits + [e])[0] == edits[0] && (edits + [e])[1..] == edits[1..] + [e];
      RecordsAppend(id, was, edits[1..], e);
    }
  }

  lemma OneRecordLess(id: ItemId, was: Item, edits: seq<Edit>, k: nat)
    requires 0 < k <= |edits|
    ensures var back := InverseAll(Records(id, was, edits[..k]));
            && back != [] && back[0] == Inverse(RecordOf(id, was, edits[k - 1]))
            && back[1..] == InverseAll(Records(id, was, edits[..k - 1]))
  {
    hide RecordOf, Inverse, Records;
    var front, last := Records(id, was, edits[..k - 1]), RecordOf(id, was, edits[k - 1]);
    assert edits[..k] == edits[..k - 1] + [edits[k - 1]];
    RecordsAppend(id, was, edits[..k - 1], edits[k - 1]);
    InverseAllAppends(front, [last]);
    assert [last][1..] == [];
    assert InverseAll([last]) == [Inverse(last)];
  }

  /** An item that is accepted back goes through: its old position is still in range. */
  lemma BackGoesThrough(schema: Schema, doc: Doc, cur: Doc, id: ItemId, edits: seq<Edit>, k: nat)
    requires WellFormed(schema, doc) && WellFormed(schema, cur) && id in doc.items && 0 < k <= |edits|
    requires Apart(edits) && Edited(schema, doc.items[id], edits).Some?
    requires HalfWay(schema, doc.items[id], edits, k).Some? && OnlyItem(doc, cur, id, HalfWay(schema, doc.items[id], edits, k).value)
    ensures HalfWay(schema, doc.items[id], edits, k - 1).Some?
    ensures var x := HalfWay(schema, doc.items[id], edits, k - 1).value;
            Accepts(schema, cur.items, id, x, Some(cur.items[id])) ==> UpdateItem(schema, cur, id, x).Some?
  {
    hide WellFormed, Accepts, HalfWay, OnlyItem, InsertIntoGroup, RemoveFromGroup;
    var was, e := doc.items[id], edits[k - 1];
    HalfWayIs(schema, was, edits, k);
    HalfWayIs(schema, was, edits, k - 1);
    var x, y := HalfWay(schema, was, edits, k - 1).value, HalfWay(schema, was, edits, k).value;
    OnlyItemHas(doc, cur, id, y);
    if e.CellEdit? {
      assert !MembershipChanged(schema, y, x);
    } else {
      OnlyMove(edits, k - 1);
      assert x.parent == was.parent && x.listIndex == was.listIndex && (GroupOf(schema, x).Some? ==> GroupOf(schema, y) == None);
      BackIntoList(schema, doc, cur, id, x, y);
    }
  }

  lemma BackIntoList(schema: Schema, doc: Doc, cur: Doc, id: ItemId, x: Item, y: Item)
    requires WellFormed(schema, doc) && WellFormed(schema, cur) && id in doc.items && OnlyItem(doc, cur, id, y)
    requires GroupOf(schema, x) == GroupOf(schema, doc.items[id]) && x.listIndex == doc.items[id].listIndex
    requires GroupOf(schema, x).Some? ==> GroupOf(schema, y) == None
    ensures InsertIntoGroup(schema, RemoveFromGroup(schema, cur, id, y), id, x).Some?
  {
    hide WellFormed, Survivors, Bare, GroupOf, Reindexed;
    if GroupOf(schema, x).Some? {
      var key := GroupOf(schema, x).value;
      StoredPosition(schema, doc, id, key);
      ListByOne(schema, doc, id, key);
      ListByOne(schema, cur, id, key);
      assert id !in Survivors(At(doc.groups, key), {id});
    }
  }

  lemma StoredPosition(schema: Schema, doc: Doc, id: ItemId, key: GroupKey)
    requires WellFormed(schema, doc) && id in doc.items && GroupOf(schema, doc.items[id]) == Some(key)
    ensures doc.items[id].listIndex.Some? && id in At(doc.groups, key)
  {
    hide Sound;
    assert CacheOk(schema, doc, id);
  }

  /** Taking the edits back from the last stops in a well-formed document, at the first item
      half way that clashes with another. */
  lemma {:induction false} BackwardStops(schema: Schema, doc: Doc, cur: Doc, id: ItemId, edits: seq<Edit>, k: nat) returns (j: nat)
    requires WellFormed(schema, doc) && WellFormed(schema, cur) && id in doc.items && k <= |edits|
    requires Apart(edits) && Edited(schema, doc.items[id], edits).Some?
    requires HalfWay(schema, doc.items[id], edits, k).Some? && OnlyItem(doc, cur, id, HalfWay(schema, doc.items[id], edits, k).value)
    ensures j <= k && HalfWay(schema, doc.items[id], edits, j).Some?
    ensures var stop := Stopped(schema, cur, InverseAll(Records(id, doc.items[id], edits[..k])));
            WellFormed(schema, stop) && OnlyItem(doc, stop, id, HalfWay(schema, doc.items[id], edits, j).value)
    ensures j > 0 ==> !HalfWaySits(schema, doc, id, edits, j - 1)
    ensures forall i :: j <= i < k ==> HalfWaySits(schema, doc, id, edits, i)
    decreases k
  {
    hide WellFormed, UpdateItem, Accepts, Apply, Inverse, RecordOf, EditOne, AsksRightly, OnlyItem, SameTarget, HalfWay, Sits, IsHalfWay, Apart, Edited, OneOnTheWay, Refused;
    j := k;
    if k > 0 {
      var was := doc.items[id];
      HalfWayIs(schema, was, edits, k);
      var x, y := HalfWay(schema, was, edits, k - 1).value, HalfWay(schema, was, edits, k).value;
      var e := edits[k - 1];
      OneRecordLess(id, was, edits, k);
      RecordsWhatItMeets(schema, id, was, edits, k - 1);
      StoredAsksRightly(schema, doc, id);
      HalfWayAsksRightly(schema, was, edits, k - 1);
      OnlyItemHas(doc, cur, id, y);
      EditBack(schema, cur, id, was, x, e);
      EditAsksRightly(schema, x, e);
      var next := UpdateItem(schema, cur, id, x);
      if next.Some? {
        UpdatedIsOnlyItem(schema, cur, id, x);
        OnlyItemThrough(doc, cur, next.value, id, y, x);
        StoredSits(schema, doc, next.value, id, x);
        j := BackwardStops(schema, doc, next.value, id, edits, k - 1);
      } else {
        BackGoesThrough(schema, doc, cur, id, edits, k);
        SameItself(schema, doc, id);
        if Sits(schema, doc, id, x) {
          OnTheWayIsAccepted(schema, doc, cur, doc, id, y, was, x);
        }
      }
    }
  }

  // ----- The condition on the document -----

  /** No other item of the container under this owner has the value, if it is one that the
      column has only once. */
  ghost predicate Free(schema: Schema, doc: Doc, id: ItemId, owner: Option<ItemId>, column: ColumnId, v: Value)
    requires id in doc.items && doc.items[id].container in schema
  {
    var container := schema[doc.items[id].container];
    owner.Some? && column in container.columns && container.columns[column].unique && (v != Null || container.columns[column].countsNull) ==>
      forall other ::
        (other in doc.items && other != id && doc.items[other].container == doc.items[id].container && doc.items[other].parent == owner)
        ==> ValueAt(doc.items[other], column) != v
  }

  /** The new values given before the move are free under the old owner, and the old values
      that are replaced after it are free under the new one. */
  ghost predicate ClearOnTheWay(schema: Schema, doc: Doc, id: ItemId, edits: seq<Edit>)
    requires id in doc.items && doc.items[id].container in schema
  {
    forall p, i :: 0 <= p < |edits| && 0 <= i < |edits| && edits[p].ParentEdit? && edits[i].CellEdit? ==>
      if i < p then Free(schema, doc, id, doc.items[id].parent, edits[i].column, edits[i].v)
      else Free(schema, doc, id, edits[p].parent, edits[i].column, ValueAt(doc.items[id], edits[i].column))
  }

  /** An item under an owner in whose scope the value is taken clashes. */
  lemma SitsMeansFree(schema: Schema, doc: Doc, id: ItemId, x: Item, column: ColumnId)
    requires id in doc.items && doc.items[id].container in schema && x.container == doc.items[id].container && Sits(schema, doc, id, x)
    requires schema[x.container].target.Some?
    ensures Free(schema, doc, id, x.parent, column, ValueAt(x, column))
  {
    forall other | other in doc.items && other != id
      ensures !Clash(schema, x, doc.items[other], column)
    {
    }
  }

  /** And one that clashes is under an owner where its value is taken. */
  lemma FreeMeansNoClash(schema: Schema, doc: Doc, id: ItemId, x: Item, other: ItemId, column: ColumnId)
    requires id in doc.items && doc.items[id].container in schema && x.container == doc.items[id].container
    requires schema[x.container].target.Some? && other in doc.items && other != id
    requires Free(schema, doc, id, x.parent, column, ValueAt(x, column))
    ensures !Clash(schema, x, doc.items[other], column)
  {
  }

  /** Two items alike in a column and in their parent clash alike. */
  lemma ClashByColumn(schema: Schema, a: Item, b: Item, other: Item, column: ColumnId)
    requires a.container == b.container && a.parent == b.parent && ValueAt(a, column) == ValueAt(b, column)
    ensures Clash(schema, a, other, column) == Clash(schema, b, other, column)
  {
  }

  lemma MovedHasOwners(schema: Schema, was: Item, edits: seq<Edit>, p: nat)
    requires Apart(edits) && Edited(schema, was, edits).Some? && p < |edits| && edits[p].ParentEdit?
    ensures was.container in schema && schema[was.container].target.Some?
  {
    HalfWayIs(schema, was, edits, p);
    HalfWayIs(schema, was, edits, p + 1);
  }

  lemma SitMeansClear(schema: Schema, doc: Doc, id: ItemId, edits: seq<Edit>)
    requires id in doc.items && Apart(edits) && Edited(schema, doc.items[id], edits).Some? && doc.items[id].container in schema
    requires forall j :: 0 <= j <= |edits| ==> HalfWaySits(schema, doc, id, edits, j)
    ensures ClearOnTheWay(schema, doc, id, edits)
  {
    hide Edited, EditOne, Sits, Free, HalfWay;
    var was := doc.items[id];
    forall p, i | 0 <= p < |edits| && 0 <= i < |edits| && edits[p].ParentEdit? && edits[i].CellEdit?
      ensures if i < p then Free(schema, doc, id, was.parent, edits[i].column, edits[i].v)
              else Free(schema, doc, id, edits[p].parent, edits[i].column, ValueAt(was, edits[i].column))
    {
      MovedHasOwners(schema, was, edits, p);
      var k := if i < p then i + 1 else p + 1;
      HalfWayIs(schema, was, edits, k);
      var x := HalfWay(schema, was, edits, k).value;
      assert HalfWaySits(schema, doc, id, edits, k);
      SitsMeansFree(schema, doc, id, x, edits[i].column);
      if i < p {
        forall j | 0 <= j < k
          ensures edits[j].CellEdit?
        {
          assert !SameTarget(edits[j], edits[p]);
        }
      } else {
        forall j | 0 <= j < k && edits[j].CellEdit?
          ensures edits[j].column != edits[i].column
        {
          assert !SameTarget(edits[j], edits[i]);
        }
      }
    }
  }

  lemma ClearMeansSits(schema: Schema, doc: Doc, id: ItemId, edits: seq<Edit>, k: nat)
    requires id in doc.items && Apart(edits) && Edited(schema, doc.items[id], edits).Some? && doc.items[id].container in schema
    requires ClearOnTheWay(schema, doc, id, edits) && k <= |edits|
    requires Sits(schema, doc, id, doc.items[id]) && Sits(schema, doc, id, Edited(schema, doc.items[id], edits).value)
    ensures HalfWaySits(schema, doc, id, edits, k)
  {
    hide Edited, EditOne, Sits, Free, HalfWay, Clash, IsHalfWay, Apart;
    var was, final := doc.items[id], Edited(schema, doc.items[id], edits).value;
    HalfWayIs(schema, was, edits, k);
    var x := HalfWay(schema, was, edits, k).value;
    forall other, c | other in doc.items && other != id
      ensures !Clash(schema, x, doc.items[other], c)
    {
      SitsOf(schema, doc, id, was, other, c);
      SitsOf(schema, doc, id, final, other, c);
      NoClashHalfWay(schema, doc, id, edits, k, x, final, other, c);
    }
    AllSit(schema, doc, id, x);
  }

  lemma AllSit(schema: Schema, doc: Doc, id: ItemId, x: Item)
    requires forall other, c :: other in doc.items && other != id ==> !Clash(schema, x, doc.items[other], c)
    ensures Sits(schema, doc, id, x)
  {
  }

  lemma NoClashHalfWay(schema: Schema, doc: Doc, id: ItemId, edits: seq<Edit>, k: nat, x: Item, final: Item, other: ItemId, c: ColumnId)
    requires id in doc.items && Apart(edits) && Edited(schema, doc.items[id], edits) == Some(final) && doc.items[id].container in schema
    requires ClearOnTheWay(schema, doc, id, edits) && k <= |edits| && HalfWay(schema, doc.items[id], edits, k) == Some(x)
    requires other in doc.items && other != id
    requires !Clash(schema, doc.items[id], doc.items[other], c) && !Clash(schema, final, doc.items[other], c)
    ensures !Clash(schema, x, doc.items[other], c)
  {
    hide Edited, EditOne, Free, HalfWay, Clash;
    var was := doc.items[id];
    HalfWayIs(schema, was, edits, k);
    assert edits[..|edits|] == edits;
    HalfWayIs(schema, was, edits, |edits|) by {
      hide IsHalfWay;
    }
    assert HalfWay(schema, was, edits, |edits|) == Some(final) by {
      WholeWay(schema, was, edits);
    }
    if p: nat :| p < |edits| && edits[p].ParentEdit? {
      MovedHasOwners(schema, was, edits, p);
      OnlyMove(edits, p);
      if i: nat :| i < |edits| && edits[i].CellEdit? && edits[i].column == c {
        OnlyEdit(edits, i);
        if k <= p {
          if i < k {
            assert Free(schema, doc, id, was.parent, edits[i].column, edits[i].v);
            FreeMeansNoClash(schema, doc, id, x, other, c);
          } else {
            ClashByColumn(schema, x, was, doc.items[other], c);
          }
        } else if i < k {
          ClashByColumn(schema, x, final, doc.items[other], c);
        } else {
          assert Free(schema, doc, id, edits[p].parent, edits[i].column, ValueAt(was, edits[i].column));
          FreeMeansNoClash(schema, doc, id, x, other, c);
        }
      } else {
        ClashByColumn(schema, x, if k <= p then was else final, doc.items[other], c);
      }
    } else if i: nat :| i < k && edits[i].CellEdit? && edits[i].column == c {
      ClashByColumn(schema, x, final, doc.items[other], c);
    } else {
      ClashByColumn(schema, x, was, doc.items[other], c);
    }
  }

  lemma WholeWay(schema: Schema, was: Item, edits: seq<Edit>)
    ensures HalfWay(schema, was, edits, |edits|) == Edited(schema, was, edits)
  {
    assert edits[..|edits|] == edits;
  }

  lemma OnlyMove(edits: seq<Edit>, p: nat)
    requires Apart(edits) && p < |edits| && edits[p].ParentEdit?
    ensures forall i :: 0 <= i < |edits| && i != p ==> edits[i].CellEdit?
  {
    forall i | 0 <= i < |edits| && i != p
      ensures edits[i].CellEdit?
    {
      assert if i < p then !SameTarget(edits[i], edits[p]) else !SameTarget(edits[p], edits[i]);
    }
  }

  lemma OnlyEdit(edits: seq<Edit>, i: nat)
    requires Apart(edits) && i < |edits| && edits[i].CellEdit?
    ensures forall j :: 0 <= j < |edits| && j != i && edits[j].CellEdit? ==> edits[j].column != edits[i].column
  {
    forall j | 0 <= j < |edits| && j != i && edits[j].CellEdit?
      ensures edits[j].column != edits[i].column
    {
      assert if i < j then !SameTarget(edits[i], edits[j]) else !SameTarget(edits[j], edits[i]);
    }
  }

  // ----- When a joint update can be replayed and undone -----

  /** A joint update's change set can be replayed exactly when the way is clear, and it can be
      undone exactly then; both lead where they should. */
  lemma JointLeadsIff(schema: Schema, doc: Doc, id: ItemId, edits: seq<Edit>)
    requires WellFormed(schema, doc) && edits != [] && Joint(schema, doc, id, edits).Some?
    ensures id in doc.items && doc.items[id].container in schema
    ensures var d, changes := Joint(schema, doc, id, edits).value, Records(id, doc.items[id], edits);
            && (ApplyAll(schema, doc, changes).Some? <==> ClearOnTheWay(schema, doc, id, edits))
            && (ApplyAll(schema, d, InverseAll(changes)).Some? <==> ClearOnTheWay(schema, doc, id, edits))
            && (Walks(schema, doc, d, changes) <==> ClearOnTheWay(schema, doc, id, edits))
  {
    hide WellFormed, UpdateItem, Apply, AsksRightly, OnlyItem, Records, Singles, InverseAll, Faithful, ClearOnTheWay, Edited, Apart, HalfWay, Sits;
    var was, d := doc.items[id], Joint(schema, doc, id, edits).value;
    var item := Edited(schema, was, edits).value;
    var changes := Records(id, was, edits);
    StoredAsksRightly(schema, doc, id);
    EditedAsksRightly(schema, was, edits);
    UpdatedIsOnlyItem(schema, doc, id, item);
    SameItself(schema, doc, id);
    StoredSits(schema, doc, doc, id, was);
    StoredSits(schema, doc, d, id, item);
    StoredIn(schema, doc, id);
    AtTheStart(schema, was, edits);
    WholeWay(schema, was, edits);
    assert edits[0..] == edits && edits[..|edits|] == edits;
    ForwardIff(schema, doc, doc, d, id, edits, 0);
    if ApplyAll(schema, d, InverseAll(changes)).Some? {
      BackwardSits(schema, doc, d, id, edits, |edits|);
      SitMeansClear(schema, doc, id, edits);
    }
    if ApplyAll(schema, doc, changes).Some? {
      SitMeansClear(schema, doc, id, edits);
    }
    if ClearOnTheWay(schema, doc, id, edits) {
      forall j | 0 < j <= |edits|
        ensures HalfWaySits(schema, doc, id, edits, j)
      {
        ClearMeansSits(schema, doc, id, edits, j);
      }
      JointWalks(schema, doc, id, edits);
    }
  }

  lemma StoredIn(schema: Schema, doc: Doc, id: ItemId)
    requires WellFormed(schema, doc) && id in doc.items
    ensures doc.items[id].container in schema
  {
  }

  /** A change set that can be replayed leads there and back. */
  lemma JointWalks(schema: Schema, doc: Doc, id: ItemId, edits: seq<Edit>)
    requires WellFormed(schema, doc) && edits != [] && Joint(schema, doc, id, edits).Some?
    requires ApplyAll(schema, doc, Records(id, doc.items[id], edits)).Some?
    ensures Walks(schema, doc, Joint(schema, doc, id, edits).value, Records(id, doc.items[id], edits))
  {
    hide WellFormed, UpdateItem, Perform, Apply, Recorded, AsksRightly, OnlyItem, Records, Singles, Faithful, InverseAll;
    var was, d := doc.items[id], Joint(schema, doc, id, edits).value;
    var item := Edited(schema, was, edits).value;
    RunFacts(schema, doc, id, edits, was);
    var (last, changes) := PerformAll(schema, doc, Singles(id, edits)).value;
    StoredAsksRightly(schema, doc, id);
    EditedAsksRightly(schema, was, edits);
    UpdatedIsOnlyItem(schema, doc, id, item);
    OnlyOneDocument(schema, doc, last, d, id, item);
    UndoRun(schema, doc, Singles(id, edits));
  }

  /** The engine's own replay and undo of it fail exactly when the way is not clear. */
  lemma JointReplayedIff(schema: Schema, doc: Doc, id: ItemId, edits: seq<Edit>)
    requires WellFormed(schema, doc) && edits != [] && Joint(schema, doc, id, edits).Some?
    ensures id in doc.items && doc.items[id].container in schema
    ensures var d, changes := Joint(schema, doc, id, edits).value, Records(id, doc.items[id], edits);
            && (Replayed(schema, doc, changes, []).Some? <==> ClearOnTheWay(schema, doc, id, edits))
            && (Replayed(schema, d, InverseAll(changes), []).Some? <==> ClearOnTheWay(schema, doc, id, edits))
            && (Leads(schema, doc, d, changes) <==> ClearOnTheWay(schema, doc, id, edits))
  {
    hide WellFormed, UpdateItem, Walks, Smooth, Replayed, ClearOnTheWay, InverseAll, Records, Edited, ApplyAll;
    var d, changes := Joint(schema, doc, id, edits).value, Records(id, doc.items[id], edits);
    JointLeadsIff(schema, doc, id, edits);
    RecordsUpdate(id, doc.items[id], edits);
    InversesUpdate(changes);
    UpdatesReplay(schema, doc, changes);
    UpdatesReplay(schema, d, InverseAll(changes));
    if ClearOnTheWay(schema, doc, id, edits) {
      WalksLead(schema, doc, d, changes);
    }
  }

  /** What an undo that gets stuck leaves: a well-formed document, in which the last edits are
      taken back as far as the item half way clashes with no other one. */
  lemma StuckUndoLeaves(schema: Schema, doc: Doc, id: ItemId, edits: seq<Edit>) returns (j: nat)
    requires WellFormed(schema, doc) && edits != [] && Joint(schema, doc, id, edits).Some?
    requires id in doc.items && doc.items[id].container in schema && !ClearOnTheWay(schema, doc, id, edits)
    ensures var stop := Stopped(schema, Joint(schema, doc, id, edits).value, InverseAll(Records(id, doc.items[id], edits)));
            && 0 < j <= |edits| && HalfWay(schema, doc.items[id], edits, j).Some? && HalfWay(schema, doc.items[id], edits, j - 1).Some?
            && WellFormed(schema, stop) && OnlyItem(doc, stop, id, HalfWay(schema, doc.items[id], edits, j).value)
            && !Sits(schema, doc, id, HalfWay(schema, doc.items[id], edits, j - 1).value)
            && forall i :: j <= i < |edits| ==> HalfWaySits(schema, doc, id, edits, i)
  {
    hide WellFormed, UpdateItem, AsksRightly, OnlyItem, Records, InverseAll, ClearOnTheWay, Edited, Apart, HalfWay, Sits, Stopped, IsHalfWay, EditOne;
    var was, d := doc.items[id], Joint(schema, doc, id, edits).value;
    var item := Edited(schema, was, edits).value;
    StoredAsksRightly(schema, doc, id);
    EditedAsksRightly(schema, was, edits);
    UpdatedIsOnlyItem(schema, doc, id, item);
    StoredSits(schema, doc, d, id, item);
    WholeWay(schema, was, edits);
    assert edits[..|edits|] == edits;
    j := BackwardStops(schema, doc, d, id, edits, |edits|);
    if j == 0 {
      forall i | 0 <= i <= |edits|
        ensures HalfWaySits(schema, doc, id, edits, i)
      {
      }
      SitMeansClear(schema, doc, id, edits);
    } else {
      HalfWayIs(schema, was, edits, j);
    }
  }

  lemma {:induction false} RecordsUpdate(id: ItemId, was: Item, edits: seq<Edit>)
    ensures AllUpdates(Records(id, was, edits))
  {
    if edits != [] {
      RecordsUpdate(id, was, edits[1..]);
    }
  }

  lemma {:induction false} InversesUpdate(changes: seq<Change>)
    requires AllUpdates(changes)
    ensures AllUpdates(InverseAll(changes))
  {
    if changes != [] {
      assert changes[0] in changes;
      InversesUpdate(changes[1..]);
    }
  }

  /** So a joint update of plain columns can always be replayed and undone. */
  lemma PlainJointLeads(schema: Schema, doc: Doc, id: ItemId, edits: seq<Edit>)
    requires WellFormed(schema, doc) && edits != [] && Plain(edits) && Joint(schema, doc, id, edits).Some?
    ensures Leads(schema, doc, Joint(schema, doc, id, edits).value, Records(id, doc.items[id], edits))
  {
    hide WellFormed, Joint, Leads, Free;
    JointReplayedIff(schema, doc, id, edits);
    forall p | 0 <= p < |edits|
      ensures edits[p].CellEdit?
    {
      assert edits[p] in edits;
    }
  }

  predicate Plain(edits: seq<Edit>) {
    forall e :: e in edits ==> e.CellEdit?
  }

  // ----- A joint update that cannot be replayed -----

  const OWNERS: Container := Container(false, None, false, map[])
  const CODES: Container := Container(false, Some(0), false, map[5 := Column(2, false, true, false)])

  /** Items with codes that are unique below their owner. */
  const Coded: Schema := map[0 := OWNERS, 1 := CODES]

  const OWNER: Item := Item(0, None, map[], None)
  const FIRST: Item := Item(1, Some(10), map[5 := Int64(5)], None)
  const SECOND: Item := Item(1, Some(11), map[5 := Int64(5)], None)

  /** Two owners, each with one item, both of code 5. */
  const Twins: Doc := Doc(map[10 := OWNER, 11 := OWNER, 1 := FIRST, 2 := SECOND], map[])

  /** The first item moves to the other owner and takes another code. */
  const MOVE: seq<Edit> := [ParentEdit(Some(11)), CellEdit(5, Int64(6))]

  lemma TwinFacts()
    ensures var items := Twins.items; items[10] == OWNER && items[11] == OWNER && items[1] == FIRST && items[2] == SECOND
    ensures Coded[0] == OWNERS && Coded[1] == CODES
    ensures forall x :: x in Twins.items ==> P.Rooted(Parents(Twins.items), Some(x))
  {
    var parents := Parents(Twins.items);
    assert parents[10] == None && parents[11] == None && parents[1] == Some(10) && parents[2] == Some(11);
    assert P.Climb(parents, Some(10), 0) == P.At(10) && P.Climb(parents, Some(10), 1) == P.Top;
    assert P.Climb(parents, Some(11), 0) == P.At(11) && P.Climb(parents, Some(11), 1) == P.Top;
    P.RootedOneUp(parents, 1);
    P.RootedOneUp(parents, 2);
  }

  lemma TwinsAreWellFormed()
    ensures WellFormed(Coded, Twins)
  {
    hide Typed, Unique;
    TwinFacts();
    TwinsAreTyped();
    TwinsAreUnique();
  }

  lemma TwinsAreTyped()
    ensures Typed(Coded, Twins.items)
  {
    TwinFacts();
    assert ValuesFit(CODES, FIRST) && ValuesFit(CODES, SECOND) && ValuesFit(OWNERS, OWNER);
  }

  lemma TwinsAreUnique()
    ensures Unique(Coded, Twins.items)
  {
    TwinFacts();
    assert FIRST.parent != SECOND.parent;
  }

  /** Together the edits are accepted, but half way the code is taken: what is recorded can
      neither be replayed nor undone. */
  lemma JointMoveIsStuck()
    ensures WellFormed(Coded, Twins) && Joint(Coded, Twins, 1, MOVE).Some?
    ensures ApplyAll(Coded, Twins, Records(1, FIRST, MOVE)) == None
    ensures ApplyAll(Coded, Joint(Coded, Twins, 1, MOVE).value, InverseAll(Records(1, FIRST, MOVE))) == None
  {
    hide WellFormed, Accepts, UniqueFor, Clash;
    TwinFacts();
    TwinsAreWellFormed();
    var moved, recoded := FIRST.(parent := Some(11)), Item(1, Some(11), map[5 := Int64(6)], None);
    assert MOVE[1..] == [MOVE[1]] && [MOVE[1]][1..] == [];
    assert EditOne(Coded, FIRST, MOVE[0]) == Some(moved);
    assert SetCell(moved.values, 5, Int64(6)) == map[5 := Int64(6)];
    assert EditOne(Coded, moved, MOVE[1]) == Some(recoded);
    assert Edited(Coded, recoded, []) == Some(recoded);
    assert Edited(Coded, moved, [MOVE[1]]) == Some(recoded);
    assert Edited(Coded, FIRST, MOVE) == Some(recoded);
    TwinAccepted(recoded);
    JointLeadsIff(Coded, Twins, 1, MOVE);
    NotClear();
  }

  lemma NotClear()
    ensures 1 in Twins.items && Twins.items[1].container in Coded && !ClearOnTheWay(Coded, Twins, 1, MOVE)
  {
    TwinFacts();
    assert MOVE[0].ParentEdit? && MOVE[1] == CellEdit(5, Int64(6));
    assert Twins.items[2] == SECOND && ValueAt(SECOND, 5) == Int64(5) == ValueAt(FIRST, 5);
    assert !Free(Coded, Twins, 1, Some(11), 5, Int64(5));
  }

  lemma TwinAccepted(recoded: Item)
    requires recoded == Item(1, Some(11), map[5 := Int64(6)], None)
    ensures Accepts(Coded, Twins.items, 1, recoded, Some(FIRST))
  {
    TwinFacts();
    var parents := Parents(Twins.items);
    assert P.Climb(parents, Some(11), 0) == P.At(11) && P.Climb(parents, Some(11), 1) == P.Top;
    assert P.EndsWithout(parents, 1, Some(11), P.Top);
    assert ValuesFit(CODES, recoded);
  }
}
