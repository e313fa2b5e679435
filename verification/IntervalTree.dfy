/** The interval treap as a value: what each operation on the nodes does to the tree
    (src/support/runtime_index.cpp:1076-1173). */
module IntervalTrees {
  import opened Values

  type ItemId = nat

  datatype Entry = Entry(start: Value, end: Value, id: ItemId)

  /** By start, then end, then id. */
  predicate Before(a: Entry, b: Entry) {
    || Less(a.start, b.start)
    || (a.start == b.start && Less(a.end, b.end))
    || (a.start == b.start && a.end == b.end && a.id < b.id)
  }

  lemma EntryOrder()
    ensures forall a :: !Before(a, a)
    ensures forall a, b :: Before(a, b) || Before(b, a) || a == b
    ensures forall a, b, c :: Before(a, b) && Before(b, c) ==> Before(a, c)
  {
    hide Less;
    ValueOrder();
  }

  datatype Tree =
    | Leaf
    | Node(entry: Entry, maxEnd: Value, priority: nat, left: Tree, right: Tree)

  function Entries(t: Tree): set<Entry> {
    match t
    case Leaf => {}
    case Node(e, _, _, l, r) => Entries(l) + {e} + Entries(r)
  }

  function Size(t: Tree): nat {
    match t
    case Leaf => 0
    case Node(_, _, _, l, r) => Size(l) + 1 + Size(r)
  }

  function Larger(v: Value, t: Tree): Value {
    if t.Node? && Less(v, t.maxEnd) then t.maxEnd else v
  }

  /** A node with its `subtreeMaxEnd` recomputed from its children (`updateIntervalNode`). */
  function Make(entry: Entry, priority: nat, left: Tree, right: Tree): Tree {
    Node(entry, Larger(Larger(entry.end, left), right), priority, left, right)
  }

  function Refresh(t: Tree): Tree {
    if t.Leaf? then Leaf else Make(t.entry, t.priority, t.left, t.right)
  }

  function RotateRight(t: Tree): (r: Tree)
    requires t.Node? && t.left.Node?
    ensures r.Node? && Size(r.right) < Size(t)
  {
    assert Size(t.left) > Size(t.left.right);
    Make(t.left.entry, t.left.priority, t.left.left, Make(t.entry, t.priority, t.left.right, t.right))
  }

  function RotateLeft(t: Tree): (r: Tree)
    requires t.Node? && t.right.Node?
    ensures r.Node? && Size(r.left) < Size(t)
  {
    assert Size(t.right) > Size(t.right.left);
    Make(t.right.entry, t.right.priority, Make(t.entry, t.priority, t.left, t.right.left), t.right.right)
  }

  function Insert(t: Tree, e: Entry, priority: nat): (r: Tree)
    ensures r.Node?
  {
    if t.Leaf? then Node(e, e.end, priority, Leaf, Leaf)
    else if Before(e, t.entry) then
      var t' := t.(left := Insert(t.left, e, priority));
      Refresh(if t'.left.priority < t.priority then RotateRight(t') else t')
    else if Before(t.entry, e) then
      var t' := t.(right := Insert(t.right, e, priority));
      Refresh(if t'.right.priority < t.priority then RotateLeft(t') else t')
    else t
  }

  /** Erasing rotates the entry down until it has at most one child. */
  function Erase(t: Tree, e: Entry): Tree
    decreases Size(t)
  {
    if t.Leaf? then Leaf
    else if Before(e, t.entry) then Refresh(t.(left := Erase(t.left, e)))
    else if Before(t.entry, e) then Refresh(t.(right := Erase(t.right, e)))
    else if t.left.Leaf? then Refresh(t.right)
    else if t.right.Leaf? then Refresh(t.left)
    else if t.left.priority < t.right.priority then
      var t' := RotateRight(t);
      Refresh(t'.(right := Erase(t'.right, e)))
    else
      var t' := RotateLeft(t);
      Refresh(t'.(left := Erase(t'.left, e)))
  }

  /** The pruned overlap query. */
  function Query(t: Tree, from: Value, to: Value, excluded: set<ItemId>): set<ItemId> {
    if t.Leaf? || !Less(from, t.maxEnd) then {}
    else
      Query(t.left, from, to, excluded)
      + if !Less(t.entry.start, to) then {}
        else (if Less(from, t.entry.end) && t.entry.id !in excluded then {t.entry.id} else {})
             + Query(t.right, from, to, excluded)
  }

  /** One level of a query. */
  lemma QueryUnfolds(t: Tree, from: Value, to: Value, excluded: set<ItemId>)
    ensures Query(t, from, to, excluded)
         == if t.Leaf? || !Less(from, t.maxEnd) then {}
            else if !Less(t.entry.start, to) then Query(t.left, from, to, excluded)
            else Query(t.left, from, to, excluded)
                 + (if Less(from, t.entry.end) && t.entry.id !in excluded then {t.entry.id} else {})
                 + Query(t.right, from, to, excluded)
  {
  }

  /** One level of erasing an entry with two children. */
  lemma EraseUnfolds(t: Tree, e: Entry)
    requires t.Node? && t.left.Node? && t.right.Node? && !Before(e, t.entry) && !Before(t.entry, e)
    ensures Erase(t, e)
         == if t.left.priority < t.right.priority
            then (var r := RotateRight(t); Refresh(r.(right := Erase(r.right, e))))
            else (var r := RotateLeft(t); Refresh(r.(left := Erase(r.left, e))))
  {
  }

  // ----- The three invariants -----

  predicate Ordered(t: Tree) {
    t.Node? ==>
      && Ordered(t.left) && Ordered(t.right)
      && (forall e :: e in Entries(t.left) ==> Before(e, t.entry))
      && (forall e :: e in Entries(t.right) ==> Before(t.entry, e))
  }

  predicate AtLeast(t: Tree, low: nat) {
    t.Node? ==> low <= t.priority
  }

  predicate Heap(t: Tree) {
    t.Node? ==> Heap(t.left) && Heap(t.right) && AtLeast(t.left, t.priority) && AtLeast(t.right, t.priority)
  }

  /** `maxEnd` is the greatest end in the subtree: it is reached, and nothing ends later. */
  ghost predicate IsMaxEnd(v: Value, entries: set<Entry>) {
    && (exists e :: e in entries && e.end == v)
    && (forall e :: e in entries ==> !Less(v, e.end))
  }

  ghost predicate Augmented(t: Tree) {
    t.Node? ==> Augmented(t.left) && Augmented(t.right) && IsMaxEnd(t.maxEnd, Entries(t))
  }

  ghost predicate Good(t: Tree) {
    Ordered(t) && Heap(t) && Augmented(t)
  }

  lemma MakeAugmented(entry: Entry, priority: nat, left: Tree, right: Tree)
    requires Augmented(left) && Augmented(right)
    ensures Augmented(Make(entry, priority, left, right))
  {
    hide Less, Compare;
    ValueOrder();
    var t := Make(entry, priority, left, right);
    assert entry in Entries(t);
    if t.maxEnd != entry.end {
      var child := if right.Node? && t.maxEnd == right.maxEnd then right else left;
      var e :| e in Entries(child) && e.end == child.maxEnd;
      assert e in Entries(t);
    }
    forall e | e in Entries(t)
      ensures !Less(t.maxEnd, e.end)
    {
      assert e == entry || e in Entries(left) || e in Entries(right);
    }
  }

  lemma RefreshSame(t: Tree)
    requires Augmented(t)
    ensures Refresh(t) == t
  {
    if t.Node? {
      hide Less, Compare;
      ValueOrder();
      MakeAugmented(t.entry, t.priority, t.left, t.right);
      var m := Make(t.entry, t.priority, t.left, t.right).maxEnd;
      var e1 :| e1 in Entries(t) && e1.end == m;
      var e2 :| e2 in Entries(t) && e2.end == t.maxEnd;
      assert !Less(m, t.maxEnd) && !Less(t.maxEnd, m);
    }
  }

  // ----- Insert -----

  lemma {:induction false} InsertEntries(t: Tree, e: Entry, priority: nat)
    ensures Entries(Insert(t, e, priority)) == Entries(t) + {e}
  {
    if t.Node? {
      hide Before;
      EntryOrder();
      if Before(e, t.entry) {
        InsertEntries(t.left, e, priority);
      } else if Before(t.entry, e) {
        InsertEntries(t.right, e, priority);
      }
    }
  }

  lemma {:induction false} InsertOrdered(t: Tree, e: Entry, priority: nat)
    requires Ordered(t)
    ensures Ordered(Insert(t, e, priority))
  {
    if t.Node? {
      hide Before;
      EntryOrder();
      if Before(e, t.entry) {
        InsertOrdered(t.left, e, priority);
        InsertEntries(t.left, e, priority);
        RotateRightOrdered(t.(left := Insert(t.left, e, priority)));
      } else if Before(t.entry, e) {
        InsertOrdered(t.right, e, priority);
        InsertEntries(t.right, e, priority);
        RotateLeftOrdered(t.(right := Insert(t.right, e, priority)));
      }
    }
  }

  lemma RotateRightOrdered(t: Tree)
    requires t.Node? && t.left.Node? && Ordered(t)
    ensures Ordered(RotateRight(t)) && Entries(RotateRight(t)) == Entries(t)
  {
    hide Before, Larger;
    EntryOrder();
    var x, y := t.left.entry, t.entry;
    var low := Make(y, t.priority, t.left.right, t.right);
    assert x in Entries(t.left) && Before(x, y);
    assert Ordered(low);
    forall e | e in Entries(low)
      ensures Before(x, e)
    {
      assert e in Entries(t.left.right) || e == y || e in Entries(t.right);
    }
  }

  lemma RotateLeftOrdered(t: Tree)
    requires t.Node? && t.right.Node? && Ordered(t)
    ensures Ordered(RotateLeft(t)) && Entries(RotateLeft(t)) == Entries(t)
  {
    hide Before, Larger;
    EntryOrder();
    var x, y := t.entry, t.right.entry;
    var low := Make(x, t.priority, t.left, t.right.left);
    assert y in Entries(t.right) && Before(x, y);
    assert Ordered(low);
    forall e | e in Entries(low)
      ensures Before(e, y)
    {
      assert e in Entries(t.left) || e == x || e in Entries(t.right.left);
    }
  }

  lemma {:induction false} InsertAugmented(t: Tree, e: Entry, priority: nat)
    requires Augmented(t)
    ensures Augmented(Insert(t, e, priority))
  {
    hide Before, Less, IsMaxEnd;
    MakeAugmented(e, priority, Leaf, Leaf);
    if t.Node? {
      if Before(e, t.entry) {
        InsertAugmented(t.left, e, priority);
        RotationAugmented(t.(left := Insert(t.left, e, priority)));
      } else if Before(t.entry, e) {
        InsertAugmented(t.right, e, priority);
        RotationAugmented(t.(right := Insert(t.right, e, priority)));
      }
    }
  }

  /** A rotation repairs the augmentation at both nodes, whatever the root's was. */
  lemma RotationAugmented(t: Tree)
    requires t.Node? && Augmented(t.left) && Augmented(t.right)
    ensures Augmented(Refresh(t))
    ensures t.left.Node? ==> Augmented(RotateRight(t)) && Refresh(RotateRight(t)) == RotateRight(t)
    ensures t.right.Node? ==> Augmented(RotateLeft(t)) && Refresh(RotateLeft(t)) == RotateLeft(t)
  {
    hide Less, IsMaxEnd;
    MakeAugmented(t.entry, t.priority, t.left, t.right);
    if t.left.Node? {
      MakeAugmented(t.entry, t.priority, t.left.right, t.right);
      MakeAugmented(t.left.entry, t.left.priority, t.left.left, Make(t.entry, t.priority, t.left.right, t.right));
    }
    if t.right.Node? {
      MakeAugmented(t.entry, t.priority, t.left, t.right.left);
      MakeAugmented(t.right.entry, t.right.priority, Make(t.entry, t.priority, t.left, t.right.left), t.right.right);
    }
  }

  /** The new node may stand above its old bound, and then its children do not. */
  predicate Risen(t: Tree, priority: nat, low: nat) {
    t.Node? && (low <= t.priority || (t.priority == priority && AtLeast(t.left, low) && AtLeast(t.right, low)))
  }

  lemma {:induction false} InsertHeap(t: Tree, e: Entry, priority: nat, low: nat)
    requires Heap(t) && AtLeast(t, low)
    ensures Heap(Insert(t, e, priority)) && Risen(Insert(t, e, priority), priority, low)
  {
    hide Before, Larger;
    if t.Node? {
      if Before(e, t.entry) {
        InsertHeap(t.left, e, priority, t.priority);
      } else if Before(t.entry, e) {
        InsertHeap(t.right, e, priority, t.priority);
      }
    }
  }

  /** Inserting keeps the treap a treap and adds just the one entry. */
  lemma InsertGood(t: Tree, e: Entry, priority: nat)
    requires Good(t)
    ensures Good(Insert(t, e, priority))
    ensures Entries(Insert(t, e, priority)) == Entries(t) + {e}
  {
    InsertEntries(t, e, priority);
    InsertOrdered(t, e, priority);
    InsertAugmented(t, e, priority);
    InsertHeap(t, e, priority, 0);
  }

  // ----- Erase -----

  lemma {:induction false} EraseEntries(t: Tree, e: Entry)
    requires Ordered(t)
    ensures Ordered(Erase(t, e)) && Entries(Erase(t, e)) == Entries(t) - {e}
    decreases Size(t)
  {
    hide Before, Larger;
    EntryOrder();
    if t.Leaf? {
    } else if Before(e, t.entry) {
      EraseEntries(t.left, e);
    } else if Before(t.entry, e) {
      EraseEntries(t.right, e);
    } else if t.left.Node? && t.right.Node? {
      if t.left.priority < t.right.priority {
        RotateRightOrdered(t);
        EraseEntries(RotateRight(t).right, e);
      } else {
        RotateLeftOrdered(t);
        EraseEntries(RotateLeft(t).left, e);
      }
    }
  }

  lemma {:induction false} EraseAugmented(t: Tree, e: Entry)
    requires Augmented(t)
    ensures Augmented(Erase(t, e))
    decreases Size(t)
  {
    hide Before, Less, IsMaxEnd;
    if t.Node? {
      RefreshSame(t.left);
      RefreshSame(t.right);
      if Before(e, t.entry) {
        EraseAugmented(t.left, e);
        RotationAugmented(t.(left := Erase(t.left, e)));
      } else if Before(t.entry, e) {
        EraseAugmented(t.right, e);
        RotationAugmented(t.(right := Erase(t.right, e)));
      } else if t.left.Node? && t.right.Node? {
        RotationAugmented(t);
        if t.left.priority < t.right.priority {
          var t' := RotateRight(t);
          EraseAugmented(t'.right, e);
          RotationAugmented(t'.(right := Erase(t'.right, e)));
        } else {
          var t' := RotateLeft(t);
          EraseAugmented(t'.left, e);
          RotationAugmented(t'.(left := Erase(t'.left, e)));
        }
      }
    }
  }

  /** While its entry is rotated down, the root may stand below its children's priorities. */
  predicate HeapBelow(t: Tree, low: nat) {
    t.Node? && Heap(t.left) && Heap(t.right) && AtLeast(t.left, low) && AtLeast(t.right, low)
  }

  lemma {:induction false} EraseRootHeap(t: Tree, low: nat)
    requires HeapBelow(t, low)
    ensures Heap(Erase(t, t.entry)) && AtLeast(Erase(t, t.entry), low)
    decreases Size(t)
  {
    hide Before, Larger;
    EntryOrder();
    if t.left.Node? && t.right.Node? {
      if t.left.priority < t.right.priority {
        EraseRootHeap(RotateRight(t).right, t.left.priority);
      } else {
        EraseRootHeap(RotateLeft(t).left, t.right.priority);
      }
    }
  }

  lemma {:induction false} EraseHeap(t: Tree, e: Entry, low: nat)
    requires Heap(t) && AtLeast(t, low)
    ensures Heap(Erase(t, e)) && AtLeast(Erase(t, e), low)
    decreases Size(t)
  {
    hide Before, Larger;
    EntryOrder();
    if t.Node? {
      if Before(e, t.entry) {
        EraseHeap(t.left, e, t.priority);
      } else if Before(t.entry, e) {
        EraseHeap(t.right, e, t.priority);
      } else {
        EraseRootHeap(t, low);
      }
    }
  }

  /** Erasing keeps the treap a treap and drops just the one entry. */
  lemma EraseGood(t: Tree, e: Entry)
    requires Good(t)
    ensures Good(Erase(t, e))
    ensures Entries(Erase(t, e)) == Entries(t) - {e}
  {
    EraseEntries(t, e);
    EraseAugmented(t, e);
    EraseHeap(t, e, 0);
  }

  // ----- Query -----

  /** The ids of the intervals that overlap the open probe, by looking at every entry. */
  function Overlapping(entries: set<Entry>, from: Value, to: Value, excluded: set<ItemId>): set<ItemId> {
    set e | e in entries && Less(e.start, to) && Less(from, e.end) && e.id !in excluded :: e.id
  }

  lemma OverlappingSplit(a: set<Entry>, e: Entry, b: set<Entry>, from: Value, to: Value, excluded: set<ItemId>)
    ensures Overlapping(a + {e} + b, from, to, excluded)
         == Overlapping(a, from, to, excluded) + Overlapping({e}, from, to, excluded) + Overlapping(b, from, to, excluded)
  {
    hide Less;
    forall id
      ensures id in Overlapping(a + {e} + b, from, to, excluded) <==>
              || id in Overlapping(a, from, to, excluded)
              || id in Overlapping({e}, from, to, excluded)
              || id in Overlapping(b, from, to, excluded)
    {
    }
  }

  lemma NothingOverlaps(a: set<Entry>, from: Value, to: Value, excluded: set<ItemId>)
    requires forall e :: e in a ==> !Less(e.start, to) || !Less(from, e.end)
    ensures Overlapping(a, from, to, excluded) == {}
  {
    hide Less;
  }

  lemma OverlapsAlone(e: Entry, from: Value, to: Value, excluded: set<ItemId>)
    ensures Overlapping({e}, from, to, excluded)
         == if Less(e.start, to) && Less(from, e.end) && e.id !in excluded then {e.id} else {}
  {
    hide Less;
  }

  /** A subtree whose greatest end is not after the probe's start has no overlap. */
  lemma EndsEarlier(t: Tree, from: Value, to: Value, excluded: set<ItemId>)
    requires t.Node? && Augmented(t) && !Less(from, t.maxEnd)
    ensures Overlapping(Entries(t), from, to, excluded) == {}
  {
    hide Less, Compare, Entries;
    ValueOrder();
    NothingOverlaps(Entries(t), from, to, excluded);
  }

  /** To the right of a start not before the probe's end there is no overlap. */
  lemma StartsLater(t: Tree, from: Value, to: Value, excluded: set<ItemId>)
    requires t.Node? && Ordered(t) && !Less(t.entry.start, to)
    ensures Overlapping(Entries(t.right), from, to, excluded) == {}
  {
    hide Less, Compare, Entries;
    ValueOrder();
    NothingOverlaps(Entries(t.right), from, to, excluded);
  }

  /** Pruning by `maxEnd` and by start loses nothing. */
  lemma {:induction false} QueryExact(t: Tree, from: Value, to: Value, excluded: set<ItemId>)
    requires Ordered(t) && Augmented(t)
    ensures Query(t, from, to, excluded) == Overlapping(Entries(t), from, to, excluded)
  {
    hide Less, Before, Overlapping, IsMaxEnd;
    if t.Leaf? {
      NothingOverlaps({}, from, to, excluded);
    } else if !Less(from, t.maxEnd) {
      EndsEarlier(t, from, to, excluded);
    } else {
      OverlappingSplit(Entries(t.left), t.entry, Entries(t.right), from, to, excluded);
      OverlapsAlone(t.entry, from, to, excluded);
      QueryExact(t.left, from, to, excluded);
      if Less(t.entry.start, to) {
        QueryExact(t.right, from, to, excluded);
      } else {
        StartsLater(t, from, to, excluded);
      }
    }
  }
}
