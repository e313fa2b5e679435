/** Batch planning of list inserts (`planInsertedListGroups`, src/engine.cpp:1365-1470),
    proved to give what positional insertion with deferral gives. */
module ListInserts {
  import opened Wrappers
  import opened Sequences

  type ItemId = nat

  /** An item on its way into a list: its id and the position it asks for. Without
      one it goes to the end. */
  datatype Insert = Insert(id: ItemId, index: Option<nat>)

  predicate Fits(list: seq<ItemId>, x: Insert) {
    x.index.GetOr(|list|) <= |list|
  }

  /** Positional insertion of one item (`insertIntoListGroup`). */
  function Place(list: seq<ItemId>, x: Insert): (r: seq<ItemId>)
    requires Fits(list, x)
    ensures |r| == |list| + 1
  {
    InsertAt(list, x.index.GetOr(|list|), x.id)
  }

  /** One pass over the waiting inserts in order: each is placed when its position is
      in range and put off otherwise. Gives the list and what was put off. */
  function Pass(list: seq<ItemId>, waiting: seq<Insert>): (r: (seq<ItemId>, seq<Insert>))
    ensures |r.1| <= |waiting|
    ensures |r.0| + |r.1| == |list| + |waiting|
    decreases |waiting|
  {
    if waiting == [] then (list, [])
    else if Fits(list, waiting[0]) then Pass(Place(list, waiting[0]), waiting[1..])
    else
      var (l, rest) := Pass(list, waiting[1..]);
      (l, [waiting[0]] + rest)
  }

  /** Passes repeated until one of them places nothing. */
  function Settle(list: seq<ItemId>, waiting: seq<Insert>): (r: (seq<ItemId>, seq<Insert>))
    ensures |r.0| + |r.1| == |list| + |waiting|
    decreases |waiting|
  {
    var (l, rest) := Pass(list, waiting);
    if |rest| == |waiting| then (l, rest) else Settle(l, rest)
  }

  lemma PlacedAtPosition(list: seq<ItemId>, id: ItemId, k: nat)
    requires k <= |list|
    ensures Place(list, Insert(id, Some(k))) == list[..k] + [id] + list[k..]
  {
  }

  lemma PlacedLast(list: seq<ItemId>, id: ItemId)
    ensures Place(list, Insert(id, None)) == list + [id]
  {
  }

  /** One insert goes in at its position, or at the end if it asks for none, and waits for ever
      behind the end. */
  lemma OneSettles(list: seq<ItemId>, id: ItemId, k: nat)
    ensures Settle(list, [Insert(id, Some(k))])
         == if k <= |list| then (list[..k] + [id] + list[k..], []) else (list, [Insert(id, Some(k))])
    ensures Settle(list, [Insert(id, None)]) == (list + [id], [])
  {
    hide Settle, Pass, Place;
    PassOne(list, Insert(id, Some(k)));
    PassOne(list, Insert(id, None));
    PlacedLast(list, id);
    if k <= |list| {
      PlacedAtPosition(list, id, k);
    }
  }

  lemma PassOne(list: seq<ItemId>, x: Insert)
    ensures Pass(list, [x]) == if Fits(list, x) then (Place(list, x), []) else (list, [x])
    ensures Settle(list, [x]) == Pass(list, [x])
  {
    assert [x][1..] == [];
    if Fits(list, x) {
      assert Pass(Place(list, x), []) == (Place(list, x), []);
      assert Settle(Place(list, x), []) == (Place(list, x), []);
    } else {
      assert [x] + [] == [x];
    }
  }

  /** The first of three waits for the other two, which go in in their turn. */
  lemma ThreeSettle()
    ensures Settle([], [Insert(1, Some(1)), Insert(2, Some(0)), Insert(3, Some(0))]) == ([3, 1, 2], [])
  {
    var a, b, c := Insert(1, Some(1)), Insert(2, Some(0)), Insert(3, Some(0));
    assert [a, b, c][1..] == [b, c] && [b, c][1..] == [c] && [c][1..] == [] && [a][1..] == [];
    assert Place([], b) == [2] && Place([2], c) == [3, 2] && Place([3, 2], a) == [3, 1, 2];
    assert Pass([3, 2], []) == ([3, 2], []);
    assert Pass([2], [c]) == ([3, 2], []);
    assert Pass([], [b, c]) == ([3, 2], []);
    assert [a] + [] == [a];
    assert Pass([], [a, b, c]) == ([3, 2], [a]);
    assert Pass([3, 2], [a]) == ([3, 1, 2], []);
    assert Settle([3, 1, 2], []) == ([3, 1, 2], []);
    assert Settle([3, 2], [a]) == ([3, 1, 2], []);
  }

  /** `Settle` seen from the middle of a pass: `before` was put off in this pass,
      `after` is still to come, and `moved` says whether the pass placed anything. */
  function Resume(list: seq<ItemId>, before: seq<Insert>, after: seq<Insert>, moved: bool): (seq<ItemId>, seq<Insert>) {
    var (l, rest) := Pass(list, after);
    if !moved && |rest| == |after| then (l, before + rest) else Settle(l, before + rest)
  }

  lemma ResumeAtStart(list: seq<ItemId>, waiting: seq<Insert>)
    ensures Resume(list, [], waiting, false) == Settle(list, waiting)
  {
    var (l, rest) := Pass(list, waiting);
    assert [] + rest == rest;
  }

  lemma ResumeAfterSkip(list: seq<ItemId>, before: seq<Insert>, after: seq<Insert>, moved: bool)
    requires after != [] && !Fits(list, after[0])
    ensures Resume(list, before, after, moved) == Resume(list, before + [after[0]], after[1..], moved)
  {
    var (l, rest) := Pass(list, after[1..]);
    assert before + ([after[0]] + rest) == before + [after[0]] + rest;
  }

  /** Skipping several inserts that do not fit. */
  lemma {:induction false} ResumeAfterSkips(list: seq<ItemId>, before: seq<Insert>, skip: seq<Insert>, after: seq<Insert>, moved: bool)
    requires forall x :: x in skip ==> !Fits(list, x)
    ensures Resume(list, before, skip + after, moved) == Resume(list, before + skip, after, moved)
    decreases |skip|
  {
    if skip == [] {
      assert skip + after == after && before + skip == before;
    } else {
      assert (skip + after)[0] == skip[0] && (skip + after)[1..] == skip[1..] + after;
      ResumeAfterSkip(list, before, skip + after, moved);
      ResumeAfterSkips(list, before + [skip[0]], skip[1..], after, moved);
      assert before + [skip[0]] + skip[1..] == before + skip;
    }
  }

  lemma ResumeAfterPlace(list: seq<ItemId>, before: seq<Insert>, after: seq<Insert>, moved: bool)
    requires after != [] && Fits(list, after[0])
    ensures Resume(list, before, after, moved) == Resume(Place(list, after[0]), before, after[1..], true)
  {
  }

  lemma ResumeAtEnd(list: seq<ItemId>, before: seq<Insert>)
    ensures Resume(list, before, [], true) == Resume(list, [], before, false)
  {
    assert before + [] == before;
    ResumeAtStart(list, before);
  }

  /** When nothing that waits fits, nothing more happens. */
  lemma {:induction false} PassStuck(list: seq<ItemId>, waiting: seq<Insert>)
    requires forall x :: x in waiting ==> !Fits(list, x)
    ensures Pass(list, waiting) == (list, waiting)
    decreases |waiting|
  {
    if waiting != [] {
      assert !Fits(list, waiting[0]) && waiting == [waiting[0]] + waiting[1..];
      PassStuck(list, waiting[1..]);
    }
  }

  lemma SettleNothing(list: seq<ItemId>)
    ensures Settle(list, []) == (list, [])
  {
  }

  /** A further pass changes nothing of what the passes come to. */
  lemma SettleAfterPass(list: seq<ItemId>, waiting: seq<Insert>)
    ensures var (l, rest) := Pass(list, waiting); Settle(l, rest) == Settle(list, waiting)
  {
    var (l, rest) := Pass(list, waiting);
    if |rest| == |waiting| {
      PassWithoutProgress(list, waiting);
    }
  }

  lemma {:induction false} PassWithoutProgress(list: seq<ItemId>, waiting: seq<Insert>)
    requires |Pass(list, waiting).1| == |waiting|
    ensures Pass(list, waiting) == (list, waiting)
    decreases |waiting|
  {
    if waiting != [] {
      if !Fits(list, waiting[0]) {
        PassWithoutProgress(list, waiting[1..]);
        assert waiting == [waiting[0]] + waiting[1..];
      }
    }
  }

  // ----- Inserts that fill the tail -----

  /** `target` is `list` followed by the waiting inserts, each where it asks to be. */
  ghost predicate FillsTail(list: seq<ItemId>, waiting: seq<Insert>, target: seq<ItemId>) {
    && |target| == |list| + |waiting|
    && list == target[..|list|]
    && (forall x :: x in waiting ==> x.index.Some? && |list| <= x.index.value < |target| && target[x.index.value] == x.id)
    && (forall i, j :: 0 <= i < j < |waiting| ==> waiting[i].index != waiting[j].index)
  }

  /** Pigeonhole: when the inserts fill a whole tail, one of them asks for its first place. */
  lemma SomeoneIsNext(list: seq<ItemId>, waiting: seq<Insert>, target: seq<ItemId>)
    requires FillsTail(list, waiting, target) && waiting != []
    ensures exists x :: x in waiting && x.index == Some(|list|)
  {
    if forall x :: x in waiting ==> x.index != Some(|list|) {
      var asked := seq(|waiting|, i requires 0 <= i < |waiting| => waiting[i].index);
      DistinctSize(asked);
      forall v | v in SetOf(asked)
        ensures v in Places(|list| + 1, |target|)
      {
        var i :| 0 <= i < |asked| && asked[i] == v;
        assert waiting[i] in waiting;
      }
      SubsetSize(SetOf(asked), Places(|list| + 1, |target|));
      PlacesSize(|list| + 1, |target|);
      assert false;
    }
  }

  function Places(lo: nat, hi: nat): set<Option<nat>> {
    set k: nat | lo <= k < hi :: Some(k)
  }

  lemma {:induction false} PlacesSize(lo: nat, hi: nat)
    requires lo <= hi
    ensures |Places(lo, hi)| == hi - lo
    decreases hi
  {
    if lo < hi {
      PlacesSize(lo, hi - 1);
      assert Places(lo, hi) == Places(lo, hi - 1) + {Some(hi - 1)};
    } else {
      assert Places(lo, hi) == {};
    }
  }

  /** Placing the insert that asks for the end leaves the rest filling what is left. */
  lemma PlaceFillsTail(list: seq<ItemId>, before: seq<Insert>, after: seq<Insert>, target: seq<ItemId>)
    requires after != [] && FillsTail(list, before + after, target) && after[0].index == Some(|list|)
    ensures Fits(list, after[0]) && FillsTail(Place(list, after[0]), before + after[1..], target)
  {
    var waiting, left := before + after, before + after[1..];
    assert waiting[|before|] == after[0];
    assert Place(list, after[0]) == list + [after[0].id] == target[..|list| + 1];
    assert forall i :: 0 <= i < |left| ==> left[i] == waiting[if i < |before| then i else i + 1];
  }

  /** From any point of any pass, inserts that fill the tail end up filling it. */
  lemma {:induction false} ResumeFillsTail(list: seq<ItemId>, before: seq<Insert>, after: seq<Insert>, moved: bool, target: seq<ItemId>)
    requires FillsTail(list, before + after, target)
    requires !moved ==> forall x :: x in before ==> x.index != Some(|list|)
    ensures Resume(list, before, after, moved) == (target, [])
    decreases |before| + |after|, moved, |after|
  {
    var waiting := before + after;
    if waiting == [] {
      assert before == [] && after == [] && target == list;
      assert Pass(list, []) == (list, []);
    } else if after == [] {
      assert waiting == before;
      if moved {
        ResumeAtEnd(list, before);
        assert [] + before == before + [];
        ResumeFillsTail(list, [], before, false, target);
      } else {
        SomeoneIsNext(list, waiting, target);
        assert false;
      }
    } else {
      assert waiting[|before|] == after[0];
      if after[0].index == Some(|list|) {
        PlaceFillsTail(list, before, after, target);
        ResumeAfterPlace(list, before, after, moved);
        ResumeFillsTail(Place(list, after[0]), before, after[1..], true, target);
      } else {
        ResumeAfterSkip(list, before, after, moved);
        assert before + [after[0]] + after[1..] == waiting;
        ResumeFillsTail(list, before + [after[0]], after[1..], moved, target);
      }
    }
  }

  lemma SettleFillsTail(list: seq<ItemId>, waiting: seq<Insert>, target: seq<ItemId>)
    requires FillsTail(list, waiting, target)
    ensures Settle(list, waiting) == (target, [])
  {
    assert [] + waiting == waiting;
    ResumeAtStart(list, waiting);
    ResumeFillsTail(list, [], waiting, false, target);
  }
}

/** What the planner schedules and places, as functions on values. */
module PlannedOrder {
  import opened Wrappers
  import opened Sequences
  import opened ListInserts
  import FreeSlots

  /** The planner's insertion order: items with the positions they take, first to last. */
  type Order = seq<(ItemId, nat)>

  ghost predicate InRange(size: nat, order: Order) {
    forall t :: 0 <= t < |order| ==> order[t].1 <= size + t
  }

  /** The list after inserting the scheduled items one at a time. */
  function Replay(list: seq<ItemId>, order: Order): (r: seq<ItemId>)
    requires InRange(|list|, order)
    ensures |r| == |list| + |order|
  {
    if order == [] then list
    else
      var last := |order| - 1;
      InsertAt(Replay(list, order[..last]), order[last].1, order[last].0)
  }

  lemma ReplayNothing(list: seq<ItemId>)
    ensures Replay(list, []) == list
  {
  }

  lemma ReplayNext(list: seq<ItemId>, order: Order, x: Insert)
    requires InRange(|list|, order) && Fits(Replay(list, order), x)
    ensures var next := order + [(x.id, x.index.GetOr(|list| + |order|))];
            InRange(|list|, next) && Replay(list, next) == Place(Replay(list, order), x)
  {
    var next := order + [(x.id, x.index.GetOr(|list| + |order|))];
    assert next[..|order|] == order;
  }

  /** The items of `list` that stand on free slots, up to position `hi`. */
  function OnFree(list: seq<ItemId>, slots: seq<bool>, hi: nat): (r: seq<ItemId>)
    requires hi <= |list| == |slots|
    ensures |r| == FreeSlots.CountFree(slots, 0, hi)
  {
    if hi == 0 then [] else OnFree(list, slots, hi - 1) + if slots[hi - 1] then [list[hi - 1]] else []
  }

  lemma {:induction false} OnFreeAll(list: seq<ItemId>, slots: seq<bool>, hi: nat)
    requires hi <= |list| == |slots|
    requires forall i :: 0 <= i < hi ==> slots[i]
    ensures OnFree(list, slots, hi) == list[..hi]
  {
    if hi > 0 {
      OnFreeAll(list, slots, hi - 1);
    }
  }

  /** The item on free slot `i` comes after as many items as there are free slots before it. */
  lemma {:induction false} OnFreeAt(list: seq<ItemId>, slots: seq<bool>, i: nat, hi: nat)
    requires i < hi <= |list| == |slots| && slots[i]
    ensures FreeSlots.CountFree(slots, 0, i) < |OnFree(list, slots, hi)|
    ensures OnFree(list, slots, hi)[FreeSlots.CountFree(slots, 0, i)] == list[i]
  {
    if i < hi - 1 {
      OnFreeAt(list, slots, i, hi - 1);
    }
  }

  /** Taking slot `i` drops just its item. */
  lemma {:induction false} OnFreeTaken(list: seq<ItemId>, slots: seq<bool>, i: nat, hi: nat)
    requires i < |list| == |slots| && hi <= |list| && slots[i]
    ensures i >= hi ==> OnFree(list, slots[i := false], hi) == OnFree(list, slots, hi)
    ensures i < hi ==> FreeSlots.CountFree(slots, 0, i) < |OnFree(list, slots, hi)|
    ensures i < hi ==>
      OnFree(list, slots[i := false], hi) == RemoveAt(OnFree(list, slots, hi), FreeSlots.CountFree(slots, 0, i))
  {
    if hi > 0 {
      OnFreeTaken(list, slots, i, hi - 1);
      if i < hi {
        OnFreeAt(list, slots, i, hi);
      }
    }
  }

  /** The step of the reverse placement. If the free slots hold the list with `order`
      replayed, then slot number `order[last].1` among them holds the last item, and the
      others hold the list without it. */
  lemma UndoLast(final: seq<ItemId>, slots: seq<bool>, list: seq<ItemId>, order: Order, i: nat)
    requires |final| == |slots| && InRange(|list|, order) && order != []
    requires OnFree(final, slots, |slots|) == Replay(list, order)
    requires i < |slots| && slots[i] && FreeSlots.CountFree(slots, 0, i) == order[|order| - 1].1
    ensures final[i] == order[|order| - 1].0
    ensures OnFree(final, slots[i := false], |slots|) == Replay(list, order[..|order| - 1])
  {
    var last := |order| - 1;
    OnFreeAt(final, slots, i, |slots|);
    OnFreeTaken(final, slots, i, |slots|);
    var l := Replay(list, order[..last]);
    assert RemoveAt(InsertAt(l, order[last].1, order[last].0), order[last].1) == l;
  }

  // ----- The round-robin schedule -----

  /** The inserts at positions `lo .. hi` not yet scheduled. */
  function Unplaced(inserts: seq<Insert>, placed: set<nat>, lo: nat, hi: nat): (r: seq<Insert>)
    requires hi <= |inserts|
    decreases hi
  {
    if hi <= lo then [] else Unplaced(inserts, placed, lo, hi - 1) + if hi - 1 in placed then [] else [inserts[hi - 1]]
  }

  lemma {:induction false} UnplacedSplit(inserts: seq<Insert>, placed: set<nat>, lo: nat, mid: nat, hi: nat)
    requires lo <= mid <= hi <= |inserts|
    ensures Unplaced(inserts, placed, lo, hi) == Unplaced(inserts, placed, lo, mid) + Unplaced(inserts, placed, mid, hi)
    decreases hi
  {
    if mid < hi {
      UnplacedSplit(inserts, placed, lo, mid, hi - 1);
    }
  }

  lemma {:induction false} UnplacedElsewhere(inserts: seq<Insert>, placed: set<nat>, p: nat, lo: nat, hi: nat)
    requires hi <= |inserts| && !(lo <= p < hi)
    ensures Unplaced(inserts, placed + {p}, lo, hi) == Unplaced(inserts, placed, lo, hi)
    decreases hi
  {
    if lo < hi {
      UnplacedElsewhere(inserts, placed, p, lo, hi - 1);
    }
  }

  lemma {:induction false} UnplacedFrom(inserts: seq<Insert>, placed: set<nat>, lo: nat, hi: nat, x: Insert)
    requires hi <= |inserts| && x in Unplaced(inserts, placed, lo, hi)
    ensures exists q :: lo <= q < hi && q !in placed && inserts[q] == x
    decreases hi
  {
    if x in Unplaced(inserts, placed, lo, hi - 1) {
      UnplacedFrom(inserts, placed, lo, hi - 1, x);
    }
  }

  lemma {:induction false} NothingPlaced(inserts: seq<Insert>, lo: nat, hi: nat)
    requires lo <= hi <= |inserts|
    ensures Unplaced(inserts, {}, lo, hi) == inserts[lo..hi]
    decreases hi
  {
    if lo < hi {
      NothingPlaced(inserts, lo, hi - 1);
    }
  }

  lemma {:induction false} UnplacedNonEmpty(inserts: seq<Insert>, placed: set<nat>, p: nat)
    requires p < |inserts| && p !in placed
    ensures Unplaced(inserts, placed, 0, |inserts|) != []
  {
    UnplacedSplit(inserts, placed, 0, p, |inserts|);
    UnplacedSplit(inserts, placed, p, p + 1, |inserts|);
  }

  lemma {:induction false} AllPlaced(inserts: seq<Insert>, placed: set<nat>, hi: nat)
    requires hi <= |inserts| && forall q :: 0 <= q < hi ==> q in placed
    ensures Unplaced(inserts, placed, 0, hi) == []
  {
    if hi > 0 {
      AllPlaced(inserts, placed, hi - 1);
    }
  }

  /** The passes, at the moment when the next position to look at is `cursor`. */
  function PassesFrom(inserts: seq<Insert>, placed: set<nat>, cursor: nat, list: seq<ItemId>): (seq<ItemId>, seq<Insert>)
    requires cursor <= |inserts|
  {
    Resume(list, Unplaced(inserts, placed, 0, cursor), Unplaced(inserts, placed, cursor, |inserts|), cursor != 0)
  }

  lemma PassesAtStart(inserts: seq<Insert>, list: seq<ItemId>)
    ensures PassesFrom(inserts, {}, 0, list) == Settle(list, inserts)
  {
    NothingPlaced(inserts, 0, |inserts|);
    assert inserts[0..|inserts|] == inserts;
    ResumeAtStart(list, inserts);
  }

  /** None of the unscheduled positions `lo .. hi` fits. */
  ghost predicate NoneFits(inserts: seq<Insert>, placed: set<nat>, list: seq<ItemId>, lo: nat, hi: nat)
    requires hi <= |inserts|
  {
    forall q :: lo <= q < hi && q !in placed ==> !Fits(list, inserts[q])
  }

  lemma SkipUnfit(inserts: seq<Insert>, placed: set<nat>, list: seq<ItemId>, cursor: nat, to: nat)
    requires cursor <= to <= |inserts| && NoneFits(inserts, placed, list, cursor, to)
    ensures PassesFrom(inserts, placed, cursor, list)
         == Resume(list, Unplaced(inserts, placed, 0, to), Unplaced(inserts, placed, to, |inserts|), cursor != 0)
  {
    UnplacedSplit(inserts, placed, 0, cursor, to);
    UnplacedSplit(inserts, placed, cursor, to, |inserts|);
    var skip := Unplaced(inserts, placed, cursor, to);
    forall x | x in skip
      ensures !Fits(list, x)
    {
      UnplacedFrom(inserts, placed, cursor, to, x);
    }
    ResumeAfterSkips(list, Unplaced(inserts, placed, 0, cursor), skip, Unplaced(inserts, placed, to, |inserts|), cursor != 0);
  }

  /** Scheduling the first fitting position at or after the cursor is what a pass does next. */
  lemma ScheduleNext(inserts: seq<Insert>, placed: set<nat>, list: seq<ItemId>, cursor: nat, p: nat)
    requires cursor <= p < |inserts| && p !in placed && Fits(list, inserts[p])
    requires NoneFits(inserts, placed, list, cursor, p)
    ensures PassesFrom(inserts, placed, cursor, list)
         == PassesFrom(inserts, placed + {p}, p + 1, Place(list, inserts[p]))
  {
    SkipUnfit(inserts, placed, list, cursor, p);
    UnplacedSplit(inserts, placed, p, p + 1, |inserts|);
    var after := Unplaced(inserts, placed, p, |inserts|);
    assert after[0] == inserts[p] && after[1..] == Unplaced(inserts, placed, p + 1, |inserts|);
    ResumeAfterPlace(list, Unplaced(inserts, placed, 0, p), after, cursor != 0);
    UnplacedElsewhere(inserts, placed, p, 0, p);
    UnplacedElsewhere(inserts, placed, p, p + 1, |inserts|);
    assert Unplaced(inserts, placed + {p}, 0, p + 1) == Unplaced(inserts, placed + {p}, 0, p);
  }

  /** With no fitting position at or after the cursor, the next pass begins. */
  lemma WrapAround(inserts: seq<Insert>, placed: set<nat>, list: seq<ItemId>, cursor: nat)
    requires cursor <= |inserts| && NoneFits(inserts, placed, list, cursor, |inserts|)
    ensures PassesFrom(inserts, placed, cursor, list) == PassesFrom(inserts, placed, 0, list)
  {
    if cursor != 0 {
      SkipUnfit(inserts, placed, list, cursor, |inserts|);
      ResumeAtEnd(list, Unplaced(inserts, placed, 0, |inserts|));
    }
  }

  /** When no unscheduled position fits, the passes are stuck with all of them. */
  lemma Stuck(inserts: seq<Insert>, placed: set<nat>, list: seq<ItemId>, cursor: nat)
    requires cursor <= |inserts| && NoneFits(inserts, placed, list, 0, |inserts|)
    ensures PassesFrom(inserts, placed, cursor, list) == (list, Unplaced(inserts, placed, 0, |inserts|))
  {
    WrapAround(inserts, placed, list, cursor);
    var waiting := Unplaced(inserts, placed, 0, |inserts|);
    forall x | x in waiting
      ensures !Fits(list, x)
    {
      UnplacedFrom(inserts, placed, 0, |inserts|, x);
    }
    ResumeAtStart(list, waiting);
    PassStuck(list, waiting);
  }
}

/** `planInsertedListGroups` itself. */
module ListPlanner {
  import opened Wrappers
  import opened Sequences
  import opened ListInserts
  import opened PlannedOrder
  import FreeSlots

  /** The index an insert waits for: without one it never waits. */
  function Key(x: Insert): nat {
    x.index.GetOr(0)
  }

  /** Insert `q` has its home at slot `home[q]` of the tail, and no two share one. */
  ghost predicate Housed(existing: seq<ItemId>, inserts: seq<Insert>, home: seq<nat>, slots: seq<Option<nat>>) {
    && |home| <= |inserts| == |slots|
    && (forall q :: 0 <= q < |home| ==> inserts[q].index == Some(|existing| + home[q]))
    && Homes(home, slots) && Residents(home, slots)
  }

  ghost predicate Homes(home: seq<nat>, slots: seq<Option<nat>>) {
    forall q :: 0 <= q < |home| ==> home[q] < |slots| && slots[home[q]] == Some(q)
  }

  ghost predicate Residents(home: seq<nat>, slots: seq<Option<nat>>) {
    forall k :: 0 <= k < |slots| && slots[k].Some? ==> slots[k].value < |home| && home[slots[k].value] == k
  }

  /** The shortcut: when the inserts fill a contiguous tail, they are laid out directly
      (src/engine.cpp:1385-1405). */
  method PlanTail(existing: seq<ItemId>, inserts: seq<Insert>) returns (tail: bool, result: seq<ItemId>)
    ensures tail ==> FillsTail(existing, inserts, result)
  {
    hide FillsTail;
    var slots: array<Option<nat>> := new Option<nat>[|inserts|](_ => None);
    ghost var home: seq<nat> := [];
    for i := 0 to |inserts|
      invariant |home| == i && Housed(existing, inserts, home, slots[..])
    {
      var index := inserts[i].index;
      if index.None? || index.value < |existing| || index.value >= |existing| + |inserts| {
        return false, [];
      }
      if slots[index.value - |existing|].Some? {
        return false, [];
      }
      var at := index.value - |existing|;
      HousedNext(existing, inserts, home, slots[..], at);
      slots[at] := Some(i);
      home := home + [at];
    }
    result := LayOut(existing, inserts, home, slots);
    tail := true;
  }

  method LayOut(existing: seq<ItemId>, inserts: seq<Insert>, ghost home: seq<nat>, slots: array<Option<nat>>)
    returns (result: seq<ItemId>)
    requires |home| == |inserts| && Housed(existing, inserts, home, slots[..])
    ensures FillsTail(existing, inserts, result)
  {
    AllHome(home, slots[..]);
    ghost var house := slots[..];
    result := existing;
    for k := 0 to slots.Length
      invariant slots[..] == house
      invariant |result| == |existing| + k && result[..|existing|] == existing
      invariant forall j :: 0 <= j < k ==> result[|existing| + j] == inserts[house[j].value].id
    {
      assert slots[k] == house[k];
      result := result + [inserts[slots[k].value].id];
    }
    forall q | 0 <= q < |inserts|
      ensures result[inserts[q].index.value] == inserts[q].id
    {
      assert house[home[q]] == Some(q);
    }
  }

  /** One more insert moves into an empty slot. */
  lemma HousedNext(existing: seq<ItemId>, inserts: seq<Insert>, home: seq<nat>, slots: seq<Option<nat>>, at: nat)
    requires Housed(existing, inserts, home, slots) && |home| < |inserts|
    requires at < |slots| && slots[at].None? && inserts[|home|].index == Some(|existing| + at)
    ensures Housed(existing, inserts, home + [at], slots[at := Some(|home|)])
  {
    hide Homes, Residents;
    HomesNext(home, slots, at);
    ResidentsNext(home, slots, at);
  }

  lemma HomesNext(home: seq<nat>, slots: seq<Option<nat>>, at: nat)
    requires Homes(home, slots) && at < |slots| && slots[at].None?
    ensures Homes(home + [at], slots[at := Some(|home|)])
  {
    var home', slots' := home + [at], slots[at := Some(|home|)];
    forall q | 0 <= q < |home'|
      ensures home'[q] < |slots'| && slots'[home'[q]] == Some(q)
    {
      if q < |home| {
        assert home'[q] == home[q] && slots[home[q]] == Some(q);
      }
    }
  }

  lemma ResidentsNext(home: seq<nat>, slots: seq<Option<nat>>, at: nat)
    requires Residents(home, slots) && at < |slots|
    ensures Residents(home + [at], slots[at := Some(|home|)])
  {
    var home', slots' := home + [at], slots[at := Some(|home|)];
    forall k | 0 <= k < |slots'| && slots'[k].Some?
      ensures slots'[k].value < |home'| && home'[slots'[k].value] == k
    {
      if k != at {
        assert slots'[k] == slots[k];
      }
    }
  }

  /** As many distinct homes as slots: every slot is taken. */
  lemma AllHome(home: seq<nat>, slots: seq<Option<nat>>)
    requires |home| == |slots|
    requires Homes(home, slots)
    ensures forall k :: 0 <= k < |slots| ==> slots[k].Some?
  {
    DistinctSize(home);
    var all := Range(|slots|);
    SubsetSize(SetOf(home), all);
    forall k: nat | k < |slots|
      ensures slots[k].Some?
    {
      assert k in SetOf(home);
    }
  }

  /** What the schedule's working sets hold: every position is scheduled, ready, or
      waiting under its index. */
  ghost predicate Sorted(inserts: seq<Insert>, waiting: map<nat, seq<nat>>, ready: set<nat>, placed: set<nat>, size: nat) {
    && (forall p: nat :: p in placed ==> p < |inserts|)
    && (forall p: nat :: p in ready ==> p < |inserts| && p !in placed && Key(inserts[p]) <= size)
    && (forall k: nat, p: nat {:trigger p in waiting[k]} :: k in waiting && p in waiting[k] ==>
          p < |inserts| && Key(inserts[p]) == k && p !in placed && p !in ready)
    && (forall p :: 0 <= p < |inserts| && p !in placed && p !in ready ==>
          Key(inserts[p]) in waiting && p in waiting[Key(inserts[p])])
  }

  method MakeReady(inserts: seq<Insert>, waiting: map<nat, seq<nat>>, ready: set<nat>, size: nat, ghost placed: set<nat>)
    returns (waiting': map<nat, seq<nat>>, ready': set<nat>)
    requires Sorted(inserts, waiting, ready, placed, size)
    ensures Sorted(inserts, waiting', ready', placed, size)
    ensures forall k: nat :: k in waiting' ==> k > size
  {
    waiting', ready' := waiting, ready;
    while waiting' != map[] && Least(waiting'.Keys) <= size
      invariant Sorted(inserts, waiting', ready', placed, size)
      decreases waiting'.Keys
    {
      var first := Least(waiting'.Keys);
      ready' := ready' + SetOf(waiting'[first]);
      waiting' := waiting' - {first};
    }
    if k :| k in waiting' {
      assert waiting' != map[];
    }
  }

  /** The first `n` positions stand under the indexes they wait for. */
  ghost predicate Grouped(inserts: seq<Insert>, waiting: map<nat, seq<nat>>, n: nat) {
    && n <= |inserts|
    && (forall k: nat, p: nat {:trigger p in waiting[k]} :: k in waiting && p in waiting[k] ==> p < n && Key(inserts[p]) == k)
    && (forall p :: 0 <= p < n ==> Key(inserts[p]) in waiting && p in waiting[Key(inserts[p])])
  }

  function Await(waiting: map<nat, seq<nat>>, index: nat, position: nat): map<nat, seq<nat>> {
    waiting[index := if index in waiting then waiting[index] + [position] else [position]]
  }

  lemma GroupedNext(inserts: seq<Insert>, waiting: map<nat, seq<nat>>, n: nat)
    requires n < |inserts| && Grouped(inserts, waiting, n)
    ensures Grouped(inserts, Await(waiting, Key(inserts[n]), n), n + 1)
  {
    var index := Key(inserts[n]);
    var next := Await(waiting, index, n);
    forall k: nat, p: nat | k in next && p in next[k]
      ensures p < n + 1 && Key(inserts[p]) == k
    {
      if k != index {
        assert k in waiting && p in waiting[k];
      } else if index in waiting {
        assert p in waiting[k] || p == n;
      } else {
        assert p == n;
      }
    }
  }

  method GroupByIndex(inserts: seq<Insert>) returns (waiting: map<nat, seq<nat>>)
    ensures Grouped(inserts, waiting, |inserts|)
  {
    waiting := map[];
    for i := 0 to |inserts|
      invariant Grouped(inserts, waiting, i)
    {
      GroupedNext(inserts, waiting, i);
      waiting := Await(waiting, Key(inserts[i]), i);
    }
  }

  lemma GroupedIsSorted(inserts: seq<Insert>, waiting: map<nat, seq<nat>>, size: nat)
    requires Grouped(inserts, waiting, |inserts|)
    ensures Sorted(inserts, waiting, {}, {}, size)
  {
    forall k: nat, p: nat | k in waiting && p in waiting[k]
      ensures p < |inserts| && Key(inserts[p]) == k
    {
    }
  }

  /** The first ready position at or after the cursor, or else the first of all. */
  function NextReady(ready: set<nat>, cursor: nat): (r: nat)
    requires ready != {}
    ensures r in ready
    ensures r >= cursor ==> forall p: nat :: p in ready && p >= cursor ==> r <= p
    ensures r < cursor ==> forall p: nat :: p in ready ==> r <= p < cursor
  {
    var after := set p: nat | p in ready && p >= cursor;
    if after == {} then
      assert forall p: nat :: p in ready ==> p !in after;
      Least(ready)
    else
      assert forall p: nat :: p in ready && p >= cursor ==> p in after;
      Least(after)
  }

  function Step(inserts: seq<Insert>, position: nat): nat {
    if position + 1 == |inserts| then 0 else position + 1
  }

  /** The schedule so far has done to the list what the passes do. */
  ghost predicate Follows(existing: seq<ItemId>, inserts: seq<Insert>, order: Order, placed: set<nat>, cursor: nat) {
    && |placed| == |order| <= |inserts| && cursor <= |inserts|
    && (forall p: nat :: p in placed ==> p < |inserts|)
    && InRange(|existing|, order)
    && Settle(existing, inserts) == PassesFrom(inserts, placed, cursor, Replay(existing, order))
  }

  lemma FollowsAtStart(existing: seq<ItemId>, inserts: seq<Insert>)
    ensures Follows(existing, inserts, [], {}, 0)
  {
    PassesAtStart(inserts, existing);
  }

  /** Exactly the ready positions fit, so the schedule looks where a pass looks. */
  lemma ReadyFits(inserts: seq<Insert>, waiting: map<nat, seq<nat>>, ready: set<nat>, placed: set<nat>,
                  list: seq<ItemId>, cursor: nat)
    requires Sorted(inserts, waiting, ready, placed, |list|) && forall k: nat :: k in waiting ==> k > |list|
    requires ready != {} && cursor <= |inserts|
    ensures var position := NextReady(ready, cursor);
            && position < |inserts| && Fits(list, inserts[position]) && position !in placed
            && NoneFits(inserts, placed, list, if position < cursor then 0 else cursor, position)
            && (position < cursor ==> NoneFits(inserts, placed, list, cursor, |inserts|))
  {
  }

  /** Scheduling the next ready position keeps the schedule and the passes in step. */
  lemma FollowsNext(existing: seq<ItemId>, inserts: seq<Insert>, order: Order, placed: set<nat>, cursor: nat,
                    waiting: map<nat, seq<nat>>, ready: set<nat>, position: nat)
    requires Follows(existing, inserts, order, placed, cursor) && |order| < |inserts|
    requires Sorted(inserts, waiting, ready, placed, |existing| + |order|)
    requires forall k: nat :: k in waiting ==> k > |existing| + |order|
    requires ready != {} && position == NextReady(ready, cursor)
    ensures Follows(existing, inserts,
                    order + [(inserts[position].id, inserts[position].index.GetOr(|existing| + |order|))],
                    placed + {position}, Step(inserts, position))
  {
    hide NextReady, Unplaced, Settle, NoneFits, Sorted, Replay;
    var list := Replay(existing, order);
    ReadyFits(inserts, waiting, ready, placed, list, cursor);
    if position < cursor {
      WrapAround(inserts, placed, list, cursor);
    }
    ScheduleNext(inserts, placed, list, if position < cursor then 0 else cursor, position);
    if position + 1 == |inserts| {
      WrapAround(inserts, placed + {position}, Place(list, inserts[position]), |inserts|);
    }
    ReplayNext(existing, order, inserts[position]);
  }

  /** With nothing ready the passes are stuck, and with everything scheduled they are done. */
  lemma FollowsToTheEnd(existing: seq<ItemId>, inserts: seq<Insert>, order: Order, placed: set<nat>, cursor: nat,
                        waiting: map<nat, seq<nat>>)
    requires Follows(existing, inserts, order, placed, cursor)
    requires Sorted(inserts, waiting, {}, placed, |existing| + |order|)
    requires forall k: nat :: k in waiting ==> k > |existing| + |order|
    ensures Settle(existing, inserts).1 == [] <==> |order| == |inserts|
    ensures |order| == |inserts| ==> Settle(existing, inserts).0 == Replay(existing, order)
  {
    Stuck(inserts, placed, Replay(existing, order), cursor);
    if |order| == |inserts| {
      EveryonePlaced(inserts, placed);
      AllPlaced(inserts, placed, |inserts|);
    } else {
      SomeUnplaced(inserts, placed);
    }
  }

  lemma NothingReady(inserts: seq<Insert>, waiting: map<nat, seq<nat>>, ready: set<nat>, placed: set<nat>, size: nat)
    requires Sorted(inserts, waiting, ready, placed, size) && |placed| == |inserts|
    ensures ready == {}
  {
    EveryonePlaced(inserts, placed);
  }

  /** Taking the next ready position out of the ready ones schedules it. */
  lemma SortedNext(inserts: seq<Insert>, waiting: map<nat, seq<nat>>, ready: set<nat>, placed: set<nat>, size: nat, p: nat)
    requires Sorted(inserts, waiting, ready, placed, size) && p in ready
    ensures p < |inserts| && p !in placed && Sorted(inserts, waiting, ready - {p}, placed + {p}, size + 1)
  {
  }

  /** The round-robin schedule (src/engine.cpp:1407-1446). */
  method Schedule(existing: seq<ItemId>, inserts: seq<Insert>) returns (ok: bool, order: Order)
    ensures InRange(|existing|, order)
    ensures ok <==> Settle(existing, inserts).1 == []
    ensures ok ==> |order| == |inserts| && Replay(existing, order) == Settle(existing, inserts).0
  {
    hide NextReady, Settle, PassesFrom, Replay, Sorted, Key;
    var waiting := GroupByIndex(inserts);
    var ready: set<nat> := {};
    order := [];
    var size, cursor: nat := |existing|, 0;
    ghost var placed: set<nat> := {};
    GroupedIsSorted(inserts, waiting, size);
    waiting, ready := MakeReady(inserts, waiting, ready, size, placed);
    FollowsAtStart(existing, inserts);
    while |order| < |inserts|
      invariant size == |existing| + |order|
      invariant Sorted(inserts, waiting, ready, placed, size) && forall k: nat :: k in waiting ==> k > size
      invariant Follows(existing, inserts, order, placed, cursor)
      decreases |inserts| - |order|
    {
      if ready == {} {
        FollowsToTheEnd(existing, inserts, order, placed, cursor, waiting);
        return false, order;
      }
      var position := NextReady(ready, cursor);
      FollowsNext(existing, inserts, order, placed, cursor, waiting, ready, position);
      SortedNext(inserts, waiting, ready, placed, size, position);
      ready := ready - {position};
      order := order + [(inserts[position].id, inserts[position].index.GetOr(size))];
      placed := placed + {position};
      size := size + 1;
      cursor := position + 1;
      if cursor == |inserts| {
        cursor := 0;
      }
      waiting, ready := MakeReady(inserts, waiting, ready, size, placed);
    }
    NothingReady(inserts, waiting, ready, placed, size);
    FollowsToTheEnd(existing, inserts, order, placed, cursor, waiting);
    ok := true;
  }

  lemma SomeUnplaced(inserts: seq<Insert>, placed: set<nat>)
    requires |placed| < |inserts| && forall p: nat :: p in placed ==> p < |inserts|
    ensures Unplaced(inserts, placed, 0, |inserts|) != []
  {
    var all := Range(|inserts|);
    if p :| p in all && p !in placed {
      UnplacedNonEmpty(inserts, placed, p);
    } else {
      SubsetSize(all, placed);
    }
  }

  lemma EveryonePlaced(inserts: seq<Insert>, placed: set<nat>)
    requires |placed| == |inserts| && forall p: nat :: p in placed ==> p < |inserts|
    ensures forall p :: 0 <= p < |inserts| ==> p in placed
  {
    var all := Range(|inserts|);
    SubsetSize(placed, all);
    forall p | 0 <= p < |inserts|
      ensures p in placed
    {
      assert p in all;
    }
  }

  /** What is placed so far stands where the final list has it, and the free slots hold
      the list as it was before those insertions. */
  ghost predicate Placed(free: FreeSlots.FreeListSlotIndex, result: array<ItemId>, inserted: array<bool>,
                         final: seq<ItemId>, list: seq<ItemId>)
    reads free, free.tree, result, inserted
  {
    && free.Valid() && free.tree as object != result && free.tree as object != inserted
    && |free.slots| == |final| == result.Length == inserted.Length
    && OnFree(final, free.slots, |final|) == list
    && (forall i :: 0 <= i < |final| ==> inserted[i] == !free.slots[i])
    && (forall i :: 0 <= i < |final| && inserted[i] ==> result[i] == final[i])
  }

  method PlaceLast(free: FreeSlots.FreeListSlotIndex, result: array<ItemId>, inserted: array<bool>,
                   id: ItemId, requested: nat, ghost final: seq<ItemId>, ghost list: seq<ItemId>, ghost order: Order)
    requires InRange(|list|, order) && order != [] && order[|order| - 1] == (id, requested)
    requires Placed(free, result, inserted, final, Replay(list, order))
    modifies free`slots, free.tree, result, inserted
    ensures Placed(free, result, inserted, final, Replay(list, order[..|order| - 1]))
  {
    ghost var was := free.slots;
    var index := free.Take(requested + 1);
    UndoLast(final, was, list, order, index);
    result[index] := id;
    inserted[index] := true;
  }

  /** The reverse placement: each item, last first, takes its slot among the free ones
      (src/engine.cpp:1448-1467). */
  method PlaceReversed(existing: seq<ItemId>, order: Order) returns (list: seq<ItemId>)
    requires InRange(|existing|, order)
    ensures list == Replay(existing, order)
  {
    hide OnFree, FreeSlots.CountFree, Replay;
    ghost var final := Replay(existing, order);
    var size := |existing| + |order|;
    var free := new FreeSlots.FreeListSlotIndex(size);
    var result := new ItemId[size](_ => 0);
    var inserted := new bool[size](_ => false);
    OnFreeAll(final, free.slots, size);
    assert final[..size] == final;
    ghost var left := order;
    var t: nat := |order|;
    while t > 0
      invariant t <= |order| && fresh(free) && fresh(free.tree) && left == order[..t] && InRange(|existing|, left)
      invariant Placed(free, result, inserted, final, Replay(existing, left))
    {
      t := t - 1;
      PlaceLast(free, result, inserted, order[t].0, order[t].1, final, existing, left);
      left := left[..t];
    }
    ReplayNothing(existing);
    FillExisting(existing, final, free.slots, result, inserted);
    list := result[..];
  }

  /** The existing items take the slots left, in their order. */
  method FillExisting(existing: seq<ItemId>, ghost final: seq<ItemId>, ghost slots: seq<bool>,
                      result: array<ItemId>, inserted: array<bool>)
    requires result.Length == inserted.Length == |slots| == |final|
    requires OnFree(final, slots, |slots|) == existing
    requires forall i :: 0 <= i < |slots| ==> inserted[i] == !slots[i]
    requires forall i :: 0 <= i < |slots| && inserted[i] ==> result[i] == final[i]
    modifies result
    ensures result[..] == final
  {
    var next := 0;
    for i := 0 to result.Length
      invariant next == FreeSlots.CountFree(slots, 0, i)
      invariant forall j :: 0 <= j < result.Length && (inserted[j] || j < i) ==> result[j] == final[j]
    {
      if !inserted[i] {
        OnFreeAt(final, slots, i, |slots|);
        result[i] := existing[next];
        next := next + 1;
      }
    }
  }

  /** One group's plan is what the passes come to, and there is none exactly when they get stuck. */
  method PlanGroup(existing: seq<ItemId>, inserts: seq<Insert>) returns (ok: bool, list: seq<ItemId>)
    ensures ok <==> Settle(existing, inserts).1 == []
    ensures ok ==> list == Settle(existing, inserts).0
  {
    var tail;
    tail, list := PlanTail(existing, inserts);
    if tail {
      SettleFillsTail(existing, inserts, list);
      return true, list;
    }
    var order;
    ok, order := Schedule(existing, inserts);
    if ok {
      list := PlaceReversed(existing, order);
    }
  }
}
