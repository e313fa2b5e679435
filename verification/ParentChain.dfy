/** Climbing from parent to parent, and `ensureNoCycle` (src/engine.cpp:639-665). */
module ParentChain {
  import opened Wrappers
  import opened Sequences

  type ItemId = nat
  type Parents = map<ItemId, Option<ItemId>>

  /** Where a climb is: at an item, past a root, or at an id that names no item. */
  datatype Spot = At(id: ItemId) | Top | Lost

  function SpotOf(parent: Option<ItemId>): Spot {
    if parent.None? then Top else At(parent.value)
  }

  function Step(parents: Parents, spot: Spot): Spot {
    match spot
    case At(id) => if id in parents then SpotOf(parents[id]) else Lost
    case _ => spot
  }

  /** The climb from `start` after `n` steps. */
  function Climb(parents: Parents, start: Option<ItemId>, n: nat): Spot {
    if n == 0 then SpotOf(start) else Step(parents, Climb(parents, start, n - 1))
  }

  /** The chain reaches a root through existing items. */
  ghost predicate Rooted(parents: Parents, start: Option<ItemId>) {
    exists n: nat :: Climb(parents, start, n) == Top
  }

  ghost predicate Visits(parents: Parents, start: Option<ItemId>, id: ItemId) {
    exists n: nat :: Climb(parents, start, n) == At(id)
  }

  lemma {:induction false} ClimbSum(parents: Parents, start: Option<ItemId>, m: nat, n: nat)
    requires Climb(parents, start, m).At?
    ensures Climb(parents, start, m + n) == Climb(parents, Some(Climb(parents, start, m).id), n)
    decreases n
  {
    if n > 0 {
      ClimbSum(parents, start, m, n - 1);
      assert m + n - 1 == m + (n - 1);
    }
  }

  /** A climb that has ended stays where it is. */
  lemma {:induction false} ClimbEnded(parents: Parents, start: Option<ItemId>, m: nat, n: nat)
    requires m <= n && !Climb(parents, start, m).At?
    ensures Climb(parents, start, n) == Climb(parents, start, m)
    decreases n
  {
    if m < n {
      ClimbEnded(parents, start, m, n - 1);
    }
  }

  /** A climb that has been somewhere twice goes round. */
  lemma {:induction false} ClimbPeriod(parents: Parents, start: Option<ItemId>, a: nat, b: nat, n: nat)
    requires a <= b && Climb(parents, start, a) == Climb(parents, start, b) && a <= n
    ensures Climb(parents, start, n + (b - a)) == Climb(parents, start, n)
    decreases n
  {
    if a < n {
      ClimbPeriod(parents, start, a, b, n - 1);
      assert n + (b - a) - 1 == n - 1 + (b - a);
    }
  }

  lemma {:induction false} ClimbPeriods(parents: Parents, start: Option<ItemId>, a: nat, b: nat, n: nat, times: nat)
    requires a <= b && Climb(parents, start, a) == Climb(parents, start, b) && a <= n
    ensures n + times * (b - a) >= 0
    ensures Climb(parents, start, n + times * (b - a)) == Climb(parents, start, n)
    decreases times
  {
    if times > 0 {
      ClimbPeriods(parents, start, a, b, n, times - 1);
      assert times * (b - a) == (times - 1) * (b - a) + (b - a);
      assert (times - 1) * (b - a) >= 0;
      ClimbPeriod(parents, start, a, b, n + (times - 1) * (b - a));
    }
  }

  /** So it never ends. */
  lemma {:induction false} RoundNeverEnds(parents: Parents, start: Option<ItemId>, a: nat, b: nat, n: nat)
    requires a < b && Climb(parents, start, a) == Climb(parents, start, b) && Climb(parents, start, a).At?
    ensures Climb(parents, start, n).At?
    decreases n
  {
    if !Climb(parents, start, n).At? {
      if n < b {
        ClimbEnded(parents, start, n, b);
      } else {
        ClimbPeriod(parents, start, a, b, n - (b - a));
        RoundNeverEnds(parents, start, a, b, n - (b - a));
      }
    }
  }

  ghost predicate Repeats(parents: Parents, start: Option<ItemId>, i: nat, j: nat) {
    i < j && Climb(parents, start, i) == Climb(parents, start, j)
  }

  /** As many steps as there are items either end the climb or go round. */
  lemma EndsOrRepeats(parents: Parents, start: Option<ItemId>)
    requires forall n: nat :: Climb(parents, start, n).At?
    ensures exists i: nat, j: nat :: Repeats(parents, start, i, j)
  {
    var trail := seq(|parents| + 1, (n: nat) => Climb(parents, start, n).id);
    if Distinct(trail) {
      DistinctSize(trail);
      forall id | id in SetOf(trail)
        ensures id in parents.Keys
      {
        var n :| 0 <= n < |trail| && trail[n] == id;
        assert Climb(parents, start, n + 1).At?;
      }
      SubsetSize(SetOf(trail), parents.Keys);
      assert false;
    } else {
      var i: nat, j: nat :| 0 <= i < j < |trail| && trail[i] == trail[j];
      assert Climb(parents, start, i) == At(trail[i]) && Climb(parents, start, j) == At(trail[j]);
      assert Repeats(parents, start, i, j);
    }
  }

  /** Where slow and fast have met, or the climb is over. */
  ghost predicate Decided(parents: Parents, start: Option<ItemId>, k: nat) {
    k > 0 && (!Climb(parents, start, k).At? || Climb(parents, start, k) == Climb(parents, start, 2 * k))
  }

  lemma Decides(parents: Parents, start: Option<ItemId>)
    ensures exists k: nat :: Decided(parents, start, k)
  {
    hide Climb;
    if n: nat :| !Climb(parents, start, n).At? {
      ClimbEnded(parents, start, n, n + 1);
      assert Decided(parents, start, n + 1);
    } else {
      EndsOrRepeats(parents, start);
      var i: nat, j: nat :| Repeats(parents, start, i, j);
      MeetAtMultiple(parents, start, i, j);
    }
  }

  /** Slow and fast meet where the number of steps is a multiple of the period. */
  lemma MeetAtMultiple(parents: Parents, start: Option<ItemId>, i: nat, j: nat)
    requires Repeats(parents, start, i, j)
    ensures exists k: nat :: Decided(parents, start, k)
  {
    var period, times: nat := j - i, i + 1;
    var k: nat := times * period;
    assert k >= times by {
      assert times * period >= times * 1;
    }
    ClimbPeriods(parents, start, i, j, k, times);
    assert k + times * (j - i) == 2 * k;
    assert Decided(parents, start, k);
  }

  datatype Verdict = Fine | Cycle | Missing

  /** The chain from `parent` ends at `end` without meeting `item`. */
  ghost predicate EndsWithout(parents: Parents, item: ItemId, parent: Option<ItemId>, end: Spot) {
    exists n: nat :: Climb(parents, parent, n) == end && forall k: nat :: k < n ==> Climb(parents, parent, k) != At(item)
  }

  lemma EndIsUnique(parents: Parents, item: ItemId, parent: Option<ItemId>, n: nat, end: Spot)
    requires !Climb(parents, parent, n).At? && EndsWithout(parents, item, parent, end) && !end.At?
    ensures Climb(parents, parent, n) == end
  {
    var m: nat :| Climb(parents, parent, m) == end;
    ClimbEnded(parents, parent, m, m + n);
    ClimbEnded(parents, parent, n, m + n);
  }

  /** Meeting the item rules out every ending without it. */
  lemma MeetingRulesOut(parents: Parents, item: ItemId, parent: Option<ItemId>, n: nat, end: Spot)
    requires Climb(parents, parent, n) == At(item) && !end.At?
    ensures !EndsWithout(parents, item, parent, end)
  {
    if EndsWithout(parents, item, parent, end) {
      var m: nat :| Climb(parents, parent, m) == end && forall k: nat :: k < m ==> Climb(parents, parent, k) != At(item);
      assert m <= n;
      ClimbEnded(parents, parent, m, n);
    }
  }

  lemma GoingRoundRulesOut(parents: Parents, item: ItemId, parent: Option<ItemId>, a: nat, b: nat, end: Spot)
    requires a < b && Climb(parents, parent, a) == Climb(parents, parent, b) && Climb(parents, parent, a).At? && !end.At?
    ensures !EndsWithout(parents, item, parent, end)
  {
    if EndsWithout(parents, item, parent, end) {
      var m: nat :| Climb(parents, parent, m) == end;
      RoundNeverEnds(parents, parent, a, b, m);
    }
  }

  /** What each verdict means, for every finite parent map, cyclic or not. */
  ghost predicate Means(verdict: Verdict, parents: Parents, item: ItemId, parent: Option<ItemId>) {
    && (verdict == Fine <==> EndsWithout(parents, item, parent, Top))
    && (verdict == Missing <==> EndsWithout(parents, item, parent, Lost))
  }

  /** Up to step `n` the climb has met neither the item nor a missing one. */
  ghost predicate ClearTo(parents: Parents, item: ItemId, parent: Option<ItemId>, n: nat) {
    && !Climb(parents, parent, n).Lost?
    && forall k: nat :: k < n ==> Climb(parents, parent, k) != At(item)
  }

  /** One step of either climber: it stops with the right verdict, or the way is clear one step on. */
  lemma ClearNext(parents: Parents, item: ItemId, parent: Option<ItemId>, n: nat)
    requires ClearTo(parents, item, parent, n) && Climb(parents, parent, n).At?
    ensures var id := Climb(parents, parent, n).id;
            if id == item then Means(Cycle, parents, item, parent)
            else if id !in parents then Means(Missing, parents, item, parent)
            else ClearTo(parents, item, parent, n + 1) && Climb(parents, parent, n + 1) == SpotOf(parents[id])
  {
    var id := Climb(parents, parent, n).id;
    if id == item {
      MeetingRulesOut(parents, item, parent, n, Top);
      MeetingRulesOut(parents, item, parent, n, Lost);
    } else if id !in parents {
      assert Climb(parents, parent, n + 1) == Lost;
      if EndsWithout(parents, item, parent, Top) {
        EndIsUnique(parents, item, parent, n + 1, Top);
      }
    }
  }

  lemma ClearToTop(parents: Parents, item: ItemId, parent: Option<ItemId>, n: nat)
    requires ClearTo(parents, item, parent, n) && Climb(parents, parent, n) == Top
    ensures Means(Fine, parents, item, parent)
    ensures ClearTo(parents, item, parent, n + 1)
  {
    if EndsWithout(parents, item, parent, Lost) {
      EndIsUnique(parents, item, parent, n, Lost);
    }
  }

  method EnsureNoCycle(parents: Parents, item: ItemId, parent: Option<ItemId>) returns (verdict: Verdict)
    ensures Means(verdict, parents, item, parent)
  {
    hide Climb, EndsWithout, Means, ClearTo;
    Decides(parents, parent);
    ghost var last: nat :| Decided(parents, parent, last);
    ghost var k: nat := 0;
    var slow, fast := parent, parent;
    ClimbStart(parents, item, parent);
    while slow.Some?
      invariant ClearTo(parents, item, parent, 2 * k)
      invariant SpotOf(slow) == Climb(parents, parent, k) && SpotOf(fast) == Climb(parents, parent, 2 * k)
      invariant k <= last && (slow.Some? ==> k < last)
      decreases last - k
    {
      ClearEarlier(parents, item, parent, k, 2 * k);
      ClearNext(parents, item, parent, k);
      if slow.value == item {
        return Cycle;
      }
      if slow.value !in parents {
        return Missing;
      }
      slow := parents[slow.value];
      for i := 0 to 2
        invariant ClearTo(parents, item, parent, 2 * k + i)
        invariant SpotOf(fast) == Climb(parents, parent, 2 * k + i)
      {
        if fast.None? {
          ClearToTop(parents, item, parent, 2 * k + i);
          ClimbEnded(parents, parent, 2 * k + i, 2 * k + i + 1);
        } else {
          ClearNext(parents, item, parent, 2 * k + i);
          if fast.value == item {
            return Cycle;
          }
          if fast.value !in parents {
            return Missing;
          }
          fast := parents[fast.value];
        }
      }
      k := k + 1;
      if slow.Some? && fast.Some? && slow.value == fast.value {
        GoingRoundRulesOut(parents, item, parent, k, 2 * k, Top);
        GoingRoundRulesOut(parents, item, parent, k, 2 * k, Lost);
        CycleMeans(parents, item, parent);
        return Cycle;
      }
    }
    ClearEarlier(parents, item, parent, k, 2 * k);
    ClearToTop(parents, item, parent, k);
    verdict := Fine;
  }

  lemma ClimbStart(parents: Parents, item: ItemId, parent: Option<ItemId>)
    ensures ClearTo(parents, item, parent, 0) && Climb(parents, parent, 0) == SpotOf(parent)
  {
  }

  lemma ClearEarlier(parents: Parents, item: ItemId, parent: Option<ItemId>, m: nat, n: nat)
    requires ClearTo(parents, item, parent, n) && m <= n
    ensures ClearTo(parents, item, parent, m)
  {
    if Climb(parents, parent, m) == Lost {
      ClimbEnded(parents, parent, m, n);
    }
  }

  lemma CycleMeans(parents: Parents, item: ItemId, parent: Option<ItemId>)
    requires !EndsWithout(parents, item, parent, Top) && !EndsWithout(parents, item, parent, Lost)
    ensures Means(Cycle, parents, item, parent)
  {
  }

  // ----- Forests that change -----

  /** The maps agree on every item but one. */
  ghost predicate AgreeOff(a: Parents, b: Parents, id: ItemId) {
    forall x :: x != id ==> (x in a <==> x in b) && (x in a && x in b ==> a[x] == b[x])
  }

  lemma {:induction false} ClimbAgrees(a: Parents, b: Parents, start: Option<ItemId>, id: ItemId, n: nat)
    requires AgreeOff(a, b, id)
    requires forall k: nat :: k < n ==> Climb(a, start, k) != At(id)
    ensures Climb(b, start, n) == Climb(a, start, n)
    decreases n
  {
    if n > 0 {
      ClimbAgrees(a, b, start, id, n - 1);
    }
  }

  /** The chain ends, at a root or at an item that is not there. */
  ghost predicate Ends(parents: Parents, start: Option<ItemId>) {
    exists n: nat :: !Climb(parents, start, n).At?
  }

  /** A climb that ends never comes back to where it began. */
  lemma EndingNeverReturns(parents: Parents, id: ItemId, n: nat)
    requires id in parents && Ends(parents, Some(id))
    ensures Climb(parents, parents[id], n) != At(id)
  {
    if Climb(parents, parents[id], n) == At(id) {
      StartOneUp(parents, id, n);
      var m: nat :| !Climb(parents, Some(id), m).At?;
      RoundNeverEnds(parents, Some(id), 0, n + 1, m);
    }
  }

  /** A climb from above a rooted item never comes back to it. */
  lemma RootedNeverReturns(parents: Parents, id: ItemId, n: nat)
    requires id in parents && Rooted(parents, Some(id))
    ensures Climb(parents, parents[id], n) != At(id)
  {
    var m: nat :| Climb(parents, Some(id), m) == Top;
    EndingNeverReturns(parents, id, n);
  }

  /** Taking an item away makes no chain go round. */
  lemma EndsWithoutIt(parents: Parents, id: ItemId, start: Option<ItemId>)
    requires Ends(parents, start)
    ensures Ends(parents - {id}, start)
  {
    var n: nat :| !Climb(parents, start, n).At?;
    if k: nat :| k < n && Climb(parents, start, k) == At(id) {
      var first := FirstVisit(parents, start, id, k);
      ClimbAgrees(parents, parents - {id}, start, id, first);
      assert Climb(parents - {id}, start, first + 1) == Lost;
    } else {
      ClimbAgrees(parents, parents - {id}, start, id, n);
    }
  }

  lemma {:induction false} StartOneUp(parents: Parents, id: ItemId, n: nat)
    requires id in parents
    ensures Climb(parents, Some(id), n + 1) == Climb(parents, parents[id], n)
    decreases n
  {
    if n > 0 {
      StartOneUp(parents, id, n - 1);
    } else {
      assert Climb(parents, Some(id), 0) == At(id);
    }
  }

  lemma RootedOneUp(parents: Parents, id: ItemId)
    requires id in parents
    ensures Rooted(parents, Some(id)) <==> Rooted(parents, parents[id])
  {
    if n: nat :| Climb(parents, Some(id), n) == Top {
      assert Climb(parents, Some(id), 0) == At(id);
      StartOneUp(parents, id, n - 1);
    }
    if n: nat :| Climb(parents, parents[id], n) == Top {
      StartOneUp(parents, id, n);
      assert Climb(parents, Some(id), n + 1) == Top;
    }
  }

  /** What `ensureNoCycle` guards: hanging an item under a parent whose chain reaches a
      root without it keeps every item rooted. */
  lemma HangingKeepsRoots(parents: Parents, id: ItemId, parent: Option<ItemId>)
    requires forall x :: x in parents ==> Rooted(parents, Some(x))
    requires EndsWithout(parents, id, parent, Top)
    ensures forall x :: x in parents[id := parent] ==> Rooted(parents[id := parent], Some(x))
  {
    var after := parents[id := parent];
    var n: nat :| Climb(parents, parent, n) == Top && forall k: nat :: k < n ==> Climb(parents, parent, k) != At(id);
    ClimbAgrees(parents, after, parent, id, n);
    RootedOneUp(after, id);
    forall x | x in after && x != id
      ensures Rooted(after, Some(x))
    {
      var m: nat :| Climb(parents, Some(x), m) == Top;
      RootedThrough(parents, after, Some(x), id, m);
    }
  }

  lemma RootedThrough(parents: Parents, after: Parents, start: Option<ItemId>, id: ItemId, m: nat)
    requires AgreeOff(parents, after, id) && Rooted(after, Some(id))
    requires Climb(parents, start, m) == Top
    ensures Rooted(after, start)
  {
    if k: nat :| k < m && Climb(parents, start, k) == At(id) {
      var first := FirstVisit(parents, start, id, k);
      ClimbAgrees(parents, after, start, id, first);
      var n: nat :| Climb(after, Some(id), n) == Top;
      ClimbSum(after, start, first, n);
    } else {
      ClimbAgrees(parents, after, start, id, m);
    }
  }

  lemma {:induction false} FirstVisit(parents: Parents, start: Option<ItemId>, id: ItemId, k: nat) returns (first: nat)
    requires Climb(parents, start, k) == At(id)
    ensures Climb(parents, start, first) == At(id)
    ensures forall j: nat :: j < first ==> Climb(parents, start, j) != At(id)
    decreases k
  {
    if j: nat :| j < k && Climb(parents, start, j) == At(id) {
      first := FirstVisit(parents, start, id, j);
    } else {
      first := k;
    }
  }

  /** `part` holds some of the items, with their parents, and nothing else but `id`. */
  ghost predicate PartOf(part: Parents, whole: Parents, id: ItemId) {
    forall x :: x in part && x != id ==>
      x in whole && part[x] == whole[x] && (part[x].Some? ==> part[x].value in part)
  }

  /** In such a part a climb goes as in the whole, as long as it does not meet `id`. */
  lemma {:induction false} ClimbInPart(part: Parents, whole: Parents, start: Option<ItemId>, id: ItemId, n: nat)
    requires PartOf(part, whole, id) && (start.Some? ==> start.value in part)
    requires forall k: nat :: k < n ==> Climb(whole, start, k) != At(id)
    ensures Climb(part, start, n) == Climb(whole, start, n)
    ensures Climb(part, start, n).At? ==> Climb(part, start, n).id in part
    decreases n
  {
    if n > 0 {
      ClimbInPart(part, whole, start, id, n - 1);
    }
  }

  /** The steps from a rooted item to past its root. */
  ghost function Height(parents: Parents, id: ItemId): (h: nat)
    requires Rooted(parents, Some(id))
    ensures Climb(parents, Some(id), h) == Top
    ensures forall k: nat :: k < h ==> Climb(parents, Some(id), k) != Top
  {
    var n: nat :| Climb(parents, Some(id), n) == Top;
    FirstTop(parents, id, n)
  }

  ghost function FirstTop(parents: Parents, id: ItemId, n: nat): (h: nat)
    requires Climb(parents, Some(id), n) == Top
    ensures Climb(parents, Some(id), h) == Top
    ensures forall k: nat :: k < h ==> Climb(parents, Some(id), k) != Top
    decreases n
  {
    if k: nat :| k < n && Climb(parents, Some(id), k) == Top then FirstTop(parents, id, k) else n
  }

  /** A parent is lower than its children. */
  lemma ParentLower(parents: Parents, id: ItemId, parent: ItemId)
    requires id in parents && parents[id] == Some(parent) && Rooted(parents, Some(id))
    ensures Rooted(parents, Some(parent)) && Height(parents, parent) < Height(parents, id)
  {
    RootedOneUp(parents, id);
    var h := Height(parents, id);
    assert Climb(parents, Some(id), 0) == At(id);
    StartOneUp(parents, id, h - 1);
    assert Climb(parents, Some(parent), h - 1) == Top;
  }
}
