/** Merging change sets (`ChangeSet::merge`, src/change.cpp:223-313). */
module Merges {
  import opened Wrappers
  import opened Values
  import opened Codec

  // ----- Operations -----

  /** Two updates of one column of one item, of one kind. */
  predicate SameColumn(a: Operation, b: Operation) {
    || (a.ColumnUpdated? && b.ColumnUpdated? && a.itemId == b.itemId && a.column == b.column)
    || (a.ComputedColumnUpdated? && b.ComputedColumnUpdated? && a.itemId == b.itemId && a.column == b.column)
  }

  /** The earlier update's old side and the later one's new side. */
  function Join(earlier: Operation, later: Operation): (r: Operation)
    requires SameColumn(earlier, later)
    ensures forall x :: SameColumn(x, r) == SameColumn(x, earlier)
  {
    if later.ColumnUpdated?
    then ColumnUpdated(later.itemId, later.column, earlier.oldValue, later.newValue, later.targetIndex, earlier.oldListIndex)
    else ComputedColumnUpdated(later.itemId, later.column, earlier.oldValue, later.newValue)
  }

  /** The first update of the same column, or the length. */
  function Find(ops: seq<Operation>, op: Operation): (r: nat)
    ensures r <= |ops|
    ensures r < |ops| ==> SameColumn(ops[r], op)
    ensures forall i :: 0 <= i < r ==> !SameColumn(ops[i], op)
  {
    if ops == [] || SameColumn(ops[0], op) then 0 else 1 + Find(ops[1..], op)
  }

  /** The merged operations so far, and where each source operation went. */
  datatype State = State(ops: seq<Operation>, index: seq<nat>)

  function Step(state: State, op: Operation): State {
    var at := Find(state.ops, op);
    State(if at < |state.ops| then state.ops[at := Join(state.ops[at], op)] else state.ops + [op], state.index + [at])
  }

  function MergeFrom(state: State, ops: seq<Operation>): State
    decreases |ops|
  {
    if ops == [] then state else MergeFrom(Step(state, ops[0]), ops[1..])
  }

  function MergeOps(ops: seq<Operation>): State {
    MergeFrom(State([], []), ops)
  }

  lemma {:induction false} MergeInTwo(state: State, a: seq<Operation>, b: seq<Operation>)
    ensures MergeFrom(state, a + b) == MergeFrom(MergeFrom(state, a), b)
    decreases |a|
  {
    if a == [] {
      assert a + b == b;
    } else {
      assert (a + b)[0] == a[0] && (a + b)[1..] == a[1..] + b;
      MergeInTwo(Step(state, a[0]), a[1..], b);
    }
  }

  /** Where earlier operations went does not matter to later ones. */
  lemma {:induction false} IndexOnly(ops: seq<Operation>, index: seq<nat>, more: seq<Operation>)
    ensures MergeFrom(State(ops, index), more).ops == MergeFrom(State(ops, []), more).ops
    ensures MergeFrom(State(ops, index), more).index == index + MergeFrom(State(ops, []), more).index
    decreases |more|
  {
    hide Step, MergeFrom;
    if more == [] {
      NoSteps(State(ops, index));
      NoSteps(State(ops, []));
      assert index + [] == index;
    } else {
      var t := Step(State(ops, []), more[0]);
      StepIndex(ops, index, more[0]);
      FirstStep(State(ops, index), more);
      FirstStep(State(ops, []), more);
      IndexOnly(t.ops, index + t.index, more[1..]);
      IndexOnly(t.ops, t.index, more[1..]);
      var rest := MergeFrom(State(t.ops, []), more[1..]).index;
      assert index + t.index + rest == index + (t.index + rest);
    }
  }

  lemma NoSteps(state: State)
    ensures MergeFrom(state, []) == state
  {
  }

  lemma FirstStep(state: State, ops: seq<Operation>)
    requires ops != []
    ensures MergeFrom(state, ops) == MergeFrom(Step(state, ops[0]), ops[1..])
  {
  }

  lemma StepIndex(ops: seq<Operation>, index: seq<nat>, op: Operation)
    ensures var t := Step(State(ops, []), op); Step(State(ops, index), op) == State(t.ops, index + t.index)
  {
  }

  ghost predicate NoTwoSame(ops: seq<Operation>) {
    forall i, j :: 0 <= i < j < |ops| ==> !SameColumn(ops[i], ops[j])
  }

  ghost predicate InRangeOf(index: seq<nat>, n: nat) {
    forall i :: 0 <= i < |index| ==> index[i] < n
  }

  lemma StepFacts(state: State, op: Operation)
    requires NoTwoSame(state.ops) && InRangeOf(state.index, |state.ops|)
    ensures var next := Step(state, op);
            && NoTwoSame(next.ops) && InRangeOf(next.index, |next.ops|) && |next.index| == |state.index| + 1
            && |state.ops| <= |next.ops| <= |state.ops| + 1
  {
    var at, next := Find(state.ops, op), Step(state, op);
    forall i, j | 0 <= i < j < |next.ops|
      ensures !SameColumn(next.ops[i], next.ops[j])
    {
      if at < |state.ops| {
        assert !SameColumn(state.ops[i], state.ops[j]);
      }
    }
  }

  lemma {:induction false} MergeFromFacts(state: State, ops: seq<Operation>)
    requires NoTwoSame(state.ops) && InRangeOf(state.index, |state.ops|)
    ensures var last := MergeFrom(state, ops);
            && NoTwoSame(last.ops) && InRangeOf(last.index, |last.ops|) && |last.index| == |state.index| + |ops|
            && |last.ops| <= |state.ops| + |ops|
    decreases |ops|
  {
    hide Step;
    if ops != [] {
      StepFacts(state, ops[0]);
      MergeFromFacts(Step(state, ops[0]), ops[1..]);
    }
  }

  /** The numbers below `n`. */
  function Straight(n: nat): (r: seq<nat>)
    ensures |r| == n && forall i :: 0 <= i < n ==> r[i] == i
  {
    if n == 0 then [] else Straight(n - 1) + [n - 1]
  }

  lemma NoneBefore(ops: seq<Operation>, k: nat)
    requires NoTwoSame(ops) && k < |ops|
    ensures Find(ops[..k], ops[k]) == k
  {
  }

  /** Operations that are merged already stay as they are. */
  lemma {:induction false} MergedStays(ops: seq<Operation>, k: nat)
    requires NoTwoSame(ops) && k <= |ops|
    ensures MergeFrom(State(ops[..k], Straight(k)), ops[k..]) == State(ops, Straight(|ops|))
    decreases |ops| - k
  {
    if k == |ops| {
      assert ops[..k] == ops && ops[k..] == [];
    } else {
      assert ops[k..][0] == ops[k] && ops[k..][1..] == ops[k + 1..];
      var at := Find(ops[..k], ops[k]);
      NoneBefore(ops, k);
      assert ops[..k] + [ops[k]] == ops[..k + 1];
      MergedStays(ops, k + 1);
    }
  }

  lemma MergedStaysWhole(ops: seq<Operation>)
    requires NoTwoSame(ops)
    ensures MergeOps(ops) == State(ops, Straight(|ops|))
  {
    assert ops[..0] == [] && ops[0..] == ops;
    MergedStays(ops, 0);
  }

  /** Merging a merged front part with what follows is merging all of it. */
  lemma MergeOpsAgain(a: seq<Operation>, b: seq<Operation>)
    ensures var m := MergeOps(a).ops;
            && MergeOps(m + b).ops == MergeOps(a + b).ops
            && MergeOps(m + b).index == Straight(|m|) + MergeFrom(State(m, []), b).index
            && MergeOps(a + b).index == MergeOps(a).index + MergeFrom(State(m, []), b).index
  {
    hide MergeFrom, Find;
    var m := MergeOps(a);
    MergeFromFacts(State([], []), a);
    MergeInTwo(State([], []), a, b);
    MergeInTwo(State([], []), m.ops, b);
    MergedStaysWhole(m.ops);
    IndexOnly(m.ops, m.index, b);
    IndexOnly(m.ops, Straight(|m.ops|), b);
  }

  // ----- Links -----

  datatype Pair = Pair(sourceOperation: nat, derivedOperation: nat)

  function Shifted(links: seq<Link>, offset: nat): (r: seq<Pair>)
    ensures |r| == |links|
  {
    seq(|links|, i requires 0 <= i < |links| => Pair(offset + links[i].sourceOperation, offset + links[i].derivedOperation))
  }

  ghost predicate PairsBelow(links: seq<Pair>, n: nat) {
    forall i :: 0 <= i < |links| ==> links[i].sourceOperation < n && links[i].derivedOperation < n
  }

  function Remap(links: seq<Pair>, index: seq<nat>): (r: seq<Pair>)
    requires PairsBelow(links, |index|)
    ensures |r| == |links|
  {
    seq(|links|, i requires 0 <= i < |links| => Pair(index[links[i].sourceOperation], index[links[i].derivedOperation]))
  }

  /** The links without repetitions, each where it comes first. */
  function Dedup(links: seq<Pair>): (r: seq<Pair>)
    ensures |r| <= |links|
    ensures forall x :: x in r <==> x in links
  {
    if links == [] then []
    else
      var last := |links| - 1;
      var front := Dedup(links[..last]);
      if links[last] in front then front else front + [links[last]]
  }

  lemma DedupLast(links: seq<Pair>, x: Pair)
    ensures Dedup(links + [x]) == if x in links then Dedup(links) else Dedup(links) + [x]
  {
    assert (links + [x])[..|links|] == links;
  }

  lemma {:induction false} DedupAgain(a: seq<Pair>, b: seq<Pair>)
    ensures Dedup(Dedup(a) + b) == Dedup(a + b)
    decreases |b|
  {
    hide Dedup;
    if b == [] {
      assert Dedup(a) + b == Dedup(a) && a + b == a;
      DedupTwice(a);
    } else {
      var last := |b| - 1;
      DedupAgain(a, b[..last]);
      assert Dedup(a) + b == Dedup(a) + b[..last] + [b[last]];
      assert a + b == a + b[..last] + [b[last]];
      DedupLast(Dedup(a) + b[..last], b[last]);
      DedupLast(a + b[..last], b[last]);
    }
  }

  lemma {:induction false} DedupTwice(a: seq<Pair>)
    ensures Dedup(Dedup(a)) == Dedup(a)
    decreases |a|
  {
    hide Dedup;
    if a == [] {
      DedupNothing();
    } else {
      var last := |a| - 1;
      DedupTwice(a[..last]);
      assert a == a[..last] + [a[last]];
      DedupLast(a[..last], a[last]);
      DedupLast(Dedup(a[..last]), a[last]);
    }
  }

  lemma DedupNothing()
    ensures Dedup([]) == []
  {
  }

  // ----- Change sets -----

  function AllOps(changes: seq<ChangeSet>): seq<Operation> {
    if changes == [] then [] else AllOps(changes[..|changes| - 1]) + changes[|changes| - 1].operations
  }

  function AllLinks(changes: seq<ChangeSet>): seq<Pair> {
    if changes == [] then []
    else
      var front := changes[..|changes| - 1];
      AllLinks(front) + Shifted(changes[|changes| - 1].derivedLinks, |AllOps(front)|)
  }

  /** Change sets whose links are in range, of a size that memory can hold. */
  ghost predicate Mergeable(changes: seq<ChangeSet>) {
    && (forall i :: 0 <= i < |changes| ==> changes[i].LinksInRange())
    && |AllOps(changes)| < SIZES
  }

  lemma {:induction false} AllLinksBelow(changes: seq<ChangeSet>)
    requires forall i :: 0 <= i < |changes| ==> changes[i].LinksInRange()
    ensures PairsBelow(AllLinks(changes), |AllOps(changes)|)
  {
    if changes != [] {
      var front, last := changes[..|changes| - 1], changes[|changes| - 1];
      AllLinksBelow(front);
      var shifted := Shifted(last.derivedLinks, |AllOps(front)|);
      forall i | 0 <= i < |shifted|
        ensures shifted[i].sourceOperation < |AllOps(changes)| && shifted[i].derivedOperation < |AllOps(changes)|
      {
        assert InRange(last.derivedLinks[i], |last.operations|);
      }
    }
  }

  function LinksFrom(pairs: seq<Pair>): (r: seq<Link>)
    requires PairsBelow(pairs, SIZES)
    ensures |r| == |pairs|
  {
    seq(|pairs|, i requires 0 <= i < |pairs| => Link(pairs[i].sourceOperation, pairs[i].derivedOperation))
  }

  ghost predicate Lawful(changes: seq<ChangeSet>) {
    && |MergeOps(AllOps(changes)).index| == |AllOps(changes)|
    && PairsBelow(AllLinks(changes), |AllOps(changes)|)
    && PairsBelow(MergedLinks(changes), |MergeOps(AllOps(changes)).ops|)
    && |MergeOps(AllOps(changes)).ops| <= |AllOps(changes)|
  }

  function MergedLinks(changes: seq<ChangeSet>): seq<Pair> {
    var index := MergeOps(AllOps(changes)).index;
    if PairsBelow'(AllLinks(changes), |index|) then Dedup(Remap(AllLinks(changes), index)) else []
  }

  predicate PairsBelow'(links: seq<Pair>, n: nat)
    ensures PairsBelow'(links, n) == PairsBelow(links, n)
  {
    forall i :: 0 <= i < |links| ==> links[i].sourceOperation < n && links[i].derivedOperation < n
  }

  /** Every link of the merged change set is in range. */
  lemma MergeIsLawful(changes: seq<ChangeSet>)
    requires Mergeable(changes)
    ensures Lawful(changes)
  {
    AllLinksBelow(changes);
    MergeFromFacts(State([], []), AllOps(changes));
    var index, n := MergeOps(AllOps(changes)).index, |MergeOps(AllOps(changes)).ops|;
    var mapped := Remap(AllLinks(changes), index);
    var links := Dedup(mapped);
    forall i | 0 <= i < |links|
      ensures links[i].sourceOperation < n && links[i].derivedOperation < n
    {
      assert links[i] in links && links[i] in mapped;
      var j :| 0 <= j < |mapped| && mapped[j] == links[i];
    }
  }

  /** `ChangeSet::merge`. */
  function Merge(changes: seq<ChangeSet>): ChangeSet
    requires Mergeable(changes)
  {
    MergeIsLawful(changes);
    ChangeSet(MergeOps(AllOps(changes)).ops, LinksFrom(MergedLinks(changes)))
  }

  lemma MergedInRange(changes: seq<ChangeSet>)
    requires Mergeable(changes)
    ensures Merge(changes).LinksInRange() && NoTwoSame(Merge(changes).operations)
    ensures forall i, j :: 0 <= i < j < |Merge(changes).derivedLinks| ==> Merge(changes).derivedLinks[i] != Merge(changes).derivedLinks[j]
  {
    MergeIsLawful(changes);
    MergeFromFacts(State([], []), AllOps(changes));
    var pairs := MergedLinks(changes);
    DedupDistinct(Remap(AllLinks(changes), MergeOps(AllOps(changes)).index));
    var links := LinksFrom(pairs);
    forall i, j | 0 <= i < j < |links|
      ensures links[i] != links[j]
    {
      assert pairs[i] != pairs[j];
    }
  }

  lemma {:induction false} DedupDistinct(links: seq<Pair>)
    ensures forall i, j :: 0 <= i < j < |Dedup(links)| ==> Dedup(links)[i] != Dedup(links)[j]
  {
    if links != [] {
      DedupDistinct(links[..|links| - 1]);
    }
  }

  /** Shifting by nothing gives the pairs back. */
  lemma PairsOfLinks(pairs: seq<Pair>)
    requires PairsBelow(pairs, SIZES)
    ensures Shifted(LinksFrom(pairs), 0) == pairs
  {
  }

  lemma RemapJoins(a: seq<Pair>, b: seq<Pair>, index: seq<nat>)
    requires PairsBelow(a + b, |index|)
    ensures PairsBelow(a, |index|) && PairsBelow(b, |index|)
    ensures Remap(a + b, index) == Remap(a, index) + Remap(b, index)
  {
    assert forall i :: 0 <= i < |a| ==> (a + b)[i] == a[i];
    assert forall i :: 0 <= i < |b| ==> (a + b)[|a| + i] == b[i];
  }

  /** Mapping by the longer index is, on the front, mapping by the shorter. */
  lemma RemapFront(links: seq<Pair>, index: seq<nat>, more: seq<nat>)
    requires PairsBelow(links, |index|)
    ensures PairsBelow(links, |index + more|) && Remap(links, index + more) == Remap(links, index)
  {
  }

  lemma RemapStraight(links: seq<Pair>, n: nat, more: seq<nat>)
    requires PairsBelow(links, n)
    ensures PairsBelow(links, |Straight(n) + more|) && Remap(links, Straight(n) + more) == links
  {
  }

  /** Shifted links find the same places behind any front. */
  lemma RemapShifted(links: seq<Link>, a: seq<nat>, b: seq<nat>, more: seq<nat>)
    requires forall i :: 0 <= i < |links| ==> InRange(links[i], |more|)
    ensures PairsBelow(Shifted(links, |a|), |a + more|) && PairsBelow(Shifted(links, |b|), |b + more|)
    ensures Remap(Shifted(links, |a|), a + more) == Remap(Shifted(links, |b|), b + more)
  {
    assert forall i :: 0 <= i < |links| ==> InRange(links[i], |more|);
  }

  /** Merging the merge of a front part with the next change set gives the merge of all. */
  lemma MergeIncrementally(front: seq<ChangeSet>, next: ChangeSet)
    requires Mergeable(front + [next]) && Mergeable(front)
    ensures Mergeable([Merge(front), next]) && Merge([Merge(front), next]) == Merge(front + [next])
  {
    hide Merge, MergeOps, Remap, Dedup, Shifted, MergeFrom;
    var all, m := front + [next], Merge(front);
    var a, b := AllOps(front), next.operations;
    assert all[..|all| - 1] == front && all[|all| - 1] == next;
    assert next.LinksInRange();
    MergeParts(front);
    TwoChangeSets(m, next);
    MergeOpsAgain(a, b);
    MergedInRange(front);
    MergeFromFacts(State([], []), a);
    MergeFromFacts(State(m.operations, []), b);
    assert Mergeable([m, next]) by {
      assert |m.operations| <= |a|;
    }
    MergeParts(all);
    MergeParts([m, next]);
    SameLinks(front, next, m);
  }

  lemma MergeParts(changes: seq<ChangeSet>)
    requires Mergeable(changes)
    ensures Lawful(changes)
    ensures Merge(changes) == ChangeSet(MergeOps(AllOps(changes)).ops, LinksFrom(MergedLinks(changes)))
    ensures |Merge(changes).operations| <= |AllOps(changes)|
    ensures MergedLinks(changes) == Dedup(Remap(AllLinks(changes), MergeOps(AllOps(changes)).index))
  {
    MergeIsLawful(changes);
  }

  lemma TwoChangeSets(m: ChangeSet, next: ChangeSet)
    ensures AllOps([m, next]) == m.operations + next.operations
    ensures AllLinks([m, next]) == Shifted(m.derivedLinks, 0) + Shifted(next.derivedLinks, |m.operations|)
  {
    assert [m, next][..1] == [m] && [m][..0] == [];
    assert AllOps([m]) == m.operations;
    assert AllLinks([m]) == Shifted(m.derivedLinks, 0);
  }

  lemma SameLinks(front: seq<ChangeSet>, next: ChangeSet, m: ChangeSet)
    requires Mergeable(front + [next]) && Mergeable(front) && Mergeable([m, next]) && m == Merge(front) && next.LinksInRange()
    ensures MergedLinks([m, next]) == MergedLinks(front + [next])
  {
    hide Merge, MergeOps, Remap, Dedup, Shifted, MergeFrom, MergedLinks;
    var all := front + [next];
    assert all[..|all| - 1] == front && all[|all| - 1] == next;
    var a, b := AllOps(front), next.operations;
    MergeParts(front);
    MergeParts(all);
    MergeParts([m, next]);
    TwoChangeSets(m, next);
    MergeOpsAgain(a, b);
    MergedInRange(front);
    MergeFromFacts(State(m.operations, []), b);
    var old_, more := MergeOps(a).index, MergeFrom(State(m.operations, []), b).index;
    var mine := MergedLinks(front);
    PairsOfLinks(mine);
    NextIndexes(next, more);
    RemapJoins(AllLinks(front), Shifted(next.derivedLinks, |a|), old_ + more);
    RemapJoins(mine, Shifted(next.derivedLinks, |m.operations|), Straight(|m.operations|) + more);
    RemapFront(AllLinks(front), old_, more);
    RemapStraight(mine, |m.operations|, more);
    RemapShifted(next.derivedLinks, old_, Straight(|m.operations|), more);
    DedupAgain(Remap(AllLinks(front), old_), Remap(Shifted(next.derivedLinks, |a|), old_ + more));
  }

  lemma NextIndexes(next: ChangeSet, more: seq<nat>)
    requires next.LinksInRange() && |more| == |next.operations|
    ensures forall i :: 0 <= i < |next.derivedLinks| ==> InRange(next.derivedLinks[i], |more|)
  {
  }

  /** Merging again changes nothing. */
  lemma MergeTwice(changes: seq<ChangeSet>)
    requires Mergeable(changes)
    ensures Mergeable([Merge(changes)]) && Merge([Merge(changes)]) == Merge(changes)
  {
    hide Merge, MergeOps, Remap, Dedup, Shifted, MergeFrom, MergedLinks;
    var m := Merge(changes);
    MergeParts(changes);
    MergedInRange(changes);
    OneChangeSet(m);
    MergedStaysWhole(m.operations);
    MergeParts([m]);
    var mine := MergedLinks(changes);
    PairsOfLinks(mine);
    assert Straight(|m.operations|) + [] == Straight(|m.operations|);
    RemapStraight(mine, |m.operations|, []);
    DedupTwice(Remap(AllLinks(changes), MergeOps(AllOps(changes)).index));
  }

  lemma OneChangeSet(m: ChangeSet)
    ensures AllOps([m]) == m.operations
    ensures AllLinks([m]) == Shifted(m.derivedLinks, 0)
  {
    assert [m][..0] == [];
  }

  // ----- Where operations and links end up -----

  /** Each source operation is in the merged one it is mapped to: itself, or one update of
      its column with those of the others. And every merged operation is one of some source. */
  ghost predicate Placed(state: State, source: seq<Operation>) {
    && |state.index| == |source|
    && (forall i :: 0 <= i < |source| ==>
          && state.index[i] < |state.ops|
          && if source[i].ColumnUpdated? || source[i].ComputedColumnUpdated? then SameColumn(state.ops[state.index[i]], source[i])
             else state.ops[state.index[i]] == source[i])
    && (forall m :: 0 <= m < |state.ops| ==> m in state.index)
  }

  lemma StepPlaces(state: State, source: seq<Operation>, op: Operation)
    requires Placed(state, source)
    ensures Placed(Step(state, op), source + [op])
  {
    var next, at := Step(state, op), Find(state.ops, op);
    forall m | 0 <= m < |next.ops|
      ensures m in next.index
    {
      assert next.index[|state.index|] == at;
      if m < |state.ops| {
        assert m in state.index;
        var i :| 0 <= i < |state.index| && state.index[i] == m;
        assert next.index[i] == m;
      }
    }
    forall i | 0 <= i < |source + [op]|
      ensures next.index[i] < |next.ops|
      ensures if (source + [op])[i].ColumnUpdated? || (source + [op])[i].ComputedColumnUpdated?
              then SameColumn(next.ops[next.index[i]], (source + [op])[i]) else next.ops[next.index[i]] == (source + [op])[i]
    {
      if i < |source| {
        assert next.index[i] == state.index[i] && (source + [op])[i] == source[i];
      }
    }
  }

  lemma {:induction false} RunPlaces(state: State, source: seq<Operation>, ops: seq<Operation>)
    requires Placed(state, source)
    ensures Placed(MergeFrom(state, ops), source + ops)
    decreases |ops|
  {
    hide Placed, Step;
    if ops == [] {
      assert source + ops == source;
    } else {
      StepPlaces(state, source, ops[0]);
      RunPlaces(Step(state, ops[0]), source + [ops[0]], ops[1..]);
      assert source + [ops[0]] + ops[1..] == source + ops;
    }
  }

  lemma MergedPlaces(ops: seq<Operation>)
    ensures Placed(MergeOps(ops), ops)
  {
    RunPlaces(State([], []), [], ops);
    assert [] + ops == ops;
  }

  /** How many operations come before a change set's own. */
  function StartOf(changes: seq<ChangeSet>, c: nat): nat
    requires c <= |changes|
  {
    if c == 0 then 0 else StartOf(changes, c - 1) + |changes[c - 1].operations|
  }

  lemma {:induction false} StartBefore(changes: seq<ChangeSet>, next: ChangeSet, c: nat)
    requires c <= |changes|
    ensures StartOf(changes + [next], c) == StartOf(changes, c)
  {
    if c > 0 {
      StartBefore(changes, next, c - 1);
    }
  }

  /** A change set's link, between places among all operations. */
  function LinkAt(changes: seq<ChangeSet>, c: nat, l: nat): Pair
    requires c < |changes| && l < |changes[c].derivedLinks|
  {
    var link := changes[c].derivedLinks[l];
    Pair(StartOf(changes, c) + link.sourceOperation, StartOf(changes, c) + link.derivedOperation)
  }

  /** A change set's operation among all of them. */
  lemma {:induction false} OperationStands(changes: seq<ChangeSet>, c: nat, i: nat)
    requires c < |changes| && i < |changes[c].operations|
    ensures StartOf(changes, c) + i < |AllOps(changes)| && AllOps(changes)[StartOf(changes, c) + i] == changes[c].operations[i]
    decreases |changes|
  {
    var n := |changes| - 1;
    var front, last := changes[..n], changes[n];
    assert changes == front + [last];
    AllOpsEnd(front);
    StartBefore(front, last, n);
    if c < n {
      OperationStands(front, c, i);
      StartBefore(front, last, c);
    }
  }

  lemma {:induction false} AllOpsEnd(changes: seq<ChangeSet>)
    ensures |AllOps(changes)| == StartOf(changes, |changes|)
    decreases |changes|
  {
    if changes != [] {
      var n := |changes| - 1;
      AllOpsEnd(changes[..n]);
      assert changes == changes[..n] + [changes[n]];
      StartBefore(changes[..n], changes[n], n);
    }
  }

  /** Every change set's links, and no others. */
  lemma {:induction false} AllStand(changes: seq<ChangeSet>)
    ensures forall c, l :: 0 <= c < |changes| && 0 <= l < |changes[c].derivedLinks| ==> LinkAt(changes, c, l) in AllLinks(changes)
    ensures forall p :: p in AllLinks(changes) ==>
              exists c, l :: 0 <= c < |changes| && 0 <= l < |changes[c].derivedLinks| && p == LinkAt(changes, c, l)
    decreases |changes|
  {
    if changes != [] {
      var n := |changes| - 1;
      var front, last := changes[..n], changes[n];
      assert changes == front + [last];
      hide StartOf, LinkAt, AllOps, AllLinks;
      AllStand(front);
      AllOpsEnd(front);
      StartBefore(front, last, n);
      forall c: nat, l: nat | c < n && l < |changes[c].derivedLinks|
        ensures LinkAt(changes, c, l) == LinkAt(front, c, l)
      {
        StartBefore(front, last, c);
        SameLink(changes, front, c, l);
      }
      LastStands(changes);
      forall p | p in AllLinks(changes)
        ensures exists c, l :: 0 <= c < |changes| && 0 <= l < |changes[c].derivedLinks| && p == LinkAt(changes, c, l)
      {
        if p in AllLinks(front) {
          var c, l :| 0 <= c < |front| && 0 <= l < |front[c].derivedLinks| && p == LinkAt(front, c, l);
          assert p == LinkAt(changes, c, l);
        } else {
          var l: nat :| l < |last.derivedLinks| && p == LinkAt(changes, n, l);
        }
      }
    }
  }

  lemma SameLink(a: seq<ChangeSet>, b: seq<ChangeSet>, c: nat, l: nat)
    requires c < |a| && c < |b| && a[c] == b[c] && l < |a[c].derivedLinks| && StartOf(a, c) == StartOf(b, c)
    ensures LinkAt(a, c, l) == LinkAt(b, c, l)
  {
  }

  lemma LastStands(changes: seq<ChangeSet>)
    requires changes != [] && |AllOps(changes[..|changes| - 1])| == StartOf(changes, |changes| - 1)
    ensures var n, last := |changes| - 1, changes[|changes| - 1];
            && (forall p :: p in AllLinks(changes[..n]) ==> p in AllLinks(changes))
            && (forall l: nat :: l < |last.derivedLinks| ==> LinkAt(changes, n, l) in AllLinks(changes))
            && forall p :: p in AllLinks(changes) ==> p in AllLinks(changes[..n]) || exists l: nat :: l < |last.derivedLinks| && p == LinkAt(changes, n, l)
  {
    var n, last := |changes| - 1, changes[|changes| - 1];
    var mine := Shifted(last.derivedLinks, |AllOps(changes[..n])|);
    assert AllLinks(changes) == AllLinks(changes[..n]) + mine;
    forall l: nat | l < |last.derivedLinks|
      ensures mine[l] == LinkAt(changes, n, l) && mine[l] in mine
    {
    }
    forall p | p in mine
      ensures exists l: nat :: l < |last.derivedLinks| && p == LinkAt(changes, n, l)
    {
      var l: nat :| l < |mine| && mine[l] == p;
    }
  }

  /** The merged links are those of the sources, each between the merged operations that its
      own two ends are in. */
  lemma MergedLinksMean(changes: seq<ChangeSet>)
    requires Mergeable(changes)
    ensures var merged := MergeOps(AllOps(changes));
            && merged.ops == Merge(changes).operations && Placed(merged, AllOps(changes))
            && (forall c, l :: 0 <= c < |changes| && 0 <= l < |changes[c].derivedLinks| ==>
                  var p := LinkAt(changes, c, l);
                  && p.sourceOperation < |merged.index| && p.derivedOperation < |merged.index|
                  && Mapped(p, merged.index) in MergedLinks(changes))
            && (forall q :: q in MergedLinks(changes) ==>
                  exists c, l :: 0 <= c < |changes| && 0 <= l < |changes[c].derivedLinks|
                    && LinkAt(changes, c, l).sourceOperation < |merged.index| && LinkAt(changes, c, l).derivedOperation < |merged.index|
                    && q == Mapped(LinkAt(changes, c, l), merged.index))
            && |Merge(changes).derivedLinks| == |MergedLinks(changes)|
            && forall i :: 0 <= i < |MergedLinks(changes)| ==>
                 && Merge(changes).derivedLinks[i].sourceOperation == MergedLinks(changes)[i].sourceOperation
                 && Merge(changes).derivedLinks[i].derivedOperation == MergedLinks(changes)[i].derivedOperation
  {
    hide LinkAt, AllOps, AllLinks, MergeOps, Placed, Dedup;
    MergeIsLawful(changes);
    MergedPlaces(AllOps(changes));
    AllStand(changes);
    var links, index := AllLinks(changes), MergeOps(AllOps(changes)).index;
    var mapped := Remap(links, index);
    forall p | p in links
      ensures p.sourceOperation < |index| && p.derivedOperation < |index| && Mapped(p, index) in mapped
    {
      var i :| 0 <= i < |links| && links[i] == p;
      assert mapped[i] == Mapped(p, index);
    }
    forall q | q in mapped
      ensures exists c, l :: 0 <= c < |changes| && 0 <= l < |changes[c].derivedLinks|
                && LinkAt(changes, c, l).sourceOperation < |index| && LinkAt(changes, c, l).derivedOperation < |index|
                && q == Mapped(LinkAt(changes, c, l), index)
    {
      var i :| 0 <= i < |mapped| && mapped[i] == q;
      assert links[i] in links;
    }
  }

  function Mapped(p: Pair, index: seq<nat>): Pair
    requires p.sourceOperation < |index| && p.derivedOperation < |index|
  {
    Pair(index[p.sourceOperation], index[p.derivedOperation])
  }

  // ----- What merged updates do -----

  /** What an update sets: a column of an item. */
  datatype Cell = Cell(itemId: uint64, column: ColumnHandle)

  predicate Updates(op: Operation) {
    op.ColumnUpdated? || op.ComputedColumnUpdated?
  }

  function CellOf(op: Operation): Cell
    requires Updates(op)
  {
    Cell(op.itemId, op.column)
  }

  /** The values after a stream of updates. */
  function After(ops: seq<Operation>, values: map<Cell, Value>): map<Cell, Value> {
    if ops == [] then values
    else
      var before := After(ops[..|ops| - 1], values);
      var op := ops[|ops| - 1];
      if Updates(op) then before[CellOf(op) := op.newValue] else before
  }

  lemma AfterOne(ops: seq<Operation>, op: Operation, values: map<Cell, Value>)
    ensures After(ops + [op], values) == if Updates(op) then After(ops, values)[CellOf(op) := op.newValue] else After(ops, values)
  {
    assert (ops + [op])[..|ops|] == ops;
  }

  /** The cells that operations update, each with its kind. */
  predicate SameKeys(a: Operation, b: Operation) {
    && a.ColumnUpdated? == b.ColumnUpdated? && a.ComputedColumnUpdated? == b.ComputedColumnUpdated?
    && (Updates(a) ==> CellOf(a) == CellOf(b))
  }

  /** What is merged updates only what some source operation updates, in the same way. */
  ghost predicate KeysFrom(ops: seq<Operation>, source: seq<Operation>) {
    forall i :: 0 <= i < |ops| ==> exists j :: 0 <= j < |source| && SameKeys(ops[i], source[j])
  }

  lemma StepKeys(state: State, source: seq<Operation>, op: Operation)
    requires KeysFrom(state.ops, source)
    ensures KeysFrom(Step(state, op).ops, source + [op]) && KeysFrom(state.ops + [op], source + [op])
  {
    var next, all := Step(state, op), source + [op];
    forall i | 0 <= i < |state.ops|
      ensures exists j :: 0 <= j < |all| && SameKeys(state.ops[i], all[j])
    {
      var j :| 0 <= j < |source| && SameKeys(state.ops[i], source[j]);
      assert all[j] == source[j];
    }
    assert all[|source|] == op && SameKeys(op, op);
    var at := Find(state.ops, op);
    forall i | 0 <= i < |next.ops|
      ensures exists j :: 0 <= j < |all| && SameKeys(next.ops[i], all[j])
    {
      if i == at {
        assert SameKeys(next.ops[i], all[|source|]);
      } else {
        assert next.ops[i] == state.ops[i];
      }
    }
  }

  // ----- When a merged stream has the effect of the stream -----

  /** An update of the cell, as a plain or as a computed column. */
  predicate Of(op: Operation, c: Cell, plain: bool) {
    Updates(op) && CellOf(op) == c && op.ColumnUpdated? == plain
  }

  /** Where the first such update is, or the length. */
  function FirstOf(ops: seq<Operation>, c: Cell, plain: bool): (r: nat)
    ensures r <= |ops| && (r < |ops| ==> Of(ops[r], c, plain))
    ensures forall i :: 0 <= i < r ==> !Of(ops[i], c, plain)
  {
    if ops == [] then 0
    else
      var last := |ops| - 1;
      var r := FirstOf(ops[..last], c, plain);
      if r < last then r else if Of(ops[last], c, plain) then last else |ops|
  }

  /** Just behind the last such update, or zero. */
  function EndOf(ops: seq<Operation>, c: Cell, plain: bool): (r: nat)
    ensures r <= |ops| && (r > 0 ==> Of(ops[r - 1], c, plain))
    ensures forall i :: r <= i < |ops| ==> !Of(ops[i], c, plain)
  {
    if ops == [] then 0
    else
      var last := |ops| - 1;
      if Of(ops[last], c, plain) then |ops| else EndOf(ops[..last], c, plain)
  }

  /** What the last such update sets the cell to. */
  function LastNew(ops: seq<Operation>, c: Cell, plain: bool): Option<Value> {
    var end := EndOf(ops, c, plain);
    if end == 0 then None else Some(ops[end - 1].newValue)
  }

  /** Where a cell is updated as both kinds: the kind that begins later also ends later, or
      both end with the same value. */
  predicate EndsAsBegun(ops: seq<Operation>, c: Cell) {
    EndOf(ops, c, true) > 0 && EndOf(ops, c, false) > 0 ==>
      || (FirstOf(ops, c, true) > FirstOf(ops, c, false) <==> EndOf(ops, c, true) > EndOf(ops, c, false))
      || LastNew(ops, c, true) == LastNew(ops, c, false)
  }

  /** The kind of the last update decides the value of a cell. */
  lemma {:induction false} AfterAt(ops: seq<Operation>, values: map<Cell, Value>, c: Cell)
    ensures Held(After(ops, values), c)
         == if EndOf(ops, c, true) == EndOf(ops, c, false) then Held(values, c)
            else LastNew(ops, c, EndOf(ops, c, true) > EndOf(ops, c, false))
    decreases |ops|
  {
    if ops != [] {
      AfterAt(ops[..|ops| - 1], values, c);
    }
  }

  /** What merging keeps of a cell: the last value of each kind, and which kind begins later. */
  ghost predicate KeptAt(merged: seq<Operation>, ops: seq<Operation>, c: Cell) {
    && LastNew(merged, c, true) == LastNew(ops, c, true) && LastNew(merged, c, false) == LastNew(ops, c, false)
    && (EndOf(ops, c, true) > 0 && EndOf(ops, c, false) > 0 ==>
          (EndOf(merged, c, true) > EndOf(merged, c, false) <==> FirstOf(ops, c, true) > FirstOf(ops, c, false)))
  }

  /** One update later. */
  lemma OneLater(ops: seq<Operation>, op: Operation, c: Cell, plain: bool)
    ensures EndOf(ops + [op], c, plain) == if Of(op, c, plain) then |ops| + 1 else EndOf(ops, c, plain)
    ensures LastNew(ops + [op], c, plain) == if Of(op, c, plain) then Some(op.newValue) else LastNew(ops, c, plain)
    ensures FirstOf(ops + [op], c, plain) ==
            if FirstOf(ops, c, plain) < |ops| then FirstOf(ops, c, plain) else if Of(op, c, plain) then |ops| else |ops| + 1
    ensures EndOf(ops, c, plain) > 0 <==> FirstOf(ops, c, plain) < |ops|
  {
    EndLater(ops, op, c, plain);
    LastLater(ops, op, c, plain);
    FirstLater(ops, op, c, plain);
    BeginsAndEnds(ops, c, plain);
    hide *;
  }

  lemma EndLater(ops: seq<Operation>, op: Operation, c: Cell, plain: bool)
    ensures EndOf(ops + [op], c, plain) == if Of(op, c, plain) then |ops| + 1 else EndOf(ops, c, plain)
  {
    hide Of;
    assert (ops + [op])[..|ops|] == ops;
  }

  lemma LastLater(ops: seq<Operation>, op: Operation, c: Cell, plain: bool)
    requires EndOf(ops + [op], c, plain) == if Of(op, c, plain) then |ops| + 1 else EndOf(ops, c, plain)
    ensures LastNew(ops + [op], c, plain) == if Of(op, c, plain) then Some(op.newValue) else LastNew(ops, c, plain)
  {
    hide EndOf;
    var end := EndOf(ops, c, plain);
    assert (ops + [op])[|ops|] == op && (end > 0 ==> (ops + [op])[end - 1] == ops[end - 1]);
  }

  lemma FirstLater(ops: seq<Operation>, op: Operation, c: Cell, plain: bool)
    ensures FirstOf(ops + [op], c, plain) ==
            if FirstOf(ops, c, plain) < |ops| then FirstOf(ops, c, plain) else if Of(op, c, plain) then |ops| else |ops| + 1
  {
    hide Of;
    assert (ops + [op])[..|ops|] == ops;
  }

  lemma BeginsAndEnds(ops: seq<Operation>, c: Cell, plain: bool)
    ensures EndOf(ops, c, plain) > 0 <==> FirstOf(ops, c, plain) < |ops|
  {
  }

  lemma EndIs(ops: seq<Operation>, c: Cell, plain: bool, r: nat)
    requires r <= |ops| && (r > 0 ==> Of(ops[r - 1], c, plain))
    requires forall i :: r <= i < |ops| ==> !Of(ops[i], c, plain)
    ensures EndOf(ops, c, plain) == r
  {
  }

  /** Writing an update into the place of the one before it of its column moves no last update. */
  lemma JoinedInPlace(ops: seq<Operation>, at: nat, op: Operation, c: Cell, plain: bool)
    requires NoTwoSame(ops) && at < |ops| && SameColumn(ops[at], op)
    ensures var joined := ops[at := Join(ops[at], op)];
            && EndOf(joined, c, plain) == EndOf(ops, c, plain)
            && LastNew(joined, c, plain) == (if Of(op, c, plain) then Some(op.newValue) else LastNew(ops, c, plain))
            && (Of(op, c, plain) ==> EndOf(ops, c, plain) > 0)
  {
    var joined := ops[at := Join(ops[at], op)];
    var end := EndOf(ops, c, plain);
    assert Of(joined[at], c, plain) == Of(ops[at], c, plain) == Of(op, c, plain);
    EndIs(joined, c, plain, end);
    assert Of(op, c, plain) ==> end == at + 1;
  }

  /** An update whose column is not merged yet is of a kind the cell has not had. */
  lemma NotYetOf(ops: seq<Operation>, op: Operation, c: Cell, plain: bool)
    requires Find(ops, op) == |ops| && Of(op, c, plain)
    ensures EndOf(ops, c, plain) == 0
  {
  }

  lemma StepKeepsAt(state: State, ops: seq<Operation>, op: Operation, c: Cell)
    requires NoTwoSame(state.ops) && KeptAt(state.ops, ops, c)
    ensures KeptAt(Step(state, op).ops, ops + [op], c)
  {
    hide EndOf, FirstOf, Of;
    var merged, at := state.ops, Find(state.ops, op);
    OneLater(ops, op, c, true);
    OneLater(ops, op, c, false);
    NotBoth(op, c);
    if at < |merged| {
      JoinedInPlace(merged, at, op, c, true);
      JoinedInPlace(merged, at, op, c, false);
    } else {
      OneLater(merged, op, c, true);
      OneLater(merged, op, c, false);
      if Of(op, c, true) {
        NotYetOf(merged, op, c, true);
      }
      if Of(op, c, false) {
        NotYetOf(merged, op, c, false);
      }
    }
  }

  lemma NotBoth(op: Operation, c: Cell)
    ensures !(Of(op, c, true) && Of(op, c, false))
  {
  }

  lemma {:induction false} MergedKeepsAt(ops: seq<Operation>, c: Cell)
    ensures KeptAt(MergeOps(ops).ops, ops, c)
    decreases |ops|
  {
    hide Step, KeptAt, MergeFrom;
    if ops == [] {
      MergeNothing();
      NothingKept(c);
    } else {
      var last := |ops| - 1;
      MergedKeepsAt(ops[..last], c);
      assert ops == ops[..last] + [ops[last]];
      LastStep(ops[..last], ops[last]);
      MergeFromFacts(State([], []), ops[..last]);
      StepKeepsAt(MergeOps(ops[..last]), ops[..last], ops[last], c);
    }
  }

  lemma NothingKept(c: Cell)
    ensures KeptAt([], [], c)
  {
  }

  /** A cell comes out of the merge with the value the stream gives it exactly when it ends
      as it has begun. */
  lemma EffectKeptAt(ops: seq<Operation>, values: map<Cell, Value>, c: Cell)
    ensures Held(After(MergeOps(ops).ops, values), c) == Held(After(ops, values), c) <==> EndsAsBegun(ops, c)
  {
    hide MergeFrom, After, FirstOf, Of, EndOf;
    var merged := MergeOps(ops).ops;
    MergedKeepsAt(ops, c);
    AfterAt(merged, values, c);
    AfterAt(ops, values, c);
    EndsDiffer(merged, c);
    EndsDiffer(ops, c);
  }

  lemma EndsDiffer(ops: seq<Operation>, c: Cell)
    ensures EndOf(ops, c, true) == EndOf(ops, c, false) ==> EndOf(ops, c, true) == 0
  {
  }

  /** A merged stream sets every cell to what the stream itself sets it to exactly when every
      cell ends as it has begun. */
  lemma EffectKept(ops: seq<Operation>, values: map<Cell, Value>)
    ensures After(MergeOps(ops).ops, values) == After(ops, values) <==> forall c :: EndsAsBegun(ops, c)
  {
    hide MergeFrom, After, EndsAsBegun;
    var a, b := After(MergeOps(ops).ops, values), After(ops, values);
    forall c
      ensures Held(a, c) == Held(b, c) <==> EndsAsBegun(ops, c)
    {
      EffectKeptAt(ops, values, c);
    }
    SameMaps(a, b);
  }

  lemma SameMaps(a: map<Cell, Value>, b: map<Cell, Value>)
    ensures a == b <==> forall c :: Held(a, c) == Held(b, c)
  {
    if forall c :: Held(a, c) == Held(b, c) {
      forall c
        ensures c in a <==> c in b
        ensures c in a ==> a[c] == b[c]
      {
        assert Held(a, c) == Held(b, c);
      }
      assert a == b;
    }
  }

  /** No column is updated both as a plain and as a computed one. */
  ghost predicate OneKindEach(ops: seq<Operation>) {
    forall i, j :: 0 <= i < |ops| && 0 <= j < |ops| && Updates(ops[i]) && Updates(ops[j]) && CellOf(ops[i]) == CellOf(ops[j]) ==>
      SameColumn(ops[i], ops[j])
  }

  /** Streams of one kind for each column always end as they have begun. */
  lemma OneKindKept(ops: seq<Operation>, values: map<Cell, Value>)
    requires OneKindEach(ops)
    ensures After(MergeOps(ops).ops, values) == After(ops, values)
  {
    EffectKept(ops, values);
    forall c
      ensures EndsAsBegun(ops, c)
    {
    }
  }

  lemma MergeNothing()
    ensures MergeOps([]) == State([], []) && KeysFrom([], [])
  {
  }

  lemma LastStep(ops: seq<Operation>, op: Operation)
    ensures MergeOps(ops + [op]) == Step(MergeOps(ops), op)
  {
    hide Step;
    MergeInTwo(State([], []), ops, [op]);
    assert [op][1..] == [];
  }

  /** The first update of a column keeps its old side: its old value and old position. */
  lemma {:induction false} OldSideKept(ops: seq<Operation>, first: nat)
    requires first < |ops| && Updates(ops[first])
    requires forall i :: 0 <= i < first ==> !SameColumn(ops[i], ops[first])
    ensures var m := MergeOps(ops); var at := m.index;
            && first < |at| && at[first] < |m.ops| && SameColumn(m.ops[at[first]], ops[first])
            && m.ops[at[first]].oldValue == ops[first].oldValue
            && (ops[first].ColumnUpdated? ==> m.ops[at[first]].oldListIndex == ops[first].oldListIndex)
    decreases |ops|
  {
    hide MergeFrom, KeysFrom;
    var last := |ops| - 1;
    var front := ops[..last];
    assert ops == front + [ops[last]];
    LastStep(front, ops[last]);
    MergeFromFacts(State([], []), front);
    if first < last {
      OldSideKept(front, first);
    } else {
      NotMergedYet(front, ops[last]);
    }
  }

  /** What no source operation updates, no merged one does. */
  lemma NotMergedYet(ops: seq<Operation>, op: Operation)
    requires forall i :: 0 <= i < |ops| ==> !SameColumn(ops[i], op)
    ensures Find(MergeOps(ops).ops, op) == |MergeOps(ops).ops|
  {
    MergedKeys(ops);
    var merged := MergeOps(ops).ops;
    forall i | 0 <= i < |merged|
      ensures !SameColumn(merged[i], op)
    {
      var j :| 0 <= j < |ops| && SameKeys(merged[i], ops[j]);
      KeysDecide(merged[i], ops[j], op);
    }
  }

  lemma KeysDecide(a: Operation, b: Operation, op: Operation)
    requires SameKeys(a, b)
    ensures SameColumn(a, op) == SameColumn(b, op)
  {
  }

  lemma {:induction false} MergedKeys(ops: seq<Operation>)
    ensures KeysFrom(MergeOps(ops).ops, ops)
    decreases |ops|
  {
    hide KeysFrom, Step, MergeFrom;
    if ops == [] {
      MergeNothing();
    } else {
      var last := |ops| - 1;
      MergedKeys(ops[..last]);
      assert ops == ops[..last] + [ops[last]];
      LastStep(ops[..last], ops[last]);
      StepKeys(MergeOps(ops[..last]), ops[..last], ops[last]);
    }
  }

  /** A column updated both as a plain and as a computed one comes out of the merge with
      another value. */
  lemma MixedKindsDiffer(column: ColumnHandle)
    ensures var ops := [ColumnUpdated(1, column, Null, Bool(false), None, None),
                        ComputedColumnUpdated(1, column, Bool(false), Null),
                        ColumnUpdated(1, column, Null, Bool(true), None, None)];
            && After(ops, map[]) == map[Cell(1, column) := Bool(true)]
            && After(MergeOps(ops).ops, map[]) == map[Cell(1, column) := Null]
  {
    hide MergeOps, After;
    var a, b, c := ColumnUpdated(1, column, Null, Bool(false), None, None),
                   ComputedColumnUpdated(1, column, Bool(false), Null),
                   ColumnUpdated(1, column, Null, Bool(true), None, None);
    ThirdJoinsFirst(a, b, c);
    var joined := ColumnUpdated(1, column, Null, Bool(true), None, None);
    assert [] + [a] == [a] && [a] + [b] == [a, b] && [a, b] + [c] == [a, b, c];
    assert [] + [joined] == [joined] && [joined] + [b] == [joined, b];
    AfterNothing();
    AfterOne([], a, map[]);
    AfterOne([a], b, map[]);
    AfterOne([a, b], c, map[]);
    AfterOne([], joined, map[]);
    AfterOne([joined], b, map[]);
  }

  lemma AfterNothing()
    ensures After([], map[]) == map[]
  {
  }

  lemma ThirdJoinsFirst(a: Operation, b: Operation, c: Operation)
    requires SameColumn(a, c) && !SameColumn(a, b)
    ensures MergeOps([a, b, c]).ops == [Join(a, c), b]
  {
    hide Join, SameColumn;
    LastStep([], a);
    LastStep([a], b);
    LastStep([a, b], c);
    assert [] + [a] == [a] && [a] + [b] == [a, b] && [a, b] + [c] == [a, b, c];
    assert MergeOps([a]).ops == [a];
    assert Find([a], b) == 1;
    assert MergeOps([a, b]).ops == [a, b];
    assert Find([a, b], c) == 0;
  }

  // ----- The loops -----

  /** `find_if` over the merged operations. */
  method FindMerged(ops: seq<Operation>, op: Operation) returns (at: nat)
    ensures at == Find(ops, op)
  {
    at := 0;
    assert ops[0..] == ops;
    while at < |ops| && !SameColumn(ops[at], op)
      invariant at <= |ops| && Find(ops, op) == at + Find(ops[at..], op)
    {
      assert ops[at..][1..] == ops[at + 1..];
      at := at + 1;
    }
  }

  /** All operations and links, the links moved behind the operations that came before. */
  method Flatten(changes: seq<ChangeSet>) returns (ops: seq<Operation>, links: seq<Pair>)
    ensures ops == AllOps(changes) && links == AllLinks(changes)
  {
    ops, links := [], [];
    for i := 0 to |changes|
      invariant ops == AllOps(changes[..i]) && links == AllLinks(changes[..i])
    {
      assert changes[..i + 1][..i] == changes[..i];
      var operationOffset := |ops|;
      ops := ops + changes[i].operations;
      for j := 0 to |changes[i].derivedLinks|
        invariant links == AllLinks(changes[..i]) + Shifted(changes[i].derivedLinks, operationOffset)[..j]
      {
        var link := changes[i].derivedLinks[j];
        links := links + [Pair(operationOffset + link.sourceOperation, operationOffset + link.derivedOperation)];
      }
    }
    assert changes[..|changes|] == changes;
  }

  method MergeOperations(ops: seq<Operation>) returns (merged: seq<Operation>, index: seq<nat>)
    ensures State(merged, index) == MergeOps(ops)
  {
    hide MergeFrom;
    merged, index := [], [];
    NoSteps(State([], []));
    for sourceIndex := 0 to |ops|
      invariant State(merged, index) == MergeOps(ops[..sourceIndex])
    {
      var op := ops[sourceIndex];
      assert ops[..sourceIndex + 1] == ops[..sourceIndex] + [op];
      LastStep(ops[..sourceIndex], op);
      var at := FindMerged(merged, op);
      if at < |merged| {
        merged := merged[at := Join(merged[at], op)];
      } else {
        merged := merged + [op];
      }
      index := index + [at];
    }
    assert ops[..|ops|] == ops;
  }

  /** The links where their operations went, each added once. */
  method AddLinks(links: seq<Pair>, index: seq<nat>) returns (merged: seq<Pair>)
    requires PairsBelow(links, |index|)
    ensures merged == Dedup(Remap(links, index))
  {
    hide Dedup;
    merged := [];
    var added: set<Pair> := {};
    DedupNothing();
    for i := 0 to |links|
      invariant merged == Dedup(Remap(links, index)[..i]) && forall x :: x in added <==> x in Remap(links, index)[..i]
    {
      var link := Pair(index[links[i].sourceOperation], index[links[i].derivedOperation]);
      assert Remap(links, index)[..i + 1] == Remap(links, index)[..i] + [link];
      DedupLast(Remap(links, index)[..i], link);
      if link !in added {
        added := added + {link};
        merged := merged + [link];
      }
    }
    assert Remap(links, index)[..|links|] == Remap(links, index);
  }

  method MergeChangeSets(changes: seq<ChangeSet>) returns (merged: ChangeSet)
    requires Mergeable(changes)
    ensures merged == Merge(changes)
  {
    hide MergeOps, Merge, MergedLinks, Remap, Dedup;
    MergeParts(changes);
    var ops, links := Flatten(changes);
    var mergedOps, index := MergeOperations(ops);
    var mergedLinks := AddLinks(links, index);
    merged := ChangeSet(mergedOps, LinksFrom(mergedLinks));
  }
}
