/** The Fenwick tree that hands out the free slots of a list being rebuilt
    (`FreeListSlotIndex`, src/engine.cpp:1327-1358). */
module FreeSlots {

  /** The lowest set bit of `i`, which the source computes as `i & (~i + 1)`. */
  function LowBit(i: nat): (b: nat)
    requires i > 0
    ensures 1 <= b <= i
  {
    if i % 2 == 1 then 1 else 2 * LowBit(i / 2)
  }

  function Pow2(k: nat): (p: nat)
    ensures p >= 1
  {
    if k == 0 then 1 else 2 * Pow2(k - 1)
  }

  /** Adding the lowest bit carries into a strictly higher one. */
  lemma {:induction false} LowBitCarries(i: nat)
    requires i > 0
    ensures LowBit(i + LowBit(i)) >= 2 * LowBit(i)
    ensures LowBit(i + LowBit(i)) <= i + LowBit(i)
  {
    if i % 2 == 0 {
      LowBitCarries(i / 2);
      assert (i + LowBit(i)) / 2 == i / 2 + LowBit(i / 2);
    }
  }

  /** Below its lowest bit a number can be changed without touching that bit. */
  lemma {:induction false} LowBitBetween(i: nat, d: nat)
    requires i > 0 && 0 < d < LowBit(i)
    ensures LowBit(i + d) == LowBit(d)
  {
    if d % 2 == 0 {
      LowBitBetween(i / 2, d / 2);
      assert (i + d) / 2 == i / 2 + d / 2;
    }
  }

  /** `i` is a multiple of `Pow2(k)`. */
  predicate Aligned(i: nat, k: nat) {
    k == 0 || (i % 2 == 0 && Aligned(i / 2, k - 1))
  }

  /** A power of two added to a multiple of its double is the lowest bit of the sum. */
  lemma {:induction false} LowBitOfStep(i: nat, k: nat)
    requires Aligned(i, k + 1)
    ensures LowBit(i + Pow2(k)) == Pow2(k)
    ensures Aligned(i, k) && Aligned(i + Pow2(k), k)
  {
    if k > 0 {
      LowBitOfStep(i / 2, k - 1);
      assert (i + Pow2(k)) / 2 == i / 2 + Pow2(k - 1);
    }
  }

  lemma {:induction false} ZeroAligned(k: nat)
    ensures Aligned(0, k)
  {
    if k > 0 {
      ZeroAligned(k - 1);
    }
  }

  /** How many of the slots `lo .. hi` are free. */
  function CountFree(slots: seq<bool>, lo: nat, hi: nat): (c: nat)
    requires lo <= hi <= |slots|
    ensures c <= hi - lo
    decreases hi
  {
    if lo == hi then 0 else CountFree(slots, lo, hi - 1) + if slots[hi - 1] then 1 else 0
  }

  lemma {:induction false} CountFreeSplit(slots: seq<bool>, lo: nat, mid: nat, hi: nat)
    requires lo <= mid <= hi <= |slots|
    ensures CountFree(slots, lo, hi) == CountFree(slots, lo, mid) + CountFree(slots, mid, hi)
    decreases hi
  {
    if mid < hi {
      CountFreeSplit(slots, lo, mid, hi - 1);
    }
  }

  lemma {:induction false} CountFreeTaken(slots: seq<bool>, k: nat, lo: nat, hi: nat)
    requires lo <= hi <= |slots| && k < |slots| && slots[k]
    ensures CountFree(slots[k := false], lo, hi)
         == CountFree(slots, lo, hi) - if lo <= k < hi then 1 else 0
    decreases hi
  {
    if lo < hi {
      CountFreeTaken(slots, k, lo, hi - 1);
    }
  }

  lemma {:induction false} CountFreeAll(slots: seq<bool>, lo: nat, hi: nat)
    requires lo <= hi <= |slots|
    requires forall i :: lo <= i < hi ==> slots[i]
    ensures CountFree(slots, lo, hi) == hi - lo
    decreases hi
  {
    if lo < hi {
      CountFreeAll(slots, lo, hi - 1);
    }
  }

  /** Node `i` of the tree covers the slots `i - LowBit(i) .. i`. */
  predicate Covers(i: nat, slot: nat)
    requires i > 0
  {
    i - LowBit(i) <= slot < i
  }

  /** The chain `i, i + LowBit(i), ...` misses no node that covers the slot. */
  lemma NextCover(i: nat, slot: nat)
    requires i > 0 && Covers(i, slot)
    ensures Covers(i + LowBit(i), slot)
    ensures forall j :: i < j < i + LowBit(i) ==> !Covers(j, slot)
  {
    LowBitCarries(i);
    forall j | i < j < i + LowBit(i)
      ensures !Covers(j, slot)
    {
      LowBitBetween(i, j - i);
    }
  }

  /** What node `i` has to hold: the number of free slots it covers. */
  function NodeSum(slots: seq<bool>, i: nat): nat
    requires 1 <= i <= |slots|
  {
    CountFree(slots, i - LowBit(i), i)
  }

  lemma NodeSumTaken(slots: seq<bool>, k: nat, i: nat)
    requires k < |slots| && slots[k] && 1 <= i <= |slots|
    ensures NodeSum(slots[k := false], i) == NodeSum(slots, i) - if Covers(i, k) then 1 else 0
  {
    CountFreeTaken(slots, k, i - LowBit(i), i);
  }

  /** Node `index + Pow2(k)` counts what a descent from `index` steps over. */
  lemma DescentStep(slots: seq<bool>, index: nat, k: nat)
    requires Aligned(index, k + 1) && index + Pow2(k) <= |slots|
    ensures CountFree(slots, 0, index + Pow2(k))
         == CountFree(slots, 0, index) + NodeSum(slots, index + Pow2(k))
  {
    LowBitOfStep(index, k);
    CountFreeSplit(slots, 0, index, index + Pow2(k));
  }

  /** The `order`-th free slot is not before `index` and not at or after `reach`. */
  ghost predicate Between(slots: seq<bool>, order: nat, index: nat, reach: nat) {
    && index <= |slots|
    && CountFree(slots, 0, index) < order
    && (reach <= |slots| ==> order <= CountFree(slots, 0, reach))
  }

  lemma OnTarget(slots: seq<bool>, order: nat, index: nat)
    requires Between(slots, order, index, index + 1) && order <= CountFree(slots, 0, |slots|)
    ensures index < |slots| && slots[index] && CountFree(slots, 0, index) == order - 1
  {
  }

  class FreeListSlotIndex {
    const tree: array<nat>
    /** Which slots are still free: the plain set the tree stands for. */
    ghost var slots: seq<bool>

    ghost predicate Valid()
      reads this, tree
    {
      && tree.Length == |slots| + 1
      && forall i :: 1 <= i < tree.Length ==> tree[i] == NodeSum(slots, i)
    }

    constructor (size: nat)
      ensures Valid() && fresh(tree)
      ensures slots == seq(size, _ => true)
    {
      tree := new nat[size + 1](_ => 0);
      slots := seq(size, _ => true);
      new;
      for i := 1 to tree.Length
        invariant slots == seq(size, _ => true)
        invariant forall j :: 1 <= j < i ==> tree[j] == NodeSum(slots, j)
      {
        CountFreeAll(slots, i - LowBit(i), i);
        tree[i] := LowBit(i);
      }
    }

    /** Takes the `order`-th free slot, counting from one. */
    method Take(order: nat) returns (index: nat)
      requires Valid()
      requires 1 <= order <= CountFree(slots, 0, |slots|)
      modifies this`slots, tree
      ensures Valid()
      ensures index < |slots| && old(slots)[index]
      ensures CountFree(old(slots), 0, index) == order - 1
      ensures slots == old(slots)[index := false]
    {
      index := Descend(order);
      ghost var was := slots;
      slots := slots[index := false];
      forall j | 1 <= j < tree.Length
        ensures NodeSum(slots, j) == NodeSum(was, j) - if Covers(j, index) then 1 else 0
      {
        NodeSumTaken(was, index, j);
      }
      var i := index + 1;
      while i < tree.Length
        invariant slots == was[index := false]
        invariant index + 1 <= i && Covers(i, index)
        invariant forall j :: 1 <= j < i && j < tree.Length ==> tree[j] == NodeSum(slots, j)
        invariant forall j :: i <= j < tree.Length ==> tree[j] == NodeSum(was, j)
        decreases tree.Length - i
      {
        tree[i] := tree[i] - 1;
        NextCover(i, index);
        i := i + LowBit(i);
      }
    }

    /** The greatest power of two below the length of the tree. */
    method TopStep() returns (step: nat, ghost bit: nat)
      requires tree.Length > 1
      ensures step == Pow2(bit) && step < tree.Length <= 2 * step
    {
      bit := 0;
      step := 1;
      while step * 2 < tree.Length
        invariant step == Pow2(bit) && step < tree.Length
        decreases tree.Length - step
      {
        step := step * 2;
        bit := bit + 1;
      }
    }

    /** The power-of-two descent: the last position with fewer than `order` free slots before it. */
    method Descend(order: nat) returns (index: nat)
      requires Valid()
      requires 1 <= order <= CountFree(slots, 0, |slots|)
      ensures index < |slots| && slots[index]
      ensures CountFree(slots, 0, index) == order - 1
    {
      hide CountFree, LowBit, NodeSum;
      var step: nat;
      ghost var bit: nat;
      step, bit := TopStep();
      index := 0;
      var rest := order;
      ZeroAligned(bit + 1);
      while step > 0
        invariant step > 0 ==> step == Pow2(bit) && Aligned(index, bit + 1)
        invariant Between(slots, order, index, index + if step == 0 then 1 else 2 * step)
        invariant rest == order - CountFree(slots, 0, index)
        decreases step
      {
        LowBitOfStep(index, bit);
        if index + step < tree.Length {
          DescentStep(slots, index, bit);
          if tree[index + step] < rest {
            rest := rest - tree[index + step];
            index := index + step;
          }
        }
        if bit > 0 {
          bit := bit - 1;
          assert step == 2 * Pow2(bit);
        }
        step := step / 2;
      }
      OnTarget(slots, order, index);
    }
  }
}
