/** Batch positions sorted by item id (src/engine.cpp:1481-1508). */
module RadixSort {
  import opened DivisionFacts
  import opened Sequences
  import opened CountingSort

  const IDS: nat := 0x1_0000_0000_0000_0000

  /** The weight of byte `k`. */
  function Weight(k: nat): (w: nat)
    ensures w > 0
  {
    if k == 0 then 1 else 0x100 * Weight(k - 1)
  }

  /** Byte `k` of every id. */
  function Digits(ids: seq<nat>, k: nat): (r: seq<nat>)
    ensures |r| == |ids| && forall i :: 0 <= i < |ids| ==> r[i] < 0x100
  {
    seq(|ids|, i requires 0 <= i < |ids| => ids[i] / Weight(k) % 0x100)
  }

  /** Positions sorted by the lowest `k` bytes of their ids. */
  ghost predicate SortedLow(s: seq<nat>, ids: seq<nat>, k: nat) {
    && (forall i :: 0 <= i < |s| ==> s[i] < |ids|)
    && forall i, j :: 0 <= i < j < |s| ==> ids[s[i]] % Weight(k) <= ids[s[j]] % Weight(k)
  }

  /** The lowest `k + 1` bytes are byte `k` before the lowest `k`. */
  lemma LowBytes(id: nat, k: nat)
    ensures id % Weight(k + 1) == (id / Weight(k) % 0x100) * Weight(k) + id % Weight(k)
  {
    var w := Weight(k);
    var q := id / w;
    var high, digit, low := q / 0x100, q % 0x100, id % w;
    DivisionRule(id, w);
    TwoDigits(high, digit, w);
    RemainderOf(id, high, digit * w + low, 0x100 * w);
  }

  lemma TwoDigits(high: nat, digit: nat, w: nat)
    requires digit < 0x100
    ensures (high * 0x100 + digit) * w == high * (0x100 * w) + digit * w
    ensures digit * w + w <= 0x100 * w
    ensures digit * w >= 0
  {
    assert (0x100 - 1 - digit) * w >= 0;
  }

  /** A stable pass by byte `k` over positions sorted by the bytes below it. */
  lemma {:induction false} PassSorts(src: seq<nat>, ids: seq<nat>, k: nat, n: nat)
    requires SortedLow(src, ids, k) && n <= 0x100
    ensures SortedLow(Buckets(src, Digits(ids, k), n), ids, k + 1)
    ensures forall p :: p in Buckets(src, Digits(ids, k), n) ==> p in src && KeyOf(Digits(ids, k), p) < n
    decreases n
  {
    hide Buckets, InBucket, Weight;
    var key := Digits(ids, k);
    BucketsUnfold(src, key, n);
    if n > 0 {
      PassSorts(src, ids, k, n - 1);
      BucketSorted(src, ids, k, n - 1);
      InBucketMembers(src, key, n - 1);
      JoinSorts(Buckets(src, key, n - 1), InBucket(src, key, n - 1), ids, k, n - 1);
    }
  }

  /** A bucket keeps the order of its members. */
  lemma {:induction false} BucketSorted(src: seq<nat>, ids: seq<nat>, k: nat, b: nat)
    requires SortedLow(src, ids, k)
    ensures SortedLow(InBucket(src, Digits(ids, k), b), ids, k)
    decreases |src|
  {
    hide Weight, Digits;
    if src != [] {
      var last := |src| - 1;
      BucketSorted(src[..last], ids, k, b);
      InBucketMembers(src[..last], Digits(ids, k), b);
      AppendSorted(src, InBucket(src[..last], Digits(ids, k), b), ids, k);
    }
  }

  lemma AppendSorted(src: seq<nat>, r: seq<nat>, ids: seq<nat>, k: nat)
    requires src != [] && SortedLow(src, ids, k) && SortedLow(r, ids, k)
    requires forall p :: p in r ==> p in src[..|src| - 1]
    ensures SortedLow(r + [src[|src| - 1]], ids, k)
  {
    hide Weight;
    var last := |src| - 1;
    forall i | 0 <= i < |r|
      ensures ids[r[i]] % Weight(k) <= ids[src[last]] % Weight(k)
    {
      assert r[i] in r && r[i] in src[..last];
      var j :| 0 <= j < last && src[j] == r[i];
    }
  }

  lemma JoinSorts(below: seq<nat>, bucket: seq<nat>, ids: seq<nat>, k: nat, b: nat)
    requires SortedLow(below, ids, k + 1) && SortedLow(bucket, ids, k)
    requires forall p :: p in below ==> KeyOf(Digits(ids, k), p) < b
    requires forall p :: p in bucket ==> KeyOf(Digits(ids, k), p) == b
    ensures SortedLow(below + bucket, ids, k + 1)
  {
    hide Weight;
    var all := below + bucket;
    forall i, j | 0 <= i < j < |all|
      ensures ids[all[i]] % Weight(k + 1) <= ids[all[j]] % Weight(k + 1)
    {
      if j >= |below| {
        assert all[j] == bucket[j - |below|] && all[j] in bucket;
        if i < |below| {
          assert all[i] == below[i] && all[i] in below;
        } else {
          assert all[i] == bucket[i - |below|] && all[i] in bucket;
        }
        LowOrder(ids[all[i]], ids[all[j]], k);
      }
    }
  }

  lemma LowOrder(x: nat, y: nat, k: nat)
    requires var dx, dy := x / Weight(k) % 0x100, y / Weight(k) % 0x100;
             dx < dy || (dx == dy && x % Weight(k) <= y % Weight(k))
    ensures x % Weight(k + 1) <= y % Weight(k + 1)
  {
    hide Weight;
    LowBytes(x, k);
    LowBytes(y, k);
    DigitOrder(x / Weight(k) % 0x100, y / Weight(k) % 0x100, Weight(k));
  }

  lemma DigitOrder(dx: nat, dy: nat, w: nat)
    ensures dx < dy ==> dx * w + w <= dy * w
  {
    assert dy * w - dx * w == (dy - dx) * w;
    Scaled(dy - dx, w);
  }

  predicate SortedById(s: seq<nat>, ids: seq<nat>) {
    && (forall i :: 0 <= i < |s| ==> s[i] < |ids|)
    && forall i, j :: 0 <= i < j < |s| ==> ids[s[i]] <= ids[s[j]]
  }

  /** With distinct ids there is only one order by id, so every sort gives it. */
  lemma {:induction false} OneOrderById(a: seq<nat>, b: seq<nat>, ids: seq<nat>)
    requires SortedById(a, ids) && SortedById(b, ids) && multiset(a) == multiset(b)
    requires DistinctIds(a, ids)
    ensures a == b
    decreases |a|
  {
    hide SortedById, DistinctIds;
    assert |a| == |multiset(a)| == |multiset(b)| == |b|;
    if a != [] {
      var last := |a| - 1;
      SameGreatest(a, b, ids);
      SplitLast(a, ids);
      SplitLast(b, ids);
      OneOrderById(a[..last], b[..last], ids);
    }
  }

  predicate DistinctIds(s: seq<nat>, ids: seq<nat>) {
    && (forall i :: 0 <= i < |s| ==> s[i] < |ids|)
    && forall i, j :: 0 <= i < |s| && 0 <= j < |s| && ids[s[i]] == ids[s[j]] ==> s[i] == s[j]
  }

  lemma SplitLast(s: seq<nat>, ids: seq<nat>)
    requires s != []
    ensures var last := |s| - 1;
            s == s[..last] + [s[last]] && multiset(s[..last]) == multiset(s) - multiset{s[last]}
    ensures SortedById(s, ids) ==> SortedById(s[..|s| - 1], ids)
    ensures DistinctIds(s, ids) ==> DistinctIds(s[..|s| - 1], ids)
  {
    assert s == s[..|s| - 1] + [s[|s| - 1]];
  }

  lemma SameGreatest(a: seq<nat>, b: seq<nat>, ids: seq<nat>)
    requires SortedById(a, ids) && SortedById(b, ids) && multiset(a) == multiset(b) && a != [] && |a| == |b|
    requires DistinctIds(a, ids)
    ensures a[|a| - 1] == b[|b| - 1]
  {
    var x, y := a[|a| - 1], b[|b| - 1];
    assert x in multiset(a) && y in multiset(b);
    assert x in b && y in a;
    var i :| 0 <= i < |b| && b[i] == x;
    var j :| 0 <= j < |a| && a[j] == y;
  }

  /** The eight passes of `sortSnapshotPositionsById`, each into the other buffer. */
  method SortByRadix(positions: seq<nat>, ids: seq<nat>) returns (sorted: seq<nat>)
    requires forall i :: 0 <= i < |positions| ==> positions[i] < |ids|
    requires forall i :: 0 <= i < |ids| ==> ids[i] < IDS
    ensures multiset(sorted) == multiset(positions) && SortedById(sorted, ids)
  {
    var from := new nat[|positions|](i requires 0 <= i < |positions| => positions[i]);
    var scratch := new nat[|positions|](_ => 0);
    assert from[..] == positions;
    for k := 0 to 8
      invariant fresh(from) && fresh(scratch) && from != scratch && from.Length == scratch.Length == |positions|
      invariant multiset(from[..]) == multiset(positions) && SortedLow(from[..], ids, k)
    {
      hide Weight, Buckets, SortedLow;
      ghost var was := from[..];
      var digits := Digits(ids, k);
      SortedInRange(was, ids, k);
      var offsets := CountOffsets(from[..], digits, 0x100);
      Scatter(from[..], digits, 0x100, offsets, scratch);
      PassSorts(was, ids, k, 0x100);
      BucketsPermute(was, digits, 0x100);
      from, scratch := scratch, from;
    }
    sorted := from[..];
    EightBytes(sorted, ids);
  }

  lemma SortedInRange(s: seq<nat>, ids: seq<nat>, k: nat)
    requires SortedLow(s, ids, k)
    ensures forall p :: p in s ==> KeyOf(Digits(ids, k), p) < 0x100
  {
    hide Weight;
  }

  lemma EightBytes(s: seq<nat>, ids: seq<nat>)
    requires SortedLow(s, ids, 8) && forall i :: 0 <= i < |ids| ==> ids[i] < IDS
    ensures SortedById(s, ids)
  {
    hide Weight;
    FourBytes(0);
    FourBytes(4);
    FirstWeight();
    forall i | 0 <= i < |s|
      ensures ids[s[i]] % Weight(8) == ids[s[i]]
    {
      assert s[i] < |ids|;
    }
  }

  lemma FirstWeight()
    ensures Weight(0) == 1
  {
  }

  lemma FourBytes(k: nat)
    ensures Weight(k + 4) == 0x1_0000_0000 * Weight(k)
  {
    assert Weight(k + 2) == 0x100 * Weight(k + 1);
  }

  /** The sort of the short batches, of which only the outcome matters. */
  method SortByComparison(positions: seq<nat>, ids: seq<nat>) returns (sorted: seq<nat>)
    requires forall i :: 0 <= i < |positions| ==> positions[i] < |ids|
    ensures multiset(sorted) == multiset(positions) && SortedById(sorted, ids)
  {
    sorted := [];
    for i := 0 to |positions|
      invariant multiset(sorted) == multiset(positions[..i]) && SortedById(sorted, ids)
    {
      assert positions[..i + 1] == positions[..i] + [positions[i]];
      sorted := InsertById(sorted, ids, positions[i]);
    }
    assert positions[..|positions|] == positions;
  }

  method InsertById(sorted: seq<nat>, ids: seq<nat>, p: nat) returns (more: seq<nat>)
    requires SortedById(sorted, ids) && p < |ids|
    ensures multiset(more) == multiset(sorted) + multiset{p} && SortedById(more, ids)
  {
    var at: nat := |sorted|;
    while at > 0 && ids[sorted[at - 1]] > ids[p]
      invariant at <= |sorted|
      invariant forall j :: at <= j < |sorted| ==> ids[sorted[j]] > ids[p]
    {
      at := at - 1;
    }
    more := InsertAt(sorted, at, p);
    InsertedById(sorted, ids, at, p);
  }

  lemma InsertedById(sorted: seq<nat>, ids: seq<nat>, at: nat, p: nat)
    requires SortedById(sorted, ids) && p < |ids| && at <= |sorted|
    requires at > 0 ==> ids[sorted[at - 1]] <= ids[p]
    requires forall j :: at <= j < |sorted| ==> ids[sorted[j]] > ids[p]
    ensures multiset(InsertAt(sorted, at, p)) == multiset(sorted) + multiset{p}
    ensures SortedById(InsertAt(sorted, at, p), ids)
  {
    var more := InsertAt(sorted, at, p);
    Inserted(sorted, at, p);
    InsertedInOrder(sorted, ids, at, p, more);
  }

  lemma InsertedInOrder(sorted: seq<nat>, ids: seq<nat>, at: nat, p: nat, more: seq<nat>)
    requires SortedById(sorted, ids) && p < |ids| && at <= |sorted|
    requires at > 0 ==> ids[sorted[at - 1]] <= ids[p]
    requires forall j :: at <= j < |sorted| ==> ids[sorted[j]] > ids[p]
    requires |more| == |sorted| + 1
    requires forall i {:trigger more[i]} :: 0 <= i < |more| ==> more[i] == if i < at then sorted[i] else if i == at then p else sorted[i - 1]
    ensures SortedById(more, ids)
  {
    forall i | 0 <= i < |more|
      ensures more[i] < |ids| && (i < at ==> ids[more[i]] <= ids[p]) && (i > at ==> ids[more[i]] > ids[p])
    {
      if i < at {
        assert more[i] == sorted[i];
        assert ids[sorted[i]] <= ids[sorted[at - 1]];
      } else if i > at {
        assert more[i] == sorted[i - 1];
      }
    }
    forall i, j | 0 <= i < j < |more|
      ensures ids[more[i]] <= ids[more[j]]
    {
      if j < at {
        assert more[i] == sorted[i] && more[j] == sorted[j];
      } else if i > at {
        assert more[i] == sorted[i - 1];
        assert more[j] == sorted[j - 1];
      }
    }
  }

  lemma Inserted(s: seq<nat>, at: nat, p: nat)
    requires at <= |s|
    ensures multiset(InsertAt(s, at, p)) == multiset(s) + multiset{p}
    ensures var r := InsertAt(s, at, p);
            forall i {:trigger r[i]} :: 0 <= i < |r| ==> r[i] == if i < at then s[i] else if i == at then p else s[i - 1]
  {
    assert s == s[..at] + s[at..];
  }

  const COMPARISON_SORT_LIMIT := 64

  /** `sortSnapshotPositionsById`. */
  method SortPositionsById(positions: seq<nat>, ids: seq<nat>) returns (sorted: seq<nat>)
    requires forall i :: 0 <= i < |positions| ==> positions[i] < |ids|
    requires forall i :: 0 <= i < |ids| ==> ids[i] < IDS
    ensures multiset(sorted) == multiset(positions) && SortedById(sorted, ids)
  {
    if |positions| <= COMPARISON_SORT_LIMIT {
      sorted := SortByComparison(positions, ids);
    } else {
      sorted := SortByRadix(positions, ids);
    }
  }
}
