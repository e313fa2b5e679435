/** Stable counting passes over an array: the step of the radix sort, and the way a batch's
    children are lined up by parent (src/engine.cpp:1481-1508, 1510-1540). */
module CountingSort {
  import opened Sequences

  /** The key of a position. */
  function KeyOf(key: seq<nat>, p: nat): nat {
    if p < |key| then key[p] else 0
  }

  /** The positions of `src` whose key is `b`, in order. */
  function InBucket(src: seq<nat>, key: seq<nat>, b: nat): (r: seq<nat>)
    ensures |r| <= |src|
  {
    if src == [] then []
    else
      var last := |src| - 1;
      InBucket(src[..last], key, b) + if KeyOf(key, src[last]) == b then [src[last]] else []
  }

  /** The positions with a key below `n`, bucket after bucket: what a stable sort by key gives. */
  function Buckets(src: seq<nat>, key: seq<nat>, n: nat): seq<nat> {
    if n == 0 then [] else Buckets(src, key, n - 1) + InBucket(src, key, n - 1)
  }

  lemma {:induction false} InBucketMembers(src: seq<nat>, key: seq<nat>, b: nat)
    ensures forall p :: p in InBucket(src, key, b) <==> p in src && KeyOf(key, p) == b
  {
    if src != [] {
      var last := |src| - 1;
      InBucketMembers(src[..last], key, b);
      assert src == src[..last] + [src[last]];
    }
  }

  /** Where bucket `b` begins. */
  function Start(src: seq<nat>, key: seq<nat>, b: nat): nat {
    |Buckets(src, key, b)|
  }

  lemma {:induction false} BucketsLonger(src: seq<nat>, key: seq<nat>, m: nat, n: nat)
    requires m <= n
    ensures |Buckets(src, key, m)| <= |Buckets(src, key, n)|
    ensures Buckets(src, key, n)[..|Buckets(src, key, m)|] == Buckets(src, key, m)
    decreases n
  {
    if m < n {
      BucketsLonger(src, key, m, n - 1);
    }
  }

  /** A bucket stands where its offset says. */
  lemma BucketAt(src: seq<nat>, key: seq<nat>, b: nat, n: nat)
    requires b < n
    ensures var lo, hi := |Buckets(src, key, b)|, |Buckets(src, key, b + 1)|;
            lo <= hi <= |Buckets(src, key, n)| && hi == lo + |InBucket(src, key, b)|
            && Buckets(src, key, n)[lo..hi] == InBucket(src, key, b)
  {
    BucketsLonger(src, key, b + 1, n);
    var lo, hi := |Buckets(src, key, b)|, |Buckets(src, key, b + 1)|;
    assert Buckets(src, key, n)[lo..hi] == Buckets(src, key, n)[..hi][lo..hi];
  }

  /** Stability: sorting by the key leaves the order within every bucket. */
  lemma {:induction false} BucketsStable(src: seq<nat>, key: seq<nat>, n: nat, b: nat)
    ensures InBucket(Buckets(src, key, n), key, b) == if b < n then InBucket(src, key, b) else []
    decreases n
  {
    hide InBucket, Buckets;
    BucketsUnfold(src, key, n);
    if n == 0 {
      InBucketOfOne([], key, b, b);
    } else {
      var below, mine := Buckets(src, key, n - 1), InBucket(src, key, n - 1);
      BucketsStable(src, key, n - 1, b);
      InBucketOfSum(below, mine, key, b);
      InBucketMembers(src, key, n - 1);
      InBucketOfOne(mine, key, n - 1, b);
      JoinNothing(InBucket(src, key, b));
    }
  }

  lemma JoinNothing(x: seq<nat>)
    ensures x + [] == x && [] + x == x
  {
  }

  lemma CountInSum(a: seq<nat>, b: seq<nat>, x: nat)
    ensures multiset(a + b)[x] == multiset(a)[x] + multiset(b)[x]
  {
  }

  lemma BucketsUnfold(src: seq<nat>, key: seq<nat>, n: nat)
    ensures Buckets(src, key, n) == if n == 0 then [] else Buckets(src, key, n - 1) + InBucket(src, key, n - 1)
  {
  }

  lemma {:induction false} InBucketOfSum(x: seq<nat>, y: seq<nat>, key: seq<nat>, b: nat)
    ensures InBucket(x + y, key, b) == InBucket(x, key, b) + InBucket(y, key, b)
    decreases |y|
  {
    if y == [] {
      assert x + y == x;
    } else {
      var last := |y| - 1;
      assert (x + y)[..|x + y| - 1] == x + y[..last];
      InBucketOfSum(x, y[..last], key, b);
    }
  }

  lemma {:induction false} InBucketOfOne(x: seq<nat>, key: seq<nat>, k: nat, b: nat)
    requires forall p :: p in x ==> KeyOf(key, p) == k
    ensures InBucket(x, key, b) == if b == k then x else []
    decreases |x|
  {
    if x != [] {
      var last := |x| - 1;
      assert x == x[..last] + [x[last]];
      InBucketOfOne(x[..last], key, k, b);
    }
  }

  lemma {:induction false} InBucketCount(src: seq<nat>, key: seq<nat>, b: nat, x: nat)
    ensures multiset(InBucket(src, key, b))[x] == if KeyOf(key, x) == b then multiset(src)[x] else 0
    decreases |src|
  {
    if src != [] {
      var last := |src| - 1;
      InBucketCount(src[..last], key, b, x);
      assert src == src[..last] + [src[last]];
      CountInSum(src[..last], [src[last]], x);
      CountInSum(InBucket(src[..last], key, b), if KeyOf(key, src[last]) == b then [src[last]] else [], x);
    }
  }

  lemma {:induction false} BucketsCount(src: seq<nat>, key: seq<nat>, n: nat, x: nat)
    ensures multiset(Buckets(src, key, n))[x] == if KeyOf(key, x) < n then multiset(src)[x] else 0
    decreases n
  {
    hide InBucket, Buckets;
    BucketsUnfold(src, key, n);
    if n > 0 {
      BucketsCount(src, key, n - 1, x);
      InBucketCount(src, key, n - 1, x);
      CountInSum(Buckets(src, key, n - 1), InBucket(src, key, n - 1), x);
    }
  }

  /** Nothing is lost or doubled. */
  lemma BucketsPermute(src: seq<nat>, key: seq<nat>, n: nat)
    requires forall p :: p in src ==> KeyOf(key, p) < n
    ensures multiset(Buckets(src, key, n)) == multiset(src)
  {
    forall x
      ensures multiset(Buckets(src, key, n))[x] == multiset(src)[x]
    {
      BucketsCount(src, key, n, x);
      assert x in multiset(src) <==> x in src;
    }
  }

  lemma InBucketNext(src: seq<nat>, i: nat, key: seq<nat>, b: nat)
    requires i < |src|
    ensures InBucket(src[..i + 1], key, b) == InBucket(src[..i], key, b) + if KeyOf(key, src[i]) == b then [src[i]] else []
  {
    assert src[..i + 1][..i] == src[..i];
  }

  /** How many of the first `i` positions fall in bucket `b`. */
  function Count(src: seq<nat>, i: nat, key: seq<nat>, b: nat): nat
    requires i <= |src|
  {
    |InBucket(src[..i], key, b)|
  }

  lemma CountNext(src: seq<nat>, i: nat, key: seq<nat>)
    requires i < |src|
    ensures forall b: nat :: Count(src, i + 1, key, b) == Count(src, i, key, b) + if KeyOf(key, src[i]) == b then 1 else 0
  {
    forall b: nat
      ensures Count(src, i + 1, key, b) == Count(src, i, key, b) + if KeyOf(key, src[i]) == b then 1 else 0
    {
      InBucketNext(src, i, key, b);
    }
  }

  lemma StartNext(src: seq<nat>, key: seq<nat>, b: nat)
    ensures Start(src, key, b + 1) == Start(src, key, b) + Count(src, |src|, key, b)
    ensures Start(src, key, 0) == 0
    ensures Count(src, 0, key, b) == 0
  {
    assert src[..|src|] == src;
  }

  /** Counts the keys and sums the counts up: `offsets[b]` is where bucket `b` begins. */
  method CountOffsets(src: seq<nat>, key: seq<nat>, n: nat) returns (offsets: array<nat>)
    requires forall p :: p in src ==> KeyOf(key, p) < n
    ensures fresh(offsets) && offsets.Length == n + 1
    ensures forall b :: 0 <= b <= n ==> offsets[b] == Start(src, key, b)
  {
    hide Start, Count;
    offsets := new nat[n + 1](_ => 0);
    forall b: nat
      ensures Count(src, 0, key, b) == 0
    {
      StartNext(src, key, b);
    }
    for i := 0 to |src|
      invariant offsets[0] == 0
      invariant forall c :: 1 <= c <= n ==> offsets[c] == Count(src, i, key, c - 1)
    {
      CountNext(src, i, key);
      assert src[i] in src;
      ghost var was := offsets[..];
      offsets[KeyOf(key, src[i]) + 1] := offsets[KeyOf(key, src[i]) + 1] + 1;
      forall c | 1 <= c <= n
        ensures offsets[c] == Count(src, i + 1, key, c - 1)
      {
        assert was[c] == Count(src, i, key, c - 1);
      }
    }
    StartNext(src, key, 0);
    for b := 1 to n + 1
      invariant forall c :: 0 <= c < b ==> offsets[c] == Start(src, key, c)
      invariant forall c :: b <= c <= n ==> offsets[c] == Count(src, |src|, key, c - 1)
    {
      StartNext(src, key, b - 1);
      offsets[b] := offsets[b] + offsets[b - 1];
    }
  }

  /** Bucket `b` holds its share of the first `i` positions, from its offset on. */
  ghost predicate Filled(src: seq<nat>, i: nat, key: seq<nat>, b: nat, next: nat, out: seq<nat>)
    requires i <= |src|
  {
    && next == Start(src, key, b) + Count(src, i, key, b)
    && Start(src, key, b) <= next <= Start(src, key, b + 1) <= |out|
    && out[Start(src, key, b)..next] == InBucket(src[..i], key, b)
  }

  lemma FilledAtStart(src: seq<nat>, key: seq<nat>, n: nat, b: nat, next: nat, out: seq<nat>)
    requires b < n && next == Start(src, key, b) && |out| == Start(src, key, n)
    ensures Filled(src, 0, key, b, next, out)
  {
    BucketAt(src, key, b, n);
  }

  lemma InBucketPrefix(src: seq<nat>, i: nat, key: seq<nat>, b: nat)
    requires i <= |src|
    ensures Count(src, i, key, b) <= |InBucket(src, key, b)|
    ensures i < |src| && KeyOf(key, src[i]) == b ==> Count(src, i, key, b) < |InBucket(src, key, b)|
  {
    assert src == src[..i] + src[i..];
    InBucketOfSum(src[..i], src[i..], key, b);
    if i < |src| && KeyOf(key, src[i]) == b {
      InBucketMembers(src[i..], key, b);
      assert src[i..][0] == src[i];
    }
  }

  /** The bucket that takes the next position. */
  lemma FilledNext(src: seq<nat>, i: nat, key: seq<nat>, n: nat, next: nat, out: seq<nat>)
    requires i < |src| && KeyOf(key, src[i]) < n && |out| == Start(src, key, n)
    requires Filled(src, i, key, KeyOf(key, src[i]), next, out)
    ensures next < Start(src, key, KeyOf(key, src[i]) + 1) <= |out|
    ensures Filled(src, i + 1, key, KeyOf(key, src[i]), next + 1, out[next := src[i]])
  {
    hide InBucket, Buckets;
    var b := KeyOf(key, src[i]);
    InBucketPrefix(src, i, key, b);
    BucketAt(src, key, b, n);
    InBucketNext(src, i, key, b);
    InBucketPrefix(src, i + 1, key, b);
    var lo := Start(src, key, b);
    assert out[next := src[i]][lo..next + 1] == out[lo..next] + [src[i]];
  }

  /** The other buckets, which the next position leaves alone. */
  lemma FilledStill(src: seq<nat>, i: nat, key: seq<nat>, c: nat, next: nat, out: seq<nat>, at: nat)
    requires i < |src| && KeyOf(key, src[i]) != c && Filled(src, i, key, c, next, out) && at < |out|
    requires Start(src, key, KeyOf(key, src[i])) <= at < Start(src, key, KeyOf(key, src[i]) + 1)
    ensures Filled(src, i + 1, key, c, next, out[at := src[i]])
  {
    hide InBucket, Buckets;
    var b, lo := KeyOf(key, src[i]), Start(src, key, c);
    InBucketNext(src, i, key, c);
    if c < b {
      BucketsLonger(src, key, c + 1, b);
    } else {
      BucketsLonger(src, key, b + 1, c);
    }
    assert out[at := src[i]][lo..next] == out[lo..next];
  }

  lemma {:induction false} FilledAtEnd(src: seq<nat>, key: seq<nat>, n: nat, next: seq<nat>, out: seq<nat>)
    requires |next| >= n && forall b :: 0 <= b < n ==> Filled(src, |src|, key, b, next[b], out)
    ensures Start(src, key, n) <= |out| && out[..Start(src, key, n)] == Buckets(src, key, n)
    decreases n
  {
    if n > 0 {
      FilledAtEnd(src, key, n - 1, next, out);
      assert Filled(src, |src|, key, n - 1, next[n - 1], out);
      assert src[..|src|] == src;
      var lo, hi := Start(src, key, n - 1), Start(src, key, n);
      assert out[..hi] == out[..lo] + out[lo..hi];
    }
  }

  /** Puts every position into the next free place of its bucket. `next` is used up. */
  method Scatter(src: seq<nat>, key: seq<nat>, n: nat, next: array<nat>, out: array<nat>)
    requires forall p :: p in src ==> KeyOf(key, p) < n
    requires next.Length >= n && out.Length == |src| && next != out
    requires forall b :: 0 <= b < n ==> next[b] == Start(src, key, b)
    modifies next, out
    ensures out[..] == Buckets(src, key, n)
  {
    hide Filled;
    BucketsPermute(src, key, n);
    assert |src| == |multiset(src)| == |multiset(Buckets(src, key, n))|;
    forall b | 0 <= b < n
      ensures Filled(src, 0, key, b, next[b], out[..])
    {
      FilledAtStart(src, key, n, b, next[b], out[..]);
    }
    for i := 0 to |src|
      invariant forall b :: 0 <= b < n ==> Filled(src, i, key, b, next[b], out[..])
    {
      assert src[i] in src;
      Place(src, i, key, n, next, out);
    }
    FilledAtEnd(src, key, n, next[..], out[..]);
    assert out[..] == out[..Start(src, key, n)];
  }

  method Place(src: seq<nat>, i: nat, key: seq<nat>, n: nat, next: array<nat>, out: array<nat>)
    requires i < |src| && KeyOf(key, src[i]) < n && next.Length >= n && out.Length == Start(src, key, n) && next != out
    requires forall b :: 0 <= b < n ==> Filled(src, i, key, b, next[b], out[..])
    modifies next, out
    ensures forall b :: 0 <= b < n ==> Filled(src, i + 1, key, b, next[b], out[..])
  {
    var bucket := KeyOf(key, src[i]);
    var at := next[bucket];
    FilledNext(src, i, key, n, at, out[..]);
    FilledFrom(src, i, key, bucket, at, out[..]);
    forall c | 0 <= c < n && c != bucket
      ensures Filled(src, i + 1, key, c, next[c], out[..][at := src[i]])
    {
      FilledStill(src, i, key, c, next[c], out[..], at);
    }
    hide Filled;
    ghost var was := out[..];
    out[at] := src[i];
    assert out[..] == was[at := src[i]];
    next[bucket] := at + 1;
  }

  lemma FilledFrom(src: seq<nat>, i: nat, key: seq<nat>, b: nat, next: nat, out: seq<nat>)
    requires i <= |src| && Filled(src, i, key, b, next, out)
    ensures Start(src, key, b) <= next
  {
  }
}
