/** The store's scalar values and their order (`compareValues`, src/engine.cpp:138-159). */
module Values {
  type byte = x: int | 0 <= x < 0x100
  type uint32 = x: int | 0 <= x < 0x1_0000_0000
  type uint64 = x: int | 0 <= x < 0x1_0000_0000_0000_0000
  type int64 = x: int | -0x8000_0000_0000_0000 <= x < 0x8000_0000_0000_0000

  /** No buffer is longer than a 64-bit size can say. */
  type Bytes = s: seq<byte> | |s| < 0x1_0000_0000_0000_0000

  /** A double is its 64-bit pattern. */
  datatype Value =
    | Null
    | Bool(flag: bool)
    | Int64(signed: int64)
    | UInt64(unsigned: uint64)
    | Double(bits: uint64)
    | String(chars: Bytes)
    | Binary(bytes: Bytes)

  /** The position of the value's type among the types. */
  function Tag(v: Value): (t: byte)
    ensures t <= 6
  {
    match v
    case Null => 0
    case Bool(_) => 1
    case Int64(_) => 2
    case UInt64(_) => 3
    case Double(_) => 4
    case String(_) => 5
    case Binary(_) => 6
  }

  /** Where a pattern stands among the doubles: negative ones count down from zero. */
  function DoubleRank(bits: uint64): int {
    if bits < 0x8000_0000_0000_0000 then bits else 0x8000_0000_0000_0000 - 1 - bits
  }

  predicate BytesLess(a: seq<byte>, b: seq<byte>) {
    if b == [] then false
    else if a == [] then true
    else a[0] < b[0] || (a[0] == b[0] && BytesLess(a[1..], b[1..]))
  }

  /** `a < b` on two values of one type. */
  predicate PayloadLess(a: Value, b: Value)
    requires Tag(a) == Tag(b)
  {
    match a
    case Null => false
    case Bool(x) => !x && b.flag
    case Int64(x) => x < b.signed
    case UInt64(x) => x < b.unsigned
    case Double(x) => DoubleRank(x) < DoubleRank(b.bits)
    case String(x) => BytesLess(x, b.chars)
    case Binary(x) => BytesLess(x, b.bytes)
  }

  /** Equal values first, then the types, then the payloads. */
  function Compare(a: Value, b: Value): int {
    if a == b then 0
    else if Tag(a) != Tag(b) then if Tag(a) < Tag(b) then -1 else 1
    else if PayloadLess(a, b) then -1 else 1
  }

  predicate Less(a: Value, b: Value) {
    Compare(a, b) < 0
  }

  /** The comparisons of a filter. */
  datatype Operator = EqualTo | NotEqualTo | GreaterThan | LessThan | AtLeast | AtMost

  /** `comparePredicate`. */
  predicate Satisfies(a: Value, op: Operator, b: Value) {
    match op
    case EqualTo => Compare(a, b) == 0
    case NotEqualTo => Compare(a, b) != 0
    case GreaterThan => Compare(a, b) > 0
    case LessThan => Compare(a, b) < 0
    case AtLeast => Compare(a, b) >= 0
    case AtMost => Compare(a, b) <= 0
  }

  lemma {:induction false} BytesTotal(a: seq<byte>, b: seq<byte>)
    ensures !(BytesLess(a, b) && BytesLess(b, a))
    ensures BytesLess(a, b) || BytesLess(b, a) <==> a != b
  {
    if a != [] && b != [] {
      BytesTotal(a[1..], b[1..]);
      if a[0] == b[0] {
        assert a == [a[0]] + a[1..] && b == [b[0]] + b[1..];
      }
    }
  }

  lemma {:induction false} BytesTransitive(a: seq<byte>, b: seq<byte>, c: seq<byte>)
    requires BytesLess(a, b) && BytesLess(b, c)
    ensures BytesLess(a, c)
  {
    if a != [] && b != [] && c != [] && a[0] == b[0] == c[0] {
      BytesTransitive(a[1..], b[1..], c[1..]);
    }
  }

  lemma CompareTotal(a: Value, b: Value)
    ensures Compare(a, b) == 0 <==> a == b
    ensures Compare(a, b) == -Compare(b, a)
  {
    match a
    case String(x) => if b.String? { BytesTotal(x, b.chars); }
    case Binary(x) => if b.Binary? { BytesTotal(x, b.bytes); }
    case _ =>
  }

  lemma CompareTransitive(a: Value, b: Value, c: Value)
    requires Less(a, b) && Less(b, c)
    ensures Less(a, c)
  {
    CompareTotal(a, c);
    CompareTotal(a, b);
    match a
    case String(x) => if b.String? && c.String? { BytesTransitive(x, b.chars, c.chars); }
    case Binary(x) => if b.Binary? && c.Binary? { BytesTransitive(x, b.bytes, c.bytes); }
    case _ =>
  }

  /** The types, least first, and each type's own order. */
  lemma LessMeans(b: bool, c: bool, i: int64, j: int64, u: uint64, v: uint64, x: uint64, y: uint64, s: Bytes, t: Bytes)
    ensures Less(Null, Bool(b)) && Less(Bool(b), Int64(i)) && Less(Int64(i), UInt64(u)) && Less(UInt64(u), Double(x))
    ensures Less(Double(x), String(s)) && Less(String(s), Binary(t))
    ensures Less(Bool(b), Bool(c)) <==> !b && c
    ensures Less(Int64(i), Int64(j)) <==> i < j
    ensures Less(UInt64(u), UInt64(v)) <==> u < v
    ensures Less(Double(x), Double(y)) <==>
              if x < 0x8000_0000_0000_0000 then y < 0x8000_0000_0000_0000 && x < y else y < 0x8000_0000_0000_0000 || x > y
    ensures Less(String(s), String(t)) <==> exists k :: ByteDiffersFirstAt(s, t, k)
    ensures Less(Binary(s), Binary(t)) <==> exists k :: ByteDiffersFirstAt(s, t, k)
  {
    BytesTotal(s, t);
    BytesLessIff(s, t);
  }

  /** The bytes are less at position `k`, the first where they differ, or end there. */
  ghost predicate ByteDiffersFirstAt(a: seq<byte>, b: seq<byte>, k: nat) {
    k <= |a| && k < |b| && (forall j :: 0 <= j < k ==> a[j] == b[j]) && (k < |a| ==> a[k] < b[k])
  }

  lemma {:induction false} BytesLessIff(a: seq<byte>, b: seq<byte>)
    ensures BytesLess(a, b) <==> exists k: nat :: ByteDiffersFirstAt(a, b, k)
  {
    if a == [] || b == [] {
      assert b != [] ==> ByteDiffersFirstAt(a, b, 0);
    } else {
      BytesLessIff(a[1..], b[1..]);
      if a[0] < b[0] {
        assert ByteDiffersFirstAt(a, b, 0);
      } else if a[0] == b[0] && BytesLess(a[1..], b[1..]) {
        var k: nat :| ByteDiffersFirstAt(a[1..], b[1..], k);
        assert forall j :: 0 < j < k + 1 ==> a[j] == a[1..][j - 1] && b[j] == b[1..][j - 1];
        assert ByteDiffersFirstAt(a, b, k + 1);
      }
      if k: nat :| ByteDiffersFirstAt(a, b, k) && k > 0 {
        assert forall j :: 0 <= j < k - 1 ==> a[1..][j] == a[j + 1] && b[1..][j] == b[j + 1];
        assert ByteDiffersFirstAt(a[1..], b[1..], k - 1);
      }
    }
  }

  /** Each comparison by what it compares: on values of the order, numbers among them. */
  lemma OperatorsMean(a: Value, b: Value, i: int64, j: int64)
    ensures Satisfies(a, EqualTo, b) <==> a == b
    ensures Satisfies(a, NotEqualTo, b) <==> a != b
    ensures Satisfies(a, LessThan, b) <==> Less(a, b)
    ensures Satisfies(a, GreaterThan, b) <==> Less(b, a)
    ensures Satisfies(a, AtMost, b) <==> a == b || Less(a, b)
    ensures Satisfies(a, AtLeast, b) <==> a == b || Less(b, a)
    ensures Satisfies(Int64(i), LessThan, Int64(j)) <==> i < j
    ensures Satisfies(Int64(i), GreaterThan, Int64(j)) <==> i > j
    ensures Satisfies(Int64(i), AtMost, Int64(j)) <==> i <= j
    ensures Satisfies(Int64(i), AtLeast, Int64(j)) <==> i >= j
  {
    CompareTotal(a, b);
  }

  /** The values are strictly and totally ordered. */
  lemma ValueOrder()
    ensures forall a :: !Less(a, a)
    ensures forall a, b :: Less(a, b) || Less(b, a) || a == b
    ensures forall a, b :: Less(a, b) ==> !Less(b, a)
    ensures forall a, b, c :: Less(a, b) && Less(b, c) ==> Less(a, c)
  {
    forall a, b
      ensures Less(a, b) || Less(b, a) || a == b
      ensures Less(a, b) ==> !Less(b, a)
    {
      CompareTotal(a, b);
    }
    forall a, b, c | Less(a, b) && Less(b, c)
      ensures Less(a, c)
    {
      CompareTransitive(a, b, c);
    }
  }
}
