/** The bytes of a change set, and what reading them gives (src/change_log.cpp). Printing
    takes what comes after, and parsing gives what is left. */
module Codec {
  import opened Wrappers
  import opened Values

  datatype Parsed<+T> = Parsed(value: T, rest: seq<byte>)

  const SIZES: nat := 0x1_0000_0000_0000_0000

  // ----- Numbers -----

  function EmitByte(b: byte, rest: seq<byte>): seq<byte> {
    [b] + rest
  }

  function ParseByte(s: seq<byte>): Option<Parsed<byte>> {
    if s == [] then None else Some(Parsed(s[0], s[1..]))
  }

  function EmitBool(b: bool, rest: seq<byte>): seq<byte> {
    EmitByte(if b then 1 else 0, rest)
  }

  function ParseBool(s: seq<byte>): Option<Parsed<bool>> {
    var Parsed(b, s1) :- ParseByte(s);
    if b > 1 then None else Some(Parsed(b == 1, s1))
  }

  /** 256 to the `n`. */
  function Bound(n: nat): (r: nat)
    ensures r > 0
  {
    if n == 0 then 1 else 0x100 * Bound(n - 1)
  }

  /** `n` bytes, low ones first. */
  function EmitUInt(v: nat, n: nat, rest: seq<byte>): seq<byte> {
    if n == 0 then rest else [v % 0x100] + EmitUInt(v / 0x100, n - 1, rest)
  }

  function ParseUInt(s: seq<byte>, n: nat): (r: Option<Parsed<nat>>)
    ensures r.Some? ==> r.value.value < Bound(n)
    decreases n
  {
    if n == 0 then Some(Parsed(0, s))
    else
      var Parsed(low, s1) :- ParseByte(s);
      var Parsed(high, s2) :- ParseUInt(s1, n - 1);
      Some(Parsed(low + 0x100 * high, s2))
  }

  lemma Bounds()
    ensures Bound(4) == 0x1_0000_0000 && Bound(8) == SIZES
  {
    assert Bound(2) == 0x1_0000;
    assert Bound(4) == 0x1_0000_0000;
    assert Bound(6) == 0x1_0000_0000_0000;
  }

  lemma {:induction false} UIntForth(v: nat, n: nat, rest: seq<byte>)
    requires v < Bound(n)
    ensures ParseUInt(EmitUInt(v, n, rest), n) == Some(Parsed(v, rest))
    decreases n
  {
    if n > 0 {
      UIntForth(v / 0x100, n - 1, rest);
      var s := EmitUInt(v, n, rest);
      assert s[0] == v % 0x100 && s[1..] == EmitUInt(v / 0x100, n - 1, rest);
    }
  }

  lemma {:induction false} UIntBack(s: seq<byte>, n: nat)
    requires ParseUInt(s, n).Some?
    ensures var p := ParseUInt(s, n).value; s == EmitUInt(p.value, n, p.rest)
    decreases n
  {
    if n > 0 {
      UIntBack(s[1..], n - 1);
      assert s == [s[0]] + s[1..];
      var high := ParseUInt(s[1..], n - 1).value.value;
      assert (s[0] + 0x100 * high) % 0x100 == s[0] && (s[0] + 0x100 * high) / 0x100 == high;
    }
  }

  function EmitUInt32(v: uint32, rest: seq<byte>): seq<byte> {
    EmitUInt(v, 4, rest)
  }

  function ParseUInt32(s: seq<byte>): Option<Parsed<uint32>> {
    Bounds();
    var Parsed(v, s1) :- ParseUInt(s, 4);
    Some(Parsed(v, s1))
  }

  function EmitUInt64(v: uint64, rest: seq<byte>): seq<byte> {
    EmitUInt(v, 8, rest)
  }

  function ParseUInt64(s: seq<byte>): Option<Parsed<uint64>> {
    Bounds();
    var Parsed(v, s1) :- ParseUInt(s, 8);
    Some(Parsed(v, s1))
  }

  /** The two's complement. */
  function AsUnsigned(v: int64): uint64 {
    if v < 0 then v + SIZES else v
  }

  function AsSigned(v: uint64): int64 {
    if v < 0x8000_0000_0000_0000 then v else v - SIZES
  }

  function EmitInt64(v: int64, rest: seq<byte>): seq<byte> {
    EmitUInt64(AsUnsigned(v), rest)
  }

  function ParseInt64(s: seq<byte>): Option<Parsed<int64>> {
    var Parsed(v, s1) :- ParseUInt64(s);
    Some(Parsed(AsSigned(v), s1))
  }

  lemma BoolLaws()
    ensures forall b, rest :: ParseBool(EmitBool(b, rest)) == Some(Parsed(b, rest))
    ensures forall s :: ParseBool(s).Some? ==> s == EmitBool(ParseBool(s).value.value, ParseBool(s).value.rest)
  {
  }

  lemma ByteLaws()
    ensures forall b: byte, rest :: ParseByte(EmitByte(b, rest)) == Some(Parsed(b, rest))
    ensures forall s :: ParseByte(s).Some? ==> s == EmitByte(ParseByte(s).value.value, ParseByte(s).value.rest)
  {
  }

  lemma UInt32Laws()
    ensures forall v: uint32, rest :: ParseUInt32(EmitUInt32(v, rest)) == Some(Parsed(v, rest))
    ensures forall s :: ParseUInt32(s).Some? ==> s == EmitUInt32(ParseUInt32(s).value.value, ParseUInt32(s).value.rest)
  {
    hide EmitUInt, ParseUInt;
    Bounds();
    forall v: uint32, rest
      ensures ParseUInt32(EmitUInt32(v, rest)) == Some(Parsed(v, rest))
    {
      UIntForth(v, 4, rest);
    }
    forall s | ParseUInt32(s).Some?
      ensures s == EmitUInt32(ParseUInt32(s).value.value, ParseUInt32(s).value.rest)
    {
      UIntBack(s, 4);
    }
  }

  lemma UInt64Laws()
    ensures forall v: uint64, rest :: ParseUInt64(EmitUInt64(v, rest)) == Some(Parsed(v, rest))
    ensures forall s :: ParseUInt64(s).Some? ==> s == EmitUInt64(ParseUInt64(s).value.value, ParseUInt64(s).value.rest)
  {
    hide EmitUInt, ParseUInt;
    Bounds();
    forall v: uint64, rest
      ensures ParseUInt64(EmitUInt64(v, rest)) == Some(Parsed(v, rest))
    {
      UIntForth(v, 8, rest);
    }
    forall s | ParseUInt64(s).Some?
      ensures s == EmitUInt64(ParseUInt64(s).value.value, ParseUInt64(s).value.rest)
    {
      UIntBack(s, 8);
    }
  }

  lemma Complement(v: int64, u: uint64)
    ensures AsSigned(AsUnsigned(v)) == v && AsUnsigned(AsSigned(u)) == u
  {
  }

  lemma Int64Laws()
    ensures forall v: int64, rest :: ParseInt64(EmitInt64(v, rest)) == Some(Parsed(v, rest))
    ensures forall s :: ParseInt64(s).Some? ==> s == EmitInt64(ParseInt64(s).value.value, ParseInt64(s).value.rest)
  {
    hide EmitUInt64, ParseUInt64, AsSigned, AsUnsigned;
    UInt64Laws();
    forall v: int64, rest
      ensures ParseInt64(EmitInt64(v, rest)) == Some(Parsed(v, rest))
    {
      Complement(v, 0);
    }
    forall s | ParseInt64(s).Some?
      ensures s == EmitInt64(ParseInt64(s).value.value, ParseInt64(s).value.rest)
    {
      Complement(0, ParseUInt64(s).value.value);
    }
  }

  // ----- Buffers, values, handles -----

  function EmitBytes(b: Bytes, rest: seq<byte>): seq<byte> {
    EmitUInt64(|b|, b + rest)
  }

  function ParseBytes(s: seq<byte>): Option<Parsed<Bytes>> {
    var Parsed(size, s1) :- ParseUInt64(s);
    if |s1| < size then None else Some(Parsed(s1[..size], s1[size..]))
  }

  lemma BytesLaws()
    ensures forall b: Bytes, rest :: ParseBytes(EmitBytes(b, rest)) == Some(Parsed(b, rest))
    ensures forall s :: ParseBytes(s).Some? ==> s == EmitBytes(ParseBytes(s).value.value, ParseBytes(s).value.rest)
  {
    hide EmitUInt64, ParseUInt64;
    UInt64Laws();
    forall b: Bytes, rest
      ensures ParseBytes(EmitBytes(b, rest)) == Some(Parsed(b, rest))
    {
      assert (b + rest)[..|b|] == b && (b + rest)[|b|..] == rest;
    }
    forall s | ParseBytes(s).Some?
      ensures s == EmitBytes(ParseBytes(s).value.value, ParseBytes(s).value.rest)
    {
      var p := ParseUInt64(s).value;
      assert p.rest[..p.value] + p.rest[p.value..] == p.rest;
    }
  }

  function EmitValue(v: Value, rest: seq<byte>): seq<byte> {
    EmitByte(Tag(v),
      match v
      case Null => rest
      case Bool(b) => EmitBool(b, rest)
      case Int64(i) => EmitInt64(i, rest)
      case UInt64(u) => EmitUInt64(u, rest)
      case Double(bits) => EmitUInt64(bits, rest)
      case String(chars) => EmitBytes(chars, rest)
      case Binary(bytes) => EmitBytes(bytes, rest))
  }

  function ParseValue(s: seq<byte>): Option<Parsed<Value>> {
    var Parsed(tag, s1) :- ParseByte(s);
    match tag
    case 0 => Some(Parsed(Null, s1))
    case 1 => var Parsed(b, s2) :- ParseBool(s1); Some(Parsed(Bool(b), s2))
    case 2 => var Parsed(i, s2) :- ParseInt64(s1); Some(Parsed(Int64(i), s2))
    case 3 => var Parsed(u, s2) :- ParseUInt64(s1); Some(Parsed(UInt64(u), s2))
    case 4 => var Parsed(bits, s2) :- ParseUInt64(s1); Some(Parsed(Double(bits), s2))
    case 5 => var Parsed(chars, s2) :- ParseBytes(s1); Some(Parsed(String(chars), s2))
    case 6 => var Parsed(bytes, s2) :- ParseBytes(s1); Some(Parsed(Binary(bytes), s2))
    case _ => None
  }

  lemma ValueForth(v: Value, rest: seq<byte>)
    ensures ParseValue(EmitValue(v, rest)) == Some(Parsed(v, rest))
  {
    hide EmitByte, ParseByte, EmitBool, ParseBool, EmitInt64, ParseInt64, EmitUInt64, ParseUInt64, EmitBytes, ParseBytes;
    ByteLaws();
    match v
    case Null =>
    case Bool(_) => BoolLaws();
    case Int64(_) => Int64Laws();
    case UInt64(_) => UInt64Laws();
    case Double(_) => UInt64Laws();
    case String(_) => BytesLaws();
    case Binary(_) => BytesLaws();
  }

  lemma ValueBack(s: seq<byte>)
    requires ParseValue(s).Some?
    ensures s == EmitValue(ParseValue(s).value.value, ParseValue(s).value.rest)
  {
    hide EmitByte, ParseByte, EmitBool, ParseBool, EmitInt64, ParseInt64, EmitUInt64, ParseUInt64, EmitBytes, ParseBytes;
    ByteLaws();
    var tag := ParseByte(s).value.value;
    if tag == 1 {
      BoolLaws();
    } else if tag == 2 {
      Int64Laws();
    } else if tag == 3 || tag == 4 {
      UInt64Laws();
    } else {
      BytesLaws();
    }
  }

  lemma ValueLaws()
    ensures forall v, rest :: ParseValue(EmitValue(v, rest)) == Some(Parsed(v, rest))
    ensures forall s :: ParseValue(s).Some? ==> s == EmitValue(ParseValue(s).value.value, ParseValue(s).value.rest)
  {
    hide EmitValue, ParseValue;
    forall v, rest
      ensures ParseValue(EmitValue(v, rest)) == Some(Parsed(v, rest))
    {
      ValueForth(v, rest);
    }
    forall s | ParseValue(s).Some?
      ensures s == EmitValue(ParseValue(s).value.value, ParseValue(s).value.rest)
    {
      ValueBack(s);
    }
  }

  datatype ColumnHandle = ColumnHandle(schemaId: uint64, containerId: uint32, columnId: uint32, debugName: Bytes)
  datatype ListHandle = ListHandle(schemaId: uint64, containerId: uint32, debugName: Bytes)
  datatype VariantHandle = VariantHandle(schemaId: uint64, containerId: uint32, variantId: uint32, debugName: Bytes)

  function EmitColumnHandle(h: ColumnHandle, rest: seq<byte>): seq<byte> {
    EmitUInt64(h.schemaId, EmitUInt32(h.containerId, EmitUInt32(h.columnId, EmitBytes(h.debugName, rest))))
  }

  function ParseColumnHandle(s: seq<byte>): Option<Parsed<ColumnHandle>> {
    var Parsed(schemaId, s1) :- ParseUInt64(s);
    var Parsed(containerId, s2) :- ParseUInt32(s1);
    var Parsed(columnId, s3) :- ParseUInt32(s2);
    var Parsed(debugName, s4) :- ParseBytes(s3);
    Some(Parsed(ColumnHandle(schemaId, containerId, columnId, debugName), s4))
  }

  function EmitListHandle(h: ListHandle, rest: seq<byte>): seq<byte> {
    EmitUInt64(h.schemaId, EmitUInt32(h.containerId, EmitBytes(h.debugName, rest)))
  }

  function ParseListHandle(s: seq<byte>): Option<Parsed<ListHandle>> {
    var Parsed(schemaId, s1) :- ParseUInt64(s);
    var Parsed(containerId, s2) :- ParseUInt32(s1);
    var Parsed(debugName, s3) :- ParseBytes(s2);
    Some(Parsed(ListHandle(schemaId, containerId, debugName), s3))
  }

  function EmitVariantHandle(h: VariantHandle, rest: seq<byte>): seq<byte> {
    EmitUInt64(h.schemaId, EmitUInt32(h.containerId, EmitUInt32(h.variantId, EmitBytes(h.debugName, rest))))
  }

  function ParseVariantHandle(s: seq<byte>): Option<Parsed<VariantHandle>> {
    var Parsed(schemaId, s1) :- ParseUInt64(s);
    var Parsed(containerId, s2) :- ParseUInt32(s1);
    var Parsed(variantId, s3) :- ParseUInt32(s2);
    var Parsed(debugName, s4) :- ParseBytes(s3);
    Some(Parsed(VariantHandle(schemaId, containerId, variantId, debugName), s4))
  }

  lemma ColumnHandleLaws()
    ensures forall h, rest :: ParseColumnHandle(EmitColumnHandle(h, rest)) == Some(Parsed(h, rest))
    ensures forall s :: ParseColumnHandle(s).Some? ==>
              s == EmitColumnHandle(ParseColumnHandle(s).value.value, ParseColumnHandle(s).value.rest)
  {
    hide EmitUInt64, ParseUInt64, EmitUInt32, ParseUInt32, EmitBytes, ParseBytes;
    UInt64Laws();
    UInt32Laws();
    BytesLaws();
  }

  lemma ListHandleLaws()
    ensures forall h, rest :: ParseListHandle(EmitListHandle(h, rest)) == Some(Parsed(h, rest))
    ensures forall s :: ParseListHandle(s).Some? ==>
              s == EmitListHandle(ParseListHandle(s).value.value, ParseListHandle(s).value.rest)
  {
    hide EmitUInt64, ParseUInt64, EmitUInt32, ParseUInt32, EmitBytes, ParseBytes;
    UInt64Laws();
    UInt32Laws();
    BytesLaws();
  }

  lemma VariantHandleLaws()
    ensures forall h, rest :: ParseVariantHandle(EmitVariantHandle(h, rest)) == Some(Parsed(h, rest))
    ensures forall s :: ParseVariantHandle(s).Some? ==>
              s == EmitVariantHandle(ParseVariantHandle(s).value.value, ParseVariantHandle(s).value.rest)
  {
    hide EmitUInt64, ParseUInt64, EmitUInt32, ParseUInt32, EmitBytes, ParseBytes;
    UInt64Laws();
    UInt32Laws();
    BytesLaws();
  }

  // ----- Optional parts: a flag, and the part if the flag is set -----

  function EmitOptionalId(id: Option<uint64>, rest: seq<byte>): seq<byte> {
    EmitBool(id.Some?, if id.Some? then EmitUInt64(id.value, rest) else rest)
  }

  function ParseOptionalId(s: seq<byte>): Option<Parsed<Option<uint64>>> {
    var Parsed(there, s1) :- ParseBool(s);
    if !there then Some(Parsed(None, s1))
    else
      var Parsed(id, s2) :- ParseUInt64(s1);
      Some(Parsed(Some(id), s2))
  }

  function EmitOptionalValue(v: Option<Value>, rest: seq<byte>): seq<byte> {
    EmitBool(v.Some?, if v.Some? then EmitValue(v.value, rest) else rest)
  }

  function ParseOptionalValue(s: seq<byte>): Option<Parsed<Option<Value>>> {
    var Parsed(there, s1) :- ParseBool(s);
    if !there then Some(Parsed(None, s1))
    else
      var Parsed(v, s2) :- ParseValue(s1);
      Some(Parsed(Some(v), s2))
  }

  function EmitOptionalVariant(v: Option<VariantHandle>, rest: seq<byte>): seq<byte> {
    EmitBool(v.Some?, if v.Some? then EmitVariantHandle(v.value, rest) else rest)
  }

  function ParseOptionalVariant(s: seq<byte>): Option<Parsed<Option<VariantHandle>>> {
    var Parsed(there, s1) :- ParseBool(s);
    if !there then Some(Parsed(None, s1))
    else
      var Parsed(v, s2) :- ParseVariantHandle(s1);
      Some(Parsed(Some(v), s2))
  }

  lemma OptionalLaws()
    ensures forall x, rest :: ParseOptionalId(EmitOptionalId(x, rest)) == Some(Parsed(x, rest))
    ensures forall s :: ParseOptionalId(s).Some? ==> s == EmitOptionalId(ParseOptionalId(s).value.value, ParseOptionalId(s).value.rest)
    ensures forall x, rest :: ParseOptionalValue(EmitOptionalValue(x, rest)) == Some(Parsed(x, rest))
    ensures forall s :: ParseOptionalValue(s).Some? ==>
              s == EmitOptionalValue(ParseOptionalValue(s).value.value, ParseOptionalValue(s).value.rest)
    ensures forall x, rest :: ParseOptionalVariant(EmitOptionalVariant(x, rest)) == Some(Parsed(x, rest))
    ensures forall s :: ParseOptionalVariant(s).Some? ==>
              s == EmitOptionalVariant(ParseOptionalVariant(s).value.value, ParseOptionalVariant(s).value.rest)
  {
    hide EmitBool, ParseBool, EmitUInt64, ParseUInt64, EmitValue, ParseValue, EmitVariantHandle, ParseVariantHandle;
    BoolLaws();
    UInt64Laws();
    ValueLaws();
    VariantHandleLaws();
  }

  // ----- Snapshots -----

  datatype ColumnValue = ColumnValue(column: ColumnHandle, value: Value)

  function EmitColumnValue(c: ColumnValue, rest: seq<byte>): seq<byte> {
    EmitColumnHandle(c.column, EmitValue(c.value, rest))
  }

  function ParseColumnValue(s: seq<byte>): Option<Parsed<ColumnValue>> {
    var Parsed(column, s1) :- ParseColumnHandle(s);
    var Parsed(v, s2) :- ParseValue(s1);
    Some(Parsed(ColumnValue(column, v), s2))
  }

  lemma ColumnValueLaws()
    ensures forall c, rest :: ParseColumnValue(EmitColumnValue(c, rest)) == Some(Parsed(c, rest))
    ensures forall s :: ParseColumnValue(s).Some? ==>
              s == EmitColumnValue(ParseColumnValue(s).value.value, ParseColumnValue(s).value.rest)
  {
    hide EmitColumnHandle, ParseColumnHandle, EmitValue, ParseValue;
    ColumnHandleLaws();
    ValueLaws();
  }

  function EmitColumnValues(values: seq<ColumnValue>, rest: seq<byte>): seq<byte> {
    if values == [] then rest else EmitColumnValue(values[0], EmitColumnValues(values[1..], rest))
  }

  function ParseColumnValues(s: seq<byte>, n: nat): (r: Option<Parsed<seq<ColumnValue>>>)
    ensures r.Some? ==> |r.value.value| == n
    decreases n
  {
    if n == 0 then Some(Parsed([], s))
    else
      var Parsed(first, s1) :- ParseColumnValue(s);
      var Parsed(others, s2) :- ParseColumnValues(s1, n - 1);
      Some(Parsed([first] + others, s2))
  }

  lemma {:induction false} ColumnValuesForth(values: seq<ColumnValue>, rest: seq<byte>)
    ensures ParseColumnValues(EmitColumnValues(values, rest), |values|) == Some(Parsed(values, rest))
  {
    hide EmitColumnValue, ParseColumnValue;
    ColumnValueLaws();
    if values != [] {
      ColumnValuesForth(values[1..], rest);
      assert [values[0]] + values[1..] == values;
    }
  }

  lemma {:induction false} ColumnValuesBack(s: seq<byte>, n: nat)
    requires ParseColumnValues(s, n).Some?
    ensures var p := ParseColumnValues(s, n).value; s == EmitColumnValues(p.value, p.rest)
    decreases n
  {
    hide EmitColumnValue, ParseColumnValue;
    ColumnValueLaws();
    if n > 0 {
      var p := ParseColumnValue(s).value;
      ColumnValuesBack(p.rest, n - 1);
      var others := ParseColumnValues(p.rest, n - 1).value.value;
      assert ([p.value] + others)[1..] == others;
    }
  }

  type ColumnValues = s: seq<ColumnValue> | |s| < SIZES

  /** The container kind is whatever byte was read. */
  datatype ItemSnapshot =
    ItemSnapshot(id: uint64, containerKind: byte, containerId: uint32, parentId: Option<uint64>, variant: Option<VariantHandle>,
                 values: ColumnValues, listAssociationValue: Option<Value>, listIndex: Option<uint64>)

  function EmitCells(values: ColumnValues, rest: seq<byte>): seq<byte> {
    EmitUInt64(|values|, EmitColumnValues(values, rest))
  }

  function ParseCells(s: seq<byte>): Option<Parsed<ColumnValues>> {
    var Parsed(count, s1) :- ParseUInt64(s);
    var Parsed(values, s2) :- ParseColumnValues(s1, count);
    Some(Parsed(values, s2))
  }

  lemma CellsLaws()
    ensures forall v: ColumnValues, rest :: ParseCells(EmitCells(v, rest)) == Some(Parsed(v, rest))
    ensures forall s :: ParseCells(s).Some? ==> s == EmitCells(ParseCells(s).value.value, ParseCells(s).value.rest)
  {
    hide EmitUInt64, ParseUInt64, EmitColumnValues, ParseColumnValues;
    UInt64Laws();
    forall v: ColumnValues, rest
      ensures ParseCells(EmitCells(v, rest)) == Some(Parsed(v, rest))
    {
      ColumnValuesForth(v, rest);
    }
    forall s | ParseCells(s).Some?
      ensures s == EmitCells(ParseCells(s).value.value, ParseCells(s).value.rest)
    {
      var p := ParseUInt64(s).value;
      ColumnValuesBack(p.rest, p.value);
    }
  }

  function EmitItemSnapshot(x: ItemSnapshot, rest: seq<byte>): seq<byte> {
    EmitUInt64(x.id, EmitByte(x.containerKind, EmitUInt32(x.containerId,
      EmitOptionalId(x.parentId, EmitOptionalVariant(x.variant, EmitCells(x.values,
        EmitOptionalValue(x.listAssociationValue, EmitOptionalId(x.listIndex, rest))))))))
  }

  function ParseItemSnapshot(s: seq<byte>): Option<Parsed<ItemSnapshot>> {
    var Parsed(id, s1) :- ParseUInt64(s);
    var Parsed(containerKind, s2) :- ParseByte(s1);
    var Parsed(containerId, s3) :- ParseUInt32(s2);
    var Parsed(parentId, s4) :- ParseOptionalId(s3);
    var Parsed(variant, s5) :- ParseOptionalVariant(s4);
    var Parsed(values, s6) :- ParseCells(s5);
    var Parsed(listAssociationValue, s7) :- ParseOptionalValue(s6);
    var Parsed(listIndex, s8) :- ParseOptionalId(s7);
    Some(Parsed(ItemSnapshot(id, containerKind, containerId, parentId, variant, values, listAssociationValue, listIndex), s8))
  }

  lemma ItemSnapshotForth(x: ItemSnapshot, rest: seq<byte>)
    ensures ParseItemSnapshot(EmitItemSnapshot(x, rest)) == Some(Parsed(x, rest))
  {
    hide EmitUInt64, ParseUInt64, EmitByte, ParseByte, EmitUInt32, ParseUInt32, EmitOptionalId, ParseOptionalId,
      EmitOptionalVariant, ParseOptionalVariant, EmitCells, ParseCells, EmitOptionalValue, ParseOptionalValue;
    UInt64Laws();
    ByteLaws();
    UInt32Laws();
    OptionalLaws();
    CellsLaws();
  }

  lemma ItemSnapshotBack(s: seq<byte>)
    requires ParseItemSnapshot(s).Some?
    ensures s == EmitItemSnapshot(ParseItemSnapshot(s).value.value, ParseItemSnapshot(s).value.rest)
  {
    hide EmitUInt64, ParseUInt64, EmitByte, ParseByte, EmitUInt32, ParseUInt32, EmitOptionalId, ParseOptionalId,
      EmitOptionalVariant, ParseOptionalVariant, EmitCells, ParseCells, EmitOptionalValue, ParseOptionalValue;
    UInt64Laws();
    ByteLaws();
    UInt32Laws();
    OptionalLaws();
    CellsLaws();
  }

  lemma ItemSnapshotLaws()
    ensures forall x, rest :: ParseItemSnapshot(EmitItemSnapshot(x, rest)) == Some(Parsed(x, rest))
    ensures forall s :: ParseItemSnapshot(s).Some? ==>
              s == EmitItemSnapshot(ParseItemSnapshot(s).value.value, ParseItemSnapshot(s).value.rest)
  {
    hide EmitItemSnapshot, ParseItemSnapshot;
    forall x, rest
      ensures ParseItemSnapshot(EmitItemSnapshot(x, rest)) == Some(Parsed(x, rest))
    {
      ItemSnapshotForth(x, rest);
    }
    forall s | ParseItemSnapshot(s).Some?
      ensures s == EmitItemSnapshot(ParseItemSnapshot(s).value.value, ParseItemSnapshot(s).value.rest)
    {
      ItemSnapshotBack(s);
    }
  }

  // ----- Operations -----

  datatype Operation =
    | ItemInserted(item: ItemSnapshot)
    | ItemRemoved(item: ItemSnapshot, cascade: bool)
    | ColumnUpdated(itemId: uint64, column: ColumnHandle, oldValue: Value, newValue: Value,
                    targetIndex: Option<uint64>, oldListIndex: Option<uint64>)
    | ComputedColumnUpdated(itemId: uint64, column: ColumnHandle, oldValue: Value, newValue: Value)
    | CascadeRemoved(item: ItemSnapshot, ancestorId: uint64)
    | ListInserted(list: ListHandle, associationValue: Value, index: uint64, item: ItemSnapshot)
    | ListRemoved(list: ListHandle, associationValue: Value, index: uint64, item: ItemSnapshot)
    | ListRotated(list: ListHandle, associationValue: Value, startIndex: uint64, count: uint64, offset: int64)

  /** The number of the operation's kind. */
  function Kind(op: Operation): byte {
    match op
    case ItemInserted(_) => 0
    case ItemRemoved(_, _) => 1
    case ColumnUpdated(_, _, _, _, _, _) => 2
    case ComputedColumnUpdated(_, _, _, _) => 3
    case CascadeRemoved(_, _) => 4
    case ListInserted(_, _, _, _) => 5
    case ListRemoved(_, _, _, _) => 6
    case ListRotated(_, _, _, _, _) => 7
  }

  function EmitPayload(op: Operation, rest: seq<byte>): seq<byte> {
    match op
    case ItemInserted(item) => EmitItemSnapshot(item, rest)
    case ItemRemoved(item, cascade) => EmitItemSnapshot(item, EmitBool(cascade, rest))
    case ColumnUpdated(itemId, column, oldValue, newValue, targetIndex, oldListIndex) =>
      EmitUInt64(itemId, EmitColumnHandle(column, EmitValue(oldValue, EmitValue(newValue,
        EmitOptionalId(targetIndex, EmitOptionalId(oldListIndex, rest))))))
    case ComputedColumnUpdated(itemId, column, oldValue, newValue) =>
      EmitUInt64(itemId, EmitColumnHandle(column, EmitValue(oldValue, EmitValue(newValue, rest))))
    case CascadeRemoved(item, ancestorId) => EmitItemSnapshot(item, EmitUInt64(ancestorId, rest))
    case ListInserted(list, v, index, item) => EmitListHandle(list, EmitValue(v, EmitUInt64(index, EmitItemSnapshot(item, rest))))
    case ListRemoved(list, v, index, item) => EmitListHandle(list, EmitValue(v, EmitUInt64(index, EmitItemSnapshot(item, rest))))
    case ListRotated(list, v, startIndex, count, offset) =>
      EmitListHandle(list, EmitValue(v, EmitUInt64(startIndex, EmitUInt64(count, EmitInt64(offset, rest)))))
  }

  function ParsePayload(kind: byte, s: seq<byte>): Option<Parsed<Operation>> {
    match kind
    case 0 =>
      var Parsed(item, s1) :- ParseItemSnapshot(s);
      Some(Parsed(ItemInserted(item), s1))
    case 1 =>
      var Parsed(item, s1) :- ParseItemSnapshot(s);
      var Parsed(cascade, s2) :- ParseBool(s1);
      Some(Parsed(ItemRemoved(item, cascade), s2))
    case 2 =>
      var Parsed(itemId, s1) :- ParseUInt64(s);
      var Parsed(column, s2) :- ParseColumnHandle(s1);
      var Parsed(oldValue, s3) :- ParseValue(s2);
      var Parsed(newValue, s4) :- ParseValue(s3);
      var Parsed(targetIndex, s5) :- ParseOptionalId(s4);
      var Parsed(oldListIndex, s6) :- ParseOptionalId(s5);
      Some(Parsed(ColumnUpdated(itemId, column, oldValue, newValue, targetIndex, oldListIndex), s6))
    case 3 =>
      var Parsed(itemId, s1) :- ParseUInt64(s);
      var Parsed(column, s2) :- ParseColumnHandle(s1);
      var Parsed(oldValue, s3) :- ParseValue(s2);
      var Parsed(newValue, s4) :- ParseValue(s3);
      Some(Parsed(ComputedColumnUpdated(itemId, column, oldValue, newValue), s4))
    case 4 =>
      var Parsed(item, s1) :- ParseItemSnapshot(s);
      var Parsed(ancestorId, s2) :- ParseUInt64(s1);
      Some(Parsed(CascadeRemoved(item, ancestorId), s2))
    case 5 =>
      var Parsed(list, s1) :- ParseListHandle(s);
      var Parsed(v, s2) :- ParseValue(s1);
      var Parsed(index, s3) :- ParseUInt64(s2);
      var Parsed(item, s4) :- ParseItemSnapshot(s3);
      Some(Parsed(ListInserted(list, v, index, item), s4))
    case 6 =>
      var Parsed(list, s1) :- ParseListHandle(s);
      var Parsed(v, s2) :- ParseValue(s1);
      var Parsed(index, s3) :- ParseUInt64(s2);
      var Parsed(item, s4) :- ParseItemSnapshot(s3);
      Some(Parsed(ListRemoved(list, v, index, item), s4))
    case 7 =>
      var Parsed(list, s1) :- ParseListHandle(s);
      var Parsed(v, s2) :- ParseValue(s1);
      var Parsed(startIndex, s3) :- ParseUInt64(s2);
      var Parsed(count, s4) :- ParseUInt64(s3);
      var Parsed(offset, s5) :- ParseInt64(s4);
      Some(Parsed(ListRotated(list, v, startIndex, count, offset), s5))
    case _ => None
  }

  /** The payload that was read, written again. */
  predicate PayloadIs(kind: byte, s: seq<byte>)
    requires ParsePayload(kind, s).Some?
  {
    var p := ParsePayload(kind, s).value;
    Kind(p.value) == kind && s == EmitPayload(p.value, p.rest)
  }

  lemma ItemsForth(op: Operation, rest: seq<byte>)
    requires op.ItemInserted? || op.ItemRemoved? || op.CascadeRemoved?
    ensures ParsePayload(Kind(op), EmitPayload(op, rest)) == Some(Parsed(op, rest))
  {
    hide EmitUInt64, ParseUInt64, EmitBool, ParseBool, EmitInt64, ParseInt64, EmitValue, ParseValue, EmitColumnHandle, ParseColumnHandle,
      EmitListHandle, ParseListHandle, EmitOptionalId, ParseOptionalId, EmitItemSnapshot, ParseItemSnapshot;
    ItemSnapshotLaws();
    BoolLaws();
    UInt64Laws();
  }

  lemma ItemsBack(kind: byte, s: seq<byte>)
    requires kind == 0 || kind == 1 || kind == 4
    requires ParsePayload(kind, s).Some?
    ensures PayloadIs(kind, s)
  {
    hide EmitUInt64, ParseUInt64, EmitBool, ParseBool, EmitInt64, ParseInt64, EmitValue, ParseValue, EmitColumnHandle, ParseColumnHandle,
      EmitListHandle, ParseListHandle, EmitOptionalId, ParseOptionalId, EmitItemSnapshot, ParseItemSnapshot;
    ItemSnapshotLaws();
    BoolLaws();
    UInt64Laws();
  }

  lemma UpdatesForth(op: Operation, rest: seq<byte>)
    requires op.ColumnUpdated? || op.ComputedColumnUpdated?
    ensures ParsePayload(Kind(op), EmitPayload(op, rest)) == Some(Parsed(op, rest))
  {
    hide EmitUInt64, ParseUInt64, EmitBool, ParseBool, EmitInt64, ParseInt64, EmitValue, ParseValue, EmitColumnHandle, ParseColumnHandle,
      EmitListHandle, ParseListHandle, EmitOptionalId, ParseOptionalId, EmitItemSnapshot, ParseItemSnapshot;
    UInt64Laws();
    ColumnHandleLaws();
    ValueLaws();
    OptionalLaws();
  }

  lemma UpdatesBack(kind: byte, s: seq<byte>)
    requires kind == 2 || kind == 3
    requires ParsePayload(kind, s).Some?
    ensures PayloadIs(kind, s)
  {
    hide EmitUInt64, ParseUInt64, EmitBool, ParseBool, EmitInt64, ParseInt64, EmitValue, ParseValue, EmitColumnHandle, ParseColumnHandle,
      EmitListHandle, ParseListHandle, EmitOptionalId, ParseOptionalId, EmitItemSnapshot, ParseItemSnapshot;
    UInt64Laws();
    ColumnHandleLaws();
    ValueLaws();
    OptionalLaws();
  }

  lemma ListItemsForth(op: Operation, rest: seq<byte>)
    requires op.ListInserted? || op.ListRemoved?
    ensures ParsePayload(Kind(op), EmitPayload(op, rest)) == Some(Parsed(op, rest))
  {
    hide EmitUInt64, ParseUInt64, EmitBool, ParseBool, EmitInt64, ParseInt64, EmitValue, ParseValue, EmitColumnHandle, ParseColumnHandle,
      EmitListHandle, ParseListHandle, EmitOptionalId, ParseOptionalId, EmitItemSnapshot, ParseItemSnapshot;
    ListHandleLaws();
    ValueLaws();
    UInt64Laws();
    ItemSnapshotLaws();
  }

  lemma ListItemsBack(kind: byte, s: seq<byte>)
    requires kind == 5 || kind == 6
    requires ParsePayload(kind, s).Some?
    ensures PayloadIs(kind, s)
  {
    hide EmitUInt64, ParseUInt64, EmitBool, ParseBool, EmitInt64, ParseInt64, EmitValue, ParseValue, EmitColumnHandle, ParseColumnHandle,
      EmitListHandle, ParseListHandle, EmitOptionalId, ParseOptionalId, EmitItemSnapshot, ParseItemSnapshot;
    ListHandleLaws();
    ValueLaws();
    UInt64Laws();
    ItemSnapshotLaws();
  }

  lemma RotationsForth(op: Operation, rest: seq<byte>)
    requires op.ListRotated?
    ensures ParsePayload(Kind(op), EmitPayload(op, rest)) == Some(Parsed(op, rest))
  {
    hide EmitUInt64, ParseUInt64, EmitBool, ParseBool, EmitInt64, ParseInt64, EmitValue, ParseValue, EmitColumnHandle, ParseColumnHandle,
      EmitListHandle, ParseListHandle, EmitOptionalId, ParseOptionalId, EmitItemSnapshot, ParseItemSnapshot;
    ListHandleLaws();
    ValueLaws();
    UInt64Laws();
    Int64Laws();
  }

  lemma RotationsBack(kind: byte, s: seq<byte>)
    requires kind == 7
    requires ParsePayload(kind, s).Some?
    ensures PayloadIs(kind, s)
  {
    hide EmitUInt64, ParseUInt64, EmitBool, ParseBool, EmitInt64, ParseInt64, EmitValue, ParseValue, EmitColumnHandle, ParseColumnHandle,
      EmitListHandle, ParseListHandle, EmitOptionalId, ParseOptionalId, EmitItemSnapshot, ParseItemSnapshot;
    ListHandleLaws();
    ValueLaws();
    UInt64Laws();
    Int64Laws();
  }

  lemma PayloadForth(op: Operation, rest: seq<byte>)
    ensures ParsePayload(Kind(op), EmitPayload(op, rest)) == Some(Parsed(op, rest))
  {
    hide ParsePayload, EmitPayload;
    match op
    case ItemInserted(_) => ItemsForth(op, rest);
    case ItemRemoved(_, _) => ItemsForth(op, rest);
    case CascadeRemoved(_, _) => ItemsForth(op, rest);
    case ColumnUpdated(_, _, _, _, _, _) => UpdatesForth(op, rest);
    case ComputedColumnUpdated(_, _, _, _) => UpdatesForth(op, rest);
    case ListInserted(_, _, _, _) => ListItemsForth(op, rest);
    case ListRemoved(_, _, _, _) => ListItemsForth(op, rest);
    case ListRotated(_, _, _, _, _) => RotationsForth(op, rest);
  }

  lemma PayloadBack(kind: byte, s: seq<byte>)
    requires ParsePayload(kind, s).Some?
    ensures PayloadIs(kind, s)
  {
    KindsKnown(kind, s);
    hide ParsePayload, PayloadIs;
    if kind == 0 || kind == 1 || kind == 4 {
      ItemsBack(kind, s);
    } else if kind == 2 || kind == 3 {
      UpdatesBack(kind, s);
    } else if kind == 5 || kind == 6 {
      ListItemsBack(kind, s);
    } else {
      RotationsBack(kind, s);
    }
  }

  lemma KindsKnown(kind: byte, s: seq<byte>)
    requires ParsePayload(kind, s).Some?
    ensures kind <= 7
  {
  }

  function EmitOperation(op: Operation, rest: seq<byte>): seq<byte> {
    EmitByte(Kind(op), EmitPayload(op, rest))
  }

  function ParseOperation(s: seq<byte>): Option<Parsed<Operation>> {
    var Parsed(kind, s1) :- ParseByte(s);
    ParsePayload(kind, s1)
  }

  lemma OperationLaws()
    ensures forall op, rest :: ParseOperation(EmitOperation(op, rest)) == Some(Parsed(op, rest))
    ensures forall s :: ParseOperation(s).Some? ==>
              s == EmitOperation(ParseOperation(s).value.value, ParseOperation(s).value.rest)
  {
    hide EmitByte, ParseByte, EmitPayload, ParsePayload, Kind;
    ByteLaws();
    forall op, rest
      ensures ParseOperation(EmitOperation(op, rest)) == Some(Parsed(op, rest))
    {
      PayloadForth(op, rest);
    }
    forall s | ParseOperation(s).Some?
      ensures s == EmitOperation(ParseOperation(s).value.value, ParseOperation(s).value.rest)
    {
      PayloadBack(ParseByte(s).value.value, ParseByte(s).value.rest);
    }
  }

  function EmitOperations(ops: seq<Operation>, rest: seq<byte>): seq<byte> {
    if ops == [] then rest else EmitOperation(ops[0], EmitOperations(ops[1..], rest))
  }

  function ParseOperations(s: seq<byte>, n: nat): (r: Option<Parsed<seq<Operation>>>)
    ensures r.Some? ==> |r.value.value| == n
    decreases n
  {
    if n == 0 then Some(Parsed([], s))
    else
      var Parsed(first, s1) :- ParseOperation(s);
      var Parsed(others, s2) :- ParseOperations(s1, n - 1);
      Some(Parsed([first] + others, s2))
  }

  lemma {:induction false} OperationsForth(ops: seq<Operation>, rest: seq<byte>)
    ensures ParseOperations(EmitOperations(ops, rest), |ops|) == Some(Parsed(ops, rest))
  {
    hide EmitOperation, ParseOperation;
    OperationLaws();
    if ops != [] {
      OperationsForth(ops[1..], rest);
      assert [ops[0]] + ops[1..] == ops;
    }
  }

  lemma {:induction false} OperationsBack(s: seq<byte>, n: nat)
    requires ParseOperations(s, n).Some?
    ensures var p := ParseOperations(s, n).value; s == EmitOperations(p.value, p.rest)
    decreases n
  {
    hide EmitOperation, ParseOperation;
    OperationLaws();
    if n > 0 {
      var p := ParseOperation(s).value;
      OperationsBack(p.rest, n - 1);
      var others := ParseOperations(p.rest, n - 1).value.value;
      assert ([p.value] + others)[1..] == others;
    }
  }

  // ----- Change sets -----

  datatype Link = Link(sourceOperation: uint64, derivedOperation: uint64)

  datatype ChangeSet = ChangeSet(operations: seq<Operation>, derivedLinks: seq<Link>) {
    predicate Storable() {
      |operations| < SIZES && |derivedLinks| < SIZES
    }

    /** What `addDerivedLink` demands. */
    predicate LinksInRange() {
      forall i :: 0 <= i < |derivedLinks| ==> InRange(derivedLinks[i], |operations|)
    }
  }

  predicate InRange(link: Link, n: nat) {
    link.sourceOperation < n && link.derivedOperation < n
  }

  function EmitLinks(links: seq<Link>, rest: seq<byte>): seq<byte> {
    if links == [] then rest
    else EmitUInt64(links[0].sourceOperation, EmitUInt64(links[0].derivedOperation, EmitLinks(links[1..], rest)))
  }

  /** `m` links between `n` operations. */
  function ParseLinks(s: seq<byte>, m: nat, n: nat): (r: Option<Parsed<seq<Link>>>)
    ensures r.Some? ==> |r.value.value| == m
    decreases m
  {
    if m == 0 then Some(Parsed([], s))
    else
      var Parsed(sourceOperation, s1) :- ParseUInt64(s);
      var Parsed(derivedOperation, s2) :- ParseUInt64(s1);
      if !InRange(Link(sourceOperation, derivedOperation), n) then None
      else
        var Parsed(others, s3) :- ParseLinks(s2, m - 1, n);
        Some(Parsed([Link(sourceOperation, derivedOperation)] + others, s3))
  }

  lemma {:induction false} LinksForth(links: seq<Link>, n: nat, rest: seq<byte>)
    requires forall i :: 0 <= i < |links| ==> InRange(links[i], n)
    ensures ParseLinks(EmitLinks(links, rest), |links|, n) == Some(Parsed(links, rest))
  {
    hide EmitUInt64, ParseUInt64;
    UInt64Laws();
    if links != [] {
      LinksForth(links[1..], n, rest);
      assert [links[0]] + links[1..] == links;
    }
  }

  lemma {:induction false} LinksBack(s: seq<byte>, m: nat, n: nat)
    requires ParseLinks(s, m, n).Some?
    ensures var p := ParseLinks(s, m, n).value;
            s == EmitLinks(p.value, p.rest) && forall i :: 0 <= i < |p.value| ==> InRange(p.value[i], n)
    decreases m
  {
    hide EmitUInt64, ParseUInt64;
    UInt64Laws();
    if m > 0 {
      var p1 := ParseUInt64(s).value;
      var p2 := ParseUInt64(p1.rest).value;
      LinksBack(p2.rest, m - 1, n);
      var others := ParseLinks(p2.rest, m - 1, n).value.value;
      assert ([Link(p1.value, p2.value)] + others)[1..] == others;
    }
  }

  const MAGIC: seq<byte> := [0x7f, 0x44, 0x49, 0x4e, 0x49, 0x43, 0x53, 0x32]
  const FORMAT_VERSION: uint32 := 2

  /** `serializeChangeSet`. */
  function Serialize(x: ChangeSet): seq<byte>
    requires x.Storable()
  {
    MAGIC + EmitUInt32(FORMAT_VERSION, EmitUInt64(|x.operations|, EmitOperations(x.operations,
      EmitUInt64(|x.derivedLinks|, EmitLinks(x.derivedLinks, [])))))
  }

  /** `deserializeChangeSet`: nothing when it throws. */
  function Deserialize(s: seq<byte>): (r: Option<ChangeSet>) {
    if !(MAGIC <= s) then None
    else
      var Parsed(version, s1) :- ParseUInt32(s[|MAGIC|..]);
      if version != FORMAT_VERSION then None
      else
        var Parsed(n, s2) :- ParseUInt64(s1);
        var Parsed(operations, s3) :- ParseOperations(s2, n);
        var Parsed(m, s4) :- ParseUInt64(s3);
        var Parsed(links, s5) :- ParseLinks(s4, m, n);
        if s5 != [] then None else Some(ChangeSet(operations, links))
  }

  /** Reading what was written gives the change set back. */
  lemma SerializedReadsBack(x: ChangeSet)
    requires x.Storable() && x.LinksInRange()
    ensures Deserialize(Serialize(x)) == Some(x)
  {
    hide EmitUInt32, ParseUInt32, EmitUInt64, ParseUInt64, EmitOperations, ParseOperations, EmitLinks, ParseLinks;
    UInt32Laws();
    UInt64Laws();
    var s := Serialize(x);
    var links := EmitUInt64(|x.derivedLinks|, EmitLinks(x.derivedLinks, []));
    OperationsForth(x.operations, links);
    LinksForth(x.derivedLinks, |x.operations|, []);
    assert s[|MAGIC|..] == EmitUInt32(FORMAT_VERSION, EmitUInt64(|x.operations|, EmitOperations(x.operations, links)));
  }

  /** Whatever bytes are accepted are the ones that writing the result gives. */
  lemma AcceptedIsCanonical(s: seq<byte>)
    requires Deserialize(s).Some?
    ensures var x := Deserialize(s).value; x.Storable() && x.LinksInRange() && Serialize(x) == s
  {
    hide EmitUInt32, ParseUInt32, EmitUInt64, ParseUInt64, EmitOperations, ParseOperations, EmitLinks, ParseLinks;
    UInt32Laws();
    UInt64Laws();
    var s1 := ParseUInt32(s[|MAGIC|..]).value.rest;
    var p2 := ParseUInt64(s1).value;
    OperationsBack(p2.rest, p2.value);
    var p3 := ParseOperations(p2.rest, p2.value).value;
    var p4 := ParseUInt64(p3.rest).value;
    LinksBack(p4.rest, p4.value, p2.value);
    assert s == MAGIC + s[|MAGIC|..];
  }

  /** A change set whose links go astray can be written, but not read. */
  lemma ReadableIff(x: ChangeSet)
    requires x.Storable()
    ensures Deserialize(Serialize(x)).Some? <==> x.LinksInRange()
  {
    if x.LinksInRange() {
      SerializedReadsBack(x);
    } else {
      hide EmitUInt32, ParseUInt32, EmitUInt64, ParseUInt64, EmitOperations, ParseOperations, EmitLinks, ParseLinks;
      UInt32Laws();
      UInt64Laws();
      var s := Serialize(x);
      var links := EmitUInt64(|x.derivedLinks|, EmitLinks(x.derivedLinks, []));
      OperationsForth(x.operations, links);
      LinksAstray(x.derivedLinks, |x.operations|, []);
      assert s[|MAGIC|..] == EmitUInt32(FORMAT_VERSION, EmitUInt64(|x.operations|, EmitOperations(x.operations, links)));
    }
  }

  lemma {:induction false} LinksAstray(links: seq<Link>, n: nat, rest: seq<byte>)
    requires !forall i :: 0 <= i < |links| ==> InRange(links[i], n)
    ensures ParseLinks(EmitLinks(links, rest), |links|, n).None?
  {
    hide EmitUInt64, ParseUInt64;
    UInt64Laws();
    if InRange(links[0], n) {
      var i :| 0 <= i < |links| && !InRange(links[i], n);
      assert links[1..][i - 1] == links[i];
      LinksAstray(links[1..], n, rest);
    }
  }
}
