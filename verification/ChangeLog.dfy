/** The writer that appends to a buffer and the reader that moves through one
    (`BinaryWriter` and `BinaryReader`, src/change_log.cpp:65-174, 178-511). */
module ChangeLog {
  import opened Wrappers
  import opened DivisionFacts
  import opened Values
  import opened Codec

  lemma ShiftFurther(v: nat, d: nat)
    requires d > 0
    ensures v / (0x100 * d) == v / d / 0x100
  {
    var q := v / d;
    var high, low, r := q / 0x100, q % 0x100, v % d;
    DivisionRule(v, d);
    assert q == high * 0x100 + low;
    Regrouped(high, low, d);
    QuotientOf(v, high, low * d + r, 0x100 * d);
  }

  lemma Regrouped(high: nat, low: nat, d: nat)
    requires low < 0x100
    ensures (high * 0x100 + low) * d == high * (0x100 * d) + low * d
    ensures low * d + d <= 0x100 * d && low * d >= 0
  {
    assert (0x100 - 1 - low) * d >= 0;
  }

  lemma QuotientOf(x: nat, q: nat, r: nat, d: nat)
    requires d > 0 && r < d && x == q * d + r
    ensures x / d == q
  {
    DivisionRule(x, d);
    Scaled(q - x / d, d);
    assert (q - x / d) * d == q * d - (x / d) * d;
  }

  /** Each method appends what its value prints to; `rest` is whatever will come after. */
  class BinaryWriter {
    var bytes: seq<byte>

    constructor ()
      ensures bytes == []
    {
      bytes := [];
    }

    method WriteByte(b: byte, ghost rest: seq<byte>)
      modifies this
      ensures bytes + rest == old(bytes) + EmitByte(b, rest)
    {
      bytes := bytes + [b];
    }

    method WriteBool(b: bool, ghost rest: seq<byte>)
      modifies this
      ensures bytes + rest == old(bytes) + EmitBool(b, rest)
    {
      WriteByte(if b then 1 else 0, rest);
    }

    /** The loop of `writeUInt32` and `writeUInt64`. */
    method WriteUInt(v: nat, n: nat, ghost rest: seq<byte>)
      modifies this
      ensures bytes + rest == old(bytes) + EmitUInt(v, n, rest)
    {
      for i := 0 to n
        invariant bytes + EmitUInt(v / Bound(i), n - i, rest) == old(bytes) + EmitUInt(v, n, rest)
      {
        ShiftFurther(v, Bound(i));
        WriteByte(v / Bound(i) % 0x100, EmitUInt(v / Bound(i + 1), n - i - 1, rest));
      }
    }

    method WriteUInt32(v: uint32, ghost rest: seq<byte>)
      modifies this
      ensures bytes + rest == old(bytes) + EmitUInt32(v, rest)
    {
      WriteUInt(v, 4, rest);
    }

    method WriteUInt64(v: uint64, ghost rest: seq<byte>)
      modifies this
      ensures bytes + rest == old(bytes) + EmitUInt64(v, rest)
    {
      WriteUInt(v, 8, rest);
    }

    method WriteInt64(v: int64, ghost rest: seq<byte>)
      modifies this
      ensures bytes + rest == old(bytes) + EmitInt64(v, rest)
    {
      WriteUInt64(AsUnsigned(v), rest);
    }

    method WriteBytes(b: Bytes, ghost rest: seq<byte>)
      modifies this
      ensures bytes + rest == old(bytes) + EmitBytes(b, rest)
    {
      hide EmitUInt64;
      WriteUInt64(|b|, b + rest);
      ghost var was := bytes;
      bytes := bytes + b;
      assert bytes + rest == was + (b + rest);
    }

    method WriteValue(v: Value, ghost rest: seq<byte>)
      modifies this
      ensures bytes + rest == old(bytes) + EmitValue(v, rest)
    {
      hide EmitByte, EmitBool, EmitInt64, EmitUInt64, EmitBytes;
      WriteByte(Tag(v), match v
        case Null => rest
        case Bool(b) => EmitBool(b, rest)
        case Int64(i) => EmitInt64(i, rest)
        case UInt64(u) => EmitUInt64(u, rest)
        case Double(bits) => EmitUInt64(bits, rest)
        case String(chars) => EmitBytes(chars, rest)
        case Binary(payload) => EmitBytes(payload, rest));
      match v
      case Null =>
      case Bool(b) => WriteBool(b, rest);
      case Int64(i) => WriteInt64(i, rest);
      case UInt64(u) => WriteUInt64(u, rest);
      case Double(bits) => WriteUInt64(bits, rest);
      case String(chars) => WriteBytes(chars, rest);
      case Binary(payload) => WriteBytes(payload, rest);
    }

    method WriteColumnHandle(h: ColumnHandle, ghost rest: seq<byte>)
      modifies this
      ensures bytes + rest == old(bytes) + EmitColumnHandle(h, rest)
    {
      hide EmitUInt64, EmitUInt32, EmitBytes;
      WriteUInt64(h.schemaId, EmitUInt32(h.containerId, EmitUInt32(h.columnId, EmitBytes(h.debugName, rest))));
      WriteUInt32(h.containerId, EmitUInt32(h.columnId, EmitBytes(h.debugName, rest)));
      WriteUInt32(h.columnId, EmitBytes(h.debugName, rest));
      WriteBytes(h.debugName, rest);
    }

    method WriteListHandle(h: ListHandle, ghost rest: seq<byte>)
      modifies this
      ensures bytes + rest == old(bytes) + EmitListHandle(h, rest)
    {
      hide EmitUInt64, EmitUInt32, EmitBytes;
      WriteUInt64(h.schemaId, EmitUInt32(h.containerId, EmitBytes(h.debugName, rest)));
      WriteUInt32(h.containerId, EmitBytes(h.debugName, rest));
      WriteBytes(h.debugName, rest);
    }

    method WriteVariantHandle(h: VariantHandle, ghost rest: seq<byte>)
      modifies this
      ensures bytes + rest == old(bytes) + EmitVariantHandle(h, rest)
    {
      hide EmitUInt64, EmitUInt32, EmitBytes;
      WriteUInt64(h.schemaId, EmitUInt32(h.containerId, EmitUInt32(h.variantId, EmitBytes(h.debugName, rest))));
      WriteUInt32(h.containerId, EmitUInt32(h.variantId, EmitBytes(h.debugName, rest)));
      WriteUInt32(h.variantId, EmitBytes(h.debugName, rest));
      WriteBytes(h.debugName, rest);
    }

    method WriteOptionalId(id: Option<uint64>, ghost rest: seq<byte>)
      modifies this
      ensures bytes + rest == old(bytes) + EmitOptionalId(id, rest)
    {
      hide EmitBool, EmitUInt64;
      WriteBool(id.Some?, if id.Some? then EmitUInt64(id.value, rest) else rest);
      if id.Some? {
        WriteUInt64(id.value, rest);
      }
    }

    method WriteOptionalValue(v: Option<Value>, ghost rest: seq<byte>)
      modifies this
      ensures bytes + rest == old(bytes) + EmitOptionalValue(v, rest)
    {
      hide EmitBool, EmitValue;
      WriteBool(v.Some?, if v.Some? then EmitValue(v.value, rest) else rest);
      if v.Some? {
        WriteValue(v.value, rest);
      }
    }

    method WriteOptionalVariant(v: Option<VariantHandle>, ghost rest: seq<byte>)
      modifies this
      ensures bytes + rest == old(bytes) + EmitOptionalVariant(v, rest)
    {
      hide EmitBool, EmitVariantHandle;
      WriteBool(v.Some?, if v.Some? then EmitVariantHandle(v.value, rest) else rest);
      if v.Some? {
        WriteVariantHandle(v.value, rest);
      }
    }

    method WriteCells(values: ColumnValues, ghost rest: seq<byte>)
      modifies this
      ensures bytes + rest == old(bytes) + EmitCells(values, rest)
    {
      hide EmitUInt64, EmitColumnHandle, EmitValue;
      WriteUInt64(|values|, EmitColumnValues(values, rest));
      assert values[0..] == values;
      for i := 0 to |values|
        invariant bytes + EmitColumnValues(values[i..], rest) == old(bytes) + EmitCells(values, rest)
      {
        ghost var after := EmitColumnValues(values[i + 1..], rest);
        assert values[i..][0] == values[i] && values[i..][1..] == values[i + 1..];
        WriteColumnHandle(values[i].column, EmitValue(values[i].value, after));
        WriteValue(values[i].value, after);
      }
      assert values[|values|..] == [];
    }

    method WriteItemSnapshot(x: ItemSnapshot, ghost rest: seq<byte>)
      modifies this
      ensures bytes + rest == old(bytes) + EmitItemSnapshot(x, rest)
    {
      hide EmitUInt64, EmitByte, EmitUInt32, EmitOptionalId, EmitOptionalVariant, EmitCells, EmitOptionalValue;
      ghost var r7 := EmitOptionalId(x.listIndex, rest);
      ghost var r6 := EmitOptionalValue(x.listAssociationValue, r7);
      ghost var r5 := EmitCells(x.values, r6);
      ghost var r4 := EmitOptionalVariant(x.variant, r5);
      ghost var r3 := EmitOptionalId(x.parentId, r4);
      ghost var r2 := EmitUInt32(x.containerId, r3);
      WriteUInt64(x.id, EmitByte(x.containerKind, r2));
      WriteByte(x.containerKind, r2);
      WriteUInt32(x.containerId, r3);
      WriteOptionalId(x.parentId, r4);
      WriteOptionalVariant(x.variant, r5);
      WriteCells(x.values, r6);
      WriteOptionalValue(x.listAssociationValue, r7);
      WriteOptionalId(x.listIndex, rest);
    }

    method WriteOperation(op: Operation, ghost rest: seq<byte>)
      modifies this
      ensures bytes + rest == old(bytes) + EmitOperation(op, rest)
    {
      hide EmitUInt64, EmitByte, EmitBool, EmitInt64, EmitValue, EmitColumnHandle, EmitListHandle, EmitOptionalId, EmitItemSnapshot;
      WriteByte(Kind(op), EmitPayload(op, rest));
      match op
      case ItemInserted(item) =>
        WriteItemSnapshot(item, rest);
      case ItemRemoved(item, cascade) =>
        WriteItemSnapshot(item, EmitBool(cascade, rest));
        WriteBool(cascade, rest);
      case ColumnUpdated(itemId, column, oldValue, newValue, targetIndex, oldListIndex) =>
        ghost var r := EmitOptionalId(targetIndex, EmitOptionalId(oldListIndex, rest));
        WriteUInt64(itemId, EmitColumnHandle(column, EmitValue(oldValue, EmitValue(newValue, r))));
        WriteColumnHandle(column, EmitValue(oldValue, EmitValue(newValue, r)));
        WriteValue(oldValue, EmitValue(newValue, r));
        WriteValue(newValue, r);
        WriteOptionalId(targetIndex, EmitOptionalId(oldListIndex, rest));
        WriteOptionalId(oldListIndex, rest);
      case ComputedColumnUpdated(itemId, column, oldValue, newValue) =>
        WriteUInt64(itemId, EmitColumnHandle(column, EmitValue(oldValue, EmitValue(newValue, rest))));
        WriteColumnHandle(column, EmitValue(oldValue, EmitValue(newValue, rest)));
        WriteValue(oldValue, EmitValue(newValue, rest));
        WriteValue(newValue, rest);
      case CascadeRemoved(item, ancestorId) =>
        WriteItemSnapshot(item, EmitUInt64(ancestorId, rest));
        WriteUInt64(ancestorId, rest);
      case ListInserted(list, v, index, item) =>
        WriteListItem(list, v, index, item, rest);
      case ListRemoved(list, v, index, item) =>
        WriteListItem(list, v, index, item, rest);
      case ListRotated(list, v, startIndex, count, offset) =>
        ghost var r := EmitUInt64(startIndex, EmitUInt64(count, EmitInt64(offset, rest)));
        WriteListHandle(list, EmitValue(v, r));
        WriteValue(v, r);
        WriteUInt64(startIndex, EmitUInt64(count, EmitInt64(offset, rest)));
        WriteUInt64(count, EmitInt64(offset, rest));
        WriteInt64(offset, rest);
    }

    method WriteListItem(list: ListHandle, v: Value, index: uint64, item: ItemSnapshot, ghost rest: seq<byte>)
      modifies this
      ensures bytes + rest == old(bytes) + EmitListHandle(list, EmitValue(v, EmitUInt64(index, EmitItemSnapshot(item, rest))))
    {
      hide EmitUInt64, EmitValue, EmitListHandle, EmitItemSnapshot;
      WriteListHandle(list, EmitValue(v, EmitUInt64(index, EmitItemSnapshot(item, rest))));
      WriteValue(v, EmitUInt64(index, EmitItemSnapshot(item, rest)));
      WriteUInt64(index, EmitItemSnapshot(item, rest));
      WriteItemSnapshot(item, rest);
    }

    method WriteOperations(ops: seq<Operation>, ghost rest: seq<byte>)
      modifies this
      ensures bytes + rest == old(bytes) + EmitOperations(ops, rest)
    {
      hide EmitOperation;
      assert ops[0..] == ops;
      for i := 0 to |ops|
        invariant bytes + EmitOperations(ops[i..], rest) == old(bytes) + EmitOperations(ops, rest)
      {
        assert ops[i..][0] == ops[i] && ops[i..][1..] == ops[i + 1..];
        WriteOperation(ops[i], EmitOperations(ops[i + 1..], rest));
      }
      assert ops[|ops|..] == [];
    }

    method WriteLinks(links: seq<Link>, ghost rest: seq<byte>)
      modifies this
      ensures bytes + rest == old(bytes) + EmitLinks(links, rest)
    {
      hide EmitUInt64;
      assert links[0..] == links;
      for i := 0 to |links|
        invariant bytes + EmitLinks(links[i..], rest) == old(bytes) + EmitLinks(links, rest)
      {
        ghost var after := EmitLinks(links[i + 1..], rest);
        assert links[i..][0] == links[i] && links[i..][1..] == links[i + 1..];
        WriteUInt64(links[i].sourceOperation, EmitUInt64(links[i].derivedOperation, after));
        WriteUInt64(links[i].derivedOperation, after);
      }
      assert links[|links|..] == [];
    }
  }

  /** `serializeChangeSet`. */
  method SerializeChangeSet(x: ChangeSet) returns (bytes: seq<byte>)
    requires x.Storable()
    ensures bytes == Serialize(x)
  {
    hide EmitUInt64, EmitUInt32, EmitOperations, EmitLinks;
    var writer := new BinaryWriter();
    ghost var links := EmitUInt64(|x.derivedLinks|, EmitLinks(x.derivedLinks, []));
    ghost var body := EmitUInt32(FORMAT_VERSION, EmitUInt64(|x.operations|, EmitOperations(x.operations, links)));
    for i := 0 to |MAGIC|
      invariant fresh(writer) && writer.bytes + (MAGIC[i..] + body) == MAGIC + body
    {
      assert MAGIC[i..] + body == [MAGIC[i]] + (MAGIC[i + 1..] + body);
      writer.WriteByte(MAGIC[i], MAGIC[i + 1..] + body);
    }
    assert MAGIC[|MAGIC|..] + body == body;
    writer.WriteUInt32(FORMAT_VERSION, EmitUInt64(|x.operations|, EmitOperations(x.operations, links)));
    writer.WriteUInt64(|x.operations|, EmitOperations(x.operations, links));
    writer.WriteOperations(x.operations, links);
    writer.WriteUInt64(|x.derivedLinks|, EmitLinks(x.derivedLinks, []));
    writer.WriteLinks(x.derivedLinks, []);
    bytes := writer.bytes;
    assert bytes + [] == bytes;
  }

  // ----- Reading -----

  /** A read gave what parsing gives, and left what parsing leaves. */
  predicate Reads<T(==)>(spec: Option<Parsed<T>>, r: Option<T>, rest: seq<byte>) {
    match spec
    case None => r.None?
    case Some(p) => r == Some(p.value) && rest == p.rest
  }

  class BinaryReader {
    const bytes: seq<byte>
    var offset: nat

    ghost predicate Valid()
      reads this
    {
      offset <= |bytes|
    }

    ghost function Rest(): seq<byte>
      reads this
      requires Valid()
    {
      bytes[offset..]
    }

    constructor (bytes: seq<byte>)
      ensures Valid() && Rest() == bytes
    {
      this.bytes, offset := bytes, 0;
    }

    method AtEnd() returns (r: bool)
      requires Valid()
      ensures r <==> Rest() == []
    {
      r := offset == |bytes|;
    }

    /** `readMagic`. */
    method ReadMagic() returns (ok: bool)
      requires Valid()
      modifies this
      ensures Valid() && (ok <==> MAGIC <= old(Rest()))
      ensures ok ==> Rest() == old(Rest())[|MAGIC|..]
    {
      ghost var was := Rest();
      for i := 0 to |MAGIC|
        invariant Valid() && i <= |was| && was[..i] == MAGIC[..i] && Rest() == was[i..]
      {
        var b := ReadByte();
        if b != Some(MAGIC[i]) {
          NotMagic(was, i);
          return false;
        }
        assert was[..i + 1] == was[..i] + [was[i]] && MAGIC[..i + 1] == MAGIC[..i] + [MAGIC[i]];
      }
      ok := true;
    }

    method ReadByte() returns (r: Option<byte>)
      requires Valid()
      modifies this
      ensures Valid() && Reads(ParseByte(old(Rest())), r, Rest())
    {
      if offset >= |bytes| {
        return None;
      }
      r := Some(bytes[offset]);
      offset := offset + 1;
    }

    method ReadBool() returns (r: Option<bool>)
      requires Valid()
      modifies this
      ensures Valid() && Reads(ParseBool(old(Rest())), r, Rest())
    {
      hide ParseByte;
      var b :- ReadByte();
      r := if b > 1 then None else Some(b != 0);
    }

    /** The loop of `readUInt32` and `readUInt64`. */
    method ReadUInt(n: nat) returns (r: Option<nat>)
      requires Valid()
      modifies this
      ensures Valid() && Reads(ParseUInt(old(Rest()), n), r, Rest())
    {
      hide ParseByte, ParseUInt, SoFar, Bound;
      var value: nat := 0;
      SoFarStarts(ParseUInt(Rest(), n));
      for i := 0 to n
        invariant Valid() && SoFar(value, Bound(i), ParseUInt(Rest(), n - i)) == ParseUInt(old(Rest()), n)
      {
        SoFarNext(value, i, Rest(), n - i);
        var b :- ReadByte();
        value := value + b * Bound(i);
      }
      NoBytes(Rest());
      NothingHigh(value, Bound(n), Rest());
      r := Some(value);
    }

    method ReadUInt32() returns (r: Option<uint32>)
      requires Valid()
      modifies this
      ensures Valid() && Reads(ParseUInt32(old(Rest())), r, Rest())
    {
      hide ParseUInt;
      Bounds();
      var v :- ReadUInt(4);
      r := Some(v);
    }

    method ReadUInt64() returns (r: Option<uint64>)
      requires Valid()
      modifies this
      ensures Valid() && Reads(ParseUInt64(old(Rest())), r, Rest())
    {
      hide ParseUInt;
      Bounds();
      var v :- ReadUInt(8);
      r := Some(v);
    }

    method ReadInt64() returns (r: Option<int64>)
      requires Valid()
      modifies this
      ensures Valid() && Reads(ParseInt64(old(Rest())), r, Rest())
    {
      hide ParseUInt64;
      var v :- ReadUInt64();
      r := Some(AsSigned(v));
    }

    method ReadBytes() returns (r: Option<Bytes>)
      requires Valid()
      modifies this
      ensures Valid() && Reads(ParseBytes(old(Rest())), r, Rest())
    {
      hide ParseUInt64;
      var size :- ReadUInt64();
      if |bytes| - offset < size {
        return None;
      }
      ghost var was := Rest();
      r := Some(bytes[offset..offset + size]);
      offset := offset + size;
      assert was[..size] == r.value && was[size..] == Rest();
    }

    method ReadValue() returns (r: Option<Value>)
      requires Valid()
      modifies this
      ensures Valid() && Reads(ParseValue(old(Rest())), r, Rest())
    {
      hide ParseByte, ParseBool, ParseInt64, ParseUInt64, ParseBytes;
      var tag :- ReadByte();
      match tag
      case 0 => r := Some(Null);
      case 1 => var b :- ReadBool(); r := Some(Bool(b));
      case 2 => var i :- ReadInt64(); r := Some(Int64(i));
      case 3 => var u :- ReadUInt64(); r := Some(UInt64(u));
      case 4 => var bits :- ReadUInt64(); r := Some(Double(bits));
      case 5 => var chars :- ReadBytes(); r := Some(String(chars));
      case 6 => var payload :- ReadBytes(); r := Some(Binary(payload));
      case _ => r := None;
    }

    method ReadColumnHandle() returns (r: Option<ColumnHandle>)
      requires Valid()
      modifies this
      ensures Valid() && Reads(ParseColumnHandle(old(Rest())), r, Rest())
    {
      hide ParseUInt64, ParseUInt32, ParseBytes;
      var schemaId :- ReadUInt64();
      var containerId :- ReadUInt32();
      var columnId :- ReadUInt32();
      var debugName :- ReadBytes();
      r := Some(ColumnHandle(schemaId, containerId, columnId, debugName));
    }

    method ReadListHandle() returns (r: Option<ListHandle>)
      requires Valid()
      modifies this
      ensures Valid() && Reads(ParseListHandle(old(Rest())), r, Rest())
    {
      hide ParseUInt64, ParseUInt32, ParseBytes;
      var schemaId :- ReadUInt64();
      var containerId :- ReadUInt32();
      var debugName :- ReadBytes();
      r := Some(ListHandle(schemaId, containerId, debugName));
    }

    method ReadVariantHandle() returns (r: Option<VariantHandle>)
      requires Valid()
      modifies this
      ensures Valid() && Reads(ParseVariantHandle(old(Rest())), r, Rest())
    {
      hide ParseUInt64, ParseUInt32, ParseBytes;
      var schemaId :- ReadUInt64();
      var containerId :- ReadUInt32();
      var variantId :- ReadUInt32();
      var debugName :- ReadBytes();
      r := Some(VariantHandle(schemaId, containerId, variantId, debugName));
    }

    method ReadOptionalId() returns (r: Option<Option<uint64>>)
      requires Valid()
      modifies this
      ensures Valid() && Reads(ParseOptionalId(old(Rest())), r, Rest())
    {
      hide ParseBool, ParseUInt64;
      var there :- ReadBool();
      if !there {
        return Some(None);
      }
      var id :- ReadUInt64();
      r := Some(Some(id));
    }

    method ReadOptionalValue() returns (r: Option<Option<Value>>)
      requires Valid()
      modifies this
      ensures Valid() && Reads(ParseOptionalValue(old(Rest())), r, Rest())
    {
      hide ParseBool, ParseValue;
      var there :- ReadBool();
      if !there {
        return Some(None);
      }
      var v :- ReadValue();
      r := Some(Some(v));
    }

    method ReadOptionalVariant() returns (r: Option<Option<VariantHandle>>)
      requires Valid()
      modifies this
      ensures Valid() && Reads(ParseOptionalVariant(old(Rest())), r, Rest())
    {
      hide ParseBool, ParseVariantHandle;
      var there :- ReadBool();
      if !there {
        return Some(None);
      }
      var v :- ReadVariantHandle();
      r := Some(Some(v));
    }

    method ReadCells() returns (r: Option<ColumnValues>)
      requires Valid()
      modifies this
      ensures Valid() && Reads(ParseCells(old(Rest())), r, Rest())
    {
      hide ParseUInt64, ParseColumnHandle, ParseValue;
      var count :- ReadUInt64();
      var values: seq<ColumnValue> := [];
      ghost var start := Rest();
      NothingBefore(ParseColumnValues(start, count));
      for i := 0 to count
        invariant Valid() && |values| == i && Joined(values, ParseColumnValues(Rest(), count - i)) == ParseColumnValues(start, count)
      {
        ghost var s := Rest();
        ghost var was := values;
        var column :- ReadColumnHandle();
        var v :- ReadValue();
        OneMoreBefore(was, ColumnValue(column, v), ParseColumnValues(Rest(), count - i - 1));
        values := values + [ColumnValue(column, v)];
      }
      assert values + [] == values;
      r := Some(values);
    }

    method ReadItemSnapshot() returns (r: Option<ItemSnapshot>)
      requires Valid()
      modifies this
      ensures Valid() && Reads(ParseItemSnapshot(old(Rest())), r, Rest())
    {
      hide ParseUInt64, ParseByte, ParseUInt32, ParseOptionalId, ParseOptionalVariant, ParseCells, ParseOptionalValue;
      var id :- ReadUInt64();
      var containerKind :- ReadByte();
      var containerId :- ReadUInt32();
      var parentId :- ReadOptionalId();
      var variant :- ReadOptionalVariant();
      var values :- ReadCells();
      var listAssociationValue :- ReadOptionalValue();
      var listIndex :- ReadOptionalId();
      r := Some(ItemSnapshot(id, containerKind, containerId, parentId, variant, values, listAssociationValue, listIndex));
    }

    method ReadPayload(kind: byte) returns (r: Option<Operation>)
      requires Valid()
      modifies this
      ensures Valid() && Reads(ParsePayload(kind, old(Rest())), r, Rest())
    {
      hide ParseUInt64, ParseBool, ParseInt64, ParseValue, ParseColumnHandle, ParseListHandle, ParseOptionalId, ParseItemSnapshot;
      match kind
      case 0 =>
        var item :- ReadItemSnapshot();
        r := Some(ItemInserted(item));
      case 1 =>
        var item :- ReadItemSnapshot();
        var cascade :- ReadBool();
        r := Some(ItemRemoved(item, cascade));
      case 2 =>
        var itemId :- ReadUInt64();
        var column :- ReadColumnHandle();
        var oldValue :- ReadValue();
        var newValue :- ReadValue();
        var targetIndex :- ReadOptionalId();
        var oldListIndex :- ReadOptionalId();
        r := Some(ColumnUpdated(itemId, column, oldValue, newValue, targetIndex, oldListIndex));
      case 3 =>
        var itemId :- ReadUInt64();
        var column :- ReadColumnHandle();
        var oldValue :- ReadValue();
        var newValue :- ReadValue();
        r := Some(ComputedColumnUpdated(itemId, column, oldValue, newValue));
      case 4 =>
        var item :- ReadItemSnapshot();
        var ancestorId :- ReadUInt64();
        r := Some(CascadeRemoved(item, ancestorId));
      case 5 =>
        var list :- ReadListHandle();
        var v :- ReadValue();
        var index :- ReadUInt64();
        var item :- ReadItemSnapshot();
        r := Some(ListInserted(list, v, index, item));
      case 6 =>
        var list :- ReadListHandle();
        var v :- ReadValue();
        var index :- ReadUInt64();
        var item :- ReadItemSnapshot();
        r := Some(ListRemoved(list, v, index, item));
      case 7 =>
        var list :- ReadListHandle();
        var v :- ReadValue();
        var startIndex :- ReadUInt64();
        var count :- ReadUInt64();
        var offset :- ReadInt64();
        r := Some(ListRotated(list, v, startIndex, count, offset));
      case _ =>
        r := None;
    }

    method ReadOperation() returns (r: Option<Operation>)
      requires Valid()
      modifies this
      ensures Valid() && Reads(ParseOperation(old(Rest())), r, Rest())
    {
      hide ParseByte, ParsePayload;
      var kind :- ReadByte();
      r := ReadPayload(kind);
    }

    method ReadOperations(n: nat) returns (r: Option<seq<Operation>>)
      requires Valid()
      modifies this
      ensures Valid() && Reads(ParseOperations(old(Rest()), n), r, Rest())
    {
      hide ParseOperation;
      var ops: seq<Operation> := [];
      ghost var start := Rest();
      NothingBefore(ParseOperations(start, n));
      for i := 0 to n
        invariant Valid() && Joined(ops, ParseOperations(Rest(), n - i)) == ParseOperations(start, n)
      {
        var op :- ReadOperation();
        OneMoreBefore(ops, op, ParseOperations(Rest(), n - i - 1));
        ops := ops + [op];
      }
      assert ops + [] == ops;
      r := Some(ops);
    }

    /** Each link is checked as it is added. */
    method ReadLinks(m: nat, n: nat) returns (r: Option<seq<Link>>)
      requires Valid()
      modifies this
      ensures Valid() && Reads(ParseLinks(old(Rest()), m, n), r, Rest())
    {
      hide ParseUInt64;
      var links: seq<Link> := [];
      ghost var start := Rest();
      NothingBefore(ParseLinks(start, m, n));
      for i := 0 to m
        invariant Valid() && Joined(links, ParseLinks(Rest(), m - i, n)) == ParseLinks(start, m, n)
      {
        var sourceOperation :- ReadUInt64();
        var derivedOperation :- ReadUInt64();
        var link := Link(sourceOperation, derivedOperation);
        if !InRange(link, n) {
          return None;
        }
        OneMoreBefore(links, link, ParseLinks(Rest(), m - i - 1, n));
        links := links + [link];
      }
      assert links + [] == links;
      r := Some(links);
    }
  }

  lemma NotMagic(s: seq<byte>, i: nat)
    requires i < |MAGIC| && (|s| <= i || s[i] != MAGIC[i])
    ensures !(MAGIC <= s)
  {
  }

  /** A number of which the low bytes have been read. */
  function SoFar(value: nat, weight: nat, rest: Option<Parsed<nat>>): Option<Parsed<nat>> {
    match rest
    case None => None
    case Some(p) => Some(Parsed(value + weight * p.value, p.rest))
  }

  lemma SoFarStarts(rest: Option<Parsed<nat>>)
    ensures SoFar(0, Bound(0), rest) == rest
  {
  }

  lemma NoBytes(s: seq<byte>)
    ensures ParseUInt(s, 0) == Some(Parsed(0, s))
  {
  }

  lemma NothingHigh(value: nat, weight: nat, s: seq<byte>)
    ensures SoFar(value, weight, Some(Parsed(0, s))) == Some(Parsed(value, s))
  {
  }

  lemma SoFarNext(value: nat, i: nat, s: seq<byte>, n: nat)
    requires n > 0
    ensures SoFar(value, Bound(i), ParseUInt(s, n)) ==
            match ParseByte(s)
            case None => None
            case Some(p) => SoFar(value + p.value * Bound(i), Bound(i + 1), ParseUInt(p.rest, n - 1))
  {
    if s != [] {
      var w, low := Bound(i), s[0];
      var next := ParseUInt(s[1..], n - 1);
      if next.Some? {
        var high := next.value.value;
        assert w * (low + 0x100 * high) == low * w + (0x100 * w) * high;
      }
    }
  }

  /** A list of which the first members have been read. */
  function Joined<T>(before: seq<T>, rest: Option<Parsed<seq<T>>>): Option<Parsed<seq<T>>> {
    match rest
    case None => None
    case Some(p) => Some(Parsed(before + p.value, p.rest))
  }

  lemma NothingBefore<T>(rest: Option<Parsed<seq<T>>>)
    ensures Joined([], rest) == rest
  {
    if rest.Some? {
      assert [] + rest.value.value == rest.value.value;
    }
  }

  lemma OneMoreBefore<T>(before: seq<T>, x: T, rest: Option<Parsed<seq<T>>>)
    ensures Joined(before + [x], rest) == Joined(before, Joined([x], rest))
  {
    if rest.Some? {
      assert before + [x] + rest.value.value == before + ([x] + rest.value.value);
    }
  }

  /** `deserializeChangeSet`. */
  method DeserializeChangeSet(bytes: seq<byte>) returns (r: Option<ChangeSet>)
    ensures r == Deserialize(bytes)
  {
    hide ParseUInt64, ParseUInt32, ParseOperations, ParseLinks;
    var reader := new BinaryReader(bytes);
    var known := reader.ReadMagic();
    if !known {
      return None;
    }
    var version :- reader.ReadUInt32();
    if version != FORMAT_VERSION {
      return None;
    }
    var n :- reader.ReadUInt64();
    var operations :- reader.ReadOperations(n);
    var m :- reader.ReadUInt64();
    var links :- reader.ReadLinks(m, n);
    var end := reader.AtEnd();
    r := if end then Some(ChangeSet(operations, links)) else None;
  }
}
