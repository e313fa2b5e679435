/** The bytes of the change log as they lie in a file, written out apart from the code that
    writes and reads them: numbers low byte first, the tags of values and the numbers of
    operation kinds, and each part's fields in their order (src/change_log.cpp:12-174,
    178-232, 319-511; include/dini/types.h:76-84, 206-215). */
module LogFormat {
  import opened Wrappers
  import opened Values
  import opened Codec

  // ----- Numbers -----

  function U32(v: uint32): seq<byte> {
    [v % 0x100, v / 0x100 % 0x100, v / 0x1_0000 % 0x100, v / 0x100_0000]
  }

  function U64(v: uint64): seq<byte> {
    [v % 0x100, v / 0x100 % 0x100, v / 0x1_0000 % 0x100, v / 0x100_0000 % 0x100,
     v / 0x1_0000_0000 % 0x100, v / 0x100_0000_0000 % 0x100, v / 0x1_0000_0000_0000 % 0x100, v / 0x100_0000_0000_0000]
  }

  /** The four low bytes of a number, and what is left of it. */
  lemma FourBytes(v: nat, n: nat, rest: seq<byte>)
    ensures EmitUInt(v, n + 4, rest)
         == [v % 0x100, v / 0x100 % 0x100, v / 0x1_0000 % 0x100, v / 0x100_0000 % 0x100] + EmitUInt(v / 0x1_0000_0000, n, rest)
  {
    hide EmitUInt;
    var a := v / 0x100;
    var b := a / 0x100;
    var c := b / 0x100;
    assert b == v / 0x1_0000 && c == v / 0x100_0000 && c / 0x100 == v / 0x1_0000_0000;
    LowByte(v, n + 4, rest);
    LowByte(a, n + 3, rest);
    LowByte(b, n + 2, rest);
    LowByte(c, n + 1, rest);
  }

  lemma LowByte(v: nat, n: nat, rest: seq<byte>)
    requires n > 0
    ensures EmitUInt(v, n, rest) == [v % 0x100] + EmitUInt(v / 0x100, n - 1, rest)
  {
  }

  lemma UInt32Written(v: uint32, rest: seq<byte>)
    ensures EmitUInt32(v, rest) == U32(v) + rest
  {
    FourBytes(v, 0, rest);
    assert v / 0x100_0000 < 0x100;
  }

  lemma UInt64Written(v: uint64, rest: seq<byte>)
    ensures EmitUInt64(v, rest) == U64(v) + rest
  {
    hide EmitUInt;
    var high := v / 0x1_0000_0000;
    FourBytes(v, 4, rest);
    FourBytes(high, 0, rest);
    NoBytes(high / 0x1_0000_0000, rest);
    HighBytes(v);
  }

  lemma NoBytes(v: nat, rest: seq<byte>)
    ensures EmitUInt(v, 0, rest) == rest
  {
  }

  lemma HighBytes(v: uint64)
    ensures var high := v / 0x1_0000_0000;
            && high / 0x100 == v / 0x100_0000_0000 && high / 0x1_0000 == v / 0x1_0000_0000_0000
            && high / 0x100_0000 == v / 0x100_0000_0000_0000 && high / 0x100_0000 < 0x100
  {
  }

  // ----- Values and handles -----

  /** Bytes behind their number. */
  function Chunk(b: Bytes): seq<byte> {
    U64(|b|) + b
  }

  function ValueForm(v: Value): seq<byte> {
    match v
    case Null => [0]
    case Bool(b) => [1, if b then 1 else 0]
    case Int64(i) => [2] + U64(if i < 0 then i + 0x1_0000_0000_0000_0000 else i)
    case UInt64(u) => [3] + U64(u)
    case Double(bits) => [4] + U64(bits)
    case String(chars) => [5] + Chunk(chars)
    case Binary(bytes) => [6] + Chunk(bytes)
  }

  function ColumnForm(h: ColumnHandle): seq<byte> {
    U64(h.schemaId) + U32(h.containerId) + U32(h.columnId) + Chunk(h.debugName)
  }

  function ListForm(h: ListHandle): seq<byte> {
    U64(h.schemaId) + U32(h.containerId) + Chunk(h.debugName)
  }

  function VariantForm(h: VariantHandle): seq<byte> {
    U64(h.schemaId) + U32(h.containerId) + U32(h.variantId) + Chunk(h.debugName)
  }

  lemma Grouped(a: seq<byte>, b: seq<byte>, c: seq<byte>)
    ensures a + (b + c) == (a + b) + c
  {
  }

  lemma ChunkWritten(b: Bytes, rest: seq<byte>)
    ensures EmitBytes(b, rest) == Chunk(b) + rest
  {
    hide EmitUInt64, U64;
    UInt64Written(|b|, b + rest);
    Grouped(U64(|b|), b, rest);
  }

  lemma ValueWritten(v: Value, rest: seq<byte>)
    ensures EmitValue(v, rest) == ValueForm(v) + rest
  {
    hide EmitUInt64, EmitBytes, U64, Chunk;
    match v
    case Null =>
    case Bool(_) =>
    case Int64(i) => UInt64Written(AsUnsigned(i), rest);
    case UInt64(u) => UInt64Written(u, rest);
    case Double(bits) => UInt64Written(bits, rest);
    case String(chars) => ChunkWritten(chars, rest);
    case Binary(bytes) => ChunkWritten(bytes, rest);
  }

  lemma ColumnWritten(h: ColumnHandle, rest: seq<byte>)
    ensures EmitColumnHandle(h, rest) == ColumnForm(h) + rest
  {
    hide EmitUInt64, EmitUInt32, EmitBytes, U64, U32, Chunk;
    ChunkWritten(h.debugName, rest);
    UInt32Written(h.columnId, Chunk(h.debugName) + rest);
    UInt32Written(h.containerId, U32(h.columnId) + (Chunk(h.debugName) + rest));
    UInt64Written(h.schemaId, U32(h.containerId) + (U32(h.columnId) + (Chunk(h.debugName) + rest)));
  }

  lemma ListWritten(h: ListHandle, rest: seq<byte>)
    ensures EmitListHandle(h, rest) == ListForm(h) + rest
  {
    hide EmitUInt64, EmitUInt32, EmitBytes, U64, U32, Chunk;
    ChunkWritten(h.debugName, rest);
    UInt32Written(h.containerId, Chunk(h.debugName) + rest);
    UInt64Written(h.schemaId, U32(h.containerId) + (Chunk(h.debugName) + rest));
  }

  lemma VariantWritten(h: VariantHandle, rest: seq<byte>)
    ensures EmitVariantHandle(h, rest) == VariantForm(h) + rest
  {
    hide EmitUInt64, EmitUInt32, EmitBytes, U64, U32, Chunk;
    ChunkWritten(h.debugName, rest);
    UInt32Written(h.variantId, Chunk(h.debugName) + rest);
    UInt32Written(h.containerId, U32(h.variantId) + (Chunk(h.debugName) + rest));
    UInt64Written(h.schemaId, U32(h.containerId) + (U32(h.variantId) + (Chunk(h.debugName) + rest)));
  }

  // ----- Items -----

  function IdForm(id: Option<uint64>): seq<byte> {
    if id.None? then [0] else [1] + U64(id.value)
  }

  function CellForms(values: seq<ColumnValue>): seq<byte> {
    if values == [] then [] else ColumnForm(values[0].column) + ValueForm(values[0].value) + CellForms(values[1..])
  }

  function ItemForm(x: ItemSnapshot): seq<byte> {
    U64(x.id) + [x.containerKind] + U32(x.containerId) + IdForm(x.parentId)
    + (if x.variant.None? then [0] else [1] + VariantForm(x.variant.value))
    + (U64(|x.values|) + CellForms(x.values))
    + (if x.listAssociationValue.None? then [0] else [1] + ValueForm(x.listAssociationValue.value))
    + IdForm(x.listIndex)
  }

  lemma IdWritten(id: Option<uint64>, rest: seq<byte>)
    ensures EmitOptionalId(id, rest) == IdForm(id) + rest
  {
    hide EmitUInt64, U64;
    if id.Some? {
      UInt64Written(id.value, rest);
    }
  }

  lemma OptionalVariantWritten(v: Option<VariantHandle>, rest: seq<byte>)
    ensures EmitOptionalVariant(v, rest) == (if v.None? then [0] else [1] + VariantForm(v.value)) + rest
  {
    hide EmitVariantHandle, VariantForm;
    if v.Some? {
      VariantWritten(v.value, rest);
    }
  }

  lemma OptionalValueWritten(v: Option<Value>, rest: seq<byte>)
    ensures EmitOptionalValue(v, rest) == (if v.None? then [0] else [1] + ValueForm(v.value)) + rest
  {
    hide EmitValue, ValueForm;
    if v.Some? {
      ValueWritten(v.value, rest);
    }
  }

  lemma {:induction false} CellsWritten(values: seq<ColumnValue>, rest: seq<byte>)
    ensures EmitColumnValues(values, rest) == CellForms(values) + rest
  {
    hide EmitColumnHandle, EmitValue, ColumnForm, ValueForm;
    if values != [] {
      CellsWritten(values[1..], rest);
      var v := ValueForm(values[0].value);
      ValueWritten(values[0].value, CellForms(values[1..]) + rest);
      ColumnWritten(values[0].column, v + (CellForms(values[1..]) + rest));
    }
  }

  /** The item's cells, list value and position. */
  lemma ItemEndWritten(values: ColumnValues, list: Option<Value>, at: Option<uint64>, rest: seq<byte>)
    ensures EmitCells(values, EmitOptionalValue(list, EmitOptionalId(at, rest)))
         == (U64(|values|) + CellForms(values)) + ((if list.None? then [0] else [1] + ValueForm(list.value)) + (IdForm(at) + rest))
  {
    hide EmitUInt64, EmitColumnValues, EmitOptionalId, EmitOptionalValue, U64, CellForms, ValueForm, IdForm;
    var end := (if list.None? then [0] else [1] + ValueForm(list.value)) + (IdForm(at) + rest);
    IdWritten(at, rest);
    OptionalValueWritten(list, IdForm(at) + rest);
    CellsWritten(values, end);
    UInt64Written(|values|, CellForms(values) + end);
  }

  lemma ItemWritten(x: ItemSnapshot, rest: seq<byte>)
    ensures EmitItemSnapshot(x, rest) == ItemForm(x) + rest
  {
    hide EmitUInt64, EmitUInt32, EmitOptionalId, EmitOptionalVariant, EmitCells, EmitOptionalValue,
      U64, U32, IdForm, CellForms, VariantForm, ValueForm;
    var variant := if x.variant.None? then [0] else [1] + VariantForm(x.variant.value);
    var cells := U64(|x.values|) + CellForms(x.values);
    var list := if x.listAssociationValue.None? then [0] else [1] + ValueForm(x.listAssociationValue.value);
    var end := cells + (list + (IdForm(x.listIndex) + rest));
    ItemEndWritten(x.values, x.listAssociationValue, x.listIndex, rest);
    OptionalVariantWritten(x.variant, end);
    IdWritten(x.parentId, variant + end);
    UInt32Written(x.containerId, IdForm(x.parentId) + (variant + end));
    UInt64Written(x.id, [x.containerKind] + (U32(x.containerId) + (IdForm(x.parentId) + (variant + end))));
    ItemParts(U64(x.id), [x.containerKind], U32(x.containerId), IdForm(x.parentId), variant, cells, list, IdForm(x.listIndex), rest);
  }

  lemma ItemParts(a: seq<byte>, b: seq<byte>, c: seq<byte>, d: seq<byte>, e: seq<byte>, f: seq<byte>, g: seq<byte>, h: seq<byte>, rest: seq<byte>)
    ensures a + (b + (c + (d + (e + (f + (g + (h + rest))))))) == (a + b + c + d + e + f + g + h) + rest
  {
    Grouped(g, h, rest);
    Grouped(f, g, h + rest);
    Grouped(e, f, g + (h + rest));
    Grouped(d, e, f + (g + (h + rest)));
    var end := e + (f + (g + (h + rest)));
    assert a + (b + (c + (d + end))) == (a + b + c + d) + end;
    var front := a + b + c + d;
    assert front + end == (front + e + f) + (g + (h + rest));
    assert (front + e + f) + (g + (h + rest)) == (front + e + f + g + h) + rest;
  }

  // ----- Operations -----

  function OperationForm(op: Operation): seq<byte> {
    match op
    case ItemInserted(item) => [0] + ItemForm(item)
    case ItemRemoved(item, cascade) => [1] + ItemForm(item) + [if cascade then 1 else 0]
    case ColumnUpdated(itemId, column, oldValue, newValue, targetIndex, oldListIndex) =>
      [2] + U64(itemId) + ColumnForm(column) + ValueForm(oldValue) + ValueForm(newValue) + IdForm(targetIndex) + IdForm(oldListIndex)
    case ComputedColumnUpdated(itemId, column, oldValue, newValue) =>
      [3] + U64(itemId) + ColumnForm(column) + ValueForm(oldValue) + ValueForm(newValue)
    case CascadeRemoved(item, ancestorId) => [4] + ItemForm(item) + U64(ancestorId)
    case ListInserted(list, v, index, item) => [5] + ListForm(list) + ValueForm(v) + U64(index) + ItemForm(item)
    case ListRemoved(list, v, index, item) => [6] + ListForm(list) + ValueForm(v) + U64(index) + ItemForm(item)
    case ListRotated(list, v, startIndex, count, offset) =>
      [7] + ListForm(list) + ValueForm(v) + U64(startIndex) + U64(count)
      + U64(if offset < 0 then offset + 0x1_0000_0000_0000_0000 else offset)
  }

  lemma OperationWritten(op: Operation, rest: seq<byte>)
    ensures EmitOperation(op, rest) == OperationForm(op) + rest
  {
    hide EmitUInt64, EmitInt64, EmitColumnHandle, EmitListHandle, EmitValue, EmitOptionalId, EmitItemSnapshot, U64, ColumnForm, ListForm, ValueForm, IdForm, ItemForm;
    match op
    case ItemInserted(item) => ItemWritten(item, rest);
    case ItemRemoved(item, cascade) => ItemWritten(item, [if cascade then 1 else 0] + rest);
    case ColumnUpdated(itemId, column, oldValue, newValue, targetIndex, oldListIndex) =>
      MoveWritten(itemId, column, oldValue, newValue, targetIndex, oldListIndex, rest);
    case ComputedColumnUpdated(itemId, column, oldValue, newValue) => ComputedWritten(itemId, column, oldValue, newValue, rest);
    case CascadeRemoved(item, ancestorId) =>
      UInt64Written(ancestorId, rest);
      ItemWritten(item, U64(ancestorId) + rest);
    case ListInserted(list, v, index, item) => ListOperationWritten(list, v, index, item, rest);
    case ListRemoved(list, v, index, item) => ListOperationWritten(list, v, index, item, rest);
    case ListRotated(list, v, startIndex, count, offset) => RotationWritten(list, v, startIndex, count, offset, rest);
  }

  lemma ComputedWritten(itemId: uint64, column: ColumnHandle, oldValue: Value, newValue: Value, rest: seq<byte>)
    ensures var op := ComputedColumnUpdated(itemId, column, oldValue, newValue);
            EmitOperation(op, rest) == OperationForm(op) + rest
  {
    hide EmitUInt64, EmitColumnHandle, EmitValue, U64, ColumnForm, ValueForm;
    var all := U64(itemId) + ColumnForm(column) + ValueForm(oldValue) + ValueForm(newValue);
    UpdateWritten(itemId, column, oldValue, newValue, rest);
    Behind(3, all, rest);
    assert [3] + all == [3] + U64(itemId) + ColumnForm(column) + ValueForm(oldValue) + ValueForm(newValue);
  }

  lemma ListOperationWritten(list: ListHandle, v: Value, index: uint64, item: ItemSnapshot, rest: seq<byte>)
    ensures EmitOperation(ListInserted(list, v, index, item), rest) == OperationForm(ListInserted(list, v, index, item)) + rest
    ensures EmitOperation(ListRemoved(list, v, index, item), rest) == OperationForm(ListRemoved(list, v, index, item)) + rest
  {
    hide EmitUInt64, EmitListHandle, EmitValue, EmitItemSnapshot, U64, ListForm, ValueForm, ItemForm;
    var all := ListForm(list) + ValueForm(v) + U64(index) + ItemForm(item);
    ListItemWritten(list, v, index, item, rest);
    Behind(5, all, rest);
    Behind(6, all, rest);
    assert [5] + all == [5] + ListForm(list) + ValueForm(v) + U64(index) + ItemForm(item);
    assert [6] + all == [6] + ListForm(list) + ValueForm(v) + U64(index) + ItemForm(item);
  }

  lemma Behind(b: byte, a: seq<byte>, rest: seq<byte>)
    ensures EmitByte(b, a + rest) == ([b] + a) + rest
  {
  }

  lemma MoveWritten(itemId: uint64, column: ColumnHandle, oldValue: Value, newValue: Value, targetIndex: Option<uint64>, oldListIndex: Option<uint64>, rest: seq<byte>)
    ensures var op := ColumnUpdated(itemId, column, oldValue, newValue, targetIndex, oldListIndex);
            EmitOperation(op, rest) == OperationForm(op) + rest
  {
    hide EmitUInt64, EmitColumnHandle, EmitValue, EmitOptionalId, U64, ColumnForm, ValueForm, IdForm;
    var front := U64(itemId) + ColumnForm(column) + ValueForm(oldValue) + ValueForm(newValue);
    var r1 := IdForm(targetIndex) + (IdForm(oldListIndex) + rest);
    IdWritten(oldListIndex, rest);
    IdWritten(targetIndex, IdForm(oldListIndex) + rest);
    UpdateWritten(itemId, column, oldValue, newValue, r1);
    assert front + r1 == (front + IdForm(targetIndex) + IdForm(oldListIndex)) + rest;
    Behind(2, front + IdForm(targetIndex) + IdForm(oldListIndex), rest);
    assert [2] + (front + IdForm(targetIndex) + IdForm(oldListIndex)) == ([2] + U64(itemId) + ColumnForm(column) + ValueForm(oldValue) + ValueForm(newValue)) + IdForm(targetIndex) + IdForm(oldListIndex);
  }

  lemma RotationWritten(list: ListHandle, v: Value, startIndex: uint64, count: uint64, offset: int64, rest: seq<byte>)
    ensures EmitOperation(ListRotated(list, v, startIndex, count, offset), rest) == OperationForm(ListRotated(list, v, startIndex, count, offset)) + rest
  {
    hide EmitUInt64, EmitListHandle, EmitValue, U64, ListForm, ValueForm;
    var shift := U64(AsUnsigned(offset));
    ShiftWritten(startIndex, count, offset, rest);
    var numbers := U64(startIndex) + U64(count) + shift;
    ValueWritten(v, numbers + rest);
    ListWritten(list, ValueForm(v) + (numbers + rest));
    var all := ListForm(list) + ValueForm(v) + numbers;
    assert ListForm(list) + (ValueForm(v) + (numbers + rest)) == all + rest;
    Behind(7, all, rest);
    RotationParts(ListForm(list), ValueForm(v), U64(startIndex), U64(count), shift);
  }

  lemma ShiftWritten(startIndex: uint64, count: uint64, offset: int64, rest: seq<byte>)
    ensures EmitUInt64(startIndex, EmitUInt64(count, EmitInt64(offset, rest))) == U64(startIndex) + U64(count) + U64(AsUnsigned(offset)) + rest
  {
    hide EmitUInt64, U64;
    var shift := U64(AsUnsigned(offset));
    UInt64Written(AsUnsigned(offset), rest);
    UInt64Written(count, shift + rest);
    UInt64Written(startIndex, U64(count) + (shift + rest));
  }

  lemma RotationParts(a: seq<byte>, b: seq<byte>, c: seq<byte>, d: seq<byte>, e: seq<byte>)
    ensures [7] + (a + b + (c + d + e)) == [7] + a + b + c + d + e
  {
  }

  lemma UpdateWritten(itemId: uint64, column: ColumnHandle, oldValue: Value, newValue: Value, rest: seq<byte>)
    ensures EmitUInt64(itemId, EmitColumnHandle(column, EmitValue(oldValue, EmitValue(newValue, rest))))
         == U64(itemId) + ColumnForm(column) + ValueForm(oldValue) + ValueForm(newValue) + rest
  {
    hide EmitUInt64, EmitColumnHandle, EmitValue, U64, ColumnForm, ValueForm;
    var r3 := ValueForm(newValue) + rest;
    var r2 := ValueForm(oldValue) + r3;
    ValueWritten(newValue, rest);
    ValueWritten(oldValue, r3);
    ColumnWritten(column, r2);
    UInt64Written(itemId, ColumnForm(column) + r2);
  }

  lemma ListItemWritten(list: ListHandle, v: Value, index: uint64, item: ItemSnapshot, rest: seq<byte>)
    ensures EmitListHandle(list, EmitValue(v, EmitUInt64(index, EmitItemSnapshot(item, rest))))
         == ListForm(list) + ValueForm(v) + U64(index) + ItemForm(item) + rest
  {
    hide EmitUInt64, EmitListHandle, EmitValue, EmitItemSnapshot, U64, ListForm, ValueForm, ItemForm;
    var r3 := ItemForm(item) + rest;
    var r2 := U64(index) + r3;
    ItemWritten(item, rest);
    UInt64Written(index, r3);
    ValueWritten(v, r2);
    ListWritten(list, ValueForm(v) + r2);
  }

  // ----- Files -----

  function OperationForms(ops: seq<Operation>): seq<byte> {
    if ops == [] then [] else OperationForm(ops[0]) + OperationForms(ops[1..])
  }

  function LinkForms(links: seq<Link>): seq<byte> {
    if links == [] then [] else U64(links[0].sourceOperation) + U64(links[0].derivedOperation) + LinkForms(links[1..])
  }

  function FileForm(x: ChangeSet): seq<byte>
    requires x.Storable()
  {
    [0x7f, 0x44, 0x49, 0x4e, 0x49, 0x43, 0x53, 0x32] + [2, 0, 0, 0]
    + (U64(|x.operations|) + OperationForms(x.operations))
    + (U64(|x.derivedLinks|) + LinkForms(x.derivedLinks))
  }

  lemma {:induction false} OperationsWritten(ops: seq<Operation>, rest: seq<byte>)
    ensures EmitOperations(ops, rest) == OperationForms(ops) + rest
  {
    hide EmitOperation, OperationForm;
    if ops != [] {
      OperationsWritten(ops[1..], rest);
      OperationWritten(ops[0], OperationForms(ops[1..]) + rest);
    }
  }

  lemma {:induction false} LinksWritten(links: seq<Link>, rest: seq<byte>)
    ensures EmitLinks(links, rest) == LinkForms(links) + rest
  {
    hide EmitUInt64, U64;
    if links != [] {
      LinksWritten(links[1..], rest);
      UInt64Written(links[0].derivedOperation, LinkForms(links[1..]) + rest);
      UInt64Written(links[0].sourceOperation, U64(links[0].derivedOperation) + (LinkForms(links[1..]) + rest));
    }
  }

  /** What is written is the file. */
  lemma FileWritten(x: ChangeSet)
    requires x.Storable()
    ensures Serialize(x) == FileForm(x)
  {
    hide EmitUInt64, EmitUInt32, EmitOperations, EmitLinks, U64, OperationForms, LinkForms;
    var links := U64(|x.derivedLinks|) + LinkForms(x.derivedLinks);
    var ops := OperationForms(x.operations) + links;
    LinksWritten(x.derivedLinks, []);
    assert LinkForms(x.derivedLinks) + [] == LinkForms(x.derivedLinks);
    UInt64Written(|x.derivedLinks|, LinkForms(x.derivedLinks));
    OperationsWritten(x.operations, links);
    UInt64Written(|x.operations|, ops);
    UInt32Written(2, U64(|x.operations|) + ops);
    assert U64(|x.operations|) + ops == (U64(|x.operations|) + OperationForms(x.operations)) + links;
  }

  /** A file is read as a change set exactly when it is that change set's file. */
  lemma FileRead(s: seq<byte>, x: ChangeSet)
    ensures Deserialize(s) == Some(x) <==> x.Storable() && x.LinksInRange() && s == FileForm(x)
  {
    hide Serialize, Deserialize, FileForm;
    if Deserialize(s) == Some(x) {
      AcceptedIsCanonical(s);
      FileWritten(x);
    }
    if x.Storable() && x.LinksInRange() {
      SerializedReadsBack(x);
      FileWritten(x);
    }
  }

  // ----- Files of one operation, byte by byte -----

  const MAGIC_VERSION_ONE: seq<byte> := [0x7f, 0x44, 0x49, 0x4e, 0x49, 0x43, 0x53, 0x32, 2, 0, 0, 0, 1, 0, 0, 0, 0, 0, 0, 0]

  /** Item 9 of list container 4 below item 3, with the value true in column 6 of schema 1
      and at position 2 of its list. */
  const ITEM: ItemSnapshot :=
    ItemSnapshot(9, 1, 4, Some(3), None, [ColumnValue(ColumnHandle(1, 4, 6, []), Bool(true))], Some(UInt64(3)), Some(2))

  function ItemBytes(): seq<byte> {
    [9, 0, 0, 0, 0, 0, 0, 0] + [1] + [4, 0, 0, 0] + [1, 3, 0, 0, 0, 0, 0, 0, 0] + [0]
    + ([1, 0, 0, 0, 0, 0, 0, 0] + ([1, 0, 0, 0, 0, 0, 0, 0] + [4, 0, 0, 0] + [6, 0, 0, 0] + [0, 0, 0, 0, 0, 0, 0, 0] + [1, 1]))
    + [1, 3, 3, 0, 0, 0, 0, 0, 0, 0] + [1, 2, 0, 0, 0, 0, 0, 0, 0]
  }

  lemma ItemIs()
    ensures ItemForm(ITEM) == ItemBytes()
  {
    CellBytes();
    SmallBytes();
    hide U64, U32, CellForms, ColumnForm;
    assert ItemForm(ITEM) == U64(9) + [1] + U32(4) + ([1] + U64(3)) + [0] + (U64(1) + CellForms(ITEM.values)) + ([1] + ([3] + U64(3))) + ([1] + U64(2));
    assert [1] + U64(3) == [1, 3, 0, 0, 0, 0, 0, 0, 0] && [1] + ([3] + U64(3)) == [1, 3, 3, 0, 0, 0, 0, 0, 0, 0] && [1] + U64(2) == [1, 2, 0, 0, 0, 0, 0, 0, 0];
  }

  /** Numbers below 256. */
  lemma SmallBytes()
    ensures forall n: uint64 :: n < 0x100 ==> U64(n) == [n, 0, 0, 0, 0, 0, 0, 0]
    ensures forall n: uint32 :: n < 0x100 ==> U32(n) == [n, 0, 0, 0]
  {
  }

  lemma CellBytes()
    ensures CellForms(ITEM.values) ==
            [1, 0, 0, 0, 0, 0, 0, 0] + [4, 0, 0, 0] + [6, 0, 0, 0] + [0, 0, 0, 0, 0, 0, 0, 0] + [1, 1]
  {
    SmallBytes();
    hide U64, U32;
    var h := ColumnHandle(1, 4, 6, []);
    assert ITEM.values[0] == ColumnValue(h, Bool(true)) && ITEM.values[1..] == [];
    assert CellForms([]) == [];
    assert U64(0) + [] == U64(0);
    assert ColumnForm(h) == U64(1) + U32(4) + U32(6) + U64(0);
    assert CellForms(ITEM.values) == ColumnForm(h) + [1, 1] + [];
  }

  const NO_LINKS: seq<byte> := [0, 0, 0, 0, 0, 0, 0, 0]

  /** Column 6 of container 4, and the list container 4, of schema 1. */
  const COLUMN: ColumnHandle := ColumnHandle(1, 4, 6, [])
  const LIST: ListHandle := ListHandle(1, 4, [])
  function ColumnBytes(): seq<byte> { [1, 0, 0, 0, 0, 0, 0, 0] + [4, 0, 0, 0] + [6, 0, 0, 0] + [0, 0, 0, 0, 0, 0, 0, 0] }
  function ListBytes(): seq<byte> { [1, 0, 0, 0, 0, 0, 0, 0] + [4, 0, 0, 0] + [0, 0, 0, 0, 0, 0, 0, 0] }

  lemma HandlesAre()
    ensures ColumnForm(COLUMN) == ColumnBytes() && ListForm(LIST) == ListBytes()
  {
    SmallBytes();
    hide U64, U32;
    assert U64(0) + [] == U64(0);
  }

  /** The bytes are the file of one operation, written and read. */
  ghost predicate IsFileOf(op: Operation, operation: seq<byte>) {
    var bytes, x := MAGIC_VERSION_ONE + operation + NO_LINKS, ChangeSet([op], []);
    Serialize(x) == bytes && Deserialize(bytes) == Some(x)
  }

  lemma OneOperation(op: Operation, operation: seq<byte>)
    requires OperationForm(op) == operation
    ensures IsFileOf(op, operation)
  {
    hide Serialize, Deserialize, OperationForm;
    var x := ChangeSet([op], []);
    SmallBytes();
    assert x.operations[1..] == [] && OperationForms([]) == [] && LinkForms([]) == [];
    assert OperationForms(x.operations) == operation + [] == operation;
    OneOperationFile(operation);
    FileWritten(x);
    FileRead(FileForm(x), x);
  }

  lemma OneOperationFile(operation: seq<byte>)
    ensures [0x7f, 0x44, 0x49, 0x4e, 0x49, 0x43, 0x53, 0x32] + [2, 0, 0, 0] + (U64(1) + operation) + (U64(0) + [])
         == MAGIC_VERSION_ONE + operation + NO_LINKS
  {
    SmallBytes();
    hide U64;
    assert U64(0) + [] == NO_LINKS;
    assert [0x7f, 0x44, 0x49, 0x4e, 0x49, 0x43, 0x53, 0x32] + [2, 0, 0, 0] + [1, 0, 0, 0, 0, 0, 0, 0] == MAGIC_VERSION_ONE;
    Grouped([0x7f, 0x44, 0x49, 0x4e, 0x49, 0x43, 0x53, 0x32] + [2, 0, 0, 0], U64(1), operation);
  }

  lemma ItemFiles(item: ItemSnapshot, bytes: seq<byte>, three: seq<byte>)
    requires ItemForm(item) == bytes && U64(3) == three
    ensures IsFileOf(ItemInserted(item), [0] + bytes)
    ensures IsFileOf(ItemRemoved(item, true), [1] + bytes + [1])
    ensures IsFileOf(CascadeRemoved(item, 3), [4] + bytes + three)
  {
    hide U64, ItemForm, IsFileOf;
    OneOperation(ItemInserted(item), [0] + bytes);
    OneOperation(ItemRemoved(item, true), [1] + bytes + [1]);
    OneOperation(CascadeRemoved(item, 3), [4] + bytes + three);
  }

  lemma ItemsInFiles()
    ensures IsFileOf(ItemInserted(ITEM), [0] + ItemBytes())
    ensures IsFileOf(ItemRemoved(ITEM, true), [1] + ItemBytes() + [1])
    ensures IsFileOf(CascadeRemoved(ITEM, 3), [4] + ItemBytes() + [3, 0, 0, 0, 0, 0, 0, 0])
  {
    hide U64, ItemForm, ItemBytes, IsFileOf;
    ItemIs();
    SmallByte(3);
    ItemFiles(ITEM, ItemBytes(), [3, 0, 0, 0, 0, 0, 0, 0]);
  }

  lemma UpdateFiles(column: ColumnHandle, v: Value, w: Value, id: seq<byte>, handle: seq<byte>, before: seq<byte>, after: seq<byte>, to: seq<byte>)
    requires U64(9) == id && ColumnForm(column) == handle && ValueForm(v) == before && ValueForm(w) == after && IdForm(Some(7)) == to
    ensures IsFileOf(ColumnUpdated(9, column, v, w, Some(7), None), [2] + id + handle + before + after + to + [0])
    ensures IsFileOf(ComputedColumnUpdated(9, column, v, w), [3] + id + handle + before + after)
  {
    hide U64, ColumnForm, ValueForm, IsFileOf;
    OneOperation(ColumnUpdated(9, column, v, w, Some(7), None), [2] + id + handle + before + after + to + [0]);
    OneOperation(ComputedColumnUpdated(9, column, v, w), [3] + id + handle + before + after);
  }

  lemma UpdatesInFiles()
    ensures IsFileOf(ColumnUpdated(9, COLUMN, Bool(false), Int64(-2), Some(7), None),
                     [2] + [9, 0, 0, 0, 0, 0, 0, 0] + ColumnBytes() + [1, 0] + [2, 0xfe, 0xff, 0xff, 0xff, 0xff, 0xff, 0xff, 0xff]
                     + [1, 7, 0, 0, 0, 0, 0, 0, 0] + [0])
    ensures IsFileOf(ComputedColumnUpdated(9, COLUMN, Null, Binary([0xaa])),
                     [3] + [9, 0, 0, 0, 0, 0, 0, 0] + ColumnBytes() + [0] + [6, 1, 0, 0, 0, 0, 0, 0, 0, 0xaa])
  {
    hide U64, ColumnForm, ColumnBytes, ValueForm, IsFileOf;
    HandlesAre();
    ValuesInFiles();
    SmallByte(9);
    SmallByte(7);
    assert IdForm(Some(7)) == [1, 7, 0, 0, 0, 0, 0, 0, 0];
    UpdateFiles(COLUMN, Bool(false), Int64(-2), [9, 0, 0, 0, 0, 0, 0, 0], ColumnBytes(), [1, 0],
                [2, 0xfe, 0xff, 0xff, 0xff, 0xff, 0xff, 0xff, 0xff], [1, 7, 0, 0, 0, 0, 0, 0, 0]);
    UpdateFiles(COLUMN, Null, Binary([0xaa]), [9, 0, 0, 0, 0, 0, 0, 0], ColumnBytes(), [0],
                [6, 1, 0, 0, 0, 0, 0, 0, 0, 0xaa], [1, 7, 0, 0, 0, 0, 0, 0, 0]);
  }

  lemma ListFiles(list: ListHandle, v: Value, item: ItemSnapshot, handle: seq<byte>, v': seq<byte>, at: seq<byte>, bytes: seq<byte>)
    requires ListForm(list) == handle && ValueForm(v) == v' && U64(2) == at && ItemForm(item) == bytes
    ensures IsFileOf(ListInserted(list, v, 2, item), [5] + handle + v' + at + bytes)
    ensures IsFileOf(ListRemoved(list, v, 2, item), [6] + handle + v' + at + bytes)
  {
    hide U64, ItemForm, ListForm, ValueForm, IsFileOf;
    OneOperation(ListInserted(list, v, 2, item), [5] + handle + v' + at + bytes);
    OneOperation(ListRemoved(list, v, 2, item), [6] + handle + v' + at + bytes);
  }

  lemma ListsInFiles()
    ensures IsFileOf(ListInserted(LIST, UInt64(3), 2, ITEM),
                     [5] + ListBytes() + [3, 3, 0, 0, 0, 0, 0, 0, 0] + [2, 0, 0, 0, 0, 0, 0, 0] + ItemBytes())
    ensures IsFileOf(ListRemoved(LIST, String([0x61]), 2, ITEM),
                     [6] + ListBytes() + [5, 1, 0, 0, 0, 0, 0, 0, 0, 0x61] + [2, 0, 0, 0, 0, 0, 0, 0] + ItemBytes())
  {
    hide U64, ItemForm, ItemBytes, ListForm, ListBytes, ValueForm, IsFileOf;
    ItemIs();
    HandlesAre();
    ValuesInFiles();
    SmallByte(2);
    ListFiles(LIST, UInt64(3), ITEM, ListBytes(), [3, 3, 0, 0, 0, 0, 0, 0, 0], [2, 0, 0, 0, 0, 0, 0, 0], ItemBytes());
    ListFiles(LIST, String([0x61]), ITEM, ListBytes(), [5, 1, 0, 0, 0, 0, 0, 0, 0, 0x61], [2, 0, 0, 0, 0, 0, 0, 0], ItemBytes());
  }

  lemma RotationInFile()
    ensures IsFileOf(ListRotated(LIST, Double(5), 1, 4, -2),
                     [7] + ListBytes() + [4, 5, 0, 0, 0, 0, 0, 0, 0] + [1, 0, 0, 0, 0, 0, 0, 0] + [4, 0, 0, 0, 0, 0, 0, 0]
                     + [0xfe, 0xff, 0xff, 0xff, 0xff, 0xff, 0xff, 0xff])
  {
    HandlesAre();
    ValuesInFiles();
    SmallByte(1);
    SmallByte(4);
    MinusTwo();
    hide U64, ListForm, ListBytes, ValueForm, IsFileOf;
    OneOperation(ListRotated(LIST, Double(5), 1, 4, -2),
                 [7] + ListBytes() + [4, 5, 0, 0, 0, 0, 0, 0, 0] + [1, 0, 0, 0, 0, 0, 0, 0] + [4, 0, 0, 0, 0, 0, 0, 0]
                 + [0xfe, 0xff, 0xff, 0xff, 0xff, 0xff, 0xff, 0xff]);
  }

  lemma SmallByte(n: uint64)
    requires n < 0x100
    ensures U64(n) == [n, 0, 0, 0, 0, 0, 0, 0]
  {
  }

  lemma MinusTwo()
    ensures U64(0xffff_ffff_ffff_fffe) == [0xfe, 0xff, 0xff, 0xff, 0xff, 0xff, 0xff, 0xff]
  {
  }

  /** A value of each type. */
  lemma ValuesInFiles()
    ensures ValueForm(Null) == [0] && ValueForm(Bool(false)) == [1, 0] && ValueForm(Bool(true)) == [1, 1]
    ensures ValueForm(Int64(-2)) == [2, 0xfe, 0xff, 0xff, 0xff, 0xff, 0xff, 0xff, 0xff]
    ensures ValueForm(UInt64(3)) == [3, 3, 0, 0, 0, 0, 0, 0, 0]
    ensures ValueForm(Double(5)) == [4, 5, 0, 0, 0, 0, 0, 0, 0]
    ensures ValueForm(String([0x61])) == [5, 1, 0, 0, 0, 0, 0, 0, 0, 0x61]
    ensures ValueForm(Binary([0xaa])) == [6, 1, 0, 0, 0, 0, 0, 0, 0, 0xaa]
  {
    SmallByte(1);
    SmallByte(3);
    SmallByte(5);
    MinusTwo();
    hide U64;
    assert [2] + U64(0xffff_ffff_ffff_fffe) == [2, 0xfe, 0xff, 0xff, 0xff, 0xff, 0xff, 0xff, 0xff];
    assert [5] + (U64(1) + [0x61]) == [5, 1, 0, 0, 0, 0, 0, 0, 0, 0x61];
    assert [6] + (U64(1) + [0xaa]) == [6, 1, 0, 0, 0, 0, 0, 0, 0, 0xaa];
  }
}
