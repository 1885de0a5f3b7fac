/** Column values as the bytes of a segment, and back: fixed-width cells, VARCHAR in inline slots. */
module SegmentValues {
  import opened Wrappers
  import opened Values
  import opened Bytes
  import opened FloatBits
  import opened StoragePredicates
  import opened SegmentFiles
  import opened SegmentLayout
  import KeyEncoding
  import StorageScan

  function TypeTag(t: DataType): nat {
    match t
    case Invalid => 0
    case Int32 => 1
    case Int64 => 2
    case Float => 3
    case Double => 4
    case Varchar => 5
  }

  function Width(t: DataType): (width: nat)
    ensures width > 0
  {
    TypeElemSize(TypeTag(t))
  }

  /** What a cell of a column can hold: a string has to fit its slot. */
  predicate IsCell(t: DataType, v: ExecValue) {
    HasType(v, t) && KeyEncoding.KeyCell(v) && (v.Str? ==> |v.s| <= VARCHAR_INLINE_MAX)
  }

  predicate AreCells(t: DataType, values: seq<ExecValue>) {
    forall i | 0 <= i < |values| :: IsCell(t, values[i])
  }

  // ---------- one cell ----------

  /** WriteVarcharSlot: length, characters, zeros. */
  function Slot(s: string): (bytes: Data)
    requires |s| <= VARCHAR_INLINE_MAX && forall k | 0 <= k < |s| :: s[k] as int < 256
    ensures |bytes| == 64
  {
    LittleEndian(|s|, 4) + KeyEncoding.CharBytes(s) + seq(VARCHAR_INLINE_MAX - |s|, _ => 0)
  }

  function CellBytes(t: DataType, v: ExecValue): (bytes: Data)
    requires IsCell(t, v)
    ensures |bytes| == Width(t)
  {
    if v.Str? then Slot(v.s) else KeyEncoding.Payload(v)
  }

  /** ReadVarcharSlot: a length beyond the slot is cut down to it. */
  function ReadSlot(bytes: Data): string
    requires |bytes| == 64
  {
    var n := FromLittleEndian(bytes[..4]);
    var m := if n > VARCHAR_INLINE_MAX then VARCHAR_INLINE_MAX else n;
    seq(m, k requires 0 <= k < m => bytes[4 + k] as char)
  }

  function ReadSigned(n: nat, width: nat): int {
    if 2 * n < Pow256(width) then n else n - Pow256(width)
  }

  function ReadCell(t: DataType, bytes: Data): ExecValue
    requires |bytes| == Width(t) && !t.Invalid?
  {
    match t
    case Int32 => I32(ReadSigned(FromLittleEndian(bytes), 4))
    case Int64 => I64(ReadSigned(FromLittleEndian(bytes), 8))
    case Float => F32(Number(BINARY32, FromLittleEndian(bytes)))
    case Double => F64(Number(BINARY64, FromLittleEndian(bytes)))
    case Varchar => Str(ReadSlot(bytes))
  }

  lemma SlotBack(s: string)
    requires |s| <= VARCHAR_INLINE_MAX && forall k | 0 <= k < |s| :: s[k] as int < 256
    ensures ReadSlot(Slot(s)) == s
  {
    Widths();
    LittleEndianRoundTrip(|s|, 4);
    assert Slot(s)[..4] == LittleEndian(|s|, 4);
    assert forall k | 0 <= k < |s| :: Slot(s)[4 + k] == KeyEncoding.CharBytes(s)[k];
  }

  lemma SignedBack(v: int, width: nat)
    requires Bytes.Fits(v, width)
    ensures ReadSigned(FromLittleEndian(LittleEndian(Signed(v, width), width)), width) == v
  {
    LittleEndianRoundTrip(Signed(v, width), width);
  }

  lemma NumberBack(f: Format, r: real, width: nat)
    requires f.Valid() && f.Holds(r) && f.infinity + f.sign < Pow256(width)
    ensures Number(f, FromLittleEndian(LittleEndian(f.Pattern(r), width))) == r
  {
    LittleEndianRoundTrip(f.Pattern(r), width);
    PatternBack(f, r);
  }

  /** A cell reads back as it was written. */
  lemma CellBack(t: DataType, v: ExecValue)
    requires IsCell(t, v)
    ensures ReadCell(t, CellBytes(t, v)) == v
  {
    Widths();
    match v
    case I32(i) => SignedBack(i, 4);
    case I64(l) => SignedBack(l, 8);
    case F32(f) => NumberBack(BINARY32, f, 4);
    case F64(d) => NumberBack(BINARY64, d, 8);
    case Str(s) => SlotBack(s);
  }

  // ---------- parts of one width ----------

  predicate Uniform(parts: seq<Data>, width: nat) {
    forall i | 0 <= i < |parts| :: |parts[i]| == width
  }

  lemma {:induction false} UniformLength(parts: seq<Data>, width: nat)
    requires Uniform(parts, width)
    ensures |Concat(parts)| == |parts| * width
  {
    if parts != [] {
      var n := |parts| - 1;
      UniformLength(parts[..n], width);
      Distributes(n, 1, width);
    }
  }

  lemma {:induction false} ConcatAll(a: seq<Data>, b: seq<Data>)
    ensures Concat(a + b) == Concat(a) + Concat(b)
  {
    if b == [] {
      assert a + b == a;
    } else {
      var n := |b| - 1;
      ConcatAll(a, b[..n]);
      assert (a + b)[..|a| + n] == a + b[..n];
      AppendAssociates(Concat(a), Concat(b[..n]), b[n]);
    }
  }

  lemma ConcatPart(parts: seq<Data>, width: nat, offset: nat, count: nat)
    requires Uniform(parts, width) && offset + count <= |parts|
    ensures offset * width <= (offset + count) * width <= |Concat(parts)|
    ensures Concat(parts)[offset * width..(offset + count) * width] == Concat(parts[offset..offset + count])
  {
    var a, b, c := parts[..offset], parts[offset..offset + count], parts[offset + count..];
    assert parts == (a + b) + c;
    ConcatAll(a, b);
    ConcatAll(a + b, c);
    UniformLength(a, width);
    UniformLength(b, width);
    Distributes(offset, count, width);
    Middle(Concat(a), Concat(b), Concat(c));
  }

  lemma Middle(a: Data, b: Data, c: Data)
    ensures ((a + b) + c)[|a|..|a| + |b|] == b
  {
  }

  // ---------- a column ----------

  function CellList(t: DataType, values: seq<ExecValue>): (parts: seq<Data>)
    requires AreCells(t, values)
    ensures |parts| == |values| && Uniform(parts, Width(t))
    ensures forall i | 0 <= i < |values| :: parts[i] == CellBytes(t, values[i])
  {
    seq(|values|, i requires 0 <= i < |values| => CellBytes(t, values[i]))
  }

  function ColumnData(t: DataType, values: seq<ExecValue>): (bytes: Data)
    requires AreCells(t, values)
    ensures |bytes| == |values| * Width(t)
  {
    UniformLength(CellList(t, values), Width(t));
    Concat(CellList(t, values))
  }

  /** The k-th of `count` cells. */
  function CellAt(bytes: Data, width: nat, count: nat, k: nat): (cell: Data)
    requires |bytes| == count * width && k < count
    ensures |cell| == width
  {
    TimesMonotone(k + 1, count, width);
    Distributes(k, 1, width);
    bytes[k * width..(k + 1) * width]
  }

  lemma ConcatOne(part: Data)
    ensures Concat([part]) == part
  {
    var parts: seq<Data> := [part];
    assert parts[..0] == [] && Concat(parts) == Concat(parts[..0]) + part;
  }

  lemma CellIsPart(parts: seq<Data>, width: nat, k: nat)
    requires Uniform(parts, width) && k < |parts|
    ensures |Concat(parts)| == |parts| * width && CellAt(Concat(parts), width, |parts|, k) == parts[k]
  {
    UniformLength(parts, width);
    ConcatPart(parts, width, k, 1);
    assert parts[k..k + 1] == [parts[k]];
    ConcatOne(parts[k]);
  }

  function ReadColumn(t: DataType, bytes: Data, count: nat): (values: seq<ExecValue>)
    requires |bytes| == count * Width(t) && !t.Invalid?
    ensures |values| == count
    ensures forall k | 0 <= k < count :: values[k] == ReadCell(t, CellAt(bytes, Width(t), count, k))
  {
    seq(count, k requires 0 <= k < count => ReadCell(t, CellAt(bytes, Width(t), count, k)))
  }

  lemma ColumnBack(t: DataType, values: seq<ExecValue>)
    requires AreCells(t, values) && !t.Invalid?
    ensures ReadColumn(t, ColumnData(t, values), |values|) == values
  {
    var parts, read := CellList(t, values), ReadColumn(t, ColumnData(t, values), |values|);
    forall k | 0 <= k < |values| ensures read[k] == values[k] {
      CellIsPart(parts, Width(t), k);
      CellBack(t, values[k]);
    }
  }

  /** Some rows of a column's bytes are the bytes of those rows' values. */
  lemma ColumnPart(t: DataType, values: seq<ExecValue>, offset: nat, count: nat)
    requires AreCells(t, values) && offset + count <= |values|
    ensures offset * Width(t) <= (offset + count) * Width(t) <= |ColumnData(t, values)|
    ensures ColumnData(t, values)[offset * Width(t)..(offset + count) * Width(t)]
            == ColumnData(t, values[offset..offset + count])
  {
    ConcatPart(CellList(t, values), Width(t), offset, count);
    assert CellList(t, values)[offset..offset + count] == CellList(t, values[offset..offset + count]);
  }

  // ---------- a segment ----------

  /** The builders' columns hold the rows, column by column. */
  predicate HoldsRows(schema: seq<ColumnSchema>, rows: seq<Row>, columns: seq<ColumnBytes>)
    requires StorageScan.RowsOf(schema, rows)
  {
    && |columns| == |schema|
    && forall i | 0 <= i < |schema| ::
         && AreCells(schema[i].dataType, StorageScan.ColumnOf(schema, rows, i))
         && columns[i].meta.columnId == schema[i].id && columns[i].meta.typeTag == TypeTag(schema[i].dataType)
         && columns[i].data == ColumnData(schema[i].dataType, StorageScan.ColumnOf(schema, rows, i))
  }

  lemma CellsGiveValues(c: ColumnBytes, t: DataType, values: seq<ExecValue>, offset: nat, count: nat)
    requires AreCells(t, values) && !t.Invalid? && offset + count <= |values|
    requires c.meta.typeTag == TypeTag(t) && c.data == ColumnData(t, values)
    ensures c.Holds(|values|) && |Cells(c, |values|, offset, count)| == count * Width(t)
    ensures ReadColumn(t, Cells(c, |values|, offset, count), count) == values[offset..offset + count]
  {
    ColumnPart(t, values, offset, count);
    ColumnBack(t, values[offset..offset + count]);
  }

  /** A segment written from rows, reopened and read at any offset, gives those rows' values of any column. */
  lemma SegmentGivesRows(schema: seq<ColumnSchema>, rows: seq<Row>, columns: seq<ColumnBytes>, id: nat, path: Data,
                         i: nat, offset: nat, count: nat)
    requires StorageScan.RowsOf(schema, rows) && HoldsRows(schema, rows, columns)
    requires SegmentLayout.Fits(id, |rows|, path, columns) && i < |schema| && offset + count <= |rows|
    requires !schema[i].dataType.Invalid? && forall k | 0 <= k < i :: schema[k].id != schema[i].id
    ensures Opened(id, FileBytes(id, |rows|, path, columns)).Some?
    ensures var t, r := schema[i].dataType, Opened(id, FileBytes(id, |rows|, path, columns)).value;
            && r.InFile() && r.meta.rowCount == |rows| && FindChunk(r.meta.columns, schema[i].id).Some?
            && var (tag, bytes) := Rows(r, schema[i].id, offset, count);
               && tag == TypeTag(t) && |bytes| == count * Width(t)
               && ReadColumn(t, bytes, count) == StorageScan.ColumnOf(schema, rows, i)[offset..offset + count]
  {
    var t, values := schema[i].dataType, StorageScan.ColumnOf(schema, rows, i);
    FlushedOpens(id, |rows|, path, columns, id);
    assert forall k | 0 <= k < i :: columns[k].meta.columnId != columns[i].meta.columnId;
    FlushedReadsBack(id, |rows|, path, columns, i, offset, count);
    CellsGiveValues(columns[i], t, values, offset, count);
  }
}
