/** src/storage/index/key_encoder.cpp: one byte string per key tuple, from three kinds of input. */
module KeyEncoding {
  import opened Wrappers
  import opened Values
  import opened Bytes
  import opened Rounding
  import opened FloatRounding
  import opened FloatBits
  import opened StoragePredicates
  import opened StorageScan

  type EncodedKey = seq<Byte>

  /** What a key column can hold; NaN and the sign of zero are not modelled. */
  predicate KeyCell(v: ExecValue) {
    match v
    case I32(i) => INT32_MIN <= i <= INT32_MAX
    case I64(l) => INT64_MIN <= l <= INT64_MAX
    case F32(f) => BINARY32.Holds(f)
    case F64(d) => BINARY64.Holds(d)
    case Str(s) => |s| < 0x1_0000_0000 && forall k | 0 <= k < |s| :: s[k] as int < 256
    case Bool(_) => false
  }

  predicate KeyCells(values: seq<ExecValue>) {
    forall i | 0 <= i < |values| :: KeyCell(values[i])
  }

  function Tag(v: ExecValue): Byte {
    match v
    case I32(_) => 1
    case I64(_) => 2
    case F32(_) => 3
    case F64(_) => 4
    case Str(_) => 5
    case Bool(_) => 0
  }

  function CharBytes(s: string): (bytes: seq<Byte>)
    requires forall k | 0 <= k < |s| :: s[k] as int < 256
    ensures |bytes| == |s| && forall k | 0 <= k < |s| :: bytes[k] == s[k] as int
  {
    seq(|s|, k requires 0 <= k < |s| => s[k] as int)
  }

  function Payload(v: ExecValue): (bytes: seq<Byte>)
    requires KeyCell(v)
    ensures |bytes| < 0x1_0000_0000
  {
    Widths();
    match v
    case I32(i) => LittleEndian(Signed(i, 4), 4)
    case I64(l) => LittleEndian(Signed(l, 8), 8)
    case F32(f) => LittleEndian(BINARY32.Pattern(f), 4)
    case F64(d) => LittleEndian(BINARY64.Pattern(d), 8)
    case Str(s) => CharBytes(s)
  }

  /** AppendComponent: tag, length, raw bytes. */
  function Component(v: ExecValue): seq<Byte>
    requires KeyCell(v)
  {
    Header(v) + Payload(v)
  }

  function Header(v: ExecValue): (bytes: seq<Byte>)
    requires KeyCell(v)
    ensures |bytes| == 5
  {
    [Tag(v)] + LittleEndian(|Payload(v)|, 4)
  }

  function Components(values: seq<ExecValue>): (parts: seq<seq<Byte>>)
    requires KeyCells(values)
    ensures |parts| == |values| && forall i | 0 <= i < |values| :: parts[i] == Component(values[i])
  {
    seq(|values|, i requires 0 <= i < |values| => Component(values[i]))
  }

  function EncodeTuple(values: seq<ExecValue>): EncodedKey
    requires KeyCells(values)
  {
    Concat(Components(values))
  }

  lemma EncodeAppend(values: seq<ExecValue>, last: ExecValue)
    requires KeyCells(values) && KeyCell(last)
    ensures EncodeTuple(values + [last]) == EncodeTuple(values) + Component(last)
  {
    assert Components(values + [last]) == Components(values) + [Component(last)];
    ConcatAppend(Components(values), Component(last));
  }

  lemma EncodePrepend(first: ExecValue, rest: seq<ExecValue>)
    requires KeyCell(first) && KeyCells(rest)
    ensures EncodeTuple([first] + rest) == Component(first) + EncodeTuple(rest)
  {
    assert Components([first] + rest) == [Component(first)] + Components(rest);
    ConcatPrepend(Component(first), Components(rest));
  }

  // ---------- Injectivity ----------

  lemma PayloadInjective(a: ExecValue, b: ExecValue)
    requires KeyCell(a) && KeyCell(b) && Tag(a) == Tag(b) && Payload(a) == Payload(b)
    ensures a == b
  {
    Widths();
    match a
    case I32(i) => SignedInjective(i, b.i, 4);
    case I64(l) => SignedInjective(l, b.l, 8);
    case F32(f) => FloatInjective(BINARY32, f, b.f, 4);
    case F64(d) => FloatInjective(BINARY64, d, b.d, 8);
    case Str(s) =>
      assert forall k | 0 <= k < |s| :: s[k] as int == Payload(a)[k] == Payload(b)[k] == b.s[k] as int;
      assert s == b.s;
  }

  lemma FloatInjective(format: Format, a: real, b: real, width: nat)
    requires format.Valid() && format.Holds(a) && format.Holds(b) && format.infinity + format.sign < Pow256(width)
    requires LittleEndian(format.Pattern(a), width) == LittleEndian(format.Pattern(b), width)
    ensures a == b
  {
    LittleEndianRoundTrip(format.Pattern(a), width);
    LittleEndianRoundTrip(format.Pattern(b), width);
    PatternInjective(format, a, b);
  }

  /** A component says where it ends, so what follows it cannot be mistaken for part of it. */
  lemma ComponentPrefixFree(a: ExecValue, x: seq<Byte>, b: ExecValue, y: seq<Byte>)
    requires KeyCell(a) && KeyCell(b) && Component(a) + x == Component(b) + y
    ensures a == b && x == y
  {
    AppendAssociates(Header(a), Payload(a), x);
    AppendAssociates(Header(b), Payload(b), y);
    AppendCancels(Header(a), Payload(a) + x, Header(b), Payload(b) + y);
    HeaderInjective(a, b);
    AppendCancels(Payload(a), x, Payload(b), y);
    PayloadInjective(a, b);
  }

  lemma HeaderInjective(a: ExecValue, b: ExecValue)
    requires KeyCell(a) && KeyCell(b) && Header(a) == Header(b)
    ensures Tag(a) == Tag(b) && |Payload(a)| == |Payload(b)|
  {
    AppendCancels([Tag(a)], LittleEndian(|Payload(a)|, 4), [Tag(b)], LittleEndian(|Payload(b)|, 4));
    Widths();
    LittleEndianRoundTrip(|Payload(a)|, 4);
    LittleEndianRoundTrip(|Payload(b)|, 4);
  }

  lemma EncodeSplit(values: seq<ExecValue>)
    requires KeyCells(values) && values != []
    ensures KeyCell(values[0]) && KeyCells(values[1..])
    ensures EncodeTuple(values) == Component(values[0]) + EncodeTuple(values[1..])
    ensures EncodeTuple(values) != []
  {
    assert values == [values[0]] + values[1..];
    EncodePrepend(values[0], values[1..]);
  }

  /** Two tuples with one encoding are one tuple, whatever their lengths and types. */
  lemma {:induction false} EncodeInjective(a: seq<ExecValue>, b: seq<ExecValue>)
    requires KeyCells(a) && KeyCells(b) && EncodeTuple(a) == EncodeTuple(b)
    ensures a == b
  {
    if a == [] || b == [] {
      if a != [] { EncodeSplit(a); }
      if b != [] { EncodeSplit(b); }
    } else {
      EncodeSplit(a);
      EncodeSplit(b);
      ComponentPrefixFree(a[0], EncodeTuple(a[1..]), b[0], EncodeTuple(b[1..]));
      EncodeInjective(a[1..], b[1..]);
      assert a == [a[0]] + a[1..] && b == [b[0]] + b[1..];
    }
  }

  // ---------- The three overloads ----------

  /** AppendScalarComponent's conversion of a literal to the column type; None where it throws. */
  function ConvertScalar(t: DataType, literal: ExecValue): Option<ExecValue> {
    match t
    case Int32 => if literal.I32? then Some(literal) else None
    case Int64 => if literal.I64? then Some(literal) else if literal.I32? then Some(I64(literal.i)) else None
    case Float => if literal.F32? then Some(literal) else if literal.F64? then Some(F32(ToFloat(literal.d))) else None
    case Double =>
      if literal.F64? then Some(literal)
      else if literal.F32? then Some(F64(literal.f))
      else if literal.I32? then Some(F64(literal.i as real))
      else if literal.I64? then Some(F64(AsDouble(literal)))
      else None
    case Varchar => if literal.Str? then Some(literal) else None
    case Invalid => None
  }

  /** The columns of the key, found in the schema. */
  predicate KeyColumns(schema: seq<ColumnSchema>, columns: seq<nat>) {
    forall i | 0 <= i < |columns| :: HasColumn(schema, columns[i])
  }

  function KeyValues(schema: seq<ColumnSchema>, columns: seq<nat>, row: Row): (values: seq<ExecValue>)
    requires KeyColumns(schema, columns) && |row| == |schema|
    ensures |values| == |columns|
    ensures forall i | 0 <= i < |columns| :: values[i] == row[ColumnIndex(schema, columns[i])]
  {
    seq(|columns|, i requires 0 <= i < |columns| => row[ColumnIndex(schema, columns[i])])
  }

  /** Encode from a row being appended. */
  method EncodeChunkRow(schema: seq<ColumnSchema>, columns: seq<nat>, row: Row) returns (key: EncodedKey)
    requires KeyColumns(schema, columns) && |row| == |schema| && KeyCells(KeyValues(schema, columns, row))
    ensures key == EncodeTuple(KeyValues(schema, columns, row))
  {
    key := [];
    ghost var values := KeyValues(schema, columns, row);
    var i := 0;
    while i < |columns|
      invariant 0 <= i <= |columns| && key == EncodeTuple(values[..i])
    {
      assert KeyCell(values[i]) && values[..i + 1] == values[..i] + [values[i]];
      EncodeAppend(values[..i], values[i]);
      key := key + Component(row[ColumnIndex(schema, columns[i])]);
      i := i + 1;
    }
    assert values[..i] == values;
  }

  /** The cell of a batch row that holds a key column. */
  function BatchCell(batchColumns: seq<nat>, row: Row, id: nat): Option<ExecValue>
    requires |row| == |batchColumns|
  {
    match IndexOf(batchColumns, id, 0)
    case None => None
    case Some(k) => Some(row[k])
  }

  predicate BatchCells(columns: seq<nat>, batchColumns: seq<nat>, row: Row, values: seq<ExecValue>)
    requires |row| == |batchColumns|
  {
    |values| <= |columns| && forall i | 0 <= i < |values| :: BatchCell(batchColumns, row, columns[i]) == Some(values[i])
  }

  /** Encode from a row read back with only `batchColumns`; None where a key column was not read. */
  method EncodeBatchRow(columns: seq<nat>, batchColumns: seq<nat>, row: Row)
    returns (key: Option<EncodedKey>, ghost values: seq<ExecValue>)
    requires |row| == |batchColumns| && KeyCells(row)
    ensures KeyCells(values) && BatchCells(columns, batchColumns, row, values)
    ensures key.None? ==> exists i | 0 <= i < |columns| :: BatchCell(batchColumns, row, columns[i]).None?
    ensures key.Some? ==> |values| == |columns| && key.value == EncodeTuple(values)
  {
    var bytes: EncodedKey := [];
    values := [];
    var i := 0;
    while i < |columns|
      invariant 0 <= i <= |columns| && |values| == i && KeyCells(values)
      invariant BatchCells(columns, batchColumns, row, values)
      invariant bytes == EncodeTuple(values)
    {
      var cell := BatchCell(batchColumns, row, columns[i]);
      if cell.None? {
        return None, values;
      }
      EncodeAppend(values, cell.value);
      values := values + [cell.value];
      bytes := bytes + Component(cell.value);
      i := i + 1;
    }
    key := Some(bytes);
  }

  /** Rebuilding from a projected batch gives the key that appending the row gave. */
  lemma BatchAgreesWithChunk(schema: seq<ColumnSchema>, columns: seq<nat>, batchColumns: seq<nat>, row: Row,
                             values: seq<ExecValue>)
    requires KeyColumns(schema, columns) && KnownColumns(schema, batchColumns) && RowOf(schema, row)
    requires BatchCells(columns, batchColumns, ProjectRow(schema, batchColumns, row), values)
    requires |values| == |columns|
    ensures values == KeyValues(schema, columns, row)
  {
    var projected := ProjectRow(schema, batchColumns, row);
    forall i | 0 <= i < |columns| ensures values[i] == row[ColumnIndex(schema, columns[i])] {
      var k := IndexOf(batchColumns, columns[i], 0).value;
      assert BatchCell(batchColumns, projected, columns[i]) == Some(values[i]);
      assert projected[k] == row[ColumnIndex(schema, batchColumns[k])];
    }
  }

  function KeyTypes(schema: seq<ColumnSchema>, columns: seq<nat>): (types: seq<DataType>)
    requires KeyColumns(schema, columns)
    ensures |types| == |columns|
    ensures forall i | 0 <= i < |columns| :: types[i] == schema[ColumnIndex(schema, columns[i])].dataType
  {
    seq(|columns|, i requires 0 <= i < |columns| => schema[ColumnIndex(schema, columns[i])].dataType)
  }

  /** The values a statement can carry: what the lexer and binder make of a literal. */
  predicate IsLiteral(v: ExecValue) {
    && (v.I32? || v.F64? || v.Str?)
    && KeyCell(v)
  }

  lemma ConvertedIsCell(t: DataType, literal: ExecValue)
    requires IsLiteral(literal) && ConvertScalar(t, literal).Some?
    ensures KeyCell(ConvertScalar(t, literal).value) && HasType(ConvertScalar(t, literal).value, t)
  {
    if t.Float? {
      NarrowedHeld(literal.d);
    } else if t.Double? && literal.I32? {
      WholeHeld(literal.i);
    }
  }

  /** Every literal of a lookup converted to its column's type. */
  predicate ConvertsTo(types: seq<DataType>, literals: seq<ExecValue>, values: seq<ExecValue>) {
    |values| <= |literals| && |values| <= |types| &&
    forall i | 0 <= i < |values| :: ConvertScalar(types[i], literals[i]) == Some(values[i])
  }

  predicate Unconvertible(types: seq<DataType>, literals: seq<ExecValue>)
    requires |types| == |literals|
  {
    exists i | 0 <= i < |types| :: ConvertScalar(types[i], literals[i]).None?
  }

  lemma ConvertsOneMore(types: seq<DataType>, literals: seq<ExecValue>, values: seq<ExecValue>, v: ExecValue)
    requires ConvertsTo(types, literals, values) && |values| < |types| == |literals|
    requires ConvertScalar(types[|values|], literals[|values|]) == Some(v)
    ensures ConvertsTo(types, literals, values + [v])
  {
  }

  lemma CellsAppend(values: seq<ExecValue>, v: ExecValue)
    requires KeyCells(values) && KeyCell(v)
    ensures KeyCells(values + [v])
  {
  }

  /** Encode from literals; None where a literal has the wrong type or their number is off. */
  method EncodeValues(types: seq<DataType>, literals: seq<ExecValue>)
    returns (key: Option<EncodedKey>, ghost values: seq<ExecValue>)
    requires forall i | 0 <= i < |literals| :: IsLiteral(literals[i])
    ensures KeyCells(values) && ConvertsTo(types, literals, values)
    ensures key.None? ==> |types| != |literals| || Unconvertible(types, literals)
    ensures key.Some? ==> |values| == |types| == |literals| && key.value == EncodeTuple(values)
  {
    values := [];
    if |types| != |literals| {
      return None, values;
    }
    var bytes: EncodedKey := [];
    var i := 0;
    while i < |types|
      invariant 0 <= i <= |types| && |values| == i && KeyCells(values)
      invariant ConvertsTo(types, literals, values)
      invariant bytes == EncodeTuple(values)
    {
      var converted := ConvertScalar(types[i], literals[i]);
      if converted.None? {
        assert Unconvertible(types, literals);
        return None, values;
      }
      var v := converted.value;
      ConvertedIsCell(types[i], literals[i]);
      ConvertsOneMore(types, literals, values, v);
      CellsAppend(values, v);
      EncodeAppend(values, v);
      values := values + [v];
      bytes := bytes + Component(v);
      i := i + 1;
    }
    key := Some(bytes);
  }

  /** What a lookup compares: numbers, a literal on a FLOAT column narrowed first; strings by what they hold. */
  predicate KeyMatches(t: DataType, literal: ExecValue, cell: ExecValue) {
    if literal.Str? || cell.Str? then literal == cell
    else if t.Float? then AsNumber(cell) == ToFloat(AsNumber(literal))
    else AsNumber(cell) == AsNumber(literal)
  }

  /**
   * A lookup finds a row by its key exactly when every literal matches the row's value: the encodings of INT32
   * literals and of INT32, INT64 and DOUBLE cells agree on equal numbers and on nothing else.
   */
  lemma LookupKeyIff(schema: seq<ColumnSchema>, columns: seq<nat>, literals: seq<ExecValue>, values: seq<ExecValue>,
                     row: Row)
    requires KeyColumns(schema, columns) && RowOf(schema, row) && KeyCells(KeyValues(schema, columns, row))
    requires |literals| == |columns| == |values| && forall i | 0 <= i < |literals| :: IsLiteral(literals[i])
    requires ConvertsTo(KeyTypes(schema, columns), literals, values)
    ensures KeyCells(values)
    ensures EncodeTuple(values) == EncodeTuple(KeyValues(schema, columns, row))
            <==> forall i | 0 <= i < |columns| ::
                   KeyMatches(KeyTypes(schema, columns)[i], literals[i], KeyValues(schema, columns, row)[i])
  {
    var types, cells := KeyTypes(schema, columns), KeyValues(schema, columns, row);
    forall i | 0 <= i < |columns|
      ensures KeyCell(values[i])
      ensures values[i] == cells[i] <==> KeyMatches(types[i], literals[i], cells[i])
    {
      assert HasType(row[ColumnIndex(schema, columns[i])], types[i]);
      ConvertedCell(types[i], literals[i], cells[i]);
    }
    if EncodeTuple(values) == EncodeTuple(cells) {
      EncodeInjective(values, cells);
    }
    assert (forall i | 0 <= i < |columns| :: values[i] == cells[i]) ==> values == cells;
  }

  predicate SameNumber(a: ExecValue, b: ExecValue) {
    !a.Str? && !b.Str? && AsNumber(a) == AsNumber(b)
  }

  lemma ConvertedCell(t: DataType, literal: ExecValue, cell: ExecValue)
    requires IsLiteral(literal) && ConvertScalar(t, literal).Some? && HasType(cell, t)
    ensures KeyCell(ConvertScalar(t, literal).value)
    ensures ConvertScalar(t, literal).value == cell <==> KeyMatches(t, literal, cell)
  {
    ConvertedIsCell(t, literal);
  }

  /** Narrowing leaves the literal alone. */
  predicate KeptByKey(t: DataType, literal: ExecValue) {
    !literal.Str? && (t.Float? ==> ToFloat(AsNumber(literal)) == AsNumber(literal))
  }

  /** A lookup on a column is a comparison of numbers exactly if the column's type can hold the literal. */
  lemma LookupIsComparisonIff(t: DataType, literal: ExecValue)
    requires IsLiteral(literal) && !literal.Str? && ConvertScalar(t, literal).Some?
    ensures KeptByKey(t, literal)
            <==> forall cell | HasType(cell, t) && KeyCell(cell) ::
                   KeyMatches(t, literal, cell) <==> SameNumber(literal, cell)
  {
    if !KeptByKey(t, literal) {
      var cell := F32(ToFloat(literal.d));
      ConvertedIsCell(t, literal);
      assert HasType(cell, t) && KeyCell(cell) && KeyMatches(t, literal, cell) && !SameNumber(literal, cell);
    }
  }
}
