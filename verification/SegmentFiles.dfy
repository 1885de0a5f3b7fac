/** The segment file: metadata header, then the column regions, written in two passes and read back by offset. */
module SegmentFiles {
  import opened Wrappers
  import opened Values
  import opened Arithmetic
  import opened Bytes

  type Data = seq<Byte>

  // ---------- src/storage/serialization.h ----------

  class BinaryWriter {
    var buffer: Data

    constructor ()
      ensures buffer == []
    {
      buffer := [];
    }

    method WriteUInt8(value: nat)
      requires value < 256
      modifies this
      ensures buffer == old(buffer) + [value]
    {
      buffer := buffer + [value];
    }

    /** Low byte first: byte i is (value >> 8 * i) & 0xFF. */
    method WriteUInt(value: nat, width: nat)
      modifies this
      ensures buffer == old(buffer) + LittleEndian(value, width)
    {
      var rest, i := value, 0;
      while i < width
        invariant 0 <= i <= width
        invariant buffer + LittleEndian(rest, width - i) == old(buffer) + LittleEndian(value, width)
      {
        AppendAssociates(buffer, [rest % 256], LittleEndian(rest / 256, width - i - 1));
        buffer := buffer + [rest % 256];
        rest, i := rest / 256, i + 1;
      }
    }

    method WriteString(text: Data)
      modifies this
      ensures buffer == old(buffer) + (LittleEndian(|text|, 4) + text)
    {
      AppendAssociates(buffer, LittleEndian(|text|, 4), text);
      WriteUInt(|text|, 4);
      buffer := buffer + text;
    }
  }

  /** What a read takes off the front; None where the reader throws. */
  function ReadUInt(bytes: Data, width: nat): Option<(nat, Data)> {
    if |bytes| < width then None else Some((FromLittleEndian(bytes[..width]), bytes[width..]))
  }

  function ReadRaw(bytes: Data, size: nat): Option<(Data, Data)> {
    if |bytes| < size then None else Some((bytes[..size], bytes[size..]))
  }

  function ReadString(bytes: Data): Option<(Data, Data)> {
    match ReadUInt(bytes, 4)
    case None => None
    case Some((n, rest)) => ReadRaw(rest, n)
  }

  class BinaryReader {
    const data: Data
    var offset: nat

    ghost predicate Valid()
      reads this
    {
      offset <= |data|
    }

    ghost function Rest(): Data
      requires Valid()
      reads this
    {
      data[offset..]
    }

    constructor (data: Data)
      ensures Valid() && this.data == data && Rest() == data
    {
      this.data, offset := data, 0;
    }

    /** The loop over the bytes, high byte last. */
    method ReadInteger(width: nat) returns (r: Option<nat>)
      requires Valid()
      modifies this`offset
      ensures Valid()
      ensures match ReadUInt(old(Rest()), width)
              case None => r == None && Rest() == old(Rest())
              case Some((n, rest)) => r == Some(n) && Rest() == rest
    {
      if offset + width > |data| {
        return None;
      }
      ghost var bytes := data[offset..offset + width];
      var value: nat, i := 0, width;
      while i > 0
        invariant 0 <= i <= width
        invariant value == FromLittleEndian(bytes[i..])
      {
        i := i - 1;
        assert bytes[i..][1..] == bytes[i + 1..];
        value := data[offset + i] + 256 * value;
      }
      assert bytes[0..] == bytes == Rest()[..width];
      offset := offset + width;
      r := Some(value);
    }

    method ReadText() returns (r: Option<Data>)
      requires Valid()
      modifies this`offset
      ensures Valid()
      ensures match ReadString(old(Rest()))
              case None => r == None
              case Some((text, rest)) => r == Some(text) && Rest() == rest
    {
      var n := ReadInteger(4);
      if n.None? || offset + n.value > |data| {
        return None;
      }
      assert data[offset..offset + n.value] == Rest()[..n.value] && data[offset + n.value..] == Rest()[n.value..];
      r := Some(data[offset..offset + n.value]);
      offset := offset + n.value;
    }
  }

  lemma ReadBack(n: nat, width: nat, rest: Data)
    requires n < Pow256(width)
    ensures ReadUInt(LittleEndian(n, width) + rest, width) == Some((n, rest))
  {
    var bytes := LittleEndian(n, width) + rest;
    LittleEndianRoundTrip(n, width);
    assert bytes[..width] == LittleEndian(n, width) && bytes[width..] == rest;
  }

  // ---------- src/storage/datastructs.h: the metadata and its bytes ----------

  /** Statistics are kept as the bit patterns of their doubles. */
  datatype ColumnChunkMeta = ColumnChunkMeta(
    columnId: nat, typeTag: nat, dataOffset: nat, hasStats: bool, minBits: nat, maxBits: nat)
  {
    predicate Fits() {
      && columnId < Pow256(4) && typeTag < 256 && dataOffset < Pow256(8)
      && minBits < Pow256(8) && maxBits < Pow256(8)
    }
  }

  datatype SegmentMeta = SegmentMeta(segmentId: nat, rowCount: nat, path: Data, columns: seq<ColumnChunkMeta>) {
    predicate Fits() {
      && segmentId < Pow256(4) && rowCount < Pow256(4) && |path| < Pow256(4) && |columns| < Pow256(4)
      && forall i | 0 <= i < |columns| :: columns[i].Fits()
    }
  }

  function Flag(b: bool): Byte { if b then 1 else 0 }

  const CHUNK_BYTES: nat := 30

  function ChunkBytes(m: ColumnChunkMeta): (bytes: Data)
    ensures |bytes| == CHUNK_BYTES
  {
    LittleEndian(m.columnId, 4)
    + ([m.typeTag % 256]
       + (LittleEndian(m.dataOffset, 8)
          + ([Flag(m.hasStats)] + (LittleEndian(m.minBits, 8) + LittleEndian(m.maxBits, 8)))))
  }

  function ReadChunk(bytes: Data): Option<(ColumnChunkMeta, Data)> {
    match ReadUInt(bytes, 4)
    case None => None
    case Some((id, r1)) =>
      match ReadUInt(r1, 1)
      case None => None
      case Some((tag, r2)) =>
        match ReadUInt(r2, 8)
        case None => None
        case Some((offset, r3)) =>
          match ReadUInt(r3, 1)
          case None => None
          case Some((flag, r4)) =>
            match ReadUInt(r4, 8)
            case None => None
            case Some((min, r5)) =>
              match ReadUInt(r5, 8)
              case None => None
              case Some((max, r6)) => Some((ColumnChunkMeta(id, tag, offset, flag != 0, min, max), r6))
  }

  lemma OneByte(b: Byte)
    ensures LittleEndian(b, 1) == [b] && b < Pow256(1)
  {
    assert LittleEndian(b / 256, 0) == [];
    assert Pow256(1) == 256 * Pow256(0);
  }

  lemma ReadChunkBack(m: ColumnChunkMeta, rest: Data)
    requires m.Fits()
    ensures ReadChunk(ChunkBytes(m) + rest) == Some((m, rest))
  {
    var r6 := rest;
    var r5 := LittleEndian(m.maxBits, 8) + r6;
    var r4 := LittleEndian(m.minBits, 8) + r5;
    var r3 := [Flag(m.hasStats)] + r4;
    var r2 := LittleEndian(m.dataOffset, 8) + r3;
    var r1 := [m.typeTag] + r2;
    assert ChunkBytes(m) + rest == LittleEndian(m.columnId, 4) + r1;
    OneByte(m.typeTag);
    OneByte(Flag(m.hasStats));
    ReadBack(m.columnId, 4, r1);
    ReadBack(m.typeTag, 1, r2);
    ReadBack(m.dataOffset, 8, r3);
    ReadBack(Flag(m.hasStats), 1, r4);
    ReadBack(m.minBits, 8, r5);
    ReadBack(m.maxBits, 8, r6);
  }

  function AllChunkBytes(ms: seq<ColumnChunkMeta>): (bytes: Data)
    ensures |bytes| == CHUNK_BYTES * |ms|
  {
    if ms == [] then [] else ChunkBytes(ms[0]) + AllChunkBytes(ms[1..])
  }

  function ReadChunks(bytes: Data, count: nat): Option<(seq<ColumnChunkMeta>, Data)> {
    if count == 0 then Some(([], bytes))
    else
      match ReadChunk(bytes)
      case None => None
      case Some((m, rest)) =>
        match ReadChunks(rest, count - 1)
        case None => None
        case Some((ms, after)) => Some(([m] + ms, after))
  }

  lemma {:induction false} ReadChunksBack(ms: seq<ColumnChunkMeta>, rest: Data)
    requires forall i | 0 <= i < |ms| :: ms[i].Fits()
    ensures ReadChunks(AllChunkBytes(ms) + rest, |ms|) == Some((ms, rest))
  {
    if ms == [] {
      assert AllChunkBytes(ms) + rest == rest;
    } else {
      ReadChunksBack(ms[1..], rest);
      AppendAssociates(ChunkBytes(ms[0]), AllChunkBytes(ms[1..]), rest);
      ReadChunkBack(ms[0], AllChunkBytes(ms[1..]) + rest);
      assert ms == [ms[0]] + ms[1..];
    }
  }

  function MetaBytes(m: SegmentMeta): (bytes: Data)
    ensures |bytes| == 16 + |m.path| + CHUNK_BYTES * |m.columns|
  {
    LittleEndian(m.segmentId, 4)
    + (LittleEndian(m.rowCount, 4)
       + ((LittleEndian(|m.path|, 4) + m.path) + (LittleEndian(|m.columns|, 4) + AllChunkBytes(m.columns))))
  }

  function ReadMeta(bytes: Data): Option<(SegmentMeta, Data)> {
    match ReadUInt(bytes, 4)
    case None => None
    case Some((id, r1)) =>
      match ReadUInt(r1, 4)
      case None => None
      case Some((rows, r2)) =>
        match ReadString(r2)
        case None => None
        case Some((path, r3)) =>
          match ReadUInt(r3, 4)
          case None => None
          case Some((count, r4)) =>
            match ReadChunks(r4, count)
            case None => None
            case Some((columns, r5)) => Some((SegmentMeta(id, rows, path, columns), r5))
  }

  lemma ReadStringBack(text: Data, rest: Data)
    requires |text| < Pow256(4)
    ensures ReadString((LittleEndian(|text|, 4) + text) + rest) == Some((text, rest))
  {
    AppendAssociates(LittleEndian(|text|, 4), text, rest);
    ReadBack(|text|, 4, text + rest);
    assert (text + rest)[..|text|] == text && (text + rest)[|text|..] == rest;
  }

  lemma Nested(a: Data, b: Data, c: Data, d: Data, e: Data, rest: Data)
    ensures (a + (b + (c + (d + e)))) + rest == a + (b + (c + (d + (e + rest))))
  {
  }

  /** Deserialize undoes Serialize, whatever follows in the file. */
  lemma ReadMetaBack(m: SegmentMeta, rest: Data)
    requires m.Fits()
    ensures ReadMeta(MetaBytes(m) + rest) == Some((m, rest))
  {
    var r4 := AllChunkBytes(m.columns) + rest;
    var r3 := LittleEndian(|m.columns|, 4) + r4;
    var r2 := (LittleEndian(|m.path|, 4) + m.path) + r3;
    var r1 := LittleEndian(m.rowCount, 4) + r2;
    Nested(LittleEndian(m.segmentId, 4), LittleEndian(m.rowCount, 4), LittleEndian(|m.path|, 4) + m.path,
           LittleEndian(|m.columns|, 4), AllChunkBytes(m.columns), rest);
    ReadBack(m.segmentId, 4, r1);
    ReadBack(m.rowCount, 4, r2);
    ReadStringBack(m.path, r3);
    ReadBack(|m.columns|, 4, r4);
    ReadChunksBack(m.columns, rest);
  }

  // ---------- the same through the writer and the reader ----------

  /** Appending one by one is appending the whole. */
  lemma OneByOne(a: Data, b: Data, c: Data, d: Data, e: Data, f: Data)
    ensures ((((a + b) + c) + d) + e) + f == a + (b + (c + (d + (e + f))))
  {
    AppendAssociates(((a + b) + c) + d, e, f);
    AppendAssociates((a + b) + c, d, e + f);
    AppendAssociates(a + b, c, d + (e + f));
    AppendAssociates(a, b, c + (d + (e + f)));
  }

  method SerializeChunk(m: ColumnChunkMeta, writer: BinaryWriter)
    modifies writer
    ensures writer.buffer == old(writer.buffer) + ChunkBytes(m)
  {
    ghost var was := writer.buffer;
    ghost var id, offset := LittleEndian(m.columnId, 4), LittleEndian(m.dataOffset, 8);
    ghost var min, max := LittleEndian(m.minBits, 8), LittleEndian(m.maxBits, 8);
    OneByOne(was + id, [m.typeTag % 256], offset, [Flag(m.hasStats)], min, max);
    AppendAssociates(was, id, [m.typeTag % 256] + (offset + ([Flag(m.hasStats)] + (min + max))));
    writer.WriteUInt(m.columnId, 4);
    writer.WriteUInt8(m.typeTag % 256);
    writer.WriteUInt(m.dataOffset, 8);
    writer.WriteUInt8(Flag(m.hasStats));
    writer.WriteUInt(m.minBits, 8);
    writer.WriteUInt(m.maxBits, 8);
  }

  method Serialize(m: SegmentMeta, writer: BinaryWriter)
    modifies writer
    ensures writer.buffer == old(writer.buffer) + MetaBytes(m)
  {
    writer.WriteUInt(m.segmentId, 4);
    writer.WriteUInt(m.rowCount, 4);
    writer.WriteString(m.path);
    writer.WriteUInt(|m.columns|, 4);
    ghost var head := writer.buffer;
    var i := 0;
    while i < |m.columns|
      invariant 0 <= i <= |m.columns|
      invariant writer.buffer + AllChunkBytes(m.columns[i..]) == head + AllChunkBytes(m.columns)
    {
      assert m.columns[i..][0] == m.columns[i] && m.columns[i..][1..] == m.columns[i + 1..];
      AppendAssociates(writer.buffer, ChunkBytes(m.columns[i]), AllChunkBytes(m.columns[i + 1..]));
      SerializeChunk(m.columns[i], writer);
      i := i + 1;
    }
    assert AllChunkBytes(m.columns[i..]) == [];
    OneByOne(old(writer.buffer), LittleEndian(m.segmentId, 4), LittleEndian(m.rowCount, 4),
           LittleEndian(|m.path|, 4) + m.path, LittleEndian(|m.columns|, 4), AllChunkBytes(m.columns));
  }

  method DeserializeChunk(reader: BinaryReader) returns (r: Option<ColumnChunkMeta>)
    requires reader.Valid()
    modifies reader`offset
    ensures reader.Valid()
    ensures match ReadChunk(old(reader.Rest()))
            case None => r == None
            case Some((m, rest)) => r == Some(m) && reader.Rest() == rest
  {
    var id := reader.ReadInteger(4);
    if id.None? { return None; }
    var tag := reader.ReadInteger(1);
    if tag.None? { return None; }
    var offset := reader.ReadInteger(8);
    if offset.None? { return None; }
    var flag := reader.ReadInteger(1);
    if flag.None? { return None; }
    var min := reader.ReadInteger(8);
    if min.None? { return None; }
    var max := reader.ReadInteger(8);
    if max.None? { return None; }
    r := Some(ColumnChunkMeta(id.value, tag.value, offset.value, flag.value != 0, min.value, max.value));
  }

  method Deserialize(reader: BinaryReader) returns (r: Option<SegmentMeta>)
    requires reader.Valid()
    modifies reader`offset
    ensures reader.Valid()
    ensures match ReadMeta(old(reader.Rest()))
            case None => r == None
            case Some((m, rest)) => r == Some(m) && reader.Rest() == rest
  {
    var id := reader.ReadInteger(4);
    if id.None? { return None; }
    var rows := reader.ReadInteger(4);
    if rows.None? { return None; }
    var path := reader.ReadText();
    if path.None? { return None; }
    var count := reader.ReadInteger(4);
    if count.None? { return None; }
    var columns := DeserializeChunks(reader, count.value);
    if columns.None? { return None; }
    r := Some(SegmentMeta(id.value, rows.value, path.value, columns.value));
  }

  method DeserializeChunks(reader: BinaryReader, count: nat) returns (r: Option<seq<ColumnChunkMeta>>)
    requires reader.Valid()
    modifies reader`offset
    ensures reader.Valid()
    ensures match ReadChunks(old(reader.Rest()), count)
            case None => r == None
            case Some((ms, rest)) => r == Some(ms) && reader.Rest() == rest
  {
    var ms: seq<ColumnChunkMeta>, i := [], 0;
    ghost var whole := ReadChunks(reader.Rest(), count);
    if whole.Some? {
      assert [] + whole.value.0 == whole.value.0;
    }
    while i < count
      invariant 0 <= i <= count && reader.Valid()
      invariant whole == match ReadChunks(reader.Rest(), count - i)
                         case None => None
                         case Some((later, rest)) => Some((ms + later, rest))
    {
      var m := DeserializeChunk(reader);
      if m.None? { return None; }
      ghost var later := ReadChunks(reader.Rest(), count - i - 1);
      if later.Some? {
        AppendAssociates(ms, [m.value], later.value.0);
      }
      ms, i := ms + [m.value], i + 1;
    }
    assert ms + [] == ms;
    r := Some(ms);
  }

  // ---------- a file cut short ----------

  lemma ReadUIntExtends(bytes: Data, width: nat, more: Data)
    requires ReadUInt(bytes, width).Some?
    ensures var (n, rest) := ReadUInt(bytes, width).value;
            ReadUInt(bytes + more, width) == Some((n, rest + more))
  {
    assert (bytes + more)[..width] == bytes[..width] && (bytes + more)[width..] == bytes[width..] + more;
  }

  lemma ReadStringExtends(bytes: Data, more: Data)
    requires ReadString(bytes).Some?
    ensures var (text, rest) := ReadString(bytes).value;
            ReadString(bytes + more) == Some((text, rest + more))
  {
    ReadUIntExtends(bytes, 4, more);
    var (n, rest) := ReadUInt(bytes, 4).value;
    assert (rest + more)[..n] == rest[..n] && (rest + more)[n..] == rest[n..] + more;
  }

  lemma ReadChunkExtends(bytes: Data, more: Data)
    requires ReadChunk(bytes).Some?
    ensures var (m, rest) := ReadChunk(bytes).value;
            ReadChunk(bytes + more) == Some((m, rest + more))
  {
    ReadUIntExtends(bytes, 4, more);
    var r1 := ReadUInt(bytes, 4).value.1;
    ReadUIntExtends(r1, 1, more);
    var r2 := ReadUInt(r1, 1).value.1;
    ReadUIntExtends(r2, 8, more);
    var r3 := ReadUInt(r2, 8).value.1;
    ReadUIntExtends(r3, 1, more);
    var r4 := ReadUInt(r3, 1).value.1;
    ReadUIntExtends(r4, 8, more);
    var r5 := ReadUInt(r4, 8).value.1;
    ReadUIntExtends(r5, 8, more);
  }

  lemma {:induction false} ReadChunksExtends(bytes: Data, count: nat, more: Data)
    requires ReadChunks(bytes, count).Some?
    ensures var (ms, rest) := ReadChunks(bytes, count).value;
            ReadChunks(bytes + more, count) == Some((ms, rest + more))
  {
    if count > 0 {
      ReadChunkExtends(bytes, more);
      ReadChunksExtends(ReadChunk(bytes).value.1, count - 1, more);
    }
  }

  lemma ReadMetaExtends(bytes: Data, more: Data)
    requires ReadMeta(bytes).Some?
    ensures var (m, rest) := ReadMeta(bytes).value;
            ReadMeta(bytes + more) == Some((m, rest + more))
  {
    ReadUIntExtends(bytes, 4, more);
    var r1 := ReadUInt(bytes, 4).value.1;
    ReadUIntExtends(r1, 4, more);
    var r2 := ReadUInt(r1, 4).value.1;
    ReadStringExtends(r2, more);
    var r3 := ReadString(r2).value.1;
    ReadUIntExtends(r3, 4, more);
    var (count, r4) := ReadUInt(r3, 4).value;
    ReadChunksExtends(r4, count, more);
  }

  /** A header is read exactly when all of it is there. */
  lemma CutHeaderIsRefused(m: SegmentMeta, data: Data, size: nat)
    requires m.Fits() && size <= |MetaBytes(m) + data|
    ensures ReadMeta((MetaBytes(m) + data)[..size]).Some? <==> |MetaBytes(m)| <= size
  {
    var header, file := MetaBytes(m), MetaBytes(m) + data;
    if |header| <= size {
      assert file[..size] == header + data[..size - |header|];
      ReadMetaBack(m, data[..size - |header|]);
    } else if ReadMeta(file[..size]).Some? {
      assert file[..size] + header[size..] == header + [];
      ReadMetaExtends(file[..size], header[size..]);
      ReadMetaBack(m, []);
      assert false;
    }
  }

  // ---------- where the fields are ----------

  /** The unsigned integer of this width at this offset. */
  function Field(bytes: Data, at: nat, width: nat): nat
    requires at + width <= |bytes|
  {
    FromLittleEndian(bytes[at..at + width])
  }

  lemma Parts(a: Data, b: Data, c: Data, d: Data, e: Data, f: Data)
    ensures var all := a + (b + (c + (d + (e + f))));
            var i, j, k, l := |a| + |b|, |a| + |b| + |c|, |a| + |b| + |c| + |d|, |a| + |b| + |c| + |d| + |e|;
            && all[0..|a|] == a && all[|a|..i] == b && all[i..j] == c && all[j..k] == d && all[k..l] == e
            && all[l..l + |f|] == f
  {
  }

  /** A column's entry: id, type, offset, flag, minimum and maximum, at these offsets. */
  lemma ChunkFields(m: ColumnChunkMeta)
    requires m.Fits()
    ensures var bytes := ChunkBytes(m);
            && Field(bytes, 0, 4) == m.columnId && bytes[4..5] == [m.typeTag] && Field(bytes, 5, 8) == m.dataOffset
            && bytes[13..14] == [if m.hasStats then 1 else 0]
            && Field(bytes, 14, 8) == m.minBits && Field(bytes, 22, 8) == m.maxBits
  {
    Parts(LittleEndian(m.columnId, 4), [m.typeTag % 256], LittleEndian(m.dataOffset, 8), [Flag(m.hasStats)],
          LittleEndian(m.minBits, 8), LittleEndian(m.maxBits, 8));
    LittleEndianRoundTrip(m.columnId, 4);
    LittleEndianRoundTrip(m.dataOffset, 8);
    LittleEndianRoundTrip(m.minBits, 8);
    LittleEndianRoundTrip(m.maxBits, 8);
  }

  lemma Grouped(a: Data, b: Data, c: Data, d: Data, e: Data, f: Data)
    ensures a + (b + ((c + d) + (e + f))) == a + (b + (c + (d + (e + f))))
  {
  }

  /** A segment's header: id, rows, the path with its length before it, the number of columns, and their entries. */
  lemma HeaderFields(m: SegmentMeta)
    requires m.Fits()
    ensures var bytes, n := MetaBytes(m), |m.path|;
            && Field(bytes, 0, 4) == m.segmentId && Field(bytes, 4, 4) == m.rowCount && Field(bytes, 8, 4) == n
            && bytes[12..12 + n] == m.path && Field(bytes, 12 + n, 4) == |m.columns|
            && bytes[16 + n..] == AllChunkBytes(m.columns)
  {
    var a, b, c := LittleEndian(m.segmentId, 4), LittleEndian(m.rowCount, 4), LittleEndian(|m.path|, 4);
    var e, f := LittleEndian(|m.columns|, 4), AllChunkBytes(m.columns);
    Grouped(a, b, c, m.path, e, f);
    Parts(a, b, c, m.path, e, f);
    LittleEndianRoundTrip(m.segmentId, 4);
    LittleEndianRoundTrip(m.rowCount, 4);
    LittleEndianRoundTrip(|m.path|, 4);
    LittleEndianRoundTrip(|m.columns|, 4);
  }

  /** The entries stand one after the other, 30 bytes each. */
  lemma {:induction false} EntryAt(ms: seq<ColumnChunkMeta>, i: nat)
    requires i < |ms|
    ensures AllChunkBytes(ms)[30 * i..30 * i + 30] == ChunkBytes(ms[i])
  {
    var rest := AllChunkBytes(ms[1..]);
    if i > 0 {
      EntryAt(ms[1..], i - 1);
      assert AllChunkBytes(ms)[30 * i..30 * i + 30] == rest[30 * (i - 1)..30 * (i - 1) + 30];
    }
  }
}
