/** A segment's bytes from the builder that writes them to the reader that maps them. */
module SegmentLayout {
  import opened Wrappers
  import opened Arithmetic
  import opened Bytes
  import opened SegmentFiles
  import Batches

  /** INVALID, INT32, INT64, FLOAT, DOUBLE and VARCHAR are tagged 0 to 5. */
  function TypeElemSize(typeTag: nat): (width: nat)
    ensures width > 0
  {
    match typeTag
    case 1 => 4
    case 3 => 4
    case 5 => 64
    case _ => 8
  }

  /** A column builder: its metadata and the bytes appended so far. */
  datatype ColumnBytes = ColumnBytes(meta: ColumnChunkMeta, data: Data)
  {
    function Width(): (width: nat)
      ensures width > 0
    {
      TypeElemSize(meta.typeTag)
    }

    predicate Holds(rows: nat) { |data| == rows * Width() }
  }

  function AllData(columns: seq<ColumnBytes>): Data {
    if columns == [] then [] else columns[0].data + AllData(columns[1..])
  }

  /** The metadata with each column's region starting where the one before it ends. */
  function Placed(columns: seq<ColumnBytes>, start: nat): (ms: seq<ColumnChunkMeta>)
    ensures |ms| == |columns|
  {
    if columns == [] then []
    else [columns[0].meta.(dataOffset := start)] + Placed(columns[1..], start + |columns[0].data|)
  }

  function HeaderSize(path: Data, columns: seq<ColumnBytes>): nat {
    16 + |path| + CHUNK_BYTES * |columns|
  }

  function FlushedMeta(id: nat, rows: nat, path: Data, columns: seq<ColumnBytes>): SegmentMeta {
    SegmentMeta(id, rows, path, Placed(columns, HeaderSize(path, columns)))
  }

  function FileBytes(id: nat, rows: nat, path: Data, columns: seq<ColumnBytes>): Data {
    MetaBytes(FlushedMeta(id, rows, path, columns)) + AllData(columns)
  }

  // ---------- the regions ----------

  lemma {:induction false} PlacedAt(columns: seq<ColumnBytes>, start: nat, i: nat)
    requires i < |columns|
    ensures Placed(columns, start)[i] == columns[i].meta.(dataOffset := start + |AllData(columns[..i])|)
  {
    if i > 0 {
      PlacedAt(columns[1..], start + |columns[0].data|, i - 1);
      assert columns[..i][1..] == columns[1..][..i - 1];
    }
  }

  lemma {:induction false} AllDataSplits(columns: seq<ColumnBytes>, i: nat)
    requires i <= |columns|
    ensures AllData(columns) == AllData(columns[..i]) + AllData(columns[i..])
  {
    if i > 0 {
      AllDataSplits(columns[1..], i - 1);
      assert columns[..i][1..] == columns[1..][..i - 1];
      AppendAssociates(columns[0].data, AllData(columns[..i][1..]), AllData(columns[i..]));
    } else {
      assert columns[..0] == [] && columns[0..] == columns;
    }
  }

  /** The regions follow the header in order, do not overlap, and the last one ends the file. */
  lemma RegionsAreDisjoint(id: nat, rows: nat, path: Data, columns: seq<ColumnBytes>, i: nat, j: nat)
    requires i < j < |columns|
    ensures var ms := FlushedMeta(id, rows, path, columns).columns;
            && |MetaBytes(FlushedMeta(id, rows, path, columns))| == HeaderSize(path, columns) <= ms[i].dataOffset
            && ms[i].dataOffset + |columns[i].data| <= ms[j].dataOffset
            && ms[j].dataOffset + |columns[j].data| <= |FileBytes(id, rows, path, columns)|
  {
    var start := HeaderSize(path, columns);
    PlacedAt(columns, start, i);
    PlacedAt(columns, start, j);
    AllDataSplits(columns, j);
    AllDataSplits(columns[..j], i);
    assert columns[..j][..i] == columns[..i];
    assert columns[..j][i..][0] == columns[i] && columns[j..][0] == columns[j];
  }

  lemma Region(header: Data, columns: seq<ColumnBytes>, i: nat)
    requires i < |columns|
    ensures var at := Placed(columns, |header|)[i].dataOffset;
            && |header| <= at && at + |columns[i].data| <= |header + AllData(columns)|
            && (header + AllData(columns))[at..at + |columns[i].data|] == columns[i].data
  {
    PlacedAt(columns, |header|, i);
    AllDataSplits(columns, i);
    var before, after := AllData(columns[..i]), AllData(columns[i..][1..]);
    assert AllData(columns[i..]) == columns[i].data + after;
    AppendAssociates(header, before, columns[i].data + after);
    Middle(header + before, columns[i].data, after);
  }

  lemma Middle(a: Data, b: Data, c: Data)
    ensures |a| + |b| <= |a + (b + c)| && (a + (b + c))[|a|..|a| + |b|] == b
  {
  }

  lemma {:induction false} PlacedFit(columns: seq<ColumnBytes>, start: nat)
    requires forall i | 0 <= i < |columns| :: columns[i].meta.Fits()
    requires start + |AllData(columns)| < Pow256(8)
    ensures forall i | 0 <= i < |columns| :: Placed(columns, start)[i].Fits()
  {
    if columns != [] {
      PlacedFit(columns[1..], start + |columns[0].data|);
    }
  }

  // ---------- SegmentBuilder ----------

  function Metas(columns: seq<ColumnBytes>): (ms: seq<ColumnChunkMeta>)
    ensures |ms| == |columns| && forall i | 0 <= i < |columns| :: ms[i] == columns[i].meta
  {
    seq(|columns|, i requires 0 <= i < |columns| => columns[i].meta)
  }

  datatype Batch = Batch(rows: nat, columns: seq<Data>)

  class SegmentBuilder {
    var columns: seq<ColumnBytes>
    var rowCount: nat

    ghost predicate Valid()
      reads this
    {
      forall i | 0 <= i < |columns| :: columns[i].Holds(rowCount)
    }

    constructor (schema: seq<(nat, nat)>)
      ensures Valid() && rowCount == 0 && |columns| == |schema|
      ensures forall i | 0 <= i < |schema| ::
                columns[i] == ColumnBytes(ColumnChunkMeta(schema[i].0, schema[i].1, 0, false, 0, 0), [])
    {
      columns := seq(|schema|, i requires 0 <= i < |schema| =>
                       ColumnBytes(ColumnChunkMeta(schema[i].0, schema[i].1, 0, false, 0, 0), []));
      rowCount := 0;
    }

    /** Every column's buffer grows by the batch's bytes; `stats` is each column's min and max afterwards. */
    method Append(batch: Batch, stats: seq<(bool, nat, nat)>)
      requires Valid() && |batch.columns| == |columns| == |stats|
      requires forall i | 0 <= i < |columns| :: |batch.columns[i]| == batch.rows * columns[i].Width()
      modifies this
      ensures Valid() && rowCount == old(rowCount) + batch.rows && |columns| == |old(columns)|
      ensures forall i | 0 <= i < |columns| ::
                && columns[i].data == old(columns)[i].data + batch.columns[i]
                && columns[i].meta == old(columns)[i].meta.(hasStats := stats[i].0, minBits := stats[i].1,
                                                            maxBits := stats[i].2)
    {
      ghost var was := columns;
      var i := 0;
      while i < |columns|
        invariant 0 <= i <= |columns| == |was| && rowCount == old(rowCount)
        invariant forall k | i <= k < |columns| :: columns[k] == was[k]
        invariant forall k | 0 <= k < i ::
                    && columns[k].data == was[k].data + batch.columns[k]
                    && columns[k].meta == was[k].meta.(hasStats := stats[k].0, minBits := stats[k].1,
                                                       maxBits := stats[k].2)
      {
        var c := columns[i];
        var meta := c.meta.(hasStats := stats[i].0, minBits := stats[i].1, maxBits := stats[i].2);
        columns := columns[i := ColumnBytes(meta, c.data + batch.columns[i])];
        i := i + 1;
      }
      rowCount := rowCount + batch.rows;
      forall k | 0 <= k < |columns|
        ensures columns[k].Holds(rowCount)
      {
        Distributes(old(rowCount), batch.rows, columns[k].Width());
        assert was[k].Holds(old(rowCount)) && columns[k].Width() == was[k].Width();
      }
    }

    /** The probe, the back-filled offsets and the second pass; the layout check after the header never fails. */
    method Flush(id: nat, path: Data) returns (file: Option<Data>)
      requires Valid()
      ensures file == Some(FileBytes(id, rowCount, path, columns))
    {
      var metas := Metas(columns);
      var probe := new BinaryWriter();
      Serialize(SegmentMeta(id, rowCount, path, metas), probe);
      var metaSize := |probe.buffer|;
      assert metaSize == HeaderSize(path, columns);
      metas := Backfill(metas, metaSize);
      var writer := new BinaryWriter();
      Serialize(SegmentMeta(id, rowCount, path, metas), writer);
      assert [] + MetaBytes(FlushedMeta(id, rowCount, path, columns)) == MetaBytes(FlushedMeta(id, rowCount, path, columns));
      var bytes := writer.buffer;
      if |bytes| != metaSize {
        return None;
      }
      bytes := WriteColumns(bytes);
      file := Some(bytes);
    }

    method Backfill(metas: seq<ColumnChunkMeta>, metaSize: nat) returns (placed: seq<ColumnChunkMeta>)
      requires Valid() && metas == Metas(columns)
      ensures placed == Placed(columns, metaSize)
    {
      placed := [];
      var offset: nat, i := metaSize, 0;
      while i < |columns|
        invariant 0 <= i <= |columns|
        invariant placed + Placed(columns[i..], offset) == Placed(columns, metaSize)
      {
        var c := columns[i];
        assert c.Holds(rowCount) && metas[i] == c.meta;
        assert columns[i..][0] == c && columns[i..][1..] == columns[i + 1..];
        AppendAssociates(placed, [c.meta.(dataOffset := offset)], Placed(columns[i + 1..], offset + |c.data|));
        placed := placed + [metas[i].(dataOffset := offset)];
        offset := offset + rowCount * c.Width();
        i := i + 1;
      }
    }

    method WriteColumns(header: Data) returns (bytes: Data)
      ensures bytes == header + AllData(columns)
    {
      bytes := header;
      var i := 0;
      while i < |columns|
        invariant 0 <= i <= |columns|
        invariant bytes == header + AllData(columns[..i])
      {
        AllDataSplits(columns[..i + 1], i);
        assert columns[..i + 1][..i] == columns[..i] && columns[..i + 1][i..] == [columns[i]];
        assert AllData([columns[i]]) == columns[i].data;
        AppendAssociates(header, AllData(columns[..i]), columns[i].data);
        bytes := bytes + columns[i].data;
        i := i + 1;
      }
      assert columns[..i] == columns;
    }
  }

  lemma Distributes(a: nat, b: nat, w: nat)
    ensures (a + b) * w == a * w + b * w
  {
  }

  // ---------- SegmentReader ----------

  datatype SegmentReader = SegmentReader(meta: SegmentMeta, file: Data)
  {
    /** Every chunk's region lies in the mapped file: what the reader relies on and does not check. */
    predicate InFile() {
      forall i | 0 <= i < |meta.columns| ::
        meta.columns[i].dataOffset + meta.rowCount * TypeElemSize(meta.columns[i].typeTag) <= |file|
    }
  }

  method OpenSegment(id: nat, file: Data) returns (r: Option<SegmentReader>)
    ensures r == Opened(id, file)
  {
    var reader := new BinaryReader(file);
    var meta := Deserialize(reader);
    match meta {
      case None => return None;
      case Some(m) => return if m.segmentId != id then None else Some(SegmentReader(m, file));
    }
  }

  function Opened(id: nat, file: Data): Option<SegmentReader> {
    match ReadMeta(file)
    case None => None
    case Some((m, _)) => if m.segmentId != id then None else Some(SegmentReader(m, file))
  }

  /** The first chunk with this id: what both the linear search and the id map answer. */
  function FindChunk(ms: seq<ColumnChunkMeta>, id: nat): (at: Option<nat>)
    ensures at.Some? ==> at.value < |ms| && ms[at.value].columnId == id
    ensures at.Some? ==> forall k | 0 <= k < at.value :: ms[k].columnId != id
    ensures at.None? ==> forall k | 0 <= k < |ms| :: ms[k].columnId != id
  {
    if ms == [] then None
    else if ms[0].columnId == id then Some(0)
    else match FindChunk(ms[1..], id) case None => None case Some(k) => Some(k + 1)
  }

  predicate HasColumns(m: SegmentMeta, ids: seq<nat>) {
    forall i | 0 <= i < |ids| :: FindChunk(m.columns, ids[i]).Some?
  }

  /** `count` rows of column `id` from `offset` on. */
  function Rows(r: SegmentReader, id: nat, offset: nat, count: nat): (column: (nat, Data))
    requires r.InFile() && FindChunk(r.meta.columns, id).Some? && offset + count <= r.meta.rowCount
  {
    var chunk := r.meta.columns[FindChunk(r.meta.columns, id).value];
    var w := TypeElemSize(chunk.typeTag);
    TimesMonotone(offset + count, r.meta.rowCount, w);
    Distributes(offset, count, w);
    var start := chunk.dataOffset + offset * w;
    (chunk.typeTag, r.file[start..start + count * w])
  }

  lemma TimesMonotone(a: nat, b: nat, w: nat)
    requires a <= b
    ensures a * w <= b * w
  {
  }

  function AllIds(ms: seq<ColumnChunkMeta>): (ids: seq<nat>)
    ensures |ids| == |ms| && forall i | 0 <= i < |ms| :: ids[i] == ms[i].columnId
  {
    seq(|ms|, i requires 0 <= i < |ms| => ms[i].columnId)
  }

  /** No columns asked for means all of them. */
  function OutColumns(m: SegmentMeta, ids: seq<nat>): seq<nat> {
    if ids == [] then AllIds(m.columns) else ids
  }

  method GetVectorBatch(r: SegmentReader, ids: seq<nat>, offset: nat) returns (out: Option<(nat, seq<(nat, Data)>)>)
    requires r.InFile() && HasColumns(r.meta, OutColumns(r.meta, ids))
    ensures out.None? <==> offset >= r.meta.rowCount
    ensures out.Some? ==>
              && out.value.0 == BatchSize(r, offset)
              && |out.value.1| == |OutColumns(r.meta, ids)|
              && forall i | 0 <= i < |out.value.1| ::
                   out.value.1[i] == Rows(r, OutColumns(r.meta, ids)[i], offset, out.value.0)
  {
    if offset >= r.meta.rowCount {
      return None;
    }
    var count := BatchSize(r, offset);
    var wanted := OutColumns(r.meta, ids);
    var columns: seq<(nat, Data)>, i := [], 0;
    while i < |wanted|
      invariant 0 <= i <= |wanted| && |columns| == i
      invariant forall k | 0 <= k < i :: columns[k] == Rows(r, wanted[k], offset, count)
    {
      columns := columns + [Rows(r, wanted[i], offset, count)];
      i := i + 1;
    }
    out := Some((count, columns));
  }

  // ---------- round trip ----------

  /** Every number the file holds fits the field that holds it. */
  predicate Fits(id: nat, rows: nat, path: Data, columns: seq<ColumnBytes>) {
    && id < Pow256(4) && rows < Pow256(4) && |path| < Pow256(4) && |columns| < Pow256(4)
    && HeaderSize(path, columns) + |AllData(columns)| < Pow256(8)
    && forall i | 0 <= i < |columns| :: columns[i].meta.Fits() && columns[i].Holds(rows)
  }

  /** What Flush writes opens under the id it was written for, and under no other, to the metadata it wrote. */
  lemma FlushedOpens(id: nat, rows: nat, path: Data, columns: seq<ColumnBytes>, asked: nat)
    requires Fits(id, rows, path, columns)
    ensures var file := FileBytes(id, rows, path, columns);
            Opened(asked, file) ==
            if asked == id then Some(SegmentReader(FlushedMeta(id, rows, path, columns), file)) else None
  {
    var meta := FlushedMeta(id, rows, path, columns);
    PlacedFit(columns, HeaderSize(path, columns));
    ReadMetaBack(meta, AllData(columns));
  }

  /** A file cut short opens exactly when its whole header survived, whatever columns are missing. */
  lemma CutFileOpensIff(id: nat, rows: nat, path: Data, columns: seq<ColumnBytes>, size: nat)
    requires Fits(id, rows, path, columns) && size <= |FileBytes(id, rows, path, columns)|
    ensures Opened(id, FileBytes(id, rows, path, columns)[..size]).Some? <==> HeaderSize(path, columns) <= size
  {
    var meta := FlushedMeta(id, rows, path, columns);
    PlacedFit(columns, HeaderSize(path, columns));
    CutHeaderIsRefused(meta, AllData(columns), size);
    if HeaderSize(path, columns) <= size {
      var kept := AllData(columns)[..size - |MetaBytes(meta)|];
      assert FileBytes(id, rows, path, columns)[..size] == MetaBytes(meta) + kept;
      ReadMetaBack(meta, kept);
    }
  }

  lemma FlushedInFile(id: nat, rows: nat, path: Data, columns: seq<ColumnBytes>)
    requires Fits(id, rows, path, columns)
    ensures SegmentReader(FlushedMeta(id, rows, path, columns), FileBytes(id, rows, path, columns)).InFile()
  {
    var meta := FlushedMeta(id, rows, path, columns);
    forall i | 0 <= i < |columns|
      ensures meta.columns[i].dataOffset + rows * TypeElemSize(meta.columns[i].typeTag)
              <= |FileBytes(id, rows, path, columns)|
    {
      Region(MetaBytes(meta), columns, i);
      PlacedAt(columns, HeaderSize(path, columns), i);
      assert columns[i].Holds(rows);
    }
  }

  /** Bytes of rows offset .. offset + count of one column. */
  function Cells(c: ColumnBytes, rows: nat, offset: nat, count: nat): Data
    requires c.Holds(rows) && offset + count <= rows
  {
    TimesMonotone(offset + count, rows, c.Width());
    Distributes(offset, count, c.Width());
    c.data[offset * c.Width()..(offset + count) * c.Width()]
  }

  /** Any rows of any column of a reopened segment are the bytes that were appended there. */
  lemma FlushedReadsBack(id: nat, rows: nat, path: Data, columns: seq<ColumnBytes>, i: nat, offset: nat, count: nat)
    requires Fits(id, rows, path, columns) && i < |columns| && offset + count <= rows
    requires forall k | 0 <= k < i :: columns[k].meta.columnId != columns[i].meta.columnId
    ensures var file := FileBytes(id, rows, path, columns);
            var r := SegmentReader(FlushedMeta(id, rows, path, columns), file);
            && r.InFile() && FindChunk(r.meta.columns, columns[i].meta.columnId).Some?
            && Rows(r, columns[i].meta.columnId, offset, count)
               == (columns[i].meta.typeTag, Cells(columns[i], rows, offset, count))
  {
    var meta, c := FlushedMeta(id, rows, path, columns), columns[i];
    FlushedInFile(id, rows, path, columns);
    FlushedFinds(id, rows, path, columns, i);
    PlacedAt(columns, HeaderSize(path, columns), i);
    RegionRows(MetaBytes(meta), columns, i, rows, offset, count);
  }

  lemma FlushedFinds(id: nat, rows: nat, path: Data, columns: seq<ColumnBytes>, i: nat)
    requires i < |columns|
    requires forall k | 0 <= k < i :: columns[k].meta.columnId != columns[i].meta.columnId
    ensures FindChunk(FlushedMeta(id, rows, path, columns).columns, columns[i].meta.columnId) == Some(i)
  {
    SameIds(columns, HeaderSize(path, columns));
  }

  lemma RegionRows(header: Data, columns: seq<ColumnBytes>, i: nat, rows: nat, offset: nat, count: nat)
    requires i < |columns| && columns[i].Holds(rows) && offset + count <= rows
    ensures var w, file := columns[i].Width(), header + AllData(columns);
            var start := Placed(columns, |header|)[i].dataOffset + offset * w;
            && start + count * w <= |file|
            && file[start..start + count * w] == Cells(columns[i], rows, offset, count)
  {
    var w, file := columns[i].Width(), header + AllData(columns);
    Region(header, columns, i);
    TimesMonotone(offset + count, rows, w);
    Distributes(offset, count, w);
    SliceOfSlice(file, Placed(columns, |header|)[i].dataOffset, |columns[i].data|, offset * w, count * w);
  }

  lemma SliceOfSlice(bytes: Data, at: nat, size: nat, from: nat, count: nat)
    requires at + size <= |bytes| && from + count <= size
    ensures bytes[at..at + size][from..from + count] == bytes[at + from..at + from + count]
  {
    var region := bytes[at..at + size];
    var inner, outer := region[from..from + count], bytes[at + from..at + from + count];
    forall k | 0 <= k < count
      ensures inner[k] == outer[k]
    {
      assert region[from + k] == bytes[at + from + k];
    }
  }

  lemma SameIds(columns: seq<ColumnBytes>, start: nat)
    ensures forall k | 0 <= k < |columns| :: Placed(columns, start)[k].columnId == columns[k].meta.columnId
  {
    forall k | 0 <= k < |columns|
      ensures Placed(columns, start)[k].columnId == columns[k].meta.columnId
    {
      PlacedAt(columns, start, k);
    }
  }

  // ---------- GatherRows ----------

  /** The cells at the listed rows, in that order. */
  function Gathered(r: SegmentReader, id: nat, rows: seq<nat>): (column: (nat, Data))
    requires r.InFile() && FindChunk(r.meta.columns, id).Some?
    requires forall k | 0 <= k < |rows| :: rows[k] < r.meta.rowCount
  {
    var tag := r.meta.columns[FindChunk(r.meta.columns, id).value].typeTag;
    if rows == [] then (tag, [])
    else (tag, Gathered(r, id, rows[..|rows| - 1]).1 + Rows(r, id, rows[|rows| - 1], 1).1)
  }

  /** Refused as a whole when a row is past the end; nothing is cut off silently. */
  method GatherRows(r: SegmentReader, rows: seq<nat>, ids: seq<nat>) returns (out: Option<seq<(nat, Data)>>)
    requires r.InFile() && HasColumns(r.meta, ids)
    ensures out.Some? <==> rows != [] && ids != [] && forall k | 0 <= k < |rows| :: rows[k] < r.meta.rowCount
    ensures out.Some? ==> |out.value| == |ids| && forall i | 0 <= i < |ids| :: out.value[i] == Gathered(r, ids[i], rows)
  {
    if rows == [] || ids == [] {
      return None;
    }
    var k := 0;
    while k < |rows|
      invariant 0 <= k <= |rows|
      invariant forall j | 0 <= j < k :: rows[j] < r.meta.rowCount
    {
      if rows[k] >= r.meta.rowCount {
        return None;
      }
      k := k + 1;
    }
    var columns: seq<(nat, Data)>, i := [], 0;
    while i < |ids|
      invariant 0 <= i <= |ids| && |columns| == i
      invariant forall j | 0 <= j < i :: columns[j] == Gathered(r, ids[j], rows)
    {
      var column := GatherColumn(r, ids[i], rows);
      columns, i := columns + [column], i + 1;
    }
    out := Some(columns);
  }

  method GatherColumn(r: SegmentReader, id: nat, rows: seq<nat>) returns (column: (nat, Data))
    requires r.InFile() && FindChunk(r.meta.columns, id).Some?
    requires forall k | 0 <= k < |rows| :: rows[k] < r.meta.rowCount
    ensures column == Gathered(r, id, rows)
  {
    var tag := r.meta.columns[FindChunk(r.meta.columns, id).value].typeTag;
    var bytes: Data, k := [], 0;
    while k < |rows|
      invariant 0 <= k <= |rows|
      invariant (tag, bytes) == Gathered(r, id, rows[..k])
    {
      assert rows[..k + 1][..k] == rows[..k];
      bytes := bytes + Rows(r, id, rows[k], 1).1;
      k := k + 1;
    }
    assert rows[..k] == rows;
    column := (tag, bytes);
  }

  /** Row by row, a gather of consecutive rows is the batch read of those rows. */
  lemma {:induction false} GatherIsRead(r: SegmentReader, id: nat, offset: nat, count: nat)
    requires r.InFile() && FindChunk(r.meta.columns, id).Some? && offset + count <= r.meta.rowCount
    ensures Gathered(r, id, seq(count, k requires 0 <= k < count => offset + k)) == Rows(r, id, offset, count)
  {
    var run := seq(count, k requires 0 <= k < count => offset + k);
    if count > 0 {
      assert run[..count - 1] == seq(count - 1, k requires 0 <= k < count - 1 => offset + k);
      GatherIsRead(r, id, offset, count - 1);
      RowsAppend(r, id, offset, count - 1, 1);
    }
  }

  lemma RowsAppend(r: SegmentReader, id: nat, offset: nat, a: nat, b: nat)
    requires r.InFile() && FindChunk(r.meta.columns, id).Some? && offset + a + b <= r.meta.rowCount
    ensures Rows(r, id, offset, a + b).1 == Rows(r, id, offset, a).1 + Rows(r, id, offset + a, b).1
  {
    var chunk := r.meta.columns[FindChunk(r.meta.columns, id).value];
    var w := TypeElemSize(chunk.typeTag);
    Distributes(offset, a, w);
    Distributes(a, b, w);
    TimesMonotone(offset + a + b, r.meta.rowCount, w);
    Distributes(offset + a, b, w);
    Joined(r.file, chunk.dataOffset + offset * w, a * w, b * w);
  }

  function BatchSize(r: SegmentReader, offset: nat): (count: nat)
    requires offset < r.meta.rowCount
    ensures 0 < count && offset + count <= r.meta.rowCount
  {
    if r.meta.rowCount - offset < Batches.BATCH_SIZE then r.meta.rowCount - offset else Batches.BATCH_SIZE
  }

  /** Column `id` of every batch from `offset` on, each read where the one before it ended. */
  function AllBatches(r: SegmentReader, id: nat, offset: nat): Data
    requires r.InFile() && FindChunk(r.meta.columns, id).Some? && offset <= r.meta.rowCount
    decreases r.meta.rowCount - offset
  {
    if offset == r.meta.rowCount then []
    else
      var count := BatchSize(r, offset);
      Rows(r, id, offset, count).1 + AllBatches(r, id, offset + count)
  }

  /** Reading batch after batch loses and repeats nothing. */
  lemma {:induction false} BatchesCoverColumn(r: SegmentReader, id: nat, offset: nat, rest: nat)
    requires r.InFile() && FindChunk(r.meta.columns, id).Some? && offset + rest == r.meta.rowCount
    ensures AllBatches(r, id, offset) == Rows(r, id, offset, rest).1
    decreases rest
  {
    if rest > 0 {
      var count := BatchSize(r, offset);
      BatchesCoverColumn(r, id, offset + count, rest - count);
      BatchThenRest(r, id, offset, count, rest - count);
    }
  }

  lemma BatchThenRest(r: SegmentReader, id: nat, offset: nat, count: nat, rest: nat)
    requires r.InFile() && FindChunk(r.meta.columns, id).Some? && offset + count + rest == r.meta.rowCount
    requires offset < r.meta.rowCount && count == BatchSize(r, offset)
    requires AllBatches(r, id, offset + count) == Rows(r, id, offset + count, rest).1
    ensures AllBatches(r, id, offset) == Rows(r, id, offset, count + rest).1
  {
    RowsAppend(r, id, offset, count, rest);
  }

  lemma Joined(bytes: Data, at: nat, a: nat, b: nat)
    requires at + a + b <= |bytes|
    ensures bytes[at..at + a + b] == bytes[at..at + a] + bytes[at + a..at + a + b]
  {
  }
}
