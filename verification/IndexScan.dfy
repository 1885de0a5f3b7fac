/** src/execution/scan/index_scan.cpp: reading the rows a lookup found, segment by segment. */
module IndexScanOperator {
  import opened Wrappers
  import opened Values
  import opened Batches
  import opened Sequences
  import opened StoragePredicates
  import opened StorageScan
  import opened KeyIndexes
  import opened TableState

  datatype SegmentRows = SegmentRows(segment: nat, offsets: seq<nat>)

  /** The locations of a group from its `from`-th offset on. */
  function GroupLocations(g: SegmentRows, from: nat): (ls: seq<RowLocation>)
    requires from <= |g.offsets|
    ensures |ls| == |g.offsets| - from
    ensures forall i | 0 <= i < |ls| :: ls[i] == RowLocation(g.segment, g.offsets[from + i])
  {
    seq(|g.offsets| - from, i requires 0 <= i < |g.offsets| - from => RowLocation(g.segment, g.offsets[from + i]))
  }

  function Ungrouped(groups: seq<SegmentRows>): seq<RowLocation> {
    if groups == [] then [] else GroupLocations(groups[0], 0) + Ungrouped(groups[1..])
  }

  lemma {:induction false} UngroupedAppend(groups: seq<SegmentRows>, g: SegmentRows)
    ensures Ungrouped(groups + [g]) == Ungrouped(groups) + GroupLocations(g, 0)
  {
    if groups == [] {
      assert [g][1..] == [];
    } else {
      UngroupedAppend(groups[1..], g);
      assert (groups + [g])[1..] == groups[1..] + [g];
    }
  }

  predicate Before(a: RowLocation, b: RowLocation) {
    a.segment < b.segment || (a.segment == b.segment && a.offset <= b.offset)
  }

  predicate Sorted(ls: seq<RowLocation>) {
    forall i, j | 0 <= i < j < |ls| :: Before(ls[i], ls[j])
  }

  /** The std::sort of Init. */
  method SortLocations(ls: seq<RowLocation>) returns (sorted: seq<RowLocation>)
    ensures Sorted(sorted) && multiset(sorted) == multiset(ls)
  {
    sorted := [];
    var i := 0;
    while i < |ls|
      invariant 0 <= i <= |ls| && Sorted(sorted) && multiset(sorted) == multiset(ls[..i])
    {
      assert ls[..i + 1] == ls[..i] + [ls[i]];
      var at := 0;
      while at < |sorted| && Before(sorted[at], ls[i])
        invariant 0 <= at <= |sorted|
        invariant forall j | 0 <= j < at :: Before(sorted[j], ls[i])
      {
        at := at + 1;
      }
      assert sorted == sorted[..at] + sorted[at..];
      sorted := sorted[..at] + [ls[i]] + sorted[at..];
      i := i + 1;
    }
    assert ls[..i] == ls;
  }

  method GroupBySegment(ls: seq<RowLocation>) returns (groups: seq<SegmentRows>)
    ensures Ungrouped(groups) == ls
  {
    groups := [];
    var i := 0;
    while i < |ls|
      invariant 0 <= i <= |ls| && Ungrouped(groups) == ls[..i]
    {
      assert ls[..i + 1] == ls[..i] + [ls[i]];
      var n := |groups|;
      if n == 0 || groups[n - 1].segment != ls[i].segment {
        var g := SegmentRows(ls[i].segment, [ls[i].offset]);
        UngroupedAppend(groups, g);
        assert GroupLocations(g, 0) == [ls[i]];
        groups := groups + [g];
      } else {
        var init, last := groups[..n - 1], groups[n - 1];
        var extended := last.(offsets := last.offsets + [ls[i].offset]);
        assert groups == init + [last];
        UngroupedAppend(init, last);
        UngroupedAppend(init, extended);
        assert GroupLocations(extended, 0) == GroupLocations(last, 0) + [ls[i]];
        AppendAssociates(Ungrouped(init), GroupLocations(last, 0), [ls[i]]);
        groups := init + [extended];
      }
      i := i + 1;
    }
    assert ls[..i] == ls;
  }

  /** The row at a location of the segments on disk. */
  function RowFor(files: map<nat, seq<Row>>, l: RowLocation): Option<Row> {
    if l.segment in files then RowAt(files[l.segment], l.offset) else None
  }

  predicate Fetchable(files: map<nat, seq<Row>>, ls: seq<RowLocation>) {
    forall i | 0 <= i < |ls| :: RowFor(files, ls[i]).Some?
  }

  function RowsAt(files: map<nat, seq<Row>>, ls: seq<RowLocation>): (rows: seq<Row>)
    requires Fetchable(files, ls)
    ensures |rows| == |ls| && forall i | 0 <= i < |ls| :: rows[i] == RowFor(files, ls[i]).value
  {
    seq(|ls|, i requires 0 <= i < |ls| => RowFor(files, ls[i]).value)
  }

  /** ReadRows: None on an offset outside the segment, or when no column is asked for. */
  method ReadRows(schema: seq<ColumnSchema>, files: map<nat, seq<Row>>, segment: nat, offsets: seq<nat>,
                  columns: seq<nat>)
    returns (r: Option<seq<Row>>)
    requires KnownColumns(schema, columns)
    requires forall g | g in files :: RowsOf(schema, files[g])
    ensures r.None? <==> segment !in files || offsets == [] || columns == []
                         || exists i | 0 <= i < |offsets| :: offsets[i] >= |files[segment]|
    ensures r.Some? ==> |r.value| == |offsets| && forall i | 0 <= i < |offsets| ::
              StorageScan.RowOf(schema, files[segment][offsets[i]])
              && r.value[i] == ProjectRow(schema, columns, files[segment][offsets[i]])
  {
    if segment !in files || offsets == [] || columns == [] {
      return None;
    }
    var rows := files[segment];
    assert RowsOf(schema, rows);
    var i := 0;
    while i < |offsets|
      invariant 0 <= i <= |offsets| && forall j | 0 <= j < i :: offsets[j] < |rows|
    {
      if offsets[i] >= |rows| {
        return None;
      }
      i := i + 1;
    }
    var out := [];
    while |out| < |offsets|
      invariant |out| <= |offsets|
      invariant forall j | 0 <= j < |out| :: out[j] == ProjectRow(schema, columns, rows[offsets[j]])
    {
      out := out + [ProjectRow(schema, columns, rows[offsets[|out|]])];
    }
    r := Some(out);
  }

  /** ReadRows on locations the index gave: it fails only when no column is asked for. */
  method ReadLocations(schema: seq<ColumnSchema>, files: map<nat, seq<Row>>, segment: nat, offsets: seq<nat>,
                       columns: seq<nat>, ghost ls: seq<RowLocation>)
    returns (r: Option<seq<Row>>)
    requires KnownColumns(schema, columns) && forall g | g in files :: RowsOf(schema, files[g])
    requires Fetchable(files, ls) && |ls| == |offsets| > 0 && RowsOf(schema, RowsAt(files, ls))
    requires forall i | 0 <= i < |ls| :: ls[i] == RowLocation(segment, offsets[i])
    ensures r.None? <==> columns == []
    ensures r.Some? ==> r.value == ProjectAll(schema, columns, RowsAt(files, ls))
  {
    forall i | 0 <= i < |ls| ensures segment in files && offsets[i] < |files[segment]| {
      assert RowFor(files, ls[i]).Some?;
    }
    assert ls[0].segment == segment;
    r := ReadRows(schema, files, segment, offsets, columns);
    if r.Some? {
      forall i | 0 <= i < |ls| ensures r.value[i] == ProjectRow(schema, columns, RowsAt(files, ls)[i]) {
        assert RowFor(files, ls[i]).Some?;
      }
    }
  }

  /** The residual predicates decide on each of these rows as their conditions do. */
  predicate ResidualExact(schema: seq<ColumnSchema>, options: ScanOptions, prepared: seq<Prepared>, rows: seq<Row>)
    requires RowsOf(schema, rows) && KnownColumns(schema, options.columns)
  {
    forall r | 0 <= r < |rows| ::
      DecidesRow(schema, options, rows[r], prepared, AllOn(|prepared|), OutputRow(schema, options, rows[r]))
  }

  function AllOn(n: nat): (mask: seq<bool>)
    ensures |mask| == n && forall i | 0 <= i < n :: mask[i]
  {
    seq(n, _ => true)
  }

  /** The residual predicates on one batch of rows read back. */
  method FilterResidual(schema: seq<ColumnSchema>, ghost options: ScanOptions, prepared: seq<Prepared>,
                        ghost rows: seq<Row>, batch: VectorBatch)
    returns (filtered: VectorBatch)
    requires RowsOf(schema, rows) && KnownColumns(schema, options.columns)
    requires batch.Valid() && batch.IsDense() && |batch.rows| <= BATCH_SIZE
    requires batch.rows == OutputAll(schema, options, rows)
    requires ResidualExact(schema, options, prepared, rows) && (prepared == [] ==> options.conditions == [])
    ensures filtered.Valid() && filtered.rows == batch.rows && ActiveRows(filtered) == Kept(schema, options, rows)
  {
    filtered := batch;
    if prepared != [] {
      var mask := AllOn(|prepared|);
      assert FilterDecides(schema, options, rows, prepared, mask, batch);
      var selection := ApplyRowFilter(prepared, mask, batch);
      filtered := batch.(selection := selection.value);
      assert forall r | 0 <= r < |rows| :: filtered.selection[r] == MeetsAll(schema, rows[r], options.conditions) by {
        forall r | 0 <= r < |rows| ensures filtered.selection[r] == MeetsAll(schema, rows[r], options.conditions) {
          assert DecidesRow(schema, options, rows[r], prepared, mask, batch.rows[r]);
        }
      }
    }
    SelectedIsKept(schema, options, rows, filtered);
  }

  method ReadLocationsFiltered(schema: seq<ColumnSchema>, files: map<nat, seq<Row>>, options: ScanOptions,
                      prepared: seq<Prepared>, segment: nat, offsets: seq<nat>, ghost ls: seq<RowLocation>)
    returns (threw: bool, batch: VectorBatch)
    requires KnownColumns(schema, options.columns) && (prepared == [] ==> options.conditions == [])
    requires forall g | g in files :: RowsOf(schema, files[g])
    requires Fetchable(files, ls) && RowsOf(schema, RowsAt(files, ls))
    requires ResidualExact(schema, options, prepared, RowsAt(files, ls))
    requires 0 < |ls| == |offsets| <= BATCH_SIZE
    requires forall i | 0 <= i < |ls| :: ls[i] == RowLocation(segment, offsets[i])
    ensures threw <==> options.columns == []
    ensures !threw ==> batch.Valid() && |batch.rows| <= BATCH_SIZE
                       && ActiveRows(batch) == Kept(schema, options, RowsAt(files, ls))
  {
    batch := VectorBatch([], []);
    var rows := ReadLocations(schema, files, segment, offsets, options.columns, ls);
    threw := rows.None?;
    if !threw {
      batch := VectorBatch(rows.value, seq(|rows.value|, _ => true));
      batch := FilterResidual(schema, options, prepared, RowsAt(files, ls), batch);
    }
  }

  class IndexScan {
    const schema: seq<ColumnSchema>
    const files: map<nat, seq<Row>>
    const options: ScanOptions
    const prepared: seq<Prepared>
    var groups: seq<SegmentRows>
    var nextGroup: nat
    var nextOffset: nat

    ghost predicate Sound() {
      && KnownColumns(schema, options.columns) && (prepared == [] ==> options.conditions == [])
      && (forall g | g in files :: RowsOf(schema, files[g]))
    }

    ghost predicate Valid()
      reads this
    {
      && Sound()
      && nextGroup <= |groups|
      && (if nextGroup < |groups| then nextOffset <= |groups[nextGroup].offsets| else nextOffset == 0)
      && Fetchable(files, Pending())
    }

    /** The locations not read yet. */
    ghost function Pending(): seq<RowLocation>
      requires nextGroup <= |groups|
      requires if nextGroup < |groups| then nextOffset <= |groups[nextGroup].offsets| else nextOffset == 0
      reads this
    {
      if nextGroup == |groups| then []
      else GroupLocations(groups[nextGroup], nextOffset) + Ungrouped(groups[nextGroup + 1..])
    }

    /** The rows not read yet can be read and filtered. */
    ghost predicate Ready()
      reads this
    {
      && Valid() && RowsOf(schema, RowsAt(files, Pending()))
      && ResidualExact(schema, options, prepared, RowsAt(files, Pending()))
    }

    /** What is still to be delivered. */
    ghost function Rest(): seq<Row>
      requires Ready()
      reads this
    {
      Kept(schema, options, RowsAt(files, Pending()))
    }

    /** Init, after the lookup: sort, group, start. */
    constructor (schema: seq<ColumnSchema>, files: map<nat, seq<Row>>, options: ScanOptions, prepared: seq<Prepared>,
                 locations: seq<RowLocation>)
      requires KnownColumns(schema, options.columns) && (prepared == [] ==> options.conditions == [])
      requires (forall g | g in files :: RowsOf(schema, files[g])) && Fetchable(files, locations)
      ensures Valid() && Sorted(Pending()) && multiset(Pending()) == multiset(locations)
      ensures this.schema == schema && this.files == files && this.options == options && this.prepared == prepared
    {
      this.schema, this.files, this.options, this.prepared := schema, files, options, prepared;
      var sorted := SortLocations(locations);
      var grouped := GroupBySegment(sorted);
      groups, nextGroup, nextOffset := grouped, 0, 0;
      new;
      assert grouped != [] ==> Pending() == Ungrouped(grouped);
      forall i | 0 <= i < |sorted| ensures RowFor(files, sorted[i]).Some? {
        assert sorted[i] in multiset(sorted) && sorted[i] in multiset(locations);
      }
    }

    /** One turn of the loop in Next on a group with rows left: up to a batch of it, read and filtered. */
    method NextChunk() returns (threw: bool, batch: VectorBatch)
      requires Ready() && nextGroup < |groups| && nextOffset < |groups[nextGroup].offsets|
      modifies this`nextOffset
      ensures nextOffset <= |groups[nextGroup].offsets| && old(nextOffset) < nextOffset
      ensures threw <==> options.columns == []
      ensures old(Pending()) != []
      ensures !threw ==> Ready() && batch.Valid() && |batch.rows| <= BATCH_SIZE
                         && old(Rest()) == ActiveRows(batch) + Rest()
    {
      ghost var before := Pending();
      var segment := groups[nextGroup].segment;
      var offsets, chunk := TakeOffsets();
      RestSplits(schema, files, options, prepared, chunk, Pending());
      threw, batch := ReadLocationsFiltered(schema, files, options, prepared, segment, offsets, chunk);
    }

    /** The offsets of the next batch. */
    method TakeOffsets() returns (offsets: seq<nat>, ghost chunk: seq<RowLocation>)
      requires nextGroup < |groups| && nextOffset < |groups[nextGroup].offsets|
      modifies this`nextOffset
      ensures nextOffset <= |groups[nextGroup].offsets| && nextOffset == old(nextOffset) + |offsets|
      ensures 0 < |offsets| == |chunk| <= BATCH_SIZE && old(Pending()) == chunk + Pending()
      ensures forall i | 0 <= i < |chunk| :: chunk[i] == RowLocation(groups[nextGroup].segment, offsets[i])
    {
      var group := groups[nextGroup];
      var remaining := |group.offsets| - nextOffset;
      var count := if remaining < BATCH_SIZE then remaining else BATCH_SIZE;
      offsets := group.offsets[nextOffset..nextOffset + count];
      chunk := GroupLocations(group, nextOffset)[..count];
      PendingAdvances(group, nextOffset, nextOffset + count, Ungrouped(groups[nextGroup + 1..]));
      nextOffset := nextOffset + count;
    }

    /** A group read to its end: on to the next one. */
    method NextGroup()
      requires Ready() && nextGroup < |groups| && nextOffset == |groups[nextGroup].offsets|
      modifies this`nextGroup, this`nextOffset
      ensures Ready() && Rest() == old(Rest()) && Pending() == old(Pending()) && nextGroup == old(nextGroup) + 1
    {
      ghost var before := Pending();
      nextGroup, nextOffset := nextGroup + 1, 0;
      assert Pending() == before by {
        if nextGroup < |groups| {
          assert groups[nextGroup..][1..] == groups[nextGroup + 1..];
        }
      }
    }

    /** Next: the next batch with a row in it; None when every group is read. */
    method Next() returns (threw: bool, batch: Option<VectorBatch>)
      requires Ready()
      modifies this`nextGroup, this`nextOffset
      ensures threw <==> options.columns == [] && old(Pending()) != []
      ensures !threw ==> Ready()
      ensures !threw && batch.None? ==> old(Rest()) == []
      ensures !threw && batch.Some? ==>
                && batch.value.Valid() && 0 < |ActiveRows(batch.value)| <= BATCH_SIZE
                && old(Rest()) == ActiveRows(batch.value) + Rest()
    {
      ghost var rest, pending := Rest(), Pending();
      while nextGroup < |groups|
        invariant Ready() && Rest() == rest && (options.columns == [] ==> Pending() == pending)
        decreases |groups| - nextGroup,
                  if nextGroup < |groups| then |groups[nextGroup].offsets| - nextOffset else 0
      {
        if |groups[nextGroup].offsets| == nextOffset {
          NextGroup();
        } else {
          var chunk;
          threw, chunk := NextChunk();
          if threw {
            return threw, None;
          }
          if ActiveRows(chunk) != [] {
            return false, Some(chunk);
          }
          assert ActiveRows(chunk) + Rest() == Rest();
        }
      }
      threw, batch := false, None;
    }
  }

  /** Reading an index scan to its end delivers the rows looked up that meet the residual predicates. */
  method Drain(scan: IndexScan) returns (threw: bool, delivered: seq<seq<Row>>)
    requires scan.Ready()
    modifies scan
    ensures threw <==> scan.options.columns == [] && old(scan.Pending()) != []
    ensures !threw ==> Concat(delivered) == old(scan.Rest())
    ensures forall i | 0 <= i < |delivered| :: 0 < |delivered[i]| <= BATCH_SIZE
  {
    delivered := [];
    var more, batch;
    threw, more, batch := DrainOne(scan, []);
    if !threw && more {
      delivered := DrainRest(scan, [batch]);
    }
  }

  /** The loop from the first batch on, where reading no longer throws. */
  method DrainRest(scan: IndexScan, first: seq<seq<Row>>) returns (delivered: seq<seq<Row>>)
    requires scan.Ready() && scan.options.columns != []
    requires forall i | 0 <= i < |first| :: 0 < |first[i]| <= BATCH_SIZE
    modifies scan
    ensures Concat(delivered) == Concat(first) + old(scan.Rest())
    ensures forall i | 0 <= i < |delivered| :: 0 < |delivered[i]| <= BATCH_SIZE
  {
    ghost var rest := scan.Rest();
    ghost var all := Concat(first) + rest;
    var more := true;
    delivered := first;
    while more
      invariant scan.Ready() && (more ==> rest == scan.Rest()) && (!more ==> rest == [])
      invariant Concat(delivered) + rest == all
      invariant forall i | 0 <= i < |delivered| :: 0 < |delivered[i]| <= BATCH_SIZE
      decreases |rest|, more
    {
      var threw, batch;
      threw, more, batch := DrainOne(scan, delivered);
      if more {
        delivered := delivered + [batch];
        rest := scan.Rest();
      }
    }
    assert Concat(delivered) + [] == Concat(delivered);
  }

  /** One turn of the loop: a batch appended, or the end. */
  method DrainOne(scan: IndexScan, ghost delivered: seq<seq<Row>>) returns (threw: bool, more: bool, batch: seq<Row>)
    requires scan.Ready()
    modifies scan
    ensures threw <==> scan.options.columns == [] && old(scan.Pending()) != []
    ensures !threw ==> scan.Ready()
    ensures more ==> !threw
    ensures !threw && !more ==> old(scan.Rest()) == []
    ensures !threw && more ==>
              && 0 < |batch| <= BATCH_SIZE && scan.options.columns != []
              && |old(scan.Rest())| == |batch| + |scan.Rest()|
              && Concat(delivered + [batch]) + scan.Rest() == Concat(delivered) + old(scan.Rest())
  {
    more, batch := false, [];
    var next;
    threw, next := scan.Next();
    if !threw && next.Some? {
      more, batch := true, ActiveRows(next.value);
      ConcatAppend(delivered, batch);
      AppendAssociates(Concat(delivered), batch, scan.Rest());
    }
  }

  lemma PendingAdvances(g: SegmentRows, from: nat, to: nat, rest: seq<RowLocation>)
    requires from <= to <= |g.offsets|
    ensures GroupLocations(g, from) + rest == GroupLocations(g, from)[..to - from] + (GroupLocations(g, to) + rest)
  {
    assert GroupLocations(g, from) == GroupLocations(g, from)[..to - from] + GroupLocations(g, to);
  }

  lemma FetchableSplits(files: map<nat, seq<Row>>, a: seq<RowLocation>, b: seq<RowLocation>)
    requires Fetchable(files, a + b)
    ensures Fetchable(files, a) && Fetchable(files, b)
    ensures RowsAt(files, a + b) == RowsAt(files, a) + RowsAt(files, b)
  {
    assert forall i | 0 <= i < |a| :: (a + b)[i] == a[i];
    assert forall i | 0 <= i < |b| :: (a + b)[|a| + i] == b[i];
  }

  lemma RowsAtTyped(schema: seq<ColumnSchema>, files: map<nat, seq<Row>>, ls: seq<RowLocation>)
    requires (forall g | g in files :: RowsOf(schema, files[g])) && Fetchable(files, ls)
    ensures RowsOf(schema, RowsAt(files, ls))
  {
    forall i | 0 <= i < |ls| ensures StorageScan.RowOf(schema, RowsAt(files, ls)[i]) {
      assert RowFor(files, ls[i]).Some?;
      assert RowsOf(schema, files[ls[i].segment]);
    }
  }

  lemma RestSplits(schema: seq<ColumnSchema>, files: map<nat, seq<Row>>, options: ScanOptions, prepared: seq<Prepared>,
                   a: seq<RowLocation>, b: seq<RowLocation>)
    requires KnownColumns(schema, options.columns) && forall g | g in files :: RowsOf(schema, files[g])
    requires Fetchable(files, a + b) && RowsOf(schema, RowsAt(files, a + b))
    requires ResidualExact(schema, options, prepared, RowsAt(files, a + b))
    ensures Fetchable(files, a) && RowsOf(schema, RowsAt(files, a))
    ensures Fetchable(files, b) && RowsOf(schema, RowsAt(files, b))
    ensures ResidualExact(schema, options, prepared, RowsAt(files, a))
    ensures ResidualExact(schema, options, prepared, RowsAt(files, b))
    ensures Kept(schema, options, RowsAt(files, a + b))
            == Kept(schema, options, RowsAt(files, a)) + Kept(schema, options, RowsAt(files, b))
  {
    FetchableSplits(files, a, b);
    RowsAtTyped(schema, files, a);
    RowsAtTyped(schema, files, b);
    ResidualSplits(schema, options, prepared, RowsAt(files, a), RowsAt(files, b));
    KeptConcat(schema, options, RowsAt(files, a), RowsAt(files, b));
  }

  lemma ResidualSplits(schema: seq<ColumnSchema>, options: ScanOptions, prepared: seq<Prepared>, a: seq<Row>, b: seq<Row>)
    requires RowsOf(schema, a + b) && KnownColumns(schema, options.columns)
    requires RowsOf(schema, a) && RowsOf(schema, b)
    requires ResidualExact(schema, options, prepared, a + b)
    ensures ResidualExact(schema, options, prepared, a) && ResidualExact(schema, options, prepared, b)
  {
    forall r | 0 <= r < |a|
      ensures DecidesRow(schema, options, a[r], prepared, AllOn(|prepared|), OutputRow(schema, options, a[r]))
    {
      assert (a + b)[r] == a[r];
    }
    forall r | 0 <= r < |b|
      ensures DecidesRow(schema, options, b[r], prepared, AllOn(|prepared|), OutputRow(schema, options, b[r]))
    {
      assert (a + b)[|a| + r] == b[r];
    }
  }
}
