/** TableStorage::Scan: a cursor that survives between batches, across segments. */
module TableScan {
  import opened Wrappers
  import opened Values
  import opened Batches
  import opened StoragePredicates
  import opened StorageScan

  /** Where a cursor stands: no segment yet, or inside (or past the end of) the segment list. */
  datatype Position = Position(segment: Option<nat>, cursor: SegmentCursor)

  const FRESH: Position := Position(None, SegmentCursor(0, false, []))

  class ScanCursor {
    var at: Position
    var prepared: Option<seq<Prepared>>

    constructor ()
      ensures at == FRESH && prepared == None
    {
      at, prepared := FRESH, None;
    }

    /** AdvanceCursorToNextSegment. */
    method Advance(segments: nat) returns (more: bool)
      modifies this`at
      ensures at.segment == Some(if old(at.segment).None? then 0 else old(at.segment).value + 1)
      ensures more <==> at.segment.value < segments
      ensures more ==> at.cursor == FRESH.cursor
    {
      at := at.(segment := Some(if at.segment.None? then 0 else at.segment.value + 1));
      if at.segment.value >= segments {
        return false;
      }
      at := at.(cursor := FRESH.cursor);
      more := true;
    }
  }

  datatype Table = Table(schema: seq<ColumnSchema>, segments: seq<Segment>) {
    /** Segments of rows of the schema, each with statistics. */
    predicate Scannable(options: ScanOptions) {
      && KnownColumns(schema, options.columns)
      && forall g | 0 <= g < |segments| :: StorageScan.Scannable(schema, options, segments[g])
    }
  }

  /** What the scan takes of the segments from `g` on. */
  function TakenFrom(t: Table, options: ScanOptions, g: nat): seq<Row>
    requires t.Scannable(options) && g <= |t.segments|
    decreases |t.segments| - g
  {
    if g == |t.segments| then []
    else TakenRest(t.schema, options, t.segments[g], 0) + TakenFrom(t, options, g + 1)
  }

  predicate PositionValid(t: Table, options: ScanOptions, at: Position)
    requires t.Scannable(options)
  {
    at.segment.Some? && at.segment.value < |t.segments| ==>
      CursorOf(t.schema, options, t.segments[at.segment.value], at.cursor)
  }

  /** What a cursor has still to deliver. */
  function Pending(t: Table, options: ScanOptions, at: Position): seq<Row>
    requires t.Scannable(options) && PositionValid(t, options, at)
  {
    if at.segment.None? then TakenFrom(t, options, 0)
    else if at.segment.value >= |t.segments| then []
    else TakenRest(t.schema, options, t.segments[at.segment.value], at.cursor.offset)
         + TakenFrom(t, options, at.segment.value + 1)
  }

  lemma PendingStep(t: Table, options: ScanOptions, at: Position, next: Position, active: seq<Row>)
    requires t.Scannable(options) && PositionValid(t, options, at) && PositionValid(t, options, next)
    requires at.segment.Some? && at.segment == next.segment && !Exhausted(t, at)
    requires var s := t.segments[at.segment.value];
             TakenRest(t.schema, options, s, at.cursor.offset)
             == active + TakenRest(t.schema, options, s, next.cursor.offset)
    ensures Pending(t, options, at) == active + Pending(t, options, next)
    ensures active == [] ==> Pending(t, options, at) == Pending(t, options, next)
  {
    var g := at.segment.value;
    var rest := TakenRest(t.schema, options, t.segments[g], next.cursor.offset);
    AppendAssociates(active, rest, TakenFrom(t, options, g + 1));
  }

  lemma PendingDone(t: Table, options: ScanOptions, at: Position)
    requires t.Scannable(options) && PositionValid(t, options, at) && at.segment.Some? && !Exhausted(t, at)
    requires TakenRest(t.schema, options, t.segments[at.segment.value], at.cursor.offset) == []
    ensures Pending(t, options, at) == TakenFrom(t, options, at.segment.value + 1)
  {
  }

  /** Entering segment `g`, or running off the end of the list. */
  lemma PendingEntered(t: Table, options: ScanOptions, at: Position)
    requires t.Scannable(options) && at.segment.Some? && at.segment.value <= |t.segments|
    requires at.segment.value < |t.segments| ==> at.cursor == FRESH.cursor
    ensures PositionValid(t, options, at) && Pending(t, options, at) == TakenFrom(t, options, at.segment.value)
  {
  }

  predicate Exhausted(t: Table, at: Position) {
    at.segment.Some? && at.segment.value >= |t.segments|
  }

  predicate BindFails(t: Table, options: ScanOptions) {
    exists i | 0 <= i < |options.conditions| :: Bind(options.columns, t.schema, options.conditions[i]).Err?
  }

  /** Scan throws on a condition that does not bind, and only then. */
  method Prepare(t: Table, options: ScanOptions, c: ScanCursor) returns (threw: bool)
    requires c.prepared.Some? ==> PreparedFor(t.schema, options, c.prepared)
    modifies c`prepared
    ensures threw <==> old(c.prepared).None? && BindFails(t, options)
    ensures !threw ==> PreparedFor(t.schema, options, c.prepared)
  {
    threw := false;
    if c.prepared.None? && options.conditions != [] {
      var r := Build(options.columns, t.schema, options.conditions);
      if r.Err? {
        return true;
      }
      c.prepared := Some(r.value);
    }
    PreparedBinds(t, options, c.prepared);
  }

  /** What the cursor has still to go through: segments, then rows of the current one. */
  function SegmentsLeft(t: Table, at: Position): int {
    if at.segment.Some? then |t.segments| - at.segment.value else |t.segments| + 1
  }

  function RowsLeft(t: Table, at: Position): int {
    if at.segment.Some? && at.segment.value < |t.segments| then |t.segments[at.segment.value].rows| - at.cursor.offset
    else 0
  }

  /** One step inside Scan: at most one batch of the segment the cursor is on. */
  method ScanCurrent(t: Table, options: ScanOptions, at: Position, prepared: Option<seq<Prepared>>)
    returns (batch: Option<VectorBatch>, next: Position)
    requires t.Scannable(options) && PositionValid(t, options, at) && PreparedFor(t.schema, options, prepared)
    requires at.segment.Some? && !Exhausted(t, at)
    ensures PositionValid(t, options, next) && next.segment == at.segment
    ensures batch.None? ==> Pending(t, options, at) == TakenFrom(t, options, at.segment.value + 1)
    ensures batch.Some? ==>
              && batch.value.Valid() && 0 < |batch.value.rows| <= BATCH_SIZE
              && SegmentsLeft(t, next) == SegmentsLeft(t, at) && 0 <= RowsLeft(t, next) < RowsLeft(t, at)
              && Pending(t, options, at) == ActiveRows(batch.value) + Pending(t, options, next)
              && (ActiveRows(batch.value) == [] ==> Pending(t, options, at) == Pending(t, options, next))
  {
    var cursor;
    batch, cursor := ScanSegment(t.schema, options, t.segments[at.segment.value], prepared, at.cursor);
    next := Position(at.segment, cursor);
    if batch.Some? {
      PendingStep(t, options, at, next, ActiveRows(batch.value));
    } else {
      PendingDone(t, options, at);
    }
  }

  /** Scan: the next batch with a row in it; None when the table is exhausted. */
  method Scan(t: Table, options: ScanOptions, c: ScanCursor) returns (threw: bool, batch: Option<VectorBatch>)
    requires t.Scannable(options) && PositionValid(t, options, c.at) && !Exhausted(t, c.at)
    requires c.prepared.Some? ==> PreparedFor(t.schema, options, c.prepared)
    modifies c
    ensures threw <==> old(c.prepared).None? && BindFails(t, options)
    ensures PositionValid(t, options, c.at)
    ensures !threw ==> PreparedFor(t.schema, options, c.prepared)
    ensures !threw && batch.None? ==> Exhausted(t, c.at) && Pending(t, options, old(c.at)) == []
    ensures !threw && batch.Some? ==>
              && !Exhausted(t, c.at) && batch.value.Valid() && |batch.value.rows| <= BATCH_SIZE
              && ActiveRows(batch.value) != []
              && Pending(t, options, old(c.at)) == ActiveRows(batch.value) + Pending(t, options, c.at)
  {
    batch := None;
    threw := Prepare(t, options, c);
    if threw {
      return;
    }
    if c.at.segment.None? {
      var more := c.Advance(|t.segments|);
      PendingEntered(t, options, c.at);
      if !more {
        return;
      }
    }
    batch := NextBatch(t, options, c);
  }

  /** Past a segment that has no more to give. */
  method LeaveSegment(t: Table, options: ScanOptions, c: ScanCursor)
    requires t.Scannable(options) && c.at.segment.Some? && !Exhausted(t, c.at)
    modifies c`at
    ensures c.at.segment == Some(old(c.at.segment).value + 1) && PositionValid(t, options, c.at)
    ensures Pending(t, options, c.at) == TakenFrom(t, options, old(c.at.segment).value + 1)
  {
    var more := c.Advance(|t.segments|);
    PendingEntered(t, options, c.at);
  }

  /** The loop of Scan: through batches without a surviving row and past finished segments. */
  method NextBatch(t: Table, options: ScanOptions, c: ScanCursor) returns (batch: Option<VectorBatch>)
    requires t.Scannable(options) && PositionValid(t, options, c.at) && c.at.segment.Some? && !Exhausted(t, c.at)
    requires PreparedFor(t.schema, options, c.prepared)
    modifies c`at
    ensures PositionValid(t, options, c.at)
    ensures batch.None? ==> Exhausted(t, c.at) && Pending(t, options, old(c.at)) == []
    ensures batch.Some? ==>
              && !Exhausted(t, c.at) && batch.value.Valid() && |batch.value.rows| <= BATCH_SIZE
              && ActiveRows(batch.value) != []
              && Pending(t, options, old(c.at)) == ActiveRows(batch.value) + Pending(t, options, c.at)
  {
    ghost var pending := Pending(t, options, c.at);
    batch := None;
    while batch.None? && c.at.segment.value < |t.segments|
      invariant PositionValid(t, options, c.at) && c.at.segment.Some?
      invariant batch.None? ==> Pending(t, options, c.at) == pending
      invariant batch.Some? ==>
                  && !Exhausted(t, c.at) && batch.value.Valid() && |batch.value.rows| <= BATCH_SIZE
                  && ActiveRows(batch.value) != []
                  && pending == ActiveRows(batch.value) + Pending(t, options, c.at)
      decreases batch.None?, SegmentsLeft(t, c.at), RowsLeft(t, c.at)
    {
      var read, next := ScanCurrent(t, options, c.at, c.prepared);
      if read.None? {
        LeaveSegment(t, options, c);
      } else {
        c.at := next;
        if ActiveRows(read.value) != [] {
          batch := read;
        }
      }
    }
  }

  /**
   * Draining a fresh cursor delivers, in segment order and then row order, exactly what verdict and filter take of
   * the stored rows.
   */
  method Drain(t: Table, options: ScanOptions) returns (threw: bool, delivered: seq<seq<Row>>)
    requires t.Scannable(options)
    ensures threw <==> BindFails(t, options)
    ensures !threw ==> Concat(delivered) == TakenFrom(t, options, 0)
    ensures forall i | 0 <= i < |delivered| :: 0 < |delivered[i]| <= BATCH_SIZE
  {
    var c := new ScanCursor();
    ghost var all := TakenFrom(t, options, 0);
    delivered := [];
    var more := true;
    threw := false;
    while more
      invariant PositionValid(t, options, c.at) && (c.prepared.Some? ==> PreparedFor(t.schema, options, c.prepared))
      invariant more ==> !Exhausted(t, c.at) && Concat(delivered) + Pending(t, options, c.at) == all
      invariant more && delivered != [] ==> !BindFails(t, options)
      invariant !more ==> Concat(delivered) == all && !BindFails(t, options)
      invariant forall i | 0 <= i < |delivered| :: 0 < |delivered[i]| <= BATCH_SIZE
      decreases more, |Pending(t, options, c.at)|
    {
      var batch;
      threw, batch := Scan(t, options, c);
      if threw {
        return;
      }
      PreparedBinds(t, options, c.prepared);
      if batch.None? {
        more := false;
      } else {
        ConcatAppend(delivered, ActiveRows(batch.value));
        AppendAssociates(Concat(delivered), ActiveRows(batch.value), Pending(t, options, c.at));
        delivered := delivered + [ActiveRows(batch.value)];
      }
    }
  }

  lemma PreparedBinds(t: Table, options: ScanOptions, prepared: Option<seq<Prepared>>)
    requires PreparedFor(t.schema, options, prepared)
    ensures !BindFails(t, options)
  {
    if prepared.Some? {
      forall i | 0 <= i < |options.conditions| ensures Bind(options.columns, t.schema, options.conditions[i]).Ok? {
        assert BoundAs(options.columns, t.schema, options.conditions[i], prepared.value[i]);
      }
    }
  }

  function AllRows(segments: seq<Segment>, g: nat): seq<Row>
    requires g <= |segments|
    decreases |segments| - g
  {
    if g == |segments| then [] else segments[g].rows + AllRows(segments, g + 1)
  }

  /** On every row of every segment, verdict and filter decide as the conditions do. */
  predicate Exact(t: Table, options: ScanOptions)
    requires t.Scannable(options)
  {
    forall g, r | 0 <= g < |t.segments| && 0 <= r < |t.segments[g].rows| ::
      TakesAll(t.schema, t.segments[g], options.conditions, t.segments[g].rows[r])
      == MeetsAll(t.schema, t.segments[g].rows[r], options.conditions)
  }

  /** Where that holds the scan is a filter over the table as one sequence of rows. */
  lemma {:induction false} TakenFromIsKept(t: Table, options: ScanOptions, g: nat)
    requires t.Scannable(options) && Exact(t, options) && g <= |t.segments|
    ensures RowsOf(t.schema, AllRows(t.segments, g))
    ensures TakenFrom(t, options, g) == Kept(t.schema, options, AllRows(t.segments, g))
    decreases |t.segments| - g
  {
    if g < |t.segments| {
      TakenFromIsKept(t, options, g + 1);
      var s := t.segments[g];
      assert s.rows[0..] == s.rows;
      TakenIsKept(t.schema, options, s, s.rows);
      KeptConcat(t.schema, options, s.rows, AllRows(t.segments, g + 1));
    }
  }

  /** A table of segments as written, under trusted conditions. */
  predicate Stored(t: Table, options: ScanOptions) {
    && t.schema != [] && KnownColumns(t.schema, options.columns)
    && forall g | 0 <= g < |t.segments| ::
         && SegmentOf(t.schema, t.segments[g]) && PlainRows(t.segments[g].rows)
         && forall i | 0 <= i < |options.conditions| :: Trusted(t.schema, t.segments[g], options.conditions[i])
  }

  lemma StoredIsExact(t: Table, options: ScanOptions)
    requires Stored(t, options)
    ensures t.Scannable(options)
    ensures !BindFails(t, options) ==> Exact(t, options)
  {
    if !BindFails(t, options) {
      forall g, r | 0 <= g < |t.segments| && 0 <= r < |t.segments[g].rows|
        ensures TakesAll(t.schema, t.segments[g], options.conditions, t.segments[g].rows[r])
                == MeetsAll(t.schema, t.segments[g].rows[r], options.conditions)
      {
        TrustedIsExact(t.schema, options, t.segments[g], r);
      }
    }
  }

  /**
   * Zone maps, literal rewriting, row filter and cursor together: the rows delivered are the stored rows that
   * meet every condition, in order.
   */
  method ScanAll(t: Table, options: ScanOptions) returns (threw: bool, delivered: seq<seq<Row>>)
    requires Stored(t, options)
    ensures threw <==> BindFails(t, options)
    ensures !threw ==> RowsOf(t.schema, AllRows(t.segments, 0))
                       && Concat(delivered) == Kept(t.schema, options, AllRows(t.segments, 0))
  {
    StoredIsExact(t, options);
    threw, delivered := Drain(t, options);
    if !threw {
      TakenFromIsKept(t, options, 0);
    }
  }
}
