/** The parallel query over a stored table: what its workers scan is what the serial scan takes. */
module ParallelTableScan {
  import opened Wrappers
  import opened Values
  import opened Batches
  import opened StoragePredicates
  import opened StorageScan
  import opened TableScan
  import opened ParallelQuery
  import opened ParallelQueryTheorems

  /** A worker on the segment it has claimed: ScanParallel turn by turn, until the segment has nothing left. */
  method ScanClaimed(t: Table, options: ScanOptions, prepared: Option<seq<Prepared>>, g: nat)
    returns (outcomes: seq<Outcome>)
    requires t.Scannable(options) && PreparedFor(t.schema, options, prepared) && g < |t.segments|
    ensures Concat(Emitted(outcomes)) == TakenRest(t.schema, options, t.segments[g], 0)
    ensures forall i | 0 <= i < |outcomes| && outcomes[i].Emit? :: 0 < |outcomes[i].batch| <= BATCH_SIZE
  {
    ghost var s := t.segments[g];
    ghost var all := TakenRest(t.schema, options, s, 0);
    var cursor, more := FRESH.cursor, true;
    outcomes := [];
    assert [] + all == all;
    while more
      invariant CursorOf(t.schema, options, s, cursor)
      invariant more ==> Concat(Emitted(outcomes)) + TakenRest(t.schema, options, s, cursor.offset) == all
      invariant !more ==> Concat(Emitted(outcomes)) == all
      invariant forall i | 0 <= i < |outcomes| && outcomes[i].Emit? :: 0 < |outcomes[i].batch| <= BATCH_SIZE
      decreases more, |s.rows| - cursor.offset
    {
      var batch, next := ScanSegment(t.schema, options, t.segments[g], prepared, cursor);
      if batch.None? {
        more := false;
      } else {
        var rows := ActiveRows(batch.value);
        AppendAssociates(Concat(Emitted(outcomes)), rows, TakenRest(t.schema, options, s, next.offset));
        var outcome := if rows == [] then Skip else Emit(rows);
        EmittedAppend(outcomes, outcome);
        outcomes, cursor := outcomes + [outcome], next;
      }
    }
  }

  lemma {:induction false} EmittedConcat(a: seq<Outcome>, b: seq<Outcome>)
    ensures Emitted(a + b) == Emitted(a) + Emitted(b)
  {
    if a == [] {
      assert a + b == b && Emitted(a) == [];
    } else {
      EmittedConcat(a[1..], b);
      assert (a + b)[1..] == a[1..] + b && (a + b)[0] == a[0];
      var first := match a[0] case Skip => [] case Emit(batch) => if batch == [] then [] else [batch];
      assert Emitted(a) == first + Emitted(a[1..]);
      assert Emitted(a + b) == first + (Emitted(a[1..]) + Emitted(b));
      AppendAssociates(first, Emitted(a[1..]), Emitted(b));
    }
  }

  lemma EmittedAppend(outcomes: seq<Outcome>, outcome: Outcome)
    ensures Concat(Emitted(outcomes + [outcome]))
            == Concat(Emitted(outcomes)) + (if outcome.Emit? then outcome.batch else [])
  {
    EmittedConcat(outcomes, [outcome]);
    assert [outcome][1..] == [];
    if outcome.Emit? && outcome.batch != [] {
      assert Emitted([outcome]) == [outcome.batch];
      ConcatAppend(Emitted(outcomes), outcome.batch);
    } else {
      assert Emitted(outcomes) + [] == Emitted(outcomes);
    }
  }

  /** The pipelines of a query that only scans the table. */
  predicate Scans(cfg: Config, t: Table, options: ScanOptions)
    requires t.Scannable(options)
  {
    && |cfg.pipelines| == |t.segments|
    && forall g | 0 <= g < |t.segments| ::
         Concat(Emitted(cfg.pipelines[g])) == TakenRest(t.schema, options, t.segments[g], 0)
  }

  lemma {:induction false} SerialIsTaken(cfg: Config, t: Table, options: ScanOptions, g: nat)
    requires t.Scannable(options) && Scans(cfg, t, options) && g <= |t.segments|
    ensures SerialRows(cfg.pipelines[..g]) + TakenFrom(t, options, g) == TakenFrom(t, options, 0)
  {
    if g > 0 {
      SerialIsTaken(cfg, t, options, g - 1);
      assert cfg.pipelines[..g][..g - 1] == cfg.pipelines[..g - 1];
      AppendAssociates(SerialRows(cfg.pipelines[..g - 1]), TakenRest(t.schema, options, t.segments[g - 1], 0),
                       TakenFrom(t, options, g));
    }
  }

  /** In every interleaving a scan that returns has delivered, as a multiset, the rows of the serial scan. */
  lemma ParallelScanIsScan(cfg: Config, schedule: seq<Step>, t: Table, options: ScanOptions)
    requires cfg.Valid() && IsSchedule(cfg, Initial(cfg), schedule)
    requires After(cfg, Initial(cfg), schedule).main.Returned?
    requires t.Scannable(options) && Scans(cfg, t, options)
    ensures multiset(Concat(ParallelQuery.Batches(After(cfg, Initial(cfg), schedule).delivered)))
            == multiset(TakenFrom(t, options, 0))
  {
    ReturnedIsComplete(cfg, schedule);
    SerialIsTaken(cfg, t, options, |t.segments|);
    assert cfg.pipelines[..|t.segments|] == cfg.pipelines;
    assert SerialRows(cfg.pipelines) + [] == SerialRows(cfg.pipelines);
  }

  /** On a table as written, under trusted conditions, those are the stored rows that meet every condition. */
  lemma ParallelScanIsFilter(cfg: Config, schedule: seq<Step>, t: Table, options: ScanOptions)
    requires cfg.Valid() && IsSchedule(cfg, Initial(cfg), schedule)
    requires After(cfg, Initial(cfg), schedule).main.Returned?
    requires Stored(t, options) && t.Scannable(options) && !BindFails(t, options) && Scans(cfg, t, options)
    ensures RowsOf(t.schema, AllRows(t.segments, 0))
    ensures multiset(Concat(ParallelQuery.Batches(After(cfg, Initial(cfg), schedule).delivered)))
            == multiset(Kept(t.schema, options, AllRows(t.segments, 0)))
  {
    ParallelScanIsScan(cfg, schedule, t, options);
    StoredIsExact(t, options);
    TakenFromIsKept(t, options, 0);
  }
}
