/** The results about ExecuteQuery: every schedule, every failure point. */
module ParallelQueryTheorems {
  import opened Wrappers
  import opened Values
  import opened BlockingQueue
  import opened ParallelScan
  import opened ParallelQuery
  import opened ParallelQueryProofs

  // ---------- From per-segment logs to one multiset of rows ----------

  /** Rows of the log, segment by segment. */
  function RowsBySegment(log: seq<Tagged>, segments: nat): multiset<Row> {
    if segments == 0 then multiset{}
    else RowsBySegment(log, segments - 1) + multiset(Concat(OfSegment(log, segments - 1)))
  }

  lemma {:induction false} RowsBySegmentAppend(log: seq<Tagged>, t: Tagged, segments: nat)
    ensures RowsBySegment(log + [t], segments)
            == RowsBySegment(log, segments) + (if t.segment < segments then multiset(t.batch) else multiset{})
  {
    if segments > 0 {
      var g := segments - 1;
      var own := if t.segment < g then multiset(t.batch) else multiset{};
      var here := if t.segment == g then multiset(t.batch) else multiset{};
      RowsBySegmentAppend(log, t, g);
      OfSegmentConcatAppend(log, t, g);
      AddBoth(RowsBySegment(log, g), own, multiset(Concat(OfSegment(log, g))), here);
    }
  }

  lemma AddBoth(a: multiset<Row>, b: multiset<Row>, c: multiset<Row>, d: multiset<Row>)
    ensures (a + b) + (c + d) == (a + c) + (b + d)
  {
  }

  lemma OfSegmentConcatAppend(log: seq<Tagged>, t: Tagged, g: nat)
    ensures multiset(Concat(OfSegment(log + [t], g)))
            == multiset(Concat(OfSegment(log, g))) + (if t.segment == g then multiset(t.batch) else multiset{})
  {
    OfSegmentAppend(log, t, g);
    if t.segment == g {
      ConcatAppend(OfSegment(log, g), t.batch);
    } else {
      assert OfSegment(log, g) + [] == OfSegment(log, g);
    }
  }

  lemma {:induction false} RowsBySegmentTotal(log: seq<Tagged>, segments: nat)
    requires forall i | 0 <= i < |log| :: log[i].segment < segments
    ensures multiset(Concat(Batches(log))) == RowsBySegment(log, segments)
  {
    if log == [] {
      RowsOfNothing(segments);
    } else {
      var init, t := log[..|log| - 1], log[|log| - 1];
      assert log == init + [t];
      assert Batches(log) == Batches(init) + [t.batch];
      ConcatAppend(Batches(init), t.batch);
      RowsBySegmentTotal(init, segments);
      RowsBySegmentAppend(init, t, segments);
    }
  }

  lemma {:induction false} RowsOfNothing(segments: nat)
    ensures RowsBySegment([], segments) == multiset{}
  {
    if segments > 0 {
      RowsOfNothing(segments - 1);
    }
  }

  lemma {:induction false} RowsBySegmentSerial(pipelines: seq<seq<Outcome>>, log: seq<Tagged>)
    requires forall g | 0 <= g < |pipelines| :: OfSegment(log, g) == Emitted(pipelines[g])
    ensures RowsBySegment(log, |pipelines|) == multiset(SerialRows(pipelines))
  {
    if pipelines != [] {
      RowsBySegmentSerial(pipelines[..|pipelines| - 1], log);
    }
  }

  lemma {:induction false} RowCountIsLength(log: seq<Tagged>)
    ensures RowCount(log) == |Concat(Batches(log))|
  {
    if log != [] {
      var init, t := log[..|log| - 1], log[|log| - 1];
      assert Batches(log) == Batches(init) + [t.batch];
      ConcatAppend(Batches(init), t.batch);
      RowCountIsLength(init);
    }
  }

  // ---------- Safety ----------

  /** A query that returns has handed every batch of every segment to the consumer once,
      in the order its segment produced them: as a multiset, the rows of the serial scan. */
  lemma ReturnedIsComplete(cfg: Config, schedule: seq<Step>)
    requires cfg.Valid() && IsSchedule(cfg, Initial(cfg), schedule)
    requires After(cfg, Initial(cfg), schedule).main.Returned?
    ensures var s := After(cfg, Initial(cfg), schedule);
            && (forall g | 0 <= g < |cfg.pipelines| ::
                  OfSegment(s.delivered, g) == Emitted(cfg.pipelines[g]))
            && multiset(Concat(Batches(s.delivered))) == multiset(SerialRows(cfg.pipelines))
            && RowCount(s.delivered) == |SerialRows(cfg.pipelines)|
  {
    var s := After(cfg, Initial(cfg), schedule);
    InitialInv(cfg);
    InvAfter(cfg, Initial(cfg), schedule);
    assert Log(s) == s.delivered;
    assert s.workers[0].Done? && Over(s.workers[0]);
    forall g | 0 <= g < |cfg.pipelines| ensures OfSegment(s.delivered, g) == Emitted(cfg.pipelines[g]) {
      assert SegmentInv(cfg, s, g);
    }
    RowsBySegmentTotal(s.delivered, |cfg.pipelines|);
    RowsBySegmentSerial(cfg.pipelines, s.delivered);
    RowCountIsLength(s.delivered);
    assert |multiset(Concat(Batches(s.delivered)))| == |Concat(Batches(s.delivered))|;
    assert |multiset(SerialRows(cfg.pipelines))| == |SerialRows(cfg.pipelines)|;
  }

  /** No partial result passes for a whole one, and no whole one for a failure. */
  lemma FinishedThrowsIffFailed(cfg: Config, schedule: seq<Step>)
    requires cfg.Valid() && IsSchedule(cfg, Initial(cfg), schedule)
    ensures var s := After(cfg, Initial(cfg), schedule);
            Finished(s) ==> (s.main.Threw? <==> s.failed)
  {
    InitialInv(cfg);
    InvAfter(cfg, Initial(cfg), schedule);
  }

  /** At every moment, even after a failure: nothing is delivered twice, nothing out of its
      segment's order, and the queue holds at most its capacity. */
  lemma AlwaysAPrefix(cfg: Config, schedule: seq<Step>, g: nat)
    requires cfg.Valid() && IsSchedule(cfg, Initial(cfg), schedule)
    requires g < |cfg.pipelines|
    ensures var s := After(cfg, Initial(cfg), schedule);
            && OfSegment(s.delivered, g) <= Emitted(cfg.pipelines[g])
            && |s.queue.items| <= cfg.capacity
  {
    var s := After(cfg, Initial(cfg), schedule);
    InitialInv(cfg);
    InvAfter(cfg, Initial(cfg), schedule);
    assert SegmentInv(cfg, s, g);
    OfSegmentPrefix(s.delivered, s.queue.items, g);
  }

  lemma {:induction false} OfSegmentPrefix(a: seq<Tagged>, b: seq<Tagged>, g: nat)
    ensures OfSegment(a, g) <= OfSegment(a + b, g)
  {
    if b == [] {
      assert a + b == a;
    } else {
      var init, t := b[..|b| - 1], b[|b| - 1];
      assert a + b == a + init + [t];
      OfSegmentAppend(a + init, t, g);
      OfSegmentPrefix(a, init, g);
    }
  }

  /** Two workers never hold the same segment, in any interleaving. */
  lemma NoSegmentClaimedTwice(cfg: Config, schedule: seq<Step>, v: nat, w: nat)
    requires cfg.Valid() && IsSchedule(cfg, Initial(cfg), schedule)
    requires v < w < cfg.workers
    ensures var s := After(cfg, Initial(cfg), schedule);
            && |s.workers| == cfg.workers
            && (ClaimOf(s.workers[v]).Some? ==> ClaimOf(s.workers[v]) != ClaimOf(s.workers[w]))
  {
    InitialInv(cfg);
    InvAfter(cfg, Initial(cfg), schedule);
  }

  // ---------- Progress ----------

  /** No interleaving reaches a deadlock. */
  lemma NeverStuck(cfg: Config, schedule: seq<Step>) returns (step: Step)
    requires cfg.Valid() && IsSchedule(cfg, Initial(cfg), schedule)
    requires !Finished(After(cfg, Initial(cfg), schedule))
    ensures Enabled(After(cfg, Initial(cfg), schedule), step)
    ensures step.Main? || step.Worker?
  {
    var s := After(cfg, Initial(cfg), schedule);
    InitialInv(cfg);
    InvAfter(cfg, Initial(cfg), schedule);
    CountZero(s.workers);
    step := Main;
    if !MainEnabled(s) {
      if s.main.Consuming? {
        var w :| 0 <= w < |s.workers| && !s.workers[w].Done?;
        step := Worker(w);
      } else {
        step := Worker(s.main.next);
      }
    }
  }

  /** What is still to do: each item below costs at least one step and pays for the next. */
  function PcRank(pc: WorkerPc): nat {
    match pc
    case Unsubmitted => 17
    case Building => 15
    case Polling(None) => 12
    case Polling(Some(c)) => 14 + 6 * |c.rest|
    case Ready(None) => 11
    case Ready(Some(c)) => 13 + 6 * |c.rest|
    case Claiming => 10
    case Holding(_, _, rest) => 18 + 6 * |rest|
    case Dropped => 9
    case FailCancel(_) => 9
    case FailAbort(_) => 8
    case Exiting => 6
    case Closing => 3
    case Done => 0
  }

  function WorkersRank(workers: seq<WorkerPc>): nat {
    if workers == [] then 0
    else WorkersRank(workers[..|workers| - 1]) + PcRank(workers[|workers| - 1])
  }

  function UnclaimedRank(pipelines: seq<seq<Outcome>>, next: nat): nat
    decreases |pipelines| - next
  {
    if next >= |pipelines| then 0
    else 6 * |pipelines[next]| + 5 + UnclaimedRank(pipelines, next + 1)
  }

  function MainRank(cfg: Config, m: MainPc): nat {
    match m
    case Submitting => cfg.workers + 8
    case SubmitFailed(_) => cfg.workers + 7
    case SubmitCancelled(_) => cfg.workers + 6
    case Consuming => cfg.workers + 7
    case ReadingError => cfg.workers + 6
    case Joining(next, limit, _) => (if next < limit <= cfg.workers then limit - next else 0) + 5
    case Rethrowing(_) => 4
    case Returned => 0
    case Threw(_) => 0
  }

  function Measure(cfg: Config, s: State): nat {
    UnclaimedRank(cfg.pipelines, s.next) + WorkersRank(s.workers) + |s.queue.items| + MainRank(cfg, s.main)
  }

  lemma {:induction false} WorkersRankUpdate(workers: seq<WorkerPc>, w: nat, pc: WorkerPc)
    requires w < |workers|
    ensures WorkersRank(workers[w := pc]) + PcRank(workers[w]) == WorkersRank(workers) + PcRank(pc)
  {
    var n := |workers| - 1;
    var updated := workers[w := pc];
    if w == n {
      assert updated[..n] == workers[..n];
    } else {
      assert updated[..n] == workers[..n][w := pc];
      WorkersRankUpdate(workers[..n], w, pc);
    }
  }

  lemma StepDecreases(cfg: Config, s: State, step: Step)
    requires Inv(cfg, s) && Enabled(s, step)
    ensures Measure(cfg, Apply(cfg, s, step)) < Measure(cfg, s)
  {
    match step
    case Main => MainDecreases(cfg, s);
    case SubmitThrows(_) =>
    case WorkerThrows(w, e) => WorkersRankUpdate(s.workers, w, FailCancel(e));
    case Worker(w) =>
      WorkerFrame(cfg, s, w);
      WorkersRankUpdate(s.workers, w, WorkerStep(cfg, s, w).workers[w]);
      WorkerPays(cfg, s, w);
  }

  lemma MainDecreases(cfg: Config, s: State)
    requires ShapeInv(cfg, s) && MainInv(s) && MainEnabled(s)
    ensures Measure(cfg, MainStep(s)) < Measure(cfg, s)
  {
    if s.main.Submitting? && s.submitted < |s.workers| {
      WorkersRankUpdate(s.workers, s.submitted, Building);
    }
  }

  lemma WorkerPays(cfg: Config, s: State, w: nat)
    requires w < |s.workers| && WorkerEnabled(s, w)
    ensures var t := WorkerStep(cfg, s, w);
            |t.workers| == |s.workers| &&
            UnclaimedRank(cfg.pipelines, t.next) + PcRank(t.workers[w]) + |t.queue.items|
              < UnclaimedRank(cfg.pipelines, s.next) + PcRank(s.workers[w]) + |s.queue.items|
  {
    if s.workers[w].Claiming? {
      ClaimPays(cfg, s, w);
    }
  }

  lemma ClaimPays(cfg: Config, s: State, w: nat)
    requires w < |s.workers| && s.workers[w].Claiming?
    ensures var t := WorkerStep(cfg, s, w);
            |t.workers| == |s.workers| &&
            UnclaimedRank(cfg.pipelines, t.next) + PcRank(t.workers[w]) + |t.queue.items|
              < UnclaimedRank(cfg.pipelines, s.next) + PcRank(s.workers[w]) + |s.queue.items|
  {
  }

  /** Whoever runs next, no run is longer than the work there was at the start. */
  lemma {:induction false} RunsAreBounded(cfg: Config, s: State, schedule: seq<Step>)
    requires Inv(cfg, s) && IsSchedule(cfg, s, schedule)
    ensures |schedule| + Measure(cfg, After(cfg, s, schedule)) <= Measure(cfg, s)
    decreases |schedule|
  {
    if schedule != [] {
      var t := Apply(cfg, s, schedule[0]);
      StepDecreases(cfg, s, schedule[0]);
      InvKept(cfg, s, schedule[0]);
      RunsAreBounded(cfg, t, schedule[1..]);
    }
  }

  /** Every query terminates: a schedule that cannot go on has finished. */
  lemma MaximalRunsFinish(cfg: Config, schedule: seq<Step>)
    requires cfg.Valid() && IsSchedule(cfg, Initial(cfg), schedule)
    requires forall step :: !Enabled(After(cfg, Initial(cfg), schedule), step)
    ensures Finished(After(cfg, Initial(cfg), schedule))
    ensures |schedule| <= Measure(cfg, Initial(cfg))
  {
    InitialInv(cfg);
    RunsAreBounded(cfg, Initial(cfg), schedule);
    if !Finished(After(cfg, Initial(cfg), schedule)) {
      var step := NeverStuck(cfg, schedule);
    }
  }
}
