/** What every interleaving of ParallelQuery keeps, and what that makes of its result. */
module ParallelQueryProofs {
  import opened Wrappers
  import opened Values
  import opened BlockingQueue
  import opened ParallelScan
  import opened ParallelQuery

  // ---------- Views of a worker ----------

  /** The segment a worker has claimed and not finished. */
  function ClaimOf(pc: WorkerPc): Option<nat> {
    match pc
    case Polling(Some(c)) => Some(c.segment)
    case Ready(Some(c)) => Some(c.segment)
    case Holding(g, _, _) => Some(g)
    case _ => None
  }

  /** The batches of that segment it has not pushed yet. */
  function Owed(pc: WorkerPc): seq<Batch> {
    match pc
    case Polling(Some(c)) => Emitted(c.rest)
    case Ready(Some(c)) => Emitted(c.rest)
    case Holding(_, b, rest) => [b] + Emitted(rest)
    case _ => []
  }

  predicate Live(pc: WorkerPc) {
    !pc.Closing? && !pc.Done?
  }

  predicate Failing(pc: WorkerPc) {
    pc.FailCancel? || pc.FailAbort?
  }

  predicate Over(pc: WorkerPc) {
    pc.Exiting? || pc.Closing? || pc.Done?
  }

  function CountLive(workers: seq<WorkerPc>): nat {
    if workers == [] then 0
    else CountLive(workers[..|workers| - 1]) + (if Live(workers[|workers| - 1]) then 1 else 0)
  }

  /** Everything that has entered the queue, in order. */
  function Log(s: State): seq<Tagged> {
    s.delivered + s.queue.items
  }

  // ---------- The invariant ----------

  predicate ShapeInv(cfg: Config, s: State) {
    && cfg.Valid()
    && |s.workers| == cfg.workers
    && s.queue.capacity == cfg.capacity
    && s.queue.Valid()
    && s.submitted <= |s.workers|
    && forall w | 0 <= w < |s.workers| :: s.workers[w].Unsubmitted? <==> w >= s.submitted
  }

  /** The exit guard: the counter counts, and the last one out closes. */
  ghost predicate CloseInv(s: State) {
    && s.active == CountLive(s.workers)
    && (s.queue.closed ==> s.active == 0)
    && (forall w | 0 <= w < |s.workers| :: s.workers[w].Closing? ==> s.active == 0)
    && (s.active == 0 && !s.queue.closed ==> exists w | 0 <= w < |s.workers| :: s.workers[w].Closing?)
  }

  /** A claimed segment was handed out by the counter, and to one worker. */
  predicate ClaimInv(cfg: Config, s: State) {
    && (forall w | 0 <= w < |s.workers| && ClaimOf(s.workers[w]).Some? ::
          ClaimOf(s.workers[w]).value < s.next && ClaimOf(s.workers[w]).value < |cfg.pipelines|)
    && (forall v, w | 0 <= v < w < |s.workers| && ClaimOf(s.workers[v]).Some? ::
          ClaimOf(s.workers[v]) != ClaimOf(s.workers[w]))
    && (forall i | 0 <= i < |Log(s)| :: Log(s)[i].segment < s.next && Log(s)[i].segment < |cfg.pipelines|)
  }

  /** Where the batches of segment g are. */
  ghost predicate SegmentInv(cfg: Config, s: State, g: nat)
    requires g < |cfg.pipelines|
  {
    var logged := OfSegment(Log(s), g);
    var all := Emitted(cfg.pipelines[g]);
    && logged <= all
    && (g >= s.next ==> logged == [])
    && (forall w | 0 <= w < |s.workers| && ClaimOf(s.workers[w]) == Some(g) ::
          logged + Owed(s.workers[w]) == all)
    && (!s.failed && g < s.next && (forall w | 0 <= w < |s.workers| :: ClaimOf(s.workers[w]) != Some(g)) ==>
          logged == all)
  }

  /** Before anything throws, nothing is cancelled and workers stop only at the end. */
  predicate CleanInv(cfg: Config, s: State) {
    !s.failed ==>
      && !s.scanCancelled && !s.queue.aborted && !s.queue.cancelled && s.queue.error.None?
      && (forall w | 0 <= w < |s.workers| :: !Failing(s.workers[w]) && !s.workers[w].Dropped?)
      && (forall w | 0 <= w < |s.workers| :: Over(s.workers[w]) ==> s.next >= |cfg.pipelines|)
  }

  /** The coordinator's path on which no error has been seen. */
  predicate NoErrorSeen(m: MainPc) {
    m.Submitting? || m.Consuming? || m.ReadingError? || m.Returned? || (m.Joining? && m.error.None?)
  }

  predicate PastConsuming(m: MainPc) {
    m.ReadingError? || m.Joining? || m.Rethrowing? || m.Returned? || m.Threw?
  }

  ghost predicate ErrorInv(s: State) {
    && (s.queue.aborted ==> s.queue.error.Some?)
    && (s.queue.error.Some? ==> s.failed)
    && (s.queue.cancelled ==> PastConsuming(s.main) && !NoErrorSeen(s.main))
    && (!NoErrorSeen(s.main) ==> s.failed)
    && (s.failed && NoErrorSeen(s.main) ==>
          s.queue.aborted || exists w | 0 <= w < |s.workers| :: Failing(s.workers[w]))
  }

  predicate MainInv(s: State) {
    && (s.main.Consuming? || s.main.ReadingError? || s.main.Returned? ==> s.submitted == |s.workers|)
    && (s.main.Joining? ==> s.main.next <= s.main.limit == s.submitted <= |s.workers|)
    && (s.main.Joining? ==> forall w | 0 <= w < s.main.next :: s.workers[w].Done?)
    && (s.main.Joining? && s.main.error.None? ==> s.submitted == |s.workers|)
    && (PastConsuming(s.main) ==> s.queue.Terminated())
    && (PastConsuming(s.main) && NoErrorSeen(s.main) ==> s.queue.items == [])
    && (PastConsuming(s.main) && NoErrorSeen(s.main) && !s.main.ReadingError? ==> s.queue.closed && !s.failed)
    && (s.main.Returned? ==> forall w | 0 <= w < |s.workers| :: s.workers[w].Done?)
  }

  ghost predicate Inv(cfg: Config, s: State) {
    && ShapeInv(cfg, s)
    && CloseInv(s)
    && ClaimInv(cfg, s)
    && (forall g | 0 <= g < |cfg.pipelines| :: SegmentInv(cfg, s, g))
    && CleanInv(cfg, s)
    && ErrorInv(s)
    && MainInv(s)
  }

  // ---------- Counting live workers ----------

  lemma {:induction false} CountUpdate(workers: seq<WorkerPc>, w: nat, pc: WorkerPc)
    requires w < |workers|
    ensures CountLive(workers[w := pc]) + (if Live(workers[w]) then 1 else 0)
            == CountLive(workers) + (if Live(pc) then 1 else 0)
  {
    var n := |workers| - 1;
    var updated := workers[w := pc];
    if w == n {
      assert updated[..n] == workers[..n];
    } else {
      assert updated[..n] == workers[..n][w := pc];
      CountUpdate(workers[..n], w, pc);
    }
  }

  lemma {:induction false} CountZero(workers: seq<WorkerPc>)
    ensures CountLive(workers) == 0 <==> forall w | 0 <= w < |workers| :: !Live(workers[w])
  {
    if workers != [] {
      var n := |workers| - 1;
      CountZero(workers[..n]);
      assert forall w | 0 <= w < n :: workers[..n][w] == workers[w];
    }
  }

  lemma {:induction false} CountAllLive(workers: seq<WorkerPc>)
    requires forall w | 0 <= w < |workers| :: Live(workers[w])
    ensures CountLive(workers) == |workers|
  {
    if workers != [] {
      CountAllLive(workers[..|workers| - 1]);
    }
  }

  // ---------- The log of one segment ----------

  lemma OfSegmentAppend(log: seq<Tagged>, t: Tagged, g: nat)
    ensures OfSegment(log + [t], g) == OfSegment(log, g) + (if t.segment == g then [t.batch] else [])
  {
    assert (log + [t])[..|log|] == log;
  }

  lemma {:induction false} OfSegmentAbsent(log: seq<Tagged>, g: nat)
    requires forall i | 0 <= i < |log| :: log[i].segment != g
    ensures OfSegment(log, g) == []
  {
    if log != [] {
      OfSegmentAbsent(log[..|log| - 1], g);
    }
  }

  /** A step moves the log only when a worker pushes. */
  lemma LogStep(cfg: Config, s: State, step: Step)
    requires Enabled(s, step)
    ensures var t := Apply(cfg, s, step);
            if step.Worker? && s.workers[step.w].Holding? && s.queue.PushOutcome() == Accepted then
              Log(t) == Log(s) + [Tagged(s.workers[step.w].segment, s.workers[step.w].batch)]
            else
              Log(t) == Log(s)
  {
    var t := Apply(cfg, s, step);
    if step.Main? && s.main.Consuming? && s.queue.items != [] {
      assert s.delivered + [s.queue.items[0]] + s.queue.items[1..] == s.delivered + s.queue.items;
    } else if step.Worker? && s.workers[step.w].Holding? && s.queue.PushOutcome() == Accepted {
      var x := Tagged(s.workers[step.w].segment, s.workers[step.w].batch);
      assert s.delivered + (s.queue.items + [x]) == s.delivered + s.queue.items + [x];
    }
  }

  // ---------- Each part of the invariant is kept ----------

  lemma InitialInv(cfg: Config)
    requires cfg.Valid()
    ensures Inv(cfg, Initial(cfg))
  {
    CountAllLive(Initial(cfg).workers);
  }

  /** What a worker step leaves alone. */
  lemma WorkerFrame(cfg: Config, s: State, w: nat)
    requires w < |s.workers| && WorkerEnabled(s, w)
    ensures var t := WorkerStep(cfg, s, w);
            && t.workers == s.workers[w := t.workers[w]]
            && !t.workers[w].Unsubmitted?
            && t.main == s.main && t.submitted == s.submitted && t.delivered == s.delivered
            && t.failed == s.failed && t.queue.capacity == s.queue.capacity
            && t.queue.cancelled == s.queue.cancelled && s.next <= t.next
            && (s.queue.Terminated() ==> t.queue.Terminated() && t.queue.items == s.queue.items)
  {
  }

  lemma ShapeKept(cfg: Config, s: State, step: Step)
    requires ShapeInv(cfg, s) && Enabled(s, step)
    ensures ShapeInv(cfg, Apply(cfg, s, step))
  {
    match step
    case Main =>
    case SubmitThrows(_) =>
    case WorkerThrows(w, _) =>
    case Worker(w) => WorkerFrame(cfg, s, w);
  }

  lemma CloseKept(cfg: Config, s: State, step: Step)
    requires ShapeInv(cfg, s) && CloseInv(s) && Enabled(s, step)
    ensures CloseInv(Apply(cfg, s, step))
  {
    match step
    case Main =>
      if s.main.Submitting? && s.submitted < |s.workers| {
        CountUpdate(s.workers, s.submitted, Building);
        CloseUnmoved(s, Apply(cfg, s, step), s.submitted);
      }
    case SubmitThrows(_) =>
    case WorkerThrows(w, e) =>
      CountUpdate(s.workers, w, FailCancel(e));
      CloseUnmoved(s, Apply(cfg, s, step), w);
    case Worker(w) => CloseKeptByWorker(cfg, s, w);
  }

  /** A live worker that stays live, with the counter and the queue flag untouched. */
  lemma CloseUnmoved(s: State, t: State, w: nat)
    requires CloseInv(s) && w < |s.workers| == |t.workers|
    requires t.workers == s.workers[w := t.workers[w]] && Live(s.workers[w]) && Live(t.workers[w])
    requires t.active == s.active && t.queue.closed == s.queue.closed
    ensures CloseInv(t)
  {
    CountUpdate(s.workers, w, t.workers[w]);
    if s.active == 0 && !s.queue.closed {
      var v :| 0 <= v < |s.workers| && s.workers[v].Closing?;
      assert t.workers[v].Closing?;
    }
  }

  lemma CloseKeptByWorker(cfg: Config, s: State, w: nat)
    requires ShapeInv(cfg, s) && CloseInv(s) && w < |s.workers| && WorkerEnabled(s, w)
    ensures CloseInv(WorkerStep(cfg, s, w))
  {
    var t := WorkerStep(cfg, s, w);
    var pc := s.workers[w];
    WorkerFrame(cfg, s, w);
    CountZero(s.workers);
    CountUpdate(s.workers, w, t.workers[w]);
    if pc.Exiting? {
      if s.active == 1 {
        assert t.workers[w].Closing?;
      }
      CountZero(t.workers);
      assert forall v | 0 <= v < |t.workers| && v != w :: t.workers[v] == s.workers[v];
    } else if pc.Closing? {
      assert t.queue.closed;
    } else {
      CloseUnmoved(s, t, w);
    }
  }

  lemma ClaimKept(cfg: Config, s: State, step: Step)
    requires ShapeInv(cfg, s) && ClaimInv(cfg, s) && Enabled(s, step)
    ensures ClaimInv(cfg, Apply(cfg, s, step))
  {
    LogStep(cfg, s, step);
    match step
    case Main =>
    case SubmitThrows(_) =>
    case WorkerThrows(w, _) =>
    case Worker(w) => ClaimKeptByWorker(cfg, s, w);
  }

  lemma ClaimKeptByWorker(cfg: Config, s: State, w: nat)
    requires ShapeInv(cfg, s) && ClaimInv(cfg, s) && w < |s.workers| && WorkerEnabled(s, w)
    ensures ClaimInv(cfg, WorkerStep(cfg, s, w))
  {
    var t := WorkerStep(cfg, s, w);
    WorkerFrame(cfg, s, w);
    LogStep(cfg, s, Worker(w));
    var before, after := ClaimOf(s.workers[w]), ClaimOf(t.workers[w]);
    assert after == before || after == None || (after == Some(s.next) && t.next == s.next + 1
                                               && s.next < |cfg.pipelines|);
    forall v | 0 <= v < |t.workers| && v != w ensures ClaimOf(t.workers[v]) == ClaimOf(s.workers[v]) {
    }
  }

  lemma CleanKept(cfg: Config, s: State, step: Step)
    requires ShapeInv(cfg, s) && CloseInv(s) && CleanInv(cfg, s) && ErrorInv(s) && Enabled(s, step)
    ensures CleanInv(cfg, Apply(cfg, s, step))
  {
    match step
    case Main =>
    case SubmitThrows(_) =>
    case WorkerThrows(w, _) =>
    case Worker(w) => CleanKeptByWorker(cfg, s, w);
  }

  lemma CleanKeptByWorker(cfg: Config, s: State, w: nat)
    requires ShapeInv(cfg, s) && CloseInv(s) && CleanInv(cfg, s) && w < |s.workers| && WorkerEnabled(s, w)
    ensures CleanInv(cfg, WorkerStep(cfg, s, w))
  {
    var t := WorkerStep(cfg, s, w);
    WorkerFrame(cfg, s, w);
    CountZero(s.workers);
    if !s.failed {
      assert !Failing(t.workers[w]) && !t.workers[w].Dropped?;
      assert Over(t.workers[w]) ==> t.next >= |cfg.pipelines|;
      assert !t.scanCancelled && !t.queue.aborted && t.queue.error.None?;
      forall v | 0 <= v < |t.workers| && v != w ensures t.workers[v] == s.workers[v] {
      }
    }
  }

  lemma ErrorKept(cfg: Config, s: State, step: Step)
    requires ShapeInv(cfg, s) && CloseInv(s) && CleanInv(cfg, s) && ErrorInv(s) && MainInv(s)
    requires Enabled(s, step)
    ensures ErrorInv(Apply(cfg, s, step))
  {
    match step
    case Main => ErrorKeptByMain(s);
    case SubmitThrows(_) =>
    case WorkerThrows(w, _) => assert Failing(Apply(cfg, s, step).workers[w]);
    case Worker(w) => ErrorKeptByWorker(cfg, s, w);
  }

  lemma ErrorKeptByMain(s: State)
    requires CloseInv(s) && ErrorInv(s) && MainInv(s) && MainEnabled(s) && s.submitted <= |s.workers|
    requires forall w | 0 <= w < |s.workers| :: s.workers[w].Unsubmitted? <==> w >= s.submitted
    ensures ErrorInv(MainStep(s))
  {
    CountZero(s.workers);
    if s.failed && NoErrorSeen(s.main) && !s.queue.aborted {
      var v :| 0 <= v < |s.workers| && Failing(s.workers[v]);
      assert Failing(MainStep(s).workers[v]);
    }
  }

  lemma ErrorKeptByWorker(cfg: Config, s: State, w: nat)
    requires w < |s.workers| && WorkerEnabled(s, w) && CleanInv(cfg, s) && ErrorInv(s)
    ensures ErrorInv(WorkerStep(cfg, s, w))
  {
    var t := WorkerStep(cfg, s, w);
    WorkerFrame(cfg, s, w);
    if s.failed && NoErrorSeen(s.main) && !s.queue.aborted {
      var v :| 0 <= v < |s.workers| && Failing(s.workers[v]);
      assert t.queue.aborted || Failing(t.workers[v]);
    }
  }

  lemma MainKept(cfg: Config, s: State, step: Step)
    requires ShapeInv(cfg, s) && CloseInv(s) && CleanInv(cfg, s) && ErrorInv(s) && MainInv(s)
    requires Enabled(s, step)
    ensures MainInv(Apply(cfg, s, step))
  {
    CountZero(s.workers);
    match step
    case Main => MainKeptByMain(cfg, s);
    case SubmitThrows(_) =>
    case WorkerThrows(w, _) =>
    case Worker(w) => WorkerFrame(cfg, s, w);
  }

  lemma MainKeptByMain(cfg: Config, s: State)
    requires ShapeInv(cfg, s) && CloseInv(s) && CleanInv(cfg, s) && ErrorInv(s) && MainInv(s)
    requires MainEnabled(s)
    ensures MainInv(MainStep(s))
  {
    CountZero(s.workers);
    var t := MainStep(s);
    match s.main
    case Joining(next, limit, _) =>
      assert t.workers == s.workers && t.queue == s.queue;
    case ReadingError =>
      if s.queue.error.None? {
        assert s.queue.closed;
        assert !s.failed;
      }
    case _ =>
  }

  /** Every batch of segment g is logged, owed by its worker, or still unclaimed. */
  lemma SegmentKept(cfg: Config, s: State, step: Step, g: nat)
    requires g < |cfg.pipelines| && Enabled(s, step)
    requires ShapeInv(cfg, s) && CleanInv(cfg, s) && ClaimInv(cfg, s) && SegmentInv(cfg, s, g)
    requires CloseInv(s)
    ensures SegmentInv(cfg, Apply(cfg, s, step), g)
  {
    var t := Apply(cfg, s, step);
    LogStep(cfg, s, step);
    match step
    case Main =>
      if s.main.Submitting? && s.submitted < |s.workers| {
        SegmentUnmoved(cfg, s, t, s.submitted, g);
      } else {
        assert t.workers == s.workers;
      }
    case SubmitThrows(_) =>
    case WorkerThrows(w, _) => SegmentUnmoved(cfg, s, t, w, g);
    case Worker(w) => SegmentKeptByWorker(cfg, s, w, g);
  }

  /** The log and the counter stand still, and worker w keeps nothing it must not. */
  lemma SegmentUnmoved(cfg: Config, s: State, t: State, w: nat, g: nat)
    requires g < |cfg.pipelines| && SegmentInv(cfg, s, g) && w < |s.workers|
    requires |t.workers| == |s.workers| && t.workers == s.workers[w := t.workers[w]]
    requires OfSegment(Log(t), g) == OfSegment(Log(s), g) && t.next == s.next && (s.failed ==> t.failed)
    requires ClaimOf(t.workers[w]) == Some(g) ==>
               ClaimOf(s.workers[w]) == Some(g) && Owed(t.workers[w]) == Owed(s.workers[w])
    requires ClaimOf(s.workers[w]) == Some(g) && ClaimOf(t.workers[w]) != Some(g) ==>
               t.failed || Owed(s.workers[w]) == []
    ensures SegmentInv(cfg, t, g)
  {
    forall v | 0 <= v < |t.workers| && v != w ensures t.workers[v] == s.workers[v] {
    }
    if !t.failed && g < t.next && forall v | 0 <= v < |t.workers| :: ClaimOf(t.workers[v]) != Some(g) {
      if ClaimOf(s.workers[w]) == Some(g) {
        assert OfSegment(Log(s), g) + [] == OfSegment(Log(s), g);
      } else {
        assert forall v | 0 <= v < |s.workers| :: ClaimOf(s.workers[v]) != Some(g);
      }
    }
  }

  lemma SegmentKeptByWorker(cfg: Config, s: State, w: nat, g: nat)
    requires g < |cfg.pipelines| && w < |s.workers| && WorkerEnabled(s, w)
    requires ShapeInv(cfg, s) && CleanInv(cfg, s) && ClaimInv(cfg, s) && SegmentInv(cfg, s, g)
    requires CloseInv(s)
    ensures SegmentInv(cfg, WorkerStep(cfg, s, w), g)
  {
    var t := WorkerStep(cfg, s, w);
    LogStep(cfg, s, Worker(w));
    WorkerFrame(cfg, s, w);
    var pc := s.workers[w];
    if pc.Holding? && s.queue.PushOutcome() == Accepted {
      SegmentKeptByPush(cfg, s, w, g);
    } else if pc.Claiming? {
      SegmentKeptByClaim(cfg, s, w, g);
    } else {
      if pc.Holding? && !s.failed {
        CountZero(s.workers);
      }
      OwedByStep(cfg, s, w);
      SegmentUnmoved(cfg, s, t, w, g);
    }
  }

  /** Between claiming and pushing, a worker keeps its debt until nothing is left of it. */
  lemma OwedByStep(cfg: Config, s: State, w: nat)
    requires w < |s.workers| && WorkerEnabled(s, w) && !s.workers[w].Claiming?
    requires !(s.workers[w].Holding? && s.queue.PushOutcome() == Accepted)
    requires !s.failed ==> !s.scanCancelled && !s.workers[w].Holding?
    ensures var pc, pc' := s.workers[w], WorkerStep(cfg, s, w).workers[w];
            if ClaimOf(pc') == ClaimOf(pc) then Owed(pc') == Owed(pc)
            else ClaimOf(pc') == None && (s.failed || Owed(pc) == [])
  {
    if s.workers[w].Ready? && s.workers[w].claim.Some? {
      var rest := s.workers[w].claim.value.rest;
      if rest != [] && rest[0].Emit? && rest[0].batch != [] {
        assert Emitted(rest) == [rest[0].batch] + Emitted(rest[1..]);
      } else if rest != [] {
        assert Emitted(rest) == [] + Emitted(rest[1..]) == Emitted(rest[1..]);
      }
    }
  }

  lemma SegmentKeptByPush(cfg: Config, s: State, w: nat, g: nat)
    requires g < |cfg.pipelines| && w < |s.workers| && WorkerEnabled(s, w)
    requires ClaimInv(cfg, s) && SegmentInv(cfg, s, g)
    requires s.workers[w].Holding? && s.queue.PushOutcome() == Accepted
    ensures SegmentInv(cfg, WorkerStep(cfg, s, w), g)
  {
    LogStep(cfg, s, Worker(w));
    WorkerFrame(cfg, s, w);
    SegmentAfterPush(cfg, s, WorkerStep(cfg, s, w), w, g);
  }

  lemma SegmentAfterPush(cfg: Config, s: State, t: State, w: nat, g: nat)
    requires g < |cfg.pipelines| && w < |s.workers| == |t.workers| && s.workers[w].Holding?
    requires ClaimInv(cfg, s) && SegmentInv(cfg, s, g)
    requires t.workers == s.workers[w := Polling(Some(Claim(s.workers[w].segment, s.workers[w].rest)))]
    requires Log(t) == Log(s) + [Tagged(s.workers[w].segment, s.workers[w].batch)]
    requires t.next == s.next && t.failed == s.failed
    ensures SegmentInv(cfg, t, g)
  {
    var pc := s.workers[w];
    OfSegmentAppend(Log(s), Tagged(pc.segment, pc.batch), g);
    if pc.segment == g {
      var logged := OfSegment(Log(s), g);
      assert ClaimOf(pc) == Some(g) && ClaimOf(t.workers[w]) == Some(g);
      assert logged + ([pc.batch] + Emitted(pc.rest)) == logged + [pc.batch] + Emitted(pc.rest);
      forall v | 0 <= v < |t.workers| && v != w ensures ClaimOf(t.workers[v]) != Some(g) {
        assert t.workers[v] == s.workers[v];
      }
    } else {
      assert OfSegment(Log(s), g) + [] == OfSegment(Log(s), g);
      SegmentUnmoved(cfg, s, t, w, g);
    }
  }

  lemma SegmentKeptByClaim(cfg: Config, s: State, w: nat, g: nat)
    requires g < |cfg.pipelines| && w < |s.workers| && WorkerEnabled(s, w)
    requires ClaimInv(cfg, s) && SegmentInv(cfg, s, g) && s.workers[w].Claiming?
    ensures SegmentInv(cfg, WorkerStep(cfg, s, w), g)
  {
    var t := WorkerStep(cfg, s, w);
    LogStep(cfg, s, Worker(w));
    forall v | 0 <= v < |t.workers| && v != w ensures t.workers[v] == s.workers[v] {
    }
    if s.next == g {
      assert ClaimOf(t.workers[w]) == Some(g);
      assert [] + Owed(t.workers[w]) == Emitted(cfg.pipelines[g]);
      assert forall v | 0 <= v < |s.workers| :: ClaimOf(s.workers[v]) != Some(g);
    } else if !t.failed && g < t.next && forall v | 0 <= v < |t.workers| :: ClaimOf(t.workers[v]) != Some(g) {
      assert forall v | 0 <= v < |s.workers| :: ClaimOf(s.workers[v]) != Some(g);
    }
  }

  lemma InvKept(cfg: Config, s: State, step: Step)
    requires Inv(cfg, s) && Enabled(s, step)
    ensures Inv(cfg, Apply(cfg, s, step))
  {
    ShapeKept(cfg, s, step);
    CloseKept(cfg, s, step);
    ClaimKept(cfg, s, step);
    CleanKept(cfg, s, step);
    ErrorKept(cfg, s, step);
    MainKept(cfg, s, step);
    forall g | 0 <= g < |cfg.pipelines| ensures SegmentInv(cfg, Apply(cfg, s, step), g) {
      SegmentKept(cfg, s, step, g);
    }
  }

  lemma {:induction false} InvAfter(cfg: Config, s: State, schedule: seq<Step>)
    requires Inv(cfg, s) && IsSchedule(cfg, s, schedule)
    ensures Inv(cfg, After(cfg, s, schedule))
    decreases |schedule|
  {
    if schedule != [] {
      InvKept(cfg, s, schedule[0]);
      InvAfter(cfg, Apply(cfg, s, schedule[0]), schedule[1..]);
    }
  }
}
