/** ParallelExecutor::ExecuteQuery as a transition system: one step is one atomic
    action of one thread, and any thread that is not blocked may take the next one. */
module ParallelQuery {
  import opened Wrappers
  import opened Values
  import opened BlockingQueue
  import opened ParallelScan

  type Error = string
  type Batch = seq<Row>

  /** One turn of the worker pipeline on its segment: a batch, or one filtered to nothing below. */
  datatype Outcome = Emit(batch: Batch) | Skip

  /** pipelines[g] is what SeqScan -> Filter -> Projection yields for segment g. */
  datatype Config = Config(pipelines: seq<seq<Outcome>>, workers: nat, capacity: nat) {
    predicate Valid() {
      workers >= 1 && capacity >= 1
    }
  }

  datatype Tagged = Tagged(segment: nat, batch: Batch)

  datatype Claim = Claim(segment: nat, rest: seq<Outcome>)

  /** Where a worker task is between two atomic actions. */
  datatype WorkerPc =
    | Unsubmitted
    | Building                                    // submitted, pipeline not built yet
    | Polling(claim: Option<Claim>)               // about to read the cancel flag in ScanParallel
    | Ready(claim: Option<Claim>)                 // flag read, about to scan, or to enter ClaimSegment
    | Claiming                                    // about to fetch_add
    | Holding(segment: nat, batch: Batch, rest: seq<Outcome>) // about to Push
    | Dropped                                     // Push returned false, about to cancel the scan
    | FailCancel(e: Error)                        // in the handler, about to cancel the scan
    | FailAbort(e: Error)                         // in the handler, about to abort the queue
    | Exiting                                     // about to run the exit guard's fetch_sub
    | Closing                                     // fetch_sub returned 1, about to Close
    | Done

  /** Where the coordinating thread is. */
  datatype MainPc =
    | Submitting
    | SubmitFailed(e: Error)
    | SubmitCancelled(e: Error)
    | Consuming
    | ReadingError
    | Joining(next: nat, limit: nat, error: Option<Error>)
    | Rethrowing(e: Error)
    | Returned
    | Threw(e: Error)

  /** `failed` is a history variable: some worker or some submission has thrown. */
  datatype State = State(
    next: nat,
    scanCancelled: bool,
    queue: QueueState<Tagged, Error>,
    active: nat,
    workers: seq<WorkerPc>,
    main: MainPc,
    submitted: nat,
    delivered: seq<Tagged>,
    failed: bool)

  datatype Step =
    | Worker(w: nat)
    | WorkerThrows(w: nat, e: Error)
    | Main
    | SubmitThrows(e: Error)

  function Initial(cfg: Config): State
    requires cfg.Valid()
  {
    State(0, false, Fresh(cfg.capacity), cfg.workers, seq(cfg.workers, _ => Unsubmitted),
          Submitting, 0, [], false)
  }

  predicate Finished(s: State) {
    s.main.Returned? || s.main.Threw?
  }

  // ---------- Which steps are possible ----------

  predicate WorkerEnabled(s: State, w: nat)
    requires w < |s.workers|
  {
    match s.workers[w]
    case Unsubmitted => false
    case Done => false
    case Holding(_, _, _) => s.queue.PushOutcome() != Waits
    case _ => true
  }

  /** The places inside the task's try block. */
  predicate MayThrow(pc: WorkerPc) {
    pc.Building? || pc.Polling? || pc.Ready?
  }

  predicate MainEnabled(s: State) {
    match s.main
    case Consuming => !s.queue.PopWaits()
    case Joining(next, limit, _) => next < |s.workers| && next < limit ==> s.workers[next].Done?
    case Returned => false
    case Threw(_) => false
    case _ => true
  }

  predicate Enabled(s: State, step: Step) {
    match step
    case Worker(w) => w < |s.workers| && WorkerEnabled(s, w)
    case WorkerThrows(w, _) => w < |s.workers| && MayThrow(s.workers[w])
    case Main => MainEnabled(s)
    case SubmitThrows(_) => s.main.Submitting? && s.submitted < |s.workers|
  }

  // ---------- What they do ----------

  function SetPc(s: State, w: nat, pc: WorkerPc): State
    requires w < |s.workers|
  {
    s.(workers := s.workers[w := pc])
  }

  function WorkerStep(cfg: Config, s: State, w: nat): State
    requires w < |s.workers| && WorkerEnabled(s, w)
  {
    match s.workers[w]
    case Building => SetPc(s, w, Polling(None))
    case Polling(claim) => SetPc(s, w, if s.scanCancelled then Exiting else Ready(claim))
    case Ready(None) => SetPc(s, w, if s.scanCancelled then Exiting else Claiming)
    case Claiming => ClaimStep(cfg, s, w)
    case Ready(Some(claim)) => ScanStep(s, w, claim)
    case Holding(segment, batch, rest) =>
      if s.queue.PushOutcome() == Accepted then
        SetPc(s.(queue := s.queue.AfterPush(Tagged(segment, batch))), w, Polling(Some(Claim(segment, rest))))
      else
        SetPc(s, w, Dropped)
    case Dropped => SetPc(s.(scanCancelled := true), w, Exiting)
    case FailCancel(e) => SetPc(s.(scanCancelled := true), w, FailAbort(e))
    case FailAbort(e) => SetPc(s.(queue := s.queue.AfterAbort(Some(e))), w, Exiting)
    case Exiting => SetPc(s.(active := if s.active == 0 then 0 else s.active - 1), w,
                          if s.active == 1 then Closing else Done)
    case Closing => SetPc(s.(queue := s.queue.(closed := true)), w, Done)
  }

  function ClaimStep(cfg: Config, s: State, w: nat): State
    requires w < |s.workers|
  {
    var claimed := Claimed(|cfg.pipelines|, s.next);
    SetPc(s.(next := s.next + 1), w,
          if claimed.None? then Exiting
          else Ready(Some(Claim(claimed.value, cfg.pipelines[claimed.value]))))
  }

  function ScanStep(s: State, w: nat, claim: Claim): State
    requires w < |s.workers|
  {
    if claim.rest == [] then SetPc(s, w, Polling(None))
    else match claim.rest[0]
         case Skip => SetPc(s, w, Polling(Some(Claim(claim.segment, claim.rest[1..]))))
         case Emit(batch) =>
           SetPc(s, w, if batch == [] then Polling(Some(Claim(claim.segment, claim.rest[1..])))
                       else Holding(claim.segment, batch, claim.rest[1..]))
  }

  function MainStep(s: State): State
    requires MainEnabled(s)
  {
    match s.main
    case Submitting =>
      if s.submitted < |s.workers| then
        SetPc(s, s.submitted, Building).(submitted := s.submitted + 1)
      else
        s.(main := Consuming)
    case SubmitFailed(e) => s.(scanCancelled := true, main := SubmitCancelled(e))
    case SubmitCancelled(e) =>
      s.(queue := s.queue.(cancelled := true), main := Joining(0, s.submitted, Some(e)))
    case Consuming =>
      if s.queue.items == [] then s.(main := ReadingError)
      else s.(delivered := s.delivered + [s.queue.items[0]], queue := s.queue.AfterPop())
    case ReadingError => s.(main := Joining(0, |s.workers|, s.queue.error))
    case Joining(next, limit, error) =>
      if next < limit then s.(main := Joining(next + 1, limit, error))
      else s.(main := if error.Some? then Rethrowing(error.value) else Returned)
    case Rethrowing(e) => s.(scanCancelled := true, main := Threw(e))
  }

  function Apply(cfg: Config, s: State, step: Step): State
    requires Enabled(s, step)
  {
    match step
    case Worker(w) => WorkerStep(cfg, s, w)
    case WorkerThrows(w, e) => SetPc(s, w, FailCancel(e)).(failed := true)
    case Main => MainStep(s)
    case SubmitThrows(e) => s.(main := SubmitFailed(e), failed := true)
  }

  // ---------- Runs ----------

  /** A schedule picks the thread of every step; any interleaving is one. */
  predicate IsSchedule(cfg: Config, s: State, schedule: seq<Step>)
    decreases |schedule|
  {
    schedule != [] ==>
      Enabled(s, schedule[0]) && IsSchedule(cfg, Apply(cfg, s, schedule[0]), schedule[1..])
  }

  function After(cfg: Config, s: State, schedule: seq<Step>): State
    requires IsSchedule(cfg, s, schedule)
    decreases |schedule|
  {
    if schedule == [] then s else After(cfg, Apply(cfg, s, schedule[0]), schedule[1..])
  }

  // ---------- What a complete result is ----------

  /** The batches that are worth pushing: those with an active row. */
  function Emitted(outcomes: seq<Outcome>): seq<Batch> {
    if outcomes == [] then []
    else (match outcomes[0]
          case Skip => []
          case Emit(b) => if b == [] then [] else [b]) + Emitted(outcomes[1..])
  }

  /** Rows of the serial pipeline: segment after segment. */
  function SerialRows(pipelines: seq<seq<Outcome>>): Batch {
    if pipelines == [] then []
    else SerialRows(pipelines[..|pipelines| - 1]) + Concat(Emitted(pipelines[|pipelines| - 1]))
  }

  /** The batches of one segment, in the order they went through the queue. */
  function OfSegment(log: seq<Tagged>, g: nat): seq<Batch> {
    if log == [] then []
    else
      var last := log[|log| - 1];
      OfSegment(log[..|log| - 1], g) + (if last.segment == g then [last.batch] else [])
  }

  function Batches(log: seq<Tagged>): seq<Batch> {
    seq(|log|, i requires 0 <= i < |log| => log[i].batch)
  }

  /** result.row_count of the coordinator. */
  function RowCount(log: seq<Tagged>): nat {
    if log == [] then 0 else RowCount(log[..|log| - 1]) + |log[|log| - 1].batch|
  }
}
