/** Which exception a failed query throws: one that was thrown inside it. */
module ParallelQueryErrors {
  import opened Wrappers
  import opened Values
  import opened BlockingQueue
  import opened ParallelScan
  import opened ParallelQuery
  import opened ParallelQueryTheorems

  /** What a step throws, if it does. */
  function ThrownBy(step: Step): set<Error> {
    match step
    case WorkerThrows(_, e) => {e}
    case SubmitThrows(e) => {e}
    case _ => {}
  }

  predicate Among(e: Option<Error>, thrown: set<Error>) {
    e.Some? ==> e.value in thrown
  }

  function ErrorOf(pc: WorkerPc): Option<Error> {
    match pc
    case FailCancel(e) => Some(e)
    case FailAbort(e) => Some(e)
    case _ => None
  }

  function MainError(m: MainPc): Option<Error> {
    match m
    case SubmitFailed(e) => Some(e)
    case SubmitCancelled(e) => Some(e)
    case Joining(_, _, e) => e
    case Rethrowing(e) => Some(e)
    case Threw(e) => Some(e)
    case _ => None
  }

  /** Whoever holds an exception holds one that was thrown. */
  predicate ErrorsAmong(s: State, thrown: set<Error>) {
    && Among(s.queue.error, thrown) && Among(MainError(s.main), thrown)
    && forall w | 0 <= w < |s.workers| :: Among(ErrorOf(s.workers[w]), thrown)
  }

  lemma WorkerKeepsErrors(cfg: Config, s: State, w: nat, thrown: set<Error>)
    requires w < |s.workers| && WorkerEnabled(s, w) && ErrorsAmong(s, thrown)
    ensures ErrorsAmong(WorkerStep(cfg, s, w), thrown)
  {
    assert Among(ErrorOf(s.workers[w]), thrown);
    var t := WorkerStep(cfg, s, w);
    assert t.workers == s.workers[w := t.workers[w]];
    assert t.main == s.main && Among(t.queue.error, thrown);
    assert Among(ErrorOf(t.workers[w]), thrown);
  }

  lemma StepKeepsErrors(cfg: Config, s: State, step: Step, thrown: set<Error>)
    requires Enabled(s, step) && ErrorsAmong(s, thrown)
    ensures ErrorsAmong(Apply(cfg, s, step), thrown + ThrownBy(step))
  {
    match step
    case Worker(w) => WorkerKeepsErrors(cfg, s, w, thrown);
    case Main =>
    case WorkerThrows(w, e) =>
    case SubmitThrows(e) =>
  }

  function AllThrown(schedule: seq<Step>): set<Error> {
    set i, e | 0 <= i < |schedule| && e in ThrownBy(schedule[i]) :: e
  }

  lemma {:induction false} RunKeepsErrors(cfg: Config, s: State, schedule: seq<Step>, thrown: set<Error>)
    requires IsSchedule(cfg, s, schedule) && ErrorsAmong(s, thrown)
    ensures ErrorsAmong(After(cfg, s, schedule), thrown + AllThrown(schedule))
    decreases |schedule|
  {
    if schedule != [] {
      StepKeepsErrors(cfg, s, schedule[0], thrown);
      RunKeepsErrors(cfg, Apply(cfg, s, schedule[0]), schedule[1..], thrown + ThrownBy(schedule[0]));
      forall e | e in ThrownBy(schedule[0]) + AllThrown(schedule[1..]) ensures e in AllThrown(schedule) {
        if e in ThrownBy(schedule[0]) {
          assert e in ThrownBy(schedule[0]);
        } else {
          var i :| 0 <= i < |schedule[1..]| && e in ThrownBy(schedule[1..][i]);
          assert e in ThrownBy(schedule[i + 1]);
        }
      }
      ErrorsAmongMore(After(cfg, s, schedule), thrown + ThrownBy(schedule[0]) + AllThrown(schedule[1..]),
                      thrown + AllThrown(schedule));
    } else {
      ErrorsAmongMore(s, thrown, thrown + AllThrown(schedule));
    }
  }

  lemma ErrorsAmongMore(s: State, some: set<Error>, more: set<Error>)
    requires ErrorsAmong(s, some) && some <= more
    ensures ErrorsAmong(s, more)
  {
    forall w | 0 <= w < |s.workers| ensures Among(ErrorOf(s.workers[w]), more) {
      assert Among(ErrorOf(s.workers[w]), some);
    }
  }

  /** The exception a query throws is that of some step of it, in every interleaving. */
  lemma ThrownIsFromAStep(cfg: Config, schedule: seq<Step>)
    requires cfg.Valid() && IsSchedule(cfg, Initial(cfg), schedule)
    ensures var main := After(cfg, Initial(cfg), schedule).main;
            main.Threw? ==> exists i :: 0 <= i < |schedule| && main.e in ThrownBy(schedule[i])
  {
    assert ErrorsAmong(Initial(cfg), {});
    RunKeepsErrors(cfg, Initial(cfg), schedule, {});
  }

  lemma {:induction false} FailedIff(cfg: Config, s: State, schedule: seq<Step>)
    requires IsSchedule(cfg, s, schedule)
    ensures After(cfg, s, schedule).failed <==> s.failed || exists i :: 0 <= i < |schedule| && ThrownBy(schedule[i]) != {}
    decreases |schedule|
  {
    if schedule != [] {
      FailedIff(cfg, Apply(cfg, s, schedule[0]), schedule[1..]);
      assert forall i | 1 <= i < |schedule| :: schedule[i] == schedule[1..][i - 1];
    }
  }

  /** A query that has finished throws exactly if one of its steps has thrown. */
  lemma ThrowsIffAStepThrew(cfg: Config, schedule: seq<Step>)
    requires cfg.Valid() && IsSchedule(cfg, Initial(cfg), schedule) && Finished(After(cfg, Initial(cfg), schedule))
    ensures After(cfg, Initial(cfg), schedule).main.Threw?
            <==> exists i :: 0 <= i < |schedule| && ThrownBy(schedule[i]) != {}
  {
    FinishedThrowsIffFailed(cfg, schedule);
    FailedIff(cfg, Initial(cfg), schedule);
  }
}
