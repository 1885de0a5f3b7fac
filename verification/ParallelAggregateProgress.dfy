/** Parallel aggregation never deadlocks and always ends. */
module ParallelAggregateProgress {
  import opened Wrappers
  import opened Values
  import opened GroupTables
  import opened ParallelScan
  import opened ParallelAggregate
  import opened ParallelAggregateProofs

  // ---------- what is left to do ----------

  function TaskRank(t: Task): nat {
    match t
    case Running(_, rest) => 1 + |rest|
    case _ => 0
  }

  function TasksRank(tasks: seq<Task>): nat {
    if tasks == [] then 0 else TasksRank(tasks[..|tasks| - 1]) + TaskRank(tasks[|tasks| - 1])
  }

  function UnclaimedRank(cfg: Config, next: nat): nat
    decreases |cfg.segments| - next
  {
    if next >= |cfg.segments| then 0 else |cfg.segments[next]| + 1 + UnclaimedRank(cfg, next + 1)
  }

  function MainRank(cfg: Config, s: State): int {
    match s.main
    case Submitting => cfg.workers + 2 + 2 * (cfg.workers - |s.tasks|)
    case Collecting(k) => |s.tasks| - k + 1
    case Done(_) => 0
  }

  function Measure(cfg: Config, s: State): int {
    UnclaimedRank(cfg, s.next) + TasksRank(s.tasks) + MainRank(cfg, s)
  }

  predicate Underway(cfg: Config, s: State) {
    && ShapedState(cfg, s)
    && match s.main
       case Submitting => |s.tasks| <= cfg.workers
       case Collecting(k) => k <= |s.tasks| <= cfg.workers
       case Done(_) => true
  }

  lemma UnderwayKept(cfg: Config, s: State, step: Step)
    requires Underway(cfg, s) && Enabled(cfg, s, step)
    ensures Underway(cfg, Apply(cfg, s, step))
  {
    ShapedKept(cfg, s, step);
  }

  lemma {:induction false} RankUpdate(tasks: seq<Task>, w: nat, t: Task)
    requires w < |tasks|
    ensures TasksRank(tasks[w := t]) + TaskRank(tasks[w]) == TasksRank(tasks) + TaskRank(t)
  {
    var n := |tasks| - 1;
    if w == n {
      assert tasks[w := t][..n] == tasks[..n];
    } else {
      assert tasks[w := t][..n] == tasks[..n][w := t];
      RankUpdate(tasks[..n], w, t);
    }
  }

  /** Every step, whoever takes it, leaves less to do. */
  lemma StepDecreases(cfg: Config, s: State, step: Step)
    requires Underway(cfg, s) && Enabled(cfg, s, step)
    ensures 0 <= Measure(cfg, Apply(cfg, s, step)) < Measure(cfg, s)
  {
    UnderwayKept(cfg, s, step);
    match step
    case Work(w, stale) => RankUpdate(s.tasks, w, Turn(cfg, s.tasks[w], s.next, s.cancelled && !stale));
    case TaskThrows(w) => RankUpdate(s.tasks, w, Failed);
    case SubmitThrows =>
    case Main => MainDecreases(cfg, s);
  }

  lemma SubmitDecreases(cfg: Config, s: State)
    requires s.main.Submitting? && |s.tasks| < cfg.workers && ShapedState(cfg, s)
    ensures Measure(cfg, MainStep(cfg, s)) < Measure(cfg, s)
  {
    var t := Running(cfg.spec.Start(), []);
    assert MainStep(cfg, s) == s.(tasks := s.tasks + [t]);
    assert (s.tasks + [t])[..|s.tasks|] == s.tasks;
    assert TasksRank(s.tasks + [t]) == TasksRank(s.tasks) + TaskRank(t);
  }

  lemma CollectDecreases(cfg: Config, s: State, k: nat)
    requires s.main == Collecting(k) && k < |s.tasks| && !s.tasks[k].Running? && ShapedState(cfg, s)
    ensures Measure(cfg, MainStep(cfg, s)) < Measure(cfg, s)
  {
    var t := MainStep(cfg, s);
    RankUpdate(s.tasks, k, Collected);
    assert t.tasks == s.tasks || t.tasks == s.tasks[k := Collected];
    assert TasksRank(t.tasks) == TasksRank(s.tasks);
    assert t.main == Collecting(k + 1) && t.next == s.next && |t.tasks| == |s.tasks|;
  }

  lemma MainDecreases(cfg: Config, s: State)
    requires Underway(cfg, s) && Enabled(cfg, s, Main)
    ensures Measure(cfg, MainStep(cfg, s)) < Measure(cfg, s)
  {
    match s.main
    case Submitting =>
      if |s.tasks| < cfg.workers {
        SubmitDecreases(cfg, s);
      } else {
        assert MainStep(cfg, s) == s.(main := Collecting(0));
      }
    case Collecting(k) =>
      if k < |s.tasks| {
        CollectDecreases(cfg, s, k);
      }
    case Done(_) =>
  }

  /** No interleaving reaches a deadlock. */
  lemma NeverStuck(cfg: Config, s: State) returns (step: Step)
    requires Underway(cfg, s) && !s.main.Done?
    ensures Enabled(cfg, s, step) && (step.Main? || step.Work?)
  {
    match s.main
    case Submitting => step := Main;
    case Collecting(k) => step := if k < |s.tasks| && s.tasks[k].Running? then Work(k, false) else Main;
  }

  lemma {:induction false} RunsAreBounded(cfg: Config, s: State, steps: seq<Step>)
    requires Underway(cfg, s) && IsRun(cfg, s, steps)
    ensures Underway(cfg, After(cfg, s, steps))
    ensures |steps| + Measure(cfg, After(cfg, s, steps)) <= Measure(cfg, s)
    decreases |steps|
  {
    if steps != [] {
      ShapedKept(cfg, s, steps[0]);
      UnderwayKept(cfg, s, steps[0]);
      StepDecreases(cfg, s, steps[0]);
      RunsAreBounded(cfg, Apply(cfg, s, steps[0]), steps[1..]);
    }
  }

  /** Every aggregation ends: a run that cannot go on is done, and none is longer than the work at the start. */
  lemma MaximalRunsFinish(cfg: Config, steps: seq<Step>)
    requires cfg.Valid() && (ShapedInitially(cfg); IsRun(cfg, Initial(cfg), steps))
    requires forall step :: !Enabled(cfg, After(cfg, Initial(cfg), steps), step)
    ensures ShapedState(cfg, Initial(cfg))
    ensures After(cfg, Initial(cfg), steps).main.Done? && |steps| <= Measure(cfg, Initial(cfg))
  {
    ShapedInitially(cfg);
    RunsAreBounded(cfg, Initial(cfg), steps);
    var s := After(cfg, Initial(cfg), steps);
    if !s.main.Done? {
      var step := NeverStuck(cfg, s);
      assert false;
    }
    MeasureNatural(cfg, s);
  }

  lemma MeasureNatural(cfg: Config, s: State)
    requires Underway(cfg, s)
    ensures Measure(cfg, s) >= 0
  {
  }
}
