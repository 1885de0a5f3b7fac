/**
 * ParallelExecutor::ExecuteAggregate as a transition system: workers claim segments and consume them
 * into their own states, the coordinator collects the futures in order and merges them.
 */
module ParallelAggregate {
  import opened Wrappers
  import opened Values
  import opened Expressions
  import opened GroupTables
  import opened ParallelScan

  /** segments[g] lists the batches of active rows the pipeline yields for segment g. */
  datatype Config = Config(spec: AggSpec, schema: seq<DataType>, segments: seq<seq<seq<Row>>>, workers: nat) {
    ghost predicate Valid() {
      && spec.Valid() && workers >= 1
      && forall g | 0 <= g < |segments| :: TypedRows(Concat(segments[g]), schema)
    }

    /** What one serial Consume after another over the whole table leaves. */
    function Serial(): Option<Groups>
      requires Shaped(spec, spec.Start())
    {
      AddRows(spec, spec.Start(), AllRows(segments))
    }
  }

  function AllRows(segments: seq<seq<seq<Row>>>): seq<Row> {
    if segments == [] then [] else Concat(segments[0]) + AllRows(segments[1..])
  }

  /** A worker task: its state table and the batches left of the segment it holds. */
  datatype Task =
    | Running(local: Groups, rest: seq<seq<Row>>)
    | Returned(local: Groups)
    | Failed
    | Collected

  datatype MainPc = Submitting | Collecting(next: nat) | Done(result: Option<Groups>)

  /** `external` is a history variable: something other than consuming rows threw. */
  datatype State = State(
    next: nat,
    cancelled: bool,
    tasks: seq<Task>,
    main: MainPc,
    global: Groups,
    error: bool,
    submitError: bool,
    external: bool)

  /** `stale`: the task read the cancel flag before it was set. */
  datatype Step =
    | Work(w: nat, stale: bool)
    | TaskThrows(w: nat)
    | Main
    | SubmitThrows

  function Initial(cfg: Config): State {
    State(0, false, [], Submitting, cfg.spec.Start(), false, false, false)
  }

  predicate Enabled(cfg: Config, s: State, step: Step) {
    match step
    case Work(w, _) => w < |s.tasks| && s.tasks[w].Running?
    case TaskThrows(w) => w < |s.tasks| && s.tasks[w].Running?
    case SubmitThrows => s.main.Submitting? && |s.tasks| < cfg.workers
    case Main =>
      match s.main
      case Submitting => true
      case Collecting(k) => k < |s.tasks| ==> !s.tasks[k].Running?
      case Done(_) => false
  }

  /** One turn of a task: return if cancelled, else consume the next batch, or claim a segment, or return. */
  function Turn(cfg: Config, t: Task, next: nat, cancelled: bool): Task
    requires t.Running? && Shaped(cfg.spec, t.local)
  {
    if cancelled then Returned(t.local)
    else if t.rest != [] then
      match AddRows(cfg.spec, t.local, t.rest[0])
      case None => Failed
      case Some(g) => Running(g, t.rest[1..])
    else
      match Claimed(|cfg.segments|, next)
      case None => Returned(t.local)
      case Some(g) => Running(t.local, cfg.segments[g])
  }

  function WorkStep(cfg: Config, s: State, w: nat, stale: bool): State
    requires w < |s.tasks| && s.tasks[w].Running? && Shaped(cfg.spec, s.tasks[w].local)
  {
    var cancelled := s.cancelled && !stale;
    var t := Turn(cfg, s.tasks[w], s.next, cancelled);
    s.(next := if !cancelled && s.tasks[w].rest == [] then s.next + 1 else s.next,
       cancelled := s.cancelled || t.Failed?,
       tasks := s.tasks[w := t])
  }

  function MainStep(cfg: Config, s: State): State
    requires Enabled(cfg, s, Main) && ShapedState(cfg, s)
  {
    match s.main
    case Submitting =>
      if |s.tasks| < cfg.workers then s.(tasks := s.tasks + [Running(cfg.spec.Start(), [])])
      else s.(main := Collecting(0))
    case Collecting(k) =>
      if k < |s.tasks| then
        match s.tasks[k]
        case Returned(local) =>
          if s.submitError then s.(main := Collecting(k + 1), tasks := s.tasks[k := Collected])
          else s.(main := Collecting(k + 1), tasks := s.tasks[k := Collected],
                  global := MergeGroups(cfg.spec, s.global, local))
        case Failed => s.(main := Collecting(k + 1), error := true)
        case _ => s.(main := Collecting(k + 1))
      else s.(cancelled := s.cancelled || s.error,
              main := Done(if s.error || s.submitError then None else Some(s.global)))
    case Done(_) => s
  }

  function Apply(cfg: Config, s: State, step: Step): State
    requires Enabled(cfg, s, step) && ShapedState(cfg, s)
  {
    match step
    case Work(w, stale) => WorkStep(cfg, s, w, stale)
    case TaskThrows(w) => s.(cancelled := true, external := true, tasks := s.tasks[w := Failed])
    case SubmitThrows => s.(cancelled := true, external := true, submitError := true, main := Collecting(0))
    case Main => MainStep(cfg, s)
  }

  predicate ShapedTask(spec: AggSpec, t: Task) {
    t.Running? || t.Returned? ==> Shaped(spec, t.local)
  }

  /** Every table has one state per call. */
  predicate ShapedState(cfg: Config, s: State) {
    && Shaped(cfg.spec, s.global)
    && forall w | 0 <= w < |s.tasks| :: ShapedTask(cfg.spec, s.tasks[w])
  }

  lemma ShapedWork(cfg: Config, s: State, w: nat, stale: bool)
    requires Enabled(cfg, s, Work(w, stale)) && ShapedState(cfg, s)
    ensures ShapedState(cfg, WorkStep(cfg, s, w, stale))
  {
    var t := WorkStep(cfg, s, w, stale);
    assert t.tasks == s.tasks[w := t.tasks[w]];
    assert ShapedTask(cfg.spec, s.tasks[w]);
    assert ShapedTask(cfg.spec, t.tasks[w]);
  }

  lemma ShapedMain(cfg: Config, s: State)
    requires Enabled(cfg, s, Main) && ShapedState(cfg, s)
    ensures ShapedState(cfg, MainStep(cfg, s))
  {
    var t := MainStep(cfg, s);
    forall w | 0 <= w < |t.tasks| ensures ShapedTask(cfg.spec, t.tasks[w]) {
      if w < |s.tasks| {
        assert ShapedTask(cfg.spec, s.tasks[w]);
      }
    }
  }

  lemma ShapedKept(cfg: Config, s: State, step: Step)
    requires Enabled(cfg, s, step) && ShapedState(cfg, s)
    ensures ShapedState(cfg, Apply(cfg, s, step))
  {
    match step
    case Work(w, stale) => ShapedWork(cfg, s, w, stale);
    case Main => ShapedMain(cfg, s);
    case TaskThrows(_) =>
    case SubmitThrows =>
  }

  lemma ShapedInitially(cfg: Config)
    ensures ShapedState(cfg, Initial(cfg))
  {
  }

  /** A run: every step possible when it is taken. */
  predicate IsRun(cfg: Config, s: State, steps: seq<Step>)
    requires ShapedState(cfg, s)
    decreases steps
  {
    steps != [] ==>
      && Enabled(cfg, s, steps[0])
      && (ShapedKept(cfg, s, steps[0]); IsRun(cfg, Apply(cfg, s, steps[0]), steps[1..]))
  }

  function After(cfg: Config, s: State, steps: seq<Step>): State
    requires ShapedState(cfg, s) && IsRun(cfg, s, steps)
    decreases steps
  {
    if steps == [] then s
    else ShapedKept(cfg, s, steps[0]); After(cfg, Apply(cfg, s, steps[0]), steps[1..])
  }
}
