/** What every schedule of ExecuteAggregate keeps, and what that makes of its result. */
module ParallelAggregateProofs {
  import opened Wrappers
  import opened Values
  import opened Expressions
  import opened GroupTables
  import opened ParallelScan
  import opened ParallelAggregate

  // ---------- Well-formed tables ----------

  predicate TypedTask(spec: AggSpec, schema: seq<DataType>, t: Task) {
    match t
    case Running(local, rest) => CanonicalGroups(spec, schema, local) && TypedRows(Concat(rest), schema)
    case Returned(local) => CanonicalGroups(spec, schema, local)
    case _ => true
  }

  predicate TypedTasks(spec: AggSpec, schema: seq<DataType>, tasks: seq<Task>) {
    forall w | 0 <= w < |tasks| :: TypedTask(spec, schema, tasks[w])
  }

  predicate TypedState(cfg: Config, s: State) {
    && TypedTasks(cfg.spec, cfg.schema, s.tasks)
    && CanonicalGroups(cfg.spec, cfg.schema, s.global) && cfg.spec.Start().Keys <= s.global.Keys
  }

  lemma TypedIsShaped(cfg: Config, s: State)
    requires TypedState(cfg, s)
    ensures ShapedState(cfg, s)
  {
    forall w | 0 <= w < |s.tasks| ensures ShapedTask(cfg.spec, s.tasks[w]) {
      assert TypedTask(cfg.spec, cfg.schema, s.tasks[w]);
    }
  }

  lemma StartCanonical(spec: AggSpec, schema: seq<DataType>)
    requires spec.Valid()
    ensures CanonicalGroups(spec, schema, spec.Start())
  {
    MakeStatesCanonical(spec, schema);
  }

  /** A table that already has the start groups absorbs one more worker's. */
  lemma StartAbsorbed(spec: AggSpec, schema: seq<DataType>, g: Groups)
    requires spec.Valid() && CanonicalGroups(spec, schema, g) && spec.Start().Keys <= g.Keys
    ensures Shaped(spec, spec.Start()) && MergeGroups(spec, g, spec.Start()) == g
  {
    var start := spec.Start();
    if spec.IsGlobal() {
      var none: Key := [];
      MakeStatesCanonical(spec, schema);
      assert none in g;
      MakeStatesIsUnit(spec, schema, g[none]);
      MergeCommutes(spec, schema, map[none := g[none]], start);
    }
  }

  lemma ConsumeKeepsType(spec: AggSpec, schema: seq<DataType>, local: Groups, rest: seq<seq<Row>>)
    requires spec.Valid() && TypedTask(spec, schema, Running(local, rest)) && rest != []
    ensures Concat(rest) == rest[0] + Concat(rest[1..])
    ensures TypedRows(rest[0], schema) && TypedRows(Concat(rest[1..]), schema)
    ensures AddRows(spec, local, rest[0]) == MergeOption(spec, Some(local), TableOf(spec, rest[0]))
    ensures CanonicalOption(spec, schema, AddRows(spec, local, rest[0]))
  {
    assert rest == [rest[0]] + rest[1..];
    ConcatPrepend(rest[0], rest[1..]);
    forall i | 0 <= i < |rest[0]| ensures TypedRow(rest[0][i], schema) {
      assert Concat(rest)[i] == rest[0][i];
    }
    forall i | 0 <= i < |Concat(rest[1..])| ensures TypedRow(Concat(rest[1..])[i], schema) {
      assert Concat(rest)[|rest[0]| + i] == Concat(rest[1..])[i];
    }
    AddRowsIsMerge(spec, schema, local, rest[0]);
  }

  lemma TypedWork(cfg: Config, s: State, w: nat, stale: bool)
    requires cfg.Valid() && TypedState(cfg, s) && Enabled(cfg, s, Work(w, stale)) && ShapedState(cfg, s)
    ensures TypedState(cfg, WorkStep(cfg, s, w, stale))
  {
    var t := WorkStep(cfg, s, w, stale);
    assert TypedTask(cfg.spec, cfg.schema, s.tasks[w]);
    if s.tasks[w].rest != [] {
      ConsumeKeepsType(cfg.spec, cfg.schema, s.tasks[w].local, s.tasks[w].rest);
    }
    assert t.tasks == s.tasks[w := t.tasks[w]];
    assert TypedTask(cfg.spec, cfg.schema, t.tasks[w]);
  }

  lemma TypedMain(cfg: Config, s: State)
    requires cfg.Valid() && TypedState(cfg, s) && Enabled(cfg, s, Main) && ShapedState(cfg, s)
    ensures TypedState(cfg, MainStep(cfg, s))
  {
    var t := MainStep(cfg, s);
    StartCanonical(cfg.spec, cfg.schema);
    if s.main.Collecting? && s.main.next < |s.tasks| {
      var k := s.main.next;
      assert TypedTask(cfg.spec, cfg.schema, s.tasks[k]);
      if s.tasks[k].Returned? {
        MergeKeepsCanonical(cfg.spec, cfg.schema, s.global, s.tasks[k].local);
      }
    }
  }

  lemma TypedKept(cfg: Config, s: State, step: Step)
    requires cfg.Valid() && TypedState(cfg, s) && ShapedState(cfg, s) && Enabled(cfg, s, step)
    ensures TypedState(cfg, Apply(cfg, s, step))
  {
    match step
    case Work(w, stale) => TypedWork(cfg, s, w, stale);
    case Main => TypedMain(cfg, s);
    case TaskThrows(_) =>
    case SubmitThrows =>
  }

  // ---------- Failure and cancellation ----------

  predicate SomeFailed(s: State) {
    exists w :: 0 <= w < |s.tasks| && s.tasks[w].Failed?
  }

  predicate CancelInv(cfg: Config, s: State) {
    && (s.cancelled ==> s.external || SomeFailed(s))
    && (s.external ==> s.submitError || SomeFailed(s))
    && (s.submitError ==> s.external)
    && (s.error ==> SomeFailed(s))
    && (forall w | 0 <= w < |s.tasks| && (s.tasks[w].Returned? || s.tasks[w].Collected?) ::
          s.cancelled || s.next >= |cfg.segments|)
  }

  /** What a turn of task `w` may change. */
  predicate TaskEffect(cfg: Config, s: State, w: nat, t: State) {
    && w < |s.tasks| == |t.tasks| && s.tasks[w].Running? && !t.tasks[w].Collected?
    && t.tasks == s.tasks[w := t.tasks[w]]
    && t.main == s.main && t.error == s.error && t.submitError == s.submitError && t.global == s.global
    && s.next <= t.next
    && (t.cancelled <==> s.cancelled || t.tasks[w].Failed?)
    && (s.external ==> t.external) && (t.external ==> s.external || t.tasks[w].Failed?)
    && (t.tasks[w].Returned? ==> t.cancelled || t.next >= |cfg.segments|)
  }

  lemma TaskStepEffect(cfg: Config, s: State, step: Step)
    requires ShapedState(cfg, s) && Enabled(cfg, s, step) && (step.Work? || step.TaskThrows?)
    ensures TaskEffect(cfg, s, step.w, Apply(cfg, s, step))
  {
    if step.Work? {
      WorkStepEffect(cfg, s, step.w, step.stale);
    }
  }

  lemma WorkStepEffect(cfg: Config, s: State, w: nat, stale: bool)
    requires w < |s.tasks| && s.tasks[w].Running? && Shaped(cfg.spec, s.tasks[w].local)
    ensures TaskEffect(cfg, s, w, WorkStep(cfg, s, w, stale))
  {
  }

  lemma CancelKeptByTask(cfg: Config, s: State, w: nat, t: State)
    requires CancelInv(cfg, s) && TaskEffect(cfg, s, w, t)
    ensures CancelInv(cfg, t)
    ensures SomeFailed(s) ==> SomeFailed(t)
  {
    assert forall v | 0 <= v < |s.tasks| && s.tasks[v].Failed? :: t.tasks[v].Failed?;
  }

  lemma CancelKeptByMain(cfg: Config, s: State)
    requires ShapedState(cfg, s) && CancelInv(cfg, s) && Enabled(cfg, s, Main)
    ensures CancelInv(cfg, MainStep(cfg, s))
    ensures SomeFailed(s) ==> SomeFailed(MainStep(cfg, s))
  {
    assert forall v | 0 <= v < |s.tasks| && s.tasks[v].Failed? :: MainStep(cfg, s).tasks[v].Failed?;
  }

  lemma CancelKept(cfg: Config, s: State, step: Step)
    requires ShapedState(cfg, s) && CancelInv(cfg, s) && Enabled(cfg, s, step)
    ensures CancelInv(cfg, Apply(cfg, s, step))
    ensures SomeFailed(s) ==> SomeFailed(Apply(cfg, s, step))
  {
    if step.Work? || step.TaskThrows? {
      TaskStepEffect(cfg, s, step);
      CancelKeptByTask(cfg, s, step.w, Apply(cfg, s, step));
    } else if step.Main? {
      CancelKeptByMain(cfg, s);
    }
  }

  /** How far the coordinator is. */
  predicate CollectedUpTo(cfg: Config, s: State, k: nat) {
    && k <= |s.tasks|
    && (forall w | 0 <= w < |s.tasks| :: s.tasks[w].Collected? ==> w < k)
    && (forall w | 0 <= w < k :: s.tasks[w].Collected? || (s.tasks[w].Failed? && s.error))
    && (!s.submitError ==> |s.tasks| == cfg.workers)
  }

  predicate PhaseInv(cfg: Config, s: State) {
    match s.main
    case Submitting =>
      !s.error && !s.submitError && |s.tasks| <= cfg.workers
      && forall w | 0 <= w < |s.tasks| :: !s.tasks[w].Collected?
    case Collecting(k) => CollectedUpTo(cfg, s, k)
    case Done(r) =>
      CollectedUpTo(cfg, s, |s.tasks|) && r == (if s.error || s.submitError then None else Some(s.global))
  }

  lemma PhaseKeptByTask(cfg: Config, s: State, w: nat, t: State)
    requires PhaseInv(cfg, s) && TaskEffect(cfg, s, w, t)
    ensures PhaseInv(cfg, t)
  {
  }

  lemma PhaseKeptByMain(cfg: Config, s: State)
    requires ShapedState(cfg, s) && PhaseInv(cfg, s) && Enabled(cfg, s, Main)
    ensures PhaseInv(cfg, MainStep(cfg, s))
  {
  }

  lemma PhaseKept(cfg: Config, s: State, step: Step)
    requires ShapedState(cfg, s) && PhaseInv(cfg, s) && Enabled(cfg, s, step)
    ensures PhaseInv(cfg, Apply(cfg, s, step))
  {
    if step.Work? || step.TaskThrows? {
      TaskStepEffect(cfg, s, step);
      PhaseKeptByTask(cfg, s, step.w, Apply(cfg, s, step));
    } else if step.Main? {
      PhaseKeptByMain(cfg, s);
    }
  }

  // ---------- The conserved total ----------

  /** What a task still has to deliver. */
  function Hold(spec: AggSpec, t: Task): (r: Option<Groups>)
    requires ShapedTask(spec, t)
    ensures r.Some? ==> Shaped(spec, r.value)
  {
    match t
    case Running(local, rest) => MergeOption(spec, Some(local), TableOf(spec, Concat(rest)))
    case Returned(local) => Some(local)
    case Failed => None
    case Collected => Some(map[])
  }

  function Holdings(spec: AggSpec, tasks: seq<Task>): (r: Option<Groups>)
    requires forall w | 0 <= w < |tasks| :: ShapedTask(spec, tasks[w])
    ensures r.Some? ==> Shaped(spec, r.value)
  {
    if tasks == [] then Some(map[])
    else MergeOption(spec, Holdings(spec, tasks[..|tasks| - 1]), Hold(spec, tasks[|tasks| - 1]))
  }

  function Unclaimed(cfg: Config, next: nat): seq<Row> {
    AllRows(cfg.segments[if next < |cfg.segments| then next else |cfg.segments|..])
  }

  /** The result so far, what the tasks hold and what nobody has claimed. */
  function Total(cfg: Config, s: State): Option<Groups>
    requires ShapedState(cfg, s)
  {
    MergeOption(cfg.spec, Some(s.global),
                MergeOption(cfg.spec, Holdings(cfg.spec, s.tasks), TableOf(cfg.spec, Unclaimed(cfg, s.next))))
  }

  lemma HoldCanonical(spec: AggSpec, schema: seq<DataType>, t: Task)
    requires spec.Valid() && TypedTask(spec, schema, t) && ShapedTask(spec, t)
    ensures CanonicalOption(spec, schema, Hold(spec, t))
  {
    if t.Running? {
      TableOfCanonical(spec, schema, Concat(t.rest));
      MergeOptionLaws(spec, schema, Some(t.local), TableOf(spec, Concat(t.rest)), None);
    }
  }

  lemma TypedTasksShaped(spec: AggSpec, schema: seq<DataType>, tasks: seq<Task>)
    requires TypedTasks(spec, schema, tasks)
    ensures forall w | 0 <= w < |tasks| :: ShapedTask(spec, tasks[w])
  {
    forall w | 0 <= w < |tasks| ensures ShapedTask(spec, tasks[w]) {
      assert TypedTask(spec, schema, tasks[w]);
    }
  }

  lemma {:induction false} HoldingsCanonical(spec: AggSpec, schema: seq<DataType>, tasks: seq<Task>)
    requires spec.Valid() && TypedTasks(spec, schema, tasks)
    ensures forall w | 0 <= w < |tasks| :: ShapedTask(spec, tasks[w])
    ensures CanonicalOption(spec, schema, Holdings(spec, tasks))
  {
    TypedTasksShaped(spec, schema, tasks);
    if tasks != [] {
      var n := |tasks| - 1;
      HoldingsCanonical(spec, schema, tasks[..n]);
      HoldCanonical(spec, schema, tasks[n]);
      MergeOptionLaws(spec, schema, Holdings(spec, tasks[..n]), Hold(spec, tasks[n]), None);
    }
  }

  lemma HoldingsSplit(spec: AggSpec, init: seq<Task>, last: Task)
    requires ShapedTask(spec, last) && forall v | 0 <= v < |init| :: ShapedTask(spec, init[v])
    ensures forall v | 0 <= v < |init + [last]| :: ShapedTask(spec, (init + [last])[v])
    ensures Holdings(spec, init + [last]) == MergeOption(spec, Holdings(spec, init), Hold(spec, last))
  {
    assert (init + [last])[..|init|] == init && (init + [last])[|init|] == last;
  }

  /** What the tasks hold when one of them has changed: the last one, or one before it. */
  lemma HoldingsUpdated(spec: AggSpec, tasks: seq<Task>, w: nat, t: Task)
    requires w < |tasks| && ShapedTask(spec, t) && forall v | 0 <= v < |tasks| :: ShapedTask(spec, tasks[v])
    ensures var n := |tasks| - 1;
            Holdings(spec, tasks[w := t]) ==
            if w == n then MergeOption(spec, Holdings(spec, tasks[..n]), Hold(spec, t))
            else MergeOption(spec, Holdings(spec, tasks[..n][w := t]), Hold(spec, tasks[n]))
  {
    var n := |tasks| - 1;
    if w == n {
      assert tasks[w := t] == tasks[..n] + [t];
      HoldingsSplit(spec, tasks[..n], t);
    } else {
      assert tasks[w := t] == tasks[..n][w := t] + [tasks[n]];
      HoldingsSplit(spec, tasks[..n][w := t], tasks[n]);
    }
  }

  /** Giving one task `d` more gives the tasks together `d` more. */
  lemma {:induction false} HoldingsGain(spec: AggSpec, schema: seq<DataType>, tasks: seq<Task>, w: nat, t: Task,
                                        d: Option<Groups>)
    requires spec.Valid() && TypedTasks(spec, schema, tasks) && TypedTask(spec, schema, t) && w < |tasks|
    requires forall v | 0 <= v < |tasks| :: ShapedTask(spec, tasks[v])
    requires ShapedTask(spec, t) && CanonicalOption(spec, schema, d)
    requires Hold(spec, t) == MergeOption(spec, Hold(spec, tasks[w]), d)
    ensures Holdings(spec, tasks[w := t]) == MergeOption(spec, Holdings(spec, tasks), d)
  {
    var n := |tasks| - 1;
    var init, last := tasks[..n], tasks[n];
    HoldingsCanonical(spec, schema, init);
    HoldCanonical(spec, schema, last);
    HoldingsUpdated(spec, tasks, w, t);
    if w == n {
      MergeOptionLaws(spec, schema, Holdings(spec, init), Hold(spec, last), d);
    } else {
      HoldingsGain(spec, schema, init, w, t, d);
      MergeSwaps(spec, schema, Holdings(spec, init), d, Hold(spec, last));
    }
  }

  lemma MergeSwaps(spec: AggSpec, schema: seq<DataType>, f: Option<Groups>, g: Option<Groups>, h: Option<Groups>)
    requires CanonicalOption(spec, schema, f) && CanonicalOption(spec, schema, g) && CanonicalOption(spec, schema, h)
    ensures CanonicalOption(spec, schema, MergeOption(spec, f, g))
    ensures MergeOption(spec, MergeOption(spec, f, g), h) == MergeOption(spec, MergeOption(spec, f, h), g)
  {
    MergeOptionLaws(spec, schema, f, g, h);
    MergeOptionLaws(spec, schema, g, h, None);
    MergeOptionLaws(spec, schema, f, h, g);
  }

  lemma {:induction false} HoldingsOfFailed(spec: AggSpec, tasks: seq<Task>, w: nat)
    requires forall v | 0 <= v < |tasks| :: ShapedTask(spec, tasks[v])
    requires w < |tasks| && tasks[w].Failed?
    ensures Holdings(spec, tasks).None?
  {
    if w < |tasks| - 1 {
      HoldingsOfFailed(spec, tasks[..|tasks| - 1], w);
    }
  }

  lemma {:induction false} HoldingsOfCollected(spec: AggSpec, tasks: seq<Task>)
    requires forall w | 0 <= w < |tasks| :: tasks[w].Collected?
    ensures Holdings(spec, tasks) == Some(map[])
  {
    if tasks != [] {
      HoldingsOfCollected(spec, tasks[..|tasks| - 1]);
    }
  }

  lemma {:induction false} UnclaimedTyped(cfg: Config, next: nat)
    requires cfg.Valid()
    ensures TypedRows(Unclaimed(cfg, next), cfg.schema)
    decreases |cfg.segments| - next
  {
    if next < |cfg.segments| {
      UnclaimedTyped(cfg, next + 1);
      assert cfg.segments[next..][1..] == cfg.segments[next + 1..];
    }
  }

  lemma UnclaimedStep(cfg: Config, next: nat)
    requires cfg.Valid() && next < |cfg.segments|
    ensures CanonicalOption(cfg.spec, cfg.schema, TableOf(cfg.spec, Concat(cfg.segments[next])))
    ensures CanonicalOption(cfg.spec, cfg.schema, TableOf(cfg.spec, Unclaimed(cfg, next + 1)))
    ensures TableOf(cfg.spec, Unclaimed(cfg, next))
            == MergeOption(cfg.spec, TableOf(cfg.spec, Concat(cfg.segments[next])),
                           TableOf(cfg.spec, Unclaimed(cfg, next + 1)))
  {
    UnclaimedTyped(cfg, next + 1);
    assert cfg.segments[next..][1..] == cfg.segments[next + 1..];
    TableOfConcat(cfg.spec, cfg.schema, Concat(cfg.segments[next]), Unclaimed(cfg, next + 1));
    TableOfCanonical(cfg.spec, cfg.schema, Concat(cfg.segments[next]));
    TableOfCanonical(cfg.spec, cfg.schema, Unclaimed(cfg, next + 1));
  }

  // ---------- Every step conserves it ----------

  predicate Ready(cfg: Config, s: State) {
    TypedState(cfg, s) && ShapedState(cfg, s)
  }

  /** The task that consumes a batch, or throws on it, or returns, holds what it held. */
  lemma HoldKept(spec: AggSpec, schema: seq<DataType>, local: Groups, rest: seq<seq<Row>>)
    requires spec.Valid() && TypedTask(spec, schema, Running(local, rest))
    ensures rest == [] ==> Hold(spec, Running(local, rest)) == Some(local)
    ensures rest != [] && AddRows(spec, local, rest[0]).None? ==> Hold(spec, Running(local, rest)) == None
    ensures rest != [] && AddRows(spec, local, rest[0]).Some? ==>
              Hold(spec, Running(local, rest)) == Hold(spec, Running(AddRows(spec, local, rest[0]).value, rest[1..]))
  {
    if rest == [] {
      MergeOptionLaws(spec, schema, Some(local), None, None);
    } else {
      ConsumeKeepsType(spec, schema, local, rest);
      TableOfConcat(spec, schema, rest[0], Concat(rest[1..]));
      TableOfCanonical(spec, schema, rest[0]);
      TableOfCanonical(spec, schema, Concat(rest[1..]));
      MergeOptionLaws(spec, schema, Some(local), TableOf(spec, rest[0]), TableOf(spec, Concat(rest[1..])));
    }
  }

  lemma ConservedByConsume(cfg: Config, s: State, w: nat)
    requires cfg.Valid() && Ready(cfg, s) && w < |s.tasks| && s.tasks[w].Running? && !s.cancelled
    requires s.tasks[w].rest != [] || s.next >= |cfg.segments|
    ensures var t := WorkStep(cfg, s, w, false);
            ShapedState(cfg, t) && Total(cfg, t) == Total(cfg, s)
  {
    var t := WorkStep(cfg, s, w, false);
    ShapedWork(cfg, s, w, false);
    TypedWork(cfg, s, w, false);
    var task := s.tasks[w];
    assert TypedTask(cfg.spec, cfg.schema, task) && TypedTask(cfg.spec, cfg.schema, t.tasks[w]);
    assert ShapedTask(cfg.spec, task) && ShapedTask(cfg.spec, t.tasks[w]);
    HoldKept(cfg.spec, cfg.schema, task.local, task.rest);
    HoldCanonical(cfg.spec, cfg.schema, task);
    HoldingsCanonical(cfg.spec, cfg.schema, s.tasks);
    MergeOptionLaws(cfg.spec, cfg.schema, Hold(cfg.spec, task), None, None);
    MergeOptionLaws(cfg.spec, cfg.schema, Holdings(cfg.spec, s.tasks), None, None);
    HoldingsGain(cfg.spec, cfg.schema, s.tasks, w, t.tasks[w], Some(map[]));
    assert t.tasks == s.tasks[w := t.tasks[w]];
  }

  lemma ConservedByClaim(cfg: Config, s: State, w: nat)
    requires cfg.Valid() && Ready(cfg, s) && w < |s.tasks| && s.tasks[w].Running? && !s.cancelled
    requires s.tasks[w].rest == [] && s.next < |cfg.segments|
    ensures var t := WorkStep(cfg, s, w, false);
            ShapedState(cfg, t) && Total(cfg, t) == Total(cfg, s)
  {
    var t := WorkStep(cfg, s, w, false);
    ShapedWork(cfg, s, w, false);
    TypedWork(cfg, s, w, false);
    var task := s.tasks[w];
    assert TypedTask(cfg.spec, cfg.schema, task) && TypedTask(cfg.spec, cfg.schema, t.tasks[w]);
    assert ShapedTask(cfg.spec, task) && ShapedTask(cfg.spec, t.tasks[w]);
    HoldKept(cfg.spec, cfg.schema, task.local, task.rest);
    UnclaimedStep(cfg, s.next);
    HoldingsCanonical(cfg.spec, cfg.schema, s.tasks);
    var segment := TableOf(cfg.spec, Concat(cfg.segments[s.next]));
    HoldingsGain(cfg.spec, cfg.schema, s.tasks, w, t.tasks[w], segment);
    MergeOptionLaws(cfg.spec, cfg.schema, Holdings(cfg.spec, s.tasks), segment,
                    TableOf(cfg.spec, Unclaimed(cfg, s.next + 1)));
  }

  lemma ConservedBySubmit(cfg: Config, s: State)
    requires cfg.Valid() && Ready(cfg, s) && s.main.Submitting? && |s.tasks| < cfg.workers
    ensures var t := MainStep(cfg, s);
            ShapedState(cfg, t) && Total(cfg, t) == Total(cfg, s)
  {
    var t := MainStep(cfg, s);
    ShapedMain(cfg, s);
    var start := cfg.spec.Start();
    StartCanonical(cfg.spec, cfg.schema);
    HoldKept(cfg.spec, cfg.schema, start, []);
    assert t.tasks[..|s.tasks|] == s.tasks;
    HoldingsCanonical(cfg.spec, cfg.schema, s.tasks);
    UnclaimedTyped(cfg, s.next);
    TableOfCanonical(cfg.spec, cfg.schema, Unclaimed(cfg, s.next));
    StartAbsorbed(cfg.spec, cfg.schema, s.global);
    var g, h, u := Some(s.global), Holdings(cfg.spec, s.tasks), TableOf(cfg.spec, Unclaimed(cfg, s.next));
    MergeMovesOut(cfg.spec, cfg.schema, g, Some(start), h, u);
  }

  lemma ConservedByCollect(cfg: Config, s: State, k: nat)
    requires cfg.Valid() && Ready(cfg, s) && s.main == Collecting(k) && k < |s.tasks| && s.tasks[k].Returned?
    requires !s.submitError
    ensures var t := MainStep(cfg, s);
            ShapedState(cfg, t) && Total(cfg, t) == Total(cfg, s)
  {
    var t := MainStep(cfg, s);
    ShapedMain(cfg, s);
    TypedMain(cfg, s);
    var task := s.tasks[k];
    assert TypedTask(cfg.spec, cfg.schema, task);
    HoldingsCanonical(cfg.spec, cfg.schema, t.tasks);
    UnclaimedTyped(cfg, s.next);
    TableOfCanonical(cfg.spec, cfg.schema, Unclaimed(cfg, s.next));
    var g, l, h, u := Some(s.global), Some(task.local), Holdings(cfg.spec, t.tasks),
                      TableOf(cfg.spec, Unclaimed(cfg, s.next));
    MergeOptionLaws(cfg.spec, cfg.schema, l, Some(map[]), None);
    HoldingsGain(cfg.spec, cfg.schema, t.tasks, k, task, l);
    assert t.tasks[k := task] == s.tasks;
    MergeMovesOut(cfg.spec, cfg.schema, g, l, h, u);
  }

  lemma MergeMovesOut(spec: AggSpec, schema: seq<DataType>, g: Option<Groups>, l: Option<Groups>, h: Option<Groups>,
                      u: Option<Groups>)
    requires CanonicalOption(spec, schema, g) && CanonicalOption(spec, schema, l)
    requires CanonicalOption(spec, schema, h) && CanonicalOption(spec, schema, u)
    ensures MergeOption(spec, g, MergeOption(spec, MergeOption(spec, h, l), u))
            == MergeOption(spec, MergeOption(spec, g, l), MergeOption(spec, h, u))
  {
    MergeOptionLaws(spec, schema, l, h, u);
    MergeOptionLaws(spec, schema, h, l, None);
    MergeOptionLaws(spec, schema, h, u, None);
    MergeOptionLaws(spec, schema, g, l, MergeOption(spec, h, u));
  }

  lemma TotalOfFailed(cfg: Config, s: State)
    requires ShapedState(cfg, s) && SomeFailed(s)
    ensures Total(cfg, s).None?
  {
    var w :| 0 <= w < |s.tasks| && s.tasks[w].Failed?;
    HoldingsOfFailed(cfg.spec, s.tasks, w);
  }

  lemma ConservedKept(cfg: Config, s: State, step: Step)
    requires cfg.Valid() && Ready(cfg, s) && CancelInv(cfg, s) && Enabled(cfg, s, step)
    ensures ShapedState(cfg, Apply(cfg, s, step))
    ensures !Apply(cfg, s, step).external ==> Total(cfg, Apply(cfg, s, step)) == Total(cfg, s)
  {
    var t := Apply(cfg, s, step);
    ShapedKept(cfg, s, step);
    CancelKept(cfg, s, step);
    if t.external {
    } else if SomeFailed(s) {
      TotalOfFailed(cfg, s);
      TotalOfFailed(cfg, t);
    } else if step.Work? {
      assert t == WorkStep(cfg, s, step.w, false);
      if s.tasks[step.w].rest != [] || s.next >= |cfg.segments| {
        ConservedByConsume(cfg, s, step.w);
      } else {
        ConservedByClaim(cfg, s, step.w);
      }
    } else if s.main.Submitting? && |s.tasks| < cfg.workers {
      ConservedBySubmit(cfg, s);
    } else if s.main.Collecting? && s.main.next < |s.tasks| && s.tasks[s.main.next].Returned? {
      ConservedByCollect(cfg, s, s.main.next);
    }
  }

  // ---------- Runs ----------

  predicate Inv(cfg: Config, s: State) {
    && Ready(cfg, s) && CancelInv(cfg, s) && PhaseInv(cfg, s)
    && Shaped(cfg.spec, cfg.spec.Start())
    && (!s.external ==> Total(cfg, s) == cfg.Serial())
  }

  lemma InvInitially(cfg: Config)
    requires cfg.Valid()
    ensures Inv(cfg, Initial(cfg))
  {
    var s, start := Initial(cfg), cfg.spec.Start();
    StartCanonical(cfg.spec, cfg.schema);
    assert TypedState(cfg, s);
    TypedIsShaped(cfg, s);
    UnclaimedTyped(cfg, 0);
    assert cfg.segments[0..] == cfg.segments;
    AddRowsIsMerge(cfg.spec, cfg.schema, start, AllRows(cfg.segments));
    TableOfCanonical(cfg.spec, cfg.schema, AllRows(cfg.segments));
    MergeOptionLaws(cfg.spec, cfg.schema, TableOf(cfg.spec, AllRows(cfg.segments)), Some(map[]), None);
  }

  lemma InvKept(cfg: Config, s: State, step: Step)
    requires cfg.Valid() && Inv(cfg, s) && Enabled(cfg, s, step)
    ensures Inv(cfg, Apply(cfg, s, step))
  {
    var t := Apply(cfg, s, step);
    assert Ready(cfg, t) by {
      ShapedKept(cfg, s, step);
      TypedKept(cfg, s, step);
    }
    assert CancelInv(cfg, t) by { CancelKept(cfg, s, step); }
    assert PhaseInv(cfg, t) by { PhaseKept(cfg, s, step); }
    assert !t.external ==> Total(cfg, t) == Total(cfg, s) by { ConservedKept(cfg, s, step); }
    assert s.external ==> t.external by { ExternalKept(cfg, s, step); }
  }

  lemma ExternalKept(cfg: Config, s: State, step: Step)
    requires ShapedState(cfg, s) && Enabled(cfg, s, step)
    ensures Apply(cfg, s, step).external == (s.external || step.TaskThrows? || step.SubmitThrows?)
  {
  }

  lemma {:induction false} InvAfter(cfg: Config, s: State, steps: seq<Step>)
    requires cfg.Valid() && Inv(cfg, s) && IsRun(cfg, s, steps)
    ensures Inv(cfg, After(cfg, s, steps))
    decreases steps
  {
    if steps != [] {
      InvKept(cfg, s, steps[0]);
      InvAfter(cfg, Apply(cfg, s, steps[0]), steps[1..]);
    }
  }

  lemma DoneIsSerial(cfg: Config, s: State)
    requires cfg.Valid() && Inv(cfg, s) && s.main.Done?
    ensures s.main.result.Some? ==> !s.external
    ensures !s.external ==> s.main.result == cfg.Serial()
  {
    if s.error {
      if !s.external { TotalOfFailed(cfg, s); }
    } else if !s.submitError {
      assert !SomeFailed(s);
      assert s.tasks[0].Collected?;
      assert s.next >= |cfg.segments|;
      HoldingsOfCollected(cfg.spec, s.tasks);
      MergeOptionLaws(cfg.spec, cfg.schema, Some(s.global), None, None);
      MergeOptionLaws(cfg.spec, cfg.schema, Some(map[]), None, None);
    }
  }

  /**
   * For every assignment of segments to workers and every interleaving: what ExecuteAggregate returns
   * is the table of one serial Consume after another. A failed or cancelled run never returns one.
   */
  lemma ParallelIsSerial(cfg: Config, steps: seq<Step>)
    requires cfg.Valid() && (ShapedInitially(cfg); IsRun(cfg, Initial(cfg), steps))
    ensures ShapedState(cfg, Initial(cfg))
    ensures var main := After(cfg, Initial(cfg), steps).main;
            main.Done? && main.result.Some? ==> main.result == cfg.Serial()
  {
    ShapedInitially(cfg);
    InvInitially(cfg);
    InvAfter(cfg, Initial(cfg), steps);
    var s := After(cfg, Initial(cfg), steps);
    if s.main.Done? {
      DoneIsSerial(cfg, s);
    }
  }

  /** A step that throws for a reason of its own, not over a row. */
  predicate ThrowsItself(step: Step) {
    step.TaskThrows? || step.SubmitThrows?
  }

  /** The parallel form throws exactly if one of its steps throws by itself, or the serial form throws. */
  lemma ThrowsIffSerialThrows(cfg: Config, steps: seq<Step>)
    requires cfg.Valid() && (ShapedInitially(cfg); IsRun(cfg, Initial(cfg), steps))
    ensures ShapedState(cfg, Initial(cfg))
    ensures var main := After(cfg, Initial(cfg), steps).main;
            main.Done? ==>
              main.result == if exists i :: 0 <= i < |steps| && ThrowsItself(steps[i]) then None else cfg.Serial()
  {
    ShapedInitially(cfg);
    InvInitially(cfg);
    InvAfter(cfg, Initial(cfg), steps);
    ExternalIff(cfg, Initial(cfg), steps);
    var s := After(cfg, Initial(cfg), steps);
    if s.main.Done? {
      DoneIsSerial(cfg, s);
    }
  }

  lemma {:induction false} ExternalIff(cfg: Config, s: State, steps: seq<Step>)
    requires ShapedState(cfg, s) && IsRun(cfg, s, steps)
    ensures After(cfg, s, steps).external <==> s.external || exists i :: 0 <= i < |steps| && ThrowsItself(steps[i])
    decreases steps
  {
    if steps != [] {
      ShapedKept(cfg, s, steps[0]);
      ExternalKept(cfg, s, steps[0]);
      ExternalIff(cfg, Apply(cfg, s, steps[0]), steps[1..]);
      assert forall i | 1 <= i < |steps| :: steps[i] == steps[1..][i - 1];
    }
  }
}
