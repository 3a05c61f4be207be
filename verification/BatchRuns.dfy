/** What every step of the file batch engine keeps, and what follows for whole runs. */
module BatchRuns {
  import opened Prelude
  import opened BatchEngine

  // ---------- the invariant ----------

  function TasksOf(outcomes: seq<Outcome>): seq<Task> {
    seq(|outcomes|, i requires 0 <= i < |outcomes| => outcomes[i].task)
  }

  function FailedOf(outcomes: seq<Outcome>): seq<Task> {
    if outcomes == [] then [] else
      var last := outcomes[|outcomes| - 1];
      FailedOf(outcomes[..|outcomes| - 1]) + if last.ok then [] else [last.task]
  }

  predicate Active(w: World) {
    !w.kind.NoBatch?
  }

  /** Only progress callbacks, of what was taken last. */
  predicate ProgressOnly(w: World, queue: seq<Callback>) {
    forall i :: 0 <= i < |queue| ==> queue[i].Progressed? && queue[i].base == w.history.base
  }

  /** A task between being taken and its completion callback: worked on, or its completion is last in the queue. */
  predicate Pending(w: World, task: Task) {
    if w.worker.Working? then
      w.worker == Working(w.kind, task, w.history.base) && ProgressOnly(w, w.queue)
    else
      && w.worker.Resting?
      && w.queue != []
      && ProgressOnly(w, w.queue[..|w.queue| - 1])
      && var last := w.queue[|w.queue| - 1]; last.Settled? && last.kind == w.kind && last.task == task
  }

  /** At most one worker; the flags say exactly what is under way; nothing is under way without a batch. */
  predicate OneThingAtATime(w: World) {
    && !(w.inFlight && w.preparing)
    && (w.preparing ==>
        || (w.worker.Estimating? && w.queue == [])
        || (w.worker.Resting? && |w.queue| == 1 && w.queue[0].Prepared? && w.queue[0].totalBytes >= 0))
    && (w.inFlight ==> w.history.taken != [] && Pending(w, w.history.taken[|w.history.taken| - 1]) && 0 <= w.history.base <= w.current)
    && (!w.preparing && !w.inFlight ==> w.worker.Resting? && w.queue == [])
    && (w.preparing ==> Transfers(w.kind) && w.history.outcomes == [] && !w.totalIsBytes)
    && (w.timerOn ==> Active(w) && !w.preparing && !w.inFlight)
    && (w.phase.Preparing? ==> w.preparing)
  }

  /** Settled tasks, the one in flight and the remaining ones are the given list, in its order. */
  predicate Accounted(w: World) {
    && Active(w)
    && w.history.given == w.history.taken + w.tasks
    && |w.history.taken| == |w.history.outcomes| + (if w.inFlight then 1 else 0)
    && TasksOf(w.history.outcomes) == w.history.taken[..|w.history.outcomes|]
    && w.failed == FailedOf(w.history.outcomes)
  }

  predicate Counted(w: World) {
    && 0 <= w.current <= w.total
    && (if w.totalIsBytes then w.total > 0 && Transfers(w.kind) else w.current == |w.history.outcomes| && w.total == |w.history.given|)
  }

  predicate AtRest(w: World) {
    w == Cleared(w)
  }

  /** A batch that is neither paused nor busy has a step scheduled. */
  predicate Scheduled(w: World) {
    Active(w) && !w.paused && !w.inFlight && !w.preparing ==> w.timerOn || w.shots > 0
  }

  predicate Consistent(w: World) {
    && OneThingAtATime(w)
    && (if Active(w) then Accounted(w) && Counted(w) else AtRest(w))
    && w.history.started == |w.history.finishes| + (if Active(w) then 1 else 0)
  }

  predicate Inv(w: World) {
    Consistent(w) && Scheduled(w)
  }

  lemma InitialInv()
    ensures Inv(INITIAL)
  {
  }

  lemma StartKeepsInv(w: World, kind: Kind, tasks: seq<Task>)
    requires Inv(w) && !kind.NoBatch?
    ensures Inv(StartBatch(w, kind, tasks))
  {
  }

  lemma FinishKeepsInv(w: World, ok: bool, error: Error)
    requires w.worker.Resting? && w.queue == [] && w.history.started == |w.history.finishes| + 1
    ensures Inv(FinishBatch(w, ok, error))
  {
  }

  lemma TakeKeepsInv(w: World)
    requires Consistent(w) && Active(w) && !w.inFlight && !w.preparing && w.tasks != []
    ensures Inv(TakeTask(w))
  {
    hide TasksOf, FailedOf;
    var w' := TakeTask(w);
    assert w'.history.taken[..|w.history.outcomes|] == w.history.taken;
    assert w.history.given == w'.history.taken + w'.tasks;
  }

  lemma StepKeepsInv(w: World)
    requires Consistent(w)
    ensures Inv(ProcessStep(w))
  {
    hide TakeTask, FinishBatch, Accounted, Counted;
    if Active(w) && !w.inFlight && !w.preparing {
      FinishKeepsInv(w, false, Cancelled);
      FinishKeepsInv(w, true, NoError);
      if w.tasks != [] {
        TakeKeepsInv(w);
      }
    }
  }

  lemma PreparedKeepsInv(w: World, sizeNow: int)
    requires Inv(w) && w.queue != [] && w.queue[0].Prepared?
    ensures Inv(Next(w, Deliver(sizeNow)))
  {
    OnlyPrepared(w);
  }

  lemma OnlyPrepared(w: World)
    requires OneThingAtATime(w) && w.queue != [] && w.queue[0].Prepared?
    ensures w.preparing && w.worker.Resting? && w.queue[1..] == [] && w.queue[0].totalBytes >= 0
  {
  }

  lemma ProgressKeepsInv(w: World, sizeNow: int)
    requires Inv(w) && w.queue != [] && w.queue[0].Progressed?
    ensures Inv(Next(w, Deliver(sizeNow)))
  {
    var w' := Next(w, Deliver(sizeNow));
    if w.worker.Resting? {
      assert |w.queue| > 1;
      assert w.queue[..|w.queue| - 1][0] == w.queue[0];
      assert w'.queue[..|w'.queue| - 1] == w.queue[..|w.queue| - 1][1..];
    }
  }

  lemma OnlySettled(w: World)
    requires OneThingAtATime(w) && w.queue != [] && w.queue[0].Settled?
    ensures w.inFlight && w.worker.Resting? && w.queue == [w.queue[0]]
    ensures w.queue[0].kind == w.kind && w.history.taken != [] && w.queue[0].task == w.history.taken[|w.history.taken| - 1]
  {
  }

  lemma OutcomesOneMore(outcomes: seq<Outcome>, task: Task, ok: bool)
    ensures var more := outcomes + [Outcome(task, ok)];
            && TasksOf(more) == TasksOf(outcomes) + [task]
            && FailedOf(more) == FailedOf(outcomes) + if ok then [] else [task]
  {
    var more := outcomes + [Outcome(task, ok)];
    assert more[..|more| - 1] == outcomes;
  }

  /** The settled task joins the others. */
  lemma CountKeepsAccounted(w: World, task: Task, ok: bool, bytesTotal: int, sizeNow: int)
    requires Accounted(w) && w.inFlight && task == w.history.taken[|w.history.taken| - 1]
    ensures Accounted(CountTask(w.(queue := [], inFlight := false), w.kind, task, ok, bytesTotal, sizeNow))
  {
    hide TasksOf, FailedOf, ByteStep;
    var taken, n := w.history.taken, |w.history.outcomes|;
    OutcomesOneMore(w.history.outcomes, task, ok);
    assert taken == taken[..n] + [task];
    assert taken[..n + 1] == taken;
  }

  lemma CountKeepsCounted(w: World, task: Task, ok: bool, bytesTotal: int, sizeNow: int)
    requires Accounted(w) && Counted(w) && w.inFlight
    ensures Counted(CountTask(w.(queue := [], inFlight := false), w.kind, task, ok, bytesTotal, sizeNow))
  {
    hide TasksOf, FailedOf, ByteStep;
  }

  lemma CountKeepsAccount(w: World, task: Task, ok: bool, bytesTotal: int, sizeNow: int)
    requires Inv(w) && w.inFlight && w.queue != [] && w.queue[0].Settled? && task == w.queue[0].task
    ensures var w' := CountTask(w.(queue := [], inFlight := false), w.kind, task, ok, bytesTotal, sizeNow);
            Accounted(w') && Counted(w')
  {
    hide CountTask, Accounted, Counted;
    OnlySettled(w);
    SettledFacts(w);
    CountKeepsAccounted(w, task, ok, bytesTotal, sizeNow);
    CountKeepsCounted(w, task, ok, bytesTotal, sizeNow);
  }

  lemma AfterCountKeepsInv(w: World)
    requires Active(w) && !w.inFlight && !w.preparing && !w.timerOn && !w.phase.Preparing?
    requires w.worker.Resting? && w.queue == [] && w.history.started == |w.history.finishes| + 1
    requires Accounted(w) && Counted(w)
    ensures Inv(Continue(w))
  {
  }

  lemma SettledKeepsInv(w: World, sizeNow: int)
    requires Inv(w) && w.queue != [] && w.queue[0].Settled?
    ensures Inv(Next(w, Deliver(sizeNow)))
  {
    hide CountTask, Accounted, Counted, Inv, Consistent, OneThingAtATime, FinishBatch;
    var c := w.queue[0];
    SettledFacts(w);
    var mid := w.(queue := [], inFlight := false);
    CountKeepsAccount(w, c.task, c.ok, c.bytesTotal, sizeNow);
    CountChangesOnly(mid, w.kind, c.task, c.ok, c.bytesTotal, sizeNow);
    AfterCountKeepsInv(CountTask(mid, w.kind, c.task, c.ok, c.bytesTotal, sizeNow));
    assert w.queue[1..] == [];
  }

  lemma SettledFacts(w: World)
    requires Inv(w) && w.queue != [] && w.queue[0].Settled?
    ensures w.queue == [w.queue[0]] && w.queue[0].kind == w.kind && w.inFlight && w.worker.Resting?
    ensures !w.timerOn && !w.preparing && !w.phase.Preparing? && Active(w) && w.history.started == |w.history.finishes| + 1
  {
  }

  lemma WorkKeepsInv(w: World, s: Step)
    requires Inv(w) && Enabled(w, s) && (s.EstimateDone? || s.Report? || s.TaskDone?)
    ensures Inv(Next(w, s))
  {
    var w' := Next(w, s);
    if s.TaskDone? {
      assert w'.queue[..|w'.queue| - 1] == w.queue;
    }
  }

  lemma StepsKeepInv(w: World)
    requires Inv(w)
    ensures Inv(ProcessStep(w)) && (w.shots > 0 ==> Inv(ProcessStep(w.(shots := w.shots - 1))))
  {
    hide ProcessStep;
    StepKeepsInv(w);
    if w.shots > 0 {
      StepKeepsInv(w.(shots := w.shots - 1));
    }
  }

  lemma CancelKeepsInv(w: World)
    requires Inv(w)
    ensures Inv(CancelBatch(w))
  {
  }

  lemma PauseKeepsInv(w: World)
    requires Inv(w)
    ensures Inv(PauseBatch(w))
  {
  }

  lemma ResumeKeepsInv(w: World)
    requires Inv(w)
    ensures Inv(ResumeBatch(w))
  {
  }

  /** The invariant is kept by every step the system can take. */
  lemma NextKeepsInv(w: World, s: Step)
    requires Inv(w) && Enabled(w, s)
    ensures Inv(Next(w, s))
  {
    hide Inv, StartBatch, RequestBatch, CancelBatch, PauseBatch, ResumeBatch, ProcessStep, Handle;
    match s
    case Start(kind, tasks, overwrite) =>
      RequestIsStart(w, kind, tasks, overwrite);
      StartKeepsInv(w, kind, tasks);
    case Cancel =>
      CancelKeepsInv(w);
    case Pause =>
      PauseKeepsInv(w);
    case Resume =>
      ResumeKeepsInv(w);
    case TimerTick =>
      StepsKeepInv(w);
    case SingleShot =>
      StepsKeepInv(w);
    case Deliver(sizeNow) =>
      match w.queue[0] {
        case Prepared(_) => PreparedKeepsInv(w, sizeNow);
        case Progressed(_, _, _) => ProgressKeepsInv(w, sizeNow);
        case Settled(_, _, _, _) => SettledKeepsInv(w, sizeNow);
      }
    case _ =>
      WorkKeepsInv(w, s);
  }

  // ---------- whole runs ----------

  predicate IsRun(w: World, steps: seq<Step>)
    decreases |steps|
  {
    steps == [] || (Enabled(w, steps[0]) && IsRun(Next(w, steps[0]), steps[1..]))
  }

  function After(w: World, steps: seq<Step>): World
    requires IsRun(w, steps)
    decreases |steps|
  {
    if steps == [] then w else After(Next(w, steps[0]), steps[1..])
  }

  lemma {:induction false} RunKeepsInv(w: World, steps: seq<Step>)
    requires Inv(w) && IsRun(w, steps)
    ensures Inv(After(w, steps))
    decreases |steps|
  {
    if steps != [] {
      NextKeepsInv(w, steps[0]);
      RunKeepsInv(Next(w, steps[0]), steps[1..]);
    }
  }

  function InFlightTasks(w: World): seq<Task> {
    if w.inFlight && w.history.taken != [] then [w.history.taken[|w.history.taken| - 1]] else []
  }

  /** In every interleaving: one worker at most, and what it does is what the flags say; no callback outlives its
      batch; every task of the batch is settled, in flight or still to come, in the given order; progress is in range. */
  lemma WholeRun(steps: seq<Step>)
    requires IsRun(INITIAL, steps)
    ensures var w := After(INITIAL, steps);
            && (w.worker.Working? ==> w.inFlight) && (w.worker.Estimating? ==> w.preparing)
            && !(w.inFlight && w.preparing)
            && (w.inFlight <==> w.worker.Working? || exists c :: c in w.queue && c.Settled?)
            && (!Active(w) ==> w.worker.Resting? && w.queue == [])
            && (Active(w) ==> w.history.given == TasksOf(w.history.outcomes) + InFlightTasks(w) + w.tasks)
            && 0 <= w.current <= w.total
  {
    InitialInv();
    RunKeepsInv(INITIAL, steps);
    var w := After(INITIAL, steps);
    if w.inFlight {
      assert w.history.taken == w.history.taken[..|w.history.outcomes|] + [w.history.taken[|w.history.outcomes|]];
      if w.worker.Resting? {
        assert w.queue[|w.queue| - 1] in w.queue;
      }
    }
  }

  lemma OnlyTakingStarts(w: World)
    requires Inv(w) && ProcessStep(w).worker != w.worker
    ensures w.worker.Resting? && w.queue == [] && ProcessStep(w).queue == []
  {
    hide FinishBatch, Accounted, Counted;
    FinishChangesNoWorker(w, false, Cancelled);
    FinishChangesNoWorker(w, true, NoError);
  }

  lemma FinishChangesNoWorker(w: World, ok: bool, error: Error)
    ensures FinishBatch(w, ok, error).worker == w.worker && FinishBatch(w, ok, error).queue == w.queue
  {
  }

  lemma InactiveIsQuiet(w: World, kind: Kind, tasks: seq<Task>)
    requires Inv(w) && !kind.NoBatch? && StartBatch(w, kind, tasks).worker != w.worker
    ensures w.worker.Resting? && w.queue == [] && StartBatch(w, kind, tasks).queue == []
  {
    hide Accounted, Counted;
  }

  /** A worker is only started when none is under way and no callback of an earlier one is left. */
  lemma WorkersStartAlone(w: World, s: Step)
    requires Inv(w) && Enabled(w, s) && !Next(w, s).worker.Resting? && Next(w, s).worker != w.worker
    ensures w.worker.Resting? && w.queue == [] && Next(w, s).queue == [] && (s.Start? || s.TimerTick? || s.SingleShot?)
  {
    hide Handle, Inv, ProcessStep, StartBatch, RequestBatch;
    match s
    case Start(kind, tasks, overwrite) =>
      RequestIsStart(w, kind, tasks, overwrite);
      InactiveIsQuiet(w, kind, tasks);
    case TimerTick =>
      OnlyTakingStarts(w);
    case SingleShot =>
      FewerShotsOnlyTakingStarts(w);
    case Deliver(sizeNow) =>
      DeliverEffect(w, sizeNow);
    case _ =>
  }

  lemma FewerShotsOnlyTakingStarts(w: World)
    requires Inv(w) && w.shots > 0 && ProcessStep(w.(shots := w.shots - 1)).worker != w.worker
    ensures w.worker.Resting? && w.queue == [] && ProcessStep(w.(shots := w.shots - 1)).queue == []
  {
    hide FinishBatch, Accounted, Counted;
    var w1 := w.(shots := w.shots - 1);
    FinishChangesNoWorker(w1, false, Cancelled);
    FinishChangesNoWorker(w1, true, NoError);
  }

  /** Every batch that is started and no longer active has been reported finished, exactly once. */
  lemma FinishesMatchStarts(w: World, steps: seq<Step>)
    requires Inv(w) && IsRun(w, steps)
    ensures var w' := After(w, steps);
            w'.history.started == |w'.history.finishes| + if Active(w') then 1 else 0
  {
    RunKeepsInv(w, steps);
  }

  predicate AllOk(outcomes: seq<Outcome>) {
    forall o :: o in outcomes ==> o.ok
  }

  lemma {:induction false} NoneFailed(outcomes: seq<Outcome>)
    ensures FailedOf(outcomes) == [] <==> AllOk(outcomes)
  {
    if outcomes != [] {
      var front, last := outcomes[..|outcomes| - 1], outcomes[|outcomes| - 1];
      NoneFailed(front);
      assert outcomes == front + [last];
      assert last in outcomes;
    }
  }

  /** The batch as it stands when it is reported finished. */
  predicate Finishing(v: World) {
    && Active(v) && !v.inFlight && !v.preparing && v.worker.Resting? && v.queue == []
    && Accounted(v) && Counted(v)
    && (v.cancelRequested || v.tasks == [])
  }

  function Finished(v: World): World {
    if v.cancelRequested then FinishBatch(v, false, Cancelled) else FinishBatch(v, true, NoError)
  }

  /** Reports come from a batch with nothing under way. */
  lemma ReportsComeLast(w: World, s: Step) returns (v: World)
    requires Inv(w) && Enabled(w, s) && Next(w, s).history.finishes != w.history.finishes
    ensures Finishing(v) && Next(w, s) == Finished(v)
    ensures Active(w) && v.cancelRequested == w.cancelRequested && v.history.finishes == w.history.finishes
    ensures v.history.given == w.history.given && !w.worker.Working? && !w.worker.Estimating?
  {
    hide Accounted, Counted, CountTask, FinishBatch;
    match s
    case TimerTick => v := w;
    case SingleShot =>
      v := w.(shots := w.shots - 1);
      FewerShots(w);
    case Deliver(sizeNow) =>
      v := FinishedByCallback(w, sizeNow);
  }

  lemma FewerShots(w: World)
    requires w.shots > 0
    ensures Accounted(w) ==> Accounted(w.(shots := w.shots - 1))
    ensures Counted(w) ==> Counted(w.(shots := w.shots - 1))
  {
  }

  lemma FinishedByCallback(w: World, sizeNow: int) returns (v: World)
    requires Inv(w) && w.queue != [] && Next(w, Deliver(sizeNow)).history.finishes != w.history.finishes
    ensures Finishing(v) && Next(w, Deliver(sizeNow)) == Finished(v)
    ensures Active(w) && v.cancelRequested == w.cancelRequested && v.history.finishes == w.history.finishes
    ensures v.history.given == w.history.given && !w.worker.Working? && !w.worker.Estimating?
  {
    match w.queue[0]
    case Prepared(_) =>
      OnlyPrepared(w);
      v := w.(queue := [], preparing := false);
    case Settled(_, _, _, _) =>
      v := FinishedBySettling(w, sizeNow);
  }

  lemma FinishedBySettling(w: World, sizeNow: int) returns (v: World)
    requires Inv(w) && w.queue != [] && w.queue[0].Settled? && Next(w, Deliver(sizeNow)).history.finishes != w.history.finishes
    ensures Finishing(v) && Next(w, Deliver(sizeNow)) == Finished(v)
    ensures Active(w) && v.cancelRequested == w.cancelRequested && v.history.finishes == w.history.finishes
    ensures v.history.given == w.history.given && !w.worker.Working? && !w.worker.Estimating?
  {
    hide Accounted, Counted, CountTask, FinishBatch, Inv, Consistent, OneThingAtATime;
    var c := w.queue[0];
    SettledFacts(w);
    CountKeepsAccount(w, c.task, c.ok, c.bytesTotal, sizeNow);
    CountChangesOnly(w.(queue := [], inFlight := false), w.kind, c.task, c.ok, c.bytesTotal, sizeNow);
    v := CountTask(w.(queue := [], inFlight := false), w.kind, c.task, c.ok, c.bytesTotal, sizeNow);
    assert w.queue[1..] == [];
  }

  /** A batch is only reported finished with nothing under way, and the report says ok exactly when every given task
      ran, none failed and no cancel was pending. A batch that was not cancelled ran every task and reports full progress. */
  lemma FinishVerdict(w: World, s: Step)
    requires Inv(w) && Enabled(w, s) && Next(w, s).history.finishes != w.history.finishes
    ensures var w' := Next(w, s);
            && !w.worker.Working? && !w.worker.Estimating? && w'.worker.Resting? && w'.queue == []
            && Active(w) && !Active(w') && |w'.history.finishes| == |w.history.finishes| + 1
            && var f := w'.history.finishes[|w.history.finishes|];
            && (f.ok <==> TasksOf(w'.history.outcomes) == w.history.given && AllOk(w'.history.outcomes) && !w.cancelRequested)
            && (f.error.Cancelled? <==> w.cancelRequested)
            && (f.error.PartialFailed? <==> !AllOk(w'.history.outcomes) && !w.cancelRequested)
            && (!w.cancelRequested ==> TasksOf(w'.history.outcomes) == w.history.given && f.processed == f.total)
  {
    var v := ReportsComeLast(w, s);
    NoneFailed(v.history.outcomes);
    assert v.history.taken[..|v.history.outcomes|] == v.history.taken;
    assert v.tasks == [] ==> v.history.taken + v.tasks == v.history.taken;
  }

  // ---------- a cancelled or paused batch takes no task ----------

  /** The batch was reported finished, or it goes on with its pause and cancel flags as they were. */
  predicate EndsOrGoesOn(w: World, w': World) {
    if |w'.history.finishes| > |w.history.finishes| then !w'.paused && !Active(w')
    else w'.history.finishes == w.history.finishes && w'.kind == w.kind && w'.paused == w.paused && w'.cancelRequested == w.cancelRequested
  }

  /** No batch is started, no task taken, no worker set to work or heard, and the overwrite flag is left alone. */
  predicate StartsNothing(w: World, w': World) {
    && w'.history.started == w.history.started && w'.history.taken == w.history.taken
    && w'.history.answers == w.history.answers
    && w'.worker == w.worker && w'.overwrite == w.overwrite
  }

  lemma SettledEffect(w: World, kind: Kind, task: Task, ok: bool, bytesTotal: int, sizeNow: int)
    ensures var w' := OnSettled(w, kind, task, ok, bytesTotal, sizeNow);
            EndsOrGoesOn(w, w') && StartsNothing(w, w')
  {
    hide CountTask;
    CountChangesOnly(w.(inFlight := false), kind, task, ok, bytesTotal, sizeNow);
  }

  lemma PreparedEffect(w: World, totalBytes: int)
    ensures EndsOrGoesOn(w, OnPrepared(w, totalBytes)) && StartsNothing(w, OnPrepared(w, totalBytes))
  {
  }

  lemma DeliverEffect(w: World, sizeNow: int)
    requires w.queue != []
    ensures EndsOrGoesOn(w, Next(w, Deliver(sizeNow))) && StartsNothing(w, Next(w, Deliver(sizeNow)))
  {
    hide OnSettled, OnPrepared;
    var w1 := w.(queue := w.queue[1..]);
    match w.queue[0]
    case Prepared(totalBytes) =>
      PreparedEffect(w1, totalBytes);
    case Progressed(_, _, _) =>
    case Settled(kind, task, ok, bytesTotal) =>
      SettledEffect(w1, kind, task, ok, bytesTotal, sizeNow);
  }

  lemma StepGrows(w: World, s: Step)
    requires Enabled(w, s)
    ensures |Next(w, s).history.finishes| >= |w.history.finishes|
  {
    hide Handle;
    if s.Deliver? {
      DeliverEffect(w, s.sizeNow);
    }
  }

  lemma {:induction false} FinishesGrow(w: World, steps: seq<Step>)
    requires IsRun(w, steps)
    ensures |After(w, steps).history.finishes| >= |w.history.finishes|
    decreases |steps|
  {
    if steps != [] {
      hide Next;
      StepGrows(w, steps[0]);
      FinishesGrow(Next(w, steps[0]), steps[1..]);
    }
  }

  /** Once cancel is requested no further task is taken before the batch is reported finished. */
  lemma {:induction false} CancelledTakesNothing(w: World, steps: seq<Step>)
    requires Active(w) && w.cancelRequested && IsRun(w, steps)
    ensures var w' := After(w, steps);
            || |w'.history.finishes| > |w.history.finishes|
            || (w'.history.taken == w.history.taken && Active(w') && w'.cancelRequested)
    decreases |steps|
  {
    if steps != [] {
      hide Next;
      var w1 := Next(w, steps[0]);
      FinishesGrow(w1, steps[1..]);
      StepGrows(w, steps[0]);
      if |w1.history.finishes| == |w.history.finishes| {
        CancelledStep(w, steps[0]);
        CancelledTakesNothing(w1, steps[1..]);
      }
    }
  }

  lemma CancelledStep(w: World, s: Step)
    requires Active(w) && w.cancelRequested && Enabled(w, s)
    ensures var w' := Next(w, s);
            |w'.history.finishes| > |w.history.finishes| || (w'.history.taken == w.history.taken && Active(w') && w'.cancelRequested)
  {
    hide Handle;
    if s.Deliver? {
      DeliverEffect(w, s.sizeNow);
    }
  }

  /** Nor does a paused batch take a task before it is resumed. */
  lemma {:induction false} PausedTakesNothing(w: World, steps: seq<Step>)
    requires Active(w) && w.paused && IsRun(w, steps) && Resume !in steps
    ensures var w' := After(w, steps);
            || |w'.history.finishes| > |w.history.finishes|
            || (w'.history.taken == w.history.taken && Active(w') && w'.paused)
    decreases |steps|
  {
    if steps != [] {
      hide Next;
      var w1 := Next(w, steps[0]);
      FinishesGrow(w1, steps[1..]);
      StepGrows(w, steps[0]);
      assert steps[0] in steps;
      if |w1.history.finishes| == |w.history.finishes| {
        PausedStep(w, steps[0]);
        PausedTakesNothing(w1, steps[1..]);
      }
    }
  }

  lemma PausedStep(w: World, s: Step)
    requires Active(w) && w.paused && Enabled(w, s) && !s.Resume?
    ensures var w' := Next(w, s);
            |w'.history.finishes| > |w.history.finishes| || (w'.history.taken == w.history.taken && Active(w') && w'.paused)
  {
    hide Handle;
    if s.Deliver? {
      DeliverEffect(w, s.sizeNow);
    }
  }

  // ---------- no batch overwrites ----------

  lemma OverwriteStaysOff(w: World, s: Step)
    requires Enabled(w, s) && !w.overwrite
    ensures !Next(w, s).overwrite
  {
    hide Handle;
    if s.Deliver? {
      DeliverEffect(w, s.sizeNow);
    }
  }

  /** Whatever the requests of a run ask for, no worker ever finds the overwrite flag set. */
  lemma {:induction false} NeverOverwrites(w: World, steps: seq<Step>)
    requires !w.overwrite && IsRun(w, steps)
    ensures !After(w, steps).overwrite
    decreases |steps|
  {
    if steps != [] {
      hide Next;
      OverwriteStaysOff(w, steps[0]);
      NeverOverwrites(Next(w, steps[0]), steps[1..]);
    }
  }

  /** So a request is followed in this exactly if it does not ask to overwrite. */
  lemma OverwriteAsAskedExactly(w: World, kind: Kind, tasks: seq<Task>, overwrite: bool, steps: seq<Step>)
    requires !Active(w) && !kind.NoBatch? && IsRun(Next(w, Start(kind, tasks, overwrite)), steps)
    ensures After(Next(w, Start(kind, tasks, overwrite)), steps).overwrite == overwrite <==> !overwrite
  {
    NeverOverwrites(Next(w, Start(kind, tasks, overwrite)), steps);
  }

  // ---------- batches end ----------

  /** The steps the event loop and the workers take by themselves and that bring a batch forward. */
  predicate Essential(s: Step) {
    s.TimerTick? || s.SingleShot? || s.Deliver? || s.EstimateDone? || s.TaskDone?
  }

  function Stage(w: World): nat {
    if w.preparing then (if w.worker.Estimating? then 6 else 4)
    else if w.inFlight then (if w.worker.Working? then 8 else 6)
    else 2
  }

  /** What is left to do before the batch is over. */
  function Rank(w: World): nat {
    w.shots + |w.queue| + if Active(w) then 8 * |w.tasks| + Stage(w) else 0
  }

  /** Is anything scheduled that will look at the batch again? */
  predicate HasWakeup(w: World) {
    w.inFlight || w.preparing || w.timerOn || w.shots > 0
  }

  lemma PreparedDescends(w: World, sizeNow: int)
    requires OneThingAtATime(w) && w.queue != [] && w.queue[0].Prepared?
    ensures Rank(Next(w, Deliver(sizeNow))) < Rank(w)
  {
    OnlyPrepared(w);
    hide OneThingAtATime;
  }

  lemma ContinueDescends(w: World)
    requires Active(w) && !w.inFlight && !w.preparing && w.queue == []
    ensures Rank(Continue(w)) <= w.shots + 1 + 8 * |w.tasks| + Stage(w)
  {
  }

  lemma SettledDescends(w: World, sizeNow: int)
    requires Inv(w) && w.queue != [] && w.queue[0].Settled?
    ensures Rank(Next(w, Deliver(sizeNow))) < Rank(w)
  {
    SettledFacts(w);
    hide Inv, CountTask, Continue;
    var c, mid := w.queue[0], w.(queue := [], inFlight := false);
    CountChangesOnly(mid, w.kind, c.task, c.ok, c.bytesTotal, sizeNow);
    ContinueDescends(CountTask(mid, w.kind, c.task, c.ok, c.bytesTotal, sizeNow));
    assert w.queue[1..] == [];
  }

  lemma DeliverDescends(w: World, sizeNow: int)
    requires Inv(w) && w.queue != []
    ensures Rank(Next(w, Deliver(sizeNow))) < Rank(w)
  {
    hide Rank, Next;
    match w.queue[0]
    case Prepared(_) =>
      PreparedDescends(w, sizeNow);
    case Progressed(_, _, _) =>
      ProgressDescends(w, sizeNow);
    case Settled(_, _, _, _) =>
      SettledDescends(w, sizeNow);
  }

  lemma ProgressDescends(w: World, sizeNow: int)
    requires w.queue != [] && w.queue[0].Progressed?
    ensures Rank(Next(w, Deliver(sizeNow))) < Rank(w)
  {
  }

  lemma Descends(w: World, s: Step)
    requires Inv(w) && Enabled(w, s) && Essential(s) && (w.paused ==> w.cancelRequested)
    ensures Rank(Next(w, s)) < Rank(w)
  {
    if s.Deliver? {
      DeliverDescends(w, s.sizeNow);
    }
  }

  /** A batch that is not over, and not held by a pause, always has an essential step to take. */
  lemma Unfinished(w: World) returns (s: Step)
    requires Inv(w) && Active(w)
    requires if w.paused then w.cancelRequested && HasWakeup(w) else true
    ensures Enabled(w, s) && Essential(s)
  {
    if w.queue != [] {
      s := Deliver(0);
    } else if w.preparing {
      s := EstimateDone(0);
    } else if w.inFlight {
      s := TaskDone(true, 0);
    } else if w.timerOn {
      s := TimerTick;
    } else {
      s := SingleShot;
    }
  }

  function CountEssential(steps: seq<Step>): nat {
    if steps == [] then 0 else (if Essential(steps[0]) then 1 else 0) + CountEssential(steps[1..])
  }

  function CountExtra(steps: seq<Step>): nat {
    if steps == [] then 0 else (if steps[0].Report? || steps[0].Resume? then 1 else 0) + CountExtra(steps[1..])
  }

  /** Without pauses a batch cannot go on for ever: each run has at most Rank essential steps, plus one for each
      progress report and resume in it. */
  lemma {:induction false} UnpausedRunsAreShort(w: World, steps: seq<Step>)
    requires Inv(w) && !w.paused && IsRun(w, steps)
    requires forall s :: s in steps ==> !s.Start? && !s.Pause?
    ensures CountEssential(steps) + Rank(After(w, steps)) <= Rank(w) + CountExtra(steps)
    decreases |steps|
  {
    if steps != [] {
      var s := steps[0];
      assert s in steps;
      NextKeepsInv(w, s);
      if Essential(s) {
        Descends(w, s);
      }
      StaysUnpaused(w, s);
      UnpausedRunsAreShort(Next(w, s), steps[1..]);
    }
  }

  lemma StaysUnpaused(w: World, s: Step)
    requires !w.paused && Enabled(w, s) && !s.Pause?
    ensures !Next(w, s).paused
    ensures !Essential(s) && !s.Start? ==> Rank(Next(w, s)) <= Rank(w) + (if s.Report? || s.Resume? then 1 else 0)
  {
    hide Handle, RequestBatch;
    if s.Deliver? {
      DeliverEffect(w, s.sizeNow);
    } else if s.Start? {
      RequestIsStart(w, s.kind, s.tasks, s.overwrite);
    }
  }

  lemma StartsOnlyByStart(w: World, s: Step)
    requires Enabled(w, s) && !s.Start?
    ensures Next(w, s).history.started == w.history.started
  {
    hide Handle;
    if s.Deliver? {
      DeliverEffect(w, s.sizeNow);
    }
  }

  lemma {:induction false} UnpausedRun(w: World, steps: seq<Step>)
    requires !w.paused && IsRun(w, steps)
    requires forall s :: s in steps ==> !s.Start? && !s.Pause?
    ensures !After(w, steps).paused && After(w, steps).history.started == w.history.started
    decreases |steps|
  {
    if steps != [] {
      hide Next;
      assert steps[0] in steps;
      StaysUnpaused(w, steps[0]);
      StartsOnlyByStart(w, steps[0]);
      UnpausedRun(Next(w, steps[0]), steps[1..]);
    }
  }

  /** The event loop and the workers have nothing left to do. */
  ghost predicate Quiet(w: World) {
    forall s :: Enabled(w, s) ==> !Essential(s)
  }

  /** Without pauses, a run that is followed until nothing is left to do has reported the active batch finished,
      exactly once, and no other. */
  lemma UnpausedRunsFinish(w: World, steps: seq<Step>)
    requires Inv(w) && !w.paused && IsRun(w, steps) && Quiet(After(w, steps))
    requires forall s :: s in steps ==> !s.Start? && !s.Pause?
    ensures var w' := After(w, steps);
            !Active(w') && |w'.history.finishes| == |w.history.finishes| + if Active(w) then 1 else 0
  {
    RunKeepsInv(w, steps);
    UnpausedRun(w, steps);
    if Active(After(w, steps)) {
      var s := Unfinished(After(w, steps));
      assert false;
    }
  }

  /** And every run can be followed that far, in at most Rank steps. */
  lemma {:induction false} QuietIsReached(w: World) returns (steps: seq<Step>)
    requires Inv(w) && !w.paused
    ensures IsRun(w, steps) && Quiet(After(w, steps)) && |steps| <= Rank(w)
    ensures forall s :: s in steps ==> Essential(s)
    decreases Rank(w)
  {
    hide Next, Inv, Rank;
    if s :| Enabled(w, s) && Essential(s) {
      NextKeepsInv(w, s);
      Descends(w, s);
      StaysUnpaused(w, s);
      var rest := QuietIsReached(Next(w, s));
      steps := [s] + rest;
      assert steps[1..] == rest;
    } else {
      steps := [];
    }
  }

  // ---------- cancelling a paused batch ----------

  lemma {:induction false} WithoutWakeup(w: World, steps: seq<Step>)
    requires Inv(w) && Active(w) && !HasWakeup(w) && IsRun(w, steps) && Resume !in steps
    ensures Active(After(w, steps))
    decreases |steps|
  {
    if steps != [] {
      assert steps[0] in steps;
      NextKeepsInv(w, steps[0]);
      WithoutWakeup(Next(w, steps[0]), steps[1..]);
    }
  }

  lemma CancelledStaysAwake(w: World, s: Step)
    requires Inv(w) && Active(w) && w.cancelRequested && HasWakeup(w) && Enabled(w, s)
    ensures var w' := Next(w, s); Active(w') ==> w'.cancelRequested && HasWakeup(w')
  {
    if s.Deliver? {
      CancelledDelivery(w, s.sizeNow);
    } else {
      hide Handle, CountTask, FinishBatch, Inv;
    }
  }

  lemma FinishEnds(w: World, ok: bool, error: Error)
    ensures !Active(FinishBatch(w, ok, error))
  {
  }

  lemma CancelledSettling(w: World, kind: Kind, task: Task, ok: bool, bytesTotal: int, sizeNow: int)
    requires Active(w) && w.cancelRequested
    ensures !Active(OnSettled(w, kind, task, ok, bytesTotal, sizeNow))
  {
    hide CountTask, FinishBatch;
    var w1 := w.(inFlight := false);
    CountChangesOnly(w1, kind, task, ok, bytesTotal, sizeNow);
    FinishEnds(CountTask(w1, kind, task, ok, bytesTotal, sizeNow), false, Cancelled);
  }

  lemma CancelledProgress(w: World, base: int, done: int, total: int)
    ensures OnProgress(w, base, done, total) == w.(current := OnProgress(w, base, done, total).current)
  {
  }

  /** A callback that ends preparation or a task also ends a cancelled batch. */
  lemma CancelledDelivery(w: World, sizeNow: int)
    requires Active(w) && w.cancelRequested && w.queue != []
    ensures var w' := Next(w, Deliver(sizeNow));
            Active(w') ==> w'.cancelRequested && (HasWakeup(w) ==> HasWakeup(w'))
  {
    hide OnSettled, OnProgress, FinishBatch;
    var w1 := w.(queue := w.queue[1..]);
    match w.queue[0]
    case Prepared(_) =>
      FinishEnds(w1.(preparing := false), false, Cancelled);
    case Progressed(base, done, total) =>
      CancelledProgress(w1, base, done, total);
    case Settled(kind, task, ok, bytesTotal) =>
      CancelledSettling(w1, kind, task, ok, bytesTotal, sizeNow);
  }

  lemma {:induction false} FinishingRun(w: World) returns (steps: seq<Step>)
    requires Inv(w) && Active(w) && w.cancelRequested && HasWakeup(w)
    ensures IsRun(w, steps) && Resume !in steps && !Active(After(w, steps))
    decreases Rank(w)
  {
    var s := Unfinished(w);
    Descends(w, s);
    NextKeepsInv(w, s);
    CancelledStaysAwake(w, s);
    var rest: seq<Step> := [];
    if Active(Next(w, s)) {
      rest := FinishingRun(Next(w, s));
    }
    steps := [s] + rest;
    assert steps[1..] == rest;
  }

  /** A cancelled batch comes to an end without being resumed exactly when something is under way or scheduled.
      Otherwise (cancelled while paused between two tasks) it stays active until the user resumes it. */
  lemma CancelEndsExactly(w: World)
    requires Inv(w) && Active(w) && w.cancelRequested
    ensures HasWakeup(w) <==> exists steps :: IsRun(w, steps) && Resume !in steps && !Active(After(w, steps))
  {
    if HasWakeup(w) {
      var steps := FinishingRun(w);
    } else {
      forall steps | IsRun(w, steps) && Resume !in steps
        ensures Active(After(w, steps))
      {
        WithoutWakeup(w, steps);
      }
    }
  }

  lemma {:induction false} RunSnoc(w: World, steps: seq<Step>, s: Step)
    requires IsRun(w, steps) && Enabled(After(w, steps), s)
    ensures IsRun(w, steps + [s]) && After(w, steps + [s]) == Next(After(w, steps), s)
    decreases |steps|
  {
    if steps == [] {
      assert steps + [s] == [s];
    } else {
      RunSnoc(Next(w, steps[0]), steps[1..], s);
      assert (steps + [s])[1..] == steps[1..] + [s];
    }
  }

  /** Such a batch is reachable: pause during the first of two deletions, then cancel. */
  lemma CancelCanHang(a: Task, b: Task) returns (steps: seq<Step>)
    ensures IsRun(INITIAL, steps)
    ensures var w := After(INITIAL, steps); Active(w) && w.cancelRequested && !HasWakeup(w)
  {
    RunSnoc(INITIAL, [], Start(Delete, [a, b], false));
    steps := [] + [Start(Delete, [a, b], false)];
    RunSnoc(INITIAL, steps, TimerTick);
    steps := steps + [TimerTick];
    RunSnoc(INITIAL, steps, Pause);
    steps := steps + [Pause];
    RunSnoc(INITIAL, steps, TaskDone(true, 0));
    steps := steps + [TaskDone(true, 0)];
    RunSnoc(INITIAL, steps, Deliver(0));
    steps := steps + [Deliver(0)];
    RunSnoc(INITIAL, steps, Cancel);
    steps := steps + [Cancel];
  }

  /** A single-shot step can outlive its batch: resume while the last task is in flight. */
  lemma ShotCanOutliveItsBatch(a: Task) returns (steps: seq<Step>)
    ensures IsRun(INITIAL, steps)
    ensures var w := After(INITIAL, steps); !Active(w) && w.history.started == 1 && w.shots == 1
  {
    RunSnoc(INITIAL, [], Start(Delete, [a], false));
    steps := [] + [Start(Delete, [a], false)];
    RunSnoc(INITIAL, steps, TimerTick);
    steps := steps + [TimerTick];
    RunSnoc(INITIAL, steps, Resume);
    steps := steps + [Resume];
    RunSnoc(INITIAL, steps, TaskDone(true, 0));
    steps := steps + [TaskDone(true, 0)];
    RunSnoc(INITIAL, steps, Deliver(0));
    steps := steps + [Deliver(0)];
  }

  // ---------- byte progress ----------

  /** A completed transfer is meant to leave the count at the count it started from plus its bytes. It does exactly
      when none of its progress had been shown, or its bytes reach the total: shown progress is counted again. */
  lemma ByteCountExact(w: World, sizeNow: int)
    requires Inv(w) && w.totalIsBytes && !w.cancelRequested && w.tasks != []
    requires w.queue != [] && w.queue[0].Settled? && w.queue[0].ok
    ensures var c := w.queue[0];
            var step := ByteStep(c.task, c.bytesTotal, sizeNow);
            var w' := Next(w, Deliver(sizeNow));
            && w'.current == Bound(0, w.current + step, w.total)
            && (w'.current == Bound(0, w.history.base + step, w.total) <==>
                w.current == w.history.base || w.history.base + step >= w.total)
  {
    OnlySettled(w);
  }

  /** Up to the first of two tasks being worked on. */
  lemma FirstOfTwo(a: Task, b: Task) returns (steps: seq<Step>)
    ensures IsRun(INITIAL, steps)
    ensures After(INITIAL, steps)
         == World(Copy, Running, [b], 0, 20, true, false, false, true, false, false, false, [], 0, [], Working(Copy, a, 0),
                  History([a, b], [a], 0, [], 1, [], []))
  {
    RunSnoc(INITIAL, [], Start(Copy, [a, b], false));
    steps := [] + [Start(Copy, [a, b], false)];
    RunSnoc(INITIAL, steps, EstimateDone(20));
    steps := steps + [EstimateDone(20)];
    RunSnoc(INITIAL, steps, Deliver(0));
    steps := steps + [Deliver(0)];
    RunSnoc(INITIAL, steps, TimerTick);
    steps := steps + [TimerTick];
  }

  /** Two files of ten bytes: after the first one the count already stands at the total. */
  lemma FullBeforeTheLastTask(a: Task, b: Task) returns (steps: seq<Step>)
    ensures IsRun(INITIAL, steps)
    ensures var w := After(INITIAL, steps);
            Active(w) && w.history.outcomes == [Outcome(a, true)] && w.tasks == [b] && w.current == w.total == 20
  {
    steps := FirstOfTwo(a, b);
    RunSnoc(INITIAL, steps, Report(10, 10));
    steps := steps + [Report(10, 10)];
    RunSnoc(INITIAL, steps, Deliver(10));
    steps := steps + [Deliver(10)];
    RunSnoc(INITIAL, steps, TaskDone(true, 10));
    steps := steps + [TaskDone(true, 10)];
    RunSnoc(INITIAL, steps, Deliver(10));
    steps := steps + [Deliver(10)];
  }
}
