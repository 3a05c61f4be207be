/**
 What the engine reports, compared with what its workers answered. The answers are kept by the workers' steps and
 never touched by the engine, except that a new batch starts without any.
 */
module BatchVerdicts {
  import opened Prelude
  import opened BatchEngine
  import opened BatchRuns

  // ---------- the engine counts what the workers answer ----------

  /** The answer that is on its way to the engine. */
  function OnItsWay(w: World): seq<Outcome> {
    if w.inFlight && w.worker.Resting? && w.queue != [] && w.queue[|w.queue| - 1].Settled? then
      [Outcome(w.queue[|w.queue| - 1].task, w.queue[|w.queue| - 1].ok)]
    else []
  }

  /** Each answer is counted, as it was given, or on its way. */
  predicate Heard(w: World) {
    w.history.answers == w.history.outcomes + OnItsWay(w)
  }

  lemma StartHears(w: World, kind: Kind, tasks: seq<Task>)
    requires Inv(w) && Heard(w) && !kind.NoBatch?
    ensures Heard(StartBatch(w, kind, tasks))
  {
  }

  lemma ProcessHears(w: World)
    requires OneThingAtATime(w) && Heard(w)
    ensures Heard(ProcessStep(w))
  {
  }

  lemma ProgressHears(w: World, sizeNow: int)
    requires Inv(w) && Heard(w) && w.queue != [] && !w.queue[0].Settled?
    ensures Heard(Next(w, Deliver(sizeNow)))
  {
    hide Inv;
    if w.queue[0].Prepared? {
      InvParts(w);
      OnlyPrepared(w);
      PreparedEffect(w.(queue := w.queue[1..]), w.queue[0].totalBytes);
      hide OnPrepared;
      PreparedKeepsOutcomes(w.(queue := w.queue[1..]), w.queue[0].totalBytes);
    } else {
      DeliveredProgress(w, sizeNow);
    }
  }

  lemma PreparedKeepsOutcomes(w: World, totalBytes: int)
    requires w.queue == [] && !w.inFlight
    ensures var w' := OnPrepared(w, totalBytes);
            w'.history.outcomes == w.history.outcomes && w'.history.answers == w.history.answers && w'.queue == []
  {
  }

  lemma DeliveredProgress(w: World, sizeNow: int)
    requires w.queue != [] && w.queue[0].Progressed?
    ensures var w' := Next(w, Deliver(sizeNow));
            w'.history == w.history && w'.queue == w.queue[1..] && w'.inFlight == w.inFlight && w'.worker == w.worker
  {
  }

  /** Delivering the answer to a task counts it as it was given: the task fails exactly if the worker said so. */
  lemma SettledIsCounted(w: World, sizeNow: int)
    requires Inv(w) && w.queue != [] && w.queue[0].Settled?
    ensures var c, w' := w.queue[0], Next(w, Deliver(sizeNow));
            && w'.history.outcomes == w.history.outcomes + [Outcome(c.task, c.ok)]
            && w'.failed == w.failed + (if c.ok then [] else [c.task])
            && w'.history.answers == w.history.answers && !w'.inFlight
  {
    hide Inv, OnSettled;
    SettledFacts(w);
    var c := w.queue[0];
    SettledMeans(w.(queue := w.queue[1..]), c.kind, c.task, c.ok, c.bytesTotal, sizeNow);
  }

  lemma SettledHears(w: World, sizeNow: int)
    requires Inv(w) && Heard(w) && w.queue != [] && w.queue[0].Settled?
    ensures Heard(Next(w, Deliver(sizeNow)))
  {
    hide Inv, Next;
    SettledFacts(w);
    SettledIsCounted(w, sizeNow);
  }

  lemma WorkHears(w: World, s: Step)
    requires Inv(w) && Heard(w) && Enabled(w, s) && (s.EstimateDone? || s.Report? || s.TaskDone?)
    ensures Heard(Next(w, s))
  {
  }

  lemma NextHears(w: World, s: Step)
    requires Inv(w) && Heard(w) && Enabled(w, s)
    ensures Heard(Next(w, s))
  {
    hide Inv, StartBatch, RequestBatch, ProcessStep, Handle, Heard;
    match s
    case Start(kind, tasks, overwrite) =>
      RequestIsStart(w, kind, tasks, overwrite);
      StartHears(w, kind, tasks);
    case TimerTick =>
      InvParts(w);
      ProcessHears(w);
    case SingleShot =>
      InvParts(w);
      ProcessHears(w.(shots := w.shots - 1));
    case Deliver(sizeNow) =>
      if w.queue[0].Settled? {
        SettledHears(w, sizeNow);
      } else {
        ProgressHears(w, sizeNow);
      }
    case Cancel => UserHears(w);
    case Pause => UserHears(w);
    case Resume => UserHears(w);
    case _ =>
      WorkHears(w, s);
  }

  lemma InvParts(w: World)
    requires Inv(w)
    ensures OneThingAtATime(w)
    ensures Heard(w) && w.shots > 0 ==> Heard(w.(shots := w.shots - 1)) && OneThingAtATime(w.(shots := w.shots - 1))
  {
  }

  lemma UserHears(w: World)
    requires Heard(w)
    ensures Heard(CancelBatch(w)) && Heard(PauseBatch(w)) && Heard(ResumeBatch(w))
  {
  }

  lemma {:induction false} RunHears(w: World, steps: seq<Step>)
    requires Inv(w) && Heard(w) && IsRun(w, steps)
    ensures Heard(After(w, steps))
    decreases |steps|
  {
    if steps != [] {
      hide Inv, Heard, Next;
      NextHears(w, steps[0]);
      NextKeepsInv(w, steps[0]);
      RunHears(Next(w, steps[0]), steps[1..]);
    }
  }

  /** The answers as the steps of a run tell them: those of the workers that finished since the last batch was started. */
  function Told(w: World, steps: seq<Step>, before: seq<Outcome>): seq<Outcome>
    requires IsRun(w, steps)
    decreases |steps|
  {
    if steps == [] then before
    else
      var now := match steps[0]
                 case TaskDone(ok, _) => before + [Outcome(w.worker.task, ok)]
                 case Start(_, _, _) => if Active(w) then before else []
                 case _ => before;
      Told(Next(w, steps[0]), steps[1..], now)
  }

  lemma AnswersByStep(w: World, s: Step)
    requires Enabled(w, s)
    ensures Next(w, s).history.answers ==
            match s
            case TaskDone(ok, _) => w.history.answers + [Outcome(w.worker.task, ok)]
            case Start(_, _, _) => if Active(w) then w.history.answers else []
            case _ => w.history.answers
  {
    hide Handle, RequestBatch;
    match s
    case Start(kind, tasks, overwrite) =>
      RequestIsStart(w, kind, tasks, overwrite);
    case Deliver(sizeNow) =>
      DeliverEffect(w, sizeNow);
    case _ =>
  }

  lemma {:induction false} AnswersAreTold(w: World, steps: seq<Step>)
    requires IsRun(w, steps)
    ensures After(w, steps).history.answers == Told(w, steps, w.history.answers)
    decreases |steps|
  {
    if steps != [] {
      hide Next;
      AnswersByStep(w, steps[0]);
      AnswersAreTold(Next(w, steps[0]), steps[1..]);
    }
  }

  /** One more report, and it fits the answers: ok means that a worker answered ok for every given task, in order, and that
      no cancel was pending; the failed list holds the tasks for which a worker answered otherwise. */
  predicate ReportFits(w: World, w': World, answers: seq<Outcome>) {
    && |w'.history.finishes| == |w.history.finishes| + 1
    && var f := w'.history.finishes[|w.history.finishes|];
    && (f.ok <==> TasksOf(answers) == w.history.given && AllOk(answers) && !w.cancelRequested)
    && (f.error.Cancelled? <==> w.cancelRequested)
    && w'.failed == FailedOf(answers)
  }

  /** In every run, each report fits what the workers answered in it. */
  lemma ReportTellsAnswers(steps: seq<Step>, s: Step)
    requires IsRun(INITIAL, steps) && Enabled(After(INITIAL, steps), s)
    requires Next(After(INITIAL, steps), s).history.finishes != After(INITIAL, steps).history.finishes
    ensures ReportFits(After(INITIAL, steps), Next(After(INITIAL, steps), s), Told(INITIAL, steps, []))
  {
    hide ReportFits, Next, Told;
    InitialInv();
    assert Heard(INITIAL);
    RunKeepsInv(INITIAL, steps);
    RunHears(INITIAL, steps);
    AnswersAreTold(INITIAL, steps);
    ReportTellsAll(After(INITIAL, steps), s);
  }

  lemma ReportTellsAll(w: World, s: Step)
    requires Inv(w) && Heard(w) && Enabled(w, s) && Next(w, s).history.finishes != w.history.finishes
    ensures ReportFits(w, Next(w, s), w.history.answers)
  {
    hide Inv, Next, Heard, TasksOf, FailedOf, AllOk;
    FinishVerdict(w, s);
    var v := ReportsComeLast(w, s);
    FinishedKeeps(v);
    ReportStep(w, s);
    AnswersByStep(w, s);
    NextHears(w, s);
    NextKeepsInv(w, s);
    HeardAtRest(Next(w, s));
  }

  lemma FinishedKeeps(v: World)
    requires Finishing(v)
    ensures Finished(v).history.outcomes == v.history.outcomes && Finished(v).history.given == v.history.given
    ensures Finished(v).failed == FailedOf(v.history.outcomes)
  {
  }

  lemma ReportStep(w: World, s: Step)
    requires Enabled(w, s) && Next(w, s).history.finishes != w.history.finishes
    ensures !s.TaskDone? && !s.Start?
  {
    hide Handle, ProcessStep;
  }

  lemma HeardAtRest(w: World)
    requires Heard(w) && w.queue == []
    ensures w.history.answers == w.history.outcomes
  {
  }

  // ---------- what a settled task adds to the progress ----------

  /** The bytes a settled transfer counts for: those it was given, else the size the file has now, else one. */
  lemma SettledAddsBytes(w: World, sizeNow: int)
    requires Inv(w) && w.queue != [] && w.queue[0].Settled? && Active(Next(w, Deliver(sizeNow)))
    ensures var c := w.queue[0];
            var bytes := if c.bytesTotal > 0 then c.bytesTotal else if !c.task.isFolder && sizeNow > 0 then sizeNow else 1;
            Next(w, Deliver(sizeNow)).current ==
            if !w.totalIsBytes then w.current + 1
            else if !c.ok then w.current
            else Min(w.total, w.current + bytes)
  {
    OnlySettled(w);
  }

  /** A report of the task in flight shows the count at which that task was taken plus the bytes reported. */
  lemma ProgressCountsFromTaken(w: World, sizeNow: int)
    requires Inv(w) && w.totalIsBytes && w.queue != [] && w.queue[0].Progressed?
    ensures var c, w' := w.queue[0], Next(w, Deliver(sizeNow));
            && c.base == w.history.base
            && (0 <= c.done <= c.total && w.history.base + c.done <= w.total ==> w'.current == w.history.base + c.done)
            && (c.done <= 0 ==> w'.current == w.history.base)
            && (w.history.base + c.done >= w.total && c.done <= c.total ==> w'.current == w.total)
            && w' == w.(queue := w.queue[1..], current := w'.current)
  {
    if w.worker.Resting? {
      assert w.queue[..|w.queue| - 1][0] == w.queue[0];
    }
  }

  /** Copies, moves and restores are measured before anything is taken, and then counted in the bytes measured, if any; other
      batches are counted in tasks. */
  lemma StartsAsItShould(w: World, kind: Kind, tasks: seq<Task>, overwrite: bool)
    requires Inv(w) && !Active(w) && !kind.NoBatch?
    ensures var w' := Next(w, Start(kind, tasks, overwrite));
            && Active(w') && w'.kind == kind && w'.tasks == tasks && w'.history.given == tasks && w'.history.taken == []
            && w'.failed == [] && w'.current == 0 && w'.total == |tasks| && !w'.totalIsBytes
            && if kind in {Copy, Move, Restore} then w'.worker.Estimating? && w'.phase.Preparing? && !w'.timerOn
               else w'.worker.Resting? && w'.phase.Running? && w'.timerOn
  {
    RequestIsStart(w, kind, tasks, overwrite);
    hide RequestBatch;
  }

  /** The measured bytes become the total, if there are any, and the batch goes on unless it is paused. */
  lemma MeasuredBytesCount(w: World, sizeNow: int)
    requires Inv(w) && w.queue != [] && w.queue[0].Prepared? && !w.cancelRequested && Active(w)
    ensures var w', bytes := Next(w, Deliver(sizeNow)), w.queue[0].totalBytes;
            && w'.totalIsBytes == (bytes > 0) && w'.total == (if bytes > 0 then bytes else w.total) && w'.tasks == w.tasks
            && w'.current == w.current && w'.timerOn == (w.timerOn || !w.paused) && !w'.preparing
  {
    OnlyPrepared(w);
  }

  // ---------- a cancel is followed ----------

  /** A batch with a cancel pending is reported cancelled, if it is reported at all. */
  lemma {:induction false} CancelIsReported(w: World, steps: seq<Step>)
    requires Inv(w) && Active(w) && w.cancelRequested && IsRun(w, steps)
    requires |After(w, steps).history.finishes| > |w.history.finishes|
    ensures var f := After(w, steps).history.finishes[|w.history.finishes|];
            !f.ok && f.error.Cancelled?
    decreases |steps|
  {
    hide Next, Inv;
    var w1 := Next(w, steps[0]);
    NextKeepsInv(w, steps[0]);
    StepGrows(w, steps[0]);
    if w1.history.finishes == w.history.finishes {
      CancelledStep(w, steps[0]);
      CancelIsReported(w1, steps[1..]);
    } else {
      FinishVerdict(w, steps[0]);
      FinishesStay(w1, steps[1..], |w.history.finishes|);
    }
  }

  lemma {:induction false} FinishesStay(w: World, steps: seq<Step>, k: nat)
    requires Inv(w) && IsRun(w, steps) && k < |w.history.finishes|
    ensures k < |After(w, steps).history.finishes| && After(w, steps).history.finishes[k] == w.history.finishes[k]
    decreases |steps|
  {
    if steps != [] {
      hide Next, Inv;
      NextKeepsInv(w, steps[0]);
      FinishAppends(w, steps[0]);
      FinishesStay(Next(w, steps[0]), steps[1..], k);
    }
  }

  lemma FinishAppends(w: World, s: Step)
    requires Inv(w) && Enabled(w, s)
    ensures w.history.finishes <= Next(w, s).history.finishes
  {
    hide Next, Inv;
    if Next(w, s).history.finishes != w.history.finishes {
      var v := ReportsComeLast(w, s);
      FinishedAppends(v);
    }
  }

  lemma FinishedAppends(v: World)
    ensures v.history.finishes <= Finished(v).history.finishes
  {
  }

  /** Whenever the user cancels, no further task is taken, and the batch is reported cancelled if it is reported at all. */
  lemma CancelIsFollowed(w: World, steps: seq<Step>)
    requires Inv(w) && Active(w) && IsRun(Next(w, Cancel), steps)
    ensures var w' := After(Next(w, Cancel), steps);
            if |w'.history.finishes| > |w.history.finishes| then
              !w'.history.finishes[|w.history.finishes|].ok && w'.history.finishes[|w.history.finishes|].error.Cancelled?
            else
              w'.history.taken == w.history.taken && Active(w')
  {
    CancelKeepsInv(w);
    hide Inv;
    var w1 := Next(w, Cancel);
    assert w1.cancelRequested && Active(w1) && w1.history == w.history;
    CancelledTakesNothing(w1, steps);
    if |After(w1, steps).history.finishes| > |w.history.finishes| {
      CancelIsReported(w1, steps);
    }
  }

  /** Whenever the user pauses a batch that is past its preparation, no task is taken before it is resumed. */
  lemma PauseIsFollowed(w: World, steps: seq<Step>)
    requires Inv(w) && Active(w) && !w.phase.Preparing? && IsRun(Next(w, Pause), steps) && Resume !in steps
    ensures var w' := After(Next(w, Pause), steps);
            || |w'.history.finishes| > |w.history.finishes|
            || (w'.history.taken == w.history.taken && Active(w') && w'.paused)
  {
    hide Inv;
    assert Next(w, Pause).paused && Active(Next(w, Pause)) && Next(w, Pause).history == w.history;
    PausedTakesNothing(Next(w, Pause), steps);
  }

  /** Resuming lets any batch go on to its report, with nothing further from the user. */
  lemma ResumeGoesOn(w: World) returns (steps: seq<Step>)
    requires Inv(w) && Active(w) && !w.phase.Preparing?
    ensures IsRun(Next(w, Resume), steps) && forall s :: s in steps ==> Essential(s)
    ensures var w' := After(Next(w, Resume), steps);
            !Active(w') && |w'.history.finishes| == |w.history.finishes| + 1
  {
    var w1 := Next(w, Resume);
    ResumeKeepsInv(w);
    assert !w1.paused && Active(w1) && w1.history == w.history;
    hide Inv;
    steps := QuietIsReached(w1);
    UnpausedRunsFinish(w1, steps);
  }
}
