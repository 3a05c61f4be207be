/**
 The file batch engine as the object it is: fields on the main thread, changed in place by each callback. Whatever the
 event loop or the user calls keeps the invariant from which the results about whole runs follow.
 */
module EngineObject {
  import opened Prelude
  import opened BatchEngine
  import opened BatchRuns

  lemma RequestTurnsOff(w: World, kind: Kind, tasks: seq<Task>, overwrite: bool)
    requires !kind.NoBatch?
    ensures RequestBatch(w, kind, tasks, overwrite) == if w.kind.NoBatch? then StartBatch(w.(overwrite := overwrite), kind, tasks) else w
    ensures w.kind.NoBatch? ==> !RequestBatch(w, kind, tasks, overwrite).overwrite
    ensures Inv(w) ==> Inv(RequestBatch(w, kind, tasks, overwrite))
  {
    hide Inv, RequestBatch, StartBatch;
    RequestMeans(w, kind, tasks, overwrite);
    RequestIsStart(w, kind, tasks, overwrite);
    if Inv(w) {
      StartKeepsInv(w, kind, tasks);
    }
    if w.kind.NoBatch? {
      StartTurnsOff(w, kind, tasks);
    }
  }

  class FileBatchEngine {
    var kind: Kind
    var phase: Phase
    var tasks: seq<Task>
    var current: int
    var total: int
    var totalIsBytes: bool
    var cancelRequested: bool
    var overwrite: bool
    var inFlight: bool
    var preparing: bool
    var paused: bool
    var timerOn: bool
    var failed: seq<Task>
    var shots: nat
    var worker: Worker
    var queue: seq<Callback>
    ghost var history: History

    ghost function View(): World
      reads this
    {
      World(kind, phase, tasks, current, total, totalIsBytes, cancelRequested, overwrite, inFlight, preparing, paused,
            timerOn, failed, shots, queue, worker, history)
    }

    constructor ()
      ensures View() == INITIAL && Inv(View())
    {
      kind, phase, tasks, current, total, totalIsBytes := NoBatch, Idle, [], 0, 0, false;
      cancelRequested, overwrite, inFlight, preparing, paused, timerOn, failed := false, false, false, false, false, false, [];
      shots, worker, queue := 0, Resting, [];
      history := History([], [], 0, [], 0, [], []);
    }

    method BeGiven(kind: Kind, tasks: seq<Task>)
      modifies `kind, `phase, `tasks, `current, `total, `totalIsBytes, `cancelRequested, `overwrite, `inFlight,
        `preparing, `paused, `failed, `history
      ensures this.kind == kind && phase == Preparing && this.tasks == tasks && failed == []
      ensures current == 0 && total == |tasks| && !totalIsBytes && !cancelRequested && !overwrite
      ensures !inFlight && !preparing && !paused
      ensures history == old(history).(given := tasks, taken := [], outcomes := [], started := old(history).started + 1,
                                                answers := [])
    {
      this.kind, phase, this.tasks := kind, Preparing, tasks;
      current, total, totalIsBytes := 0, |tasks|, false;
      cancelRequested, overwrite, inFlight, preparing, paused := false, false, false, false, false;
      failed := [];
      history := history.(given := tasks, taken := [], outcomes := [], started := history.started + 1, answers := []);
    }

    /** A start request; it is refused while a batch is active. */
    method StartBatchEngine(kind: Kind, tasks: seq<Task>) returns (ok: bool)
      requires !kind.NoBatch?
      modifies this
      ensures ok == old(this.kind).NoBatch?
      ensures View() == StartBatch(old(View()), kind, tasks)
      ensures old(Inv(View())) ==> Inv(View())
    {
      hide Inv, Given, Transfers;
      if Inv(View()) {
        StartKeepsInv(View(), kind, tasks);
      }
      if !this.kind.NoBatch? {
        return false;
      }
      TakeOver(kind, tasks);
      SetGoing();
      return true;
    }

    /** A request to copy or move: it records whether to overwrite, and then starts the engine. */
    method StartPaths(kind: Kind, tasks: seq<Task>, overwrite: bool) returns (ok: bool)
      requires !kind.NoBatch?
      modifies this
      ensures ok == old(this.kind).NoBatch?
      ensures View() == RequestBatch(old(View()), kind, tasks, overwrite)
      ensures old(Inv(View())) ==> Inv(View())
      ensures ok ==> !this.overwrite
    {
      hide Inv, StartBatch, RequestBatch;
      ghost var before := View();
      RequestTurnsOff(before, kind, tasks, overwrite);
      if !this.kind.NoBatch? {
        return false;
      }
      this.overwrite := overwrite;
      assert View() == before.(overwrite := overwrite);
      ok := StartBatchEngine(kind, tasks);
    }

    method TakeOver(kind: Kind, tasks: seq<Task>)
      modifies `kind, `phase, `tasks, `current, `total, `totalIsBytes, `cancelRequested, `overwrite, `inFlight,
        `preparing, `paused, `failed, `history
      ensures View() == Given(old(View()), kind, tasks) && this.kind == kind && !paused
    {
      BeGiven(kind, tasks);
    }

    /** Transfers are measured first; other batches start at once. */
    method SetGoing()
      modifies `preparing, `worker, `phase, `timerOn
      ensures View() == if Transfers(kind) then old(View()).(preparing := true, worker := Estimating)
                        else old(View()).(phase := if paused then Paused else Running, timerOn := timerOn)
      ensures Transfers(kind) || timerOn == (old(timerOn) || !paused)
    {
      if Transfers(kind) {
        preparing := true;
        worker := Estimating;
        return;
      }
      GoRunning();
    }

    method GoRunning()
      modifies `phase, `timerOn
      ensures phase == (if paused then Paused else Running) && timerOn == (old(timerOn) || !paused)
    {
      phase := if paused then Paused else Running;
      if !paused {
        timerOn := true;
      }
    }

    method Clear()
      modifies `kind, `phase, `tasks, `current, `total, `totalIsBytes, `cancelRequested, `inFlight, `preparing, `paused, `timerOn
      ensures kind == NoBatch && phase == Idle && tasks == [] && current == 0 && total == 0 && !totalIsBytes
      ensures !cancelRequested && !inFlight && !preparing && !paused && !timerOn
    {
      timerOn := false;
      kind, tasks, current, total := NoBatch, [], 0, 0;
      cancelRequested, totalIsBytes, inFlight, preparing, paused := false, false, false, false, false;
      phase := Idle;
    }

    method FinishBatchEngine(ok: bool, error: Error)
      modifies this
      ensures View() == FinishBatch(old(View()), ok, error)
    {
      if ok && totalIsBytes {
        current := total;
      }
      var finalOk := ok && failed == [];
      var finalError := if error.NoError? && failed != [] then PartialFailed else error;
      history := history.(finishes := history.finishes + [Finish(finalOk, current, total, finalError)]);
      Clear();
    }

    /** The callback of the size estimate. */
    method OnPreparedBatch(totalBytes: int)
      modifies this
      ensures View() == OnPrepared(old(View()), totalBytes)
    {
      hide Measured, FinishBatch;
      preparing := false;
      if kind.NoBatch? {
        return;
      }
      if cancelRequested {
        FinishBatchEngine(false, Cancelled);
        return;
      }
      GoOnMeasured(totalBytes);
    }

    method GoOnMeasured(totalBytes: int)
      modifies `total, `totalIsBytes, `phase, `timerOn
      ensures View() == Measured(old(View()), totalBytes)
    {
      if totalBytes > 0 {
        total, totalIsBytes := totalBytes, true;
      }
      GoRunning();
    }

    method ProcessBatchStep()
      modifies this
      ensures View() == ProcessStep(old(View()))
      ensures old(Inv(View())) ==> Inv(View())
    {
      hide FinishBatch, Inv;
      if Inv(View()) {
        StepsKeepInv(View());
      }
      if kind.NoBatch? {
        timerOn := false;
        return;
      }
      if inFlight {
        return;
      }
      if preparing || phase.Preparing? {
        return;
      }
      if cancelRequested {
        FinishBatchEngine(false, Cancelled);
        return;
      }
      if paused {
        return;
      }
      if tasks == [] {
        FinishBatchEngine(true, NoError);
        return;
      }
      TakeFirst();
    }

    /** Takes the first task off the list and hands it to a worker. */
    method TakeFirst()
      requires tasks != []
      modifies `tasks, `inFlight, `phase, `timerOn, `worker, `history
      ensures tasks == old(tasks)[1..] && inFlight && phase == Running && !timerOn
      ensures worker == Working(kind, old(tasks)[0], current)
      ensures history == old(history).(taken := old(history).taken + [old(tasks)[0]], base := current)
    {
      var task, taskBase := tasks[0], current;
      tasks := tasks[1..];
      inFlight, phase, timerOn := true, Running, false;
      worker := Working(kind, task, taskBase);
      history := history.(taken := history.taken + [task], base := taskBase);
    }

    method OnBatchTaskProgress(baseBytes: int, currentBytes: int, totalBytes: int)
      modifies this
      ensures View() == OnProgress(old(View()), baseBytes, currentBytes, totalBytes)
    {
      if !totalIsBytes || kind.NoBatch? {
        return;
      }
      var bound := if totalBytes > 0 then totalBytes else 1;
      var next := baseBytes + Bound(0, currentBytes, bound);
      if next > total {
        next := total;
      }
      if next < 0 {
        next := 0;
      }
      if next != current {
        current := next;
      }
    }

    static method BytesOf(task: Task, bytesTotal: int, sizeNow: int) returns (step: int)
      ensures step == ByteStep(task, bytesTotal, sizeNow)
    {
      step := bytesTotal;
      if step <= 0 && !task.isFolder {
        step := sizeNow;
      }
      if step <= 0 {
        step := 1;
      }
    }

    method CountSettledTask(taskKind: Kind, task: Task, ok: bool, bytesTotal: int, sizeNow: int)
      modifies this`failed, this`current, this`history
      ensures var w := CountTask(old(View()), taskKind, task, ok, bytesTotal, sizeNow);
              failed == w.failed && current == w.current && history == w.history
    {
      hide ByteStep, Transfers;
      history := history.(outcomes := history.outcomes + [Outcome(task, ok)]);
      if !ok {
        failed := failed + [task];
        if !totalIsBytes {
          current := current + 1;
        }
      } else if totalIsBytes {
        if Transfers(taskKind) {
          var step := BytesOf(task, bytesTotal, sizeNow);
          current := current + step;
        } else {
          current := current + 1;
        }
      } else {
        current := current + 1;
      }
      if totalIsBytes && current > total {
        current := total;
      }
    }

    method GoOn()
      modifies this
      ensures View() == Continue(old(View()))
    {
      if cancelRequested {
        FinishBatchEngine(false, Cancelled);
        return;
      }
      if paused {
        return;
      }
      if tasks == [] {
        FinishBatchEngine(true, NoError);
        return;
      }
      shots := shots + 1;
    }

    method CountAndGoOn(taskKind: Kind, task: Task, ok: bool, bytesTotal: int, sizeNow: int)
      modifies this
      ensures View() == Continue(CountTask(old(View()), taskKind, task, ok, bytesTotal, sizeNow))
    {
      hide CountTask, Continue;
      CountChangesOnly(View(), taskKind, task, ok, bytesTotal, sizeNow);
      CountSettledTask(taskKind, task, ok, bytesTotal, sizeNow);
      GoOn();
    }

    /** The completion callback of a task. */
    method OnTaskSettled(taskKind: Kind, task: Task, ok: bool, bytesTotal: int, sizeNow: int)
      modifies this
      ensures View() == OnSettled(old(View()), taskKind, task, ok, bytesTotal, sizeNow)
      ensures !old(kind).NoBatch? ==> failed == old(failed) + if ok then [] else [task]
    {
      hide ByteStep, Transfers;
      if !kind.NoBatch? {
        SettledMeans(View(), taskKind, task, ok, bytesTotal, sizeNow);
      }
      inFlight := false;
      if kind.NoBatch? {
        return;
      }
      hide CountTask, Continue;
      CountAndGoOn(taskKind, task, ok, bytesTotal, sizeNow);
    }

    method CancelActiveBatchOperation() returns (ok: bool)
      modifies this
      ensures ok == !old(kind).NoBatch? && View() == CancelBatch(old(View()))
      ensures old(Inv(View())) ==> Inv(View())
    {
      hide Inv;
      if Inv(View()) {
        CancelKeepsInv(View());
      }
      if kind.NoBatch? {
        return false;
      }
      cancelRequested, phase := true, Cancelling;
      return true;
    }

    method PauseActiveBatchOperation() returns (ok: bool)
      modifies this
      ensures ok == !(old(kind).NoBatch? || old(phase).Preparing?) && View() == PauseBatch(old(View()))
      ensures old(Inv(View())) ==> Inv(View())
    {
      hide Inv;
      if Inv(View()) {
        PauseKeepsInv(View());
      }
      if kind.NoBatch? || phase.Preparing? {
        return false;
      }
      paused, phase := true, Paused;
      return true;
    }

    method ResumeActiveBatchOperation() returns (ok: bool)
      modifies this
      ensures ok == !(old(kind).NoBatch? || old(phase).Preparing?) && View() == ResumeBatch(old(View()))
      ensures old(Inv(View())) ==> Inv(View())
    {
      hide Inv;
      if Inv(View()) {
        ResumeKeepsInv(View());
      }
      if kind.NoBatch? || phase.Preparing? {
        return false;
      }
      paused, phase := false, Running;
      shots := shots + 1;
      return true;
    }

    method Dispatch(c: Callback, sizeNow: int)
      modifies this
      ensures View() == Handle(old(View()), c, sizeNow)
    {
      hide OnPrepared, OnProgress, OnSettled;
      match c {
        case Prepared(totalBytes) => OnPreparedBatch(totalBytes);
        case Progressed(b, done, t) => OnBatchTaskProgress(b, done, t);
        case Settled(k, task, ok, bytesTotal) => OnTaskSettled(k, task, ok, bytesTotal, sizeNow);
      }
    }

    /** The event loop delivers the callback that has waited longest. */
    method DeliverNext(sizeNow: int)
      requires queue != []
      modifies this
      ensures View() == Next(old(View()), Deliver(sizeNow))
      ensures old(Inv(View())) ==> Inv(View())
    {
      hide Inv, Handle;
      if Inv(View()) {
        NextKeepsInv(View(), Deliver(sizeNow));
      }
      var c := queue[0];
      queue := queue[1..];
      Dispatch(c, sizeNow);
    }
  }
}
