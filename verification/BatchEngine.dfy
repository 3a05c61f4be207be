/**
 The file batch engine as a transition system: the main thread's fields, the queue of callbacks its workers
 post to it, and the pending single-shot steps. The functions below are the bodies of the engine, one each;
 EngineObject.dfy has the object that runs them in place and BatchRuns.dfy what holds over whole runs.
 */
module BatchEngine {
  import opened Prelude

  datatype Kind = NoBatch | Copy | Move | Restore | Delete | Trash
  datatype Phase = Idle | Preparing | Running | Paused | Cancelling
  datatype Task = Task(id: int, isFolder: bool)

  /** Callbacks queued to the main thread, delivered first in, first out. */
  datatype Callback =
    | Prepared(totalBytes: int)
    | Progressed(base: int, done: int, total: int)
    | Settled(kind: Kind, task: Task, ok: bool, bytesTotal: int)

  datatype Worker =
    | Resting
    | Estimating
    | Working(kind: Kind, task: Task, base: int)

  datatype Error = NoError | Cancelled | PartialFailed
  datatype Finish = Finish(ok: bool, processed: int, total: int, error: Error)
  datatype Outcome = Outcome(task: Task, ok: bool)

  /** What the properties speak about: the batch started last (the list given to it, the tasks taken, the count when
      the last one was taken, the outcomes the engine has counted), all batches (how many were started, and the finish
      reports), and, kept by the workers' own steps, what they answered for the tasks of the batch. */
  datatype History = History(
    given: seq<Task>,
    taken: seq<Task>,
    base: int,
    outcomes: seq<Outcome>,
    started: nat,
    finishes: seq<Finish>,
    answers: seq<Outcome>)

  datatype World = World(
    // the engine's fields
    kind: Kind,
    phase: Phase,
    tasks: seq<Task>,
    current: int,
    total: int,
    totalIsBytes: bool,
    cancelRequested: bool,
    overwrite: bool,
    inFlight: bool,
    preparing: bool,
    paused: bool,
    timerOn: bool,
    failed: seq<Task>,
    // what is under way around it
    shots: nat,
    queue: seq<Callback>,
    worker: Worker,
    history: History)

  const INITIAL := World(NoBatch, Idle, [], 0, 0, false, false, false, false, false, false, false, [],
                         0, [], Resting, History([], [], 0, [], 0, [], []))

  predicate Transfers(kind: Kind) {
    kind.Copy? || kind.Move? || kind.Restore?
  }

  // ---------- the engine ----------

  /** The fields of a batch that has just been given. */
  function Given(w: World, kind: Kind, tasks: seq<Task>): World {
    w.(kind := kind, phase := Preparing, tasks := tasks, current := 0, total := |tasks|, totalIsBytes := false,
       cancelRequested := false, overwrite := false, inFlight := false, preparing := false, paused := false, failed := [],
       history := w.history.(given := tasks, taken := [], outcomes := [], started := w.history.started + 1,
                                  answers := []))
  }

  function StartBatch(w: World, kind: Kind, tasks: seq<Task>): World {
    if !w.kind.NoBatch? || kind.NoBatch? then w
    else if Transfers(kind) then Given(w, kind, tasks).(preparing := true, worker := Estimating)
    else Given(w, kind, tasks).(phase := Running, timerOn := true)
  }

  lemma GivenForgets(w: World, kind: Kind, tasks: seq<Task>, overwrite: bool)
    ensures Given(w.(overwrite := overwrite), kind, tasks) == Given(w, kind, tasks)
  {
  }

  lemma StartForgets(w: World, kind: Kind, tasks: seq<Task>, overwrite: bool)
    requires w.kind.NoBatch?
    ensures !kind.NoBatch? ==> StartBatch(w.(overwrite := overwrite), kind, tasks) == StartBatch(w, kind, tasks)
  {
    hide Given, Transfers;
    GivenForgets(w, kind, tasks, overwrite);
  }

  /** A request to copy or move says whether to overwrite; the flag is set before the engine is started. */
  function RequestBatch(w: World, kind: Kind, tasks: seq<Task>, overwrite: bool): World {
    if !w.kind.NoBatch? then w else StartBatch(w.(overwrite := overwrite), kind, tasks)
  }

  lemma RequestIsStart(w: World, kind: Kind, tasks: seq<Task>, overwrite: bool)
    requires !kind.NoBatch?
    ensures RequestBatch(w, kind, tasks, overwrite) == StartBatch(w, kind, tasks)
  {
    if w.kind.NoBatch? {
      hide StartBatch;
      StartForgets(w, kind, tasks, overwrite);
    }
  }

  lemma RequestMeans(w: World, kind: Kind, tasks: seq<Task>, overwrite: bool)
    ensures RequestBatch(w, kind, tasks, overwrite) == if w.kind.NoBatch? then StartBatch(w.(overwrite := overwrite), kind, tasks) else w
  {
    hide StartBatch;
  }

  lemma StartTurnsOff(w: World, kind: Kind, tasks: seq<Task>)
    requires w.kind.NoBatch? && !kind.NoBatch?
    ensures !StartBatch(w, kind, tasks).overwrite
  {
    hide Transfers;
  }

  /** The fields without a batch. */
  function Cleared(w: World): World {
    w.(kind := NoBatch, phase := Idle, tasks := [], current := 0, total := 0, totalIsBytes := false,
       cancelRequested := false, inFlight := false, preparing := false, paused := false, timerOn := false)
  }

  function FinishBatch(w: World, ok: bool, error: Error): World {
    var processed := if ok && w.totalIsBytes then w.total else w.current;
    var finish := Finish(ok && w.failed == [], processed, w.total,
                         if error.NoError? && w.failed != [] then PartialFailed else error);
    Cleared(w.(history := w.history.(finishes := w.history.finishes + [finish])))
  }

  /** The total becomes the estimate, if there is one, and the batch goes on. */
  function Measured(w: World, totalBytes: int): World {
    var w := if totalBytes > 0 then w.(total := totalBytes, totalIsBytes := true) else w;
    if w.paused then w.(phase := Paused) else w.(phase := Running, timerOn := true)
  }

  function OnPrepared(w: World, totalBytes: int): World {
    var w := w.(preparing := false);
    if w.kind.NoBatch? then
      w
    else if w.cancelRequested then
      FinishBatch(w, false, Cancelled)
    else Measured(w, totalBytes)
  }

  function TakeTask(w: World): World
    requires w.tasks != []
  {
    w.(tasks := w.tasks[1..], inFlight := true, phase := Running, timerOn := false,
       worker := Working(w.kind, w.tasks[0], w.current),
       history := w.history.(taken := w.history.taken + [w.tasks[0]], base := w.current))
  }

  function ProcessStep(w: World): World {
    if w.kind.NoBatch? then w.(timerOn := false)
    else if w.inFlight then w
    else if w.preparing || w.phase.Preparing? then w
    else if w.cancelRequested then FinishBatch(w, false, Cancelled)
    else if w.paused then w
    else if w.tasks == [] then FinishBatch(w, true, NoError)
    else TakeTask(w)
  }

  function OnProgress(w: World, base: int, done: int, total: int): World {
    if !w.totalIsBytes || w.kind.NoBatch? then
      w
    else
      var total := if total > 0 then total else 1;
      var next := base + Bound(0, done, total);
      var next := if next > w.total then w.total else next;
      w.(current := if next < 0 then 0 else next)
  }

  /** The bytes a successful transfer adds: what the worker counted, else the file's size now, else one. */
  function ByteStep(task: Task, bytesTotal: int, sizeNow: int): (step: int)
    ensures step >= 1
  {
    var step := if bytesTotal <= 0 && !task.isFolder then sizeNow else bytesTotal;
    if step <= 0 then 1 else step
  }

  /** The counting part of a task's completion. */
  function CountTask(w: World, kind: Kind, task: Task, ok: bool, bytesTotal: int, sizeNow: int): World {
    var w := w.(history := w.history.(outcomes := w.history.outcomes + [Outcome(task, ok)]),
                failed := if ok then w.failed else w.failed + [task]);
    var w := if !w.totalIsBytes then w.(current := w.current + 1)
             else if !ok then w
             else w.(current := w.current + if Transfers(kind) then ByteStep(task, bytesTotal, sizeNow) else 1);
    if w.totalIsBytes && w.current > w.total then w.(current := w.total) else w
  }

  lemma CountChangesOnly(w: World, kind: Kind, task: Task, ok: bool, bytesTotal: int, sizeNow: int)
    ensures var w' := CountTask(w, kind, task, ok, bytesTotal, sizeNow);
            w' == w.(history := w.history.(outcomes := w.history.outcomes + [Outcome(task, ok)]),
                     failed := w'.failed, current := w'.current)
  {
  }

  /** What comes after a task. */
  function Continue(w: World): World {
    if w.cancelRequested then FinishBatch(w, false, Cancelled)
    else if w.paused then w
    else if w.tasks == [] then FinishBatch(w, true, NoError)
    else w.(shots := w.shots + 1)
  }

  function OnSettled(w: World, kind: Kind, task: Task, ok: bool, bytesTotal: int, sizeNow: int): World {
    var w := w.(inFlight := false);
    if w.kind.NoBatch? then w else Continue(CountTask(w, kind, task, ok, bytesTotal, sizeNow))
  }

  lemma CountFails(w: World, kind: Kind, task: Task, ok: bool, bytesTotal: int, sizeNow: int)
    ensures CountTask(w, kind, task, ok, bytesTotal, sizeNow).failed == w.failed + if ok then [] else [task]
  {
    hide ByteStep, Transfers;
    assert w.failed + [] == w.failed;
  }

  lemma ContinueKeepsCount(w: World)
    ensures Continue(w).failed == w.failed && Continue(w).history.outcomes == w.history.outcomes
    ensures Continue(w).history.answers == w.history.answers && (!w.inFlight ==> !Continue(w).inFlight)
  {
  }

  /** The answer to a task is counted as it was given: the task fails exactly if the worker said so. */
  lemma SettledMeans(w: World, kind: Kind, task: Task, ok: bool, bytesTotal: int, sizeNow: int)
    requires !w.kind.NoBatch?
    ensures var w' := OnSettled(w, kind, task, ok, bytesTotal, sizeNow);
            && w'.history.outcomes == w.history.outcomes + [Outcome(task, ok)]
            && w'.failed == w.failed + (if ok then [] else [task])
            && w'.history.answers == w.history.answers && !w'.inFlight
  {
    hide CountTask, Continue;
    var w1 := w.(inFlight := false);
    CountFails(w1, kind, task, ok, bytesTotal, sizeNow);
    CountChangesOnly(w1, kind, task, ok, bytesTotal, sizeNow);
    ContinueKeepsCount(CountTask(w1, kind, task, ok, bytesTotal, sizeNow));
  }

  function CancelBatch(w: World): World {
    if w.kind.NoBatch? then w else w.(cancelRequested := true, phase := Cancelling)
  }

  function PauseBatch(w: World): World {
    if w.kind.NoBatch? || w.phase.Preparing? then w else w.(paused := true, phase := Paused)
  }

  function ResumeBatch(w: World): World {
    if w.kind.NoBatch? || w.phase.Preparing? then w else w.(paused := false, phase := Running, shots := w.shots + 1)
  }

  // ---------- steps of the whole system ----------

  datatype Step =
    | Start(kind: Kind, tasks: seq<Task>, overwrite: bool)
    | Cancel
    | Pause
    | Resume
    | TimerTick
    | SingleShot
    | Deliver(sizeNow: int)
    | EstimateDone(totalBytes: int)
    | Report(done: int, total: int)
    | TaskDone(ok: bool, bytesTotal: int)

  predicate Enabled(w: World, s: Step) {
    match s
    case Start(kind, _, _) => !kind.NoBatch?
    case Cancel => true
    case Pause => true
    case Resume => true
    case TimerTick => w.timerOn
    case SingleShot => w.shots > 0
    case Deliver(_) => w.queue != []
    case EstimateDone(totalBytes) => w.worker.Estimating? && totalBytes >= 0
    case Report(_, _) => w.worker.Working? && Transfers(w.worker.kind)
    case TaskDone(_, _) => w.worker.Working?
  }

  function Handle(w: World, c: Callback, sizeNow: int): World {
    match c
    case Prepared(totalBytes) => OnPrepared(w, totalBytes)
    case Progressed(base, done, total) => OnProgress(w, base, done, total)
    case Settled(kind, task, ok, bytesTotal) => OnSettled(w, kind, task, ok, bytesTotal, sizeNow)
  }

  function Next(w: World, s: Step): World
    requires Enabled(w, s)
  {
    match s
    case Start(kind, tasks, overwrite) => RequestBatch(w, kind, tasks, overwrite)
    case Cancel => CancelBatch(w)
    case Pause => PauseBatch(w)
    case Resume => ResumeBatch(w)
    case TimerTick => ProcessStep(w)
    case SingleShot => ProcessStep(w.(shots := w.shots - 1))
    case Deliver(sizeNow) => Handle(w.(queue := w.queue[1..]), w.queue[0], sizeNow)
    case EstimateDone(totalBytes) => w.(worker := Resting, queue := w.queue + [Prepared(totalBytes)])
    case Report(done, total) =>
      var boundedTotal := if total > 1 then total else 1;
      w.(queue := w.queue + [Progressed(w.worker.base, Bound(0, done, boundedTotal), boundedTotal)])
    case TaskDone(ok, bytesTotal) =>
      w.(worker := Resting, queue := w.queue + [Settled(w.worker.kind, w.worker.task, ok, bytesTotal)],
         history := w.history.(answers := w.history.answers + [Outcome(w.worker.task, ok)]))
  }
}
