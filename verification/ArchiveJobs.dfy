/**
 Extracting and compressing archives: a batch without tasks whose one worker reports a service job. The
 callbacks are guarded by kind and id only, so that they reach the right batch rests on the queue being
 first in, first out, and on nothing else ending the batch.
 */
module ArchiveJobs {
  import opened Prelude

  datatype Kind = NoBatch | Extract | Compress

  /** Each callback carries, for stating properties only, the number of the batch it was posted for. */
  datatype Callback =
    | JobKnown(batch: nat, kind: Kind, op: string, job: string)
    | JobProgressed(batch: nat, kind: Kind, op: string, job: string, percent: int)
    | JobDone(batch: nat, kind: Kind, op: string, job: string, ok: bool)

  /** A detached thread: it asks the service for a job, then polls it, or runs the fallback if it got no job id. */
  datatype Worker = Worker(batch: nat, kind: Kind, op: string, job: string, requested: bool)

  datatype Finish = Finish(batch: nat, ok: bool, processed: int, total: int)

  datatype World = World(
    kind: Kind,
    id: string,
    daemonJob: string,
    current: int,
    total: int,
    cancelling: bool,
    queue: seq<Callback>,
    workers: seq<Worker>,
    shots: nat,
    started: nat,
    finishes: seq<Finish>,
    announced: seq<nat>)

  const INITIAL := World(NoBatch, "", "", 0, 0, false, [], [], 0, 0, [], [])

  predicate Active(w: World) {
    !w.kind.NoBatch?
  }

  // ---------- the main thread ----------

  function StartArchive(w: World, kind: Kind, op: string, estimate: int): World {
    if Active(w) || kind.NoBatch? then
      w
    else
      w.(kind := kind, id := op, daemonJob := "", current := 0, total := Max(1, estimate), cancelling := false,
         workers := w.workers + [Worker(w.started + 1, kind, op, "", false)], started := w.started + 1)
  }

  function FinishArchive(w: World, ok: bool): World {
    w.(kind := NoBatch, id := "", daemonJob := "", current := 0, total := 0, cancelling := false,
       finishes := w.finishes + [Finish(w.started, ok, if ok then w.total else w.current, w.total)])
  }

  function OnJobKnown(w: World, kind: Kind, job: string): World {
    if w.kind != kind then w else w.(id := job, daemonJob := job)
  }

  function OnJobProgressed(w: World, kind: Kind, job: string, percent: int): World {
    if w.kind != kind then w
    else if w.daemonJob != "" && w.daemonJob != job then w
    else
      var total := Max(1, w.total);
      w.(current := Bound(0, total * Bound(0, percent, 100) / 100, total))
  }

  function OnJobDone(w: World, batch: nat, kind: Kind, op: string, job: string, ok: bool): World {
    var w := if w.kind == kind && (w.id == op || w.id == job || w.id == "") then FinishArchive(w, ok) else w;
    w.(announced := w.announced + [batch])
  }

  /** Cancelling only asks the service; it needs the job's id. */
  function CancelArchive(w: World, serviceAgrees: bool): World {
    if Active(w) && w.daemonJob != "" && serviceAgrees then w.(cancelling := true) else w
  }

  /** A single-shot engine step, left over from a file batch: an archive batch has no tasks, so the step ends it. */
  function OnLeftoverShot(w: World): World
    requires w.shots > 0
  {
    var w := w.(shots := w.shots - 1);
    if Active(w) then FinishArchive(w, true) else w
  }

  // ---------- steps ----------

  datatype Step =
    | Start(kind: Kind, op: string, estimate: int)
    | Cancel(serviceAgrees: bool)
    | Deliver
    | LeftoverShot
    | RequestAnswered(i: nat, job: string)
    | Polled(i: nat, percent: int)
    | WorkDone(i: nat, ok: bool)

  predicate Enabled(w: World, s: Step) {
    match s
    case Start(kind, _, _) => !kind.NoBatch?
    case Cancel(_) => true
    case Deliver => w.queue != []
    case LeftoverShot => w.shots > 0
    case RequestAnswered(i, _) => i < |w.workers| && !w.workers[i].requested
    case Polled(i, _) => i < |w.workers| && w.workers[i].requested && w.workers[i].job != ""
    case WorkDone(i, _) => i < |w.workers| && w.workers[i].requested
  }

  function Handle(w: World, c: Callback): World {
    match c
    case JobKnown(_, kind, _, job) => OnJobKnown(w, kind, job)
    case JobProgressed(_, kind, _, job, percent) => OnJobProgressed(w, kind, job, percent)
    case JobDone(batch, kind, op, job, ok) => OnJobDone(w, batch, kind, op, job, ok)
  }

  function Next(w: World, s: Step): World
    requires Enabled(w, s)
  {
    match s
    case Start(kind, op, estimate) => StartArchive(w, kind, op, estimate)
    case Cancel(serviceAgrees) => CancelArchive(w, serviceAgrees)
    case Deliver => Handle(w.(queue := w.queue[1..]), w.queue[0])
    case LeftoverShot => OnLeftoverShot(w)
    case RequestAnswered(i, job) =>
      var k := w.workers[i];
      var w := w.(workers := w.workers[i := k.(job := job, requested := true)]);
      if job == "" then w else w.(queue := w.queue + [JobKnown(k.batch, k.kind, k.op, job)])
    case Polled(i, percent) =>
      var k := w.workers[i];
      w.(queue := w.queue + [JobProgressed(k.batch, k.kind, k.op, k.job, percent)])
    case WorkDone(i, ok) =>
      var k := w.workers[i];
      w.(workers := w.workers[..i] + w.workers[i + 1..], queue := w.queue + [JobDone(k.batch, k.kind, k.op, k.job, ok)])
  }

  // ---------- the invariant ----------

  /** The callbacks waiting all belong to the current batch and to the job it asked for. */
  predicate Belongs(w: World, c: Callback, op: string, job: string) {
    c.batch == w.started && c.kind == w.kind && c.op == op && c.job == job
  }

  predicate OneJob(w: World) {
    if |w.workers| == 1 then
      var k := w.workers[0];
      && k.batch == w.started && k.kind == w.kind && (w.id == k.op || w.id == k.job)
      && (!k.requested ==> k.job == "" && w.id == k.op && w.queue == [])
      && (w.daemonJob == "" || w.daemonJob == k.job)
      && forall i :: 0 <= i < |w.queue| ==> Belongs(w, w.queue[i], k.op, k.job) && !w.queue[i].JobDone?
    else
      && w.workers == [] && w.queue != []
      && var last := w.queue[|w.queue| - 1];
      && last.JobDone? && (w.id == last.op || w.id == last.job)
      && (w.daemonJob == "" || w.daemonJob == last.job)
      && forall i :: 0 <= i < |w.queue| ==> Belongs(w, w.queue[i], last.op, last.job) && (i < |w.queue| - 1 ==> !w.queue[i].JobDone?)
  }

  predicate Inv(w: World) {
    && (if Active(w) then OneJob(w) && 0 <= w.current <= w.total && w.total >= 1
        else w.workers == [] && w.queue == [] && w.current == w.total == 0)
    && w.started == |w.finishes| + (if Active(w) then 1 else 0)
    && (forall k :: 0 <= k < |w.finishes| ==> w.finishes[k].batch == k + 1)
    && |w.announced| == |w.finishes|
  }

  lemma StartKeepsInv(w: World, s: Step)
    requires Inv(w) && s.Start? && Enabled(w, s)
    ensures Inv(Next(w, s))
  {
  }

  lemma WorkersKeepInv(w: World, s: Step)
    requires Inv(w) && Enabled(w, s) && (s.RequestAnswered? || s.Polled? || s.WorkDone?)
    ensures Inv(Next(w, s))
  {
  }

  lemma DeliverKeepsInv(w: World)
    requires Inv(w) && w.queue != []
    ensures Inv(Next(w, Deliver))
    ensures Active(w) && w.queue[0].batch == w.started && w.queue[0].kind == w.kind
    ensures w.queue[0].JobDone? ==>
              && Next(w, Deliver).finishes
                 == w.finishes + [Finish(w.started, w.queue[0].ok, if w.queue[0].ok then w.total else w.current, w.total)]
              && Next(w, Deliver).announced == w.announced + [w.started]
  {
    var w' := Next(w, Deliver);
    assert Belongs(w, w.queue[0], w.queue[0].op, w.queue[0].job);
    if w.queue[0].JobDone? {
      assert |w.queue| == 1;
    } else {
      assert forall i :: 0 <= i < |w'.queue| ==> w'.queue[i] == w.queue[i + 1];
    }
  }

  /** Without leftover engine steps the invariant is kept by every step. */
  lemma NextKeepsInv(w: World, s: Step)
    requires Inv(w) && Enabled(w, s) && !s.LeftoverShot?
    ensures Inv(Next(w, s))
  {
    match s
    case Start(_, _, _) => StartKeepsInv(w, s);
    case Cancel(_) =>
    case Deliver => DeliverKeepsInv(w);
    case _ => WorkersKeepInv(w, s);
  }

  predicate IsRun(w: World, steps: seq<Step>)
    decreases |steps|
  {
    steps == [] || (Enabled(w, steps[0]) && IsRun(Next(w, steps[0]), steps[1..]))
  }

  function After(w: World, steps: seq<Step>): World
    requires IsRun(w, steps)
    decreases |steps|
  {
    if steps == [] then w else After(Next(w, steps[0]), steps[1..])
  }

  lemma {:induction false} RunKeepsInv(w: World, steps: seq<Step>)
    requires Inv(w) && w.shots == 0 && IsRun(w, steps)
    ensures Inv(After(w, steps)) && After(w, steps).shots == 0
    decreases |steps|
  {
    if steps != [] {
      NextKeepsInv(w, steps[0]);
      RunKeepsInv(Next(w, steps[0]), steps[1..]);
    }
  }

  // ---------- main results ----------

  /** If no engine step is left over when the first archive batch starts, then in every run: a callback that is
      delivered belongs to the active batch, never to an earlier one; every batch that is over was reported finished
      exactly once, in order; the progress stays in range. */
  lemma EveryRun(steps: seq<Step>)
    requires IsRun(INITIAL, steps)
    ensures var w := After(INITIAL, steps);
            && (w.queue != [] ==> Active(w) && w.queue[0].batch == w.started && w.queue[0].kind == w.kind)
            && |w.workers| <= 1
            && |w.finishes| == w.started - (if Active(w) then 1 else 0)
            && (forall k :: 0 <= k < |w.finishes| ==> w.finishes[k].batch == k + 1)
            && 0 <= w.current <= w.total
  {
    RunKeepsInv(INITIAL, steps);
    var w := After(INITIAL, steps);
    if w.queue != [] {
      DeliverKeepsInv(w);
    }
  }

  /** A batch is reported finished by its own completion only, with the worker's verdict, and with full progress if ok. */
  lemma FinishVerdict(w: World, s: Step)
    requires Inv(w) && w.shots == 0 && Enabled(w, s) && Next(w, s).finishes != w.finishes
    ensures s.Deliver? && w.queue[0].JobDone? && w.queue[0].batch == w.started
    ensures var f := Next(w, s).finishes[|w.finishes|];
            f.batch == w.started && f.ok == w.queue[0].ok && f.total == w.total && (f.ok ==> f.processed == f.total)
  {
  }

  /** The progress shown is the reported percentage of the total, rounded down. */
  lemma ProgressIsShare(w: World, kind: Kind, job: string, percent: int)
    requires Active(w) && w.kind == kind && (w.daemonJob == "" || w.daemonJob == job) && w.total >= 1
    ensures var w', p := OnJobProgressed(w, kind, job, percent), Bound(0, percent, 100);
            && 100 * w'.current <= w.total * p < 100 * (w'.current + 1)
            && (percent >= 100 ==> w'.current == w.total) && (percent <= 0 ==> w'.current == 0)
            && w' == w.(current := w'.current)
  {
    var p := Bound(0, percent, 100);
    assert 0 <= w.total * p <= w.total * 100;
  }

  /** What the last worker to finish in these steps said. */
  function Said(steps: seq<Step>, before: Option<bool>): Option<bool> {
    if steps == [] then before
    else Said(steps[1..], if steps[0].WorkDone? then Some(steps[0].ok) else before)
  }

  /** A completion that is waiting carries what its worker said. */
  predicate Carried(w: World, said: Option<bool>) {
    forall i :: 0 <= i < |w.queue| && w.queue[i].JobDone? ==> said == Some(w.queue[i].ok)
  }

  lemma NextCarries(w: World, s: Step, said: Option<bool>)
    requires Inv(w) && Enabled(w, s) && !s.LeftoverShot? && Carried(w, said)
    ensures Carried(Next(w, s), if s.WorkDone? then Some(s.ok) else said)
  {
    if s.Deliver? {
      QueueShrinks(w);
    }
  }

  lemma QueueShrinks(w: World)
    requires w.queue != []
    ensures Next(w, Deliver).queue == w.queue[1..]
  {
  }

  lemma {:induction false} RunCarries(w: World, steps: seq<Step>, said: Option<bool>)
    requires Inv(w) && w.shots == 0 && IsRun(w, steps) && Carried(w, said)
    ensures Carried(After(w, steps), Said(steps, said))
    decreases |steps|
  {
    if steps != [] {
      hide Next, Inv, Carried;
      var s := steps[0];
      NextKeepsInv(w, s);
      KeepsShots(w, s);
      NoShotSteps(w, s);
      NextCarries(w, s, said);
      RunCarries(Next(w, s), steps[1..], if s.WorkDone? then Some(s.ok) else said);
    }
  }

  lemma NoShotSteps(w: World, s: Step)
    requires w.shots == 0 && Enabled(w, s)
    ensures !s.LeftoverShot?
  {
  }

  /** In every run, a batch is reported ok exactly if its worker said so. */
  lemma ReportTellsWorker(steps: seq<Step>, s: Step)
    requires IsRun(INITIAL, steps) && Enabled(After(INITIAL, steps), s)
    requires Next(After(INITIAL, steps), s).finishes != After(INITIAL, steps).finishes
    ensures var w := After(INITIAL, steps);
            var w' := Next(w, s);
            && |w'.finishes| == |w.finishes| + 1 && w'.finishes[|w.finishes|].batch == w.started
            && Said(steps, None) == Some(w'.finishes[|w.finishes|].ok)
  {
    assert Carried(INITIAL, None);
    RunKeepsInv(INITIAL, steps);
    RunCarries(INITIAL, steps, None);
    FinishVerdict(After(INITIAL, steps), s);
    DeliverKeepsInv(After(INITIAL, steps));
  }

  /** How much of the active batch is still to come: steps of its worker and callbacks. */
  function Rank(w: World): nat {
    |w.queue| + (if w.workers == [] then 0 else if w.workers[0].requested then 2 else 4)
  }

  /** The steps the event loop and the worker take by themselves. */
  predicate Essential(s: Step) {
    s.Deliver? || s.RequestAnswered? || s.WorkDone?
  }

  lemma DeliverNears(w: World)
    requires Inv(w) && w.queue != []
    ensures Rank(Next(w, Deliver)) < Rank(w)
  {
    DeliverKeepsInv(w);
  }

  lemma WorkNears(w: World, s: Step)
    requires Inv(w) && Enabled(w, s) && (s.RequestAnswered? || s.WorkDone?)
    ensures Rank(Next(w, s)) < Rank(w)
  {
  }

  lemma OthersDoNot(w: World, s: Step)
    requires Inv(w) && Active(w) && Enabled(w, s) && (s.Polled? || s.Start? || s.Cancel?)
    ensures Rank(Next(w, s)) == Rank(w) + if s.Polled? then 1 else 0
  {
  }

  /** An active batch always has a step that brings it nearer its finish report; only progress polls add to what is left. */
  lemma BatchesEnd(w: World) returns (s: Step)
    requires Inv(w) && w.shots == 0 && Active(w)
    ensures Enabled(w, s) && Essential(s)
    ensures forall s' :: Enabled(w, s') && Essential(s') ==> Rank(Next(w, s')) < Rank(w)
    ensures forall s' :: Enabled(w, s') && s'.Polled? ==> Rank(Next(w, s')) == Rank(w) + 1
    ensures forall s' :: Enabled(w, s') && (s'.Start? || s'.Cancel?) ==> Rank(Next(w, s')) == Rank(w)
  {
    s := EssentialStep(w);
    hide Inv, Next, Rank;
    forall s' | Enabled(w, s') && Essential(s') ensures Rank(Next(w, s')) < Rank(w) {
      if s'.Deliver? {
        DeliverNears(w);
      } else {
        WorkNears(w, s');
      }
    }
    forall s' | Enabled(w, s') && (s'.Polled? || s'.Start? || s'.Cancel?)
      ensures Rank(Next(w, s')) == Rank(w) + if s'.Polled? then 1 else 0
    {
      OthersDoNot(w, s');
    }
  }

  lemma EssentialStep(w: World) returns (s: Step)
    requires Inv(w) && Active(w)
    ensures Enabled(w, s) && Essential(s)
  {
    if w.queue != [] {
      s := Deliver;
    } else if w.workers[0].requested {
      s := WorkDone(0, true);
    } else {
      s := RequestAnswered(0, "");
    }
  }

  /** The event loop and the worker have nothing left to do. */
  ghost predicate Quiet(w: World) {
    forall s :: Enabled(w, s) ==> !Essential(s)
  }

  /** A run that is followed until nothing is left to do ends without a batch, every batch started in it or before having
      been reported finished exactly once. */
  lemma QuietRunsFinish(w: World, steps: seq<Step>)
    requires Inv(w) && w.shots == 0 && IsRun(w, steps) && Quiet(After(w, steps))
    ensures var w' := After(w, steps);
            !Active(w') && |w'.finishes| == |w'.announced| == w'.started
  {
    RunKeepsInv(w, steps);
    if Active(After(w, steps)) {
      var s := EssentialStep(After(w, steps));
      assert false;
    }
  }

  /** And every run can be followed that far, in at most Rank steps. */
  lemma {:induction false} QuietIsReached(w: World) returns (steps: seq<Step>)
    requires Inv(w) && w.shots == 0
    ensures IsRun(w, steps) && Quiet(After(w, steps)) && |steps| <= Rank(w)
    ensures forall s :: s in steps ==> Essential(s)
    decreases Rank(w)
  {
    hide Next, Inv, Rank;
    if s :| Enabled(w, s) && Essential(s) {
      NextKeepsInv(w, s);
      KeepsShots(w, s);
      if s.Deliver? {
        DeliverNears(w);
      } else {
        WorkNears(w, s);
      }
      var rest := QuietIsReached(Next(w, s));
      steps := [s] + rest;
      assert steps[1..] == rest;
    } else {
      steps := [];
    }
  }

  lemma KeepsShots(w: World, s: Step)
    requires Enabled(w, s) && !s.LeftoverShot?
    ensures Next(w, s).shots == w.shots
  {
  }

  /** A leftover engine step is harmless exactly when no archive batch is active; otherwise it reports the batch as
      successfully finished while its worker is still to be heard from. */
  lemma LeftoverShotExactly(w: World)
    requires Inv(w) && w.shots > 0
    ensures Next(w, LeftoverShot) == w.(shots := w.shots - 1) <==> !Active(w)
    ensures Active(w) ==>
              var w' := Next(w, LeftoverShot);
              && w'.finishes == w.finishes + [Finish(w.started, true, w.total, w.total)]
              && !Active(w') && (w'.workers != [] || w'.queue != [])
  {
  }

  /** After that, callbacks do cross batches: the first batch's job id becomes the id of the second. */
  lemma LeftoverShotMixesBatches() returns (steps: seq<Step>)
    ensures IsRun(INITIAL.(shots := 1), steps)
    ensures var w := After(INITIAL.(shots := 1), steps);
            && w.kind == Extract && w.started == 2 && w.queue != [] && w.queue[0].batch == 1
            && w.id == "op-2" && Next(w, Deliver).id == "job-1"
  {
    var s1, s2, s3, s4: Step := Start(Extract, "op-1", 5), LeftoverShot, Start(Extract, "op-2", 5), RequestAnswered(0, "job-1");
    hide After, IsRun;
    var w1 := Next(INITIAL.(shots := 1), s1);
    var w2 := Next(w1, s2);
    var w3 := Next(w2, s3);
    NoSteps(Next(w3, s4));
    FirstStep(w3, s4, []);
    FirstStep(w2, s3, [s4]);
    FirstStep(w1, s2, [s3, s4]);
    FirstStep(INITIAL.(shots := 1), s1, [s2, s3, s4]);
    steps := [s1, s2, s3, s4];
    assert [s4] == [s4] + [] && [s3, s4] == [s3] + [s4] && [s2, s3, s4] == [s2] + [s3, s4] && steps == [s1] + [s2, s3, s4];
  }

  lemma NoSteps(w: World)
    ensures IsRun(w, []) && After(w, []) == w
  {
  }

  lemma FirstStep(w: World, s: Step, rest: seq<Step>)
    requires Enabled(w, s) && IsRun(Next(w, s), rest)
    ensures IsRun(w, [s] + rest) && After(w, [s] + rest) == After(Next(w, s), rest)
  {
    assert ([s] + rest)[1..] == rest;
  }

  // ---------- polling the service ----------

  datatype JobState = Pending | Completed | Failed | JobCancelled
  datatype Reply = Invalid | Status(progress: int, state: JobState)
  datatype Verdict = Success | StatusFailed | JobFailed | TimedOut

  /** The verdict over the replies that arrive before the time is up, and the progress values passed on. */
  function PollOutcome(replies: seq<Reply>): (r: (Verdict, seq<int>)) {
    if replies == [] then
      (TimedOut, [])
    else
      match replies[0]
      case Invalid => (StatusFailed, [])
      case Status(progress, state) =>
        var shown := Bound(0, progress, 100);
        match state
        case Completed => (Success, [shown])
        case Failed => (JobFailed, [shown])
        case JobCancelled => (JobFailed, [shown])
        case Pending =>
          var rest := PollOutcome(replies[1..]);
          (rest.0, [shown] + rest.1)
  }

  predicate StillPending(r: Reply) {
    r.Status? && r.state.Pending?
  }

  /** The verdict is decided by the first reply that is not a pending status; every status up to it is passed on. */
  lemma {:induction false} FirstDecides(replies: seq<Reply>, k: nat)
    requires k <= |replies| && (forall i :: 0 <= i < k ==> StillPending(replies[i]))
    requires k < |replies| ==> !StillPending(replies[k])
    ensures PollOutcome(replies).0 ==
            if k == |replies| then TimedOut
            else if replies[k].Invalid? then StatusFailed
            else if replies[k].state.Completed? then Success else JobFailed
    ensures |PollOutcome(replies).1| == if k < |replies| && replies[k].Status? then k + 1 else k
    ensures forall i :: 0 <= i < |PollOutcome(replies).1| ==>
              replies[i].Status? && PollOutcome(replies).1[i] == Bound(0, replies[i].progress, 100)
  {
    if k > 0 {
      FirstDecides(replies[1..], k - 1);
    }
  }

  method WaitJobResult(replies: seq<Reply>) returns (verdict: Verdict, shown: seq<int>)
    ensures (verdict, shown) == PollOutcome(replies)
  {
    shown := [];
    var i := 0;
    assert replies[0..] == replies;
    assert [] + PollOutcome(replies).1 == PollOutcome(replies).1;
    while i < |replies|
      invariant 0 <= i <= |replies|
      invariant PollOutcome(replies) == (PollOutcome(replies[i..]).0, shown + PollOutcome(replies[i..]).1)
    {
      var reply := replies[i];
      if reply.Invalid? {
        assert shown + [] == shown;
        return StatusFailed, shown;
      }
      ghost var before := shown;
      ghost var rest := PollOutcome(replies[i..]);
      shown := shown + [Bound(0, reply.progress, 100)];
      if reply.state.Completed? {
        return Success, shown;
      }
      if reply.state.Failed? || reply.state.JobCancelled? {
        return JobFailed, shown;
      }
      assert replies[i..][1..] == replies[i + 1..];
      assert before + rest.1 == shown + PollOutcome(replies[i + 1..]).1;
      i := i + 1;
    }
    assert replies[i..] == [];
    assert shown + [] == shown;
    return TimedOut, shown;
  }

  // ---------- the object ----------

  class ArchiveController {
    var kind: Kind
    var id: string
    var daemonJob: string
    var current: int
    var total: int
    var cancelling: bool
    var queue: seq<Callback>
    var workers: seq<Worker>
    var shots: nat
    var started: nat
    var finishes: seq<Finish>
    var announced: seq<nat>

    ghost function View(): World
      reads this
    {
      World(kind, id, daemonJob, current, total, cancelling, queue, workers, shots, started, finishes, announced)
    }

    constructor (shots: nat)
      ensures View() == INITIAL.(shots := shots) && Inv(View())
    {
      kind, id, daemonJob, current, total, cancelling := NoBatch, "", "", 0, 0, false;
      queue, workers, this.shots, started, finishes, announced := [], [], shots, 0, [], [];
    }

    method Start(newKind: Kind, op: string, estimate: int) returns (ok: bool)
      requires !newKind.NoBatch?
      modifies this
      ensures ok == old(kind).NoBatch? && View() == StartArchive(old(View()), newKind, op, estimate)
      ensures old(Inv(View())) ==> Inv(View())
    {
      hide Inv;
      if Inv(View()) {
        NextKeepsInv(View(), Step.Start(newKind, op, estimate));
      }
      if !kind.NoBatch? {
        return false;
      }
      Begin(newKind, op, estimate);
      return true;
    }

    method Begin(newKind: Kind, op: string, estimate: int)
      modifies `kind, `id, `daemonJob, `current, `total, `cancelling, `started, `workers
      ensures kind == newKind && id == op && daemonJob == "" && current == 0 && total == Max(1, estimate) && !cancelling
      ensures started == old(started) + 1 && workers == old(workers) + [Worker(started, newKind, op, "", false)]
    {
      kind, id, daemonJob := newKind, op, "";
      current, total, cancelling := 0, Max(1, estimate), false;
      started := started + 1;
      workers := workers + [Worker(started, newKind, op, "", false)];
    }

    method FinishBatch(ok: bool)
      modifies this
      ensures View() == FinishArchive(old(View()), ok)
    {
      if ok {
        current := total;
      }
      finishes := finishes + [Finish(started, ok, current, total)];
      kind, id, daemonJob, current, total, cancelling := NoBatch, "", "", 0, 0, false;
    }

    /** The event loop delivers the callback that has waited longest. */
    method DeliverNext()
      requires queue != []
      modifies this
      ensures View() == Next(old(View()), Deliver)
      ensures old(Inv(View())) ==> Inv(View())
    {
      hide Inv;
      if Inv(View()) {
        NextKeepsInv(View(), Deliver);
      }
      var c := queue[0];
      queue := queue[1..];
      match c {
        case JobKnown(_, k, _, job) =>
          if kind == k {
            id, daemonJob := job, job;
          }
        case JobProgressed(_, k, _, job, percent) =>
          if kind == k && (daemonJob == "" || daemonJob == job) {
            var bound := Max(1, total);
            var now := Bound(0, bound * Bound(0, percent, 100) / 100, bound);
            if now != current {
              current := now;
            }
          }
        case JobDone(batch, k, op, job, ok) =>
          if kind == k && (id == op || id == job || id == "") {
            FinishBatch(ok);
          }
          announced := announced + [batch];
      }
    }
  }
}
