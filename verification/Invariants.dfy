/** What every step of every run keeps, however late its reports and however many its timeouts. */
module Invariants {
  import opened Types
  import opened MasterSpec
  import opened Protocol
  import opened Effects

  // ---- shape

  ghost predicate Shape(m: MasterState) {
    && InRange(m)
    && m.halt != IndexPanic
    && (m.done ==> m.phase == ReducePhase)
    && (m.scan.Scanning? ==>
        && !m.done
        && m.scan.next <= |m.stats|
        && (m.scan.allFinish ==> forall i | 0 <= i < m.scan.next :: m.stats[i].status == Finish))
  }

  // ---- history

  /** The worker that task i of a phase was last handed to. */
  function LatestWorker(execs: seq<Exec>, phase: TaskPhase, i: nat): Option<nat> {
    if execs == [] then None else
    var e := execs[|execs| - 1];
    if e.task.phase == phase && e.task.seqNo == i then Some(e.worker)
    else LatestWorker(execs[..|execs| - 1], phase, i)
  }

  /** Execution j of task i reported success, and the report was acted on. */
  predicate AcceptedAt(execs: seq<Exec>, j: int, phase: TaskPhase, i: nat) {
    && 0 <= j < |execs|
    && execs[j].task.phase == phase && execs[j].task.seqNo == i
    && execs[j].pc == Reported(true, true)
  }

  ghost predicate Accepted(execs: seq<Exec>, phase: TaskPhase, i: nat) {
    exists j :: AcceptedAt(execs, j, phase, i)
  }

  ghost predicate AcceptedFrom(execs: seq<Exec>, phase: TaskPhase, i: nat, worker: nat) {
    exists j :: AcceptedAt(execs, j, phase, i) && execs[j].worker == worker
  }

  /** Executions are never forgotten, and a report once made stands. */
  ghost predicate Grows(a: seq<Exec>, b: seq<Exec>) {
    && |a| <= |b|
    && (forall j | 0 <= j < |a| :: b[j].worker == a[j].worker && b[j].task == a[j].task)
    && (forall j | 0 <= j < |a| :: a[j].pc.Reported? ==> b[j].pc == a[j].pc)
  }

  lemma AcceptedStands(a: seq<Exec>, b: seq<Exec>, phase: TaskPhase, i: nat, worker: nat)
    requires Grows(a, b)
    ensures Accepted(a, phase, i) ==> Accepted(b, phase, i)
    ensures AcceptedFrom(a, phase, i, worker) ==> AcceptedFrom(b, phase, i, worker)
  {
    forall j | AcceptedAt(a, j, phase, i) ensures AcceptedAt(b, j, phase, i) {}
  }

  lemma {:induction false} LatestWorkerSame(a: seq<Exec>, b: seq<Exec>, phase: TaskPhase, i: nat)
    requires |a| == |b|
    requires forall j | 0 <= j < |a| :: b[j].worker == a[j].worker && b[j].task == a[j].task
    ensures LatestWorker(a, phase, i) == LatestWorker(b, phase, i)
  {
    if a != [] {
      LatestWorkerSame(a[..|a| - 1], b[..|b| - 1], phase, i);
    }
  }

  lemma {:induction false} LatestWorkerNone(execs: seq<Exec>, phase: TaskPhase, i: nat)
    requires forall j | 0 <= j < |execs| :: execs[j].task.phase != phase
    ensures LatestWorker(execs, phase, i) == None
  {
    if execs != [] {
      LatestWorkerNone(execs[..|execs| - 1], phase, i);
    }
  }

  /** What LatestWorker means: an execution of the task by that worker, and none after it. */
  lemma {:induction false} LatestWorkerIsLatest(execs: seq<Exec>, phase: TaskPhase, i: nat) returns (j: nat)
    requires LatestWorker(execs, phase, i).Some?
    ensures j < |execs| && execs[j].task.phase == phase && execs[j].task.seqNo == i
    ensures execs[j].worker == LatestWorker(execs, phase, i).value
    ensures forall k | j < k < |execs| :: !(execs[k].task.phase == phase && execs[k].task.seqNo == i)
  {
    var e := execs[|execs| - 1];
    if e.task.phase == phase && e.task.seqNo == i {
      j := |execs| - 1;
    } else {
      j := LatestWorkerIsLatest(execs[..|execs| - 1], phase, i);
    }
  }

  lemma ChangeGrows(c: Control, e: Effect, c': Control)
    requires InRange(c.m) && Changes(c, e, c')
    ensures Grows(c.execs, c'.execs)
  {
  }

  // ---- the invariant

  /** No task is lost: a queued task has a token of the current phase in the channel or in hand. */
  ghost predicate QueuedHasToken(c: Control)
    requires InRange(c.m)
  {
    forall i | 0 <= i < |c.m.stats| :: c.m.stats[i].status == Queue ==> TokenOf(c.m, i) in Tokens(c)
  }

  /** The recorded worker is the one the task was last handed to in this phase, and only a task that
      was handed out can be running, finished or failed. */
  ghost predicate Provenance(c: Control) {
    forall i | 0 <= i < |c.m.stats| :: Recorded(c, i)
  }

  predicate Recorded(c: Control, i: nat)
    requires i < |c.m.stats|
  {
    match LatestWorker(c.execs, c.m.phase, i)
    case None => c.m.stats[i].status in {Ready, Queue}
    case Some(w) => c.m.stats[i].workerId == w && c.m.stats[i].status != Ready
  }

  /** A finished task has an accepted success report from its recorded worker, in this phase. */
  ghost predicate FinishAccepted(c: Control) {
    forall i | 0 <= i < |c.m.stats| ::
      c.m.stats[i].status == Finish ==> AcceptedFrom(c.execs, c.m.phase, i, c.m.stats[i].workerId)
  }

  /** The phase barrier: reducing starts only after every map task was accepted, and the job is done
      only after every reduce task was. */
  ghost predicate Barrier(c: Control) {
    && (c.m.phase == ReducePhase ==> forall i | 0 <= i < |c.m.files| :: Accepted(c.execs, MapPhase, i))
    && (c.m.done ==> forall r | 0 <= r < c.m.nReduce :: Accepted(c.execs, ReducePhase, r))
  }

  ghost predicate Inv(c: Control) {
    && Shape(c.m)
    && TokensOk(c)
    && ExecsOk(c)
    && QueuedHasToken(c)
    && Provenance(c)
    && FinishAccepted(c)
    && Barrier(c)
  }

  lemma InitInv(files: seq<string>, nReduce: nat)
    ensures Inv(InitControl(files, nReduce))
  {
  }

  lemma ShapeStep(c: Control, st: Step, c': Control)
    requires Inv(c) && Next(c, st) == Some(c')
    ensures Shape(c'.m)
  {
    StepChanges(c, st, c');
    match st
    case Item(now) => ScanStaysInShape(c.m, now);
    case _ =>
  }

  lemma ScanStaysInShape(m: MasterState, now: int)
    requires Shape(m) && m.scan.Scanning? && m.scan.next < |m.stats| && ScanItem(m, now).Some?
    ensures Shape(ScanItem(m, now).value)
  {
  }

  lemma TokenIsOk(m: MasterState, i: nat)
    requires InRange(m) && i < |m.stats|
    ensures TaskOk(m, TokenOf(m, i))
  {
  }

  lemma TasksOkStep(c: Control, e: Effect, c': Control)
    requires Inv(c) && Changes(c, e, c')
    ensures TokensOk(c') && ExecsOk(c')
  {
    hide Tokens, TaskOk;
    TokensChange(c, e, c');
    forall t | TaskOk(c.m, t) ensures TaskOk(c'.m, t) { TaskStaysOk(c, e, c', t); }
    if e.Sent? {
      TokenIsOk(c.m, e.i);
    } else if e.Handed? {
      assert TaskOk(c.m, c.hands[e.h].task);
    }
    ExecTasks(c, e, c');
  }

  /** Every execution's task was an execution's task before, or has just been in hand. */
  lemma ExecTasks(c: Control, e: Effect, c': Control)
    requires InRange(c.m) && Changes(c, e, c')
    ensures forall j | 0 <= j < |c.execs| :: j < |c'.execs| && c'.execs[j].task == c.execs[j].task
    ensures e.Handed? ==> |c'.execs| == |c.execs| + 1 && c'.execs[|c.execs|].task == c.hands[e.h].task
    ensures !e.Handed? ==> |c'.execs| == |c.execs|
  {
  }

  lemma QueuedHasTokenStep(c: Control, e: Effect, c': Control)
    requires Inv(c) && Changes(c, e, c') && InRange(c'.m)
    ensures QueuedHasToken(c')
  {
    hide Tokens;
    TokensChange(c, e, c');
    forall i | 0 <= i < |c'.m.stats| && c'.m.stats[i].status == Queue
      ensures TokenOf(c'.m, i) in Tokens(c')
    {
      assert !e.Switched?;
      assert TokenOf(c'.m, i) == TokenOf(c.m, i);
      if e.Sent? && e.i == i {
      } else {
        assert c.m.stats[i].status == Queue;
      }
    }
  }

  lemma ProvenanceStep(c: Control, e: Effect, c': Control)
    requires Inv(c) && Changes(c, e, c')
    ensures Provenance(c')
  {
    ChangeGrows(c, e, c');
    forall i | 0 <= i < |c'.m.stats| ensures Recorded(c', i) {
      if e.Switched? {
        LatestWorkerNone(c'.execs, c'.m.phase, i);
      } else if e.Handed? {
        assert c'.execs[..|c'.execs| - 1] == c.execs;
        assert Recorded(c, i);
      } else {
        assert Recorded(c, i);
        LatestWorkerSame(c.execs, c'.execs, c.m.phase, i);
        if e.Settled? && c.execs[e.j].task.seqNo == i {
          HandedHasLatest(c.execs, e.j, c.m.phase, i);
        }
      }
    }
  }

  lemma {:induction false} HandedHasLatest(execs: seq<Exec>, j: nat, phase: TaskPhase, i: nat)
    requires j < |execs| && execs[j].task.phase == phase && execs[j].task.seqNo == i
    ensures LatestWorker(execs, phase, i).Some?
  {
    if j < |execs| - 1 {
      HandedHasLatest(execs[..|execs| - 1], j, phase, i);
    }
  }

  lemma FinishAcceptedStep(c: Control, e: Effect, c': Control)
    requires Inv(c) && Changes(c, e, c')
    ensures FinishAccepted(c')
  {
    ChangeGrows(c, e, c');
    forall i | 0 <= i < |c'.m.stats| && c'.m.stats[i].status == Finish
      ensures AcceptedFrom(c'.execs, c'.m.phase, i, c'.m.stats[i].workerId)
    {
      if e.Settled? && c.execs[e.j].task.seqNo == i {
        assert AcceptedAt(c'.execs, e.j, c'.m.phase, i);
      } else {
        AcceptedStands(c.execs, c'.execs, c.m.phase, i, c.m.stats[i].workerId);
      }
    }
  }

  lemma BarrierStep(c: Control, st: Step, c': Control)
    requires Inv(c) && Next(c, st) == Some(c')
    ensures Barrier(c')
  {
    StepChanges(c, st, c');
    var e := EffectOf(c, st);
    ChangeGrows(c, e, c');
    if e.Switched? || e.Ended? {
      forall i: nat | i < |c.m.stats| ensures Accepted(c.execs, c.m.phase, i) {
        assert c.m.stats[i].status == Finish;
        assert AcceptedFrom(c.execs, c.m.phase, i, c.m.stats[i].workerId);
      }
    }
    forall phase, i: nat | Accepted(c.execs, phase, i) ensures Accepted(c'.execs, phase, i) {
      AcceptedStands(c.execs, c'.execs, phase, i, 0);
    }
  }

  lemma InvStep(c: Control, st: Step, c': Control)
    requires Inv(c) && Next(c, st) == Some(c')
    ensures Inv(c')
  {
    StepChanges(c, st, c');
    var e := EffectOf(c, st);
    ShapeStep(c, st, c');
    TasksOkStep(c, e, c');
    QueuedHasTokenStep(c, e, c');
    ProvenanceStep(c, e, c');
    FinishAcceptedStep(c, e, c');
    BarrierStep(c, st, c');
  }

  /** Every state of every run satisfies the invariant. */
  lemma {:induction false} InvRun(files: seq<string>, nReduce: nat, steps: seq<Step>)
    requires Run(InitControl(files, nReduce), steps).Some?
    ensures Inv(Run(InitControl(files, nReduce), steps).value)
  {
    var init := InitControl(files, nReduce);
    if steps == [] {
      InitInv(files, nReduce);
    } else {
      var front := steps[..|steps| - 1];
      InvRun(files, nReduce, front);
      InvStep(Run(init, front).value, steps[|steps| - 1], Run(init, steps).value);
    }
  }

  // ---- what this means for a run

  lemma {:induction false} FilesFixed(files: seq<string>, nReduce: nat, steps: seq<Step>)
    requires Run(InitControl(files, nReduce), steps).Some?
    ensures var m := Run(InitControl(files, nReduce), steps).value.m; m.files == files && m.nReduce == nReduce
  {
    if steps != [] {
      var front := steps[..|steps| - 1];
      FilesFixed(files, nReduce, front);
      var init := InitControl(files, nReduce);
      InvRun(files, nReduce, front);
      StepChanges(Run(init, front).value, steps[|steps| - 1], Run(init, steps).value);
    }
  }

  /** In every run, no slice of the master is ever indexed out of range, although the phases have
      different numbers of tasks and tokens and reports of either phase may arrive in the other. */
  lemma IndicesStayInRange(files: seq<string>, nReduce: nat, steps: seq<Step>)
    requires Run(InitControl(files, nReduce), steps).Some?
    ensures var m := Run(InitControl(files, nReduce), steps).value.m;
      m.halt != IndexPanic && |m.stats| == TaskCount(m.files, m.nReduce, m.phase)
  {
    InvRun(files, nReduce, steps);
  }

  lemma TokenIsSomewhere(c: Control, t: Task)
    requires t in Tokens(c)
    ensures t in c.m.ch || exists h :: 0 <= h < |c.hands| && c.hands[h].task == t
  {
    if t !in c.m.ch {
      assert t in HandTasks(c.hands);
      var h :| 0 <= h < |c.hands| && HandTasks(c.hands)[h] == t;
      assert c.hands[h].task == t;
    }
  }

  /** In every run, a queued task has a token of the current phase in the channel or in hand. */
  lemma NoTaskIsLost(files: seq<string>, nReduce: nat, steps: seq<Step>, i: nat)
    requires Run(InitControl(files, nReduce), steps).Some?
    requires var m := Run(InitControl(files, nReduce), steps).value.m; i < |m.stats| && m.stats[i].status == Queue
    ensures var c := Run(InitControl(files, nReduce), steps).value;
      exists t: Task :: t.phase == c.m.phase && t.seqNo == i
        && (t in c.m.ch || exists h :: 0 <= h < |c.hands| && c.hands[h].task == t)
  {
    InvRun(files, nReduce, steps);
    var c := Run(InitControl(files, nReduce), steps).value;
    TokenIsSomewhere(c, TokenOf(c.m, i));
  }

  /** In every run, a running, finished or failed task was handed out in the current phase, last of all
      to exactly the worker recorded for it. */
  lemma RecordedWorkerHasTheTask(files: seq<string>, nReduce: nat, steps: seq<Step>, i: nat)
    requires Run(InitControl(files, nReduce), steps).Some?
    requires var m := Run(InitControl(files, nReduce), steps).value.m;
      i < |m.stats| && m.stats[i].status in {Running, Finish, Err}
    ensures var c := Run(InitControl(files, nReduce), steps).value;
      exists j :: 0 <= j < |c.execs|
        && c.execs[j].task.phase == c.m.phase && c.execs[j].task.seqNo == i
        && c.execs[j].worker == c.m.stats[i].workerId
        && forall k | j < k < |c.execs| :: !(c.execs[k].task.phase == c.m.phase && c.execs[k].task.seqNo == i)
  {
    InvRun(files, nReduce, steps);
    var c := Run(InitControl(files, nReduce), steps).value;
    assert Recorded(c, i);
    var j := LatestWorkerIsLatest(c.execs, c.m.phase, i);
  }

  /** The step is a success report about task i of a phase, by execution j, that is acted on. */
  predicate SuccessReport(c: Control, st: Step, j: nat, phase: TaskPhase, i: nat) {
    && st == Report(j) && j < |c.execs|
    && var e := c.execs[j];
    && e.task.phase == phase && e.task.seqNo == i
    && Verdict(e) == Some(true) && Accepts(c.m, e.worker, i, phase)
  }

  /** An execution gets its mark of acceptance by a success report that is acted on, and in no other way. */
  lemma AcceptedExactlyBySuccess(c: Control, st: Step, c': Control, j: nat, phase: TaskPhase, i: nat)
    requires Next(c, st) == Some(c')
    ensures AcceptedAt(c'.execs, j, phase, i) <==> AcceptedAt(c.execs, j, phase, i) || SuccessReport(c, st, j, phase, i)
  {
  }

  /** Some step of a run is a success report about task i of a phase that is acted on. */
  ghost predicate Succeeded(c: Control, steps: seq<Step>, phase: TaskPhase, i: nat)
    requires Run(c, steps).Some?
  {
    steps != [] &&
    var front, st := steps[..|steps| - 1], steps[|steps| - 1];
    Succeeded(c, front, phase, i) || exists j: nat :: SuccessReport(Run(c, front).value, st, j, phase, i)
  }

  /** A task has the mark of acceptance exactly if there was such a report in the run. */
  lemma {:induction false} AcceptedMeansSucceeded(c: Control, steps: seq<Step>, phase: TaskPhase, i: nat)
    requires c.execs == [] && Run(c, steps).Some?
    ensures Accepted(Run(c, steps).value.execs, phase, i) <==> Succeeded(c, steps, phase, i)
  {
    if steps != [] {
      var front, st := steps[..|steps| - 1], steps[|steps| - 1];
      var b, c' := Run(c, front).value, Run(c, steps).value;
      AcceptedMeansSucceeded(c, front, phase, i);
      forall j: nat
        ensures AcceptedAt(c'.execs, j, phase, i) <==> AcceptedAt(b.execs, j, phase, i) || SuccessReport(b, st, j, phase, i)
      {
        AcceptedExactlyBySuccess(b, st, c', j, phase, i);
      }
    }
  }

  /** In every run, the reduce phase has begun only if for every map task a success report was acted on
      in the map phase, and the job is done only if the same holds for every reduce task. */
  lemma PhaseBarrier(files: seq<string>, nReduce: nat, steps: seq<Step>)
    requires Run(InitControl(files, nReduce), steps).Some?
    ensures var init := InitControl(files, nReduce);
      var m := Run(init, steps).value.m;
      && (m.phase == ReducePhase || m.done ==> forall i: nat | i < |files| :: Succeeded(init, steps, MapPhase, i))
      && (m.done ==> forall r: nat | r < nReduce :: Succeeded(init, steps, ReducePhase, r))
  {
    var init := InitControl(files, nReduce);
    var c := Run(init, steps).value;
    InvRun(files, nReduce, steps);
    FilesFixed(files, nReduce, steps);
    forall phase, i: nat | Accepted(c.execs, phase, i) ensures Succeeded(init, steps, phase, i) {
      AcceptedMeansSucceeded(init, steps, phase, i);
    }
  }

  /** Phase and done never go back, and accepted reports stay accepted. */
  lemma {:induction false} NothingGoesBack(files: seq<string>, nReduce: nat, steps: seq<Step>, k: nat)
    requires k <= |steps| && Run(InitControl(files, nReduce), steps).Some?
    ensures var c, c' := StateAt(InitControl(files, nReduce), steps, k), Run(InitControl(files, nReduce), steps).value;
      && (c.m.phase == ReducePhase ==> c'.m.phase == ReducePhase)
      && (c.m.done ==> c'.m.done)
      && forall phase, i: nat | Accepted(c.execs, phase, i) :: Accepted(c'.execs, phase, i)
  {
    var init := InitControl(files, nReduce);
    if k == |steps| {
      assert steps[..k] == steps;
    } else {
      var front, st := steps[..|steps| - 1], steps[|steps| - 1];
      NothingGoesBack(files, nReduce, front, k);
      assert front[..k] == steps[..k];
      InvRun(files, nReduce, front);
      var b, c' := Run(init, front).value, Run(init, steps).value;
      StepChanges(b, st, c');
      ChangeGrows(b, EffectOf(b, st), c');
      forall phase, i: nat | Accepted(b.execs, phase, i) ensures Accepted(c'.execs, phase, i) {
        AcceptedStands(b.execs, c'.execs, phase, i, 0);
      }
    }
  }

  /** The id that a registration step hands out. */
  function IdGiven(c: Control, steps: seq<Step>, k: nat): nat
    requires k < |steps| && Run(c, steps).Some?
  {
    StateAt(c, steps, k + 1).m.workerSeq
  }

  lemma IdsKeepGrowing(c: Control, st: Step, c': Control)
    requires Next(c, st) == Some(c')
    ensures c'.m.workerSeq == c.m.workerSeq + if st == Register then 1 else 0
  {
  }

  lemma {:induction false} IdsOnlyGrow(c: Control, steps: seq<Step>, a: nat, b: nat)
    requires a <= b <= |steps| && Run(c, steps).Some?
    ensures StateAt(c, steps, a).m.workerSeq <= StateAt(c, steps, b).m.workerSeq
  {
    hide Next, Run;
    if a < b {
      IdsOnlyGrow(c, steps, a, b - 1);
      StateAtNext(c, steps, b - 1);
      IdsKeepGrowing(StateAt(c, steps, b - 1), steps[b - 1], StateAt(c, steps, b));
    }
  }

  /** Workers are registered under positive ids, and no two under the same one. */
  lemma WorkerIdsAreDistinct(c: Control, steps: seq<Step>, a: nat, b: nat)
    requires a < b < |steps| && Run(c, steps).Some?
    requires steps[a] == Register && steps[b] == Register
    ensures 0 < IdGiven(c, steps, a) < IdGiven(c, steps, b)
  {
    hide Next, Run;
    StateAtNext(c, steps, a);
    IdsKeepGrowing(StateAt(c, steps, a), Register, StateAt(c, steps, a + 1));
    IdsOnlyGrow(c, steps, a + 1, b);
    StateAtNext(c, steps, b);
    IdsKeepGrowing(StateAt(c, steps, b), Register, StateAt(c, steps, b + 1));
  }
}
