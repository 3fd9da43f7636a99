/** A potential that every step of real progress lowers and that only faults raise. */
module Potential {
  import opened Types
  import opened MasterSpec
  import opened Protocol
  import opened Effects
  import opened Invariants

  function Weight(s: Status): nat {
    match s
    case Ready => 4
    case Queue => 0
    case Running => 1
    case Finish => 0
    case Err => 4
  }

  function Sum(stats: seq<TaskStat>): nat {
    if stats == [] then 0 else Sum(stats[..|stats| - 1]) + Weight(stats[|stats| - 1].status)
  }

  lemma {:induction false} SumUpdate(stats: seq<TaskStat>, i: nat, x: TaskStat)
    requires i < |stats|
    ensures Sum(stats[i := x]) == Sum(stats) - Weight(stats[i].status) + Weight(x.status)
  {
    var n := |stats| - 1;
    if i == n {
      assert stats[i := x][..n] == stats[..n];
    } else {
      assert stats[i := x][..n] == stats[..n][i := x];
      SumUpdate(stats[..n], i, x);
    }
  }

  lemma {:induction false} SumFresh(n: nat)
    ensures Sum(FreshStats(n)) == 4 * n
  {
    if n > 0 {
      assert FreshStats(n)[..n - 1] == FreshStats(n - 1);
      SumFresh(n - 1);
    }
  }

  /** The work that is still ahead: what the tasks and tokens of this phase need, and the next phase. */
  function Phi(c: Control): nat {
    Sum(c.m.stats) + 3 * |c.m.ch| + 2 * |c.hands| +
    (if c.m.phase == MapPhase then 4 * c.m.nReduce + 2 else if c.m.done then 0 else 1)
  }

  /** A timeout, a failure report that is acted on, or an acted-on report about a task that is not running. */
  predicate Faulty(c: Control, e: Effect) {
    match e
    case Sent(i) => i < |c.m.stats| && c.m.stats[i].status == Running
    case Settled(j) =>
      && j < |c.execs| && c.execs[j].task.seqNo < |c.m.stats|
      && (Verdict(c.execs[j]) == Some(false) || c.m.stats[c.execs[j].task.seqNo].status != Running)
    case _ => false
  }

  predicate Fault(c: Control, st: Step)
    requires Next(c, st).Some?
  {
    Faulty(c, EffectOf(c, st))
  }

  /** A step that moves the job on: a send, a receive, a registration, an accepted success, the phase
      switch, the end of the job. Idle schedule passes, registrations of workers, ignored reports and
      the work between them do not count. */
  predicate Moving(c: Control, e: Effect) {
    !Faulty(c, e) && !e.Quiet? && !e.Ignored? && !e.Advanced?
  }

  predicate Effective(c: Control, st: Step)
    requires Next(c, st).Some?
  {
    Moving(c, EffectOf(c, st))
  }

  /** A running task was queued again. */
  ghost predicate Requeues(c: Control, d: Control) {
    && d.m.phase == c.m.phase && |d.m.stats| == |c.m.stats|
    && exists i :: 0 <= i < |c.m.stats| && c.m.stats[i].status == Running && d.m.stats[i].status == Queue
  }

  /** A report is acted on that is a failure, or that is about a task that is not running. */
  predicate BadReport(c: Control, st: Step) {
    && st.Report? && st.exec < |c.execs|
    && var e := c.execs[st.exec];
    && e.task.phase == c.m.phase && e.task.seqNo < |c.m.stats| && e.worker == c.m.stats[e.task.seqNo].workerId
    && (Verdict(e) == Some(false) || c.m.stats[e.task.seqNo].status != Running)
  }

  /** What counts as a fault. */
  lemma FaultsAreTimeoutsAndBadReports(c: Control, st: Step, d: Control)
    requires Inv(c) && Next(c, st) == Some(d)
    ensures Fault(c, st) <==> Requeues(c, d) || BadReport(c, st)
  {
    hide Tokens, QueuedHasToken, Provenance, FinishAccepted, Barrier, Next, AfterReport, TaskFor, FreshStats;
    StepChanges(c, st, d);
    var e := EffectOf(c, st);
    if e.Sent? && c.m.stats[e.i].status == Running { assert d.m.stats[e.i].status == Queue; }
    SettlesByReport(c, st);
  }

  lemma SettlesByReport(c: Control, st: Step)
    requires Next(c, st).Some?
    ensures EffectOf(c, st).Settled? <==>
              st.Report? && st.exec < |c.execs| &&
              Accepts(c.m, c.execs[st.exec].worker, c.execs[st.exec].task.seqNo, c.execs[st.exec].task.phase)
    ensures EffectOf(c, st).Settled? ==> EffectOf(c, st).j == st.exec
    ensures EffectOf(c, st).Sent? ==> st.Item?
  {
  }

  /** What counts as effective: every step that is no fault and changes the phase, a status, a token, or
      whether the job is done or the master alive. */
  lemma EffectiveStepsChangeSomething(c: Control, st: Step, d: Control)
    requires Inv(c) && Next(c, st) == Some(d) && !Fault(c, st)
    ensures Effective(c, st) <==> Moved(c, d)
  {
    hide Tokens, QueuedHasToken, Provenance, FinishAccepted, Barrier, AfterReport, TaskFor, Verdict;
    StepChanges(c, st, d);
    var e := EffectOf(c, st);
    if e.Received? { assert |d.hands| != |c.hands|; }
    if e.Sent? { assert d.m.stats[e.i].status == Queue; }
    if e.Settled? { assert d.m.stats[c.execs[e.j].task.seqNo].status != Running; }
  }

  predicate Moved(c: Control, d: Control) {
    || d.m.phase != c.m.phase || d.m.done != c.m.done || d.m.halt != c.m.halt
    || d.m.stats != c.m.stats || d.m.ch != c.m.ch || d.hands != c.hands
  }

  lemma PhiOfStats(c: Control, e: Effect, c': Control)
    requires InRange(c.m) && Changes(c, e, c')
    ensures e.Sent? ==> Sum(c'.m.stats) == Sum(c.m.stats) - Weight(c.m.stats[e.i].status)
    ensures e.Switched? ==> Sum(c'.m.stats) == 4 * c.m.nReduce
    ensures e.Handed? ==> Sum(c'.m.stats) <= Sum(c.m.stats) + 1
    ensures e.Settled? ==>
              var x := c.execs[e.j];
              Sum(c'.m.stats) == Sum(c.m.stats) - Weight(c.m.stats[x.task.seqNo].status) + if Verdict(x).value then 0 else 4
    ensures !e.Sent? && !e.Switched? && !e.Handed? && !e.Settled? ==> Sum(c'.m.stats) == Sum(c.m.stats)
  {
    match e
    case Sent(i) => SumUpdate(c.m.stats, i, c'.m.stats[i]);
    case Switched => SumFresh(c.m.nReduce);
    case Handed(h, at) =>
      var i := c.hands[h].task.seqNo;
      SumUpdate(c.m.stats, i, c'.m.stats[i]);
    case Settled(j) =>
      var i := c.execs[j].task.seqNo;
      SumUpdate(c.m.stats, i, c'.m.stats[i]);
    case _ =>
  }

  lemma PhiOfTokens(c: Control, e: Effect, c': Control)
    requires InRange(c.m) && Changes(c, e, c')
    ensures |c'.m.ch| == |c.m.ch| + if e.Sent? then 1 else if e.Received? then -1 else 0
    ensures |c'.hands| == |c.hands| + if e.Received? then 1 else if e.Handed? || e.Panicked? then -1 else 0
  {
  }

  lemma PhiStep(c: Control, e: Effect, c': Control)
    requires InRange(c.m) && Changes(c, e, c')
    requires e.Ended? ==> !c.m.done
    requires c.m.done ==> c.m.phase == ReducePhase
    ensures Phi(c') + (if Moving(c, e) then 1 else 0) <= Phi(c) + (if Faulty(c, e) then 4 else 0)
  {
    PhiOfStats(c, e, c');
    PhiOfTokens(c, e, c');
  }

  function Faults(c: Control, steps: seq<Step>): nat
    requires Run(c, steps).Some?
  {
    if steps == [] then 0 else
      Faults(c, steps[..|steps| - 1]) +
      if Fault(Run(c, steps[..|steps| - 1]).value, steps[|steps| - 1]) then 1 else 0
  }

  function EffectiveSteps(c: Control, steps: seq<Step>): nat
    requires Run(c, steps).Some?
  {
    if steps == [] then 0 else
      EffectiveSteps(c, steps[..|steps| - 1]) +
      if Effective(Run(c, steps[..|steps| - 1]).value, steps[|steps| - 1]) then 1 else 0
  }

  lemma {:induction false} PhiRun(files: seq<string>, nReduce: nat, steps: seq<Step>)
    requires Run(InitControl(files, nReduce), steps).Some?
    ensures EffectiveSteps(InitControl(files, nReduce), steps) + Phi(Run(InitControl(files, nReduce), steps).value)
            <= 4 * (|files| + nReduce) + 2 + 4 * Faults(InitControl(files, nReduce), steps)
  {
    var init := InitControl(files, nReduce);
    if steps == [] {
      SumFresh(|files|);
    } else {
      var front := steps[..|steps| - 1];
      PhiRun(files, nReduce, front);
      InvRun(files, nReduce, front);
      var c, st := Run(init, front).value, steps[|steps| - 1];
      StepChanges(c, st, Run(init, steps).value);
      PhiStep(c, EffectOf(c, st), Run(init, steps).value);
    }
  }

  /** In every run, timely or not, the number of effective steps is bounded by the size of the job and
      the number of faults. */
  lemma BoundedWork(files: seq<string>, nReduce: nat, steps: seq<Step>)
    requires Run(InitControl(files, nReduce), steps).Some?
    ensures EffectiveSteps(InitControl(files, nReduce), steps)
            <= 4 * (|files| + nReduce) + 2 + 4 * Faults(InitControl(files, nReduce), steps)
  {
    PhiRun(files, nReduce, steps);
  }
}
