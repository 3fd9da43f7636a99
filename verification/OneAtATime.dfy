/** Workers that do one task at a time under an id of their own: a finished task stays finished. */
module OneAtATime {
  import opened Types
  import opened MasterSpec
  import opened Protocol
  import opened Effects
  import opened Invariants
  import opened TimelyRuns

  /** A task handed to this id is still under way. */
  ghost predicate Busy(c: Control, worker: nat) {
    || (exists h :: 0 <= h < |c.hands| && c.hands[h].worker == worker)
    || (exists j :: 0 <= j < |c.execs| && c.execs[j].worker == worker && !Over(c.execs[j].pc))
  }

  /** No id asks for a task while one is under way under it. */
  ghost predicate OneTaskPerId(c: Control, steps: seq<Step>)
    requires Run(c, steps).Some?
  {
    steps == [] ||
    var front, st := steps[..|steps| - 1], steps[|steps| - 1];
    OneTaskPerId(c, front) && !(st.Receive? && Busy(Run(c, front).value, st.worker))
  }

  /** At most one task is under way under each id. */
  ghost predicate Alone(c: Control) {
    && (forall g, h | 0 <= g < h < |c.hands| :: c.hands[g].worker != c.hands[h].worker)
    && (forall h, j | 0 <= h < |c.hands| && 0 <= j < |c.execs| && !Over(c.execs[j].pc) :: c.hands[h].worker != c.execs[j].worker)
    && (forall j, k | 0 <= j < k < |c.execs| && !Over(c.execs[j].pc) && !Over(c.execs[k].pc) :: c.execs[j].worker != c.execs[k].worker)
  }

  /** The worker recorded for a finished task is through with that task. */
  ghost predicate Through(c: Control) {
    forall i, j | 0 <= i < |c.m.stats| && c.m.stats[i].status == Finish && 0 <= j < |c.execs| && OfTask(c, j, i) ::
      c.execs[j].worker != c.m.stats[i].workerId
  }

  /** Execution j is of task i of the current phase, and under way. */
  predicate OfTask(c: Control, j: nat, i: nat)
    requires j < |c.execs|
  {
    c.execs[j].task.phase == c.m.phase && c.execs[j].task.seqNo == i && !Over(c.execs[j].pc)
  }

  /** What is over stays over, and what comes to be under way has just been handed out. */
  lemma SomeOver(c: Control, e: Effect, c': Control)
    requires InRange(c.m) && Changes(c, e, c')
    ensures forall j | 0 <= j < |c.execs| :: j < |c'.execs| && c'.execs[j].worker == c.execs[j].worker
    ensures forall j | 0 <= j < |c.execs| && Over(c.execs[j].pc) :: Over(c'.execs[j].pc)
  {
  }

  lemma AloneStep(c: Control, e: Effect, c': Control)
    requires InRange(c.m) && Changes(c, e, c') && Alone(c)
    requires e.Received? ==> !Busy(c, c'.hands[|c.hands|].worker)
    ensures Alone(c')
  {
    hide TaskFor, FreshStats, Accepts, Verdict, Over;
    SomeOver(c, e, c');
    if e.Received? {
      assert forall h | 0 <= h < |c.hands| :: c'.hands[h] == c'.hands[..|c.hands|][h] == c.hands[h];
    }
  }

  lemma ThroughStep(c: Control, e: Effect, c': Control)
    requires Inv(c) && TokenInv(c) && Alone(c) && Through(c) && Changes(c, e, c')
    ensures Through(c')
  {
    hide TaskFor, Tokens, QueuedHasToken, Provenance, FinishAccepted, Barrier;
    forall i, j | 0 <= i < |c'.m.stats| && c'.m.stats[i].status == Finish && 0 <= j < |c'.execs| && OfTask(c', j, i)
      ensures c'.execs[j].worker != c'.m.stats[i].workerId
    {
      assert j < |c.execs| && OfTask(c, j, i) && c'.execs[j].worker == c.execs[j].worker;
      if e.Settled? && c.execs[e.j].task.seqNo == i {
        assert j != e.j && !Over(c.execs[e.j].pc);
      }
    }
  }

  /** One step of such a timely run takes no task out of Finish within a phase. */
  lemma FinishStandsStep(c: Control, st: Step, c': Control, i: nat)
    requires Inv(c) && TokenInv(c) && Through(c) && Next(c, st) == Some(c') && c'.m.phase == c.m.phase
    requires i < |c.m.stats| && c.m.stats[i].status == Finish
    ensures i < |c'.m.stats| && c'.m.stats[i].status == Finish
  {
    FinishIsLeftOnlyByFailure(c, st, c', i);
    if c'.m.stats[i].status != Finish {
      assert OfTask(c, st.exec, i);
      assert false;
    }
  }

  lemma {:induction false} OneTaskRun(files: seq<string>, nReduce: nat, steps: seq<Step>)
    requires Run(InitControl(files, nReduce), steps).Some?
    requires Timely(InitControl(files, nReduce), steps) && OneTaskPerId(InitControl(files, nReduce), steps)
    ensures var c := Run(InitControl(files, nReduce), steps).value; Inv(c) && TokenInv(c) && Alone(c) && Through(c)
  {
    var init := InitControl(files, nReduce);
    TimelyMatches(files, nReduce, steps);
    if steps != [] {
      var front, st := steps[..|steps| - 1], steps[|steps| - 1];
      OneTaskRun(files, nReduce, front);
      TimelyMatches(files, nReduce, front);
      var c, c' := Run(init, front).value, Run(init, steps).value;
      hide Inv, TokenInv, Alone, Through, Busy;
      StepStays(c, st, c');
    }
  }

  lemma StepStays(c: Control, st: Step, c': Control)
    requires Inv(c) && TokenInv(c) && Alone(c) && Through(c) && Next(c, st) == Some(c')
    requires !(st.Receive? && Busy(c, st.worker))
    ensures Alone(c') && Through(c')
  {
    StepChanges(c, st, c');
    hide Alone, Through, Inv, TokenInv, Busy;
    AloneStep(c, EffectOf(c, st), c');
    ThroughStep(c, EffectOf(c, st), c');
  }

  /** In every timely run in which no id has two tasks at once, a finished task is finished to the end of
      its phase. */
  lemma {:induction false} FinishStands(files: seq<string>, nReduce: nat, steps: seq<Step>, k: nat, i: nat)
    requires k <= |steps| && Run(InitControl(files, nReduce), steps).Some?
    requires Timely(InitControl(files, nReduce), steps) && OneTaskPerId(InitControl(files, nReduce), steps)
    requires var c, c' := StateAt(InitControl(files, nReduce), steps, k), Run(InitControl(files, nReduce), steps).value;
      c'.m.phase == c.m.phase && i < |c.m.stats| && c.m.stats[i].status == Finish
    ensures var c' := Run(InitControl(files, nReduce), steps).value; i < |c'.m.stats| && c'.m.stats[i].status == Finish
  {
    hide Inv, TokenInv, Through, Alone, Next, Accepted;
    var init := InitControl(files, nReduce);
    if k == |steps| {
      assert steps[..k] == steps;
    } else {
      var front, st := steps[..|steps| - 1], steps[|steps| - 1];
      assert front[..k] == steps[..k];
      var b, c' := Run(init, front).value, Run(init, steps).value;
      NothingGoesBack(files, nReduce, front, k);
      NothingGoesBack(files, nReduce, steps, |front|);
      assert steps[..|front|] == front;
      OneTaskRun(files, nReduce, front);
      FinishStands(files, nReduce, front, k, i);
      FinishStandsStep(b, st, c', i);
    }
  }

  // ---- in general

  /** A failure report about a finished task, from the worker recorded for it. */
  predicate Retracts(c: Control, st: Step) {
    && st.Report? && st.exec < |c.execs|
    && var e := c.execs[st.exec];
    && Verdict(e) == Some(false)
    && Accepts(c.m, e.worker, e.task.seqNo, e.task.phase)
    && c.m.stats[e.task.seqNo].status == Finish
  }

  ghost predicate NothingRetracted(c: Control, steps: seq<Step>)
    requires Run(c, steps).Some?
  {
    steps == [] ||
    (NothingRetracted(c, steps[..|steps| - 1]) && !Retracts(Run(c, steps[..|steps| - 1]).value, steps[|steps| - 1]))
  }

  /** Some task leaves Finish within a phase. */
  ghost predicate Unfinishes(c: Control, c': Control) {
    c'.m.phase == c.m.phase &&
    exists i :: 0 <= i < |c.m.stats| && c.m.stats[i].status == Finish && (i < |c'.m.stats| ==> c'.m.stats[i].status != Finish)
  }

  ghost predicate NothingUnfinished(c: Control, steps: seq<Step>)
    requires Run(c, steps).Some?
  {
    steps == [] ||
    (NothingUnfinished(c, steps[..|steps| - 1]) && !Unfinishes(Run(c, steps[..|steps| - 1]).value, Run(c, steps).value))
  }

  lemma UnfinishesExactlyByRetraction(c: Control, st: Step, c': Control)
    requires Inv(c) && TokenInv(c) && Next(c, st) == Some(c')
    ensures Unfinishes(c, c') <==> Retracts(c, st)
  {
    hide Tokens, QueuedHasToken, Provenance, FinishAccepted, Barrier, TokenInv;
    if Retracts(c, st) {
      FinishIsLeftOnlyByFailure(c, st, c', c.execs[st.exec].task.seqNo);
    }
    if Unfinishes(c, c') {
      var i :| 0 <= i < |c.m.stats| && c.m.stats[i].status == Finish && (i < |c'.m.stats| ==> c'.m.stats[i].status != Finish);
      FinishIsLeftOnlyByFailure(c, st, c', i);
    }
  }

  /** In a timely run, a task leaves Finish within a phase if and only if a failure report about a finished
      task is acted on. */
  lemma {:induction false} FinishLeftExactlyByRetraction(files: seq<string>, nReduce: nat, steps: seq<Step>)
    requires Run(InitControl(files, nReduce), steps).Some? && Timely(InitControl(files, nReduce), steps)
    ensures NothingUnfinished(InitControl(files, nReduce), steps) <==> NothingRetracted(InitControl(files, nReduce), steps)
  {
    if steps != [] {
      hide Next, Unfinishes, Retracts, Inv, TokenInv;
      var init, front := InitControl(files, nReduce), steps[..|steps| - 1];
      FinishLeftExactlyByRetraction(files, nReduce, front);
      TimelyMatches(files, nReduce, front);
      UnfinishesExactlyByRetraction(Run(init, front).value, steps[|steps| - 1], Run(init, steps).value);
    }
  }
}
