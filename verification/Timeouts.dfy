/** When a task is handed out a second time: the timeout that schedule applies runs from the moment at
    which regTask recorded the task's last hand-out. */
module Timeouts {
  import opened Types
  import opened MasterSpec
  import opened Protocol
  import opened Effects
  import opened Invariants

  /** The step registers a hand-out of task i of a phase. */
  predicate HandsOut(c: Control, st: Step, phase: TaskPhase, i: nat) {
    st.Reg? && st.hand < |c.hands| && c.hands[st.hand].task.phase == phase && c.hands[st.hand].task.seqNo == i
  }

  /** The time at which task i of a phase was last handed out, if it was. */
  function LastHandOut(c: Control, steps: seq<Step>, phase: TaskPhase, i: nat): Option<int>
    requires Run(c, steps).Some?
  {
    if steps == [] then None else
    var before, st := Run(c, steps[..|steps| - 1]).value, steps[|steps| - 1];
    if HandsOut(before, st, phase, i) then Some(st.at)
    else LastHandOut(c, steps[..|steps| - 1], phase, i)
  }

  /** What a step says about a task that is running after it. */
  lemma RunningAfter(c: Control, st: Step, c': Control, i: nat)
    requires Inv(c) && Next(c, st) == Some(c')
    requires i < |c'.m.stats| && c'.m.stats[i].status == Running
    ensures c'.m.phase == c.m.phase && i < |c.m.stats|
    ensures if HandsOut(c, st, c.m.phase, i) then c'.m.stats[i].startTime == st.at else c'.m.stats[i] == c.m.stats[i]
  {
    hide Next, Tokens, Provenance, FinishAccepted, Barrier, QueuedHasToken, AfterReport;
    StepChanges(c, st, c');
  }

  /** A running task carries the time of its last hand-out in the current phase. */
  lemma {:induction false} RunningSince(files: seq<string>, nReduce: nat, steps: seq<Step>, i: nat)
    requires Run(InitControl(files, nReduce), steps).Some?
    requires var m := Run(InitControl(files, nReduce), steps).value.m;
      i < |m.stats| && m.stats[i].status == Running
    ensures var init := InitControl(files, nReduce);
      var m := Run(init, steps).value.m;
      LastHandOut(init, steps, m.phase, i) == Some(m.stats[i].startTime)
  {
    hide Next, Inv;
    if steps != [] {
      var init, front := InitControl(files, nReduce), steps[..|steps| - 1];
      var c, st, c' := Run(init, front).value, steps[|steps| - 1], Run(init, steps).value;
      InvRun(files, nReduce, front);
      RunningAfter(c, st, c', i);
      if !HandsOut(c, st, c.m.phase, i) {
        RunningSince(files, nReduce, front, i);
      }
    }
  }

  /** In every run, an iteration of schedule queues a running task again if and only if more than
      five seconds, in nanoseconds, have passed since its last hand-out; else the task stays as it is. */
  lemma RequeuedExactlyAfterTimeout(files: seq<string>, nReduce: nat, steps: seq<Step>, now: int)
    requires Run(InitControl(files, nReduce), steps).Some?
    requires var c := Run(InitControl(files, nReduce), steps).value;
      && c.m.scan.Scanning? && c.m.scan.next < |c.m.stats| && c.m.stats[c.m.scan.next].status == Running
      && Next(c, Item(now)).Some?
    ensures var init := InitControl(files, nReduce);
      var c, i := Run(init, steps).value, Run(init, steps).value.m.scan.next;
      var c' := Next(c, Item(now)).value;
      && LastHandOut(init, steps, c.m.phase, i).Some?
      && |c'.m.stats| == |c.m.stats|
      && (c'.m.stats[i].status == Queue <==> now - LastHandOut(init, steps, c.m.phase, i).value > 5 * 1_000_000_000)
      && (c'.m.stats[i].status != Queue ==> c'.m.stats[i] == c.m.stats[i])
  {
    var c := Run(InitControl(files, nReduce), steps).value;
    RunningSince(files, nReduce, steps, c.m.scan.next);
    InvRun(files, nReduce, steps);
    ItemChanges(c, now, Next(c, Item(now)).value);
  }
}
