/** The master as the object it is: each operation, on mutable fields, does what its step says. */
module Master {
  import opened Types
  import opened MasterSpec
  import opened Protocol
  import opened Effects
  import opened Invariants
  import opened TimelyRuns

  /** Other callers take n tokens from the channel. */
  function Taken(m: MasterState, n: nat): MasterState {
    m.(ch := m.ch[if n < |m.ch| then n else |m.ch|..])
  }

  /** While a send of task i is blocked: a timed-out or failed task is marked queued before the send, a
      ready one after it. */
  function Marked(m: MasterState, i: nat): MasterState
    requires i < |m.stats|
  {
    if m.stats[i].status == Ready then m else m.(stats := m.stats[i := m.stats[i].(status := Queue)])
  }

  /** The rest of a schedule call that holds the lock: before iteration i, takes(i) tokens leave the
      channel, and clock(i) is the time it reads. The call ends, or is left blocked on a send. */
  function ScanLoop(m: MasterState, clock: nat -> int, takes: nat -> nat): (r: (MasterState, bool))
    requires m.scan.Scanning? && m.scan.next <= |m.stats| && InRange(m)
    decreases |m.stats| - m.scan.next
  {
    if m.scan.next == |m.stats| then (ScanEnd(m), false) else
    var i, m1 := m.scan.next, Taken(m, takes(m.scan.next));
    match ScanItem(m1, clock(i))
    case None => (Marked(m1, i), true)
    case Some(m2) => ScanLoop(m2, clock, takes)
  }

  lemma ScanLoopStops(m: MasterState, clock: nat -> int, takes: nat -> nat)
    requires m.scan.Scanning? && m.scan.next <= |m.stats| && InRange(m)
    ensures m.scan.next == |m.stats| ==> ScanLoop(m, clock, takes) == (ScanEnd(m), false)
    ensures m.scan.next < |m.stats| && ScanItem(Taken(m, takes(m.scan.next)), clock(m.scan.next)) == None ==>
              ScanLoop(m, clock, takes) == (Marked(Taken(m, takes(m.scan.next)), m.scan.next), true)
  {
  }

  /** One iteration of it that does not block. */
  lemma ScanLoopGoesOn(m: MasterState, clock: nat -> int, takes: nat -> nat, m': MasterState)
    requires m.scan.Scanning? && m.scan.next < |m.stats| && InRange(m)
    requires ScanItem(Taken(m, takes(m.scan.next)), clock(m.scan.next)) == Some(m')
    ensures m'.scan.Scanning? && m'.scan.next <= |m'.stats| && InRange(m')
    ensures ScanLoop(m, clock, takes) == ScanLoop(m', clock, takes)
  {
  }

  class Master {
    const files: seq<string>
    const nReduce: nat
    const capacity: nat
    var taskPhase: TaskPhase
    var taskStats: array<TaskStat>
    var done: bool
    var workerSeq: nat
    var taskCh: seq<Task>

    ghost predicate Valid()
      reads this, taskStats
    {
      capacity == Capacity(files, nReduce) && taskStats.Length == TaskCount(files, nReduce, taskPhase)
    }

    ghost function View(scan: Scan): MasterState
      reads this, taskStats
    {
      MasterState(files, nReduce, taskPhase, taskStats[..], done, workerSeq, taskCh, scan, Alive)
    }

    constructor MakeMaster(files: seq<string>, nReduce: nat)
      ensures Valid() && fresh(taskStats)
      ensures View(Idle) == InitMaster(files, nReduce)
      ensures taskStats.Length == |files| && forall i | 0 <= i < |files| :: taskStats[i] == TaskStat(Ready, 0, 0)
      ensures capacity >= |files| && capacity >= nReduce && capacity in {|files|, nReduce}
    {
      this.files, this.nReduce := files, nReduce;
      capacity := if nReduce > |files| then nReduce else |files|;
      taskPhase, done, workerSeq, taskCh := MapPhase, false, 0, [];
      taskStats := new TaskStat[|files|](i => TaskStat(Ready, 0, 0));
      new;
      assert taskStats[..] == FreshStats(|files|);
    }

    method InitReduceTask()
      modifies this`taskPhase, this`taskStats
      ensures taskPhase == ReducePhase && fresh(taskStats) && taskStats[..] == FreshStats(nReduce)
      ensures taskStats.Length == nReduce && forall i | 0 <= i < nReduce :: taskStats[i] == TaskStat(Ready, 0, 0)
    {
      taskPhase := ReducePhase;
      taskStats := new TaskStat[nReduce](i => TaskStat(Ready, 0, 0));
      assert taskStats[..] == FreshStats(nReduce);
    }

    method GetTask(taskSeq: nat) returns (task: Task)
      requires Valid() && taskSeq < taskStats.Length
      ensures task == TaskFor(files, nReduce, taskPhase, taskSeq)
    {
      task := Task("", nReduce, |files|, taskSeq, taskPhase);
      if task.phase == MapPhase {
        task := task.(fileName := files[taskSeq]);
      }
    }

    /** Sends the token of a task; blocked when the channel is full. */
    method Send(taskSeq: nat) returns (blocked: bool)
      requires Valid() && taskSeq < taskStats.Length
      modifies this`taskCh
      ensures Valid() && blocked == (|old(taskCh)| >= capacity)
      ensures taskCh == old(taskCh) + if blocked then [] else [TaskFor(files, nReduce, taskPhase, taskSeq)]
    {
      blocked := |taskCh| >= capacity;
      if !blocked {
        var task := GetTask(taskSeq);
        taskCh := taskCh + [task];
      }
    }

    /** The body of the loop in schedule for one task, after n tokens were taken from the channel. */
    method ScheduleTask(index: nat, allFinish: bool, now: int, n: nat) returns (blocked: bool, allFinish': bool)
      requires Valid() && index < taskStats.Length
      modifies this`taskCh, taskStats
      ensures Valid()
      ensures ScanItem(Taken(old(View(Scanning(index, allFinish))), n), now) ==
              if blocked then None else Some(View(Scanning(index + 1, allFinish')))
      ensures old(taskStats[index]).status == Running ==>
                (taskStats[index].status == Queue <==> now - old(taskStats[index]).startTime > 5 * 1_000_000_000)
      ensures blocked ==> View(Scanning(index, allFinish)) == Marked(Taken(old(View(Scanning(index, allFinish))), n), index)
    {
      taskCh := taskCh[if n < |taskCh| then n else |taskCh|..];
      ghost var m := View(Scanning(index, allFinish));
      assert m == Taken(old(View(Scanning(index, allFinish))), n);
      var t := taskStats[index];
      blocked, allFinish' := false, false;
      match t.status {
        case Ready =>
          blocked := Send(index);
          if !blocked {
            taskStats[index] := t.(status := Queue);
          }
        case Queue =>
        case Running =>
          if now - t.startTime > MAX_TASK_RUN_TIME {
            taskStats[index] := t.(status := Queue);
            blocked := Send(index);
          }
        case Finish =>
          allFinish' := allFinish;
        case Err =>
          taskStats[index] := t.(status := Queue);
          blocked := Send(index);
      }
    }

    /** The loop of schedule: takes and clock stand for the other goroutines and the wall clock. */
    method Schedule(clock: nat -> int, takes: nat -> nat) returns (blocked: bool, scan: Scan)
      requires Valid()
      modifies this, taskStats
      ensures Valid()
      ensures old(done) ==> !blocked && View(scan) == old(View(Idle))
      ensures !old(done) ==> (View(scan), blocked) == ScanLoop(old(View(Scanning(0, true))), clock, takes)
    {
      if done {
        return false, Idle;
      }
      hide ScanLoop, ScanItem;
      var allFinish := true;
      ghost var start := View(Scanning(0, true));
      var index := 0;
      while index < taskStats.Length
        invariant 0 <= index <= taskStats.Length
        invariant Valid() && taskStats == old(taskStats)
        invariant ScanLoop(start, clock, takes) == ScanLoop(View(Scanning(index, allFinish)), clock, takes)
      {
        ghost var before := View(Scanning(index, allFinish));
        var full, stillAll := ScheduleTask(index, allFinish, clock(index), takes(index));
        if full {
          ScanLoopStops(before, clock, takes);
          return true, Scanning(index, allFinish);
        }
        index, allFinish := index + 1, stillAll;
        ScanLoopGoesOn(before, clock, takes, View(Scanning(index, allFinish)));
      }
      ScanLoopStops(View(Scanning(index, allFinish)), clock, takes);
      if allFinish {
        if taskPhase == MapPhase {
          InitReduceTask();
        } else {
          done := true;
        }
      }
      return false, Idle;
    }

    method RegTask(workerId: nat, task: Task, now: int) returns (halt: Halt)
      requires Valid()
      modifies taskStats
      ensures Valid()
      ensures View(Idle).(halt := halt) == MasterSpec.RegTask(old(View(Idle)), workerId, task, now)
    {
      if task.phase != taskPhase {
        return PhasePanic;
      }
      if task.seqNo >= taskStats.Length {
        return IndexPanic;
      }
      taskStats[task.seqNo] := TaskStat(Running, workerId, now);
      return Alive;
    }

    /** The receive of GetOneTask; it does not need the lock, and waits while the channel is empty. */
    method Receive() returns (task: Task)
      requires Valid() && taskCh != []
      modifies this`taskCh
      ensures Valid() && [task] + taskCh == old(taskCh)
    {
      task := taskCh[0];
      taskCh := taskCh[1..];
    }

    method ReportTask(workerId: nat, seqNo: nat, phase: TaskPhase, ok: bool) returns (halt: Halt)
      requires Valid()
      modifies taskStats
      ensures Valid()
      ensures View(Idle).(halt := halt) == MasterSpec.ReportTask(old(View(Idle)), workerId, seqNo, phase, ok)
    {
      if taskPhase == phase && seqNo >= taskStats.Length {
        return IndexPanic;
      }
      if taskPhase != phase || workerId != taskStats[seqNo].workerId {
        return Alive;
      }
      if ok {
        taskStats[seqNo] := taskStats[seqNo].(status := Finish);
      } else {
        taskStats[seqNo] := taskStats[seqNo].(status := Err);
      }
      return Alive;
    }

    method RegWorker() returns (workerId: nat)
      requires Valid()
      modifies this`workerSeq
      ensures Valid() && View(Idle) == MasterSpec.RegWorker(old(View(Idle))) && workerId == workerSeq
    {
      workerSeq := workerSeq + 1;
      workerId := workerSeq;
    }
  }

  // ---- a schedule call is a run of the protocol

  /** Receives by a registered worker, n of them or until the channel is empty. */
  lemma {:induction false} TakeRun(c: Control, n: nat) returns (steps: seq<Step>)
    requires c.m.halt == Alive
    ensures Run(c, steps).Some? && (forall st | st in steps :: st.Receive?)
    ensures var c' := Run(c, steps).value; c'.m == Taken(c.m, n) && c'.execs == c.execs
    decreases n
  {
    if n == 0 || c.m.ch == [] {
      steps := [];
      assert Run(c, steps) == Some(c);
    } else {
      var st := Receive(0);
      var c1 := Next(c, st).value;
      var rest := TakeRun(c1, n - 1);
      steps := [st] + rest;
      assert Run(c, [st]) == Some(c1) by { assert [st][..0] == []; }
      RunConcat(c, [st], rest);
    }
  }

  /** The steps of a schedule call. */
  predicate ScheduleStep(st: Step) { st.Receive? || st.Begin? || st.Item? || st.End? }

  lemma RunOne(c: Control, st: Step)
    ensures Run(c, [st]) == Next(c, st)
  {
    assert [st][..|[st]| - 1] == [];
  }

  /** The next iteration from where c stands, if it does not block. */
  lemma ItemFrom(c: Control, now: int)
    requires Shape(c.m) && c.m.halt == Alive && c.m.scan.Scanning? && c.m.scan.next < |c.m.stats|
    ensures Next(c, Item(now)) == match ScanItem(c.m, now) { case None => None case Some(m') => Some(c.(m := m')) }
    ensures ScanItem(c.m, now).Some? ==>
              var m' := ScanItem(c.m, now).value;
              Shape(m') && m'.halt == Alive && m'.scan.Scanning? && m'.scan.next == c.m.scan.next + 1
  {
    if ScanItem(c.m, now).Some? { ScanStaysInShape(c.m, now); }
  }

  lemma TakenInShape(m: MasterState, n: nat)
    requires Shape(m)
    ensures Shape(Taken(m, n))
  {
  }

  /** Receives, then one iteration, unless that iteration blocks. */
  lemma TakeAndItem(c: Control, now: int, n: nat) returns (steps: seq<Step>, blocked: bool)
    requires Shape(c.m) && c.m.halt == Alive && c.m.scan.Scanning? && c.m.scan.next < |c.m.stats|
    ensures Run(c, steps).Some? && (forall st | st in steps :: ScheduleStep(st))
    ensures var c', item := Run(c, steps).value, ScanItem(Taken(c.m, n), now);
      && c'.execs == c.execs && blocked == item.None?
      && (if blocked then c'.m == Taken(c.m, n) && Next(c', Item(now)).None?
          else Some(c'.m) == item && Shape(c'.m) && c'.m.halt == Alive && c'.m.scan.Scanning? && c'.m.scan.next == c.m.scan.next + 1)
  {
    steps := TakeRun(c, n);
    var c1 := Run(c, steps).value;
    TakenInShape(c.m, n);
    ItemFrom(c1, now);
    blocked := Next(c1, Item(now)).None?;
    if !blocked {
      RunOne(c1, Item(now));
      RunConcat(c, steps, [Item(now)]);
      steps := steps + [Item(now)];
    }
  }

  /** What a run of a schedule call says about ScanLoop. */
  ghost predicate EndsAs(c': Control, c: Control, r: (MasterState, bool), clock: nat -> int) {
    && c'.execs == c.execs
    && if r.1 then
         && c'.m.scan.Scanning? && c'.m.scan.next < |c'.m.stats| && Next(c', Item(clock(c'.m.scan.next))).None?
         && r.0 == Marked(c'.m, c'.m.scan.next)
       else c'.m == r.0
  }

  /** A schedule call that holds the lock is a run of protocol steps: receives, iterations and the
      end. If the call is left blocked, the next iteration is not possible where that run stops,
      and the call has at most marked that iteration's task. */
  lemma {:induction false} ScanLoopIsRun(c: Control, clock: nat -> int, takes: nat -> nat) returns (steps: seq<Step>)
    requires Shape(c.m) && c.m.halt == Alive && c.m.scan.Scanning?
    ensures Run(c, steps).Some? && (forall st | st in steps :: ScheduleStep(st))
    ensures EndsAs(Run(c, steps).value, c, ScanLoop(c.m, clock, takes), clock)
    decreases |c.m.stats| - c.m.scan.next
  {
    if c.m.scan.next == |c.m.stats| {
      steps := [End];
      RunOne(c, End);
    } else {
      var i := c.m.scan.next;
      var blocked;
      steps, blocked := TakeAndItem(c, clock(i), takes(i));
      if !blocked {
        var rest := ScanLoopIsRun(Run(c, steps).value, clock, takes);
        RunConcat(c, steps, rest);
        steps := steps + rest;
      }
    }
  }

  lemma {:induction false} ScheduleRunIsTimely(c: Control, steps: seq<Step>)
    requires Inv(c) && TokenInv(c) && c.m.halt == Alive
    requires Run(c, steps).Some? && forall st | st in steps :: ScheduleStep(st)
    ensures Timely(c, steps)
    ensures var c' := Run(c, steps).value; Inv(c') && TokenInv(c') && c'.m.halt == Alive
  {
    if steps != [] {
      var front, st := steps[..|steps| - 1], steps[|steps| - 1];
      ScheduleRunIsTimely(c, front);
      assert ScheduleStep(st);
      InvStep(Run(c, front).value, st, Run(c, steps).value);
      TokenInvStep(Run(c, front).value, st, Run(c, steps).value);
    }
  }

  /** From a state where tokens match statuses, a schedule call comes to its end whatever the clock
      says and whether or not anybody receives, and tokens match statuses again. */
  lemma ScheduleNeverBlocks(c: Control, clock: nat -> int, takes: nat -> nat)
    requires Inv(c) && TokenInv(c) && c.m.halt == Alive && c.m.scan == Idle && !c.m.done
    ensures var start := c.m.(scan := Scanning(0, true));
      && !ScanLoop(start, clock, takes).1
      && exists c': Control :: c'.m == ScanLoop(start, clock, takes).0 && c'.execs == c.execs && Inv(c') && TokenInv(c')
  {
    var b := Next(c, Begin).value;
    InvStep(c, Begin, b);
    TokenInvStep(c, Begin, b);
    var steps := ScanLoopIsRun(b, clock, takes);
    ScheduleRunIsTimely(b, steps);
    var c' := Run(b, steps).value;
    if ScanLoop(b.m, clock, takes).1 {
      SendHasRoom(c', clock(c'.m.scan.next));
      assert false;
    }
  }
}
