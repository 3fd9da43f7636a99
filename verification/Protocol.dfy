/** The coordination protocol: the master, the GetOneTask calls between their receive and regTask,
    and every execution that was ever handed to a worker. What executions do on the disk is left
    open here: a worker may move its execution to any point at any time, or never. */
module Protocol {
  import opened Types
  import opened MasterSpec

  /** A GetOneTask call that has received a token and waits for the lock. */
  datatype Hand = Hand(worker: nat, task: Task)

  /** How far an execution is. */
  datatype Pc =
    | Assigned                                   // a map task before its input is read
    | Mapping(kvs: seq<KeyValue>, next: nat)     // intermediate files 0..next are written
    | Reducing(next: nat, read: seq<KeyValue>)   // intermediate files 0..next are read
    | Written                                    // the output file is written
    | Failed                                     // an I/O error: about to report failure
    | TornPiece(kvs: seq<KeyValue>, next: nat)   // a write failed: reports failure, then goes on from file next
    | TornOutput                                 // the same for the output file: then reports success
    | Reported(ok: bool, accepted: bool)
    | Lost                                       // the worker died, or its report was lost

  datatype Exec = Exec(worker: nat, task: Task, pc: Pc)

  datatype Control = Control(m: MasterState, hands: seq<Hand>, execs: seq<Exec>)

  datatype Step =
    | Register
    | Begin                        // schedule takes the lock
    | Item(now: int)               // one iteration of its loop
    | End                          // what follows the loop
    | Receive(worker: nat)         // GetOneTask takes a token from the channel
    | Reg(hand: nat, at: int)      // and registers it
    | Report(exec: nat)
    | Advance(exec: nat, pc: Pc)   // a worker gets on with an execution

  function InitControl(files: seq<string>, nReduce: nat): Control {
    Control(InitMaster(files, nReduce), [], [])
  }

  /** The pc of an execution that has just been handed out. */
  function Start(task: Task): Pc {
    if task.phase == MapPhase then Assigned else Reducing(0, [])
  }

  /** Nothing more will come of the execution. */
  predicate Over(pc: Pc) { pc.Reported? || pc.Lost? }

  /** The execution has nothing left to do but report success. */
  predicate Complete(e: Exec) {
    || e.pc.Written?
    || (e.pc.Mapping? && e.pc.next == e.task.nReduce)
  }

  /** What the pending report of an execution says; None if it has none to send. */
  function Verdict(e: Exec): Option<bool> {
    if e.pc.Failed? || e.pc.TornPiece? || e.pc.TornOutput? then Some(false) else if Complete(e) then Some(true) else None
  }

  /** The pc after the pending report was handled: a failed write is followed by the rest of the task. */
  function AfterReport(m: MasterState, e: Exec): Pc
    requires Verdict(e).Some?
  {
    match e.pc
    case TornPiece(kvs, next) => Mapping(kvs, next)
    case TornOutput => Written
    case _ => Reported(Verdict(e).value, Accepts(m, e.worker, e.task.seqNo, e.task.phase))
  }

  /** The state after a step, or None if the step is not enabled. */
  function Next(c: Control, st: Step): Option<Control> {
    if c.m.halt != Alive then None else
    match st
    case Register =>
      if c.m.scan == Idle then Some(c.(m := RegWorker(c.m))) else None
    case Begin =>
      if c.m.scan == Idle then Some(c.(m := ScanBegin(c.m))) else None
    case Item(now) =>
      if c.m.scan.Scanning? && c.m.scan.next < |c.m.stats| && ScanItem(c.m, now).Some?
      then Some(c.(m := ScanItem(c.m, now).value)) else None
    case End =>
      if c.m.scan.Scanning? && c.m.scan.next == |c.m.stats| then Some(c.(m := ScanEnd(c.m))) else None
    case Receive(w) =>
      if c.m.ch != [] && w <= c.m.workerSeq
      then Some(c.(m := c.m.(ch := c.m.ch[1..]), hands := c.hands + [Hand(w, c.m.ch[0])])) else None
    case Reg(h, at) =>
      if c.m.scan == Idle && h < |c.hands| then
        var hand := c.hands[h];
        var m' := RegTask(c.m, hand.worker, hand.task, at);
        var handed := if m'.halt == Alive then [Exec(hand.worker, hand.task, Start(hand.task))] else [];
        Some(Control(m', c.hands[..h] + c.hands[h + 1..], c.execs + handed))
      else None
    case Report(j) =>
      if c.m.scan == Idle && j < |c.execs| && Verdict(c.execs[j]).Some? then
        var e := c.execs[j];
        Some(c.(m := ReportTask(c.m, e.worker, e.task.seqNo, e.task.phase, Verdict(e).value),
                execs := c.execs[j := e.(pc := AfterReport(c.m, e))]))
      else None
    case Advance(j, pc) =>
      if j < |c.execs| && !Over(c.execs[j].pc) && !pc.Reported?
      then Some(c.(execs := c.execs[j := c.execs[j].(pc := pc)])) else None
  }

  /** The state after a whole run, or None if some step of it is not enabled. */
  function Run(c: Control, steps: seq<Step>): Option<Control> {
    if steps == [] then Some(c) else
    match Run(c, steps[..|steps| - 1])
    case None => None
    case Some(t) => Next(t, steps[|steps| - 1])
  }

  lemma {:induction false} RunConcat(c: Control, a: seq<Step>, b: seq<Step>)
    requires Run(c, a).Some?
    ensures Run(c, a + b) == Run(Run(c, a).value, b)
  {
    if b == [] {
      assert a + b == a;
    } else {
      RunConcat(c, a, b[..|b| - 1]);
      assert (a + b)[..|a + b| - 1] == a + b[..|b| - 1];
    }
  }

  lemma {:induction false} RunPrefix(c: Control, steps: seq<Step>, k: nat)
    requires k <= |steps| && Run(c, steps).Some?
    ensures Run(c, steps[..k]).Some?
  {
    if k == |steps| {
      assert steps[..k] == steps;
    } else {
      assert steps[..|steps| - 1][..k] == steps[..k];
      RunPrefix(c, steps[..|steps| - 1], k);
    }
  }

  /** The state of a run after its first k steps. */
  function StateAt(c: Control, steps: seq<Step>, k: nat): Control
    requires k <= |steps| && Run(c, steps).Some?
  {
    RunPrefix(c, steps, k);
    Run(c, steps[..k]).value
  }

  lemma StateAtNext(c: Control, steps: seq<Step>, k: nat)
    requires k < |steps| && Run(c, steps).Some?
    ensures Next(StateAt(c, steps, k), steps[k]) == Some(StateAt(c, steps, k + 1))
  {
    assert steps[..k + 1][..k] == steps[..k];
    RunPrefix(c, steps, k + 1);
    RunPrefix(c, steps, k);
  }
}
