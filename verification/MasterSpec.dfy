/** The master's state and what each of its lock-protected operations does to it. A schedule call
    is split at the iterations of its loop: between two of them the lock stays held, but tasks
    can leave the channel. */
module MasterSpec {
  import opened Types

  datatype Status = Ready | Queue | Running | Finish | Err

  datatype TaskStat = TaskStat(status: Status, workerId: nat, startTime: int)

  /** Whether a schedule call holds the lock, how far its loop is, and its local allFinish. */
  datatype Scan = Idle | Scanning(next: nat, allFinish: bool)

  /** A Go panic ends the process. */
  datatype Halt = Alive | PhasePanic | IndexPanic

  datatype MasterState = MasterState(files: seq<string>, nReduce: nat, phase: TaskPhase, stats: seq<TaskStat>,
                                     done: bool, workerSeq: nat, ch: seq<Task>, scan: Scan, halt: Halt)

  /** Five seconds, in nanoseconds. */
  const MAX_TASK_RUN_TIME: int := 5_000_000_000

  function Capacity(files: seq<string>, nReduce: nat): nat {
    if nReduce > |files| then nReduce else |files|
  }

  /** How many tasks a phase has. */
  function TaskCount(files: seq<string>, nReduce: nat, phase: TaskPhase): nat {
    if phase == MapPhase then |files| else nReduce
  }

  function FreshStats(n: nat): (stats: seq<TaskStat>)
    ensures |stats| == n
  {
    seq(n, i => TaskStat(Ready, 0, 0))
  }

  function InitMaster(files: seq<string>, nReduce: nat): MasterState {
    MasterState(files, nReduce, MapPhase, FreshStats(|files|), false, 0, [], Idle, Alive)
  }

  /** The token for task i of a phase; reading a file name out of range is what the caller excludes. */
  function TaskFor(files: seq<string>, nReduce: nat, phase: TaskPhase, i: nat): Task
    requires phase == MapPhase ==> i < |files|
  {
    Task(if phase == MapPhase then files[i] else "", nReduce, |files|, i, phase)
  }

  /** Sends the token of task i and marks the task queued. None while the channel has no room. */
  function Enqueue(m: MasterState, i: nat): Option<MasterState>
    requires i < |m.stats|
  {
    if m.phase == MapPhase && i >= |m.files| then
      Some(m.(halt := IndexPanic))
    else if |m.ch| >= Capacity(m.files, m.nReduce) then
      None
    else
      Some(m.(ch := m.ch + [TaskFor(m.files, m.nReduce, m.phase, i)],
              stats := m.stats[i := m.stats[i].(status := Queue)],
              scan := Scanning(i + 1, false)))
  }

  predicate TimedOut(t: TaskStat, now: int) {
    t.status == Running && now - t.startTime > MAX_TASK_RUN_TIME
  }

  function ScanBegin(m: MasterState): MasterState
    requires m.scan == Idle
  {
    if m.done then m else m.(scan := Scanning(0, true))
  }

  /** One iteration of the loop in schedule. */
  function ScanItem(m: MasterState, now: int): Option<MasterState>
    requires m.scan.Scanning? && m.scan.next < |m.stats|
  {
    var i, t := m.scan.next, m.stats[m.scan.next];
    match t.status
    case Ready => Enqueue(m, i)
    case Queue => Some(m.(scan := Scanning(i + 1, false)))
    case Running => if TimedOut(t, now) then Enqueue(m, i) else Some(m.(scan := Scanning(i + 1, false)))
    case Finish => Some(m.(scan := Scanning(i + 1, m.scan.allFinish)))
    case Err => Enqueue(m, i)
  }

  /** What follows the loop in schedule: the phase switch or the end of the job. */
  function ScanEnd(m: MasterState): MasterState
    requires m.scan.Scanning?
  {
    if !m.scan.allFinish then
      m.(scan := Idle)
    else if m.phase == MapPhase then
      m.(phase := ReducePhase, stats := FreshStats(m.nReduce), scan := Idle)
    else
      m.(done := true, scan := Idle)
  }

  /** A worker's id is the number of registrations so far, its own included. */
  function RegWorker(m: MasterState): MasterState {
    m.(workerSeq := m.workerSeq + 1)
  }

  function RegTask(m: MasterState, worker: nat, task: Task, now: int): MasterState {
    if task.phase != m.phase then
      m.(halt := PhasePanic)
    else if task.seqNo >= |m.stats| then
      m.(halt := IndexPanic)
    else
      m.(stats := m.stats[task.seqNo := TaskStat(Running, worker, now)])
  }

  /** A report is acted on when it is about the current phase and comes from the recorded worker. */
  predicate Accepts(m: MasterState, worker: nat, seqNo: nat, phase: TaskPhase) {
    phase == m.phase && seqNo < |m.stats| && m.stats[seqNo].workerId == worker
  }

  function ReportTask(m: MasterState, worker: nat, seqNo: nat, phase: TaskPhase, ok: bool): MasterState {
    if phase == m.phase && seqNo >= |m.stats| then
      m.(halt := IndexPanic)
    else if Accepts(m, worker, seqNo, phase) then
      m.(stats := m.stats[seqNo := m.stats[seqNo].(status := if ok then Finish else Err)])
    else
      m
  }
}
