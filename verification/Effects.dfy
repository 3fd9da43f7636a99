/** What one step changes: the steps of the protocol sorted by what they do to tasks, tokens and
    executions, with everything else left out. */
module Effects {
  import opened Types
  import opened MasterSpec
  import opened Protocol

  datatype Effect =
    | Quiet                              // no task, token or execution changes
    | Sent(i: nat)                       // task i is queued and its token sent
    | Switched                           // the reduce phase begins
    | Ended                              // the job is done
    | Received                           // a token goes from the channel into a hand
    | Handed(h: nat, at: int)            // a token in hand becomes an execution
    | Panicked(h: nat)                   // a token in hand belongs to another phase
    | Settled(j: nat)                    // a report is acted on
    | Ignored(j: nat)                    // a report is not acted on
    | Advanced(j: nat)                   // a worker gets on with an execution

  /** An iteration of the schedule loop that sends a token. */
  predicate Sends(m: MasterState, now: int)
    requires m.scan.Scanning? && m.scan.next < |m.stats|
  {
    m.stats[m.scan.next].status in {Ready, Err} || TimedOut(m.stats[m.scan.next], now)
  }

  function EffectOf(c: Control, st: Step): Effect
    requires Next(c, st).Some?
  {
    match st
    case Item(now) => if Sends(c.m, now) then Sent(c.m.scan.next) else Quiet
    case End => if !c.m.scan.allFinish then Quiet else if c.m.phase == MapPhase then Switched else Ended
    case Receive(_) => Received
    case Reg(h, at) => if c.hands[h].task.phase == c.m.phase then Handed(h, at) else Panicked(h)
    case Report(j) =>
      var e := c.execs[j];
      if Accepts(c.m, e.worker, e.task.seqNo, e.task.phase) then Settled(j) else Ignored(j)
    case Advance(j, _) => Advanced(j)
    case Register => Quiet
    case Begin => Quiet
  }

  /** The token of task i of the current phase. */
  function TokenOf(m: MasterState, i: nat): Task
    requires m.phase == MapPhase ==> i < |m.files|
  {
    TaskFor(m.files, m.nReduce, m.phase, i)
  }

  predicate InRange(m: MasterState) {
    |m.stats| == TaskCount(m.files, m.nReduce, m.phase)
  }

  /** A task made by the master, of the current phase or an earlier one. */
  predicate TaskOk(m: MasterState, t: Task) {
    && t.seqNo < TaskCount(m.files, m.nReduce, t.phase)
    && t == TaskFor(m.files, m.nReduce, t.phase, t.seqNo)
    && (m.phase == MapPhase ==> t.phase == MapPhase)
  }

  ghost predicate Changes(c: Control, e: Effect, c': Control)
    requires InRange(c.m)
  {
    && c'.m.files == c.m.files
    && c'.m.nReduce == c.m.nReduce
    && (e.Switched? || e.Ended? || (c'.m.phase == c.m.phase && c'.m.done == c.m.done))
    && (!e.Panicked? ==> c'.m.halt == Alive)
    && match e
       case Quiet =>
         c'.m.stats == c.m.stats && c'.m.ch == c.m.ch && c'.hands == c.hands && c'.execs == c.execs
       case Sent(i) =>
         && i < |c.m.stats| && c.m.stats[i].status in {Ready, Running, Err}
         && |c.m.ch| < Capacity(c.m.files, c.m.nReduce)
         && c'.m.stats == c.m.stats[i := c.m.stats[i].(status := Queue)]
         && c'.m.ch == c.m.ch + [TokenOf(c.m, i)] && c'.hands == c.hands && c'.execs == c.execs
       case Switched =>
         && c.m.phase == MapPhase && c'.m.phase == ReducePhase && c'.m.done == c.m.done
         && c'.m.stats == FreshStats(c.m.nReduce)
         && c'.m.ch == c.m.ch && c'.hands == c.hands && c'.execs == c.execs
       case Ended =>
         && c.m.phase == ReducePhase && c'.m.phase == ReducePhase && c'.m.done
         && c'.m.stats == c.m.stats && c'.m.ch == c.m.ch && c'.hands == c.hands && c'.execs == c.execs
       case Received =>
         && c.m.ch != [] && c'.m.ch == c.m.ch[1..]
         && |c'.hands| == |c.hands| + 1 && c'.hands[..|c.hands|] == c.hands && c'.hands[|c.hands|].task == c.m.ch[0]
         && c'.m.stats == c.m.stats && c'.execs == c.execs
       case Handed(h, at) =>
         && h < |c.hands| && c'.hands == c.hands[..h] + c.hands[h + 1..] && c'.m.ch == c.m.ch
         && var t := c.hands[h].task;
         && t.phase == c.m.phase && t.seqNo < |c.m.stats|
         && c'.m.stats == c.m.stats[t.seqNo := TaskStat(Running, c.hands[h].worker, at)]
         && c'.execs == c.execs + [Exec(c.hands[h].worker, t, Start(t))]
       case Panicked(h) =>
         && c'.m.halt == PhasePanic
         && h < |c.hands| && c'.hands == c.hands[..h] + c.hands[h + 1..] && c'.m.ch == c.m.ch
         && c.hands[h].task.phase != c.m.phase
         && c'.m.stats == c.m.stats && c'.execs == c.execs
       case Settled(j) =>
         && j < |c.execs| && Verdict(c.execs[j]).Some?
         && var x := c.execs[j];
         && Accepts(c.m, x.worker, x.task.seqNo, x.task.phase)
         && c'.m.stats == c.m.stats[x.task.seqNo := c.m.stats[x.task.seqNo].(status := if Verdict(x).value then Finish else Err)]
         && c'.execs == c.execs[j := x.(pc := AfterReport(c.m, x))]
         && c'.m.ch == c.m.ch && c'.hands == c.hands
       case Ignored(j) =>
         && j < |c.execs| && Verdict(c.execs[j]).Some?
         && !Accepts(c.m, c.execs[j].worker, c.execs[j].task.seqNo, c.execs[j].task.phase)
         && c'.execs == c.execs[j := c.execs[j].(pc := AfterReport(c.m, c.execs[j]))]
         && c'.m.stats == c.m.stats && c'.m.ch == c.m.ch && c'.hands == c.hands
       case Advanced(j) =>
         && j < |c.execs| && |c'.execs| == |c.execs|
         && c'.execs == c.execs[j := c.execs[j].(pc := c'.execs[j].pc)]
         && !Over(c.execs[j].pc) && !c'.execs[j].pc.Reported?
         && c'.m.stats == c.m.stats && c'.m.ch == c.m.ch && c'.hands == c.hands
  }

  ghost predicate TokensOk(c: Control) {
    forall t | t in Tokens(c) :: TaskOk(c.m, t)
  }

  ghost predicate ExecsOk(c: Control) {
    forall j | 0 <= j < |c.execs| :: TaskOk(c.m, c.execs[j].task)
  }

  lemma HandIsToken(c: Control, h: nat)
    requires h < |c.hands|
    ensures c.hands[h].task in Tokens(c)
  {
    assert HandTasks(c.hands)[h] == c.hands[h].task;
  }

  /** The classification is right: every step changes what its effect says, and nothing else. */
  lemma StepChanges(c: Control, st: Step, c': Control)
    requires Next(c, st) == Some(c')
    requires InRange(c.m) && TokensOk(c) && ExecsOk(c)
    ensures Changes(c, EffectOf(c, st), c')
  {
    hide Tokens, Verdict, AfterReport, Start, Over;
    match st
    case Item(now) => ItemChanges(c, now, c');
    case Reg(h, at) => RegChanges(c, h, at, c');
    case Report(j) => ReportChanges(c, j, c');
    case Advance(j, pc) => AdvanceChanges(c, j, pc, c');
    case _ =>
  }

  lemma RegChanges(c: Control, h: nat, at: int, c': Control)
    requires Next(c, Reg(h, at)) == Some(c')
    requires InRange(c.m) && TokensOk(c)
    ensures Changes(c, EffectOf(c, Reg(h, at)), c')
  {
    hide Tokens, Start, Accepts;
    HandIsToken(c, h);
  }

  lemma ReportChanges(c: Control, j: nat, c': Control)
    requires Next(c, Report(j)) == Some(c')
    requires InRange(c.m) && ExecsOk(c)
    ensures Changes(c, EffectOf(c, Report(j)), c')
  {
    hide AfterReport;
    assert TaskOk(c.m, c.execs[j].task);
  }

  lemma AdvanceChanges(c: Control, j: nat, pc: Pc, c': Control)
    requires Next(c, Advance(j, pc)) == Some(c') && InRange(c.m)
    ensures Changes(c, EffectOf(c, Advance(j, pc)), c')
  {
  }

  lemma ItemChanges(c: Control, now: int, c': Control)
    requires Next(c, Item(now)) == Some(c')
    requires InRange(c.m)
    ensures Changes(c, EffectOf(c, Item(now)), c')
  {
    if Sends(c.m, now) {
      assert ScanItem(c.m, now) == Enqueue(c.m, c.m.scan.next);
    }
  }

  // ---- tokens

  function HandTasks(hands: seq<Hand>): (tasks: seq<Task>)
    ensures |tasks| == |hands|
  {
    seq(|hands|, i requires 0 <= i < |hands| => hands[i].task)
  }

  /** All tokens: those in the channel and those in hand. */
  function Tokens(c: Control): multiset<Task> {
    multiset(c.m.ch) + multiset(HandTasks(c.hands))
  }

  /** A task stays well made through any step: only the phase can change, and only forward. */
  lemma TaskStaysOk(c: Control, e: Effect, c': Control, t: Task)
    requires InRange(c.m) && Changes(c, e, c') && TaskOk(c.m, t)
    ensures TaskOk(c'.m, t)
  {
  }

  lemma SameTokens(c: Control, c': Control)
    requires c'.m.ch == c.m.ch && c'.hands == c.hands
    ensures Tokens(c') == Tokens(c)
  {
  }

  lemma SendToken(c: Control, c': Control, t: Task)
    requires c'.m.ch == c.m.ch + [t] && c'.hands == c.hands
    ensures Tokens(c') == Tokens(c) + multiset{t}
  {
  }

  lemma TakeHand(c: Control, c': Control, h: nat)
    requires h < |c.hands|
    requires c'.m.ch == c.m.ch && c'.hands == c.hands[..h] + c.hands[h + 1..]
    ensures Tokens(c') == Tokens(c) - multiset{c.hands[h].task}
    ensures c.hands[h].task in Tokens(c)
  {
    var tasks := HandTasks(c.hands);
    assert HandTasks(c'.hands) == tasks[..h] + tasks[h + 1..];
    assert tasks == tasks[..h] + [tasks[h]] + tasks[h + 1..];
    assert tasks[h] == c.hands[h].task;
  }

  lemma MoveToHand(c: Control, c': Control)
    requires c.m.ch != [] && |c'.hands| == |c.hands| + 1
    requires c'.m.ch == c.m.ch[1..]
    requires c'.hands[..|c.hands|] == c.hands && c'.hands[|c.hands|].task == c.m.ch[0]
    ensures Tokens(c') == Tokens(c)
  {
    assert c.m.ch == [c.m.ch[0]] + c.m.ch[1..];
    forall i | 0 <= i < |c.hands| ensures c'.hands[i] == c.hands[i] {
      assert c'.hands[..|c.hands|][i] == c.hands[i];
    }
    assert HandTasks(c'.hands) == HandTasks(c.hands) + [c.m.ch[0]];
  }

  /** A send adds one token, registering consumes one, and nothing else touches them. */
  lemma TokensChange(c: Control, e: Effect, c': Control)
    requires InRange(c.m) && Changes(c, e, c')
    ensures Tokens(c') ==
            if e.Sent? then Tokens(c) + multiset{TokenOf(c.m, e.i)}
            else if e.Handed? || e.Panicked? then Tokens(c) - multiset{c.hands[e.h].task}
            else Tokens(c)
    ensures e.Handed? || e.Panicked? ==> c.hands[e.h].task in Tokens(c)
  {
    hide Tokens;
    match e
    case Sent(i) => SendToken(c, c', TokenOf(c.m, i));
    case Received => MoveToHand(c, c');
    case Handed(h, _) => TakeHand(c, c', h);
    case Panicked(h) => TakeHand(c, c', h);
    case _ => SameTokens(c, c');
  }
}
