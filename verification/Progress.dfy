/** No timely run gets stuck: from every state it can reach there is a timely way to done. */
module Progress {
  import opened Types
  import opened Naming
  import opened Grouping
  import opened Jobs
  import opened MasterSpec
  import opened Protocol
  import opened Effects
  import opened Invariants
  import opened TimelyRuns
  import opened ClusterSpec
  import opened DiskFacts

  // ---- timely continuations

  ghost predicate Going(job: Job, s: Cluster) {
    Facts(job, s) && Inv(s.c) && TokenInv(s.c) && s.c.m.halt == Alive
  }

  /** The inputs can be read, are not overwritten, and what they emit has somewhere to go. */
  ghost predicate Feasible(job: Job) {
    NoClash(job) && forall i | 0 <= i < |job.files| :: InputOk(job, i)
  }

  /** The events are a timely continuation from s to t in which every write is whole. */
  ghost predicate Leads(job: Job, s: Cluster, events: seq<Event>, t: Cluster) {
    && Play(job, s, events) == Some(t)
    && TimelyPlay(job, s, events)
    && WholeWrites(events)
    && Going(job, t)
  }

  lemma Stay(job: Job, s: Cluster)
    requires Going(job, s)
    ensures Leads(job, s, [], s)
  {
  }

  lemma Follow(job: Job, s: Cluster, a: seq<Event>, t: Cluster, b: seq<Event>, u: Cluster)
    requires Leads(job, s, a, t) && Leads(job, t, b, u)
    ensures Leads(job, s, a + b, u)
  {
    PlayConcat(job, s, a, b);
  }

  lemma PlayOne(job: Job, s: Cluster, ev: Event)
    requires React(job, s, ev).Some?
    ensures Play(job, s, [ev]) == React(job, s, ev)
    ensures TimelyPlay(job, s, [ev]) <==> !Late(s.c, StepOf(job, s, ev).value)
  {
    assert [ev][..|[ev]| - 1] == [];
  }

  lemma MoveOne(job: Job, s: Cluster, st: Step)
    requires Going(job, s) && !st.Advance? && Next(s.c, st).Some? && !Late(s.c, st)
    ensures Leads(job, s, [Move(st)], Cluster(Next(s.c, st).value, s.fs, s.torn))
  {
    var t := Cluster(Next(s.c, st).value, s.fs, s.torn);
    PlayOne(job, s, Move(st));
    InvStep(s.c, st, t.c);
    TokenInvStep(s.c, st, t.c);
    MoveKeepsFacts(job, s, st, t);
  }

  lemma WorkOne(job: Job, s: Cluster, j: nat, a: Action)
    requires NoClash(job) && Going(job, s) && j < |s.c.execs| && !a.TornWrite?
    requires Act(job, s.fs, s.torn, s.c.execs[j], a).Some?
    ensures var r := Act(job, s.fs, s.torn, s.c.execs[j], a).value;
      Leads(job, s, [Work(j, a)], Cluster(s.c.(execs := s.c.execs[j := s.c.execs[j].(pc := r.pc)]), r.fs, r.torn))
  {
    var r := Act(job, s.fs, s.torn, s.c.execs[j], a).value;
    var st := Advance(j, r.pc);
    var t := Cluster(s.c.(execs := s.c.execs[j := s.c.execs[j].(pc := r.pc)]), r.fs, r.torn);
    ActShape(job, s.fs, s.torn, s.c.execs[j], a);
    assert Next(s.c, st) == Some(t.c);
    assert React(job, s, Work(j, a)) == Some(t);
    PlayOne(job, s, Work(j, a));
    InvStep(s.c, st, t.c);
    TokenInvStep(s.c, st, t.c);
    WorkKeepsFacts(job, s, j, a, t);
  }

  lemma ActShape(job: Job, fs: map<string, Content>, torn: set<string>, e: Exec, a: Action)
    requires Act(job, fs, torn, e, a).Some?
    ensures !Over(e.pc) && !Act(job, fs, torn, e, a).value.pc.Reported?
  {
  }

  // ---- a schedule pass

  /** A time at which every running task has timed out. */
  function AfterAll(stats: seq<TaskStat>): int {
    if stats == [] then 0 else
    var rest, x := AfterAll(stats[..|stats| - 1]), stats[|stats| - 1].startTime + MAX_TASK_RUN_TIME + 1;
    if rest < x then x else rest
  }

  lemma {:induction false} AfterAllIsAfter(stats: seq<TaskStat>, i: nat)
    requires i < |stats|
    ensures AfterAll(stats) - stats[i].startTime > MAX_TASK_RUN_TIME
  {
    if i < |stats| - 1 { AfterAllIsAfter(stats[..|stats| - 1], i); }
  }

  ghost predicate Open(t: TaskStat) { t.status in {Queue, Finish} }

  /** All tasks before the scan's position are queued or finished, and allFinish says which. */
  ghost predicate ScanClean(m: MasterState) {
    && m.scan.Scanning? && m.scan.next <= |m.stats|
    && (forall i | 0 <= i < m.scan.next :: Open(m.stats[i]))
    && (m.scan.allFinish <==> forall i | 0 <= i < m.scan.next :: m.stats[i].status == Finish)
  }

  /** Tasks may have been queued again; nothing else has happened to them. */
  ghost predicate Requeued(a: seq<TaskStat>, b: seq<TaskStat>) {
    && |a| == |b|
    && forall i | 0 <= i < |a| :: b[i] == a[i] || (a[i].status != Finish && b[i] == a[i].(status := Queue))
  }

  ghost predicate WorkLeft(m: MasterState) {
    exists i :: 0 <= i < |m.stats| && m.stats[i].status != Finish
  }

  /** The next iteration, at a time when every running task has timed out. */
  lemma ItemClean(m: MasterState, now: int, m': MasterState)
    requires ScanClean(m) && m.scan.next < |m.stats| && InRange(m)
    requires now - m.stats[m.scan.next].startTime > MAX_TASK_RUN_TIME
    requires ScanItem(m, now) == Some(m')
    ensures ScanClean(m') && m'.scan.next == m.scan.next + 1 && |m'.stats| == |m.stats|
    ensures Requeued(m.stats, m'.stats)
  {
    var n := m.scan.next;
    assert m'.stats == m.stats || m'.stats == m.stats[n := m.stats[n].(status := Queue)];
    assert m'.scan.allFinish <==> m.scan.allFinish && m.stats[n].status == Finish;
  }

  /** What a finished pass leaves behind: the same phase with every task queued or finished, if some
      task was unfinished; else the next phase or the end. */
  ghost predicate Passed(s: Cluster, t: Cluster) {
    && t.c.m.scan == Idle && t.c.hands == s.c.hands && t.c.execs == s.c.execs && t.fs == s.fs
    && if WorkLeft(s.c.m) then
         && t.c.m.phase == s.c.m.phase && !t.c.m.done && Requeued(s.c.m.stats, t.c.m.stats)
         && forall i | 0 <= i < |t.c.m.stats| :: Open(t.c.m.stats[i])
       else
         && t.c.m.phase == ReducePhase && t.c.m.done == (s.c.m.phase == ReducePhase)
         && (s.c.m.phase == MapPhase ==> t.c.m.stats == FreshStats(t.c.m.nReduce))
  }

  lemma EndOne(job: Job, s: Cluster) returns (t: Cluster)
    requires Going(job, s) && ScanClean(s.c.m) && s.c.m.scan.next == |s.c.m.stats|
    ensures Leads(job, s, [Move(End)], t) && Passed(s, t)
  {
    MoveOne(job, s, End);
    t := Cluster(Next(s.c, End).value, s.fs, s.torn);
    assert t.c.m == ScanEnd(s.c.m);
  }

  lemma ItemOne(job: Job, s: Cluster, now: int) returns (u: Cluster)
    requires Going(job, s) && s.c.m.scan.Scanning? && s.c.m.scan.next < |s.c.m.stats|
    ensures Leads(job, s, [Move(Item(now))], u)
    ensures u.c.m.scan.Scanning? && u.c.m.scan.next == s.c.m.scan.next + 1 && |u.c.m.stats| == |s.c.m.stats|
    ensures u.c.hands == s.c.hands && u.c.execs == s.c.execs && u.fs == s.fs
    ensures u.c.m.phase == s.c.m.phase && u.c.m.done == s.c.m.done
    ensures ScanItem(s.c.m, now) == Some(u.c.m)
  {
    hide Facts, Tokens, QueuedHasToken, Provenance, FinishAccepted, Barrier;
    SendHasRoom(s.c, now);
    MoveOne(job, s, Item(now));
    u := Cluster(Next(s.c, Item(now)).value, s.fs, s.torn);
    StepChanges(s.c, Item(now), u.c);
  }

  lemma PassedFrom(s: Cluster, u: Cluster, t: Cluster)
    requires Requeued(s.c.m.stats, u.c.m.stats) && u.c.m.phase == s.c.m.phase
    requires u.c.hands == s.c.hands && u.c.execs == s.c.execs && u.fs == s.fs && Passed(u, t)
    ensures Passed(s, t)
  {
    if WorkLeft(s.c.m) {
      var i :| 0 <= i < |s.c.m.stats| && s.c.m.stats[i].status != Finish;
      assert u.c.m.stats[i].status != Finish;
    }
  }

  lemma {:induction false} ScanThrough(job: Job, s: Cluster, now: int) returns (events: seq<Event>, t: Cluster)
    requires Going(job, s) && ScanClean(s.c.m)
    requires forall i | 0 <= i < |s.c.m.stats| :: now - s.c.m.stats[i].startTime > MAX_TASK_RUN_TIME
    ensures Leads(job, s, events, t) && Passed(s, t)
    decreases |s.c.m.stats| - s.c.m.scan.next
  {
    hide Leads, Passed, Going;
    if s.c.m.scan.next == |s.c.m.stats| {
      events := [Move(End)];
      t := EndOne(job, s);
    } else {
      GoingInRange(job, s);
      var u := ItemOne(job, s, now);
      ItemClean(s.c.m, now, u.c.m);
      LeadsGoing(job, s, [Move(Item(now))], u);
      var rest;
      rest, t := ScanThrough(job, u, now);
      events := [Move(Item(now))] + rest;
      Follow(job, s, [Move(Item(now))], u, rest, t);
      PassedFrom(s, u, t);
    }
  }

  lemma GoingInRange(job: Job, s: Cluster)
    requires Going(job, s)
    ensures InRange(s.c.m)
  {
  }

  lemma LeadsGoing(job: Job, s: Cluster, events: seq<Event>, t: Cluster)
    requires Leads(job, s, events, t)
    ensures Going(job, t)
  {
  }

  /** A whole schedule call at a time when every running task has timed out. */
  lemma Pass(job: Job, s: Cluster) returns (events: seq<Event>, t: Cluster)
    requires Going(job, s) && s.c.m.scan == Idle && !s.c.m.done
    ensures Leads(job, s, events, t) && Passed(s, t)
  {
    MoveOne(job, s, Begin);
    var u := Cluster(Next(s.c, Begin).value, s.fs, s.torn);
    var now := AfterAll(u.c.m.stats);
    forall i | 0 <= i < |u.c.m.stats| ensures now - u.c.m.stats[i].startTime > MAX_TASK_RUN_TIME {
      AfterAllIsAfter(u.c.m.stats, i);
    }
    var rest;
    rest, t := ScanThrough(job, u, now);
    events := [Move(Begin)] + rest;
    Follow(job, s, [Move(Begin)], u, rest, t);
    PassedFrom(s, u, t);
  }

  /** Completing a schedule call that is already under way. */
  lemma {:induction false} FinishScan(job: Job, s: Cluster) returns (events: seq<Event>, t: Cluster)
    requires Going(job, s) && s.c.m.scan.Scanning?
    ensures Leads(job, s, events, t) && t.c.m.scan == Idle
    ensures s.c.m.phase == ReducePhase ==> t.c.m.phase == ReducePhase
    decreases |s.c.m.stats| - s.c.m.scan.next
  {
    if s.c.m.scan.next == |s.c.m.stats| {
      MoveOne(job, s, End);
      events, t := [Move(End)], Cluster(Next(s.c, End).value, s.fs, s.torn);
    } else {
      var u := ItemOne(job, s, 0);
      var rest;
      rest, t := FinishScan(job, u);
      events := [Move(Item(0))] + rest;
      Follow(job, s, [Move(Item(0))], u, rest, t);
    }
  }

  // ---- tokens in hand

  lemma {:induction false} RegisterAll(job: Job, s: Cluster) returns (events: seq<Event>, t: Cluster)
    requires Going(job, s) && s.c.m.scan == Idle
    ensures Leads(job, s, events, t) && t.c.hands == [] && t.c.m.scan == Idle
    ensures t.c.m.phase == s.c.m.phase && t.c.m.done == s.c.m.done
    decreases |s.c.hands|
  {
    if s.c.hands == [] {
      Stay(job, s);
      events, t := [], s;
    } else {
      var u := RegisterFirst(job, s);
      var rest;
      rest, t := RegisterAll(job, u);
      events := [Move(Reg(0, 0))] + rest;
      Follow(job, s, [Move(Reg(0, 0))], u, rest, t);
    }
  }

  lemma RegisterFirst(job: Job, s: Cluster) returns (u: Cluster)
    requires Going(job, s) && s.c.m.scan == Idle && s.c.hands != []
    ensures Leads(job, s, [Move(Reg(0, 0))], u)
    ensures u.c.hands == s.c.hands[1..] && u.c.m.ch == s.c.m.ch && u.c.m.scan == Idle && u.fs == s.fs
    ensures u.c.m.phase == s.c.m.phase && u.c.m.done == s.c.m.done && u.c.m.workerSeq == s.c.m.workerSeq
    ensures var h := s.c.hands[0];
      && h.task.phase == s.c.m.phase && h.task.seqNo < |s.c.m.stats|
      && u.c.m.stats == s.c.m.stats[h.task.seqNo := TaskStat(Running, h.worker, 0)]
      && u.c.execs == s.c.execs + [Exec(h.worker, h.task, Start(h.task))]
  {
    NoPanic(s.c, 0);
    HandIsToken(s.c, 0);
    var st := Reg(0, 0);
    MoveOne(job, s, st);
    u := Cluster(Next(s.c, st).value, s.fs, s.torn);
    StepChanges(s.c, st, u.c);
    assert s.c.hands[..0] + s.c.hands[1..] == s.c.hands[1..];
  }

  // ---- one task from its hand-out to its accepted report

  /** Only execution j has moved on. */
  ghost predicate OnlyWorked(s: Cluster, j: nat, t: Cluster) {
    && t.c.m == s.c.m && t.c.hands == s.c.hands
    && |t.c.execs| == |s.c.execs| && j < |s.c.execs|
    && t.c.execs[j].task == s.c.execs[j].task && t.c.execs[j].worker == s.c.execs[j].worker
    && t.c.execs == s.c.execs[j := t.c.execs[j]]
  }

  lemma {:induction false} WriteBuckets(job: Job, s: Cluster, j: nat) returns (events: seq<Event>, t: Cluster)
    requires NoClash(job) && Going(job, s) && j < |s.c.execs|
    requires s.c.execs[j].pc.Mapping? && s.c.execs[j].pc.next <= s.c.execs[j].task.nReduce
    ensures Leads(job, s, events, t) && OnlyWorked(s, j, t) && Complete(t.c.execs[j])
    decreases s.c.execs[j].task.nReduce - s.c.execs[j].pc.next
  {
    var e := s.c.execs[j];
    if e.pc.next == e.task.nReduce {
      Stay(job, s);
      events, t := [], s;
    } else {
      WorkOne(job, s, j, WriteBucket);
      var r := Act(job, s.fs, s.torn, e, WriteBucket).value;
      var u := Cluster(s.c.(execs := s.c.execs[j := e.(pc := r.pc)]), r.fs, r.torn);
      var rest;
      rest, t := WriteBuckets(job, u, j);
      events := [Work(j, WriteBucket)] + rest;
      Follow(job, s, [Work(j, WriteBucket)], u, rest, t);
    }
  }

  lemma DoMap(job: Job, s: Cluster, j: nat) returns (events: seq<Event>, t: Cluster)
    requires NoClash(job) && Going(job, s) && j < |s.c.execs|
    requires s.c.execs[j].pc.Assigned? && s.c.execs[j].task.phase == MapPhase
    requires s.c.execs[j].task.seqNo < |job.files| ==> InputOk(job, s.c.execs[j].task.seqNo)
    ensures Leads(job, s, events, t) && OnlyWorked(s, j, t) && Complete(t.c.execs[j])
  {
    var e := s.c.execs[j];
    assert TaskOk(s.c.m, e.task);
    assert e.task.fileName in job.files;
    var a := ReadInput(MapOut(job, e.task.seqNo));
    WorkOne(job, s, j, a);
    var r := Act(job, s.fs, s.torn, e, a).value;
    var u := Cluster(s.c.(execs := s.c.execs[j := e.(pc := r.pc)]), r.fs, r.torn);
    var rest;
    rest, t := WriteBuckets(job, u, j);
    events := [Work(j, a)] + rest;
    Follow(job, s, [Work(j, a)], u, rest, t);
  }

  lemma PieceExists(job: Job, s: Cluster, j: nat, i: nat)
    requires Going(job, s) && j < |s.c.execs| && s.c.execs[j].task.phase == ReducePhase && i < |job.files|
    ensures ReduceName(i, s.c.execs[j].task.seqNo) in s.fs
  {
    assert TaskOk(s.c.m, s.c.execs[j].task);
    BehindBarrier(job, s, i);
  }

  lemma {:induction false} Enumerate(items: set<Line>) returns (lines: seq<Line>)
    ensures multiset(lines) == multiset(items)
  {
    if items == {} {
      lines := [];
    } else {
      var x :| x in items;
      var rest := Enumerate(items - {x});
      lines := [x] + rest;
      assert multiset(items) == multiset(items - {x}) + multiset{x};
    }
  }

  lemma {:induction false} ReadAll(job: Job, s: Cluster, j: nat) returns (events: seq<Event>, t: Cluster)
    requires Feasible(job) && Going(job, s) && j < |s.c.execs|
    requires s.c.execs[j].task.phase == ReducePhase
    requires s.c.execs[j].pc.Reducing? && s.c.execs[j].pc.next <= s.c.execs[j].task.nMaps
    ensures Leads(job, s, events, t) && OnlyWorked(s, j, t)
    ensures t.c.execs[j].pc.Reducing? && t.c.execs[j].pc.next == t.c.execs[j].task.nMaps
    decreases s.c.execs[j].task.nMaps - s.c.execs[j].pc.next
  {
    var e := s.c.execs[j];
    if e.pc.next == e.task.nMaps {
      Stay(job, s);
      events, t := [], s;
    } else {
      assert TaskOk(s.c.m, e.task);
      PieceExists(job, s, j, e.pc.next);
      WorkOne(job, s, j, ReadBucket);
      var r := Act(job, s.fs, s.torn, e, ReadBucket).value;
      var u := Cluster(s.c.(execs := s.c.execs[j := e.(pc := r.pc)]), r.fs, r.torn);
      var rest;
      rest, t := ReadAll(job, u, j);
      events := [Work(j, ReadBucket)] + rest;
      Follow(job, s, [Work(j, ReadBucket)], u, rest, t);
    }
  }

  lemma DoReduce(job: Job, s: Cluster, j: nat) returns (events: seq<Event>, t: Cluster)
    requires Feasible(job) && Going(job, s) && j < |s.c.execs|
    requires s.c.execs[j].task.phase == ReducePhase
    requires s.c.execs[j].pc.Reducing? && s.c.execs[j].pc.next <= s.c.execs[j].task.nMaps
    ensures Leads(job, s, events, t) && OnlyWorked(s, j, t) && Complete(t.c.execs[j])
  {
    hide Going;
    var e1, u := ReadAll(job, s, j);
    LeadsGoing(job, s, e1, u);
    var e := u.c.execs[j];
    var lines := Enumerate(Reduced(job.reducef, e.pc.read).Items);
    var a := WriteOutput(lines);
    WorkOne(job, u, j, a);
    var r := Act(job, u.fs, u.torn, e, a).value;
    t := Cluster(u.c.(execs := u.c.execs[j := e.(pc := r.pc)]), r.fs, r.torn);
    events := e1 + [Work(j, a)];
    Follow(job, s, e1, u, [Work(j, a)], t);
  }

  /** A report about a task that is not queued, from the worker recorded for it. */
  lemma ReportOne(job: Job, s: Cluster, j: nat, i: nat) returns (t: Cluster)
    requires Going(job, s) && s.c.m.scan == Idle && j < |s.c.execs| && Verdict(s.c.execs[j]).Some?
    requires s.c.execs[j].task.phase == s.c.m.phase && s.c.execs[j].task.seqNo == i < |s.c.m.stats|
    requires s.c.m.stats[i].status != Queue && s.c.m.stats[i].workerId == s.c.execs[j].worker
    ensures Leads(job, s, [Move(Report(j))], t) && t.c.hands == s.c.hands && t.fs == s.fs
    ensures var e := s.c.execs[j];
      && t.c.m == s.c.m.(stats := s.c.m.stats[i := s.c.m.stats[i].(status := if Verdict(e).value then Finish else Err)])
      && t.c.execs == s.c.execs[j := e.(pc := AfterReport(s.c.m, e))]
  {
    MoveOne(job, s, Report(j));
    t := Cluster(Next(s.c, Report(j)).value, s.fs, s.torn);
  }

  /** A running task is carried out and its success is accepted. */
  lemma RunTask(job: Job, s: Cluster, j: nat, i: nat) returns (events: seq<Event>, t: Cluster)
    requires Feasible(job) && Going(job, s) && s.c.m.scan == Idle
    requires j < |s.c.execs| && s.c.execs[j].pc == Start(s.c.execs[j].task)
    requires s.c.execs[j].task.phase == s.c.m.phase && s.c.execs[j].task.seqNo == i < |s.c.m.stats|
    requires s.c.m.stats[i].status == Running && s.c.m.stats[i].workerId == s.c.execs[j].worker
    ensures Leads(job, s, events, t)
    ensures t.c.m == s.c.m.(stats := s.c.m.stats[i := s.c.m.stats[i].(status := Finish)]) && t.c.hands == s.c.hands
    ensures |t.c.execs| == |s.c.execs| && t.c.execs[..j] == s.c.execs[..j] && t.c.execs[j].task == s.c.execs[j].task
  {
    var work, u;
    if s.c.m.phase == MapPhase {
      work, u := DoMap(job, s, j);
    } else {
      work, u := DoReduce(job, s, j);
    }
    t := ReportOne(job, u, j, i);
    events := work + [Move(Report(j))];
    Follow(job, s, work, u, [Move(Report(j))], t);
  }

  // ---- a phase

  lemma GoingAlive(job: Job, s: Cluster)
    requires Going(job, s)
    ensures s.c.m.halt == Alive
  {
  }

  lemma HandIsCurrent(job: Job, s: Cluster, h: nat)
    requires Going(job, s) && h < |s.c.hands|
    ensures var task := s.c.hands[h].task;
      && task.phase == s.c.m.phase && task.seqNo < |s.c.m.stats|
      && task == TaskFor(s.c.m.files, s.c.m.nReduce, s.c.m.phase, task.seqNo)
  {
    hide Tokens;
    NoPanic(s.c, h);
    HandIsToken(s.c, h);
    assert TaskOk(s.c.m, s.c.hands[h].task);
  }

  /** Worker w takes the first token in the channel and registers it, at time 0. */
  lemma TakeFirst(job: Job, s: Cluster, w: nat) returns (events: seq<Event>, t: Cluster)
    requires Going(job, s) && s.c.m.scan == Idle && s.c.hands == [] && s.c.m.ch != [] && w <= s.c.m.workerSeq
    ensures Leads(job, s, events, t)
    ensures var task := s.c.m.ch[0];
      && task.seqNo < |s.c.m.stats| && task == TaskFor(s.c.m.files, s.c.m.nReduce, s.c.m.phase, task.seqNo)
      && t.c.m == s.c.m.(ch := s.c.m.ch[1..], stats := s.c.m.stats[task.seqNo := TaskStat(Running, w, 0)])
      && t.c.hands == [] && t.c.execs == s.c.execs + [Exec(w, task, Start(task))] && t.fs == s.fs
  {
    hide Going;
    GoingAlive(job, s);
    var task := s.c.m.ch[0];
    var st := Receive(w);
    MoveOne(job, s, st);
    var u := Cluster(Next(s.c, st).value, s.fs, s.torn);
    assert u.c.hands == [Hand(w, task)];
    LeadsGoing(job, s, [Move(st)], u);
    GoingAlive(job, u);
    HandIsCurrent(job, u, 0);
    MoveOne(job, u, Reg(0, 0));
    t := Cluster(Next(u.c, Reg(0, 0)).value, u.fs, u.torn);
    assert u.c.hands[..0] + u.c.hands[1..] == [];
    events := [Move(st)] + [Move(Reg(0, 0))];
    Follow(job, s, [Move(st)], u, [Move(Reg(0, 0))], t);
  }

  /** A new worker takes the first token in the channel and finishes its task. */
  lemma DrainOne(job: Job, s: Cluster) returns (events: seq<Event>, t: Cluster, i: nat)
    requires Feasible(job) && Going(job, s) && s.c.m.scan == Idle && s.c.hands == [] && s.c.m.ch != []
    ensures Leads(job, s, events, t) && t.c.m.scan == Idle && t.c.hands == []
    ensures t.c.m.phase == s.c.m.phase && t.c.m.done == s.c.m.done && t.c.m.ch == s.c.m.ch[1..]
    ensures i < |s.c.m.stats| == |t.c.m.stats| && t.c.m.stats[i].status == Finish
    ensures forall k | 0 <= k < |s.c.m.stats| && k != i :: t.c.m.stats[k] == s.c.m.stats[k]
    ensures i == s.c.m.ch[0].seqNo && t.c.execs[..|t.c.execs| - 1] == s.c.execs && t.c.execs[|s.c.execs|].task == s.c.m.ch[0]
  {
    hide Going;
    GoingAlive(job, s);
    MoveOne(job, s, Register);
    var a := Cluster(Next(s.c, Register).value, s.fs, s.torn);
    LeadsGoing(job, s, [Move(Register)], a);
    var take, d := TakeFirst(job, a, a.c.m.workerSeq);
    LeadsGoing(job, a, take, d);
    Follow(job, s, [Move(Register)], a, take, d);
    i := s.c.m.ch[0].seqNo;
    var work;
    work, t := RunTask(job, d, |d.c.execs| - 1, i);
    events := [Move(Register)] + take + work;
    Follow(job, s, [Move(Register)] + take, d, work, t);
  }

  lemma QueuedIsInChannel(c: Control, i: nat)
    requires Inv(c) && c.hands == [] && i < |c.m.stats| && c.m.stats[i].status == Queue
    ensures c.m.ch != []
  {
    assert TokenOf(c.m, i) in Tokens(c);
  }

  lemma {:induction false} Drain(job: Job, s: Cluster) returns (events: seq<Event>, t: Cluster)
    requires Feasible(job) && Going(job, s) && s.c.m.scan == Idle && s.c.hands == []
    requires forall i | 0 <= i < |s.c.m.stats| :: Open(s.c.m.stats[i])
    ensures Leads(job, s, events, t) && t.c.m.scan == Idle && t.c.hands == []
    ensures t.c.m.phase == s.c.m.phase && t.c.m.done == s.c.m.done
    ensures forall i | 0 <= i < |t.c.m.stats| :: t.c.m.stats[i].status == Finish
    decreases |s.c.m.ch|
  {
    if s.c.m.ch == [] {
      Stay(job, s);
      events, t := [], s;
      forall i | 0 <= i < |s.c.m.stats| ensures s.c.m.stats[i].status == Finish {
        if s.c.m.stats[i].status == Queue { QueuedIsInChannel(s.c, i); }
      }
    } else {
      var first, u, k := DrainOne(job, s);
      var rest;
      rest, t := Drain(job, u);
      events := first + rest;
      Follow(job, s, first, u, rest, t);
    }
  }

  /** Tasks are finished one after the other until only one token is left. */
  lemma {:induction false} DrainToLast(job: Job, s: Cluster) returns (events: seq<Event>, t: Cluster)
    requires Feasible(job) && Going(job, s) && s.c.m.scan == Idle && s.c.hands == [] && s.c.m.ch != []
    requires forall i | 0 <= i < |s.c.m.stats| :: Open(s.c.m.stats[i])
    ensures Leads(job, s, events, t) && t.c.m.scan == Idle && t.c.hands == [] && |t.c.m.ch| == 1
    ensures t.c.m.phase == s.c.m.phase && t.c.m.done == s.c.m.done
    ensures forall i | 0 <= i < |t.c.m.stats| :: Open(t.c.m.stats[i])
    decreases |s.c.m.ch|
  {
    if |s.c.m.ch| == 1 {
      Stay(job, s);
      events, t := [], s;
    } else {
      var first, u, k := DrainOne(job, s);
      var rest;
      rest, t := DrainToLast(job, u);
      events := first + rest;
      Follow(job, s, first, u, rest, t);
    }
  }

  function Rank(m: MasterState): nat {
    if m.phase == MapPhase then 2 else if m.done then 0 else 1
  }

  /** From an unfinished state to the next phase, or from the last phase to done. */
  lemma FinishPhase(job: Job, s: Cluster) returns (events: seq<Event>, t: Cluster)
    requires Feasible(job) && Going(job, s) && s.c.m.scan == Idle && !s.c.m.done
    ensures Leads(job, s, events, t) && t.c.m.scan == Idle && t.c.hands == [] && Rank(t.c.m) < Rank(s.c.m)
    ensures t.c.m.phase == ReducePhase && t.c.m.done == (s.c.m.phase == ReducePhase)
    ensures s.c.m.phase == MapPhase ==> t.c.m.stats == FreshStats(t.c.m.nReduce)
    ensures s.c.m.phase == MapPhase ==> forall k | 0 <= k < |t.c.execs| :: t.c.execs[k].task.phase == MapPhase
  {
    var e1, s1 := RegisterAll(job, s);
    var e2, s2 := Pass(job, s1);
    Follow(job, s, e1, s1, e2, s2);
    if s2.c.m.phase != s.c.m.phase || s2.c.m.done {
      events, t := e1 + e2, s2;
    } else {
      var e3, s3 := Drain(job, s2);
      Follow(job, s, e1 + e2, s2, e3, s3);
      var e4, s4 := Pass(job, s3);
      Follow(job, s, e1 + e2 + e3, s3, e4, s4);
      events, t := e1 + e2 + e3 + e4, s4;
    }
  }

  lemma {:induction false} FinishJob(job: Job, s: Cluster) returns (events: seq<Event>, t: Cluster)
    requires Feasible(job) && Going(job, s) && s.c.m.scan == Idle
    ensures Leads(job, s, events, t) && t.c.m.done && (s.c.hands == [] ==> t.c.hands == [])
    decreases Rank(s.c.m)
  {
    if s.c.m.done {
      Stay(job, s);
      events, t := [], s;
    } else {
      var e1, s1 := FinishPhase(job, s);
      var rest;
      rest, t := FinishJob(job, s1);
      events := e1 + rest;
      Follow(job, s, e1, s1, rest, t);
    }
  }

  lemma {:induction false} TimelyPlayGoes(job: Job, events: seq<Event>)
    requires NoClash(job)
    requires Play(job, InitCluster(job), events).Some? && TimelyPlay(job, InitCluster(job), events)
    ensures Going(job, Play(job, InitCluster(job), events).value)
  {
    PlayInv(job, events);
    if events != [] {
      var front := events[..|events| - 1];
      TimelyPlayGoes(job, front);
      var s, ev := Play(job, InitCluster(job), front).value, events[|events| - 1];
      FactsStep(job, s, ev, Play(job, InitCluster(job), events).value);
    }
  }

  /** Every timely run, wherever it stands and whatever its workers did or failed to do, can be
      continued to done without a late report, every further write being whole. */
  lemma NoStuckState(job: Job, events: seq<Event>)
    requires Feasible(job)
    requires Play(job, InitCluster(job), events).Some? && TimelyPlay(job, InitCluster(job), events)
    ensures exists more ::
              && Play(job, InitCluster(job), events + more).Some?
              && TimelyPlay(job, InitCluster(job), events + more)
              && Play(job, InitCluster(job), events + more).value.c.m.done
              && WholeWrites(more)
  {
    TimelyPlayGoes(job, events);
    var s := Play(job, InitCluster(job), events).value;
    var e1, s1 := [], s;
    if s.c.m.scan.Scanning? {
      e1, s1 := FinishScan(job, s);
    } else {
      Stay(job, s);
    }
    var e2, t := FinishJob(job, s1);
    Follow(job, s, e1, s1, e2, t);
    PlayConcat(job, InitCluster(job), events, e1 + e2);
  }
}
