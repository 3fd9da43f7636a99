/** Exactly which jobs late reports can bring down or block, and in which a finished task can fail after all. */
module LateReports {
  import opened Types
  import opened Jobs
  import opened MasterSpec
  import opened Protocol
  import opened Effects
  import opened Invariants
  import opened TimelyRuns
  import opened ClusterSpec
  import opened DiskFacts
  import opened Progress

  // ---- a job can end in the panic only if its inputs can be mapped

  /** A token of the map phase that is registered in the reduce phase. */
  lemma PanicIsBehindBarrier(c: Control, st: Step, c': Control)
    requires Inv(c) && Next(c, st) == Some(c') && c'.m.halt == PhasePanic
    ensures c.m.phase == ReducePhase && c.m.files != []
  {
    hide Tokens, QueuedHasToken, Provenance, FinishAccepted, Barrier;
    StepChanges(c, st, c');
    HandIsToken(c, st.hand);
  }

  lemma PanicNeedsInputs(job: Job, events: seq<Event>)
    requires NoClash(job) && Play(job, InitCluster(job), events).Some?
    requires Play(job, InitCluster(job), events).value.c.m.halt == PhasePanic
    ensures job.files != [] && forall i | 0 <= i < |job.files| :: InputOk(job, i)
  {
    var front, ev := events[..|events| - 1], events[|events| - 1];
    var s, t := Play(job, InitCluster(job), front).value, Play(job, InitCluster(job), events).value;
    PlayInv(job, front);
    FactsRun(job, front);
    PanicIsBehindBarrier(s.c, StepOf(job, s, ev).value, t.c);
    forall i | 0 <= i < |job.files| ensures InputOk(job, i) { BehindBarrier(job, s, i); }
  }

  // ---- the last map task

  /** All map tasks but task i are finished, and the only token is that of task i. */
  ghost predicate OnlyTaskLeft(c: Control, i: nat) {
    && c.m.phase == MapPhase && !c.m.done && c.m.scan == Idle && c.hands == []
    && i < |c.m.stats| && |c.m.stats| == |c.m.files| && c.m.stats[i].status == Queue
    && (forall k | 0 <= k < |c.m.stats| && k != i :: c.m.stats[k].status == Finish)
    && c.m.ch == [TokenOf(c.m, i)]
  }

  /** With one queued task, no hands and matching tokens, its token is the only one in the channel. */
  lemma OneTokenLeft(c: Control, i: nat)
    requires Inv(c) && TokenInv(c) && c.hands == [] && i < |c.m.stats| && c.m.stats[i].status == Queue
    requires forall k | 0 <= k < |c.m.stats| && k != i :: c.m.stats[k].status == Finish
    ensures c.m.ch == [TokenOf(c.m, i)]
  {
    var t0 := TokenOf(c.m, i);
    forall t: Task ensures multiset(c.m.ch)[t] == multiset{t0}[t] {
      assert Tokens(c)[t] == Due(c.m, t);
    }
    assert multiset(c.m.ch) == multiset{t0};
    assert |c.m.ch| == |multiset(c.m.ch)| == 1;
    assert c.m.ch[0] in multiset(c.m.ch);
  }

  /** The only token left is that of the only unfinished task. */
  lemma LastIsOnly(c: Control) returns (i: nat)
    requires Inv(c) && TokenInv(c) && c.m.phase == MapPhase && !c.m.done && c.m.scan == Idle && c.hands == [] && |c.m.ch| == 1
    requires forall k | 0 <= k < |c.m.stats| :: Open(c.m.stats[k])
    ensures OnlyTaskLeft(c, i)
  {
    var t0 := c.m.ch[0];
    i := t0.seqNo;
    assert Tokens(c)[t0] == Due(c.m, t0);
    forall k | 0 <= k < |c.m.stats| && k != i ensures c.m.stats[k].status == Finish {
      assert Tokens(c)[TokenOf(c.m, k)] == Due(c.m, TokenOf(c.m, k));
    }
    OneTokenLeft(c, i);
  }

  /** Every feasible job with inputs has a timely run to such a state. */
  lemma LastMapTask(job: Job) returns (events: seq<Event>, s: Cluster, i: nat)
    requires Feasible(job) && job.files != []
    ensures Leads(job, InitCluster(job), events, s) && OnlyTaskLeft(s.c, i)
  {
    var init := InitCluster(job);
    TimelyPlayGoes(job, []);
    var e1, s1 := Pass(job, init);
    assert init.c.m.stats[0].status != Finish;
    QueuedIsInChannel(s1.c, 0);
    var e2;
    e2, s := DrainToLast(job, s1);
    Follow(job, init, e1, s1, e2, s);
    events := e1 + e2;
    i := LastIsOnly(s.c);
  }

  /** The task is handed out again after a timeout: its old execution is where it was. */
  lemma TimeOutLast(job: Job, s: Cluster, i: nat) returns (events: seq<Event>, t: Cluster)
    requires Going(job, s) && s.c.m.phase == MapPhase && !s.c.m.done && s.c.m.scan == Idle && s.c.hands == []
    requires i < |s.c.m.stats| == |s.c.m.files| && s.c.m.stats[i].status == Running
    requires forall k | 0 <= k < |s.c.m.stats| && k != i :: s.c.m.stats[k].status == Finish
    ensures Leads(job, s, events, t) && OnlyTaskLeft(t.c, i)
    ensures t.c.execs == s.c.execs && t.c.m.stats[i].workerId == s.c.m.stats[i].workerId
  {
    events, t := Pass(job, s);
    assert WorkLeft(s.c.m);
    OneTokenLeft(t.c, i);
  }

  // ---- the panic

  /** A late success report about the last map task. */
  lemma LateSuccess(job: Job, s: Cluster, j: nat, i: nat) returns (t: Cluster)
    requires s.c.m.halt == Alive && OnlyTaskLeft(s.c, i)
    requires j < |s.c.execs| && Complete(s.c.execs[j]) && s.c.execs[j].worker == s.c.m.stats[i].workerId
    requires s.c.execs[j].task.phase == MapPhase && s.c.execs[j].task.seqNo == i
    ensures Play(job, s, [Move(Report(j))]) == Some(t)
    ensures t.c.m == s.c.m.(stats := s.c.m.stats[i := s.c.m.stats[i].(status := Finish)]) && t.c.hands == []
  {
    PlayOne(job, s, Move(Report(j)));
    t := Cluster(Next(s.c, Report(j)).value, s.fs, s.torn);
  }

  /** The loop of a schedule call that finds every task finished. */
  lemma {:induction false} ScanFinished(job: Job, s: Cluster) returns (events: seq<Event>, t: Cluster)
    requires s.c.m.halt == Alive && s.c.m.scan.Scanning? && s.c.m.scan.allFinish && s.c.m.scan.next <= |s.c.m.stats|
    requires forall k | 0 <= k < |s.c.m.stats| :: s.c.m.stats[k].status == Finish
    ensures Play(job, s, events) == Some(t) && t == s.(c := s.c.(m := ScanEnd(s.c.m)))
    decreases |s.c.m.stats| - s.c.m.scan.next
  {
    if s.c.m.scan.next == |s.c.m.stats| {
      events, t := [Move(End)], s.(c := s.c.(m := ScanEnd(s.c.m)));
      PlayOne(job, s, Move(End));
    } else {
      var u := s.(c := s.c.(m := s.c.m.(scan := Scanning(s.c.m.scan.next + 1, true))));
      PlayOne(job, s, Move(Item(0)));
      assert Play(job, s, [Move(Item(0))]) == Some(u);
      var rest;
      rest, t := ScanFinished(job, u);
      events := [Move(Item(0))] + rest;
      PlayConcat(job, s, [Move(Item(0))], rest);
    }
  }

  /** A whole schedule call that switches to the reduce phase. */
  lemma SwitchPhase(job: Job, s: Cluster) returns (events: seq<Event>, t: Cluster)
    requires s.c.m.halt == Alive && s.c.m.scan == Idle && !s.c.m.done && s.c.m.phase == MapPhase
    requires forall k | 0 <= k < |s.c.m.stats| :: s.c.m.stats[k].status == Finish
    ensures Play(job, s, events) == Some(t) && t.c.hands == s.c.hands
    ensures t.c.m == s.c.m.(phase := ReducePhase, stats := FreshStats(s.c.m.nReduce))
  {
    var u := s.(c := s.c.(m := ScanBegin(s.c.m)));
    PlayOne(job, s, Move(Begin));
    assert Play(job, s, [Move(Begin)]) == Some(u);
    var rest;
    rest, t := ScanFinished(job, u);
    events := [Move(Begin)] + rest;
    PlayConcat(job, s, [Move(Begin)], rest);
  }

  /** The token of the map phase that is still in the channel is taken and registered. */
  lemma RegisterStale(job: Job, s: Cluster) returns (events: seq<Event>, t: Cluster)
    requires s.c.m.halt == Alive && s.c.m.scan == Idle && s.c.hands == [] && |s.c.m.ch| == 1
    requires s.c.m.ch[0].phase != s.c.m.phase
    ensures Play(job, s, events) == Some(t) && t.c.m.halt == PhasePanic
  {
    var u := s.(c := Next(s.c, Receive(0)).value);
    PlayOne(job, s, Move(Receive(0)));
    assert u.c.hands == [Hand(0, s.c.m.ch[0])];
    t := u.(c := Next(u.c, Reg(0, 0)).value);
    PlayOne(job, u, Move(Reg(0, 0)));
    events := [Move(Receive(0))] + [Move(Reg(0, 0))];
    PlayConcat(job, s, [Move(Receive(0))], [Move(Reg(0, 0))]);
  }

  lemma Continue(job: Job, s: Cluster, a: seq<Event>, t: Cluster, b: seq<Event>, u: Cluster)
    requires Play(job, s, a) == Some(t) && Play(job, t, b) == Some(u)
    ensures Play(job, s, a + b) == Some(u)
  {
    PlayConcat(job, s, a, b);
  }

  ghost predicate CanPanic(job: Job) {
    exists events :: Play(job, InitCluster(job), events).Some? && Play(job, InitCluster(job), events).value.c.m.halt == PhasePanic
  }

  /** The last map task is carried out, times out and is queued again; then its first execution reports
      success, the phase switches, and the token that is still in the channel is registered. */
  lemma LateReportPanics(job: Job)
    requires Feasible(job) && job.files != []
    ensures CanPanic(job)
  {
    hide Going, Play, Inv, TokenInv;
    var init := InitCluster(job);
    var e1, s1, i := LastMapTask(job);
    LeadsGoing(job, init, e1, s1);
    var e2, s2 := TakeFirst(job, s1, 0);
    Follow(job, init, e1, s1, e2, s2);
    LeadsGoing(job, s1, e2, s2);
    var j := |s1.c.execs|;
    assert i < |job.files| by { GoingSizes(job, s1); }
    var e3, s3 := DoMap(job, s2, j);
    Follow(job, init, e1 + e2, s2, e3, s3);
    LeadsGoing(job, s2, e3, s3);
    var e4, s4 := TimeOutLast(job, s3, i);
    Follow(job, init, e1 + e2 + e3, s3, e4, s4);
    GoingAlive(job, s4);
    var s5 := LateSuccess(job, s4, j, i);
    Continue(job, init, e1 + e2 + e3 + e4, s4, [Move(Report(j))], s5);
    var e6, s6 := SwitchPhase(job, s5);
    Continue(job, init, e1 + e2 + e3 + e4 + [Move(Report(j))], s5, e6, s6);
    var e7, s7 := RegisterStale(job, s6);
    Continue(job, init, e1 + e2 + e3 + e4 + [Move(Report(j))] + e6, s6, e7, s7);
  }

  lemma GoingSizes(job: Job, s: Cluster)
    requires Going(job, s)
    ensures s.c.m.files == job.files
  {
  }

  /** Some run of a job ends in the panic of regTask if and only if the job has an input, every input can
      be read, and what the inputs emit has a bucket to go to. */
  lemma PanicsExactlyWhenMapped(job: Job)
    requires NoClash(job)
    ensures CanPanic(job) <==> job.files != [] && forall i | 0 <= i < |job.files| :: InputOk(job, i)
  {
    if CanPanic(job) {
      var events :| Play(job, InitCluster(job), events).Some? && Play(job, InitCluster(job), events).value.c.m.halt == PhasePanic;
      PanicNeedsInputs(job, events);
    }
    if job.files != [] && forall i | 0 <= i < |job.files| :: InputOk(job, i) {
      LateReportPanics(job);
    }
  }

  // ---- failures under a shared id that are still to be reported

  /** The events are a timely continuation from s to t. */
  ghost predicate Comes(job: Job, s: Cluster, events: seq<Event>, t: Cluster) {
    Play(job, s, events) == Some(t) && TimelyPlay(job, s, events) && Going(job, t)
  }

  lemma LeadsComes(job: Job, s: Cluster, events: seq<Event>, t: Cluster)
    requires Leads(job, s, events, t)
    ensures Comes(job, s, events, t)
  {
  }

  lemma FollowOn(job: Job, s: Cluster, a: seq<Event>, t: Cluster, b: seq<Event>, u: Cluster)
    requires Comes(job, s, a, t) && Comes(job, t, b, u)
    ensures Comes(job, s, a + b, u)
  {
    PlayConcat(job, s, a, b);
  }

  /** No call is under way, and task i is queued. */
  ghost predicate Waiting(job: Job, s: Cluster, i: nat) {
    && Going(job, s) && s.c.m.scan == Idle && s.c.hands == [] && !s.c.m.done
    && i < |s.c.m.stats| && s.c.m.stats[i].status == Queue
  }

  /** Tasks may have been handed out; nothing else has happened to them. */
  ghost predicate HandedOut(a: seq<TaskStat>, b: seq<TaskStat>) {
    |a| == |b| && forall k | 0 <= k < |a| :: b[k].status == a[k].status || b[k].status == Running
  }

  /** Executions may have been added; those there were are where they were. */
  ghost predicate Extends(a: seq<Exec>, b: seq<Exec>) {
    |a| <= |b| && forall j | 0 <= j < |a| :: b[j] == a[j]
  }

  lemma Onward(a: Control, b: Control, c: Control)
    requires HandedOut(a.m.stats, b.m.stats) && HandedOut(b.m.stats, c.m.stats)
    requires Extends(a.execs, b.execs) && Extends(b.execs, c.execs)
    ensures HandedOut(a.m.stats, c.m.stats) && Extends(a.execs, c.execs)
  {
  }

  /** The first token is taken under the id 0. */
  lemma TakeNext(job: Job, s: Cluster, i: nat) returns (events: seq<Event>, t: Cluster)
    requires Waiting(job, s, i)
    ensures Leads(job, s, events, t) && s.c.m.ch != [] && t.c.m.ch == s.c.m.ch[1..]
    ensures t.c.hands == [] && t.c.m.scan == Idle && t.c.m.phase == s.c.m.phase && !t.c.m.done
    ensures HandedOut(s.c.m.stats, t.c.m.stats) && |t.c.execs| == |s.c.execs| + 1 && Extends(s.c.execs, t.c.execs)
    ensures i < |t.c.m.stats|
    ensures if s.c.m.ch[0].seqNo == i then t.c.m.stats[i] == TaskStat(Running, 0, 0) && HasTask(t.c, |s.c.execs|, i)
            else Waiting(job, t, i)
  {
    QueuedIsInChannel(s.c, i);
    hide Going;
    events, t := TakeFirst(job, s, 0);
    LeadsGoing(job, s, events, t);
  }

  /** Execution j of task i has just been handed out under the id 0. */
  ghost predicate HasTask(c: Control, j: nat, i: nat) {
    && j < |c.execs|
    && var e := c.execs[j];
    e.worker == 0 && e.task.phase == c.m.phase && e.task.seqNo == i && e.pc == Start(e.task)
  }

  /** Tokens are taken under the id 0 until task i is handed out. */
  lemma {:induction false} TakeUntil(job: Job, s: Cluster, i: nat) returns (events: seq<Event>, t: Cluster)
    requires Waiting(job, s, i)
    ensures Leads(job, s, events, t) && t.c.hands == [] && t.c.m.scan == Idle && t.c.m.phase == s.c.m.phase && !t.c.m.done
    ensures HandedOut(s.c.m.stats, t.c.m.stats) && i < |t.c.m.stats| && t.c.m.stats[i] == TaskStat(Running, 0, 0)
    ensures |t.c.execs| > |s.c.execs| && Extends(s.c.execs, t.c.execs) && HasTask(t.c, |t.c.execs| - 1, i)
    decreases |s.c.m.ch|
  {
    hide Waiting, Leads, HasTask, HandedOut, Extends;
    var first, u := TakeNext(job, s, i);
    if s.c.m.ch[0].seqNo == i {
      events, t := first, u;
    } else {
      var rest;
      rest, t := TakeUntil(job, u, i);
      events := first + rest;
      Follow(job, s, first, u, rest, t);
      Onward(s.c, u.c, t.c);
    }
  }

  /** An execution of task i, handed out under the id 0, has a failure to report. */
  ghost predicate Pending(c: Control, j: nat, i: nat) {
    && j < |c.execs|
    && var e := c.execs[j];
    e.worker == 0 && e.task.phase == c.m.phase && e.task.seqNo == i && Verdict(e) == Some(false)
  }

  /** A map task fails on its input, a reduce task with nothing to read fails on its output. */
  lemma FailOne(job: Job, s: Cluster, j: nat) returns (ev: Event, t: Cluster)
    requires NoClash(job) && Going(job, s) && j < |s.c.execs| && s.c.execs[j].pc == Start(s.c.execs[j].task)
    requires s.c.execs[j].task.phase == MapPhase || job.files == []
    ensures Comes(job, s, [ev], t) && Verdict(t.c.execs[j]) == Some(false)
    ensures t.c == s.c.(execs := s.c.execs[j := s.c.execs[j].(pc := t.c.execs[j].pc)])
  {
    var e := s.c.execs[j];
    assert TaskOk(s.c.m, e.task);
    var a := if e.task.phase == MapPhase then Fail else TornWrite(None, FailedWrite);
    var w := Act(job, s.fs, s.torn, e, a).value;
    var st := Advance(j, w.pc);
    ev := Work(j, a);
    t := Cluster(s.c.(execs := s.c.execs[j := e.(pc := w.pc)]), w.fs, w.torn);
    assert Next(s.c, st) == Some(t.c);
    PlayOne(job, s, ev);
    InvStep(s.c, st, t.c);
    TokenInvStep(s.c, st, t.c);
    WorkKeepsFacts(job, s, j, a, t);
  }

  /** Task i is handed out, fails without a report, times out, and is queued again. */
  lemma PendFailure(job: Job, s: Cluster, i: nat) returns (events: seq<Event>, t: Cluster, j: nat)
    requires NoClash(job) && Waiting(job, s, i) && (s.c.m.phase == MapPhase || job.files == [])
    ensures Comes(job, s, events, t) && Waiting(job, t, i) && t.c.m.phase == s.c.m.phase
    ensures |t.c.m.stats| == |s.c.m.stats| && t.c.m.stats[i].workerId == 0
    ensures AllQueued(s.c.m) ==> AllQueued(t.c.m)
    ensures |s.c.execs| <= j && Extends(s.c.execs, t.c.execs) && Pending(t.c, j, i)
  {
    hide Going, Play, TimelyPlay;
    var e1, u := TakeUntil(job, s, i);
    LeadsComes(job, s, e1, u);
    ComesGoing(job, s, e1, u);
    j := |u.c.execs| - 1;
    var ev, v := FailOne(job, u, j);
    FollowOn(job, s, e1, u, [ev], v);
    ComesGoing(job, u, [ev], v);
    var e2;
    e2, t := Pass(job, v);
    LeadsComes(job, v, e2, t);
    ComesGoing(job, v, e2, t);
    FollowOn(job, s, e1 + [ev], v, e2, t);
    events := e1 + [ev] + e2;
    assert v.c.m.stats[i].status != Finish;
  }

  lemma ComesGoing(job: Job, s: Cluster, events: seq<Event>, t: Cluster)
    requires Comes(job, s, events, t)
    ensures Going(job, t)
  {
  }

  ghost predicate AllQueued(m: MasterState) {
    forall k | 0 <= k < |m.stats| :: m.stats[k].status == Queue
  }

  lemma StartGoing(job: Job)
    requires NoClash(job)
    ensures Going(job, InitCluster(job))
  {
    TimelyPlayGoes(job, []);
  }

  /** A job with anything to do comes to a state in which its first tasks are all queued: its map tasks,
      or, without inputs, its reduce tasks. */
  lemma FirstTasks(job: Job) returns (events: seq<Event>, s: Cluster)
    requires NoClash(job) && (job.files != [] || job.nReduce > 0)
    ensures Comes(job, InitCluster(job), events, s) && Waiting(job, s, 0) && AllQueued(s.c.m)
    ensures |s.c.m.stats| == if job.files != [] then |job.files| else job.nReduce
    ensures s.c.m.phase == if job.files != [] then MapPhase else ReducePhase
  {
    hide Play, TimelyPlay, Inv, TokenInv;
    var init := InitCluster(job);
    StartGoing(job);
    var e1, s1 := Pass(job, init);
    LeadsComes(job, init, e1, s1);
    if job.files != [] {
      assert init.c.m.stats[0].status != Finish;
      events, s := e1, s1;
    } else {
      assert !WorkLeft(init.c.m);
      var e2;
      e2, s := Pass(job, s1);
      LeadsComes(job, s1, e2, s);
      FollowOn(job, init, e1, s1, e2, s);
      events := e1 + e2;
      assert s1.c.m.stats[0].status != Finish;
    }
  }

  // ---- a finished task that fails

  /** Some timely run ends with a step that takes task i from Finish to Err within a phase. */
  ghost predicate CanUnfinish(job: Job) {
    exists events, t, u, st, i ::
      && Play(job, InitCluster(job), events) == Some(t) && TimelyPlay(job, InitCluster(job), events)
      && React(job, t, Move(st)) == Some(u) && !Late(t.c, st)
      && 0 <= i < |t.c.m.stats| == |u.c.m.stats| && t.c.m.phase == u.c.m.phase
      && t.c.m.stats[i].status == Finish && u.c.m.stats[i].status == Err
  }

  /** Some task of the job can be carried out in its first phase. */
  ghost predicate CanFinishOne(job: Job) {
    || (exists i :: 0 <= i < |job.files| && InputOk(job, i))
    || (job.files == [] && job.nReduce > 0)
  }

  /** The task that was handed out last is carried out. */
  lemma CarryOut(job: Job, s: Cluster, k: nat) returns (events: seq<Event>, t: Cluster)
    requires NoClash(job) && Going(job, s) && k < |s.c.execs| && s.c.execs[k].pc == Start(s.c.execs[k].task)
    requires s.c.execs[k].task.phase == MapPhase ==> s.c.execs[k].task.seqNo < |job.files| && InputOk(job, s.c.execs[k].task.seqNo)
    requires s.c.execs[k].task.phase == ReducePhase ==> job.files == []
    ensures Comes(job, s, events, t) && OnlyWorked(s, k, t) && Complete(t.c.execs[k])
  {
    hide Going;
    if s.c.execs[k].task.phase == MapPhase {
      events, t := DoMap(job, s, k);
    } else {
      events, t := DoReduce(job, s, k);
    }
    LeadsComes(job, s, events, t);
  }

  /** Two workers whose registration failed share the id 0. The first one's execution of a task fails
      and is slow to say so; the task times out, the second one carries it out and its success is
      accepted; then the failure report of the first is acted on, and the finished task is to be done
      again. No report in this run is late. */
  lemma SharedIdUnfinishes(job: Job)
    requires NoClash(job) && CanFinishOne(job)
    ensures CanUnfinish(job)
  {
    hide Going, Play, TimelyPlay, Inv, TokenInv, Late, React;
    var i: nat := 0;
    if job.files != [] { i :| i < |job.files| && InputOk(job, i); }
    var init := InitCluster(job);
    var e1, s1 := FirstTasks(job);
    ComesGoing(job, init, e1, s1);
    assert Waiting(job, s1, i);
    var e2, s2, j := PendFailure(job, s1, i);
    FollowOn(job, init, e1, s1, e2, s2);
    var e3, s3 := TakeUntil(job, s2, i);
    LeadsComes(job, s2, e3, s3);
    ComesGoing(job, s2, e3, s3);
    FollowOn(job, init, e1 + e2, s2, e3, s3);
    assert s3.c.execs[j] == s2.c.execs[j];
    var k := |s3.c.execs| - 1;
    var e4, s4 := CarryOut(job, s3, k);
    ComesGoing(job, s3, e4, s4);
    FollowOn(job, init, e1 + e2 + e3, s3, e4, s4);
    SuccessThenFailure(job, e1 + e2 + e3 + e4, s4, j, k, i);
  }

  /** Execution k of task i reports success, then execution j reports failure. */
  lemma SuccessThenFailure(job: Job, events: seq<Event>, s: Cluster, j: nat, k: nat, i: nat)
    requires Comes(job, InitCluster(job), events, s) && s.c.m.scan == Idle
    requires i < |s.c.m.stats| && s.c.m.stats[i] == TaskStat(Running, 0, 0)
    requires Pending(s.c, j, i) && j != k && k < |s.c.execs| && Complete(s.c.execs[k])
    requires s.c.execs[k].worker == 0 && s.c.execs[k].task.phase == s.c.m.phase && s.c.execs[k].task.seqNo == i
    ensures CanUnfinish(job)
  {
    hide Going, Play, TimelyPlay, CanUnfinish;
    ComesGoing(job, InitCluster(job), events, s);
    var t := ReportOne(job, s, k, i);
    LeadsComes(job, s, [Move(Report(k))], t);
    ComesGoing(job, s, [Move(Report(k))], t);
    FollowOn(job, InitCluster(job), events, s, [Move(Report(k))], t);
    var u := ReportOne(job, t, j, i);
    LeadsComes(job, t, [Move(Report(j))], u);
    LastStep(job, events + [Move(Report(k))], t, Report(j), u, i);
  }

  lemma LastStep(job: Job, events: seq<Event>, t: Cluster, st: Step, u: Cluster, i: nat)
    requires Comes(job, InitCluster(job), events, t) && Comes(job, t, [Move(st)], u) && !st.Advance?
    requires i < |t.c.m.stats| == |u.c.m.stats| && t.c.m.phase == u.c.m.phase
    requires t.c.m.stats[i].status == Finish && u.c.m.stats[i].status == Err
    ensures CanUnfinish(job)
  {
    hide Going, Play, TimelyPlay, Late, React;
    PlayOneBack(job, t, Move(st), u);
  }

  lemma PlayOneBack(job: Job, s: Cluster, ev: Event, t: Cluster)
    requires Play(job, s, [ev]) == Some(t) && TimelyPlay(job, s, [ev])
    ensures React(job, s, ev) == Some(t) && !Late(s.c, StepOf(job, s, ev).value)
  {
    assert [ev][..|[ev]| - 1] == [];
  }

  /** A task that has finished was carried out. */
  lemma FinishedIsOk(job: Job, s: Cluster, i: nat)
    requires Inv(s.c) && Facts(job, s) && i < |s.c.m.stats| && s.c.m.stats[i].status == Finish
    ensures CanFinishOne(job)
  {
    if s.c.m.phase == MapPhase {
      assert AcceptedFrom(s.c.execs, MapPhase, i, s.c.m.stats[i].workerId);
      var j :| AcceptedAt(s.c.execs, j, MapPhase, i);
      assert ExecSound(job, s.fs, s.c.execs[j]);
    } else if job.files != [] {
      BehindBarrier(job, s, 0);
    }
  }

  /** A finished task can fail after all, in a run without late reports, if and only if the job has an
      input that can be read and has somewhere to go, or it has no inputs and has reduce tasks. */
  lemma UnfinishesExactlyWhenSomethingFinishes(job: Job)
    requires NoClash(job)
    ensures CanUnfinish(job) <==> CanFinishOne(job)
  {
    if CanUnfinish(job) {
      var events, t, u, st, i :|
        && Play(job, InitCluster(job), events) == Some(t) && TimelyPlay(job, InitCluster(job), events)
        && React(job, t, Move(st)) == Some(u) && !Late(t.c, st)
        && 0 <= i < |t.c.m.stats| == |u.c.m.stats| && t.c.m.phase == u.c.m.phase
        && t.c.m.stats[i].status == Finish && u.c.m.stats[i].status == Err;
      PlayInv(job, events);
      FactsRun(job, events);
      FinishedIsOk(job, t, i);
    }
    if CanFinishOne(job) { SharedIdUnfinishes(job); }
  }

  // ---- a send that blocks

  /** Many executions of the first task have failures to report. */
  lemma {:induction false} PendMany(job: Job, s: Cluster, n: nat) returns (events: seq<Event>, t: Cluster, js: seq<nat>)
    requires NoClash(job) && Waiting(job, s, 0) && AllQueued(s.c.m) && (s.c.m.phase == MapPhase || job.files == [])
    ensures Comes(job, s, events, t) && Waiting(job, t, 0) && AllQueued(t.c.m)
    ensures t.c.m.phase == s.c.m.phase && |t.c.m.stats| == |s.c.m.stats| && (n > 0 ==> t.c.m.stats[0].workerId == 0)
    ensures Extends(s.c.execs, t.c.execs)
    ensures |js| == n && PendingAll(t.c, js) && forall a | 0 <= a < n :: |s.c.execs| <= js[a]
    decreases n
  {
    hide Going, Play, TimelyPlay;
    if n == 0 {
      events, t, js := [], s, [];
      StayComes(job, s);
    } else {
      var e1, u, js';
      e1, u, js' := PendMany(job, s, n - 1);
      ComesGoing(job, s, e1, u);
      var e2, j;
      e2, t, j := PendFailure(job, u, 0);
      FollowOn(job, s, e1, u, e2, t);
      events, js := e1 + e2, js' + [j];
      forall a | 0 <= a < n - 1 ensures Pending(t.c, js[a], 0) {
        assert Pending(u.c, js'[a], 0);
        assert t.c.execs[js'[a]] == u.c.execs[js'[a]];
      }
    }
  }

  lemma StayComes(job: Job, s: Cluster)
    requires Going(job, s)
    ensures Comes(job, s, [], s)
  {
  }

  ghost predicate PendingAll(c: Control, js: seq<nat>) {
    && (forall a | 0 <= a < |js| :: Pending(c, js[a], 0))
    && (forall a, b | 0 <= a < b < |js| :: js[a] != js[b])
  }

  /** All tasks are queued, and failures of the first one are still to be reported. */
  ghost predicate Overdue(s: Cluster, js: seq<nat>) {
    && s.c.m.halt == Alive && s.c.m.scan == Idle && !s.c.m.done && InRange(s.c.m) && |s.c.m.stats| > 0
    && AllQueued(s.c.m) && s.c.m.stats[0].workerId == 0 && PendingAll(s.c, js)
  }

  /** A late failure report about the first task. */
  lemma LateFailure(job: Job, s: Cluster, js: seq<nat>) returns (t: Cluster)
    requires Overdue(s, js) && js != []
    ensures Play(job, s, [Move(Report(js[|js| - 1]))]) == Some(t)
    ensures t.c.m == s.c.m.(stats := s.c.m.stats[0 := s.c.m.stats[0].(status := Err)])
    ensures PendingAll(t.c, js[..|js| - 1])
  {
    var j := js[|js| - 1];
    assert Pending(s.c, j, 0);
    PlayOne(job, s, Move(Report(j)));
    t := s.(c := Next(s.c, Report(j)).value);
    forall a | 0 <= a < |js| - 1 ensures Pending(t.c, js[a], 0) { assert Pending(s.c, js[a], 0); }
  }

  /** The rest of a schedule call that finds every task queued. */
  lemma {:induction false} ScanQueued(job: Job, s: Cluster) returns (events: seq<Event>, t: Cluster)
    requires s.c.m.halt == Alive && s.c.m.scan.Scanning? && !s.c.m.scan.allFinish && s.c.m.scan.next <= |s.c.m.stats|
    requires AllQueued(s.c.m)
    ensures Play(job, s, events) == Some(t) && t == s.(c := s.c.(m := s.c.m.(scan := Idle)))
    decreases |s.c.m.stats| - s.c.m.scan.next
  {
    if s.c.m.scan.next == |s.c.m.stats| {
      events, t := [Move(End)], s.(c := s.c.(m := s.c.m.(scan := Idle)));
      PlayOne(job, s, Move(End));
    } else {
      var u := s.(c := s.c.(m := s.c.m.(scan := Scanning(s.c.m.scan.next + 1, false))));
      PlayOne(job, s, Move(Item(0)));
      assert Play(job, s, [Move(Item(0))]) == Some(u);
      var rest;
      rest, t := ScanQueued(job, u);
      events := [Move(Item(0))] + rest;
      PlayConcat(job, s, [Move(Item(0))], rest);
    }
  }

  /** A schedule call that sends one more token of the first task. */
  lemma SendAgain(job: Job, s: Cluster) returns (events: seq<Event>, t: Cluster)
    requires s.c.m.halt == Alive && s.c.m.scan == Idle && !s.c.m.done && InRange(s.c.m) && |s.c.m.stats| > 0
    requires s.c.m.stats[0].status == Err && forall k | 0 < k < |s.c.m.stats| :: s.c.m.stats[k].status == Queue
    requires |s.c.m.ch| < Capacity(s.c.m.files, s.c.m.nReduce)
    ensures Play(job, s, events) == Some(t) && t.c.execs == s.c.execs
    ensures t.c.m == s.c.m.(ch := s.c.m.ch + [TokenOf(s.c.m, 0)], stats := s.c.m.stats[0 := s.c.m.stats[0].(status := Queue)])
  {
    var u := s.(c := s.c.(m := ScanBegin(s.c.m)));
    PlayOne(job, s, Move(Begin));
    assert Play(job, s, [Move(Begin)]) == Some(u);
    var v := u.(c := Next(u.c, Item(0)).value);
    PlayOne(job, u, Move(Item(0)));
    assert v.c.m == Enqueue(u.c.m, 0).value;
    var rest;
    rest, t := ScanQueued(job, v);
    PlayConcat(job, s, [Move(Begin)], [Move(Item(0))]);
    PlayConcat(job, s, [Move(Begin)] + [Move(Item(0))], rest);
    events := [Move(Begin)] + [Move(Item(0))] + rest;
  }

  /** A schedule call stands before a send with no room in the channel, whatever the clock says. */
  ghost predicate Blocked(c: Control) {
    && c.m.halt == Alive && c.m.scan.Scanning? && c.m.scan.next < |c.m.stats|
    && forall now :: Next(c, Item(now)).None?
  }

  ghost predicate CanBlock(job: Job) {
    exists events :: Play(job, InitCluster(job), events).Some? && Blocked(Play(job, InitCluster(job), events).value.c)
  }

  /** Each late failure report lets schedule send one more token, until there is no room. */
  lemma {:induction false} FillUp(job: Job, s: Cluster, js: seq<nat>) returns (events: seq<Event>, t: Cluster)
    requires Overdue(s, js) && |s.c.m.ch| + |js| > Capacity(s.c.m.files, s.c.m.nReduce)
    requires |s.c.m.ch| <= Capacity(s.c.m.files, s.c.m.nReduce)
    ensures Play(job, s, events) == Some(t) && Blocked(t.c)
    decreases |js|
  {
    var late := Move(Report(js[|js| - 1]));
    var u := LateFailure(job, s, js);
    if |s.c.m.ch| == Capacity(s.c.m.files, s.c.m.nReduce) {
      t := u.(c := u.c.(m := ScanBegin(u.c.m)));
      PlayOne(job, u, Move(Begin));
      events := [late] + [Move(Begin)];
      Continue(job, s, [late], u, [Move(Begin)], t);
    } else {
      var e2, v := SendAgain(job, u);
      Continue(job, s, [late], u, e2, v);
      StillPending(u.c, v.c, js[..|js| - 1]);
      var rest;
      rest, t := FillUp(job, v, js[..|js| - 1]);
      events := [late] + e2 + rest;
      Continue(job, s, [late] + e2, v, rest, t);
    }
  }

  lemma StillPending(c: Control, d: Control, js: seq<nat>)
    requires PendingAll(c, js) && d.execs == c.execs && d.m.phase == c.m.phase
    ensures PendingAll(d, js)
  {
    forall a | 0 <= a < |js| ensures Pending(d, js[a], 0) { assert Pending(c, js[a], 0); }
  }

  lemma LateFailuresBlock(job: Job)
    requires NoClash(job) && (job.files != [] || job.nReduce > 0)
    ensures CanBlock(job)
  {
    hide Play, TimelyPlay, Blocked;
    var init := InitCluster(job);
    var e1, s1 := FirstTasks(job);
    ComesGoing(job, init, e1, s1);
    var n := Capacity(job.files, job.nReduce) + 1;
    var e2, s2, js := PendMany(job, s1, n);
    ComesGoing(job, s1, e2, s2);
    FollowOn(job, init, e1, s1, e2, s2);
    GoingFits(job, s2);
    var e3, t := FillUp(job, s2, js);
    ComesPlays(job, init, e1 + e2, s2);
    Continue(job, init, e1 + e2, s2, e3, t);
  }

  lemma ComesPlays(job: Job, s: Cluster, events: seq<Event>, t: Cluster)
    requires Comes(job, s, events, t)
    ensures Play(job, s, events) == Some(t)
  {
  }

  /** In a timely state, the channel holds no more than it can. */
  lemma GoingFits(job: Job, s: Cluster)
    requires Going(job, s)
    ensures |s.c.m.ch| <= Capacity(job.files, job.nReduce)
    ensures s.c.m.files == job.files && s.c.m.nReduce == job.nReduce
  {
    StatsFit(s.c.m);
    TokensFit(s.c, multiset{});
  }

  /** In some run a send under the lock blocks if and only if the job has any task at all. */
  lemma BlocksExactlyWhenThereAreTasks(job: Job)
    requires NoClash(job)
    ensures CanBlock(job) <==> job.files != [] || job.nReduce > 0
  {
    if CanBlock(job) {
      var events :| Play(job, InitCluster(job), events).Some? && Blocked(Play(job, InitCluster(job), events).value.c);
      PlayInv(job, events);
    }
    if job.files != [] || job.nReduce > 0 { LateFailuresBlock(job); }
  }
}
