/** Exactly which jobs can finish with the wrong output when a write of an output file goes wrong: those
    that have something to write, or that find lines of an earlier job in an output file. */
module TornOutputs {
  import opened Types
  import opened Naming
  import opened Grouping
  import opened Jobs
  import opened MasterSpec
  import opened Protocol
  import opened Effects
  import opened Invariants
  import opened TimelyRuns
  import opened ClusterSpec
  import opened DiskFacts
  import opened DiskInvariants
  import opened Progress
  import opened Refinement

  // ---- one output file decides

  /** Output file k holds other lines than file r, whatever is written to file r. */
  lemma OtherFile(fs: map<string, Content>, r: nat, lines: seq<Line>, k: nat)
    ensures LinesAt(fs[MergeName(r) := Lines(lines)], MergeName(k)) == if k == r then lines else LinesAt(fs, MergeName(k))
  {
    if k != r && MergeName(k) == MergeName(r) { MergeNameInjective(k, r); }
  }

  lemma {:induction false} OtherOutput(fs: map<string, Content>, r: nat, lines: seq<Line>, n: nat)
    requires n <= r
    ensures OutputLines(fs[MergeName(r) := Lines(lines)], n) == OutputLines(fs, n)
  {
    hide LinesAt, MergeName;
    if n > 0 {
      OtherOutput(fs, r, lines, n - 1);
      OtherFile(fs, r, lines, n - 1);
    }
  }

  lemma AddLast(a: multiset<Line>, b: multiset<Line>, c: multiset<Line>)
    ensures (a + b) + c == (a + c) + b
  {
  }

  /** The lines of output file r are part of all output lines. */
  lemma {:induction false} OneOutput(fs: map<string, Content>, r: nat, lines: seq<Line>, n: nat)
    requires r < n
    ensures OutputLines(fs[MergeName(r) := Lines(lines)], n) == OutputLines(fs[MergeName(r) := Lines([])], n) + multiset(lines)
  {
    hide LinesAt, MergeName;
    OtherFile(fs, r, lines, n - 1);
    OtherFile(fs, r, [], n - 1);
    if r == n - 1 {
      OtherOutput(fs, r, lines, r);
      OtherOutput(fs, r, [], r);
    } else {
      OneOutput(fs, r, lines, n - 1);
      AddLast(OutputLines(fs[MergeName(r) := Lines([])], n - 1), multiset(lines), multiset(LinesAt(fs, MergeName(n - 1))));
    }
  }

  // ---- a run up to the last write

  /** The last reduce task, r, is about to write its output, for the first time. */
  ghost predicate LastWrite(job: Job, s: Cluster, j: nat, r: nat) {
    && Going(job, s) && s.c.m.scan == Idle && s.c.m.phase == ReducePhase && !s.c.m.done
    && r < |s.c.m.stats| && r < job.nReduce && s.c.m.stats[r].status == Running
    && (forall k | 0 <= k < |s.c.m.stats| && k != r :: s.c.m.stats[k].status == Finish)
    && OnlyExec(s.c, r, j)
    && var e := s.c.execs[j];
    && e.worker == s.c.m.stats[r].workerId
    && e.pc.Reducing? && e.pc.next == e.task.nMaps
  }

  /** Reduce task r has not been handed out. */
  ghost predicate NoExec(c: Control, r: nat) {
    forall k | 0 <= k < |c.execs| :: !(c.execs[k].task.phase == ReducePhase && c.execs[k].task.seqNo == r)
  }

  /** Execution j is the only one of reduce task r. */
  ghost predicate OnlyExec(c: Control, r: nat, j: nat) {
    && j < |c.execs| && c.execs[j].task.phase == ReducePhase && c.execs[j].task.seqNo == r
    && forall k | 0 <= k < |c.execs| && k != j :: !(c.execs[k].task.phase == ReducePhase && c.execs[k].task.seqNo == r)
  }

  /** Tasks are finished one after the other until the token of task r comes first. */
  lemma {:induction false} DrainToTask(job: Job, s: Cluster, r: nat) returns (events: seq<Event>, t: Cluster)
    requires Feasible(job) && Going(job, s) && s.c.m.scan == Idle && s.c.hands == []
    requires s.c.m.phase == ReducePhase && !s.c.m.done && NoExec(s.c, r)
    requires r < |s.c.m.stats| && s.c.m.stats[r].status == Queue
    requires forall i | 0 <= i < |s.c.m.stats| :: Open(s.c.m.stats[i])
    ensures Leads(job, s, events, t) && t.c.m.scan == Idle && t.c.hands == []
    ensures t.c.m.phase == ReducePhase && !t.c.m.done && NoExec(t.c, r)
    ensures forall i | 0 <= i < |t.c.m.stats| :: Open(t.c.m.stats[i])
    ensures t.c.m.ch != [] && t.c.m.ch[0].seqNo == r
    decreases |s.c.m.ch|
  {
    QueuedIsInChannel(s.c, r);
    if s.c.m.ch[0].seqNo == r {
      Stay(job, s);
      events, t := [], s;
    } else {
      hide Going, Feasible;
      var first, u, k := DrainOne(job, s);
      LeadsGoing(job, s, first, u);
      OneExecMore(s.c, u.c, r);
      var rest;
      rest, t := DrainToTask(job, u, r);
      events := first + rest;
      Follow(job, s, first, u, rest, t);
    }
  }

  lemma OneExecMore(c: Control, d: Control, r: nat)
    requires d.execs != [] && d.execs[..|d.execs| - 1] == c.execs && d.execs[|c.execs|].task.seqNo != r
    ensures NoExec(c, r) ==> NoExec(d, r)
    ensures forall j: nat | OnlyExec(c, r, j) :: OnlyExec(d, r, j) && d.execs[j] == c.execs[j]
  {
    forall k: nat | k < |c.execs| ensures d.execs[k] == c.execs[k] { assert d.execs[..|d.execs| - 1][k] == c.execs[k]; }
  }

  /** While a task is running, no token of it is in the channel. */
  lemma RunningHasNoToken(c: Control, r: nat)
    requires Inv(c) && TokenInv(c) && c.m.ch != [] && r < |c.m.stats| && c.m.stats[r].status != Queue
    ensures c.m.ch[0].seqNo != r
  {
    assert Tokens(c)[c.m.ch[0]] == Due(c.m, c.m.ch[0]);
    assert c.m.ch[0] in multiset(c.m.ch);
  }

  /** All tasks but the running one are finished. */
  lemma {:induction false} DrainOthers(job: Job, s: Cluster, r: nat, j: nat) returns (events: seq<Event>, t: Cluster)
    requires Feasible(job) && Going(job, s) && s.c.m.scan == Idle && s.c.hands == []
    requires s.c.m.phase == ReducePhase && !s.c.m.done && OnlyExec(s.c, r, j)
    requires r < |s.c.m.stats| && s.c.m.stats[r].status == Running
    requires forall i | 0 <= i < |s.c.m.stats| && i != r :: Open(s.c.m.stats[i])
    ensures Leads(job, s, events, t) && t.c.m.scan == Idle && t.c.hands == []
    ensures t.c.m.phase == ReducePhase && !t.c.m.done && OnlyExec(t.c, r, j) && t.c.execs[j] == s.c.execs[j]
    ensures |t.c.m.stats| == |s.c.m.stats| && t.c.m.stats[r] == s.c.m.stats[r]
    ensures forall i | 0 <= i < |t.c.m.stats| && i != r :: t.c.m.stats[i].status == Finish
    decreases |s.c.m.ch|
  {
    if s.c.m.ch == [] {
      Stay(job, s);
      events, t := [], s;
      forall i | 0 <= i < |s.c.m.stats| && i != r ensures s.c.m.stats[i].status == Finish {
        if s.c.m.stats[i].status == Queue { QueuedIsInChannel(s.c, i); }
      }
    } else {
      RunningHasNoToken(s.c, r);
      hide Going, Feasible;
      var first, u, k := DrainOne(job, s);
      LeadsGoing(job, s, first, u);
      OneExecMore(s.c, u.c, r);
      var rest;
      rest, t := DrainOthers(job, u, r, j);
      events := first + rest;
      Follow(job, s, first, u, rest, t);
    }
  }

  lemma StartGoing(job: Job)
    requires Feasible(job)
    ensures Going(job, InitCluster(job))
  {
    TimelyPlayGoes(job, []);
  }

  lemma GoingSizes(job: Job, s: Cluster)
    requires Going(job, s)
    ensures s.c.m.phase == ReducePhase ==> |s.c.m.stats| == job.nReduce
  {
  }

  /** The reduce phase has begun, and all its tasks are queued. */
  lemma ToReduce(job: Job) returns (events: seq<Event>, t: Cluster)
    requires Feasible(job) && job.nReduce > 0
    ensures Leads(job, InitCluster(job), events, t) && t.c.m.scan == Idle && t.c.hands == []
    ensures t.c.m.phase == ReducePhase && !t.c.m.done && |t.c.m.stats| == job.nReduce
    ensures forall i | 0 <= i < |t.c.m.stats| :: t.c.m.stats[i].status == Queue
    ensures forall k | 0 <= k < |t.c.execs| :: t.c.execs[k].task.phase == MapPhase
  {
    hide Play, TimelyPlay, Inv, TokenInv, Facts, Feasible;
    var init := InitCluster(job);
    StartGoing(job);
    var e1, s1 := FinishPhase(job, init);
    GoingSizes(job, s1);
    var e2;
    e2, t := Pass(job, s1);
    assert s1.c.m.stats[0].status != Finish;
    Follow(job, init, e1, s1, e2, t);
    events := e1 + e2;
  }

  /** Any reduce task can be the last to write. */
  lemma ToLastWrite(job: Job, r: nat) returns (events: seq<Event>, s: Cluster, j: nat)
    requires Feasible(job) && r < job.nReduce
    ensures Leads(job, InitCluster(job), events, s) && LastWrite(job, s, j, r)
  {
    hide Play, TimelyPlay, Inv, TokenInv, Facts, Feasible;
    var init := InitCluster(job);
    var e1, s1 := ToReduce(job);
    LeadsGoing(job, init, e1, s1);
    var e2, s2 := DrainToTask(job, s1, r);
    Follow(job, init, e1, s1, e2, s2);
    LeadsGoing(job, s1, e2, s2);
    var e3, s3 := TakeFirst(job, s2, 0);
    Follow(job, init, e1 + e2, s2, e3, s3);
    LeadsGoing(job, s2, e3, s3);
    j := |s2.c.execs|;
    var e4, s4 := DrainOthers(job, s3, r, j);
    Follow(job, init, e1 + e2 + e3, s3, e4, s4);
    LeadsGoing(job, s3, e4, s4);
    var e5;
    e5, s := ReadAll(job, s4, j);
    Follow(job, init, e1 + e2 + e3 + e4, s4, e5, s);
    LeadsGoing(job, s4, e5, s);
    GoingSizes(job, s);
    events := e1 + e2 + e3 + e4 + e5;
  }

  // ---- what the last write may leave

  /** The output write of execution j leaves these contents: none if it does not reach the file. */
  ghost predicate CanLeave(job: Job, s: Cluster, j: nat, content: Option<Content>)
    requires j < |s.c.execs|
  {
    content.Some? ==> CouldLeave(job, s.c.execs[j], content.value)
  }

  function WithOutput(fs: map<string, Content>, r: nat, content: Option<Content>): map<string, Content> {
    if content.Some? then fs[MergeName(r) := content.value] else fs
  }

  /** The write fails. */
  lemma FailWrite(job: Job, s: Cluster, j: nat, r: nat, content: Option<Content>) returns (ev: Event, t: Cluster)
    requires NoClash(job) && LastWrite(job, s, j, r) && CanLeave(job, s, j, content)
    ensures Play(job, s, [ev]) == Some(t) && Going(job, t)
    ensures t.c == s.c.(execs := s.c.execs[j := s.c.execs[j].(pc := TornOutput)])
    ensures t.fs == WithOutput(s.fs, r, content)
  {
    var a := TornWrite(content, FailedWrite);
    var st := Advance(j, TornOutput);
    t := Cluster(s.c.(execs := s.c.execs[j := s.c.execs[j].(pc := TornOutput)]),
                 WithOutput(s.fs, r, content), s.torn + {MergeName(r)});
    ev := Work(j, a);
    assert Act(job, s.fs, s.torn, s.c.execs[j], a) == Some(Worked(TornOutput, t.fs, t.torn));
    assert Next(s.c, st) == Some(t.c);
    PlayOne(job, s, ev);
    InvStep(s.c, st, t.c);
    TokenInvStep(s.c, st, t.c);
    WorkKeepsFacts(job, s, j, a, t);
  }

  /** The worker reports failure, then success, and the job is done. */
  lemma FinishTorn(job: Job, s: Cluster, j: nat, r: nat, content: Option<Content>) returns (events: seq<Event>, t: Cluster)
    requires NoClash(job) && LastWrite(job, s, j, r) && CanLeave(job, s, j, content)
    ensures Play(job, s, events) == Some(t) && t.c.m.done && t.fs == WithOutput(s.fs, r, content)
  {
    var ev, a := FailWrite(job, s, j, r, content);
    hide Going;
    var b := ReportOne(job, a, j, r);
    LeadsGoing(job, a, [Move(Report(j))], b);
    var c := ReportOne(job, b, j, r);
    LeadsGoing(job, b, [Move(Report(j))], c);
    var rest;
    rest, t := Pass(job, c);
    assert !WorkLeft(c.c.m);
    PlayConcat(job, s, [ev], [Move(Report(j))]);
    PlayConcat(job, s, [ev] + [Move(Report(j))], [Move(Report(j))]);
    PlayConcat(job, s, [ev] + [Move(Report(j))] + [Move(Report(j))], rest);
    events := [ev] + [Move(Report(j))] + [Move(Report(j))] + rest;
  }

  /** The write is whole, the worker reports success, and the job is done. */
  lemma FinishWhole(job: Job, s: Cluster, j: nat, r: nat, lines: seq<Line>) returns (events: seq<Event>, t: Cluster)
    requires NoClash(job) && LastWrite(job, s, j, r)
    requires multiset(lines) == multiset(Reduced(job.reducef, s.c.execs[j].pc.read).Items)
    ensures Play(job, s, events) == Some(t) && t.c.m.done && t.fs == s.fs[MergeName(r) := Lines(lines)]
  {
    var a := WriteOutput(lines);
    WorkOne(job, s, j, a);
    var w := Act(job, s.fs, s.torn, s.c.execs[j], a).value;
    var u := Cluster(s.c.(execs := s.c.execs[j := s.c.execs[j].(pc := w.pc)]), w.fs, w.torn);
    LeadsGoing(job, s, [Work(j, a)], u);
    hide Going;
    var v := ReportOne(job, u, j, r);
    LeadsGoing(job, u, [Move(Report(j))], v);
    var rest;
    rest, t := Pass(job, v);
    assert !WorkLeft(v.c.m);
    PlayConcat(job, s, [Work(j, a)], [Move(Report(j))]);
    PlayConcat(job, s, [Work(j, a)] + [Move(Report(j))], rest);
    events := [Work(j, a)] + [Move(Report(j))] + rest;
  }

  // ---- what is there to be lost

  /** Until reduce task r writes, its output file is as it was before the job. */
  lemma {:induction false} UnwrittenOutput(job: Job, events: seq<Event>, r: nat)
    requires NoClash(job) && Play(job, InitCluster(job), events).Some? && WholeWrites(events)
    ensures var s := Play(job, InitCluster(job), events).value;
      NoneWritten(s.c, r) ==> LinesAt(s.fs, MergeName(r)) == LinesAt(job.disk, MergeName(r))
  {
    if events != [] {
      var front, ev := events[..|events| - 1], events[|events| - 1];
      assert ev in events;
      UnwrittenOutput(job, front, r);
      PlayInv(job, front);
      FactsRun(job, front);
      var s, t := Play(job, InitCluster(job), front).value, Play(job, InitCluster(job), events).value;
      if NoneWritten(t.c, r) { WroteOther(job, s, ev, t, r); }
    }
  }

  /** Every execution of reduce task r is still reading. */
  ghost predicate NoneWritten(c: Control, r: nat) {
    forall k | 0 <= k < |c.execs| && c.execs[k].task.phase == ReducePhase && c.execs[k].task.seqNo == r :: c.execs[k].pc.Reducing?
  }

  lemma WroteOther(job: Job, s: Cluster, ev: Event, t: Cluster, r: nat)
    requires Inv(s.c) && Facts(job, s) && React(job, s, ev) == Some(t) && WholeWrites([ev]) && NoneWritten(t.c, r)
    ensures NoneWritten(s.c, r)
    ensures LinesAt(t.fs, MergeName(r)) == LinesAt(s.fs, MergeName(r))
  {
    assert ev in [ev];
    match ev
    case Move(st) => MovedOthers(s.c, st, t.c, r);
    case Work(j, a) => WorkedOther(job, s, j, a, t, r);
  }

  lemma MovedOthers(c: Control, st: Step, d: Control, r: nat)
    requires Inv(c) && Next(c, st) == Some(d) && !st.Advance? && NoneWritten(d, r)
    ensures NoneWritten(c, r)
  {
    hide Tokens, QueuedHasToken, Provenance, FinishAccepted, Barrier;
    StepChanges(c, st, d);
    forall k | 0 <= k < |c.execs| && c.execs[k].task.phase == ReducePhase && c.execs[k].task.seqNo == r
      ensures c.execs[k].pc.Reducing?
    {
      assert d.execs[k].task == c.execs[k].task && d.execs[k].pc.Reducing?;
    }
  }

  lemma WorkedOther(job: Job, s: Cluster, j: nat, a: Action, t: Cluster, r: nat)
    requires Inv(s.c) && Facts(job, s) && React(job, s, Work(j, a)) == Some(t) && !a.TornWrite? && NoneWritten(t.c, r)
    ensures NoneWritten(s.c, r)
    ensures LinesAt(t.fs, MergeName(r)) == LinesAt(s.fs, MergeName(r))
  {
    hide InputsKept, TokensOk, QueuedHasToken, Provenance, FinishAccepted, Barrier;
    var e := s.c.execs[j];
    assert ExecSound(job, s.fs, e);
    assert t.c.execs[j].task == e.task;
    forall k | 0 <= k < |s.c.execs| && s.c.execs[k].task.phase == ReducePhase && s.c.execs[k].task.seqNo == r
      ensures s.c.execs[k].pc.Reducing?
    {
      assert t.c.execs[k].task == s.c.execs[k].task && t.c.execs[k].pc.Reducing?;
    }
    if a.WriteBucket? {
      NamesDisjoint(e.task.seqNo, e.pc.next, r);
    } else if a.WriteOutput? {
      if MergeName(e.task.seqNo) == MergeName(r) { MergeNameInjective(e.task.seqNo, r); }
    }
  }

  /** An execution that has read all files of an undisturbed job has the task's whole share. */
  lemma HasItsShare(job: Job, events: seq<Event>, s: Cluster, j: nat, r: nat)
    requires NoClash(job) && Play(job, InitCluster(job), events) == Some(s) && WholeWrites(events)
    requires LastWrite(job, s, j, r)
    ensures multiset(s.c.execs[j].pc.read) == multiset(Share(job, |job.files|, r))
  {
    WholeWritesAreClean(job, InitCluster(job), events);
    DiskRun(job, events);
    assert ExecFine(job, s.fs, s.torn, s.c.execs[j]);
    assert TaskOk(s.c.m, s.c.execs[j].task);
  }

  /** A pair that was emitted gives its reduce task a line to write. */
  lemma SomethingToWrite(job: Job, kv: KeyValue, r: nat, read: seq<KeyValue>)
    requires job.nReduce > 0 && kv in Emitted(job, |job.files|) && r == job.ihash(kv.key) % job.nReduce
    requires multiset(read) == multiset(Share(job, |job.files|, r))
    ensures Reduced(job.reducef, read) != map[]
  {
    BucketCount(job.ihash, job.nReduce, r, kv, Emitted(job, |job.files|));
    assert kv in multiset(read) && kv in read;
    assert kv.key in Reduced(job.reducef, read);
  }

  // ---- the two halves

  /** Some run of the job reaches done with output lines other than the reduction of what was emitted. */
  ghost predicate CanBeWrong(job: Job) {
    exists events ::
      && Play(job, InitCluster(job), events).Some?
      && var s := Play(job, InitCluster(job), events).value;
      && s.c.m.done && OutputLines(s.fs, job.nReduce) != RightLines(job)
  }

  function RightLines(job: Job): multiset<Line> {
    multiset(Reduced(job.reducef, Emitted(job, |job.files|)).Items)
  }

  /** Two ways to finish with different lines cannot both be right. */
  lemma OneIsWrong(job: Job, e: seq<Event>, s: Cluster, a: seq<Event>, t: Cluster, b: seq<Event>, u: Cluster)
    requires Play(job, InitCluster(job), e) == Some(s)
    requires Play(job, s, a) == Some(t) && t.c.m.done && Play(job, s, b) == Some(u) && u.c.m.done
    requires OutputLines(t.fs, job.nReduce) != OutputLines(u.fs, job.nReduce)
    ensures CanBeWrong(job)
  {
    hide OutputLines, React;
    PlayConcat(job, InitCluster(job), e, a);
    PlayConcat(job, InitCluster(job), e, b);
    if OutputLines(t.fs, job.nReduce) != RightLines(job) {
      assert Play(job, InitCluster(job), e + a).Some?;
    } else {
      assert Play(job, InitCluster(job), e + b).Some?;
    }
  }

  lemma LinesDiffer(fs: map<string, Content>, r: nat, lines: seq<Line>, n: nat)
    requires r < n && lines != []
    ensures OutputLines(fs[MergeName(r) := Lines(lines)], n) != OutputLines(fs[MergeName(r) := Lines([])], n)
  {
    OneOutput(fs, r, lines, n);
    var rest := OutputLines(fs[MergeName(r) := Lines([])], n);
    assert lines[0] in multiset(lines);
    assert (rest + multiset(lines))[lines[0]] > rest[lines[0]];
  }

  /** The write of a reduce task that has lines to write leaves an empty file, or is whole. */
  lemma EmittedCanBeLost(job: Job)
    requires Feasible(job) && job.nReduce > 0 && Emitted(job, |job.files|) != []
    ensures CanBeWrong(job)
  {
    var kv := Emitted(job, |job.files|)[0];
    var r := job.ihash(kv.key) % job.nReduce;
    var e, s, j := ToLastWrite(job, r);
    hide Going, OutputLines, Share, Emitted, LastWrite;
    ReadAndAlive(job, e, s, j, r);
    SomethingToWrite(job, kv, r, s.c.execs[j].pc.read);
    var lines := Enumerate(Reduced(job.reducef, s.c.execs[j].pc.read).Items);
    LineForKey(Reduced(job.reducef, s.c.execs[j].pc.read), lines);
    var a, t := FinishWhole(job, s, j, r, lines);
    var b, u := FinishTorn(job, s, j, r, Some(Lines([])));
    LinesDiffer(s.fs, r, lines, job.nReduce);
    OneIsWrong(job, e, s, a, t, b, u);
  }

  lemma LineForKey(m: map<string, string>, lines: seq<Line>)
    requires m != map[] && multiset(lines) == multiset(m.Items)
    ensures lines != []
  {
    var k :| k in m;
    assert (k, m[k]) in m.Items;
    assert (k, m[k]) in multiset(lines);
  }

  lemma ReadAndAlive(job: Job, e: seq<Event>, s: Cluster, j: nat, r: nat)
    requires Feasible(job) && Leads(job, InitCluster(job), e, s) && LastWrite(job, s, j, r)
    ensures NoClash(job) && Play(job, InitCluster(job), e) == Some(s)
    ensures j < |s.c.execs| && s.c.execs[j].pc.Reducing?
    ensures multiset(s.c.execs[j].pc.read) == multiset(Share(job, |job.files|, r))
    ensures LinesAt(s.fs, MergeName(r)) == LinesAt(job.disk, MergeName(r))
    ensures CanLeave(job, s, j, None) && CanLeave(job, s, j, Some(Lines([])))
  {
    HasItsShare(job, e, s, j, r);
    UnwrittenOutput(job, e, r);
  }

  /** The write does not reach an output file with lines of an earlier job, or leaves it empty. */
  lemma StaleCanStay(job: Job, r: nat)
    requires Feasible(job) && r < job.nReduce && LinesAt(job.disk, MergeName(r)) != []
    ensures CanBeWrong(job)
  {
    var e, s, j := ToLastWrite(job, r);
    hide Going, OutputLines, Share, Emitted, LastWrite;
    ReadAndAlive(job, e, s, j, r);
    var stale := LinesAt(s.fs, MergeName(r));
    var a, t := FinishTorn(job, s, j, r, None);
    var b, u := FinishTorn(job, s, j, r, Some(Lines([])));
    assert s.fs[MergeName(r) := Lines(stale)] == s.fs;
    LinesDiffer(s.fs, r, stale, job.nReduce);
    OneIsWrong(job, e, s, a, t, b, u);
  }

  // ---- with nothing to write there is nothing to spoil

  function PairsAt(fs: map<string, Content>, name: string): seq<KeyValue> {
    if name in fs then PairsIn(fs[name]) else []
  }

  /** The first intermediate files of map task i hold nothing. */
  ghost predicate EmptyPieces(fs: map<string, Content>, i: nat, n: nat) {
    forall r: nat | r < n :: PairsAt(fs, ReduceName(i, r)) == []
  }

  ghost predicate Silent(job: Job, fs: map<string, Content>, e: Exec) {
    && (e.task.phase == MapPhase && (e.pc.Mapping? || e.pc.TornPiece?) ==> e.pc.kvs == [] && EmptyPieces(fs, e.task.seqNo, e.pc.next))
    && (e.task.phase == MapPhase && e.pc.Reported? && e.pc.ok ==> EmptyPieces(fs, e.task.seqNo, job.nReduce))
    && (e.pc.Reducing? ==> e.pc.read == [])
  }

  ghost predicate EmitsNothing(job: Job) {
    forall i | 0 <= i < |job.files| :: MapOut(job, i) == []
  }

  /** No output file holds a line, and no execution has anything to write. */
  ghost predicate AllSilent(job: Job, s: Cluster) {
    && (forall j | 0 <= j < |s.c.execs| :: Silent(job, s.fs, s.c.execs[j]))
    && forall r: nat | r < job.nReduce :: LinesAt(s.fs, MergeName(r)) == []
  }

  /** Files gain neither pairs nor lines. */
  ghost predicate NoGain(fs: map<string, Content>, fs': map<string, Content>) {
    forall f :: (PairsAt(fs, f) == [] ==> PairsAt(fs', f) == []) && (LinesAt(fs, f) == [] ==> LinesAt(fs', f) == [])
  }

  lemma SilentStays(job: Job, fs: map<string, Content>, fs': map<string, Content>, e: Exec)
    requires Silent(job, fs, e) && NoGain(fs, fs')
    ensures Silent(job, fs', e)
  {
  }

  /** Behind the phase barrier, every intermediate file is empty. */
  lemma ReadsNothing(job: Job, s: Cluster, e: Exec, i: nat)
    requires Inv(s.c) && Facts(job, s) && AllSilent(job, s)
    requires e in s.c.execs && e.task.phase == ReducePhase && i < |job.files|
    ensures EmptyPieces(s.fs, i, job.nReduce)
  {
    var k :| 0 <= k < |s.c.execs| && s.c.execs[k] == e;
    assert TaskOk(s.c.m, s.c.execs[k].task);
    assert Accepted(s.c.execs, MapPhase, i);
    var j :| AcceptedAt(s.c.execs, j, MapPhase, i);
    assert Silent(job, s.fs, s.c.execs[j]);
  }

  /** Writing an empty file gains nothing. */
  lemma EmptyFile(fs: map<string, Content>, name: string, content: Content)
    requires content == Pairs([]) || content == Lines([])
    ensures NoGain(fs, fs[name := content]) && PairsAt(fs[name := content], name) == []
  {
  }

  /** A write of an intermediate file, whole or not, has nothing to write. */
  lemma SilentPiece(job: Job, s: Cluster, e: Exec, a: Action)
    requires Silent(job, s.fs, e) && e.task.phase == MapPhase && e.pc.Mapping?
    requires a.WriteBucket? || a.TornWrite?
    requires Act(job, s.fs, s.torn, e, a).Some?
    ensures var w := Act(job, s.fs, s.torn, e, a).value; NoGain(s.fs, w.fs) && Silent(job, w.fs, e.(pc := w.pc))
  {
    hide NoGain, PairsAt, ReduceName;
    var w := Act(job, s.fs, s.torn, e, a).value;
    var name := ReduceName(e.task.seqNo, e.pc.next);
    EmptyFile(s.fs, name, Pairs([]));
    assert w.fs == s.fs[name := Pairs([])];
    SilentStays(job, s.fs, w.fs, e);
  }

  lemma SilentOutput(job: Job, s: Cluster, e: Exec, a: Action)
    requires Silent(job, s.fs, e) && e.task.phase == ReducePhase && e.pc.Reducing?
    requires a.WriteOutput? || a.TornWrite?
    requires Act(job, s.fs, s.torn, e, a).Some?
    ensures var w := Act(job, s.fs, s.torn, e, a).value; NoGain(s.fs, w.fs) && Silent(job, w.fs, e.(pc := w.pc))
  {
    hide NoGain, PairsAt, Reduced;
    var w := Act(job, s.fs, s.torn, e, a).value;
    if a.WriteOutput? { NoLines(job.reducef, a.lines); }
    EmptyFile(s.fs, MergeName(e.task.seqNo), Lines([]));
    SameFiles(s.fs);
    assert w.fs == s.fs || w.fs == s.fs[MergeName(e.task.seqNo) := Lines([])];
  }

  lemma SameFiles(fs: map<string, Content>)
    ensures NoGain(fs, fs)
  {
  }

  lemma SilentRead(job: Job, s: Cluster, e: Exec)
    requires Inv(s.c) && Facts(job, s) && AllSilent(job, s)
    requires e in s.c.execs && TaskOk(s.c.m, e.task) && Silent(job, s.fs, e) && e.task.phase == ReducePhase
    requires Act(job, s.fs, s.torn, e, ReadBucket).Some?
    ensures var w := Act(job, s.fs, s.torn, e, ReadBucket).value; w.fs == s.fs && Silent(job, w.fs, e.(pc := w.pc))
  {
    hide Inv, InputsKept, ExecSound, NoGain;
    ReadsNothing(job, s, e, e.pc.next);
    assert PairsAt(s.fs, ReduceName(e.pc.next, e.task.seqNo)) == [];
  }

  lemma ActStaysSilent(job: Job, s: Cluster, e: Exec, a: Action)
    requires Inv(s.c) && Facts(job, s) && AllSilent(job, s) && EmitsNothing(job)
    requires e in s.c.execs && TaskOk(s.c.m, e.task) && ExecSound(job, s.fs, e) && Silent(job, s.fs, e)
    requires Act(job, s.fs, s.torn, e, a).Some?
    ensures var w := Act(job, s.fs, s.torn, e, a).value; NoGain(s.fs, w.fs) && Silent(job, w.fs, e.(pc := w.pc))
  {
    hide Inv, InputsKept, NoGain, EmitsNothing, EmptyPieces;
    SameFiles(s.fs);
    match a
    case ReadInput(kvs) => SilentInput(job, s, e, kvs);
    case ReadBucket => SilentRead(job, s, e);
    case WriteBucket => SilentPiece(job, s, e, a);
    case WriteOutput(lines) => SilentOutput(job, s, e, a);
    case TornWrite(_, _) => if e.pc.Mapping? { SilentPiece(job, s, e, a); } else { SilentOutput(job, s, e, a); }
    case Fail =>
    case Crash =>
  }

  lemma SilentInput(job: Job, s: Cluster, e: Exec, kvs: seq<KeyValue>)
    requires Facts(job, s) && EmitsNothing(job) && TaskOk(s.c.m, e.task) && ExecSound(job, s.fs, e)
    requires Act(job, s.fs, s.torn, e, ReadInput(kvs)).Some?
    ensures var w := Act(job, s.fs, s.torn, e, ReadInput(kvs)).value; w.fs == s.fs && Silent(job, w.fs, e.(pc := w.pc))
  {
    assert e.task.fileName in job.files;
    assert MapOut(job, e.task.seqNo) == [];
    assert |multiset(kvs)| == |kvs|;
  }

  lemma NoLines(reducef: (string, seq<string>) -> string, lines: seq<Line>)
    requires multiset(lines) == multiset(Reduced(reducef, []).Items)
    ensures lines == []
  {
    assert Reduced(reducef, []) == map[];
    assert |lines| == |multiset(lines)|;
  }

  lemma WorkStaysSilent(job: Job, s: Cluster, j: nat, a: Action, t: Cluster)
    requires Inv(s.c) && Facts(job, s) && AllSilent(job, s) && EmitsNothing(job)
    requires React(job, s, Work(j, a)) == Some(t)
    ensures AllSilent(job, t)
  {
    hide Silent, NoGain, ExecSound, Act, TaskOk, TokensOk, QueuedHasToken, Provenance, Barrier, InputsKept;
    var e := s.c.execs[j];
    assert Silent(job, s.fs, e) && ExecSound(job, s.fs, e) && TaskOk(s.c.m, e.task);
    ActStaysSilent(job, s, e, a);
    forall k | 0 <= k < |t.c.execs| ensures Silent(job, t.fs, t.c.execs[k]) {
      if k != j {
        assert Silent(job, s.fs, s.c.execs[k]);
        SilentStays(job, s.fs, t.fs, s.c.execs[k]);
      }
    }
    forall r: nat | r < job.nReduce ensures LinesAt(t.fs, MergeName(r)) == [] { NoGainAt(s.fs, t.fs, MergeName(r)); }
  }

  lemma NoGainAt(fs: map<string, Content>, fs': map<string, Content>, f: string)
    requires NoGain(fs, fs') && LinesAt(fs, f) == []
    ensures LinesAt(fs', f) == []
  {
  }

  lemma MovedIsSilent(job: Job, s: Cluster, e: Exec)
    requires Facts(job, s) && TaskOk(s.c.m, e.task)
    ensures ExecSound(job, s.fs, e) && Silent(job, s.fs, e) && Verdict(e).Some? ==> Silent(job, s.fs, e.(pc := AfterReport(s.c.m, e)))
    ensures e.pc == Start(e.task) ==> Silent(job, s.fs, e)
  {
    hide EmptyPieces, InputsKept;
  }

  lemma MoveStaysSilent(job: Job, s: Cluster, st: Step, t: Cluster)
    requires Inv(s.c) && Facts(job, s) && AllSilent(job, s)
    requires React(job, s, Move(st)) == Some(t)
    ensures AllSilent(job, t)
  {
    hide Silent, ExecSound, TaskOk, QueuedHasToken, Provenance, FinishAccepted, Barrier, Tokens, AfterReport, Verdict, Start, Accepts, InputsKept;
    StepChanges(s.c, st, t.c);
    var e := EffectOf(s.c, st);
    forall k | 0 <= k < |t.c.execs| ensures Silent(job, t.fs, t.c.execs[k]) {
      if k < |s.c.execs| {
        assert Silent(job, s.fs, s.c.execs[k]) && ExecSound(job, s.fs, s.c.execs[k]) && TaskOk(s.c.m, s.c.execs[k].task);
        MovedIsSilent(job, s, s.c.execs[k]);
      } else {
        HandIsToken(s.c, e.h);
        assert TaskOk(s.c.m, s.c.hands[e.h].task);
        MovedIsSilent(job, s, t.c.execs[k]);
      }
    }
  }

  lemma {:induction false} SilentRun(job: Job, events: seq<Event>)
    requires NoClash(job) && EmitsNothing(job) && Play(job, InitCluster(job), events).Some?
    requires forall r: nat | r < job.nReduce :: LinesAt(job.disk, MergeName(r)) == []
    ensures AllSilent(job, Play(job, InitCluster(job), events).value)
  {
    if events != [] {
      var front, ev := events[..|events| - 1], events[|events| - 1];
      SilentRun(job, front);
      PlayInv(job, front);
      FactsRun(job, front);
      var s, t := Play(job, InitCluster(job), front).value, Play(job, InitCluster(job), events).value;
      match ev
      case Move(st) => MoveStaysSilent(job, s, st, t);
      case Work(j, a) => WorkStaysSilent(job, s, j, a, t);
    }
  }

  lemma {:induction false} NoOutputLines(fs: map<string, Content>, n: nat)
    requires forall r: nat | r < n :: LinesAt(fs, MergeName(r)) == []
    ensures OutputLines(fs, n) == multiset{}
  {
    hide LinesAt;
    if n > 0 { NoOutputLines(fs, n - 1); }
  }

  lemma {:induction false} EmittedHasOutputs(job: Job, i: nat, n: nat)
    requires i < n <= |job.files| && Emitted(job, n) == []
    ensures MapOut(job, i) == []
  {
    assert Outputs(job, n)[..n - 1] == Outputs(job, n - 1);
    if i < n - 1 { EmittedHasOutputs(job, i, n - 1); }
  }

  /** When nothing is emitted and no output file has lines of an earlier job, every finished run is right. */
  lemma NothingToSpoil(job: Job, events: seq<Event>)
    requires NoClash(job) && Play(job, InitCluster(job), events).Some?
    requires Emitted(job, |job.files|) == [] && forall r: nat | r < job.nReduce :: LinesAt(job.disk, MergeName(r)) == []
    ensures OutputLines(Play(job, InitCluster(job), events).value.fs, job.nReduce) == RightLines(job)
  {
    forall i | 0 <= i < |job.files| ensures MapOut(job, i) == [] { EmittedHasOutputs(job, i, |job.files|); }
    SilentRun(job, events);
    NoOutputLines(Play(job, InitCluster(job), events).value.fs, job.nReduce);
    assert Reduced(job.reducef, []) == map[];
  }

  /** Some write that goes wrong can spoil the output of exactly the jobs that can finish, have a reduce
      task, and either emit something or find lines in an output file before they begin. */
  lemma WrongExactlyWhenThereIsSomethingToSpoil(job: Job)
    requires NoClash(job)
    ensures CanBeWrong(job) <==>
      && job.nReduce > 0
      && (forall i | 0 <= i < |job.files| :: InputOk(job, i))
      && (Emitted(job, |job.files|) != [] || exists r: nat :: r < job.nReduce && LinesAt(job.disk, MergeName(r)) != [])
  {
    if CanBeWrong(job) {
      var events :| && Play(job, InitCluster(job), events).Some?
                    && Play(job, InitCluster(job), events).value.c.m.done
                    && OutputLines(Play(job, InitCluster(job), events).value.fs, job.nReduce) != RightLines(job);
      var s := Play(job, InitCluster(job), events).value;
      PlayInv(job, events);
      FactsRun(job, events);
      forall i | 0 <= i < |job.files| ensures InputOk(job, i) { BehindBarrier(job, s, i); }
      if job.nReduce == 0 { NoBucketNoPair(job); }
      if Emitted(job, |job.files|) == [] && forall r: nat | r < job.nReduce :: LinesAt(job.disk, MergeName(r)) == [] {
        NothingToSpoil(job, events);
      }
    }
    if job.nReduce > 0 && forall i | 0 <= i < |job.files| :: InputOk(job, i) {
      if Emitted(job, |job.files|) != [] { EmittedCanBeLost(job); }
      if r: nat :| r < job.nReduce && LinesAt(job.disk, MergeName(r)) != [] { StaleCanStay(job, r); }
    }
  }

  /** With no reduce tasks, inputs that can be mapped emit nothing. */
  lemma NoBucketNoPair(job: Job)
    requires job.nReduce == 0 && forall i | 0 <= i < |job.files| :: InputOk(job, i)
    ensures Emitted(job, |job.files|) == []
  {
    forall i | 0 <= i < |job.files| ensures MapOut(job, i) == [] { assert InputOk(job, i); }
    NothingEmitted(job, |job.files|);
  }
}
