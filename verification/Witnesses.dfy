/** Runs of the smallest job, one input and one reduce task, in which a promise fails: what the
    hypotheses of the theorems about timely and untorn runs are for. */
module Witnesses {
  import opened Types
  import opened Naming
  import opened Grouping
  import opened Jobs
  import opened MasterSpec
  import opened Protocol
  import opened ClusterSpec
  import opened Refinement
  import opened Sequential

  ghost predicate Smallest(job: Job) {
    |job.files| == 1 && job.nReduce == 1 && Readable(job, 0)
  }

  /** The run so far ends in s. */
  ghost predicate At(job: Job, events: seq<Event>, s: Cluster) {
    Play(job, InitCluster(job), events) == Some(s)
  }

  lemma Go(job: Job, events: seq<Event>, s: Cluster, ev: Event, t: Cluster)
    requires At(job, events, s) && React(job, s, ev) == Some(t)
    ensures At(job, events + [ev], t)
  {
    assert (events + [ev])[..|events + [ev]| - 1] == events;
  }

  lemma GoMove(job: Job, events: seq<Event>, s: Cluster, st: Step, c': Control) returns (events': seq<Event>, t: Cluster)
    requires At(job, events, s) && !st.Advance? && Next(s.c, st) == Some(c')
    ensures At(job, events', t) && t == s.(c := c')
  {
    t := s.(c := c');
    events' := events + [Move(st)];
    Go(job, events, s, Move(st), t);
  }

  lemma GoWork(job: Job, events: seq<Event>, s: Cluster, a: Action, r: Worked) returns (events': seq<Event>, t: Cluster)
    requires At(job, events, s) && s.c.m.halt == Alive && s.c.execs != []
    requires !Over(s.c.execs[|s.c.execs| - 1].pc) && !r.pc.Reported?
    requires Act(job, s.fs, s.torn, s.c.execs[|s.c.execs| - 1], a) == Some(r)
    ensures At(job, events', t)
    ensures var j := |s.c.execs| - 1;
      t == Cluster(s.c.(execs := s.c.execs[j := s.c.execs[j].(pc := r.pc)]), r.fs, r.torn)
  {
    var j := |s.c.execs| - 1;
    t := Cluster(s.c.(execs := s.c.execs[j := s.c.execs[j].(pc := r.pc)]), r.fs, r.torn);
    events' := events + [Work(j, a)];
    Go(job, events, s, Work(j, a), t);
  }

  /** One schedule call while the only task is not finished: it is queued if ready, failed or timed out. */
  lemma GoSchedule(job: Job, events: seq<Event>, s: Cluster, now: int) returns (events': seq<Event>, t: Cluster)
    requires Smallest(job) && At(job, events, s) && s.c.m.halt == Alive && s.c.m.scan == Idle && !s.c.m.done
    requires s.c.m.files == job.files && s.c.m.nReduce == 1 && |s.c.m.stats| == 1 && s.c.m.ch == []
    requires s.c.m.stats[0].status in {Ready, Err} || TimedOut(s.c.m.stats[0], now)
    ensures At(job, events', t)
    ensures t == s.(c := s.c.(m := s.c.m.(
                   stats := [s.c.m.stats[0].(status := Queue)],
                   ch := [TaskFor(job.files, 1, s.c.m.phase, 0)])))
  {
    var e1, s1 := GoMove(job, events, s, Begin, s.c.(m := s.c.m.(scan := Scanning(0, true))));
    var m2 := Enqueue(s1.c.m, 0).value;
    assert ScanItem(s1.c.m, now) == Some(m2);
    var e2, s2 := GoMove(job, e1, s1, Item(now), s1.c.(m := m2));
    events', t := GoMove(job, e2, s2, End, s2.c.(m := m2.(scan := Idle)));
    assert t.c.m.stats == [s.c.m.stats[0].(status := Queue)];
  }

  /** One schedule call while the only task is finished. */
  lemma GoScheduleFinished(job: Job, events: seq<Event>, s: Cluster) returns (events': seq<Event>, t: Cluster)
    requires At(job, events, s) && s.c.m.halt == Alive && s.c.m.scan == Idle && !s.c.m.done
    requires |s.c.m.stats| == 1 && s.c.m.stats[0].status == Finish
    ensures At(job, events', t)
    ensures t == s.(c := s.c.(m := ScanEnd(s.c.m.(scan := Scanning(1, true)))))
  {
    var e1, s1 := GoMove(job, events, s, Begin, s.c.(m := s.c.m.(scan := Scanning(0, true))));
    var e2, s2 := GoMove(job, e1, s1, Item(0), s1.c.(m := s1.c.m.(scan := Scanning(1, true))));
    events', t := GoMove(job, e2, s2, End, s2.c.(m := ScanEnd(s2.c.m)));
  }

  /** The only token is taken by a worker that registered under the id 0. */
  lemma GoReceive(job: Job, events: seq<Event>, s: Cluster) returns (events': seq<Event>, t: Cluster)
    requires At(job, events, s) && s.c.m.halt == Alive && |s.c.m.ch| == 1 && s.c.hands == []
    ensures At(job, events', t)
    ensures t == s.(c := Control(s.c.m.(ch := []), [Hand(0, s.c.m.ch[0])], s.c.execs))
  {
    hide At;
    var c' := Control(s.c.m.(ch := []), [Hand(0, s.c.m.ch[0])], s.c.execs);
    assert Next(s.c, Receive(0)) == Some(c') by { assert s.c.m.ch[1..] == [] && s.c.hands + c'.hands == c'.hands; }
    events', t := GoMove(job, events, s, Receive(0), c');
  }

  /** The only token in hand is registered, at time 0. */
  lemma GoRegister(job: Job, events: seq<Event>, s: Cluster) returns (events': seq<Event>, t: Cluster)
    requires At(job, events, s) && s.c.m.halt == Alive && s.c.m.scan == Idle && |s.c.hands| == 1
    ensures At(job, events', t)
    ensures var hand, m' := s.c.hands[0], RegTask(s.c.m, s.c.hands[0].worker, s.c.hands[0].task, 0);
      t == s.(c := Control(m', [], s.c.execs + if m'.halt == Alive then [Exec(hand.worker, hand.task, Start(hand.task))] else []))
  {
    hide At, RegTask, Start;
    var hand := s.c.hands[0];
    var m' := RegTask(s.c.m, hand.worker, hand.task, 0);
    var c' := Control(m', [], s.c.execs + if m'.halt == Alive then [Exec(hand.worker, hand.task, Start(hand.task))] else []);
    assert Next(s.c, Reg(0, 0)) == Some(c') by {
      assert s.c.hands[..0] + s.c.hands[1..] == [];
    }
    events', t := GoMove(job, events, s, Reg(0, 0), c');
  }

  /** The only token is taken by a worker and registered. */
  lemma GoHandOut(job: Job, events: seq<Event>, s: Cluster) returns (events': seq<Event>, t: Cluster)
    requires At(job, events, s) && s.c.m.halt == Alive && s.c.m.scan == Idle
    requires |s.c.m.stats| == 1 && |s.c.m.ch| == 1 && s.c.hands == []
    requires s.c.m.ch[0].phase == s.c.m.phase && s.c.m.ch[0].seqNo == 0
    ensures At(job, events', t)
    ensures t == s.(c := Control(s.c.m.(ch := [], stats := [TaskStat(Running, 0, 0)]), [],
                                 s.c.execs + [Exec(0, s.c.m.ch[0], Start(s.c.m.ch[0]))]))
  {
    hide At;
    var e1, s1 := GoReceive(job, events, s);
    assert s1.c.m.stats[0 := TaskStat(Running, 0, 0)] == [TaskStat(Running, 0, 0)];
    events', t := GoRegister(job, e1, s1);
  }

  /** The map task is read and written, and ready to be reported. */
  lemma GoMap(job: Job, events: seq<Event>, s: Cluster) returns (events': seq<Event>, t: Cluster)
    requires Smallest(job) && At(job, events, s) && s.c.m.halt == Alive && s.fs == job.disk
    requires |s.c.execs| == 1 && s.c.execs[0] == Exec(0, TaskFor(job.files, 1, MapPhase, 0), Assigned)
    ensures At(job, events', t)
    ensures exists piece :: t == Cluster(
        s.c.(execs := [s.c.execs[0].(pc := Mapping(MapOut(job, 0), 1))]),
        job.disk[ReduceName(0, 0) := Pairs(piece)], s.torn - {ReduceName(0, 0)})
  {
    var kvs := MapOut(job, 0);
    var piece := Bucket(job.ihash, 1, 0, kvs);
    var e1, s1 := GoWork(job, events, s, ReadInput(kvs), Worked(Mapping(kvs, 0), s.fs, s.torn));
    var r := Worked(Mapping(kvs, 1), s.fs[ReduceName(0, 0) := Pairs(piece)], s.torn - {ReduceName(0, 0)});
    events', t := GoWork(job, e1, s1, WriteBucket, r);
    assert t.c.execs == [s.c.execs[0].(pc := Mapping(kvs, 1))];
  }

  /** The state after the first map task was handed out. */
  lemma Start1(job: Job) returns (events: seq<Event>, s: Cluster)
    requires Smallest(job)
    ensures At(job, events, s)
    ensures var init := InitCluster(job); var task := TaskFor(job.files, 1, MapPhase, 0);
      s == init.(c := Control(init.c.m.(stats := [TaskStat(Running, 0, 0)]), [], [Exec(0, task, Assigned)]))
  {
    var init := InitCluster(job);
    assert At(job, [], init);
    var e1, s1 := GoSchedule(job, [], init, 0);
    events, s := GoHandOut(job, e1, s1);
  }

  /** Execution 0 reports, its report is accepted, and it goes on to pc. */
  lemma GoReport(job: Job, events: seq<Event>, s: Cluster, pc: Pc) returns (events': seq<Event>, t: Cluster)
    requires At(job, events, s) && s.c.m.halt == Alive && s.c.m.scan == Idle
    requires |s.c.m.stats| == 1 && s.c.m.stats[0].workerId == 0
    requires |s.c.execs| > 0
    requires var e := s.c.execs[|s.c.execs| - 1];
      e.worker == 0 && e.task.phase == s.c.m.phase && e.task.seqNo == 0 && Verdict(e).Some? && pc == AfterReport(s.c.m, e)
    ensures At(job, events', t)
    ensures var j := |s.c.execs| - 1; var ok := Verdict(s.c.execs[j]).value;
      t == s.(c := s.c.(m := s.c.m.(stats := [s.c.m.stats[0].(status := if ok then Finish else Err)]),
                        execs := s.c.execs[j := s.c.execs[j].(pc := pc)]))
  {
    var j := |s.c.execs| - 1;
    var ok := Verdict(s.c.execs[j]).value;
    var x := s.c.m.stats[0].(status := if ok then Finish else Err);
    assert s.c.m.stats[0 := x] == [x];
    events', t := GoMove(job, events, s, Report(j),
                         s.c.(m := s.c.m.(stats := [x]), execs := s.c.execs[j := s.c.execs[j].(pc := pc)]));
  }

  /** A token of the map phase is taken and registered in the reduce phase. */
  lemma GoPanic(job: Job, events: seq<Event>, s: Cluster) returns (events': seq<Event>, t: Cluster)
    requires At(job, events, s) && s.c.m.halt == Alive && s.c.m.scan == Idle
    requires |s.c.m.ch| == 1 && s.c.hands == [] && s.c.m.ch[0].phase != s.c.m.phase
    ensures At(job, events', t) && t.c.m.halt == PhasePanic
  {
    hide At;
    var e1, s1 := GoReceive(job, events, s);
    events', t := GoRegister(job, e1, s1);
  }

  /** Not all runs are timely. The only map task times out and is queued again; its first worker then
      reports success, the phase switches, and the token still in the channel ends the master when it
      is registered. */
  lemma LateReportCanPanic(job: Job)
    requires Smallest(job)
    ensures exists events, s :: At(job, events, s) && s.c.m.halt == PhasePanic
  {
    var e1, s1 := Start1(job);
    var e2, s2 := GoSchedule(job, e1, s1, MAX_TASK_RUN_TIME + 1);
    var e3, s3 := GoMap(job, e2, s2);
    var e4, s4 := GoReport(job, e3, s3, Reported(true, true));
    var e5, s5 := GoScheduleFinished(job, e4, s4);
    var e6, s6 := GoPanic(job, e5, s5);
  }

  // ---- a torn write

  /** The reduce task was handed out after an undisturbed map phase. */
  lemma Start2(job: Job) returns (events: seq<Event>, s: Cluster)
    requires Smallest(job)
    ensures At(job, events, s)
    ensures s.c.m == InitMaster(job.files, 1).(phase := ReducePhase, stats := [TaskStat(Running, 0, 0)])
    ensures s.c.hands == [] && |s.c.execs| == 2 && s.c.execs[1] == Exec(0, TaskFor(job.files, 1, ReducePhase, 0), Reducing(0, []))
    ensures ReduceName(0, 0) in s.fs && s.fs.Keys == job.disk.Keys + {ReduceName(0, 0)}
  {
    var e1, s1 := Start1(job);
    var e2, s2 := GoMap(job, e1, s1);
    var e3, s3 := GoReport(job, e2, s2, Reported(true, true));
    var e4, s4 := GoScheduleFinished(job, e3, s3);
    assert s4.c.m.stats == FreshStats(1);
    var e5, s5 := GoSchedule(job, e4, s4, 0);
    events, s := GoHandOut(job, e5, s5);
  }

  /** The write of the output file fails: the worker reports failure and then, all the same, success. */
  lemma GoTornOutput(job: Job, events: seq<Event>, s: Cluster) returns (events': seq<Event>, t: Cluster)
    requires Smallest(job) && At(job, events, s)
    requires s.c.m.halt == Alive && s.c.m.scan == Idle && s.c.m.phase == ReducePhase
    requires |s.c.m.stats| == 1 && s.c.m.stats[0].workerId == 0
    requires |s.c.execs| == 2 && s.c.execs[1] == Exec(0, TaskFor(job.files, 1, ReducePhase, 0), Reducing(0, []))
    requires ReduceName(0, 0) in s.fs
    ensures At(job, events', t) && t.fs == s.fs
    ensures t.c.m == s.c.m.(stats := [s.c.m.stats[0].(status := Finish)])
  {
    var read := [] + PairsIn(s.fs[ReduceName(0, 0)]);
    var e1, s1 := GoWork(job, events, s, ReadBucket, Worked(Reducing(1, read), s.fs, s.torn));
    var e2, s2 := GoWork(job, e1, s1, TornWrite(None, FailedWrite), Worked(TornOutput, s.fs, s.torn + {MergeName(0)}));
    var e3, s3 := GoReport(job, e2, s2, Written);
    events', t := GoReport(job, e3, s3, Reported(true, true));
  }

  /** Not all finished runs are right. A worker whose output could not be written still reports
      success; the job is done although its only output file does not exist, and the sequential
      program does write lines. */
  lemma TornWriteCanLoseOutput(job: Job)
    requires Smallest(job) && MergeName(0) !in job.disk && MapOut(job, 0) != []
    ensures exists events, s :: At(job, events, s) && s.c.m.done && MergeName(0) !in s.fs
              && forall lines :: SequentialOutput(job, lines) ==> OutputLines(s.fs, 1) != multiset(lines)
  {
    var e1, s1 := Start2(job);
    var e2, s2 := GoTornOutput(job, e1, s1);
    var e3, s3 := GoScheduleFinished(job, e2, s2);
    NamesNeverCollide(0, 0, 0, 0);
    assert MergeName(0) !in s3.fs;
    forall lines | SequentialOutput(job, lines) ensures OutputLines(s3.fs, 1) != multiset(lines) {
      SequentialWrites(job, lines);
      assert OutputLines(s3.fs, 1) == multiset{};
    }
  }

  lemma SequentialWrites(job: Job, lines: seq<Line>)
    requires Smallest(job) && MapOut(job, 0) != [] && SequentialOutput(job, lines)
    ensures lines != []
  {
    var kvs :| multiset(kvs) == multiset(Emitted(job, 1)) && OneLinePerKey(job.reducef, kvs, lines);
    var outs := Outputs(job, 1);
    assert outs[..0] == [] && Concat(outs) == Concat(outs[..0]) + outs[0];
    assert Emitted(job, 1) == MapOut(job, 0);
    var kv := MapOut(job, 0)[0];
    assert kv in MapOut(job, 0) && kv in multiset(kvs) && kv in kvs;
    var n := LineOfKey(job.reducef, kvs, lines, kv.key);
  }
}
