/** What the disk keeps through every run, whatever is torn or late: inputs stay as they are, and what
    an execution has read and written is there. */
module DiskFacts {
  import opened Types
  import opened Naming
  import opened Jobs
  import opened MasterSpec
  import opened Protocol
  import opened Effects
  import opened Invariants
  import opened ClusterSpec

  /** Map tasks map and reduce tasks reduce. */
  predicate KindFits(e: Exec) {
    && (e.pc.Assigned? || e.pc.Mapping? || e.pc.TornPiece? ==> e.task.phase == MapPhase)
    && (e.pc.Reducing? || e.pc.Written? || e.pc.TornOutput? ==> e.task.phase == ReducePhase)
  }

  /** The input was read, and the first intermediate files are there, right or torn. */
  ghost predicate Backed(job: Job, fs: map<string, Content>, i: nat, next: nat)
    requires i < |job.files|
  {
    InputOk(job, i) && next <= job.nReduce && forall r: nat | r < next :: ReduceName(i, r) in fs
  }

  ghost predicate ExecSound(job: Job, fs: map<string, Content>, e: Exec) {
    && KindFits(e)
    && (e.task.phase == MapPhase ==>
        && e.task.seqNo < |job.files|
        && (e.pc.Mapping? || e.pc.TornPiece? ==> Backed(job, fs, e.task.seqNo, e.pc.next))
        && (e.pc.Reported? && e.pc.ok ==> Backed(job, fs, e.task.seqNo, job.nReduce)))
  }

  ghost predicate InputsKept(job: Job, fs: map<string, Content>) {
    forall f | f in job.files :: (f in fs <==> f in job.disk) && (f in fs ==> fs[f] == job.disk[f])
  }

  ghost predicate Facts(job: Job, s: Cluster) {
    && s.c.m.files == job.files && s.c.m.nReduce == job.nReduce
    && InputsKept(job, s.fs)
    && forall j | 0 <= j < |s.c.execs| :: ExecSound(job, s.fs, s.c.execs[j])
  }

  /** Executions write generated files only, and remove none. */
  lemma ActKeepsInputs(job: Job, s: Cluster, e: Exec, a: Action)
    requires NoClash(job) && Facts(job, s)
    requires TaskOk(s.c.m, e.task) && KindFits(e)
    requires Act(job, s.fs, s.torn, e, a).Some?
    ensures InputsKept(job, Act(job, s.fs, s.torn, e, a).value.fs)
    ensures s.fs.Keys <= Act(job, s.fs, s.torn, e, a).value.fs.Keys
  {
    assert Target(e).Some? ==> Target(e).value !in job.files;
  }

  lemma ActKeepsSound(job: Job, s: Cluster, e: Exec, a: Action)
    requires Facts(job, s) && TaskOk(s.c.m, e.task) && ExecSound(job, s.fs, e)
    requires Act(job, s.fs, s.torn, e, a).Some?
    ensures var r := Act(job, s.fs, s.torn, e, a).value; ExecSound(job, r.fs, e.(pc := r.pc))
  {
    hide PairsIn, CouldLeave, ReduceName, MergeName;
    if a.ReadInput? { assert e.task.fileName in job.files; }
  }

  lemma SoundStays(job: Job, fs: map<string, Content>, fs': map<string, Content>, e: Exec)
    requires ExecSound(job, fs, e) && fs.Keys <= fs'.Keys
    ensures ExecSound(job, fs', e)
  {
    hide InputOk;
  }

  /** A report or a hand-out leaves an execution sound. */
  lemma MovedIsSound(job: Job, s: Cluster, e: Exec)
    requires Facts(job, s) && TaskOk(s.c.m, e.task)
    ensures ExecSound(job, s.fs, e) && Verdict(e).Some? ==> ExecSound(job, s.fs, e.(pc := AfterReport(s.c.m, e)))
    ensures e.pc == Start(e.task) ==> ExecSound(job, s.fs, e)
  {
    hide InputOk;
  }

  lemma WorkKeepsFacts(job: Job, s: Cluster, j: nat, a: Action, s': Cluster)
    requires Inv(s.c) && Facts(job, s) && NoClash(job)
    requires React(job, s, Work(j, a)) == Some(s')
    ensures Facts(job, s')
  {
    hide ExecSound, Act, NoClash, TaskOk, TokensOk, QueuedHasToken, Provenance, Barrier;
    var e := s.c.execs[j];
    assert ExecSound(job, s.fs, e) && TaskOk(s.c.m, e.task);
    SoundFits(job, s.fs, e);
    ActKeepsInputs(job, s, e, a);
    ActKeepsSound(job, s, e, a);
    forall k | 0 <= k < |s'.c.execs| ensures ExecSound(job, s'.fs, s'.c.execs[k]) {
      if k != j {
        assert ExecSound(job, s.fs, s.c.execs[k]);
        SoundStays(job, s.fs, s'.fs, s.c.execs[k]);
      }
    }
  }

  lemma SoundFits(job: Job, fs: map<string, Content>, e: Exec)
    requires ExecSound(job, fs, e)
    ensures KindFits(e)
  {
  }

  lemma MoveKeepsFacts(job: Job, s: Cluster, st: Step, s': Cluster)
    requires Inv(s.c) && Facts(job, s)
    requires React(job, s, Move(st)) == Some(s')
    ensures Facts(job, s')
  {
    hide ExecSound, TaskOk, QueuedHasToken, Provenance, FinishAccepted, Barrier, Tokens, AfterReport, Verdict, Start, Accepts;
    StepChanges(s.c, st, s'.c);
    var e := EffectOf(s.c, st);
    forall k | 0 <= k < |s'.c.execs| ensures ExecSound(job, s'.fs, s'.c.execs[k]) {
      if k < |s.c.execs| {
        assert ExecSound(job, s.fs, s.c.execs[k]) && TaskOk(s.c.m, s.c.execs[k].task);
        MovedIsSound(job, s, s.c.execs[k]);
      } else {
        HandIsToken(s.c, e.h);
        assert TaskOk(s.c.m, s.c.hands[e.h].task);
        MovedIsSound(job, s, s'.c.execs[k]);
      }
    }
  }

  lemma FactsStep(job: Job, s: Cluster, ev: Event, s': Cluster)
    requires Inv(s.c) && Facts(job, s) && NoClash(job)
    requires React(job, s, ev) == Some(s')
    ensures Facts(job, s')
  {
    match ev
    case Move(st) => MoveKeepsFacts(job, s, st, s');
    case Work(j, a) => WorkKeepsFacts(job, s, j, a, s');
  }

  lemma {:induction false} FactsRun(job: Job, events: seq<Event>)
    requires NoClash(job) && Play(job, InitCluster(job), events).Some?
    ensures Facts(job, Play(job, InitCluster(job), events).value)
  {
    if events != [] {
      var front := events[..|events| - 1];
      FactsRun(job, front);
      PlayInv(job, front);
      FactsStep(job, Play(job, InitCluster(job), front).value, events[|events| - 1], Play(job, InitCluster(job), events).value);
    }
  }

  // ---- behind the phase barrier

  /** Once reducing has begun, every input was read and every intermediate file is there. */
  lemma BehindBarrier(job: Job, s: Cluster, i: nat)
    requires Inv(s.c) && Facts(job, s) && s.c.m.phase == ReducePhase && i < |job.files|
    ensures Backed(job, s.fs, i, job.nReduce)
  {
    assert Accepted(s.c.execs, MapPhase, i);
    var j :| AcceptedAt(s.c.execs, j, MapPhase, i);
    assert ExecSound(job, s.fs, s.c.execs[j]);
  }
}
