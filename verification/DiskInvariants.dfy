/** What the disk holds during a run: an execution's progress says which files are right or torn. */
module DiskInvariants {
  import opened Types
  import opened Naming
  import opened Grouping
  import opened Jobs
  import opened MasterSpec
  import opened Protocol
  import opened Effects
  import opened Invariants
  import opened ClusterSpec
  import opened DiskFacts

  // ---- what the files should hold

  /** The pairs of reduce task r among what the first n inputs emit. */
  function Share(job: Job, n: nat, r: nat): seq<KeyValue>
    requires n <= |job.files|
  {
    Bucket(job.ihash, job.nReduce, r, Emitted(job, n))
  }

  lemma ShareGrows(job: Job, n: nat, r: nat)
    requires n < |job.files|
    ensures Share(job, n + 1, r) == Share(job, n, r) + Bucket(job.ihash, job.nReduce, r, MapOut(job, n))
  {
    assert Outputs(job, n + 1)[..n] == Outputs(job, n);
    BucketConcat(job.ihash, job.nReduce, r, Emitted(job, n), MapOut(job, n));
  }

  /** Intermediate file (i, r) holds the pairs of input i for reduce task r, in some order. */
  predicate PieceOk(job: Job, fs: map<string, Content>, i: nat, r: nat)
    requires i < |job.files|
  {
    && ReduceName(i, r) in fs && fs[ReduceName(i, r)].Pairs?
    && multiset(fs[ReduceName(i, r)].kvs) == multiset(Bucket(job.ihash, job.nReduce, r, MapOut(job, i)))
  }

  /** Output file r holds one line for each key of reduce task r, made from its pairs in some order. */
  ghost predicate OutOk(job: Job, fs: map<string, Content>, r: nat) {
    exists read :: MadeFrom(job, fs, r, read) && multiset(read) == multiset(Share(job, |job.files|, r))
  }

  /** Output file r holds the reduction of these pairs, its lines in some order. */
  predicate MadeFrom(job: Job, fs: map<string, Content>, r: nat, read: seq<KeyValue>) {
    && MergeName(r) in fs && fs[MergeName(r)].Lines?
    && multiset(fs[MergeName(r)].lines) == multiset(Reduced(job.reducef, read).Items)
  }

  /** A file is safe if it is right, or if it is known to be torn. */
  ghost predicate PieceSafe(job: Job, fs: map<string, Content>, torn: set<string>, i: nat, r: nat)
    requires i < |job.files|
  {
    ReduceName(i, r) in torn || PieceOk(job, fs, i, r)
  }

  ghost predicate OutSafe(job: Job, fs: map<string, Content>, torn: set<string>, r: nat) {
    MergeName(r) in torn || OutOk(job, fs, r)
  }

  // ---- what an execution's progress says

  ghost predicate MapFine(job: Job, fs: map<string, Content>, torn: set<string>, e: Exec)
    requires e.task.seqNo < |job.files|
  {
    match e.pc
    case Assigned => true
    case Mapping(kvs, next) => MapGotTo(job, fs, torn, e, kvs, next)
    case TornPiece(kvs, next) => MapGotTo(job, fs, torn, e, kvs, next)
    case Reported(ok, _) =>
      ok ==> forall r: nat | r < job.nReduce :: PieceSafe(job, fs, torn, e.task.seqNo, r)
    case _ => e.pc.Failed? || e.pc.Lost?
  }

  /** The execution has read its input and dealt with the first files. */
  ghost predicate MapGotTo(job: Job, fs: map<string, Content>, torn: set<string>, e: Exec, kvs: seq<KeyValue>, next: nat)
    requires e.task.seqNo < |job.files|
  {
    && multiset(kvs) == multiset(MapOut(job, e.task.seqNo))
    && next <= job.nReduce && forall r: nat | r < next :: PieceSafe(job, fs, torn, e.task.seqNo, r)
  }

  ghost predicate ReduceFine(job: Job, fs: map<string, Content>, torn: set<string>, e: Exec) {
    match e.pc
    case Reducing(next, read) =>
      next <= |job.files| && multiset(read) == multiset(Share(job, next, e.task.seqNo))
    case Written => OutSafe(job, fs, torn, e.task.seqNo)
    case TornOutput => OutSafe(job, fs, torn, e.task.seqNo)
    case Reported(ok, _) => ok ==> OutSafe(job, fs, torn, e.task.seqNo)
    case _ => e.pc.Failed? || e.pc.Lost?
  }

  ghost predicate ExecFine(job: Job, fs: map<string, Content>, torn: set<string>, e: Exec) {
    if e.task.phase == MapPhase then e.task.seqNo < |job.files| && MapFine(job, fs, torn, e)
    else ReduceFine(job, fs, torn, e)
  }

  ghost predicate DiskInv(job: Job, s: Cluster) {
    && Facts(job, s)
    && forall j | 0 <= j < |s.c.execs| :: ExecFine(job, s.fs, s.torn, s.c.execs[j])
  }

  // ---- safe files stay safe

  ghost predicate FilesStay(job: Job, fs: map<string, Content>, torn: set<string>, fs': map<string, Content>, torn': set<string>) {
    && (forall i, r: nat | 0 <= i < |job.files| && PieceSafe(job, fs, torn, i, r) :: PieceSafe(job, fs', torn', i, r))
    && (forall r | OutSafe(job, fs, torn, r) :: OutSafe(job, fs', torn', r))
  }

  lemma FineStays(job: Job, fs: map<string, Content>, torn: set<string>, fs': map<string, Content>, torn': set<string>, e: Exec)
    requires ExecFine(job, fs, torn, e) && FilesStay(job, fs, torn, fs', torn')
    ensures ExecFine(job, fs', torn', e)
  {
    hide PieceSafe, OutSafe;
  }

  /** Only the file of this name is written. */
  ghost predicate OnlyWrites(fs: map<string, Content>, torn: set<string>, name: string, fs': map<string, Content>, torn': set<string>) {
    && (forall f | f != name :: (f in fs' <==> f in fs) && (f in fs ==> fs'[f] == fs[f]))
    && (forall f | f != name :: f in torn' <==> f in torn)
  }

  lemma OutUntouched(job: Job, fs: map<string, Content>, torn: set<string>, name: string, fs': map<string, Content>, torn': set<string>, r: nat)
    requires OnlyWrites(fs, torn, name, fs', torn') && MergeName(r) != name && OutSafe(job, fs, torn, r)
    ensures OutSafe(job, fs', torn', r)
  {
    hide Share, Reduced;
    if MergeName(r) !in torn {
      var read :| MadeFrom(job, fs, r, read) && multiset(read) == multiset(Share(job, |job.files|, r));
      assert MadeFrom(job, fs', r, read);
    }
  }

  /** Writing an intermediate file right, or tearing it, leaves every safe file safe. */
  lemma PieceWritten(job: Job, fs: map<string, Content>, torn: set<string>, i: nat, r: nat, fs': map<string, Content>, torn': set<string>)
    requires i < |job.files| && OnlyWrites(fs, torn, ReduceName(i, r), fs', torn') && PieceSafe(job, fs', torn', i, r)
    ensures FilesStay(job, fs, torn, fs', torn')
  {
    forall i', r': nat | 0 <= i' < |job.files| && PieceSafe(job, fs, torn, i', r') ensures PieceSafe(job, fs', torn', i', r') {
      NamesNeverCollide(i, r, i', r');
    }
    forall r': nat | OutSafe(job, fs, torn, r') ensures OutSafe(job, fs', torn', r') {
      NamesDisjoint(i, r, r');
      OutUntouched(job, fs, torn, ReduceName(i, r), fs', torn', r');
    }
  }

  /** The same for an output file. */
  lemma OutWritten(job: Job, fs: map<string, Content>, torn: set<string>, r: nat, fs': map<string, Content>, torn': set<string>)
    requires OnlyWrites(fs, torn, MergeName(r), fs', torn') && OutSafe(job, fs', torn', r)
    ensures FilesStay(job, fs, torn, fs', torn')
  {
    forall i', r': nat | 0 <= i' < |job.files| && PieceSafe(job, fs, torn, i', r') ensures PieceSafe(job, fs', torn', i', r') {
      NamesDisjoint(i', r', r);
    }
    forall r': nat | OutSafe(job, fs, torn, r') ensures OutSafe(job, fs', torn', r') {
      if MergeName(r) == MergeName(r') {
        MergeNameInjective(r, r');
      } else {
        OutUntouched(job, fs, torn, MergeName(r), fs', torn', r');
      }
    }
  }

  // ---- one action

  /** While an execution reads intermediate file i, that file is safe: the phase barrier put it there. */
  lemma PieceBehindBarrier(job: Job, s: Cluster, e: Exec, i: nat)
    requires Inv(s.c) && DiskInv(job, s)
    requires e in s.c.execs && e.task.phase == ReducePhase && i < |job.files|
    ensures forall r: nat | r < job.nReduce :: PieceSafe(job, s.fs, s.torn, i, r)
  {
    var k :| 0 <= k < |s.c.execs| && s.c.execs[k] == e;
    assert TaskOk(s.c.m, s.c.execs[k].task);
    assert Accepted(s.c.execs, MapPhase, i);
    var j :| AcceptedAt(s.c.execs, j, MapPhase, i);
    assert ExecFine(job, s.fs, s.torn, s.c.execs[j]);
  }

  ghost predicate OnCourse(job: Job, s: Cluster, e: Exec, a: Action)
    requires Act(job, s.fs, s.torn, e, a).Some?
  {
    var r := Act(job, s.fs, s.torn, e, a).value;
    FilesStay(job, s.fs, s.torn, r.fs, r.torn) && ExecFine(job, r.fs, r.torn, e.(pc := r.pc))
  }

  lemma ReadInputFine(job: Job, s: Cluster, e: Exec, kvs: seq<KeyValue>)
    requires DiskInv(job, s) && TaskOk(s.c.m, e.task) && ExecFine(job, s.fs, s.torn, e)
    requires Act(job, s.fs, s.torn, e, ReadInput(kvs)).Some?
    ensures OnCourse(job, s, e, ReadInput(kvs))
  {
    assert e.task.fileName in job.files;
  }

  /** One more intermediate file was dealt with. */
  lemma MapGetsOn(job: Job, s: Cluster, e: Exec, fs': map<string, Content>, torn': set<string>)
    requires Facts(job, s) && TaskOk(s.c.m, e.task)
    requires e.task.phase == MapPhase && e.pc.Mapping? && e.pc.next < job.nReduce
    requires ExecFine(job, s.fs, s.torn, e)
    requires OnlyWrites(s.fs, s.torn, ReduceName(e.task.seqNo, e.pc.next), fs', torn')
    requires PieceSafe(job, fs', torn', e.task.seqNo, e.pc.next)
    ensures FilesStay(job, s.fs, s.torn, fs', torn')
    ensures MapGotTo(job, fs', torn', e, e.pc.kvs, e.pc.next) && MapGotTo(job, fs', torn', e, e.pc.kvs, e.pc.next + 1)
  {
    PieceWritten(job, s.fs, s.torn, e.task.seqNo, e.pc.next, fs', torn');
    hide PieceSafe, OutSafe, OnlyWrites;
    FineStays(job, s.fs, s.torn, fs', torn', e);
  }

  lemma WriteBucketFine(job: Job, s: Cluster, e: Exec)
    requires DiskInv(job, s) && TaskOk(s.c.m, e.task) && ExecFine(job, s.fs, s.torn, e)
    requires Act(job, s.fs, s.torn, e, WriteBucket).Some?
    ensures OnCourse(job, s, e, WriteBucket)
  {
    hide Bucket, MapOut, InputsKept, ExecSound, FilesStay;
    var r := Act(job, s.fs, s.torn, e, WriteBucket).value;
    BucketPermute(job.ihash, job.nReduce, e.pc.next, e.pc.kvs, MapOut(job, e.task.seqNo));
    MapGetsOn(job, s, e, r.fs, r.torn);
  }

  lemma ReadBucketFine(job: Job, s: Cluster, e: Exec)
    requires Inv(s.c) && DiskInv(job, s)
    requires e in s.c.execs && TaskOk(s.c.m, e.task) && ExecFine(job, s.fs, s.torn, e)
    requires Act(job, s.fs, s.torn, e, ReadBucket).Some? && ReduceName(e.pc.next, e.task.seqNo) !in s.torn
    ensures OnCourse(job, s, e, ReadBucket)
  {
    hide Bucket, Share, MapOut, InputsKept, ExecSound, Inv;
    PieceBehindBarrier(job, s, e, e.pc.next);
    ShareGrows(job, e.pc.next, e.task.seqNo);
    assert PieceSafe(job, s.fs, s.torn, e.pc.next, e.task.seqNo);
  }

  lemma WriteOutputFine(job: Job, s: Cluster, e: Exec, lines: seq<Line>)
    requires DiskInv(job, s)
    requires TaskOk(s.c.m, e.task) && ExecFine(job, s.fs, s.torn, e)
    requires Act(job, s.fs, s.torn, e, WriteOutput(lines)).Some?
    ensures OnCourse(job, s, e, WriteOutput(lines))
  {
    hide Reduced, Share, InputsKept, ExecSound, FilesStay;
    var r := Act(job, s.fs, s.torn, e, WriteOutput(lines)).value;
    assert MadeFrom(job, r.fs, e.task.seqNo, e.pc.read);
    OutWritten(job, s.fs, s.torn, e.task.seqNo, r.fs, r.torn);
  }

  /** A write that goes wrong makes its file torn, and no other file less safe. */
  lemma TornWriteFine(job: Job, s: Cluster, e: Exec, content: Option<Content>, tear: Tear)
    requires DiskInv(job, s) && TaskOk(s.c.m, e.task) && ExecFine(job, s.fs, s.torn, e)
    requires Act(job, s.fs, s.torn, e, TornWrite(content, tear)).Some?
    ensures OnCourse(job, s, e, TornWrite(content, tear))
  {
    hide Bucket, MapOut, InputsKept, ExecSound, FilesStay, PieceOk, OutOk;
    var r := Act(job, s.fs, s.torn, e, TornWrite(content, tear)).value;
    if e.pc.Mapping? {
      MapGetsOn(job, s, e, r.fs, r.torn);
    } else {
      OutWritten(job, s.fs, s.torn, e.task.seqNo, r.fs, r.torn);
    }
  }

  /** No action makes a safe file unsafe, and its execution stays on course unless it reads a torn file. */
  lemma ActKeepsFine(job: Job, s: Cluster, e: Exec, a: Action)
    requires Inv(s.c) && DiskInv(job, s)
    requires e in s.c.execs && TaskOk(s.c.m, e.task) && ExecFine(job, s.fs, s.torn, e)
    requires Act(job, s.fs, s.torn, e, a).Some?
    requires a.ReadBucket? ==> ReduceName(e.pc.next, e.task.seqNo) !in s.torn
    ensures OnCourse(job, s, e, a)
  {
    match a
    case ReadInput(kvs) => ReadInputFine(job, s, e, kvs);
    case WriteBucket => WriteBucketFine(job, s, e);
    case ReadBucket => ReadBucketFine(job, s, e);
    case WriteOutput(lines) => WriteOutputFine(job, s, e, lines);
    case TornWrite(content, tear) => TornWriteFine(job, s, e, content, tear);
    case Fail =>
    case Crash =>
  }

  // ---- one event

  lemma ReadsWhileReducing(job: Job, s: Cluster, e: Exec, a: Action)
    requires Act(job, s.fs, s.torn, e, a).Some?
    ensures a.ReadBucket? ==> e.pc.Reducing?
  {
  }

  lemma WorkKeepsDisk(job: Job, s: Cluster, j: nat, a: Action, s': Cluster)
    requires Inv(s.c) && DiskInv(job, s) && NoClash(job)
    requires React(job, s, Work(j, a)) == Some(s') && !ReadsTorn(s, Work(j, a))
    ensures DiskInv(job, s')
  {
    hide Facts, ExecFine, Act, NoClash, FilesStay, TaskOk, TokensOk, QueuedHasToken, Provenance, Barrier;
    var e := s.c.execs[j];
    assert ExecFine(job, s.fs, s.torn, e) && TaskOk(s.c.m, e.task);
    WorkKeepsFacts(job, s, j, a, s');
    assert a.ReadBucket? ==> e.pc.Reducing? by { ReadsWhileReducing(job, s, e, a); }
    ActKeepsFine(job, s, e, a);
    forall k | 0 <= k < |s'.c.execs| ensures ExecFine(job, s'.fs, s'.torn, s'.c.execs[k]) {
      if k != j {
        assert ExecFine(job, s.fs, s.torn, s.c.execs[k]);
        FineStays(job, s.fs, s.torn, s'.fs, s'.torn, s.c.execs[k]);
      }
    }
  }

  /** An execution whose report is handled stays on course, and one just handed out is on course. */
  lemma ReportedFine(job: Job, s: Cluster, e: Exec)
    requires ExecFine(job, s.fs, s.torn, e) && TaskOk(s.c.m, e.task) && Verdict(e).Some?
    requires Facts(job, s)
    ensures ExecFine(job, s.fs, s.torn, e.(pc := AfterReport(s.c.m, e)))
  {
    hide PieceSafe, OutSafe;
  }

  lemma HandedFine(job: Job, s: Cluster, e: Exec)
    requires e.pc == Start(e.task) && TaskOk(s.c.m, e.task)
    requires Facts(job, s)
    ensures ExecFine(job, s.fs, s.torn, e)
  {
  }

  lemma MoveKeepsDisk(job: Job, s: Cluster, st: Step, s': Cluster)
    requires Inv(s.c) && DiskInv(job, s)
    requires React(job, s, Move(st)) == Some(s')
    ensures DiskInv(job, s')
  {
    hide Facts, ExecFine, TaskOk, QueuedHasToken, Provenance, FinishAccepted, Barrier, Tokens, AfterReport, Verdict, Start, Accepts;
    MoveKeepsFacts(job, s, st, s');
    StepChanges(s.c, st, s'.c);
    var e := EffectOf(s.c, st);
    forall k | 0 <= k < |s'.c.execs| ensures ExecFine(job, s'.fs, s'.torn, s'.c.execs[k]) {
      if k < |s.c.execs| {
        assert ExecFine(job, s.fs, s.torn, s.c.execs[k]) && TaskOk(s.c.m, s.c.execs[k].task);
        if s'.c.execs[k] != s.c.execs[k] { ReportedFine(job, s, s.c.execs[k]); }
      } else {
        HandIsToken(s.c, e.h);
        assert TaskOk(s.c.m, s.c.hands[e.h].task);
        HandedFine(job, s, s'.c.execs[k]);
      }
    }
  }

  lemma {:induction false} DiskRun(job: Job, events: seq<Event>)
    requires NoClash(job)
    requires Play(job, InitCluster(job), events).Some? && CleanPlay(job, InitCluster(job), events)
    ensures DiskInv(job, Play(job, InitCluster(job), events).value)
  {
    if events != [] {
      var front, ev := events[..|events| - 1], events[|events| - 1];
      DiskRun(job, front);
      PlayInv(job, front);
      var s, s' := Play(job, InitCluster(job), front).value, Play(job, InitCluster(job), events).value;
      match ev
      case Move(st) => MoveKeepsDisk(job, s, st, s');
      case Work(j, a) => WorkKeepsDisk(job, s, j, a, s');
    }
  }
}
