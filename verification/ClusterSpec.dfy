/** The protocol together with the disk: what executions read and write, in which order, and how a
    write can go wrong. */
module ClusterSpec {
  import opened Types
  import opened Naming
  import opened Grouping
  import opened Jobs
  import opened MasterSpec
  import opened Protocol
  import opened Invariants
  import opened TimelyRuns

  /** How a write can go wrong: it is cut short, or seen in the middle; an error is reported before
      the file is finished with; an error is reported after it; or there is no error, but another
      write of the same file came in between. */
  datatype Tear = Unfinished | Failing | FailedWrite | Overlapped

  /** What an execution can do on the disk. */
  datatype Action =
    | ReadInput(kvs: seq<KeyValue>)                        // reads the input and emits pairs
    | WriteBucket                                          // writes the next intermediate file
    | ReadBucket                                           // reads the next intermediate file
    | WriteOutput(lines: seq<Line>)                        // writes the output file
    | Fail                                                 // an open, read or create error
    | TornWrite(content: Option<Content>, tear: Tear)      // leaves content in the file, or does not reach it
    | Crash

  /** torn holds the names of the files whose last write was not a whole one. */
  datatype Cluster = Cluster(c: Control, fs: map<string, Content>, torn: set<string>)

  datatype Event =
    | Move(st: Step)
    | Work(exec: nat, action: Action)

  datatype Worked = Worked(pc: Pc, fs: map<string, Content>, torn: set<string>)

  function InitCluster(job: Job): Cluster {
    Cluster(InitControl(job.files, job.nReduce), job.disk, {})
  }

  function PairsIn(c: Content): seq<KeyValue> {
    if c.Pairs? then c.kvs else []
  }

  /** The file an execution writes next. */
  function Target(e: Exec): Option<string> {
    if e.pc.Mapping? && e.pc.next < e.task.nReduce then Some(ReduceName(e.task.seqNo, e.pc.next))
    else if e.pc.Reducing? && e.pc.next == e.task.nMaps then Some(MergeName(e.task.seqNo))
    else None
  }

  /** Where an execution stands after a write that went wrong. Only the encoder of an intermediate file
      can report an error and go on with the same file. */
  function TornPc(e: Exec, tear: Tear): Pc
    requires Target(e).Some?
  {
    match tear
    case Unfinished => e.pc
    case Failing => if e.pc.Mapping? then TornPiece(e.pc.kvs, e.pc.next) else e.pc
    case FailedWrite => if e.pc.Mapping? then TornPiece(e.pc.kvs, e.pc.next + 1) else TornOutput
    case Overlapped => if e.pc.Mapping? then Mapping(e.pc.kvs, e.pc.next + 1) else Written
  }

  /** What a write of execution e that went wrong can leave in its file. With nothing to write, the file
      was truncated and no more; else anything may be there. */
  predicate CouldLeave(job: Job, e: Exec, content: Content) {
    if e.pc.Mapping? then Bucket(job.ihash, e.task.nReduce, e.pc.next, e.pc.kvs) == [] ==> content == Pairs([])
    else e.pc.Reducing? && e.pc.read == [] ==> content == Lines([])
  }

  /** What an action of execution e leads to; None if the action is not possible. A map function may
      emit its pairs in any order, and output lines come in any order. With no reduce tasks a pair has
      no bucket, and the worker dies. The output file alone may fail to be opened and still be reported
      as a success later, as it was before the write. */
  ghost function Act(job: Job, fs: map<string, Content>, torn: set<string>, e: Exec, a: Action): Option<Worked> {
    match a
    case ReadInput(kvs) =>
      if && e.pc.Assigned? && e.task.fileName in fs && fs[e.task.fileName].Text?
         && multiset(kvs) == multiset(job.mapf(e.task.fileName, fs[e.task.fileName].text))
         && (e.task.nReduce > 0 || kvs == [])
      then Some(Worked(Mapping(kvs, 0), fs, torn)) else None
    case WriteBucket =>
      if e.pc.Mapping? && e.pc.next < e.task.nReduce then
        var name, piece := ReduceName(e.task.seqNo, e.pc.next), Bucket(job.ihash, e.task.nReduce, e.pc.next, e.pc.kvs);
        Some(Worked(Mapping(e.pc.kvs, e.pc.next + 1), fs[name := Pairs(piece)], torn - {name}))
      else None
    case ReadBucket =>
      if e.pc.Reducing? && e.pc.next < e.task.nMaps && ReduceName(e.pc.next, e.task.seqNo) in fs then
        Some(Worked(Reducing(e.pc.next + 1, e.pc.read + PairsIn(fs[ReduceName(e.pc.next, e.task.seqNo)])), fs, torn))
      else None
    case WriteOutput(lines) =>
      if && e.pc.Reducing? && e.pc.next == e.task.nMaps
         && multiset(lines) == multiset(Reduced(job.reducef, e.pc.read).Items)
      then Some(Worked(Written, fs[MergeName(e.task.seqNo) := Lines(lines)], torn - {MergeName(e.task.seqNo)})) else None
    case Fail =>
      if e.pc.Assigned? || (e.pc.Mapping? && e.pc.next < e.task.nReduce) || (e.pc.Reducing? && e.pc.next < e.task.nMaps)
      then Some(Worked(Failed, fs, torn)) else None
    case TornWrite(content, tear) =>
      if && Target(e).Some?
         && (if content.Some? then CouldLeave(job, e, content.value) else e.pc.Reducing? && tear == FailedWrite)
      then
        var name := Target(e).value;
        Some(Worked(TornPc(e, tear), if content.Some? then fs[name := content.value] else fs, torn + {name}))
      else None
    case Crash =>
      if !Over(e.pc) then Some(Worked(Lost, fs, torn)) else None
  }

  /** The step of the protocol that an event is. */
  ghost function StepOf(job: Job, s: Cluster, ev: Event): Option<Step> {
    match ev
    case Move(st) => if st.Advance? then None else Some(st)
    case Work(j, a) =>
      if j < |s.c.execs| && Act(job, s.fs, s.torn, s.c.execs[j], a).Some?
      then Some(Advance(j, Act(job, s.fs, s.torn, s.c.execs[j], a).value.pc)) else None
  }

  /** The state after an event, or None if the event is not possible. */
  ghost function React(job: Job, s: Cluster, ev: Event): Option<Cluster> {
    if StepOf(job, s, ev).None? || Next(s.c, StepOf(job, s, ev).value).None? then None else
    var c' := Next(s.c, StepOf(job, s, ev).value).value;
    match ev
    case Move(_) => Some(Cluster(c', s.fs, s.torn))
    case Work(j, a) =>
      var r := Act(job, s.fs, s.torn, s.c.execs[j], a).value;
      Some(Cluster(c', r.fs, r.torn))
  }

  ghost function Play(job: Job, s: Cluster, events: seq<Event>): Option<Cluster> {
    if events == [] then Some(s) else
    match Play(job, s, events[..|events| - 1])
    case None => None
    case Some(t) => React(job, t, events[|events| - 1])
  }

  /** A cluster run without late reports. */
  ghost predicate TimelyPlay(job: Job, s: Cluster, events: seq<Event>)
    requires Play(job, s, events).Some?
  {
    events == [] ||
    var front := events[..|events| - 1];
    && TimelyPlay(job, s, front)
    && !Late(Play(job, s, front).value.c, StepOf(job, Play(job, s, front).value, events[|events| - 1]).value)
  }

  /** A reduce execution reads a file whose last write was not a whole one. */
  ghost predicate ReadsTorn(s: Cluster, ev: Event) {
    && ev.Work? && ev.action.ReadBucket? && ev.exec < |s.c.execs|
    && var e := s.c.execs[ev.exec];
    && e.pc.Reducing? && ReduceName(e.pc.next, e.task.seqNo) in s.torn
  }

  /** A cluster run in which no reduce execution reads a torn file. */
  ghost predicate CleanPlay(job: Job, s: Cluster, events: seq<Event>)
    requires Play(job, s, events).Some?
  {
    events == [] ||
    var front := events[..|events| - 1];
    CleanPlay(job, s, front) && !ReadsTorn(Play(job, s, front).value, events[|events| - 1])
  }

  /** Every write of the events is a whole one. */
  predicate WholeWrites(events: seq<Event>) {
    forall ev | ev in events :: ev.Work? ==> !ev.action.TornWrite?
  }

  lemma WholeEvent(job: Job, s: Cluster, ev: Event)
    requires s.torn == {} && React(job, s, ev).Some? && (ev.Work? ==> !ev.action.TornWrite?)
    ensures React(job, s, ev).value.torn == {} && !ReadsTorn(s, ev)
  {
    hide Next;
  }

  /** Without torn writes no file is torn, and none is read. */
  lemma {:induction false} WholeWritesAreClean(job: Job, s: Cluster, events: seq<Event>)
    requires s.torn == {} && Play(job, s, events).Some? && WholeWrites(events)
    ensures CleanPlay(job, s, events) && Play(job, s, events).value.torn == {}
  {
    hide React, ReadsTorn;
    if events != [] {
      var front, ev := events[..|events| - 1], events[|events| - 1];
      WholeWritesAreClean(job, s, front);
      assert ev in events;
      WholeEvent(job, Play(job, s, front).value, ev);
    }
  }

  lemma {:induction false} PlayConcat(job: Job, s: Cluster, a: seq<Event>, b: seq<Event>)
    requires Play(job, s, a).Some?
    ensures Play(job, s, a + b) == Play(job, Play(job, s, a).value, b)
    ensures Play(job, s, a + b).Some? ==>
              (TimelyPlay(job, s, a + b) <==> TimelyPlay(job, s, a) && TimelyPlay(job, Play(job, s, a).value, b))
  {
    if b == [] {
      assert a + b == a;
    } else {
      PlayConcat(job, s, a, b[..|b| - 1]);
      assert (a + b)[..|a + b| - 1] == a + b[..|b| - 1];
    }
  }

  /** The protocol run inside a cluster run. */
  ghost function StepsOf(job: Job, s: Cluster, events: seq<Event>): seq<Step>
    requires Play(job, s, events).Some?
  {
    if events == [] then [] else
    var front := events[..|events| - 1];
    StepsOf(job, s, front) + [StepOf(job, Play(job, s, front).value, events[|events| - 1]).value]
  }

  /** Every cluster run is a protocol run, timely if the cluster run is. */
  lemma {:induction false} PlayIsRun(job: Job, s: Cluster, events: seq<Event>)
    requires Play(job, s, events).Some?
    ensures Run(s.c, StepsOf(job, s, events)) == Some(Play(job, s, events).value.c)
    ensures TimelyPlay(job, s, events) <==> Timely(s.c, StepsOf(job, s, events))
  {
    if events != [] {
      var front := events[..|events| - 1];
      PlayIsRun(job, s, front);
      var steps := StepsOf(job, s, events);
      assert steps[..|steps| - 1] == StepsOf(job, s, front);
    }
  }

  lemma PlayInv(job: Job, events: seq<Event>)
    requires Play(job, InitCluster(job), events).Some?
    ensures var c := Play(job, InitCluster(job), events).value.c;
      && Inv(c) && c.m.files == job.files && c.m.nReduce == job.nReduce
      && (TimelyPlay(job, InitCluster(job), events) ==> TokenInv(c) && c.m.halt == Alive)
  {
    var steps := StepsOf(job, InitCluster(job), events);
    PlayIsRun(job, InitCluster(job), events);
    InvRun(job.files, job.nReduce, steps);
    FilesFixed(job.files, job.nReduce, steps);
    if TimelyPlay(job, InitCluster(job), events) {
      TimelyMatches(job.files, job.nReduce, steps);
    }
  }
}
