/** A distributed run agrees with the sequential program. */
module Refinement {
  import opened Types
  import opened Naming
  import opened Grouping
  import opened Jobs
  import opened Invariants
  import opened ClusterSpec
  import opened DiskFacts
  import opened DiskInvariants
  import opened Sequential
  import opened Progress

  function LinesAt(fs: map<string, Content>, name: string): seq<Line> {
    if name in fs && fs[name].Lines? then fs[name].lines else []
  }

  /** The lines of mr-out-0 .. mr-out-(n-1), counted together. */
  function OutputLines(fs: map<string, Content>, n: nat): multiset<Line> {
    if n == 0 then multiset{} else OutputLines(fs, n - 1) + multiset(LinesAt(fs, MergeName(n - 1)))
  }

  /** When reduce ignores the order of values, a right output file holds the reduction of its share. */
  lemma OutIsReduced(job: Job, fs: map<string, Content>, r: nat)
    requires OrderInsensitive(job.reducef) && OutOk(job, fs, r)
    ensures multiset(LinesAt(fs, MergeName(r))) == multiset(Reduced(job.reducef, Share(job, |job.files|, r)).Items)
  {
    var read :| MadeFrom(job, fs, r, read) && multiset(read) == multiset(Share(job, |job.files|, r));
    ReducedPermute(job.reducef, read, Share(job, |job.files|, r));
  }

  /** A right output file holds its part of the reduction of everything that was emitted. */
  lemma LinesArePart(job: Job, fs: map<string, Content>, r: nat)
    requires OrderInsensitive(job.reducef) && OutOk(job, fs, r)
    ensures multiset(LinesAt(fs, MergeName(r))) ==
            multiset(PartOf(job.ihash, job.nReduce, r, Reduced(job.reducef, Emitted(job, |job.files|))).Items)
  {
    hide OrderInsensitive, OutOk, Emitted, Reduced, Bucket, PartOf, LinesAt, MergeName;
    OutIsReduced(job, fs, r);
    ReducedBucket(job.reducef, job.ihash, job.nReduce, r, Emitted(job, |job.files|));
  }

  lemma {:induction false} PartsAddUp(fs: map<string, Content>, ihash: string -> nat, m: nat, n: nat, all: map<string, string>)
    requires forall r: nat | r < n :: multiset(LinesAt(fs, MergeName(r))) == multiset(PartOf(ihash, m, r, all).Items)
    ensures OutputLines(fs, n) == PartsUpTo(ihash, m, n, all)
  {
    hide PartOf, LinesAt, MergeName;
    if n > 0 { PartsAddUp(fs, ihash, m, n - 1, all); }
  }

  lemma OutputsAreParts(job: Job, fs: map<string, Content>, n: nat)
    requires OrderInsensitive(job.reducef) && forall r: nat | r < n :: OutOk(job, fs, r)
    ensures OutputLines(fs, n) == PartsUpTo(job.ihash, job.nReduce, n, Reduced(job.reducef, Emitted(job, |job.files|)))
  {
    hide OutputLines, PartsUpTo, OrderInsensitive, OutOk, Emitted, Reduced, PartOf, LinesAt, MergeName;
    var all := Reduced(job.reducef, Emitted(job, |job.files|));
    forall r: nat | r < n ensures multiset(LinesAt(fs, MergeName(r))) == multiset(PartOf(job.ihash, job.nReduce, r, all).Items) {
      LinesArePart(job, fs, r);
    }
    PartsAddUp(fs, job.ihash, job.nReduce, n, all);
  }

  lemma {:induction false} NothingEmitted(job: Job, n: nat)
    requires n <= |job.files|
    requires forall i | 0 <= i < n :: MapOut(job, i) == []
    ensures Emitted(job, n) == []
  {
    if n > 0 {
      assert Outputs(job, n)[..n - 1] == Outputs(job, n - 1);
      NothingEmitted(job, n - 1);
    }
  }

  /** No output file is torn. */
  ghost predicate OutputsWhole(job: Job, s: Cluster) {
    forall r | 0 <= r < job.nReduce :: MergeName(r) !in s.torn
  }

  /** When the job is done, every input was read, and every output file is right or torn. */
  lemma DoneMeansRight(job: Job, s: Cluster)
    requires Inv(s.c) && DiskInv(job, s) && s.c.m.done
    ensures forall i | 0 <= i < |job.files| :: InputOk(job, i)
    ensures forall r: nat | r < job.nReduce :: OutSafe(job, s.fs, s.torn, r)
  {
    forall i | 0 <= i < |job.files| ensures InputOk(job, i) { BehindBarrier(job, s, i); }
    forall r: nat | r < job.nReduce ensures OutSafe(job, s.fs, s.torn, r) {
      assert Accepted(s.c.execs, ReducePhase, r);
      var j :| AcceptedAt(s.c.execs, j, ReducePhase, r);
      assert ExecFine(job, s.fs, s.torn, s.c.execs[j]);
    }
  }

  /** When every input has somewhere to go and every output file is right, the output files together
      hold the reduction of everything that was emitted. */
  lemma OutputsTogether(job: Job, fs: map<string, Content>)
    requires forall i | 0 <= i < |job.files| :: InputOk(job, i)
    requires OrderInsensitive(job.reducef) && forall r: nat | r < job.nReduce :: OutOk(job, fs, r)
    ensures OutputLines(fs, job.nReduce) == multiset(Reduced(job.reducef, Emitted(job, |job.files|)).Items)
  {
    OutputsAreParts(job, fs, job.nReduce);
    var all := Reduced(job.reducef, Emitted(job, |job.files|));
    if job.nReduce > 0 {
      PartsAreTheWhole(job.ihash, job.nReduce, all);
    } else {
      forall i | 0 <= i < |job.files| ensures MapOut(job, i) == [] { assert InputOk(job, i); }
      NothingEmitted(job, |job.files|);
      assert all == map[];
    }
  }

  /** The run has reached done, no reduce execution has read a torn file, and no output file is torn. */
  ghost predicate FinishedClean(job: Job, events: seq<Event>) {
    && Play(job, InitCluster(job), events).Some?
    && CleanPlay(job, InitCluster(job), events)
    && var s := Play(job, InitCluster(job), events).value;
    && s.c.m.done && OutputsWhole(job, s)
  }

  /** In every such run all inputs were read, and the output files together hold the reduction of
      everything that was emitted. */
  lemma DoneOutputs(job: Job, events: seq<Event>)
    requires OrderInsensitive(job.reducef) && NoClash(job) && FinishedClean(job, events)
    ensures forall i | 0 <= i < |job.files| :: InputOk(job, i)
    ensures OutputLines(Play(job, InitCluster(job), events).value.fs, job.nReduce) ==
            multiset(Reduced(job.reducef, Emitted(job, |job.files|)).Items)
  {
    var s := Play(job, InitCluster(job), events).value;
    PlayInv(job, events);
    DiskRun(job, events);
    DoneMeansRight(job, s);
    forall r: nat | r < job.nReduce ensures OutOk(job, s.fs, r) {
      assert MergeName(r) !in s.torn && OutSafe(job, s.fs, s.torn, r);
    }
    OutputsTogether(job, s.fs);
  }

  /** The refinement theorem. In every run that reaches done, with any number of workers, crashes in or
      between writes, timeouts, re-executions and late reports, as long as no reduce execution read a
      torn file and no output file is torn in the end: all inputs were readable, and the output files
      together hold exactly the lines of any run of the sequential program. */
  lemma DistributedEqualsSequential(job: Job, events: seq<Event>, sequential: seq<Line>)
    requires OrderInsensitive(job.reducef) && NoClash(job) && FinishedClean(job, events)
    ensures forall i | 0 <= i < |job.files| :: Readable(job, i)
    ensures SequentialOutput(job, sequential) ==>
              OutputLines(Play(job, InitCluster(job), events).value.fs, job.nReduce) == multiset(sequential)
  {
    DoneOutputs(job, events);
    forall i | 0 <= i < |job.files| ensures Readable(job, i) { assert InputOk(job, i); }
    if SequentialOutput(job, sequential) {
      SequentialLines(job, sequential);
    }
  }

  ghost predicate CanFinish(job: Job) {
    exists events :: Play(job, InitCluster(job), events).Some? && Play(job, InitCluster(job), events).value.c.m.done
  }

  ghost predicate CanFinishClean(job: Job) {
    exists events :: FinishedClean(job, events)
  }

  /** A run can reach done exactly when every input can be read and, with no reduce tasks, nothing is
      emitted; and then one can reach it with the right output. */
  lemma FinishableExactlyWhenInputsAre(job: Job)
    requires NoClash(job)
    ensures CanFinish(job) <==> forall i | 0 <= i < |job.files| :: InputOk(job, i)
    ensures CanFinish(job) <==> CanFinishClean(job)
  {
    if CanFinish(job) {
      var events :| Play(job, InitCluster(job), events).Some? && Play(job, InitCluster(job), events).value.c.m.done;
      var s := Play(job, InitCluster(job), events).value;
      PlayInv(job, events);
      FactsRun(job, events);
      forall i | 0 <= i < |job.files| ensures InputOk(job, i) { BehindBarrier(job, s, i); }
    }
    if forall i | 0 <= i < |job.files| :: InputOk(job, i) {
      assert Play(job, InitCluster(job), []).Some?;
      NoStuckState(job, []);
      var more :| && Play(job, InitCluster(job), [] + more).Some?
                  && Play(job, InitCluster(job), [] + more).value.c.m.done
                  && WholeWrites(more);
      assert [] + more == more;
      WholeWritesAreClean(job, InitCluster(job), more);
      assert FinishedClean(job, more);
    }
  }

  /** How often a line occurs in a reduction: once if it is the key's own, else never. */
  lemma LineCount(reducef: (string, seq<string>) -> string, kvs: seq<KeyValue>, k: string, x: string)
    ensures multiset(Reduced(reducef, kvs).Items)[(k, x)] ==
            if k in Keys(kvs) && x == reducef(k, Values(k, kvs)) then 1 else 0
  {
    var all := Reduced(reducef, kvs);
    assert (k, x) in all.Items <==> k in all && all[k] == x;
  }
}
