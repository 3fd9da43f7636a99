/** mrsequential: the one-process program that a distributed run must agree with. */
module Sequential {
  import opened Types
  import opened Grouping
  import opened Jobs
  import opened Strings

  /** No pair is before one with a smaller key: what sort.Sort(ByKey(..)) promises. */
  ghost predicate SortedByKey(kvs: seq<KeyValue>) {
    forall i, j | 0 <= i < j < |kvs| :: Leq(kvs[i].key, kvs[j].key)
  }

  ghost predicate SortsByKey(sort: seq<KeyValue> -> seq<KeyValue>) {
    forall s :: multiset(sort(s)) == multiset(s) && SortedByKey(sort(s))
  }

  /** The keys of the lines so far strictly increase. */
  ghost predicate Increasing(lines: seq<Line>) {
    forall a, b | 0 <= a < b < |lines| :: Leq(lines[a].0, lines[b].0) && lines[a].0 != lines[b].0
  }

  /** One line for each distinct key and no other, in key order, each made by one call of reduce with
      all values of that key and no other, in order. */
  ghost predicate OneLinePerKey(reducef: (string, seq<string>) -> string, kvs: seq<KeyValue>, lines: seq<Line>) {
    && Increasing(lines)
    && (forall n | 0 <= n < |lines| :: lines[n].0 in Keys(kvs) && lines[n].1 == reducef(lines[n].0, Values(lines[n].0, kvs)))
    && (forall k | k in Keys(kvs) :: exists n :: 0 <= n < |lines| && lines[n].0 == k)
  }

  /** What mrsequential may write for a job: all inputs were read, and the lines come from grouping
      some key-sorted arrangement of everything that was emitted. */
  ghost predicate SequentialOutput(job: Job, lines: seq<Line>) {
    && (forall i | 0 <= i < |job.files| :: Readable(job, i))
    && exists kvs ::
         && multiset(kvs) == multiset(Emitted(job, |job.files|))
         && SortedByKey(kvs)
         && OneLinePerKey(job.reducef, kvs, lines)
  }

  // ---- runs of equal keys

  lemma {:induction false} ValuesOfStrangers(k: string, kvs: seq<KeyValue>)
    requires forall i | 0 <= i < |kvs| :: kvs[i].key != k
    ensures Values(k, kvs) == []
  {
    if kvs != [] { ValuesOfStrangers(k, kvs[1..]); }
  }

  /** No key has pairs on both sides of position i. */
  ghost predicate CleanCut(kvs: seq<KeyValue>, i: nat)
    requires i <= |kvs|
  {
    forall a, b | 0 <= a < i <= b < |kvs| :: kvs[a].key != kvs[b].key
  }

  /** In a sorted array, a maximal stretch of one key ends at a clean cut. */
  lemma StretchEndsClean(kvs: seq<KeyValue>, i: nat, j: nat)
    requires SortedByKey(kvs) && i < j <= |kvs|
    requires kvs[j - 1].key == kvs[i].key
    requires j < |kvs| ==> kvs[j].key != kvs[i].key
    ensures CleanCut(kvs, j)
  {
    forall a, b | 0 <= a < j <= b < |kvs| ensures kvs[a].key != kvs[b].key {
      if kvs[a].key == kvs[b].key {
        assert Leq(kvs[a].key, kvs[j - 1].key) by { if a == j - 1 { LeqReflexive(kvs[a].key); } }
        assert Leq(kvs[j].key, kvs[b].key) by { if j == b { LeqReflexive(kvs[j].key); } }
        LeqTransitive(kvs[j].key, kvs[a].key, kvs[j - 1].key);
        LeqAntisymmetric(kvs[j].key, kvs[j - 1].key);
      }
    }
  }

  /** before and then a whole run of one greater key that does not occur in before. */
  ghost predicate RunAfter(before: seq<KeyValue>, run: seq<KeyValue>) {
    && SortedByKey(before + run) && run != []
    && (forall k | 0 <= k < |run| :: run[k].key == run[0].key)
    && (forall k | 0 <= k < |before| :: before[k].key != run[0].key)
  }

  lemma RunAfterKeys(before: seq<KeyValue>, run: seq<KeyValue>)
    requires RunAfter(before, run)
    ensures Keys(before + run) == Keys(before) + {run[0].key}
    ensures forall k | k in Keys(before) :: Leq(k, run[0].key) && k != run[0].key
  {
    KeysConcat(before, run);
    assert Keys(run) == {run[0].key} by { assert run[0] in run; }
    forall k | k in Keys(before) ensures Leq(k, run[0].key) && k != run[0].key {
      var kv :| kv in before && kv.key == k;
      var a :| 0 <= a < |before| && before[a] == kv;
      assert (before + run)[a] == kv && (before + run)[|before|] == run[0];
    }
  }

  lemma RunAfterValues(before: seq<KeyValue>, run: seq<KeyValue>, k: string)
    requires RunAfter(before, run)
    ensures Values(k, before + run) == if k == run[0].key then Values(k, run) else Values(k, before)
  {
    ValuesConcat(k, before, run);
    ValuesOfStrangers(if k == run[0].key then k else run[0].key, before);
    if k != run[0].key { ValuesOfStrangers(k, run); }
  }

  /** Appending the line of one whole run. */
  lemma AppendRun(reducef: (string, seq<string>) -> string, before: seq<KeyValue>, run: seq<KeyValue>, lines: seq<Line>)
    requires RunAfter(before, run)
    requires OneLinePerKey(reducef, before, lines)
    ensures OneLinePerKey(reducef, before + run, lines + [(run[0].key, reducef(run[0].key, Values(run[0].key, run)))])
  {
    assert run != [];
    hide RunAfter, Keys, Values, Increasing;
    var key := run[0].key;
    var lines' := lines + [(key, reducef(key, Values(key, run)))];
    RunAfterKeys(before, run);
    AppendIncreasing(lines, lines'[|lines|]);
    forall n | 0 <= n < |lines'|
      ensures lines'[n].0 in Keys(before + run) && lines'[n].1 == reducef(lines'[n].0, Values(lines'[n].0, before + run))
    {
      RunAfterValues(before, run, lines'[n].0);
      if n < |lines| { assert lines'[n] == lines[n]; }
    }
    forall k | k in Keys(before + run) ensures exists n :: 0 <= n < |lines'| && lines'[n].0 == k {
      if k == key {
        assert lines'[|lines|].0 == k;
      } else {
        var n :| 0 <= n < |lines| && lines[n].0 == k;
        assert lines'[n].0 == k;
      }
    }
  }

  lemma AppendIncreasing(lines: seq<Line>, line: Line)
    requires Increasing(lines)
    requires forall n | 0 <= n < |lines| :: Leq(lines[n].0, line.0) && lines[n].0 != line.0
    ensures Increasing(lines + [line])
  {
  }

  lemma NoLines(reducef: (string, seq<string>) -> string)
    ensures OneLinePerKey(reducef, [], [])
  {
  }

  /** A stretch of one key from one clean cut to the next is a whole run. */
  lemma StretchIsRun(kvs: seq<KeyValue>, i: nat, j: nat)
    requires SortedByKey(kvs) && i < j <= |kvs| && CleanCut(kvs, i)
    requires forall k | i <= k < j :: kvs[k].key == kvs[i].key
    ensures RunAfter(kvs[..i], kvs[i..j])
  {
    assert kvs[..i] + kvs[i..j] == kvs[..j];
  }

  // ---- the program

  /** The values of intermediate[i..j], whose keys are all the same. */
  method CollectValues(intermediate: array<KeyValue>, i: nat, j: nat) returns (values: seq<string>)
    requires i < j <= intermediate.Length
    requires forall k | i <= k < j :: intermediate[k].key == intermediate[i].key
    ensures values == Values(intermediate[i].key, intermediate[i..j])
  {
    values := [];
    for k := i to j
      invariant values == Values(intermediate[i].key, intermediate[i..k])
    {
      assert intermediate[i..k + 1] == intermediate[i..k] + [intermediate[k]];
      ValuesConcat(intermediate[i].key, intermediate[i..k], [intermediate[k]]);
      values := values + [intermediate[k].value];
    }
  }

  /** The grouping loop of main, on an array already sorted by key. */
  method GroupRuns(reducef: (string, seq<string>) -> string, intermediate: array<KeyValue>) returns (ofile: seq<Line>)
    requires SortedByKey(intermediate[..])
    ensures OneLinePerKey(reducef, intermediate[..], ofile)
  {
    hide OneLinePerKey, Values;
    ofile := [];
    var i := 0;
    NoLines(reducef);
    assert intermediate[..0] == [];
    while i < intermediate.Length
      invariant 0 <= i <= intermediate.Length
      invariant CleanCut(intermediate[..], i)
      invariant OneLinePerKey(reducef, intermediate[..i], ofile)
    {
      var j := i + 1;
      while j < intermediate.Length && intermediate[j].key == intermediate[i].key
        invariant i < j <= intermediate.Length
        invariant forall k | i <= k < j :: intermediate[k].key == intermediate[i].key
      {
        j := j + 1;
      }
      var values := CollectValues(intermediate, i, j);
      var output := reducef(intermediate[i].key, values);
      StretchEndsClean(intermediate[..], i, j);
      StretchIsRun(intermediate[..], i, j);
      assert intermediate[..][..i] == intermediate[..i] && intermediate[..][i..j] == intermediate[i..j];
      assert intermediate[..j] == intermediate[..i] + intermediate[i..j];
      AppendRun(reducef, intermediate[..i], intermediate[i..j], ofile);
      ofile := ofile + [(intermediate[i].key, output)];
      i := j;
    }
    assert intermediate[..i] == intermediate[..];
  }

  /** main: reads every input, emits, sorts, groups. Stops without output if an input cannot be read. */
  method MrSequential(job: Job, sort: seq<KeyValue> -> seq<KeyValue>) returns (ofile: Option<seq<Line>>)
    requires SortsByKey(sort)
    ensures ofile.None? <==> exists i :: 0 <= i < |job.files| && !Readable(job, i)
    ensures ofile.Some? ==> SequentialOutput(job, ofile.value)
  {
    var intermediate := [];
    for i := 0 to |job.files|
      invariant forall k | 0 <= k < i :: Readable(job, k)
      invariant intermediate == Emitted(job, i)
    {
      if job.files[i] !in job.disk || !job.disk[job.files[i]].Text? {
        assert !Readable(job, i);
        return None;
      }
      var kva := job.mapf(job.files[i], job.disk[job.files[i]].text);
      assert Outputs(job, i + 1)[..i] == Outputs(job, i);
      intermediate := intermediate + kva;
    }
    var sorted := sort(intermediate);
    var sortedArray := new KeyValue[|sorted|](k requires 0 <= k < |sorted| => sorted[k]);
    assert sortedArray[..] == sorted;
    var lines := GroupRuns(job.reducef, sortedArray);
    ofile := Some(lines);
  }

  lemma LineOfKey(reducef: (string, seq<string>) -> string, kvs: seq<KeyValue>, lines: seq<Line>, k: string) returns (n: nat)
    requires OneLinePerKey(reducef, kvs, lines) && k in Keys(kvs)
    ensures n < |lines| && lines[n].0 == k
  {
    n :| 0 <= n < |lines| && lines[n].0 == k;
  }

  // ---- the lines as a multiset

  lemma DistinctLines(lines: seq<Line>)
    requires Increasing(lines)
    ensures forall x :: multiset(lines)[x] <= 1
  {
    if |lines| > 0 {
      var n := |lines| - 1;
      DistinctLines(lines[..n]);
      assert lines == lines[..n] + [lines[n]];
      assert lines[n] !in lines[..n];
    }
  }

  lemma LinesAreReduced(reducef: (string, seq<string>) -> string, kvs: seq<KeyValue>, lines: seq<Line>)
    requires OneLinePerKey(reducef, kvs, lines)
    ensures multiset(lines) == multiset(Reduced(reducef, kvs).Items)
  {
    DistinctLines(lines);
    var all := Reduced(reducef, kvs);
    forall x: Line ensures multiset(lines)[x] == multiset(all.Items)[x] {
      assert x in all.Items <==> x.0 in all && all[x.0] == x.1;
      if x in all.Items {
        var n :| 0 <= n < |lines| && lines[n].0 == x.0;
        assert lines[n] == x;
      }
      if x in lines {
        assert x in all.Items;
      }
      assert x in lines <==> x in multiset(lines);
    }
  }

  /** Whatever arrangement the sort chose, the lines are those of reducing all emitted pairs. */
  lemma SequentialLines(job: Job, lines: seq<Line>)
    requires SequentialOutput(job, lines) && OrderInsensitive(job.reducef)
    ensures multiset(lines) == multiset(Reduced(job.reducef, Emitted(job, |job.files|)).Items)
  {
    var kvs :| multiset(kvs) == multiset(Emitted(job, |job.files|)) && OneLinePerKey(job.reducef, kvs, lines);
    LinesAreReduced(job.reducef, kvs, lines);
    ReducedPermute(job.reducef, kvs, Emitted(job, |job.files|));
  }
}
