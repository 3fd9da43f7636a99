/** A job: what it is given, and what its map function makes of the inputs. */
module Jobs {
  import opened Types
  import opened Naming
  import opened Grouping

  /** Everything that is fixed for one job: the arguments of the master, the application's two
      functions, the hash, and the disk as it was before the job began. */
  datatype Job = Job(files: seq<string>, nReduce: nat,
                     mapf: (string, string) -> seq<KeyValue>,
                     reducef: (string, seq<string>) -> string,
                     ihash: string -> nat,
                     disk: map<string, Content>)

  predicate Readable(job: Job, i: nat)
    requires i < |job.files|
  {
    job.files[i] in job.disk && job.disk[job.files[i]].Text?
  }

  /** What the map function emits for input i. */
  function MapOut(job: Job, i: nat): seq<KeyValue>
    requires i < |job.files|
  {
    if Readable(job, i) then job.mapf(job.files[i], job.disk[job.files[i]].text) else []
  }

  function Outputs(job: Job, n: nat): (outs: seq<seq<KeyValue>>)
    requires n <= |job.files|
    ensures |outs| == n
  {
    seq(n, i requires 0 <= i < n => MapOut(job, i))
  }

  /** Everything the first n inputs emit, in order. */
  function Emitted(job: Job, n: nat): seq<KeyValue>
    requires n <= |job.files|
  {
    Concat(Outputs(job, n))
  }

  /** Input i can be read and its pairs have somewhere to go. */
  predicate InputOk(job: Job, i: nat)
    requires i < |job.files|
  {
    Readable(job, i) && (job.nReduce > 0 || MapOut(job, i) == [])
  }

  /** No input file has the name of a generated file. */
  ghost predicate NoClash(job: Job) {
    && (forall f, m, r | f in job.files && 0 <= m < |job.files| && 0 <= r < job.nReduce :: f != ReduceName(m, r))
    && (forall f, r | f in job.files && 0 <= r < job.nReduce :: f != MergeName(r))
  }
}
