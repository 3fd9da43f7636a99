/** The worker's two tasks as the loops they are, and what they amount to on the disk. */
module Worker {
  import opened Types
  import opened Naming
  import opened Grouping
  import opened Jobs
  import opened MasterSpec
  import opened Protocol
  import opened ClusterSpec

  /** How writing one file goes: as it should; it cannot be created; or something else ends up in it
      and that many calls return an error. */
  datatype Io = Whole | NotCreated | Spoiled(content: Content, errors: nat)

  /** With nothing to write, a file that was created is empty, whatever goes wrong. */
  function LeftPairs(piece: seq<KeyValue>, content: Content): Content {
    if piece == [] then Pairs([]) else content
  }

  function LeftLines(res: seq<Line>, content: Content): Content {
    if res == [] then Lines([]) else content
  }

  /** What a task leaves on the disk, and the reports it sends. */
  datatype Outcome = Outcome(fs: map<string, Content>, reports: seq<bool>)

  function Failures(n: nat): (reports: seq<bool>)
    ensures |reports| == n
  {
    seq(n, _ => false)
  }

  /** The rest of a map task from intermediate file k. */
  function MapFrom(ihash: string -> nat, fs: map<string, Content>, t: Task, kvs: seq<KeyValue>, io: nat -> Io, k: nat): Outcome
    requires k <= t.nReduce
    decreases t.nReduce - k
  {
    if k == t.nReduce then Outcome(fs, [true]) else
    var name := ReduceName(t.seqNo, k);
    match io(k)
    case NotCreated => Outcome(fs, [false])
    case Whole => MapFrom(ihash, fs[name := Pairs(Bucket(ihash, t.nReduce, k, kvs))], t, kvs, io, k + 1)
    case Spoiled(content, errors) =>
      var rest := MapFrom(ihash, fs[name := LeftPairs(Bucket(ihash, t.nReduce, k, kvs), content)], t, kvs, io, k + 1);
      Outcome(rest.fs, Failures(errors) + rest.reports)
  }

  /** The first n intermediate files of a reduce task are on the disk. */
  predicate PiecesPresent(fs: map<string, Content>, t: Task, n: nat) {
    forall i | 0 <= i < n :: ReduceName(i, t.seqNo) in fs
  }

  /** The pairs in the first n intermediate files of a reduce task, in map order. */
  function PiecesRead(fs: map<string, Content>, t: Task, n: nat): seq<KeyValue>
    requires PiecesPresent(fs, t, n)
  {
    if n == 0 then [] else PiecesRead(fs, t, n - 1) + PairsIn(fs[ReduceName(n - 1, t.seqNo)])
  }

  lemma NothingRead(fs: map<string, Content>, t: Task)
    ensures PiecesPresent(fs, t, 0) && PiecesRead(fs, t, 0) == []
  {
  }

  lemma OneMoreRead(fs: map<string, Content>, t: Task, n: nat)
    requires PiecesPresent(fs, t, n) && ReduceName(n, t.seqNo) in fs
    ensures PiecesPresent(fs, t, n + 1)
    ensures PiecesRead(fs, t, n + 1) == PiecesRead(fs, t, n) + PairsIn(fs[ReduceName(n, t.seqNo)])
  {
  }

  /** Each key with all its values, in order. */
  function Regrouped(kvs: seq<KeyValue>): map<string, seq<string>> {
    map k | k in Keys(kvs) :: Values(k, kvs)
  }

  lemma ValuesOne(kvs: seq<KeyValue>, kv: KeyValue, k: string)
    ensures Values(k, kvs + [kv]) == Values(k, kvs) + (if k == kv.key then [kv.value] else [])
    ensures k !in Keys(kvs) ==> Values(k, kvs) == []
    ensures k in Keys(kvs + [kv]) <==> k in Keys(kvs) || k == kv.key
  {
    KeysConcat(kvs, [kv]);
    assert kv in [kv];
    ValuesConcat(k, kvs, [kv]);
    if k !in Keys(kvs) { NoValues(k, kvs); }
  }

  lemma NothingRegrouped()
    ensures Regrouped([]) == map[]
  {
  }

  lemma RegroupOne(kvs: seq<KeyValue>, kv: KeyValue)
    ensures Regrouped(kvs + [kv]) ==
            Regrouped(kvs)[kv.key := (if kv.key in Regrouped(kvs) then Regrouped(kvs)[kv.key] else []) + [kv.value]]
  {
    hide Keys, Values;
    ValuesOne(kvs, kv, kv.key);
    forall k ensures k in Keys(kvs + [kv]) <==> k in Keys(kvs) || k == kv.key { ValuesOne(kvs, kv, k); }
    forall k | k in Keys(kvs) && k != kv.key ensures Values(k, kvs + [kv]) == Values(k, kvs) {
      ValuesOne(kvs, kv, k);
    }
  }

  lemma {:induction false} NoValues(k: string, kvs: seq<KeyValue>)
    requires k !in Keys(kvs)
    ensures Values(k, kvs) == []
  {
    if kvs != [] {
      assert kvs[0] in kvs;
      assert forall kv | kv in kvs[1..] :: kv in kvs;
      NoValues(k, kvs[1..]);
    }
  }

  /** The value lists of some keys, reduced. */
  function Rendered(reducef: (string, seq<string>) -> string, maps: map<string, seq<string>>, keys: set<string>): map<string, string>
    requires keys <= maps.Keys
  {
    map k | k in keys :: reducef(k, maps[k])
  }

  lemma RenderOne(reducef: (string, seq<string>) -> string, maps: map<string, seq<string>>, keys: set<string>, k: string)
    requires keys <= maps.Keys && k in maps && k !in keys
    ensures multiset(Rendered(reducef, maps, keys + {k}).Items) ==
            multiset(Rendered(reducef, maps, keys).Items) + multiset{(k, reducef(k, maps[k]))}
  {
    var one := map[k := reducef(k, maps[k])];
    assert forall x: Line | x in one.Items :: x.0 in one && one[x.0] == x.1;
    assert (k, one[k]) in one.Items;
    forall x: Line ensures multiset(one.Items)[x] == multiset{(k, one[k])}[x] {
      if x in one.Items {
        assert x == (x.0, x.1);
      }
    }
    SplitItems(Rendered(reducef, maps, keys + {k}), Rendered(reducef, maps, keys), one);
  }

  class Disk {
    var files: map<string, Content>
  }

  class Worker {
    const id: nat
    const mapf: (string, string) -> seq<KeyValue>
    const reducef: (string, seq<string>) -> string
    const ihash: string -> nat

    constructor (id: nat, mapf: (string, string) -> seq<KeyValue>, reducef: (string, seq<string>) -> string, ihash: string -> nat)
      ensures this.id == id && this.mapf == mapf && this.reducef == reducef && this.ihash == ihash
    {
      this.id, this.mapf, this.reducef, this.ihash := id, mapf, reducef, ihash;
    }

    /** Distributes the pairs over the buckets; taking a remainder by zero panics. */
    method Partition(kvs: seq<KeyValue>, nReduce: nat) returns (reduces: Option<array<seq<KeyValue>>>)
      ensures reduces.None? <==> nReduce == 0 && kvs != []
      ensures reduces.Some? ==> fresh(reduces.value) && reduces.value.Length == nReduce
      ensures reduces.Some? ==> forall r | 0 <= r < nReduce :: reduces.value[r] == Bucket(ihash, nReduce, r, kvs)
    {
      var buckets := new seq<KeyValue>[nReduce](_ => []);
      for n := 0 to |kvs|
        invariant nReduce == 0 ==> n == 0
        invariant forall r | 0 <= r < nReduce :: buckets[r] == Bucket(ihash, nReduce, r, kvs[..n])
      {
        if nReduce == 0 {
          return None;
        }
        var idx := ihash(kvs[n].key) % nReduce;
        buckets[idx] := buckets[idx] + [kvs[n]];
        assert kvs[..n + 1] == kvs[..n] + [kvs[n]];
        forall r | 0 <= r < nReduce
          ensures Bucket(ihash, nReduce, r, kvs[..n + 1]) ==
                  Bucket(ihash, nReduce, r, kvs[..n]) + (if r == idx then [kvs[n]] else [])
        {
          BucketConcat(ihash, nReduce, r, kvs[..n], [kvs[n]]);
        }
      }
      assert kvs[..|kvs|] == kvs;
      reduces := Some(buckets);
    }

    /** panicked: the worker died before any report. */
    method DoMapTask(t: Task, disk: Disk, io: nat -> Io) returns (reports: seq<bool>, panicked: bool)
      modifies disk
      ensures t.fileName !in old(disk.files) || !old(disk.files)[t.fileName].Text? ==>
                disk.files == old(disk.files) && reports == [false] && !panicked
      ensures t.fileName in old(disk.files) && old(disk.files)[t.fileName].Text? ==>
                var kvs := mapf(t.fileName, old(disk.files)[t.fileName].text);
                && (panicked <==> t.nReduce == 0 && kvs != [])
                && (panicked ==> disk.files == old(disk.files) && reports == [])
                && (!panicked ==> Outcome(disk.files, reports) == MapFrom(ihash, old(disk.files), t, kvs, io, 0))
    {
      if t.fileName !in disk.files || !disk.files[t.fileName].Text? {
        return [false], false;
      }
      var kvs := mapf(t.fileName, disk.files[t.fileName].text);
      var reduces := Partition(kvs, t.nReduce);
      if reduces.None? {
        return [], true;
      }
      reports, panicked := [], false;
      ghost var all := MapFrom(ihash, disk.files, t, kvs, io, 0);
      for idx := 0 to t.nReduce
        invariant forall r | 0 <= r < t.nReduce :: reduces.value[r] == Bucket(ihash, t.nReduce, r, kvs)
        invariant var rest := MapFrom(ihash, disk.files, t, kvs, io, idx); all == Outcome(rest.fs, reports + rest.reports)
      {
        var fileName := ReduceName(t.seqNo, idx);
        match io(idx) {
          case NotCreated =>
            return reports + [false], false;
          case Whole =>
            disk.files := disk.files[fileName := Pairs(reduces.value[idx])];
          case Spoiled(content, errors) =>
            disk.files := disk.files[fileName := LeftPairs(reduces.value[idx], content)];
            ghost var rest := MapFrom(ihash, disk.files, t, kvs, io, idx + 1);
            assert reports + (Failures(errors) + rest.reports) == reports + Failures(errors) + rest.reports;
            reports := reports + Failures(errors);
        }
      }
      reports := reports + [true];
    }

    /** Appends the pairs of one file to the value lists. */
    method Regroup(maps: map<string, seq<string>>, ghost read: seq<KeyValue>, kvs: seq<KeyValue>) returns (maps': map<string, seq<string>>)
      requires maps == Regrouped(read)
      ensures maps' == Regrouped(read + kvs)
    {
      maps' := maps;
      assert read + kvs[..0] == read;
      for n := 0 to |kvs|
        invariant maps' == Regrouped(read + kvs[..n])
      {
        var kv := kvs[n];
        RegroupOne(read + kvs[..n], kv);
        assert read + kvs[..n] + [kv] == read + kvs[..n + 1];
        if kv.key !in maps' {
          maps' := maps'[kv.key := []];
        }
        maps' := maps'[kv.key := maps'[kv.key] + [kv.value]];
      }
      assert kvs[..|kvs|] == kvs;
    }

    /** One line per key, in whatever order the keys come. */
    method Render(maps: map<string, seq<string>>) returns (res: seq<Line>)
      ensures multiset(res) == multiset(Rendered(reducef, maps, maps.Keys).Items)
    {
      res := [];
      var left := maps.Keys;
      assert Rendered(reducef, maps, maps.Keys - left) == map[];
      while left != {}
        invariant left <= maps.Keys
        invariant multiset(res) == multiset(Rendered(reducef, maps, maps.Keys - left).Items)
        decreases left
      {
        var k :| k in left;
        RenderOne(reducef, maps, maps.Keys - left, k);
        assert maps.Keys - (left - {k}) == maps.Keys - left + {k};
        left := left - {k};
        res := res + [(k, reducef(k, maps[k]))];
      }
      assert maps.Keys - left == maps.Keys;
    }

    /** Reads the intermediate files of a reduce task in map order; None if one cannot be opened. */
    method ReadPieces(t: Task, disk: Disk) returns (maps: Option<map<string, seq<string>>>)
      ensures maps.Some? <==> PiecesPresent(disk.files, t, t.nMaps)
      ensures maps.Some? ==> maps.value == Regrouped(PiecesRead(disk.files, t, t.nMaps))
    {
      hide Regrouped, PiecesRead, ReduceName;
      NothingRead(disk.files, t);
      var grouped: map<string, seq<string>> := map[];
      NothingRegrouped();
      for idx := 0 to t.nMaps
        invariant PiecesPresent(disk.files, t, idx)
        invariant grouped == Regrouped(PiecesRead(disk.files, t, idx))
      {
        var fileName := ReduceName(idx, t.seqNo);
        if fileName !in disk.files {
          return None;
        }
        OneMoreRead(disk.files, t, idx);
        grouped := Regroup(grouped, PiecesRead(disk.files, t, idx), PairsIn(disk.files[fileName]));
      }
      maps := Some(grouped);
    }

    method DoReduceTask(t: Task, disk: Disk, io: Io) returns (reports: seq<bool>, res: seq<Line>)
      modifies disk
      ensures !PiecesPresent(old(disk.files), t, t.nMaps) ==> disk.files == old(disk.files) && reports == [false]
      ensures PiecesPresent(old(disk.files), t, t.nMaps) ==>
                && multiset(res) == multiset(Reduced(reducef, PiecesRead(old(disk.files), t, t.nMaps)).Items)
                && Outcome(disk.files, reports) == AfterOutput(old(disk.files), t, io, res)
    {
      var maps := ReadPieces(t, disk);
      if maps.None? {
        return [false], [];
      }
      res := Render(maps.value);
      RenderedIsReduced(reducef, PiecesRead(disk.files, t, t.nMaps));
      reports := [];
      match io {
        case Whole =>
          disk.files := disk.files[MergeName(t.seqNo) := Lines(res)];
        case NotCreated =>
          reports := [false];
        case Spoiled(content, errors) =>
          disk.files := disk.files[MergeName(t.seqNo) := LeftLines(res, content)];
          if errors > 0 {
            reports := [false];
          }
      }
      reports := reports + [true];
    }
  }

  /** What the one write of the output file leaves; it reports at most one error. */
  function AfterOutput(fs: map<string, Content>, t: Task, io: Io, res: seq<Line>): Outcome {
    match io
    case Whole => Outcome(fs[MergeName(t.seqNo) := Lines(res)], [true])
    case NotCreated => Outcome(fs, [false, true])
    case Spoiled(content, errors) => Outcome(fs[MergeName(t.seqNo) := LeftLines(res, content)], if errors > 0 then [false, true] else [true])
  }

  lemma RenderedIsReduced(reducef: (string, seq<string>) -> string, kvs: seq<KeyValue>)
    ensures Rendered(reducef, Regrouped(kvs), Regrouped(kvs).Keys) == Reduced(reducef, kvs)
  {
  }

  // ---- what a reduce task reads

  /** When the intermediate files hold the buckets of some map outputs, what is read is these buckets one
      after the other, in map order and within each in the order of emission. */
  lemma {:induction false} ReadsTheBuckets(ihash: string -> nat, fs: map<string, Content>, t: Task, outputs: seq<seq<KeyValue>>)
    requires forall i | 0 <= i < |outputs| ::
      ReduceName(i, t.seqNo) in fs && fs[ReduceName(i, t.seqNo)] == Pairs(Bucket(ihash, t.nReduce, t.seqNo, outputs[i]))
    ensures PiecesPresent(fs, t, |outputs|)
    ensures PiecesRead(fs, t, |outputs|) == Concat(Pieces(ihash, t.nReduce, t.seqNo, outputs))
  {
    hide ReduceName, Bucket;
    var pieces := Pieces(ihash, t.nReduce, t.seqNo, outputs);
    if outputs != [] {
      var n := |outputs| - 1;
      ReadsTheBuckets(ihash, fs, t, outputs[..n]);
      assert pieces[..n] == Pieces(ihash, t.nReduce, t.seqNo, outputs[..n]);
      assert pieces[n] == Bucket(ihash, t.nReduce, t.seqNo, outputs[n]);
      assert fs[ReduceName(n, t.seqNo)] == Pairs(pieces[n]);
    }
  }

  // ---- what the reports are worth

  /** When every write is whole, the one report is success, and the task's files, and no others, were
      written: each with its bucket. */
  lemma {:induction false} WholeMapTask(ihash: string -> nat, fs: map<string, Content>, t: Task, kvs: seq<KeyValue>, io: nat -> Io, k: nat)
    requires k <= t.nReduce && forall r | k <= r < t.nReduce :: io(r) == Whole
    ensures var end := MapFrom(ihash, fs, t, kvs, io, k);
      && end.reports == [true]
      && (forall r | k <= r < t.nReduce ::
            ReduceName(t.seqNo, r) in end.fs && end.fs[ReduceName(t.seqNo, r)] == Pairs(Bucket(ihash, t.nReduce, r, kvs)))
      && (forall f | (forall r | k <= r < t.nReduce :: f != ReduceName(t.seqNo, r)) ::
            (f in end.fs <==> f in fs) && (f in fs ==> end.fs[f] == fs[f]))
    decreases t.nReduce - k
  {
    hide ReduceName, Bucket;
    if k < t.nReduce {
      var name := ReduceName(t.seqNo, k);
      var fs1 := fs[name := Pairs(Bucket(ihash, t.nReduce, k, kvs))];
      WholeMapTask(ihash, fs1, t, kvs, io, k + 1);
      forall r | k < r < t.nReduce ensures ReduceName(t.seqNo, r) != name { NamesNeverCollide(t.seqNo, r, t.seqNo, k); }
    }
  }

  /** A file that could be created: the reports about it come before those about the rest. */
  lemma ReportsOfOne(ihash: string -> nat, fs: map<string, Content>, t: Task, kvs: seq<KeyValue>, io: nat -> Io, k: nat)
    returns (front: seq<bool>, fs1: map<string, Content>)
    requires k < t.nReduce && io(k) != NotCreated
    ensures MapFrom(ihash, fs, t, kvs, io, k).reports == front + MapFrom(ihash, fs1, t, kvs, io, k + 1).reports
  {
    hide ReduceName, Bucket;
    var piece := Bucket(ihash, t.nReduce, k, kvs);
    var written := if io(k).Whole? then Pairs(piece) else LeftPairs(piece, io(k).content);
    fs1 := fs[ReduceName(t.seqNo, k) := written];
    front := if io(k).Whole? then [] else Failures(io(k).errors);
  }

  /** The last report of a map task is success if and only if all its files could be created: other
      write errors are reported as failures before it, and do not stop it. */
  lemma {:induction false} SuccessUnlessNotCreated(ihash: string -> nat, fs: map<string, Content>, t: Task, kvs: seq<KeyValue>, io: nat -> Io, k: nat)
    requires k <= t.nReduce
    ensures var reports := MapFrom(ihash, fs, t, kvs, io, k).reports;
      reports != [] && (reports[|reports| - 1] <==> forall r | k <= r < t.nReduce :: io(r) != NotCreated)
    decreases t.nReduce - k
  {
    hide ReduceName, Bucket, LeftPairs;
    if k < t.nReduce && io(k) != NotCreated {
      hide MapFrom;
      var front, fs1 := ReportsOfOne(ihash, fs, t, kvs, io, k);
      SuccessUnlessNotCreated(ihash, fs1, t, kvs, io, k + 1);
    }
  }

  // ---- the loops are sequences of the cluster's actions

  /** An execution does something on the disk, or sends a report after which it goes on. */
  datatype Deed = Do(action: Action) | Tell

  /** The execution, the disk, and the reports sent so far. */
  datatype Trail = Trail(e: Exec, fs: map<string, Content>, torn: set<string>, told: seq<bool>)

  /** Some deeds of one execution, one after another. */
  ghost function Deeds(job: Job, s: Trail, deeds: seq<Deed>): Option<Trail>
    decreases |deeds|
  {
    if deeds == [] then Some(s) else
    match deeds[0]
    case Do(a) =>
      (match Act(job, s.fs, s.torn, s.e, a)
       case None => None
       case Some(r) => Deeds(job, Trail(s.e.(pc := r.pc), r.fs, r.torn, s.told), deeds[1..]))
    case Tell =>
      if s.e.pc.TornPiece? then
        Deeds(job, s.(e := s.e.(pc := Mapping(s.e.pc.kvs, s.e.pc.next)), told := s.told + [false]), deeds[1..])
      else if s.e.pc.TornOutput? then
        Deeds(job, s.(e := s.e.(pc := Written), told := s.told + [false]), deeds[1..])
      else None
  }

  /** Telling is the report that the protocol has the execution make before it goes on. */
  lemma TellIsReport(job: Job, s: Trail, m: MasterState)
    ensures Deeds(job, s, [Tell]).Some? <==> Verdict(s.e).Some? && !AfterReport(m, s.e).Reported?
    ensures Deeds(job, s, [Tell]).Some? ==>
              Deeds(job, s, [Tell]) == Some(s.(e := s.e.(pc := AfterReport(m, s.e)), told := s.told + [Verdict(s.e).value]))
  {
    assert [Tell][1..] == [];
  }

  lemma {:induction false} DeedsConcat(job: Job, s: Trail, a: seq<Deed>, b: seq<Deed>)
    requires Deeds(job, s, a).Some?
    ensures Deeds(job, s, a + b) == Deeds(job, Deeds(job, s, a).value, b)
    decreases |a|
  {
    if a == [] {
      assert a + b == b;
    } else {
      assert (a + b)[1..] == a[1..] + b;
      match a[0]
      case Do(x) =>
        var r := Act(job, s.fs, s.torn, s.e, x).value;
        DeedsConcat(job, Trail(s.e.(pc := r.pc), r.fs, r.torn, s.told), a[1..], b);
      case Tell =>
        var pc := if s.e.pc.TornPiece? then Mapping(s.e.pc.kvs, s.e.pc.next) else Written;
        DeedsConcat(job, s.(e := s.e.(pc := pc), told := s.told + [false]), a[1..], b);
    }
  }

  /** What the deeds leave is the outcome, the last report being the one that is still to be sent. */
  ghost predicate LeadsTo(job: Job, s: Trail, deeds: seq<Deed>, end: Outcome) {
    && Deeds(job, s, deeds).Some?
    && var t := Deeds(job, s, deeds).value;
    && t.fs == end.fs && Verdict(t.e).Some? && end.reports == t.told + [Verdict(t.e).value]
  }

  /** A file that is spoiled, with that many errors reported. */
  lemma {:induction false} SpoilsOne(job: Job, s: Trail, content: Content, errors: nat) returns (deeds: seq<Deed>, t: Trail)
    requires s.e.pc.Mapping? && s.e.pc.next < s.e.task.nReduce && CouldLeave(job, s.e, content)
    ensures Deeds(job, s, deeds) == Some(t)
    ensures t.e == s.e.(pc := Mapping(s.e.pc.kvs, s.e.pc.next + 1))
    ensures t.fs == s.fs[ReduceName(s.e.task.seqNo, s.e.pc.next) := content] && t.told == s.told + Failures(errors)
    decreases errors
  {
    var name := ReduceName(s.e.task.seqNo, s.e.pc.next);
    var fs, torn := s.fs[name := content], s.torn + {name};
    if errors == 0 {
      var a := TornWrite(Some(content), Overlapped);
      deeds := [Do(a)];
      t := Trail(s.e.(pc := Mapping(s.e.pc.kvs, s.e.pc.next + 1)), fs, torn, s.told);
      assert Deeds(job, s, deeds) == Deeds(job, t, []);
    } else if errors == 1 {
      deeds := [Do(TornWrite(Some(content), FailedWrite)), Tell];
      var u := Trail(s.e.(pc := TornPiece(s.e.pc.kvs, s.e.pc.next + 1)), fs, torn, s.told);
      t := u.(e := s.e.(pc := Mapping(s.e.pc.kvs, s.e.pc.next + 1)), told := s.told + [false]);
      assert deeds[1..] == [Tell] && [Tell][1..] == [];
      assert Deeds(job, s, deeds) == Deeds(job, u, [Tell]) == Deeds(job, t, []);
    } else {
      var first := [Do(TornWrite(Some(content), Failing)), Tell];
      var u := Trail(s.e.(pc := TornPiece(s.e.pc.kvs, s.e.pc.next)), fs, torn, s.told);
      var v := u.(e := s.e, told := s.told + [false]);
      assert first[1..] == [Tell] && [Tell][1..] == [];
      assert Deeds(job, s, first) == Deeds(job, u, [Tell]) == Deeds(job, v, []);
      var rest;
      rest, t := SpoilsOne(job, v, content, errors - 1);
      deeds := first + rest;
      DeedsConcat(job, s, first, rest);
      assert s.told + [false] + Failures(errors - 1) == s.told + Failures(errors);
    }
  }

  /** The first intermediate file of a trail is dealt with, and what that does to the outcome. */
  lemma OneFile(job: Job, s: Trail, io: nat -> Io) returns (deeds: seq<Deed>, t: Trail)
    requires s.e.pc.Mapping? && s.e.pc.next < s.e.task.nReduce && io(s.e.pc.next) != NotCreated
    ensures Deeds(job, s, deeds) == Some(t)
    ensures t.e == s.e.(pc := Mapping(s.e.pc.kvs, s.e.pc.next + 1))
    ensures var all := MapFrom(job.ihash, s.fs, s.e.task, s.e.pc.kvs, io, s.e.pc.next);
      var rest := MapFrom(job.ihash, t.fs, s.e.task, s.e.pc.kvs, io, s.e.pc.next + 1);
      all.fs == rest.fs && s.told + all.reports == t.told + rest.reports
  {
    hide ReduceName, Bucket;
    var k, kvs := s.e.pc.next, s.e.pc.kvs;
    match io(k)
    case Whole =>
      var r := Act(job, s.fs, s.torn, s.e, WriteBucket).value;
      t := Trail(s.e.(pc := r.pc), r.fs, r.torn, s.told);
      deeds := [Do(WriteBucket)];
      assert Deeds(job, s, deeds) == Deeds(job, t, []);
    case Spoiled(content, errors) =>
      deeds, t := SpoilsOne(job, s, LeftPairs(Bucket(job.ihash, s.e.task.nReduce, k, kvs), content), errors);
      var rest := MapFrom(job.ihash, t.fs, s.e.task, kvs, io, k + 1);
      assert s.told + (Failures(errors) + rest.reports) == s.told + Failures(errors) + rest.reports;
  }

  /** A file that cannot be created ends the task. */
  lemma NoFile(job: Job, s: Trail, io: nat -> Io) returns (deeds: seq<Deed>)
    requires s.e.pc.Mapping? && s.e.pc.next < s.e.task.nReduce && io(s.e.pc.next) == NotCreated
    ensures var all := MapFrom(job.ihash, s.fs, s.e.task, s.e.pc.kvs, io, s.e.pc.next);
      LeadsTo(job, s, deeds, Outcome(all.fs, s.told + all.reports))
  {
    deeds := [Do(Fail)];
    assert Deeds(job, s, deeds) == Deeds(job, s.(e := s.e.(pc := Failed)), []);
  }

  lemma {:induction false} WritesAreDeeds(job: Job, s: Trail, io: nat -> Io) returns (deeds: seq<Deed>)
    requires s.e.pc.Mapping? && s.e.pc.next <= s.e.task.nReduce
    ensures var all := MapFrom(job.ihash, s.fs, s.e.task, s.e.pc.kvs, io, s.e.pc.next);
      LeadsTo(job, s, deeds, Outcome(all.fs, s.told + all.reports))
    decreases s.e.task.nReduce - s.e.pc.next
  {
    if s.e.pc.next == s.e.task.nReduce {
      deeds := [];
    } else if io(s.e.pc.next) == NotCreated {
      deeds := NoFile(job, s, io);
    } else {
      var first, t := OneFile(job, s, io);
      var rest := WritesAreDeeds(job, t, io);
      deeds := first + rest;
      DeedsConcat(job, s, first, rest);
    }
  }

  /** What DoMapTask leaves on the disk and reports is what a map execution of the cluster leaves and
      reports, however its writes go; and when the input cannot be read or a pair has no bucket, the
      execution fails or dies as the task does. */
  lemma MapTaskIsDeeds(job: Job, fs: map<string, Content>, torn: set<string>, e: Exec, io: nat -> Io)
    requires e.pc.Assigned?
    ensures e.task.fileName !in fs || !fs[e.task.fileName].Text? ==>
              exists deeds :: LeadsTo(job, Trail(e, fs, torn, []), deeds, Outcome(fs, [false]))
    ensures e.task.fileName in fs && fs[e.task.fileName].Text? ==>
              var kvs := job.mapf(e.task.fileName, fs[e.task.fileName].text);
              if e.task.nReduce == 0 && kvs != [] then
                exists deeds :: Deeds(job, Trail(e, fs, torn, []), deeds) == Some(Trail(e.(pc := Lost), fs, torn, []))
              else
                exists deeds :: LeadsTo(job, Trail(e, fs, torn, []), deeds, MapFrom(job.ihash, fs, e.task, kvs, io, 0))
  {
    var s := Trail(e, fs, torn, []);
    OneDeed(job, s, Fail, Trail(e.(pc := Failed), fs, torn, []));
    OneDeed(job, s, Crash, Trail(e.(pc := Lost), fs, torn, []));
    assert LeadsTo(job, s, [Do(Fail)], Outcome(fs, [false]));
    if e.task.fileName in fs && fs[e.task.fileName].Text? {
      var kvs := job.mapf(e.task.fileName, fs[e.task.fileName].text);
      if e.task.nReduce > 0 || kvs == [] { ReadableIsDeeds(job, fs, torn, e, io); }
    }
  }

  lemma OneDeed(job: Job, s: Trail, a: Action, t: Trail)
    requires Act(job, s.fs, s.torn, s.e, a) == Some(Worked(t.e.pc, t.fs, t.torn)) && t.e == s.e.(pc := t.e.pc) && t.told == s.told
    ensures Deeds(job, s, [Do(a)]) == Some(t)
  {
    assert [Do(a)][1..] == [];
    assert Deeds(job, t, []) == Some(t);
  }

  lemma ReadableIsDeeds(job: Job, fs: map<string, Content>, torn: set<string>, e: Exec, io: nat -> Io)
    requires e.pc.Assigned? && e.task.fileName in fs && fs[e.task.fileName].Text?
    requires e.task.nReduce > 0 || job.mapf(e.task.fileName, fs[e.task.fileName].text) == []
    ensures var kvs := job.mapf(e.task.fileName, fs[e.task.fileName].text);
      exists deeds :: LeadsTo(job, Trail(e, fs, torn, []), deeds, MapFrom(job.ihash, fs, e.task, kvs, io, 0))
  {
    var kvs := job.mapf(e.task.fileName, fs[e.task.fileName].text);
    var s, t := Trail(e, fs, torn, []), Trail(e.(pc := Mapping(kvs, 0)), fs, torn, []);
    var rest := WritesAreDeeds(job, t, io);
    var deeds := [Do(ReadInput(kvs))] + rest;
    OneDeed(job, s, ReadInput(kvs), t);
    DeedsConcat(job, s, [Do(ReadInput(kvs))], rest);
    var end := MapFrom(job.ihash, fs, e.task, kvs, io, 0);
    assert [] + end.reports == end.reports;
    assert LeadsTo(job, s, deeds, end);
  }

  /** The first n intermediate files are read. */
  lemma {:induction false} ReadsAreDeeds(job: Job, s: Trail, n: nat) returns (deeds: seq<Deed>, t: Trail)
    requires n <= s.e.task.nMaps && PiecesPresent(s.fs, s.e.task, n)
    requires s.e.pc.Reducing? && s.e.pc.next <= n && s.e.pc.read == PiecesRead(s.fs, s.e.task, s.e.pc.next)
    ensures Deeds(job, s, deeds) == Some(t)
    ensures t == s.(e := s.e.(pc := Reducing(n, PiecesRead(s.fs, s.e.task, n))))
    decreases n - s.e.pc.next
  {
    if s.e.pc.next == n {
      deeds, t := [], s;
    } else {
      var r := Act(job, s.fs, s.torn, s.e, ReadBucket).value;
      var rest;
      rest, t := ReadsAreDeeds(job, s.(e := s.e.(pc := r.pc)), n);
      deeds := [Do(ReadBucket)] + rest;
      assert deeds[1..] == rest;
    }
  }

  /** The files before the first one that is missing. */
  lemma {:induction false} FirstMissing(fs: map<string, Content>, t: Task, n: nat) returns (k: nat)
    requires !PiecesPresent(fs, t, n)
    ensures k < n && PiecesPresent(fs, t, k) && ReduceName(k, t.seqNo) !in fs
  {
    if PiecesPresent(fs, t, n - 1) {
      k := n - 1;
    } else {
      k := FirstMissing(fs, t, n - 1);
    }
  }

  lemma NothingReduced(reducef: (string, seq<string>) -> string, lines: seq<Line>)
    requires multiset(lines) == multiset(Reduced(reducef, []).Items)
    ensures lines == []
  {
    assert Reduced(reducef, []) == map[];
    assert |lines| == |multiset(lines)|;
  }

  lemma OutputIsDeeds(job: Job, s: Trail, io: Io, lines: seq<Line>) returns (deeds: seq<Deed>)
    requires s.e.pc.Reducing? && s.e.pc.next == s.e.task.nMaps && s.told == []
    requires multiset(lines) == multiset(Reduced(job.reducef, s.e.pc.read).Items)
    ensures LeadsTo(job, s, deeds, AfterOutput(s.fs, s.e.task, io, lines))
  {
    var name := MergeName(s.e.task.seqNo);
    ghost var left := if io.Spoiled? then LeftLines(lines, io.content) else Lines(lines);
    if s.e.pc.read == [] { NothingReduced(job.reducef, lines); }
    if io.Whole? {
      deeds := [Do(WriteOutput(lines))];
      assert Deeds(job, s, deeds) == Deeds(job, Trail(s.e.(pc := Written), s.fs[name := Lines(lines)], s.torn - {name}, []), []);
    } else if io.Spoiled? && io.errors == 0 {
      deeds := [Do(TornWrite(Some(left), Overlapped))];
      assert Deeds(job, s, deeds) == Deeds(job, Trail(s.e.(pc := Written), s.fs[name := left], s.torn + {name}, []), []);
    } else {
      var content := if io.Spoiled? then Some(left) else None;
      deeds := [Do(TornWrite(content, FailedWrite)), Tell];
      var fs := AfterOutput(s.fs, s.e.task, io, lines).fs;
      var u := Trail(s.e.(pc := TornOutput), fs, s.torn + {name}, []);
      assert deeds[1..] == [Tell] && [Tell][1..] == [];
      assert Deeds(job, s, deeds) == Deeds(job, u, [Tell]) == Deeds(job, u.(e := s.e.(pc := Written), told := [] + [false]), []);
    }
  }

  /** The same for DoReduceTask, with the output lines in any order; when a file is missing, the execution
      fails as the task does. */
  lemma ReduceTaskIsDeeds(job: Job, fs: map<string, Content>, torn: set<string>, e: Exec, io: Io, lines: seq<Line>)
    requires e.pc == Reducing(0, [])
    ensures !PiecesPresent(fs, e.task, e.task.nMaps) ==>
              exists deeds :: LeadsTo(job, Trail(e, fs, torn, []), deeds, Outcome(fs, [false]))
    ensures PiecesPresent(fs, e.task, e.task.nMaps) &&
            multiset(lines) == multiset(Reduced(job.reducef, PiecesRead(fs, e.task, e.task.nMaps)).Items) ==>
              exists deeds :: LeadsTo(job, Trail(e, fs, torn, []), deeds, AfterOutput(fs, e.task, io, lines))
  {
    var s := Trail(e, fs, torn, []);
    if !PiecesPresent(fs, e.task, e.task.nMaps) {
      var k := FirstMissing(fs, e.task, e.task.nMaps);
      var a, t := ReadsAreDeeds(job, s, k);
      OneDeed(job, t, Fail, t.(e := t.e.(pc := Failed)));
      DeedsConcat(job, s, a, [Do(Fail)]);
      assert LeadsTo(job, s, a + [Do(Fail)], Outcome(fs, [false]));
    } else if multiset(lines) == multiset(Reduced(job.reducef, PiecesRead(fs, e.task, e.task.nMaps)).Items) {
      var a, t := ReadsAreDeeds(job, s, e.task.nMaps);
      var b := OutputIsDeeds(job, t, io, lines);
      DeedsConcat(job, s, a, b);
      assert LeadsTo(job, s, a + b, AfterOutput(fs, e.task, io, lines));
    }
  }

  // ---- what else the cluster allows

  /** A write of execution e as a whole. */
  ghost predicate WritesWhole(job: Job, s: Trail, a: Action) {
    (a.WriteBucket? || a.WriteOutput?) && Act(job, s.fs, s.torn, s.e, a).Some?
  }

  /** A write can be seen in the middle, with any part of it in the file: when it is finished, nothing is
      left of that. If the worker is killed instead, the file stays as it was seen. */
  lemma SeenInTheMiddle(job: Job, s: Trail, content: Content, a: Action)
    requires CouldLeave(job, s.e, content) && WritesWhole(job, s, a)
    ensures Target(s.e).Some?
    ensures var middle, name := Do(TornWrite(Some(content), Unfinished)), Target(s.e).value;
      && Deeds(job, s, [middle, Do(a)]) == Deeds(job, s, [Do(a)]) != None
      && Deeds(job, s, [middle, Do(Crash)]) == Some(Trail(s.e.(pc := Lost), s.fs[name := content], s.torn + {name}, s.told))
  {
    hide Deeds, CouldLeave;
    var name := Target(s.e).value;
    var t := Trail(s.e, s.fs[name := content], s.torn + {name}, s.told);
    var r := Act(job, s.fs, s.torn, s.e, a).value;
    var u, lost := Trail(s.e.(pc := r.pc), r.fs, r.torn, s.told), t.(e := s.e.(pc := Lost));
    assert r.fs == s.fs[name := r.fs[name]] == t.fs[name := r.fs[name]] && t.torn - {name} == s.torn - {name};
    var first := [Do(TornWrite(Some(content), Unfinished))];
    assert first + [Do(a)] == [first[0], Do(a)] && first + [Do(Crash)] == [first[0], Do(Crash)];
    OneDeed(job, s, TornWrite(Some(content), Unfinished), t);
    OneDeed(job, s, a, u);
    OneDeed(job, t, a, u);
    OneDeed(job, t, Crash, lost);
    DeedsConcat(job, s, first, [Do(a)]);
    DeedsConcat(job, s, first, [Do(Crash)]);
  }

  /** A reduce task that has read all its files, or a map task that has dealt with all of its own; or it is over. */
  predicate PastFailing(e: Exec) {
    match e.pc
    case Reducing(next, _) => next == e.task.nMaps
    case Mapping(_, next) => next == e.task.nReduce
    case TornPiece(_, next) => next == e.task.nReduce
    case _ => e.pc.TornOutput? || e.pc.Written? || e.pc.Lost?
  }

  /** Such a task no longer fails: whatever it does and reports from then on, it ends in success, or its
      worker dies. */
  lemma {:induction false} PastFailingStays(job: Job, s: Trail, deeds: seq<Deed>)
    requires PastFailing(s.e) && Deeds(job, s, deeds).Some?
    ensures var t := Deeds(job, s, deeds).value; PastFailing(t.e) && !t.e.pc.Failed?
    decreases |deeds|
  {
    if deeds != [] {
      match deeds[0]
      case Do(a) =>
        var r := Act(job, s.fs, s.torn, s.e, a).value;
        PastFailingStays(job, Trail(s.e.(pc := r.pc), r.fs, r.torn, s.told), deeds[1..]);
      case Tell =>
        var pc := if s.e.pc.TornPiece? then Mapping(s.e.pc.kvs, s.e.pc.next) else Written;
        PastFailingStays(job, s.(e := s.e.(pc := pc), told := s.told + [false]), deeds[1..]);
    }
  }
}
