/** Key/value pairs as data: what a hash bucket keeps, which values a key has, and why
    neither partitioning, regrouping nor sorting changes what a key is reduced to. */
module Grouping {
  import opened Types

  function Keys(kvs: seq<KeyValue>): set<string> {
    set kv | kv in kvs :: kv.key
  }

  /** The values of one key, in the order in which they were emitted. */
  function Values(k: string, kvs: seq<KeyValue>): seq<string> {
    if kvs == [] then [] else
      (if kvs[0].key == k then [kvs[0].value] else []) + Values(k, kvs[1..])
  }

  /** The reduce task a key belongs to; with no reduce tasks it belongs to none. */
  predicate InPart(ihash: string -> nat, nReduce: nat, r: nat, k: string) {
    nReduce > 0 && ihash(k) % nReduce == r
  }

  /** The pairs that belong to reduce task r, in order. */
  function Bucket(ihash: string -> nat, nReduce: nat, r: nat, kvs: seq<KeyValue>): seq<KeyValue> {
    if kvs == [] then [] else
      (if InPart(ihash, nReduce, r, kvs[0].key) then [kvs[0]] else []) + Bucket(ihash, nReduce, r, kvs[1..])
  }

  function Concat(parts: seq<seq<KeyValue>>): seq<KeyValue> {
    if parts == [] then [] else Concat(parts[..|parts| - 1]) + parts[|parts| - 1]
  }

  /** Each key with what reduce returns for all of its values. */
  function Reduced(reducef: (string, seq<string>) -> string, kvs: seq<KeyValue>): map<string, string> {
    map k | k in Keys(kvs) :: reducef(k, Values(k, kvs))
  }

  /** The reduce function looks at the values of a key only as a multiset. */
  ghost predicate OrderInsensitive(reducef: (string, seq<string>) -> string) {
    forall k, a, b :: multiset(a) == multiset(b) ==> reducef(k, a) == reducef(k, b)
  }

  // ---- concatenation

  lemma {:induction false} ValuesConcat(k: string, a: seq<KeyValue>, b: seq<KeyValue>)
    ensures Values(k, a + b) == Values(k, a) + Values(k, b)
  {
    if a == [] {
      assert a + b == b;
    } else {
      assert (a + b)[1..] == a[1..] + b;
      ValuesConcat(k, a[1..], b);
    }
  }

  lemma Reassociate(a: seq<KeyValue>, b: seq<KeyValue>, c: seq<KeyValue>)
    ensures a + (b + c) == (a + b) + c
  {
  }

  lemma {:induction false} BucketConcat(ihash: string -> nat, n: nat, r: nat, a: seq<KeyValue>, b: seq<KeyValue>)
    ensures Bucket(ihash, n, r, a + b) == Bucket(ihash, n, r, a) + Bucket(ihash, n, r, b)
  {
    hide InPart;
    if a == [] {
      assert a + b == b;
    } else {
      assert (a + b)[0] == a[0] && (a + b)[1..] == a[1..] + b;
      BucketConcat(ihash, n, r, a[1..], b);
      var head := if InPart(ihash, n, r, a[0].key) then [a[0]] else [];
      Reassociate(head, Bucket(ihash, n, r, a[1..]), Bucket(ihash, n, r, b));
    }
  }

  lemma KeysConcat(a: seq<KeyValue>, b: seq<KeyValue>)
    ensures Keys(a + b) == Keys(a) + Keys(b)
  {
    assert forall kv :: kv in a + b <==> kv in a || kv in b;
  }

  // ---- counting

  lemma {:induction false} ValuesCount(k: string, v: string, kvs: seq<KeyValue>)
    ensures multiset(Values(k, kvs))[v] == multiset(kvs)[KeyValue(k, v)]
  {
    if kvs != [] {
      assert kvs == [kvs[0]] + kvs[1..];
      ValuesCount(k, v, kvs[1..]);
    }
  }

  lemma {:induction false} BucketCount(ihash: string -> nat, n: nat, r: nat, kv: KeyValue, kvs: seq<KeyValue>)
    ensures multiset(Bucket(ihash, n, r, kvs))[kv] ==
            if InPart(ihash, n, r, kv.key) then multiset(kvs)[kv] else 0
  {
    if kvs != [] {
      assert kvs == [kvs[0]] + kvs[1..];
      BucketCount(ihash, n, r, kv, kvs[1..]);
    }
  }

  // ---- permutations

  lemma KeysPermute(a: seq<KeyValue>, b: seq<KeyValue>)
    requires multiset(a) == multiset(b)
    ensures Keys(a) == Keys(b)
  {
    assert forall kv :: kv in a <==> kv in multiset(a);
    assert forall kv :: kv in b <==> kv in multiset(b);
  }

  lemma ValuesPermute(k: string, a: seq<KeyValue>, b: seq<KeyValue>)
    requires multiset(a) == multiset(b)
    ensures multiset(Values(k, a)) == multiset(Values(k, b))
  {
    forall v ensures multiset(Values(k, a))[v] == multiset(Values(k, b))[v] {
      ValuesCount(k, v, a);
      ValuesCount(k, v, b);
    }
  }

  lemma BucketPermute(ihash: string -> nat, n: nat, r: nat, a: seq<KeyValue>, b: seq<KeyValue>)
    requires multiset(a) == multiset(b)
    ensures multiset(Bucket(ihash, n, r, a)) == multiset(Bucket(ihash, n, r, b))
  {
    forall kv ensures multiset(Bucket(ihash, n, r, a))[kv] == multiset(Bucket(ihash, n, r, b))[kv] {
      BucketCount(ihash, n, r, kv, a);
      BucketCount(ihash, n, r, kv, b);
    }
  }

  lemma ReducedPermute(reducef: (string, seq<string>) -> string, a: seq<KeyValue>, b: seq<KeyValue>)
    requires OrderInsensitive(reducef)
    requires multiset(a) == multiset(b)
    ensures Reduced(reducef, a) == Reduced(reducef, b)
  {
    KeysPermute(a, b);
    forall k | k in Keys(a) ensures Reduced(reducef, a)[k] == Reduced(reducef, b)[k] {
      ValuesPermute(k, a, b);
    }
  }

  // ---- what one bucket knows

  lemma {:induction false} ValuesOfBucket(ihash: string -> nat, n: nat, r: nat, k: string, kvs: seq<KeyValue>)
    ensures Values(k, Bucket(ihash, n, r, kvs)) == if InPart(ihash, n, r, k) then Values(k, kvs) else []
  {
    if kvs != [] {
      ValuesOfBucket(ihash, n, r, k, kvs[1..]);
      var head := if InPart(ihash, n, r, kvs[0].key) then [kvs[0]] else [];
      ValuesConcat(k, head, Bucket(ihash, n, r, kvs[1..]));
    }
  }

  lemma KeysOfBucket(ihash: string -> nat, n: nat, r: nat, kvs: seq<KeyValue>)
    ensures Keys(Bucket(ihash, n, r, kvs)) == set k | k in Keys(kvs) && InPart(ihash, n, r, k)
  {
    forall kv ensures kv in Bucket(ihash, n, r, kvs) <==> kv in kvs && InPart(ihash, n, r, kv.key) {
      BucketCount(ihash, n, r, kv, kvs);
      assert kv in kvs <==> multiset(kvs)[kv] > 0;
      assert kv in Bucket(ihash, n, r, kvs) <==> multiset(Bucket(ihash, n, r, kvs))[kv] > 0;
    }
  }

  /** The part of a reduction that belongs to reduce task r. */
  function PartOf(ihash: string -> nat, n: nat, r: nat, m: map<string, string>): map<string, string> {
    map k | k in m && InPart(ihash, n, r, k) :: m[k]
  }

  /** Reducing a bucket gives what reducing everything gives, cut down to the keys of that bucket. */
  lemma ReducedBucket(reducef: (string, seq<string>) -> string, ihash: string -> nat, n: nat, r: nat, kvs: seq<KeyValue>)
    ensures Reduced(reducef, Bucket(ihash, n, r, kvs)) == PartOf(ihash, n, r, Reduced(reducef, kvs))
  {
    KeysOfBucket(ihash, n, r, kvs);
    forall k | k in Keys(kvs) && InPart(ihash, n, r, k)
      ensures Values(k, Bucket(ihash, n, r, kvs)) == Values(k, kvs)
    {
      ValuesOfBucket(ihash, n, r, k, kvs);
    }
  }

  // ---- the buckets together

  /** The lines of the first m parts, counted together. */
  function PartsUpTo(ihash: string -> nat, n: nat, m: nat, all: map<string, string>): multiset<Line> {
    if m == 0 then multiset{} else
      PartsUpTo(ihash, n, m - 1, all) + multiset(PartOf(ihash, n, m - 1, all).Items)
  }

  lemma SplitItems(whole: map<string, string>, a: map<string, string>, b: map<string, string>)
    requires a.Keys !! b.Keys
    requires whole == a + b
    ensures multiset(whole.Items) == multiset(a.Items) + multiset(b.Items)
  {
    forall x: Line ensures x in whole.Items <==> x in a.Items || x in b.Items {
      assert x in whole.Items <==> x.0 in whole && whole[x.0] == x.1;
      assert x in a.Items <==> x.0 in a && a[x.0] == x.1;
      assert x in b.Items <==> x.0 in b && b[x.0] == x.1;
    }
    assert forall x: Line :: x in a.Items ==> x.0 in a.Keys;
    assert forall x: Line :: x in b.Items ==> x.0 in b.Keys;
  }

  /** The keys of the parts before m. */
  function Below(ihash: string -> nat, n: nat, m: nat, all: map<string, string>): map<string, string>
    requires n > 0
  {
    map k | k in all && ihash(k) % n < m :: all[k]
  }

  lemma BelowStep(ihash: string -> nat, n: nat, m: nat, all: map<string, string>)
    requires n > 0 && m > 0
    ensures Below(ihash, n, m, all) == Below(ihash, n, m - 1, all) + PartOf(ihash, n, m - 1, all)
    ensures Below(ihash, n, m - 1, all).Keys !! PartOf(ihash, n, m - 1, all).Keys
  {
    forall k | k in all
      ensures k in Below(ihash, n, m, all) <==> k in Below(ihash, n, m - 1, all) || k in PartOf(ihash, n, m - 1, all)
    {
      var p := ihash(k) % n;
      assert p < m <==> p < m - 1 || p == m - 1;
    }
  }

  lemma {:induction false} PartsUpToIsBelow(ihash: string -> nat, n: nat, m: nat, all: map<string, string>)
    requires n > 0
    ensures PartsUpTo(ihash, n, m, all) == multiset(Below(ihash, n, m, all).Items)
  {
    if m == 0 {
      assert Below(ihash, n, m, all) == map[];
    } else {
      PartsUpToIsBelow(ihash, n, m - 1, all);
      BelowStep(ihash, n, m, all);
      SplitItems(Below(ihash, n, m, all), Below(ihash, n, m - 1, all), PartOf(ihash, n, m - 1, all));
    }
  }

  /** Every key is in exactly one part, so the parts together are the whole. */
  lemma PartsAreTheWhole(ihash: string -> nat, n: nat, all: map<string, string>)
    requires n > 0
    ensures PartsUpTo(ihash, n, n, all) == multiset(all.Items)
  {
    PartsUpToIsBelow(ihash, n, n, all);
    assert Below(ihash, n, n, all) == all;
  }

  // ---- partition, then regroup

  /** The r-th intermediate file of every map output, in map order. */
  function Pieces(ihash: string -> nat, n: nat, r: nat, outputs: seq<seq<KeyValue>>): seq<seq<KeyValue>> {
    seq(|outputs|, i requires 0 <= i < |outputs| => Bucket(ihash, n, r, outputs[i]))
  }

  lemma {:induction false} ConcatPieces(ihash: string -> nat, n: nat, r: nat, outputs: seq<seq<KeyValue>>)
    ensures Concat(Pieces(ihash, n, r, outputs)) == Bucket(ihash, n, r, Concat(outputs))
  {
    if outputs != [] {
      var front := outputs[..|outputs| - 1];
      ConcatPieces(ihash, n, r, front);
      assert Pieces(ihash, n, r, outputs)[..|outputs| - 1] == Pieces(ihash, n, r, front);
      BucketConcat(ihash, n, r, Concat(front), outputs[|outputs| - 1]);
    }
  }

  /** Partitioning every map output by hash and regrouping the r-th pieces in map order gives each
      key of part r exactly its values, in map order and then emission order, and gives every other
      key nothing; each key is in one part, whose number is in range. */
  lemma PartitionThenRegroup(ihash: string -> nat, n: nat, r: nat, k: string, outputs: seq<seq<KeyValue>>)
    requires n > 0
    ensures 0 <= ihash(k) % n < n
    ensures Values(k, Concat(Pieces(ihash, n, r, outputs))) ==
            if r == ihash(k) % n then Values(k, Concat(outputs)) else []
    ensures k in Keys(Concat(Pieces(ihash, n, r, outputs))) <==>
            r == ihash(k) % n && k in Keys(Concat(outputs))
  {
    ConcatPieces(ihash, n, r, outputs);
    ValuesOfBucket(ihash, n, r, k, Concat(outputs));
    KeysOfBucket(ihash, n, r, Concat(outputs));
  }
}
