/** The two shipped applications: word count and inverted index. */
module Apps {
  import opened Types
  import opened Naming
  import opened Grouping
  import opened Jobs
  import opened Strings
  import opened ClusterSpec
  import opened Refinement

  // ---- words

  /** strings.FieldsFunc with "not a letter" as the separator: the maximal stretches of letters. word
      is the stretch that is open. */
  function Fields(isLetter: char -> bool, s: string, word: string): seq<string> {
    if s == [] then
      if word == [] then [] else [word]
    else if isLetter(s[0]) then
      Fields(isLetter, s[1..], word + [s[0]])
    else
      (if word == [] then [] else [word]) + Fields(isLetter, s[1..], [])
  }

  function Words(isLetter: char -> bool, s: string): seq<string> {
    Fields(isLetter, s, [])
  }

  /** A maximal stretch of letters. */
  ghost predicate IsStretch(isLetter: char -> bool, s: string, b: nat, e: nat) {
    && b < e <= |s|
    && (forall i | b <= i < e :: isLetter(s[i]))
    && (b > 0 ==> !isLetter(s[b - 1]))
    && (e < |s| ==> !isLetter(s[e]))
  }

  /** The words are the stretches at these bounds, from position p on and in this order. */
  ghost predicate StandAt(isLetter: char -> bool, s: string, p: nat, words: seq<string>, at: seq<(nat, nat)>) {
    && |at| == |words|
    && (forall k | 0 <= k < |at| :: p <= at[k].0 && IsStretch(isLetter, s, at[k].0, at[k].1) && words[k] == s[at[k].0..at[k].1])
    && (forall k | 0 <= k < |at| - 1 :: at[k].1 < at[k + 1].0)
    && (forall i | p <= i < |s| && isLetter(s[i]) :: Covered(at, i))
  }

  ghost predicate Covered(at: seq<(nat, nat)>, i: int) {
    exists k :: 0 <= k < |at| && at[k].0 <= i < at[k].1
  }

  /** The words of a text are exactly its maximal stretches of letters, from left to right. */
  lemma WordsAreTheStretches(isLetter: char -> bool, s: string) returns (at: seq<(nat, nat)>)
    ensures StandAt(isLetter, s, 0, Words(isLetter, s), at)
  {
    assert s[0..] == s;
    at := FieldsFrom(isLetter, s, 0, 0);
  }

  /** The same from position p, where the stretch p..q is open. */
  lemma {:induction false} FieldsFrom(isLetter: char -> bool, s: string, p: nat, q: nat) returns (at: seq<(nat, nat)>)
    requires p <= q <= |s| && (forall i | p <= i < q :: isLetter(s[i])) && (p > 0 ==> !isLetter(s[p - 1]))
    ensures StandAt(isLetter, s, p, Fields(isLetter, s[q..], s[p..q]), at)
    decreases |s| - q
  {
    hide StandAt;
    if q == |s| {
      assert s[q..] == [] && s[p..q] == s[p..];
      at := LastStretch(isLetter, s, p);
    } else if isLetter(s[q]) {
      assert s[p..q + 1] == s[p..q] + [s[q]] && s[q..][1..] == s[q + 1..];
      at := FieldsFrom(isLetter, s, p, q + 1);
    } else {
      assert s[q + 1..q + 1] == [] && s[q..][1..] == s[q + 1..];
      var rest := FieldsFrom(isLetter, s, q + 1, q + 1);
      at := if p == q then rest else [(p, q)] + rest;
      assert [] + Fields(isLetter, s[q + 1..], []) == Fields(isLetter, s[q + 1..], []);
      StretchFirst(isLetter, s, p, q, Fields(isLetter, s[q + 1..], []), rest);
    }
  }

  /** A stretch that the end of the text closes. */
  lemma LastStretch(isLetter: char -> bool, s: string, p: nat) returns (at: seq<(nat, nat)>)
    requires p <= |s| && (forall i | p <= i < |s| :: isLetter(s[i])) && (p > 0 ==> !isLetter(s[p - 1]))
    ensures StandAt(isLetter, s, p, Fields(isLetter, [], s[p..]), at)
  {
    hide Covered;
    at := if p == |s| then [] else [(p, |s|)] + [];
    forall i | p <= i < |s| && isLetter(s[i]) ensures Covered(at, i) { CoveredToo((p, |s|), [], i); }
  }

  /** A stretch that is closed, before those that follow it. */
  lemma StretchFirst(isLetter: char -> bool, s: string, p: nat, q: nat, words: seq<string>, rest: seq<(nat, nat)>)
    requires p <= q < |s| && (forall i | p <= i < q :: isLetter(s[i])) && (p > 0 ==> !isLetter(s[p - 1])) && !isLetter(s[q])
    requires StandAt(isLetter, s, q + 1, words, rest)
    ensures p == q ==> StandAt(isLetter, s, p, words, rest)
    ensures p < q ==> StandAt(isLetter, s, p, [s[p..q]] + words, [(p, q)] + rest)
  {
    hide Covered, IsStretch;
    if p < q {
      ClosedStretch(isLetter, s, p, q);
      forall i | p <= i < |s| && isLetter(s[i]) ensures Covered([(p, q)] + rest, i) {
        CoveredToo((p, q), rest, i);
      }
    }
  }

  lemma ClosedStretch(isLetter: char -> bool, s: string, p: nat, q: nat)
    requires p < q < |s| && (forall i | p <= i < q :: isLetter(s[i])) && (p > 0 ==> !isLetter(s[p - 1])) && !isLetter(s[q])
    ensures IsStretch(isLetter, s, p, q)
  {
  }

  lemma CoveredToo(first: (nat, nat), rest: seq<(nat, nat)>, i: int)
    ensures first.0 <= i < first.1 || Covered(rest, i) ==> Covered([first] + rest, i)
  {
    var at := [first] + rest;
    if first.0 <= i < first.1 {
      assert at[0].0 <= i < at[0].1;
    } else if Covered(rest, i) {
      var k :| 0 <= k < |rest| && rest[k].0 <= i < rest[k].1;
      assert at[k + 1].0 <= i < at[k + 1].1;
    }
  }

  function Count(w: string, words: seq<string>): nat {
    multiset(words)[w]
  }

  // ---- word count

  function WcPairs(words: seq<string>): (kva: seq<KeyValue>)
    ensures |kva| == |words|
  {
    seq(|words|, i requires 0 <= i < |words| => KeyValue(words[i], "1"))
  }

  method WcMap(isLetter: char -> bool, contents: string) returns (kva: seq<KeyValue>)
    ensures kva == WcPairs(Words(isLetter, contents))
    ensures |kva| == |Words(isLetter, contents)|
    ensures forall k | 0 <= k < |kva| :: kva[k].key == Words(isLetter, contents)[k] && kva[k].value == "1"
  {
    var words := Words(isLetter, contents);
    kva := [];
    for i := 0 to |words|
      invariant kva == WcPairs(words[..i])
    {
      kva := kva + [KeyValue(words[i], "1")];
    }
  }

  function WcReduce(key: string, values: seq<string>): string {
    Itoa(|values|)
  }

  ghost predicate IsWordCount(job: Job, isLetter: char -> bool) {
    && (forall f, text :: job.mapf(f, text) == WcPairs(Words(isLetter, text)))
    && (forall k, values :: job.reducef(k, values) == WcReduce(k, values))
  }

  lemma WcOrderInsensitive(job: Job, isLetter: char -> bool)
    requires IsWordCount(job, isLetter)
    ensures OrderInsensitive(job.reducef)
  {
    forall k, a, b | multiset(a) == multiset(b) ensures job.reducef(k, a) == job.reducef(k, b) {
      assert |a| == |multiset(a)| == |multiset(b)| == |b|;
    }
  }

  function InputText(job: Job, i: nat): string
    requires i < |job.files|
  {
    if Readable(job, i) then job.disk[job.files[i]].text else ""
  }

  /** How often a word occurs in the first n inputs. */
  function Occurrences(job: Job, isLetter: char -> bool, w: string, n: nat): nat
    requires n <= |job.files|
  {
    if n == 0 then 0 else
      Occurrences(job, isLetter, w, n - 1) + Count(w, Words(isLetter, InputText(job, n - 1)))
  }

  lemma {:induction false} WcValues(w: string, words: seq<string>)
    ensures |Values(w, WcPairs(words))| == Count(w, words)
  {
    if words != [] {
      WcValues(w, words[1..]);
      assert WcPairs(words)[1..] == WcPairs(words[1..]);
      assert words == [words[0]] + words[1..];
    }
  }

  lemma NoInput(job: Job, w: string)
    ensures Values(w, Emitted(job, 0)) == []
  {
    assert Outputs(job, 0) == [];
  }

  /** What one more input adds to the values of a word. */
  lemma OneMoreInput(job: Job, w: string, n: nat)
    requires n < |job.files|
    ensures Values(w, Emitted(job, n + 1)) == Values(w, Emitted(job, n)) + Values(w, MapOut(job, n))
  {
    hide Values, MapOut;
    assert Outputs(job, n + 1)[..n] == Outputs(job, n);
    ValuesConcat(w, Emitted(job, n), MapOut(job, n));
  }

  lemma WcMapOut(job: Job, isLetter: char -> bool, w: string, i: nat)
    requires IsWordCount(job, isLetter) && i < |job.files| && Readable(job, i)
    ensures |Values(w, MapOut(job, i))| == Count(w, Words(isLetter, InputText(job, i)))
  {
    WcValues(w, Words(isLetter, InputText(job, i)));
  }

  lemma {:induction false} WcEmitted(job: Job, isLetter: char -> bool, w: string, n: nat)
    requires IsWordCount(job, isLetter) && n <= |job.files|
    requires forall i | 0 <= i < n :: Readable(job, i)
    ensures |Values(w, Emitted(job, n))| == Occurrences(job, isLetter, w, n)
  {
    hide IsWordCount, Values, MapOut, Emitted, Words, InputText, Readable;
    if n == 0 {
      NoInput(job, w);
    } else {
      WcEmitted(job, isLetter, w, n - 1);
      OneMoreInput(job, w, n - 1);
      assert Readable(job, n - 1);
      WcMapOut(job, isLetter, w, n - 1);
    }
  }

  lemma {:induction false} KeyHasValues(k: string, kvs: seq<KeyValue>)
    ensures k in Keys(kvs) <==> Values(k, kvs) != []
  {
    if kvs != [] {
      KeyHasValues(k, kvs[1..]);
      assert kvs == [kvs[0]] + kvs[1..];
      KeysConcat([kvs[0]], kvs[1..]);
      assert Keys([kvs[0]]) == {kvs[0].key} by { assert kvs[0] in [kvs[0]]; }
    }
  }

  /** A cleanly finished word count job has, for each word that occurs in the inputs, exactly
      one line, with the number of its occurrences over all inputs, and no other line. */
  lemma WordCountCounts(job: Job, isLetter: char -> bool, events: seq<Event>, w: string, x: string)
    requires IsWordCount(job, isLetter) && NoClash(job) && FinishedClean(job, events)
    ensures var total := Occurrences(job, isLetter, w, |job.files|);
      OutputLines(Play(job, InitCluster(job), events).value.fs, job.nReduce)[(w, x)] ==
      if total > 0 && x == Itoa(total) then 1 else 0
  {
    WcOrderInsensitive(job, isLetter);
    DoneOutputs(job, events);
    forall i | 0 <= i < |job.files| ensures Readable(job, i) { assert InputOk(job, i); }
    var n := |job.files|;
    WcEmitted(job, isLetter, w, n);
    KeyHasValues(w, Emitted(job, n));
    LineCount(job.reducef, Emitted(job, n), w, x);
  }

  // ---- sorting strings

  ghost predicate Sorted(s: seq<string>) {
    forall i, j | 0 <= i < j < |s| :: Leq(s[i], s[j])
  }

  function Insert(x: string, s: seq<string>): seq<string> {
    if s == [] || Leq(x, s[0]) then [x] + s else [s[0]] + Insert(x, s[1..])
  }

  function Sort(s: seq<string>): seq<string> {
    if s == [] then [] else Insert(s[0], Sort(s[1..]))
  }

  lemma {:induction false} InsertSorts(x: string, s: seq<string>)
    requires Sorted(s)
    ensures Sorted(Insert(x, s)) && multiset(Insert(x, s)) == multiset(s) + multiset{x}
  {
    if s == [] {
    } else if Leq(x, s[0]) {
      forall j | 0 <= j < |s| ensures Leq(x, s[j]) {
        if j > 0 { LeqTransitive(x, s[0], s[j]); }
      }
    } else {
      InsertSorts(x, s[1..]);
      assert s == [s[0]] + s[1..];
      LeqTotal(x, s[0]);
      var rest := Insert(x, s[1..]);
      forall j | 0 <= j < |rest| ensures Leq(s[0], rest[j]) {
        assert rest[j] in multiset(rest);
        assert rest[j] == x || rest[j] in s[1..];
      }
    }
  }

  lemma {:induction false} SortSorts(s: seq<string>)
    ensures Sorted(Sort(s)) && multiset(Sort(s)) == multiset(s)
  {
    if s != [] {
      SortSorts(s[1..]);
      InsertSorts(s[0], Sort(s[1..]));
      assert s == [s[0]] + s[1..];
    }
  }

  lemma HeadIsLeast(s: seq<string>, x: string)
    requires Sorted(s) && x in multiset(s)
    ensures s != [] && Leq(s[0], x)
  {
    var i :| 0 <= i < |s| && s[i] == x;
    LeqReflexive(x);
  }

  lemma Tail(s: seq<string>)
    requires Sorted(s) && s != []
    ensures Sorted(s[1..]) && multiset(s[1..]) == multiset(s) - multiset{s[0]} && s == [s[0]] + s[1..]
    ensures s[0] in multiset(s)
  {
    assert s == [s[0]] + s[1..];
  }

  /** A multiset of strings has one sorted form only. */
  lemma {:induction false} SortedFormIsUnique(a: seq<string>, b: seq<string>)
    requires Sorted(a) && Sorted(b) && multiset(a) == multiset(b)
    ensures a == b
  {
    if a == [] {
      assert |multiset(b)| == 0;
    } else {
      Tail(a);
      HeadIsLeast(b, a[0]);
      Tail(b);
      HeadIsLeast(a, b[0]);
      LeqAntisymmetric(a[0], b[0]);
      SortedFormIsUnique(a[1..], b[1..]);
    }
  }

  // ---- inverted index

  /** The words without repetitions, in one of the orders that they may come in. */
  function Distinct(words: seq<string>): seq<string> {
    if words == [] then [] else
    var front, w := words[..|words| - 1], words[|words| - 1];
    Distinct(front) + if w in front then [] else [w]
  }

  function IndexPairs(document: string, words: seq<string>): (res: seq<KeyValue>)
    ensures |res| == |words|
  {
    seq(|words|, i requires 0 <= i < |words| => KeyValue(words[i], document))
  }

  lemma {:induction false} DistinctCount(words: seq<string>, w: string)
    ensures multiset(Distinct(words))[w] == if w in words then 1 else 0
  {
    if words != [] {
      var front := words[..|words| - 1];
      DistinctCount(front, w);
      assert words == front + [words[|words| - 1]];
    }
  }

  lemma {:induction false} IndexPairsCount(document: string, words: seq<string>, kv: KeyValue)
    ensures multiset(IndexPairs(document, words))[kv] == if kv.value == document then multiset(words)[kv.key] else 0
  {
    if words != [] {
      IndexPairsCount(document, words[1..], kv);
      assert IndexPairs(document, words) == [KeyValue(words[0], document)] + IndexPairs(document, words[1..]);
      assert words == [words[0]] + words[1..];
    }
  }

  /** Collects the words in a set and emits them in whatever order the set gives them. */
  method IndexMap(isLetter: char -> bool, document: string, value: string) returns (res: seq<KeyValue>)
    ensures multiset(res) == multiset(IndexPairs(document, Distinct(Words(isLetter, value))))
    ensures forall kv :: multiset(res)[kv] == if kv.value == document && kv.key in Words(isLetter, value) then 1 else 0
  {
    var words := Words(isLetter, value);
    var m: set<string> := {};
    for i := 0 to |words|
      invariant m == set w | w in words[..i]
    {
      assert words[..i + 1] == words[..i] + [words[i]];
      m := m + {words[i]};
    }
    assert words[..|words|] == words;
    res := [];
    var left := m;
    while left != {}
      invariant left <= m
      invariant forall kv :: multiset(res)[kv] == if kv.value == document && kv.key in m - left then 1 else 0
      decreases left
    {
      var w :| w in left;
      left := left - {w};
      res := res + [KeyValue(w, document)];
    }
    forall kv ensures multiset(res)[kv] == multiset(IndexPairs(document, Distinct(words)))[kv] {
      IndexPairsCount(document, Distinct(words), kv);
      DistinctCount(words, kv.key);
    }
  }

  function IndexReduce(key: string, values: seq<string>): string {
    Itoa(|values|) + " " + Join(Sort(values), ",")
  }

  ghost predicate SortsStrings(sort: seq<string> -> seq<string>) {
    forall s :: multiset(sort(s)) == multiset(s) && Sorted(sort(s))
  }

  /** Reduce sorts its values in place; whichever sort it uses, the result is the same. */
  method IndexReduceInPlace(key: string, values: array<string>, sort: seq<string> -> seq<string>) returns (r: string)
    requires SortsStrings(sort)
    modifies values
    ensures r == IndexReduce(key, old(values[..]))
    ensures Sorted(values[..]) && multiset(values[..]) == multiset(old(values[..]))
  {
    var sorted := sort(values[..]);
    assert |sorted| == |multiset(sorted)| == |multiset(values[..])| == values.Length;
    SortSorts(values[..]);
    SortedFormIsUnique(sorted, Sort(values[..]));
    forall i | 0 <= i < values.Length {
      values[i] := sorted[i];
    }
    assert values[..] == sorted;
    r := Itoa(values.Length) + " " + Join(values[..], ",");
  }

  ghost predicate IsIndexer(job: Job, isLetter: char -> bool) {
    && (forall f, text :: job.mapf(f, text) == IndexPairs(f, Distinct(Words(isLetter, text))))
    && (forall k, values :: job.reducef(k, values) == IndexReduce(k, values))
  }

  lemma IndexOrderInsensitive(job: Job, isLetter: char -> bool)
    requires IsIndexer(job, isLetter)
    ensures OrderInsensitive(job.reducef)
  {
    forall k, a, b | multiset(a) == multiset(b) ensures job.reducef(k, a) == job.reducef(k, b) {
      assert |a| == |multiset(a)| == |multiset(b)| == |b|;
      SortSorts(a);
      SortSorts(b);
      SortedFormIsUnique(Sort(a), Sort(b));
    }
  }

  /** The inputs among the first n that contain a word. */
  function Documents(job: Job, isLetter: char -> bool, w: string, n: nat): seq<string>
    requires n <= |job.files|
  {
    if n == 0 then [] else
      Documents(job, isLetter, w, n - 1) + if w in Words(isLetter, InputText(job, n - 1)) then [job.files[n - 1]] else []
  }

  lemma {:induction false} IndexValues(document: string, words: seq<string>, w: string)
    ensures Values(w, IndexPairs(document, words)) == seq(multiset(words)[w], i => document)
  {
    if words != [] {
      IndexValues(document, words[1..], w);
      assert IndexPairs(document, words)[1..] == IndexPairs(document, words[1..]);
      assert words == [words[0]] + words[1..];
    }
  }

  lemma IndexMapOut(job: Job, isLetter: char -> bool, w: string, i: nat)
    requires IsIndexer(job, isLetter) && i < |job.files| && Readable(job, i)
    ensures Values(w, MapOut(job, i)) == if w in Words(isLetter, InputText(job, i)) then [job.files[i]] else []
  {
    var words := Words(isLetter, InputText(job, i));
    IndexValues(job.files[i], Distinct(words), w);
    DistinctCount(words, w);
  }

  lemma {:induction false} IndexEmitted(job: Job, isLetter: char -> bool, w: string, n: nat)
    requires IsIndexer(job, isLetter) && n <= |job.files|
    requires forall i | 0 <= i < n :: Readable(job, i)
    ensures Values(w, Emitted(job, n)) == Documents(job, isLetter, w, n)
  {
    hide IsIndexer, Values, MapOut, Emitted, Words, InputText, Readable;
    if n == 0 {
      NoInput(job, w);
    } else {
      IndexEmitted(job, isLetter, w, n - 1);
      OneMoreInput(job, w, n - 1);
      assert Readable(job, n - 1);
      IndexMapOut(job, isLetter, w, n - 1);
    }
  }

  /** A cleanly finished index job has, for each word that occurs in the inputs, exactly one
      line, with the number of inputs that contain it and their sorted names, and no other line. */
  lemma IndexLists(job: Job, isLetter: char -> bool, events: seq<Event>, w: string, x: string)
    requires IsIndexer(job, isLetter) && NoClash(job) && FinishedClean(job, events)
    ensures var docs := Documents(job, isLetter, w, |job.files|);
      OutputLines(Play(job, InitCluster(job), events).value.fs, job.nReduce)[(w, x)] ==
      if docs != [] && x == Itoa(|docs|) + " " + Join(Sort(docs), ",") then 1 else 0
  {
    IndexOrderInsensitive(job, isLetter);
    DoneOutputs(job, events);
    forall i | 0 <= i < |job.files| ensures Readable(job, i) { assert InputOk(job, i); }
    var n := |job.files|;
    IndexEmitted(job, isLetter, w, n);
    KeyHasValues(w, Emitted(job, n));
    LineCount(job.reducef, Emitted(job, n), w, x);
  }
}
