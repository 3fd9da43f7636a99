/** Runs in which no report that is acted on finds its task queued. Exactly in these runs the
    tokens match the statuses at all times, and everything that hinges on tokens follows. */
module TimelyRuns {
  import opened Types
  import opened MasterSpec
  import opened Protocol
  import opened Effects
  import opened Invariants

  /** How many tokens there should be of a task: one if it is queued in the current phase, else none. */
  function Due(m: MasterState, t: Task): nat
    requires InRange(m)
  {
    if t.phase == m.phase && t.seqNo < |m.stats| && t == TokenOf(m, t.seqNo) && m.stats[t.seqNo].status == Queue
    then 1 else 0
  }

  ghost predicate TokenInv(c: Control)
    requires InRange(c.m)
  {
    forall t: Task :: Tokens(c)[t] == Due(c.m, t)
  }

  /** A report that is acted on although its task was requeued in the meantime. */
  predicate Late(c: Control, st: Step) {
    && st.Report? && st.exec < |c.execs|
    && var e := c.execs[st.exec];
    && Accepts(c.m, e.worker, e.task.seqNo, e.task.phase)
    && c.m.stats[e.task.seqNo].status == Queue
  }

  predicate Timely(c: Control, steps: seq<Step>)
    requires Run(c, steps).Some?
  {
    steps == [] ||
    (Timely(c, steps[..|steps| - 1]) && !Late(Run(c, steps[..|steps| - 1]).value, steps[|steps| - 1]))
  }

  lemma InitTokenInv(files: seq<string>, nReduce: nat)
    ensures TokenInv(InitControl(files, nReduce))
  {
  }

  // ---- one step

  lemma SentKeeps(c: Control, e: Effect, c': Control)
    requires Inv(c) && TokenInv(c) && Changes(c, e, c') && InRange(c'.m) && e.Sent?
    ensures TokenInv(c')
  {
    hide Tokens;
    TokensChange(c, e, c');
    forall t: Task ensures Tokens(c')[t] == Due(c'.m, t) {
      assert Tokens(c)[t] == Due(c.m, t);
      if t.phase == c.m.phase && t.seqNo < |c.m.stats| {
        assert TokenOf(c'.m, t.seqNo) == TokenOf(c.m, t.seqNo);
      }
    }
  }

  lemma HandedKeeps(c: Control, e: Effect, c': Control)
    requires Inv(c) && TokenInv(c) && Changes(c, e, c') && InRange(c'.m) && e.Handed?
    ensures TokenInv(c')
  {
    hide Tokens;
    TokensChange(c, e, c');
    var i := c.hands[e.h].task.seqNo;
    assert Tokens(c)[c.hands[e.h].task] == Due(c.m, c.hands[e.h].task) == 1;
    forall t: Task ensures Tokens(c')[t] == Due(c'.m, t) {
      assert Tokens(c)[t] == Due(c.m, t);
      if t.phase == c.m.phase && t.seqNo < |c.m.stats| {
        assert TokenOf(c'.m, t.seqNo) == TokenOf(c.m, t.seqNo);
      }
    }
  }

  lemma SwitchedKeeps(c: Control, e: Effect, c': Control)
    requires Inv(c) && TokenInv(c) && Changes(c, e, c') && InRange(c'.m) && e.Switched?
    requires forall i | 0 <= i < |c.m.stats| :: c.m.stats[i].status == Finish
    ensures TokenInv(c')
  {
    hide Tokens;
    TokensChange(c, e, c');
    forall t: Task ensures Tokens(c')[t] == Due(c'.m, t) {
      assert Tokens(c)[t] == Due(c.m, t) == 0;
    }
  }

  lemma SettledKeepsUnlessLate(c: Control, e: Effect, c': Control)
    requires Inv(c) && TokenInv(c) && Changes(c, e, c') && InRange(c'.m) && e.Settled?
    ensures TokenInv(c') <==> c.m.stats[c.execs[e.j].task.seqNo].status != Queue
  {
    hide Tokens;
    TokensChange(c, e, c');
    var i := c.execs[e.j].task.seqNo;
    assert c'.m.stats[i].status != Queue;
    if c.m.stats[i].status == Queue {
      assert Due(c.m, TokenOf(c.m, i)) == 1 && Due(c'.m, TokenOf(c.m, i)) == 0;
      assert Tokens(c')[TokenOf(c.m, i)] == Tokens(c)[TokenOf(c.m, i)] == 1;
    } else {
      forall t: Task ensures Tokens(c')[t] == Due(c'.m, t) {
        assert Tokens(c)[t] == Due(c.m, t);
        if t.phase == c.m.phase && t.seqNo < |c.m.stats| {
          assert TokenOf(c'.m, t.seqNo) == TokenOf(c.m, t.seqNo);
        }
      }
    }
  }

  /** A token of another phase is never in hand while tokens match statuses. */
  lemma NoPanic(c: Control, h: nat)
    requires Inv(c) && TokenInv(c) && h < |c.hands|
    ensures c.hands[h].task.phase == c.m.phase
  {
    HandIsToken(c, h);
    assert Tokens(c)[c.hands[h].task] == Due(c.m, c.hands[h].task);
  }

  lemma OthersKeep(c: Control, e: Effect, c': Control)
    requires Inv(c) && TokenInv(c) && Changes(c, e, c') && InRange(c'.m)
    requires e.Quiet? || e.Ended? || e.Received? || e.Ignored? || e.Advanced?
    ensures TokenInv(c')
  {
    hide Tokens;
    TokensChange(c, e, c');
    forall t: Task ensures Tokens(c')[t] == Due(c'.m, t) {
      assert Tokens(c)[t] == Due(c.m, t);
    }
  }

  lemma LateIsSettled(c: Control, st: Step, c': Control)
    requires Next(c, st) == Some(c')
    ensures var e := EffectOf(c, st);
      Late(c, st) <==> e.Settled? && Accepts(c.m, c.execs[e.j].worker, c.execs[e.j].task.seqNo, c.execs[e.j].task.phase)
                       && c.m.stats[c.execs[e.j].task.seqNo].status == Queue
  {
  }

  /** The phase switches only when every task is finished. */
  lemma AllFinished(c: Control, st: Step, c': Control)
    requires Shape(c.m) && Next(c, st) == Some(c') && EffectOf(c, st).Switched?
    ensures forall i | 0 <= i < |c.m.stats| :: c.m.stats[i].status == Finish
  {
  }

  /** One step keeps tokens and statuses matched if and only if it is not a late report. */
  lemma TokenInvStep(c: Control, st: Step, c': Control)
    requires Inv(c) && TokenInv(c) && Next(c, st) == Some(c')
    ensures InRange(c'.m)
    ensures TokenInv(c') <==> !Late(c, st)
    ensures c'.m.halt == Alive
  {
    hide Late, Next, Tokens, TokenInv, QueuedHasToken, Provenance, FinishAccepted, Barrier, Accepts, Verdict, AfterReport;
    InvStep(c, st, c');
    StepChanges(c, st, c');
    LateIsSettled(c, st, c');
    var e := EffectOf(c, st);
    match e
    case Sent(_) => SentKeeps(c, e, c');
    case Switched =>
      AllFinished(c, st, c');
      SwitchedKeeps(c, e, c');
    case Handed(_, _) => HandedKeeps(c, e, c');
    case Panicked(h) => NoPanic(c, h);
    case Settled(_) => SettledKeepsUnlessLate(c, e, c');
    case _ => OthersKeep(c, e, c');
  }

  // ---- whole runs

  ghost predicate TokensMatchThroughout(files: seq<string>, nReduce: nat, steps: seq<Step>)
    requires Run(InitControl(files, nReduce), steps).Some?
  {
    forall k | 0 <= k <= |steps| ::
      var c := StateAt(InitControl(files, nReduce), steps, k);
      InRange(c.m) && TokenInv(c)
  }

  lemma {:induction false} TimelyMatches(files: seq<string>, nReduce: nat, steps: seq<Step>)
    requires Run(InitControl(files, nReduce), steps).Some?
    requires Timely(InitControl(files, nReduce), steps)
    ensures var c := Run(InitControl(files, nReduce), steps).value;
            Inv(c) && TokenInv(c) && c.m.halt == Alive
  {
    var init := InitControl(files, nReduce);
    InvRun(files, nReduce, steps);
    if steps == [] {
      InitTokenInv(files, nReduce);
    } else {
      var front := steps[..|steps| - 1];
      TimelyMatches(files, nReduce, front);
      TokenInvStep(Run(init, front).value, steps[|steps| - 1], Run(init, steps).value);
    }
  }

  lemma {:induction false} TimelyPrefix(c: Control, steps: seq<Step>, k: nat)
    requires k <= |steps| && Run(c, steps).Some? && Timely(c, steps)
    ensures Run(c, steps[..k]).Some? && Timely(c, steps[..k])
  {
    if k == |steps| {
      assert steps[..k] == steps;
    } else {
      assert steps[..|steps| - 1][..k] == steps[..k];
      TimelyPrefix(c, steps[..|steps| - 1], k);
    }
  }

  /** Through a whole run, every task has exactly one token while it is queued and none otherwise, all
      of the current phase, if and only if no report that is acted on finds its task queued. */
  lemma TokensMatchExactlyInTimelyRuns(files: seq<string>, nReduce: nat, steps: seq<Step>)
    requires Run(InitControl(files, nReduce), steps).Some?
    ensures TokensMatchThroughout(files, nReduce, steps) <==> Timely(InitControl(files, nReduce), steps)
  {
    var init := InitControl(files, nReduce);
    if Timely(init, steps) {
      forall k | 0 <= k <= |steps|
        ensures var c := StateAt(InitControl(files, nReduce), steps, k); InRange(c.m) && TokenInv(c)
      {
        TimelyPrefix(init, steps, k);
        TimelyMatches(files, nReduce, steps[..k]);
      }
    }
    if TokensMatchThroughout(files, nReduce, steps) {
      MatchingIsTimely(files, nReduce, steps, |steps|);
      assert steps[..|steps|] == steps;
    }
  }

  lemma {:induction false} MatchingIsTimely(files: seq<string>, nReduce: nat, steps: seq<Step>, k: nat)
    requires k <= |steps| && Run(InitControl(files, nReduce), steps).Some?
    requires TokensMatchThroughout(files, nReduce, steps)
    ensures Run(InitControl(files, nReduce), steps[..k]).Some?
    ensures Timely(InitControl(files, nReduce), steps[..k])
  {
    var init := InitControl(files, nReduce);
    RunPrefix(init, steps, k);
    if k > 0 {
      MatchingIsTimely(files, nReduce, steps, k - 1);
      assert steps[..k][..k - 1] == steps[..k - 1];
      var c, c' := StateAt(InitControl(files, nReduce), steps, k - 1), StateAt(InitControl(files, nReduce), steps, k);
      InvRun(files, nReduce, steps[..k - 1]);
      TokenInvStep(c, steps[k - 1], c');
    }
  }

  // ---- what timeliness buys

  function AllTokens(m: MasterState): (all: seq<Task>)
    requires InRange(m)
    ensures |all| == |m.stats|
  {
    seq(|m.stats|, i requires 0 <= i < |m.stats| => TokenOf(m, i))
  }

  lemma MultisetFits<T>(a: multiset<T>, b: multiset<T>)
    requires a <= b
    ensures |a| <= |b|
  {
    assert b == a + (b - a);
  }

  lemma TokensFit(c: Control, extra: multiset<Task>)
    requires Inv(c) && TokenInv(c)
    requires forall t: Task :: extra[t] + Due(c.m, t) <= 1
    requires forall t | t in extra :: t.seqNo < |c.m.stats| && t == TokenOf(c.m, t.seqNo)
    ensures |c.m.ch| + |extra| <= |c.m.stats|
  {
    var all := AllTokens(c.m);
    forall t: Task ensures (multiset(c.m.ch) + extra)[t] <= multiset(all)[t] {
      assert Tokens(c)[t] == Due(c.m, t);
      if Due(c.m, t) == 1 || t in extra {
        assert all[t.seqNo] == t;
      }
    }
    MultisetFits(multiset(c.m.ch) + extra, multiset(all));
  }

  lemma StatsFit(m: MasterState)
    requires InRange(m)
    ensures |m.stats| <= Capacity(m.files, m.nReduce)
  {
  }

  /** In every timely run: no panic, all tokens are of the current phase, the channel holds at most one
      token per task and never more than its capacity, and a schedule call never blocks on a send. */
  lemma TimelyRunsAreSafe(files: seq<string>, nReduce: nat, steps: seq<Step>)
    requires Run(InitControl(files, nReduce), steps).Some?
    requires Timely(InitControl(files, nReduce), steps)
    ensures var c := Run(InitControl(files, nReduce), steps).value;
      && c.m.halt == Alive
      && (forall t | t in Tokens(c) :: t.phase == c.m.phase)
      && |c.m.ch| <= |c.m.stats| <= Capacity(files, nReduce)
      && (c.m.scan.Scanning? && c.m.scan.next < |c.m.stats| ==> forall now :: Next(c, Item(now)).Some?)
  {
    TimelyMatches(files, nReduce, steps);
    FilesFixed(files, nReduce, steps);
    var c := Run(InitControl(files, nReduce), steps).value;
    forall t | t in Tokens(c) ensures t.phase == c.m.phase {
      assert Tokens(c)[t] == Due(c.m, t);
    }
    StatsFit(c.m);
    TokensFit(c, multiset{});
    if c.m.scan.Scanning? && c.m.scan.next < |c.m.stats| {
      forall now ensures Next(c, Item(now)).Some? {
        SendHasRoom(c, now);
      }
    }
  }

  lemma SendHasRoom(c: Control, now: int)
    requires Inv(c) && TokenInv(c) && c.m.halt == Alive
    requires c.m.scan.Scanning? && c.m.scan.next < |c.m.stats|
    ensures Next(c, Item(now)).Some?
  {
    StatsFit(c.m);
    if Sends(c.m, now) {
      var t := TokenOf(c.m, c.m.scan.next);
      assert Due(c.m, t) == 0;
      TokensFit(c, multiset{t});
    }
  }

  /** While tokens match, a step within a phase takes a task out of Finish if and only if it is a
      failure report from the worker recorded for that task. */
  lemma FinishIsLeftOnlyByFailure(c: Control, st: Step, c': Control, i: nat)
    requires Inv(c) && TokenInv(c) && Next(c, st) == Some(c') && c'.m.phase == c.m.phase
    requires i < |c.m.stats| && c.m.stats[i].status == Finish
    ensures i < |c'.m.stats|
    ensures c'.m.stats[i].status != Finish <==>
      && st.Report? && Verdict(c.execs[st.exec]) == Some(false)
      && c.execs[st.exec].task.seqNo == i && c.execs[st.exec].task.phase == c.m.phase
      && c.execs[st.exec].worker == c.m.stats[i].workerId
  {
    hide Tokens, Provenance, FinishAccepted, Barrier, QueuedHasToken, Next, AfterReport;
    StepChanges(c, st, c');
    if EffectOf(c, st).Handed? {
      HandIsToken(c, st.hand);
      assert Tokens(c)[c.hands[st.hand].task] == Due(c.m, c.hands[st.hand].task);
    }
  }
}
