/** As long as the master is alive, no run is beyond help: late reports and torn writes included, done
    can still be reached. Calls that hold a token of the map phase after it are left waiting for the lock;
    whether there need be any is decided by what the switch to the reduce phase leaves behind. */
module Recovery {
  import opened Types
  import opened Jobs
  import opened MasterSpec
  import opened Protocol
  import opened Effects
  import opened Invariants
  import opened TimelyRuns
  import opened ClusterSpec
  import opened DiskFacts
  import opened Progress

  // ---- hands that nobody registers change nothing

  function AddHands(extra: seq<Hand>, s: Cluster): Cluster {
    s.(c := s.c.(hands := extra + s.c.hands))
  }

  function Shift(n: nat, st: Step): Step {
    if st.Reg? then Reg(n + st.hand, st.at) else st
  }

  function ShiftEvent(n: nat, ev: Event): Event {
    if ev.Move? then Move(Shift(n, ev.st)) else ev
  }

  function ShiftAll(n: nat, events: seq<Event>): (shifted: seq<Event>)
    ensures |shifted| == |events|
  {
    seq(|events|, k requires 0 <= k < |events| => ShiftEvent(n, events[k]))
  }

  lemma NextWithHands(extra: seq<Hand>, c: Control, st: Step, c': Control)
    requires Next(c, st) == Some(c')
    ensures Next(c.(hands := extra + c.hands), Shift(|extra|, st)) == Some(c'.(hands := extra + c'.hands))
  {
    var d, n := c.(hands := extra + c.hands), |extra|;
    if st.Reg? {
      assert d.hands[n + st.hand] == c.hands[st.hand];
      assert d.hands[..n + st.hand] + d.hands[n + st.hand + 1..] == extra + (c.hands[..st.hand] + c.hands[st.hand + 1..]);
    } else if st.Receive? {
      assert d.hands + [Hand(st.worker, c.m.ch[0])] == extra + (c.hands + [Hand(st.worker, c.m.ch[0])]);
    }
  }

  lemma ReactWithHands(job: Job, extra: seq<Hand>, s: Cluster, ev: Event, t: Cluster)
    requires React(job, s, ev) == Some(t)
    ensures React(job, AddHands(extra, s), ShiftEvent(|extra|, ev)) == Some(AddHands(extra, t))
  {
    hide Next, Act;
    NextWithHands(extra, s.c, StepOf(job, s, ev).value, t.c);
  }

  /** A run goes through with further tokens in hand, which stay there. */
  lemma {:induction false} PlayWithHands(job: Job, extra: seq<Hand>, s: Cluster, events: seq<Event>, t: Cluster)
    requires Play(job, s, events) == Some(t)
    ensures Play(job, AddHands(extra, s), ShiftAll(|extra|, events)) == Some(AddHands(extra, t))
    ensures WholeWrites(events) ==> WholeWrites(ShiftAll(|extra|, events))
  {
    hide React;
    var shifted := ShiftAll(|extra|, events);
    if events != [] {
      var front := events[..|events| - 1];
      var u := Play(job, s, front).value;
      PlayWithHands(job, extra, s, front, u);
      assert shifted[..|events| - 1] == ShiftAll(|extra|, front);
      ReactWithHands(job, extra, u, events[|events| - 1], t);
    }
    forall ev | WholeWrites(events) && ev in shifted ensures ev.Work? ==> !ev.action.TornWrite? {
      var k :| 0 <= k < |shifted| && shifted[k] == ev;
      assert events[k] in events;
    }
  }

  // ---- tokens that outlive their phase

  /** No token of the map phase is in the channel or in hand. */
  ghost predicate NoMapToken(c: Control) {
    forall t | t in Tokens(c) :: t.phase == ReducePhase
  }

  /** A schedule call is under way that will switch to the reduce phase. */
  ghost predicate Switching(m: MasterState) {
    && m.phase == MapPhase && m.scan.Scanning? && m.scan.allFinish
    && forall k | m.scan.next <= k < |m.stats| :: m.stats[k].status == Finish
  }

  /** Every token can still be registered. */
  ghost predicate Clear(c: Control) {
    NoMapToken(c) || (c.m.phase == MapPhase && !Switching(c.m))
  }

  /** A step adds tokens of the current phase only, and removes tokens of the current phase only. */
  lemma TokensOfOtherPhase(c: Control, st: Step, d: Control)
    requires Inv(c) && Next(c, st) == Some(d) && d.m.halt == Alive
    ensures forall t | t in Tokens(d) :: t in Tokens(c) || t.phase == c.m.phase
    ensures forall t | t in Tokens(c) && t.phase != c.m.phase :: t in Tokens(d)
    ensures Switching(c.m) ==> Tokens(d) == Tokens(c)
  {
    hide Tokens, Next, Switching, QueuedHasToken, Provenance, FinishAccepted, Barrier;
    StepChanges(c, st, d);
    TokensOfEffect(c, EffectOf(c, st), d);
    if Switching(c.m) { SwitchingIsQuiet(c, st, d); }
  }

  lemma TokensOfEffect(c: Control, e: Effect, d: Control)
    requires InRange(c.m) && Changes(c, e, d) && !e.Panicked?
    ensures forall t | t in Tokens(d) :: t in Tokens(c) || t.phase == c.m.phase
    ensures forall t | t in Tokens(c) && t.phase != c.m.phase :: t in Tokens(d)
    ensures !e.Sent? && !e.Handed? ==> Tokens(d) == Tokens(c)
  {
    hide Tokens, Accepts, Verdict, AfterReport, FreshStats;
    TokensChange(c, e, d);
  }

  /** While a schedule call finds every task finished, nothing is sent or registered. */
  lemma SwitchingIsQuiet(c: Control, st: Step, d: Control)
    requires Switching(c.m) && Next(c, st) == Some(d)
    ensures !EffectOf(c, st).Sent? && !EffectOf(c, st).Handed?
  {
  }

  /** One iteration neither makes nor breaks the outcome that all tasks are found finished. */
  lemma ItemSwitching(m: MasterState, now: int, m': MasterState)
    requires m.scan.Scanning? && m.scan.next < |m.stats| && InRange(m) && ScanItem(m, now) == Some(m')
    ensures m'.phase == m.phase && (Switching(m') <==> Switching(m))
  {
    var n := m.scan.next;
    assert forall k | n < k < |m.stats| :: m'.stats[k] == m.stats[k];
    assert m'.scan.allFinish <==> m.scan.allFinish && m.stats[n].status == Finish;
  }

  /** How a step moves the phase. */
  lemma PhaseStep(c: Control, st: Step, d: Control)
    requires InRange(c.m) && Next(c, st) == Some(d)
    ensures c.m.phase == ReducePhase ==> d.m.phase == ReducePhase
    ensures Switching(c.m) ==> d.m.phase == ReducePhase || Switching(d.m)
    ensures c.m.phase == MapPhase && !Switching(c.m) && (st.Receive? || st.Item? || st.End? || st.Reg?) ==>
              d.m.phase == MapPhase && !Switching(d.m)
  {
    hide Verdict, AfterReport, Start;
    if st.Item? { ItemSwitching(c.m, st.now, d.m); }
  }

  /** Steps that start no schedule call keep what is clear clear. */
  lemma ClearStep(c: Control, st: Step, d: Control)
    requires Inv(c) && Next(c, st) == Some(d) && d.m.halt == Alive && Clear(c)
    requires st.Receive? || st.Item? || st.End? || st.Reg?
    ensures Clear(d)
  {
    TokensOfOtherPhase(c, st, d);
    PhaseStep(c, st, d);
    hide Next, Tokens, Inv, Switching;
  }

  /** What is not clear does not become clear while the master lives. */
  lemma UnclearStep(c: Control, st: Step, d: Control)
    requires Inv(c) && Next(c, st) == Some(d) && d.m.halt == Alive && !Clear(c)
    ensures !Clear(d)
  {
    TokensOfOtherPhase(c, st, d);
    PhaseStep(c, st, d);
    hide Next, Tokens, Inv, Switching;
    var t :| t in Tokens(c) && t.phase != ReducePhase;
    assert t in Tokens(d);
  }

  lemma {:induction false} UnclearRun(job: Job, s: Cluster, events: seq<Event>)
    requires Inv(s.c) && !Clear(s.c) && Play(job, s, events).Some? && Play(job, s, events).value.c.m.halt == Alive
    ensures Inv(Play(job, s, events).value.c) && !Clear(Play(job, s, events).value.c)
  {
    hide Inv, Clear, Next;
    if events != [] {
      var front, ev := events[..|events| - 1], events[|events| - 1];
      var b, t := Play(job, s, front).value, Play(job, s, events).value;
      var st := StepOf(job, b, ev).value;
      OnlyFromAlive(b.c, st);
      UnclearRun(job, s, front);
      InvStep(b.c, st, t.c);
      UnclearStep(b.c, st, t.c);
    }
  }

  lemma OnlyFromAlive(c: Control, st: Step)
    requires Next(c, st).Some?
    ensures c.m.halt == Alive
  {
  }

  // ---- continuations, timely or not

  ghost predicate Living(job: Job, s: Cluster) {
    Facts(job, s) && Inv(s.c) && s.c.m.halt == Alive
  }

  ghost predicate Reaches(job: Job, s: Cluster, events: seq<Event>, t: Cluster) {
    && Play(job, s, events) == Some(t) && WholeWrites(events) && Living(job, t)
    && (Clear(s.c) ==> Clear(t.c))
  }

  lemma Then(job: Job, s: Cluster, a: seq<Event>, t: Cluster, b: seq<Event>, u: Cluster)
    requires Reaches(job, s, a, t) && Reaches(job, t, b, u)
    ensures Reaches(job, s, a + b, u)
  {
    PlayConcat(job, s, a, b);
  }

  lemma StepTo(job: Job, s: Cluster, st: Step)
    requires Living(job, s) && Next(s.c, st).Some? && Next(s.c, st).value.m.halt == Alive
    requires st.Receive? || st.Item? || st.End? || st.Reg?
    ensures Reaches(job, s, [Move(st)], Cluster(Next(s.c, st).value, s.fs, s.torn))
  {
    var t := Cluster(Next(s.c, st).value, s.fs, s.torn);
    PlayOne(job, s, Move(st));
    InvStep(s.c, st, t.c);
    MoveKeepsFacts(job, s, st, t);
    if Clear(s.c) { ClearStep(s.c, st, t.c); }
  }

  /** Every token in the channel is received. */
  lemma {:induction false} ReceiveAll(job: Job, s: Cluster) returns (events: seq<Event>, t: Cluster)
    requires Living(job, s)
    ensures Reaches(job, s, events, t) && t.c.m == s.c.m.(ch := [])
    decreases |s.c.m.ch|
  {
    if s.c.m.ch == [] {
      events, t := [], s;
    } else {
      StepTo(job, s, Receive(0));
      var u := Cluster(Next(s.c, Receive(0)).value, s.fs, s.torn);
      var rest;
      rest, t := ReceiveAll(job, u);
      events := [Move(Receive(0))] + rest;
      Then(job, s, [Move(Receive(0))], u, rest, t);
    }
  }

  /** With an empty channel, the next iteration is possible. */
  lemma ItemWithRoom(job: Job, s: Cluster) returns (t: Cluster)
    requires Living(job, s) && s.c.m.scan.Scanning? && s.c.m.scan.next < |s.c.m.stats| && s.c.m.ch == []
    ensures Reaches(job, s, [Move(Item(0))], t)
    ensures t.c.m.scan.Scanning? && t.c.m.scan.next == s.c.m.scan.next + 1 && |t.c.m.stats| == |s.c.m.stats|
  {
    hide TokensOk, ExecsOk, QueuedHasToken, Provenance, FinishAccepted, Barrier, Facts, Clear;
    assert ScanItem(s.c.m, 0).Some? && ScanItem(s.c.m, 0).value.halt == Alive;
    StepTo(job, s, Item(0));
    t := Cluster(Next(s.c, Item(0)).value, s.fs, s.torn);
  }

  /** A schedule call that is under way, blocked or not, comes to its end. */
  lemma {:induction false} EndScan(job: Job, s: Cluster) returns (events: seq<Event>, t: Cluster)
    requires Living(job, s) && s.c.m.scan.Scanning?
    ensures Reaches(job, s, events, t) && t.c.m.scan == Idle
    decreases |s.c.m.stats| - s.c.m.scan.next
  {
    hide Facts, TokensOk, ExecsOk, QueuedHasToken, Provenance, FinishAccepted, Barrier, Play;
    if s.c.m.scan.next == |s.c.m.stats| {
      StepTo(job, s, End);
      events, t := [Move(End)], Cluster(Next(s.c, End).value, s.fs, s.torn);
    } else {
      var e1, s1 := ReceiveAll(job, s);
      var s2 := ItemWithRoom(job, s1);
      Then(job, s, e1, s1, [Move(Item(0))], s2);
      var rest;
      rest, t := EndScan(job, s2);
      events := e1 + [Move(Item(0))] + rest;
      Then(job, s, e1 + [Move(Item(0))], s2, rest, t);
    }
  }

  ghost predicate AllStale(c: Control) {
    forall h | 0 <= h < |c.hands| :: c.hands[h].task.phase != c.m.phase
  }

  /** Every token in hand that belongs to the current phase is registered. */
  lemma {:induction false} RegisterCurrent(job: Job, s: Cluster) returns (events: seq<Event>, t: Cluster)
    requires Living(job, s) && s.c.m.scan == Idle && s.c.m.ch == []
    ensures Reaches(job, s, events, t) && t.c.m.scan == Idle && t.c.m.ch == [] && AllStale(t.c)
    decreases |s.c.hands|
  {
    if AllStale(s.c) {
      events, t := [], s;
    } else {
      var h: nat :| h < |s.c.hands| && s.c.hands[h].task.phase == s.c.m.phase;
      var u := RegisterOne(job, s, h);
      var rest;
      rest, t := RegisterCurrent(job, u);
      events := [Move(Reg(h, 0))] + rest;
      Then(job, s, [Move(Reg(h, 0))], u, rest, t);
    }
  }

  lemma RegisterOne(job: Job, s: Cluster, h: nat) returns (t: Cluster)
    requires Living(job, s) && s.c.m.scan == Idle && s.c.m.ch == []
    requires h < |s.c.hands| && s.c.hands[h].task.phase == s.c.m.phase
    ensures Reaches(job, s, [Move(Reg(h, 0))], t)
    ensures t.c.m.scan == Idle && t.c.m.ch == [] && |t.c.hands| == |s.c.hands| - 1
  {
    hide Facts, ExecsOk, QueuedHasToken, Provenance, FinishAccepted, Barrier;
    HandIsToken(s.c, h);
    StepTo(job, s, Reg(h, 0));
    t := Cluster(Next(s.c, Reg(h, 0)).value, s.fs, s.torn);
  }

  /** Without the tokens that match nothing, tokens match statuses. */
  lemma StaleHandsAside(job: Job, s: Cluster)
    requires Living(job, s) && s.c.m.scan == Idle && s.c.m.ch == [] && AllStale(s.c)
    ensures Going(job, s.(c := s.c.(hands := [])))
  {
    hide Facts, ExecsOk, FinishAccepted, Barrier, Clear, LatestWorker;
    var t := s.(c := s.c.(hands := []));
    assert Tokens(t.c) == multiset{};
    forall i | 0 <= i < |s.c.m.stats| ensures s.c.m.stats[i].status != Queue {
      if s.c.m.stats[i].status == Queue { TokenIsSomewhere(s.c, TokenOf(s.c.m, i)); }
    }
    assert forall i: nat | i < |t.c.m.stats| :: Recorded(s.c, i) ==> Recorded(t.c, i);
    SameFacts(job, s, t);
    SameHistory(s.c, t.c);
  }

  lemma SameFacts(job: Job, s: Cluster, t: Cluster)
    requires Facts(job, s) && t == s.(c := s.c.(hands := t.c.hands))
    ensures Facts(job, t)
  {
  }

  lemma SameHistory(c: Control, d: Control)
    requires d == c.(hands := d.hands)
    ensures ExecsOk(c) ==> ExecsOk(d)
    ensures FinishAccepted(c) ==> FinishAccepted(d)
    ensures Barrier(c) ==> Barrier(d)
  {
  }

  /** No schedule call is under way, and every token that can be registered is. */
  lemma Settle(job: Job, s: Cluster) returns (events: seq<Event>, t: Cluster)
    requires Living(job, s)
    ensures Reaches(job, s, events, t) && t.c.m.scan == Idle && t.c.m.ch == [] && AllStale(t.c)
  {
    hide Play, Facts, Inv, Clear;
    var e1, s1 := [], s;
    if s.c.m.scan.Scanning? {
      e1, s1 := EndScan(job, s);
    } else {
      StayHere(job, s);
    }
    var e2, s2 := ReceiveAll(job, s1);
    Then(job, s, e1, s1, e2, s2);
    var e3;
    e3, t := RegisterCurrent(job, s2);
    Then(job, s, e1 + e2, s2, e3, t);
    events := e1 + e2 + e3;
  }

  /** From every state with a living master there is a way to done. */
  lemma WayToDone(job: Job, s: Cluster) returns (events: seq<Event>, t: Cluster)
    requires Feasible(job) && Living(job, s)
    ensures Play(job, s, events) == Some(t) && WholeWrites(events) && t.c.m.done
    ensures Clear(s.c) ==> Served(t.c)
  {
    hide Play, Facts, Inv, Feasible;
    var e1, s1 := Settle(job, s);
    StaleHandsAside(job, s1);
    var bare := s1.(c := s1.c.(hands := []));
    var e2, u := FinishJob(job, bare);
    assert AddHands(s1.c.hands, bare) == s1;
    PlayWithHands(job, s1.c.hands, bare, e2, u);
    t := AddHands(s1.c.hands, u);
    var rest := ShiftAll(|s1.c.hands|, e2);
    events := e1 + rest;
    PlayConcat(job, s, e1, rest);
    if Clear(s.c) {
      ClearHandsAreEmpty(job, s1);
      DoneIsServed(job, u);
      assert t == u;
    }
  }

  /** Where all is clear and only stale tokens are in hand, none is. */
  lemma ClearHandsAreEmpty(job: Job, s: Cluster)
    requires Living(job, s) && s.c.m.scan == Idle && AllStale(s.c) && Clear(s.c)
    ensures s.c.hands == []
  {
    hide Facts, ExecsOk, QueuedHasToken, Provenance, FinishAccepted, Barrier;
    if s.c.hands != [] {
      HandIsToken(s.c, 0);
      assert false;
    }
  }

  /** The job is done, no call waits with a token, and no token of the map phase is left. */
  ghost predicate Served(c: Control) {
    c.m.halt == Alive && c.m.done && c.hands == [] && NoMapToken(c)
  }

  lemma DoneIsServed(job: Job, s: Cluster)
    requires Going(job, s) && s.c.m.done && s.c.hands == []
    ensures Served(s.c)
  {
    forall t | t in Tokens(s.c) ensures t.phase == ReducePhase { assert Tokens(s.c)[t] == Due(s.c.m, t); }
  }

  lemma StayHere(job: Job, s: Cluster)
    requires Living(job, s)
    ensures Reaches(job, s, [], s)
  {
  }

  /** Whatever has happened in a run, as long as the master is alive: done can still be reached, with whole
      writes only, if and only if every input can be read and what it emits has somewhere to go. */
  lemma DoneStaysInReach(job: Job, events: seq<Event>)
    requires NoClash(job) && Play(job, InitCluster(job), events).Some?
    requires Play(job, InitCluster(job), events).value.c.m.halt == Alive
    ensures (exists more ::
               && Play(job, InitCluster(job), events + more).Some?
               && Play(job, InitCluster(job), events + more).value.c.m.done && WholeWrites(more))
       <==> forall i | 0 <= i < |job.files| :: InputOk(job, i)
  {
    var init := InitCluster(job);
    if forall i | 0 <= i < |job.files| :: InputOk(job, i) {
      PlayInv(job, events);
      FactsRun(job, events);
      var more, t := WayToDone(job, Play(job, init, events).value);
      PlayConcat(job, init, events, more);
    }
    forall more | Play(job, init, events + more).Some? && Play(job, init, events + more).value.c.m.done
      ensures forall i | 0 <= i < |job.files| :: InputOk(job, i)
    {
      PlayInv(job, events + more);
      FactsRun(job, events + more);
      var t := Play(job, init, events + more).value;
      forall i | 0 <= i < |job.files| ensures InputOk(job, i) { BehindBarrier(job, t, i); }
    }
  }

  /** With no call left waiting and no token of the map phase left, done can be reached from there if and
      only if, besides, there is no such token now, or the map phase is not over and no schedule call is
      about to end it. */
  lemma ServedExactlyWhenClear(job: Job, events: seq<Event>)
    requires NoClash(job) && Play(job, InitCluster(job), events).Some?
    requires Play(job, InitCluster(job), events).value.c.m.halt == Alive
    ensures (exists more ::
               && Play(job, InitCluster(job), events + more).Some?
               && Served(Play(job, InitCluster(job), events + more).value.c))
       <==> (forall i | 0 <= i < |job.files| :: InputOk(job, i)) && Clear(Play(job, InitCluster(job), events).value.c)
  {
    var init := InitCluster(job);
    var s := Play(job, init, events).value;
    PlayInv(job, events);
    FactsRun(job, events);
    if (forall i | 0 <= i < |job.files| :: InputOk(job, i)) && Clear(s.c) {
      var more, t := WayToDone(job, s);
      PlayConcat(job, init, events, more);
    }
    forall more | Play(job, init, events + more).Some? && Served(Play(job, init, events + more).value.c)
      ensures (forall i | 0 <= i < |job.files| :: InputOk(job, i)) && Clear(s.c)
    {
      PlayInv(job, events + more);
      FactsRun(job, events + more);
      var t := Play(job, init, events + more).value;
      forall i | 0 <= i < |job.files| ensures InputOk(job, i) { BehindBarrier(job, t, i); }
      PlayConcat(job, init, events, more);
      if !Clear(s.c) { UnclearRun(job, s, more); }
    }
  }
}
