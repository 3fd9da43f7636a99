/** The cache-aside shop service: getById and update, step by step and interleaved. */
module ShopCache {
  import opened Types
  import opened Naming

  /** A shop row, or the columns of one that an update sets. */
  datatype Shop = Shop(id: int, columns: map<string, string>)

  /** Column by column: what the update sets is as it says, and what it does not set is as it was. */
  ghost predicate ColumnsSet(row: Shop, update: Shop, after: Shop) {
    && after.id == row.id
    && (forall c :: c in after.columns <==> c in row.columns || c in update.columns)
    && (forall c | c in update.columns :: after.columns[c] == update.columns[c])
    && (forall c | c in row.columns && c !in update.columns :: after.columns[c] == row.columns[c])
  }

  /** The row after an update. */
  function Patched(row: Shop, update: Shop): (after: Shop)
    ensures ColumnsSet(row, update, after)
  {
    Shop(row.id, row.columns + update.columns)
  }

  /** The cached text of a row: it decodes to the row it was made from, or it does not parse. */
  datatype Entry = Cached(row: Shop) | Garbled

  function ShopKey(id: nat): string {
    "cache:shop:" + Itoa(id)
  }

  lemma ShopKeyInjective(a: nat, b: nat)
    requires ShopKey(a) == ShopKey(b)
    ensures a == b
  {
    assert Itoa(a) == ShopKey(a)[11..] == ShopKey(b)[11..] == Itoa(b);
    ItoaInjective(a, b);
  }

  /** What the keys look like. */
  lemma KeysAsPrinted()
    ensures ShopKey(7) == "cache:shop:7" && ShopKey(10) == "cache:shop:10"
  {
    assert Itoa(10) == Itoa(1) + Itoa(0) == "10";
  }

  datatype Reply = Row(shop: Shop) | ParamsError | Thrown

  // ---- one call at a time

  /** The entry of an id answers without the database. */
  predicate Hits(redis: map<string, Entry>, id: nat) {
    ShopKey(id) in redis && redis[ShopKey(id)].Cached?
  }

  /** What getById answers and leaves in the cache when nothing comes between its steps. */
  ghost predicate Got(id: int, db: map<int, Shop>, redis: map<string, Entry>, reply: Reply, redis': map<string, Entry>) {
    if id <= 0 then reply == ParamsError && redis' == redis
    else if Hits(redis, id) then reply == Row(redis[ShopKey(id)].row) && redis' == redis
    else if id in db then reply == Row(db[id]) && redis' == redis[ShopKey(id) := Cached(db[id])]
    else reply == Thrown && redis' == redis
  }

  /** What update answers and leaves in the database and the cache. */
  ghost predicate Put(shop: Shop, db: map<int, Shop>, redis: map<string, Entry>, reply: Option<Reply>, db': map<int, Shop>, redis': map<string, Entry>) {
    if shop.id <= 0 then reply == Some(ParamsError) && db' == db && redis' == redis
    else
      && reply == None && redis' == redis - {ShopKey(shop.id)}
      && db'.Keys == db.Keys
      && (forall k | k in db && k != shop.id :: db'[k] == db[k])
      && (shop.id in db ==> ColumnsSet(db[shop.id], shop, db'[shop.id]))
  }

  class ShopService {
    var db: map<int, Shop>
    var redis: map<string, Entry>

    /** No entry answers with anything but the row in the database. */
    ghost predicate Coherent()
      reads this
    {
      forall id: nat | ShopKey(id) in redis && redis[ShopKey(id)].Cached? :: id in db && redis[ShopKey(id)].row == db[id]
    }

    method GetById(id: int) returns (reply: Reply)
      modifies this
      ensures db == old(db) && Got(id, db, old(redis), reply, redis)
      ensures old(Coherent()) ==> Coherent() && (id > 0 && id in db ==> reply == Row(db[id]))
    {
      if id <= 0 {
        return ParamsError;
      }
      var shopKey := ShopKey(id);
      if shopKey in redis {
        if redis[shopKey].Cached? {
          return Row(redis[shopKey].row);
        }
      }
      if id !in db {
        return Thrown;
      }
      var shop := db[id];
      redis := redis[shopKey := Cached(shop)];
      forall k: nat | ShopKey(k) == shopKey ensures k == id { ShopKeyInjective(k, id); }
      return Row(shop);
    }

    method Update(shop: Shop) returns (reply: Option<Reply>)
      modifies this
      ensures Put(shop, old(db), old(redis), reply, db, redis)
      ensures old(Coherent()) ==> Coherent()
    {
      if shop.id <= 0 {
        return Some(ParamsError);
      }
      if shop.id in db {
        db := db[shop.id := Patched(db[shop.id], shop)];
      }
      redis := redis - {ShopKey(shop.id)};
      return None;
    }
  }

  // ---- interleaved calls

  datatype Call =
    | Lookup(requested: int)                // getById before its EXISTS
    | Hit(id: nat)                          // the key existed: before the HGET
    | Missed(id: nat)                       // before the database read
    | Fetched(id: nat, row: Shop)           // before the cache fill
    | Answered(reply: Reply)
    | Updating(shop: Shop)                  // update before its database write
    | Written(id: nat)                      // before the DEL
    | Updated

  datatype State = State(db: map<int, Shop>, redis: map<string, Entry>, calls: seq<Call>)

  datatype Step = NewGet(id: int) | NewUpdate(shop: Shop) | Advance(i: nat)

  /** The next step of one call. The entry of a hit may be gone when it is read; the client library
      then throws. A text that does not parse is as good as none. A missing row makes the mapper throw. */
  function Move(s: State, i: nat): State
    requires i < |s.calls|
  {
    match s.calls[i]
    case Lookup(id) =>
      s.(calls := s.calls[i := if id <= 0 then Answered(ParamsError) else if ShopKey(id) in s.redis then Hit(id) else Missed(id)])
    case Hit(id) =>
      s.(calls := s.calls[i := if ShopKey(id) !in s.redis then Answered(Thrown) else if s.redis[ShopKey(id)].Garbled? then Missed(id)
                             else Answered(Row(s.redis[ShopKey(id)].row))])
    case Missed(id) =>
      s.(calls := s.calls[i := if id in s.db then Fetched(id, s.db[id]) else Answered(Thrown)])
    case Fetched(id, row) =>
      s.(redis := s.redis[ShopKey(id) := Cached(row)], calls := s.calls[i := Answered(Row(row))])
    case Updating(shop) =>
      if shop.id <= 0 then s.(calls := s.calls[i := Answered(ParamsError)])
      else s.(db := if shop.id in s.db then s.db[shop.id := Patched(s.db[shop.id], shop)] else s.db, calls := s.calls[i := Written(shop.id)])
    case Written(id) =>
      s.(redis := s.redis - {ShopKey(id)}, calls := s.calls[i := Updated])
    case Answered(_) => s
    case Updated => s
  }

  function Next(s: State, st: Step): Option<State> {
    match st
    case NewGet(id) => Some(s.(calls := s.calls + [Lookup(id)]))
    case NewUpdate(shop) => Some(s.(calls := s.calls + [Updating(shop)]))
    case Advance(i) => if i < |s.calls| then Some(Move(s, i)) else None
  }

  function Run(s: State, steps: seq<Step>): Option<State> {
    if steps == [] then Some(s) else
    match Run(s, steps[..|steps| - 1])
    case None => None
    case Some(t) => Next(t, steps[|steps| - 1])
  }

  // ---- a call that runs alone

  /** Call i takes one more step. */
  lemma Go(s: State, steps: seq<Step>, t: State, st: Step, u: State) returns (steps': seq<Step>)
    requires Run(s, steps) == Some(t) && Next(t, st) == Some(u)
    ensures Run(s, steps') == Some(u) && steps' == steps + [st]
  {
    steps' := steps + [st];
    assert steps'[..|steps'| - 1] == steps;
  }

  ghost predicate OnlyCall(steps: seq<Step>, i: nat) {
    forall st | st in steps :: st == Advance(i)
  }

  lemma StepAlone(s: State, steps: seq<Step>, t: State, i: nat) returns (steps': seq<Step>, u: State)
    requires Run(s, steps) == Some(t) && OnlyCall(steps, i) && i < |t.calls|
    ensures Run(s, steps') == Some(u) && OnlyCall(steps', i) && u == Move(t, i)
  {
    u := Move(t, i);
    steps' := Go(s, steps, t, Advance(i), u);
  }

  /** A getById whose steps nothing comes between ends as the method does. */
  lemma GetAlone(s: State, i: nat, id: int) returns (steps: seq<Step>, t: State)
    requires i < |s.calls| && s.calls[i] == Lookup(id)
    ensures Run(s, steps) == Some(t) && OnlyCall(steps, i)
    ensures t.db == s.db && i < |t.calls| && t.calls[i].Answered? && t.calls == s.calls[i := t.calls[i]]
    ensures Got(id, s.db, s.redis, t.calls[i].reply, t.redis)
  {
    hide Run;
    steps := AtStart(s);
    t := s;
    steps, t := StepAlone(s, steps, t, i);
    steps, t := StepAlone(s, steps, t, i);
    steps, t := StepAlone(s, steps, t, i);
    steps, t := StepAlone(s, steps, t, i);
  }

  lemma AtStart(s: State) returns (steps: seq<Step>)
    ensures Run(s, steps) == Some(s) && steps == []
  {
    steps := [];
  }

  /** An update whose steps nothing comes between ends as the method does. */
  lemma UpdateAlone(s: State, i: nat, shop: Shop) returns (steps: seq<Step>, t: State)
    requires i < |s.calls| && s.calls[i] == Updating(shop)
    ensures Run(s, steps) == Some(t) && OnlyCall(steps, i)
    ensures i < |t.calls| && (t.calls[i].Answered? || t.calls[i].Updated?) && t.calls == s.calls[i := t.calls[i]]
    ensures Put(shop, s.db, s.redis, if t.calls[i].Answered? then Some(t.calls[i].reply) else None, t.db, t.redis)
  {
    hide Run;
    steps := AtStart(s);
    t := s;
    steps, t := StepAlone(s, steps, t, i);
    steps, t := StepAlone(s, steps, t, i);
  }

  // ---- what interleaved calls answer

  /** Call i of the run was begun by a getById for this id. */
  ghost predicate Requested(s: State, steps: seq<Step>, i: nat, id: int)
    requires Run(s, steps).Some?
  {
    steps != [] &&
    var front := steps[..|steps| - 1];
    Requested(s, front, i, id) || (steps[|steps| - 1] == NewGet(id) && |Run(s, front).value.calls| == i)
  }

  predicate InDatabase(s: State, id: int, row: Shop) {
    id in s.db && s.db[id] == row
  }

  predicate InCache(s: State, id: int, row: Shop) {
    id >= 0 && ShopKey(id) in s.redis && s.redis[ShopKey(id)] == Cached(row)
  }

  /** At some moment since call i was begun, the cache or the database held this row for this id. */
  ghost predicate HeldDuring(s: State, steps: seq<Step>, i: nat, id: int, row: Shop)
    requires Run(s, steps).Some?
  {
    var t := Run(s, steps).value;
    || (i < |t.calls| && (InDatabase(t, id, row) || InCache(t, id, row)))
    || (steps != [] && HeldDuring(s, steps[..|steps| - 1], i, id, row))
  }

  /** At some moment since call i was begun, the database had no row or the cache no entry for this id. */
  ghost predicate MissingDuring(s: State, steps: seq<Step>, i: nat, id: nat)
    requires Run(s, steps).Some?
  {
    var t := Run(s, steps).value;
    || (i < |t.calls| && (id !in t.db || ShopKey(id) !in t.redis))
    || (steps != [] && MissingDuring(s, steps[..|steps| - 1], i, id))
  }

  /** What the state of call i says about the run, if it is a getById for this id. */
  ghost predicate Told(s: State, steps: seq<Step>, i: nat, id: int, call: Call)
    requires Run(s, steps).Some?
  {
    match call
    case Lookup(r) => r == id
    case Hit(r) => r == id > 0
    case Missed(r) => r == id > 0
    case Fetched(r, row) => r == id > 0 && HeldDuring(s, steps, i, id, row)
    case Answered(Row(row)) => id > 0 && HeldDuring(s, steps, i, id, row)
    case Answered(ParamsError) => id <= 0
    case Answered(Thrown) => id > 0 && MissingDuring(s, steps, i, id)
    case _ => false
  }

  lemma ToldMoves(s: State, steps: seq<Step>, i: nat, id: int)
    requires steps != [] && Run(s, steps).Some?
    requires var t := Run(s, steps[..|steps| - 1]).value;
      i < |t.calls| && steps[|steps| - 1] == Advance(i) && Told(s, steps[..|steps| - 1], i, id, t.calls[i])
    ensures var u := Run(s, steps).value; i < |u.calls| && Told(s, steps, i, id, u.calls[i])
  {
    var front := steps[..|steps| - 1];
    var t, u := Run(s, front).value, Run(s, steps).value;
    assert u == Move(t, i);
    match t.calls[i]
    case Hit(r) => if u.calls[i].Answered? && u.calls[i].reply.Row? { assert InCache(t, id, u.calls[i].reply.shop); }
    case Missed(r) => if u.calls[i].Fetched? { assert InDatabase(t, id, u.calls[i].row); }
    case _ =>
  }

  lemma {:induction false} CallsTell(s: State, steps: seq<Step>, i: nat, id: int)
    requires Run(s, steps).Some? && Requested(s, steps, i, id)
    ensures var t := Run(s, steps).value; i < |t.calls| && Told(s, steps, i, id, t.calls[i])
  {
    var front, st := steps[..|steps| - 1], steps[|steps| - 1];
    var t, u := Run(s, front).value, Run(s, steps).value;
    if Requested(s, front, i, id) {
      CallsTell(s, front, i, id);
      if st == Advance(i) {
        ToldMoves(s, steps, i, id);
      } else {
        OtherCalls(t, st, u, i);
        StillTold(s, steps, i, id, t.calls[i]);
      }
    } else {
      assert u.calls[i] == Lookup(id);
    }
  }

  lemma OtherCalls(t: State, st: Step, u: State, i: nat)
    requires Next(t, st) == Some(u) && i < |t.calls| && st != Advance(i)
    ensures i < |u.calls| && u.calls[i] == t.calls[i]
  {
  }

  lemma StillTold(s: State, steps: seq<Step>, i: nat, id: int, call: Call)
    requires steps != [] && Run(s, steps).Some? && Told(s, steps[..|steps| - 1], i, id, call)
    ensures Told(s, steps, i, id, call)
  {
  }

  /** Whatever comes between its steps, a getById rejects exactly the ids that are not positive, answers a
      row only if the cache or the database held that row for that id while the call was under way, and
      throws only if one of them had nothing for it. */
  lemma AnswersWereHeld(s: State, steps: seq<Step>, i: nat, id: int)
    requires Run(s, steps).Some? && Requested(s, steps, i, id)
    requires var t := Run(s, steps).value; i < |t.calls| ==> t.calls[i].Answered?
    ensures i < |Run(s, steps).value.calls|
    ensures match Run(s, steps).value.calls[i].reply
      case ParamsError => id <= 0
      case Row(row) => id > 0 && HeldDuring(s, steps, i, id, row)
      case Thrown => id > 0 && MissingDuring(s, steps, i, id)
  {
    CallsTell(s, steps, i, id);
  }

  /** At some moment of the run, the database held this row for this id. */
  ghost predicate WasInDatabase(s: State, steps: seq<Step>, id: int, row: Shop)
    requires Run(s, steps).Some?
  {
    InDatabase(Run(s, steps).value, id, row) || (steps != [] && WasInDatabase(s, steps[..|steps| - 1], id, row))
  }

  /** The rows in the cache, and those that calls carry, were in the database. */
  ghost predicate FromDatabase(s: State, steps: seq<Step>)
    requires Run(s, steps).Some?
  {
    var t := Run(s, steps).value;
    && (forall id: nat, row | InCache(t, id, row) :: WasInDatabase(s, steps, id, row))
    && (forall c | c in t.calls && c.Fetched? :: WasInDatabase(s, steps, c.id, c.row))
  }

  lemma FromDatabaseStep(s: State, steps: seq<Step>)
    requires steps != [] && Run(s, steps).Some? && FromDatabase(s, steps[..|steps| - 1])
    ensures FromDatabase(s, steps)
  {
    var front, st := steps[..|steps| - 1], steps[|steps| - 1];
    var t, u := Run(s, front).value, Run(s, steps).value;
    forall id: nat, row | InCache(u, id, row) ensures WasInDatabase(s, steps, id, row) {
      if !InCache(t, id, row) {
        var c := t.calls[st.i];
        if ShopKey(c.id) == ShopKey(id) { ShopKeyInjective(c.id, id); }
        assert c in t.calls && c == Fetched(id, row);
      }
    }
    forall c | c in u.calls && c.Fetched? ensures WasInDatabase(s, steps, c.id, c.row) {
      if c !in t.calls { assert InDatabase(t, c.id, c.row); }
    }
  }

  lemma {:induction false} FromDatabaseRun(s: State, steps: seq<Step>)
    requires Run(s, steps).Some? && FromDatabase(s, [])
    ensures FromDatabase(s, steps)
  {
    hide FromDatabase;
    if steps != [] {
      FromDatabaseRun(s, steps[..|steps| - 1]);
      FromDatabaseStep(s, steps);
    }
  }

  /** When the cache holds rows of the database only, before the first call, then whatever calls follow:
      every row answered for an id was in the database under that id at some moment of the run. */
  lemma {:induction false} AnswersWereInDatabase(s: State, steps: seq<Step>, i: nat, id: int, row: Shop)
    requires s.calls == [] && forall k: nat, r | InCache(s, k, r) :: InDatabase(s, k, r)
    requires Run(s, steps).Some? && Requested(s, steps, i, id)
    requires var t := Run(s, steps).value; i < |t.calls| ==> t.calls[i] == Answered(Row(row))
    ensures WasInDatabase(s, steps, id, row)
  {
    hide Told;
    var front, st := steps[..|steps| - 1], steps[|steps| - 1];
    var t, u := Run(s, front).value, Run(s, steps).value;
    FromDatabaseRun(s, front);
    CallsTell(s, steps, i, id);
    if Requested(s, front, i, id) {
      CallsTell(s, front, i, id);
      if t.calls[i] == Answered(Row(row)) {
        AnswersWereInDatabase(s, front, i, id, row);
      } else {
        JustAnswered(s, front, st, i, id, row);
      }
    }
  }

  /** A step that answers a row takes it from the cache, or from the database by way of the call. */
  lemma JustAnswered(s: State, front: seq<Step>, st: Step, i: nat, id: int, row: Shop)
    requires Run(s, front).Some? && FromDatabase(s, front)
    requires i < |Run(s, front).value.calls| && Told(s, front, i, id, Run(s, front).value.calls[i])
    requires Next(Run(s, front).value, st).Some?
    requires var u := Next(Run(s, front).value, st).value; i < |u.calls| && u.calls[i] == Answered(Row(row))
    requires Run(s, front).value.calls[i] != Answered(Row(row))
    ensures WasInDatabase(s, front, id, row)
  {
    var t, u := Run(s, front).value, Next(Run(s, front).value, st).value;
    if st != Advance(i) { OtherCalls(t, st, u, i); }
    if t.calls[i].Hit? {
      assert InCache(t, id, row);
    } else {
      assert t.calls[i] in t.calls && t.calls[i] == Fetched(id, row);
    }
  }

  /** A lookup can throw for a row that is in the database all the time, and was in the cache when the
      lookup began: an update deletes the entry after the lookup saw that it exists. */
  lemma ThrowsForPresentRow(row: Shop, update: Shop)
    requires row.id == update.id > 0
    ensures exists steps ::
              var s := State(map[row.id := row], map[ShopKey(row.id) := Cached(row)], []);
              && Run(s, steps).Some? && Requested(s, steps, 0, row.id)
              && Run(s, steps).value.calls == [Answered(Thrown), Updated]
              && PresentThroughout(s, steps, row.id)
  {
    hide Run, Requested, PresentThroughout, Patched, Next;
    var id := row.id;
    var s := State(map[id := row], map[ShopKey(id) := Cached(row)], []);
    var steps, t := SeesEntry(s, id);
    steps, t := LosesEntry(s, steps, t, update);
    ThrowsNow(t, id);
    steps, t := GoOn(s, steps, t, Advance(0), id);
  }

  /** A lookup finds that the key exists. */
  lemma SeesEntry(s: State, id: nat) returns (steps: seq<Step>, t: State)
    requires id > 0 && id in s.db && ShopKey(id) in s.redis && s.calls == []
    ensures Run(s, steps) == Some(t) && PresentThroughout(s, steps, id) && Requested(s, steps, 0, id)
    ensures t == s.(calls := [Hit(id)])
  {
    hide Run, Requested, PresentThroughout;
    NothingDone(s, id);
    steps, t := GoOn(s, [], s, NewGet(id), id);
    steps, t := GoOn(s, steps, t, Advance(0), id);
  }

  /** An update runs to its end meanwhile. */
  lemma LosesEntry(s: State, before: seq<Step>, t: State, update: Shop) returns (steps: seq<Step>, u: State)
    requires update.id > 0 && t.calls == [Hit(update.id)] && update.id in t.db
    requires Run(s, before) == Some(t) && PresentThroughout(s, before, update.id) && Requested(s, before, 0, update.id)
    ensures Run(s, steps) == Some(u) && PresentThroughout(s, steps, update.id) && Requested(s, steps, 0, update.id)
    ensures u.calls == [Hit(update.id), Updated] && update.id in u.db && ShopKey(update.id) !in u.redis
  {
    hide Run, Requested, PresentThroughout, Patched;
    steps, u := GoOn(s, before, t, NewUpdate(update), update.id);
    steps, u := GoOn(s, steps, u, Advance(1), update.id);
    steps, u := GoOn(s, steps, u, Advance(1), update.id);
  }

  lemma ThrowsNow(t: State, id: nat)
    requires t.calls == [Hit(id), Updated] && id in t.db && ShopKey(id) !in t.redis
    ensures Next(t, Advance(0)) == Some(t.(calls := [Answered(Thrown), Updated]))
  {
    assert t.calls[0 := Answered(Thrown)] == [Answered(Thrown), Updated];
  }

  ghost predicate PresentThroughout(s: State, steps: seq<Step>, id: int)
    requires Run(s, steps).Some?
  {
    id in Run(s, steps).value.db && (steps == [] || PresentThroughout(s, steps[..|steps| - 1], id))
  }

  lemma NothingDone(s: State, id: int)
    requires id in s.db
    ensures Run(s, []) == Some(s) && PresentThroughout(s, [], id)
  {
  }

  /** One more step of a run that keeps a row present. */
  lemma GoOn(s: State, steps: seq<Step>, t: State, st: Step, id: int) returns (steps': seq<Step>, u: State)
    requires Run(s, steps) == Some(t) && PresentThroughout(s, steps, id)
    requires Next(t, st).Some? && id in Next(t, st).value.db
    ensures Run(s, steps') == Next(t, st) == Some(u) && PresentThroughout(s, steps', id) && steps' == steps + [st]
    ensures Requested(s, steps, 0, id) || (s.calls == [] && steps == [] && st == NewGet(id)) ==> Requested(s, steps', 0, id)
  {
    u := Next(t, st).value;
    steps' := Go(s, steps, t, st, u);
    assert steps'[..|steps'| - 1] == steps;
  }

  // ---- agreement of cache and database

  /** The cache answers what the database holds. */
  predicate Agrees(s: State, id: nat) {
    ShopKey(id) in s.redis && s.redis[ShopKey(id)].Cached? ==> id in s.db && s.redis[ShopKey(id)].row == s.db[id]
  }

  predicate DeletePending(s: State, id: nat) {
    Written(id) in s.calls
  }

  /** Every disagreement is about to be deleted. */
  ghost predicate CacheInv(s: State) {
    forall id: nat :: Agrees(s, id) || DeletePending(s, id)
  }

  predicate Quiet(s: State) {
    forall c | c in s.calls :: c.Answered? || c.Updated?
  }

  /** A fill that puts a row into the cache although the database has another by now and no delete
      is to come. */
  predicate StaleFill(s: State, st: Step) {
    && st.Advance? && st.i < |s.calls| && s.calls[st.i].Fetched?
    && var id, row := s.calls[st.i].id, s.calls[st.i].row;
    && (id !in s.db || s.db[id] != row)
    && !DeletePending(s, id)
  }

  lemma PendingStays(a: seq<Call>, i: nat, c: Call, id: nat)
    requires i < |a| && Written(id) in a && a[i] != Written(id)
    ensures Written(id) in a[i := c]
  {
    var k :| 0 <= k < |a| && a[k] == Written(id);
    assert a[i := c][k] == Written(id);
  }

  /** One step keeps every disagreement about to be deleted if and only if it is not a stale fill. */
  lemma CacheInvStep(s: State, st: Step, s': State)
    requires CacheInv(s) && Next(s, st) == Some(s')
    ensures CacheInv(s') <==> !StaleFill(s, st)
  {
    if StaleFill(s, st) {
      var id := s.calls[st.i].id;
      assert Written(id) !in s'.calls by {
        assert forall k | 0 <= k < |s'.calls| && k != st.i :: s'.calls[k] == s.calls[k] && s.calls[k] in s.calls;
      }
      assert !Agrees(s', id);
    } else {
      forall id: nat ensures Agrees(s', id) || DeletePending(s', id) {
        assert Agrees(s, id) || DeletePending(s, id);
        match st
        case Advance(i) => MoveKeeps(s, i, id);
        case _ => assert forall c | c in s.calls :: c in s'.calls;
      }
    }
  }

  lemma MoveKeeps(s: State, i: nat, id: nat)
    requires i < |s.calls| && !StaleFill(s, Advance(i))
    requires Agrees(s, id) || DeletePending(s, id)
    ensures Agrees(Move(s, i), id) || DeletePending(Move(s, i), id)
  {
    var s' := Move(s, i);
    if DeletePending(s, id) && s.calls[i] != Written(id) {
      PendingStays(s.calls, i, s'.calls[i], id);
      assert s'.calls == s.calls[i := s'.calls[i]];
    }
    match s.calls[i]
    case Fetched(id', row) =>
      if ShopKey(id') == ShopKey(id) { ShopKeyInjective(id', id); }
    case Updating(shop) =>
      if 0 < shop.id == id { assert s'.calls[i] == Written(id); }
    case Written(id') =>
      if ShopKey(id') == ShopKey(id) { ShopKeyInjective(id', id); }
    case _ =>
  }

  /** Every state of a run satisfies the invariant. */
  ghost predicate AgreesThroughout(s: State, steps: seq<Step>)
    requires Run(s, steps).Some?
  {
    CacheInv(Run(s, steps).value) && (steps == [] || AgreesThroughout(s, steps[..|steps| - 1]))
  }

  ghost predicate NoStaleFill(s: State, steps: seq<Step>)
    requires Run(s, steps).Some?
  {
    steps == [] ||
    (NoStaleFill(s, steps[..|steps| - 1]) && !StaleFill(Run(s, steps[..|steps| - 1]).value, steps[|steps| - 1]))
  }

  /** Through a whole run, every cached answer is right or about to be deleted, if and only if the run
      has no stale fill. */
  lemma {:induction false} CacheAgreesExactlyWithoutStaleFills(s: State, steps: seq<Step>)
    requires CacheInv(s) && Run(s, steps).Some?
    ensures AgreesThroughout(s, steps) <==> NoStaleFill(s, steps)
  {
    hide CacheInv, StaleFill, Next;
    if steps != [] {
      var front, st := steps[..|steps| - 1], steps[|steps| - 1];
      CacheAgreesExactlyWithoutStaleFills(s, front);
      if AgreesThroughout(s, front) {
        assert CacheInv(Run(s, front).value);
        CacheInvStep(Run(s, front).value, st, Run(s, steps).value);
      }
    }
  }

  // ---- a condition on when calls overlap

  /** A database write for an id while a getById for that id is between its database read and its fill. */
  predicate Intrudes(s: State, st: Step) {
    && st.Advance? && st.i < |s.calls| && s.calls[st.i].Updating?
    && exists c | c in s.calls :: c.Fetched? && c.id == s.calls[st.i].shop.id
  }

  ghost predicate Fresh(s: State) {
    forall c | c in s.calls && c.Fetched? :: c.id in s.db && s.db[c.id] == c.row
  }

  lemma FreshStep(s: State, st: Step, s': State)
    requires Fresh(s) && Next(s, st) == Some(s') && !Intrudes(s, st)
    ensures Fresh(s')
  {
    forall c | c in s'.calls && c.Fetched? ensures c.id in s'.db && s'.db[c.id] == c.row {
      if c in s.calls {
        if st.Advance? && s.calls[st.i].Updating? { assert c.id != s.calls[st.i].shop.id; }
      }
    }
  }

  ghost predicate Undisturbed(s: State, steps: seq<Step>)
    requires Run(s, steps).Some?
  {
    steps == [] ||
    (Undisturbed(s, steps[..|steps| - 1]) && !Intrudes(Run(s, steps[..|steps| - 1]).value, steps[|steps| - 1]))
  }

  lemma {:induction false} FreshRun(s: State, steps: seq<Step>)
    requires Fresh(s) && Run(s, steps).Some? && Undisturbed(s, steps)
    ensures Fresh(Run(s, steps).value) && NoStaleFill(s, steps)
  {
    hide Next, Intrudes;
    if steps != [] {
      var front, st := steps[..|steps| - 1], steps[|steps| - 1];
      FreshRun(s, front);
      FreshStep(Run(s, front).value, st, Run(s, steps).value);
    }
  }

  /** If no update writes an id between a getById's database read and its fill for that id, every
      disagreement is about to be deleted, and once all calls have ended the cache and the database
      agree on every id. */
  lemma CacheAgreement(s: State, steps: seq<Step>)
    requires CacheInv(s) && Fresh(s) && Run(s, steps).Some? && Undisturbed(s, steps)
    ensures var t := Run(s, steps).value;
      CacheInv(t) && (Quiet(t) ==> forall id: nat :: Agrees(t, id))
  {
    hide Next, Undisturbed, StaleFill, NoStaleFill;
    FreshRun(s, steps);
    CacheAgreesExactlyWithoutStaleFills(s, steps);
    var t := Run(s, steps).value;
    forall id: nat | Quiet(t) ensures Agrees(t, id) {
      assert Agrees(t, id) || DeletePending(t, id);
    }
  }

  /** In such a run, a row is answered only while the database holds that row for that id, or while an
      update of that id has written and is about to delete the entry. */
  lemma AnswersAreCurrent(s: State, steps: seq<Step>, i: nat, row: Shop)
    requires CacheInv(s) && Fresh(s) && Run(s, steps).Some? && Undisturbed(s, steps)
    requires var t := Run(s, steps).value;
      i < |t.calls| && (t.calls[i].Hit? || t.calls[i].Fetched?) && Move(t, i).calls[i] == Answered(Row(row))
    ensures var t := Run(s, steps).value; InDatabase(t, t.calls[i].id, row) || DeletePending(t, t.calls[i].id)
  {
    FreshRun(s, steps);
    CacheAgreesExactlyWithoutStaleFills(s, steps);
    var t := Run(s, steps).value;
    assert t.calls[i] in t.calls;
    if t.calls[i].Hit? { assert Agrees(t, t.calls[i].id) || DeletePending(t, t.calls[i].id); }
  }

  /** Without the condition it can go wrong for good: a read fetches the old row, an update writes and
      deletes, the read fills the cache with the old row, and all calls have ended. */
  lemma StaleForever(row: Shop, update: Shop)
    requires row.id == update.id > 0 && Patched(row, update) != row
    ensures exists steps ::
              var s := State(map[row.id := row], map[], []);
              Run(s, steps).Some? && Quiet(Run(s, steps).value) && !Agrees(Run(s, steps).value, row.id)
  {
    var s := State(map[row.id := row], map[], []);
    var e3, s3 := ReadOld(s, row);
    var e6, s6 := WriteNew(s, e3, s3, row, update);
    var id := row.id;
    var s7 := State(s6.db, map[ShopKey(id) := Cached(row)], [Answered(Row(row)), Updated]);
    assert s6.calls[0 := Answered(Row(row))] == s7.calls;
    assert Move(s6, 0) == s7;
    var e7 := Go(s, e6, s6, Advance(0), s7);
  }

  /** A read misses the cache and fetches the row. */
  lemma ReadOld(s: State, row: Shop) returns (steps: seq<Step>, t: State)
    requires row.id > 0 && s == State(map[row.id := row], map[], [])
    ensures Run(s, steps) == Some(t) && t == State(s.db, map[], [Fetched(row.id, row)])
  {
    var s1, s2 := State(s.db, map[], [Lookup(row.id)]), State(s.db, map[], [Missed(row.id)]);
    t := State(s.db, map[], [Fetched(row.id, row)]);
    assert s.calls + [Lookup(row.id)] == s1.calls;
    steps := Go(s, [], s, NewGet(row.id), s1);
    assert s1.calls[0 := Missed(row.id)] == s2.calls && Move(s1, 0) == s2;
    steps := Go(s, steps, s1, Advance(0), s2);
    assert s2.calls[0 := Fetched(row.id, row)] == t.calls && Move(s2, 0) == t;
    steps := Go(s, steps, s2, Advance(0), t);
  }

  /** An update writes the database and deletes the cache entry. */
  lemma WriteNew(s0: State, before: seq<Step>, s: State, row: Shop, update: Shop) returns (steps: seq<Step>, t: State)
    requires row.id == update.id > 0 && s == State(map[row.id := row], map[], [Fetched(row.id, row)])
    requires Run(s0, before) == Some(s)
    ensures Run(s0, steps) == Some(t)
    ensures t == State(map[row.id := Patched(row, update)], map[], [Fetched(row.id, row), Updated])
  {
    var read := Fetched(row.id, row);
    var s1 := State(s.db, map[], [read, Updating(update)]);
    var s2 := State(map[row.id := Patched(row, update)], map[], [read, Written(row.id)]);
    t := State(s2.db, map[], [read, Updated]);
    assert s.calls + [Updating(update)] == s1.calls;
    steps := Go(s0, before, s, NewUpdate(update), s1);
    assert s1.calls[1 := Written(row.id)] == s2.calls && Move(s1, 1) == s2;
    steps := Go(s0, steps, s1, Advance(1), s2);
    assert s2.calls[1 := Updated] == t.calls && Move(s2, 1) == t;
    steps := Go(s0, steps, s2, Advance(1), t);
  }
}
