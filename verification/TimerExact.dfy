/** The table keeps its contract: every timer fires at exactly the ticks it should. */
module TimerExact {
  import opened Modulo
  import opened TimerTable

  ghost predicate DistinctIds(s: seq<Timer>) {
    forall i, j :: 0 <= i < j < |s| ==> s[i].id != s[j].id
  }

  predicate HasId(s: seq<Timer>, id: Id) {
    exists t :: t in s && t.id == id
  }

  /** due is the first tick after `now` at which b should fire. */
  ghost predicate NextFiring(b: Birth, nb: nat, now: nat, due: nat)
    requires nb > 0
  {
    due > now && FiresAt(b, nb, due) && forall t :: now < t < due ==> !FiresAt(b, nb, t)
  }

  /** An entry says what its birth says, and when it is due next. */
  ghost predicate EntryOk(tb: Table, t: Timer)
    requires tb.nb > 0
  {
    && t.id in tb.births
    && tb.births[t.id].cycle == t.cycle && tb.births[t.id].repeating == t.repeating
    && NextFiring(tb.births[t.id], tb.nb, tb.now, Due(t, tb.nb))
  }

  /** An entry taken out to be fired at this tick. */
  ghost predicate PendingOk(tb: Table, t: Timer)
    requires tb.nb > 0
  {
    && t.id in tb.births
    && tb.births[t.id].cycle == t.cycle && tb.births[t.id].repeating == t.repeating
    && tb.now > 0 && FiresAt(tb.births[t.id], tb.nb, tb.now)
    && Horizon(tb, t.id) == tb.now
    && FiringsOf(tb.log, t.id) == Expected(tb.births[t.id], tb.nb, tb.now - 1)
  }

  /** Nothing more is to come for b. */
  ghost predicate Over(b: Birth, nb: nat, now: nat)
    requires nb > 0
  {
    forall t :: t > now ==> !FiresAt(b, nb, t)
  }

  /** Ids are known and unique, and every entry is right. */
  ghost predicate Shape(tb: Table, pending: seq<Timer>, flight: set<Id>) {
    && tb.nb > 0
    && (forall id :: id in tb.births ==> id < tb.nextId && tb.births[id].at <= tb.now)
    && (forall id :: id in tb.deaths ==> id in tb.births && tb.deaths[id] <= tb.now)
    && (forall f :: f in tb.log ==> f.id in tb.births)
    && (forall id :: id in flight ==> id in tb.births)
    && DistinctIds(tb.timers + pending)
    && (forall t :: t in tb.timers ==> EntryOk(tb, t) && t.id !in flight)
    && (forall t :: t in pending ==> PendingOk(tb, t) && t.id !in flight)
  }

  /** Whoever is not waiting to be fired at this tick has fired as it should. */
  ghost predicate Fired(tb: Table, pending: seq<Timer>)
    requires tb.nb > 0
  {
    forall id :: id in tb.births && !HasId(pending, id) ==>
      FiringsOf(tb.log, id) == Expected(tb.births[id], tb.nb, Horizon(tb, id))
  }

  /** Whoever is in none of the lists, and was not deleted, is over. */
  ghost predicate Gone(tb: Table, pending: seq<Timer>, flight: set<Id>)
    requires tb.nb > 0
  {
    forall id ::
      id in tb.births && id !in tb.deaths && !HasId(tb.timers, id) && !HasId(pending, id) && id !in flight ==>
      Over(tb.births[id], tb.nb, tb.now)
  }

  /** In the middle of a tick: `pending` are still to be fired, `flight` is being fired. */
  ghost predicate Inv(tb: Table, pending: seq<Timer>, flight: set<Id>) {
    Shape(tb, pending, flight) && Fired(tb, pending) && Gone(tb, pending, flight)
  }

  // ----- arithmetic of periods

  /** A repeating timer that fires now fires next one period later, and not before. */
  lemma NextAfterFiring(b: Birth, nb: nat, now: nat)
    requires nb > 0 && b.repeating && FiresAt(b, nb, now)
    ensures NextFiring(b, nb, now, now + Period(b, nb))
  {
    ModStep(now - b.at, Period(b, nb));
  }

  lemma NextAfterBirth(b: Birth, nb: nat)
    requires nb > 0
    ensures NextFiring(b, nb, b.at, b.at + Period(b, nb))
  {
    ModStep(0, Period(b, nb));
  }

  // ----- filters

  lemma {:induction false} FilterDistinct(p: Timer -> bool, s: seq<Timer>)
    requires DistinctIds(s)
    ensures DistinctIds(Filter(p, s))
  {
    if s != [] {
      FilterDistinct(p, s[1..]);
      FilterMembers(p, s[1..]);
      assert forall t :: t in Filter(p, s[1..]) ==> t in s[1..] && t.id != s[0].id;
    }
  }

  lemma DistinctJoin(a: seq<Timer>, b: seq<Timer>)
    requires DistinctIds(a) && DistinctIds(b)
    requires forall x, y :: x in a && y in b ==> x.id != y.id
    ensures DistinctIds(a + b)
  {
  }

  lemma SameIdSame(s: seq<Timer>, x: Timer, y: Timer)
    requires DistinctIds(s) && x in s && y in s && x.id == y.id
    ensures x == y
  {
  }

  // ----- the invariant, operation by operation

  lemma {:induction false} FiringsNone(log: seq<Firing>, id: Id)
    requires forall f :: f in log ==> f.id != id
    ensures FiringsOf(log, id) == []
  {
    if log != [] { FiringsNone(log[..|log| - 1], id); }
  }

  lemma {:induction false} ExpectedBefore(b: Birth, nb: nat, until: nat)
    requires nb > 0 && until <= b.at
    ensures Expected(b, nb, until) == []
  {
    if until > 0 { ExpectedBefore(b, nb, until - 1); }
  }

  lemma DelKeepsInv(tb: Table, id: Id, pending: seq<Timer>, flight: set<Id>)
    requires Inv(tb, pending, flight)
    ensures Inv(Apply(tb, Del(id)), pending, flight)
  {
    DelKeepsShape(tb, id, pending, flight);
  }

  lemma DelKeepsShape(tb: Table, id: Id, pending: seq<Timer>, flight: set<Id>)
    requires Shape(tb, pending, flight)
    ensures Shape(Apply(tb, Del(id)), pending, flight)
  {
  }

  lemma AddKeepsInv(tb: Table, cycle: nat, repeating: bool, pending: seq<Timer>, flight: set<Id>)
    requires Inv(tb, pending, flight)
    ensures Inv(Apply(tb, Add(cycle, repeating)), pending, flight)
  {
    AddKeepsShape(tb, cycle, repeating, pending, flight);
    var t := Timer(tb.nextId, cycle, repeating, tb.now + cycle);
    ExpectedBefore(Birth(tb.now, cycle, repeating), tb.nb, tb.now);
    FiringsNone(tb.log, tb.nextId);
    HasIdAppend(tb.timers, t);
  }

  /** Other timers do not see a new birth. */
  lemma BirthKeepsEntries(tb: Table, tb': Table, x: Timer)
    requires tb.nb > 0 && tb'.nb == tb.nb && tb'.now == tb.now && tb'.log == tb.log && tb'.deaths == tb.deaths
    requires forall id :: id in tb.births ==> id in tb'.births && tb'.births[id] == tb.births[id]
    ensures EntryOk(tb, x) ==> EntryOk(tb', x)
    ensures PendingOk(tb, x) ==> PendingOk(tb', x)
  {
  }

  lemma AddKeepsShape(tb: Table, cycle: nat, repeating: bool, pending: seq<Timer>, flight: set<Id>)
    requires Shape(tb, pending, flight)
    ensures Shape(Apply(tb, Add(cycle, repeating)), pending, flight)
  {
    var tb', t := Apply(tb, Add(cycle, repeating)), Timer(tb.nextId, cycle, repeating, tb.now + cycle);
    NextAfterBirth(Birth(tb.now, cycle, repeating), tb.nb);
    AddDistinct(tb, pending, t);
    forall x | x in tb.timers || x in pending
      ensures (x in tb.timers ==> EntryOk(tb', x)) && (x in pending ==> PendingOk(tb', x))
    {
      BirthKeepsEntries(tb, tb', x);
    }
    assert EntryOk(tb', t);
  }

  lemma AddDistinct(tb: Table, pending: seq<Timer>, t: Timer)
    requires tb.nb > 0 && t.id == tb.nextId && DistinctIds(tb.timers + pending)
    requires forall id :: id in tb.births ==> id < tb.nextId
    requires forall x :: x in tb.timers || x in pending ==> x.id in tb.births
    ensures DistinctIds((tb.timers + [t]) + pending)
  {
    InsertDistinct(tb.timers, pending, t);
  }

  lemma HasIdAppend(s: seq<Timer>, t: Timer)
    ensures forall id :: HasId(s + [t], id) <==> HasId(s, id) || t.id == id
  {
    forall id | HasId(s, id) || t.id == id
      ensures HasId(s + [t], id)
    {
      var x :| (x in s || x == t) && x.id == id;
      assert x in s + [t];
    }
  }

  lemma HasIdRest(s: seq<Timer>)
    requires s != []
    ensures forall id :: HasId(s, id) <==> HasId(s[1..], id) || s[0].id == id
  {
    forall id | HasId(s, id)
      ensures HasId(s[1..], id) || s[0].id == id
    {
      var x :| x in s && x.id == id;
      assert x == s[0] || x in s[1..];
    }
    forall id | HasId(s[1..], id)
      ensures HasId(s, id)
    {
      var x :| x in s[1..] && x.id == id;
      assert x in s;
    }
  }

  lemma InsertDistinct(a: seq<Timer>, b: seq<Timer>, t: Timer)
    requires DistinctIds(a + b)
    requires forall x :: x in a || x in b ==> x.id != t.id
    ensures DistinctIds((a + [t]) + b)
  {
    var c, d := a + b, (a + [t]) + b;
    assert forall i :: 0 <= i < |d| ==> d[i] == if i < |a| then c[i] else if i == |a| then t else c[i - 1];
    forall i, j | 0 <= i < j < |d|
      ensures d[i].id != d[j].id
    {
      var i', j' := if i < |a| then i else i - 1, if j < |a| then j else j - 1;
      if i == |a| {
        assert d[j] in b;
      } else if j == |a| {
        assert d[i] in a;
      } else {
        assert d[i] == c[i'] && d[j] == c[j'];
      }
    }
  }

  lemma OpKeepsInv(tb: Table, op: Op, pending: seq<Timer>, flight: set<Id>)
    requires Inv(tb, pending, flight)
    ensures Inv(Apply(tb, op), pending, flight)
  {
    match op {
      case Add(c, r) => AddKeepsInv(tb, c, r, pending, flight);
      case Del(id) => DelKeepsInv(tb, id, pending, flight);
    }
  }

  lemma {:induction false} OpsKeepInv(tb: Table, ops: seq<Op>, pending: seq<Timer>, flight: set<Id>)
    requires Inv(tb, pending, flight)
    ensures Inv(ApplyAll(tb, ops), pending, flight)
    decreases |ops|
  {
    if ops != [] {
      OpKeepsInv(tb, ops[0], pending, flight);
      OpsKeepInv(Apply(tb, ops[0]), ops[1..], pending, flight);
    }
  }

  /** Operations leave time, history and the births there were. */
  lemma {:induction false} OpsKeepHistory(tb: Table, ops: seq<Op>)
    requires forall id :: id in tb.births ==> id < tb.nextId
    ensures var t := ApplyAll(tb, ops);
      && t.nb == tb.nb && t.now == tb.now && t.log == tb.log
      && (forall id :: id in tb.births ==> id in t.births && t.births[id] == tb.births[id])
    decreases |ops|
  {
    if ops != [] { OpsKeepHistory(Apply(tb, ops[0]), ops[1..]); }
  }

  /** The first pending timer fires: its tick is added to its firings. */
  lemma FiringKeepsInv(tb: Table, pending: seq<Timer>)
    requires Inv(tb, pending, {}) && pending != []
    ensures Inv(tb.(log := tb.log + [Firing(pending[0].id, tb.now)]), pending[1..], {pending[0].id})
  {
    var t := pending[0];
    var tb' := tb.(log := tb.log + [Firing(t.id, tb.now)]);
    assert t in pending && PendingOk(tb, t);
    RestDistinct(tb.timers, pending);
    HasIdRest(pending);
    FiringKeepsShape(tb, pending);
    FiringKeepsFired(tb, pending);
    assert Gone(tb', pending[1..], {t.id});
  }

  lemma FiringKeepsFired(tb: Table, pending: seq<Timer>)
    requires tb.nb > 0 && pending != [] && PendingOk(tb, pending[0]) && Fired(tb, pending)
    ensures Fired(tb.(log := tb.log + [Firing(pending[0].id, tb.now)]), pending[1..])
  {
    HasIdRest(pending);
    LogOne(tb.log, pending[0].id, tb.now);
  }

  lemma LogOne(log: seq<Firing>, id: Id, now: nat)
    ensures forall i :: FiringsOf(log + [Firing(id, now)], i) == FiringsOf(log, i) + (if i == id then [now] else [])
  {
    assert (log + [Firing(id, now)])[..|log|] == log;
  }

  lemma FiringKeepsShape(tb: Table, pending: seq<Timer>)
    requires Shape(tb, pending, {}) && pending != []
    ensures Shape(tb.(log := tb.log + [Firing(pending[0].id, tb.now)]), pending[1..], {pending[0].id})
  {
    var tb' := tb.(log := tb.log + [Firing(pending[0].id, tb.now)]);
    assert pending[0] in pending && PendingOk(tb, pending[0]);
    LogOne(tb.log, pending[0].id, tb.now);
    RestDistinct(tb.timers, pending);
    forall x | x in pending[1..]
      ensures PendingOk(tb', x)
    {
      assert x in pending && PendingOk(tb, x);
    }
    forall x | x in tb.timers
      ensures EntryOk(tb', x)
    {
      assert EntryOk(tb, x);
    }
  }

  lemma RestDistinct(a: seq<Timer>, pending: seq<Timer>)
    requires pending != [] && DistinctIds(a + pending)
    ensures DistinctIds(a + pending[1..])
    ensures forall x :: x in a || x in pending[1..] ==> x.id != pending[0].id
  {
    var c, d := a + pending, a + pending[1..];
    assert c[|a|] == pending[0];
    assert forall i :: 0 <= i < |d| ==> d[i] == c[if i < |a| then i else i + 1];
    assert forall x :: x in a || x in pending[1..] ==> x in d;
  }

  /** A repeating timer goes back into the table; a timer that fires once is over. */
  lemma LandingKeepsInv(tb: Table, t: Timer, pending: seq<Timer>)
    requires Inv(tb, pending, {t.id})
    requires tb.births[t.id].cycle == t.cycle && tb.births[t.id].repeating == t.repeating
    requires FiresAt(tb.births[t.id], tb.nb, tb.now)
    ensures Inv(if t.repeating then Insert(tb, t.id, t.cycle, true) else tb, pending, {})
  {
    if t.repeating {
      ReturnKeepsShape(tb, t, pending);
      HasIdAppend(tb.timers, Timer(t.id, t.cycle, true, tb.now + t.cycle));
    }
  }

  lemma ReturnKeepsShape(tb: Table, t: Timer, pending: seq<Timer>)
    requires Shape(tb, pending, {t.id}) && t.repeating
    requires tb.births[t.id].cycle == t.cycle && tb.births[t.id].repeating && FiresAt(tb.births[t.id], tb.nb, tb.now)
    ensures Shape(Insert(tb, t.id, t.cycle, true), pending, {})
  {
    var tb' := Insert(tb, t.id, t.cycle, true);
    var t' := Timer(t.id, t.cycle, true, tb.now + t.cycle);
    NextAfterFiring(tb.births[t.id], tb.nb, tb.now);
    InsertDistinct(tb.timers, pending, t');
    forall x | x in tb'.timers ensures EntryOk(tb', x) { assert x == t' || x in tb.timers; }
  }

  lemma FireKeepsInv(tb: Table, pending: seq<Timer>, cb: Callback)
    requires Inv(tb, pending, {}) && pending != []
    ensures Inv(Fire(tb, pending[0], cb), pending[1..], {})
  {
    var t := pending[0];
    var tb1 := tb.(log := tb.log + [Firing(t.id, tb.now)]);
    assert t in pending && PendingOk(tb, t);
    FiringKeepsInv(tb, pending);
    OpsKeepInv(tb1, cb(t.id, tb1.log), pending[1..], {t.id});
    OpsKeepHistory(tb1, cb(t.id, tb1.log));
    LandingKeepsInv(ApplyAll(tb1, cb(t.id, tb1.log)), t, pending[1..]);
  }

  lemma {:induction false} FireAllKeepsInv(tb: Table, pending: seq<Timer>, cb: Callback)
    requires Inv(tb, pending, {})
    ensures Inv(FireAll(tb, pending, cb), [], {})
    decreases |pending|
  {
    if pending != [] {
      FireKeepsInv(tb, pending, cb);
      FireAllKeepsInv(Fire(tb, pending[0], cb), pending[1..], cb);
    }
  }

  // ----- the beginning of a tick

  lemma FirableMembers(tb: Table, T: nat)
    ensures forall t :: t in Firable(tb, T) <==> (t in tb.timers && Due(t, tb.nb) == T && t.id !in tb.deaths)
    ensures forall t :: t in TakeDue(tb, T).timers <==> (t in tb.timers && Due(t, tb.nb) != T)
  {
    FilterMembers((t: Timer) => t.cycle > 0 && t.ts == T && t.id !in tb.deaths, tb.timers);
    FilterMembers((t: Timer) => t.cycle == 0 && t.ts + tb.nb == T && t.id !in tb.deaths, tb.timers);
    FilterMembers((t: Timer) => Due(t, tb.nb) != T, tb.timers);
  }

  lemma TakenDistinct(tb: Table, T: nat)
    requires DistinctIds(tb.timers)
    ensures DistinctIds(TakeDue(tb, T).timers + Firable(tb, T))
  {
    var p := (t: Timer) => t.cycle > 0 && t.ts == T && t.id !in tb.deaths;
    var q := (t: Timer) => t.cycle == 0 && t.ts + tb.nb == T && t.id !in tb.deaths;
    var r := (t: Timer) => Due(t, tb.nb) != T;
    FilterDistinct(p, tb.timers);
    FilterDistinct(q, tb.timers);
    FilterDistinct(r, tb.timers);
    FilterMembers(p, tb.timers);
    FilterMembers(q, tb.timers);
    FilterMembers(r, tb.timers);
    forall x, y | x in tb.timers && y in tb.timers && x.id == y.id
      ensures x == y
    {
      SameIdSame(tb.timers, x, y);
    }
    DistinctJoin(Filter(p, tb.timers), Filter(q, tb.timers));
    DistinctJoin(Filter(r, tb.timers), Filter(p, tb.timers) + Filter(q, tb.timers));
  }

  lemma DueIsPending(tb: Table, tb': Table, t: Timer)
    requires tb.nb > 0 && EntryOk(tb, t) && Due(t, tb.nb) == tb.now + 1 && t.id !in tb.deaths
    requires FiringsOf(tb.log, t.id) == Expected(tb.births[t.id], tb.nb, tb.now)
    requires tb' == tb.(now := tb.now + 1, timers := tb'.timers)
    ensures PendingOk(tb', t)
  {
  }

  lemma NotDueStaysOk(tb: Table, tb': Table, t: Timer)
    requires tb.nb > 0 && EntryOk(tb, t) && Due(t, tb.nb) != tb.now + 1
    requires tb' == tb.(now := tb.now + 1, timers := tb'.timers)
    ensures EntryOk(tb', t)
  {
  }

  /** What the beginning of a tick does to the table tb: time goes on, and p are taken out. */
  ghost predicate Taken(tb: Table, tb': Table, p: seq<Timer>) {
    && tb' == tb.(now := tb.now + 1, timers := tb'.timers)
    && DistinctIds(tb'.timers + p)
    && (forall t :: t in p <==> (t in tb.timers && Due(t, tb.nb) == tb.now + 1 && t.id !in tb.deaths))
    && (forall t :: t in tb'.timers <==> (t in tb.timers && Due(t, tb.nb) != tb.now + 1))
  }

  lemma TakenKeepsShape(tb: Table, tb': Table, p: seq<Timer>)
    requires Inv(tb, [], {}) && Taken(tb, tb', p)
    ensures Shape(tb', p, {})
  {
    assert forall id :: !HasId([], id);
    forall t | t in p ensures PendingOk(tb', t) { DueIsPending(tb, tb', t); }
    forall t | t in tb'.timers ensures EntryOk(tb', t) { NotDueStaysOk(tb, tb', t); }
  }

  /** A timer that is not fired at this tick was not to fire at it. */
  lemma NotDueNotMissed(tb: Table, tb': Table, p: seq<Timer>, id: Id)
    requires Inv(tb, [], {}) && Taken(tb, tb', p) && id in tb.births && id !in tb.deaths && !HasId(p, id)
    ensures !FiresAt(tb.births[id], tb.nb, tb.now + 1)
  {
    if HasId(tb.timers, id) {
      var t :| t in tb.timers && t.id == id;
      assert EntryOk(tb, t) && t !in p;
    } else {
      assert !HasId([], id);
      assert Over(tb.births[id], tb.nb, tb.now);
    }
  }

  lemma TakenKeepsFired(tb: Table, tb': Table, p: seq<Timer>)
    requires Inv(tb, [], {}) && Taken(tb, tb', p)
    ensures Fired(tb', p)
  {
    forall id | id in tb'.births && !HasId(p, id)
      ensures FiringsOf(tb'.log, id) == Expected(tb'.births[id], tb'.nb, Horizon(tb', id))
    {
      assert !HasId([], id);
      if id !in tb.deaths { NotDueNotMissed(tb, tb', p, id); }
    }
  }

  lemma TakenKeepsGone(tb: Table, tb': Table, p: seq<Timer>)
    requires Inv(tb, [], {}) && Taken(tb, tb', p)
    ensures Gone(tb', p, {})
  {
    assert forall id :: !HasId([], id);
    forall id | HasId(tb.timers, id) && id !in tb.deaths
      ensures HasId(tb'.timers, id) || HasId(p, id)
    {
      var t :| t in tb.timers && t.id == id;
      assert if Due(t, tb.nb) == tb.now + 1 then t in p else t in tb'.timers;
    }
  }

  lemma TakenKeepsInv(tb: Table, tb': Table, p: seq<Timer>)
    requires Inv(tb, [], {}) && Taken(tb, tb', p)
    ensures Inv(tb', p, {})
  {
    TakenKeepsShape(tb, tb', p);
    TakenKeepsFired(tb, tb', p);
    TakenKeepsGone(tb, tb', p);
  }

  lemma TakeDueTakes(tb: Table)
    requires DistinctIds(tb.timers)
    ensures Taken(tb, TakeDue(tb, tb.now + 1), Firable(tb, tb.now + 1))
  {
    TakenDistinct(tb, tb.now + 1);
    FirableMembers(tb, tb.now + 1);
  }

  lemma TakeDueKeepsInv(tb: Table)
    requires Inv(tb, [], {})
    ensures Inv(TakeDue(tb, tb.now + 1), Firable(tb, tb.now + 1), {})
  {
    assert tb.timers + [] == tb.timers;
    TakeDueTakes(tb);
    TakenKeepsInv(tb, TakeDue(tb, tb.now + 1), Firable(tb, tb.now + 1));
  }

  // ----- whole runs

  lemma CommandKeepsInv(tb: Table, c: Command, cb: Callback)
    requires Inv(tb, [], {})
    ensures Inv(Perform(tb, c, cb), [], {})
  {
    match c {
      case Do(Add(cycle, r)) => AddKeepsInv(tb, cycle, r, [], {});
      case Do(Del(id)) => DelKeepsInv(tb, id, [], {});
      case DoTick => TickKeepsInv(tb, cb);
    }
  }

  lemma TickKeepsInv(tb: Table, cb: Callback)
    requires Inv(tb, [], {})
    ensures Inv(Tick(tb, cb), [], {})
  {
    TakeDueKeepsInv(tb);
    FiringEndsTick(tb, cb);
  }

  lemma FiringEndsTick(tb: Table, cb: Callback)
    requires Inv(TakeDue(tb, tb.now + 1), Firable(tb, tb.now + 1), {})
    ensures Inv(Tick(tb, cb), [], {})
  {
    TickIs(tb, cb);
    FireAllEnds(TakeDue(tb, tb.now + 1), Firable(tb, tb.now + 1), cb, Tick(tb, cb));
  }

  lemma TickIs(tb: Table, cb: Callback)
    ensures Tick(tb, cb) == FireAll(TakeDue(tb, tb.now + 1), Firable(tb, tb.now + 1), cb)
  {
  }

  lemma FireAllEnds(tb: Table, pending: seq<Timer>, cb: Callback, after: Table)
    requires Inv(tb, pending, {}) && after == FireAll(tb, pending, cb)
    ensures Inv(after, [], {})
  {
    FireAllKeepsInv(tb, pending, cb);
  }

  lemma {:induction false} RunKeepsInv(tb: Table, cs: seq<Command>, cb: Callback)
    requires Inv(tb, [], {})
    ensures Inv(Run(tb, cs, cb), [], {})
    decreases |cs|
  {
    if cs != [] {
      CommandKeepsInv(tb, cs[0], cb);
      RunKeepsInv(Perform(tb, cs[0], cb), cs[1..], cb);
    }
  }

  /** In every run of additions, deletions and ticks, with any callbacks, every timer fires at
      exactly the ticks its birth asks for, up to now or up to its deletion. */
  lemma TimersAreExact(nb: nat, cs: seq<Command>, cb: Callback)
    requires nb > 0
    ensures Exact(Run(Empty(nb), cs, cb))
  {
    RunKeepsInv(Empty(nb), cs, cb);
    var tb := Run(Empty(nb), cs, cb);
    assert forall id :: !HasId([], id);
  }

  /** What Expected means: exactly the ticks up to the horizon at which the birth asks to fire. */
  lemma {:induction false} ExpectedMeans(b: Birth, nb: nat, until: nat)
    requires nb > 0
    ensures forall t: nat :: t in Expected(b, nb, until) <==> t <= until && FiresAt(b, nb, t)
  {
    if until > 0 { ExpectedMeans(b, nb, until - 1); }
  }

  /** ... in order, and so each of them once. */
  lemma {:induction false} ExpectedInOrder(b: Birth, nb: nat, until: nat)
    requires nb > 0
    ensures forall i, j :: 0 <= i < j < |Expected(b, nb, until)| ==>
        Expected(b, nb, until)[i] < Expected(b, nb, until)[j]
  {
    if until > 0 {
      ExpectedInOrder(b, nb, until - 1);
      ExpectedMeans(b, nb, until - 1);
      var e := Expected(b, nb, until - 1);
      assert forall i :: 0 <= i < |e| ==> e[i] in e;
    }
  }
}
