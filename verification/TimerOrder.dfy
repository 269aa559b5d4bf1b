/** The order of firing within one tick. */
module TimerOrder {
  import opened TimerTable
  import opened TimerExact

  function FiringsAt(ts: seq<Timer>, now: nat): (r: seq<Firing>)
    ensures |r| == |ts|
  {
    seq(|ts|, i requires 0 <= i < |ts| => Firing(ts[i].id, now))
  }

  lemma {:induction false} OpsKeepLog(tb: Table, ops: seq<Op>)
    ensures ApplyAll(tb, ops).log == tb.log && ApplyAll(tb, ops).now == tb.now
    decreases |ops|
  {
    if ops != [] { OpsKeepLog(Apply(tb, ops[0]), ops[1..]); }
  }

  lemma {:induction false} FireAllLogs(tb: Table, ts: seq<Timer>, cb: Callback)
    ensures FireAll(tb, ts, cb).log == tb.log + FiringsAt(ts, tb.now)
    decreases |ts|
  {
    if ts != [] {
      var one := Firing(ts[0].id, tb.now);
      var tb1 := tb.(log := tb.log + [one]);
      OpsKeepLog(tb1, cb(ts[0].id, tb1.log));
      FireAllLogs(Fire(tb, ts[0], cb), ts[1..], cb);
      assert FiringsAt(ts, tb.now) == [one] + FiringsAt(ts[1..], tb.now);
    } else {
      assert FiringsAt(ts, tb.now) == [];
    }
  }

  /** Whatever the callbacks do, a tick fires the timers that were due when it began, in that order. */
  lemma TickLogs(tb: Table, cb: Callback)
    ensures Tick(tb, cb).log == tb.log + FiringsAt(Firable(tb, tb.now + 1), tb.now + 1)
  {
    FireAllLogs(TakeDue(tb, tb.now + 1), Firable(tb, tb.now + 1), cb);
  }

  lemma {:induction false} FilterKeepsOrder(p: Timer -> bool, s: seq<Timer>, i: nat, j: nat) returns (a: nat, b: nat)
    requires i < j < |s| && p(s[i]) && p(s[j])
    ensures a < b < |Filter(p, s)| && Filter(p, s)[a] == s[i] && Filter(p, s)[b] == s[j]
    decreases |s|
  {
    var skip := if p(s[0]) then 1 else 0;
    if i > 0 {
      a, b := FilterKeepsOrder(p, s[1..], i - 1, j - 1);
      a, b := a + skip, b + skip;
    } else {
      b := FilterHas(p, s[1..], j - 1);
      a, b := 0, b + skip;
    }
  }

  lemma {:induction false} FilterHas(p: Timer -> bool, s: seq<Timer>, j: nat) returns (b: nat)
    requires j < |s| && p(s[j])
    ensures b < |Filter(p, s)| && Filter(p, s)[b] == s[j]
    decreases |s|
  {
    if j > 0 {
      b := FilterHas(p, s[1..], j - 1);
      b := b + (if p(s[0]) then 1 else 0);
    } else {
      b := 0;
    }
  }

  /** Timers with the same deadline fire in the order in which they were inserted, where a repeating
      timer counts as inserted when it last fired. */
  lemma EqualDeadlinesFireInOrder(tb: Table, cb: Callback, i: nat, j: nat) returns (a: nat, b: nat)
    requires i < j < |tb.timers|
    requires forall t :: t == tb.timers[i] || t == tb.timers[j] ==>
        t.cycle > 0 && t.ts == tb.now + 1 && t.id !in tb.deaths
    ensures |tb.log| <= a < b < |Tick(tb, cb).log|
    ensures Tick(tb, cb).log[a] == Firing(tb.timers[i].id, tb.now + 1)
    ensures Tick(tb, cb).log[b] == Firing(tb.timers[j].id, tb.now + 1)
  {
    var T := tb.now + 1;
    var p := (t: Timer) => t.cycle > 0 && t.ts == T && t.id !in tb.deaths;
    var due := Filter(p, tb.timers);
    a, b := FilterKeepsOrder(p, tb.timers, i, j);
    TickLogs(tb, cb);
    assert due <= Firable(tb, T);
    assert Firable(tb, T)[a] == due[a] && Firable(tb, T)[b] == due[b];
    a, b := |tb.log| + a, |tb.log| + b;
  }

  /** In every run a timer first fires when its cycle is over, except a timer of cycle 0, which waits
      for a whole turn of the wheel; unless it was deleted before. */
  lemma FirstFiring(nb: nat, cs: seq<Command>, cb: Callback, id: Id)
    requires nb > 0 && id in Run(Empty(nb), cs, cb).births
    ensures var tb := Run(Empty(nb), cs, cb);
      var b, fired := tb.births[id], FiringsOf(tb.log, id);
      && tb.nb == nb
      && (forall t :: t in fired ==> t >= b.at + Period(b, nb))
      && (b.at + Period(b, nb) <= Horizon(tb, id) ==> fired != [] && fired[0] == b.at + Period(b, nb))
      && (b.at + b.cycle <= Horizon(tb, id) ==> (b.at + b.cycle in fired <==> b.cycle > 0))
  {
    var tb := Run(Empty(nb), cs, cb);
    var b, until := tb.births[id], Horizon(tb, id);
    TimersAreExact(nb, cs, cb);
    RunKeepsSlots(Empty(nb), cs, cb);
    ExpectedMeans(b, nb, until);
    NextAfterBirth(b, nb);
    if b.at + Period(b, nb) <= until {
      var e := Expected(b, nb, until);
      assert b.at + Period(b, nb) in e && e[0] in e;
      ExpectedInOrder(b, nb, until);
    }
  }

  lemma {:induction false} FireAllKeepsSlots(tb: Table, ts: seq<Timer>, cb: Callback)
    ensures FireAll(tb, ts, cb).nb == tb.nb
    decreases |ts|
  {
    if ts != [] {
      var tb1 := tb.(log := tb.log + [Firing(ts[0].id, tb.now)]);
      OpsKeepSlots(tb1, cb(ts[0].id, tb1.log));
      FireAllKeepsSlots(Fire(tb, ts[0], cb), ts[1..], cb);
    }
  }

  lemma {:induction false} OpsKeepSlots(tb: Table, ops: seq<Op>)
    ensures ApplyAll(tb, ops).nb == tb.nb
    decreases |ops|
  {
    if ops != [] { OpsKeepSlots(Apply(tb, ops[0]), ops[1..]); }
  }

  lemma {:induction false} RunKeepsSlots(tb: Table, cs: seq<Command>, cb: Callback)
    ensures Run(tb, cs, cb).nb == tb.nb
    decreases |cs|
  {
    if cs != [] {
      if cs[0].DoTick? { FireAllKeepsSlots(TakeDue(tb, tb.now + 1), Firable(tb, tb.now + 1), cb); }
      RunKeepsSlots(Perform(tb, cs[0], cb), cs[1..], cb);
    }
  }

  /** A run in which a deletion comes too late: two timers are due at tick 1, the callback of the first
      deletes the second, and the second fires in the same tick nevertheless. */
  lemma DeletedStillFires(nb: nat, cb: Callback)
    requires nb > 0 && cb(0, [Firing(0, 1)]) == [Del(1)]
    ensures var tb := Run(Empty(nb), [Do(Add(1, false)), Do(Add(1, false)), DoTick], cb);
      && tb.log == [Firing(0, 1), Firing(1, 1)]
      && 1 in tb.deaths && tb.deaths[1] == 1
  {
    var tb := Apply(Apply(Empty(nb), Add(1, false)), Add(1, false));
    var cs := [Do(Add(1, false)), Do(Add(1, false)), DoTick];
    assert cs[1..][1..] == [DoTick] && [DoTick][1..] == [];
    assert Run(Empty(nb), cs, cb) == Run(Apply(Empty(nb), Add(1, false)), cs[1..], cb) == Run(tb, [DoTick], cb);
    assert Run(tb, [DoTick], cb) == Run(Tick(tb, cb), [], cb) == Tick(tb, cb);
    var a, c := Timer(0, 1, false, 1), Timer(1, 1, false, 1);
    assert tb.timers == [a, c];
    BothDue(tb, a, c);
    FiresBoth(TakeDue(tb, 1), a, c, cb);
  }

  lemma BothDue(tb: Table, a: Timer, c: Timer)
    requires tb.timers == [a, c] && tb.deaths == map[]
    requires a.cycle == 1 && a.ts == 1 && c.cycle == 1 && c.ts == 1
    ensures Firable(tb, 1) == [a, c]
  {
    var p := (t: Timer) => t.cycle > 0 && t.ts == 1 && t.id !in tb.deaths;
    var q := (t: Timer) => t.cycle == 0 && t.ts + tb.nb == 1 && t.id !in tb.deaths;
    assert [a, c][1..] == [c] && [c][1..] == [];
    assert Filter(p, [c]) == [c] && Filter(p, [a, c]) == [a, c];
    assert Filter(q, []) == [] && Filter(q, [c]) == [] + Filter(q, []);
    assert Filter(q, [a, c]) == [] + Filter(q, [c]);
  }

  lemma FiresBoth(tb: Table, a: Timer, c: Timer, cb: Callback)
    requires tb.log == [] && tb.now == 1 && !a.repeating && !c.repeating && 1 in tb.births && tb.deaths == map[]
    requires cb(a.id, [Firing(a.id, 1)]) == [Del(1)]
    ensures var t := FireAll(tb, [a, c], cb);
      t.log == [Firing(a.id, 1), Firing(c.id, 1)] && 1 in t.deaths && t.deaths[1] == 1
  {
    var tb1 := tb.(log := [Firing(a.id, 1)]);
    assert tb.log + [Firing(a.id, 1)] == [Firing(a.id, 1)];
    assert [Del(1)][1..] == [];
    var tb2 := Apply(tb1, Del(1));
    assert ApplyAll(tb1, [Del(1)]) == ApplyAll(tb2, []) == tb2;
    assert Fire(tb, a, cb) == tb2;
    assert [a, c][1..] == [c] && [c][1..] == [];
    FireAllLogs(tb2, [c], cb);
    var tb3 := tb2.(log := tb2.log + [Firing(c.id, 1)]);
    OpsKeepDeath(tb3, cb(c.id, tb3.log), 1);
    assert FireAll(tb, [a, c], cb) == FireAll(tb2, [c], cb) == FireAll(Fire(tb2, c, cb), [], cb) == Fire(tb2, c, cb);
  }

  lemma {:induction false} OpsKeepDeath(tb: Table, ops: seq<Op>, id: Id)
    requires id in tb.deaths
    ensures id in ApplyAll(tb, ops).deaths && ApplyAll(tb, ops).deaths[id] == tb.deaths[id]
    decreases |ops|
  {
    if ops != [] { OpsKeepDeath(Apply(tb, ops[0]), ops[1..], id); }
  }
}
