/** What a run was asked for: the timers that are born and deleted are those of its commands and of its
    callbacks, and they fire as these asked. */
module TimerCommands {
  import opened TimerTable
  import opened TimerExact
  import opened TimerOrder

  // ----- what commands ask for

  function Ticks(cs: seq<Command>): nat
    decreases |cs|
  {
    if cs == [] then 0 else (if cs[0].DoTick? then 1 else 0) + Ticks(cs[1..])
  }

  /** An operation and the tick after which, or in which, it is done. */
  datatype Deed = Deed(op: Op, at: nat)

  function Stamp(ops: seq<Op>, at: nat): (ds: seq<Deed>)
    ensures |ds| == |ops|
  {
    seq(|ops|, i requires 0 <= i < |ops| => Deed(ops[i], at))
  }

  /** What the callbacks of the firings from position k to e of the log did; a callback sees the log up
      to and including its own firing. */
  function Called(log: seq<Firing>, k: nat, e: nat, cb: Callback): seq<Deed>
    requires k <= e <= |log|
    decreases e - k
  {
    if k == e then [] else Stamp(cb(log[k].id, log[..k + 1]), log[k].at) + Called(log, k + 1, e, cb)
  }

  /** The end of the firings at this tick, from position k on. */
  function TickEnd(log: seq<Firing>, k: nat, at: nat): (e: nat)
    requires k <= |log|
    ensures k <= e <= |log|
    decreases |log| - k
  {
    if k < |log| && log[k].at == at then TickEnd(log, k + 1, at) else k
  }

  /** Everything that is done in a run of cs which starts at tick `now` with k firings logged, told by the
      log at its end: the operations from outside, and in each tick those of the callbacks. */
  function Deeds(cs: seq<Command>, now: nat, log: seq<Firing>, k: nat, cb: Callback): seq<Deed>
    requires k <= |log|
    decreases |cs|
  {
    if cs == [] then [] else
    match cs[0]
    case Do(op) => [Deed(op, now)] + Deeds(cs[1..], now, log, k, cb)
    case DoTick =>
      var e := TickEnd(log, k, now + 1);
      Called(log, k, e, cb) + Deeds(cs[1..], now + 1, log, e, cb)
  }

  // ----- what deeds make

  /** How many timers have been added: the id of the next one. */
  function Adds(ds: seq<Deed>): nat {
    if ds == [] then 0 else Adds(ds[..|ds| - 1]) + if ds[|ds| - 1].op.Add? then 1 else 0
  }

  /** Deed i adds the timer id. */
  ghost predicate Bears(ds: seq<Deed>, i: nat, id: Id) {
    i < |ds| && ds[i].op.Add? && Adds(ds[..i]) == id
  }

  /** Deed i is the first to delete the timer id after its birth. */
  ghost predicate Kills(ds: seq<Deed>, i: nat, id: Id) {
    i < |ds| && ds[i].op == Del(id) && id < Adds(ds[..i])
    && forall j :: 0 <= j < i && ds[j].op == Del(id) ==> id >= Adds(ds[..j])
  }

  function BirthOf(d: Deed): Birth
    requires d.op.Add?
  {
    Birth(d.at, d.op.cycle, d.op.repeating)
  }

  /** The births and deaths of a table are those of these deeds, and there are no others. */
  ghost predicate Told(tb: Table, ds: seq<Deed>) {
    && tb.nextId == Adds(ds)
    && (forall id: Id :: id in tb.births <==> id < Adds(ds))
    && (forall i: nat, id :: Bears(ds, i, id) ==> id in tb.births && tb.births[id] == BirthOf(ds[i]))
    && (forall id :: id in tb.deaths ==> exists i: nat :: Kills(ds, i, id))
    && (forall i: nat, id :: Kills(ds, i, id) ==> id in tb.deaths && tb.deaths[id] == ds[i].at)
  }

  lemma BearsSnoc(ds: seq<Deed>, d: Deed, i: nat, id: Id)
    ensures Bears(ds + [d], i, id) <==> Bears(ds, i, id) || (i == |ds| && d.op.Add? && Adds(ds) == id)
  {
    if i <= |ds| { assert (ds + [d])[..i] == ds[..i]; }
    if i == |ds| { assert ds[..i] == ds; }
  }

  lemma KillsSnoc(ds: seq<Deed>, d: Deed, i: nat, id: Id)
    ensures i < |ds| ==> (Kills(ds + [d], i, id) <==> Kills(ds, i, id))
    ensures Kills(ds + [d], |ds|, id) <==> d.op == Del(id) && id < Adds(ds) && forall j: nat :: !Kills(ds, j, id)
  {
    var es := ds + [d];
    assert forall j :: 0 <= j <= |ds| ==> es[..j] == ds[..j];
    assert ds[..|ds|] == ds;
    if d.op == Del(id) && id < Adds(ds) {
      if j :| 0 <= j < |ds| && ds[j].op == Del(id) && id < Adds(ds[..j]) {
        var k := FirstKill(ds, j, id);
        assert es[k].op == Del(id) && id < Adds(es[..k]);
      } else {
        forall j | 0 <= j < |ds| && es[j].op == Del(id)
          ensures id >= Adds(es[..j])
        {
          assert ds[j].op == Del(id);
        }
      }
    }
  }

  lemma {:induction false} FirstKill(ds: seq<Deed>, j: nat, id: Id) returns (k: nat)
    requires j < |ds| && ds[j].op == Del(id) && id < Adds(ds[..j])
    ensures k <= j && Kills(ds, k, id)
    decreases j
  {
    if i :| 0 <= i < j && ds[i].op == Del(id) && id < Adds(ds[..i]) {
      k := FirstKill(ds, i, id);
    } else {
      k := j;
    }
  }

  lemma AddsSnoc(ds: seq<Deed>, d: Deed)
    ensures Adds(ds + [d]) == Adds(ds) + if d.op.Add? then 1 else 0
  {
    assert (ds + [d])[..|ds|] == ds;
  }

  /** One operation makes of the table what its deed makes of the deeds. */
  lemma ApplyTold(tb: Table, ds: seq<Deed>, op: Op)
    requires Told(tb, ds)
    ensures Told(Apply(tb, op), ds + [Deed(op, tb.now)])
  {
    var d, tb', ds' := Deed(op, tb.now), Apply(tb, op), ds + [Deed(op, tb.now)];
    AddsSnoc(ds, d);
    forall i: nat, id | Bears(ds', i, id)
      ensures id in tb'.births && tb'.births[id] == BirthOf(ds'[i])
    {
      BearsSnoc(ds, d, i, id);
    }
    forall i: nat, id | Kills(ds', i, id)
      ensures id in tb'.deaths && tb'.deaths[id] == ds'[i].at
    {
      KillsSnoc(ds, d, i, id);
      DeathTold(tb, ds, id);
    }
    forall id | id in tb'.deaths
      ensures exists i: nat :: Kills(ds', i, id)
    {
      KillTold(tb, ds, d, id);
    }
  }

  lemma DeathTold(tb: Table, ds: seq<Deed>, id: Id)
    requires Told(tb, ds)
    ensures id in tb.deaths <==> exists i: nat :: Kills(ds, i, id)
  {
  }

  lemma KillTold(tb: Table, ds: seq<Deed>, d: Deed, id: Id)
    requires Told(tb, ds) && d.at == tb.now && id in Apply(tb, d.op).deaths
    ensures exists i: nat :: Kills(ds + [d], i, id)
  {
    if id in tb.deaths {
      var i: nat :| Kills(ds, i, id);
      KillsSnoc(ds, d, i, id);
      assert Kills(ds + [d], i, id);
    } else {
      KillsSnoc(ds, d, 0, id);
      assert forall j: nat :: !Kills(ds, j, id);
      assert Kills(ds + [d], |ds|, id);
    }
  }

  // ----- the deeds of a run

  lemma {:induction false} OpsTold(tb: Table, ds: seq<Deed>, ops: seq<Op>)
    requires Told(tb, ds)
    ensures Told(ApplyAll(tb, ops), ds + Stamp(ops, tb.now)) && ApplyAll(tb, ops).now == tb.now
    decreases |ops|
  {
    if ops == [] {
      assert ds + Stamp(ops, tb.now) == ds;
    } else {
      ApplyTold(tb, ds, ops[0]);
      OpsTold(Apply(tb, ops[0]), ds + [Deed(ops[0], tb.now)], ops[1..]);
      assert ds + Stamp(ops, tb.now) == ds + [Deed(ops[0], tb.now)] + Stamp(ops[1..], tb.now);
    }
  }

  lemma FireTold(tb: Table, ds: seq<Deed>, t: Timer, cb: Callback)
    requires Told(tb, ds)
    ensures var tb' := Fire(tb, t, cb);
      && tb'.log == tb.log + [Firing(t.id, tb.now)] && tb'.now == tb.now
      && Told(tb', ds + Stamp(cb(t.id, tb'.log), tb.now))
  {
    var tb1 := tb.(log := tb.log + [Firing(t.id, tb.now)]);
    assert Told(tb1, ds);
    OpsKeepLog(tb1, cb(t.id, tb1.log));
    OpsTold(tb1, ds, cb(t.id, tb1.log));
  }

  /** The callbacks of a tick do what the log tells. */
  lemma {:induction false} FireAllTold(tb: Table, ds: seq<Deed>, ts: seq<Timer>, cb: Callback)
    requires Told(tb, ds)
    ensures var t := FireAll(tb, ts, cb);
      && t.now == tb.now && tb.log <= t.log
      && (forall i :: |tb.log| <= i < |t.log| ==> t.log[i].at == tb.now)
      && Told(t, ds + Called(t.log, |tb.log|, |t.log|, cb))
    decreases |ts|
  {
    if ts == [] {
      assert ds + Called(tb.log, |tb.log|, |tb.log|, cb) == ds;
    } else {
      FireTold(tb, ds, ts[0], cb);
      var tb1 := Fire(tb, ts[0], cb);
      var mine := Stamp(cb(ts[0].id, tb1.log), tb.now);
      FireAllTold(tb1, ds + mine, ts[1..], cb);
      FirstTold(FireAll(tb1, ts[1..], cb), ds, mine, |tb.log|, tb1.log, cb);
    }
  }

  lemma FirstTold(t: Table, ds: seq<Deed>, mine: seq<Deed>, k: nat, seen: seq<Firing>, cb: Callback)
    requires |seen| == k + 1 && seen <= t.log && mine == Stamp(cb(seen[k].id, seen), seen[k].at)
    requires Told(t, ds + mine + Called(t.log, k + 1, |t.log|, cb))
    ensures Told(t, ds + Called(t.log, k, |t.log|, cb))
  {
    CalledFirst(t.log, k, seen, |t.log|, cb);
    JoinTold(t, ds, mine, Called(t.log, k + 1, |t.log|, cb), Called(t.log, k, |t.log|, cb));
  }

  lemma JoinTold(t: Table, ds: seq<Deed>, mine: seq<Deed>, rest: seq<Deed>, all: seq<Deed>)
    requires Told(t, ds + mine + rest) && all == mine + rest
    ensures Told(t, ds + all)
  {
    assert ds + mine + rest == ds + all;
  }

  lemma CalledFirst(log: seq<Firing>, k: nat, seen: seq<Firing>, e: nat, cb: Callback)
    requires |seen| == k + 1 && seen <= log && k < e <= |log|
    ensures Called(log, k, e, cb) == Stamp(cb(seen[k].id, seen), seen[k].at) + Called(log, k + 1, e, cb)
  {
    assert log[..k + 1] == seen;
  }

  lemma {:induction false} CalledPrefix(log: seq<Firing>, more: seq<Firing>, k: nat, e: nat, cb: Callback)
    requires log <= more && k <= e <= |log|
    ensures Called(more, k, e, cb) == Called(log, k, e, cb)
    decreases e - k
  {
    if k < e {
      assert more[..k + 1] == log[..k + 1];
      CalledPrefix(log, more, k + 1, e, cb);
    }
  }

  lemma TickTold(tb: Table, ds: seq<Deed>, cb: Callback)
    requires Told(tb, ds)
    ensures var t := Tick(tb, cb);
      && t.now == tb.now + 1 && tb.log <= t.log
      && (forall i :: |tb.log| <= i < |t.log| ==> t.log[i].at == tb.now + 1)
      && Told(t, ds + Called(t.log, |tb.log|, |t.log|, cb))
  {
    var tb1 := TakeDue(tb, tb.now + 1);
    assert Told(tb1, ds);
    FireAllTold(tb1, ds, Firable(tb, tb.now + 1), cb);
  }

  /** What a run logs is later than its start. */
  lemma {:induction false} RunLogs(tb: Table, cs: seq<Command>, cb: Callback)
    ensures var t := Run(tb, cs, cb);
      && t.now == tb.now + Ticks(cs) && tb.log <= t.log
      && forall i :: |tb.log| <= i < |t.log| ==> t.log[i].at > tb.now
    decreases |cs|
  {
    if cs != [] {
      var tb1 := Perform(tb, cs[0], cb);
      if cs[0].DoTick? { TickLogs(tb, cb); TickMoves(tb, cb); }
      RunLogs(tb1, cs[1..], cb);
    }
  }

  lemma {:induction false} FireAllKeepsNow(tb: Table, ts: seq<Timer>, cb: Callback)
    ensures FireAll(tb, ts, cb).now == tb.now
    decreases |ts|
  {
    if ts != [] {
      var tb1 := tb.(log := tb.log + [Firing(ts[0].id, tb.now)]);
      OpsKeepLog(tb1, cb(ts[0].id, tb1.log));
      FireAllKeepsNow(Fire(tb, ts[0], cb), ts[1..], cb);
    }
  }

  lemma TickMoves(tb: Table, cb: Callback)
    ensures Tick(tb, cb).now == tb.now + 1
  {
    FireAllKeepsNow(TakeDue(tb, tb.now + 1), Firable(tb, tb.now + 1), cb);
  }

  lemma {:induction false} TickEndIs(log: seq<Firing>, k: nat, e: nat, at: nat)
    requires k <= e <= |log| && forall i :: k <= i < e ==> log[i].at == at
    requires e < |log| ==> log[e].at != at
    ensures TickEnd(log, k, at) == e
    decreases e - k
  {
    if k < e { TickEndIs(log, k + 1, e, at); }
  }

  /** A run does what its commands and its log tell. */
  lemma {:induction false} RunTold(tb: Table, ds: seq<Deed>, cs: seq<Command>, cb: Callback)
    requires Told(tb, ds)
    ensures |tb.log| <= |Run(tb, cs, cb).log|
    ensures var t := Run(tb, cs, cb); Told(t, ds + Deeds(cs, tb.now, t.log, |tb.log|, cb))
    decreases |cs|
  {
    RunLogs(tb, cs, cb);
    if cs == [] {
      assert ds + Deeds(cs, tb.now, tb.log, |tb.log|, cb) == ds;
    } else {
      var tb1 := Perform(tb, cs[0], cb);
      var mine := CommandTold(tb, ds, cs[0], cb);
      RunLogs(tb1, cs[1..], cb);
      RunTold(tb1, ds + mine, cs[1..], cb);
      RestTold(tb, tb1, ds, mine, cs, Run(tb1, cs[1..], cb), cb);
    }
  }

  lemma RestTold(tb: Table, tb1: Table, ds: seq<Deed>, mine: seq<Deed>, cs: seq<Command>, t: Table, cb: Callback)
    requires cs != [] && tb.log <= tb1.log <= t.log
    requires forall i :: |tb1.log| <= i < |t.log| ==> t.log[i].at > tb1.now
    requires Mine(tb, tb1, cs[0], mine, cb)
    requires Told(t, ds + mine + Deeds(cs[1..], tb1.now, t.log, |tb1.log|, cb))
    ensures Told(t, ds + Deeds(cs, tb.now, t.log, |tb.log|, cb))
  {
    DeedsFirst(tb, tb1, mine, cs, t.log, cb);
    JoinTold(t, ds, mine, Deeds(cs[1..], tb1.now, t.log, |tb1.log|, cb), Deeds(cs, tb.now, t.log, |tb.log|, cb));
  }

  /** The deeds of one command c from tb to tb1. */
  ghost predicate Mine(tb: Table, tb1: Table, c: Command, mine: seq<Deed>, cb: Callback)
    requires tb.log <= tb1.log
  {
    match c
    case Do(op) => mine == [Deed(op, tb.now)] && tb1.now == tb.now && tb1.log == tb.log
    case DoTick =>
      && mine == Called(tb1.log, |tb.log|, |tb1.log|, cb) && tb1.now == tb.now + 1
      && forall i :: |tb.log| <= i < |tb1.log| ==> tb1.log[i].at == tb.now + 1
  }

  /** What one command does. */
  lemma CommandTold(tb: Table, ds: seq<Deed>, c: Command, cb: Callback) returns (mine: seq<Deed>)
    requires Told(tb, ds)
    ensures var tb1 := Perform(tb, c, cb);
      Told(tb1, ds + mine) && tb.log <= tb1.log && Mine(tb, tb1, c, mine, cb)
  {
    match c {
      case Do(op) =>
        mine := [Deed(op, tb.now)];
        ApplyTold(tb, ds, op);
      case DoTick =>
        TickTold(tb, ds, cb);
        mine := Called(Tick(tb, cb).log, |tb.log|, |Tick(tb, cb).log|, cb);
    }
  }

  lemma DeedsFirst(tb: Table, tb1: Table, mine: seq<Deed>, cs: seq<Command>, log: seq<Firing>, cb: Callback)
    requires cs != [] && tb.log <= tb1.log <= log
    requires forall i :: |tb1.log| <= i < |log| ==> log[i].at > tb1.now
    requires Mine(tb, tb1, cs[0], mine, cb)
    ensures Deeds(cs, tb.now, log, |tb.log|, cb) == mine + Deeds(cs[1..], tb1.now, log, |tb1.log|, cb)
  {
    if cs[0].DoTick? {
      TickEndIs(log, |tb.log|, |tb1.log|, tb.now + 1);
      CalledPrefix(tb1.log, log, |tb.log|, |tb1.log|, cb);
      TickDeeds(cs, tb.now, log, |tb.log|, |tb1.log|, mine, cb);
    } else {
      OutsideDeed(cs, tb.now, log, |tb.log|, cb);
    }
  }

  lemma TickDeeds(cs: seq<Command>, now: nat, log: seq<Firing>, k: nat, e: nat, mine: seq<Deed>, cb: Callback)
    requires cs != [] && cs[0].DoTick? && k <= e <= |log| && TickEnd(log, k, now + 1) == e
    requires mine == Called(log, k, e, cb)
    ensures Deeds(cs, now, log, k, cb) == mine + Deeds(cs[1..], now + 1, log, e, cb)
  {
  }

  lemma OutsideDeed(cs: seq<Command>, now: nat, log: seq<Firing>, k: nat, cb: Callback)
    requires cs != [] && cs[0].Do? && k <= |log|
    ensures Deeds(cs, now, log, k, cb) == [Deed(cs[0].op, now)] + Deeds(cs[1..], now, log, k, cb)
  {
  }

  // ----- the promise to those who asked

  /** Every timer that was added, from outside or by a callback, fires exactly when whoever added it
      asked, up to the first deletion that reached it, or up to now; and nothing else fires. */
  ghost predicate AsAsked(nb: nat, cs: seq<Command>, cb: Callback, log: seq<Firing>)
    requires nb > 0
  {
    var ds := Deeds(cs, 0, log, 0, cb);
    && (forall i: nat, id, k: nat :: Bears(ds, i, id) && Kills(ds, k, id) ==>
          FiringsOf(log, id) == Expected(BirthOf(ds[i]), nb, ds[k].at))
    && (forall i: nat, id :: Bears(ds, i, id) && (forall k: nat :: !Kills(ds, k, id)) ==>
          FiringsOf(log, id) == Expected(BirthOf(ds[i]), nb, Ticks(cs)))
    && (forall f :: f in log ==> f.id < Adds(ds))
  }

  lemma TimersFireAsAsked(nb: nat, cs: seq<Command>, cb: Callback)
    requires nb > 0
    ensures Told(Run(Empty(nb), cs, cb), Deeds(cs, 0, Run(Empty(nb), cs, cb).log, 0, cb))
    ensures AsAsked(nb, cs, cb, Run(Empty(nb), cs, cb).log)
  {
    var tb := Run(Empty(nb), cs, cb);
    var ds := Deeds(cs, 0, tb.log, 0, cb);
    RunTold(Empty(nb), [], cs, cb);
    assert [] + ds == ds;
    RunLogs(Empty(nb), cs, cb);
    RunKeepsSlots(Empty(nb), cs, cb);
    TimersAreExact(nb, cs, cb);
    RunKeepsInv(Empty(nb), cs, cb);
    ToldIsExact(tb, ds, Ticks(cs));
  }

  lemma ToldIsExact(tb: Table, ds: seq<Deed>, now: nat)
    requires Exact(tb) && Told(tb, ds) && tb.now == now
    ensures forall i: nat, id, k: nat :: Bears(ds, i, id) && Kills(ds, k, id) ==>
      FiringsOf(tb.log, id) == Expected(BirthOf(ds[i]), tb.nb, ds[k].at)
    ensures forall i: nat, id :: Bears(ds, i, id) && (forall k: nat :: !Kills(ds, k, id)) ==>
      FiringsOf(tb.log, id) == Expected(BirthOf(ds[i]), tb.nb, now)
  {
    forall i: nat, id | Bears(ds, i, id) && (forall k: nat :: !Kills(ds, k, id))
      ensures FiringsOf(tb.log, id) == Expected(BirthOf(ds[i]), tb.nb, now)
    {
      DeathTold(tb, ds, id);
    }
  }

  // ----- single commands

  lemma {:induction false} RunAppend(tb: Table, a: seq<Command>, b: seq<Command>, cb: Callback)
    ensures Run(tb, a + b, cb) == Run(Run(tb, a, cb), b, cb)
    decreases |a|
  {
    if a == [] {
      assert a + b == b;
    } else {
      assert (a + b)[0] == a[0] && (a + b)[1..] == a[1..] + b;
      RunAppend(Perform(tb, a[0], cb), a[1..], b, cb);
    }
  }

  lemma {:induction false} DeedsKeep(tb: Table, ops: seq<Op>)
    requires forall id :: id in tb.births ==> id < tb.nextId
    ensures Kept(tb, ApplyAll(tb, ops))
    decreases |ops|
  {
    if ops != [] { DeedsKeep(Apply(tb, ops[0]), ops[1..]); }
  }

  /** No birth and no death is forgotten or changed. */
  ghost predicate Kept(tb: Table, t: Table) {
    && (forall id :: id in t.births ==> id < t.nextId)
    && (forall id :: id in tb.births ==> id in t.births && t.births[id] == tb.births[id])
    && (forall id :: id in tb.deaths ==> id in t.deaths && t.deaths[id] == tb.deaths[id])
  }

  lemma {:induction false} FireAllKeeps(tb: Table, ts: seq<Timer>, cb: Callback)
    requires forall id :: id in tb.births ==> id < tb.nextId
    ensures Kept(tb, FireAll(tb, ts, cb))
    decreases |ts|
  {
    if ts != [] {
      var tb1 := tb.(log := tb.log + [Firing(ts[0].id, tb.now)]);
      DeedsKeep(tb1, cb(ts[0].id, tb1.log));
      FireAllKeeps(Fire(tb, ts[0], cb), ts[1..], cb);
    }
  }

  lemma {:induction false} RunKeeps(tb: Table, cs: seq<Command>, cb: Callback)
    requires forall id :: id in tb.births ==> id < tb.nextId
    ensures Kept(tb, Run(tb, cs, cb))
    decreases |cs|
  {
    if cs != [] {
      if cs[0].DoTick? { FireAllKeeps(TakeDue(tb, tb.now + 1), Firable(tb, tb.now + 1), cb); }
      RunKeeps(Perform(tb, cs[0], cb), cs[1..], cb);
    }
  }

  /** An addition from outside: the timer is born as asked, and deleted or not it fires as asked. */
  lemma OutsideAdd(nb: nat, pre: seq<Command>, cycle: nat, repeating: bool, post: seq<Command>, cb: Callback)
    requires nb > 0
    ensures var id := Run(Empty(nb), pre, cb).nextId;
      var tb := Run(Empty(nb), pre + [Do(Add(cycle, repeating))] + post, cb);
      && id in tb.births && tb.births[id] == Birth(Ticks(pre), cycle, repeating) && tb.now >= Ticks(pre)
      && FiringsOf(tb.log, id) == Expected(Birth(Ticks(pre), cycle, repeating), nb, Horizon(tb, id))
  {
    var tb0 := Run(Empty(nb), pre, cb);
    var tb1 := Apply(tb0, Add(cycle, repeating));
    Continue(nb, pre, Add(cycle, repeating), post, cb);
    RunLogs(Empty(nb), pre, cb);
    RunLogs(tb1, post, cb);
    RunKeeps(tb1, post, cb);
    TimersAreExact(nb, pre + [Do(Add(cycle, repeating))] + post, cb);
    RunKeepsSlots(Empty(nb), pre + [Do(Add(cycle, repeating))] + post, cb);
  }

  /** A deletion from outside of a timer that is known and not deleted yet. */
  lemma OutsideDel(nb: nat, pre: seq<Command>, id: Id, post: seq<Command>, cb: Callback)
    requires nb > 0
    requires id in Run(Empty(nb), pre, cb).births && id !in Run(Empty(nb), pre, cb).deaths
    ensures var tb := Run(Empty(nb), pre + [Do(Del(id))] + post, cb);
      id in tb.deaths && tb.deaths[id] == Ticks(pre)
  {
    Continue(nb, pre, Del(id), post, cb);
    RunLogs(Empty(nb), pre, cb);
    RunKeeps(Apply(Run(Empty(nb), pre, cb), Del(id)), post, cb);
  }

  lemma Continue(nb: nat, pre: seq<Command>, op: Op, post: seq<Command>, cb: Callback)
    requires nb > 0
    ensures var tb := Apply(Run(Empty(nb), pre, cb), op);
      && Run(Empty(nb), pre + [Do(op)] + post, cb) == Run(tb, post, cb)
      && forall id :: id in tb.births ==> id < tb.nextId
  {
    RunAppend(Empty(nb), pre + [Do(op)], post, cb);
    RunAppend(Empty(nb), pre, [Do(op)], cb);
    var tb := Run(Empty(nb), pre, cb);
    assert [Do(op)][1..] == [];
    assert Run(tb, [Do(op)], cb) == Run(Apply(tb, op), [], cb);
    RunKeeps(Empty(nb), pre, cb);
  }
}
