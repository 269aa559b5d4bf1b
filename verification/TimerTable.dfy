/** A flat table of timers: the simple thing that the timer wheel does fast. */
module TimerTable {

  type Id = nat

  /** A timer waiting to fire; `ts` is the tigger_ts of its node. */
  datatype Timer = Timer(id: Id, cycle: nat, repeating: bool, ts: nat)

  /** What a program does to the timers, from outside or from within a callback. */
  datatype Op = Add(cycle: nat, repeating: bool) | Del(id: Id)

  datatype Firing = Firing(id: Id, at: nat)

  /** Everything ever known of an added timer. */
  datatype Birth = Birth(at: nat, cycle: nat, repeating: bool)

  /** `timers` is in the order of insertion; a repeating timer is inserted anew when it fires.
      `deaths` tells when timers were deleted; `births` and `log` are the history. */
  datatype Table = Table(nb: nat, now: nat, timers: seq<Timer>, births: map<Id, Birth>, deaths: map<Id, nat>,
                         nextId: Id, log: seq<Firing>)

  /** The tick at which a timer of this table fires.  A timer of cycle 0 lands in the slot of the
      current tick, which is not walked again before a whole turn of the wheel. */
  function Due(t: Timer, nb: nat): nat {
    if t.cycle == 0 then t.ts + nb else t.ts
  }

  function Filter(p: Timer -> bool, s: seq<Timer>): seq<Timer> {
    if s == [] then []
    else (if p(s[0]) then [s[0]] else []) + Filter(p, s[1..])
  }

  lemma {:induction false} FilterMembers(p: Timer -> bool, s: seq<Timer>)
    ensures forall t :: t in Filter(p, s) <==> t in s && p(t)
  {
    if s != [] { FilterMembers(p, s[1..]); }
  }

  /** Timers that fire at tick T: first those inserted with a positive cycle, in insertion order. */
  function Firable(tb: Table, T: nat): seq<Timer> {
    Filter((t: Timer) => t.cycle > 0 && t.ts == T && t.id !in tb.deaths, tb.timers)
    + Filter((t: Timer) => t.cycle == 0 && t.ts + tb.nb == T && t.id !in tb.deaths, tb.timers)
  }

  function Insert(tb: Table, id: Id, cycle: nat, repeating: bool): Table {
    tb.(timers := tb.timers + [Timer(id, cycle, repeating, tb.now + cycle)])
  }

  function Apply(tb: Table, op: Op): Table {
    match op
    case Add(cycle, repeating) =>
      Insert(tb, tb.nextId, cycle, repeating).(
        births := tb.births[tb.nextId := Birth(tb.now, cycle, repeating)], nextId := tb.nextId + 1)
    case Del(id) =>
      if id in tb.births && id !in tb.deaths then tb.(deaths := tb.deaths[id := tb.now]) else tb
  }

  function ApplyAll(tb: Table, ops: seq<Op>): Table
    decreases |ops|
  {
    if ops == [] then tb else ApplyAll(Apply(tb, ops[0]), ops[1..])
  }

  /** What the callback of a timer does, given everything that has fired so far. */
  type Callback = (Id, seq<Firing>) -> seq<Op>

  function Fire(tb: Table, t: Timer, cb: Callback): Table {
    var tb1 := tb.(log := tb.log + [Firing(t.id, tb.now)]);
    var tb2 := ApplyAll(tb1, cb(t.id, tb1.log));
    if t.repeating then Insert(tb2, t.id, t.cycle, true) else tb2
  }

  function FireAll(tb: Table, ts: seq<Timer>, cb: Callback): Table
    decreases |ts|
  {
    if ts == [] then tb else FireAll(Fire(tb, ts[0], cb), ts[1..], cb)
  }

  /** The table after the time has moved to T and the due timers have been taken out. */
  function TakeDue(tb: Table, T: nat): Table {
    tb.(now := T, timers := Filter((t: Timer) => Due(t, tb.nb) != T, tb.timers))
  }

  function Tick(tb: Table, cb: Callback): Table {
    FireAll(TakeDue(tb, tb.now + 1), Firable(tb, tb.now + 1), cb)
  }

  datatype Command = Do(op: Op) | DoTick

  function Perform(tb: Table, c: Command, cb: Callback): Table {
    match c
    case Do(op) => Apply(tb, op)
    case DoTick => Tick(tb, cb)
  }

  function Run(tb: Table, cs: seq<Command>, cb: Callback): Table
    decreases |cs|
  {
    if cs == [] then tb else Run(Perform(tb, cs[0], cb), cs[1..], cb)
  }

  function Empty(nb: nat): Table {
    Table(nb, 0, [], map[], map[], 0, [])
  }

  // ----- when a timer should fire

  function Period(b: Birth, nb: nat): nat {
    if b.cycle == 0 then nb else b.cycle
  }

  /** The contract with the user: once after a period, or after every period. */
  predicate FiresAt(b: Birth, nb: nat, t: nat)
    requires nb > 0
  {
    t > b.at && if b.repeating then (t - b.at) % Period(b, nb) == 0 else t == b.at + Period(b, nb)
  }

  /** All ticks up to and including `until` at which b should fire, in order. */
  function Expected(b: Birth, nb: nat, until: nat): seq<nat>
    requires nb > 0
  {
    (if until == 0 then [] else Expected(b, nb, until - 1)) + (if FiresAt(b, nb, until) then [until] else [])
  }

  function FiringsOf(log: seq<Firing>, id: Id): seq<nat> {
    if log == [] then []
    else FiringsOf(log[..|log| - 1], id) + (if log[|log| - 1].id == id then [log[|log| - 1].at] else [])
  }

  /** A timer counts up to now, or up to its deletion. */
  function Horizon(tb: Table, id: Id): nat {
    if id in tb.deaths then tb.deaths[id] else tb.now
  }

  /** Every timer has fired at the ticks it should have, and at no others. */
  ghost predicate Exact(tb: Table) {
    tb.nb > 0 && forall id :: id in tb.births ==>
      FiringsOf(tb.log, id) == Expected(tb.births[id], tb.nb, Horizon(tb, id))
  }
}
