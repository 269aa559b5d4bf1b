/** The timer wheel in memory: sorted slot lists, nodes allocated and freed, callbacks that add and
    delete timers.  The ghost field `table` is the flat table it refines. */
module TimerWheel {
  import opened Sequences
  import opened TimerTable
  import opened TimerSlots
  import opened TimerExact
  import opened TimerCommands

  // ----- who owns which node

  function IdsOf(s: seq<Timer>): multiset<Id> {
    if s == [] then multiset{} else multiset{s[0].id} + IdsOf(s[1..])
  }

  function AllIds(slots: seq<seq<Timer>>): multiset<Id> {
    if slots == [] then multiset{} else IdsOf(slots[0]) + AllIds(slots[1..])
  }

  lemma {:induction false} IdsIn(s: seq<Timer>, t: Timer)
    requires t in s
    ensures t.id in IdsOf(s)
  {
    if t != s[0] { IdsIn(s[1..], t); }
  }

  lemma {:induction false} IdsInsert(s: seq<Timer>, x: Timer)
    ensures IdsOf(InsertSlot(s, x)) == IdsOf(s) + multiset{x.id}
  {
    if s == [] || s[0].ts >= x.ts {
      assert ([x] + s)[1..] == s;
    } else {
      IdsInsert(s[1..], x);
      assert ([s[0]] + InsertSlot(s[1..], x))[1..] == InsertSlot(s[1..], x);
    }
  }

  lemma {:induction false} AllIdsUpdate(slots: seq<seq<Timer>>, i: nat, s: seq<Timer>)
    requires i < |slots|
    ensures AllIds(slots[i := s]) + IdsOf(slots[i]) == AllIds(slots) + IdsOf(s)
  {
    var head, rest := IdsOf(slots[0]), slots[1..];
    if i == 0 {
      assert slots[0 := s][1..] == rest;
      Regroup(AllIds(rest), IdsOf(s), head);
    } else {
      AllIdsUpdate(rest, i - 1, s);
      assert slots[i := s][1..] == rest[i - 1 := s];
      Regroup(head, AllIds(rest[i - 1 := s]), IdsOf(slots[i]));
      Regroup(head, AllIds(rest), IdsOf(s));
    }
  }

  lemma Regroup(a: multiset<Id>, b: multiset<Id>, c: multiset<Id>)
    ensures (a + b) + c == a + (b + c) == (c + a) + b
  {
  }

  lemma {:induction false} SlotIdsIn(slots: seq<seq<Timer>>, i: nat, t: Timer)
    requires i < |slots| && t in slots[i]
    ensures t.id in AllIds(slots)
  {
    if i == 0 { IdsIn(slots[0], t); } else { SlotIdsIn(slots[1..], i - 1, t); }
  }

  // ----- refinement

  /** Slot i is in order and shows what it should of the table. */
  ghost predicate Shows(slot: seq<Timer>, i: nat, tb: Table)
    requires tb.nb > 0
  {
    SlotOk(slot, i, tb.nb, tb.now) && Agrees(slot, i, tb.nb, tb.timers, tb.deaths)
  }

  /** The slots and the clock show the table. */
  ghost predicate Refines(nb: nat, now: nat, slots: seq<seq<Timer>>, nextId: Id, log: seq<Firing>, tb: Table) {
    && nb > 0 && |slots| == nb && tb.nb == nb && tb.now == now && tb.nextId == nextId && tb.log == log
    && (forall i :: 0 <= i < nb ==> Shows(slots[i], i, tb))
    && AllLater(tb.timers, nb, now)
    && (forall id: Id :: id in tb.births <==> id < nextId)
  }

  /** Every allocated node is in exactly one place: a slot, the trigger list, or a caller's hand. */
  ghost predicate Owned(slots: seq<seq<Timer>>, pending: seq<Timer>, flight: multiset<Id>, nodes: set<Id>) {
    AllIds(slots) + IdsOf(pending) + flight == multiset(nodes)
  }

  ghost predicate FlagsOk(nodes: set<Id>, deleted: set<Id>, nextId: Id, tb: Table) {
    && (forall id :: id in nodes ==> id < nextId && (id in deleted <==> id in tb.deaths))
    && (forall id :: id in deleted || id in tb.deaths ==> id < nextId)
  }

  lemma LinkOwned(slots: seq<seq<Timer>>, i: nat, x: Timer, s: seq<Timer>, pending: seq<Timer>,
        flight: multiset<Id>, nodes: set<Id>)
    requires i < |slots| && s == InsertSlot(slots[i], x) && Owned(slots, pending, flight + multiset{x.id}, nodes)
    ensures Owned(slots[i := s], pending, flight, nodes)
  {
    var slots' := slots[i := s];
    IdsInsert(slots[i], x);
    AllIdsUpdate(slots, i, s);
    Cancel(AllIds(slots), multiset{x.id}, IdsOf(slots[i]), AllIds(slots'));
    Shuffle(AllIds(slots), IdsOf(pending), flight, multiset{x.id});
  }

  lemma Shuffle(a: multiset<Id>, b: multiset<Id>, c: multiset<Id>, d: multiset<Id>)
    ensures a + b + (c + d) == (a + d) + b + c
  {
  }

  lemma LinkShows(slot: seq<Timer>, j: nat, tb: Table, x: Timer)
    requires tb.nb > 0 && Shows(slot, j, tb) && x.ts == tb.now + x.cycle
    ensures Shows(if SlotOf(x.ts, tb.nb) == j then InsertSlot(slot, x) else slot, j, tb.(timers := tb.timers + [x]))
  {
    SlotOkMeans(slot, j, tb.nb, tb.now);
    SlotOkMeans(InsertSlot(slot, x), j, tb.nb, tb.now);
    InsertKeepsSorted(slot, x);
    InsertIn(slot, x);
    LinkAgrees(slot, j, tb.nb, tb.timers, tb.deaths, x);
  }

  /** The table and one slot change: the slots show the new table if each of them does. */
  lemma ReplaceRefines(nb: nat, now: nat, slots: seq<seq<Timer>>, nextId: Id, log: seq<Firing>, tb: Table, i: nat,
        slot: seq<Timer>)
    requires nb > 0 && |slots| == nb && i < nb
    requires tb.nb == nb && tb.now == now && tb.nextId == nextId && tb.log == log && AllLater(tb.timers, nb, now)
    requires forall id: Id :: id in tb.births <==> id < nextId
    requires Shows(slot, i, tb) && forall j :: 0 <= j < nb && j != i ==> Shows(slots[j], j, tb)
    ensures Refines(nb, now, slots[i := slot], nextId, log, tb)
  {
    var slots' := slots[i := slot];
    forall j | 0 <= j < nb
      ensures Shows(slots'[j], j, tb)
    {
      if j != i { assert slots'[j] == slots[j]; }
    }
  }

  lemma LaterAppend(timers: seq<Timer>, x: Timer, nb: nat, now: nat)
    requires nb > 0 && AllLater(timers, nb, now) && x.ts == now + x.cycle
    ensures AllLater(timers + [x], nb, now)
  {
    AllLaterMeans(timers, nb, now);
    AllLaterMeans(timers + [x], nb, now);
  }

  lemma LinkOthers(nb: nat, now: nat, slots: seq<seq<Timer>>, nextId: Id, log: seq<Firing>, tb: Table, tb': Table,
        x: Timer)
    requires Refines(nb, now, slots, nextId, log, tb) && x.ts == now + x.cycle && tb' == tb.(timers := tb.timers + [x])
    ensures forall j :: 0 <= j < nb && j != SlotOf(x.ts, nb) ==> Shows(slots[j], j, tb')
    ensures Shows(InsertSlot(slots[SlotOf(x.ts, nb)], x), SlotOf(x.ts, nb), tb')
    ensures AllLater(tb'.timers, nb, now)
  {
    var i := SlotOf(x.ts, nb);
    LaterAppend(tb.timers, x, nb, now);
    forall j | 0 <= j < nb && j != i
      ensures Shows(slots[j], j, tb')
    {
      SlotShown(nb, now, slots, nextId, log, tb, j);
      LinkShows(slots[j], j, tb, x);
    }
    SlotShown(nb, now, slots, nextId, log, tb, i);
    LinkShows(slots[i], i, tb, x);
  }

  lemma InsertRefines(nb: nat, now: nat, slots: seq<seq<Timer>>, nextId: Id, log: seq<Firing>, tb: Table, tb': Table,
        x: Timer, i: nat, s: seq<Timer>)
    requires Refines(nb, now, slots, nextId, log, tb) && x.ts == now + x.cycle && i == SlotOf(x.ts, nb)
    requires s == InsertSlot(slots[i], x) && tb' == tb.(timers := tb.timers + [x])
    ensures Refines(nb, now, slots[i := s], nextId, log, tb')
  {
    LinkOthers(nb, now, slots, nextId, log, tb, tb', x);
    ReplaceRefines(nb, now, slots, nextId, log, tb', i, s);
  }

  /** The node x, which was in a caller's hand, is now in its slot. */
  lemma LinkDone(nb: nat, now: nat, slots: seq<seq<Timer>>, nextId: Id, log: seq<Firing>, tb: Table, tb': Table,
        x: Timer, i: nat, s: seq<Timer>, pending: seq<Timer>, flight: multiset<Id>, nodes: set<Id>, deleted: set<Id>)
    requires Refines(nb, now, slots, nextId, log, tb) && x.ts == now + x.cycle && i == SlotOf(x.ts, nb)
    requires s == InsertSlot(slots[i], x) && tb' == tb.(timers := tb.timers + [x])
    requires Owned(slots, pending, flight + multiset{x.id}, nodes) && FlagsOk(nodes, deleted, nextId, tb)
    ensures Refines(nb, now, slots[i := s], nextId, log, tb')
    ensures Owned(slots[i := s], pending, flight, nodes) && FlagsOk(nodes, deleted, nextId, tb')
  {
    InsertRefines(nb, now, slots, nextId, log, tb, tb', x, i, s);
    LinkOwned(slots, i, x, s, pending, flight, nodes);
  }

  lemma DelRefines(nb: nat, now: nat, slots: seq<seq<Timer>>, nextId: Id, log: seq<Firing>, tb: Table, id: Id)
    requires Refines(nb, now, slots, nextId, log, tb)
    ensures Refines(nb, now, slots, nextId, log, Apply(tb, Del(id)))
  {
    forall j | 0 <= j < nb
      ensures Shows(slots[j], j, tb.(deaths := tb.deaths[id := now]))
    {
      DelAgrees(slots[j], j, nb, tb.timers, tb.deaths, id, now);
    }
  }

  lemma OthersShow(nb: nat, now: nat, slots: seq<seq<Timer>>, nextId: Id, log: seq<Firing>, tb: Table, tb': Table,
        i: nat)
    requires Refines(nb, now, slots, nextId, log, tb) && i == SlotOf(now + 1, nb) && tb' == TakeDue(tb, now + 1)
    ensures forall j :: 0 <= j < nb && j != i ==> Shows(slots[j], j, tb')
  {
    forall j | 0 <= j < nb && j != i
      ensures Shows(slots[j], j, tb')
    {
      SlotShown(nb, now, slots, nextId, log, tb, j);
      OtherSlot(slots[j], j, tb);
    }
  }

  lemma WalkOrder(slot: seq<Timer>, i: nat, tb: Table, k: nat)
    requires tb.nb > 0 && Shows(slot, i, tb) && i == SlotOf(tb.now + 1, tb.nb) && k <= |slot|
    requires AllLater(tb.timers, tb.nb, tb.now)
    requires forall t :: t in slot[..k] && t.id !in tb.deaths ==> t.ts <= tb.now + 1
    requires forall t :: t in slot[k..] ==> t.ts > tb.now + 1
    ensures Reverse(Live(slot[..k], tb.deaths)) == Firable(tb, tb.now + 1)
  {
    SlotOkMeans(slot, i, tb.nb, tb.now);
    AllLaterMeans(tb.timers, tb.nb, tb.now);
    WalkSplits(slot, k, tb.now + 1, i, tb.nb, tb.timers, tb.deaths);
    TakenAreFirable(tb, i);
  }

  lemma RestIsLater(tb: Table)
    requires AllLater(tb.timers, tb.nb, tb.now)
    ensures AllLater(TakeDue(tb, tb.now + 1).timers, tb.nb, tb.now + 1)
  {
    AllLaterMeans(tb.timers, tb.nb, tb.now);
    AllLaterMeans(TakeDue(tb, tb.now + 1).timers, tb.nb, tb.now + 1);
    FilterMembers((t: Timer) => Due(t, tb.nb) != tb.now + 1, tb.timers);
  }

  lemma OtherSlot(slot: seq<Timer>, j: nat, tb: Table)
    requires tb.nb > 0 && j != SlotOf(tb.now + 1, tb.nb) && Shows(slot, j, tb)
    requires AllLater(tb.timers, tb.nb, tb.now)
    ensures Shows(slot, j, TakeDue(tb, tb.now + 1))
  {
    AllLaterMeans(tb.timers, tb.nb, tb.now);
    OthersAgree(tb, j);
    OtherSlotOk(slot, j, tb.nb, tb.now);
  }

  lemma CutSlot(slot: seq<Timer>, k: nat, i: nat, tb: Table)
    requires tb.nb > 0 && i == SlotOf(tb.now + 1, tb.nb) && Shows(slot, i, tb) && k <= |slot|
    requires AllLater(tb.timers, tb.nb, tb.now)
    requires forall t :: t in slot[..k] && t.id !in tb.deaths ==> t.ts <= tb.now + 1
    requires forall t :: t in slot[k..] ==> t.ts > tb.now + 1
    ensures Shows(slot[k..], i, TakeDue(tb, tb.now + 1))
  {
    CutAgrees(slot, k, i, tb);
    CutSlotOk(slot, k, i, tb.nb, tb.now);
  }

  lemma CutAgrees(slot: seq<Timer>, k: nat, i: nat, tb: Table)
    requires tb.nb > 0 && i == SlotOf(tb.now + 1, tb.nb) && Shows(slot, i, tb) && k <= |slot|
    requires AllLater(tb.timers, tb.nb, tb.now)
    requires forall t :: t in slot[..k] && t.id !in tb.deaths ==> t.ts <= tb.now + 1
    requires forall t :: t in slot[k..] ==> t.ts > tb.now + 1
    ensures Agrees(slot[k..], i, tb.nb, TakeDue(tb, tb.now + 1).timers, tb.deaths)
  {
    SlotOkMeans(slot, i, tb.nb, tb.now);
    AllLaterMeans(tb.timers, tb.nb, tb.now);
    WalkSplits(slot, k, tb.now + 1, i, tb.nb, tb.timers, tb.deaths);
    RestAgrees(tb, i);
  }

  lemma OtherSlotOk(slot: seq<Timer>, j: nat, nb: nat, now: nat)
    requires nb > 0 && SlotOk(slot, j, nb, now) && j != SlotOf(now + 1, nb)
    ensures SlotOk(slot, j, nb, now + 1)
  {
    SlotOkMeans(slot, j, nb, now);
    SlotOkMeans(slot, j, nb, now + 1);
    forall t | t in slot ensures Later(t, nb, now + 1) { TakenAreDue(t, nb, now); }
  }

  lemma CutSlotOk(slot: seq<Timer>, k: nat, j: nat, nb: nat, now: nat)
    requires nb > 0 && SlotOk(slot, j, nb, now) && k <= |slot| && forall t :: t in slot[k..] ==> t.ts > now + 1
    ensures SlotOk(slot[k..], j, nb, now + 1)
  {
    SlotOkMeans(slot, j, nb, now);
    SlotOkMeans(slot[k..], j, nb, now + 1);
    forall t | t in slot[k..] ensures t in slot && Later(t, nb, now + 1) { assert Later(t, nb, now); }
  }

  /** deadline % solt_nb */
  method SlotIndex(ts: nat, nb: nat) returns (i: nat)
    requires nb > 0
    ensures i == SlotOf(ts, nb)
  {
    i := ts % nb;
    SlotOfIsMod(ts, nb);
  }

  /** The search of __timer_wheel_add: before the first node that fires no earlier. */
  method PutInOrder(s: seq<Timer>, x: Timer) returns (r: seq<Timer>)
    ensures r == InsertSlot(s, x)
  {
    var k := 0;
    assert s[..0] + InsertSlot(s[0..], x) == InsertSlot(s, x) by { assert s[0..] == s; }
    while k < |s|
      invariant 0 <= k <= |s|
      invariant s[..k] + InsertSlot(s[k..], x) == InsertSlot(s, x)
    {
      if s[k].ts >= x.ts { break; }
      PutStep(s, x, k);
      k := k + 1;
    }
    r := s[..k] + ([x] + s[k..]);
  }

  lemma PutStep(s: seq<Timer>, x: Timer, k: nat)
    requires k < |s| && s[k].ts < x.ts
    ensures s[..k] + InsertSlot(s[k..], x) == s[..k + 1] + InsertSlot(s[k + 1..], x)
  {
    var a, e, r := s[..k], [s[k]], InsertSlot(s[k + 1..], x);
    assert s[k..][0] == s[k] && s[k..][1..] == s[k + 1..];
    assert InsertSlot(s[k..], x) == e + r;
    assert s[..k + 1] == a + e;
    Associative(a, e, r);
  }

  /** Taking the first node out of a slot: it may go to the trigger list or be freed. */
  lemma HeadOwned(slots: seq<seq<Timer>>, i: nat, pending: seq<Timer>, nodes: set<Id>)
    requires i < |slots| && slots[i] != [] && Owned(slots, pending, multiset{}, nodes)
    ensures slots[i][0].id in nodes
    ensures var rest := slots[i := slots[i][1..]];
      && Owned(rest, [slots[i][0]] + pending, multiset{}, nodes)
      && Owned(rest, pending, multiset{}, nodes - {slots[i][0].id})
  {
    var x, rest := slots[i][0], slots[i := slots[i][1..]];
    AllIdsUpdate(slots, i, slots[i][1..]);
    Cancel(AllIds(rest), multiset{x.id}, IdsOf(slots[i][1..]), AllIds(slots));
    assert ([x] + pending)[1..] == pending;
    Regroup(AllIds(rest), multiset{x.id}, IdsOf(pending));
    SlotIdsIn(slots, i, x);
    assert x.id in multiset(nodes);
    assert multiset(nodes - {x.id}) == multiset(nodes) - multiset{x.id};
    assert AllIds(rest) + IdsOf(pending) == (AllIds(slots) + IdsOf(pending)) - multiset{x.id};
  }

  lemma Cancel(a: multiset<Id>, x: multiset<Id>, r: multiset<Id>, b: multiset<Id>)
    requires a + (x + r) == b + r
    ensures a + x == b
  {
    assert a + x == (a + (x + r)) - r;
    assert b == (b + r) - r;
  }

  lemma PendingOwned(slots: seq<seq<Timer>>, pos: Timer, pending: seq<Timer>, nodes: set<Id>)
    requires Owned(slots, [pos] + pending, multiset{}, nodes)
    ensures Owned(slots, pending, multiset{pos.id}, nodes)
  {
    assert ([pos] + pending)[1..] == pending;
  }

  lemma FreeOwned(slots: seq<seq<Timer>>, pending: seq<Timer>, id: Id, nodes: set<Id>)
    requires Owned(slots, pending, multiset{id}, nodes)
    ensures id in nodes && Owned(slots, pending, multiset{}, nodes - {id})
  {
    assert id in multiset(nodes);
    assert multiset(nodes - {id}) == multiset(nodes) - multiset{id};
  }

  lemma SlotTwice(slots: seq<seq<Timer>>, i: nat, a: seq<Timer>, b: seq<Timer>)
    requires i < |slots|
    ensures slots[i := a][i := b] == slots[i := b] && slots[i := a][i] == a
  {
  }

  lemma LiveSnoc(s: seq<Timer>, k: nat, deaths: map<Id, nat>)
    requires k < |s|
    ensures Reverse(Live(s[..k + 1], deaths)) ==
        (if s[k].id in deaths then [] else [s[k]]) + Reverse(Live(s[..k], deaths))
  {
    var p := (t: Timer) => t.id !in deaths;
    assert s[..k + 1] == s[..k] + [s[k]];
    FilterAppend(p, s[..k], [s[k]]);
    if p(s[k]) {
      assert Filter(p, [s[k]]) == [s[k]];
      ReverseAppend(Live(s[..k], deaths), [s[k]]);
      assert Reverse([s[k]]) == [s[k]];
    } else {
      assert Filter(p, [s[k]]) == [];
      assert Live(s[..k], deaths) + [] == Live(s[..k], deaths);
    }
  }

  lemma RestLater(s: seq<Timer>, k: nat, now: nat)
    requires Sorted(s) && k <= |s| && (k < |s| ==> s[k].ts > now)
    ensures forall t :: t in s[k..] ==> t.ts > now
  {
    forall t | t in s[k..]
      ensures t.ts > now
    {
      var j :| 0 <= j < |s[k..]| && s[k..][j] == t;
      assert s[k + j] == t;
    }
  }

  /** The walk of slot s stopped at position k. */
  ghost predicate WalkedTo(s: seq<Timer>, k: nat, T: nat, deaths: map<Id, nat>) {
    && k <= |s|
    && AllWalked(s[..k], T, deaths)
    && (k < |s| ==> s[k].ts > T)
  }

  ghost predicate AllWalked(s: seq<Timer>, T: nat, deaths: map<Id, nat>) {
    forall t :: t in s && t.id !in deaths ==> t.ts <= T
  }

  /** The trigger list after k nodes of slot s: the live ones, last first.  (Stated of every n that is
      k, to keep the lists folded.) */
  ghost predicate Took(trigger: seq<Timer>, s: seq<Timer>, k: nat, deaths: map<Id, nat>)
    requires k <= |s|
  {
    forall n :: n == k ==> trigger == Reverse(Live(s[..n], deaths))
  }

  lemma WalkBegins(s: seq<Timer>, T: nat, deaths: map<Id, nat>)
    ensures s[0..] == s && Took([], s, 0, deaths) && AllWalked(s[..0], T, deaths)
  {
    assert s[..0] == [];
  }

  lemma WalkStep(s: seq<Timer>, k: nat, T: nat, deaths: map<Id, nat>, trigger: seq<Timer>)
    requires k < |s| && AllWalked(s[..k], T, deaths) && Took(trigger, s, k, deaths)
    ensures s[k..][1..] == s[k + 1..]
    ensures s[k].id in deaths || s[k].ts <= T ==> AllWalked(s[..k + 1], T, deaths)
    ensures Took(if s[k].id in deaths then trigger else [s[k]] + trigger, s, k + 1, deaths)
  {
    LiveSnoc(s, k, deaths);
    assert s[..k + 1] == s[..k] + [s[k]];
  }

  lemma TakeRefines(nb: nat, now: nat, slots: seq<seq<Timer>>, nextId: Id, log: seq<Firing>, tb: Table, i: nat,
        cut: seq<Timer>)
    requires Refines(nb, now, slots, nextId, log, tb) && i == SlotOf(now + 1, nb)
    requires Shows(cut, i, TakeDue(tb, now + 1))
    ensures Refines(nb, now + 1, slots[i := cut], nextId, log, TakeDue(tb, now + 1))
  {
    OthersShow(nb, now, slots, nextId, log, tb, TakeDue(tb, now + 1), i);
    RestIsLater(tb);
    ReplaceRefines(nb, now + 1, slots, nextId, log, TakeDue(tb, now + 1), i, cut);
  }

  /** Cutting the slot of the tick where the walk stops takes out exactly what is due. */
  lemma WalkDone(nb: nat, now: nat, T: nat, slots: seq<seq<Timer>>, nextId: Id, log: seq<Firing>, tb: Table,
        i: nat, k: nat, slots': seq<seq<Timer>>, trigger: seq<Timer>)
    requires T == now + 1 && Refines(nb, now, slots, nextId, log, tb) && i == SlotOf(T, nb)
    requires WalkedTo(slots[i], k, T, tb.deaths)
    requires slots' == slots[i := slots[i][k..]] && Took(trigger, slots[i], k, tb.deaths)
    ensures Refines(nb, T, slots', nextId, log, TakeDue(tb, T))
    ensures trigger == Firable(tb, T)
  {
    SlotShown(nb, now, slots, nextId, log, tb, i);
    WalkCuts(slots[i], k, i, tb);
    TakeRefines(nb, now, slots, nextId, log, tb, i, slots[i][k..]);
  }

  lemma WalkCuts(slot: seq<Timer>, k: nat, i: nat, tb: Table)
    requires tb.nb > 0 && i == SlotOf(tb.now + 1, tb.nb) && Shows(slot, i, tb) && AllLater(tb.timers, tb.nb, tb.now)
    requires WalkedTo(slot, k, tb.now + 1, tb.deaths)
    ensures Shows(slot[k..], i, TakeDue(tb, tb.now + 1))
    ensures Reverse(Live(slot[..k], tb.deaths)) == Firable(tb, tb.now + 1)
  {
    SlotOkMeans(slot, i, tb.nb, tb.now);
    RestLater(slot, k, tb.now + 1);
    CutSlot(slot, k, i, tb);
    WalkOrder(slot, i, tb, k);
  }

  lemma SlotShown(nb: nat, now: nat, slots: seq<seq<Timer>>, nextId: Id, log: seq<Firing>, tb: Table, i: nat)
    requires Refines(nb, now, slots, nextId, log, tb) && i < nb
    ensures Shows(slots[i], i, tb) && AllLater(tb.timers, tb.nb, tb.now)
  {
  }

  lemma LogRefines(nb: nat, now: nat, slots: seq<seq<Timer>>, nextId: Id, log: seq<Firing>, tb: Table, f: Firing)
    requires Refines(nb, now, slots, nextId, log, tb)
    ensures Refines(nb, now, slots, nextId, log + [f], tb.(log := log + [f]))
  {
    forall j | 0 <= j < nb
      ensures Shows(slots[j], j, tb.(log := log + [f]))
    {
      assert Shows(slots[j], j, tb);
    }
  }

  lemma BirthOwned(slots: seq<seq<Timer>>, pending: seq<Timer>, flight: multiset<Id>, nodes: set<Id>, id: Id)
    requires Owned(slots, pending, flight, nodes) && id !in nodes
    ensures Owned(slots, pending, flight + multiset{id}, nodes + {id})
  {
    assert multiset(nodes + {id}) == multiset(nodes) + multiset{id};
  }

  /** A timer has an id, and is not yet in the table. */
  function Born(tb: Table, cycle: nat, repeating: bool): Table {
    tb.(births := tb.births[tb.nextId := Birth(tb.now, cycle, repeating)], nextId := tb.nextId + 1)
  }

  lemma BirthRefines(nb: nat, now: nat, slots: seq<seq<Timer>>, nextId: Id, log: seq<Firing>, tb: Table,
        cycle: nat, repeating: bool)
    requires Refines(nb, now, slots, nextId, log, tb)
    ensures Refines(nb, now, slots, nextId + 1, log, Born(tb, cycle, repeating))
  {
    forall j | 0 <= j < nb
      ensures Shows(slots[j], j, Born(tb, cycle, repeating))
    {
      assert Shows(slots[j], j, tb);
    }
  }

  /** An addition is a birth and an insertion. */
  lemma AddIs(tb: Table, cycle: nat, repeating: bool)
    ensures Apply(tb, Op.Add(cycle, repeating)) == Insert(Born(tb, cycle, repeating), tb.nextId, cycle, repeating)
  {
  }

  /** Firing what is left of the trigger list from position k on leads to target.  (Stated of every n
      that is k, to keep the firing folded.) */
  ghost predicate FireLeads(tb: Table, trigger: seq<Timer>, k: nat, cb: Callback, target: Table)
    requires k <= |trigger|
  {
    forall n :: n == k ==> FireAll(tb, trigger[n..], cb) == target
  }

  lemma FireBegins(tb: Table, trigger: seq<Timer>, cb: Callback)
    ensures trigger[0..] == trigger && FireLeads(tb, trigger, 0, cb, FireAll(tb, trigger, cb))
  {
  }

  lemma FireStep(tb: Table, trigger: seq<Timer>, k: nat, cb: Callback, target: Table)
    requires k < |trigger| && FireLeads(tb, trigger, k, cb, target)
    ensures trigger[k..] == [trigger[k]] + trigger[k + 1..]
    ensures FireLeads(Fire(tb, trigger[k], cb), trigger, k + 1, cb, target)
  {
    assert trigger[k..][1..] == trigger[k + 1..];
  }

  lemma FireEnds(tb: Table, trigger: seq<Timer>, cb: Callback, target: Table)
    requires FireLeads(tb, trigger, |trigger|, cb, target)
    ensures trigger[|trigger|..] == [] && tb == target
  {
  }

  lemma {:induction false} NoIds(slots: seq<seq<Timer>>)
    requires forall i :: 0 <= i < |slots| ==> slots[i] == []
    ensures AllIds(slots) == multiset{}
  {
    if slots != [] { NoIds(slots[1..]); }
  }

  // ----- what is allocated

  lemma {:induction false} IdsFound(s: seq<Timer>, id: Id) returns (t: Timer)
    requires id in IdsOf(s)
    ensures t in s && t.id == id
  {
    if s[0].id == id { t := s[0]; } else { t := IdsFound(s[1..], id); }
  }

  lemma {:induction false} SlotIdsFound(slots: seq<seq<Timer>>, id: Id) returns (i: nat, t: Timer)
    requires id in AllIds(slots)
    ensures i < |slots| && t in slots[i] && t.id == id
  {
    if id in IdsOf(slots[0]) {
      i := 0;
      t := IdsFound(slots[0], id);
    } else {
      i, t := SlotIdsFound(slots[1..], id);
      i := i + 1;
    }
  }

  /** A node of this id waits in a slot. */
  ghost predicate Waits(slots: seq<seq<Timer>>, id: Id) {
    exists i, t :: 0 <= i < |slots| && t in slots[i] && t.id == id
  }

  lemma NodeWaits(slots: seq<seq<Timer>>, nodes: set<Id>, id: Id)
    requires AllIds(slots) == multiset(nodes)
    ensures id in nodes <==> Waits(slots, id)
  {
    assert id in nodes <==> id in multiset(nodes);
    if id in nodes { var i, t := SlotIdsFound(slots, id); }
    if Waits(slots, id) {
      var i, t :| 0 <= i < |slots| && t in slots[i] && t.id == id;
      SlotIdsIn(slots, i, t);
    }
  }

  /** A node that is not deleted waits in a slot exactly if the table holds it. */
  lemma LiveWaits(nb: nat, now: nat, slots: seq<seq<Timer>>, nextId: Id, log: seq<Firing>, tb: Table, id: Id)
    requires Refines(nb, now, slots, nextId, log, tb) && id !in tb.deaths
    ensures Waits(slots, id) <==> HasId(tb.timers, id)
  {
    if Waits(slots, id) {
      var i, t :| 0 <= i < |slots| && t in slots[i] && t.id == id;
      ShownTimers(slots[i], i, tb, t);
    }
    if HasId(tb.timers, id) {
      var t :| t in tb.timers && t.id == id;
      var i := SlotOf(t.ts, nb);
      ShownTimers(slots[i], i, tb, t);
    }
  }

  lemma ShownTimers(slot: seq<Timer>, i: nat, tb: Table, t: Timer)
    requires tb.nb > 0 && Shows(slot, i, tb) && t.id !in tb.deaths
    ensures t in slot <==> t in tb.timers && SlotOf(t.ts, tb.nb) == i
  {
    FilterMembers((t: Timer) => t.id !in tb.deaths, slot);
    FilterMembers((t: Timer) => t.id !in tb.deaths && SlotOf(t.ts, tb.nb) == i, tb.timers);
    SlotOrderIn(InSlot(tb.timers, i, tb.nb, tb.deaths));
  }

  class Wheel {
    const nb: nat               // solt_nb
    var now: nat                // cur_ts
    var slots: seq<seq<Timer>>  // the node lists of the slots
    var deleted: set<Id>        // the is_deleted flags that are set
    var nodes: set<Id>          // the nodes allocated and not freed
    var nextId: Id
    var log: seq<Firing>        // what has fired
    ghost var table: Table

    ghost predicate Valid(pending: seq<Timer>, flight: multiset<Id>)
      reads this
    {
      && Refines(nb, now, slots, nextId, log, table)
      && Owned(slots, pending, flight, nodes)
      && FlagsOk(nodes, deleted, nextId, table)
    }

    /** timer_wheel_init */
    constructor (nb: nat)
      requires nb > 0
      ensures Valid([], multiset{}) && table == Empty(nb) && this.nb == nb
    {
      this.nb, now, slots := nb, 0, seq(nb, _ => []);
      deleted, nodes, nextId, log, table := {}, {}, 0, [], Empty(nb);
      new;
      NoIds(slots);
    }

    /** free: no node is freed twice. */
    method FreeNode(id: Id)
      requires id in nodes
      modifies this`nodes
      ensures nodes == old(nodes) - {id}
    {
      nodes := nodes - {id};
    }

    /** __timer_wheel_add: stamp the node and put it into its slot. */
    method Link(id: Id, cycle: nat, repeating: bool, ghost pending: seq<Timer>, ghost flight: multiset<Id>)
      requires Valid(pending, flight + multiset{id})
      modifies this`slots, this`table
      ensures Valid(pending, flight)
      ensures table == Insert(old(table), id, cycle, repeating)
    {
      var x := Timer(id, cycle, repeating, now + cycle);
      var idx := SlotIndex(x.ts, nb);
      var s := PutInOrder(slots[idx], x);
      ghost var tb := Insert(table, id, cycle, repeating);
      LinkDone(nb, now, slots, nextId, log, table, tb, x, idx, s, pending, flight, nodes, deleted);
      slots, table := slots[idx := s], tb;
    }

    /** A new node, in the hand of its creator. */
    method NewNode(cycle: nat, repeating: bool, ghost pending: seq<Timer>, ghost flight: multiset<Id>) returns (id: Id)
      requires Valid(pending, flight)
      modifies this`nodes, this`nextId, this`table
      ensures id == old(nextId) && id !in old(nodes) && Valid(pending, flight + multiset{id}) && now == old(now)
      ensures table == Born(old(table), cycle, repeating)
    {
      id := nextId;
      BirthRefines(nb, now, slots, nextId, log, table, cycle, repeating);
      BirthOwned(slots, pending, flight, nodes, id);
      nodes := nodes + {id};
      nextId := nextId + 1;
      table := Born(table, cycle, repeating);
    }

    /** timer_wheel_add */
    method Add(cycle: nat, repeating: bool, ghost pending: seq<Timer>, ghost flight: multiset<Id>) returns (id: Id)
      requires Valid(pending, flight)
      modifies this`slots, this`nodes, this`nextId, this`table
      ensures Valid(pending, flight)
      ensures table == Apply(old(table), Op.Add(cycle, repeating)) && id == old(nextId) && id !in old(nodes)
    {
      AddIs(table, cycle, repeating);
      id := NewNode(cycle, repeating, pending, flight);
      Link(id, cycle, repeating, pending, flight);
    }

    /** timer_wheel_del sets the flag of a node; the table remembers when. */
    method Delete(id: Id, ghost pending: seq<Timer>, ghost flight: multiset<Id>)
      requires Valid(pending, flight)
      modifies this`deleted, this`table
      ensures Valid(pending, flight) && table == Apply(old(table), Del(id))
    {
      DelRefines(nb, now, slots, nextId, log, table, id);
      if id in nodes {
        deleted := deleted + {id};
      }
      table := Apply(table, Del(id));
    }

    method RunOps(ops: seq<Op>, ghost pending: seq<Timer>, ghost flight: multiset<Id>)
      requires Valid(pending, flight)
      modifies this`slots, this`nodes, this`nextId, this`table, this`deleted
      ensures Valid(pending, flight) && table == ApplyAll(old(table), ops)
    {
      for k := 0 to |ops|
        invariant Valid(pending, flight)
        invariant ApplyAll(table, ops[k..]) == ApplyAll(old(table), ops)
      {
        assert ops[k..][1..] == ops[k + 1..];
        match ops[k] {
          case Add(cycle, repeating) => var _ := Add(cycle, repeating, pending, flight);
          case Del(id) => Delete(id, pending, flight);
        }
      }
    }

    /** The first loop of a tick: walk the slot from its front, free the deleted nodes, move the due
        ones to the front of the trigger list, and stop at the first that is due later. */
    method WalkSlot(idx: nat) returns (trigger: seq<Timer>, ghost k: nat)
      requires idx < |slots| && Owned(slots, [], multiset{}, nodes) && FlagsOk(nodes, deleted, nextId, table)
      modifies this`slots, this`nodes
      ensures var s := old(slots[idx]);
        WalkedTo(s, k, now, table.deaths) && slots == old(slots)[idx := s[k..]] && Took(trigger, s, k, table.deaths)
      ensures Owned(slots, trigger, multiset{}, nodes) && FlagsOk(nodes, deleted, nextId, table)
    {
      ghost var s, slots0 := slots[idx], slots;
      trigger, k := [], 0;
      WalkBegins(s, now, table.deaths);
      while slots[idx] != []
        invariant k <= |s| && slots == slots0[idx := s[k..]]
        invariant Owned(slots, trigger, multiset{}, nodes) && FlagsOk(nodes, deleted, nextId, table)
        invariant Took(trigger, s, k, table.deaths) && AllWalked(s[..k], now, table.deaths)
        decreases |slots[idx]|
      {
        var pos := slots[idx][0];
        HeadOwned(slots, idx, trigger, nodes);
        WalkStep(s, k, now, table.deaths, trigger);
        if pos.id in deleted {
          FreeNode(pos.id);
        } else {
          if pos.ts > now { break; }
          trigger := [pos] + trigger;
        }
        SlotTwice(slots0, idx, s[k..], s[k + 1..]);
        slots := slots[idx := slots[idx][1..]];
        k := k + 1;
      }
    }

    /** What the walk leaves: the table without the due timers, and these in the order they fire. */
    method Collect(idx: nat) returns (trigger: seq<Timer>)
      requires now > 0 && Refines(nb, now - 1, slots, nextId, log, table) && idx == SlotOf(now, nb)
      requires Owned(slots, [], multiset{}, nodes) && FlagsOk(nodes, deleted, nextId, table)
      modifies this`slots, this`nodes, this`table
      ensures table == TakeDue(old(table), now) && trigger == Firable(old(table), now)
      ensures Valid(trigger, multiset{})
    {
      ghost var slots0, k := slots, 0;
      trigger, k := WalkSlot(idx);
      WalkDone(nb, now - 1, now, slots0, nextId, log, table, idx, k, slots, trigger);
      table := TakeDue(table, now);
    }

    /** The second loop: run the callbacks, then re-arm or free. */
    method FireList(trigger: seq<Timer>, cb: Callback)
      requires Valid(trigger, multiset{})
      modifies this
      ensures Valid([], multiset{}) && table == FireAll(old(table), trigger, cb) && now == old(now)
    {
      ghost var target := FireAll(table, trigger, cb);
      FireBegins(table, trigger, cb);
      for k := 0 to |trigger|
        invariant Valid(trigger[k..], multiset{}) && now == old(now) && FireLeads(table, trigger, k, cb, target)
      {
        FireStep(table, trigger, k, cb, target);
        FireNode(trigger[k], trigger[k + 1..], cb);
      }
      FireEnds(table, trigger, cb, target);
    }

    method FireNode(pos: Timer, ghost pending: seq<Timer>, cb: Callback)
      requires Valid([pos] + pending, multiset{})
      modifies this
      ensures Valid(pending, multiset{}) && table == Fire(old(table), pos, cb) && now == old(now)
    {
      PendingOwned(slots, pos, pending, nodes);
      LogRefines(nb, now, slots, nextId, log, table, Firing(pos.id, now));
      log := log + [Firing(pos.id, now)];
      table := table.(log := log);
      RunOps(cb(pos.id, log), pending, multiset{pos.id});
      if pos.repeating {
        assert multiset{} + multiset{pos.id} == multiset{pos.id};
        Link(pos.id, pos.cycle, true, pending, multiset{});
      } else {
        FreeOwned(slots, pending, pos.id, nodes);
        FreeNode(pos.id);
      }
    }

    /** timer_wheel_tick refines the tick of the table. */
    method Tick(cb: Callback)
      requires Valid([], multiset{})
      modifies this
      ensures Valid([], multiset{}) && table == TimerTable.Tick(old(table), cb)
    {
      now := now + 1;
      var idx := SlotIndex(now, nb);
      var trigger := Collect(idx);
      FireList(trigger, cb);
    }

    /** Whole runs: the wheel does what the table does, and so every timer fires exactly when it should. */
    method Execute(cs: seq<Command>, cb: Callback)
      requires Valid([], multiset{}) && table == Empty(nb)
      modifies this
      ensures Valid([], multiset{}) && table == Run(Empty(nb), cs, cb) && log == table.log && Exact(table)
      ensures AsAsked(nb, cs, cb, log)
    {
      for k := 0 to |cs|
        invariant Valid([], multiset{})
        invariant Run(table, cs[k..], cb) == Run(Empty(nb), cs, cb)
      {
        assert cs[k..][1..] == cs[k + 1..];
        match cs[k] {
          case Do(Add(cycle, repeating)) => var _ := Add(cycle, repeating, [], multiset{});
          case Do(Del(id)) => Delete(id, [], multiset{});
          case DoTick => Tick(cb);
        }
      }
      TimersAreExact(nb, cs, cb);
      TimersFireAsAsked(nb, cs, cb);
    }

    /** Between ticks no node in a slot is overdue: a deleted one has been freed no later than at its
        deadline.  What is allocated are the timers of the table that are not deleted, and deleted ones
        that still wait in a slot; and no node is in two places. */
    lemma Allocated()
      requires Valid([], multiset{})
      ensures forall i, t :: 0 <= i < |slots| && t in slots[i] ==> Due(t, nb) > now
      ensures forall id ::
        id in nodes <==> if id in table.deaths then Waits(slots, id) else HasId(table.timers, id)
      ensures AllIds(slots) == multiset(nodes)
    {
      forall i | 0 <= i < |slots|
        ensures forall t :: t in slots[i] ==> Due(t, nb) > now
      {
        SlotShown(nb, now, slots, nextId, log, table, i);
        SlotOkMeans(slots[i], i, nb, now);
      }
      assert IdsOf([]) == multiset{} && AllIds(slots) == multiset(nodes);
      forall id
        ensures id in nodes <==> if id in table.deaths then Waits(slots, id) else HasId(table.timers, id)
      {
        NodeWaits(slots, nodes, id);
        if id !in table.deaths { LiveWaits(nb, now, slots, nextId, log, table, id); }
      }
    }

    /** timer_wheel_destroy frees what is left, each node once. */
    method Destroy()
      requires Valid([], multiset{})
      modifies this`nodes, this`slots
      ensures nodes == {}
    {
      var i := 0;
      while i < nb
        invariant 0 <= i <= nb && |slots| == nb
        invariant Owned(slots, [], multiset{}, nodes)
        invariant forall j :: 0 <= j < i ==> slots[j] == []
      {
        while slots[i] != []
          invariant |slots| == nb && Owned(slots, [], multiset{}, nodes)
          invariant forall j :: 0 <= j < i ==> slots[j] == []
          decreases |slots[i]|
        {
          HeadOwned(slots, i, [], nodes);
          FreeNode(slots[i][0].id);
          slots := slots[i := slots[i][1..]];
        }
        i := i + 1;
      }
      NoIds(slots);
      assert multiset(nodes) == multiset{};
      assert forall id :: id in nodes ==> id in multiset(nodes);
    }
  }
}
