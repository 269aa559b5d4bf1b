/** Slot lists of the timer wheel, and what they hold of a table. */
module TimerSlots {
  import opened Modulo
  import opened Sequences
  import opened TimerTable

  // ----- filters

  lemma {:induction false} FilterBoth(p: Timer -> bool, q: Timer -> bool, r: Timer -> bool, s: seq<Timer>)
    requires forall t :: t in s ==> (r(t) <==> p(t) && q(t))
    ensures Filter(p, Filter(q, s)) == Filter(r, s)
  {
    if s != [] {
      FilterBoth(p, q, r, s[1..]);
      if q(s[0]) {
        assert Filter(q, s) == [s[0]] + Filter(q, s[1..]);
        assert Filter(q, s)[1..] == Filter(q, s[1..]);
      } else {
        assert Filter(q, s) == Filter(q, s[1..]);
      }
    }
  }

  lemma {:induction false} FilterAppend(p: Timer -> bool, a: seq<Timer>, b: seq<Timer>)
    ensures Filter(p, a + b) == Filter(p, a) + Filter(p, b)
  {
    if a == [] {
      assert a + b == b;
    } else {
      FilterAppend(p, a[1..], b);
      assert a == [a[0]] + a[1..] && a + b == [a[0]] + (a[1..] + b);
      FilterCons(p, a[0], a[1..]);
      FilterCons(p, a[0], a[1..] + b);
      Associative(if p(a[0]) then [a[0]] else [], Filter(p, a[1..]), Filter(p, b));
    }
  }

  lemma FilterCons(p: Timer -> bool, x: Timer, s: seq<Timer>)
    ensures Filter(p, [x] + s) == (if p(x) then [x] else []) + Filter(p, s)
  {
    assert ([x] + s)[1..] == s;
  }

  lemma {:induction false} FilterAll(p: Timer -> bool, s: seq<Timer>)
    ensures (forall t :: t in s ==> p(t)) ==> Filter(p, s) == s
    ensures (forall t :: t in s ==> !p(t)) ==> Filter(p, s) == []
  {
    if s != [] {
      FilterAll(p, s[1..]);
      assert s == [s[0]] + s[1..];
      assert s[0] in s && forall t :: t in s[1..] ==> t in s;
    }
  }

  // ----- sorted slots

  ghost predicate Sorted(s: seq<Timer>) {
    forall i, j :: 0 <= i < j < |s| ==> s[i].ts <= s[j].ts
  }

  /** The new node goes before the first one that fires no earlier. */
  function InsertSlot(s: seq<Timer>, x: Timer): seq<Timer> {
    if s == [] || s[0].ts >= x.ts then [x] + s else [s[0]] + InsertSlot(s[1..], x)
  }

  /** The slot that inserting the timers of l one after the other makes. */
  function SlotOrder(l: seq<Timer>): seq<Timer> {
    if l == [] then [] else InsertSlot(SlotOrder(l[..|l| - 1]), l[|l| - 1])
  }

  lemma {:induction false} InsertIn(s: seq<Timer>, x: Timer)
    ensures forall t :: t in InsertSlot(s, x) <==> t in s || t == x
  {
    if s != [] && s[0].ts < x.ts { InsertIn(s[1..], x); }
  }

  lemma {:induction false} InsertKeepsSorted(s: seq<Timer>, x: Timer)
    requires Sorted(s)
    ensures Sorted(InsertSlot(s, x))
  {
    if s != [] && s[0].ts < x.ts {
      InsertKeepsSorted(s[1..], x);
      InsertIn(s[1..], x);
      var r := InsertSlot(s[1..], x);
      assert forall i :: 0 <= i < |r| ==> r[i] in r;
    }
  }

  lemma {:induction false} FilterInsert(p: Timer -> bool, s: seq<Timer>, x: Timer)
    requires Sorted(s)
    ensures Filter(p, InsertSlot(s, x)) == if p(x) then InsertSlot(Filter(p, s), x) else Filter(p, s)
  {
    if s == [] || s[0].ts >= x.ts {
      FilterFront(p, s, x);
    } else {
      var y, t := s[0], s[1..];
      FilterInsert(p, t, x);
      FilterCons(p, y, InsertSlot(t, x));
      FilterCons(p, y, t);
      assert s == [y] + t;
      assert forall f: seq<Timer> :: [] + f == f;
      InsertBehind(y, Filter(p, t), x);
    }
  }

  lemma InsertBehind(y: Timer, s: seq<Timer>, x: Timer)
    requires y.ts < x.ts
    ensures InsertSlot([y] + s, x) == [y] + InsertSlot(s, x)
  {
    assert ([y] + s)[1..] == s;
  }

  /** A node that goes to the front of a sorted slot. */
  lemma FilterFront(p: Timer -> bool, s: seq<Timer>, x: Timer)
    requires Sorted(s) && (s != [] ==> s[0].ts >= x.ts)
    ensures Filter(p, [x] + s) == if p(x) then InsertSlot(Filter(p, s), x) else Filter(p, s)
  {
    FilterCons(p, x, s);
    FilterMembers(p, s);
    if Filter(p, s) != [] {
      assert Filter(p, s)[0] in Filter(p, s);
    }
  }

  lemma {:induction false} SlotOrderSorted(l: seq<Timer>)
    ensures Sorted(SlotOrder(l))
  {
    if l != [] {
      SlotOrderSorted(l[..|l| - 1]);
      InsertKeepsSorted(SlotOrder(l[..|l| - 1]), l[|l| - 1]);
    }
  }

  lemma {:induction false} SlotOrderIn(l: seq<Timer>)
    ensures forall t :: t in SlotOrder(l) <==> t in l
  {
    if l != [] {
      SlotOrderIn(l[..|l| - 1]);
      InsertIn(SlotOrder(l[..|l| - 1]), l[|l| - 1]);
      assert l == l[..|l| - 1] + [l[|l| - 1]];
    }
  }

  lemma SlotOrderSnoc(l: seq<Timer>, x: Timer)
    ensures SlotOrder(l + [x]) == InsertSlot(SlotOrder(l), x)
  {
    assert (l + [x])[..|l|] == l;
  }

  /** Picking timers out of a slot is picking them out of the table. */
  lemma {:induction false} FilterSlotOrder(p: Timer -> bool, l: seq<Timer>)
    ensures Filter(p, SlotOrder(l)) == SlotOrder(Filter(p, l))
  {
    if l != [] {
      var a, x := l[..|l| - 1], l[|l| - 1];
      assert l == a + [x];
      FilterSlotOrder(p, a);
      SlotOrderSorted(a);
      FilterInsert(p, SlotOrder(a), x);
      FilterAppend(p, a, [x]);
      if p(x) {
        assert Filter(p, [x]) == [x];
        SlotOrderSnoc(Filter(p, a), x);
      } else {
        assert Filter(p, [x]) == [];
        assert Filter(p, a) + [] == Filter(p, a);
      }
    }
  }

  /** Timers with the same deadline stand newest first. */
  lemma {:induction false} SlotOrderEqual(l: seq<Timer>, v: int)
    requires forall t :: t in l ==> t.ts == v
    ensures SlotOrder(l) == Reverse(l)
  {
    if l != [] {
      var a, x := l[..|l| - 1], l[|l| - 1];
      assert l == a + [x] && x in l;
      assert forall t :: t in a ==> t in l;
      SlotOrderEqual(a, v);
      InsertFirst(a, x, v);
      ReverseLast(l);
    }
  }

  lemma InsertFirst(a: seq<Timer>, x: Timer, v: int)
    requires x.ts == v && forall t :: t in a ==> t.ts == v
    ensures InsertSlot(SlotOrder(a), x) == [x] + SlotOrder(a)
  {
    SlotOrderIn(a);
    if SlotOrder(a) != [] { assert SlotOrder(a)[0] in SlotOrder(a); }
  }

  lemma SplitAt(a: seq<Timer>, b: seq<Timer>, p: Timer -> bool, q: Timer -> bool)
    requires forall t :: t in a ==> p(t) && !q(t)
    requires forall t :: t in b ==> q(t) && !p(t)
    ensures Filter(p, a + b) == a && Filter(q, a + b) == b
  {
    SplitLeft(a, b, p);
    SplitRight(a, b, q);
  }

  lemma SplitLeft(a: seq<Timer>, b: seq<Timer>, p: Timer -> bool)
    requires (forall t :: t in a ==> p(t)) && (forall t :: t in b ==> !p(t))
    ensures Filter(p, a + b) == a
  {
    FilterAppend(p, a, b);
    FilterAll(p, a);
    FilterAll(p, b);
  }

  lemma SplitRight(a: seq<Timer>, b: seq<Timer>, q: Timer -> bool)
    requires (forall t :: t in a ==> !q(t)) && (forall t :: t in b ==> q(t))
    ensures Filter(q, a + b) == b
  {
    FilterAppend(q, a, b);
    FilterAll(q, a);
    FilterAll(q, b);
  }

  lemma FindSplit(s: seq<Timer>, v: int) returns (k: nat)
    requires Sorted(s)
    ensures k <= |s|
    ensures forall t :: t in s[..k] ==> t.ts <= v
    ensures forall t :: t in s[k..] ==> t.ts > v
  {
    k := 0;
    while k < |s| && s[k].ts <= v
      invariant k <= |s| && forall i :: 0 <= i < k ==> s[i].ts <= v
    {
      k := k + 1;
    }
  }

  /** A sorted list is its early timers followed by its late ones. */
  lemma SplitSorted(s: seq<Timer>, v: int, p: Timer -> bool, q: Timer -> bool)
    requires Sorted(s)
    requires forall t :: t in s ==> (p(t) <==> t.ts <= v) && (q(t) <==> t.ts > v)
    ensures s == Filter(p, s) + Filter(q, s)
  {
    var k := FindSplit(s, v);
    forall t | t in s[..k] ensures p(t) && !q(t) { assert t in s; }
    forall t | t in s[k..] ensures q(t) && !p(t) { assert t in s; }
    SplitAt(s[..k], s[k..], p, q);
    assert s == s[..k] + s[k..];
  }

  // ----- the walk of a tick

  /** Reversing what the walk took out of the slot gives the timers in insertion order, those of the
      later deadline first. */
  lemma TakenOrder(l: seq<Timer>, lo: int, hi: int)
    requires lo < hi && forall t :: t in l ==> t.ts == lo || t.ts == hi
    ensures Reverse(SlotOrder(l)) == Filter((t: Timer) => t.ts == hi, l) + Filter((t: Timer) => t.ts == lo, l)
  {
    var p, q := (t: Timer) => t.ts == lo, (t: Timer) => t.ts == hi;
    SlotOrderSorted(l);
    SlotOrderIn(l);
    SplitSorted(SlotOrder(l), lo, p, q);
    FilterSlotOrder(p, l);
    FilterSlotOrder(q, l);
    FilterMembers(p, l);
    FilterMembers(q, l);
    SlotOrderEqual(Filter(p, l), lo);
    SlotOrderEqual(Filter(q, l), hi);
    ReverseAppend(Reverse(Filter(p, l)), Reverse(Filter(q, l)));
    ReverseTwice(Filter(p, l));
    ReverseTwice(Filter(q, l));
  }

  // ----- a slot and the table

  /** The slot of a time stamp: its remainder, counted in whole turns of the wheel. */
  function SlotOf(ts: nat, nb: nat): (i: nat)
    requires nb > 0
    ensures i < nb
    decreases ts
  {
    if ts < nb then ts else SlotOf(ts - nb, nb)
  }

  lemma {:induction false} SlotOfIsMod(ts: nat, nb: nat)
    requires nb > 0
    ensures SlotOf(ts, nb) == ts % nb
    decreases ts
  {
    if ts >= nb {
      SlotOfIsMod(ts - nb, nb);
      ModShift(ts - nb, 1, nb);
    }
  }

  /** The nodes of a slot that are not deleted. */
  function Live(s: seq<Timer>, deaths: map<Id, nat>): seq<Timer> {
    Filter((t: Timer) => t.id !in deaths, s)
  }

  /** The timers of a table that hash to slot i and are not deleted. */
  function InSlot(timers: seq<Timer>, i: nat, nb: nat, deaths: map<Id, nat>): seq<Timer>
    requires nb > 0
  {
    Filter((t: Timer) => t.id !in deaths && SlotOf(t.ts, nb) == i, timers)
  }

  /** The slot shows exactly the timers of the table that belong in it, in slot order. */
  ghost predicate Agrees(slot: seq<Timer>, i: nat, nb: nat, timers: seq<Timer>, deaths: map<Id, nat>)
    requires nb > 0
  {
    Live(slot, deaths) == SlotOrder(InSlot(timers, i, nb, deaths))
  }

  /** Between ticks everything is due later; a cycle of 0 gives a time stamp that is not later. */
  predicate Later(t: Timer, nb: nat, now: nat) {
    Due(t, nb) > now && (t.cycle == 0 ==> t.ts <= now)
  }

  /** A slot list in order, of timers that belong in it and are due later. */
  ghost predicate SlotOk(slot: seq<Timer>, i: nat, nb: nat, now: nat)
    requires nb > 0
    decreases |slot|
  {
    slot == [] ||
    (&& SlotOf(slot[0].ts, nb) == i && Later(slot[0], nb, now)
     && (|slot| > 1 ==> slot[0].ts <= slot[1].ts)
     && SlotOk(slot[1..], i, nb, now))
  }

  lemma {:induction false} SlotOkMeans(slot: seq<Timer>, i: nat, nb: nat, now: nat)
    requires nb > 0
    ensures SlotOk(slot, i, nb, now) <==>
      Sorted(slot) && forall t :: t in slot ==> SlotOf(t.ts, nb) == i && Later(t, nb, now)
    decreases |slot|
  {
    if slot != [] {
      var rest := slot[1..];
      SlotOkMeans(rest, i, nb, now);
      assert forall t :: t in slot <==> t == slot[0] || t in rest;
      if Sorted(rest) && (|slot| > 1 ==> slot[0].ts <= slot[1].ts) {
        SortedCons(slot);
      }
      if Sorted(slot) {
        assert forall a, b :: 0 <= a < b < |rest| ==> rest[a] == slot[a + 1] && rest[b] == slot[b + 1];
      }
    }
  }

  lemma SortedCons(s: seq<Timer>)
    requires s != [] && Sorted(s[1..]) && (|s| > 1 ==> s[0].ts <= s[1].ts)
    ensures Sorted(s)
  {
    forall a, b | 0 <= a < b < |s|
      ensures s[a].ts <= s[b].ts
    {
      assert s[1..][b - 1] == s[b];
      if a > 0 { assert s[1..][a - 1] == s[a]; } else { assert s[1..][0] == s[1]; }
    }
  }

  ghost predicate AllLater(timers: seq<Timer>, nb: nat, now: nat)
    decreases |timers|
  {
    timers == [] || (Later(timers[0], nb, now) && AllLater(timers[1..], nb, now))
  }

  lemma {:induction false} AllLaterMeans(timers: seq<Timer>, nb: nat, now: nat)
    ensures AllLater(timers, nb, now) <==> forall t :: t in timers ==> Later(t, nb, now)
    decreases |timers|
  {
    if timers != [] {
      AllLaterMeans(timers[1..], nb, now);
      assert forall t :: t in timers <==> t == timers[0] || t in timers[1..];
    }
  }

  lemma LinkAgrees(slot: seq<Timer>, i: nat, nb: nat, timers: seq<Timer>, deaths: map<Id, nat>, x: Timer)
    requires nb > 0 && Sorted(slot) && Agrees(slot, i, nb, timers, deaths)
    ensures Agrees(if SlotOf(x.ts, nb) == i then InsertSlot(slot, x) else slot, i, nb, timers + [x], deaths)
  {
    var p, q := (t: Timer) => t.id !in deaths, (t: Timer) => t.id !in deaths && SlotOf(t.ts, nb) == i;
    FilterInsert(p, slot, x);
    FilterAppend(q, timers, [x]);
    if q(x) {
      assert Filter(q, [x]) == [x];
      SlotOrderSnoc(Filter(q, timers), x);
    } else {
      assert Filter(q, [x]) == [];
      assert Filter(q, timers) + [] == Filter(q, timers);
    }
  }

  lemma DelAgrees(slot: seq<Timer>, i: nat, nb: nat, timers: seq<Timer>, deaths: map<Id, nat>, id: Id, at: nat)
    requires nb > 0 && Agrees(slot, i, nb, timers, deaths)
    ensures Agrees(slot, i, nb, timers, deaths[id := at])
  {
    var d := deaths[id := at];
    var p, p', n := (t: Timer) => t.id !in deaths, (t: Timer) => t.id !in d, (t: Timer) => t.id != id;
    var q := (t: Timer) => t.id !in deaths && SlotOf(t.ts, nb) == i;
    var q' := (t: Timer) => t.id !in d && SlotOf(t.ts, nb) == i;
    FilterBoth(n, p, p', slot);
    FilterBoth(n, q, q', timers);
    FilterSlotOrder(n, Filter(q, timers));
  }

  /** Which timers of the slot of tick T the walk takes: those due at T, and their time stamp is T,
      or a turn earlier for a cycle of 0. */
  lemma TakenAreDue(t: Timer, nb: nat, now: nat)
    requires nb > 0 && Later(t, nb, now)
    ensures SlotOf(t.ts, nb) == SlotOf(now + 1, nb) && t.ts <= now + 1 <==> Due(t, nb) == now + 1
    ensures Due(t, nb) == now + 1 ==> if t.cycle == 0 then t.ts + nb == now + 1 else t.ts == now + 1
    ensures Due(t, nb) == now + 1 ==> (t.cycle > 0 <==> t.ts == now + 1)
  {
    if SlotOf(t.ts, nb) == SlotOf(now + 1, nb) && t.ts <= now + 1 && t.cycle == 0 {
      SlotOfIsMod(now + 1, nb);
      SlotOfIsMod(t.ts + nb, nb);
      SameResidue(now + 1, t.ts + nb, nb);
    }
  }

  /** The two halves of a slot at the place where the walk stops. */
  lemma WalkSplits(slot: seq<Timer>, k: nat, T: nat, i: nat, nb: nat, timers: seq<Timer>, deaths: map<Id, nat>)
    requires nb > 0 && Sorted(slot) && k <= |slot| && Agrees(slot, i, nb, timers, deaths)
    requires forall t :: t in slot[..k] && t.id !in deaths ==> t.ts <= T
    requires forall t :: t in slot[k..] ==> t.ts > T
    ensures var l := InSlot(timers, i, nb, deaths);
      && Live(slot[..k], deaths) == SlotOrder(Filter((t: Timer) => t.ts <= T, l))
      && Live(slot[k..], deaths) == SlotOrder(Filter((t: Timer) => t.ts > T, l))
  {
    var p, q := (t: Timer) => t.ts <= T, (t: Timer) => t.ts > T;
    var a := (t: Timer) => t.id !in deaths;
    var l := InSlot(timers, i, nb, deaths);
    var x, y := Live(slot[..k], deaths), Live(slot[k..], deaths);
    assert slot == slot[..k] + slot[k..];
    FilterAppend(a, slot[..k], slot[k..]);
    FilterMembers(a, slot[..k]);
    FilterMembers(a, slot[k..]);
    SplitAt(x, y, p, q);
    FilterSlotOrder(p, l);
    FilterSlotOrder(q, l);
  }

  /** What stays in the slot is what stays in the table. */
  lemma RestAgrees(tb: Table, i: nat)
    requires tb.nb > 0 && i == SlotOf(tb.now + 1, tb.nb) && forall t :: t in tb.timers ==> Later(t, tb.nb, tb.now)
    ensures Filter((t: Timer) => t.ts > tb.now + 1, InSlot(tb.timers, i, tb.nb, tb.deaths))
      == InSlot(TakeDue(tb, tb.now + 1).timers, i, tb.nb, tb.deaths)
  {
    var T := tb.now + 1;
    var q := (t: Timer) => t.id !in tb.deaths && SlotOf(t.ts, tb.nb) == i;
    var w := (t: Timer) => t.id !in tb.deaths && SlotOf(t.ts, tb.nb) == i && t.ts > T;
    forall t | t in tb.timers
      ensures w(t) <==> q(t) && Due(t, tb.nb) != T
    {
      TakenAreDue(t, tb.nb, tb.now);
    }
    FilterBoth((t: Timer) => t.ts > T, q, w, tb.timers);
    FilterBoth(q, (t: Timer) => Due(t, tb.nb) != T, w, tb.timers);
  }

  lemma TakenStamp(t: Timer, nb: nat, now: nat, i: nat)
    requires nb > 0 && i == SlotOf(now + 1, nb) && Later(t, nb, now)
    ensures SlotOf(t.ts, nb) == i && t.ts <= now + 1 ==> t.ts == now + 1 || t.ts == now + 1 - nb
    ensures (t.cycle > 0 && t.ts == now + 1) <==> (t.ts == now + 1 && SlotOf(t.ts, nb) == i)
    ensures (t.cycle == 0 && t.ts + nb == now + 1) <==> (t.ts == now + 1 - nb && SlotOf(t.ts, nb) == i)
  {
    TakenAreDue(t, nb, now);
  }

  /** What the walk takes out, in the order of the trigger list, is what the table fires. */
  lemma TakenAreFirable(tb: Table, i: nat)
    requires tb.nb > 0 && i == SlotOf(tb.now + 1, tb.nb) && forall t :: t in tb.timers ==> Later(t, tb.nb, tb.now)
    ensures Reverse(SlotOrder(Filter((t: Timer) => t.ts <= tb.now + 1, InSlot(tb.timers, i, tb.nb, tb.deaths))))
      == Firable(tb, tb.now + 1)
  {
    var T := tb.now + 1;
    var q := (t: Timer) => t.id !in tb.deaths && SlotOf(t.ts, tb.nb) == i;
    var r := (t: Timer) => t.id !in tb.deaths && SlotOf(t.ts, tb.nb) == i && t.ts <= T;
    FilterBoth((t: Timer) => t.ts <= T, q, r, tb.timers);
    TakenByStamp(tb, i, Filter(r, tb.timers), r);
  }

  lemma TakenByStamp(tb: Table, i: nat, l: seq<Timer>, r: Timer -> bool)
    requires tb.nb > 0 && i == SlotOf(tb.now + 1, tb.nb) && forall t :: t in tb.timers ==> Later(t, tb.nb, tb.now)
    requires l == Filter(r, tb.timers)
    requires forall t :: t in tb.timers ==>
      (r(t) <==> t.id !in tb.deaths && SlotOf(t.ts, tb.nb) == i && t.ts <= tb.now + 1)
    ensures Reverse(SlotOrder(l)) == Firable(tb, tb.now + 1)
  {
    var T := tb.now + 1;
    var late := T - tb.nb;
    FilterMembers(r, tb.timers);
    forall t | t in l ensures t.ts == late || t.ts == T { TakenStamp(t, tb.nb, tb.now, i); }
    TakenOrder(l, late, T);
    var hi, lo := (t: Timer) => t.ts == T, (t: Timer) => t.ts == late;
    var fst := (t: Timer) => t.cycle > 0 && t.ts == T && t.id !in tb.deaths;
    var snd := (t: Timer) => t.cycle == 0 && t.ts + tb.nb == T && t.id !in tb.deaths;
    forall t | t in tb.timers
      ensures (fst(t) <==> hi(t) && r(t)) && (snd(t) <==> lo(t) && r(t))
    {
      TakenStamp(t, tb.nb, tb.now, i);
    }
    FilterBoth(hi, r, fst, tb.timers);
    FilterBoth(lo, r, snd, tb.timers);
  }

  /** The other slots keep what they have: nothing of theirs is due. */
  lemma OthersAgree(tb: Table, i: nat)
    requires tb.nb > 0 && i != SlotOf(tb.now + 1, tb.nb) && forall t :: t in tb.timers ==> Later(t, tb.nb, tb.now)
    ensures InSlot(TakeDue(tb, tb.now + 1).timers, i, tb.nb, tb.deaths) == InSlot(tb.timers, i, tb.nb, tb.deaths)
  {
    var q := (t: Timer) => t.id !in tb.deaths && SlotOf(t.ts, tb.nb) == i;
    forall t | t in tb.timers
      ensures q(t) <==> q(t) && Due(t, tb.nb) != tb.now + 1
    {
      TakenAreDue(t, tb.nb, tb.now);
    }
    FilterBoth(q, (t: Timer) => Due(t, tb.nb) != tb.now + 1, q, tb.timers);
  }
}
