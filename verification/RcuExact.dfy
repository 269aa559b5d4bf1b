/** The grace period is exact: synchronize_rcu waits for an open section if and only if that section
    holds the current parity when it takes the lock. */
module RcuExact {
  import opened Wrappers
  import opened Bytes
  import opened Rcu
  import opened RcuGrace

  /** u is inside synchronize_rcu, or has returned from it and freed nothing yet. */
  predicate Waiting(ph: Phase) {
    ph.FirstScan? || ph.SecondScan? || ph.Returned?
  }

  lemma {:induction false} WaitsFor(s: State, u: Uid, r: Rid, events: seq<Event>)
    requires Basic(s) && u in s.updaters && Waiting(s.updaters[u]) && Awaited(s, s.updaters[u], r)
    requires Free(u) !in events
    ensures var t := Run(s, events); u in t.updaters && Waiting(t.updaters[u]) && Awaited(t, t.updaters[u], r)
    decreases |events|
  {
    if events != [] {
      var e := events[0];
      ApplyKeepsBasic(s, e);
      ApplyKeepsAwaited(s, e, u, r);
      StaysWaiting(s, e, u);
      WaitsFor(Apply(s, e), u, r, events[1..]);
    }
  }

  lemma StaysWaiting(s: State, e: Event, u: Uid)
    requires u in s.updaters && Waiting(s.updaters[u]) && e != Free(u)
    ensures u in Apply(s, e).updaters && Waiting(Apply(s, e).updaters[u])
  {
  }

  lemma RunJoin(s: State, a: seq<Event>, m: State, b: seq<Event>, t: State)
    requires Run(s, a) == m && Run(m, b) == t
    ensures Run(s, a + b) == t
  {
    RunAppend(s, a, b);
  }

  // ----- a stale section survives

  /** r0 is in a section whose bit is not the one of index i. */
  ghost predicate Stale(s: State, r0: Rid, i: nat) {
    r0 in s.readers && s.readers[r0].place.Inside? && !Nesting(s.readers[r0], i)
  }

  function UnlockOthers(nodes: seq<Rid>, r0: Rid): seq<Event> {
    if nodes == [] then []
    else (if nodes[0] == r0 then [] else [Unlock(nodes[0])]) + UnlockOthers(nodes[1..], r0)
  }

  /** Everything about u's wait but the sections of others. */
  ghost predicate SameWait(s: State, t: State, u: Uid, r0: Rid) {
    && u in s.updaters && u in t.updaters && t.index == s.index && t.nodes == s.nodes
    && r0 in s.readers && r0 in t.readers && t.readers[r0] == s.readers[r0]
    && s.updaters[u].FirstScan? && t.updaters[u].FirstScan?
    && t.updaters[u].todo == s.updaters[u].todo
    && (r0 in s.updaters[u].pre ==> r0 in t.updaters[u].pre)
  }

  lemma UnlockOne(s: State, u: Uid, r0: Rid, r: Rid)
    requires Basic(s) && u in s.updaters && s.updaters[u].FirstScan? && r0 in s.readers && r != r0
    ensures var t := Apply(s, Unlock(r));
      && Basic(t) && SameWait(s, t, u, r0) && t.readers.Keys == s.readers.Keys
      && (r in t.readers ==> !InSection(t, r))
      && (forall x :: x in s.readers && !InSection(s, x) ==> !InSection(t, x))
  {
    ApplyKeepsBasic(s, Unlock(r));
  }

  lemma {:induction false} UnlockRest(s: State, u: Uid, r0: Rid, nodes: seq<Rid>)
    requires Basic(s) && u in s.updaters && s.updaters[u].FirstScan? && r0 in s.readers
    ensures var t := Run(s, UnlockOthers(nodes, r0));
      && Basic(t) && SameWait(s, t, u, r0) && t.readers.Keys == s.readers.Keys
      && (forall x :: x in s.readers && !InSection(s, x) ==> !InSection(t, x))
      && (forall x :: x in nodes && x != r0 ==> !InSection(t, x))
      && (forall w :: Free(w) !in UnlockOthers(nodes, r0))
    decreases |nodes|
  {
    if nodes != [] {
      var r, es := nodes[0], UnlockOthers(nodes[1..], r0);
      if r == r0 {
        UnlockRest(s, u, r0, nodes[1..]);
        assert UnlockOthers(nodes, r0) == es;
      } else {
        UnlockOne(s, u, r0, r);
        var s1 := Apply(s, Unlock(r));
        UnlockRest(s1, u, r0, nodes[1..]);
        assert UnlockOthers(nodes, r0) == [Unlock(r)] + es;
        assert ([Unlock(r)] + es)[1..] == es;
      }
    }
  }

  /** No node of todo shows the bit that the scan of ph looks for. */
  ghost predicate ScanPasses(s: State, ph: Phase) {
    match ph
    case FirstScan(_, todo, _) => forall r :: r in todo ==> r in s.readers && !Nesting(s.readers[r], s.index)
    case SecondScan(_, i, todo, _) => forall r :: r in todo ==> r in s.readers && !Nesting(s.readers[r], i)
    case _ => true
  }

  /** A scan that nothing blocks reaches the end of the list and changes nothing else. */
  lemma {:induction false} ScanToEnd(s: State, u: Uid) returns (es: seq<Event>, t: State)
    requires u in s.updaters && Locking(s.updaters[u]) && ScanPasses(s, s.updaters[u])
    ensures Run(s, es) == t && Free(u) !in es
    ensures var ph := s.updaters[u];
      && t.readers == s.readers && t.index == s.index && t.nodes == s.nodes && u in t.updaters
      && t.updaters[u] ==
         if ph.FirstScan? then FirstScan(ph.prior, [], ph.pre) else SecondScan(ph.prior, ph.index, [], ph.pre)
    decreases |s.updaters[u].todo|
  {
    var ph := s.updaters[u];
    es, t := [], s;
    if ph.todo != [] {
      assert ph.todo[0] in ph.todo;
      assert forall r :: r in ph.todo[1..] ==> r in ph.todo;
      es, t := ScanToEnd(Apply(s, Scan(u)), u);
      RunCons(s, Scan(u), Apply(s, Scan(u)), es);
      es := [Scan(u)] + es;
    }
  }

  lemma StaleNeverBlocks(s: State, r0: Rid, i: nat)
    requires Basic(s) && Stale(s, r0, i)
    requires forall x :: x in s.nodes && x != r0 ==> !InSection(s, x)
    ensures forall r :: r in s.nodes ==> r in s.readers && !Nesting(s.readers[r], i)
  {
  }

  lemma FlipOnce(s: State, u: Uid)
    requires u in s.updaters && s.updaters[u].FirstScan? && s.updaters[u].todo == []
    ensures var t := Apply(s, Flip(u));
      && t.readers == s.readers && t.nodes == s.nodes && u in t.updaters
      && t.updaters[u] == SecondScan(s.updaters[u].prior, s.index, s.nodes, s.updaters[u].pre)
      && Run(s, [Flip(u)]) == t
  {
    RunOne(s, Flip(u));
  }

  lemma DropOnce(s: State, u: Uid)
    requires u in s.updaters && s.updaters[u].SecondScan? && s.updaters[u].todo == []
    ensures var t := Run(s, [DropLock(u)]);
      t.readers == s.readers && u in t.updaters && t.updaters[u] == Returned(s.updaters[u].prior, s.updaters[u].pre)
  {
    assert Run(s, [DropLock(u)]) == Run(Apply(s, DropLock(u)), []);
  }

  /** synchronize_rcu by u from its first scan on, when every section but that of r0 has ended. */
  lemma FullScanPasses(s: State, u: Uid, r0: Rid) returns (es: seq<Event>, t: State)
    requires Basic(s) && u in s.updaters && s.updaters[u].FirstScan? && s.updaters[u].todo == s.nodes
    requires Stale(s, r0, s.index) && forall x :: x in s.nodes && x != r0 ==> !InSection(s, x)
    ensures Run(s, es) == t && Free(u) !in es
    ensures u in t.updaters && t.updaters[u].Returned? && t.updaters[u].pre == s.updaters[u].pre && InSection(t, r0)
  {
    StaleNeverBlocks(s, r0, s.index);
    var a, s1 := ScanToEnd(s, u);
    var s2 := Apply(s1, Flip(u));
    FlipOnce(s1, u);
    var c, s3 := ScanToEnd(s2, u);
    DropOnce(s3, u);
    t := Run(s3, [DropLock(u)]);
    RunJoin(s2, c, s3, [DropLock(u)], t);
    RunJoin(s1, [Flip(u)], s2, c + [DropLock(u)], t);
    es := a + ([Flip(u)] + (c + [DropLock(u)]));
    RunJoin(s, a, s1, [Flip(u)] + (c + [DropLock(u)]), t);
  }

  /** A continuation of synchronize_rcu by u that returns while the section of r0 is still open. */
  lemma StaleSurvives(s: State, u: Uid, r0: Rid) returns (es: seq<Event>)
    requires Basic(s) && TakesLock(s, TakeLock(u)) && Stale(s, r0, s.index)
    ensures Free(u) !in es && Missed(Run(Apply(s, TakeLock(u)), es), u, r0)
  {
    var s1 := Apply(s, TakeLock(u));
    ApplyKeepsBasic(s, TakeLock(u));
    var a := UnlockOthers(s1.nodes, r0);
    UnlockRest(s1, u, r0, s1.nodes);
    var s2 := Run(s1, a);
    var b, t := FullScanPasses(s2, u, r0);
    RunJoin(s1, a, s2, b, t);
    es := a + b;
  }

  /** synchronize_rcu by u returned in state t while the section of r, open at its start, is still open. */
  ghost predicate Missed(t: State, u: Uid, r: Rid) {
    u in t.updaters && t.updaters[u].Returned? && r in t.updaters[u].pre
  }

  /** The two scans test the parity of before the flip.  So, whatever the other threads do, the call
      waits for an open section exactly when that section holds this parity at the start. */
  lemma WaitsExactlyForCurrentParity(s: State, u: Uid, r: Rid)
    requires Basic(s) && TakesLock(s, TakeLock(u)) && InSection(s, r)
    ensures Nesting(s.readers[r], s.index) <==>
      forall events :: Free(u) !in events ==> !Missed(Run(Apply(s, TakeLock(u)), events), u, r)
  {
    var s1 := Apply(s, TakeLock(u));
    if Nesting(s.readers[r], s.index) {
      ApplyKeepsBasic(s, TakeLock(u));
      ApplyKeepsAwaited(s, TakeLock(u), u, r);
      forall events | Free(u) !in events
        ensures !Missed(Run(s1, events), u, r)
      {
        WaitsFor(s1, u, r, events);
      }
    } else {
      var es := StaleSurvives(s, u, r);
    }
  }

  // ----- and such a start is reachable

  /** A whole write by updater 0: publish v, wait, free the version before. */
  function Write(v: Version): seq<Event> {
    [Assign(0, v), TakeLock(0), Scan(0)] + [Flip(0), Scan(0), DropLock(0), Free(0)]
  }

  /** ... from s to t, with one updater, and with one node in the list. */
  lemma WriteCompletes(s: State, v: Version, t: State)
    requires s.nodes == [0] && 0 in s.readers && s.updaters == map[0 := Resting] && s.lock.None?
    requires v !in s.used && !Nesting(s.readers[0], s.index)
    requires t == State((s.index + 1) % WORD, None, [0], s.readers, map[0 := Resting], v, s.used + {v},
                        s.freed + {s.current})
    ensures Run(s, Write(v)) == t
  {
    var pre := OpenSections(s);
    var m := State(s.index, Some(0), [0], s.readers, map[0 := FirstScan(s.current, [], pre)], v, s.used + {v}, s.freed);
    WriteOpens(s, v, pre, m);
    WriteCloses(m, s.current, pre, t);
    RunJoin(s, [Assign(0, v), TakeLock(0), Scan(0)], m, [Flip(0), Scan(0), DropLock(0), Free(0)], t);
  }

  lemma WriteOpens(s: State, v: Version, pre: set<Rid>, t: State)
    requires s.nodes == [0] && 0 in s.readers && s.updaters == map[0 := Resting] && s.lock.None?
    requires v !in s.used && !Nesting(s.readers[0], s.index) && pre == OpenSections(s)
    requires t == State(s.index, Some(0), [0], s.readers, map[0 := FirstScan(s.current, [], pre)], v,
                        s.used + {v}, s.freed)
    ensures Run(s, [Assign(0, v), TakeLock(0), Scan(0)]) == t
  {
    var s1 := s.(updaters := map[0 := Swapped(s.current)], current := v, used := s.used + {v});
    Sole(s.updaters, Swapped(s.current));
    assert OpenSections(s1) == pre;
    var s2 := s1.(updaters := map[0 := FirstScan(s.current, [0], pre)], lock := Some(0));
    Sole(s1.updaters, FirstScan(s.current, [0], pre));
    Sole(s2.updaters, FirstScan(s.current, [], pre));
    assert [0][1..] == [];
    RunThree(s, Assign(0, v), TakeLock(0), Scan(0));
  }

  lemma Sole(updaters: map<Uid, Phase>, ph: Phase)
    requires updaters.Keys == {0}
    ensures updaters[0 := ph] == map[0 := ph]
  {
  }

  lemma WriteCloses(t: State, prior: Version, pre: set<Rid>, t': State)
    requires t.nodes == [0] && 0 in t.readers && t.updaters == map[0 := FirstScan(prior, [], pre)] && t.lock == Some(0)
    requires !Nesting(t.readers[0], t.index)
    requires t' == State((t.index + 1) % WORD, None, [0], t.readers, map[0 := Resting], t.current, t.used,
                         t.freed + {prior})
    ensures Run(t, [Flip(0), Scan(0), DropLock(0), Free(0)]) == t'
  {
    var t1 := t.(updaters := map[0 := SecondScan(prior, t.index, [0], pre)], index := (t.index + 1) % WORD);
    FlipIs(t, prior, pre, t1);
    SecondHalf(t1, prior, t.index, pre);
    RunCons(t, Flip(0), t1, [Scan(0), DropLock(0), Free(0)]);
    assert [Flip(0)] + [Scan(0), DropLock(0), Free(0)] == [Flip(0), Scan(0), DropLock(0), Free(0)];
  }

  lemma FlipIs(t: State, prior: Version, pre: set<Rid>, t1: State)
    requires t.nodes == [0] && t.updaters == map[0 := FirstScan(prior, [], pre)]
    requires t1 == t.(updaters := map[0 := SecondScan(prior, t.index, [0], pre)], index := (t.index + 1) % WORD)
    ensures Apply(t, Flip(0)) == t1
  {
    Sole(t.updaters, SecondScan(prior, t.index, [0], pre));
  }

  lemma RunCons(s: State, e: Event, t: State, es: seq<Event>)
    requires Apply(s, e) == t
    ensures Run(s, [e] + es) == Run(t, es)
  {
    assert ([e] + es)[1..] == es;
  }

  lemma SecondHalf(t: State, prior: Version, i: nat, pre: set<Rid>)
    requires 0 in t.readers && t.updaters == map[0 := SecondScan(prior, i, [0], pre)] && !Nesting(t.readers[0], i)
    ensures Run(t, [Scan(0), DropLock(0), Free(0)]) ==
        t.(updaters := map[0 := Resting], lock := None, freed := t.freed + {prior})
  {
    assert [0][1..] == [];
    var t1 := t.(updaters := map[0 := SecondScan(prior, i, [], pre)]);
    Sole(t.updaters, SecondScan(prior, i, [], pre));
    var t2 := t1.(updaters := map[0 := Returned(prior, pre)], lock := None);
    Sole(t1.updaters, Returned(prior, pre));
    Sole(t2.updaters, Resting);
    RunThree(t, Scan(0), DropLock(0), Free(0));
  }

  lemma RunThree(s: State, e: Event, f: Event, g: Event)
    ensures Run(s, [e, f, g]) == Apply(Apply(Apply(s, e), f), g)
  {
    assert [e, f, g][1..] == [f, g];
    RunTwo(Apply(s, e), f, g);
  }

  const ONE_READER := State(0, None, [0], map[0 := Reader(Outside, false, false, {})], map[0 := Resting], 0, {0}, {})

  /** The reader loads the index, a whole write follows, then the reader stores its bit and
      dereferences; then a second write. */
  const STALL := [Load(0)] + (Write(1) + ([SetBit(0), Dereference(0)] + Write(2)))

  /** A reader that stalls between its load and its store holds memory that has been freed. */
  lemma StalledReaderHoldsFreed()
    ensures Init(ONE_READER)
    ensures var t := Run(ONE_READER, STALL);
      0 in t.readers && 1 in t.readers[0].held && 1 in t.freed && t.readers[0].place.Inside?
  {
    var s0 := ONE_READER;
    var s1 := s0.(readers := map[0 := Reader(Loaded(0), false, false, {})]);
    assert Apply(s0, Load(0)) == s1;
    RunOne(s0, Load(0));
    RunAppend(s0, [Load(0)], Write(1) + ([SetBit(0), Dereference(0)] + Write(2)));
    StallEnds(s1);
  }

  lemma StallEnds(s1: State)
    requires s1 == ONE_READER.(readers := map[0 := Reader(Loaded(0), false, false, {})])
    ensures var t := Run(s1, Write(1) + ([SetBit(0), Dereference(0)] + Write(2)));
      0 in t.readers && 1 in t.readers[0].held && 1 in t.freed && t.readers[0].place.Inside?
  {
    var s2 := State(1, None, [0], s1.readers, map[0 := Resting], 1, {0, 1}, {0});
    var s3 := s2.(readers := map[0 := Reader(Inside, true, false, {1})]);
    var s4 := State(2, None, [0], s3.readers, map[0 := Resting], 2, {0, 1, 2}, {0, 1});
    WriteCompletes(s1, 1, s2);
    StallReads(s2, s3);
    WriteCompletes(s3, 2, s4);
    RunJoin(s2, [SetBit(0), Dereference(0)], s3, Write(2), s4);
    RunJoin(s1, Write(1), s2, [SetBit(0), Dereference(0)] + Write(2), s4);
  }

  lemma StallReads(s: State, t: State)
    requires s.readers == map[0 := Reader(Loaded(0), false, false, {})] && s.current == 1
    requires t == s.(readers := map[0 := Reader(Inside, true, false, {1})])
    ensures Run(s, [SetBit(0), Dereference(0)]) == t
  {
    RunTwo(s, SetBit(0), Dereference(0));
    assert {} + {1} == {1};
    assert Apply(Apply(s, SetBit(0)), Dereference(0)).readers == t.readers;
  }
}
