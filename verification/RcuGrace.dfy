/** The grace period: when it is one, and when it is not. */
module RcuGrace {
  import opened Wrappers
  import opened Bytes
  import opened Rcu

  /** Every open section holds the bit of the current parity. */
  ghost predicate ParityOk(s: State) {
    forall r :: r in s.readers && s.readers[r].place.Inside? ==> Nesting(s.readers[r], s.index)
  }

  /** e lets an updater enter synchronize_rcu. */
  predicate TakesLock(s: State, e: Event) {
    e.TakeLock? && e.u in s.updaters && s.updaters[e.u].Swapped? && s.lock.None?
  }

  // ----- one grace period

  /** If an updater still waits for the section of r, this is open and its bit is where the updater will
      look. */
  ghost predicate Awaited(s: State, ph: Phase, r: Rid) {
    match ph
    case FirstScan(_, _, pre) => r in pre ==> InSection(s, r) && Nesting(s.readers[r], s.index)
    case SecondScan(_, i, todo, pre) => r in pre ==> InSection(s, r) && Nesting(s.readers[r], i) && r in todo
    case Returned(_, pre) => r !in pre
    case _ => true
  }

  ghost predicate WaitOk(s: State, ph: Phase) {
    forall r: Rid :: Awaited(s, ph, r)
  }

  lemma NoneAwaited(s: State, ph: Phase)
    requires WaitOk(s, ph) && ph.Returned?
    ensures ph.pre == {}
  {
    forall r: Rid ensures r !in ph.pre { assert Awaited(s, ph, r); }
  }

  lemma ReaderKeepsAwaited(s: State, x: Rid, e: Event, u: Uid, r: Rid)
    requires Basic(s) && x in s.readers && u in s.updaters && Awaited(s, s.updaters[u], r)
    ensures Awaited(ReaderStep(s, x, e), ReaderStep(s, x, e).updaters[u], r)
  {
  }

  lemma UpdaterKeepsAwaited(s: State, w: Uid, e: Event, u: Uid, r: Rid)
    requires Basic(s) && w in s.updaters && u in s.updaters && Awaited(s, s.updaters[u], r)
    requires TakesLock(s, e) && e.u == u && w == u && InSection(s, r) ==> Nesting(s.readers[r], s.index)
    requires !OfReader(e) && e.u == w
    ensures Awaited(UpdaterStep(s, w, e), UpdaterStep(s, w, e).updaters[u], r)
  {
    var ph := s.updaters[u];
    if w == u && e.Scan? && ph.SecondScan? && ph.todo != [] {
      assert ph.todo == [ph.todo[0]] + ph.todo[1..];
    }
  }

  lemma ApplyKeepsAwaited(s: State, e: Event, u: Uid, r: Rid)
    requires Basic(s) && u in s.updaters && Awaited(s, s.updaters[u], r)
    requires TakesLock(s, e) && e.u == u && InSection(s, r) ==> Nesting(s.readers[r], s.index)
    ensures u in Apply(s, e).updaters && Awaited(Apply(s, e), Apply(s, e).updaters[u], r)
  {
    if OfReader(e) {
      if e.r in s.readers { ReaderKeepsAwaited(s, e.r, e, u, r); }
    } else if e.u in s.updaters {
      UpdaterKeepsAwaited(s, e.u, e, u, r);
    }
  }

  lemma ApplyKeepsWait(s: State, e: Event, u: Uid)
    requires Basic(s) && u in s.updaters && WaitOk(s, s.updaters[u])
    requires TakesLock(s, e) && e.u == u ==> ParityOk(s)
    ensures u in Apply(s, e).updaters && WaitOk(Apply(s, e), Apply(s, e).updaters[u])
  {
    ApplyKeepsUpdaters(s, e);
    forall r: Rid
      ensures Awaited(Apply(s, e), Apply(s, e).updaters[u], r)
    {
      ApplyKeepsAwaited(s, e, u, r);
    }
  }

  lemma ApplyKeepsUpdaters(s: State, e: Event)
    ensures Apply(s, e).updaters.Keys == s.updaters.Keys
  {
  }

  // ----- safe reclamation over whole runs

  /** A version that was replaced is held only in the sections its updater still waits for. */
  ghost predicate HoldersOk(s: State, ph: Phase) {
    match ph
    case FirstScan(o, _, pre) => forall r :: r in s.readers && o in s.readers[r].held ==> r in pre
    case SecondScan(o, _, _, pre) => forall r :: r in s.readers && o in s.readers[r].held ==> r in pre
    case Returned(o, pre) => forall r :: r in s.readers && o in s.readers[r].held ==> r in pre
    case _ => true
  }

  ghost predicate NothingFreedIsHeld(s: State) {
    forall r :: r in s.readers ==> s.readers[r].held !! s.freed
  }

  ghost predicate Grace(s: State) {
    && Basic(s)
    && NothingFreedIsHeld(s)
    && forall u :: u in s.updaters ==> WaitOk(s, s.updaters[u]) && HoldersOk(s, s.updaters[u])
  }

  lemma ReaderKeepsHolders(s: State, r: Rid, e: Event, u: Uid)
    requires Basic(s) && r in s.readers && u in s.updaters && HoldersOk(s, s.updaters[u])
    ensures HoldersOk(ReaderStep(s, r, e), ReaderStep(s, r, e).updaters[u])
  {
  }

  lemma UpdaterKeepsHolders(s: State, w: Uid, e: Event, u: Uid)
    requires Basic(s) && w in s.updaters && u in s.updaters && HoldersOk(s, s.updaters[u])
    ensures HoldersOk(UpdaterStep(s, w, e), UpdaterStep(s, w, e).updaters[u])
  {
  }

  lemma ApplyKeepsGrace(s: State, e: Event)
    requires Grace(s) && (TakesLock(s, e) ==> ParityOk(s))
    ensures Grace(Apply(s, e))
  {
    ApplyKeepsBasic(s, e);
    forall u | u in Apply(s, e).updaters
      ensures WaitOk(Apply(s, e), Apply(s, e).updaters[u]) && HoldersOk(Apply(s, e), Apply(s, e).updaters[u])
    {
      ApplyKeepsUpdaters(s, e);
      ApplyKeepsWait(s, e, u);
      if OfReader(e) {
        if e.r in s.readers { ReaderKeepsHolders(s, e.r, e, u); }
      } else if e.u in s.updaters { UpdaterKeepsHolders(s, e.u, e, u); }
    }
    ApplyKeepsReclaim(s, e);
  }

  lemma ApplyKeepsReclaim(s: State, e: Event)
    requires Grace(s)
    ensures NothingFreedIsHeld(Apply(s, e))
  {
    if e.Free? && e.u in s.updaters && s.updaters[e.u].Returned? {
      assert HoldersOk(s, s.updaters[e.u]);
      NoneAwaited(s, s.updaters[e.u]);
    }
  }

  /** Whenever an updater enters synchronize_rcu, the open sections hold the current parity. */
  ghost predicate LocksAtParity(s: State, events: seq<Event>)
    decreases |events|
  {
    events == [] || ((TakesLock(s, events[0]) ==> ParityOk(s)) && LocksAtParity(Apply(s, events[0]), events[1..]))
  }

  lemma InitGrace(s: State)
    requires Init(s)
    ensures Grace(s)
  {
  }

  /** Safe reclamation: in every such run, no reader holds a version that has been freed, and when
      synchronize_rcu returns, every section that was open when it took the lock has ended. */
  lemma {:induction false} GracePeriod(s: State, events: seq<Event>)
    requires Grace(s) && LocksAtParity(s, events)
    ensures var t := Run(s, events);
      && Grace(t) && NothingFreedIsHeld(t)
      && forall u :: u in t.updaters && t.updaters[u].Returned? ==> t.updaters[u].pre == {}
    decreases |events|
  {
    if events == [] {
      forall u | u in s.updaters && s.updaters[u].Returned?
        ensures s.updaters[u].pre == {}
      {
        NoneAwaited(s, s.updaters[u]);
      }
    } else {
      ApplyKeepsGrace(s, events[0]);
      GracePeriod(Apply(s, events[0]), events[1..]);
    }
  }

  // ----- runs in which the hypothesis holds by itself

  /** No flip happens between a reader's load of the index and its store of the bit. */
  ghost predicate FlipsQuietly(s: State, events: seq<Event>)
    decreases |events|
  {
    || events == []
    || (&& (events[0].Flip? ==> forall r :: r in s.readers ==> !s.readers[r].place.Loaded?)
        && FlipsQuietly(Apply(s, events[0]), events[1..]))
  }

  /** u is in its second scan and has r still ahead of it. */
  predicate WillScan(ph: Phase, r: Rid) {
    ph.SecondScan? && r in ph.todo
  }

  /** A reader that has loaded the index has loaded the current one, and an open section holds the
      current parity unless the updater in charge has its node still ahead of it. */
  ghost predicate QuietReader(s: State, r: Rid)
    requires r in s.readers
  {
    var rd := s.readers[r];
    && (rd.place.Loaded? ==> rd.place.index == s.index)
    && (rd.place.Inside? && !Nesting(rd, s.index) ==>
          s.lock.Some? && s.lock.value in s.updaters && WillScan(s.updaters[s.lock.value], r))
  }

  /** The index has not moved since u flipped it. */
  ghost predicate QuietScan(s: State, ph: Phase) {
    ph.SecondScan? ==> s.index == (ph.index + 1) % WORD
  }

  ghost predicate Quiet(s: State) {
    && Basic(s)
    && (forall r :: r in s.readers ==> QuietReader(s, r))
    && (forall u :: u in s.updaters ==> QuietScan(s, s.updaters[u]))
  }

  lemma ReaderKeepsQuiet(s: State, r: Rid, e: Event)
    requires Quiet(s) && r in s.readers
    ensures Quiet(ReaderStep(s, r, e))
  {
    var s' := ReaderStep(s, r, e);
    ReaderKeepsBasic(s, r, e);
    forall x | x in s'.readers ensures QuietReader(s', x) { ReaderKeepsReader(s, r, e, x); }
    forall u | u in s'.updaters ensures QuietScan(s', s'.updaters[u]) { assert QuietScan(s, s.updaters[u]); }
  }

  lemma ReaderKeepsReader(s: State, r: Rid, e: Event, x: Rid)
    requires r in s.readers && x in s.readers && QuietReader(s, r) && QuietReader(s, x)
    ensures x in ReaderStep(s, r, e).readers && QuietReader(ReaderStep(s, r, e), x)
  {
  }

  lemma UpdaterKeepsQuiet(s: State, u: Uid, e: Event)
    requires Quiet(s) && u in s.updaters
    requires e.Flip? ==> forall r :: r in s.readers ==> !s.readers[r].place.Loaded?
    ensures Quiet(UpdaterStep(s, u, e))
  {
    var s' := UpdaterStep(s, u, e);
    UpdaterKeepsBasic(s, u, e);
    forall x | x in s'.readers ensures QuietReader(s', x) {
      assert QuietScan(s, s.updaters[u]) && BitsOk(s.readers[x]) && x in s.nodes;
      UpdaterKeepsReader(s, u, e, x);
    }
    forall w | w in s'.updaters ensures QuietScan(s', s'.updaters[w]) {
      assert QuietScan(s, s.updaters[w]) && (s.lock == Some(w) <==> Locking(s.updaters[w]));
      UpdaterKeepsScan(s, u, e, w);
    }
  }

  lemma UpdaterKeepsReader(s: State, u: Uid, e: Event, x: Rid)
    requires u in s.updaters && x in s.readers && QuietReader(s, x) && QuietScan(s, s.updaters[u])
    requires s.lock == Some(u) <==> Locking(s.updaters[u])
    requires BitsOk(s.readers[x]) && x in s.nodes && (e.Flip? ==> !s.readers[x].place.Loaded?)
    ensures QuietReader(UpdaterStep(s, u, e), x)
  {
    var ph := s.updaters[u];
    if e.Scan? && ph.SecondScan? && ph.todo != [] {
      assert ph.todo == [ph.todo[0]] + ph.todo[1..];
      ParityFlips(ph.index);
    }
  }

  lemma ParityFlips(index: nat)
    ensures ((index + 1) % WORD) % 2 != index % 2
  {
  }

  lemma UpdaterKeepsScan(s: State, u: Uid, e: Event, w: Uid)
    requires u in s.updaters && w in s.updaters && QuietScan(s, s.updaters[w])
    requires (s.lock == Some(u) <==> Locking(s.updaters[u])) && (s.lock == Some(w) <==> Locking(s.updaters[w]))
    ensures w in UpdaterStep(s, u, e).updaters && QuietScan(UpdaterStep(s, u, e), UpdaterStep(s, u, e).updaters[w])
  {
  }

  /** If no flip separates the two operations of a rcu_read_lock, the hypothesis of GracePeriod is
      an invariant: it need not be assumed. */
  lemma {:induction false} QuietFlipsSuffice(s: State, events: seq<Event>)
    requires Quiet(s) && FlipsQuietly(s, events)
    ensures LocksAtParity(s, events) && Quiet(Run(s, events))
    decreases |events|
  {
    if events != [] {
      var e := events[0];
      if OfReader(e) {
        if e.r in s.readers { ReaderKeepsQuiet(s, e.r, e); }
      } else if e.u in s.updaters { UpdaterKeepsQuiet(s, e.u, e); }
      QuietFlipsSuffice(Apply(s, e), events[1..]);
    }
  }

  /** What threads do when rcu_read_lock is one atomic action. */
  datatype Action = ReadLock(r: Rid) | Do(e: Event)

  function Events(a: Action): seq<Event> {
    match a
    case ReadLock(r) => [Load(r), SetBit(r)]
    case Do(e) => if e.Load? || e.SetBit? then [] else [e]
  }

  function Expand(actions: seq<Action>): seq<Event> {
    if actions == [] then [] else Events(actions[0]) + Expand(actions[1..])
  }

  ghost predicate NoneLoaded(s: State) {
    forall r :: r in s.readers ==> !s.readers[r].place.Loaded?
  }

  lemma QuietCons(s: State, e: Event, rest: seq<Event>)
    requires NoneLoaded(s) || !e.Flip?
    requires FlipsQuietly(Apply(s, e), rest)
    ensures FlipsQuietly(s, [e] + rest)
  {
    assert ([e] + rest)[1..] == rest;
  }

  lemma StaysUnloaded(s: State, e: Event)
    requires NoneLoaded(s) && !e.Load? && !e.SetBit?
    ensures NoneLoaded(Apply(s, e))
  {
  }

  lemma LockUnlocksLoaded(s: State, r: Rid)
    requires NoneLoaded(s)
    ensures NoneLoaded(Apply(Apply(s, Load(r)), SetBit(r)))
  {
  }

  lemma {:induction false} AtomicLocksFlipQuietly(s: State, actions: seq<Action>)
    requires NoneLoaded(s)
    ensures FlipsQuietly(s, Expand(actions))
    decreases |actions|
  {
    if actions != [] {
      var rest := Expand(actions[1..]);
      match actions[0] {
        case ReadLock(r) =>
          var s1 := Apply(s, Load(r));
          var s2 := Apply(s1, SetBit(r));
          LockUnlocksLoaded(s, r);
          AtomicLocksFlipQuietly(s2, actions[1..]);
          QuietCons(s1, SetBit(r), rest);
          QuietCons(s, Load(r), [SetBit(r)] + rest);
          assert [Load(r)] + ([SetBit(r)] + rest) == [Load(r), SetBit(r)] + rest;
        case Do(e) =>
          if e.Load? || e.SetBit? {
            AtomicLocksFlipQuietly(s, actions[1..]);
            assert [] + rest == rest;
          } else {
            StaysUnloaded(s, e);
            AtomicLocksFlipQuietly(Apply(s, e), actions[1..]);
            QuietCons(s, e, rest);
          }
      }
    }
  }

  lemma {:induction false} AtomicLocksEndUnloaded(s: State, actions: seq<Action>)
    requires NoneLoaded(s)
    ensures NoneLoaded(Run(s, Expand(actions)))
    decreases |actions|
  {
    if actions != [] {
      var one := Events(actions[0]);
      match actions[0] {
        case ReadLock(r) =>
          LockUnlocksLoaded(s, r);
          RunTwo(s, Load(r), SetBit(r));
        case Do(e) =>
          if !e.Load? && !e.SetBit? {
            StaysUnloaded(s, e);
            RunOne(s, e);
          }
      }
      AtomicLocksEndUnloaded(Run(s, one), actions[1..]);
      RunAppend(s, one, Expand(actions[1..]));
    }
  }

  /** What holds between the actions of a run with atomic read locks. */
  ghost predicate Safe(s: State) {
    Grace(s) && Quiet(s) && NoneLoaded(s)
  }

  lemma InitSafe(s: State)
    requires Init(s)
    ensures Safe(s)
  {
    InitGrace(s);
  }

  lemma QuietParity(s: State)
    requires Quiet(s) && s.lock.None?
    ensures ParityOk(s)
  {
    forall r | r in s.readers && s.readers[r].place.Inside?
      ensures Nesting(s.readers[r], s.index)
    {
      assert QuietReader(s, r);
    }
  }

  lemma ActionsKeepSafe(s: State, actions: seq<Action>)
    requires Safe(s)
    ensures LocksAtParity(s, Expand(actions)) && Safe(Run(s, Expand(actions)))
  {
    AtomicLocksFlipQuietly(s, actions);
    QuietFlipsSuffice(s, Expand(actions));
    GracePeriod(s, Expand(actions));
    AtomicLocksEndUnloaded(s, actions);
  }

  /** With an atomic rcu_read_lock, freed memory is never held: no hypothesis on the run is left. */
  lemma AtomicReadLockIsSafe(s: State, actions: seq<Action>)
    requires Init(s)
    ensures var t := Run(s, Expand(actions));
      && NothingFreedIsHeld(t)
      && forall u :: u in t.updaters && t.updaters[u].Returned? ==> t.updaters[u].pre == {}
  {
    InitGrace(s);
    AtomicLocksFlipQuietly(s, actions);
    QuietFlipsSuffice(s, Expand(actions));
    GracePeriod(s, Expand(actions));
  }
}
