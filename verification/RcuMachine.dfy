/** Readers and updaters in memory: shared-memory operations in place, and synchronize_rcu as it is
    written, with other threads running between any two of its operations. */
module RcuMachine {
  import opened Wrappers
  import opened Bytes
  import opened Rcu
  import opened RcuGrace

  class Machine {
    var index: nat              // rcu_data.rcu_nesting_idx
    var lock: Option<Uid>       // rcu_data.lock
    var nodes: seq<Rid>         // the list from rcu_data.head
    var readers: map<Rid, Reader>
    var updaters: map<Uid, Phase>
    var current: Version        // the pointer that readers dereference
    var used: set<Version>      // versions ever published: what malloc returns is none of them
    var freed: set<Version>

    ghost function View(): State
      reads this
    {
      State(index, lock, nodes, readers, updaters, current, used, freed)
    }

    constructor (nodes: seq<Rid>, updaters: set<Uid>, version: Version)
      ensures Init(View()) && Safe(View())
    {
      this.nodes, index, lock, current, used, freed := nodes, 0, None, version, {version}, {};
      readers := map r | r in nodes :: Reader(Outside, false, false, {});
      this.updaters := map u | u in updaters :: Resting;
      new;
      InitSafe(View());
    }

    // ----- readers

    method LoadIndex(r: Rid)
      requires r in readers && readers[r].place.Outside?
      modifies this
      ensures View() == Apply(old(View()), Load(r))
    {
      readers := readers[r := readers[r].(place := Loaded(index))];
    }

    method StoreBit(r: Rid)
      requires r in readers && readers[r].place.Loaded?
      modifies this
      ensures View() == Apply(old(View()), SetBit(r))
    {
      var rd := readers[r];
      if rd.place.index % 2 == 0 {
        rd := rd.(bit0 := true);
      } else {
        rd := rd.(bit1 := true);
      }
      readers := readers[r := rd.(place := Inside)];
    }

    method ReadPointer(r: Rid) returns (v: Version)
      requires r in readers && readers[r].place.Inside?
      modifies this
      ensures View() == Apply(old(View()), Dereference(r)) && v == current
    {
      v := current;
      readers := readers[r := readers[r].(held := readers[r].held + {v})];
    }

    method ReadUnlock(r: Rid)
      requires r in readers && readers[r].place.Inside?
      modifies this
      ensures View() == Apply(old(View()), Unlock(r))
    {
      readers := readers[r := Reader(Outside, false, false, {})];
      updaters := LeaveAll(updaters, r);
    }

    // ----- updaters

    method AssignPointer(u: Uid, v: Version)
      requires u in updaters && updaters[u].Resting? && v !in used
      modifies this
      ensures View() == Apply(old(View()), Assign(u, v))
    {
      updaters := updaters[u := Swapped(current)];
      current, used := v, used + {v};
    }

    method LockData(u: Uid)
      requires u in updaters && updaters[u].Swapped? && lock.None?
      modifies this
      ensures View() == Apply(old(View()), TakeLock(u))
    {
      var open := set r | r in readers && readers[r].place.Inside?;
      assert open == OpenSections(View());
      updaters := updaters[u := FirstScan(updaters[u].prior, nodes, open)];
      lock := Some(u);
    }

    /** Tests the bit of the next node; the scan moves on when it is clear. */
    method TestNode(u: Uid) returns (passed: bool)
      requires u in updaters && Locking(updaters[u]) && updaters[u].todo != []
      requires updaters[u].todo[0] in readers
      modifies this
      ensures View() == Apply(old(View()), Event.Scan(u))
      ensures passed <==> !Nesting(readers[old(updaters[u].todo[0])],
                                   if old(updaters[u]).FirstScan? then index else old(updaters[u]).index)
    {
      var ph := updaters[u];
      var rd, i := readers[ph.todo[0]], if ph.FirstScan? then index else ph.index;
      passed := if i % 2 == 0 then !rd.bit0 else !rd.bit1;
      if passed {
        updaters := updaters[u := match ph
          case FirstScan(o, todo, pre) => FirstScan(o, todo[1..], pre)
          case SecondScan(o, k, todo, pre) => SecondScan(o, k, todo[1..], pre)
          case _ => ph];
      }
    }

    method FlipIndex(u: Uid)
      requires u in updaters && updaters[u].FirstScan? && updaters[u].todo == []
      modifies this
      ensures View() == Apply(old(View()), Flip(u))
    {
      updaters := updaters[u := SecondScan(updaters[u].prior, index, nodes, updaters[u].pre)];
      index := (index + 1) % WORD;
    }

    method UnlockData(u: Uid)
      requires u in updaters && updaters[u].SecondScan? && updaters[u].todo == []
      modifies this
      ensures View() == Apply(old(View()), DropLock(u))
    {
      updaters := updaters[u := Returned(updaters[u].prior, updaters[u].pre)];
      lock := None;
    }

    method FreePrior(u: Uid)
      requires u in updaters && updaters[u].Returned?
      modifies this
      ensures View() == Apply(old(View()), Free(u))
    {
      freed := freed + {updaters[u].prior};
      updaters := updaters[u := Resting];
    }

    // ----- any threads

    /** One event.  Under the grace invariant, memory that is freed is held by no reader. */
    method Perform(e: Event)
      requires Grace(View()) && (TakesLock(View(), e) ==> ParityOk(View()))
      modifies this
      ensures Grace(View()) && View() == Apply(old(View()), e)
      ensures forall r, v :: r in readers && v in freed ==> v !in readers[r].held
    {
      ApplyKeepsGrace(View(), e);
      if OfReader(e) {
        PerformReader(e);
      } else {
        PerformUpdater(e);
      }
      assert forall r :: r in readers ==> readers[r].held !! freed;
    }

    method PerformReader(e: Event)
      requires OfReader(e)
      modifies this
      ensures View() == Apply(old(View()), e)
    {
      if e.r in readers {
        match e {
          case Load(r) => if readers[r].place.Outside? { LoadIndex(r); }
          case SetBit(r) => if readers[r].place.Loaded? { StoreBit(r); }
          case Dereference(r) => if readers[r].place.Inside? { var _ := ReadPointer(r); }
          case Unlock(r) => if readers[r].place.Inside? { ReadUnlock(r); }
        }
      }
    }

    method PerformUpdater(e: Event)
      requires !OfReader(e) && Basic(View())
      modifies this
      ensures View() == Apply(old(View()), e)
    {
      if e.u in updaters {
        var ph := updaters[e.u];
        match e {
          case Assign(u, v) => if ph.Resting? && v !in used { AssignPointer(u, v); }
          case TakeLock(u) => if ph.Swapped? && lock.None? { LockData(u); }
          case Scan(u) => if Locking(ph) && ph.todo != [] && ph.todo[0] in readers { var _ := TestNode(u); }
          case Flip(u) => if ph.FirstScan? && ph.todo == [] { FlipIndex(u); }
          case DropLock(u) => if ph.SecondScan? && ph.todo == [] { UnlockData(u); }
          case Free(u) => if ph.Returned? { FreePrior(u); }
        }
      }
    }

    /** Any run in which updaters enter synchronize_rcu at the current parity. */
    method Execute(events: seq<Event>)
      requires Grace(View()) && LocksAtParity(View(), events)
      modifies this
      ensures Grace(View()) && View() == Run(old(View()), events)
      ensures forall r, v :: r in readers && v in freed ==> v !in readers[r].held
      ensures forall u :: u in updaters && updaters[u].Returned? ==> updaters[u].pre == {}
    {
      GracePeriod(View(), events);
      var i := 0;
      while i < |events|
        invariant 0 <= i <= |events| && Grace(View()) && LocksAtParity(View(), events[i..])
        invariant Run(View(), events[i..]) == Run(old(View()), events)
      {
        assert events[i..][1..] == events[i + 1..];
        Perform(events[i]);
        i := i + 1;
      }
      assert forall r :: r in readers ==> readers[r].held !! freed;
    }

    /** What others than u do before an operation of u. */
    method Others(u: Uid, actions: seq<Action>)
      requires Safe(View()) && u in updaters && NotBy(u, actions)
      modifies this
      ensures Safe(View()) && nodes == old(nodes) && u in updaters && SamePhase(old(updaters[u]), updaters[u])
      ensures actions == [] ==> readers == old(readers) && lock == old(lock)
    {
      ActionsKeepSafe(View(), actions);
      OthersKeepPhase(View(), Expand(actions), u);
      Execute(Expand(actions));
    }

    /** An operation of an updater. */
    method Own(e: Event)
      requires Safe(View()) && !OfReader(e)
      modifies this
      ensures Safe(View()) && View() == Apply(old(View()), e)
    {
      ghost var s := View();
      if TakesLock(s, e) { QuietParity(s); }
      Perform(e);
      if e.u in s.updaters { UpdaterKeepsQuiet(s, e.u, e); }
      StaysUnloaded(s, e);
    }

    /** Either loop of synchronize_rcu over the nodes, with its busy waits. */
    method ScanNodes(u: Uid, env: seq<seq<Action>>, k0: nat, ghost clear: bool) returns (ended: bool, k: nat)
      requires clear ==> Calm(readers) && Silent(env)
      requires Safe(View()) && u in updaters && Locking(updaters[u]) && updaters[u].todo == nodes
      requires k0 <= |env| && forall i :: 0 <= i < |env| ==> NotBy(u, env[i])
      modifies this
      ensures Safe(View()) && nodes == old(nodes) && k0 <= k <= |env| && u in updaters
      ensures Along(old(updaters[u]), updaters[u])
      ensures if ended then updaters[u].todo == [] else k == |env|
      ensures clear ==> Calm(readers) && (|env| >= k0 + |nodes| ==> ended && k == k0 + |nodes|)
    {
      k := k0;
      var n := 0;
      while n < |nodes|
        invariant 0 <= n <= |nodes| && k0 <= k <= |env| && Safe(View()) && nodes == old(nodes)
        invariant u in updaters && Along(old(updaters[u]), updaters[u]) && Left(updaters[u], nodes, n)
        invariant clear ==> k == k0 + n && Calm(readers)
        decreases |env| - k
      {
        if k == |env| { return false, k; }
        var passed := ScanTurn(u, n, env[k], clear);
        k := k + 1;
        if passed { n := n + 1; }
      }
      ended := true;
    }

    /** One turn of a busy wait: the others run, and then the bit is tested. */
    method ScanTurn(u: Uid, n: nat, actions: seq<Action>, ghost clear: bool) returns (passed: bool)
      requires Safe(View()) && u in updaters && Locking(updaters[u]) && n < |nodes| && Left(updaters[u], nodes, n)
      requires NotBy(u, actions) && (clear ==> Calm(readers) && actions == [])
      modifies this
      ensures Safe(View()) && nodes == old(nodes) && u in updaters && Along(old(updaters[u]), updaters[u])
      ensures Left(updaters[u], nodes, if passed then n + 1 else n)
      ensures clear ==> passed && Calm(readers)
    {
      Others(u, actions);
      passed := TestBit(u, nodes[n]);
      assert nodes[n..][1..] == nodes[n + 1..];
    }

    /** One test of a busy wait. */
    method TestBit(u: Uid, node: Rid) returns (passed: bool)
      requires Safe(View()) && u in updaters && Locking(updaters[u]) && updaters[u].todo != []
      requires updaters[u].todo[0] == node
      requires node in nodes
      modifies this
      ensures Safe(View()) && nodes == old(nodes) && u in updaters && Along(old(updaters[u]), updaters[u])
      ensures updaters[u].todo == if passed then old(updaters[u].todo)[1..] else old(updaters[u].todo)
      ensures old(Calm(readers)) ==> passed && Calm(readers)
    {
      passed := !Nesting(readers[node], if updaters[u].FirstScan? then index else updaters[u].index);
      Own(Event.Scan(u));
    }

    /** The lock is free: u takes it, and has all open sections to wait for. */
    method Enter(u: Uid)
      requires Safe(View()) && u in updaters && updaters[u].Swapped? && lock.None?
      modifies this
      ensures Safe(View()) && nodes == old(nodes) && u in updaters
      ensures updaters[u] == FirstScan(old(updaters[u]).prior, nodes, OpenSections(old(View())))
      ensures old(Calm(readers)) ==> Calm(readers)
    {
      Own(TakeLock(u));
    }

    method NextPeriod(u: Uid)
      requires Safe(View()) && u in updaters && updaters[u].FirstScan? && updaters[u].todo == []
      modifies this
      ensures Safe(View()) && nodes == old(nodes) && u in updaters
      ensures updaters[u].SecondScan? && updaters[u].prior == old(updaters[u]).prior && updaters[u].todo == nodes
      ensures old(Calm(readers)) ==> Calm(readers)
    {
      Own(Flip(u));
    }

    method Leave(u: Uid)
      requires Safe(View()) && u in updaters && updaters[u].SecondScan? && updaters[u].todo == []
      modifies this
      ensures Safe(View()) && nodes == old(nodes) && u in updaters
      ensures updaters[u] == Returned(old(updaters[u]).prior, {})
    {
      Own(DropLock(u));
      NoneAwaited(View(), updaters[u]);
    }

    /** synchronize_rcu by u.  Before each of its operations, and on each turn of a busy wait, other threads
        run: env tells what they do, and when env ends the call is cut off.  If it returns, every section
        that was open when it took the lock has ended; and it does return if nobody is in its way. */
    method Synchronize(u: Uid, env: seq<seq<Action>>) returns (returned: bool, k: nat)
      requires Safe(View()) && u in updaters && updaters[u].Swapped?
      requires forall i :: 0 <= i < |env| ==> NotBy(u, env[i])
      modifies this
      ensures Safe(View()) && nodes == old(nodes) && u in updaters
      ensures if returned then updaters[u] == Returned(old(updaters[u]).prior, {}) else k == |env|
      ensures old(lock).None? && old(Calm(readers)) && Silent(env) && |env| >= 2 * |nodes| + 2 ==> returned
    {
      ghost var clear := lock.None? && Calm(readers) && Silent(env);
      k := 0;
      while lock.Some?
        invariant 0 <= k <= |env| && Safe(View()) && nodes == old(nodes)
        invariant u in updaters && updaters[u] == old(updaters[u])
        invariant clear ==> k == 0 && lock.None? && Calm(readers)
        decreases |env| - k
      {
        if k == |env| { return false, k; }
        Others(u, env[k]);
        k := k + 1;
      }
      Enter(u);
      returned, k := FirstPeriod(u, env, k, clear);
      if returned { returned, k := SecondPeriod(u, env, k, clear); }
    }

    /** The first loop over the nodes, and the flip. */
    method FirstPeriod(u: Uid, env: seq<seq<Action>>, k0: nat, ghost clear: bool) returns (ended: bool, k: nat)
      requires Safe(View()) && u in updaters && updaters[u].FirstScan? && updaters[u].todo == nodes
      requires k0 <= |env| && forall i :: 0 <= i < |env| ==> NotBy(u, env[i])
      requires clear ==> Calm(readers) && Silent(env)
      modifies this
      ensures Safe(View()) && nodes == old(nodes) && k0 <= k <= |env| && u in updaters
      ensures if ended then
                updaters[u].SecondScan? && updaters[u].prior == old(updaters[u]).prior && updaters[u].todo == nodes
              else k == |env|
      ensures clear ==> (ended ==> Calm(readers)) && (|env| > k0 + |nodes| ==> ended && k == k0 + |nodes| + 1)
    {
      ended, k := ScanNodes(u, env, k0, clear);
      if !ended || k == |env| { return false, |env|; }
      Others(u, env[k]);
      NextPeriod(u);
      k := k + 1;
    }

    /** The second loop over the nodes, and the unlock. */
    method SecondPeriod(u: Uid, env: seq<seq<Action>>, k0: nat, ghost clear: bool) returns (ended: bool, k: nat)
      requires Safe(View()) && u in updaters && updaters[u].SecondScan? && updaters[u].todo == nodes
      requires k0 <= |env| && forall i :: 0 <= i < |env| ==> NotBy(u, env[i])
      requires clear ==> Calm(readers) && Silent(env)
      modifies this
      ensures Safe(View()) && nodes == old(nodes) && k0 <= k <= |env| && u in updaters
      ensures if ended then updaters[u] == Returned(old(updaters[u]).prior, {}) else k == |env|
      ensures clear && |env| > k0 + |nodes| ==> ended
    {
      ended, k := ScanNodes(u, env, k0, clear);
      if !ended || k == |env| { return false, |env|; }
      Others(u, env[k]);
      Leave(u);
    }

    method FreeHeldByNone(u: Uid)
      requires Safe(View()) && u in updaters && updaters[u].Returned?
      modifies this
      ensures Safe(View()) && old(updaters[u]).prior in freed
      ensures forall r :: r in readers ==> old(updaters[u]).prior !in readers[r].held
    {
      Own(Free(u));
      assert forall r :: r in readers ==> readers[r].held !! freed;
    }

    /** Publish v, wait for the readers of the version before, and free it. */
    method Replace(u: Uid, v: Version, env: seq<seq<Action>>) returns (done: bool, k: nat)
      requires Safe(View()) && u in updaters && updaters[u].Resting? && v !in used
      requires forall i :: 0 <= i < |env| ==> NotBy(u, env[i])
      modifies this
      ensures Safe(View())
      ensures if done then
                old(current) in freed && (forall r :: r in readers ==> old(current) !in readers[r].held)
              else k == |env|
      ensures old(lock).None? && old(Calm(readers)) && Silent(env) && |env| >= 2 * |nodes| + 2 ==> done
    {
      Own(Assign(u, v));
      done, k := Synchronize(u, env);
      if done { FreeHeldByNone(u); }
    }
  }

  /** The same scan, further on. */
  predicate Along(before: Phase, after: Phase) {
    match before
    case FirstScan(o, _, _) => after.FirstScan? && after.prior == o
    case SecondScan(o, i, _, _) => after.SecondScan? && after.prior == o && after.index == i
    case _ => true
  }

  /** No bit is set: nobody is in a section. */
  ghost predicate Calm(readers: map<Rid, Reader>) {
    forall r :: r in readers ==> !readers[r].bit0 && !readers[r].bit1
  }

  /** The nodes from position n on are still to be passed. */
  predicate Left(ph: Phase, nodes: seq<Rid>, n: nat)
    requires n <= |nodes|
  {
    Locking(ph) && ph.todo == nodes[n..]
  }

  /** The others do nothing. */
  predicate Silent(env: seq<seq<Action>>) {
    forall i :: 0 <= i < |env| ==> env[i] == []
  }

  ghost predicate NotBy(u: Uid, actions: seq<Action>) {
    forall e :: e in Expand(actions) ==> OfReader(e) || e.u != u
  }

  /** Only sections may have ended. */
  predicate SamePhase(before: Phase, after: Phase) {
    match before
    case Resting => after.Resting?
    case Swapped(o) => after == before
    case FirstScan(o, todo, pre) => after.FirstScan? && after.prior == o && after.todo == todo && after.pre <= pre
    case SecondScan(o, i, todo, pre) =>
      after.SecondScan? && after.prior == o && after.index == i && after.todo == todo && after.pre <= pre
    case Returned(o, pre) => after.Returned? && after.prior == o && after.pre <= pre
  }

  lemma {:induction false} OthersKeepPhase(s: State, events: seq<Event>, u: Uid)
    requires u in s.updaters && forall e :: e in events ==> OfReader(e) || e.u != u
    ensures var t := Run(s, events); u in t.updaters && t.nodes == s.nodes && SamePhase(s.updaters[u], t.updaters[u])
    decreases |events|
  {
    if events != [] {
      assert events[0] in events;
      OtherKeepsPhase(s, events[0], u);
      OthersKeepPhase(Apply(s, events[0]), events[1..], u);
    }
  }

  lemma OtherKeepsPhase(s: State, e: Event, u: Uid)
    requires u in s.updaters && (OfReader(e) || e.u != u)
    ensures var t := Apply(s, e); u in t.updaters && t.nodes == s.nodes && SamePhase(s.updaters[u], t.updaters[u])
  {
  }
}
