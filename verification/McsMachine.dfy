/** The lock in memory: each method performs one atomic operation in place. */
module McsMachine {
  import opened Wrappers
  import opened McsLock
  import opened McsTheorems

  class Machine {
    var tail: Option<Tid>
    var nodes: map<Tid, Node>
    ghost var exchanged: seq<Tid>
    ghost var entered: seq<Tid>
    ghost var released: seq<Tid>

    ghost function View(): Config
      reads this
    {
      Config(State(tail, nodes), exchanged, entered, released)
    }

    /** Any number of idle threads, and nodes holding anything. */
    constructor (nodes: map<Tid, Node>)
      requires forall t :: t in nodes ==> nodes[t].pc.Idle?
      ensures Inv(View()) && this.nodes == nodes && View().exchanged == []
    {
      this.nodes := nodes;
      tail, exchanged, entered, released := None, [], [], [];
      new;
      InitInv(View());
    }

    // ----- mcslock_lock

    method ClearNext(t: Tid)
      requires t in nodes && nodes[t].pc.Idle?
      modifies this
      ensures View() == Next(old(View()), t)
    {
      nodes := nodes[t := nodes[t].(next := None, pc := Ready)];
    }

    method ExchangeTail(t: Tid)
      requires t in nodes && nodes[t].pc.Ready?
      modifies this
      ensures View() == Next(old(View()), t)
    {
      var prev := tail;
      tail := Some(t);
      exchanged := exchanged + [t];
      if prev.None? {
        nodes := nodes[t := nodes[t].(pc := Critical)];
        entered := entered + [t];
      } else {
        nodes := nodes[t := nodes[t].(pc := Exchanged(prev.value))];
      }
    }

    method StoreWait(t: Tid)
      requires t in nodes && nodes[t].pc.Exchanged?
      modifies this
      ensures View() == Next(old(View()), t)
    {
      nodes := nodes[t := nodes[t].(wait := Wait, pc := Linking(nodes[t].pc.prev))];
    }

    method LinkBehind(t: Tid)
      requires t in nodes && nodes[t].pc.Linking? && nodes[t].pc.prev in nodes
      modifies this
      ensures View() == Next(old(View()), t)
    {
      var prev := nodes[t].pc.prev;
      nodes := nodes[prev := nodes[prev].(next := Some(t))];
      nodes := nodes[t := nodes[t].(pc := Spinning)];
    }

    method TestWait(t: Tid)
      requires t in nodes && nodes[t].pc.Spinning?
      modifies this
      ensures View() == Next(old(View()), t)
    {
      if nodes[t].wait == Proceed {
        nodes := nodes[t := nodes[t].(pc := Critical)];
        entered := entered + [t];
      }
    }

    // ----- mcslock_unlock

    method LoadNext(t: Tid)
      requires t in nodes && (nodes[t].pc.Critical? || nodes[t].pc.AwaitLink?)
      modifies this
      ensures View() == Next(old(View()), t)
    {
      var next := nodes[t].next;
      if next.Some? {
        nodes := nodes[t := nodes[t].(pc := Handing(next.value))];
      } else if nodes[t].pc.Critical? {
        nodes := nodes[t := nodes[t].(pc := Releasing)];
      }
    }

    method CompareAndSwapTail(t: Tid)
      requires t in nodes && nodes[t].pc.Releasing?
      modifies this
      ensures View() == Next(old(View()), t)
    {
      if tail == Some(t) {
        tail := None;
        nodes := nodes[t := nodes[t].(pc := Idle)];
        released := released + [t];
      } else {
        nodes := nodes[t := nodes[t].(pc := AwaitLink)];
      }
    }

    method StoreProceed(t: Tid)
      requires t in nodes && nodes[t].pc.Handing? && nodes[t].pc.succ in nodes
      modifies this
      ensures View() == Next(old(View()), t)
    {
      var succ := nodes[t].pc.succ;
      nodes := nodes[succ := nodes[succ].(wait := Proceed)];
      nodes := nodes[t := nodes[t].(pc := Idle)];
      released := released + [t];
    }

    /** One step of thread t: the invariant makes every pointer it stores through a good one. */
    method Perform(t: Tid)
      requires Inv(View()) && t in nodes
      modifies this
      ensures Inv(View()) && View() == Next(old(View()), t)
    {
      NextKeepsInv(View(), t);
      if nodes[t].pc.Linking? { LinkTarget(View(), t); }
      if nodes[t].pc.Handing? { HandoverTarget(View(), t); }
      match nodes[t].pc {
        case Idle => ClearNext(t);
        case Ready => ExchangeTail(t);
        case Exchanged(_) => StoreWait(t);
        case Linking(_) => LinkBehind(t);
        case Spinning => TestWait(t);
        case Critical => LoadNext(t);
        case AwaitLink => LoadNext(t);
        case Releasing => CompareAndSwapTail(t);
        case Handing(_) => StoreProceed(t);
      }
    }

    method Execute(schedule: seq<Tid>)
      requires Inv(View())
      modifies this
      ensures Inv(View()) && View() == Run(old(View()), schedule)
    {
      var i := 0;
      while i < |schedule|
        invariant 0 <= i <= |schedule|
        invariant Inv(View()) && Run(View(), schedule[i..]) == Run(old(View()), schedule)
      {
        assert schedule[i..][1..] == schedule[i + 1..];
        if schedule[i] in nodes {
          Perform(schedule[i]);
        }
        i := i + 1;
      }
    }
  }
}
