/** The thread pool in memory: each method is one operation on the lock, the semaphore or the queue. */
module ThreadPoolMachine {
  import opened Wrappers
  import opened ThreadPool

  class Machine {
    const max: nat
    var requests: seq<Id>
    var sem: nat
    var lock: Option<Tid>
    var threads: map<Tid, Pc>
    var works: seq<Job>
    ghost var takers: seq<Tid>
    ghost var ran: seq<Id>

    ghost function View(): Pool
      reads this
    {
      Pool(max, requests, sem, lock, threads, works, takers, ran)
    }

    /** threadpool_new, with any workers, and any callers. */
    constructor (max: nat, threads: map<Tid, Pc>)
      requires forall t :: t in threads ==> threads[t].Idle? || threads[t].Looping?
      ensures Inv(View()) && Init(View()) && this.max == max && this.threads == threads
    {
      this.max, this.threads := max, threads;
      requests, sem, lock, works, takers, ran := [], 0, None, [], [], [];
      new;
      InitInv(View());
    }

    // ----- both

    /** pthread_spin_lock */
    method Lock(e: Turn, pc: Pc)
      requires e.t in threads
      requires (threads[e.t].Calling? && pc == Checking(threads[e.t].job)) || (threads[e.t].Woken? && pc == Looking)
      modifies this
      ensures View() == Step(old(View()), e)
    {
      if lock.None? {
        lock := Some(e.t);
        threads := threads[e.t := pc];
      }
    }

    /** pthread_spin_unlock */
    method Unlock(e: Turn, pc: Pc)
      requires e.t in threads
      requires ((threads[e.t].Refusing? || threads[e.t].Leaving?) && pc == Idle)
          || (threads[e.t].Holding? && pc == Running(threads[e.t].id))
      modifies this
      ensures View() == Step(old(View()), e)
    {
      lock := None;
      threads := threads[e.t := pc];
    }

    // ----- threadpool_append

    method Call(e: Turn)
      requires e.t in threads && threads[e.t].Idle?
      modifies this
      ensures View() == Step(old(View()), e)
    {
      threads := threads[e.t := Calling(e.job)];
    }

    method GetValue(e: Turn)
      requires e.t in threads && threads[e.t].Checking?
      modifies this
      ensures View() == Step(old(View()), e)
    {
      var val := sem;
      if val >= max {
        threads := threads[e.t := Refusing];
      } else {
        threads := threads[e.t := Adding(threads[e.t].job)];
      }
    }

    method AddTail(e: Turn)
      requires e.t in threads && threads[e.t].Adding?
      modifies this
      ensures View() == Step(old(View()), e)
    {
      requests := requests + [|works|];
      works := works + [threads[e.t].job];
      threads := threads[e.t := Posting];
    }

    method Post(e: Turn)
      requires e.t in threads && threads[e.t].Posting?
      modifies this
      ensures View() == Step(old(View()), e)
    {
      sem := sem + 1;
      threads := threads[e.t := Leaving];
    }

    // ----- threadpool_worker

    method TestStop(e: Turn)
      requires e.t in threads && threads[e.t].Looping?
      modifies this
      ensures View() == Step(old(View()), e)
    {
      threads := threads[e.t := Sleeping];
    }

    method Wait(e: Turn)
      requires e.t in threads && threads[e.t].Sleeping?
      modifies this
      ensures View() == Step(old(View()), e)
    {
      if e.interrupted {
        threads := threads[e.t := Looping];
      } else if sem > 0 {
        sem := sem - 1;
        threads := threads[e.t := Woken];
      }
    }

    method TestEmpty(e: Turn)
      requires e.t in threads && threads[e.t].Looking?
      modifies this
      ensures View() == Step(old(View()), e)
    {
      if requests == [] {
        threads := threads[e.t := Crashed];
      } else {
        threads := threads[e.t := Unlinking];
      }
    }

    method DelFirst(e: Turn)
      requires e.t in threads && threads[e.t].Unlinking? && requests != []
      modifies this
      ensures View() == Step(old(View()), e)
    {
      threads := threads[e.t := Holding(requests[0])];
      requests := requests[1..];
      takers := takers + [e.t];
    }

    method Process(e: Turn)
      requires e.t in threads && threads[e.t].Running?
      modifies this
      ensures View() == Step(old(View()), e)
    {
      ran := ran + [threads[e.t].id];
      threads := threads[e.t := Freeing(threads[e.t].id)];
    }

    method Free(e: Turn)
      requires e.t in threads && threads[e.t].Freeing?
      modifies this
      ensures View() == Step(old(View()), e)
    {
      threads := threads[e.t := Looping];
    }

    /** One step: the invariant keeps the assertion in the worker from failing, and a worker that
        unlinks the first entry finds one. */
    method Perform(e: Turn)
      requires Inv(View()) && e.t in threads
      modifies this
      ensures Inv(View()) && View() == Step(old(View()), e)
    {
      StepKeepsInv(View(), e);
      if Owed(threads[e.t]) { OwedFindsEntry(View(), e.t); }
      match threads[e.t] {
        case Idle => Call(e);
        case Calling(job) => Lock(e, Checking(job));
        case Checking(_) => GetValue(e);
        case Refusing => Unlock(e, Idle);
        case Adding(_) => AddTail(e);
        case Posting => Post(e);
        case Leaving => Unlock(e, Idle);
        case Looping => TestStop(e);
        case Sleeping => Wait(e);
        case Woken => Lock(e, Looking);
        case Looking => TestEmpty(e);
        case Crashed => assert false;
        case Unlinking => DelFirst(e);
        case Holding(id) => Unlock(e, Running(id));
        case Running(_) => Process(e);
        case Freeing(_) => Free(e);
      }
    }

    method Execute(schedule: seq<Turn>)
      requires Inv(View())
      modifies this
      ensures Inv(View()) && View() == Run(old(View()), schedule)
    {
      var i := 0;
      while i < |schedule|
        invariant 0 <= i <= |schedule|
        invariant Inv(View()) && Run(View(), schedule[i..]) == Run(old(View()), schedule)
      {
        assert schedule[i..][1..] == schedule[i + 1..];
        if schedule[i].t in threads {
          Perform(schedule[i]);
        }
        i := i + 1;
      }
    }
  }
}
