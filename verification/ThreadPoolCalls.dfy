/** What callers ask of the thread pool, and what single threads get done. */
module ThreadPoolCalls {
  import opened Wrappers
  import opened ThreadPool
  import opened ThreadPoolRuns

  // ----- the jobs queued are the jobs handed in

  /** The calls that are under way, after a step of e: a call begins at its first step, with the job that
      is handed in then, and has queued it when it has added it. */
  function CallsAfter(s: Pool, calls: map<Tid, Job>, e: Turn): map<Tid, Job> {
    if e.t !in s.threads then calls
    else if s.threads[e.t].Idle? then calls[e.t := e.job]
    else if s.threads[e.t].Adding? then calls - {e.t}
    else calls
  }

  /** The jobs that are queued in a run, each as it was handed in, in the order of the additions. */
  function Asked(s: Pool, es: seq<Turn>, calls: map<Tid, Job>): seq<Job>
    decreases |es|
  {
    if es == [] then [] else
    var e := es[0];
    (if e.t in s.threads && s.threads[e.t].Adding? && e.t in calls then [calls[e.t]] else [])
    + Asked(Step(s, e), es[1..], CallsAfter(s, calls, e))
  }

  /** Whoever is about to queue a job has been handed this job. */
  ghost predicate HandedIn(s: Pool, calls: map<Tid, Job>) {
    forall t :: t in s.threads && (s.threads[t].Calling? || s.threads[t].Checking? || s.threads[t].Adding?) ==>
      t in calls && s.threads[t].job == calls[t]
  }

  lemma StepHandsIn(s: Pool, calls: map<Tid, Job>, e: Turn)
    requires HandedIn(s, calls)
    ensures HandedIn(Step(s, e), CallsAfter(s, calls, e))
    ensures Step(s, e).works == s.works +
      if e.t in s.threads && s.threads[e.t].Adding? && e.t in calls then [calls[e.t]] else []
  {
    if e.t in s.threads {
      StepThreads(s, e);
      StepHolds(s, calls, e);
    }
  }

  /** The thread that takes the step goes on with the job that it was handed. */
  lemma StepHolds(s: Pool, calls: map<Tid, Job>, e: Turn)
    requires HandedIn(s, calls) && e.t in s.threads
    ensures e.t in Step(s, e).threads
    ensures var pc, calls' := Step(s, e).threads[e.t], CallsAfter(s, calls, e);
      pc.Calling? || pc.Checking? || pc.Adding? ==> e.t in calls' && pc.job == calls'[e.t]
  {
  }

  /** The queue's history is that of the jobs handed in by the calls that were not refused, in the order of
      their additions. */
  lemma {:induction false} WorksAreAsked(s: Pool, es: seq<Turn>, calls: map<Tid, Job>)
    requires HandedIn(s, calls)
    ensures Run(s, es).works == s.works + Asked(s, es, calls)
    decreases |es|
  {
    if es != [] {
      StepHandsIn(s, calls, es[0]);
      WorksAreAsked(Step(s, es[0]), es[1..], CallsAfter(s, calls, es[0]));
    }
  }

  lemma JobsAreThoseHandedIn(s: Pool, es: seq<Turn>)
    requires Init(s)
    ensures Run(s, es).works == Asked(s, es, map[])
  {
    WorksAreAsked(s, es, map[]);
    assert [] + Asked(s, es, map[]) == Asked(s, es, map[]);
  }

  // ----- who waits, and for what

  /** A thread waits for the lock, or for the semaphore, and for nothing else: in every other state any
      step takes it on. */
  lemma WaitsOnlyForLockOrJob(s: Pool, t: Tid)
    requires Inv(s) && t in s.threads
    ensures !CanMove(s, t) <==>
      || ((s.threads[t].Calling? || s.threads[t].Woken?) && s.lock.Some?)
      || (s.threads[t].Sleeping? && s.sem == 0)
  {
    if Owed(s.threads[t]) { OwedFindsEntry(s, t); }
  }

  function Turns(t: Tid, job: Job, n: nat): (es: seq<Turn>)
    ensures |es| == n
  {
    if n == 0 then [] else [Turn(t, job, false)] + Turns(t, job, n - 1)
  }

  lemma RunTurns(s: Pool, t: Tid, job: Job, n: nat)
    ensures Run(s, Turns(t, job, n)) == if n == 0 then s else Run(Step(s, Turn(t, job, false)), Turns(t, job, n - 1))
  {
    if n > 0 { assert Turns(t, job, n)[1..] == Turns(t, job, n - 1); }
  }

  /** A call that finds the lock free queues its job in six steps and posts it, or, if the pool is full, is
      refused in four and changes nothing. */
  lemma CallGoesThrough(s: Pool, t: Tid, job: Job)
    requires Inv(s) && t in s.threads && s.threads[t].Idle? && s.lock.None?
    ensures s.sem < s.max ==>
      Run(s, Turns(t, job, 6)) ==
      s.(requests := s.requests + [|s.works|], works := s.works + [job], sem := s.sem + 1)
    ensures s.sem >= s.max ==> Run(s, Turns(t, job, 4)) == s
  {
    var s1 := Step(s, Turn(t, job, false));
    var s2 := Step(s1, Turn(t, job, false));
    var s3 := Step(s2, Turn(t, job, false));
    var s4 := Step(s3, Turn(t, job, false));
    FourTurns(s, t, job, 2);
    FourTurns(s, t, job, 0);
    FirstTurns(s, t, job, s4);
    if s.sem < s.max {
      LastTurns(s, t, job, s4);
    }
  }

  lemma FourTurns(s: Pool, t: Tid, job: Job, n: nat)
    ensures var e := Turn(t, job, false);
      Run(s, Turns(t, job, n + 4)) == Run(Step(Step(Step(Step(s, e), e), e), e), Turns(t, job, n))
  {
    var e := Turn(t, job, false);
    RunTurns(s, t, job, n + 4);
    RunTurns(Step(s, e), t, job, n + 3);
    RunTurns(Step(Step(s, e), e), t, job, n + 2);
    RunTurns(Step(Step(Step(s, e), e), e), t, job, n + 1);
  }

  lemma FirstTurns(s: Pool, t: Tid, job: Job, s4: Pool)
    requires t in s.threads && s.threads[t].Idle? && s.lock.None?
    requires var e := Turn(t, job, false); s4 == Step(Step(Step(Step(s, e), e), e), e)
    ensures if s.sem >= s.max then s4 == s
            else s4 == s.(threads := s.threads[t := Posting], lock := Some(t),
                          requests := s.requests + [|s.works|], works := s.works + [job])
  {
    var e := Turn(t, job, false);
    var a: map<Tid, Pc> := s.threads[t := Calling(job)];
    var b: map<Tid, Pc> := a[t := Checking(job)];
    assert Step(Step(s, e), e) == s.(threads := b, lock := Some(t));
    if s.sem >= s.max {
      var c: map<Tid, Pc> := b[t := Refusing];
      assert c[t := Idle] == s.threads;
    } else {
      var c: map<Tid, Pc> := b[t := Adding(job)];
      assert c[t := Posting] == s.threads[t := Posting];
    }
  }

  lemma LastTurns(s: Pool, t: Tid, job: Job, s4: Pool)
    requires t in s.threads && s.threads[t].Idle? && s.lock.None?
    requires s4 == s.(threads := s.threads[t := Posting], lock := Some(t),
                      requests := s.requests + [|s.works|], works := s.works + [job])
    ensures Run(s4, Turns(t, job, 2)) ==
      s.(requests := s.requests + [|s.works|], works := s.works + [job], sem := s.sem + 1)
  {
    var e := Turn(t, job, false);
    RunTurns(s4, t, job, 2);
    RunTurns(Step(s4, e), t, job, 1);
    RunTurns(Step(Step(s4, e), e), t, job, 0);
    var a: map<Tid, Pc> := s4.threads[t := Leaving];
    assert a[t := Idle] == s.threads;
  }

  /** A worker that finds a job and the lock free takes the first one and runs it, and is back at the start
      after eight steps. */
  lemma WorkGoesThrough(s: Pool, t: Tid, job: Job)
    requires Inv(s) && t in s.threads && s.threads[t].Looping? && s.lock.None? && s.sem > 0
    ensures s.requests != [] && Run(s, Turns(t, job, 8)) ==
      s.(requests := s.requests[1..], sem := s.sem - 1, takers := s.takers + [t], ran := s.ran + [s.requests[0]])
  {
    var e := Turn(t, job, false);
    var s4 := s.(threads := s.threads[t := Unlinking], lock := Some(t), sem := s.sem - 1);
    UnitHasJob(s);
    var s8 := s.(requests := s.requests[1..], sem := s.sem - 1, takers := s.takers + [t],
                 ran := s.ran + [s.requests[0]]);
    WorkStarts(s, t, e, s4);
    WorkEnds(s, t, e, s4, s8);
    FourTwice(s, t, job, s4, s8);
  }

  lemma FourTwice(s: Pool, t: Tid, job: Job, s4: Pool, s8: Pool)
    requires var e := Turn(t, job, false);
      Step(Step(Step(Step(s, e), e), e), e) == s4 && Step(Step(Step(Step(s4, e), e), e), e) == s8
    ensures Run(s, Turns(t, job, 8)) == s8
  {
    FourTurns(s, t, job, 4);
    FourTurns(s4, t, job, 0);
    RunTurns(s8, t, job, 0);
  }

  lemma UnitHasJob(s: Pool)
    requires CountOk(s) && s.sem > 0
    ensures s.requests != []
  {
  }

  lemma WorkStarts(s: Pool, t: Tid, e: Turn, s4: Pool)
    requires t in s.threads && s.threads[t].Looping? && s.lock.None? && s.sem > 0 && s.requests != []
    requires e.t == t && !e.interrupted
    requires s4 == s.(threads := s.threads[t := Unlinking], lock := Some(t), sem := s.sem - 1)
    ensures Step(Step(Step(Step(s, e), e), e), e) == s4
  {
    var a: map<Tid, Pc> := s.threads[t := Sleeping];
    var b: map<Tid, Pc> := a[t := Woken];
    var c: map<Tid, Pc> := b[t := Looking];
    assert c[t := Unlinking] == s.threads[t := Unlinking];
    assert Step(Step(s, e), e) == s.(threads := b, sem := s.sem - 1);
  }

  lemma WorkEnds(s: Pool, t: Tid, e: Turn, s4: Pool, s8: Pool)
    requires t in s.threads && s.threads[t].Looping? && s.lock.None? && s.sem > 0 && s.requests != []
    requires e.t == t && !e.interrupted
    requires s4 == s.(threads := s.threads[t := Unlinking], lock := Some(t), sem := s.sem - 1)
    requires s8 == s.(requests := s.requests[1..], sem := s.sem - 1, takers := s.takers + [t],
                      ran := s.ran + [s.requests[0]])
    ensures Step(Step(Step(Step(s4, e), e), e), e) == s8
  {
    var id := s.requests[0];
    var a: map<Tid, Pc> := s4.threads[t := Holding(id)];
    var b: map<Tid, Pc> := a[t := Running(id)];
    var c: map<Tid, Pc> := b[t := Freeing(id)];
    assert c[t := Looping] == s.threads;
    assert Step(Step(s4, e), e).threads == b;
  }
}
