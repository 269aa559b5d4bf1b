/** What the thread pool guarantees over whole runs. */
module ThreadPoolRuns {
  import opened Sequences
  import opened ThreadPool

  lemma {:induction false} RunKeepsInv(s: Pool, es: seq<Turn>)
    requires Inv(s)
    ensures Inv(Run(s, es))
    decreases |es|
  {
    if es != [] {
      StepKeepsInv(s, es[0]);
      RunKeepsInv(Step(s, es[0]), es[1..]);
    }
  }

  /** The assertion in the worker never fails: whoever gets to look at the queue finds a job. */
  lemma NeverFindsEmpty(s: Pool, es: seq<Turn>, t: Tid)
    requires Init(s) && t in Run(s, es).threads
    ensures !Run(s, es).threads[t].Crashed?
    ensures Run(s, es).threads[t].Looking? || Run(s, es).threads[t].Unlinking? ==> Run(s, es).requests != []
  {
    InitInv(s);
    RunKeepsInv(s, es);
    if Owed(Run(s, es).threads[t]) { OwedFindsEntry(Run(s, es), t); }
  }

  /** Jobs are taken in the order in which they were queued; none is run twice; and each is in the
      queue, with the one worker that took it, or done. */
  lemma JobsRunOnce(s: Pool, es: seq<Turn>)
    requires Init(s)
    ensures var r := Run(s, es);
      && |r.works| == |r.takers| + |r.requests|
      && (forall i :: 0 <= i < |r.requests| ==> r.requests[i] == |r.takers| + i)
      && (forall i :: 0 <= i < |r.ran| ==> r.ran[i] < |r.takers|)
      && (forall i, j :: 0 <= i < j < |r.ran| ==> r.ran[i] != r.ran[j])
      && (forall id :: 0 <= id < |r.takers| ==> TakenOk(r, id))
  {
    InitInv(s);
    RunKeepsInv(s, es);
  }

  lemma {:induction false} RunKeepsCrew(s: Pool, es: seq<Turn>)
    requires Inv(s)
    ensures Workers(Run(s, es).threads) == Workers(s.threads) && Run(s, es).max == s.max
    decreases |es|
  {
    if es != [] {
      var e := es[0];
      StepKeepsInv(s, e);
      if e.t in s.threads { StepMoves(s, e); }
      RunKeepsCrew(Step(s, e), es[1..]);
    }
  }

  /** The semaphore never exceeds the limit, and the queue exceeds it by no more than one for each
      worker. */
  lemma Bounds(s: Pool, es: seq<Turn>)
    requires Init(s)
    ensures Run(s, es).sem <= s.max
    ensures |Run(s, es).requests| <= s.max + |Workers(s.threads)|
  {
    InitInv(s);
    RunKeepsInv(s, es);
    RunKeepsCrew(s, es);
    var r := Run(s, es);
    SubsetSize(OwedSet(r.threads), Workers(r.threads));
  }

  lemma {:induction false} SubsetSize(a: set<Tid>, b: set<Tid>)
    requires a <= b
    ensures |a| <= |b|
  {
    if a != {} {
      var x :| x in a;
      SubsetSize(a - {x}, b - {x});
    }
  }

  /** A caller is refused only while at least `max` jobs are queued. */
  lemma RefusedWhenFull(s: Pool, e: Turn)
    requires Inv(s) && e.t in s.threads && s.threads[e.t].Checking?
    ensures e.t in Step(s, e).threads
    ensures Step(s, e).threads[e.t].Refusing? <==> s.sem >= s.max
    ensures Step(s, e).threads[e.t].Refusing? ==> |s.requests| >= s.max
  {
  }

  // ----- no job is left lying

  predicate CanMove(s: Pool, t: Tid) {
    t in s.threads && Step(s, Turn(t, Job(0, 0), false)) != s
  }

  /** While there is a job and a worker, some thread inside the pool can go on. */
  lemma SomeoneCanMove(s: Pool, w: Tid)
    requires Inv(s) && s.requests != [] && w in s.threads && Worker(s.threads[w])
    ensures exists t :: t in s.threads && !s.threads[t].Idle? && CanMove(s, t)
  {
    if s.lock.Some? {
      var t := s.lock.value;
      if Owed(s.threads[t]) { OwedFindsEntry(s, t); }
      assert CanMove(s, t);
    } else if OwedSet(s.threads) != {} {
      var t :| t in OwedSet(s.threads);
      assert CanMove(s, t);
    } else {
      assert CanMove(s, w);
    }
  }

  // ----- how long until all is done

  /** Steps until the worker sleeps. */
  function Steps(pc: Pc): nat {
    match pc
    case Looping => 1
    case Freeing(_) => 2
    case Running(_) => 3
    case Holding(_) => 4
    case Unlinking => 5
    case Looking => 6
    case Woken => 7
    case _ => 0
  }

  function Total(threads: map<Tid, Pc>, ws: seq<Tid>): nat {
    if ws == [] then 0
    else (if ws[0] in threads then Steps(threads[ws[0]]) else 0) + Total(threads, ws[1..])
  }

  /** Work to do: eight steps for each job that no worker has been woken for, and what workers are at. */
  function Load(s: Pool, ws: seq<Tid>): nat {
    8 * s.sem + Total(s.threads, ws)
  }

  /** No caller is inside threadpool_append; ws lists the workers. */
  ghost predicate Quiet(s: Pool, ws: seq<Tid>) {
    && NoDup(ws)
    && forall t :: t in s.threads ==> if t in ws then Worker(s.threads[t]) else s.threads[t].Idle?
  }

  lemma {:induction false} TotalSame(threads: map<Tid, Pc>, ws: seq<Tid>, t: Tid, pc: Pc)
    requires t !in ws
    ensures Total(threads[t := pc], ws) == Total(threads, ws)
  {
    if ws != [] { TotalSame(threads, ws[1..], t, pc); }
  }

  lemma {:induction false} TotalAfter(threads: map<Tid, Pc>, ws: seq<Tid>, t: Tid, pc: Pc)
    requires NoDup(ws) && t in ws && t in threads
    ensures Total(threads[t := pc], ws) == Total(threads, ws) - Steps(threads[t]) + Steps(pc)
  {
    if ws[0] == t {
      TotalSame(threads, ws[1..], t, pc);
    } else {
      TotalAfter(threads, ws[1..], t, pc);
    }
  }

  /** Each step of the schedule is a worker's, is not interrupted and does not wait. */
  predicate Busy(s: Pool, ws: seq<Tid>, es: seq<Turn>)
    decreases |es|
  {
    es == [] || (es[0].t in ws && !es[0].interrupted && CanMove(s, es[0].t) && Busy(Step(s, es[0]), ws, es[1..]))
  }

  lemma WorkerStep(s: Pool, e: Turn)
    requires LockOk(s) && NoCrash(s) && e.t in s.threads && Worker(s.threads[e.t]) && !e.interrupted && CanMove(s, e.t)
    requires Owed(s.threads[e.t]) ==> s.requests != []
    ensures e.t in Step(s, e).threads
    ensures var s' := Step(s, e);
      8 * s'.sem + Steps(s'.threads[e.t]) + 1 == 8 * s.sem + Steps(s.threads[e.t]) && s'.works == s.works
  {
  }

  lemma BusyStep(s: Pool, ws: seq<Tid>, e: Turn)
    requires Inv(s) && Quiet(s, ws) && e.t in ws && !e.interrupted && CanMove(s, e.t)
    ensures Inv(Step(s, e)) && Quiet(Step(s, e), ws) && Step(s, e).works == s.works
    ensures Load(Step(s, e), ws) == Load(s, ws) - 1
  {
    StepKeepsInv(s, e);
    StepMoves(s, e);
    if Owed(s.threads[e.t]) { OwedFindsEntry(s, e.t); }
    WorkerStep(s, e);
    TotalAfter(s.threads, ws, e.t, Step(s, e).threads[e.t]);
  }

  /** Once the callers are quiet, each step of a worker that does not wait is one step less to do; when
      none is left, every job has run. */
  lemma {:induction false} AllJobsRun(s: Pool, ws: seq<Tid>, es: seq<Turn>)
    requires Inv(s) && Quiet(s, ws) && Busy(s, ws, es)
    ensures Load(Run(s, es), ws) == Load(s, ws) - |es|
    ensures |es| == Load(s, ws) ==> forall id :: 0 <= id < |s.works| ==> id in Run(s, es).ran
    decreases |es|
  {
    if es == [] {
      if Load(s, ws) == 0 { AllAsleep(s, ws); }
    } else {
      BusyStep(s, ws, es[0]);
      AllJobsRun(Step(s, es[0]), ws, es[1..]);
    }
  }

  lemma {:induction false} TotalZero(threads: map<Tid, Pc>, ws: seq<Tid>, t: Tid)
    requires Total(threads, ws) == 0 && t in ws && t in threads
    ensures Steps(threads[t]) == 0
  {
    if ws[0] != t { TotalZero(threads, ws[1..], t); }
  }

  lemma AllAsleep(s: Pool, ws: seq<Tid>)
    requires Inv(s) && Quiet(s, ws) && Load(s, ws) == 0
    ensures forall id :: 0 <= id < |s.works| ==> id in s.ran
  {
    forall t | t in s.threads
      ensures s.threads[t].Sleeping? || s.threads[t].Idle?
    {
      if t in ws { TotalZero(s.threads, ws, t); }
    }
    assert OwedSet(s.threads) == {};
    forall id | 0 <= id < |s.works|
      ensures id in s.ran
    {
      assert TakenOk(s, id);
    }
  }

  /** And while there is something to do, some worker can do it. */
  lemma LoadMoves(s: Pool, ws: seq<Tid>)
    requires Inv(s) && Quiet(s, ws) && Load(s, ws) > 0 && ws != [] && ws[0] in s.threads
    ensures exists t :: t in ws && CanMove(s, t)
  {
    if s.requests != [] {
      SomeoneCanMove(s, ws[0]);
    } else {
      var t := TotalPositive(s.threads, ws);
      if Owed(s.threads[t]) { OwedFindsEntry(s, t); }
      assert CanMove(s, t);
    }
  }

  lemma {:induction false} TotalPositive(threads: map<Tid, Pc>, ws: seq<Tid>) returns (t: Tid)
    requires Total(threads, ws) > 0
    ensures t in ws && t in threads && Steps(threads[t]) > 0
  {
    if ws[0] in threads && Steps(threads[ws[0]]) > 0 {
      t := ws[0];
    } else {
      t := TotalPositive(threads, ws[1..]);
    }
  }
}
