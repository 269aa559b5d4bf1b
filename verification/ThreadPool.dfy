/** The thread pool: callers append jobs, workers take and run them; every operation on the lock, the
    semaphore and the queue is one step. */
module ThreadPool {
  import opened Wrappers

  type Tid = nat

  /** Jobs are numbered in the order in which they are queued. */
  type Id = nat

  datatype Job = Job(process: nat, arg: nat)

  /** What a thread does next. */
  datatype Pc =
    // in threadpool_append
    | Idle                // outside; next: call it
    | Calling(job: Job)   // next: take the spin lock
    | Checking(job: Job)  // next: sem_getvalue
    | Refusing            // the pool is full; next: unlock
    | Adding(job: Job)    // next: list_add_tail
    | Posting             // next: sem_post
    | Leaving             // next: unlock
    // in threadpool_worker
    | Looping             // next: test stop
    | Sleeping            // next: sem_wait
    | Woken               // next: take the spin lock
    | Looking             // next: test whether the queue is empty
    | Crashed             // the assertion has failed
    | Unlinking           // next: list_head_del of the first entry
    | Holding(id: Id)     // next: unlock
    | Running(id: Id)     // next: process
    | Freeing(id: Id)     // next: free

  /** `works` tells the jobs by number, `takers` who took them, in order, and `ran` which have run. */
  datatype Pool = Pool(max: nat, requests: seq<Id>, sem: nat, lock: Option<Tid>, threads: map<Tid, Pc>,
                       works: seq<Job>, takers: seq<Tid>, ran: seq<Id>)

  /** Thread t takes a step; `job` is what it appends if it starts to, and `interrupted` whether a signal
      interrupts its sem_wait. */
  datatype Turn = Turn(t: Tid, job: Job, interrupted: bool)

  function Go(s: Pool, t: Tid, pc: Pc): Pool {
    s.(threads := s.threads[t := pc])
  }

  function TakeLock(s: Pool, t: Tid, pc: Pc): Pool {
    if s.lock.None? then Go(s, t, pc).(lock := Some(t)) else s
  }

  function Step(s: Pool, e: Turn): Pool {
    if e.t !in s.threads then s else
    var t := e.t;
    match s.threads[t]
    case Idle => Go(s, t, Calling(e.job))
    case Calling(job) => TakeLock(s, t, Checking(job))
    case Checking(job) => Go(s, t, if s.sem >= s.max then Refusing else Adding(job))
    case Refusing => Go(s, t, Idle).(lock := None)
    case Adding(job) => Go(s, t, Posting).(requests := s.requests + [|s.works|], works := s.works + [job])
    case Posting => Go(s, t, Leaving).(sem := s.sem + 1)
    case Leaving => Go(s, t, Idle).(lock := None)
    case Looping => Go(s, t, Sleeping)
    case Sleeping =>
      if e.interrupted then Go(s, t, Looping)
      else if s.sem > 0 then Go(s, t, Woken).(sem := s.sem - 1) else s
    case Woken => TakeLock(s, t, Looking)
    case Looking => Go(s, t, if s.requests == [] then Crashed else Unlinking)
    case Crashed => s
    case Unlinking =>
      if s.requests == [] then s
      else Go(s, t, Holding(s.requests[0])).(requests := s.requests[1..], takers := s.takers + [t])
    case Holding(id) => Go(s, t, Running(id)).(lock := None)
    case Running(id) => Go(s, t, Freeing(id)).(ran := s.ran + [id])
    case Freeing(_) => Go(s, t, Looping)
  }

  function Run(s: Pool, es: seq<Turn>): Pool
    decreases |es|
  {
    if es == [] then s else Run(Step(s, es[0]), es[1..])
  }

  // ----- the invariant

  predicate HasLock(pc: Pc) {
    pc.Checking? || pc.Refusing? || pc.Adding? || pc.Posting? || pc.Leaving? || pc.Looking? || pc.Crashed?
        || pc.Unlinking? || pc.Holding?
  }

  /** Between sem_wait and list_head_del. */
  predicate Owed(pc: Pc) {
    pc.Woken? || pc.Looking? || pc.Crashed? || pc.Unlinking?
  }

  predicate Carries(pc: Pc, id: Id) {
    pc == Holding(id) || pc == Running(id)
  }

  predicate Worker(pc: Pc) {
    pc.Looping? || pc.Sleeping? || pc.Crashed? || Owed(pc) || pc.Holding? || pc.Running? || pc.Freeing?
  }

  function OwedSet(threads: map<Tid, Pc>): set<Tid> {
    set t | t in threads && Owed(threads[t])
  }

  function Workers(threads: map<Tid, Pc>): set<Tid> {
    set t | t in threads && Worker(threads[t])
  }

  /** 1 while a job is queued whose sem_post is still to come. */
  function Unposted(s: Pool): nat {
    if s.lock.Some? && s.lock.value in s.threads && s.threads[s.lock.value].Posting? then 1 else 0
  }

  ghost predicate LockOk(s: Pool) {
    && (s.lock.Some? ==> s.lock.value in s.threads)
    && forall t :: t in s.threads ==> (HasLock(s.threads[t]) <==> s.lock == Some(t))
  }

  /** The queue has one entry for each unit of the semaphore and for each worker that waited for one. */
  ghost predicate CountOk(s: Pool) {
    |s.requests| == s.sem + |OwedSet(s.threads)| + Unposted(s)
  }

  ghost predicate RoomOk(s: Pool) {
    && s.sem <= s.max
    && forall t :: t in s.threads && (s.threads[t].Adding? || s.threads[t].Posting?) ==> s.sem < s.max
  }

  /** The queue holds the jobs that were queued and not taken yet, in order. */
  ghost predicate OrderOk(s: Pool) {
    && |s.works| == |s.takers| + |s.requests|
    && forall i :: 0 <= i < |s.requests| ==> s.requests[i] == |s.takers| + i
  }

  /** What t carries, t has taken, and it has not run. */
  ghost predicate CarryOk(s: Pool, t: Tid)
    requires t in s.threads
  {
    forall id: Id :: Carries(s.threads[t], id) ==> id < |s.takers| && s.takers[id] == t && id !in s.ran
  }

  /** A job taken has run, or is carried by the worker that took it. */
  ghost predicate TakenOk(s: Pool, id: Id)
    requires id < |s.takers|
  {
    id in s.ran || (s.takers[id] in s.threads && Carries(s.threads[s.takers[id]], id))
  }

  ghost predicate RanOk(s: Pool) {
    && (forall i :: 0 <= i < |s.ran| ==> s.ran[i] < |s.takers|)
    && forall i, j :: 0 <= i < j < |s.ran| ==> s.ran[i] != s.ran[j]
  }

  ghost predicate JobsOk(s: Pool) {
    && (forall t :: t in s.threads ==> CarryOk(s, t))
    && (forall id :: 0 <= id < |s.takers| ==> TakenOk(s, id))
    && RanOk(s)
  }

  ghost predicate NoCrash(s: Pool) {
    forall t :: t in s.threads ==> !s.threads[t].Crashed?
  }

  ghost predicate Inv(s: Pool) {
    LockOk(s) && CountOk(s) && RoomOk(s) && OrderOk(s) && JobsOk(s) && NoCrash(s)
  }

  ghost predicate Init(s: Pool) {
    && s.requests == [] && s.sem == 0 && s.lock == None && s.works == [] && s.takers == [] && s.ran == []
    && forall t :: t in s.threads ==> s.threads[t].Idle? || s.threads[t].Looping?
  }

  lemma InitInv(s: Pool)
    requires Init(s)
    ensures Inv(s)
  {
    assert OwedSet(s.threads) == {};
  }

  /** Only the pc of e.t changes, and the lock goes with it. */
  lemma StepMoves(s: Pool, e: Turn)
    requires LockOk(s) && e.t in s.threads
    ensures e.t in Step(s, e).threads
    ensures var s' := Step(s, e);
      var pc, pc' := s.threads[e.t], s'.threads[e.t];
      && s'.threads == s.threads[e.t := pc'] && s'.max == s.max
      && s'.lock == (if HasLock(pc') then Some(e.t) else if HasLock(pc) then None else s.lock)
      && (HasLock(pc') ==> HasLock(pc) || s.lock.None?)
      && (Worker(pc') <==> Worker(pc))
  {
    StepThreads(s, e);
    StepLock(s, e);
    StepRole(s, e);
  }

  /** A worker stays a worker. */
  lemma StepRole(s: Pool, e: Turn)
    requires e.t in s.threads
    ensures e.t in Step(s, e).threads && (Worker(Step(s, e).threads[e.t]) <==> Worker(s.threads[e.t]))
  {
  }

  lemma StepThreads(s: Pool, e: Turn)
    requires e.t in s.threads
    ensures e.t in Step(s, e).threads && Step(s, e).threads == s.threads[e.t := Step(s, e).threads[e.t]]
    ensures Step(s, e).max == s.max
  {
    SameThread(s.threads, e.t);
  }

  lemma SameThread(threads: map<Tid, Pc>, t: Tid)
    requires t in threads
    ensures threads[t := threads[t]] == threads
  {
  }

  lemma StepLock(s: Pool, e: Turn)
    requires LockOk(s) && e.t in s.threads
    ensures e.t in Step(s, e).threads
    ensures var s' := Step(s, e);
      var pc, pc' := s.threads[e.t], s'.threads[e.t];
      && s'.lock == (if HasLock(pc') then Some(e.t) else if HasLock(pc) then None else s.lock)
      && (HasLock(pc') ==> HasLock(pc) || s.lock.None?)
  {
  }

  lemma StepKeepsLock(s: Pool, e: Turn)
    requires LockOk(s)
    ensures LockOk(Step(s, e))
  {
    if e.t in s.threads {
      StepMoves(s, e);
      LockMoves(s, Step(s, e), e.t, Step(s, e).threads[e.t]);
    }
  }

  lemma LockMoves(s: Pool, s': Pool, t: Tid, pc: Pc)
    requires LockOk(s) && t in s.threads && s'.threads == s.threads[t := pc]
    requires s'.lock == if HasLock(pc) then Some(t) else if HasLock(s.threads[t]) then None else s.lock
    requires HasLock(pc) ==> HasLock(s.threads[t]) || s.lock.None?
    ensures LockOk(s')
  {
  }

  lemma SizeAfter(a: set<Tid>, b: set<Tid>, t: Tid)
    requires forall u :: u != t ==> (u in a <==> u in b)
    ensures |b| - (if t in b then 1 else 0) == |a| - (if t in a then 1 else 0)
  {
    var c := a - {t};
    assert a == if t in a then c + {t} else c;
    assert b == if t in b then c + {t} else c;
  }

  lemma OwedAfter(threads: map<Tid, Pc>, t: Tid, pc: Pc)
    requires t in threads
    ensures |OwedSet(threads[t := pc])| ==
      |OwedSet(threads)| - (if Owed(threads[t]) then 1 else 0) + (if Owed(pc) then 1 else 0)
  {
    SizeAfter(OwedSet(threads), OwedSet(threads[t := pc]), t);
  }

  /** A worker that is owed an entry finds one. */
  lemma OwedFindsEntry(s: Pool, t: Tid)
    requires CountOk(s) && t in s.threads && Owed(s.threads[t])
    ensures s.requests != []
  {
    assert t in OwedSet(s.threads);
  }

  function One(b: bool): nat {
    if b then 1 else 0
  }

  /** What a step does to the queue, the semaphore and what is owed, apart from the other threads. */
  lemma StepCounts(s: Pool, e: Turn)
    requires LockOk(s) && e.t in s.threads && (Owed(s.threads[e.t]) ==> s.requests != []) && !s.threads[e.t].Crashed?
    ensures e.t in Step(s, e).threads
    ensures var s' := Step(s, e);
      var pc, pc' := s.threads[e.t], s'.threads[e.t];
      && !pc'.Crashed?
      && |s'.requests| - s'.sem - One(Owed(pc')) - One(pc'.Posting?) ==
          |s.requests| - s.sem - One(Owed(pc)) - One(pc.Posting?)
  {
  }

  lemma PostingIsUnposted(s: Pool, s': Pool, t: Tid, pc: Pc)
    requires LockOk(s) && LockOk(s') && t in s.threads && s'.threads == s.threads[t := pc]
    requires s'.lock == if HasLock(pc) then Some(t) else if HasLock(s.threads[t]) then None else s.lock
    ensures Unposted(s') - One(pc.Posting?) == Unposted(s) - One(s.threads[t].Posting?)
  {
  }

  lemma StepKeepsCount(s: Pool, e: Turn)
    requires LockOk(s) && CountOk(s) && NoCrash(s)
    ensures CountOk(Step(s, e)) && NoCrash(Step(s, e))
  {
    if e.t in s.threads {
      var s' := Step(s, e);
      if Owed(s.threads[e.t]) { OwedFindsEntry(s, e.t); }
      StepMoves(s, e);
      StepKeepsLock(s, e);
      StepCounts(s, e);
      OwedAfter(s.threads, e.t, s'.threads[e.t]);
      PostingIsUnposted(s, s', e.t, s'.threads[e.t]);
      assert forall u :: u in s'.threads ==> u == e.t || s'.threads[u] == s.threads[u];
    }
  }

  lemma StepKeepsRoom(s: Pool, e: Turn)
    requires LockOk(s) && RoomOk(s)
    ensures RoomOk(Step(s, e))
  {
  }

  lemma StepKeepsOrder(s: Pool, e: Turn)
    requires OrderOk(s)
    ensures OrderOk(Step(s, e))
  {
  }

  /** A thread moves on without taking, running or dropping a job. */
  lemma MoveKeepsJobs(s: Pool, s': Pool, t: Tid, pc: Pc)
    requires JobsOk(s) && t in s.threads && forall id :: Carries(pc, id) <==> Carries(s.threads[t], id)
    requires s'.threads == s.threads[t := pc] && s'.takers == s.takers && s'.ran == s.ran
    ensures JobsOk(s')
  {
    forall u | u in s'.threads ensures CarryOk(s', u) { assert CarryOk(s, u); }
    forall id | 0 <= id < |s'.takers| ensures TakenOk(s', id) { assert TakenOk(s, id); }
  }

  lemma TakeKeepsJobs(s: Pool, s': Pool, t: Tid)
    requires JobsOk(s) && t in s.threads && s.threads[t].Unlinking?
    requires s'.threads == s.threads[t := Holding(|s.takers|)] && s'.takers == s.takers + [t] && s'.ran == s.ran
    ensures JobsOk(s')
  {
    forall u | u in s'.threads ensures CarryOk(s', u) { assert CarryOk(s, u); }
    forall id | 0 <= id < |s'.takers| ensures TakenOk(s', id) { assert id < |s.takers| ==> TakenOk(s, id); }
  }

  lemma RunKeepsJobs(s: Pool, s': Pool, t: Tid, id: Id)
    requires JobsOk(s) && t in s.threads && s.threads[t] == Running(id)
    requires s'.threads == s.threads[t := Freeing(id)] && s'.takers == s.takers && s'.ran == s.ran + [id]
    ensures JobsOk(s')
  {
    assert CarryOk(s, t) && Carries(s.threads[t], id);
    forall u | u in s'.threads ensures CarryOk(s', u) { assert CarryOk(s, u); }
    forall k | 0 <= k < |s'.takers| ensures TakenOk(s', k) { assert TakenOk(s, k); }
  }

  lemma OtherSteps(s: Pool, e: Turn)
    requires e.t in s.threads && !s.threads[e.t].Unlinking? && !s.threads[e.t].Running?
    ensures var s' := Step(s, e);
      && s'.takers == s.takers && s'.ran == s.ran && e.t in s'.threads
      && s'.threads == s.threads[e.t := s'.threads[e.t]]
      && forall id :: Carries(s'.threads[e.t], id) <==> Carries(s.threads[e.t], id)
  {
    StepThreads(s, e);
  }

  lemma StepKeepsJobs(s: Pool, e: Turn)
    requires OrderOk(s) && JobsOk(s)
    ensures JobsOk(Step(s, e))
  {
    if e.t in s.threads {
      var s' := Step(s, e);
      if s.threads[e.t].Running? {
        RunKeepsJobs(s, s', e.t, s.threads[e.t].id);
      } else if !s.threads[e.t].Unlinking? {
        OtherSteps(s, e);
        MoveKeepsJobs(s, s', e.t, s'.threads[e.t]);
      } else if s.requests != [] {
        TakeKeepsJobs(s, s', e.t);
      }
    }
  }

  lemma StepKeepsInv(s: Pool, e: Turn)
    requires Inv(s)
    ensures Inv(Step(s, e))
  {
    StepKeepsLock(s, e);
    StepKeepsCount(s, e);
    StepKeepsRoom(s, e);
    StepKeepsOrder(s, e);
    StepKeepsJobs(s, e);
  }
}
