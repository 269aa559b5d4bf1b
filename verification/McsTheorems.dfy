/** What the MCS lock promises over every schedule of every set of threads. */
module McsTheorems {
  import opened McsLock

  function Run(c: Config, schedule: seq<Tid>): Config
    decreases |schedule|
  {
    if schedule == [] then c else Run(Next(c, schedule[0]), schedule[1..])
  }

  lemma {:induction false} RunKeepsInv(c: Config, schedule: seq<Tid>)
    requires Inv(c)
    ensures Inv(Run(c, schedule))
    decreases |schedule|
  {
    if schedule != [] {
      NextKeepsInv(c, schedule[0]);
      RunKeepsInv(Next(c, schedule[0]), schedule[1..]);
    }
  }

  // ----- safety

  /** At most one thread is between the return of lock and the end of unlock. */
  lemma MutualExclusion(c: Config, schedule: seq<Tid>, a: Tid, b: Tid)
    requires Init(c)
    requires var s := Run(c, schedule).s;
      a in s.nodes && b in s.nodes && InSection(s.nodes[a].pc) && InSection(s.nodes[b].pc)
    ensures a == b
  {
    InitInv(c);
    RunKeepsInv(c, schedule);
    var c' := Run(c, schedule);
    HeadIsInSection(c'.s, Queue(c'), a);
    HeadIsInSection(c'.s, Queue(c'), b);
  }

  /** Threads enter in the order of their exchanges and leave in that order, and the lock never
      forgets an exchange: who has exchanged and not released is exactly who is queued. */
  lemma FirstComeFirstServed(c: Config, schedule: seq<Tid>)
    requires Init(c)
    ensures var c' := Run(c, schedule);
      && c'.released <= c'.entered <= c'.exchanged
      && |c'.entered| <= |c'.released| + 1
      && (forall t :: t in c'.s.nodes ==> (Queued(c'.s.nodes[t].pc) <==> t in c'.exchanged[|c'.released|..]))
  {
    InitInv(c);
    RunKeepsInv(c, schedule);
    EnteredIsPrefix(Run(c, schedule));
  }

  /** A link store hits the immediate predecessor, which is still queued and has no successor yet. */
  lemma LinkTarget(c: Config, t: Tid)
    requires Inv(c) && t in c.s.nodes && c.s.nodes[t].pc.Linking?
    ensures var p := c.s.nodes[t].pc.prev;
      && p in c.s.nodes && Queued(c.s.nodes[p].pc) && c.s.nodes[p].next.None?
      && exists i :: 0 < i < |Queue(c)| && Queue(c)[i] == t && Queue(c)[i - 1] == p
  {
    LinkKeepsQueue(c.s, Queue(c), t);
    var i :| 0 < i < |Queue(c)| && Queue(c)[i] == t && Queue(c)[i - 1] == c.s.nodes[t].pc.prev;
    assert Queue(c)[i - 1] in Queue(c);
  }

  /** A PROCEED store hits the immediate successor of the owner, which spins on WAIT. */
  lemma HandoverTarget(c: Config, t: Tid)
    requires Inv(c) && t in c.s.nodes && c.s.nodes[t].pc.Handing?
    ensures var n := c.s.nodes[t].pc.succ;
      && |Queue(c)| > 1 && Queue(c)[0] == t && Queue(c)[1] == n && n in c.s.nodes
      && c.s.nodes[n].pc.Spinning? && c.s.nodes[n].wait == Wait
  {
    HeadIsInSection(c.s, Queue(c), t);
    assert WaitOk(c.s, Queue(c), 1);
  }

  /** n has been told to proceed and has not looked yet. */
  predicate Granted(s: State, n: Tid) {
    n in s.nodes && s.nodes[n].pc.Spinning? && s.nodes[n].wait == Proceed
  }

  /** A granted lock is never taken back: whatever the others do, the next step of n enters. */
  lemma {:induction false} GrantPersists(c: Config, n: Tid, schedule: seq<Tid>)
    requires Inv(c) && Granted(c.s, n) && n !in schedule
    ensures var c' := Run(c, schedule);
      && Inv(c') && Granted(c'.s, n)
      && Next(c', n).entered == c'.entered + [n] && c'.entered == c.entered
    decreases |schedule|
  {
    if schedule != [] {
      GrantStays(c, n, schedule[0]);
      GrantPersists(Next(c, schedule[0]), n, schedule[1..]);
    }
  }

  lemma GrantStays(c: Config, n: Tid, u: Tid)
    requires Inv(c) && Granted(c.s, n) && u != n
    ensures Inv(Next(c, u)) && Granted(Next(c, u).s, n) && Next(c, u).entered == c.entered
  {
    NextKeepsInv(c, u);
    SpinKeepsQueue(c.s, Queue(c), n);
    if u in c.s.nodes { NotTheHead(c.s, Queue(c), u); }
  }

  /** Only the head of the queue is in the section, or may enter it. */
  lemma NotTheHead(s: State, q: seq<Tid>, u: Tid)
    requires QueueInv(s, q) && u in s.nodes && q != [] && u != q[0]
    ensures !InSection(s.nodes[u].pc) && !(s.nodes[u].pc.Spinning? && s.nodes[u].wait == Proceed)
    ensures s.tail.Some?
  {
    BehindHead(s, q);
    if Queued(s.nodes[u].pc) {
      assert u in q;
      var k :| 0 <= k < |q| && q[k] == u;
    }
  }

  // ----- progress

  /** A bound on the steps a queued thread still has to take. */
  function Weight(pc: Pc): nat {
    match pc
    case Idle => 0
    case Ready => 0
    case Exchanged(_) => 7
    case Linking(_) => 6
    case Spinning => 5
    case Critical => 4
    case Releasing => 3
    case AwaitLink => 2
    case Handing(_) => 1
  }

  function Rank(s: State, q: seq<Tid>): (r: nat)
    ensures r <= 7 * |q|
  {
    if q == [] then 0
    else (if q[0] in s.nodes then Weight(s.nodes[q[0]].pc) else 0) + Rank(s, q[1..])
  }

  /** A step of t that is not a spin on a value that has not changed yet. */
  predicate Productive(s: State, t: Tid) {
    && t in s.nodes
    && !(s.nodes[t].pc.Spinning? && s.nodes[t].wait == Wait)
    && !(s.nodes[t].pc.AwaitLink? && s.nodes[t].next.None?)
  }

  /** The n-th exchange of the run has happened and its thread has not entered yet. */
  predicate Pending(c: Config, n: nat) {
    |c.entered| <= n < |c.exchanged|
  }

  /** The part of the queue up to the thread of the n-th exchange. */
  function Ahead(c: Config, n: nat): seq<Tid>
    requires |c.released| <= n < |c.exchanged|
  {
    c.exchanged[|c.released|..n + 1]
  }

  lemma {:induction false} RankFrame(s: State, s': State, q: seq<Tid>, u: Tid)
    requires forall t :: t in q ==> t in s.nodes && t in s'.nodes
    requires forall t :: t in q && t != u ==> s'.nodes[t].pc == s.nodes[t].pc
    requires u in q ==> Weight(s'.nodes[u].pc) <= Weight(s.nodes[u].pc)
    ensures Rank(s', q) <= Rank(s, q)
    ensures u in q && Weight(s'.nodes[u].pc) < Weight(s.nodes[u].pc) ==> Rank(s', q) < Rank(s, q)
  {
    if q != [] {
      assert forall t :: t in q[1..] ==> t in q;
      if u in q && u != q[0] { assert u in q[1..]; }
      RankFrame(s, s', q[1..], u);
    }
  }

  /** What the progress argument needs to know of a step of u from c to d. */
  ghost predicate Effect(c: Config, d: Config, u: Tid) {
    && d.s.nodes.Keys == c.s.nodes.Keys
    && (forall t :: t in c.s.nodes && t != u ==> d.s.nodes[t].pc == c.s.nodes[t].pc)
    && (u in c.s.nodes && Queued(c.s.nodes[u].pc) ==>
          Weight(d.s.nodes[u].pc) <= Weight(c.s.nodes[u].pc) - if Productive(c.s, u) then 1 else 0)
    && c.exchanged <= d.exchanged && c.entered <= d.entered && |c.released| <= |c.exchanged|
    && |d.released| <= |c.entered|
    && (d.released == c.released || (Queue(c) != [] && Queue(c)[0] == u && |d.released| == |c.released| + 1))
  }

  lemma StepWeights(s: State, u: Tid)
    ensures Step(s, u).nodes.Keys == s.nodes.Keys
    ensures forall t :: t in s.nodes && t != u ==> Step(s, u).nodes[t].pc == s.nodes[t].pc
    ensures u in s.nodes && Queued(s.nodes[u].pc) ==>
      Weight(Step(s, u).nodes[u].pc) <= Weight(s.nodes[u].pc) - if Productive(s, u) then 1 else 0
  {
  }

  lemma NextEffect(c: Config, u: Tid)
    requires Inv(c)
    ensures Inv(Next(c, u)) && Effect(c, Next(c, u), u)
  {
    NextKeepsInv(c, u);
    StepWeights(c.s, u);
    if u in c.s.nodes && InSection(c.s.nodes[u].pc) {
      HeadIsInSection(c.s, Queue(c), u);
    }
  }

  lemma AheadInQueue(c: Config, n: nat)
    requires Inv(c) && |c.released| <= n < |c.exchanged|
    ensures Ahead(c, n) <= Queue(c)
    ensures forall t :: t in Ahead(c, n) ==> t in c.s.nodes && Queued(c.s.nodes[t].pc)
  {
    assert Ahead(c, n) == Queue(c)[..n + 1 - |c.released|];
  }

  /** No step of any thread, not even a new exchange, lets the measure of a pending thread grow;
      a productive step of a thread at or ahead of it makes the measure smaller. */
  lemma StepMeasure(c: Config, d: Config, n: nat, u: Tid)
    requires Inv(c) && Effect(c, d, u) && Pending(c, n)
    ensures |d.released| <= n < |d.exchanged|
    ensures Rank(d.s, Ahead(d, n)) <= Rank(c.s, Ahead(c, n))
    ensures u in Ahead(c, n) && Productive(c.s, u) ==> Rank(d.s, Ahead(d, n)) < Rank(c.s, Ahead(c, n))
  {
    AheadInQueue(c, n);
    assert Ahead(c, n)[0] == Queue(c)[0];
    SameAhead(c.exchanged, d.exchanged, |c.released|, n + 1);
    RankDrops(c.s, d.s, Ahead(c, n), Ahead(d, n), u);
  }

  /** The measure of a part of the queue, or of what is left of it when u was its head and has gone. */
  lemma RankDrops(s: State, s': State, a: seq<Tid>, a': seq<Tid>, u: Tid)
    requires forall t :: t in a ==> t in s.nodes && t in s'.nodes
    requires forall t :: t in a && t != u ==> s'.nodes[t].pc == s.nodes[t].pc
    requires u in a ==> Weight(s'.nodes[u].pc) <= Weight(s.nodes[u].pc)
    requires a' == a || (a != [] && a' == a[1..])
    ensures Rank(s', a') <= Rank(s, a)
    ensures u in a && Weight(s'.nodes[u].pc) < Weight(s.nodes[u].pc) ==> Rank(s', a') < Rank(s, a)
  {
    RankFrame(s, s', a, u);
  }

  lemma SameAhead(before: seq<Tid>, after: seq<Tid>, lo: nat, hi: nat)
    requires before <= after && lo < hi <= |before|
    ensures after[lo..hi] == before[lo..hi] && after[lo + 1..hi] == before[lo..hi][1..]
  {
    assert after[..|before|] == before;
    assert after[lo..hi] == after[..|before|][lo..hi];
  }

  /** No deadlock: while a thread waits, one at or ahead of it has a productive step. */
  lemma SomeoneCanMove(c: Config, n: nat) returns (u: Tid)
    requires Inv(c) && Pending(c, n)
    ensures u in Ahead(c, n) && Productive(c.s, u)
  {
    var q, a := Queue(c), Ahead(c, n);
    AheadInQueue(c, n);
    u := q[0];
    assert a[0] == q[0];
    if !Productive(c.s, u) {
      assert c.s.nodes[u].pc.AwaitLink? && |q| > 1;
      assert LinkOk(c.s, q, 0) && WaitOk(c.s, q, 1);
      u := q[1];
      assert a[1] == q[1];
    }
  }

  /** What can move stays able to move until it does. */
  lemma ProductivePersists(c: Config, n: nat, u: Tid, v: Tid)
    requires Inv(c) && Pending(c, n) && u in Ahead(c, n) && Productive(c.s, u) && v != u
    ensures var d := Next(c, v); |d.released| <= n < |d.exchanged| && u in Ahead(d, n) && Productive(d.s, u)
  {
    NextEffect(c, v);
    StillProductive(c, u, v);
    StillAhead(c, Next(c, v), n, u, v);
  }

  lemma StillAhead(c: Config, d: Config, n: nat, u: Tid, v: Tid)
    requires Effect(c, d, v) && Pending(c, n) && u in Ahead(c, n) && v != u
    ensures |d.released| <= n < |d.exchanged| && u in Ahead(d, n)
  {
    assert Ahead(c, n)[0] == Queue(c)[0];
    SameAhead(c.exchanged, d.exchanged, |c.released|, n + 1);
  }

  lemma StillProductive(c: Config, u: Tid, v: Tid)
    requires Productive(c.s, u) && v != u
    ensures Productive(Step(c.s, v), u)
  {
  }

  lemma {:induction false} RunMeasure(c: Config, n: nat, schedule: seq<Tid>)
    requires Inv(c) && Pending(c, n) && Pending(Run(c, schedule), n)
    ensures |Run(c, schedule).released| <= n
    ensures Rank(Run(c, schedule).s, Ahead(Run(c, schedule), n)) <= Rank(c.s, Ahead(c, n))
    decreases |schedule|
  {
    if schedule != [] {
      var d := Next(c, schedule[0]);
      NextEffect(c, schedule[0]);
      StepMeasure(c, d, n, schedule[0]);
      RunGrows(d, schedule[1..]);
      RunMeasure(d, n, schedule[1..]);
    }
  }

  lemma {:induction false} RunGrows(c: Config, schedule: seq<Tid>)
    requires Inv(c)
    ensures var c' := Run(c, schedule);
      Inv(c') && c'.s.nodes.Keys == c.s.nodes.Keys && c.entered <= c'.entered && c.exchanged <= c'.exchanged
    decreases |schedule|
  {
    if schedule != [] {
      NextEffect(c, schedule[0]);
      RunGrows(Next(c, schedule[0]), schedule[1..]);
    }
  }

  /** Once u, which can move and is not behind the n-th exchange, is scheduled, the measure drops. */
  lemma {:induction false} RoundDrops(c: Config, n: nat, u: Tid, round: seq<Tid>)
    requires Inv(c) && Pending(c, n) && u in Ahead(c, n) && Productive(c.s, u) && u in round
    requires Pending(Run(c, round), n)
    ensures |Run(c, round).released| <= n
    ensures Rank(Run(c, round).s, Ahead(Run(c, round), n)) < Rank(c.s, Ahead(c, n))
    decreases |round|
  {
    var v, d := round[0], Next(c, round[0]);
    NextEffect(c, v);
    StepMeasure(c, d, n, v);
    RunGrows(d, round[1..]);
    if v == u {
      RunMeasure(d, n, round[1..]);
    } else {
      ProductivePersists(c, n, u, v);
      RoundDrops(d, n, u, round[1..]);
    }
  }

  function RunRounds(c: Config, rounds: seq<seq<Tid>>): Config
    decreases |rounds|
  {
    if rounds == [] then c else RunRounds(Run(c, rounds[0]), rounds[1..])
  }

  /** A round is fair when it schedules every thread at least once, the owner included. */
  ghost predicate Fair(threads: set<Tid>, round: seq<Tid>) {
    forall t :: t in threads ==> t in round
  }

  /** No starvation: whatever has been exchanged and however many exchanges follow, the thread of the
      n-th exchange has entered, in its turn, after 7 * (threads not behind it) fair rounds. */
  lemma {:induction false} EveryWaiterEnters(c: Config, n: nat, rounds: seq<seq<Tid>>)
    requires Inv(c) && |c.released| <= n < |c.exchanged|
    requires forall r :: r in rounds ==> Fair(c.s.nodes.Keys, r)
    requires |rounds| >= 7 * (n + 1 - |c.released|)
    ensures var c' := RunRounds(c, rounds); n < |c'.entered| && c'.entered[n] == c.exchanged[n]
  {
    WaiterEntersWithin(c, n, rounds);
  }

  lemma {:induction false} WaiterEntersWithin(c: Config, n: nat, rounds: seq<seq<Tid>>)
    requires Inv(c) && |c.released| <= n < |c.exchanged|
    requires forall r :: r in rounds ==> Fair(c.s.nodes.Keys, r)
    requires |rounds| >= Rank(c.s, Ahead(c, n))
    ensures var c' := RunRounds(c, rounds); n < |c'.entered| && c'.entered[n] == c.exchanged[n]
    decreases |rounds|
  {
    if !Pending(c, n) {
      RoundsKeepEntered(c, n, rounds);
    } else if rounds == [] {
      RankPositive(c, n);
    } else {
      assert rounds[0] in rounds;
      FairRound(c, n, rounds[0]);
      var d := Run(c, rounds[0]);
      if Pending(d, n) {
        WaiterEntersWithin(d, n, rounds[1..]);
      } else {
        RoundsKeepEntered(d, n, rounds[1..]);
      }
    }
  }

  lemma FairRound(c: Config, n: nat, round: seq<Tid>)
    requires Inv(c) && Pending(c, n)
    requires Fair(c.s.nodes.Keys, round)
    ensures var d := Run(c, round);
      && Inv(d) && d.s.nodes.Keys == c.s.nodes.Keys && c.exchanged <= d.exchanged
      && (Pending(d, n) ==> |d.released| <= n && Rank(d.s, Ahead(d, n)) < Rank(c.s, Ahead(c, n)))
  {
    RunGrows(c, round);
    if Pending(Run(c, round), n) {
      var u := SomeoneCanMove(c, n);
      AheadInQueue(c, n);
      RoundDrops(c, n, u, round);
    }
  }

  lemma RankPositive(c: Config, n: nat)
    requires Inv(c) && Pending(c, n)
    ensures Rank(c.s, Ahead(c, n)) > 0
  {
    var a := Ahead(c, n);
    AheadInQueue(c, n);
    assert a[0] in a;
  }

  lemma {:induction false} RoundsKeepEntered(c: Config, n: nat, rounds: seq<seq<Tid>>)
    requires Inv(c) && n < |c.entered|
    ensures var c' := RunRounds(c, rounds); n < |c'.entered| && n < |c.exchanged| && c'.entered[n] == c.exchanged[n]
    decreases |rounds|
  {
    EnteredIsPrefix(c);
    if rounds != [] {
      RunGrows(c, rounds[0]);
      RoundsKeepEntered(Run(c, rounds[0]), n, rounds[1..]);
    }
  }

  lemma EnteredIsPrefix(c: Config)
    requires Inv(c)
    ensures c.released <= c.entered <= c.exchanged
  {
    var q := Queue(c);
    assert c.exchanged == c.released + q;
    if q != [] { HeadBehind(c.released, q, c.exchanged); }
  }

  lemma HeadBehind(a: seq<Tid>, q: seq<Tid>, all: seq<Tid>)
    requires q != [] && all == a + q
    ensures a <= a + q[..1] <= all
  {
    assert q == q[..1] + q[1..];
    assert all == (a + q[..1]) + q[1..];
  }
}
