/** Calls of lock and unlock from beginning to end: whoever calls lock queues up, and gets in. */
module McsCalls {
  import opened Wrappers
  import opened Sequences
  import opened McsLock
  import opened McsTheorems

  lemma RunCons(c: Config, t: Tid, schedule: seq<Tid>)
    ensures Run(c, [t] + schedule) == Run(Next(c, t), schedule)
  {
    assert ([t] + schedule)[1..] == schedule;
  }

  lemma RunTwo(c: Config, t: Tid, u: Tid)
    ensures Run(c, [t, u]) == Next(Next(c, t), u)
  {
    RunCons(c, t, [u]);
    RunCons(Next(c, t), u, []);
    assert [t] + [u] == [t, u] && [u] + [] == [u];
  }

  /** The first two steps of lock: the thread has exchanged the tail, and if nobody was there it has
      the lock at once. */
  lemma CallExchanges(c: Config, t: Tid)
    requires Inv(c) && t in c.s.nodes && c.s.nodes[t].pc.Idle?
    ensures var d := Run(c, [t, t]);
      && d.exchanged == c.exchanged + [t] && d.released == c.released && d.s.tail == Some(t)
      && d.entered == (if c.s.tail.None? then c.entered + [t] else c.entered)
      && t in d.s.nodes && (c.s.tail.None? ==> d.s.nodes[t].pc.Critical?)
  {
    RunTwo(c, t, t);
  }

  /** A call that finds the lock free and the unlock after it, four steps in all, leave it free again. */
  lemma LockAndUnlock(c: Config, t: Tid)
    requires Inv(c) && t in c.s.nodes && c.s.nodes[t].pc.Idle? && c.s.tail.None?
    ensures var d := Run(c, [t, t, t, t]);
      && d.exchanged == c.exchanged + [t] && d.entered == c.entered + [t] && d.released == c.released + [t]
      && d.s.tail.None? && t in d.s.nodes && d.s.nodes[t].pc.Idle?
  {
    CallExchanges(c, t);
    RunTwo(c, t, t);
    var d := Next(Next(c, t), t);
    assert d.s.nodes[t].next.None?;
    RunTwo(d, t, t);
    RunCons(c, t, [t, t, t]);
    RunCons(Next(c, t), t, [t, t]);
    assert [t, t, t, t] == [t] + [t, t, t] && [t, t, t] == [t] + [t, t];
  }

  /** t, about to exchange the tail, does so when it is scheduled, whatever the others do before. */
  lemma {:induction false} ReadyExchanges(c: Config, t: Tid, schedule: seq<Tid>) returns (n: nat)
    requires Inv(c) && t in c.s.nodes && c.s.nodes[t].pc.Ready? && t in schedule
    ensures |c.exchanged| <= n < |Run(c, schedule).exchanged| && Run(c, schedule).exchanged[n] == t
    decreases |schedule|
  {
    var u, d := schedule[0], Next(c, schedule[0]);
    NextKeepsInv(c, u);
    RunGrows(d, schedule[1..]);
    if u == t {
      n := |c.exchanged|;
    } else {
      NextEffect(c, u);
      n := ReadyExchanges(d, t, schedule[1..]);
    }
  }

  /** Whoever calls lock and is scheduled twice is in the queue's history, whatever the others do. */
  lemma {:induction false} IdleExchanges(c: Config, t: Tid, schedule: seq<Tid>) returns (n: nat)
    requires Inv(c) && t in c.s.nodes && c.s.nodes[t].pc.Idle? && multiset(schedule)[t] >= 2
    ensures |c.exchanged| <= n < |Run(c, schedule).exchanged| && Run(c, schedule).exchanged[n] == t
    decreases |schedule|
  {
    assert schedule == [schedule[0]] + schedule[1..];
    var u, d := schedule[0], Next(c, schedule[0]);
    NextKeepsInv(c, u);
    if u == t {
      n := ReadyExchanges(d, t, schedule[1..]);
    } else {
      NextEffect(c, u);
      n := IdleExchanges(d, t, schedule[1..]);
    }
  }

  lemma {:induction false} NoDupFits(q: seq<Tid>, threads: set<Tid>)
    requires NoDup(q) && forall t :: t in q ==> t in threads
    ensures |q| <= |threads|
    decreases |q|
  {
    if q != [] {
      assert q[0] in q && forall t :: t in q[1..] ==> t in q;
      NoDupFits(q[1..], threads - {q[0]});
    }
  }

  /** No call of lock waits for ever: an idle thread that takes two steps has, after as many fair rounds
      as seven for each thread there is, been in, in the turn that its exchange gave it. */
  lemma EveryCallerEnters(c: Config, t: Tid, schedule: seq<Tid>, rounds: seq<seq<Tid>>) returns (n: nat)
    requires Inv(c) && t in c.s.nodes && c.s.nodes[t].pc.Idle? && multiset(schedule)[t] >= 2
    requires forall r :: r in rounds ==> Fair(c.s.nodes.Keys, r)
    requires |rounds| >= 7 * |c.s.nodes.Keys|
    ensures var d := RunRounds(Run(c, schedule), rounds);
      |c.exchanged| <= n < |d.entered| && d.entered[n] == t
  {
    n := IdleExchanges(c, t, schedule);
    var d := Run(c, schedule);
    RunGrows(c, schedule);
    EnteredIsPrefix(d);
    if n < |d.entered| {
      RoundsKeepEntered(d, n, rounds);
    } else {
      NoDupFits(Queue(d), d.s.nodes.Keys);
      EveryWaiterEnters(d, n, rounds);
    }
  }
}
