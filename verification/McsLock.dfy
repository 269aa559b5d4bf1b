/** The MCS queue lock: every atomic operation of lock and unlock is one step, and
    a schedule decides which thread takes the next step. */
module McsLock {
  import opened Wrappers
  import opened Sequences

  type Tid = nat

  /** What a thread does next.  Thread t passes its own node, also named t, to lock and unlock. */
  datatype Pc =
    | Idle                  // outside; next: node->next = NULL
    | Ready                 // next: exchange the tail
    | Exchanged(prev: Tid)  // next: node->wait = WAIT
    | Linking(prev: Tid)    // next: prev->next = node
    | Spinning              // next: test node->wait
    | Critical              // lock has returned; next: unlock loads node->next
    | Releasing             // next: compare-and-swap the tail from node to NULL
    | AwaitLink             // the swap failed; next: load node->next again
    | Handing(succ: Tid)    // next: succ->wait = PROCEED

  datatype Flag = Proceed | Wait

  datatype Node = Node(next: Option<Tid>, wait: Flag, pc: Pc)

  /** Shared memory and program counters. `nodes` may hold any finite number of threads. */
  datatype State = State(tail: Option<Tid>, nodes: map<Tid, Node>)

  function SetPc(s: State, t: Tid, pc: Pc): State
    requires t in s.nodes
  {
    s.(nodes := s.nodes[t := s.nodes[t].(pc := pc)])
  }

  /** Stores through a pointer.  The invariant below shows that the pointer is always good. */
  function StoreNext(s: State, p: Tid, v: Tid): State {
    if p in s.nodes then s.(nodes := s.nodes[p := s.nodes[p].(next := Some(v))]) else s
  }

  function StoreProceed(s: State, p: Tid): State {
    if p in s.nodes then s.(nodes := s.nodes[p := s.nodes[p].(wait := Proceed)]) else s
  }

  /** One atomic operation of thread t; a spin that does not find what it waits for changes nothing. */
  function Step(s: State, t: Tid): State
  {
    if t !in s.nodes then s else
    var n := s.nodes[t];
    match n.pc
    case Idle => s.(nodes := s.nodes[t := n.(next := None, pc := Ready)])
    case Ready =>
      SetPc(s.(tail := Some(t)), t, if s.tail.None? then Critical else Exchanged(s.tail.value))
    case Exchanged(prev) => s.(nodes := s.nodes[t := n.(wait := Wait, pc := Linking(prev))])
    case Linking(prev) =>
      SetPc(StoreNext(s, prev, t), t, Spinning)
    case Spinning => if n.wait == Proceed then SetPc(s, t, Critical) else s
    case Critical => SetPc(s, t, if n.next.None? then Releasing else Handing(n.next.value))
    case Releasing => if s.tail == Some(t) then SetPc(s.(tail := None), t, Idle) else SetPc(s, t, AwaitLink)
    case AwaitLink => if n.next.None? then s else SetPc(s, t, Handing(n.next.value))
    case Handing(succ) => SetPc(StoreProceed(s, succ), t, Idle)
  }

  /** A state together with its history: who exchanged the tail, who returned from lock and who
      completed unlock, each in order. */
  datatype Config = Config(s: State, exchanged: seq<Tid>, entered: seq<Tid>, released: seq<Tid>)

  predicate InSection(pc: Pc) {
    pc.Critical? || pc.Releasing? || pc.AwaitLink? || pc.Handing?
  }

  function Next(c: Config, t: Tid): Config
  {
    var s' := Step(c.s, t);
    if t !in c.s.nodes then c else
    var before, after := c.s.nodes[t].pc, s'.nodes[t].pc;
    Config(s',
           if before.Ready? then c.exchanged + [t] else c.exchanged,
           if !InSection(before) && InSection(after) then c.entered + [t] else c.entered,
           if InSection(before) && !InSection(after) then c.released + [t] else c.released)
  }

  // ----- the invariant

  predicate Queued(pc: Pc) {
    !pc.Idle? && !pc.Ready?
  }

  /** The head holds the lock, or has been told to proceed. */
  ghost predicate HeadOk(s: State, q: seq<Tid>)
    requires |q| > 0 && forall t :: t in q ==> t in s.nodes
  {
    var n := s.nodes[q[0]];
    && (InSection(n.pc) || (n.pc.Spinning? && n.wait == Proceed))
    && (n.pc.AwaitLink? ==> |q| > 1)
    && (n.pc.Handing? ==> |q| > 1 && n.pc.succ == q[1] && s.nodes[q[1]].pc.Spinning?)
  }

  /** A thread behind pred is on its way to being linked behind pred, or spins. */
  ghost predicate WaiterOk(n: Node, pred: Tid) {
    || n.pc == Exchanged(pred)
    || (n.pc == Linking(pred) && n.wait == Wait)
    || (n.pc.Spinning? && n.wait == Wait)
  }

  /** The next pointer of q[i] is set exactly when its successor has linked itself. */
  ghost predicate LinkOk(s: State, q: seq<Tid>, i: nat)
    requires i < |q| && forall t :: t in q ==> t in s.nodes
  {
    s.nodes[q[i]].next ==
      if i + 1 < |q| && s.nodes[q[i + 1]].pc.Spinning? then Some(q[i + 1]) else None
  }

  /** The thread at position i waits for the one before it. */
  ghost predicate WaitOk(s: State, q: seq<Tid>, i: nat)
    requires 0 < i < |q| && forall t :: t in q ==> t in s.nodes
  {
    WaiterOk(s.nodes[q[i]], q[i - 1])
  }

  /** The queue q runs from the owner to the tail. */
  ghost predicate QueueInv(s: State, q: seq<Tid>) {
    && NoDup(q)
    && (forall t :: t in q ==> t in s.nodes)
    && (forall t :: t in s.nodes ==> (t in q <==> Queued(s.nodes[t].pc)))
    && (forall t :: t in s.nodes && s.nodes[t].pc.Ready? ==> s.nodes[t].next.None?)
    && s.tail == (if q == [] then None else Some(q[|q| - 1]))
    && (q != [] ==> HeadOk(s, q))
    && (forall i :: 1 <= i < |q| ==> WaitOk(s, q, i))
    && (forall i :: 0 <= i < |q| ==> LinkOk(s, q, i))
  }

  /** The queue: those who exchanged and have not yet released. */
  function Queue(c: Config): seq<Tid>
    requires |c.released| <= |c.exchanged|
  {
    c.exchanged[|c.released|..]
  }

  /** Those who entered are those who released and, while it holds the lock, the head. */
  ghost predicate HistoryOk(c: Config) {
    && c.released <= c.exchanged
    && (Queue(c) != [] ==> Queue(c)[0] in c.s.nodes)
    && c.entered == c.released + (if Queue(c) != [] && InSection(c.s.nodes[Queue(c)[0]].pc) then Queue(c)[..1] else [])
  }

  ghost predicate Inv(c: Config) {
    && HistoryOk(c)
    && QueueInv(c.s, Queue(c))
  }

  ghost predicate Init(c: Config) {
    && c.s.tail.None?
    && (forall t :: t in c.s.nodes ==> c.s.nodes[t].pc.Idle?)
    && c.exchanged == [] && c.entered == [] && c.released == []
  }

  lemma InitInv(c: Config)
    requires Init(c)
    ensures Inv(c)
  {
  }

  // One lemma per kind of step: how the queue changes, and that its invariant survives.

  lemma EnqueueKeepsQueue(s: State, q: seq<Tid>, t: Tid)
    requires QueueInv(s, q) && t in s.nodes && s.nodes[t].pc.Ready?
    ensures QueueInv(Step(s, t), q + [t])
  {
    var s', q' := Step(s, t), q + [t];
    assert forall i :: 0 <= i < |q| ==> q'[i] == q[i] && q[i] != t && s'.nodes[q[i]] == s.nodes[q[i]];
    forall i | 0 <= i < |q'|
      ensures LinkOk(s', q', i) && (i > 0 ==> WaitOk(s', q', i))
    {
      if i < |q| { assert LinkOk(s, q, i) && (i > 0 ==> WaitOk(s, q, i)); }
    }
  }

  lemma DequeueKeepsQueue(s: State, q: seq<Tid>, t: Tid)
    requires QueueInv(s, q) && t in s.nodes
    requires s.nodes[t].pc.Handing? || (s.nodes[t].pc.Releasing? && s.tail == Some(t))
    ensures q != [] && q[0] == t
    ensures QueueInv(Step(s, t), q[1..])
  {
    var s', q' := Step(s, t), q[1..];
    HeadIsInSection(s, q, t);
    assert LinkOk(s, q, 0);
    forall i | 0 <= i < |q'|
      ensures LinkOk(s', q', i)
    {
      assert LinkOk(s, q, i + 1);
    }
    forall i | 1 <= i < |q'|
      ensures WaitOk(s', q', i)
    {
      assert WaitOk(s, q, i + 1);
    }
    if |q| > 1 { assert WaitOk(s, q, 1); }
  }

  lemma BehindHead(s: State, q: seq<Tid>)
    requires QueueInv(s, q)
    ensures forall i :: 1 <= i < |q| ==>
      !InSection(s.nodes[q[i]].pc) && !(s.nodes[q[i]].pc.Spinning? && s.nodes[q[i]].wait == Proceed)
  {
    forall i | 1 <= i < |q|
      ensures !InSection(s.nodes[q[i]].pc) && !(s.nodes[q[i]].pc.Spinning? && s.nodes[q[i]].wait == Proceed)
    {
      assert WaitOk(s, q, i);
    }
  }

  /** Whoever is between the return of lock and the end of unlock is the head of the queue. */
  lemma HeadIsInSection(s: State, q: seq<Tid>, t: Tid)
    requires QueueInv(s, q) && t in s.nodes && InSection(s.nodes[t].pc)
    ensures q != [] && q[0] == t
  {
    assert t in q;
    BehindHead(s, q);
  }

  lemma LinkKeepsQueue(s: State, q: seq<Tid>, t: Tid)
    requires QueueInv(s, q) && t in s.nodes && s.nodes[t].pc.Linking?
    ensures exists i :: 1 <= i < |q| && q[i] == t && q[i - 1] == s.nodes[t].pc.prev
    ensures s.nodes[s.nodes[t].pc.prev].next.None?
    ensures QueueInv(Step(s, t), q)
  {
    var s' := Step(s, t);
    assert t in q;
    var k :| 0 <= k < |q| && q[k] == t;
    assert k > 0 && WaitOk(s, q, k);
    assert LinkOk(s, q, k - 1);
    forall i | 0 <= i < |q|
      ensures LinkOk(s', q, i) && (i > 0 ==> WaitOk(s', q, i))
    {
      assert LinkOk(s, q, i) && (i > 0 ==> WaitOk(s, q, i));
    }
  }

  lemma StoreWaitKeepsQueue(s: State, q: seq<Tid>, t: Tid)
    requires QueueInv(s, q) && t in s.nodes && s.nodes[t].pc.Exchanged?
    ensures QueueInv(Step(s, t), q)
  {
    var s' := Step(s, t);
    assert t in q && q[0] != t;
    var k :| 0 <= k < |q| && q[k] == t;
    assert WaitOk(s, q, k);
    forall i | 0 <= i < |q|
      ensures LinkOk(s', q, i) && (i > 0 ==> WaitOk(s', q, i))
    {
      assert LinkOk(s, q, i) && (i > 0 ==> WaitOk(s, q, i));
    }
  }

  /** Only the head finds PROCEED, and then it owns the lock. */
  lemma SpinKeepsQueue(s: State, q: seq<Tid>, t: Tid)
    requires QueueInv(s, q) && t in s.nodes && s.nodes[t].pc.Spinning?
    ensures QueueInv(Step(s, t), q)
    ensures s.nodes[t].wait == Proceed ==> q != [] && q[0] == t
  {
    var s' := Step(s, t);
    assert t in q;
    if s.nodes[t].wait == Proceed {
      BehindHead(s, q);
      forall i | 0 <= i < |q|
        ensures LinkOk(s', q, i) && (i > 0 ==> WaitOk(s', q, i))
      {
        assert LinkOk(s, q, i) && (i > 0 ==> WaitOk(s, q, i));
      }
    }
  }

  /** Steps of the owner that write no node but its own counter. */
  lemma OwnerKeepsQueue(s: State, q: seq<Tid>, t: Tid)
    requires QueueInv(s, q) && t in s.nodes
    requires var pc := s.nodes[t].pc;
      pc.Critical? || pc.AwaitLink? || (pc.Releasing? && s.tail != Some(t))
    ensures QueueInv(Step(s, t), q)
    ensures q != [] && q[0] == t && InSection(Step(s, t).nodes[t].pc)
  {
    var s' := Step(s, t);
    HeadIsInSection(s, q, t);
    assert LinkOk(s, q, 0);
    forall i | 0 <= i < |q|
      ensures LinkOk(s', q, i) && (i > 0 ==> WaitOk(s', q, i))
    {
      assert LinkOk(s, q, i) && (i > 0 ==> WaitOk(s, q, i));
    }
  }

  lemma IdleKeepsQueue(s: State, q: seq<Tid>, t: Tid)
    requires QueueInv(s, q) && t in s.nodes && s.nodes[t].pc.Idle?
    ensures QueueInv(Step(s, t), q)
  {
    var s' := Step(s, t);
    assert forall i :: 0 <= i < |q| ==> q[i] != t && s'.nodes[q[i]] == s.nodes[q[i]];
    forall i | 0 <= i < |q|
      ensures LinkOk(s', q, i) && (i > 0 ==> WaitOk(s', q, i))
    {
      assert LinkOk(s, q, i) && (i > 0 ==> WaitOk(s, q, i));
    }
  }

  /** A step that is neither an exchange nor the end of an unlock leaves the queue alone. */
  lemma StayKeepsQueue(s: State, q: seq<Tid>, t: Tid)
    requires QueueInv(s, q) && t in s.nodes
    requires var pc := s.nodes[t].pc;
      !pc.Ready? && !pc.Handing? && !(pc.Releasing? && s.tail == Some(t))
    ensures QueueInv(Step(s, t), q)
    ensures InSection(s.nodes[t].pc) ==> InSection(Step(s, t).nodes[t].pc)
  {
    match s.nodes[t].pc {
      case Idle => IdleKeepsQueue(s, q, t);
      case Linking(_) => LinkKeepsQueue(s, q, t);
      case Exchanged(_) => StoreWaitKeepsQueue(s, q, t);
      case Spinning => SpinKeepsQueue(s, q, t);
      case _ => OwnerKeepsQueue(s, q, t);
    }
  }

  lemma StayKeepsInv(c: Config, t: Tid)
    requires Inv(c) && t in c.s.nodes
    requires var pc := c.s.nodes[t].pc;
      !pc.Ready? && !pc.Handing? && !(pc.Releasing? && c.s.tail == Some(t))
    ensures Inv(Next(c, t)) && Queue(Next(c, t)) == Queue(c)
  {
    var q, s' := Queue(c), Step(c.s, t);
    StayKeepsQueue(c.s, q, t);
    if InSection(s'.nodes[t].pc) {
      HeadIsInSection(s', q, t);
      assert q[..1] == [t];
    }
  }

  lemma LeaveKeepsInv(c: Config, t: Tid)
    requires Inv(c) && t in c.s.nodes
    requires var pc := c.s.nodes[t].pc; pc.Handing? || (pc.Releasing? && c.s.tail == Some(t))
    ensures Inv(Next(c, t)) && Queue(c) != [] && Queue(c)[0] == t && Queue(Next(c, t)) == Queue(c)[1..]
  {
    var q := Queue(c);
    DequeueKeepsQueue(c.s, q, t);
    LeaveKeepsHistory(c, Next(c, t), t, q);
  }

  lemma LeaveKeepsHistory(c: Config, d: Config, t: Tid, q: seq<Tid>)
    requires HistoryOk(c) && q == Queue(c) && q != [] && q[0] == t && InSection(c.s.nodes[t].pc)
    requires d.exchanged == c.exchanged && d.entered == c.entered && d.released == c.released + [t]
    requires |q| > 1 ==> q[1] in d.s.nodes && !InSection(d.s.nodes[q[1]].pc)
    ensures HistoryOk(d) && Queue(d) == q[1..]
  {
    assert c.exchanged == c.released + q && q == [t] + q[1..];
    assert c.exchanged == d.released + q[1..];
    assert q[..1] == [t];
  }

  lemma EnterKeepsInv(c: Config, t: Tid)
    requires Inv(c) && t in c.s.nodes && c.s.nodes[t].pc.Ready?
    ensures Inv(Next(c, t)) && Queue(Next(c, t)) == Queue(c) + [t]
  {
    assert Queue(Next(c, t)) == Queue(c) + [t];
    EnqueueKeepsQueue(c.s, Queue(c), t);
    EnterKeepsHistory(c, t);
  }

  lemma EnterKeepsHistory(c: Config, t: Tid)
    requires t in c.s.nodes && c.s.nodes[t].pc.Ready? && HistoryOk(c)
    requires Queue(c) == [] <==> c.s.tail == None
    requires t !in Queue(c)
    ensures HistoryOk(Next(c, t))
  {
    var q, q' := Queue(c), Queue(c) + [t];
    assert Queue(Next(c, t)) == q';
    if q == [] {
      assert q'[..1] == [t];
    } else {
      assert q'[..1] == q[..1] && q[0] != t;
    }
  }

  /** The induction step of every safety result below. */
  lemma NextKeepsInv(c: Config, t: Tid)
    requires Inv(c)
    ensures Inv(Next(c, t))
  {
    if t in c.s.nodes {
      var pc := c.s.nodes[t].pc;
      if pc.Ready? {
        EnterKeepsInv(c, t);
      } else if pc.Handing? || (pc.Releasing? && c.s.tail == Some(t)) {
        LeaveKeepsInv(c, t);
      } else {
        StayKeepsInv(c, t);
      }
    }
  }
}
