/** Read-copy-update: readers that mark a parity bit, updaters that publish a version, wait for a
    grace period and free the old version.  One shared-memory operation per event. */
module Rcu {
  import opened Wrappers
  import opened Bytes

  type Rid = nat
  type Uid = nat
  type Version = nat

  /** Where a reader is.  rcu_read_lock is two operations: load the index, then set the bit. */
  datatype Place = Outside | Loaded(index: nat) | Inside

  /** A registered thread: its two nesting bits, and the versions it has dereferenced in this section. */
  datatype Reader = Reader(place: Place, bit0: bool, bit1: bool, held: set<Version>)

  /** Where an updater is.  `todo` are the nodes a scan has yet to pass; `pre` are the readers whose
      section was open when the updater took the lock and has not ended since. */
  datatype Phase =
    | Resting
    | Swapped(prior: Version)
    | FirstScan(prior: Version, todo: seq<Rid>, pre: set<Rid>)
    | SecondScan(prior: Version, index: nat, todo: seq<Rid>, pre: set<Rid>)
    | Returned(prior: Version, pre: set<Rid>)

  datatype State = State(
    index: nat, lock: Option<Uid>, nodes: seq<Rid>,
    readers: map<Rid, Reader>, updaters: map<Uid, Phase>,
    current: Version, used: set<Version>, freed: set<Version>)

  datatype Event =
    | Load(r: Rid) | SetBit(r: Rid) | Dereference(r: Rid) | Unlock(r: Rid)
    | Assign(u: Uid, v: Version) | TakeLock(u: Uid) | Scan(u: Uid) | Flip(u: Uid) | DropLock(u: Uid) | Free(u: Uid)

  /** rcu_nesting(np, idx) */
  predicate Nesting(rd: Reader, index: nat) {
    if index % 2 == 0 then rd.bit0 else rd.bit1
  }

  function SetNesting(rd: Reader, index: nat): Reader {
    if index % 2 == 0 then rd.(place := Inside, bit0 := true) else rd.(place := Inside, bit1 := true)
  }

  predicate InSection(s: State, r: Rid) {
    r in s.readers && s.readers[r].place.Inside?
  }

  function Leave(ph: Phase, r: Rid): Phase {
    match ph
    case FirstScan(o, todo, pre) => FirstScan(o, todo, pre - {r})
    case SecondScan(o, i, todo, pre) => SecondScan(o, i, todo, pre - {r})
    case Returned(o, pre) => Returned(o, pre - {r})
    case _ => ph
  }

  /** The history variables `pre` follow the end of r's section. */
  function LeaveAll(updaters: map<Uid, Phase>, r: Rid): map<Uid, Phase> {
    map u | u in updaters :: Leave(updaters[u], r)
  }

  function ReaderStep(s: State, r: Rid, e: Event): State
    requires r in s.readers
  {
    var rd := s.readers[r];
    match e
    case Load(_) =>
      if rd.place.Outside? then s.(readers := s.readers[r := rd.(place := Loaded(s.index))]) else s
    case SetBit(_) =>
      if rd.place.Loaded? then s.(readers := s.readers[r := SetNesting(rd, rd.place.index)]) else s
    case Dereference(_) =>
      if rd.place.Inside? then s.(readers := s.readers[r := rd.(held := rd.held + {s.current})]) else s
    case Unlock(_) =>
      if rd.place.Inside? then
        s.(readers := s.readers[r := Reader(Outside, false, false, {})], updaters := LeaveAll(s.updaters, r))
      else s
    case _ => s
  }

  function OpenSections(s: State): set<Rid> {
    set r | r in s.readers && InSection(s, r)
  }

  /** A busy-wait that still sees the bit changes nothing. */
  function UpdaterStep(s: State, u: Uid, e: Event): State
    requires u in s.updaters
  {
    var ph := s.updaters[u];
    match e
    case Assign(_, v) =>
      if ph.Resting? && v !in s.used then
        s.(updaters := s.updaters[u := Swapped(s.current)], current := v, used := s.used + {v})
      else s
    case TakeLock(_) =>
      if ph.Swapped? && s.lock.None? then
        s.(updaters := s.updaters[u := FirstScan(ph.prior, s.nodes, OpenSections(s))], lock := Some(u))
      else s
    case Scan(_) =>
      if ph.FirstScan? && ph.todo != [] && ph.todo[0] in s.readers && !Nesting(s.readers[ph.todo[0]], s.index) then
        s.(updaters := s.updaters[u := FirstScan(ph.prior, ph.todo[1..], ph.pre)])
      else if ph.SecondScan? && ph.todo != [] && ph.todo[0] in s.readers
          && !Nesting(s.readers[ph.todo[0]], ph.index) then
        s.(updaters := s.updaters[u := SecondScan(ph.prior, ph.index, ph.todo[1..], ph.pre)])
      else s
    case Flip(_) =>
      if ph.FirstScan? && ph.todo == [] then
        s.(updaters := s.updaters[u := SecondScan(ph.prior, s.index, s.nodes, ph.pre)], index := (s.index + 1) % WORD)
      else s
    case DropLock(_) =>
      if ph.SecondScan? && ph.todo == [] then
        s.(updaters := s.updaters[u := Returned(ph.prior, ph.pre)], lock := None)
      else s
    case Free(_) =>
      if ph.Returned? then s.(updaters := s.updaters[u := Resting], freed := s.freed + {ph.prior}) else s
    case _ => s
  }

  predicate OfReader(e: Event) {
    e.Load? || e.SetBit? || e.Dereference? || e.Unlock?
  }

  /** One event; an event that its thread cannot perform changes nothing. */
  function Apply(s: State, e: Event): State {
    if OfReader(e) then (if e.r in s.readers then ReaderStep(s, e.r, e) else s)
    else if e.u in s.updaters then UpdaterStep(s, e.u, e) else s
  }

  function Run(s: State, events: seq<Event>): State
    decreases |events|
  {
    if events == [] then s else Run(Apply(s, events[0]), events[1..])
  }

  lemma {:induction false} RunAppend(s: State, a: seq<Event>, b: seq<Event>)
    ensures Run(s, a + b) == Run(Run(s, a), b)
    decreases |a|
  {
    if a == [] {
      assert a + b == b;
    } else {
      assert (a + b)[0] == a[0] && (a + b)[1..] == a[1..] + b;
      RunAppend(Apply(s, a[0]), a[1..], b);
    }
  }

  lemma RunOne(s: State, e: Event)
    ensures Run(s, [e]) == Apply(s, e)
  {
    assert [e][1..] == [];
  }

  lemma RunTwo(s: State, e: Event, f: Event)
    ensures Run(s, [e, f]) == Apply(Apply(s, e), f)
  {
    assert [e, f][1..] == [f];
    RunOne(Apply(s, e), f);
  }

  // ----- what always holds

  ghost predicate BitsOk(rd: Reader) {
    if rd.place.Inside? then rd.bit0 != rd.bit1 else !rd.bit0 && !rd.bit1 && rd.held == {}
  }

  predicate HasOld(ph: Phase) {
    !ph.Resting?
  }

  predicate Locking(ph: Phase) {
    ph.FirstScan? || ph.SecondScan?
  }

  ghost predicate Basic(s: State) {
    && s.index < WORD
    && (forall r :: r in s.readers <==> r in s.nodes)
    && (forall r :: r in s.readers ==> BitsOk(s.readers[r]) && s.readers[r].held <= s.used)
    && (forall u :: u in s.updaters ==> (s.lock == Some(u) <==> Locking(s.updaters[u])))
    && s.current in s.used && s.current !in s.freed && s.freed <= s.used
    && (forall u :: u in s.updaters && HasOld(s.updaters[u]) ==>
          s.updaters[u].prior in s.used && s.updaters[u].prior != s.current && s.updaters[u].prior !in s.freed)
    && (forall u, w ::
          u in s.updaters && w in s.updaters && u != w && HasOld(s.updaters[u]) && HasOld(s.updaters[w]) ==>
          s.updaters[u].prior != s.updaters[w].prior)
  }

  ghost predicate Init(s: State) {
    && s.index < WORD && s.lock.None? && s.freed == {} && s.used == {s.current}
    && (forall r :: r in s.readers <==> r in s.nodes)
    && (forall r :: r in s.readers ==> s.readers[r] == Reader(Outside, false, false, {}))
    && (forall u :: u in s.updaters ==> s.updaters[u].Resting?)
  }

  lemma ReaderKeepsBasic(s: State, r: Rid, e: Event)
    requires Basic(s) && r in s.readers
    ensures Basic(ReaderStep(s, r, e))
  {
    ReaderMoves(s, r, e);
    PhasesKept(s.updaters, r);
    ReaderFits(s, ReaderStep(s, r, e), r, ReaderStep(s, r, e).readers[r]);
  }

  /** A reader's event changes the reader only, and at the end of its section the history. */
  lemma ReaderMoves(s: State, r: Rid, e: Event)
    requires r in s.readers && BitsOk(s.readers[r]) && s.readers[r].held <= s.used && s.current in s.used
    ensures r in ReaderStep(s, r, e).readers
    ensures var s' := ReaderStep(s, r, e);
      && s' == s.(readers := s.readers[r := s'.readers[r]], updaters := s'.updaters)
      && (s'.updaters == s.updaters || s'.updaters == LeaveAll(s.updaters, r))
      && BitsOk(s'.readers[r]) && s'.readers[r].held <= s.used
  {
  }

  /** The same phases, but for the history. */
  ghost predicate SamePhases(a: map<Uid, Phase>, b: map<Uid, Phase>) {
    && (forall u :: u in a <==> u in b)
    && forall u :: u in a ==>
         && (Locking(b[u]) <==> Locking(a[u])) && (HasOld(b[u]) <==> HasOld(a[u]))
         && (HasOld(a[u]) ==> b[u].prior == a[u].prior)
  }

  lemma PhasesKept(us: map<Uid, Phase>, r: Rid)
    ensures SamePhases(us, us) && SamePhases(us, LeaveAll(us, r))
  {
  }

  lemma ReaderFits(s: State, s': State, r: Rid, rd: Reader)
    requires Basic(s) && r in s.readers && BitsOk(rd) && rd.held <= s.used && SamePhases(s.updaters, s'.updaters)
    requires s' == s.(readers := s.readers[r := rd], updaters := s'.updaters)
    ensures Basic(s')
  {
  }

  lemma UpdaterKeepsBasic(s: State, u: Uid, e: Event)
    requires Basic(s) && u in s.updaters
    ensures Basic(UpdaterStep(s, u, e))
  {
  }

  lemma ApplyKeepsBasic(s: State, e: Event)
    requires Basic(s)
    ensures Basic(Apply(s, e))
  {
    if OfReader(e) {
      if e.r in s.readers { ReaderKeepsBasic(s, e.r, e); }
    } else if e.u in s.updaters { UpdaterKeepsBasic(s, e.u, e); }
  }
}
