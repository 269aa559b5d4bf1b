/** What single threads get done: readers never wait for anyone, and an update without readers goes
    through. */
module RcuReaders {
  import opened Wrappers
  import opened Bytes
  import opened Rcu
  import opened RcuExact

  /** A phase without its history. */
  function Forget(ph: Phase): Phase {
    match ph
    case FirstScan(o, todo, _) => FirstScan(o, todo, {})
    case SecondScan(o, i, todo, _) => SecondScan(o, i, todo, {})
    case Returned(o, _) => Returned(o, {})
    case _ => ph
  }

  /** From s to t only reader r has changed, and the history of whom updaters wait for. */
  ghost predicate OnlyReader(s: State, t: State, r: Rid) {
    && t == s.(readers := t.readers, updaters := t.updaters)
    && t.readers.Keys == s.readers.Keys && (forall x :: x in s.readers && x != r ==> t.readers[x] == s.readers[x])
    && t.updaters.Keys == s.updaters.Keys
    && forall u :: u in s.updaters ==> Forget(t.updaters[u]) == Forget(s.updaters[u])
  }

  /** Reader r is in a section that it entered at this index, and has read these versions. */
  predicate Reads(s: State, r: Rid, index: nat, held: set<Version>) {
    r in s.readers && s.readers[r] == Reader(Inside, index % 2 == 0, index % 2 == 1, held)
  }

  predicate Rests(s: State, r: Rid) {
    r in s.readers && s.readers[r] == Reader(Outside, false, false, {})
  }

  /** A reader's event changes no one else. */
  lemma ReadersChangeNoOneElse(s: State, e: Event)
    requires OfReader(e)
    ensures OnlyReader(s, Apply(s, e), e.r)
  {
  }

  /** What a reader's event does to the readers depends neither on the lock nor on the updaters. */
  lemma ReadersHeedNoUpdater(s: State, t: State, e: Event)
    requires OfReader(e) && t.readers == s.readers && t.index == s.index && t.current == s.current
    ensures Apply(t, e).readers == Apply(s, e).readers
  {
  }

  lemma OnlyTwice(s: State, t: State, u: State, r: Rid)
    requires OnlyReader(s, t, r) && OnlyReader(t, u, r)
    ensures OnlyReader(s, u, r)
  {
  }

  predicate NotOf(e: Event, r: Rid) {
    OfReader(e) ==> e.r != r
  }

  lemma {:induction false} OthersKeepReader(s: State, es: seq<Event>, r: Rid)
    requires r in s.readers && forall e :: e in es ==> NotOf(e, r)
    ensures r in Run(s, es).readers && Run(s, es).readers[r] == s.readers[r]
    decreases |es|
  {
    if es != [] {
      assert es[0] in es && NotOf(es[0], r);
      OthersKeepReader(Apply(s, es[0]), es[1..], r);
    }
  }

  /** The same with any events of others in between: the bit is that of the parity at the load, and the
      version read is the one that is current then. */
  lemma SectionAmongOthers(s: State, r: Rid, a: seq<Event>, b: seq<Event>, c: seq<Event>)
    requires Rests(s, r) && forall e :: e in a || e in b || e in c ==> NotOf(e, r)
    ensures var s1 := Run(Apply(s, Load(r)), a);
      var s2 := Run(Apply(s1, SetBit(r)), b);
      var s3 := Run(Apply(s2, Dereference(r)), c);
      Reads(s2, r, s.index, {}) && Reads(s3, r, s.index, {s2.current}) && Rests(Apply(s3, Unlock(r)), r)
  {
    OthersKeepReader(Apply(s, Load(r)), a, r);
    var s1 := Run(Apply(s, Load(r)), a);
    OthersKeepReader(Apply(s1, SetBit(r)), b, r);
    var s2 := Run(Apply(s1, SetBit(r)), b);
    OthersKeepReader(Apply(s2, Dereference(r)), c, r);
  }

  /** Readers never wait: in any state three events take a reader into its section, with the bit of the
      current parity set and no other, and with the version that is current in its hands; and one takes
      it out. */
  lemma ReadersNeverWait(s: State, r: Rid)
    requires Basic(s) && r in s.readers && s.readers[r].place.Outside?
    ensures var t := Run(s, [Load(r), SetBit(r), Dereference(r)]);
      && Reads(t, r, s.index, {s.current}) && OnlyReader(s, t, r)
      && Rests(Apply(t, Unlock(r)), r) && OnlyReader(s, Apply(t, Unlock(r)), r)
  {
    assert BitsOk(s.readers[r]);
    var a := Apply(s, Load(r));
    var b := Apply(a, SetBit(r));
    var t := Apply(b, Dereference(r));
    ReaderRun(s, r, a, b, t);
    SectionAmongOthers(s, r, [], [], []);
  }

  lemma ReaderRun(s: State, r: Rid, a: State, b: State, t: State)
    requires a == Apply(s, Load(r)) && b == Apply(a, SetBit(r)) && t == Apply(b, Dereference(r))
    ensures Run(s, [Load(r), SetBit(r), Dereference(r)]) == t
    ensures OnlyReader(s, b, r) && OnlyReader(s, t, r) && OnlyReader(s, Apply(t, Unlock(r)), r)
  {
    RunCons(s, Load(r), a, [SetBit(r), Dereference(r)]);
    RunTwo(a, SetBit(r), Dereference(r));
    assert [Load(r)] + [SetBit(r), Dereference(r)] == [Load(r), SetBit(r), Dereference(r)];
    ReadersChangeNoOneElse(s, Load(r));
    ReadersChangeNoOneElse(a, SetBit(r));
    ReadersChangeNoOneElse(b, Dereference(r));
    ReadersChangeNoOneElse(t, Unlock(r));
    OnlyTwice(s, a, b, r);
    OnlyTwice(s, b, t, r);
    OnlyTwice(s, t, Apply(t, Unlock(r)), r);
  }

  // ----- an update without readers

  /** What an update by u makes of s: v is published, the version before is freed, and the parity has
      changed. */
  function Updated(s: State, v: Version): State {
    s.(index := (s.index + 1) % WORD, current := v, used := s.used + {v}, freed := s.freed + {s.current})
  }

  /** With the lock free and nobody in a section, an update goes through by its own steps alone. */
  lemma UpdateGoesThrough(s: State, u: Uid, v: Version) returns (es: seq<Event>)
    requires Basic(s) && u in s.updaters && s.updaters[u].Resting? && s.lock.None? && v !in s.used
    requires forall r :: r in s.readers ==> !s.readers[r].place.Inside?
    ensures Run(s, es) == Updated(s, v) && By(es, u)
  {
    NoBits(s);
    var p, s1 := FirstSteps(s, u, v);
    var a, s2 := ScanAll(s, s1, u, FirstScan(s.current, s.nodes, {}), s.index, v);
    var q, s3 := FlipAll(s, s2, u, v);
    var b, s4 := ScanAll(s, s3, u, SecondScan(s.current, s.index, s.nodes, {}), (s.index + 1) % WORD, v);
    var r := LastSteps(s, s4, u, v);
    es := RunFive(u, s, p, s1, a, s2, q, s3, b, s4, r, Updated(s, v));
  }

  /** Events of the updater u only. */
  ghost predicate By(es: seq<Event>, u: Uid) {
    forall e :: e in es ==> !OfReader(e) && e.u == u
  }

  lemma NoBits(s: State)
    requires Basic(s) && forall r :: r in s.readers ==> !s.readers[r].place.Inside?
    ensures forall r :: r in s.nodes ==> r in s.readers && !s.readers[r].bit0 && !s.readers[r].bit1
  {
    forall r | r in s.nodes
      ensures r in s.readers && !s.readers[r].bit0 && !s.readers[r].bit1
    {
      assert r in s.readers && BitsOk(s.readers[r]);
    }
  }

  /** The state in the middle of the update of s by u. */
  function Midway(s: State, u: Uid, ph: Phase, index: nat, v: Version): State {
    s.(index := index, current := v, used := s.used + {v}, lock := Some(u), updaters := s.updaters[u := ph])
  }

  lemma ScanAll(s: State, s1: State, u: Uid, ph: Phase, index: nat, v: Version) returns (es: seq<Event>, t: State)
    requires Locking(ph) && ph.todo == s.nodes && s1 == Midway(s, u, ph, index, v)
    requires forall r :: r in s.nodes ==> r in s.readers && !s.readers[r].bit0 && !s.readers[r].bit1
    ensures Run(s1, es) == t == Midway(s, u, ph.(todo := []), index, v)
    ensures By(es, u)
  {
    es, t := Scanned(s1, u);
    UpdateTwice(s.updaters, u, ph, ph.(todo := []));
  }

  lemma UpdateTwice(us: map<Uid, Phase>, u: Uid, a: Phase, b: Phase)
    ensures var us': map<Uid, Phase> := us[u := a]; us'[u := b] == us[u := b]
  {
  }

  lemma FlipAll(s: State, s2: State, u: Uid, v: Version) returns (es: seq<Event>, t: State)
    requires s2 == Midway(s, u, FirstScan(s.current, [], {}), s.index, v)
    ensures Run(s2, es) == t && By(es, u)
    ensures t == Midway(s, u, SecondScan(s.current, s.index, s.nodes, {}), (s.index + 1) % WORD, v)
  {
    es, t := [Flip(u)], Apply(s2, Flip(u));
    RunOne(s2, Flip(u));
    UpdateTwice(s.updaters, u, FirstScan(s.current, [], {}), SecondScan(s.current, s.index, s.nodes, {}));
  }

  lemma RunFive(u: Uid, s: State, p: seq<Event>, s1: State, a: seq<Event>, s2: State, q: seq<Event>, s3: State,
                b: seq<Event>, s4: State, r: seq<Event>, t: State) returns (es: seq<Event>)
    requires Run(s, p) == s1 && Run(s1, a) == s2 && Run(s2, q) == s3 && Run(s3, b) == s4 && Run(s4, r) == t
    requires By(p, u) && By(a, u) && By(q, u) && By(b, u) && By(r, u)
    ensures Run(s, es) == t && By(es, u)
  {
    RunJoin(s3, b, s4, r, t);
    RunJoin(s2, q, s3, b + r, t);
    RunJoin(s1, a, s2, q + (b + r), t);
    RunJoin(s, p, s1, a + (q + (b + r)), t);
    es := p + (a + (q + (b + r)));
  }

  lemma FirstSteps(s: State, u: Uid, v: Version) returns (es: seq<Event>, t: State)
    requires u in s.updaters && s.updaters[u].Resting? && s.lock.None? && v !in s.used
    requires forall r :: r in s.readers ==> !s.readers[r].place.Inside?
    ensures t == Midway(s, u, FirstScan(s.current, s.nodes, {}), s.index, v)
    ensures Run(s, es) == t && By(es, u)
  {
    es := [Assign(u, v), TakeLock(u)];
    t := Apply(Apply(s, Assign(u, v)), TakeLock(u));
    assert OpenSections(Apply(s, Assign(u, v))) == {};
    var us: map<Uid, Phase> := s.updaters[u := Swapped(s.current)];
    assert us[u := FirstScan(s.current, s.nodes, {})] == s.updaters[u := FirstScan(s.current, s.nodes, {})];
    RunTwo(s, Assign(u, v), TakeLock(u));
  }

  /** A scan that meets no bit at all. */
  lemma {:induction false} Scanned(s: State, u: Uid) returns (es: seq<Event>, t: State)
    requires u in s.updaters && Locking(s.updaters[u])
    requires forall r :: r in s.updaters[u].todo ==> r in s.readers && !s.readers[r].bit0 && !s.readers[r].bit1
    ensures Run(s, es) == t && forall e :: e in es ==> e == Scan(u)
    ensures var ph := s.updaters[u];
      t == s.(updaters := s.updaters[u := ph.(todo := [])])
    decreases |s.updaters[u].todo|
  {
    var ph := s.updaters[u];
    if ph.todo == [] {
      es, t := [], s;
    } else {
      assert ph.todo[0] in ph.todo && forall r :: r in ph.todo[1..] ==> r in ph.todo;
      es, t := Scanned(Apply(s, Scan(u)), u);
      RunCons(s, Scan(u), Apply(s, Scan(u)), es);
      es := [Scan(u)] + es;
    }
  }

  lemma LastSteps(s: State, s4: State, u: Uid, v: Version) returns (es: seq<Event>)
    requires u in s.updaters && s.updaters[u] == Resting && s.lock.None?
    requires s4 == Midway(s, u, SecondScan(s.current, s.index, [], {}), (s.index + 1) % WORD, v)
    ensures Run(s4, es) == Updated(s, v) && By(es, u)
  {
    es := [DropLock(u), Free(u)];
    RunTwo(s4, DropLock(u), Free(u));
    var us: map<Uid, Phase> := s4.updaters[u := Returned(s.current, {})];
    assert us[u := Resting] == s.updaters;
  }
}
