/** FINALLY on the machine: when its block runs, and when it is skipped. */
module ExceptFinally {
  import opened Wrappers
  import opened Except
  import opened ExceptCorrect

  /** A program about to run on an empty Except_stack. */
  function Start(s: Stmt): State {
    State(Compile(s, 0), None, map[], map[], [], false)
  }

  /** The machine runs s to its end, with this trace, and has aborted or not. */
  ghost predicate Ends(s: Stmt, trace: seq<int>, aborted: bool) {
    exists t :: Reaches(Start(s), t) && t.code == [] && t.trace == trace && t.aborted == aborted
  }

  /** Nobody can tell the two programs apart from outside. */
  ghost predicate SameEnds(s: Stmt, s': Stmt) {
    forall trace, aborted :: Ends(s, trace, aborted) <==> Ends(s', trace, aborted)
  }

  lemma {:induction false} Halted(st: State, n: nat)
    requires st.code == []
    ensures Run(st, n) == st
    decreases n
  {
    if n > 0 { Halted(st, n - 1); }
  }

  /** The machine is deterministic: it can halt in one state only. */
  lemma HaltsOnce(a: State, t: State, t': State)
    requires Reaches(a, t) && Reaches(a, t') && t.code == [] && t'.code == []
    ensures t == t'
  {
    var n: nat :| Run(a, n) == t;
    var m: nat :| Run(a, m) == t';
    if n <= m {
      RunAdd(a, n, m - n);
      Halted(t, m - n);
    } else {
      RunAdd(a, m, n - m);
      Halted(t', n - m);
    }
  }

  /** Every program ends, and in the one way that its meaning tells. */
  lemma EndsMeans(s: Stmt, trace: seq<int>, aborted: bool)
    requires WellFormed(s, false)
    ensures Ends(s, trace, aborted) <==> trace == Eval(s, 0).trace && aborted == Eval(s, 0).outcome.Raised?
  {
    var t := ProgramMeaning(s, Start(s));
    assert t.trace == Eval(s, 0).trace;
    if Ends(s, trace, aborted) {
      var t' :| Reaches(Start(s), t') && t'.code == [] && t'.trace == trace && t'.aborted == aborted;
      HaltsOnce(Start(s), t, t');
    }
  }

  /** The body raised, and the handler that caught it raised in turn. */
  predicate HandlerRaises(body: Stmt, cs: Clauses) {
    var rb := Eval(body, 0);
    rb.outcome.Raised? && Handler(cs, rb.outcome.e).Some? && Caught(cs, rb.outcome.e).outcome.Raised?
  }

  /** FINALLY is skipped exactly when a handler caught and raised again: only then does the machine
      end in the same way whatever the block of FINALLY does. */
  lemma FinallySkippedIffHandlerRaises(body: Stmt, cs: Clauses)
    requires WellFormed(body, false) && ClausesWellFormed(cs)
    ensures HandlerRaises(body, cs) <==>
      forall f, g :: WellFormed(f, false) && WellFormed(g, false) ==>
        SameEnds(Try(body, cs, Finally(f)), Try(body, cs, Finally(g)))
  {
    if HandlerRaises(body, cs) {
      forall f, g | WellFormed(f, false) && WellFormed(g, false)
        ensures SameEnds(Try(body, cs, Finally(f)), Try(body, cs, Finally(g)))
      {
        SkippedAlike(body, cs, f, g);
      }
    } else {
      EmitShows(body, cs);
    }
  }

  lemma SkippedAlike(body: Stmt, cs: Clauses, f: Stmt, g: Stmt)
    requires WellFormed(body, false) && ClausesWellFormed(cs) && WellFormed(f, false) && WellFormed(g, false)
    requires HandlerRaises(body, cs)
    ensures SameEnds(Try(body, cs, Finally(f)), Try(body, cs, Finally(g)))
  {
    var a, b := Try(body, cs, Finally(f)), Try(body, cs, Finally(g));
    assert Eval(a, 0) == Eval(b, 0);
    forall trace, aborted
      ensures Ends(a, trace, aborted) <==> Ends(b, trace, aborted)
    {
      EndsMeans(a, trace, aborted);
      EndsMeans(b, trace, aborted);
    }
  }

  /** Where FINALLY is not skipped, a block that emits something can be told from one that does not. */
  lemma EmitShows(body: Stmt, cs: Clauses)
    requires WellFormed(body, false) && ClausesWellFormed(cs) && !HandlerRaises(body, cs)
    ensures !SameEnds(Try(body, cs, Finally(Skip)), Try(body, cs, Finally(Emit(0))))
  {
    var a, b := Try(body, cs, Finally(Skip)), Try(body, cs, Finally(Emit(0)));
    assert Eval(Skip, 0) == Result([], Normal) && Eval(Emit(0), 0) == Result([0], Normal);
    var ra, rb := Eval(a, 0), Eval(b, 0);
    assert |rb.trace| == |ra.trace| + 1;
    EndsMeans(a, ra.trace, ra.outcome.Raised?);
    EndsMeans(b, ra.trace, ra.outcome.Raised?);
  }

  /** A program whose FINALLY is skipped: the block would emit 7, the machine aborts without it. */
  lemma SkippedFinally()
    ensures forall trace, aborted ::
      Ends(Try(Raise(1), On(1, Raise(2), NoClause), Finally(Emit(7))), trace, aborted) <==> trace == [] && aborted
  {
    var s := Try(Raise(1), On(1, Raise(2), NoClause), Finally(Emit(7)));
    assert WellFormed(Raise(2), true) && ClausesWellFormed(On(1, Raise(2), NoClause));
    assert Handler(On(1, Raise(2), NoClause), 1) == Some(Raise(2));
    assert Eval(s, 0) == Result([], Raised(2));
    forall trace, aborted
      ensures Ends(s, trace, aborted) <==> trace == [] && aborted
    {
      EndsMeans(s, trace, aborted);
    }
  }
}
