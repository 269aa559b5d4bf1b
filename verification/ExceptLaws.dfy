/** What a user of the macros relies on, stated of runs of the machine. */
module ExceptLaws {
  import opened Except
  import opened ExceptFinally

  /** The machine runs s to its end with this trace, and no other; it has aborted or not. */
  ghost predicate EndsOnly(s: Stmt, trace: seq<int>, aborted: bool) {
    forall tr, ab :: Ends(s, tr, ab) <==> tr == trace && ab == aborted
  }

  lemma EndsAsMeant(s: Stmt, r: Result)
    requires WellFormed(s, false) && Eval(s, 0) == r
    ensures EndsOnly(s, r.trace, r.outcome.Raised?)
  {
    forall tr, ab
      ensures Ends(s, tr, ab) <==> tr == r.trace && ab == r.outcome.Raised?
    {
      EndsMeans(s, tr, ab);
    }
  }

  lemma Plain(n: int, e: Exn, s: Stmt)
    requires WellFormed(s, false)
    ensures EndsOnly(Skip, [], false) && EndsOnly(Emit(n), [n], false) && EndsOnly(Raise(e), [], true)
    ensures EndsOnly(Seq(Raise(e), s), [], true) && EndsOnly(Seq(Emit(n), Raise(e)), [n], true)
  {
    EndsAsMeant(Skip, Result([], Normal));
    EndsAsMeant(Emit(n), Result([n], Normal));
    EndsAsMeant(Raise(e), Result([], Raised(e)));
    EndsAsMeant(Seq(Raise(e), s), Result([], Raised(e)));
    assert [n] + [] == [n];
    EndsAsMeant(Seq(Emit(n), Raise(e)), Result([n], Raised(e)));
  }

  /** EXCEPT(e) catches e, whatever clauses follow, and so does ELSE. */
  lemma Catches(e: Exn, n: int, cs: Clauses)
    requires ClausesWellFormed(cs)
    ensures EndsOnly(Try(Raise(e), On(e, Emit(n), cs), NoFinally), [n], false)
    ensures EndsOnly(Try(Raise(e), Else(Emit(n)), NoFinally), [n], false)
  {
    assert [] + [n] == [n] && [n] + [] == [n];
    assert WellFormed(Emit(n), true);
    EndsAsMeant(Try(Raise(e), On(e, Emit(n), cs), NoFinally), Result([n], Normal));
    EndsAsMeant(Try(Raise(e), Else(Emit(n)), NoFinally), Result([n], Normal));
  }

  /** EXCEPT(x) lets any other exception pass. */
  lemma LetsPass(e: Exn, x: Exn, h: Stmt, cs: Clauses, fin: Final)
    requires x != e && WellFormed(h, true) && ClausesWellFormed(cs) && (fin.Finally? ==> WellFormed(fin.block, false))
    ensures SameEnds(Try(Raise(e), On(x, h, cs), fin), Try(Raise(e), cs, fin))
  {
    var a, b := Try(Raise(e), On(x, h, cs), fin), Try(Raise(e), cs, fin);
    assert Handler(On(x, h, cs), e) == Handler(cs, e);
    assert Eval(a, 0) == Eval(b, 0);
    EndsAsMeant(a, Eval(a, 0));
    EndsAsMeant(b, Eval(b, 0));
  }

  /** An exception that no clause catches leaves the TRY. */
  lemma LeavesUncaught(e: Exn)
    ensures EndsOnly(Try(Raise(e), NoClause, NoFinally), [], true)
  {
    var none: seq<int> := [];
    assert none + none == none;
    EndsAsMeant(Try(Raise(e), NoClause, NoFinally), Result([], Raised(e)));
  }

  /** FINALLY runs after a normal end, after a handler, and before an exception goes on. */
  lemma FinallyRuns(e: Exn, m: int, n: int, cs: Clauses)
    requires ClausesWellFormed(cs)
    ensures EndsOnly(Try(Emit(m), cs, Finally(Emit(n))), [m, n], false)
    ensures EndsOnly(Try(Raise(e), On(e, Emit(m), cs), Finally(Emit(n))), [m, n], false)
    ensures EndsOnly(Try(Raise(e), NoClause, Finally(Emit(n))), [n], true)
  {
    assert [m] + [n] == [m, n] && [] + [m] == [m] && [] + [n] == [n];
    assert WellFormed(Emit(m), true);
    EndsAsMeant(Try(Emit(m), cs, Finally(Emit(n))), Result([m, n], Normal));
    EndsAsMeant(Try(Raise(e), On(e, Emit(m), cs), Finally(Emit(n))), Result([m, n], Normal));
    EndsAsMeant(Try(Raise(e), NoClause, Finally(Emit(n))), Result([n], Raised(e)));
  }

  /** RERAISE raises the exception that is being handled, and FINALLY replaces it by its own. */
  lemma RaisesAgain(e: Exn, x: Exn, n: int, cs: Clauses)
    requires ClausesWellFormed(cs)
    ensures EndsOnly(Try(Try(Raise(e), On(e, Reraise, cs), NoFinally), On(e, Emit(n), NoClause), NoFinally), [n], false)
    ensures EndsOnly(Try(Try(Raise(e), NoClause, Finally(Raise(x))), On(x, Emit(n), NoClause), NoFinally), [n], false)
  {
    assert [] + [n] == [n] && [n] + [] == [n];
    var none: seq<int> := [];
    assert none + none == none;
    assert WellFormed(Reraise, true) && WellFormed(Emit(n), true);
    var a, b := Try(Raise(e), On(e, Reraise, cs), NoFinally), Try(Raise(e), NoClause, Finally(Raise(x)));
    assert Eval(a, 0) == Result([], Raised(e)) && Eval(b, 0) == Result([], Raised(x));
    assert ClausesWellFormed(On(e, Emit(n), NoClause)) && ClausesWellFormed(On(x, Emit(n), NoClause));
    EndsAsMeant(Try(a, On(e, Emit(n), NoClause), NoFinally), Result([n], Normal));
    EndsAsMeant(Try(b, On(x, Emit(n), NoClause), NoFinally), Result([n], Normal));
  }
}
