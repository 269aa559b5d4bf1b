/** The macros mean what they stand for: the frame-stack machine gives every program the trace and
    the outcome of its structured meaning. */
module ExceptCorrect {
  import opened Wrappers
  import opened Sequences
  import opened Except

  ghost predicate Reaches(a: State, b: State) {
    exists n: nat :: Run(a, n) == b
  }

  lemma {:induction false} RunAdd(a: State, n: nat, m: nat)
    ensures Run(Run(a, n), m) == Run(a, n + m)
    decreases n
  {
    if n > 0 { RunAdd(Step(a), n - 1, m); }
  }

  lemma ReachesRefl(a: State)
    ensures Reaches(a, a)
  {
    assert Run(a, 0) == a;
  }

  lemma ReachesStep(a: State, b: State)
    requires Reaches(Step(a), b)
    ensures Reaches(a, b)
  {
    var n: nat :| Run(Step(a), n) == b;
    assert Run(a, n + 1) == b;
  }

  lemma ReachesTrans(a: State, b: State, c: State)
    requires Reaches(a, b) && Reaches(b, c)
    ensures Reaches(a, c)
  {
    var n: nat :| Run(a, n) == b;
    var m: nat :| Run(b, m) == c;
    RunAdd(a, n, m);
  }

  // ----- what a piece of code does to the machine

  /** The frames and flags of the TRYs around depth d are untouched. */
  ghost predicate SameBelow(a: State, b: State, d: nat) {
    forall i :: i < d ==>
      && (i in a.frames <==> i in b.frames) && (i in a.frames ==> b.frames[i] == a.frames[i])
      && (i in a.flags <==> i in b.flags) && (i in a.flags ==> b.flags[i] == a.flags[i])
  }

  /** The stack points to the frame of an enclosing TRY, or is empty. */
  ghost predicate StackOk(st: State, d: nat) {
    st.stack.Some? ==> st.stack.value < d && st.stack.value in st.frames
  }

  /** m is where code that began in st, at depth d and with k to follow, has come to: same
      Except_stack, same surrounding frames, r's trace added. */
  ghost predicate Arrived(st: State, m: State, d: nat, k: seq<Code>, r: Result) {
    && m.stack == st.stack && SameBelow(st, m, d) && m.aborted == st.aborted
    && m.trace == st.trace + r.trace
    && (r.outcome.Normal? ==> m.code == k)
  }

  /** The state that the outcome r leaves m in: m itself, or m having raised. */
  function After(m: State, r: Result): State {
    if r.outcome.Normal? then m else Throw(m, r.outcome.e)
  }

  /** What RERAISE needs in a handler. */
  ghost predicate HandlerOk(st: State, d: nat, cur: Exn, inHandler: bool) {
    inHandler ==> d > 0 && d - 1 in st.frames && st.frames[d - 1].exception == cur
  }

  /** The simulation: from Compile(s, d) followed by k, the machine arrives as Eval(s) says. */
  lemma {:induction false} Simulate(s: Stmt, d: nat, st: State, k: seq<Code>, cur: Exn, inHandler: bool)
      returns (m: State)
    requires WellFormed(s, inHandler) && StackOk(st, d) && HandlerOk(st, d, cur, inHandler)
    requires st.code == Compile(s, d) + k
    ensures Arrived(st, m, d, k, Eval(s, cur)) && Reaches(st, After(m, Eval(s, cur)))
    decreases s, 2
  {
    match s {
      case Skip =>
        m := st;
        assert st.code == k;
        ReachesRefl(st);
      case Emit(n) =>
        m := Step(st);
        assert m.code == k;
        ReachesRefl(m);
        ReachesStep(st, m);
      case Raise(e) =>
        m := st.(code := st.code[1..]);
        ReachesRefl(Step(st));
        ReachesStep(st, Step(st));
      case Reraise =>
        m := st.(code := st.code[1..]);
        ReachesRefl(Step(st));
        ReachesStep(st, Step(st));
      case Seq(a, b) =>
        m := SimulateSeq(a, b, d, st, k, cur, inHandler);
      case Try(body, cs, fin) =>
        m := SimulateTry(body, cs, fin, d, st, k, cur);
    }
  }

  lemma {:induction false} SimulateSeq(a: Stmt, b: Stmt, d: nat, st: State, k: seq<Code>, cur: Exn,
        inHandler: bool) returns (m: State)
    requires WellFormed(a, inHandler) && WellFormed(b, inHandler) && StackOk(st, d) && HandlerOk(st, d, cur, inHandler)
    requires st.code == Compile(a, d) + Compile(b, d) + k
    ensures Arrived(st, m, d, k, Eval(Seq(a, b), cur)) && Reaches(st, After(m, Eval(Seq(a, b), cur)))
    decreases Seq(a, b), 1
  {
    Associative(Compile(a, d), Compile(b, d), k);
    m := Simulate(a, d, st, Compile(b, d) + k, cur, inHandler);
    if Eval(a, cur).outcome.Normal? {
      var m2 := Simulate(b, d, m, k, cur, inHandler);
      Associative(st.trace, Eval(a, cur).trace, Eval(b, cur).trace);
      ReachesTrans(st, m, After(m2, Eval(b, cur)));
      m := m2;
    }
  }

  /** From FINALLY to END_TRY: r is how the TRY ended so far, told by the flag. */
  ghost predicate FlagTells(st: State, d: nat, r: Result) {
    && d in st.flags && d in st.frames
    && (if r.outcome.Normal? then st.flags[d] == Entered || st.flags[d] == Handled
        else st.flags[d] == Raised_ && st.frames[d].exception == r.outcome.e)
  }

  /** END_TRY: an exception that is still pending is raised again. */
  lemma Reraised(d: nat, st: State, m0: State, k: seq<Code>, r: Result) returns (m: State)
    requires m0.stack == st.stack && SameBelow(st, m0, d) && m0.aborted == st.aborted && m0.trace == st.trace + r.trace
    requires m0.code == [IfFlag(d, Raised_, [RaiseFrame(d)], [])] + k
    requires d in m0.flags && d in m0.frames
    requires if r.outcome.Normal? then m0.flags[d] != Raised_
             else m0.flags[d] == Raised_ && m0.frames[d].exception == r.outcome.e
    ensures Arrived(st, m, d, k, r) && Reaches(m0, After(m, r))
  {
    m := m0.(code := k);
    assert m0.code[1..] == k;
    if r.outcome.Normal? {
      assert [] + k == k;
      ReachesRefl(m);
    } else {
      var m1 := m0.(code := [RaiseFrame(d)] + k);
      assert Step(m0) == m1 && m1.code[1..] == k;
      ReachesRefl(Step(m1));
      ReachesStep(m1, Step(m1));
    }
    ReachesStep(m0, After(m, r));
  }

  /** From FINALLY, if there is one, to END_TRY. */
  lemma {:induction false} SimulateEnd(fin: Final, d: nat, st: State, m0: State, k: seq<Code>, r: Result,
        cur: Exn) returns (m: State)
    requires fin.Finally? ==> WellFormed(fin.block, false)
    requires StackOk(st, d) && m0.stack == st.stack && SameBelow(st, m0, d) && m0.aborted == st.aborted
    requires m0.trace == st.trace + r.trace && FlagTells(m0, d, r)
    requires m0.code == CompileEnd(fin, d) + k
    ensures var r' := Close(r, FinalResult(fin, cur));
      Arrived(st, m, d, k, r') && Reaches(m0, After(m, r'))
    decreases fin, 1
  {
    var last := [IfFlag(d, Raised_, [RaiseFrame(d)], [])];
    match fin {
      case NoFinally =>
        assert m0.code == last + k && r.trace + [] == r.trace;
        m := Reraised(d, st, m0, k, r);
      case Finally(f) =>
        var fr := Eval(f, cur);
        var m1 := EnterFinally(f, d, m0, k);
        var m2 := Simulate(f, d + 1, m1, [PopIfEntered(d)] + (last + k), cur, false);
        ReachesTrans(m0, m1, After(m2, fr));
        m := FinallyEnded(d, st, m0, m1, m2, last + k, k, r, fr);
    }
  }

  /** The block of FINALLY, entered in m1, ended with fr in m2. */
  lemma FinallyEnded(d: nat, st: State, m0: State, m1: State, m2: State, rest: seq<Code>, k: seq<Code>, r: Result,
        fr: Result) returns (m: State)
    requires m1.stack == st.stack && SameBelow(st, m1, d) && m1.aborted == st.aborted && m1.trace == st.trace + r.trace
    requires d in m1.flags && d in m1.frames && m1.flags[d] != Entered
    requires if r.outcome.Normal? then m1.flags[d] != Raised_
             else m1.flags[d] == Raised_ && m1.frames[d].exception == r.outcome.e
    requires Arrived(m1, m2, d + 1, [PopIfEntered(d)] + rest, fr) && Reaches(m0, After(m2, fr))
    requires rest == [IfFlag(d, Raised_, [RaiseFrame(d)], [])] + k
    ensures Arrived(st, m, d, k, Close(r, fr)) && Reaches(m0, After(m, Close(r, fr)))
  {
    Associative(st.trace, r.trace, fr.trace);
    if fr.outcome.Raised? {
      m := m2;
    } else {
      m := LeaveFinally(d, st, m2, rest, k, Close(r, fr));
      ReachesTrans(m0, m2, After(m, Close(r, fr)));
    }
  }

  /** From the end of the block of FINALLY to END_TRY. */
  lemma LeaveFinally(d: nat, st: State, m2: State, rest: seq<Code>, k: seq<Code>, r: Result) returns (m: State)
    requires m2.stack == st.stack && SameBelow(st, m2, d) && m2.aborted == st.aborted && m2.trace == st.trace + r.trace
    requires m2.code == [PopIfEntered(d)] + rest && rest == [IfFlag(d, Raised_, [RaiseFrame(d)], [])] + k
    requires d in m2.flags && d in m2.frames && m2.flags[d] != Entered
    requires if r.outcome.Normal? then m2.flags[d] != Raised_
             else m2.flags[d] == Raised_ && m2.frames[d].exception == r.outcome.e
    ensures Arrived(st, m, d, k, r) && Reaches(m2, After(m, r))
  {
    var m3 := m2.(code := rest);
    assert m2.code[1..] == rest && Step(m2) == m3;
    m := Reraised(d, st, m3, k, r);
    ReachesStep(m2, After(m, r));
  }

  /** Up to the block of FINALLY: a TRY that ended normally is marked finalized. */
  lemma EnterFinally(f: Stmt, d: nat, m0: State, k: seq<Code>) returns (m: State)
    requires m0.code == CompileEnd(Finally(f), d) + k && d in m0.flags && d in m0.frames
    ensures m == m0.(code := Compile(f, d + 1) + ([PopIfEntered(d)] + ([IfFlag(d, Raised_, [RaiseFrame(d)], [])] + k)),
                     flags := m0.flags[d := if m0.flags[d] == Entered then Finalized else m0.flags[d]])
    ensures Reaches(m0, m)
  {
    var rest := Compile(f, d + 1) + ([PopIfEntered(d)] + ([IfFlag(d, Raised_, [RaiseFrame(d)], [])] + k));
    assert m0.code == [IfFlag(d, Entered, [SetFlag(d, Finalized)], [])] + rest;
    var m1 := Step(m0);
    assert m0.code[1..] == rest;
    if m0.flags[d] == Entered {
      assert m1.code == [SetFlag(d, Finalized)] + rest && m1.code[1..] == rest;
      m := Step(m1);
      ReachesRefl(m);
      ReachesStep(m1, m);
    } else {
      assert [] + rest == rest;
      assert m0.flags[d := m0.flags[d]] == m0.flags;
      m := m1;
      ReachesRefl(m);
    }
    ReachesStep(m0, m);
  }

  /** What a TRY comes to once its body has raised e: the outcome of the handler, if one catches. */
  function Caught(cs: Clauses, e: Exn): Result {
    match Handler(cs, e)
    case None => Result([], Raised(e))
    case Some(h) => Eval(h, e)
  }

  /** The chain of EXCEPT and ELSE tests, entered with the flag raised and the stack popped. */
  lemma {:induction false} SimulateClauses(cs: Clauses, d: nat, m0: State, k: seq<Code>, e: Exn) returns (m: State)
    requires ClausesWellFormed(cs) && StackOk(m0, d) && m0.code == CompileClauses(cs, d) + k
    requires FlagTells(m0, d, Result([], Raised(e)))
    ensures m.stack == m0.stack && SameBelow(m0, m, d) && m.aborted == m0.aborted
    ensures m.trace == m0.trace + Caught(cs, e).trace
    ensures if Handler(cs, e).None? || Caught(cs, e).outcome.Normal?
            then m.code == k && FlagTells(m, d, Caught(cs, e)) && Reaches(m0, m)
            else Reaches(m0, Throw(m, Caught(cs, e).outcome.e))
    decreases cs, 1
  {
    match cs {
      case NoClause =>
        m := m0;
        assert m0.code == k;
        ReachesRefl(m);
      case Else(h) =>
        m := SimulateHandler(h, d, m0, k, e);
      case On(x, h, rest) =>
        var m1 := Step(m0);
        assert m0.code[1..] == k;
        if x == e {
          assert m1 == m0.(code := CompileHandler(h, d) + k);
          m := SimulateHandler(h, d, m1, k, e);
        } else {
          assert m1 == m0.(code := CompileClauses(rest, d) + k);
          m := SimulateClauses(rest, d, m1, k, e);
        }
        if Handler(cs, e).None? || Caught(cs, e).outcome.Normal? {
          ReachesStep(m0, m);
        } else {
          ReachesStep(m0, Throw(m, Caught(cs, e).outcome.e));
        }
    }
  }

  lemma {:induction false} SimulateHandler(h: Stmt, d: nat, m0: State, k: seq<Code>, e: Exn) returns (m: State)
    requires WellFormed(h, true) && StackOk(m0, d) && m0.code == CompileHandler(h, d) + k
    requires FlagTells(m0, d, Result([], Raised(e)))
    ensures m.stack == m0.stack && SameBelow(m0, m, d) && m.aborted == m0.aborted
    ensures m.trace == m0.trace + Eval(h, e).trace
    ensures if Eval(h, e).outcome.Normal?
            then m.code == k && FlagTells(m, d, Eval(h, e)) && Reaches(m0, m)
            else Reaches(m0, Throw(m, Eval(h, e).outcome.e))
    decreases h, 3
  {
    var rest := Compile(h, d + 1) + ([PopIfEntered(d)] + k);
    assert m0.code == [SetFlag(d, Handled)] + rest;
    var m1 := Step(m0);
    assert m0.code[1..] == rest;
    m := Simulate(h, d + 1, m1, [PopIfEntered(d)] + k, e, true);
    ReachesStep(m0, After(m, Eval(h, e)));
    if Eval(h, e).outcome.Normal? { m := LeaveHandler(d, m0, m, k); }
  }

  /** From the end of a handler to what follows it. */
  lemma LeaveHandler(d: nat, m0: State, m2: State, k: seq<Code>) returns (m: State)
    requires Reaches(m0, m2) && m2.code == [PopIfEntered(d)] + k && d in m2.flags && m2.flags[d] != Entered
    ensures m == m2.(code := k) && Reaches(m0, m)
  {
    m := Step(m2);
    assert m2.code[1..] == k;
    ReachesRefl(m);
    ReachesStep(m2, m);
    ReachesTrans(m0, m2, m);
  }

  /** Up to the body of TRY: the frame is pushed and its environment saved. */
  lemma EnterTry(body: Stmt, cs: Clauses, fin: Final, d: nat, st: State, k: seq<Code>) returns (m: State)
    requires st.code == Compile(Try(body, cs, fin), d) + k
    ensures var end := CompileEnd(fin, d) + k;
      var env := [IfFlag(d, Entered, Compile(body, d + 1) + [PopIfEntered(d)], CompileClauses(cs, d))] + end;
      m == st.(code := Compile(body, d + 1) + ([PopIfEntered(d)] + end), stack := Some(d),
               frames := st.frames[d := Frame(st.stack, env, 0)], flags := st.flags[d := Entered])
    ensures Reaches(st, m)
  {
    var end := CompileEnd(fin, d) + k;
    var yes := Compile(body, d + 1) + [PopIfEntered(d)];
    assert st.code == [PushFrame(d), SetJmp(d), IfFlag(d, Entered, yes, CompileClauses(cs, d))] + end;
    m := SaveEnvironment(d, st, yes, CompileClauses(cs, d), end);
    Associative(Compile(body, d + 1), [PopIfEntered(d)], end);
  }

  lemma SaveEnvironment(d: nat, st: State, yes: seq<Code>, no: seq<Code>, end: seq<Code>) returns (m: State)
    requires st.code == [PushFrame(d), SetJmp(d), IfFlag(d, Entered, yes, no)] + end
    ensures m == st.(code := yes + end, stack := Some(d),
                     frames := st.frames[d := Frame(st.stack, [IfFlag(d, Entered, yes, no)] + end, 0)],
                     flags := st.flags[d := Entered])
    ensures Reaches(st, m)
  {
    var env := [IfFlag(d, Entered, yes, no)] + end;
    var m1 := Step(st);
    assert st.code[1..] == [SetJmp(d)] + env;
    var m2 := Step(m1);
    assert m1.code[1..] == env;
    assert m2.frames == st.frames[d := Frame(st.stack, env, 0)];
    m := Step(m2);
    assert m2.code[1..] == end;
    ReachesRefl(m);
    ReachesStep(m2, m);
    ReachesStep(m1, m);
    ReachesStep(st, m);
  }

  lemma {:induction false} SimulateTry(body: Stmt, cs: Clauses, fin: Final, d: nat, st: State, k: seq<Code>,
        cur: Exn) returns (m: State)
    requires WellFormed(body, false) && ClausesWellFormed(cs) && (fin.Finally? ==> WellFormed(fin.block, false))
    requires StackOk(st, d) && st.code == Compile(Try(body, cs, fin), d) + k
    ensures Arrived(st, m, d, k, Eval(Try(body, cs, fin), cur)) && Reaches(st, After(m, Eval(Try(body, cs, fin), cur)))
    decreases Try(body, cs, fin), 1
  {
    var end, rb := CompileEnd(fin, d) + k, Eval(body, cur);
    var m1 := EnterTry(body, cs, fin, d, st, k);
    var m2 := Simulate(body, d + 1, m1, [PopIfEntered(d)] + end, cur, false);
    ReachesTrans(st, m1, After(m2, rb));
    if rb.outcome.Normal? {
      var m3 := Step(m2);
      assert m2.code[1..] == end;
      m := SimulateEnd(fin, d, st, m3, k, rb, cur);
      ReachesStep(m2, After(m, Eval(Try(body, cs, fin), cur)));
      ReachesTrans(st, m2, After(m, Eval(Try(body, cs, fin), cur)));
    } else {
      TryEnded(body, cs, fin, cur);
      m := AfterRaise(body, cs, fin, d, st, m2, k, cur, rb);
      ReachesTrans(st, Throw(m2, rb.outcome.e), After(m, Eval(Try(body, cs, fin), cur)));
    }
  }

  /** What a TRY whose body ended with rb, raising, comes to, if fr is how the block of FINALLY ends. */
  function Ended(rb: Result, cs: Clauses, fr: Result): Result
    requires rb.outcome.Raised?
  {
    var rc := Caught(cs, rb.outcome.e);
    var r := Result(rb.trace + rc.trace, rc.outcome);
    if Handler(cs, rb.outcome.e).Some? && rc.outcome.Raised? then r else Close(r, fr)
  }

  lemma TryEnded(body: Stmt, cs: Clauses, fin: Final, cur: Exn)
    requires Eval(body, cur).outcome.Raised?
    ensures Eval(Try(body, cs, fin), cur) == Ended(Eval(body, cur), cs, FinalResult(fin, cur))
  {
    var rb := Eval(body, cur);
    assert rb.trace + [] == rb.trace;
  }

  function FinalResult(fin: Final, cur: Exn): Result {
    if fin.Finally? then Eval(fin.block, cur) else Result([], Normal)
  }

  /** From the raise in the body to the chain of clauses. */
  lemma EnterClauses(cs: Clauses, d: nat, st: State, m2: State, yes: seq<Code>, end: seq<Code>, e: Exn)
      returns (m: State)
    requires StackOk(st, d) && m2.stack == Some(d) && SameBelow(st, m2, d) && d in m2.frames
    requires m2.frames[d].prev == st.stack && m2.frames[d].env == [IfFlag(d, Entered, yes, CompileClauses(cs, d))] + end
    ensures m == Step(Throw(m2, e)) && m.code == CompileClauses(cs, d) + end
    ensures m.stack == st.stack && SameBelow(st, m, d) && m.aborted == m2.aborted && m.trace == m2.trace
    ensures StackOk(m, d) && FlagTells(m, d, Result([], Raised(e)))
  {
    m := Step(Throw(m2, e));
    assert m2.frames[d].env[1..] == end;
  }

  /** The body raised: longjmp has come back to setjmp with the flag raised and the frame popped. */
  lemma {:induction false} AfterRaise(body: Stmt, cs: Clauses, fin: Final, d: nat, st: State, m2: State,
        k: seq<Code>, cur: Exn, rb: Result) returns (m: State)
    requires ClausesWellFormed(cs) && (fin.Finally? ==> WellFormed(fin.block, false))
    requires StackOk(st, d) && rb.outcome.Raised?
    requires m2.stack == Some(d) && SameBelow(st, m2, d) && m2.aborted == st.aborted && m2.trace == st.trace + rb.trace
    requires d in m2.frames && m2.frames[d].prev == st.stack
    requires m2.frames[d].env ==
      [IfFlag(d, Entered, Compile(body, d + 1) + [PopIfEntered(d)], CompileClauses(cs, d))] + (CompileEnd(fin, d) + k)
    ensures var r := Ended(rb, cs, FinalResult(fin, cur));
      Arrived(st, m, d, k, r) && Reaches(Throw(m2, rb.outcome.e), After(m, r))
    decreases Try(body, cs, fin), 0
  {
    var end, r, e := CompileEnd(fin, d) + k, Ended(rb, cs, FinalResult(fin, cur)), rb.outcome.e;
    var m3 := Throw(m2, e);
    var m4 := EnterClauses(cs, d, st, m2, Compile(body, d + 1) + [PopIfEntered(d)], end, e);
    var m5 := SimulateClauses(cs, d, m4, end, e);
    var rc := Caught(cs, e);
    Associative(st.trace, rb.trace, rc.trace);
    if Handler(cs, e).Some? && rc.outcome.Raised? {
      m := m5;
      ReachesStep(m3, Throw(m, rc.outcome.e));
    } else {
      m := SimulateEnd(fin, d, st, m5, k, Result(rb.trace + rc.trace, rc.outcome), cur);
      ReachesTrans(m4, m5, After(m, r));
      ReachesStep(m3, After(m, r));
    }
  }

  /** A whole program on an empty Except_stack runs to its end, with the trace of its meaning and the
      stack empty again; it aborts exactly when an exception is left over. */
  lemma ProgramMeaning(s: Stmt, st: State) returns (t: State)
    requires WellFormed(s, false) && st.code == Compile(s, 0) && st.stack.None? && !st.aborted
    ensures var r := Eval(s, 0);
      && Reaches(st, t) && t.code == [] && t.stack.None?
      && t.trace == st.trace + r.trace && (t.aborted <==> r.outcome.Raised?)
  {
    assert Compile(s, 0) + [] == st.code;
    var m := Simulate(s, 0, st, [], 0, false);
    t := After(m, Eval(s, 0));
  }
}
