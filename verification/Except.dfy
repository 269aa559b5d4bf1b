/** The TRY/EXCEPT/ELSE/FINALLY/END_TRY macros: the code they expand to, the machine it runs on, and
    the structured meaning they stand for. */
module Except {
  import opened Wrappers

  /** The address of an Except_T: exceptions are compared by identity. */
  type Exn = nat

  // ----- programs with structured exceptions

  datatype Stmt =
    | Skip
    | Emit(n: int)            // anything observable
    | Raise(e: Exn)
    | Reraise                 // RERAISE inside a handler
    | Seq(first: Stmt, second: Stmt)
    | Try(body: Stmt, clauses: Clauses, last: Final)

  datatype Clauses =
    | NoClause
    | On(e: Exn, handler: Stmt, rest: Clauses)   // EXCEPT(e)
    | Else(handler: Stmt)

  datatype Final = NoFinally | Finally(block: Stmt)

  datatype Outcome = Normal | Raised(e: Exn)

  datatype Result = Result(trace: seq<int>, outcome: Outcome)

  /** RERAISE names the frame of the lexically innermost TRY, so it stands directly in a handler. */
  predicate WellFormed(s: Stmt, inHandler: bool) {
    match s
    case Reraise => inHandler
    case Seq(a, b) => WellFormed(a, inHandler) && WellFormed(b, inHandler)
    case Try(body, cs, fin) =>
      WellFormed(body, false) && ClausesWellFormed(cs) && (fin.Finally? ==> WellFormed(fin.block, false))
    case _ => true
  }

  predicate ClausesWellFormed(cs: Clauses) {
    match cs
    case NoClause => true
    case On(_, h, rest) => WellFormed(h, true) && ClausesWellFormed(rest)
    case Else(h) => WellFormed(h, true)
  }

  /** The handler that catches e, if any: the first that names it, or ELSE. */
  function Handler(cs: Clauses, e: Exn): (h: Option<Stmt>)
    ensures h.Some? ==> h.value < cs
  {
    match cs
    case NoClause => None
    case On(x, h, rest) => if x == e then Some(h) else Handler(rest, e)
    case Else(h) => Some(h)
  }

  /** FINALLY after a try that ended with r: r stands unless the block itself raises. */
  function Close(r: Result, fin: Result): Result {
    Result(r.trace + fin.trace, if fin.outcome.Raised? then fin.outcome else r.outcome)
  }

  /** What a program means; `cur` is the exception the enclosing handler handles.  A handler that
      raises ends the whole TRY at once: FINALLY runs only if no handler ran or it ended normally. */
  function Eval(s: Stmt, cur: Exn): Result {
    match s
    case Skip => Result([], Normal)
    case Emit(n) => Result([n], Normal)
    case Raise(e) => Result([], Raised(e))
    case Reraise => Result([], Raised(cur))
    case Seq(a, b) =>
      var ra := Eval(a, cur);
      if ra.outcome.Raised? then ra else
      var rb := Eval(b, cur);
      Result(ra.trace + rb.trace, rb.outcome)
    case Try(body, cs, fin) =>
      var fr := if fin.Finally? then Eval(fin.block, cur) else Result([], Normal);
      var rb := Eval(body, cur);
      if rb.outcome.Normal? then Close(rb, fr) else
      match Handler(cs, rb.outcome.e)
      case None => Close(rb, fr)
      case Some(h) =>
        var rh := Eval(h, rb.outcome.e);
        var r := Result(rb.trace + rh.trace, rh.outcome);
        if rh.outcome.Raised? then r else Close(r, fr)
  }

  // ----- the code behind the macros

  datatype Flag = Entered | Raised_ | Handled | Finalized

  /** C statements over Except_stack and the Except_flag and Except_frame of the TRY at depth d. */
  datatype Code =
    | Out(n: int)
    | PushFrame(d: nat)                                          // link Except_frame in front of Except_stack
    | SetJmp(d: nat)                                             // Except_flag = setjmp(Except_frame.env)
    | IfFlag(d: nat, f: Flag, yes: seq<Code>, no: seq<Code>)     // if (Except_flag == f)
    | IfException(d: nat, e: Exn, yes: seq<Code>, no: seq<Code>) // if (Except_frame.exception == &e)
    | SetFlag(d: nat, f: Flag)
    | PopIfEntered(d: nat)                                       // if (Except_flag == Except_entered) pop
    | RaiseExn(e: Exn)
    | RaiseFrame(d: nat)                                         // RERAISE of the frame at depth d

  function Compile(s: Stmt, d: nat): seq<Code>
    decreases s, 0
  {
    match s
    case Skip => []
    case Emit(n) => [Out(n)]
    case Raise(e) => [RaiseExn(e)]
    case Reraise => if d > 0 then [RaiseFrame(d - 1)] else []
    case Seq(a, b) => Compile(a, d) + Compile(b, d)
    case Try(body, cs, fin) =>
      [PushFrame(d), SetJmp(d),
       IfFlag(d, Entered, Compile(body, d + 1) + [PopIfEntered(d)], CompileClauses(cs, d))] + CompileEnd(fin, d)
  }

  function CompileClauses(cs: Clauses, d: nat): seq<Code>
    decreases cs, 0
  {
    match cs
    case NoClause => []
    case On(e, h, rest) => [IfException(d, e, CompileHandler(h, d), CompileClauses(rest, d))]
    case Else(h) => CompileHandler(h, d)
  }

  function CompileHandler(h: Stmt, d: nat): seq<Code>
    decreases h, 1
  {
    [SetFlag(d, Handled)] + Compile(h, d + 1) + [PopIfEntered(d)]
  }

  /** From FINALLY, if there is one, to END_TRY. */
  function CompileEnd(fin: Final, d: nat): seq<Code>
    decreases fin, 0
  {
    (if fin.Finally? then
       [IfFlag(d, Entered, [SetFlag(d, Finalized)], [])] + Compile(fin.block, d + 1) + [PopIfEntered(d)]
     else [])
    + [IfFlag(d, Raised_, [RaiseFrame(d)], [])]
  }

  // ----- the machine

  /** An Except_Frame.  The saved environment is what remains to be done after setjmp. */
  datatype Frame = Frame(prev: Option<nat>, env: seq<Code>, exception: Exn)

  /** Frames live at the depth of their TRY: the memory is reused by the next TRY at that depth. */
  datatype State = State(code: seq<Code>, stack: Option<nat>, frames: map<nat, Frame>, flags: map<nat, Flag>,
                         trace: seq<int>, aborted: bool)

  /** Except_raise: fill in the top frame, pop it, and longjmp to its setjmp. */
  function Throw(st: State, e: Exn): State {
    if st.stack.None? || st.stack.value !in st.frames then st.(code := [], aborted := true) else
    var p := st.stack.value;
    var f := st.frames[p];
    State(f.env, f.prev, st.frames[p := f.(exception := e)], st.flags[p := Raised_], st.trace, st.aborted)
  }

  function Step(st: State): State {
    if st.code == [] then st else
    var c, st' := st.code[0], st.(code := st.code[1..]);
    match c
    case Out(n) => st'.(trace := st.trace + [n])
    case PushFrame(d) =>
      st'.(frames := st.frames[d := Frame(st.stack, [], 0)], stack := Some(d))
    case SetJmp(d) =>
      if d in st.frames then
        st'.(frames := st.frames[d := st.frames[d].(env := st'.code)], flags := st.flags[d := Entered])
      else st'
    case IfFlag(d, f, yes, no) => st'.(code := (if d in st.flags && st.flags[d] == f then yes else no) + st'.code)
    case IfException(d, e, yes, no) =>
      st'.(code := (if d in st.frames && st.frames[d].exception == e then yes else no) + st'.code)
    case SetFlag(d, f) => st'.(flags := st.flags[d := f])
    case PopIfEntered(d) =>
      if d in st.flags && st.flags[d] == Entered && st.stack.Some? && st.stack.value in st.frames
      then st'.(stack := st.frames[st.stack.value].prev) else st'
    case RaiseExn(e) => Throw(st', e)
    case RaiseFrame(d) => if d in st.frames then Throw(st', st.frames[d].exception) else st'
  }

  function Run(st: State, n: nat): State
    decreases n
  {
    if n == 0 then st else Run(Step(st), n - 1)
  }
}
