/** Except_stack and the frames in memory, updated in place by the statements of the macros. */
module ExceptMachine {
  import opened Wrappers
  import opened Except
  import opened ExceptCorrect
  import opened ExceptFinally

  class Machine {
    var code: seq<Code>          // what remains to be done
    var stack: Option<nat>       // Except_stack
    var frames: map<nat, Frame>
    var flags: map<nat, Flag>
    var trace: seq<int>
    var aborted: bool

    function View(): State
      reads this
    {
      State(code, stack, frames, flags, trace, aborted)
    }

    /** A program about to run on an empty Except_stack. */
    constructor (s: Stmt)
      ensures View() == Start(s)
    {
      code, stack, frames, flags, trace, aborted := Compile(s, 0), None, map[], map[], [], false;
    }

    /** Except_raise */
    method RaiseException(e: Exn)
      modifies this
      ensures View() == Throw(old(View()), e)
    {
      if stack.None? || stack.value !in frames {
        code, aborted := [], true;
        return;
      }
      var p := stack.value;
      frames := frames[p := frames[p].(exception := e)];
      stack := frames[p].prev;
      code := frames[p].env;
      flags := flags[p := Raised_];
    }

    /** One statement of the expanded macros. */
    method Perform()
      requires code != []
      modifies this
      ensures View() == Step(old(View()))
    {
      var c := code[0];
      code := code[1..];
      match c {
        case Out(n) => trace := trace + [n];
        case PushFrame(d) =>
          frames := frames[d := Frame(stack, [], 0)];
          stack := Some(d);
        case SetJmp(d) =>
          if d in frames {
            frames := frames[d := frames[d].(env := code)];
            flags := flags[d := Entered];
          }
        case IfFlag(d, f, yes, no) =>
          code := (if d in flags && flags[d] == f then yes else no) + code;
        case IfException(d, e, yes, no) =>
          code := (if d in frames && frames[d].exception == e then yes else no) + code;
        case SetFlag(d, f) => flags := flags[d := f];
        case PopIfEntered(d) =>
          if d in flags && flags[d] == Entered && stack.Some? && stack.value in frames {
            stack := frames[stack.value].prev;
          }
        case RaiseExn(e) => RaiseException(e);
        case RaiseFrame(d) =>
          if d in frames { RaiseException(frames[d].exception); }
      }
    }

    /** Runs a program to its end.  The trace is the one of its structured meaning, the stack is
        empty again, and the program has aborted exactly if an exception was left over. */
    method Execute(s: Stmt)
      requires WellFormed(s, false) && View() == Start(s)
      modifies this
      ensures code == [] && stack.None? && trace == Eval(s, 0).trace
      ensures aborted <==> Eval(s, 0).outcome.Raised?
    {
      ghost var start := View();
      ghost var t := ProgramMeaning(s, start);
      ghost var n: nat :| Run(start, n) == t;
      while code != []
        invariant Run(View(), n) == t
        decreases n
      {
        assert n > 0;
        Perform();
        n := n - 1;
      }
      Halted(View(), n);
    }
  }
}
