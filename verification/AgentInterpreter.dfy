/**
 gtp_action_x as the code runs it: `pc`, `sp` and `top` change in place over the per-CPU stack
 array.  Each iteration is tied to `Step`; the world the host sees is passed along.
 */
module AgentInterpreter {
  import opened Options
  import opened AgentCode
  import opened AgentCheck
  import opened AgentMachine
  import opened AgentMeaning
  import opened AgentRuns

  class Interpreter {
    var pc: nat
    var sp: nat
    var top: Value
    const stack: array<Value>

    constructor (stack: array<Value>)
      ensures this.stack == stack && pc == 0 && sp == 0 && top == 0
    {
      this.stack, pc, sp, top := stack, 0, 0, 0;
    }

    ghost predicate Valid()
      reads this
    {
      stack.Length == STACK_MAX && sp <= STACK_MAX
    }

    function State<W>(world: W): (m: Machine<W>)
      requires Valid()
      reads this, stack
      ensures Sized(m)
    {
      Machine(pc, sp, top, stack[..], world)
    }

    /** The outcome of an iteration: either the interpreter's new state or a reason to stop. */
    ghost predicate Reached<W>(o: Outcome<W>, stop: Option<Stop>, world: W)
      requires Valid()
      reads this, stack
    {
      match stop
      case None => o == Going(State(world))
      case Some(why) => o == Stopped(why, world)
    }

    method Pop() returns (v: Value)
      requires Valid() && sp > 0
      modifies this`sp
      ensures sp == old(sp) - 1 && v == stack[sp]
    {
      sp := sp - 1;
      v := stack[sp];
    }

    /** The opcodes that read the stack array. */
    method DoTake<W>(host: Host<W>, op: Byte, checked: bool, world: W) returns (stop: Option<Stop>, world': W)
      requires Valid() && Popping(op) && op != IF_GOTO
      requires !Take(host, op, checked, State(world)).Fault?
      modifies this`sp, this`top, stack
      ensures Valid() && Reached(Take(host, op, checked, old(State(world))), stop, world')
    {
      stop, world' := None, world;
      if IsDivide(op) && top == 0 {
        return Some(CodeError), world;
      }
      if checked && sp < Needs(op) {
        return Some(CodeError), world;
      }
      if op == TRACE {
        var addr := Pop();
        var (w, ok) := host.collectMem(world, addr, top);
        world' := w;
        if !ok {
          return Some(CollectFailed), world';
        }
        top := Pop();
      } else if op == SWAP {
        stack[sp] := top;
        top := stack[sp - 1];
        stack[sp - 1] := stack[sp];
      } else if op == POP {
        top := Pop();
      } else {
        var below := Pop();
        top := Combine(host, op, below, top);
      }
    }

    method Push(v: Value)
      requires Valid() && sp < STACK_MAX
      modifies this`sp, this`top, stack
      ensures Valid() && sp == old(sp) + 1 && top == v && stack[..] == old(stack[..])[old(sp) := old(top)]
    {
      stack[sp] := top;
      sp := sp + 1;
      top := v;
      assert stack[..] == old(stack[..])[old(sp) := old(top)];
    }

    /** const8 to const64, reg and dup. */
    method DoSource<W>(host: Host<W>, code: array<Byte>, op: Byte, world: W) returns (stop: Option<Stop>)
      requires Valid() && IsSource(op) && (stack as object) != code
      requires !Source(host, code[..], op, State(world)).Fault?
      modifies this`pc, this`sp, this`top, stack
      ensures Valid() && Reached(Source(host, code[..], op, old(State(world))), stop, world)
    {
      stop := None;
      if op == DUP {
        Push(top);
      } else if op == REG {
        var v := host.register(world, Word(code[..], pc));
        pc := pc + 2;
        if v.None? {
          return Some(HostError);
        }
        Push(v.value);
      } else {
        ghost var start := pc;
        ghost var past := pc + OperandBytes(op);
        var v: Value, left := 0, OperandBytes(op);
        while left > 0
          invariant sp == old(sp) && top == old(top) && stack[..] == old(stack[..])
          invariant pc + left == past <= code.Length
          invariant Constant(v, code[pc..past]) == Constant(0, code[start..past])
        {
          assert code[pc..past][1..] == code[pc + 1..past];
          v := Wrap(v * 256 + code[pc]);
          pc := pc + 1;
          left := left - 1;
        }
        Push(v);
      }
    }

    method DoUnary<W>(host: Host<W>, code: array<Byte>, op: Byte, world: W) returns (stop: Option<Stop>, world': W)
      requires Valid() && IsUnary(op)
      requires !Unary(host, code[..], op, State(world)).Fault?
      modifies this`pc, this`top
      ensures Valid() && Reached(Unary(host, code[..], op, old(State(world))), stop, world')
    {
      stop, world' := None, world;
      if op == 0x0e {
        top := Truth(top == 0);
      } else if op == 0x12 {
        top := WORD - 1 - top;
      } else if op == TRACE_QUICK {
        var (w, ok) := host.collectMem(world, top, code[pc]);
        if !ok {
          return Some(CollectFailed), w;
        }
        world' := w;
        pc := pc + 1;
      } else if op == EXT || op == ZERO_EXT {
        var arg: nat := code[pc];
        pc := pc + 1;
        if arg < 64 {
          if op == ZERO_EXT {
            top := Wrap(top % Pow2(arg));
          } else if 1 <= arg <= 32 {
            top := SignExtend(top, arg);
          } else {
            top := host.odd(op, arg, top);
          }
        }
      } else {
        var v := host.load(world, top, Pow2((op as int - 0x17) % 4));
        if v.None? {
          return Some(CodeError), world;
        }
        top := v.value;
      }
    }

    method DoVariable<W>(host: Host<W>, names: Names, code: array<Byte>, op: Byte, world: W)
      returns (stop: Option<Stop>, world': W)
      requires Valid() && HasVariable(op) && (stack as object) != code
      requires !Variable(host, names, code[..], op, State(world)).Fault?
      modifies this`pc, this`sp, this`top, stack
      ensures Valid() && Reached(Variable(host, names, code[..], op, old(State(world))), stop, world')
    {
      stop, world' := None, world;
      var found := Resolve(names, Word(code[..], pc));
      pc := pc + 2;
      if op == GETV {
        var v := host.getVar(world, found.value);
        if v.None? {
          return Some(CodeError), world;
        }
        Push(v.value);
      } else if op == SETV {
        var w := host.setVar(world, found.value, top);
        if w.None? {
          return Some(CodeError), world;
        }
        world' := w.value;
      } else {
        var (w, ok) := host.collectVar(world, found.value);
        if !ok {
          return Some(HostError), w;
        }
        world' := w;
      }
    }

    /** if_goto, and op_check_if_goto. */
    method DoIfGoto<W>(code: array<Byte>, op: Byte, world: W) returns (stop: Option<Stop>)
      requires Valid() && (stack as object) != code && Plain(op) == IF_GOTO
      requires !Branch(code[..], IsChecked(op), State(world)).Fault?
      modifies this`pc, this`sp, this`top
      ensures Valid() && Reached(Branch(code[..], IsChecked(op), old(State(world))), stop, world)
    {
      stop := None;
      if top != 0 {
        pc := Word(code[..], pc);
      } else {
        pc := pc + 2;
      }
      if IsChecked(op) && sp == 0 {
        return Some(CodeError);
      }
      top := Pop();
    }

    lemma OperatorsMean<W>(host: Host<W>, names: Names, code: array<Byte>, world: W)
      requires Valid()
      ensures forall op ::
        Next(code[..], State(world), op, 0) && sp > 0 && Defined(op, top) ==>
          var o := Step(host, names, false, code[..], State(world));
          o.Going? && Means(op, stack[sp - 1], top, o.m.top)
    {
      hide Step, Means, Next;
      forall op | Next(code[..], State(world), op, 0) && sp > 0 && Defined(op, top)
        ensures var o := Step(host, names, false, code[..], State(world));
                o.Going? && Means(op, stack[sp - 1], top, o.m.top)
      {
        OperatorStep(host, names, code[..], State(world), op);
      }
    }

    /** One turn of the loop in gtp_action_x. */
    method Iterate<W>(host: Host<W>, names: Names, loops: bool, code: array<Byte>, world: W)
      returns (stop: Option<Stop>, world': W)
      requires Valid() && (stack as object) != code
      requires !Step(host, names, loops, code[..], State(world)).Fault?
      modifies this`pc, this`sp, this`top, stack
      ensures Valid() && Reached(Step(host, names, loops, code[..], old(State(world))), stop, world')
      ensures forall op ::
        !loops && Next(code[..], old(State(world)), op, 0) && old(sp) > 0 && Defined(op, old(top)) ==>
          stop.None? && Means(op, old(stack[sp - 1]), old(top), top)
    {
      OperatorsMean(host, names, code, world);
      hide Branch, Take, Variable, Source, Unary, Means, Defined, Next;
      stop, world' := None, world;
      var op := code[pc];
      pc := pc + 1;
      if Plain(op) == IF_GOTO {
        stop := DoIfGoto(code, op, world);
      } else if Popping(Plain(op)) {
        stop, world' := DoTake(host, Plain(op), IsChecked(op), world);
      } else if op == GOTO {
        pc := Word(code[..], pc);
      } else if op == END {
        return Some(Ended(top)), world;
      } else if HasVariable(op) {
        stop, world' := DoVariable(host, names, code, op, world);
      } else if IsSource(op) {
        stop := DoSource(host, code, op, world);
      } else if IsUnary(op) {
        stop, world' := DoUnary(host, code, op, world);
      }
      if stop.None? && loops && sp > STACK_MAX - 5 {
        return Some(StackOverflow), world';
      }
    }

    /** gtp_action_x on code the simple check accepted and rewrote, when no path pops below the
        array: it ends, with the outcome of the original code. */
    method RunStraight<W>(host: Host<W>, code: array<Byte>, count: nat, world: W,
                          ghost vars: seq<Var>, ghost original: seq<Byte>, ghost named: set<nat>,
                          ghost starts: set<nat>, ghost walked: set<nat>)
      returns (stop: Stop, world': W)
      requires Valid() && (stack as object) != code && pc == 0 && sp == 0 && top == 0 && count == |vars|
      requires RegularCode(original, vars, starts) && Patched(original, code[..], vars, {}, named)
      requires named <= walked <= starts && Closed(original, walked)
      requires forall p :: p in walked && p < |original| && HasVariable(original[p]) ==> p in named
      requires PathsOk(original, vars, 1, 0, 0)
      modifies this`pc, this`sp, this`top, stack
      ensures Run(host, ByNumber(vars), false, original, old(State(world)), |original|) == Stopped(stop, world')
    {
      var w, reason: Option<Stop> := world, None;
      ghost var n := 0;
      while reason.None?
        invariant Valid() && n <= code.Length
        invariant reason.None? ==> pc < code.Length && pc in walked && sp < STACK_MAX
        invariant reason.None? ==> PathsOk(original, vars, 1, pc, sp) && n <= pc
        invariant match reason
          case None => Run(host, ByNumber(vars), false, original, old(State(world)), code.Length)
                    == Run(host, ByNumber(vars), false, original, State(w), code.Length - n)
          case Some(why) => Run(host, ByNumber(vars), false, original, old(State(world)), code.Length) == Stopped(why, w)
        decreases if reason.None? then 1 + code.Length - n else 0
      {
        ghost var m := State(w);
        FineStep(host, vars, original, m);
        RenamedStep(host, original, code[..], vars, {}, named, starts, false, m);
        StepStays(host, ByNumber(vars), false, original, walked, m);
        reason, w := Iterate(host, ByPosition(count), false, code, w);
        n := n + 1;
      }
      return reason.value, w;
    }
  }
}
