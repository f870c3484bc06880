/**
 What the checks buy at run time: properties of every run of the interpreter over code that one
 of them accepted.
 */
module AgentRuns {
  import opened Options
  import opened AgentCode
  import opened AgentTrail
  import opened AgentCheck
  import opened AgentMachine

  // ----- straight code: the depth the simple check counts -----

  /** The depth the simple check counts after the instruction. */
  function CountedAfter(op: Byte, depth: nat): nat
    requires op != IF_GOTO && op != GOTO && op != END ==> Needs(op) <= depth
  {
    if op == IF_GOTO || op == GOTO || op == END then depth else DepthAfter(op, depth)
  }

  function Branched(op: Byte): nat {
    if op == IF_GOTO then 1 else 0
  }

  /** What one iteration does to `sp`, for every opcode the checks let through: the depth moves
      as the opcode says, and a fault is a pop below the array. */
  lemma DepthEffect<W>(host: Host<W>, vars: seq<Var>, code: seq<Byte>, m: Machine<W>)
    requires m.pc < |code| && Following(code, m.pc) <= |code|
    requires var op := code[m.pc]; op == END || IsJump(op) || Sequential(op)
    requires HasVariable(code[m.pc]) ==> Allowed(vars, code[m.pc], Word(code, m.pc + 1))
    requires Sized(m) && m.sp < STACK_MAX
    ensures var o := Step(host, ByNumber(vars), false, code, m);
            var op := code[m.pc];
            && (o.Going? ==> op != END && Needs(op) <= m.sp && o.m.sp == DepthAfter(op, m.sp))
            && (o.Fault? ==> m.sp < Needs(op))
  {
    var op := code[m.pc];
    var m' := m.(pc := m.pc + 1);
    if op == END || op == GOTO || op == IF_GOTO {
    } else if Popping(op) {
      TakeEffect(host, op, false, m');
    } else if HasVariable(op) {
      assert Variable(host, ByNumber(vars), code, op, m') == VariableAt(host, Some(Find(vars, Word(code, m'.pc))), op, m');
    } else if IsSource(op) {
    } else {
      assert IsUnary(op);
    }
  }

  /** On a path the simple check accepts, an iteration moves forward along the path. */
  lemma Effect<W>(host: Host<W>, vars: seq<Var>, code: seq<Byte>, popped: nat, m: Machine<W>, depth: nat)
    requires popped <= 1 && PathsOk(code, vars, popped, m.pc, depth) && depth < STACK_MAX
    requires Sized(m) && m.sp <= depth
    ensures var o := Step(host, ByNumber(vars), false, code, m);
            var op := code[m.pc];
            && (o.Going? ==> m.pc < o.m.pc && op != END
                             && PathsOk(code, vars, popped, o.m.pc, CountedAfter(op, depth) - popped * Branched(op))
                             && CountedAfter(op, depth) < STACK_MAX
                             && o.m.sp + Branched(op) + depth == m.sp + CountedAfter(op, depth))
            && (o.Fault? ==> m.sp < Needs(op))
  {
    var o := Step(host, ByNumber(vars), false, code, m);
    if code[m.pc] != END {
      DepthEffect(host, vars, code, m);
      StepGoes(host, ByNumber(vars), false, code, m);
      hide Step;
    }
  }

  lemma TakeEffect<W>(host: Host<W>, op: Byte, checked: bool, m: Machine<W>)
    requires Sized(m) && Popping(op) && op != IF_GOTO && m.sp < STACK_MAX
    ensures var o := Take(host, op, checked, m);
            && (o.Going? ==> Needs(op) <= m.sp && o.m.pc == m.pc && o.m.sp == m.sp - Drops(op))
            && (o.Fault? ==> m.sp < Needs(op) && !checked)
  {
  }

  /** The if_gotos executed in the first n iterations. */
  function Branches<W>(host: Host<W>, vars: seq<Var>, code: seq<Byte>, m: Machine<W>, n: nat): nat
    requires Sized(m)
    decreases n
  {
    if n == 0 || m.pc >= |code| then 0
    else
      StepSized(host, ByNumber(vars), false, code, m);
      match Step(host, ByNumber(vars), false, code, m)
      case Going(m') => Branched(code[m.pc]) + Branches(host, vars, code, m', n - 1)
      case _ => Branched(code[m.pc])
  }

  lemma CountedStep<W>(host: Host<W>, vars: seq<Var>, code: seq<Byte>, m: Machine<W>, depth: nat)
    requires PathsOk(code, vars, 0, m.pc, depth) && depth < STACK_MAX && Sized(m) && m.sp <= depth
    ensures var o := Step(host, ByNumber(vars), false, code, m);
            && m.pc < |code|
            && (o.Going? ==> && m.pc < o.m.pc && Sized(o.m) && (code[m.pc] == IF_GOTO || Needs(code[m.pc]) <= depth)
                             && var d := CountedAfter(code[m.pc], depth);
                                PathsOk(code, vars, 0, o.m.pc, d) && d < STACK_MAX
                                && d - o.m.sp == depth - m.sp + Branched(code[m.pc]))
            && (o.Fault? ==> depth - m.sp + Branched(code[m.pc]) > 0)
  {
    Effect(host, vars, code, 0, m, depth);
  }

  /** Along a run from inside an accepted path: the counted depth is the real depth and the
      if_gotos executed, no push reaches the end of the array, and `pc` only moves forward. */
  lemma {:induction false} CountedDepth<W>(host: Host<W>, vars: seq<Var>, code: seq<Byte>, m: Machine<W>, depth: nat,
                                           n: nat)
    requires PathsOk(code, vars, 0, m.pc, depth) && depth < STACK_MAX && Sized(m) && m.sp <= depth
    ensures var o := Run(host, ByNumber(vars), false, code, m, n);
            var taken := Branches(host, vars, code, m, n);
            && (o.Going? ==> var counted := o.m.sp + taken + (depth - m.sp);
                             counted < STACK_MAX && PathsOk(code, vars, 0, o.m.pc, counted) && m.pc + n <= o.m.pc)
            && (o.Fault? ==> depth - m.sp + taken > 0)
    decreases n
  {
    hide Step, PathsOk, CountedAfter;
    if n > 0 {
      CountedStep(host, vars, code, m, depth);
      var o := Step(host, ByNumber(vars), false, code, m);
      if o.Going? {
        CountedDepth(host, vars, code, o.m, CountedAfter(code[m.pc], depth), n - 1);
      }
    }
  }

  /** Code accepted by the simple check: after n iterations of any run the depth the check counts
      on that path is the machine's depth plus the if_gotos executed, and stays below STACK_MAX;
      within |code| iterations the run is over; and it can only fault after an if_goto. */
  lemma StraightCode<W>(host: Host<W>, vars: seq<Var>, code: seq<Byte>, m: Machine<W>, n: nat)
    requires PathsOk(code, vars, 0, 0, 0) && Starting(m)
    ensures var o := Run(host, ByNumber(vars), false, code, m, n);
            var taken := Branches(host, vars, code, m, n);
            && (o.Going? ==> o.m.sp + taken < STACK_MAX && PathsOk(code, vars, 0, o.m.pc, o.m.sp + taken))
            && (n >= |code| ==> !o.Going?)
            && (o.Fault? ==> taken > 0)
  {
    CountedDepth(host, vars, code, m, 0, n);
  }

  lemma FineStep<W>(host: Host<W>, vars: seq<Var>, code: seq<Byte>, m: Machine<W>)
    requires PathsOk(code, vars, 1, m.pc, m.sp) && m.sp < STACK_MAX && Sized(m)
    ensures var o := Step(host, ByNumber(vars), false, code, m);
            && m.pc < |code| && !o.Fault?
            && (o.Going? ==> m.pc < o.m.pc && Sized(o.m) && o.m.sp < STACK_MAX && PathsOk(code, vars, 1, o.m.pc, o.m.sp))
  {
    Effect(host, vars, code, 1, m, m.sp);
  }

  /** When every path is also long enough with if_goto counted as the pop it is, no run faults. */
  lemma {:induction false} NoFault<W>(host: Host<W>, vars: seq<Var>, code: seq<Byte>, m: Machine<W>, n: nat)
    requires PathsOk(code, vars, 1, m.pc, m.sp) && m.sp < STACK_MAX && Sized(m)
    ensures m.pc < |code|
    ensures var o := Run(host, ByNumber(vars), false, code, m, n);
            !o.Fault? && (o.Going? ==> m.pc + n <= o.m.pc < |code|)
    decreases n
  {
    if n > 0 {
      FineStep(host, vars, code, m);
      hide Step, PathsOk;
      var o := Step(host, ByNumber(vars), false, code, m);
      if o.Going? {
        NoFault(host, vars, code, o.m, n - 1);
      }
    }
  }

  /** const8 1; if_goto 5; pop; end: the simple check counts one value at the pop, the machine
      has none. */
  const UNDERFLOWING: seq<Byte> := [0x22, 1, IF_GOTO, 0, 5, POP, END]

  lemma AcceptedCodeCanFault<W>(host: Host<W>, vars: seq<Var>, m: Machine<W>)
    requires Starting(m)
    ensures PathsOk(UNDERFLOWING, vars, 0, 0, 0)
    ensures Run(host, ByNumber(vars), false, UNDERFLOWING, m, 3) == Fault
  {
    var code := UNDERFLOWING;
    assert PathsOk(code, vars, 0, 6, 0);
    assert PathsOk(code, vars, 0, 5, 1);
    assert Word(code, 3) == 5;
    assert PathsOk(code, vars, 0, 2, 1);
    var m1 := m.(pc := 2, sp := 1, stack := m.stack[0 := 0], top := 1);
    assert code[1..2] == [1];
    assert Constant(0, [1]) == 1;
    assert Step(host, ByNumber(vars), false, code, m) == Going(m1);
    var m2 := m1.(pc := 5, sp := 0, top := 0);
    assert Step(host, ByNumber(vars), false, code, m1) == Going(m2);
    assert Step(host, ByNumber(vars), false, code, m2) == Fault;
    assert Run(host, ByNumber(vars), false, code, m2, 1) == Fault;
    assert Run(host, ByNumber(vars), false, code, m1, 2) == Fault;
  }

  // ----- exactly when popping at every if_goto is safe -----

  /** Some path of the code, taking each if_goto as `choices` says, pops below the array. */
  predicate PopsBelow(code: seq<Byte>, pc: nat, sp: nat, choices: seq<bool>)
    decreases |code| - pc
  {
    pc < |code| && code[pc] != END && Following(code, pc) <= |code| &&
    var op := code[pc];
    if op == GOTO then
      Word(code, pc + 1) > pc && PopsBelow(code, Word(code, pc + 1), sp, choices)
    else if op == IF_GOTO then
      sp == 0 || (choices != [] &&
        var next := if choices[0] then Word(code, pc + 1) else Following(code, pc);
        next > pc && PopsBelow(code, next, sp - 1, choices[1..]))
    else
      sp < Needs(op) || PopsBelow(code, Following(code, pc), DepthAfter(op, sp), choices)
  }

  ghost predicate CanPopBelow(code: seq<Byte>, pc: nat, sp: nat) {
    exists choices :: PopsBelow(code, pc, sp, choices)
  }

  lemma PopsBelowBy(code: seq<Byte>, pc: nat, sp: nat, choices: seq<bool>)
    requires PopsBelow(code, pc, sp, choices)
    ensures CanPopBelow(code, pc, sp)
  {
  }

  /** Off branches, a path pops below the array exactly when its rest does. */
  lemma BelowPassesOn(code: seq<Byte>, pc: nat, sp: nat, next: nat, sp': nat)
    requires pc < next && pc < |code|
    requires forall choices :: PopsBelow(code, pc, sp, choices) <==> PopsBelow(code, next, sp', choices)
    ensures CanPopBelow(code, pc, sp) <==> CanPopBelow(code, next, sp')
  {
    if CanPopBelow(code, pc, sp) {
      var choices :| PopsBelow(code, pc, sp, choices);
      PopsBelowBy(code, next, sp', choices);
    }
    if CanPopBelow(code, next, sp') {
      var choices :| PopsBelow(code, next, sp', choices);
      PopsBelowBy(code, pc, sp, choices);
    }
  }

  lemma BelowAtBranch(code: seq<Byte>, pc: nat, sp: nat)
    requires pc < |code| && code[pc] == IF_GOTO && Following(code, pc) <= |code| && sp > 0
    requires Word(code, pc + 1) > pc
    ensures CanPopBelow(code, pc, sp)
       <==> CanPopBelow(code, Word(code, pc + 1), sp - 1) || CanPopBelow(code, Following(code, pc), sp - 1)
  {
    var taken, next := Word(code, pc + 1), Following(code, pc);
    if CanPopBelow(code, pc, sp) {
      var choices :| PopsBelow(code, pc, sp, choices);
      PopsBelowBy(code, if choices[0] then taken else next, sp - 1, choices[1..]);
    }
    if CanPopBelow(code, taken, sp - 1) {
      var choices :| PopsBelow(code, taken, sp - 1, choices);
      assert ([true] + choices)[1..] == choices;
      PopsBelowBy(code, pc, sp, [true] + choices);
    }
    if CanPopBelow(code, next, sp - 1) {
      var choices :| PopsBelow(code, next, sp - 1, choices);
      assert ([false] + choices)[1..] == choices;
      PopsBelowBy(code, pc, sp, [false] + choices);
    }
  }

  /** Among the code the simple check accepts, the code that stays within the array on every path,
      whatever its branches do, is exactly the code on which counting if_goto as a pop succeeds. */
  lemma {:induction false} PoppedExactly(code: seq<Byte>, vars: seq<Var>, pc: nat, depth: nat, sp: nat)
    requires PathsOk(code, vars, 0, pc, depth) && sp <= depth < STACK_MAX
    ensures PathsOk(code, vars, 1, pc, sp) <==> !CanPopBelow(code, pc, sp)
    decreases |code| - pc
  {
    var op := code[pc];
    if op == END {
      assert forall choices :: !PopsBelow(code, pc, sp, choices);
    } else if sp < Needs(op) {
      PopsBelowBy(code, pc, sp, []);
    } else if op == GOTO {
      PoppedExactly(code, vars, Word(code, pc + 1), depth, sp);
      BelowPassesOn(code, pc, sp, Word(code, pc + 1), sp);
    } else if op == IF_GOTO {
      PoppedExactly(code, vars, Word(code, pc + 1), depth, sp - 1);
      PoppedExactly(code, vars, Following(code, pc), depth, sp - 1);
      BelowAtBranch(code, pc, sp);
    } else {
      PoppedExactly(code, vars, Following(code, pc), DepthAfter(op, depth), DepthAfter(op, sp));
      BelowPassesOn(code, pc, sp, Following(code, pc), DepthAfter(op, sp));
    }
  }

  /** The branches the if_gotos of the first n iterations take. */
  function Taken<W>(host: Host<W>, vars: seq<Var>, code: seq<Byte>, m: Machine<W>, n: nat): seq<bool>
    requires Sized(m)
    decreases n
  {
    if n == 0 || m.pc >= |code| then []
    else
      StepSized(host, ByNumber(vars), false, code, m);
      match Step(host, ByNumber(vars), false, code, m)
      case Going(m') =>
        (if code[m.pc] == IF_GOTO then [m.top != 0] else []) + Taken(host, vars, code, m', n - 1)
      case _ => []
  }

  /** The path goes on where the machine does. */
  lemma {:induction false} BelowStep<W>(host: Host<W>, vars: seq<Var>, code: seq<Byte>, m: Machine<W>, depth: nat,
                                        rest: seq<bool>)
    requires PathsOk(code, vars, 0, m.pc, depth) && depth < STACK_MAX && Sized(m) && m.sp <= depth
    requires Step(host, ByNumber(vars), false, code, m).Going?
    ensures var m' := Step(host, ByNumber(vars), false, code, m).m;
            var taken := if code[m.pc] == IF_GOTO then [m.top != 0] else [];
            PopsBelow(code, m.pc, m.sp, taken + rest) <==> PopsBelow(code, m'.pc, m'.sp, rest)
  {
    DepthEffect(host, vars, code, m);
    StepGoes(host, ByNumber(vars), false, code, m);
    if code[m.pc] == IF_GOTO {
      assert ([m.top != 0] + rest)[1..] == rest;
    } else {
      assert [] + rest == rest;
      hide Step;
    }
  }

  /** What the condition says of a run: if it faults, the path it took pops below the array; if it
      reaches an `end`, that path does not.  (Other runs stop at an error first.) */
  lemma {:induction false} RunTakesPath<W>(host: Host<W>, vars: seq<Var>, code: seq<Byte>, m: Machine<W>, depth: nat,
                                           n: nat)
    requires PathsOk(code, vars, 0, m.pc, depth) && depth < STACK_MAX && Sized(m) && m.sp <= depth
    ensures var o := Run(host, ByNumber(vars), false, code, m, n);
            var taken := Taken(host, vars, code, m, n);
            && (o.Fault? ==> PopsBelow(code, m.pc, m.sp, taken))
            && (o.Stopped? && o.stop.Ended? ==> !PopsBelow(code, m.pc, m.sp, taken))
    decreases n
  {
    if n > 0 {
      CountedStep(host, vars, code, m, depth);
      var o := Step(host, ByNumber(vars), false, code, m);
      if o.Going? {
        BelowStep(host, vars, code, m, depth, Taken(host, vars, code, o.m, n - 1));
        hide Step, PathsOk, CountedAfter, PopsBelow;
        RunTakesPath(host, vars, code, o.m, CountedAfter(code[m.pc], depth), n - 1);
      } else {
        BelowStops(host, vars, code, m, depth);
      }
    }
  }

  lemma {:induction false} BelowStops<W>(host: Host<W>, vars: seq<Var>, code: seq<Byte>, m: Machine<W>, depth: nat)
    requires PathsOk(code, vars, 0, m.pc, depth) && depth < STACK_MAX && Sized(m) && m.sp <= depth
    ensures var o := Step(host, ByNumber(vars), false, code, m);
            && (o.Fault? ==> PopsBelow(code, m.pc, m.sp, []))
            && (o.Stopped? && o.stop.Ended? ==> !PopsBelow(code, m.pc, m.sp, []))
  {
    if code[m.pc] != END {
      DepthEffect(host, vars, code, m);
    }
  }

  /** Accepted code from its start: a run that no error cuts short pops below the array if and only
      if the path it takes does; and it does so for no choice of branches exactly when the check
      would also pass with if_goto counted as a pop. */
  lemma FaultExactly<W>(host: Host<W>, vars: seq<Var>, code: seq<Byte>, m: Machine<W>)
    requires PathsOk(code, vars, 0, 0, 0) && Starting(m)
    ensures var o := Run(host, ByNumber(vars), false, code, m, |code|);
            && !o.Going?
            && (o.Fault? || o.stop.Ended? ==> (o.Fault? <==> PopsBelow(code, 0, 0, Taken(host, vars, code, m, |code|))))
            && (o.Fault? ==> !PathsOk(code, vars, 1, 0, 0))
  {
    StraightCode(host, vars, code, m, |code|);
    RunTakesPath(host, vars, code, m, 0, |code|);
    PoppedExactly(code, vars, 0, 0, 0);
  }

  // ----- renaming operands keeps the meaning -----

  /** At an instruction the check walked, the rewritten code run by position does what the
      original code does by number. */
  lemma RenamedStep<W>(host: Host<W>, code: seq<Byte>, now: seq<Byte>, vars: seq<Var>, marked: set<nat>,
                       named: set<nat>, starts: set<nat>, loops: bool, m: Machine<W>)
    requires Layout(code, starts) && Patched(code, now, vars, marked, named)
    requires marked <= starts && named <= starts && m.pc in starts && m.pc !in marked
    requires m.pc < |code| && Following(code, m.pc) <= |code|
    requires HasVariable(code[m.pc]) ==> m.pc in named
    requires Sized(m)
    ensures Step(host, ByPosition(|vars|), loops, now, m) == Step(host, ByNumber(vars), loops, code, m)
  {
    PatchKeeps(code, now, vars, marked, named, starts, m.pc);
    var op := code[m.pc];
    if HasVariable(op) {
      assert Named(code, now, vars, m.pc);
    } else {
      assert m.pc !in named by {
        assert m.pc in named ==> Named(code, now, vars, m.pc);
      }
      SameBytes(host, ByPosition(|vars|), ByNumber(vars), code, now, m);
    }
  }

  /** Other instructions depend only on their own bytes. */
  lemma SameBytes<W>(host: Host<W>, names: Names, names': Names, code: seq<Byte>, now: seq<Byte>, m: Machine<W>)
    requires |now| == |code| && m.pc < |code| && Following(code, m.pc) <= |code| && Sized(m)
    requires forall i :: m.pc <= i < Following(code, m.pc) ==> now[i] == code[i]
    requires !HasVariable(code[m.pc])
    ensures Execute(host, names, now, now[m.pc], m.(pc := m.pc + 1))
         == Execute(host, names', code, code[m.pc], m.(pc := m.pc + 1))
  {
    var p := m.pc + 1;
    assert now[p..Following(code, m.pc)] == code[p..Following(code, m.pc)];
  }

  /** Control stays inside the walked instructions. */
  lemma StepStays<W>(host: Host<W>, names: Names, loops: bool, code: seq<Byte>, walked: set<nat>, m: Machine<W>)
    requires Closed(code, walked) && m.pc in walked && Sized(m)
    ensures var o := Step(host, names, loops, code, m); o.Going? ==> o.m.pc in walked
  {
    var op := code[m.pc];
    var m' := m.(pc := m.pc + 1);
    assert Successors(code, m.pc) <= walked;
    StepGoes(host, names, loops, code, m);
  }

  lemma StepGoes<W>(host: Host<W>, names: Names, loops: bool, code: seq<Byte>, m: Machine<W>)
    requires m.pc < |code| && Following(code, m.pc) <= |code| && Sized(m)
    ensures var o := Step(host, names, loops, code, m); o.Going? ==> o.m.pc in Successors(code, m.pc)
  {
    var op := code[m.pc];
    var m' := m.(pc := m.pc + 1);
    if Plain(op) == IF_GOTO || op == GOTO || op == END {
    } else if Popping(Plain(op)) {
      assert OperandBytes(op) == 0;
    } else if HasVariable(op) {
    } else if IsSource(op) {
    } else if IsUnary(op) {
    } else {
      assert OperandBytes(op) == 0;
    }
  }

  /** The whole run of the rewritten code, by position, is the run of the original code by number,
      however many paths of the check met an operand. */
  lemma {:induction false} RenamingKeepsRuns<W>(host: Host<W>, code: seq<Byte>, now: seq<Byte>, vars: seq<Var>,
      named: set<nat>, starts: set<nat>, walked: set<nat>, m: Machine<W>, n: nat)
    requires Layout(code, starts) && Patched(code, now, vars, {}, named) && named <= walked <= starts
    requires Closed(code, walked) && forall p :: p in walked && p < |code| && HasVariable(code[p]) ==> p in named
    requires Sized(m) && m.pc in walked
    ensures Run(host, ByPosition(|vars|), false, now, m, n) == Run(host, ByNumber(vars), false, code, m, n)
    decreases n
  {
    if n > 0 {
      RenamedStep(host, code, now, vars, {}, named, starts, false, m);
      StepStays(host, ByNumber(vars), false, code, walked, m);
      StepSized(host, ByNumber(vars), false, code, m);
      var o := Step(host, ByNumber(vars), false, code, m);
      if o.Going? {
        RenamingKeepsRuns(host, code, now, vars, named, starts, walked, o.m, n - 1);
      }
    }
  }

  /** What the simple check promises for the code it accepts, as the interpreter meets it: the
      rewritten code, run by position, ends within |code| iterations with the outcome of the
      original code, and faults only after an if_goto. */
  lemma SimpleCheckSound<W>(host: Host<W>, code: seq<Byte>, now: seq<Byte>, vars: seq<Var>,
      named: set<nat>, starts: set<nat>, walked: set<nat>, m: Machine<W>, n: nat)
    requires RegularCode(code, vars, starts) && Patched(code, now, vars, {}, named) && named <= walked <= starts
    requires Closed(code, walked) && forall p :: p in walked && p < |code| && HasVariable(code[p]) ==> p in named
    requires PathsOk(code, vars, 0, 0, 0) && Starting(m) && n >= |code|
    ensures var o := Run(host, ByPosition(|vars|), false, now, m, n);
            && o == Run(host, ByNumber(vars), false, code, m, n)
            && !o.Going?
            && (o.Fault? ==> Branches(host, vars, code, m, n) > 0)
            && (PathsOk(code, vars, 1, 0, 0) ==> o.Stopped?)
  {
    RenamingKeepsRuns(host, code, now, vars, named, starts, walked, m, n);
    StraightCode(host, vars, code, m, n);
    if PathsOk(code, vars, 1, 0, 0) {
      NoFault(host, vars, code, m, n);
    }
  }

  // ----- code with loops -----

  /** At an opcode in its checked form: the same iteration, except that a pop below the array is
      reported as a code error. */
  lemma CheckedStep<W>(host: Host<W>, code: seq<Byte>, now: seq<Byte>, vars: seq<Var>, marked: set<nat>,
                       named: set<nat>, starts: set<nat>, loops: bool, m: Machine<W>)
    requires Layout(code, starts) && Patched(code, now, vars, marked, named)
    requires marked <= starts && named <= starts && m.pc in starts && m.pc in marked
    requires Following(code, m.pc) <= |code| && Sized(m)
    ensures m.pc < |code|
    ensures Step(host, ByPosition(|vars|), loops, now, m)
         == if m.sp < Needs(code[m.pc]) then Stopped(CodeError, m.world)
            else Step(host, ByNumber(vars), loops, code, m)
  {
    PatchKeeps(code, now, vars, marked, named, starts, m.pc);
    var op := code[m.pc];
    assert Plain(now[m.pc]) == op && IsChecked(now[m.pc]) && !IsChecked(op) && !HasVariable(op);
    assert m.pc in named ==> Named(code, now, vars, m.pc);
    var m' := m.(pc := m.pc + 1);
    if op == IF_GOTO {
      assert now[m.pc + 1] == code[m.pc + 1] && now[m.pc + 2] == code[m.pc + 2];
    } else {
      assert Execute(host, ByPosition(|vars|), now, now[m.pc], m') == Take(host, op, true, m');
      assert Execute(host, ByNumber(vars), code, op, m') == Take(host, op, false, m');
    }
  }

  /** The code the loop check accepted is closed, renamed and checked at every popping opcode. */
  ghost predicate LoopAccepted(code: seq<Byte>, now: seq<Byte>, vars: seq<Var>, marked: set<nat>,
                               named: set<nat>, starts: set<nat>, walked: set<nat>) {
    && Layout(code, starts) && Patched(code, now, vars, marked, named)
    && marked <= starts && named <= starts && walked <= starts && Closed(code, walked)
    && forall p :: p in walked && p < |code| ==> Ready(code, marked, named, p)
  }

  /** Each iteration of the rewritten code is the original one, or reports the pop that would
      have gone below the array. */
  lemma LoopStepMeaning<W>(host: Host<W>, code: seq<Byte>, now: seq<Byte>, vars: seq<Var>, marked: set<nat>,
                           named: set<nat>, starts: set<nat>, walked: set<nat>, m: Machine<W>)
    requires LoopAccepted(code, now, vars, marked, named, starts, walked) && m.pc in walked && Sized(m)
    ensures m.pc < |code|
    ensures Step(host, ByPosition(|vars|), true, now, m)
         == if m.sp < Needs(code[m.pc]) then Stopped(CodeError, m.world)
            else Step(host, ByNumber(vars), true, code, m)
  {
    assert Ready(code, marked, named, m.pc);
    if m.pc in marked {
      CheckedStep(host, code, now, vars, marked, named, starts, true, m);
    } else {
      RenamedStep(host, code, now, vars, marked, named, starts, true, m);
    }
  }

  /** An iteration that starts at a walked instruction with at most STACK_MAX - 5 values does not
      fault, and ends the same way or stops. */
  lemma LoopStepSafe<W>(host: Host<W>, code: seq<Byte>, now: seq<Byte>, vars: seq<Var>, marked: set<nat>,
                        named: set<nat>, starts: set<nat>, walked: set<nat>, m: Machine<W>)
    requires LoopAccepted(code, now, vars, marked, named, starts, walked) && m.pc in walked
    requires Sized(m) && m.sp <= STACK_MAX - 5
    ensures m.pc < |code|
    ensures var o := Step(host, ByPosition(|vars|), true, now, m);
            !o.Fault? && (o.Going? ==> o.m.pc in walked && o.m.sp <= STACK_MAX - 5)
  {
    LoopStepMeaning(host, code, now, vars, marked, named, starts, walked, m);
    if m.sp >= Needs(code[m.pc]) {
      assert Ready(code, marked, named, m.pc);
      assert HasVariable(code[m.pc]) ==> Named(code, now, vars, m.pc);
      DepthEffect(host, vars, code, m);
      StepStays(host, ByNumber(vars), true, code, walked, m);
    }
  }

  /** Every run of code the loop check accepted, however long: `pc` stays at a walked instruction,
      so inside the code; an iteration never starts with more than STACK_MAX - 5 values; nothing
      is read or written outside the code or the array. */
  lemma {:induction false} LoopCheckSound<W>(host: Host<W>, code: seq<Byte>, now: seq<Byte>, vars: seq<Var>,
      marked: set<nat>, named: set<nat>, starts: set<nat>, walked: set<nat>, m: Machine<W>, n: nat)
    requires LoopAccepted(code, now, vars, marked, named, starts, walked) && m.pc in walked
    requires Sized(m) && m.sp <= STACK_MAX - 5
    ensures var o := Run(host, ByPosition(|vars|), true, now, m, n);
            !o.Fault? && (o.Going? ==> o.m.pc in walked && o.m.pc < |code| && o.m.sp <= STACK_MAX - 5)
    decreases n
  {
    hide Step, LoopAccepted;
    LoopStepSafe(host, code, now, vars, marked, named, starts, walked, m);
    if n > 0 {
      StepSized(host, ByPosition(|vars|), true, now, m);
      var o := Step(host, ByPosition(|vars|), true, now, m);
      if o.Going? {
        LoopCheckSound(host, code, now, vars, marked, named, starts, walked, o.m, n - 1);
      }
    }
  }
}
