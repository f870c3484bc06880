/**
 The two checks that run over an agent expression before tracing starts.  Both walk the code,
 rewriting it in place: the simple check follows every forward path with the depth of the
 stack; the loop check visits both sides of every jump and makes each popping opcode test the
 depth at run time.
 */
module AgentCheck {
  import opened AgentCode
  import opened AgentTrail

  const EINVAL := -22

  /** What the simple check answers: the code is straight (ret 0, or 2 when it sets $current), it
      has a backward jump, or it is refused with the given value. */
  datatype Verdict = Straight(current: bool) | HasLoop | Refused(ret: int)

  /** Every path from `pc`, entered with `sp` values on the stack, moves forward to an `end`,
      always finds the values it pops and never holds STACK_MAX.  An if_goto lowers the depth by
      `popped`: the simple check counts 0, the machine pops 1. */
  predicate PathsOk(code: seq<Byte>, vars: seq<Var>, popped: nat, pc: nat, sp: nat)
    decreases |code| - pc
  {
    pc < |code| &&
    var op := code[pc];
    op == END ||
    (Following(code, pc) <= |code| &&
     if op == GOTO then
       Word(code, pc + 1) > pc && PathsOk(code, vars, popped, Word(code, pc + 1), sp)
     else if op == IF_GOTO then
       && Word(code, pc + 1) > pc && sp >= popped
       && PathsOk(code, vars, popped, Word(code, pc + 1), sp - popped)
       && PathsOk(code, vars, popped, Following(code, pc), sp - popped)
     else
       && (Popping(op) || IsUnary(op) || IsSource(op) || HasVariable(op))
       && (HasVariable(op) ==> Allowed(vars, op, Word(code, pc + 1)))
       && Needs(op) <= sp && DepthAfter(op, sp) < STACK_MAX
       && PathsOk(code, vars, popped, Following(code, pc), DepthAfter(op, sp)))
  }

  function DepthAfter(op: Byte, sp: nat): nat
    requires Needs(op) <= sp
  {
    if IsSource(op) || op == GETV then sp + 1 else sp - Drops(op)
  }

  /** Instructions of `walked` lead only to `walked` and `front`. */
  ghost predicate Walk(code: seq<Byte>, walked: set<nat>, front: set<nat>) {
    && 0 in walked + front
    && (forall p :: p in walked ==> p < |code| && Following(code, p) <= |code|)
    && (forall p :: p in walked && p < |code| ==> Successors(code, p) <= walked + front)
  }

  lemma WalkOn(code: seq<Byte>, walked: set<nat>, front: set<nat>, p: nat, front': set<nat>)
    requires Walk(code, walked, front)
    requires p < |code| && Following(code, p) <= |code|
    requires front <= front' + {p} && Successors(code, p) <= front' + walked + {p}
    ensures Walk(code, walked + {p}, front')
  {
  }

  // ----- the worklist of the simple check -----

  function Weight(n: nat, p: nat): (w: nat)
    ensures w > 0
    decreases n - p
  {
    if p < n then 2 * Weight(n, p + 1) else 1
  }

  lemma {:induction false} WeightFalls(n: nat, p: nat, q: nat)
    requires p < q
    ensures Weight(n, q) <= Weight(n, p)
    ensures p < n ==> 2 * Weight(n, q) <= Weight(n, p)
    decreases q - p
  {
    if q > p + 1 {
      WeightFalls(n, p + 1, q);
    }
  }

  function TotalWeight(n: nat, work: seq<(nat, nat)>): nat {
    if work == [] then 0 else Weight(n, work[0].0) + TotalWeight(n, work[1..])
  }

  ghost function Targets(work: seq<(nat, nat)>): set<nat> {
    set g | g in work :: g.0
  }

  ghost predicate WorkOk(code: seq<Byte>, vars: seq<Var>, work: seq<(nat, nat)>) {
    forall g :: g in work ==> PathsOk(code, vars, 0, g.0, g.1)
  }

  lemma TargetsOfPush(g: (nat, nat), work: seq<(nat, nat)>)
    ensures Targets([g] + work) == {g.0} + Targets(work)
  {
    assert g in [g] + work;
    forall h | h in work
      ensures h.0 in Targets([g] + work)
    {
      assert h in [g] + work;
    }
  }

  lemma TargetsOfPop(work: seq<(nat, nat)>)
    requires work != []
    ensures Targets(work) == {work[0].0} + Targets(work[1..])
  {
    assert work == [work[0]] + work[1..];
    TargetsOfPush(work[0], work[1..]);
  }

  lemma WorkOkOfPush(code: seq<Byte>, vars: seq<Var>, g: (nat, nat), work: seq<(nat, nat)>)
    ensures WorkOk(code, vars, [g] + work) <==> PathsOk(code, vars, 0, g.0, g.1) && WorkOk(code, vars, work)
  {
    if WorkOk(code, vars, [g] + work) {
      assert g in [g] + work;
      forall h | h in work
        ensures PathsOk(code, vars, 0, h.0, h.1)
      {
        assert h in [g] + work;
      }
    }
  }

  // ----- which shared variables the code reads and sets -----

  ghost predicate Uses(code: seq<Byte>, vars: seq<Var>, named: set<nat>, num: nat, setting: bool) {
    exists p :: p in named && UsesAt(code, vars, p, num, setting)
  }

  predicate UsesAt(code: seq<Byte>, vars: seq<Var>, p: nat, num: nat, setting: bool) {
    && p + 3 <= |code|
    && Word(code, p + 1) == num && (code[p] == SETV) == setting
    && var k := Find(vars, num); k < |vars| && vars[k].shared
  }

  /** Some shared variable is both read and set. */
  ghost predicate Conflict(code: seq<Byte>, vars: seq<Var>, named: set<nat>) {
    exists num :: Uses(code, vars, named, num, false) && Uses(code, vars, named, num, true)
  }

  datatype Flags = Flags(read: bool, written: bool)

  function FlagsOf(flags: map<nat, Flags>, num: nat): Flags {
    if num in flags then flags[num] else Flags(false, false)
  }

  ghost predicate FlagsExact(code: seq<Byte>, vars: seq<Var>, named: set<nat>, flags: map<nat, Flags>) {
    && (forall num :: FlagsOf(flags, num).read <==> Uses(code, vars, named, num, false))
    && (forall num :: FlagsOf(flags, num).written <==> Uses(code, vars, named, num, true))
  }

  ghost predicate LockExact(code: seq<Byte>, vars: seq<Var>, named: set<nat>, flags: map<nat, Flags>, lock: bool) {
    && (lock <==> Conflict(code, vars, named))
    && (!lock ==> FlagsExact(code, vars, named, flags))
  }

  lemma UsesGrows(code: seq<Byte>, vars: seq<Var>, named: set<nat>, p: nat, num: nat, setting: bool)
    ensures Uses(code, vars, named + {p}, num, setting)
       <==> Uses(code, vars, named, num, setting) || UsesAt(code, vars, p, num, setting)
  {
    if UsesAt(code, vars, p, num, setting) {
      assert p in named + {p};
    }
    if Uses(code, vars, named, num, setting) {
      var q :| q in named && UsesAt(code, vars, q, num, setting);
      assert q in named + {p};
    }
  }

  function Noted(f: Flags, shared: bool, setting: bool): Flags {
    if !shared then f else if setting then f.(written := true) else f.(read := true)
  }

  /** Recording one more use keeps the flags exact and sets the lock exactly on a conflict. */
  lemma LockStaysExact(code: seq<Byte>, vars: seq<Var>, named: set<nat>, flags: map<nat, Flags>, lock: bool, p: nat)
    requires LockExact(code, vars, named, flags, lock)
    requires p + 3 <= |code| && Find(vars, Word(code, p + 1)) < |vars|
    ensures var num := Word(code, p + 1);
            var f := Noted(FlagsOf(flags, num), vars[Find(vars, num)].shared, code[p] == SETV);
            if lock then LockExact(code, vars, named + {p}, flags, true)
            else LockExact(code, vars, named + {p}, flags[num := f], f.read && f.written)
  {
    var num := Word(code, p + 1);
    var f := Noted(FlagsOf(flags, num), vars[Find(vars, num)].shared, code[p] == SETV);
    forall m, setting
      ensures Uses(code, vars, named + {p}, m, setting)
         <==> Uses(code, vars, named, m, setting) || UsesAt(code, vars, p, m, setting)
    {
      UsesGrows(code, vars, named, p, m, setting);
    }
    if lock {
      var m :| Uses(code, vars, named, m, false) && Uses(code, vars, named, m, true);
      assert Uses(code, vars, named + {p}, m, false) && Uses(code, vars, named + {p}, m, true);
    } else {
      assert FlagsExact(code, vars, named + {p}, flags[num := f]);
      if Conflict(code, vars, named + {p}) {
        var m :| Uses(code, vars, named + {p}, m, false) && Uses(code, vars, named + {p}, m, true);
        assert m == num;
      }
      if f.read && f.written {
        assert Uses(code, vars, named + {p}, num, false) && Uses(code, vars, named + {p}, num, true);
      }
    }
  }

  // ----- code with backward jumps, which the simple check leaves to the other -----

  /** The paths are as they should be up to a backward jump. */
  predicate PathsOrBack(code: seq<Byte>, vars: seq<Var>, pc: nat, sp: nat)
    decreases |code| - pc
  {
    pc < |code| &&
    var op := code[pc];
    op == END ||
    (Following(code, pc) <= |code| &&
     if IsJump(op) then
       && (Word(code, pc + 1) <= pc || PathsOrBack(code, vars, Word(code, pc + 1), sp))
       && (op == IF_GOTO && Word(code, pc + 1) > pc ==> PathsOrBack(code, vars, Following(code, pc), sp))
     else
       && Acceptable(code, vars, pc, sp) && DepthAfter(op, sp) < STACK_MAX
       && PathsOrBack(code, vars, Following(code, pc), DepthAfter(op, sp)))
  }

  ghost predicate Backward(code: seq<Byte>, vars: seq<Var>, pc: nat, sp: nat, spMax: nat, work: seq<(nat, nat)>) {
    && PathsOrBack(code, vars, pc, sp) && spMax < STACK_MAX
    && forall g :: g in work ==> PathsOrBack(code, vars, g.0, g.1)
  }

  lemma BackwardStart(code: seq<Byte>, vars: seq<Var>)
    ensures PathsOrBack(code, vars, 0, 0) ==> Backward(code, vars, 0, 0, 0, [])
  {
  }

  lemma BackwardHere(code: seq<Byte>, vars: seq<Var>, pc: nat, sp: nat, spMax: nat, work: seq<(nat, nat)>)
    requires Backward(code, vars, pc, sp, spMax, work)
    ensures pc < |code|
    ensures IsJump(code[pc]) ==> Following(code, pc) <= |code|
    ensures !IsJump(code[pc]) && code[pc] != END ==> Acceptable(code, vars, pc, sp)
    ensures spMax < STACK_MAX
  {
    hide Acceptable;
  }

  lemma BackwardForward(code: seq<Byte>, vars: seq<Var>, pc: nat, sp: nat, spMax: nat, work: seq<(nat, nat)>)
    requires Backward(code, vars, pc, sp, spMax, work) && pc < |code| && Acceptable(code, vars, pc, sp)
    ensures var depth := DepthAfter(code[pc], sp);
            Backward(code, vars, Following(code, pc), depth, Max(spMax, depth), work)
  {
  }

  lemma BackwardJump(code: seq<Byte>, vars: seq<Var>, pc: nat, sp: nat, spMax: nat, work: seq<(nat, nat)>)
    requires Backward(code, vars, pc, sp, spMax, work) && pc + 3 <= |code| && IsJump(code[pc]) && Word(code, pc + 1) > pc
    ensures code[pc] == GOTO ==> Backward(code, vars, Word(code, pc + 1), sp, spMax, work)
    ensures code[pc] == IF_GOTO ==>
      Backward(code, vars, Following(code, pc), sp, spMax, [(Word(code, pc + 1), sp)] + work)
  {
    hide Acceptable;
    forall g | g in [(Word(code, pc + 1), sp)] + work ensures PathsOrBack(code, vars, g.0, g.1) {
      assert g == (Word(code, pc + 1), sp) || g in work;
    }
  }

  lemma BackwardEnd(code: seq<Byte>, vars: seq<Var>, pc: nat, sp: nat, spMax: nat, work: seq<(nat, nat)>)
    requires Backward(code, vars, pc, sp, spMax, work) && work != []
    ensures Backward(code, vars, work[0].0, work[0].1, spMax, work[1..])
  {
    hide PathsOrBack;
    assert work[0] in work && forall g :: g in work[1..] ==> g in work;
  }

  lemma SetsCurrentIn(code: seq<Byte>, vars: seq<Var>, named: set<nat>, starts: set<nat>)
    requires named <= starts && SetsCurrent(code, vars, named)
    ensures SetsCurrent(code, vars, starts)
  {
    var p :| p in named && SetsCurrentAt(code, vars, p);
    assert p in starts;
  }

  // ----- the simple check keeps this between instructions -----

  ghost predicate SimpleInv(code: seq<Byte>, vars: seq<Var>, starts: set<nat>, named: set<nat>,
                            pc: nat, sp: nat, spMax: nat, work: seq<(nat, nat)>, walked: set<nat>) {
    && pc in starts && Targets(work) <= starts
    && Walk(code, walked, Targets(work) + {pc})
    && named <= walked <= starts
    && (forall p :: p in walked && p < |code| && HasVariable(code[p]) ==> p in named)
    && sp <= spMax && (forall g :: g in work ==> g.1 <= spMax)
    && (PathsOk(code, vars, 0, 0, 0)
        <==> PathsOk(code, vars, 0, pc, sp) && WorkOk(code, vars, work) && spMax < STACK_MAX)
    && (PathsOrBack(code, vars, 0, 0) ==> Backward(code, vars, pc, sp, spMax, work))
  }

  function Max(a: nat, b: nat): nat {
    if a < b then b else a
  }

  /** What the simple check asks of an instruction after which it goes on with the next. */
  predicate Acceptable(code: seq<Byte>, vars: seq<Var>, pc: nat, sp: nat)
    requires pc < |code|
  {
    && Sequential(code[pc]) && Needs(code[pc]) <= sp && Following(code, pc) <= |code|
    && (HasVariable(code[pc]) ==> Allowed(vars, code[pc], Word(code, pc + 1)))
  }

  lemma SimpleStart(code: seq<Byte>, vars: seq<Var>, starts: set<nat>)
    requires Layout(code, starts)
    ensures SimpleInv(code, vars, starts, {}, 0, 0, 0, [], {}) && !SetsCurrent(code, vars, {})
  {
    hide PathsOrBack, Backward;
    BackwardStart(code, vars);
  }

  lemma SimpleForward(code: seq<Byte>, vars: seq<Var>, starts: set<nat>, named: set<nat>,
                      pc: nat, sp: nat, spMax: nat, work: seq<(nat, nat)>, walked: set<nat>, named': set<nat>)
    requires Layout(code, starts) && SimpleInv(code, vars, starts, named, pc, sp, spMax, work, walked)
    requires pc < |code| && Acceptable(code, vars, pc, sp)
    requires named' == named + if HasVariable(code[pc]) then {pc} else {}
    ensures var depth := DepthAfter(code[pc], sp);
            SimpleInv(code, vars, starts, named', Following(code, pc), depth, Max(spMax, depth), work, walked + {pc})
  {
    hide PathsOrBack, Backward;
    var next := Following(code, pc);
    if PathsOrBack(code, vars, 0, 0) {
      BackwardForward(code, vars, pc, sp, spMax, work);
    }
    assert Successors(code, pc) == {next};
    WalkOn(code, walked, Targets(work) + {pc}, pc, Targets(work) + {next});
  }

  lemma SimpleGoto(code: seq<Byte>, vars: seq<Var>, starts: set<nat>, named: set<nat>,
                   pc: nat, sp: nat, spMax: nat, work: seq<(nat, nat)>, walked: set<nat>)
    requires Layout(code, starts) && SimpleInv(code, vars, starts, named, pc, sp, spMax, work, walked)
    requires pc < |code| && code[pc] == GOTO && Following(code, pc) <= |code| && Word(code, pc + 1) > pc
    ensures SimpleInv(code, vars, starts, named, Word(code, pc + 1), sp, spMax, work, walked + {pc})
  {
    hide PathsOrBack, Backward;
    var next := Word(code, pc + 1);
    if PathsOrBack(code, vars, 0, 0) {
      BackwardJump(code, vars, pc, sp, spMax, work);
    }
    assert Successors(code, pc) == {next};
    WalkOn(code, walked, Targets(work) + {pc}, pc, Targets(work) + {next});
  }

  lemma SimpleBranch(code: seq<Byte>, vars: seq<Var>, starts: set<nat>, named: set<nat>,
                     pc: nat, sp: nat, spMax: nat, work: seq<(nat, nat)>, walked: set<nat>)
    requires Layout(code, starts) && SimpleInv(code, vars, starts, named, pc, sp, spMax, work, walked)
    requires pc < |code| && code[pc] == IF_GOTO && Following(code, pc) <= |code| && Word(code, pc + 1) > pc
    ensures var work' := [(Word(code, pc + 1), sp)] + work;
            SimpleInv(code, vars, starts, named, Following(code, pc), sp, spMax, work', walked + {pc})
  {
    hide PathsOrBack, Backward;
    var g := (Word(code, pc + 1), sp);
    if PathsOrBack(code, vars, 0, 0) {
      BackwardJump(code, vars, pc, sp, spMax, work);
    }
    TargetsOfPush(g, work);
    WorkOkOfPush(code, vars, g, work);
    assert Successors(code, pc) == {g.0, Following(code, pc)};
    WalkOn(code, walked, Targets(work) + {pc}, pc, Targets([g] + work) + {Following(code, pc)});
  }

  lemma SimpleEnd(code: seq<Byte>, vars: seq<Var>, starts: set<nat>, named: set<nat>,
                  pc: nat, sp: nat, spMax: nat, work: seq<(nat, nat)>, walked: set<nat>)
    requires Layout(code, starts) && SimpleInv(code, vars, starts, named, pc, sp, spMax, work, walked)
    requires pc < |code| && code[pc] == END && spMax < STACK_MAX
    ensures work == [] ==> Closed(code, walked + {pc}) && PathsOk(code, vars, 0, 0, 0)
    ensures forall p :: p in walked + {pc} && p < |code| && HasVariable(code[p]) ==> p in named
    ensures work != [] ==>
      SimpleInv(code, vars, starts, named, work[0].0, work[0].1, spMax, work[1..], walked + {pc})
  {
    hide Layout, PathsOrBack, Backward;
    assert Successors(code, pc) == {};
    if work == [] {
      assert Targets(work) == {};
      WalkOn(code, walked, {pc}, pc, {});
    } else {
      if PathsOrBack(code, vars, 0, 0) {
        BackwardEnd(code, vars, pc, sp, spMax, work);
      }
      TargetsOfPop(work);
      assert work == [work[0]] + work[1..];
      WorkOkOfPush(code, vars, work[0], work[1..]);
      WalkOn(code, walked, Targets(work) + {pc}, pc, Targets(work[1..]) + {work[0].0});
    }
  }

  /** Some checked instruction sets $current. */
  ghost predicate SetsCurrent(code: seq<Byte>, vars: seq<Var>, named: set<nat>) {
    exists p :: p in named && SetsCurrentAt(code, vars, p)
  }

  predicate SetsCurrentAt(code: seq<Byte>, vars: seq<Var>, p: nat) {
    && p + 3 <= |code| && code[p] == SETV
    && var k := Find(vars, Word(code, p + 1)); k < |vars| && vars[k].onSet == 2
  }

  lemma CurrentGrows(code: seq<Byte>, vars: seq<Var>, named: set<nat>, p: nat, named': set<nat>)
    requires named' == named + {p} || (named' == named && !(p < |code| && HasVariable(code[p])))
    ensures SetsCurrent(code, vars, named') <==>
            SetsCurrent(code, vars, named) || (p !in named && SetsCurrentAt(code, vars, p))
  {
    if SetsCurrentAt(code, vars, p) {
      assert p in named';
    }
    if SetsCurrent(code, vars, named) {
      var q :| q in named && SetsCurrentAt(code, vars, q);
      assert q in named';
    }
  }

  predicate JumpsBack(code: seq<Byte>, p: nat) {
    && p + 3 <= |code| && (code[p] == GOTO || code[p] == IF_GOTO)
    && Word(code, p + 1) <= p
  }

  // ----- the loop check keeps this between instructions -----

  /** The instruction at `p` was rewritten and its successors are in `reach`, but for the
      fall-through of a jump whose entry is not done. */
  predicate Settled(code: seq<Byte>, vars: seq<Var>, marked: set<nat>, named: set<nat>, list: seq<Jump>,
                    reach: set<nat>, p: nat) {
    && p < |code| && Following(code, p) <= |code|
    && (Popping(code[p]) ==> p in marked)
    && (HasVariable(code[p]) ==> code[p] != SETV && p in named)
    && (code[p] == END || IsJump(code[p]) || Sequential(code[p]))
    && (Sequential(code[p]) ==> Following(code, p) in reach)
    && (IsJump(code[p]) ==> Listed(list, p + 1) && Word(code, p + 1) in reach)
    && (code[p] == IF_GOTO && Jump(p + 1, true) in list ==> Following(code, p) in reach)
  }

  ghost predicate LoopWalk(code: seq<Byte>, vars: seq<Var>, starts: set<nat>, marked: set<nat>, named: set<nat>,
                           list: seq<Jump>, walked: set<nat>, front: set<nat>) {
    && walked + front <= starts && 0 in walked + front
    && (forall p :: p in walked ==> Settled(code, vars, marked, named, list, walked + front, p))
    && (forall e :: e in list ==> e.addr > 0 && e.addr - 1 in walked && e.addr + 2 <= |code| && IsJump(code[e.addr - 1]))
    && (forall e :: e in list && code[e.addr - 1] == GOTO ==> e.done)
  }

  lemma SettledInside(code: seq<Byte>, vars: seq<Var>, marked: set<nat>, named: set<nat>, list: seq<Jump>, reach: set<nat>,
                      p: nat)
    requires Settled(code, vars, marked, named, list, reach, p)
    ensures p < |code| && Following(code, p) <= |code|
  {
  }

  /** More marks, names and places leave an instruction settled, and so does listing another jump. */
  lemma StillSettled(code: seq<Byte>, vars: seq<Var>, marked: set<nat>, named: set<nat>, list: seq<Jump>, reach: set<nat>,
                     q: nat, marked': set<nat>, named': set<nat>, list': seq<Jump>, reach': set<nat>)
    requires Settled(code, vars, marked, named, list, reach, q)
    requires marked <= marked' && named <= named' && reach <= reach'
    requires list' == list || (list' != [] && list'[1..] == list && list'[0].addr != q + 1)
    ensures Settled(code, vars, marked', named', list', reach', q)
  {
    if list' != list {
      assert list' == [list'[0]] + list;
    }
  }

  /** The front instruction is walked over. */
  lemma LoopOn(code: seq<Byte>, vars: seq<Var>, starts: set<nat>, marked: set<nat>, named: set<nat>,
               list: seq<Jump>, walked: set<nat>, p: nat, marked': set<nat>, named': set<nat>, list': seq<Jump>,
               front': set<nat>)
    requires LoopWalk(code, vars, starts, marked, named, list, walked, {p})
    requires marked <= marked' && named <= named'
    requires Settled(code, vars, marked', named', list', walked + {p} + front', p)
    requires list' == list || (p !in walked && list' == [Jump(p + 1, code[p] == GOTO)] + list && IsJump(code[p]))
    requires front' <= starts
    ensures LoopWalk(code, vars, starts, marked', named', list', walked + {p}, front')
  {
    hide Settled, Listed, Popping, HasVariable, Sequential;
    SettledInside(code, vars, marked', named', list', walked + {p} + front', p);
    var walked' := walked + {p};
    forall q | q in walked'
      ensures Settled(code, vars, marked', named', list', walked' + front', q)
    {
      if q != p {
        assert Settled(code, vars, marked, named, list, walked + {p}, q);
        StillSettled(code, vars, marked, named, list, walked + {p}, q, marked', named', list', walked' + front');
      }
    }
    forall e | e in list'
      ensures e.addr > 0 && e.addr - 1 in walked' && e.addr + 2 <= |code| && IsJump(code[e.addr - 1])
      ensures code[e.addr - 1] == GOTO ==> e.done
    {
      if e !in list {
        assert e == Jump(p + 1, code[p] == GOTO);
      }
    }
  }

  /** Behind a listed if_goto there is an instruction of the layout. */
  lemma FallInside(code: seq<Byte>, vars: seq<Var>, starts: set<nat>, marked: set<nat>, named: set<nat>,
                   list: seq<Jump>, walked: set<nat>, front: set<nat>, k: nat)
    requires RegularCode(code, vars, starts)
    requires LoopWalk(code, vars, starts, marked, named, list, walked, front) && k < |list| && !list[k].done
    ensures list[k].addr > 0 && list[k].addr - 1 in walked && list[k].addr + 2 <= |code|
    ensures code[list[k].addr - 1] == IF_GOTO && list[k].addr + 2 in starts
  {
    hide Settled, Successors, Following;
    var p := list[k].addr - 1;
    assert list[k] in list;
    FallSuccessor(code, p);
    assert Successors(code, p) <= starts;
  }

  lemma FallSuccessor(code: seq<Byte>, p: nat)
    requires p + 3 <= |code| && code[p] == IF_GOTO
    ensures p + 3 in Successors(code, p)
  {
  }

  /** The fall-through of a listed if_goto becomes the front. */
  lemma {:induction false} LoopFall(code: seq<Byte>, vars: seq<Var>, starts: set<nat>, marked: set<nat>, named: set<nat>,
                                    list: seq<Jump>, walked: set<nat>, front: set<nat>, k: nat)
    requires RegularCode(code, vars, starts)
    requires LoopWalk(code, vars, starts, marked, named, list, walked, front)
    requires front <= walked && k < |list| && !list[k].done
    ensures LoopWalk(code, vars, starts, marked, named, list[k := Jump(list[k].addr, true)], walked, {list[k].addr + 2})
  {
    hide Settled, RegularCode, IsJump;
    FallInside(code, vars, starts, marked, named, list, walked, front, k);
    var p := list[k].addr - 1;
    var list' := list[k := Jump(p + 1, true)];
    assert walked + front == walked;
    forall q | q in walked
      ensures Settled(code, vars, marked, named, list', walked + {p + 3}, q)
    {
      SettledAfterDone(code, vars, marked, named, list, walked, k, q);
    }
    forall e | e in list'
      ensures e.addr > 0 && e.addr - 1 in walked && e.addr + 2 <= |code| && IsJump(code[e.addr - 1])
      ensures code[e.addr - 1] == GOTO ==> e.done
    {
      assert list[k] in list && (e in list || e == Jump(p + 1, true));
    }
  }

  lemma SettledAfterDone(code: seq<Byte>, vars: seq<Var>, marked: set<nat>, named: set<nat>, list: seq<Jump>,
                         reach: set<nat>, k: nat, q: nat)
    requires k < |list| && list[k].addr > 0 && Settled(code, vars, marked, named, list, reach, q)
    ensures Settled(code, vars, marked, named, list[k := Jump(list[k].addr, true)], reach + {list[k].addr + 2}, q)
  {
    ListedAfterDone(list, k, q + 1);
  }

  lemma ListedAfterDone(list: seq<Jump>, k: nat, addr: nat)
    requires k < |list|
    ensures var list' := list[k := Jump(list[k].addr, true)];
            && (Listed(list, addr) ==> Listed(list', addr))
            && (Jump(addr, true) in list' ==> Jump(addr, true) in list || addr == list[k].addr)
  {
    var list' := list[k := Jump(list[k].addr, true)];
    forall e | e in list
      ensures e in list' || (e == list[k] && Jump(e.addr, true) in list')
    {
      var i :| 0 <= i < |list| && list[i] == e;
      assert list'[i] == e || i == k;
      assert list'[k] in list';
    }
  }

  /** The instruction may run after the loop check. */
  predicate Ready(code: seq<Byte>, marked: set<nat>, named: set<nat>, p: nat)
    requires p < |code|
  {
    && (code[p] == END || IsJump(code[p]) || Sequential(code[p]))
    && (Popping(code[p]) ==> p in marked)
    && (HasVariable(code[p]) ==> code[p] != SETV && p in named)
  }

  /** With no entry left to do and no front, the walked instructions are closed. */
  lemma LoopDone(code: seq<Byte>, vars: seq<Var>, starts: set<nat>, marked: set<nat>, named: set<nat>,
                 list: seq<Jump>, walked: set<nat>, front: set<nat>)
    requires LoopWalk(code, vars, starts, marked, named, list, walked, front) && front <= walked
    requires forall e :: e in list ==> e.done
    ensures Closed(code, walked) && walked <= starts
    ensures forall p :: p in walked && p < |code| ==> Ready(code, marked, named, p)
  {
    forall p | p in walked
      ensures p < |code| && Following(code, p) <= |code| && Successors(code, p) <= walked
      ensures Ready(code, marked, named, p)
    {
      assert Settled(code, vars, marked, named, list, walked + front, p);
      assert walked + front == walked;
    }
  }

  lemma WordPast(before: seq<Byte>, now: seq<Byte>, pc: nat)
    requires 0 < pc && pc + 2 <= |before| == |now|
    requires forall i :: pc <= i < |now| ==> now[i] == before[i]
    ensures Word(now, pc) == Word(before, pc)
  {
  }

  lemma LoopStart(code: seq<Byte>, vars: seq<Var>, starts: set<nat>)
    requires RegularCode(code, vars, starts)
    ensures LoopWalk(code, vars, starts, {}, {}, [], {}, {0})
  {
  }

  lemma LoopForward(code: seq<Byte>, vars: seq<Var>, starts: set<nat>, marked: set<nat>, named: set<nat>,
                    list: seq<Jump>, walked: set<nat>, p: nat, marked': set<nat>, named': set<nat>)
    requires RegularCode(code, vars, starts) && LoopWalk(code, vars, starts, marked, named, list, walked, {p})
    requires p < |code| && Following(code, p) <= |code| && Sequential(code[p]) && code[p] != SETV
    requires marked' == marked + if Popping(code[p]) then {p} else {}
    requires named' == named + if HasVariable(code[p]) then {p} else {}
    ensures LoopWalk(code, vars, starts, marked', named', list, walked + {p}, {Following(code, p)})
  {
    assert Following(code, p) in Successors(code, p);
    LoopOn(code, vars, starts, marked, named, list, walked, p, marked', named', list, {Following(code, p)});
  }

  lemma LoopEnd(code: seq<Byte>, vars: seq<Var>, starts: set<nat>, marked: set<nat>, named: set<nat>,
                list: seq<Jump>, walked: set<nat>, p: nat)
    requires LoopWalk(code, vars, starts, marked, named, list, walked, {p})
    requires p < |code| && code[p] == END
    ensures LoopWalk(code, vars, starts, marked, named, list, walked + {p}, {})
  {
    LoopOn(code, vars, starts, marked, named, list, walked, p, marked, named, list, {});
  }

  /** A jump not listed yet is listed and its target becomes the front. */
  lemma LoopJump(code: seq<Byte>, vars: seq<Var>, starts: set<nat>, marked: set<nat>, named: set<nat>,
                 list: seq<Jump>, walked: set<nat>, p: nat, marked': set<nat>)
    requires RegularCode(code, vars, starts) && LoopWalk(code, vars, starts, marked, named, list, walked, {p})
    requires p < |code| && Following(code, p) <= |code| && IsJump(code[p]) && !Listed(list, p + 1)
    requires marked' == marked + if code[p] == IF_GOTO then {p} else {}
    ensures LoopWalk(code, vars, starts, marked', named, [Jump(p + 1, code[p] == GOTO)] + list, walked + {p},
                     {Word(code, p + 1)})
  {
    var list' := [Jump(p + 1, code[p] == GOTO)] + list;
    assert Word(code, p + 1) in Successors(code, p);
    assert p !in walked by {
      assert p in walked ==> Settled(code, vars, marked, named, list, walked + {p}, p);
    }
    assert list'[0] in list';
    assert !(Jump(p + 1, true) in list);
    LoopOn(code, vars, starts, marked, named, list, walked, p, marked', named, list', {Word(code, p + 1)});
  }

  /** A listed jump has been walked over and marked. */
  lemma LoopListed(code: seq<Byte>, vars: seq<Var>, starts: set<nat>, marked: set<nat>, named: set<nat>,
                   list: seq<Jump>, walked: set<nat>, front: set<nat>, k: nat)
    requires LoopWalk(code, vars, starts, marked, named, list, walked, front) && k < |list|
    ensures list[k].addr > 0 && list[k].addr - 1 in walked && list[k].addr + 2 <= |code|
    ensures code[list[k].addr - 1] == IF_GOTO ==> list[k].addr - 1 in marked
  {
    assert list[k] in list;
    assert Settled(code, vars, marked, named, list, walked + front, list[k].addr - 1);
  }

  // ----- the list of the loop check only grows so far -----

  function NotDone(list: seq<Jump>): nat {
    if list == [] then 0 else (if list[0].done then 0 else 1) + NotDone(list[1..])
  }

  lemma {:induction false} DoneFalls(list: seq<Jump>, k: nat)
    requires k < |list| && !list[k].done
    ensures NotDone(list[k := Jump(list[k].addr, true)]) == NotDone(list) - 1
  {
    var list' := list[k := Jump(list[k].addr, true)];
    if k == 0 {
      assert list'[1..] == list[1..];
    } else {
      assert list'[1..] == list[1..][k - 1 := Jump(list[k].addr, true)];
      DoneFalls(list[1..], k - 1);
    }
  }

  ghost function Below(n: nat): (s: set<nat>)
    ensures |s| == n && forall i :: i in s <==> 0 <= i < n
  {
    if n == 0 then {} else Below(n - 1) + {n - 1}
  }

  lemma {:induction false} SubsetSmaller(a: set<nat>, b: set<nat>)
    requires a <= b
    ensures |a| <= |b|
  {
    if a != {} {
      var x :| x in a;
      SubsetSmaller(a - {x}, b - {x});
    }
  }

  /** Jumps at different addresses inside the code: there are no more than bytes. */
  ghost predicate Spread(list: seq<Jump>, addrs: set<nat>, n: nat) {
    |addrs| == |list| && (forall e :: e in list ==> e.addr in addrs) && (forall a :: a in addrs ==> a < n && Listed(list, a))
  }

  lemma SpreadStart(n: nat)
    ensures Spread([], {}, n)
  {
  }

  lemma SpreadBound(list: seq<Jump>, addrs: set<nat>, n: nat)
    requires Spread(list, addrs, n)
    ensures |list| <= n
  {
    SubsetSmaller(addrs, Below(n));
  }

  lemma SpreadPush(list: seq<Jump>, addrs: set<nat>, n: nat, e: Jump)
    requires Spread(list, addrs, n) && e.addr < n && !Listed(list, e.addr)
    ensures Spread([e] + list, addrs + {e.addr}, n)
  {
    assert e.addr !in addrs;
    assert e in [e] + list;
    forall a | a in addrs
      ensures Listed([e] + list, a)
    {
      assert forall d :: Jump(a, d) in list ==> Jump(a, d) in [e] + list;
    }
  }

  lemma SpreadDone(list: seq<Jump>, addrs: set<nat>, n: nat, k: nat)
    requires Spread(list, addrs, n) && k < |list|
    ensures Spread(list[k := Jump(list[k].addr, true)], addrs, n)
  {
    assert list[k] in list;
    forall a | a in addrs
      ensures Listed(list[k := Jump(list[k].addr, true)], a)
    {
      ListedAfterDone(list, k, a);
    }
  }

  /** What both checks keep about the rewritten code, the list of rewritten operands and the
      variable flags. */
  ghost predicate Consistent(code: seq<Byte>, now: seq<Byte>, vars: seq<Var>, starts: set<nat>, marked: set<nat>,
                             named: set<nat>, checked: seq<nat>, flags: map<nat, Flags>, lock: bool) {
    && Patched(code, now, vars, marked, named)
    && marked <= starts && named <= starts
    && (forall p :: p in named ==> p + 3 in checked)
    && (forall q :: q in checked ==> q >= 3 && q - 3 in named)
    && LockExact(code, vars, named, flags, lock)
  }

  /** The code has a layout, and positions in the variable list fit the operand they replace. */
  ghost predicate RegularCode(code: seq<Byte>, vars: seq<Var>, starts: set<nat>) {
    Layout(code, starts) && |vars| <= 0x1_0000
  }

  /** The code has no setv, whose operand the loop check does not skip; or positions in the
      variable list fit one byte, so that the byte after a setv becomes 0 and is refused.  And no
      check has been at work on it. */
  ghost predicate Loopable(code: seq<Byte>, vars: seq<Var>, starts: set<nat>) {
    && (|vars| <= 0x100 || forall p :: p in starts && p < |code| ==> code[p] != SETV)
    && forall p :: p in starts && p < |code| ==> code[p] != CHECKED_IF_GOTO
  }

  lemma SetvDooms(code: seq<Byte>, now: seq<Byte>, vars: seq<Var>, starts: set<nat>, marked: set<nat>,
                  named: set<nat>, checked: seq<nat>, flags: map<nat, Flags>, lock: bool, p: nat)
    requires Loopable(code, vars, starts) && p in starts && p < |code| && code[p] == SETV && p in named
    requires Consistent(code, now, vars, starts, marked, named, checked, flags, lock)
    ensures p + 1 < |now| && now[p + 1] == 0
  {
    assert Named(code, now, vars, p);
  }

  lemma RenamedConsistent(code: seq<Byte>, now: seq<Byte>, vars: seq<Var>, starts: set<nat>, marked: set<nat>,
                          named: set<nat>, checked: seq<nat>, flags: map<nat, Flags>, lock: bool, p: nat,
                          now': seq<Byte>, flags': map<nat, Flags>, lock': bool)
    requires RegularCode(code, vars, starts)
    requires Consistent(code, now, vars, starts, marked, named, checked, flags, lock)
    requires p in starts && p + 3 <= |code| && HasVariable(code[p]) && Allowed(vars, code[p], Word(code, p + 1))
    requires var num := Word(code, p + 1);
             var k := Find(vars, num);
             var f := Noted(FlagsOf(flags, num), vars[k].shared, code[p] == SETV);
             && now' == now[p + 1 := High(k)][p + 2 := Low(k)]
             && if lock then lock' && flags' == flags else flags' == flags[num := f] && lock' == (f.read && f.written)
    ensures Consistent(code, now', vars, starts, marked, named + {p}, checked + [p + 3], flags', lock')
  {
    hide Patched, LockExact, Layout, Noted, High, Low, Word, FlagsOf, Find, HasVariable;
    PatchName(code, now, vars, marked, named, starts, p, now');
    LockStaysExact(code, vars, named, flags, lock, p);
    CheckedMore(named, checked, p, named + {p}, checked + [p + 3]);
  }

  /** The list of rewritten operands grows with the instructions renamed. */
  lemma CheckedMore(named: set<nat>, checked: seq<nat>, p: nat, named': set<nat>, checked': seq<nat>)
    requires named' == named + {p} && checked' == checked + [p + 3]
    requires (forall q :: q in named ==> q + 3 in checked) && (forall q :: q in checked ==> q >= 3 && q - 3 in named)
    ensures forall q :: q in named' ==> q + 3 in checked'
    ensures forall q :: q in checked' ==> q >= 3 && q - 3 in named'
  {
  }

  /** The list holds exactly the instructions renamed; at any other the operand still is the
      variable's number. */
  lemma AtOperand(code: seq<Byte>, now: seq<Byte>, vars: seq<Var>, starts: set<nat>, marked: set<nat>,
                  named: set<nat>, checked: seq<nat>, flags: map<nat, Flags>, lock: bool, p: nat)
    requires RegularCode(code, vars, starts) && p in starts && p < |code| && HasVariable(code[p])
    requires Consistent(code, now, vars, starts, marked, named, checked, flags, lock)
    ensures p + 3 in checked <==> p in named
    ensures p in named ==> p + 3 <= |code| && Allowed(vars, code[p], Word(code, p + 1))
    ensures p !in named && p + 3 <= |code| ==> |now| == |code| && Word(now, p + 1) == Word(code, p + 1)
  {
    if p in named {
      assert Named(code, now, vars, p);
    } else {
      PatchKeeps(code, now, vars, marked, named, starts, p);
    }
  }

  /** At an instruction of the layout the opcode is the original one unless the loop check marked
      it, and a jump's operand is the original one. */
  lemma AtOpcode(code: seq<Byte>, now: seq<Byte>, vars: seq<Var>, starts: set<nat>, marked: set<nat>,
                 named: set<nat>, checked: seq<nat>, flags: map<nat, Flags>, lock: bool, p: nat)
    requires RegularCode(code, vars, starts) && p in starts && p < |code|
    requires Consistent(code, now, vars, starts, marked, named, checked, flags, lock)
    ensures |now| == |code|
    ensures p in marked ==> Popping(code[p])
    ensures now[p] == if p in marked then Checked(code[p]) else code[p]
    ensures IsJump(code[p]) && p + 3 <= |code| ==> Word(now, p + 1) == Word(code, p + 1)
  {
    PatchKeeps(code, now, vars, marked, named, starts, p);
    if IsJump(code[p]) && p + 3 <= |code| {
      assert p in named ==> Named(code, now, vars, p);
    }
  }

  lemma NowAsLong(code: seq<Byte>, now: seq<Byte>, vars: seq<Var>, starts: set<nat>, marked: set<nat>, named: set<nat>,
                  checked: seq<nat>, flags: map<nat, Flags>, lock: bool)
    requires Consistent(code, now, vars, starts, marked, named, checked, flags, lock)
    ensures |now| == |code|
  {
  }

  lemma PathsHere(code: seq<Byte>, vars: seq<Var>, pc: nat, sp: nat)
    requires PathsOk(code, vars, 0, pc, sp)
    ensures pc < |code|
    ensures IsJump(code[pc]) ==> Following(code, pc) <= |code| && Word(code, pc + 1) > pc
    ensures code[pc] != END && !IsJump(code[pc]) ==> Acceptable(code, vars, pc, sp)
  {
  }

  /** What the simple check knows before it reads the next opcode. */
  lemma SimpleHere(code: seq<Byte>, now: seq<Byte>, vars: seq<Var>, starts: set<nat>, marked: set<nat>,
                   named: set<nat>, checked: seq<nat>, flags: map<nat, Flags>, lock: bool,
                   pc: nat, sp: nat, spMax: nat, work: seq<(nat, nat)>, walked: set<nat>)
    requires RegularCode(code, vars, starts) && marked == {}
    requires Consistent(code, now, vars, starts, marked, named, checked, flags, lock)
    requires SimpleInv(code, vars, starts, named, pc, sp, spMax, work, walked)
    ensures pc in starts && |now| == |code| && named <= walked <= starts
    ensures pc < |code| ==> now[pc] == code[pc]
    ensures pc + 3 <= |code| && IsJump(code[pc]) ==> Word(now, pc + 1) == Word(code, pc + 1)
    ensures pc + 3 <= |code| && IsJump(code[pc]) && Word(code, pc + 1) <= pc ==> JumpsBack(code, pc)
    ensures PathsOk(code, vars, 0, 0, 0) ==>
      && pc < |code|
      && (code[pc] == END ==> spMax < STACK_MAX)
      && (IsJump(code[pc]) ==> Following(code, pc) <= |code| && Word(code, pc + 1) > pc)
      && (code[pc] != END && !IsJump(code[pc]) ==> Acceptable(code, vars, pc, sp))
    ensures PathsOrBack(code, vars, 0, 0) ==>
      && pc < |code| && spMax < STACK_MAX
      && (IsJump(code[pc]) ==> Following(code, pc) <= |code|)
      && (code[pc] != END && !IsJump(code[pc]) ==> Acceptable(code, vars, pc, sp))
    ensures SetsCurrent(code, vars, named) ==> SetsCurrent(code, vars, starts)
  {
    hide PathsOk, PathsOrBack, Backward, SetsCurrent, Acceptable, Consistent, RegularCode, Walk, WorkOk, Targets;
    NowAsLong(code, now, vars, starts, marked, named, checked, flags, lock);
    if PathsOk(code, vars, 0, 0, 0) {
      PathsHere(code, vars, pc, sp);
    }
    if SetsCurrent(code, vars, named) {
      SetsCurrentIn(code, vars, named, starts);
    }
    if PathsOrBack(code, vars, 0, 0) {
      BackwardHere(code, vars, pc, sp, spMax, work);
    }
    if pc < |code| {
      AtOpcode(code, now, vars, starts, marked, named, checked, flags, lock, pc);
    }
  }

  lemma MarkedConsistent(code: seq<Byte>, now: seq<Byte>, vars: seq<Var>, starts: set<nat>, marked: set<nat>,
                         named: set<nat>, checked: seq<nat>, flags: map<nat, Flags>, lock: bool, p: nat)
    requires RegularCode(code, vars, starts) && p in starts && p < |code| == |now| && Popping(code[p])
    requires Consistent(code, now, vars, starts, marked, named, checked, flags, lock)
    ensures Consistent(code, now[p := Checked(code[p])], vars, starts, marked + {p}, named, checked, flags, lock)
  {
    PatchMark(code, now, vars, marked, named, starts, p, now[p := Checked(code[p])]);
  }

  /** What the loop check knows before it reads the next opcode. */
  lemma LoopHere(code: seq<Byte>, now: seq<Byte>, vars: seq<Var>, starts: set<nat>, marked: set<nat>,
                 named: set<nat>, checked: seq<nat>, flags: map<nat, Flags>, lock: bool,
                 list: seq<Jump>, walked: set<nat>, pc: nat)
    requires RegularCode(code, vars, starts) && Loopable(code, vars, starts) && pc < |code|
    requires Consistent(code, now, vars, starts, marked, named, checked, flags, lock)
    requires LoopWalk(code, vars, starts, marked, named, list, walked, {pc})
    ensures pc in starts && |now| == |code|
    ensures Sequential(now[pc]) || now[pc] == GOTO || now[pc] == END ==> now[pc] == code[pc]
    ensures Plain(now[pc]) == IF_GOTO ==> code[pc] == IF_GOTO
    ensures Sequential(now[pc]) ==> pc !in marked
    ensures now[pc] == code[pc] || (pc in marked && Popping(code[pc]))
    ensures code[pc] == IF_GOTO ==> Plain(now[pc]) == IF_GOTO
    ensures pc + 3 <= |code| && IsJump(code[pc]) ==> Word(now, pc + 1) == Word(code, pc + 1)
  {
    hide Consistent, RegularCode, Settled, Listed, Word;
    AtOpcode(code, now, vars, starts, marked, named, checked, flags, lock, pc);
  }

  /** The list is that of jumps walked over. */
  lemma ListOfWalk(code: seq<Byte>, vars: seq<Var>, starts: set<nat>, marked: set<nat>, named: set<nat>,
                   list: seq<Jump>, walked: set<nat>, front: set<nat>)
    requires LoopWalk(code, vars, starts, marked, named, list, walked, front)
    ensures ListOk(code, list)
    ensures forall p :: p in walked && p + 3 <= |code| && IsJump(code[p]) ==> Listed(list, p + 1)
  {
    forall p | p in walked && p + 3 <= |code| && IsJump(code[p]) ensures Listed(list, p + 1) {
      assert Settled(code, vars, marked, named, list, walked + front, p);
    }
  }

  /** The loop check goes on from this opcode, the plain or the checked one of the instruction. */
  predicate LetThrough(code: seq<Byte>, vars: seq<Var>, op: Byte, pc: nat)
    requires pc < |code|
  {
    && Following(code, pc) <= |code| && op != SETV
    && (Plain(op) == IF_GOTO || op == GOTO || op == END || Sequential(op))
    && (Plain(op) == IF_GOTO || op == GOTO ==> pc + 3 <= |code|)
    && (HasVariable(code[pc]) ==> Allowed(vars, code[pc], Word(code, pc + 1)))
  }

  /** Inside code that is accepted, the walk knows every opcode it comes to. */
  lemma KnownOpcode(code: seq<Byte>, vars: seq<Var>, marked: set<nat>, list: seq<Jump>, cur: Side, pc: nat, reach: set<nat>,
                    op: Byte)
    requires Within(code, vars, list, reach, pc) && pc < |code| && Trail(code, marked, list, cur, pc)
    requires op == code[pc] || (pc in marked && Popping(code[pc]))
    requires code[pc] == IF_GOTO ==> Plain(op) == IF_GOTO
    ensures LetThrough(code, vars, op, pc)
  {
    hide Trail, Apart, Closed;
    WithinHere(code, vars, list, reach, pc);
    TrailMeets(code, marked, list, cur, pc, reach);
  }

  /** What was walked shows that the code is of the kind that is accepted. */
  lemma Accepted(code: seq<Byte>, now: seq<Byte>, vars: seq<Var>, starts: set<nat>, marked: set<nat>,
                 named: set<nat>, checked: seq<nat>, flags: map<nat, Flags>, lock: bool, walked: set<nat>)
    requires Consistent(code, now, vars, starts, marked, named, checked, flags, lock)
    requires Closed(code, walked) && Apart(code, walked)
    requires forall p :: p in walked && p < |code| ==> Ready(code, marked, named, p)
    ensures Loops(code, vars)
  {
    hide Apart;
    forall p | p in walked ensures Fine(code, vars, p) {
      assert Ready(code, marked, named, p);
      if HasVariable(code[p]) {
        assert Named(code, now, vars, p);
      }
    }
    assert Reaches(code, vars, walked);
  }

  /** Where the walk is, on which side, and if the code is of the kind that is accepted that it is inside. */
  ghost predicate Tracked(code: seq<Byte>, vars: seq<Var>, marked: set<nat>, list: seq<Jump>, cur: Side, pc: nat,
                          reach: set<nat>) {
    Trail(code, marked, list, cur, pc) && (Loops(code, vars) ==> Within(code, vars, list, reach, pc))
  }

  lemma TrackStarts(code: seq<Byte>, vars: seq<Var>) returns (reach: set<nat>)
    ensures Tracked(code, vars, {}, [], Start, 0, reach)
  {
    hide Trail, Loops, Within;
    TrailStart(code);
    reach := {};
    if Loops(code, vars) {
      reach := WithinStart(code, vars);
    }
  }

  /** What the loop check knows of the next opcode; in code that is accepted it lets it through. */
  lemma TrackArrives(code: seq<Byte>, now: seq<Byte>, vars: seq<Var>, starts: set<nat>, marked: set<nat>, named: set<nat>,
                     checked: seq<nat>, flags: map<nat, Flags>, lock: bool, list: seq<Jump>, walked: set<nat>, cur: Side,
                     pc: nat, reach: set<nat>)
    requires RegularCode(code, vars, starts) && Loopable(code, vars, starts)
    requires Consistent(code, now, vars, starts, marked, named, checked, flags, lock)
    requires LoopWalk(code, vars, starts, marked, named, list, walked, {pc})
    requires Tracked(code, vars, marked, list, cur, pc, reach)
    ensures |now| == |code| && (Loops(code, vars) ==> pc < |code|)
    ensures pc < |code| ==>
      && pc in starts
      && (Sequential(now[pc]) || now[pc] == GOTO || now[pc] == END ==> now[pc] == code[pc])
      && (Plain(now[pc]) == IF_GOTO ==> code[pc] == IF_GOTO)
      && (Sequential(now[pc]) ==> pc !in marked)
      && (pc + 3 <= |code| && IsJump(code[pc]) ==> Word(now, pc + 1) == Word(code, pc + 1))
    ensures Loops(code, vars) ==> pc < |code| && LetThrough(code, vars, now[pc], pc)
  {
    hide Consistent, Settled, Listed, Trail, Within, Loops, RegularCode, Loopable, LoopWalk, LetThrough;
    if Loops(code, vars) {
      WithinHere(code, vars, list, reach, pc);
    }
    NowAsLong(code, now, vars, starts, marked, named, checked, flags, lock);
    if pc < |code| {
      LoopHere(code, now, vars, starts, marked, named, checked, flags, lock, list, walked, pc);
      if Loops(code, vars) {
        KnownOpcode(code, vars, marked, list, cur, pc, reach, now[pc]);
      }
    }
  }

  /** The walk at a jump. */
  lemma TrackVisits(code: seq<Byte>, vars: seq<Var>, starts: set<nat>, marked: set<nat>, named: set<nat>, list: seq<Jump>,
                    walked: set<nat>, cur: Side, p: nat, reach: set<nat>, marked': set<nat>, out: bool, list': seq<Jump>,
                    pc': nat) returns (cur': Side)
    requires LoopWalk(code, vars, starts, marked, named, list, walked, {p})
    requires Tracked(code, vars, marked, list, cur, p, reach) && p + 3 <= |code| && IsJump(code[p])
    requires marked' == marked + if code[p] == GOTO then {} else {p}
    requires Visited(list, p + 1, code[p] == GOTO, out, list', pc')
    requires !out && !Listed(list, p + 1) ==> pc' == Word(code, p + 1)
    ensures Tracked(code, vars, marked', list', cur', if out then p else pc', reach)
  {
    hide LoopWalk, Trail, Within, Loops, Visited, Listed, ListOk, Word;
    ListOfWalk(code, vars, starts, marked, named, list, walked, {p});
    cur' := TrailVisit(code, marked, list, cur, p, marked', out, list', pc');
    if Loops(code, vars) {
      WithinVisit(code, vars, list, reach, p, out, list', pc');
    }
  }

  /** The walk over any other instruction. */
  lemma TrackForward(code: seq<Byte>, vars: seq<Var>, starts: set<nat>, marked: set<nat>, named: set<nat>, list: seq<Jump>,
                     walked: set<nat>, cur: Side, p: nat, reach: set<nat>, marked': set<nat>, named': set<nat>)
    requires RegularCode(code, vars, starts) && LoopWalk(code, vars, starts, marked, named, list, walked, {p})
    requires Tracked(code, vars, marked, list, cur, p, reach) && p !in marked
    requires p < |code| && Following(code, p) <= |code| && Sequential(code[p]) && code[p] != SETV
    requires marked' == marked + if Popping(code[p]) then {p} else {}
    requires named' == named + if HasVariable(code[p]) then {p} else {}
    ensures LoopWalk(code, vars, starts, marked', named', list, walked + {p}, {Following(code, p)})
    ensures Tracked(code, vars, marked', list, cur, Following(code, p), reach)
  {
    hide LoopWalk, Trail, Within, Loops, Sequential, Following, RegularCode;
    LoopForward(code, vars, starts, marked, named, list, walked, p, marked', named');
    TrailForward(code, marked, list, cur, p, marked');
    if Loops(code, vars) {
      WithinNext(code, vars, list, reach, p);
    }
  }

  /** At the end of a stretch, with nothing left to do. */
  lemma TrackDone(code: seq<Byte>, now: seq<Byte>, vars: seq<Var>, starts: set<nat>, marked: set<nat>, named: set<nat>,
                  checked: seq<nat>, flags: map<nat, Flags>, lock: bool, list: seq<Jump>, walked: set<nat>,
                  front: set<nat>, cur: Side, pc: nat, reach: set<nat>)
    requires Consistent(code, now, vars, starts, marked, named, checked, flags, lock)
    requires LoopWalk(code, vars, starts, marked, named, list, walked, front) && front <= walked
    requires Tracked(code, vars, marked, list, cur, pc, reach) && pc < |code| && (code[pc] == END || IsJump(code[pc]))
    requires forall e :: e in list ==> e.done
    ensures Closed(code, walked) && walked <= starts && Loops(code, vars)
    ensures forall p :: p in walked && p < |code| ==> Ready(code, marked, named, p)
  {
    hide Consistent, LoopWalk, Trail, Within, Loops, Listed, ListOk, Apart, Ready, Closed;
    ListOfWalk(code, vars, starts, marked, named, list, walked, front);
    LoopDone(code, vars, starts, marked, named, list, walked, front);
    TrailDone(code, marked, list, cur, pc, walked);
    Accepted(code, now, vars, starts, marked, named, checked, flags, lock, walked);
  }

  /** At the end of a stretch, going on behind an if_goto. */
  lemma TrackFalls(code: seq<Byte>, vars: seq<Var>, starts: set<nat>, marked: set<nat>, named: set<nat>, list: seq<Jump>,
                   walked: set<nat>, front: set<nat>, cur: Side, pc: nat, reach: set<nat>, k: nat) returns (cur': Side)
    requires RegularCode(code, vars, starts)
    requires LoopWalk(code, vars, starts, marked, named, list, walked, front) && front <= walked
    requires Tracked(code, vars, marked, list, cur, pc, reach) && pc < |code| && (code[pc] == END || IsJump(code[pc]))
    requires k < |list| && !list[k].done
    ensures LoopWalk(code, vars, starts, marked, named, list[k := Jump(list[k].addr, true)], walked, {list[k].addr + 2})
    ensures Tracked(code, vars, marked, list[k := Jump(list[k].addr, true)], cur', list[k].addr + 2, reach)
  {
    hide LoopWalk, Trail, Within, Loops, RegularCode;
    ListOfWalk(code, vars, starts, marked, named, list, walked, front);
    assert list[k] in list;
    cur' := Past(list[k].addr - 1);
    LoopFall(code, vars, starts, marked, named, list, walked, front, k);
    TrailFall(code, marked, list, cur, pc, k, marked);
    if Loops(code, vars) {
      WithinFall(code, vars, list, reach, pc, k);
    }
  }

  class Checker {
    const code: array<Byte>
    const vars: seq<Var>

    // The list var_pc_checked: the addresses just past operands already rewritten.
    var checked: seq<nat>
    // The list var_rw_flags and the action's need_var_lock.
    var flags: map<nat, Flags>
    var needLock: bool

    ghost const original: seq<Byte>
    ghost const starts: set<nat>
    ghost const looping: bool
    ghost var marked: set<nat>
    ghost var named: set<nat>

    constructor (code: array<Byte>, vars: seq<Var>, ghost starts: set<nat>, ghost looping: bool)
      ensures this.code == code && this.vars == vars && this.starts == starts && this.looping == looping
      ensures original == code[..] && named == {} && marked == {}
      ensures Regular() ==> Inv()
      ensures fresh(this)
    {
      this.code, this.vars, this.original := code, vars, code[..];
      this.starts, this.looping := starts, looping;
      checked, flags, needLock, marked, named := [], map[], false, {}, {};
    }

    ghost predicate Regular() {
      RegularCode(original, vars, starts) && (looping ==> Loopable(original, vars, starts))
    }

    ghost predicate Inv()
      reads this, code
    {
      && Regular() && code.Length == |original|
      && Consistent(original, code[..], vars, starts, marked, named, checked, flags, needLock)
    }

    /** gtp_var_find_num and gtp_var_array_find_num: the array lists the variables in list order,
        so the variable found is at the same position in both. */
    method FindVar(num: nat) returns (k: nat)
      ensures k == Find(vars, num)
    {
      k := 0;
      while k < |vars| && vars[k].num != num
        invariant k <= |vars|
        invariant Find(vars, num) == k + Find(vars[k..], num)
      {
        k := k + 1;
      }
    }

    /** gtp_check_var_add. */
    method AddVar(past: nat, num: nat, shared: bool, setting: bool)
      modifies this`checked, this`flags, this`needLock
      ensures checked == old(checked) + [past]
      ensures var f := Noted(FlagsOf(old(flags), num), shared, setting);
              if old(needLock) then needLock && flags == old(flags)
              else flags == old(flags)[num := f] && needLock == (f.read && f.written)
    {
      if !needLock {
        var f := if num in flags then flags[num] else Flags(false, false);
        if shared {
          if setting {
            f := f.(written := true);
          } else {
            f := f.(read := true);
          }
        }
        flags := flags[num := f];
        if f.read && f.written {
          needLock := true;
        }
      }
      checked := checked + [past];
    }

    /** The end of gtp_check_getv and gtp_check_setv: record the use and store the position. */
    method Rename(op: Byte, pc: nat, num: nat, k: nat)
      requires 0 < pc && pc + 2 <= code.Length && k < |vars|
      requires Regular() ==>
        && Inv() && pc - 1 in starts && original[pc - 1] == op && HasVariable(op)
        && num == Word(original, pc) && k == Find(vars, num) && Allowed(vars, op, num)
      modifies this`checked, this`flags, this`needLock, this`named, code
      ensures named == old(named) + {pc - 1}
      ensures Regular() ==> Inv()
    {
      hide Consistent, Allowed;
      ghost var before: seq<Byte> := code[..];
      AddVar(pc + 2, num, vars[k].shared, op == SETV);
      code[pc], code[pc + 1] := High(k), Low(k);
      if Regular() {
        assert code[..] == before[pc := High(k)][pc + 1 := Low(k)];
        RenamedConsistent(original, before, vars, starts, marked, named, old(checked), old(flags), old(needLock),
                          pc - 1, code[..], flags, needLock);
      }
      named := named + {pc - 1};
    }

    /** gtp_check_getv and gtp_check_setv for the instruction `op` whose operand is at `pc`. */
    method CheckVariable(op: Byte, pc: nat) returns (ret: int)
      requires pc > 0 && HasVariable(op)
      requires Regular() ==> Inv() && pc - 1 in starts && pc <= code.Length && original[pc - 1] == op
      modifies this`checked, this`flags, this`needLock, this`named, code
      ensures ret == 0 || ret == 2 ==> pc + 2 <= code.Length
      ensures Regular() ==> Inv()
      ensures Regular() ==>
        if ret == 0 || (op == SETV && ret == 2)
        then named == old(named) + {pc - 1} && Allowed(vars, op, Word(original, pc))
        else named == old(named) && (pc + 2 > code.Length || !Allowed(vars, op, Word(original, pc)))
      ensures Regular() && op == SETV && pc + 2 <= code.Length ==>
        (ret == 2 <==> pc - 1 !in old(named) && SetsCurrentAt(original, vars, pc - 1))
    {
      hide Consistent, Word, RegularCode, Loopable;
      if pc + 1 >= code.Length {
        return EINVAL;
      }
      if Regular() {
        AtOperand(original, code[..], vars, starts, marked, named, checked, flags, needLock, pc - 1);
      }
      var num := Word(code[..], pc);
      if pc + 2 in checked {
        return 0;
      }
      var k := FindVar(num);
      if k == |vars| {
        return EINVAL;
      }
      var answer := if op == SETV then vars[k].onSet else vars[k].onGet;
      if answer == 0 || (op == SETV && answer == 2) {
        Rename(op, pc, num, k);
      }
      return answer;
    }

    /** The cases of gtp_check_x_simple that go on with the next instruction; `pc` is just past
        the opcode. */
    method Sequence(op: Byte, pc: nat, sp: nat) returns (ok: bool, ret: int, pc': nat, sp': nat)
      requires 0 < pc <= code.Length
      requires op != END && op != GOTO && op != IF_GOTO
      requires Regular() ==> Inv() && pc - 1 in starts && original[pc - 1] == op
      modifies this`checked, this`flags, this`needLock, this`named, code
      ensures Regular() ==> Inv()
      ensures ok ==> pc <= pc'
      ensures Regular() ==> (ok <==> Acceptable(original, vars, pc - 1, sp))
      ensures Regular() && ok ==>
        && pc' == Following(original, pc - 1) && sp' == DepthAfter(op, sp)
        && named == old(named) + if HasVariable(op) then {pc - 1} else {}
      ensures Regular() && ok ==>
        (ret == 2 <==> pc - 1 !in old(named) && SetsCurrentAt(original, vars, pc - 1))
      ensures Regular() && !ok ==> named == old(named)
    {
      hide Consistent, Allowed, Word, RegularCode, Loopable;
      pc', sp', ret := pc + OperandBytes(op), sp, 0;
      if HasVariable(op) {
        ret := CheckVariable(op, pc);
        ok := ret == 0 || (op == SETV && ret == 2);
      } else {
        ok := Sequential(op) && sp >= Needs(op) && pc' <= code.Length;
      }
      if ok {
        sp' := if IsSource(op) || op == GETV then sp + 1 else sp - Drops(op);
      } else if ret == 0 {
        ret := EINVAL;
      }
    }

    /** gtp_check_x_simple, on bytecode no check has rewritten yet. */
    method CheckSimple() returns (v: Verdict, ghost walked: set<nat>)
      requires named == {} && marked == {} && (Regular() ==> Inv())
      modifies this`checked, this`flags, this`needLock, this`named, code
      ensures Regular() ==> Inv()
      ensures Regular() ==> (v.Straight? <==> PathsOk(original, vars, 0, 0, 0))
      ensures Regular() && v.Straight? ==>
        && Closed(original, walked) && named <= walked <= starts
        && (forall p :: p in walked && p < |original| && HasVariable(original[p]) ==> p in named)
      ensures Regular() && v.Straight? ==> (v.current <==> SetsCurrent(original, vars, named))
      ensures Regular() && v.HasLoop? ==> !SetsCurrent(original, vars, named)
      ensures Regular() && v.HasLoop? ==> exists p :: p in starts && JumpsBack(original, p)
      ensures Regular() && PathsOrBack(original, vars, 0, 0) && !SetsCurrent(original, vars, starts) ==> !v.Refused?
    {
      hide Consistent, SimpleInv, PathsOk, SetsCurrent, SetsCurrentAt, Acceptable, Word, Allowed, Layout;
      hide Walk, Closed, PathsOrBack, Weight, Drops, Needs, IsBinary, IsUnary, LockExact;
      var pc: nat, sp: nat, spMax: nat := 0, 0, 0;
      var work: seq<(nat, nat)> := [];
      var current := false;
      walked := {};
      if Regular() {
        SimpleStart(original, vars, starts);
      }
      while true
        invariant Regular() ==> Inv() && SimpleInv(original, vars, starts, named, pc, sp, spMax, work, walked)
        invariant Regular() ==> (current <==> SetsCurrent(original, vars, named))
        decreases Weight(code.Length, pc) + TotalWeight(code.Length, work)
      {
        ghost var at := pc;
        if Regular() {
          SimpleHere(original, code[..], vars, starts, marked, named, checked, flags, needLock,
                     at, sp, spMax, work, walked);
        }
        if pc >= code.Length {
          return Refused(EINVAL), walked;
        }
        var op := code[pc];
        WeightFalls(code.Length, at, at + 1);
        pc := pc + 1;
        if op == END {
          if spMax >= STACK_MAX {
            return Refused(EINVAL), walked;
          }
          if Regular() {
            SimpleEnd(original, vars, starts, named, at, sp, spMax, work, walked);
          }
          walked := walked + {at};
          if work == [] {
            return Straight(current), walked;
          }
          pc, sp, work := work[0].0, work[0].1, work[1..];
        } else if op == GOTO || op == IF_GOTO {
          if pc + 1 >= code.Length {
            return Refused(EINVAL), walked;
          }
          var target := Word(code[..], pc);
          if target < pc {
            return if current then Refused(EINVAL) else HasLoop, walked;
          }
          WeightFalls(code.Length, at, target);
          WeightFalls(code.Length, at + 1, pc + 2);
          if op == IF_GOTO {
            if Regular() {
              SimpleBranch(original, vars, starts, named, at, sp, spMax, work, walked);
            }
            work, pc := [(target, sp)] + work, pc + 2;
          } else {
            if Regular() {
              SimpleGoto(original, vars, starts, named, at, sp, spMax, work, walked);
            }
            pc := target;
          }
          walked := walked + {at};
        } else {
          ghost var named0 := named;
          var ok, ret, pc', sp' := Sequence(op, pc, sp);
          if !ok {
            return Refused(ret), walked;
          }
          if Regular() {
            SimpleForward(original, vars, starts, named0, at, sp, spMax, work, walked, named);
            CurrentGrows(original, vars, named0, at, named);
          }
          current := current || ret == 2;
          pc, sp := pc', sp';
          if spMax < sp {
            spMax := sp;
          }
          walked := walked + {at};
          WeightFalls(code.Length, at, pc);
        }
      }
    }

    /** gtp_x_loop_find. */
    method FindJump(list: seq<Jump>, addr: nat) returns (k: nat)
      ensures k <= |list|
      ensures k < |list| ==> list[k].addr == addr
      ensures k == |list| ==> !Listed(list, addr)
    {
      k := 0;
      while k < |list| && list[k].addr != addr
        invariant k <= |list|
        invariant forall i :: 0 <= i < k ==> list[i].addr != addr
      {
        k := k + 1;
      }
    }

    /** The scan at the label `out` of gtp_check_x_loop. */
    method FindNotDone(list: seq<Jump>) returns (k: nat)
      ensures k <= |list|
      ensures k < |list| ==> !list[k].done
      ensures k == |list| ==> forall e :: e in list ==> e.done
    {
      k := 0;
      while k < |list| && list[k].done
        invariant k <= |list|
        invariant forall i :: 0 <= i < k ==> list[i].done
      {
        k := k + 1;
      }
    }

    /** Store the checked form over the popping opcode at `p`. */
    method Mark(p: nat, op: Byte)
      requires p < code.Length && Popping(op)
      requires Regular() ==> Inv() && p in starts && original[p] == op
      modifies this`marked, code
      ensures marked == old(marked) + {p} && code[..] == old(code[..])[p := Checked(op)]
      ensures Regular() ==> Inv()
    {
      hide Consistent;
      if Regular() {
        MarkedConsistent(original, code[..], vars, starts, marked, named, checked, flags, needLock, p);
      }
      code[p] := Checked(op);
      marked := marked + {p};
      assert code[..] == old(code[..])[p := Checked(op)];
    }

    /** The cases of gtp_check_x_loop that go on with the next instruction. */
    method LoopSequence(op: Byte, pc: nat) returns (ok: bool, ret: int, pc': nat)
      requires 0 < pc <= code.Length && op == code[pc - 1] && Sequential(op)
      requires Regular() ==> Inv() && pc - 1 in starts && original[pc - 1] == op
      modifies this`checked, this`flags, this`needLock, this`named, this`marked, code
      ensures Regular() ==> Inv()
      ensures if ok then pc <= pc' else ret != 0
      ensures Regular() && ok ==>
        && pc' <= code.Length
        && (op != SETV ==> pc' == Following(original, pc - 1))
        && (op == SETV ==> pc' == pc)
        && marked == old(marked) + (if Popping(op) then {pc - 1} else {})
        && named == old(named) + if HasVariable(op) then {pc - 1} else {}
      ensures Regular() && op != SETV ==>
        (ok <==> Following(original, pc - 1) <= |original| && (HasVariable(op) ==> Allowed(vars, op, Word(original, pc))))
    {
      hide Consistent, Allowed;
      ret := EINVAL;
      if HasVariable(op) {
        ret := CheckVariable(op, pc);
        ok := ret == 0;
        pc' := if op == SETV then pc else pc + 2;
      } else {
        pc' := pc + OperandBytes(op);
        ok := pc' <= code.Length;
        if Popping(op) {
          Mark(pc - 1, op);
        }
      }
    }

    /** The if_goto and goto cases of gtp_check_x_loop; `pc` is just past the opcode. */
    method VisitJump(op: Byte, pc: nat, list: seq<Jump>, ghost addrs: set<nat>, ghost walked: set<nat>)
      returns (ok: bool, out: bool, pc': nat, list': seq<Jump>, ghost addrs': set<nat>, ghost walked': set<nat>)
      requires 0 < pc <= code.Length && op == code[pc - 1] && (Plain(op) == IF_GOTO || op == GOTO)
      requires Regular() ==>
        && Inv() && pc - 1 in starts && original[pc - 1] == Plain(op)
        && (pc + 2 <= code.Length ==> Word(code[..], pc) == Word(original, pc))
        && LoopWalk(original, vars, starts, marked, named, list, walked, {pc - 1})
      requires Spread(list, addrs, code.Length)
      modifies this`marked, code
      ensures Regular() ==> Inv()
      ensures Spread(list', addrs', code.Length) && |list| <= |list'| <= code.Length
      ensures ok && !out ==> |list'| > |list| || NotDone(list') < NotDone(list)
      ensures ok && out ==> list' == list
      ensures ok <==> pc + 2 <= code.Length
      ensures marked == old(marked) + if op == GOTO then {} else {pc - 1}
      ensures ok ==> Visited(list, pc, op == GOTO, out, list', pc')
      ensures ok && Regular() && !out && !Listed(list, pc) ==> pc' == Word(original, pc)
      ensures ok && Regular() && !out ==> LoopWalk(original, vars, starts, marked, named, list', walked', {pc'})
      ensures ok && Regular() && out ==>
        && walked' == walked && pc - 1 in walked
        && LoopWalk(original, vars, starts, marked, named, list, walked, {pc - 1})
    {
      hide Consistent, LoopWalk, Layout, Settled, Spread, Word, Loopable, RegularCode;
      ok, out, pc', list', addrs', walked' := false, false, pc, list, addrs, walked;
      SpreadBound(list, addrs, code.Length);
      ghost var marked0 := marked;
      ghost var before: seq<Byte> := code[..];
      if op != GOTO {
        Mark(pc - 1, IF_GOTO);
      }
      if pc + 1 >= code.Length {
        return;
      }
      ok := true;
      var k := FindJump(list, pc);
      if k < |list| {
        if Regular() {
          LoopListed(original, vars, starts, marked0, named, list, walked, {pc - 1}, k);
          assert marked == marked0;
        }
        assert list[k] in list && list[k] == Jump(pc, list[k].done);
        if list[k].done {
          out := true;
        } else {
          if Regular() {
            LoopFall(original, vars, starts, marked, named, list, walked, {pc - 1}, k);
          }
          DoneFalls(list, k);
          SpreadDone(list, addrs, code.Length, k);
          list' := list[k := Jump(list[k].addr, true)];
          pc' := pc + 2;
        }
      } else {
        if Regular() {
          LoopJump(original, vars, starts, marked0, named, list, walked, pc - 1, marked);
        }
        SpreadPush(list, addrs, code.Length, Jump(pc, op == GOTO));
        addrs' := addrs + {pc};
        list' := [Jump(pc, op == GOTO)] + list;
        SpreadBound(list', addrs', code.Length);
        walked' := walked + {pc - 1};
        WordPast(before, code[..], pc);
        pc' := Word(code[..], pc);
      }
    }

    /** gtp_check_x_loop, on bytecode no check has rewritten yet.  It accepts exactly the code of which all that
        control can reach is fine and whose ways do not meet on a popping instruction. */
    method CheckLoop() returns (ret: int, ghost walked: set<nat>)
      requires looping && named == {} && marked == {} && (Regular() ==> Inv())
      modifies this`checked, this`flags, this`needLock, this`named, this`marked, code
      ensures Regular() ==> Inv()
      ensures Regular() ==> (ret == 0 <==> Loops(original, vars))
      ensures Regular() && ret == 0 ==>
        && Closed(original, walked) && walked <= starts
        && forall p :: p in walked && p < |original| ==> Ready(original, marked, named, p)
    {
      hide Consistent, LoopWalk, Layout, Closed, Ready, Settled, Spread, Word, Loopable, RegularCode;
      hide Loops, Tracked, Visited, Listed, Allowed, NotDone;
      var pc: nat := 0;
      var list: seq<Jump> := [];
      ghost var addrs: set<nat> := {};
      ghost var doomed := false;
      ghost var cur := Start;
      ghost var reach := TrackStarts(original, vars);
      walked := {};
      SpreadStart(code.Length);
      if Regular() {
        LoopStart(original, vars, starts);
      }
      while true
        invariant Regular() ==> Inv()
        invariant Regular() && !doomed ==> LoopWalk(original, vars, starts, marked, named, list, walked, {pc})
        invariant Regular() && !doomed ==> Tracked(original, vars, marked, list, cur, pc, reach)
        invariant Regular() && doomed ==> pc < code.Length && code[pc] == 0 && !Loops(original, vars)
        invariant Spread(list, addrs, code.Length)
        decreases code.Length - |list|, NotDone(list), code.Length - pc
      {
        SpreadBound(list, addrs, code.Length);
        if Regular() && !doomed {
          TrackArrives(original, code[..], vars, starts, marked, named, checked, flags, needLock, list, walked, cur, pc, reach);
        }
        if pc >= code.Length {
          return EINVAL, walked;
        }
        ghost var at := pc;
        var op := code[pc];
        ghost var front, list0, marked0, named0 := {at}, list, marked, named;
        pc := pc + 1;
        var out := false;
        if Plain(op) == IF_GOTO || op == GOTO {
          ghost var walked0 := walked;
          var ok, list';
          ok, out, pc, list', addrs, walked := VisitJump(op, pc, list, addrs, walked);
          if !ok {
            return EINVAL, walked;
          }
          list := list';
          if Regular() {
            cur := TrackVisits(original, vars, starts, marked0, named, list0, walked0, cur, at, reach, marked, out, list, pc);
          }
        } else if op == END {
          if Regular() {
            LoopEnd(original, vars, starts, marked, named, list, walked, at);
          }
          walked, front := walked + {at}, {};
          out := true;
        } else if !Sequential(op) {
          return EINVAL, walked;
        } else {
          var ok, r, pc' := LoopSequence(op, pc);
          if !ok {
            return r, walked;
          }
          if Regular() {
            if op == SETV {
              SetvDooms(original, code[..], vars, starts, marked, named, checked, flags, needLock, at);
              doomed := true;
            } else {
              TrackForward(original, vars, starts, marked0, named0, list, walked, cur, at, reach, marked, named);
            }
          }
          walked := walked + {at};
          pc := pc';
        }
        if out {
          var k := FindNotDone(list);
          if k == |list| {
            if Regular() {
              TrackDone(original, code[..], vars, starts, marked, named, checked, flags, needLock, list, walked, front,
                        cur, at, reach);
            }
            return 0, walked;
          }
          if Regular() {
            cur := TrackFalls(original, vars, starts, marked, named, list, walked, front, cur, at, reach, k);
          }
          DoneFalls(list, k);
          SpreadDone(list, addrs, code.Length, k);
          pc := list[k].addr + 2;
          list := list[k := Jump(list[k].addr, true)];
        }
      }
    }
  }
}
