/**
 The interpreter gtp_action_x: a loop over `pc`, a cached top of stack and an array of STACK_MAX
 values.  Reading code past its end or the stack array outside its bounds is a fault.  What the
 bytecode asks of the rest of the tracer is a `Host`.
 */
module AgentMachine {
  import opened Options
  import opened AgentCode

  const WORD := 0x1_0000_0000_0000_0000

  // ULONGEST.
  type Value = x: int | 0 <= x < WORD

  /** Memory, registers, variables by their position in the list, and the frame being collected;
      `odd` stands for do_div, and for shifts and sign extensions C leaves undefined. */
  datatype Host<!W> = Host(
    odd: (Byte, Value, Value) -> Value,
    load: (W, Value, nat) -> Option<Value>,
    register: (W, nat) -> Option<Value>,
    getVar: (W, nat) -> Option<Value>,
    setVar: (W, nat, Value) -> Option<W>,
    collectMem: (W, Value, Value) -> (W, bool),
    collectVar: (W, nat) -> (W, bool))

  /** How the operand of getv, setv and tracev names a variable: by its number, as in the code
      GDB sends, or by its position in gtp_var_array. */
  datatype Names = ByNumber(vars: seq<Var>) | ByPosition(count: nat)

  function Resolve(names: Names, operand: nat): Option<nat> {
    match names
    case ByNumber(vars) => if Find(vars, operand) < |vars| then Some(Find(vars, operand)) else None
    case ByPosition(count) => if operand < count then Some(operand) else None
  }

  datatype Machine<W> = Machine(pc: nat, sp: nat, top: Value, stack: seq<Value>, world: W)

  datatype Stop = Ended(top: Value) | CollectFailed | CodeError | StackOverflow | HostError

  datatype Outcome<W> = Going(m: Machine<W>) | Stopped(stop: Stop, world: W) | Fault

  predicate Sized<W>(m: Machine<W>) {
    |m.stack| == STACK_MAX && m.sp <= STACK_MAX
  }

  // ----- arithmetic on 64-bit words -----

  function Pow2(n: nat): (r: nat)
    ensures r > 0
  {
    if n == 0 then 1 else 2 * Pow2(n - 1)
  }

  function Wrap(x: int): Value {
    x % WORD
  }

  // LONGEST.
  function Signed(v: Value): int {
    if v < WORD / 2 then v else v - WORD
  }

  function Truth(b: bool): Value {
    if b then 1 else 0
  }

  function Bits(op: Byte, a: nat, b: nat, width: nat): nat {
    if width == 0 then 0
    else
      var x, y := a % 2 == 1, b % 2 == 1;
      var z := if op == 0x0f then x && y else if op == 0x10 then x || y else x != y;
      (if z then 1 else 0) + 2 * Bits(op, a / 2, b / 2, width - 1)
  }

  function SignExtend(v: Value, width: nat): Value
    requires width > 0
  {
    var low := v % Pow2(width);
    Wrap(if low < Pow2(width - 1) then low else low - Pow2(width))
  }

  /** The result of a binary operator on the cached top and the value below it. */
  function Combine<W>(host: Host<W>, op: Byte, below: Value, top: Value): Value {
    if op == 0x02 then Wrap(below + top)
    else if op == 0x03 then Wrap(below - top)
    else if op == 0x04 then Wrap(below * top)
    else if 0x09 <= op <= 0x0b && top < 64 then
      if op == 0x09 then Wrap(below * Pow2(top))
      else if op == 0x0a then Wrap(Signed(below) / Pow2(top))
      else Wrap(below / Pow2(top))
    else if 0x0f <= op <= 0x11 then Wrap(Bits(op, below, top, 64))
    else if op == 0x13 then Truth(below == top)
    else if op == 0x14 then Truth(Signed(below) < Signed(top))
    else if op == 0x15 then Truth(below < top)
    else host.odd(op, below, top)
  }

  // The bytes of a constant, most significant first.
  function Constant(acc: Value, bytes: seq<Byte>): Value
    decreases |bytes|
  {
    if bytes == [] then acc else Constant(Wrap(acc * 256 + bytes[0]), bytes[1..])
  }

  // ----- one iteration -----

  /** if_goto; `m.pc` is just past the opcode, here and below. */
  function Branch<W>(code: seq<Byte>, checked: bool, m: Machine<W>): Outcome<W>
    requires Sized(m)
  {
    if m.top != 0 && m.pc + 2 > |code| then Fault
    else if m.sp == 0 then if checked then Stopped(CodeError, m.world) else Fault
    else Going(m.(pc := if m.top != 0 then Word(code, m.pc) else m.pc + 2,
                  sp := m.sp - 1, top := m.stack[m.sp - 1]))
  }

  /** trace collects [stack[sp-1], stack[sp-1] + top) and pops both. */
  function Trace<W>(host: Host<W>, m: Machine<W>): Outcome<W>
    requires Sized(m)
  {
    if m.sp == 0 then Fault
    else
      var (w, ok) := host.collectMem(m.world, m.stack[m.sp - 1], m.top);
      if !ok then Stopped(CollectFailed, w)
      else if m.sp == 1 then Fault
      else Going(m.(sp := m.sp - 2, top := m.stack[m.sp - 2], world := w))
  }

  function Swap<W>(m: Machine<W>): Outcome<W>
    requires Sized(m)
  {
    if m.sp == 0 || m.sp >= STACK_MAX then Fault
    else Going(m.(stack := m.stack[m.sp := m.top][m.sp - 1 := m.top], top := m.stack[m.sp - 1]))
  }

  function Operate<W>(host: Host<W>, op: Byte, m: Machine<W>): Outcome<W>
    requires Sized(m)
  {
    if m.sp == 0 then Fault
    else
      var below := m.stack[m.sp - 1];
      Going(m.(sp := m.sp - 1, top := if op == POP then below else Combine(host, op, below, m.top)))
  }

  /** The other popping opcodes: a checked one reports instead of popping below the array. */
  function Take<W>(host: Host<W>, op: Byte, checked: bool, m: Machine<W>): Outcome<W>
    requires Sized(m)
  {
    if IsDivide(op) && m.top == 0 then Stopped(CodeError, m.world)
    else if checked && m.sp < Needs(op) then Stopped(CodeError, m.world)
    else if op == TRACE then Trace(host, m)
    else if op == SWAP then Swap(m)
    else Operate(host, op, m)
  }

  function Push<W>(m: Machine<W>, top: Value, pc: nat): Outcome<W>
    requires Sized(m)
  {
    if m.sp >= STACK_MAX then Fault
    else Going(m.(pc := pc, sp := m.sp + 1, stack := m.stack[m.sp := m.top], top := top))
  }

  /** const8 to const64, reg and dup. */
  function Source<W>(host: Host<W>, code: seq<Byte>, op: Byte, m: Machine<W>): Outcome<W>
    requires Sized(m)
  {
    var past := m.pc + OperandBytes(op);
    if past > |code| || m.sp >= STACK_MAX then Fault
    else if op == REG then
      match host.register(m.world, Word(code, m.pc))
      case None => Stopped(HostError, m.world)
      case Some(v) => Push(m, v, past)
    else if op == DUP then Push(m, m.top, past)
    else Push(m, Constant(0, code[m.pc..past]), past)
  }

  function Unary<W>(host: Host<W>, code: seq<Byte>, op: Byte, m: Machine<W>): Outcome<W>
    requires Sized(m)
  {
    if m.pc + OperandBytes(op) > |code| then Fault
    else if op == 0x0e then Going(m.(top := Truth(m.top == 0)))
    else if op == 0x12 then Going(m.(top := WORD - 1 - m.top))
    else if op == TRACE_QUICK then
      var (w, ok) := host.collectMem(m.world, m.top, code[m.pc]);
      if ok then Going(m.(pc := m.pc + 1, world := w)) else Stopped(CollectFailed, w)
    else if op == EXT || op == ZERO_EXT then
      var arg: nat := code[m.pc];
      Going(m.(pc := m.pc + 1,
               top := if arg >= 64 then m.top
                      else if op == ZERO_EXT then Wrap(m.top % Pow2(arg))
                      else if 1 <= arg <= 32 then SignExtend(m.top, arg)
                      else host.odd(op, arg, m.top)))
    else
      match host.load(m.world, m.top, Pow2((op as int - 0x17) % 4))
      case None => Stopped(CodeError, m.world)
      case Some(v) => Going(m.(top := v))
  }

  function Variable<W>(host: Host<W>, names: Names, code: seq<Byte>, op: Byte, m: Machine<W>): Outcome<W>
    requires Sized(m)
  {
    if m.pc + 2 > |code| then Fault
    else VariableAt(host, Resolve(names, Word(code, m.pc)), op, m)
  }

  /** The effect of getv, setv or tracev on the variable found. */
  function VariableAt<W>(host: Host<W>, found: Option<nat>, op: Byte, m: Machine<W>): Outcome<W>
    requires Sized(m)
  {
    if found.None? || (op == GETV && m.sp >= STACK_MAX) then Fault
    else if op == GETV then
      match host.getVar(m.world, found.value)
      case None => Stopped(CodeError, m.world)
      case Some(v) => Push(m, v, m.pc + 2)
    else if op == SETV then
      match host.setVar(m.world, found.value, m.top)
      case None => Stopped(CodeError, m.world)
      case Some(w) => Going(m.(pc := m.pc + 2, world := w))
    else
      var (w, ok) := host.collectVar(m.world, found.value);
      if ok then Going(m.(pc := m.pc + 2, world := w)) else Stopped(HostError, w)
  }

  /** The switch.  An opcode it has no case for does nothing. */
  function Execute<W>(host: Host<W>, names: Names, code: seq<Byte>, op: Byte, m: Machine<W>): Outcome<W>
    requires Sized(m)
  {
    var plain := Plain(op);
    if plain == IF_GOTO then Branch(code, IsChecked(op), m)
    else if Popping(plain) then Take(host, plain, IsChecked(op), m)
    else if op == GOTO then if m.pc + 2 > |code| then Fault else Going(m.(pc := Word(code, m.pc)))
    else if op == END then Stopped(Ended(m.top), m.world)
    else if HasVariable(op) then Variable(host, names, code, op, m)
    else if IsSource(op) then Source(host, code, op, m)
    else if IsUnary(op) then Unary(host, code, op, m)
    else Going(m)
  }

  /** An action with loops stops when an iteration leaves more than STACK_MAX - 5 values. */
  function Guard<W>(loops: bool, o: Outcome<W>): Outcome<W> {
    if loops && o.Going? && o.m.sp > STACK_MAX - 5 then Stopped(StackOverflow, o.m.world) else o
  }

  function Step<W>(host: Host<W>, names: Names, loops: bool, code: seq<Byte>, m: Machine<W>): Outcome<W>
    requires Sized(m)
  {
    if m.pc >= |code| then Fault
    else Guard(loops, Execute(host, names, code, code[m.pc], m.(pc := m.pc + 1)))
  }

  lemma StepSized<W>(host: Host<W>, names: Names, loops: bool, code: seq<Byte>, m: Machine<W>)
    requires Sized(m)
    ensures var o := Step(host, names, loops, code, m); o.Going? ==> Sized(o.m)
  {
  }

  /** The outcome of at most n iterations. */
  function Run<W>(host: Host<W>, names: Names, loops: bool, code: seq<Byte>, m: Machine<W>, n: nat): (o: Outcome<W>)
    requires Sized(m)
    ensures o.Going? ==> Sized(o.m)
    decreases n
  {
    if n == 0 then Going(m)
    else
      StepSized(host, names, loops, code, m);
      match Step(host, names, loops, code, m)
      case Going(m') => Run(host, names, loops, code, m', n - 1)
      case o => o
  }

  // The machine before the first opcode: a dummy 0 on top of an empty array.
  predicate Starting<W>(m: Machine<W>) {
    Sized(m) && m.pc == 0 && m.sp == 0 && m.top == 0
  }
}
