/**
 The bytecode of agent expressions as gtp.c reads it: the opcodes, their operands, the checked
 form that the loop pass gives to an opcode that pops, and the control flow between
 instructions.
 */
module AgentCode {

  type Byte = x: int | 0 <= x < 256

  const STACK_MAX := 32

  const TRACE: Byte := 0x0c
  const TRACE_QUICK: Byte := 0x0d
  const EXT: Byte := 0x16
  const IF_GOTO: Byte := 0x20
  const GOTO: Byte := 0x21
  const REG: Byte := 0x26
  const END: Byte := 0x27
  const DUP: Byte := 0x28
  const POP: Byte := 0x29
  const ZERO_EXT: Byte := 0x2a
  const SWAP: Byte := 0x2b
  const GETV: Byte := 0x2c
  const SETV: Byte := 0x2d
  const TRACEV: Byte := 0x2e
  const CHECKED_IF_GOTO: Byte := 0xf3

  // Opcodes 0x05 to 0x08: division and remainder.
  predicate IsDivide(op: Byte) {
    0x05 <= op <= 0x08
  }

  // The operators that combine the top of the stack with the value below it.
  predicate IsBinary(op: Byte) {
    0x02 <= op <= 0x0b || 0x0f <= op <= 0x11 || 0x13 <= op <= 0x15
  }

  // The opcodes that read the stack array and have a checked form.
  predicate Popping(op: Byte) {
    IsBinary(op) || op == TRACE || op == POP || op == SWAP || op == IF_GOTO
  }

  // log_not, bit_not, ref8 to ref64, ext, zero_ext and trace_quick.
  predicate IsUnary(op: Byte) {
    op == 0x0e || op == 0x12 || 0x17 <= op <= 0x1a || op == EXT || op == ZERO_EXT || op == TRACE_QUICK
  }

  // const8 to const64, reg and dup.
  predicate IsSource(op: Byte) {
    0x22 <= op <= 0x26 || op == DUP
  }

  predicate HasVariable(op: Byte) {
    op == GETV || op == SETV || op == TRACEV
  }

  /** The opcodes op_check_add to op_check_if_goto. */
  predicate IsChecked(op: Byte) {
    0xe0 <= op <= 0xf3
  }

  function Checked(op: Byte): (r: Byte)
    requires Popping(op)
    ensures IsChecked(r) && Plain(r) == op
  {
    if op <= 0x0c then 0xe0 + (op - 0x02)
    else if op <= 0x11 then 0xeb + (op - 0x0f)
    else if op <= 0x15 then 0xee + (op - 0x13)
    else if op == POP then 0xf1
    else if op == SWAP then 0xf2
    else CHECKED_IF_GOTO
  }

  /** The opcode behind a checked form; every other opcode is itself. */
  function Plain(op: Byte): (r: Byte)
    ensures IsChecked(op) <==> r != op
    ensures IsChecked(op) ==> Popping(r)
  {
    if !IsChecked(op) then op
    else if op <= 0xea then op - 0xe0 + 0x02
    else if op <= 0xed then op - 0xeb + 0x0f
    else if op <= 0xf0 then op - 0xee + 0x13
    else if op == 0xf1 then POP
    else if op == 0xf2 then SWAP
    else IF_GOTO
  }

  function OperandBytes(op: Byte): nat {
    if op == 0x22 || op == EXT || op == ZERO_EXT || op == TRACE_QUICK then 1
    else if op == 0x23 || op == REG || Plain(op) == IF_GOTO || op == GOTO || HasVariable(op) then 2
    else if op == 0x24 then 4
    else if op == 0x25 then 8
    else 0
  }

  /** Values that must lie below the cached top for the opcode to succeed. */
  function Needs(op: Byte): nat {
    if op == TRACE then 2 else if Popping(op) then 1 else 0
  }

  /** Values by which the opcode makes the stack shallower. */
  function Drops(op: Byte): nat {
    if op == SWAP then 0 else Needs(op)
  }

  function Following(code: seq<Byte>, p: nat): nat
    requires p < |code|
  {
    p + 1 + OperandBytes(code[p])
  }

  function Word(code: seq<Byte>, p: nat): nat
    requires p + 2 <= |code|
  {
    var high: nat := code[p];
    high * 256 + code[p + 1]
  }

  // The two bytes the checks store for a position in the variable list.
  function High(k: nat): Byte {
    k / 256 % 256
  }

  function Low(k: nat): Byte {
    k % 256
  }

  /** Where control may go after the instruction at `p`. */
  function Successors(code: seq<Byte>, p: nat): set<nat>
    requires p < |code|
  {
    var op := Plain(code[p]);
    if op == END || Following(code, p) > |code| then {}
    else if op == GOTO then {Word(code, p + 1)}
    else if op == IF_GOTO then {Word(code, p + 1), Following(code, p)}
    else {Following(code, p)}
  }

  /** `starts` are positions of opcodes: control stays in them and no instruction that begins at
      one reaches into the next. */
  ghost predicate Layout(code: seq<Byte>, starts: set<nat>) {
    && 0 in starts
    && (forall p :: p in starts && p < |code| ==> Successors(code, p) <= starts)
    && (forall p, q :: p in starts && q in starts && p < q && p < |code| ==> Following(code, p) <= q)
  }

  /** `walked` contains the first instruction and every successor of its own instructions. */
  ghost predicate Closed(code: seq<Byte>, walked: set<nat>) {
    && 0 in walked
    && (forall p :: p in walked ==> p < |code| && Following(code, p) <= |code|)
    && (forall p :: p in walked && p < |code| ==> Successors(code, p) <= walked)
  }

  /** A trace state variable: its number, what the checks answer when an expression reads or sets
      it (0 to go on, 2 for $current, else the value they return), and whether it is shared. */
  datatype Var = Var(num: nat, onGet: int, onSet: int, shared: bool)

  /** The position of the first variable with this number, or the length of the list. */
  function Find(vars: seq<Var>, num: nat): (k: nat)
    ensures k <= |vars|
    ensures k < |vars| ==> vars[k].num == num
    ensures forall i :: 0 <= i < k ==> vars[i].num != num
  {
    if vars == [] || vars[0].num == num then 0 else 1 + Find(vars[1..], num)
  }

  /** Whether the check lets the getv, setv or tracev `op` through for the variable numbered `num`. */
  predicate Allowed(vars: seq<Var>, op: Byte, num: nat) {
    var k := Find(vars, num);
    k < |vars| && if op == SETV then vars[k].onSet == 0 || vars[k].onSet == 2 else vars[k].onGet == 0
  }

  /** `now` is `code` after a pass that gave the opcodes at `marked` their checked form and
      replaced the variable numbers of the instructions at `named` by positions in the list. */
  ghost predicate Patched(code: seq<Byte>, now: seq<Byte>, vars: seq<Var>, marked: set<nat>, named: set<nat>) {
    && |now| == |code|
    && (forall p :: p in marked ==> p < |code| && Popping(code[p]) && now[p] == Checked(code[p]))
    && (forall p :: p in named ==> Named(code, now, vars, p))
    && (forall i :: 0 <= i < |code| && i !in marked && i - 1 !in named && i - 2 !in named ==> now[i] == code[i])
  }

  ghost predicate Named(code: seq<Byte>, now: seq<Byte>, vars: seq<Var>, p: nat) {
    && p + 3 <= |code| == |now|
    && HasVariable(code[p])
    && Allowed(vars, code[p], Word(code, p + 1))
    && Word(now, p + 1) == Find(vars, Word(code, p + 1))
  }

  /** Off the instructions it renamed, a patch changes no byte of an instruction of the layout
      but a marked opcode. */
  lemma PatchKeeps(code: seq<Byte>, now: seq<Byte>, vars: seq<Var>, marked: set<nat>, named: set<nat>,
                   starts: set<nat>, p: nat)
    requires Layout(code, starts) && Patched(code, now, vars, marked, named)
    requires marked <= starts && named <= starts && p in starts && p < |code|
    ensures now[p] == if p in marked then Checked(code[p]) else code[p]
    ensures p !in named ==> forall i :: p < i < Following(code, p) && i < |code| ==> now[i] == code[i]
  {
    forall q | q in named && q != p
      ensures Following(code, p) <= q || q + 3 <= p
    {
      if q < p {
        assert Following(code, q) <= p;
      }
    }
    assert p - 1 !in named && p - 2 !in named;
    if p !in named {
      forall i | p < i < Following(code, p) && i < |code|
        ensures now[i] == code[i]
      {
        assert i !in marked && i - 1 !in named && i - 2 !in named;
      }
    }
  }

  /** So a patch keeps every edge of the control flow. */
  lemma PatchKeepsFlow(code: seq<Byte>, now: seq<Byte>, vars: seq<Var>, marked: set<nat>, named: set<nat>,
                       starts: set<nat>, p: nat)
    requires Layout(code, starts) && Patched(code, now, vars, marked, named)
    requires marked <= starts && named <= starts && p in starts && p < |code|
    ensures Plain(now[p]) == Plain(code[p]) && Following(now, p) == Following(code, p)
    ensures Successors(now, p) == Successors(code, p)
  {
    PatchKeeps(code, now, vars, marked, named, starts, p);
    PlainOfChecked(code[p], now[p]);
    if Following(code, p) <= |code| && p !in named {
      SameSuccessors(code, now, p);
    }
  }

  lemma PlainOfChecked(op: Byte, now: Byte)
    requires now == op || (Popping(op) && now == Checked(op))
    ensures Plain(now) == Plain(op) && OperandBytes(now) == OperandBytes(op)
  {
  }

  lemma SameSuccessors(code: seq<Byte>, now: seq<Byte>, p: nat)
    requires |now| == |code| && p < |code| && Following(code, p) <= |code|
    requires Plain(now[p]) == Plain(code[p]) && Following(now, p) == Following(code, p)
    requires forall i :: p < i < Following(code, p) ==> now[i] == code[i]
    ensures Successors(now, p) == Successors(code, p)
  {
  }

  /** Giving one more opcode of the layout its checked form. */
  lemma PatchMark(code: seq<Byte>, now: seq<Byte>, vars: seq<Var>, marked: set<nat>, named: set<nat>,
                  starts: set<nat>, p: nat, now': seq<Byte>)
    requires Layout(code, starts) && Patched(code, now, vars, marked, named)
    requires named <= starts && p in starts && p < |code| && Popping(code[p])
    requires now' == now[p := Checked(code[p])]
    ensures Patched(code, now', vars, marked + {p}, named)
  {
    forall q | q in named
      ensures Named(code, now', vars, q)
    {
      assert Named(code, now, vars, q);
      if q != p {
        InstructionsApart(code, starts, p, q);
      }
    }
  }

  /** Replacing one more variable number, at an instruction of the layout. */
  lemma PatchName(code: seq<Byte>, now: seq<Byte>, vars: seq<Var>, marked: set<nat>, named: set<nat>,
                  starts: set<nat>, p: nat, now': seq<Byte>)
    requires Layout(code, starts) && Patched(code, now, vars, marked, named)
    requires marked <= starts && named <= starts && p in starts
    requires p + 3 <= |code| && HasVariable(code[p]) && |vars| <= 0x1_0000
    requires var k := Find(vars, Word(code, p + 1));
             Allowed(vars, code[p], Word(code, p + 1)) && now' == now[p + 1 := High(k)][p + 2 := Low(k)]
    ensures Patched(code, now', vars, marked, named + {p})
  {
    var k := Find(vars, Word(code, p + 1));
    PositionFits(k);
    OnlyOperandChanges(now, p, High(k), Low(k), now');
    PatchNameAt(code, now, vars, marked, named, starts, p, now');
  }

  lemma PatchNameAt(code: seq<Byte>, now: seq<Byte>, vars: seq<Var>, marked: set<nat>, named: set<nat>,
                    starts: set<nat>, p: nat, now': seq<Byte>)
    requires Layout(code, starts) && Patched(code, now, vars, marked, named)
    requires marked <= starts && named <= starts && p in starts && Named(code, now', vars, p)
    requires forall i :: 0 <= i < |now| && i != p + 1 && i != p + 2 ==> now'[i] == now[i]
    ensures Patched(code, now', vars, marked, named + {p})
  {
    forall q | q in marked
      ensures now'[q] == now[q]
    {
      InstructionsApart(code, starts, p, q);
    }
    forall q | q in named
      ensures Named(code, now', vars, q)
    {
      assert Named(code, now, vars, q);
      if q != p {
        InstructionsApart(code, starts, p, q);
        NamedStays(code, now, now', vars, q);
      }
    }
  }

  lemma NamedStays(code: seq<Byte>, now: seq<Byte>, now': seq<Byte>, vars: seq<Var>, q: nat)
    requires Named(code, now, vars, q) && |now'| == |now|
    requires now'[q + 1] == now[q + 1] && now'[q + 2] == now[q + 2]
    ensures Named(code, now', vars, q)
  {
  }

  lemma InstructionsApart(code: seq<Byte>, starts: set<nat>, p: nat, q: nat)
    requires Layout(code, starts) && p in starts && q in starts && p != q && p < |code| && q < |code|
    ensures Following(code, p) <= q || Following(code, q) <= p
  {
  }

  lemma OnlyOperandChanges(now: seq<Byte>, p: nat, high: Byte, low: Byte, now': seq<Byte>)
    requires p + 3 <= |now| && now' == now[p + 1 := high][p + 2 := low]
    ensures Word(now', p + 1) == Word([high, low], 0)
    ensures forall i :: 0 <= i < |now| && i != p + 1 && i != p + 2 ==> now'[i] == now[i]
  {
  }

  /** The two bytes stored over a variable number read back as the position exactly when the
      position fits sixteen bits. */
  lemma PositionFits(k: nat)
    ensures Word([High(k), Low(k)], 0) == k <==> k < 0x1_0000
  {
  }
}
