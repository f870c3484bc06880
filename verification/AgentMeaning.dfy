/**
 What each opcode does, by its number and without the functions the machine is made of, and what a short
 program therefore computes.
 */
module AgentMeaning {
  import opened Options
  import opened Division
  import opened AgentCode
  import opened AgentMachine
  import opened AgentArithmetic

  // ----- operators -----

  /** s is the word read as a signed number. */
  predicate ReadsSigned(v: Value, s: int) {
    -0x8000_0000_0000_0000 <= s < 0x8000_0000_0000_0000 && (s == v || s + 0x1_0000_0000_0000_0000 == v)
  }

  predicate IsTruth(r: Value, b: bool) {
    r == if b then 1 else 0
  }

  /** add, sub and mul agree with the numbers modulo 2^64. */
  predicate Congruent(r: Value, n: int) {
    (r - n) % 0x1_0000_0000_0000_0000 == 0
  }

  /** The operators that do not divide; a shift is by less than the width of a word. */
  predicate Defined(op: Byte, top: Value) {
    op in {0x02, 0x03, 0x04, 0x0f, 0x10, 0x11, 0x13, 0x14, 0x15} || (op in {0x09, 0x0a, 0x0b} && top < 64)
  }

  /** r is what operator `op` makes of the top and the value below it. */
  ghost predicate Means(op: Byte, below: Value, top: Value, r: Value)
    requires Defined(op, top)
  {
    if op == 0x02 then Congruent(r, below + top)
    else if op == 0x03 then Congruent(r, below - top)
    else if op == 0x04 then Congruent(r, below * top)
    else if op == 0x09 then forall i :: 0 <= i < 64 ==> Bit(r, i) == (i >= top && Bit(below, i - top))
    else if op == 0x0a then forall i :: 0 <= i < 64 ==> Bit(r, i) == Bit(below, if i + top < 64 then i + top else 63)
    else if op == 0x0b then forall i :: 0 <= i < 64 ==> Bit(r, i) == (i + top < 64 && Bit(below, i + top))
    else if op == 0x0f then forall i :: 0 <= i < 64 ==> Bit(r, i) == (Bit(below, i) && Bit(top, i))
    else if op == 0x10 then forall i :: 0 <= i < 64 ==> Bit(r, i) == (Bit(below, i) || Bit(top, i))
    else if op == 0x11 then forall i :: 0 <= i < 64 ==> Bit(r, i) == (Bit(below, i) != Bit(top, i))
    else if op == 0x13 then IsTruth(r, below == top)
    else if op == 0x14 then exists s, t :: ReadsSigned(below, s) && ReadsSigned(top, t) && IsTruth(r, s < t)
    else IsTruth(r, below < top)
  }

  lemma SameResidue(a: Value, b: Value, n: int)
    requires Congruent(a, n) && Congruent(b, n)
    ensures a == b
  {
    var q, p := (a - n) / WORD, (b - n) / WORD;
    assert a - n == WORD * q && b - n == WORD * p;
    assert a - b == WORD * (q - p);
  }

  lemma SameWord(a: Value, b: Value)
    requires forall i :: 0 <= i < 64 ==> Bit(a, i) == Bit(b, i)
    ensures a == b
  {
    hide Bit, Pow2;
    WordPower();
    SameBits(a, b, 64);
  }

  /** There is one such value. */
  lemma {:induction false} MeansOne(op: Byte, below: Value, top: Value, a: Value, b: Value)
    requires Defined(op, top) && Means(op, below, top, a) && Means(op, below, top, b)
    ensures a == b
  {
    hide Bit, Congruent;
    if op == 0x02 {
      SameResidue(a, b, below + top);
    } else if op == 0x03 {
      SameResidue(a, b, below - top);
    } else if op == 0x04 {
      SameResidue(a, b, below * top);
    } else if 0x09 <= op <= 0x11 {
      SameWord(a, b);
    }
  }

  lemma WrapCongruent(n: int)
    ensures Congruent(Wrap(n), n)
  {
  }

  lemma {:induction false} ShiftsLeft(v: Value, k: nat, i: nat)
    requires i < 64
    ensures Bit(Wrap(v * Pow2(k)), i) == (i >= k && Bit(v, i - k))
  {
    hide Bit, Pow2;
    WordPower();
    BitOfLow(v * Pow2(k), 64, i);
    BitOfTimes(v, k, i);
  }

  lemma {:induction false} ShiftsRight(v: Value, k: nat, i: nat)
    requires k < 64
    ensures Bit(Wrap(v / Pow2(k)), i) == (i + k < 64 && Bit(v, i + k))
  {
    hide Bit, Pow2;
    WordPower();
    QuotientSmaller(v, Pow2(k));
    BitOfQuotient(v, k, i);
    if i + k >= 64 {
      NoHighBits(v, 64, i + k);
    }
  }

  lemma {:induction false} BitwiseBits(op: Byte, a: Value, b: Value, i: nat)
    requires 0x0f <= op <= 0x11 && i < 64
    ensures Bit(Wrap(Bits(op, a, b, 64)), i) == Both(op, Bit(a, i), Bit(b, i))
  {
    hide Bit, Pow2, Bits;
    WordPower();
    BitOfBits(op, a, b, 64, i);
  }

  lemma SignedReads(v: Value)
    ensures ReadsSigned(v, Signed(v))
    ensures forall s :: ReadsSigned(v, s) ==> s == Signed(v)
  {
  }

  /** The machine's operators mean this. */
  lemma {:induction false} CombineMeans<W>(host: Host<W>, op: Byte, below: Value, top: Value)
    requires Defined(op, top)
    ensures Means(op, below, top, Combine(host, op, below, top))
  {
    hide Bit, Pow2, Bits, Congruent, Wrap, Signed, ReadsSigned;
    var r := Combine(host, op, below, top);
    if op <= 0x04 {
      WrapCongruent(below + top);
      WrapCongruent(below - top);
      WrapCongruent(below * top);
    } else if op <= 0x0b {
      forall i | 0 <= i < 64
        ensures op == 0x09 ==> Bit(r, i) == (i >= top && Bit(below, i - top))
        ensures op == 0x0a ==> Bit(r, i) == Bit(below, if i + top < 64 then i + top else 63)
        ensures op == 0x0b ==> Bit(r, i) == (i + top < 64 && Bit(below, i + top))
      {
        ShiftsLeft(below, top, i);
        BitOfSignedShift(below, top, i);
        ShiftsRight(below, top, i);
      }
    } else if op <= 0x11 {
      forall i | 0 <= i < 64 ensures Bit(r, i) == Both(op, Bit(below, i), Bit(top, i)) {
        BitwiseBits(op, below, top, i);
      }
    } else {
      SignedReads(below);
      SignedReads(top);
    }
  }

  // ----- the checked opcodes -----

  /** What op_check_add and the enumerators after it check, in the order of the enumeration. */
  const CHECKED: seq<Byte> :=
    [0x02, 0x03, 0x04, 0x05, 0x06, 0x07, 0x08, 0x09, 0x0a, 0x0b, 0x0c, 0x0f, 0x10, 0x11, 0x13, 0x14, 0x15, 0x29, 0x2b, 0x20]

  lemma CheckedOpcodes(k: nat)
    requires k < 20
    ensures Popping(CHECKED[k]) && Checked(CHECKED[k]) == 0xe0 + k && Plain(0xe0 + k) == CHECKED[k]
  {
  }

  lemma PoppingOpcodes(op: Byte)
    ensures Popping(op) <==> op in CHECKED
  {
    assert 0x0c == CHECKED[10] && 0x29 == CHECKED[17] && 0x2b == CHECKED[18] && 0x20 == CHECKED[19];
    assert CHECKED[..10] == seq(10, i requires 0 <= i < 10 => 0x02 + i);
    if 0x02 <= op <= 0x0b {
      assert CHECKED[op - 2] == op;
    } else if 0x0f <= op <= 0x11 {
      assert CHECKED[op - 4] == op;
    } else if 0x13 <= op <= 0x15 {
      assert CHECKED[op - 5] == op;
    }
  }

  /** The byte is the opcode or its checked form. */
  predicate Codes(byte: Byte, op: Byte) {
    byte == op || (0xe0 <= byte < 0xf4 && CHECKED[byte - 0xe0] == op)
  }

  lemma CodesPlain(byte: Byte, op: Byte)
    requires Codes(byte, op) && Popping(op)
    ensures Plain(byte) == op
  {
    if 0xe0 <= byte < 0xf4 {
      CheckedOpcodes(byte - 0xe0);
    }
  }

  // ----- one iteration -----

  /** The next opcode is this one, or its checked form, and its operand is inside the code. */
  predicate Next<W>(code: seq<Byte>, m: Machine<W>, op: Byte, operand: nat) {
    Sized(m) && m.pc + 1 + operand <= |code| && Codes(code[m.pc], op)
  }

  /** The operators: one value less, and the rest as it was. */
  lemma {:induction false} OperatorStep<W>(host: Host<W>, names: Names, code: seq<Byte>, m: Machine<W>, op: Byte)
    requires Next(code, m, op, 0) && m.sp >= 1 && Defined(op, m.top)
    ensures var o := Step(host, names, false, code, m);
            && o.Going? && Means(op, m.stack[m.sp - 1], m.top, o.m.top)
            && o.m == Machine(m.pc + 1, m.sp - 1, o.m.top, m.stack, m.world)
  {
    hide Means, Combine;
    CodesPlain(code[m.pc], op);
    CombineMeans(host, op, m.stack[m.sp - 1], m.top);
  }

  /** Division and remainder report a divisor of 0; what else they give is for the host to say. */
  lemma {:induction false} DivideStep<W>(host: Host<W>, names: Names, code: seq<Byte>, m: Machine<W>, op: Byte)
    requires Next(code, m, op, 0) && m.sp >= 1 && 0x05 <= op <= 0x08
    ensures Step(host, names, false, code, m)
         == if m.top == 0 then Stopped(CodeError, m.world)
            else Going(Machine(m.pc + 1, m.sp - 1, host.odd(op, m.stack[m.sp - 1], m.top), m.stack, m.world))
  {
    CodesPlain(code[m.pc], op);
  }

  /** A checked opcode that would pop below the array reports it. */
  lemma {:induction false} CheckedStops<W>(host: Host<W>, names: Names, code: seq<Byte>, m: Machine<W>)
    requires Sized(m) && m.pc < |code| && 0xe0 <= code[m.pc] < 0xf4 && m.sp < if code[m.pc] == 0xea then 2 else 1
    requires code[m.pc] == 0xf3 ==> m.pc + 3 <= |code|
    ensures Step(host, names, false, code, m) == Stopped(CodeError, m.world)
  {
    CheckedOpcodes(code[m.pc] - 0xe0);
  }

  /** dup, pop and swap. */
  lemma {:induction false} StackStep<W>(host: Host<W>, names: Names, code: seq<Byte>, m: Machine<W>, op: Byte)
    requires Next(code, m, op, 0) && op in {0x28, 0x29, 0x2b}
    requires (op == 0x28 || m.sp >= 1) && (op == 0x29 || m.sp < 32)
    ensures var o := Step(host, names, false, code, m);
            && o.Going? && o.m.pc == m.pc + 1 && o.m.world == m.world && Sized(o.m)
            && o.m.sp == (if op == 0x28 then m.sp + 1 else if op == 0x29 then m.sp - 1 else m.sp)
            && o.m.top == (if op == 0x28 then m.top else m.stack[m.sp - 1])
            && (op == 0x28 ==> o.m.stack[m.sp] == m.top)
            && (op == 0x2b ==> o.m.stack[m.sp - 1] == m.top)
            && forall i :: 0 <= i < (if op == 0x2b then m.sp - 1 else m.sp) ==> o.m.stack[i] == m.stack[i]
  {
    PoppingOpcodes(op);
    if op != 0x28 {
      CodesPlain(code[m.pc], op);
    }
  }

  /** A number of two bytes, the high one first. */
  function TwoBytes(code: seq<Byte>, p: nat): nat
    requires p + 2 <= |code|
  {
    var high: nat := code[p];
    256 * high + code[p + 1]
  }

  /** goto, and if_goto, which pops whether it jumps or not. */
  lemma {:induction false} JumpStep<W>(host: Host<W>, names: Names, code: seq<Byte>, m: Machine<W>, op: Byte)
    requires Next(code, m, op, 2) && (op == 0x21 || (op == 0x20 && m.sp >= 1))
    ensures var target := if op == 0x21 || m.top != 0 then TwoBytes(code, m.pc + 1) else m.pc + 3;
            Step(host, names, false, code, m)
            == Going(if op == 0x21 then m.(pc := target)
                     else Machine(target, m.sp - 1, m.stack[m.sp - 1], m.stack, m.world))
  {
    if op == 0x20 {
      CodesPlain(code[m.pc], op);
    }
  }

  /** log_not and bit_not. */
  lemma {:induction false} NotStep<W>(host: Host<W>, names: Names, code: seq<Byte>, m: Machine<W>, op: Byte)
    requires Next(code, m, op, 0) && op in {0x0e, 0x12}
    ensures var o := Step(host, names, false, code, m);
            && o.Going? && o.m == m.(pc := m.pc + 1, top := o.m.top)
            && (op == 0x0e ==> IsTruth(o.m.top, m.top == 0))
            && (op == 0x12 ==> forall i :: 0 <= i < 64 ==> Bit(o.m.top, i) == !Bit(m.top, i))
  {
    hide Bit, Pow2;
    forall i | 0 <= i < 64 ensures Bit(WORD - 1 - m.top, i) == !Bit(m.top, i) {
      Complement(m.top, i);
    }
  }

  /** ext repeats the highest bit of the part it keeps, zero_ext clears what is above; a width of a word
      or more changes nothing. */
  lemma {:induction false} ExtendStep<W>(host: Host<W>, names: Names, code: seq<Byte>, m: Machine<W>, op: Byte, width: nat)
    requires Next(code, m, op, 1) && op in {0x16, 0x2a} && code[m.pc + 1] == width
    requires op == 0x16 ==> 1 <= width <= 32 || width >= 64
    ensures var o := Step(host, names, false, code, m);
            && o.Going? && o.m == m.(pc := m.pc + 2, top := o.m.top)
            && forall i :: 0 <= i < 64 ==>
                 Bit(o.m.top, i) == (if i < width then Bit(m.top, i) else op == 0x16 && Bit(m.top, width - 1))
  {
    hide Bit, Pow2, SignExtend, Wrap;
    var o := Step(host, names, false, code, m);
    assert o.m.top == if width >= 64 then m.top else if op == 0x16 then SignExtend(m.top, width) else Wrap(m.top % Pow2(width));
    if width < 64 {
      forall i | 0 <= i < 64
        ensures Bit(o.m.top, i) == (if i < width then Bit(m.top, i) else op == 0x16 && Bit(m.top, width - 1))
      {
        if op == 0x16 {
          Extended(m.top, width, i);
        } else {
          Truncated(m.top, width, i);
        }
      }
    }
  }

  lemma {:induction false} Complement(v: Value, i: nat)
    requires i < 64
    ensures Bit(WORD - 1 - v, i) == !Bit(v, i)
  {
    hide Pow2, Bit;
    WordPower();
    ComplementBit(v, 64, i);
  }

  lemma {:induction false} ComplementBit(v: nat, n: nat, i: nat)
    requires v < Pow2(n) && i < n
    ensures Bit(Pow2(n) - 1 - v, i) == !Bit(v, i)
    decreases n
  {
    BitOfPair(Pow2(n) - 1 - v, 1 - v % 2, Pow2(n - 1) - 1 - v / 2, i);
    if i > 0 {
      ComplementBit(v / 2, n - 1, i - 1);
    }
  }

  lemma {:induction false} Truncated(v: Value, k: nat, i: nat)
    requires i < 64
    ensures Bit(Wrap(v % Pow2(k)), i) == (i < k && Bit(v, i))
  {
    hide Pow2, Bit;
    LowSmaller(v, Pow2(k));
    BitOfLow(v, k, i);
  }

  lemma {:induction false} Extended(v: Value, k: nat, i: nat)
    requires 1 <= k <= 64 && i < 64
    ensures Bit(SignExtend(v, k), i) == Bit(v, if i < k then i else k - 1)
  {
    hide Pow2, Bit, Divided;
    WordPower();
    var low := v % Pow2(k);
    BitOfLow(v, k, if i < k then i else k - 1);
    HighestBit(low, k);
    LowSmaller(v, Pow2(k));
    PowerGrows(k, 64);
    if low >= Pow2(k - 1) {
      BitOfFilled(low, k, 64, i);
      WrapsUp(low - Pow2(k));
    } else if i >= k {
      NoHighBits(low, k, i);
    }
  }

  lemma {:induction false} PowerGrows(k: nat, n: nat)
    requires k <= n
    ensures Pow2(k) <= Pow2(n)
    decreases n
  {
    if k < n {
      PowerGrows(k, n - 1);
    }
  }

  lemma {:induction false} HighestBit(v: nat, k: nat)
    requires 1 <= k && v < Pow2(k)
    ensures Bit(v, k - 1) == (v >= Pow2(k - 1))
    decreases k
  {
    if k > 1 {
      HighestBit(v / 2, k - 1);
    } else {
      assert Pow2(1) == 2 && Pow2(0) == 1;
    }
  }

  // ----- constants -----

  /** The number with these bytes, the most significant first. */
  function BigEndian(s: seq<Byte>): nat {
    if s == [] then 0 else 256 * BigEndian(s[..|s| - 1]) + s[|s| - 1]
  }

  lemma {:induction false} BigEndianBound(s: seq<Byte>)
    ensures BigEndian(s) < Pow2(8 * |s|)
    decreases |s|
  {
    if s == [] {
      PowerOfNone();
    } else {
      BigEndianBound(s[..|s| - 1]);
      hide Pow2;
      LargePower(8 * (|s| - 1));
    }
  }

  lemma BigEndianFits(s: seq<Byte>)
    requires |s| <= 8
    ensures BigEndian(s) < WORD
  {
    hide Pow2, BigEndian;
    WordPower();
    BigEndianBound(s);
    PowerGrows(8 * |s|, 64);
  }

  lemma {:induction false} ConstantIs(acc: Value, done: seq<Byte>, bytes: seq<Byte>)
    requires acc == BigEndian(done) && |done| + |bytes| <= 8
    ensures Constant(acc, bytes) == BigEndian(done + bytes)
    decreases |bytes|
  {
    hide Constant, BigEndian;
    ConstantNext(acc, bytes);
    if bytes == [] {
      assert done + bytes == done;
    } else {
      var first, rest := bytes[0], bytes[1..];
      var more := done + [first];
      assert more + rest == done + bytes;
      DigitAdded(done, first);
      BigEndianFits(more);
      ConstantIs(BigEndian(more), more, rest);
    }
  }

  lemma ConstantNext(acc: Value, bytes: seq<Byte>)
    ensures Constant(acc, bytes) == if bytes == [] then acc else Constant(Wrap(256 * acc + bytes[0]), bytes[1..])
  {
  }

  lemma DigitAdded(s: seq<Byte>, b: Byte)
    ensures BigEndian(s + [b]) == 256 * BigEndian(s) + b
  {
    assert (s + [b])[..|s|] == s;
  }

  /** const8, const16, const32 and const64 push the number in their operand. */
  lemma {:induction false} ConstantStep<W>(host: Host<W>, names: Names, code: seq<Byte>, m: Machine<W>, op: Byte, n: nat)
    requires Next(code, m, op, n) && m.sp < 32
    requires (op == 0x22 && n == 1) || (op == 0x23 && n == 2) || (op == 0x24 && n == 4) || (op == 0x25 && n == 8)
    ensures BigEndian(code[m.pc + 1..m.pc + 1 + n]) < WORD
    ensures Step(host, names, false, code, m)
         == Going(Machine(m.pc + 1 + n, m.sp + 1, BigEndian(code[m.pc + 1..m.pc + 1 + n]), m.stack[m.sp := m.top], m.world))
  {
    hide Constant, BigEndian;
    var bytes := code[m.pc + 1..m.pc + 1 + n];
    BigEndianFits(bytes);
    NoDigits();
    ConstantIs(0, [], bytes);
    assert [] + bytes == bytes;
  }

  lemma NoDigits()
    ensures BigEndian([]) == 0
  {
  }

  lemma {:induction false} TwoDigits(s: seq<Byte>)
    ensures |s| == 1 ==> BigEndian(s) == s[0]
    ensures |s| == 2 ==> BigEndian(s) == TwoBytes(s, 0)
  {
    if |s| == 2 {
      assert s[..1] == [s[0]] && BigEndian([s[0]]) == 256 * BigEndian([]) + s[0];
    } else if |s| == 1 {
      assert s[..0] == [];
    }
  }

  // ----- what the host is asked -----

  /** The variable an operand names: the first with this number, or the one at this position. */
  predicate NamesVariable(names: Names, operand: nat, k: nat) {
    match names
    case ByNumber(vars) => k < |vars| && vars[k].num == operand && forall j :: 0 <= j < k ==> vars[j].num != operand
    case ByPosition(count) => k == operand < count
  }

  /** ref8 to ref64 load 1, 2, 4 or 8 bytes from the address on top. */
  lemma {:induction false} LoadStep<W>(host: Host<W>, names: Names, code: seq<Byte>, m: Machine<W>, op: Byte)
    requires Next(code, m, op, 0) && op in {0x17, 0x18, 0x19, 0x1a}
    ensures var bytes := if op == 0x17 then 1 else if op == 0x18 then 2 else if op == 0x19 then 4 else 8;
            var loaded := host.load(m.world, m.top, bytes);
            Step(host, names, false, code, m)
            == if loaded.None? then Stopped(CodeError, m.world) else Going(m.(pc := m.pc + 1, top := loaded.value))
  {
    assert Pow2(0) == 1 && Pow2(1) == 2 && Pow2(2) == 4 && Pow2(3) == 8;
  }

  /** reg pushes a register. */
  lemma {:induction false} RegisterStep<W>(host: Host<W>, names: Names, code: seq<Byte>, m: Machine<W>)
    requires Next(code, m, 0x26, 2) && m.sp < 32
    ensures var read := host.register(m.world, TwoBytes(code, m.pc + 1));
            Step(host, names, false, code, m)
            == if read.None? then Stopped(HostError, m.world)
               else Going(Machine(m.pc + 3, m.sp + 1, read.value, m.stack[m.sp := m.top], m.world))
  {
  }

  /** trace collects `top` bytes from the address below the top and pops both; trace_quick as many as its
      operand says from the address on top. */
  lemma {:induction false} CollectStep<W>(host: Host<W>, names: Names, code: seq<Byte>, m: Machine<W>, op: Byte)
    requires Next(code, m, op, if op == 0x0d then 1 else 0) && (op == 0x0d || (op == 0x0c && m.sp >= 2))
    ensures op == 0x0c ==>
              var (w, ok) := host.collectMem(m.world, m.stack[m.sp - 1], m.top);
              Step(host, names, false, code, m)
              == if ok then Going(Machine(m.pc + 1, m.sp - 2, m.stack[m.sp - 2], m.stack, w)) else Stopped(CollectFailed, w)
    ensures op == 0x0d ==>
              var (w, ok) := host.collectMem(m.world, m.top, code[m.pc + 1]);
              Step(host, names, false, code, m)
              == if ok then Going(m.(pc := m.pc + 2, world := w)) else Stopped(CollectFailed, w)
  {
    if op == 0x0c {
      CodesPlain(code[m.pc], op);
    }
  }

  /** getv pushes a variable. */
  lemma {:induction false} GetStep<W>(host: Host<W>, names: Names, code: seq<Byte>, m: Machine<W>, k: nat)
    requires Next(code, m, 0x2c, 2) && m.sp < 32 && NamesVariable(names, TwoBytes(code, m.pc + 1), k)
    ensures var got := host.getVar(m.world, k);
            Step(host, names, false, code, m)
            == if got.None? then Stopped(CodeError, m.world)
               else Going(Machine(m.pc + 3, m.sp + 1, got.value, m.stack[m.sp := m.top], m.world))
  {
    Resolved(names, TwoBytes(code, m.pc + 1), k);
  }

  /** setv stores the top in a variable and leaves it there, tracev collects one. */
  lemma {:induction false} SetStep<W>(host: Host<W>, names: Names, code: seq<Byte>, m: Machine<W>, op: Byte, k: nat)
    requires Next(code, m, op, 2) && op in {0x2d, 0x2e} && NamesVariable(names, TwoBytes(code, m.pc + 1), k)
    ensures var stored := host.setVar(m.world, k, m.top);
            op == 0x2d ==>
              Step(host, names, false, code, m)
              == if stored.None? then Stopped(CodeError, m.world) else Going(m.(pc := m.pc + 3, world := stored.value))
    ensures var (w, ok) := host.collectVar(m.world, k);
            op == 0x2e ==>
              Step(host, names, false, code, m) == if ok then Going(m.(pc := m.pc + 3, world := w)) else Stopped(HostError, w)
  {
    Resolved(names, TwoBytes(code, m.pc + 1), k);
  }

  lemma Resolved(names: Names, operand: nat, k: nat)
    requires NamesVariable(names, operand, k)
    ensures Resolve(names, operand) == Some(k)
  {
  }

  /** end stops with the top.  An action with loops stops after any iteration that leaves more than 27
      values on the stack, and is otherwise no different. */
  lemma {:induction false} EndStep<W>(host: Host<W>, names: Names, code: seq<Byte>, m: Machine<W>)
    requires Sized(m) && m.pc < |code|
    ensures code[m.pc] == 0x27 ==> Step(host, names, false, code, m) == Stopped(Ended(m.top), m.world)
    ensures var o := Step(host, names, false, code, m);
            Step(host, names, true, code, m) == if o.Going? && o.m.sp > 27 then Stopped(StackOverflow, o.m.world) else o
  {
    hide Execute;
    if code[m.pc] == 0x27 {
      EndExecutes(host, names, code, m.(pc := m.pc + 1));
    }
  }

  lemma EndExecutes<W>(host: Host<W>, names: Names, code: seq<Byte>, m: Machine<W>)
    requires Sized(m)
    ensures Execute(host, names, code, 0x27, m) == Stopped(Ended(m.top), m.world)
  {
  }

  // ----- a short program -----

  /** const64 a; const64 b; op; end. */
  function Program(a: seq<Byte>, b: seq<Byte>, op: Byte): seq<Byte> {
    [0x25] + a + [0x25] + b + [op, 0x27]
  }

  lemma RunStep<W>(host: Host<W>, names: Names, code: seq<Byte>, m: Machine<W>, n: nat)
    requires Sized(m) && n > 0
    ensures var o := Step(host, names, false, code, m);
            && (o.Going? ==> Sized(o.m))
            && Run(host, names, false, code, m, n) == if o.Going? then Run(host, names, false, code, o.m, n - 1) else o
  {
    StepSized(host, names, false, code, m);
  }

  /** Two constants, an operator and end: the run stops with what the operator makes of the two numbers,
      the first below the second. */
  lemma {:induction false} RunComputes<W>(host: Host<W>, names: Names, a: seq<Byte>, b: seq<Byte>, byte: Byte, op: Byte,
                                          m: Machine<W>, n: nat) returns (r: Value)
    requires |a| == 8 && |b| == 8 && Codes(byte, op) && Starting(m) && n >= 4
    ensures BigEndian(a) < WORD && BigEndian(b) < WORD
    ensures Defined(op, BigEndian(b)) ==>
              Means(op, BigEndian(a), BigEndian(b), r)
              && Run(host, names, false, Program(a, b, byte), m, n) == Stopped(Ended(r), m.world)
  {
    hide Step, Run, Means, BigEndian, Codes;
    BigEndianFits(a);
    BigEndianFits(b);
    r := 0;
    if Defined(op, BigEndian(b)) {
      var code := Program(a, b, byte);
      assert code[0] == 0x25 && code[1..9] == a && code[9] == 0x25 && code[10..18] == b && code[18] == byte && code[19] == 0x27;
      assert Codes(0x25, 0x25) by {
        CodesItself(0x25);
      }
      RunStep(host, names, code, m, n);
      ConstantStep(host, names, code, m, 0x25, 8);
      var m1 := Machine(9, 1, BigEndian(a), m.stack[0 := m.top], m.world);
      RunStep(host, names, code, m1, n - 1);
      ConstantStep(host, names, code, m1, 0x25, 8);
      var m2 := Machine(18, 2, BigEndian(b), m1.stack[1 := BigEndian(a)], m.world);
      RunStep(host, names, code, m2, n - 2);
      OperatorStep(host, names, code, m2, op);
      r := Step(host, names, false, code, m2).m.top;
      var m3 := Machine(19, 1, r, m2.stack, m.world);
      RunStep(host, names, code, m3, n - 3);
      EndStep(host, names, code, m3);
    }
  }

  lemma CodesItself(op: Byte)
    ensures Codes(op, op)
  {
  }
}
