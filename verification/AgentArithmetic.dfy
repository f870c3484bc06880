/**
 What the operators of agent expressions compute, bit by bit and by the signed and unsigned value of a
 word, opcode by opcode.
 */
module AgentArithmetic {
  import opened Division
  import opened AgentCode
  import opened AgentMachine

  // ----- bits -----

  /** Bit i of a number, the lowest being bit 0. */
  predicate Bit(v: nat, i: nat) {
    if i == 0 then v % 2 == 1 else Bit(v / 2, i - 1)
  }

  lemma {:induction false} LargePower(n: nat)
    ensures Pow2(n + 8) == 256 * Pow2(n)
  {
    assert Pow2(n + 8) == 2 * Pow2(n + 7) && Pow2(n + 7) == 2 * Pow2(n + 6) && Pow2(n + 6) == 2 * Pow2(n + 5);
    assert Pow2(n + 5) == 2 * Pow2(n + 4) && Pow2(n + 4) == 2 * Pow2(n + 3) && Pow2(n + 3) == 2 * Pow2(n + 2);
    assert Pow2(n + 2) == 2 * Pow2(n + 1) && Pow2(n + 1) == 2 * Pow2(n);
  }

  lemma {:induction false} WordPower()
    ensures Pow2(0) == 1 && Pow2(8) == 256 && Pow2(64) == WORD
  {
    hide Pow2;
    PowerOfNone();
    LargePower(0);
    LargePower(8);
    LargePower(16);
    LargePower(24);
    LargePower(32);
    LargePower(40);
    LargePower(48);
    LargePower(56);
  }

  lemma PowerOfNone()
    ensures Pow2(0) == 1
  {
  }

  /** Numbers below 2^n with the same n bits are the same. */
  lemma {:induction false} SameBits(a: nat, b: nat, n: nat)
    requires a < Pow2(n) && b < Pow2(n) && forall i :: 0 <= i < n ==> Bit(a, i) == Bit(b, i)
    ensures a == b
    decreases n
  {
    if n > 0 {
      assert Bit(a, 0) == Bit(b, 0);
      forall i | 0 <= i < n - 1 ensures Bit(a / 2, i) == Bit(b / 2, i) {
        assert Bit(a, i + 1) == Bit(b, i + 1);
      }
      SameBits(a / 2, b / 2, n - 1);
    }
  }

  lemma BitNext(v: nat, i: nat)
    requires i > 0
    ensures Bit(v, i) == Bit(v / 2, i - 1)
  {
  }

  lemma BitFirst(v: nat)
    ensures Bit(v, 0) == (v % 2 == 1)
  {
  }

  /** A number is its lowest bit and twice the rest. */
  lemma BitOfPair(v: nat, low: nat, rest: nat, i: nat)
    requires low < 2 && v == 2 * rest + low
    ensures Bit(v, i) == if i == 0 then low == 1 else Bit(rest, i - 1)
  {
    assert v / 2 == rest && v % 2 == low;
  }

  lemma {:induction false} NoHighBits(v: nat, n: nat, i: nat)
    requires v < Pow2(n) && i >= n
    ensures !Bit(v, i)
    decreases n
  {
    if n == 0 {
      NoBits(i);
    } else {
      NoHighBits(v / 2, n - 1, i - 1);
      BitNext(v, i);
    }
  }

  lemma {:induction false} NoBits(i: nat)
    ensures !Bit(0, i)
  {
    if i > 0 {
      NoBits(i - 1);
    }
  }

  // ----- and, or, exclusive or -----

  predicate Both(op: Byte, x: bool, y: bool) {
    if op == 0x0f then x && y else if op == 0x10 then x || y else x != y
  }

  lemma {:induction false} BitOfBits(op: Byte, a: nat, b: nat, width: nat, i: nat)
    requires 0x0f <= op <= 0x11
    ensures Bits(op, a, b, width) < Pow2(width)
    ensures i < width ==> Bit(Bits(op, a, b, width), i) == Both(op, Bit(a, i), Bit(b, i))
    decreases width
  {
    if width > 0 {
      var rest := Bits(op, a / 2, b / 2, width - 1);
      BitOfBits(op, a / 2, b / 2, width - 1, if i == 0 then 0 else i - 1);
      var low: nat := if Both(op, a % 2 == 1, b % 2 == 1) then 1 else 0;
      assert Bits(op, a, b, width) == low + 2 * rest;
      BitOfPair(Bits(op, a, b, width), low, rest, i);
    }
  }

  // ----- shifts and extensions -----

  /** The n low bits. */
  lemma {:induction false} BitOfLow(v: nat, n: nat, i: nat)
    ensures Bit(v % Pow2(n), i) == (i < n && Bit(v, i))
    decreases n
  {
    if n == 0 {
      NoBits(i);
    } else {
      HalfMod(v, Pow2(n - 1));
      BitOfPair(v % Pow2(n), v % 2, v / 2 % Pow2(n - 1), i);
      if i > 0 {
        BitOfLow(v / 2, n - 1, i - 1);
      }
    }
  }

  lemma {:induction false} BitOfTimes(v: nat, k: nat, i: nat)
    ensures Bit(v * Pow2(k), i) == (i >= k && Bit(v, i - k))
    decreases k
  {
    if k > 0 {
      assert v * Pow2(k) == 2 * (v * Pow2(k - 1));
      BitOfPair(v * Pow2(k), 0, v * Pow2(k - 1), i);
      if i > 0 {
        BitOfTimes(v, k - 1, i - 1);
      }
    }
  }

  function Divided(v: nat, p: nat): nat
    requires p > 0
  {
    v / p
  }

  lemma {:induction false} BitOfQuotient(v: nat, k: nat, i: nat)
    ensures Bit(Divided(v, Pow2(k)), i) == Bit(v, i + k)
    decreases k
  {
    if k > 0 {
      HalfMod(v, Pow2(k - 1));
      BitOfQuotient(v / 2, k - 1, i);
      BitNext(v, i + k);
    }
  }

  /** Filled up with ones from bit m on. */
  lemma {:induction false} BitOfFilled(x: nat, m: nat, n: nat, i: nat)
    requires x < Pow2(m) && m <= n
    ensures Pow2(m) <= Pow2(n)
    ensures Bit(x + Pow2(n) - Pow2(m), i) == if i < m then Bit(x, i) else i < n
    decreases n
  {
    if m > 0 {
      BitOfFilled(x / 2, m - 1, n - 1, if i > 0 then i - 1 else 0);
      BitOfPair(x + Pow2(n) - Pow2(m), x % 2, x / 2 + Pow2(n - 1) - Pow2(m - 1), i);
    } else if n > 0 {
      BitOfFilled(0, 0, n - 1, if i > 0 then i - 1 else 0);
      BitOfPair(Pow2(n) - 1, 1, Pow2(n - 1) - 1, i);
    } else {
      NoBits(i);
    }
  }

  lemma {:induction false} PowerSplits(n: nat, k: nat)
    requires k <= n
    ensures Pow2(n) == Pow2(k) * Pow2(n - k)
    decreases k
  {
    if k > 0 {
      PowerSplits(n - 1, k - 1);
      assert Pow2(n) == 2 * (Pow2(k - 1) * Pow2(n - k));
    }
  }

  lemma QuotientBound(v: nat, k: nat, n: nat)
    requires k <= n && v < Pow2(n)
    ensures Divided(v, Pow2(k)) < Pow2(n - k)
  {
    hide Pow2;
    PowerSplits(n, k);
    DivLess(v, Pow2(k), Pow2(n - k));
  }

  /** Bits of a signed shift to the right: the sign comes in from the left. */
  lemma {:induction false} BitOfSignedShift(v: Value, k: nat, i: nat)
    requires k < 64 && i < 64
    ensures Bit(Wrap(Signed(v) / Pow2(k)), i) == Bit(v, if i + k < 64 then i + k else 63)
  {
    hide Pow2, Bit, Wrap, Signed, Divided;
    WordPower();
    PowerSplits(64, k);
    QuotientBound(v, k, 64);
    BitOfQuotient(v, k, i);
    SignBit(v);
    SignedQuotient(v, Pow2(k), Pow2(64 - k));
    if v >= WORD / 2 {
      BitOfFilled(Divided(v, Pow2(k)), 64 - k, 64, i);
    } else if i + k >= 64 {
      NoHighBits(v, 64, i + k);
    }
  }

  lemma SignedQuotient(v: Value, p: nat, q: nat)
    requires p > 0 && p * q == WORD
    ensures Wrap(Signed(v) / p) == if v < WORD / 2 then Divided(v, p) else Divided(v, p) + WORD - q
  {
    QuotientSmaller(v, p);
    DivLess(v, p, q);
    QuotientSmaller(WORD, p);
    QuotientLess(v, p, q);
    Quotient(WORD, p, q, 0);
    if v >= WORD / 2 {
      WrapsUp(v / p - q);
    }
  }

  lemma WrapsUp(n: int)
    requires -WORD <= n < 0
    ensures Wrap(n) == n + WORD
  {
  }

  lemma {:induction false} SignBit(v: Value)
    ensures Bit(v, 63) == (v >= WORD / 2)
  {
    hide Pow2, Bit;
    WordPower();
    BitOfQuotient(v, 63, 0);
    PowerSplits(64, 63);
    PowerOfOne();
    BitFirst(Divided(v, Pow2(63)));
  }

  lemma PowerOfOne()
    ensures Pow2(1) == 2
  {
  }
}
