/** Bit operations of Python's unbounded integers, defined bit by bit. */
module Bits {
  import opened Arith

  function ShiftLeft(a: int, n: nat): int {
    if n == 0 then a else 2 * ShiftLeft(a, n - 1)
  }

  /** Shifting right floors, as Python's and C++'s arithmetic shift do. */
  function ShiftRight(a: int, n: nat): int
    decreases n
  {
    if n == 0 then a else ShiftRight(a / 2, n - 1)
  }

  /** `1 << n`. */
  function Pow2(n: nat): (p: nat)
    ensures p >= 1
  {
    if n == 0 then 1 else 2 * Pow2(n - 1)
  }

  /** `a & b` for a mask `b`; `a` may be negative, read as infinite two's complement. */
  function And(a: int, b: nat): nat
    decreases b
  {
    if b == 0 then 0 else (if a % 2 == 1 && b % 2 == 1 then 1 else 0) + 2 * And(a / 2, b / 2)
  }

  function Or(a: nat, b: nat): nat
    decreases a + b
  {
    if a == 0 then b
    else if b == 0 then a
    else (if a % 2 == 1 || b % 2 == 1 then 1 else 0) + 2 * Or(a / 2, b / 2)
  }

  /** Bit `i` of an integer, negative ones in infinite two's complement. */
  predicate Bit(a: int, i: nat) {
    ShiftRight(a, i) % 2 == 1
  }

  lemma {:induction false} NoBits(i: nat)
    ensures !Bit(0, i)
  {
    if i > 0 {
      NoBits(i - 1);
    }
  }

  /** Both operations work bit by bit. */
  lemma {:induction false} AndBit(a: int, b: nat, i: nat)
    ensures Bit(And(a, b), i) <==> Bit(a, i) && Bit(b, i)
    decreases b + i
  {
    if b == 0 {
      NoBits(i);
    } else if i > 0 {
      AndBit(a / 2, b / 2, i - 1);
    }
  }

  lemma {:induction false} OrBit(a: nat, b: nat, i: nat)
    ensures Bit(Or(a, b), i) <==> Bit(a, i) || Bit(b, i)
    decreases a + b + i
  {
    if a == 0 || b == 0 {
      NoBits(i);
    } else if i > 0 {
      OrBit(a / 2, b / 2, i - 1);
    }
  }

  lemma {:induction false} ShiftOne(n: nat)
    ensures ShiftLeft(1, n) == Pow2(n)
  {
    if n > 0 {
      ShiftOne(n - 1);
    }
  }

  lemma {:induction false} ShiftSum(a: int, b: int, n: nat)
    ensures ShiftLeft(a + b, n) == ShiftLeft(a, n) + ShiftLeft(b, n)
  {
    if n > 0 {
      ShiftSum(a, b, n - 1);
    }
  }

  lemma {:induction false} ShiftShift(a: int, m: nat, n: nat)
    ensures ShiftLeft(ShiftLeft(a, m), n) == ShiftLeft(a, m + n)
  {
    if n > 0 {
      ShiftShift(a, m, n - 1);
    }
  }

  lemma ShiftPow2(m: nat, n: nat)
    ensures ShiftLeft(Pow2(m), n) == Pow2(m + n)
  {
    ShiftOne(m);
    ShiftOne(m + n);
    ShiftShift(1, m, n);
  }

  lemma {:induction false} ShiftMonotone(a: int, b: int, n: nat)
    requires a <= b
    ensures ShiftLeft(a, n) <= ShiftLeft(b, n)
    ensures a < b ==> ShiftLeft(a, n) < ShiftLeft(b, n)
  {
    if n > 0 {
      ShiftMonotone(a, b, n - 1);
    }
  }

  lemma {:induction false} ShiftNonNegative(a: nat, n: nat)
    ensures ShiftLeft(a, n) >= a
  {
    if n > 0 {
      ShiftNonNegative(a, n - 1);
    }
  }

  lemma {:induction false} Pow2Monotone(a: nat, b: nat)
    requires a <= b
    ensures Pow2(a) <= Pow2(b)
  {
    if a < b {
      Pow2Monotone(a, b - 1);
    }
  }

  /** A masked value fits the mask. */
  lemma {:induction false} MaskBound(a: int, w: nat)
    ensures And(a, Pow2(w) - 1) < Pow2(w)
    decreases w
  {
    if w > 0 {
      MaskBound(a / 2, w - 1);
    }
  }

  /** Masking drops everything from bit `w` up and keeps the bits below. */
  lemma {:induction false} MaskKeepsLow(low: nat, high: int, w: nat)
    requires low < Pow2(w)
    ensures And(low + ShiftLeft(high, w), Pow2(w) - 1) == low
    decreases w
  {
    if w > 0 {
      var rest := ShiftLeft(high, w - 1);
      assert (low + 2 * rest) / 2 == low / 2 + rest && (low + 2 * rest) % 2 == low % 2;
      MaskKeepsLow(low / 2, high, w - 1);
    }
  }

  lemma {:induction false} ShiftIsProduct(a: int, n: nat)
    ensures ShiftLeft(a, n) == Pow2(n) * a
  {
    if n > 0 {
      ShiftIsProduct(a, n - 1);
    }
  }

  lemma {:induction false} MaskQuotient(a: int, w: nat) returns (q: int)
    ensures a == And(a, Pow2(w) - 1) + ShiftLeft(q, w)
    decreases w
  {
    if w == 0 {
      q := a;
    } else {
      q := MaskQuotient(a / 2, w - 1);
    }
  }

  /** Masking with `(1 << w) - 1` is the remainder modulo `2**w`, for negative members too. */
  lemma MaskIsRemainder(a: int, w: nat)
    ensures And(a, Pow2(w) - 1) == a % Pow2(w)
  {
    var q := MaskQuotient(a, w);
    ShiftIsProduct(q, w);
    MaskBound(a, w);
    DivMod(Pow2(w), q, And(a, Pow2(w) - 1));
  }

  /** Or-ing in a value above all bits already set adds it. */
  lemma {:induction false} OrIsSum(low: nat, high: nat, offset: nat)
    requires low < Pow2(offset)
    ensures ShiftLeft(high, offset) >= 0
    ensures Or(low, ShiftLeft(high, offset)) == low + ShiftLeft(high, offset)
  {
    ShiftNonNegative(high, offset);
    if offset > 0 && low > 0 {
      ShiftNonNegative(high, offset - 1);
      OrIsSum(low / 2, high, offset - 1);
    }
  }

  /** Shifting right drops the low bits. */
  lemma {:induction false} ShiftRightDrops(low: nat, high: int, offset: nat)
    requires low < Pow2(offset)
    ensures ShiftRight(low + ShiftLeft(high, offset), offset) == high
    decreases offset
  {
    if offset > 0 {
      var rest := ShiftLeft(high, offset - 1);
      assert (low + 2 * rest) / 2 == low / 2 + rest;
      ShiftRightDrops(low / 2, high, offset - 1);
    }
  }
}
