/** Bitwise and signed views of machine words. */
module Bits {
  import opened Base

  function Pow2(n: nat): (r: nat)
    ensures r > 0
  {
    if n == 0 then 1 else 2 * Pow2(n - 1)
  }

  // ---- Bitwise operators: conjunction bit by bit, the others by complement -----------------------

  function And(a: nat, b: nat): (r: nat)
    ensures r <= a && r <= b
  {
    if a == 0 || b == 0 then 0 else a % 2 * (b % 2) + 2 * And(a / 2, b / 2)
  }

  function Not(a: u64): u64 {
    TWO_64 - 1 - a
  }

  function Or(a: u64, b: u64): u64 {
    Not(And(Not(a), Not(b)))
  }

  function Xor(a: u64, b: u64): u64 {
    And(Or(a, b), Not(And(a, b)))
  }

  /** Bit `k` of `x`. */
  function Bit(x: nat, k: nat): bool
    decreases k
  {
    if k == 0 then x % 2 == 1 else Bit(x / 2, k - 1)
  }

  /** `x` with bit `k` set to `b`. */
  function WithBit(x: nat, k: nat, b: bool): nat
    decreases k
  {
    if k == 0 then x - x % 2 + (if b then 1 else 0) else x % 2 + 2 * WithBit(x / 2, k - 1, b)
  }

  function SetBit(x: u64, k: nat, b: bool): (r: u64)
    requires k < 64
  {
    Pow2Values();
    WithBitBound(x, k, b, 64);
    WithBit(x, k, b)
  }

  lemma {:induction false} WithBitBound(x: nat, k: nat, b: bool, n: nat)
    requires x < Pow2(n) && k < n
    ensures WithBit(x, k, b) < Pow2(n)
    decreases k
  {
    if k > 0 {
      WithBitBound(x / 2, k - 1, b, n - 1);
    }
  }

  lemma {:induction false} Pow2Add(a: nat, b: nat)
    ensures Pow2(a + b) == Pow2(a) * Pow2(b)
    decreases a
  {
    if a > 0 {
      Pow2Add(a - 1, b);
    }
  }

  lemma Pow2Of8()
    ensures Pow2(8) == 0x100
  {
    assert Pow2(4) == 2 * Pow2(3) && Pow2(3) == 2 * Pow2(2) && Pow2(2) == 2 * Pow2(1);
    Pow2Add(4, 4);
  }

  lemma Pow2Values()
    ensures Pow2(32) == TWO_32
    ensures Pow2(64) == TWO_64
  {
    hide Pow2;
    Pow2Of8();
    Pow2Add(8, 8);
    Pow2Add(16, 16);
    Pow2Add(32, 32);
  }

  /** Setting one bit leaves the others alone. */
  lemma {:induction false} BitOfWithBit(x: nat, k: nat, b: bool, j: nat)
    ensures Bit(WithBit(x, k, b), j) == if j == k then b else Bit(x, j)
    decreases k
  {
    if k == 0 {
      if j > 0 {
        assert WithBit(x, k, b) / 2 == x / 2;
      }
    } else {
      assert WithBit(x, k, b) / 2 == WithBit(x / 2, k - 1, b);
      if j > 0 {
        BitOfWithBit(x / 2, k - 1, b, j - 1);
      }
    }
  }

  lemma {:induction false} BitOfAnd(a: nat, b: nat, j: nat)
    ensures Bit(And(a, b), j) == (Bit(a, j) && Bit(b, j))
    decreases j
  {
    if a == 0 || b == 0 {
      BitOfZero(j);
    } else {
      AndStep(a, b);
      if j > 0 {
        BitOfAnd(a / 2, b / 2, j - 1);
      }
    }
  }

  lemma AndStep(a: nat, b: nat)
    requires a > 0 && b > 0
    ensures And(a, b) % 2 == 1 <==> a % 2 == 1 && b % 2 == 1
    ensures And(a, b) / 2 == And(a / 2, b / 2)
  {
    var low, high := a % 2 * (b % 2), And(a / 2, b / 2);
    LowProduct(a % 2, b % 2);
    assert And(a, b) == low + 2 * high;
  }

  lemma LowProduct(x: nat, y: nat)
    requires x < 2 && y < 2
    ensures x * y == if x == 1 && y == 1 then 1 else 0
  {
  }

  lemma {:induction false} BitOfZero(j: nat)
    ensures !Bit(0, j)
    decreases j
  {
    if j > 0 {
      BitOfZero(j - 1);
    }
  }

  lemma BitOfNot(a: u64, j: nat)
    requires j < 64
    ensures Bit(Not(a), j) == !Bit(a, j)
  {
    Pow2Values();
    BitOfComplement(a, j, 64);
  }

  lemma {:induction false} BitOfComplement(a: nat, j: nat, n: nat)
    requires a < Pow2(n) && j < n
    ensures Bit(Pow2(n) - 1 - a, j) == !Bit(a, j)
    decreases j
  {
    if j > 0 {
      assert (Pow2(n) - 1 - a) / 2 == Pow2(n - 1) - 1 - a / 2;
      BitOfComplement(a / 2, j - 1, n - 1);
    }
  }

  lemma BitOfOr(a: u64, b: u64, j: nat)
    requires j < 64
    ensures Bit(Or(a, b), j) == (Bit(a, j) || Bit(b, j))
  {
    BitOfNot(a, j);
    BitOfNot(b, j);
    BitOfAnd(Not(a), Not(b), j);
    BitOfNot(And(Not(a), Not(b)), j);
  }

  /** `(x & !mask) | (v & mask)`: the bits of `v` inside the mask and those of `x` outside it. */
  function Merge(x: u64, v: u64, mask: u64): u64 {
    Or(And(x, Not(mask)), And(v, mask))
  }

  lemma BitOfMerge(x: u64, v: u64, mask: u64, j: nat)
    requires j < 64
    ensures Bit(Merge(x, v, mask), j) == if Bit(mask, j) then Bit(v, j) else Bit(x, j)
  {
    BitOfNot(mask, j);
    BitOfAnd(x, Not(mask), j);
    BitOfAnd(v, mask, j);
    BitOfOr(And(x, Not(mask)), And(v, mask), j);
  }

  /** Words with equal bits are equal. */
  lemma BitsDetermine(a: u64, b: u64)
    requires forall j :: 0 <= j < 64 ==> Bit(a, j) == Bit(b, j)
    ensures a == b
  {
    Pow2Values();
    BitsDetermineBelow(a, b, 64);
  }

  lemma {:induction false} BitsDetermineBelow(a: nat, b: nat, n: nat)
    requires a < Pow2(n) && b < Pow2(n)
    requires forall j :: 0 <= j < n ==> Bit(a, j) == Bit(b, j)
    ensures a == b
    decreases n
  {
    if n > 0 {
      assert Bit(a, 0) == Bit(b, 0);
      forall j | 0 <= j < n - 1
        ensures Bit(a / 2, j) == Bit(b / 2, j)
      {
        assert Bit(a, j + 1) == Bit(b, j + 1);
      }
      BitsDetermineBelow(a / 2, b / 2, n - 1);
    }
  }

  // ---- Casts ------------------------------------------------------------------------------------

  /** `x as i64` of a 64-bit word. */
  function I64(x: u64): int {
    if x >= 0x8000_0000_0000_0000 then x - TWO_64 else x
  }

  /** The signed value of the low bits of `x`, for a power of two `m`. */
  function Wrap(x: int, m: int): (r: int)
    requires m > 0 && m % 2 == 0
    ensures -(m / 2) <= r < m / 2
  {
    if x % m >= m / 2 then x % m - m else x % m
  }

  /** `x as i32`. */
  function I32(x: int): (r: int)
    ensures -0x8000_0000 <= r < 0x8000_0000
  {
    Wrap(x, TWO_32)
  }

  /** `x as u32`. */
  function U32(x: int): (r: u32) {
    x % TWO_32
  }

  /** `x as i32 as i64 as u64`: sign extension of the low 32 bits. */
  function Sext32(x: int): u64 {
    ToU64(I32(x))
  }

  // ---- Shifts; the amount is the masked one --------------------------------------------------------

  function Shl(x: u64, n: nat): u64 {
    x * Pow2(n) % TWO_64
  }

  function Shr(x: u64, n: nat): u64 {
    ToU64(x / Pow2(n))
  }

  /** Arithmetic shift right of a 64-bit word. */
  function Sar(x: u64, n: nat): u64 {
    ToU64(I64(x) / Pow2(n))
  }

  // ---- Division truncating towards zero -------------------------------------------------------------

  function Abs(a: int): (r: int)
    ensures r >= 0
  {
    if a < 0 then -a else a
  }

  function Quot(a: int, b: int): int
    requires b != 0
  {
    if (a < 0) == (b < 0) then Abs(a) / Abs(b) else -(Abs(a) / Abs(b))
  }

  /** Remainder with the sign of the dividend. */
  function Rem(a: int, b: int): int
    requires b != 0
  {
    if a < 0 then -(Abs(a) % Abs(b)) else Abs(a) % Abs(b)
  }
}
