/** How bits of sums, quotients, remainders and sign extensions follow from bits of the parts. */
module BitLaws {
  import opened Base
  import opened Bits

  // ---- Quotients ---------------------------------------------------------------------------------------------

  lemma {:induction false} BitAt(x: nat, k: nat)
    ensures Bit(x, k) <==> x / Pow2(k) % 2 == 1
    decreases k
  {
    if k > 0 {
      BitAt(x / 2, k - 1);
      HalveThenDivide(x, Pow2(k - 1));
    }
  }

  /** Dividing twice is dividing by the product. */
  lemma Nested(x: int, a: nat, b: nat)
    requires a > 0 && b > 0
    ensures a * b > 0 && x / a / b == x / (a * b)
  {
    var q, r, t := x / a / b, x / a % b, x % a;
    Regroup(a, b, q, r);
    Below(a, b, r);
    assert x == a * (x / a) + t && x / a == b * q + r;
    Quotient(x, a * b, q, a * r + t);
  }

  lemma Regroup(a: int, b: int, q: int, r: int)
    ensures a * (b * q + r) == a * b * q + a * r
  {
  }

  lemma Below(a: nat, b: nat, r: nat)
    requires a > 0 && r < b
    ensures a * b > 0 && a * r + a <= a * b
  {
    assert a * (r + 1) <= a * b;
  }

  lemma HalveThenDivide(x: nat, d: nat)
    requires d > 0
    ensures x / 2 / d == x / (2 * d)
  {
    var q, r := x / 2 / d, x / 2 % d;
    assert x / 2 == d * q + r;
    assert x == 2 * d * q + (2 * r + x % 2);
    Quotient(x, 2 * d, q, 2 * r + x % 2);
  }

  lemma Quotient(x: int, d: nat, q: int, r: nat)
    requires x == d * q + r && r < d
    ensures x / d == q && x % d == r
  {
    assert x == d * (x / d) + x % d;
    var k := q - x / d;
    assert d * k == x % d - r;
    assert k >= 1 ==> d * k >= d;
    assert k <= -1 ==> d * k + d <= 0;
  }

  lemma SmallPowers()
    ensures Pow2(0) == 1 && Pow2(1) == 2 && Pow2(2) == 4 && Pow2(3) == 8 && Pow2(4) == 0x10
    ensures Pow2(5) == 0x20 && Pow2(6) == 0x40 && Pow2(7) == 0x80 && Pow2(8) == 0x100
    ensures Pow2(9) == 0x200 && Pow2(10) == 0x400 && Pow2(11) == 0x800 && Pow2(12) == 0x1000
  {
    assert Pow2(2) == 2 * Pow2(1) && Pow2(3) == 2 * Pow2(2) && Pow2(4) == 2 * Pow2(3);
    assert Pow2(5) == 2 * Pow2(4) && Pow2(6) == 2 * Pow2(5) && Pow2(7) == 2 * Pow2(6);
    assert Pow2(8) == 2 * Pow2(7) && Pow2(9) == 2 * Pow2(8) && Pow2(10) == 2 * Pow2(9);
    assert Pow2(11) == 2 * Pow2(10) && Pow2(12) == 2 * Pow2(11);
  }

  // ---- Fields ------------------------------------------------------------------------------------------------

  /** `x` without its lowest `k` bits. */
  function Shifted(x: nat, k: nat): nat
    decreases k
  {
    if k == 0 then x else Shifted(x / 2, k - 1)
  }

  /** The lowest `n` bits of `x`. */
  function Low(x: nat, n: nat): (r: nat)
    ensures r < Pow2(n) && r <= x
    decreases n
  {
    if n == 0 then 0 else x % 2 + 2 * Low(x / 2, n - 1)
  }

  /** `n` bits of `x` from bit `lo` on. */
  function Field(x: nat, lo: nat, n: nat): (r: nat)
    ensures r < Pow2(n)
  {
    Low(Shifted(x, lo), n)
  }

  lemma {:induction false} ShiftedIs(x: nat, k: nat)
    ensures Shifted(x, k) == x / Pow2(k)
    decreases k
  {
    if k > 0 {
      ShiftedIs(x / 2, k - 1);
      HalveThenDivide(x, Pow2(k - 1));
    }
  }

  lemma {:induction false} LowRest(x: nat, n: nat)
    ensures x == Low(x, n) + Pow2(n) * Shifted(x, n)
    decreases n
  {
    if n > 0 {
      LowRest(x / 2, n - 1);
      Regroup(2, Pow2(n - 1), Shifted(x, n), 0);
    }
  }

  lemma LowIs(x: nat, n: nat)
    ensures Low(x, n) == x % Pow2(n)
  {
    LowRest(x, n);
    Quotient(x, Pow2(n), Shifted(x, n), Low(x, n));
  }

  /** A field by quotient and remainder, for the powers as numbers. */
  lemma FieldIs(x: nat, lo: nat, n: nat, d: nat, m: nat)
    requires d == Pow2(lo) && m == Pow2(n)
    ensures Field(x, lo, n) == x / d % m
  {
    ShiftedIs(x, lo);
    LowIs(Shifted(x, lo), n);
  }

  lemma {:induction false} BitOfShifted(x: nat, k: nat, j: nat)
    ensures Bit(Shifted(x, k), j) == Bit(x, k + j)
    decreases k
  {
    if k > 0 {
      BitOfShifted(x / 2, k - 1, j);
    }
  }

  lemma {:induction false} BitOfLow(x: nat, n: nat, j: nat)
    ensures Bit(Low(x, n), j) == (j < n && Bit(x, j))
    decreases n
  {
    if n == 0 {
      BitOfZero(j);
    } else {
      assert Low(x, n) / 2 == Low(x / 2, n - 1);
      if j > 0 {
        BitOfLow(x / 2, n - 1, j - 1);
      }
    }
  }

  lemma BitOfField(x: nat, lo: nat, n: nat, j: nat)
    ensures Bit(Field(x, lo, n), j) == (j < n && Bit(x, lo + j))
  {
    BitOfLow(Shifted(x, lo), n, j);
    BitOfShifted(x, lo, j);
  }

  lemma {:induction false} SmallIsLow(x: nat, n: nat)
    requires x < Pow2(n)
    ensures Low(x, n) == x
    decreases n
  {
    if n > 0 {
      SmallIsLow(x / 2, n - 1);
    }
  }

  lemma BitOfSmall(x: nat, n: nat, j: nat)
    requires x < Pow2(n) && n <= j
    ensures !Bit(x, j)
  {
    SmallIsLow(x, n);
    BitOfLow(x, n, j);
  }

  /** `lo` below `hi`. */
  lemma {:induction false} BitOfConcat(lo: nat, hi: nat, n: nat, j: nat)
    requires lo < Pow2(n)
    ensures Bit(lo + Pow2(n) * hi, j) == if j < n then Bit(lo, j) else Bit(hi, j - n)
    decreases n
  {
    if n > 0 {
      Regroup(2, Pow2(n - 1), hi, 0);
      var rest := lo / 2 + Pow2(n - 1) * hi;
      assert lo + Pow2(n) * hi == lo % 2 + 2 * rest;
      if j > 0 {
        BitOfConcat(lo / 2, hi, n - 1, j - 1);
      }
    }
  }

  lemma {:induction false} Pow2Grows(a: nat, b: nat)
    requires a <= b
    ensures Pow2(a) <= Pow2(b)
    decreases b
  {
    if a < b {
      Pow2Grows(a, b - 1);
    }
  }

  lemma BitOfOnes(n: nat, j: nat)
    ensures Bit(Pow2(n) - 1, j) == (j < n)
  {
    if j < n {
      BitOfComplement(0, j, n);
      BitOfZero(j);
    } else {
      BitOfSmall(Pow2(n) - 1, n, j);
    }
  }

  // ---- Splitting fields --------------------------------------------------------------------------------------

  lemma {:induction false} LowSplit(x: nat, n: nat, k: nat)
    ensures Low(x, n + k) == Low(x, n) + Pow2(n) * Low(Shifted(x, n), k)
    decreases n
  {
    if n > 0 {
      LowSplit(x / 2, n - 1, k);
      Doubled(Pow2(n - 1), Low(Shifted(x, n), k));
    }
  }

  lemma Doubled(p: int, y: int)
    ensures 2 * p * y == 2 * (p * y)
  {
  }

  lemma {:induction false} ShiftedTwice(x: nat, n: nat, k: nat)
    ensures Shifted(Shifted(x, n), k) == Shifted(x, n + k)
    decreases n
  {
    if n > 0 {
      ShiftedTwice(x / 2, n - 1, k);
    }
  }

  lemma {:induction false} ShiftedBelow(x: nat, k: nat, n: nat)
    requires x < Pow2(n) && k <= n
    ensures Shifted(x, k) < Pow2(n - k)
    decreases k
  {
    if k > 0 {
      ShiftedBelow(x / 2, k - 1, n - 1);
    }
  }

  lemma FieldSplit(x: nat, lo: nat, n: nat, k: nat)
    ensures Field(x, lo, n + k) == Field(x, lo, n) + Pow2(n) * Field(x, lo + n, k)
  {
    LowSplit(Shifted(x, lo), n, k);
    ShiftedTwice(x, lo, n);
  }

  predicate SameBit(x: nat, lo: nat, y: nat, k: nat, j: nat) {
    Bit(x, lo + j) == Bit(y, k + j)
  }

  /** Fields with equal bits are equal. */
  lemma SameField(x: nat, lo: nat, y: nat, k: nat, n: nat)
    requires forall j: nat :: j < n ==> SameBit(x, lo, y, k, j)
    ensures Field(x, lo, n) == Field(y, k, n)
  {
    forall j | 0 <= j < n
      ensures Bit(Field(x, lo, n), j) == Bit(Field(y, k, n), j)
    {
      assert SameBit(x, lo, y, k, j);
      BitOfField(x, lo, n, j);
      BitOfField(y, k, n, j);
    }
    BitsDetermineBelow(Field(x, lo, n), Field(y, k, n), n);
  }

  lemma EmptyField(x: nat, lo: nat)
    ensures Field(x, lo, 0) == 0
  {
  }

  // ---- Sign extension ------------------------------------------------------------------------------------------

  lemma {:induction false} TopBit(v: nat, n: nat)
    requires v < Pow2(n) && n > 0
    ensures Bit(v, n - 1) <==> v >= Pow2(n - 1)
    decreases n
  {
    if n > 1 {
      TopBit(v / 2, n - 1);
    }
  }

  lemma WrapsOnce(x: int)
    requires -TWO_64 <= x < 0
    ensures ToU64(x) == x + TWO_64
  {
  }

  lemma WrapsNot(x: int)
    requires 0 <= x < TWO_64
    ensures ToU64(x) == x
  {
  }

  lemma LessOne(p: int, q: int)
    ensures p * (q - 1) == p * q - p
  {
  }

  /** The sign-extended word of a number of `n` bits. */
  lemma ExtendedWord(v: nat, n: nat)
    requires v < Pow2(n) && 0 < n <= 64
    ensures ToU64(v - Pow2(n)) == v + Pow2(n) * (Pow2(64 - n) - 1)
  {
    hide ToU64, Pow2;
    Pow2Values();
    Pow2Grows(n, 64);
    Pow2Add(n, 64 - n);
    LessOne(Pow2(n), Pow2(64 - n));
    WrapsOnce(v - Pow2(n));
  }

  /** Reading a number of `n` bits as two's complement repeats its top bit. */
  lemma BitOfSignExtended(v: nat, n: nat, j: nat)
    requires v < Pow2(n) && 0 < n <= 64 && j < 64
    ensures Bit(ToU64(if v >= Pow2(n - 1) then v - Pow2(n) else v), j) == Bit(v, if j < n then j else n - 1)
  {
    hide ToU64, Pow2, Bit;
    TopBit(v, n);
    if v >= Pow2(n - 1) {
      ExtendedWord(v, n);
      BitOfConcat(v, Pow2(64 - n) - 1, n, j);
      if j >= n {
        BitOfOnes(64 - n, j - n);
      }
    } else {
      Pow2Values();
      Pow2Grows(n, 64);
      WrapsNot(v);
      if j >= n {
        BitOfSmall(v, n, j);
      }
    }
  }
}
