/** What the integer computations mean, stated on bits and on integers as in chapters 2, 5 and 7 of the RISC-V
    Unprivileged ISA 20191213, and that the primitives both engines use compute it. */
module Arithmetic {
  import opened Base
  import B = Bits
  import opened BitLaws

  // ---- Values ------------------------------------------------------------------------------------------------

  /** The signed value of a 64-bit register. */
  function Signed64(x: u64): int {
    if B.Bit(x, 63) then x - 0x1_0000_0000_0000_0000 else x
  }

  /** The low word of a register, unsigned and signed. */
  function Word(x: u64): (w: u32) {
    WordBound(x);
    Low(x, 32)
  }

  lemma WordBound(x: nat)
    ensures Low(x, 32) < TWO_32
  {
    B.Pow2Values();
  }

  function SignedWord(x: u64): int {
    if B.Bit(x, 31) then Word(x) - 0x1_0000_0000 else Word(x)
  }

  /** Bits 63 to 32 repeat bit 31. */
  ghost predicate WordExtended(v: u64) {
    forall j: nat :: 32 <= j < 64 ==> B.Bit(v, j) == B.Bit(v, 31)
  }

  function Magnitude(x: int): nat {
    if x < 0 then -x else x
  }

  // ---- Register-register operations ----------------------------------------------------------------------------

  datatype Operation =
    | Add | Sub | Sll | Slt | Sltu | Xor | Srl | Sra | Or | And
    | Mul | Mulh | Mulhsu | Mulhu | Div | Divu | Rem | Remu

  /** Division truncates towards zero: `q` times `b` is not further from zero than `a`, and less than one `b` short. */
  ghost predicate Truncated(a: int, b: int, q: int) {
    var r := a - q * b;
    Magnitude(r) < Magnitude(b) && (r > 0 ==> a > 0) && (r < 0 ==> a < 0)
  }

  /** A remainder is smaller than the divisor and has the dividend's sign. */
  ghost predicate Remains(a: int, b: int, r: int) {
    exists q: int :: a == q * b + r && Truncated(a, b, q)
  }

  /** `v` is the result of the operation on two registers. */
  ghost predicate Results(op: Operation, a: u64, b: u64, v: u64) {
    var amount := Low(b, 6);
    match op
    case Add => v == a + b || v == a + b - TWO_64
    case Sub => v == a - b || v == a - b + TWO_64
    case Sll => forall j: nat :: j < 64 ==> B.Bit(v, j) == (j >= amount && B.Bit(a, j - amount))
    case Srl => forall j: nat :: j < 64 ==> B.Bit(v, j) == (j + amount < 64 && B.Bit(a, j + amount))
    case Sra => forall j: nat :: j < 64 ==> B.Bit(v, j) == B.Bit(a, if j + amount < 64 then j + amount else 63)
    case Xor => forall j: nat :: j < 64 ==> B.Bit(v, j) == (B.Bit(a, j) != B.Bit(b, j))
    case Or => forall j: nat :: j < 64 ==> B.Bit(v, j) == (B.Bit(a, j) || B.Bit(b, j))
    case And => forall j: nat :: j < 64 ==> B.Bit(v, j) == (B.Bit(a, j) && B.Bit(b, j))
    case Slt => v == if Signed64(a) < Signed64(b) then 1 else 0
    case Sltu => v == if a < b then 1 else 0
    case Mul => (Signed64(a) * Signed64(b) - v) % TWO_64 == 0
    case Mulh => Signed64(v) * TWO_64 <= Signed64(a) * Signed64(b) < (Signed64(v) + 1) * TWO_64
    case Mulhsu => Signed64(v) * TWO_64 <= Signed64(a) * b < (Signed64(v) + 1) * TWO_64
    case Mulhu => v * TWO_64 <= a * b < (v + 1) * TWO_64
    case Div =>
      if b == 0 then v == TWO_64 - 1
      else if a == 0x8000_0000_0000_0000 && b == TWO_64 - 1 then v == a
      else Truncated(Signed64(a), Signed64(b), Signed64(v))
    case Rem =>
      if b == 0 then v == a
      else if a == 0x8000_0000_0000_0000 && b == TWO_64 - 1 then v == 0
      else Remains(Signed64(a), Signed64(b), Signed64(v))
    case Divu => if b == 0 then v == TWO_64 - 1 else Truncated(a, b, v)
    case Remu => if b == 0 then v == a else Remains(a, b, v)
  }

  /** `v` is the result of the operation on the low words, sign extended. */
  ghost predicate WordResults(op: Operation, a: u64, b: u64, v: u64) {
    var amount := Low(b, 5);
    var x, y, w := Word(a), Word(b), Word(v);
    && WordExtended(v)
    && match op
       case Add => w == x + y || w == x + y - TWO_32
       case Sub => w == x - y || w == x - y + TWO_32
       case Sll => forall j: nat :: j < 32 ==> B.Bit(v, j) == (j >= amount && B.Bit(a, j - amount))
       case Srl => forall j: nat :: j < 32 ==> B.Bit(v, j) == (j + amount < 32 && B.Bit(a, j + amount))
       case Sra => forall j: nat :: j < 32 ==> B.Bit(v, j) == B.Bit(a, if j + amount < 32 then j + amount else 31)
       case Mul => (x * y - w) % TWO_32 == 0
       case Div =>
         if y == 0 then w == TWO_32 - 1
         else if x == 0x8000_0000 && y == TWO_32 - 1 then w == x
         else Truncated(SignedWord(a), SignedWord(b), SignedWord(v))
       case Rem =>
         if y == 0 then w == x
         else if x == 0x8000_0000 && y == TWO_32 - 1 then w == 0
         else Remains(SignedWord(a), SignedWord(b), SignedWord(v))
       case Divu => if y == 0 then w == TWO_32 - 1 else Truncated(x, y, w)
       case Remu => if y == 0 then w == x else Remains(x, y, w)
       case _ => false
  }

  // ---- Signs and words -------------------------------------------------------------------------------------------

  lemma SignedIs(x: u64)
    ensures Signed64(x) == B.I64(x)
  {
    hide B.Bit, B.Pow2;
    B.Pow2Values();
    Half64();
    TopBit(x, 64);
  }

  lemma Half64()
    ensures B.Pow2(63) == 0x8000_0000_0000_0000 && B.Pow2(31) == 0x8000_0000
  {
    B.Pow2Values();
    assert B.Pow2(64) == 2 * B.Pow2(63) && B.Pow2(32) == 2 * B.Pow2(31);
  }

  lemma WordIs(x: u64)
    ensures Word(x) == x % TWO_32 && Word(x) == B.U32(x)
  {
    hide B.Pow2, Low;
    B.Pow2Values();
    LowIs(x, 32);
  }

  lemma SignedWordIs(x: u64)
    ensures SignedWord(x) == B.I32(x)
  {
    hide B.Bit, B.Pow2, Low;
    B.Pow2Values();
    Half64();
    WordIs(x);
    TopBit(Word(x), 32);
    BitOfLow(x, 32, 31);
  }

  /** Sign extension of a word. */
  lemma ExtensionIs(x: int)
    ensures Word(B.Sext32(x)) == x % TWO_32 && WordExtended(B.Sext32(x))
  {
    hide B.Bit, B.Pow2, Low, ToU64;
    B.Pow2Values();
    Half64();
    var w, v: u32 := B.Sext32(x), x % TWO_32;
    assert B.I32(x) == if v >= 0x8000_0000 then v - TWO_32 else v;
    forall j: nat | j < 64
      ensures B.Bit(w, j) == B.Bit(v, if j < 32 then j else 31)
    {
      BitOfSignExtended(v, 32, j);
    }
    forall j | 0 <= j < 32
      ensures B.Bit(Word(w), j) == B.Bit(v, j)
    {
      BitOfLow(w, 32, j);
    }
    B.BitsDetermineBelow(Word(w), v, 32);
    forall j: nat | 32 <= j < 64
      ensures B.Bit(w, j) == B.Bit(w, 31)
    {
    }
  }

  lemma SmallWraps(x: int)
    requires -0x8000_0000_0000_0000 <= x < 0x8000_0000_0000_0000
    ensures B.I64(ToU64(x)) == x
  {
  }

  // ---- Logic and shifts ---------------------------------------------------------------------------------------------

  lemma BitOfXor(a: u64, b: u64, j: nat)
    requires j < 64
    ensures B.Bit(B.Xor(a, b), j) == (B.Bit(a, j) != B.Bit(b, j))
  {
    hide B.Bit, B.Or, B.Not, B.And;
    B.BitOfOr(a, b, j);
    B.BitOfAnd(a, b, j);
    B.BitOfNot(B.And(a, b), j);
    B.BitOfAnd(B.Or(a, b), B.Not(B.And(a, b)), j);
  }

  lemma LogicResults(a: u64, b: u64)
    ensures Results(Xor, a, b, B.Xor(a, b)) && Results(Or, a, b, B.Or(a, b)) && Results(And, a, b, B.And(a, b))
  {
    hide B.Bit, B.Xor, B.Or, B.And, Low;
    forall j: nat | j < 64
      ensures B.Bit(B.Xor(a, b), j) == (B.Bit(a, j) != B.Bit(b, j))
      ensures B.Bit(B.Or(a, b), j) == (B.Bit(a, j) || B.Bit(b, j))
      ensures B.Bit(B.And(a, b), j) == (B.Bit(a, j) && B.Bit(b, j))
    {
      BitOfXor(a, b, j);
      B.BitOfOr(a, b, j);
      B.BitOfAnd(a, b, j);
    }
  }

  /** The lowest 64 bits of a number shifted up. */
  lemma BitOfShiftedUp(x: nat, n: nat, bits: nat, j: nat)
    ensures B.Bit(Low(B.Pow2(n) * x, bits), j) == (j < bits && j >= n && B.Bit(x, j - n))
  {
    hide B.Bit, B.Pow2, Low;
    BitOfLow(B.Pow2(n) * x, bits, j);
    BitOfConcat(0, x, n, j);
    B.BitOfZero(j);
    assert 0 + B.Pow2(n) * x == B.Pow2(n) * x;
  }

  lemma BitOfShl(x: u64, n: nat, j: nat)
    requires j < 64
    ensures B.Bit(B.Shl(x, n), j) == (j >= n && B.Bit(x, j - n))
  {
    hide B.Bit, B.Pow2, Low;
    B.Pow2Values();
    BitOfShiftedUp(x, n, 64, j);
    LowIs(B.Pow2(n) * x, 64);
    Commutes(x, B.Pow2(n));
  }

  lemma Commutes(a: int, b: int)
    ensures a * b == b * a
  {
  }

  lemma BitOfShr(x: u64, n: nat, j: nat)
    ensures B.Bit(B.Shr(x, n), j) == (j + n < 64 && B.Bit(x, j + n))
  {
    hide B.Bit, B.Pow2, Shifted, ToU64;
    B.Pow2Values();
    ShiftedIs(x, n);
    ShiftedSmaller(x, n);
    WrapsNot(Shifted(x, n));
    BitOfShifted(x, n, j);
    if j + n >= 64 {
      BitOfSmall(x, 64, j + n);
    }
  }

  lemma {:induction false} ShiftedSmaller(x: nat, n: nat)
    ensures Shifted(x, n) <= x
    decreases n
  {
    if n > 0 {
      ShiftedSmaller(x / 2, n - 1);
    }
  }

  /** Shifting the signed value of a number of `m` bits to the right. */
  lemma SignedShift(v: nat, m: nat, n: nat)
    requires v < B.Pow2(m) && n < m <= 64
    ensures var s := if v >= B.Pow2(m - 1) then v - B.Pow2(m) else v;
            var t := Shifted(v, n);
            && t < B.Pow2(m - n)
            && s / B.Pow2(n) == if t >= B.Pow2(m - n - 1) then t - B.Pow2(m - n) else t
  {
    hide B.Bit, B.Pow2, Shifted, Low;
    var t := Shifted(v, n);
    ShiftedBelow(v, n, m);
    ShiftedIs(v, n);
    LowRest(v, n);
    TopBit(v, m);
    TopBit(t, m - n);
    BitOfShifted(v, n, m - n - 1);
    if v >= B.Pow2(m - 1) {
      B.Pow2Add(n, m - n);
      Spread(B.Pow2(n), t, B.Pow2(m - n));
      Quotient(v - B.Pow2(m), B.Pow2(n), t - B.Pow2(m - n), Low(v, n));
    }
  }

  lemma Spread(p: int, q: int, r: int)
    ensures p * (q - r) == p * q - p * r
  {
  }

  /** An arithmetic shift of a number of `m` bits, as a register. */
  lemma BitOfSignedShift(v: nat, m: nat, n: nat, j: nat)
    requires v < B.Pow2(m) && n < m <= 64 && j < 64
    ensures var s := if v >= B.Pow2(m - 1) then v - B.Pow2(m) else v;
            B.Bit(ToU64(s / B.Pow2(n)), j) == B.Bit(v, if j + n < m then j + n else m - 1)
  {
    hide B.Bit, B.Pow2, Shifted, Low, ToU64;
    SignedShift(v, m, n);
    var t := Shifted(v, n);
    BitOfSignExtended(t, m - n, j);
    BitOfShifted(v, n, if j < m - n then j else m - n - 1);
  }

  lemma BitOfSar(x: u64, n: nat, j: nat)
    requires n < 64 && j < 64
    ensures B.Bit(B.Sar(x, n), j) == B.Bit(x, if j + n < 64 then j + n else 63)
  {
    hide B.Bit, B.Pow2, ToU64;
    B.Pow2Values();
    Half64();
    BitOfSignedShift(x, 64, n, j);
  }

  lemma Amount6(b: u64)
    ensures Low(b, 6) == b % 0x40
  {
    hide B.Pow2, Low;
    SmallPowers();
    LowIs(b, 6);
  }

  lemma Amount5(b: u64)
    ensures Low(b, 5) == b % 0x20
  {
    hide B.Pow2, Low;
    SmallPowers();
    LowIs(b, 5);
  }

  lemma ShiftResults(a: u64, b: u64)
    ensures Results(Sll, a, b, B.Shl(a, b % 0x40)) && Results(Srl, a, b, B.Shr(a, b % 0x40))
    ensures Results(Sra, a, b, B.Sar(a, b % 0x40))
  {
    hide B.Bit, B.Shl, B.Shr, B.Sar, Low;
    Amount6(b);
    var n := b % 0x40;
    forall j: nat | j < 64
      ensures B.Bit(B.Shl(a, n), j) == (j >= n && B.Bit(a, j - n))
      ensures B.Bit(B.Shr(a, n), j) == (j + n < 64 && B.Bit(a, j + n))
      ensures B.Bit(B.Sar(a, n), j) == B.Bit(a, if j + n < 64 then j + n else 63)
    {
      BitOfShl(a, n, j);
      BitOfShr(a, n, j);
      BitOfSar(a, n, j);
    }
  }

  // ---- Sums, products and quotients ---------------------------------------------------------------------------------

  lemma SumResults(a: u64, b: u64)
    ensures Results(Add, a, b, WrappingAdd(a, b)) && Results(Sub, a, b, WrappingSub(a, b))
  {
    WrapSum(a + b);
    WrapSum(a - b);
    hide Low;
  }

  lemma WrapSum(x: int)
    requires -TWO_64 < x < 2 * TWO_64
    ensures x % TWO_64 == if x < 0 then x + TWO_64 else if x < TWO_64 then x else x - TWO_64
  {
  }

  lemma WrapWord(x: int)
    requires -TWO_32 < x < 2 * TWO_32
    ensures x % TWO_32 == if x < 0 then x + TWO_32 else if x < TWO_32 then x else x - TWO_32
  {
  }

  lemma CompareResults(a: u64, b: u64)
    ensures Results(Slt, a, b, if B.I64(a) < B.I64(b) then 1 else 0)
    ensures Results(Sltu, a, b, if a < b then 1 else 0)
  {
    hide Low;
    SignedIs(a);
    SignedIs(b);
  }

  /** A product of factors of these sizes. */
  lemma ProductBound(x: int, y: int, m: int, n: int)
    requires -m <= x <= m && -n <= y <= n
    ensures -(m * n) <= x * y <= m * n
  {
    SquareBound(Magnitude(x), Magnitude(y), m, n);
    SignOfProduct(x, y);
  }

  lemma SquareBound(x: nat, y: nat, m: nat, n: nat)
    requires x <= m && y <= n
    ensures 0 <= x * y <= m * n
  {
    assert x * y <= m * y;
    assert m * y <= m * n;
  }

  lemma SignOfProduct(x: int, y: int)
    ensures x * y == if (x < 0) == (y < 0) then Magnitude(x) * Magnitude(y) else -(Magnitude(x) * Magnitude(y))
  {
  }

  lemma FloorBounds(p: int)
    ensures (p / TWO_64) * TWO_64 <= p < (p / TWO_64 + 1) * TWO_64
    ensures (p - ToU64(p)) % TWO_64 == 0
  {
  }

  lemma MulResults(a: u64, b: u64)
    ensures Results(Mul, a, b, ToU64(B.I64(a) * B.I64(b)))
    ensures Results(Mulh, a, b, ToU64(B.I64(a) * B.I64(b) / TWO_64))
    ensures Results(Mulhsu, a, b, ToU64(B.I64(a) * b / TWO_64))
    ensures Results(Mulhu, a, b, ToU64(a * b / TWO_64))
  {
    hide B.I64, ToU64, B.Bit, Low;
    SignedIs(a);
    SignedIs(b);
    SignedRange(a);
    SignedRange(b);
    ProductBound(B.I64(a), B.I64(b), 0x8000_0000_0000_0000, 0x8000_0000_0000_0000);
    ProductBound(B.I64(a), b, 0x8000_0000_0000_0000, TWO_64 - 1);
    ProductBound(a, b, TWO_64 - 1, TWO_64 - 1);
    FloorBounds(B.I64(a) * B.I64(b));
    FloorBounds(B.I64(a) * b);
    FloorBounds(a * b);
    SmallWraps(B.I64(a) * B.I64(b) / TWO_64);
    SmallWraps(B.I64(a) * b / TWO_64);
    SignedIs(ToU64(B.I64(a) * B.I64(b) / TWO_64));
    SignedIs(ToU64(B.I64(a) * b / TWO_64));
    ProductOfNats(a, b);
    WrapsNot(a * b / TWO_64);
  }

  lemma ProductOfNats(a: nat, b: nat)
    ensures a * b >= 0
  {
  }

  lemma SignedRange(x: u64)
    ensures -0x8000_0000_0000_0000 <= B.I64(x) < 0x8000_0000_0000_0000
  {
  }

  /** Truncating division of integers. */
  lemma QuotTruncates(a: int, b: int)
    requires b != 0
    ensures Truncated(a, b, B.Quot(a, b)) && a == B.Quot(a, b) * b + B.Rem(a, b)
  {
    var m, n := B.Abs(a), B.Abs(b);
    Divides(m, n);
    SignOfProduct(B.Quot(a, b), b);
    NatQuotient(m, n);
  }

  lemma Divides(m: nat, n: nat)
    requires n > 0
    ensures m == m / n * n + m % n && m % n < n
  {
  }

  lemma NatQuotient(m: nat, n: nat)
    requires n > 0
    ensures m / n >= 0
  {
  }

  lemma RemRemains(a: int, b: int)
    requires b != 0
    ensures Remains(a, b, B.Rem(a, b))
  {
    QuotTruncates(a, b);
    hide B.Quot, B.Rem, Truncated;
  }

  lemma NatDivision(a: nat, b: nat)
    requires b > 0
    ensures Truncated(a, b, a / b) && Remains(a, b, a % b)
  {
    Divides(a, b);
    assert a == a / b * b + a % b && Truncated(a, b, a / b);
  }

  /** Without overflow a quotient of signed values is a signed value again. */
  lemma QuotRange(a: int, b: int, half: int)
    requires b != 0 && half > 0 && -half <= a < half && -half <= b < half && !(a == -half && b == -1)
    ensures -half <= B.Quot(a, b) < half && -half <= B.Rem(a, b) < half
  {
    QuotSmaller(B.Abs(a), B.Abs(b));
  }

  lemma QuotSmaller(m: nat, n: nat)
    requires n > 0
    ensures 0 <= m / n <= m && 0 <= m % n <= m && (n > 1 && m > 0 ==> m / n < m) && m % n < n
    ensures n == 1 ==> m / n == m
  {
    Divides(m, n);
    NatQuotient(m, n);
    AtLeast(m / n, n, 1);
    if n > 1 {
      AtLeast(m / n, n, 2);
    }
  }

  lemma AtLeast(q: nat, n: nat, k: nat)
    requires k <= n
    ensures q * k <= q * n
  {
  }

  lemma DivResults(a: u64, b: u64)
    ensures Results(Div, a, b, ToU64(if b == 0 then -1 else if a == 0x8000_0000_0000_0000 && b == TWO_64 - 1
                                     then B.I64(a)
                                     else B.Quot(B.I64(a), B.I64(b))))
    ensures Results(Rem, a, b, ToU64(if b == 0 then B.I64(a) else if a == 0x8000_0000_0000_0000 && b == TWO_64 - 1
                                     then 0
                                     else B.Rem(B.I64(a), B.I64(b))))
  {
    hide B.Quot, B.Rem, B.Bit, Low, Truncated, Remains;
    SignedIs(a);
    SignedIs(b);
    WrapsOnce(-1);
    if b != 0 && !(a == 0x8000_0000_0000_0000 && b == TWO_64 - 1) {
      var x, y := B.I64(a), B.I64(b);
      QuotTruncates(x, y);
      RemRemains(x, y);
      QuotRange(x, y, 0x8000_0000_0000_0000);
      SmallWraps(B.Quot(x, y));
      SmallWraps(B.Rem(x, y));
      SignedIs(ToU64(B.Quot(x, y)));
      SignedIs(ToU64(B.Rem(x, y)));
    }
  }

  lemma DivuResults(a: u64, b: u64)
    ensures Results(Divu, a, b, if b == 0 then TWO_64 - 1 else a / b)
    ensures Results(Remu, a, b, if b == 0 then a else a % b)
  {
    hide B.Bit, Low, Truncated, Remains;
    if b != 0 {
      NatDivision(a, b);
    }
  }

  // ---- Words --------------------------------------------------------------------------------------------------------

  lemma WordSumResults(a: u64, b: u64)
    ensures WordResults(Add, a, b, B.Sext32(WrappingAdd(a, b))) && WordResults(Sub, a, b, B.Sext32(WrappingSub(a, b)))
  {
    hide B.Sext32, WordExtended, Low;
    WordIs(a);
    WordIs(b);
    ExtensionIs(WrappingAdd(a, b));
    ExtensionIs(WrappingSub(a, b));
    LowOfSum(a, b);
  }

  lemma LowOfSum(a: u64, b: u64)
    ensures var x, y := a % TWO_32, b % TWO_32;
            && (WrappingAdd(a, b) % TWO_32 == x + y || WrappingAdd(a, b) % TWO_32 == x + y - TWO_32)
            && (WrappingSub(a, b) % TWO_32 == x - y || WrappingSub(a, b) % TWO_32 == x - y + TWO_32)
  {
    var x, y := a % TWO_32, b % TWO_32;
    WrapSum(a + b);
    WrapSum(a - b);
    SameModulo(a + b, x + y, a / TWO_32 + b / TWO_32);
    SameModulo(a - b, x - y, a / TWO_32 - b / TWO_32);
    SameModulo(WrappingAdd(a, b), a + b, if a + b < TWO_64 then 0 else -TWO_32);
    SameModulo(WrappingSub(a, b), a - b, if a - b < 0 then TWO_32 else 0);
    WrapWord(x + y);
    WrapWord(x - y);
  }

  lemma SameModulo(x: int, y: int, k: int)
    requires x == y + k * TWO_32
    ensures x % TWO_32 == y % TWO_32
  {
    var q, r := y / TWO_32, y % TWO_32;
    Quotient(x, TWO_32, q + k, r);
  }

  /** The bits of a sign-extended word, for the word's own bits. */
  lemma BitOfExtended(x: nat, j: nat)
    requires j < 32
    ensures B.Bit(B.Sext32(x), j) == B.Bit(Low(x, 32), j)
  {
    hide B.Sext32, Low, B.Bit, B.Pow2;
    B.Pow2Values();
    ExtensionIs(x);
    LowIs(x, 32);
    BitOfLow(B.Sext32(x), 32, j);
  }

  lemma WordShiftResults(a: u64, b: u64)
    ensures WordResults(Sll, a, b, B.Sext32(B.U32(a) * B.Pow2(b % 0x20)))
    ensures WordResults(Srl, a, b, B.Sext32(B.U32(a) / B.Pow2(b % 0x20)))
    ensures WordResults(Sra, a, b, ToU64(B.I32(a) / B.Pow2(b % 0x20)))
  {
    hide B.Sext32, WordExtended, Low, B.Bit, B.Pow2, ToU64, B.U32;
    Amount5(b);
    var n := b % 0x20;
    WordLeft(a, n);
    WordRight(a, n);
    WordSigned(a, n);
  }

  lemma WordLeft(a: u64, n: nat)
    requires n < 32
    ensures WordExtended(B.Sext32(B.U32(a) * B.Pow2(n)))
    ensures forall j: nat :: j < 32 ==> B.Bit(B.Sext32(B.U32(a) * B.Pow2(n)), j) == (j >= n && B.Bit(a, j - n))
  {
    hide B.Sext32, WordExtended, Low, B.Bit, B.Pow2, B.U32;
    WordIs(a);
    var x := B.U32(a) * B.Pow2(n);
    Commutes(B.U32(a), B.Pow2(n));
    ProductOfNats(B.U32(a), B.Pow2(n));
    ExtensionIs(x);
    forall j: nat | j < 32
      ensures B.Bit(B.Sext32(x), j) == (j >= n && B.Bit(a, j - n))
    {
      BitOfExtended(x, j);
      BitOfShiftedUp(B.U32(a), n, 32, j);
      if j >= n {
        BitOfLow(a, 32, j - n);
      }
    }
  }

  lemma WordRight(a: u64, n: nat)
    requires n < 32
    ensures WordExtended(B.Sext32(B.U32(a) / B.Pow2(n)))
    ensures forall j: nat :: j < 32 ==> B.Bit(B.Sext32(B.U32(a) / B.Pow2(n)), j) == (j + n < 32 && B.Bit(a, j + n))
  {
    hide B.Sext32, WordExtended, Low, B.Bit, B.Pow2, B.U32, Shifted;
    B.Pow2Values();
    WordIs(a);
    ShiftedIs(B.U32(a), n);
    var x := Shifted(B.U32(a), n);
    ShiftedSmaller(B.U32(a), n);
    SmallIsLow(x, 32);
    ExtensionIs(x);
    forall j: nat | j < 32
      ensures B.Bit(B.Sext32(x), j) == (j + n < 32 && B.Bit(a, j + n))
    {
      BitOfExtended(x, j);
      BitOfShifted(B.U32(a), n, j);
      BitOfLow(a, 32, j + n);
    }
  }

  lemma WordSigned(a: u64, n: nat)
    requires n < 32
    ensures WordExtended(ToU64(B.I32(a) / B.Pow2(n)))
    ensures forall j: nat :: j < 32 ==>
              B.Bit(ToU64(B.I32(a) / B.Pow2(n)), j) == B.Bit(a, if j + n < 32 then j + n else 31)
  {
    hide Low, B.Bit, B.Pow2, ToU64;
    B.Pow2Values();
    Half64();
    WordIs(a);
    var v := Word(a);
    assert B.I32(a) == if v >= 0x8000_0000 then v - TWO_32 else v;
    var x := ToU64(B.I32(a) / B.Pow2(n));
    forall j: nat | j < 64
      ensures B.Bit(x, j) == B.Bit(a, if j + n < 32 then j + n else 31)
    {
      BitOfSignedShift(v, 32, n, j);
      BitOfLow(a, 32, if j + n < 32 then j + n else 31);
    }
  }

  /** The low word of a product is that of the product of the words, signed or not. */
  lemma WordMulResults(a: u64, b: u64)
    ensures WordResults(Mul, a, b, B.Sext32(B.I32(a) * B.I32(b)))
  {
    hide B.Sext32, WordExtended, Low, B.I32;
    WordIs(a);
    WordIs(b);
    ExtensionIs(B.I32(a) * B.I32(b));
    SignedProduct(a, b);
  }

  lemma SignedProduct(a: u64, b: u64)
    ensures (a % TWO_32 * (b % TWO_32) - B.I32(a) * B.I32(b) % TWO_32) % TWO_32 == 0
  {
    var x, y := a % TWO_32, b % TWO_32;
    var s, t := if x >= TWO_32 / 2 then 1 else 0, if y >= TWO_32 / 2 then 1 else 0;
    assert B.I32(a) == x - TWO_32 * s && B.I32(b) == y - TWO_32 * t;
    Expand(x, y, s, t);
    var p := B.I32(a) * B.I32(b);
    SameModulo(x * y - p % TWO_32, 0, x * t + y * s - TWO_32 * s * t + p / TWO_32);
  }

  lemma Expand(x: int, y: int, s: int, t: int)
    ensures (x - TWO_32 * s) * (y - TWO_32 * t) == x * y - (x * t + y * s - TWO_32 * s * t) * TWO_32
  {
  }

  lemma WordDivResults(a: u64, b: u64)
    ensures var x, y := B.I32(a), B.I32(b);
            && WordResults(Div, a, b, B.Sext32(if y == 0 then -1 else if x == -0x8000_0000 && y == -1 then -0x8000_0000
                                               else B.Quot(x, y)))
            && WordResults(Rem, a, b, B.Sext32(if y == 0 then x else if x == -0x8000_0000 && y == -1 then 0
                                               else B.Rem(x, y)))
  {
    hide B.Sext32, WordExtended, Low, B.Bit, B.Quot, B.Rem, Truncated, Remains, Signed64;
    WordIs(a);
    WordIs(b);
    SignedWordIs(a);
    SignedWordIs(b);
    var x, y := B.I32(a), B.I32(b);
    ExtensionIs(-1);
    ExtensionIs(x);
    ExtensionIs(0);
    ExtensionIs(-0x8000_0000);
    if y != 0 && !(x == -0x8000_0000 && y == -1) {
      QuotTruncates(x, y);
      RemRemains(x, y);
      QuotRange(x, y, 0x8000_0000);
      ExtensionOfSigned(B.Quot(x, y));
      ExtensionOfSigned(B.Rem(x, y));
      ExtensionIs(B.Quot(x, y));
      ExtensionIs(B.Rem(x, y));
    }
  }

  lemma ExtensionOfSigned(x: int)
    requires -0x8000_0000 <= x < 0x8000_0000
    ensures SignedWord(B.Sext32(x)) == x
  {
    hide WordExtended, Low, B.Bit;
    ExtensionIs(x);
    SignedWordIs(B.Sext32(x));
    WordIs(B.Sext32(x));
  }

  lemma WordOfSmall(x: u32)
    ensures Word(B.Sext32(x)) == x && WordExtended(B.Sext32(x))
  {
    hide B.Sext32, WordExtended, Low;
    ExtensionIs(x);
  }

  lemma WordDivuResults(a: u64, b: u64)
    ensures var x, y := B.U32(a), B.U32(b);
            && WordResults(Divu, a, b, B.Sext32(if y == 0 then TWO_64 - 1 else x / y))
            && WordResults(Remu, a, b, B.Sext32(if y == 0 then x else x % y))
  {
    hide B.Sext32, WordExtended, Low, B.Bit, Truncated, Remains, B.U32, SignedWord;
    WordIs(a);
    WordIs(b);
    var x, y := B.U32(a), B.U32(b);
    ExtensionIs(TWO_64 - 1);
    ExtensionIs(x);
    if y != 0 {
      NatDivision(x, y);
      QuotSmaller(x, y);
      WordOfSmall(x / y);
      WordOfSmall(x % y);
    }
  }
}
