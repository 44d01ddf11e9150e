/** DRAM kept as 32-bit words in a buffer shared by all workers, against DRAM kept as bytes. */
module Dram {
  import opened Base
  import opened Memory

  datatype Error = OutOfBounds(offset: u32) | InvalidAlignment(offset: u32)

  datatype Outcome<+T> = Done(value: T) | Failed(error: Error)

  // ---- Bytes of a word ------------------------------------------------------------------------------------------

  function Unit(k: nat): (u: nat)
    ensures u > 0
  {
    if k == 0 then 1 else if k == 1 then 0x100 else if k == 2 then 0x1_0000 else 0x100_0000
  }

  /** Byte `k` of a little-endian word: `(word >> 8k) & 0xFF`. */
  function ByteOf(w: u32, k: nat): u8
    requires k < 4
  {
    w / Unit(k) % 0x100
  }

  /** Halfword `k`: `(word >> 16k) & 0xFFFF`. */
  function HalfOf(w: u32, k: nat): (h: u32)
    requires k < 2
  {
    w / Unit(2 * k) % 0x1_0000
  }

  /** `(old & !mask) | bits` with the byte mask at position `k`. */
  function WithByte(w: u32, k: nat, v: u64): u32
    requires k < 4
  {
    w - ByteOf(w, k) * Unit(k) + v % 0x100 * Unit(k)
  }

  /** `(old & !mask) | bits` with the halfword mask at position `k`. */
  function WithHalf(w: u32, k: nat, v: u64): u32
    requires k < 2
  {
    w - HalfOf(w, k) * Unit(2 * k) + v % 0x1_0000 * Unit(2 * k)
  }

  /** The word of four bytes. */
  function Compose(b0: u8, b1: u8, b2: u8, b3: u8): u32 {
    b0 + 0x100 * b1 + 0x1_0000 * b2 + 0x100_0000 * b3
  }

  lemma ComposeBytes(b0: u8, b1: u8, b2: u8, b3: u8)
    ensures var w := Compose(b0, b1, b2, b3);
            && ByteOf(w, 0) == b0 && ByteOf(w, 1) == b1 && ByteOf(w, 2) == b2 && ByteOf(w, 3) == b3
            && HalfOf(w, 0) == b0 + 0x100 * b1 && HalfOf(w, 1) == b2 + 0x100 * b3
  {
    Quotients(b0, b1, b2, b3);
    hide Compose;
  }

  lemma Quotients(b0: u8, b1: u8, b2: u8, b3: u8)
    ensures var w := Compose(b0, b1, b2, b3);
            && w % 0x100 == b0 && w % 0x1_0000 == b0 + 0x100 * b1
            && w / 0x100 == b1 + 0x100 * b2 + 0x1_0000 * b3
            && w / 0x1_0000 == b2 + 0x100 * b3 && w / 0x100_0000 == b3
  {
    DivideBy(0x100, b1 + 0x100 * b2 + 0x1_0000 * b3, b0);
    DivideBy(0x1_0000, b2 + 0x100 * b3, b0 + 0x100 * b1);
    DivideBy(0x100_0000, b3, b0 + 0x100 * b1 + 0x1_0000 * b2);
  }

  lemma DivideBy(d: nat, q: nat, r: nat)
    requires r < d
    ensures (d * q + r) / d == q && (d * q + r) % d == r
  {
    var x := d * q + r;
    assert x == d * (x / d) + x % d;
    var k := q - x / d;
    assert d * k == x % d - r;
    assert k >= 1 ==> d * k >= d;
    assert k <= -1 ==> d * k + d <= 0;
  }

  lemma Decompose(w: u32)
    ensures w == Compose(ByteOf(w, 0), ByteOf(w, 1), ByteOf(w, 2), ByteOf(w, 3))
  {
    var q1 := w / 0x100;
    var q2 := q1 / 0x100;
    var q3 := q2 / 0x100;
    assert q2 == w / 0x1_0000 && q3 == w / 0x100_0000;
  }

  /** Replacing a byte changes that byte only. */
  lemma ByteOfWithByte(w: u32, k: nat, v: u64, j: nat)
    requires k < 4 && j < 4
    ensures ByteOf(WithByte(w, k, v), j) == if j == k then v % 0x100 else ByteOf(w, j)
  {
    var b0, b1, b2, b3 := ByteOf(w, 0), ByteOf(w, 1), ByteOf(w, 2), ByteOf(w, 3);
    Decompose(w);
    var b: u8 := v % 0x100;
    var n := if k == 0 then Compose(b, b1, b2, b3) else if k == 1 then Compose(b0, b, b2, b3)
             else if k == 2 then Compose(b0, b1, b, b3) else Compose(b0, b1, b2, b);
    assert WithByte(w, k, v) == n;
    ComposeBytes(if k == 0 then b else b0, if k == 1 then b else b1,
                 if k == 2 then b else b2, if k == 3 then b else b3);
    hide ByteOf;
  }

  lemma TwoBytes(v: u64)
    ensures v % 0x1_0000 == v % 0x100 + 0x100 * (v / 0x100 % 0x100)
  {
  }

  /** Replacing a halfword changes its two bytes only. */
  lemma ByteOfWithHalf(w: u32, k: nat, v: u64, j: nat)
    requires k < 2 && j < 4
    ensures ByteOf(WithHalf(w, k, v), j) == if j / 2 == k then v / Unit(j % 2) % 0x100 else ByteOf(w, j)
  {
    hide ByteOf, HalfOf;
    var b0, b1, b2, b3 := ByteOf(w, 0), ByteOf(w, 1), ByteOf(w, 2), ByteOf(w, 3);
    var lo: u8, hi: u8 := v % 0x100, v / 0x100 % 0x100;
    Decompose(w);
    ComposeBytes(b0, b1, b2, b3);
    TwoBytes(v);
    if k == 0 {
      assert WithHalf(w, k, v) == Compose(lo, hi, b2, b3);
      ComposeBytes(lo, hi, b2, b3);
    } else {
      assert WithHalf(w, k, v) == Compose(b0, b1, lo, hi);
      ComposeBytes(b0, b1, lo, hi);
    }
  }

  // ---- Byte DRAM ----------------------------------------------------------------------------------------------------

  /** What every access checks: natural alignment, then the range. */
  function Check(size: nat, offset: u32, w: Width): Option<Error> {
    if offset % Size(w) != 0 then Some(InvalidAlignment(offset))
    else if offset + Size(w) > size then Some(OutOfBounds(offset))
    else None
  }

  /** The little-endian value of a run of bytes. */
  function Little(bytes: seq<u8>): nat {
    if bytes == [] then 0 else bytes[0] + 0x100 * Little(bytes[1..])
  }

  function NativeLoad(data: seq<u8>, offset: u32, w: Width): Outcome<nat> {
    match Check(|data|, offset, w)
    case Some(e) => Failed(e)
    case None => Done(Little(data[offset..offset + Size(w)]))
  }

  /** Byte `j` of a value. */
  function ValueByte(v: u64, j: nat): u8 {
    v / LaneUnit(j) % 0x100
  }

  /** Byte `i` after a store at `offset`. */
  function StoredByte(data: seq<u8>, offset: u32, w: Width, v: u64, i: nat): u8
    requires i < |data|
  {
    if offset <= i < offset + Size(w) then ValueByte(v, i - offset) else data[i]
  }

  function NativeStore(data: seq<u8>, offset: u32, w: Width, v: u64): Outcome<seq<u8>> {
    match Check(|data|, offset, w)
    case Some(e) => Failed(e)
    case None => Done(seq<u8>(|data|, i requires 0 <= i < |data| => StoredByte(data, offset, w, v, i)))
  }

  // ---- Word DRAM ----------------------------------------------------------------------------------------------------

  /** The shared buffer as words; DRAM starts `base` bytes into it and is `size` bytes long. */
  datatype Shared = Shared(words: seq<u32>, base: nat, size: nat)

  predicate Fits(b: Shared) {
    b.base % 4 == 0 && b.size % 4 == 0 && b.base + b.size <= 4 * |b.words|
  }

  function AtomicIndex(base: nat, offset: nat): nat {
    (base + offset) / 4
  }

  /** The bytes DRAM holds. */
  function View(b: Shared): (r: seq<u8>)
    requires Fits(b)
    ensures |r| == b.size
  {
    seq<u8>(b.size, off requires 0 <= off < b.size => ByteOf(b.words[AtomicIndex(b.base, off - off % 4)], off % 4))
  }

  /** `lo | (hi << 32)` */
  function Pair(lo: u32, hi: u32): nat {
    var high: nat := hi * 0x1_0000_0000;
    high + lo
  }

  function WordLoad(b: Shared, offset: u32, w: Width): Outcome<nat>
    requires Fits(b)
  {
    match Check(b.size, offset, w)
    case Some(e) => Failed(e)
    case None =>
      match w
      case W8 => Done(ByteOf(b.words[AtomicIndex(b.base, offset - offset % 4)], offset % 4))
      case W16 => Done(HalfOf(b.words[AtomicIndex(b.base, offset - offset % 4)], offset / 2 % 2))
      case W32 => Done(b.words[AtomicIndex(b.base, offset)])
      case W64 => Done(Pair(b.words[AtomicIndex(b.base, offset)], b.words[AtomicIndex(b.base, offset + 4)]))
  }

  function WordStore(b: Shared, offset: u32, w: Width, v: u64): (r: Outcome<Shared>)
    requires Fits(b)
    ensures r.Done? ==>
              Fits(r.value) && r.value.base == b.base && r.value.size == b.size && |r.value.words| == |b.words|
  {
    match Check(b.size, offset, w)
    case Some(e) => Failed(e)
    case None =>
      var i := AtomicIndex(b.base, offset - offset % 4);
      match w
      case W8 => Done(b.(words := b.words[i := WithByte(b.words[i], offset % 4, v)]))
      case W16 => Done(b.(words := b.words[i := WithHalf(b.words[i], offset / 2 % 2, v)]))
      case W32 => Done(b.(words := b.words[i := v % TWO_32]))
      case W64 => Done(b.(words := b.words[i := v % TWO_32][i + 1 := v / TWO_32]))
  }

  // ---- Words refine bytes -------------------------------------------------------------------------------------------

  lemma Aligned(offset: nat, k: nat)
    requires offset % 4 == 0 && k < 4
    ensures (offset + k) % 4 == k && (offset + k) - (offset + k) % 4 == offset
  {
    var q := offset / 4;
    assert offset == 4 * q;
  }

  lemma LittleStep(b: u8, rest: seq<u8>)
    ensures Little([b] + rest) == b + 0x100 * Little(rest)
  {
    assert ([b] + rest)[1..] == rest;
  }

  lemma LittleOfWord(w: u32)
    ensures Little([ByteOf(w, 0)]) == ByteOf(w, 0)
    ensures Little([ByteOf(w, 0), ByteOf(w, 1), ByteOf(w, 2), ByteOf(w, 3)]) == w
  {
    hide ByteOf;
    var b0, b1, b2, b3 := ByteOf(w, 0), ByteOf(w, 1), ByteOf(w, 2), ByteOf(w, 3);
    Decompose(w);
    LittleStep(b3, []);
    LittleStep(b2, [b3]);
    LittleStep(b1, [b2, b3]);
    LittleStep(b0, [b1, b2, b3]);
    LittleStep(b0, []);
    assert [b0] + [b1, b2, b3] == [b0, b1, b2, b3] && [b1] + [b2, b3] == [b1, b2, b3] && [b2] + [b3] == [b2, b3];
    assert [b3] + [] == [b3] && [b0] + [] == [b0];
  }

  lemma LittleOfHalf(w: u32, k: nat)
    requires k < 2
    ensures Little([ByteOf(w, 2 * k), ByteOf(w, 2 * k + 1)]) == HalfOf(w, k)
  {
    hide ByteOf, HalfOf;
    var b0, b1, b2, b3 := ByteOf(w, 0), ByteOf(w, 1), ByteOf(w, 2), ByteOf(w, 3);
    Decompose(w);
    ComposeBytes(b0, b1, b2, b3);
    LittleStep(b1, []);
    LittleStep(b0, [b1]);
    LittleStep(b3, []);
    LittleStep(b2, [b3]);
    assert [b0] + [b1] == [b0, b1] && [b1] + [] == [b1] && [b2] + [b3] == [b2, b3] && [b3] + [] == [b3];
  }

  lemma LittleConcat(a: seq<u8>, b: seq<u8>)
    requires |a| == 4
    ensures Little(a + b) == Little(a) + 0x1_0000_0000 * Little(b)
  {
    LittleStep(a[3], []);
    LittleStep(a[2], [a[3]]);
    LittleStep(a[1], [a[2], a[3]]);
    LittleStep(a[0], [a[1], a[2], a[3]]);
    LittleStep(a[3], b);
    LittleStep(a[2], [a[3]] + b);
    LittleStep(a[1], [a[2]] + ([a[3]] + b));
    LittleStep(a[0], [a[1]] + ([a[2]] + ([a[3]] + b)));
    assert a + b == [a[0]] + ([a[1]] + ([a[2]] + ([a[3]] + b)));
    assert a == [a[0]] + [a[1], a[2], a[3]] && [a[1], a[2], a[3]] == [a[1]] + [a[2], a[3]];
    assert [a[2], a[3]] == [a[2]] + [a[3]] && [a[3]] == [a[3]] + [];
  }

  lemma IndexFits(b: Shared, offset: nat)
    requires Fits(b) && offset % 4 == 0 && offset < b.size
    ensures AtomicIndex(b.base, offset) < |b.words| && offset + 4 <= b.size
    ensures AtomicIndex(b.base, offset + 4) == AtomicIndex(b.base, offset) + 1
  {
    var q, r := offset / 4, b.size / 4;
    assert offset == 4 * q && b.size == 4 * r;
    assert q < r;
  }

  /** The four bytes of a word of DRAM. */
  lemma WordBytes(b: Shared, offset: nat)
    requires Fits(b) && offset % 4 == 0 && offset + 4 <= b.size
    ensures var w := b.words[AtomicIndex(b.base, offset)];
            View(b)[offset..offset + 4] == [ByteOf(w, 0), ByteOf(w, 1), ByteOf(w, 2), ByteOf(w, 3)]
  {
    hide ByteOf, AtomicIndex;
    IndexFits(b, offset);
    Aligned(offset, 0);
    Aligned(offset, 1);
    Aligned(offset, 2);
    Aligned(offset, 3);
  }

  /** Every load from the words returns what the same load from the bytes returns. */
  lemma LoadRefines(b: Shared, offset: u32, w: Width)
    requires Fits(b)
    ensures WordLoad(b, offset, w) == NativeLoad(View(b), offset, w)
  {
    if Check(b.size, offset, w).None? {
      match w
      case W8 => Load8Refines(b, offset);
      case W16 => Load16Refines(b, offset);
      case W32 =>
        WordBytes(b, offset);
        LittleOfWord(b.words[AtomicIndex(b.base, offset)]);
      case W64 => Load64Refines(b, offset);
    }
    hide ByteOf, HalfOf, View, AtomicIndex, Little;
  }

  lemma Load8Refines(b: Shared, offset: u32)
    requires Fits(b) && offset < b.size
    ensures ByteOf(b.words[AtomicIndex(b.base, offset - offset % 4)], offset % 4) == Little(View(b)[offset..offset + 1])
  {
    hide ByteOf, AtomicIndex;
    IndexFits(b, offset - offset % 4);
    assert View(b)[offset..offset + 1] == [View(b)[offset]];
    assert [View(b)[offset]][1..] == [];
  }

  lemma Load16Refines(b: Shared, offset: u32)
    requires Fits(b) && offset % 2 == 0 && offset + 2 <= b.size
    ensures HalfOf(b.words[AtomicIndex(b.base, offset - offset % 4)], offset / 2 % 2)
            == Little(View(b)[offset..offset + 2])
  {
    hide ByteOf, HalfOf, AtomicIndex;
    var k, at := offset / 2 % 2, offset - offset % 4;
    assert offset == at + 2 * k;
    IndexFits(b, at);
    Aligned(at, 2 * k);
    Aligned(at, 2 * k + 1);
    LittleOfHalf(b.words[AtomicIndex(b.base, at)], k);
    assert View(b)[offset..offset + 2] == [View(b)[offset], View(b)[offset + 1]];
  }

  lemma DoubleAligned(offset: nat)
    requires offset % 8 == 0
    ensures offset % 4 == 0 && (offset + 4) % 4 == 0
  {
    var q := offset / 8;
    assert offset == 4 * (2 * q);
  }

  lemma Load64Refines(b: Shared, offset: u32)
    requires Fits(b) && offset % 8 == 0 && offset + 8 <= b.size
    ensures AtomicIndex(b.base, offset + 4) < |b.words| && AtomicIndex(b.base, offset) < |b.words|
    ensures Pair(b.words[AtomicIndex(b.base, offset)], b.words[AtomicIndex(b.base, offset + 4)])
         == Little(View(b)[offset..offset + 8])
  {
    hide ByteOf, AtomicIndex, View, Little;
    DoubleAligned(offset);
    IndexFits(b, offset);
    IndexFits(b, offset + 4);
    WordBytes(b, offset);
    WordBytes(b, offset + 4);
    LittleOfWord(b.words[AtomicIndex(b.base, offset)]);
    LittleOfWord(b.words[AtomicIndex(b.base, offset + 4)]);
    var v := View(b);
    assert v[offset..offset + 8] == v[offset..offset + 4] + v[offset + 4..offset + 8];
    LittleConcat(v[offset..offset + 4], v[offset + 4..offset + 8]);
  }

  /** A byte below bit 32 can be taken from the low word. */
  lemma LowByte(v: u64, j: nat)
    requires j < 4
    ensures ValueByte(v, j) == ByteOf(v % TWO_32, j)
  {
    var hi, lo := v / TWO_32, v % TWO_32;
    assert v == TWO_32 * hi + lo;
    if j == 0 {
      LowByteAt(0x100_0000 * hi, lo, 1);
    } else if j == 1 {
      LowByteAt(0x1_0000 * hi, lo, 0x100);
    } else if j == 2 {
      LowByteAt(0x100 * hi, lo, 0x1_0000);
    } else {
      LowByteAt(hi, lo, 0x100_0000);
    }
  }

  lemma LowByteAt(above: nat, lo: nat, unit: nat)
    requires unit > 0
    ensures (unit * (0x100 * above) + lo) / unit % 0x100 == lo / unit % 0x100
  {
    var q, r := lo / unit, lo % unit;
    assert lo == unit * q + r;
    assert unit * (0x100 * above + q) == unit * (0x100 * above) + unit * q;
    DivideBy(unit, 0x100 * above + q, r);
  }

  lemma HighByte(v: u64, j: nat)
    requires j < 4
    ensures ValueByte(v, j + 4) == ByteOf(v / TWO_32, j)
  {
    var hi, lo := v / TWO_32, v % TWO_32;
    if j == 0 {
    } else if j == 1 {
      var p, s := hi / 0x100, hi % 0x100;
      DivideBy(0x100_0000_0000, p, TWO_32 * s + lo);
    } else if j == 2 {
      var p, s := hi / 0x1_0000, hi % 0x1_0000;
      DivideBy(0x1_0000_0000_0000, p, TWO_32 * s + lo);
    } else {
      var p, s := hi / 0x100_0000, hi % 0x100_0000;
      DivideBy(0x100_0000_0000_0000, p, TWO_32 * s + lo);
    }
  }

  /** Updating word `i` changes its four bytes of DRAM and no others. */
  lemma ViewOfUpdate(b: Shared, offset: nat, x: u32, off: nat)
    requires Fits(b) && offset % 4 == 0 && offset < b.size && off < b.size
    ensures AtomicIndex(b.base, offset) < |b.words|
    ensures View(b.(words := b.words[AtomicIndex(b.base, offset) := x]))[off]
         == if offset <= off < offset + 4 then ByteOf(x, off - offset) else View(b)[off]
  {
    hide ByteOf, AtomicIndex;
    IndexFits(b, offset);
    var at := off - off % 4;
    IndexFits(b, at);
    IndexInjective(b, at, offset);
    if offset <= off < offset + 4 {
      Aligned(offset, off - offset);
    }
  }

  /** Different words of DRAM have different indices. */
  lemma IndexInjective(b: Shared, x: nat, y: nat)
    requires b.base % 4 == 0 && x % 4 == 0 && y % 4 == 0
    ensures AtomicIndex(b.base, x) == AtomicIndex(b.base, y) <==> x == y
  {
    var p, q, r := x / 4, y / 4, b.base / 4;
    assert b.base + x == 4 * (r + p) && b.base + y == 4 * (r + q);
  }

  /** The words before and after DRAM are the same in both buffers. */
  ghost predicate OutsideSame(b: Shared, n: Shared)
    requires |n.words| == |b.words|
  {
    forall i :: 0 <= i < |b.words| && !(b.base / 4 <= i < (b.base + b.size) / 4) ==> n.words[i] == b.words[i]
  }

  lemma StoreStaysInside(b: Shared, offset: u32, w: Width, v: u64)
    requires Fits(b) && WordStore(b, offset, w, v).Done?
    ensures OutsideSame(b, WordStore(b, offset, w, v).value)
  {
    hide WithByte, WithHalf, AtomicIndex;
    IndexFits(b, offset - offset % 4);
    IndexInside(b, offset - offset % 4);
    if w == W64 {
      DoubleAligned(offset);
      IndexFits(b, offset + 4);
      IndexInside(b, offset + 4);
    }
  }

  lemma IndexInside(b: Shared, offset: nat)
    requires Fits(b) && offset % 4 == 0 && offset < b.size
    ensures b.base / 4 <= AtomicIndex(b.base, offset) < (b.base + b.size) / 4
  {
    var p, q, r := b.base / 4, offset / 4, b.size / 4;
    assert b.base == 4 * p && offset == 4 * q && b.size == 4 * r;
    assert b.base + offset == 4 * (p + q) && b.base + b.size == 4 * (p + r);
  }

  /** Every store to the words does to DRAM's bytes what the same store does to a byte array, and leaves
      the rest of the buffer alone. */
  lemma StoreRefines(b: Shared, offset: u32, w: Width, v: u64)
    requires Fits(b)
    ensures match WordStore(b, offset, w, v)
            case Done(n) => NativeStore(View(b), offset, w, v) == Done(View(n)) && OutsideSame(b, n)
            case Failed(e) => NativeStore(View(b), offset, w, v) == Failed(e)
  {
    if WordStore(b, offset, w, v).Done? {
      StoreStaysInside(b, offset, w, v);
    }
    hide OutsideSame;
    if Check(b.size, offset, w).None? {
      var n := WordStore(b, offset, w, v).value;
      forall off: nat | off < b.size
        ensures View(n)[off] == StoredByte(View(b), offset, w, v, off)
      {
        StoredAt(b, offset, w, v, off);
      }
      assert View(n) == NativeStore(View(b), offset, w, v).value;
    }
  }

  lemma StoredAt(b: Shared, offset: u32, w: Width, v: u64, off: nat)
    requires Fits(b) && Check(b.size, offset, w).None? && off < b.size
    ensures View(WordStore(b, offset, w, v).value)[off] == StoredByte(View(b), offset, w, v, off)
  {
    match w
    case W8 => Stored8(b, offset, v, off);
    case W16 => Stored16(b, offset, v, off);
    case W32 => Stored32(b, offset, v, off);
    case W64 => Stored64(b, offset, v, off);
    hide View, StoredByte;
  }

  lemma Stored8(b: Shared, offset: u32, v: u64, off: nat)
    requires Fits(b) && Check(b.size, offset, W8).None? && off < b.size
    ensures View(WordStore(b, offset, W8, v).value)[off] == StoredByte(View(b), offset, W8, v, off)
  {
    hide WithByte, AtomicIndex, View, StoredByte;
    IndexFits(b, offset - offset % 4);
    ByteStored(b, offset - offset % 4, offset % 4, v, off);
  }

  lemma ByteStored(b: Shared, at: nat, k: nat, v: u64, off: nat)
    requires Fits(b) && at % 4 == 0 && k < 4 && at < b.size && off < b.size && at + k < TWO_32
    ensures AtomicIndex(b.base, at) < |b.words|
    ensures var i := AtomicIndex(b.base, at);
            View(b.(words := b.words[i := WithByte(b.words[i], k, v)]))[off] == StoredByte(View(b), at + k, W8, v, off)
  {
    hide ByteOf, WithByte, AtomicIndex, View, ValueByte, Fits;
    HalfByte(v, 0);
    IndexFits(b, at);
    var x := b.words[AtomicIndex(b.base, at)];
    ViewOfUpdate(b, at, WithByte(x, k, v), off);
    if at <= off < at + 4 {
      ByteOfWithByte(x, k, v, off - at);
      InWord(b, at, off);
    }
  }

  lemma InWord(b: Shared, at: nat, off: nat)
    requires Fits(b) && at % 4 == 0 && at <= off < at + 4 && off < b.size && AtomicIndex(b.base, at) < |b.words|
    ensures View(b)[off] == ByteOf(b.words[AtomicIndex(b.base, at)], off - at)
  {
    hide ByteOf, AtomicIndex;
    Aligned(at, off - at);
  }

  lemma HalfByte(v: u64, j: nat)
    requires j < 2
    ensures ValueByte(v, j) == v / Unit(j) % 0x100
  {
  }

  lemma HalfAligned(offset: nat)
    requires offset % 2 == 0
    ensures offset == offset - offset % 4 + 2 * (offset / 2 % 2)
  {
  }

  lemma Stored16(b: Shared, offset: u32, v: u64, off: nat)
    requires Fits(b) && Check(b.size, offset, W16).None? && off < b.size
    ensures View(WordStore(b, offset, W16, v).value)[off] == StoredByte(View(b), offset, W16, v, off)
  {
    hide ByteOf, WithHalf, ValueByte, Unit, AtomicIndex, View;
    var at, k := offset - offset % 4, offset / 2 % 2;
    HalfAligned(offset);
    IndexFits(b, at);
    var x := b.words[AtomicIndex(b.base, at)];
    ViewOfUpdate(b, at, WithHalf(x, k, v), off);
    if at <= off < at + 4 {
      ByteOfWithHalf(x, k, v, off - at);
      InWord(b, at, off);
      HalfByte(v, (off - at) % 2);
    }
  }

  lemma Stored32(b: Shared, offset: u32, v: u64, off: nat)
    requires Fits(b) && Check(b.size, offset, W32).None? && off < b.size
    ensures View(WordStore(b, offset, W32, v).value)[off] == StoredByte(View(b), offset, W32, v, off)
  {
    hide ByteOf, ValueByte;
    ViewOfUpdate(b, offset, v % TWO_32, off);
    if offset <= off < offset + 4 {
      LowByte(v, off - offset);
    }
  }

  lemma Stored64(b: Shared, offset: u32, v: u64, off: nat)
    requires Fits(b) && Check(b.size, offset, W64).None? && off < b.size
    ensures View(WordStore(b, offset, W64, v).value)[off] == StoredByte(View(b), offset, W64, v, off)
  {
    hide ByteOf, ValueByte, View, AtomicIndex;
    DoubleAligned(offset);
    IndexFits(b, offset);
    IndexFits(b, offset + 4);
    var lo := b.(words := b.words[AtomicIndex(b.base, offset) := v % TWO_32]);
    ViewOfUpdate(b, offset, v % TWO_32, off);
    ViewOfUpdate(lo, offset + 4, v / TWO_32, off);
    if offset <= off < offset + 4 {
      LowByte(v, off - offset);
    } else if offset + 4 <= off < offset + 8 {
      HighByte(v, off - offset - 4);
    }
  }

  // ---- Runs ---------------------------------------------------------------------------------------------------------

  datatype Access = LoadAt(offset: u32, w: Width) | StoreAt(offset: u32, w: Width, v: u64)

  /** What each access of a run answers: a load its value, a store 0. */
  function WordRun(b: Shared, accesses: seq<Access>): seq<Outcome<nat>>
    requires Fits(b)
    decreases |accesses|
  {
    if accesses == [] then []
    else
      match accesses[0]
      case LoadAt(offset, w) => [WordLoad(b, offset, w)] + WordRun(b, accesses[1..])
      case StoreAt(offset, w, v) =>
        match WordStore(b, offset, w, v)
        case Failed(e) => [Failed(e)] + WordRun(b, accesses[1..])
        case Done(n) => [Done(0)] + WordRun(n, accesses[1..])
  }

  function NativeRun(data: seq<u8>, accesses: seq<Access>): seq<Outcome<nat>>
    decreases |accesses|
  {
    if accesses == [] then []
    else
      match accesses[0]
      case LoadAt(offset, w) => [NativeLoad(data, offset, w)] + NativeRun(data, accesses[1..])
      case StoreAt(offset, w, v) =>
        match NativeStore(data, offset, w, v)
        case Failed(e) => [Failed(e)] + NativeRun(data, accesses[1..])
        case Done(d) => [Done(0)] + NativeRun(d, accesses[1..])
  }

  /** Word DRAM refines byte DRAM: any mix of loads and stores of all widths, at any addresses, gets the
      same answers from both. */
  lemma {:induction false} WordsRefineBytes(b: Shared, accesses: seq<Access>)
    requires Fits(b)
    ensures WordRun(b, accesses) == NativeRun(View(b), accesses)
    decreases |accesses|
  {
    hide WordLoad, WordStore, NativeLoad, NativeStore, View, OutsideSame;
    if accesses != [] {
      match accesses[0]
      case LoadAt(offset, w) =>
        LoadRefines(b, offset, w);
        WordsRefineBytes(b, accesses[1..]);
      case StoreAt(offset, w, v) =>
        StoreRefines(b, offset, w, v);
        WordsRefineBytes(match WordStore(b, offset, w, v) case Done(n) => n case Failed(_) => b, accesses[1..]);
    }
  }

  // ---- The object ---------------------------------------------------------------------------------------------------

  /** DRAM on a shared word buffer, one worker at a time. */
  class Ram {
    const words: array<u32>
    const base: nat
    const size: nat

    ghost predicate Valid()
      reads this
    {
      base % 4 == 0 && size % 4 == 0 && base + size <= 4 * words.Length
    }

    ghost function State(): (b: Shared)
      reads this, words
      requires Valid()
      ensures Fits(b)
    {
      Shared(words[..], base, size)
    }

    constructor (buffer: array<u32>, byteOffset: nat)
      requires byteOffset % 4 == 0 && byteOffset <= 4 * buffer.Length
      ensures Valid() && words == buffer && base == byteOffset && base + size == 4 * buffer.Length
    {
      words, base, size := buffer, byteOffset, 4 * buffer.Length - byteOffset;
    }

    /** `Atomics.compareExchange`: store `next` if the word is `expected`; the answer is the word found. */
    method CompareExchange(i: nat, expected: u32, next: u32) returns (found: u32)
      requires i < words.Length
      modifies words
      ensures found == old(words[i])
      ensures words[..] == if found == expected then old(words[..])[i := next] else old(words[..])
    {
      found := words[i];
      if found == expected {
        words[i] := next;
      }
    }

    method Store8(offset: u32, value: u64) returns (error: Option<Error>)
      requires Valid()
      modifies words
      ensures Valid() && StoreOutcome(error) == WordStore(old(State()), offset, W8, value)
    {
      hide WithByte, AtomicIndex;
      if offset >= size {
        return Some(OutOfBounds(offset));
      }
      ghost var b := State();
      IndexFits(b, offset - offset % 4);
      var i := AtomicIndex(base, offset - offset % 4);
      var done := false;
      while !done
        invariant !done ==> words[..] == b.words
        invariant done ==> words[..] == b.words[i := WithByte(b.words[i], offset % 4, value)]
        decreases !done
      {
        var word := words[i];
        var found := CompareExchange(i, word, WithByte(word, offset % 4, value));
        done := found == word;
      }
      return None;
    }

    method Store16(offset: u32, value: u64) returns (error: Option<Error>)
      requires Valid()
      modifies words
      ensures Valid() && StoreOutcome(error) == WordStore(old(State()), offset, W16, value)
    {
      hide WithHalf, AtomicIndex;
      if offset % 2 != 0 {
        return Some(InvalidAlignment(offset));
      }
      if offset + 2 > size {
        return Some(OutOfBounds(offset));
      }
      ghost var b := State();
      IndexFits(b, offset - offset % 4);
      var i := AtomicIndex(base, offset - offset % 4);
      var done := false;
      while !done
        invariant !done ==> words[..] == b.words
        invariant done ==> words[..] == b.words[i := WithHalf(b.words[i], offset / 2 % 2, value)]
        decreases !done
      {
        var word := words[i];
        var found := CompareExchange(i, word, WithHalf(word, offset / 2 % 2, value));
        done := found == word;
      }
      return None;
    }

    /** The buffer after a store without error, or the error. */
    ghost function StoreOutcome(error: Option<Error>): Outcome<Shared>
      reads this, words
      requires Valid()
    {
      if error.Some? then Failed(error.value) else Done(State())
    }
  }
}
