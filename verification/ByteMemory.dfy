/** The memory the harts see, byte by byte: what loads and stores of every width do, and that it is the
    byte DRAM of the native build. */
module ByteMemory {
  import opened Base
  import opened Bits
  import opened BitLaws
  import opened Memory
  import Dram

  /** Bytes of an access. */
  function Bytes(w: Width): (n: nat)
    ensures 0 < n <= 8
  {
    match w
    case W8 => 1
    case W16 => 2
    case W32 => 4
    case W64 => 8
  }

  /** The byte at an address: eight bits of its word, the lowest ones at the lowest address. */
  function ByteAt(m: Mem, a: nat): (b: u8) {
    ByteRange(m.At(a / 8), a % 8);
    Field(m.At(a / 8), 8 * (a % 8), 8)
  }

  lemma ByteRange(x: nat, k: nat)
    ensures Field(x, 8 * k, 8) < 0x100
  {
    SmallPowers();
  }

  /** Byte `k` of a value. */
  function ByteOf(v: nat, k: nat): u8 {
    ByteRange(v, k);
    Field(v, 8 * k, 8)
  }

  /** The little-endian number of `n` bytes from `a` on. */
  function Number(m: Mem, a: nat, n: nat): nat
    decreases n
  {
    if n == 0 then 0 else ByteAt(m, a) + 0x100 * Number(m, a + 1, n - 1)
  }

  // ---- Fields of words ---------------------------------------------------------------------------------------

  lemma Units(k: nat)
    requires k < 8
    ensures LaneUnit(k) == Pow2(8 * k)
  {
    hide Pow2;
    SmallPowers();
    if k > 0 {
      Units(k - 1);
      Pow2Add(8, 8 * (k - 1));
    }
  }

  lemma Spans(w: Width)
    ensures Span(w) == Pow2(8 * Bytes(w)) && Size(w) == Bytes(w)
  {
    hide Pow2;
    SmallPowers();
    Pow2Add(8, 8);
    Pow2Values();
  }

  /** What an access sees of a word is a field of it. */
  lemma ExtractIsField(x: u64, a: u64, w: Width)
    requires a % 8 + Bytes(w) <= 8
    ensures Extract(x, a, w) == Field(x, 8 * (a % 8), 8 * Bytes(w))
  {
    hide Pow2, Field, LaneUnit;
    Spans(w);
    Units(a % 8);
    FieldIs(x, 8 * (a % 8), 8 * Bytes(w), LaneUnit(a % 8), Span(w));
    if w == W64 {
      Pow2Values();
      SmallPowers();
      assert a % 8 == 0;
    }
  }

  function Times(a: nat, b: nat): nat {
    a * b
  }

  /** The three parts of a word with a field replaced. */
  function WithField(x: nat, lo: nat, n: nat, y: nat): nat {
    Low(x, lo) + Times(Pow2(lo), y + Times(Pow2(n), Shifted(x, lo + n)))
  }

  /** A word with a field replaced. */
  lemma Replaced(x: u64, lo: nat, n: nat, y: nat)
    requires lo + n <= 64 && y < Pow2(n)
    ensures var z := x + (y - Field(x, lo, n)) * Pow2(lo);
            && z == WithField(x, lo, n, y)
            && 0 <= z < TWO_64
  {
    hide Pow2, Low, Shifted;
    LowRest(x, lo);
    LowRest(Shifted(x, lo), n);
    ShiftedTwice(x, lo, n);
    var f, hi := Field(x, lo, n), Shifted(x, lo + n);
    assert x == Low(x, lo) + Pow2(lo) * (f + Pow2(n) * hi);
    Exchange(Pow2(lo), f, y, Pow2(n) * hi);
    ReplacedBound(x, lo, n, y);
  }

  lemma Exchange(p: int, f: int, y: int, rest: int)
    ensures p * (f + rest) + (y - f) * p == p * (y + rest)
  {
  }

  lemma ReplacedBound(x: u64, lo: nat, n: nat, y: nat)
    requires lo + n <= 64 && y < Pow2(n)
    ensures WithField(x, lo, n, y) < TWO_64
  {
    hide Pow2, Low, Shifted;
    Pow2Values();
    var k := 64 - lo - n;
    var hi := Shifted(x, lo + n);
    HighPart(x, lo + n);
    Fits(Pow2(n), y, hi, Pow2(k));
    Pow2Add(n, k);
    Fits(Pow2(lo), Low(x, lo), y + Pow2(n) * hi, Pow2(n + k));
    Pow2Add(lo, n + k);
  }

  lemma Fits(p: nat, r: nat, q: nat, bound: nat)
    requires r < p && q < bound
    ensures 0 <= r + p * q < p * bound
  {
    assert p * (q + 1) <= p * bound;
  }

  lemma HighPart(x: u64, n: nat)
    requires n <= 64
    ensures Shifted(x, n) < Pow2(64 - n)
  {
    hide Pow2, Shifted;
    Pow2Values();
    Pow2Add(n, 64 - n);
    LowRest(x, n);
    if Shifted(x, n) >= Pow2(64 - n) {
      Above(Pow2(n), Shifted(x, n), Pow2(64 - n));
    }
  }

  lemma Above(p: nat, q: nat, bound: nat)
    requires q >= bound
    ensures p * q >= p * bound
  {
  }

  /** The bits of a word with a field replaced. */
  lemma BitOfReplaced(x: u64, lo: nat, n: nat, y: nat, j: nat)
    requires lo + n <= 64 && y < Pow2(n)
    ensures Bit(WithField(x, lo, n, y), j) == if lo <= j < lo + n then Bit(y, j - lo) else Bit(x, j)
  {
    hide Pow2, Bit, Low, Shifted;
    var hi := Shifted(x, lo + n);
    BitOfConcat(Low(x, lo), y + Pow2(n) * hi, lo, j);
    if j < lo {
      BitOfLow(x, lo, j);
    } else {
      BitOfConcat(y, hi, n, j - lo);
      if j >= lo + n {
        BitOfShifted(x, lo + n, j - lo - n);
      }
    }
  }

  /** The bits of a word after a store. */
  lemma BitOfInsert(x: u64, a: u64, w: Width, v: u64, j: nat)
    requires a % 8 + Bytes(w) <= 8 && j < 64
    ensures var lo := 8 * (a % 8);
            Bit(Insert(x, a, w, v), j) == if lo <= j < lo + 8 * Bytes(w) then Bit(v, j - lo) else Bit(x, j)
  {
    hide Pow2, Bit, Field, Low, Shifted, LaneUnit, ToU64;
    if w != W64 {
      var lo, n := 8 * (a % 8), 8 * Bytes(w);
      Spans(w);
      Units(a % 8);
      ExtractIsField(x, a, w);
      LowIs(v, n);
      Replaced(x, lo, n, Low(v, n));
      BitOfReplaced(x, lo, n, Low(v, n), j);
      WrapsNot(x + (v % Span(w) - Extract(x, a, w)) * LaneUnit(a % 8));
      if lo <= j < lo + n {
        BitOfLow(v, n, j - lo);
      }
    }
  }

  // ---- Loads and stores -----------------------------------------------------------------------------------------

  /** A naturally aligned access lies in one word. */
  lemma AlignedAccess(a: nat, n: nat, i: nat)
    requires (n == 1 || n == 2 || n == 4 || n == 8) && a % n == 0 && i < n
    ensures a % 8 + n <= 8 && (a + i) / 8 == a / 8 && (a + i) % 8 == a % 8 + i
  {
    var q := a / n;
    assert a == n * q;
  }

  lemma {:induction false} NumberIsField(m: Mem, a: nat, n: nat)
    requires a % 8 + n <= 8
    ensures Number(m, a, n) == Field(m.At(a / 8), 8 * (a % 8), 8 * n)
    decreases n
  {
    hide Field;
    if n > 0 {
      FieldSplit(m.At(a / 8), 8 * (a % 8), 8, 8 * (n - 1));
      SmallPowers();
      if n > 1 {
        NextInWord(a);
        NumberIsField(m, a + 1, n - 1);
      } else {
        assert Number(m, a + 1, 0) == 0;
        EmptyField(m.At(a / 8), 8 * (a % 8) + 8);
      }
    } else {
      EmptyField(m.At(a / 8), 8 * (a % 8));
    }
  }

  lemma NextInWord(a: nat)
    requires a % 8 < 7
    ensures (a + 1) / 8 == a / 8 && (a + 1) % 8 == a % 8 + 1
  {
  }

  /** A load of any width: the little-endian number of the bytes, if it is aligned and inside DRAM. */
  lemma LoadMeans(m: Mem, a: u64, w: Width)
    ensures Read(m, a, w) ==
              if a % Bytes(w) != 0 then Err(LoadAddressMisaligned(a))
              else if !(m.base <= a && a + Bytes(w) <= m.base + m.size) then Err(LoadAccessFault(a))
              else Ok(Number(m, a, Bytes(w)))
  {
    hide Field, Extract;
    Spans(w);
    if a % Bytes(w) == 0 {
      AlignedAccess(a, Bytes(w), 0);
      ExtractIsField(m.At(a / 8), a, w);
      NumberIsField(m, a, Bytes(w));
    }
  }

  /** A store of any width: the bytes of the access become those of the value, no other byte changes. */
  ghost predicate Stored(m: Mem, n: Mem, a: u64, w: Width, v: u64) {
    && n.base == m.base && n.size == m.size
    && forall b: nat :: ByteAt(n, b) == if a <= b < a + Bytes(w) then ByteOf(v, b - a) else ByteAt(m, b)
  }

  lemma StoreMeans(m: Mem, a: u64, w: Width, v: u64)
    ensures var r := Write(m, a, w, v);
            if a % Bytes(w) != 0 then r == Err(StoreAddressMisaligned(a))
            else if !(m.base <= a && a + Bytes(w) <= m.base + m.size) then r == Err(StoreAccessFault(a))
            else r.Ok? && Stored(m, r.value, a, w, v)
  {
    hide Field, Insert;
    Spans(w);
    var r := Write(m, a, w, v);
    if r.Ok? {
      forall b: nat
        ensures ByteAt(r.value, b) == if a <= b < a + Bytes(w) then ByteOf(v, b - a) else ByteAt(m, b)
      {
        StoredByte(m, a, w, v, b);
      }
    }
  }

  lemma StoredByte(m: Mem, a: u64, w: Width, v: u64, b: nat)
    requires Write(m, a, w, v).Ok? && Size(w) == Bytes(w)
    ensures ByteAt(Write(m, a, w, v).value, b) == if a <= b < a + Bytes(w) then ByteOf(v, b - a) else ByteAt(m, b)
  {
    hide Field, Insert, Bit;
    AlignedAccess(a, Bytes(w), 0);
    if b / 8 == a / 8 {
      var x, k, lo := m.At(a / 8), b % 8, 8 * (a % 8);
      var y := Insert(x, a, w, v);
      assert b - a == k - a % 8;
      if a <= b < a + Bytes(w) {
        var from := 8 * (b - a);
        forall j: nat | j < 8
          ensures SameBit(y, 8 * k, v, from, j)
        {
          BitOfInsert(x, a, w, v, 8 * k + j);
          assert 8 * k + j - lo == from + j;
        }
        SameField(y, 8 * k, v, 8 * (b - a), 8);
      } else {
        forall j: nat | j < 8
          ensures SameBit(y, 8 * k, x, 8 * k, j)
        {
          BitOfInsert(x, a, w, v, 8 * k + j);
        }
        SameField(y, 8 * k, x, 8 * k, 8);
      }
    }
  }

  /** Reading a byte after a store. */
  lemma ReadOverWrite(m: Mem, a: u64, w: Width, v: u64, b: u64)
    requires Write(m, a, w, v).Ok? && m.base <= b < m.base + m.size
    ensures Read(Write(m, a, w, v).value, b, W8)
         == if a <= b < a + Bytes(w) then Ok(ByteOf(v, b - a)) else Read(m, b, W8)
  {
    hide Field, Read, Write;
    var n := Write(m, a, w, v).value;
    StoreMeans(m, a, w, v);
    LoadMeans(m, b, W8);
    LoadMeans(n, b, W8);
    assert ByteAt(n, b) == if a <= b < a + Bytes(w) then ByteOf(v, b - a) else ByteAt(m, b);
    assert Number(m, b, 1) == ByteAt(m, b) + 0x100 * Number(m, b + 1, 0);
    assert Number(n, b, 1) == ByteAt(n, b) + 0x100 * Number(n, b + 1, 0);
  }

  /** What is stored is what is loaded, as far as the width goes. */
  lemma ReadBack(m: Mem, a: u64, w: Width, v: u64)
    requires Write(m, a, w, v).Ok?
    ensures Read(Write(m, a, w, v).value, a, w) == Ok(v % Pow2(8 * Bytes(w)))
  {
    hide Field, Insert, Pow2, Low;
    Spans(w);
    var n := Write(m, a, w, v).value;
    AlignedAccess(a, Bytes(w), 0);
    var y, lo, k := Insert(m.At(a / 8), a, w, v), 8 * (a % 8), 8 * Bytes(w);
    assert n.At(a / 8) == y;
    ExtractIsField(y, a, w);
    forall j: nat | j < k
      ensures SameBit(y, lo, v, 0, j)
    {
      BitOfInsert(m.At(a / 8), a, w, v, lo + j);
    }
    SameField(y, lo, v, 0, k);
    WholeField(v, k);
    hide Extract;
  }

  lemma WholeField(v: nat, n: nat)
    ensures Field(v, 0, n) == v % Pow2(n)
  {
    LowIs(v, n);
  }

  // ---- The native DRAM --------------------------------------------------------------------------------------------

  /** The bytes of DRAM, from its first address on. */
  function Contents(m: Mem): (s: seq<u8>)
    ensures |s| == m.size
  {
    seq<u8>(m.size, i requires 0 <= i < m.size => ByteAt(m, m.base + i))
  }

  lemma {:induction false} NumberIsLittle(m: Mem, i: nat, n: nat)
    requires i + n <= m.size
    ensures Number(m, m.base + i, n) == Dram.Little(Contents(m)[i..i + n])
    decreases n
  {
    hide ByteAt;
    if n > 0 {
      var part := Contents(m)[i..i + n];
      assert part[0] == ByteAt(m, m.base + i);
      assert part[1..] == Contents(m)[i + 1..i + 1 + (n - 1)];
      NumberIsLittle(m, i + 1, n - 1);
    }
  }

  /** The offset of an address is aligned as the address is, since DRAM starts at a multiple of 8. */
  lemma SameAlignment(base: nat, off: nat, n: nat)
    requires base % 8 == 0 && (n == 1 || n == 2 || n == 4 || n == 8)
    ensures (base + off) % n == off % n
  {
    var q := base / 8;
    assert base == 8 * q;
    if n == 8 {
      Quotient(base + off, 8, q + off / 8, off % 8);
    } else if n == 4 {
      Quotient(base + off, 4, 2 * q + off / 4, off % 4);
    } else if n == 2 {
      Quotient(base + off, 2, 4 * q + off / 2, off % 2);
    }
  }

  lemma ValueBytes(v: u64, k: nat)
    requires k < 8
    ensures Dram.ValueByte(v, k) == ByteOf(v, k)
  {
    hide Pow2, Field;
    SmallPowers();
    Units(k);
    FieldIs(v, 8 * k, 8, LaneUnit(k), 0x100);
  }

  /** Loads of the harts are loads of the byte DRAM at the address's offset: same value, same refusals. */
  lemma NativeLoads(m: Mem, off: u32, w: Width)
    requires m.base % 8 == 0 && m.base + off < TWO_64
    ensures var r, d := Read(m, m.base + off, w), Dram.NativeLoad(Contents(m), off, w);
            && (r.Ok? <==> d.Done?) && (r.Ok? ==> r.value == d.value)
            && (d.Failed? ==> (d.error.InvalidAlignment? <==> r.trap.LoadAddressMisaligned?))
  {
    hide Read, Contents, Dram.Little, Number;
    var a := m.base + off;
    Spans(w);
    LoadMeans(m, a, w);
    SameAlignment(m.base, off, Bytes(w));
    if off + Bytes(w) <= m.size {
      NumberIsLittle(m, off, Bytes(w));
    }
  }

  /** Stores of the harts are stores of the byte DRAM. */
  lemma NativeStores(m: Mem, off: u32, w: Width, v: u64)
    requires m.base % 8 == 0 && m.base + off < TWO_64
    ensures var r, d := Write(m, m.base + off, w, v), Dram.NativeStore(Contents(m), off, w, v);
            && (r.Ok? <==> d.Done?) && (r.Ok? ==> Contents(r.value) == d.value)
            && (d.Failed? ==> (d.error.InvalidAlignment? <==> r.trap.StoreAddressMisaligned?))
  {
    hide Write, ByteAt, ByteOf, Dram.ValueByte;
    var a := m.base + off;
    Spans(w);
    StoreMeans(m, a, w, v);
    SameAlignment(m.base, off, Bytes(w));
    var r, d := Write(m, a, w, v), Dram.NativeStore(Contents(m), off, w, v);
    if r.Ok? {
      forall i | 0 <= i < m.size
        ensures Contents(r.value)[i] == d.value[i]
      {
        assert ByteAt(r.value, m.base + i)
            == if a <= m.base + i < a + Bytes(w) then ByteOf(v, m.base + i - a) else ByteAt(m, m.base + i);
        if off <= i < off + Bytes(w) {
          ValueBytes(v, i - off);
        }
      }
    }
  }
}
