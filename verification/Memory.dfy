/** Flat physical memory as seen by the harts: DRAM from `base` on, naturally aligned little-endian
    accesses, each of which lies in one 8-byte word, and an error for everything else. */
module Memory {
  import opened Base

  /** The populated byte range and the 8-byte words stored so far, by word number; the others are zero. */
  datatype Mem = Mem(base: u64, size: u64, words: map<int, u64>) {
    function At(w: int): u64 {
      if w in words then words[w] else 0
    }
  }

  datatype Width = W8 | W16 | W32 | W64

  function Size(w: Width): nat {
    match w
    case W8 => 1
    case W16 => 2
    case W32 => 4
    case W64 => 8
  }

  /** The number of the word that contains the byte at `a`. */
  function Word(a: u64): int {
    a / 8
  }

  /** 256 to the power of the byte position `k` inside a word. */
  function LaneUnit(k: nat): (r: nat)
    ensures r > 0
  {
    if k == 0 then 1
    else if k == 1 then 0x100
    else if k == 2 then 0x1_0000
    else if k == 3 then 0x100_0000
    else if k == 4 then 0x1_0000_0000
    else if k == 5 then 0x100_0000_0000
    else if k == 6 then 0x1_0000_0000_0000
    else 0x100_0000_0000_0000
  }

  /** Number of values of an access of this width. */
  function Span(w: Width): (r: nat)
    ensures r > 0
  {
    match w
    case W8 => 0x100
    case W16 => 0x1_0000
    case W32 => 0x1_0000_0000
    case W64 => 0x1_0000_0000_0000_0000
  }

  /** The part of word `x` that an access at `a` sees, zero-extended. */
  function Extract(x: u64, a: u64, w: Width): (r: u64)
    ensures r < Span(w)
  {
    if w == W64 then x else (x / LaneUnit(a % 8)) % Span(w)
  }

  /** Word `x` after the bytes an aligned access at `a` covers have been replaced by those of `v`. */
  function Insert(x: u64, a: u64, w: Width, v: u64): u64 {
    if w == W64 then v else ToU64(x + (v % Span(w) - Extract(x, a, w)) * LaneUnit(a % 8))
  }

  /** Does the whole access lie in DRAM? */
  predicate InDram(m: Mem, a: u64, w: Width) {
    m.base <= a && a + Size(w) <= m.base + m.size
  }

  function Read(m: Mem, a: u64, w: Width): (r: Result<u64>)
    ensures r.Ok? ==> r.value < Span(w)
  {
    if a % Size(w) != 0 then Err(LoadAddressMisaligned(a))
    else if !InDram(m, a, w) then Err(LoadAccessFault(a))
    else Ok(Extract(m.At(Word(a)), a, w))
  }

  function Write(m: Mem, a: u64, w: Width, v: u64): Result<Mem> {
    if a % Size(w) != 0 then Err(StoreAddressMisaligned(a))
    else if !InDram(m, a, w) then Err(StoreAccessFault(a))
    else Ok(m.(words := m.words[Word(a) := Insert(m.At(Word(a)), a, w, v)]))
  }

  /** An 8-byte word read as a page-table entry: flag bits 0 to 7 and everything above them. */
  datatype Pte = Pte(v: bool, r: bool, w: bool, x: bool, u: bool, g: bool, a: bool, d: bool, high: High)

  type High = x: int | 0 <= x < 0x100_0000_0000_0000

  function Unpack(word: u64): Pte {
    var b1 := word / 2;
    var b2 := b1 / 2;
    var b3 := b2 / 2;
    var b4 := b3 / 2;
    var b5 := b4 / 2;
    var b6 := b5 / 2;
    var b7 := b6 / 2;
    Pte(word % 2 == 1, b1 % 2 == 1, b2 % 2 == 1, b3 % 2 == 1,
        b4 % 2 == 1, b5 % 2 == 1, b6 % 2 == 1, b7 % 2 == 1, b7 / 2)
  }

  /** A flag below the bits of `rest`. */
  function Below(b: bool, rest: nat): (r: nat)
    ensures r / 2 == rest && (r % 2 == 1 <==> b) && r <= 2 * rest + 1
  {
    (if b then 1 else 0) + 2 * rest
  }

  function Pack(p: Pte): (word: u64)
    ensures Unpack(word) == p
  {
    Below(p.v, Below(p.r, Below(p.w, Below(p.x, Below(p.u, Below(p.g, Below(p.a, Below(p.d, p.high))))))))
  }

  /** The entry with its accessed and dirty flags (bits 6 and 7) blanked out. */
  function ButAd(word: u64): Pte {
    Unpack(word).(a := false, d := false)
  }

  /** Words that hold page-table entries: those no walk can mark any more, and the others. */
  datatype Tables = Tables(fixed: iset<int>, loose: iset<int>) {
    ghost predicate Has(w: int) {
      w in fixed || w in loose
    }
  }

  const NO_TABLES := Tables(iset{}, iset{})

  /** `m` and `n` agree up to accessed/dirty bits on the loose words of `pt`, and exactly on its fixed words
      and on the words of `keep`. */
  ghost predicate Agree(pt: Tables, keep: iset<int>, m: Mem, n: Mem) {
    && m.base == n.base && m.size == n.size
    && (forall a :: a in pt.loose ==> ButAd(m.At(a)) == ButAd(n.At(a)))
    && (forall a :: a in pt.fixed ==> m.At(a) == n.At(a))
    && (forall a :: a in keep ==> m.At(a) == n.At(a))
  }

  /** Every word a walk cannot mark. */
  ghost function Outside(pt: Tables): iset<int> {
    iset x | x !in pt.loose
  }

  /** Reading inside a kept word gives the same result in both memories. */
  lemma ReadAgrees(pt: Tables, keep: iset<int>, m: Mem, n: Mem, a: u64, w: Width)
    requires Agree(pt, keep, m, n) && Word(a) in keep
    ensures Read(m, a, w) == Read(n, a, w)
  {
  }

  /** A page-table entry reads the same in both memories except for its accessed and dirty bits. */
  lemma ReadAgreesButAd(pt: Tables, keep: iset<int>, m: Mem, n: Mem, a: u64)
    requires Agree(pt, keep, m, n) && pt.Has(Word(a)) && a % 8 == 0
    ensures Read(m, a, W64).Ok? == Read(n, a, W64).Ok?
    ensures Read(m, a, W64).Ok? ==> ButAd(Read(m, a, W64).value) == ButAd(Read(n, a, W64).value)
  {
  }

  lemma AgreeRefl(pt: Tables, keep: iset<int>, m: Mem)
    ensures Agree(pt, keep, m, m)
  {
  }

  lemma AgreeTransitive(pt: Tables, keep: iset<int>, m: Mem, n: Mem, o: Mem)
    requires Agree(pt, keep, m, n) && Agree(pt, keep, n, o)
    ensures Agree(pt, keep, m, o)
  {
  }

  lemma AgreeSymmetric(pt: Tables, keep: iset<int>, m: Mem, n: Mem)
    requires Agree(pt, keep, m, n)
    ensures Agree(pt, keep, n, m)
  {
  }

  lemma AgreeWeaken(pt: Tables, keep: iset<int>, less: iset<int>, m: Mem, n: Mem)
    requires Agree(pt, keep, m, n) && less <= keep
    ensures Agree(pt, less, m, n)
  {
  }

  /** Replacing one word is seen only through that word. */
  lemma AgreeUpdate(pt: Tables, keep: iset<int>, m: Mem, w: int, v: u64)
    requires w in pt.loose ==> ButAd(v) == ButAd(m.At(w))
    requires w in pt.fixed || w in keep ==> v == m.At(w)
    ensures Agree(pt, keep, m, m.(words := m.words[w := v]))
  {
    hide Unpack;
  }

  /** A store outside both `pt` and `keep` is invisible to them. */
  lemma StoreOutside(pt: Tables, keep: iset<int>, m: Mem, a: u64, w: Width, v: u64)
    requires Write(m, a, w, v).Ok? && !pt.Has(Word(a)) && Word(a) !in keep
    ensures Agree(pt, keep, m, Write(m, a, w, v).value)
  {
    AgreeUpdate(pt, keep, m, Word(a), Insert(m.At(Word(a)), a, w, v));
    hide Unpack, Insert, Agree;
  }

  /** The same store applied to two agreeing memories leaves them agreeing. */
  lemma StoreBoth(pt: Tables, m: Mem, n: Mem, a: u64, w: Width, v: u64)
    requires Agree(pt, Outside(pt), m, n)
    requires Word(a) !in pt.loose
    ensures Write(m, a, w, v).Ok? == Write(n, a, w, v).Ok?
    ensures Write(m, a, w, v).Err? ==> Write(m, a, w, v) == Write(n, a, w, v)
    ensures Write(m, a, w, v).Ok? ==>
              Agree(pt, Outside(pt), Write(m, a, w, v).value, Write(n, a, w, v).value)
  {
    hide Unpack, ButAd, Insert, Word;
  }
}
