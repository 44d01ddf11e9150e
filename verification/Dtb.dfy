/** Flattened device trees: what the builder emits for a sequence of calls, and the builder itself. */
module Dtb {
  import opened Base

  type Bytes = seq<u8>

  const FDT_MAGIC: u32 := 0xD00D_FEED
  const FDT_VERSION: u32 := 17
  const FDT_LAST_COMP_VERSION: u32 := 16
  const FDT_BEGIN_NODE: u32 := 1
  const FDT_END_NODE: u32 := 2
  const FDT_PROP: u32 := 3
  const FDT_END: u32 := 9
  const HEADER_SIZE: nat := 40
  const RESERVE_SIZE: nat := 16

  // ---- Trees and builder calls -----------------------------------------------------------------------------

  datatype Property = Property(name: Bytes, value: Bytes)

  datatype Node = Node(name: Bytes, props: seq<Property>, children: seq<Node>)

  /** One call on the builder. */
  datatype Event = Begin(name: Bytes) | Prop(name: Bytes, value: Bytes) | End

  function PropEvents(props: seq<Property>): seq<Event> {
    seq(|props|, i requires 0 <= i < |props| => Prop(props[i].name, props[i].value))
  }

  /** The calls that write a tree. */
  function Flatten(n: Node): seq<Event>
    decreases n, 0
  {
    [Begin(n.name)] + PropEvents(n.props) + FlattenAll(n.children) + [End]
  }

  function FlattenAll(ns: seq<Node>): seq<Event>
    decreases ns
  {
    if ns == [] then [] else Flatten(ns[0]) + FlattenAll(ns[1..])
  }

  // ---- Encoding ------------------------------------------------------------------------------------------------

  /** `value.to_be_bytes()` after a cast to 32 bits. */
  function Be32(x: nat): (b: Bytes)
    ensures |b| == 4
  {
    var v := x % TWO_32;
    var high3 := v / 0x100;
    var high2 := high3 / 0x100;
    [high2 / 0x100, high2 % 0x100, high3 % 0x100, v % 0x100]
  }

  function Zeros(n: nat): (b: Bytes)
    ensures |b| == n
  {
    seq<u8>(n, _ => 0)
  }

  function Align4(n: nat): (m: nat)
    ensures m % 4 == 0 && n <= m < n + 4
  {
    (n + 3) / 4 * 4
  }

  /** Zero bytes up to the next multiple of four. */
  function Padded(b: Bytes): (r: Bytes)
    ensures |r| == Align4(|b|) && b <= r
  {
    b + Zeros(Align4(|b|) - |b|)
  }

  function OffsetIn(names: seq<Bytes>, n: Bytes): nat {
    if names == [] || names[0] == n then 0 else |names[0]| + 1 + OffsetIn(names[1..], n)
  }

  /** The strings block: each name followed by NUL. */
  function Joined(names: seq<Bytes>): Bytes {
    if names == [] then [] else names[0] + [0] + Joined(names[1..])
  }

  function EncodeEvent(e: Event, names: seq<Bytes>): (b: Bytes)
    ensures |b| % 4 == 0 && |b| > 0
  {
    match e
    case Begin(n) =>
      var name := Padded(n + [0]);
      SumAligned(4, |name|);
      Be32(FDT_BEGIN_NODE) + name
    case Prop(n, v) =>
      var value := Padded(v);
      SumAligned(12, |value|);
      Be32(FDT_PROP) + Be32(|v|) + Be32(OffsetIn(names, n)) + value
    case End => Be32(FDT_END_NODE)
  }

  function StructOf(es: seq<Event>, names: seq<Bytes>): (b: Bytes)
    ensures |b| % 4 == 0
    decreases |es|
  {
    if es == [] then []
    else
      var first, rest := EncodeEvent(es[0], names), StructOf(es[1..], names);
      SumAligned(|first|, |rest|);
      first + rest
  }

  lemma SumAligned(a: nat, b: nat)
    requires a % 4 == 0 && b % 4 == 0
    ensures (a + b) % 4 == 0
  {
  }

  function AddName(names: seq<Bytes>, n: Bytes): seq<Bytes> {
    if n in names then names else names + [n]
  }

  /** Property names in order of first use. */
  function Names(es: seq<Event>): seq<Bytes>
    decreases |es|
  {
    if es == [] then []
    else
      var last := es[|es| - 1];
      var before := Names(es[..|es| - 1]);
      if last.Prop? then AddName(before, last.name) else before
  }

  function Header(structSize: nat, stringsSize: nat): (b: Bytes)
    ensures |b| == HEADER_SIZE
  {
    var structOff := HEADER_SIZE + RESERVE_SIZE;
    var stringsOff := structOff + structSize;
    Be32(FDT_MAGIC) + Be32(stringsOff + stringsSize) + Be32(structOff) + Be32(stringsOff) + Be32(HEADER_SIZE)
    + Be32(FDT_VERSION) + Be32(FDT_LAST_COMP_VERSION) + Be32(0) + Be32(stringsSize) + Be32(structSize)
  }

  /** The whole blob for a structure block and a strings block. */
  function Assembled(structs: Bytes, strings: Bytes): Bytes {
    Header(|structs|, |strings|) + Zeros(RESERVE_SIZE) + structs + strings
  }

  /** The blob of a tree. */
  function Blob(n: Node): Bytes {
    var names := Names(Flatten(n));
    Assembled(StructOf(Flatten(n), names) + Be32(FDT_END), Joined(names))
  }

  /** An array of cells. */
  function Cells(values: seq<nat>): Bytes
    decreases |values|
  {
    if values == [] then [] else Cells(values[..|values| - 1]) + Be32(values[|values| - 1])
  }

  lemma {:induction false} CellsLength(values: seq<nat>)
    ensures |Cells(values)| == 4 * |values|
    decreases |values|
  {
    if values != [] {
      CellsLength(values[..|values| - 1]);
    }
  }

  /** Two address cells and two size cells. */
  function Reg64(address: u64, size: u64): Bytes {
    Be32(address / TWO_32) + Be32(address) + Be32(size / TWO_32) + Be32(size)
  }

  // ---- The name table ----------------------------------------------------------------------------------------------

  ghost predicate NoDuplicates<T(!new)>(s: seq<T>) {
    forall i, j :: 0 <= i < j < |s| ==> s[i] != s[j]
  }

  lemma {:induction false} NamesDistinct(es: seq<Event>)
    ensures NoDuplicates(Names(es))
    decreases |es|
  {
    if es != [] {
      NamesDistinct(es[..|es| - 1]);
    }
  }

  lemma {:induction false} NamesCover(es: seq<Event>, k: nat)
    requires k < |es| && es[k].Prop?
    ensures es[k].name in Names(es)
    decreases |es|
  {
    if k < |es| - 1 {
      NamesCover(es[..|es| - 1], k);
    }
  }

  /** A new name leaves the offsets of the others alone. */
  lemma {:induction false} OffsetKeeps(names: seq<Bytes>, n: Bytes, m: Bytes)
    requires m in names
    ensures OffsetIn(names + [n], m) == OffsetIn(names, m)
    decreases |names|
  {
    assert (names + [n])[1..] == names[1..] + [n];
    if names[0] != m {
      OffsetKeeps(names[1..], n, m);
    }
  }

  /** A new name goes to the end of the strings block. */
  lemma {:induction false} OffsetOfNew(names: seq<Bytes>, n: Bytes)
    requires n !in names
    ensures OffsetIn(names + [n], n) == |Joined(names)|
    decreases |names|
  {
    if names != [] {
      assert (names + [n])[1..] == names[1..] + [n];
      OffsetOfNew(names[1..], n);
    }
  }

  lemma {:induction false} JoinedAppend(names: seq<Bytes>, n: Bytes)
    ensures Joined(names + [n]) == Joined(names) + n + [0]
    decreases |names|
  {
    if names == [] {
      assert ([] + [n])[1..] == [];
      assert Joined([n]) == n + [0] + Joined([]);
    } else {
      assert (names + [n])[1..] == names[1..] + [n];
      JoinedAppend(names[1..], n);
    }
  }

  /** Adding a name does not disturb what is already encoded. */
  lemma {:induction false} StructKeeps(es: seq<Event>, names: seq<Bytes>, n: Bytes)
    requires forall k :: 0 <= k < |es| && es[k].Prop? ==> es[k].name in names
    ensures StructOf(es, AddName(names, n)) == StructOf(es, names)
    decreases |es|
  {
    if es != [] {
      if es[0].Prop? {
        OffsetKeeps(names, n, es[0].name);
      }
      StructKeeps(es[1..], names, n);
    }
  }

  lemma {:induction false} StructConcat(a: seq<Event>, b: seq<Event>, names: seq<Bytes>)
    ensures StructOf(a + b, names) == StructOf(a, names) + StructOf(b, names)
    decreases |a|
  {
    if a == [] {
      assert a + b == b;
    } else {
      assert (a + b)[1..] == a[1..] + b;
      StructConcat(a[1..], b, names);
    }
  }

  /** One more call appends its encoding, with the name table as it then stands. */
  lemma StructStep(es: seq<Event>, e: Event)
    ensures StructOf(es + [e], Names(es + [e])) == StructOf(es, Names(es)) + EncodeEvent(e, Names(es + [e]))
    ensures Names(es + [e]) == if e.Prop? then AddName(Names(es), e.name) else Names(es)
  {
    assert (es + [e])[..|es|] == es;
    var names := Names(es + [e]);
    StructConcat(es, [e], names);
    assert StructOf([e], names) == EncodeEvent(e, names) + StructOf([e][1..], names);
    assert [e][1..] == [];
    forall k | 0 <= k < |es| && es[k].Prop?
      ensures es[k].name in Names(es)
    {
      NamesCover(es, k);
    }
    if e.Prop? {
      StructKeeps(es, Names(es), e.name);
    }
  }

  /** Appending a token, a name and padding is appending the encoded call. */
  lemma BeginBytes(block: Bytes, name: Bytes, names: seq<Bytes>)
    requires |block| % 4 == 0
    ensures Realigned(block + Be32(FDT_BEGIN_NODE) + name + [0]) == block + EncodeEvent(Begin(name), names)
  {
    PadFromBlock(|block| + 4, |name| + 1);
    var u := block + Be32(FDT_BEGIN_NODE) + name + [0];
    assert |u| == |block| + 4 + (|name| + 1);
    assert u == block + (Be32(FDT_BEGIN_NODE) + (name + [0]));
    assert Realigned(u) == block + (Be32(FDT_BEGIN_NODE) + ((name + [0]) + Zeros(Align4(|u|) - |u|)));
    hide Be32, Align4, Zeros;
  }

  lemma PropBytes(block: Bytes, name: Bytes, value: Bytes, names: seq<Bytes>)
    requires |block| % 4 == 0
    ensures Realigned(block + Be32(FDT_PROP) + Be32(|value|) + Be32(OffsetIn(names, name)) + value)
         == block + EncodeEvent(Prop(name, value), names)
  {
    PadFromBlock(|block| + 12, |value|);
    var t := Be32(FDT_PROP) + Be32(|value|) + Be32(OffsetIn(names, name));
    var u := block + Be32(FDT_PROP) + Be32(|value|) + Be32(OffsetIn(names, name)) + value;
    assert |u| == |block| + 12 + |value|;
    assert u == block + (t + value);
    assert Realigned(u) == block + (t + (value + Zeros(Align4(|u|) - |u|)));
    hide Be32, Align4, Zeros, OffsetIn;
  }

  /** The block with zero bytes up to the next multiple of four. */
  function Realigned(block: Bytes): Bytes {
    block + Zeros(Align4(|block|) - |block|)
  }

  /** Padding a part of an aligned block is padding the block. */
  lemma PadFromBlock(before: nat, len: nat)
    requires before % 4 == 0
    ensures Align4(before + len) == before + Align4(len)
  {
  }

  // ---- The builder --------------------------------------------------------------------------------------------------

  class DtbBuilder {
    var structBlock: Bytes
    var stringsBlock: Bytes
    var stringOffsets: map<Bytes, nat>
    ghost var calls: seq<Event>

    /** The blocks are those of the calls so far, and the map knows every name's offset. */
    ghost predicate Valid()
      reads this
    {
      var names := Names(calls);
      && structBlock == StructOf(calls, names) && stringsBlock == Joined(names)
      && (forall n :: n in stringOffsets <==> n in names)
      && (forall n :: n in stringOffsets ==> stringOffsets[n] == OffsetIn(names, n))
    }

    constructor ()
      ensures Valid() && calls == []
    {
      structBlock, stringsBlock, stringOffsets, calls := [], [], map[], [];
    }

    method BeginNode(name: Bytes)
      requires Valid()
      modifies this
      ensures Valid() && calls == old(calls) + [Begin(name)]
    {
      hide EncodeEvent, Be32, Names, StructOf, Joined, OffsetIn, Realigned;
      StructStep(calls, Begin(name));
      BeginBytes(structBlock, name, Names(calls));
      structBlock := structBlock + Be32(FDT_BEGIN_NODE) + name + [0];
      AlignStruct();
      calls := calls + [Begin(name)];
    }

    method EndNode()
      requires Valid()
      modifies this
      ensures Valid() && calls == old(calls) + [End]
    {
      hide Be32, Names, StructOf, Joined, OffsetIn;
      StructStep(calls, End);
      structBlock := structBlock + Be32(FDT_END_NODE);
      calls := calls + [End];
    }

    /** The common part of the `add_prop` methods: name offset, token, length, value, padding. */
    method AddProp(name: Bytes, value: Bytes)
      requires Valid()
      modifies this
      ensures Valid() && calls == old(calls) + [Prop(name, value)]
    {
      hide EncodeEvent, Be32, Names, StructOf, Joined, OffsetIn, Realigned, AddName;
      ghost var names := Names(calls + [Prop(name, value)]);
      StructStep(calls, Prop(name, value));
      var offset := StringOffset(name);
      PropBytes(structBlock, name, value, names);
      structBlock := structBlock + Be32(FDT_PROP) + Be32(|value|) + Be32(offset) + value;
      AlignStruct();
      calls := calls + [Prop(name, value)];
    }

    method AddPropString(name: Bytes, value: Bytes)
      requires Valid()
      modifies this
      ensures Valid() && calls == old(calls) + [Prop(name, value + [0])]
    {
      AddProp(name, value + [0]);
    }

    method AddPropU32(name: Bytes, value: nat)
      requires Valid()
      modifies this
      ensures Valid() && calls == old(calls) + [Prop(name, Be32(value))]
    {
      AddProp(name, Be32(value));
    }

    method AddPropU32Array(name: Bytes, values: seq<nat>)
      requires Valid()
      modifies this
      ensures Valid() && calls == old(calls) + [Prop(name, Cells(values))]
    {
      var value := [];
      for k := 0 to |values|
        invariant value == Cells(values[..k])
      {
        assert values[..k + 1][..k] == values[..k];
        value := value + Be32(values[k]);
      }
      assert values[..|values|] == values;
      AddProp(name, value);
    }

    method AddPropReg64(name: Bytes, address: u64, size: u64)
      requires Valid()
      modifies this
      ensures Valid() && calls == old(calls) + [Prop(name, Reg64(address, size))]
    {
      AddProp(name, Reg64(address, size));
    }

    /** The offset of a name, added to the strings block on first use. */
    method StringOffset(name: Bytes) returns (offset: nat)
      requires Valid()
      modifies this`stringsBlock, this`stringOffsets
      ensures var names := AddName(Names(calls), name);
              && offset == OffsetIn(names, name) && stringsBlock == Joined(names)
              && (forall n :: n in stringOffsets <==> n in names)
              && (forall n :: n in stringOffsets ==> stringOffsets[n] == OffsetIn(names, n))
    {
      if name in stringOffsets {
        return stringOffsets[name];
      }
      ghost var names := Names(calls);
      forall n | n in names
        ensures OffsetIn(names + [name], n) == OffsetIn(names, n)
      {
        OffsetKeeps(names, name, n);
      }
      OffsetOfNew(names, name);
      JoinedAppend(names, name);
      offset := |stringsBlock|;
      stringsBlock := stringsBlock + name + [0];
      stringOffsets := stringOffsets[name := offset];
    }

    method AlignStruct()
      modifies this`structBlock
      ensures structBlock == Realigned(old(structBlock))
    {
      ghost var block := structBlock;
      while |structBlock| % 4 != 0
        invariant |block| <= |structBlock| <= Align4(|block|)
        invariant structBlock == block + Zeros(|structBlock| - |block|)
        decreases Align4(|block|) - |structBlock|
      {
        assert Zeros(|structBlock| - |block| + 1) == Zeros(|structBlock| - |block|) + [0];
        structBlock := structBlock + [0];
      }
    }

    method Finish() returns (dtb: Bytes)
      requires Valid()
      modifies this
      ensures dtb == Assembled(StructOf(old(calls), Names(old(calls))) + Be32(FDT_END), Joined(Names(old(calls))))
    {
      hide Be32, Names, StructOf, Joined, Zeros;
      structBlock := structBlock + Be32(FDT_END);
      var structOff := HEADER_SIZE + RESERVE_SIZE;
      var stringsOff := structOff + |structBlock|;
      dtb := Be32(FDT_MAGIC) + Be32(stringsOff + |stringsBlock|) + Be32(structOff) + Be32(stringsOff)
          + Be32(HEADER_SIZE);
      dtb := dtb + Be32(FDT_VERSION) + Be32(FDT_LAST_COMP_VERSION) + Be32(0) + Be32(|stringsBlock|)
          + Be32(|structBlock|);
      dtb := dtb + Zeros(RESERVE_SIZE);
      dtb := dtb + structBlock;
      dtb := dtb + stringsBlock;
    }
  }
}
