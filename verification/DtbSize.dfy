/** How long the blob of the machine's tree can get. */
module DtbSize {
  import opened Base
  import opened Dtb
  import opened DtbParser
  import opened DtbTree

  // ---- Any tree -----------------------------------------------------------------------------------------------

  /** At least the bytes an event adds to the structure block, and at least those it adds to the strings block. */
  function Weight(e: Event): nat {
    match e
    case Begin(n) => |n| + 8
    case Prop(n, v) => |n| + |v| + 15
    case End => 4
  }

  function Load(es: seq<Event>): nat {
    if es == [] then 0 else Weight(es[0]) + Load(es[1..])
  }

  lemma {:induction false} LoadSum(a: seq<Event>, b: seq<Event>)
    ensures Load(a + b) == Load(a) + Load(b)
    decreases |a|
  {
    if a == [] {
      assert a + b == b;
    } else {
      assert (a + b)[1..] == a[1..] + b;
      LoadSum(a[1..], b);
    }
  }

  lemma {:induction false} StructBound(es: seq<Event>, names: seq<Bytes>)
    ensures |StructOf(es, names)| <= Load(es)
    decreases |es|
  {
    if es != [] {
      StructBound(es[1..], names);
      EventBound(es[0], names);
    }
    hide EncodeEvent, Weight;
  }

  lemma EventBound(e: Event, names: seq<Bytes>)
    ensures |EncodeEvent(e, names)| <= Weight(e)
  {
  }

  lemma {:induction false} JoinedSum(a: seq<Bytes>, b: seq<Bytes>)
    ensures |Joined(a + b)| == |Joined(a)| + |Joined(b)|
    decreases |a|
  {
    if a == [] {
      assert a + b == b;
    } else {
      assert (a + b)[1..] == a[1..] + b;
      JoinedSum(a[1..], b);
    }
  }

  lemma {:induction false} NamesBound(es: seq<Event>)
    ensures |Joined(Names(es))| <= Load(es)
    decreases |es|
  {
    if es != [] {
      var before, last := es[..|es| - 1], es[|es| - 1];
      NamesBound(before);
      assert es == before + [last];
      LoadSum(before, [last]);
      assert Load([last]) == Weight(last);
      if last.Prop? {
        JoinedSum(Names(before), [last.name]);
        assert |Joined([last.name])| == |last.name| + 1;
      }
    }
  }

  function PropsWeight(ps: seq<Property>): nat {
    if ps == [] then 0 else |ps[0].name| + |ps[0].value| + 15 + PropsWeight(ps[1..])
  }

  function NodeWeight(n: Node): nat
    decreases n, 0
  {
    |n.name| + 12 + PropsWeight(n.props) + NodesWeight(n.children)
  }

  function NodesWeight(ns: seq<Node>): nat
    decreases ns
  {
    if ns == [] then 0 else NodeWeight(ns[0]) + NodesWeight(ns[1..])
  }

  lemma {:induction false} PropsLoad(ps: seq<Property>)
    ensures Load(PropEvents(ps)) == PropsWeight(ps)
    decreases |ps|
  {
    if ps != [] {
      assert PropEvents(ps)[1..] == PropEvents(ps[1..]);
      PropsLoad(ps[1..]);
    }
  }

  lemma {:induction false} NodeLoad(n: Node)
    ensures Load(Flatten(n)) == NodeWeight(n)
    decreases n, 0
  {
    PropsLoad(n.props);
    NodesLoad(n.children);
    LoadSum([Begin(n.name)] + PropEvents(n.props) + FlattenAll(n.children), [End]);
    LoadSum([Begin(n.name)] + PropEvents(n.props), FlattenAll(n.children));
    LoadSum([Begin(n.name)], PropEvents(n.props));
    assert Load([End]) == 4 && Load([Begin(n.name)]) == |n.name| + 8;
  }

  lemma {:induction false} NodesLoad(ns: seq<Node>)
    ensures Load(FlattenAll(ns)) == NodesWeight(ns)
    decreases ns
  {
    if ns != [] {
      NodeLoad(ns[0]);
      NodesLoad(ns[1..]);
      LoadSum(Flatten(ns[0]), FlattenAll(ns[1..]));
    }
  }

  /** The blob of any tree is linear in the tree's weight. */
  lemma BlobBound(n: Node)
    ensures |Blob(n)| <= 60 + 2 * NodeWeight(n)
  {
    hide StructOf, Names, Joined, Load, Flatten, NodeWeight;
    NodeLoad(n);
    StructBound(Flatten(n), Names(Flatten(n)));
    NamesBound(Flatten(n));
  }

  // ---- The machine's tree ----------------------------------------------------------------------------------------

  lemma {:induction false} PropsBound(ps: seq<Property>, w: nat)
    requires forall k :: 0 <= k < |ps| ==> |ps[k].name| + |ps[k].value| + 15 <= w
    ensures PropsWeight(ps) <= w * |ps|
    decreases |ps|
  {
    if ps != [] {
      PropsBound(ps[1..], w);
      assert w * |ps| == w + w * |ps[1..]|;
    }
  }

  lemma {:induction false} NodesBound(ns: seq<Node>, w: nat)
    requires forall k :: 0 <= k < |ns| ==> NodeWeight(ns[k]) <= w
    ensures NodesWeight(ns) <= w * |ns|
    decreases |ns|
  {
    hide NodeWeight;
    if ns != [] {
      NodesBound(ns[1..], w);
      assert w * |ns| == w + w * |ns[1..]|;
    }
  }

  lemma {:induction false} NodesSum(a: seq<Node>, b: seq<Node>)
    ensures NodesWeight(a + b) == NodesWeight(a) + NodesWeight(b)
    decreases |a|
  {
    hide NodeWeight;
    if a == [] {
      assert a + b == b;
    } else {
      assert (a + b)[1..] == a[1..] + b;
      NodesSum(a[1..], b);
    }
  }

  function Power10(d: nat): (n: nat)
    ensures n > 0
  {
    if d == 0 then 1 else 10 * Power10(d - 1)
  }

  lemma {:induction false} DecimalLength(n: nat, d: nat)
    requires d > 0 && n < Power10(d)
    ensures |Decimal(n)| <= d
    decreases d
  {
    if n >= 10 {
      assert d > 1;
      DecimalLength(n / 10, d - 1);
    }
  }

  lemma TenDigits(n: nat)
    requires n < 1_000_000_000
    ensures |Decimal(n)| <= 9
  {
    assert Power10(9) == 1_000_000_000;
    DecimalLength(n, 9);
  }

  lemma {:induction false} PairsLength(harts: nat, first: nat, second: nat)
    ensures |Pairs(harts, first, second)| == 4 * harts
    decreases harts
  {
    if harts > 0 {
      PairsLength(harts - 1, first, second);
    }
  }

  /** A node without children whose properties are short. */
  lemma LeafBound(n: Node, w: nat)
    requires n.children == [] && forall k :: 0 <= k < |n.props| ==> |n.props[k].name| + |n.props[k].value| + 15 <= w
    ensures NodeWeight(n) <= |n.name| + 12 + w * |n.props|
  {
    PropsBound(n.props, w);
  }

  lemma CpuBound(hart: nat)
    requires hart < 1_000_000_000
    ensures NodeWeight(Cpu(hart)) <= 720
  {
    hide Ascii, Decimal, Be32, PropsWeight;
    TenDigits(hart);
    LeafBound(CpuIntc(hart), 64);
    NodesBound([CpuIntc(hart)], 320);
    PropsBound(Cpu(hart).props, 64);
  }

  lemma CpusBound(harts: nat)
    requires harts < 1_000_000_000
    ensures NodeWeight(Cpus(harts)) <= 256 + 720 * harts
  {
    hide Ascii, Be32, PropsWeight, Cpu;
    forall i | 0 <= i < harts
      ensures NodeWeight(CpuNodes(harts)[i]) <= 720
    {
      CpuBound(i);
    }
    NodesBound(CpuNodes(harts), 720);
    PropsBound(Cpus(harts).props, 64);
  }

  lemma ClintBound(harts: nat)
    ensures NodeWeight(Clint(harts)) <= 256 + 48 * harts
  {
    hide Ascii, Be32, PropsWeight, Pairs, Cells;
    PairsLength(harts, 3, 7);
    CellsLength(Pairs(harts, 3, 7));
    LeafBound(Clint(harts), 64 + 16 * harts);
  }

  lemma PlicBound(harts: nat)
    ensures NodeWeight(PlicNode(harts)) <= 512 + 112 * harts
  {
    hide Ascii, Be32, PropsWeight, Pairs, Cells;
    PairsLength(harts, 9, 11);
    CellsLength(Pairs(harts, 9, 11));
    LeafBound(PlicNode(harts), 64 + 16 * harts);
  }

  lemma {:induction false} HexLength(n: nat, d: nat)
    requires d > 0 && n < Power16(d)
    ensures |Hex(n)| <= d
    decreases d
  {
    if n >= 16 {
      assert d > 1;
      HexLength(n / 16, d - 1);
    }
  }

  function Power16(d: nat): (n: nat)
    ensures n > 0
  {
    if d == 0 then 1 else 16 * Power16(d - 1)
  }

  lemma VirtioBound(i: nat)
    requires i < 8
    ensures NodeWeight(Virtio(i)) <= 1024
  {
    hide Ascii, Be32, PropsWeight, Hex;
    assert Power16(8) == 0x1_0000_0000;
    HexLength(0x1000_1000 + i * 0x1000, 8);
    LeafBound(Virtio(i), 64);
  }

  lemma DeviceBound(name: string, compatible: string, address: u64, size: u64, irq: nat)
    requires |name| <= 32 && |compatible| <= 32
    ensures NodeWeight(Device(name, compatible, address, size, irq)) <= 1024
  {
    hide Ascii, Be32, PropsWeight;
    LeafBound(Device(name, compatible, address, size, irq), 64);
  }

  lemma I2cBound()
    ensures NodeWeight(I2c()) <= 1024
  {
    hide Ascii, Be32, PropsWeight;
    LeafBound(Touchscreen(), 64);
    NodesBound([Touchscreen()], 360);
    PropsBound(I2c().props, 64);
  }

  lemma UartBound()
    ensures NodeWeight(Uart()) <= 1024
  {
    hide Ascii, Be32, PropsWeight;
    LeafBound(Uart(), 64);
  }

  lemma D1Bound(c: D1DeviceConfig)
    ensures NodesWeight(D1Nodes(c)) <= 6 * 1024
  {
    hide NodeWeight, NodesWeight, Device, I2c;
    DeviceBound("display-engine@5100000", "allwinner,sun20i-d1-de2", 0x0510_0000, 0x10000, 42);
    DeviceBound("lcd-controller@5461000", "allwinner,sun20i-d1-tcon-lcd", 0x0546_1000, 0x1000, 106);
    DeviceBound("mmc@4020000", "allwinner,sun20i-d1-mmc", 0x0402_0000, 0x1000, 56);
    DeviceBound("ethernet@4500000", "allwinner,sun20i-d1-emac", 0x0450_0000, 0x1000, 62);
    DeviceBound("codec@2030000", "allwinner,sun20i-d1-codec", 0x0203_0000, 0x1000, 32);
    I2cBound();
    NodesBound(D1Nodes(c), 1024);
  }

  lemma SocNodesBound(harts: nat, c: D1DeviceConfig)
    ensures NodesWeight(SocNodes(harts, c)) <= 16 * 1024 + 160 * harts
  {
    hide NodeWeight, Clint, PlicNode, Uart, Virtio, D1Nodes;
    ClintBound(harts);
    PlicBound(harts);
    UartBound();
    D1Bound(c);
    forall i | 0 <= i < 8
      ensures NodeWeight(VirtioNodes(8)[i]) <= 1024
    {
      VirtioBound(i);
    }
    NodesBound(VirtioNodes(8), 1024);
    ThreeNodes(Clint(harts), PlicNode(harts), Uart());
    NodesSum([Clint(harts), PlicNode(harts), Uart()], VirtioNodes(8));
    NodesSum([Clint(harts), PlicNode(harts), Uart()] + VirtioNodes(8), D1Nodes(c));
    hide NodesWeight;
  }

  lemma ThreeNodes(a: Node, b: Node, c: Node)
    ensures NodesWeight([a, b, c]) == NodeWeight(a) + NodeWeight(b) + NodeWeight(c)
  {
    hide NodeWeight;
    assert [a, b, c][1..] == [b, c] && [b, c][1..] == [c] && [c][1..] == [];
    assert NodesWeight([c]) == NodeWeight(c);
    assert NodesWeight([b, c]) == NodeWeight(b) + NodesWeight([c]);
  }

  lemma SocBound(harts: nat, c: D1DeviceConfig)
    ensures NodeWeight(Soc(harts, c)) <= 17 * 1024 + 160 * harts
  {
    hide Ascii, Be32, PropsWeight, SocNodes, NodesWeight;
    SocNodesBound(harts, c);
    PropsBound(Soc(harts, c).props, 64);
  }

  lemma OthersBound(memorySize: u64)
    ensures NodeWeight(Chosen()) <= 256 && NodeWeight(MemoryNode(memorySize)) <= 256
  {
    hide Ascii, Be32, PropsWeight;
    LeafBound(Chosen(), 64);
    LeafBound(MemoryNode(memorySize), 64);
  }

  lemma FourNodes(a: Node, b: Node, c: Node, d: Node)
    ensures NodesWeight([a, b, c, d]) == NodeWeight(a) + NodeWeight(b) + NodeWeight(c) + NodeWeight(d)
  {
    hide NodeWeight;
    ThreeNodes(b, c, d);
    assert [a, b, c, d][1..] == [b, c, d];
  }

  /** The weight of the whole tree is linear in the number of harts. */
  lemma MachineWeight(harts: nat, memorySize: u64, c: D1DeviceConfig)
    requires harts < 1_000_000_000
    ensures NodeWeight(MachineTree(harts, memorySize, c)) <= 20 * 1024 + 880 * harts
  {
    hide Ascii, Be32, PropsWeight, Chosen, Cpus, MemoryNode, Soc, NodesWeight;
    CpusBound(harts);
    SocBound(harts, c);
    OthersBound(memorySize);
    FourNodes(Chosen(), Cpus(harts), MemoryNode(memorySize), Soc(harts, c));
    PropsBound(RootProps(), 64);
  }

  const MAX_HARTS: nat := 2_000_000

  /** With at most two million harts the blob is below 4 GiB, and the reader gets the intended tree back. */
  lemma MachineFits(harts: nat, memorySize: u64, c: D1DeviceConfig)
    requires harts <= MAX_HARTS
    ensures |Blob(MachineTree(harts, memorySize, c))| < TWO_32
    ensures Parse(Blob(MachineTree(harts, memorySize, c))) == Some(Tree([], 0, MachineTree(harts, memorySize, c)))
  {
    hide NodeWeight, Blob, Parse, MachineTree;
    MachineWeight(harts, memorySize, c);
    BlobBound(MachineTree(harts, memorySize, c));
    MachineRoundTrip(harts, memorySize, c);
  }
}
