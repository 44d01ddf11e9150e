/** The device tree of the machine, and the function that writes it. */
module DtbTree {
  import opened Base
  import opened Dtb
  import opened DtbParser

  /** Optional D1 devices. */
  datatype D1DeviceConfig = D1DeviceConfig(hasDisplay: bool, hasMmc: bool, hasEmac: bool, hasTouch: bool,
                                           hasAudio: bool)

  const PLIC_PHANDLE: nat := 100

  // ---- Text ------------------------------------------------------------------------------------------------

  /** The bytes of an ASCII literal. */
  function Ascii(s: string): (b: Bytes)
    ensures NulFree(b) && |b| == |s|
  {
    seq<u8>(|s|, i requires 0 <= i < |s| => CharByte(s[i]))
  }

  /** The literals of the generator contain ASCII characters only; anything else would be a question mark. */
  function CharByte(c: char): u8 {
    if 0 < c as int < 0x80 then c as int else 0x3F
  }

  function Digit(d: nat): u8
    requires d < 16
  {
    if d < 10 then 48 + d else 87 + d
  }

  /** `format!("{}", n)` */
  function Decimal(n: nat): Bytes {
    if n < 10 then [Digit(n)] else Decimal(n / 10) + [Digit(n % 10)]
  }

  /** `format!("{:x}", n)` */
  function Hex(n: nat): Bytes {
    if n < 16 then [Digit(n)] else Hex(n / 16) + [Digit(n % 16)]
  }

  // ---- Properties and nodes ------------------------------------------------------------------------------------

  function Str(name: string, value: string): (p: Property)
    ensures NulFree(p.name) && |p.name| == |name|
  {
    Property(Ascii(name), Ascii(value) + [0])
  }

  function U32(name: string, value: nat): (p: Property)
    ensures NulFree(p.name) && |p.name| == |name|
  {
    Property(Ascii(name), Be32(value))
  }

  function Array(name: string, values: seq<nat>): (p: Property)
    ensures NulFree(p.name) && |p.name| == |name|
  {
    Property(Ascii(name), Cells(values))
  }

  function Reg(address: u64, size: u64): (p: Property)
    ensures NulFree(p.name) && |p.name| == 3
  {
    Property(Ascii("reg"), Reg64(address, size))
  }

  function Empty(name: string): (p: Property)
    ensures NulFree(p.name) && |p.name| == |name|
  {
    Property(Ascii(name), [])
  }

  function Chosen(): Node {
    Node(Ascii("chosen"),
         [Str("bootargs", "earlycon=sbi console=ttyS0"), Str("stdout-path", "/soc/serial@10000000")], [])
  }

  function CpuIntc(hart: nat): Node {
    Node(Ascii("interrupt-controller"),
         [U32("#interrupt-cells", 1), Empty("interrupt-controller"), Str("compatible", "riscv,cpu-intc"),
          U32("phandle", hart + 1)], [])
  }

  function Cpu(hart: nat): Node {
    Node(Ascii("cpu@") + Decimal(hart),
         [Str("device_type", "cpu"), U32("reg", hart), Str("status", "okay"), Str("compatible", "riscv"),
          Str("riscv,isa", "rv64imac_zicsr_zifencei"), Str("mmu-type", "riscv,sv39")],
         [CpuIntc(hart)])
  }

  function CpuNodes(harts: nat): seq<Node> {
    seq(harts, i requires 0 <= i < harts => Cpu(i))
  }

  function Cpus(harts: nat): Node {
    Node(Ascii("cpus"), [U32("#address-cells", 1), U32("#size-cells", 0), U32("timebase-frequency", 10_000_000)],
         CpuNodes(harts))
  }

  function MemoryNode(size: u64): Node {
    Node(Ascii("memory@80000000"), [Str("device_type", "memory"), Reg(0x8000_0000, size)], [])
  }

  /** Two (phandle, interrupt) pairs for each hart. */
  function Pairs(harts: nat, first: nat, second: nat): seq<nat> {
    if harts == 0 then [] else Pairs(harts - 1, first, second) + [harts, first, harts, second]
  }

  function Clint(harts: nat): Node {
    Node(Ascii("clint@2000000"),
         [Str("compatible", "riscv,clint0"), Reg(0x0200_0000, 0x10000),
          Array("interrupts-extended", Pairs(harts, 3, 7))], [])
  }

  function PlicNode(harts: nat): Node {
    Node(Ascii("interrupt-controller@c000000"),
         [Str("compatible", "riscv,plic0"), U32("#interrupt-cells", 1), Empty("interrupt-controller"),
          Reg(0x0C00_0000, 0x60_0000), U32("riscv,ndev", 127), U32("phandle", PLIC_PHANDLE),
          Array("interrupts-extended", Pairs(harts, 9, 11))], [])
  }

  function Uart(): Node {
    Node(Ascii("serial@10000000"),
         [Str("compatible", "ns16550a"), Reg(0x1000_0000, 0x100), U32("clock-frequency", 3686400),
          U32("interrupts", 10), U32("interrupt-parent", PLIC_PHANDLE)], [])
  }

  function Virtio(i: nat): Node
    requires i < 8
  {
    Node(Ascii("virtio@") + Hex(0x1000_1000 + i * 0x1000),
         [Str("compatible", "virtio,mmio"), Reg(0x1000_1000 + i * 0x1000, 0x1000),
          U32("interrupts", 1 + i), U32("interrupt-parent", PLIC_PHANDLE)], [])
  }

  function VirtioNodes(n: nat): seq<Node>
    requires n <= 8
  {
    seq(n, i requires 0 <= i < n => Virtio(i))
  }

  /** A D1 device: registers, interrupt, PLIC as parent, enabled. */
  function Device(name: string, compatible: string, address: u64, size: u64, irq: nat): Node {
    Node(Ascii(name),
         [Str("compatible", compatible), Reg(address, size), U32("interrupts", irq),
          U32("interrupt-parent", PLIC_PHANDLE), Str("status", "okay")], [])
  }

  function Touchscreen(): Node {
    Node(Ascii("touchscreen@14"),
         [Str("compatible", "goodix,gt911"), U32("reg", 0x14), U32("interrupts", 35),
          U32("interrupt-parent", PLIC_PHANDLE), Str("status", "okay")], [])
  }

  function I2c(): Node {
    Node(Ascii("i2c@2502000"),
         [Str("compatible", "allwinner,sun20i-d1-i2c"), Reg(0x0250_2000, 0x400), U32("#address-cells", 1),
          U32("#size-cells", 0), U32("interrupts", 25), U32("interrupt-parent", PLIC_PHANDLE), Str("status", "okay")],
         [Touchscreen()])
  }

  function DisplayNodes(c: D1DeviceConfig): seq<Node> {
    if c.hasDisplay then
      [Device("display-engine@5100000", "allwinner,sun20i-d1-de2", 0x0510_0000, 0x10000, 42),
       Device("lcd-controller@5461000", "allwinner,sun20i-d1-tcon-lcd", 0x0546_1000, 0x1000, 106)]
    else []
  }

  function MmcNodes(c: D1DeviceConfig): seq<Node> {
    if c.hasMmc then [Device("mmc@4020000", "allwinner,sun20i-d1-mmc", 0x0402_0000, 0x1000, 56)] else []
  }

  function EmacNodes(c: D1DeviceConfig): seq<Node> {
    if c.hasEmac then [Device("ethernet@4500000", "allwinner,sun20i-d1-emac", 0x0450_0000, 0x1000, 62)] else []
  }

  function TouchNodes(c: D1DeviceConfig): seq<Node> {
    if c.hasTouch then [I2c()] else []
  }

  function AudioNodes(c: D1DeviceConfig): seq<Node> {
    if c.hasAudio then [Device("codec@2030000", "allwinner,sun20i-d1-codec", 0x0203_0000, 0x1000, 32)] else []
  }

  function D1Nodes(c: D1DeviceConfig): seq<Node> {
    DisplayNodes(c) + MmcNodes(c) + EmacNodes(c) + TouchNodes(c) + AudioNodes(c)
  }

  function SocNodes(harts: nat, c: D1DeviceConfig): seq<Node> {
    [Clint(harts), PlicNode(harts), Uart()] + VirtioNodes(8) + D1Nodes(c)
  }

  function Soc(harts: nat, c: D1DeviceConfig): Node {
    Node(Ascii("soc"),
         [U32("#address-cells", 2), U32("#size-cells", 2), Str("compatible", "simple-bus"), Empty("ranges")],
         SocNodes(harts, c))
  }

  function RootProps(): seq<Property> {
    [U32("#address-cells", 2), U32("#size-cells", 2), Str("compatible", "allwinner,sun20i-d1"),
     Str("model", "riscv-vm-d1")]
  }

  /** The intended tree. */
  function MachineTree(harts: nat, memorySize: u64, c: D1DeviceConfig): Node {
    Node([], RootProps(), [Chosen(), Cpus(harts), MemoryNode(memorySize), Soc(harts, c)])
  }

  // ---- Names --------------------------------------------------------------------------------------------------------

  lemma {:induction false} DecimalClean(n: nat)
    ensures NulFree(Decimal(n))
    decreases n
  {
    if n >= 10 {
      DecimalClean(n / 10);
    }
  }

  lemma {:induction false} HexClean(n: nat)
    ensures NulFree(Hex(n))
    decreases n
  {
    if n >= 16 {
      HexClean(n / 16);
    }
  }

  ghost predicate CleanProps(ps: seq<Property>) {
    forall k :: 0 <= k < |ps| ==> NulFree(ps[k].name)
  }

  lemma {:induction false} CleanConcat(ns: seq<Node>, ms: seq<Node>)
    requires CleanAll(ns) && CleanAll(ms)
    ensures CleanAll(ns + ms)
    decreases |ns|
  {
    hide CleanNames;
    if ns == [] {
      assert ns + ms == ms;
    } else {
      assert (ns + ms)[1..] == ns[1..] + ms;
      CleanConcat(ns[1..], ms);
    }
  }

  lemma {:induction false} CleanEach(ns: seq<Node>)
    requires forall k :: 0 <= k < |ns| ==> CleanNames(ns[k])
    ensures CleanAll(ns)
    decreases |ns|
  {
    hide CleanNames;
    if ns != [] {
      CleanEach(ns[1..]);
    }
  }

  lemma CleanLeaf(n: Node)
    requires NulFree(n.name) && CleanProps(n.props) && n.children == []
    ensures CleanNames(n)
  {
  }

  lemma CleanIntc(hart: nat)
    ensures CleanNames(CpuIntc(hart))
  {
    hide Ascii, Str, U32, Empty, NulFree, CleanNames;
    CleanLeaf(CpuIntc(hart));
  }

  lemma CleanCpu(hart: nat)
    ensures CleanNames(Cpu(hart))
  {
    hide Ascii, Str, U32, NulFree, CpuIntc, Decimal;
    CleanIntc(hart);
    DecimalClean(hart);
    NulFreeConcat(Ascii("cpu@"), Decimal(hart));
    CleanEach([CpuIntc(hart)]);
  }

  lemma CleanCpus(harts: nat)
    ensures CleanNames(Cpus(harts))
  {
    hide Ascii, U32, NulFree, Cpu;
    forall i | 0 <= i < harts
      ensures CleanNames(CpuNodes(harts)[i])
    {
      CleanCpu(i);
    }
    CleanEach(CpuNodes(harts));
  }

  lemma CleanClint(harts: nat)
    ensures CleanNames(Clint(harts))
  {
    hide Ascii, Str, U32, Array, Reg, Empty, NulFree, CleanNames;
    CleanLeaf(Clint(harts));
  }

  lemma CleanPlic(harts: nat)
    ensures CleanNames(PlicNode(harts))
  {
    hide Ascii, Str, U32, Array, Reg, Empty, NulFree, CleanNames;
    CleanLeaf(PlicNode(harts));
  }

  lemma CleanUart()
    ensures CleanNames(Uart())
  {
    hide Ascii, Str, U32, Reg, NulFree, CleanNames;
    CleanLeaf(Uart());
  }

  lemma CleanVirtio(i: nat)
    requires i < 8
    ensures CleanNames(Virtio(i))
  {
    hide Ascii, Str, U32, Reg, NulFree, CleanNames, Hex;
    HexClean(0x1000_1000 + i * 0x1000);
    NulFreeConcat(Ascii("virtio@"), Hex(0x1000_1000 + i * 0x1000));
    CleanLeaf(Virtio(i));
  }

  lemma NulFreeConcat(a: Bytes, b: Bytes)
    requires NulFree(a) && NulFree(b)
    ensures NulFree(a + b)
  {
  }

  lemma CleanChosen()
    ensures CleanNames(Chosen())
  {
    hide Ascii, Str, NulFree, CleanNames;
    CleanLeaf(Chosen());
  }

  lemma CleanMemory(size: u64)
    ensures CleanNames(MemoryNode(size))
  {
    hide Ascii, Str, Reg, NulFree, CleanNames;
    CleanLeaf(MemoryNode(size));
  }

  lemma CleanDevice(name: string, compatible: string, address: u64, size: u64, irq: nat)
    ensures CleanNames(Device(name, compatible, address, size, irq))
  {
    hide Ascii, Str, U32, Reg, NulFree, CleanNames;
    CleanLeaf(Device(name, compatible, address, size, irq));
  }

  lemma CleanTouch()
    ensures CleanNames(Touchscreen())
  {
    hide Ascii, Str, U32, NulFree, CleanNames;
    CleanLeaf(Touchscreen());
  }

  lemma CleanI2c()
    ensures CleanNames(I2c())
  {
    hide Ascii, Str, U32, Reg, NulFree, Touchscreen;
    CleanTouch();
    CleanEach([Touchscreen()]);
  }

  lemma CleanD1(c: D1DeviceConfig)
    ensures CleanAll(D1Nodes(c))
  {
    hide CleanNames, CleanAll, Device, I2c;
    CleanI2c();
    CleanDevice("display-engine@5100000", "allwinner,sun20i-d1-de2", 0x0510_0000, 0x10000, 42);
    CleanDevice("lcd-controller@5461000", "allwinner,sun20i-d1-tcon-lcd", 0x0546_1000, 0x1000, 106);
    CleanDevice("mmc@4020000", "allwinner,sun20i-d1-mmc", 0x0402_0000, 0x1000, 56);
    CleanDevice("ethernet@4500000", "allwinner,sun20i-d1-emac", 0x0450_0000, 0x1000, 62);
    CleanDevice("codec@2030000", "allwinner,sun20i-d1-codec", 0x0203_0000, 0x1000, 32);
    CleanEach(DisplayNodes(c));
    CleanEach(MmcNodes(c));
    CleanEach(EmacNodes(c));
    CleanEach(TouchNodes(c));
    CleanEach(AudioNodes(c));
    CleanConcat(DisplayNodes(c), MmcNodes(c));
    CleanConcat(DisplayNodes(c) + MmcNodes(c), EmacNodes(c));
    CleanConcat(DisplayNodes(c) + MmcNodes(c) + EmacNodes(c), TouchNodes(c));
    CleanConcat(DisplayNodes(c) + MmcNodes(c) + EmacNodes(c) + TouchNodes(c), AudioNodes(c));
  }

  lemma CleanSocNodes(harts: nat, c: D1DeviceConfig)
    ensures CleanAll(SocNodes(harts, c))
  {
    hide Clint, PlicNode, Uart, Virtio, D1Nodes, CleanAll, CleanNames;
    CleanClint(harts);
    CleanPlic(harts);
    CleanUart();
    CleanEach([Clint(harts), PlicNode(harts), Uart()]);
    forall i | 0 <= i < 8
      ensures CleanNames(VirtioNodes(8)[i])
    {
      CleanVirtio(i);
    }
    CleanEach(VirtioNodes(8));
    CleanD1(c);
    CleanConcat([Clint(harts), PlicNode(harts), Uart()], VirtioNodes(8));
    CleanConcat([Clint(harts), PlicNode(harts), Uart()] + VirtioNodes(8), D1Nodes(c));
  }

  lemma CleanSoc(harts: nat, c: D1DeviceConfig)
    ensures CleanNames(Soc(harts, c))
  {
    hide Ascii, Str, U32, Empty, NulFree, SocNodes, CleanAll;
    CleanSocNodes(harts, c);
  }

  lemma CleanMachine(harts: nat, memorySize: u64, c: D1DeviceConfig)
    ensures CleanNames(MachineTree(harts, memorySize, c))
  {
    hide Ascii, Str, U32, Soc, CleanAll, Cpus, Chosen, MemoryNode, NulFree;
    CleanChosen();
    CleanCpus(harts);
    CleanMemory(memorySize);
    CleanSoc(harts, c);
    CleanEach([Chosen(), Cpus(harts), MemoryNode(memorySize), Soc(harts, c)]);
    EmptyName();
  }

  lemma EmptyName()
    ensures NulFree([])
  {
  }

  /** For every hart count, memory size and device configuration, the reader gets the intended tree back
      from its blob, as long as the blob is below 4 GiB. */
  lemma MachineRoundTrip(harts: nat, memorySize: u64, c: D1DeviceConfig)
    requires |Blob(MachineTree(harts, memorySize, c))| < TWO_32
    ensures Parse(Blob(MachineTree(harts, memorySize, c))) == Some(Tree([], 0, MachineTree(harts, memorySize, c)))
  {
    hide *;
    CleanMachine(harts, memorySize, c);
    RoundTrip(MachineTree(harts, memorySize, c));
  }

  // ---- Phandles -----------------------------------------------------------------------------------------------------

  /** The values of the `phandle` properties in a list. */
  function OwnPhandles(ps: seq<Property>): seq<nat> {
    if ps == [] then []
    else
      (if ps[0].name == Ascii("phandle") && |ps[0].value| == 4 then [Word(ps[0].value, 0)] else [])
      + OwnPhandles(ps[1..])
  }

  /** All phandles of a tree, in document order. */
  function Phandles(n: Node): seq<nat>
    decreases n, 0
  {
    OwnPhandles(n.props) + PhandlesAll(n.children)
  }

  function PhandlesAll(ns: seq<Node>): seq<nat>
    decreases ns
  {
    if ns == [] then [] else Phandles(ns[0]) + PhandlesAll(ns[1..])
  }

  lemma {:induction false} NoPhandles(ps: seq<Property>)
    requires forall k :: 0 <= k < |ps| ==> |ps[k].name| != 7
    ensures OwnPhandles(ps) == []
    decreases |ps|
  {
    hide Ascii;
    if ps != [] {
      assert |Ascii("phandle")| == 7;
      NoPhandles(ps[1..]);
    }
  }

  lemma {:induction false} OwnConcat(a: seq<Property>, b: seq<Property>)
    ensures OwnPhandles(a + b) == OwnPhandles(a) + OwnPhandles(b)
    decreases |a|
  {
    hide Ascii, Word;
    if a == [] {
      assert a + b == b;
    } else {
      assert (a + b)[1..] == a[1..] + b;
      OwnConcat(a[1..], b);
    }
  }

  lemma {:induction false} AllConcat(a: seq<Node>, b: seq<Node>)
    ensures PhandlesAll(a + b) == PhandlesAll(a) + PhandlesAll(b)
    decreases |a|
  {
    hide Phandles;
    if a == [] {
      assert a + b == b;
    } else {
      assert (a + b)[1..] == a[1..] + b;
      AllConcat(a[1..], b);
    }
  }

  lemma {:induction false} NoneOf(ns: seq<Node>)
    requires forall k :: 0 <= k < |ns| ==> Phandles(ns[k]) == []
    ensures PhandlesAll(ns) == []
    decreases |ns|
  {
    hide Phandles;
    if ns != [] {
      NoneOf(ns[1..]);
    }
  }

  lemma LeafWithout(n: Node)
    requires n.children == [] && forall k :: 0 <= k < |n.props| ==> |n.props[k].name| != 7
    ensures Phandles(n) == []
  {
    NoPhandles(n.props);
    hide OwnPhandles;
  }

  lemma OnePhandle(before: seq<Property>, value: nat, after: seq<Property>)
    requires forall k :: 0 <= k < |before| ==> |before[k].name| != 7
    requires forall k :: 0 <= k < |after| ==> |after[k].name| != 7
    ensures OwnPhandles(before + [U32("phandle", value)] + after) == [value % TWO_32]
  {
    hide Ascii, Be32, Word, OwnPhandles;
    NoPhandles(before);
    NoPhandles(after);
    OwnConcat(before, [U32("phandle", value)]);
    OwnConcat(before + [U32("phandle", value)], after);
    Single(value);
  }

  lemma CastAgain(value: nat)
    ensures Be32(value) == Be32(value % TWO_32)
  {
  }

  lemma Single(value: nat)
    ensures OwnPhandles([U32("phandle", value)]) == [value % TWO_32]
  {
    hide Ascii, Be32, Word;
    var p := U32("phandle", value);
    assert [p][1..] == [];
    CastAgain(value);
    assert At(p.value, 0, Be32(value % TWO_32));
    WordAt(p.value, 0, value % TWO_32);
  }

  lemma CpuPhandles(hart: nat)
    ensures Phandles(Cpu(hart)) == [(hart + 1) % TWO_32]
  {
    hide Ascii, Str, U32, Empty, OwnPhandles, CpuIntc, Decimal;
    NoPhandles(Cpu(hart).props);
    IntcPhandles(hart);
    assert [CpuIntc(hart)][1..] == [];
    assert PhandlesAll([CpuIntc(hart)]) == Phandles(CpuIntc(hart)) + PhandlesAll([]);
  }

  lemma IntcPhandles(hart: nat)
    ensures Phandles(CpuIntc(hart)) == [(hart + 1) % TWO_32]
  {
    hide Ascii, Str, U32, Empty, OwnPhandles;
    var before := [U32("#interrupt-cells", 1), Empty("interrupt-controller"), Str("compatible", "riscv,cpu-intc")];
    OnePhandle(before, hart + 1, []);
    assert CpuIntc(hart).props == before + [U32("phandle", hart + 1)] + [];
  }

  lemma PlicPhandles(harts: nat)
    ensures Phandles(PlicNode(harts)) == [PLIC_PHANDLE]
  {
    hide Ascii, Str, U32, Empty, OwnPhandles, Reg, Array, Pairs;
    var before := [Str("compatible", "riscv,plic0"), U32("#interrupt-cells", 1), Empty("interrupt-controller"),
                   Reg(0x0C00_0000, 0x60_0000), U32("riscv,ndev", 127)];
    var after := [Array("interrupts-extended", Pairs(harts, 9, 11))];
    OnePhandle(before, PLIC_PHANDLE, after);
    assert PlicNode(harts).props == before + [U32("phandle", PLIC_PHANDLE)] + after;
  }

  function HartPhandles(harts: nat): seq<nat> {
    seq(harts, i requires 0 <= i < harts => (i + 1) % TWO_32)
  }

  lemma {:induction false} CpusPhandles(harts: nat)
    ensures PhandlesAll(CpuNodes(harts)) == HartPhandles(harts)
    decreases harts
  {
    hide Cpu;
    if harts > 0 {
      CpusPhandles(harts - 1);
      CpuPhandles(harts - 1);
      assert CpuNodes(harts) == CpuNodes(harts - 1) + [Cpu(harts - 1)];
      AllConcat(CpuNodes(harts - 1), [Cpu(harts - 1)]);
      assert [Cpu(harts - 1)][1..] == [];
      assert PhandlesAll([Cpu(harts - 1)]) == Phandles(Cpu(harts - 1)) + PhandlesAll([]);
      assert HartPhandles(harts) == HartPhandles(harts - 1) + [harts % TWO_32];
    }
  }

  lemma ClintWithout(harts: nat)
    ensures Phandles(Clint(harts)) == []
  {
    hide Ascii, Str, Reg, Array, Phandles, Pairs;
    LeafWithout(Clint(harts));
  }

  lemma UartWithout()
    ensures Phandles(Uart()) == []
  {
    hide Ascii, Str, Reg, U32, Phandles;
    LeafWithout(Uart());
  }

  lemma VirtioWithout(i: nat)
    requires i < 8
    ensures Phandles(Virtio(i)) == []
  {
    hide Ascii, Str, Reg, U32, Phandles, Hex;
    LeafWithout(Virtio(i));
  }

  lemma DeviceWithout(name: string, compatible: string, address: u64, size: u64, irq: nat)
    ensures Phandles(Device(name, compatible, address, size, irq)) == []
  {
    hide Ascii, Str, Reg, U32, Phandles;
    LeafWithout(Device(name, compatible, address, size, irq));
  }

  lemma TouchWithout()
    ensures Phandles(Touchscreen()) == []
  {
    hide Ascii, Str, U32, Phandles;
    LeafWithout(Touchscreen());
  }

  lemma I2cWithout()
    ensures Phandles(I2c()) == []
  {
    hide Ascii, Str, U32, Reg, Touchscreen, OwnPhandles;
    TouchWithout();
    NoPhandles(I2c().props);
    NoneOf([Touchscreen()]);
  }

  lemma D1Without(c: D1DeviceConfig)
    ensures PhandlesAll(D1Nodes(c)) == []
  {
    hide Phandles, Device, I2c, PhandlesAll;
    I2cWithout();
    DeviceWithout("display-engine@5100000", "allwinner,sun20i-d1-de2", 0x0510_0000, 0x10000, 42);
    DeviceWithout("lcd-controller@5461000", "allwinner,sun20i-d1-tcon-lcd", 0x0546_1000, 0x1000, 106);
    DeviceWithout("mmc@4020000", "allwinner,sun20i-d1-mmc", 0x0402_0000, 0x1000, 56);
    DeviceWithout("ethernet@4500000", "allwinner,sun20i-d1-emac", 0x0450_0000, 0x1000, 62);
    DeviceWithout("codec@2030000", "allwinner,sun20i-d1-codec", 0x0203_0000, 0x1000, 32);
    NoneOf(D1Nodes(c));
  }

  lemma SocPhandles(harts: nat, c: D1DeviceConfig)
    ensures PhandlesAll(SocNodes(harts, c)) == [PLIC_PHANDLE]
  {
    hide Phandles, D1Nodes, PhandlesAll, Clint, PlicNode, Uart, Virtio;
    ClintWithout(harts);
    PlicPhandles(harts);
    UartWithout();
    forall i | 0 <= i < 8
      ensures Phandles(VirtioNodes(8)[i]) == []
    {
      VirtioWithout(i);
    }
    D1Without(c);
    NoneOf(VirtioNodes(8));
    NoneOf([Clint(harts)]);
    NoneOf([Uart()]);
    OneNode(PlicNode(harts));
    AllConcat([Clint(harts)], [PlicNode(harts)]);
    AllConcat([Clint(harts)] + [PlicNode(harts)], [Uart()]);
    assert [Clint(harts), PlicNode(harts), Uart()] == [Clint(harts)] + [PlicNode(harts)] + [Uart()];
    AllConcat([Clint(harts), PlicNode(harts), Uart()], VirtioNodes(8));
    AllConcat([Clint(harts), PlicNode(harts), Uart()] + VirtioNodes(8), D1Nodes(c));
  }

  lemma OneNode(n: Node)
    ensures PhandlesAll([n]) == Phandles(n)
  {
    hide Phandles;
    assert [n][1..] == [];
    assert PhandlesAll([n]) == Phandles(n) + PhandlesAll([]);
  }

  lemma MachinePhandles(harts: nat, memorySize: u64, c: D1DeviceConfig)
    ensures Phandles(MachineTree(harts, memorySize, c)) == HartPhandles(harts) + [PLIC_PHANDLE]
  {
    hide PhandlesAll, OwnPhandles, Chosen, Cpus, MemoryNode, Soc, Ascii, Str, U32, HartPhandles;
    var n := MachineTree(harts, memorySize, c);
    NoPhandles(n.props);
    ChosenWithout();
    MemoryWithout(memorySize);
    CpusTotal(harts);
    SocTotal(harts, c);
    NoneOf([Chosen()]);
    NoneOf([MemoryNode(memorySize)]);
    OneNode(Cpus(harts));
    OneNode(Soc(harts, c));
    AllConcat([Chosen()], [Cpus(harts)]);
    AllConcat([Chosen()] + [Cpus(harts)], [MemoryNode(memorySize)]);
    AllConcat([Chosen()] + [Cpus(harts)] + [MemoryNode(memorySize)], [Soc(harts, c)]);
    assert n.children == [Chosen()] + [Cpus(harts)] + [MemoryNode(memorySize)] + [Soc(harts, c)];
  }

  lemma ChosenWithout()
    ensures Phandles(Chosen()) == []
  {
    hide Ascii, Str, Phandles;
    LeafWithout(Chosen());
  }

  lemma MemoryWithout(size: u64)
    ensures Phandles(MemoryNode(size)) == []
  {
    hide Ascii, Str, Reg, Phandles;
    LeafWithout(MemoryNode(size));
  }

  lemma CpusTotal(harts: nat)
    ensures Phandles(Cpus(harts)) == HartPhandles(harts)
  {
    hide Ascii, U32, OwnPhandles, PhandlesAll, CpuNodes, HartPhandles;
    NoPhandles(Cpus(harts).props);
    CpusPhandles(harts);
  }

  lemma SocTotal(harts: nat, c: D1DeviceConfig)
    ensures Phandles(Soc(harts, c)) == [PLIC_PHANDLE]
  {
    hide Ascii, U32, Str, Empty, OwnPhandles, PhandlesAll, SocNodes;
    NoPhandles(Soc(harts, c).props);
    SocPhandles(harts, c);
  }

  /** Phandles are distinct exactly up to 99 harts: the interrupt controller of hart 99 has the PLIC's. */
  lemma PhandlesDistinct(harts: nat, memorySize: u64, c: D1DeviceConfig)
    ensures NoDuplicates(Phandles(MachineTree(harts, memorySize, c))) <==> harts <= 99
  {
    hide Phandles, MachineTree;
    MachinePhandles(harts, memorySize, c);
    var ps := Phandles(MachineTree(harts, memorySize, c));
    if harts > 99 {
      assert ps[99] == 100 && ps[harts] == 100;
    }
  }

  // ---- The generator ------------------------------------------------------------------------------------------------

  lemma {:induction false} FlattenConcat(a: seq<Node>, b: seq<Node>)
    ensures FlattenAll(a + b) == FlattenAll(a) + FlattenAll(b)
    decreases |a|
  {
    hide Flatten;
    if a == [] {
      assert a + b == b;
    } else {
      assert (a + b)[1..] == a[1..] + b;
      FlattenConcat(a[1..], b);
    }
  }

  lemma FlattenOne(n: Node)
    ensures FlattenAll([n]) == Flatten(n)
  {
    hide Flatten;
    assert [n][1..] == [];
    assert FlattenAll([n]) == Flatten(n) + FlattenAll([]);
  }

  lemma FlattenLeaf(n: Node)
    requires n.children == []
    ensures Flatten(n) == [Begin(n.name)] + PropEvents(n.props) + [End]
  {
    assert FlattenAll([]) == [];
    assert [Begin(n.name)] + PropEvents(n.props) + [] + [End] == [Begin(n.name)] + PropEvents(n.props) + [End];
  }
}
