/** `generate_dtb`: the calls that describe the machine, and the tree they amount to. */
module DtbGenerator {
  import opened Base
  import opened Dtb
  import opened DtbParser
  import opened DtbTree

  /** The pairs pushed for each hart, in order. */
  method InterruptPairs(harts: nat, first: nat, second: nat) returns (ints: seq<nat>)
    ensures ints == Pairs(harts, first, second)
  {
    ints := [];
    for hart := 0 to harts
      invariant ints == Pairs(hart, first, second)
    {
      ints := ints + [hart + 1, first, hart + 1, second];
    }
  }

  method EmitChosen(b: DtbBuilder)
    requires b.Valid()
    modifies b
    ensures b.Valid() && b.calls == old(b.calls) + Flatten(Chosen())
  {
    hide Ascii, Names, StructOf, Joined, Be32, Cells, Reg64, OffsetIn, Decimal, Hex, Pairs, b.Valid;
    FlattenLeaf(Chosen());
    b.BeginNode(Ascii("chosen"));
    b.AddPropString(Ascii("bootargs"), Ascii("earlycon=sbi console=ttyS0"));
    b.AddPropString(Ascii("stdout-path"), Ascii("/soc/serial@10000000"));
    b.EndNode();
  }

  method EmitCpuIntc(b: DtbBuilder, hart: nat)
    requires b.Valid()
    modifies b
    ensures b.Valid() && b.calls == old(b.calls) + Flatten(CpuIntc(hart))
  {
    hide Ascii, Names, StructOf, Joined, Be32, Cells, Reg64, OffsetIn, Decimal, Hex, Pairs, b.Valid;
    FlattenLeaf(CpuIntc(hart));
    b.BeginNode(Ascii("interrupt-controller"));
    b.AddPropU32(Ascii("#interrupt-cells"), 1);
    b.AddProp(Ascii("interrupt-controller"), []);
    b.AddPropString(Ascii("compatible"), Ascii("riscv,cpu-intc"));
    b.AddPropU32(Ascii("phandle"), hart + 1);
    b.EndNode();
  }

  method EmitCpu(b: DtbBuilder, hart: nat)
    requires b.Valid()
    modifies b
    ensures b.Valid() && b.calls == old(b.calls) + Flatten(Cpu(hart))
  {
    hide Ascii, Names, StructOf, Joined, Be32, Cells, Reg64, OffsetIn, Decimal, Hex, Pairs, b.Valid, Flatten, CpuIntc;
    CpuCalls(hart);
    b.BeginNode(Ascii("cpu@") + Decimal(hart));
    b.AddPropString(Ascii("device_type"), Ascii("cpu"));
    b.AddPropU32(Ascii("reg"), hart);
    b.AddPropString(Ascii("status"), Ascii("okay"));
    b.AddPropString(Ascii("compatible"), Ascii("riscv"));
    b.AddPropString(Ascii("riscv,isa"), Ascii("rv64imac_zicsr_zifencei"));
    b.AddPropString(Ascii("mmu-type"), Ascii("riscv,sv39"));
    EmitCpuIntc(b, hart);
    b.EndNode();
  }

  lemma CpuCalls(hart: nat)
    ensures Flatten(Cpu(hart)) == [Begin(Cpu(hart).name)] + PropEvents(Cpu(hart).props) + Flatten(CpuIntc(hart)) + [End]
  {
    hide Ascii, Decimal, Be32, CpuIntc, Str, U32, PropEvents;
    FlattenOne(CpuIntc(hart));
  }

  method EmitCpus(b: DtbBuilder, harts: nat)
    requires b.Valid()
    modifies b
    ensures b.Valid() && b.calls == old(b.calls) + Flatten(Cpus(harts))
  {
    hide Ascii, Names, StructOf, Joined, Be32, Cells, Reg64, OffsetIn, Decimal, Hex, Pairs, b.Valid, FlattenAll, Cpu;
    b.BeginNode(Ascii("cpus"));
    b.AddPropU32(Ascii("#address-cells"), 1);
    b.AddPropU32(Ascii("#size-cells"), 0);
    b.AddPropU32(Ascii("timebase-frequency"), 10_000_000);
    EmitCpuNodes(b, harts);
    b.EndNode();
  }

  /** The loop over the harts. */
  method EmitCpuNodes(b: DtbBuilder, harts: nat)
    requires b.Valid()
    modifies b
    ensures b.Valid() && b.calls == old(b.calls) + FlattenAll(CpuNodes(harts))
  {
    hide Cpu, Flatten, Names, StructOf, Joined, OffsetIn, b.Valid;
    ghost var before := b.calls;
    assert FlattenAll([]) == [];
    for hart := 0 to harts
      invariant b.Valid() && b.calls == before + FlattenAll(CpuNodes(hart))
    {
      FlattenConcat(CpuNodes(hart), [Cpu(hart)]);
      FlattenOne(Cpu(hart));
      assert CpuNodes(hart + 1) == CpuNodes(hart) + [Cpu(hart)];
      EmitCpu(b, hart);
    }
  }

  method EmitMemory(b: DtbBuilder, size: u64)
    requires b.Valid()
    modifies b
    ensures b.Valid() && b.calls == old(b.calls) + Flatten(MemoryNode(size))
  {
    hide Ascii, Names, StructOf, Joined, Be32, Cells, Reg64, OffsetIn, Decimal, Hex, Pairs, b.Valid;
    FlattenLeaf(MemoryNode(size));
    b.BeginNode(Ascii("memory@80000000"));
    b.AddPropString(Ascii("device_type"), Ascii("memory"));
    b.AddPropReg64(Ascii("reg"), 0x8000_0000, size);
    b.EndNode();
  }

  method EmitClint(b: DtbBuilder, harts: nat)
    requires b.Valid()
    modifies b
    ensures b.Valid() && b.calls == old(b.calls) + Flatten(Clint(harts))
  {
    hide Ascii, Names, StructOf, Joined, Be32, Cells, Reg64, OffsetIn, Decimal, Hex, Pairs, b.Valid;
    FlattenLeaf(Clint(harts));
    b.BeginNode(Ascii("clint@2000000"));
    b.AddPropString(Ascii("compatible"), Ascii("riscv,clint0"));
    b.AddPropReg64(Ascii("reg"), 0x0200_0000, 0x10000);
    var ints := InterruptPairs(harts, 3, 7);
    b.AddPropU32Array(Ascii("interrupts-extended"), ints);
    b.EndNode();
  }

  method EmitPlic(b: DtbBuilder, harts: nat)
    requires b.Valid()
    modifies b
    ensures b.Valid() && b.calls == old(b.calls) + Flatten(PlicNode(harts))
  {
    hide Ascii, Names, StructOf, Joined, Be32, Cells, Reg64, OffsetIn, Decimal, Hex, Pairs, b.Valid;
    FlattenLeaf(PlicNode(harts));
    b.BeginNode(Ascii("interrupt-controller@c000000"));
    b.AddPropString(Ascii("compatible"), Ascii("riscv,plic0"));
    b.AddPropU32(Ascii("#interrupt-cells"), 1);
    b.AddProp(Ascii("interrupt-controller"), []);
    b.AddPropReg64(Ascii("reg"), 0x0C00_0000, 0x60_0000);
    b.AddPropU32(Ascii("riscv,ndev"), 127);
    b.AddPropU32(Ascii("phandle"), PLIC_PHANDLE);
    var ints := InterruptPairs(harts, 9, 11);
    b.AddPropU32Array(Ascii("interrupts-extended"), ints);
    b.EndNode();
  }

  method EmitUart(b: DtbBuilder)
    requires b.Valid()
    modifies b
    ensures b.Valid() && b.calls == old(b.calls) + Flatten(Uart())
  {
    hide Ascii, Names, StructOf, Joined, Be32, Cells, Reg64, OffsetIn, Decimal, Hex, Pairs, b.Valid;
    FlattenLeaf(Uart());
    b.BeginNode(Ascii("serial@10000000"));
    b.AddPropString(Ascii("compatible"), Ascii("ns16550a"));
    b.AddPropReg64(Ascii("reg"), 0x1000_0000, 0x100);
    b.AddPropU32(Ascii("clock-frequency"), 3686400);
    b.AddPropU32(Ascii("interrupts"), 10);
    b.AddPropU32(Ascii("interrupt-parent"), PLIC_PHANDLE);
    b.EndNode();
  }

  method EmitVirtio(b: DtbBuilder, i: nat)
    requires b.Valid() && i < 8
    modifies b
    ensures b.Valid() && b.calls == old(b.calls) + Flatten(Virtio(i))
  {
    hide Ascii, Names, StructOf, Joined, Be32, Cells, Reg64, OffsetIn, Decimal, Hex, Pairs, b.Valid;
    FlattenLeaf(Virtio(i));
    b.BeginNode(Ascii("virtio@") + Hex(0x1000_1000 + i * 0x1000));
    b.AddPropString(Ascii("compatible"), Ascii("virtio,mmio"));
    b.AddPropReg64(Ascii("reg"), 0x1000_1000 + i * 0x1000, 0x1000);
    b.AddPropU32(Ascii("interrupts"), 1 + i);
    b.AddPropU32(Ascii("interrupt-parent"), PLIC_PHANDLE);
    b.EndNode();
  }

  method EmitVirtioNodes(b: DtbBuilder)
    requires b.Valid()
    modifies b
    ensures b.Valid() && b.calls == old(b.calls) + FlattenAll(VirtioNodes(8))
  {
    hide Virtio, Flatten, Names, StructOf, Joined, OffsetIn, b.Valid;
    ghost var before := b.calls;
    assert FlattenAll([]) == [];
    for i := 0 to 8
      invariant b.Valid() && b.calls == before + FlattenAll(VirtioNodes(i))
    {
      FlattenConcat(VirtioNodes(i), [Virtio(i)]);
      FlattenOne(Virtio(i));
      assert VirtioNodes(i + 1) == VirtioNodes(i) + [Virtio(i)];
      EmitVirtio(b, i);
    }
  }

  method EmitDevice(b: DtbBuilder, name: string, compatible: string, address: u64, size: u64, irq: nat)
    requires b.Valid()
    modifies b
    ensures b.Valid() && b.calls == old(b.calls) + Flatten(Device(name, compatible, address, size, irq))
  {
    hide Ascii, Names, StructOf, Joined, Be32, Cells, Reg64, OffsetIn, Decimal, Hex, Pairs, b.Valid;
    FlattenLeaf(Device(name, compatible, address, size, irq));
    b.BeginNode(Ascii(name));
    b.AddPropString(Ascii("compatible"), Ascii(compatible));
    b.AddPropReg64(Ascii("reg"), address, size);
    b.AddPropU32(Ascii("interrupts"), irq);
    b.AddPropU32(Ascii("interrupt-parent"), PLIC_PHANDLE);
    b.AddPropString(Ascii("status"), Ascii("okay"));
    b.EndNode();
  }

  method EmitTouchscreen(b: DtbBuilder)
    requires b.Valid()
    modifies b
    ensures b.Valid() && b.calls == old(b.calls) + Flatten(Touchscreen())
  {
    hide Ascii, Names, StructOf, Joined, Be32, Cells, Reg64, OffsetIn, Decimal, Hex, Pairs, b.Valid;
    FlattenLeaf(Touchscreen());
    b.BeginNode(Ascii("touchscreen@14"));
    b.AddPropString(Ascii("compatible"), Ascii("goodix,gt911"));
    b.AddPropU32(Ascii("reg"), 0x14);
    b.AddPropU32(Ascii("interrupts"), 35);
    b.AddPropU32(Ascii("interrupt-parent"), PLIC_PHANDLE);
    b.AddPropString(Ascii("status"), Ascii("okay"));
    b.EndNode();
  }

  method EmitI2c(b: DtbBuilder)
    requires b.Valid()
    modifies b
    ensures b.Valid() && b.calls == old(b.calls) + Flatten(I2c())
  {
    hide Ascii, Names, StructOf, Joined, Be32, Cells, Reg64, OffsetIn, Decimal, Hex, Pairs, b.Valid, Flatten,
      Touchscreen;
    I2cCalls();
    b.BeginNode(Ascii("i2c@2502000"));
    b.AddPropString(Ascii("compatible"), Ascii("allwinner,sun20i-d1-i2c"));
    b.AddPropReg64(Ascii("reg"), 0x0250_2000, 0x400);
    b.AddPropU32(Ascii("#address-cells"), 1);
    b.AddPropU32(Ascii("#size-cells"), 0);
    b.AddPropU32(Ascii("interrupts"), 25);
    b.AddPropU32(Ascii("interrupt-parent"), PLIC_PHANDLE);
    b.AddPropString(Ascii("status"), Ascii("okay"));
    EmitTouchscreen(b);
    b.EndNode();
  }

  lemma I2cCalls()
    ensures Flatten(I2c()) == [Begin(I2c().name)] + PropEvents(I2c().props) + Flatten(Touchscreen()) + [End]
  {
    hide Ascii, Reg64, Be32, Touchscreen, Str, U32, Reg, PropEvents;
    FlattenOne(Touchscreen());
  }

  method EmitDisplay(b: DtbBuilder, c: D1DeviceConfig)
    requires b.Valid()
    modifies b
    ensures b.Valid() && b.calls == old(b.calls) + FlattenAll(DisplayNodes(c))
  {
    hide Device, I2c, Flatten, FlattenAll, Names, StructOf, Joined, OffsetIn, b.Valid;
    ShortList(DisplayNodes(c));
    if c.hasDisplay {
      EmitDevice(b, "display-engine@5100000", "allwinner,sun20i-d1-de2", 0x0510_0000, 0x10000, 42);
      EmitDevice(b, "lcd-controller@5461000", "allwinner,sun20i-d1-tcon-lcd", 0x0546_1000, 0x1000, 106);
    }
  }

  method EmitMmc(b: DtbBuilder, c: D1DeviceConfig)
    requires b.Valid()
    modifies b
    ensures b.Valid() && b.calls == old(b.calls) + FlattenAll(MmcNodes(c))
  {
    hide Device, I2c, Flatten, FlattenAll, Names, StructOf, Joined, OffsetIn, b.Valid;
    ShortList(MmcNodes(c));
    if c.hasMmc {
      EmitDevice(b, "mmc@4020000", "allwinner,sun20i-d1-mmc", 0x0402_0000, 0x1000, 56);
    }
  }

  method EmitEmac(b: DtbBuilder, c: D1DeviceConfig)
    requires b.Valid()
    modifies b
    ensures b.Valid() && b.calls == old(b.calls) + FlattenAll(EmacNodes(c))
  {
    hide Device, I2c, Flatten, FlattenAll, Names, StructOf, Joined, OffsetIn, b.Valid;
    ShortList(EmacNodes(c));
    if c.hasEmac {
      EmitDevice(b, "ethernet@4500000", "allwinner,sun20i-d1-emac", 0x0450_0000, 0x1000, 62);
    }
  }

  method EmitTouch(b: DtbBuilder, c: D1DeviceConfig)
    requires b.Valid()
    modifies b
    ensures b.Valid() && b.calls == old(b.calls) + FlattenAll(TouchNodes(c))
  {
    hide Device, I2c, Flatten, FlattenAll, Names, StructOf, Joined, OffsetIn, b.Valid;
    ShortList(TouchNodes(c));
    if c.hasTouch {
      EmitI2c(b);
    }
  }

  method EmitAudio(b: DtbBuilder, c: D1DeviceConfig)
    requires b.Valid()
    modifies b
    ensures b.Valid() && b.calls == old(b.calls) + FlattenAll(AudioNodes(c))
  {
    hide Device, I2c, Flatten, FlattenAll, Names, StructOf, Joined, OffsetIn, b.Valid;
    ShortList(AudioNodes(c));
    if c.hasAudio {
      EmitDevice(b, "codec@2030000", "allwinner,sun20i-d1-codec", 0x0203_0000, 0x1000, 32);
    }
  }

  /** The optional devices, in order. */
  method EmitD1(b: DtbBuilder, c: D1DeviceConfig)
    requires b.Valid()
    modifies b
    ensures b.Valid() && b.calls == old(b.calls) + FlattenAll(D1Nodes(c))
  {
    hide DisplayNodes, MmcNodes, EmacNodes, TouchNodes, AudioNodes, D1Nodes, FlattenAll, Names, StructOf, Joined,
      OffsetIn, b.Valid;
    D1Calls(c);
    EmitDisplay(b, c);
    EmitMmc(b, c);
    EmitEmac(b, c);
    EmitTouch(b, c);
    EmitAudio(b, c);
  }

  /** The calls for a list of at most two nodes. */
  lemma ShortList(ns: seq<Node>)
    requires |ns| <= 2
    ensures FlattenAll(ns) == if |ns| == 0 then [] else if |ns| == 1 then Flatten(ns[0])
            else Flatten(ns[0]) + Flatten(ns[1])
  {
    hide Flatten;
    if |ns| == 1 {
      FlattenOne(ns[0]);
      assert ns == [ns[0]];
    } else if |ns| == 2 {
      FlattenOne(ns[1]);
      assert ns[1..] == [ns[1]];
    }
  }

  lemma D1Calls(c: D1DeviceConfig)
    ensures FlattenAll(D1Nodes(c)) == FlattenAll(DisplayNodes(c)) + FlattenAll(MmcNodes(c)) + FlattenAll(EmacNodes(c))
                                      + FlattenAll(TouchNodes(c)) + FlattenAll(AudioNodes(c))
  {
    hide DisplayNodes, MmcNodes, EmacNodes, TouchNodes, AudioNodes, FlattenAll;
    FlattenConcat(DisplayNodes(c), MmcNodes(c));
    FlattenConcat(DisplayNodes(c) + MmcNodes(c), EmacNodes(c));
    FlattenConcat(DisplayNodes(c) + MmcNodes(c) + EmacNodes(c), TouchNodes(c));
    FlattenConcat(DisplayNodes(c) + MmcNodes(c) + EmacNodes(c) + TouchNodes(c), AudioNodes(c));
  }

  method EmitSoc(b: DtbBuilder, harts: nat, c: D1DeviceConfig)
    requires b.Valid()
    modifies b
    ensures b.Valid() && b.calls == old(b.calls) + Flatten(Soc(harts, c))
  {
    hide Ascii, Names, StructOf, Joined, Be32, Cells, Reg64, OffsetIn, Decimal, Hex, Pairs, b.Valid, FlattenAll,
      SocNodes;
    b.BeginNode(Ascii("soc"));
    b.AddPropU32(Ascii("#address-cells"), 2);
    b.AddPropU32(Ascii("#size-cells"), 2);
    b.AddPropString(Ascii("compatible"), Ascii("simple-bus"));
    b.AddProp(Ascii("ranges"), []);
    EmitSocNodes(b, harts, c);
    b.EndNode();
  }

  method EmitSocNodes(b: DtbBuilder, harts: nat, c: D1DeviceConfig)
    requires b.Valid()
    modifies b
    ensures b.Valid() && b.calls == old(b.calls) + FlattenAll(SocNodes(harts, c))
  {
    hide Clint, PlicNode, Uart, Virtio, D1Nodes, Flatten, FlattenAll, Names, StructOf, Joined, OffsetIn, b.Valid,
      VirtioNodes, SocNodes;
    SocCalls(harts, c);
    EmitClint(b, harts);
    EmitPlic(b, harts);
    EmitUart(b);
    EmitVirtioNodes(b);
    EmitD1(b, c);
  }

  lemma SocCalls(harts: nat, c: D1DeviceConfig)
    ensures FlattenAll(SocNodes(harts, c))
         == Flatten(Clint(harts)) + Flatten(PlicNode(harts)) + Flatten(Uart()) + FlattenAll(VirtioNodes(8))
             + FlattenAll(D1Nodes(c))
  {
    hide Clint, PlicNode, Uart, Virtio, D1Nodes, Flatten, FlattenAll, VirtioNodes;
    FlattenOne(Clint(harts));
    FlattenOne(PlicNode(harts));
    FlattenOne(Uart());
    FlattenConcat([Clint(harts)], [PlicNode(harts)]);
    FlattenConcat([Clint(harts)] + [PlicNode(harts)], [Uart()]);
    assert [Clint(harts), PlicNode(harts), Uart()] == [Clint(harts)] + [PlicNode(harts)] + [Uart()];
    FlattenConcat([Clint(harts), PlicNode(harts), Uart()], VirtioNodes(8));
    FlattenConcat([Clint(harts), PlicNode(harts), Uart()] + VirtioNodes(8), D1Nodes(c));
  }

  method EmitRoot(b: DtbBuilder)
    requires b.Valid()
    modifies b
    ensures b.Valid() && b.calls == old(b.calls) + ([Begin([])] + PropEvents(RootProps()))
  {
    hide Ascii, Names, StructOf, Joined, Be32, OffsetIn, b.Valid;
    b.BeginNode([]);
    b.AddPropU32(Ascii("#address-cells"), 2);
    b.AddPropU32(Ascii("#size-cells"), 2);
    b.AddPropString(Ascii("compatible"), Ascii("allwinner,sun20i-d1"));
    b.AddPropString(Ascii("model"), Ascii("riscv-vm-d1"));
  }

  method EmitMachine(b: DtbBuilder, harts: nat, memorySize: u64, c: D1DeviceConfig)
    requires b.Valid()
    modifies b
    ensures b.Valid() && b.calls == old(b.calls) + Flatten(MachineTree(harts, memorySize, c))
  {
    hide PropEvents, RootProps, MachineTree, Names, StructOf, Joined, OffsetIn, Soc, Cpus, MemoryNode, Chosen, Flatten,
      b.Valid;
    MachineCalls(harts, memorySize, c);
    EmitRoot(b);
    EmitChosen(b);
    EmitCpus(b, harts);
    EmitMemory(b, memorySize);
    EmitSoc(b, harts, c);
    b.EndNode();
  }

  /** The blob of the intended tree, which a reader gets back from it. */
  method GenerateDtb(harts: nat, memorySize: u64, c: D1DeviceConfig) returns (dtb: Bytes)
    ensures dtb == Blob(MachineTree(harts, memorySize, c))
    ensures |dtb| < TWO_32 ==> Parse(dtb) == Some(Tree([], 0, MachineTree(harts, memorySize, c)))
  {
    hide Names, StructOf, Joined, Be32, Parse, Flatten, MachineTree, Header;
    var b := new DtbBuilder();
    EmitMachine(b, harts, memorySize, c);
    assert b.calls == Flatten(MachineTree(harts, memorySize, c));
    dtb := b.Finish();
    if |dtb| < TWO_32 {
      MachineRoundTrip(harts, memorySize, c);
    }
  }

  lemma MachineCalls(harts: nat, memorySize: u64, c: D1DeviceConfig)
    ensures Flatten(MachineTree(harts, memorySize, c))
         == ([Begin([])] + PropEvents(RootProps()))
                          + (Flatten(Chosen()) + Flatten(Cpus(harts)) + Flatten(MemoryNode(memorySize))
                             + Flatten(Soc(harts, c))) + [End]
  {
    hide RootProps, Soc, Cpus, MemoryNode, Chosen, FlattenAll, PropEvents;
    FlattenOne(Chosen());
    FlattenOne(Cpus(harts));
    FlattenOne(MemoryNode(memorySize));
    FlattenOne(Soc(harts, c));
    FlattenConcat([Chosen()], [Cpus(harts)]);
    FlattenConcat([Chosen()] + [Cpus(harts)], [MemoryNode(memorySize)]);
    FlattenConcat([Chosen()] + [Cpus(harts)] + [MemoryNode(memorySize)], [Soc(harts, c)]);
    assert MachineTree(harts, memorySize, c).children == [Chosen()] + [Cpus(harts)] + [MemoryNode(memorySize)]
        + [Soc(harts, c)];
  }
}
