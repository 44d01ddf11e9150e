/** A reader of flattened device trees, written from section 5 of the Devicetree Specification v0.4, and
    the proof that it reads the builder's output back. */
module DtbParser {
  import opened Base
  import opened Dtb

  datatype Parsed<+T> = Parsed(value: T, next: nat) | Bad

  /** The big-endian word at `pos`. */
  function Word(b: Bytes, pos: nat): nat
    requires pos + 4 <= |b|
  {
    WordOf(b[pos], b[pos + 1], b[pos + 2], b[pos + 3])
  }

  function WordOf(b0: nat, b1: nat, b2: nat, b3: nat): nat {
    b0 * 0x100_0000 + b1 * 0x1_0000 + b2 * 0x100 + b3
  }

  /** The bytes from `pos` up to the next NUL. */
  function CString(b: Bytes, pos: nat): Option<Bytes>
    decreases |b| - pos
  {
    if pos >= |b| then None
    else if b[pos] == 0 then Some([])
    else
      match CString(b, pos + 1)
      case None => None
      case Some(rest) => Some([b[pos]] + rest)
  }

  datatype Body = Body(props: seq<Property>, children: seq<Node>)

  /** Token 1 (FDT_BEGIN_NODE), the unit name, padding, and the body. */
  function ParseNode(b: Bytes, strings: Bytes, pos: nat): (r: Parsed<Node>)
    ensures r.Parsed? ==> pos < r.next <= |b|
    decreases |b| - pos, 0
  {
    if pos % 4 != 0 || pos + 4 > |b| || Word(b, pos) != 1 then Bad
    else
      match CString(b, pos + 4)
      case None => Bad
      case Some(name) =>
        var next := Align4(pos + 4 + |name| + 1);
        if next > |b| then Bad
        else
          match ParseBody(b, strings, next)
          case Bad => Bad
          case Parsed(body, end) => Parsed(Node(name, body.props, body.children), end)
  }

  /** Properties (token 3), then child nodes, then token 2 (FDT_END_NODE); token 4 (FDT_NOP) anywhere. */
  function ParseBody(b: Bytes, strings: Bytes, pos: nat): (r: Parsed<Body>)
    ensures r.Parsed? ==> pos < r.next <= |b|
    decreases |b| - pos, 1
  {
    if pos % 4 != 0 || pos + 4 > |b| then Bad
    else if Word(b, pos) == 2 then Parsed(Body([], []), pos + 4)
    else if Word(b, pos) == 4 then ParseBody(b, strings, pos + 4)
    else if Word(b, pos) == 3 then
      if pos + 12 > |b| then Bad
      else
        var len := Word(b, pos + 4);
        var next := Align4(pos + 12 + len);
        match CString(strings, Word(b, pos + 8))
        case None => Bad
        case Some(name) =>
          if next > |b| then Bad
          else
            match ParseBody(b, strings, next)
            case Bad => Bad
            case Parsed(rest, end) =>
              Parsed(Body([Property(name, b[pos + 12..pos + 12 + len])] + rest.props, rest.children), end)
    else
      match ParseNode(b, strings, pos)
      case Bad => Bad
      case Parsed(child, next) =>
        match ParseBody(b, strings, next)
        case Bad => Bad
        case Parsed(rest, end) => if rest.props != [] then Bad else Parsed(Body([], [child] + rest.children), end)
  }

  /** The memory reservation block ends with sixteen zero bytes. */
  function ParseReservations(b: Bytes, pos: nat): Option<seq<Bytes>>
    decreases |b| - pos
  {
    if pos + 16 > |b| then None
    else if b[pos..pos + 16] == Zeros(16) then Some([])
    else
      match ParseReservations(b, pos + 16)
      case None => None
      case Some(rest) => Some([b[pos..pos + 16]] + rest)
  }

  datatype Tree = Tree(reservations: seq<Bytes>, bootCpu: nat, root: Node)

  /** Header fields by offset: magic 0, totalsize 4, off_dt_struct 8, off_dt_strings 12, off_mem_rsvmap 16,
      version 20, last_comp_version 24, boot_cpuid_phys 28, size_dt_strings 32, size_dt_struct 36. */
  function Parse(b: Bytes): Option<Tree> {
    if |b| < 40 || Word(b, 0) != 0xD00D_FEED || Word(b, 4) != |b| || Word(b, 24) > 17
        || Word(b, 20) < 17
    then None
    else
      var structOff, structSize := Word(b, 8), Word(b, 36);
      var stringsOff, stringsSize := Word(b, 12), Word(b, 32);
      var reserveOff := Word(b, 16);
      if structOff % 4 != 0 || reserveOff % 8 != 0 || structOff + structSize > |b| || stringsOff + stringsSize > |b|
          then None
      else
        var structs, strings := b[structOff..structOff + structSize], b[stringsOff..stringsOff + stringsSize];
        match ParseReservations(b, reserveOff)
        case None => None
        case Some(reservations) =>
          match ParseNode(structs, strings, 0)
          case Bad => None
          case Parsed(root, end) =>
            if end + 4 == |structs| && Word(structs, end) == 9 then Some(Tree(reservations, Word(b, 28), root))
                else None
  }

  // ---- Pieces ------------------------------------------------------------------------------------------------

  /** `part` lies at `pos` of `b`. */
  ghost predicate At(b: Bytes, pos: nat, part: Bytes) {
    pos + |part| <= |b| && b[pos..pos + |part|] == part
  }

  lemma AtParts(b: Bytes, pos: nat, x: Bytes, y: Bytes)
    requires At(b, pos, x + y)
    ensures At(b, pos, x) && At(b, pos + |x|, y)
  {
    var s := b[pos..pos + |x + y|];
    assert s[..|x|] == x && s[|x|..] == y;
  }

  lemma WordAt(b: Bytes, pos: nat, x: nat)
    requires At(b, pos, Be32(x)) && x < TWO_32
    ensures Word(b, pos) == x
  {
    hide Be32, WordOf;
    var s := b[pos..pos + 4];
    assert s[0] == b[pos] && s[1] == b[pos + 1] && s[2] == b[pos + 2] && s[3] == b[pos + 3];
    Bytes4(x);
  }

  lemma Bytes4(x: nat)
    requires x < TWO_32
    ensures var s := Be32(x); WordOf(s[0], s[1], s[2], s[3]) == x
  {
    var high3 := x / 0x100;
    var high2 := high3 / 0x100;
    assert x % TWO_32 == x;
    assert x == 0x100 * high3 + x % 0x100 && high3 == 0x100 * high2 + high3 % 0x100
        && high2 == 0x100 * (high2 / 0x100) + high2 % 0x100;
  }

  ghost predicate NulFree(n: Bytes) {
    0 !in n
  }

  lemma {:induction false} CStringAt(b: Bytes, pos: nat, n: Bytes)
    requires At(b, pos, n + [0]) && NulFree(n)
    ensures CString(b, pos) == Some(n)
    decreases |n|
  {
    var s := b[pos..pos + |n| + 1];
    assert s[0] == b[pos];
    if n != [] {
      assert n[0] != 0;
      AtTail(b, pos, n + [0]);
      assert (n + [0])[1..] == n[1..] + [0];
      CStringAt(b, pos + 1, n[1..]);
      assert n == [n[0]] + n[1..];
    }
  }

  lemma AtTail(b: Bytes, pos: nat, s: Bytes)
    requires At(b, pos, s) && |s| > 0
    ensures At(b, pos + 1, s[1..]) && b[pos] == s[0]
  {
    assert s == [s[0]] + s[1..];
    AtParts(b, pos, [s[0]], s[1..]);
    assert b[pos..pos + 1][0] == s[0];
  }

  // ---- The name table --------------------------------------------------------------------------------------------

  /** A name's offset leads to the name. */
  lemma {:induction false} NameAt(names: seq<Bytes>, n: Bytes)
    requires n in names
    ensures At(Joined(names), OffsetIn(names, n), n + [0])
    decreases |names|
  {
    var first := names[0] + [0];
    if names[0] == n {
      assert Joined(names)[..|first|] == first;
    } else {
      NameAt(names[1..], n);
      assert Joined(names) == first + Joined(names[1..]);
      AtShift(first, Joined(names[1..]), OffsetIn(names[1..], n), n + [0]);
    }
  }

  lemma AtShift(prefix: Bytes, b: Bytes, pos: nat, part: Bytes)
    requires At(b, pos, part)
    ensures At(prefix + b, |prefix| + pos, part)
  {
    assert (prefix + b)[|prefix| + pos..|prefix| + pos + |part|] == b[pos..pos + |part|];
  }

  /** Every name used resolves to itself in the strings block, and different names have different offsets. */
  lemma NamesResolve(names: seq<Bytes>, n: Bytes, m: Bytes)
    requires n in names && m in names && NulFree(n) && NulFree(m)
    ensures CString(Joined(names), OffsetIn(names, n)) == Some(n)
    ensures n != m ==> OffsetIn(names, n) != OffsetIn(names, m)
  {
    NameAt(names, n);
    NameAt(names, m);
    CStringAt(Joined(names), OffsetIn(names, n), n);
    CStringAt(Joined(names), OffsetIn(names, m), m);
    hide *;
  }

  // ---- The structure block ------------------------------------------------------------------------------------------

  /** Names are NUL-free, property names are in the table, and lengths and offsets fit their fields. */
  ghost predicate NodeOk(n: Node, names: seq<Bytes>)
    decreases n, 0
  {
    NulFree(n.name) && PropsOk(n.props, names) && NodesOk(n.children, names)
  }

  ghost predicate NodesOk(ns: seq<Node>, names: seq<Bytes>)
    decreases ns
  {
    ns != [] ==> NodeOk(ns[0], names) && NodesOk(ns[1..], names)
  }

  ghost predicate PropOk(p: Property, names: seq<Bytes>) {
    p.name in names && NulFree(p.name) && |p.value| < TWO_32 && OffsetIn(names, p.name) < TWO_32
  }

  ghost predicate PropsOk(ps: seq<Property>, names: seq<Bytes>) {
    forall k :: 0 <= k < |ps| ==> PropOk(ps[k], names)
  }

  /** The encoded calls of a node's body. */
  function BodyEvents(props: seq<Property>, children: seq<Node>): seq<Event> {
    PropEvents(props) + FlattenAll(children) + [End]
  }

  lemma StructCons(e: Event, es: seq<Event>, names: seq<Bytes>)
    ensures StructOf([e] + es, names) == EncodeEvent(e, names) + StructOf(es, names)
  {
    assert ([e] + es)[1..] == es;
  }

  lemma AlignAfter(pos: nat, head: nat, len: nat)
    requires pos % 4 == 0 && head % 4 == 0
    ensures Align4(pos + head + len) == pos + (head + Align4(len))
    ensures (pos + (head + Align4(len))) % 4 == 0
  {
  }

  /** An encoded begin-node token yields the name and leads to the body. */
  lemma BeginParses(b: Bytes, names: seq<Bytes>, pos: nat, name: Bytes)
    requires pos % 4 == 0 && NulFree(name) && At(b, pos, EncodeEvent(Begin(name), names))
    ensures pos + 4 <= |b| && Word(b, pos) == FDT_BEGIN_NODE
    ensures CString(b, pos + 4) == Some(name)
    ensures Align4(pos + 4 + |name| + 1) == pos + |EncodeEvent(Begin(name), names)|
    ensures (pos + |EncodeEvent(Begin(name), names)|) % 4 == 0
  {
    hide Be32, Align4, Word, CString;
    var padded := Padded(name + [0]);
    AtParts(b, pos, Be32(FDT_BEGIN_NODE), padded);
    WordAt(b, pos, FDT_BEGIN_NODE);
    assert padded == (name + [0]) + padded[|name| + 1..];
    AtParts(b, pos + 4, name + [0], padded[|name| + 1..]);
    CStringAt(b, pos + 4, name);
    AlignAfter(pos, 4, |name| + 1);
  }

  /** Where the parts of an encoded property token are. */
  lemma PropParts(b: Bytes, names: seq<Bytes>, pos: nat, p: Property)
    requires At(b, pos, EncodeEvent(Prop(p.name, p.value), names))
    ensures At(b, pos, Be32(FDT_PROP)) && At(b, pos + 4, Be32(|p.value|))
    ensures At(b, pos + 8, Be32(OffsetIn(names, p.name)))
    ensures At(b, pos + 12, p.value)
    ensures |EncodeEvent(Prop(p.name, p.value), names)| == 12 + Align4(|p.value|)
  {
    hide Be32, Align4, OffsetIn, At;
    var padded := Padded(p.value);
    var x, y, z := Be32(FDT_PROP), Be32(|p.value|), Be32(OffsetIn(names, p.name));
    assert x + y + z + padded == x + (y + (z + padded));
    AtParts(b, pos, x, y + (z + padded));
    AtParts(b, pos + 4, y, z + padded);
    AtParts(b, pos + 8, z, padded);
    assert padded == p.value + padded[|p.value|..];
    AtParts(b, pos + 12, p.value, padded[|p.value|..]);
  }

  /** An encoded property token yields name and value and leads to the next token. */
  lemma PropParses(b: Bytes, names: seq<Bytes>, pos: nat, p: Property)
    requires pos % 4 == 0 && PropOk(p, names) && At(b, pos, EncodeEvent(Prop(p.name, p.value), names))
    ensures pos + 12 <= |b| && Word(b, pos) == FDT_PROP && Word(b, pos + 4) == |p.value|
    ensures CString(Joined(names), Word(b, pos + 8)) == Some(p.name)
    ensures pos + 12 + |p.value| <= |b| && b[pos + 12..pos + 12 + |p.value|] == p.value
    ensures Align4(pos + 12 + |p.value|) == pos + |EncodeEvent(Prop(p.name, p.value), names)|
    ensures (pos + |EncodeEvent(Prop(p.name, p.value), names)|) % 4 == 0
  {
    hide Be32, Align4, Word, CString, OffsetIn, Joined, EncodeEvent;
    PropParts(b, names, pos, p);
    WordAt(b, pos, FDT_PROP);
    WordAt(b, pos + 4, |p.value|);
    WordAt(b, pos + 8, OffsetIn(names, p.name));
    NamesResolve(names, p.name, p.name);
    AlignAfter(pos, 12, |p.value|);
  }

  /** Parsing what `es` encodes at `pos` has succeeded with `v` and consumed exactly the encoding. */
  ghost predicate Reads<T>(r: Parsed<T>, v: T, pos: nat, part: Bytes) {
    r == Parsed(v, pos + |part|)
  }

  lemma {:induction false} BodyReads(b: Bytes, names: seq<Bytes>, pos: nat, props: seq<Property>, children: seq<Node>)
    requires pos % 4 == 0 && PropsOk(props, names) && NodesOk(children, names)
    requires At(b, pos, StructOf(BodyEvents(props, children), names))
    ensures Reads(ParseBody(b, Joined(names), pos), Body(props, children), pos,
                  StructOf(BodyEvents(props, children), names))
    decreases children, |props| + 1
  {
    hide Word, CString, OffsetIn, Joined, EncodeEvent, StructOf, Align4, ParseNode, PropOk, At;
    if props != [] {
      var p, rest := props[0], props[1..];
      BodyUncons(props, children);
      StructCons(Prop(p.name, p.value), BodyEvents(rest, children), names);
      var first, more := EncodeEvent(Prop(p.name, p.value), names), StructOf(BodyEvents(rest, children), names);
      AtParts(b, pos, first, more);
      PropParses(b, names, pos, p);
      BodyReads(b, names, pos + |first|, rest, children);
      AtFits(b, pos + |first|, more);
      assert [Property(p.name, p.value)] + rest == props;
    } else if children != [] {
      ChildReads(b, names, pos, children);
    } else {
      EndReads(b, names, pos);
    }
  }

  lemma BodyUncons(props: seq<Property>, children: seq<Node>)
    requires props != []
    ensures BodyEvents(props, children) == [Prop(props[0].name, props[0].value)] + BodyEvents(props[1..], children)
  {
    hide FlattenAll;
  }

  lemma AtFits(b: Bytes, pos: nat, part: Bytes)
    requires At(b, pos, part)
    ensures pos + |part| <= |b|
  {
  }

  lemma EndReads(b: Bytes, names: seq<Bytes>, pos: nat)
    requires pos % 4 == 0 && At(b, pos, StructOf(BodyEvents([], []), names))
    ensures Reads(ParseBody(b, Joined(names), pos), Body([], []), pos, StructOf(BodyEvents([], []), names))
  {
    hide Be32, Word, Joined;
    assert BodyEvents([], []) == [End] + [];
    StructCons(End, [], names);
    assert StructOf([], names) == [];
    assert StructOf(BodyEvents([], []), names) == Be32(FDT_END_NODE) + [];
    AtParts(b, pos, Be32(FDT_END_NODE), []);
    WordAt(b, pos, FDT_END_NODE);
  }

  lemma {:induction false} ChildReads(b: Bytes, names: seq<Bytes>, pos: nat, children: seq<Node>)
    requires pos % 4 == 0 && children != [] && NodesOk(children, names)
    requires At(b, pos, StructOf(BodyEvents([], children), names))
    ensures Reads(ParseBody(b, Joined(names), pos), Body([], children), pos, StructOf(BodyEvents([], children), names))
    decreases children, 0
  {
    hide Word, CString, OffsetIn, Joined, EncodeEvent, StructOf, Align4, ParseNode, NodeOk, At, Flatten;
    var child, rest := children[0], children[1..];
    ChildrenUncons(children);
    StructConcat(Flatten(child), BodyEvents([], rest), names);
    var first, more := StructOf(Flatten(child), names), StructOf(BodyEvents([], rest), names);
    AtParts(b, pos, first, more);
    NodeReads(b, names, pos, child);
    SumAligned(pos, |first|);
    BodyReads(b, names, pos + |first|, [], rest);
    NodeStarts(b, Joined(names), pos);
    assert [child] + rest == children;
  }

  lemma ChildrenUncons(children: seq<Node>)
    requires children != []
    ensures BodyEvents([], children) == Flatten(children[0]) + BodyEvents([], children[1..])
  {
    hide Flatten;
  }

  /** A node is only ever parsed at a begin-node token. */
  lemma NodeStarts(b: Bytes, strings: Bytes, pos: nat)
    requires ParseNode(b, strings, pos).Parsed?
    ensures pos % 4 == 0 && pos + 4 <= |b| && Word(b, pos) == FDT_BEGIN_NODE
  {
    hide Word, CString, ParseBody;
  }

  lemma {:induction false} NodeReads(b: Bytes, names: seq<Bytes>, pos: nat, n: Node)
    requires pos % 4 == 0 && NodeOk(n, names) && At(b, pos, StructOf(Flatten(n), names))
    ensures Reads(ParseNode(b, Joined(names), pos), n, pos, StructOf(Flatten(n), names))
    decreases n, 0
  {
    hide Word, CString, OffsetIn, Joined, EncodeEvent, StructOf, Align4, ParseBody, NodesOk, PropOk, At, FlattenAll;
    assert Flatten(n) == [Begin(n.name)] + BodyEvents(n.props, n.children);
    StructCons(Begin(n.name), BodyEvents(n.props, n.children), names);
    var first, body := EncodeEvent(Begin(n.name), names), StructOf(BodyEvents(n.props, n.children), names);
    AtParts(b, pos, first, body);
    BeginParses(b, names, pos, n.name);
    BodyReads(b, names, pos + |first|, n.props, n.children);
    AtFits(b, pos + |first|, body);
  }

  // ---- The blob ---------------------------------------------------------------------------------------------------

  /** No name in the tree contains a NUL. */
  ghost predicate CleanNames(n: Node)
    decreases n, 0
  {
    NulFree(n.name) && (forall k :: 0 <= k < |n.props| ==> NulFree(n.props[k].name)) && CleanAll(n.children)
  }

  ghost predicate CleanAll(ns: seq<Node>)
    decreases ns
  {
    ns != [] ==> CleanNames(ns[0]) && CleanAll(ns[1..])
  }

  ghost predicate EventFits(e: Event, names: seq<Bytes>) {
    e.Prop? ==> e.name in names && |e.value| < TWO_32 && OffsetIn(names, e.name) < TWO_32
  }

  ghost predicate EventsFit(es: seq<Event>, names: seq<Bytes>) {
    forall e :: e in es ==> EventFits(e, names)
  }

  lemma PropsFit(ps: seq<Property>, names: seq<Bytes>)
    requires EventsFit(PropEvents(ps), names) && forall k :: 0 <= k < |ps| ==> NulFree(ps[k].name)
    ensures PropsOk(ps, names)
  {
    hide NulFree, EventFits, PropOk;
    forall k | 0 <= k < |ps|
      ensures PropOk(ps[k], names)
    {
      assert PropEvents(ps)[k] == Prop(ps[k].name, ps[k].value);
      FitsProp(ps[k], names);
    }
  }

  lemma FitsProp(p: Property, names: seq<Bytes>)
    requires EventFits(Prop(p.name, p.value), names) && NulFree(p.name)
    ensures PropOk(p, names)
  {
  }

  lemma {:induction false} NodeFits(n: Node, names: seq<Bytes>)
    requires CleanNames(n) && EventsFit(Flatten(n), names)
    ensures NodeOk(n, names)
    decreases n, 0
  {
    hide NulFree, EventFits, PropsOk;
    var a, b := PropEvents(n.props), FlattenAll(n.children);
    forall e | e in a || e in b
      ensures EventFits(e, names)
    {
      assert e in Flatten(n);
    }
    PropsFit(n.props, names);
    NodesFit(n.children, names);
  }

  lemma {:induction false} NodesFit(ns: seq<Node>, names: seq<Bytes>)
    requires CleanAll(ns) && EventsFit(FlattenAll(ns), names)
    ensures NodesOk(ns, names)
    decreases ns
  {
    hide EventFits, Flatten, CleanNames, NodeOk;
    if ns != [] {
      forall e | e in Flatten(ns[0]) || e in FlattenAll(ns[1..])
        ensures EventFits(e, names)
      {
        assert e in FlattenAll(ns);
      }
      NodeFits(ns[0], names);
      NodesFit(ns[1..], names);
    }
  }

  lemma {:induction false} ValuesFit(es: seq<Event>, names: seq<Bytes>, e: Event)
    requires e in es && e.Prop?
    ensures |e.value| <= |StructOf(es, names)|
    decreases |es|
  {
    hide Be32, OffsetIn;
    if es[0] != e {
      ValuesFit(es[1..], names, e);
    }
  }

  lemma {:induction false} OffsetsFit(names: seq<Bytes>, n: Bytes)
    requires n in names
    ensures OffsetIn(names, n) < |Joined(names)|
    decreases |names|
  {
    if names[0] != n {
      OffsetsFit(names[1..], n);
    }
  }

  lemma AllFit(n: Node)
    requires CleanNames(n) && |Blob(n)| < TWO_32
    ensures NodeOk(n, Names(Flatten(n)))
  {
    hide StructOf, Joined, Flatten, Names, OffsetIn, Header, CleanNames, NodeOk;
    var es, names := Flatten(n), Names(Flatten(n));
    forall e | e in es
      ensures EventFits(e, names)
    {
      if e.Prop? {
        var k :| 0 <= k < |es| && es[k] == e;
        NamesCover(es, k);
        ValuesFit(es, names, e);
        OffsetsFit(names, e.name);
      }
    }
    NodeFits(n, names);
  }

  /** Cells are big-endian words in order, and a 64-bit address and size are two cells each, high word first. */
  lemma {:induction false} CellsRead(values: seq<nat>, k: nat)
    requires k < |values| && values[k] < TWO_32
    ensures 4 * k + 4 <= |Cells(values)| == 4 * |values| && Word(Cells(values), 4 * k) == values[k]
    decreases |values|
  {
    hide Be32, Word;
    var last := |values| - 1;
    CellsLength(values[..last]);
    if k < last {
      CellsRead(values[..last], k);
      SameWord(Cells(values[..last]), Cells(values), 4 * k);
    } else {
      WordAt(Cells(values), 4 * last, values[last]);
    }
  }

  lemma SameWord(x: Bytes, y: Bytes, pos: nat)
    requires x <= y && pos + 4 <= |x|
    ensures Word(y, pos) == Word(x, pos)
  {
  }

  lemma RegReads(address: u64, size: u64)
    ensures var b := Reg64(address, size);
            && |b| == 16 && TWO_32 * Word(b, 0) + Word(b, 4) == address && TWO_32 * Word(b, 8) + Word(b, 12) == size
  {
    hide Be32, Word;
    var b := Reg64(address, size);
    var words := [address / TWO_32, address % TWO_32, size / TWO_32, size % TWO_32];
    LowWord(address);
    LowWord(size);
    forall k | 0 <= k < 4
      ensures Word(b, 4 * k) == words[k]
    {
      assert b[4 * k..4 * k + 4] == Be32(words[k]);
      WordAt(b, 4 * k, words[k]);
    }
    assert Word(b, 4 * 0) == words[0] && Word(b, 4 * 1) == words[1] && Word(b, 4 * 2) == words[2]
        && Word(b, 4 * 3) == words[3];
  }

  lemma LowWord(x: u64)
    ensures Be32(x) == Be32(x % TWO_32)
  {
  }

  /** The header fields of an assembled blob. */
  lemma HeaderReads(structs: Bytes, strings: Bytes)
    requires var b := Assembled(structs, strings); |b| < TWO_32
    ensures var b := Assembled(structs, strings);
            && |b| == 56 + |structs| + |strings|
            && Word(b, 0) == 0xD00D_FEED && Word(b, 4) == |b| && Word(b, 8) == 56 && Word(b, 12) == 56 + |structs|
            && Word(b, 16) == 40 && Word(b, 20) == 17 && Word(b, 24) == 16
            && Word(b, 28) == 0 && Word(b, 32) == |strings| && Word(b, 36) == |structs|
            && b[40..56] == Zeros(16) && b[56..56 + |structs|] == structs && b[56 + |structs|..] == strings
  {
    hide Be32, Word, Zeros;
    var b := Assembled(structs, strings);
    var fields := [FDT_MAGIC, |b|, 56, 56 + |structs|, 40, FDT_VERSION, FDT_LAST_COMP_VERSION, 0, |strings|, |structs|];
    forall k | 0 <= k < 10
      ensures Word(b, 4 * k) == fields[k]
    {
      assert b[4 * k..4 * k + 4] == Be32(fields[k]);
      WordAt(b, 4 * k, fields[k]);
    }
    assert Word(b, 4 * 0) == FDT_MAGIC && Word(b, 4 * 1) == |b| && Word(b, 4 * 2) == 56
        && Word(b, 4 * 3) == 56 + |structs|;
    assert Word(b, 4 * 4) == 40 && Word(b, 4 * 5) == FDT_VERSION && Word(b, 4 * 6) == FDT_LAST_COMP_VERSION;
    assert Word(b, 4 * 7) == 0 && Word(b, 4 * 8) == |strings| && Word(b, 4 * 9) == |structs|;
  }

  /** Devicetree round trip.  For every tree with NUL-free names whose blob is below 4 GiB, the reader gets
      back exactly the tree, with no reservations and boot CPU 0. */
  lemma RoundTrip(n: Node)
    requires CleanNames(n) && |Blob(n)| < TWO_32
    ensures Parse(Blob(n)) == Some(Tree([], 0, n))
  {
    hide StructOf, Joined, Flatten, Names, OffsetIn, Header, CleanNames, NodeOk, Word, Be32, Zeros, ParseNode, At;
    AllFit(n);
    var es, names := Flatten(n), Names(Flatten(n));
    var body := StructOf(es, names);
    var structs, strings := body + Be32(FDT_END), Joined(names);
    var b := Blob(n);
    HeaderReads(structs, strings);
    AtStart(body, Be32(FDT_END));
    NodeReads(structs, names, 0, n);
    WordAt(structs, |body|, FDT_END);
    assert b[Word(b, 8)..Word(b, 8) + Word(b, 36)] == structs;
    assert b[Word(b, 12)..Word(b, 12) + Word(b, 32)] == strings;
    assert ParseReservations(b, 40) == Some([]);
  }

  lemma AtStart(x: Bytes, y: Bytes)
    ensures At(x + y, 0, x) && At(x + y, |x|, y)
  {
  }
}
