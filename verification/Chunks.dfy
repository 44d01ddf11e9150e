/** Ethernet frames cut into chunks for datagrams, and their reassembly in any order of arrival. */
module Chunks {
  import opened Base

  type Bytes = seq<u8>
  type u16 = x: int | 0 <= x < 0x1_0000

  const MSG_TYPE_DATA: u8 := 1
  const MSG_TYPE_CHUNKED: u8 := 2
  const MAX_CHUNK_PAYLOAD: nat := 900
  const CHUNK_THRESHOLD: nat := 950

  /** Frames above the threshold whose chunks can be numbered with one byte. */
  predicate Chunkable(frame: Bytes) {
    CHUNK_THRESHOLD < |frame| <= 229_500
  }

  // ---- Encoding --------------------------------------------------------------------------------------------

  function TotalChunks(len: nat): nat {
    (len + MAX_CHUNK_PAYLOAD - 1) / MAX_CHUNK_PAYLOAD
  }

  /** One byte can count the chunks of exactly the frames up to 229500 bytes. */
  lemma TotalFits(len: nat)
    ensures TotalChunks(len) < 256 <==> len <= 229_500
    ensures len > 0 ==> 0 < TotalChunks(len) && 900 * (TotalChunks(len) - 1) < len <= 900 * TotalChunks(len)
  {
  }

  /** The `i`-th run of 900 bytes; the last one may be shorter. */
  function Payload(frame: Bytes, i: nat): Bytes
    requires i < TotalChunks(|frame|)
  {
    TotalFits(|frame|);
    frame[900 * i..Min(900 * (i + 1), |frame|)]
  }

  /** Type, identifier in network order, index, count, payload. */
  function Message(frame: Bytes, id: u16, i: nat): Bytes
    requires i < TotalChunks(|frame|)
  {
    [MSG_TYPE_CHUNKED, id / 0x100, id % 0x100, i % 0x100, TotalChunks(|frame|) % 0x100] + Payload(frame, i)
  }

  function Messages(frame: Bytes, id: u16): (m: seq<Bytes>)
    ensures |m| == TotalChunks(|frame|)
  {
    seq(TotalChunks(|frame|), i requires 0 <= i < TotalChunks(|frame|) => Message(frame, id, i))
  }

  method EncodeChunkedFrame(frame: Bytes, id: u16) returns (messages: seq<Bytes>)
    ensures messages == Messages(frame, id)
  {
    hide TotalChunks, Message, Payload;
    var total := TotalChunks(|frame|);
    messages := [];
    var i := 0;
    while 900 * i < |frame|
      invariant i <= total
      invariant |messages| == i && forall j :: 0 <= j < i ==> messages[j] == Message(frame, id, j)
    {
      ChunkAt(frame, id, i);
      var chunk := frame[900 * i..Min(900 * (i + 1), |frame|)];
      messages := messages + [[MSG_TYPE_CHUNKED, id / 0x100, id % 0x100, i % 0x100, total % 0x100] + chunk];
      i := i + 1;
    }
    AllChunks(frame, i);
  }

  /** While bytes are left there is another chunk, and it is the next 900 bytes. */
  lemma ChunkAt(frame: Bytes, id: u16, i: nat)
    requires 900 * i < |frame|
    ensures i < TotalChunks(|frame|)
    ensures Message(frame, id, i) == [MSG_TYPE_CHUNKED, id / 0x100, id % 0x100, i % 0x100, TotalChunks(|frame|) % 0x100]
                                     + frame[900 * i..Min(900 * (i + 1), |frame|)]
  {
    TotalFits(|frame|);
  }

  /** When no bytes are left all chunks have been made. */
  lemma AllChunks(frame: Bytes, i: nat)
    requires i <= TotalChunks(|frame|) && |frame| <= 900 * i
    ensures i == TotalChunks(|frame|)
  {
    TotalFits(|frame|);
  }

  /** Large frames take the next identifier, small ones are sent whole. */
  method EncodeFrameSmart(frame: Bytes, counter: u16) returns (messages: seq<Bytes>, next: u16)
    ensures |frame| > 950 ==> messages == Messages(frame, counter) && next == (counter + 1) % 0x1_0000
    ensures |frame| <= 950 ==> messages == [[1] + frame] && next == counter
  {
    if |frame| > CHUNK_THRESHOLD {
      messages := EncodeChunkedFrame(frame, counter);
      next := (counter + 1) % 0x1_0000;
    } else {
      messages, next := [[MSG_TYPE_DATA] + frame], counter;
    }
  }

  // ---- Decoding ---------------------------------------------------------------------------------------------

  datatype ChunkInfo = ChunkInfo(id: u16, index: u8, total: u8, payload: Bytes)

  function DecodeChunk(data: Bytes): Option<ChunkInfo> {
    if |data| < 5 || data[0] != MSG_TYPE_CHUNKED then None
    else Some(ChunkInfo(FromBytes(data[1], data[2]), data[3], data[4], data[5..]))
  }

  /** `u16::from_be_bytes` */
  function FromBytes(high: u8, low: u8): u16 {
    var h: nat := high;
    0x100 * h + low
  }

  lemma DecodeMessage(frame: Bytes, id: u16, i: nat)
    requires Chunkable(frame) && i < TotalChunks(|frame|)
    ensures DecodeChunk(Message(frame, id, i)) == Some(ChunkInfo(id, i, TotalChunks(|frame|), Payload(frame, i)))
  {
    hide Payload, TotalChunks;
    TotalFits(|frame|);
    assert 0x100 * (id / 0x100) + id % 0x100 == id;
  }

  /** A message on the wire: type 2, the identifier high byte first, the index, the count, and up to 900 bytes of the
      frame from 900 * i on. */
  lemma MessageBytes(frame: Bytes, id: u16, i: nat)
    requires 0 < |frame| <= 229_500 && 900 * i < |frame|
    ensures i < TotalChunks(|frame|)
    ensures var m := Message(frame, id, i);
            && |m| == 5 + Min(900, |frame| - 900 * i)
            && m[0] == 2 && FromBytes(m[1], m[2]) == id && m[3] == i
            && (var total: nat := m[4]; 900 * (total - 1) < |frame| <= 900 * total)
            && m[5..] == frame[900 * i..900 * i + |m| - 5]
  {
    TotalFits(|frame|);
    hide TotalChunks;
    assert 0x100 * (id / 0x100) + id % 0x100 == id;
  }

  // ---- Reassembly -------------------------------------------------------------------------------------------

  datatype Entry = Entry(parts: seq<Option<Bytes>>, total: nat, received: nat)

  type Buffer = map<u16, Entry>

  function Fresh(total: u8): Entry {
    Entry(seq(total, _ => None), total, 0)
  }

  /** The parts one after the other, missing ones skipped. */
  function Joined(parts: seq<Option<Bytes>>): Bytes
    decreases |parts|
  {
    if parts == [] then []
    else
      var last := parts[|parts| - 1];
      Joined(parts[..|parts| - 1]) + (if last.Some? then last.value else [])
  }

  datatype Received = Received(buffer: Buffer, frame: Option<Bytes>)

  /** What a datagram does: keep a new part, and hand the frame over when the last one is in. */
  function Receive(b: Buffer, data: Bytes): Received {
    match DecodeChunk(data)
    case None => Received(b, if |data| > 0 && data[0] == MSG_TYPE_DATA then Some(data[1..]) else None)
    case Some(c) =>
      var e := if c.id in b then b[c.id] else Fresh(c.total);
      if c.index < |e.parts| && e.parts[c.index].None? then
        var n := Entry(e.parts[c.index := Some(c.payload)], e.total, e.received + 1);
        if n.received == n.total then Received(b - {c.id}, Some(Joined(n.parts))) else Received(b[c.id := n], None)
      else Received(b[c.id := e], None)
  }

  class Reassembler {
    var chunkBuffer: Buffer

    constructor ()
      ensures chunkBuffer == map[]
    {
      chunkBuffer := map[];
    }

    method OnDatagram(data: Bytes) returns (frame: Option<Bytes>)
      modifies this
      ensures Received(chunkBuffer, frame) == Receive(old(chunkBuffer), data)
    {
      hide DecodeChunk, Joined;
      var chunk := DecodeChunk(data);
      if chunk.None? {
        return if |data| > 0 && data[0] == MSG_TYPE_DATA then Some(data[1..]) else None;
      }
      var c := chunk.value;
      if c.id !in chunkBuffer {
        chunkBuffer := chunkBuffer[c.id := Fresh(c.total)];
      }
      var e := chunkBuffer[c.id];
      frame := None;
      if c.index < |e.parts| && e.parts[c.index].None? {
        e := Entry(e.parts[c.index := Some(c.payload)], e.total, e.received + 1);
        chunkBuffer := chunkBuffer[c.id := e];
        if e.received == e.total {
          var complete := Reassemble(e.parts);
          assert chunkBuffer - {c.id} == old(chunkBuffer) - {c.id};
          chunkBuffer := chunkBuffer - {c.id};
          frame := Some(complete);
        }
      }
    }

    method Reassemble(parts: seq<Option<Bytes>>) returns (complete: Bytes)
      ensures complete == Joined(parts)
    {
      complete := [];
      for k := 0 to |parts|
        invariant complete == Joined(parts[..k])
      {
        assert parts[..k + 1][..k] == parts[..k];
        if parts[k].Some? {
          complete := complete + parts[k].value;
        }
      }
      assert parts[..|parts|] == parts;
    }
  }

  // ---- Runs --------------------------------------------------------------------------------------------------

  /** The frames in flight, by identifier; identifiers are distinct because they are keys. */
  type Frames = map<u16, Bytes>

  ghost predicate AllChunkable(frames: Frames) {
    forall id :: id in frames ==> Chunkable(frames[id])
  }

  /** Chunk `index` of frame `id` arriving, or a small frame sent whole. */
  datatype Delivery = Chunk(id: u16, index: nat) | Whole(frame: Bytes)

  ghost predicate DeliveryOk(frames: Frames, d: Delivery) {
    d.Chunk? ==> d.id in frames && d.index < TotalChunks(|frames[d.id]|)
  }

  ghost predicate DeliveriesOk(frames: Frames, ds: seq<Delivery>) {
    forall k :: 0 <= k < |ds| ==> DeliveryOk(frames, ds[k])
  }

  function Datagram(frames: Frames, d: Delivery): Bytes
    requires DeliveryOk(frames, d)
  {
    match d
    case Chunk(id, index) => Message(frames[id], id, index)
    case Whole(frame) => [MSG_TYPE_DATA] + frame
  }

  /** A frame handed over on the arrival of a chunk of `id`. */
  datatype Emission = Emission(cause: Delivery, frame: Bytes)

  datatype Progress = Progress(buffer: Buffer, emitted: seq<Emission>)

  function Run(frames: Frames, ds: seq<Delivery>): Progress
    requires DeliveriesOk(frames, ds)
    decreases |ds|
  {
    if ds == [] then Progress(map[], [])
    else
      var last := ds[|ds| - 1];
      var before := Run(frames, ds[..|ds| - 1]);
      var r := Receive(before.buffer, Datagram(frames, last));
      Progress(r.buffer, before.emitted + (if r.frame.Some? then [Emission(last, r.frame.value)] else []))
  }

  // ---- Invariant --------------------------------------------------------------------------------------------

  function CountSome(parts: seq<Option<Bytes>>): (n: nat)
    ensures n <= |parts|
    decreases |parts|
  {
    if parts == [] then 0 else CountSome(parts[..|parts| - 1]) + (if parts[|parts| - 1].Some? then 1 else 0)
  }

  lemma {:induction false} CountUpdate(parts: seq<Option<Bytes>>, i: nat, p: Bytes)
    requires i < |parts| && parts[i].None?
    ensures CountSome(parts[i := Some(p)]) == CountSome(parts) + 1
    decreases |parts|
  {
    var q := parts[i := Some(p)];
    if i < |parts| - 1 {
      assert q[..|q| - 1] == parts[..|parts| - 1][i := Some(p)];
      CountUpdate(parts[..|parts| - 1], i, p);
    } else {
      assert q[..|q| - 1] == parts[..|parts| - 1];
    }
  }

  lemma {:induction false} CountFull(parts: seq<Option<Bytes>>)
    ensures CountSome(parts) == |parts| <==> forall i :: 0 <= i < |parts| ==> parts[i].Some?
    decreases |parts|
  {
    if parts != [] {
      CountFull(parts[..|parts| - 1]);
      assert forall i :: 0 <= i < |parts| - 1 ==> parts[..|parts| - 1][i] == parts[i];
    }
  }

  lemma {:induction false} CountNone(n: nat)
    ensures CountSome(seq(n, _ => None)) == 0
    decreases n
  {
    if n > 0 {
      var s: seq<Option<Bytes>> := seq(n, _ => None);
      assert s[..n - 1] == seq(n - 1, _ => None);
      CountNone(n - 1);
    }
  }

  /** Parts hold the right payloads and are counted right. */
  ghost predicate EntryOk(f: Bytes, e: Entry) {
    && e.total == TotalChunks(|f|) == |e.parts| && e.received == CountSome(e.parts) < e.total
    && forall i :: 0 <= i < |e.parts| && e.parts[i].Some? ==> e.parts[i].value == Payload(f, i)
  }

  ghost predicate BufferOk(frames: Frames, b: Buffer) {
    forall id :: id in b ==> id in frames && EntryOk(frames[id], b[id])
  }

  /** All the payloads in order are the frame. */
  lemma {:induction false} PayloadsJoin(f: Bytes, parts: seq<Option<Bytes>>, n: nat)
    requires |parts| == n <= TotalChunks(|f|)
    requires forall i :: 0 <= i < n ==> parts[i] == Some(Payload(f, i))
    ensures Joined(parts) == f[..Min(900 * n, |f|)]
    decreases n
  {
    TotalFits(|f|);
    if n > 0 {
      PayloadsJoin(f, parts[..n - 1], n - 1);
      var a, b := 900 * (n - 1), Min(900 * n, |f|);
      assert f[..a] + f[a..b] == f[..b];
    }
  }

  lemma CompleteIsFrame(f: Bytes, parts: seq<Option<Bytes>>)
    requires |parts| == TotalChunks(|f|) && CountSome(parts) == |parts|
    requires forall i :: 0 <= i < |parts| && parts[i].Some? ==> parts[i].value == Payload(f, i)
    ensures Joined(parts) == f
  {
    CountFull(parts);
    TotalFits(|f|);
    PayloadsJoin(f, parts, |parts|);
    assert f[..|f|] == f;
  }

  lemma FreshOk(f: Bytes)
    requires Chunkable(f)
    ensures TotalChunks(|f|) < 256 && EntryOk(f, Fresh(TotalChunks(|f|)))
  {
    TotalFits(|f|);
    CountNone(TotalChunks(|f|));
  }

  /** One chunk on an entry in order. */
  lemma EntryStep(f: Bytes, e: Entry, i: nat)
    requires EntryOk(f, e) && i < |e.parts| && e.parts[i].None?
    ensures var n := Entry(e.parts[i := Some(Payload(f, i))], e.total, e.received + 1);
            if n.received == n.total then Joined(n.parts) == f else EntryOk(f, n)
  {
    hide Payload;
    CountUpdate(e.parts, i, Payload(f, i));
    var parts := e.parts[i := Some(Payload(f, i))];
    if e.received + 1 == e.total {
      CompleteIsFrame(f, parts);
    }
  }

  lemma ReceiveOk(frames: Frames, b: Buffer, d: Delivery)
    requires AllChunkable(frames) && BufferOk(frames, b) && DeliveryOk(frames, d)
    ensures var r := Receive(b, Datagram(frames, d));
            && BufferOk(frames, r.buffer)
            && (r.frame.Some? ==>
                  match d
                  case Chunk(id, _) => r.frame.value == frames[id]
                  case Whole(frame) => r.frame.value == frame)
  {
    hide EntryOk, Payload, TotalChunks, Message, Chunkable, Fresh, Joined;
    if d.Chunk? {
      var f := frames[d.id];
      DecodeMessage(f, d.id, d.index);
      FreshOk(f);
      EntryShape(f, if d.id in b then b[d.id] else Fresh(TotalChunks(|f|)));
      var e := if d.id in b then b[d.id] else Fresh(TotalChunks(|f|));
      if e.parts[d.index].None? {
        EntryStep(f, e, d.index);
      }
    }
  }

  lemma EntryShape(f: Bytes, e: Entry)
    requires EntryOk(f, e)
    ensures |e.parts| == TotalChunks(|f|) == e.total
  {
  }

  lemma {:induction false} RunOk(frames: Frames, ds: seq<Delivery>)
    requires AllChunkable(frames) && DeliveriesOk(frames, ds)
    ensures BufferOk(frames, Run(frames, ds).buffer)
    ensures forall k :: 0 <= k < |Run(frames, ds).emitted| ==> EmissionOk(frames, Run(frames, ds).emitted[k])
    decreases |ds|
  {
    hide Receive, BufferOk, Datagram, DeliveryOk, AllChunkable, EmissionOk;
    if ds != [] {
      RunOk(frames, ds[..|ds| - 1]);
      var last := ds[|ds| - 1];
      var before := Run(frames, ds[..|ds| - 1]);
      ReceiveOk(frames, before.buffer, last);
      EmitsRight(frames, before.buffer, last);
    } else {
      NothingBuffered(frames);
    }
  }

  lemma NothingBuffered(frames: Frames)
    ensures BufferOk(frames, map[])
  {
  }

  ghost predicate EmissionOk(frames: Frames, e: Emission) {
    match e.cause
    case Chunk(id, _) => id in frames && e.frame == frames[id]
    case Whole(frame) => e.frame == frame
  }

  lemma EmitsRight(frames: Frames, b: Buffer, d: Delivery)
    requires AllChunkable(frames) && BufferOk(frames, b) && DeliveryOk(frames, d)
    ensures var r := Receive(b, Datagram(frames, d)); r.frame.Some? ==> EmissionOk(frames, Emission(d, r.frame.value))
  {
    hide Receive, BufferOk, Datagram, AllChunkable;
    ReceiveOk(frames, b, d);
  }

  /** Only frames that were sent come out, whatever the order, loss, duplication and mixing of chunks. */
  lemma OnlySentFrames(frames: Frames, ds: seq<Delivery>, k: nat)
    requires AllChunkable(frames) && DeliveriesOk(frames, ds) && k < |Run(frames, ds).emitted|
    ensures var e := Run(frames, ds).emitted[k];
            (exists id :: id in frames && e.frame == frames[id])
                || (exists j :: 0 <= j < |ds| && ds[j] == Whole(e.frame))
  {
    RunOk(frames, ds);
    var e := Run(frames, ds).emitted[k];
    EmittedBy(frames, ds, k);
    hide Run;
    match e.cause
    case Chunk(id, _) =>
      assert id in frames && e.frame == frames[id];
    case Whole(frame) =>
  }

  lemma {:induction false} EmittedBy(frames: Frames, ds: seq<Delivery>, k: nat)
    requires DeliveriesOk(frames, ds) && k < |Run(frames, ds).emitted|
    ensures exists j :: 0 <= j < |ds| && ds[j] == Run(frames, ds).emitted[k].cause
    decreases |ds|
  {
    hide Receive, Datagram, DeliveryOk;
    var before := Run(frames, ds[..|ds| - 1]);
    if k < |before.emitted| {
      EmittedBy(frames, ds[..|ds| - 1], k);
      var j :| 0 <= j < |ds| - 1 && ds[..|ds| - 1][j] == before.emitted[k].cause;
      assert ds[j] == Run(frames, ds).emitted[k].cause;
    } else {
      assert ds[|ds| - 1] == Run(frames, ds).emitted[k].cause;
    }
  }

  // ---- Exactly once -----------------------------------------------------------------------------------------

  /** Has chunk `i` of frame `id` arrived? */
  ghost predicate Arrived(ds: seq<Delivery>, id: u16, i: nat) {
    exists k :: 0 <= k < |ds| && ds[k] == Chunk(id, i)
  }

  ghost predicate Complete(frames: Frames, ds: seq<Delivery>, id: u16)
    requires id in frames
  {
    forall i: nat :: i < TotalChunks(|frames[id]|) ==> Arrived(ds, id, i)
  }

  /** No chunk of `id` is delivered once all of them have arrived. */
  ghost predicate NoneAfterCompletion(frames: Frames, ds: seq<Delivery>, id: u16)
    requires id in frames
  {
    forall k :: 0 <= k < |ds| && ds[k].Chunk? && ds[k].id == id ==> !Complete(frames, ds[..k], id)
  }

  /** How often a chunk of `id` caused a frame to be handed over. */
  function EmissionsOf(es: seq<Emission>, id: u16): nat
    decreases |es|
  {
    if es == [] then 0
    else
      var last := es[|es| - 1].cause;
      EmissionsOf(es[..|es| - 1], id) + (if last.Chunk? && last.id == id then 1 else 0)
  }

  /** The entry of `id` mirrors what has arrived; after completion it is gone. */
  ghost predicate Mirrors(frames: Frames, ds: seq<Delivery>, b: Buffer, id: u16)
    requires id in frames
  {
    var f := frames[id];
    if Complete(frames, ds, id) then id !in b
    else
      && (id in b ==> |b[id].parts| == TotalChunks(|f|)
                      && forall i: nat :: i < TotalChunks(|f|) ==> (b[id].parts[i].Some? <==> Arrived(ds, id, i)))
      && (id !in b ==> forall i: nat :: i < TotalChunks(|f|) ==> !Arrived(ds, id, i))
  }

  lemma ArrivedStep(ds: seq<Delivery>, d: Delivery, id: u16, i: nat)
    ensures Arrived(ds + [d], id, i) <==> Arrived(ds, id, i) || d == Chunk(id, i)
  {
    if d == Chunk(id, i) {
      assert (ds + [d])[|ds|] == Chunk(id, i);
    }
    if Arrived(ds, id, i) {
      var k :| 0 <= k < |ds| && ds[k] == Chunk(id, i);
      assert (ds + [d])[k] == Chunk(id, i);
    }
    if Arrived(ds + [d], id, i) && d != Chunk(id, i) {
      var k :| 0 <= k < |ds + [d]| && (ds + [d])[k] == Chunk(id, i);
      assert k < |ds| && ds[k] == Chunk(id, i);
    }
  }

  /** Deliveries for other frames change nothing for `id`. */
  lemma OtherDelivery(frames: Frames, ds: seq<Delivery>, b: Buffer, d: Delivery, id: u16)
    requires AllChunkable(frames) && BufferOk(frames, b) && DeliveryOk(frames, d) && id in frames
    requires Mirrors(frames, ds, b, id) && !(d.Chunk? && d.id == id)
    ensures Mirrors(frames, ds + [d], Receive(b, Datagram(frames, d)).buffer, id)
    ensures Complete(frames, ds + [d], id) <==> Complete(frames, ds, id)
  {
    hide EntryOk, Payload, TotalChunks, Message, Fresh, Joined, Arrived, Chunkable;
    forall i: nat
      ensures Arrived(ds + [d], id, i) <==> Arrived(ds, id, i)
    {
      ArrivedStep(ds, d, id, i);
    }
    if d.Chunk? {
      DecodeMessage(frames[d.id], d.id, d.index);
      EntryFor(frames, b, d.id);
    }
  }

  /** The entry a chunk meets: buffered or fresh, and in order either way. */
  lemma EntryFor(frames: Frames, b: Buffer, id: u16)
    requires AllChunkable(frames) && BufferOk(frames, b) && id in frames
    ensures var f := frames[id];
            && TotalChunks(|f|) < 256
            && var e := if id in b then b[id] else Fresh(TotalChunks(|f|));
               EntryOk(f, e) && |e.parts| == e.total == TotalChunks(|f|)
  {
    hide TotalChunks, Payload, Fresh, Chunkable;
    FreshOk(frames[id]);
  }

  lemma FreshParts(total: u8)
    ensures |Fresh(total).parts| == total && forall i :: 0 <= i < total ==> Fresh(total).parts[i].None?
  {
  }

  /** A delivery for `id` before completion: it completes the frame exactly if it brings the last missing
      chunk, and exactly then the frame is handed over. */
  lemma OwnDelivery(frames: Frames, ds: seq<Delivery>, b: Buffer, id: u16, i: nat)
    requires AllChunkable(frames) && BufferOk(frames, b) && id in frames && i < TotalChunks(|frames[id]|)
    requires Mirrors(frames, ds, b, id) && !Complete(frames, ds, id)
    ensures var r := Receive(b, Message(frames[id], id, i));
            && Mirrors(frames, ds + [Chunk(id, i)], r.buffer, id)
            && (r.frame.Some? <==> Complete(frames, ds + [Chunk(id, i)], id))
  {
    hide Payload, TotalChunks, Message, Fresh, Joined, Arrived, Chunkable, CountSome;
    var f, d := frames[id], Chunk(id, i);
    forall j: nat
      ensures Arrived(ds + [d], id, j) <==> Arrived(ds, id, j) || j == i
    {
      ArrivedStep(ds, d, id, j);
    }
    DecodeMessage(f, id, i);
    EntryFor(frames, b, id);
    FreshParts(TotalChunks(|f|));
    var e := if id in b then b[id] else Fresh(TotalChunks(|f|));
    assert forall j: nat :: j < TotalChunks(|f|) ==> (e.parts[j].Some? <==> Arrived(ds, id, j));
    if e.parts[i].None? {
      var parts := e.parts[i := Some(Payload(f, i))];
      CountUpdate(e.parts, i, Payload(f, i));
      CountFull(parts);
      assert forall j: nat :: j < TotalChunks(|f|) ==> (parts[j].Some? <==> Arrived(ds + [d], id, j));
    } else {
      assert forall j: nat :: j < TotalChunks(|f|) ==> (Arrived(ds + [d], id, j) <==> Arrived(ds, id, j));
    }
  }

  lemma {:induction false} RunMirrors(frames: Frames, ds: seq<Delivery>, id: u16)
    requires AllChunkable(frames) && DeliveriesOk(frames, ds) && id in frames && NoneAfterCompletion(frames, ds, id)
    ensures Mirrors(frames, ds, Run(frames, ds).buffer, id)
    ensures EmissionsOf(Run(frames, ds).emitted, id) == if Complete(frames, ds, id) then 1 else 0
    decreases |ds|
  {
    hide Receive, BufferOk, AllChunkable, Arrived, Mirrors, Complete, Message, TotalChunks, EmissionsOf;
    if ds == [] {
      NothingYet(frames, id);
      NoEmissions(id);
    } else {
      var before, last := ds[..|ds| - 1], ds[|ds| - 1];
      assert ds == before + [last];
      assert forall k :: 0 <= k < |before| ==> before[..k] == ds[..k];
      RunMirrors(frames, before, id);
      RunOk(frames, before);
      var p := Run(frames, before);
      var r := Receive(p.buffer, Datagram(frames, last));
      if r.frame.Some? {
        EmissionsStep(p.emitted, Emission(last, r.frame.value), id);
      } else {
        assert p.emitted + [] == p.emitted;
      }
      if last.Chunk? && last.id == id {
        assert !Complete(frames, ds[..|ds| - 1], id);
        OwnDelivery(frames, before, p.buffer, id, last.index);
      } else {
        OtherDelivery(frames, before, p.buffer, last, id);
      }
    }
  }

  lemma NoEmissions(id: u16)
    ensures EmissionsOf([], id) == 0
  {
  }

  lemma EmissionsStep(es: seq<Emission>, e: Emission, id: u16)
    ensures EmissionsOf(es + [e], id) == EmissionsOf(es, id) + if e.cause.Chunk? && e.cause.id == id then 1 else 0
  {
    assert (es + [e])[..|es|] == es;
  }

  lemma NothingYet(frames: Frames, id: u16)
    requires AllChunkable(frames) && id in frames
    ensures Mirrors(frames, [], map[], id) && !Complete(frames, [], id)
  {
    hide Chunkable;
    assert Chunkable(frames[id]);
    SomeChunk(frames[id]);
    assert !Arrived([], id, 0);
  }

  lemma SomeChunk(f: Bytes)
    requires Chunkable(f)
    ensures TotalChunks(|f|) > 0
  {
  }

  /** Chunk reassembly: if no chunk of a frame comes again after the frame is complete, the frame is handed
      over exactly once when all its chunks arrive, and not at all otherwise, whatever else arrives and in
      whatever order. */
  lemma ExactlyOnce(frames: Frames, ds: seq<Delivery>, id: u16)
    requires AllChunkable(frames) && DeliveriesOk(frames, ds) && id in frames && NoneAfterCompletion(frames, ds, id)
    ensures EmissionsOf(Run(frames, ds).emitted, id) == if Complete(frames, ds, id) then 1 else 0
    ensures forall k :: 0 <= k < |Run(frames, ds).emitted| ==>
              var e := Run(frames, ds).emitted[k]; e.cause.Chunk? && e.cause.id == id ==> e.frame == frames[id]
  {
    hide Run, Complete, AllChunkable, NoneAfterCompletion, DeliveryOk;
    RunMirrors(frames, ds, id);
    RunOk(frames, ds);
    assert forall k :: 0 <= k < |Run(frames, ds).emitted| ==> EmissionOk(frames, Run(frames, ds).emitted[k]);
  }
}
