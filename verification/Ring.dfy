/** The shared-memory UART ring: one producer and one consumer exchanging bytes through two index words. */
module Ring {
  import opened Base

  const CAPACITY: nat := 4088

  type Buffer = b: seq<u8> | |b| == CAPACITY witness seq(CAPACITY, _ => 0)

  type Index = i: nat | i < CAPACITY

  /** The shared words: buffer, next slot to write, next slot to read. */
  datatype Shared = Shared(buf: Buffer, write: Index, read: Index)

  function Next(i: Index): Index {
    (i + 1) % CAPACITY
  }

  // ---- Single bytes ------------------------------------------------------------------------------------------

  datatype Wrote = Wrote(s: Shared, ok: bool)

  function WriteByte(s: Shared, b: u8): Wrote {
    if Next(s.write) == s.read then Wrote(s, false)
    else Wrote(s.(buf := s.buf[s.write := b], write := Next(s.write)), true)
  }

  datatype Got = Got(s: Shared, byte: Option<u8>)

  function ReadByte(s: Shared): Got {
    if s.write == s.read then Got(s, None) else Got(s.(read := Next(s.read)), Some(s.buf[s.read]))
  }

  // ---- Batches ---------------------------------------------------------------------------------------------------

  /** Free slots as `write_bytes` computes them; one slot always stays empty. */
  function Available(write: Index, read: Index): (n: nat)
    ensures n < CAPACITY
  {
    if write >= read then CAPACITY - (write - read) - 1 else read - write - 1
  }

  /** Unread bytes as `read_bytes` computes them. */
  function Unread(write: Index, read: Index): (n: nat)
    ensures n < CAPACITY
  {
    if write >= read then write - read else CAPACITY - read + write
  }

  /** `buf` with `bytes` put at `at` and the slots after it. */
  function Filled(buf: Buffer, at: Index, bytes: seq<u8>): Buffer
    decreases |bytes|
  {
    if bytes == [] then buf else Filled(buf[at := bytes[0]], Next(at), bytes[1..])
  }

  function Advanced(i: Index, n: nat): Index
    decreases n
  {
    if n == 0 then i else Advanced(Next(i), n - 1)
  }

  /** The `n` bytes from slot `at` on. */
  function Slots(buf: Buffer, at: Index, n: nat): (r: seq<u8>)
    ensures |r| == n
    decreases n
  {
    if n == 0 then [] else [buf[at]] + Slots(buf, Next(at), n - 1)
  }

  datatype WroteMany = WroteMany(s: Shared, count: nat)

  function WriteBytes(s: Shared, bytes: seq<u8>): WroteMany {
    var n := Min(|bytes|, Available(s.write, s.read));
    WroteMany(s.(buf := Filled(s.buf, s.write, bytes[..n]), write := Advanced(s.write, n)), n)
  }

  datatype GotMany = GotMany(s: Shared, bytes: seq<u8>)

  function ReadBytes(s: Shared, max: nat): GotMany {
    var n := Min(Unread(s.write, s.read), max);
    GotMany(s.(read := Advanced(s.read, n)), Slots(s.buf, s.read, n))
  }

  // ---- Batches refine single bytes ----------------------------------------------------------------------------------

  /** Offering the bytes one by one. */
  function WriteEach(s: Shared, bytes: seq<u8>): WroteMany
    decreases |bytes|
  {
    if bytes == [] then WroteMany(s, 0)
    else
      var w := WriteByte(s, bytes[0]);
      var rest := WriteEach(w.s, bytes[1..]);
      rest.(count := rest.count + if w.ok then 1 else 0)
  }

  /** Asking for a byte `max` times. */
  function ReadEach(s: Shared, max: nat): GotMany
    decreases max
  {
    if max == 0 then GotMany(s, [])
    else
      var g := ReadByte(s);
      var rest := ReadEach(g.s, max - 1);
      rest.(bytes := (if g.byte.Some? then [g.byte.value] else []) + rest.bytes)
  }

  lemma AvailableStep(write: Index, read: Index)
    ensures Available(write, read) == 0 <==> Next(write) == read
    ensures Available(write, read) > 0 ==> Available(Next(write), read) == Available(write, read) - 1
    ensures Available(write, read) + Unread(write, read) == CAPACITY - 1
    ensures Unread(write, read) == 0 <==> write == read
    ensures Unread(write, read) > 0 ==> Unread(write, Next(read)) == Unread(write, read) - 1
  {
  }

  /** A batch write accepts as many bytes as fit and leaves the ring, slot for slot, as that many single
      writes would; the single writes beyond them are refused. */
  lemma {:induction false} BatchWriteRefines(s: Shared, bytes: seq<u8>)
    ensures WriteBytes(s, bytes) == WriteEach(s, bytes)
    ensures WriteBytes(s, bytes).count == Min(|bytes|, CAPACITY - 1 - Unread(s.write, s.read))
    decreases |bytes|
  {
    AvailableStep(s.write, s.read);
    hide Next, Available, Unread;
    if bytes != [] {
      var w := WriteByte(s, bytes[0]);
      BatchWriteRefines(w.s, bytes[1..]);
      var n := Min(|bytes|, Available(s.write, s.read));
      if w.ok {
        assert bytes[..n][1..] == bytes[1..][..n - 1];
      } else {
        assert bytes[1..][..0] == bytes[..0] == [];
      }
    }
  }

  /** A batch read returns what that many single reads would, in order, and leaves the ring alike. */
  lemma {:induction false} BatchReadRefines(s: Shared, max: nat)
    ensures ReadBytes(s, max) == ReadEach(s, max)
    decreases max
  {
    AvailableStep(s.write, s.read);
    hide Next, Available, Unread;
    if max > 0 {
      BatchReadRefines(ReadByte(s).s, max - 1);
    }
  }

  lemma {:induction false} SlotsGrow(buf: Buffer, at: Index, n: nat)
    ensures Slots(buf, at, n + 1) == Slots(buf, at, n) + [buf[Advanced(at, n)]]
    ensures Advanced(at, n + 1) == Next(Advanced(at, n))
    decreases n
  {
    if n > 0 {
      SlotsGrow(buf, Next(at), n - 1);
    } else {
      assert Slots(buf, Next(at), 0) == [];
    }
  }

  // ---- The object ---------------------------------------------------------------------------------------------------

  class SharedUart {
    var buffer: array<u8>
    var writeIdx: Index
    var readIdx: Index

    ghost predicate Valid()
      reads this
    {
      buffer.Length == CAPACITY
    }

    ghost function State(): Shared
      reads this, buffer
      requires Valid()
    {
      Shared(buffer[..], writeIdx, readIdx)
    }

    constructor ()
      ensures Valid() && fresh(buffer) && State() == Shared(seq(CAPACITY, _ => 0), 0, 0)
    {
      buffer := new u8[CAPACITY](_ => 0);
      writeIdx, readIdx := 0, 0;
    }

    method Write(byte: u8) returns (ok: bool)
      requires Valid()
      modifies this`writeIdx, buffer
      ensures Valid() && Wrote(State(), ok) == WriteByte(old(State()), byte)
    {
      var next := (writeIdx + 1) % CAPACITY;
      if next == readIdx {
        return false;
      }
      buffer[writeIdx] := byte;
      writeIdx := next;
      return true;
    }

    method Read() returns (byte: Option<u8>)
      requires Valid()
      modifies this`readIdx
      ensures Valid() && Got(State(), byte) == ReadByte(old(State()))
    {
      if writeIdx == readIdx {
        return None;
      }
      byte := Some(buffer[readIdx]);
      readIdx := (readIdx + 1) % CAPACITY;
    }

    /** One load of each index, a loop over the bytes, one store of the write index. */
    method WriteMany(bytes: seq<u8>) returns (count: nat)
      requires Valid()
      modifies this`writeIdx, buffer
      ensures Valid() && WroteMany(State(), count) == WriteBytes(old(State()), bytes)
      ensures WroteMany(State(), count) == WriteEach(old(State()), bytes)
    {
      ghost var s := State();
      BatchWriteRefines(s, bytes);
      var available := if writeIdx >= readIdx then CAPACITY - (writeIdx - readIdx) - 1 else readIdx - writeIdx - 1;
      count := Min(|bytes|, available);
      var current: Index := writeIdx;
      var k := 0;
      while k < count
        invariant 0 <= k <= count && buffer.Length == CAPACITY
        invariant Filled(buffer[..], current, bytes[k..count]) == Filled(s.buf, s.write, bytes[..count])
        invariant Advanced(current, count - k) == Advanced(s.write, count)
      {
        assert bytes[k..count][0] == bytes[k] && bytes[k..count][1..] == bytes[k + 1..count];
        buffer[current] := bytes[k];
        current := (current + 1) % CAPACITY;
        k := k + 1;
      }
      writeIdx := current;
    }

    method ReadMany(max: nat) returns (bytes: seq<u8>)
      requires Valid()
      modifies this`readIdx
      ensures Valid() && GotMany(State(), bytes) == ReadBytes(old(State()), max)
      ensures GotMany(State(), bytes) == ReadEach(old(State()), max)
    {
      ghost var s := State();
      BatchReadRefines(s, max);
      bytes := [];
      if writeIdx == readIdx {
        return;
      }
      var available := if writeIdx >= readIdx then writeIdx - readIdx else CAPACITY - readIdx + writeIdx;
      var count := Min(available, max);
      var current: Index := readIdx;
      var k := 0;
      while k < count
        invariant 0 <= k <= count
        invariant bytes == Slots(s.buf, s.read, k) && current == Advanced(s.read, k)
      {
        SlotsGrow(s.buf, s.read, k);
        bytes := bytes + [buffer[current]];
        current := (current + 1) % CAPACITY;
        k := k + 1;
      }
      readIdx := current;
    }
  }
}
