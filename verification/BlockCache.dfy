/** The block cache as an object, and the buffer a block is compiled into. */
module BlockCacheModel {
  import opened Base
  import Micro
  import K = Block
  import E = Engine

  const COLD: nat := 10

  datatype Cached = Cached(block: K.Block, execCount: u32)

  /** The cached blocks without their execution counts. */
  function Plain(m: map<u64, Cached>): (r: map<u64, K.Block>)
    ensures r.Keys == m.Keys && |r| == |m|
  {
    var r := map pc | pc in m :: m[pc].block;
    assert r.Keys == m.Keys;
    r
  }

  /** The blocks executed fewer than ten times. */
  function ColdOf(m: map<u64, Cached>): set<u64> {
    set pc | pc in m && m[pc].execCount < COLD
  }

  function OlderThan(m: map<u64, Cached>, generation: u32): set<u64> {
    set pc | pc in m && m[pc].block.generation < generation
  }

  /** The blocks of that generation or a later one. */
  function Retained(m: map<u64, Cached>, generation: u32): map<u64, Cached> {
    map pc | pc in m && m[pc].block.generation >= generation :: m[pc]
  }

  /** What eviction leaves, after the cold blocks `cold` and after the old generations. */
  lemma Evicted(m: map<u64, Cached>, cold: set<u64>, generation: u32)
    requires cold <= ColdOf(m)
    ensures cold <= m.Keys && OlderThan(m, generation) <= m.Keys && |m - cold| == |m| - |cold|
    ensures Retained(m - cold, generation) == m - (cold + OlderThan(m, generation))
  {
    Without(m, cold);
  }

  lemma Subset(a: set<u64>, b: set<u64>)
    requires a <= b
    ensures |a| <= |b|
  {
    assert b == a + (b - a);
  }

  lemma Without(m: map<u64, Cached>, s: set<u64>)
    requires s <= m.Keys
    ensures |m - s| == |m| - |s|
  {
    assert (m - s).Keys == m.Keys - s;
  }

  class BlockCache {
    var blocks: map<u64, Cached>
    var generation: u32

    constructor ()
      ensures blocks == map[] && generation == 0
    {
      blocks, generation := map[], 0;
    }

    /** What a lookup finds: only blocks of the current generation. */
    function Found(pc: u64): Option<K.Block>
      reads this
    {
      if pc in blocks && blocks[pc].block.generation == generation then Some(blocks[pc].block) else None
    }

    method GetAndTouch(pc: u64) returns (found: Option<K.Block>)
      modifies this
      ensures found == old(Found(pc))
      ensures Plain(blocks) == old(Plain(blocks)) && generation == old(generation)
      ensures forall k :: k in blocks ==>
                blocks[k].execCount == if k == pc && found.Some? && old(blocks)[k].execCount < TWO_32 - 1
                                       then old(blocks)[k].execCount + 1 else old(blocks)[k].execCount
    {
      assert blocks.Keys == Plain(blocks).Keys;
      if pc in blocks && blocks[pc].block.generation == generation {
        var c := blocks[pc];
        blocks := blocks[pc := c.(execCount := if c.execCount == TWO_32 - 1 then c.execCount else c.execCount + 1)];
        return Some(c.block);
      }
      return None;
    }

    /** Make room if the cache is full, then insert. */
    method Insert(b: K.Block) returns (ghost evicted: set<u64>)
      modifies this
      ensures Plain(blocks) == E.Inserted(old(Plain(blocks)), b, evicted) && generation == old(generation)
      ensures Found(b.startPc) == (if b.generation == generation then Some(b) else None)
      ensures blocks[b.startPc].execCount == 0
      ensures if |old(blocks)| < E.BLOCK_CACHE_SIZE then evicted == {}
              else |evicted| >= Min(|old(blocks)| / 4, |ColdOf(old(blocks))|)
    {
      evicted := {};
      if |blocks| >= E.BLOCK_CACHE_SIZE {
        ghost var cold;
        evicted, cold := EvictCold();
        Subset(cold, evicted);
      }
      blocks := blocks[b.startPc := Cached(b, 0)];
      assert Plain(blocks) == E.Inserted(old(Plain(blocks)), b, evicted);
    }

    /** Remove cold blocks, a quarter of all blocks or one if that is none, and all of them if there are fewer; the
        order of the scan is arbitrary.  If the cache is still full, remove the blocks older than the previous
        generation. */
    method EvictCold() returns (ghost removed: set<u64>, ghost cold: set<u64>)
      modifies this
      ensures blocks == old(blocks) - removed && removed <= old(blocks).Keys && generation == old(generation)
      ensures cold <= ColdOf(old(blocks)) && |cold| == Min(Max(1, |old(blocks)| / 4), |ColdOf(old(blocks))|)
      ensures removed == if |old(blocks)| - |cold| < E.BLOCK_CACHE_SIZE then cold
                         else cold + OlderThan(old(blocks), (generation - 1) % TWO_32)
    {
      hide ColdOf, OlderThan, Retained, Min, Max;
      var oldest: u32 := (generation - 1) % TWO_32;
      var found := ScanCold(|blocks| / 4);
      Evicted(blocks, found, oldest);
      removed, cold := found, found;
      blocks := blocks - found;
      if |blocks| >= E.BLOCK_CACHE_SIZE {
        removed := found + OlderThan(old(blocks), oldest);
        blocks := Retained(blocks, oldest);
      }
    }

    /** Collect cold blocks until there are enough of them. */
    method ScanCold(threshold: nat) returns (cold: set<u64>)
      ensures cold <= ColdOf(blocks) && |cold| == Min(Max(1, threshold), |ColdOf(blocks)|)
    {
      var todo := blocks.Keys;
      cold := {};
      while todo != {}
        invariant todo <= blocks.Keys && cold == ColdOf(blocks) - todo
        invariant |cold| < threshold || cold == {}
        decreases |todo|
      {
        var pc :| pc in todo;
        todo := todo - {pc};
        if blocks[pc].execCount < COLD {
          cold := cold + {pc};
          if |cold| >= threshold {
            break;
          }
        }
      }
      Subset(cold, ColdOf(blocks));
    }

    /** Start a new generation; what was compiled before is not found again until the counter wraps around. */
    method Flush()
      modifies this
      ensures generation == (old(generation) + 1) % TWO_32 && blocks == old(blocks)
      ensures forall pc :: pc in blocks && blocks[pc].block.generation == old(generation) ==> Found(pc).None?
    {
      generation := (generation + 1) % TWO_32;
    }

    /** Forget every block that overlaps the physical range. */
    method InvalidateRange(startPa: u64, endPa: u64)
      modifies this
      ensures generation == old(generation)
      ensures forall pc :: pc in blocks <==>
                pc in old(blocks) && !(old(blocks)[pc].block.startPa < endPa
                                       && old(blocks)[pc].block.startPa + old(blocks)[pc].block.byteLen > startPa)
      ensures forall pc :: pc in blocks ==> blocks[pc] == old(blocks)[pc]
    {
      blocks := map pc | pc in blocks && !(blocks[pc].block.startPa < endPa
                                           && blocks[pc].block.startPa
                                              + blocks[pc].block.byteLen > startPa) :: blocks[pc];
    }
  }

  /** A block being compiled: a fixed array of operations and a length. */
  class BlockBuffer {
    const startPc: u64
    const startPa: u64
    const generation: nat
    const ops: array<Micro.MicroOp>
    var len: nat
    var byteLen: nat
    var next: Option<u64>

    ghost predicate Valid()
      reads this
    {
      ops.Length == K.MAX_BLOCK_SIZE && len <= ops.Length
    }

    /** The block so far. */
    function View(): K.Block
      reads this, ops
      requires Valid()
    {
      K.Block(startPc, startPa, ops[..len], byteLen, next, generation)
    }

    constructor (pc: u64, pa: u64, gen: nat)
      ensures Valid() && fresh(ops) && View() == K.Block(pc, pa, [], 0, None, gen)
    {
      startPc, startPa, generation, byteLen, next := pc, pa, gen, 0, None;
      ops := new Micro.MicroOp[K.MAX_BLOCK_SIZE](_ => Micro.Fence);
      len := 0;
    }

    method Push(op: Micro.MicroOp, insnLen: nat) returns (ok: bool)
      requires Valid()
      modifies this, ops
      ensures Valid() && ok == (|old(View()).ops| < K.MAX_BLOCK_SIZE)
      ensures View() == if ok then K.Appended(old(View()), op, insnLen) else old(View())
    {
      if len >= K.MAX_BLOCK_SIZE {
        return false;
      }
      ops[len] := op;
      len := len + 1;
      byteLen := byteLen + insnLen;
      return true;
    }
  }
}
