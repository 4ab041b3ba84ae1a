/** The allocator behind code generation: memory is handed out from the top of ever larger
    chunks, and given back all at once when a compilation is over. */
module Chunks {
  import opened Words
  import opened Bits

  const NCHUNKS: nat := 16
  const CHUNK0SIZE: nat := 1024

  // Bytes `off` to `off + len` of chunk `k`. Chunk 0 has no memory.
  datatype Block = Block(k: nat, mem: array?<Byte>, off: nat, len: nat)

  // The smallest size, doubled `k` times.
  function ChunkSize(k: nat): (size: nat)
    ensures size >= CHUNK0SIZE && size % 8 == 0
  {
    if k == 0 then CHUNK0SIZE else 2 * ChunkSize(k - 1)
  }

  /** There are 16 chunks, the first of them of 1024 bytes and each twice as large as the one before. */
  lemma {:induction false} ChunksDouble(k: nat)
    ensures ChunkSize(k) == 1024 * Pow2(k) && NCHUNKS == 16
  {
    if k > 0 { ChunksDouble(k - 1); }
  }

  // Up to the next multiple of 8, in 32 bits.
  function RoundUp(n: Word): Word { Wrap((n + 7) / 8 * 8) }

  lemma {:induction false} Eighths(q: nat)
    requires q <= 0x2000_0000
    ensures Wrap(q * 8) == if q == 0x2000_0000 then 0 else q * 8
  {}

  /** The rounded size is enough, unless it wraps around to 0. */
  lemma {:induction false} RoundUpHolds(n: Word)
    ensures RoundUp(n) % 8 == 0 && (n <= RoundUp(n) <==> n <= 0xFFFF_FFF8)
    ensures if n <= 0xFFFF_FFF8 then n <= RoundUp(n) < n + 8 else RoundUp(n) == 0
  {
    var q := (n + 7) / 8;
    assert q * 8 <= n + 7 < q * 8 + 8;
    assert RoundUp(n) == Wrap(q * 8);
    hide *;
    Eighths(q);
    if q < 0x2000_0000 { EighthOf(q); }
  }

  lemma {:induction false} EighthOf(q: nat)
    ensures q * 8 % 8 == 0
  {}

  ghost predicate Apart(a: Block, b: Block)
  {
    a.mem != b.mem || a.off + a.len <= b.off || b.off + b.len <= a.off
  }

  // The block lies inside its chunk and is all zero.
  ghost predicate Zero(b: Block)
    reads b.mem
  {
    if b.mem == null then b.len == 0
    else b.off + b.len <= b.mem.Length && forall i :: b.off <= i < b.off + b.len ==> b.mem[i] == 0
  }

  class Allocator {
    const chunks: array<array?<Byte>>
    const left: array<nat>
    var cur: nat
    // What has been handed out since the last time all was freed.
    ghost var blocks: seq<Block>
    ghost var mems: set<array<Byte>>

    // Chunk `k` is in use: what is left of it is at the bottom, still all zero.
    ghost predicate InUse(k: nat)
      reads this, chunks, left, mems
    {
      && k < chunks.Length == left.Length && chunks[k] != null && chunks[k] in mems
      && chunks[k].Length == ChunkSize(k) && left[k] <= ChunkSize(k) && left[k] % 8 == 0
      && forall i :: 0 <= i < left[k] ==> chunks[k][i] == 0
    }

    ghost predicate BlockOk(b: Block)
      reads this, chunks, left
    {
      && b.k <= cur && b.k < chunks.Length == left.Length && b.mem == chunks[b.k]
      && if b.k == 0 then b.off == b.len == 0
         else left[b.k] <= b.off && b.off + b.len <= ChunkSize(b.k) && b.off % 8 == 0
    }

    ghost predicate Valid()
      reads this, chunks, left, mems
    {
      && chunks.Length == left.Length == NCHUNKS && cur <= NCHUNKS && left[0] == 0 && chunks[0] == null
      && (forall k :: 1 <= k <= cur && k < NCHUNKS ==> InUse(k))
      && (forall k :: cur < k < NCHUNKS ==> chunks[k] == null)
      && (forall j, k :: 1 <= j < k <= cur && k < NCHUNKS ==> chunks[j] != chunks[k])
      && (forall b :: b in blocks ==> BlockOk(b))
      && (forall i, j :: 0 <= i < j < |blocks| ==> Apart(blocks[i], blocks[j]))
    }

    constructor ()
      ensures Valid() && cur == 0 && blocks == [] && mems == {} && fresh(chunks) && fresh(left)
    {
      chunks := new array?<Byte>[NCHUNKS](_ => null);
      left := new nat[NCHUNKS](_ => 0);
      cur, blocks, mems := 0, [], {};
    }

    // Go on to a new chunk, twice as large; false when there are no more.
    method NextChunk() returns (ok: bool)
      requires Valid() && cur < NCHUNKS
      modifies this`cur, this`mems, chunks, left
      ensures Valid() && cur == old(cur) + 1 && ok == (cur < NCHUNKS)
      ensures mems >= old(mems) && fresh(mems - old(mems)) && (ok ==> InUse(cur) && left[cur] == ChunkSize(cur))
    {
      cur := cur + 1;
      if cur >= NCHUNKS {
        ok := false;
      } else {
        var m := new Byte[ChunkSize(cur)](_ => 0);
        chunks[cur] := m;
        mems := mems + {m};
        left[cur] := ChunkSize(cur);
        ok := true;
      }
      forall k | 1 <= k <= cur && k < NCHUNKS ensures InUse(k) {
        assert k < cur ==> old(InUse(k));
      }
      forall b | b in blocks ensures BlockOk(b) {
        assert old(BlockOk(b));
      }
    }

    // Take `size` bytes off the top of what is left of the current chunk.
    method Carve(size: nat) returns (b: Block)
      requires Valid() && cur < NCHUNKS && size % 8 == 0 && size <= left[cur]
      modifies this`blocks, left
      ensures Valid() && blocks == old(blocks) + [b] && b.len == size && Zero(b)
      ensures if cur == 0 then b.mem == null else b.mem in mems
    {
      assert cur > 0 ==> InUse(cur);
      left[cur] := left[cur] - size;
      b := Block(cur, chunks[cur], left[cur], size);
      forall a | a in blocks ensures Apart(a, b) {
        assert old(BlockOk(a));
        assert 0 < a.k ==> old(InUse(a.k));
        assert a.k != cur ==> a.mem != b.mem;
      }
      blocks := blocks + [b];
      forall k | 1 <= k <= cur && k < NCHUNKS ensures InUse(k) {
        assert old(InUse(k));
      }
      forall a | a in blocks ensures BlockOk(a) {
        assert a in old(blocks) ==> old(BlockOk(a));
      }
      forall i, j | 0 <= i < j < |blocks| ensures Apart(blocks[i], blocks[j]) {
        assert j < |old(blocks)| ==> Apart(old(blocks)[i], old(blocks)[j]);
        assert blocks[i] in old(blocks);
      }
    }

    /** A block of zero bytes, aligned to 8, apart from all others. It holds the `n` bytes asked
        for unless that is within 7 of 2^32, and is null for no bytes before the first chunk. */
    method NewChunk(n: Word) returns (r: Option<Block>)
      requires Valid() && cur < NCHUNKS
      modifies this`cur, this`blocks, this`mems, chunks, left
      ensures Valid() && mems >= old(mems) && fresh(mems - old(mems))
      ensures r.None? ==> blocks == old(blocks)
      ensures r.None? <==> RoundUp(n) > old(left[cur]) && (old(cur) + 1 == NCHUNKS || RoundUp(n) > ChunkSize(old(cur) + 1))
      ensures r.Some? ==> cur < NCHUNKS && blocks == old(blocks) + [r.value] && Zero(r.value)
      ensures r.Some? ==> r.value.len == RoundUp(n) && (r.value.len >= n <==> n <= 0xFFFF_FFF8)
      ensures r.Some? ==> (r.value.mem == null <==> old(cur) == 0 && RoundUp(n) == 0)
      ensures r.Some? && r.value.mem != null ==> r.value.mem in mems
    {
      var size := RoundUp(n);
      RoundUpHolds(n);
      if size > left[cur] {
        var ok := NextChunk();
        if !ok {
          return None;
        }
        if size > ChunkSize(cur) {
          return None;
        }
      }
      var b := Carve(size);
      return Some(b);
    }

    lemma {:induction false} OpenBlock(b: Block)
      requires Valid() && b in blocks
      ensures BlockOk(b) && (b.k > 0 ==> InUse(b.k) && b.off + b.len <= b.mem.Length)
      ensures forall k :: 1 <= k <= cur && k < NCHUNKS && k != b.k ==> chunks[k] != b.mem
      ensures forall a :: a in blocks && a != b ==> Apart(a, b)
    {
      assert BlockOk(b);
      forall k | 1 <= k <= cur && k < NCHUNKS && k != b.k ensures chunks[k] != b.mem {
        assert InUse(k);
      }
      forall a | a in blocks && a != b ensures Apart(a, b) {
        var i, j :| 0 <= i < |blocks| && 0 <= j < |blocks| && blocks[i] == a && blocks[j] == b;
        assert i < j ==> Apart(blocks[i], blocks[j]);
        assert j < i ==> Apart(blocks[j], blocks[i]);
      }
    }

    /** The owner of a block writes to it: no other block changes, and what is left of the
        chunks stays zero. */
    method Write(b: Block, i: nat, v: Byte)
      requires Valid() && b in blocks && i < b.len
      modifies b.mem
      ensures Valid() && b.mem != null && b.off + b.len <= b.mem.Length && b.mem[b.off + i] == v
      ensures forall a, j :: a in blocks && a != b && a.mem != null && a.off <= j < a.off + a.len && j < a.mem.Length ==> a.mem[j] == old(a.mem[j])
    {
      OpenBlock(b);
      b.mem[b.off + i] := v;
      forall k | 1 <= k <= cur && k < NCHUNKS ensures InUse(k) {
        assert old(InUse(k));
      }
      forall a | a in blocks ensures BlockOk(a) {
        assert old(BlockOk(a));
      }
    }

    /** Everything is given back. What was left of the chunks is not reset, which does no harm:
        only chunk 0 is looked at before it is set, and it is never handed out. */
    method FreeChunks()
      requires Valid()
      modifies this`cur, this`blocks, chunks
      ensures Valid() && cur == 0 && blocks == [] && forall k :: 0 <= k < NCHUNKS ==> left[k] == old(left[k])
    {
      cur := 0;
      for i := 0 to NCHUNKS
        invariant cur == 0 && forall k :: 0 <= k < i ==> chunks[k] == null
      {
        if chunks[i] != null {
          chunks[i] := null;
        }
      }
      blocks := [];
    }
  }
}
