/** `ChunkBlockIndex`: indices of a block list grouped by world chunk on first use,
    and the readers that materialise chunks through it. */
module ChunkIndexes {
  import opened Options
  import opened Coordinates
  import opened ChunkCells

  const UINT32_MAX := 0xFFFF_FFFF

  type Buckets = map<ChunkPos, seq<nat>>

  function World(block: Placing, offset: BlockPos): Placing {
    Placing(Moved(block.pos, offset), block.id)
  }

  function Worlds(blocks: seq<Placing>, offset: BlockPos): seq<Placing> {
    seq(|blocks|, i requires 0 <= i < |blocks| => World(blocks[i], offset))
  }

  /** The indices, in order, of the first `count` blocks that lie in chunk `c`. */
  function IndicesIn(blocks: seq<Placing>, offset: BlockPos, c: ChunkPos, count: nat): seq<nat>
    requires count <= |blocks|
  {
    if count == 0 then []
    else
      IndicesIn(blocks, offset, c, count - 1)
      + (if ChunkOfBlock(World(blocks[count - 1], offset).pos) == c then [count - 1] else [])
  }

  /** Grouping is complete: a bucket exists exactly for each chunk with blocks, and
      lists its blocks in source order. */
  ghost predicate Groups(buckets: Buckets, blocks: seq<Placing>, offset: BlockPos, count: nat)
    requires count <= |blocks|
  {
    forall c :: IndicesIn(blocks, offset, c, count) == if c in buckets then buckets[c] else []
  }

  lemma {:induction false} IndicesListed(blocks: seq<Placing>, offset: BlockPos, c: ChunkPos, count: nat)
    requires count <= |blocks|
    ensures var list := IndicesIn(blocks, offset, c, count);
      && (forall i :: i in list <==> 0 <= i < count && ChunkOfBlock(World(blocks[i], offset).pos) == c)
      && (forall i, j | 0 <= i < j < |list| :: list[i] < list[j])
  {
    if count > 0 {
      hide ChunkOfBlock, World;
      IndicesListed(blocks, offset, c, count - 1);
      var init := IndicesIn(blocks, offset, c, count - 1);
      assert forall i | 0 <= i < |init| :: init[i] in init;
    }
  }

  /** The buckets partition the indices: each is in the bucket of its own chunk, once,
      and in no other. */
  lemma BucketsPartition(buckets: Buckets, blocks: seq<Placing>, offset: BlockPos, i: nat)
    requires Groups(buckets, blocks, offset, |blocks|) && i < |blocks|
    ensures var own := ChunkOfBlock(World(blocks[i], offset).pos);
      && own in buckets
      && (forall c :: c in buckets ==> (i in buckets[c] <==> c == own))
      && (forall j, k | 0 <= j < k < |buckets[own]| :: buckets[own][j] < buckets[own][k])
  {
    hide ChunkOfBlock, World;
    forall c
      ensures i in IndicesIn(blocks, offset, c, |blocks|) <==> c == ChunkOfBlock(World(blocks[i], offset).pos)
    {
      IndicesListed(blocks, offset, c, |blocks|);
    }
    IndicesListed(blocks, offset, ChunkOfBlock(World(blocks[i], offset).pos), |blocks|);
  }

  /** Replaying a bucket is replaying the whole list into that chunk. */
  function ReplayIndices(chunk: Chunk, blocks: seq<Placing>, offset: BlockPos, list: seq<nat>, air: RuntimeId): Chunk
    requires forall j | 0 <= j < |list| :: list[j] < |blocks|
  {
    if list == [] then chunk
    else
      ApplyTo(ReplayIndices(chunk, blocks, offset, list[..|list| - 1], air), World(blocks[list[|list| - 1]], offset),
        air)
  }

  lemma {:induction false} BucketReplaysTheList(blocks: seq<Placing>, offset: BlockPos, c: ChunkPos, count: nat,
      air: RuntimeId)
    requires count <= |blocks|
    ensures var list := IndicesIn(blocks, offset, c, count); forall j | 0 <= j < |list| :: list[j] < |blocks|
    ensures ReplayIndices(map[], blocks, offset, IndicesIn(blocks, offset, c, count), air)
      == ReplayChunk(map[], Worlds(blocks[..count], offset), c, air)
  {
    hide ChunkOfBlock, World, ApplyTo, Worlds, ReplayIndices;
    if count == 0 {
      WorldsStep(blocks, offset, 0);
      ReplayNone(blocks, offset, air);
    } else {
      BucketReplaysTheList(blocks, offset, c, count - 1, air);
      WorldsStep(blocks, offset, count);
      var init := IndicesIn(blocks, offset, c, count - 1);
      assert init + [] == init;
      ReplayOneMore(blocks, offset, init, count - 1, air);
    }
  }

  lemma ReplayNone(blocks: seq<Placing>, offset: BlockPos, air: RuntimeId)
    ensures ReplayIndices(map[], blocks, offset, [], air) == map[]
  {
  }

  lemma ReplayOneMore(blocks: seq<Placing>, offset: BlockPos, init: seq<nat>, k: nat, air: RuntimeId)
    requires k < |blocks| && forall j | 0 <= j < |init| :: init[j] < |blocks|
    ensures ReplayIndices(map[], blocks, offset, init + [k], air)
      == ApplyTo(ReplayIndices(map[], blocks, offset, init, air), World(blocks[k], offset), air)
  {
    hide World, ApplyTo;
    assert (init + [k])[..|init|] == init;
  }

  lemma WorldsStep(blocks: seq<Placing>, offset: BlockPos, count: nat)
    requires count <= |blocks|
    ensures var records := Worlds(blocks[..count], offset);
      && |records| == count
      && (count > 0
        ==>
          && records[..count - 1] == Worlds(blocks[..count - 1], offset)
          && records[count - 1] == World(blocks[count - 1], offset))
  {
  }

  /** A block list moved by the offset is the list looked up `offset` back. */
  lemma {:induction false} WorldsAnswer(blocks: seq<Placing>, offset: BlockPos, b: BlockPos, air: RuntimeId)
    ensures LastAt(Worlds(blocks, offset), b, air)
      == LastAt(blocks, BlockPos(b.x - offset.x, b.y - offset.y, b.z - offset.z), air)
  {
    if blocks != [] {
      var init := blocks[..|blocks| - 1];
      WorldsAnswer(init, offset, b, air);
      assert Worlds(blocks, offset)[..|blocks| - 1] == Worlds(init, offset);
    }
  }

  lemma ListAnswers(chunk: Chunk, c: ChunkPos, blocks: seq<Placing>, offset: BlockPos, air: RuntimeId)
    requires forall b | ChunkOfBlock(b) == c :: CellIn(chunk, b, air) == LastAt(Worlds(blocks, offset), b, air)
    ensures Holds(chunk, c, offset, air, p => LastAt(blocks, p, air))
  {
    hide CellIn, LastAt, Worlds, ChunkOfBlock;
    forall b | ChunkOfBlock(b) == c
      ensures CellIn(chunk, b, air) == LastAt(blocks, BlockPos(b.x - offset.x, b.y - offset.y, b.z - offset.z), air)
    {
      WorldsAnswer(blocks, offset, b, air);
    }
    CellsAreElements(chunk, c, offset, air, p => LastAt(blocks, p, air));
  }

  class ChunkBlockIndex {
    var ready: bool
    var buckets: Buckets

    constructor ()
      ensures !ready && buckets == map[]
    {
      ready, buckets := false, map[];
    }

    method Clear()
      modifies this
      ensures !ready && buckets == map[]
    {
      ready, buckets := false, map[];
    }

    /** Groups the blocks unless that was done since the last `Clear`; a list with
        more blocks than a 32-bit index can name is refused. */
    method Ensure(blocks: seq<Placing>, offset: BlockPos) returns (ok: bool)
      modifies this
      ensures ok == (old(ready) || |blocks| <= UINT32_MAX)
      ensures old(ready) || !ok ==> ready == old(ready) && buckets == old(buckets)
      ensures ok && !old(ready) ==> ready && Groups(buckets, blocks, offset, |blocks|)
    {
      if ready {
        return true;
      }
      if |blocks| > UINT32_MAX {
        return false;
      }
      hide ChunkOfBlock, World;
      buckets := map[];
      for index := 0 to |blocks|
        invariant !ready && Groups(buckets, blocks, offset, index)
      {
        var c := ChunkOfBlock(World(blocks[index], offset).pos);
        buckets := buckets[c := (if c in buckets then buckets[c] else []) + [index]];
      }
      ready := true;
      ok := true;
    }

    function Find(c: ChunkPos): (found: Option<seq<nat>>)
      reads this
    {
      if c in buckets then Some(buckets[c]) else None
    }
  }

  /** A reader that keeps its blocks in a vector and an index over it. */
  class IndexedStructure {
    const air: RuntimeId
    const index: ChunkBlockIndex

    var blocks: seq<Placing>
    var offset: BlockPos

    /** A ready index describes the current blocks at the current offset. */
    ghost predicate Valid()
      reads this, index
    {
      index.ready ==> Groups(index.buckets, blocks, offset, |blocks|)
    }

    constructor (blocks: seq<Placing>, air: RuntimeId)
      ensures Valid() && fresh(index) && this.blocks == blocks && this.air == air && offset == BlockPos(0, 0, 0)
    {
      this.air, this.blocks, offset := air, blocks, BlockPos(0, 0, 0);
      index := new ChunkBlockIndex();
    }

    method SetOffset(offset: BlockPos)
      requires Valid()
      modifies this`offset, index
      ensures Valid() && this.offset == offset
    {
      this.offset := offset;
      index.Clear();
    }

    /** A chunk read through the index shows the last block at each position, as a
        scan of the whole vector would. */
    method GetChunk(c: ChunkPos) returns (chunk: Option<Chunk>)
      requires Valid()
      modifies index
      ensures Valid()
      ensures old(index.ready) || |blocks| <= UINT32_MAX <==> chunk.Some?
      ensures chunk.Some? ==> forall b | ChunkOfBlock(b) == c ::
        CellIn(chunk.value, b, air) == LastAt(Worlds(blocks, offset), b, air)
      ensures var list := blocks;
        chunk.Some? ==> Holds(chunk.value, c, offset, air, p => LastAt(list, p, air))
    {
      chunk := FindAndReplay(c);
      hide CellIn, LastAt, Worlds, Groups;
      if chunk.Some? {
        ListAnswers(chunk.value, c, blocks, offset, air);
      }
    }

    method FindAndReplay(c: ChunkPos) returns (chunk: Option<Chunk>)
      requires Valid()
      modifies index
      ensures Valid()
      ensures old(index.ready) || |blocks| <= UINT32_MAX <==> chunk.Some?
      ensures chunk.Some? ==> forall b | ChunkOfBlock(b) == c ::
        CellIn(chunk.value, b, air) == LastAt(Worlds(blocks, offset), b, air)
    {
      hide ChunkOfBlock, World, Worlds, CellIn, Groups;
      var ok := index.Ensure(blocks, offset);
      if !ok {
        return None;
      }
      ShownByBucket(c);
      var indexed := index.Find(c);
      if indexed == None {
        return Some(map[]);
      }
      var result := ReplayBucket(indexed.value);
      chunk := Some(result);
    }

    lemma ShownByBucket(c: ChunkPos)
      requires Groups(index.buckets, blocks, offset, |blocks|)
      ensures var list := if c in index.buckets then index.buckets[c] else [];
        && (forall j | 0 <= j < |list| :: list[j] < |blocks|)
        && forall b | ChunkOfBlock(b) == c ::
          CellIn(ReplayIndices(map[], blocks, offset, list, air), b, air) == LastAt(Worlds(blocks, offset), b, air)
    {
      hide ChunkOfBlock, World, Worlds, ReplayIndices, CellIn;
      BucketReplaysTheList(blocks, offset, c, |blocks|, air);
      assert blocks[..|blocks|] == blocks;
      forall b | ChunkOfBlock(b) == c
        ensures CellIn(ReplayChunk(map[], Worlds(blocks, offset), c, air), b, air)
          == LastAt(Worlds(blocks, offset), b, air)
      {
        ReplayCell(Worlds(blocks, offset), air, b);
      }
    }

    method ReplayBucket(list: seq<nat>) returns (chunk: Chunk)
      requires forall j | 0 <= j < |list| :: list[j] < |blocks|
      ensures chunk == ReplayIndices(map[], blocks, offset, list, air)
    {
      hide World, ApplyTo;
      chunk := map[];
      for k := 0 to |list|
        invariant chunk == ReplayIndices(map[], blocks, offset, list[..k], air)
      {
        assert list[..k + 1][..k] == list[..k];
        chunk := ApplyTo(chunk, World(blocks[list[k]], offset), air);
      }
      assert list[..|list|] == list;
    }
  }
}
