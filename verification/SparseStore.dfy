/** `SparseBlockStore`: a map of blocks, an overlay of those outside the declared
    size, and the chunks materialised from both. */
module SparseStores {
  import opened Options
  import opened Coordinates
  import opened StructureCells
  import opened ChunkCells

  type Blocks = map<BlockPos, RuntimeId>

  /** The blocks of a half-open box. */
  function Box(blocks: Blocks, x0: int, x1: int, y0: int, y1: int, z0: int, z1: int): Blocks {
    map b | b in blocks && x0 <= b.x < x1 && y0 <= b.y < y1 && z0 <= b.z < z1 :: blocks[b]
  }

  function Solids(blocks: Blocks, air: RuntimeId): set<BlockPos> {
    set b | b in blocks && blocks[b] != air
  }

  /** The blocks outside the size. */
  function Outside(blocks: Blocks, size: Size): Blocks {
    map b | b in blocks && !InBounds(size, b) :: blocks[b]
  }

  function Inside(blocks: Blocks, size: Size): Blocks {
    map b | b in blocks && InBounds(size, b) :: blocks[b]
  }

  lemma WithoutOne(s: set<BlockPos>, b: BlockPos)
    ensures |s - {b}| == |s| - (if b in s then 1 else 0)
  {
    assert s == (s - {b}) + (if b in s then {b} else {});
  }

  lemma SolidsPut(blocks: Blocks, air: RuntimeId, b: BlockPos, id: RuntimeId)
    ensures |Solids(blocks[b := id], air)|
      == |Solids(blocks, air)| - (if b in blocks && blocks[b] != air then 1 else 0) + (if id != air then 1 else 0)
  {
    var before, after := Solids(blocks, air), Solids(blocks[b := id], air);
    assert before - {b} == after - {b};
    assert b in before <==> b in blocks && blocks[b] != air;
    assert b in after <==> id != air;
    hide Solids;
    WithoutOne(before, b);
    WithoutOne(after, b);
  }

  lemma RowStep(shown: Blocks, blocks: Blocks, x: int, y: int, z0: int, z: int)
    requires z0 <= z
    ensures Box(blocks, x, x + 1, y, y + 1, z0, z0) == map[]
    ensures var before, b := shown + Box(blocks, x, x + 1, y, y + 1, z0, z), BlockPos(x, y, z);
      shown + Box(blocks, x, x + 1, y, y + 1, z0, z + 1) == if b in blocks then before[b := blocks[b]] else before
  {
    var after, b := shown + Box(blocks, x, x + 1, y, y + 1, z0, z + 1), BlockPos(x, y, z);
    var before := shown + Box(blocks, x, x + 1, y, y + 1, z0, z);
    assert forall c :: c in after ==> c == b || c in before;
  }

  lemma InsideAndOutside(blocks: Blocks, size: Size)
    ensures Outside(blocks, size) == map[] ==> Inside(blocks, size) == blocks
  {
    assert forall b :: b in blocks && !InBounds(size, b) ==> b in Outside(blocks, size);
  }

  class SparseBlockStore {
    const air: RuntimeId

    var size: Size
    var offset: BlockPos
    var includeOutside: bool
    var blocks: Blocks
    var outside: Blocks
    var nonAir: nat

    /** The overlay holds exactly the outside blocks when they are wanted, and the
        count is exact. */
    ghost predicate Valid()
      reads this
    {
      && outside == (if includeOutside then Outside(blocks, size) else map[])
      && nonAir == |Solids(blocks, air)|
    }

    constructor (air: RuntimeId)
      ensures Valid() && blocks == map[] && this.air == air && size == Size(0, 0, 0) && offset == BlockPos(0, 0, 0)
    {
      this.air := air;
      size, offset, includeOutside := Size(0, 0, 0), BlockPos(0, 0, 0), false;
      blocks, outside, nonAir := map[], map[], 0;
    }

    /** Changing the size does not revise the overlay: it stays right exactly when
        outside blocks are not wanted or the same blocks are outside both sizes. */
    method SetSize(size: Size)
      requires Valid()
      modifies this`size
      ensures this.size == size
      ensures Valid() <==> !includeOutside || Outside(blocks, size) == Outside(blocks, old(this.size))
    {
      this.size := size;
    }

    method SetIncludeOutOfBounds(enabled: bool)
      requires Valid()
      modifies this`includeOutside
      ensures includeOutside == enabled
      ensures Valid() <==> enabled == old(includeOutside) || Outside(blocks, size) == map[]
    {
      includeOutside := enabled;
    }

    method Put(local: BlockPos, id: RuntimeId)
      requires Valid()
      modifies this`blocks, this`outside, this`nonAir
      ensures Valid() && blocks == old(blocks)[local := id]
    {
      SolidsPut(blocks, air, local, id);
      if local in blocks && blocks[local] != air {
        assert local in Solids(blocks, air);
        nonAir := nonAir - 1;
      }
      var beyond := !InBounds(size, local);
      outside := if includeOutside && beyond then outside[local := id] else outside - {local};
      blocks := blocks[local := id];
      if id != air {
        nonAir := nonAir + 1;
      }
    }

    /** What a chunk must show: every block inside the size, and the overlay if it
        is wanted. */
    ghost function Visible(): Blocks
      reads this
    {
      if includeOutside then blocks else Inside(blocks, size)
    }

    /** One z range of the ordered map. */
    method ShowRow(chunk: Chunk, c: ChunkPos, x: int, y: int, z0: int, z1: int, ghost shown: Blocks)
      returns (chunk': Option<Chunk>)
      requires Shows(chunk, c, offset, shown, air) && z0 <= z1
      requires forall z | z0 <= z < z1 :: ChunkOfBlock(Moved(BlockPos(x, y, z), offset)) == c
      ensures chunk'.Some? && Shows(chunk'.value, c, offset, shown + Box(blocks, x, x + 1, y, y + 1, z0, z1), air)
    {
      hide Shows, ApplyTo, ChunkOfBlock, Box;
      var result := chunk;
      RowStep(shown, blocks, x, y, z0, z0);
      assert shown + map[] == shown;
      for z := z0 to z1
        invariant Shows(result, c, offset, shown + Box(blocks, x, x + 1, y, y + 1, z0, z), air)
      {
        var local := BlockPos(x, y, z);
        RowStep(shown, blocks, x, y, z0, z);
        if local in blocks {
          if !InChunk(Moved(local, offset), c) {
            return None;
          }
          ShowsOneMore(result, c, offset, shown + Box(blocks, x, x + 1, y, y + 1, z0, z), air, local, blocks[local]);
          result := ApplyTo(result, Placing(Moved(local, offset), blocks[local]), air);
        }
      }
      chunk' := Some(result);
    }

    /** The local coordinates the materialiser checks before writing. */
    predicate InChunk(world: BlockPos, c: ChunkPos)
      ensures ChunkOfBlock(world) == c ==> InChunk(world, c)
    {
      0 <= world.x - c.x * 16 < 16 && 0 <= world.z - c.z * 16 < 16
    }

    method ShowPlane(chunk: Chunk, c: ChunkPos, x: int, z0: int, z1: int, ghost shown: Blocks)
      returns (chunk': Option<Chunk>)
      requires Shows(chunk, c, offset, shown, air) && z0 <= z1
      requires forall y, z | z0 <= z < z1 :: ChunkOfBlock(Moved(BlockPos(x, y, z), offset)) == c
      ensures chunk'.Some?
        && Shows(chunk'.value, c, offset, shown + Box(blocks, x, x + 1, 0, Larger(0, size.height), z0, z1), air)
    {
      hide Shows, ChunkOfBlock;
      var result := chunk;
      assert shown + Box(blocks, x, x + 1, 0, 0, z0, z1) == shown;
      var height := Larger(0, size.height);
      for y := 0 to height
        invariant Shows(result, c, offset, shown + Box(blocks, x, x + 1, 0, y, z0, z1), air)
      {
        ghost var before := shown + Box(blocks, x, x + 1, 0, y, z0, z1);
        var next := ShowRow(result, c, x, y, z0, z1, before);
        if next == None {
          return None;
        }
        result := next.value;
        assert before + Box(blocks, x, x + 1, y, y + 1, z0, z1) == shown + Box(blocks, x, x + 1, 0, y + 1, z0, z1);
      }
      chunk' := Some(result);
    }

    method ShowBox(c: ChunkPos, x0: int, x1: int, z0: int, z1: int) returns (chunk: Option<Chunk>)
      requires x0 <= x1 && z0 <= z1
      requires forall x, y, z | x0 <= x < x1 && z0 <= z < z1 :: ChunkOfBlock(Moved(BlockPos(x, y, z), offset)) == c
      ensures chunk.Some? && Shows(chunk.value, c, offset, Box(blocks, x0, x1, 0, Larger(0, size.height), z0, z1), air)
    {
      hide Shows, ChunkOfBlock;
      var result: Chunk := map[];
      var height := Larger(0, size.height);
      ShowsNothing(c, offset, air);
      assert Box(blocks, x0, x0, 0, height, z0, z1) == map[];
      for x := x0 to x1
        invariant Shows(result, c, offset, Box(blocks, x0, x, 0, height, z0, z1), air)
      {
        ghost var before := Box(blocks, x0, x, 0, height, z0, z1);
        var next := ShowPlane(result, c, x, z0, z1, before);
        if next == None {
          return None;
        }
        result := next.value;
        assert before + Box(blocks, x, x + 1, 0, height, z0, z1) == Box(blocks, x0, x + 1, 0, height, z0, z1);
      }
      chunk := Some(result);
    }

    /** One chunk: the source box is the chunk clipped to the size, and the overlay
        is added block by block. The chunk is right about every visible block
        exactly when its column meets the declared size, or no block of the column
        is solid anyway. */
    method GetChunk(c: ChunkPos) returns (chunk: Option<Chunk>)
      requires Valid()
      ensures chunk.Some? && Shows(chunk.value, c, offset, if NoColumns(c) then map[] else Visible(), air)
      ensures var shown := if NoColumns(c) then map[] else Visible();
        Holds(chunk.value, c, offset, air, p => BlockOr(shown, p, air))
      ensures Shows(chunk.value, c, offset, Visible(), air)
        <==> !NoColumns(c) || forall b | b in Visible() && ChunkOfBlock(Moved(b, offset)) == c :: Visible()[b] == air
    {
      chunk := ShowChunk(c);
      ShownElements(chunk.value, c, offset, if NoColumns(c) then map[] else Visible(), air);
    }

    method ShowChunk(c: ChunkPos) returns (chunk: Option<Chunk>)
      requires Valid()
      ensures chunk.Some? && Shows(chunk.value, c, offset, if NoColumns(c) then map[] else Visible(), air)
      ensures Shows(chunk.value, c, offset, Visible(), air)
        <==> !NoColumns(c) || forall b | b in Visible() && ChunkOfBlock(Moved(b, offset)) == c :: Visible()[b] == air
    {
      hide Shows, ChunkOfBlock;
      ghost var visible := Visible();
      var x0, x1 := Larger(0, c.x * 16 - offset.x), Smaller(size.width - 1, c.x * 16 + 15 - offset.x) + 1;
      var z0, z1 := Larger(0, c.z * 16 - offset.z), Smaller(size.length - 1, c.z * 16 + 15 - offset.z) + 1;
      if x0 >= x1 || z0 >= z1 {
        ShowsNothing(c, offset, air);
        NothingIsRightExactlyWhen(c, offset, visible, air);
        return Some(map[]);
      }
      assert !NoColumns(c);
      InsideAndOutside(blocks, size);
      SourceBox(c, offset, x0, x1, z0, z1);
      chunk := ShowBox(c, x0, x1, z0, z1);
      BoxIsInside(chunk.value, c, x0, x1, z0, z1, blocks, size, offset, air);
      if includeOutside && outside != map[] {
        var overlaid := Overlay(chunk.value, c);
        chunk := Some(overlaid);
      }
    }

    /** The overlay, in any order. */
    method Overlay(chunk: Chunk, c: ChunkPos) returns (chunk': Chunk)
      requires Valid() && includeOutside && Shows(chunk, c, offset, Inside(blocks, size), air)
      ensures Shows(chunk', c, offset, blocks, air)
    {
      hide Shows, ChunkOfBlock, ApplyTo, CellIn;
      chunk' := chunk;
      var remaining := outside.Keys;
      ghost var shown := Inside(blocks, size);
      while remaining != {}
        invariant remaining <= outside.Keys
        invariant Shows(chunk', c, offset, shown, air)
        invariant forall b :: b in shown ==> b in blocks && shown[b] == blocks[b]
        invariant forall b :: b in blocks && b !in remaining && ChunkOfBlock(Moved(b, offset)) == c ==> b in shown
        decreases remaining
      {
        var local :| local in remaining;
        if ChunkOfBlock(Moved(local, offset)) == c {
          ShowsOneMore(chunk', c, offset, shown, air, local, outside[local]);
          chunk' := ApplyTo(chunk', Placing(Moved(local, offset), outside[local]), air);
          shown := shown[local := outside[local]];
        }
        remaining := remaining - {local};
      }
      SameColumn(chunk', c, offset, shown, blocks, air);
    }

    /** The chunk column does not meet the declared size at all; it is then left
        empty, overlay included. */
    predicate NoColumns(c: ChunkPos)
      reads this`size, this`offset
    {
      Larger(0, c.x * 16 - offset.x) > Smaller(size.width - 1, c.x * 16 + 15 - offset.x)
      || Larger(0, c.z * 16 - offset.z) > Smaller(size.length - 1, c.z * 16 + 15 - offset.z)
    }
  }

  function BlockOr(blocks: Blocks, b: BlockPos, air: RuntimeId): RuntimeId {
    if b in blocks then blocks[b] else air
  }

  lemma ShownElements(chunk: Chunk, c: ChunkPos, offset: BlockPos, shown: Blocks, air: RuntimeId)
    requires Shows(chunk, c, offset, shown, air)
    ensures Holds(chunk, c, offset, air, p => BlockOr(shown, p, air))
  {
    hide CellIn, ChunkOfBlock;
    forall b | ChunkOfBlock(b) == c
      ensures CellIn(chunk, b, air) == BlockOr(shown, BlockPos(b.x - offset.x, b.y - offset.y, b.z - offset.z), air)
    {
      var local := BlockPos(b.x - offset.x, b.y - offset.y, b.z - offset.z);
      assert Moved(local, offset) == b;
    }
    CellsAreElements(chunk, c, offset, air, p => BlockOr(shown, p, air));
  }

  /** What is shown in a column depends only on the blocks of that column. */
  lemma SameColumn(chunk: Chunk, c: ChunkPos, offset: BlockPos, shown: Blocks, all: Blocks, air: RuntimeId)
    requires Shows(chunk, c, offset, shown, air)
    requires forall b :: b in shown ==> b in all && shown[b] == all[b]
    requires forall b :: b in all && ChunkOfBlock(Moved(b, offset)) == c ==> b in shown
    ensures Shows(chunk, c, offset, all, air)
  {
    hide CellIn, ChunkOfBlock;
  }

  lemma SourceBox(c: ChunkPos, offset: BlockPos, x0: int, x1: int, z0: int, z1: int)
    requires c.x * 16 - offset.x <= x0 && x1 <= c.x * 16 + 16 - offset.x
    requires c.z * 16 - offset.z <= z0 && z1 <= c.z * 16 + 16 - offset.z
    ensures forall x, y, z | x0 <= x < x1 && z0 <= z < z1 :: ChunkOfBlock(Moved(BlockPos(x, y, z), offset)) == c
  {
  }

  /** The clipped box holds all the inside blocks of the column. */
  lemma BoxIsInside(
    chunk: Chunk, c: ChunkPos, x0: int, x1: int, z0: int, z1: int, blocks: Blocks, size: Size, offset: BlockPos,
    air: RuntimeId)
    requires x0 == Larger(0, c.x * 16 - offset.x) && x1 == Smaller(size.width - 1, c.x * 16 + 15 - offset.x) + 1
    requires z0 == Larger(0, c.z * 16 - offset.z) && z1 == Smaller(size.length - 1, c.z * 16 + 15 - offset.z) + 1
    requires Shows(chunk, c, offset, Box(blocks, x0, x1, 0, Larger(0, size.height), z0, z1), air)
    ensures Shows(chunk, c, offset, Inside(blocks, size), air)
  {
    hide Shows, CellIn;
    SameColumn(chunk, c, offset, Box(blocks, x0, x1, 0, Larger(0, size.height), z0, z1), Inside(blocks, size), air);
  }

  /** An empty chunk is right about a column exactly when none of its blocks is
      solid. */
  lemma NothingIsRightExactlyWhen(c: ChunkPos, offset: BlockPos, visible: Blocks, air: RuntimeId)
    ensures Shows(map[], c, offset, visible, air)
      <==> forall b | b in visible && ChunkOfBlock(Moved(b, offset)) == c :: visible[b] == air
  {
    hide ChunkOfBlock;
  }

  lemma NothingOutside(size: Size)
    ensures Outside(map[], size) == map[]
  {
  }

  lemma ShownNothing(chunk: Chunk, c: ChunkPos, offset: BlockPos, b: BlockPos, air: RuntimeId)
    requires Shows(chunk, c, offset, map[], air) && ChunkOfBlock(Moved(b, offset)) == c
    ensures CellIn(chunk, Moved(b, offset), air) == air
  {
    hide CellIn, ChunkOfBlock;
  }

  /** So an overlay block in the next chunk column of a 16-wide store is lost. */
  method OverlayBlockLost(air: RuntimeId, id: RuntimeId) returns (chunk: Option<Chunk>)
    requires id != air
    ensures chunk.Some? && CellIn(chunk.value, BlockPos(16, 0, 0), air) == air
  {
    hide Shows, CellIn, Outside, Holds;
    var lost := BlockPos(16, 0, 0);
    NothingOutside(Size(0, 0, 0));
    NothingOutside(Size(16, 16, 16));
    var store := new SparseBlockStore(air);
    store.SetSize(Size(16, 16, 16));
    store.SetIncludeOutOfBounds(true);
    store.Put(lost, id);
    chunk := store.GetChunk(ChunkPos(1, 0));
    assert store.NoColumns(ChunkPos(1, 0));
    assert Moved(lost, store.offset) == lost;
    ShownNothing(chunk.value, ChunkPos(1, 0), store.offset, lost, air);
  }
}
