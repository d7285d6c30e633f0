/** Chunks as the materialisers build them: subchunk layers created on first use
    and written cell by cell, and the blocks they then hold. */
module ChunkCells {
  import opened Coordinates
  import opened StructureCells

  /** A chunk's layers by subchunk y, which counts from -4 at structure y 0. */
  type Chunk = map<int, Layer>

  function ChunkOfBlock(b: BlockPos): ChunkPos {
    ChunkPos(b.x / 16, b.z / 16)
  }

  /** One record applied to its chunk: a new subchunk starts as air. */
  function ApplyTo(chunk: Chunk, record: Placing, air: RuntimeId): Chunk {
    var b := record.pos;
    var subY := (b.y - 64) / 16;
    var layer: Layer := if subY in chunk then chunk[subY] else AllOf(air);
    var index := LayerIndex(b.x % 16, b.y % 16, b.z % 16);
    chunk[subY := layer[index := record.id]]
  }

  function AllOf(air: RuntimeId): Layer {
    seq(4096, _ => air)
  }

  /** The records of one chunk column, applied in order. */
  function ReplayChunk(chunk: Chunk, records: seq<Placing>, c: ChunkPos, air: RuntimeId): Chunk {
    if records == [] then chunk
    else
      var before, last := ReplayChunk(chunk, records[..|records| - 1], c, air), records[|records| - 1];
      if ChunkOfBlock(last.pos) == c then ApplyTo(before, last, air) else before
  }

  /** One record applied to the requested chunks. */
  function Apply(chunks: map<ChunkPos, Chunk>, record: Placing, air: RuntimeId): map<ChunkPos, Chunk> {
    var c := ChunkOfBlock(record.pos);
    if c in chunks then chunks[c := ApplyTo(chunks[c], record, air)] else chunks
  }

  function Replay(chunks: map<ChunkPos, Chunk>, records: seq<Placing>, air: RuntimeId): map<ChunkPos, Chunk> {
    if records == [] then chunks
    else Apply(Replay(chunks, records[..|records| - 1], air), records[|records| - 1], air)
  }

  /** The block a chunk holds at a position. */
  function CellIn(chunk: Chunk, b: BlockPos, air: RuntimeId): RuntimeId {
    var subY := (b.y - 64) / 16;
    if subY in chunk then chunk[subY][LayerIndex(b.x % 16, b.y % 16, b.z % 16)] else air
  }

  /** Element by element, layer `s` of chunk column `c` holds the answer for the
      position of the element, taken back by the offset; a missing layer stands for
      air. */
  ghost predicate Holds(chunk: Chunk, c: ChunkPos, offset: BlockPos, air: RuntimeId, answer: BlockPos -> RuntimeId) {
    forall s: int, k: nat | k < 4096 ::
      (if s in chunk then chunk[s][k] else air)
        == var b := ElementBlock(SubChunkPos(c.x, s, c.z), k);
           answer(BlockPos(b.x - offset.x, b.y - offset.y, b.z - offset.z))
  }

  /** What a chunk holds cell by cell it holds element by element. */
  lemma CellsAreElements(chunk: Chunk, c: ChunkPos, offset: BlockPos, air: RuntimeId, answer: BlockPos -> RuntimeId)
    requires forall b | ChunkOfBlock(b) == c ::
      CellIn(chunk, b, air) == answer(BlockPos(b.x - offset.x, b.y - offset.y, b.z - offset.z))
    ensures Holds(chunk, c, offset, air, answer)
  {
    hide ElementBlock, LayerIndex;
    forall s: int, k: nat | k < 4096
      ensures (if s in chunk then chunk[s][k] else air)
        == var b := ElementBlock(SubChunkPos(c.x, s, c.z), k);
           answer(BlockPos(b.x - offset.x, b.y - offset.y, b.z - offset.z))
    {
      var b := ElementBlock(SubChunkPos(c.x, s, c.z), k);
      ElementDigits(SubChunkPos(c.x, s, c.z), k);
      assert ChunkOfBlock(b) == c;
      assert SubOf(b).y == s;
    }
  }

  /** The last record at a position, air included. */
  function LastAt(records: seq<Placing>, b: BlockPos, air: RuntimeId): RuntimeId {
    if records == [] then air
    else if records[|records| - 1].pos == b then records[|records| - 1].id
    else LastAt(records[..|records| - 1], b, air)
  }

  lemma ApplyCell(chunk: Chunk, record: Placing, air: RuntimeId, b: BlockPos)
    requires ChunkOfBlock(record.pos) == ChunkOfBlock(b)
    ensures CellIn(ApplyTo(chunk, record, air), b, air) == if record.pos == b then record.id else CellIn(chunk, b, air)
  {
    var p := record.pos;
    if (p.y - 64) / 16 == (b.y - 64) / 16
      && LayerIndex(p.x % 16, p.y % 16, p.z % 16) == LayerIndex(b.x % 16, b.y % 16, b.z % 16) {
      SameIndex(p.x % 16, p.y % 16, p.z % 16, b.x % 16, b.y % 16, b.z % 16);
      assert p == b;
    }
  }

  lemma SameIndex(x: nat, y: nat, z: nat, x': nat, y': nat, z': nat)
    requires x < 16 && y < 16 && z < 16 && x' < 16 && y' < 16 && z' < 16
    requires LayerIndex(x, y, z) == LayerIndex(x', y', z')
    ensures x == x' && y == y' && z == z'
  {
  }

  lemma {:induction false} ReplayCell(records: seq<Placing>, air: RuntimeId, b: BlockPos)
    ensures CellIn(ReplayChunk(map[], records, ChunkOfBlock(b), air), b, air) == LastAt(records, b, air)
  {
    if records != [] {
      var init, last := records[..|records| - 1], records[|records| - 1];
      ReplayCell(init, air, b);
      hide CellIn, ApplyTo;
      if ChunkOfBlock(last.pos) == ChunkOfBlock(b) {
        ApplyCell(ReplayChunk(map[], init, ChunkOfBlock(b), air), last, air, b);
      }
    }
  }

  function Moved(b: BlockPos, offset: BlockPos): BlockPos {
    BlockPos(b.x + offset.x, b.y + offset.y, b.z + offset.z)
  }

  /** The inverse of `Moved`. */
  function Back(b: BlockPos, base: BlockPos): BlockPos {
    BlockPos(b.x - base.x, b.y - base.y, b.z - base.z)
  }

  /** Chunk `c` shows a set of blocks given in coordinates `offset` away, and
      nothing else. */
  ghost predicate Shows(chunk: Chunk, c: ChunkPos, offset: BlockPos, shown: map<BlockPos, RuntimeId>, air: RuntimeId) {
    forall b | ChunkOfBlock(Moved(b, offset)) == c ::
      CellIn(chunk, Moved(b, offset), air) == if b in shown then shown[b] else air
  }

  lemma ShowsNothing(c: ChunkPos, offset: BlockPos, air: RuntimeId)
    ensures Shows(map[], c, offset, map[], air)
  {
  }

  lemma ShowsOneMore(
    chunk: Chunk, c: ChunkPos, offset: BlockPos, shown: map<BlockPos, RuntimeId>, air: RuntimeId, b: BlockPos,
    id: RuntimeId)
    requires Shows(chunk, c, offset, shown, air) && ChunkOfBlock(Moved(b, offset)) == c
    ensures Shows(ApplyTo(chunk, Placing(Moved(b, offset), id), air), c, offset, shown[b := id], air)
  {
    hide CellIn, ApplyTo, ChunkOfBlock;
    var after := ApplyTo(chunk, Placing(Moved(b, offset), id), air);
    forall other | ChunkOfBlock(Moved(other, offset)) == c
      ensures CellIn(after, Moved(other, offset), air) == if other in shown[b := id] then shown[b := id][other] else air
    {
      ApplyCell(chunk, Placing(Moved(b, offset), id), air, Moved(other, offset));
    }
  }

  /** The positions from `lo` up to, but not including, `hi` on every axis. */
  datatype Cuboid = Cuboid(lo: BlockPos, hi: BlockPos)

  predicate Within(box: Cuboid, b: BlockPos) {
    box.lo.x <= b.x < box.hi.x && box.lo.y <= b.y < box.hi.y && box.lo.z <= b.z < box.hi.z
  }

  /** Column `c` of a chunk after one block id has been written over a cuboid. */
  ghost predicate Painted(after: Chunk, before: Chunk, c: ChunkPos, box: Cuboid, id: RuntimeId, air: RuntimeId) {
    forall b | ChunkOfBlock(b) == c :: CellIn(after, b, air) == if Within(box, b) then id else CellIn(before, b, air)
  }

  lemma PaintedNothing(chunk: Chunk, c: ChunkPos, box: Cuboid, id: RuntimeId, air: RuntimeId)
    requires forall b :: !Within(box, b)
    ensures Painted(chunk, chunk, c, box, id, air)
  {
  }

  lemma PaintedOne(chunk: Chunk, b: BlockPos, id: RuntimeId, air: RuntimeId)
    ensures Painted(ApplyTo(chunk, Placing(b, id), air), chunk, ChunkOfBlock(b), Cuboid(b, Moved(b, BlockPos(1, 1, 1))),
      id, air)
  {
    hide CellIn, ApplyTo, ChunkOfBlock;
    forall other | ChunkOfBlock(other) == ChunkOfBlock(b)
      ensures CellIn(ApplyTo(chunk, Placing(b, id), air), other, air) == if b == other then id
        else CellIn(chunk, other, air)
    {
      ApplyCell(chunk, Placing(b, id), air, other);
    }
  }

  lemma PaintedBoth(
    first: Chunk, second: Chunk, third: Chunk, c: ChunkPos, p: Cuboid, q: Cuboid, both: Cuboid, id: RuntimeId,
    air: RuntimeId)
    requires Painted(second, first, c, p, id, air) && Painted(third, second, c, q, id, air)
    requires forall b :: Within(both, b) <==> Within(p, b) || Within(q, b)
    ensures Painted(third, first, c, both, id, air)
  {
    hide CellIn, ChunkOfBlock;
  }

  function Beam(x: int, y: int, z0: int, z1: int): Cuboid {
    Cuboid(BlockPos(x, y, z0), BlockPos(x + 1, y + 1, z1))
  }

  function Sheet(x0: int, x1: int, y: int, z0: int, z1: int): Cuboid {
    Cuboid(BlockPos(x0, y, z0), BlockPos(x1, y + 1, z1))
  }
}
