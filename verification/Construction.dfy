/** `ConstructionReader::materialize_chunks`: sections in index order, each clipped
    to the structure and skipped when it cannot touch a requested chunk. */
module Constructions {
  import opened Options
  import opened Arithmetic
  import BdxBytes
  import opened Coordinates
  import opened StructureCells
  import opened ChunkCells

  /** A row of the section index table. */
  datatype Entry = Entry(
    start: BlockPos, shapeX: BdxBytes.Byte, shapeY: BdxBytes.Byte, shapeZ: BdxBytes.Byte, position: int, length: int)

  /** The decoded payload of a section: its block indices in x, y, z order and the
      shape it states itself. */
  datatype Payload = Payload(blocks: seq<int>, shape: (int, int, int))

  /** What `read` keeps of the file; an unreadable payload is `None`. */
  datatype Source = Source(
    entries: seq<Entry>, payloads: seq<Option<Payload>>, fileSize: nat, palette: seq<RuntimeId>, unknown: RuntimeId,
    air: RuntimeId, size: Size, minimum: BlockPos, offset: BlockPos)
  {
    predicate Paired() {
      |payloads| == |entries|
    }

    function Blocks(i: nat): seq<int>
      requires Paired() && i < |entries|
    {
      if payloads[i].Some? then payloads[i].value.blocks else []
    }

    /** An index outside the palette stands for the unknown block. */
    function Runtime(index: int): RuntimeId {
      if 0 <= index < |palette| then palette[index] else unknown
    }

    /** The structure position of cell (x, y, z) of a section. */
    function Local(i: nat, x: int, y: int, z: int): BlockPos
      requires i < |entries|
    {
      var start := entries[i].start;
      BlockPos(start.x - minimum.x + x, start.y - minimum.y + y, start.z - minimum.z + z)
    }

    predicate Dropped(i: nat)
      requires i < |entries|
    {
      var e := entries[i];
      e.length <= 0 || e.shapeX == 0 || e.shapeY == 0 || e.shapeZ == 0
    }

    function CellIndex(i: nat, x: nat, y: nat, z: nat): nat
      requires i < |entries|
    {
      (x * entries[i].shapeY + y) * entries[i].shapeZ + z
    }

    /** What a section has at one of its cells. */
    function CellAt(i: nat, x: nat, y: nat, z: nat): RuntimeId
      requires Paired() && i < |entries|
    {
      if CellIndex(i, x, y, z) < |Blocks(i)| then Runtime(Blocks(i)[CellIndex(i, x, y, z)]) else air
    }

    /** Section `i` has a block at structure position `b`. */
    predicate Has(i: nat, b: BlockPos)
      requires i < |entries|
    {
      var e, x, y, z := entries[i], RelX(i, b), RelY(i, b), RelZ(i, b);
      !Dropped(i) && 0 <= x < e.shapeX && 0 <= y < e.shapeY && 0 <= z < e.shapeZ
    }

    function RelX(i: nat, b: BlockPos): int
      requires i < |entries|
    {
      b.x - (entries[i].start.x - minimum.x)
    }

    function RelY(i: nat, b: BlockPos): int
      requires i < |entries|
    {
      b.y - (entries[i].start.y - minimum.y)
    }

    function RelZ(i: nat, b: BlockPos): int
      requires i < |entries|
    {
      b.z - (entries[i].start.z - minimum.z)
    }

    function At(i: nat, b: BlockPos): RuntimeId
      requires Paired() && i < |entries|
    {
      if Has(i, b) then CellAt(i, RelX(i, b), RelY(i, b), RelZ(i, b)) else air
    }

    /** The last of the first `count` sections with a solid block at `b` decides. */
    function LastSolid(count: nat, b: BlockPos): RuntimeId
      requires Paired() && count <= |entries|
    {
      if count == 0 then air
      else if At(count - 1, b) != air then At(count - 1, b)
      else LastSolid(count - 1, b)
    }

    /** Part way through section `i`: its cells before (x, z, y) are in. */
    function PartWay(i: nat, x: int, z: int, y: int, b: BlockPos): RuntimeId
      requires Paired() && i < |entries|
    {
      if Before(i, x, z, y, b) && At(i, b) != air then At(i, b) else LastSolid(i, b)
    }

    predicate Before(i: nat, x: int, z: int, y: int, b: BlockPos)
      requires i < |entries|
    {
      || RelX(i, b) < x || (RelX(i, b) == x && RelZ(i, b) < z)
      || (RelX(i, b) == x && RelZ(i, b) == z && RelY(i, b) < y)
    }

    /** The range and shape checks a requested section must pass. */
    predicate Sound(i: nat)
      requires Paired() && i < |entries|
    {
      var e, p := entries[i], payloads[i];
      && 0 <= e.position <= fileSize && e.length <= fileSize - e.position && p.Some?
      && (p.value.shape.0 > 0 && p.value.shape.1 > 0 && p.value.shape.2 > 0
          ==> p.value.shape.0 * p.value.shape.1 * p.value.shape.2 == |p.value.blocks|)
      && (p.value.blocks != [] ==> |p.value.blocks| >= e.shapeX * e.shapeY * e.shapeZ)
    }

    /** The prefilter: the clipped footprint reaches a requested chunk. */
    predicate Requested(i: nat, positions: set<ChunkPos>)
      requires i < |entries|
    {
      var lo, hi := Local(i, 0, 0, 0), Local(i, entries[i].shapeX - 1, 0, entries[i].shapeZ - 1);
      var x0, x1 := Larger(0, lo.x), Smaller(size.width - 1, hi.x);
      var z0, z1 := Larger(0, lo.z), Smaller(size.length - 1, hi.z);
      && x0 <= x1 && z0 <= z1
      && exists c :: c in positions && Reaches(c, x0, x1, z0, z1)
    }

    /** The clipped footprint leaves the int32 range once moved. */
    predicate FootprintLeaves(i: nat)
      requires i < |entries|
    {
      var lo, hi := Local(i, 0, 0, 0), Local(i, entries[i].shapeX - 1, 0, entries[i].shapeZ - 1);
      || !IsInt32(Larger(0, lo.x) + offset.x) || !IsInt32(Smaller(size.width - 1, hi.x) + offset.x)
      || !IsInt32(Larger(0, lo.z) + offset.z) || !IsInt32(Smaller(size.length - 1, hi.z) + offset.z)
    }

    /** A solid block that a requested chunk should show, moved too high or low. */
    predicate BlockLeaves(i: nat, positions: set<ChunkPos>, b: BlockPos)
      requires Paired() && i < |entries|
    {
      && InBounds(size, b) && At(i, b) != air
      && ChunkOfBlock(Moved(b, offset)) in positions && !IsInt32(b.y + offset.y)
    }

    predicate Reaches(c: ChunkPos, x0: int, x1: int, z0: int, z1: int) {
      (x0 + offset.x) / 16 <= c.x <= (x1 + offset.x) / 16 && (z0 + offset.z) / 16 <= c.z <= (z1 + offset.z) / 16
    }

    /** The coordinate failures, cell by cell, row by row, plane by plane. */
    predicate CellFails(i: nat, x: nat, z: nat, y: nat)
      requires Paired() && i < |entries|
    {
      var b := Local(i, x, y, z);
      0 <= b.y < size.height && CellAt(i, x, y, z) != air && !IsInt32(b.y + offset.y)
    }

    predicate RowFails(i: nat, x: nat, z: nat, positions: set<ChunkPos>)
      requires Paired() && i < |entries|
    {
      var b := Local(i, x, 0, z);
      && 0 <= b.z < size.length
      && (!IsInt32(b.z + offset.z)
          || (ChunkOfBlock(Moved(b, offset)) in positions && exists y ::
            0 <= y < entries[i].shapeY && CellFails(i, x, z, y)))
    }

    predicate PlaneFails(i: nat, x: nat, positions: set<ChunkPos>)
      requires Paired() && i < |entries|
    {
      var b := Local(i, x, 0, 0);
      && 0 <= b.x < size.width
      && (!IsInt32(b.x + offset.x) || exists z :: 0 <= z < entries[i].shapeZ && RowFails(i, x, z, positions))
    }

    /** What makes materialising fail: a requested section that is unsound, or one
        with blocks some of which leave the int32 range once moved. */
    predicate Fails(i: nat, positions: set<ChunkPos>)
      requires Paired() && i < |entries|
    {
      && !Dropped(i) && Requested(i, positions)
      && (!Sound(i) || (Blocks(i) != [] && exists x :: 0 <= x < entries[i].shapeX && PlaneFails(i, x, positions)))
    }
  }

  type Chunks = map<ChunkPos, Chunk>

  /** Every requested chunk shows, at each in-bounds position, the last solid block
      of the sections so far. */
  ghost predicate ShowsUpTo(s: Source, chunks: Chunks, count: nat)
    requires s.Paired() && count <= |s.entries|
  {
    forall c, b | c in chunks && ChunkOfBlock(b) == c ::
      CellIn(chunks[c], b, s.air) == var l :=
        Back(b, s.offset); if InBounds(s.size, l) then s.LastSolid(count, l) else s.air
  }

  ghost predicate ShowsPartWay(s: Source, chunks: Chunks, i: nat, x: int, z: int, y: int)
    requires s.Paired() && i < |s.entries|
  {
    forall c, b | c in chunks && ChunkOfBlock(b) == c ::
      CellIn(chunks[c], b, s.air)
      == var l := Back(b, s.offset); if InBounds(s.size, l) then s.PartWay(i, x, z, y, l) else s.air
  }

  /** Two stages that agree wherever a requested chunk looks show the same. */
  lemma SameStage(s: Source, chunks: Chunks, i: nat, x: int, z: int, y: int, x': int, z': int, y': int)
    requires s.Paired() && i < |s.entries| && ShowsPartWay(s, chunks, i, x, z, y)
    requires forall l | InBounds(s.size, l) && ChunkOfBlock(Moved(l, s.offset)) in chunks ::
      s.PartWay(i, x, z, y, l) == s.PartWay(i, x', z', y', l)
    ensures ShowsPartWay(s, chunks, i, x', z', y')
  {
    hide CellIn, ChunkOfBlock, s.PartWay, InBounds;
    forall c, b | c in chunks && ChunkOfBlock(b) == c
      ensures CellIn(chunks[c], b, s.air)
        == var l := Back(b, s.offset); if InBounds(s.size, l) then s.PartWay(i, x', z', y', l) else s.air
    {
      assert Moved(Back(b, s.offset), s.offset) == b;
    }
  }

  lemma StartSection(s: Source, chunks: Chunks, i: nat)
    requires s.Paired() && i < |s.entries| && ShowsUpTo(s, chunks, i)
    ensures ShowsPartWay(s, chunks, i, 0, 0, 0)
  {
    hide CellIn, ChunkOfBlock, s.CellAt, s.LastSolid, InBounds;
  }

  lemma FinishSection(s: Source, chunks: Chunks, i: nat)
    requires s.Paired() && i < |s.entries| && ShowsPartWay(s, chunks, i, s.entries[i].shapeX, 0, 0)
    ensures ShowsUpTo(s, chunks, i + 1)
  {
    hide CellIn, ChunkOfBlock, s.CellAt, InBounds;
    forall l
      ensures s.PartWay(i, s.entries[i].shapeX, 0, 0, l) == s.LastSolid(i + 1, l)
    {
      assert s.Has(i, l) ==> s.Before(i, s.entries[i].shapeX, 0, 0, l);
    }
    hide s.PartWay, s.LastSolid;
  }

  /** A section with a cell a requested chunk shows is requested. */
  lemma ShownSectionIsRequested(s: Source, positions: set<ChunkPos>, i: nat, l: BlockPos)
    requires i < |s.entries| && InBounds(s.size, l) && ChunkOfBlock(Moved(l, s.offset)) in positions
    ensures s.Has(i, l) ==> s.Requested(i, positions)
  {
    if s.Has(i, l) {
      var lo, hi := s.Local(i, 0, 0, 0), s.Local(i, s.entries[i].shapeX - 1, 0, s.entries[i].shapeZ - 1);
      assert s.Reaches(ChunkOfBlock(Moved(l, s.offset)), Larger(0, lo.x), Smaller(s.size.width - 1, hi.x),
        Larger(0, lo.z), Smaller(s.size.length - 1, hi.z));
    }
  }

  /** The prefilter drops nothing: a section that is skipped has no solid block at
      any position a requested chunk shows. */
  lemma SkippedSectionHasNothing(s: Source, positions: set<ChunkPos>, i: nat, l: BlockPos)
    requires s.Paired() && i < |s.entries| && InBounds(s.size, l) && ChunkOfBlock(Moved(l, s.offset)) in positions
    requires s.Dropped(i) || !s.Requested(i, positions) || s.Blocks(i) == []
    ensures s.At(i, l) == s.air
  {
    hide s.Requested, s.Local;
    ShownSectionIsRequested(s, positions, i, l);
  }

  lemma SkipSection(s: Source, chunks: Chunks, i: nat)
    requires s.Paired() && i < |s.entries| && ShowsUpTo(s, chunks, i)
    requires s.Dropped(i) || !s.Requested(i, chunks.Keys) || s.Blocks(i) == []
    ensures ShowsUpTo(s, chunks, i + 1)
  {
    hide CellIn, ChunkOfBlock, s.At, InBounds, s.Dropped, s.Requested, s.Blocks;
    forall c, b | c in chunks && ChunkOfBlock(b) == c && InBounds(s.size, Back(b, s.offset))
      ensures s.LastSolid(i + 1, Back(b, s.offset)) == s.LastSolid(i, Back(b, s.offset))
    {
      assert Moved(Back(b, s.offset), s.offset) == b;
      SkippedSectionHasNothing(s, chunks.Keys, i, Back(b, s.offset));
    }
  }

  lemma NextPlane(s: Source, chunks: Chunks, i: nat, x: int)
    requires s.Paired() && i < |s.entries|
    requires ShowsPartWay(s, chunks, i, x, s.entries[i].shapeZ, 0)
      || (ShowsPartWay(s, chunks, i, x, 0, 0) && !(0 <= s.Local(i, x, 0, 0).x < s.size.width))
    ensures ShowsPartWay(s, chunks, i, x + 1, 0, 0)
  {
    hide s.CellAt, s.LastSolid, ShowsPartWay, ChunkOfBlock;
    if ShowsPartWay(s, chunks, i, x, s.entries[i].shapeZ, 0) {
      SameStage(s, chunks, i, x, s.entries[i].shapeZ, 0, x + 1, 0, 0);
    } else {
      SameStage(s, chunks, i, x, 0, 0, x + 1, 0, 0);
    }
  }

  lemma NextRow(s: Source, chunks: Chunks, i: nat, x: int, z: int)
    requires s.Paired() && i < |s.entries|
    requires
      || ShowsPartWay(s, chunks, i, x, z, s.entries[i].shapeY)
      || (ShowsPartWay(s, chunks, i, x, z, 0)
        && (!(0 <= s.Local(i, x, 0, z).z < s.size.length)
          || ChunkOfBlock(Moved(s.Local(i, x, 0, z), s.offset)) !in chunks))
    ensures ShowsPartWay(s, chunks, i, x, z + 1, 0)
  {
    hide s.CellAt, s.LastSolid, ShowsPartWay;
    if ShowsPartWay(s, chunks, i, x, z, s.entries[i].shapeY) {
      SameStage(s, chunks, i, x, z, s.entries[i].shapeY, x, z + 1, 0);
    } else {
      SameStage(s, chunks, i, x, z, 0, x, z + 1, 0);
    }
  }

  lemma SkipCell(s: Source, chunks: Chunks, i: nat, x: nat, z: nat, y: nat)
    requires s.Paired() && i < |s.entries| && ShowsPartWay(s, chunks, i, x, z, y)
    requires !(0 <= s.Local(i, x, y, z).y < s.size.height) || s.CellAt(i, x, y, z) == s.air
    ensures ShowsPartWay(s, chunks, i, x, z, y + 1)
  {
    hide s.CellAt, s.LastSolid, ShowsPartWay, ChunkOfBlock;
    SameStage(s, chunks, i, x, z, y, x, z, y + 1);
  }

  /** What one placed cell changes in the stage. */
  lemma OnlyThisCell(s: Source, i: nat, x: nat, z: nat, y: nat, l: BlockPos)
    requires s.Paired() && i < |s.entries| && s.CellAt(i, x, y, z) != s.air && !s.Dropped(i)
    requires x < s.entries[i].shapeX && y < s.entries[i].shapeY && z < s.entries[i].shapeZ
    ensures s.PartWay(i, x, z, y + 1, l)
      == if l == s.Local(i, x, y, z) then s.CellAt(i, x, y, z) else s.PartWay(i, x, z, y, l)
  {
    hide s.CellAt, s.LastSolid;
  }

  lemma PlaceCell(s: Source, chunks: Chunks, i: nat, x: nat, z: nat, y: nat)
    requires s.Paired() && i < |s.entries| && ShowsPartWay(s, chunks, i, x, z, y)
    requires s.CellAt(i, x, y, z) != s.air && !s.Dropped(i) && InBounds(s.size, s.Local(i, x, y, z))
    requires x < s.entries[i].shapeX && y < s.entries[i].shapeY && z < s.entries[i].shapeZ
    requires ChunkOfBlock(Moved(s.Local(i, x, y, z), s.offset)) in chunks
    ensures var world := Moved(s.Local(i, x, y, z), s.offset);
      var c := ChunkOfBlock(world);
      ShowsPartWay(s, chunks[c := ApplyTo(chunks[c], Placing(world, s.CellAt(i, x, y, z)), s.air)], i, x, z, y + 1)
  {
    hide s.CellAt, s.LastSolid, s.PartWay, s.Local, CellIn, ApplyTo, ChunkOfBlock, InBounds;
    var local, id := s.Local(i, x, y, z), s.CellAt(i, x, y, z);
    var world := Moved(local, s.offset);
    var after := chunks[ChunkOfBlock(world) := ApplyTo(chunks[ChunkOfBlock(world)], Placing(world, id), s.air)];
    forall c, b | c in after && ChunkOfBlock(b) == c
      ensures CellIn(after[c], b, s.air)
        == var l := Back(b, s.offset); if InBounds(s.size, l) then s.PartWay(i, x, z, y + 1, l) else s.air
    {
      OnlyThisCell(s, i, x, z, y, Back(b, s.offset));
      assert b == world <==> Back(b, s.offset) == local;
      if c == ChunkOfBlock(world) {
        ApplyCell(chunks[c], Placing(world, id), s.air, b);
      }
    }
  }

  /** The y loop of one row, whose chunk is requested. */
  method PlaceRow(s: Source, chunks: Chunks, i: nat, x: nat, z: nat, c: ChunkPos) returns (chunks': Option<Chunks>)
    requires s.Paired() && i < |s.entries| && !s.Dropped(i) && s.Sound(i) && s.Blocks(i) != []
    requires x < s.entries[i].shapeX && z < s.entries[i].shapeZ && ShowsPartWay(s, chunks, i, x, z, 0)
    requires 0 <= s.Local(i, x, 0, z).x < s.size.width && 0 <= s.Local(i, x, 0, z).z < s.size.length
    requires c in chunks && c == ChunkOfBlock(Moved(s.Local(i, x, 0, z), s.offset))
    ensures chunks' == None <==> exists y :: 0 <= y < s.entries[i].shapeY && s.CellFails(i, x, z, y)
    ensures chunks'.Some?
      ==> chunks'.value.Keys == chunks.Keys && ShowsPartWay(s, chunks'.value, i, x, z, s.entries[i].shapeY)
  {
    hide ShowsPartWay, ApplyTo, s.Sound, s.Dropped, s.CellIndex;
    var result := chunks;
    for y := 0 to s.entries[i].shapeY
      invariant result.Keys == chunks.Keys && ShowsPartWay(s, result, i, x, z, y)
      invariant forall y' :: 0 <= y' < y ==> !s.CellFails(i, x, z, y')
    {
      var local := s.Local(i, x, y, z);
      CellIsThere(s, i, x, y, z);
      var id := s.Runtime(s.Blocks(i)[s.CellIndex(i, x, y, z)]);
      if !(0 <= local.y < s.size.height) || id == s.air {
        SkipCell(s, result, i, x, z, y);
        continue;
      }
      var world := Moved(local, s.offset);
      if !IsInt32(world.y) {
        assert s.CellFails(i, x, z, y);
        return None;
      }
      PlaceCell(s, result, i, x, z, y);
      result := result[c := ApplyTo(result[c], Placing(world, id), s.air)];
    }
    chunks' := Some(result);
  }

  /** A sound section has every cell of its shape. */
  lemma CellIsThere(s: Source, i: nat, x: nat, y: nat, z: nat)
    requires s.Paired() && i < |s.entries| && s.Sound(i) && s.Blocks(i) != []
    requires x < s.entries[i].shapeX && y < s.entries[i].shapeY && z < s.entries[i].shapeZ
    ensures s.CellIndex(i, x, y, z) < |s.Blocks(i)|
    ensures s.CellAt(i, x, y, z) == s.Runtime(s.Blocks(i)[s.CellIndex(i, x, y, z)])
  {
    CellIndexFits(x, y, z, s.entries[i].shapeX, s.entries[i].shapeY, s.entries[i].shapeZ);
  }

  lemma CellIndexFits(x: nat, y: nat, z: nat, shapeX: nat, shapeY: nat, shapeZ: nat)
    requires x < shapeX && y < shapeY && z < shapeZ
    ensures (x * shapeY + y) * shapeZ + z < shapeX * shapeY * shapeZ
  {
    RowMajor(x, y, shapeX, shapeY);
    RowMajor(x * shapeY + y, z, shapeX * shapeY, shapeZ);
  }

  lemma RowMajor(a: nat, b: nat, rows: nat, columns: nat)
    requires a < rows && b < columns
    ensures a * columns + b < rows * columns
  {
    Multiples(a, rows, columns);
  }

  /** The z loop of one x plane. */
  method PlacePlane(s: Source, chunks: Chunks, i: nat, x: nat) returns (chunks': Option<Chunks>)
    requires s.Paired() && i < |s.entries| && !s.Dropped(i) && s.Sound(i) && s.Blocks(i) != []
    requires x < s.entries[i].shapeX && ShowsPartWay(s, chunks, i, x, 0, 0) && 0 <= s.Local(i, x, 0, 0).x < s.size.width
    ensures chunks' == None <==> exists z :: 0 <= z < s.entries[i].shapeZ && s.RowFails(i, x, z, chunks.Keys)
    ensures chunks'.Some?
      ==> chunks'.value.Keys == chunks.Keys && ShowsPartWay(s, chunks'.value, i, x, s.entries[i].shapeZ, 0)
  {
    hide ShowsPartWay, ChunkOfBlock, s.Sound, s.Dropped, s.CellFails;
    var result := chunks;
    for z := 0 to s.entries[i].shapeZ
      invariant result.Keys == chunks.Keys && ShowsPartWay(s, result, i, x, z, 0)
      invariant forall z' :: 0 <= z' < z ==> !s.RowFails(i, x, z', chunks.Keys)
    {
      var local := s.Local(i, x, 0, z);
      if !(0 <= local.z < s.size.length) {
        NextRow(s, result, i, x, z);
        continue;
      }
      if !IsInt32(local.z + s.offset.z) {
        assert s.RowFails(i, x, z, chunks.Keys);
        return None;
      }
      var c := ChunkOfBlock(Moved(local, s.offset));
      if c !in result {
        NextRow(s, result, i, x, z);
        continue;
      }
      var placed := PlaceRow(s, result, i, x, z, c);
      if placed == None {
        assert s.RowFails(i, x, z, chunks.Keys);
        return None;
      }
      result := placed.value;
      NextRow(s, result, i, x, z);
    }
    chunks' := Some(result);
  }

  /** The x loop of one section. */
  method PlaceSection(s: Source, chunks: Chunks, i: nat) returns (chunks': Option<Chunks>)
    requires s.Paired() && i < |s.entries| && !s.Dropped(i) && s.Sound(i) && s.Blocks(i) != []
      && ShowsUpTo(s, chunks, i)
    ensures chunks' == None <==> exists x :: 0 <= x < s.entries[i].shapeX && s.PlaneFails(i, x, chunks.Keys)
    ensures chunks'.Some? ==> chunks'.value.Keys == chunks.Keys && ShowsUpTo(s, chunks'.value, i + 1)
  {
    hide ShowsPartWay, ShowsUpTo, s.Sound, s.Dropped, s.RowFails;
    StartSection(s, chunks, i);
    var result := chunks;
    for x := 0 to s.entries[i].shapeX
      invariant result.Keys == chunks.Keys && ShowsPartWay(s, result, i, x, 0, 0)
      invariant forall x' :: 0 <= x' < x ==> !s.PlaneFails(i, x', chunks.Keys)
    {
      var local := s.Local(i, x, 0, 0);
      if !(0 <= local.x < s.size.width) {
        NextPlane(s, result, i, x);
        continue;
      }
      if !IsInt32(local.x + s.offset.x) {
        assert s.PlaneFails(i, x, chunks.Keys);
        return None;
      }
      var placed := PlacePlane(s, result, i, x);
      if placed == None {
        assert s.PlaneFails(i, x, chunks.Keys);
        return None;
      }
      result := placed.value;
      NextPlane(s, result, i, x);
    }
    FinishSection(s, result, i);
    chunks' := Some(result);
  }

  /** Materialising shows the last solid block at every position of every requested
      chunk, or fails exactly when some section of them fails. */
  method MaterializeChunks(s: Source, positions: set<ChunkPos>) returns (chunks: Option<Chunks>)
    requires s.Paired()
    ensures chunks == None <==> exists i :: 0 <= i < |s.entries| && s.Fails(i, positions)
    ensures chunks.Some? ==> chunks.value.Keys == positions && ShowsUpTo(s, chunks.value, |s.entries|)
    ensures chunks.Some? ==> forall c | c in positions ::
      c in chunks.value && Holds(chunks.value[c], c, s.offset, s.air, p => Answer(s, p))
  {
    chunks := PlaceSections(s, positions);
    hide ShowsUpTo;
    if chunks.Some? {
      ShownElements(s, chunks.value);
    }
  }

  /** What the sections put at structure position `p`. */
  function Answer(s: Source, p: BlockPos): RuntimeId {
    if s.Paired() && InBounds(s.size, p) then s.LastSolid(|s.entries|, p) else s.air
  }

  lemma ShownElements(s: Source, chunks: Chunks)
    requires s.Paired() && ShowsUpTo(s, chunks, |s.entries|)
    ensures forall c | c in chunks :: Holds(chunks[c], c, s.offset, s.air, p => Answer(s, p))
  {
    hide CellIn, s.LastSolid, ChunkOfBlock, InBounds;
    forall c | c in chunks
      ensures Holds(chunks[c], c, s.offset, s.air, p => Answer(s, p))
    {
      CellsAreElements(chunks[c], c, s.offset, s.air, p => Answer(s, p));
    }
  }

  /** The position that counting z fastest, then y, then x gives block number `n` of
      a section's list. */
  function ListedAt(s: Source, e: Entry, n: nat): BlockPos
    requires e.shapeY > 0 && e.shapeZ > 0
  {
    BlockPos(
      e.start.x - s.minimum.x + n / e.shapeZ / e.shapeY,
      e.start.y - s.minimum.y + n / e.shapeZ % e.shapeY,
      e.start.z - s.minimum.z + n % e.shapeZ)
  }

  /** There the section has that block, out of its palette. */
  lemma ListedBlock(s: Source, i: nat, n: nat)
    requires s.Paired() && i < |s.entries| && !s.Dropped(i) && n < |s.Blocks(i)|
    requires n < s.entries[i].shapeX * s.entries[i].shapeY * s.entries[i].shapeZ
    ensures s.entries[i].shapeY > 0 && s.entries[i].shapeZ > 0
    ensures s.At(i, ListedAt(s, s.entries[i], n))
      == if 0 <= s.Blocks(i)[n] < |s.palette| then s.palette[s.Blocks(i)[n]] else s.unknown
  {
    hide s.Blocks, s.At, s.Dropped, ListedAt;
    var e := s.entries[i];
    NotFlat(s, i);
    var q, z := n / e.shapeZ, n % e.shapeZ;
    var x, y := q / e.shapeY, q % e.shapeY;
    ListDigits(n, e.shapeX, e.shapeY, e.shapeZ);
    ListedHere(s, i, n, x, y, z);
  }

  lemma ListedHere(s: Source, i: nat, n: nat, x: nat, y: nat, z: nat)
    requires s.Paired() && i < |s.entries| && !s.Dropped(i) && n < |s.Blocks(i)|
    requires x < s.entries[i].shapeX && y < s.entries[i].shapeY && z < s.entries[i].shapeZ
    requires x == n / s.entries[i].shapeZ / s.entries[i].shapeY
    requires y == n / s.entries[i].shapeZ % s.entries[i].shapeY && z == n % s.entries[i].shapeZ
    requires (x * s.entries[i].shapeY + y) * s.entries[i].shapeZ + z == n
    ensures s.At(i, ListedAt(s, s.entries[i], n)) == s.Runtime(s.Blocks(i)[n])
  {
    hide s.Blocks, s.At, s.Dropped, s.CellIndex, s.Runtime;
    AtCell(s, i, x, y, z);
    NumberedCell(s, i, x, y, z);
  }

  lemma NotFlat(s: Source, i: nat)
    requires i < |s.entries| && !s.Dropped(i)
    ensures s.entries[i].shapeX > 0 && s.entries[i].shapeY > 0 && s.entries[i].shapeZ > 0
  {
  }

  lemma AtCell(s: Source, i: nat, x: nat, y: nat, z: nat)
    requires s.Paired() && i < |s.entries| && !s.Dropped(i)
    requires x < s.entries[i].shapeX && y < s.entries[i].shapeY && z < s.entries[i].shapeZ
    ensures var start := s.entries[i].start;
      s.At(i, BlockPos(start.x - s.minimum.x + x, start.y - s.minimum.y + y, start.z - s.minimum.z + z))
        == s.CellAt(i, x, y, z)
  {
    hide s.CellAt, s.Dropped;
  }

  lemma NumberedCell(s: Source, i: nat, x: nat, y: nat, z: nat)
    requires s.Paired() && i < |s.entries|
    ensures s.CellIndex(i, x, y, z) == (x * s.entries[i].shapeY + y) * s.entries[i].shapeZ + z
  {
  }

  lemma ListDigits(n: nat, w: nat, h: nat, l: nat)
    requires 0 < h && 0 < l && n < w * h * l
    ensures (n / l / h * h + n / l % h) * l + n % l == n && 0 <= n / l / h < w
  {
    var q: nat := n / l;
    Recompose(n, l);
    Recompose(q, h);
    if w * h <= q {
      Multiples(w * h, q, l);
    }
    if w <= q / h {
      Multiples(w, q / h, h);
    }
  }

  method PlaceSections(s: Source, positions: set<ChunkPos>) returns (chunks: Option<Chunks>)
    requires s.Paired()
    ensures chunks == None <==> exists i :: 0 <= i < |s.entries| && s.Fails(i, positions)
    ensures chunks.Some? ==> chunks.value.Keys == positions && ShowsUpTo(s, chunks.value, |s.entries|)
  {
    hide ShowsUpTo, s.Sound, s.Dropped, s.PlaneFails, s.Requested;
    var result: Chunks := map c | c in positions :: map[];
    NothingYet(s, result);
    for i := 0 to |s.entries|
      invariant result.Keys == positions && ShowsUpTo(s, result, i)
      invariant forall i' :: 0 <= i' < i ==> !s.Fails(i', positions)
    {
      if s.Dropped(i) || !s.Requested(i, positions) {
        SkipSection(s, result, i);
        continue;
      }
      if !s.Sound(i) {
        assert s.Fails(i, positions);
        return None;
      }
      if s.Blocks(i) == [] {
        SkipSection(s, result, i);
        continue;
      }
      var placed := PlaceSection(s, result, i);
      if placed == None {
        assert s.Fails(i, positions);
        return None;
      }
      result := placed.value;
    }
    chunks := Some(result);
  }

  lemma NothingYet(s: Source, chunks: Chunks)
    requires s.Paired() && forall c :: c in chunks ==> chunks[c] == map[]
    ensures ShowsUpTo(s, chunks, 0)
  {
  }

  /** A plane, row or cell that fails lies in the footprint or is a block that
      leaves. */
  lemma FailureLeaves(s: Source, positions: set<ChunkPos>, i: nat, x: nat)
    requires s.Paired() && i < |s.entries| && !s.Dropped(i)
    requires x < s.entries[i].shapeX && s.PlaneFails(i, x, positions)
    ensures s.FootprintLeaves(i) || exists b :: s.BlockLeaves(i, positions, b)
  {
    if IsInt32(s.Local(i, x, 0, 0).x + s.offset.x) {
      var z :| 0 <= z < s.entries[i].shapeZ && s.RowFails(i, x, z, positions);
      if IsInt32(s.Local(i, x, 0, z).z + s.offset.z) {
        var y :| 0 <= y < s.entries[i].shapeY && s.CellFails(i, x, z, y);
        assert s.BlockLeaves(i, positions, s.Local(i, x, y, z));
      }
    }
  }

  lemma LeavingFails(s: Source, positions: set<ChunkPos>, i: nat)
    requires s.Paired() && i < |s.entries| && !s.Dropped(i) && s.Requested(i, positions) && s.FootprintLeaves(i)
    ensures exists x :: 0 <= x < s.entries[i].shapeX && s.PlaneFails(i, x, positions)
  {
    hide s.CellFails, s.CellAt, s.Reaches;
    var lo, hi := s.Local(i, 0, 0, 0), s.Local(i, s.entries[i].shapeX - 1, 0, s.entries[i].shapeZ - 1);
    var x0, x1 := Larger(0, lo.x), Smaller(s.size.width - 1, hi.x);
    var z0, z1 := Larger(0, lo.z), Smaller(s.size.length - 1, hi.z);
    var x, z := x0 - lo.x, z0 - lo.z;
    if !IsInt32(x0 + s.offset.x) {
      assert s.PlaneFails(i, x, positions);
    } else if !IsInt32(x1 + s.offset.x) {
      assert s.PlaneFails(i, x1 - lo.x, positions);
    } else if !IsInt32(z0 + s.offset.z) {
      assert s.RowFails(i, x, z, positions);
      assert s.PlaneFails(i, x, positions);
    } else {
      assert s.RowFails(i, x, z1 - lo.z, positions);
      assert s.PlaneFails(i, x, positions);
    }
  }

  lemma BlockLeavingFails(s: Source, positions: set<ChunkPos>, i: nat, b: BlockPos)
    requires s.Paired() && i < |s.entries| && s.BlockLeaves(i, positions, b)
    ensures exists x :: 0 <= x < s.entries[i].shapeX && s.PlaneFails(i, x, positions)
  {
    hide s.CellAt;
    var x, y, z := s.RelX(i, b), s.RelY(i, b), s.RelZ(i, b);
    assert s.Has(i, b) && s.Local(i, x, y, z) == b;
    assert s.CellFails(i, x, z, y);
    assert s.RowFails(i, x, z, positions);
    assert s.PlaneFails(i, x, positions);
  }

  /** Reading checks every section with cells, requested or not. After it,
      materialising fails exactly when the footprint of a requested section leaves
      the int32 range once moved, or a solid block a chunk should show does. */
  lemma FailsAfterReadingExactlyWhen(s: Source, positions: set<ChunkPos>, i: nat)
    requires s.Paired() && i < |s.entries|
    requires forall j | 0 <= j < |s.entries| :: !s.Dropped(j) ==> s.Sound(j)
    ensures s.Fails(i, positions) <==>
      && !s.Dropped(i) && s.Requested(i, positions) && s.Blocks(i) != []
      && (s.FootprintLeaves(i) || exists b :: s.BlockLeaves(i, positions, b))
  {
    hide s.Sound, s.Dropped, s.Requested, s.PlaneFails, s.FootprintLeaves, s.BlockLeaves, s.Blocks;
    if s.Fails(i, positions) {
      var x :| 0 <= x < s.entries[i].shapeX && s.PlaneFails(i, x, positions);
      FailureLeaves(s, positions, i, x);
    }
    if !s.Dropped(i) && s.Requested(i, positions) {
      if s.FootprintLeaves(i) {
        LeavingFails(s, positions, i);
      } else if exists b :: s.BlockLeaves(i, positions, b) {
        var b :| s.BlockLeaves(i, positions, b);
        BlockLeavingFails(s, positions, i, b);
      }
    }
  }

  /** In particular nothing fails when the moved structure fits int32. */
  lemma FittingStructuresNeverFail(s: Source, positions: set<ChunkPos>, i: nat)
    requires s.Paired() && i < |s.entries|
    requires forall j | 0 <= j < |s.entries| :: !s.Dropped(j) ==> s.Sound(j)
    requires INT32_MIN <= s.offset.x && INT32_MIN <= s.offset.y && INT32_MIN <= s.offset.z
    requires s.size.width + s.offset.x <= INT32_MAX + 1 && s.size.length + s.offset.z <= INT32_MAX + 1
    requires s.size.height + s.offset.y <= INT32_MAX + 1
    ensures !s.Fails(i, positions)
  {
    FailsAfterReadingExactlyWhen(s, positions, i);
    hide s.Sound, s.Dropped, s.At, s.Blocks, s.Fails, s.Reaches;
  }
}
