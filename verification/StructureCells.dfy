/** The blocks of a structure as its chunk layers present them, and the order in
    which `write_bdx` walks over them: chunk z, chunk x, subchunk y, then x, y and
    z inside the subchunk. */
module StructureCells {
  import opened Coordinates

  type Layer = cells: seq<RuntimeId> | |cells| == 4096 witness seq(4096, _ => 0)

  const FIRST_SUB_Y := -4  // structure y 0 lies at the bottom of subchunk -4

  /** A structure whose size is valid, with the chunk layers it materialises; a
      missing layer is all air. */
  datatype Structure = Structure(size: Size, layers: map<SubChunkPos, Layer>)

  predicate ValidSize(size: Size) {
    0 < size.width <= INT32_MAX && 0 < size.height <= INT32_MAX && 0 < size.length <= INT32_MAX
  }

  function ChunkCount(extent: int): nat {
    if extent <= 0 then 0 else extent / 16 + (if extent % 16 != 0 then 1 else 0)
  }

  predicate InBounds(size: Size, b: BlockPos) {
    0 <= b.x < size.width && 0 <= b.y < size.height && 0 <= b.z < size.length
  }

  /** The cell order of a materialised chunk layer: y, then z, then x. */
  function LayerIndex(localX: nat, localY: nat, localZ: nat): nat {
    (localY * 16 + localZ) * 16 + localX
  }

  /** The subchunk of a structure position; its y counts from -4. */
  function SubOf(b: BlockPos): SubChunkPos {
    SubChunkPos(b.x / 16, (b.y - 64) / 16, b.z / 16)
  }

  function PositionIn(sub: SubChunkPos, localX: nat, localY: nat, localZ: nat): BlockPos {
    BlockPos(sub.x * 16 + localX, sub.y * 16 + 64 + localY, sub.z * 16 + localZ)
  }

  function BlockAt(st: Structure, b: BlockPos, air: RuntimeId): RuntimeId {
    if SubOf(b) in st.layers then st.layers[SubOf(b)][LayerIndex(b.x % 16, b.y % 16, b.z % 16)] else air
  }

  /** The position that element `k` of a layer is for: x runs fastest, then z, then
      y. */
  function ElementBlock(sub: SubChunkPos, k: nat): BlockPos {
    BlockPos(sub.x * 16 + k % 16, sub.y * 16 + 64 + k / 256, sub.z * 16 + k / 16 % 16)
  }

  lemma ElementDigits(sub: SubChunkPos, k: nat)
    requires k < 4096
    ensures var b := ElementBlock(sub, k);
      && SubOf(b) == sub && LayerIndex(b.x % 16, b.y % 16, b.z % 16) == k
      && b.x / 16 == sub.x && b.z / 16 == sub.z && (b.y - 64) / 16 == sub.y
  {
    var x, y, z := k % 16, k / 256, k / 16 % 16;
    OffsetBySixteen(sub.x, x);
    OffsetBySixteen(sub.y + 4, y);
    OffsetBySixteen(sub.z, z);
    assert k == (y * 16 + z) * 16 + x;
  }

  /** Every position is that of one element. */
  lemma BlockIsElement(b: BlockPos)
    ensures var k := LayerIndex(b.x % 16, b.y % 16, b.z % 16); k < 4096 && ElementBlock(SubOf(b), k) == b
  {
    var x, y, z := b.x % 16, b.y % 16, b.z % 16;
    var k := (y * 16 + z) * 16 + x;
    assert k % 16 == x && k / 16 % 16 == z && k / 256 == y;
  }

  /** A list of blocks holds exactly the in-bounds non-air elements of the layers,
      each once. */
  ghost predicate ListsElements(cells: seq<Placing>, st: Structure, air: RuntimeId) {
    && (forall sub: SubChunkPos, k: nat | sub in st.layers && k < 4096 ::
          st.layers[sub][k] != air && InBounds(st.size, ElementBlock(sub, k)) ==>
            Placing(ElementBlock(sub, k), st.layers[sub][k]) in cells)
    && (forall p | p in cells :: FromElement(p, st, air))
    && (forall i, j | 0 <= i < j < |cells| :: cells[i].pos != cells[j].pos)
  }

  ghost predicate FromElement(p: Placing, st: Structure, air: RuntimeId) {
    && p.id != air && InBounds(st.size, p.pos)
    && exists sub: SubChunkPos, k: nat ::
         sub in st.layers && k < 4096 && p.pos == ElementBlock(sub, k) && p.id == st.layers[sub][k]
  }

  lemma ListsAreElements(cells: seq<Placing>, st: Structure, air: RuntimeId)
    requires Lists(cells, st, air, b => true)
    ensures ListsElements(cells, st, air)
  {
    hide LayerIndex, SubOf, ElementBlock;
    forall sub: SubChunkPos, k: nat | sub in st.layers && k < 4096
      ensures BlockAt(st, ElementBlock(sub, k), air) == st.layers[sub][k]
    {
      ElementDigits(sub, k);
    }
    forall p | p in cells
      ensures FromElement(p, st, air)
    {
      BlockIsElement(p.pos);
      assert SubOf(p.pos) in st.layers;
    }
  }

  predicate Solid(st: Structure, b: BlockPos, air: RuntimeId) {
    InBounds(st.size, b) && BlockAt(st, b, air) != air
  }

  /** The contribution of one position to the walk. */
  function CellOf(st: Structure, b: BlockPos, air: RuntimeId): seq<Placing> {
    if Solid(st, b, air) then [Placing(b, BlockAt(st, b, air))] else []
  }

  function RowCells(st: Structure, sub: SubChunkPos, localX: nat, localY: nat, count: nat,
      air: RuntimeId): seq<Placing>
  {
    if count == 0 then []
    else RowCells(st, sub, localX, localY, count - 1, air) + CellOf(st, PositionIn(sub, localX, localY, count - 1), air)
  }

  function PlaneCells(st: Structure, sub: SubChunkPos, localX: nat, count: nat, air: RuntimeId): seq<Placing> {
    if count == 0 then []
    else PlaneCells(st, sub, localX, count - 1, air) + RowCells(st, sub, localX, count - 1, 16, air)
  }

  function LayerCells(st: Structure, sub: SubChunkPos, count: nat, air: RuntimeId): seq<Placing> {
    if count == 0 then []
    else LayerCells(st, sub, count - 1, air) + PlaneCells(st, sub, count - 1, 16, air)
  }

  function ColumnCells(st: Structure, chunk: ChunkPos, count: nat, air: RuntimeId): seq<Placing> {
    if count == 0 then []
    else
      ColumnCells(st, chunk, count - 1, air)
      + LayerCells(st, SubChunkPos(chunk.x, FIRST_SUB_Y + count - 1, chunk.z), 16, air)
  }

  function StripCells(st: Structure, chunkZ: nat, count: nat, air: RuntimeId): seq<Placing> {
    if count == 0 then []
    else
      StripCells(st, chunkZ, count - 1, air)
      + ColumnCells(st, ChunkPos(count - 1, chunkZ), ChunkCount(st.size.height), air)
  }

  function CellsUpTo(st: Structure, count: nat, air: RuntimeId): seq<Placing> {
    if count == 0 then []
    else CellsUpTo(st, count - 1, air) + StripCells(st, count - 1, ChunkCount(st.size.width), air)
  }

  /** The whole walk. */
  function AllCells(st: Structure, air: RuntimeId): seq<Placing> {
    CellsUpTo(st, ChunkCount(st.size.length), air)
  }

  /** A list holds exactly the solid positions of a region, each once. */
  ghost predicate Lists(cells: seq<Placing>, st: Structure, air: RuntimeId, region: BlockPos -> bool) {
    && (forall p :: p in cells ==> Solid(st, p.pos, air) && p.id == BlockAt(st, p.pos, air) && region(p.pos))
    && (forall b :: Solid(st, b, air) && region(b) ==> Placing(b, BlockAt(st, b, air)) in cells)
    && (forall i, j | 0 <= i < j < |cells| :: cells[i].pos != cells[j].pos)
  }

  lemma ListsBoth(a: seq<Placing>, b: seq<Placing>, st: Structure, air: RuntimeId, r: BlockPos -> bool,
      s: BlockPos -> bool, t: BlockPos -> bool)
    requires Lists(a, st, air, r) && Lists(b, st, air, s)
    requires forall p :: !(r(p) && s(p)) && (t(p) <==> r(p) || s(p))
    ensures Lists(a + b, st, air, t)
  {
    forall i, j | 0 <= i < j < |a + b|
      ensures (a + b)[i].pos != (a + b)[j].pos
    {
      if i < |a| <= j {
        assert (a + b)[i] in a && (a + b)[j] in b;
      }
    }
  }

  lemma ListsNothing(st: Structure, air: RuntimeId, r: BlockPos -> bool)
    requires forall p :: !r(p)
    ensures Lists([], st, air, r)
  {
  }

  lemma ListsRegion(cells: seq<Placing>, st: Structure, air: RuntimeId, r: BlockPos -> bool, s: BlockPos -> bool)
    requires Lists(cells, st, air, r)
    requires forall p :: Solid(st, p, air) ==> (r(p) <==> s(p))
    ensures Lists(cells, st, air, s)
  {
  }

  ghost function Row(sub: SubChunkPos, localX: nat, localY: nat, count: nat): BlockPos -> bool {
    b => SubOf(b) == sub && b.x % 16 == localX && b.y % 16 == localY && b.z % 16 < count
  }

  ghost function Plane(sub: SubChunkPos, localX: nat, count: nat): BlockPos -> bool {
    b => SubOf(b) == sub && b.x % 16 == localX && b.y % 16 < count
  }

  ghost function Slices(sub: SubChunkPos, count: nat): BlockPos -> bool {
    b => SubOf(b) == sub && b.x % 16 < count
  }

  ghost function Column(chunk: ChunkPos, count: nat): BlockPos -> bool {
    b => ChunkOf(SubOf(b)) == chunk && FIRST_SUB_Y <= SubOf(b).y < FIRST_SUB_Y + count
  }

  ghost function Strip(chunkZ: nat, count: nat, heights: nat): BlockPos -> bool {
    b => SubOf(b).z == chunkZ && 0 <= SubOf(b).x < count && FIRST_SUB_Y <= SubOf(b).y < FIRST_SUB_Y + heights
  }

  ghost function Block(count: nat, widths: nat, heights: nat): BlockPos -> bool {
    b => 0 <= SubOf(b).z < count && 0 <= SubOf(b).x < widths && FIRST_SUB_Y <= SubOf(b).y < FIRST_SUB_Y + heights
  }

  lemma PositionDigits(sub: SubChunkPos, localX: nat, localY: nat, localZ: nat)
    requires localX < 16 && localY < 16 && localZ < 16
    ensures var b := PositionIn(sub, localX, localY, localZ);
      SubOf(b) == sub && b.x % 16 == localX && b.y % 16 == localY && b.z % 16 == localZ
    ensures forall b | SubOf(b) == sub && b.x % 16 == localX && b.y % 16 == localY && b.z % 16 == localZ ::
      b == PositionIn(sub, localX, localY, localZ)
  {
    OffsetBySixteen(sub.x, localX);
    OffsetBySixteen(sub.y + 4, localY);
    OffsetBySixteen(sub.z, localZ);
  }

  lemma {:induction false} RowLists(st: Structure, sub: SubChunkPos, localX: nat, localY: nat, count: nat,
      air: RuntimeId)
    requires localX < 16 && localY < 16 && count <= 16
    ensures Lists(RowCells(st, sub, localX, localY, count, air), st, air, Row(sub, localX, localY, count))
  {
    if count == 0 {
      ListsNothing(st, air, Row(sub, localX, localY, 0));
    } else {
      var b := PositionIn(sub, localX, localY, count - 1);
      RowLists(st, sub, localX, localY, count - 1, air);
      PositionDigits(sub, localX, localY, count - 1);
      ghost var only: BlockPos -> bool := c => c == b;
      assert Lists(CellOf(st, b, air), st, air, only);
      hide Lists, CellOf, RowCells, SubOf;
      ListsBoth(RowCells(st, sub, localX, localY, count - 1, air), CellOf(st, b, air), st, air,
        Row(sub, localX, localY, count - 1), only, Row(sub, localX, localY, count));
    }
  }

  lemma {:induction false} PlaneLists(st: Structure, sub: SubChunkPos, localX: nat, count: nat, air: RuntimeId)
    requires localX < 16 && count <= 16
    ensures Lists(PlaneCells(st, sub, localX, count, air), st, air, Plane(sub, localX, count))
  {
    hide Lists, RowCells, SubOf;
    if count == 0 {
      ListsNothing(st, air, Plane(sub, localX, 0));
    } else {
      PlaneLists(st, sub, localX, count - 1, air);
      RowLists(st, sub, localX, count - 1, 16, air);
      ListsBoth(PlaneCells(st, sub, localX, count - 1, air), RowCells(st, sub, localX, count - 1, 16, air), st, air,
        Plane(sub, localX, count - 1), Row(sub, localX, count - 1, 16), Plane(sub, localX, count));
    }
  }

  lemma {:induction false} LayerLists(st: Structure, sub: SubChunkPos, count: nat, air: RuntimeId)
    requires count <= 16
    ensures Lists(LayerCells(st, sub, count, air), st, air, Slices(sub, count))
  {
    hide Lists, PlaneCells, SubOf;
    if count == 0 {
      ListsNothing(st, air, Slices(sub, 0));
    } else {
      LayerLists(st, sub, count - 1, air);
      PlaneLists(st, sub, count - 1, 16, air);
      ListsBoth(LayerCells(st, sub, count - 1, air), PlaneCells(st, sub, count - 1, 16, air), st, air,
        Slices(sub, count - 1), Plane(sub, count - 1, 16), Slices(sub, count));
    }
  }

  lemma {:induction false} ColumnLists(st: Structure, chunk: ChunkPos, count: nat, air: RuntimeId)
    ensures Lists(ColumnCells(st, chunk, count, air), st, air, Column(chunk, count))
  {
    hide Lists, LayerCells, SubOf;
    if count == 0 {
      ListsNothing(st, air, Column(chunk, 0));
    } else {
      var sub := SubChunkPos(chunk.x, FIRST_SUB_Y + count - 1, chunk.z);
      ColumnLists(st, chunk, count - 1, air);
      LayerLists(st, sub, 16, air);
      ListsBoth(ColumnCells(st, chunk, count - 1, air), LayerCells(st, sub, 16, air), st, air,
        Column(chunk, count - 1), Slices(sub, 16), Column(chunk, count));
    }
  }

  lemma {:induction false} StripLists(st: Structure, chunkZ: nat, count: nat, air: RuntimeId)
    ensures Lists(StripCells(st, chunkZ, count, air), st, air, Strip(chunkZ, count, ChunkCount(st.size.height)))
  {
    hide Lists, ColumnCells, SubOf, ChunkCount;
    var heights := ChunkCount(st.size.height);
    if count == 0 {
      ListsNothing(st, air, Strip(chunkZ, 0, heights));
    } else {
      var chunk := ChunkPos(count - 1, chunkZ);
      StripLists(st, chunkZ, count - 1, air);
      ColumnLists(st, chunk, heights, air);
      ListsBoth(StripCells(st, chunkZ, count - 1, air), ColumnCells(st, chunk, heights, air), st, air,
        Strip(chunkZ, count - 1, heights), Column(chunk, heights), Strip(chunkZ, count, heights));
    }
  }

  lemma {:induction false} BlockLists(st: Structure, count: nat, air: RuntimeId)
    ensures Lists(CellsUpTo(st, count, air), st, air,
      Block(count, ChunkCount(st.size.width), ChunkCount(st.size.height)))
  {
    hide Lists, StripCells, SubOf, ChunkCount;
    var widths, heights := ChunkCount(st.size.width), ChunkCount(st.size.height);
    if count == 0 {
      ListsNothing(st, air, Block(0, widths, heights));
    } else {
      BlockLists(st, count - 1, air);
      StripLists(st, count - 1, widths, air);
      ListsBoth(CellsUpTo(st, count - 1, air), StripCells(st, count - 1, widths, air), st, air,
        Block(count - 1, widths, heights), Strip(count - 1, widths, heights), Block(count, widths, heights));
    }
  }

  lemma CountedPositions(extent: int, value: int)
    requires 0 <= value < extent
    ensures 0 <= value / 16 < ChunkCount(extent)
  {
  }

  /** The walk lists exactly the in-bounds non-air blocks, each once. */
  lemma AllCellsListed(st: Structure, air: RuntimeId)
    ensures Lists(AllCells(st, air), st, air, b => true)
  {
    var lengths, widths, heights := ChunkCount(st.size.length), ChunkCount(st.size.width), ChunkCount(st.size.height);
    BlockLists(st, lengths, air);
    var region := Block(lengths, widths, heights);
    forall b | Solid(st, b, air)
      ensures region(b)
    {
      CountedPositions(st.size.length, b.z);
      CountedPositions(st.size.width, b.x);
      CountedPositions(st.size.height, b.y);
    }
    hide Lists, CellsUpTo;
    ListsRegion(AllCells(st, air), st, air, region, b => true);
  }

  /** Positions past an edge contribute nothing: where the walk breaks off. */
  lemma {:induction false} RowBeyond(st: Structure, sub: SubChunkPos, localX: nat, localY: nat, from: nat, count: nat,
      air: RuntimeId)
    requires from <= count && sub.z * 16 + from >= st.size.length
    ensures RowCells(st, sub, localX, localY, count, air) == RowCells(st, sub, localX, localY, from, air)
    decreases count
  {
    if from < count {
      RowBeyond(st, sub, localX, localY, from, count - 1, air);
    }
  }

  lemma {:induction false} PlaneBeyond(st: Structure, sub: SubChunkPos, localX: nat, count: nat, air: RuntimeId)
    requires sub.x * 16 + localX >= st.size.width
    ensures PlaneCells(st, sub, localX, count, air) == []
  {
    if count > 0 {
      PlaneBeyond(st, sub, localX, count - 1, air);
      RowEmpty(st, sub, localX, count - 1, 16, air);
    }
  }

  /** A row outside the x or y extent is empty. */
  lemma {:induction false} RowEmpty(st: Structure, sub: SubChunkPos, localX: nat, localY: nat, count: nat,
      air: RuntimeId)
    requires sub.x * 16 + localX >= st.size.width || !(0 <= sub.y * 16 + 64 + localY < st.size.height)
    ensures RowCells(st, sub, localX, localY, count, air) == []
  {
    if count > 0 {
      RowEmpty(st, sub, localX, localY, count - 1, air);
    }
  }

  lemma {:induction false} LayerBeyond(st: Structure, sub: SubChunkPos, from: nat, count: nat, air: RuntimeId)
    requires from <= count && sub.x * 16 + from >= st.size.width
    ensures LayerCells(st, sub, count, air) == LayerCells(st, sub, from, air)
    decreases count
  {
    if from < count {
      LayerBeyond(st, sub, from, count - 1, air);
      PlaneBeyond(st, sub, count - 1, 16, air);
    }
  }

  lemma {:induction false} LayerMissing(st: Structure, sub: SubChunkPos, count: nat, air: RuntimeId)
    requires sub !in st.layers && count <= 16
    ensures LayerCells(st, sub, count, air) == []
  {
    LayerLists(st, sub, count, air);
    var cells := LayerCells(st, sub, count, air);
    hide LayerCells, SubOf;
    NoMembers(cells);
  }

  lemma NoMembers(cells: seq<Placing>)
    ensures (forall p :: p !in cells) ==> cells == []
  {
    if cells != [] {
      assert cells[0] in cells;
    }
  }
}
