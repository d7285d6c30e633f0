/** AxiomBP regions: cubes of 16 cells with a palette and packed indices, from a
    structure and back. */
module AxiomRegions {
  import opened Options
  import opened Arithmetic
  import opened Coordinates
  import opened StructureCells
  import opened AxiomPacking

  /** A region of the file. Each palette entry stands for the block state it was
      written with. */
  datatype Region = Region(at: SubChunkPos, palette: seq<RuntimeId>, words: seq<Word>)

  /** `region_count`, which counts inclusively and can overshoot. */
  function RegionCount(extent: int): int
    requires extent > 0
  {
    var end := extent - 1;
    (end + end % 16 + 15) / 16 + 1
  }

  /** The regions cover every cell; there is one too many when the far end lies in the
      second to ninth plane of its region, two when it lies further on. */
  lemma RegionsCover(extent: int, value: int)
    requires 0 <= value < extent
    ensures 0 <= value / 16 < RegionCount(extent)
    ensures var needed, plane := (extent + 15) / 16, (extent - 1) % 16;
      RegionCount(extent) == needed + if plane == 0 then 0 else if plane <= 8 then 1 else 2
    ensures RegionCount(extent) <= ChunkCount(extent) + 2
  {
  }

  /** The cell order of a region: y, then z, then x. */
  function CellPosition(at: SubChunkPos, index: nat): BlockPos {
    BlockPos(at.x * 16 + index % 16, at.y * 16 + index / 256, at.z * 16 + index % 256 / 16)
  }

  function RegionOf(b: BlockPos): SubChunkPos {
    SubChunkPos(b.x / 16, b.y / 16, b.z / 16)
  }

  function CellIndex(b: BlockPos): nat {
    b.y % 16 * 256 + b.z % 16 * 16 + b.x % 16
  }

  lemma CellPositionsBijective(at: SubChunkPos, index: nat)
    requires index < CELLS
    ensures RegionOf(CellPosition(at, index)) == at && CellIndex(CellPosition(at, index)) == index
  {
    OffsetBySixteen(at.x, index % 16);
    OffsetBySixteen(at.y, index / 256);
    OffsetBySixteen(at.z, index % 256 / 16);
    assert index == index / 256 * 256 + index % 256 / 16 * 16 + index % 16;
  }

  lemma CellOfBlock(b: BlockPos)
    ensures CellIndex(b) < CELLS && CellPosition(RegionOf(b), CellIndex(b)) == b
  {
    IndexDigits(b.y % 16, b.z % 16, b.x % 16);
  }

  /** `block_at`: air outside the structure and in missing layers. */
  function BlockOrAir(st: Structure, b: BlockPos, air: RuntimeId): RuntimeId {
    if InBounds(st.size, b) then BlockAt(st, b, air) else air
  }

  /** The solid cells of a region, in cell order, up to an index. */
  function RegionCells(st: Structure, at: SubChunkPos, count: nat, air: RuntimeId): seq<Placing> {
    if count == 0 then [] else RegionCells(st, at, count - 1, air) + CellOf(st, CellPosition(at, count - 1), air)
  }

  function AllRegionCells(st: Structure, grid: seq<SubChunkPos>, air: RuntimeId): seq<Placing> {
    if grid == [] then []
    else AllRegionCells(st, grid[..|grid| - 1], air) + RegionCells(st, grid[|grid| - 1], CELLS, air)
  }

  ghost function Within(at: SubChunkPos, count: nat): BlockPos -> bool {
    b => RegionOf(b) == at && CellIndex(b) < count
  }

  ghost function InGrid(grid: seq<SubChunkPos>): BlockPos -> bool {
    b => RegionOf(b) in grid
  }

  lemma {:induction false} RegionLists(st: Structure, at: SubChunkPos, count: nat, air: RuntimeId)
    requires count <= CELLS
    ensures Lists(RegionCells(st, at, count, air), st, air, Within(at, count))
  {
    hide Lists, RegionOf, CellIndex, CellPosition, CellOf;
    if count == 0 {
      ListsNothing(st, air, Within(at, 0));
    } else {
      var b := CellPosition(at, count - 1);
      RegionLists(st, at, count - 1, air);
      CellPositionsBijective(at, count - 1);
      ghost var only: BlockPos -> bool := c => c == b;
      ListsCell(st, b, air, only);
      forall c
        ensures RegionOf(c) == at && CellIndex(c) == count - 1 <==> c == b
      {
        CellOfBlock(c);
      }
      ListsBoth(RegionCells(st, at, count - 1, air), CellOf(st, b, air), st, air, Within(at, count - 1), only,
        Within(at, count));
    }
  }

  lemma ListsCell(st: Structure, b: BlockPos, air: RuntimeId, only: BlockPos -> bool)
    requires forall c :: only(c) <==> c == b
    ensures Lists(CellOf(st, b, air), st, air, only)
  {
  }

  ghost predicate Once(grid: seq<SubChunkPos>) {
    forall i, j | 0 <= i < j < |grid| :: grid[i] != grid[j]
  }

  /** Distinct regions together list the solid cells they contain, each once. */
  lemma {:induction false} GridLists(st: Structure, grid: seq<SubChunkPos>, air: RuntimeId)
    requires Once(grid)
    ensures Lists(AllRegionCells(st, grid, air), st, air, InGrid(grid))
  {
    hide Lists, RegionOf, CellIndex, RegionCells;
    if grid == [] {
      ListsNothing(st, air, InGrid(grid));
    } else {
      var init, last := grid[..|grid| - 1], grid[|grid| - 1];
      GridLists(st, init, air);
      RegionLists(st, last, CELLS, air);
      forall b
        ensures Within(last, CELLS)(b) <==> RegionOf(b) == last
        ensures InGrid(grid)(b) <==> InGrid(init)(b) || RegionOf(b) == last
      {
        CellOfBlock(b);
        assert grid == init + [last];
      }
      assert last !in init;
      ListsBoth(AllRegionCells(st, init, air), RegionCells(st, last, CELLS, air), st, air,
        InGrid(init), Within(last, CELLS), InGrid(grid));
    }
  }

  /** A region that stands for the blocks of its cube. */
  ghost predicate Encodes(region: Region, st: Structure, at: SubChunkPos, air: RuntimeId) {
    && region.at == at && 0 < |region.palette| <= CELLS + 1 && 0 < PaletteBits(|region.palette|) <= 64
    && exists indices: seq<int> :: IndicesOk(region, st, at, air, indices)
  }

  ghost predicate IndicesOk(region: Region, st: Structure, at: SubChunkPos, air: RuntimeId, indices: seq<int>)
    requires 0 < PaletteBits(|region.palette|) <= 64
  {
    && |indices| == CELLS
    && Packed(region.words, indices, CELLS, PaletteBits(|region.palette|), PerWord(PaletteBits(|region.palette|)))
    && Names(region.palette, indices, st, at, CELLS, air)
  }

  /** The first `count` indices name the blocks of their cells. */
  ghost predicate Names(palette: seq<RuntimeId>, indices: seq<int>, st: Structure, at: SubChunkPos, count: nat,
      air: RuntimeId)
  {
    count <= |indices|
    && forall i | 0 <= i < count ::
         0 <= indices[i] < |palette| && palette[indices[i]] == BlockOrAir(st, CellPosition(at, i), air)
  }

  /** The palette lists distinct blocks, air first, and the map inverts it. */
  ghost predicate PaletteOk(palette: seq<RuntimeId>, lookup: map<RuntimeId, nat>, air: RuntimeId) {
    && palette != [] && palette[0] == air
    && (forall id | id in lookup :: lookup[id] < |palette| && palette[lookup[id]] == id)
    && (forall k | 0 <= k < |palette| :: palette[k] in lookup && lookup[palette[k]] == k)
  }

  /** The lambda `add_palette`. */
  method AddPalette(palette: seq<RuntimeId>, lookup: map<RuntimeId, nat>, id: RuntimeId, ghost air: RuntimeId)
    returns (index: nat, palette': seq<RuntimeId>, lookup': map<RuntimeId, nat>)
    requires PaletteOk(palette, lookup, air)
    ensures PaletteOk(palette', lookup', air) && palette <= palette' && |palette'| <= |palette| + 1
    ensures index < |palette'| && palette'[index] == id
  {
    if id in lookup {
      return lookup[id], palette, lookup;
    }
    index, palette', lookup' := |palette|, palette + [id], lookup[id := |palette|];
  }

  lemma NamesGrow(
    palette: seq<RuntimeId>, palette': seq<RuntimeId>, indices: seq<int>, st: Structure, at: SubChunkPos, count: nat,
    air: RuntimeId, index: nat)
    requires Names(palette, indices, st, at, count, air) && palette <= palette' && count < |indices|
    requires index < |palette'| && palette'[index] == BlockOrAir(st, CellPosition(at, count), air)
    ensures Names(palette', indices[count := index], st, at, count + 1, air)
  {
  }

  lemma NestedIndex(localX: nat, localY: nat, localZ: nat)
    requires localX < 16 && localY < 16 && localZ < 16
    ensures var index := localY * 256 + localZ * 16 + localX;
      index < CELLS && index / 256 == localY && index % 256 / 16 == localZ && index % 16 == localX
  {
  }

  /** One region of the writer: the palette grows as the cells are visited. */
  method EncodeRegion(st: Structure, at: SubChunkPos, air: RuntimeId) returns (region: Region, solid: nat)
    ensures Encodes(region, st, at, air) && StoresBlocks(region, st, at, air)
    ensures solid == |RegionCells(st, at, CELLS, air)|
  {
    hide BlockOrAir, Packed, PaletteBits, CellPosition, Names;
    var palette: seq<RuntimeId>, lookup: map<RuntimeId, nat> := [air], map[air := 0];
    var indices: seq<int> := seq(CELLS, _ => 0);
    NothingNamed(palette, indices, st, at, air);
    solid := 0;
    for localY := 0 to 16
      invariant |indices| == CELLS && PaletteOk(palette, lookup, air) && |palette| <= localY * 256 + 1
      invariant Names(palette, indices, st, at, localY * 256, air)
      invariant solid == |RegionCells(st, at, localY * 256, air)|
    {
      for localZ := 0 to 16
        invariant |indices| == CELLS && PaletteOk(palette, lookup, air) && |palette| <= localY * 256 + localZ * 16 + 1
        invariant Names(palette, indices, st, at, localY * 256 + localZ * 16, air)
        invariant solid == |RegionCells(st, at, localY * 256 + localZ * 16, air)|
      {
        indices, palette, lookup, solid := EncodeRow(st, at, air, indices, palette, lookup, solid, localY, localZ);
      }
    }
    WidthFits(|palette|);
    var words := PackIndices(indices, |palette|);
    region := Region(at, palette, words[..]);
    assert IndicesOk(region, st, at, air, indices);
    BlocksAreStored(region, st, at, air);
  }

  /** The block of cell `k`, x running fastest, then z, then y, in a region: `64 / width`
      fields a word, lowest first, none across two words, and a palette number in each,
      lowest bit first. */
  ghost predicate Stores(region: Region, k: nat, width: nat, id: RuntimeId)
    requires 0 < width <= 64
  {
    Fit(width);
    && k / (64 / width) < |region.words|
    && exists i: nat ::
      && i < |region.palette| && region.palette[i] == id
      && HasBits(region.words[k / (64 / width)], k % (64 / width) * width, width, i)
  }

  ghost predicate HasBits(word: seq<bool>, shift: nat, width: nat, value: nat) {
    shift + width <= |word|
    && forall j: nat | j < width :: Power(j) > 0 && (word[shift + j] <==> value / Power(j) % 2 == 1)
  }

  /** The region holds the blocks of its cube, in the narrowest fields of at least four
      bits that can tell its palette apart. */
  ghost predicate StoresBlocks(region: Region, st: Structure, at: SubChunkPos, air: RuntimeId) {
    region.at == at && exists width: nat :: IsWidth(|region.palette|, width) && StoresWith(region, st, width, air)
  }

  ghost predicate IsWidth(size: nat, width: nat) {
    4 <= width <= 64 && size <= Power(width) && (width > 4 ==> size > Power(width - 1))
  }

  ghost predicate StoresWith(region: Region, st: Structure, width: nat, air: RuntimeId)
    requires 0 < width <= 64
  {
    Fit(width);
    && |region.words| == (4096 + 64 / width - 1) / (64 / width)
    && forall k: nat | k < 4096 :: Stores(region, k, width, BlockOrAir(st, CellBlock(region.at, k), air))
  }

  function CellBlock(at: SubChunkPos, k: nat): BlockPos {
    BlockPos(at.x * 16 + k % 16, at.y * 16 + k / 256, at.z * 16 + k / 16 % 16)
  }

  lemma BlocksAreStored(region: Region, st: Structure, at: SubChunkPos, air: RuntimeId)
    requires Encodes(region, st, at, air)
    ensures StoresBlocks(region, st, at, air)
  {
    hide BlockOrAir, CellPosition, Packed, PaletteBits, Stores, Names;
    var width := PaletteBits(|region.palette|);
    var indices: seq<int> :| IndicesOk(region, st, at, air, indices);
    WidthFits(|region.palette|);
    WidthIsNarrowest(|region.palette|);
    WordsPacked(region.words, indices, width);
    AllStored(region, st, air, indices, width);
  }

  lemma AllStored(region: Region, st: Structure, air: RuntimeId, indices: seq<int>, width: nat)
    requires |indices| == CELLS && 0 < width <= 64
    requires Packed(region.words, indices, CELLS, width, PerWord(width))
    requires Names(region.palette, indices, st, region.at, CELLS, air)
    ensures StoresWith(region, st, width, air)
  {
    hide BlockOrAir, CellPosition, Packed, Stores, Names;
    WordsPacked(region.words, indices, width);
    forall k: nat | k < 4096
      ensures Stores(region, k, width, BlockOrAir(st, CellBlock(region.at, k), air))
    {
      CellIsStored(region, st, region.at, air, indices, width, k);
      SameCell(region.at, k);
    }
  }

  lemma SameCell(at: SubChunkPos, k: nat)
    ensures CellPosition(at, k) == CellBlock(at, k)
  {
    var high, low := k / 256, k % 256;
    assert k == 256 * high + low && low / 16 < 16;
    assert k / 16 == 16 * high + low / 16;
  }

  lemma WordsPacked(words: seq<Word>, indices: seq<int>, width: nat)
    requires 0 < width <= 64 && |indices| == CELLS && Packed(words, indices, CELLS, width, PerWord(width))
    ensures 64 / width > 0 && |words| == (4096 + 64 / width - 1) / (64 / width)
  {
    Fit(width);
  }

  lemma CellIsStored(region: Region, st: Structure, at: SubChunkPos, air: RuntimeId, indices: seq<int>, width: nat,
      k: nat)
    requires k < CELLS && |indices| == CELLS && 0 < width <= 64
    requires Packed(region.words, indices, CELLS, width, PerWord(width))
    requires Names(region.palette, indices, st, at, CELLS, air)
    ensures Stores(region, k, width, BlockOrAir(st, CellPosition(at, k), air))
  {
    hide BlockOrAir, CellPosition, BitsOf;
    Fit(width);
    var i: nat := indices[k];
    WordsSuffice(k, 64 / width);
    PlacesApart(k, k, 64 / width, width);
    var word, shift := k / (64 / width), k % (64 / width) * width;
    assert FieldAt(region.words[word], shift, width) == BitsOf(i, width);
    forall j: nat | j < width
      ensures Power(j) > 0 && (region.words[word][shift + j] <==> i / Power(j) % 2 == 1)
    {
      BitIs(i, width, j);
      assert region.words[word][shift..shift + width][j] == region.words[word][shift + j];
    }
  }

  lemma NothingNamed(palette: seq<RuntimeId>, indices: seq<int>, st: Structure, at: SubChunkPos, air: RuntimeId)
    ensures Names(palette, indices, st, at, 0, air)
  {
  }

  method EncodeRow(
    st: Structure, at: SubChunkPos, air: RuntimeId, indices: seq<int>, palette: seq<RuntimeId>,
    lookup: map<RuntimeId, nat>, solid: nat, localY: nat, localZ: nat)
    returns (indices': seq<int>, palette': seq<RuntimeId>, lookup': map<RuntimeId, nat>, solid': nat)
    requires localY < 16 && localZ < 16 && |indices| == CELLS && PaletteOk(palette, lookup, air)
    requires |palette| <= localY * 256 + localZ * 16 + 1
    requires Names(palette, indices, st, at, localY * 256 + localZ * 16, air)
    requires solid == |RegionCells(st, at, localY * 256 + localZ * 16, air)|
    ensures |indices'| == CELLS && PaletteOk(palette', lookup', air) && |palette'| <= localY * 256 + localZ * 16 + 17
    ensures Names(palette', indices', st, at, localY * 256 + localZ * 16 + 16, air)
    ensures solid' == |RegionCells(st, at, localY * 256 + localZ * 16 + 16, air)|
  {
    hide BlockOrAir, Names, PaletteOk;
    var from := localY * 256 + localZ * 16;
    indices', palette', lookup', solid' := indices, palette, lookup, solid;
    for localX := 0 to 16
      invariant |indices'| == CELLS && PaletteOk(palette', lookup', air) && |palette'| <= from + localX + 1
      invariant Names(palette', indices', st, at, from + localX, air)
      invariant solid' == |RegionCells(st, at, from + localX, air)|
    {
      NestedIndex(localX, localY, localZ);
      var b := BlockPos(at.x * 16 + localX, at.y * 16 + localY, at.z * 16 + localZ);
      assert b == CellPosition(at, from + localX);
      var id := BlockOrAir(st, b, air);
      var index, grown, wider := AddPalette(palette', lookup', id, air);
      NamesGrow(palette', grown, indices', st, at, from + localX, air, index);
      indices' := indices'[from + localX := index];
      palette', lookup' := grown, wider;
      SolidOrAir(st, b, air);
      if id != air {
        solid' := solid' + 1;
      }
    }
  }

  lemma SolidOrAir(st: Structure, b: BlockPos, air: RuntimeId)
    ensures |CellOf(st, b, air)| == if BlockOrAir(st, b, air) != air then 1 else 0
    ensures BlockOrAir(st, b, air) != air ==> CellOf(st, b, air) == [Placing(b, BlockOrAir(st, b, air))]
  {
  }
}
