/** Writing a structure as AxiomBP regions and reading it back. */
module AxiomBps {
  import opened Options
  import opened Arithmetic
  import opened Coordinates
  import opened StructureCells
  import opened AxiomPacking
  import opened AxiomRegions

  function GridRow(y: nat, z: nat, count: nat): seq<SubChunkPos> {
    if count == 0 then [] else GridRow(y, z, count - 1) + [SubChunkPos(count - 1, y, z)]
  }

  function GridLayer(y: nat, width: nat, count: nat): seq<SubChunkPos> {
    if count == 0 then [] else GridLayer(y, width, count - 1) + GridRow(y, count - 1, width)
  }

  /** The order in which the regions are written: y, then z, then x. */
  function RegionGrid(width: nat, length: nat, count: nat): seq<SubChunkPos> {
    if count == 0 then [] else RegionGrid(width, length, count - 1) + GridLayer(count - 1, width, length)
  }

  lemma OnceConcat(a: seq<SubChunkPos>, b: seq<SubChunkPos>)
    requires Once(a) && Once(b) && forall p | p in a :: p !in b
    ensures Once(a + b)
  {
    forall i, j | 0 <= i < j < |a + b|
      ensures (a + b)[i] != (a + b)[j]
    {
      if i < |a| <= j {
        assert (a + b)[i] in a && (a + b)[j] in b;
      }
    }
  }

  lemma OnceNothing()
    ensures Once([])
  {
  }

  lemma OnceAlone(p: SubChunkPos)
    ensures Once([p])
  {
  }

  lemma {:induction false} RowCovers(y: nat, z: nat, count: nat)
    ensures Once(GridRow(y, z, count))
    ensures forall p :: p in GridRow(y, z, count) <==> p.y == y && p.z == z && 0 <= p.x < count
  {
    hide Once;
    OnceNothing();
    if count > 0 {
      RowCovers(y, z, count - 1);
      OnceAlone(SubChunkPos(count - 1, y, z));
      OnceConcat(GridRow(y, z, count - 1), [SubChunkPos(count - 1, y, z)]);
    }
  }

  lemma {:induction false} LayerCovers(y: nat, width: nat, count: nat)
    ensures Once(GridLayer(y, width, count))
    ensures forall p :: p in GridLayer(y, width, count) <==> p.y == y && 0 <= p.z < count && 0 <= p.x < width
  {
    hide Once, GridRow;
    OnceNothing();
    if count > 0 {
      LayerCovers(y, width, count - 1);
      RowCovers(y, count - 1, width);
      OnceConcat(GridLayer(y, width, count - 1), GridRow(y, count - 1, width));
    }
  }

  /** Every region coordinate of the box occurs once. */
  lemma {:induction false} GridCovers(width: nat, length: nat, count: nat)
    ensures Once(RegionGrid(width, length, count))
    ensures forall p :: p in RegionGrid(width, length, count) <==>
      0 <= p.y < count && 0 <= p.z < length && 0 <= p.x < width
  {
    hide Once, GridLayer;
    OnceNothing();
    if count > 0 {
      GridCovers(width, length, count - 1);
      LayerCovers(count - 1, width, length);
      OnceConcat(RegionGrid(width, length, count - 1), GridLayer(count - 1, width, length));
    }
  }

  ghost predicate AllEncode(regions: seq<Region>, st: Structure, grid: seq<SubChunkPos>, air: RuntimeId) {
    |regions| == |grid| && forall k | 0 <= k < |grid| :: Encodes(regions[k], st, grid[k], air)
  }

  lemma EncodeMore(
    regions: seq<Region>, st: Structure, grid: seq<SubChunkPos>, air: RuntimeId, region: Region, at: SubChunkPos)
    requires AllEncode(regions, st, grid, air) && Encodes(region, st, at, air)
    ensures AllEncode(regions + [region], st, grid + [at], air)
    ensures |AllRegionCells(st, grid + [at], air)|
      == |AllRegionCells(st, grid, air)| + |RegionCells(st, at, CELLS, air)|
  {
    hide Encodes, RegionCells;
    assert (grid + [at])[..|grid|] == grid;
  }

  function GridOf(size: Size): seq<SubChunkPos>
    requires ValidSize(size)
  {
    RegionGrid(RegionCount(size.width), RegionCount(size.length), RegionCount(size.height))
  }

  /** The region loops of the writer; `solid` is the block count it reports. */
  method WriteRegions(st: Structure, air: RuntimeId) returns (regions: seq<Region>, solid: nat)
    requires ValidSize(st.size)
    ensures AllEncode(regions, st, GridOf(st.size), air)
    ensures solid == |AllRegionCells(st, GridOf(st.size), air)|
  {
    hide AllEncode, Encodes, AllRegionCells;
    var width, height, length := RegionCount(st.size.width), RegionCount(st.size.height), RegionCount(st.size.length);
    NothingEncoded(st, air);
    regions, solid := [], 0;
    for y := 0 to height
      invariant AllEncode(regions, st, RegionGrid(width, length, y), air)
      invariant solid == |AllRegionCells(st, RegionGrid(width, length, y), air)|
    {
      ghost var before := RegionGrid(width, length, y);
      assert before + GridLayer(y, width, 0) == before;
      for z := 0 to length
        invariant AllEncode(regions, st, before + GridLayer(y, width, z), air)
        invariant solid == |AllRegionCells(st, before + GridLayer(y, width, z), air)|
      {
        regions, solid := WriteRow(st, air, regions, solid, before + GridLayer(y, width, z), y, z, width);
        assert before + GridLayer(y, width, z) + GridRow(y, z, width) == before + GridLayer(y, width, z + 1);
      }
    }
  }

  lemma NothingEncoded(st: Structure, air: RuntimeId)
    ensures AllEncode([], st, [], air) && AllRegionCells(st, [], air) == []
  {
  }

  method WriteRow(
    st: Structure, air: RuntimeId, regions: seq<Region>, solid: nat, ghost grid: seq<SubChunkPos>, y: nat, z: nat,
    width: nat)
    returns (regions': seq<Region>, solid': nat)
    requires AllEncode(regions, st, grid, air) && solid == |AllRegionCells(st, grid, air)|
    ensures AllEncode(regions', st, grid + GridRow(y, z, width), air)
    ensures solid' == |AllRegionCells(st, grid + GridRow(y, z, width), air)|
  {
    hide AllEncode, Encodes, AllRegionCells;
    regions', solid' := regions, solid;
    assert grid + GridRow(y, z, 0) == grid;
    for x := 0 to width
      invariant AllEncode(regions', st, grid + GridRow(y, z, x), air)
      invariant solid' == |AllRegionCells(st, grid + GridRow(y, z, x), air)|
    {
      var at := SubChunkPos(x, y, z);
      var region, count := EncodeRegion(st, at, air);
      EncodeMore(regions', st, grid + GridRow(y, z, x), air, region, at);
      assert grid + GridRow(y, z, x) + [at] == grid + GridRow(y, z, x + 1);
      regions', solid' := regions' + [region], solid' + count;
    }
  }

  const FIRST := SubChunkPos(0, 0, 0)

  // ----- the reader

  /** What the reader finds in a cell: nothing when the words end early, the index
      is beyond the palette, or the block reads as air. `reread` is how a palette
      entry resolves. */
  function ReadCell(region: Region, low: SubChunkPos, reread: RuntimeId -> RuntimeId, air: RuntimeId,
      index: nat): seq<Placing>
    requires 0 < PaletteBits(|region.palette|) <= 64
  {
    var width := PaletteBits(|region.palette|);
    var place := PlaceOf(index, PerWord(width), width);
    if place.word >= |region.words| || place.shift + width > 64 then []
    else
      var k := ValueOf(FieldAt(region.words[place.word], place.shift, width));
      if k >= |region.palette| || reread(region.palette[k]) == air then []
      else
        var at := SubChunkPos(region.at.x - low.x, region.at.y - low.y, region.at.z - low.z);
        [Placing(CellPosition(at, index), reread(region.palette[k]))]
  }

  function ReadCells(region: Region, low: SubChunkPos, reread: RuntimeId -> RuntimeId, air: RuntimeId,
      count: nat): seq<Placing>
    requires 0 < PaletteBits(|region.palette|) <= 64
  {
    if count == 0 then []
    else ReadCells(region, low, reread, air, count - 1) + ReadCell(region, low, reread, air, count - 1)
  }

  ghost predicate Readable(regions: seq<Region>) {
    forall k | 0 <= k < |regions| :: 0 < PaletteBits(|regions[k].palette|) <= 64
  }

  function ReadRegions(regions: seq<Region>, low: SubChunkPos, reread: RuntimeId -> RuntimeId,
      air: RuntimeId): seq<Placing>
    requires forall k | 0 <= k < |regions| :: 0 < PaletteBits(|regions[k].palette|) <= 64
  {
    if regions == [] then []
    else
      ReadRegions(regions[..|regions| - 1], low, reread, air)
      + ReadCells(regions[|regions| - 1], low, reread, air, CELLS)
  }

  lemma {:induction false} WordsEndEarly(
    region: Region, low: SubChunkPos, reread: RuntimeId -> RuntimeId, air: RuntimeId, from: nat, count: nat)
    requires 0 < PaletteBits(|region.palette|) <= 64 && from <= count
    requires var width := PaletteBits(|region.palette|);
      PlaceOf(from, PerWord(width), width).word >= |region.words|
    ensures ReadCells(region, low, reread, air, count) == ReadCells(region, low, reread, air, from)
    decreases count
  {
    hide PaletteBits, ValueOf, FieldAt, CellPosition;
    if from < count {
      WordsEndEarly(region, low, reread, air, from, count - 1);
      LaterWord(from, count - 1, PerWord(PaletteBits(|region.palette|)));
    }
  }

  lemma LaterWord(a: nat, b: nat, perWord: nat)
    requires a <= b && perWord > 0
    ensures a / perWord <= b / perWord
  {
    var p, q := a / perWord, b / perWord;
    assert p * perWord <= a && b < (q + 1) * perWord;
    if q + 1 <= p {
      Scaled(q + 1, p, perWord);
    }
  }

  /** The size up to just past a block. */
  function Past(top: Size, b: BlockPos): Size {
    Size(Larger(top.width, b.x + 1), Larger(top.height, b.y + 1), Larger(top.length, b.z + 1))
  }

  function Grown(top: Size, placed: seq<Placing>): Size {
    if placed == [] then top else Past(Grown(top, placed[..|placed| - 1]), placed[|placed| - 1].pos)
  }

  lemma {:induction false} GrownTwice(top: Size, a: seq<Placing>, b: seq<Placing>)
    ensures Grown(Grown(top, a), b) == Grown(top, a + b)
    decreases |b|
  {
    if b == [] {
      assert a + b == a;
    } else {
      var init := b[..|b| - 1];
      GrownTwice(top, a, init);
      assert (a + b)[..|a + b| - 1] == a + init;
    }
  }

  lemma GrownByOne(top: Size, placed: seq<Placing>, last: Placing)
    ensures Grown(top, placed + [last]) == Past(Grown(top, placed), last.pos)
  {
    assert (placed + [last])[..|placed|] == placed;
  }

  lemma GrownByNothing(top: Size)
    ensures Grown(top, []) == top
  {
  }

  const NO_SIZE := Size(0, 0, 0)

  /** A size that comes from a list of blocks in the positive octant holds all of
      them, and on every axis one of them is at its far end. */
  lemma {:induction false} GrownIsTight(placed: seq<Placing>)
    requires forall p | p in placed :: 0 <= p.pos.x && 0 <= p.pos.y && 0 <= p.pos.z
    ensures var size := Grown(NO_SIZE, placed);
      && (forall p | p in placed :: InBounds(size, p.pos))
      && (if placed == [] then size == NO_SIZE
          else (exists p :: p in placed && p.pos.x == size.width - 1)
               && (exists p :: p in placed && p.pos.y == size.height - 1)
               && (exists p :: p in placed && p.pos.z == size.length - 1))
    decreases |placed|
  {
    if placed != [] {
      var init, last := placed[..|placed| - 1], placed[|placed| - 1];
      GrownIsTight(init);
      assert last in placed && forall p :: p in placed <==> p in init || p == last;
      if init != [] {
        var size := Grown(NO_SIZE, init);
        var a :| a in init && a.pos.x == size.width - 1;
        var b :| b in init && b.pos.y == size.height - 1;
        var c :| c in init && c.pos.z == size.length - 1;
        assert a in placed && b in placed && c in placed;
      }
    }
  }

  /** The unpacking loop for one region. */
  method ReadRegion(region: Region, low: SubChunkPos, reread: RuntimeId -> RuntimeId, air: RuntimeId, top: Size)
    returns (placed: seq<Placing>, top': Size)
    requires 0 < PaletteBits(|region.palette|) <= 64
    ensures placed == ReadCells(region, low, reread, air, CELLS)
    ensures top' == Grown(top, placed)
  {
    hide PaletteBits, FieldAt, ValueOf, CellPosition, PlaceOf, PerWord, Grown, Past;
    var width := BitsForPalette(|region.palette|);
    var perWord := PerWord(width);
    placed, top' := [], top;
    assert Grown(top, []) == top by {
      GrownByNothing(top);
    }
    var index := 0;
    while index < CELLS
      invariant index <= CELLS && placed == ReadCells(region, low, reread, air, index)
      invariant top' == Grown(top, placed)
    {
      var place := PlaceOf(index, perWord, width);
      if place.word >= |region.words| {
        WordsEndEarly(region, low, reread, air, index, CELLS);
        break;
      }
      PlacesApart(index, index, perWord, width);
      var k := ValueOf(FieldAt(region.words[place.word], place.shift, width));
      if k < |region.palette| {
        var runtime := reread(region.palette[k]);
        if runtime != air {
          var at := SubChunkPos(region.at.x - low.x, region.at.y - low.y, region.at.z - low.z);
          var cell := Placing(CellPosition(at, index), runtime);
          GrownByOne(top, placed, cell);
          placed, top' := placed + [cell], Past(top', cell.pos);
        }
      }
      index := index + 1;
    }
  }

  function Lower(a: SubChunkPos, b: SubChunkPos): SubChunkPos {
    SubChunkPos(if a.x < b.x then a.x else b.x, if a.y < b.y then a.y else b.y, if a.z < b.z then a.z else b.z)
  }

  function Upper(a: SubChunkPos, b: SubChunkPos): SubChunkPos {
    SubChunkPos(if a.x < b.x then b.x else a.x, if a.y < b.y then b.y else a.y, if a.z < b.z then b.z else a.z)
  }

  ghost predicate Bounds(regions: seq<Region>, low: SubChunkPos, high: SubChunkPos) {
    && (forall k | 0 <= k < |regions| :: Lower(low, regions[k].at) == low && Upper(high, regions[k].at) == high)
    && Reaches(regions, low.x, XOf) && Reaches(regions, low.y, YOf) && Reaches(regions, low.z, ZOf)
    && Reaches(regions, high.x, XOf) && Reaches(regions, high.y, YOf) && Reaches(regions, high.z, ZOf)
  }

  function XOf(at: SubChunkPos): int {
    at.x
  }

  function YOf(at: SubChunkPos): int {
    at.y
  }

  function ZOf(at: SubChunkPos): int {
    at.z
  }

  ghost predicate Reaches(regions: seq<Region>, value: int, coordinate: SubChunkPos -> int) {
    exists k :: 0 <= k < |regions| && coordinate(regions[k].at) == value
  }

  predicate Spans(low: int, high: int) {
    0 < (high - low + 1) * 16 <= INT32_MAX
  }

  /** `AxiomBpReader::read` once the regions are parsed: bounds first, then the
      blocks relative to the lowest region, and the size they reach. */
  method ReadAxiom(regions: seq<Region>, reread: RuntimeId -> RuntimeId, air: RuntimeId)
    returns (placed: Option<seq<Placing>>, size: Size, nonAir: nat, ghost low: SubChunkPos, ghost high: SubChunkPos)
    requires Readable(regions)
    ensures regions == [] ==> placed == None
    ensures regions != [] ==> Bounds(regions, low, high)
    ensures regions != [] ==>
      placed == if Spans(low.x, high.x) && Spans(low.y, high.y) && Spans(low.z, high.z)
                then Some(ReadRegions(regions, low, reread, air)) else None
    ensures placed.Some? ==> size == Grown(NO_SIZE, placed.value) && nonAir == |placed.value|
  {
    low, high, size, nonAir := FIRST, FIRST, NO_SIZE, 0;
    if regions == [] {
      return None, size, nonAir, low, high;
    }
    var least, most := FindBounds(regions);
    low, high := least, most;
    if !(Spans(least.x, most.x) && Spans(least.y, most.y) && Spans(least.z, most.z)) {
      return None, size, nonAir, low, high;
    }
    hide PaletteBits, ReadCells, Bounds, Grown;
    var blocks: seq<Placing> := [];
    GrownByNothing(NO_SIZE);
    for k := 0 to |regions|
      invariant blocks == ReadRegions(regions[..k], least, reread, air)
      invariant size == Grown(NO_SIZE, blocks) && nonAir == |blocks|
    {
      assert regions[..k + 1][..k] == regions[..k];
      var more;
      more, size := ReadRegion(regions[k], least, reread, air, size);
      GrownTwice(NO_SIZE, blocks, more);
      blocks, nonAir := blocks + more, nonAir + |more|;
    }
    assert regions[..|regions|] == regions;
    placed := Some(blocks);
  }

  method FindBounds(regions: seq<Region>) returns (low: SubChunkPos, high: SubChunkPos)
    requires regions != []
    ensures Bounds(regions, low, high)
  {
    low, high := regions[0].at, regions[0].at;
    for k := 1 to |regions|
      invariant Bounds(regions[..k], low, high)
    {
      hide Bounds;
      BoundsGrow(regions, k, low, high);
      low, high := Lower(low, regions[k].at), Upper(high, regions[k].at);
    }
    assert regions[..|regions|] == regions;
  }

  lemma BoundsGrow(regions: seq<Region>, k: nat, low: SubChunkPos, high: SubChunkPos)
    requires 0 < k < |regions| && Bounds(regions[..k], low, high)
    ensures Bounds(regions[..k + 1], Lower(low, regions[k].at), Upper(high, regions[k].at))
  {
    hide Reaches;
    forall i | 0 <= i < k
      ensures Lower(low, regions[i].at) == low && Upper(high, regions[i].at) == high
    {
      assert regions[..k][i] == regions[i];
    }
    StillReaches(regions, k, low.x, XOf);
    StillReaches(regions, k, low.y, YOf);
    StillReaches(regions, k, low.z, ZOf);
    StillReaches(regions, k, high.x, XOf);
    StillReaches(regions, k, high.y, YOf);
    StillReaches(regions, k, high.z, ZOf);
  }

  lemma StillReaches(regions: seq<Region>, k: nat, value: int, coordinate: SubChunkPos -> int)
    requires k < |regions| && Reaches(regions[..k], value, coordinate)
    ensures Reaches(regions[..k + 1], value, coordinate)
    ensures Reaches(regions[..k + 1], coordinate(regions[k].at), coordinate)
  {
    var i :| 0 <= i < k && coordinate(regions[..k][i].at) == value;
    assert regions[..k + 1][i] == regions[i] && regions[..k + 1][k] == regions[k];
  }

  /** How every block that occurs is resolved again from its palette entry. */
  ghost predicate Resolves(st: Structure, reread: RuntimeId -> RuntimeId, air: RuntimeId) {
    reread(air) == air && forall b | Solid(st, b, air) :: reread(BlockAt(st, b, air)) == BlockAt(st, b, air)
  }

  lemma CellReadsBack(
    region: Region, st: Structure, at: SubChunkPos, air: RuntimeId, indices: seq<int>, reread: RuntimeId -> RuntimeId,
    index: nat)
    requires region.at == at && 0 < |region.palette| <= CELLS + 1 && 0 < PaletteBits(|region.palette|) <= 64
    requires IndicesOk(region, st, at, air, indices) && Resolves(st, reread, air) && index < CELLS
    ensures ReadCell(region, FIRST, reread, air, index) == CellOf(st, CellPosition(at, index), air)
  {
    hide PaletteBits, ValueOf, Packed, CellPosition, BlockOrAir, BlockAt;
    var width := PaletteBits(|region.palette|);
    UnpackUndoesPack(region.words, indices, |region.palette|, index);
    PlaceIsWord(index, PerWord(width), width);
    PackedLength(region.words, indices, width, PerWord(width));
    var b := CellPosition(at, index);
    BlockResolves(st, b, reread, air);
  }

  lemma PackedLength(words: seq<Word>, indices: seq<int>, width: nat, perWord: nat)
    requires perWord > 0 && perWord * width <= 64 && width > 0 && |indices| == CELLS
    requires Packed(words, indices, CELLS, width, perWord)
    ensures |words| == WordCount(perWord)
  {
  }

  lemma BlockResolves(st: Structure, b: BlockPos, reread: RuntimeId -> RuntimeId, air: RuntimeId)
    requires Resolves(st, reread, air)
    ensures var id := BlockOrAir(st, b, air);
      reread(id) == id && CellOf(st, b, air) == if id == air then [] else [Placing(b, id)]
  {
    hide BlockAt;
    assert Solid(st, b, air) <==> BlockOrAir(st, b, air) != air;
  }

  lemma {:induction false} RegionReadsBack(
    region: Region, st: Structure, at: SubChunkPos, air: RuntimeId, reread: RuntimeId -> RuntimeId, count: nat)
    requires Encodes(region, st, at, air) && Resolves(st, reread, air) && count <= CELLS
    ensures ReadCells(region, FIRST, reread, air, count) == RegionCells(st, at, count, air)
  {
    hide ReadCell, CellOf, PaletteBits, Resolves, IndicesOk;
    if count > 0 {
      RegionReadsBack(region, st, at, air, reread, count - 1);
      var indices: seq<int> :| IndicesOk(region, st, at, air, indices);
      CellReadsBack(region, st, at, air, indices, reread, count - 1);
    }
  }

  lemma {:induction false} RegionsReadBack(
    regions: seq<Region>, st: Structure, grid: seq<SubChunkPos>, air: RuntimeId, reread: RuntimeId -> RuntimeId)
    requires AllEncode(regions, st, grid, air) && Resolves(st, reread, air)
    ensures Readable(regions)
    ensures ReadRegions(regions, FIRST, reread, air) == AllRegionCells(st, grid, air)
  {
    hide PaletteBits, ReadCells, RegionCells, Resolves;
    if regions != [] {
      var last := |regions| - 1;
      RegionsReadBack(regions[..last], st, grid[..last], air, reread);
      RegionReadsBack(regions[last], st, grid[last], air, reread, CELLS);
    }
  }

  lemma AlwaysReadable(regions: seq<Region>, st: Structure, grid: seq<SubChunkPos>, air: RuntimeId)
    requires AllEncode(regions, st, grid, air)
    ensures Readable(regions)
  {
  }

  /** The lowest written region is the origin and the highest the far corner. */
  lemma WrittenBounds(regions: seq<Region>, st: Structure, air: RuntimeId, low: SubChunkPos, high: SubChunkPos)
    requires ValidSize(st.size) && AllEncode(regions, st, GridOf(st.size), air) && Bounds(regions, low, high)
    ensures low == FIRST
    ensures high == SubChunkPos(RegionCount(st.size.width) - 1, RegionCount(st.size.height) - 1,
      RegionCount(st.size.length) - 1)
  {
    hide RegionCount, GridOf, Encodes, Bounds, InBox, Once;
    var grid := GridOf(st.size);
    GridBox(st.size);
    var far := SubChunkPos(RegionCount(st.size.width) - 1, RegionCount(st.size.height) - 1,
      RegionCount(st.size.length) - 1);
    assert FIRST in grid && far in grid by {
      CornersInBox(st.size);
    }
    var i :| 0 <= i < |grid| && grid[i] == FIRST;
    var j :| 0 <= j < |grid| && grid[j] == far;
    forall k | 0 <= k < |regions|
      ensures regions[k].at == grid[k] && InBox(regions[k].at, st.size)
    {
      EncodedWhere(regions[k], st, grid[k], air);
      assert grid[k] in grid;
    }
    Corners(regions, st.size, i, j, low, high);
  }

  lemma CornersInBox(size: Size)
    requires ValidSize(size)
    requires RegionCount(size.width) > 0 && RegionCount(size.height) > 0 && RegionCount(size.length) > 0
    ensures InBox(FIRST, size)
    ensures InBox(
        SubChunkPos(RegionCount(size.width) - 1, RegionCount(size.height) - 1, RegionCount(size.length) - 1), size)
  {
  }

  lemma EncodedWhere(region: Region, st: Structure, at: SubChunkPos, air: RuntimeId)
    requires Encodes(region, st, at, air)
    ensures region.at == at
  {
  }

  lemma Corners(regions: seq<Region>, size: Size, i: nat, j: nat, low: SubChunkPos, high: SubChunkPos)
    requires ValidSize(size) && Bounds(regions, low, high) && i < |regions| && j < |regions|
    requires forall k | 0 <= k < |regions| :: InBox(regions[k].at, size)
    requires var far :=
      SubChunkPos(RegionCount(size.width) - 1, RegionCount(size.height) - 1, RegionCount(size.length) - 1);
      regions[i].at == FIRST && regions[j].at == far
    ensures low == FIRST
    ensures high == SubChunkPos(RegionCount(size.width) - 1, RegionCount(size.height) - 1, RegionCount(size.length) - 1)
  {
    hide RegionCount;
    assert Lower(low, regions[i].at) == low && Upper(high, regions[j].at) == high;
  }

  predicate InBox(p: SubChunkPos, size: Size)
    requires ValidSize(size)
  {
    0 <= p.y < RegionCount(size.height) && 0 <= p.z < RegionCount(size.length) && 0 <= p.x < RegionCount(size.width)
  }

  lemma GridBox(size: Size)
    requires ValidSize(size)
    ensures RegionCount(size.width) > 0 && RegionCount(size.height) > 0 && RegionCount(size.length) > 0
    ensures forall p :: p in GridOf(size) <==> InBox(p, size)
    ensures Once(GridOf(size)) && GridOf(size) != []
  {
    RegionsCover(size.width, 0);
    RegionsCover(size.height, 0);
    RegionsCover(size.length, 0);
    GridCovers(RegionCount(size.width), RegionCount(size.length), RegionCount(size.height));
    hide RegionGrid, RegionCount;
    assert FIRST in GridOf(size);
  }

  /** The written regions list exactly the solid cells of the structure. */
  lemma WrittenCells(st: Structure, air: RuntimeId)
    requires ValidSize(st.size)
    ensures Lists(AllRegionCells(st, GridOf(st.size), air), st, air, b => true)
  {
    GridBox(st.size);
    var grid := GridOf(st.size);
    GridLists(st, grid, air);
    forall b | Solid(st, b, air)
      ensures InGrid(grid)(b)
    {
      RegionsCover(st.size.width, b.x);
      RegionsCover(st.size.height, b.y);
      RegionsCover(st.size.length, b.z);
    }
    hide Lists, AllRegionCells, GridOf;
    ListsRegion(AllRegionCells(st, grid, air), st, air, InGrid(grid), b => true);
  }

  // ----- the guards

  predicate Positive(size: Size) {
    0 < size.width && 0 < size.height && 0 < size.length
  }

  /** The type of a size: three 32-bit integers. */
  predicate Int32Size(size: Size) {
    IsInt32(size.width) && IsInt32(size.height) && IsInt32(size.length)
  }

  /** `Size::volume`, which saturates. */
  function Volume(size: Size): int {
    if !Positive(size) then 0
    else if size.width > INT64_MAX / size.height then INT64_MAX
    else if size.width * size.height > INT64_MAX / size.length then INT64_MAX
    else size.width * size.height * size.length
  }

  lemma VolumeIsProduct(size: Size)
    requires Positive(size)
    ensures 0 < Volume(size)
    ensures Volume(size) > INT32_MAX <==> size.width * size.height * size.length > INT32_MAX
  {
    GuardsAreExact(size.width, size.height, size.length, INT64_MAX);
    Multiples(1, size.width, size.height);
    Multiples(1, size.width * size.height, size.length);
  }

  /** There are never more regions than cells, so the guard on their number only
      repeats the one on the volume. */
  lemma FewerRegionsThanCells(size: Size)
    requires Positive(size)
    ensures 0 < RegionCount(size.width) * RegionCount(size.height) * RegionCount(size.length)
      <= size.width * size.height * size.length
  {
    RegionCountFits(size.width);
    RegionCountFits(size.height);
    RegionCountFits(size.length);
    hide RegionCount;
    var w, h, l := RegionCount(size.width), RegionCount(size.height), RegionCount(size.length);
    ProductGrows(w, h, size.width, size.height);
    var floor, cells := w * h, size.width * size.height;
    ProductGrows(floor, l, cells, size.length);
  }

  lemma RegionCountFits(extent: int)
    requires 0 < extent
    ensures 0 < RegionCount(extent) <= extent
  {
  }

  lemma ProductGrows(a: int, b: int, x: int, y: int)
    requires 0 < a <= x && 0 < b <= y
    ensures 0 < a * b <= x * y
  {
    Multiples(0, a, b);
    Multiples(a, x, b);
    Multiples(b, y, x);
  }

  /** The row-major number of a cell. */
  function CellNumber(size: Size, b: BlockPos): int {
    (b.y * size.length + b.z) * size.width + b.x
  }

  lemma CellNumberFits(size: Size, b: BlockPos)
    requires InBounds(size, b)
    ensures 0 <= CellNumber(size, b) < size.width * size.height * size.length
  {
    var row := b.y * size.length + b.z;
    Multiples(0, b.y, size.length);
    Multiples(b.y, size.height, size.length);
    assert 0 <= row < size.height * size.length;
    Multiples(0, row, size.width);
    Multiples(row, size.height * size.length, size.width);
  }

  lemma SameNumber(a: int, x: int, b: int, y: int, k: int)
    requires 0 <= x < k && 0 <= y < k && a * k + x == b * k + y
    ensures a == b && x == y
  {
    if a < b {
      Multiples(a, b, k);
    } else if b < a {
      Multiples(b, a, k);
    }
  }

  lemma CellNumberIdentifies(size: Size, b: BlockPos, c: BlockPos)
    requires InBounds(size, b) && InBounds(size, c) && CellNumber(size, b) == CellNumber(size, c)
    ensures b == c
  {
    SameNumber(b.y * size.length + b.z, b.x, c.y * size.length + c.z, c.x, size.width);
    SameNumber(b.y, b.z, c.y, c.z, size.length);
  }

  /** Different numbers below `n` are at most `n`. */
  lemma {:induction false} DistinctBelow(numbers: seq<int>, n: nat)
    requires forall i | 0 <= i < |numbers| :: 0 <= numbers[i] < n
    requires forall i, j | 0 <= i < j < |numbers| :: numbers[i] != numbers[j]
    ensures |numbers| <= n
    decreases n
  {
    if numbers != [] {
      assert 0 <= numbers[0] < n;
      if exists k :: 0 <= k < |numbers| && numbers[k] == n - 1 {
        var k :| 0 <= k < |numbers| && numbers[k] == n - 1;
        DistinctBelow(numbers[..k] + numbers[k + 1..], n - 1);
      } else {
        DistinctBelow(numbers, n - 1);
      }
    }
  }

  lemma ListedFits(cells: seq<Placing>, st: Structure, air: RuntimeId)
    requires Positive(st.size) && Lists(cells, st, air, b => true)
    ensures |cells| <= st.size.width * st.size.height * st.size.length
  {
    var numbers := seq(|cells|, i requires 0 <= i < |cells| => CellNumber(st.size, cells[i].pos));
    Multiples(0, st.size.width, st.size.height);
    Multiples(0, st.size.width * st.size.height, st.size.length);
    forall i | 0 <= i < |cells|
      ensures InBounds(st.size, cells[i].pos) && 0 <= numbers[i] < st.size.width * st.size.height * st.size.length
    {
      assert cells[i] in cells;
      CellNumberFits(st.size, cells[i].pos);
    }
    forall i, j | 0 <= i < j < |cells|
      ensures numbers[i] != numbers[j]
    {
      if numbers[i] == numbers[j] {
        CellNumberIdentifies(st.size, cells[i].pos, cells[j].pos);
      }
    }
    hide CellNumber, Lists;
    DistinctBelow(numbers, st.size.width * st.size.height * st.size.length);
  }

  predicate FitsInt32(size: Size)
    requires Positive(size)
  {
    RegionCount(size.width) * 16 <= INT32_MAX && RegionCount(size.height) * 16 <= INT32_MAX
    && RegionCount(size.length) * 16 <= INT32_MAX
  }

  /** `write_axiom_bp`, as far as the regions. `refused` stands for everything
      that can fail besides the guards on the structure: the memory budget and
      the chunk window, files and streams, the size of the compressed data. */
  method WriteAxiom(st: Structure, air: RuntimeId, refused: bool) returns (regions: Option<seq<Region>>, solid: nat)
    requires Int32Size(st.size)
    ensures regions.Some? <==>
      !refused && Positive(st.size) && st.size.width * st.size.height * st.size.length <= INT32_MAX
    ensures regions.Some? ==>
      && AllEncode(regions.value, st, GridOf(st.size), air)
      && solid == |AllRegionCells(st, GridOf(st.size), air)|
  {
    hide AllEncode, Lists, AllRegionCells, GridOf, RegionCount, Volume;
    if !Positive(st.size) || Volume(st.size) <= 0 || Volume(st.size) > INT32_MAX {
      if Positive(st.size) {
        VolumeIsProduct(st.size);
      }
      return None, 0;
    }
    VolumeIsProduct(st.size);
    FewerRegionsThanCells(st.size);
    var total := RegionCount(st.size.width) * RegionCount(st.size.height) * RegionCount(st.size.length);
    if refused || total <= 0 || total > INT32_MAX {
      return None, 0;
    }
    var written;
    written, solid := WriteRegions(st, air);
    WrittenCells(st, air);
    ListedFits(AllRegionCells(st, GridOf(st.size), air), st, air);
    assert solid <= INT32_MAX;  // the guard on the number of blocks never fires
    regions := Some(written);
  }

  /** Some solid block lies in the farthest plane of every axis. */
  ghost predicate ReachesFarPlanes(st: Structure, air: RuntimeId) {
    && (exists b :: Solid(st, b, air) && b.x == st.size.width - 1)
    && (exists b :: Solid(st, b, air) && b.y == st.size.height - 1)
    && (exists b :: Solid(st, b, air) && b.z == st.size.length - 1)
  }

  /** The size read back is the structure's own exactly when no far plane is all
      air. */
  lemma SizeComesBackExactlyWhen(st: Structure, air: RuntimeId, placed: seq<Placing>)
    requires Positive(st.size) && Lists(placed, st, air, b => true)
    ensures Grown(NO_SIZE, placed) == st.size <==> ReachesFarPlanes(st, air)
  {
    hide BlockAt, Grown;
    GrownIsTight(placed);
    var size := Grown(NO_SIZE, placed);
    if ReachesFarPlanes(st, air) {
      var a :| Solid(st, a, air) && a.x == st.size.width - 1;
      var b :| Solid(st, b, air) && b.y == st.size.height - 1;
      var c :| Solid(st, c, air) && c.z == st.size.length - 1;
      assert Placing(a, BlockAt(st, a, air)) in placed;
      assert Placing(b, BlockAt(st, b, air)) in placed;
      assert Placing(c, BlockAt(st, c, air)) in placed;
    }
    if size == st.size {
      var a :| a in placed && a.pos.x == size.width - 1;
      var b :| b in placed && b.pos.y == size.height - 1;
      var c :| c in placed && c.pos.z == size.length - 1;
      assert Solid(st, a.pos, air) && Solid(st, b.pos, air) && Solid(st, c.pos, air);
    }
  }

  /** Writing and reading: exactly the in-bounds non-air blocks come back, each
      once and where it was. Unless something else fails, that is exactly when
      there is a size, its volume fits int32 and so do the regions' spans. */
  method WriteAndRead(st: Structure, reread: RuntimeId -> RuntimeId, air: RuntimeId, refused: bool)
    returns (solid: nat, placed: Option<seq<Placing>>, size: Size, nonAir: nat)
    requires Int32Size(st.size) && Resolves(st, reread, air)
    ensures placed.Some? <==>
      && !refused && Positive(st.size)
      && st.size.width * st.size.height * st.size.length <= INT32_MAX && FitsInt32(st.size)
    ensures placed.Some? ==> ListsElements(placed.value, st, air) && solid == nonAir == |placed.value|
    ensures placed.Some? ==> (size == st.size <==> ReachesFarPlanes(st, air))
  {
    hide AllEncode, Resolves, Lists, Bounds, AllRegionCells, RegionCount, GridOf, ReadRegions, Grown, ReachesFarPlanes,
      ListsElements;
    var regions;
    regions, solid := WriteAxiom(st, air, refused);
    if regions == None {
      return solid, None, NO_SIZE, 0;
    }
    AlwaysReadable(regions.value, st, GridOf(st.size), air);
    SomeRegion(regions.value, st, air);
    ghost var low, high;
    placed, size, nonAir, low, high := ReadAxiom(regions.value, reread, air);
    WrittenBounds(regions.value, st, air, low, high);
    GridBox(st.size);
    RegionsReadBack(regions.value, st, GridOf(st.size), air, reread);
    WrittenCells(st, air);
    if placed.Some? {
      SizeComesBackExactlyWhen(st, air, placed.value);
      ListsAreElements(placed.value, st, air);
    }
  }

  /** A concrete case of a valid size whose volume alone is refused. */
  method LargeVolumeIsRefused(layers: map<SubChunkPos, Layer>, reread: RuntimeId -> RuntimeId, air: RuntimeId)
    returns (placed: Option<seq<Placing>>)
    requires Resolves(Structure(Size(2000, 2000, 2000), layers), reread, air)
    ensures placed == None && FitsInt32(Size(2000, 2000, 2000))
  {
    hide Resolves;
    var solid, size, nonAir;
    solid, placed, size, nonAir := WriteAndRead(Structure(Size(2000, 2000, 2000), layers), reread, air, false);
  }

  lemma SomeRegion(regions: seq<Region>, st: Structure, air: RuntimeId)
    requires ValidSize(st.size) && AllEncode(regions, st, GridOf(st.size), air)
    ensures regions != []
  {
    GridBox(st.size);
  }
}
