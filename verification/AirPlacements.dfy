/** What a placed air block does: it is not handed to the world sink, but the
    placement spool replays it. Where the two readings of one stream differ. */
module AirPlacements {
  import opened Options
  import opened Coordinates
  import opened ColdPayloads
  import opened ChunkCells
  import opened PlacementRecords
  import opened BdxConversions
  import World = FlatWorld

  /** What the converted world has at structure position `q`: air unless a layer is
      stored for it. */
  function WorldAnswer(store: map<SubChunkPos, Payload>, start: SubChunkPos, air: RuntimeId, q: BlockPos): RuntimeId {
    var stored := BlockStored(store, BlockPos(start.x * 16 + q.x, start.y * 16 + q.y, start.z * 16 + q.z));
    if stored.Some? then stored.value else air
  }

  /** What the chunks show there. */
  function ChunkAnswer(frame: Frame, placed: seq<Placing>, air: RuntimeId, q: BlockPos): RuntimeId {
    ChunksHoldLastPlacements(frame, placed, {ChunkOfBlock(q)}, air);
    CellIn(ChunksOf(frame, placed, {ChunkOfBlock(q)}, air)[ChunkOfBlock(q)], q, air)
  }

  /** Some placement at the position is not air. */
  predicate EverSolid(placed: seq<Placing>, b: BlockPos, air: RuntimeId) {
    exists p :: p in placed && p.pos == b && p.id != air
  }

  /** The world keeps the last non-air placement. */
  lemma {:induction false} WorldKeepsLastSolid(frame: Frame, start: SubChunkPos, placed: seq<Placing>, b: BlockPos,
      air: RuntimeId)
    requires Normalize(frame, b).Some?
    ensures var q := Normalize(frame, b).value;
      var kept := LastSolidAt(placed, frame.min, frame.offset, start, air,
        BlockPos(start.x * 16 + q.x, start.y * 16 + q.y, start.z * 16 + q.z));
      && (kept.Some? <==> EverSolid(placed, b, air))
      && (kept.Some? ==> kept.value != air)
      && (LastPlacing(placed, b).Some? && LastPlacing(placed, b).value.id != air ==>
            kept == Some(LastPlacing(placed, b).value.id))
  {
    if placed != [] {
      var init, last := placed[..|placed| - 1], placed[|placed| - 1];
      WorldKeepsLastSolid(frame, start, init, b, air);
      assert forall p :: p in placed <==> p in init || p == last;
    }
  }

  /** The world of a conversion and the chunks of the same stream, with the same minimum
      and offset, disagree at a position exactly when the last placement there is air
      and an earlier one was not. */
  lemma AnswersDifferExactlyWhen(
    store: map<SubChunkPos, Payload>, store0: map<SubChunkPos, Payload>, route: World.Route,
    events: seq<World.Placement>, frame: Frame, placed: seq<Placing>, b: BlockPos, air: RuntimeId)
    requires Converted(store, store0, route, placed, events, air) && store0 == map[]
    requires frame.min == route.min && frame.offset == route.offset && Normalize(frame, b).Some?
    ensures var q := Normalize(frame, b).value;
      WorldAnswer(store, route.start, air, q) != ChunkAnswer(frame, placed, air, q)
      <==> EverSolid(placed, b, air) && LastPlacing(placed, b).Some? && LastPlacing(placed, b).value.id == air
  {
    hide Converted, HoldsConverted, BlockStored, ChunksOf, Records, Normalize, CellIn, LastAt, LastSolidAt, AnswerAt;
    var q, start := Normalize(frame, b).value, route.start;
    var w := BlockPos(start.x * 16 + q.x, start.y * 16 + q.y, start.z * 16 + q.z);
    ConvertedHolds(store, store0, route, placed, events, air);
    StoredWhereTouched(store, placed, route, events, air, w);
    UntouchedIsEmpty(store, store0, route, placed, events, air, w);
    WorldKeepsLastSolid(frame, start, placed, b, air);
    SolidIsPlaced(placed, b, air);
    ChunkIsLast(frame, placed, b, air);
  }

  lemma UntouchedIsEmpty(
    store: map<SubChunkPos, Payload>, store0: map<SubChunkPos, Payload>, route: World.Route, placed: seq<Placing>,
    events: seq<World.Placement>, air: RuntimeId, w: BlockPos)
    requires Converted(store, store0, route, placed, events, air) && store0 == map[]
    ensures !World.TouchedBy(route, events, SubChunkPos(w.x / 16, w.y / 16, w.z / 16)) ==> BlockStored(store, w) == None
  {
    hide World.TouchedBy, LastSolidAt;
  }

  lemma ChunkIsLast(frame: Frame, placed: seq<Placing>, b: BlockPos, air: RuntimeId)
    requires Normalize(frame, b).Some?
    ensures ChunkAnswer(frame, placed, air, Normalize(frame, b).value) == IdOr(LastPlacing(placed, b), air)
  {
    hide ChunksOf, Records, CellIn, LastAt, LastPlacing;
    var q := Normalize(frame, b).value;
    ChunksHoldLastPlacements(frame, placed, {ChunkOfBlock(q)}, air);
    RecordsAnswer(frame, placed, air, q);
  }

  lemma {:induction false} SolidIsPlaced(placed: seq<Placing>, b: BlockPos, air: RuntimeId)
    ensures EverSolid(placed, b, air) ==> LastPlacing(placed, b).Some?
    ensures LastPlacing(placed, b).Some? && LastPlacing(placed, b).value.id != air ==> EverSolid(placed, b, air)
  {
    if placed != [] {
      var init, last := placed[..|placed| - 1], placed[|placed| - 1];
      SolidIsPlaced(init, b, air);
      assert forall p :: p in placed <==> p in init || p == last;
    }
  }

  const CORNER := BlockPos(0, 0, 0)
  const ONE_BLOCK := Frame(CORNER, CORNER, Size(1, 1, 1))

  /** Stone, then air, at one position: a conversion keeps the stone, the chunks do
      not. */
  lemma AirErasesInChunksOnly(
    store: map<SubChunkPos, Payload>, start: SubChunkPos, events: seq<World.Placement>, stone: RuntimeId,
    air: RuntimeId)
    requires stone != air
    requires var placed := [Placing(CORNER, stone), Placing(CORNER, air)];
      Converted(store, map[], World.Route(CORNER, CORNER, start), placed, events, air)
    ensures WorldAnswer(store, start, air, CORNER) == stone
    ensures ChunkAnswer(ONE_BLOCK, [Placing(CORNER, stone), Placing(CORNER, air)], air, CORNER) == air
  {
    hide Converted, HoldsConverted, ChunksOf, Records, CellIn, BlockStored;
    var first, placed := [Placing(CORNER, stone)], [Placing(CORNER, stone), Placing(CORNER, air)];
    var route := World.Route(CORNER, CORNER, start);
    var w := BlockPos(start.x * 16, start.y * 16, start.z * 16);
    ConvertedHolds(store, map[], route, placed, events, air);
    StoredWhereTouched(store, placed, route, events, air, w);
    assert placed[..1] == first && first[..0] == [];
    assert LastSolidAt(first, CORNER, CORNER, start, air, w) == Some(stone);
    assert Normalize(ONE_BLOCK, CORNER) == Some(CORNER);
    ChunkIsLast(ONE_BLOCK, placed, CORNER, air);
  }
}
