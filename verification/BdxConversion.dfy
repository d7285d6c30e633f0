/** From the command stream to the store: the full reader in front of the world
    sink, as `BdxStructure::write_to_world` combines them. */
module BdxConversions {
  import opened Options
  import opened Coordinates
  import opened ChunkCells
  import opened ColdPayloads
  import opened FlatWorld
  import opened WorldSinks
  import opened BdxBytes
  import opened RuntimeMemos
  import opened BdxMachine
  import opened BdxReaders

  /** What the store holds once the placements of a run have been converted. */
  ghost predicate Converted(
    store: map<SubChunkPos, Payload>, store0: map<SubChunkPos, Payload>, route: Route, placed: seq<Placing>,
    events: seq<Placement>, air: RuntimeId)
  {
    var flat := FlatCells(map[], route, NonAirOf(placed, air));
    && (forall b :: TouchedBy(route, events, SubChunkOf(b)) ==> StoredAt(store, b) == Some(Or(flat, b, air)))
    && (forall b :: b in flat ==> TouchedBy(route, events, SubChunkOf(b)))
    && (forall p :: !TouchedBy(route, events, p) ==>
      (p in store <==> p in store0) && (p in store ==> store[p] == store0[p]))
  }

  /** The last non-air placement that the minimum, the offset and the start subchunk
      take to the absolute position `w`. */
  function LastSolidAt(
      placed: seq<Placing>, min: BlockPos, offset: BlockPos, start: SubChunkPos, air: RuntimeId, w: BlockPos)
    : Option<RuntimeId>
  {
    if placed == [] then None
    else
      var last := placed[|placed| - 1];
      if && last.id != air
         && w.x == last.pos.x - min.x + offset.x + start.x * 16
         && w.y == last.pos.y - min.y + offset.y + start.y * 16
         && w.z == last.pos.z - min.z + offset.z + start.z * 16
      then Some(last.id)
      else LastSolidAt(placed[..|placed| - 1], min, offset, start, air, w)
  }

  lemma {:induction false} FlatIsLastSolid(route: Route, placed: seq<Placing>, air: RuntimeId, w: BlockPos)
    ensures var flat, last := FlatCells(map[], route, NonAirOf(placed, air)),
        LastSolidAt(placed, route.min, route.offset, route.start, air, w);
      && (w in flat <==> last.Some?)
      && (last.Some? ==> flat[w] == last.value)
  {
    if placed != [] {
      var init, last := placed[..|placed| - 1], placed[|placed| - 1];
      FlatIsLastSolid(route, init, air, w);
      var before, after := NonAirOf(init, air), NonAirOf(placed, air);
      assert last.id != air ==> after[..|after| - 1] == before;
    }
  }

  /** Element `k` of layer `s` in the store is the last non-air placement taken to its
      position, or air. */
  predicate ElementConverted(
    store: map<SubChunkPos, Payload>, placed: seq<Placing>, route: Route, air: RuntimeId, s: SubChunkPos, k: nat)
  {
    var w := BlockPos(s.x * 16 + k / 256, s.y * 16 + k / 16 % 16, s.z * 16 + k % 16);
    var last := LastSolidAt(placed, route.min, route.offset, route.start, air, w);
    s in store && k < |store[s].layer| && store[s].layer[k] == if last.Some? then last.value else air
  }

  ghost predicate HoldsConverted(
    store: map<SubChunkPos, Payload>, placed: seq<Placing>, route: Route, events: seq<Placement>, air: RuntimeId)
  {
    && (forall s: SubChunkPos, k: nat | TouchedBy(route, events, s) && k < 4096 ::
          ElementConverted(store, placed, route, air, s, k))
    && (forall w | LastSolidAt(placed, route.min, route.offset, route.start, air, w).Some? ::
          TouchedBy(route, events, SubChunkPos(w.x / 16, w.y / 16, w.z / 16)))
  }

  lemma ConvertedHolds(
    store: map<SubChunkPos, Payload>, store0: map<SubChunkPos, Payload>, route: Route, placed: seq<Placing>,
    events: seq<Placement>, air: RuntimeId)
    requires Converted(store, store0, route, placed, events, air)
    ensures HoldsConverted(store, placed, route, events, air)
  {
    hide TouchedBy, FlatCells, LastSolidAt, NativeIndex, SubChunkOf, ElementConverted, NonAirOf;
    forall s: SubChunkPos, k: nat | TouchedBy(route, events, s) && k < 4096
      ensures ElementConverted(store, placed, route, air, s, k)
    {
      IndexUndoesNativeBlock(s, k);
      ConvertedElement(store, placed, route, air, s, k);
    }
    forall w | LastSolidAt(placed, route.min, route.offset, route.start, air, w).Some?
      ensures TouchedBy(route, events, SubChunkPos(w.x / 16, w.y / 16, w.z / 16))
    {
      FlatIsLastSolid(route, placed, air, w);
      SubChunkBySixteen(w);
    }
  }

  lemma ConvertedElement(
    store: map<SubChunkPos, Payload>, placed: seq<Placing>, route: Route, air: RuntimeId, s: SubChunkPos, k: nat)
    requires k < 4096
    requires var flat := FlatCells(map[], route, NonAirOf(placed, air));
      StoredAt(store, NativeBlock(s, k)) == Some(Or(flat, NativeBlock(s, k), air))
    ensures ElementConverted(store, placed, route, air, s, k)
  {
    hide FlatCells, LastSolidAt, NativeIndex, SubChunkOf, NonAirOf;
    IndexUndoesNativeBlock(s, k);
    FlatIsLastSolid(route, placed, air, NativeBlock(s, k));
  }

  /** The last non-air placement whose position, rebased to the low corner of the
      structure and moved by the offset, is `q`. */
  function LastRebased(placed: seq<Placing>, low: BlockPos, offset: BlockPos, air: RuntimeId, q: BlockPos)
    : Option<RuntimeId>
  {
    if placed == [] then None
    else
      var last := placed[|placed| - 1];
      var rebased := RebasedBlock(last.pos, low);
      if last.id != air && rebased.Some? && Moved(rebased.value, offset) == q then Some(last.id)
      else LastRebased(placed[..|placed| - 1], low, offset, air, q)
  }

  /** For a finished run whose box fits, and with the minimum at its low corner, the
      world holds at `start * 16 + q` what the structure has at `q`. */
  lemma {:induction false} WorldIsStructure(
    s: State, placed: seq<Placing>, size: Size, offset: BlockPos, start: SubChunkPos, air: RuntimeId, q: BlockPos)
    requires Enclosed(s) && SizeOf(s.extent) == Some(size) && placed <= s.placed
    ensures LastSolidAt(placed, s.extent.low, offset, start, air, Moved(q, NativeBlock(start, 0)))
      == LastRebased(placed, s.extent.low, offset, air, q)
  {
    hide Enclosed, SizeOf;
    if placed != [] {
      var init, last := placed[..|placed| - 1], placed[|placed| - 1];
      WorldIsStructure(s, init, size, offset, start, air, q);
      assert s.placed[|placed| - 1] == last;
      RebasingSucceeds(s, size, last.pos);
    }
  }

  /** The element the store has for an absolute position, if its layer is there. */
  function BlockStored(store: map<SubChunkPos, Payload>, w: BlockPos): Option<RuntimeId> {
    var s, k := SubChunkPos(w.x / 16, w.y / 16, w.z / 16), w.x % 16 * 256 + w.y % 16 * 16 + w.z % 16;
    if s in store && k < |store[s].layer| then Some(store[s].layer[k]) else None
  }

  lemma StoredWhereTouched(
    store: map<SubChunkPos, Payload>, placed: seq<Placing>, route: Route, events: seq<Placement>, air: RuntimeId,
    w: BlockPos)
    requires HoldsConverted(store, placed, route, events, air)
    ensures var last := LastSolidAt(placed, route.min, route.offset, route.start, air, w);
      && (last.Some? ==> BlockStored(store, w) == last)
      && (TouchedBy(route, events, SubChunkPos(w.x / 16, w.y / 16, w.z / 16)) ==>
            BlockStored(store, w) == if last.Some? then last else Some(air))
  {
    hide TouchedBy, LastSolidAt;
    var s, k := SubChunkPos(w.x / 16, w.y / 16, w.z / 16), w.x % 16 * 256 + w.y % 16 * 16 + w.z % 16;
    IndexDigits(w.x % 16, w.y % 16, w.z % 16);
    if TouchedBy(route, events, s) {
      assert ElementConverted(store, placed, route, air, s, k);
    }
  }

  /** So the converted world agrees with the structure: where a finished run placed
      something, the store holds it at the start subchunk plus the position the
      structure has it at. */
  lemma StoreIsStructure(
    store: map<SubChunkPos, Payload>, s: State, size: Size, route: Route, events: seq<Placement>, air: RuntimeId,
    q: BlockPos)
    requires HoldsConverted(store, s.placed, route, events, air) && route.min == s.extent.low
    requires Enclosed(s) && SizeOf(s.extent) == Some(size)
    ensures var block, w := LastRebased(s.placed, s.extent.low, route.offset, air, q),
        BlockPos(route.start.x * 16 + q.x, route.start.y * 16 + q.y, route.start.z * 16 + q.z);
      && (block.Some? ==> BlockStored(store, w) == block)
      && (block == None && TouchedBy(route, events, SubChunkPos(w.x / 16, w.y / 16, w.z / 16)) ==>
            BlockStored(store, w) == Some(air))
  {
    hide HoldsConverted, Enclosed, SizeOf, LastSolidAt, LastRebased, TouchedBy, BlockStored;
    WorldIsStructure(s, s.placed, size, route.offset, route.start, air, q);
    StoredWhereTouched(store, s.placed, route, events, air, Moved(q, NativeBlock(route.start, 0)));
  }

  /** However the decompressed bytes are cut into windows and whatever the cache
      limits, a successful conversion stores the last non-air placement of every
      position, by one-command-at-a-time execution, and air in the rest of the
      touched subchunks. */
  method Convert(registry: Registry, bytes: Bytes, route: Route, limits: Limits, store0: map<SubChunkPos, Payload>)
    returns (ok: bool, discardOnClose: bool, store: map<SubChunkPos, Payload>, storeFailed: bool,
        ghost events: seq<Placement>)
    requires limits.chunks >= 1 && limits.workers >= 1 && limits.flushBatch >= 1
    ensures ok ==> !discardOnClose && Run(registry, true, bytes, 0, START).Some?
    ensures ok ==> Converted(store, store0, route, Run(registry, true, bytes, 0, START).value.placed, events,
      registry.air)
    ensures ok ==> HoldsConverted(store, Run(registry, true, bytes, 0, START).value.placed, route, events, registry.air)
    ensures ok
      <==> Run(registry, true, bytes, 0, START).Some? && !storeFailed && AllLandInWorld(route, events)
    ensures !ok ==> discardOnClose
  {
    hide AllLandInWorld, HoldsConverted, HoldsLanded, Run, Flat, FlatCells, TouchedBy, StoredAt, Or, Enclosed, NonAirOf,
      Expand;
    var reader := new BdxReader(registry, true, bytes);
    var parsed := reader.ReadFull();
    events := reader.events;
    if !parsed {
      var partial: map<SubChunkPos, Payload> := *;  // whatever was saved before the failure
      var failed: bool := *;
      return false, true, partial, failed, events;
    }
    ok, discardOnClose, store, storeFailed := WriteToWorld(route, registry.air, limits, store0, reader.events, parsed);
    FlatIsCells(route, events, registry.air);
    SetIsTouched(route, events, registry.air);
    if ok {
      ConvertedHolds(store, store0, route, Run(registry, true, bytes, 0, START).value.placed, events, registry.air);
    }
  }
}
