/** The consumers `BdxStructure::write_to_world` installs on the command reader,
    and its driver. */
module WorldSinks {
  import Arithmetic
  import opened Coordinates
  import opened Options
  import opened ColdPayloads
  import opened CacheLevels
  import opened WorldCaches
  import opened FlatWorld

  const MEBIBYTE := 0x10_0000

  /** Every cache and queue limit, derived from the caller's soft budget. */
  datatype Limits = Limits(chunks: nat, workers: nat, flushBatch: nat, coldBytes: nat)

  function LimitsFor(budget: nat, requestedWorkers: nat, configuredChunks: nat, configuredColdBytes: nat): Limits {
    var soft := Larger(budget, 8 * MEBIBYTE);
    var workerLimit := Larger(1, soft / (4 * MEBIBYTE));
    var requested := if requestedWorkers == 0 then 2 else requestedWorkers;
    var workers := Larger(1, Smaller(Smaller(requested, workerLimit), 16));
    Limits(
      Larger(1, Smaller(configuredChunks, Larger(1, soft / 4 / MEBIBYTE))),
      workers,
      Larger(1, Smaller(16, soft / Larger(4 * MEBIBYTE, workers * (4 * MEBIBYTE)))),
      Smaller(configuredColdBytes, Larger(1, soft / 8)))
  }

  predicate ChunksFit(chunks: int, soft: nat, configuredChunks: nat) {
    chunks == 1 || (chunks <= configuredChunks && chunks * 0x40_0000 <= soft)
  }

  predicate WorkersFit(workers: int, soft: nat, requestedWorkers: nat) {
    workers == 1
    || (workers <= 16 && workers <= (if requestedWorkers == 0 then 2 else requestedWorkers)
      && workers * 0x40_0000 <= soft)
  }

  predicate BatchFits(flushBatch: int, soft: nat, workers: nat) {
    flushBatch == 1 || (flushBatch <= 16 && flushBatch * (workers * 0x40_0000) <= soft)
  }

  predicate ColdFits(coldBytes: int, soft: nat, configuredColdBytes: nat) {
    coldBytes <= configuredColdBytes && coldBytes * 8 <= soft
  }

  /** Each limit is the largest that fits the budget the caller gave, or 8 MiB: cached
      chunks of 1 MiB in a quarter of it, workers of 4 MiB, that many flushes at once,
      and cold payloads in an eighth. */
  lemma LimitsFitTheBudget(budget: nat, requestedWorkers: nat, configuredChunks: nat, configuredColdBytes: nat)
    ensures var soft: nat := if budget < 0x80_0000 then 0x80_0000 else budget;
      var limits := LimitsFor(budget, requestedWorkers, configuredChunks, configuredColdBytes);
      && ChunksFit(limits.chunks, soft, configuredChunks)
      && (forall n :: ChunksFit(n, soft, configuredChunks) ==> n <= limits.chunks)
      && WorkersFit(limits.workers, soft, requestedWorkers)
      && (forall n :: WorkersFit(n, soft, requestedWorkers) ==> n <= limits.workers)
      && BatchFits(limits.flushBatch, soft, limits.workers)
      && (forall n :: BatchFits(n, soft, limits.workers) ==> n <= limits.flushBatch)
      && ColdFits(limits.coldBytes, soft, configuredColdBytes)
      && (forall n :: ColdFits(n, soft, configuredColdBytes) ==> n <= limits.coldBytes)
  {
    hide BatchFits;
    var soft := Larger(budget, 8 * MEBIBYTE);
    var limits := LimitsFor(budget, requestedWorkers, configuredChunks, configuredColdBytes);
    Quotient(soft, 4 * MEBIBYTE, limits.workers);
    BatchIsLargest(soft, limits.workers, limits.flushBatch);
  }

  lemma BatchIsLargest(soft: nat, workers: nat, flushBatch: nat)
    requires 1 <= workers && workers * (4 * MEBIBYTE) <= soft
    requires flushBatch == Larger(1, Smaller(16, soft / (workers * (4 * MEBIBYTE))))
    ensures BatchFits(flushBatch, soft, workers) && forall n :: BatchFits(n, soft, workers) ==> n <= flushBatch
  {
    var unit: nat := workers * (4 * MEBIBYTE);
    if flushBatch <= soft / unit {
      Quotient(soft, unit, flushBatch);
    }
    forall n | BatchFits(n, soft, workers)
      ensures n <= flushBatch
    {
      if n > 1 {
        AtMostQuotient(soft, unit, n);
      }
    }
  }

  lemma AtMostQuotient(total: nat, unit: nat, count: nat)
    requires unit > 0 && count * unit <= total
    ensures count <= total / unit
  {
    Arithmetic.Recompose(total, unit);
    if total / unit < count {
      Arithmetic.Multiples(total / unit + 1, count, unit);
    }
  }

  lemma Quotient(total: nat, unit: nat, count: nat)
    requires unit > 0 && count <= total / unit
    ensures count * unit <= total
  {
    assert total / unit * unit <= total;
    assert count * unit <= total / unit * unit;
  }

  function Mixed(value: int): bv32 {
    (value % 0x1_0000_0000) as bv32
  }

  function Slotted(mixed: bv32): Slot {
    var folded := mixed ^ (mixed >> 16);
    folded as int % LOOKASIDE_SIZE
  }

  function ChunkSlot(p: ChunkPos): Slot {
    Slotted((Mixed(p.x) * 0x9e37_79b1) ^ (Mixed(p.z) * 0x85eb_ca6b))
  }

  function SubChunkSlot(p: SubChunkPos): Slot {
    Slotted((Mixed(p.x) * 0x9e37_79b1) ^ (Mixed(p.y) * 0x85eb_ca6b) ^ (Mixed(p.z) * 0xc2b2_ae35))
  }

  /** The world positions the sink accepts. */
  predicate InWorld(target: BlockPos) {
    IsInt32(target.x) && IsInt32(target.z) && OVERWORLD_MIN_Y <= target.y <= OVERWORLD_MAX_Y
  }

  lemma InWorldIsBuilt(target: BlockPos)
    requires OVERWORLD_MIN_Y <= target.y <= OVERWORLD_MAX_Y
    ensures InBuildRange(SubChunkOf(target))
  {
    FloorBySixteen(target.y);
  }

  /** Where the previous run stopped. */
  datatype ZRoute = ZRoute(
    valid: bool, rawX: int, rawY: int, nextRawZ: int, targetX: int, targetY: int, nextTargetZ: int,
    chunkX: int, chunkZ: int, subY: int, localX: int, localY: int, localZ: int)
  {
    /** A remembered route is the one a fresh computation would give. */
    ghost predicate Follows(route: Route) {
      valid ==>
        && BlockPos(targetX, targetY, nextTargetZ) == route.Target(BlockPos(rawX, rawY, nextRawZ))
        && chunkX == targetX / 16 && subY == targetY / 16 && chunkZ == nextTargetZ / 16
        && localX == targetX % 16 && localY == targetY % 16 && localZ == nextTargetZ % 16
    }
  }

  class WorldSink {
    const route: Route
    const world: WorldCache
    var zRoute: ZRoute

    ghost predicate Valid()
      reads this, world, world.cold, world.chunkObjects, world.subObjects
    {
      world.Valid() && Layered(world.model) && zRoute.Follows(route)
    }

    constructor (route: Route, world: WorldCache)
      requires world.Valid() && Layered(world.model)
      ensures Valid() && this.route == route && this.world == world
    {
      this.route, this.world := route, world;
      zRoute := ZRoute(false, 0, 0, 0, 0, 0, 0, 0, 0, 0, 0, 0, 0);
    }

    method ConsumeBlock(raw: BlockPos, id: RuntimeId) returns (ok: bool)
      requires Valid()
      modifies world, world.cold, world.chunkObjects, world.subObjects
      ensures world.Grown(old(world.chunkObjects), old(world.subObjects))
      ensures fresh(world.chunkObjects - old(world.chunkObjects)) && fresh(world.subObjects - old(world.subObjects))
      ensures ok ==> InWorld(route.Target(raw)) && Valid()
      ensures !ok ==> world.storeFailed || !InWorld(route.Target(raw))
      ensures ok ==> world.model == PlaceCell(old(world.model), route.Target(raw), id, world.air)
    {
      hide WorldCache.Valid;
      var target := route.Target(raw);
      if !InWorld(target) {
        return false;
      }
      InWorldIsBuilt(target);
      NativeBlockUndoesIndex(target);
      ok := world.Locate(SubChunkOf(target));
      if ok {
        world.WriteCell(NativeIndex(target), id);
      }
    }

    /** `consume_z_run`: the whole run is range-checked first, then written one
        subchunk segment at a time. A run that continues the previous one reuses
        its route. */
    method ConsumeZRun(raw: BlockPos, ids: seq<RuntimeId>, containsAir: bool) returns (ok: bool)
      requires Valid() && (!containsAir ==> world.air !in ids)
      modifies this`zRoute, world, world.cold, world.chunkObjects, world.subObjects
      ensures world.Grown(old(world.chunkObjects), old(world.subObjects))
      ensures fresh(world.chunkObjects - old(world.chunkObjects)) && fresh(world.subObjects - old(world.subObjects))
      ensures ok ==> Valid()
      ensures ok && ids != [] ==> InWorld(route.Target(raw)) && InWorld(route.Target(Along(raw, |ids| - 1)))
      ensures !ok ==>
        world.storeFailed
        || (ids != [] && !(InWorld(route.Target(raw)) && InWorld(route.Target(Along(raw, |ids| - 1)))))
      ensures ok ==> world.model == PlaceRun(old(world.model), route.Target(raw), ids, world.air)
    {
      hide Valid, Layered, PlaceRun, InWorld, ZRoute.Follows, Route.Target, Along;
      if ids == [] {
        NothingPlaced(raw, ids);
        return true;
      }
      TargetAlong(raw, |ids| - 1);
      var target, first, localX, localY, localZ := Resolve(raw);
      ok := WriteRun(raw, target, ids, containsAir, first, localX, localY, localZ);
    }

    lemma NothingPlaced(raw: BlockPos, ids: seq<RuntimeId>)
      requires Valid() && ids == []
      ensures Layered(world.model) && PlaceRun(world.model, route.Target(raw), ids, world.air) == world.model
    {
    }

    lemma TargetAlong(raw: BlockPos, k: int)
      ensures route.Target(Along(raw, k)) == Along(route.Target(raw), k)
    {
    }

    method WriteRun(
      raw: BlockPos, target: BlockPos, ids: seq<RuntimeId>, containsAir: bool, first: SubChunkPos, localX: nat,
      localY: nat, localZ: nat)
      returns (ok: bool)
      requires Valid() && (!containsAir ==> world.air !in ids)
      requires target == route.Target(raw)
      requires first == SubChunkPos(target.x / 16, target.y / 16, target.z / 16)
      requires localX == target.x % 16 && localY == target.y % 16 && localZ == target.z % 16
      modifies this`zRoute, world, world.cold, world.chunkObjects, world.subObjects
      ensures world.Grown(old(world.chunkObjects), old(world.subObjects))
      ensures fresh(world.chunkObjects - old(world.chunkObjects)) && fresh(world.subObjects - old(world.subObjects))
      ensures ok ==> InWorld(target) && InWorld(Along(target, |ids| - 1))
      ensures !ok ==> world.storeFailed || !InWorld(target) || !InWorld(Along(target, |ids| - 1))
      ensures ok ==> Valid() && world.model == PlaceRun(old(world.model), target, ids, world.air)
    {
      hide WorldCache.Valid, Layered, PlaceRun, InWorld, ZRoute.Follows;
      if !InWorld(target) || !IsInt32(target.z + |ids| - 1) {
        OutOfWorld(target, |ids|);
        return false;
      }
      LastInWorld(target, |ids|);
      var endChunkZ, endLocalZ;
      ok, endChunkZ, endLocalZ := WriteSegments(target, ids, containsAir, first, localX, localY, localZ);
      if ok {
        zRoute := ZRoute(true, raw.x, raw.y, raw.z + |ids|, target.x, target.y, target.z + |ids|,
          first.x, endChunkZ, first.y, localX, localY, endLocalZ);
        StillFollows(route, zRoute, target, |ids|);
      }
    }

    /** The route of a run, taken over from the previous one where it continues
        it and computed afresh otherwise: the two agree. */
    method Resolve(raw: BlockPos) returns (target: BlockPos, first: SubChunkPos, localX: nat, localY: nat, localZ: nat)
      requires Valid()
      ensures target == route.Target(raw)
      ensures first == SubChunkPos(target.x / 16, target.y / 16, target.z / 16)
      ensures localX == target.x % 16 && localY == target.y % 16 && localZ == target.z % 16
    {
      if zRoute.valid && raw.x == zRoute.rawX && raw.y == zRoute.rawY && raw.z == zRoute.nextRawZ {
        target := BlockPos(zRoute.targetX, zRoute.targetY, zRoute.nextTargetZ);
        first := SubChunkPos(zRoute.chunkX, zRoute.subY, zRoute.chunkZ);
        localX, localY, localZ := zRoute.localX, zRoute.localY, zRoute.localZ;
        return;
      }
      target := route.Target(raw);
      FloorBySixteen(target.x);
      FloorBySixteen(target.y);
      FloorBySixteen(target.z);
      first := SubChunkPos(FloorDiv(target.x, 16), FloorDiv(target.y, 16), FloorDiv(target.z, 16));
      localX, localY, localZ := FloorMod(target.x, 16), FloorMod(target.y, 16), FloorMod(target.z, 16);
    }

    /** The segment loop of `consume_z_run`. */
    method WriteSegments(
      target: BlockPos, ids: seq<RuntimeId>, containsAir: bool, first: SubChunkPos, localX: nat, localY: nat,
      firstZ: nat)
      returns (ok: bool, chunkZ: int, localZ: nat)
      requires world.Valid() && Layered(world.model) && (!containsAir ==> world.air !in ids)
      requires InWorld(target)
      requires first == SubChunkPos(target.x / 16, target.y / 16, target.z / 16)
      requires localX == target.x % 16 && localY == target.y % 16 && firstZ == target.z % 16
      modifies world, world.cold, world.chunkObjects, world.subObjects
      ensures world.Grown(old(world.chunkObjects), old(world.subObjects))
      ensures fresh(world.chunkObjects - old(world.chunkObjects)) && fresh(world.subObjects - old(world.subObjects))
      ensures !ok ==> world.storeFailed
      ensures ok ==> world.Valid() && Layered(world.model)
      ensures ok ==> world.model == PlaceRun(old(world.model), target, ids, world.air)
      ensures ok ==> chunkZ == (target.z + |ids|) / 16 && localZ == (target.z + |ids|) % 16
    {
      hide WorldCache.Valid, Layered, PlaceRun, PlaceSegment, SubChunkOf, FloorDiv, FloorMod, NativeIndex;
      var consumed := 0;
      chunkZ, localZ := first.z, firstZ;
      BuiltAlong(target, first);
      assert Along(target, 0) == target && ids[0..] == ids;
      while consumed < |ids|
        invariant consumed <= |ids|
        invariant world.Valid() && Layered(world.model)
        invariant world.Grown(old(world.chunkObjects), old(world.subObjects))
        invariant fresh(world.chunkObjects - old(world.chunkObjects)) && fresh(world.subObjects - old(world.subObjects))
        invariant chunkZ == (target.z + consumed) / 16 && localZ == (target.z + consumed) % 16
        invariant PlaceRun(world.model, Along(target, consumed), ids[consumed..], world.air)
          == PlaceRun(old(world.model), target, ids, world.air)
      {
        var count := Smaller(|ids| - consumed, 16 - localZ);
        ghost var before := world.model;
        ok := WriteOne(Along(target, consumed), ids[consumed..consumed + count], containsAir,
          SubChunkPos(first.x, first.y, chunkZ), localX * 256 + localY * 16 + localZ);
        if !ok {
          return;
        }
        SegmentNext(before, target, ids, world.air, consumed, count);
        NextCell(target.z + consumed, count);
        consumed := consumed + count;
        localZ := localZ + count;
        if localZ == 16 {
          localZ := 0;
          chunkZ := chunkZ + 1;
        }
      }
      ok := true;
      EmptyRun(world.model, Along(target, |ids|), ids[|ids|..], world.air);
    }

    method WriteOne(target: BlockPos, ids: seq<RuntimeId>, containsAir: bool, position: SubChunkPos, destination: nat)
      returns (ok: bool)
      requires world.Valid() && Layered(world.model) && (!containsAir ==> world.air !in ids)
      requires InBuildRange(position) && position == SubChunkPos(target.x / 16, target.y / 16, target.z / 16)
      requires destination == target.x % 16 * 256 + target.y % 16 * 16 + target.z % 16
      requires |ids| <= 16 - target.z % 16
      modifies world, world.cold, world.chunkObjects, world.subObjects
      ensures world.Grown(old(world.chunkObjects), old(world.subObjects))
      ensures fresh(world.chunkObjects - old(world.chunkObjects)) && fresh(world.subObjects - old(world.subObjects))
      ensures !ok ==> world.storeFailed
      ensures ok ==> world.Valid() && Layered(world.model)
      ensures |ids| <= SegmentLength(target, |ids|)
      ensures ok ==> world.model == PlaceSegment(old(world.model), target, ids, world.air)
    {
      hide WorldCache.Valid;
      FloorBySixteen(target.x);
      FloorBySixteen(target.y);
      FloorBySixteen(target.z);
      ok := world.Locate(position);
      if ok {
        world.WriteSegment(destination, ids, containsAir);
      }
    }
  }

  /** What a finished conversion leaves in the store: in every subchunk the
      stream touched, exactly the flat map with air elsewhere; outside, nothing
      has changed. */
  ghost predicate Written(
    store: map<SubChunkPos, Payload>, store0: map<SubChunkPos, Payload>, route: Route, placements: seq<Placement>,
    air: RuntimeId)
  {
    && (forall b :: TouchedBy(route, placements, SubChunkOf(b)) ==>
          StoredAt(store, b) == Some(Or(Flat(route, placements, air), b, air)))
    && (forall p :: !TouchedBy(route, placements, p) ==>
      (p in store <==> p in store0) && (p in store ==> store[p] == store0[p]))
  }

  /** What one placement leaves at the absolute position `w`, if it lands there. A
      stream position is taken relative to the minimum and moved by the offset and by
      sixteen times the start subchunk, axis by axis. */
  function LandedBy(
      placement: Placement, min: BlockPos, offset: BlockPos, start: SubChunkPos, air: RuntimeId, w: BlockPos)
    : Option<RuntimeId>
  {
    var raw := placement.raw;
    var k := w.z - (raw.z - min.z + offset.z + start.z * 16);
    if w.x != raw.x - min.x + offset.x + start.x * 16 || w.y != raw.y - min.y + offset.y + start.y * 16 then None
    else
      match placement
      case Block(_, id) => if k == 0 then Some(id) else None
      case ZRun(_, ids, _) => if 0 <= k < |ids| && ids[k] != air then Some(ids[k]) else None
  }

  /** What the last placement that lands at `w` leaves there. */
  function LastLanded(
      placements: seq<Placement>, min: BlockPos, offset: BlockPos, start: SubChunkPos, air: RuntimeId, w: BlockPos)
    : Option<RuntimeId>
  {
    if placements == [] then None
    else
      var last := LandedBy(placements[|placements| - 1], min, offset, start, air, w);
      if last.Some? then last else LastLanded(placements[..|placements| - 1], min, offset, start, air, w)
  }

  lemma {:induction false} FlatIsLastLanded(route: Route, placements: seq<Placement>, air: RuntimeId, w: BlockPos)
    ensures var last := LastLanded(placements, route.min, route.offset, route.start, air, w);
      && (w in Flat(route, placements, air) <==> last.Some?)
      && (last.Some? ==> Flat(route, placements, air)[w] == last.value)
  {
    if placements != [] {
      var init, last := placements[..|placements| - 1], placements[|placements| - 1];
      FlatIsLastLanded(route, init, air, w);
      if last.ZRun? {
        hide FlatRun;
        FlatRunCell(Flat(route, init, air), route.Target(last.raw), last.ids, air, w);
      }
    }
  }

  /** Element `k` of layer `s` in the store is what landed last at its position, or
      air. */
  predicate ElementLanded(
    store: map<SubChunkPos, Payload>, placements: seq<Placement>, route: Route, air: RuntimeId, s: SubChunkPos, k: nat)
  {
    var w := BlockPos(s.x * 16 + k / 256, s.y * 16 + k / 16 % 16, s.z * 16 + k % 16);
    var last := LastLanded(placements, route.min, route.offset, route.start, air, w);
    s in store && k < |store[s].layer| && store[s].layer[k] == if last.Some? then last.value else air
  }

  /** Every touched layer is right element by element, and wherever something landed the
      layer is touched. */
  ghost predicate HoldsLanded(
    store: map<SubChunkPos, Payload>, placements: seq<Placement>, route: Route, air: RuntimeId)
  {
    && (forall s: SubChunkPos, k: nat | TouchedBy(route, placements, s) && k < 4096 ::
          ElementLanded(store, placements, route, air, s, k))
    && (forall w | LastLanded(placements, route.min, route.offset, route.start, air, w).Some? ::
          TouchedBy(route, placements, SubChunkPos(w.x / 16, w.y / 16, w.z / 16)))
  }

  lemma WrittenHolds(
    store: map<SubChunkPos, Payload>, store0: map<SubChunkPos, Payload>, route: Route, placements: seq<Placement>,
    air: RuntimeId)
    requires Written(store, store0, route, placements, air)
    ensures HoldsLanded(store, placements, route, air)
  {
    hide TouchedBy, Flat, LastLanded, NativeIndex, SubChunkOf, ElementLanded;
    forall s: SubChunkPos, k: nat | TouchedBy(route, placements, s) && k < 4096
      ensures ElementLanded(store, placements, route, air, s, k)
    {
      var w := NativeBlock(s, k);
      IndexUndoesNativeBlock(s, k);
      assert StoredAt(store, w) == Some(Or(Flat(route, placements, air), w, air));
      StoredElement(store, placements, route, air, s, k);
    }
    SetIsTouched(route, placements, air);
    forall w | LastLanded(placements, route.min, route.offset, route.start, air, w).Some?
      ensures TouchedBy(route, placements, SubChunkPos(w.x / 16, w.y / 16, w.z / 16))
    {
      FlatIsLastLanded(route, placements, air, w);
      SubChunkBySixteen(w);
    }
  }

  lemma StoredElement(
    store: map<SubChunkPos, Payload>, placements: seq<Placement>, route: Route, air: RuntimeId, s: SubChunkPos, k: nat)
    requires k < 4096
    requires StoredAt(store, NativeBlock(s, k)) == Some(Or(Flat(route, placements, air), NativeBlock(s, k), air))
    ensures ElementLanded(store, placements, route, air, s, k)
  {
    hide Flat, LastLanded, NativeIndex, SubChunkOf;
    IndexUndoesNativeBlock(s, k);
    FlatIsLastLanded(route, placements, air, NativeBlock(s, k));
  }

  lemma SubChunkBySixteen(w: BlockPos)
    ensures SubChunkOf(w) == SubChunkPos(w.x / 16, w.y / 16, w.z / 16)
  {
    FloorBySixteen(w.x);
    FloorBySixteen(w.y);
    FloorBySixteen(w.z);
    hide FloorDiv;
  }

  function StoredAt(store: map<SubChunkPos, Payload>, b: BlockPos): Option<RuntimeId> {
    var p := SubChunkOf(b);
    if p in store && 0 <= NativeIndex(b) < |store[p].layer| then Some(store[p].layer[NativeIndex(b)]) else None
  }

  lemma LandingIsWritten(
    store: map<SubChunkPos, Payload>, store0: map<SubChunkPos, Payload>, route: Route, placements: seq<Placement>,
    air: RuntimeId)
    requires Landing(store, store0, Placed(route, placements, air))
    ensures Written(store, store0, route, placements, air)
  {
    hide Placed, TouchedBy, Flat, NativeIndex, SubChunkOf, Or;
    var model := Placed(route, placements, air);
    forall b | TouchedBy(route, placements, SubChunkOf(b))
      ensures StoredAt(store, b) == Some(Or(Flat(route, placements, air), b, air))
    {
      PlacedTouches(route, placements, air, SubChunkOf(b));
      PlacedIsFlat(route, placements, air, b);
      NativeBlockUndoesIndex(b);
    }
    forall p | !TouchedBy(route, placements, p)
      ensures (p in store <==> p in store0) && (p in store ==> store[p] == store0[p])
    {
      PlacedTouches(route, placements, air, p);
    }
  }

  /** `write_to_world`: the placements are consumed as the stream is parsed, then
      everything cached is drained. A failure anywhere discards the world. */
  method WriteToWorld(
    route: Route, air: RuntimeId, limits: Limits, store0: map<SubChunkPos, Payload>, placements: seq<Placement>,
    parsed: bool)
    returns (ok: bool, discardOnClose: bool, store: map<SubChunkPos, Payload>, storeFailed: bool)
    requires limits.chunks >= 1 && limits.workers >= 1 && limits.flushBatch >= 1
    requires Announced(placements, air)
    ensures ok ==> parsed && !discardOnClose && Written(store, store0, route, placements, air)
    ensures ok ==> HoldsLanded(store, placements, route, air)
    ensures ok <==> parsed && !storeFailed && AllLandInWorld(route, placements)
    ensures !ok ==> discardOnClose
  {
    var world := new WorldCache(air, limits.chunks, limits.workers, limits.flushBatch, limits.coldBytes,
      ChunkSlot, SubChunkSlot, store0);
    hide WorldCache.Valid, HoldsLanded, AllLandInWorld, Written, Landing;
    var sink := new WorldSink(route, world);
    ok := ConsumeAll(sink, placements);
    if ok {
      if parsed {
        ok := world.Drain();
      } else {
        ok := false;
      }
    }
    if ok {
      LandingIsWritten(world.store, store0, route, placements, air);
      WrittenHolds(world.store, store0, route, placements, air);
    }
    store, discardOnClose, storeFailed := world.store, !ok, world.storeFailed;
  }

  /** Every cell of a placement lands in the world: x and z within 32 bits, y from -64 to
      319. */
  ghost predicate LandsInWorld(route: Route, p: Placement) {
    match p
    case Block(raw, _) => LandsAt(route, raw, 0)
    case ZRun(raw, ids, _) => forall k | 0 <= k < |ids| :: LandsAt(route, raw, k)
  }

  ghost predicate LandsAt(route: Route, raw: BlockPos, k: int) {
    && -0x8000_0000 <= raw.x - route.min.x + route.offset.x + route.start.x * 16 <= 0x7fff_ffff
    && -64 <= raw.y - route.min.y + route.offset.y + route.start.y * 16 <= 319
    && -0x8000_0000 <= raw.z + k - route.min.z + route.offset.z + route.start.z * 16 <= 0x7fff_ffff
  }

  ghost predicate AllLandInWorld(route: Route, placements: seq<Placement>) {
    forall i | 0 <= i < |placements| :: LandsInWorld(route, placements[i])
  }

  lemma RunLands(route: Route, raw: BlockPos, ids: seq<RuntimeId>, containsAir: bool)
    ensures LandsInWorld(route, ZRun(raw, ids, containsAir))
      <==> ids == [] || (InWorld(route.Target(raw)) && InWorld(route.Target(Along(raw, |ids| - 1))))
  {
    if ids != [] && LandsInWorld(route, ZRun(raw, ids, containsAir)) {
      assert LandsAt(route, raw, 0) && LandsAt(route, raw, |ids| - 1);
    }
  }

  method ConsumeAll(sink: WorldSink, placements: seq<Placement>) returns (ok: bool)
    requires sink.Valid() && sink.world.model == map[] && Announced(placements, sink.world.air)
    modifies sink`zRoute, sink.world, sink.world.cold, sink.world.chunkObjects, sink.world.subObjects
    ensures ok ==> sink.Valid() && sink.world.model == Placed(sink.route, placements, sink.world.air)
    ensures ok ==> AllLandInWorld(sink.route, placements)
    ensures !ok ==> sink.world.storeFailed || !AllLandInWorld(sink.route, placements)
  {
    hide WorldSink.Valid, Place, Announced, LandsInWorld;
    for i := 0 to |placements|
      invariant sink.Valid()
      invariant sink.world.Grown(old(sink.world.chunkObjects), old(sink.world.subObjects))
      invariant fresh(sink.world.chunkObjects - old(sink.world.chunkObjects))
        && fresh(sink.world.subObjects - old(sink.world.subObjects))
      invariant sink.world.model == Placed(sink.route, placements[..i], sink.world.air)
      invariant forall j | 0 <= j < i :: LandsInWorld(sink.route, placements[j])
    {
      assert placements[..i + 1][..i] == placements[..i];
      ok := Consume(sink, placements, i);
      if !ok {
        return;
      }
    }
    assert placements[..|placements|] == placements;
    ok := true;
  }

  method Consume(sink: WorldSink, placements: seq<Placement>, i: nat) returns (ok: bool)
    requires sink.Valid() && i < |placements| && Announced(placements, sink.world.air) && Layered(sink.world.model)
    modifies sink`zRoute, sink.world, sink.world.cold, sink.world.chunkObjects, sink.world.subObjects
    ensures sink.world.Grown(old(sink.world.chunkObjects), old(sink.world.subObjects))
    ensures fresh(sink.world.chunkObjects - old(sink.world.chunkObjects))
      && fresh(sink.world.subObjects - old(sink.world.subObjects))
    ensures ok ==> LandsInWorld(sink.route, placements[i])
    ensures !ok ==> sink.world.storeFailed || !LandsInWorld(sink.route, placements[i])
    ensures ok ==>
      sink.Valid()
      && sink.world.model == Place(old(sink.world.model), sink.route, placements[i], sink.world.air)
  {
    hide WorldSink.Valid, PlaceCell, PlaceRun, Layered;
    match placements[i]
    case Block(raw, id) => ok := sink.ConsumeBlock(raw, id);
    case ZRun(raw, ids, containsAir) =>
      RunLands(sink.route, raw, ids, containsAir);
      ok := sink.ConsumeZRun(raw, ids, containsAir);
  }

  lemma BuiltAlong(target: BlockPos, first: SubChunkPos)
    requires InWorld(target) && first.y == target.y / 16
    ensures forall z :: InBuildRange(SubChunkPos(first.x, first.y, z))
  {
  }

  lemma NextCell(z: int, count: nat)
    requires count <= 16 - z % 16
    ensures (z + count) / 16 == z / 16 + (if z % 16 + count == 16 then 1 else 0)
    ensures (z + count) % 16 == if z % 16 + count == 16 then 0 else z % 16 + count
  {
  }

  lemma StillFollows(route: Route, next: ZRoute, target: BlockPos, length: nat)
    requires next.targetX == target.x && next.targetY == target.y && next.nextTargetZ == target.z + length
    requires target == route.Target(BlockPos(next.rawX, next.rawY, next.nextRawZ - length))
    requires next.chunkX == target.x / 16 && next.subY == target.y / 16 && next.chunkZ == (target.z + length) / 16
    requires next.localX == target.x % 16 && next.localY == target.y % 16 && next.localZ == (target.z + length) % 16
    ensures next.Follows(route)
  {
  }

  lemma LastInWorld(target: BlockPos, length: nat)
    requires InWorld(target) && IsInt32(target.z + length - 1)
    ensures InWorld(Along(target, length - 1))
  {
  }

  lemma OutOfWorld(target: BlockPos, length: nat)
    requires !InWorld(target) || !IsInt32(target.z + length - 1)
    ensures !InWorld(target) || !InWorld(Along(target, length - 1))
  {
  }

  lemma EmptyRun(model: Layers, target: BlockPos, ids: seq<RuntimeId>, air: RuntimeId)
    requires Layered(model)
    ensures ids == [] ==> PlaceRun(model, target, ids, air) == model
  {
  }

  lemma SegmentNext(model: Layers, target: BlockPos, ids: seq<RuntimeId>, air: RuntimeId, consumed: nat, count: nat)
    requires Layered(model) && consumed < |ids| && count == Smaller(|ids| - consumed, 16 - (target.z + consumed) % 16)
    ensures count == SegmentLength(Along(target, consumed), count)
    ensures PlaceRun(model, Along(target, consumed), ids[consumed..], air)
      == PlaceRun(
          PlaceSegment(model, Along(target, consumed), ids[consumed..consumed + count], air),
          Along(target, consumed + count), ids[consumed + count..], air)
  {
    var rest, at := ids[consumed..], Along(target, consumed);
    assert rest[..count] == ids[consumed..consumed + count];
    assert rest[count..] == ids[consumed + count..];
    assert Along(at, count) == Along(target, consumed + count);
    hide SubChunkOf, NativeIndex, PlaceSegment, Layered;
    assert count == SegmentLength(at, |rest|);
  }
}
