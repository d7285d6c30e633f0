/** The levels a subchunk can be at while `BdxStructure::write_to_world` runs,
    the consistency of the copies kept there, and how each step of the cache
    moves subchunks between them. */
module CacheLevels {
  import opened Coordinates
  import opened ColdPayloads

  const LOOKASIDE_SIZE := 256
  const CACHED_SUB_Y_COUNT := 24
  const MIN_CACHED_SUB_Y := -4

  type Slot = n: nat | n < LOOKASIDE_SIZE
  type Layers = map<SubChunkPos, seq<RuntimeId>>

  /** One in-memory subchunk; `layer0` is the 4096-cell array the struct holds.
      Layer 1 is all air on this path and is not modelled. `home` is the position
      the object was created for. */
  class SubChunkData {
    ghost const home: SubChunkPos
    var layer0: seq<RuntimeId>

    constructor (ghost home: SubChunkPos, layer0: seq<RuntimeId>)
      ensures this.home == home && this.layer0 == layer0
    {
      this.home := home;
      this.layer0 := layer0;
    }
  }

  class CachedChunk {
    ghost const home: ChunkPos
    var subChunks: map<int, SubChunkData>
    var layers: seq<SubChunkData?>
    var lastTouch: nat

    constructor (ghost home: ChunkPos, lastTouch: nat)
      ensures this.home == home && this.lastTouch == lastTouch
      ensures subChunks == map[] && layers == seq(CACHED_SUB_Y_COUNT, _ => null)
    {
      this.home := home;
      this.subChunks := map[];
      this.layers := seq(CACHED_SUB_Y_COUNT, _ => null);
      this.lastTouch := lastTouch;
    }
  }

  datatype ChunkEntry = ChunkEntry(position: ChunkPos, chunk: CachedChunk?)
  datatype SubChunkEntry = SubChunkEntry(position: SubChunkPos, owner: CachedChunk?, subchunk: SubChunkData?)
  datatype PendingSave = PendingSave(chunks: set<ChunkPos>, data: map<SubChunkPos, SubChunkData>)

  /** The level that holds the authoritative copy of a touched subchunk. */
  datatype Level = InCache | InPending | InCold | InStore

  /** How the touched subchunks are spread over the levels. `held` maps each
      subchunk that is in memory to its object; `level` says whether it is live
      or waiting to be saved. */
  datatype Map = Map(level: map<SubChunkPos, Level>, held: map<SubChunkPos, SubChunkData>) {
    ghost predicate Is(p: SubChunkPos, at: Level) {
      p in level && level[p] == at
    }

    ghost predicate Names(p: SubChunkPos, sub: SubChunkData?) {
      Is(p, InCache) && p in held && held[p] == sub
    }

    ghost predicate HeldOk() {
      forall p :: p in held <==> Is(p, InCache) || Is(p, InPending)
    }
  }

  ghost predicate Disjoint(pend: seq<PendingSave>) {
    forall i, j | 0 <= i < j < |pend| :: pend[i].chunks !! pend[j].chunks
  }

  ghost predicate Awaiting(pend: seq<PendingSave>, p: SubChunkPos) {
    exists i :: 0 <= i < |pend| && p in pend[i].data
  }

  /** No chunk is queued twice or queued and cached, and the queue carries
      exactly the subchunks that wait to be saved. */
  ghost predicate QueueOk(chunks: set<ChunkPos>, pend: seq<PendingSave>, m: Map) {
    && Disjoint(pend)
    && (forall i | 0 <= i < |pend| :: pend[i].chunks !! chunks)
    && (forall i, p | 0 <= i < |pend| && p in pend[i].data ::
          ChunkOf(p) in pend[i].chunks && m.Is(p, InPending) && p in m.held && m.held[p] == pend[i].data[p])
    && (forall p | m.Is(p, InPending) :: Awaiting(pend, p))
    && (forall p | m.Is(p, InCache) :: ChunkOf(p) in chunks)
  }

  /** Every pointer remembered by a lookaside table names the live object at
      its position, and sits in that position's slot. */
  ghost predicate TablesOk(
    chunkSlot: ChunkPos -> Slot, subSlot: SubChunkPos -> Slot, cache: map<ChunkPos, CachedChunk>, m: Map,
    chunkTable: seq<ChunkEntry>, subTable: seq<SubChunkEntry>)
  {
    && |chunkTable| == |subTable| == LOOKASIDE_SIZE
    && (forall k | 0 <= k < LOOKASIDE_SIZE && chunkTable[k].chunk != null ::
          var p := chunkTable[k].position;
          chunkSlot(p) == k && p in cache && cache[p] == chunkTable[k].chunk)
    && (forall k | 0 <= k < LOOKASIDE_SIZE && subTable[k].owner != null && subTable[k].subchunk != null ::
          var p := subTable[k].position;
          subSlot(p) == k && ChunkOf(p) in cache && cache[ChunkOf(p)] == subTable[k].owner
            && m.Names(p, subTable[k].subchunk))
  }

  ghost predicate ColdFits(entries: map<SubChunkPos, ColdEntry>, m: Map, model: Layers, flushed: set<SubChunkPos>) {
    && (forall p :: p in entries <==> m.Is(p, InCold))
    && (forall p | p in entries :: p in flushed && p in model && entries[p].payload.layer == model[p])
  }

  /** The store holds what was saved last for the subchunks no other level
      holds, and what it held at the start for the untouched ones. */
  ghost predicate StoreFits(
    store: map<SubChunkPos, Payload>, store0: map<SubChunkPos, Payload>, m: Map, model: Layers,
    flushed: set<SubChunkPos>)
  {
    && flushed <= m.level.Keys
    && (forall p | m.Is(p, InStore) :: p in flushed && p in store && p in model && store[p].layer == model[p])
    && (forall p | p !in m.level :: (p in store <==> p in store0) && (p in store ==> store[p] == store0[p]))
  }

  /** Every in-memory subchunk is up to date, and they are distinct objects. */
  ghost predicate Contents(held: map<SubChunkPos, SubChunkData>, model: Layers)
    reads held.Values`layer0
  {
    forall p | p in held :: held[p].home == p && p in model && held[p].layer0 == model[p]
  }

  ghost predicate Owned(chunkObjects: set<CachedChunk>, subObjects: set<SubChunkData>,
      cache: map<ChunkPos, CachedChunk>, m: Map, model: Layers)
  {
    && (forall c | c in cache :: cache[c] in chunkObjects)
    && (forall p | p in m.held :: m.held[p] in subObjects)
    && m.HeldOk()
    && model.Keys == m.level.Keys
    && (forall p | p in model :: |model[p]| == 4096)
  }

  /** The chunk object agrees with the map, and so do its layer pointers. */
  ghost predicate ChunkOk(c: ChunkPos, chunk: CachedChunk, m: Map)
    reads chunk`subChunks, chunk`layers
  {
    chunk.home == c && ChunkFits(c, chunk.subChunks, chunk.layers, m)
  }

  ghost predicate ChunkFits(c: ChunkPos, subs: map<int, SubChunkData>, layers: seq<SubChunkData?>, m: Map) {
    && |layers| == CACHED_SUB_Y_COUNT
    && (forall y :: y in subs <==> m.Is(SubChunkPos(c.x, y, c.z), InCache))
    && (forall y | y in subs ::
          0 <= y - MIN_CACHED_SUB_Y < CACHED_SUB_Y_COUNT && m.Names(SubChunkPos(c.x, y, c.z), subs[y]))
    && (forall i | 0 <= i < CACHED_SUB_Y_COUNT && layers[i] != null ::
          m.Names(SubChunkPos(c.x, i + MIN_CACHED_SUB_Y, c.z), layers[i]))
  }

  ghost predicate ChunksOk(cache: map<ChunkPos, CachedChunk>, m: Map)
    reads cache.Values`subChunks, cache.Values`layers
  {
    forall c | c in cache :: ChunkOk(c, cache[c], m)
  }

  lemma ChunksTaken(cache: map<ChunkPos, CachedChunk>, m: Map, c: ChunkPos)
    requires ChunksOk(cache, m)
    ensures ChunksOk(cache - {c}, Taken(m, c))
  {
    forall d | d in cache && d != c
      ensures ChunkOk(d, cache[d], Taken(m, c))
    {
      assert ChunkOk(d, cache[d], m);
      assert forall p | ChunkOf(p) == d :: Taken(m, c).Is(p, InCache) <==> m.Is(p, InCache);
    }
  }

  /** The map once chunk `c` has been moved from the cache to a save batch. */
  ghost function Taken(m: Map, c: ChunkPos): Map {
    m.(level := map p | p in m.level :: if m.level[p] == InCache && ChunkOf(p) == c then InPending else m.level[p])
  }

  lemma TakenKeeps(
    chunkObjects: set<CachedChunk>, subObjects: set<SubChunkData>, cache: map<ChunkPos, CachedChunk>, m: Map,
    c: ChunkPos, entries: map<SubChunkPos, ColdEntry>, model: Layers, flushed: set<SubChunkPos>,
    store: map<SubChunkPos, Payload>, store0: map<SubChunkPos, Payload>)
    requires Owned(chunkObjects, subObjects, cache, m, model)
    requires ColdFits(entries, m, model, flushed) && StoreFits(store, store0, m, model, flushed)
    ensures Owned(chunkObjects, subObjects, cache - {c}, Taken(m, c), model)
    ensures ColdFits(entries, Taken(m, c), model, flushed) && StoreFits(store, store0, Taken(m, c), model, flushed)
    ensures Taken(m, c).held == m.held
  {
    assert forall p :: Taken(m, c).Is(p, InCold) <==> m.Is(p, InCold);
    assert forall p :: Taken(m, c).Is(p, InStore) <==> m.Is(p, InStore);
  }

  lemma QueueTaken(
    chunkObjects: set<CachedChunk>, subObjects: set<SubChunkData>, model: Layers, cache: map<ChunkPos, CachedChunk>,
    pend: seq<PendingSave>, m: Map, c: ChunkPos, batch: PendingSave, subs: map<int, SubChunkData>)
    requires QueueOk(cache.Keys, pend + [batch], m) && Owned(chunkObjects, subObjects, cache, m, model) && c in cache
      && ChunksOk(cache, m)
    requires subs == cache[c].subChunks
    ensures QueueOk((cache - {c}).Keys, pend + [PendingSave(batch.chunks + {c}, batch.data + Positioned(c, subs))],
      Taken(m, c))
  {
    assert ChunkOk(c, cache[c], m);
    var moved := Positioned(c, subs);
    assert (cache - {c}).Keys == cache.Keys - {c};
    forall p
      ensures p in moved <==> m.Is(p, InCache) && ChunkOf(p) == c
      ensures p in moved ==> m.held[p] == moved[p]
    {
      assert p == SubChunkPos(p.x, p.y, p.z);
    }
    QueueMoved(cache.Keys, pend, m, c, batch, moved);
  }

  lemma QueueMoved(
    chunks: set<ChunkPos>, pend: seq<PendingSave>, m: Map, c: ChunkPos, batch: PendingSave,
    moved: map<SubChunkPos, SubChunkData>)
    requires QueueOk(chunks, pend + [batch], m) && c in chunks && m.HeldOk()
    requires forall p :: p in moved <==> m.Is(p, InCache) && ChunkOf(p) == c
    requires forall p | p in moved :: m.held[p] == moved[p]
    ensures QueueOk(chunks - {c}, pend + [PendingSave(batch.chunks + {c}, batch.data + moved)], Taken(m, c))
  {
    var batch' := PendingSave(batch.chunks + {c}, batch.data + moved);
    var q, q', n := pend + [batch], pend + [batch'], |pend|;
    assert q[n] == batch && q'[n] == batch' && forall i | 0 <= i < n :: q[i] == q'[i];
    forall i, p | 0 <= i < |q'| && p in q'[i].data
      ensures ChunkOf(p) in q'[i].chunks && Taken(m, c).Is(p, InPending) && p in m.held && m.held[p] == q'[i].data[p]
    {
      assert p in moved || p in q[i].data;
    }
    forall p | Taken(m, c).Is(p, InPending)
      ensures Awaiting(q', p)
    {
      AwaitingMore(pend, batch, batch', p);
      assert p in moved || m.Is(p, InPending);
    }
  }

  lemma AwaitingMore(pend: seq<PendingSave>, batch: PendingSave, batch': PendingSave, p: SubChunkPos)
    requires batch.data.Keys <= batch'.data.Keys
    ensures Awaiting(pend + [batch], p) || p in batch'.data ==> Awaiting(pend + [batch'], p)
  {
    var q, q' := pend + [batch], pend + [batch'];
    if p in batch'.data {
      assert p in q'[|pend|].data;
    } else if Awaiting(q, p) {
      var i :| 0 <= i < |q| && p in q[i].data;
      assert p in q'[i].data;
    }
  }

  lemma TablesTaken(
    chunkSlot: ChunkPos -> Slot, subSlot: SubChunkPos -> Slot, cache: map<ChunkPos, CachedChunk>, m: Map, c: ChunkPos,
    ys: set<int>, chunks: seq<ChunkEntry>, subs: seq<SubChunkEntry>, chunks': seq<ChunkEntry>,
    subs': seq<SubChunkEntry>)
    requires TablesOk(chunkSlot, subSlot, cache, m, chunks, subs) && c in cache
    requires ChunksOk(cache, m) && ys == cache[c].subChunks.Keys
    requires Invalidated(c, cache[c], ys, chunkSlot, subSlot, chunks, subs, chunks', subs')
    ensures TablesOk(chunkSlot, subSlot, cache - {c}, Taken(m, c), chunks', subs')
  {
    forall k | 0 <= k < LOOKASIDE_SIZE && subs'[k].owner != null && subs'[k].subchunk != null
      ensures var p := subs'[k].position;
        && subSlot(p) == k && ChunkOf(p) in cache - {c}
        && cache[ChunkOf(p)] == subs'[k].owner && Taken(m, c).Names(p, subs'[k].subchunk)
    {
      var p := subs'[k].position;
      assert p == SubChunkPos(p.x, p.y, p.z) && ChunkOk(c, cache[c], m);
    }
  }

  /** The map once the front save batch has been split between the cold cache,
      which now holds `cold`, and the store. */
  ghost function Settled(m: Map, data: map<SubChunkPos, SubChunkData>, cold: set<SubChunkPos>): Map {
    Map(
      map p | p in m.level ::
        if p in data || m.level[p] == InCold then (if p in cold then InCold else InStore) else m.level[p],
      m.held - data.Keys)
  }

  /** The payloads encode exactly the subchunks of a batch. */
  ghost predicate Encodes(payloads: seq<Encoded>, data: map<SubChunkPos, SubChunkData>)
    reads data.Values`layer0
  {
    && (forall p :: p in data <==> Names(payloads, p))
    && (forall e | e in payloads :: e.pos in data && e.payload.layer == data[e.pos].layer0)
    && (forall i, j | 0 <= i < j < |payloads| :: payloads[i].pos != payloads[j].pos)
  }

  lemma QueueSettled(chunks: set<ChunkPos>, pend: seq<PendingSave>, m: Map, cold: set<SubChunkPos>)
    requires pend != [] && QueueOk(chunks, pend, m) && m.HeldOk()
    ensures Settled(m, pend[0].data, cold).HeldOk()
    ensures QueueOk(chunks, pend[1..], Settled(m, pend[0].data, cold))
    ensures forall p :: Settled(m, pend[0].data, cold).Is(p, InCache) <==> m.Is(p, InCache)
  {
    var m' := Settled(m, pend[0].data, cold);
    forall i, p | 0 <= i < |pend[1..]| && p in pend[1..][i].data
      ensures ChunkOf(p) in pend[1..][i].chunks && m'.Is(p, InPending) && p in m'.held
        && m'.held[p] == pend[1..][i].data[p]
    {
      assert pend[i + 1].chunks !! pend[0].chunks;
    }
    forall p | m'.Is(p, InPending)
      ensures Awaiting(pend[1..], p)
    {
      assert m.Is(p, InPending);
      var i :| 0 <= i < |pend| && p in pend[i].data;
      assert p in pend[1..][i - 1].data;
    }
  }

  /** The live subchunks are the same objects in both maps. */
  ghost predicate SameLive(m: Map, m': Map) {
    && (forall p :: m.Is(p, InCache) <==> m'.Is(p, InCache))
    && (forall p | m.Is(p, InCache) :: p in m.held && p in m'.held && m.held[p] == m'.held[p])
  }

  lemma LiveDecides(
    cache: map<ChunkPos, CachedChunk>, m: Map, m': Map, chunkSlot: ChunkPos -> Slot, subSlot: SubChunkPos -> Slot,
    chunkTable: seq<ChunkEntry>, subTable: seq<SubChunkEntry>)
    requires SameLive(m, m')
    requires ChunksOk(cache, m) && TablesOk(chunkSlot, subSlot, cache, m, chunkTable, subTable)
    ensures ChunksOk(cache, m') && TablesOk(chunkSlot, subSlot, cache, m', chunkTable, subTable)
  {
    forall c | c in cache
      ensures ChunkOk(c, cache[c], m')
    {
      assert ChunkOk(c, cache[c], m);
    }
  }

  lemma LevelsSettled(
    chunkObjects: set<CachedChunk>, subObjects: set<SubChunkData>, cache: map<ChunkPos, CachedChunk>, m: Map,
    model: Layers, pend: seq<PendingSave>, cold: set<SubChunkPos>)
    requires pend != [] && QueueOk(cache.Keys, pend, m) && Owned(chunkObjects, subObjects, cache, m, model)
      && Contents(m.held, model)
    ensures var m' := Settled(m, pend[0].data, cold);
      && QueueOk(cache.Keys, pend[1..], m')
      && Owned(chunkObjects, subObjects, cache, m', model) && Contents(m'.held, model) && SameLive(m, m')
  {
    QueueSettled(cache.Keys, pend, m, cold);
    var m' := Settled(m, pend[0].data, cold);
    assert forall p | p in m'.held :: m.held[p] == m'.held[p];
    forall p | m.Is(p, InCache)
      ensures p in m'.held
    {
      assert p in pend[0].data ==> m.Is(p, InPending);
    }
  }

  ghost predicate Matches(payloads: map<SubChunkPos, Payload>, model: Layers) {
    forall p | p in payloads :: p in model && payloads[p].layer == model[p]
  }

  /** The batch's objects are the ones waiting in memory. */
  ghost predicate Detached(data: map<SubChunkPos, SubChunkData>, m: Map) {
    forall p | p in data :: m.Is(p, InPending) && p in m.held && m.held[p] == data[p]
  }

  lemma SavedMatches(
    m: Map, data: map<SubChunkPos, SubChunkData>, model: Layers, payloads: seq<Encoded>,
    entries: map<SubChunkPos, ColdEntry>, flushed: set<SubChunkPos>)
    requires Contents(m.held, model) && Encodes(payloads, data) && ColdFits(entries, m, model, flushed)
      && Detached(data, m)
    ensures Matches(ApplyBatch(Payloads(entries), payloads), model)
    ensures ApplyBatch(Payloads(entries), payloads).Keys == entries.Keys + data.Keys
  {
    var cold := Payloads(entries);
    forall p
      ensures p in ApplyBatch(cold, payloads) <==> p in cold || p in data
      ensures p in ApplyBatch(cold, payloads) ==> p in model && ApplyBatch(cold, payloads)[p].layer == model[p]
    {
      BatchDecides(cold, cold, payloads, p);
    }
  }

  /** After the evictions are written, whatever left the cold cache is in the
      store with the same payload and nothing else there has changed. */
  ghost predicate Landed(
    entries: map<SubChunkPos, ColdEntry>, whole: map<SubChunkPos, Payload>, store: map<SubChunkPos, Payload>,
    store': map<SubChunkPos, Payload>)
  {
    && (forall p | p in entries :: p in whole && entries[p].payload == whole[p])
    && (forall p | p in whole && p !in entries :: p in store' && store'[p] == whole[p])
    && (forall p | p !in whole || p in entries ::
      (p in store' <==> p in store) && (p in store ==> store'[p] == store[p]))
  }

  lemma EvictedSaved(
    entries: map<SubChunkPos, ColdEntry>, evicted: seq<Encoded>, whole: map<SubChunkPos, Payload>,
    store: map<SubChunkPos, Payload>)
    requires Split(Payloads(entries), evicted, whole)
    ensures Landed(entries, whole, store, ApplyBatch(store, evicted))
  {
    var kept := Payloads(entries);
    forall p
      ensures p in kept ==> p in whole && kept[p] == whole[p]
      ensures p in whole && p !in kept ==> p in ApplyBatch(store, evicted) && ApplyBatch(store, evicted)[p] == whole[p]
      ensures p !in whole || p in kept ==>
        (p in ApplyBatch(store, evicted) <==> p in store) && (p in store ==> ApplyBatch(store, evicted)[p] == store[p])
    {
      BatchDecides(kept, store, evicted, p);
      BatchDecides(store, store, evicted, p);
    }
    assert forall p :: p in entries <==> p in kept;
  }

  /** The saved payloads agree with the model wherever they ended up. */
  lemma PayloadsSettled(
    chunkObjects: set<CachedChunk>, subObjects: set<SubChunkData>, cache: map<ChunkPos, CachedChunk>,
    pend: seq<PendingSave>, m: Map, model: Layers, flushed: set<SubChunkPos>, payloads: seq<Encoded>,
    entries: map<SubChunkPos, ColdEntry>, entries': map<SubChunkPos, ColdEntry>, evicted: seq<Encoded>,
    store: map<SubChunkPos, Payload>, store0: map<SubChunkPos, Payload>)
    requires Owned(chunkObjects, subObjects, cache, m, model) && Contents(m.held, model)
    requires pend != [] && QueueOk(cache.Keys, pend, m) && Encodes(payloads, pend[0].data)
    requires ColdFits(entries, m, model, flushed) && StoreFits(store, store0, m, model, flushed)
    requires Split(Payloads(entries'), evicted, ApplyBatch(Payloads(entries), payloads))
    ensures var data := pend[0].data;
      var m' := Settled(m, data, entries'.Keys);
      && ColdFits(entries', m', model, flushed + data.Keys)
      && StoreFits(ApplyBatch(store, evicted), store0, m', model, flushed + data.Keys)
  {
    var data := pend[0].data;
    assert Detached(data, m);
    hide Detached, Encodes, Split, ApplyBatch, Contents, StoreFits, Settled, Owned, QueueOk, ColdFits, Landed, Matches,
      Payloads;
    var whole := ApplyBatch(Payloads(entries), payloads);
    SavedMatches(m, data, model, payloads, entries, flushed);
    EvictedSaved(entries', evicted, whole, store);
    ColdSettled(m, data, model, flushed, entries, entries', whole, store, ApplyBatch(store, evicted));
    StoreSettled(m, data, model, flushed, entries, entries', whole, store, ApplyBatch(store, evicted), store0);
  }

  /** A queued batch is new to the cold cache. */
  lemma BatchIsNew(
    m: Map, payloads: seq<Encoded>, entries: map<SubChunkPos, ColdEntry>,
    model: Layers, flushed: set<SubChunkPos>, pend: seq<PendingSave>, chunks: set<ChunkPos>)
    requires pend != [] && Encodes(payloads, pend[0].data) && ColdFits(entries, m, model, flushed)
      && QueueOk(chunks, pend, m)
    ensures NewTo(Payloads(entries), payloads)
  {
    forall i | 0 <= i < |payloads|
      ensures payloads[i].pos !in Payloads(entries)
    {
      assert payloads[i] in payloads;
      assert m.Is(payloads[i].pos, InPending);
    }
  }

  /** All that `complete_next_pending_save` keeps, in terms of the values before
      and after. */
  lemma SettleAll(
    chunkObjects: set<CachedChunk>, subObjects: set<SubChunkData>, cache: map<ChunkPos, CachedChunk>, m: Map,
    model: Layers, pend: seq<PendingSave>, payloads: seq<Encoded>, entries: map<SubChunkPos, ColdEntry>,
    entries': map<SubChunkPos, ColdEntry>, evicted: seq<Encoded>, store: map<SubChunkPos, Payload>,
    store0: map<SubChunkPos, Payload>, flushed: set<SubChunkPos>, chunkSlot: ChunkPos -> Slot,
    subSlot: SubChunkPos -> Slot, chunkTable: seq<ChunkEntry>, subTable: seq<SubChunkEntry>)
    requires pend != [] && Encodes(payloads, pend[0].data)
    requires Split(Payloads(entries'), evicted, ApplyBatch(Payloads(entries), payloads))
    requires QueueOk(cache.Keys, pend, m) && Owned(chunkObjects, subObjects, cache, m, model) && Contents(m.held, model)
    requires ColdFits(entries, m, model, flushed) && StoreFits(store, store0, m, model, flushed)
    requires ChunksOk(cache, m) && TablesOk(chunkSlot, subSlot, cache, m, chunkTable, subTable)
    ensures var m', flushed' := Settled(m, pend[0].data, entries'.Keys), flushed + pend[0].data.Keys;
      && QueueOk(cache.Keys, pend[1..], m') && Owned(chunkObjects, subObjects, cache, m', model)
      && Contents(m'.held, model)
      && ColdFits(entries', m', model, flushed') && StoreFits(ApplyBatch(store, evicted), store0, m', model, flushed')
      && ChunksOk(cache, m') && TablesOk(chunkSlot, subSlot, cache, m', chunkTable, subTable)
  {
    hide Owned, Contents, ChunksOk, TablesOk, ColdFits, StoreFits, Settled, Split, ApplyBatch, Payloads, Encodes,
      QueueOk, SameLive;
    PayloadsSettled(chunkObjects, subObjects, cache, pend, m, model, flushed, payloads, entries, entries', evicted,
      store, store0);
    LevelsSettled(chunkObjects, subObjects, cache, m, model, pend, entries'.Keys);
    LiveDecides(cache, m, Settled(m, pend[0].data, entries'.Keys), chunkSlot, subSlot, chunkTable, subTable);
  }

  lemma ColdSettled(
    m: Map, data: map<SubChunkPos, SubChunkData>, model: Layers, flushed: set<SubChunkPos>,
    entries: map<SubChunkPos, ColdEntry>, entries': map<SubChunkPos, ColdEntry>, whole: map<SubChunkPos, Payload>,
    store: map<SubChunkPos, Payload>, store': map<SubChunkPos, Payload>)
    requires Detached(data, m) && Landed(entries', whole, store, store')
    requires ColdFits(entries, m, model, flushed) && Matches(whole, model) && whole.Keys == entries.Keys + data.Keys
    ensures ColdFits(entries', Settled(m, data, entries'.Keys), model, flushed + data.Keys)
  {
  }

  lemma StoreSettled(
    m: Map, data: map<SubChunkPos, SubChunkData>, model: Layers, flushed: set<SubChunkPos>,
    entries: map<SubChunkPos, ColdEntry>, entries': map<SubChunkPos, ColdEntry>, whole: map<SubChunkPos, Payload>,
    store: map<SubChunkPos, Payload>, store': map<SubChunkPos, Payload>, store0: map<SubChunkPos, Payload>)
    requires Detached(data, m) && Landed(entries', whole, store, store')
    requires ColdFits(entries, m, model, flushed) && Matches(whole, model) && whole.Keys == entries.Keys + data.Keys
    requires StoreFits(store, store0, m, model, flushed)
    ensures StoreFits(store', store0, Settled(m, data, entries'.Keys), model, flushed + data.Keys)
  {
    var m' := Settled(m, data, entries'.Keys);
    forall p | m'.Is(p, InStore)
      ensures p in flushed + data.Keys && p in store' && p in model && store'[p].layer == model[p]
    {
      assert p in whole || m.Is(p, InStore);
    }
  }

  /** A chunk's subchunks under their full positions. */
  function Positioned(c: ChunkPos, subs: map<int, SubChunkData>): (positioned: map<SubChunkPos, SubChunkData>)
    ensures forall p :: p in positioned <==> ChunkOf(p) == c && p.y in subs
    ensures forall p | p in positioned :: positioned[p] == subs[p.y]
  {
    var all := set y | y in subs :: SubChunkPos(c.x, y, c.z);
    map p | p in all :: subs[p.y]
  }

  function AirLayer(air: RuntimeId): (layer: seq<RuntimeId>)
    ensures |layer| == 4096
  {
    seq(4096, _ => air)
  }

  function SetCell(layer: seq<RuntimeId>, index: nat, id: RuntimeId): (r: seq<RuntimeId>)
    requires index < |layer|
    ensures |r| == |layer| && r[index] == id && forall i | 0 <= i < |layer| && i != index :: r[i] == layer[i]
  {
    layer[index := id]
  }

  /** The cells of a run, one after another; air leaves its cell alone. */
  ghost function WithRun(layer: seq<RuntimeId>, destination: nat, ids: seq<RuntimeId>,
      air: RuntimeId): (r: seq<RuntimeId>)
    requires destination + |ids| <= |layer|
    ensures |r| == |layer|
  {
    if ids == [] then layer
    else
      var init := WithRun(layer, destination, ids[..|ids| - 1], air);
      var id := ids[|ids| - 1];
      if id == air then init else SetCell(init, destination + |ids| - 1, id)
  }

  method RunOnto(layer: seq<RuntimeId>, destination: nat, ids: seq<RuntimeId>, containsAir: bool, air: RuntimeId)
    returns (r: seq<RuntimeId>)
    requires destination + |ids| <= |layer| && (!containsAir ==> air !in ids)
    ensures r == WithRun(layer, destination, ids, air)
  {
    if !containsAir {
      RunWithoutAir(layer, destination, ids, air);
      return layer[..destination] + ids + layer[destination + |ids|..];
    }
    r := layer;
    for index := 0 to |ids|
      invariant r == WithRun(layer, destination, ids[..index], air)
    {
      assert ids[..index + 1][..index] == ids[..index];
      if ids[index] != air {
        r := SetCell(r, destination + index, ids[index]);
      }
    }
    assert ids[..|ids|] == ids;
  }

  lemma {:induction false} RunWithoutAir(layer: seq<RuntimeId>, destination: nat, ids: seq<RuntimeId>, air: RuntimeId)
    requires destination + |ids| <= |layer| && air !in ids
    ensures WithRun(layer, destination, ids, air) == layer[..destination] + ids + layer[destination + |ids|..]
  {
    if ids != [] {
      var init, last := ids[..|ids| - 1], ids[|ids| - 1];
      RunWithoutAir(layer, destination, init, air);
      assert ids == init + [last];
    }
  }

  lemma LayerWritten(
    chunkObjects: set<CachedChunk>, subObjects: set<SubChunkData>, cache: map<ChunkPos, CachedChunk>, m: Map,
    model: Layers, flushed: set<SubChunkPos>, entries: map<SubChunkPos, ColdEntry>, store: map<SubChunkPos, Payload>,
    store0: map<SubChunkPos, Payload>, p: SubChunkPos, layer: seq<RuntimeId>)
    requires Owned(chunkObjects, subObjects, cache, m, model) && ColdFits(entries, m, model, flushed)
    requires StoreFits(store, store0, m, model, flushed) && m.Is(p, InCache) && |layer| == 4096
    ensures var model' := model[p := layer];
      && Owned(chunkObjects, subObjects, cache, m, model') && ColdFits(entries, m, model', flushed)
      && StoreFits(store, store0, m, model', flushed)
  {
  }

  lemma ContentsApart(m: Map, model: Layers, p: SubChunkPos)
    requires Contents(m.held, model) && p in m.held
    ensures Contents(m.held - {p}, model) && m.held[p] !in (m.held - {p}).Values && m.held[p].home == p
    ensures p in model && m.held[p].layer0 == model[p]
  {
  }

  lemma ContentsElsewhere(held: map<SubChunkPos, SubChunkData>, model: Layers, p: SubChunkPos, layer: seq<RuntimeId>)
    requires Contents(held, model) && p !in held
    ensures Contents(held, model[p := layer])
  {
  }

  lemma ContentsTogether(m: Map, model: Layers, p: SubChunkPos)
    requires p in m.held && p in model && m.held[p].home == p && m.held[p].layer0 == model[p]
    requires Contents(m.held - {p}, model)
    ensures Contents(m.held, model)
  {
  }

  /** Where a subchunk that is not in memory is found. */
  lemma SavedLayer(
    m: Map, model: Layers, flushed: set<SubChunkPos>, entries: map<SubChunkPos, ColdEntry>,
    store: map<SubChunkPos, Payload>, store0: map<SubChunkPos, Payload>, p: SubChunkPos, chunkObjects: set<CachedChunk>,
    subObjects: set<SubChunkData>, cache: map<ChunkPos, CachedChunk>)
    requires Owned(chunkObjects, subObjects, cache, m, model)
    requires ColdFits(entries, m, model, flushed) && StoreFits(store, store0, m, model, flushed)
    requires !m.Is(p, InCache) && !m.Is(p, InPending)
    ensures p in flushed <==> p in model
    ensures p in entries ==> p in flushed && entries[p].payload.layer == model[p]
    ensures p in flushed && p !in entries ==> p in store && store[p].layer == model[p]
  {
    assert p in m.level ==> m.Is(p, InCold) || m.Is(p, InStore);
  }

  /** Every copy in memory, in the queue or in the cold cache is current. */
  lemma CopiesAgree(
    chunkObjects: set<CachedChunk>, subObjects: set<SubChunkData>, cache: map<ChunkPos, CachedChunk>, m: Map,
    model: Layers, pend: seq<PendingSave>, entries: map<SubChunkPos, ColdEntry>, flushed: set<SubChunkPos>,
    p: SubChunkPos)
    requires Owned(chunkObjects, subObjects, cache, m, model) && Contents(m.held, model)
    requires ChunksOk(cache, m) && QueueOk(cache.Keys, pend, m) && ColdFits(entries, m, model, flushed)
    ensures ChunkOf(p) in cache && p.y in cache[ChunkOf(p)].subChunks ==>
      p in model && cache[ChunkOf(p)].subChunks[p.y].layer0 == model[p]
    ensures forall i | 0 <= i < |pend| && p in pend[i].data :: p in model && pend[i].data[p].layer0 == model[p]
    ensures p in entries ==> p in model && entries[p].payload.layer == model[p]
  {
    assert p == SubChunkPos(p.x, p.y, p.z);
    if ChunkOf(p) in cache {
      assert ChunkOk(ChunkOf(p), cache[ChunkOf(p)], m);
    }
  }

  lemma OnlyCopySaved(
    chunkObjects: set<CachedChunk>, subObjects: set<SubChunkData>, cache: map<ChunkPos, CachedChunk>, m: Map,
    model: Layers, pend: seq<PendingSave>, flushed: set<SubChunkPos>, entries: map<SubChunkPos, ColdEntry>,
    store: map<SubChunkPos, Payload>, store0: map<SubChunkPos, Payload>, p: SubChunkPos)
    requires Owned(chunkObjects, subObjects, cache, m, model) && ChunksOk(cache, m) && QueueOk(cache.Keys, pend, m)
    requires ColdFits(entries, m, model, flushed) && StoreFits(store, store0, m, model, flushed)
    ensures !(ChunkOf(p) in cache && p.y in cache[ChunkOf(p)].subChunks) && !Awaiting(pend, p) && p !in entries ==>
      if p in flushed then p in model && p in store && store[p].layer == model[p] else p !in model
  {
    assert p == SubChunkPos(p.x, p.y, p.z);
    if !(ChunkOf(p) in cache && p.y in cache[ChunkOf(p)].subChunks) && !Awaiting(pend, p) && p !in entries {
      if ChunkOf(p) in cache {
        assert ChunkOk(ChunkOf(p), cache[ChunkOf(p)], m);
      }
      assert !m.Is(p, InCache) && !m.Is(p, InPending) && !m.Is(p, InCold);
      assert p in m.level ==> m.Is(p, InStore);
    }
  }

  /** What the store holds after a conversion. */
  ghost predicate Landing(store: map<SubChunkPos, Payload>, store0: map<SubChunkPos, Payload>, model: Layers) {
    && (forall p | p in model :: p in store && store[p].layer == model[p])
    && (forall p | p !in model :: (p in store <==> p in store0) && (p in store ==> store[p] == store0[p]))
  }

  lemma LandedNothing(entries: map<SubChunkPos, ColdEntry>, store: map<SubChunkPos, Payload>)
    ensures Landed(entries, Payloads(entries), store, store)
  {
  }

  lemma LandedTwice(
    entries: map<SubChunkPos, ColdEntry>, entries': map<SubChunkPos, ColdEntry>, whole: map<SubChunkPos, Payload>,
    store: map<SubChunkPos, Payload>, store': map<SubChunkPos, Payload>, store'': map<SubChunkPos, Payload>)
    requires Landed(entries, whole, store, store') && Landed(entries', Payloads(entries), store', store'')
    ensures Landed(entries', whole, store, store'')
  {
  }

  lemma AllLanded(
    chunkObjects: set<CachedChunk>, subObjects: set<SubChunkData>, cache: map<ChunkPos, CachedChunk>, m: Map,
    model: Layers, pend: seq<PendingSave>, flushed: set<SubChunkPos>, entries: map<SubChunkPos, ColdEntry>,
    entries': map<SubChunkPos, ColdEntry>, lru: seq<SubChunkPos>, bytes: nat, store: map<SubChunkPos, Payload>,
    store': map<SubChunkPos, Payload>, store0: map<SubChunkPos, Payload>)
    requires Owned(chunkObjects, subObjects, cache, m, model) && QueueOk(cache.Keys, pend, m) && cache == map[]
      && pend == []
    requires ColdFits(entries, m, model, flushed) && StoreFits(store, store0, m, model, flushed)
    requires Consistent(lru, entries', bytes) && lru == [] && Landed(entries', Payloads(entries), store, store')
    ensures entries' == map[] && Landing(store', store0, model)
  {
    assert forall p :: p in entries' <==> p in lru;
    forall p | p in model
      ensures m.Is(p, InCold) || m.Is(p, InStore)
    {
      assert m.Is(p, InPending) ==> Awaiting(pend, p);
      assert m.Is(p, InCache) ==> ChunkOf(p) in cache;
    }
  }

  lemma ChunkInstalled(
    cache: map<ChunkPos, CachedChunk>, c: ChunkPos, subs: map<int, SubChunkData>, layers: seq<SubChunkData?>, m: Map,
    p: SubChunkPos, sub: SubChunkData)
    requires ChunkFits(c, subs, layers, m) && ChunksOk(cache - {c}, m)
    requires ChunkOf(p) == c && InBuildRange(p)
    ensures |layers| == CACHED_SUB_Y_COUNT
    ensures ChunkFits(c, subs[p.y := sub], layers[p.y - MIN_CACHED_SUB_Y := sub], Live(m, p, sub))
    ensures ChunksOk(cache - {c}, Live(m, p, sub))
  {
    forall d | d in cache - {c}
      ensures ChunkOk(d, cache[d], Live(m, p, sub))
    {
      assert ChunkOk(d, (cache - {c})[d], m);
    }
  }

  lemma LayerInstalled(
    chunkObjects: set<CachedChunk>, subObjects: set<SubChunkData>, cache: map<ChunkPos, CachedChunk>, m: Map,
    model: Layers, pend: seq<PendingSave>, p: SubChunkPos, sub: SubChunkData, air: RuntimeId,
    entries: map<SubChunkPos, ColdEntry>, store: map<SubChunkPos, Payload>, store0: map<SubChunkPos, Payload>,
    flushed: set<SubChunkPos>, chunkSlot: ChunkPos -> Slot, subSlot: SubChunkPos -> Slot, chunkTable: seq<ChunkEntry>,
    subTable: seq<SubChunkEntry>)
    requires Owned(chunkObjects, subObjects, cache, m, model) && Contents(m.held, model) && QueueOk(cache.Keys, pend, m)
    requires ColdFits(entries, m, model, flushed) && StoreFits(store, store0, m, model, flushed)
    requires TablesOk(chunkSlot, subSlot, cache, m, chunkTable, subTable)
    requires !m.Is(p, InCache) && !m.Is(p, InPending) && ChunkOf(p) in cache
    requires sub.home == p && sub.layer0 == Touched(model, p, air)[p]
    ensures var m', model' := Live(m, p, sub), Touched(model, p, air);
      && Owned(chunkObjects, subObjects + {sub}, cache, m', model') && Contents(m'.held, model')
      && QueueOk(cache.Keys, pend, m')
      && ColdFits(entries - {p}, m', model', flushed) && StoreFits(store, store0, m', model', flushed)
      && TablesOk(chunkSlot, subSlot, cache, m', chunkTable, subTable)
      && m'.Names(p, sub)
  {
    assert Live(m, p, sub).Names(p, sub);
    hide Live, Touched, Owned, Contents, QueueOk, ColdFits, StoreFits, TablesOk;
    MemoryInstalled(chunkObjects, subObjects, cache, m, model, pend, p, sub, air);
    SavedInstalled(m, model, p, sub, air, entries, store, store0, flushed);
    TablesInstalled(chunkSlot, subSlot, cache, m, chunkTable, subTable, p, sub);
  }

  lemma MemoryInstalled(
    chunkObjects: set<CachedChunk>, subObjects: set<SubChunkData>, cache: map<ChunkPos, CachedChunk>, m: Map,
    model: Layers, pend: seq<PendingSave>, p: SubChunkPos, sub: SubChunkData, air: RuntimeId)
    requires Owned(chunkObjects, subObjects, cache, m, model) && Contents(m.held, model) && QueueOk(cache.Keys, pend, m)
    requires !m.Is(p, InCache) && !m.Is(p, InPending) && ChunkOf(p) in cache
    requires sub.home == p && sub.layer0 == Touched(model, p, air)[p]
    ensures var m', model' := Live(m, p, sub), Touched(model, p, air);
      && Owned(chunkObjects, subObjects + {sub}, cache, m', model') && Contents(m'.held, model')
      && QueueOk(cache.Keys, pend, m')
  {
  }

  lemma SavedInstalled(
    m: Map, model: Layers, p: SubChunkPos, sub: SubChunkData, air: RuntimeId, entries: map<SubChunkPos, ColdEntry>,
    store: map<SubChunkPos, Payload>, store0: map<SubChunkPos, Payload>, flushed: set<SubChunkPos>)
    requires ColdFits(entries, m, model, flushed) && StoreFits(store, store0, m, model, flushed)
    ensures var m', model' := Live(m, p, sub), Touched(model, p, air);
      && ColdFits(entries - {p}, m', model', flushed) && StoreFits(store, store0, m', model', flushed)
  {
  }

  lemma TablesInstalled(
    chunkSlot: ChunkPos -> Slot, subSlot: SubChunkPos -> Slot, cache: map<ChunkPos, CachedChunk>, m: Map,
    chunkTable: seq<ChunkEntry>, subTable: seq<SubChunkEntry>, p: SubChunkPos, sub: SubChunkData)
    requires TablesOk(chunkSlot, subSlot, cache, m, chunkTable, subTable) && !m.Is(p, InCache)
    ensures TablesOk(chunkSlot, subSlot, cache, Live(m, p, sub), chunkTable, subTable)
  {
  }

  ghost function Live(m: Map, p: SubChunkPos, sub: SubChunkData): Map {
    Map(m.level[p := InCache], m.held[p := sub])
  }

  predicate InBuildRange(p: SubChunkPos) {
    0 <= p.y - MIN_CACHED_SUB_Y < CACHED_SUB_Y_COUNT
  }

  /** The model once subchunk `p` has been touched: a new one is all air. */
  ghost function Touched(model: Layers, p: SubChunkPos, air: RuntimeId): Layers {
    if p in model then model else model[p := AirLayer(air)]
  }

  lemma SubEntryIsLive(
    chunkObjects: set<CachedChunk>, subObjects: set<SubChunkData>, chunkSlot: ChunkPos -> Slot,
    subSlot: SubChunkPos -> Slot, cache: map<ChunkPos, CachedChunk>, m: Map, model: Layers, chunkTable: seq<ChunkEntry>,
    subTable: seq<SubChunkEntry>, p: SubChunkPos)
    requires Owned(chunkObjects, subObjects, cache, m, model)
    requires TablesOk(chunkSlot, subSlot, cache, m, chunkTable, subTable)
    requires var e := subTable[subSlot(p)];
      e.owner != null && e.subchunk != null && e.position == p
    ensures var e := subTable[subSlot(p)];
      m.Names(p, e.subchunk) && e.subchunk in subObjects && p in model && e.owner in chunkObjects
  {
  }

  lemma ChunkHolds(
    chunkObjects: set<CachedChunk>, subObjects: set<SubChunkData>, cache: map<ChunkPos, CachedChunk>, m: Map,
    model: Layers, p: SubChunkPos)
    requires Owned(chunkObjects, subObjects, cache, m, model) && ChunksOk(cache, m)
    requires ChunkOf(p) in cache && InBuildRange(p)
    ensures var chunk := cache[ChunkOf(p)];
      && |chunk.layers| == CACHED_SUB_Y_COUNT
      && (p.y in chunk.subChunks ==>
        m.Names(p, chunk.subChunks[p.y]) && chunk.subChunks[p.y] in subObjects && p in model)
      && var layer := chunk.layers[p.y - MIN_CACHED_SUB_Y];
        layer != null ==> m.Names(p, layer) && layer in subObjects && p in model
  {
    assert ChunkOk(ChunkOf(p), cache[ChunkOf(p)], m);
  }

  /** One chunk's facts, and those of the others, which do not share its object. */
  lemma ChunksApart(cache: map<ChunkPos, CachedChunk>, m: Map, c: ChunkPos)
    requires ChunksOk(cache, m) && c in cache
    ensures ChunksOk(cache - {c}, m) && cache[c].home == c && ChunkFits(c, cache[c].subChunks, cache[c].layers, m)
    ensures cache[c] !in (cache - {c}).Values
  {
    assert ChunkOk(c, cache[c], m);
    forall d | d in cache && d != c
      ensures cache[d] != cache[c]
    {
      assert ChunkOk(d, cache[d], m);
    }
  }

  lemma ChunksTogether(cache: map<ChunkPos, CachedChunk>, m: Map, c: ChunkPos)
    requires c in cache && ChunksOk(cache - {c}, m)
    requires cache[c].home == c && ChunkFits(c, cache[c].subChunks, cache[c].layers, m)
    ensures ChunksOk(cache, m)
  {
    forall d | d in cache
      ensures ChunkOk(d, cache[d], m)
    {
      if d != c {
        assert d in cache - {c};
      }
    }
  }

  lemma LayerPointed(
    c: ChunkPos, subs: map<int, SubChunkData>, layers: seq<SubChunkData?>, m: Map, p: SubChunkPos, sub: SubChunkData)
    requires ChunkFits(c, subs, layers, m) && ChunkOf(p) == c && InBuildRange(p) && m.Names(p, sub)
    ensures |layers| == CACHED_SUB_Y_COUNT && ChunkFits(c, subs, layers[p.y - MIN_CACHED_SUB_Y := sub], m)
  {
  }

  lemma NotInMemory(cache: map<ChunkPos, CachedChunk>, m: Map, pend: seq<PendingSave>, p: SubChunkPos)
    requires QueueOk(cache.Keys, pend, m) && ChunkOf(p) in cache && ChunksOk(cache, m)
      && p.y !in cache[ChunkOf(p)].subChunks
    ensures !m.Is(p, InCache) && !m.Is(p, InPending)
  {
    assert ChunkOk(ChunkOf(p), cache[ChunkOf(p)], m);
    assert p == SubChunkPos(p.x, p.y, p.z);
  }

  lemma QueuedOnce(chunks: set<ChunkPos>, pend: seq<PendingSave>, m: Map, i: nat, c: ChunkPos)
    requires QueueOk(chunks, pend, m) && i < |pend| && c in pend[i].chunks
    ensures !Queued(pend[i + 1..], c)
  {
    var rest := pend[i + 1..];
    forall j | 0 <= j < |rest|
      ensures c !in rest[j].chunks
    {
      assert pend[i].chunks !! pend[i + 1 + j].chunks;
    }
  }

  lemma CachedOwned(
    chunkObjects: set<CachedChunk>, subObjects: set<SubChunkData>, cache: map<ChunkPos, CachedChunk>, m: Map,
    model: Layers)
    requires Owned(chunkObjects, subObjects, cache, m, model)
    ensures forall c | c in cache :: cache[c] in chunkObjects
  {
  }

  lemma EntryIsLive(
    chunkSlot: ChunkPos -> Slot, subSlot: SubChunkPos -> Slot, cache: map<ChunkPos, CachedChunk>, m: Map,
    chunkTable: seq<ChunkEntry>, subTable: seq<SubChunkEntry>, c: ChunkPos)
    requires TablesOk(chunkSlot, subSlot, cache, m, chunkTable, subTable)
    requires chunkTable[chunkSlot(c)].chunk != null && chunkTable[chunkSlot(c)].position == c
    ensures c in cache && cache[c] == chunkTable[chunkSlot(c)].chunk
  {
  }

  lemma ChunkAdded(
    chunkObjects: set<CachedChunk>, subObjects: set<SubChunkData>, cache: map<ChunkPos, CachedChunk>, m: Map,
    model: Layers, pend: seq<PendingSave>, c: ChunkPos, chunk: CachedChunk, chunkSlot: ChunkPos -> Slot,
    subSlot: SubChunkPos -> Slot, chunkTable: seq<ChunkEntry>, subTable: seq<SubChunkEntry>)
    requires Owned(chunkObjects, subObjects, cache, m, model) && ChunksOk(cache, m) && QueueOk(cache.Keys, pend, m)
    requires TablesOk(chunkSlot, subSlot, cache, m, chunkTable, subTable)
    requires c !in cache && !Queued(pend, c) && chunk.home == c
    requires chunk.subChunks == map[] && chunk.layers == seq(CACHED_SUB_Y_COUNT, _ => null)
    ensures Owned(chunkObjects + {chunk}, subObjects, cache[c := chunk], m, model) && ChunksOk(cache[c := chunk], m)
    ensures QueueOk(cache[c := chunk].Keys, pend, m)
    ensures TablesOk(chunkSlot, subSlot, cache[c := chunk], m, chunkTable, subTable)
  {
    assert cache[c := chunk].Keys == cache.Keys + {c};
    assert forall y :: !m.Is(SubChunkPos(c.x, y, c.z), InCache) by {
      assert forall y :: ChunkOf(SubChunkPos(c.x, y, c.z)) == c;
    }
  }

  ghost function Members(positions: seq<ChunkPos>): set<ChunkPos> {
    set c | c in positions
  }

  ghost predicate Queued(pend: seq<PendingSave>, c: ChunkPos) {
    exists i :: 0 <= i < |pend| && c in pend[i].chunks
  }

  lemma QueuedTail(pend: seq<PendingSave>)
    requires pend != []
    ensures forall c | Queued(pend[1..], c) :: Queued(pend, c)
  {
    forall c | Queued(pend[1..], c)
      ensures Queued(pend, c)
    {
      var i :| 0 <= i < |pend[1..]| && c in pend[1..][i].chunks;
      assert c in pend[i + 1].chunks;
    }
  }

  lemma QueuedLast(pend: seq<PendingSave>, batch: PendingSave)
    ensures forall c | Queued(pend + [batch], c) :: Queued(pend, c) || c in batch.chunks
  {
    forall c | Queued(pend + [batch], c)
      ensures Queued(pend, c) || c in batch.chunks
    {
      var i :| 0 <= i < |pend + [batch]| && c in (pend + [batch])[i].chunks;
      assert i < |pend| ==> c in pend[i].chunks;
    }
  }

  lemma QueueGrows(chunks: set<ChunkPos>, pend: seq<PendingSave>, m: Map)
    requires QueueOk(chunks, pend, m)
    ensures QueueOk(chunks, pend + [PendingSave({}, map[])], m)
  {
    var q := pend + [PendingSave({}, map[])];
    forall p | Awaiting(pend, p)
      ensures Awaiting(q, p)
    {
      var i :| 0 <= i < |pend| && p in pend[i].data;
      assert p in q[i].data;
    }
  }

  lemma QueueShrinks(chunks: set<ChunkPos>, pend: seq<PendingSave>, data: map<SubChunkPos, SubChunkData>, m: Map)
    requires QueueOk(chunks, pend + [PendingSave({}, data)], m)
    ensures QueueOk(chunks, pend, m)
  {
    var q := pend + [PendingSave({}, data)];
    assert q[|pend|].data == data && forall p | p in data :: ChunkOf(p) in q[|pend|].chunks;
    forall i | 0 <= i < |pend|
      ensures pend[i] == q[i]
    {
    }
    forall p | Awaiting(q, p)
      ensures Awaiting(pend, p)
    {
      var i :| 0 <= i < |q| && p in q[i].data;
      assert p in pend[i].data;
    }
  }

  /** Iteration over an unordered map takes its keys in no particular order. */
  method AnyKey<K(==)>(keys: set<K>) returns (key: K)
    requires keys != {}
    ensures key in keys
  {
    key :| key in keys;
  }

  /** What `invalidate_chunk_lookaside` leaves once the subchunks `ys` are done. */
  ghost predicate Invalidated(
    position: ChunkPos, chunk: CachedChunk, ys: set<int>, chunkSlot: ChunkPos -> Slot, subSlot: SubChunkPos -> Slot,
    chunks: seq<ChunkEntry>, subs: seq<SubChunkEntry>, chunks': seq<ChunkEntry>, subs': seq<SubChunkEntry>)
  {
    && |chunks| == |chunks'| == |subs| == |subs'| == LOOKASIDE_SIZE
    && (forall k | 0 <= k < LOOKASIDE_SIZE ::
          || chunks'[k] == chunks[k]
          || (chunks[k].chunk == chunk && chunks'[k] == chunks[k].(chunk := null)))
    && chunks'[chunkSlot(position)].chunk != chunk
    && (forall k | 0 <= k < LOOKASIDE_SIZE ::
          || subs'[k] == subs[k]
          || (subs[k].owner == chunk && subs'[k] == SubChunkEntry(subs[k].position, null, null)))
    && (forall y | y in ys :: subs'[subSlot(SubChunkPos(position.x, y, position.z))].owner != chunk)
  }

  lemma InvalidateOne(
    position: ChunkPos, chunk: CachedChunk, ys: set<int>, y: int, chunkSlot: ChunkPos -> Slot,
    subSlot: SubChunkPos -> Slot, chunks: seq<ChunkEntry>, subs: seq<SubChunkEntry>, chunks': seq<ChunkEntry>,
    subs': seq<SubChunkEntry>, subs'': seq<SubChunkEntry>)
    requires Invalidated(position, chunk, ys, chunkSlot, subSlot, chunks, subs, chunks', subs')
    requires var k := subSlot(SubChunkPos(position.x, y, position.z));
      subs'' == if subs'[k].owner == chunk then subs'[k := SubChunkEntry(subs'[k].position, null, null)] else subs'
    ensures Invalidated(position, chunk, ys + {y}, chunkSlot, subSlot, chunks, subs, chunks', subs'')
  {
  }

  /** The levels before the first placement. */
  lemma NothingTouched(
    chunkSlot: ChunkPos -> Slot, subSlot: SubChunkPos -> Slot, store: map<SubChunkPos, Payload>,
    chunkTable: seq<ChunkEntry>, subTable: seq<SubChunkEntry>)
    requires |chunkTable| == |subTable| == LOOKASIDE_SIZE
    requires forall k | 0 <= k < LOOKASIDE_SIZE :: chunkTable[k].chunk == null && subTable[k].owner == null
    ensures var m := Map(map[], map[]);
      && Owned({}, {}, map[], m, map[]) && Contents(m.held, map[]) && ChunksOk(map[], m)
      && ColdFits(map[], m, map[], {}) && StoreFits(store, store, m, map[], {})
      && QueueOk({}, [], m) && TablesOk(chunkSlot, subSlot, map[], m, chunkTable, subTable)
  {
  }
}
