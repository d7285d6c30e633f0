/** The write-back cache of `BdxStructure::write_to_world`: live chunks under an
    approximate LRU, direct-mapped lookaside tables of pointers into them, a FIFO
    of asynchronous saves, the cold payload LRU and the store. */
module WorldCaches {
  import opened Coordinates
  import opened ColdPayloads
  import opened CacheLevels

  const PAYLOAD_WRITE_BATCH := 1024

  class WorldCache {
    const air: RuntimeId
    const chunkLimit: nat
    const workers: nat
    const flushBatch: nat
    const cold: ColdCache
    const chunkSlot: ChunkPos -> Slot
    const subSlot: SubChunkPos -> Slot
    ghost const store0: map<SubChunkPos, Payload>

    var cache: map<ChunkPos, CachedChunk>
    var flushed: set<SubChunkPos>
    var touchClock: nat
    var chunkLookaside: seq<ChunkEntry>
    var subLookaside: seq<SubChunkEntry>
    var pending: seq<PendingSave>
    var cachedSub: SubChunkData?
    var cachedPosition: SubChunkPos
    var store: map<SubChunkPos, Payload>
    var storeFailed: bool  // an encoding, a read or a write failed

    ghost var chunkObjects: set<CachedChunk>
    ghost var subObjects: set<SubChunkData>
    ghost var model: Layers  // what every touched subchunk should contain
    ghost var where: Map

    ghost predicate Shape()
      reads this
    {
      && |chunkLookaside| == |subLookaside| == LOOKASIDE_SIZE
      && chunkLimit >= 1 && workers >= 1 && flushBatch >= 1 && !storeFailed
    }

    /** Everything but the pointer `cachedSub` and the limits, with the save
        queue named explicitly: a batch being assembled counts as queued. */
    ghost predicate Core(pend: seq<PendingSave>)
      reads this, cold, chunkObjects, subObjects
    {
      cold.Valid() && CoreBut(pend, cold.entries)
    }

    ghost predicate CoreBut(pend: seq<PendingSave>, entries: map<SubChunkPos, ColdEntry>)
      reads this, chunkObjects, subObjects
    {
      && Shape()
      && Owned(chunkObjects, subObjects, cache, where, model)
      && Contents(where.held, model) && ChunksOk(cache, where)
      && ColdFits(entries, where, model, flushed)
      && StoreFits(store, store0, where, model, flushed)
      && QueueOk(cache.Keys, pend, where)
      && TablesOk(chunkSlot, subSlot, cache, where, chunkLookaside, subLookaside)
    }

    ghost predicate Valid()
      reads this, cold, chunkObjects, subObjects
    {
      && Core(pending)
      && |cache| <= chunkLimit && |pending| <= workers
      && (cachedSub != null ==> where.Names(cachedPosition, cachedSub))
    }

    constructor (
      air: RuntimeId, chunkLimit: nat, workers: nat, flushBatch: nat, coldLimit: nat,
      chunkSlot: ChunkPos -> Slot, subSlot: SubChunkPos -> Slot, store: map<SubChunkPos, Payload>)
      requires chunkLimit >= 1 && workers >= 1 && flushBatch >= 1
      ensures Valid() && fresh(cold) && chunkObjects == {} && subObjects == {}
      ensures model == map[] && this.store == store == store0
      ensures this.air == air && cold.limit == coldLimit
    {
      this.air, this.chunkLimit, this.workers, this.flushBatch := air, chunkLimit, workers, flushBatch;
      this.chunkSlot, this.subSlot := chunkSlot, subSlot;
      this.cold := new ColdCache(coldLimit);
      this.store0, this.store, storeFailed := store, store, false;
      cache, flushed, touchClock, pending := map[], {}, 0, [];
      chunkLookaside := seq(LOOKASIDE_SIZE, _ => ChunkEntry(ChunkPos(0, 0), null));
      subLookaside := seq(LOOKASIDE_SIZE, _ => SubChunkEntry(SubChunkPos(0, 0, 0), null, null));
      cachedSub, cachedPosition := null, SubChunkPos(0, 0, 0);
      model, where := map[], Map(map[], map[]);
      chunkObjects, subObjects := {}, {};
      new;
      hide Contents, ChunksOk, QueueOk, ColdFits, StoreFits, TablesOk, Owned;
      NothingTouched(chunkSlot, subSlot, store, chunkLookaside, subLookaside);
    }

    /** Every pointer to the chunk about to leave is dropped; the others stay. */
    method InvalidateChunkLookaside(position: ChunkPos, chunk: CachedChunk)
      requires |chunkLookaside| == |subLookaside| == LOOKASIDE_SIZE
      modifies this`chunkLookaside, this`subLookaside
      ensures Invalidated(position, chunk, chunk.subChunks.Keys, chunkSlot, subSlot,
        old(chunkLookaside), old(subLookaside), chunkLookaside, subLookaside)
    {
      var slot := chunkSlot(position);
      if chunkLookaside[slot].chunk == chunk {
        chunkLookaside := chunkLookaside[slot := chunkLookaside[slot].(chunk := null)];
      }
      var remaining := chunk.subChunks.Keys;
      ghost var gone: set<int> := {};
      assert Invalidated(position, chunk, gone, chunkSlot, subSlot,
        old(chunkLookaside), old(subLookaside), chunkLookaside, subLookaside);
      hide Invalidated;
      while remaining != {}
        invariant gone + remaining == chunk.subChunks.Keys
        invariant |subLookaside| == LOOKASIDE_SIZE
        invariant Invalidated(position, chunk, gone, chunkSlot, subSlot,
          old(chunkLookaside), old(subLookaside), chunkLookaside, subLookaside)
        decreases remaining
      {
        var y := AnyKey(remaining);
        var sub := subSlot(SubChunkPos(position.x, y, position.z));
        ghost var subs := subLookaside;
        if subLookaside[sub].owner == chunk {
          subLookaside := subLookaside[sub := SubChunkEntry(subLookaside[sub].position, null, null)];
        }
        InvalidateOne(position, chunk, gone, y, chunkSlot, subSlot,
          old(chunkLookaside), old(subLookaside), chunkLookaside, subs, subLookaside);
        gone := gone + {y};
        remaining := remaining - {y};
      }
      assert gone == chunk.subChunks.Keys;
    }

    /** `encode_chunks`: every subchunk of the batch yields one payload. */
    method EncodeChunks(data: map<SubChunkPos, SubChunkData>) returns (payloads: seq<Encoded>)
      ensures Encodes(payloads, data)
    {
      payloads := [];
      var remaining := data.Keys;
      while remaining != {}
        invariant remaining <= data.Keys
        invariant forall p :: Names(payloads, p) <==> p in data && p !in remaining
        invariant forall e | e in payloads :: e.pos in data && e.payload.layer == data[e.pos].layer0
        invariant forall i, j | 0 <= i < j < |payloads| :: payloads[i].pos != payloads[j].pos
        decreases remaining
      {
        var p := AnyKey(remaining);
        var capacity: nat := *;
        ghost var before := payloads;
        assert !Names(payloads, p);
        payloads := payloads + [Encoded(p, Payload(data[p].layer0, capacity))];
        assert payloads[..|payloads| - 1] == before;
        forall q
          ensures Names(payloads, q) <==> Names(before, q) || q == p
        {
          NamesLast(payloads, q);
        }
        forall i | 0 <= i < |before|
          ensures before[i].pos != p
        {
          assert before[i].pos == p ==> Names(before, p);
        }
        remaining := remaining - {p};
      }
    }

    method TakeChunk(position: ChunkPos, chunks: set<ChunkPos>, data: map<SubChunkPos, SubChunkData>)
      returns (chunks': set<ChunkPos>, data': map<SubChunkPos, SubChunkData>)
      requires Core(pending + [PendingSave(chunks, data)]) && position in cache
      modifies this`chunkLookaside, this`subLookaside, this`cache, this`where
      ensures Core(pending + [PendingSave(chunks', data')])
      ensures chunks' == chunks + {position} && cache == old(cache) - {position}
    {
      hide Owned, Contents, ChunksOk, ChunkOk, TablesOk, QueueOk, ColdFits, StoreFits, Invalidated, Taken, Positioned;
      var found := cache[position];
      chunks' := chunks + {position};
      var moved := Positioned(position, found.subChunks);
      data' := data + moved;
      InvalidateChunkLookaside(position, found);
      TakenKeeps(chunkObjects, subObjects, cache, where, position, cold.entries, model, flushed, store, store0);
      QueueTaken(chunkObjects, subObjects, model, cache, pending, where, position, PendingSave(chunks, data),
        found.subChunks);
      TablesTaken(chunkSlot, subSlot, cache, where, position, found.subChunks.Keys,
        old(chunkLookaside), old(subLookaside), chunkLookaside, subLookaside);
      ChunksTaken(cache, where, position);
      where := Taken(where, position);
      cache := cache - {position};
    }

    /** `complete_next_pending_save`: the encoded payloads of the oldest batch
        enter the cold cache and what they displace is written to the store.
        Encoding and writing can fail; the batch is dropped all the same. */
    method CompleteNextPendingSave() returns (ok: bool)
      requires Core(pending)
      modifies this`flushed, this`pending, this`store, this`storeFailed, this`where, cold
      ensures !ok ==> storeFailed
      ensures ok ==> Core(pending)
      ensures pending == if old(pending) == [] then [] else old(pending)[1..]
    {
      hide Owned, Contents, ChunksOk, TablesOk, ColdFits, StoreFits, QueueOk, ColdCache.Valid;
      if pending == [] {
        return true;
      }
      ok := Attempt();
      if ok {
        ok := SettleFront();
      }
      pending := pending[1..];
    }

    /** Encoding, reading and writing can fail at any time. */
    method Attempt() returns (ok: bool)
      modifies this`storeFailed
      ensures storeFailed == !ok
    {
      ok := *;
      storeFailed := !ok;
    }

    /** The oldest batch has entered the cold cache; what it displaced is about to be
        written. */
    ghost predicate Displaced(evicted: seq<Encoded>, pend: seq<PendingSave>)
      reads this, cold, chunkObjects, subObjects
    {
      && cold.Valid() && Shape()
      && Owned(chunkObjects, subObjects, cache, where, model)
      && Contents(where.held, model) && ChunksOk(cache, where)
      && ColdFits(cold.entries, where, model, flushed)
      && StoreFits(ApplyBatch(store, evicted), store0, where, model, flushed)
      && QueueOk(cache.Keys, pend, where)
      && TablesOk(chunkSlot, subSlot, cache, where, chunkLookaside, subLookaside)
    }

    method SettleFront() returns (ok: bool)
      requires Core(pending) && pending != []
      modifies this`flushed, this`store, this`storeFailed, this`where, cold
      ensures !ok ==> storeFailed
      ensures ok ==> Core(pending[1..])
    {
      hide Owned, Contents, ChunksOk, TablesOk, ColdFits, StoreFits, ApplyBatch, QueueOk, ColdCache.Valid;
      var evicted := MoveToCold();
      ok := WriteEvicted(evicted);
    }

    method MoveToCold() returns (evicted: seq<Encoded>)
      requires Core(pending) && pending != []
      modifies this`flushed, this`where, cold
      ensures Displaced(evicted, pending[1..])
    {
      hide Owned, Contents, ChunksOk, TablesOk, ColdFits, StoreFits, Settled, Split, NewTo, ApplyBatch, Payloads,
        Encodes, QueueOk;
      var payloads := EncodeChunks(pending[0].data);
      BatchIsNew(where, payloads, cold.entries, model, flushed, pending, cache.Keys);
      ghost var before := cold.entries;
      evicted := cold.InsertAll(payloads);
      SettleAll(chunkObjects, subObjects, cache, where, model, pending, payloads, before, cold.entries, evicted, store,
        store0, flushed,
        chunkSlot, subSlot, chunkLookaside, subLookaside);
      where := Settled(where, pending[0].data, cold.entries.Keys);
      flushed := flushed + pending[0].data.Keys;
    }

    method WriteEvicted(evicted: seq<Encoded>) returns (ok: bool)
      requires !storeFailed
      modifies this`store, this`storeFailed
      ensures ok ==> store == ApplyBatch(old(store), evicted)
      ensures storeFailed == !ok
    {
      if evicted == [] {
        return true;
      }
      ok := Attempt();
      if ok {
        store := ApplyBatch(store, evicted);
      }
    }

    /** `flush_chunks`: the chunks leave the cache as one queued save batch. */
    method FlushChunks(positions: seq<ChunkPos>) returns (ok: bool)
      requires Core(pending) && |pending| <= workers
      modifies this`chunkLookaside, this`subLookaside, this`cache, this`flushed, this`pending, this`store,
        this`storeFailed, this`where,
        cold
      ensures !ok ==> storeFailed
      ensures ok ==> Core(pending) && |pending| <= workers
      ensures ok ==> cache == old(cache) - Members(positions)
      ensures ok ==> forall c | !Queued(old(pending), c) && c !in old(cache) :: !Queued(pending, c)
    {
      if positions == [] {
        assert cache - {} == cache;
        return true;
      }
      ok := true;
      if |pending| >= workers {
        ok := CompleteNextPendingSave();
        QueuedTail(old(pending));
      }
      if ok {
        QueueChunks(positions);
      }
    }

    method QueueChunks(positions: seq<ChunkPos>)
      requires Core(pending) && |pending| < workers
      modifies this`chunkLookaside, this`subLookaside, this`cache, this`pending, this`where
      ensures Core(pending) && |pending| <= workers
      ensures cache == old(cache) - Members(positions)
      ensures forall c | Queued(pending, c) :: Queued(old(pending), c) || c in old(cache)
    {
      hide Owned, Contents, ChunksOk, TablesOk, QueueOk, ColdFits, StoreFits, Queued;
      QueueGrows(cache.Keys, pending, where);
      var chunks, data := TakeAll(positions);
      if chunks == {} {
        QueueShrinks(cache.Keys, pending, data, where);
      } else {
        QueuedLast(pending, PendingSave(chunks, data));
        pending := pending + [PendingSave(chunks, data)];
      }
    }

    method TakeAll(positions: seq<ChunkPos>) returns (chunks: set<ChunkPos>, data: map<SubChunkPos, SubChunkData>)
      requires Core(pending + [PendingSave({}, map[])])
      modifies this`chunkLookaside, this`subLookaside, this`cache, this`where
      ensures Core(pending + [PendingSave(chunks, data)])
      ensures cache == old(cache) - Members(positions)
      ensures chunks <= old(cache).Keys
    {
      hide Core;
      chunks, data := {}, map[];
      for i := 0 to |positions|
        invariant Core(pending + [PendingSave(chunks, data)])
        invariant cache == old(cache) - Members(positions[..i])
        invariant chunks <= old(cache).Keys
      {
        assert positions[..i + 1] == positions[..i] + [positions[i]];
        if positions[i] in cache {
          chunks, data := TakeChunk(positions[i], chunks, data);
        }
      }
      assert positions[..|positions|] == positions;
    }

    /** `nth_element` in `flush_oldest`: the least recently touched chunks. */
    method LeastRecent(count: nat) returns (positions: seq<ChunkPos>)
      ensures |cache.Keys - Members(positions)| == |cache| - Smaller(count, |cache|)
      ensures Distinct(positions) && |positions| == Smaller(count, |cache|) && Members(positions) <= cache.Keys
      ensures forall c, d | c in cache && d in cache && c in positions && d !in positions ::
        cache[c].lastTouch <= cache[d].lastTouch
    {
      positions := [];
      var rest := cache.Keys;
      assert rest == cache.Keys - Members(positions);
      while |positions| < count && rest != {}
        invariant rest == cache.Keys - Members(positions)
        invariant |rest| + |positions| == |cache| && |positions| <= count
        invariant Distinct(positions) && Members(positions) <= cache.Keys
        invariant forall c, d | c in positions && d in rest :: c in cache && cache[c].lastTouch <= cache[d].lastTouch
        decreases |rest|
      {
        var least := LeastOf(rest);
        rest := rest - {least};
        positions := positions + [least];
      }
    }

    method LeastOf(positions: set<ChunkPos>) returns (least: ChunkPos)
      requires positions != {} && positions <= cache.Keys
      ensures least in positions && forall c | c in positions :: cache[least].lastTouch <= cache[c].lastTouch
    {
      least := AnyKey(positions);
      var remaining := positions - {least};
      while remaining != {}
        invariant remaining <= positions && least in positions
        invariant forall c | c in positions && c !in remaining :: cache[least].lastTouch <= cache[c].lastTouch
        decreases remaining
      {
        var c := AnyKey(remaining);
        if cache[c].lastTouch < cache[least].lastTouch {
          least := c;
        }
        remaining := remaining - {c};
      }
    }

    /** `flush_oldest`: no chunk leaves while an older one stays. */
    method FlushOldest(count: nat) returns (ok: bool)
      requires Core(pending) && |pending| <= workers
      modifies this`chunkLookaside, this`subLookaside, this`cache, this`flushed, this`pending, this`store,
        this`storeFailed, this`where,
        cold
      ensures !ok ==> storeFailed
      ensures ok ==> Core(pending) && |pending| <= workers
      ensures ok ==> cache.Keys <= old(cache).Keys && |cache| == |old(cache)| - Smaller(count, |old(cache)|)
      ensures ok ==> forall c | c in cache :: cache[c] == old(cache)[c]
      ensures ok ==> forall c, d | c in old(cache) && c !in cache && d in cache ::
        old(cache)[c].lastTouch <= old(cache)[d].lastTouch
      ensures ok ==> forall c | !Queued(old(pending), c) && c !in old(cache) :: !Queued(pending, c)
    {
      hide Core, Queued;
      var positions := LeastRecent(count);
      ok := FlushChunks(positions);
      if ok {
        assert cache.Keys == old(cache).Keys - Members(positions);
      }
    }

    ghost predicate Bounded()
      reads this
    {
      |cache| <= chunkLimit && |pending| <= workers
    }

    /** The wait of `acquire_chunk` for a queued chunk: the saves before and
        including its batch are completed. */
    method AwaitChunk(position: ChunkPos) returns (ok: bool)
      requires Core(pending)
      modifies this`flushed, this`pending, this`store, this`storeFailed, this`where, cold
      ensures !ok ==> storeFailed
      ensures ok ==> Core(pending) && !Queued(pending, position)
      ensures |pending| <= |old(pending)|
    {
      var index := 0;
      while index < |pending| && position !in pending[index].chunks
        invariant 0 <= index <= |pending|
        invariant forall i | 0 <= i < index :: position !in pending[i].chunks
      {
        index := index + 1;
      }
      if index == |pending| {
        return true;
      }
      hide Owned, Contents, ChunksOk, QueueOk, TablesOk, ColdFits, StoreFits, Queued;
      ghost var queue := pending;
      QueuedOnce(cache.Keys, pending, where, index, position);
      ok := true;
      for k := 0 to index + 1
        invariant pending == queue[k..]
        invariant Core(pending)
      {
        ok := CompleteNextPendingSave();
        if !ok {
          return;
        }
      }
    }

    /** `acquire_chunk`: the live chunk at a position, loading nothing. */
    method AcquireChunk(position: ChunkPos) returns (ok: bool, chunk: CachedChunk?)
      requires Core(pending) && Bounded()
      modifies this, cold, chunkObjects`lastTouch
      ensures !ok ==> storeFailed
      ensures model == old(model) && subObjects == old(subObjects)
      ensures cachedSub == old(cachedSub) && cachedPosition == old(cachedPosition)
      ensures old(chunkObjects) <= chunkObjects && fresh(chunkObjects - old(chunkObjects))
      ensures ok ==> Core(pending) && Bounded()
      ensures ok ==> position in cache && cache[position] == chunk && chunk in chunkObjects
    {
      hide Owned, Contents, ChunksOk, QueueOk, TablesOk, ColdFits, StoreFits, Queued;
      CachedOwned(chunkObjects, subObjects, cache, where, model);
      var entry := chunkLookaside[chunkSlot(position)];
      if entry.chunk != null && entry.position == position {
        EntryIsLive(chunkSlot, subSlot, cache, where, chunkLookaside, subLookaside, position);
        Touch(entry.chunk);
        return true, entry.chunk;
      }
      if position in cache {
        Touch(cache[position]);
        RememberChunk(position);
        return true, cache[position];
      }
      ok, chunk := EmplaceChunk(position);
    }

    /** The miss path of `acquire_chunk`. */
    method EmplaceChunk(position: ChunkPos) returns (ok: bool, chunk: CachedChunk?)
      requires Core(pending) && Bounded() && position !in cache
      modifies this, cold
      ensures !ok ==> storeFailed
      ensures model == old(model) && subObjects == old(subObjects)
      ensures cachedSub == old(cachedSub) && cachedPosition == old(cachedPosition)
      ensures old(chunkObjects) <= chunkObjects && fresh(chunkObjects - old(chunkObjects))
      ensures ok ==> Core(pending) && Bounded()
      ensures ok ==> position in cache && cache[position] == chunk && chunk in chunkObjects
    {
      hide Core, Queued;
      chunk := null;
      ok := MakeRoom(position);
      if ok {
        chunk := AddChunk(position);
        RememberChunk(position);
      }
    }

    lemma LimitsArePositive()
      requires Core(pending)
      ensures chunkLimit >= 1 && flushBatch >= 1
    {
      hide Owned, Contents, ChunksOk, QueueOk, TablesOk, ColdFits, StoreFits, ColdCache.Valid;
    }

    method MakeRoom(position: ChunkPos) returns (ok: bool)
      requires Core(pending) && Bounded() && position !in cache
      modifies this`chunkLookaside, this`subLookaside, this`cache, this`flushed, this`pending, this`store,
        this`storeFailed, this`where,
        cold
      ensures !ok ==> storeFailed
      ensures ok ==> Core(pending) && Bounded() && |cache| < chunkLimit
      ensures ok ==> position !in cache && !Queued(pending, position)
    {
      hide Core, Queued;
      LimitsArePositive();
      ok := AwaitChunk(position);
      if ok && |cache| >= chunkLimit {
        ok := FlushOldest(flushBatch);
      }
    }

    method Touch(chunk: CachedChunk)
      modifies this`touchClock, chunk`lastTouch
    {
      touchClock := touchClock + 1;
      chunk.lastTouch := touchClock;
    }

    method RememberChunk(position: ChunkPos)
      requires Core(pending) && position in cache
      modifies this`chunkLookaside
      ensures Core(pending)
    {
      hide Owned, Contents, ChunksOk, QueueOk, ColdFits, StoreFits;
      chunkLookaside := chunkLookaside[chunkSlot(position) := ChunkEntry(position, cache[position])];
    }

    /** The emplacement at the end of `acquire_chunk`. */
    method AddChunk(position: ChunkPos) returns (chunk: CachedChunk)
      requires Core(pending) && position !in cache && !Queued(pending, position)
      modifies this`touchClock, this`cache, this`chunkObjects
      ensures Core(pending) && fresh(chunk)
      ensures cache == old(cache)[position := chunk] && chunkObjects == old(chunkObjects) + {chunk}
    {
      hide Owned, Contents, ChunksOk, QueueOk, TablesOk, ColdFits, StoreFits, Queued;
      touchClock := touchClock + 1;
      chunk := new CachedChunk(position, touchClock);
      ChunkAdded(chunkObjects, subObjects, cache, where, model, pending, position, chunk,
        chunkSlot, subSlot, chunkLookaside, subLookaside);
      cache := cache[position := chunk];
      chunkObjects := chunkObjects + {chunk};
    }

    /** `acquire_subchunk`: the live object for a subchunk, reloaded if it was
        saved before and all air if it is new. */
    method AcquireSubChunk(position: SubChunkPos) returns (ok: bool, sub: SubChunkData?)
      requires Core(pending) && Bounded() && InBuildRange(position)
      modifies this, cold, chunkObjects
      ensures !ok ==> storeFailed
      ensures cachedSub == old(cachedSub) && cachedPosition == old(cachedPosition)
      ensures Grown(old(chunkObjects), old(subObjects))
      ensures fresh(chunkObjects - old(chunkObjects)) && fresh(subObjects - old(subObjects))
      ensures ok ==> Core(pending) && Bounded()
      ensures ok ==> where.Names(position, sub) && sub in subObjects && model == Touched(old(model), position, air)
    {
      hide Core;
      ok, sub := LookAside(position);
      if sub == null {
        var chunk;
        ok, chunk := AcquireChunk(ChunkOf(position));
        if ok {
          ok, sub := FindLayer(position, chunk);
        }
      }
    }

    ghost predicate Grown(chunks: set<CachedChunk>, subs: set<SubChunkData>)
      reads this
    {
      chunks <= chunkObjects && subs <= subObjects
    }

    method LookAside(position: SubChunkPos) returns (ok: bool, sub: SubChunkData?)
      requires Core(pending)
      modifies this`touchClock, chunkObjects`lastTouch
      ensures Core(pending)
      ensures ok == (sub != null)
      ensures sub != null ==> where.Names(position, sub) && sub in subObjects && position in model
    {
      hide Contents, ChunksOk, QueueOk, ColdFits, StoreFits, TablesOk, Owned;
      var entry := subLookaside[subSlot(position)];
      if entry.subchunk != null && entry.owner != null && entry.position == position {
        SubEntryIsLive(chunkObjects, subObjects, chunkSlot, subSlot, cache, where, model, chunkLookaside, subLookaside,
          position);
        Touch(entry.owner);
        return true, entry.subchunk;
      }
      return false, null;
    }

    method FindLayer(position: SubChunkPos, chunk: CachedChunk) returns (ok: bool, sub: SubChunkData?)
      requires Core(pending) && ChunkOf(position) in cache && cache[ChunkOf(position)] == chunk
        && InBuildRange(position)
      modifies this`subLookaside, this`where, this`model, this`subObjects, this`storeFailed, cold, chunk
      ensures !ok ==> storeFailed
      ensures fresh(subObjects - old(subObjects)) && old(subObjects) <= subObjects
      ensures ok ==> Core(pending)
      ensures ok ==> where.Names(position, sub) && sub in subObjects && model == Touched(old(model), position, air)
    {
      hide Contents, QueueOk, ColdFits, StoreFits, TablesOk, Owned, ChunksOk;
      ChunkHolds(chunkObjects, subObjects, cache, where, model, position);
      var layer := position.y - MIN_CACHED_SUB_Y;
      if chunk.layers[layer] != null {
        sub := chunk.layers[layer];
        RememberSubChunk(position, chunk, sub);
        return true, sub;
      }
      if position.y in chunk.subChunks {
        sub := chunk.subChunks[position.y];
        PointLayer(position, chunk, sub);
        RememberSubChunk(position, chunk, sub);
        return true, sub;
      }
      ok, sub := MaterializeLayer(position, chunk);
      if ok {
        RememberSubChunk(position, chunk, sub);
      }
    }

    method RememberSubChunk(position: SubChunkPos, chunk: CachedChunk, sub: SubChunkData)
      requires Core(pending) && where.Names(position, sub) && ChunkOf(position) in cache
        && cache[ChunkOf(position)] == chunk
      modifies this`subLookaside
      ensures Core(pending)
    {
      hide Contents, QueueOk, ColdFits, StoreFits, Owned, ChunksOk;
      subLookaside := subLookaside[subSlot(position) := SubChunkEntry(position, chunk, sub)];
    }

    method PointLayer(position: SubChunkPos, chunk: CachedChunk, sub: SubChunkData)
      requires Core(pending) && where.Names(position, sub) && ChunkOf(position) in cache
        && cache[ChunkOf(position)] == chunk
      requires InBuildRange(position) && position.y in chunk.subChunks && chunk.subChunks[position.y] == sub
      modifies chunk`layers
      ensures Core(pending)
    {
      hide Contents, QueueOk, ColdFits, StoreFits, Owned, ChunksOk, TablesOk, ChunkFits;
      ghost var c := ChunkOf(position);
      ChunksApart(cache, where, c);
      var layer := position.y - MIN_CACHED_SUB_Y;
      LayerPointed(c, chunk.subChunks, chunk.layers, where, position, sub);
      chunk.layers := chunk.layers[layer := sub];
      ChunksTogether(cache, where, c);
    }

    /** The end of `acquire_subchunk`: the payload comes from the cold cache if
        it is there, else from the store if it was ever saved. */
    method MaterializeLayer(position: SubChunkPos, chunk: CachedChunk) returns (ok: bool, sub: SubChunkData?)
      requires Core(pending) && ChunkOf(position) in cache && cache[ChunkOf(position)] == chunk
      requires InBuildRange(position) && position.y !in chunk.subChunks
      modifies this`where, this`model, this`subObjects, this`storeFailed, cold, chunk`layers, chunk`subChunks
      ensures !ok ==> storeFailed
      ensures fresh(subObjects - old(subObjects)) && old(subObjects) <= subObjects
      ensures ok ==> Core(pending)
      ensures ok ==> where.Names(position, sub) && sub in subObjects && model == Touched(old(model), position, air)
    {
      hide Contents, QueueOk, ColdFits, StoreFits, Owned, ChunksOk, TablesOk;
      NotInMemory(cache, where, pending, position);
      ghost var before := cold.entries;
      var data;
      ok, data := LoadLayer(position);
      sub := null;
      if ok {
        sub := InstallLayer(position, chunk, data, before);
      }
    }

    method LoadLayer(position: SubChunkPos) returns (ok: bool, data: seq<RuntimeId>)
      requires Core(pending) && !where.Is(position, InCache) && !where.Is(position, InPending)
      modifies this`storeFailed, cold
      ensures !ok ==> storeFailed
      ensures ok ==> !storeFailed
      ensures ok ==> data == Touched(model, position, air)[position]
      ensures ok ==> cold.Valid() && cold.entries == old(cold.entries) - {position}
    {
      hide Contents, QueueOk, Owned, ChunksOk, TablesOk;
      SavedLayer(where, model, flushed, cold.entries, store, store0, position, chunkObjects, subObjects, cache);
      hide ColdFits, StoreFits;
      data := AirLayer(air);
      if position !in flushed {
        assert cold.entries - {position} == cold.entries;
        return true, data;
      }
      ok := Attempt();
      if ok {
        if position in cold.entries {
          data := cold.entries[position].payload.layer;
          cold.Erase(position);
        } else {
          assert cold.entries - {position} == cold.entries;
          if position in store {
            data := store[position].layer;
          }
        }
      }
    }

    method InstallLayer(position: SubChunkPos, chunk: CachedChunk, data: seq<RuntimeId>,
        ghost before: map<SubChunkPos, ColdEntry>)
      returns (sub: SubChunkData)
      requires CoreBut(pending, before) && cold.Valid() && cold.entries == before - {position}
      requires ChunkOf(position) in cache && cache[ChunkOf(position)] == chunk && InBuildRange(position)
      requires !where.Is(position, InCache) && !where.Is(position, InPending)
      requires data == Touched(model, position, air)[position]
      modifies this`where, this`model, this`subObjects, chunk`layers, chunk`subChunks
      ensures fresh(sub) && subObjects == old(subObjects) + {sub}
      ensures Core(pending)
      ensures where.Names(position, sub) && model == Touched(old(model), position, air)
    {
      hide Contents, QueueOk, ColdFits, StoreFits, Owned, ChunksOk, TablesOk, Touched, Live, ColdCache.Valid;
      sub := new SubChunkData(position, data);
      AttachLayer(position, chunk, sub);
      LayerInstalled(chunkObjects, subObjects, cache, where, model, pending, position, sub, air, before, store, store0,
        flushed,
        chunkSlot, subSlot, chunkLookaside, subLookaside);
      where := Live(where, position, sub);
      model := Touched(model, position, air);
      subObjects := subObjects + {sub};
    }

    method AttachLayer(position: SubChunkPos, chunk: CachedChunk, sub: SubChunkData)
      requires ChunksOk(cache, where) && ChunkOf(position) in cache && cache[ChunkOf(position)] == chunk
        && InBuildRange(position)
      modifies chunk`layers, chunk`subChunks
      ensures ChunksOk(cache, Live(where, position, sub))
    {
      hide ChunksOk, ChunkFits, Live;
      ghost var c := ChunkOf(position);
      ChunksApart(cache, where, c);
      ChunkInstalled(cache, c, chunk.subChunks, chunk.layers, where, position, sub);
      chunk.subChunks := chunk.subChunks[position.y := sub];
      chunk.layers := chunk.layers[position.y - MIN_CACHED_SUB_Y := sub];
      ChunksTogether(cache, Live(where, position, sub), c);
    }

    /** The remembered last subchunk in front of `acquire_subchunk`. */
    method Locate(position: SubChunkPos) returns (ok: bool)
      requires Valid() && InBuildRange(position)
      modifies this, cold, chunkObjects
      ensures !ok ==> storeFailed
      ensures Grown(old(chunkObjects), old(subObjects))
      ensures fresh(chunkObjects - old(chunkObjects)) && fresh(subObjects - old(subObjects))
      ensures ok ==> Valid() && cachedSub != null && cachedPosition == position && cachedSub in subObjects
      ensures ok ==> model == Touched(old(model), position, air)
    {
      hide Core;
      RememberedLayer();
      ok := true;
      if cachedSub == null || cachedPosition != position {
        ok := Reacquire(position);
      }
    }

    method Reacquire(position: SubChunkPos) returns (ok: bool)
      requires Core(pending) && Bounded() && InBuildRange(position)
      modifies this, cold, chunkObjects
      ensures !ok ==> storeFailed
      ensures Grown(old(chunkObjects), old(subObjects))
      ensures fresh(chunkObjects - old(chunkObjects)) && fresh(subObjects - old(subObjects))
      ensures ok ==> Valid() && cachedSub != null && cachedPosition == position && cachedSub in subObjects
      ensures ok ==> model == Touched(old(model), position, air)
    {
      hide Core;
      var sub;
      ok, sub := AcquireSubChunk(position);
      if ok {
        Remember(position, sub);
      }
    }

    method Remember(position: SubChunkPos, sub: SubChunkData?)
      requires Core(pending) && Bounded() && where.Names(position, sub)
      modifies this`cachedSub, this`cachedPosition
      ensures Valid() && cachedSub == sub && cachedPosition == position
    {
      hide Contents, ChunksOk, QueueOk, ColdFits, StoreFits, TablesOk, Owned;
      cachedSub, cachedPosition := sub, position;
    }

    /** Writing through the remembered pointer reaches the model of exactly that
        subchunk, whatever copies of others are elsewhere. */
    method Overwrite(layer: seq<RuntimeId>)
      requires Valid() && cachedSub != null && |layer| == 4096
      modifies this`model, cachedSub`layer0
      ensures Valid()
      ensures model == old(model)[cachedPosition := layer]
    {
      hide ChunksOk, QueueOk, ColdFits, StoreFits, TablesOk, Owned, Contents;
      ghost var rest := where.held - {cachedPosition};
      LayerWritten(chunkObjects, subObjects, cache, where, model, flushed, cold.entries, store, store0, cachedPosition,
        layer);
      ContentsApart(where, model, cachedPosition);
      ContentsElsewhere(rest, model, cachedPosition, layer);
      model := model[cachedPosition := layer];
      cachedSub.layer0 := layer;
      ContentsTogether(where, model, cachedPosition);
    }

    /** `layer0[index] = runtime_id` in `consume_block`. */
    method WriteCell(index: nat, id: RuntimeId)
      requires Valid() && cachedSub != null && index < 4096
      modifies this`model, cachedSub`layer0
      ensures Valid() && cachedPosition in old(model) && |old(model)[cachedPosition]| == 4096
      ensures model == old(model)[cachedPosition := SetCell(old(model)[cachedPosition], index, id)]
    {
      RememberedLayer();
      hide Valid;
      Overwrite(SetCell(cachedSub.layer0, index, id));
    }

    /** The segment writes of `consume_z_run`: a bulk copy when the run has no
        air, else one cell at a time around the air. */
    method WriteSegment(destination: nat, ids: seq<RuntimeId>, containsAir: bool)
      requires Valid() && cachedSub != null && destination + |ids| <= 4096
      requires !containsAir ==> air !in ids
      modifies this`model, cachedSub`layer0
      ensures Valid() && cachedPosition in old(model) && |old(model)[cachedPosition]| == 4096
      ensures model == old(model)[cachedPosition := WithRun(old(model)[cachedPosition], destination, ids, air)]
    {
      RememberedLayer();
      hide Valid;
      var layer := RunOnto(cachedSub.layer0, destination, ids, containsAir, air);
      Overwrite(layer);
    }

    /** The authoritative value of a subchunk: the live layer, else the queued
        save, else the cold payload, else the store if it was ever saved, else
        air. Touching it decides nothing: this is what the model says. */
    lemma Authoritative(p: SubChunkPos)
      requires Core(pending)
      ensures ChunkOf(p) in cache && p.y in cache[ChunkOf(p)].subChunks ==>
        p in model && cache[ChunkOf(p)].subChunks[p.y].layer0 == model[p]
      ensures forall i | 0 <= i < |pending| && p in pending[i].data ::
        p in model && pending[i].data[p].layer0 == model[p]
      ensures p in cold.entries ==> p in model && cold.entries[p].payload.layer == model[p]
      ensures
        (!(ChunkOf(p) in cache && p.y in cache[ChunkOf(p)].subChunks)
         && !Awaiting(pending, p) && p !in cold.entries) ==>
          if p in flushed then p in model && p in store && store[p].layer == model[p] else p !in model
    {
      CopiesAgree(chunkObjects, subObjects, cache, where, model, pending, cold.entries, flushed, p);
      OnlyCopySaved(chunkObjects, subObjects, cache, where, model, pending, flushed, cold.entries, store, store0, p);
    }

    /** The three drains after the last command. When they succeed the store
        holds the model for every touched subchunk and is unchanged elsewhere. */
    method Drain() returns (ok: bool)
      requires Valid()
      modifies this`chunkLookaside, this`subLookaside, this`cache, this`flushed, this`pending, this`store,
        this`storeFailed, this`where,
        cold
      ensures storeFailed == !ok
      ensures ok ==> Landing(store, store0, model) && cache == map[] && pending == [] && cold.entries == map[]
    {
      hide Core;
      LimitsArePositive();
      ok := DrainCache();
      if ok {
        ok := DrainPending();
      }
      if ok {
        ok := DrainCold();
      }
    }

    method DrainCache() returns (ok: bool)
      requires Core(pending) && |pending| <= workers && flushBatch >= 1
      modifies this`chunkLookaside, this`subLookaside, this`cache, this`flushed, this`pending, this`store,
        this`storeFailed, this`where,
        cold
      ensures !ok ==> storeFailed
      ensures ok ==> Core(pending) && cache == map[]
    {
      hide Core;
      while cache != map[]
        invariant Core(pending) && |pending| <= workers
        decreases |cache|
      {
        ok := FlushOldest(flushBatch);
        if !ok {
          return;
        }
      }
      ok := true;
    }

    method DrainPending() returns (ok: bool)
      requires Core(pending)
      modifies this`flushed, this`pending, this`store, this`storeFailed, this`where, cold
      ensures !ok ==> storeFailed
      ensures ok ==> Core(pending) && pending == []
    {
      hide Core;
      while pending != []
        invariant Core(pending)
        decreases |pending|
      {
        ok := CompleteNextPendingSave();
        if !ok {
          return;
        }
      }
      ok := true;
    }

    /** The remaining cold payloads leave from the old end of the list, at most
        1024 to a write. */
    method DrainCold() returns (ok: bool)
      requires Core(pending) && cache == map[] && pending == []
      modifies this`store, this`storeFailed, cold
      ensures storeFailed == !ok
      ensures ok ==> Landing(store, store0, model) && cold.entries == map[]
    {
      hide Owned, Contents, ChunksOk, TablesOk, ColdFits, StoreFits, QueueOk, Landed, Landing, Split, ApplyBatch,
        Payloads, Consistent;
      ghost var first, whole := store, Payloads(cold.entries);
      ghost var before := cold.entries;
      LandedNothing(cold.entries, store);
      while cold.lru != []
        invariant Consistent(cold.lru, cold.entries, cold.bytes)
        invariant Landed(cold.entries, whole, first, store) && !storeFailed
        decreases |cold.lru|
      {
        ghost var entries, saved := cold.entries, store;
        ok := DrainColdBatch();
        if !ok {
          return;
        }
        LandedTwice(entries, cold.entries, whole, first, saved, store);
      }
      AllLanded(chunkObjects, subObjects, cache, where, model, pending, flushed, before, cold.entries, cold.lru,
        cold.bytes, first, store, store0);
      ok := true;
    }

    method DrainColdBatch() returns (ok: bool)
      requires Consistent(cold.lru, cold.entries, cold.bytes) && cold.lru != []
      requires !storeFailed
      modifies this`store, this`storeFailed, cold
      ensures storeFailed == !ok
      ensures Consistent(cold.lru, cold.entries, cold.bytes) && |cold.lru| < |old(cold.lru)|
      ensures ok ==> Landed(cold.entries, Payloads(old(cold.entries)), old(store), store)
    {
      hide Landed, Split, ApplyBatch, Payloads, Consistent;
      ghost var before := cold.entries;
      var payloads := cold.TakeOldest(PAYLOAD_WRITE_BATCH);
      EvictedSaved(cold.entries, payloads, Payloads(before), store);
      ok := WriteEvicted(payloads);
    }

    lemma RememberedLayer()
      requires Valid()
      ensures cachedSub != null ==>
        && cachedPosition in model && cachedSub.layer0 == model[cachedPosition] && |cachedSub.layer0| == 4096
        && cachedSub in subObjects
    {
    }
  }
}
