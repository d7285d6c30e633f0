/** The sharded append log of `BdxStructure::ensure_placement_spool`, its reader
    in `get_chunks`, and the fallback without a spool. */
module PlacementSpools {
  import opened Options
  import opened Coordinates
  import opened ChunkCells
  import opened BdxBytes
  import opened PlacementRecords

  const OPEN_SHARD_LIMIT := 16

  function ContentOf(files: map<nat, Bytes>, shard: nat): Bytes {
    if shard in files then files[shard] else []
  }

  /** What a shard will hold once its stream, if one is open, is flushed. */
  function Eventually(files: map<nat, Bytes>, buffers: map<nat, Bytes>, shard: nat): Bytes {
    ContentOf(files, shard) + ContentOf(buffers, shard)
  }

  ghost predicate Unique(lru: seq<nat>) {
    forall i, j | 0 <= i < j < |lru| :: lru[i] != lru[j]
  }

  /** The LRU list names exactly the open streams, each once. */
  ghost predicate Tracks(lru: seq<nat>, open: set<nat>) {
    Unique(lru) && forall shard :: shard in lru <==> shard in open
  }

  /** Every shard will hold its records in stream order. */
  ghost predicate Logged(files: map<nat, Bytes>, buffers: map<nat, Bytes>, records: seq<Placing>) {
    forall shard: nat :: Eventually(files, buffers, shard) == EncodeRecords(InShard(records, shard))
  }

  lemma RecordLogged(files: map<nat, Bytes>, buffers: map<nat, Bytes>, records: seq<Placing>, record: Placing,
      shard: nat)
    requires Logged(files, buffers, records) && shard == Shard(ChunkOfBlock(record.pos)) && shard in buffers
    ensures Logged(files, buffers[shard := buffers[shard] + EncodeRecord(record)], records + [record])
  {
    hide Shard, EncodeRecord;
    var longer := records + [record];
    assert longer[..|records|] == records;
    var buffers' := buffers[shard := buffers[shard] + EncodeRecord(record)];
    forall other: nat
      ensures Eventually(files, buffers', other) == EncodeRecords(InShard(longer, other))
    {
      assert Eventually(files, buffers, other) == EncodeRecords(InShard(records, other));
      if other == shard {
        var mine := InShard(records, other);
        assert InShard(longer, other) == mine + [record] && (mine + [record])[..|mine|] == mine;
        assert Eventually(files, buffers', other) == Eventually(files, buffers, other) + EncodeRecord(record);
      }
    }
  }

  /** Flushing and closing a stream loses nothing, since shards are reopened for
      appending. */
  lemma FlushKeeps(files: map<nat, Bytes>, buffers: map<nat, Bytes>, records: seq<Placing>, victim: nat)
    requires Logged(files, buffers, records) && victim in buffers
    ensures Logged(files[victim := Eventually(files, buffers, victim)], buffers - {victim}, records)
  {
    var files' := files[victim := Eventually(files, buffers, victim)];
    forall shard: nat
      ensures Eventually(files', buffers - {victim}, shard) == Eventually(files, buffers, shard)
    {
    }
  }

  lemma OpenKeeps(files: map<nat, Bytes>, buffers: map<nat, Bytes>, records: seq<Placing>, shard: nat)
    requires Logged(files, buffers, records) && shard !in buffers
    ensures Logged(files[shard := ContentOf(files, shard)], buffers[shard := []], records)
  {
    forall other: nat
      ensures Eventually(files[shard := ContentOf(files, shard)], buffers[shard := []], other)
        == Eventually(files, buffers, other)
    {
    }
  }

  lemma LogStarts()
    ensures Logged(map[], map[], []) && Tracks([], {})
  {
  }

  lemma SplicedFront(lru: seq<nat>, open: set<nat>, k: nat)
    requires Tracks(lru, open) && k < |lru|
    ensures var spliced := [lru[k]] + (lru[..k] + lru[k + 1..]);
      Tracks(spliced, open) && |spliced| == |lru|
  {
    var spliced := [lru[k]] + (lru[..k] + lru[k + 1..]);
    forall shard
      ensures shard in spliced <==> shard in lru
    {
      if shard in lru {
        var i :| 0 <= i < |lru| && lru[i] == shard;
        assert spliced[if i == k then 0 else if i < k then i + 1 else i] == shard;
      }
    }
  }

  lemma PushedFront(lru: seq<nat>, open: set<nat>, shard: nat)
    requires Tracks(lru, open) && shard !in open
    ensures Tracks([shard] + lru, open + {shard})
  {
    assert shard !in lru;
  }

  lemma PoppedBack(lru: seq<nat>, open: set<nat>)
    requires Tracks(lru, open) && lru != []
    ensures lru[|lru| - 1] in open && Tracks(lru[..|lru| - 1], open - {lru[|lru| - 1]})
  {
    var victim := lru[|lru| - 1];
    assert victim in lru;
    forall shard
      ensures shard in lru[..|lru| - 1] <==> shard in open - {victim}
    {
      if shard in open && shard != victim {
        assert shard in lru;
        var i :| 0 <= i < |lru| && lru[i] == shard;
        assert lru[..|lru| - 1][i] == shard;
      }
    }
  }

  class PlacementSpool {
    const frame: Frame
    const limit: nat  // zero means unlimited

    var files: map<nat, Bytes>
    var buffers: map<nat, Bytes>
    var lru: seq<nat>
    var bytes: nat

    ghost var records: seq<Placing>

    ghost predicate Valid()
      reads this
    {
      && Logged(files, buffers, records) && Tracks(lru, buffers.Keys) && |lru| <= OPEN_SHARD_LIMIT
      && bytes == |records| * RECORD_BYTES && (limit != 0 ==> bytes <= limit)
    }

    constructor (frame: Frame, limit: nat)
      ensures Valid() && records == [] && this.frame == frame && this.limit == limit
    {
      this.frame, this.limit := frame, limit;
      files, buffers, lru, bytes, records := map[], map[], [], 0, [];
      new;
      LogStarts();
    }

    /** The lambda `touch`: the shard moves to the front, and the streams that
        have become too many are flushed and closed from the back. */
    method Touch(shard: nat) returns (ok: bool)
      requires Logged(files, buffers, records) && shard in buffers && |lru| <= OPEN_SHARD_LIMIT
      requires Tracks(lru, if shard in lru then buffers.Keys else buffers.Keys - {shard})
      modifies this`files, this`buffers, this`lru
      ensures ok ==> Logged(files, buffers, records) && Tracks(lru, buffers.Keys) && |lru| <= OPEN_SHARD_LIMIT
      ensures ok ==> shard in buffers && lru[0] == shard
    {
      hide Logged, Eventually, Tracks;
      if shard in lru {
        var k :| 0 <= k < |lru| && lru[k] == shard;
        SplicedFront(lru, buffers.Keys, k);
        lru := [lru[k]] + (lru[..k] + lru[k + 1..]);
        FirstIsOpen(lru, buffers.Keys);
        return true;
      }
      PushedFront(lru, buffers.Keys - {shard}, shard);
      assert buffers.Keys - {shard} + {shard} == buffers.Keys;
      lru := [shard] + lru;
      while |lru| > OPEN_SHARD_LIMIT
        invariant Logged(files, buffers, records) && Tracks(lru, buffers.Keys)
        invariant |lru| > 0 && lru[0] == shard
        decreases |lru|
      {
        var victim := lru[|lru| - 1];
        PoppedBack(lru, buffers.Keys);
        FlushKeeps(files, buffers, records, victim);
        lru := lru[..|lru| - 1];
        ok := *;
        if !ok {
          return;
        }
        files := files[victim := Eventually(files, buffers, victim)];
        assert buffers.Keys - {victim} == (buffers - {victim}).Keys;
        buffers := buffers - {victim};
      }
      FirstIsOpen(lru, buffers.Keys);
      ok := true;
    }

    /** The lambda `append`: positions outside the box are skipped, and the size
        limit is checked before the record is written. */
    method Append(raw: BlockPos, id: RuntimeId) returns (ok: bool)
      requires Valid()
      modifies this
      ensures ok ==> Valid()
      ensures ok ==>
        records == old(records) + (match Normalize(frame, raw) case None => [] case Some(pos) => [Placing(pos, id)])
      ensures Normalize(frame, raw).Some? && limit != 0 && old(bytes) + RECORD_BYTES > limit ==> !ok
    {
      hide Logged, Eventually, Tracks, Normalize, Shard, EncodeRecord;
      var normalized := Normalize(frame, raw);
      if normalized == None {
        assert records + [] == records;
        return true;
      }
      if limit != 0 && (limit < RECORD_BYTES || bytes > limit - RECORD_BYTES) {
        return false;
      }
      var record := Placing(normalized.value, id);
      var shard := Shard(ChunkOfBlock(record.pos));
      ok := OpenShard(shard);
      if !ok {
        return;
      }
      ok := Touch(shard);
      if !ok {
        return;
      }
      ok := *;
      if !ok {
        return;
      }
      RecordLogged(files, buffers, records, record, shard);
      assert buffers[shard := buffers[shard] + EncodeRecord(record)].Keys == buffers.Keys;
      buffers := buffers[shard := buffers[shard] + EncodeRecord(record)];
      bytes := bytes + RECORD_BYTES;
      records := records + [record];
    }

    method OpenShard(shard: nat) returns (ok: bool)
      requires Logged(files, buffers, records) && Tracks(lru, buffers.Keys)
      modifies this`files, this`buffers
      ensures ok ==> Logged(files, buffers, records) && shard in buffers
      ensures ok ==> Tracks(lru, if shard in lru then buffers.Keys else buffers.Keys - {shard})
    {
      hide Logged, Eventually;
      if shard in buffers {
        return true;
      }
      OpenKeeps(files, buffers, records, shard);
      assert shard !in lru;
      ok := *;
      if ok {
        assert (buffers[shard := []]).Keys - {shard} == buffers.Keys;
        files := files[shard := ContentOf(files, shard)];
        buffers := buffers[shard := []];
      }
    }

    /** The build: the whole placement stream, air included, then the final flush
        and the check of the persisted size, which cannot fail. */
    method Build(placed: seq<Placing>) returns (ok: bool)
      requires Valid() && records == []
      modifies this
      ensures ok ==> Complete(files, frame, placed) && (limit != 0 ==> |Records(frame, placed)| * RECORD_BYTES <= limit)
    {
      hide Logged, Tracks, Normalize, Complete;
      for k := 0 to |placed|
        invariant Valid() && records == Records(frame, placed[..k])
      {
        assert placed[..k + 1][..k] == placed[..k];
        ok := Append(placed[k].pos, placed[k].id);
        if !ok {
          return;
        }
      }
      assert placed[..|placed|] == placed;
      ok := FlushAll();
      if ok {
        PersistedSize(files, records);
        ok := SizeOf(files, SHARD_COUNT) == bytes;
        LoggedIsComplete(files, frame, placed);
      }
    }

    method FlushAll() returns (ok: bool)
      requires Logged(files, buffers, records)
      modifies this`files, this`buffers
      ensures ok ==> Logged(files, map[], records)
    {
      hide Logged, Eventually;
      while buffers != map[]
        invariant Logged(files, buffers, records)
        decreases |buffers|
      {
        var shard :| shard in buffers;
        FlushKeeps(files, buffers, records, shard);
        ok := *;
        if !ok {
          return;
        }
        files := files[shard := Eventually(files, buffers, shard)];
        buffers := buffers - {shard};
      }
      ok := true;
    }
  }

  lemma FirstIsOpen(lru: seq<nat>, open: set<nat>)
    requires Tracks(lru, open) && lru != []
    ensures lru[0] in open
  {
    assert lru[0] in lru;
  }

  /** A finished spool: every shard file is the encoding of its records. */
  ghost predicate Complete(files: map<nat, Bytes>, frame: Frame, placed: seq<Placing>) {
    forall shard: nat :: ContentOf(files, shard) == EncodeRecords(InShard(Records(frame, placed), shard))
  }

  lemma LoggedIsComplete(files: map<nat, Bytes>, frame: Frame, placed: seq<Placing>)
    requires Logged(files, map[], Records(frame, placed))
    ensures Complete(files, frame, placed)
  {
    hide InShard, EncodeRecords;
    forall shard: nat
      ensures ContentOf(files, shard) == EncodeRecords(InShard(Records(frame, placed), shard))
    {
      assert Eventually(files, map[], shard) == ContentOf(files, shard) + [] == ContentOf(files, shard);
    }
  }

  function SizeOf(files: map<nat, Bytes>, count: nat): nat {
    if count == 0 then 0 else SizeOf(files, count - 1) + |ContentOf(files, count - 1)|
  }

  function Held(records: seq<Placing>, count: nat): nat {
    if count == 0 then 0 else Held(records, count - 1) + |InShard(records, count - 1)|
  }

  lemma {:induction false} HeldStep(records: seq<Placing>, count: nat)
    requires records != []
    ensures var init, last := records[..|records| - 1], records[|records| - 1];
      Held(records, count) == Held(init, count) + if Shard(ChunkOfBlock(last.pos)) < count then 1 else 0
  {
    hide Shard;
    if count > 0 {
      HeldStep(records, count - 1);
    }
  }

  lemma {:induction false} HeldNothing(count: nat)
    ensures Held([], count) == 0
  {
    if count > 0 {
      HeldNothing(count - 1);
    }
  }

  /** The shards together hold every record once. */
  lemma {:induction false} AllHeld(records: seq<Placing>)
    ensures Held(records, SHARD_COUNT) == |records|
  {
    hide Held, Shard;
    if records == [] {
      HeldNothing(SHARD_COUNT);
    } else {
      AllHeld(records[..|records| - 1]);
      HeldStep(records, SHARD_COUNT);
    }
  }

  lemma {:induction false} SizeIsHeld(files: map<nat, Bytes>, records: seq<Placing>, count: nat)
    requires Logged(files, map[], records)
    ensures SizeOf(files, count) == Held(records, count) * RECORD_BYTES
  {
    if count > 0 {
      SizeIsHeld(files, records, count - 1);
      assert Eventually(files, map[], count - 1) == ContentOf(files, count - 1);
    }
  }

  /** The persisted size is the counted one, so the final check always passes. */
  lemma PersistedSize(files: map<nat, Bytes>, records: seq<Placing>)
    requires Logged(files, map[], records)
    ensures SizeOf(files, SHARD_COUNT) == |records| * RECORD_BYTES
  {
    SizeIsHeld(files, records, SHARD_COUNT);
    AllHeld(records);
  }

  /** The records a shard file decodes to. */
  lemma ShardFileDecodes(files: map<nat, Bytes>, frame: Frame, placed: seq<Placing>, shard: nat, k: nat)
    requires Complete(files, frame, placed) && k < |InShard(Records(frame, placed), shard)|
    ensures |ContentOf(files, shard)| == |InShard(Records(frame, placed), shard)| * RECORD_BYTES
    ensures DecodeRecord(ContentOf(files, shard), k * RECORD_BYTES) == InShard(Records(frame, placed), shard)[k]
    ensures Storable(frame, InShard(Records(frame, placed), shard)[k])
  {
    hide InShard, Records, DecodeRecord, Shard, EncodeRecords, EncodeRecord;
    var records := InShard(Records(frame, placed), shard);
    RecordsStorable(frame, placed);
    ShardKeepsStorable(frame, Records(frame, placed), shard);
    RecordAt(records, k);
    RecordRoundTrip(ContentOf(files, shard), k * RECORD_BYTES, records[k]);
  }

  /** The reader's loop over one shard, sixteen bytes at a time: on an intact
      file neither the truncation nor the range check fires. */
  method ReadShard(
    file: Bytes, frame: Frame, chunks: map<ChunkPos, Chunk>, air: RuntimeId,
    ghost files: map<nat, Bytes>, ghost placed: seq<Placing>, ghost shard: nat)
    returns (ok: bool, chunks': map<ChunkPos, Chunk>)
    requires Complete(files, frame, placed) && file == ContentOf(files, shard)
    ensures ok && chunks' == Replay(chunks, InShard(Records(frame, placed), shard), air)
  {
    hide Complete, InShard, Records, Shard, DecodeRecord, Apply, ContentOf;
    ghost var records := InShard(Records(frame, placed), shard);
    FileLength(files, frame, placed, shard);
    chunks' := chunks;
    var at := 0;
    ghost var k := 0;
    assert records[..0] == [];
    while at < |file|
      invariant at == k * RECORD_BYTES && k <= |records|
      invariant chunks' == Replay(chunks, records[..k], air)
    {
      if |file| - at < RECORD_BYTES {
        return false, chunks';
      }
      ShardFileDecodes(files, frame, placed, shard, k);
      var record := DecodeRecord(file, at);
      if !Fits(frame, record.pos) {
        return false, chunks';
      }
      chunks' := Apply(chunks', record, air);
      assert records[..k + 1][..k] == records[..k];
      at, k := at + RECORD_BYTES, k + 1;
    }
    assert records[..k] == records;
    ok := true;
  }

  lemma FileLength(files: map<nat, Bytes>, frame: Frame, placed: seq<Placing>, shard: nat)
    requires Complete(files, frame, placed)
    ensures |ContentOf(files, shard)| == |InShard(Records(frame, placed), shard)| * RECORD_BYTES
  {
  }

  /** After the shards below `count`, the chunks of those shards are finished and
      the others untouched. */
  ghost predicate ReadUpTo(chunks: map<ChunkPos, Chunk>, requested: set<ChunkPos>, records: seq<Placing>, count: nat,
      air: RuntimeId)
  {
    chunks.Keys == requested
    && forall c | c in requested :: chunks[c] == if Shard(c) < count then ReplayChunk(map[], records, c, air) else map[]
  }

  lemma ShardRead(
    chunks: map<ChunkPos, Chunk>, requested: set<ChunkPos>, records: seq<Placing>, shard: nat, air: RuntimeId)
    requires ReadUpTo(chunks, requested, records, shard, air)
    ensures ReadUpTo(Replay(chunks, InShard(records, shard), air), requested, records, shard + 1, air)
  {
    hide Shard, ReplayChunk, Replay, InShard;
    var mine := InShard(records, shard);
    ReplayIsPerChunk(chunks, mine, air);
    forall c | c in requested
      ensures Replay(chunks, mine, air)[c] == if Shard(c) < shard + 1 then ReplayChunk(map[], records, c, air)
        else map[]
    {
      ShardDecidesChunk(chunks[c], records, shard, c, air);
    }
  }

  lemma ShardSkipped(
    chunks: map<ChunkPos, Chunk>, requested: set<ChunkPos>, records: seq<Placing>, shard: nat, air: RuntimeId)
    requires ReadUpTo(chunks, requested, records, shard, air) && forall c | c in requested :: Shard(c) != shard
    ensures ReadUpTo(chunks, requested, records, shard + 1, air)
  {
  }

  lemma AllRead(chunks: map<ChunkPos, Chunk>, requested: set<ChunkPos>, frame: Frame, placed: seq<Placing>,
      air: RuntimeId)
    requires ReadUpTo(chunks, requested, Records(frame, placed), SHARD_COUNT, air)
    ensures Pruned(chunks, air) == ChunksOf(frame, placed, requested, air)
  {
    hide Shard, ReplayChunk, Replay, Records, WithoutAir;
    ReplayIsPerChunk(Blank(requested), Records(frame, placed), air);
    assert chunks == Replay(Blank(requested), Records(frame, placed), air);
  }

  function RequestedShards(positions: set<ChunkPos>): set<nat> {
    set c | c in positions :: Shard(c)
  }

  /** `get_chunks` through the spool: only the shards of the requested columns
      are read, in shard order, and the result is that of replaying the whole
      placement stream in order. */
  method GetChunks(requested: set<ChunkPos>, frame: Frame, files: map<nat, Bytes>, air: RuntimeId,
      ghost placed: seq<Placing>)
    returns (ok: bool, chunks: map<ChunkPos, Chunk>)
    requires Complete(files, frame, placed)
    ensures ok ==> chunks == ChunksOf(frame, placed, requested, air)
    ensures ok ==> forall c | c in requested ::
      c in chunks && Holds(chunks[c], c, frame.offset, air, p => AnswerAt(frame, placed, air, p))
  {
    ChunksHoldElements(frame, placed, requested, air);
    hide Complete, Holds, AnswerAt, Shard, Records, Replay, ReadUpTo, ChunksOf, InShard, Pruned, ContentOf;
    var shards := RequestedShards(requested);
    chunks := Blank(requested);
    NothingRead(requested, Records(frame, placed), air);
    for shard := 0 to SHARD_COUNT
      invariant ReadUpTo(chunks, requested, Records(frame, placed), shard, air)
    {
      if shard in shards {
        ok := *;  // opening the file can fail
        if !ok {
          return;
        }
        ShardRead(chunks, requested, Records(frame, placed), shard, air);
        ok, chunks := ReadShard(ContentOf(files, shard), frame, chunks, air, files, placed, shard);
      } else {
        ShardSkipped(chunks, requested, Records(frame, placed), shard, air);
      }
    }
    AllRead(chunks, requested, frame, placed, air);
    chunks := Pruned(chunks, air);
    ok := true;
  }

  lemma NothingRead(requested: set<ChunkPos>, records: seq<Placing>, air: RuntimeId)
    ensures ReadUpTo(Blank(requested), requested, records, 0, air)
  {
  }

  /** The fallback without a spool applies every placement as it is decoded, and
      gives the same answer. */
  method GetChunksDirectly(requested: set<ChunkPos>, frame: Frame, placed: seq<Placing>, air: RuntimeId)
    returns (chunks: map<ChunkPos, Chunk>)
    ensures chunks == ChunksOf(frame, placed, requested, air)
    ensures forall c | c in requested ::
      c in chunks && Holds(chunks[c], c, frame.offset, air, p => AnswerAt(frame, placed, air, p))
  {
    ChunksHoldElements(frame, placed, requested, air);
    hide Normalize, Apply, Pruned, Holds, AnswerAt;
    chunks := Blank(requested);
    for k := 0 to |placed|
      invariant chunks == Replay(Blank(requested), Records(frame, placed[..k]), air)
    {
      assert placed[..k + 1][..k] == placed[..k];
      var normalized := Normalize(frame, placed[k].pos);
      if normalized.Some? {
        var record := Placing(normalized.value, placed[k].id);
        ghost var before := Records(frame, placed[..k]);
        assert Records(frame, placed[..k + 1]) == before + [record] && (before + [record])[..|before|] == before;
        chunks := Apply(chunks, record, air);
      }
    }
    assert placed[..|placed|] == placed;
    chunks := Pruned(chunks, air);
  }
}
