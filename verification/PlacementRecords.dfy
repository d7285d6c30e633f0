/** The fixed-size placement records of the BDX spool, and what replaying them
    into chunks means. */
module PlacementRecords {
  import opened Options
  import opened Coordinates
  import opened StructureCells
  import opened ChunkCells
  import opened BdxBytes

  const RECORD_BYTES := 16
  const SHARD_COUNT := 1024

  /** How raw cursor positions become chunk coordinates: relative to the recovered
      minimum, then moved by the offset. */
  datatype Frame = Frame(min: BlockPos, offset: BlockPos, size: Size)

  /** `normalize_placement_coordinate`. */
  function NormalizeCoordinate(raw: int, minimum: int, offset: int, dimension: int): Option<int> {
    var source := raw - minimum;
    if dimension <= 0 || source < 0 || source >= dimension then None
    else if IsInt32(source + offset) then Some(source + offset)
    else None
  }

  /** `placement_coordinate_in_extent`. */
  predicate InExtent(value: int, offset: int, dimension: int) {
    dimension > 0 && offset <= value <= offset + dimension - 1
  }

  function Normalize(frame: Frame, raw: BlockPos): Option<BlockPos> {
    match (NormalizeCoordinate(raw.x, frame.min.x, frame.offset.x, frame.size.width),
           NormalizeCoordinate(raw.y, frame.min.y, frame.offset.y, frame.size.height),
           NormalizeCoordinate(raw.z, frame.min.z, frame.offset.z, frame.size.length))
    case (Some(x), Some(y), Some(z)) => Some(BlockPos(x, y, z))
    case _ => None
  }

  predicate Fits(frame: Frame, b: BlockPos) {
    InExtent(b.x, frame.offset.x, frame.size.width) && InExtent(b.y, frame.offset.y, frame.size.height)
    && InExtent(b.z, frame.offset.z, frame.size.length)
  }

  /** The records of a placement stream: the ones that normalise, in order. */
  function Records(frame: Frame, placed: seq<Placing>): seq<Placing> {
    if placed == [] then []
    else
      var before, last := Records(frame, placed[..|placed| - 1]), placed[|placed| - 1];
      match Normalize(frame, last.pos)
      case None => before
      case Some(pos) => before + [Placing(pos, last.id)]
  }

  /** A record survives the reader's range check, and the file format. */
  ghost predicate Storable(frame: Frame, record: Placing) {
    Fits(frame, record.pos) && IsInt32(record.pos.x) && IsInt32(record.pos.y) && IsInt32(record.pos.z)
  }

  lemma {:induction false} RecordsStorable(frame: Frame, placed: seq<Placing>)
    ensures forall i | 0 <= i < |Records(frame, placed)| :: Storable(frame, Records(frame, placed)[i])
  {
    if placed != [] {
      RecordsStorable(frame, placed[..|placed| - 1]);
    }
  }

  /** `write_u32_le` of a two's complement value. */
  function Word(value: int): (bytes: Bytes)
    ensures |bytes| == 4
  {
    var unsigned := value % 0x1_0000_0000;
    [unsigned % 0x100, unsigned / 0x100 % 0x100, unsigned / 0x1_0000 % 0x100, unsigned / 0x100_0000]
  }

  function SignedWord(value: nat): int {
    if value <= INT32_MAX then value else INT32_MIN + (value - 0x8000_0000)
  }

  function EncodeRecord(record: Placing): (bytes: Bytes)
    ensures |bytes| == RECORD_BYTES
  {
    Word(record.pos.x) + Word(record.pos.y) + Word(record.pos.z) + Word(record.id)
  }

  function DecodeRecord(bytes: Bytes, at: nat): Placing
    requires at + RECORD_BYTES <= |bytes|
  {
    Placing(
      BlockPos(SignedWord(Little32(bytes, at)), SignedWord(Little32(bytes, at + 4)),
        SignedWord(Little32(bytes, at + 8))),
      Little32(bytes, at + 12))
  }

  lemma WordRoundTrip(bytes: Bytes, at: nat, value: int)
    requires at + 4 <= |bytes| && bytes[at..at + 4] == Word(value)
    ensures Little32(bytes, at) == value % 0x1_0000_0000
    ensures IsInt32(value) ==> SignedWord(Little32(bytes, at)) == value
  {
    var word := Word(value);
    assert bytes[at] == word[0] && bytes[at + 1] == word[1] && bytes[at + 2] == word[2] && bytes[at + 3] == word[3] by {
      assert bytes[at..at + 4][0] == bytes[at] && bytes[at..at + 4][1] == bytes[at + 1];
      assert bytes[at..at + 4][2] == bytes[at + 2] && bytes[at..at + 4][3] == bytes[at + 3];
    }
    WordDigits(value % 0x1_0000_0000);
  }

  lemma WordDigits(unsigned: nat)
    requires unsigned < 0x1_0000_0000
    ensures unsigned == unsigned % 0x100 + unsigned / 0x100 % 0x100 * 0x100
      + (unsigned / 0x1_0000 % 0x100 + unsigned / 0x100_0000 * 0x100) * 0x1_0000
  {
  }

  /** Decoding a record gives back what was encoded. */
  lemma RecordRoundTrip(bytes: Bytes, at: nat, record: Placing)
    requires at + RECORD_BYTES <= |bytes| && bytes[at..at + RECORD_BYTES] == EncodeRecord(record)
    requires IsInt32(record.pos.x) && IsInt32(record.pos.y) && IsInt32(record.pos.z)
    ensures DecodeRecord(bytes, at) == record
  {
    hide Word, Little32, SignedWord;
    var code := EncodeRecord(record);
    assert bytes[at..at + 4] == bytes[at..at + RECORD_BYTES][0..4] == code[0..4] == Word(record.pos.x);
    assert bytes[at + 4..at + 8] == bytes[at..at + RECORD_BYTES][4..8] == code[4..8] == Word(record.pos.y);
    assert bytes[at + 8..at + 12] == bytes[at..at + RECORD_BYTES][8..12] == code[8..12] == Word(record.pos.z);
    assert bytes[at + 12..at + 16] == bytes[at..at + RECORD_BYTES][12..16] == code[12..16] == Word(record.id);
    WordRoundTrip(bytes, at, record.pos.x);
    WordRoundTrip(bytes, at + 4, record.pos.y);
    WordRoundTrip(bytes, at + 8, record.pos.z);
    WordRoundTrip(bytes, at + 12, record.id);
  }

  function EncodeRecords(records: seq<Placing>): (bytes: Bytes)
    ensures |bytes| == |records| * RECORD_BYTES
  {
    if records == [] then [] else EncodeRecords(records[..|records| - 1]) + EncodeRecord(records[|records| - 1])
  }

  lemma {:induction false} RecordAt(records: seq<Placing>, k: nat)
    requires k < |records|
    ensures EncodeRecords(records)[k * RECORD_BYTES..(k + 1) * RECORD_BYTES] == EncodeRecord(records[k])
  {
    var init := records[..|records| - 1];
    var bytes := EncodeRecords(records);
    assert bytes[..|init| * RECORD_BYTES] == EncodeRecords(init);
    if k < |init| {
      RecordAt(init, k);
      assert bytes[k * RECORD_BYTES..(k + 1) * RECORD_BYTES]
        == bytes[..|init| * RECORD_BYTES][k * RECORD_BYTES..(k + 1) * RECORD_BYTES];
    }
  }

  /** The mixing of `placement_shard`: only its being a function of the chunk
      column matters. */
  function Shard(chunk: ChunkPos): (shard: nat)
    ensures shard < SHARD_COUNT
  {
    var seed := ((chunk.x % 0x1_0000_0000) as bv64 << 32) ^ (chunk.z % 0x1_0000_0000) as bv64;
    var first := (seed ^ (seed >> 30)) * 0xbf58_476d_1ce4_e5b9;
    var second := (first ^ (first >> 27)) * 0x94d0_49bb_1331_11eb;
    ((second ^ (second >> 31)) as int) % SHARD_COUNT
  }

  /** Replaying a stream does to each requested chunk what its own records do. */
  lemma {:induction false} ReplayIsPerChunk(chunks: map<ChunkPos, Chunk>, records: seq<Placing>, air: RuntimeId)
    ensures Replay(chunks, records, air).Keys == chunks.Keys
    ensures forall c | c in chunks :: Replay(chunks, records, air)[c] == ReplayChunk(chunks[c], records, c, air)
  {
    hide ApplyTo;
    if records != [] {
      ReplayIsPerChunk(chunks, records[..|records| - 1], air);
    }
  }

  /** The records that go to one shard, in stream order. */
  function InShard(records: seq<Placing>, shard: nat): seq<Placing> {
    if records == [] then []
    else
      var before, last := InShard(records[..|records| - 1], shard), records[|records| - 1];
      if Shard(ChunkOfBlock(last.pos)) == shard then before + [last] else before
  }

  /** A chunk's own shard holds all its records in order; the others hold none. */
  lemma {:induction false} ShardDecidesChunk(chunk: Chunk, records: seq<Placing>, shard: nat, c: ChunkPos,
      air: RuntimeId)
    ensures ReplayChunk(chunk, InShard(records, shard), c, air)
      == if Shard(c) == shard then ReplayChunk(chunk, records, c, air) else chunk
  {
    hide ApplyTo, Shard;
    if records != [] {
      var init, last := records[..|records| - 1], records[|records| - 1];
      ShardDecidesChunk(chunk, init, shard, c, air);
      if Shard(ChunkOfBlock(last.pos)) == shard {
        assert InShard(records, shard)[..|InShard(init, shard)|] == InShard(init, shard);
      }
    }
  }

  lemma {:induction false} ShardKeepsStorable(frame: Frame, records: seq<Placing>, shard: nat)
    requires forall i | 0 <= i < |records| :: Storable(frame, records[i])
    ensures forall i | 0 <= i < |InShard(records, shard)| :: Storable(frame, InShard(records, shard)[i])
  {
    hide Storable, Shard;
    if records != [] {
      ShardKeepsStorable(frame, records[..|records| - 1], shard);
    }
  }

  predicate OnlyAir(layer: Layer, air: RuntimeId) {
    forall i | 0 <= i < |layer| :: layer[i] == air
  }

  /** Subchunks that ended up all air are dropped. */
  function WithoutAir(chunk: Chunk, air: RuntimeId): Chunk {
    map y | y in chunk && !OnlyAir(chunk[y], air) :: chunk[y]
  }

  function Pruned(chunks: map<ChunkPos, Chunk>, air: RuntimeId): map<ChunkPos, Chunk> {
    map c | c in chunks :: WithoutAir(chunks[c], air)
  }

  function Blank(requested: set<ChunkPos>): map<ChunkPos, Chunk> {
    map c | c in requested :: map[]
  }

  /** What `get_chunks` must return: the whole stream, air included, replayed in
      order into the requested chunks. */
  function ChunksOf(frame: Frame, placed: seq<Placing>, requested: set<ChunkPos>, air: RuntimeId): map<ChunkPos,
      Chunk>
  {
    Pruned(Replay(Blank(requested), Records(frame, placed), air), air)
  }

  lemma PruneCell(chunk: Chunk, air: RuntimeId, b: BlockPos)
    ensures CellIn(WithoutAir(chunk, air), b, air) == CellIn(chunk, b, air)
  {
  }

  /** Every cell of the result is the last placement there, whether air or not,
      and no returned subchunk is all air. */
  lemma ChunksHoldLastPlacements(frame: Frame, placed: seq<Placing>, requested: set<ChunkPos>, air: RuntimeId)
    ensures var chunks := ChunksOf(frame, placed, requested, air);
      && chunks.Keys == requested
      && (forall b | ChunkOfBlock(b) in requested ::
            CellIn(chunks[ChunkOfBlock(b)], b, air) == LastAt(Records(frame, placed), b, air))
      && (forall c, y | c in requested && y in chunks[c] :: !OnlyAir(chunks[c][y], air))
  {
    var records := Records(frame, placed);
    ReplayIsPerChunk(Blank(requested), records, air);
    hide Replay, ReplayChunk, Records, CellIn, OnlyAir;
    forall b | ChunkOfBlock(b) in requested
      ensures CellIn(ChunksOf(frame, placed, requested, air)[ChunkOfBlock(b)], b, air) == LastAt(records, b, air)
    {
      ReplayCell(records, air, b);
      PruneCell(ReplayChunk(map[], records, ChunkOfBlock(b), air), air, b);
    }
  }

  /** The last placement at a stream position, if any. */
  function LastPlacing(placed: seq<Placing>, b: BlockPos): Option<Placing> {
    if placed == [] then None
    else if placed[|placed| - 1].pos == b then Some(placed[|placed| - 1])
    else LastPlacing(placed[..|placed| - 1], b)
  }

  function IdOr(last: Option<Placing>, air: RuntimeId): RuntimeId {
    if last == None then air else last.value.id
  }

  /** What the stream makes of structure position `p`: the last placement at `min + p`.
      Outside the box, and where the offset leads beyond 32 bits, there is nothing. */
  function AnswerAt(frame: Frame, placed: seq<Placing>, air: RuntimeId, p: BlockPos): RuntimeId {
    if InBounds(frame.size, p) && IsInt32(p.x + frame.offset.x) && IsInt32(p.y + frame.offset.y)
       && IsInt32(p.z + frame.offset.z)
    then IdOr(LastPlacing(placed, BlockPos(frame.min.x + p.x, frame.min.y + p.y, frame.min.z + p.z)), air)
    else air
  }

  lemma {:induction false} RecordsAnswer(frame: Frame, placed: seq<Placing>, air: RuntimeId, b: BlockPos)
    ensures LastAt(Records(frame, placed), b, air)
      == AnswerAt(frame, placed, air,
           BlockPos(b.x - frame.offset.x, b.y - frame.offset.y, b.z - frame.offset.z))
  {
    if placed != [] {
      var init, last := placed[..|placed| - 1], placed[|placed| - 1];
      RecordsAnswer(frame, init, air, b);
      var before := Records(frame, init);
      if Normalize(frame, last.pos).Some? {
        var record := Placing(Normalize(frame, last.pos).value, last.id);
        assert (before + [record])[..|before|] == before;
      }
    }
  }

  /** Every layer element of the result is the last placement at the stream position
      it comes from; a missing layer would be all air. */
  lemma ChunksHoldElements(frame: Frame, placed: seq<Placing>, requested: set<ChunkPos>, air: RuntimeId)
    ensures var chunks := ChunksOf(frame, placed, requested, air);
      forall c | c in requested ::
        c in chunks && Holds(chunks[c], c, frame.offset, air, p => AnswerAt(frame, placed, air, p))
  {
    ChunksHoldLastPlacements(frame, placed, requested, air);
    hide ChunksOf, Records, AnswerAt, CellIn, LastAt;
    var chunks := ChunksOf(frame, placed, requested, air);
    forall c | c in requested
      ensures c in chunks && Holds(chunks[c], c, frame.offset, air, p => AnswerAt(frame, placed, air, p))
    {
      forall b | ChunkOfBlock(b) == c
        ensures CellIn(chunks[c], b, air)
          == AnswerAt(frame, placed, air,
               BlockPos(b.x - frame.offset.x, b.y - frame.offset.y, b.z - frame.offset.z))
      {
        RecordsAnswer(frame, placed, air, b);
      }
      CellsAreElements(chunks[c], c, frame.offset, air, p => AnswerAt(frame, placed, air, p));
    }
  }
}
