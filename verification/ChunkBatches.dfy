/** The producers of `ChunkStream::from_structure` and `from_structure_grid`: the
    batches they cut their positions into. */
module ChunkBatches {
  import opened Coordinates

  function Flatten(batches: seq<seq<ChunkPos>>): seq<ChunkPos> {
    if batches == [] then [] else Flatten(batches[..|batches| - 1]) + batches[|batches| - 1]
  }

  lemma FlattenMore(batches: seq<seq<ChunkPos>>, batch: seq<ChunkPos>)
    ensures Flatten(batches + [batch]) == Flatten(batches) + batch
  {
    assert (batches + [batch])[..|batches|] == batches;
  }

  lemma NothingFlattened()
    ensures Flatten([]) == []
  {
  }

  lemma Reassociated(a: seq<ChunkPos>, b: seq<ChunkPos>, c: seq<ChunkPos>, d: seq<ChunkPos>, p: ChunkPos)
    requires a + b == c + d
    ensures a + (b + [p]) == c + (d + [p])
  {
    assert a + (b + [p]) == (a + b) + [p] && c + (d + [p]) == (c + d) + [p];
  }

  /** No batch is empty or larger than asked for, and only the last is smaller. */
  predicate Even(batches: seq<seq<ChunkPos>>, batchSize: nat) {
    forall i | 0 <= i < |batches| :: 0 < |batches[i]| <= batchSize && (i < |batches| - 1 ==> |batches[i]| == batchSize)
  }

  function GridRow(z: nat, count: nat): seq<ChunkPos> {
    if count == 0 then [] else GridRow(z, count - 1) + [ChunkPos(count - 1, z)]
  }

  /** The canonical order: row by row. */
  function Grid(width: nat, count: nat): seq<ChunkPos> {
    if count == 0 then [] else Grid(width, count - 1) + GridRow(count - 1, width)
  }

  /** A list holds each position of a rectangle exactly once. */
  ghost predicate CoversOnce(positions: seq<ChunkPos>, width: nat, count: nat) {
    && (forall c :: c in positions <==> 0 <= c.x < width && 0 <= c.z < count)
    && (forall i, j | 0 <= i < j < |positions| :: positions[i] != positions[j])
  }

  lemma {:induction false} RowMembers(z: nat, count: nat)
    ensures forall c :: c in GridRow(z, count) <==> 0 <= c.x < count && c.z == z
    ensures forall i, j | 0 <= i < j < |GridRow(z, count)| :: GridRow(z, count)[i] != GridRow(z, count)[j]
  {
    if count > 0 {
      RowMembers(z, count - 1);
    }
  }

  lemma {:induction false} GridCoversOnce(width: nat, count: nat)
    ensures CoversOnce(Grid(width, count), width, count)
  {
    if count > 0 {
      GridCoversOnce(width, count - 1);
      RowMembers(count - 1, width);
      var before, row := Grid(width, count - 1), GridRow(count - 1, width);
      forall i, j | 0 <= i < j < |before + row|
        ensures (before + row)[i] != (before + row)[j]
      {
        if i < |before| <= j {
          assert (before + row)[i] in before && (before + row)[j] in row;
        }
      }
    }
  }

  /** The grid producer: the batch fills up across rows and is handed over when
      full, the rest at the end. */
  method GridBatches(xCount: nat, zCount: nat, batchSize: nat) returns (batches: seq<seq<ChunkPos>>)
    requires batchSize >= 1
    ensures Flatten(batches) == Grid(xCount, zCount) && CoversOnce(Flatten(batches), xCount, zCount)
    ensures Even(batches, batchSize)
  {
    hide Flatten, CoversOnce;
    GridCoversOnce(xCount, zCount);
    NothingFlattened();
    batches := [];
    var batch: seq<ChunkPos> := [];
    for z := 0 to zCount
      invariant Flatten(batches) + batch == Grid(xCount, z)
      invariant |batch| < batchSize && forall i | 0 <= i < |batches| :: |batches[i]| == batchSize
    {
      for x := 0 to xCount
        invariant Flatten(batches) + batch == Grid(xCount, z) + GridRow(z, x)
        invariant |batch| < batchSize && forall i | 0 <= i < |batches| :: |batches[i]| == batchSize
      {
        assert GridRow(z, x + 1) == GridRow(z, x) + [ChunkPos(x, z)];
        Reassociated(Flatten(batches), batch, Grid(xCount, z), GridRow(z, x), ChunkPos(x, z));
        batch := batch + [ChunkPos(x, z)];
        if |batch| >= batchSize {
          FlattenMore(batches, batch);
          batches := batches + [batch];
          batch := [];
          assert Flatten(batches) + [] == Flatten(batches);
        }
      }
    }
    if batch != [] {
      FlattenMore(batches, batch);
      batches := batches + [batch];
    } else {
      assert Flatten(batches) + [] == Flatten(batches);
    }
  }

  /** The producer over a list of positions: consecutive slices. */
  method PositionBatches(positions: seq<ChunkPos>, batchSize: nat) returns (batches: seq<seq<ChunkPos>>)
    requires batchSize >= 1
    ensures Flatten(batches) == positions && Even(batches, batchSize)
  {
    batches := [];
    var begin := 0;
    while begin < |positions|
      invariant 0 <= begin
      invariant Flatten(batches) == positions[..if begin <= |positions| then begin else |positions|]
      invariant Even(batches, batchSize)
        && (begin < |positions| ==> forall i | 0 <= i < |batches| :: |batches[i]| == batchSize)
      decreases |positions| - begin
    {
      var count := if batchSize <= |positions| - begin then batchSize else |positions| - begin;
      FlattenMore(batches, positions[begin..begin + count]);
      batches := batches + [positions[begin..begin + count]];
      begin := begin + batchSize;
    }
  }
}
