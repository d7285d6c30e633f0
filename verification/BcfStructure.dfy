/** `BcfStructure`: a file of coloured cuboids, read in two passes and materialised
    chunk by chunk without expanding it. */
module BcfStructures {
  import opened Options
  import opened Arithmetic
  import opened Coordinates
  import opened StructureCells
  import opened ChunkCells

  const MAX_TABLE_ENTRIES := 0x100_0000
  const MAX_EXPANDED_BLOCKS := 0x1000_0000
  const MAX_RETAINED_REGIONS := 4_000_000

  type Short = v: int | -0x8000 <= v < 0x8000

  datatype Corner = Corner(x: Short, y: Short, z: Short)

  datatype Record = Record(paletteId: nat, first: Corner, second: Corner)

  datatype Section = Section(origin: Corner, records: seq<Record>)

  type Palette = map<nat, RuntimeId>

  /** A cuboid of one block; both corners belong to it. */
  datatype Region = Region(runtime: RuntimeId, minimum: BlockPos, maximum: BlockPos)

  /** A record that is neither unknown nor air. */
  datatype Kept = Kept(runtime: RuntimeId, origin: Corner, first: Corner, second: Corner)
  {
    function Minimum(): BlockPos {
      BlockPos(
        origin.x + Smaller(first.x, second.x), origin.y + Smaller(first.y, second.y),
          origin.z + Smaller(first.z, second.z))
    }

    function Maximum(): BlockPos {
      BlockPos(
        origin.x + Larger(first.x, second.x), origin.y + Larger(first.y, second.y),
          origin.z + Larger(first.z, second.z))
    }

    function Volume(): (volume: int)
    {
      (Maximum().x - Minimum().x + 1) * (Maximum().y - Minimum().y + 1) * (Maximum().z - Minimum().z + 1)
    }

    /** What the block counter adds: each span counted from the first corner. */
    function Counted(): int {
      Span(first.x, second.x) * Span(first.y, second.y) * Span(first.z, second.z)
    }

    predicate Ordered() {
      first.x <= second.x && first.y <= second.y && first.z <= second.z
    }

    predicate Covers(b: BlockPos) {
      && Minimum().x <= b.x <= Maximum().x && Minimum().y <= b.y <= Maximum().y && Minimum().z <= b.z <= Maximum().z
    }
  }

  function Span(first: int, second: int): nat {
    if second - first + 1 < 0 then first - second - 1 else second - first + 1
  }

  function RecordKept(origin: Corner, record: Record, palette: Palette, air: RuntimeId): seq<Kept> {
    if record.paletteId !in palette || palette[record.paletteId] == 0 || palette[record.paletteId] == air then []
    else [Kept(palette[record.paletteId], origin, record.first, record.second)]
  }

  function SectionKept(section: Section, count: nat, palette: Palette, air: RuntimeId): seq<Kept>
    requires count <= |section.records|
  {
    if count == 0 then []
    else
      SectionKept(section, count - 1, palette, air)
      + RecordKept(section.origin, section.records[count - 1], palette, air)
  }

  function AllKept(sections: seq<Section>, count: nat, palette: Palette, air: RuntimeId): seq<Kept>
    requires count <= |sections|
  {
    if count == 0 then []
    else
      AllKept(sections, count - 1, palette, air)
      + SectionKept(sections[count - 1], |sections[count - 1].records|, palette, air)
  }

  /** The records kept before record `record` of section `section`. */
  function KeptBefore(sections: seq<Section>, section: nat, record: nat, palette: Palette, air: RuntimeId): seq<Kept>
    requires section < |sections| && record <= |sections[section].records|
  {
    AllKept(sections, section, palette, air) + SectionKept(sections[section], record, palette, air)
  }

  function TotalVolume(kept: seq<Kept>): int {
    if kept == [] then 0 else TotalVolume(kept[..|kept| - 1]) + kept[|kept| - 1].Volume()
  }

  function TotalCounted(kept: seq<Kept>): int {
    if kept == [] then 0 else TotalCounted(kept[..|kept| - 1]) + kept[|kept| - 1].Counted()
  }

  /** The tight bounds of a list of cuboids. */
  ghost predicate Bounds(kept: seq<Kept>, lo: BlockPos, hi: BlockPos) {
    && (forall k :: k in kept ==> lo.x <= k.Minimum().x && lo.y <= k.Minimum().y && lo.z <= k.Minimum().z)
    && (forall k :: k in kept ==> k.Maximum().x <= hi.x && k.Maximum().y <= hi.y && k.Maximum().z <= hi.z)
    && (exists k :: k in kept && k.Minimum().x == lo.x) && (exists k :: k in kept && k.Minimum().y == lo.y)
    && (exists k :: k in kept && k.Minimum().z == lo.z) && (exists k :: k in kept && k.Maximum().x == hi.x)
    && (exists k :: k in kept && k.Maximum().y == hi.y) && (exists k :: k in kept && k.Maximum().z == hi.z)
  }

  function Rebased(kept: seq<Kept>, base: BlockPos): seq<Region> {
    seq(|kept|, i requires 0 <= i < |kept| => RebasedOne(kept[i], base))
  }

  function RebasedOne(kept: Kept, base: BlockPos): Region {
    Region(kept.runtime, Back(kept.Minimum(), base), Back(kept.Maximum(), base))
  }

  /** The last record covering a position of the file decides its block. */
  function LastKept(kept: seq<Kept>, b: BlockPos, air: RuntimeId): RuntimeId {
    if kept == [] then air
    else if kept[|kept| - 1].Covers(b) then kept[|kept| - 1].runtime
    else LastKept(kept[..|kept| - 1], b, air)
  }

  predicate Covers(region: Region, b: BlockPos) {
    && region.minimum.x <= b.x <= region.maximum.x && region.minimum.y <= b.y <= region.maximum.y
    && region.minimum.z <= b.z <= region.maximum.z
  }

  function LastCovering(regions: seq<Region>, b: BlockPos, air: RuntimeId): RuntimeId {
    if regions == [] then air
    else if Covers(regions[|regions| - 1], b) then regions[|regions| - 1].runtime
    else LastCovering(regions[..|regions| - 1], b, air)
  }

  /** Rebasing keeps the meaning: the block at `b` is the one the file puts at
      `base + b`. */
  lemma {:induction false} RebasedMeansTheSame(kept: seq<Kept>, base: BlockPos, b: BlockPos, air: RuntimeId)
    ensures LastCovering(Rebased(kept, base), b, air) == LastKept(kept, Moved(b, base), air)
  {
    if kept != [] {
      var init := kept[..|kept| - 1];
      RebasedMeansTheSame(init, base, b, air);
      assert Rebased(kept, base)[..|kept| - 1] == Rebased(init, base);
    }
  }

  lemma VolumeIsPositive(kept: Kept)
    ensures 1 <= kept.Volume() && 0 <= kept.Counted() <= kept.Volume()
    ensures kept.Counted() == kept.Volume() <==> kept.Ordered()
  {
    var width, height, length :=
      kept.Maximum().x - kept.Minimum().x + 1, kept.Maximum().y - kept.Minimum().y + 1,
        kept.Maximum().z - kept.Minimum().z + 1;
    ProductOrder(Span(kept.first.x, kept.second.x), width, Span(kept.first.y, kept.second.y), height,
      Span(kept.first.z, kept.second.z), length);
  }

  lemma ProductOrder(a: int, a': int, b: int, b': int, c: int, c': int)
    requires 0 <= a <= a' && 0 <= b <= b' && 0 <= c <= c' && 0 < a' && 0 < b' && 0 < c'
    ensures 1 <= a' * b' * c' && 0 <= a * b * c <= a' * b' * c'
    ensures a * b * c == a' * b' * c' <==> a == a' && b == b' && c == c'
  {
    Product(a, a', b, b');
    Product(a * b, a' * b', c, c');
  }

  lemma Product(a: int, a': int, b: int, b': int)
    requires 0 <= a <= a' && 0 <= b <= b' && 0 < a' && 0 < b'
    ensures 1 <= a' * b' && 0 <= a * b <= a' * b'
    ensures a * b == a' * b' <==> a == a' && b == b'
  {
    Multiples(b, b', a');
    Multiples(a, a', b);
    Multiples(0, a', b');
    Multiples(0, a, b);
    if a < a' && b == b' {
      Multiples(a + 1, a', b');
    }
  }

  /** The block counter is the number of expanded blocks exactly when every record
      names its smaller corner first on each axis; it is never larger. */
  lemma {:induction false} CountIsExactExactlyWhen(kept: seq<Kept>)
    ensures |kept| <= TotalVolume(kept) && 0 <= TotalCounted(kept) <= TotalVolume(kept)
    ensures TotalCounted(kept) == TotalVolume(kept) <==> forall k :: k in kept ==> k.Ordered()
  {
    if kept != [] {
      var init, last := kept[..|kept| - 1], kept[|kept| - 1];
      CountIsExactExactlyWhen(init);
      VolumeIsPositive(last);
      assert forall k :: k in kept <==> k in init || k == last;
    }
  }

  /** A concrete case: two blocks named from the larger corner count as none. */
  lemma ReversedRecordIsMiscounted(runtime: RuntimeId)
    ensures var kept := [Kept(runtime, Corner(0, 0, 0), Corner(1, 0, 0), Corner(0, 0, 0))];
      TotalVolume(kept) == 2 && TotalCounted(kept) == 0
  {
    var k := Kept(runtime, Corner(0, 0, 0), Corner(1, 0, 0), Corner(0, 0, 0));
    assert [k][..0] == [];
    assert k.Volume() == 2 && k.Counted() == 0;
  }

  lemma {:induction false} TotalGrows(kept: seq<Kept>, more: seq<Kept>)
    ensures TotalVolume(kept) <= TotalVolume(kept + more)
  {
    if more == [] {
      assert kept + more == kept;
    } else {
      TotalGrows(kept, more[..|more| - 1]);
      VolumeIsPositive(more[|more| - 1]);
      assert (kept + more)[..|kept + more| - 1] == kept + more[..|more| - 1];
    }
  }

  lemma {:induction false} SectionKeptGrows(section: Section, count: nat, total: nat, palette: Palette, air: RuntimeId)
    requires count <= total <= |section.records|
    ensures SectionKept(section, count, palette, air) <= SectionKept(section, total, palette, air)
    decreases total
  {
    if count < total {
      SectionKeptGrows(section, count, total - 1, palette, air);
    }
  }

  lemma {:induction false} AllKeptGrows(sections: seq<Section>, count: nat, total: nat, palette: Palette,
      air: RuntimeId)
    requires count <= total <= |sections|
    ensures AllKept(sections, count, palette, air) <= AllKept(sections, total, palette, air)
    decreases total
  {
    if count < total {
      AllKeptGrows(sections, count, total - 1, palette, air);
    }
  }

  predicate Fits(kept: seq<Kept>) {
    TotalVolume(kept) <= MAX_EXPANDED_BLOCKS && |kept| <= MAX_RETAINED_REGIONS
  }

  lemma FitsPrefix(kept: seq<Kept>, all: seq<Kept>)
    requires kept <= all
    ensures Fits(all) ==> Fits(kept)
  {
    TotalGrows(kept, all[|kept|..]);
    assert kept + all[|kept|..] == all;
  }

  predicate TablesFit(sections: seq<Section>) {
    forall s :: s in sections ==> |s.records| <= MAX_TABLE_ENTRIES
  }

  /** One more cuboid in the bounds. */
  lemma BoundsGrow(kept: seq<Kept>, k: Kept, lo: BlockPos, hi: BlockPos)
    requires Bounds(kept, lo, hi)
    ensures Bounds(kept + [k],
      BlockPos(Smaller(lo.x, k.Minimum().x), Smaller(lo.y, k.Minimum().y), Smaller(lo.z, k.Minimum().z)),
      BlockPos(Larger(hi.x, k.Maximum().x), Larger(hi.y, k.Maximum().y), Larger(hi.z, k.Maximum().z)))
  {
    hide k.Minimum, k.Maximum;
    assert forall e :: e in kept ==> e in kept + [k];
    assert k in kept + [k];
  }

  lemma BoundsStart(k: Kept)
    ensures Bounds([k], k.Minimum(), k.Maximum())
  {
    hide k.Minimum, k.Maximum;
    assert k in [k];
  }

  /** Sixteen-bit corners keep every size far inside int32. */
  lemma BoundsAreSmall(kept: seq<Kept>, lo: BlockPos, hi: BlockPos)
    requires Bounds(kept, lo, hi)
    ensures 0 <= hi.x - lo.x < 0x4_0000 && 0 <= hi.y - lo.y < 0x4_0000 && 0 <= hi.z - lo.z < 0x4_0000
  {
  }

  /** Rebased regions are upright and lie inside the size. */
  predicate Contained(r: Region, size: Size) {
    && 0 <= r.minimum.x <= r.maximum.x < size.width && 0 <= r.minimum.y <= r.maximum.y < size.height
    && 0 <= r.minimum.z <= r.maximum.z < size.length
  }

  lemma RebasedIsContained(kept: seq<Kept>, lo: BlockPos, hi: BlockPos)
    requires Bounds(kept, lo, hi)
    ensures forall r :: r in Rebased(kept, lo) ==> Contained(r, Size(hi.x - lo.x + 1, hi.y - lo.y + 1, hi.z - lo.z + 1))
  {
    forall r | r in Rebased(kept, lo)
      ensures Contained(r, Size(hi.x - lo.x + 1, hi.y - lo.y + 1, hi.z - lo.z + 1))
    {
      var i :| 0 <= i < |kept| && r == RebasedOne(kept[i], lo);
      assert kept[i] in kept;
    }
  }

  lemma {:induction false} NothingOutside(regions: seq<Region>, size: Size, b: BlockPos, air: RuntimeId)
    requires !InBounds(size, b) && forall r :: r in regions ==> Contained(r, size)
    ensures LastCovering(regions, b, air) == air
  {
    if regions != [] {
      NothingOutside(regions[..|regions| - 1], size, b, air);
      assert Contained(regions[|regions| - 1], size);
    }
  }

  class BcfStructure {
    const air: RuntimeId
    const palette: Palette

    var regions: seq<Region>
    var size: Size
    var offset: BlockPos
    var nonAir: nat

    // The variables of `read` that its two passes share.
    var populated: bool
    var boundsMin: BlockPos
    var boundsMax: BlockPos
    var expanded: nat
    var counted: nat

    constructor (air: RuntimeId, palette: Palette)
      ensures regions == [] && offset == BlockPos(0, 0, 0) && this.air == air && this.palette == palette
    {
      this.air, this.palette := air, palette;
      regions, size, offset, nonAir := [], Size(0, 0, 0), BlockPos(0, 0, 0), 0;
      populated, boundsMin, boundsMax, expanded, counted := false, BlockPos(0, 0, 0), BlockPos(0, 0, 0), 0, 0;
    }

    /** Where a pass stands once it has met the records `kept`. */
    ghost predicate Progress(materialize: bool, kept: seq<Kept>)
      reads this
    {
      if materialize then regions == Rebased(kept, boundsMin) && |kept| <= MAX_RETAINED_REGIONS
      else
        && populated == (kept != []) && (populated ==> Bounds(kept, boundsMin, boundsMax))
        && expanded == TotalVolume(kept) && nonAir == TotalCounted(kept) && counted == |kept| && Fits(kept)
    }

    predicate Accepted(materialize: bool, kept: seq<Kept>) {
      if materialize then |kept| <= MAX_RETAINED_REGIONS else Fits(kept)
    }

    lemma NothingAccepted(materialize: bool)
      ensures Accepted(materialize, [])
    {
    }

    /** The first pass: one record measured. The saturating counter never saturates. */
    method Measure(k: Kept, ghost kept: seq<Kept>) returns (ok: bool)
      requires Progress(false, kept)
      modifies this`populated, this`boundsMin, this`boundsMax, this`expanded, this`nonAir, this`counted
      ensures ok == Fits(kept + [k])
      ensures ok ==> Progress(false, kept + [k])
    {
      hide k.Minimum, k.Maximum, k.Volume, k.Counted, Bounds;
      VolumeIsPositive(k);
      CountIsExactExactlyWhen(kept);
      assert (kept + [k])[..|kept + [k]| - 1] == kept;
      var volume := k.Volume();
      if volume > MAX_EXPANDED_BLOCKS || expanded > MAX_EXPANDED_BLOCKS - volume {
        return false;
      }
      expanded := expanded + volume;
      nonAir := Smaller(nonAir + k.Counted(), UINT64_MAX);
      if !populated {
        BoundsStart(k);
        assert kept + [k] == [k];
        populated, boundsMin, boundsMax := true, k.Minimum(), k.Maximum();
      } else {
        BoundsGrow(kept, k, boundsMin, boundsMax);
        boundsMin := BlockPos(
          Smaller(boundsMin.x, k.Minimum().x), Smaller(boundsMin.y, k.Minimum().y),
            Smaller(boundsMin.z, k.Minimum().z));
        boundsMax := BlockPos(
          Larger(boundsMax.x, k.Maximum().x), Larger(boundsMax.y, k.Maximum().y), Larger(boundsMax.z, k.Maximum().z));
      }
      if counted >= MAX_RETAINED_REGIONS {
        return false;
      }
      counted := counted + 1;
      ok := true;
    }

    /** One kept record in either pass. */
    method ScanRecord(materialize: bool, k: Kept, ghost kept: seq<Kept>) returns (ok: bool)
      requires Progress(materialize, kept)
      modifies this`populated, this`boundsMin, this`boundsMax, this`expanded, this`nonAir, this`counted, this`regions
      ensures ok == Accepted(materialize, kept + [k])
      ensures ok ==> Progress(materialize, kept + [k])
      ensures materialize ==> boundsMin == old(boundsMin) && boundsMax == old(boundsMax) && nonAir == old(nonAir)
      ensures !materialize ==> regions == old(regions)
    {
      hide Fits, Bounds, RebasedOne, k.Minimum, k.Maximum;
      if materialize {
        if |regions| >= MAX_RETAINED_REGIONS {
          return false;
        }
        regions := regions + [RebasedOne(k, boundsMin)];
        assert regions == Rebased(kept + [k], boundsMin);
        ok := true;
      } else {
        ok := Measure(k, kept);
      }
    }

    /** One pass over all sections, whose records are visited in file order. */
    method ScanSections(sections: seq<Section>, materialize: bool) returns (ok: bool)
      requires Progress(materialize, [])
      modifies this`populated, this`boundsMin, this`boundsMax, this`expanded, this`nonAir, this`counted, this`regions
      ensures ok <==> TablesFit(sections) && Accepted(materialize, AllKept(sections, |sections|, palette, air))
      ensures ok ==> Progress(materialize, AllKept(sections, |sections|, palette, air))
      ensures materialize ==> boundsMin == old(boundsMin) && boundsMax == old(boundsMax) && nonAir == old(nonAir)
      ensures !materialize ==> regions == old(regions)
    {
      hide Progress, Accepted, SectionKept;
      NothingAccepted(materialize);
      for s := 0 to |sections|
        invariant TablesFit(sections[..s])
        invariant Accepted(materialize, AllKept(sections, s, palette, air))
        invariant Progress(materialize, AllKept(sections, s, palette, air))
        invariant materialize ==> boundsMin == old(boundsMin) && boundsMax == old(boundsMax) && nonAir == old(nonAir)
        invariant !materialize ==> regions == old(regions)
      {
        if |sections[s].records| > MAX_TABLE_ENTRIES {
          return false;
        }
        var scanned := ScanSection(sections, s, materialize);
        AcceptedPrefix(sections, s, materialize);
        if !scanned {
          return false;
        }
        assert sections[..s + 1] == sections[..s] + [sections[s]];
      }
      assert sections[..|sections|] == sections;
      ok := true;
    }

    method ScanSection(sections: seq<Section>, s: nat, materialize: bool) returns (ok: bool)
      requires s < |sections| && Progress(materialize, AllKept(sections, s, palette, air))
      requires Accepted(materialize, AllKept(sections, s, palette, air))
      modifies this`populated, this`boundsMin, this`boundsMax, this`expanded, this`nonAir, this`counted, this`regions
      ensures ok == Accepted(materialize, AllKept(sections, s + 1, palette, air))
      ensures ok ==> Progress(materialize, AllKept(sections, s + 1, palette, air))
      ensures materialize ==> boundsMin == old(boundsMin) && boundsMax == old(boundsMax) && nonAir == old(nonAir)
      ensures !materialize ==> regions == old(regions)
    {
      hide Progress, Accepted, AllKept, SectionKept, RecordKept;
      var section := sections[s];
      ghost var before := AllKept(sections, s, palette, air);
      SectionEnds(sections, s);
      for r := 0 to |section.records|
        invariant Accepted(materialize, before + SectionKept(section, r, palette, air))
        invariant Progress(materialize, before + SectionKept(section, r, palette, air))
        invariant materialize ==> boundsMin == old(boundsMin) && boundsMax == old(boundsMax) && nonAir == old(nonAir)
        invariant !materialize ==> regions == old(regions)
      {
        var record := section.records[r];
        ghost var kept := before + SectionKept(section, r, palette, air);
        RecordStep(sections, s, r, materialize);
        if record.paletteId !in palette || palette[record.paletteId] == 0 || palette[record.paletteId] == air {
          continue;
        }
        var scanned := ScanRecord(materialize,
          Kept(palette[record.paletteId], section.origin, record.first, record.second), kept);
        if !scanned {
          return false;
        }
      }
      ok := true;
    }

    lemma SectionEnds(sections: seq<Section>, s: nat)
      requires s < |sections|
      ensures var section, before := sections[s], AllKept(sections, s, palette, air);
        && before + SectionKept(section, 0, palette, air) == before
        && before + SectionKept(section, |section.records|, palette, air) == AllKept(sections, s + 1, palette, air)
    {
      assert AllKept(sections, s, palette, air) + [] == AllKept(sections, s, palette, air);
    }

    /** What the record at `r` adds, and that a refused prefix refuses the section. */
    lemma RecordStep(sections: seq<Section>, s: nat, r: nat, materialize: bool)
      requires s < |sections| && r < |sections[s].records|
      ensures var record, before := sections[s].records[r], AllKept(sections, s, palette, air);
        var kept, next := before + SectionKept(sections[s], r, palette, air),
          before + SectionKept(sections[s], r + 1, palette, air);
        && (if record.paletteId !in palette || palette[record.paletteId] == 0 || palette[record.paletteId] == air
            then next == kept
            else next == kept + [Kept(palette[record.paletteId], sections[s].origin, record.first, record.second)])
        && (Accepted(materialize, AllKept(sections, s + 1, palette, air)) ==> Accepted(materialize, next))
    {
      hide Fits;
      var section, before := sections[s], AllKept(sections, s, palette, air);
      assert before + SectionKept(section, r, palette, air) + [] == before + SectionKept(section, r, palette, air);
      SectionKeptGrows(section, r + 1, |section.records|, palette, air);
      FitsPrefix(before + SectionKept(section, r + 1, palette, air), AllKept(sections, s + 1, palette, air));
    }

    lemma AcceptedPrefix(sections: seq<Section>, s: nat, materialize: bool)
      requires s < |sections|
      ensures Accepted(materialize, AllKept(sections, |sections|, palette, air))
        ==> Accepted(materialize, AllKept(sections, s + 1, palette, air))
    {
      hide Fits;
      AllKeptGrows(sections, s + 1, |sections|, palette, air);
      FitsPrefix(AllKept(sections, s + 1, palette, air), AllKept(sections, |sections|, palette, air));
    }

    /** Reading succeeds exactly when some record is kept and the limits hold; the
        regions are then the kept records, in order, moved so that their tight bounds
        start at the origin. */
    method Read(sections: seq<Section>) returns (ok: bool)
      modifies this
      ensures var kept := AllKept(sections, |sections|, palette, air);
        && (ok <==> TablesFit(sections) && kept != [] && Fits(kept))
        && (ok ==>
          && Bounds(kept, boundsMin, boundsMax) && regions == Rebased(kept, boundsMin)
          && nonAir == TotalCounted(kept) && offset == BlockPos(0, 0, 0)
          && size == Size(boundsMax.x - boundsMin.x + 1, boundsMax.y - boundsMin.y + 1, boundsMax.z - boundsMin.z + 1))
    {
      hide AllKept, Bounds, TablesFit, Rebased;
      regions, size, offset, nonAir := [], Size(0, 0, 0), BlockPos(0, 0, 0), 0;
      populated, expanded, counted := false, 0, 0;
      ghost var kept := AllKept(sections, |sections|, palette, air);
      var measured := ScanSections(sections, false);
      if !measured || !populated || counted == 0 {
        return false;
      }
      BoundsAreSmall(kept, boundsMin, boundsMax);
      var width, height, length :=
        boundsMax.x - boundsMin.x + 1, boundsMax.y - boundsMin.y + 1, boundsMax.z - boundsMin.z + 1;
      if width > INT32_MAX || height > INT32_MAX || length > INT32_MAX {
        return false;
      }
      size := Size(width, height, length);
      RebasedNothing(boundsMin);
      ok := ScanSections(sections, true);
      assert ok;
    }

    /** The region meets the chunk column. */
    predicate Meets(region: Region, c: ChunkPos)
      reads this`offset
    {
      && Larger(region.minimum.x + offset.x, c.x * 16) <= Smaller(region.maximum.x + offset.x, c.x * 16 + 15)
      && Larger(region.minimum.z + offset.z, c.z * 16) <= Smaller(region.maximum.z + offset.z, c.z * 16 + 15)
    }

    predicate TooTall(region: Region)
      reads this`offset
    {
      region.minimum.y + offset.y < INT32_MIN || region.maximum.y + offset.y > INT32_MAX
    }

    /** The column shows the last of the regions that covers each position. */
    ghost predicate ShowsLast(chunk: Chunk, c: ChunkPos, list: seq<Region>)
      reads this`offset
    {
      forall b | ChunkOfBlock(b) == c :: CellIn(chunk, b, air) == LastCovering(list, Back(b, offset), air)
    }

    /** One chunk: regions are painted in source order. It fails exactly when the
        offset moves a region of this column out of the y range. */
    method GetChunk(c: ChunkPos) returns (chunk: Option<Chunk>)
      requires forall r :: r in regions ==> r.minimum.y <= r.maximum.y
      ensures chunk == None <==> exists r :: r in regions && Meets(r, c) && TooTall(r)
      ensures chunk.Some? ==> ShowsLast(chunk.value, c, regions)
      ensures var list := regions;
        chunk.Some? ==> Holds(chunk.value, c, offset, air, p => LastCovering(list, p, air))
    {
      chunk := PaintRegions(c);
      hide ShowsLast;
      if chunk.Some? {
        LastElements(chunk.value, c, regions);
      }
    }

    lemma LastElements(chunk: Chunk, c: ChunkPos, list: seq<Region>)
      requires ShowsLast(chunk, c, list)
      ensures Holds(chunk, c, offset, air, p => LastCovering(list, p, air))
    {
      hide CellIn, LastCovering, ChunkOfBlock;
      CellsAreElements(chunk, c, offset, air, p => LastCovering(list, p, air));
    }

    method PaintRegions(c: ChunkPos) returns (chunk: Option<Chunk>)
      requires forall r :: r in regions ==> r.minimum.y <= r.maximum.y
      ensures chunk == None <==> exists r :: r in regions && Meets(r, c) && TooTall(r)
      ensures chunk.Some? ==> ShowsLast(chunk.value, c, regions)
    {
      hide ShowsLast, Meets, TooTall;
      var result: Chunk := map[];
      NothingShown(c);
      for i := 0 to |regions|
        invariant forall r :: r in regions[..i] ==> !(Meets(r, c) && TooTall(r))
        invariant ShowsLast(result, c, regions[..i])
      {
        var region := regions[i];
        assert regions[..i + 1] == regions[..i] + [region];
        if !Meets(region, c) {
          SkippedRegion(result, c, regions[..i], region);
          continue;
        }
        if TooTall(region) {
          return None;
        }
        ClippedFits(region, c);
        var painted := PaintBox(result, c, Clipped(region, c), region.runtime);
        PaintedRegion(result, painted, c, regions[..i], region);
        result := painted;
      }
      assert regions[..|regions|] == regions;
      chunk := Some(result);
    }

    function Clipped(region: Region, c: ChunkPos): Cuboid
      reads this`offset
    {
      Cuboid(
        BlockPos(Larger(region.minimum.x + offset.x, c.x * 16), region.minimum.y + offset.y,
          Larger(region.minimum.z + offset.z, c.z * 16)),
        BlockPos(
          Smaller(region.maximum.x + offset.x, c.x * 16 + 15) + 1, region.maximum.y + offset.y + 1,
          Smaller(region.maximum.z + offset.z, c.z * 16 + 15) + 1))
    }

    lemma ClippedFits(region: Region, c: ChunkPos)
      requires Meets(region, c) && region.minimum.y <= region.maximum.y
      ensures var box := Clipped(region, c);
        && box.lo.y <= box.hi.y && c.x * 16 <= box.lo.x <= box.hi.x <= c.x * 16 + 16
        && c.z * 16 <= box.lo.z <= box.hi.z <= c.z * 16 + 16
    {
    }

    lemma NothingShown(c: ChunkPos)
      ensures ShowsLast(map[], c, [])
    {
    }

    lemma SkippedRegion(chunk: Chunk, c: ChunkPos, list: seq<Region>, region: Region)
      requires ShowsLast(chunk, c, list) && !Meets(region, c)
      ensures ShowsLast(chunk, c, list + [region])
    {
      hide CellIn;
      assert (list + [region])[..|list|] == list;
    }

    lemma PaintedRegion(before: Chunk, after: Chunk, c: ChunkPos, list: seq<Region>, region: Region)
      requires ShowsLast(before, c, list) && Painted(after, before, c, Clipped(region, c), region.runtime, air)
      ensures ShowsLast(after, c, list + [region])
    {
      hide CellIn;
      assert (list + [region])[..|list|] == list;
      forall b | ChunkOfBlock(b) == c
        ensures CellIn(after, b, air) == LastCovering(list + [region], Back(b, offset), air)
      {
        assert Within(Clipped(region, c), b) <==> Covers(region, Back(b, offset));
      }
    }

    /** The y, x and z loops of one clipped region. */
    method PaintBox(chunk: Chunk, c: ChunkPos, box: Cuboid, id: RuntimeId) returns (chunk': Chunk)
      requires box.lo.y <= box.hi.y && c.x * 16 <= box.lo.x <= box.hi.x <= c.x * 16 + 16
      requires c.z * 16 <= box.lo.z <= box.hi.z <= c.z * 16 + 16
      ensures Painted(chunk', chunk, c, box, id, air)
    {
      hide Painted;
      chunk' := chunk;
      var x0, x1, z0, z1 := box.lo.x, box.hi.x, box.lo.z, box.hi.z;
      PaintedNothing(chunk, c, Cuboid(box.lo, BlockPos(x1, box.lo.y, z1)), id, air);
      for y := box.lo.y to box.hi.y
        invariant Painted(chunk', chunk, c, Cuboid(box.lo, BlockPos(x1, y, z1)), id, air)
      {
        var next := PaintSheet(chunk', c, x0, x1, y, z0, z1, id);
        PaintedBoth(chunk, chunk', next, c, Cuboid(box.lo, BlockPos(x1, y, z1)), Sheet(x0, x1, y, z0, z1),
          Cuboid(box.lo, BlockPos(x1, y + 1, z1)), id, air);
        chunk' := next;
      }
    }

    method PaintSheet(chunk: Chunk, c: ChunkPos, x0: int, x1: int, y: int, z0: int, z1: int, id: RuntimeId)
      returns (chunk': Chunk)
      requires c.x * 16 <= x0 <= x1 <= c.x * 16 + 16 && c.z * 16 <= z0 <= z1 <= c.z * 16 + 16
      ensures Painted(chunk', chunk, c, Sheet(x0, x1, y, z0, z1), id, air)
    {
      hide Painted;
      chunk' := chunk;
      PaintedNothing(chunk, c, Sheet(x0, x0, y, z0, z1), id, air);
      for x := x0 to x1
        invariant Painted(chunk', chunk, c, Sheet(x0, x, y, z0, z1), id, air)
      {
        var next := PaintBeam(chunk', c, x, y, z0, z1, id);
        PaintedBoth(chunk, chunk', next, c, Sheet(x0, x, y, z0, z1), Beam(x, y, z0, z1), Sheet(x0, x + 1, y, z0, z1),
          id, air);
        chunk' := next;
      }
    }

    method PaintBeam(chunk: Chunk, c: ChunkPos, x: int, y: int, z0: int, z1: int, id: RuntimeId) returns (chunk': Chunk)
      requires c.x * 16 <= x < c.x * 16 + 16 && c.z * 16 <= z0 <= z1 <= c.z * 16 + 16
      ensures Painted(chunk', chunk, c, Beam(x, y, z0, z1), id, air)
    {
      hide Painted, ApplyTo;
      chunk' := chunk;
      PaintedNothing(chunk, c, Beam(x, y, z0, z0), id, air);
      for z := z0 to z1
        invariant Painted(chunk', chunk, c, Beam(x, y, z0, z), id, air)
      {
        PaintedOne(chunk', BlockPos(x, y, z), id, air);
        var next := ApplyTo(chunk', Placing(BlockPos(x, y, z), id), air);
        PaintedBoth(chunk, chunk', next, c, Beam(x, y, z0, z), Beam(x, y, z, z + 1), Beam(x, y, z0, z + 1), id, air);
        chunk' := next;
      }
    }
  }

  lemma RebasedNothing(base: BlockPos)
    ensures Rebased([], base) == []
  {
  }

  predicate Between(first: int, second: int, value: int) {
    first <= value <= second || second <= value <= first
  }

  /** The record reaches a position of the file, whichever corner it names first. */
  predicate Reaches(k: Kept, x: int, y: int, z: int) {
    && Between(k.first.x, k.second.x, x - k.origin.x) && Between(k.first.y, k.second.y, y - k.origin.y)
    && Between(k.first.z, k.second.z, z - k.origin.z)
  }

  /** The block the last record reaching `base + p` names. */
  function KeptAt(kept: seq<Kept>, base: BlockPos, air: RuntimeId, p: BlockPos): RuntimeId {
    if kept == [] then air
    else
      var last := kept[|kept| - 1];
      if Reaches(last, base.x + p.x, base.y + p.y, base.z + p.z) then last.runtime
      else KeptAt(kept[..|kept| - 1], base, air, p)
  }

  lemma {:induction false} KeptAtIsLast(kept: seq<Kept>, base: BlockPos, air: RuntimeId, p: BlockPos)
    ensures KeptAt(kept, base, air, p) == LastKept(kept, BlockPos(p.x + base.x, p.y + base.y, p.z + base.z), air)
  {
    if kept != [] {
      KeptAtIsLast(kept[..|kept| - 1], base, air, p);
    }
  }

  lemma KeptElements(chunk: Chunk, c: ChunkPos, kept: seq<Kept>, base: BlockPos, air: RuntimeId)
    requires forall b | ChunkOfBlock(b) == c :: CellIn(chunk, b, air) == LastKept(kept, Moved(b, base), air)
    ensures Holds(chunk, c, BlockPos(0, 0, 0), air, p => KeptAt(kept, base, air, p))
  {
    hide CellIn, LastKept, ChunkOfBlock, KeptAt;
    forall b | ChunkOfBlock(b) == c
      ensures CellIn(chunk, b, air) == KeptAt(kept, base, air, b)
    {
      KeptAtIsLast(kept, base, air, b);
    }
    CellsAreElements(chunk, c, BlockPos(0, 0, 0), air, p => KeptAt(kept, base, air, p));
  }

  /** A file read and then materialised shows, in every chunk, the last kept record
      covering the position the file gives it, relative to the lowest corner of all
      of them; nothing lies outside the size. */
  method ReadAndShow(bcf: BcfStructure, sections: seq<Section>, c: ChunkPos)
    returns (chunk: Option<Chunk>, base: BlockPos)
    requires AllKept(sections, |sections|, bcf.palette, bcf.air) != []
    requires TablesFit(sections) && Fits(AllKept(sections, |sections|, bcf.palette, bcf.air))
    modifies bcf
    ensures chunk.Some?
    ensures Bounds(AllKept(sections, |sections|, bcf.palette, bcf.air), base, bcf.boundsMax)
    ensures var kept := AllKept(sections, |sections|, bcf.palette, bcf.air);
      forall b | ChunkOfBlock(b) == c :: CellIn(chunk.value, b, bcf.air) == LastKept(kept, Moved(b, base), bcf.air)
    ensures var kept := AllKept(sections, |sections|, bcf.palette, bcf.air);
      var air := bcf.air;
      Holds(chunk.value, c, BlockPos(0, 0, 0), air, p => KeptAt(kept, base, air, p))
    ensures forall b | !InBounds(bcf.size, b) ::
      LastKept(AllKept(sections, |sections|, bcf.palette, bcf.air), Moved(b, base), bcf.air) == bcf.air
  {
    hide AllKept, Fits, TablesFit, CellIn, ChunkOfBlock, Kept.Minimum, Kept.Maximum, Holds;
    ghost var kept := AllKept(sections, |sections|, bcf.palette, bcf.air);
    var ok := bcf.Read(sections);
    base := bcf.boundsMin;
    RebasedIsContained(kept, base, bcf.boundsMax);
    BoundsAreSmall(kept, base, bcf.boundsMax);
    forall b | !InBounds(bcf.size, b)
      ensures LastCovering(Rebased(kept, base), b, bcf.air) == bcf.air
    {
      NothingOutside(Rebased(kept, base), bcf.size, b, bcf.air);
    }
    forall b
      ensures LastCovering(Rebased(kept, base), b, bcf.air) == LastKept(kept, Moved(b, base), bcf.air)
    {
      RebasedMeansTheSame(kept, base, b, bcf.air);
    }
    chunk := bcf.GetChunk(c);
    KeptElements(chunk.value, c, kept, base, bcf.air);
  }
}
