/** What `BdxStructure::write_to_world` means: one flat map from absolute
    positions to blocks, updated in command order. The layered form that the
    cache keeps is shown to denote it. */
module FlatWorld {
  import opened Coordinates
  import opened CacheLevels

  /** What the command stream hands the world sink: single non-air blocks, and
      runs of consecutive z cells in which air stands for "leave the cell". */
  datatype Placement =
    | Block(raw: BlockPos, id: RuntimeId)
    | ZRun(raw: BlockPos, ids: seq<RuntimeId>, containsAir: bool)

  /** The reader says truthfully whether a run contains air. */
  predicate Announced(placements: seq<Placement>, air: RuntimeId) {
    forall i | 0 <= i < |placements| && placements[i].ZRun? && !placements[i].containsAir :: air !in placements[i].ids
  }

  /** Stream coordinates are moved by the recovered minimum, the offset and the
      start subchunk. */
  datatype Route = Route(min: BlockPos, offset: BlockPos, start: SubChunkPos) {
    function Target(raw: BlockPos): BlockPos {
      BlockPos(
        raw.x - min.x + offset.x + start.x * 16, raw.y - min.y + offset.y + start.y * 16,
        raw.z - min.z + offset.z + start.z * 16)
    }
  }

  ghost predicate Layered(model: Layers) {
    forall p | p in model :: |model[p]| == 4096
  }

  ghost function PlaceCell(model: Layers, target: BlockPos, id: RuntimeId, air: RuntimeId): (r: Layers)
    requires Layered(model)
    ensures Layered(r)
  {
    NativeBlockUndoesIndex(target);
    var m := Touched(model, SubChunkOf(target), air);
    m[SubChunkOf(target) := SetCell(m[SubChunkOf(target)], NativeIndex(target), id)]
  }

  /** The cells of a run that fall into the subchunk of its first one. */
  function SegmentLength(target: BlockPos, remaining: nat): (count: nat)
    ensures count <= remaining && (remaining > 0 ==> count > 0)
    ensures NativeIndex(target) + count <= 4096
  {
    FloorBySixteen(target.x);
    FloorBySixteen(target.y);
    FloorBySixteen(target.z);
    Smaller(remaining, 16 - target.z % 16)
  }

  ghost function PlaceSegment(model: Layers, target: BlockPos, ids: seq<RuntimeId>, air: RuntimeId): (r: Layers)
    requires Layered(model) && |ids| <= SegmentLength(target, |ids|)
    ensures Layered(r)
  {
    NativeBlockUndoesIndex(target);
    var m := Touched(model, SubChunkOf(target), air);
    m[SubChunkOf(target) := WithRun(m[SubChunkOf(target)], NativeIndex(target), ids, air)]
  }

  /** A run written one segment of at most 16 cells at a time. */
  ghost function PlaceRun(model: Layers, target: BlockPos, ids: seq<RuntimeId>, air: RuntimeId): (r: Layers)
    requires Layered(model)
    ensures Layered(r)
    decreases |ids|
  {
    if ids == [] then model
    else
      var count := SegmentLength(target, |ids|);
      PlaceRun(PlaceSegment(model, target, ids[..count], air), Along(target, count), ids[count..], air)
  }

  /** The same run routed cell by cell, as `consume_block` would: air is never
      handed over. */
  ghost function PlaceEach(model: Layers, target: BlockPos, ids: seq<RuntimeId>, air: RuntimeId): (r: Layers)
    requires Layered(model)
    ensures Layered(r)
    decreases |ids|
  {
    if ids == [] then model
    else PlaceEach(if ids[0] == air then model
      else PlaceCell(model, target, ids[0], air), Along(target, 1), ids[1..], air)
  }

  /** The block a layered world holds at a position. */
  ghost function CellAt(model: Layers, b: BlockPos, air: RuntimeId): RuntimeId
    requires Layered(model)
  {
    NativeBlockUndoesIndex(b);
    if SubChunkOf(b) in model then model[SubChunkOf(b)][NativeIndex(b)] else air
  }

  ghost predicate Covers(target: BlockPos, ids: seq<RuntimeId>, air: RuntimeId, b: BlockPos) {
    b.x == target.x && b.y == target.y && 0 <= b.z - target.z < |ids| && ids[b.z - target.z] != air
  }

  lemma CellAfterBlock(model: Layers, target: BlockPos, id: RuntimeId, air: RuntimeId, b: BlockPos)
    requires Layered(model)
    ensures CellAt(PlaceCell(model, target, id, air), b, air) == if b == target then id else CellAt(model, b, air)
  {
    NativeBlockUndoesIndex(b);
    NativeBlockUndoesIndex(target);
    hide NativeIndex, SubChunkOf, NativeBlock, FloorDiv, FloorMod;
    if SubChunkOf(b) == SubChunkOf(target) && NativeIndex(b) == NativeIndex(target) {
      assert b == target;
    }
  }

  lemma {:induction false} RunCell(layer: seq<RuntimeId>, destination: nat, ids: seq<RuntimeId>, air: RuntimeId,
      index: nat)
    requires destination + |ids| <= |layer| && index < |layer|
    ensures WithRun(layer, destination, ids, air)[index]
      == if destination <= index < destination + |ids|
        && ids[index - destination] != air then ids[index - destination] else layer[index]
  {
    if ids != [] {
      RunCell(layer, destination, ids[..|ids| - 1], air, index);
    }
  }

  lemma SegmentCells(target: BlockPos, count: nat, b: BlockPos)
    requires count == SegmentLength(target, count)
    ensures SubChunkOf(b) == SubChunkOf(target) && NativeIndex(target) <= NativeIndex(b) < NativeIndex(target) + count
      <==> b.x == target.x && b.y == target.y && 0 <= b.z - target.z < count
    ensures
      (SubChunkOf(b) == SubChunkOf(target)
       && NativeIndex(target) <= NativeIndex(b) < NativeIndex(target) + count) ==>
        NativeIndex(b) - NativeIndex(target) == b.z - target.z
  {
    FloorBySixteen(b.x);
    FloorBySixteen(b.y);
    FloorBySixteen(b.z);
    FloorBySixteen(target.x);
    FloorBySixteen(target.y);
    FloorBySixteen(target.z);
    hide FloorDiv, FloorMod;
    SegmentDigits(target, count, b);
  }

  lemma SegmentDigits(t: BlockPos, count: nat, b: BlockPos)
    requires count <= 16 - t.z % 16
    ensures var i, j := t.x % 16 * 256 + t.y % 16 * 16 + t.z % 16, b.x % 16 * 256 + b.y % 16 * 16 + b.z % 16;
      && (b.x / 16 == t.x / 16 && b.y / 16 == t.y / 16 && b.z / 16 == t.z / 16 && i <= j < i + count
          <==> b.x == t.x && b.y == t.y && 0 <= b.z - t.z < count)
      && (b.x == t.x && b.y == t.y && 0 <= b.z - t.z < count ==> j - i == b.z - t.z)
  {
    if b.x == t.x && b.y == t.y && 0 <= b.z - t.z < count {
      assert b.z == t.z / 16 * 16 + (t.z % 16 + (b.z - t.z));
    }
  }

  lemma SegmentLengthAgain(target: BlockPos, remaining: nat)
    ensures SegmentLength(target, SegmentLength(target, remaining)) == SegmentLength(target, remaining)
  {
  }

  lemma CellAfterSegment(model: Layers, target: BlockPos, ids: seq<RuntimeId>, air: RuntimeId, b: BlockPos)
    requires Layered(model) && |ids| <= SegmentLength(target, |ids|)
    ensures CellAt(PlaceSegment(model, target, ids, air), b, air)
      == if Covers(target, ids, air, b) then ids[b.z - target.z] else CellAt(model, b, air)
  {
    hide SubChunkOf, NativeIndex, NativeBlock, SegmentLength, WithRun, FloorDiv, FloorMod;
    NativeBlockUndoesIndex(b);
    NativeBlockUndoesIndex(target);
    SegmentCells(target, |ids|, b);
    var m := Touched(model, SubChunkOf(target), air);
    RunCell(m[SubChunkOf(target)], NativeIndex(target), ids, air, NativeIndex(b));
  }

  /** A run puts exactly its non-air cells at consecutive z and leaves every
      other position alone. */
  lemma {:induction false} CellAfterRun(model: Layers, target: BlockPos, ids: seq<RuntimeId>, air: RuntimeId,
      b: BlockPos)
    requires Layered(model)
    ensures CellAt(PlaceRun(model, target, ids, air), b, air)
      == if Covers(target, ids, air, b) then ids[b.z - target.z] else CellAt(model, b, air)
    decreases |ids|
  {
    if ids != [] {
      var count := SegmentLength(target, |ids|);
      hide CellAt, PlaceSegment, SegmentLength, Layered, NativeIndex, SubChunkOf;
      SegmentLengthAgain(target, |ids|);
      CellAfterSegment(model, target, ids[..count], air, b);
      CellAfterRun(PlaceSegment(model, target, ids[..count], air), Along(target, count), ids[count..], air, b);
    }
  }

  lemma {:induction false} CellAfterEach(model: Layers, target: BlockPos, ids: seq<RuntimeId>, air: RuntimeId,
      b: BlockPos)
    requires Layered(model)
    ensures CellAt(PlaceEach(model, target, ids, air), b, air)
      == if Covers(target, ids, air, b) then ids[b.z - target.z] else CellAt(model, b, air)
    decreases |ids|
  {
    if ids != [] {
      CellAfterBlock(model, target, ids[0], air, b);
      CellAfterEach(
        if ids[0] == air then model else PlaceCell(model, target, ids[0], air), Along(target, 1), ids[1..], air, b);
    }
  }

  /** Segments and single blocks write the same cells. */
  lemma RunWritesWhatBlocksWrite(model: Layers, target: BlockPos, ids: seq<RuntimeId>, air: RuntimeId, b: BlockPos)
    requires Layered(model)
    ensures CellAt(PlaceRun(model, target, ids, air), b, air) == CellAt(PlaceEach(model, target, ids, air), b, air)
  {
    CellAfterRun(model, target, ids, air, b);
    CellAfterEach(model, target, ids, air, b);
  }

  ghost predicate Passes(target: BlockPos, length: nat, p: SubChunkPos) {
    exists k :: 0 <= k < length && SubChunkOf(Along(target, k)) == p
  }

  ghost predicate Lands(target: BlockPos, ids: seq<RuntimeId>, air: RuntimeId, p: SubChunkPos) {
    exists k :: 0 <= k < |ids| && ids[k] != air && SubChunkOf(Along(target, k)) == p
  }

  lemma SegmentStays(target: BlockPos, count: nat, k: nat)
    requires count == SegmentLength(target, count) && k < count
    ensures SubChunkOf(Along(target, k)) == SubChunkOf(target)
  {
    SegmentCells(target, count, Along(target, k));
  }

  /** The subchunks a run touches are all those it passes through. */
  lemma {:induction false} RunTouches(model: Layers, target: BlockPos, ids: seq<RuntimeId>, air: RuntimeId,
      p: SubChunkPos)
    requires Layered(model)
    ensures p in PlaceRun(model, target, ids, air) <==> p in model || Passes(target, |ids|, p)
    decreases |ids|
  {
    if ids != [] {
      var count := SegmentLength(target, |ids|);
      var rest := Along(target, count);
      RunTouches(PlaceSegment(model, target, ids[..count], air), rest, ids[count..], air, p);
      assert Along(target, 0) == target;
      if Passes(rest, |ids| - count, p) {
        var k :| 0 <= k < |ids| - count && SubChunkOf(Along(rest, k)) == p;
        assert Along(rest, k) == Along(target, count + k);
      }
      if Passes(target, |ids|, p) {
        var k :| 0 <= k < |ids| && SubChunkOf(Along(target, k)) == p;
        if k < count {
          SegmentStays(target, count, k);
        } else {
          assert Along(rest, k - count) == Along(target, k);
        }
      }
    }
  }

  lemma {:induction false} EachTouches(model: Layers, target: BlockPos, ids: seq<RuntimeId>, air: RuntimeId,
      p: SubChunkPos)
    requires Layered(model)
    ensures p in PlaceEach(model, target, ids, air) <==> p in model || Lands(target, ids, air, p)
    decreases |ids|
  {
    if ids == [] {
    } else {
      var rest := Along(target, 1);
      EachTouches(if ids[0] == air then model else PlaceCell(model, target, ids[0], air), rest, ids[1..], air, p);
      LandsFirst(target, ids, air, p);
    }
  }

  lemma LandsFirst(target: BlockPos, ids: seq<RuntimeId>, air: RuntimeId, p: SubChunkPos)
    requires ids != []
    ensures Lands(target, ids, air, p)
      <==> (ids[0] != air && SubChunkOf(target) == p) || Lands(Along(target, 1), ids[1..], air, p)
  {
    hide SubChunkOf;
    var rest := Along(target, 1);
    assert Along(target, 0) == target;
    if Lands(rest, ids[1..], air, p) {
      var k :| 0 <= k < |ids[1..]| && ids[1..][k] != air && SubChunkOf(Along(rest, k)) == p;
      assert Along(rest, k) == Along(target, k + 1);
    }
    if Lands(target, ids, air, p) {
      var k :| 0 <= k < |ids| && ids[k] != air && SubChunkOf(Along(target, k)) == p;
      assert k > 0 ==> Along(rest, k - 1) == Along(target, k) && ids[1..][k - 1] == ids[k];
    }
  }

  /** The two routes differ in one thing: a segment of nothing but air is still
      acquired, so its subchunk is saved, as all air if nothing else lands there. */
  lemma RunTouchesMoreExactlyWhen(model: Layers, target: BlockPos, ids: seq<RuntimeId>, air: RuntimeId, p: SubChunkPos)
    requires Layered(model)
    ensures (p in PlaceRun(model, target, ids, air) <==> p in PlaceEach(model, target, ids, air))
      <==> p in model || (Passes(target, |ids|, p) ==> Lands(target, ids, air, p))
  {
    RunTouches(model, target, ids, air, p);
    EachTouches(model, target, ids, air, p);
    if Lands(target, ids, air, p) {
      var k :| 0 <= k < |ids| && ids[k] != air && SubChunkOf(Along(target, k)) == p;
      assert Passes(target, |ids|, p);
    }
  }

  lemma AirRunTouches(air: RuntimeId)
    ensures SubChunkPos(0, 0, 0) in PlaceRun(map[], BlockPos(0, 0, 0), [air, air, air, air], air)
    ensures SubChunkPos(0, 0, 0) !in PlaceEach(map[], BlockPos(0, 0, 0), [air, air, air, air], air)
  {
    var origin, ids := BlockPos(0, 0, 0), [air, air, air, air];
    RunTouches(map[], origin, ids, air, SubChunkPos(0, 0, 0));
    EachTouches(map[], origin, ids, air, SubChunkPos(0, 0, 0));
    assert SubChunkOf(Along(origin, 0)) == SubChunkPos(0, 0, 0);
  }

  ghost function Place(model: Layers, route: Route, placement: Placement, air: RuntimeId): (r: Layers)
    requires Layered(model)
    ensures Layered(r)
  {
    match placement
    case Block(raw, id) => PlaceCell(model, route.Target(raw), id, air)
    case ZRun(raw, ids, _) => PlaceRun(model, route.Target(raw), ids, air)
  }

  ghost function Placed(route: Route, placements: seq<Placement>, air: RuntimeId): (r: Layers)
    ensures Layered(r)
  {
    if placements == [] then map[]
    else Place(Placed(route, placements[..|placements| - 1], air), route, placements[|placements| - 1], air)
  }

  /** The flat meaning of a run: every non-air cell sets its position. */
  function FlatRun(flat: map<BlockPos, RuntimeId>, target: BlockPos, ids: seq<RuntimeId>, air: RuntimeId): map<BlockPos,
      RuntimeId>
  {
    if ids == [] then flat
    else
      var last := |ids| - 1;
      var init := FlatRun(flat, target, ids[..last], air);
      if ids[last] == air then init else init[Along(target, last) := ids[last]]
  }

  function FlatPlace(flat: map<BlockPos, RuntimeId>, route: Route, placement: Placement, air: RuntimeId): map<BlockPos,
      RuntimeId>
  {
    match placement
    case Block(raw, id) => flat[route.Target(raw) := id]
    case ZRun(raw, ids, _) => FlatRun(flat, route.Target(raw), ids, air)
  }

  /** The flat meaning of a command stream: the last placement wins. */
  function Flat(route: Route, placements: seq<Placement>, air: RuntimeId): map<BlockPos, RuntimeId> {
    if placements == [] then map[]
    else FlatPlace(Flat(route, placements[..|placements| - 1], air), route, placements[|placements| - 1], air)
  }

  function Or(flat: map<BlockPos, RuntimeId>, b: BlockPos, air: RuntimeId): RuntimeId {
    if b in flat then flat[b] else air
  }

  lemma {:induction false} FlatRunCell(flat: map<BlockPos, RuntimeId>, target: BlockPos, ids: seq<RuntimeId>,
      air: RuntimeId, b: BlockPos)
    ensures b in FlatRun(flat, target, ids, air) <==> b in flat || Covers(target, ids, air, b)
    ensures Covers(target, ids, air, b) ==> FlatRun(flat, target, ids, air)[b] == ids[b.z - target.z]
    ensures b in flat && !Covers(target, ids, air, b) ==> FlatRun(flat, target, ids, air)[b] == flat[b]
  {
    if ids != [] {
      FlatRunCell(flat, target, ids[..|ids| - 1], air, b);
    }
  }

  lemma StepIsFlat(
    model: Layers, flat: map<BlockPos, RuntimeId>, route: Route, placement: Placement, air: RuntimeId, b: BlockPos)
    requires Layered(model) && CellAt(model, b, air) == Or(flat, b, air)
    ensures CellAt(Place(model, route, placement, air), b, air) == Or(FlatPlace(flat, route, placement, air), b, air)
  {
    hide CellAt, PlaceCell, PlaceRun, FlatRun;
    var target := route.Target(placement.raw);
    match placement {
      case Block(_, id) => CellAfterBlock(model, target, id, air, b);
      case ZRun(_, ids, _) =>
        CellAfterRun(model, target, ids, air, b);
        FlatRunCell(flat, target, ids, air, b);
    }
  }

  /** The layered world denotes the flat one. */
  lemma {:induction false} PlacedIsFlat(route: Route, placements: seq<Placement>, air: RuntimeId, b: BlockPos)
    ensures CellAt(Placed(route, placements, air), b, air) == Or(Flat(route, placements, air), b, air)
  {
    if placements != [] {
      var init, last := placements[..|placements| - 1], placements[|placements| - 1];
      PlacedIsFlat(route, init, air, b);
      hide CellAt, Place, FlatPlace, Or;
      StepIsFlat(Placed(route, init, air), Flat(route, init, air), route, last, air, b);
    }
  }

  ghost predicate Touches(route: Route, placement: Placement, p: SubChunkPos) {
    match placement
    case Block(raw, _) => SubChunkOf(route.Target(raw)) == p
    case ZRun(raw, ids, _) => Passes(route.Target(raw), |ids|, p)
  }

  ghost predicate TouchedBy(route: Route, placements: seq<Placement>, p: SubChunkPos) {
    exists i :: 0 <= i < |placements| && Touches(route, placements[i], p)
  }

  lemma PlaceTouches(model: Layers, route: Route, placement: Placement, air: RuntimeId, p: SubChunkPos)
    requires Layered(model)
    ensures p in Place(model, route, placement, air) <==> p in model || Touches(route, placement, p)
  {
    if placement.ZRun? {
      RunTouches(model, route.Target(placement.raw), placement.ids, air, p);
    }
  }

  lemma TouchedByLast(route: Route, placements: seq<Placement>, p: SubChunkPos)
    requires placements != []
    ensures var last := |placements| - 1;
      TouchedBy(route, placements, p) <==>
        TouchedBy(route, placements[..last], p) || Touches(route, placements[last], p)
  {
    hide Touches;
    var init := placements[..|placements| - 1];
    if TouchedBy(route, init, p) {
      var i :| 0 <= i < |init| && Touches(route, init[i], p);
      assert Touches(route, placements[i], p);
    }
    if TouchedBy(route, placements, p) {
      var i :| 0 <= i < |placements| && Touches(route, placements[i], p);
      assert i < |init| ==> Touches(route, init[i], p);
    }
  }

  lemma {:induction false} PlacedTouches(route: Route, placements: seq<Placement>, air: RuntimeId, p: SubChunkPos)
    ensures p in Placed(route, placements, air) <==> TouchedBy(route, placements, p)
  {
    if placements != [] {
      var init, last := placements[..|placements| - 1], placements[|placements| - 1];
      PlacedTouches(route, init, air, p);
      hide Touches, Place, TouchedBy;
      PlaceTouches(Placed(route, init, air), route, last, air, p);
      TouchedByLast(route, placements, p);
    }
  }

  /** Every position the stream sets lies in a subchunk it touches. */
  lemma {:induction false} SetIsTouched(route: Route, placements: seq<Placement>, air: RuntimeId)
    ensures forall b :: b in Flat(route, placements, air) ==> TouchedBy(route, placements, SubChunkOf(b))
  {
    if placements != [] {
      var init, last := placements[..|placements| - 1], placements[|placements| - 1];
      SetIsTouched(route, init, air);
      hide Touches, TouchedBy, SubChunkOf, FlatPlace;
      forall b | b in Flat(route, placements, air)
        ensures TouchedBy(route, placements, SubChunkOf(b))
      {
        SetTouches(Flat(route, init, air), route, last, air, b);
        TouchedByLast(route, placements, SubChunkOf(b));
      }
    }
  }

  lemma SetTouches(flat: map<BlockPos, RuntimeId>, route: Route, placement: Placement, air: RuntimeId, b: BlockPos)
    requires b in FlatPlace(flat, route, placement, air)
    ensures b in flat || Touches(route, placement, SubChunkOf(b))
  {
    hide SubChunkOf;
    if placement.ZRun? {
      var target := route.Target(placement.raw);
      FlatRunCell(flat, target, placement.ids, air, b);
      assert b !in flat ==> Along(target, b.z - target.z) == b;
    }
  }
}
