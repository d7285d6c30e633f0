/** The three loops of `BdxStructure::read` over a stream that arrives in windows
    cut anywhere, and what they hand to the world sink. */
module BdxReaders {
  import opened Options
  import opened Coordinates
  import opened BdxBytes
  import opened BdxCommands
  import opened RuntimeMemos
  import opened BdxMachine
  import opened BdxBatches
  import opened FlatWorld

  /** The placements that are not air, in order: all the world sink ever sees. */
  function NonAirOf(placed: seq<Placing>, air: RuntimeId): seq<Placing> {
    if placed == [] then []
    else
      var init := NonAirOf(placed[..|placed| - 1], air);
      if placed[|placed| - 1].id == air then init else init + [placed[|placed| - 1]]
  }

  function Cells(event: Placement, air: RuntimeId): seq<Placing> {
    match event
    case Block(raw, id) => [Placing(raw, id)]
    case ZRun(raw, ids, _) => NonAirOf(Placings(raw, ids), air)
  }

  /** The single cells a sequence of consumer calls stands for. */
  function Expand(events: seq<Placement>, air: RuntimeId): seq<Placing> {
    if events == [] then []
    else Expand(events[..|events| - 1], air) + Cells(events[|events| - 1], air)
  }

  /** The consumers have been told exactly the non-air placements. */
  ghost predicate Told(events: seq<Placement>, placed: seq<Placing>, air: RuntimeId) {
    Expand(events, air) == NonAirOf(placed, air) && Announced(events, air)
  }

  lemma {:induction false} NonAirOfConcat(a: seq<Placing>, b: seq<Placing>, air: RuntimeId)
    ensures NonAirOf(a + b, air) == NonAirOf(a, air) + NonAirOf(b, air)
  {
    if b == [] {
      assert a + b == a;
    } else {
      assert (a + b)[..|a + b| - 1] == a + b[..|b| - 1];
      NonAirOfConcat(a, b[..|b| - 1], air);
    }
  }

  /** Single cells applied in order. */
  function FlatCells(flat: map<BlockPos, RuntimeId>, route: Route, cells: seq<Placing>): map<BlockPos, RuntimeId> {
    if cells == [] then flat
    else FlatCells(flat, route, cells[..|cells| - 1])[route.Target(cells[|cells| - 1].pos) := cells[|cells| - 1].id]
  }

  lemma {:induction false} FlatCellsConcat(flat: map<BlockPos, RuntimeId>, route: Route, a: seq<Placing>,
      b: seq<Placing>)
    ensures FlatCells(flat, route, a + b) == FlatCells(FlatCells(flat, route, a), route, b)
  {
    if b == [] {
      assert a + b == a;
    } else {
      assert (a + b)[..|a + b| - 1] == a + b[..|b| - 1];
      FlatCellsConcat(flat, route, a, b[..|b| - 1]);
    }
  }

  lemma {:induction false} FlatRunIsCells(flat: map<BlockPos, RuntimeId>, route: Route, raw: BlockPos,
      ids: seq<RuntimeId>, air: RuntimeId)
    ensures FlatRun(flat, route.Target(raw), ids, air) == FlatCells(flat, route, NonAirOf(Placings(raw, ids), air))
  {
    if ids != [] {
      var last := |ids| - 1;
      FlatRunIsCells(flat, route, raw, ids[..last], air);
      assert Placings(raw, ids)[..last] == Placings(raw, ids[..last]);
    }
  }

  /** The flat meaning of the consumer calls depends only on the cells they
      stand for, not on how these were batched. */
  lemma {:induction false} FlatIsCells(route: Route, events: seq<Placement>, air: RuntimeId)
    ensures Flat(route, events, air) == FlatCells(map[], route, Expand(events, air))
  {
    if events != [] {
      var init, last := events[..|events| - 1], events[|events| - 1];
      FlatIsCells(route, init, air);
      FlatCellsConcat(map[], route, Expand(init, air), Cells(last, air));
      hide Expand, Flat;
      var flat := Flat(route, init, air);
      match last {
        case Block(raw, id) => assert [Placing(raw, id)][..0] == [];
        case ZRun(raw, ids, _) => FlatRunIsCells(flat, route, raw, ids, air);
      }
    }
  }

  class BdxReader {
    const registry: Registry
    const captures: bool
    const bytes: Bytes

    var at: nat
    var state: State
    var events: seq<Placement>

    constructor (registry: Registry, captures: bool, bytes: Bytes)
      ensures this.registry == registry && this.captures == captures && this.bytes == bytes
      ensures at == 0 && state == START && events == []
    {
      this.registry, this.captures, this.bytes := registry, captures, bytes;
      at, state, events := 0, START, [];
    }

    /** The cursor is within int32, and the consumers have been told exactly the
        non-air placements. */
    ghost predicate Valid()
      reads this
    {
      && at <= |bytes| && Enclosed(state) && !state.done
      && Told(events, state.placed, registry.air)
    }

    /** `refill_contiguous`: the end of the bytes decoded so far, cut anywhere
        within one buffer. */
    method Refill() returns (end: nat)
      requires at <= |bytes|
      ensures at <= end <= |bytes| && end <= at + BUFFER_BYTES && (at < |bytes| ==> at < end)
    {
      if at == |bytes| {
        return at;
      }
      end :| at < end <= |bytes| && end <= at + BUFFER_BYTES;
    }

    /** The look-ahead for pairs: all of them, but it never leaves the window. */
    method CountPairs(end: nat) returns (pairs: nat)
      requires at <= end <= |bytes|
      ensures ArePairs(bytes, at, pairs) && at + pairs * PAIR_BYTES <= end
      ensures var after := at + pairs * PAIR_BYTES; after + PAIR_BYTES > end || !IsPair(bytes, after)
    {
      pairs := 0;
      while end - (at + pairs * PAIR_BYTES) >= PAIR_BYTES && IsPair(bytes, at + pairs * PAIR_BYTES)
        invariant ArePairs(bytes, at, pairs) && at + pairs * PAIR_BYTES <= end
      {
        pairs := pairs + 1;
      }
    }

    /** The lookups of a batch, in the loop that also counts it. */
    method ResolveRun(pairs: nat) returns (ok: bool, ids: seq<RuntimeId>, containsAir: bool)
      requires ArePairs(bytes, at, pairs)
      modifies this`state
      ensures ok <==> ResolvePairs(registry, old(state).constants, old(state).memo, bytes, at, pairs).Some?
      ensures ok ==>
        ResolvePairs(registry, old(state).constants, old(state).memo, bytes, at, pairs)
          == Some(Resolved(state.memo, ids))
      ensures ok ==>
        state == old(state).(memo := state.memo, nonAir := old(state).nonAir + CountNonAir(ids, registry.air))
      ensures ok ==> (containsAir <==> registry.air in ids)
    {
      ids, containsAir := [], false;
      ghost var memo, start := state.memo, state.nonAir;
      hide ArePairs, IsPair, StateOf, CountNonAir, ResolvePairs, Continued, Unsigned16;
      NothingResolved(ids, ResolvePairs(registry, state.constants, memo, bytes, at, pairs), registry.air);
      assert at + 0 * PAIR_BYTES == at;
      for k := 0 to pairs
        invariant |ids| == k && ArePairs(bytes, at + k * PAIR_BYTES, pairs - k)
        invariant state == old(state).(memo := state.memo, nonAir := start + CountNonAir(ids, registry.air))
        invariant containsAir <==> registry.air in ids
        invariant ResolvePairs(registry, old(state).constants, memo, bytes, at, pairs)
          == Continued(ids, ResolvePairs(registry, old(state).constants, state.memo, bytes, at + k * PAIR_BYTES,
            pairs - k))
      {
        var from := at + k * PAIR_BYTES;
        PairInside(bytes, from, pairs - k);
        ResolveNext(registry, state.constants, state.memo, bytes, from, pairs - k, ids);
        var found := StateOf(registry, state.constants, state.memo, Unsigned16(bytes, from + 1),
          Unsigned16(bytes, from + 3));
        if found == None {
          return false, ids, containsAir;
        }
        CountLast(ids, found.value.id, registry.air);
        state := state.(memo := found.value.memo, nonAir := state.nonAir + CountOne(found.value.id, registry.air));
        ids := ids + [found.value.id];
        containsAir := containsAir || found.value.id == registry.air;
      }
      AllResolved(registry, state.constants, state.memo, bytes, at + pairs * PAIR_BYTES, ids);
      ok := true;
    }

    /** The batch erases the entities in its way, by scanning them if they are
        few and by position otherwise. */
    method EraseRun(pairs: nat)
      modifies this`state
      ensures state == old(state).(entities := old(state).entities - RunPositions(state.extent.pos, pairs))
    {
      var pos := state.extent.pos;
      if |state.entities| < pairs {
        EraseByEntity(pairs);
      } else {
        ghost var before := state;
        hide RunPositions;
        EraseNothing(before.entities, pos);
        for index := 0 to pairs
          invariant state == before.(entities := before.entities - RunPositions(pos, index))
        {
          EraseOne(before.entities, pos, index);
          state := state.(entities := state.entities - {Along(pos, index)});
        }
      }
    }

    method EraseByEntity(pairs: nat)
      modifies this`state
      ensures state == old(state).(entities := old(state).entities - RunPositions(old(state).extent.pos, pairs))
    {
      var pos := state.extent.pos;
      var remaining := state.entities.Keys;
      ghost var before := state;
      while remaining != {}
        invariant remaining <= before.entities.Keys
        invariant state == before.(entities := state.entities)
        invariant state.entities == before.entities - (RunPositions(pos, pairs) - remaining)
        decreases |remaining|
      {
        var p :| p in remaining;
        ghost var kept := state.entities;
        if p.x == pos.x && p.y == pos.y && pos.z <= p.z <= pos.z + pairs - 1 {
          assert p == Along(pos, p.z - pos.z);
          state := state.(entities := state.entities - {p});
        }
        remaining := remaining - {p};
      }
    }

    /** The batched path from the look-ahead to the consumer call. */
    method RunBatch(pairs: nat) returns (ok: bool)
      requires Valid() && pairs >= MINIMUM_PAIRS && ArePairs(bytes, at, pairs) && at + pairs * PAIR_BYTES <= |bytes|
      requires pairs * PAIR_BYTES <= BUFFER_BYTES
      modifies this
      ensures ok ==> Valid() && at == old(at) + pairs * PAIR_BYTES
      ensures Batch(registry, captures, bytes, old(at), old(state), pairs) == if ok then Some(state) else None
    {
      hide ArePairs, ResolvePairs, CountNonAir, RunPositions, Told, Enclosed, Placings, Widen;
      ghost var before := state;
      var ids, containsAir;
      ok, ids, containsAir := ResolveRun(pairs);
      if !ok {
        return;
      }
      assert |ids| == pairs;
      var pos := state.extent.pos;
      if !IsInt32(pos.z + pairs - 1) {
        return false;
      }
      if captures && state.entities != map[] {
        EraseRun(pairs);
      }
      assert captures ==> state.entities == before.entities - RunPositions(pos, pairs);
      state := state.(placed := state.placed + Placings(pos, ids));
      events := events + [ZRun(pos, ids, containsAir)];
      state := state.(extent := Widen(state.extent));
      var end := Shifted(pos, Z, pairs);
      if end == None {
        return false;
      }
      state := state.(extent := Widen(state.extent.(pos := end.value)));
      at := at + pairs * PAIR_BYTES;
      RunEmitted(before, state, old(events), pos, ids, containsAir, registry.air);
      BatchEncloses(registry, captures, bytes, old(at), before, pairs);
    }

    /** One command; only a plain or entity-bearing placement that is not air
        reaches the consumer. */
    method Single() returns (ok: bool)
      requires at < |bytes| && at <= |bytes| && Enclosed(state) && !state.done
      requires Told(events, state.placed, registry.air)
      modifies this
      ensures Step(registry, captures, bytes, old(at), old(state)) == if ok then Some(Stepped(state, at)) else None
      ensures ok ==> at <= |bytes| && Enclosed(state)
      ensures ok ==> Told(events, state.placed, registry.air)
    {
      hide Decode, Execute, Told, Enclosed, Widen;
      var field := Decode(bytes, at);
      if field == None {
        return false;
      }
      var executed := Execute(registry, captures, state, field.value.value);
      if executed == None {
        return false;
      }
      StepEncloses(registry, captures, bytes, at, state);
      ExecutePlacesOne(registry, captures, state, field.value.value);
      if |executed.value.placed| > |state.placed| {
        var placing := executed.value.placed[|state.placed|];
        EventEmitted(state.placed, placing, events, registry.air);
        if placing.id != registry.air {
          events := events + [Block(placing.pos, placing.id)];
        }
      }
      state := executed.value;
      if !MotionOf(field.value.value).Metadata? {
        state := state.(extent := Widen(state.extent));
      }
      at := field.value.next;
      ok := true;
    }

    /** The command loop in full mode: batches wherever a window shows four pairs
        or more, single commands elsewhere. Where the windows are cut does not
        matter. */
    method ReadFull() returns (ok: bool)
      requires at == 0 && state == START && events == []
      modifies this
      ensures Run(registry, captures, bytes, 0, START) == if ok then Some(state) else None
      ensures ok ==> Enclosed(state) && Told(events, state.placed, registry.air)
    {
      hide Run, Step, Batch, ArePairs, Told;
      StartIsValid(registry.air);
      while true
        invariant Valid()
        invariant Run(registry, captures, bytes, 0, START) == Run(registry, captures, bytes, at, state)
        decreases |bytes| - at
      {
        var end := Refill();
        var pairs := CountPairs(end);
        if pairs >= MINIMUM_PAIRS {
          BatchIsSingles(registry, captures, bytes, at, state, pairs);
          ok := RunBatch(pairs);
          if !ok {
            return;
          }
        } else {
          RunStep(registry, captures, bytes, at, state);
          if at == |bytes| {
            return false;
          }
          ok := Single();
          if !ok || state.done {
            return;
          }
        }
      }
    }
  }

  /** The bounds-only mode: a scanner that runs over the fixed-size commands of a
      window, and the slow path for whatever stops it. */
  class BoundsReader {
    const bytes: Bytes

    var at: nat
    var state: Bounds

    constructor (bytes: Bytes)
      ensures this.bytes == bytes && at == 0 && state == NOWHERE
    {
      this.bytes := bytes;
      at, state := 0, NOWHERE;
    }

    method Refill() returns (end: nat)
      requires at <= |bytes|
      ensures at <= end <= |bytes| && end <= at + BUFFER_BYTES && (at < |bytes| ==> at < end)
    {
      if at == |bytes| {
        return at;
      }
      end :| at < end <= |bytes| && end <= at + BUFFER_BYTES;
    }

    /** The window scanner: it stops at the first command it does not know or
        that the window cuts off. */
    method ScanWindow(end: nat) returns (ok: bool)
      requires at <= end <= |bytes| && !state.done
      modifies this
      ensures PassRun(bytes, old(at), old(state)) == if ok then PassRun(bytes, at, state) else None
      ensures ok ==> old(at) <= at <= end && !state.done
    {
      hide PassRun, Pass, DecodeFixed, Follow;
      while at < end
        invariant old(at) <= at <= end && !state.done
        invariant PassRun(bytes, old(at), old(state)) == PassRun(bytes, at, state)
        decreases end - at
      {
        var length := FixedLength(bytes[at]);
        if length == 0 || length > end - at {
          break;
        }
        ScanOne(bytes, at, state);
        var followed := Follow(state, MotionOf(DecodeFixed(bytes, at)));
        if followed == None {
          return false;
        }
        state := followed.value;
        at := at + length;
      }
      ok := true;
    }

    method Single() returns (ok: bool)
      requires at < |bytes|
      modifies this
      ensures PassStep(bytes, old(at), old(state)) == if ok then Some(Stepped(state, at)) else None
    {
      hide Pass, Follow;
      var field := Pass(bytes, at);
      if field == None {
        return false;
      }
      var followed := Follow(state, field.value.value);
      if followed == None {
        return false;
      }
      state, at, ok := followed.value, field.value.next, true;
    }

    /** The command loop in bounds-only mode: the windows do not matter. */
    method ReadBounds() returns (ok: bool)
      requires at == 0 && state == NOWHERE
      modifies this
      ensures PassRun(bytes, 0, NOWHERE) == if ok then Some(state) else None
    {
      hide PassRun, PassStep;
      while true
        invariant at <= |bytes| && !state.done
        invariant PassRun(bytes, 0, NOWHERE) == PassRun(bytes, at, state)
        decreases |bytes| - at
      {
        var start := at;
        var end := Refill();
        ok := ScanWindow(end);
        if !ok {
          return;
        }
        if at == start {
          PassRunStep(bytes, at, state);
          if at == |bytes| {
            return false;
          }
          ok := Single();
          if !ok || state.done {
            return;
          }
        }
      }
    }
  }

  lemma ScanOne(bytes: Bytes, at: nat, b: Bounds)
    requires at < |bytes| && 0 < FixedLength(bytes[at]) <= |bytes| - at && !b.done
    ensures PassRun(bytes, at, b)
      == match Follow(b, MotionOf(DecodeFixed(bytes, at)))
         case None => None
         case Some(next) => PassRun(bytes, at + FixedLength(bytes[at]), next)
    ensures var followed := Follow(b, MotionOf(DecodeFixed(bytes, at)));
      followed.Some? ==> !followed.value.done
  {
    PassFollowsFixed(bytes, at);
    assert !MotionOf(DecodeFixed(bytes, at)).Halt?;
    hide DecodeFixed, Pass, FixedLength, MotionOf;
  }

  lemma PassRunStep(bytes: Bytes, at: nat, b: Bounds)
    requires at <= |bytes|
    ensures at == |bytes| ==> PassRun(bytes, at, b) == None
    ensures at < |bytes| ==>
      PassRun(bytes, at, b)
        == match PassStep(bytes, at, b)
           case None => None
           case Some(stepped) =>
             if stepped.state.done then Some(stepped.state) else PassRun(bytes, stepped.next, stepped.state)
  {
  }

  lemma StartIsValid(air: RuntimeId)
    ensures Enclosed(START) && Told([], START.placed, air)
  {
  }

  lemma RunStep(registry: Registry, captures: bool, bytes: Bytes, at: nat, s: State)
    requires at <= |bytes|
    ensures at == |bytes| ==> Run(registry, captures, bytes, at, s) == None
    ensures at < |bytes| ==>
      Run(registry, captures, bytes, at, s)
        == match Step(registry, captures, bytes, at, s)
           case None => None
           case Some(stepped) =>
             if stepped.state.done then Some(stepped.state)
             else Run(registry, captures, bytes, stepped.next, stepped.state)
  {
  }

  lemma BatchEncloses(registry: Registry, captures: bool, bytes: Bytes, at: nat, s: State, pairs: nat)
    requires Enclosed(s) && ArePairs(bytes, at, pairs) && Batch(registry, captures, bytes, at, s, pairs).Some?
    ensures Enclosed(Batch(registry, captures, bytes, at, s, pairs).value)
  {
  }

  lemma RunEmitted(
    before: State, after: State, events: seq<Placement>, pos: BlockPos, ids: seq<RuntimeId>, containsAir: bool,
    air: RuntimeId)
    requires Told(events, before.placed, air) && after.placed == before.placed + Placings(pos, ids)
    requires containsAir <==> air in ids
    ensures Told(events + [ZRun(pos, ids, containsAir)], after.placed, air)
  {
    assert (events + [ZRun(pos, ids, containsAir)])[..|events|] == events;
    NonAirOfConcat(before.placed, Placings(pos, ids), air);
  }

  lemma EventEmitted(placed: seq<Placing>, placing: Placing, events: seq<Placement>, air: RuntimeId)
    requires Told(events, placed, air)
    ensures placing.id == air ==> Told(events, placed + [placing], air)
    ensures placing.id != air ==> Told(events + [Block(placing.pos, placing.id)], placed + [placing], air)
  {
    assert (placed + [placing])[..|placed|] == placed;
    assert (events + [Block(placing.pos, placing.id)])[..|events|] == events;
  }

  lemma PlaceAdds(registry: Registry, captures: bool, s: State, id: RuntimeId, entity: Option<Entity>)
    requires PlaceBlock(registry, captures, s, id, entity).Some?
    ensures PlaceBlock(registry, captures, s, id, entity).value.placed == s.placed + [Placing(s.extent.pos, id)]
  {
  }

  /** A command places at most one block, at the cursor. */
  lemma ExecutePlacesOne(registry: Registry, captures: bool, s: State, command: Command)
    requires Execute(registry, captures, s, command).Some?
    ensures var r := Execute(registry, captures, s, command).value;
      r.placed == s.placed || exists id :: r.placed == s.placed + [Placing(s.extent.pos, id)]
    ensures var r := Execute(registry, captures, s, command).value;
      |r.placed| > |s.placed| ==> r.placed == s.placed + [r.placed[|s.placed|]]
  {
    match command {
      case PlaceState(name, states, entity) =>
        var found := StateOf(registry, s.constants, s.memo, name, states).value;
        PlaceAdds(registry, captures, s.(memo := found.memo), found.id, entity);
      case PlaceLegacy(name, data, entity) =>
        var found := LegacyOf(registry, s.constants, s.memo, name, data);
        PlaceAdds(registry, captures, s.(memo := found.memo), found.id, entity);
      case PlaceText(name, text) =>
        PlaceAdds(registry, captures, s, ResolveText(registry, s.constants, name, text).value, None);
      case PlaceIndexed(index, entity) =>
        var loaded := if s.cachedPool == s.pool then s
          else s.(cachedPool := s.pool, cachedRuntimes := registry.pool(s.pool));
        PlaceAdds(registry, captures, loaded, loaded.cachedRuntimes[index], entity);
      case PlaceCommandBlock(data, block) =>
        PlaceAdds(registry, captures, s, registry.commandBlock(block.mode, data), Some(CommandEntity(block)));
      case _ =>
    }
  }

  lemma EraseNothing(entities: map<BlockPos, (Entity, RuntimeId)>, pos: BlockPos)
    ensures entities - RunPositions(pos, 0) == entities
  {
  }

  lemma EraseOne(entities: map<BlockPos, (Entity, RuntimeId)>, pos: BlockPos, index: nat)
    ensures entities - RunPositions(pos, index + 1) == (entities - RunPositions(pos, index)) - {Along(pos, index)}
  {
    assert RunPositions(pos, index + 1) == RunPositions(pos, index) + {Along(pos, index)};
  }

  lemma PairInside(bytes: Bytes, at: nat, pairs: nat)
    requires pairs > 0 && ArePairs(bytes, at, pairs)
    ensures at + PAIR_BYTES <= |bytes| && ArePairs(bytes, at + PAIR_BYTES, pairs - 1)
  {
    PairsSplit(bytes, at, pairs);
  }

  lemma NothingResolved(ids: seq<RuntimeId>, rest: Option<Resolved>, air: RuntimeId)
    requires ids == []
    ensures Continued(ids, rest) == rest && CountNonAir(ids, air) == 0
  {
    if rest.Some? {
      assert [] + rest.value.ids == rest.value.ids;
    }
  }

  /** One more lookup of a run. */
  lemma ResolveNext(
    registry: Registry, constants: seq<Bytes>, memo: Memo, bytes: Bytes, at: nat, pairs: nat, ids: seq<RuntimeId>)
    requires pairs > 0 && ArePairs(bytes, at, pairs)
    ensures at + PAIR_BYTES <= |bytes| && ArePairs(bytes, at + PAIR_BYTES, pairs - 1)
    ensures
      var found := StateOf(registry, constants, memo, Unsigned16(bytes, at + 1), Unsigned16(bytes, at + 3));
      Continued(ids, ResolvePairs(registry, constants, memo, bytes, at, pairs))
        == match found
           case None => None
           case Some(f) => Continued(ids + [f.id],
             ResolvePairs(registry, constants, f.memo, bytes, at + PAIR_BYTES, pairs - 1))
  {
    PairsSplit(bytes, at, pairs);
    var found := StateOf(registry, constants, memo, Unsigned16(bytes, at + 1), Unsigned16(bytes, at + 3));
    hide StateOf, ArePairs;
    if found.Some? {
      var rest := ResolvePairs(registry, constants, found.value.memo, bytes, at + PAIR_BYTES, pairs - 1);
      assert ResolvePairs(registry, constants, memo, bytes, at, pairs) == Continued([found.value.id], rest);
      ContinuedOnce(ids, found.value.id, rest);
    }
  }

  lemma AllResolved(registry: Registry, constants: seq<Bytes>, memo: Memo, bytes: Bytes, at: nat, ids: seq<RuntimeId>)
    requires ArePairs(bytes, at, 0)
    ensures Continued(ids, ResolvePairs(registry, constants, memo, bytes, at, 0)) == Some(Resolved(memo, ids))
  {
    assert ids + [] == ids;
  }

  /** A prefix of lookups in front of the outcome of the others. */
  function Continued(ids: seq<RuntimeId>, rest: Option<Resolved>): Option<Resolved> {
    match rest
    case None => None
    case Some(r) => Some(Resolved(r.memo, ids + r.ids))
  }

  lemma ContinuedOnce(ids: seq<RuntimeId>, id: RuntimeId, rest: Option<Resolved>)
    ensures Continued(ids, Continued([id], rest)) == Continued(ids + [id], rest)
  {
    if rest.Some? {
      assert ids + ([id] + rest.value.ids) == ids + [id] + rest.value.ids;
    }
  }

  lemma {:induction false} CountLast(ids: seq<RuntimeId>, id: RuntimeId, air: RuntimeId)
    ensures CountNonAir(ids + [id], air) == CountNonAir(ids, air) + CountOne(id, air)
  {
    if ids != [] {
      assert (ids + [id])[1..] == ids[1..] + [id];
      CountLast(ids[1..], id, air);
    }
  }
}
