/** The batched execution of a run of (5, 18) pairs in `BdxStructure::read`, and
    why it is the same as executing its commands one at a time. */
module BdxBatches {
  import opened Options
  import opened Coordinates
  import opened BdxBytes
  import opened BdxCommands
  import opened RuntimeMemos
  import opened BdxMachine

  const PAIR_BYTES := 6
  const BUFFER_BYTES := 1024 * 1024  // the decoder's output buffer, hence the longest window
  const MINIMUM_PAIRS := 4

  predicate IsPair(bytes: Bytes, at: nat) {
    at + PAIR_BYTES <= |bytes| && bytes[at] == 5 && bytes[at + 5] == 18
  }

  predicate ArePairs(bytes: Bytes, at: nat, pairs: nat) {
    forall k | 0 <= k < pairs :: IsPair(bytes, at + k * PAIR_BYTES)
  }

  lemma PairsSplit(bytes: Bytes, at: nat, pairs: nat)
    requires pairs > 0 && ArePairs(bytes, at, pairs)
    ensures IsPair(bytes, at) && ArePairs(bytes, at + PAIR_BYTES, pairs - 1)
  {
    assert IsPair(bytes, at + 0 * PAIR_BYTES);
    forall k | 0 <= k < pairs - 1
      ensures IsPair(bytes, at + PAIR_BYTES + k * PAIR_BYTES)
    {
      assert IsPair(bytes, at + (k + 1) * PAIR_BYTES);
    }
  }

  datatype Resolved = Resolved(memo: Memo, ids: seq<RuntimeId>)

  /** The lookups of a run, in order, each seeing the memo of the one before. */
  function ResolvePairs(registry: Registry, constants: seq<Bytes>, memo: Memo, bytes: Bytes, at: nat,
      pairs: nat): (r: Option<Resolved>)
    requires ArePairs(bytes, at, pairs)
    ensures r.Some? ==> |r.value.ids| == pairs
    decreases pairs
  {
    if pairs == 0 then Some(Resolved(memo, []))
    else
      PairsSplit(bytes, at, pairs);
      match StateOf(registry, constants, memo, Unsigned16(bytes, at + 1), Unsigned16(bytes, at + 3))
      case None => None
      case Some(found) =>
        match ResolvePairs(registry, constants, found.memo, bytes, at + PAIR_BYTES, pairs - 1)
        case None => None
        case Some(rest) => Some(Resolved(rest.memo, [found.id] + rest.ids))
  }

  function Placings(pos: BlockPos, ids: seq<RuntimeId>): (placings: seq<Placing>)
    ensures |placings| == |ids|
  {
    seq(|ids|, k requires 0 <= k < |ids| => Placing(Along(pos, k), ids[k]))
  }

  function CountNonAir(ids: seq<RuntimeId>, air: RuntimeId): nat {
    if ids == [] then 0 else CountOne(ids[0], air) + CountNonAir(ids[1..], air)
  }

  function RunPositions(pos: BlockPos, length: nat): set<BlockPos> {
    set k | 0 <= k < length :: Along(pos, k)
  }

  /** The effect of the batched path on the state. */
  function Batch(registry: Registry, captures: bool, bytes: Bytes, at: nat, s: State, pairs: nat): Option<State>
    requires ArePairs(bytes, at, pairs)
  {
    match ResolvePairs(registry, s.constants, s.memo, bytes, at, pairs)
    case None => None
    case Some(resolved) => RunOn(registry, captures, s, resolved)
  }

  function RunOn(registry: Registry, captures: bool, s: State, resolved: Resolved): Option<State> {
    var pos, pairs := s.extent.pos, |resolved.ids|;
    if !IsInt32(pos.z + pairs - 1) || pairs > INT32_MAX then None
    else
      match Shifted(pos, Z, pairs)
      case None => None
      case Some(end) =>
        Some(s.(
          extent := Widen(Widen(s.extent).(pos := end)),
          memo := resolved.memo,
          placed := s.placed + Placings(pos, resolved.ids),
          nonAir := s.nonAir + CountNonAir(resolved.ids, registry.air),
          entities := if captures then s.entities - RunPositions(pos, pairs) else s.entities))
  }

  /** The two commands of one pair, one at a time. */
  function PairStep(registry: Registry, captures: bool, bytes: Bytes, at: nat, s: State): Option<State>
    requires IsPair(bytes, at)
  {
    match Step(registry, captures, bytes, at, s)
    case None => None
    case Some(placed) =>
      match Step(registry, captures, bytes, at + 5, placed.state)
      case None => None
      case Some(moved) => Some(moved.state)
  }

  lemma PairStepIsBatch(registry: Registry, captures: bool, bytes: Bytes, at: nat, s: State)
    requires IsPair(bytes, at) && ArePairs(bytes, at, 1) && IsInt32(s.extent.pos.z)
    ensures PairStep(registry, captures, bytes, at, s) == Batch(registry, captures, bytes, at, s, 1)
    ensures Step(registry, captures, bytes, at, s).Some? ==> Step(registry, captures, bytes, at, s).value.next == at + 5
  {
    PairsSplit(bytes, at, 1);
    var name, states := Unsigned16(bytes, at + 1), Unsigned16(bytes, at + 3);
    assert Decode(bytes, at) == Some(Field(PlaceState(name, states, None), at + 5));
    assert Decode(bytes, at + 5) == Some(Field(Move(Z, 1), at + 6));
    hide Decode, StateOf;
    var found := StateOf(registry, s.constants, s.memo, name, states);
    if found.Some? {
      var ids := [found.value.id];
      assert ResolvePairs(registry, s.constants, found.value.memo, bytes, at + PAIR_BYTES, 0)
        == Some(Resolved(found.value.memo, []));
      assert [found.value.id] + [] == ids;
      assert ResolvePairs(registry, s.constants, s.memo, bytes, at, 1) == Some(Resolved(found.value.memo, ids));
      OneCell(s.extent.pos, ids, registry.air);
      var placed := Step(registry, captures, bytes, at, s).value.state;
      hide ResolvePairs, Placings, CountNonAir, RunPositions;
      assert Step(registry, captures, bytes, at + 5, placed)
        == match Shifted(s.extent.pos, Z, 1)
           case None => None
           case Some(end) => Some(Stepped(placed.(extent := Widen(placed.extent.(pos := end))), at + 6));
    }
  }

  lemma OneCell(pos: BlockPos, ids: seq<RuntimeId>, air: RuntimeId)
    requires |ids| == 1
    ensures Placings(pos, ids) == [Placing(pos, ids[0])] && CountNonAir(ids, air) == CountOne(ids[0], air)
    ensures RunPositions(pos, 1) == {pos}
  {
    assert Along(pos, 0) == pos;
  }

  /** A batch of several pairs is its first pair and then the rest. */
  lemma BatchUnrolls(registry: Registry, captures: bool, bytes: Bytes, at: nat, s: State, pairs: nat)
    requires 1 < pairs <= BUFFER_BYTES && ArePairs(bytes, at, pairs) && IsInt32(s.extent.pos.z)
    ensures ArePairs(bytes, at, 1) && ArePairs(bytes, at + PAIR_BYTES, pairs - 1)
    ensures Batch(registry, captures, bytes, at, s, pairs)
      == match Batch(registry, captures, bytes, at, s, 1)
         case None => None
         case Some(first) => Batch(registry, captures, bytes, at + PAIR_BYTES, first, pairs - 1)
  {
    PairsSplit(bytes, at, pairs);
    assert ArePairs(bytes, at, 1) by {
      assert IsPair(bytes, at + 0 * PAIR_BYTES);
    }
    var name, states := Unsigned16(bytes, at + 1), Unsigned16(bytes, at + 3);
    var found := StateOf(registry, s.constants, s.memo, name, states);
    hide StateOf;
    if found.Some? {
      var memo := found.value.memo;
      assert ResolvePairs(registry, s.constants, memo, bytes, at + PAIR_BYTES, 0) == Some(Resolved(memo, []));
      assert [found.value.id] + [] == [found.value.id];
      var rest := ResolvePairs(registry, s.constants, memo, bytes, at + PAIR_BYTES, pairs - 1);
      hide ResolvePairs, RunOn;
      if rest.Some? {
        RunOnUnrolls(registry, captures, s, Resolved(memo, [found.value.id]), rest.value);
      }
    }
  }

  lemma RunOnUnrolls(registry: Registry, captures: bool, s: State, one: Resolved, rest: Resolved)
    requires |one.ids| == 1 && 0 < |rest.ids| < BUFFER_BYTES && IsInt32(s.extent.pos.z)
    ensures RunOn(registry, captures, s, Resolved(rest.memo, one.ids + rest.ids))
      == match RunOn(registry, captures, s, one)
         case None => None
         case Some(first) => RunOn(registry, captures, first, rest)
  {
    var pos, ids := s.extent.pos, one.ids + rest.ids;
    var next := Along(pos, 1);
    OneCell(pos, one.ids, registry.air);
    assert ids[1..] == rest.ids;
    assert Placings(pos, ids) == Placings(pos, one.ids) + Placings(next, rest.ids);
    assert CountNonAir(ids, registry.air) == CountNonAir(one.ids, registry.air) + CountNonAir(rest.ids, registry.air);
    PositionsUnroll(pos, |rest.ids|);
    hide Placings, CountNonAir, RunPositions, Widen;
    WidenAlong(s.extent, |rest.ids|);
    assert s.entities - RunPositions(pos, |ids|)
      == (s.entities - RunPositions(pos, 1)) - RunPositions(next, |rest.ids|);
    assert s.placed + (Placings(pos, one.ids) + Placings(next, rest.ids))
      == (s.placed + Placings(pos, one.ids)) + Placings(next, rest.ids);
  }

  lemma WidenAlong(e: Extent, length: nat)
    ensures var first := Widen(Widen(e).(pos := Along(e.pos, 1)));
      Widen(Widen(e).(pos := Along(e.pos, 1 + length))) == Widen(Widen(first).(pos := Along(first.pos, length)))
  {
  }

  lemma PositionsUnroll(pos: BlockPos, length: nat)
    ensures RunPositions(pos, 1 + length) == RunPositions(pos, 1) + RunPositions(Along(pos, 1), length)
  {
    forall p
      ensures p in RunPositions(pos, 1 + length) <==>
        p in RunPositions(pos, 1) || p in RunPositions(Along(pos, 1), length)
    {
      assert forall k | 0 <= k < length :: Along(Along(pos, 1), k) == Along(pos, k + 1);
      if p in RunPositions(pos, 1 + length) {
        var k :| 0 <= k < 1 + length && p == Along(pos, k);
        assert k > 0 ==> p == Along(Along(pos, 1), k - 1);
      }
    }
  }

  function RunAfter(registry: Registry, captures: bool, bytes: Bytes, at: nat, batched: Option<State>): Option<State> {
    match batched
    case None => None
    case Some(after) => Run(registry, captures, bytes, at, after)
  }

  /** Running a stream through a batch is running its commands one by one,
      failure included. */
  lemma {:induction false} BatchIsSingles(registry: Registry, captures: bool, bytes: Bytes, at: nat, s: State,
      pairs: nat)
    requires 0 < pairs <= BUFFER_BYTES && ArePairs(bytes, at, pairs) && IsInt32(s.extent.pos.z) && !s.done
    ensures Run(registry, captures, bytes, at, s)
      == RunAfter(registry, captures, bytes, at + pairs * PAIR_BYTES, Batch(registry, captures, bytes, at, s, pairs))
    decreases pairs
  {
    hide Batch, Run, RunAfter, IsInt32, ArePairs, IsPair;
    PairsSplit(bytes, at, pairs);
    PairRuns(registry, captures, bytes, at, s);
    if pairs > 1 {
      BatchUnrolls(registry, captures, bytes, at, s, pairs);
      var first := Batch(registry, captures, bytes, at, s, 1);
      if first.Some? {
        BatchStays(registry, captures, bytes, at, s, 1);
        BatchIsSingles(registry, captures, bytes, at + PAIR_BYTES, first.value, pairs - 1);
      }
      AfterNothing(registry, captures, bytes, at);
      AfterSome(registry, captures, bytes, at + PAIR_BYTES, first);
    }
  }

  lemma AfterNothing(registry: Registry, captures: bool, bytes: Bytes, at: nat)
    ensures forall k: nat :: RunAfter(registry, captures, bytes, k, None) == None
  {
  }

  lemma AfterSome(registry: Registry, captures: bool, bytes: Bytes, at: nat, batched: Option<State>)
    ensures batched.Some? ==>
      RunAfter(registry, captures, bytes, at, batched) == Run(registry, captures, bytes, at, batched.value)
  {
  }

  lemma BatchStays(registry: Registry, captures: bool, bytes: Bytes, at: nat, s: State, pairs: nat)
    requires ArePairs(bytes, at, pairs) && Batch(registry, captures, bytes, at, s, pairs).Some?
    ensures var after := Batch(registry, captures, bytes, at, s, pairs).value;
      IsInt32(after.extent.pos.z) && after.done == s.done
  {
  }

  lemma PairRuns(registry: Registry, captures: bool, bytes: Bytes, at: nat, s: State)
    requires IsPair(bytes, at) && IsInt32(s.extent.pos.z) && !s.done
    ensures ArePairs(bytes, at, 1)
    ensures Run(registry, captures, bytes, at, s)
      == RunAfter(registry, captures, bytes, at + PAIR_BYTES, Batch(registry, captures, bytes, at, s, 1))
  {
    assert ArePairs(bytes, at, 1) by {
      assert IsPair(bytes, at + 0 * PAIR_BYTES);
    }
    PairStepIsBatch(registry, captures, bytes, at, s);
    StepsOfPair(registry, captures, bytes, at, s);
    hide Step, Batch;
    var placed := Step(registry, captures, bytes, at, s);
    if placed.Some? {
      assert Run(registry, captures, bytes, at, s) == Run(registry, captures, bytes, at + 5, placed.value.state);
    }
  }

  lemma StepsOfPair(registry: Registry, captures: bool, bytes: Bytes, at: nat, s: State)
    requires IsPair(bytes, at)
    ensures var placed := Step(registry, captures, bytes, at, s);
      placed.Some? ==>
        && placed.value.next == at + 5 && placed.value.state.done == s.done
        && var moved := Step(registry, captures, bytes, at + 5, placed.value.state);
          moved.Some? ==> moved.value.next == at + 6 && moved.value.state.done == s.done
  {
    var name, states := Unsigned16(bytes, at + 1), Unsigned16(bytes, at + 3);
    assert Decode(bytes, at) == Some(Field(PlaceState(name, states, None), at + 5));
    assert Decode(bytes, at + 5) == Some(Field(Move(Z, 1), at + 6));
    hide Decode, StateOf;
  }
}
