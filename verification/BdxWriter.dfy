/** `write_bdx`: the walk over a structure's blocks, the moves and constants it
    emits, and what the reader makes of them. */
module BdxWriters {
  import opened Options
  import opened Coordinates
  import opened StructureCells
  import opened BdxBytes
  import opened BdxCommands
  import opened RuntimeMemos
  import opened BdxMachine
  import opened BdxEncodings

  const PALETTE_LIMIT := 0x1_0000 / 2

  /** A coordinate difference as int32 moves: none for zero, and more than one
      when it does not fit. */
  function MovesFor(axis: Axis, difference: int): seq<Command>
    decreases Abs(difference)
  {
    if difference == 0 then []
    else if difference > INT32_MAX then [Move(axis, INT32_MAX)] + MovesFor(axis, difference - INT32_MAX)
    else if difference < INT32_MIN then [Move(axis, INT32_MIN)] + MovesFor(axis, difference - INT32_MIN)
    else [Move(axis, difference)]
  }

  function WithCoordinate(b: BlockPos, axis: Axis, value: int): BlockPos {
    match axis
    case X => b.(x := value)
    case Y => b.(y := value)
    case Z => b.(z := value)
  }

  /** The box after the cursor has gone along one axis. */
  function Reached(e: Extent, axis: Axis, value: int): Extent {
    Widen(e.(pos := WithCoordinate(e.pos, axis, value)))
  }

  predicate InInt32(b: BlockPos) {
    IsInt32(b.x) && IsInt32(b.y) && IsInt32(b.z)
  }

  /** The moves for one axis land on the target, however far it is, without the
      cursor ever leaving int32, and pass only through positions between. */
  lemma {:induction false} MovesLand(registry: Registry, captures: bool, s: State, axis: Axis, value: int)
    requires InInt32(s.extent.pos) && IsInt32(value) && Widen(s.extent) == s.extent
    ensures ExecuteAll(registry, captures, s, MovesFor(axis, value - Coordinate(s.extent.pos, axis)))
      == Some(s.(extent := Reached(s.extent, axis, value)))
    decreases Abs(value - Coordinate(s.extent.pos, axis))
  {
    var at := Coordinate(s.extent.pos, axis);
    var difference := value - at;
    hide ExecuteOne, Reached, Widen, ExecuteAll;
    if difference == 0 {
      NoMove(registry, captures, s, axis);
    } else if IsInt32(difference) {
      OneMove(registry, captures, s, axis, difference);
      ExecuteSingle(registry, captures, s, Move(axis, difference));
    } else {
      var step := if difference > 0 then INT32_MAX else INT32_MIN;
      var next := s.(extent := Reached(s.extent, axis, at + step));
      OneMove(registry, captures, s, axis, step);
      MovesLand(registry, captures, next, axis, value);
      ReachedAgain(s.extent, axis, at + step, value);
      var commands := MovesFor(axis, difference);
      assert commands == [Move(axis, step)] + MovesFor(axis, difference - step);
      assert commands[1..] == MovesFor(axis, difference - step);
      ExecuteAllFirst(registry, captures, s, commands);
    }
  }

  lemma NoMove(registry: Registry, captures: bool, s: State, axis: Axis)
    requires Widen(s.extent) == s.extent
    ensures ExecuteAll(registry, captures, s, []) == Some(s)
    ensures Reached(s.extent, axis, Coordinate(s.extent.pos, axis)) == s.extent
  {
  }

  lemma ExecuteSingle(registry: Registry, captures: bool, s: State, command: Command)
    ensures ExecuteAll(registry, captures, s, [command]) == ExecuteOne(registry, captures, s, command)
  {
    hide ExecuteOne;
    assert [command][..0] == [];
  }

  lemma OneMove(registry: Registry, captures: bool, s: State, axis: Axis, step: int)
    requires IsInt32(Coordinate(s.extent.pos, axis) + step)
    ensures var value := Coordinate(s.extent.pos, axis) + step;
      && ExecuteOne(registry, captures, s, Move(axis, step)) == Some(s.(extent := Reached(s.extent, axis, value)))
      && Coordinate(Reached(s.extent, axis, value).pos, axis) == value
      && Widen(Reached(s.extent, axis, value)) == Reached(s.extent, axis, value)
    ensures InInt32(s.extent.pos) ==> InInt32(Reached(s.extent, axis, Coordinate(s.extent.pos, axis) + step).pos)
  {
  }

  lemma ReachedAgain(e: Extent, axis: Axis, via: int, value: int)
    requires Widen(e) == e
    requires Coordinate(e.pos, axis) <= via <= value || value <= via <= Coordinate(e.pos, axis)
    ensures Reached(Reached(e, axis, via), axis, value) == Reached(e, axis, value)
  {
  }

  lemma {:induction false} ExecuteAllConcat(registry: Registry, captures: bool, s: State, a: seq<Command>,
      b: seq<Command>)
    ensures ExecuteAll(registry, captures, s, a + b)
      == match ExecuteAll(registry, captures, s, a)
         case None => None
         case Some(middle) => ExecuteAll(registry, captures, middle, b)
  {
    if b == [] {
      assert a + b == a;
    } else {
      var init, last := b[..|b| - 1], b[|b| - 1];
      assert (a + b)[..|a + b| - 1] == a + init && (a + b)[|a + b| - 1] == last;
      ExecuteAllConcat(registry, captures, s, a, init);
      hide ExecuteOne;
    }
  }

  function MoveTo(cursor: BlockPos, target: BlockPos): seq<Command> {
    MovesFor(X, target.x - cursor.x) + MovesFor(Y, target.y - cursor.y) + MovesFor(Z, target.z - cursor.z)
  }

  /** Moving axis by axis reaches the target, and the box grows by it alone. */
  lemma MoveLands(registry: Registry, captures: bool, s: State, target: BlockPos)
    requires InInt32(s.extent.pos) && InInt32(target) && Widen(s.extent) == s.extent
    ensures ExecuteAll(registry, captures, s, MoveTo(s.extent.pos, target))
      == Some(s.(extent := Widen(s.extent.(pos := target))))
  {
    hide ExecuteAll, MovesFor, Reached, Widen, InInt32, IsInt32, Coordinate;
    var cursor := s.extent.pos;
    var x, y, z := MovesFor(X, target.x - cursor.x), MovesFor(Y, target.y - cursor.y), MovesFor(Z, target.z - cursor.z);
    AxesReached(s.extent, target);
    var s1 := s.(extent := Reached(s.extent, X, target.x));
    var s2 := s.(extent := Reached(s1.extent, Y, target.y));
    AxisLands(registry, captures, s, s1, X, target.x, target.x - cursor.x);
    AxisLands(registry, captures, s1, s2, Y, target.y, target.y - cursor.y);
    var s3 := s.(extent := Reached(s2.extent, Z, target.z));
    AxisLands(registry, captures, s2, s3, Z, target.z, target.z - cursor.z);
    Chained(registry, captures, s, x, s1, y, s2);
    Chained(registry, captures, s, x + y, s2, z, s3);
  }

  lemma Chained(registry: Registry, captures: bool, s: State, a: seq<Command>, t: State, b: seq<Command>, u: State)
    requires ExecuteAll(registry, captures, s, a) == Some(t) && ExecuteAll(registry, captures, t, b) == Some(u)
    ensures ExecuteAll(registry, captures, s, a + b) == Some(u)
  {
    ExecuteAllConcat(registry, captures, s, a, b);
  }

  lemma AxisLands(registry: Registry, captures: bool, s: State, t: State, axis: Axis, value: int, difference: int)
    requires InInt32(s.extent.pos) && IsInt32(value) && Widen(s.extent) == s.extent
    requires
      difference
        == value - (match axis case X => s.extent.pos.x case Y => s.extent.pos.y case Z => s.extent.pos.z)
    requires t == s.(extent := Reached(s.extent, axis, value))
    ensures ExecuteAll(registry, captures, s, MovesFor(axis, difference)) == Some(t)
  {
    hide ExecuteAll, MovesFor, Reached, Widen, InInt32, IsInt32;
    MovesLand(registry, captures, s, axis, value);
  }

  lemma AxesReached(e: Extent, target: BlockPos)
    requires InInt32(e.pos) && InInt32(target) && Widen(e) == e
    ensures var ex := Reached(e, X, target.x);
      var ey := Reached(ex, Y, target.y);
      && Widen(ex) == ex && Widen(ey) == ey && InInt32(ex.pos) && InInt32(ey.pos)
      && ex.pos == e.pos.(x := target.x) && ey.pos == target.(z := e.pos.z)
      && Reached(ey, Z, target.z) == Widen(e.(pos := target))
    ensures IsInt32(target.x) && IsInt32(target.y) && IsInt32(target.z)
  {
  }

  /** The texts of the palette entries in the order of their first use: entry k
      owns the constants 2k and 2k + 1. */
  function ConstantsOf(texts: RuntimeId -> (Bytes, Bytes), order: seq<RuntimeId>): (constants: seq<Bytes>)
    ensures |constants| == 2 * |order|
  {
    if order == [] then []
    else
      var last := |order| - 1;
      ConstantsOf(texts, order[..last]) + [texts(order[last]).0, texts(order[last]).1]
  }

  function TextBytes(texts: RuntimeId -> (Bytes, Bytes), order: seq<RuntimeId>): nat {
    if order == [] then 0
    else
      var last := |order| - 1;
      TextBytes(texts, order[..last]) + |texts(order[last]).0| + |texts(order[last]).1|
  }

  lemma {:induction false} ConstantsAt(texts: RuntimeId -> (Bytes, Bytes), order: seq<RuntimeId>, k: nat)
    requires k < |order|
    ensures ConstantsOf(texts, order)[2 * k] == texts(order[k]).0
    ensures ConstantsOf(texts, order)[2 * k + 1] == texts(order[k]).1
  {
    if k < |order| - 1 {
      ConstantsAt(texts, order[..|order| - 1], k);
    }
  }

  /** The reader finds a block again under its texts, and the texts can be
      written as C strings. */
  ghost predicate Faithful(registry: Registry, texts: RuntimeId -> (Bytes, Bytes), id: RuntimeId) {
    var (name, states) := texts(id);
    && 0 !in name && 0 !in states && |name| <= MAXIMUM_STRING_BYTES && |states| <= MAXIMUM_STRING_BYTES
    && registry.stateRuntime(name, states) == Some(id) && id != registry.air
  }

  /** Every remembered pair was defined when it was used, so that later
      definitions cannot make the memo lie. */
  ghost predicate Settled(registry: Registry, constants: seq<Bytes>, memo: Memo) {
    && Truthful(registry, constants, memo)
    && (forall slot | slot in memo.direct ::
          memo.direct[slot].0 / 0x1_0000 < |constants| && memo.direct[slot].0 % 0x1_0000 < |constants|)
    && (forall key | key in memo.states :: key / 0x1_0000 < |constants| && key % 0x1_0000 < |constants|)
  }

  lemma SettledByDefinition(registry: Registry, constants: seq<Bytes>, memo: Memo, text: Bytes)
    requires Settled(registry, constants, memo)
    ensures Settled(registry, constants + [text], memo)
  {
    var more := constants + [text];
    assert forall k | 0 <= k < |constants| :: more[k] == constants[k];
    forall key: nat, id: RuntimeId | key / 0x1_0000 < |constants| && key % 0x1_0000 < |constants|
      && KeyMeans(registry, constants, key, id)
      ensures KeyMeans(registry, more, key, id)
    {
    }
  }

  lemma SettledByUse(registry: Registry, constants: seq<Bytes>, memo: Memo, name: nat, states: nat)
    requires Settled(registry, constants, memo) && name < |constants| && states < |constants| <= 0x1_0000
    ensures var found := StateOf(registry, constants, memo, name, states);
      match registry.stateRuntime(constants[name], constants[states])
      case None => found == None
      case Some(id) => found.Some? && found.value.id == id && Settled(registry, constants, found.value.memo)
  {
    StateOfIsMeaning(registry, constants, memo, name, states);
    var key := PairKey(name, states);
    assert key / 0x1_0000 == name && key % 0x1_0000 == states;
    hide Truthful, StateMeaning;
  }

  /** The box after the cursor has visited the placed blocks from the origin. */
  function HighOf(placed: seq<Placing>): BlockPos {
    if placed == [] then ORIGIN
    else
      var high, p := HighOf(placed[..|placed| - 1]), placed[|placed| - 1].pos;
      BlockPos(Larger(high.x, p.x), Larger(high.y, p.y), Larger(high.z, p.z))
  }

  /** What the reader holds after the commands written so far. */
  ghost predicate ReaderAgrees(
    r: State, registry: Registry, texts: RuntimeId -> (Bytes, Bytes), order: seq<RuntimeId>, placed: seq<Placing>,
    cursor: BlockPos)
  {
    && r.extent == Extent(cursor, ORIGIN, Highest(HighOf(placed), cursor))
    && r.placed == placed && r.nonAir == |placed| && r.entities == map[] && !r.done
    && r.constants == ConstantsOf(texts, order) && r.constantBytes == TextBytes(texts, order)
    && Settled(registry, r.constants, r.memo)
  }

  /** The reader follows as long as the constants fit its table, and not a byte
      longer. */
  ghost predicate Understood(
    r: Option<State>, registry: Registry, texts: RuntimeId -> (Bytes, Bytes), order: seq<RuntimeId>,
    placed: seq<Placing>, cursor: BlockPos)
  {
    if TextBytes(texts, order) <= MAXIMUM_CONSTANT_BYTES then
      r.Some? && ReaderAgrees(r.value, registry, texts, order, placed, cursor)
    else r == None
  }

  /** The writer's palette gives entry k of the order the constants 2k, 2k + 1. */
  ghost predicate PaletteOk(palette: map<RuntimeId, (nat, nat)>, order: seq<RuntimeId>) {
    && |palette| == |order| <= PALETTE_LIMIT
    && (forall id | id in palette ::
      exists k :: 0 <= k < |order| && order[k] == id && palette[id] == (2 * k, 2 * k + 1))
    && (forall k | 0 <= k < |order| :: order[k] in palette && palette[order[k]] == (2 * k, 2 * k + 1))
  }

  predicate InNat32(b: BlockPos) {
    InInt32(b) && 0 <= b.x && 0 <= b.y && 0 <= b.z
  }

  /** The cursor rests at the origin or where the last block was placed. */
  ghost predicate PathKnown(placed: seq<Placing>, cursor: BlockPos) {
    cursor == if placed == [] then ORIGIN else placed[|placed| - 1].pos
  }

  function Highest(a: BlockPos, b: BlockPos): BlockPos {
    BlockPos(Larger(a.x, b.x), Larger(a.y, b.y), Larger(a.z, b.z))
  }

  lemma BoxGrows(placed: seq<Placing>, cursor: BlockPos, target: BlockPos)
    requires InNat32(cursor) && InNat32(target) && PathKnown(placed, cursor)
    ensures var e := Extent(cursor, ORIGIN, Highest(HighOf(placed), cursor));
      && Widen(e) == e
      && Widen(e.(pos := target)) == Extent(target, ORIGIN, Highest(HighOf(placed), target))
  {
    NonNegative(placed);
  }

  /** Moving is understood: the box grows to the target. */
  lemma MoveUnderstood(
    registry: Registry, captures: bool, texts: RuntimeId -> (Bytes, Bytes), order: seq<RuntimeId>,
    placed: seq<Placing>, cursor: BlockPos, target: BlockPos, commands: seq<Command>)
    requires Understood(ExecuteAll(registry, captures, START, commands), registry, texts, order, placed, cursor)
    requires InNat32(cursor) && InNat32(target) && PathKnown(placed, cursor)
    ensures Understood(ExecuteAll(registry, captures, START, commands + MoveTo(cursor, target)), registry, texts, order,
      placed, target)
  {
    hide ExecuteAll, MoveTo, Widen, HighOf, Highest, TextBytes, ConstantsOf, Settled, PathKnown;
    var r := ExecuteAll(registry, captures, START, commands);
    ExecuteAllConcat(registry, captures, START, commands, MoveTo(cursor, target));
    if r.Some? {
      BoxGrows(placed, cursor, target);
      MoveLands(registry, captures, r.value, target);
    }
  }

  lemma DefineOne(registry: Registry, captures: bool, s: State, text: Bytes)
    requires |s.constants| < MAXIMUM_CONSTANTS
    ensures ExecuteOne(registry, captures, s, Define(text))
      == if s.constantBytes + |text| > MAXIMUM_CONSTANT_BYTES then None
         else Some(s.(constants := s.constants + [text], constantBytes := s.constantBytes + |text|))
  {
  }

  /** Both texts are accepted together exactly when they fit. */
  lemma DefineBoth(registry: Registry, captures: bool, s: State, name: Bytes, states: Bytes)
    requires |s.constants| + 1 < MAXIMUM_CONSTANTS
    ensures ExecuteAll(registry, captures, s, [Define(name), Define(states)])
      == if s.constantBytes + |name| + |states| > MAXIMUM_CONSTANT_BYTES then None
         else Some(s.(constants := s.constants + [name, states], constantBytes := s.constantBytes + |name| + |states|))
  {
    hide ExecuteAll, ExecuteOne;
    DefineOne(registry, captures, s, name);
    ExecuteSingle(registry, captures, s, Define(name));
    assert [Define(name), Define(states)] == [Define(name)] + [Define(states)];
    ExecuteAllConcat(registry, captures, s, [Define(name)], [Define(states)]);
    if s.constantBytes + |name| <= MAXIMUM_CONSTANT_BYTES {
      var t := s.(constants := s.constants + [name], constantBytes := s.constantBytes + |name|);
      DefineOne(registry, captures, t, states);
      ExecuteSingle(registry, captures, t, Define(states));
      assert s.constants + [name] + [states] == s.constants + [name, states];
    }
  }

  lemma OrderGrows(texts: RuntimeId -> (Bytes, Bytes), order: seq<RuntimeId>, id: RuntimeId)
    ensures ConstantsOf(texts, order + [id]) == ConstantsOf(texts, order) + [texts(id).0, texts(id).1]
    ensures TextBytes(texts, order + [id]) == TextBytes(texts, order) + |texts(id).0| + |texts(id).1|
  {
    assert (order + [id])[..|order|] == order;
  }

  /** Introducing a palette entry is understood, or fails the reader for good. */
  lemma DefineUnderstood(
    registry: Registry, captures: bool, texts: RuntimeId -> (Bytes, Bytes), order: seq<RuntimeId>,
    placed: seq<Placing>, cursor: BlockPos, id: RuntimeId, commands: seq<Command>)
    requires Understood(ExecuteAll(registry, captures, START, commands), registry, texts, order, placed, cursor)
    requires |order| < PALETTE_LIMIT
    ensures var definitions := [Define(texts(id).0), Define(texts(id).1)];
      Understood(ExecuteAll(registry, captures, START, commands + definitions), registry, texts, order + [id], placed,
        cursor)
  {
    hide ExecuteAll, HighOf, Highest, TextBytes, ConstantsOf, Settled;
    var (name, states) := texts(id);
    var r := ExecuteAll(registry, captures, START, commands);
    ExecuteAllConcat(registry, captures, START, commands, [Define(name), Define(states)]);
    OrderGrows(texts, order, id);
    if r.Some? {
      DefineBoth(registry, captures, r.value, name, states);
      SettledByDefinition(registry, r.value.constants, r.value.memo, name);
      SettledByDefinition(registry, r.value.constants + [name], r.value.memo, states);
      assert r.value.constants + [name] + [states] == r.value.constants + [name, states];
    }
  }

  lemma PlaceOne(registry: Registry, captures: bool, s: State, name: nat, states: nat, id: RuntimeId)
    requires Settled(registry, s.constants, s.memo) && name < |s.constants| && states < |s.constants| <= 0x1_0000
    requires registry.stateRuntime(s.constants[name], s.constants[states]) == Some(id) && id != registry.air
    requires s.entities == map[] && Widen(s.extent) == s.extent
    ensures var r := ExecuteOne(registry, captures, s, PlaceState(name, states, None));
      && r.Some? && Settled(registry, s.constants, r.value.memo)
      && r.value == s.(memo := r.value.memo, placed := s.placed + [Placing(s.extent.pos, id)], nonAir := s.nonAir + 1)
  {
    SettledByUse(registry, s.constants, s.memo, name, states);
    hide StateOf, Widen, Settled;
    assert s.entities - {s.extent.pos} == s.entities;
  }

  /** Placing a palette entry at the cursor is understood. */
  lemma PlaceUnderstood(
    registry: Registry, captures: bool, texts: RuntimeId -> (Bytes, Bytes), order: seq<RuntimeId>,
    placed: seq<Placing>, cursor: BlockPos, k: nat, commands: seq<Command>)
    requires Understood(ExecuteAll(registry, captures, START, commands), registry, texts, order, placed, cursor)
    requires k < |order| <= PALETTE_LIMIT && Faithful(registry, texts, order[k]) && InNat32(cursor)
    ensures var commands' := commands + [PlaceState(2 * k, 2 * k + 1, None)];
      Understood(ExecuteAll(registry, captures, START, commands'), registry, texts, order,
        placed + [Placing(cursor, order[k])], cursor)
  {
    hide ExecuteAll, ExecuteOne, HighOf, Highest, TextBytes, ConstantsOf, Settled;
    var place := PlaceState(2 * k, 2 * k + 1, None);
    var r := ExecuteAll(registry, captures, START, commands);
    ExecuteAllConcat(registry, captures, START, commands, [place]);
    if r.Some? {
      ConstantsAt(texts, order, k);
      BoxAfterPlacing(placed, cursor, order[k]);
      PlaceOne(registry, captures, r.value, 2 * k, 2 * k + 1, order[k]);
      ExecuteSingle(registry, captures, r.value, place);
    }
  }

  lemma BoxAfterPlacing(placed: seq<Placing>, cursor: BlockPos, id: RuntimeId)
    requires InNat32(cursor)
    ensures var e := Extent(cursor, ORIGIN, Highest(HighOf(placed), cursor));
      Widen(e) == e && Highest(HighOf(placed + [Placing(cursor, id)]), cursor) == e.high
  {
    assert (placed + [Placing(cursor, id)])[..|placed|] == placed;
    NonNegative(placed);
  }

  lemma {:induction false} NonNegative(placed: seq<Placing>)
    ensures var high := HighOf(placed);
      high.x >= 0 && high.y >= 0 && high.z >= 0
  {
    if placed != [] {
      NonNegative(placed[..|placed| - 1]);
    }
  }

  ghost predicate EncodedAs(output: Bytes, commands: seq<Command>) {
    && AllEmitted(commands) && (forall i | 0 <= i < |commands| :: !commands[i].Terminate?)
    && output == EncodeAll(commands)
  }

  lemma EncodedMore(output: Bytes, commands: seq<Command>, command: Command)
    requires EncodedAs(output, commands) && Emitted(command) && !command.Terminate?
    ensures EncodedAs(output + Encode(command), commands + [command])
  {
    hide Encode, Emitted;
    assert (commands + [command])[..|commands|] == commands;
  }

  lemma MovesUnfold(axis: Axis, difference: int)
    ensures difference == 0 ==> MovesFor(axis, difference) == []
    ensures difference > INT32_MAX ==>
      MovesFor(axis, difference) == [Move(axis, INT32_MAX)] + MovesFor(axis, difference - INT32_MAX)
    ensures difference < INT32_MIN ==>
      MovesFor(axis, difference) == [Move(axis, INT32_MIN)] + MovesFor(axis, difference - INT32_MIN)
    ensures difference != 0 && IsInt32(difference) ==> MovesFor(axis, difference) == [Move(axis, difference)]
  {
  }

  lemma FarMove(axis: Axis, step: int)
    requires IsInt32(step) && !(-0x8000 <= step <= 0x7fff)
    ensures Emitted(Move(axis, step)) && Encode(Move(axis, step)) == [CodesOf(axis).int32] + Big32(step)
  {
  }

  lemma PaletteGrows(palette: map<RuntimeId, (nat, nat)>, order: seq<RuntimeId>, id: RuntimeId)
    requires PaletteOk(palette, order) && id !in palette && |order| < PALETTE_LIMIT
    ensures PaletteOk(palette[id := (2 * |order|, 2 * |order| + 1)], order + [id])
  {
    var longer, wider := order + [id], palette[id := (2 * |order|, 2 * |order| + 1)];
    forall other | other in wider
      ensures exists k :: 0 <= k < |longer| && longer[k] == other && wider[other] == (2 * k, 2 * k + 1)
    {
      if other == id {
        assert longer[|order|] == id;
      } else {
        var k :| 0 <= k < |order| && order[k] == other && palette[other] == (2 * k, 2 * k + 1);
        assert longer[k] == other;
      }
    }
  }

  /** The distinct blocks in the order of their first placement. */
  function FirstUses(placed: seq<Placing>): seq<RuntimeId> {
    if placed == [] then []
    else
      var before, id := FirstUses(placed[..|placed| - 1]), placed[|placed| - 1].id;
      if id in before then before else before + [id]
  }

  lemma FirstUsesGrow(placed: seq<Placing>, p: Placing)
    ensures FirstUses(placed + [p]) == if p.id in FirstUses(placed) then FirstUses(placed)
      else FirstUses(placed) + [p.id]
  {
    assert (placed + [p])[..|placed|] == placed;
  }

  lemma {:induction false} FirstUsesHas(placed: seq<Placing>, id: RuntimeId)
    ensures id in FirstUses(placed) <==> exists p :: p in placed && p.id == id
  {
    if placed != [] {
      var init, last := placed[..|placed| - 1], placed[|placed| - 1];
      FirstUsesHas(init, id);
      assert forall p :: p in placed <==> p in init || p == last;
    }
  }

  lemma {:induction false} FirstUsesOnce(placed: seq<Placing>)
    ensures |ToSet(FirstUses(placed))| == |FirstUses(placed)|
  {
    if placed != [] {
      var init, last := placed[..|placed| - 1], placed[|placed| - 1];
      FirstUsesOnce(init);
      var before := FirstUses(init);
      if last.id !in before {
        assert ToSet(before + [last.id]) == ToSet(before) + {last.id};
      }
    }
  }

  ghost function ToSet(ids: seq<RuntimeId>): set<RuntimeId> {
    set id | id in ids
  }

  lemma SmallerSet(a: set<RuntimeId>, b: set<RuntimeId>)
    requires a <= b
    ensures |a| <= |b|
  {
    assert b == a + (b - a);
  }

  /** Everything placed so far is a block of the structure. */
  ghost predicate AllSolid(placed: seq<Placing>, st: Structure, air: RuntimeId) {
    forall p | p in placed :: Solid(st, p.pos, air) && p.id == BlockAt(st, p.pos, air)
  }

  /** The structure has more different blocks than the palette has room for. */
  ghost predicate TooVaried(st: Structure, air: RuntimeId) {
    |FirstUses(AllCells(st, air))| > PALETTE_LIMIT
  }

  /** A full palette and a block it does not have: there are too many. */
  lemma FullPaletteMeansTooVaried(placed: seq<Placing>, st: Structure, air: RuntimeId, b: BlockPos)
    requires AllSolid(placed, st, air) && Solid(st, b, air)
    requires Lists(AllCells(st, air), st, air, c => true)
    requires |FirstUses(placed)| >= PALETTE_LIMIT && BlockAt(st, b, air) !in FirstUses(placed)
    ensures TooVaried(st, air)
  {
    hide FirstUses, Solid, BlockAt, AllCells;
    var cells, id := AllCells(st, air), BlockAt(st, b, air);
    FirstUsesOnce(placed);
    FirstUsesOnce(cells);
    assert Placing(b, id) in cells;
    FirstUsesHas(cells, id);
    forall other | other in FirstUses(placed)
      ensures other in FirstUses(cells)
    {
      FirstUsesHas(placed, other);
      FirstUsesHas(cells, other);
      var p :| p in placed && p.id == other;
      assert Placing(p.pos, BlockAt(st, p.pos, air)) in cells;
    }
    SmallerSet(ToSet(FirstUses(placed)) + {id}, ToSet(FirstUses(cells)));
  }

  lemma PaletteHas(palette: map<RuntimeId, (nat, nat)>, order: seq<RuntimeId>, id: RuntimeId)
    requires PaletteOk(palette, order)
    ensures id in palette <==> id in order
    ensures |palette| == |order|
  {
  }

  class BdxWriter {
    const registry: Registry
    const texts: RuntimeId -> (Bytes, Bytes)
    ghost const captures: bool

    var output: Bytes
    var cursor: BlockPos
    var palette: map<RuntimeId, (nat, nat)>

    ghost var commands: seq<Command>
    ghost var order: seq<RuntimeId>
    ghost var placed: seq<Placing>

    ghost predicate Valid()
      reads this
    {
      && EncodedAs(output, commands)
      && Understood(ExecuteAll(registry, captures, START, commands), registry, texts, order, placed, cursor)
      && PaletteOk(palette, order) && PathKnown(placed, cursor) && InNat32(cursor)
      && order == FirstUses(placed)
    }

    constructor (registry: Registry, texts: RuntimeId -> (Bytes, Bytes), ghost captures: bool)
      ensures Valid() && placed == []
      ensures this.registry == registry && this.texts == texts && this.captures == captures
    {
      this.registry, this.texts, this.captures := registry, texts, captures;
      output, cursor, palette := [], ORIGIN, map[];
      commands, order, placed := [], [], [];
    }

    method Emit(code: Bytes, ghost command: Command)
      requires EncodedAs(output, commands) && Emitted(command) && !command.Terminate? && code == Encode(command)
      modifies this`output, this`commands
      ensures EncodedAs(output, commands) && commands == old(commands) + [command]
    {
      EncodedMore(output, commands, command);
      output := output + code;
      commands := commands + [command];
    }

    /** `append_move_axis`: bounded int32 moves until the rest is representable,
        then the shortest command for it. */
    method AppendMoveAxis(axis: Axis, distance: int)
      requires EncodedAs(output, commands)
      modifies this`output, this`commands
      ensures EncodedAs(output, commands) && commands == old(commands) + MovesFor(axis, distance)
    {
      hide EncodedAs, MovesFor, Encode, CodesOf, Big32;
      MovesUnfold(axis, distance);
      var codes := CodesOf(axis);
      if distance == 0 {
        assert commands + [] == commands;
        return;
      }
      var difference := distance;
      while difference > INT32_MAX
        invariant EncodedAs(output, commands) && difference != 0
        invariant commands + MovesFor(axis, difference) == old(commands) + MovesFor(axis, distance)
      {
        MovesUnfold(axis, difference);
        FarMove(axis, INT32_MAX);
        assert commands + MovesFor(axis, difference)
          == commands + [Move(axis, INT32_MAX)] + MovesFor(axis, difference - INT32_MAX);
        Emit([codes.int32] + Big32(INT32_MAX), Move(axis, INT32_MAX));
        difference := difference - INT32_MAX;
      }
      while difference < INT32_MIN
        invariant EncodedAs(output, commands) && difference != 0 && difference <= INT32_MAX
        invariant commands + MovesFor(axis, difference) == old(commands) + MovesFor(axis, distance)
        decreases -difference
      {
        MovesUnfold(axis, difference);
        FarMove(axis, INT32_MIN);
        assert commands + MovesFor(axis, difference)
          == commands + [Move(axis, INT32_MIN)] + MovesFor(axis, difference - INT32_MIN);
        Emit([codes.int32] + Big32(INT32_MIN), Move(axis, INT32_MIN));
        difference := difference - INT32_MIN;
      }
      MovesUnfold(axis, difference);
      AppendShortest(axis, difference);
    }

    method AppendShortest(axis: Axis, difference: int)
      requires EncodedAs(output, commands) && IsInt32(difference)
      modifies this`output, this`commands
      ensures EncodedAs(output, commands) && commands == old(commands) + [Move(axis, difference)]
    {
      hide EncodedAs;
      var codes := CodesOf(axis);
      if difference == 1 {
        Emit([codes.increment], Move(axis, difference));
      } else if difference == -1 {
        Emit([codes.decrement], Move(axis, difference));
      } else if -0x80 <= difference <= 0x7f {
        Emit([codes.int8, difference % 0x100], Move(axis, difference));
      } else if -0x8000 <= difference <= 0x7fff {
        Emit([codes.int16] + Big16(difference), Move(axis, difference));
      } else {
        Emit([codes.int32] + Big32(difference), Move(axis, difference));
      }
    }

    method AppendMove(target: BlockPos)
      requires Valid() && InNat32(target)
      modifies this`output, this`commands, this`cursor
      ensures EncodedAs(output, commands) && cursor == target
      ensures Understood(ExecuteAll(registry, captures, START, commands), registry, texts, order, placed, cursor)
      ensures InNat32(cursor)
    {
      hide EncodedAs, Understood, PathKnown, InNat32, PaletteOk, ExecuteAll, MovesFor;
      MoveUnderstood(registry, captures, texts, order, placed, cursor, target, commands);
      AppendMoveAxis(X, target.x - cursor.x);
      AppendMoveAxis(Y, target.y - cursor.y);
      AppendMoveAxis(Z, target.z - cursor.z);
      assert commands == old(commands) + MoveTo(cursor, target);
      cursor := target;
    }

    /** The lambda `place`: move, introduce the palette entry if it is new, place. */
    method Place(id: RuntimeId, position: BlockPos) returns (ok: bool)
      requires Valid() && InNat32(position) && Faithful(registry, texts, id)
      modifies this
      ensures ok ==> Valid() && placed == old(placed) + [Placing(position, id)]
      ensures !ok ==> |FirstUses(old(placed))| >= PALETTE_LIMIT && id !in FirstUses(old(placed))
    {
      hide EncodedAs, Understood, ExecuteAll, PathKnown, InNat32, PaletteOk, FirstUses, Faithful;
      FirstUsesGrow(placed, Placing(position, id));
      PaletteHas(palette, order, id);
      AppendMove(position);
      if id !in palette {
        if |palette| >= PALETTE_LIMIT {
          return false;
        }
        Introduce(id);
      }
      PlaceEntry(id);
      ok := true;
    }

    method Introduce(id: RuntimeId)
      requires EncodedAs(output, commands) && id !in palette && |palette| < PALETTE_LIMIT && PaletteOk(palette, order)
      requires Understood(ExecuteAll(registry, captures, START, commands), registry, texts, order, placed, cursor)
      requires Faithful(registry, texts, id)
      modifies this`output, this`commands, this`palette, this`order
      ensures EncodedAs(output, commands) && PaletteOk(palette, order) && id in palette && order == old(order) + [id]
      ensures Understood(ExecuteAll(registry, captures, START, commands), registry, texts, order, placed, cursor)
    {
      hide EncodedAs, Understood, ExecuteAll, PaletteOk;
      DefineUnderstood(registry, captures, texts, order, placed, cursor, id, commands) by {
        PaletteSize(palette, order);
      }
      PaletteGrows(palette, order, id) by {
        PaletteSize(palette, order);
      }
      var (name, states) := texts(id);
      PaletteSize(palette, order);
      var nameId, statesId := |palette| * 2, |palette| * 2 + 1;
      Emit([1] + name + [0], Define(name));
      Emit([1] + states + [0], Define(states));
      assert commands == old(commands) + [Define(name), Define(states)];
      palette := palette[id := (nameId, statesId)];
      order := order + [id];
    }

    method PlaceEntry(id: RuntimeId)
      requires EncodedAs(output, commands) && PaletteOk(palette, order) && id in palette && InNat32(cursor)
      requires Understood(ExecuteAll(registry, captures, START, commands), registry, texts, order, placed, cursor)
      requires Faithful(registry, texts, id) && order == FirstUses(placed + [Placing(cursor, id)])
      modifies this`output, this`commands, this`placed
      ensures Valid() && placed == old(placed) + [Placing(cursor, id)]
    {
      hide EncodedAs, Understood, ExecuteAll, FirstUses;
      ghost var k :| 0 <= k < |order| && order[k] == id && palette[id] == (2 * k, 2 * k + 1);
      PlaceUnderstood(registry, captures, texts, order, placed, cursor, k, commands);
      var entry := palette[id];
      Emit([5] + Big16(entry.0) + Big16(entry.1), PlaceState(2 * k, 2 * k + 1, None));
      placed := placed + [Placing(cursor, id)];
    }

    /** Every block of the structure can be found again by the reader. */
    ghost predicate Writable(st: Structure) {
      && ValidSize(st.size)
      && Lists(AllCells(st, registry.air), st, registry.air, b => true)
      && forall b | Solid(st, b, registry.air) :: Faithful(registry, texts, BlockAt(st, b, registry.air))
    }

    /** The innermost loop, along z. */
    method WriteRow(st: Structure, sub: SubChunkPos, localX: nat, localY: nat) returns (ok: bool)
      requires Valid() && Writable(st) && AllSolid(placed, st, registry.air) && sub in st.layers && localX < 16
        && localY < 16
      requires 0 <= sub.x * 16 + localX < st.size.width && 0 <= sub.y * 16 + 64 + localY < st.size.height && 0 <= sub.z
      modifies this
      ensures ok ==> Valid() && placed == old(placed) + RowCells(st, sub, localX, localY, 16, registry.air)
      ensures if ok then AllSolid(placed, st, registry.air) else TooVaried(st, registry.air)
    {
      hide Valid, SubOf, Faithful, Lists, AllCells, FirstUses, TooVaried;
      var localZ := 0;
      while localZ < 16
        invariant localZ <= 16 && Valid()
        invariant AllSolid(placed, st, registry.air)
        invariant placed == old(placed) + RowCells(st, sub, localX, localY, localZ, registry.air)
      {
        var z := sub.z * 16 + localZ;
        if z >= st.size.length {
          RowBeyond(st, sub, localX, localY, localZ, 16, registry.air);
          break;
        }
        var position := PositionIn(sub, localX, localY, localZ);
        PositionDigits(sub, localX, localY, localZ);
        var id := st.layers[sub][LayerIndex(localX, localY, localZ)];
        assert id == BlockAt(st, position, registry.air);
        if id != registry.air {
          assert Solid(st, position, registry.air);
          ghost var before := placed;
          ok := Place(id, position);
          if !ok {
            FullPaletteMeansTooVaried(before, st, registry.air, position);
            return;
          }
        }
        localZ := localZ + 1;
      }
      ok := true;
    }

    method WritePlane(st: Structure, sub: SubChunkPos, localX: nat) returns (ok: bool)
      requires Valid() && Writable(st) && AllSolid(placed, st, registry.air) && sub in st.layers && localX < 16
      requires 0 <= sub.x * 16 + localX < st.size.width && 0 <= sub.z
      modifies this
      ensures ok ==> Valid() && placed == old(placed) + PlaneCells(st, sub, localX, 16, registry.air)
      ensures if ok then AllSolid(placed, st, registry.air) else TooVaried(st, registry.air)
    {
      hide Valid, RowCells, Writable, AllSolid, TooVaried;
      for localY := 0 to 16
        invariant Valid() && placed == old(placed) + PlaneCells(st, sub, localX, localY, registry.air)
        invariant AllSolid(placed, st, registry.air)
      {
        var y := sub.y * 16 + 64 + localY;
        if y < 0 || y >= st.size.height {
          RowEmpty(st, sub, localX, localY, 16, registry.air);
        } else {
          ok := WriteRow(st, sub, localX, localY);
          if !ok {
            return;
          }
        }
      }
      ok := true;
    }

    method WriteLayer(st: Structure, sub: SubChunkPos) returns (ok: bool)
      requires Valid() && Writable(st) && AllSolid(placed, st, registry.air) && sub in st.layers && 0 <= sub.x
        && 0 <= sub.z
      modifies this
      ensures ok ==> Valid() && placed == old(placed) + LayerCells(st, sub, 16, registry.air)
      ensures if ok then AllSolid(placed, st, registry.air) else TooVaried(st, registry.air)
    {
      hide Valid, PlaneCells, Writable, AllSolid, TooVaried;
      var localX := 0;
      while localX < 16
        invariant localX <= 16
        invariant Valid() && placed == old(placed) + LayerCells(st, sub, localX, registry.air)
        invariant AllSolid(placed, st, registry.air)
      {
        if sub.x * 16 + localX >= st.size.width {
          LayerBeyond(st, sub, localX, 16, registry.air);
          break;
        }
        ok := WritePlane(st, sub, localX);
        if !ok {
          return;
        }
        localX := localX + 1;
      }
      ok := true;
    }

    /** One chunk, from the lowest subchunk to the one of the top row. */
    method WriteColumn(st: Structure, chunk: ChunkPos) returns (ok: bool)
      requires Valid() && Writable(st) && AllSolid(placed, st, registry.air) && 0 <= chunk.x && 0 <= chunk.z
      modifies this
      ensures ok ==> Valid() && placed == old(placed) + ColumnCells(st, chunk, ChunkCount(st.size.height), registry.air)
      ensures if ok then AllSolid(placed, st, registry.air) else TooVaried(st, registry.air)
    {
      hide Valid, LayerCells, Writable, FloorDiv, ChunkCount, AllSolid, TooVaried;
      SubchunkRange(st);
      var minimum, maximum := FloorDiv(-64, 16), FloorDiv(st.size.height - 1 - 64, 16);
      for subY := minimum to maximum + 1
        invariant Valid() && placed == old(placed) + ColumnCells(st, chunk, subY - minimum, registry.air)
        invariant AllSolid(placed, st, registry.air)
      {
        var sub := SubChunkPos(chunk.x, subY, chunk.z);
        if sub in st.layers {
          ok := WriteLayer(st, sub);
          if !ok {
            return;
          }
        } else {
          LayerMissing(st, sub, 16, registry.air);
        }
      }
      ok := true;
    }

    lemma SubchunkRange(st: Structure)
      requires Writable(st)
      ensures FloorDiv(-64, 16) == FIRST_SUB_Y
      ensures FloorDiv(st.size.height - 1 - 64, 16) - FIRST_SUB_Y + 1 == ChunkCount(st.size.height) > 0
    {
      FloorBySixteen(-64);
      FloorBySixteen(st.size.height - 1 - 64);
      hide FloorDiv;
    }

    /** The chunks of one z row, fetched in batches. `refused` says that some fetch
        fails; which one makes no difference. */
    method WriteStrip(st: Structure, chunkZ: nat, batchSize: nat, refused: bool) returns (ok: bool)
      requires Valid() && Writable(st) && batchSize >= 1 && AllSolid(placed, st, registry.air)
      modifies this
      ensures ok ==> Valid() && placed == old(placed) + StripCells(st, chunkZ, ChunkCount(st.size.width), registry.air)
      ensures ok ==> !refused && AllSolid(placed, st, registry.air)
      ensures !ok ==> refused || TooVaried(st, registry.air)
    {
      hide Valid, ColumnCells, Writable, ChunkCount, AllSolid, TooVaried;
      SomeChunks(st);
      var batchX, count := 0, ChunkCount(st.size.width);
      while batchX < count
        invariant 0 <= batchX && (batchX > 0 ==> !refused)
        invariant Valid() && placed == old(placed) + StripCells(st, chunkZ, Smaller(batchX, count), registry.air)
        invariant AllSolid(placed, st, registry.air)
        decreases count - batchX
      {
        var batchEnd := Smaller(count, batchX + batchSize);
        if refused {
          return false;
        }
        for chunkX := batchX to batchEnd
          invariant Valid() && placed == old(placed) + StripCells(st, chunkZ, chunkX, registry.air)
          invariant AllSolid(placed, st, registry.air)
        {
          ok := WriteColumn(st, ChunkPos(chunkX, chunkZ));
          if !ok {
            return;
          }
        }
        batchX := batchX + batchSize;
      }
      ok := true;
    }

    lemma SomeChunks(st: Structure)
      requires Writable(st)
      ensures ChunkCount(st.size.width) > 0 && ChunkCount(st.size.length) > 0
    {
      hide AllCells, Lists, Faithful;
    }

    /** The whole walk. */
    method WriteAll(st: Structure, batchSize: nat, refused: bool) returns (ok: bool)
      requires Valid() && Writable(st) && batchSize >= 1 && placed == []
      modifies this
      ensures ok ==> Valid() && placed == AllCells(st, registry.air)
      ensures ok <==> !refused && !TooVaried(st, registry.air)
    {
      hide Valid, StripCells, Writable, ChunkCount, TooVaried;
      SomeChunks(st);
      for chunkZ := 0 to ChunkCount(st.size.length)
        invariant Valid() && placed == CellsUpTo(st, chunkZ, registry.air)
        invariant AllSolid(placed, st, registry.air) && (chunkZ > 0 ==> !refused)
      {
        hide AllSolid;
        ok := WriteStrip(st, chunkZ, batchSize, refused);
        if !ok {
          return;
        }
      }
      NotTooVaried(st);
      ok := true;
    }

    lemma NotTooVaried(st: Structure)
      requires Valid() && placed == AllCells(st, registry.air)
      ensures !TooVaried(st, registry.air)
    {
      hide EncodedAs, Understood, AllCells, PathKnown, FirstUses, ExecuteAll;
    }
  }

  /** The decoded header: magic, an empty author, version 0. */
  const HEADER: Bytes := [66, 68, 88, 0, 0]

  /** What a reader must make of a written file, for the blocks `cells` of its
      structure: it places exactly these, in a box that starts at the origin,
      provided their texts fit its constant table, and fails otherwise. */
  ghost predicate ReadsBack(
    bytes: Bytes, registry: Registry, captures: bool, texts: RuntimeId -> (Bytes, Bytes), cells: seq<Placing>)
  {
    var r := Run(registry, captures, bytes, |HEADER|, START);
    if TextBytes(texts, FirstUses(cells)) <= MAXIMUM_CONSTANT_BYTES then
      && r.Some? && r.value.placed == cells && r.value.nonAir == |cells| && r.value.entities == map[]
      && r.value.extent.low == ORIGIN && r.value.extent.high == HighOf(cells)
    else r == None
  }

  lemma WrittenReadsBack(
    bytes: Bytes, output: Bytes, commands: seq<Command>, registry: Registry, captures: bool,
    texts: RuntimeId -> (Bytes, Bytes), cells: seq<Placing>, cursor: BlockPos)
    requires EncodedAs(output, commands) && bytes == HEADER + output + [88] && PathKnown(cells, cursor)
      && InNat32(cursor)
    requires Understood(ExecuteAll(registry, captures, START, commands), registry, texts, FirstUses(cells), cells,
      cursor)
    ensures ReadsBack(bytes, registry, captures, texts, cells)
  {
    hide Run, TextBytes, FirstUses, ConstantsOf, Settled, ExecuteAll, ExecuteOne, HighOf, Highest, Widen, EncodedAs,
      PathKnown;
    RunWritten(bytes, output, commands, registry, captures);
    ExecuteAllConcat(registry, captures, START, commands, [Terminate]);
    var r := ExecuteAll(registry, captures, START, commands);
    if r.Some? {
      ExecuteSingle(registry, captures, r.value, Terminate);
      TerminateOne(registry, captures, r.value);
      EndOfPath(cells, cursor);
    }
  }

  lemma RunWritten(bytes: Bytes, output: Bytes, commands: seq<Command>, registry: Registry, captures: bool)
    requires EncodedAs(output, commands) && bytes == HEADER + output + [88]
    ensures Run(registry, captures, bytes, |HEADER|, START)
      == ExecuteAll(registry, captures, START, commands + [Terminate])
  {
    AllEncoded(output, commands);
    assert bytes[|HEADER|..] == output + [88];
    hide Run, ExecuteAll;
    RunExecutes(registry, captures, bytes, |HEADER|, START, commands + [Terminate]);
  }

  lemma TerminateOne(registry: Registry, captures: bool, s: State)
    ensures ExecuteOne(registry, captures, s, Terminate) == Some(s.(extent := Widen(s.extent), done := true))
  {
  }

  lemma TerminateCode()
    ensures Emitted(Terminate) && Encode(Terminate) == [88]
  {
  }

  lemma AllEncoded(output: Bytes, commands: seq<Command>)
    requires EncodedAs(output, commands)
    ensures AllEmitted(commands + [Terminate]) && EncodeAll(commands + [Terminate]) == output + [88]
    ensures forall i | 0 <= i < |commands + [Terminate]| :: (commands + [Terminate])[i].Terminate? <==> i == |commands|
  {
    hide Emitted, Encode;
    TerminateCode();
    assert (commands + [Terminate])[..|commands|] == commands;
  }

  lemma EndOfPath(cells: seq<Placing>, cursor: BlockPos)
    requires PathKnown(cells, cursor) && InNat32(cursor)
    ensures var e := Extent(cursor, ORIGIN, Highest(HighOf(cells), cursor));
      Widen(e) == e && e.high == HighOf(cells)
  {
    NonNegative(cells);
  }

  /** `write_bdx`. Whatever the batch size, a successful write reads back as
      exactly the in-bounds non-air blocks, each once. It succeeds exactly when no
      fetch fails and there are at most 32768 different blocks. */
  method WriteBdx(registry: Registry, texts: RuntimeId -> (Bytes, Bytes), st: Structure, batchSize: nat,
      refused: bool, ghost captures: bool)
    returns (ok: bool, bytes: Bytes)
    requires ValidSize(st.size) && batchSize >= 1
    requires forall b | Solid(st, b, registry.air) :: Faithful(registry, texts, BlockAt(st, b, registry.air))
    ensures ok ==> ReadsBack(bytes, registry, captures, texts, AllCells(st, registry.air))
    ensures ok <==> !refused && |FirstUses(AllCells(st, registry.air))| <= PALETTE_LIMIT
    ensures ListsElements(AllCells(st, registry.air), st, registry.air)
  {
    AllCellsListed(st, registry.air);
    ListsAreElements(AllCells(st, registry.air), st, registry.air);
    hide AllCells, ReadsBack, EncodedAs, Understood, ExecuteAll, PaletteOk, Lists, FirstUses, ListsElements;
    var writer := new BdxWriter(registry, texts, captures);
    ok := writer.WriteAll(st, batchSize, refused);
    bytes := HEADER + writer.output + [88];
    if ok {
      WrittenReadsBack(bytes, writer.output, writer.commands, registry, captures, texts, writer.placed, writer.cursor);
    }
  }

  lemma PaletteSize(palette: map<RuntimeId, (nat, nat)>, order: seq<RuntimeId>)
    requires PaletteOk(palette, order)
    ensures |palette| == |order|
  {
  }
}
