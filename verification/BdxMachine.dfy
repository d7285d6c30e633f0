/** The meaning of a BDX command stream, one command at a time: the state of
    `BdxStructure::read` in full mode and in bounds-only mode, and the effect of
    a batch of (5, 18) pairs. */
module BdxMachine {
  import opened Options
  import opened Coordinates
  import opened BdxBytes
  import opened BdxCommands
  import opened RuntimeMemos

  const MAXIMUM_CONSTANTS := 0x1_0000
  const MAXIMUM_CONSTANT_BYTES := 64 * 1024 * 1024
  const MAXIMUM_BLOCK_ENTITIES := 1_000_000

  /** The cursor and the bounding box of everywhere it has been. */
  datatype Extent = Extent(pos: BlockPos, low: BlockPos, high: BlockPos) {
    ghost predicate Holds(b: BlockPos) {
      low.x <= b.x <= high.x && low.y <= b.y <= high.y && low.z <= b.z <= high.z
    }
  }

  const ORIGIN := BlockPos(0, 0, 0)

  /** `update_bounds`. */
  function Widen(e: Extent): Extent {
    e.(low := BlockPos(Smaller(e.low.x, e.pos.x), Smaller(e.low.y, e.pos.y), Smaller(e.low.z, e.pos.z)),
       high := BlockPos(Larger(e.high.x, e.pos.x), Larger(e.high.y, e.pos.y), Larger(e.high.z, e.pos.z)))
  }

  function Coordinate(b: BlockPos, axis: Axis): int {
    match axis
    case X => b.x
    case Y => b.y
    case Z => b.z
  }

  /** `add_coordinate`: the cursor stays within int32. */
  function Shifted(b: BlockPos, axis: Axis, delta: int): Option<BlockPos> {
    if !IsInt32(Coordinate(b, axis) + delta) then None
    else
      match axis
      case X => Some(b.(x := b.x + delta))
      case Y => Some(b.(y := b.y + delta))
      case Z => Some(b.(z := b.z + delta))
  }

  datatype State = State(
    extent: Extent,
    constants: seq<Bytes>,
    constantBytes: nat,
    pool: Byte,
    cachedPool: Byte,
    cachedRuntimes: seq<RuntimeId>,
    memo: Memo,
    placed: seq<Placing>,
    nonAir: nat,
    entities: map<BlockPos, (Entity, RuntimeId)>,
    done: bool)

  /** The pool cache starts out naming pool 255 and holding nothing. */
  const START := State(
    Extent(ORIGIN, ORIGIN, ORIGIN), [], 0, 0, 0xff, [], Memo(map[], map[], map[]), [], 0, map[], false)

  /** `store_entity`. */
  function StoreEntity(registry: Registry, captures: bool, s: State, entity: Entity, id: RuntimeId): Option<State> {
    if !captures then Some(s)
    else if |s.entities| >= MAXIMUM_BLOCK_ENTITIES && s.extent.pos !in s.entities then None
    else if !registry.fits(entity, id) then None
    else Some(s.(entities := s.entities[s.extent.pos := (entity, id)]))
  }

  function CountOne(id: RuntimeId, air: RuntimeId): nat {
    if id == air then 0 else 1
  }

  /** `place`: a plain block, air included, drops an older entity. */
  function PlaceBlock(registry: Registry, captures: bool, s: State, id: RuntimeId,
      entity: Option<Entity>): Option<State>
  {
    var p := s.extent.pos;
    match if entity == None then Some(if captures then s.(entities := s.entities - {p}) else s)
          else StoreEntity(registry, captures, s, entity.value, id)
    case None => None
    case Some(stored) =>
      Some(stored.(placed := s.placed + [Placing(p, id)], nonAir := s.nonAir + CountOne(id, registry.air)))
  }

  function Acceptable(registry: Registry, entity: Option<Entity>): bool {
    entity.Some? && entity.value.CompoundEntity? ==> registry.accepts(entity.value.source)
  }

  function Execute(registry: Registry, captures: bool, s: State, command: Command): Option<State> {
    match command
    case Define(text) =>
      if |s.constants| >= MAXIMUM_CONSTANTS || s.constantBytes + |text| > MAXIMUM_CONSTANT_BYTES then None
      else Some(s.(constants := s.constants + [text], constantBytes := s.constantBytes + |text|))
    case PlaceState(name, states, entity) =>
      if !Acceptable(registry, entity) then None
      else
        (match StateOf(registry, s.constants, s.memo, name, states)
         case None => None
         case Some(found) => PlaceBlock(registry, captures, s.(memo := found.memo), found.id, entity))
    case PlaceLegacy(name, data, entity) =>
      var found := LegacyOf(registry, s.constants, s.memo, name, data);
      PlaceBlock(registry, captures, s.(memo := found.memo), found.id, entity)
    case PlaceText(name, text) =>
      (match ResolveText(registry, s.constants, name, text)
       case None => None
       case Some(id) => PlaceBlock(registry, captures, s, id, None))
    case PlaceIndexed(index, entity) =>
      var loaded := if s.cachedPool == s.pool then s
        else s.(cachedPool := s.pool, cachedRuntimes := registry.pool(s.pool));
      if index >= |loaded.cachedRuntimes| then None
      else PlaceBlock(registry, captures, loaded, loaded.cachedRuntimes[index], entity)
    case PlaceCommandBlock(data, block) =>
      if block.mode > 2 then None
      else PlaceBlock(registry, captures, s, registry.commandBlock(block.mode, data), Some(CommandEntity(block)))
    case AttachEntity(entity) => StoreEntity(registry, captures, s, entity, 0)
    case Move(axis, delta) =>
      (match Shifted(s.extent.pos, axis, delta)
       case None => None
       case Some(pos) => Some(s.(extent := s.extent.(pos := pos))))
    case Rest => Some(s)
    case SelectPool(id) => Some(s.(pool := id))
    case Terminate => Some(s.(done := true))
  }

  datatype Stepped<+T> = Stepped(state: T, next: nat)

  /** One command of the full reader. */
  function Step(registry: Registry, captures: bool, bytes: Bytes, at: nat, s: State): (r: Option<Stepped<State>>)
    requires at < |bytes|
    ensures r.Some? ==> at < r.value.next <= |bytes|
  {
    match Decode(bytes, at)
    case None => None
    case Some(field) =>
      match Execute(registry, captures, s, field.value)
      case None => None
      case Some(executed) =>
        Some(Stepped(if MotionOf(field.value).Metadata? then executed
          else executed.(extent := Widen(executed.extent)), field.next))
  }

  /** A whole stream, one command at a time; without a terminator it fails. */
  function Run(registry: Registry, captures: bool, bytes: Bytes, at: nat, s: State): Option<State>
    decreases |bytes| - at
  {
    if at >= |bytes| then None
    else
      match Step(registry, captures, bytes, at, s)
      case None => None
      case Some(stepped) =>
        if stepped.state.done then Some(stepped.state) else Run(registry, captures, bytes, stepped.next, stepped.state)
  }

  datatype Bounds = Bounds(extent: Extent, pool: Byte, done: bool)

  const NOWHERE := Bounds(Extent(ORIGIN, ORIGIN, ORIGIN), 0, false)

  function Follow(b: Bounds, motion: Motion): Option<Bounds> {
    match motion
    case Shift(axis, delta) =>
      (match Shifted(b.extent.pos, axis, delta)
       case None => None
       case Some(pos) => Some(b.(extent := Widen(b.extent.(pos := pos)))))
    case Stay => Some(b.(extent := Widen(b.extent)))
    case Metadata(pool) => Some(if pool == None then b else b.(pool := pool.value))
    case Halt => Some(b.(extent := Widen(b.extent), done := true))
  }

  /** One command of the bounds-only reader, without the window scanner. */
  function PassStep(bytes: Bytes, at: nat, b: Bounds): (r: Option<Stepped<Bounds>>)
    requires at < |bytes|
    ensures r.Some? ==> at < r.value.next <= |bytes|
  {
    match Pass(bytes, at)
    case None => None
    case Some(field) =>
      match Follow(b, field.value)
      case None => None
      case Some(followed) => Some(Stepped(followed, field.next))
  }

  function PassRun(bytes: Bytes, at: nat, b: Bounds): Option<Bounds>
    decreases |bytes| - at
  {
    if at >= |bytes| then None
    else
      match PassStep(bytes, at, b)
      case None => None
      case Some(stepped) =>
        if stepped.state.done then Some(stepped.state) else PassRun(bytes, stepped.next, stepped.state)
  }

  /** What the two modes share. */
  ghost predicate Shadows(b: Bounds, s: State) {
    b.extent == s.extent && b.pool == s.pool && b.done == s.done
  }

  lemma PlaceStays(registry: Registry, captures: bool, s: State, id: RuntimeId, entity: Option<Entity>)
    requires PlaceBlock(registry, captures, s, id, entity).Some?
    ensures var r := PlaceBlock(registry, captures, s, id, entity).value;
      r.extent == s.extent && r.pool == s.pool && r.done == s.done && r.constants == s.constants
  {
  }

  /** Executing a command moves the cursor as its motion says. */
  lemma ExecuteMoves(registry: Registry, captures: bool, s: State, command: Command)
    requires Execute(registry, captures, s, command).Some?
    ensures var r, motion := Execute(registry, captures, s, command).value, MotionOf(command);
      && (motion.Shift? ==> Some(r.extent.pos) == Shifted(s.extent.pos, motion.axis, motion.delta))
      && (motion.Shift? ==> r.extent == s.extent.(pos := r.extent.pos))
      && (!motion.Shift? ==> r.extent == s.extent)
      && r.pool == (if motion.Metadata? && motion.pool.Some? then motion.pool.value else s.pool)
      && (r.done <==> s.done || motion.Halt?)
  {
    match command {
      case PlaceState(name, states, entity) =>
        var found := StateOf(registry, s.constants, s.memo, name, states).value;
        PlaceStays(registry, captures, s.(memo := found.memo), found.id, entity);
      case PlaceLegacy(name, data, entity) =>
        var found := LegacyOf(registry, s.constants, s.memo, name, data);
        PlaceStays(registry, captures, s.(memo := found.memo), found.id, entity);
      case PlaceText(name, text) =>
        PlaceStays(registry, captures, s, ResolveText(registry, s.constants, name, text).value, None);
      case PlaceIndexed(index, entity) =>
        var loaded := if s.cachedPool == s.pool then s
          else s.(cachedPool := s.pool, cachedRuntimes := registry.pool(s.pool));
        PlaceStays(registry, captures, loaded, loaded.cachedRuntimes[index], entity);
      case PlaceCommandBlock(data, block) =>
        PlaceStays(registry, captures, s, registry.commandBlock(block.mode, data), Some(CommandEntity(block)));
      case _ =>
    }
  }

  lemma PassStepFollows(registry: Registry, captures: bool, bytes: Bytes, at: nat, s: State, b: Bounds)
    requires at < |bytes| && Shadows(b, s) && Step(registry, captures, bytes, at, s).Some?
    ensures var full := Step(registry, captures, bytes, at, s).value;
      var pass := PassStep(bytes, at, b);
      pass.Some? && pass.value.next == full.next && Shadows(pass.value.state, full.state)
  {
    PassFollowsDecode(bytes, at);
    ExecuteMoves(registry, captures, s, Decode(bytes, at).value.value);
    hide Decode, Pass, Execute, Widen, Shifted, MotionOf;
  }

  /** Whenever the full reader succeeds the bounds-only reader does, with the
      same cursor and bounding box. */
  lemma {:induction false} BoundsFollowFull(registry: Registry, captures: bool, bytes: Bytes, at: nat, s: State,
      b: Bounds)
    requires Shadows(b, s) && Run(registry, captures, bytes, at, s).Some?
    ensures PassRun(bytes, at, b).Some?
      && Shadows(PassRun(bytes, at, b).value, Run(registry, captures, bytes, at, s).value)
    decreases |bytes| - at
  {
    PassStepFollows(registry, captures, bytes, at, s, b);
    var full := Step(registry, captures, bytes, at, s).value;
    if !full.state.done {
      BoundsFollowFull(registry, captures, bytes, full.next, full.state, PassStep(bytes, at, b).value.state);
    }
  }

  /** Not the other way round: a pool index beyond the pool fails only the full
      reader. */
  lemma BoundsAloneCanSucceed(registry: Registry, captures: bool)
    requires registry.pool(0) == []
    ensures Run(registry, captures, [32, 0, 0, 88], 0, START) == None
    ensures PassRun([32, 0, 0, 88], 0, NOWHERE) == Some(NOWHERE.(done := true))
  {
    var bytes: Bytes := [32, 0, 0, 88];
    assert Decode(bytes, 0) == Some(Field(PlaceIndexed(0, None), 3));
    assert PassStep(bytes, 0, NOWHERE) == Some(Stepped(NOWHERE, 3));
    assert PassStep(bytes, 3, NOWHERE) == Some(Stepped(NOWHERE.(done := true), 4));
  }

  /** Everything placed or attached so far lies in the box, and so does the
      cursor, which stays within int32. */
  ghost predicate Enclosed(s: State) {
    && s.extent.Holds(s.extent.pos) && Int32Box(s.extent)
    && (forall i | 0 <= i < |s.placed| :: s.extent.Holds(s.placed[i].pos))
    && (forall p | p in s.entities :: s.extent.Holds(p))
  }

  ghost predicate Int32Box(e: Extent) {
    && IsInt32(e.low.x) && IsInt32(e.low.y) && IsInt32(e.low.z)
    && IsInt32(e.high.x) && IsInt32(e.high.y) && IsInt32(e.high.z)
  }

  lemma PlaceEncloses(registry: Registry, captures: bool, s: State, id: RuntimeId, entity: Option<Entity>)
    requires Enclosed(s) && PlaceBlock(registry, captures, s, id, entity).Some?
    ensures Enclosed(PlaceBlock(registry, captures, s, id, entity).value)
  {
  }

  /** Executing without moving keeps everything enclosed. */
  lemma ExecuteEncloses(registry: Registry, captures: bool, s: State, command: Command)
    requires Enclosed(s) && !command.Move? && Execute(registry, captures, s, command).Some?
    ensures Enclosed(Execute(registry, captures, s, command).value)
  {
    match command {
      case PlaceState(name, states, entity) =>
        var found := StateOf(registry, s.constants, s.memo, name, states).value;
        PlaceEncloses(registry, captures, s.(memo := found.memo), found.id, entity);
      case PlaceLegacy(name, data, entity) =>
        var found := LegacyOf(registry, s.constants, s.memo, name, data);
        PlaceEncloses(registry, captures, s.(memo := found.memo), found.id, entity);
      case PlaceText(name, text) =>
        PlaceEncloses(registry, captures, s, ResolveText(registry, s.constants, name, text).value, None);
      case PlaceIndexed(index, entity) =>
        var loaded := if s.cachedPool == s.pool then s
          else s.(cachedPool := s.pool, cachedRuntimes := registry.pool(s.pool));
        PlaceEncloses(registry, captures, loaded, loaded.cachedRuntimes[index], entity);
      case PlaceCommandBlock(data, block) =>
        PlaceEncloses(registry, captures, s, registry.commandBlock(block.mode, data), Some(CommandEntity(block)));
      case _ =>
    }
  }

  lemma WidenEncloses(s: State, pos: BlockPos)
    requires Enclosed(s) && IsInt32(pos.x) && IsInt32(pos.y) && IsInt32(pos.z)
    ensures Enclosed(s.(extent := Widen(s.extent.(pos := pos))))
  {
  }

  lemma StepEncloses(registry: Registry, captures: bool, bytes: Bytes, at: nat, s: State)
    requires at < |bytes| && Enclosed(s) && Step(registry, captures, bytes, at, s).Some?
    ensures Enclosed(Step(registry, captures, bytes, at, s).value.state)
  {
    var command := Decode(bytes, at).value.value;
    var executed := Execute(registry, captures, s, command).value;
    if command.Move? {
      WidenEncloses(s, executed.extent.pos);
    } else {
      ExecuteEncloses(registry, captures, s, command);
      hide Execute, Decode;
      assert Widen(executed.extent) == executed.extent;
    }
  }

  /** The box of a finished run holds every placement and every entity. */
  lemma {:induction false} RunEncloses(registry: Registry, captures: bool, bytes: Bytes, at: nat, s: State)
    requires Enclosed(s) && Run(registry, captures, bytes, at, s).Some?
    ensures Enclosed(Run(registry, captures, bytes, at, s).value)
    decreases |bytes| - at
  {
    StepEncloses(registry, captures, bytes, at, s);
    var stepped := Step(registry, captures, bytes, at, s).value;
    hide Enclosed;
    if !stepped.state.done {
      RunEncloses(registry, captures, bytes, stepped.next, stepped.state);
    }
  }

  /** `dimension`. */
  function Dimension(low: int, high: int): Option<int> {
    var span := high - low + 1;
    if 0 < span <= INT32_MAX then Some(span) else None
  }

  function SizeOf(e: Extent): Option<Size> {
    match (Dimension(e.low.x, e.high.x), Dimension(e.low.y, e.high.y), Dimension(e.low.z, e.high.z))
    case (Some(w), Some(h), Some(l)) => Some(Size(w, h, l))
    case _ => None
  }

  /** `shift`: a coordinate relative to the recovered minimum. */
  function Rebased(value: int, origin: int): Option<int> {
    if 0 <= value - origin <= INT32_MAX then Some(value - origin) else None
  }

  function RebasedBlock(b: BlockPos, low: BlockPos): Option<BlockPos> {
    match (Rebased(b.x, low.x), Rebased(b.y, low.y), Rebased(b.z, low.z))
    case (Some(x), Some(y), Some(z)) => Some(BlockPos(x, y, z))
    case _ => None
  }

  /** The size spans the box, both ends included, and once it is accepted rebasing cannot
      fail: it measures from the low corner, inside the size. */
  lemma RebasingSucceeds(s: State, size: Size, b: BlockPos)
    requires Enclosed(s) && SizeOf(s.extent) == Some(size)
    requires b in s.entities || (exists i :: 0 <= i < |s.placed| && s.placed[i].pos == b)
    ensures var low, high := s.extent.low, s.extent.high;
      size == Size(high.x - low.x + 1, high.y - low.y + 1, high.z - low.z + 1)
    ensures var r := RebasedBlock(b, s.extent.low);
      r == Some(BlockPos(b.x - s.extent.low.x, b.y - s.extent.low.y, b.z - s.extent.low.z))
    ensures var r := RebasedBlock(b, s.extent.low);
      r.Some? && 0 <= r.value.x < size.width && 0 <= r.value.y < size.height && 0 <= r.value.z < size.length
  {
    assert s.extent.Holds(b);
  }
}
