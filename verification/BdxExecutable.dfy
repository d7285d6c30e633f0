/** What the full BDX reader checks and the bounds-only one does not, and so when
    exactly the full reader accepts a stream. */
module BdxExecutables {
  import opened Options
  import opened Coordinates
  import opened BdxBytes
  import opened BdxCommands
  import opened RuntimeMemos
  import opened BdxMachine

  /** Strings are read up to a limit, but skipped whatever their length. */
  predicate StringFits(bytes: Bytes, at: nat) {
    SkipCString(bytes, at).Some? ==> SkipCString(bytes, at).value - at - 1 <= MAXIMUM_STRING_BYTES
  }

  predicate CommandBlockFits(bytes: Bytes, at: nat) {
    StringFits(bytes, at + 4)
    && (match SkipCString(bytes, at + 4)
        case None => true
        case Some(name) =>
          StringFits(bytes, name)
          && (SkipCString(bytes, name).Some? ==> StringFits(bytes, SkipCString(bytes, name).value)))
  }

  predicate SlotsFit(bytes: Bytes, at: nat, count: nat)
    decreases count
  {
    count > 0 ==>
      StringFits(bytes, at)
      && (SkipCString(bytes, at).Some? ==> SlotsFit(bytes, SkipCString(bytes, at).value + 4, count - 1))
  }

  predicate ChestFits(bytes: Bytes, at: nat) {
    at < |bytes| ==> SlotsFit(bytes, at + 1, bytes[at])
  }

  /** The strings of one command are within the limit. */
  predicate StringsFit(bytes: Bytes, at: nat)
    requires at < |bytes|
  {
    var body := at + 1;
    match bytes[at]
    case 1 => StringFits(bytes, body)
    case 13 => StringFits(bytes, body + 2)
    case 26 => CommandBlockFits(bytes, body)
    case 27 => CommandBlockFits(bytes, body + 4)
    case 34 => CommandBlockFits(bytes, body + 2)
    case 35 => CommandBlockFits(bytes, body + 4)
    case 36 => CommandBlockFits(bytes, body + 2)
    case 37 => ChestFits(bytes, body + 2)
    case 38 => ChestFits(bytes, body + 4)
    case 40 => ChestFits(bytes, body + 4)
    case _ => true
  }

  lemma CommandBlockReadsExactlyWhen(bytes: Bytes, at: nat)
    ensures ReadCommandBlock(bytes, at).Some? <==> SkipCommandBlock(bytes, at).Some? && CommandBlockFits(bytes, at)
  {
    CStringExtent(bytes, at + 4, MAXIMUM_STRING_BYTES);
    var command := SkipCString(bytes, at + 4);
    if command.Some? {
      CStringExtent(bytes, command.value, MAXIMUM_STRING_BYTES);
      var name := SkipCString(bytes, command.value);
      if name.Some? {
        CStringExtent(bytes, name.value, MAXIMUM_STRING_BYTES);
      }
    }
    hide SkipCString, ReadCString;
  }

  lemma {:induction false} SlotsReadExactlyWhen(bytes: Bytes, at: nat, count: nat)
    requires at <= |bytes|
    ensures ReadSlots(bytes, at, count).Some? <==> SkipSlots(bytes, at, count).Some? && SlotsFit(bytes, at, count)
    decreases count
  {
    hide SkipCString, ReadCString;
    if count > 0 {
      CStringExtent(bytes, at, MAXIMUM_STRING_BYTES);
      var tail := SkipCString(bytes, at);
      if tail.Some? && tail.value + 4 <= |bytes| {
        SlotsReadExactlyWhen(bytes, tail.value + 4, count - 1);
      }
    }
  }

  lemma ChestReadsExactlyWhen(bytes: Bytes, at: nat)
    ensures ReadChest(bytes, at).Some? <==> SkipChest(bytes, at).Some? && ChestFits(bytes, at)
  {
    if at < |bytes| {
      SlotsReadExactlyWhen(bytes, at + 1, bytes[at]);
    }
  }

  /** A command can be decoded exactly when it can be skipped and its strings are
      short enough. */
  lemma DecodesExactlyWhen(bytes: Bytes, at: nat)
    requires at < |bytes|
    ensures Decode(bytes, at).Some? <==> Pass(bytes, at).Some? && StringsFit(bytes, at)
  {
    var id, body := bytes[at], at + 1;
    hide SkipCString, ReadCString, StringFits, CommandBlockFits, ChestFits, ReadCommandBlock, SkipCommandBlock,
      ReadChest, SkipChest, SkipCompound, DecodeFixed;
    if FixedLength(id) > 0 {
      PassFollowsFixed(bytes, at);
    } else if id in {1, 13} {
      StringReadsExactlyWhen(bytes, if id == 1 then body else body + 2);
    } else if id in {26, 27, 34, 35, 36} {
      CommandBlockReadsExactlyWhen(bytes, if id == 26 then body else if id in {27, 35} then body + 4 else body + 2);
    } else if id in {37, 38, 40} {
      ChestReadsExactlyWhen(bytes, if id == 37 then body + 2 else body + 4);
    }
  }

  lemma StringReadsExactlyWhen(bytes: Bytes, at: nat)
    ensures ReadCString(bytes, at, MAXIMUM_STRING_BYTES).Some? <==>
      SkipCString(bytes, at).Some? && StringFits(bytes, at)
  {
    CStringExtent(bytes, at, MAXIMUM_STRING_BYTES);
  }

  /** What the checks depend on besides the cursor and the selected pool. The
      pool cache starts out naming pool 255 and empty, so `poolUsed` says whether
      an indexed placement has used another pool yet. */
  datatype Ledger = Ledger(
    constants: seq<Bytes>,
    constantBytes: nat,
    memo: Memo,
    poolUsed: bool,
    entities: set<BlockPos>)

  const BLANK := Ledger([], 0, Memo(map[], map[], map[]), false, {})

  /** Pool 255 looks empty until another pool has been used. */
  function PoolOf(registry: Registry, l: Ledger, pool: Byte): seq<RuntimeId> {
    if l.poolUsed || pool != 0xff then registry.pool(pool) else []
  }

  /** The limits on block entities, which are only captured on request. */
  predicate EntityFits(registry: Registry, captures: bool, l: Ledger, pos: BlockPos, entity: Option<Entity>,
      id: RuntimeId)
  {
    captures && entity.Some? ==>
      (|l.entities| < MAXIMUM_BLOCK_ENTITIES || pos in l.entities) && registry.fits(entity.value, id)
  }

  predicate Checks(registry: Registry, captures: bool, b: Bounds, l: Ledger, command: Command) {
    var pos := b.extent.pos;
    match command
    case Define(text) =>
      |l.constants| < MAXIMUM_CONSTANTS && l.constantBytes + |text| <= MAXIMUM_CONSTANT_BYTES
    case PlaceState(name, states, entity) =>
      var found := StateOf(registry, l.constants, l.memo, name, states);
      && Acceptable(registry, entity) && found.Some?
      && EntityFits(registry, captures, l, pos, entity, found.value.id)
    case PlaceLegacy(name, data, entity) =>
      EntityFits(registry, captures, l, pos, entity, LegacyOf(registry, l.constants, l.memo, name, data).id)
    case PlaceText(name, text) => ResolveText(registry, l.constants, name, text).Some?
    case PlaceIndexed(index, entity) =>
      var pool := PoolOf(registry, l, b.pool);
      index < |pool| && EntityFits(registry, captures, l, pos, entity, pool[index])
    case PlaceCommandBlock(data, block) =>
      && block.mode <= 2
      && EntityFits(registry, captures, l, pos, Some(CommandEntity(block)), registry.commandBlock(block.mode, data))
    case AttachEntity(entity) => EntityFits(registry, captures, l, pos, Some(entity), 0)
    case _ => true
  }

  /** A plain block drops the entity at its position. */
  function Placed(captures: bool, l: Ledger, pos: BlockPos, entity: bool): Ledger {
    if !captures then l else l.(entities := if entity then l.entities + {pos} else l.entities - {pos})
  }

  /** The ledger after a command that passed its checks. */
  function Noted(registry: Registry, captures: bool, b: Bounds, l: Ledger, command: Command): Ledger {
    var pos := b.extent.pos;
    match command
    case Define(text) => l.(constants := l.constants + [text], constantBytes := l.constantBytes + |text|)
    case PlaceState(name, states, entity) =>
      (match StateOf(registry, l.constants, l.memo, name, states)
       case None => l
       case Some(found) => Placed(captures, l.(memo := found.memo), pos, entity.Some?))
    case PlaceLegacy(name, data, entity) =>
      Placed(captures, l.(memo := LegacyOf(registry, l.constants, l.memo, name, data).memo), pos, entity.Some?)
    case PlaceText(_, _) => Placed(captures, l, pos, false)
    case PlaceIndexed(_, entity) => Placed(captures, l.(poolUsed := l.poolUsed || b.pool != 0xff), pos, entity.Some?)
    case PlaceCommandBlock(_, _) => Placed(captures, l, pos, true)
    case AttachEntity(_) => Placed(captures, l, pos, true)
    case _ => l
  }

  /** Every command up to the terminator has strings within the limit and passes
      its checks; the cursor is followed as the bounds-only reader does. */
  predicate Executable(registry: Registry, captures: bool, bytes: Bytes, at: nat, b: Bounds, l: Ledger)
    decreases |bytes| - at
  {
    at < |bytes| && PassStep(bytes, at, b).Some? ==>
      var passed := PassStep(bytes, at, b).value;
      && StringsFit(bytes, at)
      && (match Decode(bytes, at)
          case None => true
          case Some(field) =>
            && Checks(registry, captures, b, l, field.value)
            && (passed.state.done
                || Executable(registry, captures, bytes, passed.next, passed.state,
                     Noted(registry, captures, b, l, field.value))))
  }

  /** The ledger keeps what it should of the reader's state. */
  ghost predicate Keeps(registry: Registry, l: Ledger, s: State) {
    && l.constants == s.constants && l.constantBytes == s.constantBytes && l.memo == s.memo
    && l.entities == s.entities.Keys
    && (if l.poolUsed then s.cachedRuntimes == registry.pool(s.cachedPool)
        else s.cachedPool == 0xff && s.cachedRuntimes == [])
  }

  lemma PlacesExactlyWhen(registry: Registry, captures: bool, s: State, l: Ledger, id: RuntimeId,
      entity: Option<Entity>)
    requires Keeps(registry, l, s)
    ensures var r := PlaceBlock(registry, captures, s, id, entity);
      && (r.Some? <==> EntityFits(registry, captures, l, s.extent.pos, entity, id))
      && (r.Some? ==> Keeps(registry, Placed(captures, l, s.extent.pos, entity.Some?), r.value))
  {
    assert |s.entities| == |s.entities.Keys|;
  }

  lemma StoresExactlyWhen(registry: Registry, captures: bool, s: State, l: Ledger, entity: Entity)
    requires Keeps(registry, l, s)
    ensures var r := StoreEntity(registry, captures, s, entity, 0);
      && (r.Some? <==> EntityFits(registry, captures, l, s.extent.pos, Some(entity), 0))
      && (r.Some? ==> Keeps(registry, Placed(captures, l, s.extent.pos, true), r.value))
  {
    assert |s.entities| == |s.entities.Keys|;
  }

  lemma IndexedExactlyWhen(registry: Registry, captures: bool, s: State, b: Bounds, l: Ledger, command: Command)
    requires Keeps(registry, l, s) && Shadows(b, s) && command.PlaceIndexed?
    ensures var r := Execute(registry, captures, s, command);
      && (r.Some? <==> Checks(registry, captures, b, l, command))
      && (r.Some? ==> Keeps(registry, Noted(registry, captures, b, l, command), r.value))
  {
    var loaded :=
      if s.cachedPool == s.pool then s else s.(cachedPool := s.pool, cachedRuntimes := registry.pool(s.pool));
    var noted := l.(poolUsed := l.poolUsed || b.pool != 0xff);
    assert loaded.cachedRuntimes == PoolOf(registry, l, b.pool);
    assert Keeps(registry, noted, loaded);
    hide PlaceBlock, Keeps, EntityFits, Placed;
    if command.index < |loaded.cachedRuntimes| {
      PlacesExactlyWhen(registry, captures, loaded, noted, loaded.cachedRuntimes[command.index], command.entity);
      EntityFitsAnyway(registry, captures, l, noted, s.extent.pos, command.entity,
        loaded.cachedRuntimes[command.index]);
    }
  }

  lemma EntityFitsAnyway(registry: Registry, captures: bool, l: Ledger, m: Ledger, pos: BlockPos,
                         entity: Option<Entity>, id: RuntimeId)
    requires l.entities == m.entities
    ensures EntityFits(registry, captures, l, pos, entity, id) <==> EntityFits(registry, captures, m, pos, entity, id)
  {
  }

  lemma LookupsExactlyWhen(registry: Registry, captures: bool, s: State, b: Bounds, l: Ledger, command: Command)
    requires Keeps(registry, l, s) && Shadows(b, s) && (command.PlaceState? || command.PlaceLegacy?)
    ensures var r := Execute(registry, captures, s, command);
      && (r.Some? <==> Checks(registry, captures, b, l, command))
      && (r.Some? ==> Keeps(registry, Noted(registry, captures, b, l, command), r.value))
  {
    hide PlaceBlock, EntityFits, Placed, StateOf, LegacyOf, Acceptable;
    match command {
      case PlaceState(name, states, entity) =>
        var found := StateOf(registry, l.constants, l.memo, name, states);
        if found.Some? {
          var m := l.(memo := found.value.memo);
          PlacesExactlyWhen(registry, captures, s.(memo := found.value.memo), m, found.value.id, entity);
          EntityFitsAnyway(registry, captures, l, m, s.extent.pos, entity, found.value.id);
        }
      case PlaceLegacy(name, data, entity) =>
        var found := LegacyOf(registry, l.constants, l.memo, name, data);
        var m := l.(memo := found.memo);
        PlacesExactlyWhen(registry, captures, s.(memo := found.memo), m, found.id, entity);
        EntityFitsAnyway(registry, captures, l, m, s.extent.pos, entity, found.id);
    }
  }

  /** One command executes exactly when the cursor can follow it and its checks
      pass. */
  lemma ExecutesExactlyWhen(registry: Registry, captures: bool, s: State, b: Bounds, l: Ledger, command: Command)
    requires Keeps(registry, l, s) && Shadows(b, s)
    ensures var r := Execute(registry, captures, s, command);
      && (r.Some? <==> Follow(b, MotionOf(command)).Some? && Checks(registry, captures, b, l, command))
      && (r.Some? ==> Keeps(registry, Noted(registry, captures, b, l, command), r.value))
  {
    hide PlaceBlock, StoreEntity, EntityFits, Placed, StateOf, LegacyOf, Acceptable, Shifted, Widen, PoolOf,
      ResolveText;
    match command {
      case PlaceState(_, _, _) => LookupsExactlyWhen(registry, captures, s, b, l, command);
      case PlaceLegacy(_, _, _) => LookupsExactlyWhen(registry, captures, s, b, l, command);
      case PlaceIndexed(_, _) => IndexedExactlyWhen(registry, captures, s, b, l, command);
      case PlaceText(name, text) =>
        var id := ResolveText(registry, s.constants, name, text);
        if id.Some? {
          PlacesExactlyWhen(registry, captures, s, l, id.value, None);
          PlainFits(registry, captures, l, s.extent.pos, id.value);
        }
      case PlaceCommandBlock(data, block) =>
        PlacesExactlyWhen(registry, captures, s, l, registry.commandBlock(block.mode, data),
          Some(CommandEntity(block)));
      case AttachEntity(entity) => StoresExactlyWhen(registry, captures, s, l, entity);
      case _ =>
    }
  }

  lemma PlainFits(registry: Registry, captures: bool, l: Ledger, pos: BlockPos, id: RuntimeId)
    ensures EntityFits(registry, captures, l, pos, None, id)
  {
  }

  lemma StepsExactlyWhen(registry: Registry, captures: bool, bytes: Bytes, at: nat, s: State, b: Bounds, l: Ledger)
    requires at < |bytes| && Keeps(registry, l, s) && Shadows(b, s)
    ensures var full := Step(registry, captures, bytes, at, s);
      && (full.Some? <==>
            && PassStep(bytes, at, b).Some? && StringsFit(bytes, at) && Decode(bytes, at).Some?
            && Checks(registry, captures, b, l, Decode(bytes, at).value.value))
      && (PassStep(bytes, at, b).Some? && StringsFit(bytes, at) ==> Decode(bytes, at).Some?)
      && (full.Some? ==>
            Keeps(registry, Noted(registry, captures, b, l, Decode(bytes, at).value.value), full.value.state))
  {
    hide Decode, Pass, Execute, Checks, Noted, StringsFit, Follow, MotionOf, Widen, Keeps;
    DecodesExactlyWhen(bytes, at);
    if Decode(bytes, at).Some? {
      var command := Decode(bytes, at).value.value;
      PassFollowsDecode(bytes, at);
      ExecutesExactlyWhen(registry, captures, s, b, l, command);
      var r := Execute(registry, captures, s, command);
      if r.Some? {
        KeepsAnyExtent(registry, Noted(registry, captures, b, l, command), r.value, Widen(r.value.extent));
      }
    }
  }

  lemma KeepsAnyExtent(registry: Registry, l: Ledger, s: State, extent: Extent)
    requires Keeps(registry, l, s)
    ensures Keeps(registry, l, s.(extent := extent))
  {
  }

  /** The full reader accepts exactly the executable streams among those the
      bounds-only reader accepts. */
  lemma {:induction false} RunsExactlyWhen(
      registry: Registry, captures: bool, bytes: Bytes, at: nat, s: State, b: Bounds, l: Ledger)
    requires Keeps(registry, l, s) && Shadows(b, s)
    ensures Run(registry, captures, bytes, at, s).Some?
      <==> PassRun(bytes, at, b).Some? && Executable(registry, captures, bytes, at, b, l)
    decreases |bytes| - at
  {
    hide Decode, Step, PassStep, Checks, Noted, StringsFit, Keeps;
    if at < |bytes| {
      StepsExactlyWhen(registry, captures, bytes, at, s, b, l);
      var full := Step(registry, captures, bytes, at, s);
      if full.Some? {
        PassStepFollows(registry, captures, bytes, at, s, b);
        var passed := PassStep(bytes, at, b).value;
        if !passed.state.done {
          RunsExactlyWhen(registry, captures, bytes, passed.next, full.value.state, passed.state,
            Noted(registry, captures, b, l, Decode(bytes, at).value.value));
        }
      }
    }
  }

  /** From the start of a file. */
  lemma FileRunsExactlyWhen(registry: Registry, captures: bool, bytes: Bytes, at: nat)
    ensures Run(registry, captures, bytes, at, START).Some?
      <==> PassRun(bytes, at, NOWHERE).Some? && Executable(registry, captures, bytes, at, NOWHERE, BLANK)
  {
    RunsExactlyWhen(registry, captures, bytes, at, START, NOWHERE, BLANK);
  }

  const FROM_POOL_255: Bytes := [31, 255, 32, 0, 0, 88]

  lemma FromPool255Passes()
    ensures var selected := NOWHERE.(pool := 255);
      && PassStep(FROM_POOL_255, 0, NOWHERE) == Some(Stepped(selected, 2))
      && PassStep(FROM_POOL_255, 2, selected) == Some(Stepped(selected, 5))
      && PassStep(FROM_POOL_255, 5, selected) == Some(Stepped(selected.(done := true), 6))
  {
  }

  lemma FromPool255Decodes()
    ensures Decode(FROM_POOL_255, 0) == Some(Field(SelectPool(255), 2))
    ensures Decode(FROM_POOL_255, 2) == Some(Field(PlaceIndexed(0, None), 5))
  {
  }

  /** A concrete case: an indexed placement from pool 255 right at the start
      fails the full reader, whatever that pool holds. */
  lemma UnusedPoolLooksEmpty(registry: Registry, captures: bool)
    ensures Run(registry, captures, FROM_POOL_255, 0, START) == None
    ensures PassRun(FROM_POOL_255, 0, NOWHERE) == Some(NOWHERE.(pool := 255, done := true))
  {
    hide Decode, PassStep, Run, Step, Execute;
    FromPool255Passes();
    FromPool255Decodes();
    var selected := NOWHERE.(pool := 255);
    PassRunUnfolds(FROM_POOL_255, 0, NOWHERE);
    PassRunUnfolds(FROM_POOL_255, 2, selected);
    PassRunUnfolds(FROM_POOL_255, 5, selected);
    assert !Executable(registry, captures, FROM_POOL_255, 2, selected, BLANK);
    FileRunsExactlyWhen(registry, captures, FROM_POOL_255, 0);
  }

  lemma PassRunUnfolds(bytes: Bytes, at: nat, b: Bounds)
    requires at < |bytes|
    ensures PassRun(bytes, at, b)
      == match PassStep(bytes, at, b)
         case None => None
         case Some(stepped) =>
           if stepped.state.done then Some(stepped.state) else PassRun(bytes, stepped.next, stepped.state)
  {
    hide PassStep;
  }
}
