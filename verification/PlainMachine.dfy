/** The BDX command machine without the lookup memos, and when the memos make no
    difference to it. */
module PlainMachines {
  import opened Options
  import opened Coordinates
  import opened BdxBytes
  import opened BdxCommands
  import opened RuntimeMemos
  import opened BdxMachine
  import opened BdxEncodings

  const NO_MEMO := Memo(map[], map[], map[])

  function Forget(s: State): State {
    s.(memo := NO_MEMO)
  }

  function Forgotten(s: Option<State>): Option<State> {
    match s
    case None => None
    case Some(t) => Some(Forget(t))
  }

  /** What a command means: lookups ask the registry every time. */
  function PlainExecute(registry: Registry, captures: bool, s: State, command: Command): Option<State> {
    match command
    case PlaceState(name, states, entity) =>
      if !Acceptable(registry, entity) then None
      else
        (match StateMeaning(registry, s.constants, name, states)
         case None => None
         case Some(id) => PlaceBlock(registry, captures, s, id, entity))
    case PlaceLegacy(name, data, entity) =>
      PlaceBlock(registry, captures, s, LegacyMeaning(registry, s.constants, name, data), entity)
    case _ => Execute(registry, captures, s, command)
  }

  function PlainRun(registry: Registry, captures: bool, bytes: Bytes, at: nat, s: State): Option<State>
    decreases |bytes| - at
  {
    if at >= |bytes| then None
    else
      match Decode(bytes, at)
      case None => None
      case Some(field) =>
        match PlainExecute(registry, captures, s, field.value)
        case None => None
        case Some(executed) =>
          var next :=
            if MotionOf(field.value).Metadata? then executed else executed.(extent := Widen(executed.extent));
          if next.done then Some(next) else PlainRun(registry, captures, bytes, field.next, next)
  }

  /** The ids of a pair that are not defined yet. */
  function Missing(defined: nat, name: nat, states: nat): set<nat> {
    (if name >= defined then {name} else {}) + (if states >= defined then {states} else {})
  }

  /** The undefined ids state lookups have named, after a command. */
  function Named(defined: nat, early: set<nat>, command: Command): set<nat> {
    match command
    case PlaceState(name, states, _) => early + Missing(defined, name, states)
    case _ => early
  }

  predicate InTime(defined: nat, early: set<nat>, command: Command) {
    command.Define? ==> defined !in early
  }

  function DefinedAfter(defined: nat, command: Command): nat {
    if command.Define? then defined + 1 else defined
  }

  /** No constant is defined after a state lookup has named its id. */
  predicate DefinedInTime(bytes: Bytes, at: nat, defined: nat, early: set<nat>)
    decreases |bytes| - at
  {
    at < |bytes| && Decode(bytes, at).Some? ==>
      var field := Decode(bytes, at).value;
      && InTime(defined, early, field.value)
      && (field.value.Terminate?
          || DefinedInTime(bytes, field.next, DefinedAfter(defined, field.value), Named(defined, early, field.value)))
  }

  /** Every state lookup names defined constants only. */
  predicate DefinedBeforeUse(bytes: Bytes, at: nat, defined: nat)
    decreases |bytes| - at
  {
    at < |bytes| && Decode(bytes, at).Some? ==>
      var field := Decode(bytes, at).value;
      && (field.value.PlaceState? ==> field.value.name < defined && field.value.states < defined)
      && (field.value.Terminate? || DefinedBeforeUse(bytes, field.next, DefinedAfter(defined, field.value)))
  }

  lemma {:induction false} DefinedBeforeUseIsInTime(bytes: Bytes, at: nat, defined: nat)
    requires DefinedBeforeUse(bytes, at, defined)
    ensures DefinedInTime(bytes, at, defined, {})
    decreases |bytes| - at
  {
    hide Decode;
    if at < |bytes| && Decode(bytes, at).Some? {
      var field := Decode(bytes, at).value;
      if !field.value.Terminate? {
        assert Named(defined, {}, field.value) == {};
        DefinedBeforeUseIsInTime(bytes, field.next, DefinedAfter(defined, field.value));
      }
    }
  }

  /** Constant ids and data values are 16 bits wide. */
  predicate Short(command: Command) {
    match command
    case PlaceState(name, states, _) => name < 0x1_0000 && states < 0x1_0000
    case PlaceLegacy(name, data, _) => name < 0x1_0000 && data < 0x1_0000
    case _ => true
  }

  lemma DecodedIsShort(bytes: Bytes, at: nat)
    requires at < |bytes| && Decode(bytes, at).Some?
    ensures Short(Decode(bytes, at).value.value)
  {
    hide DecodeFixed, ReadCString, SkipCompound, ReadSlots;
    if FixedLength(bytes[at]) > 0 {
      FixedIsShort(bytes, at);
    }
  }

  lemma FixedIsShort(bytes: Bytes, at: nat)
    requires at < |bytes| && FixedLength(bytes[at]) > 0 && at + FixedLength(bytes[at]) <= |bytes|
    ensures Short(DecodeFixed(bytes, at))
  {
  }

  /** The memos tell the truth, and whatever undefined id they know is named. */
  ghost predicate Faithful(registry: Registry, s: State, early: set<nat>) {
    && Truthful(registry, s.constants, s.memo)
    && LegacyTruthful(registry, s.constants, s.memo)
    && (forall key: nat | Remembers(s.memo, key) :: Missing(|s.constants|, key / 0x1_0000, key % 0x1_0000) <= early)
  }

  lemma PlaceForgets(registry: Registry, captures: bool, s: State, memo: Memo, id: RuntimeId, entity: Option<Entity>)
    ensures Forgotten(PlaceBlock(registry, captures, s.(memo := memo), id, entity))
      == PlaceBlock(registry, captures, Forget(s), id, entity)
    ensures var placed := PlaceBlock(registry, captures, s.(memo := memo), id, entity);
      placed.Some? ==> placed.value.memo == memo && placed.value.constants == s.constants
  {
  }

  lemma LookupKeepsFaithful(registry: Registry, s: State, name: nat, states: nat, early: set<nat>)
    requires name < 0x1_0000 && states < 0x1_0000 && Faithful(registry, s, early)
    ensures var found := StateOf(registry, s.constants, s.memo, name, states);
      match StateMeaning(registry, s.constants, name, states)
      case None => found == None
      case Some(id) =>
        && found.Some? && found.value.id == id
        && Faithful(registry, s.(memo := found.value.memo), early + Missing(|s.constants|, name, states))
  {
    StateOfIsMeaning(registry, s.constants, s.memo, name, states);
    var found := StateOf(registry, s.constants, s.memo, name, states);
    if found.Some? {
      var memo := found.value.memo;
      assert memo.legacy == s.memo.legacy;
      var key := PairKey(name, states);
      assert key / 0x1_0000 == name && key % 0x1_0000 == states;
      forall k | Remembers(memo, k)
        ensures k == key || Remembers(s.memo, k)
      {
      }
      hide StateOf, StateMeaning, Truthful, Remembers, PairKey;
    }
  }

  lemma StatePlacesPlainly(registry: Registry, captures: bool, s: State, command: Command, early: set<nat>)
    requires command.PlaceState? && Short(command) && Faithful(registry, s, early)
    ensures var r := Execute(registry, captures, s, command);
      && Forgotten(r) == PlainExecute(registry, captures, Forget(s), command)
      && (r.Some? ==>
            && Faithful(registry, r.value, Named(|s.constants|, early, command))
            && r.value.constants == s.constants)
  {
    hide StateOf, StateMeaning, Faithful, PlaceBlock, Missing;
    LookupKeepsFaithful(registry, s, command.name, command.states, early);
    var found := StateOf(registry, s.constants, s.memo, command.name, command.states);
    if found.Some? {
      PlaceForgets(registry, captures, s, found.value.memo, found.value.id, command.entity);
      var r := Execute(registry, captures, s, command);
      if r.Some? {
        FaithfulIsAboutMemos(
          registry, s.(memo := found.value.memo), r.value, Named(|s.constants|, early, command));
      }
    }
  }

  lemma LegacyPlacesPlainly(registry: Registry, captures: bool, s: State, command: Command, early: set<nat>)
    requires command.PlaceLegacy? && Short(command) && Faithful(registry, s, early)
    ensures var r := Execute(registry, captures, s, command);
      && Forgotten(r) == PlainExecute(registry, captures, Forget(s), command)
      && (r.Some? ==> Faithful(registry, r.value, early) && r.value.constants == s.constants)
  {
    var name, data := command.name, command.data;
    LegacyOfIsMeaning(registry, s.constants, s.memo, name, data);
    var found := LegacyOf(registry, s.constants, s.memo, name, data);
    assert found.memo.states == s.memo.states && found.memo.direct == s.memo.direct;
    assert forall key :: Remembers(found.memo, key) <==> Remembers(s.memo, key);
    assert Truthful(registry, s.constants, found.memo);
    hide LegacyOf, LegacyMeaning, Truthful, LegacyTruthful, Remembers, PlaceBlock;
    PlaceForgets(registry, captures, s, found.memo, found.id, command.entity);
  }

  lemma DefineKeepsFaithful(registry: Registry, s: State, text: Bytes, bytes: nat, early: set<nat>)
    requires Faithful(registry, s, early) && |s.constants| !in early
    ensures Faithful(registry, s.(constants := s.constants + [text], constantBytes := bytes), early)
  {
    var more := s.constants + [text];
    LegacySurvivesDefinition(registry, s.constants, s.memo, text);
    StatesSurviveDefinitionExactlyWhen(registry, s.constants, s.memo, text);
    hide Truthful, LegacyTruthful, Remembers, Completed;
    forall key: nat | Remembers(s.memo, key)
      ensures !Completes(s.constants, key)
      ensures Missing(|more|, key / 0x1_0000, key % 0x1_0000) <= early
    {
      assert Missing(|s.constants|, key / 0x1_0000, key % 0x1_0000) <= early;
    }
  }

  /** One command, when its constant comes in time. */
  lemma ExecuteIsPlain(registry: Registry, captures: bool, s: State, command: Command, early: set<nat>)
    requires Short(command) && Faithful(registry, s, early) && InTime(|s.constants|, early, command)
    ensures var r := Execute(registry, captures, s, command);
      && Forgotten(r) == PlainExecute(registry, captures, Forget(s), command)
      && (r.Some? ==>
            && Faithful(registry, r.value, Named(|s.constants|, early, command))
            && |r.value.constants| == DefinedAfter(|s.constants|, command))
  {
    hide Faithful;
    if command.PlaceState? {
      StatePlacesPlainly(registry, captures, s, command, early);
    } else if command.PlaceLegacy? {
      LegacyPlacesPlainly(registry, captures, s, command, early);
    } else if command.Define? {
      var r := Execute(registry, captures, s, command);
      if r.Some? {
        DefineKeepsFaithful(registry, s, command.text, r.value.constantBytes, early);
      }
    } else {
      OtherCommandsArePlain(registry, captures, s, command, early);
    }
  }

  lemma OthersForget(registry: Registry, captures: bool, s: State, command: Command)
    requires !command.PlaceState? && !command.PlaceLegacy? && !command.Define?
    ensures var r := Execute(registry, captures, s, command);
      && Forgotten(r) == Execute(registry, captures, Forget(s), command)
      && (r.Some? ==> r.value.memo == s.memo && r.value.constants == s.constants)
  {
    hide PlaceBlock, ResolveText, Shifted;
    assert s.(memo := s.memo) == s;
    match command {
      case PlaceText(name, text) =>
        var id := ResolveText(registry, s.constants, name, text);
        if id.Some? {
          PlaceForgets(registry, captures, s, s.memo, id.value, None);
        }
      case PlaceIndexed(index, entity) =>
        var loaded :=
          if s.cachedPool == s.pool then s
          else s.(cachedPool := s.pool, cachedRuntimes := registry.pool(s.pool));
        assert loaded.(memo := loaded.memo) == loaded;
        if index < |loaded.cachedRuntimes| {
          PlaceForgets(registry, captures, loaded, s.memo, loaded.cachedRuntimes[index], entity);
        }
      case PlaceCommandBlock(data, block) =>
        if block.mode <= 2 {
          PlaceForgets(
            registry, captures, s, s.memo, registry.commandBlock(block.mode, data), Some(CommandEntity(block)));
        }
      case _ =>
    }
  }

  lemma OtherCommandsArePlain(registry: Registry, captures: bool, s: State, command: Command, early: set<nat>)
    requires Faithful(registry, s, early)
    requires !command.PlaceState? && !command.PlaceLegacy? && !command.Define?
    ensures var r := Execute(registry, captures, s, command);
      && Forgotten(r) == PlainExecute(registry, captures, Forget(s), command)
      && (r.Some? ==> Faithful(registry, r.value, early) && r.value.constants == s.constants)
  {
    hide Faithful, Execute;
    OthersForget(registry, captures, s, command);
    var r := Execute(registry, captures, s, command);
    if r.Some? {
      FaithfulIsAboutMemos(registry, s, r.value, early);
    }
  }

  lemma FaithfulIsAboutMemos(registry: Registry, s: State, t: State, early: set<nat>)
    requires Faithful(registry, s, early) && t.memo == s.memo && t.constants == s.constants
    ensures Faithful(registry, t, early)
  {
  }

  lemma WideningForgets(s: State)
    ensures Forget(s.(extent := Widen(s.extent))) == Forget(s).(extent := Widen(Forget(s).extent))
  {
    hide Widen;
  }

  /** Without late definitions the memos are invisible: the run is the plain run. */
  lemma {:induction false} RunIsPlain(registry: Registry, captures: bool, bytes: Bytes, at: nat, s: State,
      early: set<nat>)
    requires Faithful(registry, s, early) && DefinedInTime(bytes, at, |s.constants|, early) && !s.done
    ensures Forgotten(Run(registry, captures, bytes, at, s)) == PlainRun(registry, captures, bytes, at, Forget(s))
    decreases |bytes| - at
  {
    hide Decode, Execute, PlainExecute, Faithful, Short, Widen, MotionOf;
    if at < |bytes| && Decode(bytes, at).Some? {
      var field := Decode(bytes, at).value;
      DecodedIsShort(bytes, at);
      ExecuteIsPlain(registry, captures, s, field.value, early);
      var executed := Execute(registry, captures, s, field.value);
      if executed.Some? {
        ExecuteEnds(registry, captures, s, field.value);
        WideningForgets(executed.value);
        var next := Step(registry, captures, bytes, at, s).value.state;
        FaithfulIsAboutMemos(registry, executed.value, next, Named(|s.constants|, early, field.value));
        if !next.done {
          RunIsPlain(registry, captures, bytes, field.next, next, Named(|s.constants|, early, field.value));
        }
      }
    }
  }

  lemma ExecuteEnds(registry: Registry, captures: bool, s: State, command: Command)
    requires Execute(registry, captures, s, command).Some? && !s.done
    ensures Execute(registry, captures, s, command).value.done <==> command.Terminate?
  {
    ExecuteMoves(registry, captures, s, command);
    hide Execute;
  }

  /** From the start of a file. */
  lemma DefinedBeforeUseRunsPlainly(registry: Registry, captures: bool, bytes: Bytes, at: nat)
    requires DefinedBeforeUse(bytes, at, 0)
    ensures Forgotten(Run(registry, captures, bytes, at, START)) == PlainRun(registry, captures, bytes, at, START)
  {
    DefinedBeforeUseIsInTime(bytes, at, 0);
    RunIsPlain(registry, captures, bytes, at, START, {});
  }

  /** The pair a state lookup named is in the bounded table, as air. */
  ghost predicate KnownAsAir(registry: Registry, s: State, key: nat) {
    && Coherent(registry, s.constants, s.memo)
    && key in s.memo.states && s.memo.states[key] == registry.air
  }

  lemma StepKeepsAir(registry: Registry, captures: bool, s: State, command: Command, key: nat)
    requires KnownAsAir(registry, s, key) && Short(command) && ExecuteOne(registry, captures, s, command).Some?
    ensures KnownAsAir(registry, ExecuteOne(registry, captures, s, command).value, key)
  {
    hide Widen, StateMeaning, DirectSlot;
    match command {
      case PlaceState(name, states, entity) =>
        LookupRemembers(registry, s.constants, s.memo, name, states);
        var found := StateOf(registry, s.constants, s.memo, name, states).value;
        hide StateOf, Coherent, PlaceBlock;
        PlaceForgets(registry, captures, s, found.memo, found.id, entity);
      case PlaceLegacy(name, data, entity) =>
        LegacyKeepsStates(registry, s.constants, s.memo, name, data);
        var found := LegacyOf(registry, s.constants, s.memo, name, data);
        hide LegacyOf, Coherent, PlaceBlock;
        PlaceForgets(registry, captures, s, found.memo, found.id, entity);
      case Define(text) =>
        CoherentSurvivesDefinition(registry, s.constants, s.memo, text);
        hide Coherent;
      case _ =>
        hide Coherent;
    }
  }

  lemma LegacyKeepsStates(registry: Registry, constants: seq<Bytes>, memo: Memo, name: nat, data: nat)
    ensures var found := LegacyOf(registry, constants, memo, name, data);
      && found.memo.states == memo.states
      && (Coherent(registry, constants, memo) ==> Coherent(registry, constants, found.memo))
  {
    var found := LegacyOf(registry, constants, memo, name, data);
    assert found.memo.states == memo.states && found.memo.direct == memo.direct;
    hide LegacyOf;
    if Coherent(registry, constants, memo) {
      assert forall slot | slot in memo.direct :: DirectAgrees(memo, slot) ==> DirectAgrees(found.memo, slot);
      assert forall key: nat, id: RuntimeId :: Recalls(found.memo, key, id) ==> Recalls(memo, key, id);
    }
  }

  lemma {:induction false} CommandsKeepAir(registry: Registry, captures: bool, s: State, commands: seq<Command>,
      key: nat)
    requires KnownAsAir(registry, s, key) && ExecuteAll(registry, captures, s, commands).Some?
    requires forall i | 0 <= i < |commands| :: Short(commands[i])
    ensures KnownAsAir(registry, ExecuteAll(registry, captures, s, commands).value, key)
  {
    hide KnownAsAir, Short, ExecuteOne;
    if commands != [] {
      var last := |commands| - 1;
      CommandsKeepAir(registry, captures, s, commands[..last], key);
      StepKeepsAir(registry, captures, ExecuteAll(registry, captures, s, commands[..last]).value, commands[last], key);
    }
  }

  lemma EarlyUseIsKnown(registry: Registry, captures: bool, s: State, name: nat, states: nat, entity: Option<Entity>)
    requires Coherent(registry, s.constants, s.memo) && |s.memo.states| < MAXIMUM_CACHE_ENTRIES
    requires name < 0x1_0000 && states < 0x1_0000 && (name >= |s.constants| || states >= |s.constants|)
    requires ExecuteOne(registry, captures, s, PlaceState(name, states, entity)).Some?
    ensures KnownAsAir(registry,
        ExecuteOne(registry, captures, s, PlaceState(name, states, entity)).value, PairKey(name, states))
  {
    LookupRemembers(registry, s.constants, s.memo, name, states);
    var found := StateOf(registry, s.constants, s.memo, name, states).value;
    hide StateOf, Coherent, PlaceBlock, PairKey, Widen;
    PlaceForgets(registry, captures, s, found.memo, found.id, entity);
  }

  lemma KnownAirIsPlaced(registry: Registry, captures: bool, t: State, name: nat, states: nat)
    requires KnownAsAir(registry, t, PairKey(name, states)) && name < 0x1_0000 && states < 0x1_0000
    ensures var later := Execute(registry, captures, t, PlaceState(name, states, None));
      && later.Some? && later.value.placed == t.placed + [Placing(t.extent.pos, registry.air)]
  {
    var key := PairKey(name, states);
    assert StateOf(registry, t.constants, t.memo, name, states).Some?;
    LookupRemembers(registry, t.constants, t.memo, name, states);
    hide StateOf, Coherent;
  }

  /** A pair looked up before both its constants exist, while the bounded table has
      room, is air for good: whatever commands follow, its placements are air, and they differ from the plain
      machine exactly when the registry has come to answer something else. */
  lemma EarlyUseStaysAir(registry: Registry, captures: bool, s: State, name: nat, states: nat, entity: Option<Entity>,
                         commands: seq<Command>)
    requires Coherent(registry, s.constants, s.memo) && |s.memo.states| < MAXIMUM_CACHE_ENTRIES
    requires name < 0x1_0000 && states < 0x1_0000 && (name >= |s.constants| || states >= |s.constants|)
    requires ExecuteOne(registry, captures, s, PlaceState(name, states, entity)).Some?
    requires forall i | 0 <= i < |commands| :: Short(commands[i])
    ensures var t := ExecuteAll(registry, captures,
        ExecuteOne(registry, captures, s, PlaceState(name, states, entity)).value, commands);
      t.Some? ==>
        var later := Execute(registry, captures, t.value, PlaceState(name, states, None));
        && later.Some? && later.value.placed == t.value.placed + [Placing(t.value.extent.pos, registry.air)]
        && (Forgotten(later) == PlainExecute(registry, captures, Forget(t.value), PlaceState(name, states, None))
            <==> StateMeaning(registry, t.value.constants, name, states) == Some(registry.air))
  {
    EarlyUseIsKnown(registry, captures, s, name, states, entity);
    var first := ExecuteOne(registry, captures, s, PlaceState(name, states, entity)).value;
    hide Coherent, ExecuteOne, ExecuteAll, Short, KnownAsAir, PairKey;
    var t := ExecuteAll(registry, captures, first, commands);
    if t.Some? {
      CommandsKeepAir(registry, captures, first, commands, PairKey(name, states));
      KnownAirIsPlaced(registry, captures, t.value, name, states);
      AirMatchesPlainly(registry, captures, t.value, name, states);
    }
  }

  lemma AirMatchesPlainly(registry: Registry, captures: bool, t: State, name: nat, states: nat)
    requires KnownAsAir(registry, t, PairKey(name, states)) && name < 0x1_0000 && states < 0x1_0000
    ensures Forgotten(Execute(registry, captures, t, PlaceState(name, states, None)))
        == PlainExecute(registry, captures, Forget(t), PlaceState(name, states, None))
      <==> StateMeaning(registry, t.constants, name, states) == Some(registry.air)
  {
    var key := PairKey(name, states);
    assert StateOf(registry, t.constants, t.memo, name, states).Some?;
    LookupRemembers(registry, t.constants, t.memo, name, states);
    var found := StateOf(registry, t.constants, t.memo, name, states).value;
    hide StateOf, Coherent, StateMeaning;
    PlaceForgets(registry, captures, t, found.memo, registry.air, None);
  }
}
