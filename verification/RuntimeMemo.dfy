/** The two memo tables in front of block lookup in `BdxStructure::read`, and
    when they tell the truth. */
module RuntimeMemos {
  import opened Options
  import opened Coordinates
  import opened BdxBytes
  import opened BdxCommands

  const MAXIMUM_CACHE_ENTRIES := 262_144

  /** The block registry: a function of names, values and pools, none of which
      changes while a file is read. Parsing a state string can fail, hence the
      option; `accepts` and `fits` say which compound tags libnbt accepts and
      which serialised block entities are small enough. */
  datatype Registry = Registry(
    air: RuntimeId,
    stateRuntime: (Bytes, Bytes) -> Option<RuntimeId>,
    legacyRuntime: (Bytes, nat) -> RuntimeId,
    commandBlock: (nat, nat) -> RuntimeId,
    pool: Byte -> seq<RuntimeId>,
    accepts: Bytes -> bool,
    fits: (Entity, RuntimeId) -> bool)

  /** The direct-mapped table, the bounded table behind it, and the bounded one
      of legacy lookups; all are keyed by a pair of 16-bit constant ids. */
  datatype Memo = Memo(direct: map<nat, (nat, RuntimeId)>, states: map<nat, RuntimeId>, legacy: map<nat, RuntimeId>)

  function PairKey(first: nat, second: nat): nat {
    first * 0x1_0000 + second
  }

  function DirectSlot(key: nat): nat {
    key * 2654435761 % 0x1_0000_0000 % 256
  }

  /** `resolve_state_runtime`. */
  function ResolveText(registry: Registry, constants: seq<Bytes>, name: nat, text: Bytes): Option<RuntimeId> {
    if name < |constants| then registry.stateRuntime(constants[name], text) else Some(registry.air)
  }

  /** What a state lookup means, without any memo. */
  function StateMeaning(registry: Registry, constants: seq<Bytes>, name: nat, states: nat): Option<RuntimeId> {
    if states < |constants| then ResolveText(registry, constants, name, constants[states]) else Some(registry.air)
  }

  function LegacyMeaning(registry: Registry, constants: seq<Bytes>, name: nat, data: nat): RuntimeId {
    if name < |constants| then registry.legacyRuntime(constants[name], data) else registry.air
  }

  datatype Found = Found(memo: Memo, id: RuntimeId)

  /** `constant_state_runtime`: direct table, then bounded table, then lookup. */
  function StateOf(registry: Registry, constants: seq<Bytes>, memo: Memo, name: nat, states: nat): Option<Found> {
    var key := PairKey(name, states);
    var slot := DirectSlot(key);
    if slot in memo.direct && memo.direct[slot].0 == key then Some(Found(memo, memo.direct[slot].1))
    else if key in memo.states then
      Some(Found(memo.(direct := memo.direct[slot := (key, memo.states[key])]), memo.states[key]))
    else
      match StateMeaning(registry, constants, name, states)
      case None => None
      case Some(id) =>
        Some(Found(memo.(
          states := if |memo.states| < MAXIMUM_CACHE_ENTRIES then memo.states[key := id] else memo.states,
          direct := memo.direct[slot := (key, id)]), id))
  }

  /** `legacy_runtime`: an undefined name is not remembered. */
  function LegacyOf(registry: Registry, constants: seq<Bytes>, memo: Memo, name: nat, data: nat): Found {
    var key := PairKey(name, data);
    if key in memo.legacy then Found(memo, memo.legacy[key])
    else if name >= |constants| then Found(memo, registry.air)
    else
      var id := registry.legacyRuntime(constants[name], data);
      Found(if |memo.legacy| < MAXIMUM_CACHE_ENTRIES then memo.(legacy := memo.legacy[key := id]) else memo, id)
  }

  ghost predicate KeyMeans(registry: Registry, constants: seq<Bytes>, key: nat, id: RuntimeId) {
    StateMeaning(registry, constants, key / 0x1_0000, key % 0x1_0000) == Some(id)
  }

  /** Every remembered state is what a lookup would find now. */
  ghost predicate Truthful(registry: Registry, constants: seq<Bytes>, memo: Memo) {
    && (forall slot | slot in memo.direct :: KeyMeans(registry, constants, memo.direct[slot].0, memo.direct[slot].1))
    && (forall key | key in memo.states :: KeyMeans(registry, constants, key, memo.states[key]))
  }

  ghost predicate LegacyTruthful(registry: Registry, constants: seq<Bytes>, memo: Memo) {
    && |memo.legacy| <= MAXIMUM_CACHE_ENTRIES
    && (forall key | key in memo.legacy ::
          key / 0x1_0000 < |constants|
          && memo.legacy[key] == registry.legacyRuntime(constants[key / 0x1_0000], key % 0x1_0000))
  }

  /** A truthful memo changes nothing, and stays truthful. */
  lemma StateOfIsMeaning(registry: Registry, constants: seq<Bytes>, memo: Memo, name: nat, states: nat)
    requires Truthful(registry, constants, memo) && name < 0x1_0000 && states < 0x1_0000
    ensures var found := StateOf(registry, constants, memo, name, states);
      match StateMeaning(registry, constants, name, states)
      case None => found == None
      case Some(id) => found.Some? && found.value.id == id && Truthful(registry, constants, found.value.memo)
  {
    var key := PairKey(name, states);
    assert key / 0x1_0000 == name && key % 0x1_0000 == states;
  }

  /** Legacy lookups remember only defined names, and names are never redefined,
      so this memo is exact over whole runs. */
  lemma LegacyOfIsMeaning(registry: Registry, constants: seq<Bytes>, memo: Memo, name: nat, data: nat)
    requires LegacyTruthful(registry, constants, memo) && name < 0x1_0000 && data < 0x1_0000
    ensures var found := LegacyOf(registry, constants, memo, name, data);
      && found.id == LegacyMeaning(registry, constants, name, data)
      && LegacyTruthful(registry, constants, found.memo)
  {
    var key := PairKey(name, data);
    assert key / 0x1_0000 == name && key % 0x1_0000 == data;
  }

  lemma LegacySurvivesDefinition(registry: Registry, constants: seq<Bytes>, memo: Memo, text: Bytes)
    requires LegacyTruthful(registry, constants, memo)
    ensures LegacyTruthful(registry, constants + [text], memo)
  {
    assert forall k | 0 <= k < |constants| :: (constants + [text])[k] == constants[k];
  }

  /** A pair naming a constant that does not exist yet means air. */
  lemma UndefinedMeansAir(registry: Registry, constants: seq<Bytes>, name: nat, states: nat)
    requires |constants| <= name || |constants| <= states
    ensures StateMeaning(registry, constants, name, states) == Some(registry.air)
  {
  }

  ghost predicate Remembers(memo: Memo, key: nat) {
    key in memo.states || exists slot :: slot in memo.direct && memo.direct[slot].0 == key
  }

  /** What `Truthful` says of one remembered pair, wherever it is kept. */
  ghost predicate Recalls(memo: Memo, key: nat, id: RuntimeId) {
    || (key in memo.states && memo.states[key] == id)
    || (exists slot :: slot in memo.direct && memo.direct[slot] == (key, id))
  }

  lemma RememberedIsRecalled(memo: Memo, key: nat)
    requires Remembers(memo, key)
    ensures exists id :: Recalls(memo, key, id)
  {
    if key in memo.states {
      assert Recalls(memo, key, memo.states[key]);
    } else {
      var slot :| slot in memo.direct && memo.direct[slot].0 == key;
      assert Recalls(memo, key, memo.direct[slot].1);
    }
  }

  lemma TruthfulMeansRecalled(registry: Registry, constants: seq<Bytes>, memo: Memo)
    ensures Truthful(registry, constants, memo)
      <==> forall key: nat, id: RuntimeId | Recalls(memo, key, id) :: KeyMeans(registry, constants, key, id)
  {
    if forall key: nat, id: RuntimeId | Recalls(memo, key, id) :: KeyMeans(registry, constants, key, id) {
      forall slot | slot in memo.direct
        ensures KeyMeans(registry, constants, memo.direct[slot].0, memo.direct[slot].1)
      {
        assert Recalls(memo, memo.direct[slot].0, memo.direct[slot].1);
      }
      forall key | key in memo.states
        ensures KeyMeans(registry, constants, key, memo.states[key])
      {
        assert Recalls(memo, key, memo.states[key]);
      }
    }
  }

  /** Does the new constant complete a pair? */
  predicate Completes(constants: seq<Bytes>, key: nat) {
    var name, states := key / 0x1_0000, key % 0x1_0000;
    (name == |constants| && states <= name) || (states == |constants| && name <= states)
  }

  /** The registry's answer for a pair the new constant completes. */
  function Completed(registry: Registry, more: seq<Bytes>, key: nat): Option<RuntimeId>
    requires key / 0x1_0000 < |more| && key % 0x1_0000 < |more|
  {
    registry.stateRuntime(more[key / 0x1_0000], more[key % 0x1_0000])
  }

  /** A defined pair keeps its meaning, and one still undefined stays air. */
  lemma MeaningGrows(registry: Registry, constants: seq<Bytes>, text: Bytes, key: nat)
    ensures !Completes(constants, key) ==>
      StateMeaning(registry, constants + [text], key / 0x1_0000, key % 0x1_0000)
        == StateMeaning(registry, constants, key / 0x1_0000, key % 0x1_0000)
    ensures Completes(constants, key) ==>
      && StateMeaning(registry, constants, key / 0x1_0000, key % 0x1_0000) == Some(registry.air)
      && StateMeaning(registry, constants + [text], key / 0x1_0000, key % 0x1_0000)
        == Completed(registry, constants + [text], key)
  {
    assert forall k | 0 <= k < |constants| :: (constants + [text])[k] == constants[k];
  }

  /** State lookups also remember that a constant was missing, as air. So
      defining a constant keeps the memo truthful exactly when the registry
      answers air for every remembered pair the constant completes. */
  lemma StatesSurviveDefinitionExactlyWhen(registry: Registry, constants: seq<Bytes>, memo: Memo, text: Bytes)
    requires Truthful(registry, constants, memo)
    ensures Truthful(registry, constants + [text], memo)
      <==> forall key: nat | Remembers(memo, key) && Completes(constants, key) ::
             Completed(registry, constants + [text], key) == Some(registry.air)
  {
    var more := constants + [text];
    TruthfulMeansRecalled(registry, constants, memo);
    TruthfulMeansRecalled(registry, more, memo);
    forall key: nat
      ensures !Completes(constants, key) ==>
        forall id: RuntimeId :: KeyMeans(registry, more, key, id) <==> KeyMeans(registry, constants, key, id)
      ensures Completes(constants, key) ==>
        forall id: RuntimeId :: KeyMeans(registry, constants, key, id) ==> id == registry.air
      ensures Completes(constants, key) ==>
        (KeyMeans(registry, more, key, registry.air) <==> Completed(registry, more, key) == Some(registry.air))
    {
      MeaningGrows(registry, constants, text, key);
    }
    hide StateMeaning, Completed, Completes, KeyMeans, Truthful;
    if Truthful(registry, more, memo) {
      forall key: nat | Remembers(memo, key) && Completes(constants, key)
        ensures Completed(registry, more, key) == Some(registry.air)
      {
        RememberedIsRecalled(memo, key);
      }
    }
    assert forall key: nat, id: RuntimeId | Recalls(memo, key, id) :: Remembers(memo, key);
  }

  /** How the two tables belong together: an entry sits in its own slot, agrees
      with the bounded table, and is missing from that only if it was full. A
      pair that is still undefined is remembered as air. */
  ghost predicate Coherent(registry: Registry, constants: seq<Bytes>, memo: Memo) {
    && (forall slot | slot in memo.direct :: DirectAgrees(memo, slot))
    && (forall key: nat, id: RuntimeId | Recalls(memo, key, id) ::
          key / 0x1_0000 >= |constants| || key % 0x1_0000 >= |constants| ==> id == registry.air)
  }

  ghost predicate DirectAgrees(memo: Memo, slot: nat)
    requires slot in memo.direct
  {
    var (key, id) := memo.direct[slot];
    && DirectSlot(key) == slot
    && (if key in memo.states then memo.states[key] == id else |memo.states| >= MAXIMUM_CACHE_ENTRIES)
  }

  /** A lookup keeps the tables coherent and forgets nothing in the bounded one,
      which it answers from; while that has room it remembers the pair. */
  lemma LookupRemembers(registry: Registry, constants: seq<Bytes>, memo: Memo, name: nat, states: nat)
    requires Coherent(registry, constants, memo) && name < 0x1_0000 && states < 0x1_0000
    requires StateOf(registry, constants, memo, name, states).Some?
    ensures var found := StateOf(registry, constants, memo, name, states).value;
      && Coherent(registry, constants, found.memo)
      && (forall key | key in memo.states :: key in found.memo.states && found.memo.states[key] == memo.states[key])
      && (PairKey(name, states) in memo.states ==> found.id == memo.states[PairKey(name, states)])
      && (|memo.states| < MAXIMUM_CACHE_ENTRIES ==>
            PairKey(name, states) in found.memo.states && found.memo.states[PairKey(name, states)] == found.id)
      && (name >= |constants| || states >= |constants| ==> found.id == registry.air)
  {
    var key := PairKey(name, states);
    var slot := DirectSlot(key);
    assert key / 0x1_0000 == name && key % 0x1_0000 == states;
    var found := StateOf(registry, constants, memo, name, states).value;
    hide DirectSlot, StateMeaning;
    if name >= |constants| || states >= |constants| {
      UndefinedMeansAir(registry, constants, name, states);
    }
    if slot in memo.direct && memo.direct[slot].0 == key {
      assert DirectAgrees(memo, slot);
      assert Recalls(memo, key, memo.direct[slot].1);
    } else {
      assert key in memo.states ==> Recalls(memo, key, memo.states[key]);
      forall k | k in found.memo.direct
        ensures DirectAgrees(found.memo, k)
      {
        assert k != slot ==> DirectAgrees(memo, k);
      }
      forall other: nat, id: RuntimeId | Recalls(found.memo, other, id)
        ensures (other == key && id == found.id) || Recalls(memo, other, id)
      {
      }
    }
  }

  lemma CoherentSurvivesDefinition(registry: Registry, constants: seq<Bytes>, memo: Memo, text: Bytes)
    requires Coherent(registry, constants, memo)
    ensures Coherent(registry, constants + [text], memo)
  {
  }

  /** A concrete case: used before its state constant exists, a pair is still
      air once it does, whatever the registry says. */
  lemma EarlyUseIsRemembered(registry: Registry, name: Bytes, states: Bytes)
    ensures var early := StateOf(registry, [name], Memo(map[], map[], map[]), 0, 1);
      && early.Some? && early.value.id == registry.air
      && var late := StateOf(registry, [name, states], early.value.memo, 0, 1);
        late.Some? && late.value.id == registry.air
    ensures StateMeaning(registry, [name, states], 0, 1) == registry.stateRuntime(name, states)
  {
  }
}
