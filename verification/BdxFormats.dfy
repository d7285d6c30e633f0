/** How every BDX command is laid out in a file, field after field, and that the
    reader takes it apart again. `write_bdx` emits only a few of these. */
module BdxFormats {
  import opened Options
  import opened Coordinates
  import opened BdxBytes
  import opened BdxCommands
  import opened RuntimeMemos
  import opened BdxMachine
  import opened BdxEncodings

  predicate IsCString(text: Bytes) {
    0 !in text && |text| <= MAXIMUM_STRING_BYTES
  }

  predicate Is16(value: int) {
    0 <= value < 0x1_0000
  }

  predicate Is32(value: int) {
    0 <= value < 0x1_0000_0000
  }

  predicate IsBlockData(block: CommandBlock) {
    && Is32(block.mode) && IsInt32(block.tickDelay) && |block.texts| == 3 && |block.flags| == 4
    && IsCString(block.texts[0]) && IsCString(block.texts[1]) && IsCString(block.texts[2])
  }

  function FlagByte(flag: bool): Byte {
    if flag then 1 else 0
  }

  /** The data of a command block: mode, command, custom name, last output, tick delay,
      and the flags execute-on-first-tick, track-output, conditional, needs-redstone. */
  function BlockData(block: CommandBlock): Bytes
    requires IsBlockData(block)
  {
    Big32(block.mode) + (block.texts[0] + [0] + (block.texts[1] + [0] + (block.texts[2] + [0] + (Big32(block.tickDelay)
      + [FlagByte(block.flags[0]), FlagByte(block.flags[1]), FlagByte(block.flags[2]), FlagByte(block.flags[3])]))))
  }

  predicate AreItems(items: seq<Item>) {
    forall i | 0 <= i < |items| :: IsCString(items[i].name) && -0x8000 <= items[i].damage <= 0x7fff
  }

  /** Slots of a chest: name, count, damage, slot number. */
  function Slots(items: seq<Item>): Bytes
    requires AreItems(items)
  {
    if items == [] then []
    else
      var first := items[0];
      first.name + [0] + ([first.count] + Big16(first.damage) + [first.slot] + Slots(items[1..]))
  }

  predicate IsChest(items: seq<Item>) {
    |items| <= 0xff && AreItems(items)
  }

  function Chest(items: seq<Item>): Bytes
    requires IsChest(items)
  {
    [|items|] + Slots(items)
  }

  /** A compound that skipping takes to be exactly this long. */
  predicate IsCompound(source: Bytes) {
    SkipCompound(source, 0) == Some(|source|)
  }

  /** What follows the code, if the code can express the move. */
  function MoveFields(op: Byte, axis: Axis, delta: int): Option<Bytes> {
    match op
    case 8 => if axis == Z && delta == 1 then Some([]) else None
    case 14 => if axis == X && delta == 1 then Some([]) else None
    case 15 => if axis == X && delta == -1 then Some([]) else None
    case 16 => if axis == Y && delta == 1 then Some([]) else None
    case 17 => if axis == Y && delta == -1 then Some([]) else None
    case 18 => if axis == Z && delta == 1 then Some([]) else None
    case 19 => if axis == Z && delta == -1 then Some([]) else None
    case 28 => if axis == X && -0x80 <= delta <= 0x7f then Some([delta % 0x100]) else None
    case 29 => if axis == Y && -0x80 <= delta <= 0x7f then Some([delta % 0x100]) else None
    case 30 => if axis == Z && -0x80 <= delta <= 0x7f then Some([delta % 0x100]) else None
    case 20 => if axis == X && -0x8000 <= delta <= 0x7fff then Some(Big16(delta)) else None
    case 22 => if axis == Y && -0x8000 <= delta <= 0x7fff then Some(Big16(delta)) else None
    case 24 => if axis == Z && -0x8000 <= delta <= 0x7fff then Some(Big16(delta)) else None
    case 6 => if axis == Z && -0x8000 <= delta <= 0x7fff then Some(Big16(delta)) else None
    case 21 => if axis == X && IsInt32(delta) then Some(Big32(delta)) else None
    case 23 => if axis == Y && IsInt32(delta) then Some(Big32(delta)) else None
    case 25 => if axis == Z && IsInt32(delta) then Some(Big32(delta)) else None
    case 12 => if axis == Z && IsInt32(delta) then Some(Big32(delta)) else None
    case _ => None
  }

  /** A legacy placement: constant id, data value, entity. */
  function LegacyFields(op: Byte, name: nat, data: nat, entity: Option<Entity>): Option<Bytes> {
    if !Is16(name) || !Is16(data) then None
    else
      match entity
      case None => if op == 7 then Some(Big16(name) + Big16(data)) else None
      case Some(CommandEntity(block)) =>
        if op == 27 && IsBlockData(block) then Some(Big16(name) + Big16(data) + BlockData(block)) else None
      case Some(ChestEntity(items)) =>
        if op == 40 && IsChest(items) then Some(Big16(name) + Big16(data) + Chest(items)) else None
      case Some(CompoundEntity(_)) => None
  }

  /** A placement from the selected pool: a short or a long index, entity. */
  function IndexedFields(op: Byte, index: nat, entity: Option<Entity>): Option<Bytes> {
    match entity
    case None => if op == 32 && Is16(index) then Some(Big16(index)) else None
    case Some(CommandEntity(block)) =>
      if !IsBlockData(block) then None
      else if op == 34 && Is16(index) then Some(Big16(index) + BlockData(block))
      else if op == 35 && Is32(index) then Some(Big32(index) + BlockData(block))
      else None
    case Some(ChestEntity(items)) =>
      if !IsChest(items) then None
      else if op == 37 && Is16(index) then Some(Big16(index) + Chest(items))
      else if op == 38 && Is32(index) then Some(Big32(index) + Chest(items))
      else None
    case Some(CompoundEntity(_)) => None
  }

  /** What follows code `op` of a command; `filler` is what the reader ignores. */
  function Fields(op: Byte, command: Command, filler: Bytes): Option<Bytes> {
    match command
    case Define(text) => if op == 1 && IsCString(text) then Some(text + [0]) else None
    case PlaceState(name, states, entity) =>
      if !Is16(name) || !Is16(states) then None
      else if op == 5 && entity == None then Some(Big16(name) + Big16(states))
      else if op == 41 && entity.Some? && entity.value.CompoundEntity? && IsCompound(entity.value.source)
              && |filler| == 2
      then Some(Big16(name) + Big16(states) + filler + entity.value.source)
      else None
    case PlaceLegacy(name, data, entity) => LegacyFields(op, name, data, entity)
    case PlaceText(name, text) =>
      if op == 13 && Is16(name) && IsCString(text) then Some(Big16(name) + (text + [0])) else None
    case PlaceIndexed(index, entity) => IndexedFields(op, index, entity)
    case PlaceCommandBlock(data, block) =>
      if op == 36 && Is16(data) && IsBlockData(block) then Some(Big16(data) + BlockData(block)) else None
    case AttachEntity(entity) =>
      if op == 26 && entity.CommandEntity? && IsBlockData(entity.data) then Some(BlockData(entity.data)) else None
    case Move(axis, delta) => MoveFields(op, axis, delta)
    case Rest =>
      if op == 9 then Some([])
      else if op == 33 && |filler| == 4 then Some(filler)
      else if op == 39 && Is32(|filler|) then Some(Big32(|filler|) + filler)
      else None
    case SelectPool(id) => if op == 31 then Some([id]) else None
    case Terminate => if op == 88 then Some([]) else None
  }

  // Field by field.

  lemma CodeFirst(bytes: Bytes, at: nat, op: Byte, fields: Bytes)
    requires Contains(bytes, at, [op] + fields)
    ensures at < |bytes| && bytes[at] == op && Contains(bytes, at + 1, fields)
  {
    ContainsSplit(bytes, at, [op], fields);
    assert bytes[at..at + 1][0] == bytes[at];
  }

  lemma Split16(bytes: Bytes, at: nat, value: int, rest: Bytes)
    requires Contains(bytes, at, Big16(value) + rest)
    ensures at + 2 <= |bytes| && Unsigned16(bytes, at) == value % 0x1_0000 && Contains(bytes, at + 2, rest)
    ensures -0x8000 <= value <= 0x7fff ==> Signed16(bytes, at) == value
  {
    ContainsSplit(bytes, at, Big16(value), rest);
    Big16RoundTrip(bytes, at, value);
  }

  lemma Split32(bytes: Bytes, at: nat, value: int, rest: Bytes)
    requires Contains(bytes, at, Big32(value) + rest)
    ensures at + 4 <= |bytes| && Unsigned32(bytes, at) == value % 0x1_0000_0000 && Contains(bytes, at + 4, rest)
    ensures IsInt32(value) ==> Signed32(bytes, at) == value
  {
    var unsigned := value % 0x1_0000_0000;
    ContainsSplit(bytes, at, Big32(value), rest);
    ContainsSplit(bytes, at, Big16(unsigned / 0x1_0000), Big16(unsigned % 0x1_0000));
    Big16RoundTrip(bytes, at, unsigned / 0x1_0000);
    Big16RoundTrip(bytes, at + 2, unsigned % 0x1_0000);
    hide Big16, Contains;
  }

  lemma SplitText(bytes: Bytes, at: nat, text: Bytes, rest: Bytes)
    requires IsCString(text) && Contains(bytes, at, text + [0] + rest)
    ensures ReadCString(bytes, at, MAXIMUM_STRING_BYTES) == Some(Field(text, at + |text| + 1))
    ensures Contains(bytes, at + |text| + 1, rest)
  {
    ContainsSplit(bytes, at, text + [0], rest);
    CStringRoundTrip(bytes, at, text, MAXIMUM_STRING_BYTES);
  }

  lemma NoMore(bytes: Bytes, at: nat, part: Bytes)
    requires Contains(bytes, at, part)
    ensures Contains(bytes, at, part + [])
  {
    assert part + [] == part;
  }

  lemma BlockDataReads(bytes: Bytes, at: nat, block: CommandBlock)
    requires IsBlockData(block) && Contains(bytes, at, BlockData(block))
    ensures ReadCommandBlock(bytes, at) == Some(Field(block, at + |BlockData(block)|))
  {
    hide Contains, ReadCString, Unsigned32, Signed32, Big32, IsCString, FlagByte;
    var flags := [FlagByte(block.flags[0]), FlagByte(block.flags[1]), FlagByte(block.flags[2]),
      FlagByte(block.flags[3])];
    var delay := Big32(block.tickDelay) + flags;
    var third := block.texts[2] + [0] + delay;
    var second := block.texts[1] + [0] + third;
    var first := block.texts[0] + [0] + second;
    Split32(bytes, at, block.mode, first);
    SplitText(bytes, at + 4, block.texts[0], second);
    var i := at + 4 + |block.texts[0]| + 1;
    SplitText(bytes, i, block.texts[1], third);
    var j := i + |block.texts[1]| + 1;
    SplitText(bytes, j, block.texts[2], delay);
    var k := j + |block.texts[2]| + 1;
    Split32(bytes, k, block.tickDelay, flags);
    FlagsRead(bytes, k + 4, block.flags);
    ThreeTexts(block.texts);
  }

  lemma ThreeTexts(texts: seq<Bytes>)
    requires |texts| == 3
    ensures texts == [texts[0], texts[1], texts[2]]
  {
  }

  lemma FlagsRead(bytes: Bytes, at: nat, flags: seq<bool>)
    requires |flags| == 4
    requires Contains(bytes, at, [FlagByte(flags[0]), FlagByte(flags[1]), FlagByte(flags[2]), FlagByte(flags[3])])
    ensures at + 4 <= |bytes|
    ensures [bytes[at] != 0, bytes[at + 1] != 0, bytes[at + 2] != 0, bytes[at + 3] != 0] == flags
  {
    var part := bytes[at..at + 4];
    assert bytes[at] == part[0] && bytes[at + 1] == part[1] && bytes[at + 2] == part[2] && bytes[at + 3] == part[3];
  }

  lemma {:induction false} SlotsRead(bytes: Bytes, at: nat, items: seq<Item>)
    requires AreItems(items) && Contains(bytes, at, Slots(items))
    ensures at <= |bytes| && ReadSlots(bytes, at, |items|) == Some(Field(items, at + |Slots(items)|))
    decreases |items|
  {
    hide Contains, ReadSlots, Slots, IsCString;
    Inside(bytes, at, Slots(items));
    NoSlots(bytes, at);
    if items != [] {
      var first, rest := items[0], items[1..];
      SlotsStart(items);
      var behind := [first.count] + Big16(first.damage) + [first.slot] + Slots(rest);
      SplitText(bytes, at, first.name, behind);
      var tail := at + |first.name| + 1;
      SlotTail(bytes, tail, first, Slots(rest));
      SlotsRead(bytes, tail + 4, rest);
      OneSlotRead(bytes, at, first, rest, tail + 4 + |Slots(rest)|);
      assert items == [first] + rest;
    }
  }

  lemma NoSlots(bytes: Bytes, at: nat)
    requires at <= |bytes|
    ensures Slots([]) == [] && ReadSlots(bytes, at, 0) == Some(Field([], at))
  {
  }

  lemma SlotsStart(items: seq<Item>)
    requires AreItems(items) && items != []
    ensures AreItems(items[1..])
    ensures Slots(items) == items[0].name + [0]
      + ([items[0].count] + Big16(items[0].damage) + [items[0].slot] + Slots(items[1..]))
  {
  }

  lemma OneSlotRead(bytes: Bytes, at: nat, first: Item, rest: seq<Item>, end: nat)
    requires at <= |bytes|
    requires ReadCString(bytes, at, MAXIMUM_STRING_BYTES) == Some(Field(first.name, at + |first.name| + 1))
    requires var tail := at + |first.name| + 1;
      && tail + 4 <= |bytes| && bytes[tail] == first.count && Signed16(bytes, tail + 1) == first.damage
      && bytes[tail + 3] == first.slot && ReadSlots(bytes, tail + 4, |rest|) == Some(Field(rest, end))
    ensures ReadSlots(bytes, at, |rest| + 1) == Some(Field([first] + rest, end))
  {
    hide ReadCString, Signed16;
  }

  lemma SlotTail(bytes: Bytes, at: nat, item: Item, rest: Bytes)
    requires -0x8000 <= item.damage <= 0x7fff
    requires Contains(bytes, at, [item.count] + Big16(item.damage) + [item.slot] + rest)
    ensures at + 4 <= |bytes| && bytes[at] == item.count && Signed16(bytes, at + 1) == item.damage
    ensures bytes[at + 3] == item.slot && Contains(bytes, at + 4, rest)
  {
    hide Contains, Big16, Signed16;
    assert [item.count] + Big16(item.damage) + [item.slot] + rest
      == [item.count] + (Big16(item.damage) + ([item.slot] + rest));
    CodeFirst(bytes, at, item.count, Big16(item.damage) + ([item.slot] + rest));
    Split16(bytes, at + 1, item.damage, [item.slot] + rest);
    CodeFirst(bytes, at + 3, item.slot, rest);
  }

  lemma ChestReads(bytes: Bytes, at: nat, items: seq<Item>)
    requires IsChest(items) && Contains(bytes, at, Chest(items))
    ensures ReadChest(bytes, at) == Some(Field(items, at + |Chest(items)|))
  {
    CodeFirst(bytes, at, |items|, Slots(items));
    SlotsRead(bytes, at + 1, items);
    hide Contains, Slots, ReadSlots;
  }

  // Skipping reads nothing but what it skips.

  lemma SameByte(bytes: Bytes, at: nat, source: Bytes, i: nat)
    requires Contains(bytes, at, source) && i < |source|
    ensures at + i < |bytes| && bytes[at + i] == source[i]
  {
    assert bytes[at..at + |source|][i] == bytes[at + i];
  }

  lemma SameWords(bytes: Bytes, at: nat, source: Bytes, i: nat)
    requires Contains(bytes, at, source)
    ensures i + 2 <= |source| ==> at + i + 2 <= |bytes| && Little16(bytes, at + i) == Little16(source, i)
    ensures i + 4 <= |source| ==> at + i + 4 <= |bytes| && Little32(bytes, at + i) == Little32(source, i)
  {
    if i + 2 <= |source| {
      SameByte(bytes, at, source, i);
      SameByte(bytes, at, source, i + 1);
    }
    if i + 4 <= |source| {
      SameByte(bytes, at, source, i + 2);
      SameByte(bytes, at, source, i + 3);
    }
  }

  lemma {:induction false} PayloadIsLocal(bytes: Bytes, at: nat, source: Bytes, i: nat, tag: Byte, depth: nat)
    requires Contains(bytes, at, source) && SkipPayload(source, i, tag, depth).Some?
    ensures SkipPayload(bytes, at + i, tag, depth) == Some(at + SkipPayload(source, i, tag, depth).value)
    decreases |source| - i, 1
  {
    hide Contains, Little16, Little32;
    assert at + |source| <= |bytes| by {
      Inside(bytes, at, source);
    }
    SameWords(bytes, at, source, i);
    if tag == 9 {
      SameByte(bytes, at, source, i);
      SameWords(bytes, at, source, i + 1);
      ElementsAreLocal(bytes, at, source, i + 5, source[i], Little32(source, i + 1), depth + 1);
    } else if tag == 10 {
      FieldsAreLocal(bytes, at, source, i, depth);
    }
  }

  lemma Inside(bytes: Bytes, at: nat, source: Bytes)
    requires Contains(bytes, at, source)
    ensures at + |source| <= |bytes|
  {
  }

  lemma {:induction false} ElementsAreLocal(bytes: Bytes, at: nat, source: Bytes, i: nat, tag: Byte, count: nat,
      depth: nat)
    requires i <= |source| && Contains(bytes, at, source) && SkipElements(source, i, tag, count, depth).Some?
    ensures at + i <= |bytes|
    ensures SkipElements(bytes, at + i, tag, count, depth)
      == Some(at + SkipElements(source, i, tag, count, depth).value)
    decreases |source| - i, 2
  {
    hide Contains, SkipPayload;
    Inside(bytes, at, source);
    if count > 0 {
      PayloadIsLocal(bytes, at, source, i, tag, depth);
      ElementsAreLocal(bytes, at, source, SkipPayload(source, i, tag, depth).value, tag, count - 1, depth);
    }
  }

  lemma {:induction false} FieldsAreLocal(bytes: Bytes, at: nat, source: Bytes, i: nat, depth: nat)
    requires Contains(bytes, at, source) && SkipFields(source, i, depth).Some?
    ensures SkipFields(bytes, at + i, depth) == Some(at + SkipFields(source, i, depth).value)
    decreases |source| - i, 0
  {
    hide Contains, SkipPayload, Little16;
    Inside(bytes, at, source);
    SameByte(bytes, at, source, i);
    if source[i] != 0 {
      SameWords(bytes, at, source, i + 1);
      var key := i + 3 + Little16(source, i + 1);
      PayloadIsLocal(bytes, at, source, key, source[i], depth + 1);
      FieldsAreLocal(bytes, at, source, SkipPayload(source, key, source[i], depth + 1).value, depth);
    }
  }

  lemma CompoundReads(bytes: Bytes, at: nat, source: Bytes)
    requires IsCompound(source) && Contains(bytes, at, source)
    ensures SkipCompound(bytes, at) == Some(at + |source|) && bytes[at..at + |source|] == source
  {
    hide SkipPayload, Little16;
    SameByte(bytes, at, source, 0);
    SameWords(bytes, at, source, 1);
    PayloadIsLocal(bytes, at, source, 3 + Little16(source, 1), 10, 0);
  }

  // Command by command.

  lemma MoveReads(bytes: Bytes, at: nat, op: Byte, axis: Axis, delta: int)
    requires MoveFields(op, axis, delta).Some? && Contains(bytes, at, [op] + MoveFields(op, axis, delta).value)
    ensures Decode(bytes, at) == Some(Field(Move(axis, delta), at + 1 + |MoveFields(op, axis, delta).value|))
  {
    var fields := MoveFields(op, axis, delta).value;
    CodeFirst(bytes, at, op, fields);
    NoMore(bytes, at + 1, fields);
    hide Contains, Big16, Big32, Unsigned16, Unsigned32, Signed16, Signed32;
    if op in {28, 29, 30} {
      CodeFirst(bytes, at + 1, delta % 0x100, []) by {
        assert fields + [] == [delta % 0x100] + [];
      }
      Byte8RoundTrip(delta);
    } else if op in {6, 20, 22, 24} {
      Split16(bytes, at + 1, delta, []);
    } else if op in {12, 21, 23, 25} {
      Split32(bytes, at + 1, delta, []);
    }
  }

  lemma LegacyReads(bytes: Bytes, at: nat, op: Byte, name: nat, data: nat, entity: Option<Entity>)
    requires LegacyFields(op, name, data, entity).Some?
    requires Contains(bytes, at, [op] + LegacyFields(op, name, data, entity).value)
    ensures Decode(bytes, at)
      == Some(Field(PlaceLegacy(name, data, entity), at + 1 + |LegacyFields(op, name, data, entity).value|))
  {
    hide Contains, Big16, Unsigned16, BlockData, Chest, ReadCommandBlock, ReadChest, IsBlockData, IsChest, DecodeFixed,
      ReadCString, SkipCompound;
    var fields := LegacyFields(op, name, data, entity).value;
    CodeFirst(bytes, at, op, fields);
    var rest := match entity case None => [] case Some(CommandEntity(block)) => BlockData(block)
                             case Some(ChestEntity(items)) => Chest(items);
    assert fields == Big16(name) + (Big16(data) + rest);
    Split16(bytes, at + 1, name, Big16(data) + rest);
    Split16(bytes, at + 3, data, rest);
    match entity {
      case None => ShortReads(bytes, at);
      case Some(CommandEntity(block)) => BlockDataReads(bytes, at + 5, block);
      case Some(ChestEntity(items)) => ChestReads(bytes, at + 5, items);
    }
  }

  /** The fixed-length placements, in terms of their words. */
  lemma ShortReads(bytes: Bytes, at: nat)
    requires at < |bytes|
    ensures bytes[at] == 7 && at + 5 <= |bytes| ==>
      Decode(bytes, at)
        == Some(Field(PlaceLegacy(Unsigned16(bytes, at + 1), Unsigned16(bytes, at + 3), None), at + 5))
    ensures bytes[at] == 32 && at + 3 <= |bytes| ==>
      Decode(bytes, at) == Some(Field(PlaceIndexed(Unsigned16(bytes, at + 1), None), at + 3))
  {
    hide Unsigned16;
  }

  lemma IndexedReads(bytes: Bytes, at: nat, op: Byte, index: nat, entity: Option<Entity>)
    requires IndexedFields(op, index, entity).Some?
    requires Contains(bytes, at, [op] + IndexedFields(op, index, entity).value)
    ensures Decode(bytes, at)
      == Some(Field(PlaceIndexed(index, entity), at + 1 + |IndexedFields(op, index, entity).value|))
  {
    hide Contains, Big16, Big32, Unsigned16, Unsigned32, BlockData, Chest, ReadCommandBlock, ReadChest, IsBlockData,
      IsChest, DecodeFixed, ReadCString, SkipCompound;
    var fields := IndexedFields(op, index, entity).value;
    CodeFirst(bytes, at, op, fields);
    var rest := match entity case None => [] case Some(CommandEntity(block)) => BlockData(block)
                             case Some(ChestEntity(items)) => Chest(items);
    var body: nat := if op == 35 || op == 38 then at + 5 else at + 3;
    if op == 35 || op == 38 {
      Split32(bytes, at + 1, index, rest);
    } else {
      assert fields == Big16(index) + rest;
      Split16(bytes, at + 1, index, rest);
    }
    match entity {
      case None => ShortReads(bytes, at);
      case Some(CommandEntity(block)) => BlockDataReads(bytes, body, block);
      case Some(ChestEntity(items)) => ChestReads(bytes, body, items);
    }
  }

  lemma StateReads(bytes: Bytes, at: nat, op: Byte, command: Command, filler: Bytes)
    requires command.PlaceState? && Fields(op, command, filler).Some?
    requires Contains(bytes, at, [op] + Fields(op, command, filler).value)
    ensures Decode(bytes, at) == Some(Field(command, at + 1 + |Fields(op, command, filler).value|))
  {
    hide Contains, Big16, Unsigned16, SkipCompound, IsCompound, ReadCString, ReadChest, ReadCommandBlock;
    var fields := Fields(op, command, filler).value;
    CodeFirst(bytes, at, op, fields);
    var rest := if op == 5 then [] else filler + command.entity.value.source;
    assert fields == Big16(command.name) + (Big16(command.states) + rest);
    Split16(bytes, at + 1, command.name, Big16(command.states) + rest);
    Split16(bytes, at + 3, command.states, rest);
    if op == 41 {
      var source := command.entity.value.source;
      ContainsSplit(bytes, at + 5, filler, source);
      Inside(bytes, at + 7, source);
      CompoundReads(bytes, at + 7, source);
    }
  }

  lemma OtherReads(bytes: Bytes, at: nat, op: Byte, command: Command, filler: Bytes)
    requires command.PlaceText? || command.PlaceCommandBlock? || command.AttachEntity? || command.Define?
    requires Fields(op, command, filler).Some? && Contains(bytes, at, [op] + Fields(op, command, filler).value)
    ensures Decode(bytes, at) == Some(Field(command, at + 1 + |Fields(op, command, filler).value|))
  {
    hide Contains, Big16, Unsigned16, BlockData, ReadCommandBlock, ReadCString, IsBlockData, IsCString, DecodeFixed,
      SkipCompound, ReadChest;
    var fields := Fields(op, command, filler).value;
    CodeFirst(bytes, at, op, fields);
    match command {
      case Define(text) =>
        NoMore(bytes, at + 1, text + [0]);
        SplitText(bytes, at + 1, text, []);
      case PlaceText(name, text) =>
        Split16(bytes, at + 1, name, text + [0]);
        NoMore(bytes, at + 3, text + [0]);
        SplitText(bytes, at + 3, text, []);
      case PlaceCommandBlock(data, block) =>
        Split16(bytes, at + 1, data, BlockData(block));
        BlockDataReads(bytes, at + 3, block);
      case AttachEntity(entity) => BlockDataReads(bytes, at + 1, entity.data);
    }
  }

  lemma RestReads(bytes: Bytes, at: nat, op: Byte, command: Command, filler: Bytes)
    requires command.Rest? || command.SelectPool? || command.Terminate?
    requires Fields(op, command, filler).Some? && Contains(bytes, at, [op] + Fields(op, command, filler).value)
    ensures Decode(bytes, at) == Some(Field(command, at + 1 + |Fields(op, command, filler).value|))
  {
    hide Contains, Big32, Unsigned32, ReadCString, SkipCompound, ReadChest, ReadCommandBlock;
    var fields := Fields(op, command, filler).value;
    CodeFirst(bytes, at, op, fields);
    Inside(bytes, at + 1, fields);
    if command.SelectPool? {
      CodeFirst(bytes, at + 1, command.id, []) by {
        assert [command.id] + [] == fields;
      }
    } else if op == 39 {
      Split32(bytes, at + 1, |filler|, filler);
      Inside(bytes, at + 5, filler);
    }
  }

  /** Whatever its code, a command laid out anywhere in a stream is decoded to itself,
      and reading goes on right behind it. */
  lemma DecodeUndoesLayout(bytes: Bytes, at: nat, op: Byte, command: Command, filler: Bytes)
    requires Fields(op, command, filler).Some? && Contains(bytes, at, [op] + Fields(op, command, filler).value)
    ensures Decode(bytes, at) == Some(Field(command, at + 1 + |Fields(op, command, filler).value|))
  {
    hide Decode, Contains;
    match command {
      case PlaceState(_, _, _) => StateReads(bytes, at, op, command, filler);
      case PlaceLegacy(name, data, entity) => LegacyReads(bytes, at, op, name, data, entity);
      case PlaceIndexed(index, entity) => IndexedReads(bytes, at, op, index, entity);
      case Move(axis, delta) => MoveReads(bytes, at, op, axis, delta);
      case Rest => RestReads(bytes, at, op, command, filler);
      case SelectPool(_) => RestReads(bytes, at, op, command, filler);
      case Terminate => RestReads(bytes, at, op, command, filler);
      case _ => OtherReads(bytes, at, op, command, filler);
    }
  }

  // Whole files.

  datatype Form = Form(op: Byte, command: Command, filler: Bytes)

  ghost predicate AllLaid(forms: seq<Form>) {
    forall i | 0 <= i < |forms| :: Fields(forms[i].op, forms[i].command, forms[i].filler).Some?
  }

  function Laid(forms: seq<Form>): Bytes
    requires forall i | 0 <= i < |forms| :: Fields(forms[i].op, forms[i].command, forms[i].filler).Some?
  {
    if forms == [] then []
    else [forms[0].op] + Fields(forms[0].op, forms[0].command, forms[0].filler).value + Laid(forms[1..])
  }

  function CommandsOf(forms: seq<Form>): seq<Command> {
    seq(|forms|, i requires 0 <= i < |forms| => forms[i].command)
  }

  lemma StepDecoded(registry: Registry, captures: bool, bytes: Bytes, at: nat, s: State, command: Command, next: nat)
    requires at < |bytes| && Decode(bytes, at) == Some(Field(command, next))
    ensures Step(registry, captures, bytes, at, s)
      == match ExecuteOne(registry, captures, s, command)
         case None => None
         case Some(after) => Some(Stepped(after, next))
  {
    hide Decode, Execute, Widen, MotionOf;
  }

  /** Reading laid-out commands up to a terminator executes them. */
  lemma {:induction false} RunLaid(registry: Registry, captures: bool, bytes: Bytes, at: nat, s: State,
      forms: seq<Form>)
    requires forms != [] && AllLaid(forms) && Contains(bytes, at, Laid(forms)) && !s.done
    requires forall i | 0 <= i < |forms| :: forms[i].command.Terminate? <==> i == |forms| - 1
    ensures Run(registry, captures, bytes, at, s) == ExecuteAll(registry, captures, s, CommandsOf(forms))
    decreases |forms|
  {
    hide Run, Fields, ExecuteOne, Contains, ExecuteAll, Decode, Step;
    var form, commands := forms[0], CommandsOf(forms);
    var code := [form.op] + Fields(form.op, form.command, form.filler).value;
    ContainsSplit(bytes, at, code, Laid(forms[1..]));
    DecodeUndoesLayout(bytes, at, form.op, form.command, form.filler);
    CodeFirst(bytes, at, form.op, Fields(form.op, form.command, form.filler).value);
    StepDecoded(registry, captures, bytes, at, s, form.command, at + |code|);
    RunUnfolds(registry, captures, bytes, at, s);
    assert commands[1..] == CommandsOf(forms[1..]);
    ExecuteAllFirst(registry, captures, s, commands);
    var first := ExecuteOne(registry, captures, s, form.command);
    if first.Some? {
      DoneMeansTerminated(registry, captures, s, form.command);
      if |forms| > 1 {
        RunLaid(registry, captures, bytes, at + |code|, first.value, forms[1..]);
      } else {
        assert commands[1..] == [];
        NothingLeft(registry, captures, first.value);
      }
    }
  }

  function TotalBytes(texts: seq<Bytes>): nat {
    if texts == [] then 0 else TotalBytes(texts[..|texts| - 1]) + |texts[|texts| - 1]|
  }

  function Definitions(texts: seq<Bytes>): seq<Form> {
    seq(|texts|, i requires 0 <= i < |texts| => Form(1, Define(texts[i]), []))
  }

  predicate Definable(texts: seq<Bytes>) {
    |texts| <= MAXIMUM_CONSTANTS && TotalBytes(texts) <= MAXIMUM_CONSTANT_BYTES
    && forall i | 0 <= i < |texts| :: IsCString(texts[i])
  }

  function Defined(texts: seq<Bytes>): State {
    START.(constants := texts, constantBytes := TotalBytes(texts))
  }

  lemma {:induction false} DefinitionsRun(registry: Registry, captures: bool, texts: seq<Bytes>)
    requires Definable(texts)
    ensures ExecuteAll(registry, captures, START, CommandsOf(Definitions(texts))) == Some(Defined(texts))
  {
    hide ExecuteAll, ExecuteOne, IsCString;
    if texts == [] {
      assert CommandsOf(Definitions(texts)) == [];
      NothingLeft(registry, captures, START);
    } else {
      var init, last := texts[..|texts| - 1], texts[|texts| - 1];
      DefinitionsRun(registry, captures, init);
      assert CommandsOf(Definitions(texts)) == CommandsOf(Definitions(init)) + [Define(last)];
      OneMore(registry, captures, CommandsOf(Definitions(init)), Define(last));
      DefinesOne(registry, captures, init, last);
      assert init + [last] == texts;
    }
  }

  lemma DefinesOne(registry: Registry, captures: bool, texts: seq<Bytes>, last: Bytes)
    requires |texts| < MAXIMUM_CONSTANTS && TotalBytes(texts) + |last| <= MAXIMUM_CONSTANT_BYTES
    ensures ExecuteOne(registry, captures, Defined(texts), Define(last)) == Some(Defined(texts + [last]))
  {
    hide ExecuteOne, TotalBytes;
    DefinesAny(registry, captures, Defined(texts), last);
    TotalOneMore(texts, last);
  }

  lemma TotalOneMore(texts: seq<Bytes>, last: Bytes)
    ensures TotalBytes(texts + [last]) == TotalBytes(texts) + |last|
  {
    assert (texts + [last])[..|texts|] == texts;
  }

  lemma DefinesAny(registry: Registry, captures: bool, s: State, text: Bytes)
    requires |s.constants| < MAXIMUM_CONSTANTS && s.constantBytes + |text| <= MAXIMUM_CONSTANT_BYTES
    ensures ExecuteOne(registry, captures, s, Define(text))
      == Some(s.(constants := s.constants + [text], constantBytes := s.constantBytes + |text|))
  {
  }

  /** A file: definitions, a pool selection, one command, the end. */
  function FileForms(texts: seq<Bytes>, pool: Byte, op: Byte, command: Command, filler: Bytes): seq<Form> {
    Definitions(texts) + [Form(31, SelectPool(pool), []), Form(op, command, filler), Form(88, Terminate, [])]
  }

  lemma FileFormsLaid(texts: seq<Bytes>, pool: Byte, op: Byte, command: Command, filler: Bytes)
    requires Definable(texts) && Fields(op, command, filler).Some?
    ensures AllLaid(FileForms(texts, pool, op, command, filler))
  {
    hide Fields;
    var forms := FileForms(texts, pool, op, command, filler);
    forall i | 0 <= i < |forms|
      ensures Fields(forms[i].op, forms[i].command, forms[i].filler).Some?
    {
      FixedFields(if i < |texts| then texts[i] else [], pool);
    }
  }

  lemma FixedFields(text: Bytes, pool: Byte)
    ensures IsCString(text) ==> Fields(1, Define(text), []).Some?
    ensures Fields(31, SelectPool(pool), []).Some? && Fields(88, Terminate, []).Some?
  {
  }

  lemma FileRuns(registry: Registry, captures: bool, texts: seq<Bytes>, pool: Byte, op: Byte, command: Command,
      filler: Bytes)
    requires Definable(texts) && Fields(op, command, filler).Some? && !command.Terminate?
    ensures AllLaid(FileForms(texts, pool, op, command, filler))
    ensures Run(registry, captures, Laid(FileForms(texts, pool, op, command, filler)), 0, START)
      == match ExecuteOne(registry, captures, Defined(texts).(pool := pool), command)
         case None => None
         case Some(s) => Some(s.(extent := Widen(s.extent), done := true))
  {
    hide Fields, Run, ExecuteAll, Execute, Laid, Widen;
    FileFormsLaid(texts, pool, op, command, filler);
    var forms := FileForms(texts, pool, op, command, filler);
    var bytes := Laid(forms);
    assert bytes[0..|bytes|] == bytes;
    RunLaid(registry, captures, bytes, 0, START, forms);
    DefinitionsRun(registry, captures, texts);
    var before := CommandsOf(Definitions(texts));
    var selected := before + [SelectPool(pool)];
    var placed := selected + [command];
    assert CommandsOf(forms) == placed + [Terminate];
    OneMore(registry, captures, before, SelectPool(pool));
    OneMore(registry, captures, selected, command);
    OneMore(registry, captures, placed, Terminate);
    SelectsPool(registry, captures, Defined(texts), pool);
    var after := ExecuteOne(registry, captures, Defined(texts).(pool := pool), command);
    if after.Some? {
      Terminates(registry, captures, after.value);
    }
  }

  lemma OneMore(registry: Registry, captures: bool, commands: seq<Command>, last: Command)
    ensures ExecuteAll(registry, captures, START, commands + [last])
      == match ExecuteAll(registry, captures, START, commands)
         case None => None
         case Some(s) => ExecuteOne(registry, captures, s, last)
  {
    hide ExecuteOne;
    assert (commands + [last])[..|commands|] == commands;
  }

  lemma SelectsPool(registry: Registry, captures: bool, s: State, pool: Byte)
    ensures ExecuteOne(registry, captures, s, SelectPool(pool)) == Some(s.(pool := pool))
  {
  }

  lemma Terminates(registry: Registry, captures: bool, s: State)
    ensures ExecuteOne(registry, captures, s, Terminate) == Some(s.(extent := Widen(s.extent), done := true))
  {
    hide Widen;
  }

  /** What a placing command is for, given the constants and the pool. */
  function BlockFor(registry: Registry, texts: seq<Bytes>, pool: Byte, command: Command): Option<RuntimeId>
    requires command.PlaceState? || command.PlaceLegacy? || command.PlaceText? || command.PlaceIndexed?
          || command.PlaceCommandBlock?
  {
    match command
    case PlaceState(name, states, _) =>
      if name < |texts| && states < |texts| then registry.stateRuntime(texts[name], texts[states])
      else Some(registry.air)
    case PlaceLegacy(name, data, _) =>
      Some(if name < |texts| then registry.legacyRuntime(texts[name], data) else registry.air)
    case PlaceText(name, states) =>
      if name < |texts| then registry.stateRuntime(texts[name], states) else Some(registry.air)
    case PlaceIndexed(index, _) =>
      if pool != 255 && index < |registry.pool(pool)| then Some(registry.pool(pool)[index]) else None
    case PlaceCommandBlock(data, block) =>
      if block.mode <= 2 then Some(registry.commandBlock(block.mode, data)) else None
  }

  function EntityFor(command: Command): Option<Entity> {
    match command
    case PlaceState(_, _, entity) => entity
    case PlaceLegacy(_, _, entity) => entity
    case PlaceIndexed(_, entity) => entity
    case PlaceCommandBlock(_, block) => Some(CommandEntity(block))
    case AttachEntity(entity) => Some(entity)
    case _ => None
  }

  predicate EntityOk(registry: Registry, captures: bool, entity: Option<Entity>, id: RuntimeId) {
    && (entity.Some? && entity.value.CompoundEntity? ==> registry.accepts(entity.value.source))
    && (captures && entity.Some? ==> registry.fits(entity.value, id))
  }

  /** A file with one placing command places exactly that command's block at the origin,
      with its entity, or fails; for every code of every placing command, any constants
      and any pool. */
  lemma FilePlaces(registry: Registry, captures: bool, texts: seq<Bytes>, pool: Byte, op: Byte, command: Command,
      filler: Bytes)
    requires Definable(texts) && Fields(op, command, filler).Some?
    requires command.PlaceState? || command.PlaceLegacy? || command.PlaceText? || command.PlaceIndexed?
          || command.PlaceCommandBlock?
    ensures AllLaid(FileForms(texts, pool, op, command, filler))
    ensures var r := Run(registry, captures, Laid(FileForms(texts, pool, op, command, filler)), 0, START);
      var id, entity := BlockFor(registry, texts, pool, command), EntityFor(command);
      && (r.Some? <==> id.Some? && EntityOk(registry, captures, entity, id.value))
      && (r.Some? ==>
            && r.value.placed == [Placing(BlockPos(0, 0, 0), id.value)]
            && r.value.entities == (if captures && entity.Some? then map[BlockPos(0, 0, 0) := (entity.value, id.value)]
                                    else map[])
            && r.value.nonAir == (if id.value == registry.air then 0 else 1))
  {
    hide Fields, Run, Laid, FileForms, Widen, Definable, Definitions;
    FileRuns(registry, captures, texts, pool, op, command, filler);
    OnlyStatesHaveCompounds(op, command, filler);
    Places(registry, captures, Defined(texts).(pool := pool), command);
  }

  predicate NoCompound(command: Command) {
    EntityFor(command).Some? && EntityFor(command).value.CompoundEntity? ==> command.PlaceState?
  }

  lemma OnlyStatesHaveCompounds(op: Byte, command: Command, filler: Bytes)
    requires Fields(op, command, filler).Some?
    ensures NoCompound(command)
  {
  }

  lemma Places(registry: Registry, captures: bool, s: State, command: Command)
    requires s.placed == [] && s.nonAir == 0 && s.entities == map[] && s.extent.pos == ORIGIN
    requires s.memo == Memo(map[], map[], map[]) && s.cachedPool == 0xff && s.cachedRuntimes == []
    requires command.PlaceState? || command.PlaceLegacy? || command.PlaceText? || command.PlaceIndexed?
          || command.PlaceCommandBlock?
    requires NoCompound(command)
    ensures var r := ExecuteOne(registry, captures, s, command);
      var id, entity := BlockFor(registry, s.constants, s.pool, command), EntityFor(command);
      && (r.Some? <==> id.Some? && EntityOk(registry, captures, entity, id.value))
      && (r.Some? ==>
            && r.value.placed == [Placing(ORIGIN, id.value)]
            && r.value.entities == (if captures && entity.Some? then map[ORIGIN := (entity.value, id.value)] else map[])
            && r.value.nonAir == (if id.value == registry.air then 0 else 1))
  {
    hide Widen, PlaceBlock, DirectSlot;
    match command {
      case PlaceState(name, states, entity) =>
        var found := StateOf(registry, s.constants, s.memo, name, states);
        if found.Some? {
          PlacesOne(registry, captures, s.(memo := found.value.memo), found.value.id, entity);
        }
      case PlaceLegacy(name, data, entity) =>
        var found := LegacyOf(registry, s.constants, s.memo, name, data);
        PlacesOne(registry, captures, s.(memo := found.memo), found.id, entity);
      case PlaceText(name, text) =>
        var id := ResolveText(registry, s.constants, name, text);
        if id.Some? {
          PlacesOne(registry, captures, s, id.value, None);
        }
      case PlaceIndexed(index, entity) =>
        var loaded :=
          if s.cachedPool == s.pool then s
          else s.(cachedPool := s.pool, cachedRuntimes := registry.pool(s.pool));
        if index < |loaded.cachedRuntimes| {
          PlacesOne(registry, captures, loaded, loaded.cachedRuntimes[index], entity);
        }
      case PlaceCommandBlock(data, block) =>
        PlacesOne(registry, captures, s, registry.commandBlock(block.mode, data), Some(CommandEntity(block)));
    }
  }

  lemma PlacesOne(registry: Registry, captures: bool, s: State, id: RuntimeId, entity: Option<Entity>)
    requires s.placed == [] && s.nonAir == 0 && s.entities == map[] && s.extent.pos == ORIGIN
    ensures var r := PlaceBlock(registry, captures, s, id, entity);
      && (r.Some? <==> (captures && entity.Some? ==> registry.fits(entity.value, id)))
      && (r.Some? ==>
            && r.value.placed == [Placing(ORIGIN, id)]
            && r.value.entities == (if captures && entity.Some? then map[ORIGIN := (entity.value, id)] else map[])
            && r.value.nonAir == (if id == registry.air then 0 else 1))
  {
  }

  /** A file with one attached entity keeps it at the origin under runtime id 0 and
      places nothing. */
  lemma FileAttaches(registry: Registry, captures: bool, texts: seq<Bytes>, pool: Byte, op: Byte, entity: Entity)
    requires Definable(texts) && Fields(op, AttachEntity(entity), []).Some?
    ensures AllLaid(FileForms(texts, pool, op, AttachEntity(entity), []))
    ensures var r := Run(registry, captures, Laid(FileForms(texts, pool, op, AttachEntity(entity), [])), 0, START);
      && (r.Some? <==> (captures ==> registry.fits(entity, 0)))
      && (r.Some? ==>
            && r.value.placed == []
            && r.value.entities == if captures then map[BlockPos(0, 0, 0) := (entity, 0)] else map[])
  {
    hide Fields, Run, Laid, FileForms, Widen, Definable, Definitions;
    FileRuns(registry, captures, texts, pool, op, AttachEntity(entity), []);
  }

  /** Numbers are written with their highest byte first. */
  lemma NumbersAreWritten()
    ensures Big16(258) == [1, 2] && Big16(-2) == [255, 254]
    ensures Big32(0x0102_0304) == [1, 2, 3, 4] && Big32(-2) == [255, 255, 255, 254]
  {
  }

  /** A whole file: constant "s", pool 0, legacy block 0 with data 3, end. */
  lemma LegacyFile(registry: Registry)
    ensures var r := Run(registry, false, [1, 115, 0, 31, 0, 7, 0, 0, 0, 3, 88], 0, START);
      r.Some? && r.value.placed == [Placing(BlockPos(0, 0, 0), registry.legacyRuntime([115], 3))]
  {
    hide Run, Fields, FileForms;
    var command := PlaceLegacy(0, 3, None);
    LegacyFileIs();
    FilePlaces(registry, false, [[115]], 0, 7, command, []);
  }

  lemma LegacyFileIs()
    ensures Definable([[115]]) && Fields(7, PlaceLegacy(0, 3, None), []).Some?
    ensures AllLaid(FileForms([[115]], 0, 7, PlaceLegacy(0, 3, None), []))
    ensures Laid(FileForms([[115]], 0, 7, PlaceLegacy(0, 3, None), [])) == [1, 115, 0, 31, 0, 7, 0, 0, 0, 3, 88]
  {
    var define, pool := Form(1, Define([115]), []), Form(31, SelectPool(0), []);
    var place, end := Form(7, PlaceLegacy(0, 3, None), []), Form(88, Terminate, []);
    assert [[115]][..0] == [];
    assert FileForms([[115]], 0, 7, PlaceLegacy(0, 3, None), []) == [define, pool, place, end];
    FourForms(define, pool, place, end);
  }

  lemma FourForms(define: Form, pool: Form, place: Form, end: Form)
    requires Fields(define.op, define.command, define.filler).Some?
      && Fields(pool.op, pool.command, pool.filler).Some?
    requires Fields(place.op, place.command, place.filler).Some? && Fields(end.op, end.command, end.filler).Some?
    ensures AllLaid([define, pool, place, end])
    ensures Laid([define, pool, place, end])
      == ([define.op] + Fields(define.op, define.command, define.filler).value)
        + (([pool.op] + Fields(pool.op, pool.command, pool.filler).value)
        + (([place.op] + Fields(place.op, place.command, place.filler).value)
        + (([end.op] + Fields(end.op, end.command, end.filler).value) + [])))
  {
    hide Fields;
    assert [define] + [pool, place, end] == [define, pool, place, end] && [pool] + [place, end] == [pool, place, end];
    assert [place] + [end] == [place, end] && [end] + [] == [end];
    assert Laid([]) == [];
    LaidFirst(end, []);
    LaidFirst(place, [end]);
    LaidFirst(pool, [place, end]);
    LaidFirst(define, [pool, place, end]);
  }

  lemma LaidFirst(first: Form, rest: seq<Form>)
    requires Fields(first.op, first.command, first.filler).Some? && AllLaid(rest)
    ensures AllLaid([first] + rest)
    ensures Laid([first] + rest) == ([first.op] + Fields(first.op, first.command, first.filler).value) + Laid(rest)
  {
    hide Fields;
    assert ([first] + rest)[1..] == rest;
  }
}
