/** Reading the decoded BDX byte stream: the readers of `DecodedInput`, and the
    skipping counterparts the bounds-only scanner uses. A position past the end
    is a truncated stream. */
module BdxBytes {
  import opened Options

  type Byte = b: int | 0 <= b < 256
  type Bytes = seq<Byte>

  /** What was read, and the position after it. */
  datatype Field<+T> = Field(value: T, next: nat)

  const MAXIMUM_STRING_BYTES := 4 * 1024 * 1024
  const MAXIMUM_NBT_DEPTH := 128

  function Signed8(b: Byte): int {
    if b < 0x80 then b else b - 0x100
  }

  function Unsigned16(bytes: Bytes, at: nat): nat
    requires at + 2 <= |bytes|
  {
    bytes[at] as int * 0x100 + bytes[at + 1]
  }

  function Signed16(bytes: Bytes, at: nat): int
    requires at + 2 <= |bytes|
  {
    var value := Unsigned16(bytes, at);
    if value < 0x8000 then value else value - 0x1_0000
  }

  function Unsigned32(bytes: Bytes, at: nat): nat
    requires at + 4 <= |bytes|
  {
    Unsigned16(bytes, at) * 0x1_0000 + Unsigned16(bytes, at + 2)
  }

  function Signed32(bytes: Bytes, at: nat): int
    requires at + 4 <= |bytes|
  {
    var value := Unsigned32(bytes, at);
    if value < 0x8000_0000 then value else value - 0x1_0000_0000
  }

  function Little16(bytes: Bytes, at: nat): nat
    requires at + 2 <= |bytes|
  {
    bytes[at] as int + bytes[at + 1] as int * 0x100
  }

  function Little32(bytes: Bytes, at: nat): nat
    requires at + 4 <= |bytes|
  {
    Little16(bytes, at) + Little16(bytes, at + 2) * 0x1_0000
  }

  function Skip(bytes: Bytes, at: nat, count: nat): (next: Option<nat>)
    ensures next.Some? ==> next.value == at + count <= |bytes|
  {
    if at + count <= |bytes| then Some(at + count) else None
  }

  /** `skip_cstring`: past the next NUL, however far it is. */
  function SkipCString(bytes: Bytes, at: nat): (next: Option<nat>)
    ensures next.Some? ==> at < next.value <= |bytes|
    decreases |bytes| - at
  {
    if at >= |bytes| then None
    else if bytes[at] == 0 then Some(at + 1)
    else SkipCString(bytes, at + 1)
  }

  /** `cstring`: one character at a time, at most `maximum` before the NUL. */
  function ReadCString(bytes: Bytes, at: nat, maximum: nat): (field: Option<Field<Bytes>>)
    ensures field.Some? ==> at < field.value.next <= |bytes|
    decreases |bytes| - at
  {
    if at >= |bytes| then None
    else if bytes[at] == 0 then Some(Field([], at + 1))
    else if maximum == 0 then None
    else
      match ReadCString(bytes, at + 1, maximum - 1)
      case None => None
      case Some(rest) => Some(Field([bytes[at]] + rest.value, rest.next))
  }

  /** Reading and skipping a string stop at the same place; reading succeeds
      exactly when skipping does and the string is short enough. */
  lemma {:induction false} CStringExtent(bytes: Bytes, at: nat, maximum: nat)
    ensures var read, skipped := ReadCString(bytes, at, maximum), SkipCString(bytes, at);
      && (read.Some? <==> skipped.Some? && skipped.value - at - 1 <= maximum)
      && (read.Some? ==> read.value.next == skipped.value && read.value.value == bytes[at..skipped.value - 1])
    decreases |bytes| - at
  {
    if at < |bytes| && bytes[at] != 0 {
      CStringExtent(bytes, at + 1, if maximum == 0 then 0 else maximum - 1);
      var skipped := SkipCString(bytes, at);
      if skipped.Some? {
        assert bytes[at..skipped.value - 1] == [bytes[at]] + bytes[at + 1..skipped.value - 1];
      }
    }
  }

  /** `skip_nbt_payload`. Every payload takes at least one byte. */
  function SkipPayload(bytes: Bytes, at: nat, tag: Byte, depth: nat): (next: Option<nat>)
    ensures next.Some? ==> at < next.value <= |bytes|
    decreases |bytes| - at, 1
  {
    if depth > MAXIMUM_NBT_DEPTH then None
    else
      match tag
      case 1 => Skip(bytes, at, 1)
      case 2 => Skip(bytes, at, 2)
      case 3 => Skip(bytes, at, 4)
      case 4 => Skip(bytes, at, 8)
      case 5 => Skip(bytes, at, 4)
      case 6 => Skip(bytes, at, 8)
      case 7 => if at + 4 > |bytes| then None else Skip(bytes, at, 4 + Little32(bytes, at))
      case 8 => if at + 2 > |bytes| then None else Skip(bytes, at, 2 + Little16(bytes, at))
      case 9 => if at + 5 > |bytes| then None
        else SkipElements(bytes, at + 5, bytes[at], Little32(bytes, at + 1), depth + 1)
      case 10 => SkipFields(bytes, at, depth)
      case 11 => if at + 4 > |bytes| then None else Skip(bytes, at, 4 + Little32(bytes, at) * 4)
      case 12 => if at + 4 > |bytes| then None else Skip(bytes, at, 4 + Little32(bytes, at) * 8)
      case _ => None
  }

  function SkipElements(bytes: Bytes, at: nat, tag: Byte, count: nat, depth: nat): (next: Option<nat>)
    requires at <= |bytes|
    ensures next.Some? ==> at <= next.value <= |bytes|
    decreases |bytes| - at, 2
  {
    if count == 0 then Some(at)
    else
      match SkipPayload(bytes, at, tag, depth)
      case None => None
      case Some(next) => SkipElements(bytes, next, tag, count - 1, depth)
  }

  function SkipFields(bytes: Bytes, at: nat, depth: nat): (next: Option<nat>)
    ensures next.Some? ==> at < next.value <= |bytes|
    decreases |bytes| - at, 0
  {
    if at >= |bytes| then None
    else if bytes[at] == 0 then Some(at + 1)
    else if at + 3 > |bytes| then None
    else
      var key := at + 3 + Little16(bytes, at + 1);
      if key > |bytes| then None
      else
        match SkipPayload(bytes, key, bytes[at], depth + 1)
        case None => None
        case Some(next) => SkipFields(bytes, next, depth)
  }

  /** `skip_nbt_compound`. */
  function SkipCompound(bytes: Bytes, at: nat): (next: Option<nat>)
    ensures next.Some? ==> at < next.value <= |bytes|
  {
    if at + 3 > |bytes| || bytes[at] != 10 then None
    else
      var body := at + 3 + Little16(bytes, at + 1);
      if body > |bytes| then None else SkipPayload(bytes, body, 10, 0)
  }

  datatype CommandBlock = CommandBlock(mode: nat, texts: seq<Bytes>, tickDelay: int, flags: seq<bool>)

  /** `read_command_block_data`: a mode, three strings, a delay and four flags. */
  function ReadCommandBlock(bytes: Bytes, at: nat): (field: Option<Field<CommandBlock>>)
    ensures field.Some? ==> at < field.value.next <= |bytes|
  {
    if at + 4 > |bytes| then None
    else
      match ReadCString(bytes, at + 4, MAXIMUM_STRING_BYTES)
      case None => None
      case Some(command) =>
        match ReadCString(bytes, command.next, MAXIMUM_STRING_BYTES)
        case None => None
        case Some(name) =>
          match ReadCString(bytes, name.next, MAXIMUM_STRING_BYTES)
          case None => None
          case Some(output) =>
            var tail := output.next;
            if tail + 8 > |bytes| then None
            else
              Some(Field(CommandBlock(
                Unsigned32(bytes, at), [command.value, name.value, output.value], Signed32(bytes, tail),
                [bytes[tail + 4] != 0, bytes[tail + 5] != 0, bytes[tail + 6] != 0, bytes[tail + 7] != 0]), tail + 8))
  }

  function SkipCommandBlock(bytes: Bytes, at: nat): (next: Option<nat>)
    ensures next.Some? ==> at < next.value <= |bytes|
  {
    match Skip(bytes, at, 4)
    case None => None
    case Some(command) =>
      match SkipCString(bytes, command)
      case None => None
      case Some(name) =>
        match SkipCString(bytes, name)
        case None => None
        case Some(output) =>
          match SkipCString(bytes, output)
          case None => None
          case Some(tail) => Skip(bytes, tail, 8)
  }

  lemma CommandBlockExtent(bytes: Bytes, at: nat)
    requires ReadCommandBlock(bytes, at).Some?
    ensures SkipCommandBlock(bytes, at) == Some(ReadCommandBlock(bytes, at).value.next)
  {
    CStringExtent(bytes, at + 4, MAXIMUM_STRING_BYTES);
    var command := ReadCString(bytes, at + 4, MAXIMUM_STRING_BYTES).value.next;
    CStringExtent(bytes, command, MAXIMUM_STRING_BYTES);
    var name := ReadCString(bytes, command, MAXIMUM_STRING_BYTES).value.next;
    CStringExtent(bytes, name, MAXIMUM_STRING_BYTES);
  }

  datatype Item = Item(name: Bytes, count: Byte, damage: int, slot: Byte)

  /** The slots of `read_chest_nbt`. */
  function ReadSlots(bytes: Bytes, at: nat, count: nat): (field: Option<Field<seq<Item>>>)
    requires at <= |bytes|
    ensures field.Some? ==> at <= field.value.next <= |bytes|
    decreases count
  {
    if count == 0 then Some(Field([], at))
    else
      match ReadCString(bytes, at, MAXIMUM_STRING_BYTES)
      case None => None
      case Some(name) =>
        var tail := name.next;
        if tail + 4 > |bytes| then None
        else
          match ReadSlots(bytes, tail + 4, count - 1)
          case None => None
          case Some(rest) =>
            Some(Field([Item(name.value, bytes[tail], Signed16(bytes, tail + 1), bytes[tail + 3])] + rest.value,
              rest.next))
  }

  function SkipSlots(bytes: Bytes, at: nat, count: nat): (next: Option<nat>)
    requires at <= |bytes|
    ensures next.Some? ==> at <= next.value <= |bytes|
    decreases count
  {
    if count == 0 then Some(at)
    else
      match SkipCString(bytes, at)
      case None => None
      case Some(tail) =>
        match Skip(bytes, tail, 4)
        case None => None
        case Some(next) => SkipSlots(bytes, next, count - 1)
  }

  lemma {:induction false} SlotsExtent(bytes: Bytes, at: nat, count: nat)
    requires at <= |bytes| && ReadSlots(bytes, at, count).Some?
    ensures SkipSlots(bytes, at, count) == Some(ReadSlots(bytes, at, count).value.next)
    decreases count
  {
    if count > 0 {
      CStringExtent(bytes, at, MAXIMUM_STRING_BYTES);
      SlotsExtent(bytes, ReadCString(bytes, at, MAXIMUM_STRING_BYTES).value.next + 4, count - 1);
    }
  }

  function ReadChest(bytes: Bytes, at: nat): (field: Option<Field<seq<Item>>>)
    ensures field.Some? ==> at < field.value.next <= |bytes|
  {
    if at >= |bytes| then None else ReadSlots(bytes, at + 1, bytes[at])
  }

  function SkipChest(bytes: Bytes, at: nat): (next: Option<nat>)
    ensures next.Some? ==> at < next.value <= |bytes|
  {
    if at >= |bytes| then None else SkipSlots(bytes, at + 1, bytes[at])
  }

  lemma ChestExtent(bytes: Bytes, at: nat)
    requires ReadChest(bytes, at).Some?
    ensures SkipChest(bytes, at) == Some(ReadChest(bytes, at).value.next)
  {
    SlotsExtent(bytes, at + 1, bytes[at]);
  }
}
