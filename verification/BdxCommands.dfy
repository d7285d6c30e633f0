/** The syntax of BDX commands as the three execution paths of
    `BdxStructure::read` see it: the full reader decodes a command, the
    bounds-only path skips to its end, and the window scanner only knows the
    lengths of the common fixed-size ones. */
module BdxCommands {
  import opened Options
  import opened BdxBytes

  datatype Axis = X | Y | Z

  datatype Entity =
    | CommandEntity(data: CommandBlock)
    | ChestEntity(items: seq<Item>)
    | CompoundEntity(source: Bytes)

  datatype Command =
    | Define(text: Bytes)
    | PlaceState(name: nat, states: nat, entity: Option<Entity>)
    | PlaceLegacy(name: nat, data: nat, entity: Option<Entity>)
    | PlaceText(name: nat, text: Bytes)
    | PlaceIndexed(index: nat, entity: Option<Entity>)
    | PlaceCommandBlock(data: nat, block: CommandBlock)
    | AttachEntity(attached: Entity)
    | Move(axis: Axis, delta: int)
    | Rest
    | SelectPool(id: Byte)
    | Terminate

  /** What a command does to the cursor. Metadata does not even renew the
      bounding box. */
  datatype Motion = Shift(axis: Axis, delta: int) | Stay | Metadata(pool: Option<Byte>) | Halt

  function MotionOf(command: Command): Motion {
    match command
    case Define(_) => Metadata(None)
    case Move(axis, delta) => Shift(axis, delta)
    case SelectPool(id) => Metadata(Some(id))
    case Terminate => Halt
    case _ => Stay
  }

  function WithCommandBlock(bytes: Bytes, at: nat, make: CommandBlock -> Command): (field: Option<Field<Command>>)
    ensures field.Some? ==> at < field.value.next <= |bytes|
  {
    match ReadCommandBlock(bytes, at)
    case None => None
    case Some(block) => Some(Field(make(block.value), block.next))
  }

  function WithChest(bytes: Bytes, at: nat, make: seq<Item> -> Command): (field: Option<Field<Command>>)
    ensures field.Some? ==> at < field.value.next <= |bytes|
  {
    match ReadChest(bytes, at)
    case None => None
    case Some(chest) => Some(Field(make(chest.value), chest.next))
  }

  /** One command of the full reader, from its identifier on. */
  function Decode(bytes: Bytes, at: nat): (field: Option<Field<Command>>)
    requires at < |bytes|
    ensures field.Some? ==> at < field.value.next <= |bytes|
  {
    var id, body := bytes[at], at + 1;
    if FixedLength(id) > 0 then
      (if at + FixedLength(id) > |bytes| then None else Some(Field(DecodeFixed(bytes, at), at + FixedLength(id))))
    else
      match id
      case 1 =>
        (match ReadCString(bytes, body, MAXIMUM_STRING_BYTES)
         case None => None
         case Some(text) => Some(Field(Define(text.value), text.next)))
      case 13 =>
        if body + 2 > |bytes| then None
        else
          (match ReadCString(bytes, body + 2, MAXIMUM_STRING_BYTES)
           case None => None
           case Some(text) => Some(Field(PlaceText(Unsigned16(bytes, body), text.value), text.next)))
      case 26 => WithCommandBlock(bytes, body, block => AttachEntity(CommandEntity(block)))
      case 27 =>
        if body + 4 > |bytes| then None
        else
          var name, data := Unsigned16(bytes, body), Unsigned16(bytes, body + 2);
          WithCommandBlock(bytes, body + 4, block => PlaceLegacy(name, data, Some(CommandEntity(block))))
      case 34 =>
        if body + 2 > |bytes| then None
        else
          var index := Unsigned16(bytes, body);
          WithCommandBlock(bytes, body + 2, block => PlaceIndexed(index, Some(CommandEntity(block))))
      case 35 =>
        if body + 4 > |bytes| then None
        else
          var index := Unsigned32(bytes, body);
          WithCommandBlock(bytes, body + 4, block => PlaceIndexed(index, Some(CommandEntity(block))))
      case 36 =>
        if body + 2 > |bytes| then None
        else
          var data := Unsigned16(bytes, body);
          WithCommandBlock(bytes, body + 2, block => PlaceCommandBlock(data, block))
      case 37 =>
        if body + 2 > |bytes| then None
        else
          var index := Unsigned16(bytes, body);
          WithChest(bytes, body + 2, items => PlaceIndexed(index, Some(ChestEntity(items))))
      case 38 =>
        if body + 4 > |bytes| then None
        else
          var index := Unsigned32(bytes, body);
          WithChest(bytes, body + 4, items => PlaceIndexed(index, Some(ChestEntity(items))))
      case 39 =>
        if body + 4 > |bytes| then None
        else
          (match Skip(bytes, body + 4, Unsigned32(bytes, body))
           case None => None
           case Some(next) => Some(Field(Rest, next)))
      case 40 =>
        if body + 4 > |bytes| then None
        else
          var name, data := Unsigned16(bytes, body), Unsigned16(bytes, body + 2);
          WithChest(bytes, body + 4, items => PlaceLegacy(name, data, Some(ChestEntity(items))))
      case 41 =>
        if body + 6 > |bytes| then None
        else
          (match SkipCompound(bytes, body + 6)
           case None => None
           case Some(next) =>
             Some(Field(PlaceState(Unsigned16(bytes, body), Unsigned16(bytes, body + 2),
               Some(CompoundEntity(bytes[body + 6..next]))), next)))
      case 88 => Some(Field(Terminate, body))
      case _ => None
  }

  /** The commands whose length, identifier included, does not depend on their
      payload: those the window scanner recognises. */
  function FixedLength(id: Byte): nat {
    match id
    case 5 => 5 case 7 => 5
    case 6 => 3 case 20 => 3 case 22 => 3 case 24 => 3
    case 8 => 1 case 9 => 1 case 14 => 1 case 15 => 1 case 16 => 1 case 17 => 1 case 18 => 1 case 19 => 1
    case 12 => 5 case 21 => 5 case 23 => 5 case 25 => 5 case 33 => 5
    case 28 => 2 case 29 => 2 case 30 => 2
    case 31 => 2
    case 32 => 3
    case _ => 0
  }

  function DecodeFixed(bytes: Bytes, at: nat): Command
    requires at < |bytes| && FixedLength(bytes[at]) > 0 && at + FixedLength(bytes[at]) <= |bytes|
  {
    var body := at + 1;
    match bytes[at]
    case 5 => PlaceState(Unsigned16(bytes, body), Unsigned16(bytes, body + 2), None)
    case 6 => Move(Z, Signed16(bytes, body))
    case 7 => PlaceLegacy(Unsigned16(bytes, body), Unsigned16(bytes, body + 2), None)
    case 8 => Move(Z, 1)
    case 12 => Move(Z, Signed32(bytes, body))
    case 14 => Move(X, 1)
    case 15 => Move(X, -1)
    case 16 => Move(Y, 1)
    case 17 => Move(Y, -1)
    case 18 => Move(Z, 1)
    case 19 => Move(Z, -1)
    case 20 => Move(X, Signed16(bytes, body))
    case 21 => Move(X, Signed32(bytes, body))
    case 22 => Move(Y, Signed16(bytes, body))
    case 23 => Move(Y, Signed32(bytes, body))
    case 24 => Move(Z, Signed16(bytes, body))
    case 25 => Move(Z, Signed32(bytes, body))
    case 28 => Move(X, Signed8(bytes[body]))
    case 29 => Move(Y, Signed8(bytes[body]))
    case 30 => Move(Z, Signed8(bytes[body]))
    case 31 => SelectPool(bytes[body])
    case 32 => PlaceIndexed(Unsigned16(bytes, body), None)
    case _ => Rest
  }

  /** One command of the bounds-only path, from its identifier on. */
  function Pass(bytes: Bytes, at: nat): (field: Option<Field<Motion>>)
    requires at < |bytes|
    ensures field.Some? ==> at < field.value.next <= |bytes|
  {
    var body := at + 1;
    match bytes[at]
    case 1 => Staying(SkipCString(bytes, body), Metadata(None))
    case 5 => Staying(Skip(bytes, body, 4), Stay)
    case 6 => if body + 2 > |bytes| then None else Some(Field(Shift(Z, Signed16(bytes, body)), body + 2))
    case 7 => Staying(Skip(bytes, body, 4), Stay)
    case 8 => Some(Field(Shift(Z, 1), body))
    case 9 => Some(Field(Stay, body))
    case 12 => if body + 4 > |bytes| then None else Some(Field(Shift(Z, Signed32(bytes, body)), body + 4))
    case 13 => if body + 2 > |bytes| then None else Staying(SkipCString(bytes, body + 2), Stay)
    case 14 => Some(Field(Shift(X, 1), body))
    case 15 => Some(Field(Shift(X, -1), body))
    case 16 => Some(Field(Shift(Y, 1), body))
    case 17 => Some(Field(Shift(Y, -1), body))
    case 18 => Some(Field(Shift(Z, 1), body))
    case 19 => Some(Field(Shift(Z, -1), body))
    case 20 => if body + 2 > |bytes| then None else Some(Field(Shift(X, Signed16(bytes, body)), body + 2))
    case 21 => if body + 4 > |bytes| then None else Some(Field(Shift(X, Signed32(bytes, body)), body + 4))
    case 22 => if body + 2 > |bytes| then None else Some(Field(Shift(Y, Signed16(bytes, body)), body + 2))
    case 23 => if body + 4 > |bytes| then None else Some(Field(Shift(Y, Signed32(bytes, body)), body + 4))
    case 24 => if body + 2 > |bytes| then None else Some(Field(Shift(Z, Signed16(bytes, body)), body + 2))
    case 25 => if body + 4 > |bytes| then None else Some(Field(Shift(Z, Signed32(bytes, body)), body + 4))
    case 26 => Staying(SkipCommandBlock(bytes, body), Stay)
    case 27 => if body + 4 > |bytes| then None else Staying(SkipCommandBlock(bytes, body + 4), Stay)
    case 28 => if body + 1 > |bytes| then None else Some(Field(Shift(X, Signed8(bytes[body])), body + 1))
    case 29 => if body + 1 > |bytes| then None else Some(Field(Shift(Y, Signed8(bytes[body])), body + 1))
    case 30 => if body + 1 > |bytes| then None else Some(Field(Shift(Z, Signed8(bytes[body])), body + 1))
    case 31 => if body + 1 > |bytes| then None else Some(Field(Metadata(Some(bytes[body])), body + 1))
    case 32 => Staying(Skip(bytes, body, 2), Stay)
    case 33 => Staying(Skip(bytes, body, 4), Stay)
    case 34 => if body + 2 > |bytes| then None else Staying(SkipCommandBlock(bytes, body + 2), Stay)
    case 35 => if body + 4 > |bytes| then None else Staying(SkipCommandBlock(bytes, body + 4), Stay)
    case 36 => if body + 2 > |bytes| then None else Staying(SkipCommandBlock(bytes, body + 2), Stay)
    case 37 => if body + 2 > |bytes| then None else Staying(SkipChest(bytes, body + 2), Stay)
    case 38 => if body + 4 > |bytes| then None else Staying(SkipChest(bytes, body + 4), Stay)
    case 39 => if body + 4 > |bytes| then None else Staying(Skip(bytes, body + 4, Unsigned32(bytes, body)), Stay)
    case 40 => if body + 4 > |bytes| then None else Staying(SkipChest(bytes, body + 4), Stay)
    case 41 => if body + 6 > |bytes| then None else Staying(SkipCompound(bytes, body + 6), Stay)
    case 88 => Some(Field(Halt, body))
    case _ => None
  }

  function Staying(next: Option<nat>, motion: Motion): (field: Option<Field<Motion>>)
    ensures field.Some? <==> next.Some?
    ensures field.Some? ==> field.value == Field(motion, next.value)
  {
    match next
    case None => None
    case Some(n) => Some(Field(motion, n))
  }

  /** The bounds-only path stops where the full reader does and moves the cursor
      the same way. */
  lemma PassFollowsDecode(bytes: Bytes, at: nat)
    requires at < |bytes| && Decode(bytes, at).Some?
    ensures var full := Decode(bytes, at).value;
      Pass(bytes, at) == Some(Field(MotionOf(full.value), full.next))
  {
    var id, body := bytes[at], at + 1;
    if FixedLength(id) > 0 {
      PassFollowsFixed(bytes, at);
    } else if id in {1, 13} {
      CStringExtent(bytes, if id == 1 then body else body + 2, MAXIMUM_STRING_BYTES);
    } else if id in {26, 27, 34, 35, 36} {
      CommandBlockExtent(bytes, if id == 26 then body else if id in {27, 35} then body + 4 else body + 2);
    } else if id in {37, 38, 40} {
      ChestExtent(bytes, if id == 37 then body + 2 else body + 4);
    }
  }

  lemma PassFollowsFixed(bytes: Bytes, at: nat)
    requires at < |bytes| && FixedLength(bytes[at]) > 0
    ensures at + FixedLength(bytes[at]) <= |bytes| ==>
      Pass(bytes, at) == Some(Field(MotionOf(DecodeFixed(bytes, at)), at + FixedLength(bytes[at])))
    ensures at + FixedLength(bytes[at]) > |bytes| ==> Pass(bytes, at) == None
  {
  }
}
