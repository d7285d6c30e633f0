/** The bytes `write_bdx` emits for a command, and why the reader gets the command
    back from them. */
module BdxEncodings {
  import opened Options
  import opened Coordinates
  import opened BdxBytes
  import opened BdxCommands
  import opened RuntimeMemos
  import opened BdxMachine

  /** `append_u16` and `append_u32`: big-endian, two's complement. */
  function Big16(value: int): (bytes: Bytes)
    ensures |bytes| == 2
  {
    var unsigned := value % 0x1_0000;
    [unsigned / 0x100, unsigned % 0x100]
  }

  function Big32(value: int): (bytes: Bytes)
    ensures |bytes| == 4
  {
    var unsigned := value % 0x1_0000_0000;
    Big16(unsigned / 0x1_0000) + Big16(unsigned % 0x1_0000)
  }

  datatype AxisCodes = AxisCodes(increment: Byte, decrement: Byte, int8: Byte, int16: Byte, int32: Byte)

  function CodesOf(axis: Axis): AxisCodes {
    match axis
    case X => AxisCodes(14, 15, 28, 20, 21)
    case Y => AxisCodes(16, 17, 29, 22, 23)
    case Z => AxisCodes(18, 19, 30, 24, 25)
  }

  /** The shortest move command for a representable difference. */
  function EncodeMove(axis: Axis, delta: int): Bytes {
    var codes := CodesOf(axis);
    if delta == 1 then [codes.increment]
    else if delta == -1 then [codes.decrement]
    else if -0x80 <= delta <= 0x7f then [codes.int8, delta % 0x100]
    else if -0x8000 <= delta <= 0x7fff then [codes.int16] + Big16(delta)
    else [codes.int32] + Big32(delta)
  }

  /** The commands the writer emits, with the values it can emit. */
  predicate Emitted(command: Command) {
    match command
    case Define(text) => 0 !in text && |text| <= MAXIMUM_STRING_BYTES
    case PlaceState(name, states, entity) => name < 0x1_0000 && states < 0x1_0000 && entity == None
    case Move(axis, delta) => IsInt32(delta)
    case Terminate => true
    case _ => false
  }

  function Encode(command: Command): (bytes: Bytes)
    requires Emitted(command)
    ensures |bytes| > 0
  {
    match command
    case Define(text) => [1] + text + [0]
    case PlaceState(name, states, _) => [5] + Big16(name) + Big16(states)
    case Move(axis, delta) => EncodeMove(axis, delta)
    case Terminate => [88]
  }

  /** `part` occurs in `bytes` from `at` on. */
  predicate Contains(bytes: Bytes, at: nat, part: Bytes) {
    at + |part| <= |bytes| && bytes[at..at + |part|] == part
  }

  lemma ContainsSplit(bytes: Bytes, at: nat, a: Bytes, b: Bytes)
    requires Contains(bytes, at, a + b)
    ensures Contains(bytes, at, a) && Contains(bytes, at + |a|, b)
  {
    assert bytes[at..at + |a + b|][..|a|] == a;
    assert bytes[at..at + |a + b|][|a|..] == b;
  }

  lemma Big16RoundTrip(bytes: Bytes, at: nat, value: int)
    requires Contains(bytes, at, Big16(value))
    ensures Unsigned16(bytes, at) == value % 0x1_0000
    ensures -0x8000 <= value <= 0x7fff ==> Signed16(bytes, at) == value
  {
    var part := Big16(value);
    assert bytes[at] == bytes[at..at + 2][0] == part[0];
    assert bytes[at + 1] == bytes[at..at + 2][1] == part[1];
  }

  lemma Big32RoundTrip(bytes: Bytes, at: nat, value: int)
    requires Contains(bytes, at, Big32(value)) && IsInt32(value)
    ensures Signed32(bytes, at) == value
  {
    var unsigned := value % 0x1_0000_0000;
    ContainsSplit(bytes, at, Big16(unsigned / 0x1_0000), Big16(unsigned % 0x1_0000));
    Big16RoundTrip(bytes, at, unsigned / 0x1_0000);
    Big16RoundTrip(bytes, at + 2, unsigned % 0x1_0000);
  }

  lemma Byte8RoundTrip(delta: int)
    requires -0x80 <= delta <= 0x7f
    ensures Signed8(delta % 0x100) == delta
  {
  }

  lemma {:induction false} CStringRoundTrip(bytes: Bytes, at: nat, text: Bytes, maximum: nat)
    requires Contains(bytes, at, text + [0]) && 0 !in text && |text| <= maximum
    ensures ReadCString(bytes, at, maximum) == Some(Field(text, at + |text| + 1))
    decreases |text|
  {
    var part := text + [0];
    assert bytes[at] == bytes[at..at + |part|][0] == part[0];
    if text != [] {
      assert part == [text[0]] + (text[1..] + [0]);
      ContainsSplit(bytes, at, [text[0]], text[1..] + [0]);
      CStringRoundTrip(bytes, at + 1, text[1..], maximum - 1);
      assert [text[0]] + text[1..] == text;
    }
  }

  lemma MoveRoundTrip(bytes: Bytes, at: nat, axis: Axis, delta: int)
    requires IsInt32(delta) && Contains(bytes, at, EncodeMove(axis, delta))
    ensures Decode(bytes, at) == Some(Field(Move(axis, delta), at + |EncodeMove(axis, delta)|))
  {
    var code := EncodeMove(axis, delta);
    assert bytes[at] == bytes[at..at + |code|][0] == code[0];
    if |code| == 3 {
      Int16Move(bytes, at, axis, delta);
    } else if |code| == 5 {
      Int32Move(bytes, at, axis, delta);
    } else if |code| == 2 {
      assert bytes[at + 1] == bytes[at..at + 2][1] == code[1];
      Byte8RoundTrip(delta);
    }
  }

  lemma Int16Move(bytes: Bytes, at: nat, axis: Axis, delta: int)
    requires -0x8000 <= delta <= 0x7fff && Contains(bytes, at, [CodesOf(axis).int16] + Big16(delta))
    ensures Decode(bytes, at) == Some(Field(Move(axis, delta), at + 3))
  {
    hide Big16, Signed16;
    var code := [CodesOf(axis).int16] + Big16(delta);
    assert bytes[at] == bytes[at..at + |code|][0];
    ContainsSplit(bytes, at, [CodesOf(axis).int16], Big16(delta));
    Big16RoundTrip(bytes, at + 1, delta);
  }

  lemma Int32Move(bytes: Bytes, at: nat, axis: Axis, delta: int)
    requires IsInt32(delta) && Contains(bytes, at, [CodesOf(axis).int32] + Big32(delta))
    ensures Decode(bytes, at) == Some(Field(Move(axis, delta), at + 5))
  {
    hide Big32, Signed32;
    var code := [CodesOf(axis).int32] + Big32(delta);
    assert bytes[at] == bytes[at..at + |code|][0];
    ContainsSplit(bytes, at, [CodesOf(axis).int32], Big32(delta));
    Big32RoundTrip(bytes, at + 1, delta);
  }

  lemma DefineRoundTrip(bytes: Bytes, at: nat, text: Bytes)
    requires 0 !in text && |text| <= MAXIMUM_STRING_BYTES && Contains(bytes, at, [1] + text + [0])
    ensures Decode(bytes, at) == Some(Field(Define(text), at + |text| + 2))
  {
    assert [1] + text + [0] == [1] + (text + [0]);
    ContainsSplit(bytes, at, [1], text + [0]);
    assert bytes[at] == bytes[at..at + 1][0];
    CStringRoundTrip(bytes, at + 1, text, MAXIMUM_STRING_BYTES);
    hide ReadCString, Contains;
  }

  lemma PlaceRoundTrip(bytes: Bytes, at: nat, name: nat, states: nat)
    requires name < 0x1_0000 && states < 0x1_0000 && Contains(bytes, at, [5] + Big16(name) + Big16(states))
    ensures Decode(bytes, at) == Some(Field(PlaceState(name, states, None), at + 5))
  {
    assert [5] + Big16(name) + Big16(states) == [5] + (Big16(name) + Big16(states));
    ContainsSplit(bytes, at, [5], Big16(name) + Big16(states));
    ContainsSplit(bytes, at + 1, Big16(name), Big16(states));
    assert bytes[at] == bytes[at..at + 1][0];
    Big16RoundTrip(bytes, at + 1, name);
    Big16RoundTrip(bytes, at + 3, states);
    hide Big16, Contains, Unsigned16;
  }

  /** Decoding undoes encoding, wherever the command stands in the stream. */
  lemma DecodeUndoesEncode(bytes: Bytes, at: nat, command: Command)
    requires Emitted(command) && Contains(bytes, at, Encode(command))
    ensures Decode(bytes, at) == Some(Field(command, at + |Encode(command)|))
  {
    match command {
      case Define(text) => DefineRoundTrip(bytes, at, text);
      case PlaceState(name, states, _) => PlaceRoundTrip(bytes, at, name, states);
      case Move(axis, delta) => MoveRoundTrip(bytes, at, axis, delta);
      case Terminate => assert bytes[at] == bytes[at..at + 1][0];
    }
  }

  ghost predicate AllEmitted(commands: seq<Command>) {
    forall i | 0 <= i < |commands| :: Emitted(commands[i])
  }

  function EncodeAll(commands: seq<Command>): Bytes
    requires forall i | 0 <= i < |commands| :: Emitted(commands[i])
  {
    if commands == [] then [] else EncodeAll(commands[..|commands| - 1]) + Encode(commands[|commands| - 1])
  }

  lemma {:induction false} EncodeAllFirst(commands: seq<Command>)
    requires commands != [] && AllEmitted(commands)
    ensures AllEmitted(commands[1..])
    ensures EncodeAll(commands) == Encode(commands[0]) + EncodeAll(commands[1..])
  {
    hide Encode, Emitted;
    if |commands| == 1 {
      assert commands[..0] == [] && commands[1..] == [];
    } else {
      var init := commands[..|commands| - 1];
      EncodeAllFirst(init);
      assert commands[1..][..|commands| - 2] == init[1..];
    }
  }

  /** Executing commands directly, bounding box included. */
  function ExecuteOne(registry: Registry, captures: bool, s: State, command: Command): Option<State> {
    match Execute(registry, captures, s, command)
    case None => None
    case Some(executed) =>
      Some(if MotionOf(command).Metadata? then executed else executed.(extent := Widen(executed.extent)))
  }

  function ExecuteAll(registry: Registry, captures: bool, s: State, commands: seq<Command>): Option<State> {
    if commands == [] then Some(s)
    else
      match ExecuteAll(registry, captures, s, commands[..|commands| - 1])
      case None => None
      case Some(before) => ExecuteOne(registry, captures, before, commands[|commands| - 1])
  }

  lemma {:induction false} ExecuteAllFirst(registry: Registry, captures: bool, s: State, commands: seq<Command>)
    requires commands != []
    ensures ExecuteAll(registry, captures, s, commands)
      == match ExecuteOne(registry, captures, s, commands[0])
         case None => None
         case Some(first) => ExecuteAll(registry, captures, first, commands[1..])
  {
    if |commands| == 1 {
      assert commands[..0] == [] && commands[1..] == [];
    } else {
      var init := commands[..|commands| - 1];
      ExecuteAllFirst(registry, captures, s, init);
      assert commands[1..][..|commands| - 2] == init[1..];
    }
  }

  lemma RunOne(registry: Registry, captures: bool, bytes: Bytes, at: nat, s: State, command: Command)
    requires Emitted(command) && Contains(bytes, at, Encode(command))
    ensures Run(registry, captures, bytes, at, s)
      == match ExecuteOne(registry, captures, s, command)
         case None => None
         case Some(next) => if next.done then Some(next)
           else Run(registry, captures, bytes, at + |Encode(command)|, next)
  {
    hide Run, Step, ExecuteOne, Encode, Emitted, Contains;
    StepOne(registry, captures, bytes, at, s, command);
    RunUnfolds(registry, captures, bytes, at, s);
  }

  lemma StepOne(registry: Registry, captures: bool, bytes: Bytes, at: nat, s: State, command: Command)
    requires Emitted(command) && Contains(bytes, at, Encode(command))
    ensures at < |bytes|
    ensures Step(registry, captures, bytes, at, s)
      == match ExecuteOne(registry, captures, s, command)
         case None => None
         case Some(next) => Some(Stepped(next, at + |Encode(command)|))
  {
    DecodeUndoesEncode(bytes, at, command);
    hide Decode, Execute, Encode, Emitted, Widen, MotionOf;
  }

  lemma RunUnfolds(registry: Registry, captures: bool, bytes: Bytes, at: nat, s: State)
    requires at < |bytes|
    ensures Run(registry, captures, bytes, at, s)
      == match Step(registry, captures, bytes, at, s)
         case None => None
         case Some(stepped) =>
           if stepped.state.done then Some(stepped.state)
           else Run(registry, captures, bytes, stepped.next, stepped.state)
  {
    hide Step;
  }

  lemma DoneMeansTerminated(registry: Registry, captures: bool, s: State, command: Command)
    requires ExecuteOne(registry, captures, s, command).Some? && !s.done
    ensures ExecuteOne(registry, captures, s, command).value.done <==> command.Terminate?
  {
    ExecuteMoves(registry, captures, s, command);
    hide Execute;
  }

  /** Reading encoded commands up to a terminator executes them. */
  lemma {:induction false} RunExecutes(registry: Registry, captures: bool, bytes: Bytes, at: nat, s: State,
      commands: seq<Command>)
    requires commands != [] && AllEmitted(commands) && Contains(bytes, at, EncodeAll(commands)) && !s.done
    requires forall i | 0 <= i < |commands| :: commands[i].Terminate? <==> i == |commands| - 1
    ensures Run(registry, captures, bytes, at, s) == ExecuteAll(registry, captures, s, commands)
    decreases |commands|
  {
    hide Run, Encode, ExecuteOne, Contains, Emitted, ExecuteAll, EncodeAll;
    EncodeAllFirst(commands);
    ContainsSplit(bytes, at, Encode(commands[0]), EncodeAll(commands[1..]));
    RunOne(registry, captures, bytes, at, s, commands[0]);
    ExecuteAllFirst(registry, captures, s, commands);
    var first := ExecuteOne(registry, captures, s, commands[0]);
    if first.Some? {
      DoneMeansTerminated(registry, captures, s, commands[0]);
      if |commands| > 1 {
        RunExecutes(registry, captures, bytes, at + |Encode(commands[0])|, first.value, commands[1..]);
      } else {
        assert commands[1..] == [];
        NothingLeft(registry, captures, first.value);
      }
    }
  }

  lemma NothingLeft(registry: Registry, captures: bool, s: State)
    ensures ExecuteAll(registry, captures, s, []) == Some(s)
  {
  }
}
