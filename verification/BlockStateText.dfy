/** Block states as text: what `state_string` in the BDX writer prints and what
    `parse_block_states` in the reader makes of it. */
module BlockStateTexts {
  import opened Options
  import opened Coordinates
  import opened BdxBytes
  import opened Decimals
  import opened CanonicalStates

  const QUOTE: Byte := 34
  const BACKSLASH: Byte := 92
  const COMMA: Byte := 44
  const EQUALS: Byte := 61
  const COLON: Byte := 58
  const MAXIMUM_PROPERTIES := 128

  const TRUE: Bytes := [116, 114, 117, 101]
  const FALSE: Bytes := [102, 97, 108, 115, 101]

  // ----- the writer

  function EscapedByte(b: Byte): Bytes {
    if b == BACKSLASH || b == QUOTE then [BACKSLASH, b] else [b]
  }

  /** `escaped`. */
  function Escaped(text: Bytes): Bytes {
    if text == [] then [] else EscapedByte(text[0]) + Escaped(text[1..])
  }

  function Quoted(text: Bytes): Bytes {
    [QUOTE] + Escaped(text) + [QUOTE]
  }

  function ValueText(p: Property): Bytes {
    if p.kind == StringValue then Quoted(p.value)
    else if p.kind == ByteValue then (if p.value == [ZERO] then FALSE else TRUE)
    else p.value
  }

  function PropertyText(p: Property): Bytes {
    Quoted(p.name) + [EQUALS] + ValueText(p)
  }

  function Joined(properties: seq<Property>): Bytes {
    if properties == [] then []
    else if |properties| == 1 then PropertyText(properties[0])
    else PropertyText(properties[0]) + [COMMA] + Joined(properties[1..])
  }

  const OPEN: Byte := 91
  const CLOSE: Byte := 93
  const OPEN_BRACE: Byte := 123
  const CLOSE_BRACE: Byte := 125

  /** `state_string` of properties already sorted by name. */
  function StateString(sorted: seq<Property>): Bytes {
    [OPEN] + Joined(sorted) + [CLOSE]
  }

  // ----- the reader

  predicate IsSpace(b: Byte) {
    b == 32 || b == 9 || b == 13 || b == 10
  }

  function TrimLeft(text: Bytes): Bytes {
    if text != [] && IsSpace(text[0]) then TrimLeft(text[1..]) else text
  }

  function TrimRight(text: Bytes): Bytes {
    if text != [] && IsSpace(text[|text| - 1]) then TrimRight(text[..|text| - 1]) else text
  }

  /** `trim`. */
  function Trim(text: Bytes): Bytes {
    TrimRight(TrimLeft(text))
  }

  /** The copying loop of `unquote` from position `i` on. */
  function UnquotedFrom(value: Bytes, i: nat): Bytes
    decreases |value| - i
  {
    if i + 1 >= |value| then []
    else if value[i] == BACKSLASH && i + 2 < |value| then [value[i + 1]] + UnquotedFrom(value, i + 2)
    else [value[i]] + UnquotedFrom(value, i + 1)
  }

  predicate IsQuoted(value: Bytes) {
    |value| >= 2 && value[0] == QUOTE && value[|value| - 1] == QUOTE
  }

  /** `unquote`. */
  function Unquote(value: Bytes): Bytes {
    if IsQuoted(value) then UnquotedFrom(value, 1) else value
  }

  /** A quote counts unless the byte before it is a backslash. */
  predicate Toggles(text: Bytes, i: nat)
    requires i < |text|
  {
    text[i] == QUOTE && (i == 0 || text[i - 1] != BACKSLASH)
  }

  /** The scan both loops of `parse_block_states` make: the first of `stops`
      outside quotes, from `i` on. */
  function FirstUnquoted(text: Bytes, i: nat, quoted: bool, stops: set<Byte>): (at: nat)
    requires i <= |text|
    ensures i <= at <= |text|
    decreases |text| - i
  {
    if i == |text| then i
    else
      var now := if Toggles(text, i) then !quoted else quoted;
      if text[i] in stops && !now then i else FirstUnquoted(text, i + 1, now, stops)
  }

  function Lower(b: Byte): Byte {
    if 65 <= b <= 90 then b + 32 else b
  }

  function Lowered(text: Bytes): (lowered: Bytes)
    ensures |lowered| == |text| && forall i | 0 <= i < |text| :: lowered[i] == Lower(text[i])
  {
    if text == [] then [] else [Lower(text[0])] + Lowered(text[1..])
  }

  /** The typed value of one property. */
  function ParseValue(name: Bytes, value: Bytes): Option<Property> {
    var boolean := Lowered(value);
    if boolean == TRUE || boolean == FALSE then
      Some(Property(name, ByteValue, if boolean == TRUE then [ZERO + 1] else [ZERO]))
    else if IsQuoted(value) then Some(Property(name, StringValue, Unquote(value)))
    else
      match Parse(value, INT32_MIN, INT32_MAX)
      case None => None
      case Some(integer) => Some(Property(name, IntValue, Decimal(integer)))
  }

  /** The loop body of `parse_block_states` from the part that starts at `start`;
      `found` properties have been read, with separator `mode` if any (0). */
  function ParseFrom(contents: Bytes, start: nat, found: nat, mode: Byte): Option<seq<Property>>
    requires start <= |contents|
    decreases |contents| - start
  {
    var end := FirstUnquoted(contents, start, false, {COMMA});
    var part := contents[start..end];
    var separator := FirstUnquoted(part, 0, false, {EQUALS, COLON});
    if separator == |part| then
      if Trim(part) != [] then None
      else if end == |contents| then Some([])
      else ParseFrom(contents, end + 1, found, mode)
    else if found >= MAXIMUM_PROPERTIES then None
    else if mode != 0 && mode != part[separator] then None
    else
      match ParseValue(Unquote(Trim(part[..separator])), Trim(part[separator + 1..]))
      case None => None
      case Some(property) =>
        if end == |contents| then Some([property])
        else
          match ParseFrom(contents, end + 1, found + 1, part[separator])
          case None => None
          case Some(rest) => Some([property] + rest)
  }

  function FirstOf(text: Bytes, set_: set<Byte>): nat {
    if text == [] || text[0] in set_ then 0 else 1 + FirstOf(text[1..], set_)
  }

  function LastOf(text: Bytes, set_: set<Byte>): Option<nat> {
    if text == [] then None
    else if text[|text| - 1] in set_ then Some(|text| - 1)
    else LastOf(text[..|text| - 1], set_)
  }

  /** `parse_block_states`. A closing bracket before the opening one makes the
      length wrap, so the contents run to the end. */
  function ParseBlockStates(encoded: Bytes): Option<seq<Property>> {
    FirstOfBound(encoded, {OPEN, OPEN_BRACE});
    LastOfBound(encoded, {CLOSE, CLOSE_BRACE});
    var open := FirstOf(encoded, {OPEN, OPEN_BRACE});
    if open >= |encoded| then Some([])
    else
      var contents :=
        match LastOf(encoded, {CLOSE, CLOSE_BRACE})
        case None => encoded[open + 1..]
        case Some(close) => if close < open + 1 then encoded[open + 1..] else encoded[open + 1..close];
      ParseFrom(contents, 0, 0, 0)
  }

  lemma {:induction false} FirstOfBound(text: Bytes, set_: set<Byte>)
    ensures FirstOf(text, set_) <= |text|
  {
    if text != [] && text[0] !in set_ {
      FirstOfBound(text[1..], set_);
    }
  }

  lemma {:induction false} LastOfBound(text: Bytes, set_: set<Byte>)
    ensures LastOf(text, set_).Some? ==> LastOf(text, set_).value < |text|
  {
    if text != [] && text[|text| - 1] !in set_ {
      LastOfBound(text[..|text| - 1], set_);
    }
  }
}
