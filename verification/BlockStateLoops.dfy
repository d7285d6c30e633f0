/** The loops of `state_string`, `escaped`, `unquote` and `parse_block_states`,
    proved against the functions they compute. */
module BlockStateLoops {
  import opened Options
  import opened BdxBytes
  import opened Decimals
  import opened CanonicalStates
  import opened BlockStateTexts
  import opened BlockStateRoundTrips

  lemma {:induction false} EscapedMore(text: Bytes, b: Byte)
    ensures Escaped(text + [b]) == Escaped(text) + EscapedByte(b)
  {
    if text == [] {
      assert [b][1..] == [] && [] + [b] == [b];
    } else {
      assert (text + [b])[1..] == text[1..] + [b];
      EscapedMore(text[1..], b);
    }
  }

  method Escape(value: Bytes) returns (result: Bytes)
    ensures result == Escaped(value)
  {
    result := [];
    for i := 0 to |value|
      invariant result == Escaped(value[..i])
    {
      assert value[..i + 1] == value[..i] + [value[i]];
      EscapedMore(value[..i], value[i]);
      if value[i] == BACKSLASH || value[i] == QUOTE {
        result := result + [BACKSLASH];
      }
      result := result + [value[i]];
    }
    assert value[..|value|] == value;
  }

  method UnquoteValue(value: Bytes) returns (result: Bytes)
    ensures result == Unquote(value)
  {
    if !IsQuoted(value) {
      return value;
    }
    result := [];
    var i := 1;
    while i + 1 < |value|
      invariant 1 <= i <= |value|
      invariant result + UnquotedFrom(value, i) == UnquotedFrom(value, 1)
      decreases |value| - i
    {
      ghost var before, from := result, i;
      if value[i] == BACKSLASH && i + 2 < |value| {
        i := i + 1;
      }
      assert UnquotedFrom(value, from) == [value[i]] + UnquotedFrom(value, i + 1);
      assert before + ([value[i]] + UnquotedFrom(value, i + 1)) == before + [value[i]] + UnquotedFrom(value, i + 1);
      result := result + [value[i]];
      i := i + 1;
    }
    assert result + [] == result;
  }

  lemma {:induction false} JoinedMore(properties: seq<Property>, p: Property)
    ensures Joined(properties + [p]) == if properties == [] then PropertyText(p)
      else Joined(properties) + [COMMA] + PropertyText(p)
  {
    hide PropertyText;
    if properties == [] {
      assert [] + [p] == [p];
    } else {
      var rest := properties[1..];
      assert (properties + [p])[1..] == rest + [p];
      JoinedMore(rest, p);
      if rest == [] {
        assert properties == [properties[0]];
      } else {
        assert PropertyText(properties[0]) + [COMMA] + (Joined(rest) + [COMMA] + PropertyText(p))
          == PropertyText(properties[0]) + [COMMA] + Joined(rest) + [COMMA] + PropertyText(p);
      }
    }
  }

  /** Ordered by name alone. */
  ghost predicate NameSortingOf(sorted: seq<Property>, states: seq<Property>) {
    && multiset(sorted) == multiset(states)
    && forall i, j | 0 <= i < j < |sorted| :: !Below(sorted[j].name, sorted[i].name)
  }

  /** `std::sort` by name: what it does with equal names is left open. */
  method SortByName(states: seq<Property>) returns (sorted: seq<Property>)
    ensures NameSortingOf(sorted, states)
  {
    hide Below;
    sorted := SortProperties(states);
    forall i, j | 0 <= i < j < |sorted|
      ensures !Below(sorted[j].name, sorted[i].name)
    {
      BelowIsTotal(sorted[i].name, sorted[j].name);
    }
  }

  /** `state_string`: the properties are sorted by name first. */
  method StateText(states: seq<Property>) returns (result: Bytes)
    ensures exists sorted :: NameSortingOf(sorted, states) && result == StateString(sorted)
  {
    hide Joined, PropertyText, Below;
    NothingJoined();
    if states == [] {
      assert NameSortingOf([], states);
      return [OPEN, CLOSE];
    }
    var properties := SortByName(states);
    assert NameSortingOf(properties, states);
    result := [OPEN];
    for i := 0 to |properties|
      invariant result == [OPEN] + Joined(properties[..i])
    {
      assert properties[..i + 1] == properties[..i] + [properties[i]];
      JoinedMore(properties[..i], properties[i]);
      if i != 0 {
        result := result + [COMMA];
      }
      var text := PrintProperty(properties[i]);
      result := result + text;
    }
    assert properties[..|properties|] == properties;
    result := result + [CLOSE];
  }

  lemma NothingJoined()
    ensures Joined([]) == []
  {
  }

  method PrintProperty(p: Property) returns (text: Bytes)
    ensures text == PropertyText(p)
  {
    hide Escaped;
    var name := Escape(p.name);
    text := [QUOTE] + name + [QUOTE, EQUALS];
    if p.kind == StringValue {
      var value := Escape(p.value);
      text := text + [QUOTE] + value + [QUOTE];
    } else if p.kind == ByteValue {
      text := text + if p.value == [ZERO] then FALSE else TRUE;
    } else {
      text := text + p.value;
    }
  }

  method FindSeparator(part: Bytes) returns (separator: nat)
    ensures separator == FirstUnquoted(part, 0, false, {EQUALS, COLON})
  {
    var quoted := false;
    separator := 0;
    while separator < |part|
      invariant separator <= |part|
      invariant FirstUnquoted(part, 0, false, {EQUALS, COLON})
        == FirstUnquoted(part, separator, quoted, {EQUALS, COLON})
    {
      if Toggles(part, separator) {
        quoted := !quoted;
      }
      if (part[separator] == EQUALS || part[separator] == COLON) && !quoted {
        return;
      }
      separator := separator + 1;
    }
  }

  /** The parse in terms of what has been found so far. */
  function Continued(found: seq<Property>, rest: Option<seq<Property>>): Option<seq<Property>> {
    match rest
    case None => None
    case Some(others) => Some(found + others)
  }

  lemma ContinuedOnce(found: seq<Property>, p: Property, rest: Option<seq<Property>>)
    ensures Continued(found, Prefixed(p, rest)) == Continued(found + [p], rest)
  {
    if rest.Some? {
      assert found + ([p] + rest.value) == found + [p] + rest.value;
    }
  }

  /** What one part adds: nothing, one property, or a failure. */
  function ParsePart(part: Bytes, found: nat, mode: Byte): Option<(seq<Property>, Byte)> {
    var separator := FirstUnquoted(part, 0, false, {EQUALS, COLON});
    if separator == |part| then (if Trim(part) != [] then None else Some(([], mode)))
    else if found >= MAXIMUM_PROPERTIES then None
    else if mode != 0 && mode != part[separator] then None
    else
      match ParseValue(Unquote(Trim(part[..separator])), Trim(part[separator + 1..]))
      case None => None
      case Some(property) => Some(([property], part[separator]))
  }

  lemma PartDecides(contents: Bytes, start: nat, found: seq<Property>, mode: Byte)
    requires start <= |contents|
    ensures var end := FirstUnquoted(contents, start, false, {COMMA});
      Continued(found, ParseFrom(contents, start, |found|, mode))
        == match ParsePart(contents[start..end], |found|, mode)
           case None => None
           case Some((properties, next)) =>
             if end == |contents| then Some(found + properties)
             else Continued(found + properties, ParseFrom(contents, end + 1, |found + properties|, next))
  {
    hide FirstUnquoted, Trim, Unquote, ParseValue;
    var end := FirstUnquoted(contents, start, false, {COMMA});
    var parsed := ParsePart(contents[start..end], |found|, mode);
    if parsed.Some? {
      if parsed.value.0 == [] {
        assert found + [] == found;
      } else if end < |contents| {
        ContinuedOnce(found, parsed.value.0[0], ParseFrom(contents, end + 1, |found| + 1, parsed.value.1));
      }
    }
  }

  method TakePart(part: Bytes, found: nat, mode: Byte) returns (parsed: Option<(seq<Property>, Byte)>)
    ensures parsed == ParsePart(part, found, mode)
  {
    hide FirstUnquoted, Trim, Unquote, ParseValue;
    var separator := FindSeparator(part);
    if separator == |part| {
      return if Trim(part) != [] then None else Some(([], mode));
    }
    if found >= MAXIMUM_PROPERTIES || (mode != 0 && mode != part[separator]) {
      return None;
    }
    var name := UnquoteValue(Trim(part[..separator]));
    var property := ParseValue(name, Trim(part[separator + 1..]));
    parsed := if property == None then None else Some(([property.value], part[separator]));
  }

  /** The main loop of `parse_block_states`: one scan over the contents, taking a
      part at every comma outside quotes and at the end. */
  method ParseContents(contents: Bytes) returns (result: Option<seq<Property>>)
    ensures result == ParseFrom(contents, 0, 0, 0)
  {
    hide ParseFrom, FirstUnquoted, ParsePart;
    var found: seq<Property> := [];
    var start, quoted, mode: Byte := 0, false, 0;
    Unprefixed(ParseFrom(contents, 0, 0, 0));
    for index := 0 to |contents|
      invariant start <= index
      invariant ParseFrom(contents, 0, 0, 0) == Continued(found, ParseFrom(contents, start, |found|, mode))
      invariant FirstUnquoted(contents, start, false, {COMMA}) == FirstUnquoted(contents, index, quoted, {COMMA})
    {
      ScanStep(contents, index, quoted, {COMMA});
      if Toggles(contents, index) {
        quoted := !quoted;
      }
      if contents[index] == COMMA && !quoted {
        PartDecides(contents, start, found, mode);
        var parsed := TakePart(contents[start..index], |found|, mode);
        if parsed == None {
          return None;
        }
        found, mode := found + parsed.value.0, parsed.value.1;
        start := index + 1;
      }
    }
    AtEnd(contents, |contents|, {COMMA});
    PartDecides(contents, start, found, mode);
    var parsed := TakePart(contents[start..], |found|, mode);
    assert contents[start..|contents|] == contents[start..];
    result := if parsed == None then None else Some(found + parsed.value.0);
  }

  lemma Unprefixed(rest: Option<seq<Property>>)
    ensures Continued([], rest) == rest
  {
    if rest.Some? {
      assert [] + rest.value == rest.value;
    }
  }
}
