/** When reading a printed block state gives its properties back: always, except
    when a backslash stands where the quote scan takes it for an escape, or there
    are too many properties. */
module BlockStateRoundTrips {
  import opened Options
  import opened Coordinates
  import opened BdxBytes
  import opened Decimals
  import opened CanonicalStates
  import opened BlockStateTexts

  predicate Contains(text: Bytes, at: nat, part: Bytes) {
    at + |part| <= |text| && text[at..at + |part|] == part
  }

  lemma ContainsBoth(text: Bytes, at: nat, a: Bytes, b: Bytes)
    requires Contains(text, at, a + b)
    ensures Contains(text, at, a) && Contains(text, at + |a|, b)
  {
    assert text[at..at + |a + b|][..|a|] == a && text[at..at + |a + b|][|a|..] == b;
  }

  predicate EndsInBackslash(text: Bytes) {
    text != [] && text[|text| - 1] == BACKSLASH
  }

  lemma {:induction false} EscapedLast(s: Bytes)
    requires s != []
    ensures Escaped(s) != [] && Escaped(s)[|Escaped(s)| - 1] == s[|s| - 1]
  {
    if |s| > 1 {
      EscapedLast(s[1..]);
    }
  }

  /** Inside quotes an escaped text is passed over, whatever it contains. */
  lemma {:induction false} ScanEscaped(text: Bytes, i: nat, s: Bytes, stops: set<Byte>)
    requires Contains(text, i, Escaped(s))
    ensures FirstUnquoted(text, i, true, stops) == FirstUnquoted(text, i + |Escaped(s)|, true, stops)
    decreases |s|
  {
    if s != [] {
      ContainsBoth(text, i, EscapedByte(s[0]), Escaped(s[1..]));
      ScanByte(text, i, s[0], stops);
      ScanEscaped(text, i + |EscapedByte(s[0])|, s[1..], stops);
    }
  }

  lemma ScanByte(text: Bytes, i: nat, b: Byte, stops: set<Byte>)
    requires Contains(text, i, EscapedByte(b))
    ensures FirstUnquoted(text, i, true, stops) == FirstUnquoted(text, i + |EscapedByte(b)|, true, stops)
  {
    var code := EscapedByte(b);
    assert text[i] == text[i..i + |code|][0] == code[0];
    if |code| == 2 {
      assert text[i + 1] == text[i..i + 2][1] == code[1];
      assert FirstUnquoted(text, i, true, stops) == FirstUnquoted(text, i + 1, true, stops);
    }
  }

  lemma ScanStep(text: Bytes, i: nat, quoted: bool, stops: set<Byte>)
    requires i < |text|
    ensures var now := if Toggles(text, i) then !quoted else quoted;
      FirstUnquoted(text, i, quoted, stops)
        == if text[i] in stops && !now then i else FirstUnquoted(text, i + 1, now, stops)
  {
  }

  /** A quoted text is passed over, unless it ends in a backslash: then its
      closing quote is missed and the scan believes to be inside still. */
  lemma ScanQuoted(text: Bytes, i: nat, s: Bytes, stops: set<Byte>)
    requires Contains(text, i, Quoted(s)) && (i == 0 || text[i - 1] != BACKSLASH) && QUOTE !in stops
    ensures FirstUnquoted(text, i, false, stops) == FirstUnquoted(text, i + |Quoted(s)|, EndsInBackslash(s), stops)
  {
    hide FirstUnquoted, Escaped;
    var code, end := Escaped(s), i + 1 + |Escaped(s)|;
    QuotedPieces(text, i, s);
    ScanStep(text, i, false, stops);
    ScanEscaped(text, i + 1, s, stops);
    ScanStep(text, end, true, stops);
  }

  /** The closing quote counts unless the text before it ends in a backslash. */
  lemma QuotedPieces(text: Bytes, i: nat, s: Bytes)
    requires Contains(text, i, Quoted(s))
    ensures var end := i + 1 + |Escaped(s)|;
      && end < |text| && text[i] == QUOTE && text[end] == QUOTE && Contains(text, i + 1, Escaped(s))
      && (Toggles(text, end) <==> !EndsInBackslash(s))
  {
    hide Escaped;
    var code, end := Escaped(s), i + 1 + |Escaped(s)|;
    assert Quoted(s) == [QUOTE] + (code + [QUOTE]);
    ContainsBoth(text, i, [QUOTE], code + [QUOTE]);
    ContainsBoth(text, i + 1, code, [QUOTE]);
    assert text[i] == text[i..i + 1][0] && text[end] == text[end..end + 1][0];
    if s == [] {
      NothingEscaped();
    } else {
      EscapedLast(s);
      assert text[end - 1] == text[i + 1..end][|code| - 1];
    }
  }

  lemma NothingEscaped()
    ensures Escaped([]) == []
  {
  }

  /** Text without quotes and stops is passed over outside quotes. */
  lemma {:induction false} ScanPlain(text: Bytes, i: nat, part: Bytes, stops: set<Byte>)
    requires Contains(text, i, part) && forall b | b in part :: b != QUOTE && b !in stops
    ensures FirstUnquoted(text, i, false, stops) == FirstUnquoted(text, i + |part|, false, stops)
    decreases |part|
  {
    hide FirstUnquoted;
    if part != [] {
      assert part == [part[0]] + part[1..];
      ContainsBoth(text, i, [part[0]], part[1..]);
      assert text[i] == text[i..i + 1][0];
      assert part[0] in part && forall b | b in part[1..] :: b in part;
      ScanStep(text, i, false, stops);
      ScanPlain(text, i + 1, part[1..], stops);
    }
  }

  /** The properties the writer prints faithfully. */
  ghost predicate Printable(p: Property) {
    match p.kind
    case ByteValue => p.value == [ZERO] || p.value == [ZERO + 1]
    case IntValue => exists n :: IsInt32(n) && p.value == Decimal(n)
    case StringValue => true
    case _ => false
  }

  lemma PlainValue(p: Property)
    requires Printable(p) && p.kind != StringValue
    ensures forall b | b in ValueText(p) :: b != QUOTE && b != COMMA && b != EQUALS && b != COLON && !IsSpace(b)
    ensures ValueText(p) != []
  {
    if p.kind == IntValue {
      var n :| IsInt32(n) && p.value == Decimal(n);
      DecimalAlphabet(n);
    }
  }

  /** Where the part of a property ends: at the next comma if neither its name nor
      its value hides the closing quote; beyond it otherwise. */
  lemma PartEnd(contents: Bytes, start: nat, p: Property, rest: Bytes)
    requires Printable(p) && start <= |contents| && contents[start..] == PropertyText(p) + rest
    requires (start == 0 || contents[start - 1] == COMMA) && (rest == [] || rest[0] == COMMA)
    ensures var end := FirstUnquoted(contents, start, false, {COMMA});
      && (!EndsInBackslash(p.name) && !(p.kind == StringValue && EndsInBackslash(p.value) && rest != []) ==>
            end == start + |PropertyText(p)|)
      && (EndsInBackslash(p.name) ==> end > start + |Quoted(p.name)|)
      && (!EndsInBackslash(p.name) && p.kind == StringValue && EndsInBackslash(p.value) && rest != [] ==>
            end > start + |PropertyText(p)|)
  {
    hide Quoted, Escaped, ValueText, FirstUnquoted, Printable;
    var name, value, stops := Quoted(p.name), ValueText(p), {COMMA};
    var at := start + |name|;
    PropertyPieces(contents, start, p, rest);
    ScanQuoted(contents, start, p.name, stops);
    ScanStep(contents, at, EndsInBackslash(p.name), stops);
    if !EndsInBackslash(p.name) {
      AfterValue(contents, at + 1, p, rest);
    }
  }

  lemma PropertyPieces(contents: Bytes, start: nat, p: Property, rest: Bytes)
    requires start <= |contents| && contents[start..] == PropertyText(p) + rest
    ensures var at := start + |Quoted(p.name)|;
      && Contains(contents, start, Quoted(p.name)) && at < |contents| && contents[at] == EQUALS
      && Contains(contents, at + 1, ValueText(p) + rest) && at + 1 + |ValueText(p)| + |rest| == |contents|
  {
    hide Quoted, ValueText;
    var name, value := Quoted(p.name), ValueText(p);
    assert name + ([EQUALS] + (value + rest)) == PropertyText(p) + rest;
    assert Contains(contents, start, name + ([EQUALS] + (value + rest)));
    ContainsBoth(contents, start, name, [EQUALS] + (value + rest));
    ContainsBoth(contents, start + |name|, [EQUALS], value + rest);
    assert contents[start + |name|] == contents[start + |name|..start + |name| + 1][0];
  }

  lemma AtEnd(contents: Bytes, next: nat, stops: set<Byte>)
    requires next <= |contents| && QUOTE !in stops
    ensures next == |contents| ==> forall quoted :: FirstUnquoted(contents, next, quoted, stops) == next
    ensures next < |contents| && contents[next] in stops ==> FirstUnquoted(contents, next, false, stops) == next
    ensures next < |contents| && contents[next] in stops ==> FirstUnquoted(contents, next, true, stops) > next
  {
  }

  lemma AfterValue(contents: Bytes, at: nat, p: Property, rest: Bytes)
    requires Printable(p) && Contains(contents, at, ValueText(p) + rest) && at > 0 && contents[at - 1] == EQUALS
    requires at + |ValueText(p)| + |rest| == |contents| && (rest == [] || rest[0] == COMMA)
    ensures var end, next := FirstUnquoted(contents, at, false, {COMMA}), at + |ValueText(p)|;
      if p.kind == StringValue && EndsInBackslash(p.value) && rest != [] then end > next else end == next
  {
    hide FirstUnquoted, Quoted, Escaped;
    var value, stops := ValueText(p), {COMMA};
    ContainsBoth(contents, at, value, rest);
    var next := at + |value|;
    if rest != [] {
      assert contents[next] == contents[next..next + |rest|][0] == COMMA;
    }
    AtEnd(contents, next, stops);
    if p.kind == StringValue {
      ScanQuoted(contents, at, p.value, stops);
    } else {
      PlainValue(p);
      ScanPlain(contents, at, value, stops);
    }
  }

  /** Where the separator of a part is found: behind the name, if its closing
      quote counts; further on, or nowhere, otherwise. */
  lemma PartSeparator(part: Bytes, p: Property, more: Bytes)
    requires part == Quoted(p.name) + [EQUALS] + more
    ensures var separator := FirstUnquoted(part, 0, false, {EQUALS, COLON});
      if EndsInBackslash(p.name) then separator > |Quoted(p.name)| else separator == |Quoted(p.name)|
  {
    hide FirstUnquoted, Quoted, Escaped;
    var name, stops := Quoted(p.name), {EQUALS, COLON};
    AtEnd(part, |name|, stops);
    assert part[..|name|] == name && part[|name|] == EQUALS;
    ScanQuoted(part, 0, p.name, stops);
  }

  lemma {:induction false} TrimLeftKeeps(text: Bytes)
    requires text != [] && !IsSpace(text[0])
    ensures TrimLeft(text) == text
  {
  }

  lemma {:induction false} TrimRightKeeps(head: Bytes, tail: Bytes)
    requires head != [] && !IsSpace(head[|head| - 1])
    ensures TrimRight(head + tail) == head + TrimRight(tail) && |TrimRight(tail)| <= |tail|
    decreases |tail|
  {
    if tail == [] {
      assert head + tail == head && head + TrimRight(tail) == head;
    } else {
      assert (head + tail)[..|head + tail| - 1] == head + tail[..|tail| - 1];
      TrimRightKeeps(head, tail[..|tail| - 1]);
    }
  }

  /** A text that starts and ends with other than space is not trimmed; longer
      ones keep it as a prefix. */
  lemma TrimKeeps(head: Bytes, tail: Bytes)
    requires head != [] && !IsSpace(head[0]) && !IsSpace(head[|head| - 1])
    ensures Trim(head + tail) == head + TrimRight(tail)
  {
    TrimLeftKeeps(head + tail);
    TrimRightKeeps(head, tail);
  }

  lemma {:induction false} UnquoteEscaped(value: Bytes, i: nat, s: Bytes)
    requires Contains(value, i, Escaped(s)) && i + |Escaped(s)| + 1 <= |value|
    ensures UnquotedFrom(value, i) == s + UnquotedFrom(value, i + |Escaped(s)|)
    decreases |s|
  {
    hide UnquotedFrom, EscapedByte;
    if s == [] {
      assert [] + UnquotedFrom(value, i) == UnquotedFrom(value, i);
    } else {
      ContainsBoth(value, i, EscapedByte(s[0]), Escaped(s[1..]));
      UnquoteByte(value, i, s[0]);
      UnquoteEscaped(value, i + |EscapedByte(s[0])|, s[1..]);
      assert s == [s[0]] + s[1..];
    }
  }

  lemma UnquoteByte(value: Bytes, i: nat, b: Byte)
    requires Contains(value, i, EscapedByte(b)) && i + |EscapedByte(b)| + 1 <= |value|
    ensures UnquotedFrom(value, i) == [b] + UnquotedFrom(value, i + |EscapedByte(b)|)
  {
    var code := EscapedByte(b);
    assert value[i] == value[i..i + |code|][0] == code[0];
    if |code| == 2 {
      assert value[i + 1] == value[i..i + 2][1] == code[1];
    }
  }

  /** `unquote` undoes the escaping. */
  lemma UnquoteUndoesQuoted(s: Bytes)
    ensures IsQuoted(Quoted(s)) && Unquote(Quoted(s)) == s
  {
    var value := Quoted(s);
    assert value[1..1 + |Escaped(s)|] == Escaped(s);
    UnquoteEscaped(value, 1, s);
    assert s + [] == s;
  }

  /** With more text behind the closing quote the result is another. */
  lemma UnquoteLonger(s: Bytes, tail: Bytes)
    requires tail != []
    ensures Unquote(Quoted(s) + tail) != s
  {
    var value := Quoted(s) + tail;
    EscapedIsNotShorter(s);
    if IsQuoted(value) {
      assert value[1..1 + |Escaped(s)|] == Escaped(s);
      UnquoteEscaped(value, 1, s);
      assert value[1 + |Escaped(s)|] == QUOTE;
      assert UnquotedFrom(value, 1 + |Escaped(s)|) != [];
    }
  }

  lemma {:induction false} EscapedIsNotShorter(s: Bytes)
    ensures |Escaped(s)| >= |s|
  {
    if s != [] {
      EscapedIsNotShorter(s[1..]);
    }
  }

  lemma BooleanTexts()
    ensures Lowered(TRUE) == TRUE && Lowered(FALSE) == FALSE && TRUE != FALSE
  {
  }

  /** The value of a clean part is read back. */
  lemma ValueRoundTrip(p: Property)
    requires Printable(p)
    ensures Trim(ValueText(p)) == ValueText(p) && ParseValue(p.name, ValueText(p)) == Some(p)
  {
    hide Trim, ParseValue;
    if p.kind == StringValue {
      StringRoundTrip(p);
    } else {
      PlainRoundTrip(p);
    }
  }

  lemma StringRoundTrip(p: Property)
    requires p.kind == StringValue
    ensures Trim(ValueText(p)) == ValueText(p) && ParseValue(p.name, ValueText(p)) == Some(p)
  {
    hide Trim, Parse;
    var text := ValueText(p);
    assert text + [] == text;
    TrimKeeps(text, []);
    UnquoteUndoesQuoted(p.value);
    assert Lowered(text)[0] == QUOTE;
  }

  lemma PlainRoundTrip(p: Property)
    requires Printable(p) && p.kind != StringValue
    ensures Trim(ValueText(p)) == ValueText(p) && ParseValue(p.name, ValueText(p)) == Some(p)
  {
    hide Trim, Parse;
    var text := ValueText(p);
    assert text + [] == text;
    PlainValue(p);
    assert text[0] in text && text[|text| - 1] in text;
    TrimKeeps(text, []);
    BooleanTexts();
    if p.kind == IntValue {
      var n :| IsInt32(n) && p.value == Decimal(n);
      NumberRoundTrip(p, n);
    }
  }

  lemma NumberRoundTrip(p: Property, n: int)
    requires p.kind == IntValue && IsInt32(n) && p.value == Decimal(n)
    ensures ParseValue(p.name, p.value) == Some(p)
  {
    hide Decimal, Parse, Lowered;
    DecimalAlphabet(n);
    ParseUndoesDecimal(n, INT32_MIN, INT32_MAX);
    var text := Decimal(n);
    assert text[0] in text;
    assert Lowered(text)[0] == text[0];
  }

  /** A value with text behind its closing quote is read as something else, if at
      all. */
  lemma LongerValueDiffers(name: Bytes, p: Property, tail: Bytes)
    requires p.kind == StringValue && tail != []
    ensures ParseValue(name, Quoted(p.value) + tail) != Some(p)
  {
    var value := Quoted(p.value) + tail;
    assert Lowered(value)[0] == Lower(value[0]) == QUOTE;
    UnquoteLonger(p.value, tail);
    assert !IsDigit(value[0]) && value[0] != MINUS;
    hide Quoted, Lowered, Unquote;
  }

  /** A property whose text the reader takes apart where it should; `last` says
      that no other follows. */
  ghost predicate Clean(p: Property, last: bool) {
    !EndsInBackslash(p.name) && (p.kind == StringValue && !last ==> !EndsInBackslash(p.value))
  }

  /** When the text of a state reads back: at most 128 properties in all, no name
      ending in a backslash, and no string value ending in one except the last. */
  ghost predicate ReadsBack(properties: seq<Property>, found: nat) {
    found + |properties| <= MAXIMUM_PROPERTIES
    && forall i | 0 <= i < |properties| :: Clean(properties[i], i == |properties| - 1)
  }

  lemma ReadsBackFirst(properties: seq<Property>, found: nat)
    requires properties != []
    ensures ReadsBack(properties, found)
      <==>
        && found < MAXIMUM_PROPERTIES && Clean(properties[0], |properties| == 1)
        && ReadsBack(properties[1..], found + 1)
  {
    hide Clean;
    if found < MAXIMUM_PROPERTIES && Clean(properties[0], |properties| == 1) && ReadsBack(properties[1..], found + 1) {
      forall i | 0 <= i < |properties|
        ensures Clean(properties[i], i == |properties| - 1)
      {
        if i > 0 {
          assert Clean(properties[1..][i - 1], i - 1 == |properties[1..]| - 1);
        }
      }
    }
    if ReadsBack(properties, found) {
      forall i | 0 <= i < |properties[1..]|
        ensures Clean(properties[1..][i], i == |properties[1..]| - 1)
      {
        assert Clean(properties[i + 1], i + 1 == |properties| - 1);
      }
    }
  }

  function Prefixed(p: Property, rest: Option<seq<Property>>): Option<seq<Property>> {
    match rest
    case None => None
    case Some(others) => Some([p] + others)
  }

  /** One clean property is read, and the rest after it. */
  lemma CleanPart(contents: Bytes, start: nat, p: Property, rest: Bytes, found: nat, mode: Byte)
    requires Printable(p) && Clean(p, rest == []) && start <= |contents| && contents[start..] == PropertyText(p) + rest
    requires (start == 0 || contents[start - 1] == COMMA) && (rest == [] || rest[0] == COMMA)
    requires found < MAXIMUM_PROPERTIES && (mode == 0 || mode == EQUALS)
    ensures rest == [] ==> ParseFrom(contents, start, found, mode) == Some([p])
    ensures rest != [] ==> start + |PropertyText(p)| < |contents|
    ensures rest != [] ==>
      ParseFrom(contents, start, found, mode)
        == Prefixed(p, ParseFrom(contents, start + |PropertyText(p)| + 1, found + 1, EQUALS))
  {
    hide FirstUnquoted, Quoted, Escaped, ValueText, Printable, ParseValue, Trim, Unquote, Parse;
    PartEnd(contents, start, p, rest);
    var part := PropertyText(p);
    assert contents[start..start + |part|] == part by {
      assert contents[start..][..|part|] == part;
    }
    PartSeparator(part, p, ValueText(p));
    PartPieces(p);
    ValueRoundTrip(p);
    NameRoundTrip(p.name);
  }

  lemma PartPieces(p: Property)
    ensures var part, at := PropertyText(p), |Quoted(p.name)|;
      at < |part| && part[..at] == Quoted(p.name) && part[at] == EQUALS && part[at + 1..] == ValueText(p)
  {
  }

  lemma NameRoundTrip(name: Bytes)
    ensures Unquote(Trim(Quoted(name))) == name
  {
    hide Trim, Unquote;
    assert Quoted(name) + [] == Quoted(name);
    TrimKeeps(Quoted(name), []);
    UnquoteUndoesQuoted(name);
    NothingTrimmed(Quoted(name));
  }

  lemma NothingTrimmed(head: Bytes)
    ensures head + TrimRight([]) == head
  {
  }

  /** A property that is not clean is read as another, or fails the parse. */
  lemma UncleanPart(contents: Bytes, start: nat, p: Property, rest: Bytes, found: nat, mode: Byte)
    requires Printable(p) && !Clean(p, rest == []) && start <= |contents| && contents[start..] == PropertyText(p) + rest
    requires (start == 0 || contents[start - 1] == COMMA) && (rest == [] || rest[0] == COMMA)
    ensures var r := ParseFrom(contents, start, found, mode);
      r.Some? ==> r.value != [] && r.value[0] != p
  {
    hide FirstUnquoted, Quoted, Escaped, ValueText, Printable, Trim, Unquote, Parse, ParseValue;
    PartEnd(contents, start, p, rest);
    var end := FirstUnquoted(contents, start, false, {COMMA});
    var part := contents[start..end];
    if EndsInBackslash(p.name) {
      UncleanName(contents, start, p, rest, end);
    } else {
      UncleanValue(contents, start, p, rest, end);
    }
    FirstParsed(contents, start, found, mode, p);
  }

  /** What the first part decides about the whole parse. */
  lemma FirstParsed(contents: Bytes, start: nat, found: nat, mode: Byte, p: Property)
    requires start <= |contents|
    requires var end := FirstUnquoted(contents, start, false, {COMMA});
      var part := contents[start..end];
      var separator := FirstUnquoted(part, 0, false, {EQUALS, COLON});
      && Trim(part) != []
      && (separator < |part| ==> ParseValue(Unquote(Trim(part[..separator])), Trim(part[separator + 1..])) != Some(p))
    ensures var r := ParseFrom(contents, start, found, mode);
      r.Some? ==> r.value != [] && r.value[0] != p
  {
    hide FirstUnquoted, Trim, Unquote, ParseValue;
  }

  lemma ParsedName(name: Bytes, value: Bytes)
    ensures ParseValue(name, value).Some? ==> ParseValue(name, value).value.name == name
  {
  }

  /** The name swallows the separator. */
  lemma UncleanName(contents: Bytes, start: nat, p: Property, rest: Bytes, end: nat)
    requires EndsInBackslash(p.name) && start <= end <= |contents| && contents[start..] == PropertyText(p) + rest
    requires end > start + |Quoted(p.name)|
    ensures var part := contents[start..end];
      var separator := FirstUnquoted(part, 0, false, {EQUALS, COLON});
      && Trim(part) != []
      && (separator < |part| ==> ParseValue(Unquote(Trim(part[..separator])), Trim(part[separator + 1..])) != Some(p))
  {
    hide FirstUnquoted, Quoted, Escaped, ValueText, Trim, Unquote, ParseValue;
    var part, name := contents[start..end], Quoted(p.name);
    var head := name + [EQUALS];
    assert PropertyText(p) + rest == head + (ValueText(p) + rest);
    assert part[..|head|] == head by {
      assert contents[start..][..|head|] == head;
    }
    assert part == name + [EQUALS] + part[|head|..];
    PartSeparator(part, p, part[|head|..]);
    QuotedEnds(p.name);
    TrimKeeps(head, part[|head|..]);
    var separator := FirstUnquoted(part, 0, false, {EQUALS, COLON});
    if separator < |part| {
      var more := part[|head|..separator];
      assert part[..separator] == head + more;
      TrimKeeps(head, more);
      UnquoteLonger(p.name, [EQUALS] + TrimRight(more));
      assert head + TrimRight(more) == name + ([EQUALS] + TrimRight(more));
      ParsedName(Unquote(Trim(part[..separator])), Trim(part[separator + 1..]));
    }
  }

  lemma QuotedEnds(text: Bytes)
    ensures var q := Quoted(text);
      |q| >= 2 && q[0] == QUOTE && q[|q| - 1] == QUOTE && !IsSpace(QUOTE)
  {
  }

  lemma PartGoesOn(contents: Bytes, start: nat, end: nat, text: Bytes, rest: Bytes)
    requires start <= end <= |contents| && contents[start..] == text + rest && rest != []
    requires end > start + |text|
    ensures contents[start..end] == text + [rest[0]] + contents[start..end][|text| + 1..]
  {
    assert contents[start..end] == contents[start..][..end - start];
  }

  lemma Regrouped(a: Bytes, b: Bytes, c: Bytes, d: Bytes)
    ensures a + b + c + d == a + (b + (c + d)) && (a + b) + c == a + (b + c)
  {
  }

  /** The value swallows the comma. */
  lemma UncleanValue(contents: Bytes, start: nat, p: Property, rest: Bytes, end: nat)
    requires !EndsInBackslash(p.name) && p.kind == StringValue
    requires start <= end <= |contents| && contents[start..] == PropertyText(p) + rest && rest != [] && rest[0] == COMMA
    requires end > start + |PropertyText(p)|
    ensures var part := contents[start..end];
      var separator := FirstUnquoted(part, 0, false, {EQUALS, COLON});
      && Trim(part) != []
      && (separator < |part| ==> ParseValue(Unquote(Trim(part[..separator])), Trim(part[separator + 1..])) != Some(p))
  {
    hide FirstUnquoted, Quoted, Escaped, Trim, Unquote, ParseValue;
    var part, name, value := contents[start..end], Quoted(p.name), Quoted(p.value);
    PartGoesOn(contents, start, end, PropertyText(p), rest);
    var more := part[|PropertyText(p)| + 1..];
    var behind := value + [COMMA] + more;
    Regrouped(name + [EQUALS], value, [COMMA], more);
    assert part == name + [EQUALS] + behind by {
      Regrouped(value, [COMMA], more, []);
    }
    Regrouped(name, [EQUALS], behind, []);
    PartSeparator(part, p, behind);
    QuotedEnds(p.name);
    QuotedEnds(p.value);
    TrimKeeps(name, [EQUALS] + behind);
    assert part[|name| + 1..] == behind;
    TrimKeeps(value + [COMMA], more);
    Regrouped(value, [COMMA], TrimRight(more), []);
    LongerValueDiffers(Unquote(Trim(part[..|name|])), p, [COMMA] + TrimRight(more));
  }

  lemma {:induction false} JoinedSplits(properties: seq<Property>)
    requires properties != []
    ensures var rest := if |properties| == 1 then [] else [COMMA] + Joined(properties[1..]);
      Joined(properties) == PropertyText(properties[0]) + rest
  {
  }

  /** Reading what was joined gives the properties back exactly when they read
      back. */
  lemma {:induction false} ParseUndoesJoined(contents: Bytes, start: nat, properties: seq<Property>, found: nat,
      mode: Byte)
    requires properties != [] && start <= |contents| && contents[start..] == Joined(properties)
    requires start == 0 || contents[start - 1] == COMMA
    requires found <= MAXIMUM_PROPERTIES && (mode == 0 || mode == EQUALS)
    requires forall i | 0 <= i < |properties| :: Printable(properties[i])
    ensures ParseFrom(contents, start, found, mode) == Some(properties) <==> ReadsBack(properties, found)
    decreases |properties|
  {
    hide ParseFrom, Printable, PropertyText, Clean, Joined, ReadsBack;
    var p, rest := properties[0], if |properties| == 1 then [] else [COMMA] + Joined(properties[1..]);
    JoinedSplits(properties);
    ReadsBackFirst(properties, found);
    if !Clean(p, |properties| == 1) {
      UncleanPart(contents, start, p, rest, found, mode);
    } else if found == MAXIMUM_PROPERTIES {
      TooMany(contents, start, p, rest, found, mode);
    } else {
      CleanPart(contents, start, p, rest, found, mode);
      if |properties| == 1 {
        NothingMore(properties, found + 1);
      } else {
        var next := start + |PropertyText(p)| + 1;
        assert contents[next..] == Joined(properties[1..]) by {
          assert contents[start..][|PropertyText(p)| + 1..] == contents[next..];
        }
        assert contents[next - 1] == contents[start..][|PropertyText(p)|] == COMMA;
        ParseUndoesJoined(contents, next, properties[1..], found + 1, EQUALS);
        Prepended(p, properties, ParseFrom(contents, next, found + 1, EQUALS));
      }
    }
  }

  lemma Prepended(p: Property, properties: seq<Property>, rest: Option<seq<Property>>)
    requires properties != [] && p == properties[0]
    ensures rest == Some(properties[1..]) <==> Prefixed(p, rest) == Some(properties)
  {
    if rest.Some? {
      assert ([p] + rest.value)[1..] == rest.value;
      assert properties == [p] + properties[1..];
    }
  }

  lemma NothingMore(properties: seq<Property>, found: nat)
    requires |properties| == 1 && found <= MAXIMUM_PROPERTIES
    ensures ReadsBack(properties[1..], found) && properties == [properties[0]]
  {
  }

  lemma TooMany(contents: Bytes, start: nat, p: Property, rest: Bytes, found: nat, mode: Byte)
    requires Printable(p) && Clean(p, rest == []) && start <= |contents| && contents[start..] == PropertyText(p) + rest
    requires (start == 0 || contents[start - 1] == COMMA) && (rest == [] || rest[0] == COMMA)
    requires found >= MAXIMUM_PROPERTIES
    ensures ParseFrom(contents, start, found, mode) == None
  {
    hide FirstUnquoted, Quoted, Escaped, ValueText, Printable, ParseValue, Trim, Unquote, Parse;
    PartEnd(contents, start, p, rest);
    var part := PropertyText(p);
    assert contents[start..start + |part|] == part by {
      assert contents[start..][..|part|] == part;
    }
    PartSeparator(part, p, ValueText(p));
    PartPieces(p);
  }

  lemma {:induction false} LastClose(text: Bytes)
    ensures LastOf(text + [CLOSE], {CLOSE, CLOSE_BRACE}) == Some(|text|)
  {
    assert (text + [CLOSE])[|text|] == CLOSE;
  }

  /** `parse_block_states(state_string(s))` returns the name-sorted properties
      exactly when they read back. */
  lemma TextRoundTripsExactlyWhen(sorted: seq<Property>)
    requires forall i | 0 <= i < |sorted| :: Printable(sorted[i])
    ensures ParseBlockStates(StateString(sorted)) == Some(sorted) <==> ReadsBack(sorted, 0)
  {
    hide ParseFrom, Joined, Printable;
    var text := StateString(sorted);
    assert text == ([OPEN] + Joined(sorted)) + [CLOSE];
    LastClose([OPEN] + Joined(sorted));
    assert text[1..|text| - 1] == Joined(sorted);
    assert FirstOf(text, {OPEN, OPEN_BRACE}) == 0;
    if sorted == [] {
      EmptyState();
    } else {
      assert Joined(sorted)[0..] == Joined(sorted);
      ParseUndoesJoined(Joined(sorted), 0, sorted, 0, 0);
    }
  }

  lemma EmptyState()
    ensures Joined([]) == [] && ParseFrom([], 0, 0, 0) == Some([])
  {
    var empty: Bytes := [];
    assert empty[0..0] == [] && Trim(empty) == [];
  }

  /** In particular every state whose names and values avoid a final backslash
      round trips, whatever commas, quotes, separators and brackets they
      contain. */
  lemma OrdinaryTextRoundTrips(sorted: seq<Property>)
    requires |sorted| <= MAXIMUM_PROPERTIES
    requires forall i | 0 <= i < |sorted| ::
      Printable(sorted[i]) && !EndsInBackslash(sorted[i].name) && !EndsInBackslash(sorted[i].value)
    ensures ParseBlockStates(StateString(sorted)) == Some(sorted)
  {
    hide ParseBlockStates, StateString;
    TextRoundTripsExactlyWhen(sorted);
  }

  /** A concrete case: the name `a` followed by a backslash does not come back. */
  lemma BackslashNameIsLost()
    ensures var p := Property([97, BACKSLASH], StringValue, []);
      ParseBlockStates(StateString([p])) != Some([p])
  {
    hide ParseBlockStates, StateString;
    var p := Property([97, BACKSLASH], StringValue, []);
    TextRoundTripsExactlyWhen([p]);
    assert !Clean([p][0], true);
  }
}
