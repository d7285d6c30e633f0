/** The canonical encodings byte for byte, and block states as they are written in BDX
    files character for character. */
module CanonicalForms {
  import opened Options
  import opened Arithmetic
  import opened BdxBytes
  import opened Decimals
  import opened Canonicals
  import opened CanonicalStates
  import opened BlockStateTexts
  import Fields = CanonicalFields

  /** Byte `i` of an integer holds its bits from 8i on: the lowest byte comes first. */
  lemma {:induction false} ByteOfInteger(value: int, size: nat, i: nat)
    requires i < size
    ensures Canonicals.Power(i) > 0
    ensures Integer(value, size)[i] == value / Canonicals.Power(i) % 0x100
  {
    hide Canonicals.Power, Little;
    Canonicals.PowerIsPositive(size);
    var whole := Canonicals.Power(size);
    ByteOfLittle(value % whole, size, i);
    PowersDivide(i, size);
    SameByte(value, whole, Canonicals.Power(size - i - 1), Canonicals.Power(i));
  }

  lemma SameByte(value: int, whole: nat, rest: nat, p: nat)
    requires p > 0 && whole > 0 && whole == 0x100 * rest * p
    ensures value / p % 0x100 == value % whole / p % 0x100
  {
    var q, r := value / whole, value % whole;
    DivMod(value, whole);
    Regroup(q, rest, p, whole);
    AddMultiple(r, 0x100 * (q * rest), p);
    LowByte(q * rest, r / p);
  }

  lemma DivMod(value: int, d: nat)
    requires d > 0
    ensures value == value / d * d + value % d
  {
  }

  lemma Regroup(q: int, rest: nat, p: nat, whole: nat)
    requires whole == 0x100 * rest * p
    ensures q * whole == 0x100 * (q * rest) * p
  {
  }

  lemma LowByte(k: int, x: nat)
    ensures (0x100 * k + x) % 0x100 == x % 0x100
  {
  }

  lemma AddMultiple(r: nat, q: int, p: nat)
    requires p > 0
    ensures (q * p + r) / p == q + r / p
  {
    var k := q * p + r;
    assert r == r / p * p + r % p;
    assert k == (q + r / p) * p + r % p;
    FloorIsUnique(k, p, q + r / p, r % p);
  }

  lemma FloorIsUnique(k: int, p: nat, q: int, r: nat)
    requires p > 0 && r < p && k == q * p + r
    ensures k / p == q
  {
    var d := k / p;
    assert k == d * p + k % p;
    if d < q {
      Multiples(d, q, p);
    } else if q < d {
      Multiples(q, d, p);
    }
  }

  lemma {:induction false} PowersDivide(i: nat, size: nat)
    requires i < size
    ensures Canonicals.Power(size) == 0x100 * Canonicals.Power(size - i - 1) * Canonicals.Power(i)
  {
    if i > 0 {
      PowersDivide(i - 1, size - 1);
    }
  }

  lemma {:induction false} ByteOfLittle(value: nat, size: nat, i: nat)
    requires i < size
    ensures Canonicals.Power(i) > 0
    ensures Little(value, size)[i] == value / Canonicals.Power(i) % 0x100
  {
    Canonicals.PowerIsPositive(i);
    if i > 0 {
      ByteOfLittle(value / 0x100, size - 1, i - 1);
      Canonicals.PowerIsPositive(i - 1);
      DivideAgain(value, Canonicals.Power(i - 1));
    }
  }

  lemma DivideAgain(k: nat, p: nat)
    requires p > 0
    ensures k / 0x100 / p == k / (0x100 * p)
  {
    var q, r := k / 0x100 / p, k / 0x100 % p;
    Recompose(k / 0x100, p);
    assert k == 0x100 * (q * p + r) + k % 0x100;
    assert q * (0x100 * p) == 0x100 * (q * p);
    UniqueQuotient(k, 0x100 * p, q, 0x100 * r + k % 0x100);
  }

  lemma ShortForms(a: Byte)
    ensures Integer(a, 1) == [a] && Integer(-1, 1) == [255] && Integer(-2, 2) == [254, 255]
  {
    assert Canonicals.Power(0) == 1;
    assert Canonicals.Power(1) == 0x100;
    assert Canonicals.Power(2) == 0x1_0000;
    assert (-1) % 0x100 == 255;
    assert (-2) % 0x1_0000 == 0xfffe;
  }

  lemma LowByteFirst(low: Byte, rest: nat, size: nat)
    ensures Little(low + 0x100 * rest, size + 1) == [low] + Little(rest, size)
  {
    var value: nat := low + 0x100 * rest;
    assert value % 0x100 == low && value / 0x100 == rest;
  }

  lemma FourBytes(a: Byte, b: Byte, c: Byte, d: Byte)
    ensures Integer(a + 0x100 * (b + 0x100 * (c + 0x100 * d)), 4) == [a, b, c, d]
  {
    hide Little, Canonicals.Power;
    PowerFour();
    var v2: nat := c + 0x100 * d;
    LowByteFirst(a, b + 0x100 * v2, 3);
    LowByteFirst(b, v2, 2);
    LowByteFirst(c, d, 1);
    LowByteFirst(d, 0, 0);
    NoBytes();
  }

  lemma NoBytes()
    ensures Little(0, 0) == [] && Canonicals.Power(8) == 0x1_0000_0000_0000_0000
  {
    PowerEight();
  }

  lemma EightBytes(a: Byte, b: Byte, y: Byte, z: Byte)
    ensures Integer(a + 0x100 * b + 0x1_0000_0000_0000 * (y + 0x100 * z), 8) == [a, b, 0, 0, 0, 0, y, z]
  {
    hide Little, Canonicals.Power;
    NoBytes();
    var v6: nat := y + 0x100 * z;
    LowByteFirst(z, 0, 0);
    LowByteFirst(y, z, 1);
    LowByteFirst(0, v6, 2);
    LowByteFirst(0, 0x100 * v6, 3);
    LowByteFirst(0, 0x1_0000 * v6, 4);
    LowByteFirst(0, 0x100_0000 * v6, 5);
    LowByteFirst(b, 0x1_0000_0000 * v6, 6);
    LowByteFirst(a, b + 0x100_0000_0000 * v6, 7);
  }

  /** One tree of every kind, in the type codes of NBT. */
  lemma TreesAreWritten()
    ensures Encode(TagByte(-1)) == [1, 255] && Encode(TagShort(-2)) == [2, 254, 255]
    ensures Encode(TagInt(258)) == [3, 2, 1, 0, 0] && Encode(TagLong(258)) == [4, 2, 1, 0, 0, 0, 0, 0, 0]
    ensures Encode(TagFloat(0x3f80_0000)) == [5, 0, 0, 128, 63]
    ensures Encode(TagDouble(0x3ff0_0000_0000_0000)) == [6, 0, 0, 0, 0, 0, 0, 240, 63]
    ensures Encode(TagString([104, 105])) == [8, 2, 0, 0, 0, 104, 105]
  {
    hide Little;
    ShortForms(0);
    FourBytes(2, 1, 0, 0);
    FourBytes(0, 0, 128, 63);
    FourBytes(2, 0, 0, 0);
    EightBytes(2, 1, 0, 0);
    EightBytes(0, 0, 240, 63);
  }

  lemma OneInteger(value: int, size: nat)
    ensures Integers([value], size) == Integer(value, size)
  {
    assert [value][..0] == [];
  }

  lemma ArraysAreWritten()
    ensures Encode(TagByteArray([1, -1])) == [7, 2, 0, 0, 0, 1, 255]
    ensures Encode(TagIntArray([1])) == [11, 1, 0, 0, 0, 1, 0, 0, 0]
    ensures Encode(TagLongArray([1])) == [12, 1, 0, 0, 0, 1, 0, 0, 0, 0, 0, 0, 0]
  {
    hide Little, Integer, Integers;
    FourBytes(2, 0, 0, 0);
    FourBytes(1, 0, 0, 0);
    EightBytes(1, 0, 0, 0);
    TwoBytes();
    OneInteger(1, 4);
    OneInteger(1, 8);
  }

  lemma TwoBytes()
    ensures Integers([1, -1], 1) == [1, 255]
  {
    hide Little, Integer;
    ShortForms(1);
    OneInteger(1, 1);
    assert [1, -1][..1] == [1];
  }

  lemma ContainersAreWritten()
    ensures Encode(TagList([TagByte(5)])) == [9, 1, 0, 0, 0, 1, 5]
    ensures Encode(TagCompound([TagField([97], TagByte(5))])) == [10, 1, 0, 0, 0, 1, 0, 0, 0, 97, 1, 5]
  {
    hide Little, Integer;
    ShortForms(5);
    FourBytes(1, 0, 0, 0);
    assert Encode(TagByte(5)) == [1, 5];
    assert EncodeItems([TagByte(5)]) == [1, 5] + EncodeItems([TagByte(5)][1..]);
    assert EncodeFields([TagField([97], TagByte(5))])
        == Text([97]) + [1, 5] + EncodeFields([TagField([97], TagByte(5))][1..]);
  }

  /** A block state with a property of every kind: magic, name, version, count, then name,
      type code and value of each property by name. */
  lemma StateIsWritten()
    ensures StateBytes([115], 258, [
          Property([97], ByteValue, [45, 49]), Property([98], ShortValue, [45, 50]), Property([99], IntValue, [49]),
          Property([100], LongValue, [49]), Property([101], StringValue, [49])])
      == Some([87, 83, 66, 83, 1] + [1, 0, 0, 0, 115] + [2, 1, 0, 0] + [5, 0, 0, 0]
        + ([1, 0, 0, 0, 97, 1, 255] + ([1, 0, 0, 0, 98, 2, 254, 255] + ([1, 0, 0, 0, 99, 3, 1, 0, 0, 0]
        + ([1, 0, 0, 0, 100, 4, 1, 0, 0, 0, 0, 0, 0, 0] + ([1, 0, 0, 0, 101, 8, 1, 0, 0, 0, 49] + []))))))
  {
    hide Little, Integer, PropertyBytes;
    FourBytes(2, 1, 0, 0);
    FourBytes(5, 0, 0, 0);
    FourBytes(1, 0, 0, 0);
    PropertiesAreWritten();
    var a, b := Property([97], ByteValue, [45, 49]), Property([98], ShortValue, [45, 50]);
    var c, d, e := Property([99], IntValue, [49]), Property([100], LongValue, [49]), Property([101], StringValue, [49]);
    assert AllPropertyBytes([]) == Some([]);
    assert [e][1..] == [] && [d, e][1..] == [e] && [c, d, e][1..] == [d, e] && [b, c, d, e][1..] == [c, d, e];
    assert [a, b, c, d, e][1..] == [b, c, d, e];
    assert AllPropertyBytes([e]).Some? && AllPropertyBytes([d, e]).Some? && AllPropertyBytes([c, d, e]).Some?;
    assert Text([115]) == [1, 0, 0, 0, 115];
  }

  lemma PropertiesAreWritten()
    ensures PropertyBytes(Property([97], ByteValue, [45, 49])) == Some([1, 0, 0, 0, 97, 1, 255])
    ensures PropertyBytes(Property([98], ShortValue, [45, 50])) == Some([1, 0, 0, 0, 98, 2, 254, 255])
    ensures PropertyBytes(Property([99], IntValue, [49])) == Some([1, 0, 0, 0, 99, 3, 1, 0, 0, 0])
    ensures PropertyBytes(Property([100], LongValue, [49])) == Some([1, 0, 0, 0, 100, 4, 1, 0, 0, 0, 0, 0, 0, 0])
    ensures PropertyBytes(Property([101], StringValue, [49])) == Some([1, 0, 0, 0, 101, 8, 1, 0, 0, 0, 49])
  {
    hide Little, Integer, Parse;
    ShortForms(1);
    FourBytes(1, 0, 0, 0);
    EightBytes(1, 0, 0, 0);
    assert Decimal(-1) == [45, 49] && Decimal(-2) == [45, 50] && Decimal(1) == [49];
    ParseUndoesDecimal(-1, -0x8000_0000_0000_0000, 0x7fff_ffff_ffff_ffff);
    ParseUndoesDecimal(-2, -0x8000_0000_0000_0000, 0x7fff_ffff_ffff_ffff);
    ParseUndoesDecimal(1, -0x8000_0000_0000_0000, 0x7fff_ffff_ffff_ffff);
    assert Text([97]) + [1] + Integer(-1, 1) == [1, 0, 0, 0, 97, 1, 255];
    assert Text([98]) + [2] + Integer(-2, 2) == [1, 0, 0, 0, 98, 2, 254, 255];
    assert Text([99]) + [3] + Integer(1, 4) == [1, 0, 0, 0, 99, 3, 1, 0, 0, 0];
    assert Text([100]) + [4] + Integer(1, 8) == [1, 0, 0, 0, 100, 4, 1, 0, 0, 0, 0, 0, 0, 0];
    assert Text([101]) + [8] + Text([49]) == [1, 0, 0, 0, 101, 8, 1, 0, 0, 0, 49];
  }

  /** The first difference decides, a missing byte counting least. */
  ghost predicate FirstDifference(a: Bytes, b: Bytes, k: nat) {
    && k <= |a| && k < |b| && a[..k] == b[..k]
    && (k == |a| || a[k] < b[k])
  }

  /** Of two different kinds, the one that comes first. */
  predicate Narrower(kind: ValueType, other: ValueType) {
    kind == ByteValue || other == StringValue || (kind == ShortValue && other != ByteValue)
    || (kind == IntValue && other == LongValue)
  }

  /** Properties are ordered by name, those of one name by type, those of one type by
      value. */
  lemma OrderMeans(p: Property, q: Property)
    ensures p.name != q.name ==> (Precedes(p, q) <==> exists k: nat :: FirstDifference(p.name, q.name, k))
    ensures p.name == q.name && p.kind != q.kind ==>
      (Precedes(p, q) <==> Narrower(p.kind, q.kind))
    ensures p.name == q.name && p.kind == q.kind && p.value != q.value ==>
      (Precedes(p, q) <==> exists k: nat :: FirstDifference(p.value, q.value, k))
  {
    BelowMeans(p.name, q.name);
    BelowMeans(p.value, q.value);
  }

  lemma {:induction false} BelowMeans(a: Bytes, b: Bytes)
    ensures Below(a, b) <==> exists k: nat :: FirstDifference(a, b, k)
  {
    if b == [] {
    } else if a == [] || a[0] != b[0] {
      if Below(a, b) {
        assert FirstDifference(a, b, 0);
      }
      assert forall k | 0 < k <= |a| && k <= |b| :: a[..k][0] == a[0] && b[..k][0] == b[0];
    } else {
      BelowMeans(a[1..], b[1..]);
      forall k: nat | FirstDifference(a[1..], b[1..], k)
        ensures FirstDifference(a, b, k + 1)
      {
        assert a[..k + 1] == [a[0]] + a[1..][..k] && b[..k + 1] == [b[0]] + b[1..][..k];
      }
      forall k: nat | FirstDifference(a, b, k)
        ensures k > 0 && FirstDifference(a[1..], b[1..], k - 1)
      {
        assert a[1..][..k - 1] == a[..k][1..] && b[1..][..k - 1] == b[..k][1..];
      }
    }
  }

  /** The path to element 12 under the key `a/~`. */
  lemma PathIsWritten()
    ensures Fields.PathOf([Fields.Key([97, 47, 126]), Fields.Index(12)]) == [47, 97, 126, 49, 126, 48, 47, 49, 50]
  {
    hide Fields.Escape, Decimal;
    EscapeIsWritten();
    var first, second := Fields.Key([97, 47, 126]), Fields.Index(12);
    assert [first, second][1..] == [second] && [second][1..] == [];
    assert Fields.PathOf([]) == [];
    assert Fields.PathOf([second]) == [47, 49, 50];
  }

  lemma EscapeIsWritten()
    ensures Fields.Escape([97, 47, 126]) == [97, 126, 49, 126, 48] && Decimal(12) == [49, 50]
  {
    assert [97, 47, 126][1..] == [47, 126] && [47, 126][1..] == [126] && [126][1..] == [];
    assert Fields.Escape([]) == [] && Fields.Escape([126]) == [126, 48];
    assert Fields.Escape([47, 126]) == [126, 49, 126, 48];
  }

  /** `["a"=true,"b"="x\"y","c"=-12]` is what is printed for its three properties. */
  lemma StateTextIsWritten()
    ensures StateString([Property([97], ByteValue, [49]), Property([98], StringValue, [120, 34, 121]),
        Property([99], IntValue, [45, 49, 50])])
      == [91] + ([34, 97, 34, 61, 116, 114, 117, 101] + [44] + ([34, 98, 34, 61, 34, 120, 92, 34, 121, 34] + [44]
        + [34, 99, 34, 61, 45, 49, 50])) + [93]
  {
    EscapesQuote();
    var a, b := Property([97], ByteValue, [49]), Property([98], StringValue, [120, 34, 121]);
    var c := Property([99], IntValue, [45, 49, 50]);
    hide Escaped;
    assert PropertyText(a) == [34, 97, 34, 61, 116, 114, 117, 101];
    assert PropertyText(b) == [34, 98, 34, 61, 34, 120, 92, 34, 121, 34];
    assert PropertyText(c) == [34, 99, 34, 61, 45, 49, 50];
    assert [a, b, c][1..] == [b, c] && [b, c][1..] == [c];
    hide PropertyText;
    assert Joined([c]) == PropertyText(c);
    assert Joined([b, c]) == PropertyText(b) + [44] + PropertyText(c);
  }

  lemma EscapesQuote()
    ensures Escaped([97]) == [97] && Escaped([98]) == [98] && Escaped([99]) == [99]
    ensures Escaped([120, 34, 121]) == [120, 92, 34, 121]
  {
    assert [120, 34, 121][1..] == [34, 121] && [34, 121][1..] == [121] && [121][1..] == [];
    assert Escaped([]) == [];
    assert Escaped([121]) == [121];
    assert Escaped([34, 121]) == [92, 34, 121];
    assert [97][1..] == [] && [98][1..] == [] && [99][1..] == [];
  }

  /** `{ "a" : TRUE }` is read as one property too: braces, a colon, blanks and upper
      case are accepted. */
  lemma OtherTextIsRead()
    ensures ParseBlockStates([123, 32, 34, 97, 34, 32, 58, 32, 84, 82, 85, 69, 32, 125])
      == Some([Property([97], ByteValue, [49])])
  {
    hide ParseFrom, FirstOf, LastOf;
    var text := [123, 32, 34, 97, 34, 32, 58, 32, 84, 82, 85, 69, 32, 125];
    var part := [32, 34, 97, 34, 32, 58, 32, 84, 82, 85, 69, 32];
    Braces(text);
    assert forall i | 0 <= i < 12 :: text[1..13][i] == part[i];
    assert text[1..13] == part;
    OnePartIsRead(part);
  }

  lemma Braces(text: Bytes)
    requires |text| == 14 && text[0] == 123 && text[13] == 125
    ensures FirstOf(text, {OPEN, OPEN_BRACE}) == 0 && LastOf(text, {CLOSE, CLOSE_BRACE}) == Some(13)
  {
  }

  lemma OnePartIsRead(part: Bytes)
    requires part == [32, 34, 97, 34, 32, 58, 32, 84, 82, 85, 69, 32]
    ensures ParseFrom(part, 0, 0, 0) == Some([Property([97], ByteValue, [49])])
  {
    hide FirstUnquoted, Unquote, BlockStateTexts.Trim, ParseValue;
    NoCommas(part, 0, false);
    ColonAt(part);
    assert part[0..12] == part && part[..5] == [32, 34, 97, 34, 32] && part[6..] == [32, 84, 82, 85, 69, 32];
    Trimmed();
    TrueIsRead();
  }

  lemma TrueIsRead()
    ensures ParseValue([97], [84, 82, 85, 69]) == Some(Property([97], ByteValue, [49]))
  {
    assert Lowered([84, 82, 85, 69]) == TRUE;
  }

  lemma {:induction false} NoCommas(text: Bytes, i: nat, quoted: bool)
    requires i <= |text| && COMMA !in text
    ensures FirstUnquoted(text, i, quoted, {COMMA}) == |text|
    decreases |text| - i
  {
    if i < |text| {
      NoCommas(text, i + 1, if Toggles(text, i) then !quoted else quoted);
    }
  }

  lemma ColonAt(part: Bytes)
    requires part == [32, 34, 97, 34, 32, 58, 32, 84, 82, 85, 69, 32]
    ensures FirstUnquoted(part, 0, false, {EQUALS, COLON}) == 5
  {
    assert FirstUnquoted(part, 5, false, {EQUALS, COLON}) == 5;
    assert FirstUnquoted(part, 4, false, {EQUALS, COLON}) == 5;
    assert FirstUnquoted(part, 3, true, {EQUALS, COLON}) == 5;
    assert FirstUnquoted(part, 2, true, {EQUALS, COLON}) == 5;
    assert FirstUnquoted(part, 1, false, {EQUALS, COLON}) == 5;
  }

  lemma Trimmed()
    ensures BlockStateTexts.Trim([32, 34, 97, 34, 32]) == [34, 97, 34] && Unquote([34, 97, 34]) == [97]
    ensures BlockStateTexts.Trim([32, 84, 82, 85, 69, 32]) == [84, 82, 85, 69]
  {
    assert [32, 34, 97, 34, 32][1..] == [34, 97, 34, 32] && [34, 97, 34, 32][..3] == [34, 97, 34];
    assert [32, 84, 82, 85, 69, 32][1..] == [84, 82, 85, 69, 32] && [84, 82, 85, 69, 32][..4] == [84, 82, 85, 69];
    assert BlockStateTexts.TrimLeft([32, 34, 97, 34, 32]) == [34, 97, 34, 32];
    assert BlockStateTexts.TrimLeft([32, 84, 82, 85, 69, 32]) == [84, 82, 85, 69, 32];
    assert UnquotedFrom([34, 97, 34], 2) == [];
  }
}
