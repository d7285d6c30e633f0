/** The canonical encodings used to compare NBT trees and block states. They are
    comparison oracles, so what matters is that different values never encode
    alike. */
module Canonicals {
  import opened BdxBytes

  /** An NBT tree. Floats are their bit patterns; a compound is the key-ordered
      list its map iterates in; the element type of an empty list is not kept. */
  datatype Tag =
    | TagByte(value: int)
    | TagShort(value: int)
    | TagInt(value: int)
    | TagLong(value: int)
    | TagFloat(bits: nat)
    | TagDouble(bits: nat)
    | TagByteArray(values: seq<int>)
    | TagString(text: Bytes)
    | TagList(items: seq<Tag>)
    | TagCompound(fields: seq<TagField>)
    | TagIntArray(values: seq<int>)
    | TagLongArray(values: seq<int>)

  datatype TagField = TagField(key: Bytes, tag: Tag)

  const COUNT_LIMIT := 0x1_0000_0000

  function Power(size: nat): nat {
    if size == 0 then 1 else 0x100 * Power(size - 1)
  }

  /** `append_integer`: little-endian, two's complement. */
  function Little(unsigned: nat, size: nat): (bytes: Bytes)
    ensures |bytes| == size
  {
    if size == 0 then [] else [unsigned % 0x100] + Little(unsigned / 0x100, size - 1)
  }

  function Integer(value: int, size: nat): (bytes: Bytes)
    ensures |bytes| == size
  {
    PowerIsPositive(size);
    Little(value % Power(size), size)
  }

  lemma {:induction false} PowerIsPositive(size: nat)
    ensures Power(size) > 0
  {
    if size > 0 {
      PowerIsPositive(size - 1);
    }
  }

  predicate FitsSigned(value: int, size: nat)
    requires size > 0
  {
    -(0x80 * Power(size - 1)) <= value < 0x80 * Power(size - 1)
  }

  lemma {:induction false} LittleIsInjective(a: nat, b: nat, size: nat)
    requires a < Power(size) && b < Power(size) && Little(a, size) == Little(b, size)
    ensures a == b
  {
    if size > 0 {
      var x, y := Little(a, size), Little(b, size);
      assert x[0] == a % 0x100 && y[0] == b % 0x100;
      assert x[1..] == Little(a / 0x100, size - 1) && y[1..] == Little(b / 0x100, size - 1);
      LittleIsInjective(a / 0x100, b / 0x100, size - 1);
    }
  }

  lemma SignedIsInjective(a: int, b: int, size: nat)
    requires size > 0 && FitsSigned(a, size) && FitsSigned(b, size) && Integer(a, size) == Integer(b, size)
    ensures a == b
  {
    PowerIsPositive(size);
    var p := Power(size);
    assert p == 2 * (0x80 * Power(size - 1));
    LittleIsInjective(a % p, b % p, size);
    SameResidue(a, b, p);
  }

  lemma SameResidue(a: int, b: int, p: int)
    requires p > 0 && a % p == b % p && -p < a - b < p
    ensures a == b
  {
    var m, n := a / p, b / p;
    assert a == m * p + a % p && b == n * p + b % p;
    assert a - b == (m - n) * p;
    Multiple(m - n, p);
  }

  lemma Multiple(k: int, p: int)
    requires p > 0
    ensures k >= 1 ==> k * p >= p
    ensures k <= -1 ==> k * p <= -p
  {
  }

  /** `append_string`: a length and the bytes. */
  function Text(text: Bytes): Bytes {
    Integer(|text|, 4) + text
  }

  function Integers(values: seq<int>, size: nat): (bytes: Bytes)
    ensures |bytes| == |values| * size
  {
    if values == [] then [] else Integers(values[..|values| - 1], size) + Integer(values[|values| - 1], size)
  }

  /** The type byte of a tag. */
  function Code(tag: Tag): Byte {
    match tag
    case TagByte(_) => 1
    case TagShort(_) => 2
    case TagInt(_) => 3
    case TagLong(_) => 4
    case TagFloat(_) => 5
    case TagDouble(_) => 6
    case TagByteArray(_) => 7
    case TagString(_) => 8
    case TagList(_) => 9
    case TagCompound(_) => 10
    case TagIntArray(_) => 11
    case TagLongArray(_) => 12
  }

  /** `append_tag`. */
  function Encode(tag: Tag): (bytes: Bytes)
    ensures bytes != []
    decreases tag, 1
  {
    [Code(tag)] + Body(tag)
  }

  function Body(tag: Tag): Bytes
    decreases tag, 0
  {
    match tag
    case TagByte(value) => Integer(value, 1)
    case TagShort(value) => Integer(value, 2)
    case TagInt(value) => Integer(value, 4)
    case TagLong(value) => Integer(value, 8)
    case TagFloat(bits) => Integer(bits, 4)
    case TagDouble(bits) => Integer(bits, 8)
    case TagByteArray(values) => Integer(|values|, 4) + Integers(values, 1)
    case TagString(text) => Text(text)
    case TagList(items) => Integer(|items|, 4) + EncodeItems(items)
    case TagCompound(fields) => Integer(|fields|, 4) + EncodeFields(fields)
    case TagIntArray(values) => Integer(|values|, 4) + Integers(values, 4)
    case TagLongArray(values) => Integer(|values|, 4) + Integers(values, 8)
  }

  function EncodeItems(items: seq<Tag>): Bytes
    decreases items
  {
    if items == [] then [] else Encode(items[0]) + EncodeItems(items[1..])
  }

  function EncodeFields(fields: seq<TagField>): Bytes
    decreases fields
  {
    if fields == [] then [] else Text(fields[0].key) + Encode(fields[0].tag) + EncodeFields(fields[1..])
  }

  ghost predicate AllFit(values: seq<int>, size: nat)
    requires size > 0
  {
    |values| < COUNT_LIMIT && forall i | 0 <= i < |values| :: FitsSigned(values[i], size)
  }

  /** The values an NBT library can hold: each number within its type, each
      length within uint32. */
  ghost predicate WellFormed(tag: Tag)
    decreases tag
  {
    match tag
    case TagByte(value) => FitsSigned(value, 1)
    case TagShort(value) => FitsSigned(value, 2)
    case TagInt(value) => FitsSigned(value, 4)
    case TagLong(value) => FitsSigned(value, 8)
    case TagFloat(bits) => bits < Power(4)
    case TagDouble(bits) => bits < Power(8)
    case TagByteArray(values) => AllFit(values, 1)
    case TagString(text) => |text| < COUNT_LIMIT
    case TagList(items) => |items| < COUNT_LIMIT && forall i | 0 <= i < |items| :: WellFormed(items[i])
    case TagCompound(fields) =>
      |fields| < COUNT_LIMIT && forall i | 0 <= i < |fields| ::
        |fields[i].key| < COUNT_LIMIT && WellFormed(fields[i].tag)
    case TagIntArray(values) => AllFit(values, 4)
    case TagLongArray(values) => AllFit(values, 8)
  }

  /** Equal concatenations whose first parts are equally long agree in both
      parts. */
  lemma SplitsAlike(p: Bytes, q: Bytes, x: Bytes, y: Bytes)
    requires p + x == q + y && |p| == |q|
    ensures p == q && x == y
  {
    assert (p + x)[..|p|] == p && (q + y)[..|q|] == q;
    assert (p + x)[|p|..] == x && (q + y)[|q|..] == y;
  }

  lemma PowerFour()
    ensures Power(4) == COUNT_LIMIT
  {
    assert Power(1) == 0x100 && Power(2) == 0x1_0000 && Power(3) == 0x100_0000;
  }

  lemma CountUnique(m: nat, n: nat, x: Bytes, y: Bytes)
    requires m < COUNT_LIMIT && n < COUNT_LIMIT && Integer(m, 4) + x == Integer(n, 4) + y
    ensures m == n && x == y
  {
    PowerFour();
    SplitsAlike(Integer(m, 4), Integer(n, 4), x, y);
    SmallResidues(m, n, COUNT_LIMIT);
    LittleIsInjective(m, n, 4);
  }

  lemma TextUnique(s: Bytes, t: Bytes, x: Bytes, y: Bytes)
    requires |s| < COUNT_LIMIT && |t| < COUNT_LIMIT && Text(s) + x == Text(t) + y
    ensures s == t && x == y
  {
    hide Integer;
    Counted(|s|, s, x, |t|, t, y);
    SplitsAlike(s, t, x, y);
  }

  lemma {:induction false} IntegersUnique(s: seq<int>, t: seq<int>, size: nat, x: Bytes, y: Bytes)
    requires size > 0 && |s| == |t| && AllFit(s, size) && AllFit(t, size)
      && Integers(s, size) + x == Integers(t, size) + y
    ensures s == t && x == y
  {
    SplitsAlike(Integers(s, size), Integers(t, size), x, y);
    if s != [] {
      var last := |s| - 1;
      SplitsAlike(Integers(s[..last], size), Integers(t[..last], size), Integer(s[last], size), Integer(t[last], size));
      SignedIsInjective(s[last], t[last], size);
      IntegersUnique(s[..last], t[..last], size, [], []);
    }
  }

  lemma ArrayUnique(s: seq<int>, t: seq<int>, size: nat, x: Bytes, y: Bytes)
    requires size > 0 && AllFit(s, size) && AllFit(t, size)
    requires Integer(|s|, 4) + Integers(s, size) + x == Integer(|t|, 4) + Integers(t, size) + y
    ensures s == t && x == y
  {
    hide Integer, Integers, FitsSigned;
    Counted(|s|, Integers(s, size), x, |t|, Integers(t, size), y);
    IntegersUnique(s, t, size, x, y);
  }

  /** The encoding is self-delimiting: no encoding continues another, so equal
      streams start with equal trees. */
  lemma {:induction false} TagUnique(a: Tag, b: Tag, x: Bytes, y: Bytes)
    requires WellFormed(a) && WellFormed(b) && Encode(a) + x == Encode(b) + y
    ensures a == b && x == y
    decreases a, 1
  {
    hide Body, WellFormed;
    Reassociate([Code(a)], Body(a), x);
    Reassociate([Code(b)], Body(b), y);
    SplitsAlike([Code(a)], [Code(b)], Body(a) + x, Body(b) + y);
    assert Code(a) == [Code(a)][0] == [Code(b)][0] == Code(b);
    BodyUnique(a, b, x, y);
  }

  lemma Reassociate(p: Bytes, q: Bytes, r: Bytes)
    ensures p + q + r == p + (q + r)
  {
  }

  lemma {:induction false} BodyUnique(a: Tag, b: Tag, x: Bytes, y: Bytes)
    requires WellFormed(a) && WellFormed(b) && Code(a) == Code(b) && Body(a) + x == Body(b) + y
    ensures a == b && x == y
    decreases a, 0
  {
    hide Integer, Integers, EncodeItems, EncodeFields, FitsSigned, AllFit, Power, Text;
    match a {
      case TagByte(value) => ScalarUnique(value, b.value, 1, x, y);
      case TagShort(value) => ScalarUnique(value, b.value, 2, x, y);
      case TagInt(value) => ScalarUnique(value, b.value, 4, x, y);
      case TagLong(value) => ScalarUnique(value, b.value, 8, x, y);
      case TagFloat(bits) => BitsUnique(bits, b.bits, 4, x, y);
      case TagDouble(bits) => BitsUnique(bits, b.bits, 8, x, y);
      case TagByteArray(values) => ArrayUnique(values, b.values, 1, x, y);
      case TagString(text) => TextUnique(text, b.text, x, y);
      case TagList(items) =>
        Counted(|items|, EncodeItems(items), x, |b.items|, EncodeItems(b.items), y);
        ItemsUnique(items, b.items, x, y);
      case TagCompound(fields) =>
        Counted(|fields|, EncodeFields(fields), x, |b.fields|, EncodeFields(b.fields), y);
        FieldsUnique(fields, b.fields, x, y);
      case TagIntArray(values) => ArrayUnique(values, b.values, 4, x, y);
      case TagLongArray(values) => ArrayUnique(values, b.values, 8, x, y);
    }
  }

  lemma Counted(m: nat, u: Bytes, x: Bytes, n: nat, v: Bytes, y: Bytes)
    requires m < COUNT_LIMIT && n < COUNT_LIMIT && Integer(m, 4) + u + x == Integer(n, 4) + v + y
    ensures m == n && u + x == v + y
  {
    hide Integer;
    Reassociate(Integer(m, 4), u, x);
    Reassociate(Integer(n, 4), v, y);
    CountUnique(m, n, u + x, v + y);
  }

  lemma ScalarUnique(a: int, b: int, size: nat, x: Bytes, y: Bytes)
    requires size > 0 && FitsSigned(a, size) && FitsSigned(b, size) && Integer(a, size) + x == Integer(b, size) + y
    ensures a == b && x == y
  {
    SplitsAlike(Integer(a, size), Integer(b, size), x, y);
    SignedIsInjective(a, b, size);
  }

  lemma BitsUnique(a: nat, b: nat, size: nat, x: Bytes, y: Bytes)
    requires a < Power(size) && b < Power(size) && Integer(a, size) + x == Integer(b, size) + y
    ensures a == b && x == y
  {
    SplitsAlike(Integer(a, size), Integer(b, size), x, y);
    SmallResidues(a, b, Power(size));
    LittleIsInjective(a, b, size);
  }

  lemma SmallResidues(a: nat, b: nat, p: nat)
    requires a < p && b < p
    ensures a % p == a && b % p == b
  {
  }

  lemma {:induction false} ItemsUnique(s: seq<Tag>, t: seq<Tag>, x: Bytes, y: Bytes)
    requires |s| == |t| && EncodeItems(s) + x == EncodeItems(t) + y
    requires forall i | 0 <= i < |s| :: WellFormed(s[i])
    requires forall i | 0 <= i < |t| :: WellFormed(t[i])
    ensures s == t && x == y
    decreases s, 2
  {
    hide Encode, WellFormed;
    if s == [] {
      assert [] + x == x && [] + y == y;
    } else {
      Reassociate(Encode(s[0]), EncodeItems(s[1..]), x);
      Reassociate(Encode(t[0]), EncodeItems(t[1..]), y);
      TagUnique(s[0], t[0], EncodeItems(s[1..]) + x, EncodeItems(t[1..]) + y);
      ItemsUnique(s[1..], t[1..], x, y);
      assert s == [s[0]] + s[1..] && t == [t[0]] + t[1..];
    }
  }

  lemma {:induction false} FieldsUnique(s: seq<TagField>, t: seq<TagField>, x: Bytes, y: Bytes)
    requires |s| == |t| && EncodeFields(s) + x == EncodeFields(t) + y
    requires forall i | 0 <= i < |s| :: |s[i].key| < COUNT_LIMIT && WellFormed(s[i].tag)
    requires forall i | 0 <= i < |t| :: |t[i].key| < COUNT_LIMIT && WellFormed(t[i].tag)
    ensures s == t && x == y
    decreases s, 2
  {
    hide Encode, WellFormed, Text;
    if s == [] {
      assert [] + x == x && [] + y == y;
    } else {
      FieldFirst(s, x);
      FieldFirst(t, y);
      var u, v := EncodeFields(s[1..]) + x, EncodeFields(t[1..]) + y;
      TextUnique(s[0].key, t[0].key, Encode(s[0].tag) + u, Encode(t[0].tag) + v);
      TagUnique(s[0].tag, t[0].tag, u, v);
      FieldsUnique(s[1..], t[1..], x, y);
      assert s == [s[0]] + s[1..] && t == [t[0]] + t[1..];
    }
  }

  lemma FieldFirst(s: seq<TagField>, x: Bytes)
    requires s != []
    ensures EncodeFields(s) + x == Text(s[0].key) + (Encode(s[0].tag) + (EncodeFields(s[1..]) + x))
  {
    hide Encode, Text;
    Reassociate(Text(s[0].key) + Encode(s[0].tag), EncodeFields(s[1..]), x);
    Reassociate(Text(s[0].key), Encode(s[0].tag), EncodeFields(s[1..]) + x);
  }

  /** `canonical_nbt` is injective: two trees encode equally exactly when they are
      equal. */
  lemma CanonicalNbtIsInjective(a: Tag, b: Tag)
    requires WellFormed(a) && WellFormed(b)
    ensures Encode(a) == Encode(b) <==> a == b
  {
    if Encode(a) == Encode(b) {
      TagUnique(a, b, [], []);
    }
  }
}
