/** The recursive functions of the canonical encoder, which append to one output
    vector in place. */
module CanonicalBuffers {
  import opened BdxBytes
  import opened Canonicals

  lemma {:induction false} LittleAt(unsigned: nat, size: nat, i: nat)
    requires i < size
    ensures Power(i) > 0 && Little(unsigned, size)[i] == unsigned / Power(i) % 0x100
  {
    PowerIsPositive(i);
    if i > 0 {
      LittleAt(unsigned / 0x100, size - 1, i - 1);
      DivideTwice(unsigned, Power(i - 1));
    }
  }

  lemma DivideTwice(n: nat, p: nat)
    requires p > 0
    ensures n / 0x100 / p == n / (0x100 * p)
  {
    var q: int := n / 0x100 / p;
    assert q * p <= n / 0x100 < (q + 1) * p;
    assert q * (0x100 * p) <= n < (q + 1) * (0x100 * p) by {
      assert n == n / 0x100 * 0x100 + n % 0x100;
      assert (q + 1) * p >= n / 0x100 + 1;
    }
    Quotient(n, 0x100 * p, q);
  }

  lemma Quotient(n: int, d: int, q: int)
    requires d > 0 && q * d <= n < (q + 1) * d
    ensures n / d == q
  {
    var r := n / d;
    assert r * d <= n < (r + 1) * d;
    Monotone(r + 1, q, d);
    Monotone(q + 1, r, d);
  }

  lemma Monotone(a: int, b: int, d: int)
    requires d > 0
    ensures a <= b ==> a * d <= b * d
  {
  }

  class Buffer {
    var bytes: Bytes

    constructor (bytes: Bytes)
      ensures this.bytes == bytes
    {
      this.bytes := bytes;
    }

    /** `append_integer`: byte `i` is the value shifted right by `8 * i` bits. */
    method AppendInteger(value: int, size: nat)
      modifies this
      ensures bytes == old(bytes) + Integer(value, size)
    {
      PowerIsPositive(size);
      var encoded := value % Power(size);
      ghost var whole := Little(encoded, size);
      for i := 0 to size
        invariant bytes == old(bytes) + whole[..i]
      {
        LittleAt(encoded, size, i);
        bytes := bytes + [encoded / Power(i) % 0x100];
      }
      assert whole[..size] == whole;
    }

    method AppendString(text: Bytes) returns (ok: bool)
      modifies this
      ensures ok <==> |text| < COUNT_LIMIT
      ensures ok ==> bytes == old(bytes) + Text(text)
    {
      if |text| >= COUNT_LIMIT {
        return false;
      }
      hide Integer;
      AppendInteger(|text|, 4);
      bytes := bytes + text;
      ok := true;
    }

    method AppendIntegers(values: seq<int>, size: nat)
      modifies this
      ensures bytes == old(bytes) + Integer(|values|, 4) + Integers(values, size)
    {
      hide Integer;
      AppendInteger(|values|, 4);
      ghost var before := bytes;
      for i := 0 to |values|
        invariant bytes == before + Integers(values[..i], size)
      {
        assert values[..i + 1][..i] == values[..i];
        AppendInteger(values[i], size);
      }
      assert values[..|values|] == values;
    }

    /** `append_tag`. */
    method AppendTag(tag: Tag) returns (ok: bool)
      modifies this
      ensures WellFormed(tag) ==> ok
      ensures ok ==> bytes == old(bytes) + Encode(tag)
      decreases tag, 1
    {
      hide Integer, Integers, Text, EncodeItems, EncodeFields, AllFit, FitsSigned;
      bytes := bytes + [Code(tag)];
      ok := AppendBody(tag);
    }

    method AppendBody(tag: Tag) returns (ok: bool)
      modifies this
      ensures WellFormed(tag) ==> ok
      ensures ok ==> bytes == old(bytes) + Body(tag)
      decreases tag, 0
    {
      hide Integer, Integers, Text, EncodeItems, EncodeFields, AllFit, FitsSigned;
      ok := true;
      match tag
      case TagByte(value) => AppendInteger(value, 1);
      case TagShort(value) => AppendInteger(value, 2);
      case TagInt(value) => AppendInteger(value, 4);
      case TagLong(value) => AppendInteger(value, 8);
      case TagFloat(bits) => AppendInteger(bits, 4);
      case TagDouble(bits) => AppendInteger(bits, 8);
      case TagByteArray(values) => AppendIntegers(values, 1);
      case TagString(text) => ok := AppendString(text);
      case TagList(items) =>
        AppendInteger(|items|, 4);
        ok := AppendItems(items);
      case TagCompound(fields) =>
        AppendInteger(|fields|, 4);
        ok := AppendFields(fields);
      case TagIntArray(values) => AppendIntegers(values, 4);
      case TagLongArray(values) => AppendIntegers(values, 8);
    }

    method AppendItems(items: seq<Tag>) returns (ok: bool)
      modifies this
      ensures (forall i | 0 <= i < |items| :: WellFormed(items[i])) ==> ok
      ensures ok ==> bytes == old(bytes) + EncodeItems(items)
      decreases items, 2
    {
      hide Encode, WellFormed;
      NoItems();
      ghost var start := bytes;
      for i := 0 to |items|
        invariant start + EncodeItems(items) == bytes + EncodeItems(items[i..])
      {
        assert items[i..][1..] == items[i + 1..];
        ghost var before := bytes;
        ok := AppendTag(items[i]);
        if !ok {
          return;
        }
        Reassociate(before, Encode(items[i]), EncodeItems(items[i + 1..]));
      }
      assert items[|items|..] == [] && bytes + [] == bytes;
      ok := true;
    }

    lemma NoItems()
      ensures EncodeItems([]) == [] && EncodeFields([]) == []
    {
    }

    method AppendFields(fields: seq<TagField>) returns (ok: bool)
      modifies this
      ensures (forall i | 0 <= i < |fields| :: |fields[i].key| < COUNT_LIMIT && WellFormed(fields[i].tag)) ==> ok
      ensures ok ==> bytes == old(bytes) + EncodeFields(fields)
      decreases fields, 2
    {
      hide Encode, WellFormed, Text;
      NoItems();
      ghost var start := bytes;
      for i := 0 to |fields|
        invariant start + EncodeFields(fields) == bytes + EncodeFields(fields[i..])
      {
        assert fields[i..][1..] == fields[i + 1..];
        ghost var before := bytes;
        ok := AppendString(fields[i].key);
        if ok {
          ok := AppendTag(fields[i].tag);
        }
        if !ok {
          return;
        }
        FieldAppended(before, Text(fields[i].key), Encode(fields[i].tag), EncodeFields(fields[i + 1..]));
      }
      assert fields[|fields|..] == [] && bytes + [] == bytes;
      ok := true;
    }
  }

  lemma FieldAppended(before: Bytes, key: Bytes, tag: Bytes, rest: Bytes)
    ensures before + (key + tag + rest) == before + key + tag + rest
  {
  }
}
