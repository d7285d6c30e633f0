/** The rune cipher of FuHongV5 files: UTF-8 in, each rune shifted and masked by
    its index, UTF-8 out. */
module FuHongCiphers {
  import opened Options
  import opened Arithmetic
  import opened BdxBytes

  const KEY: Bytes := [70, 117, 72, 111, 110, 103, 66, 117, 105, 108, 100]  // "FuHongBuild"
  const LAST_RUNE := 0x10_ffff

  datatype Rune = Rune(value: nat, length: nat)

  /** A Unicode scalar value: in range and not a surrogate. */
  predicate Scalar(value: int) {
    0 <= value <= LAST_RUNE && !(0xd800 <= value <= 0xdfff)
  }

  predicate Continues(b: Byte) {
    0x80 <= b < 0xc0
  }

  /** The sequence length and the payload bits a leading byte announces (section
      3 of RFC 3629). */
  function Leading(first: Byte): Option<Rune> {
    if first < 0x80 then Some(Rune(first, 1))
    else if 0xc0 <= first < 0xe0 then Some(Rune(first - 0xc0, 2))
    else if 0xe0 <= first < 0xf0 then Some(Rune(first - 0xe0, 3))
    else if 0xf0 <= first < 0xf8 then Some(Rune(first - 0xf0, 4))
    else None
  }

  /** The continuation bytes, six bits each. */
  function Tail(bytes: Bytes, at: nat, count: nat, value: nat): Option<nat>
    decreases count
  {
    if count == 0 then Some(value)
    else if at >= |bytes| || !Continues(bytes[at]) then None
    else Tail(bytes, at + 1, count - 1, value * 0x40 + (bytes[at] - 0x80))
  }

  /** `decode_utf8` of the writer: overlong forms and surrogates pass. */
  function DecodeRune(bytes: Bytes, at: nat): (rune: Option<Rune>)
    requires at < |bytes|
    ensures rune.Some? ==> rune.value.length > 0 && at + rune.value.length <= |bytes|
  {
    match Leading(bytes[at])
    case None => None
    case Some(lead) =>
      if lead.length > |bytes| - at then None
      else
        match Tail(bytes, at + 1, lead.length - 1, lead.value)
        case None => None
        case Some(value) => Some(Rune(value, lead.length))
  }

  function Minimum(length: nat): nat {
    if length <= 1 then 0 else if length == 2 then 0x80 else if length == 3 then 0x800 else 0x1_0000
  }

  /** `append_utf8`. */
  function AppendUtf8(value: nat): (bytes: Bytes)
    requires value < 0x20_0000
    ensures 1 <= |bytes| <= 4
  {
    if value <= 0x7f then [value]
    else if value <= 0x7ff then [0xc0 + value / 0x40, 0x80 + value % 0x40]
    else if value <= 0xffff then [0xe0 + value / 0x1000, 0x80 + value / 0x40 % 0x40, 0x80 + value % 0x40]
    else
      [0xf0 + value / 0x4_0000, 0x80 + value / 0x1000 % 0x40, 0x80 + value / 0x40 % 0x40, 0x80 + value % 0x40]
  }

  predicate Holds(bytes: Bytes, at: nat, part: Bytes) {
    at + |part| <= |bytes| && bytes[at..at + |part|] == part
  }

  /** Decoding what was appended, in its shortest form. */
  lemma DecodeUndoesAppend(bytes: Bytes, at: nat, value: nat)
    requires value < 0x20_0000 && Holds(bytes, at, AppendUtf8(value))
    ensures DecodeRune(bytes, at) == Some(Rune(value, |AppendUtf8(value)|))
    ensures value >= Minimum(|AppendUtf8(value)|)
  {
    var code := AppendUtf8(value);
    var part := bytes[at..at + |code|];
    assert forall k | 0 <= k < |code| :: part[k] == bytes[at + k];
    Sextets(value);
    assert part[0] == code[0];
    if |code| == 2 {
      assert part[1] == code[1];
      TailTwo(bytes, at + 1, value);
    } else if |code| == 3 {
      assert part[1] == code[1] && part[2] == code[2];
      TailThree(bytes, at + 1, value);
    } else if |code| == 4 {
      assert part[1] == code[1] && part[2] == code[2] && part[3] == code[3];
      TailFour(bytes, at + 1, value);
    }
  }

  lemma Sextets(value: nat)
    ensures value == value / 0x40 * 0x40 + value % 0x40
    ensures value / 0x40 == value / 0x1000 * 0x40 + value / 0x40 % 0x40
    ensures value / 0x1000 == value / 0x4_0000 * 0x40 + value / 0x1000 % 0x40
  {
  }

  lemma TailTwo(bytes: Bytes, at: nat, value: nat)
    requires at < |bytes| && bytes[at] == 0x80 + value % 0x40
    ensures Tail(bytes, at, 1, value / 0x40) == Some(value)
  {
    Sextets(value);
    assert Tail(bytes, at + 1, 0, value) == Some(value);
  }

  lemma TailThree(bytes: Bytes, at: nat, value: nat)
    requires at + 1 < |bytes| && bytes[at] == 0x80 + value / 0x40 % 0x40 && bytes[at + 1] == 0x80 + value % 0x40
    ensures Tail(bytes, at, 2, value / 0x1000) == Some(value)
  {
    Sextets(value);
    TailTwo(bytes, at + 1, value);
  }

  lemma TailFour(bytes: Bytes, at: nat, value: nat)
    requires at + 2 < |bytes| && bytes[at] == 0x80 + value / 0x1000 % 0x40
    requires bytes[at + 1] == 0x80 + value / 0x40 % 0x40 && bytes[at + 2] == 0x80 + value % 0x40
    ensures Tail(bytes, at, 3, value / 0x4_0000) == Some(value)
  {
    Sextets(value);
    TailThree(bytes, at + 1, value);
  }

  /** Exclusive or of the low `bits` bits, bit by bit. */
  function Xor(a: nat, b: nat, bits: nat): nat {
    if bits == 0 then 0 else (a % 2 + b % 2) % 2 + 2 * Xor(a / 2, b / 2, bits - 1)
  }

  lemma {:induction false} XorFits(a: nat, b: nat, bits: nat)
    ensures Xor(a, b, bits) < Power(bits)
  {
    if bits > 0 {
      XorFits(a / 2, b / 2, bits - 1);
    }
  }

  lemma {:induction false} XorTwice(a: nat, b: nat, bits: nat)
    requires a < Power(bits)
    ensures Xor(Xor(a, b, bits), b, bits) == a
  {
    hide Xor;
    if bits == 0 {
      XorNothing(Xor(a, b, 0), b);
    } else {
      XorTwice(a / 2, b / 2, bits - 1);
      XorHalves(a, b, bits);
      XorHalves(Xor(a, b, bits), b, bits);
    }
  }

  lemma XorNothing(a: nat, b: nat)
    ensures Xor(a, b, 0) == 0
  {
  }

  lemma XorHalves(a: nat, b: nat, bits: nat)
    requires bits > 0
    ensures Xor(a, b, bits) % 2 == (a % 2 + b % 2) % 2 && Xor(a, b, bits) / 2 == Xor(a / 2, b / 2, bits - 1)
  {
  }

  lemma PowerEight()
    ensures Power(8) == 0x100
  {
    assert Power(4) == 16;
  }

  function XorByte(a: Byte, b: Byte): Byte {
    XorFits(a, b, 8);
    PowerEight();
    Xor(a, b, 8)
  }

  /** A rune masked with a key byte: only its low eight bits change. */
  function Mask(value: nat, key: Byte): (masked: nat)
    ensures masked / 0x100 == value / 0x100
  {
    value / 0x100 * 0x100 + XorByte(value % 0x100, key)
  }

  lemma MaskTwice(value: nat, key: Byte)
    ensures Mask(Mask(value, key), key) == value
  {
    PowerEight();
    XorTwice(value % 0x100, key, 8);
  }

  function KeyAt(index: nat): Byte {
    KEY[index % |KEY|]
  }

  function Encrypt(value: nat, index: nat): nat {
    Mask(value, KeyAt(index)) + index % 3
  }

  /** The reader's inverse; a negative shift leaves a negative number after the
      mask, which is refused like any other non-scalar. */
  function DecryptRune(value: nat, index: nat): Option<nat> {
    if value < index % 3 then None
    else
      var plain := Mask(value - index % 3, KeyAt(index));
      if Scalar(plain) then Some(plain) else None
  }

  lemma DecryptUndoesEncrypt(value: nat, index: nat)
    ensures DecryptRune(Encrypt(value, index), index) == if Scalar(value) then Some(value) else None
  {
    hide Mask, KeyAt, Scalar;
    MaskTwice(value, KeyAt(index));
    assert Encrypt(value, index) - index % 3 == Mask(value, KeyAt(index));
  }

  /** `encode_v5` from byte `at` and rune `index` on. */
  function Encode(plain: Bytes, at: nat, index: nat): Option<Bytes>
    requires at <= |plain|
    decreases |plain| - at
  {
    if at == |plain| then Some([])
    else
      match DecodeRune(plain, at)
      case None => None
      case Some(rune) =>
        var encrypted := Encrypt(rune.value, index);
        if !Scalar(encrypted) then None
        else
          match Encode(plain, at + rune.length, index + 1)
          case None => None
          case Some(rest) => Some(AppendUtf8(encrypted) + rest)
  }

  /** One rune of the decrypting reader, which insists on the shortest form of a
      scalar value. */
  function ReadRune(bytes: Bytes, at: nat, index: nat): (r: Option<Rune>)
    requires at < |bytes|
    ensures r.Some? ==> Scalar(r.value.value) && r.value.length > 0 && at + r.value.length <= |bytes|
  {
    match DecodeRune(bytes, at)
    case None => None
    case Some(rune) =>
      if rune.value < Minimum(rune.length) || !Scalar(rune.value) then None
      else
        match DecryptRune(rune.value, index)
        case None => None
        case Some(plain) => Some(Rune(plain, rune.length))
  }

  /** The whole decryption from byte `at` and rune `index` on. */
  function Decrypt(bytes: Bytes, at: nat, index: nat): Option<Bytes>
    requires at <= |bytes|
    decreases |bytes| - at
  {
    if at == |bytes| then Some([])
    else
      match ReadRune(bytes, at, index)
      case None => None
      case Some(rune) =>
        match Decrypt(bytes, at + rune.length, index + 1)
        case None => None
        case Some(rest) => Some(AppendUtf8(rune.value) + rest)
  }

  /** An empty payload is refused. */
  function DecryptAll(bytes: Bytes): Option<Bytes> {
    if bytes == [] then None else Decrypt(bytes, 0, 0)
  }

  /** A text re-encoded rune by rune, if all of them are scalar. */
  function Normalized(plain: Bytes, at: nat): Option<Bytes>
    requires at <= |plain|
    decreases |plain| - at
  {
    if at == |plain| then Some([])
    else
      match DecodeRune(plain, at)
      case None => None
      case Some(rune) =>
        if !Scalar(rune.value) then None
        else
          match Normalized(plain, at + rune.length)
          case None => None
          case Some(rest) => Some(AppendUtf8(rune.value) + rest)
  }

  lemma HoldsBoth(bytes: Bytes, at: nat, a: Bytes, b: Bytes)
    requires Holds(bytes, at, a + b)
    ensures Holds(bytes, at, a) && Holds(bytes, at + |a|, b)
  {
    assert bytes[at..at + |a + b|][..|a|] == a && bytes[at..at + |a + b|][|a|..] == b;
  }

  /** Decrypting an encoded text normalises it. */
  lemma {:induction false} DecryptOfEncode(plain: Bytes, at: nat, index: nat, bytes: Bytes, from: nat)
    requires at <= |plain| && from <= |bytes| && Encode(plain, at, index) == Some(bytes[from..])
    ensures Decrypt(bytes, from, index) == Normalized(plain, at)
    decreases |plain| - at
  {
    hide DecodeRune, Encrypt, AppendUtf8, Scalar;
    if at < |plain| {
      var rune := DecodeRune(plain, at).value;
      var code := AppendUtf8(Encrypted(rune.value, index));
      var rest := Encode(plain, at + rune.length, index + 1).value;
      assert Holds(bytes, from, code + rest);
      HoldsBoth(bytes, from, code, rest);
      RuneReads(bytes, from, rune.value, index);
      assert bytes[from + |code|..] == rest;
      DecryptOfEncode(plain, at + rune.length, index + 1, bytes, from + |code|);
    }
  }

  function Encrypted(value: nat, index: nat): (e: nat)
    requires Scalar(Encrypt(value, index))
    ensures e == Encrypt(value, index) && e < 0x20_0000
  {
    Encrypt(value, index)
  }

  lemma RuneReads(bytes: Bytes, at: nat, value: nat, index: nat)
    requires Scalar(Encrypt(value, index)) && Holds(bytes, at, AppendUtf8(Encrypt(value, index)))
    ensures at < |bytes|
    ensures ReadRune(bytes, at, index)
      == if Scalar(value) then Some(Rune(value, |AppendUtf8(Encrypt(value, index))|)) else None
  {
    DecodeUndoesAppend(bytes, at, Encrypt(value, index));
    DecryptUndoesEncrypt(value, index);
    hide Encrypt, AppendUtf8, DecodeRune, DecryptRune;
  }

  type ScalarValue = v: int | Scalar(v)

  /** The shortest UTF-8 form of a sequence of runes. */
  function Utf8(runes: seq<ScalarValue>): Bytes {
    if runes == [] then [] else AppendUtf8(runes[0]) + Utf8(runes[1..])
  }

  /** Well-formed UTF-8 (section 4 of RFC 3629). */
  ghost predicate ValidUtf8(text: Bytes) {
    exists runes :: text == Utf8(runes)
  }

  lemma {:induction false} ValidIsNormal(plain: Bytes, at: nat, runes: seq<ScalarValue>)
    requires at <= |plain| && plain[at..] == Utf8(runes)
    ensures Normalized(plain, at) == Some(plain[at..])
    decreases |runes|
  {
    if runes != [] {
      var code, rest := AppendUtf8(runes[0]), runes[1..];
      assert Holds(plain, at, code + Utf8(rest));
      HoldsBoth(plain, at, code, Utf8(rest));
      DecodeUndoesAppend(plain, at, runes[0]);
      hide DecodeRune, AppendUtf8, Scalar;
      assert plain[at + |code|..] == Utf8(rest);
      ValidIsNormal(plain, at + |code|, rest);
    }
  }

  lemma {:induction false} NormalIsValid(plain: Bytes, at: nat) returns (runes: seq<ScalarValue>)
    requires at <= |plain| && Normalized(plain, at).Some?
    ensures Normalized(plain, at).value == Utf8(runes)
    decreases |plain| - at
  {
    hide DecodeRune, AppendUtf8;
    if at == |plain| {
      runes := [];
    } else {
      var rune := DecodeRune(plain, at).value;
      var rest := NormalIsValid(plain, at + rune.length);
      runes := [rune.value] + rest;
      assert runes[1..] == rest;
    }
  }

  /** Decrypting what was encrypted gives the text back exactly when it is
      non-empty and well-formed UTF-8. */
  lemma CipherRoundTripsExactlyWhen(plain: Bytes)
    requires Encode(plain, 0, 0).Some?
    ensures DecryptAll(Encode(plain, 0, 0).value) == Some(plain) <==> plain != [] && ValidUtf8(plain)
  {
    hide Decrypt, Normalized, Encode;
    var bytes := Encode(plain, 0, 0).value;
    assert bytes[0..] == bytes && plain[0..] == plain;
    DecryptOfEncode(plain, 0, 0, bytes, 0);
    EmptyEncodes(plain);
    if ValidUtf8(plain) {
      var runes: seq<ScalarValue> :| plain == Utf8(runes);
      ValidIsNormal(plain, 0, runes);
    }
    if Normalized(plain, 0) == Some(plain) {
      var runes := NormalIsValid(plain, 0);
    }
  }

  lemma EmptyEncodes(plain: Bytes)
    requires Encode(plain, 0, 0).Some?
    ensures Encode(plain, 0, 0).value == [] <==> plain == []
  {
  }

  // The cipher in plain words.

  const KEY_TEXT := "FuHongBuild"

  const WEIGHTS: seq<nat> := [1, 2, 4, 8, 16, 32, 64, 128]

  predicate Bit(value: nat, k: nat)
    requires k < 8
  {
    assert WEIGHTS[k] > 0;
    value / WEIGHTS[k] % 2 == 1
  }

  /** Bit by bit the exclusive or of `value` and the key character, above the eighth bit
      `value` itself. */
  predicate MaskedBy(masked: int, value: int, key: char) {
    && masked >= 0 && value >= 0 && masked / 256 == value / 256
    && forall k | 0 <= k < 8 :: Bit(masked, k) <==> Bit(value, k) != Bit(key as int, k)
  }

  /** Rune `i` is masked by the key character in turn and shifted by 0, 1, 2 in turn. */
  predicate Ciphers(masked: seq<ScalarValue>, plain: seq<ScalarValue>, index: nat) {
    && |masked| == |plain|
    && forall i | 0 <= i < |plain| ::
      MaskedBy(masked[i] - (index + i) % 3, plain[i], KEY_TEXT[(index + i) % 11])
  }

  function Shifted(value: nat, k: nat): nat {
    if k == 0 then value else Shifted(value / 2, k - 1)
  }

  lemma {:induction false} XorBit(a: nat, b: nat, bits: nat, k: nat)
    requires k < bits
    ensures Shifted(Xor(a, b, bits), k) % 2 == (Shifted(a, k) % 2 + Shifted(b, k) % 2) % 2
  {
    XorHalves(a, b, bits);
    if k > 0 {
      XorBit(a / 2, b / 2, bits - 1, k - 1);
    }
  }

  lemma {:induction false} ShiftIs(value: nat, k: nat)
    requires k < 8
    ensures WEIGHTS[k] > 0 && Shifted(value, k) == value / WEIGHTS[k]
  {
    if k > 0 {
      ShiftIs(value / 2, k - 1);
      Halved(value, k);
    }
  }

  lemma Halved(value: nat, k: nat)
    requires 0 < k < 8
    ensures WEIGHTS[k - 1] > 0 && WEIGHTS[k] > 0 && value / 2 / WEIGHTS[k - 1] == value / WEIGHTS[k]
  {
    if k == 1 {
    } else if k == 2 {
      assert value / 2 / 2 == value / 4;
    } else if k == 3 {
      assert value / 2 / 4 == value / 8;
    } else if k == 4 {
      assert value / 2 / 8 == value / 16;
    } else if k == 5 {
      assert value / 2 / 16 == value / 32;
    } else if k == 6 {
      assert value / 2 / 32 == value / 64;
    } else {
      assert value / 2 / 64 == value / 128;
    }
  }

  lemma XorBits(a: Byte, b: Byte)
    ensures var c := XorByte(a, b); forall k | 0 <= k < 8 :: Bit(c, k) <==> Bit(a, k) != Bit(b, k)
  {
    hide Xor, Shifted;
    forall k | 0 <= k < 8
      ensures Bit(XorByte(a, b), k) <==> Bit(a, k) != Bit(b, k)
    {
      XorBit(a, b, 8, k);
      ShiftIs(a, k);
      ShiftIs(b, k);
      ShiftIs(XorByte(a, b), k);
    }
  }

  /** The only number that is `value` masked. */
  lemma MaskIsMaskedBy(masked: int, value: nat, key: char)
    requires key as int < 256
    ensures MaskedBy(masked, value, key) <==> masked == Mask(value, key as int)
  {
    hide XorByte, Bit;
    var low, code: Byte := value % 0x100, key as int;
    XorBits(low, code);
    forall k | 0 <= k < 8
      ensures Bit(value, k) == Bit(low, k) && Bit(Mask(value, code), k) == Bit(XorByte(low, code), k)
    {
      LowBits(value, k);
      LowBits(Mask(value, code), k);
    }
    if MaskedBy(masked, value, key) {
      forall k | 0 <= k < 8
        ensures Bit(masked % 0x100, k) == Bit(XorByte(low, code), k)
      {
        LowBits(masked, k);
      }
      SameBits(masked % 0x100, XorByte(low, code));
    }
  }

  lemma LowBits(value: nat, k: nat)
    requires k < 8
    ensures Bit(value, k) == Bit(value % 0x100, k)
  {
    PowerEight();
    LowShifts(value, value / 0x100, value % 0x100, 8, k);
    ShiftIs(value, k);
    ShiftIs(value % 0x100, k);
  }

  lemma {:induction false} LowShifts(value: nat, q: nat, r: nat, bits: nat, k: nat)
    requires k < bits && value == q * Power(bits) + r
    ensures Shifted(value, k) % 2 == Shifted(r, k) % 2
  {
    assert q * Power(bits) == 2 * (q * Power(bits - 1));
    if k > 0 {
      LowShifts(value / 2, q, r / 2, bits - 1, k - 1);
    }
  }

  /** Bytes with the same bits are the same. */
  lemma SameBits(a: Byte, b: Byte)
    requires forall k | 0 <= k < 8 :: Bit(a, k) == Bit(b, k)
    ensures a == b
  {
    PowerEight();
    forall k: nat | k < 8
      ensures Shifted(a, k) % 2 == Shifted(b, k) % 2
    {
      ShiftIs(a, k);
      ShiftIs(b, k);
      assert Bit(a, k) == Bit(b, k);
    }
    SameShifts(a, b, 8);
  }

  lemma {:induction false} SameShifts(a: nat, b: nat, bits: nat)
    requires a < Power(bits) && b < Power(bits)
    requires forall k: nat | k < bits :: Shifted(a, k) % 2 == Shifted(b, k) % 2
    ensures a == b
  {
    if bits > 0 {
      assert Shifted(a, 0) % 2 == Shifted(b, 0) % 2;
      forall k: nat | k < bits - 1
        ensures Shifted(a / 2, k) % 2 == Shifted(b / 2, k) % 2
      {
        assert Shifted(a, k + 1) % 2 == Shifted(b, k + 1) % 2;
      }
      SameShifts(a / 2, b / 2, bits - 1);
    }
  }

  lemma KeyText(index: nat)
    ensures KEY_TEXT[index % 11] as int == KeyAt(index) && KEY_TEXT[index % 11] as int < 256
  {
    var k := index % 11;
    assert KEY_TEXT[k] as int == KEY[k];
  }

  lemma CipheredRune(masked: int, value: nat, index: nat)
    ensures MaskedBy(masked - index % 3, value, KEY_TEXT[index % 11]) <==> masked == Encrypt(value, index)
  {
    KeyText(index);
    MaskIsMaskedBy(masked - index % 3, value, KEY_TEXT[index % 11]);
  }

  lemma CiphersOfRest(masked: seq<ScalarValue>, plain: seq<ScalarValue>, index: nat)
    requires plain != [] && Ciphers(masked, plain, index)
    ensures Ciphers(masked[1..], plain[1..], index + 1)
    ensures masked[0] == Encrypt(plain[0], index)
  {
    hide MaskedBy, Encrypt;
    assert MaskedBy(masked[0] - (index + 0) % 3, plain[0], KEY_TEXT[(index + 0) % 11]);
    CipheredRune(masked[0], plain[0], index);
    forall i | 0 <= i < |plain| - 1
      ensures MaskedBy(masked[1..][i] - (index + 1 + i) % 3, plain[1..][i], KEY_TEXT[(index + 1 + i) % 11])
    {
      var j := i + 1;
      assert MaskedBy(masked[j] - (index + j) % 3, plain[j], KEY_TEXT[(index + j) % 11]);
    }
  }

  /** Text masked rune by rune with the key "FuHongBuild" and shifted by 0, 1, 2 in turn
      is what is written for the plain text. */
  lemma {:induction false} PlainTextEncodes(bytes: Bytes, at: nat, index: nat, masked: seq<ScalarValue>,
      plain: seq<ScalarValue>)
    requires at <= |bytes| && bytes[at..] == Utf8(plain) && Ciphers(masked, plain, index)
    ensures Encode(bytes, at, index) == Some(Utf8(masked))
    decreases |plain|
  {
    hide DecodeRune, AppendUtf8, Ciphers, Encrypt;
    if plain == [] {
      EmptyCipher(masked, index);
    } else {
      LengthsAgree(masked, plain, index);
      var code, rest := AppendUtf8(plain[0]), plain[1..];
      CiphersOfRest(masked, plain, index);
      assert Holds(bytes, at, code + Utf8(rest));
      HoldsBoth(bytes, at, code, Utf8(rest));
      DecodeUndoesAppend(bytes, at, plain[0]);
      assert bytes[at + |code|..] == Utf8(rest);
      PlainTextEncodes(bytes, at + |code|, index + 1, masked[1..], rest);
    }
  }

  lemma LengthsAgree(masked: seq<ScalarValue>, plain: seq<ScalarValue>, index: nat)
    requires Ciphers(masked, plain, index)
    ensures |masked| == |plain|
  {
  }

  lemma EmptyCipher(masked: seq<ScalarValue>, index: nat)
    requires Ciphers(masked, [], index)
    ensures masked == []
  {
  }

  /** And it is read as the plain text. */
  lemma MaskedTextDecrypts(masked: seq<ScalarValue>, plain: seq<ScalarValue>)
    requires plain != [] && Ciphers(masked, plain, 0)
    ensures Encode(Utf8(plain), 0, 0) == Some(Utf8(masked))
    ensures DecryptAll(Utf8(masked)) == Some(Utf8(plain))
  {
    hide Encode, DecryptAll, Ciphers;
    assert Utf8(plain)[0..] == Utf8(plain);
    PlainTextEncodes(Utf8(plain), 0, 0, masked, plain);
    CipherRoundTripsExactlyWhen(Utf8(plain));
    assert Utf8(plain) != [];
  }

  /** UTF-8 as section 3 of RFC 3629 lays it out, one character of each length. */
  lemma Utf8Examples()
    ensures Utf8([0x41]) == [0x41] && Utf8([0xE9]) == [0xC3, 0xA9]
    ensures Utf8([0x4E2D]) == [0xE4, 0xB8, 0xAD] && Utf8([0x1_F600]) == [0xF0, 0x9F, 0x98, 0x80]
  {
    assert [0x41][1..] == [] && [0xE9][1..] == [] && [0x4E2D][1..] == [] && [0x1_F600][1..] == [];
  }
}
