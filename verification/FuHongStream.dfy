/** The loops of the FuHongV5 cipher: `encode_v5`, and `FuHongV5DecryptBuffer`,
    which decrypts through an input window of any size into an output window. */
module FuHongStreams {
  import opened Options
  import opened BdxBytes
  import opened FuHongCiphers

  const STREAM_CHUNK := 64 * 1024

  function Prefixed(output: Bytes, rest: Option<Bytes>): Option<Bytes> {
    match rest
    case None => None
    case Some(tail) => Some(output + tail)
  }

  lemma PrefixedOnce(output: Bytes, code: Bytes, rest: Option<Bytes>)
    ensures Prefixed(output, Prefixed(code, rest)) == Prefixed(output + code, rest)
  {
    if rest.Some? {
      assert output + (code + rest.value) == output + code + rest.value;
    }
  }

  lemma PrefixedFailure(output: Bytes)
    ensures Prefixed(output, None) == None
  {
  }

  lemma PrefixedNothing(rest: Option<Bytes>)
    ensures Prefixed([], rest) == rest
  {
    if rest.Some? {
      assert [] + rest.value == rest.value;
    }
  }

  /** `encode_v5`. */
  method EncodeV5(plain: Bytes) returns (output: Option<Bytes>)
    ensures output == Encode(plain, 0, 0)
  {
    hide DecodeRune, Encrypt, AppendUtf8, Scalar;
    var text: Bytes, offset, index := [], 0, 0;
    PrefixedNothing(Encode(plain, 0, 0));
    while offset < |plain|
      invariant offset <= |plain|
      invariant Prefixed(text, Encode(plain, offset, index)) == Encode(plain, 0, 0)
      decreases |plain| - offset
    {
      var rune := DecodeRune(plain, offset);
      if rune == None || !Scalar(Encrypt(rune.value.value, index)) {
        return None;
      }
      var code := AppendUtf8(Encrypted(rune.value.value, index));
      PrefixedOnce(text, code, Encode(plain, offset + rune.value.length, index + 1));
      text := text + code;
      offset, index := offset + rune.value.length, index + 1;
    }
    assert text + [] == text;
    output := Some(text);
  }

  /** What one turn of the refill loop brings: the end of the input, an error, or
      one more rune. */
  datatype Turn = Ended | Broken | Plain(code: Bytes)

  class DecryptBuffer {
    const encrypted: Bytes
    const window: nat

    var chunk: Bytes  // the input window
    var cursor: nat
    var taken: nat
    var index: nat
    var finished: bool

    ghost predicate Valid()
      reads this
    {
      && cursor <= |chunk| <= taken <= |encrypted|
      && chunk == encrypted[taken - |chunk|..taken]
      && (finished ==> Position() == |encrypted|)
      && (index == 0 <==> Position() == 0)
    }

    /** How many encrypted bytes have been read. */
    ghost function Position(): nat
      requires |chunk| <= taken
      reads this
    {
      taken - |chunk| + cursor
    }

    constructor (encrypted: Bytes, window: nat)
      ensures Valid() && Position() == 0 && index == 0 && !finished
      ensures this.encrypted == encrypted && this.window == window
    {
      this.encrypted, this.window := encrypted, window;
      chunk, cursor, taken, index, finished := [], 0, 0, 0, false;
    }

    /** `read_byte`: the window is refilled with as much as the source gives. */
    method ReadByte() returns (byte: Option<Byte>)
      requires cursor <= |chunk| <= taken <= |encrypted| && chunk == encrypted[taken - |chunk|..taken]
      modifies this`chunk, this`cursor, this`taken
      ensures cursor <= |chunk| <= taken <= |encrypted| && chunk == encrypted[taken - |chunk|..taken]
      ensures old(Position()) == |encrypted| ==> byte == None && Position() == old(Position())
      ensures old(Position()) < |encrypted| ==>
        byte == Some(encrypted[old(Position())]) && Position() == old(Position()) + 1
    {
      if cursor == |chunk| {
        if taken == |encrypted| {
          return None;
        }
        var count :| 0 < count <= |encrypted| - taken && count <= STREAM_CHUNK;
        chunk := encrypted[taken..taken + count];
        cursor, taken := 0, taken + count;
      }
      byte := Some(chunk[cursor]);
      cursor := cursor + 1;
    }

    /** The continuation bytes of one rune. */
    method ReadTail(count: nat, lead: nat) returns (ok: bool, value: nat)
      requires cursor <= |chunk| <= taken <= |encrypted| && chunk == encrypted[taken - |chunk|..taken]
      modifies this`chunk, this`cursor, this`taken
      ensures cursor <= |chunk| <= taken <= |encrypted| && chunk == encrypted[taken - |chunk|..taken]
      ensures Tail(encrypted, old(Position()), count, lead) == if ok then Some(value) else None
      ensures ok ==> Position() == old(Position()) + count
    {
      value := lead;
      for k := 0 to count
        invariant cursor <= |chunk| <= taken <= |encrypted| && chunk == encrypted[taken - |chunk|..taken]
        invariant Position() == old(Position()) + k
        invariant Tail(encrypted, old(Position()), count, lead) == Tail(encrypted, Position(), count - k, value)
      {
        ghost var at := Position();
        var next := ReadByte();
        if next == None || !Continues(next.value) {
          return false, value;
        }
        value := value * 0x40 + (next.value - 0x80);
      }
      ok := true;
    }

    /** One rune of `underflow`. */
    method ReadOne(first: Byte) returns (plain: Option<nat>)
      requires cursor <= |chunk| <= taken <= |encrypted| && chunk == encrypted[taken - |chunk|..taken]
      requires Position() > 0 && encrypted[Position() - 1] == first
      modifies this`chunk, this`cursor, this`taken
      ensures cursor <= |chunk| <= taken <= |encrypted| && chunk == encrypted[taken - |chunk|..taken]
      ensures plain == None ==> ReadRune(encrypted, old(Position()) - 1, index) == None
      ensures plain.Some? ==> Scalar(plain.value) && Position() >= old(Position())
      ensures plain.Some? ==>
        ReadRune(encrypted, old(Position()) - 1, index) == Some(Rune(plain.value, Position() - old(Position()) + 1))
    {
      hide Scalar, DecryptRune, Minimum;
      var lead := Leading(first);
      if lead == None {
        return None;
      }
      ghost var at := Position() - 1;
      var ok, value := ReadTail(lead.value.length - 1, lead.value.value);
      TailStays(encrypted, at + 1, lead.value.length - 1, lead.value.value);
      if !ok {
        return None;
      }
      if value < Minimum(lead.value.length) || !Scalar(value) {
        return None;
      }
      plain := DecryptRune(value, index);
      DecryptsToScalar(value, index);
    }

    /** One turn of the loop in `underflow`. */
    method NextRune() returns (turn: Turn)
      requires Valid() && !finished
      modifies this`chunk, this`cursor, this`taken, this`index
      ensures turn.Ended? ==> Valid() && Position() == old(Position()) == |encrypted| && index == old(index)
      ensures turn.Broken? ==> Decrypt(encrypted, old(Position()), old(index)) == None
      ensures turn.Plain? ==>
        Valid() && Position() > old(Position()) && index == old(index) + 1 && 1 <= |turn.code| <= 4
      ensures turn.Plain? ==>
        Decrypt(encrypted, old(Position()), old(index)) == Prefixed(turn.code, Decrypt(encrypted, Position(), index))
    {
      hide ReadRune, AppendUtf8, Scalar, Decrypt;
      ghost var at := Position();
      var first := ReadByte();
      if first == None {
        return Ended;
      }
      DecryptUnfolds(encrypted, at, index);
      var plain := ReadOne(first.value);
      if plain == None {
        return Broken;
      }
      turn := Plain(AppendUtf8(ScalarBound(plain.value)));
      index := index + 1;
    }

    /** `underflow`: fills the output window while a longest rune still fits;
        `None` is an error, an empty result the end of the stream. */
    method Underflow() returns (produced: Option<Bytes>)
      requires Valid()
      modifies this`chunk, this`cursor, this`taken, this`index, this`finished
      ensures produced == None ==> encrypted == [] || Decrypt(encrypted, old(Position()), old(index)) == None
      ensures produced.Some? ==> Valid() && |produced.value| <= window
      ensures produced.Some? ==>
        Decrypt(encrypted, old(Position()), old(index))
          == Prefixed(produced.value, Decrypt(encrypted, Position(), index))
      ensures produced == Some([]) && window >= 4 ==> finished
      ensures produced.Some? && produced.value != [] ==> Position() > old(Position())
      ensures encrypted == [] && !old(finished) && window >= 4 ==> produced == None
      ensures window < 4 ==> produced == Some([])
    {
      hide Decrypt, Prefixed;
      var output: Bytes := [];
      PrefixedNothing(Decrypt(encrypted, Position(), index));
      if finished {
        return Some([]);
      }
      while |output| + 4 <= window
        invariant Valid() && !finished && |output| <= window
        invariant Decrypt(encrypted, old(Position()), old(index))
          == Prefixed(output, Decrypt(encrypted, Position(), index))
        invariant Position() >= old(Position()) && (output != [] ==> Position() > old(Position()))
        invariant encrypted == [] || window < 4 ==> output == []
        decreases |encrypted| - Position()
      {
        var turn := NextRune();
        match turn {
          case Ended =>
            if index == 0 {
              return None;
            }
            finished := true;
            break;
          case Broken =>
            PrefixedFailure(output);
            return None;
          case Plain(code) =>
            PrefixedOnce(output, code, Decrypt(encrypted, Position(), index));
            output := output + code;
        }
      }
      produced := Some(output);
    }

    /** Reading to the end of the stream, window after window. */
    method ReadAll() returns (plain: Option<Bytes>)
      requires Valid() && Position() == 0 && index == 0 && !finished && window >= 4
      modifies this`chunk, this`cursor, this`taken, this`index, this`finished
      ensures plain == DecryptAll(encrypted)
    {
      hide Decrypt;
      var output: Bytes := [];
      PrefixedNothing(Decrypt(encrypted, 0, 0));
      while true
        invariant Valid()
        invariant Decrypt(encrypted, 0, 0) == Prefixed(output, Decrypt(encrypted, Position(), index))
        invariant encrypted == [] ==> !finished
        decreases |encrypted| - Position()
      {
        var produced := Underflow();
        if produced == None {
          return None;
        }
        if produced.value == [] {
          PrefixedNothing(Decrypt(encrypted, Position(), index));
          break;
        }
        PrefixedOnce(output, produced.value, Decrypt(encrypted, Position(), index));
        output := output + produced.value;
      }
      DecryptEnds(encrypted, index);
      assert output + [] == output;
      plain := Some(output);
    }
  }

  lemma DecryptsToScalar(value: nat, index: nat)
    ensures DecryptRune(value, index).Some? ==> Scalar(DecryptRune(value, index).value)
  {
  }

  lemma {:induction false} TailStays(bytes: Bytes, at: nat, count: nat, value: nat)
    ensures Tail(bytes, at, count, value).Some? ==> at + count <= |bytes| || count == 0
    decreases count
  {
    if count > 0 && at < |bytes| && Continues(bytes[at]) {
      TailStays(bytes, at + 1, count - 1, value * 0x40 + (bytes[at] - 0x80));
    }
  }

  function ScalarBound(value: nat): (v: nat)
    requires Scalar(value)
    ensures v == value && v < 0x20_0000
  {
    value
  }

  lemma DecryptUnfolds(bytes: Bytes, at: nat, index: nat)
    requires at < |bytes|
    ensures Decrypt(bytes, at, index)
      == match ReadRune(bytes, at, index)
         case None => None
         case Some(rune) => Prefixed(AppendUtf8(ScalarBound(rune.value)), Decrypt(bytes, at + rune.length, index + 1))
  {
  }

  lemma DecryptEnds(bytes: Bytes, index: nat)
    ensures Decrypt(bytes, |bytes|, index) == Some([])
  {
  }

  /** The output window must hold a longest rune: with less room the reader takes
      the first refill for the end of the stream. */
  method SmallWindowReadsNothing(encrypted: Bytes, window: nat) returns (produced: Option<Bytes>)
    requires window < 4
    ensures produced == Some([])
  {
    var buffer := new DecryptBuffer(encrypted, window);
    produced := buffer.Underflow();
  }

  /** The cipher round trip through the stream: for every text that encodes, and
      every output window of at least four bytes, however the input arrives. */
  method EncodeAndDecrypt(plain: Bytes, window: nat) returns (encrypted: Option<Bytes>, back: Option<Bytes>)
    requires window >= 4
    ensures encrypted == Encode(plain, 0, 0)
    ensures encrypted.Some? ==> (back == Some(plain) <==> plain != [] && ValidUtf8(plain))
  {
    back := None;
    encrypted := EncodeV5(plain);
    if encrypted.Some? {
      var buffer := new DecryptBuffer(encrypted.value, window);
      back := buffer.ReadAll();
      hide Encode, DecryptAll;
      CipherRoundTripsExactlyWhen(plain);
    }
  }
}
