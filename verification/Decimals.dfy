/** Decimal integers as text: what `std::to_string` prints and `std::from_chars`
    reads. */
module Decimals {
  import opened Options
  import opened BdxBytes

  const MINUS: Byte := 45
  const ZERO: Byte := 48

  function Digits(n: nat): (text: Bytes)
    ensures text != []
  {
    if n < 10 then [ZERO + n] else Digits(n / 10) + [ZERO + n % 10]
  }

  /** `std::to_string`. */
  function Decimal(n: int): (text: Bytes)
    ensures text != []
  {
    if n < 0 then [MINUS] + Digits(-n) else Digits(n)
  }

  predicate IsDigit(b: Byte) {
    ZERO <= b <= ZERO + 9
  }

  predicate AllDigits(text: Bytes) {
    forall i | 0 <= i < |text| :: IsDigit(text[i])
  }

  function Value(text: Bytes): nat
    requires AllDigits(text)
  {
    if text == [] then 0 else Value(text[..|text| - 1]) * 10 + (text[|text| - 1] - ZERO)
  }

  /** `std::from_chars` consuming the whole text: an optional minus sign and at
      least one digit, within the range of the type. */
  function Parse(text: Bytes, low: int, high: int): Option<int> {
    var negative := text != [] && text[0] == MINUS;
    var digits := if negative then text[1..] else text;
    if digits == [] || !AllDigits(digits) then None
    else
      var value: int := if negative then -(Value(digits) as int) else Value(digits);
      if low <= value <= high then Some(value) else None
  }

  lemma {:induction false} DigitsValue(n: nat)
    ensures AllDigits(Digits(n)) && Value(Digits(n)) == n
  {
    if n >= 10 {
      DigitsValue(n / 10);
      assert (Digits(n / 10) + [ZERO + n % 10])[..|Digits(n / 10)|] == Digits(n / 10);
    }
  }

  lemma {:induction false} DigitsStartWithDigit(n: nat)
    ensures IsDigit(Digits(n)[0])
  {
    DigitsValue(n);
  }

  /** Reading back what was printed. */
  lemma ParseUndoesDecimal(n: int, low: int, high: int)
    ensures Parse(Decimal(n), low, high) == if low <= n <= high then Some(n) else None
  {
    if n < 0 {
      DigitsValue(-n);
      assert Decimal(n)[1..] == Digits(-n);
    } else {
      DigitsValue(n);
      assert IsDigit(Digits(n)[0]);
    }
  }

  lemma DecimalIsInjective(m: int, n: int)
    ensures Decimal(m) == Decimal(n) ==> m == n
  {
    ParseUndoesDecimal(m, m, m);
    ParseUndoesDecimal(n, m, m);
  }

  /** Decimals consist of digits and perhaps a leading minus sign. */
  lemma DecimalAlphabet(n: int)
    ensures forall b | b in Decimal(n) :: IsDigit(b) || b == MINUS
  {
    var digits := Digits(if n < 0 then -n else n);
    DigitsValue(if n < 0 then -n else n);
    forall b | b in digits
      ensures IsDigit(b)
    {
      var i :| 0 <= i < |digits| && digits[i] == b;
    }
  }
}
