/** Arithmetic several formats share. */
module Arithmetic {
  const UINT64_MAX := 0xFFFF_FFFF_FFFF_FFFF
  const INT64_MAX := 0x7FFF_FFFF_FFFF_FFFF

  function Power(bits: nat): nat {
    if bits == 0 then 1 else 2 * Power(bits - 1)
  }

  /** Products are monotone, by at least the other factor. */
  lemma {:induction false} Multiples(a: int, b: int, k: int)
    requires a <= b && 0 <= k
    ensures a * k <= b * k && (a < b ==> a * k + k <= b * k)
    decreases b - a
  {
    if a < b {
      Multiples(a + 1, b, k);
      assert (a + 1) * k == a * k + k;
    }
  }

  lemma Recompose(k: nat, d: nat)
    requires 0 < d
    ensures k == k / d * d + k % d && 0 <= k % d < d
  {
  }

  lemma UniqueQuotient(k: nat, d: nat, q: nat, r: nat)
    requires 0 < d && r < d && k == q * d + r
    ensures k / d == q
  {
    var p := k / d;
    assert k == p * d + k % d;
    if p < q {
      Multiples(p, q, d);
    } else if q < p {
      Multiples(q, p, d);
    }
  }

  lemma HalfThenQuotient(k: nat, d: nat)
    requires 0 < d
    ensures k / 2 / d == k / (2 * d)
  {
    var q, r := k / 2 / d, k / 2 % d;
    Recompose(k / 2, d);
    assert k == 2 * (q * d + r) + k % 2;
    assert q * (2 * d) == 2 * (q * d);
    UniqueQuotient(k, 2 * d, q, 2 * r + k % 2);
  }

  /** The division guards reject exactly the volumes that do not fit 64 bits. */
  lemma GuardsAreExact(w: nat, h: nat, l: nat, limit: nat)
    requires 0 < w && 0 < h && 0 < l
    ensures w > limit / h || w * h > limit / l <==> w * h * l > limit
  {
    QuotientGuard(w, h, limit);
    QuotientGuard(w * h, l, limit);
    Multiples(1, l, w * h);
  }

  lemma QuotientGuard(a: nat, b: nat, limit: nat)
    requires 0 < b
    ensures a > limit / b <==> a * b > limit
  {
    Recompose(limit, b);
    if a > limit / b {
      Multiples(limit / b, a, b);
    } else {
      Multiples(a, limit / b, b);
    }
  }
}
