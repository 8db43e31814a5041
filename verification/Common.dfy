/** Failure types and machine-integer ranges shared by the models. */
module Common {
  datatype Option<+T> = None | Some(value: T)

  datatype Result<+T, +E> = Ok(value: T) | Err(error: E)

  const TWO16: int := 0x1_0000
  const TWO32: int := 0x1_0000_0000
  const TWO64: int := 0x1_0000_0000_0000_0000
  const TWO128: int := 0x1_0000_0000_0000_0000_0000_0000_0000_0000

  type U16 = n: int | 0 <= n < TWO16
  type U32 = n: int | 0 <= n < TWO32
  type U64 = n: int | 0 <= n < TWO64
  type U128 = n: int | 0 <= n < TWO128

  /** Subtraction that stops at zero instead of wrapping. */
  function SaturatingSub(a: U64, b: U64): U64 {
    if b <= a then a - b else 0
  }

  function Min(a: int, b: int): int {
    if a <= b then a else b
  }

  function Max(a: int, b: int): int {
    if a >= b then a else b
  }

  lemma ProductMonotone(a: int, b: int, c: nat)
    requires a <= b
    ensures a * c <= b * c
  {
  }

  lemma ProductAtMost(a: nat, b: nat, x: nat, y: nat)
    requires a <= x && b <= y
    ensures a * b <= x * y
  {
    ProductMonotone(a, x, b);
    ProductMonotone(b, y, x);
  }

  lemma QuotientBounds(p: nat, q: nat)
    requires q > 0
    ensures 0 <= p / q <= p
    ensures p / q * q <= p < (p / q + 1) * q
  {
    var d := p / q;
    assert p == d * q + p % q;
    ProductMonotone(1, q, d);
  }

  lemma ProductStrict(a: int, b: int, c: nat)
    requires a < b && c > 0
    ensures a * c < b * c && c * a < c * b
  {
  }

  lemma CancelStrict(a: int, b: int, c: nat)
    requires a * c < b * c
    ensures a < b
  {
    if b <= a {
      ProductMonotone(b, a, c);
    }
  }

  lemma CancelAtMost(a: int, b: int, c: nat)
    requires a * c <= b * c && c > 0
    ensures a <= b
  {
    if b < a {
      ProductStrict(b, a, c);
    }
  }

  lemma Distribute(a: int, b: int, c: int)
    ensures (a + b) * c == a * c + b * c
    ensures c * (a + b) == c * a + c * b
  {
  }

  lemma QuotientMonotone(p: nat, r: nat, q: nat)
    requires p <= r && q > 0
    ensures p / q <= r / q
  {
    QuotientBounds(p, q);
    QuotientBounds(r, q);
    CancelStrict(p / q, r / q + 1, q);
  }

  /** A quotient is pinned down by its bounds. */
  lemma QuotientUnique(p: nat, q: nat, d: int)
    requires q > 0 && d * q <= p < (d + 1) * q
    ensures d == p / q
  {
    QuotientBounds(p, q);
    CancelStrict(d, p / q + 1, q);
    CancelStrict(p / q, d + 1, q);
  }

  lemma ScaleQuotient(p: nat, q: nat, k: nat)
    requires q > 0 && k > 0
    ensures q * k > 0 && p * k / (q * k) == p / q
  {
    var d := p / q;
    QuotientBounds(p, q);
    ProductStrict(0, q, k);
    ProductMonotone(d * q, p, k);
    ProductStrict(p, (d + 1) * q, k);
    assert d * q * k == d * (q * k) && (d + 1) * q * k == (d + 1) * (q * k);
    QuotientUnique(p * k, q * k, d);
  }
}
