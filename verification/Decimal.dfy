/** Decimal numbers as text: printing, padded printing, parsing and their order as strings. */
module Decimal {
  import opened Common

  function Pow10(w: nat): nat {
    if w == 0 then 1 else 10 * Pow10(w - 1)
  }

  function DigitChar(d: nat): char
    requires d < 10
  {
    "0123456789"[d]
  }

  function DigitValue(c: char): Option<nat> {
    if '0' <= c <= '9' then Some(c as int - '0' as int) else None
  }

  lemma DigitRoundTrip(d: nat)
    requires d < 10
    ensures DigitValue(DigitChar(d)) == Some(d)
    ensures '0' <= DigitChar(d) <= '9'
  {
  }

  /** The last `w` digits of `n`, with leading zeros. */
  function Fixed(n: nat, w: nat): (s: string)
    ensures |s| == w
    ensures forall i :: 0 <= i < w ==> '0' <= s[i] <= '9'
  {
    if w == 0 then "" else
      DigitRoundTrip(n % 10);
      Fixed(n / 10, w - 1) + [DigitChar(n % 10)]
  }

  /** The number of digits of `n`. */
  function Width(n: nat): (w: nat)
    ensures w > 0
  {
    if n < 10 then 1 else 1 + Width(n / 10)
  }

  /** `n` without leading zeros. */
  function Digits(n: nat): string {
    Fixed(n, Width(n))
  }

  /** `n` padded with zeros to `w` digits, and wider when it does not fit. */
  function Padded(n: nat, w: nat): string {
    if Width(n) <= w then Fixed(n, w) else Digits(n)
  }

  function ParseDigits(s: string, acc: nat): Option<nat> {
    if s == "" then Some(acc)
    else
      match DigitValue(s[0])
      case None => None
      case Some(d) => ParseDigits(s[1..], acc * 10 + d)
  }

  /** An unsigned number up to `max`: an optional plus sign, then digits. */
  function ParseUnsigned(s: string, max: nat): Option<nat> {
    var digits := if s != "" && s[0] == '+' then s[1..] else s;
    if digits == "" then None
    else
      match ParseDigits(digits, 0)
      case None => None
      case Some(n) => if n <= max then Some(n) else None
  }

  lemma {:induction false} ParseAppend(s: string, c: char, acc: nat)
    ensures ParseDigits(s + [c], acc) ==
              match ParseDigits(s, acc)
              case None => None
              case Some(n) => (match DigitValue(c) case None => None case Some(d) => Some(n * 10 + d))
  {
    if s == "" {
      assert (s + [c])[1..] == "";
    } else {
      assert (s + [c])[1..] == s[1..] + [c];
      match DigitValue(s[0])
      case None =>
      case Some(d) => ParseAppend(s[1..], c, acc * 10 + d);
    }
  }

  lemma {:induction false} ParseFixed(n: nat, w: nat)
    requires n < Pow10(w)
    ensures ParseDigits(Fixed(n, w), 0) == Some(n)
  {
    if w > 0 {
      ParseFixed(n / 10, w - 1);
      DigitRoundTrip(n % 10);
      ParseAppend(Fixed(n / 10, w - 1), DigitChar(n % 10), 0);
    }
  }

  lemma {:induction false} WidthBounds(n: nat)
    ensures n < Pow10(Width(n))
    ensures n > 0 ==> Pow10(Width(n) - 1) <= n
  {
    if n >= 10 {
      WidthBounds(n / 10);
    }
  }

  lemma {:induction false} Pow10Grows(v: nat, w: nat)
    requires v <= w
    ensures 0 < Pow10(v) <= Pow10(w)
  {
    if v < w {
      Pow10Grows(v, w - 1);
    } else if v > 0 {
      Pow10Grows(v - 1, v - 1);
    }
  }

  lemma PaddedShape(n: nat, w: nat)
    requires w > 0
    ensures Padded(n, w) == if n < Pow10(w) then Fixed(n, w) else Digits(n)
  {
    WidthBounds(n);
    if Width(n) <= w {
      Pow10Grows(Width(n), w);
    } else {
      Pow10Grows(w, Width(n) - 1);
    }
  }

  // ----- what a numeral means, from its text alone

  predicate AllDigits(s: string) {
    forall i :: 0 <= i < |s| ==> '0' <= s[i] <= '9'
  }

  /** The number a text of digits stands for. */
  function Value(s: string): nat
    requires AllDigits(s)
  {
    if s == "" then 0 else 10 * Value(s[..|s| - 1]) + (s[|s| - 1] as int - '0' as int)
  }

  /** An optional plus sign and at least one digit, of value `n`. */
  ghost predicate IsNumeral(s: string, n: nat) {
    exists d: string :: (s == d || s == "+" + d) && d != "" && AllDigits(d) && Value(d) == n
  }

  lemma {:induction false} ParseDigitsValue(s: string)
    ensures ParseDigits(s, 0).Some? <==> AllDigits(s)
    ensures AllDigits(s) ==> ParseDigits(s, 0) == Some(Value(s))
  {
    if s != "" {
      var front, c := s[..|s| - 1], s[|s| - 1];
      assert s == front + [c];
      ParseDigitsValue(front);
      ParseAppend(front, c, 0);
    }
  }

  /** What is read as a number, and as which: exactly the numerals up to the limit. */
  lemma ParseUnsignedIff(s: string, max: nat, n: nat)
    ensures ParseUnsigned(s, max) == Some(n) <==> IsNumeral(s, n) && n <= max
  {
    if ParseUnsigned(s, max) == Some(n) {
      var d := if s != "" && s[0] == '+' then s[1..] else s;
      ParseDigitsValue(d);
      assert s == d || s == "+" + d;
    }
    if IsNumeral(s, n) && n <= max {
      var d :| (s == d || s == "+" + d) && d != "" && AllDigits(d) && Value(d) == n;
      ParseDigitsValue(d);
      if s == d {
        assert s[0] != '+';
      } else {
        assert s[1..] == d;
      }
    }
  }

  lemma {:induction false} FixedValue(n: nat, w: nat)
    requires n < Pow10(w)
    ensures AllDigits(Fixed(n, w)) && Value(Fixed(n, w)) == n
  {
    if w > 0 {
      FixedValue(n / 10, w - 1);
      DigitRoundTrip(n % 10);
      assert Fixed(n, w)[..w - 1] == Fixed(n / 10, w - 1);
    }
  }

  lemma {:induction false} NoLeadingZero(n: nat, w: nat)
    requires w > 0 && Pow10(w - 1) <= n < Pow10(w) && n > 0
    ensures Fixed(n, w)[0] != '0'
  {
    if w > 1 {
      NoLeadingZero(n / 10, w - 1);
    }
  }

  /** Printed numbers are digits of the right value, and lead with zeros only to fill up to the width. */
  lemma PaddedMeans(n: nat, w: nat)
    requires w > 0
    ensures var d := Padded(n, w);
            && AllDigits(d) && Value(d) == n && |d| >= w
            && (|d| > w ==> d[0] != '0')
  {
    WidthBounds(n);
    PaddedShape(n, w);
    if n < Pow10(w) {
      FixedValue(n, w);
    } else {
      Pow10Grows(0, w);
      FixedValue(n, Width(n));
      NoLeadingZero(n, Width(n));
    }
  }

  lemma DigitsArePadded(n: nat)
    ensures Digits(n) == Padded(n, 1)
  {
  }

  /** Printing and parsing back, with or without padding. */
  lemma ParsePrinted(n: nat, max: nat, w: nat)
    requires n <= max && w > 0
    ensures ParseUnsigned(Digits(n), max) == Some(n)
    ensures ParseUnsigned(Padded(n, w), max) == Some(n)
  {
    WidthBounds(n);
    ParseFixed(n, Width(n));
    PaddedShape(n, w);
    if n < Pow10(w) {
      ParseFixed(n, w);
    }
  }

  // ----- order

  /** Byte-wise order of file names. */
  predicate Before(a: string, b: string) {
    if b == "" then false
    else if a == "" then true
    else a[0] < b[0] || (a[0] == b[0] && Before(a[1..], b[1..]))
  }

  lemma {:induction false} BeforeAppend(p: string, c: char, q: string, d: char)
    requires |p| == |q|
    ensures Before(p + [c], q + [d]) <==> Before(p, q) || (p == q && c < d)
  {
    if p != "" {
      assert (p + [c])[1..] == p[1..] + [c] && (q + [d])[1..] == q[1..] + [d];
      BeforeAppend(p[1..], c, q[1..], d);
      assert p == [p[0]] + p[1..] && q == [q[0]] + q[1..];
    } else {
      assert (p + [c])[1..] == "" && (q + [d])[1..] == "";
    }
  }

  lemma {:induction false} BeforePrefix(p: string, a: string, b: string)
    ensures Before(p + a, p + b) <==> Before(a, b)
  {
    if p == "" {
      assert p + a == a && p + b == b;
    } else {
      assert (p + a)[1..] == p[1..] + a && (p + b)[1..] == p[1..] + b;
      BeforePrefix(p[1..], a, b);
    }
  }

  lemma {:induction false} NotBeforeItself(s: string)
    ensures !Before(s, s)
  {
    if s != "" {
      NotBeforeItself(s[1..]);
    }
  }

  /** Appending a common ending keeps the order of texts of equal length. */
  lemma {:induction false} BeforeSuffix(a: string, b: string, s: string)
    requires |a| == |b|
    ensures Before(a + s, b + s) <==> Before(a, b)
  {
    if a == "" {
      assert a + s == s && b + s == s;
      NotBeforeItself(s);
    } else {
      assert (a + s)[1..] == a[1..] + s && (b + s)[1..] == b[1..] + s;
      BeforeSuffix(a[1..], b[1..], s);
    }
  }

  lemma {:induction false} BeforeTotal(a: string, b: string)
    ensures Before(a, b) || a == b || Before(b, a)
    ensures !(Before(a, b) && Before(b, a))
  {
    if a != "" && b != "" {
      BeforeTotal(a[1..], b[1..]);
      assert a == [a[0]] + a[1..] && b == [b[0]] + b[1..];
    }
  }

  lemma {:induction false} BeforeTransitive(a: string, b: string, c: string)
    requires Before(a, b) && Before(b, c)
    ensures Before(a, c)
  {
    if a != "" && a[0] == b[0] && b[0] == c[0] {
      BeforeTransitive(a[1..], b[1..], c[1..]);
    }
  }

  lemma DigitOrder(c: nat, d: nat)
    requires c < 10 && d < 10
    ensures DigitChar(c) < DigitChar(d) <==> c < d
    ensures DigitChar(c) == DigitChar(d) <==> c == d
  {
    DigitRoundTrip(c);
    DigitRoundTrip(d);
    assert DigitChar(c) as int == '0' as int + c && DigitChar(d) as int == '0' as int + d;
  }

  /** Among numbers of the same width, text order is numeric order. */
  lemma {:induction false} FixedOrder(a: nat, b: nat, w: nat)
    requires a < Pow10(w) && b < Pow10(w)
    ensures Before(Fixed(a, w), Fixed(b, w)) <==> a < b
    ensures Fixed(a, w) == Fixed(b, w) <==> a == b
  {
    if w > 0 {
      FixedOrder(a / 10, b / 10, w - 1);
      var p, q, c, d := Fixed(a / 10, w - 1), Fixed(b / 10, w - 1), DigitChar(a % 10), DigitChar(b % 10);
      BeforeAppend(p, c, q, d);
      assert (p + [c])[..w - 1] == p && (q + [d])[..w - 1] == q;
      assert (p + [c])[w - 1] == c && (q + [d])[w - 1] == d;
      DigitOrder(a % 10, b % 10);
    }
  }
}
