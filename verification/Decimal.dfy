/**
 Decimal text of integers, as `strconv.FormatUint`, `strconv.Itoa` and `strconv.ParseInt`
 produce and accept it, with the 64-bit range made explicit.
 */
module Decimal {

  datatype Option<+T> = None | Some(value: T)

  const TWO63: int := 0x8000_0000_0000_0000
  const TWO64: int := 0x1_0000_0000_0000_0000

  /** The value a Go `int64` holds after arithmetic gives `x`. */
  function Wrap64(x: int): (r: int)
    ensures -TWO63 <= r < TWO63
    ensures -TWO63 <= x < TWO63 ==> r == x
  {
    (x + TWO63) % TWO64 - TWO63
  }

  /** The conversion `uint64(x)`. */
  function ToUint64(x: int): (r: nat)
    ensures r < TWO64
    ensures 0 <= x < TWO64 ==> r == x
    ensures -TWO64 <= x < 0 ==> r == x + TWO64
  {
    x % TWO64
  }

  /** Subtraction that stops at zero. */
  function Minus(n: nat, d: nat): nat { if d <= n then n - d else 0 }

  /** Different multiples of a number are at least that number apart. */
  lemma {:induction false} MultiplesApart(p: int, q: int, n: nat)
    requires p < q
    ensures p * n + n <= q * n
    decreases q - p
  {
    assert q * n == (q - 1) * n + n;
    if p + 1 < q { MultiplesApart(p, q - 1, n); }
  }

  predicate IsDigit(c: char) { '0' <= c <= '9' }

  predicate AllDigits(s: string) { forall i :: 0 <= i < |s| ==> IsDigit(s[i]) }

  function DigitValue(c: char): int { c as int - '0' as int }

  function Digit(d: nat): (c: char)
    requires d < 10
    ensures IsDigit(c) && DigitValue(c) == d
  {
    ('0' as int + d) as char
  }

  /** Decimal text without leading zeros. */
  function FormatNat(n: nat): (s: string)
    ensures |s| >= 1
    ensures AllDigits(s)
    ensures n > 0 ==> s[0] != '0'
  {
    if n < 10 then [Digit(n)] else FormatNat(n / 10) + [Digit(n % 10)]
  }

  function FormatInt(n: int): (s: string) {
    if n < 0 then "-" + FormatNat(-n) else FormatNat(n)
  }

  /** Left-to-right accumulation of decimal digits onto `acc`. */
  function Accumulate(acc: int, s: string): int
    decreases |s|
  {
    if s == [] then acc else Accumulate(10 * acc + DigitValue(s[0]), s[1..])
  }

  lemma {:induction false} AccumulateSnoc(acc: int, s: string, c: char)
    ensures Accumulate(acc, s + [c]) == 10 * Accumulate(acc, s) + DigitValue(c)
    decreases |s|
  {
    if s == [] {
      assert [c][1..] == [];
    } else {
      assert (s + [c])[1..] == s[1..] + [c];
      AccumulateSnoc(10 * acc + DigitValue(s[0]), s[1..], c);
    }
  }

  /** Reading back the decimal text of a natural number gives the number. */
  lemma {:induction false} AccumulateFormatNat(n: nat)
    ensures Accumulate(0, FormatNat(n)) == n
  {
    if n < 10 {
      assert FormatNat(n)[1..] == [];
    } else {
      AccumulateFormatNat(n / 10);
      AccumulateSnoc(0, FormatNat(n / 10), Digit(n % 10));
    }
  }

  /** Accumulating digits never makes a non-negative number smaller. */
  lemma {:induction false} AccumulateGrows(acc: nat, s: string)
    requires AllDigits(s)
    ensures Accumulate(acc, s) >= acc
    decreases |s|
  {
    if s != [] {
      AccumulateGrows(10 * acc + DigitValue(s[0]), s[1..]);
    }
  }

  /** A number of two or more is larger than its own digit count. */
  lemma {:induction false} DigitCountShorter(n: nat)
    requires n >= 2
    ensures |FormatNat(n)| < n
  {
    if n >= 20 {
      DigitCountShorter(n / 10);
    } else if n >= 10 {
      assert FormatNat(n / 10) == [Digit(n / 10)];
    }
  }

  lemma DigitCountBound(n: nat)
    requires n >= 1
    ensures |FormatNat(n)| <= n
  {
    if n >= 2 { DigitCountShorter(n); }
  }

  /** `strconv.ParseInt(s, 10, 64)`: an optional sign, then at least one digit, within range. */
  function ParseInt(s: string): (r: Option<int>)
    ensures r.Some? ==> -TWO63 <= r.value < TWO63
  {
    if s == [] then None
    else
      var negative := s[0] == '-';
      var digits := if s[0] == '-' || s[0] == '+' then s[1..] else s;
      if digits == [] || !AllDigits(digits) then None
      else
        var magnitude := Accumulate(0, digits);
        var v := if negative then -magnitude else magnitude;
        if -TWO63 <= v < TWO63 then Some(v) else None
  }

  /** `ParseInt` inverts `FormatInt` on exactly the 64-bit signed range. */
  lemma ParseFormatInt(n: int)
    ensures ParseInt(FormatInt(n)) == if -TWO63 <= n < TWO63 then Some(n) else None
  {
    if n < 0 {
      AccumulateFormatNat(-n);
      assert FormatInt(n)[1..] == FormatNat(-n);
    } else {
      AccumulateFormatNat(n);
      assert IsDigit(FormatNat(n)[0]);
    }
  }

  /** The integer a decimal text stands for, without any range. */
  function SignedValue(s: string): int {
    if s != [] && s[0] == '-' then -Accumulate(0, s[1..]) else Accumulate(0, s)
  }

  lemma SignedValueFormatInt(n: int)
    ensures SignedValue(FormatInt(n)) == n
  {
    if n < 0 {
      assert FormatInt(n)[1..] == FormatNat(-n);
      AccumulateFormatNat(-n);
    } else {
      assert IsDigit(FormatInt(n)[0]);
      AccumulateFormatNat(n);
    }
  }

  /** Different integers have different decimal texts. */
  lemma FormatIntInjective(a: int, b: int)
    ensures FormatInt(a) == FormatInt(b) <==> a == b
  {
    SignedValueFormatInt(a);
    SignedValueFormatInt(b);
  }
}
