/**
 A loop "for v := lo; v <= hi; v += step" whose counter is an int64 and wraps around: the values it takes, and
 exactly when it ends.
 */
module Int64Loop {
  import opened Decimal

  /** The counter after `k` steps. */
  function Counter(lo: int, step: int, k: nat): int {
    if k == 0 then lo else Wrap64(Counter(lo, step, k - 1) + step)
  }

  predicate IsInt64(n: int) { -TWO63 <= n < TWO63 }

  /** The counter is `lo + k * step` but for a multiple of 2^64. */
  lemma {:induction false} CounterModulo(lo: int, step: int, k: nat) returns (q: int)
    requires IsInt64(lo)
    ensures lo + k * step == Counter(lo, step, k) + q * TWO64 && IsInt64(Counter(lo, step, k))
  {
    if k == 0 {
      q := 0;
    } else {
      var p := CounterModulo(lo, step, k - 1);
      var x := Counter(lo, step, k - 1) + step;
      var w := (x + TWO63) / TWO64;
      assert x == Wrap64(x) + w * TWO64;
      assert k * step == (k - 1) * step + step;
      q := p + w;
    }
  }

  lemma SameInt64(a: int, b: int, q: int)
    requires IsInt64(a) && IsInt64(b) && a == b + q * TWO64
    ensures a == b
  {
  }

  lemma CounterIs(lo: int, step: int, k: nat, x: int, q: int)
    requires IsInt64(lo) && IsInt64(x) && lo + k * step == x + q * TWO64
    ensures Counter(lo, step, k) == x
  {
    var p := CounterModulo(lo, step, k);
    SameInt64(x, Counter(lo, step, k), p - q);
  }

  lemma CounterUnwrapped(lo: int, step: int, k: nat)
    requires IsInt64(lo) && IsInt64(lo + k * step)
    ensures Counter(lo, step, k) == lo + k * step
  {
    CounterIs(lo, step, k, lo + k * step, 0);
  }

  // ---------------------------------------------------------------- powers of two

  function Pow2(n: nat): nat { if n == 0 then 1 else 2 * Pow2(n - 1) }

  lemma Doubled(x: int, y: int)
    ensures 2 * (x * y) == (2 * x) * y
  {
  }

  lemma {:induction false} Pow2Adds(a: nat, b: nat)
    ensures Pow2(a + b) == Pow2(a) * Pow2(b)
  {
    if a == 0 {
      assert Pow2(0) == 1;
    } else {
      Pow2Adds(a - 1, b);
      Doubled(Pow2(a - 1), Pow2(b));
    }
  }

  lemma Pow2Values()
    ensures Pow2(63) == TWO63 && Pow2(64) == TWO64
  {
    assert Pow2(8) == 256;
    Pow2Adds(8, 8);
    Pow2Adds(16, 16);
    Pow2Adds(32, 32);
    assert Pow2(64) == 2 * Pow2(63);
  }

  /** How often two divides `n`, and what is left. */
  function Twos(n: int): nat
    requires n >= 1
  {
    if n % 2 == 1 then 0 else 1 + Twos(n / 2)
  }

  function OddPart(n: int): int
    requires n >= 1
  {
    if n % 2 == 1 then n else OddPart(n / 2)
  }

  lemma {:induction false} Factors(n: int)
    requires n >= 1
    ensures n == Pow2(Twos(n)) * OddPart(n) && OddPart(n) >= 1 && OddPart(n) % 2 == 1 && Pow2(Twos(n)) >= 1
  {
    if n % 2 == 0 {
      Factors(n / 2);
      Doubled(Pow2(Twos(n / 2)), OddPart(n / 2));
    }
  }

  lemma {:induction false} Pow2Grows(a: nat, b: nat)
    requires a <= b
    ensures 1 <= Pow2(a) <= Pow2(b)
  {
    if a < b {
      Pow2Grows(a, b - 1);
    } else if a > 0 {
      Pow2Grows(a - 1, b - 1);
    }
  }

  /** The power of two in a step divides 2^63. */
  lemma PowerDivides(step: int) returns (c: nat)
    requires 1 <= step < TWO63
    ensures TWO63 == Pow2(Twos(step)) * c && c >= 1
  {
    var t := Twos(step);
    Factors(step);
    Pow2Values();
    if t >= 63 {
      Pow2Grows(63, t);
      AtLeast(Pow2(t), OddPart(step));
      assert false;
    }
    Pow2Adds(t, 63 - t);
    Pow2Grows(0, 63 - t);
    c := Pow2(63 - t);
  }

  lemma AtLeast(g: int, m: int)
    requires g >= 1 && m >= 1
    ensures g * m >= g
  {
  }

  /** Modulo a power of two every number is a multiple of an odd one. */
  lemma {:induction false} OddReachesAll(m: int, d: int, n: nat) returns (k: nat, e: int)
    requires m % 2 == 1
    ensures k * m - d == e * Pow2(n)
  {
    if n == 0 {
      k, e := 0, -d;
    } else {
      var p := Pow2(n - 1);
      var j, f := OddReachesAll(m, d, n - 1);
      if f % 2 == 0 {
        k, e := j, f / 2;
        HalfOf(f, p);
      } else {
        k, e := j + p, (f + m) / 2;
        HalfOf(f + m, p);
        assert (j + p) * m == j * m + p * m;
        assert f * p + p * m == (f + m) * p;
      }
    }
  }

  lemma HalfOf(f: int, p: int)
    requires f % 2 == 0
    ensures f * p == (f / 2) * (2 * p)
  {
    var h := f / 2;
    assert f == 2 * h;
    assert (2 * h) * p == h * (2 * p);
  }

  // ---------------------------------------------------------------- when the loop ends

  /** The greatest int64 that differs from `lo` by a multiple of the power of two in `step`. */
  function Top(lo: int, step: int): int
    requires step >= 1
  {
    Factors(step);
    TWO63 - Pow2(Twos(step)) + lo % Pow2(Twos(step))
  }

  lemma TopIsApart(lo: int, step: int) returns (d: int)
    requires IsInt64(lo) && 1 <= step < TWO63
    ensures Top(lo, step) - lo == Pow2(Twos(step)) * d
    ensures TWO63 - Pow2(Twos(step)) <= Top(lo, step) < TWO63 && IsInt64(Top(lo, step))
  {
    var g := Pow2(Twos(step));
    Factors(step);
    var c := PowerDivides(step);
    d := c - 1 - lo / g;
    assert lo == g * (lo / g) + lo % g;
    assert g * d == g * c - g - g * (lo / g) by { Spread3(g, c, lo / g); }
    AtLeast(g, c);
  }

  lemma Spread3(g: int, c: int, x: int)
    ensures g * (c - 1 - x) == g * c - g - g * x
  {
  }

  /** A number that differs from `top` by a multiple of `g` and is below `top + g` is not above `top`. */
  lemma NotAbove(g: int, top: int, x: int, z: int)
    requires g >= 1 && top - x == g * z && x < top + g
    ensures x <= top
  {
    if z < 0 { AtLeast(g, -z); }
  }

  lemma DifferenceIsMultiple(g: int, m: int, c: int, d: int, lo: int, step: int, k: int, x: int, q: int, top: int)
    requires step == g * m && TWO63 == g * c && top - lo == g * d && lo + k * step == x + q * TWO64
    ensures top - x == g * (d - k * m + q * (2 * c))
  {
    assert k * (g * m) == g * (k * m);
    assert g * (q * (2 * c)) == q * (2 * (g * c));
    assert g * (d - k * m + q * (2 * c)) == g * d - g * (k * m) + g * (q * (2 * c));
  }

  /** The counter never passes the top value. */
  lemma CounterBelowTop(lo: int, step: int, k: nat)
    requires IsInt64(lo) && 1 <= step < TWO63
    ensures Counter(lo, step, k) <= Top(lo, step)
  {
    var g, m, top, x := Pow2(Twos(step)), OddPart(step), Top(lo, step), Counter(lo, step, k);
    Factors(step);
    var c := PowerDivides(step);
    var d := TopIsApart(lo, step);
    var q := CounterModulo(lo, step, k);
    DifferenceIsMultiple(g, m, c, d, lo, step, k, x, q, top);
    NotAbove(g, top, x, d - k * m + q * (2 * c));
  }

  lemma Scaled(g: int, m: int, step: int, k: int, d: int, e: int, lo: int, top: int)
    requires k * m - d == e * TWO64 && step == g * m && top - lo == g * d
    ensures lo + k * step == top + (g * e) * TWO64
  {
    assert k * (g * m) == g * (k * m);
    assert g * (d + e * TWO64) == g * d + g * (e * TWO64);
    assert g * (e * TWO64) == (g * e) * TWO64;
  }

  /** The counter takes the top value. */
  lemma CounterTakesTop(lo: int, step: int) returns (k: nat)
    requires IsInt64(lo) && 1 <= step < TWO63
    ensures Counter(lo, step, k) == Top(lo, step)
  {
    var g, m, top := Pow2(Twos(step)), OddPart(step), Top(lo, step);
    Factors(step);
    var d := TopIsApart(lo, step);
    var e;
    k, e := OddReachesAll(m, d, 64);
    Pow2Values();
    Scaled(g, m, step, k, d, e, lo, top);
    CounterIs(lo, step, k, top, g * e);
  }

  /** The loop comes to a value above `hi`. */
  ghost predicate EndsAt(lo: int, hi: int, step: int, k: nat) { Counter(lo, step, k) > hi }

  /** The loop ends if and only if the greatest int64 its counter can take is above the upper bound. */
  lemma EndsIff(lo: int, hi: int, step: int)
    requires IsInt64(lo) && 1 <= step < TWO63
    ensures (exists k :: EndsAt(lo, hi, step, k)) <==> Top(lo, step) > hi
  {
    var k := CounterTakesTop(lo, step);
    if Top(lo, step) > hi { assert EndsAt(lo, hi, step, k); }
    forall j: nat | EndsAt(lo, hi, step, j) ensures Top(lo, step) > hi { CounterBelowTop(lo, step, j); }
  }

  // ---------------------------------------------------------------- what the loop visits

  /** The body of the loop runs for the value after `k` steps. */
  ghost predicate Reached(lo: int, hi: int, step: int, k: nat) {
    forall j: nat :: j <= k ==> Counter(lo, step, j) <= hi
  }

  ghost predicate Visits(lo: int, hi: int, step: int, x: int) {
    exists k: nat :: Reached(lo, hi, step, k) && Counter(lo, step, k) == x
  }

  lemma {:induction false} Repeats(lo: int, step: int, p: nat, m: nat, j: nat)
    requires Counter(lo, step, p) == Counter(lo, step, m)
    ensures Counter(lo, step, p + j) == Counter(lo, step, m + j)
  {
    if j > 0 { Repeats(lo, step, p, m, j - 1); }
  }

  /** A loop whose counter comes back to a former value before it ends never ends. */
  lemma {:induction false} RoundForEver(lo: int, hi: int, step: int, p: nat, m: nat, k: nat)
    requires m < p && Counter(lo, step, p) == Counter(lo, step, m) && Reached(lo, hi, step, p)
    ensures !EndsAt(lo, hi, step, k)
  {
    if k > p {
      Repeats(lo, step, p, m, k - p);
      RoundForEver(lo, hi, step, p, m, m + (k - p));
    }
  }
}
