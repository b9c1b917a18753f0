/**
 DIS ("Data Is Strings") numbers and strings. A number is a chain of digit counts, a sign and
 its decimal digits. Each `char` of a stream is one byte.
 */
module DisCodec {
  import opened Decimal

  /** Two readers share one algorithm: the server's checks every count digit, the scheduler's does not. */
  datatype Dialect = Strict | Lax

  datatype Error =
    | EndOfStream       // io.ReadFull or ReadByte ran out of input
    | HugeAllocation    // make([]byte, n) with n negative or above the allocator's limit
    | BadDigits         // strconv.ParseInt refused the digits
    | NonDigitCount     // a count holds a byte that is not a digit
    | LeadingZero
    | UnexpectedByte
    | NegativeUint
    | ServerError       // a status reply whose code is not zero
    | UnexpectedChoice  // a status reply whose choice is not Status

  /** A value and the input left after it, or the error that stopped the reader. */
  datatype Read<+T> = Got(value: T, rest: string) | Fail(error: Error) {
    predicate IsFailure() { Fail? }
    function PropagateFailure<U>(): Read<U> requires Fail? { Fail(error) }
    function Extract(): (T, string) requires Got? { (value, rest) }
  }

  /** Largest allocation of the Go runtime on 64-bit Linux. */
  const MAX_ALLOC: int := 0x1_0000_0000_0000

  /** A Go string fits in memory. */
  type Str = s: string | |s| <= MAX_ALLOC

  // ---------------------------------------------------------------- reading

  /** The count held by the remaining digits `s`, with 64-bit wrap-around. */
  function CountDigits(d: Dialect, acc: int, s: string): Option<int>
    decreases |s|
  {
    if s == [] then Some(acc)
    else if d == Strict && !IsDigit(s[0]) then None
    else CountDigits(d, Wrap64(10 * acc + DigitValue(s[0]) % 256), s[1..])
  }

  /** `disrsi`: the magnitude and sign of a number whose next part has `count` digits. */
  function DecodeNumber(d: Dialect, count: int, s: string): (r: Read<(int, bool)>)
    ensures r.Got? ==> |r.rest| < |s| && -TWO63 <= r.value.0 < TWO63
    decreases |s|
  {
    if s == [] then Fail(EndOfStream)
    else
      var c, tail := s[0], s[1..];
      if c == '+' || c == '-' then
        if !(0 <= count <= MAX_ALLOC) then Fail(HugeAllocation)
        else if count > |tail| then Fail(EndOfStream)
        else
          match ParseInt(tail[..count])
          case None => Fail(BadDigits)
          case Some(v) => Got((v, c == '-'), tail[count..])
      else if '1' <= c <= '9' then
        if count <= 1 then DecodeNumber(d, DigitValue(c), tail)
        else if count - 1 > MAX_ALLOC then Fail(HugeAllocation)
        else if count - 1 > |tail| then Fail(EndOfStream)
        else
          match CountDigits(d, DigitValue(c), tail[..count - 1])
          case None => Fail(NonDigitCount)
          case Some(n) => DecodeNumber(d, n, tail[count - 1..])
      else if c == '0' then Fail(LeadingZero)
      else Fail(UnexpectedByte)
  }

  function DecodeUint(d: Dialect, s: string): (r: Read<nat>)
    ensures r.Got? ==> |r.rest| < |s| && r.value < TWO64
  {
    var (number, rest) :- DecodeNumber(d, 1, s);
    if number.1 then Fail(NegativeUint) else Got(ToUint64(number.0), rest)
  }

  function DecodeInt(d: Dialect, s: string): (r: Read<int>)
    ensures r.Got? ==> |r.rest| < |s| && -TWO63 <= r.value < TWO63
  {
    var (number, rest) :- DecodeNumber(d, 1, s);
    Got(if number.1 then Wrap64(-number.0) else number.0, rest)
  }

  function DecodeString(d: Dialect, s: string): (r: Read<Str>)
    ensures r.Got? ==> |r.rest| < |s|
  {
    var (length, rest) :- DecodeUint(d, s);
    if length > MAX_ALLOC then Fail(HugeAllocation)
    else if length > |rest| then Fail(EndOfStream)
    else Got(rest[..length], rest[length..])
  }

  // ---------------------------------------------------------------- writing

  /** The count chain in front of the sign of a number of `n` digits. */
  function Chain(n: nat): string
  {
    if n <= 1 then ""
    else
      DigitCountShorter(n);
      Chain(|FormatNat(n)|) + FormatNat(n)
  }

  function EncodeNumber(sign: char, digits: string): string
  {
    Chain(|digits|) + [sign] + digits
  }

  function EncodeUint(v: nat): string { EncodeNumber('+', FormatNat(v)) }

  /** For the least 64-bit integer `-val` wraps back to `val`, so its digits carry a minus sign. */
  function EncodeInt(v: int): string
  {
    if v < 0 then EncodeNumber('-', FormatInt(Wrap64(-v))) else EncodeNumber('+', FormatInt(v))
  }

  function EncodeString(s: Str): string { EncodeUint(|s|) + s }

  /** The format on the wire, by example. */
  lemma WireFormat()
    ensures EncodeUint(0) == "+0" && EncodeUint(12) == "2+12" && EncodeInt(-5) == "-5" && EncodeString("abc") == "+3abc"
  {
    assert FormatNat(12) == FormatNat(1) + [Digit(2)];
    assert Chain(1) == "" && FormatNat(2) == "2" && Chain(2) == Chain(1) + FormatNat(2);
  }

  // ---------------------------------------------------------------- round trips

  /** On a count below 2^63 neither the wrap-around nor the digit check interferes. */
  lemma {:induction false} CountDigitsExact(d: Dialect, acc: nat, s: string)
    requires AllDigits(s)
    requires Accumulate(acc, s) < TWO63
    ensures CountDigits(d, acc, s) == Some(Accumulate(acc, s))
    decreases |s|
  {
    if s != [] {
      var next := 10 * acc + DigitValue(s[0]);
      AccumulateGrows(next, s[1..]);
      CountDigitsExact(d, next, s[1..]);
    }
  }

  /** The reader consumes the digits of a count and goes on with that count. */
  lemma ReadCount(d: Dialect, n: nat, s: string)
    requires 1 <= n <= MAX_ALLOC
    ensures DecodeNumber(d, |FormatNat(n)|, FormatNat(n) + s) == DecodeNumber(d, n, s)
  {
    var digits := FormatNat(n);
    var input := digits + s;
    AccumulateFormatNat(n);
    DigitCountBound(n);
    assert input[0] == digits[0] && '1' <= digits[0] <= '9';
    assert Accumulate(0, digits) == Accumulate(DigitValue(digits[0]), digits[1..]);
    if |digits| == 1 {
      assert Accumulate(DigitValue(digits[0]), []) == DigitValue(digits[0]);
      assert digits[1..] == [];
      assert input[1..] == s;
    } else {
      assert input[1..][..|digits| - 1] == digits[1..];
      assert input[1..][|digits| - 1..] == s;
      CountDigitsExact(d, DigitValue(digits[0]), digits[1..]);
    }
  }

  lemma ChainSplits(n: nat, s: string)
    requires n >= 2
    ensures Chain(n) + s == Chain(|FormatNat(n)|) + (FormatNat(n) + s)
  {
  }

  /** Starting from one digit, the reader works through the whole chain, whatever follows it. */
  lemma {:induction false} ReadChain(d: Dialect, n: nat, s: string)
    requires 1 <= n <= MAX_ALLOC
    ensures DecodeNumber(d, 1, Chain(n) + s) == DecodeNumber(d, n, s)
    decreases n
  {
    if n == 1 {
      assert Chain(n) + s == s;
    } else {
      var m := |FormatNat(n)|;
      DigitCountShorter(n);
      ChainSplits(n, s);
      ReadChain(d, m, FormatNat(n) + s);
      ReadCount(d, n, s);
    }
  }

  lemma ReadEncodedNumber(d: Dialect, sign: char, digits: string, rest: string)
    requires sign == '+' || sign == '-'
    requires 1 <= |digits| <= MAX_ALLOC
    ensures DecodeNumber(d, 1, EncodeNumber(sign, digits) + rest)
         == match ParseInt(digits)
            case None => Fail(BadDigits)
            case Some(v) => Got((v, sign == '-'), rest)
  {
    var tail := [sign] + digits + rest;
    assert EncodeNumber(sign, digits) + rest == Chain(|digits|) + tail;
    ReadChain(d, |digits|, tail);
    assert tail[1..][..|digits|] == digits && tail[1..][|digits|..] == rest;
  }

  /** A 64-bit number is short enough to allocate. */
  lemma DigitsFit(v: nat)
    requires v <= TWO64
    ensures |FormatNat(v)| <= 20
  {
    assert Power10(5) == 100_000;
    assert Power10(10) == 100_000 * Power10(5);
    assert Power10(15) == 100_000 * Power10(10);
    assert Power10(20) == 100_000 * Power10(15);
    DigitsFitWithin(v, 20);
  }

  function Power10(k: nat): nat { if k == 0 then 1 else 10 * Power10(k - 1) }

  lemma {:induction false} DigitsFitWithin(v: nat, k: nat)
    requires k >= 1 && v < Power10(k)
    ensures |FormatNat(v)| <= k
  {
    if v >= 10 { DigitsFitWithin(v / 10, k - 1); }
  }

  /**
   Reading a written unsigned number gives it back with the exact remaining input, if and only if it is below
   2^63.
   */
  lemma UintRoundTrip(d: Dialect, v: nat, rest: string)
    requires v < TWO64
    ensures DecodeUint(d, EncodeUint(v) + rest) == if v < TWO63 then Got(v, rest) else Fail(BadDigits)
  {
    DigitsFit(v);
    ReadEncodedNumber(d, '+', FormatNat(v), rest);
    ParseFormatInt(v);
  }

  lemma FormattedRoundTrip(d: Dialect, sign: char, m: int, rest: string)
    requires sign == '+' || sign == '-'
    requires -TWO63 <= m < TWO63
    ensures DecodeNumber(d, 1, EncodeNumber(sign, FormatInt(m)) + rest) == Got((m, sign == '-'), rest)
  {
    ParseFormatInt(m);
    DigitsFit(if m < 0 then -m else m);
    ReadEncodedNumber(d, sign, FormatInt(m), rest);
  }

  lemma NegatedTwice(v: int)
    requires -TWO63 <= v < TWO63
    ensures Wrap64(-Wrap64(-v)) == v
  {
  }

  lemma DecodeIntOf(d: Dialect, s: string, m: int, negative: bool, rest: string)
    requires DecodeNumber(d, 1, s) == Got((m, negative), rest)
    ensures DecodeInt(d, s) == Got(if negative then Wrap64(-m) else m, rest)
  {
  }

  /** Every 64-bit signed number survives the trip, the least one included. */
  lemma IntRoundTrip(d: Dialect, v: int, rest: string)
    requires -TWO63 <= v < TWO63
    ensures DecodeInt(d, EncodeInt(v) + rest) == Got(v, rest)
  {
    var sign, m := if v < 0 then '-' else '+', if v < 0 then Wrap64(-v) else v;
    NegatedTwice(v);
    FormattedRoundTrip(d, sign, m, rest);
    DecodeIntOf(d, EncodeInt(v) + rest, m, v < 0, rest);
  }

  lemma StringRoundTrip(d: Dialect, s: Str, rest: string)
    ensures DecodeString(d, EncodeString(s) + rest) == Got(s, rest)
  {
    assert EncodeString(s) + rest == EncodeUint(|s|) + (s + rest);
    UintRoundTrip(d, |s|, s + rest);
  }

  /** No written number is a proper prefix of another: the code is self-delimiting. */
  lemma UintPrefixFree(v: nat, w: nat)
    requires v < TWO63 && w < TWO63
    requires EncodeUint(v) <= EncodeUint(w)
    ensures v == w
  {
    var rest := EncodeUint(w)[|EncodeUint(v)|..];
    assert EncodeUint(v) + rest == EncodeUint(w) + "";
    UintRoundTrip(Strict, v, rest);
    UintRoundTrip(Strict, w, "");
  }

  lemma IntPrefixFree(v: int, w: int)
    requires -TWO63 <= v < TWO63 && -TWO63 <= w < TWO63
    requires EncodeInt(v) <= EncodeInt(w)
    ensures v == w
  {
    var rest := EncodeInt(w)[|EncodeInt(v)|..];
    assert EncodeInt(v) + rest == EncodeInt(w) + "";
    IntRoundTrip(Strict, v, rest);
    IntRoundTrip(Strict, w, "");
  }

  // ---------------------------------------------------------------- the two readers agree

  lemma {:induction false} LaxCountAgrees(acc: int, s: string)
    requires CountDigits(Strict, acc, s).Some?
    ensures CountDigits(Lax, acc, s) == CountDigits(Strict, acc, s)
    decreases |s|
  {
    if s != [] { LaxCountAgrees(Wrap64(10 * acc + DigitValue(s[0]) % 256), s[1..]); }
  }

  /** On every stream the strict reader accepts, the lax reader returns the same value and the same remaining input. */
  lemma {:induction false} LaxNumberAgrees(count: int, s: string)
    requires DecodeNumber(Strict, count, s).Got?
    ensures DecodeNumber(Lax, count, s) == DecodeNumber(Strict, count, s)
    decreases |s|
  {
    var c, tail := s[0], s[1..];
    if '1' <= c <= '9' {
      if count <= 1 {
        LaxNumberAgrees(DigitValue(c), tail);
      } else {
        LaxCountAgrees(DigitValue(c), tail[..count - 1]);
        LaxNumberAgrees(CountDigits(Strict, DigitValue(c), tail[..count - 1]).value, tail[count - 1..]);
      }
    }
  }

  /** The agreement is one way: after `21:` the lax reader goes on with a count of twenty, the strict one stops. */
  lemma LaxTakesColon(s: string)
    ensures DecodeNumber(Strict, 1, "21:" + s) == Fail(NonDigitCount)
    ensures DecodeNumber(Lax, 1, "21:" + s) == DecodeNumber(Lax, 20, s)
  {
    var input := "21:" + s;
    var tail := input[1..];
    assert tail[0] == '1' && tail[1..][..1] == ":" && tail[1..][1..] == s;
    assert CountDigits(Strict, 1, ":") == None && CountDigits(Lax, 1, ":") == Some(20) by {
      assert CountDigits(Lax, 20, ":"[1..]) == Some(20);
    }
    assert forall d :: DecodeNumber(d, 1, input) == DecodeNumber(d, 2, tail);
  }
}
