/**
 The buffered reader and writer of the DIS codec, as objects that consume and extend a stream.
 Each method is tied to the function of module DisCodec that specifies it.
 */
module DisStream {
  import opened Decimal
  import opened DisCodec

  datatype Outcome<+T> = Ok(value: T) | Err(error: Error)

  /** What a reader method returns for a specified read. */
  function Result<T>(r: Read<T>): Outcome<T> {
    match r case Got(v, _) => Ok(v) case Fail(e) => Err(e)
  }

  class Reader {
    const dialect: Dialect
    var input: string

    constructor (d: Dialect, s: string)
      ensures dialect == d && input == s
    {
      dialect := d;
      input := s;
    }

    /** `io.ReadFull` into a fresh buffer of `n` bytes. */
    method ReadFull(n: int) returns (r: Outcome<string>)
      modifies this
      ensures !(0 <= n <= MAX_ALLOC) ==> r == Err(HugeAllocation)
      ensures 0 <= n <= MAX_ALLOC && n > old(|input|) ==> r == Err(EndOfStream)
      ensures 0 <= n <= MAX_ALLOC && n <= old(|input|) ==> r == Ok(old(input)[..n]) && input == old(input)[n..]
    {
      if !(0 <= n <= MAX_ALLOC) { return Err(HugeAllocation); }
      if n > |input| {
        input := "";
        return Err(EndOfStream);
      }
      r := Ok(input[..n]);
      input := input[n..];
    }

    method Disrsi(count: int) returns (r: Outcome<(int, bool)>)
      modifies this
      ensures r == Result(DecodeNumber(dialect, count, old(input)))
      ensures r.Ok? ==> input == DecodeNumber(dialect, count, old(input)).rest
      decreases |input|
    {
      if |input| == 0 { return Err(EndOfStream); }
      var c := input[0];
      input := input[1..];
      if c == '+' || c == '-' {
        var buf := ReadFull(count);
        if buf.Err? { return Err(buf.error); }
        var val := ParseInt(buf.value);
        return if val.None? then Err(BadDigits) else Ok((val.value, c == '-'));
      } else if '1' <= c <= '9' {
        var ndigs := DigitValue(c);
        if count > 1 {
          var buf := ReadFull(count - 1);
          if buf.Err? { return Err(buf.error); }
          var i := 0;
          while i < |buf.value|
            invariant 0 <= i <= |buf.value|
            invariant CountDigits(dialect, ndigs, buf.value[i..]) == CountDigits(dialect, DigitValue(c), buf.value)
          {
            var b := buf.value[i];
            if dialect == Strict && !IsDigit(b) { return Err(NonDigitCount); }
            ndigs := Wrap64(10 * ndigs + DigitValue(b) % 256);
            assert buf.value[i..][1..] == buf.value[i + 1..];
            i := i + 1;
          }
        }
        r := Disrsi(ndigs);
      } else {
        return Err(if c == '0' then LeadingZero else UnexpectedByte);
      }
    }

    method ReadUint() returns (r: Outcome<nat>)
      modifies this
      ensures r == Result(DecodeUint(dialect, old(input)))
      ensures r.Ok? ==> input == DecodeUint(dialect, old(input)).rest
    {
      var number := Disrsi(1);
      if number.Err? { return Err(number.error); }
      return if number.value.1 then Err(NegativeUint) else Ok(ToUint64(number.value.0));
    }

    method ReadInt() returns (r: Outcome<int>)
      modifies this
      ensures r == Result(DecodeInt(dialect, old(input)))
      ensures r.Ok? ==> input == DecodeInt(dialect, old(input)).rest
    {
      var number := Disrsi(1);
      if number.Err? { return Err(number.error); }
      return Ok(if number.value.1 then Wrap64(-number.value.0) else number.value.0);
    }

    method ReadString() returns (r: Outcome<Str>)
      modifies this
      ensures r == Result(DecodeString(dialect, old(input)))
      ensures r.Ok? ==> input == DecodeString(dialect, old(input)).rest
    {
      var length := ReadUint();
      if length.Err? { return Err(length.error); }
      if length.value == 0 { return Ok(""); }
      var buf := ReadFull(length.value);
      return if buf.Err? then Err(buf.error) else Ok(buf.value);
    }
  }

  class Writer {
    var output: string

    constructor ()
      ensures output == ""
    {
      output := "";
    }

    /** The loop of `WriteUint` and `WriteInt`: put counts in front until one digit is left. */
    method WriteNumber(sign: char, digits: string)
      modifies this
      ensures output == old(output) + EncodeNumber(sign, digits)
    {
      var ndigs: nat := |digits|;
      var prefix := [sign];
      while ndigs > 1
        invariant Chain(ndigs) + prefix == Chain(|digits|) + [sign]
        invariant output == old(output)
      {
        DigitCountShorter(ndigs);
        var countStr := FormatNat(ndigs);
        assert Chain(ndigs) + prefix == Chain(|countStr|) + (countStr + prefix);
        prefix := countStr + prefix;
        ndigs := |countStr|;
      }
      assert prefix == Chain(ndigs) + prefix;
      output := output + prefix;
      output := output + digits;
      assert output == old(output) + (Chain(|digits|) + [sign] + digits);
    }

    method WriteUint(v: nat)
      modifies this
      ensures output == old(output) + EncodeUint(v)
    {
      WriteNumber('+', FormatNat(v));
    }

    method WriteInt(v: int)
      modifies this
      ensures output == old(output) + EncodeInt(v)
    {
      if v < 0 { WriteNumber('-', FormatInt(Wrap64(-v))); } else { WriteNumber('+', FormatInt(v)); }
    }

    method WriteString(s: Str)
      modifies this
      ensures output == old(output) + EncodeString(s)
    {
      WriteUint(|s|);
      if |s| > 0 { output := output + s; }
    }
  }
}
