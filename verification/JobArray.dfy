/** Job-array specifications: which indices a text such as "1-9:2,12" asks for, and the task ids made of them. */
module JobArray {
  import opened Decimal
  import opened Strings
  import opened Listing
  import opened Sorting
  import opened Int64Loop

  // ---------------------------------------------------------------- scanning integers

  /** Skips white space as `fmt.Sscanf` does before %d; a newline ends the scan. */
  function SkipSpace(s: string): Option<string> {
    if s == "" then Some(s)
    else if s[0] == '\n' then None
    else if IsSpace(s[0]) then SkipSpace(s[1..])
    else Some(s)
  }

  function DigitPrefix(s: string): (n: nat)
    ensures n <= |s|
  {
    if s != "" && IsDigit(s[0]) then 1 + DigitPrefix(s[1..]) else 0
  }

  /** %d: an optional sign and digits within int64, and the text that follows. */
  function ScanInt(s: string): (r: Option<(int, string)>)
    ensures r.Some? ==> -TWO63 <= r.value.0 < TWO63
  {
    match SkipSpace(s)
    case None => None
    case Some(t) =>
      var negative := t != "" && t[0] == '-';
      var u := if t != "" && (t[0] == '-' || t[0] == '+') then t[1..] else t;
      var n := DigitPrefix(u);
      var v := if negative then -Accumulate(0, u[..n]) else Accumulate(0, u[..n]);
      if n == 0 || v < -TWO63 || v >= TWO63 then None else Some((v, u[n..]))
  }

  /** A literal character of the format, then %d. */
  function ScanAfter(s: string, c: char): Option<(int, string)> {
    if s != "" && s[0] == c then ScanInt(s[1..]) else None
  }

  datatype Range = Range(lo: int, hi: int, step: int)

  /** Its three numbers are Go ints. */
  predicate InInt64(r: Range) { -TWO63 <= r.lo < TWO63 && -TWO63 <= r.hi < TWO63 && -TWO63 <= r.step < TWO63 }

  /** "lo-hi:step", else "lo-hi", else "lo"; whatever follows is ignored. */
  function ParsePart(part: string): (r: Option<Range>)
    ensures r.Some? ==> InInt64(r.value)
  {
    match ScanInt(part)
    case None => None
    case Some((lo, rest)) =>
      match ScanAfter(rest, '-')
      case None => Some(Range(lo, lo, 1))
      case Some((hi, more)) =>
        match ScanAfter(more, ':')
        case None => Some(Range(lo, hi, 1))
        case Some((step, _)) => Some(Range(lo, hi, step))
  }

  lemma {:induction false} DigitPrefixOf(d: string, rest: string)
    requires AllDigits(d) && (rest == "" || !IsDigit(rest[0]))
    ensures DigitPrefix(d + rest) == |d|
  {
    if d == "" {
      assert d + rest == rest;
    } else {
      assert (d + rest)[1..] == d[1..] + rest;
      DigitPrefixOf(d[1..], rest);
    }
  }

  lemma ScanDigits(sign: string, d: string, rest: string)
    requires sign == "" || sign == "-"
    requires d != "" && AllDigits(d) && (rest == "" || !IsDigit(rest[0]))
    requires var v := if sign == "-" then -Accumulate(0, d) else Accumulate(0, d); -TWO63 <= v < TWO63
    ensures ScanInt(sign + d + rest) == Some((if sign == "-" then -Accumulate(0, d) else Accumulate(0, d), rest))
  {
    var t := sign + d + rest;
    assert IsDigit(d[0]) && t[0] == (if sign == "-" then '-' else d[0]);
    assert SkipSpace(t) == Some(t);
    var u := if sign == "-" then t[1..] else t;
    assert u == d + rest;
    DigitPrefixOf(d, rest);
    assert u[..|d|] == d && u[|d|..] == rest;
  }

  lemma ScanNegative(n: int, rest: string)
    requires 0 < n <= TWO63 && (rest == "" || !IsDigit(rest[0]))
    ensures ScanInt("-" + FormatNat(n) + rest) == Some((-n, rest))
  {
    AccumulateFormatNat(n);
    ScanDigits("-", FormatNat(n), rest);
  }

  lemma ScanNatural(n: nat, rest: string)
    requires n < TWO63 && (rest == "" || !IsDigit(rest[0]))
    ensures ScanInt(FormatNat(n) + rest) == Some((n, rest))
  {
    AccumulateFormatNat(n);
    ScanDigits("", FormatNat(n), rest);
    assert "" + FormatNat(n) + rest == FormatNat(n) + rest;
  }

  /** An int64 written in decimal is read back, up to the first character that is not a digit. */
  lemma ScanFormatted(n: int, rest: string)
    requires -TWO63 <= n < TWO63 && (rest == "" || !IsDigit(rest[0]))
    ensures ScanInt(FormatInt(n) + rest) == Some((n, rest))
  {
    if n < 0 { ScanNegative(-n, rest); } else { ScanNatural(n, rest); }
  }

  /** The three forms of a piece are read as written. */
  lemma PartsAreReadAsWritten(lo: int, hi: int, step: int)
    requires -TWO63 <= lo < TWO63 && -TWO63 <= hi < TWO63 && -TWO63 <= step < TWO63
    ensures ParsePart(FormatInt(lo)) == Some(Range(lo, lo, 1))
    ensures ParsePart(FormatInt(lo) + ("-" + FormatInt(hi))) == Some(Range(lo, hi, 1))
    ensures ParsePart(FormatInt(lo) + ("-" + (FormatInt(hi) + (":" + FormatInt(step))))) == Some(Range(lo, hi, step))
  {
    assert FormatInt(lo) + "" == FormatInt(lo) && FormatInt(hi) + "" == FormatInt(hi)
        && FormatInt(step) + "" == FormatInt(step);
    ScanFormatted(lo, "");
    ScanFormatted(hi, "");
    ScanFormatted(step, "");
    var three := ":" + FormatInt(step);
    assert three[1..] == FormatInt(step);
    ScanFormatted(hi, three);
    DashThen(lo, FormatInt(hi));
    DashThen(lo, FormatInt(hi) + three);
  }

  lemma DashThen(lo: int, rest: string)
    requires -TWO63 <= lo < TWO63
    ensures ScanInt(FormatInt(lo) + ("-" + rest)) == Some((lo, "-" + rest))
            && ScanAfter("-" + rest, '-') == ScanInt(rest)
  {
    ScanFormatted(lo, "-" + rest);
    assert ("-" + rest)[1..] == rest;
  }

  // ---------------------------------------------------------------- what a specification asks for

  function Least(r: Range): int { if r.lo <= r.hi then r.lo else r.hi }

  function Greatest(r: Range): int { if r.lo <= r.hi then r.hi else r.lo }

  function Step(r: Range): (s: int)
    ensures s >= 1
  {
    if r.step <= 0 then 1 else r.step
  }

  /** `v` is in the progression, which starts at the smaller bound. */
  predicate InRange(r: Range, v: int) {
    Least(r) <= v <= Greatest(r) && (v - Least(r)) % Step(r) == 0
  }

  function Parts(spec: string): seq<string> { Split(spec, ',') }

  predicate PartOk(part: string) { TrimSpace(part) == "" || ParsePart(TrimSpace(part)).Some? }

  predicate PartAsks(part: string, v: int) {
    && TrimSpace(part) != "" && ParsePart(TrimSpace(part)).Some?
    && InRange(ParsePart(TrimSpace(part)).value, v)
  }

  /** The loop of the piece's range comes to `v`. */
  ghost predicate PartCollects(part: string, v: int) {
    && TrimSpace(part) != "" && ParsePart(TrimSpace(part)).Some?
    && Collects(ParsePart(TrimSpace(part)).value, v)
  }

  /** The loop of the piece's range never ends. */
  predicate PartUnending(part: string) {
    TrimSpace(part) != "" && ParsePart(TrimSpace(part)).Some? && !Ends(ParsePart(TrimSpace(part)).value)
  }

  predicate PartFine(part: string) { PartOk(part) && !PartUnending(part) }

  /** The pieces before `i` are fine. */
  predicate FineUpTo(parts: seq<string>, i: nat)
    requires i <= |parts|
  {
    forall k :: 0 <= k < i ==> PartFine(parts[k])
  }

  /** The first piece that is not fine is not a range at all, or has a loop that never ends. */
  predicate FirstIsInvalid(parts: seq<string>) {
    exists i :: 0 <= i < |parts| && FineUpTo(parts, i) && !PartOk(parts[i])
  }

  predicate FirstIsUnending(parts: seq<string>) {
    exists i :: 0 <= i < |parts| && FineUpTo(parts, i) && PartUnending(parts[i])
  }

  predicate Asks(parts: seq<string>, v: int) { exists i :: 0 <= i < |parts| && PartAsks(parts[i], v) }

  ghost predicate Gathers(parts: seq<string>, v: int) { exists i :: 0 <= i < |parts| && PartCollects(parts[i], v) }

  lemma GathersMore(parts: seq<string>, part: string, v: int)
    ensures Gathers(parts + [part], v) <==> Gathers(parts, v) || PartCollects(part, v)
  {
    var all := parts + [part];
    if Gathers(parts, v) {
      var i :| 0 <= i < |parts| && PartCollects(parts[i], v);
      assert PartCollects(all[i], v);
    }
    if PartCollects(part, v) { assert PartCollects(all[|parts|], v); }
  }

  lemma MultipleMod(p: int, step: nat)
    requires step >= 1
    ensures (p * step) % step == 0
  {
    var d, m := (p * step) / step, (p * step) % step;
    assert p * step == d * step + m;
    if d < p { MultiplesApart(d, p, step); }
    if p < d { MultiplesApart(p, d, step); }
  }

  /** The last member of the progression. */
  function Last(r: Range): int { Greatest(r) - (Greatest(r) - Least(r)) % Step(r) }

  /** The counter passes the end of int64 right after the last member and comes round below the upper bound. */
  predicate Wraps(r: Range) { Last(r) + Step(r) >= TWO63 }

  /** The loop of the range ends: the greatest int64 its counter can take is above the upper bound. */
  predicate Ends(r: Range) { Top(Least(r), Step(r)) > Greatest(r) }

  /** The body of the loop runs for `x`. */
  ghost predicate Collects(r: Range, x: int) { Visits(Least(r), Greatest(r), Step(r), x) }

  lemma LastInRange(r: Range)
    ensures InRange(r, Last(r)) && Greatest(r) < Last(r) + Step(r)
  {
    var span, step := Greatest(r) - Least(r), Step(r);
    assert span == (span / step) * step + span % step;
    assert Last(r) - Least(r) == (span / step) * step;
    MultipleMod(span / step, step);
    QuotientIsNat(span, step);
  }

  lemma QuotientIsNat(span: nat, step: nat)
    requires step >= 1
    ensures (span / step) * step >= 0
  {
  }

  /** The number of steps from the first member to the last. */
  function Steps(r: Range): nat { StepsFit(Greatest(r) - Least(r), Step(r)); (Greatest(r) - Least(r)) / Step(r) }

  lemma StepsFit(span: nat, step: nat)
    requires step >= 1
    ensures span / step >= 0
  {
  }

  lemma LastAfterSteps(r: Range)
    ensures Last(r) == Least(r) + Steps(r) * Step(r)
  {
    var span, step := Greatest(r) - Least(r), Step(r);
    assert span == (span / step) * step + span % step;
  }

  lemma FewerSteps(r: Range, k: nat)
    requires k <= Steps(r)
    ensures Least(r) <= Least(r) + k * Step(r) <= Last(r)
  {
    LastAfterSteps(r);
    if k < Steps(r) { MultiplesApart(k, Steps(r), Step(r)); }
    if k > 0 { MultiplesApart(0, k, Step(r)); }
  }

  /** Up to the last member the counter does not wrap. */
  lemma CounterAtMember(r: Range, k: nat)
    requires InInt64(r) && k <= Steps(r)
    ensures Counter(Least(r), Step(r), k) == Least(r) + k * Step(r) && InRange(r, Least(r) + k * Step(r))
  {
    FewerSteps(r, k);
    LastInRange(r);
    CounterUnwrapped(Least(r), Step(r), k);
    MultipleMod(k, Step(r));
  }

  lemma MemberReached(r: Range, k: nat)
    requires InInt64(r) && k <= Steps(r)
    ensures Reached(Least(r), Greatest(r), Step(r), k)
  {
    forall j: nat | j <= k ensures Counter(Least(r), Step(r), j) <= Greatest(r) { CounterAtMember(r, j); }
  }

  /** A member of the progression is so many steps from the first. */
  lemma StepOf(r: Range, x: int) returns (k: nat)
    requires InInt64(r) && InRange(r, x)
    ensures k <= Steps(r) && x == Least(r) + k * Step(r)
  {
    StepsFit(x - Least(r), Step(r));
    k := (x - Least(r)) / Step(r);
    assert x - Least(r) == k * Step(r);
    LastAfterSteps(r);
    LastInRange(r);
    if k > Steps(r) { MultiplesApart(Steps(r), k, Step(r)); }
  }

  /** The loop visits all it is asked for, wrapped or not. */
  lemma AskedIsCollected(r: Range, x: int)
    requires InInt64(r) && InRange(r, x)
    ensures Collects(r, x)
  {
    var k := StepOf(r, x);
    CounterAtMember(r, k);
    MemberReached(r, k);
  }

  /** The value the counter has after the last member. */
  lemma CounterAfterLast(r: Range)
    requires InInt64(r)
    ensures Counter(Least(r), Step(r), Steps(r) + 1) == Wrap64(Last(r) + Step(r))
    ensures Wraps(r) <==> Wrap64(Last(r) + Step(r)) <= Greatest(r)
  {
    CounterAtMember(r, Steps(r));
    LastAfterSteps(r);
    LastInRange(r);
    if Wraps(r) { WrapsBelow(Last(r), Step(r)); }
  }

  /** Without a wrap the loop ends and visits nothing else. */
  lemma UnwrappedLoop(r: Range)
    requires InInt64(r) && !Wraps(r)
    ensures Ends(r) && forall x :: Collects(r, x) <==> InRange(r, x)
  {
    CounterAfterLast(r);
    var lo, hi, step, n := Least(r), Greatest(r), Step(r), Steps(r);
    assert EndsAt(lo, hi, step, n + 1);
    EndsIff(lo, hi, step);
    forall x ensures Collects(r, x) <==> InRange(r, x) {
      if InRange(r, x) { AskedIsCollected(r, x); }
      if Collects(r, x) {
        var k: nat :| Reached(lo, hi, step, k) && Counter(lo, step, k) == x;
        assert k <= n;
        CounterAtMember(r, k);
      }
    }
  }

  /** A loop that wraps and still ends has visited a value it was not asked for. */
  lemma WrappedLoop(r: Range)
    requires InInt64(r) && Wraps(r) && Ends(r)
    ensures var x := Wrap64(Last(r) + Step(r)); Collects(r, x) && !InRange(r, x)
  {
    var lo, hi, step, n := Least(r), Greatest(r), Step(r), Steps(r);
    var x := Wrap64(Last(r) + step);
    CounterAfterLast(r);
    forall j: nat | j <= n + 1 ensures Counter(lo, step, j) <= hi { if j <= n { CounterAtMember(r, j); } }
    assert Reached(lo, hi, step, n + 1);
    if InRange(r, x) {
      var m := StepOf(r, x);
      CounterAtMember(r, m);
      EndsIff(lo, hi, step);
      var k: nat :| EndsAt(lo, hi, step, k);
      RoundForEver(lo, hi, step, n + 1, m, k);
    }
  }

  /** What a loop that ends has visited is its progression if and only if its counter does not wrap. */
  lemma CollectsAskedIff(r: Range)
    requires InInt64(r) && Ends(r)
    ensures (forall x :: Collects(r, x) <==> InRange(r, x)) <==> !Wraps(r)
  {
    if Wraps(r) { WrappedLoop(r); } else { UnwrappedLoop(r); }
  }

  /** `trail` are the first values of the counter, all within the upper bound. */
  ghost predicate Trail(r: Range, trail: seq<int>) {
    forall k :: 0 <= k < |trail| ==> trail[k] == Counter(Least(r), Step(r), k) && trail[k] <= Greatest(r)
  }

  lemma TrailNext(r: Range, trail: seq<int>, v: int)
    requires Trail(r, trail) && v == Counter(Least(r), Step(r), |trail|) && v <= Greatest(r)
    ensures Trail(r, trail + [v])
  {
  }

  /** A loop that has ended has visited the values of its trail. */
  lemma TrailIsCollected(r: Range, trail: seq<int>, x: int)
    requires Trail(r, trail) && EndsAt(Least(r), Greatest(r), Step(r), |trail|)
    ensures x in trail <==> Collects(r, x)
  {
    var lo, hi, step := Least(r), Greatest(r), Step(r);
    if x in trail {
      var k :| 0 <= k < |trail| && trail[k] == x;
      forall j: nat | j <= k ensures Counter(lo, step, j) <= hi { assert trail[j] <= hi; }
      assert Reached(lo, hi, step, k);
    }
    if Collects(r, x) {
      var k: nat :| Reached(lo, hi, step, k) && Counter(lo, step, k) == x;
      if k < |trail| { assert trail[k] == x; }
    }
  }

  /** `out` are the indices and the trail. */
  ghost predicate Holds(indices: seq<int>, trail: seq<int>, out: seq<int>) {
    NoDup(out) && forall x :: x in out <==> x in indices || x in trail
  }

  lemma HoldsNext(indices: seq<int>, trail: seq<int>, out: seq<int>, v: int)
    requires Holds(indices, trail, out)
    ensures Holds(indices, trail + [v], if v in out then out else out + [v])
  {
    if v !in out { NoDupAppend(out, v); }
  }

  /**
   `addRange`: appends what its loop visits and the list does not have; None is a loop that never ends. The
   code has no such test.
   */
  method AddRange(indices: seq<int>, r: Range) returns (all: Option<seq<int>>)
    requires NoDup(indices) && InInt64(r)
    ensures all.Some? <==> Ends(r)
    ensures all.Some? ==> NoDup(all.value) && forall x :: x in all.value <==> x in indices || Collects(r, x)
  {
    if !Ends(r) { return None; }
    var step, lo, hi := Step(r), Least(r), Greatest(r);
    EndsIff(lo, hi, step);
    ghost var limit: nat :| EndsAt(lo, hi, step, limit);
    var out := indices;
    var v := lo;
    ghost var trail: seq<int> := [];
    while v <= hi
      invariant v == Counter(lo, step, |trail|) && |trail| <= limit && Trail(r, trail) && Holds(indices, trail, out)
      decreases limit - |trail|
    {
      TrailNext(r, trail, v);
      HoldsNext(indices, trail, out, v);
      if v !in out { out := out + [v]; }
      trail := trail + [v];
      v := Wrap64(v + step);
    }
    forall x ensures x in trail <==> Collects(r, x) { TrailIsCollected(r, trail, x); }
    return Some(out);
  }

  lemma WrapsBelow(v: int, step: int)
    requires -TWO63 <= v < TWO63 && 1 <= step < TWO63 && v + step >= TWO63
    ensures Wrap64(v + step) == v + step - TWO64
  {
    assert (v + step + TWO63) == TWO64 + (v + step - TWO63) && 0 <= v + step - TWO63 < TWO64;
  }

  /** With "9223372036854775800-9223372036854775807" the counter wraps to the least int64 and the loop never ends. */
  lemma TopOfRangeWraps()
    ensures var r := Range(TWO63 - 8, TWO63 - 1, 1); Wraps(r) && !Ends(r)
  {
    assert Pow2(Twos(1)) == 1;
  }

  const LONG_STEP := Range(5, 10, TWO63 - 1)

  const LONG_STEP_TRAIL: seq<int> := [5, 4 - TWO63, 3, 2 - TWO63, 1, -TWO63, -1]

  /** Two steps of 2^63 - 1 are two back. */
  lemma LongStepValues(k: nat)
    requires k <= 3
    ensures Counter(5, TWO63 - 1, 2 * k) == if k == 3 then -1 else 5 - 2 * k
    ensures Counter(5, TWO63 - 1, 2 * k + 1) == if k == 3 then TWO63 - 2 else 4 - 2 * k - TWO63
  {
    CounterIs(5, TWO63 - 1, 2 * k, 5 - 2 * k, k);
    CounterIs(5, TWO63 - 1, 2 * k + 1, if k == 3 then TWO63 - 2 else 4 - 2 * k - TWO63, if k == 3 then k else k + 1);
  }

  lemma LongStepTrail()
    ensures Trail(LONG_STEP, LONG_STEP_TRAIL) && EndsAt(5, 10, TWO63 - 1, 7)
  {
    forall k | 0 <= k < 7 ensures LONG_STEP_TRAIL[k] == Counter(5, TWO63 - 1, k) { LongStepValues(k / 2); }
    LongStepValues(3);
  }

  /** With "5-10:9223372036854775807" the loop ends after seven values, of which six were not asked for. */
  lemma LongStepWraps()
    ensures Wraps(LONG_STEP) && Ends(LONG_STEP) && forall x :: Collects(LONG_STEP, x) <==> x in LONG_STEP_TRAIL
  {
    LongStepTrail();
    EndsIff(5, 10, TWO63 - 1);
    forall x ensures Collects(LONG_STEP, x) <==> x in LONG_STEP_TRAIL {
      TrailIsCollected(LONG_STEP, LONG_STEP_TRAIL, x);
    }
  }

  ghost predicate Increasing(s: seq<int>) { forall i, j :: 0 <= i < j < |s| ==> s[i] < s[j] }

  predicate Smaller(a: int, b: int) { a < b }

  lemma SortedMembers(s: seq<int>)
    requires NoDup(s)
    ensures var t := Sort(s, Smaller);
            && (forall x :: x in t <==> x in s)
            && Increasing(t)
  {
    var t := Sort(s, Smaller);
    SortMultiset(s, Smaller);
    SortSorted(s, Smaller);
    forall x ensures x in t <==> x in s { assert x in multiset(t) <==> x in multiset(s); }
    DistinctIfSame(s, t);
  }

  lemma GathersUpTo(parts: seq<string>, i: nat)
    requires i < |parts|
    ensures forall v :: Gathers(parts[..i + 1], v) <==> Gathers(parts[..i], v) || PartCollects(parts[i], v)
  {
    assert parts[..i + 1] == parts[..i] + [parts[i]];
    forall v ensures Gathers(parts[..i + 1], v) <==> Gathers(parts[..i], v) || PartCollects(parts[i], v) {
      GathersMore(parts[..i], parts[i], v);
    }
  }

  /** What parsing a specification comes to: `Unending` is a loop that never ends. */
  datatype Expansion = Indices(all: seq<int>) | Invalid | Unending

  /** The outcome fits the pieces. */
  ghost predicate Expands(parts: seq<string>, e: Expansion) {
    match e
    case Indices(all) => FineUpTo(parts, |parts|) && NoDup(all) && forall v :: v in all <==> Gathers(parts, v)
    case Invalid => FirstIsInvalid(parts)
    case Unending => FirstIsUnending(parts)
  }

  /** Exactly one outcome fits. */
  lemma OneOutcome(parts: seq<string>)
    ensures !(FineUpTo(parts, |parts|) && FirstIsInvalid(parts))
    ensures !(FineUpTo(parts, |parts|) && FirstIsUnending(parts))
    ensures !(FirstIsInvalid(parts) && FirstIsUnending(parts))
  {
  }

  /** The piece is no range whose counter wraps. */
  predicate PartUnwrapped(part: string) {
    TrimSpace(part) != "" && ParsePart(TrimSpace(part)).Some? ==> !Wraps(ParsePart(TrimSpace(part)).value)
  }

  /** Pieces that do not wrap give exactly what they ask for. */
  lemma GathersWhatIsAsked(parts: seq<string>, v: int)
    requires forall i :: 0 <= i < |parts| ==> PartUnwrapped(parts[i])
    ensures Gathers(parts, v) <==> Asks(parts, v)
  {
    forall i | 0 <= i < |parts| ensures PartCollects(parts[i], v) <==> PartAsks(parts[i], v) {
      var text := TrimSpace(parts[i]);
      if text != "" && ParsePart(text).Some? { UnwrappedLoop(ParsePart(text).value); }
    }
  }

  method AddPart(out: seq<int>, part: string) returns (e: Expansion)
    requires NoDup(out)
    ensures e.Invalid? <==> !PartOk(part)
    ensures e.Unending? <==> PartUnending(part)
    ensures e.Indices? ==> NoDup(e.all) && forall v :: v in e.all <==> v in out || PartCollects(part, v)
  {
    var text := TrimSpace(part);
    if text == "" { return Indices(out); }
    var r := ParsePart(text);
    if r.None? { return Invalid; }
    var more := AddRange(out, r.value);
    return if more.None? then Unending else Indices(more.value);
  }

  /** `all` holds what the loops of the first `i` pieces visit. */
  ghost predicate Gathered(parts: seq<string>, i: nat, all: seq<int>)
    requires i <= |parts|
  {
    NoDup(all) && FineUpTo(parts, i) && forall v :: v in all <==> Gathers(parts[..i], v)
  }

  lemma GatheredNext(parts: seq<string>, i: nat, all: seq<int>, more: seq<int>)
    requires i < |parts| && Gathered(parts, i, all) && PartFine(parts[i])
    requires NoDup(more) && forall v :: v in more <==> v in all || PartCollects(parts[i], v)
    ensures Gathered(parts, i + 1, more)
  {
    GathersUpTo(parts, i);
    forall v ensures v in more <==> Gathers(parts[..i + 1], v) { assert v in all <==> Gathers(parts[..i], v); }
  }

  method Collect(parts: seq<string>) returns (e: Expansion)
    ensures Expands(parts, e)
  {
    var all: seq<int> := [];
    for i := 0 to |parts|
      invariant Gathered(parts, i, all)
    {
      var more := AddPart(all, parts[i]);
      if !more.Indices? { return more; }
      GatheredNext(parts, i, all, more.all);
      all := more.all;
    }
    assert parts[..|parts|] == parts;
    return Indices(all);
  }

  /**
   `parseArraySpec`: fails exactly if its first piece that is not fine does not start with a number, and does not
   return exactly if that piece is a range whose loop never ends. Otherwise the indices are strictly increasing
   and are those the loops of the pieces visit, no more and no less.
   */
  method ParseArraySpec(spec: string) returns (e: Expansion)
    ensures Expands(Parts(spec), e)
    ensures e.Indices? ==> Increasing(e.all)
  {
    e := Collect(Parts(spec));
    if e.Indices? {
      SortedMembers(e.all);
      e := Indices(Sort(e.all, Smaller));
    }
  }

  // ---------------------------------------------------------------- task ids

  /** The master's id up to its first dot. */
  function Base(id: string): string {
    var dot := IndexOf(id, '.');
    if dot > 0 then id[..dot] else id
  }

  function TaskId(master: string, server: string, index: int): string {
    (Base(master) + "[") + FormatInt(index) + ("]." + server)
  }

  lemma Between(before: string, a: string, b: string, after: string)
    requires before + a + after == before + b + after
    ensures a == b
  {
    assert |a| == |b|;
    assert (before + a + after)[|before|..|before| + |a|] == a;
    assert (before + b + after)[|before|..|before| + |b|] == b;
  }

  /** Different indices give different tasks. */
  lemma TaskIdsDiffer(master: string, server: string, i: int, k: int)
    requires TaskId(master, server, i) == TaskId(master, server, k)
    ensures i == k
  {
    Between(Base(master) + "[", FormatInt(i), FormatInt(k), "]." + server);
    FormatIntInjective(i, k);
  }

  /** No task has the master's id. */
  lemma TaskIsNotMaster(master: string, server: string, i: int)
    ensures TaskId(master, server, i) != master
  {
    assert TaskId(master, server, i)[|Base(master)|] == '[';
  }
}
