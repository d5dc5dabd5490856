/** Integer tokens: how `get_number` accumulates them in 64 bits, and how integers are
    printed. A number that is no integer, or too large, is a floating-point number in the
    code; here it is the error `FloatLiteral`. */
module Numbers {
  import opened ByteStrings
  import opened Decimals
  import opened Lexical
  import opened Results
  import opened Values

  const TWO64: nat := 0x1_0000_0000_0000_0000
  const UNSIGNED_MAX: nat := 0xFFFF_FFFF_FFFF_FFFF
  const NEGATIVE_MAX: nat := 0x8000_0000_0000_0000

  // ---- Reading ----------------------------------------------------------------

  /** `temp = value * 10 + digit` in 64 bits. */
  function Wrapped(value: nat, digit: nat): nat {
    (value * 10 + digit) % TWO64
  }

  /** The test for overflow. */
  predicate Overflow(value: nat, digit: nat, max: nat) {
    Wrapped(value, digit) < value || Wrapped(value, digit) > max
  }

  datatype Accumulated = Integral(value: nat) | Floating

  /** The loop of `get_number` over a text without a sign. */
  function Accumulate(s: Bytes, max: nat): Accumulated {
    if s == [] then Integral(0) else
    var before := Accumulate(s[..|s|-1], max);
    var b := s[|s|-1];
    if before.Floating? || !IsDigit(b) || Overflow(before.value, DigitValue(b), max) then Floating
    else Integral(Wrapped(before.value, DigitValue(b)))
  }

  /** The value of a number lexeme. `-static_cast<int64_t>(value)` is meant in two's complement. */
  function NumberValue(s: Bytes): Result<Json> {
    if s != [] && s[0] == '-' as byte then
      match Accumulate(s[1..], NEGATIVE_MAX)
      case Integral(v) => if v <= NEGATIVE_MAX then Ok(Int((0 - v) as int64)) else Err(FloatLiteral)
      case Floating => Err(FloatLiteral)
    else
      match Accumulate(s, UNSIGNED_MAX)
      case Integral(v) => if v <= UNSIGNED_MAX then Ok(UInt(v as uint64)) else Err(FloatLiteral)
      case Floating => Err(FloatLiteral)
  }

  lemma {:induction false} AccumulateBound(s: Bytes, max: nat)
    ensures Accumulate(s, max).Integral? ==> Accumulate(s, max).value <= max
  {
  }

  lemma {:induction false} FloatingStays(s: Bytes, n: nat, max: nat)
    requires n <= |s| && Accumulate(s[..n], max).Floating?
    ensures Accumulate(s, max).Floating?
    decreases |s|
  {
    if n < |s| {
      assert s[..|s|-1][..n] == s[..n];
      FloatingStays(s[..|s|-1], n, max);
    } else {
      assert s[..n] == s;
    }
  }

  /** `get_number`, without the conversion of floating-point numbers. */
  method GetNumber(s: Bytes) returns (r: Result<Json>)
    requires s != []
    ensures r == NumberValue(s)
  {
    var curptr := 0;
    var value: nat := 0;
    var max := UNSIGNED_MAX;
    var floating := false;
    if s[0] == '-' as byte {
      max := NEGATIVE_MAX;
      curptr := 1;
    }
    ghost var digits := s[curptr..];
    ghost var first := curptr;
    assert s[0..] == s;
    while curptr < |s|
      invariant first <= curptr <= |s|
      invariant Accumulate(digits[..curptr - first], max) == if floating then Floating else Integral(value)
    {
      var b := s[curptr];
      ghost var n := curptr - first;
      assert digits[..n + 1][..n] == digits[..n] && digits[n] == b;
      if !IsDigit(b) {
        floating := true;
        if b != '.' as byte {
          FloatingStays(digits, n + 1, max);
          return Err(FloatLiteral);
        }
      } else if !floating {
        var temp := Wrapped(value, DigitValue(b));
        if temp < value || temp > max {
          floating := true;
        } else {
          value := temp;
        }
      }
      curptr := curptr + 1;
    }
    assert digits[..|s| - first] == digits;
    AccumulateBound(digits, max);
    if floating {
      return Err(FloatLiteral);
    } else if max == UNSIGNED_MAX {
      return Ok(UInt(value as uint64));
    } else {
      return Ok(Int((0 - value) as int64));
    }
  }

  /** As long as the number fits, the wrapping accumulation is exact. */
  lemma {:induction false} AccumulateExact(s: Bytes, max: nat)
    requires AllDigits(s) && Value(s) <= max <= UNSIGNED_MAX
    ensures Accumulate(s, max) == Integral(Value(s))
  {
    if s != [] {
      AccumulateExact(s[..|s|-1], max);
    }
  }

  /** An integer literal that fits has its exact value and the right type. */
  lemma LiteralExact(s: Bytes)
    requires s != [] && AllDigits(s)
    ensures Value(s) <= UNSIGNED_MAX ==> NumberValue(s) == Ok(UInt(Value(s) as uint64))
    ensures Value(s) <= NEGATIVE_MAX ==> NumberValue(['-' as byte] + s) == Ok(Int((0 - Value(s)) as int64))
  {
    assert IsDigit(s[0]);
    assert (['-' as byte] + s)[1..] == s;
    if Value(s) <= UNSIGNED_MAX { AccumulateExact(s, UNSIGNED_MAX); }
    if Value(s) <= NEGATIVE_MAX { AccumulateExact(s, NEGATIVE_MAX); }
  }

  // ---- Fractions and exponents ----------------------------------------------------

  lemma {:induction false} IntegralIsDigits(s: Bytes, max: nat)
    requires Accumulate(s, max).Integral?
    ensures AllDigits(s)
  {
    if s != [] {
      IntegralIsDigits(s[..|s|-1], max);
    }
  }

  /** The literal without its minus sign. */
  function Unsigned(s: Bytes): Bytes {
    if s != [] && s[0] == '-' as byte then s[1..] else s
  }

  lemma NumberParts(s: Bytes, a: nat, b: nat, c: nat)
    requires IsNumberSplit(s, a, b, c)
    ensures Unsigned(s) == s[a..]
    ensures b < c ==> Unsigned(s)[b - a] == '.' as byte
    ensures c < |s| ==> IsE(Unsigned(s)[c - a])
  {
    assert IsDigit(s[a..b][0]) && s[a..b][0] == s[a];
    if b < c { assert s[b..c][0] == s[b]; }
    if c < |s| { assert s[c..][0] == s[c]; }
  }

  lemma DigitsAreInt(s: Bytes)
    requires IsNumber(s) && AllDigits(Unsigned(s))
    ensures IsInt(Unsigned(s))
  {
    hide Unsigned;
    var a: nat, b: nat, c: nat :| IsNumberSplit(s, a, b, c);
    NumberParts(s, a, b, c);
    assert b == c == |s|;
    assert s[a..b] == s[a..];
  }

  /** A number of the grammar is read as an integer only if it is an optional minus and an
      integer part; any fraction or exponent makes it a floating-point number. */
  lemma IntegersOnly(s: Bytes)
    requires IsNumber(s)
    ensures NumberValue(s).Ok? ==> IsInt(Unsigned(s))
    ensures !IsInt(Unsigned(s)) ==> NumberValue(s) == Err(FloatLiteral)
  {
    hide IsNumber, IsInt, Accumulate;
    var max := if s != [] && s[0] == '-' as byte then NEGATIVE_MAX else UNSIGNED_MAX;
    if Accumulate(Unsigned(s), max).Integral? {
      IntegralIsDigits(Unsigned(s), max);
      DigitsAreInt(s);
    }
  }

  // ---- Literals that do not fit -------------------------------------------------

  /** The test notices a step that leaves the 64 bits exactly if the wrapped sum falls behind
      the value before, or exceeds the maximum: `q` is the part that is lost. */
  lemma OverflowNoticed(value: nat, digit: nat, max: nat)
    requires value < TWO64 && digit < 10 && value * 10 + digit >= TWO64
    ensures var n := value * 10 + digit;
            var q := n / TWO64;
            Overflow(value, digit, max) <==> value * 9 + digit < q * TWO64 || n - q * TWO64 > max
  {
    var n := value * 10 + digit;
    assert n == n / TWO64 * TWO64 + n % TWO64;
  }

  /** The literal with the given digits. */
  function Literal(digits: Bytes, negative: bool): Bytes {
    if negative then ['-' as byte] + digits else digits
  }

  /** The literal is read as an integer other than the one it denotes. */
  predicate Misread(digits: Bytes, negative: bool)
    requires AllDigits(digits)
  {
    match NumberValue(Literal(digits, negative))
    case Ok(Int(i)) => i as int != (if negative then 0 - Value(digits) else Value(digits))
    case Ok(UInt(u)) => negative || u as int != Value(digits)
    case Ok(_) => true
    case Err(_) => false
  }

  const TEN19: nat := 10_000_000_000_000_000_000

  function Pow10(n: nat): nat {
    if n == 0 then 1 else 10 * Pow10(n - 1)
  }

  lemma {:induction false} ValueBelow(s: Bytes)
    requires AllDigits(s)
    ensures Value(s) < Pow10(|s|)
  {
    if s != [] { ValueBelow(s[..|s|-1]); }
  }

  lemma {:induction false} Pow10Grows(m: nat, n: nat)
    requires m <= n
    ensures 1 <= Pow10(m) <= Pow10(n)
    decreases n
  {
    if m < n {
      Pow10Grows(m, n - 1);
    } else if n > 0 {
      Pow10Grows(m - 1, n - 1);
    }
  }

  lemma Pow10Of19()
    ensures 10 * Pow10(18) == Pow10(19) == TEN19
  {
    assert Pow10(4) == 10_000;
    assert Pow10(8) == 100_000_000;
    assert Pow10(12) == 1_000_000_000_000;
    assert Pow10(16) == 10_000_000_000_000_000;
  }

  /** Up to 19 digits no step leaves the 64 bits. */
  lemma {:induction false} ShortIsExact(s: Bytes, max: nat)
    requires AllDigits(s) && |s| <= 19
    ensures Accumulate(s, max) == Integral(Value(s)) || Accumulate(s, max) == Floating
  {
    if s != [] {
      ShortIsExact(s[..|s|-1], max);
      ShortBelow(s);
    }
  }

  lemma ShortBelow(s: Bytes)
    requires AllDigits(s) && |s| <= 19
    ensures Value(s) < TEN19 < TWO64
  {
    hide Value, Pow10;
    ValueBelow(s);
    Pow10Grows(|s|, 19);
    Pow10Of19();
  }

  lemma ShortNotMisread(digits: Bytes, negative: bool)
    requires IsInt(digits) && |digits| <= 19
    ensures !Misread(digits, negative)
  {
    hide Accumulate, Value;
    assert (['-' as byte] + digits)[1..] == digits;
    assert IsDigit(digits[0]);
    ShortIsExact(digits, UNSIGNED_MAX);
    ShortIsExact(digits, NEGATIVE_MAX);
  }

  /** 10 * FIXED + 7 is FIXED + 2^64: behind these digits, a seven changes nothing. */
  const FIXED: nat := 2_049_638_230_412_172_401

  lemma SevenIsLost(max: nat)
    requires max >= NEGATIVE_MAX
    ensures Wrapped(FIXED, 7) == FIXED && !Overflow(FIXED, 7, max)
  {
    OverflowNoticed(FIXED, 7, max);
  }

  function Sevens(k: nat): Bytes {
    seq(k, _ => '7' as byte)
  }

  lemma {:induction false} SevensAreLost(front: Bytes, k: nat, max: nat)
    requires AllDigits(front) && Value(front) == FIXED && NEGATIVE_MAX <= max <= UNSIGNED_MAX
    ensures var s := front + Sevens(k);
            && AllDigits(s) && Accumulate(s, max) == Integral(FIXED)
            && (k > 0 ==> Value(s) > UNSIGNED_MAX)
  {
    var s := front + Sevens(k);
    if k == 0 {
      assert s == front;
      AccumulateExact(front, max);
    } else {
      SevensAreLost(front, k - 1, max);
      assert s[..|s|-1] == front + Sevens(k - 1) && s[|s|-1] == '7' as byte;
      SevenIsLost(max);
      if k == 1 { assert front + Sevens(0) == front; }
    }
  }

  lemma FixedText()
    ensures var s := ToString(FIXED); IsInt(s) && |s| == 19 && Value(s) == FIXED
  {
    ToStringCanonical(FIXED);
    var s := ToString(FIXED);
    hide ToString, Value, Pow10;
    Pow10Of19();
    ToStringLength(FIXED, 19);
  }

  lemma {:induction false} ToStringLength(n: nat, k: nat)
    requires k >= 1 && Pow10(k - 1) <= n < Pow10(k)
    ensures |ToString(n)| == k
  {
    if k > 1 {
      assert n >= 10 by { Pow10Grows(0, k - 2); }
      ToStringLength(n / 10, k - 1);
    }
  }

  lemma LongMisread(n: nat, negative: bool) returns (digits: Bytes)
    requires n > 19
    ensures |digits| == n && IsInt(digits) && Misread(digits, negative)
  {
    hide Accumulate, Value, ToString;
    FixedText();
    var front := ToString(FIXED);
    digits := front + Sevens(n - 19);
    SevensAreLost(front, n - 19, UNSIGNED_MAX);
    SevensAreLost(front, n - 19, NEGATIVE_MAX);
    assert digits[0] == front[0] && IsDigit(digits[0]);
    assert (['-' as byte] + digits)[1..] == digits;
  }

  /** Overflow goes unnoticed from 20 digits on: no literal with `n` digits is misread if and
      only if `n` is at most 19. That holds with and without a minus sign. */
  lemma NoneMisreadUpTo19(n: nat, negative: bool)
    ensures n <= 19 <==> forall digits :: IsInt(digits) && |digits| == n ==> !Misread(digits, negative)
  {
    hide Misread;
    forall digits | IsInt(digits) && |digits| == n && n <= 19 ensures !Misread(digits, negative) {
      ShortNotMisread(digits, negative);
    }
    if n > 19 {
      var digits := LongMisread(n, negative);
    }
  }

  /** One that is misread: the literal that writes 10 * 2^61 is read as 2^62. */
  lemma OverflowMissed()
    ensures var s := ToString(0x2000_0000_0000_0000) + ['0' as byte];
            && AllDigits(s) && Value(s) == 10 * 0x2000_0000_0000_0000 > UNSIGNED_MAX
            && NumberValue(s) == Ok(UInt(0x4000_0000_0000_0000))
  {
    hide ToString, Accumulate, Value;
    var front := ToString(0x2000_0000_0000_0000);
    ToStringCanonical(0x2000_0000_0000_0000);
    AccumulateExact(front, UNSIGNED_MAX);
    AppendZero(front, UNSIGNED_MAX);
    assert IsDigit((front + ['0' as byte])[0]);
    assert Wrapped(0x2000_0000_0000_0000, 0) == 0x4000_0000_0000_0000;
  }

  lemma AppendZero(front: Bytes, max: nat)
    requires AllDigits(front) && Accumulate(front, max).Integral?
    ensures var s := front + ['0' as byte];
            var before := Accumulate(front, max).value;
            && AllDigits(s) && Value(s) == 10 * Value(front)
            && Accumulate(s, max) == if Overflow(before, 0, max) then Floating else Integral(Wrapped(before, 0))
  {
    var s := front + ['0' as byte];
    assert s[..|s|-1] == front;
  }

  // ---- Printing ---------------------------------------------------------------

  /** `operator<<` for the two integer types. */
  function PrintInteger(n: int): Bytes {
    if n < 0 then ['-' as byte] + ToString(-n) else ToString(n)
  }

  lemma PrintedIsNumber(n: int)
    ensures IsNumber(PrintInteger(n))
    ensures PrintInteger(n)[0] == '-' as byte || IsDigit(PrintInteger(n)[0])
  {
    var s := PrintInteger(n);
    var m: nat := if n < 0 then -n else n;
    var a := if n < 0 then 1 else 0;
    ToStringCanonical(m);
    assert s[a..|s|] == ToString(m);
    assert s[|s|..|s|] == [] && s[|s|..] == [];
    assert IsDigit(ToString(m)[0]);
    assert IsNumberSplit(s, a, |s|, |s|);
  }

  /** Reading a printed integer gives it back, except that a non-negative one comes back
      unsigned; `operator==` does not see the difference. */
  lemma PrintedRoundTrip(j: Json)
    requires j.Int? || j.UInt?
    ensures var s := PrintInteger(if j.Int? then j.i as int else j.u as int);
            && NumberValue(s).Ok? && Eq(NumberValue(s).value, j)
            && NumberValue(s).value == if j.Int? && j.i >= 0 then UInt(j.i as uint64) else j
  {
    hide ToString, NumberValue, AllDigits;
    var n := if j.Int? then j.i as int else j.u as int;
    var m: nat := if n < 0 then -n else n;
    ToStringCanonical(m);
    LiteralExact(ToString(m));
  }
}
