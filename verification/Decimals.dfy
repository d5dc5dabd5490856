/** Decimal text: `std::to_string`, `std::stoi` and `atoi`. */
module Decimals {
  import opened ByteStrings
  import opened Results

  const INT_MAX := 0x7FFF_FFFF
  const INT_MIN := -0x8000_0000

  predicate IsDigit(b: byte) {
    '0' as byte <= b <= '9' as byte
  }

  predicate AllDigits(s: Bytes) {
    forall i :: 0 <= i < |s| ==> IsDigit(s[i])
  }

  function DigitValue(b: byte): (d: nat)
    requires IsDigit(b)
  {
    (b - '0' as byte) as nat
  }

  function DigitByte(d: nat): (b: byte)
    requires d < 10
  {
    d as byte + '0' as byte
  }

  /** The number a digit string denotes. */
  function Value(s: Bytes): nat
    requires AllDigits(s)
  {
    if s == [] then 0 else 10 * Value(s[..|s|-1]) + DigitValue(s[|s|-1])
  }

  /** `std::to_string` and `operator<<` for a non-negative integer. */
  function ToString(n: nat): Bytes {
    if n < 10 then [DigitByte(n)] else ToString(n / 10) + [DigitByte(n % 10)]
  }

  /** Canonical decimal text: digits only, at least one, no superfluous leading zero. */
  lemma {:induction false} ToStringCanonical(n: nat)
    ensures AllDigits(ToString(n)) && |ToString(n)| >= 1
    ensures ToString(n)[0] == '0' as byte <==> n == 0
    ensures n == 0 ==> ToString(n) == ['0' as byte]
    ensures Value(ToString(n)) == n
  {
    if n >= 10 {
      ToStringCanonical(n / 10);
      var s := ToString(n / 10);
      assert (s + [DigitByte(n % 10)])[..|s|] == s;
    } else {
      assert Value([DigitByte(n)]) == 10 * Value([DigitByte(n)][..0]) + n;
    }
  }

  // ---- Reading ----------------------------------------------------------------

  predicate IsSpace(b: byte) {
    b == 0x20 || 0x09 <= b <= 0x0D
  }

  /** Length of the longest prefix of white space. */
  function SpaceRun(s: Bytes): (n: nat)
    ensures n <= |s|
  {
    if s != [] && IsSpace(s[0]) then 1 + SpaceRun(s[1..]) else 0
  }

  /** Length of the longest prefix of digits. */
  function DigitRun(s: Bytes): (n: nat)
    ensures n <= |s| && AllDigits(s[..n])
  {
    if s != [] && IsDigit(s[0]) then
      var n := DigitRun(s[1..]);
      assert s[..n+1] == [s[0]] + s[1..][..n];
      1 + n
    else 0
  }

  lemma {:induction false} DigitRunAll(s: Bytes)
    requires AllDigits(s)
    ensures DigitRun(s) == |s|
  {
    if s != [] { DigitRunAll(s[1..]); }
  }

  /** `std::stoi`: skip white space, an optional sign, then as many digits as there are;
      what follows them is ignored. */
  function Stoi(s: Bytes): Result<int> {
    SignAndDigits(s[SpaceRun(s)..])
  }

  function SignAndDigits(t: Bytes): Result<int> {
    var negative := t != [] && t[0] == '-' as byte;
    var d := if t != [] && (t[0] == '-' as byte || t[0] == '+' as byte) then t[1..] else t;
    var n := DigitRun(d);
    if n == 0 then Err(InvalidArgument) else
    var v: int := if negative then 0 - Value(d[..n]) else Value(d[..n]);
    if INT_MIN <= v <= INT_MAX then Ok(v) else Err(OutOfRange)
  }

  /** `stoi` undoes `to_string` exactly on the numbers that an `int` can hold. */
  lemma StoiOfToString(n: nat)
    ensures Stoi(ToString(n)) == if n <= INT_MAX then Ok(n) else Err(OutOfRange)
  {
    ToStringCanonical(n);
    var s := ToString(n);
    assert SpaceRun(s) == 0;
    assert s[0..] == s;
    DigitRunAll(s);
    assert s[..|s|] == s;
  }

  lemma {:induction false} SpaceRunOf(spaces: Bytes, rest: Bytes)
    requires (forall i :: 0 <= i < |spaces| ==> IsSpace(spaces[i])) && (rest == [] || !IsSpace(rest[0]))
    ensures SpaceRun(spaces + rest) == |spaces|
  {
    if spaces == [] {
      assert spaces + rest == rest;
    } else {
      assert (spaces + rest)[1..] == spaces[1..] + rest;
      SpaceRunOf(spaces[1..], rest);
    }
  }

  lemma {:induction false} DigitRunOf(digits: Bytes, rest: Bytes)
    requires AllDigits(digits) && (rest == [] || !IsDigit(rest[0]))
    ensures DigitRun(digits + rest) == |digits|
  {
    if digits == [] {
      assert digits + rest == rest;
    } else {
      assert (digits + rest)[1..] == digits[1..] + rest;
      DigitRunOf(digits[1..], rest);
    }
  }

  function Signed(sign: Bytes, n: nat): int {
    if sign == ['-' as byte] then 0 - n else n
  }

  /** `stoi` on any text: white space, a sign or none, digits, and whatever follows these. */
  lemma StoiOfText(spaces: Bytes, sign: Bytes, digits: Bytes, rest: Bytes)
    requires forall i :: 0 <= i < |spaces| ==> IsSpace(spaces[i])
    requires sign in {[], ['-' as byte], ['+' as byte]} && AllDigits(digits)
    requires rest == [] || !IsDigit(rest[0])
    requires sign == [] && digits == [] && rest != [] ==> !IsSpace(rest[0]) && rest[0] != '-' as byte && rest[0] != '+' as byte
    ensures Stoi(spaces + sign + digits + rest) ==
            if digits == [] then Err(InvalidArgument)
            else if INT_MIN <= Signed(sign, Value(digits)) <= INT_MAX then Ok(Signed(sign, Value(digits)))
            else Err(OutOfRange)
  {
    hide SpaceRun, SignAndDigits;
    var body := sign + digits + rest;
    assert spaces + sign + digits + rest == spaces + body;
    SpaceRunOf(spaces, body);
    assert (spaces + body)[|spaces|..] == body;
    ReadSigned(sign, digits, rest);
  }

  lemma ReadSigned(sign: Bytes, digits: Bytes, rest: Bytes)
    requires sign in {[], ['-' as byte], ['+' as byte]} && AllDigits(digits)
    requires rest == [] || !IsDigit(rest[0])
    requires sign == [] && digits == [] && rest != [] ==> rest[0] != '-' as byte && rest[0] != '+' as byte
    ensures SignAndDigits(sign + digits + rest) ==
            if digits == [] then Err(InvalidArgument)
            else if INT_MIN <= Signed(sign, Value(digits)) <= INT_MAX then Ok(Signed(sign, Value(digits)))
            else Err(OutOfRange)
  {
    hide DigitRun, Value;
    var body := sign + digits + rest;
    DigitRunOf(digits, rest);
    assert (digits + rest)[..|digits|] == digits;
    if sign == [] {
      assert body == digits + rest;
    } else {
      assert body[1..] == digits + rest;
    }
  }

  /** `atoi`, for texts whose number fits into an `int`; other overflow is undefined in C. */
  function Atoi(s: Bytes): int {
    if Stoi(s).Ok? then Stoi(s).value else 0
  }

  lemma AtoiOfToString(n: nat)
    requires n <= INT_MAX
    ensures Atoi(ToString(n)) == n
  {
    StoiOfToString(n);
  }
}
