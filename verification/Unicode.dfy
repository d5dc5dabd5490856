/** Unicode escapes in strings: any list of scalar values written as `\uXXXX` escapes is read
    as its UTF-8 encoding, from which the list can be recovered. */
module Unicode {
  import opened ByteStrings
  import opened Decimals
  import opened Lexical
  import opened Results
  import opened Strings

  /** A code point that is not a surrogate. */
  predicate Scalar(c: nat) {
    c <= 0x10FFFF && !(0xD800 <= c <= 0xDFFF)
  }

  /** `\uXXXX` with hexadecimal digits of either case, at position `i`. */
  predicate UnitAt(t: Bytes, i: nat, unit: nat) {
    && At(t, i) == BACKSLASH && At(t, i + 1) == 'u' as byte && unit < 0x1_0000
    && HexDigitOf(At(t, i + 2), unit / 0x1000) && HexDigitOf(At(t, i + 3), unit / 0x100 % 0x10)
    && HexDigitOf(At(t, i + 4), unit / 0x10 % 0x10) && HexDigitOf(At(t, i + 5), unit % 0x10)
  }

  /** Section 7 of RFC 7159: code points above U+FFFF are written as a surrogate pair. */
  function Units(c: nat): seq<nat> {
    if c < 0x10000 then [c]
    else [0xD800 + (c - 0x10000) / 0x400, 0xDC00 + (c - 0x10000) % 0x400]
  }

  /** From position `i` on, `t` consists of escapes for `cs` and a closing quote. */
  predicate SpelledAt(t: Bytes, i: nat, cs: seq<nat>)
    decreases |cs|
  {
    if cs == [] then i + 1 == |t| && At(t, i) == QUOTE
    else
      && UnitAt(t, i, Units(cs[0])[0])
      && (|Units(cs[0])| == 2 ==> UnitAt(t, i + 6, Units(cs[0])[1]))
      && SpelledAt(t, i + 6 * |Units(cs[0])|, cs[1..])
  }

  /** The bytes that `to_unicode` yields for a list. */
  function Encode(cs: seq<nat>): Bytes
    requires forall i :: 0 <= i < |cs| ==> Scalar(cs[i])
  {
    if cs == [] then [] else Utf8Of(cs[0]) + Encode(cs[1..])
  }

  function Utf8Of(c: nat): Bytes
    requires Scalar(c)
  {
    Utf8(c).value
  }

  // ---- UTF-8 by its table of octets ---------------------------------------------

  /** 10xxxxxx */
  predicate Tail(b: byte) {
    0x80 <= b <= 0xBF
  }

  /** The table in section 3 of RFC 3629: a character number range, the pattern of the octet
      sequence, and the bits of the number in the places of the pattern. */
  predicate Octets(c: nat, u: Bytes) {
    match |u|
    case 1 => c <= 0x7F && u[0] as nat == c
    case 2 =>
      && 0x80 <= c <= 0x7FF && 0xC0 <= u[0] <= 0xDF && Tail(u[1])
      && c == (u[0] as nat - 0xC0) * 0x40 + (u[1] as nat - 0x80)
    case 3 =>
      && 0x800 <= c <= 0xFFFF && 0xE0 <= u[0] <= 0xEF && Tail(u[1]) && Tail(u[2])
      && c == (u[0] as nat - 0xE0) * 0x1000 + (u[1] as nat - 0x80) * 0x40 + (u[2] as nat - 0x80)
    case 4 =>
      && 0x1_0000 <= c <= 0x10_FFFF && 0xF0 <= u[0] <= 0xF7 && Tail(u[1]) && Tail(u[2]) && Tail(u[3])
      && c == (u[0] as nat - 0xF0) * 0x4_0000 + (u[1] as nat - 0x80) * 0x1000
              + (u[2] as nat - 0x80) * 0x40 + (u[3] as nat - 0x80)
    case _ => false
  }

  /** The shifts and masks of `to_unicode` yield the one octet sequence that the table has. */
  lemma Utf8MeetsTable(c: nat, u: Bytes)
    requires c <= 0x10_FFFF
    ensures Utf8(c).Ok? && (Octets(c, u) <==> u == Utf8(c).value)
  {
    if c < 0x80 {
      if Octets(c, u) { assert u == [c as byte]; }
    } else if c <= 0x7FF {
      TwoOctets(c, u);
    } else if c <= 0xFFFF {
      ThreeOctets(c, u);
    } else {
      FourOctets(c, u);
    }
  }

  lemma Digits64(c: nat)
    ensures c == c / 0x40 * 0x40 + c % 0x40
    ensures c / 0x1000 == c / 0x40 / 0x40 && c / 0x4_0000 == c / 0x40 / 0x40 / 0x40
  {
  }

  lemma Digit64(high: nat, low: nat)
    requires low < 0x40
    ensures (high * 0x40 + low) / 0x40 == high && (high * 0x40 + low) % 0x40 == low
  {
  }

  lemma TwoOctets(c: nat, u: Bytes)
    requires 0x80 <= c <= 0x7FF
    ensures Octets(c, u) <==> u == Utf8(c).value
  {
    Digits64(c);
    if Octets(c, u) {
      Digit64(u[0] as nat - 0xC0, u[1] as nat - 0x80);
      assert u == [u[0], u[1]];
    }
  }

  lemma ThreeOctets(c: nat, u: Bytes)
    requires 0x800 <= c <= 0xFFFF
    ensures Octets(c, u) <==> u == Utf8(c).value
  {
    if Octets(c, u) {
      FourDigits(c, 0, u[0] as nat - 0xE0, u[1] as nat - 0x80, u[2] as nat - 0x80);
      assert u == [u[0], u[1], u[2]];
    }
    ThreeOctetsMeet(c);
  }

  lemma ThreeOctetsMeet(c: nat)
    requires 0x800 <= c <= 0xFFFF
    ensures Octets(c, Utf8(c).value)
  {
    Digits64(c);
    Digits64(c / 0x40);
    var x, y, z := c / 0x1000, c / 0x40 % 0x40, c % 0x40;
    assert c == x * 0x1000 + y * 0x40 + z;
    assert x % 0x10 == x;
  }

  lemma FourDigits(c: nat, w: nat, x: nat, y: nat, z: nat)
    requires x < 0x40 && y < 0x40 && z < 0x40
    requires c == w * 0x4_0000 + x * 0x1000 + y * 0x40 + z
    ensures c / 0x4_0000 == w && c / 0x1000 % 0x40 == x && c / 0x40 % 0x40 == y && c % 0x40 == z
  {
    Digits64(c);
    assert c == ((w * 0x40 + x) * 0x40 + y) * 0x40 + z;
    Digit64((w * 0x40 + x) * 0x40 + y, z);
    Digit64(w * 0x40 + x, y);
    Digit64(w, x);
  }

  lemma FourOctets(c: nat, u: Bytes)
    requires 0x1_0000 <= c <= 0x10_FFFF
    ensures Octets(c, u) <==> u == Utf8(c).value
  {
    if Octets(c, u) {
      FourDigits(c, u[0] as nat - 0xF0, u[1] as nat - 0x80, u[2] as nat - 0x80, u[3] as nat - 0x80);
      assert u == [u[0], u[1], u[2], u[3]];
    }
    FourOctetsMeet(c);
  }

  lemma FourOctetsMeet(c: nat)
    requires 0x1_0000 <= c <= 0x10_FFFF
    ensures Octets(c, Utf8(c).value)
  {
    Digits64(c);
    Digits64(c / 0x40);
    Digits64(c / 0x1000);
    var w, x, y, z := c / 0x4_0000, c / 0x1000 % 0x40, c / 0x40 % 0x40, c % 0x40;
    assert c == w * 0x4_0000 + x * 0x1000 + y * 0x40 + z;
    assert w % 8 == w;
  }

  /** `u` consists of octet sequences for the numbers in `cs`, one after the other. */
  ghost predicate IsUtf8(u: Bytes, cs: seq<nat>)
    decreases |cs|
  {
    if cs == [] then u == []
    else exists n: nat :: n <= |u| && Octets(cs[0], u[..n]) && IsUtf8(u[n..], cs[1..])
  }

  /** There is exactly one UTF-8 text for a list of scalar values, and `Encode` yields it. */
  lemma {:induction false} EncodeIsUtf8(u: Bytes, cs: seq<nat>)
    requires forall i :: 0 <= i < |cs| ==> Scalar(cs[i])
    ensures IsUtf8(u, cs) <==> u == Encode(cs)
    decreases |cs|
  {
    hide Octets, Utf8;
    if cs != [] {
      var first := Utf8Of(cs[0]);
      Utf8MeetsTable(cs[0], first);
      if IsUtf8(u, cs) {
        var n: nat :| n <= |u| && Octets(cs[0], u[..n]) && IsUtf8(u[n..], cs[1..]);
        Utf8MeetsTable(cs[0], u[..n]);
        EncodeIsUtf8(u[n..], cs[1..]);
        assert u == u[..n] + u[n..];
      }
      if u == Encode(cs) {
        var n := |first|;
        assert u[..n] == first && u[n..] == Encode(cs[1..]);
        Utf8MeetsTable(cs[0], first);
        EncodeIsUtf8(u[n..], cs[1..]);
      }
    }
  }

  // ---- Reading escapes ------------------------------------------------------------

  lemma HexRead(b: byte, d: nat)
    requires HexDigitOf(b, d)
    ensures IsHex(b) && HexValue(b) == d
  {
  }

  lemma UnitChar(t: Bytes, i: nat, unit: nat)
    requires UnitAt(t, i, unit)
    ensures CharLength(t, i) == 6 && At(t, i) != QUOTE && Hex4(t, i + 2) == unit
  {
    hide IsHex, HexValue;
    HexRead(At(t, i + 2), unit / 0x1000);
    HexRead(At(t, i + 3), unit / 0x100 % 0x10);
    HexRead(At(t, i + 4), unit / 0x10 % 0x10);
    HexRead(At(t, i + 5), unit % 0x10);
    FourHex(unit);
    NoHex();
  }

  lemma FourHex(unit: nat)
    requires unit < 0x1_0000
    ensures unit / 0x1000 * 0x1000 + unit / 0x100 % 0x10 * 0x100 + unit / 0x10 % 0x10 * 0x10 + unit % 0x10 == unit
  {
    Shift16(unit);
    var x := unit / 0x10;
    var y := x / 0x10;
    assert unit == x * 0x10 + unit % 0x10 && x == y * 0x10 + x % 0x10 && y == y / 0x10 * 0x10 + y % 0x10;
  }

  lemma Shift16(unit: nat)
    ensures unit / 0x100 == unit / 0x10 / 0x10 && unit / 0x1000 == unit / 0x10 / 0x10 / 0x10
  {
  }

  lemma Digit16(high: nat, low: nat)
    requires low < 0x10
    ensures (high * 0x10 + low) / 0x10 == high && (high * 0x10 + low) % 0x10 == low
  {
  }

  lemma {:induction false} SpelledEnd(t: Bytes, i: nat, cs: seq<nat>)
    requires SpelledAt(t, i, cs)
    ensures i < |t| && StringEnd(t, i) == |t|
    decreases |cs|
  {
    hide StringEnd, UnitAt;
    StringEndStep(t, i);
    if cs != [] {
      UnitChar(t, i, Units(cs[0])[0]);
      if |Units(cs[0])| == 2 {
        UnitChar(t, i + 6, Units(cs[0])[1]);
        StringEndStep(t, i + 6);
      }
      SpelledEnd(t, i + 6 * |Units(cs[0])|, cs[1..]);
    }
  }

  /** The arithmetic of `to_unicode` undoes the splitting into surrogates. */
  lemma SurrogatesCombine(c: nat)
    requires Scalar(c)
    ensures if c < 0x10000 then !HighSurrogate(c) && ToUnicode(c, 0) == Utf8(c)
            else HighSurrogate(Units(c)[0]) && LowSurrogate(Units(c)[1])
                 && ToUnicode(Units(c)[0], Units(c)[1]) == Utf8(c)
    ensures Utf8(c).Ok?
  {
    if c >= 0x10000 {
      var d := c - 0x10000;
      assert d / 0x400 * 0x400 + d % 0x400 == d;
      hide Utf8;
      assert Units(c)[0] * 0x400 + Units(c)[1] - 0x35FDC00 == c;
    }
  }

  lemma {:induction false} SpelledValue(t: Bytes, i: nat, cs: seq<nat>)
    requires SpelledAt(t, i, cs)
    requires forall k :: 0 <= k < |cs| ==> Scalar(cs[k])
    ensures Unquote(t, i) == Ok(Encode(cs))
    decreases |cs|
  {
    hide Utf8, Hex4, ToUnicode, StringEnd;
    SpelledEnd(t, i, cs);
    if cs != [] {
      SurrogatesCombine(cs[0]);
      UnitChar(t, i, Units(cs[0])[0]);
      if |Units(cs[0])| == 2 { UnitChar(t, i + 6, Units(cs[0])[1]); }
      var next := i + 6 * |Units(cs[0])|;
      SpelledEnd(t, next, cs[1..]);
      SpelledValue(t, next, cs[1..]);
    }
  }

  /** Whatever list of scalar values the escapes between two quotes spell, the token is a
      string and its value is the UTF-8 encoding of the list. */
  lemma EscapesAreDecoded(t: Bytes, cs: seq<nat>)
    requires At(t, 0) == QUOTE && SpelledAt(t, 1, cs)
    requires forall k :: 0 <= k < |cs| ==> Scalar(cs[k])
    ensures IsString(t) && StringValue(t) == Ok(Encode(cs)) && IsUtf8(Encode(cs), cs)
  {
    hide StringEnd, SpelledAt, Octets;
    EncodeIsUtf8(Encode(cs), cs);
    SpelledEnd(t, 1, cs);
    StringIsLexeme(t, 0);
    assert t[0..|t|] == t;
    SpelledValue(t, 1, cs);
  }

  // ---- Any string token -------------------------------------------------------------

  /** A character of a string token, section 7 of RFC 7159. */
  datatype Item =
    | Plain(b: byte)
    | Short(letter: byte)
    | Unit(unit: nat)

  predicate ItemAt(t: Bytes, i: nat, item: Item) {
    match item
    case Plain(b) => At(t, i) == b && IsUnescaped(b)
    case Short(letter) => At(t, i) == BACKSLASH && At(t, i + 1) == letter && letter in ESCAPES
    case Unit(unit) => UnitAt(t, i, unit)
  }

  function Width(item: Item): nat {
    match item
    case Plain(_) => 1
    case Short(_) => 2
    case Unit(_) => 6
  }

  /** From position `i` on, `t` consists of `items` and a closing quote. */
  predicate ItemsAt(t: Bytes, i: nat, items: seq<Item>)
    decreases |items|
  {
    if items == [] then i + 1 == |t| && At(t, i) == QUOTE
    else ItemAt(t, i, items[0]) && ItemsAt(t, i + Width(items[0]), items[1..])
  }

  /** `v` is what `items` stand for, by the table of short escapes, the rule for surrogate
      pairs, and the table of octets. A high surrogate without a low one stands for nothing; a
      low one alone, which section 3 of RFC 3629 excludes, is let through as three octets. */
  ghost predicate Denotes(items: seq<Item>, v: Bytes)
    decreases |items|
  {
    if items == [] then v == [] else
    match items[0]
    case Plain(b) => v != [] && v[0] == b && Denotes(items[1..], v[1..])
    case Short(letter) =>
      letter in ESCAPES && v != [] && v[0] == ESCAPES[letter] && Denotes(items[1..], v[1..])
    case Unit(unit) =>
      if 0xD800 <= unit <= 0xDBFF then
        && |items| >= 2 && items[1].Unit? && 0xDC00 <= items[1].unit <= 0xDFFF
        && exists n: nat :: n <= |v|
             && Octets(0x1_0000 + (unit - 0xD800) * 0x400 + (items[1].unit - 0xDC00), v[..n]) && Denotes(items[2..], v[n..])
      else exists n: nat :: n <= |v| && Octets(unit, v[..n]) && Denotes(items[1..], v[n..])
  }

  /** The same as a computation. */
  function ItemsValue(items: seq<Item>): Result<Bytes>
    decreases |items|
  {
    if items == [] then Ok([]) else
    match items[0]
    case Plain(b) => Prepend([b], ItemsValue(items[1..]))
    case Short(letter) =>
      if letter in ESCAPES then Prepend([ESCAPES[letter]], ItemsValue(items[1..])) else Err(InvalidArgument)
    case Unit(unit) =>
      if HighSurrogate(unit) then
        if |items| < 2 || !items[1].Unit? then Err(InvalidArgument) else
        var u :- ToUnicode(unit, items[1].unit);
        Prepend(u, ItemsValue(items[2..]))
      else
        var u :- ToUnicode(unit, 0);
        Prepend(u, ItemsValue(items[1..]))
  }

  lemma ItemChar(t: Bytes, i: nat, item: Item)
    requires ItemAt(t, i, item)
    ensures CharLength(t, i) == Width(item) && At(t, i) != QUOTE
  {
    hide UnitAt;
    match item
    case Plain(_) =>
    case Short(letter) => SimpleIsEscape(letter);
    case Unit(unit) => UnitChar(t, i, unit);
  }

  lemma {:induction false} ItemsEnd(t: Bytes, i: nat, items: seq<Item>)
    requires ItemsAt(t, i, items)
    ensures i + |items| < |t| && StringEnd(t, i) == |t|
    decreases |items|
  {
    hide StringEnd, ItemAt;
    StringEndStep(t, i);
    if items != [] {
      ItemChar(t, i, items[0]);
      ItemsEnd(t, i + Width(items[0]), items[1..]);
    }
  }

  lemma ShortIsRead(t: Bytes, i: nat, letter: byte)
    requires ItemAt(t, i, Short(letter)) && i + 1 < |t|
    ensures Unquote(t, i) == Prepend([ESCAPES[letter]], Unquote(t, i + 2))
  {
    SimpleIsEscape(letter);
  }

  lemma {:induction false} ItemsAreRead(t: Bytes, i: nat, items: seq<Item>)
    requires ItemsAt(t, i, items)
    ensures Unquote(t, i) == ItemsValue(items)
    decreases |items|
  {
    hide StringEnd, UnitAt, Hex4, ToUnicode, Unquote;
    ItemsEnd(t, i, items);
    if items == [] {
      UnquoteEnd(t, i);
    } else {
      match items[0]
      case Plain(b) =>
        ItemsAreRead(t, i + 1, items[1..]);
        UnquotePlain(t, i);
      case Short(letter) =>
        ItemsAreRead(t, i + 2, items[1..]);
        ShortIsRead(t, i, letter);
      case Unit(unit) => UnitIsRead(t, i, items);
    }
  }

  lemma UnquoteEnd(t: Bytes, i: nat)
    requires i + 1 == |t|
    ensures Unquote(t, i) == Ok([])
  {
  }

  lemma UnquotePlain(t: Bytes, i: nat)
    requires i + 1 < |t| && t[i] != BACKSLASH
    ensures Unquote(t, i) == Prepend([t[i]], Unquote(t, i + 1))
  {
  }

  lemma UnquoteUnit(t: Bytes, i: nat, unit: nat)
    requires i + 1 < |t| && UnitAt(t, i, unit)
    ensures Unquote(t, i) ==
            if HighSurrogate(unit) then
              if At(t, i + 6) != BACKSLASH || At(t, i + 7) != 'u' as byte then Err(InvalidArgument)
              else
                var u :- ToUnicode(unit, Hex4(t, i + 8));
                Prepend(u, Unquote(t, i + 12))
            else
              var u :- ToUnicode(unit, 0);
              Prepend(u, Unquote(t, i + 6))
  {
    hide Hex4, ToUnicode;
    UnitChar(t, i, unit);
  }

  lemma {:induction false} UnitIsRead(t: Bytes, i: nat, items: seq<Item>)
    requires ItemsAt(t, i, items) && items != [] && items[0].Unit?
    ensures Unquote(t, i) == ItemsValue(items)
    decreases |items|, 0
  {
    hide StringEnd, UnitAt, Hex4, ToUnicode, Unquote;
    var unit := items[0].unit;
    ItemsEnd(t, i, items);
    UnquoteUnit(t, i, unit);
    if !HighSurrogate(unit) {
      ItemsAreRead(t, i + 6, items[1..]);
    } else if |items| >= 2 && items[1].Unit? {
      assert items[1..][0] == items[1] && items[1..][1..] == items[2..];
      UnitStart(t, i + 6, items[1].unit);
      UnitChar(t, i + 6, items[1].unit);
      ItemsAreRead(t, i + 12, items[2..]);
    } else {
      NoUnitNext(t, i + 6, items[1..]);
    }
  }

  lemma UnitStart(t: Bytes, i: nat, unit: nat)
    requires UnitAt(t, i, unit)
    ensures At(t, i) == BACKSLASH && At(t, i + 1) == 'u' as byte
  {
  }

  lemma NoUnitNext(t: Bytes, i: nat, items: seq<Item>)
    requires ItemsAt(t, i, items) && (items == [] || !items[0].Unit?)
    ensures At(t, i) != BACKSLASH || At(t, i + 1) != 'u' as byte
  {
  }

  lemma PrependIff(front: Bytes, r: Result<Bytes>, v: Bytes)
    ensures Prepend(front, r) == Ok(v) <==> |front| <= |v| && v[..|front|] == front && r == Ok(v[|front|..])
  {
    if r.Ok? {
      assert |front| <= |v| && v[..|front|] == front && v[|front|..] == r.value ==> v == front + r.value;
      assert (front + r.value)[..|front|] == front && (front + r.value)[|front|..] == r.value;
    }
  }

  lemma PrependOne(b: byte, r: Result<Bytes>, v: Bytes)
    ensures Prepend([b], r) == Ok(v) <==> v != [] && v[0] == b && r == Ok(v[1..])
  {
    PrependIff([b], r, v);
    assert v != [] ==> v[..1] == [v[0]];
  }

  lemma PrependOctets(c: nat, r: Result<Bytes>, v: Bytes)
    requires c <= 0x10_FFFF
    ensures Utf8(c).Ok?
    ensures Prepend(Utf8(c).value, r) == Ok(v) <==> exists n: nat :: n <= |v| && Octets(c, v[..n]) && r == Ok(v[n..])
  {
    hide Utf8, Octets;
    Utf8MeetsTable(c, []);
    var u := Utf8(c).value;
    PrependIff(u, r, v);
    forall n: nat | n <= |v| ensures Octets(c, v[..n]) <==> v[..n] == u { Utf8MeetsTable(c, v[..n]); }
    assert |u| <= |v| && v[..|u|] == u ==> Octets(c, v[..|u|]);
    forall n: nat | n <= |v| && Octets(c, v[..n]) && r == Ok(v[n..]) ensures n == |u| { assert |v[..n]| == n; }
  }

  lemma {:induction false} ValueDenotes(items: seq<Item>, v: Bytes)
    requires forall i :: 0 <= i < |items| && items[i].Unit? ==> items[i].unit < 0x1_0000
    ensures ItemsValue(items) == Ok(v) <==> Denotes(items, v)
    decreases |items|, 1
  {
    hide Octets, ToUnicode, Utf8, Prepend;
    if items != [] {
      var rest := items[1..];
      match items[0]
      case Plain(b) =>
        PrependOne(b, ItemsValue(rest), v);
        if v != [] { ValueDenotes(rest, v[1..]); }
      case Short(letter) =>
        if letter in ESCAPES { PrependOne(ESCAPES[letter], ItemsValue(rest), v); }
        if v != [] { ValueDenotes(rest, v[1..]); }
      case Unit(unit) => UnitDenotes(items, v);
    }
  }

  lemma {:induction false} UnitDenotes(items: seq<Item>, v: Bytes)
    requires forall i :: 0 <= i < |items| && items[i].Unit? ==> items[i].unit < 0x1_0000
    requires items != [] && items[0].Unit?
    ensures ItemsValue(items) == Ok(v) <==> Denotes(items, v)
    decreases |items|, 0
  {
    hide Octets, Utf8, Prepend;
    var unit := items[0].unit;
    if 0xD800 <= unit <= 0xDBFF {
      if |items| >= 2 && items[1].Unit? && 0xDC00 <= items[1].unit <= 0xDFFF {
        var c := 0x1_0000 + (unit - 0xD800) * 0x400 + (items[1].unit - 0xDC00);
        assert unit * 0x400 + items[1].unit - 0x35FDC00 == c;
        PrependOctets(c, ItemsValue(items[2..]), v);
        forall n: nat | n <= |v| ensures ItemsValue(items[2..]) == Ok(v[n..]) <==> Denotes(items[2..], v[n..]) {
          ValueDenotes(items[2..], v[n..]);
        }
      }
    } else {
      PrependOctets(unit, ItemsValue(items[1..]), v);
      forall n: nat | n <= |v| ensures ItemsValue(items[1..]) == Ok(v[n..]) <==> Denotes(items[1..], v[n..]) {
        ValueDenotes(items[1..], v[n..]);
      }
    }
  }

  lemma {:induction false} UnitsAreSmall(t: Bytes, i: nat, items: seq<Item>)
    requires ItemsAt(t, i, items)
    ensures forall k :: 0 <= k < |items| && items[k].Unit? ==> items[k].unit < 0x1_0000
    decreases |items|
  {
    if items != [] {
      UnitsAreSmall(t, i + Width(items[0]), items[1..]);
      assert items == [items[0]] + items[1..];
    }
  }

  /** Any mixture of plain bytes, short escapes and `\uXXXX` escapes between quotes is a string
      token, and its value is what these stand for; there is none, and `get_string` throws, if
      a high surrogate has no low one behind it. */
  lemma StringTokenValue(t: Bytes, items: seq<Item>, v: Bytes)
    requires At(t, 0) == QUOTE && ItemsAt(t, 1, items)
    ensures IsString(t)
    ensures StringValue(t) == Ok(v) <==> Denotes(items, v)
  {
    hide StringEnd, ItemsAt, Denotes, ItemsValue, IsString, Unquote;
    ItemsEnd(t, 1, items);
    StringIsLexeme(t, 0);
    assert t[0..|t|] == t;
    ItemsAreRead(t, 1, items);
    UnitsAreSmall(t, 1, items);
    ValueDenotes(items, v);
  }

  /** Every string token is such a mixture. */
  lemma StringHasItems(t: Bytes) returns (items: seq<Item>)
    requires IsString(t)
    ensures At(t, 0) == QUOTE && ItemsAt(t, 1, items)
  {
    items := ItemsFrom(t, 1);
  }

  lemma {:induction false} ItemsFrom(t: Bytes, i: nat) returns (items: seq<Item>)
    requires 1 <= i < |t| && t[|t|-1] == QUOTE && IsChars(t[i..|t|-1])
    ensures ItemsAt(t, i, items)
    decreases |t| - i
  {
    var s := t[i..|t|-1];
    if s == [] {
      items := [];
    } else {
      var item := FirstItem(t, i);
      var more := ItemsFrom(t, i + Width(item));
      items := [item] + more;
      assert items[1..] == more;
    }
  }

  lemma FirstItem(t: Bytes, i: nat) returns (item: Item)
    requires 1 <= i < |t| - 1 && IsChars(t[i..|t|-1])
    ensures ItemAt(t, i, item) && i + Width(item) <= |t| - 1 && IsChars(t[i + Width(item)..|t|-1])
  {
    hide HexDigitOf;
    var s := t[i..|t|-1];
    AtInSlice(t, i, |t| - 1);
    if IsUnescaped(s[0]) && IsChars(s[1..]) {
      item := Plain(s[0]);
      assert s[1..] == t[i + 1..|t|-1];
    } else if |s| >= 2 && s[0] == BACKSLASH && s[1] in ESCAPES && IsChars(s[2..]) {
      item := Short(s[1]);
      assert s[2..] == t[i + 2..|t|-1];
    } else {
      var w: nat :| HexDigitOf(s[2], w);
      var x: nat :| HexDigitOf(s[3], x);
      var y: nat :| HexDigitOf(s[4], y);
      var z: nat :| HexDigitOf(s[5], z);
      HexBelow16(s[2], w);
      HexBelow16(s[3], x);
      HexBelow16(s[4], y);
      HexBelow16(s[5], z);
      HexUnit(w, x, y, z);
      item := Unit(w * 0x1000 + x * 0x100 + y * 0x10 + z);
      assert s[6..] == t[i + 6..|t|-1];
    }
  }

  lemma HexBelow16(b: byte, d: nat)
    requires HexDigitOf(b, d)
    ensures d < 16
  {
  }

  lemma HexUnit(w: nat, x: nat, y: nat, z: nat)
    requires w < 16 && x < 16 && y < 16 && z < 16
    ensures var u := w * 0x1000 + x * 0x100 + y * 0x10 + z;
            u < 0x1_0000 && u / 0x1000 == w && u / 0x100 % 0x10 == x && u / 0x10 % 0x10 == y && u % 0x10 == z
  {
    var u := w * 0x1000 + x * 0x100 + y * 0x10 + z;
    assert u == ((w * 0x10 + x) * 0x10 + y) * 0x10 + z;
    Shift16(u);
    Digit16((w * 0x10 + x) * 0x10 + y, z);
    Digit16(w * 0x10 + x, y);
    Digit16(w, x);
  }

  // ---- Decoding ---------------------------------------------------------------

  /** The number of bytes that a leading byte announces. */
  function LeadLength(b: byte): nat {
    if b < 0x80 then 1 else if b < 0xE0 then 2 else if b < 0xF0 then 3 else 4
  }

  function Low6(b: byte): nat {
    b as nat % 0x40
  }

  /** The code point that stands at the front of a UTF-8 text. */
  function FirstCodePoint(b: Bytes): nat
    requires b != [] && LeadLength(b[0]) <= |b|
  {
    match LeadLength(b[0])
    case 1 => b[0] as nat
    case 2 => b[0] as nat % 0x20 * 0x40 + Low6(b[1])
    case 3 => b[0] as nat % 0x10 * 0x1000 + Low6(b[1]) * 0x40 + Low6(b[2])
    case _ => b[0] as nat % 8 * 0x40000 + Low6(b[1]) * 0x1000 + Low6(b[2]) * 0x40 + Low6(b[3])
  }

  function Decode(b: Bytes): seq<nat>
    decreases |b|
  {
    if b == [] || LeadLength(b[0]) > |b| then [] else [FirstCodePoint(b)] + Decode(b[LeadLength(b[0])..])
  }

  lemma DecodeFirst(c: nat, rest: Bytes)
    requires Scalar(c)
    ensures var u := Utf8Of(c);
            u != [] && LeadLength((u + rest)[0]) == |u| && FirstCodePoint(u + rest) == c
  {
    var u := Utf8Of(c);
    var t := u + rest;
    assert forall k :: 0 <= k < |u| ==> t[k] == u[k];
    hide FirstCodePoint, LeadLength, Utf8Of;
    DecodeShort(c, t);
  }

  lemma Group(b: byte, mark: nat, x: nat, size: nat)
    requires (mark, size) in {(0x80, 0x40), (0xC0, 0x20), (0xE0, 0x10), (0xF0, 8)}
    requires x < size && b as nat == mark + x
    ensures b as nat % size == x
  {
  }

  lemma DecodeShort(c: nat, t: Bytes)
    requires Scalar(c) && |Utf8Of(c)| <= |t| && forall k :: 0 <= k < |Utf8Of(c)| ==> t[k] == Utf8Of(c)[k]
    ensures LeadLength(t[0]) == |Utf8Of(c)| && FirstCodePoint(t) == c
  {
    var u := Utf8Of(c);
    assert t[0] == u[0];
    if c >= 0x80 { assert t[1] == u[1]; }
    if c > 0x7FF { assert t[2] == u[2]; }
    if c > 0xFFFF { assert t[3] == u[3]; }
    if c < 0x80 {
    } else if c <= 0x7FF {
      DecodeTwo(c, t);
    } else if c <= 0xFFFF {
      DecodeThree(c, t);
    } else {
      DecodeFour(c, t);
    }
    hide FirstCodePoint, LeadLength;
  }

  lemma DecodeTwo(c: nat, t: Bytes)
    requires 0x7F < c <= 0x7FF && |t| >= 2
    requires t[0] as nat == 0xC0 + c / 0x40 % 0x20 && t[1] as nat == 0x80 + c % 0x40
    ensures LeadLength(t[0]) == 2 && FirstCodePoint(t) == c
  {
    Group(t[0], 0xC0, c / 0x40, 0x20);
    Group(t[1], 0x80, c % 0x40, 0x40);
  }

  lemma DecodeThree(c: nat, t: Bytes)
    requires 0x7FF < c <= 0xFFFF && |t| >= 3
    requires t[0] as nat == 0xE0 + c / 0x1000 % 0x10
    requires t[1] as nat == 0x80 + c / 0x40 % 0x40 && t[2] as nat == 0x80 + c % 0x40
    ensures LeadLength(t[0]) == 3 && FirstCodePoint(t) == c
  {
    Group(t[0], 0xE0, c / 0x1000, 0x10);
    Group(t[1], 0x80, c / 0x40 % 0x40, 0x40);
    Group(t[2], 0x80, c % 0x40, 0x40);
    assert c / 0x40 == c / 0x1000 * 0x40 + c / 0x40 % 0x40;
  }

  lemma DecodeFour(c: nat, t: Bytes)
    requires 0xFFFF < c <= 0x10FFFF && |t| >= 4
    requires t[0] as nat == 0xF0 + c / 0x40000 % 8 && t[1] as nat == 0x80 + c / 0x1000 % 0x40
    requires t[2] as nat == 0x80 + c / 0x40 % 0x40 && t[3] as nat == 0x80 + c % 0x40
    ensures LeadLength(t[0]) == 4 && FirstCodePoint(t) == c
  {
    Group(t[0], 0xF0, c / 0x40000, 8);
    Group(t[1], 0x80, c / 0x1000 % 0x40, 0x40);
    Group(t[2], 0x80, c / 0x40 % 0x40, 0x40);
    Group(t[3], 0x80, c % 0x40, 0x40);
    assert c / 0x1000 == c / 0x40000 * 0x40 + c / 0x1000 % 0x40;
    assert c / 0x40 == c / 0x1000 * 0x40 + c / 0x40 % 0x40;
  }

  lemma {:induction false} DecodeOfEncode(cs: seq<nat>)
    requires forall i :: 0 <= i < |cs| ==> Scalar(cs[i])
    ensures Decode(Encode(cs)) == cs
  {
    hide Utf8Of, FirstCodePoint, LeadLength;
    if cs != [] {
      var u, rest := Utf8Of(cs[0]), Encode(cs[1..]);
      DecodeFirst(cs[0], rest);
      assert (u + rest)[|u|..] == rest;
      DecodeOfEncode(cs[1..]);
    }
  }

  /** The list of scalar values is determined by the string that was read. */
  lemma EncodingIsUnique(a: seq<nat>, b: seq<nat>)
    requires forall i :: 0 <= i < |a| ==> Scalar(a[i])
    requires forall i :: 0 <= i < |b| ==> Scalar(b[i])
    requires Encode(a) == Encode(b)
    ensures a == b
  {
    DecodeOfEncode(a);
    DecodeOfEncode(b);
  }
}
