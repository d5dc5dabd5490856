/** String tokens: `escape_string` and `extra_space` of the printer, `get_string` and
    `to_unicode` of the lexer. */
module Strings {
  import opened ByteStrings
  import opened Decimals
  import opened Lexical
  import opened Results

  // ---- Printing ---------------------------------------------------------------

  /** The letter behind the backslash, or 0 if `b` has no short escape. */
  function ShortEscape(b: byte): byte {
    if b == QUOTE || b == BACKSLASH then b
    else if b == 0x08 then 'b' as byte
    else if b == 0x0C then 'f' as byte
    else if b == 0x0A then 'n' as byte
    else if b == 0x0D then 'r' as byte
    else if b == 0x09 then 't' as byte
    else 0
  }

  /** `hexify`. */
  function HexDigit(d: nat): byte
    requires d < 16
  {
    if d < 10 then '0' as byte + d as byte else 'a' as byte + (d - 10) as byte
  }

  /** How one byte is printed. */
  function EscapeChar(b: byte): Bytes {
    if ShortEscape(b) != 0 then [BACKSLASH, ShortEscape(b)]
    else if b <= 0x1F then
      [BACKSLASH, 'u' as byte, '0' as byte, '0' as byte, HexDigit(b as nat / 16), HexDigit(b as nat % 16)]
    else [b]
  }

  function EscapeText(s: Bytes): Bytes {
    if s == [] then [] else EscapeChar(s[0]) + EscapeText(s[1..])
  }

  /** `extra_space`, a fold over the string. */
  function ExtraSpace(s: Bytes): nat {
    if s == [] then 0
    else ExtraSpace(s[..|s|-1]) + ExtraByte(s[|s|-1])
  }

  function ExtraByte(b: byte): nat {
    if b == QUOTE || b == BACKSLASH || b == 0x08 || b == 0x0C || b == 0x0A || b == 0x0D || b == 0x09 then 1
    else if b <= 0x1F then 5
    else 0
  }

  lemma {:induction false} EscapeTextConcat(a: Bytes, b: Bytes)
    ensures EscapeText(a + b) == EscapeText(a) + EscapeText(b)
  {
    hide EscapeChar;
    if a == [] {
      assert a + b == b;
    } else {
      EscapeTextConcat(a[1..], b);
      assert (a + b)[1..] == a[1..] + b;
    }
  }

  lemma EscapeTextOne(b: byte)
    ensures EscapeText([b]) == EscapeChar(b)
  {
    hide EscapeChar;
    assert [b][1..] == [];
  }

  lemma EscapeTextSnoc(s: Bytes)
    requires s != []
    ensures EscapeText(s) == EscapeText(s[..|s|-1]) + EscapeChar(s[|s|-1])
  {
    hide EscapeChar, EscapeText;
    var b := s[|s|-1];
    EscapeTextConcat(s[..|s|-1], [b]);
    EscapeTextOne(b);
    assert s == s[..|s|-1] + [b];
  }

  /** The space that is set aside is exactly the space that is needed. */
  lemma {:induction false} EscapedLength(s: Bytes)
    ensures |EscapeText(s)| == |s| + ExtraSpace(s)
  {
    if s != [] {
      EscapedLength(s[..|s|-1]);
      EscapeTextSnoc(s);
    }
  }

  lemma {:induction false} NothingToEscape(s: Bytes)
    requires ExtraSpace(s) == 0
    ensures EscapeText(s) == s
  {
    if s != [] {
      NothingToEscape(s[..|s|-1]);
      EscapeTextSnoc(s);
      assert s == s[..|s|-1] + [s[|s|-1]];
    }
  }

  /** `escape_string`: every byte is written into a buffer that starts out full of
      backslashes; writing stays inside and ends at its end. */
  method EscapeString(s: Bytes) returns (r: Bytes)
    ensures r == EscapeText(s)
  {
    hide EscapeText, EscapeChar, ExtraSpace;
    var space := ExtraSpace(s);
    if space == 0 {
      NothingToEscape(s);
      return s;
    }
    EscapedLength(s);
    var result := new byte[|s| + space](_ => BACKSLASH);
    var pos := 0;
    var i := 0;
    NothingEscaped(s);
    while i < |s|
      invariant 0 <= i <= |s| && pos == |EscapeText(s[..i])| <= result.Length
      invariant result[..pos] == EscapeText(s[..i])
      invariant forall k :: pos <= k < result.Length ==> result[k] == BACKSLASH
    {
      EscapedPrefix(s, i);
      pos := WriteEscaped(result, pos, s[i]);
      i := i + 1;
    }
    assert s[..|s|] == s;
    return result[..];
  }

  lemma NothingEscaped(s: Bytes)
    ensures EscapeText(s[..0]) == []
  {
  }

  lemma EscapedPrefix(s: Bytes, i: nat)
    requires i < |s|
    ensures EscapeText(s[..i + 1]) == EscapeText(s[..i]) + EscapeChar(s[i])
    ensures |EscapeText(s[..i])| + |EscapeChar(s[i])| <= |EscapeText(s)|
  {
    hide EscapeChar;
    assert s[..i + 1][..i] == s[..i];
    EscapeTextSnoc(s[..i + 1]);
    assert s == s[..i + 1] + s[i + 1..];
    EscapeTextConcat(s[..i + 1], s[i + 1..]);
  }

  /** The switch of `escape_string`; the backslashes are there already. */
  method WriteEscaped(result: array<byte>, pos0: nat, c: byte) returns (pos: nat)
    requires pos0 + |EscapeChar(c)| <= result.Length
    requires forall k :: pos0 <= k < result.Length ==> result[k] == BACKSLASH
    modifies result
    ensures pos == pos0 + |EscapeChar(c)|
    ensures result[..pos] == old(result[..pos0]) + EscapeChar(c)
    ensures forall k :: pos <= k < result.Length ==> result[k] == BACKSLASH
  {
    pos := pos0;
    if c == BACKSLASH {
      pos := pos + 2;
    } else if ShortEscape(c) != 0 {
      result[pos + 1] := ShortEscape(c);
      pos := pos + 2;
    } else if c <= 0x1F {
      result[pos + 1] := 'u' as byte;
      result[pos + 2] := '0' as byte;
      result[pos + 3] := '0' as byte;
      result[pos + 4] := HexDigit(c as nat / 16);
      result[pos + 5] := HexDigit(c as nat % 16);
      pos := pos + 6;
    } else {
      result[pos] := c;
      pos := pos + 1;
    }
  }

  // ---- Code points ------------------------------------------------------------

  predicate HighSurrogate(c: nat) {
    0xD800 <= c <= 0xDBFF
  }

  predicate LowSurrogate(c: nat) {
    0xDC00 <= c <= 0xDFFF
  }

  /** The bytes that the shifts and masks of `to_unicode` give. */
  function Utf8(c: nat): Result<Bytes> {
    if c < 0x80 then Ok([c as byte])
    else if c <= 0x7FF then Ok([(0xC0 + c / 0x40 % 0x20) as byte, (0x80 + c % 0x40) as byte])
    else if c <= 0xFFFF then
      Ok([(0xE0 + c / 0x1000 % 0x10) as byte, (0x80 + c / 0x40 % 0x40) as byte, (0x80 + c % 0x40) as byte])
    else if c <= 0x10FFFF then
      Ok([(0xF0 + c / 0x40000 % 8) as byte, (0x80 + c / 0x1000 % 0x40) as byte,
          (0x80 + c / 0x40 % 0x40) as byte, (0x80 + c % 0x40) as byte])
    else Err(OutOfRange)
  }

  /** `to_unicode`. */
  function ToUnicode(codepoint1: nat, codepoint2: nat): Result<Bytes> {
    if HighSurrogate(codepoint1) then
      if LowSurrogate(codepoint2) then Utf8(codepoint1 * 0x400 + codepoint2 - 0x35FDC00)
      else Err(InvalidArgument)
    else Utf8(codepoint1)
  }

  // ---- Reading ----------------------------------------------------------------

  function HexValue(b: byte): nat {
    if IsDigit(b) then b as nat - 0x30
    else if 'A' as byte <= b <= 'F' as byte then b as nat - 0x37
    else if 'a' as byte <= b <= 'f' as byte then b as nat - 0x57
    else 0
  }

  /** `strtoul` on four hexadecimal digits. */
  function Hex4(s: Bytes, i: nat): nat {
    HexValue(At(s, i)) * 0x1000 + HexValue(At(s, i + 1)) * 0x100 + HexValue(At(s, i + 2)) * 0x10 + HexValue(At(s, i + 3))
  }

  /** The byte that a short escape stands for. */
  function ShortValue(c: byte): byte {
    if c == 'b' as byte then 0x08
    else if c == 'f' as byte then 0x0C
    else if c == 'n' as byte then 0x0A
    else if c == 'r' as byte then 0x0D
    else if c == 't' as byte then 0x09
    else c
  }

  function Prepend(front: Bytes, r: Result<Bytes>): Result<Bytes> {
    if r.Ok? then Ok(front + r.value) else r
  }

  /** The value of the string lexeme `s` from position `i` on. */
  function Unquote(s: Bytes, i: nat): Result<Bytes>
    decreases |s| - i
  {
    if i + 1 >= |s| then Ok([])
    else if s[i] != BACKSLASH then Prepend([s[i]], Unquote(s, i + 1))
    else if At(s, i + 1) != 'u' as byte then
      Prepend(if SimpleEscape(At(s, i + 1)) then [ShortValue(At(s, i + 1))] else [], Unquote(s, i + 2))
    else if HighSurrogate(Hex4(s, i + 2)) then
      if At(s, i + 6) != BACKSLASH || At(s, i + 7) != 'u' as byte then Err(InvalidArgument)
      else
        var u :- ToUnicode(Hex4(s, i + 2), Hex4(s, i + 8));
        Prepend(u, Unquote(s, i + 12))
    else
      var u :- ToUnicode(Hex4(s, i + 2), 0);
      Prepend(u, Unquote(s, i + 6))
  }

  /** The value of a string lexeme. */
  function StringValue(lexeme: Bytes): Result<Bytes> {
    Unquote(lexeme, 1)
  }

  lemma CharAhead(s: Bytes, i: nat)
    requires |s| >= 2 && 1 <= i < |s| - 1 && IsChars(s[i..|s|-1])
    ensures CharLength(s, i) != 0 && i + CharLength(s, i) <= |s| - 1
    ensures IsChars(s[i + CharLength(s, i)..|s|-1])
  {
    var body := s[i..|s|-1];
    var l := CharLength(body, 0);
    CharInText(body, 0);
    CharsStep(body);
    CharInSlice(s, i, |s| - 1);
    assert body[l..] == s[i + l..|s|-1];
  }

  /** `get_string`. The scanner's check of the lexeme is what keeps all reads in front of or
      at the closing quote. */
  method GetString(s: Bytes) returns (r: Result<Bytes>)
    requires IsString(s)
    ensures r == StringValue(s)
  {
    hide Utf8, Hex4, IsChars;
    var result: Bytes := [];
    var i := 1;
    PrependMore([], [], Unquote(s, 1));
    while i < |s| - 1
      invariant 1 <= i <= |s| - 1 && IsChars(s[i..|s|-1])
      invariant StringValue(s) == Prepend(result, Unquote(s, i))
      decreases |s| - i
    {
      CharAhead(s, i);
      if s[i] == BACKSLASH {
        var c := s[i + 1];
        if c == 'u' as byte {
          var codepoint := Hex4(s, i + 2);
          if HighSurrogate(codepoint) {
            if s[i + 6] != BACKSLASH || s[i + 7] != 'u' as byte {
              return Err(InvalidArgument);
            }
            CharAhead(s, i + 6);
            var u :- ToUnicode(codepoint, Hex4(s, i + 8));
            PrependMore(result, u, Unquote(s, i + 12));
            result := result + u;
            i := i + 12;
          } else {
            var u :- ToUnicode(codepoint, 0);
            PrependMore(result, u, Unquote(s, i + 6));
            result := result + u;
            i := i + 6;
          }
        } else {
          PrependMore(result, [ShortValue(c)], Unquote(s, i + 2));
          result := result + [ShortValue(c)];
          i := i + 2;
        }
      } else {
        PrependMore(result, [s[i]], Unquote(s, i + 1));
        result := result + [s[i]];
        i := i + 1;
      }
    }
    assert result + [] == result;
    return Ok(result);
  }

  lemma PrependMore(a: Bytes, b: Bytes, r: Result<Bytes>)
    ensures Prepend(a, Prepend(b, r)) == Prepend(a + b, r)
    ensures Prepend([], r) == r
  {
    if r.Ok? {
      assert a + (b + r.value) == a + b + r.value;
      assert [] + r.value == r.value;
    }
  }

  // ---- Reading back what was printed ------------------------------------------

  lemma TextAtSplit(t: Bytes, i: nat, a: Bytes, b: Bytes)
    requires TextAt(t, i, a + b)
    ensures TextAt(t, i, a) && TextAt(t, i + |a|, b)
    ensures forall k :: 0 <= k < |a| ==> At(t, i + k) == a[k]
  {
    var s := t[i..i + |a + b|];
    assert s == a + b;
    assert t[i..i + |a|] == s[..|a|] == a;
    assert t[i + |a|..i + |a| + |b|] == s[|a|..] == b;
    forall k | 0 <= k < |a| ensures At(t, i + k) == a[k] {
      assert t[i..i + |a|][k] == t[i + k];
    }
  }

  lemma EscapeCharRead(t: Bytes, i: nat, b: byte)
    requires forall k :: 0 <= k < |EscapeChar(b)| ==> At(t, i + k) == EscapeChar(b)[k]
    ensures CharLength(t, i) == |EscapeChar(b)| && At(t, i) != QUOTE
  {
    var e := EscapeChar(b);
    assert At(t, i) == e[0];
    if |e| > 1 { assert At(t, i + 1) == e[1]; }
    if |e| > 2 {
      assert At(t, i + 2) == e[2] && At(t, i + 3) == e[3] && At(t, i + 4) == e[4] && At(t, i + 5) == e[5];
      assert IsHex(e[4]) && IsHex(e[5]);
    }
  }

  /** The scanner finds the end of a printed string. */
  lemma {:induction false} EscapedEnd(t: Bytes, i: nat, s: Bytes)
    requires TextAt(t, i, EscapeText(s) + [QUOTE])
    ensures StringEnd(t, i) == i + |EscapeText(s)| + 1
    decreases |s|
  {
    hide EscapeChar, StringEnd;
    TextAtSplit(t, i, EscapeText(s), [QUOTE]);
    StringEndStep(t, i);
    if s == [] {
      assert t[i..i + 1][0] == t[i];
    } else {
      var e, rest := EscapeChar(s[0]), EscapeText(s[1..]);
      assert EscapeText(s) + [QUOTE] == e + (rest + [QUOTE]);
      TextAtSplit(t, i, e, rest + [QUOTE]);
      EscapeCharRead(t, i, s[0]);
      EscapeCharNonEmpty(s[0]);
      EscapedEnd(t, i + |e|, s[1..]);
    }
  }

  lemma EscapeCharNonEmpty(b: byte)
    ensures EscapeChar(b) != []
  {
  }

  lemma EscapeCharValue(t: Bytes, i: nat, b: byte)
    requires i + |EscapeChar(b)| < |t|
    requires forall k :: 0 <= k < |EscapeChar(b)| ==> At(t, i + k) == EscapeChar(b)[k]
    ensures Unquote(t, i) == Prepend([b], Unquote(t, i + |EscapeChar(b)|))
  {
    var e := EscapeChar(b);
    assert At(t, i) == e[0];
    if |e| > 1 { assert At(t, i + 1) == e[1]; }
    if |e| > 2 {
      assert At(t, i + 2) == e[2] && At(t, i + 3) == e[3] && At(t, i + 4) == e[4] && At(t, i + 5) == e[5];
      HexDigitValue(b as nat / 16);
      HexDigitValue(b as nat % 16);
      assert Hex4(t, i + 2) == b as nat;
      assert Utf8(b as nat) == Ok([b]);
    }
  }

  lemma HexDigitValue(d: nat)
    requires d < 16
    ensures HexValue(HexDigit(d)) == d && IsHex(HexDigit(d))
  {
  }

  lemma {:induction false} UnquoteEscaped(t: Bytes, i: nat, s: Bytes)
    requires TextAt(t, i, EscapeText(s) + [QUOTE]) && |t| == i + |EscapeText(s)| + 1
    ensures Unquote(t, i) == Ok(s)
    decreases |s|
  {
    hide EscapeChar;
    if s != [] {
      var e, rest := EscapeChar(s[0]), EscapeText(s[1..]);
      assert EscapeText(s) + [QUOTE] == e + (rest + [QUOTE]);
      TextAtSplit(t, i, e, rest + [QUOTE]);
      EscapeCharValue(t, i, s[0]);
      UnquoteEscaped(t, i + |e|, s[1..]);
      assert s == [s[0]] + s[1..];
    }
  }

  /** A string as it is printed. */
  function Quoted(s: Bytes): Bytes {
    [QUOTE] + EscapeText(s) + [QUOTE]
  }

  /** `get_string` on a printed string gives the string back, whatever bytes it has. */
  lemma QuotedRoundTrip(s: Bytes)
    ensures IsString(Quoted(s)) && StringValue(Quoted(s)) == Ok(s)
  {
    hide EscapeText;
    var t := Quoted(s);
    assert t[1..1 + |EscapeText(s) + [QUOTE]|] == EscapeText(s) + [QUOTE];
    UnquoteEscaped(t, 1, s);
    EscapedEnd(t, 1, s);
    StringIsLexeme(t, 0);
    assert t[0..|t|] == t;
  }
}
