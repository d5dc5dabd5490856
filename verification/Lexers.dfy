/** The scanner over contiguous storage: cursors into a buffer that has no end mark, and one
    refill that copies what is unread and appends NUL bytes. Indexing `content` is checked, so
    verifying the class shows that no byte beyond `limit` is read. */
module Lexers {
  import opened ByteStrings
  import opened Decimals
  import opened Lexical

  /** `content` is the input from position `base` on, with NUL bytes behind it. */
  ghost predicate Shows(content: Bytes, text: Bytes, base: nat) {
    forall i :: 0 <= i < |content| ==> content[i] == At(text, base + i)
  }

  class Lexer {
    /** The whole input. */
    ghost const text: Bytes
    /** Position in the input of the first byte of `content`. */
    ghost var base: nat
    /** `content` is the line buffer. */
    ghost var refilled: bool

    var content: Bytes
    var start: nat
    /** Backtracking position; -1 for the null pointer. */
    var marker: int
    var cursor: nat
    var limit: nat
    var lastTokenType: Kind

    ghost predicate Valid()
      reads this
    {
      && limit == |content| && start <= cursor <= limit
      && (marker == -1 || start <= marker <= limit)
      && (if refilled then base + limit == |text| + 5 else base == 0 && content == text)
      && Shows(content, text, base)
    }

    /** The position of the cursor in the input. */
    ghost function Pos(): nat
      reads this
    {
      base + cursor
    }

    ghost function StartPos(): nat
      reads this
    {
      base + start
    }

    /** `*m_cursor`. */
    function Yych(): (b: byte)
      reads this
      requires Valid() && cursor < limit
      ensures b == At(text, Pos())
    {
      content[cursor]
    }

    /** `m_start` to `m_cursor`: the token read last. */
    function Lexeme(): (s: Bytes)
      reads this
      requires Valid()
      ensures Pos() <= |text| ==> s == text[StartPos()..Pos()]
    {
      SameSlice(content, text, base, start, cursor);
      content[start..cursor]
    }

    constructor (buffer: Bytes)
      ensures Valid() && text == buffer && Pos() == 0
    {
      text := buffer;
      base, refilled := 0, false;
      content, start, marker, cursor, limit := buffer, 0, -1, 0, |buffer|;
      lastTokenType := EndOfInput;
    }

    /** `fill_line_buffer` without a stream. It is never called on the line buffer itself. */
    method FillLineBuffer()
      requires Valid() && !refilled
      modifies this
      ensures Valid() && refilled && start == 0
      ensures Pos() == old(Pos()) && StartPos() == old(StartPos())
      ensures if old(marker) == -1 then marker == 0 else base + marker == old(base + marker)
      ensures lastTokenType == old(lastTokenType)
      ensures limit - cursor >= 5
    {
      var offsetMarker := if marker == -1 then 0 else marker - start;
      var offsetCursor := cursor - start;
      var lineBuffer := CopyUnread();
      lineBuffer := lineBuffer + [0, 0, 0, 0, 0];
      ghost var unread := content[start..limit];
      forall i | 0 <= i < |lineBuffer| ensures lineBuffer[i] == At(text, base + start + i) {
        if i < |unread| { assert lineBuffer[i] == unread[i] == content[start + i]; }
      }
      base, refilled := base + start, true;
      content := lineBuffer;
      start := 0;
      marker := start + offsetMarker;
      cursor := start + offsetCursor;
      limit := start + |lineBuffer|;
    }

    /** The copying loop; it leaves the cursor at the limit. */
    method CopyUnread() returns (lineBuffer: Bytes)
      requires start <= limit == |content|
      modifies this`cursor
      ensures lineBuffer == content[start..limit]
    {
      lineBuffer := [];
      cursor := start;
      while cursor != limit
        invariant start <= cursor <= limit
        invariant lineBuffer == content[start..cursor]
        decreases limit - cursor
      {
        lineBuffer := lineBuffer + [content[cursor]];
        cursor := cursor + 1;
      }
    }

    /** `++m_cursor; if (m_limit <= m_cursor) fill_line_buffer();` */
    method Advance()
      requires Valid() && cursor < limit && Yych() != 0
      modifies this
      ensures Valid() && cursor < limit && Pos() == old(Pos()) + 1 <= |text|
      ensures StartPos() == old(StartPos())
      ensures old(marker) != -1 ==> marker != -1 && base + marker == old(base + marker)
      ensures lastTokenType == old(lastTokenType)
    {
      cursor := cursor + 1;
      if limit <= cursor {
        FillLineBuffer();
      }
    }

    /** The states for `"`, from the opening quote on. */
    method ScanString()
      requires Valid() && start == cursor && limit - cursor >= 5 && Yych() == QUOTE
      modifies this
      ensures Valid() && StartPos() == old(Pos())
      ensures (lastTokenType, Pos()) == TokenAt(text, old(Pos()))
    {
      hide Shows, StringEnd, TokenAt, CharLength;
      ghost var p := Pos();
      StringToken(text, p);
      cursor := cursor + 1;
      marker := cursor;
      while true
        invariant Valid() && StartPos() == p && marker != -1 && base + marker == p + 1
        invariant cursor < limit && p < Pos()
        invariant StringEnd(text, Pos()) == StringEnd(text, p + 1)
        decreases |text| - Pos()
      {
        StringEndStep(text, Pos());
        if Yych() == QUOTE {
          cursor := cursor + 1;
          lastTokenType := ValueString;
          return;
        }
        var ok := ScanChar();
        if !ok {
          cursor := marker;
          lastTokenType := ParseError;
          return;
        }
      }
    }

    /** One character of a string; false means going back to the marker. */
    method ScanChar() returns (ok: bool)
      requires Valid() && cursor < limit && Yych() != QUOTE && marker != -1
      modifies this
      ensures Valid() && StartPos() == old(StartPos()) && marker != -1 && base + marker == old(base + marker)
      ensures ok == (CharLength(text, old(Pos())) != 0)
      ensures ok ==> cursor < limit && Pos() == old(Pos()) + CharLength(text, old(Pos())) <= |text|
    {
      hide Shows, CharLength;
      PlainChar(text, Pos());
      if Yych() <= 0x1F {
        return false;
      } else if Yych() == BACKSLASH {
        ok := ScanEscape();
      } else {
        Advance();
        return true;
      }
    }

    /** The states behind a backslash; false means going back to the marker. */
    method ScanEscape() returns (ok: bool)
      requires Valid() && cursor < limit && Yych() == BACKSLASH && marker != -1
      modifies this
      ensures Valid() && StartPos() == old(StartPos()) && marker != -1 && base + marker == old(base + marker)
      ensures ok == (CharLength(text, old(Pos())) != 0)
      ensures ok ==> cursor < limit && Pos() == old(Pos()) + CharLength(text, old(Pos())) <= |text|
    {
      hide Shows;
      ghost var p := Pos();
      Advance();
      var b := Yych();
      if SimpleEscape(b) {
        Advance();
        return true;
      }
      if b != 'u' as byte {
        return false;
      }
      Advance();
      ok := ScanHex();
    }

    /** The four states behind `\u`. */
    method ScanHex() returns (ok: bool)
      requires Valid() && cursor < limit && marker != -1
      modifies this
      ensures Valid() && StartPos() == old(StartPos()) && marker != -1 && base + marker == old(base + marker)
      ensures var p := old(Pos());
              ok == (IsHex(At(text, p)) && IsHex(At(text, p + 1)) && IsHex(At(text, p + 2)) && IsHex(At(text, p + 3)))
      ensures ok ==> cursor < limit && Pos() == old(Pos()) + 4 <= |text|
    {
      hide Shows;
      ghost var p := Pos();
      var n := 0;
      while n < 4
        invariant 0 <= n <= 4
        invariant Valid() && StartPos() == old(StartPos()) && marker != -1 && base + marker == old(base + marker)
        invariant cursor < limit && Pos() == p + n && (n > 0 ==> Pos() <= |text|)
        invariant n > 0 ==> IsHex(At(text, p))
        invariant n > 1 ==> IsHex(At(text, p + 1))
        invariant n > 2 ==> IsHex(At(text, p + 2))
        invariant n > 3 ==> IsHex(At(text, p + 3))
      {
        if !IsHex(Yych()) {
          return false;
        }
        Advance();
        n := n + 1;
      }
      return true;
    }

    /** Behind a digit: all further digits. Each is a possible end, so the marker follows; and
        three more bytes are made available for a fraction or an exponent. */
    method ScanDigits()
      requires Valid() && cursor < limit && IsDigit(Yych())
      modifies this
      ensures Valid() && StartPos() == old(StartPos())
      ensures Pos() == DigitsEnd(text, old(Pos())) && marker == cursor && limit - cursor >= 3
    {
      hide Shows, DigitsEnd;
      ghost var p := Pos();
      while true
        invariant Valid() && StartPos() == old(StartPos())
        invariant cursor < limit && IsDigit(Yych())
        invariant p <= Pos() && DigitsEnd(text, Pos()) == DigitsEnd(text, p)
        decreases |text| - Pos()
      {
        DigitsEndStep(text, Pos());
        cursor := cursor + 1;
        marker := cursor;
        if limit - cursor < 3 {
          FillLineBuffer();
        }
        DigitsEndStep(text, Pos());
        if !IsDigit(Yych()) {
          return;
        }
      }
    }

    /** The states from `-` or a digit on. */
    method ScanNumber()
      requires Valid() && start == cursor && limit - cursor >= 5
      requires Yych() == '-' as byte || IsDigit(Yych())
      modifies this
      ensures Valid() && StartPos() == old(Pos())
      ensures (lastTokenType, Pos()) == TokenAt(text, old(Pos()))
    {
      hide Shows, DigitsEnd, TokenAt, IntEnd, FracEnd, ExpEnd;
      NumberToken(text, Pos());
      if Yych() == '-' as byte {
        cursor := cursor + 1;
        if !IsDigit(Yych()) {
          lastTokenType := ParseError;
          return;
        }
      }
      ScanInt();
      ScanFraction();
      ScanExponent();
      lastTokenType := ValueNumber;
    }

    /** The states from the first digit on. */
    method ScanInt()
      requires Valid() && cursor < limit && limit - cursor >= 4 && IsDigit(Yych())
      modifies this
      ensures Valid() && StartPos() == old(StartPos())
      ensures Pos() == IntEnd(text, old(Pos())) && marker == cursor && limit - cursor >= 3
    {
      hide Shows, DigitsEnd;
      if Yych() == '0' as byte {
        cursor := cursor + 1;
        marker := cursor;
      } else {
        ScanDigits();
      }
    }

    /** The states for `.`. */
    method ScanFraction()
      requires Valid() && marker == cursor && limit - cursor >= 3
      modifies this
      ensures Valid() && StartPos() == old(StartPos())
      ensures Pos() == FracEnd(text, old(Pos())) && marker == cursor && limit - cursor >= 3
    {
      hide Shows, DigitsEnd;
      if Yych() == '.' as byte {
        DigitsEndStep(text, Pos() + 1);
        cursor := cursor + 1;
        if IsDigit(Yych()) {
          ScanDigits();
        } else {
          cursor := marker;
        }
      }
    }

    /** The states for `e` or `E`. */
    method ScanExponent()
      requires Valid() && marker == cursor && limit - cursor >= 3
      modifies this
      ensures Valid() && StartPos() == old(StartPos())
      ensures Pos() == ExpEnd(text, old(Pos()))
    {
      hide Shows, DigitsEnd;
      if IsE(Yych()) {
        cursor := cursor + 1;
        if IsSign(Yych()) {
          cursor := cursor + 1;
        }
        if !IsDigit(Yych()) {
          cursor := marker;
          return;
        }
        ExponentDigits();
      }
    }

    method ExponentDigits()
      requires Valid() && cursor < limit && marker != -1 && IsDigit(Yych())
      modifies this
      ensures Valid() && StartPos() == old(StartPos())
      ensures Pos() == DigitsEnd(text, old(Pos()) + 1)
    {
      hide Shows, DigitsEnd;
      ghost var p := Pos();
      DigitsEndStep(text, p);
      while IsDigit(Yych())
        invariant Valid() && StartPos() == old(StartPos()) && marker != -1
        invariant cursor < limit && p <= Pos() && DigitsEnd(text, Pos()) == DigitsEnd(text, p)
        decreases |text| - Pos()
      {
        DigitsEndStep(text, Pos());
        Advance();
      }
      DigitsEndStep(text, Pos());
    }

    /** The states for the words `true`, `false` and `null`. */
    method ScanWord(word: Bytes)
      requires Valid() && start == cursor && limit - cursor >= 5
      requires word in {TRUE_TEXT, FALSE_TEXT, NULL_TEXT} && Yych() == word[0]
      modifies this
      ensures Valid() && StartPos() == old(Pos())
      ensures (lastTokenType, Pos()) == TokenAt(text, old(Pos()))
    {
      hide Shows, TokenAt, TextAt, WordKind;
      ghost var p := Pos();
      WordToken(text, p, word);
      marker := cursor + 1;
      var n := 1;
      while n < |word|
        invariant 1 <= n <= |word|
        invariant Valid() && StartPos() == p && cursor == start + n - 1 && marker == start + 1
        invariant limit - start >= 5
        invariant forall k :: 0 <= k < n ==> At(text, p + k) == word[k]
      {
        cursor := cursor + 1;
        if Yych() != word[n] {
          NotThisWord(text, p, word, n);
          cursor := marker;
          lastTokenType := ParseError;
          return;
        }
        n := n + 1;
      }
      ThisWord(text, p, word);
      cursor := cursor + 1;
      lastTokenType := WordKind(word);
    }

    /** `scan`: skips white space and byte-order marks and reads one token. */
    method Scan() returns (kind: Kind)
      requires Valid() && Pos() <= |text|
      modifies this
      ensures Valid() && kind == lastTokenType
      ensures StartPos() == SkipBlank(text, old(Pos()))
      ensures (kind, Pos()) == TokenAt(text, StartPos())
    {
      hide Shows, TokenAt, SkipBlank;
      ghost var p0 := Pos();
      while true
        invariant Valid() && Pos() <= |text| && SkipBlank(text, Pos()) == SkipBlank(text, p0)
        decreases |text| - Pos()
      {
        SkipBlankStep(text, Pos());
        marker := -1;
        start := cursor;
        if limit - cursor < 5 {
          FillLineBuffer();
        }
        if Blank(Yych()) {
          SkipSpace();
        } else if Yych() == 0xEF {
          OtherToken(text, Pos());
          var found := ScanMark();
          if !found {
            return lastTokenType;
          }
        } else {
          ScanToken();
          return lastTokenType;
        }
      }
    }

    /** The states for a byte-order mark. */
    method ScanMark() returns (found: bool)
      requires Valid() && start == cursor && limit - cursor >= 5 && Yych() == 0xEF
      modifies this
      ensures Valid() && StartPos() == old(Pos())
      ensures found == Mark(text, old(Pos()))
      ensures found ==> Pos() == old(Pos()) + 3 <= |text|
      ensures !found ==> Pos() == old(Pos()) + 1 && lastTokenType == ParseError
    {
      hide Shows;
      cursor := cursor + 1;
      marker := cursor;
      if Yych() == 0xBB {
        cursor := cursor + 1;
        if Yych() == 0xBF {
          cursor := cursor + 1;
          return true;
        }
        cursor := marker;
      }
      lastTokenType := ParseError;
      return false;
    }

    /** The state for white space. */
    method SkipSpace()
      requires Valid() && cursor < limit && Blank(Yych())
      modifies this
      ensures Valid() && old(Pos()) < Pos() <= |text|
      ensures SkipBlank(text, Pos()) == SkipBlank(text, old(Pos()))
    {
      hide Shows, SkipBlank;
      SkipBlankStep(text, Pos());
      Advance();
      while Blank(Yych())
        invariant Valid() && cursor < limit && old(Pos()) < Pos() <= |text|
        invariant SkipBlank(text, Pos()) == SkipBlank(text, old(Pos()))
        decreases |text| - Pos()
      {
        SkipBlankStep(text, Pos());
        Advance();
      }
    }

    /** The dispatch on the first byte. */
    method ScanToken()
      requires Valid() && start == cursor && limit - cursor >= 5
      modifies this
      ensures Valid() && StartPos() == old(Pos())
      ensures (lastTokenType, Pos()) == TokenAt(text, old(Pos()))
    {
      hide Shows, TokenAt;
      var b := Yych();
      if b == QUOTE {
        ScanString();
      } else if b == '-' as byte || IsDigit(b) {
        ScanNumber();
      } else if b == 't' as byte {
        ScanWord(TRUE_TEXT);
      } else if b == 'f' as byte {
        ScanWord(FALSE_TEXT);
      } else if b == 'n' as byte {
        ScanWord(NULL_TEXT);
      } else {
        OtherToken(text, Pos());
        cursor := cursor + 1;
        lastTokenType := SingleKind(b);
      }
    }
  }

  lemma SameSlice(content: Bytes, text: Bytes, base: nat, i: nat, j: nat)
    requires Shows(content, text, base) && i <= j <= |content|
    ensures base + j <= |text| ==> content[i..j] == text[base + i..base + j]
  {
  }

  lemma PlainChar(t: Bytes, i: nat)
    ensures At(t, i) <= 0x1F || At(t, i) == QUOTE ==> CharLength(t, i) == 0
    ensures At(t, i) > 0x1F && At(t, i) != QUOTE && At(t, i) != BACKSLASH ==> CharLength(t, i) == 1
  {
  }

  lemma NotThisWord(t: Bytes, p: nat, word: Bytes, n: nat)
    requires n < |word| && At(t, p + n) != word[n]
    ensures !TextAt(t, p, word)
  {
    if p + |word| <= |t| { assert t[p..p + |word|][n] == t[p + n]; }
  }

  lemma ThisWord(t: Bytes, p: nat, word: Bytes)
    requires word in {TRUE_TEXT, FALSE_TEXT, NULL_TEXT}
    requires forall k :: 0 <= k < |word| ==> At(t, p + k) == word[k]
    ensures TextAt(t, p, word)
  {
    var n := |word| - 1;
    assert word[n] != 0;
    assert At(t, p + n) == word[n];
    assert t[p..p + |word|] == word;
  }
}
