/** JSON texts: the grammar of RFC 7159 over bytes, without a scanner. A text is the lexemes of
    a derivation with gaps between them; the parser accepts exactly these texts. */
module Texts {
  import opened ByteStrings
  import opened Decimals
  import opened Lexical
  import opened Parsers
  import opened Printers
  import opened Results
  import opened Values

  // ---- Texts --------------------------------------------------------------------

  /** Section 2 of RFC 7159: space, tab, line feed, carriage return. */
  predicate IsWhiteSpace(b: byte) {
    b in {0x20, 0x09, 0x0A, 0x0D}
  }

  /** White space between positions `i` and `n`; byte-order marks count as such everywhere. */
  predicate Gap(t: Bytes, i: nat, n: nat)
    decreases n - i
  {
    && i <= n <= |t|
    && (|| i == n
        || (IsWhiteSpace(t[i]) && Gap(t, i + 1, n))
        || (i + 3 <= n && t[i] == 0xEF && t[i + 1] == 0xBB && t[i + 2] == 0xBF && Gap(t, i + 3, n)))
  }

  /** Behind a gap, from `i` to `n`, the lexeme of `token` ends at `m`. */
  ghost predicate TokenBehindGap(t: Bytes, i: nat, token: Token, n: nat, m: nat) {
    Gap(t, i, n) && LexemeAt(t, n, token.kind, m) && token.lexeme == t[n..m]
  }

  /** From position `i` on, the text consists of the lexemes of `ts` with gaps in front of and
      behind each, up to its end or up to a NUL. */
  ghost predicate Spelled(t: Bytes, i: nat, ts: seq<Token>)
    decreases |ts|
  {
    if ts == [] then exists n: nat :: Gap(t, i, n) && At(t, n) == 0
    else exists n: nat, m: nat :: TokenBehindGap(t, i, ts[0], n, m) && Spelled(t, m, ts[1..])
  }

  /** `t` is a text for the derivation `tree`, whose value is `v`. */
  ghost predicate IsText(tree: Tree, t: Bytes, v: Json) {
    WellFormed(tree) && Spelled(t, 0, Yield(tree)) && Meaning(tree) == Ok(v)
  }

  // ---- What the scanner finds spells the text ---------------------------------------

  lemma {:induction false} SkippedIsGap(t: Bytes, i: nat)
    requires i <= |t|
    ensures Gap(t, i, SkipBlank(t, i))
    decreases |t| - i
  {
    if Blank(At(t, i)) {
      SkippedIsGap(t, i + 1);
    } else if Mark(t, i) {
      SkippedIsGap(t, i + 3);
    }
  }

  lemma {:induction false} LexedIsSpelled(t: Bytes, i: nat, ts: seq<Token>)
    requires i <= |t| && Lex(t, i) == ts + [END]
    ensures Spelled(t, i, ts)
    decreases |ts|
  {
    hide Lex, SkipBlank, TokenAt, IsLexeme, Gap, Spelled;
    LexFromToken(t, i);
    var p := SkipBlank(t, i);
    var (kind, end) := TokenAt(t, p);
    SkippedIsGap(t, i);
    EndIsNul(t, p);
    TokenIsLexeme(t, p);
    if ts == [] {
      assert |Lex(t, i)| == 1;
      assert Last(kind);
      assert Lex(t, i)[0] == END;
      SpelledEnd(t, i, p);
    } else {
      assert Lex(t, i)[0] == ts[0] && |Lex(t, i)| > 1;
      assert Lex(t, i)[1..] == ts[1..] + [END];
      assert Lex(t, end) == Lex(t, i)[1..];
      LexedIsSpelled(t, end, ts[1..]);
      SpelledToken(t, i, ts, p, end);
    }
  }

  lemma EndIsNul(t: Bytes, p: nat)
    ensures TokenAt(t, p).0.EndOfInput? <==> At(t, p) == 0
  {
    hide StringEnd, NumberEnd, TextAt;
  }

  lemma SpelledEnd(t: Bytes, i: nat, n: nat)
    requires Gap(t, i, n) && At(t, n) == 0
    ensures Spelled(t, i, [])
  {
  }

  lemma SpelledToken(t: Bytes, i: nat, ts: seq<Token>, n: nat, m: nat)
    requires ts != [] && TokenBehindGap(t, i, ts[0], n, m) && Spelled(t, m, ts[1..])
    ensures Spelled(t, i, ts)
  {
    hide Gap, IsLexeme;
  }

  // ---- What spells the text is what the scanner finds -------------------------------

  lemma {:induction false} GapIsSkipped(t: Bytes, i: nat, n: nat)
    requires Gap(t, i, n)
    ensures SkipBlank(t, i) == SkipBlank(t, n)
    decreases n - i
  {
    hide SkipBlank;
    SkipBlankStep(t, i);
    if i < n {
      GapIsSkipped(t, if IsWhiteSpace(t[i]) then i + 1 else i + 3, n);
    }
  }

  /** Each byte of a number but the first; a sign only behind the exponent's letter. */
  lemma NumberByte(s: Bytes, k: nat)
    requires IsNumber(s) && 0 < k < |s|
    ensures IsDigit(s[k]) || s[k] == '.' as byte || IsE(s[k]) || (IsSign(s[k]) && IsE(s[k - 1]))
  {
    var a: nat, b: nat, c: nat :| IsNumberSplit(s, a, b, c);
    if k < b {
      assert s[k] == s[a..b][k - a];
    } else if k < c {
      assert s[k] == s[b..c][k - b];
      if k > b { assert s[k] == s[b..c][1..][k - b - 1]; }
    } else {
      var e := s[c..];
      assert s[k] == e[k - c];
      if k > c {
        assert s[k] == e[1..][k - c - 1] && s[k - 1] == e[k - c - 1];
        if k > c + 1 { assert s[k] == e[2..][k - c - 2]; }
      }
    }
  }

  lemma NumberLast(s: Bytes)
    requires IsNumber(s)
    ensures s != [] && IsDigit(s[|s| - 1])
  {
    var a: nat, b: nat, c: nat :| IsNumberSplit(s, a, b, c);
    var last := s[|s| - 1];
    if c < |s| {
      var e := s[c..];
      assert last == e[|e| - 1];
      if IsDigits(e[1..]) { assert last == e[1..][|e| - 2]; } else { assert last == e[2..][|e| - 3]; }
    } else if b < c {
      var f := s[b..c];
      assert last == f[|f| - 1] == f[1..][|f| - 2];
    } else {
      assert last == s[a..b][b - a - 1];
    }
  }

  lemma NumberEndsHere(t: Bytes, i: nat, n: nat)
    requires i <= n <= |t| && IsNumber(t[i..n]) && EndsNumber(At(t, n))
    ensures NumberEnd(t, i) == n
  {
    hide NumberEnd, IsNumber;
    NumberLongest(t, i, n);
    var e := NumberEnd(t, i);
    NumberIsLexeme(t, i);
    NumberLast(t[i..n]);
    if n < e {
      assert t[i..e][n - i] == t[n] && t[i..e][n - i - 1] == t[n - 1] == t[i..n][n - i - 1];
      NumberByte(t[i..e], n - i);
      assert false;
    }
  }

  /** A lexeme that no byte prolongs is the token that the scanner finds. */
  lemma LexemeIsToken(t: Bytes, i: nat, kind: Kind, n: nat)
    requires LexemeAt(t, i, kind, n)
    requires kind.ValueNumber? ==> EndsNumber(At(t, n))
    ensures TokenAt(t, i) == (kind, n) && SkipBlank(t, i) == i
  {
    hide TokenAt, NumberEnd, StringEnd, IsNumber, IsString, SkipBlank;
    NoLongerLexeme(t, i, kind, n);
    TokenIsLexeme(t, i);
    FirstByte(kind, t[i..n]);
    AtInSlice(t, i, n);
    assert At(t, i) == t[i..n][0];
    SkipBlankStep(t, i);
    if kind.ValueString? {
      StringUnique(t, i, n);
      StringToken(t, i);
    } else if kind.ValueNumber? {
      NumberEndsHere(t, i, n);
      NumberIsToken(t, i);
    }
  }

  lemma NumberIsToken(t: Bytes, i: nat)
    requires IsDigit(At(t, i)) || At(t, i) == '-' as byte
    requires TokenAt(t, i).0.ValueNumber?
    ensures TokenAt(t, i).1 == NumberEnd(t, i)
  {
    hide NumberEnd, StringEnd;
  }

  predicate Closes(kind: Kind) {
    kind.ValueSeparator? || kind.EndArray? || kind.EndObject?
  }

  /** Numbers are followed by a comma or a closing bracket or brace. */
  predicate Separated(ts: seq<Token>) {
    forall k :: 0 <= k < |ts| - 1 && ts[k].kind.ValueNumber? ==> Closes(ts[k + 1].kind)
  }

  /** Behind a number there is nothing that could prolong it. */
  lemma ByteBehind(t: Bytes, i: nat, ts: seq<Token>)
    requires i <= |t| && Spelled(t, i, ts) && (ts == [] || Closes(ts[0].kind))
    ensures EndsNumber(At(t, i))
  {
    hide Spelled;
    var n := FirstGap(t, i, ts);
    if i < n {
      assert IsWhiteSpace(t[i]) || t[i] == 0xEF;
    }
  }

  lemma FirstGap(t: Bytes, i: nat, ts: seq<Token>) returns (n: nat)
    requires Spelled(t, i, ts) && (ts == [] || Closes(ts[0].kind))
    ensures Gap(t, i, n) && EndsNumber(At(t, n))
  {
    if ts == [] {
      n :| Gap(t, i, n) && At(t, n) == 0;
    } else {
      var m: nat;
      n, m :| TokenBehindGap(t, i, ts[0], n, m) && Spelled(t, m, ts[1..]);
      AtInSlice(t, n, m);
    }
  }

  lemma {:induction false} SpelledIsLexed(t: Bytes, i: nat, ts: seq<Token>)
    requires i <= |t| && Spelled(t, i, ts) && Separated(ts)
    ensures Lex(t, i) == ts + [END]
    decreases |ts|
  {
    hide Lex, SkipBlank, TokenAt, IsLexeme, Gap;
    LexFromToken(t, i);
    if ts == [] {
      var n: nat :| Gap(t, i, n) && At(t, n) == 0;
      GapIsSkipped(t, i, n);
      SkipBlankStep(t, n);
      EndIsNul(t, n);
      assert Lex(t, i) == [END];
    } else {
      var n: nat, m: nat :| TokenBehindGap(t, i, ts[0], n, m) && Spelled(t, m, ts[1..]);
      GapIsSkipped(t, i, n);
      if ts[0].kind.ValueNumber? {
        ByteBehind(t, m, ts[1..]);
      }
      LexemeIsToken(t, n, ts[0].kind, m);
      NotALexeme(ts[0].kind, t[n..m]);
      SpelledIsLexed(t, m, ts[1..]);
      assert ts == [ts[0]] + ts[1..];
    }
  }

  // ---- The yield of a derivation leaves no choice ------------------------------------

  lemma SeparatedConcat(a: seq<Token>, b: seq<Token>)
    requires Separated(a) && Separated(b)
    requires a != [] && b != [] && (a[|a| - 1].kind.ValueNumber? ==> Closes(b[0].kind))
    ensures Separated(a + b)
  {
    var s := a + b;
    forall k | 0 <= k < |s| - 1 && s[k].kind.ValueNumber? ensures Closes(s[k + 1].kind) {
      if k >= |a| { assert s[k] == b[k - |a|] && s[k + 1] == b[k - |a| + 1]; }
    }
  }

  lemma {:induction false} YieldSeparated(t: Tree)
    ensures Yield(t) != [] && Separated(Yield(t))
    decreases t, 1
  {
    match t
    case List(items) =>
      if items != [] {
        ItemsSeparated(items);
        SeparatedConcat([LBRACKET], YieldItems(items));
      }
    case Table(members) =>
      if members != [] {
        MembersSeparated(members);
        SeparatedConcat([LBRACE], YieldMembers(members));
      }
    case _ =>
  }

  lemma {:induction false} ItemsSeparated(items: seq<Tree>)
    requires items != []
    ensures YieldItems(items) != [] && Separated(YieldItems(items))
    decreases items, 0
  {
    hide Yield, Separated;
    YieldItemsStep(items);
    YieldSeparated(items[0]);
    OneSeparated(RBRACKET);
    OneSeparated(COMMA);
    if |items| == 1 {
      SeparatedConcat(Yield(items[0]), [RBRACKET]);
    } else {
      ItemsSeparated(items[1..]);
      SeparatedConcat([COMMA], YieldItems(items[1..]));
      SeparatedConcat(Yield(items[0]), [COMMA] + YieldItems(items[1..]));
    }
  }

  lemma OneSeparated(token: Token)
    ensures Separated([token])
  {
  }

  lemma {:induction false} MembersSeparated(members: seq<Member>)
    requires members != []
    ensures YieldMembers(members) != [] && Separated(YieldMembers(members))
    decreases members, 0
  {
    hide Yield, Separated;
    YieldMembersStep(members);
    YieldSeparated(members[0].value);
    var name := Token(ValueString, members[0].key);
    NameSeparated(name);
    OneSeparated(RBRACE);
    OneSeparated(COMMA);
    var value := Yield(members[0].value);
    SeparatedConcat([name, COLON], value);
    if |members| == 1 {
      SeparatedConcat([name, COLON] + value, [RBRACE]);
    } else {
      MembersSeparated(members[1..]);
      SeparatedConcat([COMMA], YieldMembers(members[1..]));
      SeparatedConcat([name, COLON] + value, [COMMA] + YieldMembers(members[1..]));
    }
  }

  lemma NameSeparated(name: Token)
    requires name.kind.ValueString?
    ensures Separated([name, COLON])
  {
  }

  // ---- The parser accepts the grammar -------------------------------------------------

  /** `json::parse` accepts exactly the texts of the grammar, and returns their value. There is
      no scanner in the right-hand side: the gaps and lexemes may lie anywhere. */
  lemma AcceptsTheGrammar(t: Bytes, v: Json)
    ensures ParseText(t) == Ok(v) <==> exists tree :: IsText(tree, t, v)
  {
    hide WellFormed, Yield, Meaning, ParseText, Lex, Spelled;
    ParsesTheGrammar(t, v);
    if tree :| IsDerivation(tree, t, v) {
      LexedIsSpelled(t, 0, Yield(tree));
      assert IsText(tree, t, v);
    }
    if tree :| IsText(tree, t, v) {
      YieldSeparated(tree);
      SpelledIsLexed(t, 0, Yield(tree));
      assert IsDerivation(tree, t, v);
    }
  }
}
