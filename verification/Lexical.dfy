/** The tokens of JSON text: what the scanner is to find, and the lexical grammar of sections
    2, 3, 6 and 7 of RFC 7159 that this is measured against. */
module Lexical {
  import opened ByteStrings
  import opened Decimals

  const QUOTE: byte := '"' as byte
  const BACKSLASH: byte := '\\' as byte
  const TRUE_TEXT: Bytes := ['t' as byte, 'r' as byte, 'u' as byte, 'e' as byte]
  const FALSE_TEXT: Bytes := ['f' as byte, 'a' as byte, 'l' as byte, 's' as byte, 'e' as byte]
  const NULL_TEXT: Bytes := ['n' as byte, 'u' as byte, 'l' as byte, 'l' as byte]

  datatype Kind =
    | LiteralTrue | LiteralFalse | LiteralNull
    | ValueString | ValueNumber
    | BeginArray | BeginObject | EndArray | EndObject
    | NameSeparator | ValueSeparator
    | ParseError | EndOfInput

  /** The text as the scanner sees it: NUL bytes follow the last byte. */
  function At(t: Bytes, i: nat): byte {
    if i < |t| then t[i] else 0
  }

  predicate Blank(b: byte) {
    b == 0x20 || b == 0x09 || b == 0x0A || b == 0x0D
  }

  predicate Mark(t: Bytes, i: nat) {
    At(t, i) == 0xEF && At(t, i + 1) == 0xBB && At(t, i + 2) == 0xBF
  }

  /** Behind white space and byte-order marks. */
  function SkipBlank(t: Bytes, i: nat): (j: nat)
    ensures i <= j && (i <= |t| ==> j <= |t|)
    ensures !Blank(At(t, j)) && !Mark(t, j)
    decreases |t| - i
  {
    if Blank(At(t, i)) then SkipBlank(t, i + 1)
    else if Mark(t, i) then SkipBlank(t, i + 3)
    else i
  }

  // ---- Numbers ----------------------------------------------------------------

  /** Behind all digits. */
  function DigitsEnd(t: Bytes, i: nat): (j: nat)
    ensures i <= j && (i <= |t| ==> j <= |t|)
    ensures !IsDigit(At(t, j))
    ensures forall k :: i <= k < j ==> IsDigit(At(t, k))
    decreases |t| - i
  {
    if IsDigit(At(t, i)) then DigitsEnd(t, i + 1) else i
  }

  /** Behind the integer part without a sign, or `i` if there is none. */
  function IntEnd(t: Bytes, i: nat): (j: nat)
    ensures i <= j && (i <= |t| ==> j <= |t|)
  {
    if At(t, i) == '0' as byte then i + 1 else DigitsEnd(t, i)
  }

  function FracEnd(t: Bytes, i: nat): (j: nat)
    ensures i <= j && (i <= |t| ==> j <= |t|)
  {
    if At(t, i) == '.' as byte && IsDigit(At(t, i + 1)) then DigitsEnd(t, i + 2) else i
  }

  predicate IsE(b: byte) {
    b == 'e' as byte || b == 'E' as byte
  }

  predicate IsSign(b: byte) {
    b == '+' as byte || b == '-' as byte
  }

  function ExpEnd(t: Bytes, i: nat): (j: nat)
    ensures i <= j && (i <= |t| ==> j <= |t|)
  {
    if !IsE(At(t, i)) then i
    else if IsDigit(At(t, i + 1)) then DigitsEnd(t, i + 2)
    else if IsSign(At(t, i + 1)) && IsDigit(At(t, i + 2)) then DigitsEnd(t, i + 3)
    else i
  }

  /** Behind the longest number at `i`, or `i` if there is none. */
  function NumberEnd(t: Bytes, i: nat): (j: nat)
    ensures i <= j && (i <= |t| ==> j <= |t|)
  {
    var a := if At(t, i) == '-' as byte then i + 1 else i;
    if IsDigit(At(t, a)) then ExpEnd(t, FracEnd(t, IntEnd(t, a))) else i
  }

  // ---- Strings ----------------------------------------------------------------

  predicate IsHex(b: byte) {
    IsDigit(b) || 'A' as byte <= b <= 'F' as byte || 'a' as byte <= b <= 'f' as byte
  }

  predicate SimpleEscape(b: byte) {
    b == QUOTE || b == BACKSLASH || b == '/' as byte || b == 'b' as byte || b == 'f' as byte
    || b == 'n' as byte || b == 'r' as byte || b == 't' as byte
  }

  /** Length of the string character at `i`: plain, escaped, or 0 if there is none. */
  function CharLength(t: Bytes, i: nat): nat {
    if At(t, i) < 0x20 || At(t, i) == QUOTE then 0
    else if At(t, i) != BACKSLASH then 1
    else if SimpleEscape(At(t, i + 1)) then 2
    else if At(t, i + 1) == 'u' as byte && IsHex(At(t, i + 2)) && IsHex(At(t, i + 3))
            && IsHex(At(t, i + 4)) && IsHex(At(t, i + 5)) then 6
    else 0
  }

  lemma CharInText(t: Bytes, i: nat)
    ensures i + CharLength(t, i) <= |t| || CharLength(t, i) == 0
  {
  }

  /** Behind the closing quote, where `i` is behind the opening one; 0 if there is none. */
  function StringEnd(t: Bytes, i: nat): (j: nat)
    ensures j == 0 || i < j <= |t|
    ensures j != 0 ==> At(t, j - 1) == QUOTE
    decreases |t| - i
  {
    CharInText(t, i);
    if At(t, i) == QUOTE then i + 1
    else if CharLength(t, i) == 0 then 0
    else StringEnd(t, i + CharLength(t, i))
  }

  // ---- Tokens -----------------------------------------------------------------

  predicate TextAt(t: Bytes, i: nat, s: Bytes) {
    i + |s| <= |t| && t[i..i + |s|] == s
  }

  /** The token at `i`, where no blank and no byte-order mark is, and the position behind it. */
  function TokenAt(t: Bytes, i: nat): (r: (Kind, nat))
    ensures i < r.1
    ensures i <= |t| && !r.0.EndOfInput? ==> r.1 <= |t|
  {
    var b := At(t, i);
    if b == 0 then (EndOfInput, i + 1)
    else if b == QUOTE then
      if StringEnd(t, i + 1) != 0 then (ValueString, StringEnd(t, i + 1)) else (ParseError, i + 1)
    else if b == ',' as byte then (ValueSeparator, i + 1)
    else if b == ':' as byte then (NameSeparator, i + 1)
    else if b == '[' as byte then (BeginArray, i + 1)
    else if b == ']' as byte then (EndArray, i + 1)
    else if b == '{' as byte then (BeginObject, i + 1)
    else if b == '}' as byte then (EndObject, i + 1)
    else if NumberEnd(t, i) != i then (ValueNumber, NumberEnd(t, i))
    else if TextAt(t, i, TRUE_TEXT) then (LiteralTrue, i + 4)
    else if TextAt(t, i, FALSE_TEXT) then (LiteralFalse, i + 5)
    else if TextAt(t, i, NULL_TEXT) then (LiteralNull, i + 4)
    else (ParseError, i + 1)
  }

  datatype Token = Token(kind: Kind, lexeme: Bytes)

  /** The tokens from position `i` on, up to the first that is not a lexeme. */
  function Lex(t: Bytes, i: nat): (r: seq<Token>)
    requires i <= |t|
    ensures r != []
    decreases |t| - i
  {
    var p := SkipBlank(t, i);
    var (kind, end) := TokenAt(t, p);
    if kind.EndOfInput? || kind.ParseError? then [Token(kind, [])]
    else [Token(kind, t[p..end])] + Lex(t, end)
  }

  // ---- Unfolding, one step at a time ------------------------------------------

  lemma SkipBlankStep(t: Bytes, i: nat)
    ensures SkipBlank(t, i) == if Blank(At(t, i)) then SkipBlank(t, i + 1)
                               else if Mark(t, i) then SkipBlank(t, i + 3) else i
  {
  }

  lemma DigitsEndStep(t: Bytes, i: nat)
    ensures DigitsEnd(t, i) == if IsDigit(At(t, i)) then DigitsEnd(t, i + 1) else i
  {
  }

  lemma StringEndStep(t: Bytes, i: nat)
    ensures StringEnd(t, i) == if At(t, i) == QUOTE then i + 1
                               else if CharLength(t, i) == 0 then 0
                               else StringEnd(t, i + CharLength(t, i))
  {
  }

  lemma StringToken(t: Bytes, p: nat)
    requires At(t, p) == QUOTE
    ensures TokenAt(t, p) == if StringEnd(t, p + 1) != 0 then (ValueString, StringEnd(t, p + 1)) else (ParseError, p + 1)
  {
    hide StringEnd;
  }

  lemma NotAWord(t: Bytes, p: nat)
    requires At(t, p) != 't' as byte && At(t, p) != 'f' as byte && At(t, p) != 'n' as byte
    ensures !TextAt(t, p, TRUE_TEXT) && !TextAt(t, p, FALSE_TEXT) && !TextAt(t, p, NULL_TEXT)
  {
    if p + 4 <= |t| { assert t[p..p + 4][0] == t[p]; }
    if p + 5 <= |t| { assert t[p..p + 5][0] == t[p]; }
  }

  lemma NumberToken(t: Bytes, p: nat)
    requires At(t, p) == '-' as byte || IsDigit(At(t, p))
    ensures var a := if At(t, p) == '-' as byte then p + 1 else p;
            TokenAt(t, p) == if IsDigit(At(t, a)) then (ValueNumber, ExpEnd(t, FracEnd(t, IntEnd(t, a)))) else (ParseError, p + 1)
  {
    hide StringEnd, DigitsEnd, TextAt;
    NotAWord(t, p);
    var a := if At(t, p) == '-' as byte then p + 1 else p;
    if IsDigit(At(t, a)) { IntStart(t, a); }
  }

  lemma IntStart(t: Bytes, i: nat)
    requires IsDigit(At(t, i))
    ensures i < IntEnd(t, i)
  {
  }

  lemma NoNumber(t: Bytes, i: nat)
    ensures !IsDigit(At(t, i)) && At(t, i) != '-' as byte ==> NumberEnd(t, i) == i
  {
  }

  function WordKind(word: Bytes): Kind {
    if word == TRUE_TEXT then LiteralTrue else if word == FALSE_TEXT then LiteralFalse else LiteralNull
  }

  lemma WordToken(t: Bytes, p: nat, word: Bytes)
    requires word in {TRUE_TEXT, FALSE_TEXT, NULL_TEXT} && At(t, p) == word[0]
    ensures TokenAt(t, p) == if TextAt(t, p, word) then (WordKind(word), p + |word|) else (ParseError, p + 1)
  {
    hide StringEnd;
    NoNumber(t, p);
    hide NumberEnd;
    if p + 4 <= |t| { assert t[p..p + 4][0] == t[p]; }
    if p + 5 <= |t| { assert t[p..p + 5][0] == t[p]; }
  }

  lemma OtherToken(t: Bytes, p: nat)
    requires At(t, p) != QUOTE && At(t, p) != '-' as byte && !IsDigit(At(t, p))
    requires At(t, p) != 't' as byte && At(t, p) != 'f' as byte && At(t, p) != 'n' as byte
    ensures TokenAt(t, p) == (SingleKind(At(t, p)), p + 1)
  {
    NoNumber(t, p);
    NotAWord(t, p);
    hide StringEnd, NumberEnd, TextAt;
  }

  /** The token that one byte makes, if it is none of those above. */
  function SingleKind(b: byte): Kind {
    if b == 0 then EndOfInput
    else if b == ',' as byte then ValueSeparator
    else if b == ':' as byte then NameSeparator
    else if b == '[' as byte then BeginArray
    else if b == ']' as byte then EndArray
    else if b == '{' as byte then BeginObject
    else if b == '}' as byte then EndObject
    else ParseError
  }

  // ---- The grammar ------------------------------------------------------------

  predicate IsDigits(s: Bytes) {
    s != [] && AllDigits(s)
  }

  /** int = zero / ( digit1-9 *DIGIT ) */
  predicate IsInt(s: Bytes) {
    IsDigits(s) && (s[0] == '0' as byte ==> |s| == 1)
  }

  /** [ frac ] */
  predicate IsOptFrac(s: Bytes) {
    s == [] || (s[0] == '.' as byte && IsDigits(s[1..]))
  }

  /** [ exp ] */
  predicate IsOptExp(s: Bytes) {
    s == [] || (IsE(s[0]) && (IsDigits(s[1..]) || (|s| > 1 && IsSign(s[1]) && IsDigits(s[2..]))))
  }

  /** number = [ minus ] int [ frac ] [ exp ] */
  ghost predicate IsNumber(s: Bytes) {
    exists a: nat, b: nat, c: nat :: IsNumberSplit(s, a, b, c)
  }

  predicate IsNumberSplit(s: Bytes, a: nat, b: nat, c: nat) {
    && a <= b <= c <= |s|
    && (a == 0 || (a == 1 && s[0] == '-' as byte))
    && IsInt(s[a..b]) && IsOptFrac(s[b..c]) && IsOptExp(s[c..])
  }

  /** unescaped, bytewise */
  predicate IsUnescaped(b: byte) {
    b >= 0x20 && b != QUOTE && b != BACKSLASH
  }

  /** The short escapes of section 7: the letter behind the backslash, and the byte meant. */
  const ESCAPES: map<byte, byte> := map[
    '"' as byte := 0x22, '\\' as byte := 0x5C, '/' as byte := 0x2F, 'b' as byte := 0x08,
    'f' as byte := 0x0C, 'n' as byte := 0x0A, 'r' as byte := 0x0D, 't' as byte := 0x09]

  /** HEXDIG in either case, and its value. */
  predicate HexDigitOf(b: byte, d: nat) {
    || (d < 10 && b as nat == 0x30 + d)
    || (10 <= d < 16 && (b as nat == 0x41 + d - 10 || b as nat == 0x61 + d - 10))
  }

  ghost predicate IsHexDigit(b: byte) {
    exists d: nat :: HexDigitOf(b, d)
  }

  /** *char */
  ghost predicate IsChars(s: Bytes)
    decreases |s|
  {
    || s == []
    || (IsUnescaped(s[0]) && IsChars(s[1..]))
    || (|s| >= 2 && s[0] == BACKSLASH && s[1] in ESCAPES && IsChars(s[2..]))
    || (|s| >= 6 && s[0] == BACKSLASH && s[1] == 'u' as byte
        && IsHexDigit(s[2]) && IsHexDigit(s[3]) && IsHexDigit(s[4]) && IsHexDigit(s[5]) && IsChars(s[6..]))
  }

  /** string = quotation-mark *char quotation-mark */
  ghost predicate IsString(s: Bytes) {
    |s| >= 2 && s[0] == QUOTE && s[|s|-1] == QUOTE && IsChars(s[1..|s|-1])
  }

  /** The lexemes of each kind of token. */
  ghost predicate IsLexeme(kind: Kind, s: Bytes) {
    match kind
    case LiteralTrue => s == TRUE_TEXT
    case LiteralFalse => s == FALSE_TEXT
    case LiteralNull => s == NULL_TEXT
    case ValueString => IsString(s)
    case ValueNumber => IsNumber(s)
    case BeginArray => s == ['[' as byte]
    case BeginObject => s == ['{' as byte]
    case EndArray => s == [']' as byte]
    case EndObject => s == ['}' as byte]
    case NameSeparator => s == [':' as byte]
    case ValueSeparator => s == [',' as byte]
    case ParseError => false
    case EndOfInput => false
  }

  // ---- Maximal munch ----------------------------------------------------------

  lemma AtInSlice(t: Bytes, i: nat, n: nat)
    requires i <= n <= |t|
    ensures forall k :: 0 <= k < n - i ==> t[i..n][k] == At(t, i + k)
    ensures forall k :: i <= k < n ==> t[i..n][k - i] == At(t, k)
  {
  }

  lemma SubSlice(t: Bytes, i: nat, n: nat, a: nat, b: nat)
    requires i <= n <= |t| && a <= b <= n - i
    ensures t[i..n][a..b] == t[i + a..i + b]
  {
    var x, y := t[i..n][a..b], t[i + a..i + b];
    forall k | 0 <= k < |x| ensures x[k] == y[k] {
      assert x[k] == t[i..n][a + k] == t[i + a + k];
    }
  }

  lemma {:induction false} DigitsEndLongest(t: Bytes, i: nat, n: nat)
    requires i <= n && forall k :: i <= k < n ==> IsDigit(At(t, k))
    ensures n <= DigitsEnd(t, i)
    decreases |t| - i
  {
    if i < n {
      assert IsDigit(At(t, i));
      DigitsEndLongest(t, i + 1, n);
    }
  }

  /** A run of digits as a slice. */
  lemma DigitsSlice(t: Bytes, i: nat, j: nat)
    requires i <= j <= |t|
    ensures AllDigits(t[i..j]) <==> forall k :: i <= k < j ==> IsDigit(At(t, k))
  {
    AtInSlice(t, i, j);
  }

  lemma IntIsLexeme(t: Bytes, i: nat)
    requires IsDigit(At(t, i))
    ensures i < IntEnd(t, i) <= |t| && IsInt(t[i..IntEnd(t, i)])
  {
    var j := IntEnd(t, i);
    DigitsSlice(t, i, j);
    AtInSlice(t, i, j);
  }

  lemma FracIsLexeme(t: Bytes, i: nat)
    requires i <= |t|
    ensures FracEnd(t, i) <= |t| && IsOptFrac(t[i..FracEnd(t, i)])
  {
    var j := FracEnd(t, i);
    if i < j {
      DigitsSlice(t, i + 1, j);
      AtInSlice(t, i, j);
      assert t[i..j][1..] == t[i + 1..j];
    }
  }

  lemma ExpIsLexeme(t: Bytes, i: nat)
    requires i <= |t|
    ensures ExpEnd(t, i) <= |t| && IsOptExp(t[i..ExpEnd(t, i)])
  {
    var j := ExpEnd(t, i);
    if i < j {
      var d := if IsDigit(At(t, i + 1)) then i + 1 else i + 2;
      DigitsSlice(t, d, j);
      AtInSlice(t, i, j);
      assert t[i..j][d - i..] == t[d..j];
    }
  }

  lemma NumberIsLexeme(t: Bytes, i: nat)
    requires i <= |t| && NumberEnd(t, i) != i
    ensures NumberEnd(t, i) <= |t| && IsNumber(t[i..NumberEnd(t, i)])
  {
    hide DigitsEnd, IntEnd, FracEnd, ExpEnd, IsInt, IsOptFrac, IsOptExp;
    var a := if At(t, i) == '-' as byte then i + 1 else i;
    var b := IntEnd(t, a);
    var c := FracEnd(t, b);
    var n := NumberEnd(t, i);
    IntIsLexeme(t, a);
    FracIsLexeme(t, b);
    ExpIsLexeme(t, c);
    var s := t[i..n];
    SubSlice(t, i, n, a - i, b - i);
    SubSlice(t, i, n, b - i, c - i);
    SubSlice(t, i, n, c - i, n - i);
    assert IsNumberSplit(s, a - i, b - i, c - i);
  }

  lemma IntLongest(t: Bytes, i: nat, j: nat)
    requires i <= j <= |t| && IsInt(t[i..j])
    ensures IsDigit(At(t, i)) && j <= IntEnd(t, i)
    ensures j < IntEnd(t, i) ==> IsDigit(At(t, j))
  {
    DigitsSlice(t, i, j);
    AtInSlice(t, i, j);
    DigitsEndLongest(t, i, j);
  }

  lemma FracLongest(t: Bytes, i: nat, j: nat)
    requires i < j <= |t| && IsOptFrac(t[i..j])
    ensures At(t, i) == '.' as byte && j <= FracEnd(t, i)
    ensures j < FracEnd(t, i) ==> IsDigit(At(t, j))
  {
    assert t[i..j][1..] == t[i + 1..j];
    DigitsSlice(t, i + 1, j);
    AtInSlice(t, i, j);
    DigitsEndLongest(t, i + 2, j);
  }

  lemma ExpLongest(t: Bytes, i: nat, j: nat)
    requires i < j <= |t| && IsOptExp(t[i..j])
    ensures IsE(At(t, i)) && j <= ExpEnd(t, i)
  {
    AtInSlice(t, i, j);
    var d := if IsDigits(t[i..j][1..]) then i + 1 else i + 2;
    assert t[i..j][d - i..] == t[d..j];
    DigitsSlice(t, d, j);
    assert IsDigit(At(t, d));
    DigitsEndLongest(t, d + 1, j);
  }

  lemma FracStart(t: Bytes, i: nat)
    ensures i < FracEnd(t, i) ==> At(t, i) == '.' as byte
  {
  }

  lemma NumberLongest(t: Bytes, i: nat, n: nat)
    requires i <= n <= |t| && IsNumber(t[i..n])
    ensures n <= NumberEnd(t, i) && i < NumberEnd(t, i)
  {
    hide DigitsEnd, IntEnd, FracEnd, ExpEnd, IsInt, IsOptFrac, IsOptExp;
    var s := t[i..n];
    var a': nat, b': nat, c': nat :| IsNumberSplit(s, a', b', c');
    SubSlice(t, i, n, a', b');
    SubSlice(t, i, n, b', c');
    SubSlice(t, i, n, c', n - i);
    NumberPartsLongest(t, i + a', i + b', i + c', n);
    AtInSlice(t, i, n);
  }

  lemma NumberPartsLongest(t: Bytes, a: nat, b: nat, c: nat, n: nat)
    requires a <= b <= c <= n <= |t|
    requires IsInt(t[a..b]) && IsOptFrac(t[b..c]) && IsOptExp(t[c..n])
    ensures IsDigit(At(t, a)) && a < IntEnd(t, a) && n <= ExpEnd(t, FracEnd(t, IntEnd(t, a)))
  {
    hide DigitsEnd, IntEnd, FracEnd, ExpEnd, IsInt, IsOptFrac, IsOptExp;
    IntLongest(t, a, b);
    IntStart(t, a);
    FracStart(t, b);
    if b < c { FracLongest(t, b, c); }
    if c < n { ExpLongest(t, c, n); }
  }

  lemma HexIsHexDigit(b: byte)
    ensures IsHex(b) <==> IsHexDigit(b)
  {
    if IsHex(b) {
      var d: nat := if IsDigit(b) then b as nat - 0x30 else if b <= 'F' as byte then b as nat - 0x37 else b as nat - 0x57;
      assert HexDigitOf(b, d);
    }
  }

  lemma SimpleIsEscape(b: byte)
    ensures SimpleEscape(b) <==> b in ESCAPES
  {
  }

  /** `CharLength` finds the characters of the grammar. */
  lemma CharsStep(s: Bytes)
    ensures IsChars(s) <==>
            s == [] || (CharLength(s, 0) != 0 && CharLength(s, 0) <= |s| && IsChars(s[CharLength(s, 0)..]))
  {
    hide IsHexDigit, IsHex, SimpleEscape;
    if s != [] {
      CharInText(s, 0);
      if |s| >= 2 { SimpleIsEscape(s[1]); SimpleIsEscape('u' as byte); }
      NoHex();
      if |s| >= 6 {
        HexIsHexDigit(s[2]);
        HexIsHexDigit(s[3]);
        HexIsHexDigit(s[4]);
        HexIsHexDigit(s[5]);
      }
    }
  }

  lemma NoHex()
    ensures !IsHex(0) && !SimpleEscape(0) && !SimpleEscape('u' as byte)
  {
  }

  lemma CharInSlice(t: Bytes, k: nat, n: nat)
    requires k <= n <= |t|
    ensures k + CharLength(t, k) <= n ==> CharLength(t[k..n], 0) == CharLength(t, k)
    ensures CharLength(t[k..n], 0) != 0 ==> CharLength(t[k..n], 0) == CharLength(t, k)
  {
    AtInSlice(t, k, n);
    CharInText(t[k..n], 0);
  }

  lemma {:induction false} CharsBeforeEnd(t: Bytes, k: nat)
    requires StringEnd(t, k) != 0
    ensures IsChars(t[k..StringEnd(t, k) - 1])
    decreases |t| - k
  {
    var n := StringEnd(t, k) - 1;
    if At(t, k) != QUOTE {
      var next := k + CharLength(t, k);
      CharInText(t, k);
      CharsBeforeEnd(t, next);
      CharInSlice(t, k, n);
      CharsStep(t[k..n]);
      assert t[k..n][next - k..] == t[next..n];
    }
  }

  lemma {:induction false} EndBehindChars(t: Bytes, k: nat, n: nat)
    requires k <= n < |t| && t[n] == QUOTE && IsChars(t[k..n])
    ensures StringEnd(t, k) == n + 1
    decreases n - k
  {
    if k < n {
      var s := t[k..n];
      var l := CharLength(s, 0);
      CharInText(s, 0);
      CharsStep(s);
      CharInSlice(t, k, n);
      assert s[l..] == t[k + l..n];
      EndBehindChars(t, k + l, n);
    }
  }

  lemma StringIsLexeme(t: Bytes, i: nat)
    requires At(t, i) == QUOTE && StringEnd(t, i + 1) != 0
    ensures IsString(t[i..StringEnd(t, i + 1)])
  {
    var j := StringEnd(t, i + 1);
    CharsBeforeEnd(t, i + 1);
    AtInSlice(t, i, j);
    assert t[i..j][1..j - i - 1] == t[i + 1..j - 1];
  }

  lemma StringUnique(t: Bytes, i: nat, n: nat)
    requires i <= n <= |t| && IsString(t[i..n])
    ensures At(t, i) == QUOTE && StringEnd(t, i + 1) == n
  {
    AtInSlice(t, i, n);
    assert t[i..n][1..n - i - 1] == t[i + 1..n - 1];
    EndBehindChars(t, i + 1, n - 1);
  }

  /** The first byte of a lexeme decides its kind, up to the three kinds of word. */
  lemma FirstByte(kind: Kind, s: Bytes)
    requires IsLexeme(kind, s)
    ensures s != [] && s[0] != 0 && !Blank(s[0]) && s[0] != 0xEF
    ensures kind.ValueString? <==> s[0] == QUOTE
    ensures kind.ValueNumber? <==> IsDigit(s[0]) || s[0] == '-' as byte
    ensures kind.LiteralTrue? <==> s[0] == 't' as byte
    ensures kind.LiteralFalse? <==> s[0] == 'f' as byte
    ensures kind.LiteralNull? <==> s[0] == 'n' as byte
    ensures kind.BeginArray? <==> s[0] == '[' as byte
    ensures kind.EndArray? <==> s[0] == ']' as byte
    ensures kind.BeginObject? <==> s[0] == '{' as byte
    ensures kind.EndObject? <==> s[0] == '}' as byte
    ensures kind.NameSeparator? <==> s[0] == ':' as byte
    ensures kind.ValueSeparator? <==> s[0] == ',' as byte
  {
    if kind.ValueNumber? {
      var a: nat, b: nat, c: nat :| IsNumberSplit(s, a, b, c);
      assert IsDigit(s[a..b][0]);
    }
  }

  /** What `TokenAt` finds is a lexeme. */
  lemma TokenIsLexeme(t: Bytes, i: nat)
    requires i <= |t|
    ensures var (kind, end) := TokenAt(t, i);
            kind.ParseError? || kind.EndOfInput? || IsLexeme(kind, t[i..end])
  {
    var (kind, end) := TokenAt(t, i);
    if kind.ValueString? {
      StringIsLexeme(t, i);
    } else if kind.ValueNumber? {
      NumberIsLexeme(t, i);
    }
  }

  /** Every lexeme at `i` is of the kind that `TokenAt` finds, and not longer. */
  lemma NoLongerLexeme(t: Bytes, i: nat, kind: Kind, n: nat)
    requires i <= n <= |t| && IsLexeme(kind, t[i..n])
    ensures TokenAt(t, i).0 == kind && n <= TokenAt(t, i).1
  {
    FirstByte(kind, t[i..n]);
    AtInSlice(t, i, n);
    hide StringEnd, NumberEnd, IsString, IsNumber, DigitsEnd;
    if kind.ValueString? {
      StringUnique(t, i, n);
    } else if kind.ValueNumber? {
      NumberLongest(t, i, n);
    } else {
      NoNumber(t, i);
    }
  }

  /** A lexeme of kind `kind` stands between `i` and `n`. */
  ghost predicate LexemeAt(t: Bytes, i: nat, kind: Kind, n: nat) {
    i <= n <= |t| && IsLexeme(kind, t[i..n])
  }

  /** `TokenAt` is maximal munch: the longest lexeme that starts at `i`, of the only kind there
      is, or a parse error of one byte if none does. */
  lemma MaximalMunch(t: Bytes, i: nat)
    requires i <= |t|
    ensures var (kind, end) := TokenAt(t, i);
            && (kind.EndOfInput? <==> At(t, i) == 0)
            && (kind.EndOfInput? || kind.ParseError? <==> forall k, n: nat :: !LexemeAt(t, i, k, n))
            && (kind.ParseError? ==> end == i + 1)
            && (!kind.EndOfInput? && !kind.ParseError? ==>
                  && LexemeAt(t, i, kind, end)
                  && forall k, n: nat :: LexemeAt(t, i, k, n) ==> k == kind && n <= end)
  {
    hide IsLexeme, NumberEnd, StringEnd;
    var (kind, end) := TokenAt(t, i);
    TokenIsLexeme(t, i);
    assert kind.EndOfInput? || kind.ParseError? || LexemeAt(t, i, kind, end);
    forall k, n: nat | LexemeAt(t, i, k, n)
      ensures k == kind && n <= end && !k.EndOfInput? && !k.ParseError?
    {
      NoLongerLexeme(t, i, k, n);
      NotALexeme(k, t[i..n]);
    }
  }

  lemma NotALexeme(kind: Kind, s: Bytes)
    requires IsLexeme(kind, s)
    ensures !kind.EndOfInput? && !kind.ParseError?
  {
  }
}
