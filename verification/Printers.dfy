/** The printer, and the round trip of the whole engine: what `dump` prints, `parse` reads back. */
module Printers {
  import opened ByteStrings
  import opened Decimals
  import opened Lexical
  import opened Numbers
  import opened Parsers
  import opened Results
  import opened Strings
  import opened Values

  // ---- Printing ---------------------------------------------------------------

  const TWO32: nat := 0x1_0000_0000

  /** `pretty_print` and `indent_step`. */
  datatype Layout = Layout(pretty: bool, step: nat)

  /** `new_indent += indent_step`, in 32 bits. */
  function Deeper(l: Layout, indent: nat): nat {
    if l.pretty then (indent + l.step) % TWO32 else indent
  }

  /** `new_indent -= indent_step`, in 32 bits. */
  function Shallower(l: Layout, indent: nat): nat {
    if l.pretty then (indent + TWO32 - l.step % TWO32) % TWO32 else indent
  }

  function Spaces(n: nat): Bytes {
    seq(n, _ => ' ' as byte)
  }

  function Break(l: Layout): Bytes {
    if l.pretty then [0x0A] else []
  }

  function Closing(l: Layout, indent: nat, bracket: byte): Bytes {
    Break(l) + Spaces(Shallower(l, indent)) + [bracket]
  }

  /** The recursive `dump`. */
  function Dump(j: Json, l: Layout, indent: nat): Bytes
    decreases j, 1
  {
    match j
    case Null => NULL_TEXT
    case Bool(b) => if b then TRUE_TEXT else FALSE_TEXT
    case Int(i) => PrintInteger(i as int)
    case UInt(u) => PrintInteger(u as int)
    case Str(s) => Quoted(s)
    case Arr(elems) =>
      if elems == [] then ['[' as byte, ']' as byte]
      else ['[' as byte] + Break(l) + DumpElements(elems, l, Deeper(l, indent))
    case Obj(members) =>
      if members.Keys == {} then ['{' as byte, '}' as byte]
      else ['{' as byte] + Break(l) + DumpMembers(j, SortedKeys(members.Keys), l, Deeper(l, indent))
  }

  /** The rest of the loop over an array, and the closing bracket. */
  function DumpElements(elems: seq<Json>, l: Layout, indent: nat): Bytes
    requires elems != []
    decreases elems, 0
  {
    Spaces(indent) + Dump(elems[0], l, indent)
    + (if |elems| == 1 then Closing(l, indent, ']' as byte)
       else [',' as byte] + Break(l) + DumpElements(elems[1..], l, indent))
  }

  /** The rest of the loop over an object, and the closing brace. */
  function DumpMembers(j: Json, keys: seq<Bytes>, l: Layout, indent: nat): Bytes
    requires j.Obj? && keys != [] && forall k :: k in keys ==> k in j.members
    decreases j, 0, |keys|
  {
    assert keys[0] in keys;
    Spaces(indent) + Quoted(keys[0]) + [':' as byte] + Gap(l) + Dump(j.members[keys[0]], l, indent)
    + (if |keys| == 1 then Closing(l, indent, '}' as byte)
       else [',' as byte] + Break(l) + DumpMembers(j, keys[1..], l, indent))
  }

  function Gap(l: Layout): Bytes {
    if l.pretty then [' ' as byte] else []
  }

  lemma ObjectText(j: Json, l: Layout, indent: nat)
    requires j.Obj? && j.members.Keys != {}
    ensures Dump(j, l, indent) ==
            ['{' as byte] + Break(l) + DumpMembers(j, SortedKeys(j.members.Keys), l, Deeper(l, indent))
  {
    hide DumpMembers;
  }

  /** The public `dump`: pretty for a non-negative indent, compact otherwise. */
  function DumpText(j: Json, indent: int): Bytes {
    if indent >= 0 then Dump(j, Layout(true, indent), 0) else Dump(j, Layout(false, 0), 0)
  }

  // ---- The derivation of what is printed ----------------------------------------

  function TreeOf(j: Json): Tree
    decreases j, 1
  {
    match j
    case Null => Word(LiteralNull)
    case Bool(b) => Word(if b then LiteralTrue else LiteralFalse)
    case Int(i) => Number(PrintInteger(i as int))
    case UInt(u) => Number(PrintInteger(u as int))
    case Str(s) => Text(Quoted(s))
    case Arr(elems) => List(TreesOf(elems))
    case Obj(members) => Table(MembersOf(j, SortedKeys(members.Keys)))
  }

  function TreesOf(elems: seq<Json>): (r: seq<Tree>)
    ensures |r| == |elems|
    decreases elems, 0
  {
    if elems == [] then [] else [TreeOf(elems[0])] + TreesOf(elems[1..])
  }

  function MembersOf(j: Json, keys: seq<Bytes>): (r: seq<Member>)
    requires j.Obj? && forall k :: k in keys ==> k in j.members
    ensures |r| == |keys|
    decreases j, 0, |keys|
  {
    if keys == [] then [] else
    assert keys[0] in keys;
    [Member(Quoted(keys[0]), TreeOf(j.members[keys[0]]))] + MembersOf(j, keys[1..])
  }

  /** The value as it comes back: integers that are not negative have become unsigned. */
  function Canon(j: Json): Json
    decreases j, 1
  {
    match j
    case Int(i) => if i >= 0 then UInt(i as uint64) else j
    case Arr(elems) => Arr(CanonAll(elems))
    case Obj(members) => Obj(map k | k in members.Keys :: Canon(members[k]))
    case _ => j
  }

  function CanonAll(elems: seq<Json>): (r: seq<Json>)
    ensures |r| == |elems| && forall i :: 0 <= i < |r| ==> r[i] == Canon(elems[i])
    decreases elems, 0
  {
    if elems == [] then [] else [Canon(elems[0])] + CanonAll(elems[1..])
  }

  lemma {:induction false} CanonIsEqual(j: Json)
    ensures Eq(Canon(j), j)
  {
    match j
    case Arr(elems) =>
      forall i | 0 <= i < |elems| ensures Eq(Canon(elems[i]), elems[i]) { CanonIsEqual(elems[i]); }
    case Obj(members) =>
      forall k | k in members.Keys ensures Eq(Canon(members[k]), members[k]) { CanonIsEqual(members[k]); }
    case _ =>
  }

  lemma {:induction false} TreeIsWellFormed(j: Json)
    ensures WellFormed(TreeOf(j))
    decreases j, 1
  {
    hide IsString, IsNumber, PrintInteger, Quoted;
    match j
    case Int(i) => PrintedIsNumber(i as int);
    case UInt(u) => PrintedIsNumber(u as int);
    case Str(s) => QuotedRoundTrip(s);
    case Arr(elems) => TreesAreWellFormed(elems);
    case Obj(members) =>
      var keys := SortedKeys(members.Keys);
      MembersAreWellFormed(j, keys);
      assert TreeOf(j) == Table(MembersOf(j, keys));
    case _ =>
  }

  lemma {:induction false} TreesAreWellFormed(elems: seq<Json>)
    ensures forall i :: 0 <= i < |elems| ==> WellFormed(TreesOf(elems)[i])
    decreases elems, 0
  {
    hide WellFormed, TreeOf;
    if elems != [] {
      TreeIsWellFormed(elems[0]);
      TreesAreWellFormed(elems[1..]);
    }
  }

  lemma {:induction false} MembersAreWellFormed(j: Json, keys: seq<Bytes>)
    requires j.Obj? && forall k :: k in keys ==> k in j.members
    ensures var ms := MembersOf(j, keys);
            forall i :: 0 <= i < |ms| ==> IsString(ms[i].key) && WellFormed(ms[i].value)
    decreases j, 0, |keys|
  {
    hide WellFormed, TreeOf, MembersOf, IsString, Quoted, StringValue;
    if keys != [] {
      MembersStep(j, keys);
      QuotedRoundTrip(keys[0]);
      TreeIsWellFormed(j.members[keys[0]]);
      MembersAreWellFormed(j, keys[1..]);
      forall i | 0 < i < |keys| ensures MembersOf(j, keys)[i] == MembersOf(j, keys[1..])[i - 1] {
        assert MembersOf(j, keys)[1..][i - 1] == MembersOf(j, keys)[i];
      }
    }
  }

  // ---- Its meaning ---------------------------------------------------------------

  lemma LeafMeaning(j: Json)
    requires j.Primitive()
    ensures Meaning(TreeOf(j)) == Ok(Canon(j))
  {
    hide PrintInteger, Quoted, StringValue, NumberValue, Eq, IsString;
    match j
    case Int(_) => PrintedRoundTrip(j);
    case UInt(_) => PrintedRoundTrip(j);
    case Str(s) => QuotedRoundTrip(s);
    case _ =>
  }

  lemma {:induction false} TreeMeaning(j: Json)
    ensures Meaning(TreeOf(j)) == Ok(Canon(j))
    decreases j, 1
  {
    match j
    case Arr(elems) => ListMeaning(elems);
    case Obj(members) => TableMeaning(j);
    case _ => LeafMeaning(j);
  }

  lemma {:induction false} ListMeaning(elems: seq<Json>)
    ensures Meaning(TreeOf(Arr(elems))) == Ok(Canon(Arr(elems)))
    decreases elems, 1
  {
    hide ItemsMeaning, TreesOf, CanonAll;
    TreesMeaning(elems, []);
    assert [] + CanonAll(elems) == CanonAll(elems);
  }

  lemma {:induction false} TableMeaning(j: Json)
    requires j.Obj?
    ensures Meaning(TreeOf(j)) == Ok(Canon(j))
    decreases j, 0
  {
    hide MembersMeaning, MembersOf, SortedKeys;
    var keys := SortedKeys(j.members.Keys);
    MembersMean(j, keys, map[]);
    AllMembersCanon(j);
  }

  lemma AllMembersCanon(j: Json)
    requires j.Obj?
    ensures Obj(map[] + CanonMembers(j, SortedKeys(j.members.Keys))) == Canon(j)
  {
    hide SortedKeys;
    assert map[] + CanonMembers(j, SortedKeys(j.members.Keys)) == Canon(j).members;
  }

  lemma {:induction false} TreesMeaning(elems: seq<Json>, result: seq<Json>)
    ensures ItemsMeaning(TreesOf(elems), result) == Ok(Arr(result + CanonAll(elems)))
    decreases elems, 0
  {
    hide ItemsMeaning, Meaning, TreeOf, TreesOf, Canon, CanonAll;
    if elems == [] {
      assert TreesOf(elems) == [] && result + CanonAll(elems) == result;
      ItemsMeaningEnd(result);
    } else {
      TreesMeaning(elems[1..], result + [Canon(elems[0])]);
      TreeMeaning(elems[0]);
      TreesStep(elems);
      ItemsMeaningStep(TreesOf(elems), result);
      assert result + [Canon(elems[0])] + CanonAll(elems[1..]) == result + CanonAll(elems);
    }
  }

  lemma TreesStep(elems: seq<Json>)
    requires elems != []
    ensures TreesOf(elems)[0] == TreeOf(elems[0]) && TreesOf(elems)[1..] == TreesOf(elems[1..])
    ensures CanonAll(elems) == [Canon(elems[0])] + CanonAll(elems[1..])
  {
    hide TreeOf, Canon;
  }

  lemma ItemsMeaningEnd(result: seq<Json>)
    ensures ItemsMeaning([], result) == Ok(Arr(result))
  {
  }

  lemma ItemsMeaningStep(items: seq<Tree>, result: seq<Json>)
    requires items != [] && Meaning(items[0]).Ok?
    ensures ItemsMeaning(items, result) == ItemsMeaning(items[1..], result + [Meaning(items[0]).value])
  {
    hide Meaning;
  }

  ghost function CanonMembers(j: Json, keys: seq<Bytes>): map<Bytes, Json>
    requires j.Obj? && forall k :: k in keys ==> k in j.members
  {
    map k | k in keys :: Canon(j.members[k])
  }

  lemma {:induction false} MembersMean(j: Json, keys: seq<Bytes>, result: map<Bytes, Json>)
    requires j.Obj? && forall k :: k in keys ==> k in j.members
    ensures MembersMeaning(MembersOf(j, keys), result) == Ok(Obj(result + CanonMembers(j, keys)))
    decreases j, 0, |keys|
  {
    hide Meaning, MembersMeaning, MembersOf, TreeOf, Canon, StringValue, Quoted, IsString;
    if keys == [] {
      assert result + CanonMembers(j, keys) == result;
      assert MembersOf(j, keys) == [];
      MembersMeaningEnd(result);
    } else {
      MembersStep(j, keys);
      var v := Canon(j.members[keys[0]]);
      TreeMeaning(j.members[keys[0]]);
      QuotedRoundTrip(keys[0]);
      MembersMean(j, keys[1..], result[keys[0] := v]);
      MembersMeaningStep(MembersOf(j, keys), result);
      CanonMembersStep(j, keys, result);
    }
  }

  lemma CanonMembersStep(j: Json, keys: seq<Bytes>, result: map<Bytes, Json>)
    requires j.Obj? && keys != [] && forall k :: k in keys ==> k in j.members
    ensures keys[0] in keys
    ensures result[keys[0] := Canon(j.members[keys[0]])] + CanonMembers(j, keys[1..]) == result + CanonMembers(j, keys)
  {
    hide Canon;
    assert keys == [keys[0]] + keys[1..];
  }

  lemma MembersMeaningEnd(result: map<Bytes, Json>)
    ensures MembersMeaning([], result) == Ok(Obj(result))
  {
  }

  lemma MembersMeaningStep(members: seq<Member>, result: map<Bytes, Json>)
    requires members != [] && StringValue(members[0].key).Ok? && Meaning(members[0].value).Ok?
    ensures MembersMeaning(members, result) ==
            MembersMeaning(members[1..], result[StringValue(members[0].key).value := Meaning(members[0].value).value])
  {
    hide Meaning, StringValue;
  }

  // ---- Scanning what was printed --------------------------------------------------

  predicate AllBlank(s: Bytes) {
    forall i :: 0 <= i < |s| ==> Blank(s[i])
  }

  /** Not a byte that could make a number longer. */
  predicate EndsNumber(b: byte) {
    !IsDigit(b) && b != '.' as byte && !IsE(b)
  }

  lemma LexFromToken(t: Bytes, p: nat)
    requires p <= |t|
    ensures Lex(t, p) ==
            var q := SkipBlank(t, p);
            var (kind, end) := TokenAt(t, q);
            if Last(kind) then [Token(kind, [])] else [Token(kind, t[q..end])] + Lex(t, end)
  {
    hide TokenAt, SkipBlank;
  }

  lemma {:induction false} LexBlanks(t: Bytes, p: nat, s: Bytes)
    requires TextAt(t, p, s) && AllBlank(s)
    ensures SkipBlank(t, p) == SkipBlank(t, p + |s|)
    decreases |s|
  {
    hide SkipBlank;
    if s != [] {
      TextAtSplit(t, p, [s[0]], s[1..]);
      assert [s[0]] + s[1..] == s;
      assert At(t, p + 0) == s[0];
      SkipBlankStep(t, p);
      LexBlanks(t, p + 1, s[1..]);
    }
  }

  lemma LexBlank(t: Bytes, p: nat, s: Bytes)
    requires TextAt(t, p, s) && AllBlank(s)
    ensures Lex(t, p) == Lex(t, p + |s|)
  {
    hide Lex, SkipBlank, TokenAt;
    LexBlanks(t, p, s);
    LexFromToken(t, p);
    LexFromToken(t, p + |s|);
  }

  /** A lexeme at `p` that the scanner does not find longer is the next token. */
  lemma LexLexeme(t: Bytes, p: nat, kind: Kind, s: Bytes)
    requires TextAt(t, p, s) && IsLexeme(kind, s) && TokenAt(t, p).1 == p + |s|
    ensures Lex(t, p) == [Token(kind, s)] + Lex(t, p + |s|)
  {
    hide Lex, TokenAt, IsLexeme, SkipBlank;
    NoLongerLexeme(t, p, kind, p + |s|);
    FirstByte(kind, s);
    NotALexeme(kind, s);
    AtInSlice(t, p, p + |s|);
    assert At(t, p) == s[0];
    SkipBlankStep(t, p);
    LexFromToken(t, p);
  }

  lemma LexSingle(t: Bytes, p: nat, b: byte)
    requires TextAt(t, p, [b]) && !Last(SingleKind(b))
    ensures Lex(t, p) == [Token(SingleKind(b), [b])] + Lex(t, p + 1)
  {
    hide Lex, TokenAt;
    assert t[p..p + 1][0] == t[p];
    OtherToken(t, p);
    LexLexeme(t, p, SingleKind(b), [b]);
  }

  lemma LexWord(t: Bytes, p: nat, word: Bytes)
    requires TextAt(t, p, word) && word in {TRUE_TEXT, FALSE_TEXT, NULL_TEXT}
    ensures Lex(t, p) == [Token(WordKind(word), word)] + Lex(t, p + |word|)
  {
    hide Lex, TokenAt;
    assert t[p..p + |word|][0] == t[p];
    WordToken(t, p, word);
    LexLexeme(t, p, WordKind(word), word);
  }

  lemma LexQuoted(t: Bytes, p: nat, s: Bytes)
    requires TextAt(t, p, Quoted(s))
    ensures Lex(t, p) == [Token(ValueString, Quoted(s))] + Lex(t, p + |Quoted(s)|)
  {
    hide Lex, TokenAt, EscapeText, IsString, StringValue, StringEnd;
    QuotedRoundTrip(s);
    StringUnique(t, p, p + |Quoted(s)|);
    StringToken(t, p);
    LexLexeme(t, p, ValueString, Quoted(s));
  }

  lemma IntegerEnd(t: Bytes, p: nat, n: nat)
    requires TextAt(t, p, ToString(n)) && EndsNumber(At(t, p + |ToString(n)|))
    ensures IsDigit(At(t, p)) && IntEnd(t, p) == p + |ToString(n)|
  {
    hide ToString, DigitsEnd;
    ToStringCanonical(n);
    var s := ToString(n);
    AtInSlice(t, p, p + |s|);
    assert At(t, p) == s[0];
    forall k | p <= k < p + |s| ensures IsDigit(At(t, k)) {
      assert s[k - p] == At(t, k);
    }
    DigitsEndLongest(t, p, p + |s|);
  }

  lemma LexInteger(t: Bytes, p: nat, n: int)
    requires TextAt(t, p, PrintInteger(n)) && EndsNumber(At(t, p + |PrintInteger(n)|))
    ensures Lex(t, p) == [Token(ValueNumber, PrintInteger(n))] + Lex(t, p + |PrintInteger(n)|)
  {
    hide Lex, TokenAt, ToString, IntEnd, IsNumber;
    PrintedIsNumber(n);
    var s := PrintInteger(n);
    FirstByte(ValueNumber, s);
    AtInSlice(t, p, p + |s|);
    assert At(t, p) == s[0];
    NumberToken(t, p);
    if n < 0 {
      TextAtSplit(t, p, ['-' as byte], ToString(-n));
      IntegerEnd(t, p + 1, -n);
    } else {
      ToStringCanonical(n);
      IntegerEnd(t, p, n);
    }
    LexLexeme(t, p, ValueNumber, s);
  }

  lemma SpacesAreBlank(n: nat)
    ensures AllBlank(Spaces(n)) && |Spaces(n)| == n
  {
  }

  lemma ClosingLexed(t: Bytes, p: nat, l: Layout, indent: nat, bracket: byte)
    requires TextAt(t, p, Closing(l, indent, bracket)) && !Last(SingleKind(bracket))
    ensures Lex(t, p) == [Token(SingleKind(bracket), [bracket])] + Lex(t, p + |Closing(l, indent, bracket)|)
    ensures EndsNumber(At(t, p))
  {
    hide Lex;
    var blanks := Break(l) + Spaces(Shallower(l, indent));
    TextAtSplit(t, p, blanks, [bracket]);
    LexBlank(t, p, blanks);
    LexSingle(t, p + |blanks|, bracket);
    AtInSlice(t, p, p + |blanks| + 1);
    assert t[p..p + |blanks| + 1] == blanks + [bracket];
    assert At(t, p) == (blanks + [bracket])[0];
  }

  lemma OpeningLexed(t: Bytes, p: nat, l: Layout, bracket: byte, rest: Bytes)
    requires TextAt(t, p, [bracket] + Break(l) + rest) && !Last(SingleKind(bracket))
    ensures TextAt(t, p + 1 + |Break(l)|, rest)
    ensures Lex(t, p) == [Token(SingleKind(bracket), [bracket])] + Lex(t, p + 1 + |Break(l)|)
    ensures At(t, p) == bracket
  {
    hide Lex;
    TextAtSplit(t, p, [bracket] + Break(l), rest);
    TextAtSplit(t, p, [bracket], Break(l));
    LexSingle(t, p, bracket);
    LexBlank(t, p + 1, Break(l));
    assert t[p..p + 1][0] == t[p];
  }

  /** Scanning a printed value gives the tokens of its derivation, in any surroundings that do
      not prolong a number. */
  lemma {:induction false} DumpLexed(t: Bytes, p: nat, j: Json, l: Layout, indent: nat)
    requires TextAt(t, p, Dump(j, l, indent)) && EndsNumber(At(t, p + |Dump(j, l, indent)|))
    ensures Lex(t, p) == Yield(TreeOf(j)) + Lex(t, p + |Dump(j, l, indent)|)
    decreases j, 1
  {
    hide Dump, Yield, TreeOf, Lex, EndsNumber, TextAt;
    match j
    case Arr(elems) => ArrayLexed(t, p, elems, l, indent);
    case Obj(members) => ObjectLexed(t, p, j, l, indent);
    case _ => LeafLexed(t, p, j, l, indent);
  }

  lemma LeafLexed(t: Bytes, p: nat, j: Json, l: Layout, indent: nat)
    requires j.Primitive()
    requires TextAt(t, p, Dump(j, l, indent)) && EndsNumber(At(t, p + |Dump(j, l, indent)|))
    ensures Lex(t, p) == Yield(TreeOf(j)) + Lex(t, p + |Dump(j, l, indent)|)
  {
    hide Lex, PrintInteger, Quoted;
    match j
    case Null => LexWord(t, p, NULL_TEXT);
    case Bool(b) => LexWord(t, p, if b then TRUE_TEXT else FALSE_TEXT);
    case Int(i) => LexInteger(t, p, i as int);
    case UInt(u) => LexInteger(t, p, u as int);
    case Str(s) => LexQuoted(t, p, s);
  }

  lemma {:induction false} ArrayLexed(t: Bytes, p: nat, elems: seq<Json>, l: Layout, indent: nat)
    requires TextAt(t, p, Dump(Arr(elems), l, indent))
    ensures Lex(t, p) == Yield(TreeOf(Arr(elems))) + Lex(t, p + |Dump(Arr(elems), l, indent)|)
    decreases elems, 2
  {
    hide Lex, DumpElements, TreesOf, YieldItems;
    if elems == [] {
      TextAtSplit(t, p, ['[' as byte], [']' as byte]);
      assert ['[' as byte] + [']' as byte] == Dump(Arr(elems), l, indent);
      LexSingle(t, p, '[' as byte);
      LexSingle(t, p + 1, ']' as byte);
    } else {
      var rest := DumpElements(elems, l, Deeper(l, indent));
      OpeningLexed(t, p, l, '[' as byte, rest);
      ElementsLexed(t, p + 1 + |Break(l)|, elems, l, Deeper(l, indent));
    }
  }

  lemma {:induction false} ElementsLexed(t: Bytes, p: nat, elems: seq<Json>, l: Layout, indent: nat)
    requires elems != [] && TextAt(t, p, DumpElements(elems, l, indent))
    ensures Lex(t, p) == YieldItems(TreesOf(elems)) + Lex(t, p + |DumpElements(elems, l, indent)|)
    decreases elems, 1
  {
    hide Lex, Dump, TreeOf, Yield, TreesOf, YieldItems, DumpElements, ElementsTail, EndsNumber, TextAt;
    var value := Dump(elems[0], l, indent);
    var tail := ElementsTail(elems, l, indent);
    SpacesAreBlank(indent);
    DumpElementsStep(elems, l, indent);
    TextAtSplit(t, p, Spaces(indent), value + tail);
    TextAtSplit(t, p + indent, value, tail);
    LexBlank(t, p, Spaces(indent));
    ElementsTailLexed(t, p + indent + |value|, elems, l, indent);
    DumpLexed(t, p + indent, elems[0], l, indent);
    TreesStep(elems);
    YieldItemsStep(TreesOf(elems));
  }

  function ElementsTail(elems: seq<Json>, l: Layout, indent: nat): Bytes
    requires elems != []
  {
    if |elems| == 1 then Closing(l, indent, ']' as byte)
    else [',' as byte] + Break(l) + DumpElements(elems[1..], l, indent)
  }

  lemma DumpElementsStep(elems: seq<Json>, l: Layout, indent: nat)
    requires elems != []
    ensures DumpElements(elems, l, indent) ==
            Spaces(indent) + (Dump(elems[0], l, indent) + ElementsTail(elems, l, indent))
  {
    hide Dump, Closing;
  }

  lemma {:induction false} ElementsTailLexed(t: Bytes, p: nat, elems: seq<Json>, l: Layout, indent: nat)
    requires elems != [] && TextAt(t, p, ElementsTail(elems, l, indent))
    ensures Lex(t, p) == (if |elems| == 1 then [RBRACKET] else [COMMA] + YieldItems(TreesOf(elems[1..])))
                         + Lex(t, p + |ElementsTail(elems, l, indent)|)
    ensures EndsNumber(At(t, p))
    decreases elems, 0
  {
    hide Lex, TreesOf, YieldItems, DumpElements, Closing, TextAt;
    if |elems| == 1 {
      ClosingLexed(t, p, l, indent, ']' as byte);
    } else {
      OpeningLexed(t, p, l, ',' as byte, DumpElements(elems[1..], l, indent));
      ElementsLexed(t, p + 1 + |Break(l)|, elems[1..], l, indent);
    }
  }

  lemma YieldItemsStep(items: seq<Tree>)
    requires items != []
    ensures YieldItems(items) == Yield(items[0]) + (if |items| == 1 then [RBRACKET] else [COMMA] + YieldItems(items[1..]))
  {
    hide Yield;
  }

  lemma {:induction false} ObjectLexed(t: Bytes, p: nat, j: Json, l: Layout, indent: nat)
    requires j.Obj? && TextAt(t, p, Dump(j, l, indent))
    ensures Lex(t, p) == Yield(TreeOf(j)) + Lex(t, p + |Dump(j, l, indent)|)
    decreases j, 0
  {
    hide Lex, DumpMembers, MembersOf, YieldMembers;
    var keys := SortedKeys(j.members.Keys);
    if j.members.Keys == {} {
      TextAtSplit(t, p, ['{' as byte], ['}' as byte]);
      assert ['{' as byte] + ['}' as byte] == Dump(j, l, indent);
      LexSingle(t, p, '{' as byte);
      LexSingle(t, p + 1, '}' as byte);
    } else {
      var rest := DumpMembers(j, keys, l, Deeper(l, indent));
      OpeningLexed(t, p, l, '{' as byte, rest);
      MembersLexed(t, p + 1 + |Break(l)|, j, keys, l, Deeper(l, indent));
    }
  }

  lemma {:induction false} MembersLexed(t: Bytes, p: nat, j: Json, keys: seq<Bytes>, l: Layout, indent: nat)
    requires j.Obj? && keys != [] && forall k :: k in keys ==> k in j.members
    requires TextAt(t, p, DumpMembers(j, keys, l, indent))
    ensures Lex(t, p) == YieldMembers(MembersOf(j, keys)) + Lex(t, p + |DumpMembers(j, keys, l, indent)|)
    decreases j, 0, |keys|, 1
  {
    hide Lex, Dump, TreeOf, Yield, MembersOf, YieldMembers, DumpMembers, MembersTail, MemberStart, EndsNumber, TextAt, Quoted;
    assert keys[0] in keys;
    var v := j.members[keys[0]];
    var value := Dump(v, l, indent);
    var start := MemberStart(keys[0], l, indent);
    var tail := MembersTail(j, keys, l, indent);
    DumpMembersStep(j, keys, l, indent);
    TextAtSplit(t, p, start, value + tail);
    TextAtSplit(t, p + |start|, value, tail);
    MemberStartLexed(t, p, keys[0], l, indent);
    MembersTailLexed(t, p + |start| + |value|, j, keys, l, indent);
    DumpLexed(t, p + |start|, v, l, indent);
    MembersStep(j, keys);
    YieldMembersStep(MembersOf(j, keys));
  }

  function MembersTail(j: Json, keys: seq<Bytes>, l: Layout, indent: nat): Bytes
    requires j.Obj? && keys != [] && forall k :: k in keys ==> k in j.members
  {
    if |keys| == 1 then Closing(l, indent, '}' as byte)
    else [',' as byte] + Break(l) + DumpMembers(j, keys[1..], l, indent)
  }

  lemma DumpMembersStep(j: Json, keys: seq<Bytes>, l: Layout, indent: nat)
    requires j.Obj? && keys != [] && forall k :: k in keys ==> k in j.members
    ensures keys[0] in keys
    ensures DumpMembers(j, keys, l, indent) ==
            MemberStart(keys[0], l, indent) + (Dump(j.members[keys[0]], l, indent) + MembersTail(j, keys, l, indent))
  {
    hide Dump, Closing, Quoted;
  }

  lemma {:induction false} MembersTailLexed(t: Bytes, p: nat, j: Json, keys: seq<Bytes>, l: Layout, indent: nat)
    requires j.Obj? && keys != [] && forall k :: k in keys ==> k in j.members
    requires TextAt(t, p, MembersTail(j, keys, l, indent))
    ensures Lex(t, p) == (if |keys| == 1 then [RBRACE] else [COMMA] + YieldMembers(MembersOf(j, keys[1..])))
                         + Lex(t, p + |MembersTail(j, keys, l, indent)|)
    ensures EndsNumber(At(t, p))
    decreases j, 0, |keys|, 0
  {
    hide Lex, MembersOf, YieldMembers, DumpMembers, Closing, TextAt;
    if |keys| == 1 {
      ClosingLexed(t, p, l, indent, '}' as byte);
    } else {
      OpeningLexed(t, p, l, ',' as byte, DumpMembers(j, keys[1..], l, indent));
      MembersLexed(t, p + 1 + |Break(l)|, j, keys[1..], l, indent);
    }
  }

  function MemberStart(key: Bytes, l: Layout, indent: nat): Bytes {
    Spaces(indent) + Quoted(key) + [':' as byte] + Gap(l)
  }

  lemma MemberStartLexed(t: Bytes, p: nat, key: Bytes, l: Layout, indent: nat)
    requires TextAt(t, p, MemberStart(key, l, indent))
    ensures Lex(t, p) == [Token(ValueString, Quoted(key)), COLON] + Lex(t, p + |MemberStart(key, l, indent)|)
  {
    hide Lex, Quoted;
    SpacesAreBlank(indent);
    TextAtSplit(t, p, Spaces(indent) + Quoted(key) + [':' as byte], Gap(l));
    TextAtSplit(t, p, Spaces(indent) + Quoted(key), [':' as byte]);
    TextAtSplit(t, p, Spaces(indent), Quoted(key));
    LexBlank(t, p, Spaces(indent));
    LexQuoted(t, p + indent, key);
    LexSingle(t, p + indent + |Quoted(key)|, ':' as byte);
    LexBlank(t, p + indent + |Quoted(key)| + 1, Gap(l));
  }

  lemma MembersStep(j: Json, keys: seq<Bytes>)
    requires j.Obj? && keys != [] && forall k :: k in keys ==> k in j.members
    ensures keys[0] in keys
    ensures MembersOf(j, keys)[0] == Member(Quoted(keys[0]), TreeOf(j.members[keys[0]]))
    ensures MembersOf(j, keys)[1..] == MembersOf(j, keys[1..])
  {
    hide TreeOf, Quoted;
  }

  lemma YieldMembersStep(members: seq<Member>)
    requires members != []
    ensures YieldMembers(members) ==
            [Token(ValueString, members[0].key), COLON] + Yield(members[0].value)
            + (if |members| == 1 then [RBRACE] else [COMMA] + YieldMembers(members[1..]))
  {
    hide Yield;
  }

  // ---- The round trip -------------------------------------------------------------

  /** Parsing a printed value gives it back, in every layout and also with white space behind
      it; integers that are not negative come back unsigned, and that is the only change. */
  lemma ParseOfDump(j: Json, l: Layout, indent: nat, blanks: Bytes)
    requires AllBlank(blanks)
    ensures ParseText(Dump(j, l, indent) + blanks) == Ok(Canon(j)) && Eq(Canon(j), j)
  {
    hide Lex, Dump, TreeOf, Yield, WellFormed, Meaning, ParseValue, Canon, Eq;
    var text := Dump(j, l, indent);
    var t := text + blanks;
    assert TextAt(t, 0, text) && TextAt(t, |text|, blanks);
    assert At(t, |text|) == if blanks == [] then 0 else blanks[0];
    DumpLexed(t, 0, j, l, indent);
    LexBlank(t, |text|, blanks);
    LexAtEnd(t);
    TreeIsWellFormed(j);
    ParsesYield(TreeOf(j), [END]);
    TreeMeaning(j);
    CanonIsEqual(j);
  }

  lemma LexAtEnd(t: Bytes)
    ensures Lex(t, |t|) == [END]
  {
  }

  /** The same for the public functions. */
  lemma DumpRoundTrip(j: Json, indent: int)
    ensures ParseText(DumpText(j, indent)).Ok? && Eq(ParseText(DumpText(j, indent)).value, j)
    ensures ParseText(DumpText(j, indent)) == Ok(Canon(j))
  {
    hide Dump, ParseText, Eq, Canon;
    var l := if indent >= 0 then Layout(true, indent) else Layout(false, 0);
    ParseOfDump(j, l, 0, []);
    assert Dump(j, l, 0) + [] == Dump(j, l, 0);
  }

  /** Hence the text determines the value. */
  lemma DumpInjective(a: Json, b: Json, indent: int)
    requires DumpText(a, indent) == DumpText(b, indent)
    ensures Canon(a) == Canon(b) && Eq(a, b)
  {
    hide DumpText, ParseText, Eq, Canon;
    DumpRoundTrip(a, indent);
    DumpRoundTrip(b, indent);
    EqSymmetric(Canon(a), a);
    EqTransitive(a, Canon(a), b);
  }
}
