/** The parser: a recursive descent over tokens, the grammar of sections 2 to 5 of RFC 7159
    that it accepts, and the parser object that pulls the tokens from a lexer. */
module Parsers {
  import opened ByteStrings
  import opened Lexical
  import opened Lexers
  import opened Numbers
  import opened Results
  import opened Strings
  import opened Values

  // ---- Recursive descent on tokens --------------------------------------------

  /** `parse_internal`: the value at the front and the tokens behind it. */
  function ParseValue(ts: seq<Token>): (r: Result<(Json, seq<Token>)>)
    ensures r.Ok? ==> |r.value.1| < |ts|
    decreases |ts|, 1
  {
    if ts == [] then Err(InvalidArgument) else
    match ts[0].kind
    case BeginObject =>
      if Starts(ts[1..], EndObject) then Ok((Obj(map[]), ts[2..]))
      else if Starts(ts[1..], ValueSeparator) then Err(InvalidArgument)
      else ParseMembers(ts[1..], map[])
    case BeginArray =>
      if Starts(ts[1..], EndArray) then Ok((Arr([]), ts[2..]))
      else if Starts(ts[1..], ValueSeparator) then Err(InvalidArgument)
      else ParseElements(ts[1..], [])
    case LiteralNull => Ok((Null, ts[1..]))
    case LiteralTrue => Ok((Bool(true), ts[1..]))
    case LiteralFalse => Ok((Bool(false), ts[1..]))
    case ValueString =>
      var s :- StringValue(ts[0].lexeme);
      Ok((Str(s), ts[1..]))
    case ValueNumber =>
      var n :- NumberValue(ts[0].lexeme);
      Ok((n, ts[1..]))
    case _ => Err(InvalidArgument)
  }

  predicate Starts(ts: seq<Token>, kind: Kind) {
    ts != [] && ts[0].kind == kind
  }

  /** Members of an object up to the closing brace; a later member replaces an earlier one. */
  function ParseMembers(ts: seq<Token>, result: map<Bytes, Json>): (r: Result<(Json, seq<Token>)>)
    ensures r.Ok? ==> |r.value.1| < |ts|
    decreases |ts|, 0
  {
    if !Starts(ts, ValueString) then Err(InvalidArgument) else
    var key :- StringValue(ts[0].lexeme);
    if !Starts(ts[1..], NameSeparator) then Err(InvalidArgument) else
    var (v, rest) :- ParseValue(ts[2..]);
    if Starts(rest, ValueSeparator) then ParseMembers(rest[1..], result[key := v])
    else if Starts(rest, EndObject) then Ok((Obj(result[key := v]), rest[1..]))
    else Err(InvalidArgument)
  }

  /** Elements of an array up to the closing bracket. */
  function ParseElements(ts: seq<Token>, result: seq<Json>): (r: Result<(Json, seq<Token>)>)
    ensures r.Ok? ==> |r.value.1| < |ts|
    decreases |ts|, 2
  {
    var (v, rest) :- ParseValue(ts);
    if Starts(rest, ValueSeparator) then ParseElements(rest[1..], result + [v])
    else if Starts(rest, EndArray) then Ok((Arr(result + [v]), rest[1..]))
    else Err(InvalidArgument)
  }

  /** `parse`: one value and then the end of the input. */
  function Parse(ts: seq<Token>): Result<Json> {
    var (v, rest) :- ParseValue(ts);
    if Starts(rest, EndOfInput) then Ok(v) else Err(InvalidArgument)
  }

  function ParseText(t: Bytes): Result<Json> {
    Parse(Lex(t, 0))
  }

  // ---- The grammar ------------------------------------------------------------

  /** Derivations of JSON texts. */
  datatype Tree =
    | Word(kind: Kind)
    | Text(lexeme: Bytes)
    | Number(lexeme: Bytes)
    | List(items: seq<Tree>)
    | Table(members: seq<Member>)

  datatype Member = Member(key: Bytes, value: Tree)

  ghost predicate WellFormed(t: Tree) {
    match t
    case Word(kind) => kind.LiteralTrue? || kind.LiteralFalse? || kind.LiteralNull?
    case Text(lexeme) => IsString(lexeme)
    case Number(lexeme) => IsNumber(lexeme)
    case List(items) => forall i :: 0 <= i < |items| ==> WellFormed(items[i])
    case Table(members) =>
      forall i :: 0 <= i < |members| ==> IsString(members[i].key) && WellFormed(members[i].value)
  }

  const COMMA := Token(ValueSeparator, [',' as byte])
  const COLON := Token(NameSeparator, [':' as byte])
  const LBRACKET := Token(BeginArray, ['[' as byte])
  const RBRACKET := Token(EndArray, [']' as byte])
  const LBRACE := Token(BeginObject, ['{' as byte])
  const RBRACE := Token(EndObject, ['}' as byte])

  function WordText(kind: Kind): Bytes {
    if kind.LiteralTrue? then TRUE_TEXT else if kind.LiteralFalse? then FALSE_TEXT else NULL_TEXT
  }

  /** The tokens of a derivation. */
  function Yield(t: Tree): seq<Token>
    decreases t, 1
  {
    match t
    case Word(kind) => [Token(kind, WordText(kind))]
    case Text(lexeme) => [Token(ValueString, lexeme)]
    case Number(lexeme) => [Token(ValueNumber, lexeme)]
    case List(items) => [LBRACKET] + (if items == [] then [RBRACKET] else YieldItems(items))
    case Table(members) => [LBRACE] + (if members == [] then [RBRACE] else YieldMembers(members))
  }

  /** Elements separated by commas, and the closing bracket. */
  function YieldItems(items: seq<Tree>): seq<Token>
    requires items != []
    decreases items, 0
  {
    Yield(items[0]) + (if |items| == 1 then [RBRACKET] else [COMMA] + YieldItems(items[1..]))
  }

  function YieldMembers(members: seq<Member>): seq<Token>
    requires members != []
    decreases members, 0
  {
    [Token(ValueString, members[0].key), COLON] + Yield(members[0].value)
    + (if |members| == 1 then [RBRACE] else [COMMA] + YieldMembers(members[1..]))
  }

  /** The value of a derivation. */
  function Meaning(t: Tree): Result<Json>
    decreases t, 1
  {
    match t
    case Word(kind) =>
      Ok(if kind.LiteralTrue? then Bool(true) else if kind.LiteralFalse? then Bool(false) else Null)
    case Text(lexeme) =>
      var s :- StringValue(lexeme);
      Ok(Str(s))
    case Number(lexeme) => NumberValue(lexeme)
    case List(items) => ItemsMeaning(items, [])
    case Table(members) => MembersMeaning(members, map[])
  }

  function ItemsMeaning(items: seq<Tree>, result: seq<Json>): Result<Json>
    decreases items, 0
  {
    if items == [] then Ok(Arr(result)) else
    var v :- Meaning(items[0]);
    ItemsMeaning(items[1..], result + [v])
  }

  /** Of members with the same name, the last one counts. */
  function MembersMeaning(members: seq<Member>, result: map<Bytes, Json>): Result<Json>
    decreases members, 0
  {
    if members == [] then Ok(Obj(result)) else
    var key :- StringValue(members[0].key);
    var v :- Meaning(members[0].value);
    MembersMeaning(members[1..], result[key := v])
  }

  function With(r: Result<Json>, rest: seq<Token>): Result<(Json, seq<Token>)> {
    match r
    case Ok(v) => Ok((v, rest))
    case Err(e) => Err(e)
  }

  // ---- Every derivation is parsed, to its meaning ------------------------------

  lemma YieldFirst(t: Tree)
    requires WellFormed(t)
    ensures Yield(t) != []
    ensures !Starts(Yield(t), EndArray) && !Starts(Yield(t), ValueSeparator)
  {
  }

  lemma StartsFront(a: seq<Token>, b: seq<Token>, kind: Kind)
    requires a != []
    ensures Starts(a + b, kind) == Starts(a, kind)
  {
  }

  lemma ParseList(body: seq<Token>)
    ensures ParseValue([LBRACKET] + body) ==
            if Starts(body, EndArray) then Ok((Arr([]), body[1..]))
            else if Starts(body, ValueSeparator) then Err(InvalidArgument)
            else ParseElements(body, [])
  {
    hide ParseElements, ParseMembers;
    var ts := [LBRACKET] + body;
    assert ts[1..] == body && (body != [] ==> ts[2..] == body[1..]);
  }

  lemma ParseTable(body: seq<Token>)
    ensures ParseValue([LBRACE] + body) ==
            if Starts(body, EndObject) then Ok((Obj(map[]), body[1..]))
            else if Starts(body, ValueSeparator) then Err(InvalidArgument)
            else ParseMembers(body, map[])
  {
    hide ParseElements, ParseMembers;
    var ts := [LBRACE] + body;
    assert ts[1..] == body && (body != [] ==> ts[2..] == body[1..]);
  }

  lemma ParseLeaf(t: Tree, rest: seq<Token>)
    requires WellFormed(t) && !t.List? && !t.Table?
    ensures ParseValue(Yield(t) + rest) == With(Meaning(t), rest)
  {
    hide ParseElements, ParseMembers, StringValue, NumberValue, IsString, IsNumber;
    var ts := Yield(t) + rest;
    assert ts[1..] == rest;
  }

  lemma {:induction false} ParsesYield(t: Tree, rest: seq<Token>)
    requires WellFormed(t)
    ensures ParseValue(Yield(t) + rest) == With(Meaning(t), rest)
    decreases t, 1
  {
    hide IsString, IsNumber, StringValue, NumberValue, ParseValue, ParseElements, ParseMembers;
    match t
    case List(items) =>
      var body := (if items == [] then [RBRACKET] else YieldItems(items)) + rest;
      ParseList(body);
      assert Yield(t) + rest == [LBRACKET] + body;
      if items == [] {
        assert body[1..] == rest;
      } else {
        YieldFirst(items[0]);
        StartsFront(Yield(items[0]), YieldItems(items)[|Yield(items[0])|..] + rest, EndArray);
        ParsesItems(items, [], rest);
      }
    case Table(members) =>
      var body := (if members == [] then [RBRACE] else YieldMembers(members)) + rest;
      ParseTable(body);
      assert Yield(t) + rest == [LBRACE] + body;
      if members == [] {
        assert body[1..] == rest;
      } else {
        ParsesMembers(members, map[], rest);
      }
    case _ => ParseLeaf(t, rest);
  }

  lemma {:induction false} ParsesItems(items: seq<Tree>, result: seq<Json>, rest: seq<Token>)
    requires items != [] && forall i :: 0 <= i < |items| ==> WellFormed(items[i])
    ensures ParseElements(YieldItems(items) + rest, result) == With(ItemsMeaning(items, result), rest)
    decreases items, 0
  {
    hide IsString, IsNumber, StringValue, NumberValue, ParseValue, Yield;
    var ts := YieldItems(items) + rest;
    if |items| == 1 {
      var behind := [RBRACKET] + rest;
      assert ts == Yield(items[0]) + behind;
      ParsesYield(items[0], behind);
      assert behind[1..] == rest;
    } else {
      var behind := [COMMA] + YieldItems(items[1..]) + rest;
      assert ts == Yield(items[0]) + behind;
      ParsesYield(items[0], behind);
      assert behind[1..] == YieldItems(items[1..]) + rest;
      if Meaning(items[0]).Ok? {
        ParsesItems(items[1..], result + [Meaning(items[0]).value], rest);
      }
    }
  }

  lemma {:induction false} ParsesMembers(members: seq<Member>, result: map<Bytes, Json>, rest: seq<Token>)
    requires members != []
    requires forall i :: 0 <= i < |members| ==> IsString(members[i].key) && WellFormed(members[i].value)
    ensures ParseMembers(YieldMembers(members) + rest, result) == With(MembersMeaning(members, result), rest)
    decreases members, 0
  {
    hide IsString, IsNumber, StringValue, NumberValue, ParseValue, Yield;
    var ts := YieldMembers(members) + rest;
    var Member(key, value) := members[0];
    var behind := (if |members| == 1 then [RBRACE] else [COMMA] + YieldMembers(members[1..])) + rest;
    assert ts[2..] == Yield(value) + behind;
    assert ts[..2] == [Token(ValueString, key), COLON];
    ParsesYield(value, behind);
    if |members| == 1 {
      assert behind[1..] == rest;
    } else {
      assert behind[1..] == YieldMembers(members[1..]) + rest;
      if StringValue(key).Ok? && Meaning(value).Ok? {
        ParsesMembers(members[1..], result[StringValue(key).value := Meaning(value).value], rest);
      }
    }
  }

  // ---- Everything that is parsed has a derivation ------------------------------

  ghost predicate Lexemes(ts: seq<Token>) {
    forall i :: 0 <= i < |ts| ==>
      ts[i].kind.ParseError? || ts[i].kind.EndOfInput? || IsLexeme(ts[i].kind, ts[i].lexeme)
  }

  lemma LexemesBehind(ts: seq<Token>, n: nat)
    requires Lexemes(ts) && n <= |ts|
    ensures Lexemes(ts[n..])
  {
  }

  /** Each token is fixed by its kind, except for strings and numbers. */
  lemma FixedLexeme(ts: seq<Token>)
    requires Lexemes(ts) && ts != []
    ensures Starts(ts, ValueSeparator) ==> ts[0] == COMMA
    ensures Starts(ts, NameSeparator) ==> ts[0] == COLON
    ensures Starts(ts, BeginArray) ==> ts[0] == LBRACKET
    ensures Starts(ts, EndArray) ==> ts[0] == RBRACKET
    ensures Starts(ts, BeginObject) ==> ts[0] == LBRACE
    ensures Starts(ts, EndObject) ==> ts[0] == RBRACE
    ensures Starts(ts, ValueString) ==> IsString(ts[0].lexeme)
    ensures Starts(ts, ValueNumber) ==> IsNumber(ts[0].lexeme)
    ensures ts[0].kind.LiteralTrue? || ts[0].kind.LiteralFalse? || ts[0].kind.LiteralNull? ==>
              ts[0].lexeme == WordText(ts[0].kind)
  {
  }

  /** What `ParseValue` took from `ts` is the yield of `tree`, and the value is its meaning. */
  ghost predicate Derives(tree: Tree, ts: seq<Token>, v: Json, rest: seq<Token>) {
    WellFormed(tree) && ts == Yield(tree) + rest && Meaning(tree) == Ok(v)
  }

  ghost predicate DerivesItems(items: seq<Tree>, ts: seq<Token>, result: seq<Json>, v: Json, rest: seq<Token>) {
    && items != [] && (forall i :: 0 <= i < |items| ==> WellFormed(items[i]))
    && ts == YieldItems(items) + rest && ItemsMeaning(items, result) == Ok(v)
  }

  ghost predicate DerivesMembers(members: seq<Member>, ts: seq<Token>, result: map<Bytes, Json>, v: Json, rest: seq<Token>) {
    && members != []
    && (forall i :: 0 <= i < |members| ==> IsString(members[i].key) && WellFormed(members[i].value))
    && ts == YieldMembers(members) + rest && MembersMeaning(members, result) == Ok(v)
  }

  lemma {:induction false} ParsedTree(ts: seq<Token>) returns (tree: Tree)
    requires Lexemes(ts) && ParseValue(ts).Ok?
    ensures var (v, rest) := ParseValue(ts).value; Derives(tree, ts, v, rest)
    decreases |ts|, 1
  {
    hide Lexemes, IsString, IsNumber, ParseElements, ParseMembers;
    FixedLexeme(ts);
    var rest := ParseValue(ts).value.1;
    var body := ts[1..];
    assert ts == [ts[0]] + body;
    LexemesBehind(ts, 1);
    if ts[0].kind.BeginArray? {
      tree := ParsedList(body);
    } else if ts[0].kind.BeginObject? {
      tree := ParsedTable(body);
    } else if ts[0].kind.ValueString? {
      tree := Text(ts[0].lexeme);
    } else if ts[0].kind.ValueNumber? {
      tree := Number(ts[0].lexeme);
    } else {
      tree := Word(ts[0].kind);
    }
  }

  lemma {:induction false} ParsedList(body: seq<Token>) returns (tree: Tree)
    requires Lexemes(body) && ParseValue([LBRACKET] + body).Ok?
    ensures var (v, rest) := ParseValue([LBRACKET] + body).value; Derives(tree, [LBRACKET] + body, v, rest)
    decreases |body|, 3
  {
    hide Lexemes, IsString, IsNumber, ParseElements, ParseMembers, ParseValue, YieldItems, ItemsMeaning;
    ParseList(body);
    var (v, rest) := ParseValue([LBRACKET] + body).value;
    if Starts(body, EndArray) {
      FixedLexeme(body);
      tree := List([]);
      assert [LBRACKET] + body == Yield(tree) + rest;
      NoItems();
    } else {
      var items := ParsedItems(body, []);
      tree := List(items);
      assert [LBRACKET] + body == [LBRACKET] + YieldItems(items) + rest;
    }
  }

  lemma NoItems()
    ensures ItemsMeaning([], []) == Ok(Arr([])) && MembersMeaning([], map[]) == Ok(Obj(map[]))
  {
  }

  lemma {:induction false} ParsedTable(body: seq<Token>) returns (tree: Tree)
    requires Lexemes(body) && ParseValue([LBRACE] + body).Ok?
    ensures var (v, rest) := ParseValue([LBRACE] + body).value; Derives(tree, [LBRACE] + body, v, rest)
    decreases |body|, 3
  {
    hide Lexemes, IsString, IsNumber, ParseElements, ParseMembers, ParseValue, YieldMembers, MembersMeaning;
    ParseTable(body);
    var (v, rest) := ParseValue([LBRACE] + body).value;
    if Starts(body, EndObject) {
      FixedLexeme(body);
      tree := Table([]);
      assert [LBRACE] + body == Yield(tree) + rest;
      NoItems();
    } else {
      var members := ParsedMembers(body, map[]);
      tree := Table(members);
      assert [LBRACE] + body == [LBRACE] + YieldMembers(members) + rest;
    }
  }

  lemma {:induction false} ParsedItems(ts: seq<Token>, result: seq<Json>) returns (items: seq<Tree>)
    requires Lexemes(ts) && ParseElements(ts, result).Ok?
    ensures items != []
    ensures var (v, rest) := ParseElements(ts, result).value; DerivesItems(items, ts, result, v, rest)
    decreases |ts|, 2
  {
    hide Lexemes, IsString, IsNumber, ParseValue, Derives, DerivesItems;
    var (v, rest) := ParseElements(ts, result).value;
    var first := ParsedTree(ts);
    var (v0, behind) := ParseValue(ts).value;
    LexemesOfRest(ts, first, v0, behind);
    FixedLexeme(behind);
    var more := [];
    if Starts(behind, ValueSeparator) {
      LexemesBehind(behind, 1);
      more := ParsedItems(behind[1..], result + [v0]);
    }
    items := [first] + more;
    AddItem(first, more, ts, result, v0, behind, v, rest);
  }

  lemma AddItem(item: Tree, more: seq<Tree>, ts: seq<Token>, result: seq<Json>, v0: Json,
                behind: seq<Token>, v: Json, rest: seq<Token>)
    requires Derives(item, ts, v0, behind) && behind != []
    requires if more == [] then behind[0] == RBRACKET && behind[1..] == rest && v == Arr(result + [v0])
             else behind[0] == COMMA && DerivesItems(more, behind[1..], result + [v0], v, rest)
    ensures DerivesItems([item] + more, ts, result, v, rest)
  {
    hide Yield, Meaning, WellFormed;
    var items := [item] + more;
    assert items[1..] == more;
    assert behind == [behind[0]] + behind[1..];
    assert ts == YieldItems(items) + rest;
    assert ItemsMeaning(items, result) == Ok(v);
  }

  lemma {:induction false} ParsedMembers(ts: seq<Token>, result: map<Bytes, Json>) returns (members: seq<Member>)
    requires Lexemes(ts) && ParseMembers(ts, result).Ok?
    ensures members != []
    ensures var (v, rest) := ParseMembers(ts, result).value; DerivesMembers(members, ts, result, v, rest)
    decreases |ts|, 0
  {
    hide Lexemes, IsString, IsNumber, ParseValue, Derives, DerivesMembers, StringValue;
    var (v, rest) := ParseMembers(ts, result).value;
    LexemesBehind(ts, 1);
    LexemesBehind(ts, 2);
    FixedLexeme(ts);
    FixedLexeme(ts[1..]);
    var key := ts[0].lexeme;
    var first := ParsedTree(ts[2..]);
    var (v0, behind) := ParseValue(ts[2..]).value;
    LexemesOfRest(ts[2..], first, v0, behind);
    FixedLexeme(behind);
    var more := [];
    if Starts(behind, ValueSeparator) {
      LexemesBehind(behind, 1);
      more := ParsedMembers(behind[1..], result[StringValue(key).value := v0]);
    }
    members := [Member(key, first)] + more;
    AddMember(Member(key, first), more, ts, result, v0, behind, v, rest);
  }

  lemma LexemesOfRest(ts: seq<Token>, tree: Tree, v: Json, rest: seq<Token>)
    requires Lexemes(ts) && Derives(tree, ts, v, rest)
    ensures Lexemes(rest)
  {
    hide Lexemes, Yield, WellFormed, Meaning;
    LexemesBehind(ts, |Yield(tree)|);
    assert ts[|Yield(tree)|..] == rest;
  }

  lemma AddMember(member: Member, more: seq<Member>, ts: seq<Token>, result: map<Bytes, Json>, v0: Json,
                  behind: seq<Token>, v: Json, rest: seq<Token>)
    requires IsString(member.key) && StringValue(member.key).Ok?
    requires |ts| >= 2 && ts[0] == Token(ValueString, member.key) && ts[1] == COLON
    requires Derives(member.value, ts[2..], v0, behind) && behind != []
    requires var both := result[StringValue(member.key).value := v0];
             if more == [] then behind[0] == RBRACE && behind[1..] == rest && v == Obj(both)
             else behind[0] == COMMA && DerivesMembers(more, behind[1..], both, v, rest)
    ensures DerivesMembers([member] + more, ts, result, v, rest)
  {
    hide IsString, Yield, Meaning, WellFormed, StringValue;
    var members := [member] + more;
    assert members[1..] == more;
    assert behind == [behind[0]] + behind[1..];
    assert ts == [ts[0], ts[1]] + ts[2..];
    assert ts == YieldMembers(members) + rest;
    assert MembersMeaning(members, result) == Ok(v);
  }

  // ---- The parser accepts the grammar ------------------------------------------

  const END := Token(EndOfInput, [])

  /** Tokens from the lexer are lexemes, up to the last one, which is none. */
  lemma {:induction false} LexIsLexemes(t: Bytes, i: nat)
    requires i <= |t|
    ensures Lexemes(Lex(t, i))
    ensures forall k :: 0 <= k < |Lex(t, i)| - 1 ==> !Lex(t, i)[k].kind.EndOfInput?
    ensures forall k :: 0 <= k < |Lex(t, i)| && Lex(t, i)[k].kind.EndOfInput? ==> Lex(t, i)[k] == END
    decreases |t| - i
  {
    hide IsLexeme, TokenAt, SkipBlank;
    var p := SkipBlank(t, i);
    var (kind, end) := TokenAt(t, p);
    TokenIsLexeme(t, p);
    if !kind.EndOfInput? && !kind.ParseError? {
      LexIsLexemes(t, end);
    }
  }

  ghost predicate IsDerivation(tree: Tree, t: Bytes, v: Json) {
    WellFormed(tree) && Lex(t, 0) == Yield(tree) + [END] && Meaning(tree) == Ok(v)
  }

  /** The parser accepts exactly the texts that the grammar derives, and returns the value of
      the derivation. */
  lemma ParsesTheGrammar(t: Bytes, v: Json)
    ensures ParseText(t) == Ok(v) <==> exists tree :: IsDerivation(tree, t, v)
  {
    hide Lexemes, WellFormed, Yield, Meaning, ParseValue, Lex;
    var ts := Lex(t, 0);
    LexIsLexemes(t, 0);
    if ParseText(t) == Ok(v) {
      var tree := ParsedTree(ts);
      var rest := ParseValue(ts).value.1;
      assert rest == ts[|Yield(tree)|..];
      assert rest[0] == END && |rest| == 1;
      assert rest == [END];
      assert IsDerivation(tree, t, v);
    }
    if tree :| IsDerivation(tree, t, v) {
      ParsesYield(tree, [END]);
    }
  }

  // ---- The parser object --------------------------------------------------------

  function First(r: Result<(Json, seq<Token>)>): Result<Json> {
    match r
    case Ok(value) => Ok(value.0)
    case Err(e) => Err(e)
  }

  /** No token is scanned behind this one. */
  predicate Last(kind: Kind) {
    kind.EndOfInput? || kind.ParseError?
  }

  class Parser {
    const lexer: Lexer
    var lastToken: Kind
    /** The token read last and all tokens behind it. */
    ghost var toks: seq<Token>

    ghost predicate Valid()
      reads this, lexer
    {
      && lexer.Valid() && toks != [] && Lexemes(toks) && toks[0].kind == lastToken
      && (!Last(lastToken) ==>
            && lexer.Pos() <= |lexer.text|
            && toks == [Token(lastToken, lexer.text[lexer.StartPos()..lexer.Pos()])] + Lex(lexer.text, lexer.Pos()))
    }

    constructor (text: Bytes)
      ensures lexer.Valid() && lexer.text == text && lexer.Pos() == 0 && fresh(lexer)
    {
      lexer := new Lexer(text);
      lastToken := EndOfInput;
    }

    /** `get_token`. */
    method GetToken()
      requires lexer.Valid() && lexer.Pos() <= |lexer.text|
      modifies this, lexer
      ensures Valid() && toks == Lex(lexer.text, old(lexer.Pos()))
    {
      hide TokenAt, SkipBlank, IsLexeme, Shows, Lexemes;
      ghost var p := lexer.Pos();
      LexIsLexemes(lexer.text, p);
      lastToken := lexer.Scan();
      toks := Lex(lexer.text, p);
    }

    /** `get_token` in front of a token that can be scanned. */
    method NextToken()
      requires Valid() && !Last(lastToken)
      modifies this, lexer
      ensures Valid() && toks == old(toks)[1..]
    {
      hide Lex, Lexemes;
      GetToken();
    }

    /** `expect`. */
    function Expect(kind: Kind): Result<()>
      reads this
    {
      if lastToken != kind then Err(InvalidArgument) else Ok(())
    }

    /** `unexpect`. */
    function Unexpect(kind: Kind): Result<()>
      reads this
    {
      if lastToken == kind then Err(InvalidArgument) else Ok(())
    }

    /** `m_lexer.get_string()`. */
    method GetKey() returns (r: Result<Bytes>)
      requires Valid() && lastToken == ValueString
      ensures r == StringValue(toks[0].lexeme)
    {
      hide StringValue, Lex, IsString;
      r := GetString(lexer.Lexeme());
    }

    /** `parse_internal`: the value at the front of the tokens; behind it, the first token that
        is not part of it has been read. */
    method ParseInternal() returns (r: Result<Json>)
      requires Valid()
      modifies this, lexer
      ensures r == First(ParseValue(old(toks)))
      ensures r.Ok? ==> Valid() && toks == ParseValue(old(toks)).value.1
      decreases |toks|, 1
    {
      hide StringValue, NumberValue, IsString, IsNumber, ParseMembers, ParseElements, Lex;
      match lastToken
      case BeginObject =>
        r := ParseObject();
      case BeginArray =>
        r := ParseArray();
      case LiteralNull =>
        NextToken();
        return Ok(Null);
      case ValueString =>
        var s :- GetKey();
        NextToken();
        return Ok(Str(s));
      case LiteralTrue =>
        NextToken();
        return Ok(Bool(true));
      case LiteralFalse =>
        NextToken();
        return Ok(Bool(false));
      case ValueNumber =>
        r := ParseNumber();
      case _ =>
        return Err(InvalidArgument);
    }

    method ParseNumber() returns (r: Result<Json>)
      requires Valid() && lastToken == ValueNumber
      modifies this, lexer
      ensures r == NumberValue(old(toks)[0].lexeme)
      ensures r.Ok? ==> Valid() && toks == old(toks)[1..]
    {
      hide NumberValue, IsNumber, Lex;
      FirstByte(ValueNumber, toks[0].lexeme);
      var n :- GetNumber(lexer.Lexeme());
      NextToken();
      return Ok(n);
    }

    method ParseObject() returns (r: Result<Json>)
      requires Valid() && lastToken == BeginObject
      modifies this, lexer
      ensures r == First(ParseValue(old(toks)))
      ensures r.Ok? ==> Valid() && toks == ParseValue(old(toks)).value.1
      decreases |toks|, 0
    {
      hide StringValue, ParseValue, ParseMembers, ParseElements, Lex, Lexemes, IsString, IsNumber, WordText, Shows, IsLexeme;
      ghost var all := toks;
      FixedLexeme(toks);
      assert toks == [LBRACE] + toks[1..];
      ParseTable(toks[1..]);
      NextToken();
      if lastToken == EndObject {
        NextToken();
        return Ok(Obj(map[]));
      }
      var _ :- Unexpect(ValueSeparator);
      var result: map<Bytes, Json> := map[];
      var more := true;
      while more
        invariant Valid() && |toks| < |all|
        invariant ParseValue(all) == if more then ParseMembers(Ahead(toks), result) else ClosingBrace(toks, result)
        decreases |toks|, more
      {
        if lastToken == ValueSeparator {
          NextToken();
        }
        var member :- ParseMember(result);
        result := result[member.0 := member.1];
        more := lastToken == ValueSeparator;
      }
      var _ :- Expect(EndObject);
      NextToken();
      return Ok(Obj(result));
    }

    /** The body of that loop, behind the comma. */
    method ParseMember(ghost result: map<Bytes, Json>) returns (r: Result<(Bytes, Json)>)
      requires Valid()
      modifies this, lexer
      ensures r.Err? ==> ParseMembers(old(toks), result) == Err(r.error)
      ensures r.Ok? ==> Valid() && |toks| < |old(toks)|
      ensures r.Ok? ==> ParseMembers(old(toks), result) == BehindMember(toks, result[r.value.0 := r.value.1])
      decreases |toks|, 0
    {
      hide StringValue, ParseValue, ParseMembers, ParseElements, Lex, Lexemes, IsString, IsNumber, WordText, Shows, IsLexeme;
      ghost var name := toks;
      ParseMembersStep(toks, result);
      var _ :- Expect(ValueString);
      var key :- GetKey();
      NextToken();
      var _ :- Expect(NameSeparator);
      NextToken();
      assert toks == name[2..];
      var value :- ParseInternal();
      return Ok((key, value));
    }

    method ParseArray() returns (r: Result<Json>)
      requires Valid() && lastToken == BeginArray
      modifies this, lexer
      ensures r == First(ParseValue(old(toks)))
      ensures r.Ok? ==> Valid() && toks == ParseValue(old(toks)).value.1
      decreases |toks|, 0
    {
      hide ParseValue, ParseElements, Lex, Lexemes, IsString, IsNumber, WordText, Shows;
      ghost var all := toks;
      FixedLexeme(toks);
      assert toks == [LBRACKET] + toks[1..];
      ParseList(toks[1..]);
      NextToken();
      if lastToken == EndArray {
        NextToken();
        return Ok(Arr([]));
      }
      var _ :- Unexpect(ValueSeparator);
      var result: seq<Json> := [];
      var more := true;
      while more
        invariant Valid() && |toks| < |all|
        invariant ParseValue(all) == if more then ParseElements(Ahead(toks), result) else ClosingBracket(toks, result)
        decreases |toks|, more
      {
        if lastToken == ValueSeparator {
          NextToken();
        }
        ParseElementsStep(toks, result);
        var value :- ParseInternal();
        result := result + [value];
        more := lastToken == ValueSeparator;
      }
      var _ :- Expect(EndArray);
      NextToken();
      return Ok(Arr(result));
    }

    /** `parse`: one value, and nothing behind it. */
    method ParseDocument() returns (r: Result<Json>)
      requires lexer.Valid() && lexer.Pos() == 0
      modifies this, lexer
      ensures r == ParseText(lexer.text)
    {
      hide ParseValue, Lex, Lexemes;
      GetToken();
      var result :- ParseInternal();
      var _ :- Expect(EndOfInput);
      return Ok(result);
    }
  }

  /** Behind the comma that the loops skip. */
  function Ahead(ts: seq<Token>): seq<Token> {
    if Starts(ts, ValueSeparator) then ts[1..] else ts
  }

  function ClosingBrace(ts: seq<Token>, result: map<Bytes, Json>): Result<(Json, seq<Token>)> {
    if Starts(ts, EndObject) then Ok((Obj(result), ts[1..])) else Err(InvalidArgument)
  }

  function ClosingBracket(ts: seq<Token>, result: seq<Json>): Result<(Json, seq<Token>)> {
    if Starts(ts, EndArray) then Ok((Arr(result), ts[1..])) else Err(InvalidArgument)
  }

  function BehindMember(ts: seq<Token>, result: map<Bytes, Json>): Result<(Json, seq<Token>)> {
    if Starts(ts, ValueSeparator) then ParseMembers(Ahead(ts), result) else ClosingBrace(ts, result)
  }

  lemma ParseMembersStep(ts: seq<Token>, result: map<Bytes, Json>)
    ensures ParseMembers(ts, result) ==
            if !Starts(ts, ValueString) then Err(InvalidArgument) else
            var key :- StringValue(ts[0].lexeme);
            if !Starts(ts[1..], NameSeparator) then Err(InvalidArgument) else
            var (v, rest) :- ParseValue(ts[2..]);
            BehindMember(rest, result[key := v])
  {
    hide StringValue, ParseValue;
  }

  lemma ParseElementsStep(ts: seq<Token>, result: seq<Json>)
    ensures ParseElements(ts, result) ==
            var (v, rest) :- ParseValue(ts);
            if Starts(rest, ValueSeparator) then ParseElements(Ahead(rest), result + [v])
            else ClosingBracket(rest, result + [v])
  {
    hide ParseValue;
  }

  /** `json::parse`. */
  method ParseJson(text: Bytes) returns (r: Result<Json>)
    ensures r == ParseText(text)
  {
    var parser := new Parser(text);
    r := parser.ParseDocument();
  }
}
