/** The layouts of `dump`: compact text has nothing but lexemes, pretty text has one line for
    each bracket and each element. */
module Layouts {
  import opened ByteStrings
  import opened Lexical
  import opened Numbers
  import opened Parsers
  import opened Printers
  import opened Strings
  import opened Values

  // ---- Compact ------------------------------------------------------------------

  /** The lexemes, with nothing between them. */
  function Joined(ts: seq<Token>): Bytes {
    if ts == [] then [] else ts[0].lexeme + Joined(ts[1..])
  }

  lemma {:induction false} JoinedConcat(a: seq<Token>, b: seq<Token>)
    ensures Joined(a + b) == Joined(a) + Joined(b)
  {
    if a == [] {
      assert a + b == b;
    } else {
      assert (a + b)[1..] == a[1..] + b;
      JoinedConcat(a[1..], b);
      assert a[0].lexeme + (Joined(a[1..]) + Joined(b)) == a[0].lexeme + Joined(a[1..]) + Joined(b);
    }
  }

  lemma JoinedOne(token: Token)
    ensures Joined([token]) == token.lexeme && Joined([]) == []
  {
    assert [token][1..] == [];
  }

  lemma JoinedTwo(x: Token, y: Token)
    ensures Joined([x, y]) == x.lexeme + y.lexeme
  {
    JoinedOne(y);
    assert [x, y][1..] == [y];
  }

  const NARROW := Layout(false, 0)

  lemma LeafText(j: Json, l: Layout, indent: nat)
    requires j.Primitive() || j == Arr([]) || j == Obj(map[])
    ensures Dump(j, l, indent) == Joined(Yield(TreeOf(j)))
  {
    hide Quoted, PrintInteger;
    JoinedTwo(LBRACKET, RBRACKET);
    JoinedTwo(LBRACE, RBRACE);
    if j.Primitive() { JoinedOne(Yield(TreeOf(j))[0]); }
  }

  /** Compact text is the lexemes of the derivation, one behind the other. */
  lemma {:induction false} CompactIsLexemes(j: Json)
    ensures Dump(j, NARROW, 0) == Joined(Yield(TreeOf(j)))
    decreases j, 2
  {
    hide Dump, Yield, TreeOf, Joined;
    if j.Arr? && j.elems != [] {
      ArrayCompact(j.elems);
    } else if j.Obj? && j.members != map[] {
      ObjectCompact(j);
    } else {
      LeafText(j, NARROW, 0);
    }
  }

  lemma {:induction false} ArrayCompact(elems: seq<Json>)
    requires elems != []
    ensures Dump(Arr(elems), NARROW, 0) == Joined(Yield(TreeOf(Arr(elems))))
    decreases elems, 3
  {
    hide DumpElements, TreesOf, YieldItems, Joined;
    ElementsCompact(elems);
    JoinedOne(LBRACKET);
    JoinedConcat([LBRACKET], YieldItems(TreesOf(elems)));
  }

  lemma {:induction false} ElementsCompact(elems: seq<Json>)
    requires elems != []
    ensures DumpElements(elems, NARROW, 0) == Joined(YieldItems(TreesOf(elems)))
    decreases elems, 0
  {
    hide Dump, TreeOf, Yield, TreesOf, YieldItems, DumpElements, Joined;
    DumpElementsStep(elems, NARROW, 0);
    TreesStep(elems);
    YieldItemsStep(TreesOf(elems));
    CompactIsLexemes(elems[0]);
    NoSpaces();
    JoinedOne(RBRACKET);
    JoinedOne(COMMA);
    var first := Yield(TreeOf(elems[0]));
    if |elems| == 1 {
      JoinedConcat(first, [RBRACKET]);
      NoClosing(']' as byte);
    } else {
      ElementsCompact(elems[1..]);
      JoinedConcat([COMMA], YieldItems(TreesOf(elems[1..])));
      JoinedConcat(first, [COMMA] + YieldItems(TreesOf(elems[1..])));
    }
  }

  lemma NoSpaces()
    ensures Spaces(0) == []
  {
  }

  lemma NoClosing(bracket: byte)
    ensures Closing(NARROW, 0, bracket) == [bracket]
  {
    NoSpaces();
  }

  lemma {:induction false} ObjectCompact(j: Json)
    requires j.Obj? && j.members != map[]
    ensures Dump(j, NARROW, 0) == Joined(Yield(TreeOf(j)))
    decreases j, 1
  {
    hide DumpMembers, MembersOf, YieldMembers, Joined, SortedKeys;
    var keys := SortedKeys(j.members.Keys);
    ObjectText(j, NARROW, 0);
    SomeKey(j.members);
    MembersCompact(j, keys);
    JoinedOne(LBRACE);
    JoinedConcat([LBRACE], YieldMembers(MembersOf(j, keys)));
  }

  lemma SomeKey(m: map<Bytes, Json>)
    requires m != map[]
    ensures m.Keys != {} && SortedKeys(m.Keys) != []
  {
    assert m.Keys == {} ==> m == map[];
  }

  lemma {:induction false} MembersCompact(j: Json, keys: seq<Bytes>)
    requires j.Obj? && keys != [] && forall k :: k in keys ==> k in j.members
    ensures DumpMembers(j, keys, NARROW, 0) == Joined(YieldMembers(MembersOf(j, keys)))
    decreases j, 0, |keys|
  {
    hide Dump, TreeOf, Yield, MembersOf, YieldMembers, DumpMembers, Joined, Quoted;
    assert keys[0] in keys;
    var v := j.members[keys[0]];
    DumpMembersStep(j, keys, NARROW, 0);
    MembersStep(j, keys);
    YieldMembersStep(MembersOf(j, keys));
    CompactIsLexemes(v);
    NoSpaces();
    var name := Token(ValueString, Quoted(keys[0]));
    JoinedTwo(name, COLON);
    JoinedConcat([name, COLON], Yield(TreeOf(v)));
    JoinedOne(RBRACE);
    JoinedOne(COMMA);
    var front := [name, COLON] + Yield(TreeOf(v));
    if |keys| == 1 {
      JoinedConcat(front, [RBRACE]);
      NoClosing('}' as byte);
    } else {
      MembersCompact(j, keys[1..]);
      JoinedConcat([COMMA], YieldMembers(MembersOf(j, keys[1..])));
      JoinedConcat(front, [COMMA] + YieldMembers(MembersOf(j, keys[1..])));
    }
  }

  // ---- Pretty ---------------------------------------------------------------------

  datatype Line = Line(depth: nat, text: Bytes)

  /** The lines of a value at some depth. `lead` stands in front of it in its first line: the
      name, if it is a member; `trail` stands behind it in its last line: a comma, or nothing. */
  function Lines(j: Json, depth: nat, lead: Bytes, trail: Bytes): (r: seq<Line>)
    ensures r != []
    decreases j, 1
  {
    if j.Arr? && j.elems != [] then
      [Line(depth, lead + ['[' as byte])] + ElementLines(j.elems, depth + 1) + [Line(depth, [']' as byte] + trail)]
    else if j.Obj? && j.members != map[] then
      SomeKey(j.members);
      [Line(depth, lead + ['{' as byte])] + MemberLines(j, SortedKeys(j.members.Keys), depth + 1)
      + [Line(depth, ['}' as byte] + trail)]
    else [Line(depth, lead + Joined(Yield(TreeOf(j))) + trail)]
  }

  function Comma(last: bool): Bytes {
    if last then [] else [',' as byte]
  }

  /** Each element begins on a line of its own. */
  function ElementLines(elems: seq<Json>, depth: nat): (r: seq<Line>)
    requires elems != []
    ensures r != []
    decreases elems, 0
  {
    Lines(elems[0], depth, [], Comma(|elems| == 1)) + (if |elems| == 1 then [] else ElementLines(elems[1..], depth))
  }

  /** So does each member, with its name, a colon and a space. */
  function MemberLines(j: Json, keys: seq<Bytes>, depth: nat): (r: seq<Line>)
    requires j.Obj? && keys != [] && forall k :: k in keys ==> k in j.members
    ensures r != []
    decreases j, 0, |keys|
  {
    assert keys[0] in keys;
    Lines(j.members[keys[0]], depth, Quoted(keys[0]) + [':' as byte, ' ' as byte], Comma(|keys| == 1))
    + (if |keys| == 1 then [] else MemberLines(j, keys[1..], depth))
  }

  /** `step` spaces for each level, counted in 32 bits. */
  function Indent(step: nat, depth: nat): nat {
    depth * step % TWO32
  }

  function RenderLine(line: Line, step: nat): Bytes {
    Spaces(Indent(step, line.depth)) + line.text
  }

  /** The lines with newlines between them. */
  function Render(lines: seq<Line>, step: nat): Bytes
    requires lines != []
  {
    RenderLine(lines[0], step) + (if |lines| == 1 then [] else [0x0A] + Render(lines[1..], step))
  }

  lemma {:induction false} RenderConcat(a: seq<Line>, b: seq<Line>, step: nat)
    requires a != [] && b != []
    ensures Render(a + b, step) == Render(a, step) + [0x0A] + Render(b, step)
    decreases |a|
  {
    hide RenderLine;
    assert (a + b)[0] == a[0] && (a + b)[1..] == a[1..] + b;
    if |a| == 1 {
      assert a[1..] + b == b;
    } else {
      RenderConcat(a[1..], b, step);
      var first, rest, other := RenderLine(a[0], step), Render(a[1..], step), Render(b, step);
      assert first + ([0x0A] + (rest + [0x0A] + other)) == first + ([0x0A] + rest) + [0x0A] + other;
    }
  }

  lemma RenderOne(line: Line, step: nat)
    ensures Render([line], step) == RenderLine(line, step)
  {
  }

  function Wide(step: nat): Layout {
    Layout(true, step)
  }

  lemma DeeperIndent(step: nat, depth: nat)
    ensures Deeper(Wide(step), Indent(step, depth)) == Indent(step, depth + 1)
    ensures Shallower(Wide(step), Indent(step, depth + 1)) == Indent(step, depth)
  {
    var x := depth * step;
    assert (depth + 1) * step == x + step;
    ModSum(x, step);
    ModBack(x, step);
  }

  lemma ModSum(x: nat, y: nat)
    ensures (x % TWO32 + y) % TWO32 == (x + y) % TWO32
  {
    ModUnique(x % TWO32 + y, x + y, x / TWO32);
  }

  lemma ModUnique(x: nat, y: nat, k: nat)
    requires y == x + k * TWO32
    ensures x % TWO32 == y % TWO32
  {
    var q, r := x / TWO32, x % TWO32;
    assert y == (q + k) * TWO32 + r;
  }

  lemma ModBack(x: nat, y: nat)
    ensures ((x + y) % TWO32 + TWO32 - y % TWO32) % TWO32 == x % TWO32
  {
    var a := (x + y) % TWO32 + TWO32 - y % TWO32;
    var b := (x + y) / TWO32;
    var c := y / TWO32;
    assert a + b * TWO32 == x + (c + 1) * TWO32;
    ModUnique(a, a + b * TWO32, b);
    ModUnique(x, x + (c + 1) * TWO32, c + 1);
  }

  /** What is printed for a value at some depth, with what stands around it in its lines. */
  function Shown(j: Json, step: nat, depth: nat, lead: Bytes, trail: Bytes): Bytes {
    Spaces(Indent(step, depth)) + lead + Dump(j, Wide(step), Indent(step, depth)) + trail
  }

  lemma {:induction false} PrettyIsLines(j: Json, step: nat, depth: nat, lead: Bytes, trail: Bytes)
    ensures Shown(j, step, depth, lead, trail) == Render(Lines(j, depth, lead, trail), step)
    decreases j, 3
  {
    hide Dump, Lines, Joined, Yield, TreeOf, Indent;
    if j.Arr? && j.elems != [] {
      ArrayLines(j.elems, step, depth, lead, trail);
    } else if j.Obj? && j.members != map[] {
      ObjectLines(j, step, depth, lead, trail);
    } else {
      LeafText(j, Wide(step), Indent(step, depth));
      LeafLines(j, depth, lead, trail);
      RenderOne(Line(depth, lead + Joined(Yield(TreeOf(j))) + trail), step);
      var s, t := Spaces(Indent(step, depth)), Joined(Yield(TreeOf(j)));
      assert s + lead + t + trail == s + (lead + t + trail);
    }
  }

  lemma LeafLines(j: Json, depth: nat, lead: Bytes, trail: Bytes)
    requires !(j.Arr? && j.elems != []) && !(j.Obj? && j.members != map[])
    ensures Lines(j, depth, lead, trail) == [Line(depth, lead + Joined(Yield(TreeOf(j))) + trail)]
    ensures j.Primitive() || j == Arr([]) || j == Obj(map[])
  {
    hide Joined, Yield, TreeOf;
  }

  /** A bracket, the lines in between, and the closing bracket. */
  lemma Bracketed(step: nat, depth: nat, lead: Bytes, opening: byte, inner: seq<Line>, closing: byte, trail: Bytes)
    requires inner != []
    ensures Render([Line(depth, lead + [opening])] + inner + [Line(depth, [closing] + trail)], step)
         == Spaces(Indent(step, depth)) + lead + [opening] + [0x0A] + Render(inner, step) + [0x0A]
            + Spaces(Indent(step, depth)) + [closing] + trail
  {
    hide Render, Indent, Spaces;
    var first, last := Line(depth, lead + [opening]), Line(depth, [closing] + trail);
    RenderConcat([first] + inner, [last], step);
    RenderConcat([first], inner, step);
    RenderOne(first, step);
    RenderOne(last, step);
    var s, r := Spaces(Indent(step, depth)), Render(inner, step);
    assert s + (lead + [opening]) + [0x0A] + r + [0x0A] + (s + ([closing] + trail))
        == s + lead + [opening] + [0x0A] + r + [0x0A] + s + [closing] + trail;
  }

  lemma {:induction false} ArrayLines(elems: seq<Json>, step: nat, depth: nat, lead: Bytes, trail: Bytes)
    requires elems != []
    ensures Shown(Arr(elems), step, depth, lead, trail) == Render(Lines(Arr(elems), depth, lead, trail), step)
    decreases elems, 4
  {
    hide Indent, Spaces, DumpElements, ElementLines, Render, Closing, Deeper, Shallower;
    var l, indent := Wide(step), Indent(step, depth);
    DeeperIndent(step, depth);
    var inner := ElementLines(elems, depth + 1);
    Bracketed(step, depth, lead, '[' as byte, inner, ']' as byte, trail);
    ElementsInLines(elems, step, depth + 1);
    ArrayText(elems, l, indent);
    var s, r := Spaces(indent), Render(inner, step);
    assert s + lead + (['[' as byte] + [0x0A] + (r + [0x0A] + s + [']' as byte])) + trail
        == s + lead + ['[' as byte] + [0x0A] + r + [0x0A] + s + [']' as byte] + trail;
  }

  lemma ArrayText(elems: seq<Json>, l: Layout, indent: nat)
    requires elems != []
    ensures Dump(Arr(elems), l, indent) == ['[' as byte] + Break(l) + DumpElements(elems, l, Deeper(l, indent))
  {
    hide DumpElements;
  }

  lemma ClosingText(step: nat, depth: nat, bracket: byte)
    requires depth > 0
    ensures Closing(Wide(step), Indent(step, depth), bracket) == [0x0A] + Spaces(Indent(step, depth - 1)) + [bracket]
  {
    hide Indent, Shallower, Spaces;
    DeeperIndent(step, depth - 1);
  }

  /** The elements of an array in their lines, and the closing bracket in its own. */
  lemma {:induction false} ElementsInLines(elems: seq<Json>, step: nat, depth: nat)
    requires elems != [] && depth > 0
    ensures DumpElements(elems, Wide(step), Indent(step, depth))
         == Render(ElementLines(elems, depth), step) + [0x0A] + Spaces(Indent(step, depth - 1)) + [']' as byte]
    decreases elems, 0
  {
    hide Indent, Spaces, Dump, DumpElements, Lines, ElementLines, Render, Closing;
    var l, indent := Wide(step), Indent(step, depth);
    DumpElementsStep(elems, l, indent);
    ElementLinesStep(elems, depth);
    var first := Lines(elems[0], depth, [], Comma(|elems| == 1));
    PrettyIsLines(elems[0], step, depth, [], Comma(|elems| == 1));
    var s, d := Spaces(indent), Dump(elems[0], l, indent);
    if |elems| == 1 {
      ClosingText(step, depth, ']' as byte);
      assert first + [] == first && s + [] + d + [] == s + d;
      assert s + (d + ([0x0A] + Spaces(Indent(step, depth - 1)) + [']' as byte]))
          == s + d + [0x0A] + Spaces(Indent(step, depth - 1)) + [']' as byte];
    } else {
      ElementsInLines(elems[1..], step, depth);
      RenderConcat(first, ElementLines(elems[1..], depth), step);
      var r := Render(ElementLines(elems[1..], depth), step);
      Regroup(s, [], d, r, Spaces(Indent(step, depth - 1)), ']' as byte);
    }
  }

  lemma Regroup(s: Bytes, lead: Bytes, d: Bytes, r: Bytes, t: Bytes, bracket: byte)
    ensures s + lead + (d + ([',' as byte] + [0x0A] + (r + [0x0A] + t + [bracket])))
         == s + lead + d + [',' as byte] + [0x0A] + r + [0x0A] + t + [bracket]
    ensures s + [] == s
  {
  }

  lemma ElementLinesStep(elems: seq<Json>, depth: nat)
    requires elems != []
    ensures ElementLines(elems, depth) ==
            Lines(elems[0], depth, [], Comma(|elems| == 1)) + (if |elems| == 1 then [] else ElementLines(elems[1..], depth))
  {
    hide Lines;
  }

  lemma MemberLinesStep(j: Json, keys: seq<Bytes>, depth: nat)
    requires j.Obj? && keys != [] && forall k :: k in keys ==> k in j.members
    ensures keys[0] in keys
    ensures MemberLines(j, keys, depth) ==
            Lines(j.members[keys[0]], depth, Quoted(keys[0]) + [':' as byte, ' ' as byte], Comma(|keys| == 1))
            + (if |keys| == 1 then [] else MemberLines(j, keys[1..], depth))
  {
    hide Lines, Quoted;
  }

  lemma {:induction false} ObjectLines(j: Json, step: nat, depth: nat, lead: Bytes, trail: Bytes)
    requires j.Obj? && j.members != map[]
    ensures Shown(j, step, depth, lead, trail) == Render(Lines(j, depth, lead, trail), step)
    decreases j, 2
  {
    hide Indent, Spaces, DumpMembers, MemberLines, Render, Closing, Deeper, Shallower, SortedKeys;
    SomeKey(j.members);
    var keys := SortedKeys(j.members.Keys);
    var l, indent := Wide(step), Indent(step, depth);
    DeeperIndent(step, depth);
    var inner := MemberLines(j, keys, depth + 1);
    Bracketed(step, depth, lead, '{' as byte, inner, '}' as byte, trail);
    MembersInLines(j, keys, step, depth + 1);
    ObjectText(j, l, indent);
    var s, r := Spaces(indent), Render(inner, step);
    assert s + lead + (['{' as byte] + [0x0A] + (r + [0x0A] + s + ['}' as byte])) + trail
        == s + lead + ['{' as byte] + [0x0A] + r + [0x0A] + s + ['}' as byte] + trail;
  }

  lemma {:induction false} MembersInLines(j: Json, keys: seq<Bytes>, step: nat, depth: nat)
    requires j.Obj? && keys != [] && (forall k :: k in keys ==> k in j.members) && depth > 0
    ensures DumpMembers(j, keys, Wide(step), Indent(step, depth))
         == Render(MemberLines(j, keys, depth), step) + [0x0A] + Spaces(Indent(step, depth - 1)) + ['}' as byte]
    decreases j, 0, |keys|
  {
    hide Indent, Spaces, Dump, DumpMembers, Lines, MemberLines, Render, Closing, Quoted;
    var l, indent := Wide(step), Indent(step, depth);
    DumpMembersStep(j, keys, l, indent);
    MemberLinesStep(j, keys, depth);
    var v := j.members[keys[0]];
    var lead := Quoted(keys[0]) + [':' as byte, ' ' as byte];
    var first := Lines(v, depth, lead, Comma(|keys| == 1));
    PrettyIsLines(v, step, depth, lead, Comma(|keys| == 1));
    var s, d := Spaces(indent), Dump(v, l, indent);
    assert MemberStart(keys[0], l, indent) == s + lead;
    if |keys| == 1 {
      ClosingText(step, depth, '}' as byte);
      assert first + [] == first && s + lead + d + [] == s + lead + d;
      assert s + lead + (d + ([0x0A] + Spaces(Indent(step, depth - 1)) + ['}' as byte]))
          == s + lead + d + [0x0A] + Spaces(Indent(step, depth - 1)) + ['}' as byte];
    } else {
      MembersInLines(j, keys[1..], step, depth);
      RenderConcat(first, MemberLines(j, keys[1..], depth), step);
      Regroup(s, lead, d, Render(MemberLines(j, keys[1..], depth), step), Spaces(Indent(step, depth - 1)), '}' as byte);
    }
  }

  /** The public `dump`: without an indent the lexemes and nothing else; with one, a line for
      each bracket and each element, indented by that much for each level, counted in 32
      bits. */
  lemma DumpLayout(j: Json, indent: int)
    ensures DumpText(j, indent) ==
            if indent >= 0 then Render(Lines(j, 0, [], []), indent) else Joined(Yield(TreeOf(j)))
  {
    hide Dump, Lines, Render, Joined, Yield, TreeOf;
    if indent >= 0 {
      PrettyIsLines(j, indent, 0, [], []);
      NoSpaces();
      assert [] + [] + Dump(j, Wide(indent), 0) + [] == Dump(j, Wide(indent), 0);
    } else {
      CompactIsLexemes(j);
    }
  }
}
