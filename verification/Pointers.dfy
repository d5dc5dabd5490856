/** JSON Pointer text: `replace_substring`, `escape`, `unescape`, `split` and `to_string`
    of class `json_pointer`. */
module Pointers {
  import opened ByteStrings
  import opened Decimals
  import opened Results

  const SLASH: byte := '/' as byte
  const TILDE: byte := '~' as byte
  const ZERO: byte := '0' as byte
  const ONE: byte := '1' as byte

  // ---- Substitution -----------------------------------------------------------

  predicate Prefix(f: Bytes, s: Bytes) {
    |f| <= |s| && forall i :: 0 <= i < |f| ==> s[i] == f[i]
  }

  /** One left-to-right, non-overlapping substitution of `f` by `t`. */
  function ReplaceAll(s: Bytes, f: Bytes, t: Bytes): Bytes
    requires f != []
    decreases |s|
  {
    if s == [] then []
    else if Prefix(f, s) then t + ReplaceAll(s[|f|..], f, t)
    else [s[0]] + ReplaceAll(s[1..], f, t)
  }

  /** `std::string::find`; `|s|` stands for `npos`. */
  function Find(s: Bytes, f: Bytes, from: nat): (pos: nat)
    requires f != [] && from <= |s|
    ensures from <= pos <= |s|
    ensures pos < |s| ==> Prefix(f, s[pos..])
    ensures forall k :: from <= k < pos ==> !Prefix(f, s[k..])
    decreases |s| - from
  {
    if from == |s| || Prefix(f, s[from..]) then from else Find(s, f, from + 1)
  }

  lemma {:induction false} ReplaceAllSkip(s: Bytes, f: Bytes, t: Bytes, n: nat)
    requires f != [] && n <= |s|
    requires forall k :: 0 <= k < n ==> !Prefix(f, s[k..])
    ensures ReplaceAll(s, f, t) == s[..n] + ReplaceAll(s[n..], f, t)
  {
    if n > 0 {
      assert s[0..] == s;
      forall k | 0 <= k < n - 1 ensures !Prefix(f, s[1..][k..]) {
        assert s[1..][k..] == s[k+1..];
      }
      ReplaceAllSkip(s[1..], f, t, n - 1);
      assert s[1..][n-1..] == s[n..];
      assert s[..n] == [s[0]] + s[1..][..n-1];
    } else {
      assert s[0..] == s;
    }
  }

  lemma ReplaceAllHit(s: Bytes, f: Bytes, t: Bytes)
    requires f != [] && Prefix(f, s)
    ensures ReplaceAll(s, f, t) == t + ReplaceAll(s[|f|..], f, t)
  {
  }

  lemma ReplaceAllFound(s: Bytes, f: Bytes, t: Bytes, from: nat)
    requires f != [] && from <= |s|
    ensures var pos := Find(s, f, from);
            ReplaceAll(s[from..], f, t) == s[from..pos] + ReplaceAll(s[pos..], f, t)
  {
    hide ReplaceAll;
    var pos := Find(s, f, from);
    forall k | 0 <= k < pos - from ensures !Prefix(f, s[from..][k..]) {
      assert s[from..][k..] == s[from + k..];
    }
    ReplaceAllSkip(s[from..], f, t, pos - from);
    assert s[from..][..pos - from] == s[from..pos];
    assert s[from..][pos - from..] == s[pos..];
  }

  /** What one round of the loop below keeps. */
  lemma ReplaceStep(s: Bytes, f: Bytes, t: Bytes, done: nat, pos: nat, s': Bytes)
    requires f != [] && done <= |s| && pos == Find(s, f, done) < |s|
    requires s' == s[..pos] + t + s[pos + |f|..]
    ensures pos + |t| <= |s'| && |s'| - (pos + |t|) < |s| - done
    ensures s'[..pos + |t|] + ReplaceAll(s'[pos + |t|..], f, t) == s[..done] + ReplaceAll(s[done..], f, t)
  {
    hide ReplaceAll;
    var rest := s[pos + |f|..];
    ReplaceAllFound(s, f, t, done);
    ReplaceAllHit(s[pos..], f, t);
    assert s[pos..][|f|..] == rest;
    assert s'[pos + |t|..] == rest;
    assert s'[..pos + |t|] == s[..pos] + t;
    assert s[..pos] == s[..done] + s[done..pos];
  }

  /** The in-place loop of `replace_substring`. It goes on searching behind the inserted
      text, so it ends even if `t` contains `f`. */
  method ReplaceSubstring(s0: Bytes, f: Bytes, t: Bytes) returns (s: Bytes)
    requires f != []
    ensures s == ReplaceAll(s0, f, t)
  {
    hide ReplaceAll;
    s := s0;
    ghost var done: nat := 0;
    var pos := Find(s, f, 0);
    assert s[..0] == [] && s[0..] == s0;
    while pos != |s|
      invariant done <= |s| && pos == Find(s, f, done)
      invariant s[..done] + ReplaceAll(s[done..], f, t) == ReplaceAll(s0, f, t)
      decreases |s| - done
    {
      ghost var before := s;
      s := s[..pos] + t + s[pos + |f|..];
      ReplaceStep(before, f, t, done, pos, s);
      done := pos + |t|;
      pos := Find(s, f, pos + |t|);
    }
    ReplaceAllFound(s, f, t, done);
    ReplaceAllEmpty(s[|s|..], f, t);
    assert s == s[..done] + s[done..];
  }

  lemma ReplaceAllEmpty(s: Bytes, f: Bytes, t: Bytes)
    requires f != [] && s == []
    ensures ReplaceAll(s, f, t) == []
  {
  }

  // ---- Escaping ---------------------------------------------------------------

  /** `escape`: two passes, the tilde first. */
  function Escape(s: Bytes): Bytes {
    ReplaceAll(ReplaceAll(s, [TILDE], [TILDE, ZERO]), [SLASH], [TILDE, ONE])
  }

  /** `unescape`: two passes, the slash first. */
  function Unescape(s: Bytes): Bytes {
    ReplaceAll(ReplaceAll(s, [TILDE, ONE], [SLASH]), [TILDE, ZERO], [TILDE])
  }

  /** What section 3 of RFC 6901 asks for, byte by byte. */
  function EscapeByte(b: byte): Bytes {
    if b == TILDE then [TILDE, ZERO] else if b == SLASH then [TILDE, ONE] else [b]
  }

  function EscapeBytes(s: Bytes): Bytes {
    if s == [] then [] else EscapeByte(s[0]) + EscapeBytes(s[1..])
  }

  /** Every tilde is followed by `0` or `1`. */
  predicate WellEscaped(s: Bytes) {
    forall i :: 0 <= i < |s| && s[i] == TILDE ==> i + 1 < |s| && s[i+1] in {ZERO, ONE}
  }

  function UnescapeBytes(s: Bytes): Bytes
    decreases |s|
  {
    if s == [] then []
    else if s[0] == TILDE && |s| > 1 then
      [if s[1] == ONE then SLASH else TILDE] + UnescapeBytes(s[2..])
    else [s[0]] + UnescapeBytes(s[1..])
  }

  lemma ReplaceByte(b: byte, r: Bytes, c: byte, t: Bytes)
    ensures ReplaceAll([b] + r, [c], t) == (if b == c then t else [b]) + ReplaceAll(r, [c], t)
  {
    assert ([b] + r)[1..] == r;
  }

  lemma ReplacePair(b: byte, r: Bytes, c: byte, d: byte, t: Bytes)
    ensures ReplaceAll([b] + r, [c, d], t) ==
            if b == c && r != [] && r[0] == d then t + ReplaceAll(r[1..], [c, d], t)
            else [b] + ReplaceAll(r, [c, d], t)
  {
    assert ([b] + r)[1..] == r;
    assert Prefix([c, d], [b] + r) <==> b == c && r != [] && r[0] == d;
    if b == c && r != [] && r[0] == d {
      assert ([b] + r)[2..] == r[1..];
    }
  }

  lemma EscapeStep(b: byte, s: Bytes)
    ensures Escape([b] + s) == EscapeByte(b) + Escape(s)
  {
    hide ReplaceAll;
    var r := ReplaceAll(s, [TILDE], [TILDE, ZERO]);
    ReplaceByte(b, s, TILDE, [TILDE, ZERO]);
    if b == TILDE {
      assert [TILDE, ZERO] + r == [TILDE] + ([ZERO] + r);
      ReplaceByte(TILDE, [ZERO] + r, SLASH, [TILDE, ONE]);
      ReplaceByte(ZERO, r, SLASH, [TILDE, ONE]);
    } else {
      ReplaceByte(b, r, SLASH, [TILDE, ONE]);
    }
  }

  lemma {:induction false} EscapeIsBytewise(s: Bytes)
    ensures Escape(s) == EscapeBytes(s)
  {
    if s != [] {
      EscapeIsBytewise(s[1..]);
      EscapeStep(s[0], s[1..]);
      assert s == [s[0]] + s[1..];
    }
  }

  lemma UnescapeStep(b: byte, s: Bytes)
    requires b != TILDE
    ensures Unescape([b] + s) == [b] + Unescape(s)
  {
    hide ReplaceAll;
    ReplacePair(b, s, TILDE, ONE, [SLASH]);
    ReplacePair(b, ReplaceAll(s, [TILDE, ONE], [SLASH]), TILDE, ZERO, [TILDE]);
  }

  lemma UnescapePair(d: byte, s: Bytes)
    requires d in {ZERO, ONE}
    ensures Unescape([TILDE] + ([d] + s)) == [if d == ONE then SLASH else TILDE] + Unescape(s)
  {
    hide ReplaceAll;
    var r := ReplaceAll(s, [TILDE, ONE], [SLASH]);
    ReplacePair(TILDE, [d] + s, TILDE, ONE, [SLASH]);
    assert ([d] + s)[1..] == s;
    if d == ONE {
      ReplacePair(SLASH, r, TILDE, ZERO, [TILDE]);
    } else {
      ReplacePair(ZERO, s, TILDE, ONE, [SLASH]);
      ReplacePair(TILDE, [ZERO] + r, TILDE, ZERO, [TILDE]);
      assert ([ZERO] + r)[1..] == r;
    }
  }

  lemma {:induction false} UnescapeIsBytewise(s: Bytes)
    requires WellEscaped(s)
    ensures Unescape(s) == UnescapeBytes(s)
    decreases |s|
  {
    if s == [] {
    } else if s[0] == TILDE {
      UnescapeIsBytewise(s[2..]);
      UnescapePair(s[1], s[2..]);
      assert s == [TILDE] + ([s[1]] + s[2..]);
    } else {
      UnescapeIsBytewise(s[1..]);
      UnescapeStep(s[0], s[1..]);
      assert s == [s[0]] + s[1..];
    }
  }

  lemma {:induction false} EscapedText(s: Bytes)
    ensures WellEscaped(EscapeBytes(s)) && SLASH !in EscapeBytes(s)
    ensures UnescapeBytes(EscapeBytes(s)) == s
  {
    if s != [] {
      EscapedText(s[1..]);
      var e := EscapeByte(s[0]);
      assert (e + EscapeBytes(s[1..]))[|e|..] == EscapeBytes(s[1..]);
    }
  }

  lemma {:induction false} UnescapedText(s: Bytes)
    requires WellEscaped(s) && SLASH !in s
    ensures EscapeBytes(UnescapeBytes(s)) == s
    decreases |s|
  {
    if s != [] {
      var n := if s[0] == TILDE then 2 else 1;
      UnescapedText(s[n..]);
      var u := UnescapeBytes(s);
      assert u[1..] == UnescapeBytes(s[n..]);
      assert s == s[..n] + s[n..];
    }
  }

  /** `unescape(escape(s)) == s` for every string, and the other way round for every text
      that may stand between two slashes of a pointer. */
  lemma EscapeRoundTrip(s: Bytes)
    ensures WellEscaped(Escape(s)) && SLASH !in Escape(s)
    ensures Unescape(Escape(s)) == s
    ensures WellEscaped(s) && SLASH !in s ==> Escape(Unescape(s)) == s
  {
    EscapeIsBytewise(s);
    EscapedText(s);
    UnescapeIsBytewise(EscapeBytes(s));
    if WellEscaped(s) && SLASH !in s {
      UnescapeIsBytewise(s);
      UnescapedText(s);
      EscapeIsBytewise(UnescapeBytes(s));
    }
  }

  lemma {:induction false} EscapeDigits(s: Bytes)
    requires AllDigits(s)
    ensures EscapeBytes(s) == s
  {
    if s != [] {
      assert IsDigit(s[0]);
      EscapeDigits(s[1..]);
    }
  }

  lemma EscapeIndex(i: nat)
    ensures Escape(ToString(i)) == ToString(i)
  {
    ToStringCanonical(i);
    EscapeDigits(ToString(i));
    EscapeIsBytewise(ToString(i));
  }

  // ---- Pointers ---------------------------------------------------------------

  /** Position of the first slash, or `|s|`. */
  function SlashAt(s: Bytes, from: nat): (pos: nat)
    requires from <= |s|
    ensures from <= pos <= |s|
    ensures pos < |s| ==> s[pos] == SLASH
    ensures forall k :: from <= k < pos ==> s[k] != SLASH
    decreases |s| - from
  {
    if from == |s| || s[from] == SLASH then from else SlashAt(s, from + 1)
  }

  /** The texts between slashes, from position `from` on, unescaped. */
  function Tokens(s: Bytes, from: nat): Result<seq<Bytes>>
    requires from <= |s|
    decreases |s| - from
  {
    var slash := SlashAt(s, from);
    if !WellEscaped(s[from..slash]) then Err(DomainError)
    else if slash == |s| then Ok([Unescape(s[from..slash])])
    else
      var rest :- Tokens(s, slash + 1);
      Ok([Unescape(s[from..slash])] + rest)
  }

  /** `split`, and so the constructor of `json_pointer`. */
  function Split(s: Bytes): Result<seq<Bytes>> {
    if s == [] then Ok([])
    else if s[0] != SLASH then Err(DomainError)
    else Tokens(s, 1)
  }

  /** `to_string`. */
  function ToText(tokens: seq<Bytes>): Bytes {
    if tokens == [] then []
    else ToText(tokens[..|tokens|-1]) + [SLASH] + Escape(tokens[|tokens|-1])
  }

  lemma {:induction false} ToTextConcat(a: seq<Bytes>, b: seq<Bytes>)
    ensures ToText(a + b) == ToText(a) + ToText(b)
  {
    hide Escape, ToText;
    if b == [] {
      ToTextEmpty();
      assert a + b == a;
    } else {
      var front := b[..|b|-1];
      ToTextConcat(a, front);
      ToTextSnoc(front, b[|b|-1]);
      ToTextSnoc(a + front, b[|b|-1]);
      assert b == front + [b[|b|-1]] && a + b == a + front + [b[|b|-1]];
    }
  }

  lemma ToTextSnoc(front: seq<Bytes>, last: Bytes)
    ensures ToText(front + [last]) == ToText(front) + ([SLASH] + Escape(last))
  {
    hide Escape;
    assert (front + [last])[..|front|] == front;
  }

  lemma ToTextEmpty()
    ensures ToText([]) == []
  {
  }

  lemma ToTextCons(t: Bytes, rest: seq<Bytes>)
    ensures ToText([t] + rest) == [SLASH] + Escape(t) + ToText(rest)
  {
    ToTextConcat([t], rest);
    assert [t][..0] == [];
  }

  lemma PieceEnd(s: Bytes, from: nat, e: Bytes, r: Bytes)
    requires 0 < from <= |s| && s[from - 1..] == [SLASH] + e + r
    requires SLASH !in e
    requires r == [] || r[0] == SLASH
    ensures SlashAt(s, from) == from + |e| <= |s|
    ensures s[from..from + |e|] == e && s[from + |e|..] == r
  {
    var tail := s[from - 1..];
    assert forall i :: 0 <= i < |tail| ==> tail[i] == s[from - 1 + i];
    assert forall i :: 0 <= i < |e| ==> tail[1 + i] == e[i] == s[from + i];
    assert forall i :: 0 <= i < |r| ==> tail[1 + |e| + i] == r[i] == s[from + |e| + i];
  }

  lemma {:induction false} TokensOfText(s: Bytes, from: nat, tokens: seq<Bytes>)
    requires 0 < from <= |s| && tokens != []
    requires s[from - 1..] == ToText(tokens)
    ensures Tokens(s, from) == Ok(tokens)
    decreases |tokens|
  {
    hide Escape, Unescape;
    var t, rest := tokens[0], tokens[1..];
    var e := Escape(t);
    assert tokens == [t] + rest;
    ToTextCons(t, rest);
    EscapeRoundTrip(t);
    if rest != [] {
      assert rest == [rest[0]] + rest[1..];
      ToTextCons(rest[0], rest[1..]);
    }
    PieceEnd(s, from, e, ToText(rest));
    if rest != [] {
      TokensOfText(s, from + |e| + 1, rest);
    } else {
      assert |s[from + |e|..]| == |ToText(rest)| == 0;
      assert tokens == [t];
    }
  }

  /** `split(to_string(tokens)) == tokens`, whatever the tokens contain. */
  lemma SplitOfText(tokens: seq<Bytes>)
    ensures Split(ToText(tokens)) == Ok(tokens)
  {
    if tokens != [] {
      ToTextCons(tokens[0], tokens[1..]);
      assert tokens == [tokens[0]] + tokens[1..];
      assert ToText(tokens)[0..] == ToText(tokens);
      TokensOfText(ToText(tokens), 1, tokens);
    }
  }

  lemma ToTextInjective(a: seq<Bytes>, b: seq<Bytes>)
    requires ToText(a) == ToText(b)
    ensures a == b
  {
    SplitOfText(a);
    SplitOfText(b);
  }

  lemma WellEscapedParts(a: Bytes, b: Bytes)
    ensures WellEscaped(a + [SLASH] + b) <==> WellEscaped(a) && WellEscaped(b)
  {
    var s := a + [SLASH] + b;
    assert forall i :: 0 <= i < |a| ==> s[i] == a[i];
    assert forall i :: 0 <= i < |b| ==> s[|a| + 1 + i] == b[i];
    if WellEscaped(s) {
      forall i {:trigger a[i]} | 0 <= i < |a| && a[i] == TILDE ensures i + 1 < |a| && a[i+1] in {ZERO, ONE} {
        assert s[i] == TILDE && s[|a|] == SLASH;
        assert s[i+1] in {ZERO, ONE};
      }
      forall i {:trigger b[i]} | 0 <= i < |b| && b[i] == TILDE ensures i + 1 < |b| && b[i+1] in {ZERO, ONE} {
        assert s[|a| + 1 + i] == TILDE;
      }
    }
    if WellEscaped(a) && WellEscaped(b) {
      forall i {:trigger s[i]} | 0 <= i < |s| && s[i] == TILDE ensures i + 1 < |s| && s[i+1] in {ZERO, ONE} {
        if i < |a| { assert a[i] == TILDE; } else { assert b[i - |a| - 1] == TILDE; }
      }
    }
  }

  lemma {:induction false} TextOfTokens(s: Bytes, from: nat)
    requires 0 < from <= |s| && s[from - 1] == SLASH
    ensures Tokens(s, from).Ok? <==> WellEscaped(s[from..])
    ensures Tokens(s, from).Ok? ==> ToText(Tokens(s, from).value) == s[from - 1..]
    decreases |s| - from
  {
    hide Escape, Unescape, ToText, WellEscaped, Tokens, SlashAt;
    var slash := SlashAt(s, from);
    var piece := s[from..slash];
    assert SLASH !in piece;
    EscapeRoundTrip(piece);
    if slash < |s| {
      TokensStep(s, from);
      TextOfTokens(s, slash + 1);
      WellEscapedParts(piece, s[slash + 1..]);
      assert s[from..] == piece + [SLASH] + s[slash + 1..];
      if Tokens(s, from).Ok? {
        var rest := Tokens(s, slash + 1).value;
        ToTextCons(Unescape(piece), rest);
        assert s[from - 1..] == [SLASH] + piece + s[slash..];
      }
    } else {
      LastPiece(s, from);
    }
  }

  lemma TokensStep(s: Bytes, from: nat)
    requires from <= |s| && SlashAt(s, from) < |s|
    ensures var slash := SlashAt(s, from);
            Tokens(s, from) ==
            if !WellEscaped(s[from..slash]) then Err(DomainError) else
            var rest :- Tokens(s, slash + 1);
            Ok([Unescape(s[from..slash])] + rest)
  {
    hide Unescape, WellEscaped, SlashAt;
  }

  lemma LastPiece(s: Bytes, from: nat)
    requires 0 < from <= |s| && s[from - 1] == SLASH && SlashAt(s, from) == |s|
    ensures Tokens(s, from).Ok? <==> WellEscaped(s[from..])
    ensures Tokens(s, from).Ok? ==> ToText(Tokens(s, from).value) == s[from - 1..]
  {
    hide Escape, Unescape, ToText, WellEscaped;
    var piece := s[from..];
    assert s[from..|s|] == piece;
    assert SLASH !in piece;
    EscapeRoundTrip(piece);
    ToTextCons(Unescape(piece), []);
    ToTextEmpty();
    assert [Unescape(piece)] + [] == [Unescape(piece)];
    assert s[from - 1..] == [SLASH] + piece;
  }

  /** `split` accepts exactly the texts that section 3 of RFC 6901 allows, and
      `json_pointer(s).to_string()` is then `s` again. */
  lemma TextOfSplit(s: Bytes)
    ensures Split(s).Ok? <==> s == [] || (s[0] == SLASH && WellEscaped(s))
    ensures Split(s).Ok? ==> ToText(Split(s).value) == s
  {
    if s != [] && s[0] == SLASH {
      TextOfTokens(s, 1);
      WellEscapedParts([], s[1..]);
      assert s == [] + [SLASH] + s[1..] && s[0..] == s;
    }
  }

  function Behind(front: seq<Bytes>, r: Result<seq<Bytes>>): Result<seq<Bytes>> {
    if r.Ok? then Ok(front + r.value) else r
  }

  lemma BehindMore(front: seq<Bytes>, token: Bytes, r: Result<seq<Bytes>>)
    ensures Behind(front, Behind([token], r)) == Behind(front + [token], r)
    ensures Behind([], r) == r
  {
    if r.Ok? {
      assert front + ([token] + r.value) == front + [token] + r.value;
      assert [] + r.value == r.value;
    }
  }

  /** The inner loop of `split`: every tilde has to be followed by `0` or `1`. */
  method CheckTildes(token: Bytes) returns (ok: bool)
    ensures ok == WellEscaped(token)
  {
    var pos := 0;
    while pos < |token|
      invariant 0 <= pos <= |token|
      invariant forall i :: 0 <= i < pos && token[i] == TILDE ==> i + 1 < |token| && token[i+1] in {ZERO, ONE}
    {
      if token[pos] == TILDE {
        if pos == |token| - 1 || (token[pos + 1] != ZERO && token[pos + 1] != ONE) {
          return false;
        }
      }
      pos := pos + 1;
    }
    return true;
  }

  /** `split` as the loop it is: `start` and `slash` delimit the current token. `|s|` stands for `npos`. */
  method SplitText(s: Bytes) returns (r: Result<seq<Bytes>>)
    ensures r == Split(s)
  {
    hide ReplaceAll, WellEscaped;
    if s == [] {
      return Ok([]);
    }
    if s[0] != SLASH {
      return Err(DomainError);
    }
    var result: seq<Bytes> := [];
    var start := 1;
    var slash := SlashAt(s, 1);
    BehindMore([], [], Tokens(s, 1));
    while true
      invariant 1 <= start <= |s| && slash == SlashAt(s, start)
      invariant Split(s) == Behind(result, Tokens(s, start))
      decreases |s| - start
    {
      var token := s[start..slash];
      var ok := CheckTildes(token);
      if !ok {
        return Err(DomainError);
      }
      var unslashed := ReplaceSubstring(token, [TILDE, ONE], [SLASH]);
      var unescaped := ReplaceSubstring(unslashed, [TILDE, ZERO], [TILDE]);
      if slash < |s| { BehindMore(result, unescaped, Tokens(s, slash + 1)); }
      result := result + [unescaped];
      if slash == |s| {
        return Ok(result);
      }
      start := slash + 1;
      slash := SlashAt(s, start);
    }
  }
}
