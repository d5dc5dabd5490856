/** `operator<` on JSON values: which of the usual laws of an order it has, and for which
    values. */
module Orderings {
  import opened ByteStrings
  import opened Values

  const INT64_MAX: nat := 0x7FFF_FFFF_FFFF_FFFF

  /** The answers of `a < b` and of `b < a`. A lexicographic comparison of containers asks both
      questions of every pair of elements. */
  datatype Verdict = Verdict(less: bool, greater: bool)

  /** The order of the types: null, boolean, number, object, array, string. */
  function Rank(j: Json): nat {
    match j
    case Null => 0
    case Bool(_) => 1
    case Int(_) => 2
    case UInt(_) => 2
    case Obj(_) => 3
    case Arr(_) => 4
    case Str(_) => 5
  }

  function ByNumber(x: int, y: int): Verdict {
    Verdict(x < y, y < x)
  }

  function ByKey(k: Bytes, l: Bytes): Verdict {
    Verdict(Less(k, l), Less(l, k))
  }

  /** Lexicographic: `w` counts if `v` decides nothing. */
  function Then(v: Verdict, w: Verdict): Verdict {
    Verdict(v.less || (!v.greater && w.less), v.greater || (!v.less && w.greater))
  }

  function Compare(a: Json, b: Json): Verdict
    decreases a, 1
  {
    match (a, b)
    case (Null, Null) => Verdict(false, false)
    case (Bool(x), Bool(y)) => Verdict(!x && y, !y && x)
    case (Int(x), Int(y)) => ByNumber(x as int, y as int)
    case (UInt(x), UInt(y)) => ByNumber(x as int, y as int)
    case (Int(x), UInt(y)) => ByNumber(x as int, ToSigned(y) as int)
    case (UInt(x), Int(y)) => ByNumber(ToSigned(x) as int, y as int)
    case (Str(x), Str(y)) => ByKey(x, y)
    case (Arr(x), Arr(y)) => CompareElements(x, y)
    case (Obj(x), Obj(y)) => CompareItems(a, SortedKeys(x.Keys), b, SortedKeys(y.Keys))
    case _ => ByNumber(Rank(a), Rank(b))
  }

  /** `operator<` of `std::vector`. */
  function CompareElements(x: seq<Json>, y: seq<Json>): Verdict
    decreases x, 0
  {
    if x == [] || y == [] then ByNumber(|x|, |y|)
    else Then(Compare(x[0], y[0]), CompareElements(x[1..], y[1..]))
  }

  /** `operator<` of `std::map`: of the sequences of pairs in key order. */
  function CompareItems(a: Json, ks: seq<Bytes>, b: Json, ls: seq<Bytes>): Verdict
    requires a.Obj? && forall k :: k in ks ==> k in a.members
    requires b.Obj? && forall l :: l in ls ==> l in b.members
    decreases a, 0, |ks|
  {
    if ks == [] || ls == [] then ByNumber(|ks|, |ls|) else
    assert ks[0] in ks && ls[0] in ls;
    Then(Then(ByKey(ks[0], ls[0]), Compare(a.members[ks[0]], b.members[ls[0]])),
         CompareItems(a, ks[1..], b, ls[1..]))
  }

  /** `operator<`. */
  predicate Before(a: Json, b: Json) {
    Compare(a, b).less
  }

  // ---- Both directions agree ------------------------------------------------------

  function Swapped(v: Verdict): Verdict {
    Verdict(v.greater, v.less)
  }

  lemma {:induction false} CompareSwapped(a: Json, b: Json)
    ensures Compare(b, a) == Swapped(Compare(a, b))
    decreases a, 1
  {
    match (a, b)
    case (Arr(x), Arr(y)) => ElementsSwapped(x, y);
    case (Obj(x), Obj(y)) => ItemsSwapped(a, SortedKeys(x.Keys), b, SortedKeys(y.Keys));
    case _ =>
  }

  lemma {:induction false} ElementsSwapped(x: seq<Json>, y: seq<Json>)
    ensures CompareElements(y, x) == Swapped(CompareElements(x, y))
    decreases x, 0
  {
    hide Compare;
    if x != [] && y != [] {
      CompareSwapped(x[0], y[0]);
      ElementsSwapped(x[1..], y[1..]);
    }
  }

  lemma {:induction false} ItemsSwapped(a: Json, ks: seq<Bytes>, b: Json, ls: seq<Bytes>)
    requires a.Obj? && forall k :: k in ks ==> k in a.members
    requires b.Obj? && forall l :: l in ls ==> l in b.members
    ensures CompareItems(b, ls, a, ks) == Swapped(CompareItems(a, ks, b, ls))
    decreases a, 0, |ks|
  {
    hide Compare, Less;
    if ks != [] && ls != [] {
      assert ks[0] in ks && ls[0] in ls;
      CompareSwapped(a.members[ks[0]], b.members[ls[0]]);
      ItemsSwapped(a, ks[1..], b, ls[1..]);
    }
  }

  // ---- Exactly one of less, equal and greater ---------------------------------------

  /** Not both, and neither exactly if `equal`. */
  predicate Decides(v: Verdict, equal: bool) {
    !(v.less && v.greater) && (equal <==> !v.less && !v.greater)
  }

  lemma LeavesDecide(a: Json, b: Json)
    requires !(a.Arr? && b.Arr?) && !(a.Obj? && b.Obj?)
    ensures Decides(Compare(a, b), Eq(a, b))
  {
    hide Less, CompareElements, CompareItems;
    if a.Str? && b.Str? { LessTotal(a.s, b.s); }
  }

  lemma {:induction false} ObjectsDecide(a: Json, b: Json)
    requires a.Obj? && b.Obj?
    ensures Decides(Compare(a, b), Eq(a, b))
    decreases a, 1
  {
    hide CompareItems, SortedKeys, Eq;
    ItemsDecide(a, SortedKeys(a.members.Keys), b, SortedKeys(b.members.Keys));
    EqObjects(a, b);
  }

  lemma EqObjects(a: Json, b: Json)
    requires a.Obj? && b.Obj?
    ensures EqItems(a, SortedKeys(a.members.Keys), b, SortedKeys(b.members.Keys)) <==> Eq(a, b)
  {
    hide SortedKeys;
    var ks, ls := SortedKeys(a.members.Keys), SortedKeys(b.members.Keys);
    if ks == ls { assert forall k :: k in a.members.Keys <==> k in ks; }
  }

  lemma {:induction false} CompareDecides(a: Json, b: Json)
    ensures Decides(Compare(a, b), Eq(a, b))
    decreases a, 2
  {
    hide Eq, CompareElements;
    if a.Arr? && b.Arr? {
      ElementsDecide(a.elems, b.elems);
    } else if a.Obj? && b.Obj? {
      ObjectsDecide(a, b);
    } else {
      LeavesDecide(a, b);
    }
  }

  lemma {:induction false} ElementsDecide(x: seq<Json>, y: seq<Json>)
    ensures Decides(CompareElements(x, y), Eq(Arr(x), Arr(y)))
    decreases x, 0
  {
    if x != [] && y != [] {
      CompareDecides(x[0], y[0]);
      ElementsDecide(x[1..], y[1..]);
      EqArrays(x, y);
    }
  }

  lemma EqArrays(x: seq<Json>, y: seq<Json>)
    requires x != [] && y != []
    ensures Eq(Arr(x), Arr(y)) <==> Eq(x[0], y[0]) && Eq(Arr(x[1..]), Arr(y[1..]))
  {
    if Eq(x[0], y[0]) && Eq(Arr(x[1..]), Arr(y[1..])) {
      forall i | 0 <= i < |x| ensures Eq(x[i], y[i]) {
        if i > 0 { assert Eq(x[1..][i - 1], y[1..][i - 1]); }
      }
    }
    if Eq(Arr(x), Arr(y)) {
      forall i | 0 <= i < |x| - 1 ensures Eq(x[1..][i], y[1..][i]) {
        assert Eq(x[i + 1], y[i + 1]);
      }
    }
  }

  predicate EqItems(a: Json, ks: seq<Bytes>, b: Json, ls: seq<Bytes>)
    requires a.Obj? && forall k :: k in ks ==> k in a.members
    requires b.Obj? && forall l :: l in ls ==> l in b.members
  {
    ks == ls && forall k :: k in ks ==> Eq(a.members[k], b.members[k])
  }

  lemma {:induction false} ItemsDecide(a: Json, ks: seq<Bytes>, b: Json, ls: seq<Bytes>)
    requires a.Obj? && forall k :: k in ks ==> k in a.members
    requires b.Obj? && forall l :: l in ls ==> l in b.members
    ensures Decides(CompareItems(a, ks, b, ls), EqItems(a, ks, b, ls))
    decreases a, 0, |ks|
  {
    hide Compare, Less, Eq;
    if ks != [] && ls != [] {
      assert ks == [ks[0]] + ks[1..] && ls == [ls[0]] + ls[1..];
      LessTotal(ks[0], ls[0]);
      CompareDecides(a.members[ks[0]], b.members[ls[0]]);
      ItemsDecide(a, ks[1..], b, ls[1..]);
      assert EqItems(a, ks, b, ls) <==>
             ks[0] == ls[0] && Eq(a.members[ks[0]], b.members[ls[0]]) && EqItems(a, ks[1..], b, ls[1..]);
    }
  }

  /** For all values, exactly one of `a < b`, `a == b` and `b < a` holds. */
  lemma Trichotomy(a: Json, b: Json)
    ensures Before(a, b) || Eq(a, b) || Before(b, a)
    ensures !(Before(a, b) && Eq(a, b)) && !(Before(a, b) && Before(b, a)) && !(Eq(a, b) && Before(b, a))
  {
    hide Compare, Eq;
    CompareDecides(a, b);
    CompareSwapped(a, b);
  }

  /** The order of the types. */
  lemma TypeOrder(n: Json, b: Json, i: Json, o: Json, a: Json, s: Json)
    requires n.Null? && b.Bool? && (i.Int? || i.UInt?) && o.Obj? && a.Arr? && s.Str?
    ensures Before(n, b) && Before(b, i) && Before(i, o) && Before(o, a) && Before(a, s)
  {
  }

  /** `y` is greater than `x` at position `n`, or `x` ends there, and they agree up to `n`. */
  ghost predicate LessAt(x: seq<Json>, y: seq<Json>, n: nat) {
    && n <= |x| && n < |y| && (n == |x| || Before(x[n], y[n]))
    && forall i :: 0 <= i < n ==> Eq(x[i], y[i])
  }

  /** The comparison of arrays, which never asks for equality, is lexicographic: the first
      pair of elements that are not equal decides. */
  lemma {:induction false} ArraysLexicographic(x: seq<Json>, y: seq<Json>)
    ensures Before(Arr(x), Arr(y)) <==> exists n: nat :: LessAt(x, y, n)
  {
    hide Compare, Eq;
    ArrayVerdict(x, y);
    if x == [] || y == [] {
      assert y != [] ==> LessAt(x, y, 0);
    } else {
      CompareDecides(x[0], y[0]);
      ArraysLexicographic(x[1..], y[1..]);
      ArrayVerdict(x[1..], y[1..]);
      if n: nat :| LessAt(x[1..], y[1..], n) && Eq(x[0], y[0]) {
        LessLater(x, y, n);
      }
      if n: nat :| LessAt(x, y, n) && n > 0 {
        LessEarlier(x, y, n);
      }
      assert Before(x[0], y[0]) ==> LessAt(x, y, 0);
    }
  }

  lemma ArrayVerdict(x: seq<Json>, y: seq<Json>)
    ensures Compare(Arr(x), Arr(y)) == CompareElements(x, y)
  {
  }

  lemma LessLater(x: seq<Json>, y: seq<Json>, n: nat)
    requires x != [] && y != [] && Eq(x[0], y[0]) && LessAt(x[1..], y[1..], n)
    ensures LessAt(x, y, n + 1)
  {
    hide Compare, Eq;
    forall i | 0 <= i < n + 1 ensures Eq(x[i], y[i]) {
      if i > 0 { assert Eq(x[1..][i - 1], y[1..][i - 1]); }
    }
  }

  lemma LessEarlier(x: seq<Json>, y: seq<Json>, n: nat)
    requires x != [] && y != [] && n > 0 && LessAt(x, y, n)
    ensures Eq(x[0], y[0]) && LessAt(x[1..], y[1..], n - 1)
  {
    hide Compare, Eq;
  }

  /** `x` is a proper prefix of `y`, or smaller in the byte in which they first differ. */
  ghost predicate BytesLess(x: Bytes, y: Bytes) {
    x < y || exists n :: FirstDifference(x, y, n) && x[n] < y[n]
  }

  predicate FirstDifference(x: Bytes, y: Bytes, n: int) {
    0 <= n < |x| && n < |y| && x[..n] == y[..n] && x[n] != y[n]
  }

  lemma {:induction false} LessIsLexicographic(x: Bytes, y: Bytes)
    ensures Less(x, y) <==> BytesLess(x, y)
  {
    if x != [] && y != [] {
      var x', y' := x[1..], y[1..];
      LessIsLexicographic(x', y');
      if x[0] == y[0] {
        SameFirst(x, y);
      } else {
        assert x[..0] == y[..0] && FirstDifference(x, y, 0);
        DifferentFirst(x, y);
      }
    }
  }

  lemma SameFirst(x: Bytes, y: Bytes)
    requires x != [] && y != [] && x[0] == y[0]
    ensures BytesLess(x, y) <==> BytesLess(x[1..], y[1..])
  {
    assert x == [x[0]] + x[1..] && y == [y[0]] + y[1..];
    if BytesLess(x, y) && !(x < y) {
      var n :| FirstDifference(x, y, n) && x[n] < y[n];
      assert x[1..][..n - 1] == x[..n][1..] && y[1..][..n - 1] == y[..n][1..];
      assert FirstDifference(x[1..], y[1..], n - 1);
    }
    if BytesLess(x[1..], y[1..]) && !(x[1..] < y[1..]) {
      var n :| FirstDifference(x[1..], y[1..], n) && x[1..][n] < y[1..][n];
      assert x[..n + 1] == [x[0]] + x[1..][..n] && y[..n + 1] == [y[0]] + y[1..][..n];
      assert FirstDifference(x, y, n + 1);
    }
  }

  lemma DifferentFirst(x: Bytes, y: Bytes)
    requires x != [] && y != [] && x[0] != y[0]
    ensures BytesLess(x, y) <==> x[0] < y[0]
  {
    assert x[..0] == y[..0] && FirstDifference(x, y, 0);
    forall n | FirstDifference(x, y, n) ensures n == 0 || x[0] == y[0] {
      if n > 0 { FirstAgrees(x, y, n); }
    }
  }

  lemma FirstAgrees(x: Bytes, y: Bytes, n: int)
    requires n > 0 && FirstDifference(x, y, n)
    ensures x[0] == y[0]
  {
    assert x[..n][0] == x[0] && y[..n][0] == y[0];
  }

  /** Strings compare as unsigned bytes, the first difference or else the length deciding;
      false comes before true. */
  lemma ScalarOrder(x: Bytes, y: Bytes)
    ensures Before(Str(x), Str(y)) <==> BytesLess(x, y)
    ensures Before(Bool(false), Bool(true)) && !Before(Bool(true), Bool(false))
  {
    LessIsLexicographic(x, y);
  }

  /** A number as the comparison sees it next to a signed one. */
  function SeenSigned(j: Json): int
    requires j.Int? || j.UInt?
  {
    if j.Int? then j.i as int
    else if j.u as int <= INT64_MAX then j.u as int
    else j.u as int - 0x1_0000_0000_0000_0000
  }

  /** Numbers of the same type compare by value; of different types, an unsigned one that no
      signed one can hold counts as the negative number with the same bits. */
  lemma NumberOrder(a: Json, b: Json)
    requires (a.Int? || a.UInt?) && (b.Int? || b.UInt?)
    ensures Before(a, b) <==>
            if a.UInt? && b.UInt? then a.u < b.u else SeenSigned(a) < SeenSigned(b)
  {
  }

  /** The pair at position `n` of `x` comes before that of `y`, or `x` ends there, and the
      pairs in front of it are equal, keys and values. */
  ghost predicate LessPairAt(a: Json, b: Json, ks: seq<Bytes>, ls: seq<Bytes>, n: nat)
    requires a.Obj? && b.Obj? && (forall k :: k in ks ==> k in a.members) && forall l :: l in ls ==> l in b.members
  {
    && n <= |ks| && n < |ls| && ks[..n] == ls[..n]
    && (forall i :: 0 <= i < n ==> ks[i] in a.members && ks[i] in b.members && Eq(a.members[ks[i]], b.members[ks[i]]))
    && (|| n == |ks|
        || BytesLess(ks[n], ls[n])
        || (ks[n] == ls[n] && Before(a.members[ks[n]], b.members[ls[n]])))
  }

  lemma {:induction false} ItemsLexicographic(a: Json, ks: seq<Bytes>, b: Json, ls: seq<Bytes>)
    requires a.Obj? && forall k :: k in ks ==> k in a.members
    requires b.Obj? && forall l :: l in ls ==> l in b.members
    ensures CompareItems(a, ks, b, ls).less <==> exists n: nat :: LessPairAt(a, b, ks, ls, n)
    decreases |ks|
  {
    hide Compare, Eq, Less, BytesLess;
    if ks == [] || ls == [] {
      assert ls != [] ==> LessPairAt(a, b, ks, ls, 0);
    } else {
      assert ks[0] in ks && ls[0] in ls;
      FirstPair(a, ks, b, ls);
      ItemsLexicographic(a, ks[1..], b, ls[1..]);
      if n: nat :| LessPairAt(a, b, ks[1..], ls[1..], n) && ks[0] == ls[0] && Eq(a.members[ks[0]], b.members[ks[0]]) {
        LaterPair(a, ks, b, ls, n);
      }
      if n: nat :| LessPairAt(a, b, ks, ls, n) && n > 0 {
        EarlierPair(a, ks, b, ls, n);
      }
      assert BytesLess(ks[0], ls[0]) || (ks[0] == ls[0] && Before(a.members[ks[0]], b.members[ls[0]]))
             ==> LessPairAt(a, b, ks, ls, 0);
    }
  }

  /** What the first pairs say. */
  lemma FirstPair(a: Json, ks: seq<Bytes>, b: Json, ls: seq<Bytes>)
    requires a.Obj? && ks != [] && forall k :: k in ks ==> k in a.members
    requires b.Obj? && ls != [] && forall l :: l in ls ==> l in b.members
    ensures ks[0] in ks && ls[0] in ls
    ensures var first := BytesLess(ks[0], ls[0]) || (ks[0] == ls[0] && Before(a.members[ks[0]], b.members[ls[0]]));
            var same := ks[0] == ls[0] && Eq(a.members[ks[0]], b.members[ls[0]]);
            && !(first && same)
            && (CompareItems(a, ks, b, ls).less <==> first || (same && CompareItems(a, ks[1..], b, ls[1..]).less))
  {
    hide Compare, Eq, Less, BytesLess;
    assert ks[0] in ks && ls[0] in ls;
    LessIsLexicographic(ks[0], ls[0]);
    LessTotal(ks[0], ls[0]);
    CompareDecides(a.members[ks[0]], b.members[ls[0]]);
  }

  lemma LaterPair(a: Json, ks: seq<Bytes>, b: Json, ls: seq<Bytes>, n: nat)
    requires a.Obj? && ks != [] && forall k :: k in ks ==> k in a.members
    requires b.Obj? && ls != [] && forall l :: l in ls ==> l in b.members
    requires ks[0] == ls[0] && ks[0] in a.members && ks[0] in b.members && Eq(a.members[ks[0]], b.members[ks[0]])
    requires LessPairAt(a, b, ks[1..], ls[1..], n)
    ensures LessPairAt(a, b, ks, ls, n + 1)
  {
    hide Compare, Eq, Less, BytesLess;
    assert ks[..n + 1] == [ks[0]] + ks[1..][..n] && ls[..n + 1] == [ls[0]] + ls[1..][..n];
    forall i | 0 <= i < n + 1
      ensures ks[i] in a.members && ks[i] in b.members && Eq(a.members[ks[i]], b.members[ks[i]])
    {
      if i > 0 { assert ks[i] == ks[1..][i - 1]; }
    }
  }

  lemma EarlierPair(a: Json, ks: seq<Bytes>, b: Json, ls: seq<Bytes>, n: nat)
    requires a.Obj? && ks != [] && forall k :: k in ks ==> k in a.members
    requires b.Obj? && ls != [] && forall l :: l in ls ==> l in b.members
    requires n > 0 && LessPairAt(a, b, ks, ls, n)
    ensures ks[0] == ls[0] && ks[0] in a.members && ks[0] in b.members && Eq(a.members[ks[0]], b.members[ks[0]])
    ensures LessPairAt(a, b, ks[1..], ls[1..], n - 1)
  {
    hide Compare, Eq, Less, BytesLess;
    assert ks[..n][0] == ks[0] && ls[..n][0] == ls[0];
    assert ks[1..][..n - 1] == ks[..n][1..] && ls[1..][..n - 1] == ls[..n][1..];
  }

  /** Objects compare by their pairs in key order: the first pair that differs decides, its key
      before its value, or else the number of pairs. */
  lemma ObjectsLexicographic(a: Json, b: Json)
    requires a.Obj? && b.Obj?
    ensures Before(a, b) <==>
            exists n: nat :: LessPairAt(a, b, SortedKeys(a.members.Keys), SortedKeys(b.members.Keys), n)
  {
    hide SortedKeys, CompareItems, LessPairAt;
    assert Compare(a, b) == CompareItems(a, SortedKeys(a.members.Keys), b, SortedKeys(b.members.Keys));
    ItemsLexicographic(a, SortedKeys(a.members.Keys), b, SortedKeys(b.members.Keys));
  }

  // ---- Transitivity -----------------------------------------------------------------

  /** How the comparison of `a` and `c` follows from those with some `b` between them. */
  predicate Composes(ab: Verdict, bc: Verdict, ac: Verdict) {
    !ab.greater && !bc.greater ==> !ac.greater && (ac.less <==> ab.less || bc.less)
  }

  predicate Exclusive(v: Verdict) {
    !(v.less && v.greater)
  }

  lemma ThenComposes(ab: Verdict, bc: Verdict, ac: Verdict, ab': Verdict, bc': Verdict, ac': Verdict)
    requires Composes(ab, bc, ac) && Composes(ab', bc', ac')
    requires Exclusive(ab) && Exclusive(bc)
    ensures Composes(Then(ab, ab'), Then(bc, bc'), Then(ac, ac'))
  {
  }

  /** All unsigned integers in `j` are at most `max`. */
  predicate UpTo(j: Json, max: nat) {
    match j
    case UInt(u) => u as nat <= max
    case Arr(elems) => forall i :: 0 <= i < |elems| ==> UpTo(elems[i], max)
    case Obj(members) => forall k :: k in members ==> UpTo(members[k], max)
    case _ => true
  }

  lemma DifferentRank(a: Json, b: Json)
    requires Rank(a) != Rank(b)
    ensures Compare(a, b) == ByNumber(Rank(a), Rank(b))
  {
  }

  function NumberOf(j: Json): int
    requires j.Int? || j.UInt?
  {
    if j.Int? then j.i as int else j.u as int
  }

  lemma CompareNumbers(a: Json, b: Json)
    requires Rank(a) == 2 && Rank(b) == 2 && UpTo(a, INT64_MAX) && UpTo(b, INT64_MAX)
    ensures Compare(a, b) == ByNumber(NumberOf(a), NumberOf(b))
  {
  }

  lemma KeysCompose(k: Bytes, l: Bytes, m: Bytes)
    ensures Composes(ByKey(k, l), ByKey(l, m), ByKey(k, m)) && Exclusive(ByKey(k, l))
  {
    hide Less;
    LessTotal(k, l);
    LessTotal(l, m);
    LessTotal(k, m);
    if Less(k, l) && Less(l, m) { LessTransitive(k, l, m); }
  }

  lemma {:induction false} CompareComposes(a: Json, b: Json, c: Json)
    requires UpTo(a, INT64_MAX) && UpTo(b, INT64_MAX) && UpTo(c, INT64_MAX)
    ensures Composes(Compare(a, b), Compare(b, c), Compare(a, c))
    decreases a, 1
  {
    hide Compare, CompareElements, CompareItems, ByKey;
    if Rank(a) != Rank(b) || Rank(b) != Rank(c) {
      RanksCompose(a, b, c);
    } else if Rank(a) == 2 {
      CompareNumbers(a, b);
      CompareNumbers(b, c);
      CompareNumbers(a, c);
    } else {
      SameRankComposes(a, b, c);
    }
  }

  lemma RanksCompose(a: Json, b: Json, c: Json)
    requires Rank(a) != Rank(b) || Rank(b) != Rank(c)
    ensures Composes(Compare(a, b), Compare(b, c), Compare(a, c))
  {
    hide Compare;
    if Rank(a) != Rank(b) { DifferentRank(a, b); }
    if Rank(b) != Rank(c) { DifferentRank(b, c); }
    if Rank(a) != Rank(c) { DifferentRank(a, c); }
  }

  lemma {:induction false} SameRankComposes(a: Json, b: Json, c: Json)
    requires UpTo(a, INT64_MAX) && UpTo(b, INT64_MAX) && UpTo(c, INT64_MAX)
    requires Rank(a) == Rank(b) == Rank(c) != 2
    ensures Composes(Compare(a, b), Compare(b, c), Compare(a, c))
    decreases a, 0
  {
    hide CompareElements, CompareItems, ByKey;
    match a
    case Str(_) => KeysCompose(a.s, b.s, c.s);
    case Arr(_) => ElementsCompose(a.elems, b.elems, c.elems);
    case Obj(_) =>
      ItemsCompose(a, SortedKeys(a.members.Keys), b, SortedKeys(b.members.Keys), c, SortedKeys(c.members.Keys));
    case _ =>
  }

  lemma {:induction false} ElementsCompose(x: seq<Json>, y: seq<Json>, z: seq<Json>)
    requires UpTo(Arr(x), INT64_MAX) && UpTo(Arr(y), INT64_MAX) && UpTo(Arr(z), INT64_MAX)
    ensures Composes(CompareElements(x, y), CompareElements(y, z), CompareElements(x, z))
    decreases x, 0
  {
    hide Compare, Eq;
    if x != [] && y != [] && z != [] {
      CompareComposes(x[0], y[0], z[0]);
      CompareDecides(x[0], y[0]);
      CompareDecides(y[0], z[0]);
      ElementsCompose(x[1..], y[1..], z[1..]);
      ThenComposes(Compare(x[0], y[0]), Compare(y[0], z[0]), Compare(x[0], z[0]),
                   CompareElements(x[1..], y[1..]), CompareElements(y[1..], z[1..]), CompareElements(x[1..], z[1..]));
    }
  }

  lemma {:induction false} ItemsCompose(a: Json, ks: seq<Bytes>, b: Json, ls: seq<Bytes>, c: Json, ms: seq<Bytes>)
    requires a.Obj? && forall k :: k in ks ==> k in a.members
    requires b.Obj? && forall l :: l in ls ==> l in b.members
    requires c.Obj? && forall m :: m in ms ==> m in c.members
    requires UpTo(a, INT64_MAX) && UpTo(b, INT64_MAX) && UpTo(c, INT64_MAX)
    ensures Composes(CompareItems(a, ks, b, ls), CompareItems(b, ls, c, ms), CompareItems(a, ks, c, ms))
    decreases a, 0, |ks|
  {
    hide Compare, Eq, ByKey, Then;
    if ks != [] && ls != [] && ms != [] {
      assert ks[0] in ks && ls[0] in ls && ms[0] in ms;
      ItemsCompose(a, ks[1..], b, ls[1..], c, ms[1..]);
      PairsCompose(a, ks[0], b, ls[0], c, ms[0]);
      ThenComposes(PairVerdict(a, ks[0], b, ls[0]), PairVerdict(b, ls[0], c, ms[0]), PairVerdict(a, ks[0], c, ms[0]),
                   CompareItems(a, ks[1..], b, ls[1..]), CompareItems(b, ls[1..], c, ms[1..]), CompareItems(a, ks[1..], c, ms[1..]));
    }
  }

  /** `operator<` of `std::pair`. */
  function PairVerdict(a: Json, k: Bytes, b: Json, l: Bytes): Verdict
    requires a.Obj? && k in a.members && b.Obj? && l in b.members
  {
    Then(ByKey(k, l), Compare(a.members[k], b.members[l]))
  }

  lemma {:induction false} PairsCompose(a: Json, k: Bytes, b: Json, l: Bytes, c: Json, m: Bytes)
    requires a.Obj? && k in a.members && b.Obj? && l in b.members && c.Obj? && m in c.members
    requires UpTo(a, INT64_MAX) && UpTo(b, INT64_MAX) && UpTo(c, INT64_MAX)
    ensures Composes(PairVerdict(a, k, b, l), PairVerdict(b, l, c, m), PairVerdict(a, k, c, m))
    ensures Exclusive(PairVerdict(a, k, b, l)) && Exclusive(PairVerdict(b, l, c, m))
    decreases a, 0, 0
  {
    hide Compare, Eq, ByKey;
    var u, v, w := a.members[k], b.members[l], c.members[m];
    CompareComposes(u, v, w);
    CompareDecides(u, v);
    CompareDecides(v, w);
    KeysCompose(k, l, m);
    KeysCompose(l, m, k);
    ThenComposes(ByKey(k, l), ByKey(l, m), ByKey(k, m), Compare(u, v), Compare(v, w), Compare(u, w));
  }

  ghost predicate TransitiveUpTo(max: nat) {
    forall a, b, c :: UpTo(a, max) && UpTo(b, max) && UpTo(c, max) && Before(a, b) && Before(b, c) ==> Before(a, c)
  }

  lemma {:induction false} UpToMore(j: Json, max: nat, more: nat)
    requires UpTo(j, max) && max <= more
    ensures UpTo(j, more)
  {
    match j
    case Arr(elems) => forall i | 0 <= i < |elems| ensures UpTo(elems[i], more) { UpToMore(elems[i], max, more); }
    case Obj(members) => forall k | k in members ensures UpTo(members[k], more) { UpToMore(members[k], max, more); }
    case _ =>
  }

  /** The order is transitive exactly on those values whose unsigned integers a signed one
      can hold: beyond that, unsigned integers meet signed ones as negative numbers. */
  lemma TransitiveIffSigned(max: nat)
    ensures TransitiveUpTo(max) <==> max <= INT64_MAX
  {
    if max <= INT64_MAX {
      forall a, b, c | UpTo(a, max) && UpTo(b, max) && UpTo(c, max) && Before(a, b) && Before(b, c)
        ensures Before(a, c)
      {
        TransitiveBefore(a, b, c, max);
      }
    } else {
      var a, b, c := UInt(1), UInt(0x8000_0000_0000_0000), Int(0);
      assert Before(a, b) && Before(b, c) && !Before(a, c);
    }
  }

  lemma TransitiveBefore(a: Json, b: Json, c: Json, max: nat)
    requires UpTo(a, max) && UpTo(b, max) && UpTo(c, max) && max <= INT64_MAX
    requires Before(a, b) && Before(b, c)
    ensures Before(a, c)
  {
    hide Compare, UpTo, Eq;
    UpToMore(a, max, INT64_MAX);
    UpToMore(b, max, INT64_MAX);
    UpToMore(c, max, INT64_MAX);
    CompareComposes(a, b, c);
    CompareDecides(a, b);
    CompareDecides(b, c);
  }
}
