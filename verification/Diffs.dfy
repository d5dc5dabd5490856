/** `diff`, and the theorem that `patch` applied to its result yields the target. */
module Diffs {
  import opened ByteStrings
  import opened Results
  import opened Values
  import opened Decimals
  import opened Pointers
  import opened Patches

  // ---- The operations that diff emits, relative to the values compared ---------

  /** `op` with one more token in front of its path. */
  function Under(token: Bytes, op: Op): Op {
    op.(path := [token] + op.path)
  }

  function AllUnder(token: Bytes, ops: seq<Op>): seq<Op> {
    if ops == [] then [] else [Under(token, ops[0])] + AllUnder(token, ops[1..])
  }

  /** The operations `diff(s, t)` yields. */
  function Diff(s: Json, t: Json): seq<Op>
    decreases s, 1, 0
  {
    if Eq(s, t) then []
    else if !SameType(s, t) then [Replace([], t)]
    else if s.Arr? then
      DiffElements(s, t, 0) + Removals(|t.elems|, |s.elems|) + Additions(t.elems, |s.elems|)
    else if s.Obj? then
      DiffMembers(s, t, SortedKeys(s.members.Keys)) + NewMembers(s.members, t.members, SortedKeys(t.members.Keys))
    else [Replace([], t)]
  }

  /** First pass over arrays: the common indices from `i` on. */
  function DiffElements(s: Json, t: Json, i: nat): seq<Op>
    requires s.Arr? && t.Arr?
    decreases s, 0, |s.elems| - i
  {
    if i < |s.elems| && i < |t.elems| then
      AllUnder(ToString(i), Diff(s.elems[i], t.elems[i])) + DiffElements(s, t, i + 1)
    else []
  }

  /** Removal of the indices from `hi - 1` down to `lo`. */
  function Removals(lo: nat, hi: nat): seq<Op> {
    if hi <= lo then [] else [Remove([ToString(hi - 1)])] + Removals(lo, hi - 1)
  }

  /** Appending the elements of `y` from index `i` on. */
  function Additions(y: seq<Json>, i: nat): seq<Op>
    decreases |y| - i
  {
    if i < |y| then [Add([ToString(i)], y[i])] + Additions(y, i + 1) else []
  }

  /** First pass over objects: the members of the source. */
  function DiffMembers(s: Json, t: Json, keys: seq<Bytes>): seq<Op>
    requires s.Obj? && t.Obj? && forall k :: k in keys ==> k in s.members
    decreases s, 0, |keys|
  {
    if keys == [] then [] else
    var k := keys[0];
    (if k in t.members then AllUnder(k, Diff(s.members[k], t.members[k])) else [Remove([k])])
    + DiffMembers(s, t, keys[1..])
  }

  /** Second pass over objects: the members that only the target has. */
  function NewMembers(x: map<Bytes, Json>, y: map<Bytes, Json>, keys: seq<Bytes>): seq<Op>
    requires forall k :: k in keys ==> k in y
  {
    if keys == [] then [] else
    (if keys[0] in x then [] else [Add([keys[0]], y[keys[0]])]) + NewMembers(x, y, keys[1..])
  }

  // ---- What patching is to yield ----------------------------------------------

  /** The target, with the source's own value kept where the two compare equal. */
  function Merged(s: Json, t: Json): (r: Json)
    decreases s
  {
    if Eq(s, t) then s else
    match (s, t)
    case (Arr(x), Arr(y)) =>
      Arr(seq(|y|, i requires 0 <= i < |y| => if i < |x| then Merged(x[i], y[i]) else y[i]))
    case (Obj(x), Obj(y)) =>
      Obj(map k | k in y :: if k in x then Merged(x[k], y[k]) else y[k])
    case _ => t
  }

  lemma {:induction false} MergedEqualsTarget(s: Json, t: Json)
    ensures Eq(Merged(s, t), t)
    decreases s
  {
    EqReflexive(t);
    match (s, t)
    case (Arr(x), Arr(y)) =>
      if !Eq(s, t) {
        forall i | 0 <= i < |y| ensures Eq(Merged(s, t).elems[i], y[i]) {
          if i < |x| { MergedEqualsTarget(x[i], y[i]); } else { EqReflexive(y[i]); }
        }
      }
    case (Obj(x), Obj(y)) =>
      if !Eq(s, t) {
        forall k | k in y ensures Eq(Merged(s, t).members[k], y[k]) {
          if k in x { MergedEqualsTarget(x[k], y[k]); } else { EqReflexive(y[k]); }
        }
      }
    case _ =>
  }

  /** The one thing that can go wrong: `stoi` rejects an index above `INT_MAX`. No index at
      which the two values differ may be larger, and if two arrays differ in length, none of
      the indices that only one of them has. */
  predicate IndicesFit(s: Json, t: Json)
    decreases s
  {
    Eq(s, t) ||
    match (s, t)
    case (Arr(x), Arr(y)) =>
      && (forall i :: 0 <= i < |x| && i < |y| && !Eq(x[i], y[i]) ==> i <= INT_MAX && IndicesFit(x[i], y[i]))
      && (|x| == |y| || (|x| <= INT_MAX + 1 && |y| <= INT_MAX + 1))
    case (Obj(x), Obj(y)) =>
      forall k :: k in x && k in y ==> IndicesFit(x[k], y[k])
    case _ => true
  }

  // ---- The frame property -----------------------------------------------------

  lemma IndexText(i: nat, size: nat)
    requires i < size
    ensures CheckedIndex(ToString(i), size) == if i <= INT_MAX then Ok(i) else Err(OutOfRange)
    ensures UncheckedIndex(ToString(i), size) == if i <= INT_MAX then Ok(i) else Err(OutOfRange)
    ensures ToString(i) != DASH
  {
    ToStringCanonical(i);
    StoiOfToString(i);
  }

  /** Diff emits additions and removals only below the root. */
  predicate Relative(op: Op) {
    (op.Add? || op.Remove? || op.Replace?) && (op.path == [] ==> op.Replace?)
  }

  /** An operation below the member `k` changes that member as it would change the member's
      value alone, and nothing else. */
  lemma OpUnderMember(m: map<Bytes, Json>, k: Bytes, op: Op, checkTop: bool)
    requires k in m && Relative(op)
    ensures ApplyOp(Obj(m), Under(k, op), checkTop) ==
            match ApplyOp(m[k], op, false)
            case Ok(v) => Ok(Obj(m[k := v]))
            case Err(e) => Err(e)
  {
    var path := [k] + op.path;
    assert path[1..] == op.path;
    assert path[..1] == [k] && [k][1..] == [];
    assert GetChecked(Obj(m), [k]) == GetChecked(m[k], []);
    if op.path == [] {
      assert EditChecked(Obj(m), path, Put(op.value)) == Ok(Obj(m[k := op.value]));
    } else {
      assert Front(path) == [k] + Front(op.path);
      assert Front(path)[1..] == Front(op.path);
      assert Last(path) == Last(op.path);
    }
  }

  /** The same for array elements, where the index must fit. */
  lemma OpUnderElement(a: seq<Json>, i: nat, op: Op, checkTop: bool)
    requires i < |a| && Relative(op)
    ensures ApplyOp(Arr(a), Under(ToString(i), op), checkTop) ==
            if i > INT_MAX then Err(OutOfRange) else
            match ApplyOp(a[i], op, false)
            case Ok(v) => Ok(Arr(a[i := v]))
            case Err(e) => Err(e)
  {
    hide ToString, Stoi;
    var token := ToString(i);
    var path := [token] + op.path;
    IndexText(i, |a|);
    assert path[1..] == op.path;
    assert path[..1] == [token] && [token][1..] == [];
    assert i <= INT_MAX ==> GetChecked(Arr(a), [token]) == GetChecked(a[i], []);
    if op.path == [] {
      assert i <= INT_MAX ==> EditChecked(Arr(a), path, Put(op.value)) == Ok(Arr(a[i := op.value]));
    } else {
      assert Front(path) == [token] + Front(op.path);
      assert Front(path)[1..] == Front(op.path);
      assert Last(path) == Last(op.path);
    }
  }

  predicate AllRelative(ops: seq<Op>) {
    forall i :: 0 <= i < |ops| ==> Relative(ops[i])
  }

  lemma {:induction false} AllUnderMember(m: map<Bytes, Json>, k: Bytes, ops: seq<Op>, checkTop: bool)
    requires k in m && AllRelative(ops)
    ensures ApplyAll(Obj(m), AllUnder(k, ops), checkTop) ==
            match ApplyAll(m[k], ops, false)
            case Ok(v) => Ok(Obj(m[k := v]))
            case Err(e) => Err(e)
    decreases |ops|
  {
    hide ApplyOp;
    if ops == [] {
      assert m[k := m[k]] == m;
    } else {
      OpUnderMember(m, k, ops[0], checkTop);
      var next := ApplyOp(m[k], ops[0], false);
      if next.Ok? {
        AllUnderMember(m[k := next.value], k, ops[1..], checkTop);
        if ApplyAll(m[k], ops, false).Ok? {
          var v := ApplyAll(m[k], ops, false).value;
          assert m[k := next.value][k := v] == m[k := v];
        }
      }
    }
  }

  lemma {:induction false} AllUnderElement(a: seq<Json>, i: nat, ops: seq<Op>, checkTop: bool)
    requires i < |a| && AllRelative(ops)
    ensures ApplyAll(Arr(a), AllUnder(ToString(i), ops), checkTop) ==
            if i > INT_MAX && ops != [] then Err(OutOfRange) else
            match ApplyAll(a[i], ops, false)
            case Ok(v) => Ok(Arr(a[i := v]))
            case Err(e) => Err(e)
    decreases |ops|
  {
    hide ApplyOp;
    if ops == [] {
      assert a[i := a[i]] == a;
    } else {
      OpUnderElement(a, i, ops[0], checkTop);
      var next := ApplyOp(a[i], ops[0], false);
      if next.Ok? && i <= INT_MAX {
        AllUnderElement(a[i := next.value], i, ops[1..], checkTop);
        if ApplyAll(a[i], ops, false).Ok? {
          var v := ApplyAll(a[i], ops, false).value;
          assert a[i := next.value][i := v] == a[i := v];
        }
      }
    }
  }

  // ---- Shape of the result ----------------------------------------------------

  lemma {:induction false} AllUnderShape(token: Bytes, ops: seq<Op>)
    requires AllRelative(ops)
    ensures AllRelative(AllUnder(token, ops)) && |AllUnder(token, ops)| == |ops|
  {
    if ops != [] { AllUnderShape(token, ops[1..]); }
  }

  lemma EqOfContainers(s: Json, t: Json)
    ensures s.Arr? && t.Arr? ==>
              (Eq(s, t) <==> |s.elems| == |t.elems|
                             && forall k :: 0 <= k < |s.elems| && k < |t.elems| ==> Eq(s.elems[k], t.elems[k]))
    ensures s.Obj? && t.Obj? ==>
              (Eq(s, t) <==> s.members.Keys == t.members.Keys
                             && forall k :: k in s.members && k in t.members ==> Eq(s.members[k], t.members[k]))
  {
  }

  lemma {:induction false} DiffShape(s: Json, t: Json)
    ensures AllRelative(Diff(s, t))
    ensures Diff(s, t) == [] <==> Eq(s, t)
    decreases s, 1, 0
  {
    hide Eq, Diff, DiffElements, DiffMembers, Removals, Additions, NewMembers, SortedKeys;
    EqOfContainers(s, t);
    DiffCases(s, t);
    if !Eq(s, t) && SameType(s, t) {
      if s.Arr? {
        DiffElementsShape(s, t, 0);
        RemovalsShape(|t.elems|, |s.elems|);
        AdditionsShape(t.elems, |s.elems|);
      } else if s.Obj? {
        DiffMembersShape(s, t, SortedKeys(s.members.Keys));
        NewMembersShape(s.members, t.members, SortedKeys(t.members.Keys));
      }
    }
  }

  lemma DiffCases(s: Json, t: Json)
    ensures Diff(s, t) ==
            if Eq(s, t) then []
            else if SameType(s, t) && s.Arr? then
              DiffElements(s, t, 0) + Removals(|t.elems|, |s.elems|) + Additions(t.elems, |s.elems|)
            else if SameType(s, t) && s.Obj? then
              DiffMembers(s, t, SortedKeys(s.members.Keys)) + NewMembers(s.members, t.members, SortedKeys(t.members.Keys))
            else [Replace([], t)]
  {
    hide Eq, DiffElements, DiffMembers, Removals, Additions, NewMembers, SortedKeys;
  }

  lemma {:induction false} DiffElementsShape(s: Json, t: Json, i: nat)
    requires s.Arr? && t.Arr?
    ensures AllRelative(DiffElements(s, t, i))
    ensures DiffElements(s, t, i) == [] <==>
            forall k :: i <= k < |s.elems| && k < |t.elems| ==> Eq(s.elems[k], t.elems[k])
    decreases s, 0, |s.elems| - i
  {
    hide Eq, Diff, AllUnder, ToString;
    if i < |s.elems| && i < |t.elems| {
      DiffShape(s.elems[i], t.elems[i]);
      AllUnderShape(ToString(i), Diff(s.elems[i], t.elems[i]));
      DiffElementsShape(s, t, i + 1);
    }
  }

  lemma {:induction false} DiffMembersShape(s: Json, t: Json, keys: seq<Bytes>)
    requires s.Obj? && t.Obj? && forall k :: k in keys ==> k in s.members
    ensures AllRelative(DiffMembers(s, t, keys))
    ensures DiffMembers(s, t, keys) == [] <==>
            forall k :: k in keys ==> k in t.members && Eq(s.members[k], t.members[k])
    decreases s, 0, |keys|
  {
    hide Eq, Diff, AllUnder;
    if keys != [] {
      var k := keys[0];
      if k in t.members {
        DiffShape(s.members[k], t.members[k]);
        AllUnderShape(k, Diff(s.members[k], t.members[k]));
      }
      DiffMembersShape(s, t, keys[1..]);
      assert keys == [k] + keys[1..];
    }
  }

  lemma {:induction false} RemovalsShape(lo: nat, hi: nat)
    ensures AllRelative(Removals(lo, hi))
    ensures Removals(lo, hi) == [] <==> hi <= lo
  {
    if lo < hi { RemovalsShape(lo, hi - 1); }
  }

  lemma {:induction false} AdditionsShape(y: seq<Json>, i: nat)
    ensures AllRelative(Additions(y, i))
    ensures Additions(y, i) == [] <==> |y| <= i
    decreases |y| - i
  {
    if i < |y| { AdditionsShape(y, i + 1); }
  }

  lemma {:induction false} NewMembersShape(x: map<Bytes, Json>, y: map<Bytes, Json>, keys: seq<Bytes>)
    requires forall k :: k in keys ==> k in y
    ensures AllRelative(NewMembers(x, y, keys))
    ensures NewMembers(x, y, keys) == [] <==> forall k :: k in keys ==> k in x
  {
    if keys != [] {
      NewMembersShape(x, y, keys[1..]);
      assert keys == [keys[0]] + keys[1..];
    }
  }

  // ---- Applying the result ----------------------------------------------------

  predicate ElementsFit(x: seq<Json>, y: seq<Json>, i: nat) {
    forall k :: i <= k < |x| && k < |y| && !Eq(x[k], y[k]) ==> k <= INT_MAX && IndicesFit(x[k], y[k])
  }

  /** `r` is `a` with the common elements from index `i` on merged. */
  predicate MergedFrom(r: seq<Json>, a: seq<Json>, x: seq<Json>, y: seq<Json>, i: nat)
    requires |a| == |x|
  {
    && |r| == |a|
    && forall k :: 0 <= k < |a| ==> r[k] == (if i <= k < |y| then Merged(x[k], y[k]) else a[k])
  }

  lemma {:induction false} ApplyElements(s: Json, t: Json, i: nat, a: seq<Json>, checkTop: bool)
    requires s.Arr? && t.Arr? && |a| == |s.elems|
    requires forall k :: i <= k < |a| ==> a[k] == s.elems[k]
    ensures var r := ApplyAll(Arr(a), DiffElements(s, t, i), checkTop);
            && (r.Ok? <==> ElementsFit(s.elems, t.elems, i))
            && (r.Ok? ==> r.value.Arr? && MergedFrom(r.value.elems, a, s.elems, t.elems, i))
    decreases s, 0, |s.elems| - i
  {
    hide ApplyOp, Merged, IndicesFit, Eq, ToString, Diff, AllUnder;
    if i < |s.elems| && i < |t.elems| {
      var x, y := s.elems[i], t.elems[i];
      var ops := AllUnder(ToString(i), Diff(x, y));
      DiffShape(x, y);
      AllUnderElement(a, i, Diff(x, y), checkTop);
      ApplyAllConcat(Arr(a), ops, DiffElements(s, t, i + 1), checkTop);
      ApplyDiff(x, y, false);
      var first := ApplyAll(Arr(a), ops, checkTop);
      if first.Ok? {
        ApplyElements(s, t, i + 1, a[i := Merged(x, y)], checkTop);
      }
    }
  }

  lemma RemoveLast(a: seq<Json>, checkTop: bool)
    requires a != []
    ensures ApplyOp(Arr(a), Remove([ToString(|a| - 1)]), checkTop) ==
            if |a| <= INT_MAX + 1 then Ok(Arr(a[..|a| - 1])) else Err(OutOfRange)
  {
    hide Stoi, ToString, ApplyOp;
    StoiOfToString(|a| - 1);
    OneToken(Arr(a), ToString(|a| - 1), Null, checkTop);
    assert a[..|a| - 1] + a[|a|..] == a[..|a| - 1];
  }

  lemma {:induction false} ApplyRemovals(a: seq<Json>, lo: nat, hi: nat, checkTop: bool)
    requires |a| == hi && lo <= hi
    ensures ApplyAll(Arr(a), Removals(lo, hi), checkTop) ==
            if lo == hi || hi <= INT_MAX + 1 then Ok(Arr(a[..lo])) else Err(OutOfRange)
  {
    hide ApplyOp;
    if lo == hi {
      assert a[..lo] == a;
    } else {
      RemoveLast(a, checkTop);
      if hi <= INT_MAX + 1 {
        ApplyRemovals(a[..hi-1], lo, hi - 1, checkTop);
        assert a[..hi-1][..lo] == a[..lo];
      }
    }
  }

  lemma AddAtEnd(a: seq<Json>, v: Json, checkTop: bool)
    ensures ApplyOp(Arr(a), Add([ToString(|a|)], v), checkTop) ==
            if |a| <= INT_MAX then Ok(Arr(a + [v])) else Err(OutOfRange)
  {
    hide Stoi, ToString, ApplyOp;
    StoiOfToString(|a|);
    IndexText(|a|, |a| + 1);
    OneToken(Arr(a), ToString(|a|), v, checkTop);
    assert a[..|a|] + [v] + a[|a|..] == a + [v];
  }

  lemma {:induction false} ApplyAdditions(a: seq<Json>, y: seq<Json>, i: nat, checkTop: bool)
    requires |a| == i <= |y|
    ensures var r := ApplyAll(Arr(a), Additions(y, i), checkTop);
            if i == |y| || |y| <= INT_MAX + 1 then r == Ok(Arr(a + y[i..])) else r.Err?
    decreases |y| - i
  {
    hide ApplyOp;
    if i == |y| {
      assert a + y[i..] == a;
    } else {
      AddAtEnd(a, y[i], checkTop);
      if i <= INT_MAX {
        ApplyAdditions(a + [y[i]], y, i + 1, checkTop);
        assert a + [y[i]] + y[i+1..] == a + y[i..];
      }
    }
  }

  predicate MembersFit(x: map<Bytes, Json>, y: map<Bytes, Json>, keys: seq<Bytes>) {
    forall k :: k in keys && k in x && k in y ==> IndicesFit(x[k], y[k])
  }

  /** `m` after the first pass over `keys`. */
  function AfterPassOne(s: Json, t: Json, keys: seq<Bytes>, m: map<Bytes, Json>): map<Bytes, Json>
    requires s.Obj? && t.Obj? && forall k :: k in keys ==> k in s.members
  {
    map k | k in m && (k !in keys || k in t.members) ::
      if k in keys then Merged(s.members[k], t.members[k]) else m[k]
  }

  lemma AfterPassOneStep(s: Json, t: Json, keys: seq<Bytes>, m: map<Bytes, Json>)
    requires s.Obj? && t.Obj? && Sorted(keys) && keys != []
    requires forall k :: k in keys ==> k in s.members && k in m
    ensures var k := keys[0];
            var m' := if k in t.members then m[k := Merged(s.members[k], t.members[k])] else m - {k};
            && k !in keys[1..]
            && AfterPassOne(s, t, keys[1..], m') == AfterPassOne(s, t, keys, m)
  {
    hide Merged;
    SortedHasNoDuplicates(keys);
    assert keys == [keys[0]] + keys[1..];
  }

  lemma {:induction false} ApplyMembers(s: Json, t: Json, keys: seq<Bytes>, m: map<Bytes, Json>, checkTop: bool)
    requires s.Obj? && t.Obj? && Sorted(keys)
    requires forall k :: k in keys ==> k in s.members && k in m && m[k] == s.members[k]
    ensures var r := ApplyAll(Obj(m), DiffMembers(s, t, keys), checkTop);
            if MembersFit(s.members, t.members, keys) then r == Ok(Obj(AfterPassOne(s, t, keys, m))) else r.Err?
    decreases s, 0, |keys|
  {
    hide ApplyOp, Merged, IndicesFit;
    if keys == [] {
      assert m == AfterPassOne(s, t, keys, m);
    } else {
      var k, rest := keys[0], keys[1..];
      AfterPassOneStep(s, t, keys, m);
      assert keys == [k] + rest;
      var first := if k in t.members then AllUnder(k, Diff(s.members[k], t.members[k])) else [Remove([k])];
      ApplyAllConcat(Obj(m), first, DiffMembers(s, t, rest), checkTop);
      if k in t.members {
        var x, y := s.members[k], t.members[k];
        DiffShape(x, y);
        AllUnderMember(m, k, Diff(x, y), checkTop);
        ApplyDiff(x, y, false);
        ApplyMembers(s, t, rest, m[k := Merged(x, y)], checkTop);
      } else {
        OneToken(Obj(m), k, Null, checkTop);
        ApplyMembers(s, t, rest, m - {k}, checkTop);
      }
    }
  }

  /** `m` after the second pass over `keys`. */
  function AfterPassTwo(x: map<Bytes, Json>, y: map<Bytes, Json>, keys: seq<Bytes>, m: map<Bytes, Json>): map<Bytes, Json>
    requires forall k :: k in keys ==> k in y
  {
    map k | k in m.Keys + (set j | j in keys && j !in x) :: if k in keys && k !in x then y[k] else m[k]
  }

  lemma AfterPassTwoStep(x: map<Bytes, Json>, y: map<Bytes, Json>, keys: seq<Bytes>, m: map<Bytes, Json>)
    requires forall k :: k in keys ==> k in y
    ensures keys == [] ==> AfterPassTwo(x, y, keys, m) == m
    ensures keys != [] ==>
              var m' := if keys[0] in x then m else m[keys[0] := y[keys[0]]];
              AfterPassTwo(x, y, keys, m) == AfterPassTwo(x, y, keys[1..], m')
  {
    if keys != [] {
      var k, rest := keys[0], keys[1..];
      assert keys == [k] + rest;
      var m' := if k in x then m else m[k := y[k]];
      forall j
        ensures j in AfterPassTwo(x, y, keys, m) <==> j in AfterPassTwo(x, y, rest, m')
        ensures j in AfterPassTwo(x, y, keys, m) ==> AfterPassTwo(x, y, keys, m)[j] == AfterPassTwo(x, y, rest, m')[j]
      {
        assert j in keys <==> j == k || j in rest;
      }
    }
  }

  lemma {:induction false} ApplyNewMembers(x: map<Bytes, Json>, y: map<Bytes, Json>, keys: seq<Bytes>,
                                           m: map<Bytes, Json>, checkTop: bool)
    requires forall k :: k in keys ==> k in y
    ensures ApplyAll(Obj(m), NewMembers(x, y, keys), checkTop) == Ok(Obj(AfterPassTwo(x, y, keys, m)))
    decreases |keys|
  {
    hide ApplyOp, AfterPassTwo;
    AfterPassTwoStep(x, y, keys, m);
    if keys != [] {
      var k, rest := keys[0], keys[1..];
      var m' := if k in x then m else m[k := y[k]];
      ApplyNewMembers(x, y, rest, m', checkTop);
      if k in x {
        assert NewMembers(x, y, keys) == NewMembers(x, y, rest);
      } else {
        OneToken(Obj(m), k, y[k], checkTop);
        assert NewMembers(x, y, keys)[1..] == NewMembers(x, y, rest);
      }
    }
  }

  /** Applying what diff emits succeeds exactly if the indices fit, and then yields `Merged`. */
  lemma {:induction false} ApplyDiff(s: Json, t: Json, checkTop: bool)
    ensures var r := ApplyAll(s, Diff(s, t), checkTop);
            if IndicesFit(s, t) then r == Ok(Merged(s, t)) else r.Err?
    decreases s, 2, 0
  {
    hide ApplyOp;
    if Eq(s, t) {
    } else if !SameType(s, t) || s.Primitive() {
      ApplyOneReplacement(s, t, checkTop);
    } else if s.Arr? {
      ApplyArrays(s, t, checkTop);
    } else {
      ApplyObjects(s, t, checkTop);
    }
  }

  lemma ApplyOneReplacement(s: Json, t: Json, checkTop: bool)
    ensures ApplyAll(s, [Replace([], t)], checkTop) == Ok(t)
  {
  }

  lemma {:induction false} ApplyArrays(s: Json, t: Json, checkTop: bool)
    requires s.Arr? && t.Arr? && !Eq(s, t)
    ensures var r := ApplyAll(s, Diff(s, t), checkTop);
            if IndicesFit(s, t) then r == Ok(Merged(s, t)) else r.Err?
    decreases s, 1, 0
  {
    hide ApplyOp, IndicesFit, Merged;
    var x, y := s.elems, t.elems;
    var one, two, three := DiffElements(s, t, 0), Removals(|y|, |x|), Additions(y, |x|);
    ApplyAllConcat(s, one + two, three, checkTop);
    ApplyAllConcat(s, one, two, checkTop);
    ApplyElements(s, t, 0, x, checkTop);
    var r := ApplyAll(s, one, checkTop);
    if r.Ok? {
      var a := r.value.elems;
      if |y| <= |x| { ApplyRemovals(a, |y|, |x|, checkTop); }
      if |x| <= |y| { ApplyAdditions(a, y, |x|, checkTop); }
      MergedArrays(s, t, a);
    }
    ArraysFit(s, t);
  }

  lemma ArraysFit(s: Json, t: Json)
    requires s.Arr? && t.Arr? && !Eq(s, t)
    ensures IndicesFit(s, t) <==>
            ElementsFit(s.elems, t.elems, 0)
            && (|s.elems| == |t.elems| || (|s.elems| <= INT_MAX + 1 && |t.elems| <= INT_MAX + 1))
  {
  }

  lemma MergedArrays(s: Json, t: Json, a: seq<Json>)
    requires s.Arr? && t.Arr? && !Eq(s, t) && MergedFrom(a, s.elems, s.elems, t.elems, 0)
    ensures |t.elems| <= |a| ==> Merged(s, t) == Arr(a[..|t.elems|])
    ensures |a| <= |t.elems| ==> Merged(s, t) == Arr(a + t.elems[|a|..])
  {
  }

  lemma {:induction false} ApplyObjects(s: Json, t: Json, checkTop: bool)
    requires s.Obj? && t.Obj? && !Eq(s, t)
    ensures var r := ApplyAll(s, Diff(s, t), checkTop);
            if IndicesFit(s, t) then r == Ok(Merged(s, t)) else r.Err?
    decreases s, 1, 0
  {
    hide ApplyOp, ApplyAll, Merged, IndicesFit, DiffMembers, NewMembers, Diff, Eq, SortedKeys, AfterPassOne, AfterPassTwo, MembersFit;
    var x, y := s.members, t.members;
    var sKeys, tKeys := SortedKeys(x.Keys), SortedKeys(y.Keys);
    DiffOfObjects(s, t);
    ApplyAllConcat(s, DiffMembers(s, t, sKeys), NewMembers(x, y, tKeys), checkTop);
    ApplyMembers(s, t, sKeys, x, checkTop);
    MergedObjects(s, t);
    if MembersFit(x, y, sKeys) {
      ApplyNewMembers(x, y, tKeys, AfterPassOne(s, t, sKeys, x), checkTop);
    }
  }

  lemma DiffOfObjects(s: Json, t: Json)
    requires s.Obj? && t.Obj? && !Eq(s, t)
    ensures Diff(s, t) == DiffMembers(s, t, SortedKeys(s.members.Keys))
                          + NewMembers(s.members, t.members, SortedKeys(t.members.Keys))
  {
    hide Eq;
  }

  lemma MergedObjects(s: Json, t: Json)
    requires s.Obj? && t.Obj? && !Eq(s, t)
    ensures var sKeys, tKeys := SortedKeys(s.members.Keys), SortedKeys(t.members.Keys);
            && (MembersFit(s.members, t.members, sKeys) <==> IndicesFit(s, t))
            && Obj(AfterPassTwo(s.members, t.members, tKeys, AfterPassOne(s, t, sKeys, s.members))) == Merged(s, t)
  {
    hide SortedKeys, Eq;
    var x, y := s.members, t.members;
    var sKeys, tKeys := SortedKeys(x.Keys), SortedKeys(y.Keys);
    MergedMembers(s, t, sKeys, tKeys);
  }

  lemma MergedMembers(s: Json, t: Json, sKeys: seq<Bytes>, tKeys: seq<Bytes>)
    requires s.Obj? && t.Obj? && !Eq(s, t)
    requires forall k :: k in sKeys <==> k in s.members
    requires forall k :: k in tKeys <==> k in t.members
    ensures Obj(AfterPassTwo(s.members, t.members, tKeys, AfterPassOne(s, t, sKeys, s.members))) == Merged(s, t)
  {
    var x, y := s.members, t.members;
    var m := AfterPassOne(s, t, sKeys, x);
    var r := AfterPassTwo(x, y, tKeys, m);
    assert r.Keys == y.Keys;
    var merged := map k | k in y :: if k in x then Merged(x[k], y[k]) else y[k];
    assert Merged(s, t) == Obj(merged);
    assert merged == r;
  }

  // ---- Patch documents --------------------------------------------------------

  /** The patch element for `op`, whose path is relative to the place with pointer text `base`. */
  function Encode(base: Bytes, op: Op): Json
    requires Relative(op)
  {
    var path := Str(base + ToText(op.path));
    match op
    case Add(_, v) => Obj(map[OP_KEY := Str(ADD), PATH_KEY := path, VALUE_KEY := v])
    case Remove(_) => Obj(map[OP_KEY := Str(REMOVE), PATH_KEY := path])
    case Replace(_, v) => Obj(map[OP_KEY := Str(REPLACE), PATH_KEY := path, VALUE_KEY := v])
  }

  function EncodeAll(base: Bytes, ops: seq<Op>): seq<Json>
    requires AllRelative(ops)
  {
    if ops == [] then [] else [Encode(base, ops[0])] + EncodeAll(base, ops[1..])
  }

  lemma {:induction false} EncodeAllConcat(base: Bytes, a: seq<Op>, b: seq<Op>)
    requires AllRelative(a) && AllRelative(b)
    ensures AllRelative(a + b) && EncodeAll(base, a + b) == EncodeAll(base, a) + EncodeAll(base, b)
  {
    hide Encode, EncodeAll, AllRelative, Relative;
    RelativeConcat(a, b);
    if a == [] {
      assert a + b == b;
      NoneEncoded(base);
    } else {
      assert (a + b)[0] == a[0] && (a + b)[1..] == a[1..] + b;
      EncodeStep(base, a);
      EncodeStep(base, a + b);
      EncodeAllConcat(base, a[1..], b);
    }
  }

  lemma RelativeConcat(a: seq<Op>, b: seq<Op>)
    requires AllRelative(a) && AllRelative(b)
    ensures AllRelative(a + b)
  {
    hide Relative;
  }

  lemma NoneEncoded(base: Bytes)
    ensures AllRelative([]) && EncodeAll(base, []) == []
  {
  }

  lemma EncodeStep(base: Bytes, ops: seq<Op>)
    requires ops != [] && AllRelative(ops)
    ensures Relative(ops[0]) && AllRelative(ops[1..])
    ensures EncodeAll(base, ops) == [Encode(base, ops[0])] + EncodeAll(base, ops[1..])
  {
    hide Encode, Relative;
  }

  lemma {:induction false} EncodeAllUnder(base: Bytes, token: Bytes, ops: seq<Op>)
    requires AllRelative(ops)
    ensures AllRelative(AllUnder(token, ops))
    ensures EncodeAll(base, AllUnder(token, ops)) == EncodeAll(base + [SLASH] + Escape(token), ops)
  {
    hide Escape;
    AllUnderShape(token, ops);
    if ops != [] {
      var op := ops[0];
      ToTextCons(token, op.path);
      assert base + ([SLASH] + Escape(token) + ToText(op.path)) == base + [SLASH] + Escape(token) + ToText(op.path);
      assert Encode(base, Under(token, op)) == Encode(base + [SLASH] + Escape(token), op);
      EncodeAllUnder(base, token, ops[1..]);
    }
  }

  /** `diff`, building the patch document pass by pass. */
  method DiffDocument(source: Json, target: Json, path: Bytes) returns (result: Json)
    ensures AllRelative(Diff(source, target))
    ensures result == Arr(EncodeAll(path, Diff(source, target)))
    decreases source, 2
  {
    DiffShape(source, target);
    if Eq(source, target) {
      return Arr([]);
    }
    if SameType(source, target) && source.Arr? {
      result := DiffArrays(source, target, path);
    } else if SameType(source, target) && source.Obj? {
      result := DiffObjects(source, target, path);
    } else {
      ToTextOfRoot(path);
      return Arr([Obj(map[OP_KEY := Str(REPLACE), PATH_KEY := Str(path), VALUE_KEY := target])]);
    }
  }

  lemma ToTextOfRoot(path: Bytes)
    ensures path + ToText([]) == path
  {
  }

  /** The case `value_t::array` of `diff`: three passes over the indices. */
  method DiffArrays(source: Json, target: Json, path: Bytes) returns (result: Json)
    requires source.Arr? && target.Arr? && !Eq(source, target)
    ensures AllRelative(Diff(source, target))
    ensures result == Arr(EncodeAll(path, Diff(source, target)))
    decreases source, 1
  {
    hide Eq, Encode;
    DiffShape(source, target);
    var x, y := source.elems, target.elems;
    var ops, i := DiffCommonElements(source, target, path);
    ops, i := RemoveRemaining(x, y, path, ops, i);
    ops := AddRemaining(x, y, path, ops, i);
    EncodeAllConcat(path, DiffElements(source, target, 0), Removals(|y|, |x|));
    EncodeAllConcat(path, DiffElements(source, target, 0) + Removals(|y|, |x|), Additions(y, |x|));
    return Arr(ops);
  }

  /** The end of the common part of two arrays. */
  function CommonLength(x: seq<Json>, y: seq<Json>): nat {
    if |x| < |y| then |x| else |y|
  }

  method DiffCommonElements(source: Json, target: Json, path: Bytes) returns (ops: seq<Json>, i: nat)
    requires source.Arr? && target.Arr?
    ensures i == CommonLength(source.elems, target.elems)
    ensures AllRelative(DiffElements(source, target, 0))
    ensures ops == EncodeAll(path, DiffElements(source, target, 0))
    decreases source, 0
  {
    hide Eq, Escape, ToString, ToText, Encode, Diff, EncodeAll, AllUnder;
    var x, y := source.elems, target.elems;
    DiffElementsShape(source, target, 0);
    ops, i := [], 0;
    while i < |x| && i < |y|
      invariant i <= CommonLength(x, y)
      invariant AllRelative(DiffElements(source, target, i))
      invariant EncodeAll(path, DiffElements(source, target, 0)) == ops + EncodeAll(path, DiffElements(source, target, i))
      decreases |x| - i
    {
      var element := DiffDocument(x[i], y[i], path + [SLASH] + ToString(i));
      EscapeIndex(i);
      EncodeAllUnder(path, ToString(i), Diff(x[i], y[i]));
      DiffElementsShape(source, target, i + 1);
      EncodeAllConcat(path, AllUnder(ToString(i), Diff(x[i], y[i])), DiffElements(source, target, i + 1));
      ops := ops + element.elems;
      i := i + 1;
    }
    NoneEncoded(path);
  }

  /** Every removal goes in front of the ones before it, so that the indices stay valid. */
  method RemoveRemaining(x: seq<Json>, y: seq<Json>, path: Bytes, ops0: seq<Json>, i0: nat)
    returns (ops: seq<Json>, i: nat)
    requires i0 == CommonLength(x, y)
    ensures i == |x|
    ensures AllRelative(Removals(|y|, |x|))
    ensures ops == ops0 + EncodeAll(path, Removals(|y|, |x|))
  {
    hide Escape, ToString, ToText, Encode;
    ops, i := ops0, i0;
    var endIndex := |ops|;
    while i < |x|
      invariant i0 <= i <= |x|
      invariant AllRelative(Removals(|y|, i))
      invariant ops == ops0 + EncodeAll(path, Removals(|y|, i))
    {
      EscapeIndex(i);
      RemovalsShape(|y|, i + 1);
      EncodeChild(path, ToString(i), Null);
      assert ops[..endIndex] == ops0 && ops[endIndex..] == EncodeAll(path, Removals(|y|, i));
      ops := ops[..endIndex]
             + [Obj(map[OP_KEY := Str(REMOVE), PATH_KEY := Str(path + [SLASH] + ToString(i))])]
             + ops[endIndex..];
      i := i + 1;
    }
  }

  method AddRemaining(x: seq<Json>, y: seq<Json>, path: Bytes, ops0: seq<Json>, i0: nat) returns (ops: seq<Json>)
    requires i0 == |x|
    ensures AllRelative(Additions(y, |x|))
    ensures ops == ops0 + EncodeAll(path, Additions(y, |x|))
  {
    hide Escape, ToString, ToText, Encode;
    AdditionsShape(y, |x|);
    ops := ops0;
    var i := i0;
    while i < |y|
      invariant |x| <= i && (i <= |y| || i == |x|)
      invariant AllRelative(Additions(y, i))
      invariant ops0 + EncodeAll(path, Additions(y, |x|)) == ops + EncodeAll(path, Additions(y, i))
    {
      EscapeIndex(i);
      AdditionsShape(y, i + 1);
      EncodeChild(path, ToString(i), y[i]);
      ops := ops + [Obj(map[OP_KEY := Str(ADD), PATH_KEY := Str(path + [SLASH] + ToString(i)), VALUE_KEY := y[i]])];
      i := i + 1;
    }
  }

  lemma EncodeChild(base: Bytes, token: Bytes, v: Json)
    ensures var path := Str(base + [SLASH] + Escape(token));
            && Encode(base, Remove([token])) == Obj(map[OP_KEY := Str(REMOVE), PATH_KEY := path])
            && Encode(base, Add([token], v)) == Obj(map[OP_KEY := Str(ADD), PATH_KEY := path, VALUE_KEY := v])
  {
    hide Escape;
    ToTextCons(token, []);
    assert [token] + [] == [token];
    assert base + ([SLASH] + Escape(token) + []) == base + [SLASH] + Escape(token);
  }

  /** The case `value_t::object` of `diff`: one pass over each object. */
  method DiffObjects(source: Json, target: Json, path: Bytes) returns (result: Json)
    requires source.Obj? && target.Obj? && !Eq(source, target)
    ensures AllRelative(Diff(source, target))
    ensures result == Arr(EncodeAll(path, Diff(source, target)))
    decreases source, 1
  {
    hide Eq, Encode;
    DiffShape(source, target);
    var x, y := source.members, target.members;
    var ops := DiffSourceMembers(source, target, path);
    ops := AddTargetMembers(x, y, path, ops);
    EncodeAllConcat(path, DiffMembers(source, target, SortedKeys(x.Keys)), NewMembers(x, y, SortedKeys(y.Keys)));
    return Arr(ops);
  }

  lemma EncodeMembersStep(s: Json, t: Json, keys: seq<Bytes>, path: Bytes)
    requires s.Obj? && t.Obj? && keys != [] && forall k :: k in keys ==> k in s.members
    ensures AllRelative(DiffMembers(s, t, keys)) && AllRelative(DiffMembers(s, t, keys[1..]))
    ensures keys[0] in t.members ==> AllRelative(Diff(s.members[keys[0]], t.members[keys[0]]))
    ensures EncodeAll(path, DiffMembers(s, t, keys)) ==
            (if keys[0] in t.members then
               EncodeAll(path + [SLASH] + Escape(keys[0]), Diff(s.members[keys[0]], t.members[keys[0]]))
             else [Encode(path, Remove([keys[0]]))])
            + EncodeAll(path, DiffMembers(s, t, keys[1..]))
  {
    hide Eq, Escape, Encode;
    var k := keys[0];
    DiffMembersShape(s, t, keys);
    DiffMembersShape(s, t, keys[1..]);
    if k in t.members {
      var x, y := s.members[k], t.members[k];
      DiffShape(x, y);
      EncodeAllUnder(path, k, Diff(x, y));
      EncodeAllConcat(path, AllUnder(k, Diff(x, y)), DiffMembers(s, t, keys[1..]));
    } else {
      EncodeAllConcat(path, [Remove([k])], DiffMembers(s, t, keys[1..]));
    }
  }

  method DiffSourceMembers(source: Json, target: Json, path: Bytes) returns (ops: seq<Json>)
    requires source.Obj? && target.Obj?
    ensures var keys := SortedKeys(source.members.Keys);
            && AllRelative(DiffMembers(source, target, keys))
            && ops == EncodeAll(path, DiffMembers(source, target, keys))
    decreases source, 0
  {
    hide Eq, Escape, ToText, Encode, SortedKeys, DiffMembers, EncodeAll;
    var x, y := source.members, target.members;
    var keys := SortedKeys(x.Keys);
    ops := [];
    var i := 0;
    DiffMembersShape(source, target, keys);
    assert keys[0..] == keys;
    while i < |keys|
      invariant 0 <= i <= |keys|
      invariant AllRelative(DiffMembers(source, target, keys[i..]))
      invariant EncodeAll(path, DiffMembers(source, target, keys)) ==
                ops + EncodeAll(path, DiffMembers(source, target, keys[i..]))
    {
      var k := keys[i];
      EncodeMembersStep(source, target, keys[i..], path);
      assert keys[i..][1..] == keys[i + 1..];
      if k in y {
        var member := DiffDocument(x[k], y[k], path + [SLASH] + Escape(k));
        ops := ops + member.elems;
      } else {
        EncodeChild(path, k, Null);
        ops := ops + [Obj(map[OP_KEY := Str(REMOVE), PATH_KEY := Str(path + [SLASH] + Escape(k))])];
      }
      i := i + 1;
    }
    NoMembers(source, target, path);
    assert keys[|keys|..] == [];
  }

  lemma NoMembers(s: Json, t: Json, path: Bytes)
    requires s.Obj? && t.Obj?
    ensures EncodeAll(path, DiffMembers(s, t, [])) == EncodeAll(path, NewMembers(s.members, t.members, [])) == []
  {
  }

  lemma EncodeNewMembersStep(x: map<Bytes, Json>, y: map<Bytes, Json>, keys: seq<Bytes>, path: Bytes)
    requires keys != [] && forall k :: k in keys ==> k in y
    ensures AllRelative(NewMembers(x, y, keys)) && AllRelative(NewMembers(x, y, keys[1..]))
    ensures EncodeAll(path, NewMembers(x, y, keys)) ==
            (if keys[0] in x then [] else [Encode(path, Add([keys[0]], y[keys[0]]))])
            + EncodeAll(path, NewMembers(x, y, keys[1..]))
  {
    hide Encode;
    NewMembersShape(x, y, keys);
    NewMembersShape(x, y, keys[1..]);
    EncodeAllConcat(path, if keys[0] in x then [] else [Add([keys[0]], y[keys[0]])], NewMembers(x, y, keys[1..]));
  }

  method AddTargetMembers(x: map<Bytes, Json>, y: map<Bytes, Json>, path: Bytes, ops0: seq<Json>)
    returns (ops: seq<Json>)
    ensures AllRelative(NewMembers(x, y, SortedKeys(y.Keys)))
    ensures ops == ops0 + EncodeAll(path, NewMembers(x, y, SortedKeys(y.Keys)))
  {
    hide Escape, ToText, Encode, SortedKeys, NewMembers, EncodeAll;
    var keys := SortedKeys(y.Keys);
    ops := ops0;
    var i := 0;
    NewMembersShape(x, y, keys);
    assert keys[0..] == keys;
    while i < |keys|
      invariant 0 <= i <= |keys|
      invariant AllRelative(NewMembers(x, y, keys[i..]))
      invariant ops0 + EncodeAll(path, NewMembers(x, y, keys)) == ops + EncodeAll(path, NewMembers(x, y, keys[i..]))
    {
      var k := keys[i];
      EncodeNewMembersStep(x, y, keys[i..], path);
      assert keys[i..][1..] == keys[i + 1..];
      if k !in x {
        EncodeChild(path, k, y[k]);
        ops := ops + [Obj(map[OP_KEY := Str(ADD), PATH_KEY := Str(path + [SLASH] + Escape(k)), VALUE_KEY := y[k]])];
      }
      i := i + 1;
    }
    NoMembers(Obj(x), Obj(y), path);
    assert keys[|keys|..] == [];
  }

  // ---- The invariant of diff --------------------------------------------------

  lemma ReadEncoded(op: Op)
    requires Relative(op)
    ensures ReadOp(Encode([], op)) == Ok(op)
  {
    hide Split, ToText;
    SplitOfText(op.path);
    assert [] + ToText(op.path) == ToText(op.path);
  }

  lemma {:induction false} PatchEncoded(doc: Json, ops: seq<Op>)
    requires AllRelative(ops)
    ensures PatchFrom(doc, EncodeAll([], ops)) == ApplyAll(doc, ops, true)
    decreases |ops|
  {
    hide ApplyOp, ReadOp, Encode;
    if ops != [] {
      ReadEncoded(ops[0]);
      var next := ApplyOp(doc, ops[0], true);
      if next.Ok? { PatchEncoded(next.value, ops[1..]); }
    }
  }

  /** `source.patch(diff(source, target))` succeeds exactly if the indices fit into an `int`,
      and then the result compares equal to `target`. */
  lemma PatchOfDiff(source: Json, target: Json)
    ensures AllRelative(Diff(source, target))
    ensures var r := PatchFrom(source, EncodeAll([], Diff(source, target)));
            && (r.Ok? <==> IndicesFit(source, target))
            && (r.Ok? ==> Eq(r.value, target))
  {
    DiffShape(source, target);
    PatchEncoded(source, Diff(source, target));
    ApplyDiff(source, target, true);
    MergedEqualsTarget(source, target);
  }

  /** No array in the value has more than 2^31 elements. */
  predicate SmallArrays(j: Json) {
    match j
    case Arr(a) => |a| <= INT_MAX + 1 && forall i :: 0 <= i < |a| ==> SmallArrays(a[i])
    case Obj(m) => forall k :: k in m ==> SmallArrays(m[k])
    case _ => true
  }

  lemma {:induction false} SmallArraysFit(s: Json, t: Json)
    requires SmallArrays(s) && SmallArrays(t)
    ensures IndicesFit(s, t)
  {
    match (s, t)
    case (Arr(x), Arr(y)) => forall i | 0 <= i < |x| && i < |y| { SmallArraysFit(x[i], y[i]); }
    case (Obj(x), Obj(y)) => forall k | k in x && k in y { SmallArraysFit(x[k], y[k]); }
    case _ =>
  }

  /** Beyond that the documented invariant fails: patching an array of more than 2^31 nulls
      with its difference from the empty array throws. */
  lemma LongArrayFails(n: nat)
    requires n > INT_MAX + 1
    ensures var source := Arr(seq(n, _ => Null));
            && AllRelative(Diff(source, Arr([])))
            && PatchFrom(source, EncodeAll([], Diff(source, Arr([])))).Err?
  {
    hide Diff, AllRelative, EncodeAll, PatchFrom, Eq;
    var source := Arr(seq(n, _ => Null));
    PatchOfDiff(source, Arr([]));
    NotEmpty(source);
  }

  lemma NotEmpty(source: Json)
    requires source.Arr? && |source.elems| > INT_MAX + 1
    ensures !IndicesFit(source, Arr([]))
  {
  }

  // ---- diff says no more than it has to -----------------------------------------------

  /** The value at a path, whatever the size of its indices. */
  function Find(j: Json, path: seq<Bytes>): Result<Json>
    decreases |path|
  {
    if path == [] then Ok(j) else
    match j
    case Obj(m) => if path[0] in m then Find(m[path[0]], path[1..]) else Err(OutOfRange)
    case Arr(a) =>
      if AllDigits(path[0]) && Value(path[0]) < |a| && path[0] == ToString(Value(path[0]))
      then Find(a[Value(path[0])], path[1..])
      else Err(OutOfRange)
    case _ => Err(OutOfRange)
  }

  /** Each operation has its reason in the two documents: something is replaced only where they
      differ and cannot be compared further, and by what the target has there; something is
      added that only the target has, and removed that only the source has. */
  predicate Justified(op: Op, s: Json, t: Json) {
    var x, y := Find(s, op.path), Find(t, op.path);
    match op
    case Replace(_, v) =>
      x.Ok? && y == Ok(v) && !Eq(x.value, v) && (!SameType(x.value, v) || v.Primitive())
    case Add(_, v) => x.Err? && y == Ok(v)
    case Remove(_) => x.Ok? && y.Err?
    case _ => false
  }

  predicate AllJustified(ops: seq<Op>, s: Json, t: Json) {
    forall i :: 0 <= i < |ops| ==> Justified(ops[i], s, t)
  }

  lemma JustifiedConcat(a: seq<Op>, b: seq<Op>, s: Json, t: Json)
    requires AllJustified(a, s, t) && AllJustified(b, s, t)
    ensures AllJustified(a + b, s, t)
  {
  }

  /** The child that a token names. */
  ghost predicate IsChild(j: Json, token: Bytes, child: Json) {
    forall path: seq<Bytes> {:trigger Find(child, path)} :: Find(j, [token] + path) == Find(child, path)
  }

  lemma MemberIsChild(m: map<Bytes, Json>, k: Bytes)
    requires k in m
    ensures IsChild(Obj(m), k, m[k])
  {
    forall path: seq<Bytes> {:trigger Find(m[k], path)} ensures Find(Obj(m), [k] + path) == Find(m[k], path) {
      assert ([k] + path)[0] == k && ([k] + path)[1..] == path;
    }
  }

  lemma ElementIsChild(a: seq<Json>, i: nat)
    requires i < |a|
    ensures IsChild(Arr(a), ToString(i), a[i])
  {
    hide ToString, Value;
    ToStringCanonical(i);
    forall path: seq<Bytes> {:trigger Find(a[i], path)} ensures Find(Arr(a), [ToString(i)] + path) == Find(a[i], path) {
      assert ([ToString(i)] + path)[0] == ToString(i) && ([ToString(i)] + path)[1..] == path;
    }
  }

  lemma {:induction false} UnderJustified(ops: seq<Op>, token: Bytes, s: Json, t: Json, s': Json, t': Json)
    requires IsChild(s, token, s') && IsChild(t, token, t') && AllJustified(ops, s', t')
    ensures AllJustified(AllUnder(token, ops), s, t)
    decreases |ops|
  {
    hide Justified, IsChild;
    if ops != [] {
      assert forall i :: 0 <= i < |ops| - 1 ==> ops[1..][i] == ops[i + 1];
      UnderJustified(ops[1..], token, s, t, s', t');
      OneUnder(ops[0], token, s, t, s', t');
    }
  }

  lemma OneUnder(op: Op, token: Bytes, s: Json, t: Json, s': Json, t': Json)
    requires IsChild(s, token, s') && IsChild(t, token, t') && Justified(op, s', t')
    ensures Justified(Under(token, op), s, t)
  {
    hide Find, Eq;
    assert Find(s', op.path) == Find(s, [token] + op.path);
    assert Find(t', op.path) == Find(t, [token] + op.path);
  }

  lemma ChildFound(j: Json, token: Bytes)
    ensures j.Obj? ==> Find(j, [token]) == if token in j.members then Ok(j.members[token]) else Err(OutOfRange)
    ensures forall i: nat :: j.Arr? && token == ToString(i) ==>
              Find(j, [token]) == if i < |j.elems| then Ok(j.elems[i]) else Err(OutOfRange)
  {
    hide ToString, Value;
    assert [token][0] == token && [token][1..] == [];
    forall i: nat | token == ToString(i) ensures AllDigits(token) && Value(token) == i { ToStringCanonical(i); }
  }

  /** Every operation that `diff` emits is justified. */
  lemma {:induction false} DiffIsJustified(s: Json, t: Json)
    ensures AllJustified(Diff(s, t), s, t)
    decreases s, 1, 0
  {
    hide Find, DiffElements, DiffMembers, Removals, Additions, NewMembers, SortedKeys;
    if !Eq(s, t) {
      if !SameType(s, t) || (!s.Arr? && !s.Obj?) {
        RootReplaced(s, t);
      } else if s.Arr? {
        ArrayJustified(s, t);
      } else {
        ObjectJustified(s, t);
      }
    }
  }

  lemma RootReplaced(s: Json, t: Json)
    requires !Eq(s, t) && (!SameType(s, t) || (!s.Arr? && !s.Obj?))
    ensures Diff(s, t) == [Replace([], t)] && Justified(Replace([], t), s, t)
  {
    hide Eq;
  }

  lemma {:induction false} ArrayJustified(s: Json, t: Json)
    requires s.Arr? && t.Arr? && !Eq(s, t)
    ensures AllJustified(Diff(s, t), s, t)
    decreases s, 0, |s.elems| + 1
  {
    hide Find, DiffElements, Removals, Additions, Justified, Eq;
    var common := DiffElements(s, t, 0);
    var gone, more := Removals(|t.elems|, |s.elems|), Additions(t.elems, |s.elems|);
    ElementsJustified(s, t, 0);
    RemovalsJustified(s, t, |s.elems|);
    AdditionsJustified(s, t, |s.elems|);
    JustifiedConcat(common, gone, s, t);
    JustifiedConcat(common + gone, more, s, t);
  }

  lemma {:induction false} ElementsJustified(s: Json, t: Json, i: nat)
    requires s.Arr? && t.Arr? && i <= |s.elems|
    ensures AllJustified(DiffElements(s, t, i), s, t)
    decreases s, 0, |s.elems| - i
  {
    hide Justified, IsChild, ToString, Diff, AllUnder;
    if i < |s.elems| && i < |t.elems| {
      ElementsJustified(s, t, i + 1);
      DiffIsJustified(s.elems[i], t.elems[i]);
      ElementIsChild(s.elems, i);
      ElementIsChild(t.elems, i);
      UnderJustified(Diff(s.elems[i], t.elems[i]), ToString(i), s, t, s.elems[i], t.elems[i]);
      JustifiedConcat(AllUnder(ToString(i), Diff(s.elems[i], t.elems[i])), DiffElements(s, t, i + 1), s, t);
    }
  }

  lemma {:induction false} RemovalsJustified(s: Json, t: Json, hi: nat)
    requires s.Arr? && t.Arr? && hi <= |s.elems|
    ensures AllJustified(Removals(|t.elems|, hi), s, t)
    decreases hi
  {
    hide Find, ToString;
    if |t.elems| < hi {
      ChildFound(s, ToString(hi - 1));
      ChildFound(t, ToString(hi - 1));
      RemovalsJustified(s, t, hi - 1);
    }
  }

  lemma {:induction false} AdditionsJustified(s: Json, t: Json, i: nat)
    requires s.Arr? && t.Arr? && |s.elems| <= i
    ensures AllJustified(Additions(t.elems, i), s, t)
    decreases |t.elems| - i
  {
    hide Find, ToString;
    if i < |t.elems| {
      ChildFound(s, ToString(i));
      ChildFound(t, ToString(i));
      AdditionsJustified(s, t, i + 1);
    }
  }

  lemma {:induction false} ObjectJustified(s: Json, t: Json)
    requires s.Obj? && t.Obj? && !Eq(s, t)
    ensures AllJustified(Diff(s, t), s, t)
    decreases s, 0, |s.members.Keys| + 1
  {
    hide Find, DiffMembers, NewMembers, Justified, Eq, SortedKeys;
    var sKeys, tKeys := SortedKeys(s.members.Keys), SortedKeys(t.members.Keys);
    DiffOfObjects(s, t);
    MembersJustified(s, t, sKeys);
    NewMembersJustified(s, t, tKeys);
    JustifiedConcat(DiffMembers(s, t, sKeys), NewMembers(s.members, t.members, tKeys), s, t);
  }

  lemma {:induction false} MembersJustified(s: Json, t: Json, keys: seq<Bytes>)
    requires s.Obj? && t.Obj? && forall k :: k in keys ==> k in s.members
    ensures AllJustified(DiffMembers(s, t, keys), s, t)
    decreases s, 0, |keys|
  {
    hide Find, Justified, IsChild, Diff, AllUnder;
    if keys != [] {
      var k := keys[0];
      assert k in keys;
      MembersJustified(s, t, keys[1..]);
      if k in t.members {
        DiffIsJustified(s.members[k], t.members[k]);
        MemberIsChild(s.members, k);
        MemberIsChild(t.members, k);
        UnderJustified(Diff(s.members[k], t.members[k]), k, s, t, s.members[k], t.members[k]);
        JustifiedConcat(AllUnder(k, Diff(s.members[k], t.members[k])), DiffMembers(s, t, keys[1..]), s, t);
      } else {
        MemberRemoved(s, t, k);
        JustifiedConcat([Remove([k])], DiffMembers(s, t, keys[1..]), s, t);
      }
    }
  }

  lemma MemberRemoved(s: Json, t: Json, k: Bytes)
    requires s.Obj? && t.Obj? && k in s.members && k !in t.members
    ensures AllJustified([Remove([k])], s, t)
  {
    hide Find;
    ChildFound(s, k);
    ChildFound(t, k);
  }

  lemma {:induction false} NewMembersJustified(s: Json, t: Json, keys: seq<Bytes>)
    requires s.Obj? && t.Obj? && forall k :: k in keys ==> k in t.members
    ensures AllJustified(NewMembers(s.members, t.members, keys), s, t)
    decreases |keys|
  {
    hide Find;
    if keys != [] {
      assert keys[0] in keys;
      NewMembersJustified(s, t, keys[1..]);
      ChildFound(s, keys[0]);
      ChildFound(t, keys[0]);
    }
  }
}
