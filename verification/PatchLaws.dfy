/** What the operations of `patch` do, said about documents before and after: sections 4.1 to
    4.6 of RFC 6902, with the places where the code differs. */
module PatchLaws {
  import opened ByteStrings
  import opened Decimals
  import opened Patches
  import opened Pointers
  import opened Results
  import opened Values

  // ---- Arrays -------------------------------------------------------------------

  /** `r` is `a` with `v` put in front of the element at `i`. */
  predicate Inserted(a: seq<Json>, i: nat, v: Json, r: seq<Json>) {
    && i <= |a| && |r| == |a| + 1 && r[i] == v
    && (forall k :: 0 <= k < i ==> r[k] == a[k])
    && (forall k :: i <= k < |a| ==> r[k + 1] == a[k])
  }

  /** Section 4.1: an added element stands at its index, those before it stay, and those from
      there on move by one. Beyond the end there is no place, nor beyond what `stoi` reads. */
  lemma AddToArray(a: seq<Json>, i: nat, v: Json, checkTop: bool)
    ensures var r := ApplyOp(Arr(a), Add([ToString(i)], v), checkTop);
            if i <= |a| && i <= INT_MAX then r.Ok? && r.value.Arr? && Inserted(a, i, v, r.value.elems)
            else r == Err(OutOfRange)
  {
    hide ApplyOp, ToString, Stoi;
    ToStringCanonical(i);
    StoiOfToString(i);
    OneToken(Arr(a), ToString(i), v, checkTop);
    assert ToString(i) != DASH;
  }

  /** The token `-` is the place behind the last element. */
  lemma DashIsTheEnd(a: seq<Json>, v: Json, checkTop: bool)
    ensures var r := ApplyOp(Arr(a), Add([DASH], v), checkTop);
            r.Ok? && r.value.Arr? && Inserted(a, |a|, v, r.value.elems)
  {
    hide ApplyOp, Stoi;
    OneToken(Arr(a), DASH, v, checkTop);
  }

  /** Section 4.2: removing takes out just the element at the index. */
  lemma RemoveFromArray(a: seq<Json>, i: nat, checkTop: bool)
    ensures var r := ApplyOp(Arr(a), Remove([ToString(i)]), checkTop);
            if i < |a| && i <= INT_MAX then r.Ok? && r.value.Arr? && Inserted(r.value.elems, i, a[i], a)
            else r == Err(OutOfRange)
  {
    hide ApplyOp, ToString, Stoi;
    StoiOfToString(i);
    OneToken(Arr(a), ToString(i), Null, checkTop);
  }

  /** Tokens that are no index at all, or a negative one. */
  lemma BadIndex(a: seq<Json>, token: Bytes, v: Json, checkTop: bool)
    requires token != DASH && (Stoi(token).Err? || Stoi(token).value < 0)
    ensures var e := if Stoi(token).Err? then Stoi(token).error else OutOfRange;
            && ApplyOp(Arr(a), Add([token], v), checkTop) == Err(e)
            && ApplyOp(Arr(a), Remove([token]), checkTop) == Err(e)
            && (!(|token| > 1 && token[0] == ZERO) ==> GetChecked(Arr(a), [token]) == Err(e))
  {
    hide ApplyOp, Stoi;
    OneToken(Arr(a), token, v, checkTop);
    assert [token][0] == token;
  }

  /** For access, an index must not begin with a superfluous zero, and `-` is no element. */
  lemma AccessNeedsElement(a: seq<Json>, token: Bytes, rest: seq<Bytes>)
    ensures token == DASH ==> GetChecked(Arr(a), [token] + rest) == Err(OutOfRange)
    ensures |token| > 1 && token[0] == ZERO ==> GetChecked(Arr(a), [token] + rest) == Err(DomainError)
  {
    hide Stoi;
    assert ([token] + rest)[0] == token && ([token] + rest)[1..] == rest;
  }

  /** There is only one array with a given element put in, and one that it can be taken from. */
  lemma InsertedUnique(a: seq<Json>, b: seq<Json>, i: nat, v: Json, r: seq<Json>, s: seq<Json>)
    requires Inserted(a, i, v, r) && Inserted(b, i, v, s)
    ensures a == b <==> r == s
  {
    if r == s {
      forall k | 0 <= k < |a| ensures a[k] == b[k] {
        if k < i { assert r[k] == a[k]; } else { assert r[k + 1] == a[k]; }
      }
    }
    if a == b {
      forall k | 0 <= k < |r| ensures r[k] == s[k] {
        if k > i { assert r[k - 1 + 1] == a[k - 1]; }
      }
    }
  }

  /** Removing undoes adding, and adding back undoes removing, at every index. */
  lemma ArrayRoundTrips(a: seq<Json>, i: nat, v: Json, checkTop: bool)
    requires i <= INT_MAX
    ensures i <= |a| ==>
              ApplyAll(Arr(a), [Add([ToString(i)], v), Remove([ToString(i)])], checkTop) == Ok(Arr(a))
    ensures i < |a| ==>
              ApplyAll(Arr(a), [Remove([ToString(i)]), Add([ToString(i)], a[i])], checkTop) == Ok(Arr(a))
  {
    hide ApplyOp, ToString, ApplyAll;
    var token := ToString(i);
    if i <= |a| {
      AddToArray(a, i, v, checkTop);
      var r := ApplyOp(Arr(a), Add([token], v), checkTop).value.elems;
      RemoveFromArray(r, i, checkTop);
      var back := ApplyOp(Arr(r), Remove([token]), checkTop).value.elems;
      InsertedUnique(a, back, i, v, r, r);
      TwoOps(Arr(a), Add([token], v), Remove([token]), checkTop);
    }
    if i < |a| {
      RemoveFromArray(a, i, checkTop);
      var r := ApplyOp(Arr(a), Remove([token]), checkTop).value.elems;
      AddToArray(r, i, a[i], checkTop);
      var back := ApplyOp(Arr(r), Add([token], a[i]), checkTop).value.elems;
      InsertedUnique(r, r, i, a[i], a, back);
      TwoOps(Arr(a), Remove([token]), Add([token], a[i]), checkTop);
    }
  }

  lemma TwoOps(doc: Json, x: Op, y: Op, checkTop: bool)
    requires ApplyOp(doc, x, checkTop).Ok?
    ensures ApplyAll(doc, [x, y], checkTop) == ApplyOp(ApplyOp(doc, x, checkTop).value, y, checkTop)
  {
    hide ApplyOp;
    assert [x, y][1..] == [y];
    OneOp(ApplyOp(doc, x, checkTop).value, y, checkTop);
  }

  lemma OneOp(doc: Json, y: Op, checkTop: bool)
    ensures ApplyAll(doc, [y], checkTop) == ApplyOp(doc, y, checkTop)
  {
    hide ApplyOp;
    assert [y][1..] == [];
  }

  // ---- Objects and other parents --------------------------------------------------

  /** Adding a member sets it, whether it was there or not, and leaves all others. */
  lemma AddToObject(m: map<Bytes, Json>, k: Bytes, v: Json, checkTop: bool)
    ensures var r := ApplyOp(Obj(m), Add([k], v), checkTop);
            && r.Ok? && r.value.Obj? && r.value.members.Keys == m.Keys + {k} && r.value.members[k] == v
            && forall l :: l in m && l != k ==> r.value.members[l] == m[l]
  {
    hide ApplyOp;
    OneToken(Obj(m), k, v, checkTop);
  }

  /** Removing needs the member, and leaves all others. */
  lemma RemoveFromObject(m: map<Bytes, Json>, k: Bytes, checkTop: bool)
    ensures var r := ApplyOp(Obj(m), Remove([k]), checkTop);
            if k in m then
              && r.Ok? && r.value.Obj? && r.value.members.Keys == m.Keys - {k}
              && forall l :: l in m && l != k ==> r.value.members[l] == m[l]
            else r == Err(OutOfRange)
  {
    hide ApplyOp;
    OneToken(Obj(m), k, Null, checkTop);
  }

  /** Other parents: adding to null makes an object of it, adding to any other primitive
      violates an assertion, and removing from a primitive does nothing. The root can be
      replaced by adding, and not be removed. */
  lemma OtherParents(j: Json, token: Bytes, v: Json, checkTop: bool)
    requires j.Primitive()
    ensures ApplyOp(j, Add([token], v), checkTop)
            == if j.Null? then Ok(Obj(map[token := v])) else Err(AssertionFailed)
    ensures ApplyOp(j, Remove([token]), checkTop) == Ok(j)
    ensures ApplyOp(j, Add([], v), checkTop) == Ok(v) && ApplyOp(j, Remove([]), checkTop) == Err(DomainError)
  {
    OneToken(j, token, v, checkTop);
  }

  // ---- Places deeper in the document ------------------------------------------------

  /** Access goes down token by token: through the members of objects and the elements of
      arrays, and through nothing else. */
  lemma AccessStep(j: Json, token: Bytes, rest: seq<Bytes>)
    ensures GetChecked(j, []) == Ok(j)
    ensures j.Obj? ==> GetChecked(j, [token] + rest)
                       == if token in j.members then GetChecked(j.members[token], rest) else Err(OutOfRange)
    ensures forall i: nat :: j.Arr? && token == ToString(i) ==>
              GetChecked(j, [token] + rest)
              == if i < |j.elems| && i <= INT_MAX then GetChecked(j.elems[i], rest) else Err(OutOfRange)
    ensures j.Primitive() ==> GetChecked(j, [token] + rest) == Err(OutOfRange)
  {
    hide ToString, Stoi;
    assert ([token] + rest)[0] == token && ([token] + rest)[1..] == rest;
    forall i: nat | token == ToString(i)
      ensures Stoi(token) == (if i <= INT_MAX then Ok(i) else Err(OutOfRange)) && token != DASH
              && !(|token| > 1 && token[0] == ZERO)
    {
      ToStringCanonical(i);
      StoiOfToString(i);
    }
  }

  /** What unchecked access makes of null: an array below a number or `-`, and otherwise an
      object. */
  lemma NullBecomes(token: Bytes, rest: seq<Bytes>, e: Edit)
    requires EditUnchecked(Null, [token] + rest, e).Ok?
    ensures var r := EditUnchecked(Null, [token] + rest, e).value;
            if AllDigits(token) || token == DASH then r.Arr? else r.Obj? && r.members.Keys == {token}
  {
    hide UncheckedIndex;
    assert ([token] + rest)[0] == token;
  }

  /** Section 4.3: replacing needs the place; then the value is there, and putting the old
      value back gives the old document, so nothing else has changed. */
  lemma ReplaceLaws(doc: Json, path: seq<Bytes>, v: Json, checkTop: bool)
    ensures var r := ApplyOp(doc, Replace(path, v), checkTop);
            var old' := GetChecked(doc, path);
            && (r.Ok? <==> old'.Ok?)
            && (r.Err? ==> r.error == old'.error)
            && (r.Ok? ==> GetChecked(r.value, path) == Ok(v)
                          && ApplyOp(r.value, Replace(path, old'.value), checkTop) == Ok(doc))
  {
    PutLaws(doc, path, v);
  }

  lemma {:induction false} PutLaws(doc: Json, path: seq<Bytes>, v: Json)
    ensures var r := EditChecked(doc, path, Put(v));
            var was := GetChecked(doc, path);
            && (r.Ok? <==> was.Ok?)
            && (r.Err? ==> r.error == was.error)
            && (r.Ok? ==> GetChecked(r.value, path) == Ok(v) && EditChecked(r.value, path, Put(was.value)) == Ok(doc))
    decreases |path|
  {
    hide CheckedIndex;
    if path != [] {
      match doc
      case Obj(m) =>
        if path[0] in m { PutLaws(m[path[0]], path[1..], v); PutMember(m, path, v); }
      case Arr(a) =>
        var i := CheckedIndex(path[0], |a|);
        if i.Ok? { PutLaws(a[i.value], path[1..], v); PutElement(a, path, v, i.value); }
      case _ =>
    }
  }

  lemma PutMember(m: map<Bytes, Json>, path: seq<Bytes>, v: Json)
    requires path != [] && path[0] in m
    requires var r := EditChecked(m[path[0]], path[1..], Put(v));
             r.Ok? ==> GetChecked(m[path[0]], path[1..]).Ok?
                       && EditChecked(r.value, path[1..], Put(GetChecked(m[path[0]], path[1..]).value)) == Ok(m[path[0]])
    ensures var r := EditChecked(Obj(m), path, Put(v));
            r.Ok? ==> GetChecked(Obj(m), path).Ok?
                      && EditChecked(r.value, path, Put(GetChecked(Obj(m), path).value)) == Ok(Obj(m))
  {
    var r := EditChecked(m[path[0]], path[1..], Put(v));
    if r.Ok? { assert m[path[0] := r.value][path[0] := m[path[0]]] == m; }
  }

  lemma PutElement(a: seq<Json>, path: seq<Bytes>, v: Json, i: nat)
    requires path != [] && CheckedIndex(path[0], |a|) == Ok(i)
    requires var r := EditChecked(a[i], path[1..], Put(v));
             r.Ok? ==> GetChecked(a[i], path[1..]).Ok?
                       && EditChecked(r.value, path[1..], Put(GetChecked(a[i], path[1..]).value)) == Ok(a[i])
    ensures var r := EditChecked(Arr(a), path, Put(v));
            r.Ok? ==> GetChecked(Arr(a), path).Ok?
                      && EditChecked(r.value, path, Put(GetChecked(Arr(a), path).value)) == Ok(Arr(a))
  {
    hide CheckedIndex;
    var r := EditChecked(a[i], path[1..], Put(v));
    if r.Ok? { assert a[i := r.value][i := a[i]] == a; }
  }

  /** The document with the value at `path` replaced by what has become of it. */
  function WithPlace(doc: Json, path: seq<Bytes>, place: Result<Json>): Result<Json> {
    if place.Ok? then ApplyOp(doc, Replace(path, place.value), true) else place
  }

  /** Adding to and removing from a parent that exists, anywhere in the document: the parent is
      replaced by what the operation makes of it. */
  lemma BelowParent(doc: Json, path: seq<Bytes>, token: Bytes, v: Json)
    requires GetChecked(doc, path).Ok?
    ensures var parent := GetChecked(doc, path).value;
            && ApplyOp(doc, Add(path + [token], v), true) == WithPlace(doc, path, ApplyOp(parent, Add([token], v), true))
            && ApplyOp(doc, Remove(path + [token]), true) == WithPlace(doc, path, ApplyOp(parent, Remove([token]), true))
  {
    hide ApplyOp, WithPlace;
    AddBelowParent(doc, path, token, v);
    RemoveBelowParent(doc, path, token);
  }

  lemma AddBelowParent(doc: Json, path: seq<Bytes>, token: Bytes, v: Json)
    requires GetChecked(doc, path).Ok?
    ensures ApplyOp(doc, Add(path + [token], v), true)
         == WithPlace(doc, path, ApplyOp(GetChecked(doc, path).value, Add([token], v), true))
  {
    hide EditChecked, EditUnchecked, GetChecked, InsertChild;
    OneToken(GetChecked(doc, path).value, token, v, true);
    assert Front(path + [token]) == path && Last(path + [token]) == token;
    EditParent(doc, path, Insert(token, v));
    if path != [] {
      assert (path + [token])[..1] == path[..1];
      TopExists(doc, path);
    }
  }

  lemma RemoveBelowParent(doc: Json, path: seq<Bytes>, token: Bytes)
    requires GetChecked(doc, path).Ok?
    ensures ApplyOp(doc, Remove(path + [token]), true)
         == WithPlace(doc, path, ApplyOp(GetChecked(doc, path).value, Remove([token]), true))
  {
    hide EditChecked, EditUnchecked, GetChecked, EraseChild;
    OneToken(GetChecked(doc, path).value, token, Null, true);
    assert Front(path + [token]) == path && Last(path + [token]) == token;
    EditParent(doc, path, Erase(token));
  }

  lemma TopExists(doc: Json, path: seq<Bytes>)
    requires path != [] && GetChecked(doc, path).Ok?
    ensures GetChecked(doc, path[..1]).Ok?
  {
    hide CheckedIndex;
    assert path[..1][0] == path[0] && path[..1][1..] == [];
  }

  /** On places that exist, access with and without checks agree. */
  lemma {:induction false} EditParent(doc: Json, path: seq<Bytes>, e: Edit)
    requires GetChecked(doc, path).Ok?
    ensures EditUnchecked(doc, path, e) == EditChecked(doc, path, e)
    ensures var place := ApplyEdit(GetChecked(doc, path).value, e);
            EditChecked(doc, path, e) == if place.Ok? then EditChecked(doc, path, Put(place.value)) else place
    decreases |path|
  {
    hide ApplyEdit, CheckedIndex, UncheckedIndex;
    if path == [] {
      PutIsPlain(doc);
    } else {
      match doc
      case Obj(m) => EditParent(m[path[0]], path[1..], e);
      case Arr(a) =>
        CheckedIsUnchecked(path[0], |a|);
        EditParent(a[CheckedIndex(path[0], |a|).value], path[1..], e);
    }
  }

  lemma PutIsPlain(doc: Json)
    ensures forall p :: ApplyEdit(doc, Put(p)) == Ok(p)
  {
  }

  lemma CheckedIsUnchecked(token: Bytes, size: nat)
    requires CheckedIndex(token, size).Ok?
    ensures UncheckedIndex(token, size) == CheckedIndex(token, size)
  {
    hide Stoi;
  }

  /** Where the code is laxer than section 4.1: only the place that the first token names has
      to exist. If it does not, adding fails. */
  lemma AddNeedsTop(doc: Json, path: seq<Bytes>, v: Json)
    requires |path| > 1 && GetChecked(doc, path[..1]).Err?
    ensures ApplyOp(doc, Add(path, v), true).Err?
  {
    hide EditUnchecked;
  }

  /** A token that, read as an index, is written canonically. */
  predicate Canonical(token: Bytes) {
    token != DASH && (Stoi(token).Ok? && Stoi(token).value >= 0 ==> token == ToString(Stoi(token).value))
  }

  /** If adding succeeds, also where it creates what is missing above, the value is then found
      at the path. */
  lemma AddedIsThere(doc: Json, path: seq<Bytes>, v: Json, checkTop: bool)
    requires forall k :: 0 <= k < |path| ==> Canonical(path[k])
    requires ApplyOp(doc, Add(path, v), checkTop).Ok?
    ensures GetChecked(ApplyOp(doc, Add(path, v), checkTop).value, path) == Ok(v)
  {
    hide Canonical, GetChecked, EditUnchecked;
    if path == [] {
      RootIsThere(v);
    } else {
      assert path == Front(path) + [Last(path)];
      InsertedIsThere(doc, Front(path), Last(path), v);
    }
  }

  lemma RootIsThere(v: Json)
    ensures GetChecked(v, []) == Ok(v)
  {
  }

  lemma {:induction false} InsertedIsThere(doc: Json, path: seq<Bytes>, token: Bytes, v: Json)
    requires forall k :: 0 <= k < |path + [token]| ==> Canonical((path + [token])[k])
    requires EditUnchecked(doc, path, Insert(token, v)).Ok?
    ensures GetChecked(EditUnchecked(doc, path, Insert(token, v)).value, path + [token]) == Ok(v)
    decreases |path|
  {
    hide Canonical, CheckedIndex, UncheckedIndex;
    var all := path + [token];
    if path == [] {
      assert all == [token] && all[0] == token;
      ChildIsThere(doc, token, v);
    } else {
      assert all[0] == path[0] && all[1..] == path[1..] + [token];
      assert forall k :: 0 <= k < |all[1..]| ==> all[1..][k] == all[k + 1];
      var container :=
        if !doc.Null? then doc else if AllDigits(path[0]) || path[0] == DASH then Arr([]) else Obj(map[]);
      match container
      case Obj(m) => InsertedIsThere(if path[0] in m then m[path[0]] else Null, path[1..], token, v);
      case Arr(a) =>
        var i := UncheckedIndex(path[0], |a|).value;
        InsertedIsThere(Grown(a, i)[i], path[1..], token, v);
        CanonicalIndex(path[0], |a|, |Grown(a, i)|);
    }
  }

  lemma CanonicalIndex(token: Bytes, size: nat, more: nat)
    requires Canonical(token) && UncheckedIndex(token, size).Ok? && UncheckedIndex(token, size).value < more
    ensures CheckedIndex(token, more) == UncheckedIndex(token, size)
  {
    hide Stoi, ToString;
  }

  lemma ChildIsThere(j: Json, token: Bytes, v: Json)
    requires Canonical(token) && InsertChild(j, token, v).Ok?
    ensures GetChecked(InsertChild(j, token, v).value, [token]) == Ok(v)
  {
    hide Stoi, ToString;
    var path := [token];
    var r := InsertChild(j, token, v).value;
    assert path[0] == token && path[1..] == [];
    if j.Arr? {
      var i := Stoi(token).value;
      ToStringCanonical(i);
      assert CheckedIndex(token, |r.elems|) == Ok(i);
    }
  }

  // ---- test, move and copy ------------------------------------------------------------

  /** Section 4.6: the test succeeds exactly if the place holds an equal value, and changes
      nothing. */
  lemma TestLaws(doc: Json, path: seq<Bytes>, v: Json, checkTop: bool)
    ensures var r := ApplyOp(doc, Op.Test(path, v), checkTop);
            && (r.Ok? <==> GetChecked(doc, path).Ok? && Eq(GetChecked(doc, path).value, v))
            && (r.Ok? ==> r.value == doc)
            && (r.Err? ==> r.error == if GetChecked(doc, path).Err? && GetChecked(doc, path).error != OutOfRange
                                      then GetChecked(doc, path).error else DomainError)
  {
    hide GetChecked, Eq;
  }

  /** Section 4.4, in an object: moving renames a member. */
  lemma MoveMember(m: map<Bytes, Json>, k: Bytes, l: Bytes, checkTop: bool)
    requires k != l
    ensures var r := ApplyOp(Obj(m), Move([l], [k]), checkTop);
            if k in m then
              && r.Ok? && r.value.Obj? && r.value.members.Keys == m.Keys - {k} + {l} && r.value.members[l] == m[k]
              && forall x :: x in m && x != k && x != l ==> r.value.members[x] == m[x]
            else r == Err(OutOfRange)
  {
    hide ApplyOp;
    var j := Obj(m);
    MoveIsRemoveAdd(j, [l], [k], checkTop);
    MemberPlace(m, k);
    RemoveFromObject(m, k, checkTop);
    if k in m {
      AddToObject(ApplyOp(j, Remove([k]), checkTop).value.members, l, m[k], checkTop);
    }
  }

  lemma MoveIsRemoveAdd(doc: Json, path: seq<Bytes>, from: seq<Bytes>, checkTop: bool)
    ensures ApplyOp(doc, Move(path, from), checkTop) ==
            match GetChecked(doc, from)
            case Err(e) => Err(e)
            case Ok(v) =>
              match ApplyOp(doc, Remove(from), checkTop)
              case Err(e) => Err(e)
              case Ok(rest) => ApplyOp(rest, Add(path, v), checkTop)
  {
    hide GetChecked, EditChecked, EditUnchecked;
  }

  lemma MemberPlace(m: map<Bytes, Json>, k: Bytes)
    ensures GetChecked(Obj(m), [k]) == if k in m then Ok(m[k]) else Err(OutOfRange)
  {
    assert [k][0] == k && [k][1..] == [];
  }

  /** In an array the element is taken out first; the target index counts in what is left. */
  lemma MoveElement(a: seq<Json>, i: nat, k: nat, checkTop: bool)
    requires i < |a| && k < |a| && |a| <= INT_MAX
    ensures var r := ApplyOp(Arr(a), Move([ToString(k)], [ToString(i)]), checkTop);
            && r.Ok? && r.value.Arr? && Inserted(a[..i] + a[i + 1..], k, a[i], r.value.elems)
  {
    hide ApplyOp, ToString;
    MoveIsRemoveAdd(Arr(a), [ToString(k)], [ToString(i)], checkTop);
    ElementPlace(a, i);
    RemoveFromArray(a, i, checkTop);
    var rest := ApplyOp(Arr(a), Remove([ToString(i)]), checkTop).value.elems;
    assert Inserted(a[..i] + a[i + 1..], i, a[i], a);
    InsertedUnique(rest, a[..i] + a[i + 1..], i, a[i], a, a);
    AddToArray(rest, k, a[i], checkTop);
  }

  lemma ElementPlace(a: seq<Json>, i: nat)
    requires i < |a| && i <= INT_MAX
    ensures GetChecked(Arr(a), [ToString(i)]) == Ok(a[i])
  {
    hide ToString, Stoi;
    ToStringCanonical(i);
    StoiOfToString(i);
    var path := [ToString(i)];
    assert path[0] == ToString(i) && path[1..] == [];
  }

  /** Section 4.5 wants `copy` to add; in an array the code overwrites the element at the target
      index instead of inserting. */
  lemma CopyElementOverwrites(a: seq<Json>, i: nat, k: nat, checkTop: bool)
    requires i < |a| && k < |a| && |a| <= INT_MAX
    ensures ApplyOp(Arr(a), Copy([ToString(k)], [ToString(i)]), checkTop) == Ok(Arr(a[k := a[i]]))
  {
    hide ToString, Stoi, GetChecked;
    ElementPlace(a, i);
    ToStringCanonical(k);
    StoiOfToString(k);
    assert UncheckedIndex(ToString(k), |a|) == Ok(k);
    PutChild(Arr(a), ToString(k), a[i]);
    assert Grown(a, k) == a;
  }

  /** Putting a value at a child. */
  lemma PutChild(j: Json, token: Bytes, v: Json)
    ensures j.Obj? ==> EditUnchecked(j, [token], Put(v)) == Ok(Obj(j.members[token := v]))
    ensures j.Arr? && UncheckedIndex(token, |j.elems|).Ok? ==>
              var i := UncheckedIndex(token, |j.elems|).value;
              EditUnchecked(j, [token], Put(v)) == Ok(Arr(Grown(j.elems, i)[i := v]))
  {
    hide UncheckedIndex;
    assert [token][1..] == [];
    assert forall x :: EditUnchecked(x, [], Put(v)) == Ok(v);
  }

  lemma CopyMember(m: map<Bytes, Json>, k: Bytes, l: Bytes, checkTop: bool)
    ensures ApplyOp(Obj(m), Copy([l], [k]), checkTop) == if k in m then Ok(Obj(m[l := m[k]])) else Err(OutOfRange)
  {
    hide GetChecked;
    MemberPlace(m, k);
    if k in m { PutChild(Obj(m), l, m[k]); }
  }

  // ---- Patch documents ------------------------------------------------------------------

  function NameOf(op: Op): Bytes {
    match op
    case Add(_, _) => ADD
    case Remove(_) => REMOVE
    case Replace(_, _) => REPLACE
    case Move(_, _) => MOVE
    case Copy(_, _) => COPY
    case Test(_, _) => TEST
  }

  /** The members of an element of a patch document that stands for `op`; there may be others. */
  predicate Describes(m: map<Bytes, Json>, op: Op) {
    && OP_KEY in m && m[OP_KEY] == Str(NameOf(op))
    && PATH_KEY in m && m[PATH_KEY] == Str(ToText(op.path))
    && (op.Add? || op.Replace? || op.Test? ==> VALUE_KEY in m && m[VALUE_KEY] == op.value)
    && (op.Move? || op.Copy? ==> FROM_KEY in m && m[FROM_KEY] == Str(ToText(op.from)))
  }

  lemma SplitIff(text: Bytes, path: seq<Bytes>)
    ensures Split(text) == Ok(path) <==> text == ToText(path)
  {
    SplitOfText(path);
    TextOfSplit(text);
  }

  lemma NamesDiffer()
    ensures |ADD| == 3 && |REMOVE| == 6 && |REPLACE| == 7 && |MOVE| == |COPY| == |TEST| == 4
    ensures MOVE != COPY && MOVE != TEST && COPY != TEST
  {
    assert MOVE[0] != COPY[0] && MOVE[0] != TEST[0] && COPY[0] != TEST[0];
  }

  /** An element is read as an operation exactly if its members describe that operation. */
  lemma OperationIsRead(m: map<Bytes, Json>, op: Op)
    ensures ReadOp(Obj(m)) == Ok(op) <==> Describes(m, op)
  {
    hide Split, ToText;
    NamesDiffer();
    SplitIff(if PATH_KEY in m && m[PATH_KEY].Str? then m[PATH_KEY].s else [], op.path);
    if op.Move? || op.Copy? {
      SplitIff(if FROM_KEY in m && m[FROM_KEY].Str? then m[FROM_KEY].s else [], op.from);
    }
  }
}
