/** `flatten` and `unflatten`, and exactly when the second undoes the first. */
module Flattening {
  import opened ByteStrings
  import opened Results
  import opened Values
  import opened Decimals
  import opened Pointers
  import opened Patches

  const ZERO_TOKEN: Bytes := [ZERO]

  // ---- flatten ----------------------------------------------------------------

  /** The members that `flatten` adds for `value`, whose pointer text is `base`. */
  function Flat(base: Bytes, value: Json): map<Bytes, Json>
    decreases value, 1, 0
  {
    match value
    case Arr(a) => if a == [] then map[base := Null] else FlatElements(base, value, 0)
    case Obj(m) => if m == map[] then map[base := Null] else FlatMembers(base, value, SortedKeys(m.Keys))
    case _ => map[base := value]
  }

  function FlatElements(base: Bytes, value: Json, i: nat): map<Bytes, Json>
    requires value.Arr?
    decreases value, 0, |value.elems| - i
  {
    if i < |value.elems| then
      Flat(base + [SLASH] + ToString(i), value.elems[i]) + FlatElements(base, value, i + 1)
    else map[]
  }

  function FlatMembers(base: Bytes, value: Json, keys: seq<Bytes>): map<Bytes, Json>
    requires value.Obj? && forall k :: k in keys ==> k in value.members
    decreases value, 0, |keys|
  {
    if keys == [] then map[] else
    Flat(base + [SLASH] + Escape(keys[0]), value.members[keys[0]]) + FlatMembers(base, value, keys[1..])
  }

  /** `flatten`, adding to `result` member by member. */
  method Flatten(base: Bytes, value: Json, result0: map<Bytes, Json>) returns (result: map<Bytes, Json>)
    ensures result == result0 + Flat(base, value)
    decreases value, 1
  {
    hide FlatElements, FlatMembers, SortedKeys;
    if value.Arr? && value.elems != [] {
      result := FlattenArray(base, value, result0);
    } else if value.Obj? && value.members != map[] {
      result := FlattenObject(base, value, result0);
    } else if value.Primitive() {
      result := result0[base := value];
    } else {
      result := result0[base := Null];
    }
  }

  method FlattenArray(base: Bytes, value: Json, result0: map<Bytes, Json>) returns (result: map<Bytes, Json>)
    requires value.Arr?
    ensures result == result0 + FlatElements(base, value, 0)
    decreases value, 0
  {
    hide Flat, ToString, ToText, Escape;
    result := result0;
    var i := 0;
    while i < |value.elems|
      invariant 0 <= i <= |value.elems|
      invariant result0 + FlatElements(base, value, 0) == result + FlatElements(base, value, i)
    {
      MergeAssociative(result, Flat(base + [SLASH] + ToString(i), value.elems[i]), FlatElements(base, value, i + 1));
      result := Flatten(base + [SLASH] + ToString(i), value.elems[i], result);
      i := i + 1;
    }
  }

  lemma MergeAssociative(a: map<Bytes, Json>, b: map<Bytes, Json>, c: map<Bytes, Json>)
    ensures a + (b + c) == a + b + c
  {
  }

  method FlattenObject(base: Bytes, value: Json, result0: map<Bytes, Json>) returns (result: map<Bytes, Json>)
    requires value.Obj?
    ensures result == result0 + FlatMembers(base, value, SortedKeys(value.members.Keys))
    decreases value, 0
  {
    hide Flat, FlatMembers, Escape, SortedKeys, ToText;
    var keys := SortedKeys(value.members.Keys);
    result := result0;
    var i := 0;
    assert keys[0..] == keys;
    while i < |keys|
      invariant 0 <= i <= |keys|
      invariant result0 + FlatMembers(base, value, keys) == result + FlatMembers(base, value, keys[i..])
    {
      FlatMembersStep(base, value, keys, i);
      MergeAssociative(result, Flat(base + [SLASH] + Escape(keys[i]), value.members[keys[i]]),
                       FlatMembers(base, value, keys[i + 1..]));
      result := Flatten(base + [SLASH] + Escape(keys[i]), value.members[keys[i]], result);
      i := i + 1;
    }
    FlatMembersEnd(base, value, keys);
  }

  lemma FlatMembersStep(base: Bytes, value: Json, keys: seq<Bytes>, i: nat)
    requires value.Obj? && i < |keys| && forall k :: k in keys ==> k in value.members
    ensures FlatMembers(base, value, keys[i..]) ==
            Flat(base + [SLASH] + Escape(keys[i]), value.members[keys[i]]) + FlatMembers(base, value, keys[i + 1..])
  {
    hide Flat, Escape;
    assert keys[i..][1..] == keys[i + 1..];
  }

  lemma FlatMembersEnd(base: Bytes, value: Json, keys: seq<Bytes>)
    requires value.Obj? && forall k :: k in keys ==> k in value.members
    ensures FlatMembers(base, value, keys[|keys|..]) == map[]
  {
  }

  // ---- unflatten --------------------------------------------------------------

  /** Assigning `v` through the reference that `get_and_create` returns. */
  function PutCreate(j: Json, path: seq<Bytes>, v: Json): Result<Json>
    decreases |path|
  {
    if path == [] then Ok(v) else
    var container := if !j.Null? then j else if path[0] == ZERO_TOKEN then Arr([]) else Obj(map[]);
    match container
    case Obj(m) =>
      var child :- PutCreate(if path[0] in m then m[path[0]] else Null, path[1..], v);
      Ok(Obj(m[path[0] := child]))
    case Arr(a) =>
      var i :- Stoi(path[0]);
      if i < 0 then Err(OutOfRange) else
      var child :- PutCreate(Grown(a, i)[i], path[1..], v);
      Ok(Arr(Grown(a, i)[i := child]))
    case _ => Err(DomainError)
  }

  function UnflattenFrom(doc: Json, m: map<Bytes, Json>, keys: seq<Bytes>): Result<Json>
    requires forall k :: k in keys ==> k in m
    decreases |keys|
  {
    if keys == [] then Ok(doc)
    else if !m[keys[0]].Primitive() then Err(DomainError)
    else
      var path :- Split(keys[0]);
      var next :- PutCreate(doc, path, m[keys[0]]);
      UnflattenFrom(next, m, keys[1..])
  }

  /** `unflatten`: the members are taken in key order. */
  method Unflatten(value: Json) returns (r: Result<Json>)
    ensures r == if value.Obj? then UnflattenFrom(Null, value.members, SortedKeys(value.members.Keys)) else Err(DomainError)
  {
    hide PutCreate, Split, SortedKeys;
    if !value.Obj? {
      return Err(DomainError);
    }
    var m := value.members;
    var keys := SortedKeys(m.Keys);
    var result := Null;
    var i := 0;
    assert keys[0..] == keys;
    while i < |keys|
      invariant 0 <= i <= |keys|
      invariant UnflattenFrom(Null, m, keys) == UnflattenFrom(result, m, keys[i..])
    {
      if !m[keys[i]].Primitive() {
        return Err(DomainError);
      }
      assert keys[i..][1..] == keys[i + 1..];
      var path :- Split(keys[i]);
      result :- PutCreate(result, path, m[keys[i]]);
      i := i + 1;
    }
    return Ok(result);
  }

  /** Where `get_and_create` cannot go: a primitive other than null has no children, and the
      token for an array has to be a number that is not negative. Null becomes an array for the
      token "0" alone, and an object for any other. */
  lemma CreatingLaws(j: Json, token: Bytes, rest: seq<Bytes>, v: Json)
    ensures var r := PutCreate(j, [token] + rest, v);
            && (j.Primitive() && !j.Null? ==> r == Err(DomainError))
            && (j.Arr? && Stoi(token).Err? ==> r == Err(Stoi(token).error))
            && (j.Arr? && Stoi(token).Ok? && Stoi(token).value < 0 ==> r == Err(OutOfRange))
            && (j.Null? && r.Ok? ==>
                  if token == ZERO_TOKEN then r.value.Arr? && |r.value.elems| == 1
                  else r.value.Obj? && r.value.members.Keys == {token})
            && PutCreate(j, [], v) == Ok(v)
  {
    hide Stoi;
    assert ([token] + rest)[0] == token;
    ZeroIsRead();
  }

  lemma ZeroIsRead()
    ensures Stoi(ZERO_TOKEN) == Ok(0)
  {
    StoiOfToString(0);
  }

  /** `unflatten` accepts nothing but primitives under valid pointer texts. */
  lemma {:induction false} UnflattenNeeds(doc: Json, m: map<Bytes, Json>, keys: seq<Bytes>)
    requires forall k :: k in keys ==> k in m
    requires UnflattenFrom(doc, m, keys).Ok?
    ensures forall k :: k in keys ==> m[k].Primitive() && Split(k).Ok?
    decreases |keys|
  {
    hide Split, PutCreate;
    if keys != [] {
      var next := PutCreate(doc, Split(keys[0]).value, m[keys[0]]).value;
      UnflattenNeeds(next, m, keys[1..]);
      assert keys == [keys[0]] + keys[1..];
    }
  }

  // ---- Leaves -----------------------------------------------------------------

  datatype Option<T> = None | Some(value: T)

  /** Flattened as one member: a primitive or an empty container. */
  predicate Leaf(j: Json) {
    match j
    case Arr(a) => a == []
    case Obj(m) => m == map[]
    case _ => true
  }

  predicate IsIndex(token: Bytes, size: nat) {
    AllDigits(token) && Value(token) < size && token == ToString(Value(token))
  }

  /** The value of the flattened member with the path `path`, if there is one. */
  function LeafAt(j: Json, path: seq<Bytes>): Option<Json>
    decreases |path|
  {
    if path == [] then
      if !Leaf(j) then None else if j.Primitive() then Some(j) else Some(Null)
    else
      match j
      case Arr(a) => if IsIndex(path[0], |a|) then LeafAt(a[Value(path[0])], path[1..]) else None
      case Obj(m) => if path[0] in m then LeafAt(m[path[0]], path[1..]) else None
      case _ => None
  }

  lemma {:induction false} SomeLeaf(j: Json) returns (path: seq<Bytes>)
    ensures LeafAt(j, path).Some?
    ensures Leaf(j) <==> path == []
  {
    match j
    case Arr(a) =>
      if a == [] { return []; }
      var p := SomeLeaf(a[0]);
      ToStringCanonical(0);
      path := [ToString(0)] + p;
      assert path[1..] == p;
    case Obj(m) =>
      if m == map[] { return []; }
      var k :| k in m;
      var p := SomeLeaf(m[k]);
      path := [k] + p;
      assert path[1..] == p;
    case _ => path := [];
  }

  lemma {:induction false} LeafShape(j: Json, path: seq<Bytes>)
    requires LeafAt(j, path).Some?
    ensures Leaf(j) <==> path == []
    ensures LeafAt(j, path).value.Primitive()
    decreases |path|
  {
    hide ToString, Value;
    if path != [] {
      match j
      case Arr(a) => LeafShape(a[Value(path[0])], path[1..]);
      case Obj(m) => LeafShape(m[path[0]], path[1..]);
    }
  }

  /** What was assigned is then found, below tokens that are written canonically if they are
      read as numbers. */
  lemma {:induction false} PutIsThere(j: Json, path: seq<Bytes>, v: Json)
    requires v.Primitive() && PutCreate(j, path, v).Ok?
    requires forall k :: 0 <= k < |path| && Stoi(path[k]).Ok? && Stoi(path[k]).value >= 0 ==>
               path[k] == ToString(Stoi(path[k]).value)
    ensures LeafAt(PutCreate(j, path, v).value, path) == Some(v)
    decreases |path|
  {
    hide Stoi, ToString, Value;
    if path != [] {
      assert forall k :: 0 <= k < |path| - 1 ==> path[1..][k] == path[k + 1];
      var container := if !j.Null? then j else if path[0] == ZERO_TOKEN then Arr([]) else Obj(map[]);
      match container
      case Obj(m) => PutIsThere(if path[0] in m then m[path[0]] else Null, path[1..], v);
      case Arr(a) =>
        var i := Stoi(path[0]).value;
        ToStringCanonical(i);
        PutIsThere(Grown(a, i)[i], path[1..], v);
    }
  }

  /** An element of the flattened object. */
  datatype Entry = Entry(path: seq<Bytes>, value: Json)

  predicate TextSorted(entries: seq<Entry>) {
    forall i, j :: 0 <= i < j < |entries| ==> Less(ToText(entries[i].path), ToText(entries[j].path))
  }

  /** `entries` are the leaves of `j` in the order of their pointer texts. */
  ghost predicate Enumerates(entries: seq<Entry>, j: Json) {
    && TextSorted(entries)
    && forall path, v :: Entry(path, v) in entries <==> LeafAt(j, path) == Some(v)
  }

  /** Rebuilding a document from entries. */
  function Run(doc: Json, entries: seq<Entry>): Result<Json>
    decreases |entries|
  {
    if entries == [] then Ok(doc) else
    var next :- PutCreate(doc, entries[0].path, entries[0].value);
    Run(next, entries[1..])
  }

  // ---- Projection: a child is rebuilt from its own entries --------------------

  predicate AllBelow(entries: seq<Entry>) {
    forall i :: 0 <= i < |entries| ==> entries[i].path != []
  }

  /** The entries below the child `token`, relative to it. */
  function Project(entries: seq<Entry>, token: Bytes): seq<Entry>
    requires AllBelow(entries)
  {
    if entries == [] then []
    else
      (if entries[0].path[0] == token then [Entry(entries[0].path[1..], entries[0].value)] else [])
      + Project(entries[1..], token)
  }

  lemma {:induction false} ProjectMembers(entries: seq<Entry>, token: Bytes, path: seq<Bytes>, v: Json)
    requires AllBelow(entries)
    ensures Entry(path, v) in Project(entries, token) <==> Entry([token] + path, v) in entries
  {
    if entries != [] {
      var e := entries[0];
      ProjectMembers(entries[1..], token, path, v);
      assert entries == [e] + entries[1..];
      assert e.path == [e.path[0]] + e.path[1..];
    }
  }

  lemma {:induction false} ProjectSorted(entries: seq<Entry>, token: Bytes)
    requires AllBelow(entries) && TextSorted(entries)
    ensures TextSorted(Project(entries, token))
  {
    hide ToText, Less;
    if entries != [] {
      var e := entries[0];
      var rest := Project(entries[1..], token);
      ProjectSorted(entries[1..], token);
      if e.path[0] == token {
        forall i | 0 <= i < |rest| ensures Less(ToText(e.path[1..]), ToText(rest[i].path)) {
          ProjectMembers(entries[1..], token, rest[i].path, rest[i].value);
          assert Entry(rest[i].path, rest[i].value) in rest;
          var f := Entry([token] + rest[i].path, rest[i].value);
          assert f in entries[1..];
          assert Less(ToText(e.path), ToText(f.path));
          assert e.path == [token] + e.path[1..];
          ToTextCons(token, e.path[1..]);
          ToTextCons(token, rest[i].path);
          LessCommonPrefix([SLASH] + Escape(token), ToText(e.path[1..]), ToText(rest[i].path));
        }
      }
    }
  }

  predicate Mentions(entries: seq<Entry>, token: Bytes)
    requires AllBelow(entries)
  {
    exists i :: 0 <= i < |entries| && entries[i].path[0] == token
  }

  function MemberOrNull(m: map<Bytes, Json>, k: Bytes): Json {
    if k in m then m[k] else Null
  }

  lemma {:induction false} NotMentioned(entries: seq<Entry>, token: Bytes)
    requires AllBelow(entries)
    ensures Mentions(entries, token) <==> Project(entries, token) != []
  {
    if entries != [] {
      NotMentioned(entries[1..], token);
      assert entries == [entries[0]] + entries[1..];
      assert Mentions(entries, token) <==> entries[0].path[0] == token || Mentions(entries[1..], token) by {
        if Mentions(entries[1..], token) {
          var i :| 0 <= i < |entries[1..]| && entries[1..][i].path[0] == token;
          assert entries[i + 1].path[0] == token;
        }
        if entries[0].path[0] != token && Mentions(entries, token) {
          var i :| 0 <= i < |entries| && entries[i].path[0] == token;
          assert entries[1..][i - 1].path[0] == token;
        }
      }
    }
  }

  lemma ProjectStep(entries: seq<Entry>, token: Bytes)
    requires AllBelow(entries) && entries != []
    ensures if entries[0].path[0] == token then
              && Project(entries, token) != []
              && Project(entries, token)[0] == Entry(entries[0].path[1..], entries[0].value)
              && Project(entries, token)[1..] == Project(entries[1..], token)
            else Project(entries, token) == Project(entries[1..], token)
  {
  }

  /** Rebuilding into an object rebuilds each member from its own entries. */
  lemma {:induction false} RunObjectAt(m: map<Bytes, Json>, entries: seq<Entry>, k: Bytes)
    requires AllBelow(entries) && Run(Obj(m), entries).Ok?
    ensures var r := Run(Obj(m), entries).value;
            && r.Obj?
            && (k in r.members <==> k in m || Project(entries, k) != [])
            && (k in r.members ==> Run(MemberOrNull(m, k), Project(entries, k)) == Ok(r.members[k]))
    decreases |entries|
  {
    if entries != [] {
      var e := entries[0];
      var t := e.path[0];
      var child := PutCreate(MemberOrNull(m, t), e.path[1..], e.value).value;
      assert PutCreate(Obj(m), e.path, e.value) == Ok(Obj(m[t := child]));
      RunObjectAt(m[t := child], entries[1..], k);
      ProjectStep(entries, k);
    }
  }

  lemma {:induction false} RunObjectOk(m: map<Bytes, Json>, entries: seq<Entry>)
    requires AllBelow(entries)
    requires forall k :: Run(MemberOrNull(m, k), Project(entries, k)).Ok?
    ensures Run(Obj(m), entries).Ok?
    decreases |entries|
  {
    if entries != [] {
      var e := entries[0];
      var t := e.path[0];
      assert Run(MemberOrNull(m, t), Project(entries, t)).Ok?;
      ProjectStep(entries, t);
      var child := PutCreate(MemberOrNull(m, t), e.path[1..], e.value).value;
      var m' := m[t := child];
      assert PutCreate(Obj(m), e.path, e.value) == Ok(Obj(m'));
      forall k ensures Run(MemberOrNull(m', k), Project(entries[1..], k)).Ok? {
        ProjectStep(entries, k);
        assert Run(MemberOrNull(m, k), Project(entries, k)).Ok?;
      }
      RunObjectOk(m', entries[1..]);
    }
  }

  function ElementOrNull(a: seq<Json>, i: nat): Json {
    if i < |a| then a[i] else Null
  }

  /** All entries are below elements of an array of the given size. */
  predicate AllInArray(entries: seq<Entry>, size: nat) {
    AllBelow(entries) && forall i :: 0 <= i < |entries| ==> IsIndex(entries[i].path[0], size)
  }

  /** Some entry is below an element with an index of at least `i`. */
  predicate Reaches(entries: seq<Entry>, size: nat, i: nat)
    requires AllInArray(entries, size)
  {
    exists k :: 0 <= k < |entries| && i <= Value(entries[k].path[0])
  }

  lemma PutIntoArray(a: seq<Json>, e: Entry, size: nat)
    requires e.path != [] && IsIndex(e.path[0], size)
    ensures var i := Value(e.path[0]);
            PutCreate(Arr(a), e.path, e.value) ==
            if i > INT_MAX then Err(OutOfRange) else
            match PutCreate(ElementOrNull(a, i), e.path[1..], e.value)
            case Ok(child) => Ok(Arr(Grown(a, i)[i := child]))
            case Err(error) => Err(error)
  {
    hide Stoi, ToString;
    StoiOfToString(Value(e.path[0]));
  }

  lemma ReachesStep(entries: seq<Entry>, size: nat, i: nat)
    requires AllInArray(entries, size) && entries != []
    ensures Reaches(entries, size, i) <==> i <= Value(entries[0].path[0]) || Reaches(entries[1..], size, i)
  {
    hide ToString, Value;
    var rest := entries[1..];
    assert entries == [entries[0]] + rest;
    if Reaches(rest, size, i) {
      var k :| 0 <= k < |rest| && i <= Value(rest[k].path[0]);
      assert i <= Value(entries[k + 1].path[0]);
    }
  }

  lemma {:induction false} RunArrayAt(a: seq<Json>, entries: seq<Entry>, size: nat, i: nat)
    requires AllInArray(entries, size) && Run(Arr(a), entries).Ok?
    ensures var r := Run(Arr(a), entries).value;
            && r.Arr?
            && (i < |r.elems| <==> i < |a| || Reaches(entries, size, i))
            && (i < |r.elems| ==> Run(ElementOrNull(a, i), Project(entries, ToString(i))) == Ok(r.elems[i]))
            && (Project(entries, ToString(i)) != [] ==> i <= INT_MAX)
    decreases |entries|
  {
    hide PutCreate, ToString, Value;
    if entries != [] {
      var e, rest := entries[0], entries[1..];
      var t := Value(e.path[0]);
      PutIntoArray(a, e, size);
      var child := PutCreate(ElementOrNull(a, t), e.path[1..], e.value).value;
      var a' := Grown(a, t)[t := child];
      RunArrayAt(a', rest, size, i);
      ReachesStep(entries, size, i);
      ToStringCanonical(i);
      ProjectStep(entries, ToString(i));
      if i != t {
        assert ElementOrNull(a', i) == ElementOrNull(a, i);
      }
    }
  }

  lemma {:induction false} RunArrayOk(a: seq<Json>, entries: seq<Entry>, size: nat)
    requires AllInArray(entries, size) && size <= INT_MAX + 1
    requires forall i: nat :: Run(ElementOrNull(a, i), Project(entries, ToString(i))).Ok?
    ensures Run(Arr(a), entries).Ok?
    decreases |entries|
  {
    hide PutCreate, ToString, Value;
    if entries != [] {
      var e, rest := entries[0], entries[1..];
      var t := Value(e.path[0]);
      PutIntoArray(a, e, size);
      assert Run(ElementOrNull(a, t), Project(entries, ToString(t))).Ok?;
      ProjectStep(entries, ToString(t));
      var child := PutCreate(ElementOrNull(a, t), e.path[1..], e.value).value;
      var a' := Grown(a, t)[t := child];
      forall i: nat ensures Run(ElementOrNull(a', i), Project(rest, ToString(i))).Ok? {
        assert Run(ElementOrNull(a, i), Project(entries, ToString(i))).Ok?;
        ProjectStep(entries, ToString(i));
        ToStringCanonical(i);
        ToStringCanonical(t);
        if i != t { assert ElementOrNull(a', i) == ElementOrNull(a, i); }
      }
      RunArrayOk(a', rest, size);
    }
  }

  // ---- Which child is visited first -------------------------------------------

  /** The part of a child's pointer texts that decides the order among its siblings. */
  function KeyText(k: Bytes, child: Json): Bytes {
    Escape(k) + if Leaf(child) then [] else [SLASH]
  }

  /** The member "0" is visited before all others. */
  predicate ZeroFirst(m: map<Bytes, Json>) {
    ZERO_TOKEN in m
    && forall k :: k in m && k != ZERO_TOKEN ==> Less(KeyText(ZERO_TOKEN, m[ZERO_TOKEN]), KeyText(k, m[k]))
  }

  lemma {:induction false} TextOrder(a: Bytes, b: Bytes, s: Bytes, t: Bytes)
    requires a != b && SLASH !in a && SLASH !in b
    requires s != [] ==> s[0] == SLASH
    requires t != [] ==> t[0] == SLASH
    ensures Less(a + s, b + t) ==
            Less(a + if s == [] then [] else [SLASH], b + if t == [] then [] else [SLASH])
  {
    var s', t' := if s == [] then [] else [SLASH], if t == [] then [] else [SLASH];
    if a == [] {
      assert a + s == s && a + s' == s';
      assert (b + t)[0] == b[0] == (b + t')[0];
    } else if b == [] {
      assert b + t == t && b + t' == t';
      assert (a + s)[0] == a[0] == (a + s')[0];
    } else if a[0] == b[0] {
      assert a == [a[0]] + a[1..] && b == [b[0]] + b[1..];
      TextOrder(a[1..], b[1..], s, t);
      assert (a + s)[1..] == a[1..] + s && (b + t)[1..] == b[1..] + t;
      assert (a + s')[1..] == a[1..] + s' && (b + t')[1..] == b[1..] + t';
    } else {
      assert (a + s)[0] == a[0] == (a + s')[0];
      assert (b + t)[0] == b[0] == (b + t')[0];
    }
  }

  lemma LeafText(j: Json, path: seq<Bytes>)
    requires LeafAt(j, path).Some?
    ensures Leaf(j) <==> ToText(path) == []
    ensures ToText(path) != [] ==> ToText(path)[0] == SLASH
  {
    hide Escape;
    LeafShape(j, path);
    if path != [] {
      ToTextCons(path[0], path[1..]);
      assert path == [path[0]] + path[1..];
    }
  }

  lemma EscapeInjective(k: Bytes, l: Bytes)
    requires Escape(k) == Escape(l)
    ensures k == l
  {
    hide Escape, Unescape;
    EscapeRoundTrip(k);
    EscapeRoundTrip(l);
  }

  /** Leaves of different children are ordered like the key texts of the children. */
  lemma ChildOrder(k: Bytes, x: Json, p: seq<Bytes>, l: Bytes, y: Json, q: seq<Bytes>)
    requires k != l && LeafAt(x, p).Some? && LeafAt(y, q).Some?
    ensures Less(ToText([k] + p), ToText([l] + q)) == Less(KeyText(k, x), KeyText(l, y))
  {
    hide Escape, LeafAt, Leaf, ToText, Less;
    LeafText(x, p);
    LeafText(y, q);
    EscapeRoundTrip(k);
    EscapeRoundTrip(l);
    if Escape(k) == Escape(l) { EscapeInjective(k, l); }
    ToTextCons(k, p);
    ToTextCons(l, q);
    TextOrder(Escape(k), Escape(l), ToText(p), ToText(q));
    assert [SLASH] + Escape(k) + ToText(p) == [SLASH] + (Escape(k) + ToText(p));
    assert [SLASH] + Escape(l) + ToText(q) == [SLASH] + (Escape(l) + ToText(q));
    LessCommonPrefix([SLASH], Escape(k) + ToText(p), Escape(l) + ToText(q));
  }

  // ---- When unflatten undoes flatten ------------------------------------------

  /** No empty container, no object that is rebuilt as an array because its member "0" comes
      first, and no index that `stoi` rejects. */
  predicate Faithful(j: Json) {
    match j
    case Arr(a) => a != [] && |a| <= INT_MAX + 1 && forall i :: 0 <= i < |a| ==> Faithful(a[i])
    case Obj(m) => m != map[] && !ZeroFirst(m) && forall k :: k in m ==> Faithful(m[k])
    case _ => true
  }

  lemma EnumerationShape(entries: seq<Entry>, j: Json)
    requires Enumerates(entries, j)
    ensures entries != []
    ensures !Leaf(j) ==> AllBelow(entries)
    ensures Leaf(j) ==> entries == [Entry([], if j.Primitive() then j else Null)]
  {
    var path := SomeLeaf(j);
    assert Entry(path, LeafAt(j, path).value) in entries;
    forall i | 0 <= i < |entries| ensures LeafAt(j, entries[i].path) == Some(entries[i].value) {
      assert Entry(entries[i].path, entries[i].value) in entries;
    }
    if Leaf(j) {
      forall i | 0 <= i < |entries| ensures entries[i].path == [] { LeafShape(j, entries[i].path); }
      if |entries| > 1 {
        LessTotal(ToText(entries[0].path), ToText(entries[1].path));
        assert false;
      }
    } else {
      forall i | 0 <= i < |entries| ensures entries[i].path != [] { LeafShape(j, entries[i].path); }
    }
  }

  lemma FirstIsLeast(entries: seq<Entry>, e: Entry)
    requires TextSorted(entries) && e in entries && entries[0] != e
    ensures Less(ToText(entries[0].path), ToText(e.path))
  {
  }

  lemma MemberEntries(entries: seq<Entry>, m: map<Bytes, Json>, k: Bytes)
    requires Enumerates(entries, Obj(m)) && m != map[]
    ensures AllBelow(entries)
    ensures k in m ==> Enumerates(Project(entries, k), m[k])
    ensures k !in m ==> Project(entries, k) == []
  {
    hide ToText, Less, Project;
    EnumerationShape(entries, Obj(m));
    ProjectSorted(entries, k);
    forall path, v
      ensures Entry(path, v) in Project(entries, k) <==> k in m && LeafAt(m[k], path) == Some(v)
    {
      ProjectMembers(entries, k, path, v);
      assert ([k] + path)[1..] == path;
    }
    var below := Project(entries, k);
    assert below != [] ==> Entry(below[0].path, below[0].value) in below;
  }

  lemma ElementEntries(entries: seq<Entry>, a: seq<Json>, i: nat)
    requires Enumerates(entries, Arr(a)) && a != []
    ensures AllInArray(entries, |a|)
    ensures i < |a| ==> Enumerates(Project(entries, ToString(i)), a[i])
    ensures i >= |a| ==> Project(entries, ToString(i)) == [] && !Reaches(entries, |a|, i)
  {
    hide ToText, Less, Project, ToString, Value;
    EnumerationShape(entries, Arr(a));
    ProjectSorted(entries, ToString(i));
    ToStringCanonical(i);
    forall n | 0 <= n < |entries| ensures IsIndex(entries[n].path[0], |a|) {
      assert Entry(entries[n].path, entries[n].value) in entries;
    }
    forall path, v
      ensures Entry(path, v) in Project(entries, ToString(i)) <==> i < |a| && LeafAt(a[i], path) == Some(v)
    {
      ProjectMembers(entries, ToString(i), path, v);
      assert ([ToString(i)] + path)[1..] == path;
    }
    var below := Project(entries, ToString(i));
    assert below != [] ==> Entry(below[0].path, below[0].value) in below;
  }

  /** The first leaf of an array is below its element 0. */
  lemma ArrayStartsAtZero(entries: seq<Entry>, a: seq<Json>)
    requires Enumerates(entries, Arr(a)) && a != []
    ensures entries != [] && entries[0].path != [] && entries[0].path[0] == ZERO_TOKEN
  {
    hide ToText, Less, LeafAt, Escape, ToString, Project;
    EnumerationShape(entries, Arr(a));
    ElementEntries(entries, a, 0);
    FirstIndexIsZero(entries, a, Value(entries[0].path[0]));
    ToStringCanonical(0);
  }

  lemma FirstIndexIsZero(entries: seq<Entry>, a: seq<Json>, i: nat)
    requires Enumerates(entries, Arr(a)) && i < |a|
    requires entries != [] && entries[0].path != [] && entries[0].path[0] == ToString(i)
    ensures i == 0
  {
    hide ToText, Less, LeafAt, Escape, ToString, Project, KeyText;
    ElementEntries(entries, a, 0);
    ToStringCanonical(0);
    ToStringCanonical(i);
    if i != 0 {
      var e := entries[0];
      var p := SomeLeaf(a[0]);
      var q := e.path[1..];
      ChildIsLeaf(a, i, e);
      ProjectMembers(entries, ZERO_TOKEN, p, LeafAt(a[0], p).value);
      FirstIsLeast(entries, Entry([ZERO_TOKEN] + p, LeafAt(a[0], p).value));
      assert e.path == [ToString(i)] + q;
      ChildOrder(ToString(i), a[i], q, ZERO_TOKEN, a[0], p);
      DigitOrder(i, a[i], a[0]);
      assert false;
    }
  }

  lemma ChildIsLeaf(a: seq<Json>, i: nat, e: Entry)
    requires e.path != [] && e.path[0] == ToString(i) && i < |a|
    ensures LeafAt(Arr(a), e.path) == LeafAt(a[i], e.path[1..])
  {
    ToStringCanonical(i);
  }

  lemma DigitOrder(i: nat, x: Json, y: Json)
    requires i > 0
    ensures Less(KeyText(ZERO_TOKEN, y), KeyText(ToString(i), x))
    ensures !Less(KeyText(ToString(i), x), KeyText(ZERO_TOKEN, y))
  {
    hide Escape, ToString;
    EscapeIndex(i);
    EscapeIndex(0);
    ToStringCanonical(0);
    ToStringCanonical(i);
    assert IsDigit(ToString(i)[0]);
    var k, l := KeyText(ZERO_TOKEN, y), KeyText(ToString(i), x);
    assert k[0] == ZERO && l[0] == ToString(i)[0];
  }

  /** The first leaf of an object is below its member "0" exactly if that member comes first. */
  lemma ObjectStart(entries: seq<Entry>, m: map<Bytes, Json>)
    requires Enumerates(entries, Obj(m)) && m != map[]
    ensures entries != [] && entries[0].path != []
    ensures entries[0].path[0] == ZERO_TOKEN <==> ZeroFirst(m)
  {
    hide ToText, Less, Escape, KeyText, Project;
    EnumerationShape(entries, Obj(m));
    var e := entries[0];
    var t, q := e.path[0], e.path[1..];
    assert e.path == [t] + q;
    assert Entry(e.path, e.value) in entries;
    assert LeafAt(Obj(m), e.path) == Some(e.value);
    forall k | k in m && k != t ensures Less(KeyText(t, m[t]), KeyText(k, m[k])) {
      var p := SomeLeaf(m[k]);
      var v := LeafAt(m[k], p).value;
      assert ([k] + p)[1..] == p;
      assert Entry([k] + p, v) in entries;
      FirstIsLeast(entries, Entry([k] + p, v));
      ChildOrder(t, m[t], q, k, m[k], p);
    }
    if t != ZERO_TOKEN && ZeroFirst(m) {
      LessTotal(KeyText(t, m[t]), KeyText(ZERO_TOKEN, m[ZERO_TOKEN]));
      assert false;
    }
  }

  /** Success, with a value that compares equal to `j`. */
  predicate GivesBack(r: Result<Json>, j: Json) {
    r.Ok? && Eq(r.value, j)
  }

  /** Rebuilding from the leaves in text order gives back exactly the faithful documents, and
      these identically, not only up to the signedness of their integers. */
  lemma {:induction false} Rebuild(entries: seq<Entry>, j: Json)
    requires Enumerates(entries, j)
    ensures GivesBack(Run(Null, entries), j) <==> Faithful(j)
    ensures Faithful(j) ==> Run(Null, entries) == Ok(j)
    decreases j, 1
  {
    hide PutCreate;
    EnumerationShape(entries, j);
    EqReflexive(j);
    if Leaf(j) {
      PutAtRoot(entries[0]);
    } else if j.Arr? {
      RebuildArray(entries, j);
    } else {
      RebuildObject(entries, j);
    }
  }

  lemma PutAtRoot(e: Entry)
    requires e.path == []
    ensures PutCreate(Null, e.path, e.value) == Ok(e.value)
  {
  }

  lemma {:induction false} RebuildArray(entries: seq<Entry>, j: Json)
    requires Enumerates(entries, j) && j.Arr? && j.elems != []
    ensures GivesBack(Run(Null, entries), j) ==> Faithful(j)
    ensures Faithful(j) ==> Run(Null, entries) == Ok(j)
    decreases j, 0
  {
    hide LeafAt, ToText, Project, ToString, Less, Value;
    var a := j.elems;
    ArrayStartsAtZero(entries, a);
    assert Run(Null, entries) == Run(Arr([]), entries);
    ElementEntries(entries, a, 0);
    forall i | 0 <= i < |a|
      ensures GivesBack(Run(Null, Project(entries, ToString(i))), a[i]) ==> Faithful(a[i])
      ensures Faithful(a[i]) ==> Run(Null, Project(entries, ToString(i))) == Ok(a[i])
      ensures Project(entries, ToString(i)) != []
    {
      ElementEntries(entries, a, i);
      EnumerationShape(Project(entries, ToString(i)), a[i]);
      Rebuild(Project(entries, ToString(i)), a[i]);
    }
    if GivesBack(Run(Arr([]), entries), j) {
      forall i | 0 <= i < |a| ensures Faithful(a[i]) && i <= INT_MAX {
        RunArrayAt([], entries, |a|, i);
      }
      assert Faithful(a[|a| - 1]);
    }
    if Faithful(j) {
      ArrayComesBack(entries, a);
    }
  }

  lemma ArrayComesBack(entries: seq<Entry>, a: seq<Json>)
    requires Enumerates(entries, Arr(a)) && 0 < |a| <= INT_MAX + 1
    requires AllInArray(entries, |a|)
    requires forall i :: 0 <= i < |a| ==> Run(Null, Project(entries, ToString(i))) == Ok(a[i])
    ensures Run(Arr([]), entries) == Ok(Arr(a))
  {
    hide LeafAt, ToText, Project, ToString, Less, Value, Enumerates;
    forall i: nat ensures Run(ElementOrNull([], i), Project(entries, ToString(i))).Ok? {
      if i >= |a| { ElementEntries(entries, a, i); }
    }
    RunArrayOk([], entries, |a|);
    var r := Run(Arr([]), entries).value;
    ElementEntries(entries, a, |a|);
    RunArrayAt([], entries, |a|, |a|);
    ReachesLast(entries, a);
    RunArrayAt([], entries, |a|, |a| - 1);
    forall i | 0 <= i < |a| ensures r.elems[i] == a[i] { RunArrayAt([], entries, |a|, i); }
    assert r.elems == a;
  }

  lemma ReachesLast(entries: seq<Entry>, a: seq<Json>)
    requires Enumerates(entries, Arr(a)) && a != []
    ensures AllInArray(entries, |a|) && Reaches(entries, |a|, |a| - 1)
  {
    hide ToText, Project, ToString, Less, Value;
    var i := |a| - 1;
    ElementEntries(entries, a, i);
    var p := SomeLeaf(a[i]);
    ToStringCanonical(i);
    ProjectMembers(entries, ToString(i), p, LeafAt(a[i], p).value);
    var k :| 0 <= k < |entries| && entries[k] == Entry([ToString(i)] + p, LeafAt(a[i], p).value);
    assert i <= Value(entries[k].path[0]);
  }

  lemma {:induction false} RebuildObject(entries: seq<Entry>, j: Json)
    requires Enumerates(entries, j) && j.Obj? && j.members != map[]
    ensures GivesBack(Run(Null, entries), j) ==> Faithful(j)
    ensures Faithful(j) ==> Run(Null, entries) == Ok(j)
    decreases j, 0
  {
    hide LeafAt, ToText, Project, Less, ZeroFirst, PutCreate;
    var m := j.members;
    ObjectStart(entries, m);
    EnumerationShape(entries, j);
    forall k | k in m
      ensures GivesBack(Run(Null, Project(entries, k)), m[k]) ==> Faithful(m[k])
      ensures Faithful(m[k]) ==> Run(Null, Project(entries, k)) == Ok(m[k])
      ensures Project(entries, k) != []
    {
      MemberEntries(entries, m, k);
      EnumerationShape(Project(entries, k), m[k]);
      Rebuild(Project(entries, k), m[k]);
    }
    if entries[0].path[0] == ZERO_TOKEN {
      StartsArray(entries);
    } else {
      StartsObject(entries);
      if GivesBack(Run(Obj(map[]), entries), j) {
        forall k | k in m ensures Faithful(m[k]) { RunObjectAt(map[], entries, k); }
      }
      if Faithful(j) {
        ObjectComesBack(entries, m);
      }
    }
  }

  lemma StartsObject(entries: seq<Entry>)
    requires AllBelow(entries) && entries != [] && entries[0].path[0] != ZERO_TOKEN
    ensures Run(Null, entries) == Run(Obj(map[]), entries)
  {
  }

  lemma ObjectComesBack(entries: seq<Entry>, m: map<Bytes, Json>)
    requires Enumerates(entries, Obj(m)) && m != map[]
    requires AllBelow(entries)
    requires forall k :: k in m ==> Run(Null, Project(entries, k)) == Ok(m[k]) && Project(entries, k) != []
    ensures Run(Obj(map[]), entries) == Ok(Obj(m))
  {
    hide LeafAt, ToText, Project, Less, Enumerates;
    forall k ensures Run(MemberOrNull(map[], k), Project(entries, k)).Ok? {
      if k !in m { MemberEntries(entries, m, k); }
    }
    RunObjectOk(map[], entries);
    var r := Run(Obj(map[]), entries).value;
    RunObjectAt(map[], entries, []);
    forall k
      ensures k in r.members <==> k in m
      ensures k in m ==> r.members[k] == m[k]
    {
      RunObjectAt(map[], entries, k);
      if k !in m { MemberEntries(entries, m, k); }
    }
    assert r.members == m;
  }

  /** Once a value is an array it stays one. */
  lemma {:induction false} ArrayStays(a: seq<Json>, entries: seq<Entry>)
    requires AllBelow(entries)
    ensures Run(Arr(a), entries).Ok? ==> Run(Arr(a), entries).value.Arr?
    decreases |entries|
  {
    if entries != [] {
      var next := PutCreate(Arr(a), entries[0].path, entries[0].value);
      if next.Ok? { ArrayStays(next.value.elems, entries[1..]); }
    }
  }

  lemma StartsArray(entries: seq<Entry>)
    requires AllBelow(entries) && entries != [] && entries[0].path[0] == ZERO_TOKEN
    ensures Run(Null, entries).Ok? ==> Run(Null, entries).value.Arr?
  {
    assert PutCreate(Null, entries[0].path, entries[0].value) == PutCreate(Arr([]), entries[0].path, entries[0].value);
    ArrayStays([], entries);
  }

  // ---- The members of a flattened value are its leaves ------------------------

  /** `r` has the leaves of `j`, named by their pointer texts behind `base`, and nothing else. */
  ghost predicate HoldsLeaves(r: map<Bytes, Json>, base: Bytes, j: Json) {
    && (forall path :: LeafAt(j, path).Some? ==> base + ToText(path) in r && r[base + ToText(path)] == LeafAt(j, path).value)
    && (forall key :: key in r ==> exists path :: LeafAt(j, path).Some? && key == base + ToText(path))
  }

  predicate LeafBelow(j: Json, path: seq<Bytes>, tokens: set<Bytes>) {
    LeafAt(j, path).Some? && path != [] && path[0] in tokens
  }

  /** The same for the leaves below some of the children only. */
  ghost predicate HoldsBelow(r: map<Bytes, Json>, base: Bytes, j: Json, tokens: set<Bytes>) {
    && (forall path :: LeafBelow(j, path, tokens) ==>
          base + ToText(path) in r && r[base + ToText(path)] == LeafAt(j, path).value)
    && (forall key :: key in r ==> exists path :: LeafBelow(j, path, tokens) && key == base + ToText(path))
  }

  lemma ChildText(base: Bytes, token: Bytes, path: seq<Bytes>)
    ensures base + ToText([token] + path) == base + [SLASH] + Escape(token) + ToText(path)
  {
    hide Escape;
    ToTextCons(token, path);
    assert base + ([SLASH] + Escape(token) + ToText(path)) == base + [SLASH] + Escape(token) + ToText(path);
  }

  lemma TextsDiffer(base: Bytes, p: seq<Bytes>, q: seq<Bytes>)
    requires base + ToText(p) == base + ToText(q)
    ensures p == q
  {
    hide ToText;
    assert (base + ToText(p))[|base|..] == ToText(p);
    assert (base + ToText(q))[|base|..] == ToText(q);
    ToTextInjective(p, q);
  }

  predicate IsChild(j: Json, token: Bytes, child: Json) {
    match j
    case Arr(a) => IsIndex(token, |a|) && child == a[Value(token)]
    case Obj(m) => token in m && child == m[token]
    case _ => false
  }

  lemma LeafOfChild(j: Json, token: Bytes, child: Json, path: seq<Bytes>)
    requires IsChild(j, token, child)
    ensures LeafAt(j, [token] + path) == LeafAt(child, path)
  {
    assert ([token] + path)[1..] == path;
  }

  /** Adding the leaves of one more child. */
  lemma AddChild(base: Bytes, j: Json, token: Bytes, child: Json, r1: map<Bytes, Json>,
                 r2: map<Bytes, Json>, rest: set<Bytes>)
    requires token !in rest
    requires IsChild(j, token, child)
    requires HoldsLeaves(r1, base + [SLASH] + Escape(token), child)
    requires HoldsBelow(r2, base, j, rest)
    ensures HoldsBelow(r1 + r2, base, j, rest + {token})
  {
    hide HoldsLeaves, ToText, Escape, LeafAt, IsChild;
    forall path | LeafBelow(j, path, rest + {token})
      ensures base + ToText(path) in r1 + r2 && (r1 + r2)[base + ToText(path)] == LeafAt(j, path).value
    {
      AddChildLeaf(base, j, token, child, r1, r2, rest, path);
    }
    forall key | key in r1 + r2
      ensures exists path :: LeafBelow(j, path, rest + {token}) && key == base + ToText(path)
    {
      AddChildKey(base, j, token, child, r1, r2, rest, key);
    }
  }

  lemma AddChildLeaf(base: Bytes, j: Json, token: Bytes, child: Json, r1: map<Bytes, Json>,
                     r2: map<Bytes, Json>, rest: set<Bytes>, path: seq<Bytes>)
    requires token !in rest
    requires IsChild(j, token, child)
    requires HoldsLeaves(r1, base + [SLASH] + Escape(token), child)
    requires HoldsBelow(r2, base, j, rest)
    requires LeafBelow(j, path, rest + {token})
    ensures base + ToText(path) in r1 + r2 && (r1 + r2)[base + ToText(path)] == LeafAt(j, path).value
  {
    hide ToText, Escape, LeafAt, IsChild;
    if path[0] in rest {
      assert LeafBelow(j, path, rest);
    } else {
      assert path == [token] + path[1..];
      ChildText(base, token, path[1..]);
      OtherChild(base, j, r2, rest, path);
      LeafOfChild(j, token, child, path[1..]);
    }
  }

  lemma OtherChild(base: Bytes, j: Json, r: map<Bytes, Json>, tokens: set<Bytes>, path: seq<Bytes>)
    requires HoldsBelow(r, base, j, tokens)
    requires path != [] && path[0] !in tokens
    ensures base + ToText(path) !in r
  {
    hide ToText, LeafAt;
    var key := base + ToText(path);
    if key in r {
      var q :| LeafBelow(j, q, tokens) && key == base + ToText(q);
      TextsDiffer(base, path, q);
      assert false;
    }
  }

  lemma AddChildKey(base: Bytes, j: Json, token: Bytes, child: Json, r1: map<Bytes, Json>,
                    r2: map<Bytes, Json>, rest: set<Bytes>, key: Bytes)
    requires IsChild(j, token, child)
    requires HoldsLeaves(r1, base + [SLASH] + Escape(token), child)
    requires HoldsBelow(r2, base, j, rest)
    requires key in r1 + r2
    ensures exists path :: LeafBelow(j, path, rest + {token}) && key == base + ToText(path)
  {
    hide ToText, Escape, LeafAt, IsChild;
    if key in r2 {
      var q :| LeafBelow(j, q, rest) && key == base + ToText(q);
      assert LeafBelow(j, q, rest + {token});
    } else {
      var p :| LeafAt(child, p).Some? && key == base + [SLASH] + Escape(token) + ToText(p);
      ChildText(base, token, p);
      LeafOfChild(j, token, child, p);
      assert LeafBelow(j, [token] + p, rest + {token});
    }
  }

  lemma {:induction false} FlatHoldsLeaves(base: Bytes, j: Json)
    ensures HoldsLeaves(Flat(base, j), base, j)
    decreases j, 1, 0
  {
    hide ToText, Escape, ToString, Value, FlatElements, FlatMembers, SortedKeys;
    if Leaf(j) {
      ToTextEmpty();
      forall path | LeafAt(j, path).Some? ensures path == [] { LeafShape(j, path); }
      assert base + [] == base;
      assert LeafAt(j, []).Some?;
    } else {
      var tokens := if j.Arr? then IndexTokens(0, |j.elems|) else j.members.Keys;
      if j.Arr? {
        FlatElementsHold(base, j, 0);
      } else {
        var keys := SortedKeys(j.members.Keys);
        FlatMembersHold(base, j, keys);
        assert (set k | k in keys) == j.members.Keys;
      }
      forall path | LeafAt(j, path).Some? ensures LeafBelow(j, path, tokens) {
        LeafShape(j, path);
        if j.Arr? { IndexTokensAre(0, |j.elems|, path[0]); }
      }
    }
  }

  function IndexTokens(lo: nat, hi: nat): set<Bytes>
    decreases hi - lo
  {
    if lo < hi then IndexTokens(lo + 1, hi) + {ToString(lo)} else {}
  }

  lemma {:induction false} IndexTokensAre(lo: nat, hi: nat, token: Bytes)
    ensures token in IndexTokens(lo, hi) <==> IsIndex(token, hi) && lo <= Value(token)
    decreases hi - lo
  {
    hide ToString, Value;
    if lo < hi {
      IndexTokensAre(lo + 1, hi, token);
      ToStringCanonical(lo);
    }
  }

  lemma {:induction false} FlatElementsHold(base: Bytes, j: Json, i: nat)
    requires j.Arr? && i <= |j.elems|
    ensures HoldsBelow(FlatElements(base, j, i), base, j, IndexTokens(i, |j.elems|))
    decreases j, 0, |j.elems| - i
  {
    hide ToText, Escape, ToString, Flat;
    if i < |j.elems| {
      var token, child := ToString(i), j.elems[i];
      FlatElementsHold(base, j, i + 1);
      FlatHoldsLeaves(base + [SLASH] + token, child);
      ToStringCanonical(i);
      EscapeIndex(i);
      IndexTokensAre(i + 1, |j.elems|, token);
      AddChild(base, j, token, child, Flat(base + [SLASH] + token, child),
               FlatElements(base, j, i + 1), IndexTokens(i + 1, |j.elems|));
    }
  }

  lemma {:induction false} FlatMembersHold(base: Bytes, j: Json, keys: seq<Bytes>)
    requires j.Obj? && Sorted(keys) && forall k :: k in keys ==> k in j.members
    ensures HoldsBelow(FlatMembers(base, j, keys), base, j, set k | k in keys)
    decreases j, 0, |keys|
  {
    hide ToText, Escape, Flat;
    if keys != [] {
      var token, child := keys[0], j.members[keys[0]];
      SortedHasNoDuplicates(keys);
      FlatMembersHold(base, j, keys[1..]);
      FlatHoldsLeaves(base + [SLASH] + Escape(token), child);
      var rest := set k | k in keys[1..];
      assert (set k | k in keys) == rest + {token} by { assert keys == [token] + keys[1..]; }
      AddChild(base, j, token, child, Flat(base + [SLASH] + Escape(token), child),
               FlatMembers(base, j, keys[1..]), rest);
    }
  }

  // ---- The invariant of flatten -----------------------------------------------

  /** The entries that the texts `keys` name in `m`. */
  ghost function EntriesOf(m: map<Bytes, Json>, keys: seq<Bytes>): seq<Entry>
    requires forall k :: k in keys ==> k in m && Split(k).Ok?
  {
    if keys == [] then [] else [Entry(Split(keys[0]).value, m[keys[0]])] + EntriesOf(m, keys[1..])
  }

  lemma {:induction false} EntriesShape(m: map<Bytes, Json>, keys: seq<Bytes>)
    requires forall k :: k in keys ==> k in m && Split(k).Ok?
    ensures |EntriesOf(m, keys)| == |keys|
    ensures forall i :: 0 <= i < |keys| ==> EntriesOf(m, keys)[i] == Entry(Split(keys[i]).value, m[keys[i]])
  {
    hide Split;
    if keys != [] {
      EntriesShape(m, keys[1..]);
      forall i | 0 <= i < |keys| ensures EntriesOf(m, keys)[i] == Entry(Split(keys[i]).value, m[keys[i]]) {
        if i > 0 { assert keys[i] == keys[1..][i - 1]; }
      }
    }
  }

  lemma {:induction false} UnflattenIsRun(doc: Json, m: map<Bytes, Json>, keys: seq<Bytes>)
    requires forall k :: k in keys ==> k in m && Split(k).Ok? && m[k].Primitive()
    ensures UnflattenFrom(doc, m, keys) == Run(doc, EntriesOf(m, keys))
    decreases |keys|
  {
    hide Split, PutCreate;
    if keys != [] {
      var next := PutCreate(doc, Split(keys[0]).value, m[keys[0]]);
      if next.Ok? { UnflattenIsRun(next.value, m, keys[1..]); }
    }
  }

  lemma FlatKey(j: Json, k: Bytes)
    requires k in Flat([], j)
    ensures Split(k).Ok? && ToText(Split(k).value) == k
    ensures LeafAt(j, Split(k).value) == Some(Flat([], j)[k]) && Flat([], j)[k].Primitive()
  {
    hide ToText, Split, Flat, LeafAt;
    FlatHoldsLeaves([], j);
    var path :| LeafAt(j, path).Some? && k == [] + ToText(path);
    assert k == ToText(path);
    SplitOfText(path);
    LeafShape(j, path);
  }

  lemma FlatLeaf(j: Json, path: seq<Bytes>)
    requires LeafAt(j, path).Some?
    ensures ToText(path) in Flat([], j)
  {
    hide ToText, Flat, LeafAt;
    FlatHoldsLeaves([], j);
    assert [] + ToText(path) == ToText(path);
  }

  lemma FlatEnumerates(j: Json)
    ensures forall k :: k in Flat([], j) ==> Split(k).Ok? && Flat([], j)[k].Primitive()
    ensures Enumerates(EntriesOf(Flat([], j), SortedKeys(Flat([], j).Keys)), j)
  {
    hide ToText, Split, Flat, SortedKeys, LeafAt, Less;
    var m := Flat([], j);
    forall k | k in m
      ensures Split(k).Ok? && ToText(Split(k).value) == k && m[k].Primitive()
      ensures LeafAt(j, Split(k).value) == Some(m[k])
    {
      FlatKey(j, k);
    }
    var keys := SortedKeys(m.Keys);
    var entries := EntriesOf(m, keys);
    EntriesShape(m, keys);
    assert TextSorted(entries);
    forall path, v ensures Entry(path, v) in entries <==> LeafAt(j, path) == Some(v) {
      if Entry(path, v) in entries { EntryIsLeaf(j, keys, path, v); }
      if LeafAt(j, path) == Some(v) { FlatEntry(j, keys, path, v); }
    }
  }

  lemma EntryIsLeaf(j: Json, keys: seq<Bytes>, path: seq<Bytes>, v: Json)
    requires forall k :: k in keys <==> k in Flat([], j)
    requires forall k :: k in keys ==> Split(k).Ok?
    requires Entry(path, v) in EntriesOf(Flat([], j), keys)
    ensures LeafAt(j, path) == Some(v)
  {
    hide ToText, Split, Flat, LeafAt;
    var entries := EntriesOf(Flat([], j), keys);
    EntriesShape(Flat([], j), keys);
    var i :| 0 <= i < |entries| && entries[i] == Entry(path, v);
    assert keys[i] in keys;
    FlatKey(j, keys[i]);
  }

  lemma FlatEntry(j: Json, keys: seq<Bytes>, path: seq<Bytes>, v: Json)
    requires forall k :: k in keys <==> k in Flat([], j)
    requires forall k :: k in keys ==> Split(k).Ok?
    requires LeafAt(j, path) == Some(v)
    ensures Entry(path, v) in EntriesOf(Flat([], j), keys)
  {
    hide ToText, Split, Flat, LeafAt;
    FlatLeaf(j, path);
    FlatKey(j, ToText(path));
    SplitOfText(path);
    EntriesShape(Flat([], j), keys);
    var i :| 0 <= i < |keys| && keys[i] == ToText(path);
    assert EntriesOf(Flat([], j), keys)[i] == Entry(path, v);
  }

  /** `j.flatten().unflatten()` compares equal to `j` exactly for the faithful values, and is
      identical to these. */
  lemma UnflattenOfFlatten(j: Json)
    ensures var r := UnflattenFrom(Null, Flat([], j), SortedKeys(Flat([], j).Keys));
            && (GivesBack(r, j) <==> Faithful(j))
            && (Faithful(j) ==> r == Ok(j))
  {
    hide Flat, SortedKeys, Faithful, GivesBack;
    var m := Flat([], j);
    FlatEnumerates(j);
    UnflattenIsRun(Null, m, SortedKeys(m.Keys));
    Rebuild(EntriesOf(m, SortedKeys(m.Keys)), j);
  }

  /** An object whose only member is "0" does not come back: it becomes an array. */
  lemma ZeroMemberIsLost(v: Json)
    requires v.Primitive()
    ensures var j := Obj(map[ZERO_TOKEN := v]);
            !GivesBack(UnflattenFrom(Null, Flat([], j), SortedKeys(Flat([], j).Keys)), j)
  {
    hide Flat, SortedKeys, GivesBack;
    UnflattenOfFlatten(Obj(map[ZERO_TOKEN := v]));
  }
}
