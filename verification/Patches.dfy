/** JSON Patch: resolving pointers in a document, and `patch`. The in-place changes that the
    code makes through references are modelled as functions from document to document. */
module Patches {
  import opened ByteStrings
  import opened Results
  import opened Values
  import opened Decimals
  import opened Pointers

  const DASH: Bytes := ['-' as byte]

  /** The token loop of `get_checked`, with `at` on objects and arrays. */
  function GetChecked(j: Json, path: seq<Bytes>): Result<Json>
    decreases |path|
  {
    if path == [] then Ok(j) else
    match j
    case Obj(m) => if path[0] in m then GetChecked(m[path[0]], path[1..]) else Err(OutOfRange)
    case Arr(a) =>
      var i :- CheckedIndex(path[0], |a|);
      GetChecked(a[i], path[1..])
    case _ => Err(OutOfRange)
  }

  /** An array index in a pointer: no `-`, no leading zero, a number below `size`. */
  function CheckedIndex(token: Bytes, size: nat): (r: Result<nat>)
    ensures r.Ok? ==> r.value < size
  {
    if token == DASH then Err(OutOfRange)
    else if |token| > 1 && token[0] == ZERO then Err(DomainError)
    else
      var i :- Stoi(token);
      if 0 <= i < size then Ok(i) else Err(OutOfRange)
  }

  /** An array index for unchecked access: `-` is the index behind the end. A negative number
      becomes a huge `size_type`, and making the array that long throws. */
  function UncheckedIndex(token: Bytes, size: nat): Result<nat> {
    if |token| > 1 && token[0] == ZERO then Err(DomainError)
    else if token == DASH then Ok(size)
    else
      var i :- Stoi(token);
      if 0 <= i then Ok(i) else Err(OutOfRange)
  }

  // ---- Changing a document at a place -----------------------------------------

  /** What is done to the value a pointer leads to. */
  datatype Edit = Put(value: Json) | Erase(token: Bytes) | Insert(token: Bytes, value: Json)

  function ApplyEdit(j: Json, e: Edit): Result<Json> {
    match e
    case Put(v) => Ok(v)
    case Erase(token) => EraseChild(j, token)
    case Insert(token, v) => InsertChild(j, token, v)
  }

  /** The body of `operation_remove`; `erase` checks the range but a value that is no
      container is left as it is. */
  function EraseChild(j: Json, token: Bytes): Result<Json> {
    match j
    case Obj(m) => if token in m then Ok(Obj(m - {token})) else Err(OutOfRange)
    case Arr(a) =>
      var i :- Stoi(token);
      if 0 <= i < |a| then Ok(Arr(a[..i] + a[i+1..])) else Err(OutOfRange)
    case _ => Ok(j)
  }

  /** The switch at the end of `operation_add`. */
  function InsertChild(j: Json, token: Bytes, v: Json): Result<Json> {
    match j
    case Null => Ok(Obj(map[token := v]))
    case Obj(m) => Ok(Obj(m[token := v]))
    case Arr(a) =>
      if token == DASH then Ok(Arr(a + [v])) else
      var i :- Stoi(token);
      if 0 <= i <= |a| then Ok(Arr(a[..i] + [v] + a[i..])) else Err(OutOfRange)
    case _ => Err(AssertionFailed)
  }

  /** Edit the value that `at(path)` refers to. */
  function EditChecked(j: Json, path: seq<Bytes>, e: Edit): Result<Json>
    decreases |path|
  {
    if path == [] then ApplyEdit(j, e) else
    match j
    case Obj(m) =>
      if path[0] !in m then Err(OutOfRange) else
      var child :- EditChecked(m[path[0]], path[1..], e);
      Ok(Obj(m[path[0] := child]))
    case Arr(a) =>
      var i :- CheckedIndex(path[0], |a|);
      var child :- EditChecked(a[i], path[1..], e);
      Ok(Arr(a[i := child]))
    case _ => Err(OutOfRange)
  }

  /** `operator[](size_type)`: an array grown with nulls until index `i` exists. */
  function Grown(a: seq<Json>, i: nat): (r: seq<Json>)
    ensures i < |r| && a <= r
  {
    if i < |a| then a else a + seq(i + 1 - |a|, _ => Null)
  }

  /** Edit the value that `operator[](path)` refers to, creating what is missing. */
  function EditUnchecked(j: Json, path: seq<Bytes>, e: Edit): Result<Json>
    decreases |path|
  {
    if path == [] then ApplyEdit(j, e) else
    var container :=
      if !j.Null? then j else if AllDigits(path[0]) || path[0] == DASH then Arr([]) else Obj(map[]);
    match container
    case Obj(m) =>
      var child :- EditUnchecked(if path[0] in m then m[path[0]] else Null, path[1..], e);
      Ok(Obj(m[path[0] := child]))
    case Arr(a) =>
      var i :- UncheckedIndex(path[0], |a|);
      var child :- EditUnchecked(Grown(a, i)[i], path[1..], e);
      Ok(Arr(Grown(a, i)[i := child]))
    case _ => Err(OutOfRange)
  }

  // ---- Operations -------------------------------------------------------------

  datatype Op =
    | Add(path: seq<Bytes>, value: Json)
    | Remove(path: seq<Bytes>)
    | Replace(path: seq<Bytes>, value: Json)
    | Move(path: seq<Bytes>, from: seq<Bytes>)
    | Copy(path: seq<Bytes>, from: seq<Bytes>)
    | Test(path: seq<Bytes>, value: Json)

  function Front(path: seq<Bytes>): seq<Bytes>
    requires path != []
  {
    path[..|path|-1]
  }

  function Last(path: seq<Bytes>): Bytes
    requires path != []
  {
    path[|path|-1]
  }

  /** `operation_add`. With `checkTop` the place that the first token names must exist, unless
      it is the only token. */
  function ApplyAdd(doc: Json, path: seq<Bytes>, v: Json, checkTop: bool): Result<Json> {
    if path == [] then Ok(v)
    else if checkTop && |path| > 1 && GetChecked(doc, path[..1]).Err? then Err(GetChecked(doc, path[..1]).error)
    else EditUnchecked(doc, Front(path), Insert(Last(path), v))
  }

  /** `operation_remove`. */
  function ApplyRemove(doc: Json, path: seq<Bytes>): Result<Json> {
    if path == [] then Err(DomainError) else EditChecked(doc, Front(path), Erase(Last(path)))
  }

  /** One operation. `checkTop` holds for the whole document; it is off when an operation is
      regarded relative to a part of the document. */
  function ApplyOp(doc: Json, op: Op, checkTop: bool): Result<Json> {
    match op
    case Add(path, v) => ApplyAdd(doc, path, v, checkTop)
    case Remove(path) => ApplyRemove(doc, path)
    case Replace(path, v) => EditChecked(doc, path, Put(v))
    case Move(path, from) =>
      var v :- GetChecked(doc, from);
      var removed :- ApplyRemove(doc, from);
      ApplyAdd(removed, path, v, checkTop)
    case Copy(path, from) =>
      var v :- GetChecked(doc, from);
      EditUnchecked(doc, path, Put(v))
    case Test(path, v) =>
      match GetChecked(doc, path)
      case Ok(found) => if Eq(found, v) then Ok(doc) else Err(DomainError)
      case Err(e) => Err(if e == OutOfRange then DomainError else e)
  }

  /** With one token only, the parent is the document itself. */
  lemma OneToken(j: Json, token: Bytes, v: Json, checkTop: bool)
    ensures ApplyOp(j, Remove([token]), checkTop) == EraseChild(j, token)
    ensures ApplyOp(j, Add([token], v), checkTop) == InsertChild(j, token, v)
  {
    hide EraseChild, InsertChild;
    assert Front([token]) == [];
  }

  function ApplyAll(doc: Json, ops: seq<Op>, checkTop: bool): Result<Json>
    decreases |ops|
  {
    if ops == [] then Ok(doc) else
    var next :- ApplyOp(doc, ops[0], checkTop);
    ApplyAll(next, ops[1..], checkTop)
  }

  lemma {:induction false} ApplyAllConcat(doc: Json, a: seq<Op>, b: seq<Op>, checkTop: bool)
    ensures ApplyAll(doc, a + b, checkTop) ==
            match ApplyAll(doc, a, checkTop)
            case Ok(mid) => ApplyAll(mid, b, checkTop)
            case Err(e) => Err(e)
    decreases |a|
  {
    hide ApplyOp;
    if a == [] {
      assert a + b == b;
    } else {
      assert (a + b)[1..] == a[1..] + b;
      var next := ApplyOp(doc, a[0], checkTop);
      if next.Ok? { ApplyAllConcat(next.value, a[1..], b, checkTop); }
    }
  }

  // ---- Patch documents --------------------------------------------------------

  const OP_KEY := Ascii("op")
  const PATH_KEY := Ascii("path")
  const VALUE_KEY := Ascii("value")
  const FROM_KEY := Ascii("from")
  const ADD := Ascii("add")
  const REMOVE := Ascii("remove")
  const REPLACE := Ascii("replace")
  const MOVE := Ascii("move")
  const COPY := Ascii("copy")
  const TEST := Ascii("test")

  function StringMember(m: map<Bytes, Json>, key: Bytes): Result<Bytes> {
    if key in m && m[key].Str? then Ok(m[key].s) else Err(InvalidArgument)
  }

  function AnyMember(m: map<Bytes, Json>, key: Bytes): Result<Json> {
    if key in m then Ok(m[key]) else Err(InvalidArgument)
  }

  /** One element of a patch document, read as an operation. */
  function ReadOp(j: Json): Result<Op> {
    if !j.Obj? then Err(InvalidArgument) else
    var op :- StringMember(j.members, OP_KEY);
    var text :- StringMember(j.members, PATH_KEY);
    var path :- Split(text);
    if op == ADD then
      var v :- AnyMember(j.members, VALUE_KEY);
      Ok(Add(path, v))
    else if op == REMOVE then Ok(Remove(path))
    else if op == REPLACE then
      var v :- AnyMember(j.members, VALUE_KEY);
      Ok(Replace(path, v))
    else if op == MOVE || op == COPY then
      var fromText :- StringMember(j.members, FROM_KEY);
      var from :- Split(fromText);
      Ok(if op == MOVE then Move(path, from) else Copy(path, from))
    else if op == TEST then
      var v :- AnyMember(j.members, VALUE_KEY);
      Ok(Test(path, v))
    else Err(InvalidArgument)
  }

  /** Reading and applying the elements of a patch document one after the other. */
  function PatchFrom(doc: Json, elements: seq<Json>): Result<Json>
    decreases |elements|
  {
    if elements == [] then Ok(doc) else
    var op :- ReadOp(elements[0]);
    var next :- ApplyOp(doc, op, true);
    PatchFrom(next, elements[1..])
  }

  /** `patch`: works on a copy, so a failing operation leaves the original as it was. */
  method Patch(document: Json, jsonPatch: Json) returns (r: Result<Json>)
    ensures r == if jsonPatch.Arr? then PatchFrom(document, jsonPatch.elems) else Err(InvalidArgument)
  {
    hide ReadOp, ApplyOp;
    if !jsonPatch.Arr? {
      return Err(InvalidArgument);
    }
    var result := document;
    var i := 0;
    while i < |jsonPatch.elems|
      invariant 0 <= i <= |jsonPatch.elems|
      invariant PatchFrom(document, jsonPatch.elems) == PatchFrom(result, jsonPatch.elems[i..])
    {
      var op :- ReadOp(jsonPatch.elems[i]);
      result :- ApplyOp(result, op, true);
      i := i + 1;
    }
    return Ok(result);
  }
}
