/** JSON values and `operator==` on them. Floating-point numbers and the `discarded` marker
    are not part of the model. */
module Values {
  import opened ByteStrings

  newtype int64 = x: int | -0x8000_0000_0000_0000 <= x < 0x8000_0000_0000_0000
  newtype uint64 = x: int | 0 <= x < 0x1_0000_0000_0000_0000

  /** An object is a `std::map`: `SortedKeys(members.Keys)` is its traversal order. */
  datatype Json =
    | Null
    | Bool(b: bool)
    | Int(i: int64)
    | UInt(u: uint64)
    | Str(s: Bytes)
    | Arr(elems: seq<Json>)
    | Obj(members: map<Bytes, Json>)
  {
    /** `is_primitive()`. */
    predicate Primitive() {
      !Arr? && !Obj?
    }
  }

  /** `lhs.type() == rhs.type()`; signed and unsigned integers are different types. */
  predicate SameType(a: Json, b: Json) {
    match a
    case Null => b.Null?
    case Bool(_) => b.Bool?
    case Int(_) => b.Int?
    case UInt(_) => b.UInt?
    case Str(_) => b.Str?
    case Arr(_) => b.Arr?
    case Obj(_) => b.Obj?
  }

  /** `static_cast<int64_t>`: two's complement. */
  function ToSigned(u: uint64): int64 {
    if u < 0x8000_0000_0000_0000 then u as int64
    else (u as int - 0x1_0000_0000_0000_0000) as int64
  }

  /** `operator==`. */
  predicate Eq(a: Json, b: Json) {
    match (a, b)
    case (Null, Null) => true
    case (Bool(x), Bool(y)) => x == y
    case (Int(x), Int(y)) => x == y
    case (UInt(x), UInt(y)) => x == y
    case (Int(x), UInt(y)) => x == ToSigned(y)
    case (UInt(x), Int(y)) => ToSigned(x) == y
    case (Str(x), Str(y)) => x == y
    case (Arr(x), Arr(y)) => |x| == |y| && forall i :: 0 <= i < |x| ==> Eq(x[i], y[i])
    case (Obj(x), Obj(y)) => x.Keys == y.Keys && forall k :: k in x.Keys ==> Eq(x[k], y[k])
    case _ => false
  }

  lemma {:induction false} EqReflexive(a: Json)
    ensures Eq(a, a)
  {
    match a
    case Arr(x) => forall i | 0 <= i < |x| { EqReflexive(x[i]); }
    case Obj(x) => forall k | k in x.Keys { EqReflexive(x[k]); }
    case _ =>
  }

  lemma {:induction false} EqSymmetric(a: Json, b: Json)
    requires Eq(a, b)
    ensures Eq(b, a)
  {
    match (a, b)
    case (Arr(x), Arr(y)) => forall i | 0 <= i < |x| ensures Eq(y[i], x[i]) { EqSymmetric(x[i], y[i]); }
    case (Obj(x), Obj(y)) => forall k | k in x.Keys ensures Eq(y[k], x[k]) { EqSymmetric(x[k], y[k]); }
    case _ =>
  }

  lemma {:induction false} EqTransitive(a: Json, b: Json, c: Json)
    requires Eq(a, b) && Eq(b, c)
    ensures Eq(a, c)
  {
    match (a, b, c)
    case (Arr(x), Arr(y), Arr(z)) =>
      forall i | 0 <= i < |x| ensures Eq(x[i], z[i]) { EqTransitive(x[i], y[i], z[i]); }
    case (Obj(x), Obj(y), Obj(z)) =>
      forall k | k in x.Keys ensures Eq(x[k], z[k]) { EqTransitive(x[k], y[k], z[k]); }
    case _ =>
  }
}
