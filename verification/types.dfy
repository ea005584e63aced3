/** Types of the checker and the assignability relation between them. */
module Types {
  import opened Values

  datatype BaseType =
    | AnyType
    | UnionType(types: seq<BaseType>)
      /** A literal type; `primitive` names the primitive type it widens to. */
    | LiteralType(value: Value, primitive: string)
      /** Any other singular type (primitives and named types), identified by name. */
    | SingularType(name: string)
      /** An interface; interfaces are singular types too, named by `name`. */
    | InterfaceType(members: seq<MemberSignature>, indexSignatures: seq<IndexSignature>, name: string)
      /** Any type kind the relation has no case for. */
    | OtherType(description: string)

  /** A member `key: valueType`; the key is a literal type. */
  datatype MemberSignature = MemberSignature(key: Value, keyPrimitive: string, valueType: BaseType, isMutable: bool)

  /** An index signature `[key]: valueType`; the key is a primitive type, named. */
  datatype IndexSignature = IndexSignature(key: string, valueType: BaseType)

  const Bool: BaseType := SingularType("bool")
  const Int: BaseType := SingularType("int")
  const Float: BaseType := SingularType("float")
  /** The intrinsic `number` type: int or float. */
  const Number: BaseType := UnionType([Int, Float])

  predicate IsSingular(t: BaseType)
  {
    t.SingularType? || t.InterfaceType?
  }

  function Name(t: BaseType): string
    requires IsSingular(t)
  {
    t.name
  }

  /** `LiteralType.AsPrimitive()`. */
  function AsPrimitive(t: BaseType): (p: BaseType)
    requires t.LiteralType?
    ensures p.SingularType? && p.name == t.primitive
  {
    SingularType(t.primitive)
  }

  function Size(t: BaseType): (n: nat)
    ensures n >= 1
  {
    match t
    case UnionType(ts) => 1 + SizeAll(ts)
    case _ => 1
  }

  function SizeAll(ts: seq<BaseType>): nat
  {
    if ts == [] then 0 else Size(ts[0]) + SizeAll(ts[1..])
  }

  /** `BaseType.IsAssignableTo`. The swap in the third case keeps the combined
      size and moves to the union-on-the-left case, which is why the measure is
      the combined size followed by a rank of the case. */
  predicate IsAssignableTo(a: BaseType, b: BaseType)
    decreases Size(a) + Size(b), if a.UnionType? then 1 else 2
  {
    if a.AnyType? || b.AnyType? then true
    else if a.UnionType? then SomeAssignable(a.types, b)
    else if b.UnionType? then IsAssignableTo(b, a)
    else if a.LiteralType? && b.LiteralType? then a.value == b.value
    else if IsSingular(a) && IsSingular(b) then Name(a) == Name(b)
    else false
  }

  /** `union.Types.Any(type => type.IsAssignableTo(other))`. */
  predicate SomeAssignable(ts: seq<BaseType>, b: BaseType)
    decreases SizeAll(ts) + Size(b), 3
  {
    if ts == [] then false else IsAssignableTo(ts[0], b) || SomeAssignable(ts[1..], b)
  }

  // ---- an independent description of the relation -------------------

  /** The non-union types a type is made of, unions flattened in order. */
  function Leaves(t: BaseType): (ls: seq<BaseType>)
    ensures forall i :: 0 <= i < |ls| ==> !ls[i].UnionType?
    decreases Size(t), 1
  {
    match t
    case UnionType(ts) => LeavesAll(ts)
    case _ => [t]
  }

  function LeavesAll(ts: seq<BaseType>): (ls: seq<BaseType>)
    ensures forall i :: 0 <= i < |ls| ==> !ls[i].UnionType?
    decreases SizeAll(ts), 2
  {
    if ts == [] then [] else Leaves(ts[0]) + LeavesAll(ts[1..])
  }

  /** Compatibility of two non-union types. */
  predicate LeafMatch(x: BaseType, y: BaseType)
  {
    || x.AnyType? || y.AnyType?
    || (x.LiteralType? && y.LiteralType? && x.value == y.value)
    || (IsSingular(x) && IsSingular(y) && Name(x) == Name(y))
  }

  predicate HasAny(ls: seq<BaseType>)
  {
    exists i :: 0 <= i < |ls| && ls[i].AnyType?
  }

  predicate CrossMatch(xs: seq<BaseType>, ys: seq<BaseType>)
  {
    exists i, j :: 0 <= i < |xs| && 0 <= j < |ys| && LeafMatch(xs[i], ys[j])
  }

  /** Assignability read off the flattened types: either side is `any`, the
      source contains `any` somewhere, or some leaf of the source matches some
      leaf of the target. */
  predicate Assignable(a: BaseType, b: BaseType)
  {
    a.AnyType? || b.AnyType? || HasAny(Leaves(a)) || CrossMatch(Leaves(a), Leaves(b))
  }

  lemma HasAnyAppend(xs: seq<BaseType>, ys: seq<BaseType>)
    ensures HasAny(xs + ys) == (HasAny(xs) || HasAny(ys))
  {
    if HasAny(xs + ys) {
      var i :| 0 <= i < |xs + ys| && (xs + ys)[i].AnyType?;
      if i >= |xs| {
        assert ys[i - |xs|].AnyType?;
      }
    }
    if HasAny(xs) {
      var i :| 0 <= i < |xs| && xs[i].AnyType?;
      assert (xs + ys)[i] == xs[i];
    }
    if HasAny(ys) {
      var i :| 0 <= i < |ys| && ys[i].AnyType?;
      assert (xs + ys)[|xs| + i] == ys[i];
    }
  }

  lemma CrossMatchAppend(xs: seq<BaseType>, ys: seq<BaseType>, zs: seq<BaseType>)
    ensures CrossMatch(xs + ys, zs) == (CrossMatch(xs, zs) || CrossMatch(ys, zs))
  {
    if CrossMatch(xs + ys, zs) {
      var i, j :| 0 <= i < |xs + ys| && 0 <= j < |zs| && LeafMatch((xs + ys)[i], zs[j]);
      if i >= |xs| {
        assert LeafMatch(ys[i - |xs|], zs[j]);
      }
    }
    if CrossMatch(xs, zs) {
      var i, j :| 0 <= i < |xs| && 0 <= j < |zs| && LeafMatch(xs[i], zs[j]);
      assert (xs + ys)[i] == xs[i];
    }
    if CrossMatch(ys, zs) {
      var i, j :| 0 <= i < |ys| && 0 <= j < |zs| && LeafMatch(ys[i], zs[j]);
      assert (xs + ys)[|xs| + i] == ys[i];
    }
  }

  lemma CrossMatchSymmetric(xs: seq<BaseType>, ys: seq<BaseType>)
    ensures CrossMatch(xs, ys) == CrossMatch(ys, xs)
  {
    if CrossMatch(xs, ys) {
      var i, j :| 0 <= i < |xs| && 0 <= j < |ys| && LeafMatch(xs[i], ys[j]);
      assert LeafMatch(ys[j], xs[i]);
    }
    if CrossMatch(ys, xs) {
      var i, j :| 0 <= i < |ys| && 0 <= j < |xs| && LeafMatch(ys[i], xs[j]);
      assert LeafMatch(xs[j], ys[i]);
    }
  }

  /** The recursive relation equals its flattened description, for all types. */
  lemma {:induction false} AssignableCharacterized(a: BaseType, b: BaseType)
    ensures IsAssignableTo(a, b) == Assignable(a, b)
    decreases Size(a) + Size(b), if a.UnionType? then 1 else 2
  {
    if a.AnyType? || b.AnyType? {
    } else if a.UnionType? {
      SomeAssignableCharacterized(a.types, b);
    } else if b.UnionType? {
      AssignableCharacterized(b, a);
      var lb := Leaves(b);
      assert Leaves(a) == [a];
      assert !HasAny([a]);
      CrossMatchSymmetric(lb, [a]);
      if HasAny(lb) {
        var j :| 0 <= j < |lb| && lb[j].AnyType?;
        assert [a][0] == a;
        assert LeafMatch([a][0], lb[j]);
        assert CrossMatch([a], lb);
      }
    } else {
      assert Leaves(a) == [a] && Leaves(b) == [b];
      if LeafMatch(a, b) {
        assert CrossMatch([a], [b]) by { assert LeafMatch([a][0], [b][0]); }
      }
    }
  }

  lemma {:induction false} SomeAssignableCharacterized(ts: seq<BaseType>, b: BaseType)
    requires !b.AnyType?
    ensures SomeAssignable(ts, b) == (HasAny(LeavesAll(ts)) || CrossMatch(LeavesAll(ts), Leaves(b)))
    decreases SizeAll(ts) + Size(b), 3
  {
    if ts != [] {
      AssignableCharacterized(ts[0], b);
      SomeAssignableCharacterized(ts[1..], b);
      HasAnyAppend(Leaves(ts[0]), LeavesAll(ts[1..]));
      CrossMatchAppend(Leaves(ts[0]), LeavesAll(ts[1..]), Leaves(b));
      if ts[0].AnyType? {
        assert Leaves(ts[0])[0].AnyType?;
      }
    }
  }

  /** Whenever both types have at least one leaf, the relation is symmetric. */
  lemma AssignableSymmetric(a: BaseType, b: BaseType)
    requires |Leaves(a)| > 0 && |Leaves(b)| > 0
    ensures IsAssignableTo(a, b) == IsAssignableTo(b, a)
  {
    AssignableCharacterized(a, b);
    AssignableCharacterized(b, a);
    CrossMatchSymmetric(Leaves(a), Leaves(b));
    var la, lb := Leaves(a), Leaves(b);
    if HasAny(la) {
      var i :| 0 <= i < |la| && la[i].AnyType?;
      assert LeafMatch(la[i], lb[0]);
    }
    if HasAny(lb) {
      var j :| 0 <= j < |lb| && lb[j].AnyType?;
      assert LeafMatch(lb[j], la[0]);
    }
  }

  /** Without that condition it is not: a union holding `any` is assignable to
      the empty union, but not the other way round. */
  lemma AssignableNotSymmetric()
    ensures IsAssignableTo(UnionType([AnyType]), UnionType([]))
    ensures !IsAssignableTo(UnionType([]), UnionType([AnyType]))
  {
    assert SomeAssignable([AnyType], UnionType([])) by {
      assert IsAssignableTo(AnyType, UnionType([]));
    }
  }

  /** `any` on either side makes the relation hold. */
  lemma AnyIsAssignable(t: BaseType)
    ensures IsAssignableTo(AnyType, t) && IsAssignableTo(t, AnyType)
  {
  }

  /** A union on the left is assignable exactly when one of its members is. */
  lemma {:induction false} UnionSourceAssignable(ts: seq<BaseType>, b: BaseType)
    requires !b.AnyType?
    ensures IsAssignableTo(UnionType(ts), b) <==> exists i :: 0 <= i < |ts| && IsAssignableTo(ts[i], b)
    decreases |ts|
  {
    assert IsAssignableTo(UnionType(ts), b) == SomeAssignable(ts, b);
    if ts != [] {
      UnionSourceAssignable(ts[1..], b);
      assert IsAssignableTo(UnionType(ts[1..]), b) == SomeAssignable(ts[1..], b);
      if exists i :: 0 <= i < |ts| && IsAssignableTo(ts[i], b) {
        var i :| 0 <= i < |ts| && IsAssignableTo(ts[i], b);
        if i > 0 {
          assert ts[1..][i - 1] == ts[i];
        }
      }
    }
  }

  /** A non-union source against a union target is decided with the arguments swapped. */
  lemma UnionTargetSwaps(a: BaseType, ts: seq<BaseType>)
    requires !a.AnyType? && !a.UnionType?
    ensures IsAssignableTo(a, UnionType(ts)) == IsAssignableTo(UnionType(ts), a)
  {
  }

  /** Between two non-union types: literals compare by value, singular types
      by name, anything else is not assignable. */
  lemma LeafAssignable(a: BaseType, b: BaseType)
    requires !a.AnyType? && !b.AnyType? && !a.UnionType? && !b.UnionType?
    ensures IsAssignableTo(a, b) <==>
      (a.LiteralType? && b.LiteralType? && a.value == b.value) ||
      (IsSingular(a) && IsSingular(b) && Name(a) == Name(b))
  {
  }

  /** The empty union is assignable only to `any`, and only `any` or a type
      containing `any` is assignable to it. */
  lemma EmptyUnion(t: BaseType)
    ensures IsAssignableTo(UnionType([]), t) <==> t.AnyType?
    ensures IsAssignableTo(t, UnionType([])) <==> t.AnyType? || HasAny(Leaves(t))
  {
    AssignableCharacterized(t, UnionType([]));
    assert Leaves(UnionType([])) == [];
  }
}
