/** `BoundUnaryOperator`: the table of built-in prefix operators and `Bind`. */
module UnaryOperators {
  import opened Wrappers
  import Values
  import opened Syntax
  import opened Types

  datatype UnaryKind = Negate | Increment | Decrement | LogicalNot | BitwiseNot

  /** `BoundUnaryOperator.OpCodeMap`. */
  const OpCodeMap: map<UnaryKind, Values.Opcode> := map[
    Negate := Values.UNM,
    Increment := Values.ADD,
    Decrement := Values.SUB,
    LogicalNot := Values.NOT,
    BitwiseNot := Values.BNOT
  ]

  datatype BoundUnaryOperator = BoundUnaryOperator(
    syntaxKind: SyntaxKind, kind: UnaryKind, operandType: BaseType, resultType: BaseType)

  /** The three-argument constructor: the result type is the operand type. */
  function Make(syntaxKind: SyntaxKind, kind: UnaryKind, operandType: BaseType): (op: BoundUnaryOperator)
    ensures op.syntaxKind == syntaxKind && op.kind == kind
    ensures op.operandType == operandType && op.resultType == operandType
  {
    BoundUnaryOperator(syntaxKind, kind, operandType, operandType)
  }

  /** `BoundUnaryOperator._operators`, in table order; every entry is built
      with the three-argument constructor (`TableIsMade`). */
  const Operators: seq<BoundUnaryOperator> := [
    BoundUnaryOperator(Minus, Negate, Number, Number),
    BoundUnaryOperator(PlusPlus, Increment, Number, Number),
    BoundUnaryOperator(MinusMinus, Decrement, Number, Number),
    BoundUnaryOperator(Bang, LogicalNot, Bool, Bool),
    BoundUnaryOperator(Tilde, BitwiseNot, Int, Int)
  ]

  /** The operand type after widening a literal type to its primitive. */
  function Widen(t: BaseType): (w: BaseType)
    ensures !w.LiteralType?
    ensures t.LiteralType? ==> w == AsPrimitive(t)
    ensures !t.LiteralType? ==> w == t
  {
    if t.LiteralType? then AsPrimitive(t) else t
  }

  /** An entry applies to a token kind and a (widened) operand type. */
  predicate Applies(op: BoundUnaryOperator, kind: SyntaxKind, operandType: BaseType)
  {
    op.syntaxKind == kind && IsAssignableTo(op.operandType, operandType)
  }

  /** The first-match loop of `Bind`, from table position `i` on. */
  function FirstFrom(i: nat, kind: SyntaxKind, operandType: BaseType): (r: Option<BoundUnaryOperator>)
    requires i <= |Operators|
    ensures r.Some? ==> exists j :: i <= j < |Operators| && Operators[j] == r.value && Applies(r.value, kind, operandType)
    ensures r.None? ==> forall j :: i <= j < |Operators| ==> !Applies(Operators[j], kind, operandType)
    decreases |Operators| - i
  {
    if i == |Operators| then None
    else if Applies(Operators[i], kind, operandType) then Some(Operators[i])
    else FirstFrom(i + 1, kind, operandType)
  }

  /** `BoundUnaryOperator.Bind(token, operandType)`; `None` is the null result. */
  function Bind(token: Token, operandType: BaseType): (r: Option<BoundUnaryOperator>)
    ensures r.Some? ==> r.value in Operators && r.value.syntaxKind == token.kind
    ensures r.Some? ==> IsAssignableTo(r.value.operandType, Widen(operandType))
    ensures r.None? <==> forall op :: op in Operators ==> !Applies(op, token.kind, Widen(operandType))
  {
    FirstFrom(0, token.kind, Widen(operandType))
  }

  /** The map covers all five operator kinds, with distinct opcodes. */
  lemma OpCodeMapTotal()
    ensures forall k: UnaryKind :: k in OpCodeMap
    ensures forall k1, k2 :: k1 in OpCodeMap && k2 in OpCodeMap && OpCodeMap[k1] == OpCodeMap[k2] ==> k1 == k2
  {
    forall k: UnaryKind ensures k in OpCodeMap {
      match k
      case Negate =>
      case Increment =>
      case Decrement =>
      case LogicalNot =>
      case BitwiseNot =>
    }
  }

  lemma TableIsMade()
    ensures Operators == [
      Make(Minus, Negate, Number),
      Make(PlusPlus, Increment, Number),
      Make(MinusMinus, Decrement, Number),
      Make(Bang, LogicalNot, Bool),
      Make(Tilde, BitwiseNot, Int)
    ]
  {
  }

  /** Every built-in operator returns its operand type. */
  lemma ResultTypeIsOperandType()
    ensures forall i :: 0 <= i < |Operators| ==> Operators[i].resultType == Operators[i].operandType
  {
  }

  /** The table's syntax kinds are distinct, so at most one entry is a candidate for a token. */
  lemma SyntaxKindsDistinct()
    ensures forall i, j :: 0 <= i < j < |Operators| ==> Operators[i].syntaxKind != Operators[j].syntaxKind
  {
  }

  /** `Bind` is exactly the table entry for the token's kind, when its operand
      type is assignable to the widened operand type; otherwise null. */
  lemma BindIsTableEntry(token: Token, operandType: BaseType, i: nat)
    requires i < |Operators| && Operators[i].syntaxKind == token.kind
    ensures IsAssignableTo(Operators[i].operandType, Widen(operandType)) ==> Bind(token, operandType) == Some(Operators[i])
    ensures !IsAssignableTo(Operators[i].operandType, Widen(operandType)) ==> Bind(token, operandType).None?
  {
    var r := Bind(token, operandType);
    if r.Some? {
      var j :| 0 <= j < |Operators| && Operators[j] == r.value && Applies(r.value, token.kind, Widen(operandType));
      SyntaxKindsDistinct();
      assert j == i;
    } else {
      assert Operators[i] in Operators;
    }
  }

  /** A token with no table entry never binds. */
  lemma BindUnknownKind(token: Token, operandType: BaseType)
    requires token.kind !in {Minus, PlusPlus, MinusMinus, Bang, Tilde}
    ensures Bind(token, operandType).None?
  {
  }

  /** `!` needs bool. */
  lemma BindLogicalNot(t: Token)
    requires t.kind == Bang
    ensures Bind(t, Bool) == Some(Operators[3])
    ensures Bind(t, Int).None?
  {
    assert IsAssignableTo(Bool, Bool) && !IsAssignableTo(Bool, Int);
    BindIsTableEntry(t, Bool, 3);
    BindIsTableEntry(t, Int, 3);
  }

  /** `~` needs int; a literal int operand is widened to int first. */
  lemma BindBitwiseNot(t: Token)
    requires t.kind == Tilde
    ensures Bind(t, LiteralType(Values.Int(7), "int")) == Some(Operators[4])
    ensures Bind(t, Float).None?
  {
    BindIsTableEntry(t, LiteralType(Values.Int(7), "int"), 4);
    BindIsTableEntry(t, Float, 4);
  }

  /** `-`, `++` and `--` take int or float but not bool. */
  lemma BindNumeric(t: Token)
    requires t.kind == Minus
    ensures Bind(t, Int) == Some(Operators[0])
    ensures Bind(t, Float) == Some(Operators[0])
    ensures Bind(t, Bool).None?
  {
    assert IsAssignableTo(Number, Int) by {
      assert IsAssignableTo(Number.types[0], Int);
    }
    BindIsTableEntry(t, Int, 0);
    assert IsAssignableTo(Number, Float) by {
      assert Number.types[1..] == [Float];
      assert SomeAssignable([Float], Float);
    }
    BindIsTableEntry(t, Float, 0);
    assert !IsAssignableTo(Number, Bool) by {
      assert !SomeAssignable([], Bool);
      assert [Float][1..] == [];
      assert !SomeAssignable([Float], Bool);
      assert Number.types[1..] == [Float];
      assert !SomeAssignable(Number.types, Bool);
    }
    BindIsTableEntry(t, Bool, 0);
  }
}
