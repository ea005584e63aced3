/** The bound tree the type checker walks: every expression node carries the
    type the binder gave it. */
module BoundTree {
  import opened Wrappers
  import opened Types
  import opened UnaryOperators

  /** The operand types a bound binary operator expects. */
  datatype BoundBinaryOperator = BoundBinaryOperator(leftType: BaseType, rightType: BaseType, resultType: BaseType)

  datatype BoundExpr =
    | BoundLiteral(ty: BaseType)
    | BoundIdentifierName(ty: BaseType)
    | BoundParenthesized(expression: BoundExpr, ty: BaseType)
    | BoundUnaryOp(operand: BoundExpr, unaryOperator: BoundUnaryOperator, ty: BaseType)
    | BoundBinaryOp(left: BoundExpr, binaryOperator: BoundBinaryOperator, right: BoundExpr, ty: BaseType)
    | BoundAssignmentOp(left: BoundExpr, binaryOperator: BoundBinaryOperator, right: BoundExpr, ty: BaseType)
    | BoundNoOp(ty: BaseType)

  datatype BoundStmt =
    | BoundExpressionStatement(expression: BoundExpr)
      /** `symbolType` is the declared symbol's type. */
    | BoundVariableDeclaration(symbolType: BaseType, initializer: Option<BoundExpr>)
    | BoundBlock(statements: seq<BoundStmt>)
    | BoundNoOpStatement

  datatype BoundSyntaxTree = BoundSyntaxTree(statements: seq<BoundStmt>)
}

/** `TypeChecker`: a traversal that appends one H007 for every failed
    assignability check, threading the diagnostics bag. */
module TypeChecker {
  import opened Wrappers
  import opened Types
  import opened Diagnostics
  import opened BoundTree

  /** The new entries of `after` over `before` are all H007. */
  predicate OnlyTypeErrors(before: seq<Code>, after: seq<Code>)
  {
    Extends(before, after) && forall i :: |before| <= i < |after| ==> after[i] == H007
  }

  /** `TypeChecker.Assert`. */
  function AssertType(node: BoundExpr, expected: BaseType, bag: seq<Code>): (r: seq<Code>)
    ensures IsAssignableTo(node.ty, expected) ==> r == bag
    ensures !IsAssignableTo(node.ty, expected) ==> r == bag + [H007]
  {
    if IsAssignableTo(node.ty, expected) then bag else bag + [H007]
  }

  function CheckExpr(e: BoundExpr, bag: seq<Code>): (r: seq<Code>)
    ensures OnlyTypeErrors(bag, r)
  {
    match e
    case BoundAssignmentOp(_, op, right, _) =>
      AssertType(right, op.rightType, CheckExpr(right, bag))
    case BoundBinaryOp(left, op, right, _) =>
      var checked := CheckExpr(right, CheckExpr(left, bag));
      AssertType(right, op.rightType, AssertType(left, op.leftType, checked))
    case BoundParenthesized(inner, _) => CheckExpr(inner, bag)
    case BoundUnaryOp(operand, op, _) =>
      AssertType(operand, op.operandType, CheckExpr(operand, bag))
    case BoundLiteral(_) => bag
    case BoundIdentifierName(_) => bag
    case BoundNoOp(_) => bag
  }

  function CheckStmt(s: BoundStmt, bag: seq<Code>): (r: seq<Code>)
    ensures OnlyTypeErrors(bag, r)
  {
    match s
    case BoundExpressionStatement(e) => CheckExpr(e, bag)
    case BoundVariableDeclaration(symbolType, initializer) =>
      if initializer.None? then bag
      else AssertType(initializer.value, symbolType, CheckExpr(initializer.value, bag))
    case BoundBlock(statements) => CheckStatements(statements, bag)
    case BoundNoOpStatement => bag
  }

  /** `CheckStatements`: the statements in order. */
  function CheckStatements(ss: seq<BoundStmt>, bag: seq<Code>): (r: seq<Code>)
    ensures OnlyTypeErrors(bag, r)
    decreases ss
  {
    if ss == [] then bag
    else
      assert ss[0] in ss;
      CheckStatements(ss[1..], CheckStmt(ss[0], bag))
  }

  /** `TypeChecker.Check()` on a tree: the tree is checked like a block. */
  function Check(tree: BoundSyntaxTree, bag: seq<Code>): (r: seq<Code>)
    ensures OnlyTypeErrors(bag, r)
  {
    CheckStatements(tree.statements, bag)
  }

  // ---- the reference: the list of assignability obligations ----------

  /** One `Assert` call: the node's type must be assignable to `expected`. */
  datatype Obligation = Obligation(actual: BaseType, expected: BaseType)

  /** The obligations of an expression in the order the checker meets them:
      a node's own obligations come after those of its children. */
  function Obligations(e: BoundExpr): seq<Obligation>
  {
    match e
    case BoundAssignmentOp(_, op, right, _) =>
      Obligations(right) + [Obligation(right.ty, op.rightType)]
    case BoundBinaryOp(left, op, right, _) =>
      Obligations(left) + Obligations(right)
      + [Obligation(left.ty, op.leftType), Obligation(right.ty, op.rightType)]
    case BoundParenthesized(inner, _) => Obligations(inner)
    case BoundUnaryOp(operand, op, _) =>
      Obligations(operand) + [Obligation(operand.ty, op.operandType)]
    case _ => []
  }

  function StmtObligations(s: BoundStmt): seq<Obligation>
  {
    match s
    case BoundExpressionStatement(e) => Obligations(e)
    case BoundVariableDeclaration(symbolType, initializer) =>
      if initializer.None? then []
      else Obligations(initializer.value) + [Obligation(initializer.value.ty, symbolType)]
    case BoundBlock(statements) => AllObligations(statements)
    case BoundNoOpStatement => []
  }

  function AllObligations(ss: seq<BoundStmt>): seq<Obligation>
    decreases ss
  {
    if ss == [] then []
    else
      assert ss[0] in ss;
      StmtObligations(ss[0]) + AllObligations(ss[1..])
  }

  /** One H007 per obligation that does not hold. */
  function Failures(obs: seq<Obligation>): (r: seq<Code>)
    ensures |r| <= |obs|
    ensures forall i :: 0 <= i < |r| ==> r[i] == H007
  {
    if obs == [] then []
    else (if IsAssignableTo(obs[0].actual, obs[0].expected) then [] else [H007]) + Failures(obs[1..])
  }

  lemma {:induction false} FailuresAppend(a: seq<Obligation>, b: seq<Obligation>)
    ensures Failures(a + b) == Failures(a) + Failures(b)
    decreases |a|
  {
    if a == [] {
      assert a + b == b;
    } else {
      assert (a + b)[1..] == a[1..] + b;
      FailuresAppend(a[1..], b);
    }
  }

  /** `Assert` appends the failure of its one obligation. */
  lemma AssertIsFailure(node: BoundExpr, expected: BaseType, bag: seq<Code>)
    ensures AssertType(node, expected, bag) == bag + Failures([Obligation(node.ty, expected)])
  {
    assert [Obligation(node.ty, expected)][1..] == [];
  }

  /** Checking an expression appends exactly one H007 per failed obligation, in order. */
  lemma {:induction false} CheckExprIsFailures(e: BoundExpr, bag: seq<Code>)
    ensures CheckExpr(e, bag) == bag + Failures(Obligations(e))
  {
    match e
    case BoundAssignmentOp(_, op, right, _) =>
      CheckExprIsFailures(right, bag);
      AssertIsFailure(right, op.rightType, CheckExpr(right, bag));
      FailuresAppend(Obligations(right), [Obligation(right.ty, op.rightType)]);
    case BoundBinaryOp(left, op, right, t) =>
      CheckExprIsFailures(left, bag);
      CheckExprIsFailures(right, CheckExpr(left, bag));
      BinaryIsFailures(left, op, right, t, bag);
    case BoundParenthesized(inner, _) =>
      CheckExprIsFailures(inner, bag);
    case BoundUnaryOp(operand, op, _) =>
      CheckExprIsFailures(operand, bag);
      AssertIsFailure(operand, op.operandType, CheckExpr(operand, bag));
      FailuresAppend(Obligations(operand), [Obligation(operand.ty, op.operandType)]);
    case BoundLiteral(_) =>
    case BoundIdentifierName(_) =>
    case BoundNoOp(_) =>
  }

  /** The binary case of `CheckExprIsFailures`, given the result for both children. */
  lemma BinaryIsFailures(left: BoundExpr, op: BoundBinaryOperator, right: BoundExpr, t: BaseType, bag: seq<Code>)
    requires CheckExpr(left, bag) == bag + Failures(Obligations(left))
    requires CheckExpr(right, CheckExpr(left, bag)) == CheckExpr(left, bag) + Failures(Obligations(right))
    ensures CheckExpr(BoundBinaryOp(left, op, right, t), bag)
      == bag + Failures(Obligations(BoundBinaryOp(left, op, right, t)))
  {
    var e := BoundBinaryOp(left, op, right, t);
    var checked := CheckExpr(right, CheckExpr(left, bag));
    var o1 := Obligation(left.ty, op.leftType);
    var o2 := Obligation(right.ty, op.rightType);
    var afterLeft := AssertType(left, op.leftType, checked);
    AssertIsFailure(left, op.leftType, checked);
    AssertIsFailure(right, op.rightType, afterLeft);
    FailuresOfFour(Obligations(left), Obligations(right), o1, o2);
  }

  /** How `Failures` splits over the obligation list of a binary operator. */
  lemma FailuresOfFour(lo: seq<Obligation>, ro: seq<Obligation>, o1: Obligation, o2: Obligation)
    ensures Failures(lo + ro + [o1, o2]) == Failures(lo) + Failures(ro) + Failures([o1]) + Failures([o2])
  {
    FailuresAppend(lo, ro);
    FailuresAppend(lo + ro, [o1, o2]);
    FailuresAppend([o1], [o2]);
    assert [o1] + [o2] == [o1, o2];
  }

  lemma {:induction false} CheckStmtIsFailures(s: BoundStmt, bag: seq<Code>)
    ensures CheckStmt(s, bag) == bag + Failures(StmtObligations(s))
    decreases s, 1
  {
    match s
    case BoundExpressionStatement(e) =>
      CheckExprIsFailures(e, bag);
    case BoundVariableDeclaration(symbolType, initializer) =>
      if initializer.Some? {
        CheckExprIsFailures(initializer.value, bag);
        FailuresAppend(Obligations(initializer.value), [Obligation(initializer.value.ty, symbolType)]);
      }
    case BoundBlock(statements) =>
      CheckStatementsIsFailures(statements, bag);
    case BoundNoOpStatement =>
  }

  lemma {:induction false} CheckStatementsIsFailures(ss: seq<BoundStmt>, bag: seq<Code>)
    ensures CheckStatements(ss, bag) == bag + Failures(AllObligations(ss))
    decreases ss, 0
  {
    if ss != [] {
      assert ss[0] in ss;
      CheckStmtIsFailures(ss[0], bag);
      CheckStatementsIsFailures(ss[1..], CheckStmt(ss[0], bag));
      FailuresAppend(StmtObligations(ss[0]), AllObligations(ss[1..]));
    }
  }

  /** A tree whose every obligation holds gets no diagnostic; otherwise the
      number of H007 entries added is the number of failed obligations. */
  lemma CheckCountsFailures(tree: BoundSyntaxTree, bag: seq<Code>)
    ensures (forall o :: o in AllObligations(tree.statements) ==> IsAssignableTo(o.actual, o.expected))
      ==> Check(tree, bag) == bag
    ensures CountOf(Check(tree, bag), H007) == CountOf(bag, H007) + |Failures(AllObligations(tree.statements))|
  {
    CheckStatementsIsFailures(tree.statements, bag);
    AllHold(AllObligations(tree.statements));
    CountOfAppend(bag, Failures(AllObligations(tree.statements)), H007);
    CountAllH007(Failures(AllObligations(tree.statements)));
  }

  lemma {:induction false} AllHold(obs: seq<Obligation>)
    ensures (forall o :: o in obs ==> IsAssignableTo(o.actual, o.expected)) ==> Failures(obs) == []
    decreases |obs|
  {
    if obs != [] {
      AllHold(obs[1..]);
      assert forall o :: o in obs[1..] ==> o in obs;
    }
  }

  lemma {:induction false} CountAllH007(fs: seq<Code>)
    requires forall i :: 0 <= i < |fs| ==> fs[i] == H007
    ensures CountOf(fs, H007) == |fs|
    decreases |fs|
  {
    if fs != [] {
      CountAllH007(fs[..|fs| - 1]);
    }
  }

  /** The left side of an assignment is never visited. */
  lemma AssignmentIgnoresLeft(l1: BoundExpr, l2: BoundExpr, op: BoundBinaryOperator, right: BoundExpr, t: BaseType, bag: seq<Code>)
    ensures CheckExpr(BoundAssignmentOp(l1, op, right, t), bag) == CheckExpr(BoundAssignmentOp(l2, op, right, t), bag)
  {
  }

  /** A binary op's inner diagnostics come before its own: its children's
      entries, then at most one for the left side, then at most one for the right. */
  lemma BinaryOrder(left: BoundExpr, op: BoundBinaryOperator, right: BoundExpr, t: BaseType, bag: seq<Code>)
    ensures var inner := CheckExpr(right, CheckExpr(left, bag));
      var r := CheckExpr(BoundBinaryOp(left, op, right, t), bag);
      && Extends(inner, r)
      && |r| == |inner| + (if IsAssignableTo(left.ty, op.leftType) then 0 else 1)
                        + (if IsAssignableTo(right.ty, op.rightType) then 0 else 1)
  {
  }

  /** A declaration without an initializer adds nothing, whatever its type. */
  lemma DeclarationWithoutInitializer(t: BaseType, bag: seq<Code>)
    ensures CheckStmt(BoundVariableDeclaration(t, None), bag) == bag
  {
  }

  /** An `int` initializer for a `bool` variable gets one H007; a `number` one for an `int` variable gets none. */
  lemma DeclarationExamples(bag: seq<Code>)
    ensures CheckStmt(BoundVariableDeclaration(Bool, Some(BoundLiteral(Int))), bag) == bag + [H007]
    ensures CheckStmt(BoundVariableDeclaration(Int, Some(BoundIdentifierName(Number))), bag) == bag
  {
    assert IsAssignableTo(Number.types[0], Int);
    assert SomeAssignable(Number.types, Int);
    assert AssertType(BoundIdentifierName(Number), Int, bag) == bag;
  }
}
