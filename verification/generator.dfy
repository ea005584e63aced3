/** `BytecodeGenerator`: the tree-to-instruction-list compiler. */
module Generator {
  import opened Wrappers
  import opened Values
  import opened Syntax
  import opened Diagnostics
  import opened Ast

  /** What the binder says about a binary or assignment node: no bound binary
      node at all, or one whose operator type maps to an opcode or not. */
  datatype BinaryBinding = Unbound | Bound(opCode: Option<Opcode>)

  /** The generator's collaborators: the binder's answer for each binary node
      (`GetBoundNode` and `BoundBinaryOperator.OpCodeMap`), and membership in
      `SyntaxFacts.BinaryCompoundAssignmentOperators`. */
  datatype Context = Context(bind: Expr -> BinaryBinding, isCompound: SyntaxKind -> bool)

  /** Generated code and the diagnostics bag after generating it. */
  datatype Generated = Generated(code: seq<Instruction>, bag: seq<Code>)

  function Op(op: Opcode): Instruction
  {
    Instruction(op, Null)
  }

  /** The unary operator kinds the generator's switch has an arm for. */
  predicate HandledUnary(k: SyntaxKind)
  {
    k == Bang || k == Tilde || k == Minus || k == PlusPlus || k == MinusMinus
  }

  /** Every unary node the generator visits has a handled operator kind; any
      other kind is a null dereference in the host. Children of an unbound
      binary node are never visited. */
  predicate Generable(ctx: Context, e: Expr)
  {
    match e
    case Parenthesized(x) => Generable(ctx, x)
    case UnaryOp(x, op) => HandledUnary(op.kind) && Generable(ctx, x)
    case BinaryOp(l, _, r) => ctx.bind(e).Unbound? || (Generable(ctx, l) && Generable(ctx, r))
    case AssignmentOp(l, _, r) => ctx.bind(e).Unbound? || (Generable(ctx, l) && Generable(ctx, r))
    case _ => true
  }

  predicate GenerableStmt(ctx: Context, s: Stmt)
  {
    match s
    case ExpressionStatement(e) => Generable(ctx, e)
    case Block(ss) => forall i :: 0 <= i < |ss| ==> GenerableStmt(ctx, ss[i])
    case _ => true
  }

  /** Opcodes the generator never emits for an expression or statement: no
      jumps, no scope markers, no EXIT or RETURN. */
  predicate Straight(code: seq<Instruction>)
  {
    forall i :: 0 <= i < |code| ==>
      !IsJump(code[i].op) && code[i].op != BEGINSCOPE && code[i].op != ENDSCOPE && code[i].op != EXIT && code[i].op != RETURN
  }

  /** The generator only appends to the bag, and only H011. */
  predicate OnlyGeneratorErrors(before: seq<Code>, after: seq<Code>)
  {
    Extends(before, after) && forall i :: |before| <= i < |after| ==> after[i] == H011
  }

  /** `GenerateBytecode(expression)`. */
  function Gen(ctx: Context, e: Expr, bag: seq<Code>): (r: Generated)
    requires Generable(ctx, e)
    ensures |r.code| >= 1
    ensures OnlyGeneratorErrors(bag, r.bag)
    decreases e, 1
  {
    match e
    case Literal(t) => Generated([Instruction(if t.value != Null then PUSH else PUSHNONE, t.value)], bag)
    case IdentifierName(t) => Generated([Instruction(LOAD, Str(t.text))], bag)
    case Parenthesized(x) => Gen(ctx, x, bag)
    case UnaryOp(x, op) =>
      var value := Gen(ctx, x, bag);
      Generated(UnaryCode(value.code, op.kind), value.bag)
    case BinaryOp(l, op, r) => GenBinary(ctx, e, l, op, r, bag)
    case AssignmentOp(l, op, r) => GenBinary(ctx, e, l, op, r, bag)
    case NoOp => Generated([Op(NOOP)], bag)
    case SingularTypeRef(_) => Generated([Op(NOOP)], bag)
    case NoOpType => Generated([Op(NOOP)], bag)
  }

  /** The switch of `VisitUnaryOpExpression` on the operand's code `value`. */
  function UnaryCode(value: seq<Instruction>, k: SyntaxKind): (code: seq<Instruction>)
    requires HandledUnary(k)
    ensures Straight(value) ==> Straight(code)
    ensures value <= code
  {
    match k
    case Bang => value + [Op(NOT)]
    case Tilde => value + [Op(BNOT)]
    case Minus => value + [Op(UNM)]
    case PlusPlus => value + (value + [Instruction(PUSH, Int(1)), Op(ADD)]) + [Op(STORE)]
    case MinusMinus => value + (value + [Instruction(PUSH, Int(1)), Op(SUB)]) + [Op(STORE)]
  }

  /** `VisitBinaryOpExpression`, shared by assignment nodes. */
  function GenBinary(ctx: Context, e: Expr, l: Expr, op: Token, r: Expr, bag: seq<Code>): (g: Generated)
    requires (e.BinaryOp? || e.AssignmentOp?) && e.left == l && e.operator == op && e.right == r
    requires Generable(ctx, e)
    ensures |g.code| >= 1
    ensures OnlyGeneratorErrors(bag, g.bag)
    decreases e, 0
  {
    match ctx.bind(e)
    case Unbound => Generated([Op(NOOP)], bag)
    case Bound(opCode) =>
      var left := Gen(ctx, l, bag);
      var right := Gen(ctx, r, left.bag);
      if opCode.Some? then
        if !ctx.isCompound(op.kind) then Generated(left.code + right.code + [Op(opCode.value)], right.bag)
        else Generated(left.code + right.code + [Op(opCode.value), Op(STORE)], right.bag)
      else Generated([Op(NOOP)], right.bag + [H011])
  }

  /** `GenerateBytecode(statement)`. */
  function GenStmt(ctx: Context, s: Stmt, bag: seq<Code>): (r: Generated)
    requires GenerableStmt(ctx, s)
    ensures OnlyGeneratorErrors(bag, r.bag)
    decreases s, 1
  {
    match s
    case ExpressionStatement(e) => Gen(ctx, e, bag)
    case VariableDeclaration(_, _, _, _) => Generated([], bag)
    case Block(ss) => GenStatements(ctx, ss, bag)
    case NoOpStatement => Generated([Op(NOOP)], bag)
  }

  /** `GenerateStatementsBytecode`: each statement's code, in order. */
  function GenStatements(ctx: Context, ss: seq<Stmt>, bag: seq<Code>): (r: Generated)
    requires forall i :: 0 <= i < |ss| ==> GenerableStmt(ctx, ss[i])
    ensures OnlyGeneratorErrors(bag, r.bag)
    decreases ss, 0
  {
    if ss == [] then Generated([], bag)
    else
      assert ss[0] in ss;
      var first := GenStmt(ctx, ss[0], bag);
      var rest := GenStatements(ctx, ss[1..], first.bag);
      Generated(first.code + rest.code, rest.bag)
  }

  /** `VisitSyntaxTree`: the statements' code followed by one EXIT. */
  function GenTree(ctx: Context, tree: SyntaxTree, bag: seq<Code>): (r: Generated)
    requires forall i :: 0 <= i < |tree.statements| ==> GenerableStmt(ctx, tree.statements[i])
    ensures OnlyGeneratorErrors(bag, r.bag)
  {
    var body := GenStatements(ctx, tree.statements, bag);
    Generated(body.code + [Op(EXIT)], body.bag)
  }
}
