/** Shape properties of the generated code. */
module GeneratorProperties {
  import opened Wrappers
  import opened Values
  import opened Syntax
  import opened Diagnostics
  import opened Ast
  import opened Generator

  /** The binder only ever maps binary nodes to binary opcodes. */
  ghost predicate BindsBinaryOpcodes(ctx: Context)
  {
    forall e :: ctx.bind(e).Bound? && ctx.bind(e).opCode.Some? ==> IsBinaryOpcode(ctx.bind(e).opCode.value)
  }

  lemma StraightAppend(a: seq<Instruction>, b: seq<Instruction>)
    requires Straight(a) && Straight(b)
    ensures Straight(a + b)
  {
    forall i | 0 <= i < |a + b|
      ensures !IsJump((a + b)[i].op) && (a + b)[i].op != BEGINSCOPE && (a + b)[i].op != ENDSCOPE
        && (a + b)[i].op != EXIT && (a + b)[i].op != RETURN
    {
      if i < |a| { assert (a + b)[i] == a[i]; } else { assert (a + b)[i] == b[i - |a|]; }
    }
  }

  /** Expressions compile to straight-line code: no jumps, scope markers,
      EXIT or RETURN. */
  lemma {:induction false} GenIsStraight(ctx: Context, e: Expr, bag: seq<Code>)
    requires BindsBinaryOpcodes(ctx) && Generable(ctx, e)
    ensures Straight(Gen(ctx, e, bag).code)
    decreases e
  {
    match e
    case Parenthesized(x) => GenIsStraight(ctx, x, bag);
    case UnaryOp(x, op) =>
      GenIsStraight(ctx, x, bag);
      var v := Gen(ctx, x, bag).code;
      var tail := [Instruction(PUSH, Int(1)), Op(if op.kind == PlusPlus then ADD else SUB)];
      if op.kind == PlusPlus || op.kind == MinusMinus {
        StraightAppend(v, tail);
        StraightAppend(v, v + tail);
        StraightAppend(v + (v + tail), [Op(STORE)]);
      } else {
        StraightAppend(v, [Op(UnaryOpcode(op.kind))]);
      }
    case BinaryOp(l, op, r) => BinaryIsStraight(ctx, e, bag);
    case AssignmentOp(l, op, r) => BinaryIsStraight(ctx, e, bag);
    case _ =>
  }

  function UnaryOpcode(k: SyntaxKind): Opcode
  {
    if k == Bang then NOT else if k == Tilde then BNOT else UNM
  }

  lemma {:induction false} BinaryIsStraight(ctx: Context, e: Expr, bag: seq<Code>)
    requires BindsBinaryOpcodes(ctx) && Generable(ctx, e) && (e.BinaryOp? || e.AssignmentOp?)
    ensures Straight(Gen(ctx, e, bag).code)
    decreases e, 0
  {
    if ctx.bind(e).Bound? {
      var left := Gen(ctx, e.left, bag);
      GenIsStraight(ctx, e.left, bag);
      GenIsStraight(ctx, e.right, left.bag);
      var right := Gen(ctx, e.right, left.bag);
      StraightAppend(left.code, right.code);
      var opCode := ctx.bind(e).opCode;
      if opCode.Some? {
        StraightAppend(left.code + right.code, [Op(opCode.value)]);
        StraightAppend(left.code + right.code, [Op(opCode.value), Op(STORE)]);
      }
    }
  }

  lemma {:induction false} GenStmtIsStraight(ctx: Context, s: Stmt, bag: seq<Code>)
    requires BindsBinaryOpcodes(ctx) && GenerableStmt(ctx, s)
    ensures Straight(GenStmt(ctx, s, bag).code)
    decreases s, 1
  {
    match s
    case ExpressionStatement(e) => GenIsStraight(ctx, e, bag);
    case Block(ss) => GenStatementsIsStraight(ctx, ss, bag);
    case _ =>
  }

  lemma {:induction false} GenStatementsIsStraight(ctx: Context, ss: seq<Stmt>, bag: seq<Code>)
    requires BindsBinaryOpcodes(ctx) && forall i :: 0 <= i < |ss| ==> GenerableStmt(ctx, ss[i])
    ensures Straight(GenStatements(ctx, ss, bag).code)
    decreases ss, 0
  {
    if ss != [] {
      assert ss[0] in ss;
      var first := GenStmt(ctx, ss[0], bag);
      GenStmtIsStraight(ctx, ss[0], bag);
      GenStatementsIsStraight(ctx, ss[1..], first.bag);
      StraightAppend(first.code, GenStatements(ctx, ss[1..], first.bag).code);
    }
  }

  /** A whole tree compiles to its statements' code followed by exactly one
      EXIT with no operand, which is the last instruction and the only EXIT. */
  lemma TreeEndsWithExit(ctx: Context, tree: SyntaxTree, bag: seq<Code>)
    requires BindsBinaryOpcodes(ctx)
    requires forall i :: 0 <= i < |tree.statements| ==> GenerableStmt(ctx, tree.statements[i])
    ensures var code := GenTree(ctx, tree, bag).code;
      && code == GenStatements(ctx, tree.statements, bag).code + [Instruction(EXIT, Null)]
      && forall i :: 0 <= i < |code| ==> (code[i].op == EXIT <==> i == |code| - 1)
  {
    GenStatementsIsStraight(ctx, tree.statements, bag);
  }

  /** Every statement of the list is one the generator accepts. */
  predicate AllGenerable(ctx: Context, ss: seq<Stmt>)
  {
    forall i :: 0 <= i < |ss| ==> GenerableStmt(ctx, ss[i])
  }

  lemma AllGenerableAppend(ctx: Context, a: seq<Stmt>, b: seq<Stmt>)
    requires AllGenerable(ctx, a) && AllGenerable(ctx, b)
    ensures AllGenerable(ctx, a + b)
  {
    forall i | 0 <= i < |a + b| ensures GenerableStmt(ctx, (a + b)[i]) {
      if i < |a| { assert (a + b)[i] == a[i]; } else { assert (a + b)[i] == b[i - |a|]; }
    }
  }

  /** Statement lists compile piecewise: the code of `a + b` is the code of
      `a` followed by the code of `b`, generated with the bag `a` left behind. */
  lemma {:induction false} StatementsAppend(ctx: Context, a: seq<Stmt>, b: seq<Stmt>, bag: seq<Code>)
    requires AllGenerable(ctx, a) && AllGenerable(ctx, b)
    ensures AllGenerable(ctx, a + b)
    ensures var first := GenStatements(ctx, a, bag);
      var second := GenStatements(ctx, b, first.bag);
      GenStatements(ctx, a + b, bag) == Generated(first.code + second.code, second.bag)
    decreases |a|
  {
    AllGenerableAppend(ctx, a, b);
    if a == [] {
      assert a + b == b;
    } else {
      assert (a + b)[1..] == a[1..] + b;
      assert (a + b)[0] == a[0];
      var head := GenStmt(ctx, a[0], bag);
      StatementsAppend(ctx, a[1..], b, head.bag);
    }
  }

  /** A literal compiles to one PUSH carrying the token's value, or one
      PUSHNONE when the value is none. */
  lemma LiteralCode(ctx: Context, t: Token, bag: seq<Code>)
    ensures t.value != Null ==> Gen(ctx, Literal(t), bag) == Generated([Instruction(PUSH, t.value)], bag)
    ensures t.value == Null ==> Gen(ctx, Literal(t), bag) == Generated([Instruction(PUSHNONE, Null)], bag)
  {
  }

  /** Parentheses are transparent, an identifier is one LOAD carrying its
      name, a declaration emits nothing, and the no-op nodes one NOOP each. */
  lemma SimpleNodes(ctx: Context, x: Expr, t: Token, init: Option<Expr>, ty: Option<Expr>, m: bool, bag: seq<Code>)
    requires Generable(ctx, x)
    ensures Gen(ctx, Parenthesized(x), bag) == Gen(ctx, x, bag)
    ensures Gen(ctx, IdentifierName(t), bag).code == [Instruction(LOAD, Str(t.text))]
    ensures GenStmt(ctx, VariableDeclaration(t, init, ty, m), bag) == Generated([], bag)
    ensures Gen(ctx, NoOp, bag).code == [Instruction(NOOP, Null)]
    ensures Gen(ctx, SingularTypeRef(t), bag).code == [Instruction(NOOP, Null)]
    ensures GenStmt(ctx, NoOpStatement, bag).code == [Instruction(NOOP, Null)]
  {
  }

  /** A block is its statements' code: no scope markers around it. */
  lemma BlockIsItsStatements(ctx: Context, ss: seq<Stmt>, bag: seq<Code>)
    requires forall i :: 0 <= i < |ss| ==> GenerableStmt(ctx, ss[i])
    ensures GenStmt(ctx, Block(ss), bag) == GenStatements(ctx, ss, bag)
  {
  }

  /** A bound, mapped binary op compiles in postfix order: left code, right
      code, the operator (and a STORE when it is a compound assignment). */
  lemma BinaryPostfix(ctx: Context, e: Expr, bag: seq<Code>)
    requires (e.BinaryOp? || e.AssignmentOp?) && Generable(ctx, e)
    requires ctx.bind(e).Bound? && ctx.bind(e).opCode.Some?
    ensures var left := Gen(ctx, e.left, bag);
      var right := Gen(ctx, e.right, left.bag);
      var op := Instruction(ctx.bind(e).opCode.value, Null);
      && Gen(ctx, e, bag).bag == right.bag
      && (!ctx.isCompound(e.operator.kind) ==> Gen(ctx, e, bag).code == left.code + right.code + [op])
      && (ctx.isCompound(e.operator.kind) ==> Gen(ctx, e, bag).code == left.code + right.code + [op, Instruction(STORE, Null)])
  {
  }

  /** Failure paths: no bound node gives one NOOP and no diagnostic, the
      children unvisited; an unmapped operator gives one NOOP, drops the
      operands' code and records H011 after their diagnostics. */
  lemma BinaryFailures(ctx: Context, e: Expr, bag: seq<Code>)
    requires (e.BinaryOp? || e.AssignmentOp?) && Generable(ctx, e)
    ensures ctx.bind(e).Unbound? ==> Gen(ctx, e, bag) == Generated([Instruction(NOOP, Null)], bag)
    ensures ctx.bind(e) == Bound(None) ==>
      var left := Gen(ctx, e.left, bag);
      Gen(ctx, e, bag) == Generated([Instruction(NOOP, Null)], Gen(ctx, e.right, left.bag).bag + [H011])
  {
  }

  /** `!`, `~` and `-` append NOT, BNOT or UNM to the operand's code; `++` and
      `--` emit the operand's code twice, then PUSH 1, ADD or SUB, and STORE. */
  lemma UnaryCodes(ctx: Context, x: Expr, op: Token, bag: seq<Code>)
    requires HandledUnary(op.kind) && Generable(ctx, x)
    ensures var v := Gen(ctx, x, bag);
      var code := Gen(ctx, UnaryOp(x, op), bag).code;
      && Gen(ctx, UnaryOp(x, op), bag).bag == v.bag
      && (op.kind == Bang ==> code == v.code + [Instruction(NOT, Null)])
      && (op.kind == Tilde ==> code == v.code + [Instruction(BNOT, Null)])
      && (op.kind == Minus ==> code == v.code + [Instruction(UNM, Null)])
      && (op.kind == PlusPlus ==>
            code == v.code + v.code + [Instruction(PUSH, Int(1)), Instruction(ADD, Null), Instruction(STORE, Null)])
      && (op.kind == MinusMinus ==>
            code == v.code + v.code + [Instruction(PUSH, Int(1)), Instruction(SUB, Null), Instruction(STORE, Null)])
  {
  }

  // ---- an independent count of the generator's diagnostics ----------

  /** The binary nodes the generator visits that are bound but have no opcode. */
  function Unmapped(ctx: Context, e: Expr): nat
    requires Generable(ctx, e)
  {
    match e
    case Parenthesized(x) => Unmapped(ctx, x)
    case UnaryOp(x, _) => Unmapped(ctx, x)
    case BinaryOp(l, _, r) =>
      if ctx.bind(e).Unbound? then 0
      else Unmapped(ctx, l) + Unmapped(ctx, r) + (if ctx.bind(e).opCode.None? then 1 else 0)
    case AssignmentOp(l, _, r) =>
      if ctx.bind(e).Unbound? then 0
      else Unmapped(ctx, l) + Unmapped(ctx, r) + (if ctx.bind(e).opCode.None? then 1 else 0)
    case _ => 0
  }

  /** `after` has `n` more entries than `before`, and `n` more H011. */
  predicate AddsH011(before: seq<Code>, after: seq<Code>, n: nat)
  {
    |after| == |before| + n && CountOf(after, H011) == CountOf(before, H011) + n
  }

  /** Generation adds exactly one H011 per visited unmapped operator. */
  lemma {:induction false} H011PerUnmapped(ctx: Context, e: Expr, bag: seq<Code>)
    requires Generable(ctx, e)
    ensures AddsH011(bag, Gen(ctx, e, bag).bag, Unmapped(ctx, e))
    decreases e
  {
    match e
    case Parenthesized(x) => H011PerUnmapped(ctx, x, bag);
    case UnaryOp(x, _) => H011PerUnmapped(ctx, x, bag);
    case BinaryOp(l, _, rr) =>
      if ctx.bind(e).Bound? {
        var lb, rb := BinaryBag(ctx, e, bag);
        H011PerUnmapped(ctx, l, bag);
        H011PerUnmapped(ctx, rr, lb);
        AddsH011Chain(bag, lb, rb, Unmapped(ctx, l), Unmapped(ctx, rr), ctx.bind(e).opCode.None?);
      }
    case AssignmentOp(l, _, rr) =>
      if ctx.bind(e).Bound? {
        var lb, rb := BinaryBag(ctx, e, bag);
        H011PerUnmapped(ctx, l, bag);
        H011PerUnmapped(ctx, rr, lb);
        AddsH011Chain(bag, lb, rb, Unmapped(ctx, l), Unmapped(ctx, rr), ctx.bind(e).opCode.None?);
      }
    case _ =>
  }

  /** The bag after a bound binary node: the operands' bags in turn, then one
      H011 when the operator has no opcode. */
  lemma BinaryBag(ctx: Context, e: Expr, bag: seq<Code>) returns (lb: seq<Code>, rb: seq<Code>)
    requires (e.BinaryOp? || e.AssignmentOp?) && Generable(ctx, e) && ctx.bind(e).Bound?
    ensures lb == Gen(ctx, e.left, bag).bag && rb == Gen(ctx, e.right, lb).bag
    ensures Gen(ctx, e, bag).bag == if ctx.bind(e).opCode.None? then rb + [H011] else rb
    ensures Unmapped(ctx, e) == Unmapped(ctx, e.left) + Unmapped(ctx, e.right) + if ctx.bind(e).opCode.None? then 1 else 0
  {
    lb := Gen(ctx, e.left, bag).bag;
    rb := Gen(ctx, e.right, lb).bag;
  }

  lemma AddsH011Chain(bag: seq<Code>, lb: seq<Code>, rb: seq<Code>, nl: nat, nr: nat, extra: bool)
    requires AddsH011(bag, lb, nl) && AddsH011(lb, rb, nr)
    ensures AddsH011(bag, if extra then rb + [H011] else rb, nl + nr + if extra then 1 else 0)
  {
    if extra {
      CountOfAppend(rb, [H011], H011);
    }
  }
}
