/** The generator and the interpreter together. The code generated for an
    expression made of literals, `!`, `~`, unary `-` and binary operators that
    the binder maps to an opcode pushes exactly the expression's value, and a
    program of one such expression statement evaluates to that value. */
module EndToEnd {
  import opened Wrappers
  import opened Numerics
  import opened Values
  import opened Syntax
  import opened Diagnostics
  import opened Ast
  import opened Generator
  import opened Interpreter
  import opened InterpreterProperties

  /** The unary operator kinds that compile to a single opcode. */
  predicate SimpleUnary(k: SyntaxKind)
  {
    k == Bang || k == Tilde || k == Minus
  }

  function UnaryOpcode(k: SyntaxKind): (op: Opcode)
    requires SimpleUnary(k)
    ensures IsUnaryOpcode(op)
  {
    if k == Bang then NOT else if k == Tilde then BNOT else UNM
  }

  /** Expressions whose code touches neither the scope chain nor the control
      flow: literals, parentheses, simple unary operators, and binary nodes
      bound to a binary opcode that are not compound assignments. The
      generator accepts every one of them. */
  predicate Pure(ctx: Context, e: Expr): (b: bool)
    ensures b ==> Generable(ctx, e)
  {
    match e
    case Literal(_) => true
    case Parenthesized(x) => Pure(ctx, x)
    case UnaryOp(x, op) => SimpleUnary(op.kind) && Pure(ctx, x)
    case BinaryOp(l, op, r) =>
      && ctx.bind(e).Bound? && ctx.bind(e).opCode.Some? && IsBinaryOpcode(ctx.bind(e).opCode.value)
      && !ctx.isCompound(op.kind) && Pure(ctx, l) && Pure(ctx, r)
    case _ => false
  }

  /** The value of a pure expression, computed directly by the value
      operations `ops`, left operand first; `None` when one of them fails. */
  function Eval(ops: Operations, ctx: Context, e: Expr): Option<Value>
    requires Pure(ctx, e)
  {
    match e
    case Literal(t) => Some(t.value)
    case Parenthesized(x) => Eval(ops, ctx, x)
    case UnaryOp(x, op) =>
      var v := Eval(ops, ctx, x);
      if v.None? then None else ops.unary(UnaryOpcode(op.kind), v.value)
    case BinaryOp(l, _, r) =>
      var a := Eval(ops, ctx, l);
      var b := Eval(ops, ctx, r);
      if a.None? || b.None? then None else ops.binary(ctx.bind(e).opCode.value, a.value, b.value)
    case _ => None
  }

  /** The operand stack after running `code` with the reference semantics
      of the stack instructions, or `None` when one of them fails. */
  function StackRun(ops: Operations, code: seq<Instruction>, s: seq<Value>): Option<seq<Value>>
    requires StackCode(code)
    decreases |code|
  {
    if code == [] then Some(s)
    else
      var t := StackEffect(ops, code[0], s);
      if t.None? then None else StackRun(ops, code[1..], t.value)
  }

  /** Code made of stack instructions only. */
  predicate StackCode(code: seq<Instruction>)
  {
    forall i :: 0 <= i < |code| ==> IsStackOp(code[i].op)
  }

  /** Running `a + b` runs `a`, then `b` on the stack `a` left. */
  lemma {:induction false} StackRunAppend(ops: Operations, a: seq<Instruction>, b: seq<Instruction>, s: seq<Value>)
    requires StackCode(a) && StackCode(b)
    ensures StackCode(a + b)
    ensures StackRun(ops, a + b, s) ==
      if StackRun(ops, a, s).None? then None else StackRun(ops, b, StackRun(ops, a, s).value)
    decreases |a|
  {
    if a == [] {
      assert a + b == b;
    } else {
      assert (a + b)[0] == a[0] && (a + b)[1..] == a[1..] + b;
      var t := StackEffect(ops, a[0], s);
      if t.Some? {
        StackRunAppend(ops, a[1..], b, t.value);
      }
    }
  }

  /** The code generated for a pure expression is stack code that pushes
      the expression's value on whatever stack it finds, or fails exactly
      when one of the operations fails (a host conversion that throws). */
  lemma {:induction false} GenStack(ops: Operations, ctx: Context, e: Expr, bag: seq<Code>, s: seq<Value>)
    requires Pure(ctx, e)
    ensures StackCode(Gen(ctx, e, bag).code)
    ensures StackRun(ops, Gen(ctx, e, bag).code, s) ==
      if Eval(ops, ctx, e).None? then None else Some(s + [Eval(ops, ctx, e).value])
    decreases e, 1
  {
    match e
    case Literal(t) =>
    case Parenthesized(x) => GenStack(ops, ctx, x, bag, s);
    case UnaryOp(x, op) => UnaryStack(ops, ctx, e, bag, s);
    case BinaryOp(l, op, r) => BinaryStack(ops, ctx, e, bag, s);
  }

  lemma {:induction false} UnaryStack(ops: Operations, ctx: Context, e: Expr, bag: seq<Code>, s: seq<Value>)
    requires e.UnaryOp? && Pure(ctx, e)
    ensures StackCode(Gen(ctx, e, bag).code)
    ensures StackRun(ops, Gen(ctx, e, bag).code, s) ==
      if Eval(ops, ctx, e).None? then None else Some(s + [Eval(ops, ctx, e).value])
    decreases e, 0
  {
    var x := e.operand;
    var cx, u := Gen(ctx, x, bag).code, [Op(UnaryOpcode(e.operator.kind))];
    assert Gen(ctx, e, bag).code == cx + u;
    GenStack(ops, ctx, x, bag, s);
    StackRunAppend(ops, cx, u, s);
    var v := Eval(ops, ctx, x);
    if v.Some? {
      UnaryTail(ops, UnaryOpcode(e.operator.kind), s, v.value);
    }
  }

  /** A unary instruction on a stack topped by `v`. */
  lemma UnaryTail(ops: Operations, op: Opcode, s: seq<Value>, v: Value)
    requires IsUnaryOpcode(op)
    ensures StackCode([Op(op)])
    ensures var r := ops.unary(op, v);
      StackRun(ops, [Op(op)], s + [v]) == if r.None? then None else Some(s + [r.value])
  {
    assert (s + [v])[..|s|] == s;
    assert [Op(op)][1..] == [];
  }

  /** A binary instruction on a stack topped by `x` and then `y`. */
  lemma BinaryTail(ops: Operations, op: Opcode, s: seq<Value>, x: Value, y: Value)
    requires IsBinaryOpcode(op)
    ensures StackCode([Op(op)])
    ensures var r := ops.binary(op, x, y);
      StackRun(ops, [Op(op)], s + [x] + [y]) == if r.None? then None else Some(s + [r.value])
  {
    var t := s + [x] + [y];
    assert t[..|s|] == s && t[|s|] == x && t[|s| + 1] == y;
    assert [Op(op)][1..] == [];
  }

  lemma {:induction false} BinaryStack(ops: Operations, ctx: Context, e: Expr, bag: seq<Code>, s: seq<Value>)
    requires e.BinaryOp? && Pure(ctx, e)
    ensures StackCode(Gen(ctx, e, bag).code)
    ensures StackRun(ops, Gen(ctx, e, bag).code, s) ==
      if Eval(ops, ctx, e).None? then None else Some(s + [Eval(ops, ctx, e).value])
    decreases e, 0
  {
    var left := Gen(ctx, e.left, bag);
    var cl, cr, b := left.code, Gen(ctx, e.right, left.bag).code, [Op(ctx.bind(e).opCode.value)];
    BinaryShape(ops, ctx, e, bag);
    var x, y := Eval(ops, ctx, e.left), Eval(ops, ctx, e.right);
    GenStack(ops, ctx, e.left, bag, s);
    GenStack(ops, ctx, e.right, left.bag, if x.Some? then s + [x.value] else s);
    StackRunAppend(ops, cl, cr, s);
    StackRunAppend(ops, cl + cr, b, s);
    if x.Some? && y.Some? {
      BinaryTail(ops, ctx.bind(e).opCode.value, s, x.value, y.value);
    }
  }

  /** The code of a pure binary node: the left operand's code, the right
      operand's, and the bound opcode; and its value. */
  lemma BinaryShape(ops: Operations, ctx: Context, e: Expr, bag: seq<Code>)
    requires e.BinaryOp? && Pure(ctx, e)
    ensures var left := Gen(ctx, e.left, bag); var op := ctx.bind(e).opCode.value;
      Gen(ctx, e, bag).code == left.code + Gen(ctx, e.right, left.bag).code + [Op(op)]
    ensures var a, b := Eval(ops, ctx, e.left), Eval(ops, ctx, e.right);
      Eval(ops, ctx, e) == if a.None? || b.None? then None else ops.binary(ctx.bind(e).opCode.value, a.value, b.value)
  {
  }

  /** `c` is the code at the machine's pointer. */
  predicate At(m: Machine, c: seq<Instruction>)
  {
    0 <= m.pointer && m.pointer + |c| <= |m.code| && m.code[m.pointer..m.pointer + |c|] == c
  }

  lemma AtFirst(m: Machine, c: seq<Instruction>)
    requires At(m, c) && c != []
    ensures 0 <= m.pointer < |m.code| && m.code[m.pointer] == c[0]
    ensures At(m.(pointer := m.pointer + 1), c[1..])
  {
    var p := m.pointer;
    assert m.code[p] == m.code[p..p + |c|][0];
    assert m.code[p + 1..p + |c|] == m.code[p..p + |c|][1..];
  }

  /** Where `k` instructions that leave the stack `t` land, starting from `m`. */
  function Landing(m: Machine, k: nat, t: Option<seq<Value>>): Option<Machine>
  {
    if t.Some? then Some(m.(pointer := m.pointer + k, stack := t.value)) else None
  }

  lemma LandingShift(m: Machine, m1: Machine, k: nat, t: Option<seq<Value>>)
    requires m1.pointer == m.pointer + 1 && m1 == m.(pointer := m1.pointer, stack := m1.stack)
    ensures Landing(m1, k, t) == Landing(m, k + 1, t)
  {
  }

  /** Stack code at the pointer of a machine whose step function has the
      reference semantics takes one continuing step per instruction, with
      the stack `StackRun` gives, or does not all continue when `StackRun`
      fails. */
  lemma {:induction false} CodeSteps(step: Machine -> StepResult, ops: Operations, m: Machine, c: seq<Instruction>)
    requires Sound(step) && Implements(step, ops) && Valid(m) && At(m, c) && StackCode(c)
    ensures Steps(step, m, |c|) == Landing(m, |c|, StackRun(ops, c, m.stack))
    decreases |c|
  {
    if c != [] {
      var t := FirstInstruction(step, ops, m, c);
      if t.Some? {
        CodeSteps(step, ops, m.(pointer := m.pointer + 1, stack := t.value), c[1..]);
      }
    }
  }

  /** The first instruction of stack code at the pointer: what it leaves on
      the stack, and how the rest of the code continues from there. */
  lemma FirstInstruction(step: Machine -> StepResult, ops: Operations, m: Machine, c: seq<Instruction>)
    returns (t: Option<seq<Value>>)
    requires Sound(step) && Implements(step, ops) && Valid(m) && At(m, c) && StackCode(c) && c != []
    ensures StackCode(c[1..]) && t == StackEffect(ops, c[0], m.stack)
    ensures t.None? ==> Steps(step, m, |c|) == None && StackRun(ops, c, m.stack) == None
    ensures t.Some? ==>
      var m1 := m.(pointer := m.pointer + 1, stack := t.value);
      var rest := StackRun(ops, c[1..], t.value);
      && Valid(m1) && At(m1, c[1..])
      && Steps(step, m, |c|) == Steps(step, m1, |c| - 1)
      && StackRun(ops, c, m.stack) == rest
      && Landing(m1, |c| - 1, rest) == Landing(m, |c|, rest)
  {
    AtFirst(m, c);
    StackInstruction(step, ops, m);
    t := StackEffect(ops, c[0], m.stack);
    if t.Some? {
      var m1 := m.(pointer := m.pointer + 1, stack := t.value);
      StepsCons(step, m, |c| - 1, m1);
      StackRunCons(ops, c, m.stack, t.value);
      LandingShift(m, m1, |c| - 1, StackRun(ops, c[1..], t.value));
    } else {
      StepsStop(step, m, |c| - 1);
    }
  }

  lemma StepsCons(step: Machine -> StepResult, m: Machine, k: nat, m1: Machine)
    requires Valid(m) && Sound(step) && m.pointer < |m.code| && step(m) == Next(m1)
    ensures Valid(m1) && Steps(step, m, k + 1) == Steps(step, m1, k)
  {
  }

  lemma StepsStop(step: Machine -> StepResult, m: Machine, k: nat)
    requires Valid(m) && Sound(step) && m.pointer < |m.code| && !step(m).Next?
    ensures Steps(step, m, k + 1) == None
  {
  }

  lemma StackRunCons(ops: Operations, c: seq<Instruction>, s: seq<Value>, s1: seq<Value>)
    requires StackCode(c) && c != [] && StackEffect(ops, c[0], s) == Some(s1)
    ensures StackCode(c[1..]) && StackRun(ops, c, s) == StackRun(ops, c[1..], s1)
  {
  }

  /** One stack instruction continues with its `StackEffect`, or does not
      continue when that fails. */
  lemma StackInstruction(step: Machine -> StepResult, ops: Operations, m: Machine)
    requires Implements(step, ops) && Valid(m)
    requires 0 <= m.pointer < |m.code| && IsStackOp(m.code[m.pointer].op)
    ensures var t := StackEffect(ops, m.code[m.pointer], m.stack);
      if t.Some? then step(m) == Next(m.(pointer := m.pointer + 1, stack := t.value))
      else !step(m).Next?
  {
    assert ExpressionSemantics(ops, m, step(m));
  }

  /** The code of a program made of one expression statement: the
      expression's code and EXIT. */
  lemma ProgramCode(ctx: Context, e: Expr, bag: seq<Code>)
    requires Generable(ctx, e)
    ensures GenTree(ctx, SyntaxTree([ExpressionStatement(e)]), bag).code == Gen(ctx, e, bag).code + [Op(EXIT)]
  {
    var ss := [ExpressionStatement(e)];
    var first := GenStmt(ctx, ss[0], bag);
    assert ss[1..] == [];
    assert GenStatements(ctx, ss, bag).code == first.code + GenStatements(ctx, [], first.bag).code;
    assert first.code + [] == Gen(ctx, e, bag).code;
  }

  /** Run from a fresh global scope with `fuel` to spare beyond one unit per
      instruction, `code` evaluates to `v` and stops at its last instruction
      with no diagnostic. */
  ghost predicate EvaluatesTo(step: Machine -> StepResult, code: seq<Instruction>, fuel: nat, v: Value)
    requires Sound(step)
  {
    var m := Start(code, [map[]], [], 0);
    Run(step, fuel + |code|, m) == Done(v, m.(pointer := |code| - 1))
  }

  /** A program of one pure expression statement, run from a fresh global
      scope, evaluates to the expression's value with no diagnostics, given
      one unit of fuel per instruction. */
  lemma ProgramValue(step: Machine -> StepResult, ops: Operations, ctx: Context, e: Expr, bag: seq<Code>, v: Value, fuel: nat)
    requires Sound(step) && Implements(step, ops)
    requires Pure(ctx, e) && Eval(ops, ctx, e) == Some(v)
    ensures EvaluatesTo(step, GenTree(ctx, SyntaxTree([ExpressionStatement(e)]), bag).code, fuel, v)
  {
    var c := PureProgram(ops, ctx, e, bag, v);
    PushThenExit(step, ops, c, v, fuel);
  }

  /** A program of one pure expression with value `v`: its code is stack code
      that leaves just `v` on an empty stack, followed by EXIT. */
  lemma PureProgram(ops: Operations, ctx: Context, e: Expr, bag: seq<Code>, v: Value) returns (c: seq<Instruction>)
    requires Pure(ctx, e) && Eval(ops, ctx, e) == Some(v)
    ensures c == Gen(ctx, e, bag).code
    ensures GenTree(ctx, SyntaxTree([ExpressionStatement(e)]), bag).code == c + [Op(EXIT)]
    ensures StackCode(c) && StackRun(ops, c, []) == Some([v])
  {
    c := Gen(ctx, e, bag).code;
    ProgramCode(ctx, e, bag);
    GenStack(ops, ctx, e, bag, []);
    assert [] + [v] == [v];
  }

  /** Stack code that leaves just `v` on an empty stack, followed by EXIT,
      evaluates to `v`. */
  lemma PushThenExit(step: Machine -> StepResult, ops: Operations, c: seq<Instruction>, v: Value, fuel: nat)
    requires Sound(step) && Implements(step, ops)
    requires StackCode(c) && StackRun(ops, c, []) == Some([v])
    ensures EvaluatesTo(step, c + [Op(EXIT)], fuel, v)
  {
    var m := Start(c + [Op(EXIT)], [map[]], [], 0);
    assert m.code[0..|c|] == c;
    CodeSteps(step, ops, m, c);
    var m' := m.(pointer := |c|, stack := [v]);
    RunThroughSteps(step, fuel + 1, m, |c|, m');
    ExitRun(step, ops, c, v, fuel);
    assert fuel + |c + [Op(EXIT)]| == fuel + 1 + |c|;
  }

  /** EXIT halts where it is. */
  lemma ExitStep(step: Machine -> StepResult, ops: Operations, m: Machine)
    requires Implements(step, ops) && Valid(m) && 0 <= m.pointer < |m.code| && m.code[m.pointer].op == EXIT
    ensures step(m) == Halt(m)
  {
    assert ExpressionSemantics(ops, m, step(m));
  }

  /** Once the code before the final EXIT has left just `v` on the stack,
      the run ends with `v`, the stack emptied. */
  lemma ExitRun(step: Machine -> StepResult, ops: Operations, c: seq<Instruction>, v: Value, fuel: nat)
    requires Sound(step) && Implements(step, ops)
    ensures var m := Start(c + [Op(EXIT)], [map[]], [], 0);
      Run(step, fuel + 1, m.(pointer := |c|, stack := [v])) == Done(v, m.(pointer := |c|))
  {
    var m := Start(c + [Op(EXIT)], [map[]], [], 0).(pointer := |c|, stack := [v]);
    ExitStep(step, ops, m);
    assert [v][..0] == [];
  }

  /** An integer literal: the lexer gives it a `long` value. */
  function Num(text: string, n: Int64): Expr
  {
    Literal(Token(IntLiteral, text, Long(n), Location(1, 1), Location(1, 1 + |text|)))
  }

  function Equality(a: Expr, b: Expr): Expr
  {
    BinaryOp(a, Token(EqualsEquals, "==", Null, Location(1, 3), Location(1, 5)), b)
  }

  /** A binder that maps every binary node to EQ. */
  function EqualityBinder(): Context
  {
    Context(_ => Bound(Some(EQ)), _ => false)
  }

  /** A program comparing two integer literals with `==` evaluates to
      whether their values are equal, whatever the host, under any step
      function with the reference semantics of the interpreter's operations,
      in particular `Exec(host)` (`ExecImplements`). */
  lemma EqualityProgram(step: Machine -> StepResult, host: Host, bag: seq<Code>, a: Expr, b: Expr, x: Int64, y: Int64)
    requires Sound(step) && Implements(step, Ops(host))
    requires a.Literal? && a.token.value == Long(x) && b.Literal? && b.token.value == Long(y)
    ensures Pure(EqualityBinder(), Equality(a, b))
    ensures var code := GenTree(EqualityBinder(), SyntaxTree([ExpressionStatement(Equality(a, b))]), bag).code;
      var r := Run(step, |code|, Start(code, [map[]], [], 0));
      r.Done? && r.value == Bool(x == y)
  {
    EqualityValue(host, a, b, x, y);
    ProgramValue(step, Ops(host), EqualityBinder(), Equality(a, b), bag, Bool(x == y), 0);
  }

  /** `1 == 1` is true and `1 == 2` is false. */
  lemma EqualityPrograms(step: Machine -> StepResult, host: Host, bag: seq<Code>)
    requires Sound(step) && Implements(step, Ops(host))
    ensures var code := GenTree(EqualityBinder(), SyntaxTree([ExpressionStatement(Equality(Num("1", 1), Num("1", 1)))]), bag).code;
      var r := Run(step, |code|, Start(code, [map[]], [], 0));
      r.Done? && r.value == Bool(true)
    ensures var code := GenTree(EqualityBinder(), SyntaxTree([ExpressionStatement(Equality(Num("1", 1), Num("2", 2)))]), bag).code;
      var r := Run(step, |code|, Start(code, [map[]], [], 0));
      r.Done? && r.value == Bool(false)
  {
    EqualityProgram(step, host, bag, Num("1", 1), Num("1", 1), 1, 1);
    EqualityProgram(step, host, bag, Num("1", 1), Num("2", 2), 1, 2);
  }

  /** An equality of two integer literals is pure, and its value under the
      interpreter's operations is whether the literals' `long` values are
      equal. */
  lemma EqualityValue(host: Host, a: Expr, b: Expr, x: Int64, y: Int64)
    requires a.Literal? && a.token.value == Long(x) && b.Literal? && b.token.value == Long(y)
    ensures Pure(EqualityBinder(), Equality(a, b))
    ensures Eval(Ops(host), EqualityBinder(), Equality(a, b)) == Some(Bool(x == y))
  {
    var ctx, e, ops := EqualityBinder(), Equality(a, b), Ops(host);
    assert ctx.bind(e) == Bound(Some(EQ));
    assert Pure(ctx, a) && Pure(ctx, b);
    assert Eval(ops, ctx, a) == Some(Long(x)) && Eval(ops, ctx, b) == Some(Long(y));
    assert ops.binary(EQ, Long(x), Long(y)) == Binary(host, EQ, Long(x), Long(y));
  }

  /** An identifier compiles to one LOAD carrying the name as its operand, but
      LOAD takes the name from the stack and ignores its operand: a program
      made of one identifier pops an empty stack, and the run crashes at its
      first instruction. */
  lemma IdentifierProgramCrashes(host: Host, ctx: Context, t: Token, bag: seq<Code>, fuel: nat)
    ensures var code := GenTree(ctx, SyntaxTree([ExpressionStatement(IdentifierName(t))]), bag).code;
      && code == [Instruction(LOAD, Str(t.text)), Op(EXIT)]
      && Run(Exec(host), fuel + 1, Start(code, [map[]], [], 0)) == Crashed(Start(code, [map[]], [], 0))
  {
    var ss := [ExpressionStatement(IdentifierName(t))];
    var first := GenStmt(ctx, ss[0], bag);
    assert ss[1..] == [];
    assert GenStatements(ctx, ss, bag).code == first.code + GenStatements(ctx, [], first.bag).code;
    var code := GenTree(ctx, SyntaxTree(ss), bag).code;
    assert code == [Instruction(LOAD, Str(t.text)), Op(EXIT)];
    var m := Start(code, [map[]], [], 0);
    Dispatch(host, m);
    assert Exec(host)(m) == Stuck(m);
  }
}
