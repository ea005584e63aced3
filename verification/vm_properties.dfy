/** Properties of single instructions and of whole runs of the interpreter. */
module InterpreterProperties {
  import opened Wrappers
  import opened Numerics
  import opened Values
  import opened Diagnostics
  import opened Scopes
  import opened Interpreter

  // ---------------------------------------------------------------------------
  // Fuel is only a bound: more of it never changes a finished run.
  // ---------------------------------------------------------------------------

  lemma {:induction false} RunMonotone(step: Machine -> StepResult, f: nat, g: nat, m: Machine)
    requires Valid(m) && Sound(step) && f <= g && !Run(step, f, m).OutOfFuel?
    ensures Run(step, g, m) == Run(step, f, m)
    decreases f, 0
  {
    if m.pointer < |m.code| {
      ContinueMonotone(step, f - 1, g - 1, m, step(m));
    }
  }

  lemma {:induction false} ContinueMonotone(step: Machine -> StepResult, f: nat, g: nat, m: Machine, s: StepResult)
    requires Valid(m) && Sound(step) && StepFollows(m, s) && f <= g && !Continue(step, f, m, s).OutOfFuel?
    ensures Continue(step, g, m, s) == Continue(step, f, m, s)
    decreases f, 2
  {
    if s.Next? {
      RunMonotone(step, f, g, s.m);
    } else if s.Evaluate? {
      EvalPairsMonotone(step, f, g, s.pairs, s.m.diags, s.m.nextObject);
      var p := PushObject(s.m, EvalPairs(step, f, s.pairs, s.m.diags, s.m.nextObject));
      if p.Next? {
        RunMonotone(step, f, g, p.m);
      }
    }
  }

  lemma {:induction false} EvalPairsMonotone(step: Machine -> StepResult, f: nat, g: nat, pairs: seq<CodePair>, diags: seq<Code>, next: nat)
    requires Sound(step) && f <= g && !EvalPairs(step, f, pairs, diags, next).PairsExhausted?
    ensures EvalPairs(step, g, pairs, diags, next) == EvalPairs(step, f, pairs, diags, next)
    decreases f, 1, |pairs|
  {
    if pairs != [] {
      var key := Run(step, f, Start(pairs[0].key, [map[]], diags, next));
      RunMonotone(step, f, g, Start(pairs[0].key, [map[]], diags, next));
      if key.Done? {
        var value := Run(step, f, Start(pairs[0].value, [map[]], key.m.diags, key.m.nextObject));
        RunMonotone(step, f, g, Start(pairs[0].value, [map[]], key.m.diags, key.m.nextObject));
        if value.Done? {
          EvalPairsMonotone(step, f, g, pairs[1..], value.m.diags, value.m.nextObject);
        }
      }
    }
  }

  // ---------------------------------------------------------------------------
  // Straight-line execution: k steps that all continue.
  // ---------------------------------------------------------------------------

  /** The machine after `k` instructions that each continue, or `None` when
      one of them stops, returns, gets stuck or builds an object. */
  function Steps(step: Machine -> StepResult, m: Machine, k: nat): (r: Option<Machine>)
    requires Valid(m) && Sound(step)
    ensures r.Some? ==> Follows(m, r.value)
    ensures k == 0 ==> r == Some(m)
    decreases k
  {
    if k == 0 then Some(m)
    else if m.pointer >= |m.code| then None
    else
      var s := step(m);
      if s.Next? then Steps(step, s.m, k - 1) else None
  }

  /** The first of `k > 0` continuing steps. */
  lemma StepsFirst(step: Machine -> StepResult, m: Machine, k: nat, m': Machine) returns (m1: Machine)
    requires Valid(m) && Sound(step) && k > 0 && Steps(step, m, k) == Some(m')
    ensures m.pointer < |m.code| && step(m) == Next(m1) && Valid(m1) && Steps(step, m1, k - 1) == Some(m')
  {
    m1 := step(m).m;
  }

  /** One step that continues is one continuing step; one that does not is
      none. */
  lemma StepsOne(step: Machine -> StepResult, m: Machine)
    requires Valid(m) && Sound(step) && m.pointer < |m.code|
    ensures step(m).Next? ==> Steps(step, m, 1) == Some(step(m).m)
    ensures !step(m).Next? ==> Steps(step, m, 1) == None
  {
  }

  /** `a` continuing steps followed by `b` more are `a + b` of them; when the
      first `a` do not all continue, neither do the `a + b`. */
  lemma {:induction false} StepsCompose(step: Machine -> StepResult, m: Machine, a: nat, b: nat)
    requires Valid(m) && Sound(step)
    ensures Steps(step, m, a).Some? ==> Steps(step, m, a + b) == Steps(step, Steps(step, m, a).value, b)
    ensures Steps(step, m, a).None? ==> Steps(step, m, a + b) == None
    decreases a
  {
    if a > 0 && m.pointer < |m.code| && step(m).Next? {
      var m1 := step(m).m;
      StepsCompose(step, m1, a - 1, b);
      assert Steps(step, m, a) == Steps(step, m1, a - 1);
      assert Steps(step, m, a + b) == Steps(step, m1, (a - 1) + b);
    }
  }

  /** One continuing step of a run. */
  lemma RunContinues(step: Machine -> StepResult, fuel: nat, m: Machine, m1: Machine)
    requires Valid(m) && Sound(step) && fuel > 0 && m.pointer < |m.code| && step(m) == Next(m1)
    ensures Run(step, fuel, m) == Run(step, fuel - 1, m1)
  {
  }

  /** A run that first goes through `k` continuing steps ends as the run from
      where those steps lead, given one unit of fuel per step. */
  lemma {:induction false} RunThroughSteps(step: Machine -> StepResult, fuel: nat, m: Machine, k: nat, m': Machine)
    requires Valid(m) && Sound(step) && Steps(step, m, k) == Some(m')
    ensures Run(step, fuel + k, m) == Run(step, fuel, m')
    decreases k
  {
    if k == 0 {
      assert m' == m && fuel + k == fuel;
    } else {
      var m1 := StepsFirst(step, m, k, m');
      var f := fuel + (k - 1);
      RunThroughSteps(step, fuel, m1, k - 1, m');
      RunContinues(step, f + 1, m, m1);
      assert f + 1 == fuel + k;
    }
  }

  // ---------------------------------------------------------------------------
  // Single instructions.
  // ---------------------------------------------------------------------------

  /** Which part of the dispatch executes an instruction. */
  lemma Dispatch(host: Host, m: Machine)
    requires Valid(m) && 0 <= m.pointer < |m.code|
    ensures var ins := m.code[m.pointer];
      IsBinaryOpcode(ins.op) ==> Step(host, m) == BinaryStep(host, m, ins.op)
    ensures var ins := m.code[m.pointer];
      IsUnaryOpcode(ins.op) ==> Step(host, m) == UnaryStep(host, m, ins.op)
    ensures var ins := m.code[m.pointer];
      ins.op == STORE ==> Step(host, m) == StoreStep(m, ins.operand)
    ensures var ins := m.code[m.pointer];
      ins.op == LOAD ==> Step(host, m) == LoadStep(m)
  {
    var ins := m.code[m.pointer];
    if IsBinaryOpcode(ins.op) || IsUnaryOpcode(ins.op) || ins.op == STORE || ins.op == LOAD {
      StepSimple(host, m);
    }
  }

  /** The instructions that neither stop, jump nor build an object are
      executed by `SimpleStep`. */
  lemma StepSimple(host: Host, m: Machine)
    requires Valid(m) && 0 <= m.pointer < |m.code|
    requires var op := m.code[m.pointer].op;
      op != EXIT && op != RETURN && op != PUSHOBJECT && !IsJump(op) && !IsUnhandled(op)
    ensures Step(host, m) == SimpleStep(host, m, m.code[m.pointer])
  {
  }

  /** Every instruction other than a jump, a stop or PUSHOBJECT continues at
      the next instruction, or gets stuck. */
  lemma PointerAdvances(host: Host, m: Machine)
    requires Valid(m) && 0 <= m.pointer < |m.code|
    requires var op := m.code[m.pointer].op;
      op != EXIT && op != RETURN && op != PUSHOBJECT && !IsJump(op) && !IsUnhandled(op)
    ensures Step(host, m).Next? || Step(host, m).Stuck?
    ensures Step(host, m).Next? ==> Step(host, m).m.pointer == m.pointer + 1
  {
    StepSimple(host, m);
  }

  /** EXIT and the opcodes with no case stop the machine where it is (the
      latter with one H001D); RETURN hands back the popped top. Nothing else
      stops or returns. */
  lemma Stops(host: Host, m: Machine)
    requires Valid(m) && 0 <= m.pointer < |m.code|
    ensures var op := m.code[m.pointer].op;
      Step(host, m).Halt? <==> op == EXIT || IsUnhandled(op)
    ensures var op := m.code[m.pointer].op;
      Step(host, m).Return? <==> op == RETURN && |m.stack| > 0
    ensures m.code[m.pointer].op == EXIT ==> Step(host, m) == Halt(m)
    ensures IsUnhandled(m.code[m.pointer].op) ==> Step(host, m) == Halt(m.(diags := m.diags + [H001D]))
    ensures m.code[m.pointer].op == RETURN && |m.stack| > 0 ==>
      Step(host, m) == Return(m.(stack := m.stack[..|m.stack| - 1]), m.stack[|m.stack| - 1])
  {
  }

  /** A run that reaches EXIT, RETURN or an opcode with no case ends there:
      later instructions are not executed. */
  lemma RunStops(host: Host, fuel: nat, m: Machine)
    requires Valid(m) && 0 <= m.pointer < |m.code| && fuel > 0
    ensures m.code[m.pointer].op == EXIT ==> Run(Exec(host), fuel, m) == Finish(m)
    ensures IsUnhandled(m.code[m.pointer].op) ==> Run(Exec(host), fuel, m) == Finish(m.(diags := m.diags + [H001D]))
    ensures m.code[m.pointer].op == RETURN && |m.stack| > 0 ==>
      Run(Exec(host), fuel, m) == Done(m.stack[|m.stack| - 1], m.(stack := m.stack[..|m.stack| - 1]))
  {
    Stops(host, m);
  }

  /** When the pointer is past the code the run ends with the popped top of
      the stack, or none. */
  lemma RunAtEnd(host: Host, fuel: nat, m: Machine)
    requires Valid(m) && m.pointer >= |m.code|
    ensures |m.stack| == 0 ==> Run(Exec(host), fuel, m) == Done(Null, m)
    ensures |m.stack| > 0 ==> Run(Exec(host), fuel, m) == Done(m.stack[|m.stack| - 1], m.(stack := m.stack[..|m.stack| - 1]))
  {
  }

  /** PUSH and PUSHNONE push their operand. */
  lemma PushEffect(host: Host, m: Machine)
    requires Valid(m) && 0 <= m.pointer < |m.code| && (m.code[m.pointer].op == PUSH || m.code[m.pointer].op == PUSHNONE)
    ensures Step(host, m) == Next(m.(pointer := m.pointer + 1, stack := m.stack + [m.code[m.pointer].operand]))
  {
  }

  /** POP drops the top, DUP copies it, SWAP exchanges the top two; each is
      stuck on too short a stack. */
  lemma StackEffects(host: Host, m: Machine)
    requires Valid(m) && 0 <= m.pointer < |m.code|
    ensures var n := |m.stack|; var op := m.code[m.pointer].op;
      op == POP && n >= 1 ==> Step(host, m) == Next(m.(pointer := m.pointer + 1, stack := m.stack[..n - 1]))
    ensures var n := |m.stack|; var op := m.code[m.pointer].op;
      op == DUP && n >= 1 ==> Step(host, m) == Next(m.(pointer := m.pointer + 1, stack := m.stack + [m.stack[n - 1]]))
    ensures var n := |m.stack|; var op := m.code[m.pointer].op;
      op == SWAP && n >= 2 ==> Step(host, m) == Next(m.(pointer := m.pointer + 1, stack := m.stack[..n - 2] + [m.stack[n - 1], m.stack[n - 2]]))
    ensures var n := |m.stack|; var op := m.code[m.pointer].op;
      ((op == POP || op == DUP) && n < 1) || (op == SWAP && n < 2) ==> Step(host, m) == Stuck(m)
  {
  }

  /** SWAP twice restores the stack. */
  lemma SwapTwice(host: Host, m: Machine)
    requires Valid(m) && 0 <= m.pointer && m.pointer + 1 < |m.code| && |m.stack| >= 2
    requires m.code[m.pointer].op == SWAP && m.code[m.pointer + 1].op == SWAP
    ensures Steps(Exec(host), m, 2) == Some(m.(pointer := m.pointer + 2))
  {
    StackEffects(host, m);
    var m1 := Step(host, m).m;
    StackEffects(host, m1);
    SwappedTwice(m.stack);
    assert Steps(Exec(host), m, 2) == Steps(Exec(host), m1, 1);
  }

  /** Exchanging the last two elements twice gives the sequence back. */
  lemma SwappedTwice(s: seq<Value>)
    requires |s| >= 2
    ensures var n := |s|; var t := s[..n - 2] + [s[n - 1], s[n - 2]];
      |t| == n && t[..n - 2] + [t[n - 1], t[n - 2]] == s
  {
    var n := |s|;
    var t := s[..n - 2] + [s[n - 1], s[n - 2]];
    assert t[..n - 2] == s[..n - 2];
    assert s == s[..n - 2] + [s[n - 2], s[n - 1]];
  }

  /** A binary opcode pops the right operand and then the left one, and
      pushes their result; it is stuck on too short a stack or when the host
      conversion throws. */
  lemma BinaryEffect(host: Host, m: Machine)
    requires Valid(m) && 0 <= m.pointer < |m.code| && IsBinaryOpcode(m.code[m.pointer].op)
    ensures var n := |m.stack|; var op := m.code[m.pointer].op;
      Step(host, m).Stuck? <==> n < 2 || Binary(host, op, m.stack[n - 2], m.stack[n - 1]).None?
    ensures var n := |m.stack|; var op := m.code[m.pointer].op;
      n >= 2 && Binary(host, op, m.stack[n - 2], m.stack[n - 1]).Some? ==>
        Step(host, m) == Next(m.(pointer := m.pointer + 1,
          stack := m.stack[..n - 2] + [Binary(host, op, m.stack[n - 2], m.stack[n - 1]).value]))
  {
    Dispatch(host, m);
  }

  /** EQ compares without coercion: an `int` and a `long` of the same
      magnitude are unequal, and equal values compare equal. */
  lemma EqualityEffect(host: Host, m: Machine)
    requires Valid(m) && 0 <= m.pointer < |m.code| && m.code[m.pointer].op == EQ && |m.stack| >= 2
    ensures var n := |m.stack|;
      Step(host, m) == Next(m.(pointer := m.pointer + 1,
        stack := m.stack[..n - 2] + [Bool(RawEquals(m.stack[n - 2], m.stack[n - 1]))]))
    ensures var n := |m.stack|;
      !SameKind(m.stack[n - 2], m.stack[n - 1]) ==> Step(host, m).m.stack[n - 2] == Bool(false)
    ensures var n := |m.stack|;
      m.stack[n - 2] == m.stack[n - 1] ==> Step(host, m).m.stack[n - 2] == Bool(true)
  {
    var n := |m.stack|;
    BinaryEffect(host, m);
    RawEqualsProperties(m.stack[n - 2], m.stack[n - 1]);
  }

  /** `&&` does not convert its right operand when the left one is false, nor
      `||` when it is true. */
  lemma ShortCircuit(host: Host, l: Value, r: Value)
    requires host.toBoolean(l) == Some(false)
    ensures Binary(host, AND, l, r) == Some(Bool(false))
  {
  }

  lemma ShortCircuitOr(host: Host, l: Value, r: Value)
    requires host.toBoolean(l) == Some(true)
    ensures Binary(host, OR, l, r) == Some(Bool(true))
  {
  }

  /** A unary opcode replaces the top operand by its result. */
  lemma UnaryEffect(host: Host, m: Machine)
    requires Valid(m) && 0 <= m.pointer < |m.code| && IsUnaryOpcode(m.code[m.pointer].op)
    ensures var n := |m.stack|; var op := m.code[m.pointer].op;
      Step(host, m).Stuck? <==> n < 1 || Unary(host, op, m.stack[n - 1]).None?
    ensures var n := |m.stack|; var op := m.code[m.pointer].op;
      n >= 1 && Unary(host, op, m.stack[n - 1]).Some? ==>
        Step(host, m) == Next(m.(pointer := m.pointer + 1,
          stack := m.stack[..n - 1] + [Unary(host, op, m.stack[n - 1]).value]))
  {
    Dispatch(host, m);
  }

  /** EQ on two values pushed on top of any stack: both are popped and the
      raw comparison of the two is pushed. */
  lemma EqualityOnTop(host: Host, m: Machine, a: Value, b: Value)
    requires Valid(m) && 0 <= m.pointer < |m.code| && m.code[m.pointer].op == EQ
    ensures Step(host, m.(stack := m.stack + [a, b]))
      == Next(m.(pointer := m.pointer + 1, stack := m.stack + [Bool(RawEquals(a, b))]))
  {
    var s := m.(stack := m.stack + [a, b]);
    EqualityEffect(host, s);
    assert s.stack[..|s.stack| - 2] == m.stack;
  }

  /** EQ coerces nothing: an `int` and a `long` of the same value are
      unequal, a `long` never equals a `bool`, two PUSHOBJECT operands with
      the same pairs but different identities are unequal, and the two
      double zeros, different bit patterns, are equal. */
  lemma EqualityWithoutCoercion(host: Host, m: Machine, x: Int32, b: bool, ps: seq<CodePair>, i: nat, j: nat)
    requires Valid(m) && 0 <= m.pointer < |m.code| && m.code[m.pointer].op == EQ
    ensures Step(host, m.(stack := m.stack + [Int(x), Long(x)]))
      == Next(m.(pointer := m.pointer + 1, stack := m.stack + [Bool(false)]))
    ensures Step(host, m.(stack := m.stack + [Long(x), Bool(b)]))
      == Next(m.(pointer := m.pointer + 1, stack := m.stack + [Bool(false)]))
    ensures i != j ==>
      Step(host, m.(stack := m.stack + [ObjectCode(i, ps), ObjectCode(j, ps)]))
        == Next(m.(pointer := m.pointer + 1, stack := m.stack + [Bool(false)]))
    ensures Float(0) != Float(SIGN_BIT)
    ensures Step(host, m.(stack := m.stack + [Double(Float(0)), Double(Float(SIGN_BIT))]))
      == Next(m.(pointer := m.pointer + 1, stack := m.stack + [Bool(true)]))
  {
    EqualityOnTop(host, m, Int(x), Long(x));
    EqualityOnTop(host, m, Long(x), Bool(b));
    EqualityOnTop(host, m, ObjectCode(i, ps), ObjectCode(j, ps));
    EqualityOnTop(host, m, Double(Float(0)), Double(Float(SIGN_BIT)));
  }

  /** With a host whose `Convert.ToDouble` returns a double unchanged, two
      UNM in a row restore a double on top of the stack: each flips the sign
      bit and nothing else. */
  lemma NegateTwice(host: Host, m: Machine, d: Float)
    requires Valid(m) && 0 <= m.pointer && m.pointer + 1 < |m.code|
    requires m.code[m.pointer].op == UNM && m.code[m.pointer + 1].op == UNM
    requires forall f :: host.toDouble(Double(f)) == Some(f)
    requires |m.stack| >= 1 && m.stack[|m.stack| - 1] == Double(d)
    ensures Step(host, m) == Next(m.(pointer := m.pointer + 1, stack := m.stack[..|m.stack| - 1] + [Double(Negate(d))]))
    ensures Step(host, Step(host, m).m) == Next(m.(pointer := m.pointer + 2))
  {
    var n := |m.stack|;
    UnaryEffect(host, m);
    var m1 := Step(host, m).m;
    UnaryEffect(host, m1);
    assert m1.stack[..n - 1] == m.stack[..n - 1];
    assert Negate(Negate(d)) == d;
    assert m.stack[..n - 1] + [Double(d)] == m.stack;
  }

  /** LOAD pops a name and pushes what the scope chain binds it to; a popped
      value that is not a name is reported as HDEV and nothing is pushed. */
  lemma LoadEffect(host: Host, m: Machine)
    requires Valid(m) && 0 <= m.pointer < |m.code| && m.code[m.pointer].op == LOAD && |m.stack| >= 1
    ensures var n := |m.stack|; var name := m.stack[n - 1];
      name.Str? ==> Step(host, m) == Next(m.(pointer := m.pointer + 1,
        stack := m.stack[..n - 1] + [Lookup(m.scopes, name.s)]))
    ensures var n := |m.stack|; var name := m.stack[n - 1];
      !name.Str? ==> Step(host, m) == Next(m.(pointer := m.pointer + 1,
        stack := m.stack[..n - 1], diags := m.diags + [HDEV]))
  {
    Dispatch(host, m);
  }

  /** STORE pops a value and then a name, binds the name (assigning where it
      is declared, defining it in the active scope otherwise), and pushes the
      value back unless its operand is `false`. */
  lemma StoreEffect(host: Host, m: Machine)
    requires Valid(m) && 0 <= m.pointer < |m.code| && m.code[m.pointer].op == STORE && |m.stack| >= 2
    ensures var n := |m.stack|; var name := m.stack[n - 2]; var v := m.stack[n - 1];
      var keep := m.code[m.pointer].operand != Bool(false);
      name.Str? ==> Step(host, m) == Next(m.(pointer := m.pointer + 1,
        stack := m.stack[..n - 2] + (if keep then [v] else []),
        scopes := Store(m.scopes, name.s, v)))
    ensures var n := |m.stack|; var name := m.stack[n - 2];
      !name.Str? ==> Step(host, m) == Next(m.(pointer := m.pointer + 1,
        stack := m.stack[..n - 2], diags := m.diags + [HDEV]))
  {
    Dispatch(host, m);
    var n := |m.stack|;
    assert m.stack[..n - 1][..n - 2] == m.stack[..n - 2];
    assert m.stack[..n - 2] + [] == m.stack[..n - 2];
  }

  // ---------------------------------------------------------------------------
  // Jumps.
  // ---------------------------------------------------------------------------

  /** JMP goes to its `int` operand; with any other operand it reports H001C
      and the pointer stays put. JNZ and JZ pop the condition (stuck on an
      empty stack) and jump only on an `int` that is non-zero, respectively
      zero: a boolean or 64-bit condition always falls through. */
  lemma JumpEffect(host: Host, m: Machine)
    requires Valid(m) && 0 <= m.pointer < |m.code| && IsJump(m.code[m.pointer].op)
    ensures var ins := m.code[m.pointer];
      ins.op == JMP && ins.operand.Int? ==> Step(host, m) == Next(m.(pointer := ins.operand.i))
    ensures var ins := m.code[m.pointer];
      ins.op == JMP && !ins.operand.Int? ==> Step(host, m) == Next(m.(diags := m.diags + [H001C]))
    ensures m.code[m.pointer].op != JMP && |m.stack| == 0 ==> Step(host, m) == Stuck(m)
    ensures var ins := m.code[m.pointer]; var n := |m.stack|;
      ins.op != JMP && n >= 1 && !m.stack[n - 1].Int? ==>
        Step(host, m) == Next(m.(pointer := m.pointer + 1, stack := m.stack[..n - 1]))
    ensures var ins := m.code[m.pointer]; var n := |m.stack|;
      ins.op != JMP && n >= 1 && m.stack[n - 1].Int? ==>
        var zero := m.stack[n - 1].i == 0;
        var popped := m.(stack := m.stack[..n - 1]);
        Step(host, m) == Next(
          if zero == (ins.op == JNZ) then popped.(pointer := m.pointer + 1)
          else if ins.operand.Int? then popped.(pointer := ins.operand.i)
          else popped.(diags := m.diags + [H001C]))
  {
  }

  /** A machine about to execute a JMP whose operand is not an `int`. */
  predicate Spinning(m: Machine)
  {
    Valid(m) && 0 <= m.pointer < |m.code| && m.code[m.pointer].op == JMP && !m.code[m.pointer].operand.Int?
  }

  /** A JMP whose operand is not an `int` repeats forever, one H001C per
      round: the run never ends, whatever the fuel. */
  lemma {:induction false} JumpSpins(host: Host, fuel: nat, m: Machine)
    requires Spinning(m)
    ensures Run(Exec(host), fuel, m) == OutOfFuel
    decreases fuel
  {
    if fuel > 0 {
      JumpRound(host, fuel, m);
      JumpSpins(host, fuel - 1, m.(diags := m.diags + [H001C]));
    }
  }

  /** One round of such a JMP: the same machine with one more H001C. */
  lemma JumpRound(host: Host, fuel: nat, m: Machine)
    requires Spinning(m) && fuel > 0
    ensures Spinning(m.(diags := m.diags + [H001C]))
    ensures Run(Exec(host), fuel, m) == Run(Exec(host), fuel - 1, m.(diags := m.diags + [H001C]))
  {
    JumpEffect(host, m);
    RunContinues(Exec(host), fuel, m, m.(diags := m.diags + [H001C]));
  }

  // ---------------------------------------------------------------------------
  // Scopes.
  // ---------------------------------------------------------------------------

  /** The scope shape BEGINSCOPE leaves behind: the enclosing scope is the one
      just outside the active scope, or the active scope when it is alone. */
  predicate Nested(m: Machine)
  {
    Valid(m) && (|m.scopes| == 1 || m.enclosing == |m.scopes| - 1)
  }

  /** BEGINSCOPE and ENDSCOPE move the pointer on and open, respectively
      close, a scope; NOOP only moves the pointer on. */
  lemma ScopeEffects(host: Host, m: Machine)
    requires Valid(m) && 0 <= m.pointer < |m.code|
    ensures m.code[m.pointer].op == BEGINSCOPE ==>
      Step(host, m) == Next(m.(pointer := m.pointer + 1, scopes := m.scopes + [map[]], enclosing := |m.scopes|))
    ensures m.code[m.pointer].op == ENDSCOPE ==>
      Step(host, m) == Next(m.(pointer := m.pointer + 1, scopes := m.scopes[..m.enclosing],
        enclosing := if m.enclosing > 1 then m.enclosing - 1 else m.enclosing))
    ensures m.code[m.pointer].op == NOOP ==> Step(host, m) == Next(m.(pointer := m.pointer + 1))
  {
  }

  /** ENDSCOPE right after BEGINSCOPE gives the scope chain back; it gives the
      enclosing scope back exactly when the machine was `Nested`, since the
      interpreter keeps only one enclosing scope and not the whole stack. */
  lemma BeginEndRestores(m: Machine)
    requires Valid(m)
    ensures EndScope(BeginScope(m)).scopes == m.scopes
    ensures EndScope(BeginScope(m)).enclosing == m.enclosing <==> Nested(m)
  {
    assert (m.scopes + [map[]])[..|m.scopes|] == m.scopes;
  }

  /** BEGINSCOPE keeps a machine `Nested`, and ENDSCOPE does whenever it
      closes a scope. */
  lemma NestedKept(m: Machine)
    requires Nested(m)
    ensures Nested(BeginScope(m))
    ensures |m.scopes| >= 2 ==> Nested(EndScope(m))
  {
  }

  /** A block: whatever happens inside the scope BEGINSCOPE opened on a
      `Nested` machine `m`, as long as no scope is left open, ENDSCOPE
      returns to `m`'s chain and `m`'s enclosing scope, with the outer scopes
      as the block left them. */
  lemma BlockEnds(m: Machine, x: Machine)
    requires Nested(m)
    requires Valid(x) && |x.scopes| == |m.scopes| + 1 && x.enclosing == |m.scopes|
    ensures EndScope(x).scopes == x.scopes[..|m.scopes|]
    ensures EndScope(x).enclosing == m.enclosing && Nested(EndScope(x))
  {
  }

  /** A name first stored inside a block lives in the block's scope only:
      the outer chain is unchanged, and after the block the name is unbound. */
  lemma BlockDefinitionInvisible(c: Chain, name: string, v: Value)
    requires |c| >= 1 && !IsDeclared(c, name)
    ensures var inner := Store(c + [map[]], name, v);
      |inner| == |c| + 1 && inner[..|c|] == c && Lookup(inner, name) == v && Lookup(inner[..|c|], name) == Null
  {
    var c' := c + [map[]];
    assert c'[..|c|] == c;
    LookupSnoc(c, map[], name);
    StoreKeys(c', name, v);
    LookupStore(c', name, v, name);
  }

  // ---------------------------------------------------------------------------
  // Objects.
  // ---------------------------------------------------------------------------

  /** PUSHOBJECT hands its key/value code to the run loop; with an operand
      that is not object code the host cast throws. */
  lemma PushObjectEffect(host: Host, m: Machine)
    requires Valid(m) && 0 <= m.pointer < |m.code| && m.code[m.pointer].op == PUSHOBJECT
    ensures m.code[m.pointer].operand.ObjectCode? ==> Step(host, m) == Evaluate(m, m.code[m.pointer].operand.pairs)
    ensures !m.code[m.pointer].operand.ObjectCode? ==> Step(host, m) == Stuck(m)
  {
  }

  /** Code that pushes one constant. */
  function Constant(v: Value): seq<Instruction>
  {
    [Instruction(PUSH, v)]
  }

  /** Object code whose every key and value is a constant. */
  function ConstantPairs(es: seq<Entry>): (pairs: seq<CodePair>)
    ensures |pairs| == |es|
    ensures forall i :: 0 <= i < |es| ==> pairs[i] == CodePair(Constant(es[i].key), Constant(es[i].value))
  {
    if es == [] then [] else [CodePair(Constant(es[0].key), Constant(es[0].value))] + ConstantPairs(es[1..])
  }

  /** Constant code, run in a fresh machine, evaluates to its constant and
      reports nothing. */
  lemma RunConstant(host: Host, fuel: nat, v: Value, diags: seq<Code>, next: nat)
    requires fuel >= 1
    ensures var m := Start(Constant(v), [map[]], diags, next);
      Run(Exec(host), fuel, m) == Done(v, m.(pointer := 1))
  {
    var m := Start(Constant(v), [map[]], diags, next);
    PushEffect(host, m);
    RunContinues(Exec(host), fuel, m, m.(pointer := 1, stack := [v]));
    assert [v][..0] == [];
  }

  /** The pairs of constant object code evaluate to those constants in
      operand order, with no report and no allocation. */
  lemma {:induction false} EvalConstantPairs(host: Host, fuel: nat, es: seq<Entry>, diags: seq<Code>, next: nat)
    requires fuel >= 1
    ensures EvalPairs(Exec(host), fuel, ConstantPairs(es), diags, next) == Evaluated(es, diags, next)
    decreases |es|
  {
    if es != [] {
      var pairs := ConstantPairs(es);
      assert pairs[1..] == ConstantPairs(es[1..]);
      RunConstant(host, fuel, es[0].key, diags, next);
      RunConstant(host, fuel, es[0].value, diags, next);
      EvalConstantPairs(host, fuel, es[1..], diags, next);
      assert [Entry(es[0].key, es[0].value)] + es[1..] == es;
    }
  }

  /** An object literal of constants: with non-none, pairwise unequal keys a
      new object holding the pairs in order is pushed; otherwise the host
      dictionary throws and the run crashes. */
  lemma ObjectOfConstants(host: Host, fuel: nat, m: Machine, es: seq<Entry>, ref: nat)
    requires Valid(m) && 0 <= m.pointer < |m.code| && fuel >= 1
    requires m.code[m.pointer] == Instruction(PUSHOBJECT, ObjectCode(ref, ConstantPairs(es)))
    ensures DistinctKeys(es) ==>
      Run(Exec(host), fuel + 1, m) ==
      Run(Exec(host), fuel, m.(pointer := m.pointer + 1, stack := m.stack + [Object(m.nextObject, es)],
                               nextObject := m.nextObject + 1))
    ensures !DistinctKeys(es) ==> Run(Exec(host), fuel + 1, m) == Crashed(m)
  {
    var step, r := Exec(host), Evaluated(es, m.diags, m.nextObject);
    PushObjectEffect(host, m);
    assert step(m) == Evaluate(m, ConstantPairs(es));
    EvalConstantPairs(host, fuel, es, m.diags, m.nextObject);
    PushEntries(m, es);
    RunObject(step, fuel, m, ConstantPairs(es), r);
  }

  /** What PUSHOBJECT does with evaluated entries that reported nothing and
      allocated nothing. */
  lemma PushEntries(m: Machine, es: seq<Entry>)
    requires Valid(m)
    ensures DistinctKeys(es) ==>
      PushObject(m, Evaluated(es, m.diags, m.nextObject)) ==
      Next(m.(pointer := m.pointer + 1, stack := m.stack + [Object(m.nextObject, es)], nextObject := m.nextObject + 1))
    ensures !DistinctKeys(es) ==> PushObject(m, Evaluated(es, m.diags, m.nextObject)) == Stuck(m)
  {
  }

  /** One PUSHOBJECT in a run: once its pairs are evaluated, the run goes on
      from the state `PushObject` leaves, or crashes there. */
  lemma RunObject(step: Machine -> StepResult, fuel: nat, m: Machine, pairs: seq<CodePair>, r: PairsResult)
    requires Valid(m) && Sound(step) && m.pointer < |m.code| && step(m) == Evaluate(m, pairs)
    requires EvalPairs(step, fuel, pairs, m.diags, m.nextObject) == r && !r.PairsExhausted?
    ensures PushObject(m, r).Next? ==> Run(step, fuel + 1, m) == Run(step, fuel, PushObject(m, r).m)
    ensures PushObject(m, r).Stuck? ==> Run(step, fuel + 1, m) == Crashed(PushObject(m, r).m)
  {
  }

  // ---------------------------------------------------------------------------
  // The instructions expression code is made of.
  // ---------------------------------------------------------------------------

  /** The instructions that only work on the operand stack. */
  predicate IsStackOp(op: Opcode)
  {
    op == PUSH || op == PUSHNONE || IsUnaryOpcode(op) || IsBinaryOpcode(op)
  }

  /** The value operations of the unary and binary instructions, as total
      functions of the opcode; `None` is a conversion that throws. */
  datatype Operations = Operations(
    unary: (Opcode, Value) -> Option<Value>,
    binary: (Opcode, Value, Value) -> Option<Value>)

  /** The interpreter's own value operations. */
  function Ops(host: Host): Operations
  {
    Operations(
      (op, v) => if IsUnaryOpcode(op) then Unary(host, op, v) else None,
      (op, l, r) => if IsBinaryOpcode(op) then Binary(host, op, l, r) else None)
  }

  /** A reference semantics of the stack instructions on the operand stack
      alone: the stack after `ins`, or `None` when the stack is too short or
      a value operation fails. */
  function StackEffect(ops: Operations, ins: Instruction, s: seq<Value>): Option<seq<Value>>
    requires IsStackOp(ins.op)
  {
    var n := |s|;
    if ins.op == PUSH || ins.op == PUSHNONE then Some(s + [ins.operand])
    else if IsUnaryOpcode(ins.op) then
      if n < 1 then None
      else
        var r := ops.unary(ins.op, s[n - 1]);
        if r.None? then None else Some(s[..n - 1] + [r.value])
    else
      if n < 2 then None
      else
        var r := ops.binary(ins.op, s[n - 2], s[n - 1]);
        if r.None? then None else Some(s[..n - 2] + [r.value])
  }

  /** `s` is what executing the instruction at `m`'s pointer should give: a
      stack instruction has its `StackEffect` and moves on, or does not
      continue; EXIT halts where it is. */
  predicate ExpressionSemantics(ops: Operations, m: Machine, s: StepResult)
    requires 0 <= m.pointer < |m.code|
  {
    var ins := m.code[m.pointer];
    && (IsStackOp(ins.op) ==>
          var t := StackEffect(ops, ins, m.stack);
          if t.Some? then s == Next(m.(pointer := m.pointer + 1, stack := t.value)) else !s.Next?)
    && (ins.op == EXIT ==> s == Halt(m))
  }

  /** `step` follows the reference semantics on every valid machine. A proof
      instantiates this by naming `ExpressionSemantics(ops, m, step(m))`. */
  ghost predicate Implements(step: Machine -> StepResult, ops: Operations)
  {
    forall m {:trigger ExpressionSemantics(ops, m, step(m))} ::
      Valid(m) && 0 <= m.pointer < |m.code| ==> ExpressionSemantics(ops, m, step(m))
  }

  /** The interpreter's step function follows the reference semantics. */
  lemma ExecImplements(host: Host)
    ensures Implements(Exec(host), Ops(host))
  {
    forall m | Valid(m) && 0 <= m.pointer < |m.code|
      ensures ExpressionSemantics(Ops(host), m, Exec(host)(m))
    {
      var op := m.code[m.pointer].op;
      if op == PUSH || op == PUSHNONE {
        PushEffect(host, m);
      } else if IsUnaryOpcode(op) {
        UnaryEffect(host, m);
      } else if IsBinaryOpcode(op) {
        BinaryEffect(host, m);
      } else if op == EXIT {
        Stops(host, m);
      }
    }
  }
}
