/** The stack interpreter of `VirtualMachine.cs`.

    The machine is a value: the bytecode, the instruction pointer, the operand
    stack (top last), the scope chain with the position of the enclosing scope,
    the shared diagnostics bag and the allocation counter that gives every
    evaluated object its reference identity.

    The host's conversions and floating-point arithmetic are parameters
    (`Host`). A conversion that throws is `None`; an instruction whose
    execution throws in the host leaves the machine `Stuck`, and the whole run
    `Crashed`. Runs are bounded by a fuel count, since a jump may loop.

    `Run` is stated over any step function that follows the shape of a step
    (`Sound`); `Exec(host)` is the interpreter's own, `Step` with the host
    fixed. */
module Interpreter {
  import opened Wrappers
  import opened Numerics
  import opened Values
  import opened Diagnostics
  import opened Scopes

  /** The .NET conversions and double arithmetic the interpreter calls. */
  datatype Host = Host(
    toDouble: Value -> Option<Float>,           // Convert.ToDouble
    toInt64: Value -> Option<Int64>,            // Convert.ToInt64
    toBoolean: Value -> Option<bool>,           // Convert.ToBoolean
    toText: Value -> string,                    // Convert.ToString
    arithmetic: (Opcode, Float, Float) -> Float, // + - * / % and Math.Pow
    compare: (Opcode, Float, Float) -> bool,    // < and <=
    floorToInt64: Float -> Option<Int64>)       // Convert.ToInt64(Math.Floor(x))

  datatype Machine = Machine(
    code: seq<Instruction>,
    pointer: int,
    stack: seq<Value>,
    scopes: Chain,
    enclosing: nat,
    diags: seq<Code>,
    nextObject: nat)

  /** There is an active scope, and the enclosing scope is the active one or
      the one just outside it. */
  predicate Valid(m: Machine)
  {
    |m.scopes| >= 1 && 1 <= m.enclosing && |m.scopes| - 1 <= m.enclosing <= |m.scopes|
  }

  /** A fresh machine over `code`, running in the given scope chain. */
  function Start(code: seq<Instruction>, scopes: Chain, diags: seq<Code>, nextObject: nat): (m: Machine)
    requires |scopes| >= 1
    ensures Valid(m) && m.code == code && m.pointer == 0 && m.stack == []
    ensures m.scopes == scopes && m.diags == diags && m.nextObject == nextObject
  {
    Machine(code, 0, [], scopes, |scopes|, diags, nextObject)
  }

  /** `r` is a later state of the same program: same code, still valid,
      diagnostics only appended, allocation counter never reset. */
  predicate Follows(m: Machine, r: Machine)
  {
    r.code == m.code && Valid(r) && Extends(m.diags, r.diags) && m.nextObject <= r.nextObject
  }

  function Advance(m: Machine): Machine
  {
    m.(pointer := m.pointer + 1)
  }

  function Push(m: Machine, v: Value): Machine
  {
    m.(stack := m.stack + [v])
  }

  function Top(m: Machine): Value
    requires |m.stack| >= 1
  {
    m.stack[|m.stack| - 1]
  }

  function Pop(m: Machine): Machine
    requires |m.stack| >= 1
  {
    m.(stack := m.stack[..|m.stack| - 1])
  }

  function Report(m: Machine, c: Code): Machine
  {
    m.(diags := m.diags + [c])
  }

  /** The outcome of one instruction. */
  datatype StepResult =
    | Next(m: Machine)              // continue at m.pointer
    | Halt(m: Machine)              // EXIT, or an opcode with no case
    | Return(m: Machine, value: Value)
    | Stuck(m: Machine)             // the host threw
    | Evaluate(m: Machine, pairs: seq<CodePair>) // PUSHOBJECT: run the pairs' code first

  predicate StepFollows(m: Machine, s: StepResult)
  {
    Follows(m, s.m)
  }

  /** The outcome of running a machine until it leaves its code. */
  datatype Outcome =
    | Done(value: Value, m: Machine)
    | Crashed(m: Machine)
    | OutOfFuel

  /** Which kind of value each binary opcode produces. */
  predicate BinaryResultKind(op: Opcode, v: Value)
  {
    && (op == CONCAT ==> v.Str?)
    && (op == ADD || op == SUB || op == MUL || op == DIV || op == MOD || op == POW ==> v.Double?)
    && (op == IDIV || op == BAND || op == BOR || op == BXOR ==> v.Long?)
    && (op == AND || op == OR || op == EQ || op == LT || op == LTE ==> v.Bool?)
  }

  /** The value a binary opcode pushes for `l` and `r`, or `None` when a
      host conversion throws. `&&` and `||` do not convert their right
      operand when the left one decides. */
  function Binary(host: Host, op: Opcode, l: Value, r: Value): (v: Option<Value>)
    requires IsBinaryOpcode(op)
    ensures v.Some? ==> BinaryResultKind(op, v.value)
    ensures op == EQ ==> v == Some(Bool(RawEquals(l, r)))
    ensures op == CONCAT ==> v == Some(Str(host.toText(l) + host.toText(r)))
  {
    if op == CONCAT then Some(Str(host.toText(l) + host.toText(r)))
    else if op == EQ then Some(Bool(RawEquals(l, r)))
    else if op == AND || op == OR then
      var lb := host.toBoolean(l);
      if lb.None? then None
      else if lb.value == (op == OR) then Some(Bool(lb.value))
      else
        var rb := host.toBoolean(r);
        if rb.None? then None else Some(Bool(rb.value))
    else if op == BAND || op == BOR || op == BXOR then
      var li := host.toInt64(l);
      var ri := host.toInt64(r);
      if li.None? || ri.None? then None
      else if op == BAND then Some(Long(BitAnd(li.value, ri.value)))
      else if op == BOR then Some(Long(BitOr(li.value, ri.value)))
      else Some(Long(BitXor(li.value, ri.value)))
    else
      var ld := host.toDouble(l);
      var rd := host.toDouble(r);
      if ld.None? || rd.None? then None
      else if op == IDIV then
        var q := host.floorToInt64(host.arithmetic(DIV, ld.value, rd.value));
        if q.None? then None else Some(Long(q.value))
      else if op == LT || op == LTE then Some(Bool(host.compare(op, ld.value, rd.value)))
      else Some(Double(host.arithmetic(op, ld.value, rd.value)))
  }

  /** The value a unary opcode pushes for `v`, or `None` when the host
      conversion throws. */
  function Unary(host: Host, op: Opcode, v: Value): (r: Option<Value>)
    requires IsUnaryOpcode(op)
    ensures r.Some? ==> (op == UNM ==> r.value.Double?) && (op == NOT ==> r.value.Bool?) && (op == BNOT ==> r.value.Long?)
  {
    if op == UNM then
      var d := host.toDouble(v);
      if d.None? then None else Some(Double(Negate(d.value)))
    else if op == NOT then
      var b := host.toBoolean(v);
      if b.None? then None else Some(Bool(!b.value))
    else
      var i := host.toInt64(v);
      if i.None? then None else Some(Long(BitNot(i.value)))
  }

  /** BEGINSCOPE: the active scope becomes the enclosing one, and a new empty
      scope inside it becomes active. */
  function BeginScope(m: Machine): (r: Machine)
    requires Valid(m)
    ensures Valid(r) && |r.scopes| == |m.scopes| + 1
    ensures r.scopes[..|m.scopes|] == m.scopes && r.scopes[|m.scopes|] == map[]
    ensures r.enclosing == |m.scopes|
  {
    m.(enclosing := |m.scopes|, scopes := m.scopes + [map[]])
  }

  /** ENDSCOPE: the enclosing scope becomes active, and its own enclosing scope
      (or itself, when it has none) becomes the enclosing one. */
  function EndScope(m: Machine): (r: Machine)
    requires Valid(m)
    ensures Valid(r) && r.scopes == m.scopes[..m.enclosing]
  {
    m.(scopes := m.scopes[..m.enclosing], enclosing := if m.enclosing > 1 then m.enclosing - 1 else m.enclosing)
  }

  /** Whether STORE leaves the stored value on the stack: its operand when
      that is a boolean, otherwise yes. */
  function KeepsValue(operand: Value): bool
  {
    if operand.Bool? then operand.b else true
  }

  /** POP, SWAP and DUP. */
  function StackStep(m: Machine, op: Opcode): (s: StepResult)
    requires Valid(m) && (op == POP || op == SWAP || op == DUP)
    ensures s.Next? || s.Stuck?
    ensures StepFollows(m, s)
  {
    var n := |m.stack|;
    if op == POP then
      if n < 1 then Stuck(m) else Next(Advance(Pop(m)))
    else if op == SWAP then
      if n < 2 then Stuck(m) else Next(Advance(m.(stack := m.stack[..n - 2] + [m.stack[n - 1], m.stack[n - 2]])))
    else
      if n < 1 then Stuck(m) else Next(Advance(Push(m, Top(m))))
  }

  /** LOAD: pops a name and pushes its value; a non-name is reported and
      nothing is pushed. */
  function LoadStep(m: Machine): (s: StepResult)
    requires Valid(m)
    ensures s.Next? || s.Stuck?
    ensures StepFollows(m, s)
  {
    if |m.stack| < 1 then Stuck(m)
    else
      var name := Top(m);
      if !name.Str? then Next(Advance(Report(Pop(m), HDEV)))
      else Next(Advance(Push(Pop(m), Lookup(m.scopes, name.s))))
  }

  /** STORE: pops a value and then a name, stores the value under the name,
      and pushes the value back unless the operand says not to. */
  function StoreStep(m: Machine, operand: Value): (s: StepResult)
    requires Valid(m)
    ensures s.Next? || s.Stuck?
    ensures StepFollows(m, s)
  {
    if |m.stack| < 2 then Stuck(m)
    else
      var value := Top(m);
      var rest := Pop(Pop(m));
      var name := Top(Pop(m));
      if !name.Str? then Next(Advance(Report(rest, HDEV)))
      else
        var stored := rest.(scopes := Store(m.scopes, name.s, value));
        Next(Advance(if KeepsValue(operand) then Push(stored, value) else stored))
  }

  /** CONCAT, the arithmetic, bitwise, logical and comparison opcodes: pop the
      right operand, then the left, push the result. */
  function BinaryStep(host: Host, m: Machine, op: Opcode): (s: StepResult)
    requires Valid(m) && IsBinaryOpcode(op)
    ensures s.Next? || s.Stuck?
    ensures StepFollows(m, s)
  {
    var n := |m.stack|;
    if n < 2 then Stuck(m)
    else
      var v := Binary(host, op, m.stack[n - 2], m.stack[n - 1]);
      if v.None? then Stuck(m)
      else Next(Advance(m.(stack := m.stack[..n - 2] + [v.value])))
  }

  /** UNM, NOT and BNOT: replace the top operand by the result. */
  function UnaryStep(host: Host, m: Machine, op: Opcode): (s: StepResult)
    requires Valid(m) && IsUnaryOpcode(op)
    ensures s.Next? || s.Stuck?
    ensures StepFollows(m, s)
  {
    if |m.stack| < 1 then Stuck(m)
    else
      var v := Unary(host, op, Top(m));
      if v.None? then Stuck(m)
      else Next(Advance(Push(Pop(m), v.value)))
  }

  /** The target of a taken jump: the operand when it is an `int`, otherwise
      an H001C report and the pointer stays where it is. */
  function JumpTo(m: Machine, operand: Value): (r: Machine)
    requires Valid(m)
    ensures Follows(m, r)
  {
    if operand.Int? then m.(pointer := operand.i) else Report(m, H001C)
  }

  /** JMP always jumps; JNZ and JZ pop a condition and jump when it is an
      `int` that is non-zero, respectively zero. */
  function JumpStep(m: Machine, ins: Instruction): (s: StepResult)
    requires Valid(m) && IsJump(ins.op)
    ensures s.Next? || s.Stuck?
    ensures StepFollows(m, s)
  {
    if ins.op == JMP then Next(JumpTo(m, ins.operand))
    else if |m.stack| < 1 then Stuck(m)
    else
      var c := Top(m);
      var taken := c.Int? && (if ins.op == JNZ then c.i != 0 else c.i == 0);
      if taken then Next(JumpTo(Pop(m), ins.operand)) else Next(Advance(Pop(m)))
  }

  /** The instructions that neither stop the machine nor evaluate nested code. */
  function SimpleStep(host: Host, m: Machine, ins: Instruction): (s: StepResult)
    requires Valid(m)
    requires ins.op != EXIT && ins.op != RETURN && ins.op != PUSHOBJECT && !IsJump(ins.op) && !IsUnhandled(ins.op)
    ensures s.Next? || s.Stuck?
    ensures StepFollows(m, s)
  {
    match ins.op
    case NOOP => Next(Advance(m))
    case BEGINSCOPE => Next(Advance(BeginScope(m)))
    case ENDSCOPE => Next(Advance(EndScope(m)))
    case PUSH | PUSHNONE => Next(Advance(Push(m, ins.operand)))
    case POP | SWAP | DUP => StackStep(m, ins.op)
    case LOAD => LoadStep(m)
    case STORE => StoreStep(m, ins.operand)
    case UNM | NOT | BNOT => UnaryStep(host, m, ins.op)
    case CONCAT | ADD | SUB | MUL | DIV | IDIV | MOD | POW | BAND | BOR | BXOR | AND | OR | EQ | LT | LTE =>
      BinaryStep(host, m, ins.op)
    case _ => assert false; Stuck(m)
  }

  /** The keys of an evaluated object are non-null and pairwise unequal, as
      the dictionary the object is built on demands. */
  predicate DistinctKeys(es: seq<Entry>)
  {
    && (forall i :: 0 <= i < |es| ==> es[i].key != Null)
    && (forall i, j :: 0 <= i < j < |es| ==> !RawEquals(es[i].key, es[j].key))
  }

  /** The outcome of evaluating the key and value code of object pairs. */
  datatype PairsResult =
    | Evaluated(entries: seq<Entry>, diags: seq<Code>, nextObject: nat)
    | PairsStuck(diags: seq<Code>, nextObject: nat)
    | PairsExhausted

  /** Executes one instruction. PUSHOBJECT needs nested runs, which `Run`
      performs on the `Evaluate` request. */
  function Step(host: Host, m: Machine): (s: StepResult)
    requires Valid(m)
    ensures StepFollows(m, s)
    ensures !(0 <= m.pointer < |m.code|) ==> s == Stuck(m)
  {
    if !(0 <= m.pointer < |m.code|) then Stuck(m)
    else
      var ins := m.code[m.pointer];
      if ins.op == EXIT then Halt(m)
      else if ins.op == RETURN then
        if |m.stack| < 1 then Stuck(m) else Return(Pop(m), Top(m))
      else if ins.op == PUSHOBJECT then
        if ins.operand.ObjectCode? then Evaluate(m, ins.operand.pairs) else Stuck(m)
      else if IsJump(ins.op) then JumpStep(m, ins)
      else if IsUnhandled(ins.op) then Halt(Report(m, H001D))
      else SimpleStep(host, m, ins)
  }

  /** The rest of PUSHOBJECT once the pairs are evaluated: a new object
      holding the results in operand order is pushed; the host's dictionary
      throws on a none key or on two equal keys. */
  function PushObject(m: Machine, r: PairsResult): (s: StepResult)
    requires Valid(m) && !r.PairsExhausted?
    requires Extends(m.diags, r.diags) && m.nextObject <= r.nextObject
    ensures s.Next? || s.Stuck?
    ensures StepFollows(m, s)
  {
    var after := m.(diags := r.diags, nextObject := r.nextObject);
    if r.PairsStuck? || !DistinctKeys(r.entries) then Stuck(after)
    else Next(Advance(Push(after.(nextObject := r.nextObject + 1), Object(r.nextObject, r.entries))))
  }

  /** Every step `step` takes from a valid machine leads to a later state
      of the same program. */
  ghost predicate Sound(step: Machine -> StepResult)
  {
    forall m {:trigger step(m)} :: Valid(m) ==> StepFollows(m, step(m))
  }

  /** The interpreter's instruction execution, as a step function; the
      machines a run reaches are all valid, and any other one is stuck. */
  function Exec(host: Host): (step: Machine -> StepResult)
    ensures Sound(step)
  {
    m => if Valid(m) then Step(host, m) else Stuck(m)
  }

  /** Runs the key code and then the value code of each pair, in order. */
  function EvalPairs(step: Machine -> StepResult, fuel: nat, pairs: seq<CodePair>, diags: seq<Code>, next: nat): (r: PairsResult)
    requires Sound(step)
    ensures !r.PairsExhausted? ==> Extends(diags, r.diags) && next <= r.nextObject
    ensures r.Evaluated? ==> |r.entries| == |pairs|
    decreases fuel, 1, |pairs|
  {
    if pairs == [] then Evaluated([], diags, next)
    else
      var key := Run(step, fuel, Start(pairs[0].key, [map[]], diags, next));
      if key.OutOfFuel? then PairsExhausted
      else if key.Crashed? then PairsStuck(key.m.diags, key.m.nextObject)
      else
        var value := Run(step, fuel, Start(pairs[0].value, [map[]], key.m.diags, key.m.nextObject));
        if value.OutOfFuel? then PairsExhausted
        else if value.Crashed? then PairsStuck(value.m.diags, value.m.nextObject)
        else
          var rest := EvalPairs(step, fuel, pairs[1..], value.m.diags, value.m.nextObject);
          if rest.Evaluated? then Evaluated([Entry(key.value, value.value)] + rest.entries, rest.diags, rest.nextObject)
          else rest
  }

  /** The value `Evaluate` returns when the loop ends: the popped top of the
      stack, or none. */
  function Finish(m: Machine): (r: Outcome)
    requires Valid(m)
    ensures r.Done? && Follows(m, r.m)
    ensures |m.stack| == 0 ==> r.value == Null
    ensures |m.stack| > 0 ==> r.value == m.stack[|m.stack| - 1] && r.m.stack == m.stack[..|m.stack| - 1]
  {
    if |m.stack| == 0 then Done(Null, m) else Done(Top(m), Pop(m))
  }

  /** `Evaluate`: steps until the pointer leaves the code, an EXIT or an
      opcode with no case stops the loop, or RETURN hands back a value. */
  function Run(step: Machine -> StepResult, fuel: nat, m: Machine): (r: Outcome)
    requires Valid(m) && Sound(step)
    ensures !r.OutOfFuel? ==> Follows(m, r.m)
    decreases fuel, 0
  {
    if m.pointer >= |m.code| then Finish(m)
    else if fuel == 0 then OutOfFuel
    else Continue(step, fuel - 1, m, step(m))
  }

  /** The loop after one instruction of `m` had outcome `s`; PUSHOBJECT's
      pairs are evaluated here. */
  function Continue(step: Machine -> StepResult, fuel: nat, m: Machine, s: StepResult): (r: Outcome)
    requires Valid(m) && Sound(step) && StepFollows(m, s)
    ensures !r.OutOfFuel? ==> Follows(m, r.m)
    decreases fuel, 2
  {
    match s
    case Next(m') => Run(step, fuel, m')
    case Halt(m') => Finish(m')
    case Return(m', v) => Done(v, m')
    case Stuck(m') => Crashed(m')
    case Evaluate(m', pairs) =>
      var r := EvalPairs(step, fuel, pairs, m'.diags, m'.nextObject);
      if r.PairsExhausted? then OutOfFuel
      else
        var p := PushObject(m', r);
        if p.Next? then Run(step, fuel, p.m) else Crashed(p.m)
  }
}
