/** The host object universe the interpreter moves around (the C# `object?` of
    stack frames, scope bindings and instruction operands), together with the
    instruction set, because a PUSHOBJECT operand holds instruction lists. */
module Values {
  import opened Numerics

  /** The closed opcode set. INDEX, CALL, PROC, BSHL and BSHR exist in the
      instruction set but have no case in the interpreter's dispatch. */
  datatype Opcode =
    | PUSH | PUSHNONE | PUSHOBJECT | POP | SWAP | DUP
    | LOAD | STORE
    | CONCAT | ADD | SUB | MUL | DIV | IDIV | MOD | POW
    | BAND | BOR | BXOR | BNOT | UNM
    | AND | OR | NOT | EQ | LT | LTE
    | JMP | JNZ | JZ
    | BEGINSCOPE | ENDSCOPE
    | EXIT | NOOP | RETURN
    | INDEX | CALL | PROC | BSHL | BSHR

  /** The opcodes that pop two operands and push one result. */
  predicate IsBinaryOpcode(op: Opcode)
  {
    match op
    case CONCAT | ADD | SUB | MUL | DIV | IDIV | MOD | POW | BAND | BOR | BXOR | AND | OR | EQ | LT | LTE => true
    case _ => false
  }

  /** The opcodes that replace the top operand. */
  predicate IsUnaryOpcode(op: Opcode)
  {
    op == UNM || op == NOT || op == BNOT
  }

  /** The opcodes the interpreter's dispatch has no case for. */
  predicate IsUnhandled(op: Opcode)
  {
    match op
    case INDEX | CALL | PROC | BSHL | BSHR => true
    case _ => false
  }

  /** The opcodes that may set the instruction pointer. */
  predicate IsJump(op: Opcode)
  {
    op == JMP || op == JNZ || op == JZ
  }

  datatype Value =
    | Null                               // null, which the language calls none
    | Bool(b: bool)
    | Int(i: Int32)                      // a boxed `int`: jump targets, the generator's PUSH 1
    | Long(l: Int64)                     // a boxed `long`: integer literals, bitwise results
    | Double(d: Float)
    | Char(c: char)
    | Str(s: string)
    | Object(id: nat, entries: seq<Entry>) // an ObjectValue; `id` is its reference identity
    | ObjectCode(ref: nat, pairs: seq<CodePair>) // the PUSHOBJECT operand: key/value instruction lists; `ref` is its reference identity

  datatype Entry = Entry(key: Value, value: Value)

  datatype CodePair = CodePair(key: seq<Instruction>, value: seq<Instruction>)

  /** An instruction; `Null` stands for "no operand". */
  datatype Instruction = Instruction(op: Opcode, operand: Value)

  /** `EqualityComparer<object>.Default.Equals(a, b)`: values of different
      runtime types are never equal (no numeric coercion), doubles use
      `double.Equals`, strings compare by content, and an ObjectValue or a
      PUSHOBJECT operand (a `Dictionary`), neither of which overrides Equals,
      only equals itself. */
  predicate RawEquals(a: Value, b: Value)
  {
    match (a, b)
    case (Null, Null) => true
    case (Bool(x), Bool(y)) => x == y
    case (Int(x), Int(y)) => x == y
    case (Long(x), Long(y)) => x == y
    case (Double(x), Double(y)) => DoubleEquals(x, y)
    case (Char(x), Char(y)) => x == y
    case (Str(x), Str(y)) => x == y
    case (Object(x, _), Object(y, _)) => x == y
    case (ObjectCode(x, _), ObjectCode(y, _)) => x == y
    case _ => false
  }

  /** Same runtime type. */
  predicate SameKind(a: Value, b: Value)
  {
    match (a, b)
    case (Null, Null) => true
    case (Bool(_), Bool(_)) => true
    case (Int(_), Int(_)) => true
    case (Long(_), Long(_)) => true
    case (Double(_), Double(_)) => true
    case (Char(_), Char(_)) => true
    case (Str(_), Str(_)) => true
    case (Object(_, _), Object(_, _)) => true
    case (ObjectCode(_, _), ObjectCode(_, _)) => true
    case _ => false
  }

  /** Raw equality never coerces: equal values have the same runtime type, and
      it is reflexive and symmetric. */
  lemma RawEqualsProperties(a: Value, b: Value)
    ensures RawEquals(a, b) ==> SameKind(a, b)
    ensures RawEquals(a, a)
    ensures RawEquals(a, b) == RawEquals(b, a)
  {
    if a.Double? && b.Double? {
      DoubleEqualsIsEquivalence(a.d, b.d, a.d);
    }
  }

  /** Two objects, or two PUSHOBJECT operands, with the same contents but
      different identities differ, and one identity is one object whatever
      contents a value carries for it. */
  lemma ObjectsCompareByIdentity(es: seq<Entry>, ps: seq<CodePair>, i: nat, j: nat)
    ensures RawEquals(Object(i, es), Object(j, es)) <==> i == j
    ensures RawEquals(Object(i, es), Object(i, []))
    ensures RawEquals(ObjectCode(i, ps), ObjectCode(j, ps)) <==> i == j
    ensures RawEquals(ObjectCode(i, ps), ObjectCode(i, []))
  {
  }
}
