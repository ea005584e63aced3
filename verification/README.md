# Heir core in Dafny

A model of the core of Heir, a small language toolchain written in C#. The
model covers these parts:

- **Parser.** Precedence-climbing recursive descent from tokens to an expression tree.
- **Token construction.** How `TokenFactory` builds tokens, including the values of literal tokens.
- **Type checker.** It appends one H007 diagnostic for each failed assignability check on the bound tree.
- **Type relations.** The assignability relation `BaseType.IsAssignableTo`.
- **Unary operators.** The operator table of `BoundUnaryOperator` and its `Bind`.
- **Interface types.** The index type and display form of `InterfaceType`.
- **Runtime objects.** The display form of `ObjectValue`.
- **Bytecode generator.** It turns the expression tree into a flat instruction list.
- **Interpreter.** The stack machine in `VirtualMachine.cs` that executes that list.

Values are a closed datatype for the host's `object?`. It has .NET `int`,
`long` and `double` as fixed-width subset types, and doubles as IEEE-754 bit
patterns. Diagnostics are their codes, threaded through every phase as an
append-only sequence.

The interpreter is a pure function over a machine value. The machine holds:

- the code and the instruction pointer;
- the operand stack;
- a scope chain, with the position of the enclosing scope;
- the diagnostics;
- an allocation counter that gives every evaluated object its reference identity.

The .NET conversions and the floating-point arithmetic are parameters
(`Interpreter.Host`). An instruction whose execution throws in .NET leaves the
machine `Stuck`, and the run `Crashed`. Examples are popping an empty stack, a
failed conversion, and a duplicate dictionary key. Runs take fuel, since a jump
can loop.

`Run` is stated over any step function that keeps machines valid. The
interpreter's own step function is `Interpreter.Exec(host)`. The end-to-end
theorem (`EndToEnd.ProgramValue`) chains generation and execution. For every
expression built from literals, parentheses, `!`, `~`, unary `-` and bound
binary operators, take the program made of that one expression statement. Run
from a fresh global scope, it yields the value a direct recursive evaluation
gives. This holds for every step function that implements the reference
semantics of the stack instructions. `InterpreterProperties.ExecImplements`
proves that `Exec(host)` does, for every host.

Notes on the code as written:

- **Identifiers and LOAD.**
  - The generator compiles an identifier to a LOAD whose operand is the name (`BytecodeGenerator.cs:75`).
  - The interpreter's LOAD ignores its operand and pops the name from the stack (`VirtualMachine.cs:129-144`).
  - So a program that is a bare identifier crashes on its first instruction (`EndToEnd.IdentifierProgramCrashes`).
  - The repository's generator tests (`Heir.Tests/BytecodeGeneratorTest.cs`) expect a PUSH of the name and a LOAD with no operand. They describe a later generator, and the model follows the code.
- **Declarations and blocks.** The same tests expect other things the code does not do:
  - a declaration that PUSHes the name and the value and STOREs without keeping the value;
  - `++a` and `--a` starting with two PUSHes of the name.

  `BytecodeGenerator.cs` emits nothing for a declaration (line 25), and it compiles a block to its statements' code with no scope of its own (line 24, marked as still to do). `++` and `--` emit the operand's code twice (lines 66-67). The model follows the code.
- **Failures.** Nothing in the interpreter guards against .NET exceptions. It pops without checking, casts without checking and builds dictionaries that reject duplicate keys, so those failures are modelled as crashes.
- **Assignability.** `IsAssignableTo` is symmetric whenever both sides have at least one non-union part (`Types.AssignableSymmetric`). It is not symmetric in general: a union holding `any` is assignable to the empty union, and not the other way round (`Types.AssignableNotSymmetric`).

## Model

| member | source | states |
|---|---|---|
| Types.AssignableCharacterized | Heir/Types/BaseType.cs:9-23 | The recursive relation, with its argument swap for union targets, equals a flat description: either side is `any`, the source contains `any`, or some non-union part of the source matches some non-union part of the target (equal literal values, or equal singular names) |
| Types.SomeAssignableCharacterized | Heir/Types/BaseType.cs:13-14 | `union.Types.Any(...)` against a non-`any` target holds exactly when some flattened member is `any` or matches a part of the target |
| Types.UnionSourceAssignable | Heir/Types/BaseType.cs:13-14 | A union on the left is assignable exactly when one of its members is |
| Types.UnionTargetSwaps | Heir/Types/BaseType.cs:15-16 | A non-union source against a union target is decided with the arguments swapped |
| Types.AnyIsAssignable | Heir/Types/BaseType.cs:11-12 | `any` on either side makes the relation hold |
| Types.AssignableSymmetric | Heir/Types/BaseType.cs:9-23 | When both types have at least one non-union part, the relation is symmetric |
| Types.AssignableNotSymmetric | Heir/Types/BaseType.cs:11-16 | Without that condition it is not: `(any)` is assignable to the empty union, the reverse is not |
| Types.LeafAssignable | Heir/Types/BaseType.cs:17-22 | Two non-union, non-`any` types are assignable exactly when they match as literals or as singular names |
| Types.EmptyUnion | Heir/Types/BaseType.cs:11-16 | The empty union is assignable to nothing but `any`, and only `any` and unions holding it are assignable to it |
| UnaryOperators.OpCodeMapTotal | Heir/BoundAST/BoundUnaryOperator.cs:18-25 | The opcode map covers all five operator kinds and maps them to distinct opcodes |
| UnaryOperators.ResultTypeIsOperandType | Heir/BoundAST/BoundUnaryOperator.cs:45-52 | Every table entry returns its operand type |
| UnaryOperators.SyntaxKindsDistinct | Heir/BoundAST/BoundUnaryOperator.cs:45-52 | No two entries share a syntax kind |
| UnaryOperators.Widen | Heir/BoundAST/BoundUnaryOperator.cs:56-57 | A literal operand type is replaced by its primitive; anything else is kept; the result is never a literal type |
| UnaryOperators.FirstFrom | Heir/BoundAST/BoundUnaryOperator.cs:59-67 | The loop returns an entry that applies (same kind, its operand type assignable to the widened operand type), and returns null only when no remaining entry applies |
| UnaryOperators.Bind | Heir/BoundAST/BoundUnaryOperator.cs:54-68 | A result is a table entry of the token's kind whose operand type is assignable to the widened operand type; null exactly when no entry applies |
| UnaryOperators.BindIsTableEntry | Heir/BoundAST/BoundUnaryOperator.cs:54-68 | `Bind` is the unique entry for the token's kind when its operand type fits, null otherwise |
| UnaryOperators.BindUnknownKind | Heir/BoundAST/BoundUnaryOperator.cs:59-67 | A kind with no entry never binds |
| UnaryOperators.BindLogicalNot | Heir/BoundAST/BoundUnaryOperator.cs:50 | `!` binds for bool and not for int |
| UnaryOperators.BindBitwiseNot | Heir/BoundAST/BoundUnaryOperator.cs:51 | `~` binds for an int literal type (after widening) and not for float |
| UnaryOperators.BindNumeric | Heir/BoundAST/BoundUnaryOperator.cs:47 | `-` binds for int and float (members of `number`) and not for bool |
| TypeChecker.CheckExpr | Heir/TypeChecker.cs:15-47 | Checking an expression only appends H007 entries |
| TypeChecker.CheckStatements | Heir/TypeChecker.cs:59-63 | Checking statements only appends H007 entries |
| TypeChecker.Check | Heir/TypeChecker.cs:11-13 | Checking a tree only appends H007 entries |
| TypeChecker.CheckExprIsFailures | Heir/TypeChecker.cs:15-47 | The bag after checking an expression is the bag before plus one H007 per failed obligation, in the order children-then-node |
| TypeChecker.CheckStmtIsFailures | Heir/TypeChecker.cs:31-57 | The same for a statement; a declaration's initializer must be assignable to the symbol type |
| TypeChecker.CheckStatementsIsFailures | Heir/TypeChecker.cs:59-63 | The same for a statement list, statements in order |
| TypeChecker.CheckCountsFailures | Heir/TypeChecker.cs:11-81 | A tree whose obligations all hold gets no diagnostic; the number of H007 added is the number of failed obligations |
| TypeChecker.AssignmentIgnoresLeft | Heir/TypeChecker.cs:15-20 | The left side of an assignment is never checked |
| TypeChecker.BinaryOrder | Heir/TypeChecker.cs:22-29 | A binary node's diagnostics: the children's first, then at most one for the left operand, then at most one for the right |
| TypeChecker.DeclarationWithoutInitializer | Heir/TypeChecker.cs:51 | A declaration without initializer adds nothing |
| TypeChecker.DeclarationExamples | Heir/TypeChecker.cs:49-57 | An int initializer for a bool variable gets one H007; a `number` one for an int variable gets none |
| TokenFactory.StringFromIdentifier | Heir/Syntax/TokenFactory.cs:11-12 | Quoting an identifier gives a string literal whose value is the identifier's text, at the same location |
| TokenFactory.IntLiteralRoundTrip | Heir/Syntax/TokenFactory.cs:26-27 | Printing any non-negative long in a supported radix (behind a prefix outside radix 10) and reading it back gives the number |
| TokenFactory.PrefixedDigitsDefined | Heir/Syntax/TokenFactory.cs:26-27 | Such printed text is accepted by `Convert.ToInt64` and its magnitude is the number |
| TokenFactory.MagnitudeOfDigits | Heir/Syntax/TokenFactory.cs:26-27 | Reading back the digits of `n` in a radix gives `n` |
| TokenFactory.StringLiteralRoundTrip | Heir/Syntax/TokenFactory.cs:20-21 | Quoting any string and reading it back gives the string |
| TokenFactory.CharLiteralRoundTrip | Heir/Syntax/TokenFactory.cs:23-24 | Quoting any character of the Basic Multilingual Plane (one UTF-16 code unit) and reading it back gives the character |
| TokenFactory.BinaryLiteralValue | Heir.Tests/LexerTest.cs:24 | `0b1101` reads as 13 |
| TokenFactory.OctalLiteralValue | Heir.Tests/LexerTest.cs:25 | `0o420` reads as 272 |
| TokenFactory.HexLiteralValue | Heir.Tests/LexerTest.cs:26 | `0x03E` reads as 62 |
| TokenFactory.DecimalLiteralValue | Heir.Tests/LexerTest.cs:22 | `123` reads as 123 |
| TokenFactory.LexerTestValues | Heir.Tests/LexerTest.cs:20-30 | `true`, `false`, `"abc"` and `'a'` read as their values |
| Parser.Parse | Heir/Parser.cs:11 | A parse moves forward over the tokens, never past the end, and only adds H005, or the code the assumed `Consume` reports for a missing `)` |
| Parser.ParseLevel | Heir/Parser.cs:15-117 | Every level consumes at least one token when one is left |
| Parser.ParseUnary | Heir/Parser.cs:119-133 | The same for `ParseUnary` |
| Parser.ParsePrimary | Heir/Parser.cs:135-162 | The same for `ParsePrimary`, which always consumes its token |
| ParserProperties.TwoAtoms | Heir/Parser.cs:15-117 | `a o b` is one binary node over two atoms |
| ParserProperties.ThreeAtoms | Heir/Parser.cs:15-117 | `a o1 b o2 c` groups to the right when `o2` is tighter and to the left otherwise |
| ParserProperties.RightGrouping | Heir/Parser.cs:15-117 | A tighter second operator takes the middle atom |
| ParserProperties.LeftGroupingSame | Heir/Parser.cs:15-117 | Operators of the same level associate to the left |
| ParserProperties.LeftGroupingLooser | Heir/Parser.cs:15-117 | A looser second operator takes the whole first binary node |
| ParserProperties.Lift | Heir/Parser.cs:15-117 | A parse at a tighter level is the parse at a looser level when no level in between matches the next token |
| ParserProperties.PrefixChain | Heir/Parser.cs:119-133 | A run of prefix operators before an atom nests to the right, the first operator outermost |
| ParserProperties.PrefixExpression | Heir/Parser.cs:119-133 | A stream of prefix operators and one atom parses to that nesting |
| ParserProperties.PrefixBindsTighter | Heir/Parser.cs:106-133 | `-a ^ b` is `(-a) ^ b` |
| ParserProperties.UnexpectedToken | Heir/Parser.cs:160-161 | A token that starts no primary is consumed and yields NoOp and one H005 |
| ParserProperties.EmptyStream | Heir/Parser.cs:135-162 | An empty stream parses to NoOp with one H005 |
| ParserProperties.Parentheses | Heir/Parser.cs:151-157 | `( e )` is `Parenthesized(e)` and consumes the `)`; for a missing `)`, under the assumed `Consume` (see Left out), one Expected is added and nothing more is consumed |
| ParserProperties.ParenthesizedAtom | Heir/Parser.cs:151-157 | `(a)` parses to a parenthesized atom |
| ParserProperties.ParseIsLocal | Heir/Parser.cs:11-162 | The parse depends only on the tokens it consumed, plus the one after when it stops before the end |
| Generator.Gen | Heir/BytecodeGenerator.cs:34-77 | Every expression gives at least one instruction; only H011 is added |
| Generator.UnaryCode | Heir/BytecodeGenerator.cs:58-73 | The operand's code comes first; straight-line operand code stays straight-line |
| Generator.GenTree | Heir/BytecodeGenerator.cs:18-21 | Generation of a tree only adds H011 |
| GeneratorProperties.TreeEndsWithExit | Heir/BytecodeGenerator.cs:18-21 | A tree's code is its statements' code followed by exactly one EXIT, which is the last instruction and the only EXIT |
| GeneratorProperties.GenIsStraight | Heir/BytecodeGenerator.cs:24-81 | Expression code holds no jump, scope marker, EXIT or RETURN |
| GeneratorProperties.GenStatementsIsStraight | Heir/BytecodeGenerator.cs:24-81 | The same for statement lists |
| GeneratorProperties.StatementsAppend | Heir/BytecodeGenerator.cs:81 | The code of `a + b` is the code of `a` followed by that of `b`, generated with the bag `a` left |
| GeneratorProperties.LiteralCode | Heir/BytecodeGenerator.cs:77 | A literal is one PUSH of its value, or one PUSHNONE when the value is none |
| GeneratorProperties.SimpleNodes | Heir/BytecodeGenerator.cs:25-79 | Parentheses are transparent, an identifier is one LOAD of its name, a declaration emits nothing, each no-op node one NOOP |
| GeneratorProperties.BlockIsItsStatements | Heir/BytecodeGenerator.cs:24 | A block is its statements' code, with no scope markers |
| GeneratorProperties.BinaryPostfix | Heir/BytecodeGenerator.cs:41-52 | A bound, mapped operator compiles in postfix order, with a STORE after a compound assignment |
| GeneratorProperties.BinaryFailures | Heir/BytecodeGenerator.cs:37-55 | No bound node: one NOOP and no diagnostic, children unvisited; no opcode: one NOOP and H011 after the children's diagnostics |
| GeneratorProperties.UnaryCodes | Heir/BytecodeGenerator.cs:58-73 | `!`, `~`, `-` append NOT, BNOT, UNM; `++`/`--` emit the operand twice, PUSH 1, ADD or SUB, STORE |
| GeneratorProperties.H011PerUnmapped | Heir/BytecodeGenerator.cs:35-56 | Generation adds exactly one H011 per visited operator that is bound but has no opcode, and nothing else |
| Interpreter.Start | Heir/VirtualMachine.cs:26-33 | A new machine is well formed (an active scope, and an enclosing scope that is the active one or the one just outside it), at instruction 0 with an empty stack, over the given scope chain |
| Interpreter.Binary | Heir/VirtualMachine.cs:169-338 | Each binary opcode pushes a value of its result kind; EQ compares without coercion; CONCAT joins the host texts |
| Interpreter.Unary | Heir/VirtualMachine.cs:279-357 | UNM gives a double, NOT a bool, BNOT a long |
| Interpreter.BeginScope | Heir/VirtualMachine.cs:68-72 | A new empty innermost scope; the previously active one becomes the enclosing scope |
| Interpreter.EndScope | Heir/VirtualMachine.cs:73-77 | The active scope becomes the enclosing one |
| Interpreter.Step | Heir/VirtualMachine.cs:56-407 | Each step keeps the code, keeps the machine valid and only appends diagnostics; a pointer outside the code is stuck |
| Interpreter.EvalPairs | Heir/VirtualMachine.cs:86-99 | Evaluating object pairs gives one entry per pair and only extends the shared diagnostics |
| Interpreter.PushObject | Heir/VirtualMachine.cs:88-103 | Once the pairs are evaluated, the machine continues or is stuck, a later state of the same program |
| Interpreter.Finish | Heir/VirtualMachine.cs:53 | The loop's result is the popped top of the stack, or none on an empty stack |
| Interpreter.Run | Heir/VirtualMachine.cs:40-54 | A run that does not run out of fuel ends in a later state of the same program |
| InterpreterProperties.RunMonotone | Heir/VirtualMachine.cs:40-54 | More fuel does not change the outcome of a run that finished |
| InterpreterProperties.EvalPairsMonotone | Heir/VirtualMachine.cs:86-99 | The same for object pairs |
| InterpreterProperties.RunThroughSteps | Heir/VirtualMachine.cs:40-54 | A run through `k` continuing steps ends as the run from the machine they reach |
| InterpreterProperties.PointerAdvances | Heir/VirtualMachine.cs:62-423 | Every instruction other than a jump, a stop or PUSHOBJECT continues at the next instruction or is stuck |
| InterpreterProperties.Stops | Heir/VirtualMachine.cs:60-403 | EXIT halts where it is; an opcode with no case halts after adding H001D; RETURN pops and returns the top |
| InterpreterProperties.RunStops | Heir/VirtualMachine.cs:40-54 | A run reaching EXIT or an opcode with no case returns the top of the stack; at RETURN it returns the popped value |
| InterpreterProperties.RunAtEnd | Heir/VirtualMachine.cs:43-53 | Past the end of the code the run returns the popped top, or none |
| InterpreterProperties.PushEffect | Heir/VirtualMachine.cs:79-83 | PUSH and PUSHNONE push their operand |
| InterpreterProperties.StackEffects | Heir/VirtualMachine.cs:106-127 | POP drops the top, DUP copies it, SWAP exchanges the top two; each is stuck on too short a stack |
| InterpreterProperties.SwapTwice | Heir/VirtualMachine.cs:112-120 | Two SWAPs restore the stack |
| InterpreterProperties.BinaryEffect | Heir/VirtualMachine.cs:169-338 | A binary opcode pops the right operand, then the left, and pushes the result; stuck when a conversion throws or the stack is short |
| InterpreterProperties.EqualityEffect | Heir/VirtualMachine.cs:309-318 | EQ pushes raw equality: an int and a long of the same number differ; objects compare by identity |
| InterpreterProperties.ShortCircuit | Heir/VirtualMachine.cs:289-298 | `&&` with a false left operand does not convert the right one |
| InterpreterProperties.ShortCircuitOr | Heir/VirtualMachine.cs:299-308 | `\|\|` with a true left operand does not convert the right one |
| InterpreterProperties.UnaryEffect | Heir/VirtualMachine.cs:279-357 | A unary opcode replaces the top by its result |
| InterpreterProperties.EqualityOnTop | Heir/VirtualMachine.cs:309-318 | EQ pops the two values on top of any stack and pushes their raw comparison, leaving the rest of the stack as it was |
| InterpreterProperties.EqualityWithoutCoercion | Heir/VirtualMachine.cs:309-318 | For every number: EQ on an `int` and a `long` of that value pushes false, and so does EQ on a `long` and any `bool`; two PUSHOBJECT operands with the same pairs but different identities compare false; the two double zeros compare true |
| InterpreterProperties.NegateTwice | Heir/VirtualMachine.cs:279-287 | With a host whose `Convert.ToDouble` returns a double unchanged, one UNM pushes the sign-flipped double and a second UNM restores the original machine one instruction further on |
| InterpreterProperties.LoadEffect | Heir/VirtualMachine.cs:129-144 | LOAD pops a name and pushes its binding (none when unbound); a non-string is reported as HDEV and nothing is pushed |
| InterpreterProperties.StoreEffect | Heir/VirtualMachine.cs:145-167 | STORE pops value and name, assigns a declared name or defines it innermost, and pushes the value back unless its operand is false; a non-string name is reported as HDEV |
| InterpreterProperties.JumpEffect | Heir/VirtualMachine.cs:359-412 | JMP goes to an int operand, or adds H001C and stays; JNZ/JZ pop the condition and jump only on a non-zero (zero) int, otherwise fall through |
| InterpreterProperties.JumpSpins | Heir/VirtualMachine.cs:359-412 | A JMP with a non-int operand never ends: it re-executes itself forever |
| InterpreterProperties.ScopeEffects | Heir/VirtualMachine.cs:62-77 | BEGINSCOPE and ENDSCOPE open and close a scope and move on; NOOP only moves on |
| InterpreterProperties.BeginEndRestores | Heir/VirtualMachine.cs:68-77 | ENDSCOPE after BEGINSCOPE gives the scope chain back, and the enclosing scope exactly when the machine was nested |
| InterpreterProperties.NestedKept | Heir/VirtualMachine.cs:68-77 | BEGINSCOPE keeps the nesting shape; ENDSCOPE does whenever there is an outer scope |
| InterpreterProperties.BlockEnds | Heir/VirtualMachine.cs:73-77 | Whatever happens inside a block, ENDSCOPE returns to the outer chain and its enclosing scope |
| InterpreterProperties.BlockDefinitionInvisible | Heir/VirtualMachine.cs:156-160 | A name first stored inside a block reads back there, and reads as none once the block's scope is gone |
| InterpreterProperties.PushObjectEffect | Heir/VirtualMachine.cs:84-87 | PUSHOBJECT hands its pair code to the run loop; a non-object operand fails the cast |
| InterpreterProperties.RunConstant | Heir/VirtualMachine.cs:93-96 | A nested machine over a single PUSH evaluates to the constant |
| InterpreterProperties.EvalConstantPairs | Heir/VirtualMachine.cs:86-99 | Constant pairs evaluate to their constants in order, with no diagnostic |
| InterpreterProperties.ObjectOfConstants | Heir/VirtualMachine.cs:84-104 | With non-none, pairwise distinct keys a new object with the entries in order and a fresh identity is pushed; otherwise the dictionary throws and the run crashes |
| InterpreterProperties.ExecImplements | Heir/VirtualMachine.cs:60-357 | The interpreter's step function follows the reference semantics of the stack instructions on every machine, for every host |
| EndToEnd.GenStack | Heir/BytecodeGenerator.cs:58-77 | The code of a pure expression is stack code that pushes the expression's direct value on any stack, or fails exactly when the direct evaluation fails |
| EndToEnd.CodeSteps | Heir/VirtualMachine.cs:40-54 | Stack code at the pointer takes one step per instruction, with the stack the reference semantics gives |
| EndToEnd.ProgramCode | Heir/BytecodeGenerator.cs:18-27 | One expression statement compiles to the expression's code and EXIT |
| EndToEnd.ProgramValue | Heir/BytecodeGenerator.cs:18-77 | A program of one pure expression evaluates to the expression's direct value, with no diagnostic |
| EndToEnd.EqualityProgram | Heir/VirtualMachine.cs:309-318 | `x == y` over two integer literals evaluates to whether the values are equal, whatever the host |
| EndToEnd.EqualityPrograms | Heir/VirtualMachine.cs:309-318 | `1 == 1` evaluates to true and `1 == 2` to false |
| EndToEnd.IdentifierProgramCrashes | Heir/BytecodeGenerator.cs:75 | A bare identifier compiles to LOAD with the name as operand, and its run crashes on the empty stack |
| Interfaces.IndexTypeCoversKeys | Heir/Types/InterfaceType.cs:16-18 | One key is the index type itself; otherwise it is the union of all keys, and every key is assignable to it |
| Interfaces.RenderLayout | Heir/Types/InterfaceType.cs:20-54 | The display is the header and `{`, one line per index signature then per member, and the closing `}`, joined by newlines |
| Interfaces.SignatureLineShape | Heir/Types/InterfaceType.cs:27-36 | Each index-signature line is padded to the entry indent, shows the key type in brackets (doubled when `colors` is set), and ends in `;` |
| Interfaces.SignatureLineNested | Heir/Types/InterfaceType.cs:34-35 | An interface-typed index-signature value is rendered at the entry indent plus one, and the line ends with that rendering and `;` |
| Interfaces.MemberLineShape | Heir/Types/InterfaceType.cs:38-47 | Each member line is padded to the entry indent, puts `mut ` before the key exactly for a mutable member, and ends in `;` |
| Interfaces.MemberLineValue | Heir/Types/InterfaceType.cs:44-46 | After `: ` a member line shows an interface value rendered at the entry indent plus one, and any other value type as the host renders it, then `;` |
| Interfaces.RenderAsWritten | Heir/Types/InterfaceType.cs:20-54 | As written, the display is defined exactly when no pad count is negative |
| Interfaces.EmptyInterfaceThrows | Heir/Types/InterfaceType.cs:24-51 | As written, an empty interface at indent 0 throws |
| Interfaces.AsWrittenDefinedness | Heir/Types/InterfaceType.cs:24-52 | As written, a non-empty interface renders from indent 0 and closes at that indent; an empty one renders only from indent 1 and closes one level further out |
| Interfaces.CorrectedClosesAtIndent | Heir/Types/InterfaceType.cs:49-52 | Corrected, the display starts with the header and closes at the given indent; an empty interface is a brace pair on two lines |
| ObjectValueText.ToTextLayout | Heir/Runtime/ObjectValue.cs:7-34 | An empty object is `{}`; otherwise the entries in order, separated by `,` and a newline, between `{` and `}` on lines of their own |
| ObjectValueText.EntryLine | Heir/Runtime/ObjectValue.cs:16-25 | Each entry is padded two spaces per level, shows its key in brackets, shows none for null and a nested object one level deeper |
| ObjectValueText.SingleEntryExample | Heir/Runtime/ObjectValue.cs:7-34 | A one-entry object with a null value renders as `{`, `  [a]: none`, `}` |
| Scopes.LookupAssign | Heir/VirtualMachine.cs:157-158 | Assigning a declared name makes it read back the assigned value |
| Scopes.LookupAssignOther | Heir/VirtualMachine.cs:157-158 | Assigning one name leaves every other name's value unchanged |
| Scopes.LookupDefine | Heir/VirtualMachine.cs:159-160 | Defining a name in the innermost scope makes it read back the value; other names read as before |
| Scopes.LookupStore | Heir/VirtualMachine.cs:156-160 | After a store the name is declared and reads back the stored value; other names read as before |
| Scopes.StoreKeys | Heir/VirtualMachine.cs:156-160 | Storing a declared name keeps every scope's names; an undeclared one is added to the innermost scope only |
| Values.RawEqualsProperties | Heir/VirtualMachine.cs:313-315 | Raw equality never equates values of different runtime types, and is reflexive and symmetric |
| Values.ObjectsCompareByIdentity | Heir/VirtualMachine.cs:313-315 | Two objects, or two PUSHOBJECT operands (a `Dictionary` of instruction lists, VirtualMachine.cs:87), compare equal exactly when they are the same reference, whatever their contents |
| Numerics.DoubleEqualsIsEquivalence | Heir/VirtualMachine.cs:313-315 | `double.Equals` is reflexive, symmetric and transitive on bit patterns |

## Left out

- I/O, the command-line driver, intrinsic functions, and the colored display of types are left out.
- `Scope`, `TokenStream`, `DiagnosticBag`, `Binder`, `SyntaxFacts`, `BoundBinaryOperator` and `LiteralType` are not part of this model. The model uses their contracts:
  - a scope chain with lookup, assign and define;
  - a token sequence whose end yields an end-of-file token;
  - a code sequence;
  - a binder given as a function from binary nodes to their bound opcode;
  - a compound-assignment test.
- Diagnostics keep only their codes. Messages, severities and source locations are dropped, and so are the syntax nodes instructions carry.
- `AppendLine` is modelled as a single `\n`.
- The .NET conversions (`Convert.ToDouble`, `ToInt64`, `ToBoolean`, `ToString`), double arithmetic, comparison and `Math.Floor` are host parameters. The model does not compute them.
- Interpreter.Run: runs are bounded by fuel. A run that would not end yields `OutOfFuel` rather than diverging.
- Interpreter.Step: exceptions are not distinguished. Every throwing path becomes `Stuck` and a crashed run.
- EndToEnd.ProgramValue: covers pure expressions only. Identifiers, assignments and increments involve LOAD and STORE, whose generated code does not run as written.
- Types.AssignableCharacterized: literal types compare their values by value equality. The declared type of `LiteralType.Value` is not part of this model. The model also assumes that `LiteralType` is not a `SingularType`, so a literal type never matches a singular type by name (BaseType.cs:19-20). `LiteralType.cs` is not part of this model; if it derives from `SingularType`, that pair would compare names.
- Parser.Consume: `TokenStream` is not part of this model, and its behaviour on a mismatch is assumed. The model assumes that `Consume(RParen)` on another token reports one diagnostic, named `Expected` here, and does not advance. Parser.Parse and ParserProperties.Parentheses rely on this assumption for a missing `)`.
- ObjectValueText.ToText: requires an indent of at least -1 when there are entries, since a negative pad count throws in the host.
- TokenFactory.CharLiteral: requires text of exactly three characters, the middle one in the Basic Multilingual Plane. Longer text makes `Convert.ToChar` throw. A character outside that plane is two UTF-16 code units in .NET, so `Convert.ToChar` throws on it too.
- Characters and strings are sequences of Unicode scalar values, not of UTF-16 code units. A lone surrogate, which a .NET `char` can hold, cannot be represented.
- TokenFactory.StringLiteral: requires text of at least two characters. Shorter text makes `Substring` throw.
- TokenFactory.IntLiteral: requires input `Convert.ToInt64` accepts: a supported radix, valid digits, and a value in range. The lexer that produces the text is not part of this model. Two further inputs that `Convert.ToInt64` accepts are not modelled. One is a leading sign: a `+` in every radix, and a `-` in radix 10. The other is, in radix 16, a second `0x` or `0X` prefix after the stripped one, so "0x0x1F" reads as 31.
- The intrinsic `number` type (`Types.Number`) is taken to be the union of `int` and `float`. `IntrinsicTypes.cs`, which defines it, is not part of this model.
- Interface members, index signatures and object entries are rendered in sequence order (Interfaces.RenderLayout, ObjectValueText.ToTextLayout). In the host they are `Dictionary` entries, whose enumeration order is insertion order only while no entry has been removed. That is an implementation behaviour of .NET, not a documented guarantee.
- `TokenFactory` `FloatLiteral` and `Trivia` are left out. Parsing decimal text into a double is host floating point, and trivia tokens are dropped before parsing.

## Findings

| source | as written | input that shows it | evidently intended | confidence | as-written member | corrected member |
|---|---|---|---|---|---|---|
| Heir/Types/InterfaceType.cs:24-51 | The indent is incremented only for a non-empty interface but always decremented before the closing brace | An interface with no members and no index signatures at the default indent 0: the pad count becomes -1 and `Enumerable.Repeat` throws | Undo only the increment, as `ObjectValue.ToString` does, so the closing brace is at the indent the call came in with | medium, not executed | Interfaces.RenderAsWritten, Interfaces.EmptyInterfaceThrows | Interfaces.RenderCorrected, Interfaces.CorrectedClosesAtIndent |
