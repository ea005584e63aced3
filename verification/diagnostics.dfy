/** The shared diagnostics bag. Every stage only ever appends to it, so it is
    modelled as the sequence of the codes reported so far; message, severity and
    source location are not modelled. */
module Diagnostics {

  datatype Code =
    | HDEV     // VM: LOAD/STORE found no variable name on the stack
    | H001C    // VM: jump with a non-integer operand
    | H001D    // VM: unhandled opcode
    | H005     // parser: unexpected token in primary position
    | H007     // type checker: type not assignable
    | H011     // generator: unsupported binary operator
    | Expected // token stream (assumed): Consume found another kind than the one required

  /** `later` is `earlier` with zero or more codes appended. */
  predicate Extends(earlier: seq<Code>, later: seq<Code>)
  {
    earlier <= later
  }

  /** How many entries of `bag` carry the given code: none exactly when the
      code does not occur, all of them exactly when every entry is that code. */
  function CountOf(bag: seq<Code>, c: Code): (n: nat)
    ensures n <= |bag|
    ensures n == 0 <==> c !in bag
    ensures n == |bag| <==> forall i :: 0 <= i < |bag| ==> bag[i] == c
  {
    if bag == [] then 0
    else
      assert bag == bag[..|bag| - 1] + [bag[|bag| - 1]];
      CountOf(bag[..|bag| - 1], c) + (if bag[|bag| - 1] == c then 1 else 0)
  }

  lemma {:induction false} CountOfAppend(a: seq<Code>, b: seq<Code>, c: Code)
    ensures CountOf(a + b, c) == CountOf(a, c) + CountOf(b, c)
    decreases |b|
  {
    if b == [] {
      assert a + b == a;
    } else {
      assert (a + b)[..|a + b| - 1] == a + b[..|b| - 1];
      CountOfAppend(a, b[..|b| - 1], c);
    }
  }
}
