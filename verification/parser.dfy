/** `Parser`: precedence-climbing recursive descent over a token sequence.

    The eight binary levels, loosest first, are one function `ParseLevel(l)`:
    0 `ParseLogicalOr`, 1 `ParseLogicalAnd`, 2 `ParseBitwiseXor`,
    3 `ParseBitwiseOr`, 4 `ParseBitwiseAnd`, 5 `ParseAddition`,
    6 `ParseMultiplication`, 7 `ParseExponentiation`; level 8 is `ParseUnary`. */
module Parser {
  import opened Wrappers
  import opened Values
  import opened Syntax
  import opened Diagnostics
  import opened Ast

  const UnaryLevel := 8

  /** The binary level whose loop matches the kind, if any. */
  function Level(k: SyntaxKind): (r: Option<nat>)
    ensures r.Some? ==> r.value < UnaryLevel
  {
    match k
    case PipePipe => Some(0)
    case AmpersandAmpersand => Some(1)
    case Tilde => Some(2)
    case Pipe => Some(3)
    case Ampersand => Some(4)
    case Plus => Some(5)
    case Minus => Some(5)
    case Star => Some(6)
    case Slash => Some(6)
    case Percent => Some(6)
    case Carat => Some(7)
    case _ => None
  }

  /** The prefix operators `ParseUnary` matches. */
  predicate IsPrefix(k: SyntaxKind)
  {
    match k
    case Bang => true
    case Tilde => true
    case PlusPlus => true
    case MinusMinus => true
    case Minus => true
    case _ => false
  }

  /** The kinds `ParsePrimary` turns into a `Literal`. */
  predicate IsLiteralKind(k: SyntaxKind)
  {
    match k
    case BoolLiteral => true
    case CharLiteral => true
    case StringLiteral => true
    case IntLiteral => true
    case FloatLiteral => true
    case NoneKeyword => true
    case _ => false
  }

  /** What the stream yields once it is exhausted. */
  const EndOfFile := Token(EOF, "", Null, Location(0, 0), Location(0, 0))

  /** The current token; past the end, the end-of-file token. */
  function Current(toks: seq<Token>, pos: nat): Token
  {
    if pos < |toks| then toks[pos] else EndOfFile
  }

  /** The position after `Advance`: one on, but never past the end. */
  function Next(toks: seq<Token>, pos: nat): (p: nat)
    requires pos <= |toks|
    ensures p <= |toks|
  {
    if pos < |toks| then pos + 1 else pos
  }

  /** A parse result: the expression, the position after it, the bag. */
  datatype Parsed = Parsed(expr: Expr, pos: nat, bag: seq<Code>)

  /** Entries the parser may add to the bag. */
  predicate ParserCodes(before: seq<Code>, after: seq<Code>)
  {
    Extends(before, after) && forall i :: |before| <= i < |after| ==> after[i] == H005 || after[i] == Expected
  }

  /** The result is a well-formed continuation of a parse started at `pos`:
      the position never moves back, stays within the stream, moves forward
      whenever a token is left, and the bag only grows by parser codes. */
  predicate Advanced(toks: seq<Token>, pos: nat, bag: seq<Code>, r: Parsed)
  {
    pos <= r.pos <= |toks| && (pos < |toks| ==> pos < r.pos) && ParserCodes(bag, r.bag)
  }

  /** `Parse()`: one expression, loosest level first. */
  function Parse(toks: seq<Token>): (r: Parsed)
    ensures Advanced(toks, 0, [], r)
  {
    ParseLevel(toks, 0, 0, [])
  }

  /** Binary level `l` (below 8), or `ParseUnary` at level 8: the tighter
      operand, then the level's loop. */
  function ParseLevel(toks: seq<Token>, l: nat, pos: nat, bag: seq<Code>): (r: Parsed)
    requires l <= UnaryLevel && pos <= |toks|
    ensures Advanced(toks, pos, bag, r)
    decreases |toks| - pos, 2 * (UnaryLevel - l) + 2
  {
    if l == UnaryLevel then ParseUnary(toks, pos, bag)
    else
      var left := ParseLevel(toks, l + 1, pos, bag);
      Loop(toks, l, left.expr, left.pos, left.bag)
  }

  /** The `while (Tokens.Match(...))` loop of binary level `l`: each matched
      operator takes the next tighter operand and folds to the left. */
  function Loop(toks: seq<Token>, l: nat, left: Expr, pos: nat, bag: seq<Code>): (r: Parsed)
    requires l < UnaryLevel && pos <= |toks|
    ensures pos <= r.pos <= |toks| && ParserCodes(bag, r.bag)
    decreases |toks| - pos, 2 * (UnaryLevel - l) + 1
  {
    var op := Current(toks, pos);
    if Level(op.kind) == Some(l) then
      var right := ParseLevel(toks, l + 1, pos + 1, bag);
      Loop(toks, l, BinaryOp(left, op, right.expr), right.pos, right.bag)
    else Parsed(left, pos, bag)
  }

  /** `ParseUnary`: prefix operators nest to the right. */
  function ParseUnary(toks: seq<Token>, pos: nat, bag: seq<Code>): (r: Parsed)
    requires pos <= |toks|
    ensures Advanced(toks, pos, bag, r)
    decreases |toks| - pos, 1
  {
    var op := Current(toks, pos);
    if IsPrefix(op.kind) then
      var operand := ParseUnary(toks, pos + 1, bag);
      Parsed(UnaryOp(operand.expr, op), operand.pos, operand.bag)
    else ParsePrimary(toks, pos, bag)
  }

  /** `ParsePrimary`: the token is always consumed; anything that does not
      start a primary yields `NoOp` and an H005. */
  function ParsePrimary(toks: seq<Token>, pos: nat, bag: seq<Code>): (r: Parsed)
    requires pos <= |toks|
    ensures Advanced(toks, pos, bag, r)
    decreases |toks| - pos, 0
  {
    var token := Current(toks, pos);
    var after := Next(toks, pos);
    if IsLiteralKind(token.kind) then Parsed(Literal(token), after, bag)
    else if token.kind == Identifier then Parsed(IdentifierName(token), after, bag)
    else if token.kind == LParen then
      var inner := ParseLevel(toks, 0, after, bag);
      var closed := Consume(toks, RParen, inner.pos, inner.bag);
      Parsed(Parenthesized(inner.expr), closed.0, closed.1)
    else Parsed(NoOp, after, bag + [H005])
  }

  /** `Tokens.Consume(kind)`. The token stream is not part of this model: on a
      match this is an `Advance`, and on a mismatch the model assumes one
      `Expected` diagnostic and no move. */
  function Consume(toks: seq<Token>, kind: SyntaxKind, pos: nat, bag: seq<Code>): (r: (nat, seq<Code>))
    requires pos <= |toks|
    ensures Current(toks, pos).kind == kind ==> r == (Next(toks, pos), bag)
    ensures Current(toks, pos).kind != kind ==> r == (pos, bag + [Expected])
  {
    if Current(toks, pos).kind == kind then (Next(toks, pos), bag)
    else (pos, bag + [Expected])
  }
}
