/** Precedence, associativity, prefix nesting, error recovery and locality of
    the expression parser. */
module ParserProperties {
  import opened Wrappers
  import opened Syntax
  import opened Diagnostics
  import opened Ast
  import opened Parser

  /** A token that is a whole primary by itself. */
  predicate IsAtom(t: Token)
  {
    IsLiteralKind(t.kind) || t.kind == Identifier
  }

  function Atom(t: Token): Expr
  {
    if IsLiteralKind(t.kind) then Literal(t) else IdentifierName(t)
  }

  /** No binary level from `l` up to (not including) `k` matches the kind. */
  predicate NoLevelIn(kind: SyntaxKind, l: nat, k: nat)
  {
    Level(kind).None? || !(l <= Level(kind).value < k)
  }

  /** A parse at a tighter level is also the parse at a looser level when the
      token it stops at belongs to none of the levels in between. */
  lemma {:induction false} Lift(toks: seq<Token>, l: nat, k: nat, pos: nat, bag: seq<Code>)
    requires l <= k <= UnaryLevel && pos <= |toks|
    requires NoLevelIn(Current(toks, ParseLevel(toks, k, pos, bag).pos).kind, l, k)
    ensures ParseLevel(toks, l, pos, bag) == ParseLevel(toks, k, pos, bag)
    decreases k - l
  {
    if l < k {
      Lift(toks, l + 1, k, pos, bag);
    }
  }

  /** One iteration of a level's loop. */
  lemma LoopMatch(toks: seq<Token>, l: nat, left: Expr, pos: nat, bag: seq<Code>, right: Parsed)
    requires l < UnaryLevel && pos < |toks| && Level(toks[pos].kind) == Some(l)
    requires right == ParseLevel(toks, l + 1, pos + 1, bag)
    ensures Loop(toks, l, left, pos, bag) == Loop(toks, l, BinaryOp(left, toks[pos], right.expr), right.pos, right.bag)
  {
  }

  /** A level's loop stops at a token of another level. */
  lemma LoopStop(toks: seq<Token>, l: nat, left: Expr, pos: nat, bag: seq<Code>)
    requires l < UnaryLevel && pos <= |toks| && Level(Current(toks, pos).kind) != Some(l)
    ensures Loop(toks, l, left, pos, bag) == Parsed(left, pos, bag)
  {
  }

  /** A level is its tighter operand followed by its loop. */
  lemma LevelUnfold(toks: seq<Token>, l: nat, pos: nat, bag: seq<Code>, left: Parsed)
    requires l < UnaryLevel && pos <= |toks| && left == ParseLevel(toks, l + 1, pos, bag)
    ensures ParseLevel(toks, l, pos, bag) == Loop(toks, l, left.expr, left.pos, left.bag)
  {
  }

  /** An atom is a whole unary expression. */
  lemma UnaryAtom(toks: seq<Token>, pos: nat, bag: seq<Code>)
    requires pos < |toks| && IsAtom(toks[pos])
    ensures ParseLevel(toks, UnaryLevel, pos, bag) == Parsed(Atom(toks[pos]), pos + 1, bag)
  {
    assert Current(toks, pos) == toks[pos];
    assert !IsPrefix(toks[pos].kind);
    assert ParsePrimary(toks, pos, bag) == Parsed(Atom(toks[pos]), pos + 1, bag);
  }

  /** An atom followed by a token of no level from `l` on parses, at level
      `l`, as just that atom. */
  lemma AtomAt(toks: seq<Token>, l: nat, pos: nat, bag: seq<Code>)
    requires l <= UnaryLevel && pos < |toks| && IsAtom(toks[pos])
    requires NoLevelIn(Current(toks, pos + 1).kind, l, UnaryLevel)
    ensures ParseLevel(toks, l, pos, bag) == Parsed(Atom(toks[pos]), pos + 1, bag)
  {
    UnaryAtom(toks, pos, bag);
    Lift(toks, l, UnaryLevel, pos, bag);
  }

  /** The loop of level `l` at an operator of that level, whose right operand
      is an atom followed by a token of no level from `l` on. */
  lemma LoopOverAtom(toks: seq<Token>, l: nat, left: Expr, pos: nat, bag: seq<Code>)
    requires l < UnaryLevel && pos + 1 < |toks| && Level(toks[pos].kind) == Some(l) && IsAtom(toks[pos + 1])
    requires NoLevelIn(Current(toks, pos + 2).kind, l, UnaryLevel)
    ensures Loop(toks, l, left, pos, bag) == Parsed(BinaryOp(left, toks[pos], Atom(toks[pos + 1])), pos + 2, bag)
  {
    AtomAt(toks, l + 1, pos + 1, bag);
    LoopMatch(toks, l, left, pos, bag, ParseLevel(toks, l + 1, pos + 1, bag));
    LoopStop(toks, l, BinaryOp(left, toks[pos], Atom(toks[pos + 1])), pos + 2, bag);
  }

  /** `a o b`: one binary op. */
  lemma TwoAtoms(toks: seq<Token>)
    requires |toks| == 3 && IsAtom(toks[0]) && IsAtom(toks[2]) && Level(toks[1].kind).Some?
    ensures Parse(toks) == Parsed(BinaryOp(Atom(toks[0]), toks[1], Atom(toks[2])), 3, [])
  {
    var l := Level(toks[1].kind).value;
    AtomAt(toks, l + 1, 0, []);
    LevelUnfold(toks, l, 0, [], Parsed(Atom(toks[0]), 1, []));
    LoopOverAtom(toks, l, Atom(toks[0]), 1, []);
    Lift(toks, 0, l, 0, []);
  }

  /** `a o1 b o2 c`: a tighter second operator groups to the right; an equal
      or looser one groups to the left, so every level is left-associative. */
  lemma ThreeAtoms(toks: seq<Token>)
    requires |toks| == 5 && IsAtom(toks[0]) && IsAtom(toks[2]) && IsAtom(toks[4])
    requires Level(toks[1].kind).Some? && Level(toks[3].kind).Some?
    ensures Level(toks[1].kind).value < Level(toks[3].kind).value ==>
      Parse(toks) == Parsed(BinaryOp(Atom(toks[0]), toks[1], BinaryOp(Atom(toks[2]), toks[3], Atom(toks[4]))), 5, [])
    ensures Level(toks[1].kind).value >= Level(toks[3].kind).value ==>
      Parse(toks) == Parsed(BinaryOp(BinaryOp(Atom(toks[0]), toks[1], Atom(toks[2])), toks[3], Atom(toks[4])), 5, [])
  {
    var l1 := Level(toks[1].kind).value;
    var l2 := Level(toks[3].kind).value;
    if l1 < l2 {
      RightGrouping(toks, l1, l2);
    } else if l1 == l2 {
      LeftGroupingSame(toks, l1);
    } else {
      LeftGroupingLooser(toks, l1, l2);
    }
  }

  lemma RightGrouping(toks: seq<Token>, l1: nat, l2: nat)
    requires |toks| == 5 && IsAtom(toks[0]) && IsAtom(toks[2]) && IsAtom(toks[4])
    requires Level(toks[1].kind) == Some(l1) && Level(toks[3].kind) == Some(l2) && l1 < l2
    ensures Parse(toks) == Parsed(BinaryOp(Atom(toks[0]), toks[1], BinaryOp(Atom(toks[2]), toks[3], Atom(toks[4]))), 5, [])
  {
    var bc := BinaryOp(Atom(toks[2]), toks[3], Atom(toks[4]));
    // the right operand of o1: `b o2 c` at level l2, lifted to l1 + 1
    AtomAt(toks, l2 + 1, 2, []);
    LevelUnfold(toks, l2, 2, [], Parsed(Atom(toks[2]), 3, []));
    LoopOverAtom(toks, l2, Atom(toks[2]), 3, []);
    Lift(toks, l1 + 1, l2, 2, []);
    // `a o1 (b o2 c)` at level l1, lifted to 0
    AtomAt(toks, l1 + 1, 0, []);
    LevelUnfold(toks, l1, 0, [], Parsed(Atom(toks[0]), 1, []));
    LoopMatch(toks, l1, Atom(toks[0]), 1, [], Parsed(bc, 5, []));
    LoopStop(toks, l1, BinaryOp(Atom(toks[0]), toks[1], bc), 5, []);
    Lift(toks, 0, l1, 0, []);
  }

  lemma LeftGroupingSame(toks: seq<Token>, l: nat)
    requires |toks| == 5 && IsAtom(toks[0]) && IsAtom(toks[2]) && IsAtom(toks[4])
    requires Level(toks[1].kind) == Some(l) && Level(toks[3].kind) == Some(l)
    ensures Parse(toks) == Parsed(BinaryOp(BinaryOp(Atom(toks[0]), toks[1], Atom(toks[2])), toks[3], Atom(toks[4])), 5, [])
  {
    var ab := BinaryOp(Atom(toks[0]), toks[1], Atom(toks[2]));
    AtomAt(toks, l + 1, 0, []);
    AtomAt(toks, l + 1, 2, []);
    LevelUnfold(toks, l, 0, [], Parsed(Atom(toks[0]), 1, []));
    LoopMatch(toks, l, Atom(toks[0]), 1, [], Parsed(Atom(toks[2]), 3, []));
    LoopOverAtom(toks, l, ab, 3, []);
    Lift(toks, 0, l, 0, []);
  }

  lemma LeftGroupingLooser(toks: seq<Token>, l1: nat, l2: nat)
    requires |toks| == 5 && IsAtom(toks[0]) && IsAtom(toks[2]) && IsAtom(toks[4])
    requires Level(toks[1].kind) == Some(l1) && Level(toks[3].kind) == Some(l2) && l2 < l1
    ensures Parse(toks) == Parsed(BinaryOp(BinaryOp(Atom(toks[0]), toks[1], Atom(toks[2])), toks[3], Atom(toks[4])), 5, [])
  {
    var ab := BinaryOp(Atom(toks[0]), toks[1], Atom(toks[2]));
    // `a o1 b` at level l1, stopping at o2, lifted to l2 + 1
    AtomAt(toks, l1 + 1, 0, []);
    LevelUnfold(toks, l1, 0, [], Parsed(Atom(toks[0]), 1, []));
    LoopOverAtom(toks, l1, Atom(toks[0]), 1, []);
    Lift(toks, l2 + 1, l1, 0, []);
    // `(a o1 b) o2 c` at level l2, lifted to 0
    LevelUnfold(toks, l2, 0, [], Parsed(ab, 3, []));
    LoopOverAtom(toks, l2, ab, 3, []);
    Lift(toks, 0, l2, 0, []);
  }

  /** The prefix operators `ps`, outermost first, around `x`. */
  function Wrap(ps: seq<Token>, x: Expr): Expr
  {
    if ps == [] then x else UnaryOp(Wrap(ps[1..], x), ps[0])
  }

  /** A run of prefix operators before an atom nests to the right, the first
      operator outermost. */
  lemma {:induction false} PrefixChain(toks: seq<Token>, pos: nat, n: nat, bag: seq<Code>)
    requires pos + n < |toks| && IsAtom(toks[pos + n])
    requires forall i :: pos <= i < pos + n ==> IsPrefix(toks[i].kind)
    ensures ParseUnary(toks, pos, bag) == Parsed(Wrap(toks[pos..pos + n], Atom(toks[pos + n])), pos + n + 1, bag)
    decreases n
  {
    if n > 0 {
      PrefixChain(toks, pos + 1, n - 1, bag);
      assert toks[pos..pos + n][1..] == toks[pos + 1..pos + n];
    } else {
      assert !IsPrefix(toks[pos].kind);
    }
  }

  /** A whole stream of prefix operators and one atom. */
  lemma PrefixExpression(toks: seq<Token>, n: nat)
    requires |toks| == n + 1 && IsAtom(toks[n])
    requires forall i :: 0 <= i < n ==> IsPrefix(toks[i].kind)
    ensures Parse(toks) == Parsed(Wrap(toks[..n], Atom(toks[n])), n + 1, [])
  {
    PrefixChain(toks, 0, n, []);
    assert toks[0..n] == toks[..n];
    assert ParseLevel(toks, UnaryLevel, 0, []) == ParseUnary(toks, 0, []);
    Lift(toks, 0, UnaryLevel, 0, []);
  }

  /** Prefix operators bind tighter than every binary operator: `-a ^ b` is `(-a) ^ b`. */
  lemma PrefixBindsTighter(toks: seq<Token>)
    requires |toks| == 4 && IsPrefix(toks[0].kind) && IsAtom(toks[1]) && IsAtom(toks[3])
    requires Level(toks[2].kind).Some?
    ensures Parse(toks) == Parsed(BinaryOp(UnaryOp(Atom(toks[1]), toks[0]), toks[2], Atom(toks[3])), 4, [])
  {
    var l := Level(toks[2].kind).value;
    var neg := UnaryOp(Atom(toks[1]), toks[0]);
    PrefixChain(toks, 0, 1, []);
    assert toks[0..1] == [toks[0]];
    assert ParseLevel(toks, UnaryLevel, 0, []) == Parsed(neg, 2, []);
    Lift(toks, l + 1, UnaryLevel, 0, []);
    LevelUnfold(toks, l, 0, [], Parsed(neg, 2, []));
    LoopOverAtom(toks, l, neg, 2, []);
    Lift(toks, 0, l, 0, []);
  }

  /** Error recovery: a token that cannot start a primary is consumed and
      yields `NoOp` and one H005; an empty stream yields the same without moving. */
  lemma UnexpectedToken(toks: seq<Token>, pos: nat, bag: seq<Code>)
    requires pos <= |toks|
    requires var k := Current(toks, pos).kind; !IsLiteralKind(k) && k != Identifier && k != LParen
    ensures ParsePrimary(toks, pos, bag) == Parsed(NoOp, Next(toks, pos), bag + [H005])
    ensures pos < |toks| ==> Next(toks, pos) == pos + 1
  {
  }

  lemma EmptyStream()
    ensures Parse([]) == Parsed(NoOp, 0, [H005])
  {
    assert ParseUnary([], 0, []) == Parsed(NoOp, 0, [H005]);
    Lift([], 0, UnaryLevel, 0, []);
  }

  /** `( e )` is `Parenthesized(e)` and consumes the closing parenthesis;
      a missing one adds `Expected` and leaves the position at the token found. */
  lemma Parentheses(toks: seq<Token>, pos: nat, bag: seq<Code>)
    requires pos < |toks| && toks[pos].kind == LParen
    ensures var inner := ParseLevel(toks, 0, pos + 1, bag);
      && (Current(toks, inner.pos).kind == RParen ==>
            ParsePrimary(toks, pos, bag) == Parsed(Parenthesized(inner.expr), inner.pos + 1, inner.bag))
      && (Current(toks, inner.pos).kind != RParen ==>
            ParsePrimary(toks, pos, bag) == Parsed(Parenthesized(inner.expr), inner.pos, inner.bag + [Expected]))
  {
    var inner := ParseLevel(toks, 0, pos + 1, bag);
    if Current(toks, inner.pos).kind == RParen {
      assert inner.pos < |toks|;
    }
  }

  /** `(a)` parses as a parenthesized atom. */
  lemma ParenthesizedAtom(l: Token, a: Token, r: Token)
    requires l.kind == LParen && IsAtom(a) && r.kind == RParen
    ensures Parse([l, a, r]) == Parsed(Parenthesized(Atom(a)), 3, [])
  {
    var toks := [l, a, r];
    AtomAt(toks, 0, 1, []);
    Parentheses(toks, 0, []);
    assert ParseUnary(toks, 0, []) == Parsed(Parenthesized(Atom(a)), 3, []);
    Lift(toks, 0, UnaryLevel, 0, []);
  }

  // ---- locality: nothing after the stopping token is examined -------

  /** The two streams hold the same first `n` tokens. */
  predicate Agree(t1: seq<Token>, t2: seq<Token>, n: nat)
  {
    n <= |t1| && n <= |t2| && forall i :: 0 <= i < n ==> t1[i] == t2[i]
  }

  lemma SameToken(t1: seq<Token>, t2: seq<Token>, n: nat, i: nat)
    requires Agree(t1, t2, n) && i < n
    ensures Current(t1, i) == Current(t2, i) && Next(t1, i) == Next(t2, i) == i + 1
  {
  }

  /* Each lemma below takes one agreement length `n` that exceeds the
     position of the last token its parse examines; the recursive calls pass
     the same `n` on. */

  lemma {:induction false} LevelLocal(t1: seq<Token>, t2: seq<Token>, n: nat, l: nat, pos: nat, bag: seq<Code>)
    requires l <= UnaryLevel && pos <= |t1| && Agree(t1, t2, n) && ParseLevel(t1, l, pos, bag).pos < n
    ensures ParseLevel(t2, l, pos, bag) == ParseLevel(t1, l, pos, bag)
    decreases |t1| - pos, 2 * (UnaryLevel - l) + 3
  {
    if l == UnaryLevel {
      UnaryLocal(t1, t2, n, pos, bag);
    } else {
      var left := ParseLevel(t1, l + 1, pos, bag);
      LevelLocal(t1, t2, n, l + 1, pos, bag);
      LoopLocal(t1, t2, n, l, left.expr, left.pos, left.bag);
    }
  }

  lemma {:induction false} LoopLocal(t1: seq<Token>, t2: seq<Token>, n: nat, l: nat, left: Expr, pos: nat, bag: seq<Code>)
    requires l < UnaryLevel && pos <= |t1| && Agree(t1, t2, n) && Loop(t1, l, left, pos, bag).pos < n
    ensures Loop(t2, l, left, pos, bag) == Loop(t1, l, left, pos, bag)
    decreases |t1| - pos, 2 * (UnaryLevel - l) + 2
  {
    SameToken(t1, t2, n, pos);
    var op := Current(t1, pos);
    if Level(op.kind) == Some(l) {
      var right := ParseLevel(t1, l + 1, pos + 1, bag);
      LevelLocal(t1, t2, n, l + 1, pos + 1, bag);
      LoopLocal(t1, t2, n, l, BinaryOp(left, op, right.expr), right.pos, right.bag);
    }
  }

  lemma {:induction false} UnaryLocal(t1: seq<Token>, t2: seq<Token>, n: nat, pos: nat, bag: seq<Code>)
    requires pos <= |t1| && Agree(t1, t2, n) && ParseUnary(t1, pos, bag).pos < n
    ensures ParseUnary(t2, pos, bag) == ParseUnary(t1, pos, bag)
    decreases |t1| - pos, 2
  {
    SameToken(t1, t2, n, pos);
    if IsPrefix(Current(t1, pos).kind) {
      UnaryLocal(t1, t2, n, pos + 1, bag);
    } else {
      PrimaryLocal(t1, t2, n, pos, bag);
    }
  }

  lemma {:induction false} PrimaryLocal(t1: seq<Token>, t2: seq<Token>, n: nat, pos: nat, bag: seq<Code>)
    requires pos <= |t1| && Agree(t1, t2, n) && ParsePrimary(t1, pos, bag).pos < n
    ensures ParsePrimary(t2, pos, bag) == ParsePrimary(t1, pos, bag)
    decreases |t1| - pos, 1
  {
    SameToken(t1, t2, n, pos);
    if Current(t1, pos).kind == LParen {
      ParenthesesLocal(t1, t2, n, pos, bag);
    }
  }

  /** The parenthesized case of `PrimaryLocal`. */
  lemma {:induction false} ParenthesesLocal(t1: seq<Token>, t2: seq<Token>, n: nat, pos: nat, bag: seq<Code>)
    requires pos < n && Agree(t1, t2, n) && t1[pos].kind == LParen && ParsePrimary(t1, pos, bag).pos < n
    ensures ParsePrimary(t2, pos, bag) == ParsePrimary(t1, pos, bag)
    decreases |t1| - pos, 0
  {
    var inner := ParseLevel(t1, 0, pos + 1, bag);
    LevelLocal(t1, t2, n, 0, pos + 1, bag);
    SameToken(t1, t2, n, inner.pos);
  }

  /** `Parse` stops after one expression: when it stops before the end of the
      stream, any stream with the same tokens up to and including the one it
      stopped at parses the same. */
  lemma ParseIsLocal(t1: seq<Token>, t2: seq<Token>)
    requires Parse(t1).pos < |t1| && Agree(t1, t2, Parse(t1).pos + 1)
    ensures Parse(t2) == Parse(t1)
  {
    LevelLocal(t1, t2, Parse(t1).pos + 1, 0, 0, []);
  }
}
