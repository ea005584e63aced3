/** Construction of tokens from their source text, including the values of
    literal tokens. */
module TokenFactory {
  import opened Numerics
  import opened Values
  import opened Syntax

  /** A keyword token; `keywordText` is the reverse lookup in the keyword table. */
  function Keyword(kind: SyntaxKind, keywordText: SyntaxKind -> string, start: Location, end: Location): (t: Token)
    ensures t.kind == kind && t.text == keywordText(kind) && t.value == Null
  {
    Token(kind, keywordText(kind), Null, start, end)
  }

  function Identifier(text: string, start: Location, end: Location): (t: Token)
    ensures t.kind == SyntaxKind.Identifier && t.text == text && t.value == Null
  {
    Token(SyntaxKind.Identifier, text, Null, start, end)
  }

  function Operator(kind: SyntaxKind, text: string, start: Location, end: Location): (t: Token)
    ensures t.kind == kind && t.text == text && t.value == Null
  {
    Token(kind, text, Null, start, end)
  }

  /** A string literal's value is its text without the enclosing quote characters
      (`Substring(1, Length - 2)`, which needs at least two characters). */
  function StringLiteral(text: string, start: Location, end: Location): (t: Token)
    requires |text| >= 2
    ensures t.kind == SyntaxKind.StringLiteral && t.text == text
    ensures t.value.Str? && |t.value.s| == |text| - 2
    ensures forall i :: 0 <= i < |t.value.s| ==> t.value.s[i] == text[i + 1]
  {
    Token(SyntaxKind.StringLiteral, text, Str(text[1..|text| - 1]), start, end)
  }

  /** Turns an identifier into a string literal token: the identifier's text is
      wrapped in double quotes, so the literal's value is that text. */
  function StringFromIdentifier(identifier: Token): (t: Token)
    ensures t.kind == SyntaxKind.StringLiteral
    ensures t.value == Str(identifier.text)
    ensures t.text == "\"" + identifier.text + "\""
    ensures t.start == identifier.start && t.end == identifier.end
  {
    StringLiteral("\"" + identifier.text + "\"", identifier.start, identifier.end)
  }

  /** A bool literal is true exactly when its text is `true`. */
  function BoolLiteral(text: string, start: Location, end: Location): (t: Token)
    ensures t.kind == SyntaxKind.BoolLiteral && t.text == text
    ensures t.value.Bool? && (t.value.b <==> text == "true")
  {
    Token(SyntaxKind.BoolLiteral, text, Bool(text == "true"), start, end)
  }

  /** `Convert.ToChar` of the text between the quotes, which must be one
      UTF-16 code unit: a character of the Basic Multilingual Plane. */
  function CharLiteral(text: string, start: Location, end: Location): (t: Token)
    requires |text| == 3 && text[1] as int < 0x1_0000
    ensures t.kind == SyntaxKind.CharLiteral && t.text == text
    ensures t.value == Char(text[1])
  {
    Token(SyntaxKind.CharLiteral, text, Char(text[1..2][0]), start, end)
  }

  function NoneLiteral(start: Location, end: Location): (t: Token)
    ensures t.kind == NoneKeyword && t.text == "none" && t.value == Null
  {
    Token(NoneKeyword, "none", Null, start, end)
  }

  // ---- integer literals ------------------------------------------------

  /** The radixes `Convert.ToInt64(string, int)` accepts. */
  predicate ValidRadix(radix: int)
  {
    radix == 2 || radix == 8 || radix == 10 || radix == 16
  }

  /** Digit value of a character, or -1 when it is not a digit at all. */
  function DigitValue(c: char): (d: int)
    ensures -1 <= d < 16
  {
    if '0' <= c <= '9' then c as int - '0' as int
    else if 'a' <= c <= 'f' then c as int - 'a' as int + 10
    else if 'A' <= c <= 'F' then c as int - 'A' as int + 10
    else -1
  }

  predicate ValidDigits(s: string, radix: int)
  {
    |s| > 0 && forall i :: 0 <= i < |s| ==> 0 <= DigitValue(s[i]) < radix
  }

  /** The number the digits denote, read most significant first. */
  function Magnitude(s: string, radix: nat): int
  {
    if s == [] then 0
    else Magnitude(s[..|s| - 1], radix) * radix + DigitValue(s[|s| - 1])
  }

  lemma {:induction false} MagnitudeNonNegative(s: string, radix: nat)
    requires ValidDigits(s, radix) || s == []
    ensures Magnitude(s, radix) >= 0
    decreases |s|
  {
    if s != [] {
      var p := s[..|s| - 1];
      assert forall i :: 0 <= i < |p| ==> p[i] == s[i];
      MagnitudeNonNegative(p, radix);
      assert DigitValue(s[|s| - 1]) >= 0;
    }
  }

  /** The digits `IntLiteral` hands to `Convert.ToInt64`: the whole text in
      radix 10, otherwise the text after its two-character prefix (0b, 0o, 0x). */
  function DigitText(text: string, radix: int): string
    requires radix == 10 || |text| >= 2
  {
    if radix == 10 then text else text[2..]
  }

  /** The inputs on which `IntLiteral` does not throw: a supported radix, a
      digit string valid in it, and a magnitude that fits: a signed long in
      radix 10, 64 unsigned bits in the other radixes. */
  predicate IntLiteralDefined(text: string, radix: int)
  {
    && ValidRadix(radix)
    && (radix == 10 || |text| >= 2)
    && ValidDigits(DigitText(text, radix), radix)
    && Magnitude(DigitText(text, radix), radix) < (if radix == 10 then TWO_63 else TWO_64)
  }

  /** An integer literal carries a long. In radix 2, 8 and 16 the digits are
      read as an unsigned 64-bit pattern and reinterpreted as two's complement. */
  function IntLiteral(text: string, start: Location, end: Location, radix: int): (t: Token)
    requires IntLiteralDefined(text, radix)
    ensures t.kind == SyntaxKind.IntLiteral && t.text == text && t.value.Long?
    ensures var m := Magnitude(DigitText(text, radix), radix);
            t.value.l == if m < TWO_63 then m else m - TWO_64
  {
    var m := Magnitude(DigitText(text, radix), radix);
    MagnitudeNonNegative(DigitText(text, radix), radix);
    Token(SyntaxKind.IntLiteral, text, Long(if m < TWO_63 then m else m - TWO_64), start, end)
  }

  // ---- inverses used to state round trips -------------------------------

  function DigitChar(d: nat): (c: char)
    requires d < 16
    ensures DigitValue(c) == d
  {
    if d < 10 then ('0' as int + d) as char else ('a' as int + d - 10) as char
  }

  /** The digits of `n` in the radix, most significant first. */
  function Digits(n: nat, radix: nat): (s: string)
    requires 2 <= radix <= 16
    ensures |s| > 0
    decreases n
  {
    if n < radix then [DigitChar(n)] else Digits(n / radix, radix) + [DigitChar(n % radix)]
  }

  lemma MagnitudeSnoc(s: string, c: char, radix: nat)
    ensures Magnitude(s + [c], radix) == Magnitude(s, radix) * radix + DigitValue(c)
  {
    assert (s + [c])[..|s|] == s;
  }

  /** One digit split off: the quotient is smaller than `n`. */
  lemma DivModSplit(n: nat, radix: nat)
    requires 2 <= radix <= n
    ensures n == (n / radix) * radix + n % radix && n % radix < radix
    ensures n / radix < n
  {
  }

  lemma {:induction false} MagnitudeOfDigits(n: nat, radix: nat)
    requires 2 <= radix <= 16
    ensures Magnitude(Digits(n, radix), radix) == n
    decreases n
  {
    if n < radix {
      assert Digits(n, radix) == [] + [DigitChar(n)];
      MagnitudeSnoc([], DigitChar(n), radix);
    } else {
      var q, d := n / radix, n % radix;
      DivModSplit(n, radix);
      MagnitudeOfDigits(q, radix);
      MagnitudeSnoc(Digits(q, radix), DigitChar(d), radix);
    }
  }

  lemma {:induction false} DigitsValid(n: nat, radix: nat)
    requires 2 <= radix <= 16
    ensures ValidDigits(Digits(n, radix), radix)
    decreases n
  {
    if n >= radix {
      DivModSplit(n, radix);
      var p, c := Digits(n / radix, radix), DigitChar(n % radix);
      DigitsValid(n / radix, radix);
      assert Digits(n, radix) == p + [c];
      forall i | 0 <= i < |p + [c]|
        ensures 0 <= DigitValue((p + [c])[i]) < radix
      {
        if i < |p| {
          assert (p + [c])[i] == p[i];
        }
      }
    }
  }

  /** The digits of `n` behind a prefix of the radix's length are what
      `IntLiteral` reads, and they denote `n`. */
  lemma PrefixedDigits(n: nat, radix: int, prefix: string)
    requires ValidRadix(radix)
    requires radix == 10 ==> prefix == []
    requires radix != 10 ==> |prefix| == 2
    ensures var text := prefix + Digits(n, radix);
      (radix == 10 || |text| >= 2) && DigitText(text, radix) == Digits(n, radix)
    ensures ValidDigits(Digits(n, radix), radix) && Magnitude(Digits(n, radix), radix) == n
  {
    var digits := Digits(n, radix);
    if radix != 10 {
      assert (prefix + digits)[2..] == digits;
    }
    DigitsValid(n, radix);
    MagnitudeOfDigits(n, radix);
  }

  /** Printing a non-negative long in any supported radix (behind any
      two-character prefix outside radix 10) gives a text `IntLiteral`
      accepts, whose magnitude is the number. */
  lemma PrefixedDigitsDefined(n: nat, radix: int, prefix: string)
    requires ValidRadix(radix) && n < TWO_63
    requires radix == 10 ==> prefix == []
    requires radix != 10 ==> |prefix| == 2
    ensures IntLiteralDefined(prefix + Digits(n, radix), radix)
    ensures Magnitude(DigitText(prefix + Digits(n, radix), radix), radix) == n
  {
    PrefixedDigits(n, radix, prefix);
  }

  /** Printing a non-negative long in any supported radix (behind any
      two-character prefix outside radix 10) and reading it back with
      `IntLiteral` gives the number again. */
  lemma IntLiteralRoundTrip(n: nat, radix: int, prefix: string, start: Location, end: Location)
    requires ValidRadix(radix) && n < TWO_63
    requires radix == 10 ==> prefix == []
    requires radix != 10 ==> |prefix| == 2
    ensures IntLiteralDefined(prefix + Digits(n, radix), radix)
    ensures IntLiteral(prefix + Digits(n, radix), start, end, radix).value == Long(n)
  {
    PrefixedDigitsDefined(n, radix, prefix);
  }

  /** The quoted text of any string is read back as that string. */
  lemma StringLiteralRoundTrip(s: string, start: Location, end: Location)
    ensures StringLiteral("\"" + s + "\"", start, end).value == Str(s)
  {
    var text := "\"" + s + "\"";
    assert text[1..|text| - 1] == s;
  }

  /** The quoted form of any character of the Basic Multilingual Plane is
      read back as that character. */
  lemma CharLiteralRoundTrip(c: char, start: Location, end: Location)
    requires c as int < 0x1_0000
    ensures CharLiteral(['\''] + [c] + ['\''], start, end).value == Char(c)
  {
  }

  /** The binary literal of the lexer's tests: 0b1101 is 13. */
  lemma BinaryLiteralValue(start: Location, end: Location)
    ensures IntLiteralDefined("0b1101", 2) && IntLiteral("0b1101", start, end, 2).value == Long(13)
  {
    var s := "0b1101"[2..];
    assert s == "1101";
    assert s[..3] == "110" && s[..3][..2] == "11" && s[..3][..2][..1] == "1" && s[..3][..2][..1][..0] == "";
    assert Magnitude("1", 2) == 1;
    assert Magnitude("11", 2) == 3;
    assert Magnitude("110", 2) == 6;
    assert Magnitude(s, 2) == 13;
  }

  /** The octal literal of the lexer's tests: 0o420 is 272. */
  lemma OctalLiteralValue(start: Location, end: Location)
    ensures IntLiteralDefined("0o420", 8) && IntLiteral("0o420", start, end, 8).value == Long(272)
  {
    var s := "0o420"[2..];
    assert s == "420";
    assert s[..2] == "42" && s[..2][..1] == "4" && s[..2][..1][..0] == "";
    assert Magnitude("4", 8) == 4;
    assert Magnitude("42", 8) == 34;
    assert Magnitude(s, 8) == 272;
  }

  /** The hexadecimal literal of the lexer's tests: 0x03E is 62. */
  lemma HexLiteralValue(start: Location, end: Location)
    ensures IntLiteralDefined("0x03E", 16) && IntLiteral("0x03E", start, end, 16).value == Long(62)
  {
    var s := "0x03E"[2..];
    assert s == "03E";
    assert s[..2] == "03" && s[..2][..1] == "0" && s[..2][..1][..0] == "";
    assert Magnitude("0", 16) == 0;
    assert Magnitude("03", 16) == 3;
    assert Magnitude(s, 16) == 62;
  }

  /** The decimal literal of the lexer's tests: 123. */
  lemma DecimalLiteralValue(start: Location, end: Location)
    ensures IntLiteralDefined("123", 10) && IntLiteral("123", start, end, 10).value == Long(123)
  {
    var s := "123";
    assert s[..2] == "12" && s[..2][..1] == "1" && s[..2][..1][..0] == "";
    assert Magnitude("1", 10) == 1;
    assert Magnitude("12", 10) == 12;
    assert Magnitude(s, 10) == 123;
  }

  /** The remaining literal values of the lexer's tests. */
  lemma LexerTestValues(start: Location, end: Location)
    ensures BoolLiteral("true", start, end).value == Bool(true)
    ensures BoolLiteral("false", start, end).value == Bool(false)
    ensures StringLiteral("\"abc\"", start, end).value == Str("abc")
    ensures CharLiteral("'a'", start, end).value == Char('a')
  {
    var v := StringLiteral("\"abc\"", start, end).value.s;
    assert |v| == 3 && v[0] == 'a' && v[1] == 'b' && v[2] == 'c';
    assert v == "abc";
  }
}
