/** Tokens as the lexer hands them to the parser. */
module Syntax {
  import opened Values

  datatype SyntaxKind =
    // literals and names
    | BoolLiteral | CharLiteral | StringLiteral | IntLiteral | FloatLiteral | Identifier
    // keywords
    | NoneKeyword | LetKeyword | MutKeyword | IntKeyword | FloatKeyword
    | StringKeyword | CharKeyword | BoolKeyword
    // operators
    | Plus | Minus | Star | Slash | SlashSlash | Percent | Carat
    | PlusPlus | MinusMinus | Bang | Tilde
    | Ampersand | Pipe | AmpersandAmpersand | PipePipe
    | EqualsEquals | BangEquals | LT | LTE | GT | GTE | LArrowLArrow | RArrowRArrow
    | Equals | PlusEquals | MinusEquals | StarEquals | SlashEquals | SlashSlashEquals
    | PercentEquals | CaratEquals | AmpersandEquals | PipeEquals | TildeEquals
    // punctuation
    | LParen | RParen | LBrace | RBrace | LBracket | RBracket
    | Dot | Colon | ColonColon | Comma | Semicolon
    | EOF

  datatype Location = Location(line: nat, column: nat)

  /** A token; `value` is `Null` for every token that is not a literal. */
  datatype Token = Token(kind: SyntaxKind, text: string, value: Value, start: Location, end: Location)
}
