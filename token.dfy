/**
 * The token shapes of the external token package, as far as the lexer uses
 * them, and the two things the lexer takes from outside: the token map and
 * the float parser.
 */
module Token {
  import opened Wrappers

  /** A token's `Type`: the lexer itself only writes `Literal` and `Ident`;
      every other kind comes from the token map and is kept by name. */
  datatype Kind = Literal | Ident | Named(name: string)

  /** A value's `Type`.  The literal classes are the package's constants; a map
      entry carries a tag such as "div", "squote", "dquote" or "period".  An
      identifier's value leaves the field at its zero value, `Tag("")`. */
  datatype ValueType = BoolType | IntType | FloatType | StringType | CharType | Tag(name: string)

  /** The untyped `True` field: the payload of a literal. */
  datatype Payload = Nil | Bool(b: bool) | Int(i: int) | Float(bits: bv64) | Text(s: string)

  datatype Value = Value(vtype: ValueType, payload: Payload, text: string)

  datatype Token = Token(id: int, kind: Kind, value: Value)

  const DivTag := Tag("div")
  const SingleQuoteTag := Tag("squote")
  const DoubleQuoteTag := Tag("dquote")
  const PeriodTag := Tag("period")

  /**
   * What the lexer consults but does not define: `tokenMap` stands for the
   * package's `TokenMap` (single characters and keywords to their tokens), and
   * `parseFloat` for `strconv.ParseFloat(s, 64)`, giving the bits of the parsed
   * float64 or `None` on error.
   */
  datatype Env = Env(tokenMap: map<string, Token>, parseFloat: string -> Option<bv64>)

  /** A literal token as the lexer builds it: ID 0, kind `Literal`. */
  function LiteralToken(vtype: ValueType, payload: Payload, text: string): Token
  {
    Token(0, Literal, Value(vtype, payload, text))
  }

  /** An identifier token: only the value's text is set. */
  function IdentToken(text: string): Token
  {
    Token(0, Ident, Value(Tag(""), Nil, text))
  }
}
