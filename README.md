# Simple lexer — a verified model

This project models the hand-written scanner of `lexer/simple.go`: the
`SimpleLexer` object (its source text, its `Accumulator` and its token list),
the `Tokenize` pass that walks the source character by character, and
`LexLiteral`, which classifies accumulated text as a boolean, integer or float
literal, a keyword or an identifier.

Layout, leaves first:

- `wrappers.dfy` (`Wrappers`): the `Option` type.
- `utf8.dfy` (`Utf8`): UTF-8 byte length of a text. Go's `len` on a string
  counts bytes, and the lexer compares such lengths twice.
- `strconv.dfy` (`Strconv`): Go's `strconv.ParseInt(s, base, 64)` for an
  explicit base, and `FormatInt`, its inverse, used to state round trips.
- `token.dfy` (`Token`): the token shape of the external token package, and
  `Env`. `Env` holds what the lexer consults but does not define: the token
  map, and the float parser as a function from text to the bits of a float64
  or `None`.
- `literal.dfy` (`Literal`): `LexLiteral` as a function. It returns the token
  together with the accumulator the Go method writes back.
- `scanner.dfy` (`Scanner`): the scanning loop as functions. `Run(env, src, i,
  acc, tokens)` is the rest of the pass from index `i`. It branches exactly as
  the loop body does and continues at the index the loop continues at. The
  inner loops are `LineEnd` (`//`), `BlockEnd` (`/*`) and `QuoteScan` (quoted
  bodies). One lemma per branch states what a single step does.
- `lexer.dfy` (`Lexer`): the `SimpleLexer` class. Its fields are `source`,
  `accumulator` and `tokens`. `Tokenize` is a `while` loop over an index that
  updates those fields in place. It is proved to leave exactly the state and
  outcome that `Run` gives from index 0. The `div` and quote cases are the
  methods `LexDivide` and `LexQuoted`, and the three inner loops are
  `SkipLineComment`, `SkipBlockComment` and `ScanQuoted`. Each is proved
  against its function.
- `properties.dfy` (`ScannerProperties`): properties of the pass proved on
  `Run`. They cover words, a symbol or a `/` between two words, append-only
  tokens, a bound on the number of tokens, escaped quoted bodies, character
  literals, unterminated quotes and both kinds of comment.
- `scenarios.dfy` (`Scenarios`): concrete inputs and what the lexer makes of
  them.

A pass ends in one of three ways (`Scanner.Outcome`):

- `Finished`: the loop reaches the end of the text.
- `CharLiteralTooLong(body)`: the error `Tokenize` returns for a
  single-quoted body longer than one byte.
- `IndexOutOfRange`: the Go code would panic by indexing past the end. This
  happens for a quote that is never closed, and for a block comment that is
  never closed when the text ends in `*`.

Tokens appended before an error or a panic stay in the token list.

### Behaviour worth knowing

- Whitespace that is in the token map is emitted as a token, like any other
  mapped symbol. Two words joined by a space give the first word's token, the
  space's token, then the second word's token (`SymbolBetweenWords`).
- Comments and the divide sign never flush the accumulator. So `1/*x*/2` is
  the single integer 12 (`BlockCommentJoinsDigits`).
- A `/` that starts no comment emits the divide token at once, ahead of any
  pending accumulated text, and skips the character after it. The words on
  either side then make one token (`DivideBetweenWords`, `DivideSkipsNext`).
  A `/` as the last or second-to-last character emits nothing
  (`DivideNearEnd`).
- Float parsing, the keyword lookup and the identifier all use the text with
  its base prefix removed. So `0xZZ` is the identifier `ZZ` (`MalformedHex`)
  and `0x1.8` is the float 1.8 (`HexPrefixedFloat`). Integer and float
  literals keep the text as written.
- The accumulator is not emptied after the final flush. It keeps what
  `LexLiteral` wrote back, which is the prefix-stripped text.
- A block comment that is never closed swallows the rest of the text without
  error, unless the text ends in `*` (`UnclosedBlockComment`).
- Inside quotes a backslash is dropped and the character after it kept as
  it is. No escape sequence is interpreted: backslash-n reads as the letter
  `n` (`BackslashLetter`).
- The length check on character literals counts bytes. So a single
  non-ASCII character such as `'é'` is rejected, and the empty body `''` is
  accepted as an empty char literal (`CharLiteral`, `EmptyCharLiteral`).

## Model

| member | source | states |
|---|---|---|
| Lexer.SimpleLexer.Tokenize | lexer/simple.go:175-334 | the outcome, the accumulator and the token list after one pass are those of `Run` from index 0 with the old accumulator and tokens; only the accumulator and token fields change |
| Lexer.SimpleLexer.LexDivide | lexer/simple.go:221-247 | the `div` case appends the divide token exactly when a character other than `/` and `*` follows with at least one more after it, and appends nothing otherwise; it continues after the line comment, after the block comment (or stops with the panic on an unclosed `/*` ending in `*`), or two characters on; the rest of the pass is then `Run`'s |
| Lexer.SimpleLexer.LexQuoted | lexer/simple.go:250-300 | the quote case empties the accumulator, appends the flushed accumulator's token, and then either stops with the panic or `CharLiteralTooLong`, or appends the string or char literal for the scanned body and continues after the closing quote |
| Lexer.SimpleLexer.constructor | lexer/simple.go:72-86 | a new lexer holds the given source with an empty accumulator and no tokens |
| Lexer.SkipLineComment | lexer/simple.go:225-231 | the `//` loop stops at `LineEnd`, the first newline or the end |
| Lexer.SkipBlockComment | lexer/simple.go:233-240 | the `/*` loop stops where `BlockEnd` says, and fails exactly where Go indexes past the end |
| Lexer.ScanQuoted | lexer/simple.go:265-278 | the quote body loop collects the body `QuoteScan` describes, or fails where Go indexes past the end |
| Scanner.LineEnd | lexer/simple.go:225-231 | the index reached is the first newline at or after the start, or the end of the text |
| Scanner.BlockEnd | lexer/simple.go:233-240 | the loop stops at the `/` of the first `*/`, or one past the end when there is none; it fails only when the text ends in `*`, and no `*/` comes before its stop |
| Scanner.QuoteScan | lexer/simple.go:265-278 | a successful scan stops at a delimiter after the opening quote, and the body is no longer than the text it was read from |
| ScannerProperties.RunAccumulatesSpan | lexer/simple.go:213-217 | a stretch of unmapped characters and periods only extends the accumulator by that stretch |
| ScannerProperties.WordIsOneToken | lexer/simple.go:213-217 | a text of unmapped characters and periods gives exactly one token, the classification of the whole text |
| ScannerProperties.SymbolBetweenWords | lexer/simple.go:308-331 | a plain symbol, whitespace included, between two words gives the first word's token, the symbol's token and the second word's token, in that order |
| ScannerProperties.DivideBetweenWords | lexer/simple.go:221-247 | a `/` between two words that starts no comment gives the divide token first, drops the next character, and the words on both sides make one token |
| ScannerProperties.DivideNearEnd | lexer/simple.go:221-223 | a `/` as the last or second-to-last character emits nothing and drops what follows it; only the word before it gives a token |
| ScannerProperties.RunAppendsOnly | lexer/simple.go:243 | every pass only appends tokens; the tokens present before it, and those appended before an error or panic, are kept |
| ScannerProperties.RunTokenBound | lexer/simple.go:175-334 | a pass appends at most one token per character left to scan, plus one for a pending accumulator |
| ScannerProperties.QuoteScanEscaped | lexer/simple.go:267-278 | a body written with a backslash before each backslash and delimiter, and optionally before any other character, is read back exactly, and the scan stops at the delimiter after it |
| ScannerProperties.QuoteScanReadsEscaped | lexer/simple.go:267-278 | conversely, the text a successful scan consumes is its body escaped in one of those ways: each backslash is dropped and the character after it kept, and nothing else changes |
| ScannerProperties.StringLiteral | lexer/simple.go:253-300 | a double-quoted escaped body becomes a string literal whose payload and text are the body; the scan resumes after the closing quote |
| ScannerProperties.CharLiteral | lexer/simple.go:280-298 | a single-quoted body of two or more characters, or of one non-ASCII character, stops the pass with `CharLiteralTooLong` and keeps the flushed tokens; an empty body or one ASCII character becomes a char literal |
| ScannerProperties.UnterminatedQuote | lexer/simple.go:267-278 | a quote with no closing delimiter and no backslash after it ends in the index-out-of-range panic |
| ScannerProperties.LineComment | lexer/simple.go:225-231 | `//` skips to the next newline and consumes it, emitting nothing and keeping the accumulator |
| ScannerProperties.BlockComment | lexer/simple.go:233-240 | `/*` skips past the first following `*/`, emitting nothing and keeping the accumulator |
| ScannerProperties.UnclosedBlockComment | lexer/simple.go:233-240 | an unclosed block comment swallows the rest of the text, or panics when the text ends in `*` |
| Literal.LexLiteral | lexer/simple.go:338-416 | the new accumulator is the text or the text without its two-character base prefix; an identifier not taken from the map holds that new accumulator |
| Literal.BaseOf | lexer/simple.go:363-378 | the base is 2, 8, 16 only for the prefixes `0b`, `0o`, `0x`, and 10 otherwise |
| Literal.BaseOfPrefix | lexer/simple.go:363-378 | the byte-length test selects a base exactly when the text starts with `0b`, `0o` or `0x` and has a third character, and then the base that second character names |
| Literal.LexLiteralWritesBack | lexer/simple.go:380-383 | the accumulator written back is the text without its base prefix when there is one, and the text itself otherwise |
| Literal.LexLiteralBool | lexer/simple.go:343-358 | `true` and `false` become boolean literals with that value, keeping their text |
| Literal.DecimalLiteral | lexer/simple.go:385-391 | every 64-bit value written in decimal becomes that integer literal, with the text unchanged |
| Literal.PrefixedLiteral | lexer/simple.go:363-391 | every 64-bit value written in base 2, 8 or 16 after its prefix becomes that integer; the token keeps the full text and the accumulator keeps the digits |
| Literal.IntStep | lexer/simple.go:380-391 | whenever `ParseInt` accepts the prefix-stripped text in the prefix's base, whatever its spelling, the token is that integer literal with the text as written, and the accumulator keeps the stripped text |
| Literal.FloatStep | lexer/simple.go:393-398 | when the prefix-stripped text is no integer but `ParseFloat` accepts it, the token is a float literal with that value that keeps the text as written |
| Literal.StrippedFallback | lexer/simple.go:395-410 | when the prefix-stripped text is neither an integer of the prefix's base nor a float, the token is the map's keyword for the stripped text, or else an identifier holding it |
| Strconv.ParseInt | lexer/simple.go:386 | a parsed value lies in the signed 64-bit range and is negative only after a `-` |
| Strconv.FormatIntRoundTrip | lexer/simple.go:386 | `ParseInt` reads back every 64-bit value written by `FormatInt` in any base |
| Strconv.FormatIntOutOfRange | lexer/simple.go:386 | outside the 64-bit range, parsing fails, and the classifier moves on to floats |
| Utf8.ByteLenBounds | lexer/simple.go:283 | a text has at least as many bytes as characters, and the same number exactly when it is ASCII |
| Utf8.MoreThanOneByte | lexer/simple.go:283 | a body is over one byte exactly when it has two or more characters or one non-ASCII character |
| Scenarios.HexLiteral | lexer/simple.go:363-391 | `0x1A` is the integer 26 with text `0x1A`, and the accumulator is left holding `1A` |
| Scenarios.UpperCaseHex | lexer/simple.go:363-391 | `0xFF`, with upper-case digits, is the integer 255 |
| Scenarios.BinaryLiteral | lexer/simple.go:367-368 | `0b101` is the integer 5 |
| Scenarios.OctalLiteral | lexer/simple.go:371-372 | `0o17` is the integer 15 |
| Scenarios.DecimalLiteral42 | lexer/simple.go:385-391 | `42` is the integer 42 |
| Scenarios.SignAfterPrefix | lexer/simple.go:380-386 | `0x-1A` is the integer -26, because the sign is parsed after the stripped prefix |
| Scenarios.BarePrefix | lexer/simple.go:363-364 | `0x` alone is too short for a prefix; it is parsed in base 10, fails and is not stripped |
| Scenarios.MalformedHex | lexer/simple.go:381-410 | `0xZZ` becomes the identifier `ZZ` |
| Scenarios.HexPrefixedFloat | lexer/simple.go:380-398 | `0x1.8` is the float `ParseFloat` gives for `1.8`, with the text `0x1.8` |
| Scenarios.BlockCommentJoinsDigits | lexer/simple.go:233-247 | `1/*x*/2` gives the single integer 12 |
| Scenarios.LineCommentAndSpace | lexer/simple.go:225-231 | `1 // c` newline `2` gives the integer 1, the space token, then the integer 2 |
| Scenarios.DivideSkipsNext | lexer/simple.go:242-243 | `a/bc` gives the divide token followed by the identifier `ac` |
| Scenarios.TwoCharLiteral | lexer/simple.go:282-285 | `'ab'` stops the pass with `CharLiteralTooLong("ab")` and no tokens |
| Scenarios.BackslashLetter | lexer/simple.go:267-278 | the double-quoted body backslash-n is the one-letter string `n`: no escape sequence is interpreted |
| Scenarios.EmptyCharLiteral | lexer/simple.go:280-298 | `''` passes the byte-length check and gives the empty char literal |

## Left out

- `readAllRunes`, `New`, `NewFromBytes`, `NewFromString`, `NewFromFile`, `NewFromPath` and `NewFromFolder` read the source from a reader, a file or a folder. This is I/O. The constructor takes the already-read text instead. As written, `readAllRunes` never returns at end of input, because its `break` only leaves the `switch`. `NewFromFolder` has no body. `Tokenize` is modelled from the point where the source is fully read.
- `Print` only writes the tokens to the console.
- `Lexer.SimpleLexer.Tokens` and `Lexer.SimpleLexer.Source` are plain field reads. They have no contract beyond their bodies.
- `strconv.ParseFloat` is not modelled. It is the `parseFloat` parameter of `Env`, so a float token carries the 64 bits it returns and nothing more is known. Words such as `inf` or `NaN`, which Go parses as floats, therefore stay open.
- The contents of the token map and the constants of the token package are not visible. The map is the `tokenMap` parameter. The kinds and value types other than literal and identifier are kept by name.
- The `Lexemes` list is never read by `Tokenize` or `LexLiteral`.
- The commented-out check that whitespace must follow a token is not modelled, because it is dead code.
- A Go panic unwinds the call. The model instead returns `IndexOutOfRange` and leaves the fields as they were at the panic.
- The error message of `errors.Errorf` is reduced to the offending body, `CharLiteralTooLong(body)`.
- `int(value)` at line 390 assumes a 64-bit `int`.
- Go replaces invalid UTF-8 with U+FFFD while reading. The model starts from Unicode scalar values.
