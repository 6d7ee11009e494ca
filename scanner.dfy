/**
 * The scanning loop of `Tokenize`, stated as functions: one call of `Run`
 * handles the character at `i` exactly as the loop body does, and continues
 * at the index the loop would continue at.  `SimpleLexer.Tokenize` is proved
 * to compute `Run`; the properties of the loop are proved about `Run`.
 */
module Scanner {
  import opened Wrappers
  import opened Utf8
  import opened Token
  import opened Literal

  /** How a pass ends: normally, with the character-literal error, or with the
      out-of-range index that makes the Go code panic. */
  datatype Outcome = Finished | CharLiteralTooLong(literal: string) | IndexOutOfRange

  /** The outcome of a pass together with the accumulator and token list it leaves. */
  datatype ScanResult = ScanResult(outcome: Outcome, acc: string, tokens: seq<Token>)

  /** Where the `//` loop stops: the first newline at or after `j`, or the end. */
  function LineEnd(src: string, j: nat): (k: nat)
    requires j <= |src|
    ensures j <= k <= |src|
    ensures k < |src| ==> src[k] == '\n'
    ensures forall m :: j <= m < k ==> src[m] != '\n'
    decreases |src| - j
  {
    if j == |src| || src[j] == '\n' then j else LineEnd(src, j + 1)
  }

  /** A block comment closes with the `*` at `k`. */
  predicate ClosesAt(src: string, k: int)
  {
    0 <= k && k + 1 < |src| && src[k] == '*' && src[k + 1] == '/'
  }

  /**
   * Where the `/*` loop breaks, looking for `*/` from `j` on: the index of the
   * closing `/`, or one past the end when it runs off the end; `None` when it
   * reads one past the end because the text ends in a `*`.
   */
  function BlockEnd(src: string, j: nat): (r: Option<nat>)
    requires j <= |src|
    ensures r.Some? ==> j < r.value <= |src| + 1
    ensures r.Some? && r.value <= |src| ==> ClosesAt(src, r.value - 1)
    ensures r.None? ==> j < |src| && src[|src| - 1] == '*'
    ensures forall k :: j <= k && k + 1 < (if r.Some? then r.value else |src|) ==> !ClosesAt(src, k)
    decreases |src| - j
  {
    if j == |src| then Some(j + 1)
    else if src[j] == '*' && j + 1 == |src| then None
    else if src[j] == '*' && src[j + 1] == '/' then Some(j + 1)
    else BlockEnd(src, j + 1)
  }

  /** Puts `prefix` in front of the body of a quote scan. */
  function PrependBody(prefix: string, r: Option<(string, nat)>): Option<(string, nat)>
  {
    match r
    case None => None
    case Some((body, close)) => Some((prefix + body, close))
  }

  lemma PrependNothing(r: Option<(string, nat)>)
    ensures PrependBody("", r) == r
  {
    if r.Some? {
      assert "" + r.value.0 == r.value.0;
    }
  }

  lemma PrependTwice(a: string, b: string, r: Option<(string, nat)>)
    ensures PrependBody(a, PrependBody(b, r)) == PrependBody(a + b, r)
  {
    if r.Some? {
      assert a + (b + r.value.0) == (a + b) + r.value.0;
    }
  }

  /**
   * The quoted-literal loop from `j`: the body up to the first unescaped
   * `delim`, with each backslash dropped and the character after it kept, and
   * the index of the closing delimiter; `None` when the loop indexes past the
   * end.
   */
  function QuoteScan(src: string, j: nat, delim: string): (r: Option<(string, nat)>)
    requires j <= |src|
    ensures r.Some? ==> j <= r.value.1 < |src| && [src[r.value.1]] == delim
    ensures r.Some? ==> |r.value.0| <= r.value.1 - j
    decreases |src| - j
  {
    if j == |src| then None
    else if [src[j]] == delim then Some(("", j))
    else if src[j] == '\\' then
      if j + 1 == |src| then None else PrependBody([src[j + 1]], QuoteScan(src, j + 2, delim))
    else PrependBody([src[j]], QuoteScan(src, j + 1, delim))
  }

  /** A non-empty accumulator is classified and its token appended. */
  function Flush(env: Env, acc: string, tokens: seq<Token>): seq<Token>
  {
    if acc != "" then tokens + [LexLiteral(env, acc).0] else tokens
  }

  /** The token for a quoted body: a string literal, or a char literal for `'`. */
  function QuotedToken(tag: ValueType, body: string): Token
  {
    LiteralToken(if tag == SingleQuoteTag then CharType else StringType, Text(body), body)
  }

  /** The rest of the pass from index `i` with accumulator `acc` and the tokens so far. */
  function Run(env: Env, src: string, i: nat, acc: string, tokens: seq<Token>): ScanResult
    decreases |src| - i
  {
    if i >= |src| then
      if acc != "" then ScanResult(Finished, LexLiteral(env, acc).1, tokens + [LexLiteral(env, acc).0])
      else ScanResult(Finished, acc, tokens)
    else
      var c := src[i];
      if [c] !in env.tokenMap then Run(env, src, i + 1, acc + [c], tokens)
      else
        var t := env.tokenMap[[c]];
        var tag := t.value.vtype;
        if tag == DivTag then
          if i + 1 < |src| - 1 then
            if src[i + 1] == '/' then Run(env, src, LineEnd(src, i + 2) + 1, acc, tokens)
            else if src[i + 1] == '*' then
              match BlockEnd(src, i + 2)
              case None => ScanResult(IndexOutOfRange, acc, tokens)
              case Some(e) => Run(env, src, e + 1, acc, tokens)
            else Run(env, src, i + 2, acc, tokens + [t])
          else Run(env, src, i + 2, acc, tokens)
        else if tag == SingleQuoteTag || tag == DoubleQuoteTag then
          var flushed := Flush(env, acc, tokens);
          match QuoteScan(src, i + 1, t.value.text)
          case None => ScanResult(IndexOutOfRange, "", flushed)
          case Some((body, close)) =>
            if tag == SingleQuoteTag && ByteLen(body) > 1 then
              ScanResult(CharLiteralTooLong(body), "", flushed)
            else
              Run(env, src, close + 1, "", flushed + [QuotedToken(tag, body)])
        else if tag == PeriodTag then Run(env, src, i + 1, acc + [c], tokens)
        else Run(env, src, i + 1, "", Flush(env, acc, tokens) + [t])
  }

  /** The character goes to the accumulator: it is not in the map, or it is a period. */
  predicate Accumulates(env: Env, c: char)
  {
    [c] !in env.tokenMap || env.tokenMap[[c]].value.vtype == PeriodTag
  }

  /** The character has its own map token, handled by neither the divide,
      the quote nor the period branch (whitespace included). */
  predicate IsPlainSymbol(env: Env, c: char)
  {
    [c] in env.tokenMap &&
    env.tokenMap[[c]].value.vtype !in {DivTag, SingleQuoteTag, DoubleQuoteTag, PeriodTag}
  }

  predicate IsDivide(env: Env, c: char)
  {
    [c] in env.tokenMap && env.tokenMap[[c]].value.vtype == DivTag
  }

  predicate IsQuote(env: Env, c: char)
  {
    [c] in env.tokenMap && env.tokenMap[[c]].value.vtype in {SingleQuoteTag, DoubleQuoteTag}
  }

  /** An unmapped character or a period is appended to the accumulator; no token. */
  lemma RunAccumulates(env: Env, src: string, i: nat, acc: string, tokens: seq<Token>)
    requires i < |src| && Accumulates(env, src[i])
    ensures Run(env, src, i, acc, tokens) == Run(env, src, i + 1, acc + [src[i]], tokens)
  {
  }

  /** Any other mapped character flushes the accumulator, appends its own token
      and empties the accumulator. */
  lemma RunPlainSymbol(env: Env, src: string, i: nat, acc: string, tokens: seq<Token>)
    requires i < |src| && IsPlainSymbol(env, src[i])
    ensures Run(env, src, i, acc, tokens) ==
      Run(env, src, i + 1, "", Flush(env, acc, tokens) + [env.tokenMap[[src[i]]]])
  {
  }

  /** At the end of the text a non-empty accumulator is flushed, once. */
  lemma RunAtEnd(env: Env, src: string, acc: string, tokens: seq<Token>)
    ensures Run(env, src, |src|, acc, tokens) ==
      if acc == "" then ScanResult(Finished, "", tokens)
      else ScanResult(Finished, LexLiteral(env, acc).1, tokens + [LexLiteral(env, acc).0])
  {
  }

  /** A `/` followed by at least two characters: a `//` comment, a block
      comment, or the divide token with the next character skipped; the
      accumulator is untouched in every case. */
  lemma RunDivide(env: Env, src: string, i: nat, acc: string, tokens: seq<Token>)
    requires i + 2 < |src| && IsDivide(env, src[i])
    ensures src[i + 1] == '/' ==>
      Run(env, src, i, acc, tokens) == Run(env, src, LineEnd(src, i + 2) + 1, acc, tokens)
    ensures src[i + 1] == '*' ==>
      Run(env, src, i, acc, tokens) ==
        match BlockEnd(src, i + 2)
        case None => ScanResult(IndexOutOfRange, acc, tokens)
        case Some(e) => Run(env, src, e + 1, acc, tokens)
    ensures src[i + 1] != '/' && src[i + 1] != '*' ==>
      Run(env, src, i, acc, tokens) == Run(env, src, i + 2, acc, tokens + [env.tokenMap[[src[i]]]])
  {
  }

  /** A `/` as the last or second-to-last character emits nothing. */
  lemma RunDivideNearEnd(env: Env, src: string, i: nat, acc: string, tokens: seq<Token>)
    requires i < |src| <= i + 2 && IsDivide(env, src[i])
    ensures Run(env, src, i, acc, tokens) == Run(env, src, i + 2, acc, tokens)
  {
  }

  /** A quote flushes the accumulator, then scans the body; a char literal of
      more than one byte stops the pass with the tokens flushed so far. */
  lemma RunQuote(env: Env, src: string, i: nat, acc: string, tokens: seq<Token>)
    requires i < |src| && IsQuote(env, src[i])
    ensures var t := env.tokenMap[[src[i]]];
      var flushed := Flush(env, acc, tokens);
      Run(env, src, i, acc, tokens) ==
        match QuoteScan(src, i + 1, t.value.text)
        case None => ScanResult(IndexOutOfRange, "", flushed)
        case Some((body, close)) =>
          if t.value.vtype == SingleQuoteTag && ByteLen(body) > 1 then
            ScanResult(CharLiteralTooLong(body), "", flushed)
          else
            Run(env, src, close + 1, "", flushed + [QuotedToken(t.value.vtype, body)])
  {
  }
}
