/**
 * `SimpleLexer`: the source as a sequence of characters, the accumulator of
 * pending unrecognised characters, and the append-only token list, with the
 * `Tokenize` loop that fills it.
 */
module Lexer {
  import opened Wrappers
  import opened Utf8
  import opened Token
  import opened Literal
  import opened Scanner

  /** The `//` loop: advance from `start` to the next newline or the end. */
  method SkipLineComment(src: string, start: nat) returns (index: nat)
    requires start <= |src|
    ensures index == LineEnd(src, start)
  {
    index := start;
    while index < |src| && src[index] != '\n'
      invariant start <= index <= |src|
      invariant LineEnd(src, index) == LineEnd(src, start)
      decreases |src| - index
    {
      index := index + 1;
    }
  }

  /** The `/*` loop: find the `*/` from `start` on; `None` where Go reads past the end. */
  method SkipBlockComment(src: string, start: nat) returns (r: Option<nat>)
    requires start <= |src|
    ensures r == BlockEnd(src, start)
  {
    var index := start;
    while index < |src| && !(src[index] == '*' && index + 1 < |src| && src[index + 1] == '/')
      invariant start <= index <= |src|
      invariant BlockEnd(src, index) == BlockEnd(src, start)
      decreases |src| - index
    {
      if src[index] == '*' && index + 1 == |src| {
        return None;
      }
      index := index + 1;
    }
    r := Some(index + 1);
  }

  /** The quoted-literal loop: collect the body from `start` up to `delim`. */
  method ScanQuoted(src: string, start: nat, delim: string) returns (r: Option<(string, nat)>)
    requires start <= |src|
    ensures r == QuoteScan(src, start, delim)
  {
    var literal := "";
    var index := start;
    PrependNothing(QuoteScan(src, start, delim));
    while true
      invariant start <= index <= |src|
      invariant QuoteScan(src, start, delim) == PrependBody(literal, QuoteScan(src, index, delim))
      decreases |src| - index
    {
      if index == |src| {
        return None;
      }
      if [src[index]] == delim {
        break;
      }
      if src[index] == '\\' {
        index := index + 1;
        if index == |src| {
          return None;
        }
      }
      PrependTwice(literal, [src[index]], QuoteScan(src, index + 1, delim));
      literal := literal + [src[index]];
      index := index + 1;
    }
    assert literal + "" == literal;
    r := Some((literal, index));
  }

  /** Where a branch of the scanning loop leaves it: continue at an index, or
      stop the pass with an outcome. */
  datatype Step = Next(index: nat) | Stop(outcome: Outcome)

  /** What stepping leaves for the rest of the pass, given the state it leaves. */
  function Rest(env: Env, src: string, step: Step, acc: string, tokens: seq<Token>): ScanResult
  {
    match step
    case Next(n) => Run(env, src, n, acc, tokens)
    case Stop(outcome) => ScanResult(outcome, acc, tokens)
  }

  class SimpleLexer {
    var source: string
    var accumulator: string
    var tokens: seq<Token>

    /** A lexer over source text that has already been read in full. */
    constructor (text: string)
      ensures source == text && accumulator == "" && tokens == []
    {
      source := text;
      accumulator := "";
      tokens := [];
    }

    function Source(): string
      reads this
    {
      source
    }

    function Tokens(): seq<Token>
      reads this
    {
      tokens
    }

    /** The `div` case: a line comment, a block comment, or the divide token
        with the next character skipped; the accumulator is left alone. */
    method LexDivide(env: Env, index: nat) returns (step: Step)
      requires index < |source| && IsDivide(env, source[index])
      modifies this`tokens
      ensures step.Next? ==> step.index > index
      ensures tokens ==
        if index + 2 < |source| && source[index + 1] != '/' && source[index + 1] != '*'
        then old(tokens) + [env.tokenMap[[source[index]]]]
        else old(tokens)
      ensures index + 2 >= |source| ==> step == Next(index + 2)
      ensures index + 2 < |source| && source[index + 1] == '/' ==>
        step == Next(LineEnd(source, index + 2) + 1)
      ensures index + 2 < |source| && source[index + 1] == '*' ==>
        step == match BlockEnd(source, index + 2)
          case None => Stop(IndexOutOfRange)
          case Some(e) => Next(e + 1)
      ensures index + 2 < |source| && source[index + 1] != '/' && source[index + 1] != '*' ==>
        step == Next(index + 2)
      ensures Run(env, source, index, accumulator, old(tokens)) ==
        Rest(env, source, step, accumulator, tokens)
    {
      var src := source;
      var t := env.tokenMap[[src[index]]];
      if index + 2 < |src| {
        RunDivide(env, src, index, accumulator, tokens);
      } else {
        RunDivideNearEnd(env, src, index, accumulator, tokens);
      }
      var i := index + 1;
      if i < |src| - 1 {
        if src[i] == '/' {
          i := SkipLineComment(src, i + 1);
        } else if src[i] == '*' {
          var closing := SkipBlockComment(src, i + 1);
          if closing.None? {
            return Stop(IndexOutOfRange);
          }
          i := closing.value;
        } else {
          tokens := tokens + [t];
        }
      }
      return Next(i + 1);
    }

    /** The `squote`/`dquote` case: flush the accumulator, read the body up to
        the closing delimiter, and append a string or char literal. */
    method LexQuoted(env: Env, index: nat) returns (step: Step)
      requires index < |source| && IsQuote(env, source[index])
      modifies this`accumulator, this`tokens
      ensures step.Next? ==> step.index > index
      ensures accumulator == ""
      ensures var t := env.tokenMap[[source[index]]];
        var flushed := Flush(env, old(accumulator), old(tokens));
        match QuoteScan(source, index + 1, t.value.text)
        case None => step == Stop(IndexOutOfRange) && tokens == flushed
        case Some((body, close)) =>
          if t.value.vtype == SingleQuoteTag && ByteLen(body) > 1 then
            step == Stop(CharLiteralTooLong(body)) && tokens == flushed
          else
            step == Next(close + 1) && tokens == flushed + [QuotedToken(t.value.vtype, body)]
      ensures Run(env, source, index, old(accumulator), old(tokens)) ==
        Rest(env, source, step, accumulator, tokens)
    {
      var src := source;
      var t := env.tokenMap[[src[index]]];
      var tag := t.value.vtype;
      RunQuote(env, src, index, accumulator, tokens);
      if accumulator != "" {
        var (literal, _) := LexLiteral(env, accumulator);
        tokens := tokens + [literal];
        accumulator := "";
      }
      var quoted := ScanQuoted(src, index + 1, t.value.text);
      if quoted.None? {
        return Stop(IndexOutOfRange);
      }
      var (body, close) := quoted.value;
      if tag == SingleQuoteTag && ByteLen(body) > 1 {
        return Stop(CharLiteralTooLong(body));
      }
      tokens := tokens + [QuotedToken(tag, body)];
      return Next(close + 1);
    }

    /**
     * One pass over `source`, appending to `tokens`.  The outcome, the
     * accumulator left behind and the token list are those `Run` gives from
     * index 0; an error or a panic keeps the tokens appended before it.
     */
    method Tokenize(env: Env) returns (outcome: Outcome)
      modifies this`accumulator, this`tokens
      ensures source == old(source)
      ensures ScanResult(outcome, accumulator, tokens) == Run(env, source, 0, old(accumulator), old(tokens))
    {
      var src := source;
      ghost var result := Run(env, src, 0, accumulator, tokens);
      var index := 0;
      while index < |src|
        invariant Run(env, src, index, accumulator, tokens) == result
        decreases |src| - index
      {
        var c := src[index];
        if [c] !in env.tokenMap {
          RunAccumulates(env, src, index, accumulator, tokens);
          accumulator := accumulator + [c];
          index := index + 1;
          continue;
        }
        var t := env.tokenMap[[c]];
        var tag := t.value.vtype;
        if tag == DivTag || tag == SingleQuoteTag || tag == DoubleQuoteTag {
          var step;
          if tag == DivTag {
            step := LexDivide(env, index);
          } else {
            step := LexQuoted(env, index);
          }
          if step.Stop? {
            return step.outcome;
          }
          index := step.index;
        } else if tag == PeriodTag {
          RunAccumulates(env, src, index, accumulator, tokens);
          accumulator := accumulator + [c];
          index := index + 1;
        } else {
          RunPlainSymbol(env, src, index, accumulator, tokens);
          if accumulator != "" {
            var (literal, _) := LexLiteral(env, accumulator);
            tokens := tokens + [literal];
          }
          tokens := tokens + [t];
          accumulator := "";
          index := index + 1;
        }
      }
      RunAtEnd(env, src, accumulator, tokens);
      if accumulator != "" {
        var (literal, stripped) := LexLiteral(env, accumulator);
        accumulator := stripped;
        tokens := tokens + [literal];
      }
      outcome := Finished;
    }
  }
}
