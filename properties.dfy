/**
 * What the scanning loop promises, proved about `Scanner.Run` and therefore,
 * through the contract of `SimpleLexer.Tokenize`, about the lexer.
 */
module ScannerProperties {
  import opened Wrappers
  import opened Utf8
  import opened Token
  import opened Literal
  import opened Scanner

  /** A stretch of unmapped characters and periods only grows the accumulator. */
  lemma {:induction false} RunAccumulatesSpan(env: Env, src: string, i: nat, j: nat, acc: string, tokens: seq<Token>)
    requires i <= j <= |src|
    requires forall k :: i <= k < j ==> Accumulates(env, src[k])
    ensures Run(env, src, i, acc, tokens) == Run(env, src, j, acc + src[i..j], tokens)
    decreases j - i
  {
    if i < j {
      RunAccumulates(env, src, i, acc, tokens);
      RunAccumulatesSpan(env, src, i + 1, j, acc + [src[i]], tokens);
      assert (acc + [src[i]]) + src[i + 1..j] == acc + src[i..j];
    } else {
      assert acc + src[i..j] == acc;
    }
  }

  /**
   * Text made only of unmapped characters and periods comes out as exactly one
   * token, the classification of the whole text (for instance an identifier
   * holding the text verbatim).
   */
  lemma WordIsOneToken(env: Env, src: string)
    requires src != ""
    requires forall k :: 0 <= k < |src| ==> Accumulates(env, src[k])
    ensures Run(env, src, 0, "", []) ==
      ScanResult(Finished, LexLiteral(env, src).1, [LexLiteral(env, src).0])
  {
    RunAccumulatesSpan(env, src, 0, |src|, "", []);
    assert "" + src[0..|src|] == src;
    RunAtEnd(env, src, src, []);
  }

  /** Every character of `w` goes to the accumulator. */
  predicate IsWord(env: Env, w: string)
  {
    forall k :: 0 <= k < |w| ==> Accumulates(env, w[k])
  }

  /** The tokens a word on its own gives: none for the empty word. */
  function WordTokens(env: Env, w: string): seq<Token>
  {
    if w == "" then [] else [LexLiteral(env, w).0]
  }

  /** Scanning a word from `i` onwards, where `src[i..]` starts with it. */
  lemma WordSpan(env: Env, src: string, i: nat, w: string, acc: string, tokens: seq<Token>)
    requires IsWord(env, w) && i + |w| <= |src| && src[i..i + |w|] == w
    ensures Run(env, src, i, acc, tokens) == Run(env, src, i + |w|, acc + w, tokens)
  {
    forall k | i <= k < i + |w|
      ensures Accumulates(env, src[k])
    {
      assert src[k] == src[i..i + |w|][k - i];
    }
    RunAccumulatesSpan(env, src, i, i + |w|, acc, tokens);
  }

  /**
   * A plain symbol between two words: the first word's token, the symbol's own
   * token, then the second word's token, with the second word's text left in
   * the accumulator.
   */
  lemma SymbolBetweenWords(env: Env, w1: string, c: char, w2: string)
    requires IsWord(env, w1) && IsPlainSymbol(env, c) && IsWord(env, w2)
    ensures Run(env, w1 + [c] + w2, 0, "", []) ==
      ScanResult(Finished, if w2 == "" then "" else LexLiteral(env, w2).1,
        WordTokens(env, w1) + [env.tokenMap[[c]]] + WordTokens(env, w2))
  {
    var src := w1 + [c] + w2;
    var n := |w1|;
    var tokens := WordTokens(env, w1) + [env.tokenMap[[c]]];
    assert src[0..n] == w1 && src[n] == c && src[n + 1..|src|] == w2;
    calc {
      Run(env, src, 0, "", []);
      { WordSpan(env, src, 0, w1, "", []); assert "" + w1 == w1; }
      Run(env, src, n, w1, []);
      { RunPlainSymbol(env, src, n, w1, []); assert Flush(env, w1, []) == WordTokens(env, w1); }
      Run(env, src, n + 1, "", tokens);
      { WordSpan(env, src, n + 1, w2, "", tokens); assert "" + w2 == w2; }
      Run(env, src, |src|, w2, tokens);
    }
    RunAtEnd(env, src, w2, tokens);
  }

  /**
   * A `/` between two words that starts no comment: the divide token comes
   * first, the character after the `/` is dropped, and the two words make one
   * token, as if they had been written together.
   */
  lemma DivideBetweenWords(env: Env, w1: string, x: char, w2: string)
    requires IsDivide(env, '/') && IsWord(env, w1) && IsWord(env, w2)
    requires x != '/' && x != '*' && w2 != ""
    ensures Run(env, w1 + "/" + [x] + w2, 0, "", []) ==
      ScanResult(Finished, LexLiteral(env, w1 + w2).1, [env.tokenMap["/"], LexLiteral(env, w1 + w2).0])
  {
    var src := w1 + "/" + [x] + w2;
    var n := |w1|;
    var div := env.tokenMap["/"];
    assert src[0..n] == w1 && [src[n]] == "/" && src[n + 1] == x && src[n + 2..|src|] == w2;
    calc {
      Run(env, src, 0, "", []);
      { WordSpan(env, src, 0, w1, "", []); assert "" + w1 == w1; }
      Run(env, src, n, w1, []);
      { RunDivide(env, src, n, w1, []); assert [] + [div] == [div]; }
      Run(env, src, n + 2, w1, [div]);
      { WordSpan(env, src, n + 2, w2, w1, [div]); }
      Run(env, src, |src|, w1 + w2, [div]);
    }
    RunAtEnd(env, src, w1 + w2, [div]);
  }

  /** A `/` that is the last or second-to-last character emits nothing and
      drops whatever follows it. */
  lemma DivideNearEnd(env: Env, w: string, tail: string)
    requires IsDivide(env, '/') && IsWord(env, w) && |tail| <= 1
    ensures Run(env, w + "/" + tail, 0, "", []) ==
      ScanResult(Finished, if w == "" then "" else LexLiteral(env, w).1, WordTokens(env, w))
  {
    var src := w + "/" + tail;
    var n := |w|;
    assert src[0..n] == w && src[n] == '/';
    WordSpan(env, src, 0, w, "", []);
    assert "" + w == w;
    RunDivideNearEnd(env, src, n, w, []);
    assert Run(env, src, n + 2, w, []) == Run(env, src, |src|, w, []);
    RunAtEnd(env, src, w, []);
  }

  /** Tokens are only ever appended: a pass keeps every token it started with,
      also when it stops with an error or at a panic. */
  lemma {:induction false} RunAppendsOnly(env: Env, src: string, i: nat, acc: string, tokens: seq<Token>)
    ensures var r := Run(env, src, i, acc, tokens);
      |tokens| <= |r.tokens| && r.tokens[..|tokens|] == tokens
    decreases |src| - i
  {
    if i < |src| {
      var c := src[i];
      if Accumulates(env, c) {
        RunAccumulates(env, src, i, acc, tokens);
        RunAppendsOnly(env, src, i + 1, acc + [c], tokens);
      } else if IsPlainSymbol(env, c) {
        RunPlainSymbol(env, src, i, acc, tokens);
        var next := Flush(env, acc, tokens) + [env.tokenMap[[c]]];
        RunAppendsOnly(env, src, i + 1, "", next);
        assert next[..|tokens|] == tokens;
      } else if IsDivide(env, c) {
        if i + 2 < |src| {
          RunDivide(env, src, i, acc, tokens);
          if src[i + 1] == '/' {
            RunAppendsOnly(env, src, LineEnd(src, i + 2) + 1, acc, tokens);
          } else if src[i + 1] == '*' {
            if BlockEnd(src, i + 2).Some? {
              RunAppendsOnly(env, src, BlockEnd(src, i + 2).value + 1, acc, tokens);
            }
          } else {
            var next := tokens + [env.tokenMap[[c]]];
            RunAppendsOnly(env, src, i + 2, acc, next);
            assert next[..|tokens|] == tokens;
          }
        } else {
          RunDivideNearEnd(env, src, i, acc, tokens);
          RunAppendsOnly(env, src, i + 2, acc, tokens);
        }
      } else {
        assert IsQuote(env, c);
        RunQuote(env, src, i, acc, tokens);
        var t := env.tokenMap[[c]];
        var flushed := Flush(env, acc, tokens);
        assert flushed[..|tokens|] == tokens;
        match QuoteScan(src, i + 1, t.value.text)
        case None =>
        case Some((body, close)) =>
          var next := flushed + [QuotedToken(t.value.vtype, body)];
          RunAppendsOnly(env, src, close + 1, "", next);
          assert next[..|tokens|] == tokens;
      }
    }
  }

  /** Characters still to scan from `i`. */
  function Remaining(src: string, i: nat): nat
  {
    if i <= |src| then |src| - i else 0
  }

  /**
   * A pass appends at most one token per character still to scan, plus one
   * for a pending accumulator: every token consumes at least one character.
   */
  lemma {:induction false} RunTokenBound(env: Env, src: string, i: nat, acc: string, tokens: seq<Token>)
    ensures |Run(env, src, i, acc, tokens).tokens| <=
      |tokens| + Remaining(src, i) + (if acc == "" then 0 else 1)
    decreases |src| - i
  {
    if i < |src| {
      var c := src[i];
      if Accumulates(env, c) {
        RunAccumulates(env, src, i, acc, tokens);
        RunTokenBound(env, src, i + 1, acc + [c], tokens);
      } else if IsPlainSymbol(env, c) {
        RunPlainSymbol(env, src, i, acc, tokens);
        RunTokenBound(env, src, i + 1, "", Flush(env, acc, tokens) + [env.tokenMap[[c]]]);
      } else if IsDivide(env, c) {
        if i + 2 < |src| {
          RunDivide(env, src, i, acc, tokens);
          if src[i + 1] == '/' {
            RunTokenBound(env, src, LineEnd(src, i + 2) + 1, acc, tokens);
          } else if src[i + 1] == '*' {
            if BlockEnd(src, i + 2).Some? {
              RunTokenBound(env, src, BlockEnd(src, i + 2).value + 1, acc, tokens);
            }
          } else {
            RunTokenBound(env, src, i + 2, acc, tokens + [env.tokenMap[[c]]]);
          }
        } else {
          RunDivideNearEnd(env, src, i, acc, tokens);
          RunTokenBound(env, src, i + 2, acc, tokens);
        }
      } else {
        assert IsQuote(env, c);
        RunQuote(env, src, i, acc, tokens);
        var t := env.tokenMap[[c]];
        var flushed := Flush(env, acc, tokens);
        match QuoteScan(src, i + 1, t.value.text)
        case None =>
        case Some((body, close)) =>
          RunTokenBound(env, src, close + 1, "", flushed + [QuotedToken(t.value.vtype, body)]);
      }
    } else {
      assert Run(env, src, i, acc, tokens) == Run(env, src, |src|, acc, tokens);
      RunAtEnd(env, src, acc, tokens);
    }
  }

  /**
   * How a body can be written between delimiters `d`: a backslash must go
   * before every backslash and every `d`, and may go before any other
   * character, wherever `extra` says so.  The lexer interprets no escape
   * sequence, so a backslash before `n` still stands for the letter `n`.
   */
  function EscapeWith(s: string, d: char, extra: seq<bool>): string
    requires |extra| == |s|
  {
    if s == [] then []
    else
      (if s[0] == '\\' || s[0] == d || extra[0] then ['\\', s[0]] else [s[0]]) +
      EscapeWith(s[1..], d, extra[1..])
  }

  /** The quote loop reads back any escaped body and stops at the delimiter after it. */
  lemma {:induction false} QuoteScanEscaped(src: string, j: nat, s: string, d: char, extra: seq<bool>)
    requires d != '\\' && |extra| == |s|
    requires j + |EscapeWith(s, d, extra)| < |src|
    requires var e := EscapeWith(s, d, extra);
      src[j..j + |e|] == e && src[j + |e|] == d
    ensures QuoteScan(src, j, [d]) == Some((s, j + |EscapeWith(s, d, extra)|))
    decreases s
  {
    var e := EscapeWith(s, d, extra);
    if s != [] {
      var rest := EscapeWith(s[1..], d, extra[1..]);
      if s[0] == '\\' || s[0] == d || extra[0] {
        assert e == ['\\', s[0]] + rest;
        assert src[j] == e[0] && src[j + 1] == e[1];
        assert src[j + 2..j + 2 + |rest|] == e[2..];
        QuoteScanEscaped(src, j + 2, s[1..], d, extra[1..]);
      } else {
        assert e == [s[0]] + rest;
        assert src[j] == e[0];
        assert src[j + 1..j + 1 + |rest|] == e[1..];
        QuoteScanEscaped(src, j + 1, s[1..], d, extra[1..]);
      }
      assert [s[0]] + s[1..] == s;
    } else {
      assert src[j] == d;
    }
  }

  /**
   * Conversely, whatever the quote loop reads is the body it returns, escaped
   * in one of the ways `EscapeWith` allows: nothing else is dropped or changed.
   */
  lemma {:induction false} QuoteScanReadsEscaped(src: string, j: nat, d: char) returns (extra: seq<bool>)
    requires d != '\\' && j <= |src| && QuoteScan(src, j, [d]).Some?
    ensures var r := QuoteScan(src, j, [d]).value;
      |extra| == |r.0| && src[j..r.1] == EscapeWith(r.0, d, extra)
    decreases |src| - j
  {
    var r := QuoteScan(src, j, [d]).value;
    if [src[j]] == [d] {
      extra := [];
      assert src[j..r.1] == [];
    } else if src[j] == '\\' {
      var rest := QuoteScanReadsEscaped(src, j + 2, d);
      var r' := QuoteScan(src, j + 2, [d]).value;
      extra := [true] + rest;
      assert r.0 == [src[j + 1]] + r'.0 && r.1 == r'.1;
      assert r.0[1..] == r'.0 && extra[1..] == rest;
      assert src[j..r.1] == [src[j], src[j + 1]] + src[j + 2..r'.1];
    } else {
      var rest := QuoteScanReadsEscaped(src, j + 1, d);
      var r' := QuoteScan(src, j + 1, [d]).value;
      extra := [false] + rest;
      assert r.0 == [src[j]] + r'.0 && r.1 == r'.1;
      assert r.0[1..] == r'.0 && extra[1..] == rest;
      assert src[j..r.1] == [src[j]] + src[j + 1..r'.1];
    }
  }

  /**
   * A double-quoted literal: the accumulator is flushed and emptied, the
   * escaped body comes back as a string literal holding the body, and the
   * scan resumes after the closing quote.
   */
  lemma StringLiteral(env: Env, src: string, i: nat, acc: string, tokens: seq<Token>, s: string, extra: seq<bool>)
    requires i < |src| && [src[i]] in env.tokenMap
    requires env.tokenMap[[src[i]]].value.vtype == DoubleQuoteTag
    requires env.tokenMap[[src[i]]].value.text == [src[i]] && src[i] != '\\' && |extra| == |s|
    requires var e := EscapeWith(s, src[i], extra);
      i + 1 + |e| < |src| && src[i + 1..i + 1 + |e|] == e && src[i + 1 + |e|] == src[i]
    ensures var close := i + 1 + |EscapeWith(s, src[i], extra)|;
      Run(env, src, i, acc, tokens) ==
        Run(env, src, close + 1, "", Flush(env, acc, tokens) + [LiteralToken(StringType, Text(s), s)])
  {
    RunQuote(env, src, i, acc, tokens);
    QuoteScanEscaped(src, i + 1, s, src[i], extra);
  }

  /**
   * A single-quoted literal whose escaped body is longer than one byte stops
   * the pass with `CharLiteralTooLong`; the tokens appended up to the quote,
   * including the flushed accumulator, are kept.  An empty body or a body of
   * one ASCII character becomes a char literal.
   */
  lemma CharLiteral(env: Env, src: string, i: nat, acc: string, tokens: seq<Token>, s: string, extra: seq<bool>)
    requires i < |src| && [src[i]] in env.tokenMap
    requires env.tokenMap[[src[i]]].value.vtype == SingleQuoteTag
    requires env.tokenMap[[src[i]]].value.text == [src[i]] && src[i] != '\\' && |extra| == |s|
    requires var e := EscapeWith(s, src[i], extra);
      i + 1 + |e| < |src| && src[i + 1..i + 1 + |e|] == e && src[i + 1 + |e|] == src[i]
    ensures |s| > 1 || (|s| == 1 && s[0] as int >= 0x80) ==>
      Run(env, src, i, acc, tokens) == ScanResult(CharLiteralTooLong(s), "", Flush(env, acc, tokens))
    ensures |s| == 0 || (|s| == 1 && s[0] as int < 0x80) ==>
      Run(env, src, i, acc, tokens) ==
        Run(env, src, i + 1 + |EscapeWith(s, src[i], extra)| + 1, "", Flush(env, acc, tokens) + [LiteralToken(CharType, Text(s), s)])
  {
    RunQuote(env, src, i, acc, tokens);
    QuoteScanEscaped(src, i + 1, s, src[i], extra);
    MoreThanOneByte(s);
  }

  /** A quote with no closing delimiter after it makes the Go code index past
      the end. */
  lemma UnterminatedQuote(env: Env, src: string, i: nat, acc: string, tokens: seq<Token>)
    requires i < |src| && IsQuote(env, src[i])
    requires forall k :: i < k < |src| ==> src[k] != '\\' && [src[k]] != env.tokenMap[[src[i]]].value.text
    ensures Run(env, src, i, acc, tokens) == ScanResult(IndexOutOfRange, "", Flush(env, acc, tokens))
  {
    RunQuote(env, src, i, acc, tokens);
  }

  /** `//` skips up to the next newline and consumes it; nothing is emitted and
      the accumulator is untouched. */
  lemma LineComment(env: Env, src: string, i: nat, k: nat, acc: string, tokens: seq<Token>)
    requires i + 2 < |src| && IsDivide(env, src[i]) && src[i + 1] == '/'
    requires i + 2 <= k < |src| && src[k] == '\n'
    requires forall m :: i + 2 <= m < k ==> src[m] != '\n'
    ensures Run(env, src, i, acc, tokens) == Run(env, src, k + 1, acc, tokens)
  {
    RunDivide(env, src, i, acc, tokens);
    assert LineEnd(src, i + 2) == k;
  }

  /** `/*` skips past the first `*/` after it; nothing is emitted and the
      accumulator is untouched. */
  lemma BlockComment(env: Env, src: string, i: nat, k: nat, acc: string, tokens: seq<Token>)
    requires i + 2 < |src| && IsDivide(env, src[i]) && src[i + 1] == '*'
    requires i + 2 <= k && ClosesAt(src, k)
    requires forall m :: i + 2 <= m < k ==> !ClosesAt(src, m)
    ensures Run(env, src, i, acc, tokens) == Run(env, src, k + 2, acc, tokens)
  {
    RunDivide(env, src, i, acc, tokens);
  }

  /**
   * A block comment that is never closed swallows the rest of the text, unless
   * the text ends in `*`: then the Go code reads one past the end.
   */
  lemma UnclosedBlockComment(env: Env, src: string, i: nat, acc: string, tokens: seq<Token>)
    requires i + 2 < |src| && IsDivide(env, src[i]) && src[i + 1] == '*'
    requires forall m :: i + 2 <= m < |src| ==> !ClosesAt(src, m)
    ensures src[|src| - 1] != '*' ==>
      Run(env, src, i, acc, tokens) == Run(env, src, |src|, acc, tokens)
    ensures src[|src| - 1] == '*' ==>
      Run(env, src, i, acc, tokens) == ScanResult(IndexOutOfRange, acc, tokens)
  {
    RunDivide(env, src, i, acc, tokens);
    BlockEndUnclosed(src, i + 2);
  }

  lemma {:induction false} BlockEndUnclosed(src: string, j: nat)
    requires j <= |src|
    requires forall m :: j <= m < |src| ==> !ClosesAt(src, m)
    ensures |src| > j && src[|src| - 1] == '*' ==> BlockEnd(src, j) == None
    ensures |src| == j || src[|src| - 1] != '*' ==> BlockEnd(src, j) == Some(|src| + 1)
    decreases |src| - j
  {
    if j < |src| {
      if j + 1 < |src| {
        assert !ClosesAt(src, j);
        BlockEndUnclosed(src, j + 1);
      }
    }
  }
}
