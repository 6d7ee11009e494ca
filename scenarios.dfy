/**
 * Concrete inputs and what the lexer does with them, under a token map that
 * has the characters each scenario needs and none of its letters or digits.
 */
module Scenarios {
  import opened Wrappers
  import opened Utf8
  import opened Strconv
  import opened Token
  import opened Literal
  import opened Scanner
  import opened ScannerProperties

  /** `0x1A` is the integer 26; the token keeps the text as written and the
      accumulator is left holding `1A`. */
  lemma HexLiteral(env: Env)
    ensures LexLiteral(env, "0x1A") == (LiteralToken(IntType, Int(26), "0x1A"), "1A")
  {
    assert BaseOf("0x1A") == 16 && "0x1A"[2..] == "1A";
    assert ParseInt("1A", 16) == Some(26) by {
      assert "1A"[..1] == "1";
      assert "1"[..0] == "";
    }
  }

  /** Upper-case digits are accepted too: `0xFF` is the integer 255. */
  lemma UpperCaseHex(env: Env)
    ensures LexLiteral(env, "0xFF") == (LiteralToken(IntType, Int(255), "0xFF"), "FF")
  {
    assert "0xFF"[..2] == "0x" && "0xFF"[2..] == "FF";
    assert ParseInt("FF", 16) == Some(255) by {
      assert "FF"[..1] == "F";
      assert "F"[..0] == "";
    }
    IntStep(env, "0xFF", 255);
  }

  lemma BinaryLiteral(env: Env)
    ensures LexLiteral(env, "0b101") == (LiteralToken(IntType, Int(5), "0b101"), "101")
  {
    assert BaseOf("0b101") == 2 && "0b101"[2..] == "101";
    assert ParseInt("101", 2) == Some(5) by {
      assert "101"[..2] == "10";
      assert "10"[..1] == "1";
      assert "1"[..0] == "";
    }
  }

  lemma OctalLiteral(env: Env)
    ensures LexLiteral(env, "0o17") == (LiteralToken(IntType, Int(15), "0o17"), "17")
  {
    assert BaseOf("0o17") == 8 && "0o17"[2..] == "17";
    assert ParseInt("17", 8) == Some(15) by {
      assert "17"[..1] == "1";
      assert "1"[..0] == "";
    }
  }

  lemma DecimalLiteral42(env: Env)
    ensures LexLiteral(env, "42") == (LiteralToken(IntType, Int(42), "42"), "42")
  {
    assert BaseOf("42") == 10;
    assert ParseInt("42", 10) == Some(42) by {
      assert "42"[..1] == "4";
      assert "4"[..0] == "";
    }
  }

  /** The sign is read after the prefix: `0x-1A` is the integer -26. */
  lemma SignAfterPrefix(env: Env)
    ensures LexLiteral(env, "0x-1A") == (LiteralToken(IntType, Int(-26), "0x-1A"), "-1A")
  {
    assert BaseOf("0x-1A") == 16 && "0x-1A"[2..] == "-1A";
    assert ParseInt("-1A", 16) == Some(-26) by {
      assert "-1A"[1..] == "1A";
      assert "1A"[..1] == "1";
      assert "1"[..0] == "";
    }
  }

  /** `0x` alone is too short for a prefix: it is parsed in base 10, fails, and
      is left as it is. */
  lemma BarePrefix(env: Env)
    ensures BaseOf("0x") == 10 && ParseInt("0x", 10) == None
    ensures LexLiteral(env, "0x").1 == "0x"
  {
    assert !IsDigit("0x"[1], 10);
  }

  /** A malformed hexadecimal number becomes an identifier holding the text
      without its prefix. */
  lemma MalformedHex(env: Env)
    requires env.parseFloat("ZZ") == None && "ZZ" !in env.tokenMap
    ensures LexLiteral(env, "0xZZ") == (IdentToken("ZZ"), "ZZ")
  {
    assert BaseOf("0xZZ") == 16 && "0xZZ"[2..] == "ZZ";
    assert !AllDigits("ZZ", 16) by {
      assert !IsDigit("ZZ"[0], 16);
    }
  }

  /** A float written behind a hexadecimal prefix: `ParseFloat` sees `1.8`,
      while the token keeps `0x1.8` as its text. */
  lemma HexPrefixedFloat(env: Env)
    requires env.parseFloat("1.8").Some?
    ensures LexLiteral(env, "0x1.8") ==
      (LiteralToken(FloatType, Float(env.parseFloat("1.8").value), "0x1.8"), "1.8")
  {
    var text := "0x1.8";
    assert text[..2] == "0x" && text[2..] == "1.8";
    assert !IsDigit("1.8"[1], 16);
    FloatStep(env, text, env.parseFloat("1.8").value);
  }

  /** None of the given characters is a key of the token map. */
  predicate Unmapped(env: Env, chars: string)
  {
    forall k :: 0 <= k < |chars| ==> [chars[k]] !in env.tokenMap
  }

  /**
   * A block comment does not end the accumulated text: `1/*x*/2` is the one
   * integer 12, not 1 and 2.
   */
  lemma BlockCommentJoinsDigits(env: Env)
    requires IsDivide(env, '/') && Unmapped(env, "12x")
    ensures Run(env, "1/*x*/2", 0, "", []) ==
      ScanResult(Finished, "12", [LiteralToken(IntType, Int(12), "12")])
  {
    var src := "1/*x*/2";
    assert [src[0]] !in env.tokenMap && [src[6]] !in env.tokenMap by {
      assert "12x"[0] == src[0] && "12x"[1] == src[6];
    }
    assert ClosesAt(src, 4) && !ClosesAt(src, 3);
    assert LexLiteral(env, "12") == (LiteralToken(IntType, Int(12), "12"), "12") by {
      assert ParseInt("12", 10) == Some(12) by {
        assert "12"[..1] == "1";
        assert "1"[..0] == "";
      }
    }
    calc {
      Run(env, src, 0, "", []);
      { RunAccumulates(env, src, 0, "", []); assert "" + [src[0]] == "1"; }
      Run(env, src, 1, "1", []);
      { BlockComment(env, src, 1, 4, "1", []); }
      Run(env, src, 6, "1", []);
      { RunAccumulates(env, src, 6, "1", []); assert "1" + [src[6]] == "12"; }
      Run(env, src, 7, "12", []);
      { RunAtEnd(env, src, "12", []); }
      ScanResult(Finished, "12", [LiteralToken(IntType, Int(12), "12")]);
    }
  }

  /**
   * A space in the map is emitted as a token; a `//` comment is dropped with
   * the newline that ends it.
   */
  lemma LineCommentAndSpace(env: Env)
    requires IsDivide(env, '/') && IsPlainSymbol(env, ' ') && Unmapped(env, "12c")
    ensures Run(env, "1 // c\n2", 0, "", []) ==
      ScanResult(Finished, "2",
        [LiteralToken(IntType, Int(1), "1"), env.tokenMap[" "], LiteralToken(IntType, Int(2), "2")])
  {
    var src := "1 // c\n2";
    var afterSpace := [LiteralToken(IntType, Int(1), "1"), env.tokenMap[" "]];
    OneThenSpace(env, src);
    CommentThenTwo(env, src, afterSpace);
  }

  lemma OneThenSpace(env: Env, src: string)
    requires src == "1 // c\n2"
    requires IsPlainSymbol(env, ' ') && Unmapped(env, "12c")
    ensures Run(env, src, 0, "", []) ==
      Run(env, src, 2, "", [LiteralToken(IntType, Int(1), "1"), env.tokenMap[" "]])
  {
    assert [src[0]] !in env.tokenMap by {
      assert "12c"[0] == src[0];
    }
    assert LexLiteral(env, "1") == (LiteralToken(IntType, Int(1), "1"), "1") by {
      assert ParseInt("1", 10) == Some(1) by {
        assert "1"[..0] == "";
      }
    }
    calc {
      Run(env, src, 0, "", []);
      { RunAccumulates(env, src, 0, "", []); assert "" + [src[0]] == "1"; }
      Run(env, src, 1, "1", []);
      { RunPlainSymbol(env, src, 1, "1", []); assert [src[1]] == " "; }
      Run(env, src, 2, "", Flush(env, "1", []) + [env.tokenMap[" "]]);
    }
    assert Flush(env, "1", []) + [env.tokenMap[" "]] ==
      [LiteralToken(IntType, Int(1), "1"), env.tokenMap[" "]];
  }

  lemma CommentThenTwo(env: Env, src: string, tokens: seq<Token>)
    requires src == "1 // c\n2"
    requires IsDivide(env, '/') && Unmapped(env, "12c")
    ensures Run(env, src, 2, "", tokens) ==
      ScanResult(Finished, "2", tokens + [LiteralToken(IntType, Int(2), "2")])
  {
    assert [src[7]] !in env.tokenMap by {
      assert "12c"[1] == src[7];
    }
    assert LexLiteral(env, "2") == (LiteralToken(IntType, Int(2), "2"), "2") by {
      assert ParseInt("2", 10) == Some(2) by {
        assert "2"[..0] == "";
      }
    }
    assert src[6] == '\n' && src[4] != '\n' && src[5] != '\n';
    assert LineEnd(src, 4) == 6;
    LineComment(env, src, 2, 6, "", tokens);
    RunAccumulates(env, src, 7, "", tokens);
    assert "" + [src[7]] == "2";
    RunAtEnd(env, src, "2", tokens);
  }

  /**
   * A `/` that starts no comment emits the divide token at once, ahead of the
   * still-pending accumulator, and drops the character after it: `a/bc` gives
   * the divide token, then the identifier `ac`.
   */
  lemma DivideSkipsNext(env: Env)
    requires IsDivide(env, '/') && Unmapped(env, "abc")
    requires env.parseFloat("ac") == None && "ac" !in env.tokenMap
    ensures Run(env, "a/bc", 0, "", []) ==
      ScanResult(Finished, "ac", [env.tokenMap["/"], IdentToken("ac")])
  {
    var src := "a/bc";
    assert [src[0]] !in env.tokenMap && [src[3]] !in env.tokenMap by {
      assert "abc"[0] == src[0] && "abc"[2] == src[3];
    }
    assert LexLiteral(env, "ac") == (IdentToken("ac"), "ac") by {
      assert !IsDigit("ac"[0], 10);
    }
    var div := env.tokenMap["/"];
    calc {
      Run(env, src, 0, "", []);
      { RunAccumulates(env, src, 0, "", []); assert "" + [src[0]] == "a"; }
      Run(env, src, 1, "a", []);
      { RunDivide(env, src, 1, "a", []); }
      Run(env, src, 3, "a", [div]);
      { RunAccumulates(env, src, 3, "a", [div]); assert "a" + [src[3]] == "ac"; }
      Run(env, src, 4, "ac", [div]);
      { RunAtEnd(env, src, "ac", [div]); }
      ScanResult(Finished, "ac", [div, IdentToken("ac")]);
    }
  }

  /** `''` passes the length check and becomes the empty char literal. */
  lemma EmptyCharLiteral(env: Env)
    requires "'" in env.tokenMap && env.tokenMap["'"].value.vtype == SingleQuoteTag
    requires env.tokenMap["'"].value.text == "'"
    ensures Run(env, "''", 0, "", []) ==
      ScanResult(Finished, "", [LiteralToken(CharType, Text(""), "")])
  {
    var src := "''";
    assert QuoteScan(src, 1, "'") == Some(("", 1));
    RunQuote(env, src, 0, "", []);
    RunAtEnd(env, src, "", [LiteralToken(CharType, Text(""), "")]);
  }

  /** A backslash is dropped and the character after it kept as it is: the
      body backslash-n is the one-letter string `n`, not a newline. */
  lemma BackslashLetter(env: Env)
    requires "\"" in env.tokenMap && env.tokenMap["\""].value.vtype == DoubleQuoteTag
    requires env.tokenMap["\""].value.text == "\""
    ensures Run(env, "\"\\n\"", 0, "", []) ==
      ScanResult(Finished, "", [LiteralToken(StringType, Text("n"), "n")])
  {
    var src := "\"\\n\"";
    assert EscapeWith("n", '"', [true]) == "\\n";
    assert src[1..3] == "\\n";
    StringLiteral(env, src, 0, "", [], "n", [true]);
    RunAtEnd(env, src, "", [LiteralToken(StringType, Text("n"), "n")]);
  }

  /** `'ab'` stops the pass with the char-literal error. */
  lemma TwoCharLiteral(env: Env)
    requires "'" in env.tokenMap && env.tokenMap["'"].value.vtype == SingleQuoteTag
    requires env.tokenMap["'"].value.text == "'"
    ensures Run(env, "'ab'", 0, "", []) == ScanResult(CharLiteralTooLong("ab"), "", [])
  {
    var src := "'ab'";
    assert QuoteScan(src, 3, "'") == Some(("", 3));
    assert [src[2]] != "'" && src[2] != '\\' && ['b'] + "" == "b";
    assert QuoteScan(src, 2, "'") == Some(("b", 3));
    assert [src[1]] != "'" && src[1] != '\\' && ['a'] + "b" == "ab";
    assert QuoteScan(src, 1, "'") == Some(("ab", 3));
    MoreThanOneByte("ab");
    RunQuote(env, src, 0, "", []);
  }
}
