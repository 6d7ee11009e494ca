/**
 * `LexLiteral`: classifies the accumulated text as a boolean, integer or
 * float literal, a keyword from the token map, or an identifier.  The Go
 * method also writes the text back into the lexer's accumulator with any
 * base prefix removed; the function returns that new accumulator beside the
 * token.
 */
module Literal {
  import opened Wrappers
  import opened Utf8
  import opened Strconv
  import opened Token

  /**
   * The base the first two bytes select.  A prefix is only looked at when the
   * text is longer than two bytes.  (`|acc| >= 2` is implied once `acc[0]` is
   * the one-byte `0`; Dafny needs it to index `acc[1]`.)
   */
  function BaseOf(acc: string): (base: nat)
    ensures base == 2 || base == 8 || base == 10 || base == 16
    ensures base != 10 ==> |acc| >= 2 && acc[..2] == Prefix(base)
  {
    if ByteLen(acc) > 2 && |acc| >= 2 && acc[0] == '0' then
      if acc[1] == 'b' then 2
      else if acc[1] == 'o' then 8
      else if acc[1] == 'x' then 16
      else 10
    else 10
  }

  /** The base prefixes, each two characters long. */
  function Prefix(base: nat): string
  {
    if base == 2 then "0b" else if base == 8 then "0o" else "0x"
  }

  /** Result of classifying `acc`: the token and the accumulator afterwards. */
  function LexLiteral(env: Env, acc: string): (r: (Token, string))
    ensures r.1 == acc || acc == Prefix(BaseOf(acc)) + r.1
    ensures r.0.kind == Ident && r.0 !in env.tokenMap.Values ==> r.0 == IdentToken(r.1)
  {
    if acc == "false" then
      (LiteralToken(BoolType, Bool(false), acc), acc)
    else if acc == "true" then
      (LiteralToken(BoolType, Bool(true), acc), acc)
    else
      var base := BaseOf(acc);
      var s := if base != 10 then acc[2..] else acc;
      match ParseInt(s, base)
      case Some(v) => (LiteralToken(IntType, Int(v), acc), s)
      case None =>
        match env.parseFloat(s)
        case Some(f) => (LiteralToken(FloatType, Float(f), acc), s)
        case None =>
          if s in env.tokenMap then (env.tokenMap[s], s) else (IdentToken(s), s)
  }

  /** In character terms: the text starts with `0b`, `0o` or `0x` and has at
      least one more character. */
  predicate HasPrefix(acc: string)
  {
    |acc| > 2 && acc[..2] in {"0b", "0o", "0x"}
  }

  /** The text without a prefix `HasPrefix` recognises. */
  function Unprefixed(acc: string): string
  {
    if HasPrefix(acc) then acc[2..] else acc
  }

  /** The base the character after the leading `0` names, 10 without a prefix. */
  function PrefixBase(acc: string): nat
  {
    if !HasPrefix(acc) then 10
    else if acc[1] == 'b' then 2
    else if acc[1] == 'o' then 8
    else 16
  }

  /** The byte-length test selects a base exactly when `HasPrefix` holds, and
      then the base its second character names. */
  lemma BaseOfPrefix(acc: string)
    ensures BaseOf(acc) != 10 <==> HasPrefix(acc)
    ensures BaseOf(acc) == PrefixBase(acc)
    ensures BaseOf(acc) != 10 ==> acc[..2] == Prefix(BaseOf(acc))
  {
    ByteLenBounds(acc);
    if |acc| == 2 && acc[0] == '0' && acc[1] in "box" {
      assert acc[1..][1..] == [];
    }
    if |acc| >= 2 {
      assert acc[..2] == [acc[0], acc[1]];
    }
  }

  /** The accumulator written back is the text with its base prefix removed,
      and the text itself otherwise. */
  lemma LexLiteralWritesBack(env: Env, acc: string)
    ensures LexLiteral(env, acc).1 == Unprefixed(acc)
  {
    BaseOfPrefix(acc);
  }

  /** `true` and `false` become boolean literals that keep their text. */
  lemma LexLiteralBool(env: Env)
    ensures LexLiteral(env, "true") == (LiteralToken(BoolType, Bool(true), "true"), "true")
    ensures LexLiteral(env, "false") == (LiteralToken(BoolType, Bool(false), "false"), "false")
  {
  }

  /** Every 64-bit value written in decimal comes back as that integer literal. */
  lemma DecimalLiteral(env: Env, v: int)
    requires MinInt64 <= v <= MaxInt64
    ensures var text := FormatInt(v, 10);
      LexLiteral(env, text) == (LiteralToken(IntType, Int(v), text), text)
  {
    var text := FormatInt(v, 10);
    FormatIntRoundTrip(v, 10);
    BaseOfPrefix(text);
    if |text| > 2 {
      assert IsDigit(text[1], 10) by {
        if v < 0 {
          assert text[1..] == FormatNat(-v, 10);
          assert text[1] == text[1..][0];
        }
      }
      assert text[..2][1] == text[1];
    }
    assert text != "true" && text != "false" by {
      if v < 0 {
        assert text[0] == '-';
      } else {
        assert IsDigit(text[0], 10);
      }
    }
  }

  /**
   * Every 64-bit value written in base 2, 8 or 16 behind its prefix comes back
   * as that integer literal; the token keeps the whole text while the
   * accumulator is left holding the digits.  A sign goes after the prefix.
   */
  lemma PrefixedLiteral(env: Env, v: int, base: nat)
    requires base == 2 || base == 8 || base == 16
    requires MinInt64 <= v <= MaxInt64
    ensures var text := Prefix(base) + FormatInt(v, base);
      LexLiteral(env, text) == (LiteralToken(IntType, Int(v), text), FormatInt(v, base))
  {
    var digits := FormatInt(v, base);
    var text := Prefix(base) + digits;
    FormatIntRoundTrip(v, base);
    BaseOfPrefix(text);
    assert text[..2] == Prefix(base);
    assert text[2..] == digits;
    assert digits != [] by {
      if v >= 0 {
        assert digits == FormatNat(v, base);
      }
    }
  }

  /**
   * Any text `ParseInt` accepts once its prefix is stripped, in whatever
   * spelling (`0xFF`, `007`, `0x00ff`, `+5`), becomes that integer literal;
   * the token keeps the text as written and the accumulator the stripped text.
   */
  lemma IntStep(env: Env, acc: string, v: int)
    requires acc != "true" && acc != "false"
    requires ParseInt(Unprefixed(acc), PrefixBase(acc)) == Some(v)
    ensures LexLiteral(env, acc) == (LiteralToken(IntType, Int(v), acc), Unprefixed(acc))
  {
    BaseOfPrefix(acc);
  }

  /**
   * When the prefix-stripped text is no integer of the base the prefix names
   * but `ParseFloat` accepts it, the token is a float literal that keeps the
   * text as written, prefix included: `0x1.8` is the float `1.8`.
   */
  lemma FloatStep(env: Env, acc: string, f: bv64)
    requires acc != "true" && acc != "false"
    requires ParseInt(Unprefixed(acc), PrefixBase(acc)) == None
    requires env.parseFloat(Unprefixed(acc)) == Some(f)
    ensures LexLiteral(env, acc) == (LiteralToken(FloatType, Float(f), acc), Unprefixed(acc))
  {
    BaseOfPrefix(acc);
  }

  /**
   * When the text is no number, the keyword lookup and the identifier
   * fallback see the prefix-stripped text: `0xZZ` becomes the identifier `ZZ`.
   */
  lemma StrippedFallback(env: Env, acc: string)
    requires acc != "true" && acc != "false"
    requires ParseInt(Unprefixed(acc), PrefixBase(acc)) == None
    requires env.parseFloat(Unprefixed(acc)) == None
    ensures var s := Unprefixed(acc);
      LexLiteral(env, acc) == (if s in env.tokenMap then env.tokenMap[s] else IdentToken(s), s)
  {
    BaseOfPrefix(acc);
  }
}
