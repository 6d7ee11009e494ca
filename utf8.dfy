/**
 * Go's `len` on a string counts UTF-8 bytes, not characters.  The lexer
 * compares such lengths at two places, so the model counts bytes explicitly.
 */
module Utf8 {

  /** Number of bytes UTF-8 uses to encode one Unicode scalar value. */
  function CharBytes(c: char): (n: nat)
    ensures 1 <= n <= 4
    ensures n == 1 <==> c as int < 0x80
  {
    if c as int < 0x80 then 1
    else if c as int < 0x800 then 2
    else if c as int < 0x10000 then 3
    else 4
  }

  /** `len(s)` for a Go string holding the characters of `s`. */
  function ByteLen(s: string): nat
  {
    if s == [] then 0 else CharBytes(s[0]) + ByteLen(s[1..])
  }

  predicate IsAscii(s: string)
  {
    forall i :: 0 <= i < |s| ==> s[i] as int < 0x80
  }

  /** A string never has fewer bytes than characters, and has exactly as many
      precisely when it is ASCII. */
  lemma {:induction false} ByteLenBounds(s: string)
    ensures ByteLen(s) >= |s|
    ensures ByteLen(s) == |s| <==> IsAscii(s)
  {
    if s != [] {
      ByteLenBounds(s[1..]);
      assert IsAscii(s) <==> s[0] as int < 0x80 && IsAscii(s[1..]) by {
        if s[0] as int < 0x80 && IsAscii(s[1..]) {
          forall i | 0 <= i < |s| ensures s[i] as int < 0x80 {
            if i > 0 { assert s[i] == s[1..][i - 1]; }
          }
        }
        if IsAscii(s) {
          forall i | 0 <= i < |s| - 1 ensures s[1..][i] as int < 0x80 {
            assert s[1..][i] == s[i + 1];
          }
        }
      }
    }
  }

  /** A text is longer than one byte exactly when it has two or more characters,
      or a single character outside ASCII. */
  lemma MoreThanOneByte(s: string)
    ensures ByteLen(s) > 1 <==> |s| > 1 || (|s| == 1 && s[0] as int >= 0x80)
  {
    ByteLenBounds(s);
    if |s| == 1 {
      assert s[1..] == [];
    }
  }
}
