/**
 * Character classes and string helpers shared by the three matching passes:
 * ASCII letters, the word characters of a regular-expression `\b`, ASCII case
 * folding for case-insensitive matching, and the word count of Python's
 * `str.split()` with no separator.
 */
module Text {

  predicate IsUpper(c: char) { 'A' <= c <= 'Z' }

  predicate IsLower(c: char) { 'a' <= c <= 'z' }

  predicate IsDigit(c: char) { '0' <= c <= '9' }

  /** A word character of `\b` (letters, digits and underscore; ASCII only). */
  predicate IsWordChar(c: char) { IsUpper(c) || IsLower(c) || IsDigit(c) || c == '_' }

  /** `\b` at offset `i`: exactly one of the characters around `i` is a word character. */
  predicate AtBoundary(s: string, i: int)
    requires 0 <= i <= |s|
  {
    (0 < i && IsWordChar(s[i - 1])) != (i < |s| && IsWordChar(s[i]))
  }

  /** ASCII case folding, the model of `re.IGNORECASE`. */
  function ToLower(c: char): char
  {
    if IsUpper(c) then (c as int + 32) as char else c
  }

  /** `a` and `b` are equal once both are folded to lower case. */
  predicate EqualsIgnoreCase(a: string, b: string)
  {
    |a| == |b| && forall k | 0 <= k < |a| :: ToLower(a[k]) == ToLower(b[k])
  }

  lemma EqualsIgnoreCaseSymmetric(a: string, b: string)
    requires EqualsIgnoreCase(a, b)
    ensures EqualsIgnoreCase(b, a)
  {
  }

  lemma EqualsIgnoreCaseTransitive(a: string, b: string, c: string)
    requires EqualsIgnoreCase(a, b) && EqualsIgnoreCase(b, c)
    ensures EqualsIgnoreCase(a, c)
  {
  }

  /** A witness that two strings differ ignoring case: different lengths or a mismatch at `k`. */
  lemma DifferIgnoringCase(a: string, b: string, k: nat)
    requires |a| != |b| || (k < |a| && k < |b| && ToLower(a[k]) != ToLower(b[k]))
    ensures !EqualsIgnoreCase(a, b)
  {
  }

  /** The characters Python's `str.isspace()` accepts. */
  predicate IsWhitespace(c: char)
  {
    var n := c as int;
    || 0x09 <= n <= 0x0D || 0x1C <= n <= 0x20 || n == 0x85 || n == 0xA0 || n == 0x1680
    || 0x2000 <= n <= 0x200A || n == 0x2028 || n == 0x2029 || n == 0x202F || n == 0x205F
    || n == 0x3000
  }

  /** Offset `k` starts a word of `str.split()`: a non-space after a space or at the start. */
  predicate StartsWord(s: string, k: int)
    requires 0 <= k < |s|
  {
    !IsWhitespace(s[k]) && (k == 0 || IsWhitespace(s[k - 1]))
  }

  /** `len(s.split())`: the number of maximal runs of non-whitespace characters. */
  function WordCount(s: string): (n: nat)
    ensures n <= |s|
    ensures n == 0 <==> forall k | 0 <= k < |s| :: IsWhitespace(s[k])
  {
    if |s| == 0 then 0
    else WordCount(s[..|s| - 1]) + (if StartsWord(s, |s| - 1) then 1 else 0)
  }

  /** The number of space characters in `s`. */
  function SpaceCount(s: string): (n: nat)
    ensures n <= |s|
  {
    if |s| == 0 then 0
    else SpaceCount(s[..|s| - 1]) + (if s[|s| - 1] == ' ' then 1 else 0)
  }

  /** Dropping characters at the end of a text never adds a word. */
  lemma {:induction false} WordCountPrefix(t: string, n: nat)
    requires n <= |t|
    ensures WordCount(t[..n]) <= WordCount(t)
    decreases |t| - n
  {
    if n < |t| {
      WordCountPrefix(t[..|t| - 1], n);
      assert t[..|t| - 1][..n] == t[..n];
    } else {
      assert t[..n] == t;
    }
  }

  /** Putting text that ends in whitespace in front of `b` never removes a word of `b`. */
  lemma {:induction false} WordCountSuffix(a: string, b: string)
    requires |a| == 0 || IsWhitespace(a[|a| - 1])
    ensures WordCount(b) <= WordCount(a + b)
  {
    if |b| > 0 {
      var b0 := b[..|b| - 1];
      WordCountSuffix(a, b0);
      assert (a + b)[..|a + b| - 1] == a + b0;
      assert (a + b)[|a + b| - 1] == b[|b| - 1];
      if |b| > 1 {
        assert (a + b)[|a + b| - 2] == b[|b| - 2];
      }
    }
  }

  /** The words of `s[i..f]`, where a space precedes `i`, are among the words of any `s[j..g]` around it. */
  lemma WordCountWithin(s: string, j: nat, i: nat, f: nat, g: nat)
    requires j < i <= f <= g <= |s| && IsWhitespace(s[i - 1])
    ensures WordCount(s[i..f]) <= WordCount(s[j..g])
  {
    WordCountPrefix(s[j..g], f - j);
    assert s[j..g][..f - j] == s[j..f];
    assert s[j..f] == s[j..i] + s[i..f];
    WordCountSuffix(s[j..i], s[i..f]);
  }
}
