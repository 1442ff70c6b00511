/**
 * The string operations of Python's `str` that the parser and the checker use:
 * `strip`, `lstrip`, `rstrip`, `split()`, `startswith`, `isdigit`, `int`, slicing
 * for display truncation, and `"\n".join`.
 */
module Text {

  /** The ellipsis character appended to truncated display texts. */
  const Ellipsis: char := '\U{2026}'

  /** The characters Python's `str.isspace` accepts, which `strip` and `split()` remove. */
  predicate IsSpace(c: char) {
    var n := c as int;
    (9 <= n <= 13) || (28 <= n <= 32) || n == 0x85 || n == 0xA0 || n == 0x1680
    || (0x2000 <= n <= 0x200A) || n == 0x2028 || n == 0x2029 || n == 0x202F
    || n == 0x205F || n == 0x3000
  }

  predicate AllSpace(s: string) {
    forall i :: 0 <= i < |s| ==> IsSpace(s[i])
  }

  predicate IsDigit(c: char) {
    '0' <= c <= '9'
  }

  /** `s.isdigit()`: non-empty and made of digits only. */
  predicate IsDigits(s: string) {
    |s| > 0 && forall i :: 0 <= i < |s| ==> IsDigit(s[i])
  }

  predicate StartsWith(s: string, prefix: string) {
    |prefix| <= |s| && s[..|prefix|] == prefix
  }

  /** The index of the first non-whitespace character at or after `i`, or `|s|`. */
  function SkipSpace(s: string, i: nat): (j: nat)
    requires i <= |s|
    ensures i <= j <= |s|
    ensures forall k :: i <= k < j ==> IsSpace(s[k])
    ensures j == |s| || !IsSpace(s[j])
    decreases |s| - i
  {
    if i < |s| && IsSpace(s[i]) then SkipSpace(s, i + 1) else i
  }

  /** The index just after the last non-whitespace character before `j`, or 0. */
  function SkipSpaceBack(s: string, j: nat): (i: nat)
    requires j <= |s|
    ensures i <= j
    ensures forall k :: i <= k < j ==> IsSpace(s[k])
    ensures i == 0 || !IsSpace(s[i - 1])
  {
    if j > 0 && IsSpace(s[j - 1]) then SkipSpaceBack(s, j - 1) else j
  }

  /** `s.lstrip()`: the suffix left after the leading whitespace. */
  function LStrip(s: string): string {
    s[SkipSpace(s, 0)..]
  }

  /** `s.rstrip()`: the prefix left before the trailing whitespace. */
  function RStrip(s: string): string {
    s[..SkipSpaceBack(s, |s|)]
  }

  /** What `lstrip` removes is whitespace, and what it keeps does not start with whitespace. */
  lemma LStripSpace(s: string)
    ensures |LStrip(s)| <= |s| && LStrip(s) == s[|s| - |LStrip(s)|..]
    ensures forall i :: 0 <= i < |s| - |LStrip(s)| ==> IsSpace(s[i])
    ensures LStrip(s) == [] || !IsSpace(LStrip(s)[0])
  {
  }

  /** What `rstrip` removes is whitespace, and what it keeps does not end with whitespace. */
  lemma RStripSpace(s: string)
    ensures |RStrip(s)| <= |s| && RStrip(s) == s[..|RStrip(s)|]
    ensures forall i :: |RStrip(s)| <= i < |s| ==> IsSpace(s[i])
    ensures RStrip(s) == [] || !IsSpace(RStrip(s)[|RStrip(s)| - 1])
  {
  }

  /** `s.strip()`. */
  function Strip(s: string): string {
    RStrip(LStrip(s))
  }

  /** `s.strip() == ""`. */
  predicate IsBlank(s: string) {
    Strip(s) == []
  }

  /** A paragraph is blank exactly when it consists of whitespace only. */
  lemma BlankIffAllSpace(s: string)
    ensures IsBlank(s) <==> AllSpace(s)
  {
    LStripSpace(s);
    RStripSpace(LStrip(s));
  }

  /** Stripping a stripped text changes nothing, so heading texts are stored stripped. */
  lemma StripIdempotent(s: string)
    ensures Strip(Strip(s)) == Strip(s)
  {
    var l := LStrip(s);
    var r := RStrip(l);
    LStripSpace(s);
    RStripSpace(l);
    if r != [] {
      assert r[0] == l[0];
      assert LStrip(r) == r;
    }
  }

  lemma StartsWithConcat(a: string, b: string)
    ensures StartsWith(a + b, a)
  {
    assert (a + b)[..|a|] == a;
  }

  /** `s[:n] + ("…" if len(s) > n else "")`: the display form of a text limited to `n` characters. */
  function Truncate(s: string, n: nat): (r: string)
    ensures |s| <= n ==> r == s
    ensures |s| > n ==> |r| == n + 1 && r[..n] == s[..n] && r[n] == Ellipsis
  {
    if |s| > n then s[..n] + [Ellipsis] else s
  }

  /** `"\n".join(lines)`. */
  function JoinLines(lines: seq<string>): string {
    if |lines| == 0 then ""
    else if |lines| == 1 then lines[0]
    else lines[0] + "\n" + JoinLines(lines[1..])
  }

  /** `int(s)` for a string of decimal digits. */
  function DecimalValue(s: string): nat
    requires forall i :: 0 <= i < |s| ==> IsDigit(s[i])
  {
    if s == [] then 0
    else
      assert IsDigit(s[|s| - 1]);
      10 * DecimalValue(s[..|s| - 1]) + (s[|s| - 1] as int - '0' as int)
  }

  function DigitChar(d: nat): (c: char)
    requires d < 10
    ensures IsDigit(c) && c as int - '0' as int == d
  {
    ('0' as int + d) as char
  }

  /** `str(n)` for a natural number: the decimal digits without leading zeros. */
  function NatToString(n: nat): (s: string)
    ensures IsDigits(s)
    ensures s[0] == '0' ==> n == 0
  {
    if n < 10 then [DigitChar(n)] else NatToString(n / 10) + [DigitChar(n % 10)]
  }

  /** `int(str(n)) == n`. */
  lemma {:induction false} DecimalRoundTrip(n: nat)
    ensures DecimalValue(NatToString(n)) == n
  {
    if n >= 10 {
      var s := NatToString(n);
      assert s[..|s| - 1] == NatToString(n / 10);
      DecimalRoundTrip(n / 10);
    }
  }

  /**
   * A numeral followed by a non-digit can be read back. The numeral ends at the first
   * non-digit, so the number and what follows it are both determined.
   */
  lemma NumeralPrefix(n: nat, x: string, m: nat, y: string)
    requires x != [] && !IsDigit(x[0]) && y != [] && !IsDigit(y[0])
    requires NatToString(n) + x == NatToString(m) + y
    ensures n == m && x == y
  {
    var a, b := NatToString(n), NatToString(m);
    var s := a + x;
    assert a == s[..|a|] && b == s[..|b|];
    assert x == s[|a|..] && y == s[|b|..];
    DecimalRoundTrip(n);
    DecimalRoundTrip(m);
  }

  /** The index of the first whitespace character at or after `i`, or `|s|`: where the word starting at `i` ends. */
  function SkipWord(s: string, i: nat): (j: nat)
    requires i <= |s|
    ensures i <= j <= |s|
    ensures forall k :: i <= k < j ==> !IsSpace(s[k])
    ensures j == |s| || IsSpace(s[j])
    decreases |s| - i
  {
    if i < |s| && !IsSpace(s[i]) then SkipWord(s, i + 1) else i
  }

  /** The words of `s` from index `i` on. */
  function WordsFrom(s: string, i: nat): seq<string>
    requires i <= |s|
    decreases |s| - i
  {
    var start := SkipSpace(s, i);
    if start == |s| then []
    else
      var end := SkipWord(s, start);
      [s[start..end]] + WordsFrom(s, end)
  }

  /** `s.split()`: the maximal runs of non-whitespace characters, in order. */
  function Words(s: string): seq<string> {
    WordsFrom(s, 0)
  }

  /** Every word is a non-empty run of non-whitespace characters. */
  lemma {:induction false} WordsAreWords(s: string, i: nat)
    requires i <= |s|
    ensures forall w :: w in WordsFrom(s, i) ==> w != [] && forall k :: 0 <= k < |w| ==> !IsSpace(w[k])
    decreases |s| - i
  {
    var start := SkipSpace(s, i);
    if start < |s| {
      WordsAreWords(s, SkipWord(s, start));
    }
  }

  /** A word, one space and a second word split into exactly those two words. */
  lemma WordsOfTwo(a: string, b: string)
    requires a != [] && b != []
    requires forall i :: 0 <= i < |a| ==> !IsSpace(a[i])
    requires forall i :: 0 <= i < |b| ==> !IsSpace(b[i])
    ensures Words(a + " " + b) == [a, b]
  {
    var s := a + " " + b;
    var n := |a|;
    assert s[0] == a[0];
    assert SkipSpace(s, 0) == 0;
    assert forall k :: 0 <= k < n ==> s[k] == a[k];
    assert IsSpace(s[n]);
    assert SkipWord(s, 0) == n;
    assert s[0..n] == a;
    assert s[n + 1] == b[0];
    assert SkipSpace(s, n) == n + 1;
    assert forall k :: n + 1 <= k < |s| ==> s[k] == b[k - n - 1];
    assert SkipWord(s, n + 1) == |s|;
    assert s[n + 1..|s|] == b;
    assert SkipSpace(s, |s|) == |s|;
    assert WordsFrom(s, |s|) == [];
    assert WordsFrom(s, n) == [b];
    assert WordsFrom(s, 0) == [a] + WordsFrom(s, n);
  }
}
