/**
 * The PHP string built-ins the plugin leans on (intval, empty, stripos, strcmp-style
 * comparison), over ASCII text, as PHP 8 defines them.
 */
module PhpText {
  import opened Wrappers

  predicate IsDigit(c: char) { '0' <= c <= '9' }

  /** The characters PCRE's \s and PHP's intval skip: space, \t, \n, \v, \f, \r. */
  predicate IsSpace(c: char) {
    c == ' ' || c == '\t' || c == '\n' || c == '\r' || c as int == 11 || c as int == 12
  }

  /** PCRE's \w in non-UTF mode: ASCII letters, digits and underscore. */
  predicate IsWordChar(c: char) {
    IsDigit(c) || ('a' <= c <= 'z') || ('A' <= c <= 'Z') || c == '_'
  }

  predicate AllDigits(s: string) { forall i :: 0 <= i < |s| ==> IsDigit(s[i]) }

  predicate AllSpace(s: string) { forall i :: 0 <= i < |s| ==> IsSpace(s[i]) }

  function LowerChar(c: char): char {
    if 'A' <= c <= 'Z' then (c as int + 32) as char else c
  }

  /** strtolower on ASCII letters; every other character is kept. */
  function Lower(s: string): (r: string)
    ensures |r| == |s|
    ensures forall i :: 0 <= i < |s| ==> r[i] == LowerChar(s[i])
  {
    seq(|s|, i requires 0 <= i < |s| => LowerChar(s[i]))
  }

  /** PHP's empty() on a string: true for "" and for "0". */
  predicate IsEmpty(s: string) { s == "" || s == "0" }

  /** True when `needle` occurs in `haystack` at some position (an empty needle always does). */
  predicate Contains(haystack: string, needle: string) {
    exists i | 0 <= i <= |haystack| - |needle| :: OccursAt(haystack, needle, i)
  }

  predicate OccursAt(haystack: string, needle: string, i: nat) {
    i + |needle| <= |haystack| && haystack[i..i + |needle|] == needle
  }

  /** stripos($haystack, $needle) !== false: ASCII case-insensitive substring test. */
  predicate ContainsIgnoringCase(haystack: string, needle: string) {
    Contains(Lower(haystack), Lower(needle))
  }

  /** The index of the first occurrence of ch at or after position j, as strpos($s, $ch, $j). */
  function FirstFrom(s: string, j: nat, ch: char): (r: Option<nat>)
    requires j <= |s|
    ensures r.Some? ==> j <= r.value < |s| && s[r.value] == ch && forall m :: j <= m < r.value ==> s[m] != ch
    ensures r.None? ==> forall m :: j <= m < |s| ==> s[m] != ch
    decreases |s| - j
  {
    if j == |s| then None else if s[j] == ch then Some(j) else FirstFrom(s, j + 1, ch)
  }

  /** The length of the run of digits that starts at position j. */
  function DigitRun(s: string, j: nat): (n: nat)
    requires j <= |s|
    ensures j + n <= |s| && AllDigits(s[j..j + n])
    ensures j + n < |s| ==> !IsDigit(s[j + n])
    decreases |s| - j
  {
    if j < |s| && IsDigit(s[j]) then
      var m := DigitRun(s, j + 1);
      assert AllDigits(s[j..j + 1 + m]) by {
        var run, rest := s[j..j + 1 + m], s[j + 1..j + 1 + m];
        forall i | 0 <= i < |run| ensures IsDigit(run[i]) {
          if i > 0 {
            assert run[i] == rest[i - 1];
          }
        }
      }
      1 + m
    else 0
  }

  /** The length of the run of white space that starts at position j. */
  function SpaceRun(s: string, j: nat): (n: nat)
    requires j <= |s|
    ensures j + n <= |s| && AllSpace(s[j..j + n])
    ensures j + n < |s| ==> !IsSpace(s[j + n])
    decreases |s| - j
  {
    if j < |s| && IsSpace(s[j]) then
      var m := SpaceRun(s, j + 1);
      assert AllSpace(s[j..j + 1 + m]) by {
        var run, rest := s[j..j + 1 + m], s[j + 1..j + 1 + m];
        forall i | 0 <= i < |run| ensures IsSpace(run[i]) {
          if i > 0 {
            assert run[i] == rest[i - 1];
          }
        }
      }
      1 + m
    else 0
  }

  function DigitValue(c: char): (d: nat)
    requires IsDigit(c)
    ensures d < 10
  {
    c as int - '0' as int
  }

  function DigitChar(d: nat): (c: char)
    requires d < 10
    ensures IsDigit(c) && DigitValue(c) == d
  {
    ('0' as int + d) as char
  }

  /** The value of a string of decimal digits, most significant first. */
  function DigitsValue(ds: string): nat
    requires AllDigits(ds)
  {
    if ds == [] then 0 else DigitsValue(ds[..|ds| - 1]) * 10 + DigitValue(ds[|ds| - 1])
  }

  /** The decimal representation PHP gives a non-negative integer (no leading zeros). */
  function NatToString(n: nat): (s: string)
    ensures |s| > 0 && AllDigits(s)
  {
    if n < 10 then [DigitChar(n)] else NatToString(n / 10) + [DigitChar(n % 10)]
  }

  /** (string)$n for an integer, as update_post_meta stores it. */
  function IntToString(n: int): string {
    if n < 0 then "-" + NatToString(-n) else NatToString(n)
  }

  /**
   * intval($s) for a string in base 10: leading white space is skipped, one optional
   * sign is read, then the longest run of digits; with no digits the value is 0.
   */
  function IntVal(s: string): int {
    var k := SpaceRun(s, 0);
    if k < |s| && (s[k] == '-' || s[k] == '+') then
      var d := DigitRun(s, k + 1);
      var v: int := DigitsValue(s[k + 1..k + 1 + d]);
      if s[k] == '-' then -v else v
    else
      DigitsValue(s[k..k + DigitRun(s, k)])
  }

  /** A string PHP 8 treats as an integer-valued numeric string: spaces, a sign, digits, spaces. */
  predicate IsIntegerString(s: string) {
    var k := SpaceRun(s, 0);
    var k' := if k < |s| && (s[k] == '-' || s[k] == '+') then k + 1 else k;
    var d := DigitRun(s, k');
    d > 0 && AllSpace(s[k' + d..])
  }

  /** `$s == $n` between a string and an int in PHP 8 (numeric strings compare as numbers). */
  predicate LooseEqualsInt(s: string, n: int) {
    if IsIntegerString(s) then IntVal(s) == n else s == IntToString(n)
  }

  /** `$a < $b` between two non-numeric strings: byte-wise lexicographic order (strcmp). */
  predicate StrLess(a: string, b: string) {
    if a == [] then b != []
    else if b == [] then false
    else if a[0] != b[0] then a[0] < b[0]
    else StrLess(a[1..], b[1..])
  }

  lemma {:induction false} DigitsValueAppend(ds: string, c: char)
    requires AllDigits(ds) && IsDigit(c)
    ensures AllDigits(ds + [c]) && DigitsValue(ds + [c]) == DigitsValue(ds) * 10 + DigitValue(c)
  {
    assert (ds + [c])[..|ds + [c]| - 1] == ds;
  }

  /** Reading back the digits PHP writes for n gives n. */
  lemma {:induction false} DigitsValueOfNatToString(n: nat)
    ensures DigitsValue(NatToString(n)) == n
  {
    if n >= 10 {
      DigitsValueOfNatToString(n / 10);
      DigitsValueAppend(NatToString(n / 10), DigitChar(n % 10));
    }
  }

  /** A run of digits that reaches the end of the string is the whole rest of it. */
  lemma {:induction false} DigitRunToEnd(s: string, j: nat)
    requires j <= |s| && AllDigits(s[j..])
    ensures DigitRun(s, j) == |s| - j
    decreases |s| - j
  {
    if j < |s| {
      assert IsDigit(s[j..][0]);
      assert s[j + 1..] == s[j..][1..];
      DigitRunToEnd(s, j + 1);
    }
  }

  /** Round trip: intval((string)$n) == $n for every integer. */
  lemma IntValOfIntToString(n: int)
    ensures IntVal(IntToString(n)) == n
    ensures IsIntegerString(IntToString(n))
  {
    var m: nat := if n < 0 then -n else n;
    var digits := NatToString(m);
    DigitsValueOfNatToString(m);
    var s := IntToString(n);
    if n < 0 {
      assert s == "-" + digits;
      assert SpaceRun(s, 0) == 0;
      assert s[1..] == digits;
      DigitRunToEnd(s, 1);
      assert s[1..1 + DigitRun(s, 1)] == digits;
    } else {
      assert s == digits;
      assert !IsSpace(s[0]);
      assert SpaceRun(s, 0) == 0;
      assert s[0..] == s;
      DigitRunToEnd(s, 0);
      assert s[0..0 + DigitRun(s, 0)] == digits;
    }
  }

  /** An integer equals (loosely) exactly the integers with the same value. */
  lemma LooseEqualsOwnString(n: int, m: int)
    ensures LooseEqualsInt(IntToString(n), m) <==> n == m
  {
    IntValOfIntToString(n);
  }
}
