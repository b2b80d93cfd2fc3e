/** The small part of Python's built-in `str` behaviour that the pincode
    engine depends on: `strip()`, `upper()`, `str(int)`, the `in`
    substring test and the code-point ordering that `sorted` applies to
    strings. */
module Strings {

  /** Python's `str.isspace()` for a single character: the ASCII control
      whitespace, the separators U+001C to U+001F, the space, and the
      Unicode spaces and line/paragraph separators. */
  predicate IsSpace(c: char) {
    || ('\t' <= c <= '\r')
    || ('\U{1C}' <= c <= ' ')
    || c == '\U{85}' || c == '\U{A0}' || c == '\U{1680}'
    || ('\U{2000}' <= c <= '\U{200A}')
    || c == '\U{2028}' || c == '\U{2029}' || c == '\U{202F}'
    || c == '\U{205F}' || c == '\U{3000}'
  }

  predicate AllSpace(s: string) {
    forall i :: 0 <= i < |s| ==> IsSpace(s[i])
  }

  /** An ASCII decimal digit (what `\d` matches in the ASCII range). */
  predicate IsDigit(c: char) {
    '0' <= c <= '9'
  }

  /** The number of whitespace characters `lstrip` removes. */
  function LeadingSpace(s: string): (n: nat)
    ensures n <= |s| && AllSpace(s[..n])
    ensures n < |s| ==> !IsSpace(s[n])
  {
    if s != [] && IsSpace(s[0]) then
      var k := LeadingSpace(s[1..]);
      assert forall i :: 1 <= i < k + 1 ==> s[i] == s[1..][..k][i - 1];
      k + 1
    else 0
  }

  /** The number of whitespace characters `rstrip` removes. */
  function TrailingSpace(s: string): (n: nat)
    ensures n <= |s| && AllSpace(s[|s| - n..])
    ensures n < |s| ==> !IsSpace(s[|s| - 1 - n])
  {
    if s != [] && IsSpace(s[|s| - 1]) then
      var t := s[..|s| - 1];
      var k := TrailingSpace(t);
      assert s[|s| - (k + 1)..] == t[|t| - k..] + [s[|s| - 1]];
      assert AllSpace(t[|t| - k..] + [s[|s| - 1]]);
      assert k < |t| ==> s[|s| - 1 - (k + 1)] == t[|t| - 1 - k];
      k + 1
    else 0
  }

  /** Python's `str.strip()`: the slice of `s` left once the leading and
      the trailing whitespace are removed. */
  function Strip(s: string): (r: string)
    ensures |r| <= |s|
    ensures LeadingSpace(s) + |r| <= |s| && r == s[LeadingSpace(s)..LeadingSpace(s) + |r|]
    ensures AllSpace(s[..LeadingSpace(s)]) && AllSpace(s[LeadingSpace(s) + |r|..])
    ensures r != [] ==> !IsSpace(r[0]) && !IsSpace(r[|r| - 1])
  {
    var lead := LeadingSpace(s);
    var t := s[lead..];
    var n := TrailingSpace(t);
    assert s[lead + (|t| - n)..] == t[|t| - n..];
    assert t[..|t| - n] == s[lead..lead + (|t| - n)];
    assert |t| - n > 0 ==> t[..|t| - n][0] == s[lead] && t[..|t| - n][|t| - n - 1] == t[|t| - 1 - n];
    t[..|t| - n]
  }

  /** `lstrip` removes exactly the whitespace run that `s` starts with. */
  lemma {:induction false} LeadingSpaceIs(s: string, k: nat)
    requires k <= |s| && AllSpace(s[..k])
    requires k < |s| ==> !IsSpace(s[k])
    ensures LeadingSpace(s) == k
  {
    if k > 0 {
      assert s[..k][0] == s[0];
      var t := s[1..];
      var run := t[..k - 1];
      forall i | 0 <= i < |run| ensures IsSpace(run[i]) {
        assert run[i] == s[..k][i + 1];
      }
      assert k - 1 < |t| ==> t[k - 1] == s[k];
      LeadingSpaceIs(t, k - 1);
    }
  }

  /** `rstrip` removes exactly the whitespace run that `s` ends with. */
  lemma {:induction false} TrailingSpaceIs(s: string, k: nat)
    requires k <= |s| && AllSpace(s[|s| - k..])
    requires k < |s| ==> !IsSpace(s[|s| - 1 - k])
    ensures TrailingSpace(s) == k
  {
    if k > 0 {
      assert s[|s| - k..][k - 1] == s[|s| - 1];
      var t := s[..|s| - 1];
      var run := t[|t| - (k - 1)..];
      forall i | 0 <= i < |run| ensures IsSpace(run[i]) {
        assert run[i] == s[|s| - k..][i];
      }
      assert k - 1 < |t| ==> t[|t| - 1 - (k - 1)] == s[|s| - 1 - k];
      TrailingSpaceIs(t, k - 1);
    }
  }

  /** `strip()` removes exactly the surrounding whitespace: a text that
      neither starts nor ends with whitespace comes back unchanged from any
      whitespace padding on either side. */
  lemma {:induction false} StripPadded(pre: string, core: string, post: string)
    requires AllSpace(pre) && AllSpace(post)
    requires core != [] ==> !IsSpace(core[0]) && !IsSpace(core[|core| - 1])
    ensures Strip(pre + core + post) == core
  {
    var s := pre + core + post;
    if core == [] {
      assert s == pre + post;
      assert s[..|s|] == s;
      LeadingSpaceIs(s, |s|);
    } else {
      assert s[..|pre|] == pre;
      assert s[|pre|] == core[0];
      LeadingSpaceIs(s, |pre|);
      var t := s[|pre|..];
      assert t == core + post;
      assert t[|t| - |post|..] == post;
      assert t[|t| - 1 - |post|] == core[|core| - 1];
      TrailingSpaceIs(t, |post|);
      assert t[..|t| - |post|] == core;
    }
  }

  /** Python's `str.upper()` on one character, restricted to ASCII letters. */
  function UpperChar(c: char): (u: char)
    ensures !('a' <= u <= 'z')
    ensures ('a' <= c <= 'z') || u == c
  {
    if 'a' <= c <= 'z' then (c as int - 32) as char else c
  }

  /** Python's `str.upper()`, restricted to ASCII letters. */
  function Upper(s: string): (r: string)
    ensures |r| == |s|
    ensures forall i :: 0 <= i < |s| ==> r[i] == UpperChar(s[i])
  {
    if s == [] then [] else [UpperChar(s[0])] + Upper(s[1..])
  }

  /** Upper-casing twice is upper-casing once, so comparing upper-cased
      texts is insensitive to the case of either side. */
  lemma UpperIdempotent(s: string)
    ensures Upper(Upper(s)) == Upper(s)
  {
    var u := Upper(s);
    assert forall i :: 0 <= i < |u| ==> UpperChar(u[i]) == u[i];
  }

  predicate IsPrefix(p: string, s: string) {
    |p| <= |s| && s[..|p|] == p
  }

  /** Python's `needle in haystack` on strings, as a left-to-right scan. */
  predicate Contains(haystack: string, needle: string)
    decreases |haystack|
  {
    IsPrefix(needle, haystack) || (haystack != [] && Contains(haystack[1..], needle))
  }

  /** The scan finds the needle exactly when some position of the haystack
      starts with it. */
  lemma {:induction false} ContainsIff(haystack: string, needle: string)
    ensures Contains(haystack, needle) <==> exists i :: 0 <= i <= |haystack| && IsPrefix(needle, haystack[i..])
    decreases |haystack|
  {
    assert haystack[0..] == haystack;
    if haystack != [] {
      ContainsIff(haystack[1..], needle);
      if Contains(haystack[1..], needle) {
        var i :| 0 <= i <= |haystack[1..]| && IsPrefix(needle, haystack[1..][i..]);
        assert haystack[1..][i..] == haystack[i + 1..];
      }
      if i :| 0 <= i <= |haystack| && IsPrefix(needle, haystack[i..]) {
        if i > 0 {
          assert haystack[1..][i - 1..] == haystack[i..];
        }
      }
    }
  }

  /** The empty text is contained in every text. */
  lemma ContainsEmpty(haystack: string)
    ensures Contains(haystack, "")
  {
  }

  function DigitChar(d: nat): (c: char)
    requires d < 10
    ensures IsDigit(c) && c as int - '0' as int == d
  {
    ('0' as int + d) as char
  }

  function DigitValue(c: char): nat
    requires IsDigit(c)
  {
    c as int - '0' as int
  }

  /** Python's `str(n)` for a non-negative integer. */
  function NatToDecimal(n: nat): (r: string)
    ensures r != []
    ensures forall i :: 0 <= i < |r| ==> IsDigit(r[i])
  {
    if n < 10 then [DigitChar(n)] else NatToDecimal(n / 10) + [DigitChar(n % 10)]
  }

  /** Python's `str(n)` for any integer: a minus sign, then the digits. */
  function IntToDecimal(n: int): (r: string)
    ensures r != []
    ensures r[0] == '-' <==> n < 0
    ensures n >= 0 ==> r == NatToDecimal(n)
  {
    if n < 0 then "-" + NatToDecimal(-n) else NatToDecimal(n)
  }

  /** Python's `int(s)` on a text of ASCII digits. */
  function DecimalValue(s: string): nat
    requires forall i :: 0 <= i < |s| ==> IsDigit(s[i])
  {
    if s == [] then 0 else 10 * DecimalValue(s[..|s| - 1]) + DigitValue(s[|s| - 1])
  }

  /** `int(str(n)) == n`: the decimal text denotes the number it was
      printed from. */
  lemma {:induction false} DecimalRoundTrip(n: nat)
    ensures DecimalValue(NatToDecimal(n)) == n
  {
    if n >= 10 {
      var r := NatToDecimal(n);
      assert r[..|r| - 1] == NatToDecimal(n / 10);
      DecimalRoundTrip(n / 10);
    }
  }

  function Pow10(k: nat): (p: nat)
    ensures p >= 1
  {
    if k == 0 then 1 else 10 * Pow10(k - 1)
  }

  /** `str(n)` has at most `k` digits exactly when `n < 10^k`. */
  lemma {:induction false} DecimalLength(n: nat, k: nat)
    requires k >= 1
    ensures |NatToDecimal(n)| <= k <==> n < Pow10(k)
  {
    if n >= 10 {
      if k == 1 {
        assert |NatToDecimal(n)| >= 2;
      } else {
        DecimalLength(n / 10, k - 1);
      }
    } else if k > 1 {
      assert Pow10(k) == 10 * Pow10(k - 1);
    }
  }

  /** The printed form of a non-negative integer has six digits exactly
      when the integer lies between 100000 and 999999. */
  lemma SixDigitDecimals(n: nat)
    ensures |NatToDecimal(n)| == 6 <==> 100000 <= n <= 999999
  {
    DecimalLength(n, 5);
    DecimalLength(n, 6);
    assert Pow10(5) == 100000 && Pow10(6) == 1000000;
  }

  /** Python's `<` on strings: lexicographic by code point, a proper
      prefix ordering before its extensions. */
  predicate Less(a: string, b: string)
    decreases |a|
  {
    if a == [] then b != []
    else if b == [] then false
    else if a[0] != b[0] then a[0] < b[0]
    else Less(a[1..], b[1..])
  }

  lemma {:induction false} LessIrreflexive(a: string)
    ensures !Less(a, a)
    decreases |a|
  {
    if a != [] {
      LessIrreflexive(a[1..]);
    }
  }

  lemma {:induction false} LessTransitive(a: string, b: string, c: string)
    requires Less(a, b) && Less(b, c)
    ensures Less(a, c)
    decreases |a|
  {
    if a != [] && b != [] && c != [] && a[0] == b[0] && b[0] == c[0] {
      LessTransitive(a[1..], b[1..], c[1..]);
    }
  }

  lemma {:induction false} LessTotal(a: string, b: string)
    requires a != b
    ensures Less(a, b) || Less(b, a)
    decreases |a|
  {
    if a != [] && b != [] && a[0] == b[0] {
      assert a == [a[0]] + a[1..] && b == [b[0]] + b[1..];
      LessTotal(a[1..], b[1..]);
    }
  }
}
