/** The string operations of Python that the application relies on: `str.strip()`,
    `str.lower()`, the `in` test between two strings, and the decimal rendering of an
    integer inside an f-string. */
module PyText {

  /** The characters for which Python's `str.isspace()` holds. */
  predicate IsSpace(c: char) {
    c == ' ' || ('\t' <= c <= '\r') || ('\U{1c}' <= c <= '\U{1f}')
    || c == '\U{85}' || c == '\U{a0}' || c == '\U{1680}'
    || ('\U{2000}' <= c <= '\U{200a}') || c == '\U{2028}' || c == '\U{2029}'
    || c == '\U{202f}' || c == '\U{205f}' || c == '\U{3000}'
  }

  predicate AllSpace(s: string) {
    forall i :: 0 <= i < |s| ==> IsSpace(s[i])
  }

  /** A string that neither starts nor ends with whitespace. */
  predicate IsStripped(s: string) {
    s == [] || (!IsSpace(s[0]) && !IsSpace(s[|s| - 1]))
  }

  /** `s.lstrip()`: `s` without its leading whitespace. */
  function TrimStart(s: string): (r: string)
    ensures |r| <= |s| && r == s[|s| - |r|..]
    ensures AllSpace(s[..|s| - |r|])
    ensures r == [] || !IsSpace(r[0])
  {
    if s != [] && IsSpace(s[0]) then TrimStart(s[1..]) else s
  }

  /** `s.rstrip()`: `s` without its trailing whitespace. */
  function TrimEnd(s: string): (r: string)
    ensures |r| <= |s| && r == s[..|r|]
    ensures AllSpace(s[|r|..])
    ensures r == [] || !IsSpace(r[|r| - 1])
  {
    if s != [] && IsSpace(s[|s| - 1]) then
      var r := TrimEnd(s[..|s| - 1]);
      TrimEndStep(s, r);
      r
    else s
  }

  /** Trimming the last character (whitespace) and then the rest trims `s`. */
  lemma TrimEndStep(s: string, r: string)
    requires s != [] && IsSpace(s[|s| - 1])
    requires |r| <= |s| - 1 && r == s[..|s| - 1][..|r|] && AllSpace(s[..|s| - 1][|r|..])
    ensures r == s[..|r|] && AllSpace(s[|r|..])
  {
    assert s[..|s| - 1][..|r|] == s[..|r|];
    assert s[|r|..] == s[..|s| - 1][|r|..] + [s[|s| - 1]];
  }

  /** `s.strip()`: `s` without the whitespace at either end. */
  function Strip(s: string): (r: string)
    ensures IsStripped(r)
    ensures |r| <= |s|
  {
    var left := TrimStart(s);
    var r := TrimEnd(left);
    assert IsStripped(r) by {
      if r != [] {
        assert r[0] == left[0];
      }
    }
    r
  }

  /** What `strip` removes is whitespace, from the two ends only: the result is the slice
      of `s` at offset `lo`, with nothing but whitespace before and after it. */
  lemma StripRemovesOnlyWhitespace(s: string) returns (lo: nat, r: string)
    ensures r == Strip(s)
    ensures lo + |r| <= |s| && r == s[lo..lo + |r|]
    ensures AllSpace(s[..lo]) && AllSpace(s[lo + |r|..])
  {
    var left := TrimStart(s);
    r := TrimEnd(left);
    lo := |s| - |left|;
    TrimmedBothEnds(s, left, r, lo);
  }

  /** A suffix of `s` after whitespace, then a prefix of that suffix before whitespace. */
  lemma TrimmedBothEnds(s: string, left: string, r: string, lo: nat)
    requires lo + |left| == |s| && left == s[lo..] && AllSpace(s[..lo])
    requires |r| <= |left| && r == left[..|r|] && AllSpace(left[|r|..])
    ensures lo + |r| <= |s| && r == s[lo..lo + |r|]
    ensures AllSpace(s[..lo]) && AllSpace(s[lo + |r|..])
  {
    assert s[lo + |r|..] == left[|r|..];
  }

  /** Stripping a string that has no whitespace at either end leaves it as it is, and
      stripping twice is stripping once. */
  lemma {:induction false} StripFixesStripped(s: string)
    ensures IsStripped(s) ==> Strip(s) == s
    ensures Strip(Strip(s)) == Strip(s)
  {
    var r := Strip(s);
    if r != [] {
      assert TrimStart(r) == r;
      assert TrimEnd(r) == r;
    }
    if IsStripped(s) && s != [] {
      assert TrimStart(s) == s;
      assert TrimEnd(s) == s;
    }
  }

  /** Python's `needle in haystack` for two strings: `needle` occurs as a contiguous
      piece of `haystack` (the empty string occurs in every string). */
  predicate IsSubstring(needle: string, haystack: string)
    decreases |haystack|
  {
    needle <= haystack || (haystack != [] && IsSubstring(needle, haystack[1..]))
  }

  /** `IsSubstring` finds exactly the occurrences at some offset. */
  lemma {:induction false} SubstringAt(needle: string, haystack: string, at: nat)
    requires at + |needle| <= |haystack| && haystack[at..at + |needle|] == needle
    ensures IsSubstring(needle, haystack)
    decreases at
  {
    if at > 0 {
      assert haystack[1..][at - 1..at - 1 + |needle|] == needle;
      SubstringAt(needle, haystack[1..], at - 1);
    }
  }

  /** Conversely, `IsSubstring` holds only where the needle occurs at some offset. */
  lemma {:induction false} SubstringOffset(needle: string, haystack: string) returns (at: nat)
    requires IsSubstring(needle, haystack)
    ensures at + |needle| <= |haystack| && haystack[at..at + |needle|] == needle
    decreases |haystack|
  {
    if needle <= haystack {
      at := 0;
    } else {
      var rest := SubstringOffset(needle, haystack[1..]);
      at := rest + 1;
      assert haystack[at..at + |needle|] == haystack[1..][rest..rest + |needle|];
    }
  }

  /** `c.lower()` for a single character; only the ASCII letters are mapped. */
  function LowerChar(c: char): char {
    if 'A' <= c <= 'Z' then (c as int + 32) as char else c
  }

  /** `s.lower()` (ASCII case mapping). */
  function Lower(s: string): (r: string)
    ensures |r| == |s|
    ensures forall i :: 0 <= i < |s| ==> r[i] == LowerChar(s[i])
  {
    seq(|s|, i requires 0 <= i < |s| => LowerChar(s[i]))
  }

  /** Lowering twice is lowering once. */
  lemma LowerIdempotent(s: string)
    ensures Lower(Lower(s)) == Lower(s)
  {
    forall i | 0 <= i < |s| ensures Lower(Lower(s))[i] == Lower(s)[i] {
      assert LowerChar(LowerChar(s[i])) == LowerChar(s[i]);
    }
  }

  function DigitChar(d: nat): char
    requires d < 10
  {
    ('0' as int + d) as char
  }

  /** The decimal digits of `n`, as `str(n)` writes them. */
  function NatToDecimal(n: nat): (r: string)
    ensures |r| >= 1
    ensures forall i :: 0 <= i < |r| ==> '0' <= r[i] <= '9'
  {
    if n < 10 then [DigitChar(n)] else NatToDecimal(n / 10) + [DigitChar(n % 10)]
  }

  /** `str(i)` for an integer: a minus sign exactly for a negative value, then the digits
      of its magnitude. */
  function IntToDecimal(i: int): (r: string)
    ensures |r| >= 1
    ensures r[0] == '-' <==> i < 0
  {
    if i < 0 then "-" + NatToDecimal(-i) else NatToDecimal(i)
  }

  /** The number a string of decimal digits denotes. */
  function DecimalValue(s: string): nat
    requires forall i :: 0 <= i < |s| ==> '0' <= s[i] <= '9'
  {
    if s == [] then 0 else 10 * DecimalValue(s[..|s| - 1]) + (s[|s| - 1] as int - '0' as int)
  }

  /** Reading back the digits `str(n)` writes gives `n`. */
  lemma {:induction false} DecimalRoundTrip(n: nat)
    ensures DecimalValue(NatToDecimal(n)) == n
  {
    if n >= 10 {
      DecimalRoundTrip(n / 10);
      var r := NatToDecimal(n);
      assert r[..|r| - 1] == NatToDecimal(n / 10);
    }
  }
}
