/** The two pieces of Python's `str` the script relies on: `strip()` and the
    case-insensitive test against the textual placeholders "nan" and "none". */
module Text {

  /** The characters for which Python's `str.isspace()` holds, which are the
      characters `str.strip()` (called without arguments) removes. */
  predicate IsSpace(c: char)
  {
    ('\t' <= c <= '\r') || ('\U{1C}' <= c <= '\U{1F}') || c == ' '
    || c == '\U{85}' || c == '\U{A0}' || c == '\U{1680}'
    || ('\U{2000}' <= c <= '\U{200A}') || c == '\U{2028}' || c == '\U{2029}'
    || c == '\U{202F}' || c == '\U{205F}' || c == '\U{3000}'
  }

  /** Neither end of `s` is whitespace. */
  predicate IsStripped(s: string)
  {
    s == [] || (!IsSpace(s[0]) && !IsSpace(s[|s| - 1]))
  }

  predicate AllSpace(s: string)
  {
    forall k :: 0 <= k < |s| ==> IsSpace(s[k])
  }

  /** `s` with its longest all-whitespace prefix removed. */
  function TrimStart(s: string): string
  {
    if s != [] && IsSpace(s[0]) then TrimStart(s[1..]) else s
  }

  /** `s` with its longest all-whitespace suffix removed. */
  function TrimEnd(s: string): string
  {
    if s != [] && IsSpace(s[|s| - 1]) then TrimEnd(s[..|s| - 1]) else s
  }

  /** Python's `s.strip()`. */
  function Strip(s: string): string
  {
    TrimEnd(TrimStart(s))
  }

  /** `TrimStart` removes a whitespace prefix and stops at the first
      character that is not whitespace. */
  lemma {:induction false} TrimStartSpec(s: string)
    ensures |TrimStart(s)| <= |s| && TrimStart(s) == s[|s| - |TrimStart(s)|..]
    ensures AllSpace(s[..|s| - |TrimStart(s)|])
    ensures TrimStart(s) == [] || !IsSpace(TrimStart(s)[0])
    decreases |s|
  {
    if s != [] && IsSpace(s[0]) {
      TrimStartSpec(s[1..]);
      var n := |s| - |TrimStart(s)|;
      assert forall k :: 1 <= k < n ==> s[..n][k] == s[1..][..n - 1][k - 1];
    }
  }

  /** `TrimEnd` removes a whitespace suffix and stops at the last character
      that is not whitespace. */
  lemma {:induction false} TrimEndSpec(s: string)
    ensures |TrimEnd(s)| <= |s| && TrimEnd(s) == s[..|TrimEnd(s)|]
    ensures AllSpace(s[|TrimEnd(s)|..])
    ensures TrimEnd(s) == [] || !IsSpace(TrimEnd(s)[|TrimEnd(s)| - 1])
    decreases |s|
  {
    if s != [] && IsSpace(s[|s| - 1]) {
      var init := s[..|s| - 1];
      TrimEndSpec(init);
      var r := TrimEnd(init);
      assert TrimEnd(s) == r;
      var n := |r|;
      assert r == s[..n] by { assert init[..n] == s[..n]; }
      assert AllSpace(s[n..]) by {
        assert s[n..] == init[n..] + [s[|s| - 1]];
      }
    }
  }

  /** `Strip(s)` is the part of `s` between a whitespace prefix and a
      whitespace suffix, and has no whitespace at either end. */
  lemma StripIsInnerPart(s: string)
    ensures IsStripped(Strip(s))
    ensures exists i, j ::
              0 <= i <= j <= |s| && Strip(s) == s[i..j] && AllSpace(s[..i]) && AllSpace(s[j..])
  {
    var t := TrimStart(s);
    TrimStartSpec(s);
    TrimEndSpec(t);
    var r := TrimEnd(t);
    var i := |s| - |t|;
    var j := i + |r|;
    assert r == s[i..j];
    assert s[j..] == t[|r|..];
    if r != [] {
      assert !IsSpace(r[0]) by { assert r[0] == t[0]; }
    }
  }

  /** Stripping twice is stripping once. */
  lemma StripIdempotent(s: string)
    ensures Strip(Strip(s)) == Strip(s)
  {
    StripIsInnerPart(s);
    StrippedIsFixed(Strip(s));
  }

  lemma StrippedIsFixed(s: string)
    requires IsStripped(s)
    ensures Strip(s) == s
  {
  }

  /** Only all-whitespace text strips to the empty string. */
  lemma StripEmptyIffAllSpace(s: string)
    ensures Strip(s) == [] <==> AllSpace(s)
  {
    var t := TrimStart(s);
    TrimStartSpec(s);
    TrimEndSpec(t);
    if AllSpace(s) {
      AllSpaceTrimStart(s);
    } else {
      var k :| 0 <= k < |s| && !IsSpace(s[k]);
      assert k >= |s| - |t|;
      assert t != [] && !IsSpace(t[0]);
    }
  }

  lemma {:induction false} AllSpaceTrimStart(s: string)
    requires AllSpace(s)
    ensures TrimStart(s) == []
  {
    if s != [] {
      assert IsSpace(s[0]);
      AllSpaceTrimStart(s[1..]);
    }
  }

  /** Lower-cases an ASCII letter and leaves every other character alone. */
  function AsciiLower(c: char): char
  {
    if 'A' <= c <= 'Z' then (c as int + 32) as char else c
  }

  function LowerAscii(s: string): string
  {
    seq(|s|, k requires 0 <= k < |s| => AsciiLower(s[k]))
  }

  /** Python's `s.lower() in ("nan", "none")`. Python lower-cases the whole
      Unicode range, but no character other than an ASCII letter lower-cases
      to a letter of "nan" or "none", and the only character with a
      multi-character lower case (U+0130) yields none of them, so comparing the
      ASCII lower case decides the same. */
  predicate IsNullText(s: string)
  {
    LowerAscii(s) == "nan" || LowerAscii(s) == "none"
  }

  /** The placeholder test ignores letter case in both directions: a text is a
      placeholder exactly when it is "nan" or "none" up to the case of each
      letter. */
  lemma NullTextUpToCase(s: string)
    ensures IsNullText(s) <==>
      (|s| == 3 && s[0] in "nN" && s[1] in "aA" && s[2] in "nN")
      || (|s| == 4 && s[0] in "nN" && s[1] in "oO" && s[2] in "nN" && s[3] in "eE")
  {
    var l := LowerAscii(s);
    assert |l| == |s| && forall k :: 0 <= k < |s| ==> l[k] == AsciiLower(s[k]);
  }
}
