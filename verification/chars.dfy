/**
 * Character classes and small string helpers, as the extraction code's regular
 * expressions and string methods see them. Digits, word characters and letters
 * are the ASCII ones; whitespace is the full set Python's `str.isspace` and the
 * regex class `\s` accept.
 */
module Chars {

  /** The regex class `\d` (ASCII digits). */
  predicate IsDigit(c: char) { '0' <= c <= '9' }

  predicate IsUpper(c: char) { 'A' <= c <= 'Z' }

  predicate IsLower(c: char) { 'a' <= c <= 'z' }

  /** The case-sensitive mask character `X`. */
  predicate IsCapitalX(c: char) { c == 'X' }

  /** The regex class `\D`. */
  predicate IsNonDigit(c: char) { !IsDigit(c) }

  /** The regex class `[A-Za-z]`, and `str.isalpha` on ASCII text. */
  predicate IsLetter(c: char) { IsUpper(c) || IsLower(c) }

  /** The regex class `\w`. */
  predicate IsWordChar(c: char) { IsLetter(c) || IsDigit(c) || c == '_' }

  /** The regex class `\s` and `str.isspace`: Unicode whitespace. */
  predicate IsSpace(c: char) {
    || c == ' ' || ('\t' <= c <= '\r') || ('\U{1c}' <= c <= '\U{1f}')
    || c == '\U{85}' || c == '\U{a0}' || c == '\U{1680}'
    || ('\U{2000}' <= c <= '\U{200a}') || c == '\U{2028}' || c == '\U{2029}'
    || c == '\U{202f}' || c == '\U{205f}' || c == '\U{3000}'
  }

  /** The regex class `[:\s]`. */
  predicate IsColonOrSpace(c: char) { c == ':' || IsSpace(c) }

  /** The regex class `[ \t]`: horizontal blanks only. */
  predicate IsBlank(c: char) { c == ' ' || c == '\t' }

  function Lower(c: char): (r: char)
    ensures IsUpper(c) ==> IsLower(r)
    ensures !IsUpper(c) ==> r == c
  {
    if IsUpper(c) then (c as int + 32) as char else c
  }

  function Upper(c: char): (r: char)
    ensures IsLower(c) ==> IsUpper(r)
    ensures !IsLower(c) ==> r == c
  {
    if IsLower(c) then (c as int - 32) as char else c
  }

  /** Two characters an IGNORECASE regex treats as equal. */
  predicate SameIgnoringCase(a: char, b: char) { Lower(a) == Lower(b) }

  /** `str.lower()` on the ASCII range. */
  function LowerString(s: string): (r: string)
    ensures |r| == |s|
    ensures forall i :: 0 <= i < |s| ==> r[i] == Lower(s[i])
  {
    if |s| == 0 then "" else [Lower(s[0])] + LowerString(s[1..])
  }

  /** Lower-casing twice is lower-casing once. */
  lemma LowerStringIdempotent(s: string)
    ensures LowerString(LowerString(s)) == LowerString(s)
  {
    var l := LowerString(s);
    forall i | 0 <= i < |s| ensures LowerString(l)[i] == l[i] {
      assert Lower(Lower(s[i])) == Lower(s[i]);
    }
  }

  /** A string without capitals is its own lower-cased form. */
  lemma LowerOfLowercase(s: string)
    requires forall i :: 0 <= i < |s| ==> !IsUpper(s[i])
    ensures LowerString(s) == s
  {
  }

  lemma LowerStringAppend(a: string, b: string)
    ensures LowerString(a + b) == LowerString(a) + LowerString(b)
  {
    var l, r := LowerString(a + b), LowerString(a) + LowerString(b);
    forall i | 0 <= i < |l| ensures l[i] == r[i] {
      if i < |a| {
        assert (a + b)[i] == a[i];
      } else {
        assert (a + b)[i] == b[i - |a|];
      }
    }
  }

  /** `str.upper()` on the ASCII range. */
  function UpperString(s: string): (r: string)
    ensures |r| == |s|
    ensures forall i :: 0 <= i < |s| ==> r[i] == Upper(s[i])
  {
    if |s| == 0 then "" else [Upper(s[0])] + UpperString(s[1..])
  }

  predicate AllDigits(s: string) { forall i :: 0 <= i < |s| ==> IsDigit(s[i]) }

  predicate HasDigit(s: string) { exists i :: 0 <= i < |s| && IsDigit(s[i]) }

  predicate AllSpace(s: string) { forall i :: 0 <= i < |s| ==> IsSpace(s[i]) }

  /** Length of the longest run of characters satisfying `p` that starts at `i`. */
  function Run(s: string, i: nat, p: char -> bool): (n: nat)
    requires i <= |s|
    ensures i + n <= |s|
    ensures i + n < |s| ==> !p(s[i + n])
    decreases |s| - i
  {
    if i < |s| && p(s[i]) then 1 + Run(s, i + 1, p) else 0
  }

  /** Every character of a run satisfies the predicate. */
  lemma {:induction false} RunHolds(s: string, i: nat, p: char -> bool)
    requires i <= |s|
    ensures forall k :: i <= k < i + Run(s, i, p) ==> p(s[k])
    decreases |s| - i
  {
    if i < |s| && p(s[i]) {
      RunHolds(s, i + 1, p);
    }
  }

  /** A run is determined by where it stops: the characters before satisfy `p`, the next does not. */
  lemma {:induction false} RunIs(s: string, i: nat, p: char -> bool, n: nat)
    requires i + n <= |s|
    requires forall k :: i <= k < i + n ==> p(s[k])
    requires i + n < |s| ==> !p(s[i + n])
    ensures Run(s, i, p) == n
    decreases n
  {
    if n > 0 {
      RunIs(s, i + 1, p, n - 1);
    }
  }

  /** Inside a slice a run is cut off at the slice's end. */
  lemma RunInSlice(s: string, a: nat, b: nat, i: nat, p: char -> bool)
    requires a <= i <= b <= |s|
    ensures Run(s[a..b], i - a, p) == Min(Run(s, i, p), b - i)
  {
    var n := Min(Run(s, i, p), b - i);
    var t := s[a..b];
    RunHolds(s, i, p);
    assert forall k :: i - a <= k < i - a + n ==> t[k] == s[k + a];
    RunIs(t, i - a, p, n);
  }

  /** Position just past the whitespace run starting at `i` (a greedy `\s*`). */
  function SkipSpace(s: string, i: nat): (j: nat)
    requires i <= |s|
    ensures i <= j <= |s|
    ensures forall k :: i <= k < j ==> IsSpace(s[k])
    ensures j < |s| ==> !IsSpace(s[j])
  {
    RunHolds(s, i, IsSpace);
    i + Run(s, i, IsSpace)
  }

  /** `s` holds the literal `w` at position `i`. */
  predicate LiteralAt(s: string, i: nat, w: string) {
    i + |w| <= |s| && s[i..i + |w|] == w
  }

  /** `s` holds `w` at position `i`, letters compared without regard to case. */
  predicate LiteralAtIgnoringCase(s: string, i: nat, w: string) {
    i + |w| <= |s| && forall k :: 0 <= k < |w| ==> SameIgnoringCase(s[i + k], w[k])
  }

  /** A piece of an occurrence is an occurrence of that piece. */
  lemma LiteralPart(s: string, i: nat, w: string, j: nat, n: nat)
    requires LiteralAt(s, i, w) && j + n <= |w|
    ensures LiteralAt(s, i + j, w[j..j + n])
  {
    forall k | j <= k < j + n
      ensures s[i + k] == w[k]
    {
      assert s[i..i + |w|][k] == s[i + k];
    }
    assert s[i + j..i + j + n] == w[j..j + n];
  }

  /** An exact occurrence is also a case-blind one. */
  lemma LiteralIgnoringCase(s: string, i: nat, w: string)
    requires LiteralAt(s, i, w)
    ensures LiteralAtIgnoringCase(s, i, w)
  {
    forall k | 0 <= k < |w| ensures SameIgnoringCase(s[i + k], w[k]) {
      assert s[i + k] == s[i..i + |w|][k];
    }
  }

  /** A case-blind occurrence of a word without capitals lower-cases to that word. */
  lemma LowerOfLiteral(s: string, i: nat, w: string)
    requires LiteralAtIgnoringCase(s, i, w)
    requires forall k :: 0 <= k < |w| ==> !IsUpper(w[k])
    ensures LowerString(s[i..i + |w|]) == w
  {
    var t := s[i..i + |w|];
    forall k | 0 <= k < |w| ensures LowerString(t)[k] == w[k] {
      assert t[k] == s[i + k];
    }
  }

  /** Removes every occurrence of `c` (`str.replace(c, "")`). */
  function Remove(s: string, c: char): (r: string)
    ensures c !in r
    ensures |r| <= |s|
    ensures forall x :: x in r ==> x in s
    ensures c !in s ==> r == s
  {
    if |s| == 0 then ""
    else if s[0] == c then Remove(s[1..], c)
    else [s[0]] + Remove(s[1..], c)
  }

  lemma RemoveAppend(a: string, b: string, c: char)
    ensures Remove(a + b, c) == Remove(a, c) + Remove(b, c)
  {
    if |a| == 0 {
      assert a + b == b;
    } else {
      assert (a + b)[1..] == a[1..] + b;
      RemoveAppend(a[1..], b, c);
    }
  }

  /** Python's `str.strip()`: the slice left after dropping surrounding whitespace. */
  function Strip(s: string): (r: string)
    ensures |r| > 0 ==> !IsSpace(r[0]) && !IsSpace(r[|r| - 1])
    ensures exists a, b ::
              0 <= a <= b <= |s| && r == s[a..b] && AllSpace(s[..a]) && AllSpace(s[b..])
    ensures AllSpace(s) <==> r == ""
  {
    var a := SkipSpace(s, 0);
    var t := s[a..];
    var n := TrailEnd(t);
    var b := a + n;
    assert s[a..b] == t[..n];
    assert AllSpace(s[..a]) by {
      forall k | 0 <= k < a ensures IsSpace(s[..a][k]) { assert s[..a][k] == s[k]; }
    }
    assert AllSpace(s[b..]) by {
      forall k | 0 <= k < |s| - b ensures IsSpace(s[b..][k]) { assert s[b..][k] == t[n + k]; }
    }
    assert n == 0 ==> a == |s|;
    assert AllSpace(s) ==> a == |s|;
    s[a..b]
  }

  /** Length of `s` without its trailing whitespace. */
  function TrailEnd(s: string): (n: nat)
    ensures n <= |s|
    ensures n > 0 ==> !IsSpace(s[n - 1])
    ensures forall k :: n <= k < |s| ==> IsSpace(s[k])
  {
    if |s| == 0 || !IsSpace(s[|s| - 1]) then |s| else TrailEnd(s[..|s| - 1])
  }

  /** A string that neither starts nor ends with whitespace is its own strip. */
  lemma StripUnchanged(s: string)
    requires |s| > 0 ==> !IsSpace(s[0]) && !IsSpace(s[|s| - 1])
    ensures Strip(s) == s
  {
    if |s| > 0 {
      assert SkipSpace(s, 0) == 0;
      assert s[0..] == s;
      assert TrailEnd(s) == |s|;
    }
  }

  /** Stripping twice is stripping once. */
  lemma StripIdempotent(s: string)
    ensures Strip(Strip(s)) == Strip(s)
  {
    StripUnchanged(Strip(s));
  }

  function Min(a: int, b: int): int { if a <= b then a else b }

  predicate NotNewline(c: char) { c != '\n' }
}
