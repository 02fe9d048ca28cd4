/**
 * OCR-tolerant labels (icici_parser.py fuzzy_label_regex, hdfc_parser.py
 * flexible_label_regex): every letter of the phrase becomes "one or more of
 * that letter, then optional whitespace" and every other character becomes
 * "that character, then optional whitespace". This module holds both the
 * pattern text the source builds and the matching that pattern performs.
 */
module FuzzyLabel {
  import opened Wrappers
  import opened Chars
  import opened Search

  /** Characters `re.escape` prefixes with a backslash. */
  const Special: string := "()[]{}?*+-|^$\\.&~# \t\n\r\U{0b}\U{0c}"

  const Repeat: string := "+\\s*"
  const OptionalSpace: string := "\\s*"

  /** `re.escape` of one character. */
  function Escape(c: char): string {
    if c in Special then ['\\', c] else [c]
  }

  /** The pattern text built for a phrase, one piece per character. */
  function RegexText(phrase: string): (r: string)
  {
    if |phrase| == 0 then ""
    else
      var c := phrase[0];
      (if IsLetter(c) then [c] + Repeat else Escape(c) + OptionalSpace) + RegexText(phrase[1..])
  }

  /** Reads a pattern of the shape `RegexText` builds back into its phrase. */
  function ParseRegexText(r: string): Option<string>
  {
    if |r| == 0 then Some("")
    else if |r| >= 5 && IsLetter(r[0]) && r[1..5] == Repeat then
      match ParseRegexText(r[5..])
      case Some(l) => Some([r[0]] + l)
      case None => None
    else if |r| >= 5 && r[0] == '\\' && r[1] in Special && r[2..5] == OptionalSpace then
      match ParseRegexText(r[5..])
      case Some(l) => Some([r[1]] + l)
      case None => None
    else if |r| >= 4 && !IsLetter(r[0]) && r[0] !in Special && r[1..4] == OptionalSpace then
      match ParseRegexText(r[4..])
      case Some(l) => Some([r[0]] + l)
      case None => None
    else None
  }

  /** The pattern text determines the phrase it was built from. This concerns
      the text of the pattern only, not which inputs the matcher accepts. */
  lemma {:induction false} RegexTextRoundTrip(phrase: string)
    ensures ParseRegexText(RegexText(phrase)) == Some(phrase)
  {
    if |phrase| > 0 {
      var c := phrase[0];
      var rest := RegexText(phrase[1..]);
      RegexTextRoundTrip(phrase[1..]);
      var r := RegexText(phrase);
      if IsLetter(c) {
        assert r == [c] + Repeat + rest;
        assert r[1..5] == Repeat && r[5..] == rest;
      } else if c in Special {
        assert r == ['\\', c] + OptionalSpace + rest;
        assert r[2..5] == OptionalSpace && r[5..] == rest;
      } else {
        assert r == [c] + OptionalSpace + rest;
        assert r[1..4] == OptionalSpace && r[4..] == rest;
      }
      assert [c] + phrase[1..] == phrase;
    }
  }

  /**
   * Labels this matcher handles exactly: letters separated by single spaces,
   * beginning and ending with a letter, with no letter directly repeated (a
   * repeated letter would let one letter run borrow from the next).
   */
  predicate IsFuzzyLabel(phrase: string) {
    && |phrase| > 0
    && IsLetter(phrase[0]) && IsLetter(phrase[|phrase| - 1])
    && (forall i :: 0 <= i < |phrase| ==> IsLetter(phrase[i]) || phrase[i] == ' ')
    && (forall i :: 0 <= i < |phrase| - 1 ==> IsLetter(phrase[i]) || IsLetter(phrase[i + 1]))
    && (forall i :: 0 <= i < |phrase| - 1 ==> !SameIgnoringCase(phrase[i], phrase[i + 1]))
  }

  /** From `i` on: upper-case letters and blanks, no two equal characters in a row (so no double blank either). */
  predicate UpperPairsFrom(phrase: string, i: nat)
    decreases |phrase| - i
  {
    i + 1 >= |phrase|
    || (phrase[i] != phrase[i + 1] && (IsUpper(phrase[i + 1]) || phrase[i + 1] == ' ') && UpperPairsFrom(phrase, i + 1))
  }

  /** An upper-case label: letters at both ends and `UpperPairsFrom` the start. */
  predicate UpperLabel(phrase: string) {
    |phrase| > 0 && IsUpper(phrase[0]) && IsUpper(phrase[|phrase| - 1]) && UpperPairsFrom(phrase, 0)
  }

  /** What `UpperPairsFrom` says, position by position. */
  lemma {:induction false} UpperPairsAt(phrase: string, i: nat)
    requires UpperPairsFrom(phrase, i)
    ensures forall j :: i < j < |phrase| ==> IsUpper(phrase[j]) || phrase[j] == ' '
    ensures forall j :: i <= j < |phrase| - 1 ==> phrase[j] != phrase[j + 1]
    decreases |phrase| - i
  {
    if i + 1 < |phrase| {
      UpperPairsAt(phrase, i + 1);
    }
  }

  /** The converse of `UpperPairsAt`. */
  lemma {:induction false} UpperPairsFromFacts(phrase: string, i: nat)
    requires forall j :: i < j < |phrase| ==> IsUpper(phrase[j]) || phrase[j] == ' '
    requires forall j :: i <= j < |phrase| - 1 ==> phrase[j] != phrase[j + 1]
    ensures UpperPairsFrom(phrase, i)
    decreases |phrase| - i
  {
    if i + 1 < |phrase| {
      UpperPairsFromFacts(phrase, i + 1);
    }
  }

  /** An upper-case label is fuzzy: letters and single blanks, no two alike in a row. */
  lemma UpperCaseLabel(phrase: string)
    requires UpperLabel(phrase)
    ensures IsFuzzyLabel(phrase)
  {
    UpperPairsAt(phrase, 0);
  }

  /**
   * Matches `phrase[i..]` at `pos`. `spaceFrom` is where the whitespace
   * consumed by the previous piece began; a space in the phrase must be found
   * inside that whitespace, as the regex finds it by giving whitespace back.
   * Returns the start of the final letter run and the end of the match.
   */
  function Walk(s: string, phrase: string, i: nat, pos: nat, spaceFrom: nat, runStart: nat): (r: Option<(nat, nat)>)
    requires i <= |phrase|
    requires spaceFrom <= pos <= |s| && runStart <= pos
    ensures r.Some? ==> r.value.1 <= |s|
    ensures r.Some? && i < |phrase| && IsLetter(phrase[|phrase| - 1]) ==> pos <= r.value.0 < r.value.1
    decreases |phrase| - i
  {
    if i == |phrase| then Some((runStart, pos))
    else
      var c := phrase[i];
      if IsLetter(c) then
        var n := CaseRun(s, pos, c);
        if n == 0 then None
        else Walk(s, phrase, i + 1, pos + n + SpaceRun(s, pos + n), pos + n, pos)
      else if OccursIn(s, c, spaceFrom, pos) then
        Walk(s, phrase, i + 1, pos, pos, runStart)
      else None
  }

  /** `c` occurs in `s[from..to]`, looked for from the left. */
  predicate OccursIn(s: string, c: char, from: nat, to: nat)
    requires from <= to <= |s|
    decreases |s| - from
  {
    from < to && (s[from] == c || OccursIn(s, c, from + 1, to))
  }

  /** `OccursIn` is membership in the slice. */
  lemma {:induction false} OccursInSlice(s: string, c: char, from: nat, to: nat)
    requires from <= to <= |s|
    ensures OccursIn(s, c, from, to) <==> c in s[from..to]
    decreases |s| - from
  {
    if from < to {
      OccursInSlice(s, c, from + 1, to);
      assert s[from..to] == [s[from]] + s[from + 1..to];
    }
  }

  /** Length of the run `c+` at `i` under IGNORECASE: `c` in either case. */
  function CaseRun(s: string, i: nat, c: char): (n: nat)
    requires i <= |s|
    ensures i + n <= |s|
    decreases |s| - i
  {
    if i < |s| && SameIgnoringCase(s[i], c) then 1 + CaseRun(s, i + 1, c) else 0
  }

  /** A case-insensitive run is determined by where it stops. */
  lemma {:induction false} CaseRunIs(s: string, i: nat, c: char, n: nat)
    requires i + n <= |s|
    requires forall k :: i <= k < i + n ==> SameIgnoringCase(s[k], c)
    requires i + n < |s| ==> !SameIgnoringCase(s[i + n], c)
    ensures CaseRun(s, i, c) == n
    decreases n
  {
    if n > 0 {
      CaseRunIs(s, i + 1, c, n - 1);
    }
  }

  /** Length of the whitespace run `\s*` at `i`. */
  function SpaceRun(s: string, i: nat): (n: nat)
    requires i <= |s|
    ensures i + n <= |s|
    decreases |s| - i
  {
    if i < |s| && IsSpace(s[i]) then 1 + SpaceRun(s, i + 1) else 0
  }

  /** A whitespace run is determined by where it stops. */
  lemma {:induction false} SpaceRunIs(s: string, i: nat, n: nat)
    requires i + n <= |s|
    requires forall k :: i <= k < i + n ==> IsSpace(s[k])
    requires i + n < |s| ==> !IsSpace(s[i + n])
    ensures SpaceRun(s, i) == n
    decreases n
  {
    if n > 0 {
      SpaceRunIs(s, i + 1, n - 1);
    }
  }

  /** The walk's whitespace run ends where `SkipSpace` does. */
  lemma SpaceRunSkips(s: string, i: nat)
    requires i <= |s|
    ensures i + SpaceRun(s, i) == SkipSpace(s, i)
  {
    var j := SkipSpace(s, i);
    SpaceRunIs(s, i, j - i);
  }

  /** A phrase whose last character is a letter, so a match of it ends in a letter run. */
  predicate EndsInLetter(phrase: string) {
    |phrase| > 0 && IsLetter(phrase[|phrase| - 1])
  }

  /**
   * The fuzzy phrase at `p`: start of its last letter run, and end after
   * trailing whitespace. For phrases satisfying `IsFuzzyLabel` this is the
   * only way the pattern can match at `p`.
   */
  function MatchAt(s: string, p: nat, phrase: string): (r: Option<(nat, nat)>)
    requires EndsInLetter(phrase)
    ensures r.Some? ==> p <= r.value.0 < r.value.1 <= |s|
  {
    if p > |s| then None else Walk(s, phrase, 0, p, p, p)
  }
}
