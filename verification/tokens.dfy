/**
 * The fixed token and label patterns the extractors search for, each written
 * as "does the pattern match at position p, and where does the match end".
 * Every quantifier in these patterns is followed by a character class disjoint
 * from the one it repeats, so a greedy run can only succeed at its longest
 * length and no other backtracking choice changes the outcome; the matchers
 * therefore take the longest run and check what must follow it.
 */
module Tokens {
  import opened Wrappers
  import opened Chars
  import opened Search

  predicate IsDateSeparator(c: char) { c == '-' || c == '/' || c == '.' }

  predicate IsSlashOrDash(c: char) { c == '-' || c == '/' }

  predicate IsDigitOrComma(c: char) { IsDigit(c) || c == ',' }

  /** A run of digits at `p` whose full length is 1 or 2 (`\d{1,2}` before a non-digit). */
  function ShortNumber(s: string, p: nat): (e: Option<nat>)
    ensures e.Some? ==> p < e.value <= p + 2 && e.value <= |s| && DigitsFrom(s, p, e.value)
  {
    if p <= |s| then
      var n := Run(s, p, IsDigit);
      RunHolds(s, p, IsDigit);
      if 1 <= n <= 2 then Some(p + n) else None
    else None
  }

  /** A day number read inside a text is read the same way inside a slice that holds it and what follows. */
  lemma ShortNumberInSlice(s: string, a: nat, b: nat, i: nat)
    requires a <= i <= |s| && ShortNumber(s, i).Some? && ShortNumber(s, i).value < b <= |s|
    ensures ShortNumber(s[a..b], i - a) == Some(ShortNumber(s, i).value - a)
  {
    RunInSlice(s, a, b, i, IsDigit);
  }

  predicate DigitsFrom(s: string, p: nat, e: nat) {
    p <= e <= |s| && forall k :: p <= k < e ==> IsDigit(s[k])
  }

  /** `\d{1,2}[sep]\d{1,2}[sep]\d{2,4}`, the sep class being `[-/.]` or `[/-]`. */
  function NumericDateAt(s: string, p: nat, dots: bool): (e: Option<nat>)
    ensures e.Some? ==> p < e.value <= |s| && IsDigit(s[p]) && IsDigit(s[e.value - 1])
  {
    match ShortNumber(s, p)
    case None => None
    case Some(a) =>
      if a < |s| && (IsSlashOrDash(s[a]) || (dots && s[a] == '.')) then
        match ShortNumber(s, a + 1)
        case None => None
        case Some(b) =>
          if b < |s| && (IsSlashOrDash(s[b]) || (dots && s[b] == '.')) then
            var n := Run(s, b + 1, IsDigit);
            RunHolds(s, b + 1, IsDigit);
            if n >= 2 then Some(b + 1 + (if n > 4 then 4 else n)) else None
          else None
      else None
  }

  /** `\d{4}-\d{2}-\d{2}`. */
  function IsoDateAt(s: string, p: nat): (e: Option<nat>)
    ensures e.Some? ==> e.value == p + 10 <= |s| && IsDigit(s[p]) && IsDigit(s[e.value - 1])
  {
    if p + 10 <= |s| && DigitsFrom(s, p, p + 4) && s[p + 4] == '-' && DigitsFrom(s, p + 5, p + 7)
       && s[p + 7] == '-' && DigitsFrom(s, p + 8, p + 10)
    then Some(p + 10) else None
  }

  /**
   * A month word, a day and a year: `[A-Za-z]{lo,hi}\s\d{1,2},\s\d{4}` when
   * `loose` is false and `[A-Za-z]{lo,hi}\s+\d{1,2},\s*\d{4}` when it is true;
   * `hi == 0` leaves the letter run unbounded (`[A-Za-z]+`).
   */
  function WordDayYearAt(s: string, p: nat, lo: nat, hi: nat, loose: bool): (e: Option<nat>)
    requires lo >= 1
    ensures e.Some? ==> p < e.value <= |s| && IsLetter(s[p]) && IsDigit(s[e.value - 1])
  {
    if p > |s| then None
    else
      var l := Run(s, p, IsLetter);
      if l < lo || (hi > 0 && l > hi) then None
      else
        var q := p + l;
        if !(q < |s| && IsSpace(s[q])) then None
        else
          var d := if loose then SkipSpace(s, q) else q + 1;
          match ShortNumber(s, d)
          case None => None
          case Some(c) =>
            if !(c < |s| && s[c] == ',') then None
            else
              var y := if loose then SkipSpace(s, c + 1)
                       else if c + 1 < |s| && IsSpace(s[c + 1]) then c + 2 else |s| + 1;
              if y + 4 <= |s| && DigitsFrom(s, y, y + 4) then Some(y + 4) else None
  }

  /** A month-word date (single-space form) matched inside a text is matched, whole, by its own slice. */
  lemma WordDayYearSlice(s: string, p: nat, e: nat, lo: nat, hi: nat)
    requires lo >= 1 && WordDayYearAt(s, p, lo, hi, false) == Some(e)
    ensures WordDayYearAt(s[p..e], 0, lo, hi, false) == Some(e - p)
  {
    var l := Run(s, p, IsLetter);
    WordDayYearWord(s, p, e, lo, hi, l);
    var c := ShortNumber(s, p + l + 1).value;
    WordDayYearDay(s, p, e, lo, hi, l, c);
    WordDayYearParts(s, p, e, l, c);
    WordDayYearFromParts(s[p..e], l, c - p, lo, hi);
  }

  /** The word of a single-space month-word date: its length is within bounds and a blank and a day follow. */
  lemma WordDayYearWord(s: string, p: nat, e: nat, lo: nat, hi: nat, l: nat)
    requires lo >= 1 && WordDayYearAt(s, p, lo, hi, false) == Some(e)
    requires p <= |s| && l == Run(s, p, IsLetter)
    ensures lo <= l && (hi == 0 || l <= hi) && p + l < |s| && IsSpace(s[p + l])
    ensures ShortNumber(s, p + l + 1).Some?
  {
  }

  /** The day of a single-space month-word date ends at `c`, before a comma, a blank and four year digits. */
  lemma WordDayYearDay(s: string, p: nat, e: nat, lo: nat, hi: nat, l: nat, c: nat)
    requires lo >= 1 && WordDayYearAt(s, p, lo, hi, false) == Some(e)
    requires p <= |s| && l == Run(s, p, IsLetter) && p + l < |s| && ShortNumber(s, p + l + 1) == Some(c)
    ensures c + 1 < |s| && s[c] == ',' && IsSpace(s[c + 1])
    ensures e == c + 6 && DigitsFrom(s, c + 2, e)
  {
  }

  /** A text laid out as word, blank, day, comma, blank, year is read as one date. */
  lemma WordDayYearFromParts(t: string, l: nat, d: nat, lo: nat, hi: nat)
    requires lo >= 1 && lo <= l && (hi == 0 || l <= hi)
    requires Run(t, 0, IsLetter) == l && l < |t| && IsSpace(t[l])
    requires ShortNumber(t, l + 1) == Some(d) && d + 1 < |t| && t[d] == ',' && IsSpace(t[d + 1])
    requires DigitsFrom(t, d + 2, d + 6)
    ensures WordDayYearAt(t, 0, lo, hi, false) == Some(d + 6)
  {
  }

  /** The pieces of a single-space month-word date, read again inside its own slice. */
  lemma WordDayYearParts(s: string, p: nat, e: nat, l: nat, c: nat)
    requires p <= |s| && l == Run(s, p, IsLetter) && p + l < |s| && IsSpace(s[p + l])
    requires ShortNumber(s, p + l + 1) == Some(c) && c + 1 < |s| && s[c] == ',' && IsSpace(s[c + 1])
    requires e == c + 6 && DigitsFrom(s, c + 2, e)
    ensures |s[p..e]| == c - p + 6 && Run(s[p..e], 0, IsLetter) == l && IsSpace(s[p..e][l])
    ensures ShortNumber(s[p..e], l + 1) == Some(c - p) && s[p..e][c - p] == ',' && IsSpace(s[p..e][c - p + 1])
    ensures DigitsFrom(s[p..e], c - p + 2, c - p + 6)
  {
    var t := s[p..e];
    var q := p + l;
    RunInSlice(s, p, e, p, IsLetter);
    assert t[l] == s[q];
    ShortNumberInSlice(s, p, e, q + 1);
    assert t[c - p] == s[c] && t[c + 1 - p] == s[c + 1];
    assert forall k :: c - p + 2 <= k < c - p + 6 ==> t[k] == s[k + p];
  }

  /** `\d{1,2}\s[A-Za-z]{3,9}\s\d{4}`. */
  function DayWordYearAt(s: string, p: nat): (e: Option<nat>)
    ensures e.Some? ==> p < e.value <= |s| && IsDigit(s[p]) && IsDigit(s[e.value - 1])
  {
    match ShortNumber(s, p)
    case None => None
    case Some(a) =>
      if !(a < |s| && IsSpace(s[a])) then None
      else
        var l := Run(s, a + 1, IsLetter);
        var q := a + 1 + l;
        if 3 <= l <= 9 && q < |s| && IsSpace(s[q]) && q + 5 <= |s| && DigitsFrom(s, q + 1, q + 5)
        then Some(q + 5) else None
  }

  /** The date token of the generic extractor, alternatives in the order written. */
  function DateTokenAt(s: string, p: nat): (e: Option<nat>)
    ensures e.Some? ==> p < e.value <= |s| && !IsSpace(s[p]) && IsDigit(s[e.value - 1])
  {
    match NumericDateAt(s, p, true)
    case Some(e) => Some(e)
    case None =>
      match IsoDateAt(s, p)
      case Some(e) => Some(e)
      case None =>
        match WordDayYearAt(s, p, 3, 9, false)
        case Some(e) => Some(e)
        case None => DayWordYearAt(s, p)
  }

  /** `[\d,]+\.\d{2}`. */
  function DecimalAt(s: string, p: nat): (e: Option<nat>)
    ensures e.Some? ==> p + 4 <= e.value <= |s| && IsCommaDecimal(s[p..e.value])
  {
    if p > |s| then None
    else
      var n := Run(s, p, IsDigitOrComma);
      RunHolds(s, p, IsDigitOrComma);
      var q := p + n;
      if n >= 1 && q + 3 <= |s| && s[q] == '.' && DigitsFrom(s, q + 1, q + 3) then
        CommaDecimalSlice(s, p, q);
        Some(q + 3)
      else None
  }

  lemma CommaDecimalSlice(s: string, p: nat, q: nat)
    requires p < q && q + 3 <= |s| && s[q] == '.' && DigitsFrom(s, q + 1, q + 3)
    requires forall k :: p <= k < q ==> IsDigitOrComma(s[k])
    ensures IsCommaDecimal(s[p..q + 3])
  {
    var a := s[p..q + 3];
    forall i | 0 <= i < |a| - 3 ensures IsDigitOrComma(a[i]) {
      assert a[i] == s[p + i];
    }
  }

  /** Where the text holds a `[\d,]+\.\d{2}` token, the decimal matcher reads exactly that token. */
  lemma DecimalAtToken(s: string, p: nat, a: string)
    requires IsCommaDecimal(a) && LiteralAt(s, p, a)
    ensures DecimalAt(s, p) == Some(p + |a|)
  {
    var n := |a| - 3;
    assert forall k :: p <= k < p + n ==> s[k] == a[k - p];
    assert s[p + n] == a[n];
    RunIs(s, p, IsDigitOrComma, n);
    assert s[p + n + 1] == a[n + 1] && s[p + n + 2] == a[n + 2];
  }

  /** Digits and commas, a point, two digits: what `[\d,]+\.\d{2}` matches. */
  predicate IsCommaDecimal(a: string) {
    && |a| >= 4
    && a[|a| - 3] == '.'
    && (forall i :: 0 <= i < |a| - 3 ==> IsDigitOrComma(a[i]))
    && IsDigit(a[|a| - 2]) && IsDigit(a[|a| - 1])
  }

  /** `s[q..f]` is a match of `[\d,]+\.\d{2}`. */
  predicate IsAmountSpan(s: string, q: nat, f: nat) {
    q <= f <= |s| && IsCommaDecimal(s[q..f])
  }

  /** Digits, a point and exactly two digits: the amounts the extractors report. */
  predicate IsPlainAmount(a: string) {
    && |a| >= 4
    && a[|a| - 3] == '.'
    && (forall i :: 0 <= i < |a| - 3 ==> IsDigit(a[i]))
    && IsDigit(a[|a| - 2]) && IsDigit(a[|a| - 1])
  }

  /** Possibly no digit before the point: what stripping commas from `[\d,]+\.\d{2}` leaves. */
  predicate IsDecimal2(a: string) {
    && |a| >= 3
    && a[|a| - 3] == '.'
    && (forall i :: 0 <= i < |a| - 3 ==> IsDigit(a[i]))
    && IsDigit(a[|a| - 2]) && IsDigit(a[|a| - 1])
  }

  /** Removing the commas from a `[\d,]+\.\d{2}` match leaves a two-decimal number. */
  lemma {:induction false} StripCommasDecimal(a: string)
    requires IsCommaDecimal(a)
    ensures IsDecimal2(Remove(a, ','))
    ensures IsDigit(a[0]) ==> IsPlainAmount(Remove(a, ','))
  {
    var k := |a| - 3;
    assert a == a[..k] + a[k..];
    RemoveAppend(a[..k], a[k..], ',');
    assert Remove(a[k..], ',') == a[k..] by {
      assert ',' !in a[k..];
    }
    DigitsAndCommas(a[..k]);
  }

  /** The text of an amount match with its commas removed (`.replace(",", "")`). */
  function AmountText(s: string, q: nat, f: nat): (a: string)
    requires IsAmountSpan(s, q, f)
    ensures IsDecimal2(a)
    ensures IsDigit(s[q]) ==> IsPlainAmount(a)
  {
    StripCommasDecimal(s[q..f]);
    Remove(s[q..f], ',')
  }

  lemma {:induction false} DigitsAndCommas(x: string)
    requires forall i :: 0 <= i < |x| ==> IsDigitOrComma(x[i])
    ensures AllDigits(Remove(x, ','))
    ensures |x| > 0 && IsDigit(x[0]) ==> |Remove(x, ',')| > 0
  {
    if |x| > 0 {
      DigitsAndCommas(x[1..]);
    }
  }

  /** The amount token of the generic extractor: optional currency mark, blanks, then the group. */
  function AmountAt(s: string, p: nat): (r: Option<(nat, nat)>)
    ensures r.Some? ==> p <= r.value.0 && r.value.0 + 4 <= r.value.1 <= |s|
    ensures r.Some? ==> IsAmountSpan(s, r.value.0, r.value.1) && IsDigit(s[r.value.0])
  {
    if p > |s| then None
    else
      var j := if p < |s| && (s[p] == '\U{20b9}' || s[p] == '`' || s[p] == '$') then p + 1 else p;
      var k := SkipSpace(s, j);
      match GroupedAmountAt(s, k)
      case Some(e) => Some((k, e))
      case None =>
        match PlainAmountAt(s, k)
        case Some(e) => Some((k, e))
        case None => None
  }

  /** `\d+\.\d{2}` at `p`: where it ends. */
  function PlainAmountAt(s: string, p: nat): (e: Option<nat>)
    requires p <= |s|
    ensures e.Some? ==> p + 4 <= e.value <= |s| && IsCommaDecimal(s[p..e.value]) && IsDigit(s[p])
  {
    var n := Run(s, p, IsDigit);
    RunHolds(s, p, IsDigit);
    var q := p + n;
    if n >= 1 && q + 3 <= |s| && s[q] == '.' && DigitsFrom(s, q + 1, q + 3) then
      CommaDecimalSlice(s, p, q);
      Some(q + 3)
    else None
  }

  /** `[0-9]{1,3}(?:,[0-9]{2,3})+\.\d{2}`. */
  function GroupedAmountAt(s: string, p: nat): (e: Option<nat>)
    ensures e.Some? ==> p + 4 <= e.value <= |s| && IsCommaDecimal(s[p..e.value]) && IsDigit(s[p])
  {
    if p > |s| then None
    else
      var n := Run(s, p, IsDigit);
      RunHolds(s, p, IsDigit);
      if !(1 <= n <= 3) then None
      else
        var q := CommaGroups(s, p + n);
        if q > p + n && q + 3 <= |s| && s[q] == '.' && DigitsFrom(s, q + 1, q + 3) then
          CommaDecimalSlice(s, p, q);
          Some(q + 3)
        else None
  }

  /** End of the longest sequence of `,` followed by a run of exactly two or three digits. */
  function CommaGroups(s: string, p: nat): (q: nat)
    requires p <= |s|
    ensures p <= q <= |s|
    ensures forall k :: p <= k < q ==> IsDigitOrComma(s[k])
    decreases |s| - p
  {
    if p < |s| && s[p] == ',' then
      var n := Run(s, p + 1, IsDigit);
      RunHolds(s, p + 1, IsDigit);
      if 2 <= n <= 3 then CommaGroups(s, p + 1 + n) else p
    else p
  }

  /**
   * `re.findall` of the amount token, commas removed: `_find_amounts_in_window`.
   * Each search resumes where the previous match ended.
   */
  function FindAmounts(s: string, p: nat): (r: seq<string>)
    requires p <= |s|
    ensures forall a :: a in r ==> IsPlainAmount(a)
    ensures r == [] <==> forall q :: p <= q <= |s| ==> AmountAt(s, q).None?
    decreases |s| - p
  {
    match NextAmount(s, p)
    case Some((a, e)) => [a] + FindAmounts(s, e)
    case None => []
  }

  /** The first amount `re.findall` lists is the one `re.search` finds. */
  lemma FindAmountsFirst(s: string, p: nat)
    requires p <= |s|
    ensures FindAmounts(s, p) == [] <==> FirstAmount(s, p).None?
    ensures |FindAmounts(s, p)| > 0 ==> Some(FindAmounts(s, p)[0]) == FirstAmount(s, p)
  {
  }

  /** The first amount token at or after `p`, commas removed (`re.search` of the token). */
  function FirstAmount(s: string, p: nat): (r: Option<string>)
    requires p <= |s|
    ensures r.Some? ==> IsPlainAmount(r.value)
    ensures r.None? <==> forall q :: p <= q <= |s| ==> AmountAt(s, q).None?
    ensures r.Some? ==> exists q ::
              p <= q <= |s| && AmountAt(s, q).Some? &&
              (forall k :: p <= k < q ==> AmountAt(s, k).None?) &&
              r.value == AmountText(s, AmountAt(s, q).value.0, AmountAt(s, q).value.1)
  {
    match NextAmount(s, p)
    case Some((a, _)) => Some(a)
    case None => None
  }

  /** The first amount token at or after `p`: its text with commas removed, and where it ends. */
  function NextAmount(s: string, p: nat): (r: Option<(string, nat)>)
    requires p <= |s|
    ensures r.Some? ==> IsPlainAmount(r.value.0) && p < r.value.1 <= |s|
    ensures r.None? <==> forall q :: p <= q <= |s| ==> AmountAt(s, q).None?
    ensures r.Some? ==> exists q ::
              p <= q <= |s| && AmountAt(s, q).Some? &&
              (forall k :: p <= k < q ==> AmountAt(s, k).None?) &&
              r.value.0 == AmountText(s, AmountAt(s, q).value.0, AmountAt(s, q).value.1)
  {
    var m := (q: nat) => AmountAt(s, q);
    assert forall q: nat :: m(q) == AmountAt(s, q);
    match FirstFrom(p, |s|, m)
    case Some((q, (k, e))) =>
      assert AmountAt(s, q) == Some((k, e)) && forall j :: p <= j < q ==> AmountAt(s, j).None?;
      Some((AmountText(s, k, e), e))
    case None => None
  }

  /** Labels `w1\s*w2\s*...` (`gap == false`) or `w1\s+w2\s+...` (`gap == true`), case ignored. */
  function LabelAt(s: string, p: nat, words: seq<string>, gap: bool): (e: Option<nat>)
    ensures e.Some? ==> p <= e.value <= |s|
    decreases |words|
  {
    if |words| == 0 then (if p <= |s| then Some(p) else None)
    else if !LiteralAtIgnoringCase(s, p, words[0]) then None
    else
      var q := p + |words[0]|;
      if |words| == 1 then Some(q)
      else if gap && !(q < |s| && IsSpace(s[q])) then None
      else LabelAt(s, SkipSpace(s, q), words[1..], gap)
  }
}
