/**
 * The HDFC extractor (parsers/hdfc_parser.py): amount and date clean-up, the
 * card-number cascade, the "date total minimum" payment row, OCR-tolerant
 * labels followed by a date, and the fallbacks `parse_hdfc` layers on top.
 */
module HdfcParser {
  import opened Wrappers
  import opened Chars
  import opened Search
  import opened TextUtils
  import opened Calendar
  import opened Tokens
  import opened Statement
  import CalendarFacts
  import FuzzyLabel
  import FuzzyVariants
  import GenericParser

  /** Every whitespace character is a plain space and no two spaces are adjacent. */
  predicate SingleSpaced(s: string) {
    && (forall i :: 0 <= i < |s| ==> IsSpace(s[i]) ==> s[i] == ' ')
    && (forall i :: 0 <= i < |s| - 1 ==> !(s[i] == ' ' && s[i + 1] == ' '))
  }

  /** `re.sub(r'\s+', ' ', s)`. */
  function CollapseSpaces(s: string): (r: string)
    ensures SingleSpaced(r)
    ensures |r| <= |s|
    ensures |s| > 0 <==> |r| > 0
    ensures |s| > 0 ==> (IsSpace(s[0]) <==> IsSpace(r[0]))
    ensures |s| > 0 ==> (IsSpace(s[|s| - 1]) <==> IsSpace(r[|r| - 1]))
    decreases |s|
  {
    if |s| == 0 then ""
    else if IsSpace(s[0]) then
      var j := SkipSpace(s, 0);
      var rest := CollapseSpaces(s[j..]);
      assert j < |s| ==> s[j..][0] == s[j];
      assert j < |s| ==> s[j..][|s[j..]| - 1] == s[|s| - 1];
      " " + rest
    else
      var rest := CollapseSpaces(s[1..]);
      assert |s| > 1 ==> s[1..][|s[1..]| - 1] == s[|s| - 1];
      [s[0]] + rest
  }

  /** Text that is already single-spaced comes back unchanged. */
  lemma {:induction false} CollapseSpacesFixpoint(s: string)
    requires SingleSpaced(s)
    ensures CollapseSpaces(s) == s
    decreases |s|
  {
    if |s| > 0 {
      if IsSpace(s[0]) {
        RunIs(s, 0, IsSpace, 1);
        assert SingleSpaced(s[1..]);
        CollapseSpacesFixpoint(s[1..]);
      } else {
        assert SingleSpaced(s[1..]);
        CollapseSpacesFixpoint(s[1..]);
      }
    }
  }

  /** `date_str.strip()` followed by `re.sub(r'\s+', ' ', date_str)`. */
  function CleanDate(raw: string): (t: string)
    ensures SingleSpaced(t)
    ensures |t| > 0 ==> !IsSpace(t[0]) && !IsSpace(t[|t| - 1])
    ensures t == "" <==> AllSpace(raw)
  {
    CollapseSpaces(Strip(raw))
  }

  /** Cleaning twice is cleaning once. */
  lemma CleanDateIdempotent(raw: string)
    ensures CleanDate(CleanDate(raw)) == CleanDate(raw)
  {
    var t := CleanDate(raw);
    StripUnchanged(t);
    CollapseSpacesFixpoint(t);
  }

  // ---------------------------------------------------------------- amounts

  /** The end of `\d+(?:\.\d{1,2})?` at `q`. */
  function AmountEnd(t: string, q: nat): (e: Option<nat>)
    ensures e.Some? ==> q < e.value <= |t| && IsDigit(t[q]) && IsDigit(t[e.value - 1])
  {
    if q > |t| then None
    else
      var n := Run(t, q, IsDigit);
      RunHolds(t, q, IsDigit);
      if n == 0 then None
      else
        var k := q + n;
        if k < |t| && t[k] == '.' && Run(t, k + 1, IsDigit) >= 1 then
          RunHolds(t, k + 1, IsDigit);
          Some(k + 1 + Min(Run(t, k + 1, IsDigit), 2))
        else Some(k)
  }

  /** What `normalize_amount` returns: digits, then possibly a point and one or two digits. */
  predicate IsAmountText(a: string) {
    AmountEnd(a, 0) == Some(|a|)
  }

  /** A match of the amount pattern read on its own is again a whole match. */
  lemma AmountMatchAlone(t: string, q: nat, e: nat)
    requires AmountEnd(t, q) == Some(e)
    ensures IsAmountText(t[q..e])
  {
    var a := t[q..e];
    var n := Run(t, q, IsDigit);
    var k := q + n;
    RunInSlice(t, q, e, q, IsDigit);
    assert Run(a, 0, IsDigit) == n;
    if k < e {
      assert k < |t| && t[k] == '.' && Run(t, k + 1, IsDigit) >= 1;
      var m := Run(t, k + 1, IsDigit);
      assert e == k + 1 + Min(m, 2);
      assert a[n] == '.';
      RunInSlice(t, q, e, k + 1, IsDigit);
      assert Run(a, n + 1, IsDigit) == Min(m, 2);
      FractionAmount(a, n);
    } else {
      assert n == |a|;
      WholeAmount(a);
    }
  }

  /** Digits alone are an amount. */
  lemma WholeAmount(a: string)
    requires |a| >= 1 && Run(a, 0, IsDigit) == |a|
    ensures IsAmountText(a)
  {
  }

  /** Digits, a point and one or two digits are an amount. */
  lemma FractionAmount(a: string, n: nat)
    requires n >= 1 && Run(a, 0, IsDigit) == n && n + 1 < |a| <= n + 3 && a[n] == '.'
    requires Run(a, n + 1, IsDigit) == |a| - n - 1
    ensures IsAmountText(a)
  {
  }

  /** `normalize_amount`: drop backquotes, rupee signs and commas, strip, take the first number. */
  function NormalizeAmount(s: string): (r: Option<string>)
    ensures r.Some? ==> IsAmountText(r.value)
  {
    if s == "" then None
    else
      var t := Strip(Remove(Remove(Remove(s, '`'), Rupee), ','));
      match FirstFrom(0, |t|, (q: nat) => AmountEnd(t, q))
      case Some((q, e)) =>
        AmountMatchAlone(t, q, e);
        Some(t[q..e])
      case None => None
  }

  /** An amount text holds nothing but digits and at most one point. */
  lemma AmountTextChars(a: string)
    requires IsAmountText(a)
    ensures |a| > 0 && IsDigit(a[0]) && IsDigit(a[|a| - 1])
    ensures forall i :: 0 <= i < |a| ==> IsDigit(a[i]) || a[i] == '.'
  {
    var n := Run(a, 0, IsDigit);
    RunHolds(a, 0, IsDigit);
    forall i | 0 <= i < |a| ensures IsDigit(a[i]) || a[i] == '.' {
      if i > n {
        var m := Run(a, n + 1, IsDigit);
        RunHolds(a, n + 1, IsDigit);
        assert |a| == n + 1 + Min(m, 2);
        assert n + 1 <= i < n + 1 + m;
      }
    }
  }

  /** An amount text is its own normal form. */
  lemma AmountTextIsFixed(a: string)
    requires IsAmountText(a)
    ensures NormalizeAmount(a) == Some(a)
  {
    AmountTextChars(a);
    assert '`' !in a && Rupee !in a && ',' !in a;
    StripUnchanged(a);
    assert Strip(Remove(Remove(Remove(a, '`'), Rupee), ',')) == a;
    assert a[0..|a|] == a;
  }

  /** A plain two-decimal amount is returned as it is. */
  lemma PlainAmountIsFixed(a: string)
    requires IsPlainAmount(a)
    ensures NormalizeAmount(a) == Some(a)
  {
    var n := |a| - 3;
    RunIs(a, 0, IsDigit, n);
    RunIs(a, n + 1, IsDigit, 2);
    assert IsAmountText(a);
    AmountTextIsFixed(a);
  }

  /** `normalize_amount` applied to its own answer gives the same answer. */
  lemma NormalizeAmountIdempotent(s: string)
    requires NormalizeAmount(s).Some?
    ensures NormalizeAmount(NormalizeAmount(s).value) == NormalizeAmount(s)
  {
    AmountTextIsFixed(NormalizeAmount(s).value);
  }

  /** A `[\d,]+\.\d{2}` capture that begins with a digit loses its commas and nothing else. */
  lemma CommaDecimalNormalised(a: string)
    requires IsCommaDecimal(a) && IsDigit(a[0])
    ensures NormalizeAmount(a) == Some(Remove(a, ','))
  {
    assert forall i :: 0 <= i < |a| ==> IsDigitOrComma(a[i]) || a[i] == '.';
    assert '`' !in a && Rupee !in a;
    var b := Remove(a, ',');
    StripCommasDecimal(a);
    PlainAmountIsFixed(b);
    assert ',' !in b && '`' !in b && Rupee !in b;
    assert Remove(Remove(Remove(a, '`'), Rupee), ',') == b;
    assert Remove(Remove(Remove(b, '`'), Rupee), ',') == b;
  }

  // ------------------------------------------------------------------ dates

  /** The formats `normalize_date_str` tries on the whole cleaned string. */
  const HdfcDateFormats: seq<Format> :=
    [SlashedDayMonthYear, DashedDayMonthYear, SlashedDayMonthShortYear,
     DayMonYear, DayMonYearSpaced, MonthNameDayYear, MonDayYear]

  /** The formats it tries on a `\d{1,2}[/-]\d{1,2}[/-]\d{2,4}` token found inside it. */
  const TokenFormats: seq<Format> :=
    [SlashedDayMonthYear, DashedDayMonthYear, SlashedDayMonthShortYear]

  /** The numeric date token of the HDFC patterns, `\d{1,2}[/-]\d{1,2}[/-]\d{2,4}`. */
  function SlashDateAt(s: string, p: nat): (e: Option<nat>)
    ensures e.Some? ==> p < e.value <= |s| && IsDigit(s[p]) && IsDigit(s[e.value - 1])
  {
    NumericDateAt(s, p, false)
  }

  /**
   * What `normalize_date_str` makes of an already cleaned string: ISO
   * `YYYY-MM-DD` under the first format that reads it, else the first embedded
   * numeric token as ISO, else the string itself.
   */
  function ReadCleaned(t: string): (r: string)
    ensures IsIsoShape(r) || r == t
    ensures FirstParse(t, HdfcDateFormats).Some? ==> r == Iso(FirstParse(t, HdfcDateFormats).value)
    ensures FirstParse(t, HdfcDateFormats).None? && TokenDate(t).Some? ==> r == Iso(TokenDate(t).value)
    ensures FirstParse(t, HdfcDateFormats).None? && TokenDate(t).None? ==> r == t
  {
    match FirstParse(t, HdfcDateFormats)
    case Some(d) => Iso(d)
    case None =>
      match TokenDate(t)
      case Some(d) => Iso(d)
      case None => t
  }

  /** `re.search(r'(\d{1,2}[/-]\d{1,2}[/-]\d{2,4})', t)`: the leftmost numeric date token. */
  function FirstSlashToken(t: string): (r: Option<string>)
    ensures r.None? <==> forall q :: 0 <= q <= |t| ==> SlashDateAt(t, q).None?
    ensures r.Some? ==> exists q ::
              0 <= q <= |t| && SlashDateAt(t, q).Some? &&
              (forall j :: 0 <= j < q ==> SlashDateAt(t, j).None?) &&
              r.value == t[q..SlashDateAt(t, q).value]
  {
    var m := (p: nat) => SlashDateAt(t, p);
    assert forall p: nat :: m(p) == SlashDateAt(t, p);
    match FirstFrom(0, |t|, m)
    case Some((q, e)) =>
      assert SlashDateAt(t, q) == Some(e) && forall j :: 0 <= j < q ==> SlashDateAt(t, j).None?;
      Some(t[q..e])
    case None => None
  }

  /** The date the leftmost numeric token reads as under the first token format that accepts it. */
  function TokenDate(t: string): (r: Option<Date>)
    ensures r.Some? ==> ValidDate(r.value)
    ensures r.Some? <==> FirstSlashToken(t).Some? && FirstParse(FirstSlashToken(t).value, TokenFormats).Some?
    ensures r.Some? ==> r == FirstParse(FirstSlashToken(t).value, TokenFormats)
  {
    match FirstSlashToken(t)
    case Some(token) => FirstParse(token, TokenFormats)
    case None => None
  }

  /** `normalize_date_str`: None for an empty argument, otherwise the cleaned string read as a date. */
  function NormalizeDateStr(raw: string): (r: Option<string>)
    ensures r.None? <==> raw == ""
    ensures r.Some? ==> IsIsoShape(r.value) || r.value == CleanDate(raw)
    ensures raw != "" && FirstParse(CleanDate(raw), HdfcDateFormats).Some? ==>
              r == Some(Iso(FirstParse(CleanDate(raw), HdfcDateFormats).value))
    ensures raw != "" && FirstParse(CleanDate(raw), HdfcDateFormats).None? && TokenDate(CleanDate(raw)).Some? ==>
              r == Some(Iso(TokenDate(CleanDate(raw)).value))
    ensures raw != "" && FirstParse(CleanDate(raw), HdfcDateFormats).None? && TokenDate(CleanDate(raw)).None? ==>
              r == Some(CleanDate(raw))
  {
    if raw == "" then None else Some(ReadCleaned(CleanDate(raw)))
  }

  /** A blank argument is not None but an empty string. */
  lemma BlankGivesEmpty(raw: string)
    requires raw != "" && AllSpace(raw)
    ensures NormalizeDateStr(raw) == Some("")
  {
    var p0 := Parsed(1900, 1, 1);
    forall k | 0 <= k < |HdfcDateFormats| ensures Strptime("", HdfcDateFormats[k]).None? {
      EmptyMatchesNothing(HdfcDateFormats[k], p0);
    }
    assert CleanDate(raw) == "";
  }

  /** In `YYYY-MM-DD` the first numeric token is `YY-MM-DD`, starting at the third character. */
  lemma IsoEmbeddedToken(d: Date)
    requires ValidDate(d)
    ensures FirstSlashToken(Iso(d)) == Some(Iso(d)[2..10])
  {
    var s := Iso(d);
    RunIs(s, 0, IsDigit, 4);
    RunIs(s, 1, IsDigit, 3);
    RunIs(s, 2, IsDigit, 2);
    RunIs(s, 5, IsDigit, 2);
    RunIs(s, 8, IsDigit, 2);
    assert SlashDateAt(s, 0).None? && SlashDateAt(s, 1).None?;
    assert SlashDateAt(s, 2) == Some(10);
  }

  /** The shape `YY-MM-DD`: two digits, a dash, two digits, a dash, two digits. */
  predicate ShortIsoShape(u: string) {
    && |u| == 8 && u[2] == '-' && u[5] == '-'
    && IsDigit(u[0]) && IsDigit(u[1]) && IsDigit(u[3]) && IsDigit(u[4]) && IsDigit(u[6]) && IsDigit(u[7])
  }

  /** `YY-MM-DD` is read by none of the token formats: the year needs four digits or slashes. */
  lemma ShortIsoTokenRejected(u: string)
    requires ShortIsoShape(u)
    ensures FirstParse(u, TokenFormats).None?
  {
    SlashedRejectsShortIso(u, SlashedDayMonthYear);
    SlashedRejectsShortIso(u, SlashedDayMonthShortYear);
    DashedRejectsShortIso(u);
    assert TokenFormats == [SlashedDayMonthYear, DashedDayMonthYear, SlashedDayMonthShortYear];
  }

  /** A format that wants a slash after the day fails on `YY-MM-DD`. */
  lemma SlashedRejectsShortIso(u: string, f: Format)
    requires ShortIsoShape(u) && |f| >= 2 && f[0] == Day && f[1] == Lit('/')
    ensures Strptime(u, f).None?
  {
    var p0 := Parsed(1900, 1, 1);
    match DayAt(u, 0)
    case None =>
    case Some((v, j)) =>
      assert u[j] != '/';
      assert MatchFormat(u, j, f[1..], p0.(day := v)).None?;
  }

  /** `%d-%m-%Y` fails on `YY-MM-DD`: two digits remain where the year wants four. */
  lemma DashedRejectsShortIso(u: string)
    requires ShortIsoShape(u)
    ensures Strptime(u, DashedDayMonthYear).None?
  {
    var f := DashedDayMonthYear;
    var p0 := Parsed(1900, 1, 1);
    match DayAt(u, 0)
    case None =>
    case Some((v, j)) =>
      var p1 := p0.(day := v);
      if j == 2 {
        match MonthNumberAt(u, 3)
        case None =>
          assert MatchFormat(u, 3, f[2..], p1).None?;
        case Some((w, k)) =>
          assert !DigitsAt(u, 6, 4);
          assert MatchFormat(u, k, f[3..], p1.(month := w)).None?;
          assert MatchFormat(u, 3, f[2..], p1).None?;
      } else {
        assert MatchFormat(u, j, f[1..], p1).None?;
      }
      assert MatchFormat(u, 0, f, p0).None?;
  }

  /** An ISO date has no whitespace, so cleaning leaves it alone. */
  lemma IsoIsClean(d: Date)
    requires ValidDate(d)
    ensures CleanDate(Iso(d)) == Iso(d)
  {
    var s := Iso(d);
    assert forall i :: 0 <= i < |s| ==> IsDigit(s[i]) || s[i] == '-';
    assert SingleSpaced(s);
    StripUnchanged(s);
    CollapseSpacesFixpoint(s);
  }

  /** No format of `normalize_date_str` reads an ISO date. */
  lemma IsoRejectedByHdfcFormats(d: Date)
    requires ValidDate(d)
    ensures FirstParse(Iso(d), HdfcDateFormats).None?
  {
    IsoRejectedByDayFirst(d);
    CalendarFacts.MonthFirstRejectsIso(d, MonthNameDayYear);
    CalendarFacts.MonthFirstRejectsIso(d, MonDayYear);
    assert forall k :: 0 <= k < 7 ==> Strptime(Iso(d), HdfcDateFormats[k]).None?;
  }

  /** The five day-first formats of `normalize_date_str` reject an ISO date. */
  lemma IsoRejectedByDayFirst(d: Date)
    requires ValidDate(d)
    ensures forall k :: 0 <= k < 5 ==> Strptime(Iso(d), HdfcDateFormats[k]).None?
  {
    CalendarFacts.DayFirstRejectsIso(d, SlashedDayMonthYear);
    CalendarFacts.DayFirstRejectsIso(d, DashedDayMonthYear);
    CalendarFacts.DayFirstRejectsIso(d, SlashedDayMonthShortYear);
    CalendarFacts.DayFirstRejectsIso(d, DayMonYear);
    CalendarFacts.DayFirstRejectsIso(d, DayMonYearSpaced);
  }

  /** `normalize_date_str` leaves an ISO date as it is. */
  lemma IsoIsKept(d: Date)
    requires ValidDate(d)
    ensures NormalizeDateStr(Iso(d)) == Some(Iso(d))
  {
    IsoIsClean(d);
    IsoRejectedByHdfcFormats(d);
    IsoHasNoTokenDate(d);
  }

  /** The numeric token inside an ISO date, `YY-MM-DD`, is read by none of the token formats. */
  lemma IsoHasNoTokenDate(d: Date)
    requires ValidDate(d)
    ensures TokenDate(Iso(d)).None?
  {
    var s := Iso(d);
    IsoEmbeddedToken(d);
    ShortIsoTokenRejected(s[2..10]);
  }

  /** A day-first slashed date is read day first: "12/09/2025" is the twelfth of September. */
  lemma DayFirstExample()
    ensures NormalizeDateStr("12/09/2025") == Some("2025-09-12")
  {
    CleanExample("12/09/2025");
    DayFirstParse();
    IsoExample();
  }

  /** `strftime("%Y-%m-%d")` of the twelfth of September 2025. */
  lemma IsoExample()
    ensures Iso(Date(2025, 9, 12)) == "2025-09-12"
  {
    assert Pad2(20) == "20" && Pad2(25) == "25";
    assert Pad4(2025) == "2025";
    assert Pad2(9) == "09" && Pad2(12) == "12";
  }

  /** "12/09/2025" is read by the first format, `%d/%m/%Y`. */
  lemma DayFirstParse()
    ensures FirstParse("12/09/2025", HdfcDateFormats) == Some(Date(2025, 9, 12))
  {
    var s := "12/09/2025";
    assert DigitIn(s, 0, '1', '2') && DigitIn(s, 1, '0', '9') && DigitValue(s[0]) == 1 && DigitValue(s[1]) == 2;
    assert DayAt(s, 0) == Some((12, 2));
    assert DigitIn(s, 3, '0', '0') && DigitIn(s, 4, '1', '9') && DigitValue(s[4]) == 9;
    assert MonthNumberAt(s, 3) == Some((9, 5));
    assert s[6..] == "2025";
    SlashedReading(s, 12, 9);
    assert Strptime(s, SlashedDayMonthYear) == Some(Date(2025, 9, 12));
  }

  /** A date that does not exist is handed back as written: "31/02/2025" stays "31/02/2025". */
  lemma ImpossibleDateExample()
    ensures NormalizeDateStr("31/02/2025") == Some("31/02/2025")
  {
    CleanExample("31/02/2025");
    ImpossibleDateUnread();
    ImpossibleDateToken();
  }

  /** No format of `normalize_date_str` reads "31/02/2025". */
  lemma ImpossibleDateUnread()
    ensures FirstParse("31/02/2025", HdfcDateFormats).None?
    ensures FirstParse("31/02/2025", TokenFormats).None?
  {
    var s := "31/02/2025";
    ImpossibleDayFirst();
    ImpossibleShortYear();
    ImpossibleOtherFormats();
    ImpossibleMonthFirst();
    forall k | 0 <= k < |HdfcDateFormats| ensures Strptime(s, HdfcDateFormats[k]).None? {
      var f := HdfcDateFormats[k];
      assert f == SlashedDayMonthYear || f == DashedDayMonthYear || f == SlashedDayMonthShortYear ||
             f == DayMonYear || f == DayMonYearSpaced || f == MonthNameDayYear || f == MonDayYear;
    }
    assert TokenFormats == HdfcDateFormats[..3];
  }

  /** `%d/%m/%Y` reads the thirty-first of February, which does not exist. */
  lemma ImpossibleDayFirst()
    ensures Strptime("31/02/2025", SlashedDayMonthYear).None?
  {
    var s := "31/02/2025";
    assert DigitIn(s, 0, '3', '3') && DigitIn(s, 1, '0', '1') && DigitValue(s[1]) == 1;
    assert DayAt(s, 0) == Some((31, 2));
    assert DigitIn(s, 3, '0', '0') && DigitIn(s, 4, '1', '9') && DigitValue(s[4]) == 2;
    assert MonthNumberAt(s, 3) == Some((2, 5));
    assert s[6..] == "2025";
    SlashedReading(s, 31, 2);
    assert !ValidDate(Date(2025, 2, 31));
  }

  /** The day-first formats with a dash or a space after the day fail on "31/02/2025" at its first slash. */
  lemma ImpossibleOtherFormats()
    ensures Strptime("31/02/2025", DashedDayMonthYear).None?
    ensures Strptime("31/02/2025", DayMonYear).None?
    ensures Strptime("31/02/2025", DayMonYearSpaced).None?
  {
    var s := "31/02/2025";
    assert DigitIn(s, 0, '3', '3') && DigitIn(s, 1, '0', '1') && DigitValue(s[1]) == 1;
    assert DayAt(s, 0) == Some((31, 2));
    assert s[2] == '/' && !IsSpace(s[2]);
    assert DashedDayMonthYear[1..][0] == Lit('-') && DayMonYear[1..][0] == Lit('-');
    assert DayMonYearSpaced[1..][0] == Spaces;
  }

  /** The month-word formats fail on "31/02/2025" at its first digit. */
  lemma ImpossibleMonthFirst()
    ensures Strptime("31/02/2025", MonthNameDayYear).None?
    ensures Strptime("31/02/2025", MonDayYear).None?
  {
    var s := "31/02/2025";
    CalendarFacts.MonthFirstRejectsDigit(s, MonthNameDayYear);
    CalendarFacts.MonthFirstRejectsDigit(s, MonDayYear);
  }

  /** `%d/%m/%y` reads "31/02/20" and leaves "25" over. */
  lemma ImpossibleShortYear()
    ensures Strptime("31/02/2025", SlashedDayMonthShortYear).None?
  {
    var s := "31/02/2025";
    var f := SlashedDayMonthShortYear;
    assert DigitIn(s, 0, '3', '3') && DigitIn(s, 1, '0', '1') && DigitValue(s[1]) == 1;
    assert DayAt(s, 0) == Some((31, 2));
    assert DigitIn(s, 3, '0', '0') && DigitIn(s, 4, '1', '9') && DigitValue(s[4]) == 2;
    assert MonthNumberAt(s, 3) == Some((2, 5));
    assert s[2] == '/' && s[5] == '/' && DigitsAt(s, 6, 2);
    assert f[1..] == [Lit('/'), MonthNumber, Lit('/'), Year2] && f[2..] == [MonthNumber, Lit('/'), Year2];
    assert f[3..] == [Lit('/'), Year2] && f[4..] == [Year2] && f[5..] == [];
    var acc := Parsed(1900, 2, 31);
    var y := NumberAt(s, 6, 2);
    var fin := acc.(year := if y <= 68 then 2000 + y else 1900 + y);
    assert MatchFormat(s, 6, f[4..], acc) == Some((fin, 8));
    assert MatchFormat(s, 5, f[3..], acc) == Some((fin, 8));
    assert MatchFormat(s, 3, f[2..], Parsed(1900, 1, 31)) == Some((fin, 8));
    assert MatchFormat(s, 2, f[1..], Parsed(1900, 1, 31)) == Some((fin, 8));
  }

  /** The numeric token found inside "31/02/2025" is the whole string. */
  lemma ImpossibleDateToken()
    ensures FirstSlashToken("31/02/2025") == Some("31/02/2025")
  {
    var s := "31/02/2025";
    SlashDateOf(s, 0);
    assert s[0..10] == s;
  }

  /** How `%d/%m/%Y` reads a `DD/MM/2025` string with a two-digit day and month. */
  lemma SlashedReading(s: string, day: int, month: int)
    requires |s| == 10 && s[2] == '/' && s[5] == '/' && s[6..] == "2025"
    requires DayAt(s, 0) == Some((day, 2)) && MonthNumberAt(s, 3) == Some((month, 5))
    ensures MatchFormat(s, 0, SlashedDayMonthYear, Parsed(1900, 1, 1)) == Some((Parsed(2025, month, day), 10))
  {
    var f := SlashedDayMonthYear;
    assert s[6] == '2' && s[7] == '0' && s[8] == '2' && s[9] == '5';
    assert NumberAt(s, 6, 1) == 2;
    assert NumberAt(s, 6, 2) == 20;
    assert NumberAt(s, 6, 3) == 202;
    assert NumberAt(s, 6, 4) == 2025;
    var acc := Parsed(1900, month, day);
    assert f[4..] == [Year4] && f[3..] == [Lit('/'), Year4];
    assert f[2..] == [MonthNumber, Lit('/'), Year4] && f[1..] == [Lit('/'), MonthNumber, Lit('/'), Year4];
    assert MatchFormat(s, 10, [], Parsed(2025, month, day)) == Some((Parsed(2025, month, day), 10));
    assert MatchFormat(s, 6, f[4..], acc) == Some((Parsed(2025, month, day), 10));
    assert MatchFormat(s, 5, f[3..], acc) == Some((Parsed(2025, month, day), 10));
    assert MatchFormat(s, 3, f[2..], Parsed(1900, 1, day)) == Some((Parsed(2025, month, day), 10));
    assert MatchFormat(s, 2, f[1..], Parsed(1900, 1, day)) == Some((Parsed(2025, month, day), 10));
  }

  /** A date written without whitespace is already clean. */
  lemma CleanExample(s: string)
    requires |s| > 0 && forall i :: 0 <= i < |s| ==> IsDigit(s[i]) || s[i] == '/'
    ensures CleanDate(s) == s
  {
    assert SingleSpaced(s);
    StripUnchanged(s);
    CollapseSpacesFixpoint(s);
  }

  /** `normalize_date_str` applied to its own non-empty answer gives the same answer. */
  lemma NormalizeDateStrIdempotent(raw: string)
    requires NormalizeDateStr(raw).Some? && NormalizeDateStr(raw).value != ""
    ensures NormalizeDateStr(NormalizeDateStr(raw).value) == NormalizeDateStr(raw)
  {
    var t := CleanDate(raw);
    CleanDateIdempotent(raw);
    if FirstParse(t, HdfcDateFormats).Some? {
      IsoIsKept(FirstParse(t, HdfcDateFormats).value);
    } else if TokenDate(t).Some? {
      IsoIsKept(TokenDate(t).value);
    } else {
      assert ReadCleaned(t) == t;
    }
  }

  // ------------------------------------------------------------ card number

  /** The digits of `t` in order (`re.findall(r'\d', t)`). */
  function DigitsOf(t: string): (r: string)
    ensures AllDigits(r) && |r| <= |t|
    ensures AllDigits(t) ==> r == t
  {
    if |t| == 0 then ""
    else (if IsDigit(t[0]) then [t[0]] else "") + DigitsOf(t[1..])
  }

  /** `"".join(digits[-4:])` guarded by `len(digits) >= 4`. */
  function LastFourDigits(t: string): (r: Option<string>)
    ensures r.Some? <==> |DigitsOf(t)| >= 4
    ensures r.Some? ==> IsLast4(r.value) && r.value == DigitsOf(t)[|DigitsOf(t)| - 4..]
  {
    var d := DigitsOf(t);
    if |d| >= 4 then Some(d[|d| - 4..]) else None
  }

  /** `[0-9Xx\s\-]` under IGNORECASE. */
  predicate IsCardNoChar(c: char) { IsDigit(c) || c == 'X' || c == 'x' || IsSpace(c) || c == '-' }

  /**
   * `card\s*no[:\s]*([0-9Xx\s\-]{8,30})` at `p`: the bounds of the group. The
   * `[:\s]*` run gives back whitespace, latest start first, until eight
   * characters of the group's class follow.
   */
  function CardNoAt(s: string, p: nat): (r: Option<(nat, nat)>)
    ensures r.Some? ==> p <= r.value.0 && r.value.0 + 8 <= r.value.1 <= r.value.0 + 30 && r.value.1 <= |s|
    ensures r.Some? ==> forall k :: r.value.0 <= k < r.value.1 ==> IsCardNoChar(s[k])
  {
    match LabelAt(s, p, ["card", "no"], false)
    case None => None
    case Some(e) =>
      var e2 := e + Run(s, e, IsColonOrSpace);
      var m := (k: nat) => if k <= |s| && Run(s, k, IsCardNoChar) >= 8 then Some(k) else None;
      match FirstDown(e2, e, m)
      case Some((k, _)) =>
        var n := Run(s, k, IsCardNoChar);
        RunHolds(s, k, IsCardNoChar);
        Some((k, k + (if n > 30 then 30 else n)))
      case None => None
  }

  predicate IsSepChar(c: char) { IsSpace(c) || c == '-' }

  /** Four digits at `c`: where they end. */
  function FourDigitsEnd(s: string, c: nat): (r: Option<nat>)
    ensures r.Some? ==> r.value == c + 4 <= |s| && DigitsFrom(s, c, c + 4)
  {
    if c + 4 <= |s| && DigitsFrom(s, c, c + 4) then Some(c + 4) else None
  }

  /**
   * `\w*[\s\-]?\d{4}` from `b`: the `\w*` run gives back characters until
   * four digits follow, the separator being tried first where the run ends.
   */
  function WordTailAt(s: string, b: nat): (r: Option<nat>)
    requires b <= |s|
    ensures r.Some? ==> b + 4 <= r.value <= |s| && DigitsFrom(s, r.value - 4, r.value)
  {
    var w := b + Run(s, b, IsWordChar);
    if w < |s| && IsSepChar(s[w]) && FourDigitsEnd(s, w + 1).Some? then FourDigitsEnd(s, w + 1)
    else
      match FirstDown(w, b, (c: nat) => FourDigitsEnd(s, c))
      case Some((_, e)) => Some(e)
      case None => None
  }

  /** `\d{4}[\s\-]?\d{2}X{2}[\s\-]?\w*[\s\-]?\d{4}` at `p`: where the match ends. */
  function MaskedNumberAt(s: string, p: nat): (r: Option<nat>)
    ensures r.Some? ==> p + 12 <= r.value <= |s| && DigitsFrom(s, p, p + 4) && DigitsFrom(s, r.value - 4, r.value)
  {
    if !(p + 4 <= |s| && DigitsFrom(s, p, p + 4)) then None
    else
      var a := if p + 4 < |s| && IsSepChar(s[p + 4]) then p + 5 else p + 4;
      if !(a + 4 <= |s| && DigitsFrom(s, a, a + 2) && s[a + 2] == 'X' && s[a + 3] == 'X') then None
      else
        var x := a + 4;
        var taken := if x < |s| && IsSepChar(s[x]) then WordTailAt(s, x + 1) else None;
        if taken.Some? then taken else WordTailAt(s, x)
  }

  /** `[Xx]{2,}[^0-9]*?(\d{4})` at `p`: where the group starts (the first digit after the mask). */
  function MaskRunAt(s: string, p: nat): (r: Option<nat>)
    ensures r.Some? ==> p + 2 <= r.value && r.value + 4 <= |s| && DigitsFrom(s, r.value, r.value + 4)
    ensures r.Some? ==> forall k :: p <= k < r.value ==> !IsDigit(s[k])
  {
    if p > |s| then None
    else
      var n := Run(s, p, GenericParser.IsMaskX);
      RunHolds(s, p, GenericParser.IsMaskX);
      if n < 2 then None
      else
        var q := p + n + Run(s, p + n, IsNonDigit);
        RunHolds(s, p + n, IsNonDigit);
        if q + 4 <= |s| && DigitsFrom(s, q, q + 4) then Some(q) else None
  }

  /** `\b` at `i`: word characters on exactly one side. */
  predicate WordBoundary(s: string, i: nat) {
    (0 < i <= |s| && IsWordChar(s[i - 1])) != (i < |s| && IsWordChar(s[i]))
  }

  /**
   * `(?:\d[ -]?){count,19}\b` continued from `i` after `count` units: another
   * unit first (with its separator, then without), and only then the end.
   */
  function DigitUnitsFrom(s: string, i: nat, count: nat): (r: Option<nat>)
    requires i <= |s| && count <= 19
    ensures r.Some? ==> i <= r.value <= |s| && WordBoundary(s, r.value)
    ensures r.Some? && count < 12 ==> i < r.value
    decreases 19 - count
  {
    var more :=
      if count < 19 && i < |s| && IsDigit(s[i]) then
        var withSep :=
          if i + 1 < |s| && (s[i + 1] == ' ' || s[i + 1] == '-') then DigitUnitsFrom(s, i + 2, count + 1) else None;
        if withSep.Some? then withSep else DigitUnitsFrom(s, i + 1, count + 1)
      else None;
    if more.Some? then more
    else if count >= 12 && WordBoundary(s, i) then Some(i)
    else None
  }

  /** `\b(?:\d[ -]?){12,19}\b` at `p`: where the match ends. */
  function DigitRunAt(s: string, p: nat): (r: Option<nat>)
    ensures r.Some? ==> p < r.value <= |s|
  {
    if p <= |s| && WordBoundary(s, p) then DigitUnitsFrom(s, p, 0) else None
  }

  /** `re.search` finds the "card no" pattern at `p`: it matches there and nowhere earlier. */
  predicate FirstCardNo(text: string, p: nat) {
    p <= |text| && CardNoAt(text, p).Some? && forall q :: 0 <= q < p ==> CardNoAt(text, q).None?
  }

  /** The `m` strategy: the last four digits of the group after "card no". */
  function ByCardNo(text: string): (r: Option<string>)
    ensures r.Some? ==> IsLast4(r.value)
    ensures (forall p :: 0 <= p <= |text| ==> CardNoAt(text, p).None?) ==> r.None?
    ensures forall p: nat :: FirstCardNo(text, p) ==>
              r == LastFourDigits(text[CardNoAt(text, p).value.0..CardNoAt(text, p).value.1])
  {
    var m := (p: nat) => CardNoAt(text, p);
    assert forall p: nat :: m(p) == CardNoAt(text, p);
    match FirstFrom(0, |text|, m)
    case Some((p, (a, b))) =>
      assert forall p' :: FirstCardNo(text, p') ==> p' == p;
      LastFourDigits(text[a..b])
    case None => None
  }

  /** `re.search` finds the masked-number pattern at `p`. */
  predicate FirstMaskedNumber(text: string, p: nat) {
    p <= |text| && MaskedNumberAt(text, p).Some? && forall q :: 0 <= q < p ==> MaskedNumberAt(text, q).None?
  }

  /** The `m2` strategy: the last four digits of the masked number. */
  function ByMaskedNumber(text: string): (r: Option<string>)
    ensures r.Some? ==> IsLast4(r.value)
    ensures (forall p :: 0 <= p <= |text| ==> MaskedNumberAt(text, p).None?) ==> r.None?
    ensures forall p: nat :: FirstMaskedNumber(text, p) ==>
              r == LastFourDigits(text[p..MaskedNumberAt(text, p).value])
  {
    var m := (p: nat) => MaskedNumberAt(text, p);
    assert forall p: nat :: m(p) == MaskedNumberAt(text, p);
    match FirstFrom(0, |text|, m)
    case Some((p, e)) =>
      assert forall p' :: FirstMaskedNumber(text, p') ==> p' == p;
      LastFourDigits(text[p..e])
    case None => None
  }

  /** `re.search` finds the mask-run pattern at `p`. */
  predicate FirstMaskRun(text: string, p: nat) {
    p <= |text| && MaskRunAt(text, p).Some? && forall q :: 0 <= q < p ==> MaskRunAt(text, q).None?
  }

  /** There is one leftmost mask-run match. */
  lemma OnlyFirstMaskRun(text: string, p: nat)
    requires FirstMaskRun(text, p)
    ensures forall p': nat :: FirstMaskRun(text, p') ==> p' == p
  {
  }

  /** The `m3` strategy: the four digits after the first mask run that has them. */
  function ByMaskRun(text: string): (r: Option<string>)
    ensures r.Some? ==> IsLast4(r.value)
    ensures (forall p :: 0 <= p <= |text| ==> MaskRunAt(text, p).None?) ==> r.None?
    ensures forall p: nat :: FirstMaskRun(text, p) ==>
              r == Some(text[MaskRunAt(text, p).value..MaskRunAt(text, p).value + 4])
  {
    var m := (p: nat) => MaskRunAt(text, p);
    assert forall p: nat :: m(p) == MaskRunAt(text, p);
    match FirstFrom(0, |text|, m)
    case Some((p, q)) =>
      OnlyFirstMaskRun(text, p);
      Some(text[q..q + 4])
    case None => None
  }

  /** `re.search` finds the 12-to-19-digit pattern at `p`. */
  predicate FirstDigitRun(text: string, p: nat) {
    p <= |text| && DigitRunAt(text, p).Some? && forall q :: 0 <= q < p ==> DigitRunAt(text, q).None?
  }

  /** The `m4` strategy: the last four digits of a 12 to 19 digit number. */
  function ByDigitRun(text: string): (r: Option<string>)
    ensures r.Some? ==> IsLast4(r.value)
    ensures (forall p :: 0 <= p <= |text| ==> DigitRunAt(text, p).None?) ==> r.None?
    ensures forall p: nat :: FirstDigitRun(text, p) ==>
              r == LastFourDigits(text[p..DigitRunAt(text, p).value])
  {
    var m := (p: nat) => DigitRunAt(text, p);
    assert forall p: nat :: m(p) == DigitRunAt(text, p);
    match FirstFrom(0, |text|, m)
    case Some((p, e)) =>
      assert forall p' :: FirstDigitRun(text, p') ==> p' == p;
      LastFourDigits(text[p..e])
    case None => None
  }

  /** `extract_last4_from_cardno`: the four strategies in order. */
  function ExtractLast4FromCardNo(text: string): (r: Option<string>)
    ensures r.Some? ==> IsLast4(r.value)
    ensures text == "" ==> r.None?
    ensures r.None? <==> text == "" || (ByCardNo(text).None? && ByMaskedNumber(text).None?
                                        && ByMaskRun(text).None? && ByDigitRun(text).None?)
    ensures text != "" && ByCardNo(text).Some? ==> r == ByCardNo(text)
    ensures text != "" && ByCardNo(text).None? && ByMaskedNumber(text).Some? ==> r == ByMaskedNumber(text)
    ensures text != "" && ByCardNo(text).None? && ByMaskedNumber(text).None? && ByMaskRun(text).Some? ==>
              r == ByMaskRun(text)
    ensures text != "" && ByCardNo(text).None? && ByMaskedNumber(text).None? && ByMaskRun(text).None? ==>
              r == ByDigitRun(text)
  {
    if text == "" then None
    else if ByCardNo(text).Some? then ByCardNo(text)
    else if ByMaskedNumber(text).Some? then ByMaskedNumber(text)
    else if ByMaskRun(text).Some? then ByMaskRun(text)
    else ByDigitRun(text)
  }

  /** The digits of a concatenation are the digits of each part. */
  lemma {:induction false} DigitsOfAppend(a: string, b: string)
    ensures DigitsOf(a + b) == DigitsOf(a) + DigitsOf(b)
  {
    if |a| == 0 {
      assert a + b == b;
    } else {
      var h := if IsDigit(a[0]) then [a[0]] else "";
      assert (a + b)[0] == a[0] && (a + b)[1..] == a[1..] + b;
      assert DigitsOf(a + b) == h + DigitsOf(a[1..] + b);
      assert DigitsOf(a) == h + DigitsOf(a[1..]);
      DigitsOfAppend(a[1..], b);
      assert h + (DigitsOf(a[1..]) + DigitsOf(b)) == (h + DigitsOf(a[1..])) + DigitsOf(b);
    }
  }

  /** A text without digits has none to give. */
  lemma {:induction false} NoDigitsOf(t: string)
    requires forall k :: 0 <= k < |t| ==> !IsDigit(t[k])
    ensures DigitsOf(t) == ""
  {
    if |t| > 0 {
      NoDigitsOf(t[1..]);
    }
  }

  /** The example opens with the "card no" label. */
  lemma CardNoLabelExample(t: string)
    requires t == "Card No: XXXX XXXX XXXX 1234"
    ensures LabelAt(t, 0, ["card", "no"], false) == Some(7)
  {
    CardNoWords(t);
    RunIs(t, 4, IsSpace, 1);
    TwoWordLabel(t, 0, "card", "no", 5);
  }

  lemma CardNoWords(t: string)
    requires t == "Card No: XXXX XXXX XXXX 1234"
    ensures LiteralAtIgnoringCase(t, 0, "card") && LiteralAtIgnoringCase(t, 5, "no")
    ensures IsSpace(t[4]) && !IsSpace(t[5])
  {
  }

  /** `w1\s*w2` read word by word. */
  lemma TwoWordLabel(s: string, p: nat, w1: string, w2: string, q: nat)
    requires LiteralAtIgnoringCase(s, p, w1) && p + |w1| <= |s| && SkipSpace(s, p + |w1|) == q
    requires LiteralAtIgnoringCase(s, q, w2)
    ensures LabelAt(s, p, [w1, w2], false) == Some(q + |w2|)
  {
    assert [w1, w2][1..] == [w2];
    assert LabelAt(s, q, [w2], false) == Some(q + |w2|);
  }

  /** In the example the label's `[:\s]*` takes ": " and the group's class covers the rest. */
  lemma CardNoRunsExample(t: string)
    requires t == "Card No: XXXX XXXX XXXX 1234"
    ensures Run(t, 7, IsColonOrSpace) == 2 && Run(t, 9, IsCardNoChar) == 19
  {
    RunIs(t, 7, IsColonOrSpace, 2);
    RunIs(t, 9, IsCardNoChar, 19);
  }

  /** The "card no" label of the example, and the masked group after it. */
  lemma MaskedCardNoAt(t: string)
    requires t == "Card No: XXXX XXXX XXXX 1234"
    ensures CardNoAt(t, 0) == Some((9, 28))
  {
    CardNoLabelExample(t);
    CardNoRunsExample(t);
  }

  /** A mask without digits followed by four digits gives those four digits. */
  lemma MaskThenFour(m: string, d: string)
    requires forall k :: 0 <= k < |m| ==> !IsDigit(m[k])
    requires |d| == 4 && AllDigits(d)
    ensures LastFourDigits(m + d) == Some(d)
  {
    NoDigitsOf(m);
    DigitsOfAppend(m, d);
  }

  /** In the example the group's digits are its last four characters. */
  lemma MaskedGroupDigits(t: string)
    requires t == "Card No: XXXX XXXX XXXX 1234"
    ensures LastFourDigits(t[9..28]) == Some(t[24..28])
  {
    var m, d := t[9..24], t[24..28];
    assert t[9..28] == m + d;
    MaskThenFour(m, d);
  }

  /** A "card no" match at the start of the text is the one the first strategy reads. */
  lemma CardNoAtStart(t: string, a: nat, b: nat)
    requires CardNoAt(t, 0) == Some((a, b))
    ensures ByCardNo(t) == LastFourDigits(t[a..b])
  {
    assert FirstCardNo(t, 0);
  }

  /** A fully masked card number after "Card No:" gives its four visible digits. */
  lemma MaskedCardNoExample(t: string)
    requires t == "Card No: XXXX XXXX XXXX 1234"
    ensures ExtractLast4FromCardNo(t) == Some("1234")
  {
    MaskedCardNoAt(t);
    CardNoAtStart(t, 9, 28);
    MaskedGroupDigits(t);
    VisibleDigits(t);
  }

  /** The example's last four characters. */
  lemma VisibleDigits(t: string)
    requires t == "Card No: XXXX XXXX XXXX 1234"
    ensures t[24..28] == "1234"
  {
    var d := t[24..28];
    assert |d| == 4 && d[0] == '1' && d[1] == '2' && d[2] == '3' && d[3] == '4';
  }

  // ----------------------------------------------------------- payment row

  /** A backquote or rupee sign, which OCR and PDF text use for the currency. */
  predicate IsMark(c: char) { c == '`' || c == Rupee }

  /** `[`\u20b9]?\s*` from `i`. */
  function SkipMark(s: string, i: nat): (j: nat)
    requires i <= |s|
    ensures i <= j <= |s|
  {
    SkipSpace(s, if i < |s| && IsMark(s[i]) then i + 1 else i)
  }

  /** Between columns: `\s+[`\u20b9]?\s*`, or with `piped` `\s*[|,]\s*[`\u20b9]?\s*`; where the amount starts. */
  function ColumnGap(s: string, i: nat, piped: bool): (r: Option<nat>)
    requires i <= |s|
    ensures r.Some? ==> i < r.value <= |s|
  {
    if piped then
      var j := SkipSpace(s, i);
      if j < |s| && (s[j] == '|' || s[j] == ',') then Some(SkipMark(s, SkipSpace(s, j + 1))) else None
    else if i < |s| && IsSpace(s[i]) then Some(SkipMark(s, SkipSpace(s, i)))
    else None
  }

  /** The three captures of a payment row: due date, total dues, minimum due. */
  datatype Row = Row(date: string, total: string, minimum: string)

  /** A column gap and the `[\d,]+\.\d{2}` amount after it: the amount's bounds. */
  function AmountColumn(s: string, i: nat, piped: bool): (r: Option<(nat, nat)>)
    requires i <= |s|
    ensures r.Some? ==> i < r.value.0 && r.value.0 + 4 <= r.value.1 <= |s|
    ensures r.Some? ==> IsAmountSpan(s, r.value.0, r.value.1)
  {
    match ColumnGap(s, i, piped)
    case None => None
    case Some(k) =>
      match DecimalAt(s, k)
      case None => None
      case Some(e) => Some((k, e))
  }

  /** One of the two payment-row patterns at `p`. */
  function RowAt(s: string, p: nat, piped: bool): (r: Option<Row>)
    ensures r.Some? ==> |r.value.date| > 0 && IsDigit(r.value.date[0])
    ensures r.Some? ==> IsCommaDecimal(r.value.total) && IsCommaDecimal(r.value.minimum)
  {
    match SlashDateAt(s, p)
    case None => None
    case Some(d) =>
      assert s[p..d][0] == s[p];
      match AmountColumns(s, d, piped)
      case None => None
      case Some((total, minimum)) => Some(Row(s[p..d], total, minimum))
  }

  /** The two amount columns after a row's date that ends at `d`. */
  function AmountColumns(s: string, d: nat, piped: bool): (r: Option<(string, string)>)
    requires d <= |s|
    ensures r.Some? ==> IsCommaDecimal(r.value.0) && IsCommaDecimal(r.value.1)
  {
    match AmountColumn(s, d, piped)
    case None => None
    case Some((k1, e1)) =>
      match AmountColumn(s, e1, piped)
      case None => None
      case Some((k2, e2)) => Some((s[k1..e1], s[k2..e2]))
  }

  /** The leftmost match of one payment-row pattern. */
  function RowByPattern(text: string, piped: bool): (r: Option<Row>)
    ensures r.Some? ==> exists p ::
              0 <= p <= |text| && RowAt(text, p, piped) == r &&
              forall q :: 0 <= q < p ==> RowAt(text, q, piped).None?
    ensures r.None? <==> forall p :: 0 <= p <= |text| ==> RowAt(text, p, piped).None?
  {
    var m := (p: nat) => RowAt(text, p, piped);
    assert forall p: nat :: m(p) == RowAt(text, p, piped);
    match FirstFrom(0, |text|, m)
    case Some((p, row)) =>
      assert RowAt(text, p, piped) == Some(row) && forall q :: 0 <= q < p ==> RowAt(text, q, piped).None?;
      Some(row)
    case None => None
  }

  /** `find_payment_row_three_columns`: the blank-separated row first, then the piped one. */
  function FindPaymentRow(text: string): (r: Option<Row>)
    ensures r.Some? ==> |r.value.date| > 0 && IsDigit(r.value.date[0])
    ensures r.Some? ==> IsCommaDecimal(r.value.total) && IsCommaDecimal(r.value.minimum)
    ensures r.None? <==> RowByPattern(text, false).None? && RowByPattern(text, true).None?
    ensures RowByPattern(text, false).Some? ==> r == RowByPattern(text, false)
    ensures RowByPattern(text, false).None? ==> r == RowByPattern(text, true)
  {
    if RowByPattern(text, false).Some? then RowByPattern(text, false) else RowByPattern(text, true)
  }

  /** The piped layout, with a blank between each separator and its rupee sign, is a payment row. */
  lemma PipedRowExample(t: string)
    requires t == "15/10/2025 | \U{20b9}1,234.56 | \U{20b9}500.00"
    ensures RowAt(t, 0, true) == Some(Row("15/10/2025", "1,234.56", "500.00"))
    ensures RowByPattern(t, true) == Some(Row("15/10/2025", "1,234.56", "500.00"))
  {
    PipedRowChars(t);
    SlashDateOf(t, 0);
    PipedGapOf(t, 10);
    PipedGapOf(t, 22);
    PipedRowAmounts(t);
    PipedRowTexts(t);
    RowFromParts(t, 0, true, 10, 14, 22, 26, 32);
    RowAtStart(t, true);
  }

  lemma PipedRowChars(t: string)
    requires t == "15/10/2025 | \U{20b9}1,234.56 | \U{20b9}500.00"
    ensures |t| == 32
    ensures IsDigit(t[0]) && IsDigit(t[1]) && t[2] == '/' && IsDigit(t[3]) && IsDigit(t[4]) && t[5] == '/'
    ensures IsDigit(t[6]) && IsDigit(t[7]) && IsDigit(t[8]) && IsDigit(t[9])
    ensures t[10] == ' ' && t[11] == '|' && t[12] == ' ' && t[13] == Rupee && IsDigit(t[14])
    ensures t[22] == ' ' && t[23] == '|' && t[24] == ' ' && t[25] == Rupee && IsDigit(t[26])
  {
    PipedRowDateChars(t);
    PipedRowGapChars(t);
  }

  lemma PipedRowDateChars(t: string)
    requires t == "15/10/2025 | \U{20b9}1,234.56 | \U{20b9}500.00"
    ensures |t| == 32
    ensures IsDigit(t[0]) && IsDigit(t[1]) && t[2] == '/' && IsDigit(t[3]) && IsDigit(t[4]) && t[5] == '/'
    ensures IsDigit(t[6]) && IsDigit(t[7]) && IsDigit(t[8]) && IsDigit(t[9])
  {
  }

  lemma PipedRowGapChars(t: string)
    requires t == "15/10/2025 | \U{20b9}1,234.56 | \U{20b9}500.00"
    ensures t[10] == ' ' && t[11] == '|' && t[12] == ' ' && t[13] == Rupee && IsDigit(t[14])
    ensures t[22] == ' ' && t[23] == '|' && t[24] == ' ' && t[25] == Rupee && IsDigit(t[26])
  {
  }

  /** `\d{2}/\d{2}/\d{4}` not followed by a digit is a whole date token. */
  lemma SlashDateOf(s: string, p: nat)
    requires p + 10 <= |s|
    requires IsDigit(s[p]) && IsDigit(s[p + 1]) && s[p + 2] == '/' && IsDigit(s[p + 3]) && IsDigit(s[p + 4])
    requires s[p + 5] == '/' && IsDigit(s[p + 6]) && IsDigit(s[p + 7]) && IsDigit(s[p + 8]) && IsDigit(s[p + 9])
    requires p + 10 < |s| ==> !IsDigit(s[p + 10])
    ensures SlashDateAt(s, p) == Some(p + 10)
  {
    RunIs(s, p, IsDigit, 2);
    RunIs(s, p + 3, IsDigit, 2);
    RunIs(s, p + 6, IsDigit, 4);
  }

  /** A blank, a pipe, a blank and a rupee sign before a digit: the piped gap ends at the digit. */
  lemma PipedGapOf(s: string, i: nat)
    requires i + 4 < |s|
    requires s[i] == ' ' && s[i + 1] == '|' && s[i + 2] == ' ' && s[i + 3] == Rupee && IsDigit(s[i + 4])
    ensures ColumnGap(s, i, true) == Some(i + 4)
  {
    RunIs(s, i, IsSpace, 1);
    RunIs(s, i + 2, IsSpace, 1);
    RunIs(s, i + 4, IsSpace, 0);
  }

  /** A row read from its date and its two amount columns. */
  lemma RowFromParts(s: string, p: nat, piped: bool, d: nat, k1: nat, e1: nat, k2: nat, e2: nat)
    requires SlashDateAt(s, p) == Some(d)
    requires ColumnGap(s, d, piped) == Some(k1) && DecimalAt(s, k1) == Some(e1)
    requires ColumnGap(s, e1, piped) == Some(k2) && DecimalAt(s, k2) == Some(e2)
    ensures RowAt(s, p, piped) == Some(Row(s[p..d], s[k1..e1], s[k2..e2]))
  {
    assert AmountColumn(s, d, piped) == Some((k1, e1));
    assert AmountColumn(s, e1, piped) == Some((k2, e2));
    assert AmountColumns(s, d, piped) == Some((s[k1..e1], s[k2..e2]));
  }

  /** A row at the start of the text is the leftmost one. */
  lemma RowAtStart(s: string, piped: bool)
    requires RowAt(s, 0, piped).Some?
    ensures RowByPattern(s, piped) == RowAt(s, 0, piped)
  {
  }

  lemma PipedRowAmounts(t: string)
    requires t == "15/10/2025 | \U{20b9}1,234.56 | \U{20b9}500.00"
    ensures DecimalAt(t, 14) == Some(22) && DecimalAt(t, 26) == Some(32)
  {
    assert forall k :: 14 <= k < 19 ==> IsDigitOrComma(t[k]);
    assert t[19] == '.' && IsDigit(t[20]) && IsDigit(t[21]);
    RunIs(t, 14, IsDigitOrComma, 5);
    assert forall k :: 26 <= k < 29 ==> IsDigitOrComma(t[k]);
    assert t[29] == '.' && IsDigit(t[30]) && IsDigit(t[31]);
    RunIs(t, 26, IsDigitOrComma, 3);
  }

  lemma PipedRowTexts(t: string)
    requires t == "15/10/2025 | \U{20b9}1,234.56 | \U{20b9}500.00"
    ensures t[0..10] == "15/10/2025" && t[14..22] == "1,234.56" && t[26..32] == "500.00"
  {
    PipedRowDateText(t);
    PipedRowTotalText(t);
    PipedRowMinimumText(t);
  }

  lemma PipedRowDateText(t: string)
    requires t == "15/10/2025 | \U{20b9}1,234.56 | \U{20b9}500.00"
    ensures t[0..10] == "15/10/2025"
  {
    var d := t[0..10];
    assert d[0] == '1' && d[1] == '5' && d[2] == '/' && d[3] == '1' && d[4] == '0';
    assert d[5] == '/' && d[6] == '2' && d[7] == '0' && d[8] == '2' && d[9] == '5';
  }

  lemma PipedRowTotalText(t: string)
    requires t == "15/10/2025 | \U{20b9}1,234.56 | \U{20b9}500.00"
    ensures t[14..22] == "1,234.56"
  {
    var a := t[14..22];
    assert a[0] == '1' && a[1] == ',' && a[2] == '2' && a[3] == '3';
    assert a[4] == '4' && a[5] == '.' && a[6] == '5' && a[7] == '6';
  }

  lemma PipedRowMinimumText(t: string)
    requires t == "15/10/2025 | \U{20b9}1,234.56 | \U{20b9}500.00"
    ensures t[26..32] == "500.00"
  {
    var a := t[26..32];
    assert a[0] == '5' && a[1] == '0' && a[2] == '0' && a[3] == '.' && a[4] == '0' && a[5] == '0';
  }

  // ------------------------------------------------------ labelled dates

  /** The date group of the HDFC label patterns: `\d{1,2}[/-]\d{1,2}[/-]\d{2,4}|[A-Za-z]{3,9}\s+\d{1,2},\s*\d{4}`. */
  function LabelDateAt(s: string, q: nat): (e: Option<nat>)
    ensures e.Some? ==> q < e.value <= |s| && !IsSpace(s[q]) && IsDigit(s[e.value - 1])
  {
    match SlashDateAt(s, q)
    case Some(e) => Some(e)
    case None => WordDayYearAt(s, q, 3, 9, true)
  }

  /** `.{0,n}?(DATE)` from `from`: the date's bounds, nearest first. */
  function DateWithin(s: string, from: nat, reach: nat): (r: Option<(nat, nat)>)
    ensures r.Some? ==> from <= r.value.0 <= from + reach && DateSpan(s, r.value)
  {
    match FirstFrom(from, Min(from + reach, |s|), (q: nat) => LabelDateAt(s, q))
    case Some((q, e)) => Some((q, e))
    case None => None
  }

  /**
   * The OCR-tolerant label at `p` followed by a date within 80 characters. The
   * label's final letter run and the whitespace after it give characters back,
   * longest match first, until a date is reached.
   */
  function FuzzyLabelDateAt(s: string, p: nat, phrase: string): (r: Option<(nat, nat)>)
    requires FuzzyLabel.EndsInLetter(phrase)
    ensures r.Some? ==> p < r.value.0 && DateSpan(s, r.value)
    ensures FuzzyLabel.MatchAt(s, p, phrase).None? ==> r.None?
    ensures r.Some? ==> exists end: nat ::
              LabelEndOption(s, p, phrase, end) && DateWithin(s, end, 80) == r &&
              forall later :: end < later <= FuzzyLabel.MatchAt(s, p, phrase).value.1 ==> DateWithin(s, later, 80).None?
  {
    match FuzzyLabel.MatchAt(s, p, phrase)
    case None => None
    case Some((runStart, e)) =>
      var m := (end: nat) => DateWithin(s, end, 80);
      assert forall end: nat :: m(end) == DateWithin(s, end, 80);
      match FirstDown(e, runStart + 1, m)
      case Some((end, qe)) =>
        assert LabelEndOption(s, p, phrase, end) && DateWithin(s, end, 80) == Some(qe);
        Some(qe)
      case None => None
  }

  /**
   * `end` is a place the label may end: the label matches at `p`, and `end`
   * lies after the first letter of its final run and no later than the end of
   * the greedy match.
   */
  predicate LabelEndOption(s: string, p: nat, phrase: string, end: nat)
    requires FuzzyLabel.EndsInLetter(phrase)
  {
    FuzzyLabel.MatchAt(s, p, phrase).Some? &&
    FuzzyLabel.MatchAt(s, p, phrase).value.0 < end <= FuzzyLabel.MatchAt(s, p, phrase).value.1
  }

  /** `find_label_following_date`, with `phrase` already upper-cased. */
  function FindLabelFollowingDate(phrase: string, text: string): (r: Option<string>)
    requires FuzzyLabel.EndsInLetter(phrase)
    ensures r.Some? ==> DateText(r.value)
    ensures r.None? <==> forall p :: 0 <= p <= |text| ==> FuzzyLabelDateAt(text, p, phrase).None?
    ensures r.Some? ==> exists p ::
              0 <= p <= |text| && FuzzyLabelDateAt(text, p, phrase).Some? &&
              (forall q :: 0 <= q < p ==> FuzzyLabelDateAt(text, q, phrase).None?) &&
              r.value == text[FuzzyLabelDateAt(text, p, phrase).value.0..FuzzyLabelDateAt(text, p, phrase).value.1]
  {
    var m := (p: nat) => FuzzyLabelDateAt(text, p, phrase);
    assert forall p: nat :: m(p) == FuzzyLabelDateAt(text, p, phrase);
    match FirstFrom(0, |text|, m)
    case Some((p, span)) =>
      SpanEnds(text, span);
      assert FuzzyLabelDateAt(text, p, phrase) == Some(span);
      assert forall q :: 0 <= q < p ==> FuzzyLabelDateAt(text, q, phrase).None?;
      Some(text[span.0..span.1])
    case None => None
  }

  /**
   * A rendering of the label with repeated letters and inserted blanks, as
   * `FuzzyVariants.IsVariantShape` allows, followed within 80 characters by a
   * date: the label search at that place reads the nearest such date.
   */
  lemma VariantLabelDate(s: string, p: nat, phrase: string, counts: seq<nat>, gaps: seq<nat>)
    requires FuzzyVariants.IsVariantShape(phrase, counts, gaps)
    requires LiteralAt(s, p, FuzzyVariants.VariantFrom(phrase, counts, gaps, 0))
    requires FuzzyVariants.EndsCleanly(s, p + |FuzzyVariants.VariantFrom(phrase, counts, gaps, 0)|, phrase)
    requires DateWithin(s, p + |FuzzyVariants.VariantFrom(phrase, counts, gaps, 0)|, 80).Some?
    ensures FuzzyLabelDateAt(s, p, phrase) == DateWithin(s, p + |FuzzyVariants.VariantFrom(phrase, counts, gaps, 0)|, 80)
  {
    FuzzyVariants.VariantMatches(s, p, phrase, counts, gaps);
    GreedyEndDate(s, p, phrase, p + |FuzzyVariants.VariantFrom(phrase, counts, gaps, 0)|);
  }

  /** When a date follows the greedy end of the label, the label gives nothing back and that date is read. */
  lemma GreedyEndDate(s: string, p: nat, phrase: string, e: nat)
    requires FuzzyLabel.EndsInLetter(phrase)
    requires FuzzyLabel.MatchAt(s, p, phrase).Some? && FuzzyLabel.MatchAt(s, p, phrase).value.1 == e
    requires DateWithin(s, e, 80).Some?
    ensures FuzzyLabelDateAt(s, p, phrase) == DateWithin(s, e, 80)
  {
    var rs := FuzzyLabel.MatchAt(s, p, phrase).value.0;
    var m := (end: nat) => DateWithin(s, end, 80);
    assert m(e) == DateWithin(s, e, 80);
    assert FirstDown(e, rs + 1, m) == Some((e, DateWithin(s, e, 80).value));
  }

  /** Such a rendering followed by a date means the label search finds a date. */
  lemma VariantLabelFound(s: string, p: nat, phrase: string, counts: seq<nat>, gaps: seq<nat>)
    requires FuzzyVariants.IsVariantShape(phrase, counts, gaps)
    requires LiteralAt(s, p, FuzzyVariants.VariantFrom(phrase, counts, gaps, 0))
    requires FuzzyVariants.EndsCleanly(s, p + |FuzzyVariants.VariantFrom(phrase, counts, gaps, 0)|, phrase)
    requires DateWithin(s, p + |FuzzyVariants.VariantFrom(phrase, counts, gaps, 0)|, 80).Some?
    ensures FindLabelFollowingDate(phrase, s).Some?
  {
    VariantLabelDate(s, p, phrase, counts, gaps);
    assert FuzzyLabelDateAt(s, p, phrase).Some?;
  }

  /** A date text starts non-blank and ends in a digit. */
  predicate DateText(t: string) {
    |t| > 0 && !IsSpace(t[0]) && IsDigit(t[|t| - 1])
  }

  /** `span` delimits a piece of `s` that starts non-blank and ends in a digit, as every date match does. */
  predicate DateSpan(s: string, span: (nat, nat)) {
    span.0 < span.1 <= |s| && !IsSpace(s[span.0]) && IsDigit(s[span.1 - 1])
  }

  /** A slice from a non-blank character to a digit starts non-blank and ends in that digit. */
  lemma SpanEnds(s: string, span: (nat, nat))
    requires DateSpan(s, span)
    ensures DateText(s[span.0..span.1])
  {
    var (q, e) := span;
    assert s[q..e][0] == s[q] && s[q..e][e - q - 1] == s[e - 1];
  }

  const StatementDateLabel: string := "STATEMENT DATE"
  const StatementForLabel: string := "STATEMENT FOR HDFC BANK CREDIT CARD"
  const PaymentDueDateLabel: string := "PAYMENT DUE DATE"
  const PaymentDueLabel: string := "PAYMENT DUE"
  const PayByLabel: string := "PAY BY"

  lemma StatementLabelsAreFuzzy()
    ensures FuzzyLabel.IsFuzzyLabel(StatementDateLabel)
    ensures FuzzyLabel.IsFuzzyLabel(StatementForLabel)
  {
    StatementDateIsUpper();
    FuzzyLabel.UpperCaseLabel(StatementDateLabel);
    StatementForIsUpper();
    FuzzyLabel.UpperCaseLabel(StatementForLabel);
  }

  lemma StatementDateIsUpper()
    ensures FuzzyLabel.UpperLabel(StatementDateLabel)
  {
  }

  lemma StatementForIsUpper()
    ensures FuzzyLabel.UpperLabel(StatementForLabel)
  {
    var w := StatementForLabel;
    assert forall j :: 0 < j < |w| ==> IsUpper(w[j]) || w[j] == ' ';
    assert forall j :: 0 <= j < |w| - 1 ==> w[j] != w[j + 1];
    FuzzyLabel.UpperPairsFromFacts(w, 0);
  }

  lemma DueLabelsAreFuzzy()
    ensures FuzzyLabel.IsFuzzyLabel(PaymentDueDateLabel)
    ensures FuzzyLabel.IsFuzzyLabel(PaymentDueLabel)
    ensures FuzzyLabel.IsFuzzyLabel(PayByLabel)
  {
    DueLabelsAreUpper();
    FuzzyLabel.UpperCaseLabel(PaymentDueDateLabel);
    FuzzyLabel.UpperCaseLabel(PaymentDueLabel);
    FuzzyLabel.UpperCaseLabel(PayByLabel);
  }

  lemma DueLabelsAreUpper()
    ensures FuzzyLabel.UpperLabel(PaymentDueDateLabel)
    ensures FuzzyLabel.UpperLabel(PaymentDueLabel)
    ensures FuzzyLabel.UpperLabel(PayByLabel)
  {
  }

  // ------------------------------------------------------------- fallbacks

  /** `Statement.{0,60}?(\d{1,2}[/-]\d{1,2}[/-]\d{2,4})` at `p`, case ignored: the date's bounds. */
  function StatementThenDateAt(s: string, p: nat): (r: Option<(nat, nat)>)
    ensures r.Some? ==> p < r.value.0 < r.value.1 <= |s|
  {
    match LabelAt(s, p, ["statement"], false)
    case None => None
    case Some(e) =>
      match FirstFrom(e, Min(e + 60, |s|), (q: nat) => SlashDateAt(s, q))
      case Some((q, f)) => Some((q, f))
      case None => None
  }

  /** `[`\u20b9]?\s*([\d,]+\.\d{2})` from `k`: the amount's bounds. */
  function MarkedDecimalAt(s: string, k: nat): (r: Option<(nat, nat)>)
    requires k <= |s|
    ensures r.Some? ==> k <= r.value.0 && r.value.0 + 4 <= r.value.1 <= |s| && IsAmountSpan(s, r.value.0, r.value.1)
  {
    var j := SkipMark(s, k);
    match DecimalAt(s, j)
    case Some(f) => Some((j, f))
    case None => None
  }

  /** The non-digit run after `e` ends at `k` as `\D+` leaves it when the amount matches: the longest such. */
  predicate LongestNonDigitGap(s: string, e: nat, k: nat) {
    && e <= |s|
    && e < k <= e + Run(s, e, IsNonDigit) <= |s|
    && MarkedDecimalAt(s, k).Some?
    && forall k' :: k < k' <= e + Run(s, e, IsNonDigit) ==> MarkedDecimalAt(s, k').None?
  }

  /**
   * `\D+[`\u20b9]?\s*([\d,]+\.\d{2})` after a total label ending at `e`: the amount's
   * bounds. `\D+` first runs up to the next digit and then gives characters back
   * one at a time, so an amount opening with a comma inside the run is found too.
   */
  function AfterNonDigits(s: string, e: nat): (r: Option<(nat, nat)>)
    requires e <= |s|
    ensures r.Some? ==> e < r.value.0 && r.value.0 + 4 <= r.value.1 && IsAmountSpan(s, r.value.0, r.value.1)
  {
    var found := FirstDown(e + Run(s, e, IsNonDigit), e + 1, DecimalStops(s));
    if found.Some? then Some(found.value.1) else None
  }

  /** `MarkedDecimalAt` at each stop inside the text, None past its end. */
  function DecimalStops(s: string): nat -> Option<(nat, nat)> {
    (k: nat) => if k <= |s| then MarkedDecimalAt(s, k) else None
  }

  /** The amount after a total label is the one read from the longest stop of `\D+` that yields one. */
  lemma AfterNonDigitsIsLongest(s: string, e: nat)
    requires e <= |s|
    ensures forall k: nat :: LongestNonDigitGap(s, e, k) ==> AfterNonDigits(s, e) == MarkedDecimalAt(s, k)
    ensures AfterNonDigits(s, e).None? <==>
              forall k :: e < k <= e + Run(s, e, IsNonDigit) ==> MarkedDecimalAt(s, k).None?
  {
    forall k: nat | LongestNonDigitGap(s, e, k)
      ensures AfterNonDigits(s, e) == MarkedDecimalAt(s, k)
    {
      AfterNonDigitsAtStop(s, e, k);
    }
    AfterNonDigitsNone(s, e);
  }

  /** The search down from the end of the run stops at the longest stop that yields an amount. */
  lemma AfterNonDigitsAtStop(s: string, e: nat, k: nat)
    requires LongestNonDigitGap(s, e, k)
    ensures AfterNonDigits(s, e) == MarkedDecimalAt(s, k)
  {
    var found := FirstDown(e + Run(s, e, IsNonDigit), e + 1, DecimalStops(s));
    assert DecimalStops(s)(k) == MarkedDecimalAt(s, k);
    assert found.Some?;
    var k0 := found.value.0;
    assert DecimalStops(s)(k0) == MarkedDecimalAt(s, k0);
    assert k0 == k;
    assert AfterNonDigits(s, e) == Some(found.value.1);
  }

  /** No amount after the label exactly when no stop of the run yields one. */
  lemma AfterNonDigitsNone(s: string, e: nat)
    requires e <= |s|
    ensures AfterNonDigits(s, e).None? <==>
              forall k :: e < k <= e + Run(s, e, IsNonDigit) ==> MarkedDecimalAt(s, k).None?
  {
    var q := e + Run(s, e, IsNonDigit);
    var found := FirstDown(q, e + 1, DecimalStops(s));
    if found.Some? {
      assert AfterNonDigits(s, e).Some?;
      var k0 := found.value.0;
      assert DecimalStops(s)(k0) == MarkedDecimalAt(s, k0);
    } else {
      assert AfterNonDigits(s, e).None?;
      forall k | e < k <= q
        ensures MarkedDecimalAt(s, k).None?
      {
        assert DecimalStops(s)(k) == MarkedDecimalAt(s, k);
      }
    }
  }

  /** A blank, a comma and a point before two final digits: `\D+` gives the comma back to the amount. */
  lemma CommaLedAmount(s: string, e: nat)
    requires e + 5 == |s|
    requires s[e] == ' ' && s[e + 1] == ',' && s[e + 2] == '.' && IsDigit(s[e + 3]) && IsDigit(s[e + 4])
    ensures AfterNonDigits(s, e) == Some((e + 1, e + 5))
  {
    RunIs(s, e, IsNonDigit, 3);
    CommaLedCandidates(s, e);
    assert LongestNonDigitGap(s, e, e + 1);
    AfterNonDigitsIsLongest(s, e);
  }

  /** The three places `\D+` may stop in the text above: only the comma starts an amount. */
  lemma CommaLedCandidates(s: string, e: nat)
    requires e + 5 == |s|
    requires s[e] == ' ' && s[e + 1] == ',' && s[e + 2] == '.' && IsDigit(s[e + 3]) && IsDigit(s[e + 4])
    ensures MarkedDecimalAt(s, e + 3).None? && MarkedDecimalAt(s, e + 2).None?
    ensures MarkedDecimalAt(s, e + 1) == Some((e + 1, e + 5))
  {
    NoDecimalAtDigits(s, e + 3);
    NoDecimalAtPoint(s, e + 2);
    DecimalAtComma(s, e + 1);
  }

  /** Two final digits hold no `[\d,]+\.\d{2}`. */
  lemma NoDecimalAtDigits(s: string, k: nat)
    requires k + 2 == |s| && IsDigit(s[k]) && IsDigit(s[k + 1])
    ensures MarkedDecimalAt(s, k).None?
  {
    RunIs(s, k, IsSpace, 0);
    RunIs(s, k, IsDigitOrComma, 2);
  }

  /** A point opens no `[\d,]+\.\d{2}`. */
  lemma NoDecimalAtPoint(s: string, k: nat)
    requires k < |s| && s[k] == '.'
    ensures MarkedDecimalAt(s, k).None?
  {
    RunIs(s, k, IsSpace, 0);
    RunIs(s, k, IsDigitOrComma, 0);
  }

  /** A comma, a point and two final digits are a `[\d,]+\.\d{2}` match. */
  lemma DecimalAtComma(s: string, k: nat)
    requires k + 4 == |s| && s[k] == ',' && s[k + 1] == '.' && IsDigit(s[k + 2]) && IsDigit(s[k + 3])
    ensures MarkedDecimalAt(s, k) == Some((k, k + 4))
  {
    RunIs(s, k, IsSpace, 0);
    RunIs(s, k, IsDigitOrComma, 1);
  }

  /** `(?:Total\s+Dues|Total\s+Amount\s+Due|Total\s+Due)\D+[`\u20b9]?\s*([\d,]+\.\d{2})` at `p`, alternatives in order. */
  function DuesTotalAt(s: string, p: nat): (r: Option<(nat, nat)>)
    ensures r.Some? ==> r.value.0 + 4 <= r.value.1 && IsAmountSpan(s, r.value.0, r.value.1)
  {
    var alternatives := [["total", "dues"], ["total", "amount", "due"], ["total", "due"]];
    var m := (k: nat) =>
      if k < 3 then
        match LabelAt(s, p, alternatives[k], true)
        case Some(e) => AfterNonDigits(s, e)
        case None => None
      else None;
    match FirstFrom(0, 2, m)
    case Some((_, span)) => Some(span)
    case None => None
  }

  /** "Total Due ,.50": the amount read is ",.50". */
  lemma CommaLedDuesExample(t: string)
    requires t == "Total Due ,.50"
    ensures DuesTotalAt(t, 0) == Some((10, 14))
  {
    CommaLedLabels(t);
    CommaLedAmount(t, 9);
  }

  lemma CommaLedLabels(t: string)
    requires t == "Total Due ,.50"
    ensures LabelAt(t, 0, ["total", "dues"], true).None?
    ensures LabelAt(t, 0, ["total", "amount", "due"], true).None?
    ensures LabelAt(t, 0, ["total", "due"], true) == Some(9)
  {
    assert LiteralAtIgnoringCase(t, 0, "total");
    RunIs(t, 5, IsSpace, 1);
    assert !LiteralAtIgnoringCase(t, 6, "dues") by { assert !SameIgnoringCase(t[6 + 3], "dues"[3]); }
    assert !LiteralAtIgnoringCase(t, 6, "amount") by { assert !SameIgnoringCase(t[6 + 0], "amount"[0]); }
    assert LiteralAtIgnoringCase(t, 6, "due");
  }

  /** `(?:Total\s+Dues).{0,60}?[`\u20b9]?\s*([\d,]+\.\d{2})` at `p`, case ignored: the amount's bounds. */
  function TotalDuesWithinAt(s: string, p: nat): (r: Option<(nat, nat)>)
    ensures r.Some? ==> r.value.0 + 4 <= r.value.1 && IsAmountSpan(s, r.value.0, r.value.1)
  {
    match LabelAt(s, p, ["total", "dues"], true)
    case None => None
    case Some(e) =>
      var m := (q: nat) =>
        if q <= |s| then
          var k := SkipMark(s, q);
          match DecimalAt(s, k)
          case Some(f) => Some((k, f))
          case None => None
        else None;
      match FirstFrom(e, Min(e + 60, |s|), m)
      case Some((_, span)) => Some(span)
      case None => None
  }

  /** The due-date phrases of the last fallback, matched without regard to case. */
  const DuePhrases: seq<string> := ["due date", "payment due", "pay by"]

  /** `(?:Due Date|Payment Due|Pay By)[^\dA-Za-z]{0,30}(DATE)` at `p`: the date's bounds. */
  function DuePhraseDateAt(s: string, p: nat): (r: Option<(nat, nat)>)
    ensures r.Some? ==> p < r.value.0 < r.value.1 <= |s|
  {
    match PhraseDateAt(s, p, DuePhrases[0])
    case Some(span) => Some(span)
    case None =>
      match PhraseDateAt(s, p, DuePhrases[1])
      case Some(span) => Some(span)
      case None => PhraseDateAt(s, p, DuePhrases[2])
  }

  /** One alternative of the pattern above: `phrase[^\dA-Za-z]{0,30}(DATE)` at `p`, case ignored. */
  function PhraseDateAt(s: string, p: nat, phrase: string): (r: Option<(nat, nat)>)
    requires |phrase| > 0
    ensures r.Some? ==> p < r.value.0 < r.value.1 <= |s|
  {
    if LiteralAtIgnoringCase(s, p, phrase) then
      var e := p + |phrase|;
      var g := Run(s, e, (c: char) => !IsDigit(c) && !IsLetter(c));
      var q := e + (if g > 30 then 30 else g);
      match LabelDateAt(s, q)
      case Some(f) => Some((q, f))
      case None => None
    else None
  }

  /** The leftmost match of a span-returning pattern, as text. */
  function Leftmost(s: string, m: nat -> Option<(nat, nat)>): (r: Option<string>)
    ensures r.Some? <==> FirstFrom(0, |s|, m).Some? && Spans(s, FirstFrom(0, |s|, m).value.1)
  {
    var found := FirstFrom(0, |s|, m);
    if found.Some? && Spans(s, found.value.1) then
      var (a, b) := found.value.1;
      Some(s[a..b])
    else None
  }

  /** `span` delimits a piece of `s`. */
  predicate Spans(s: string, span: (nat, nat)) {
    span.0 <= span.1 <= |s|
  }

  /** The statement date when neither labelled search found one: a date in the first 800 characters. */
  function TopSliceDate(joined: string): (r: Option<string>)
  {
    var top := joined[..Min(800, |joined|)];
    match FirstFrom(0, |top|, (q: nat) => WordDayYearAt(top, q, 3, 9, true))
    case Some((q, e)) => Some(top[q..e])
    case None =>
      match FirstFrom(0, |top|, (q: nat) => SlashDateAt(top, q))
      case Some((q, e)) => Some(top[q..e])
      case None => None
  }

  /** `normalize_date_str` of an optional token. */
  function NormalizeToken(token: Option<string>): (r: Option<string>)
    ensures token.None? ==> r.None?
  {
    match token
    case Some(t) => NormalizeDateStr(t)
    case None => None
  }

  /** `re.sub(r'\r\n?', '\n', text)` and then `re.sub(r'\s+', ' ', ...)`: the one-line text. */
  function Flatten(text: string): (r: string)
    ensures SingleSpaced(r) && '\n' !in r
  {
    CollapseSpaces(JoinLineEndings(text))
  }

  /** `find_label_following_date("Statement Date") or find_label_following_date("Statement for ...")`. */
  function StatementLabelToken(joined: string): (r: Option<string>)
    ensures FindLabelFollowingDate(StatementDateLabel, joined).Some? ==>
              r == FindLabelFollowingDate(StatementDateLabel, joined)
    ensures FindLabelFollowingDate(StatementDateLabel, joined).None? ==>
              r == FindLabelFollowingDate(StatementForLabel, joined)
  {
    StatementLabelsAreFuzzy();
    var first := FindLabelFollowingDate(StatementDateLabel, joined);
    if first.Some? then first else FindLabelFollowingDate(StatementForLabel, joined)
  }

  /** The date token after the first "Statement" that has one within 60 characters. */
  function StatementNearToken(joined: string): Option<string> {
    Leftmost(joined, (p: nat) => StatementThenDateAt(joined, p))
  }

  /** The statement date from the fuzzy labels, else from a date shortly after "Statement". */
  function LabelledStatementDate(joined: string): (r: Option<string>)
    ensures StatementLabelToken(joined).Some? ==> r == NormalizeDateStr(StatementLabelToken(joined).value)
    ensures StatementLabelToken(joined).None? ==> r == NormalizeToken(StatementNearToken(joined))
  {
    var labelled := StatementLabelToken(joined);
    if labelled.Some? then NormalizeDateStr(labelled.value) else NormalizeToken(StatementNearToken(joined))
  }

  /** The three due labels joined by `or`: the first that is followed by a date decides. */
  function DueLabelToken(joined: string): (r: Option<string>)
    ensures FindLabelFollowingDate(PaymentDueDateLabel, joined).Some? ==>
              r == FindLabelFollowingDate(PaymentDueDateLabel, joined)
    ensures FindLabelFollowingDate(PaymentDueDateLabel, joined).None? &&
            FindLabelFollowingDate(PaymentDueLabel, joined).Some? ==>
              r == FindLabelFollowingDate(PaymentDueLabel, joined)
    ensures FindLabelFollowingDate(PaymentDueDateLabel, joined).None? &&
            FindLabelFollowingDate(PaymentDueLabel, joined).None? ==>
              r == FindLabelFollowingDate(PayByLabel, joined)
  {
    DueLabelsAreFuzzy();
    var first := FindLabelFollowingDate(PaymentDueDateLabel, joined);
    if first.Some? then first
    else
      var second := FindLabelFollowingDate(PaymentDueLabel, joined);
      if second.Some? then second else FindLabelFollowingDate(PayByLabel, joined)
  }

  /** The due date from the fuzzy labels in order: None exactly when no label is followed by a date. */
  function LabelledDueDate(joined: string): (r: Option<string>)
    ensures r.None? <==> DueLabelToken(joined).None?
    ensures DueLabelToken(joined).Some? ==> r == NormalizeDateStr(DueLabelToken(joined).value)
  {
    NormalizeToken(DueLabelToken(joined))
  }

  /** The amount after the first "Total Dues", "Total Amount Due" or "Total Due" on the one-line text. */
  function DuesTotalText(flat: string): Option<string> {
    Leftmost(flat, (p: nat) => DuesTotalAt(flat, p))
  }

  /** The amount within 60 characters after the first "Total Dues" that has one, in the joined text. */
  function TotalDuesNearText(joined: string): Option<string> {
    Leftmost(joined, (p: nat) => TotalDuesWithinAt(joined, p))
  }

  /** The total from the one-line text, else from `Total Dues` within 60 characters. */
  function LabelledTotal(joined: string, flat: string): (r: Option<string>)
    ensures r.Some? ==> IsAmountText(r.value)
    ensures DuesTotalText(flat).Some? ==> r == NormalizeAmount(DuesTotalText(flat).value)
    ensures DuesTotalText(flat).None? && TotalDuesNearText(joined).Some? ==>
              r == NormalizeAmount(TotalDuesNearText(joined).value)
    ensures DuesTotalText(flat).None? && TotalDuesNearText(joined).None? ==> r.None?
  {
    var totalText := if DuesTotalText(flat).Some? then DuesTotalText(flat) else TotalDuesNearText(joined);
    if totalText.Some? then NormalizeAmount(totalText.value) else None
  }

  /** The date after the first "Due Date", "Payment Due" or "Pay By" that has one within 30 separators. */
  function DuePhraseDate(joined: string): Option<string> {
    Leftmost(joined, (p: nat) => DuePhraseDateAt(joined, p))
  }

  /** The statement date, due date and total `parse_hdfc` finds when there is no payment row. */
  function LabelledFields(joined: string, flat: string): (r: (Option<string>, Option<string>, Option<string>))
    ensures r.2.Some? ==> IsAmountText(r.2.value)
  {
    (LabelledStatementDate(joined), LabelledDueDate(joined), LabelledTotal(joined, flat))
  }

  /** `parse_hdfc`. */
  function ParseHdfc(text: string): (r: Fields)
    ensures r.bank == "HDFC" && r.currencySymbol.None?
    ensures text == "" ==> r == Fields("HDFC", None, None, None, None, None)
    ensures text != "" ==> r.cardLast4 == ExtractLast4FromCardNo(Flatten(text))
    ensures r.cardLast4.Some? ==> IsLast4(r.cardLast4.value)
    ensures r.totalAmountDue.Some? ==> IsAmountText(r.totalAmountDue.value)
    ensures text != "" && FindPaymentRow(Flatten(text)).Some? ==>
              && r.paymentDueDate == NormalizeDateStr(FindPaymentRow(Flatten(text)).value.date)
              && r.totalAmountDue == NormalizeAmount(FindPaymentRow(Flatten(text)).value.total)
              && r.statementDate == NormalizeToken(TopSliceDate(JoinLineEndings(text)))
    ensures text != "" && FindPaymentRow(Flatten(text)).None? ==>
              && r.totalAmountDue == LabelledTotal(JoinLineEndings(text), Flatten(text))
              && r.statementDate == (if Truthy(LabelledStatementDate(JoinLineEndings(text)))
                                     then LabelledStatementDate(JoinLineEndings(text))
                                     else NormalizeToken(TopSliceDate(JoinLineEndings(text))))
              && r.paymentDueDate == (if LabelledDueDate(JoinLineEndings(text)).Some?
                                      then LabelledDueDate(JoinLineEndings(text))
                                      else NormalizeToken(DuePhraseDate(JoinLineEndings(text))))
  {
    if text == "" then Fields("HDFC", None, None, None, None, None)
    else FieldsFrom(JoinLineEndings(text), Flatten(text))
  }

  /** What `parse_hdfc` reports for a non-empty text, given its joined and its one-line forms. */
  function FieldsFrom(joined: string, flat: string): (r: Fields)
    ensures r.bank == "HDFC" && r.currencySymbol.None?
    ensures r.cardLast4 == ExtractLast4FromCardNo(flat)
    ensures r.cardLast4.Some? ==> IsLast4(r.cardLast4.value)
    ensures r.totalAmountDue.Some? ==> IsAmountText(r.totalAmountDue.value)
    ensures FindPaymentRow(flat).Some? ==>
              && r.paymentDueDate == NormalizeDateStr(FindPaymentRow(flat).value.date)
              && r.totalAmountDue == NormalizeAmount(FindPaymentRow(flat).value.total)
              && r.statementDate == NormalizeToken(TopSliceDate(joined))
    ensures FindPaymentRow(flat).None? ==> r.totalAmountDue == LabelledTotal(joined, flat)
    ensures FindPaymentRow(flat).None? ==>
              r.statementDate == if Truthy(LabelledStatementDate(joined)) then LabelledStatementDate(joined)
                                 else NormalizeToken(TopSliceDate(joined))
    ensures FindPaymentRow(flat).None? ==>
              r.paymentDueDate == if LabelledDueDate(joined).Some? then LabelledDueDate(joined)
                                  else NormalizeToken(DuePhraseDate(joined))
  {
    var row := FindPaymentRow(flat);
    var fields := if row.Some? then RowFields(row.value) else LabelledFields(joined, flat);
    var statement := if Truthy(fields.0) then fields.0 else NormalizeToken(TopSliceDate(joined));
    var due :=
      if Truthy(fields.1) then fields.1
      else NormalizeToken(DuePhraseDate(joined));
    Fields("HDFC", ExtractLast4FromCardNo(flat), statement, due, fields.2, None)
  }

  /** The due date and total a payment row gives; the due date is never blank, so it is kept. */
  function RowFields(row: Row): (r: (Option<string>, Option<string>, Option<string>))
    requires |row.date| > 0 && IsDigit(row.date[0])
    ensures r.0.None? && Truthy(r.1)
    ensures r.1 == NormalizeDateStr(row.date) && r.2 == NormalizeAmount(row.total)
    ensures r.2.Some? ==> IsAmountText(r.2.value)
  {
    (None, NormalizeDateStr(row.date), NormalizeAmount(row.total))
  }
}
