/**
 * Calendar dates and the part of Python's `datetime.strptime` /
 * `strftime("%Y-%m-%d")` that the extractors rely on: a format is a list of
 * directives; the directive patterns are tried as strptime's own regular
 * expression tries them, the whole input must be consumed, and the resulting
 * day must exist in the Gregorian calendar. Month names are the English ones.
 */
module Calendar {
  import opened Wrappers
  import opened Chars

  datatype Date = Date(year: int, month: int, day: int)

  predicate IsLeapYear(y: int) {
    y % 4 == 0 && (y % 100 != 0 || y % 400 == 0)
  }

  function DaysInMonth(y: int, m: int): (n: int)
    requires 1 <= m <= 12
    ensures 28 <= n <= 31
    ensures n == 29 <==> m == 2 && IsLeapYear(y)
  {
    if m == 2 then (if IsLeapYear(y) then 29 else 28)
    else if m == 4 || m == 6 || m == 9 || m == 11 then 30
    else 31
  }

  /** A day `datetime.date` accepts: years 1 to 9999 and a day the month has. */
  predicate ValidDate(d: Date) {
    && 1 <= d.year <= 9999
    && 1 <= d.month <= 12
    && 1 <= d.day <= DaysInMonth(d.year, d.month)
  }

  const MonthAbbreviations: seq<string> :=
    ["jan", "feb", "mar", "apr", "may", "jun", "jul", "aug", "sep", "oct", "nov", "dec"]

  const MonthNames: seq<string> :=
    ["january", "february", "march", "april", "may", "june", "july",
     "august", "september", "october", "november", "december"]

  /** One directive of a strptime format; a blank in the format stands for `\s+`. */
  datatype Directive =
    | Day           // %d
    | MonthNumber   // %m
    | MonthAbbrev   // %b
    | MonthName     // %B
    | Year4         // %Y
    | Year2         // %y
    | Lit(c: char)  // a literal character
    | Spaces        // a blank in the format

  type Format = seq<Directive>

  const DayMonYear: Format := [Day, Lit('-'), MonthAbbrev, Lit('-'), Year4]           // %d-%b-%Y
  const DayMonYearSpaced: Format := [Day, Spaces, MonthAbbrev, Spaces, Year4]         // %d %b %Y
  const DashedDayMonthYear: Format := [Day, Lit('-'), MonthNumber, Lit('-'), Year4]   // %d-%m-%Y
  const SlashedDayMonthYear: Format := [Day, Lit('/'), MonthNumber, Lit('/'), Year4]  // %d/%m/%Y
  const SlashedDayMonthShortYear: Format := [Day, Lit('/'), MonthNumber, Lit('/'), Year2] // %d/%m/%y
  const DottedDayMonthYear: Format := [Day, Lit('.'), MonthNumber, Lit('.'), Year4]   // %d.%m.%Y
  const IsoYearMonthDay: Format := [Year4, Lit('-'), MonthNumber, Lit('-'), Day]      // %Y-%m-%d
  const MonthNameDayYear: Format := [MonthName, Spaces, Day, Lit(','), Spaces, Year4] // %B %d, %Y
  const MonDayYear: Format := [MonthAbbrev, Spaces, Day, Lit(','), Spaces, Year4]     // %b %d, %Y
  const DayMonthNameYear: Format := [Day, Spaces, MonthName, Spaces, Year4]           // %d %B %Y

  function DigitValue(c: char): int
    requires IsDigit(c)
  {
    c as int - '0' as int
  }

  function DigitChar(n: int): (c: char)
    requires 0 <= n <= 9
    ensures IsDigit(c) && DigitValue(c) == n
  {
    ('0' as int + n) as char
  }

  predicate DigitIn(s: string, i: nat, lo: char, hi: char) {
    i < |s| && lo <= s[i] <= hi
  }

  /** `%d`, whose pattern is `3[01]|[12]\d|0[1-9]|[1-9]| [1-9]`: value and end. */
  function DayAt(s: string, i: nat): (r: Option<(int, nat)>)
    ensures r.Some? ==> 1 <= r.value.0 <= 31 && i < r.value.1 <= i + 2 && r.value.1 <= |s|
  {
    if DigitIn(s, i, '3', '3') && DigitIn(s, i + 1, '0', '1') then
      Some((30 + DigitValue(s[i + 1]), i + 2))
    else if DigitIn(s, i, '1', '2') && DigitIn(s, i + 1, '0', '9') then
      Some((10 * DigitValue(s[i]) + DigitValue(s[i + 1]), i + 2))
    else if DigitIn(s, i, '0', '0') && DigitIn(s, i + 1, '1', '9') then
      Some((DigitValue(s[i + 1]), i + 2))
    else if DigitIn(s, i, '1', '9') then
      Some((DigitValue(s[i]), i + 1))
    else if i < |s| && s[i] == ' ' && DigitIn(s, i + 1, '1', '9') then
      Some((DigitValue(s[i + 1]), i + 2))
    else None
  }

  /** `%m`, whose pattern is `1[0-2]|0[1-9]|[1-9]`: value and end. */
  function MonthNumberAt(s: string, i: nat): (r: Option<(int, nat)>)
    ensures r.Some? ==> 1 <= r.value.0 <= 12 && i < r.value.1 <= i + 2 && r.value.1 <= |s|
  {
    if DigitIn(s, i, '1', '1') && DigitIn(s, i + 1, '0', '2') then
      Some((10 + DigitValue(s[i + 1]), i + 2))
    else if DigitIn(s, i, '0', '0') && DigitIn(s, i + 1, '1', '9') then
      Some((DigitValue(s[i + 1]), i + 2))
    else if DigitIn(s, i, '1', '9') then
      Some((DigitValue(s[i]), i + 1))
    else None
  }

  /**
   * `%b` / `%B`: the month whose name stands at `i`, case ignored. No name in
   * either table is a prefix of another, so at most one of them matches.
   */
  function MonthWordAt(s: string, i: nat, names: seq<string>, k: nat): (r: Option<(int, nat)>)
    requires k <= |names|
    ensures r.Some? ==> k < r.value.0 <= |names| && LiteralAtIgnoringCase(s, i, names[r.value.0 - 1])
    ensures r.Some? ==> r.value.1 == i + |names[r.value.0 - 1]|
    decreases |names| - k
  {
    if k == |names| then None
    else if LiteralAtIgnoringCase(s, i, names[k]) then Some((k + 1, i + |names[k]|))
    else MonthWordAt(s, i, names, k + 1)
  }

  /** A run of exactly `n` digits at `i`, read as a decimal number. */
  function NumberAt(s: string, i: nat, n: nat): (v: int)
    requires i + n <= |s|
    requires forall k :: i <= k < i + n ==> IsDigit(s[k])
    ensures v >= 0
    decreases n
  {
    if n == 0 then 0 else 10 * NumberAt(s, i, n - 1) + DigitValue(s[i + n - 1])
  }

  predicate DigitsAt(s: string, i: nat, n: nat) {
    i + n <= |s| && forall k :: i <= k < i + n ==> IsDigit(s[k])
  }

  /** What the directives matched so far: year, month, day (1900-01-01 if absent). */
  datatype Parsed = Parsed(year: int, month: int, day: int)

  /** Matches the directives of `fmt` one after another from position `i`. */
  function MatchFormat(s: string, i: nat, fmt: Format, acc: Parsed): (r: Option<(Parsed, nat)>)
    ensures r.Some? ==> i <= r.value.1 <= |s| || (i > |s| && r.value.1 == i)
    decreases |fmt|
  {
    if |fmt| == 0 then Some((acc, i))
    else
      match fmt[0]
      case Day =>
        (match DayAt(s, i)
         case Some((v, j)) => MatchFormat(s, j, fmt[1..], acc.(day := v))
         case None => None)
      case MonthNumber =>
        (match MonthNumberAt(s, i)
         case Some((v, j)) => MatchFormat(s, j, fmt[1..], acc.(month := v))
         case None => None)
      case MonthAbbrev =>
        (match MonthWordAt(s, i, MonthAbbreviations, 0)
         case Some((v, j)) => MatchFormat(s, j, fmt[1..], acc.(month := v))
         case None => None)
      case MonthName =>
        (match MonthWordAt(s, i, MonthNames, 0)
         case Some((v, j)) => MatchFormat(s, j, fmt[1..], acc.(month := v))
         case None => None)
      case Year4 =>
        if DigitsAt(s, i, 4) then MatchFormat(s, i + 4, fmt[1..], acc.(year := NumberAt(s, i, 4)))
        else None
      case Year2 =>
        if DigitsAt(s, i, 2) then
          var y := NumberAt(s, i, 2);
          MatchFormat(s, i + 2, fmt[1..], acc.(year := if y <= 68 then 2000 + y else 1900 + y))
        else None
      case Lit(c) =>
        if i < |s| && s[i] == c then MatchFormat(s, i + 1, fmt[1..], acc) else None
      case Spaces =>
        if i < |s| && IsSpace(s[i]) then MatchFormat(s, SkipSpace(s, i), fmt[1..], acc) else None
  }

  /** Every directive and literal needs at least one character, so the empty text matches no non-empty format. */
  lemma EmptyMatchesNothing(fmt: Format, acc: Parsed)
    requires |fmt| > 0
    ensures MatchFormat("", 0, fmt, acc).None?
  {
  }

  /** `datetime.strptime(s, fmt)`, with None where Python raises ValueError. */
  function Strptime(s: string, fmt: Format): (r: Option<Date>)
    ensures r.Some? ==> ValidDate(r.value)
  {
    match MatchFormat(s, 0, fmt, Parsed(1900, 1, 1))
    case Some((p, j)) =>
      var d := Date(p.year, p.month, p.day);
      if j == |s| && ValidDate(d) then Some(d) else None
    case None => None
  }

  /** The value of the first format in `fmts` under which `s` parses. */
  function FirstParse(s: string, fmts: seq<Format>): (r: Option<Date>)
    ensures r.Some? ==> ValidDate(r.value)
    ensures r.Some? <==> exists k :: 0 <= k < |fmts| && Strptime(s, fmts[k]).Some?
    ensures r.Some? ==> exists k :: 0 <= k < |fmts| && Strptime(s, fmts[k]) == r
                                   && forall j :: 0 <= j < k ==> Strptime(s, fmts[j]).None?
  {
    if |fmts| == 0 then None
    else if Strptime(s, fmts[0]).Some? then Strptime(s, fmts[0])
    else
      assert forall k :: 1 <= k < |fmts| ==> fmts[k] == fmts[1..][k - 1];
      FirstParse(s, fmts[1..])
  }

  function Pad2(n: int): (r: string)
    requires 0 <= n <= 99
    ensures |r| == 2 && AllDigits(r)
  {
    [DigitChar(n / 10), DigitChar(n % 10)]
  }

  function Pad4(n: int): (r: string)
    requires 0 <= n <= 9999
    ensures |r| == 4 && AllDigits(r)
  {
    Pad2(n / 100) + Pad2(n % 100)
  }

  /** `strftime("%Y-%m-%d")`. */
  function Iso(d: Date): (r: string)
    requires ValidDate(d)
    ensures IsIsoShape(r)
  {
    Pad4(d.year) + "-" + Pad2(d.month) + "-" + Pad2(d.day)
  }

  /** The shape `YYYY-MM-DD`. */
  predicate IsIsoShape(s: string) {
    && |s| == 10
    && DigitsAt(s, 0, 4) && s[4] == '-'
    && DigitsAt(s, 5, 2) && s[7] == '-'
    && DigitsAt(s, 8, 2)
  }
}

module CalendarFacts {
  import opened Wrappers
  import opened Chars
  import opened Calendar

  lemma Pad2Digits(n: int)
    requires 0 <= n <= 99
    ensures DigitValue(Pad2(n)[0]) == n / 10 && DigitValue(Pad2(n)[1]) == n % 10
  {
  }

  /** Reading back a day or month written with two digits gives the number. */
  lemma TwoDigitFieldsReadBack(s: string, i: nat, n: int)
    requires 1 <= n <= 31 && i + 2 <= |s| && s[i..i + 2] == Pad2(n)
    ensures DayAt(s, i) == Some((n, i + 2))
    ensures n <= 12 ==> MonthNumberAt(s, i) == Some((n, i + 2))
  {
    Pad2Digits(n);
    assert s[i] == Pad2(n)[0] && s[i + 1] == Pad2(n)[1];
  }

  /** `strptime(strftime(d, "%Y-%m-%d"), "%Y-%m-%d") == d`. */
  lemma IsoRoundTrip(d: Date)
    requires ValidDate(d)
    ensures Strptime(Iso(d), IsoYearMonthDay) == Some(d)
  {
    var s := Iso(d);
    Pad2Digits(d.year / 100);
    Pad2Digits(d.year % 100);
    assert s[0..4] == Pad4(d.year);
    assert NumberAt(s, 0, 4) == d.year by {
      assert NumberAt(s, 0, 1) == d.year / 1000;
      assert NumberAt(s, 0, 2) == d.year / 100;
      assert NumberAt(s, 0, 3) == d.year / 10;
    }
    TwoDigitFieldsReadBack(s, 5, d.month);
    TwoDigitFieldsReadBack(s, 8, d.day);
    var fmt := IsoYearMonthDay;
    var p0 := Parsed(1900, 1, 1);
    var p1 := p0.(year := d.year);
    var p2 := p1.(month := d.month);
    var p3 := p2.(day := d.day);
    assert MatchFormat(s, 10, fmt[5..], p3) == Some((p3, 10));
    assert MatchFormat(s, 8, fmt[4..], p2) == Some((p3, 10));
    assert MatchFormat(s, 7, fmt[3..], p2) == Some((p3, 10));
    assert MatchFormat(s, 5, fmt[2..], p1) == Some((p3, 10));
    assert MatchFormat(s, 4, fmt[1..], p1) == Some((p3, 10));
    assert MatchFormat(s, 0, fmt, p0) == Some((p3, 10));
  }

  /** An ISO date begins with four digits, so no directive after a leading `%d` can follow it. */
  lemma DayFirstRejectsIso(d: Date, fmt: Format)
    requires ValidDate(d)
    requires |fmt| >= 2 && fmt[0] == Day
    requires fmt[1] == Spaces || (fmt[1].Lit? && !IsDigit(fmt[1].c))
    ensures Strptime(Iso(d), fmt).None?
  {
    var s := Iso(d);
    assert IsDigit(s[0]) && IsDigit(s[1]) && IsDigit(s[2]);
    match DayAt(s, 0)
    case None =>
    case Some((v, j)) =>
      assert IsDigit(s[j]);
      assert MatchFormat(s, j, fmt[1..], Parsed(1900, 1, 1).(day := v)).None?;
      assert MatchFormat(s, 0, fmt, Parsed(1900, 1, 1)).None?;
  }

  /** No month name begins with a digit. */
  lemma MonthWordRejectsDigit(s: string, i: nat, names: seq<string>, k: nat)
    requires k <= |names|
    requires forall j :: 0 <= j < |names| ==> |names[j]| > 0 && IsLetter(names[j][0])
    requires i < |s| && IsDigit(s[i])
    ensures MonthWordAt(s, i, names, k).None?
  {
    if MonthWordAt(s, i, names, k).Some? {
      assert false;
    }
  }

  /** An ISO date is not read by a format that begins with a month name. */
  lemma MonthFirstRejectsIso(d: Date, fmt: Format)
    requires ValidDate(d)
    requires |fmt| >= 1 && (fmt[0] == MonthName || fmt[0] == MonthAbbrev)
    ensures Strptime(Iso(d), fmt).None?
  {
    var s := Iso(d);
    assert IsDigit(s[0]);
    MonthFirstRejectsDigit(s, fmt);
  }

  /** A month-word format rejects any text that starts with a digit. */
  lemma MonthFirstRejectsDigit(s: string, fmt: Format)
    requires |s| > 0 && IsDigit(s[0])
    requires |fmt| >= 1 && (fmt[0] == MonthName || fmt[0] == MonthAbbrev)
    ensures Strptime(s, fmt).None?
  {
    if fmt[0] == MonthName {
      MonthWordRejectsDigit(s, 0, MonthNames, 0);
    } else {
      MonthWordRejectsDigit(s, 0, MonthAbbreviations, 0);
    }
    assert MatchFormat(s, 0, fmt, Parsed(1900, 1, 1)).None?;
  }
}
