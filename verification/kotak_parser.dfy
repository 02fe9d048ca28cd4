/**
 * The Kotak extractor (kotak_parser.py): `dd-Mon-yyyy` dates behind labels
 * that may be run together ("StatementDate", "TotalAmountDue"), the card
 * digits right after a run of capital X, and the "No payment required"
 * sentinel, which a labelled due line or a zero total produces.
 */
module KotakParser {
  import opened Wrappers
  import opened Chars
  import opened Search
  import opened Tokens
  import opened Calendar
  import opened Statement
  import CalendarFacts

  /** `\d{1,2}[-/]\w{3,}[-/]\d{2,4}` at `p`: where the match ends. */
  function LooseDateAt(s: string, p: nat): (e: Option<nat>)
    ensures e.Some? ==> p < e.value <= |s| && IsDigit(s[p]) && IsDigit(s[e.value - 1])
  {
    match ShortNumber(s, p)
    case None => None
    case Some(a) =>
      if a < |s| && IsSlashOrDash(s[a]) then WordThenYear(s, a + 1) else None
  }

  /** `\w{3,}[-/]\d{2,4}` at `i`; the greedy word run cannot give back, as `[-/]` is no word character. */
  function WordThenYear(s: string, i: nat): (e: Option<nat>)
    ensures e.Some? ==> i < e.value <= |s| && IsDigit(s[e.value - 1])
  {
    if i > |s| then None
    else
      var w := Run(s, i, IsWordChar);
      var b := i + w;
      if !(w >= 3 && b < |s| && IsSlashOrDash(s[b])) then None
      else
        var n := Run(s, b + 1, IsDigit);
        RunHolds(s, b + 1, IsDigit);
        if n >= 2 then Some(b + 1 + Min(n, 4)) else None
  }

  /** A string that is, from end to end, one match of `extract_date`'s pattern. */
  predicate IsLooseToken(t: string) {
    LooseDateAt(t, 0) == Some(|t|)
  }

  lemma WordThenYearSlice(s: string, p: nat, i: nat)
    requires p <= i && WordThenYear(s, i).Some?
    ensures WordThenYear(s[p..WordThenYear(s, i).value], i - p) == Some(WordThenYear(s, i).value - p)
  {
    var e := WordThenYear(s, i).value;
    var w := Run(s, i, IsWordChar);
    var n := Run(s, i + w + 1, IsDigit);
    assert e == i + w + 1 + Min(n, 4);
    WordThenYearInSlice(s, p, e, i, w, n);
  }

  /** The pieces of a `WordThenYear` match keep their lengths in the slice ending at the match. */
  lemma WordThenYearInSlice(s: string, p: nat, e: nat, i: nat, w: nat, n: nat)
    requires p <= i <= |s| && Run(s, i, IsWordChar) == w && w >= 3 && i + w < |s| && IsSlashOrDash(s[i + w])
    requires Run(s, i + w + 1, IsDigit) == n && n >= 2 && e == i + w + 1 + Min(n, 4)
    ensures WordThenYear(s[p..e], i - p) == Some(e - p)
  {
    PiecesInSlice(s, p, e, i, w, n);
    WordThenYearFrom(s[p..e], i - p, w, Min(n, 4));
  }

  /** The word run, the separator and the year digits, seen in the slice ending at the match. */
  lemma PiecesInSlice(s: string, p: nat, e: nat, i: nat, w: nat, n: nat)
    requires p <= i <= |s| && Run(s, i, IsWordChar) == w && i + w < |s|
    requires Run(s, i + w + 1, IsDigit) == n && e == i + w + 1 + Min(n, 4)
    ensures e <= |s| && Run(s[p..e], i - p, IsWordChar) == w && s[p..e][i - p + w] == s[i + w]
    ensures Run(s[p..e], i - p + w + 1, IsDigit) == Min(n, 4)
  {
    RunInSlice(s, p, e, i, IsWordChar);
    RunInSlice(s, p, e, i + w + 1, IsDigit);
  }

  /** `WordThenYear` from its pieces: the word run, the separator, the year digits. */
  lemma WordThenYearFrom(s: string, i: nat, w: nat, n: nat)
    requires i <= |s| && Run(s, i, IsWordChar) == w && w >= 3 && i + w < |s| && IsSlashOrDash(s[i + w])
    requires Run(s, i + w + 1, IsDigit) == n && n >= 2
    ensures WordThenYear(s, i) == Some(i + w + 1 + Min(n, 4))
  {
  }

  /** A match of `extract_date`'s pattern is matched, whole, by its own slice. */
  lemma LooseDateSlice(s: string, p: nat)
    requires LooseDateAt(s, p).Some?
    ensures IsLooseToken(s[p..LooseDateAt(s, p).value])
  {
    var e := LooseDateAt(s, p).value;
    var a := ShortNumber(s, p).value;
    assert a < |s| && IsSlashOrDash(s[a]) && WordThenYear(s, a + 1) == Some(e);
    ShortNumberInSlice(s, p, e, p);
    WordThenYearSlice(s, p, a + 1);
    assert s[p..e][a - p] == s[a];
    LooseTokenFrom(s[p..e], a - p, s[a]);
  }

  /** A number, a separator and a word-then-year match running to the end make a loose token. */
  lemma LooseTokenFrom(t: string, a: nat, c: char)
    requires ShortNumber(t, 0) == Some(a) && a < |t| && t[a] == c && IsSlashOrDash(c)
    requires WordThenYear(t, a + 1) == Some(|t|)
    ensures IsLooseToken(t)
  {
  }

  /** `[\d]{1,2}-[A-Za-z]{3}-[\d]{4}` at `p`: where the match ends. */
  function StrictDateAt(s: string, p: nat): (e: Option<nat>)
    ensures e.Some? ==> p < e.value <= |s| && IsDigit(s[p])
  {
    match ShortNumber(s, p)
    case None => None
    case Some(a) =>
      if && a + 9 <= |s| && s[a] == '-' && IsLetter(s[a + 1]) && IsLetter(s[a + 2]) && IsLetter(s[a + 3])
         && s[a + 4] == '-' && DigitsFrom(s, a + 5, a + 9)
      then Some(a + 9) else None
  }

  /** A string that is, from end to end, one `dd-Mon-yyyy` token. */
  predicate IsStrictToken(t: string) {
    StrictDateAt(t, 0) == Some(|t|)
  }

  /** A `dd-Mon-yyyy` token matched inside a text is matched, whole, by its own slice. */
  lemma StrictDateSlice(s: string, p: nat)
    requires StrictDateAt(s, p).Some?
    ensures IsStrictToken(s[p..StrictDateAt(s, p).value])
  {
    var e := StrictDateAt(s, p).value;
    var t := s[p..e];
    RunInSlice(s, p, e, p, IsDigit);
    assert forall k :: 0 <= k < e - p ==> t[k] == s[p + k];
  }

  /** Every `dd-Mon-yyyy` token is one whole match of `extract_date`'s wider pattern. */
  lemma StrictIsLoose(t: string)
    requires IsStrictToken(t)
    ensures IsLooseToken(t)
  {
    var a := ShortNumber(t, 0).value;
    RunIs(t, a + 1, IsWordChar, 3);
    RunIs(t, a + 5, IsDigit, 4);
    assert WordThenYear(t, a + 1) == Some(|t|);
  }

  /** A token read with `%d-%b-%Y` and written as ISO, or the token itself when that fails. */
  function LooseDateToIso(tok: string): (r: string)
    ensures IsIsoShape(r) || r == tok
    ensures Strptime(tok, DayMonYear).Some? ==> IsIsoShape(r)
  {
    match Strptime(tok, DayMonYear)
    case Some(d) => Iso(d)
    case None => tok
  }

  /** The ISO text written for a token denotes the date the token was read as. */
  lemma LooseDateReadsBack(tok: string)
    requires Strptime(tok, DayMonYear).Some?
    ensures Strptime(LooseDateToIso(tok), IsoYearMonthDay) == Strptime(tok, DayMonYear)
  {
    CalendarFacts.IsoRoundTrip(Strptime(tok, DayMonYear).value);
  }

  /** `extract_date`: the leftmost match, converted to ISO when it reads as `%d-%b-%Y`. */
  function ExtractLooseDate(text: string): (r: Option<string>)
    ensures r.None? <==> forall p :: 0 <= p <= |text| ==> LooseDateAt(text, p).None?
    ensures r.Some? ==> IsIsoShape(r.value) || IsLooseToken(r.value)
    ensures r.Some? ==> exists p ::
              0 <= p <= |text| && LooseDateAt(text, p).Some? &&
              (forall q :: 0 <= q < p ==> LooseDateAt(text, q).None?) &&
              r.value == LooseDateToIso(text[p..LooseDateAt(text, p).value])
  {
    var m := (p: nat) => LooseDateAt(text, p);
    assert forall q: nat :: m(q) == LooseDateAt(text, q);
    var found := FirstFrom(0, |text|, m);
    if found.None? then None
    else
      var (p, e) := found.value;
      LooseDateSlice(text, p);
      assert LooseDateAt(text, p) == Some(e) && forall q :: 0 <= q < p ==> LooseDateAt(text, q).None?;
      Some(LooseDateToIso(text[p..e]))
  }

  /** On one whole match alone, `extract_date` finds that match. */
  lemma LooseDateOfToken(t: string)
    requires IsLooseToken(t)
    ensures ExtractLooseDate(t) == Some(LooseDateToIso(t))
  {
    var found := FirstFrom(0, |t|, (p: nat) => LooseDateAt(t, p));
    assert found == Some((0, |t|));
    assert t[0..|t|] == t;
  }

  /** A match returned verbatim is returned again when `extract_date` is applied to it. */
  lemma VerbatimLooseDateIsStable(text: string)
    requires ExtractLooseDate(text).Some? && !IsIsoShape(ExtractLooseDate(text).value)
    ensures ExtractLooseDate(ExtractLooseDate(text).value) == ExtractLooseDate(text)
  {
    var t := ExtractLooseDate(text).value;
    LooseDateOfToken(t);
    var found := FirstFrom(0, |text|, (p: nat) => LooseDateAt(text, p));
    var (p, e) := found.value;
    assert t == LooseDateToIso(text[p..e]);
    assert t == text[p..e];
  }

  /** `(?:\u00e2\u201a\u00b9|`)?\s?([\d,]+\.\d{2})` at `p`: the amount's bounds. */
  function MarkedAmountAt(s: string, p: nat): (r: Option<(nat, nat)>)
    ensures r.Some? ==> r.value.0 + 4 <= r.value.1 && IsAmountSpan(s, r.value.0, r.value.1)
  {
    if p > |s| then None
    else
      var k := if LiteralAt(s, p, "\U{e2}\U{201a}\U{b9}") then p + 3
               else if p < |s| && s[p] == '`' then p + 1
               else p;
      if k < |s| && IsSpace(s[k]) then
        match DecimalAt(s, k + 1)
        case Some(f) => Some((k + 1, f))
        case None => None
      else
        match DecimalAt(s, k)
        case Some(f) => Some((k, f))
        case None => None
  }

  /** `extract_amount`: the leftmost amount with its commas removed. */
  function ExtractAmount(text: string): (r: Option<string>)
    ensures r.Some? ==> IsDecimal2(r.value)
    ensures r.None? <==> forall p :: 0 <= p <= |text| ==> MarkedAmountAt(text, p).None?
    ensures r.Some? ==> exists p ::
              0 <= p <= |text| && MarkedAmountAt(text, p).Some? &&
              (forall q :: 0 <= q < p ==> MarkedAmountAt(text, q).None?) &&
              r.value == AmountText(text, MarkedAmountAt(text, p).value.0, MarkedAmountAt(text, p).value.1)
  {
    var m := (p: nat) => MarkedAmountAt(text, p);
    assert forall q: nat :: m(q) == MarkedAmountAt(text, q);
    var found := FirstFrom(0, |text|, m);
    if found.None? then None
    else
      var (p, (q, f)) := found.value;
      assert MarkedAmountAt(text, p) == Some((q, f)) && forall k :: 0 <= k < p ==> MarkedAmountAt(text, k).None?;
      Some(AmountText(text, q, f))
  }

  /** An amount behind a backtick at the start of the text is read with its commas removed. */
  lemma BacktickAmountRead(a: string, rest: string)
    requires IsCommaDecimal(a)
    ensures ExtractAmount("`" + a + rest) == Some(Remove(a, ','))
  {
    var s := "`" + a + rest;
    assert !LiteralAt(s, 0, "\U{e2}\U{201a}\U{b9}") by { assert s[0] == '`'; }
    assert s[1] == a[0];
    assert s[1..1 + |a|] == a;
    DecimalAtToken(s, 1, a);
    assert MarkedAmountAt(s, 0) == Some((1, 1 + |a|));
  }


  /** `X{4,}(\d{4})` at `p`: where the four digits start. */
  function CardAt(s: string, p: nat): (r: Option<nat>)
    ensures r.Some? ==> p + 4 <= r.value && r.value + 4 <= |s| && DigitsFrom(s, r.value, r.value + 4)
  {
    if p > |s| then None
    else
      var n := Run(s, p, IsCapitalX);
      if n >= 4 && p + n + 4 <= |s| && DigitsFrom(s, p + n, p + n + 4) then Some(p + n) else None
  }

  /** The four digits right after the leftmost run of four or more capital X. */
  function KotakCardLast4(text: string): (r: Option<string>)
    ensures r.Some? ==> IsLast4(r.value)
    ensures r.None? <==> forall p :: 0 <= p <= |text| ==> CardAt(text, p).None?
    ensures r.Some? ==> exists p ::
              0 <= p <= |text| && CardAt(text, p).Some? &&
              (forall q :: 0 <= q < p ==> CardAt(text, q).None?) &&
              r.value == text[CardAt(text, p).value..CardAt(text, p).value + 4]
  {
    var m := (p: nat) => CardAt(text, p);
    assert forall q: nat :: m(q) == CardAt(text, q);
    var found := FirstFrom(0, |text|, m);
    if found.None? then None
    else
      var (p, q) := found.value;
      assert CardAt(text, p) == Some(q) && forall k :: 0 <= k < p ==> CardAt(text, k).None?;
      Some(text[q..q + 4])
  }

  /** Unlike the ICICI pattern, no whitespace may stand between the mask and the digits. */
  lemma SpacedMaskIsNoCard(c: char, rest: string)
    requires IsSpace(c)
    ensures CardAt("XXXX" + [c] + rest, 0).None?
  {
    var s := "XXXX" + [c] + rest;
    RunIs(s, 0, IsCapitalX, 4);
    assert !IsDigit(s[4]);
  }

  /** A label `w1\s*w2...`, case ignored, then `[:\s]*`: where the value starts. */
  function ValueAfterWords(s: string, p: nat, words: seq<string>): (q: Option<(nat, nat)>)
    ensures q.Some? ==> p <= q.value.0 <= q.value.1 <= |s|
  {
    match LabelAt(s, p, words, false)
    case None => None
    case Some(e) => Some((e, e + Run(s, e, IsColonOrSpace)))
  }

  /** `(statement\s*date|statement\s*generated\s*on)[:\s]*(date)` at `p`: the date's bounds. */
  function StatementLineAt(s: string, p: nat): (r: Option<(nat, nat)>)
    ensures r.Some? ==> StrictDateAt(s, r.value.0) == Some(r.value.1)
  {
    match TokenAfter(s, p, ["statement", "date"])
    case Some(span) => Some(span)
    case None => TokenAfter(s, p, ["statement", "generated", "on"])
  }

  function TokenAfter(s: string, p: nat, words: seq<string>): (r: Option<(nat, nat)>)
    ensures r.Some? ==> StrictDateAt(s, r.value.0) == Some(r.value.1)
  {
    match ValueAfterWords(s, p, words)
    case None => None
    case Some((_, q)) =>
      match StrictDateAt(s, q)
      case Some(f) => Some((q, f))
      case None => None
  }

  /** `StatementDate\s*(date)` at `p`, case kept: the date's bounds. */
  function RunTogetherStatementAt(s: string, p: nat): (r: Option<(nat, nat)>)
    ensures r.Some? ==> StrictDateAt(s, r.value.0) == Some(r.value.1)
  {
    if !LiteralAt(s, p, "StatementDate") then None
    else
      var q := SkipSpace(s, p + 13);
      match StrictDateAt(s, q)
      case Some(f) => Some((q, f))
      case None => None
  }

  /** The statement-line pattern `k`: labelled (`k == 0`) or run together (`k == 1`). */
  function StatementMatch(s: string, p: nat, k: nat): (r: Option<(nat, nat)>)
    ensures r.Some? ==> StrictDateAt(s, r.value.0) == Some(r.value.1)
  {
    if k == 0 then StatementLineAt(s, p) else RunTogetherStatementAt(s, p)
  }

  /** The `dd-Mon-yyyy` token of the leftmost match of statement-line pattern `k`. */
  function StatementToken(text: string, k: nat): (r: Option<string>)
    ensures r.Some? ==> IsStrictToken(r.value)
    ensures r.None? <==> forall p :: 0 <= p <= |text| ==> StatementMatch(text, p, k).None?
    ensures r.Some? ==> exists p ::
              0 <= p <= |text| && StatementMatch(text, p, k).Some? &&
              (forall q :: 0 <= q < p ==> StatementMatch(text, q, k).None?) &&
              r.value == text[StatementMatch(text, p, k).value.0..StatementMatch(text, p, k).value.1]
  {
    var m := (p: nat) => StatementMatch(text, p, k);
    assert forall q: nat :: m(q) == StatementMatch(text, q, k);
    var found := FirstFrom(0, |text|, m);
    if found.None? then None
    else
      var (p, (q, f)) := found.value;
      StrictDateSlice(text, q);
      assert StatementMatch(text, p, k) == Some((q, f)) && forall j :: 0 <= j < p ==> StatementMatch(text, j, k).None?;
      Some(text[q..f])
  }

  /**
   * The run-together pattern never finds a date the labelled one misses: wherever
   * `StatementDate\s*` precedes a date, `statement\s*date[:\s]*` matches too.
   */
  lemma RunTogetherIsLabelled(s: string, p: nat)
    requires RunTogetherStatementAt(s, p).Some?
    ensures StatementLineAt(s, p) == RunTogetherStatementAt(s, p)
  {
    RunTogetherLabel(s, p);
    var q := SkipSpace(s, p + 13);
    SpacesBeforeDigit(s, p + 13);
    assert ValueAfterWords(s, p, ["statement", "date"]) == Some((p + 13, q));
  }

  /** The run-together label is also the case-blind two-word label. */
  lemma RunTogetherLabel(s: string, p: nat)
    requires LiteralAt(s, p, "StatementDate")
    ensures LabelAt(s, p, ["statement", "date"], false) == Some(p + 13)
  {
    var w := "StatementDate";
    LiteralPart(s, p, w, 0, 9);
    LiteralPart(s, p, w, 9, 4);
    assert w[0..9] == "Statement" && w[9..13] == "Date";
    StatementWordsAt(s, p);
  }

  /** Before a digit, `[:\s]*` and `\s*` stop at the same place. */
  lemma SpacesBeforeDigit(s: string, e: nat)
    requires e <= |s| && SkipSpace(s, e) < |s| && IsDigit(s[SkipSpace(s, e)])
    ensures e + Run(s, e, IsColonOrSpace) == SkipSpace(s, e)
  {
    RunHolds(s, e, IsSpace);
    RunIs(s, e, IsColonOrSpace, SkipSpace(s, e) - e);
  }

  /** "Statement" then "Date" at `p`, read by the case-blind label `statement\s*date`. */
  lemma StatementWordsAt(s: string, p: nat)
    requires LiteralAt(s, p, "Statement") && LiteralAt(s, p + 9, "Date")
    ensures LabelAt(s, p, ["statement", "date"], false) == Some(p + 13)
  {
    LiteralIgnoringCase(s, p, "Statement");
    LiteralIgnoringCase(s, p + 9, "Date");
    assert LiteralAtIgnoringCase(s, p, "statement");
    assert LiteralAtIgnoringCase(s, p + 9, "date");
    assert s[p + 9] == 'D' by { assert s[p + 9] == s[p + 9..p + 13][0]; }
    assert SkipSpace(s, p + 9) == p + 9;
    assert LabelAt(s, p + 9, ["date"], false) == Some(p + 13);
    assert ["statement", "date"][1..] == ["date"];
  }

  /** So the statement date's run-together fallback yields a token only when the labelled search does. */
  lemma StatementFallbackIsDead(text: string)
    ensures StatementToken(text, 1).Some? ==> StatementToken(text, 0).Some?
  {
    if StatementToken(text, 1).Some? {
      var p :| 0 <= p <= |text| && StatementMatch(text, p, 1).Some?;
      RunTogetherIsLabelled(text, p);
      assert StatementMatch(text, p, 0).Some?;
    }
  }

  /** `extract_date` of a `dd-Mon-yyyy` token: never None. */
  function IsoOfLooseToken(tok: Option<string>): (r: Option<string>)
    requires tok.Some? ==> IsStrictToken(tok.value)
    ensures r.Some? <==> tok.Some?
    ensures r.Some? ==> r.value == LooseDateToIso(tok.value)
  {
    if tok.None? then None
    else
      StrictIsLoose(tok.value);
      LooseDateOfToken(tok.value);
      ExtractLooseDate(tok.value)
  }

  /** The statement date: the labelled line first, then the run-together label. */
  function KotakStatementDate(text: string): (r: Option<string>)
    ensures r.None? <==> StatementToken(text, 0).None? && StatementToken(text, 1).None?
    ensures r.Some? ==> IsIsoShape(r.value) || IsStrictToken(r.value)
    ensures StatementToken(text, 0).Some? ==> r == IsoOfLooseToken(StatementToken(text, 0))
    ensures StatementToken(text, 0).None? ==> r == IsoOfLooseToken(StatementToken(text, 1))
  {
    var labelled := StatementToken(text, 0);
    if labelled.Some? then IsoOfLooseToken(labelled)
    else IsoOfLooseToken(StatementToken(text, 1))
  }

  const NoPaymentText: string := "no payment required"

  /**
   * `(payment\s*due\s*date|remember\s*to\s*pay\s*by)[:\s]*(No payment required|date)`
   * at `p`, case ignored: the end of the label (group 1) and the bounds of the value (group 2).
   */
  function DueLineAt(s: string, p: nat): (r: Option<(nat, nat, nat)>)
    ensures r.Some? ==> p <= r.value.0 <= r.value.1 < r.value.2 <= |s|
    ensures r.Some? ==> IsDueValue(s, r.value.1, r.value.2)
  {
    match DueValueAfter(s, p, ["payment", "due", "date"])
    case Some(span) => Some(span)
    case None => DueValueAfter(s, p, ["remember", "to", "pay", "by"])
  }

  function DueValueAfter(s: string, p: nat, words: seq<string>): (r: Option<(nat, nat, nat)>)
    ensures r.Some? ==> p <= r.value.0 <= r.value.1 < r.value.2 <= |s|
    ensures r.Some? ==> IsDueValue(s, r.value.1, r.value.2)
  {
    match ValueAfterWords(s, p, words)
    case None => None
    case Some((e, q)) =>
      if LiteralAtIgnoringCase(s, q, NoPaymentText) then Some((e, q, q + |NoPaymentText|))
      else
        match StrictDateAt(s, q)
        case Some(f) => Some((e, q, f))
        case None => None
  }

  /** The phrase has no capital letter. */
  lemma PhraseIsLowerCase()
    ensures forall k :: 0 <= k < |NoPaymentText| ==> !IsUpper(NoPaymentText[k])
  {
  }

  /** A due value spans the phrase or a date token. */
  predicate IsDueValue(s: string, q: nat, f: nat) {
    || (LiteralAtIgnoringCase(s, q, NoPaymentText) && f == q + |NoPaymentText|)
    || StrictDateAt(s, q) == Some(f)
  }

  /** The text of a due value lower-cases to the phrase or is a date token. */
  lemma DueValueShape(s: string, q: nat, f: nat)
    requires IsDueValue(s, q, f)
    ensures q <= f <= |s|
    ensures LowerString(s[q..f]) == NoPaymentText || IsStrictToken(s[q..f])
  {
    if LiteralAtIgnoringCase(s, q, NoPaymentText) && f == q + |NoPaymentText| {
      PhraseIsLowerCase();
      LowerOfLiteral(s, q, NoPaymentText);
    } else {
      StrictDateSlice(s, q);
    }
  }

  /** Groups 1 and 2 of the leftmost due line. */
  function DueLine(text: string): (r: Option<(string, string)>)
    ensures r.Some? ==> LowerString(r.value.1) == NoPaymentText || IsStrictToken(r.value.1)
    ensures r.None? <==> forall p :: 0 <= p <= |text| ==> DueLineAt(text, p).None?
    ensures r.Some? ==> exists p ::
              0 <= p <= |text| && DueLineAt(text, p).Some? &&
              (forall q :: 0 <= q < p ==> DueLineAt(text, q).None?) &&
              r.value.0 == text[p..DueLineAt(text, p).value.0] &&
              r.value.1 == text[DueLineAt(text, p).value.1..DueLineAt(text, p).value.2]
  {
    var m := (p: nat) => DueLineAt(text, p);
    assert forall q: nat :: m(q) == DueLineAt(text, q);
    var found := FirstFrom(0, |text|, m);
    if found.None? then None
    else
      var p := found.value.0;
      var (e, q, f) := found.value.1;
      DueValueShape(text, q, f);
      assert DueLineAt(text, p) == Some((e, q, f)) && forall k :: 0 <= k < p ==> DueLineAt(text, k).None?;
      Some((text[p..e], text[q..f]))
  }

  /** `TotalAmountDue.*?([\d,]+\.\d{2})` at `p`, case ignored, the gap not crossing a line break. */
  function TotalLineAt(s: string, p: nat): (r: Option<(nat, nat)>)
    ensures r.Some? ==> p + 14 <= r.value.0 && r.value.0 + 4 <= r.value.1 <= |s|
    ensures r.Some? ==> IsAmountSpan(s, r.value.0, r.value.1)
  {
    if !LiteralAtIgnoringCase(s, p, "totalamountdue") then None
    else
      var e := p + 14;
      var m := (q: nat) => DecimalAt(s, q);
      match FirstFrom(e, e + Run(s, e, NotNewline), m)
      case Some((q, f)) => Some((q, f))
      case None => None
  }

  /** The total amount due: the leftmost labelled amount with its commas removed. */
  function KotakTotalAmountDue(text: string): (r: Option<string>)
    ensures r.Some? ==> IsDecimal2(r.value)
    ensures r.None? <==> forall p :: 0 <= p <= |text| ==> TotalLineAt(text, p).None?
    ensures r.Some? ==> exists p ::
              0 <= p <= |text| && TotalLineAt(text, p).Some? &&
              (forall q :: 0 <= q < p ==> TotalLineAt(text, q).None?) &&
              r.value == AmountText(text, TotalLineAt(text, p).value.0, TotalLineAt(text, p).value.1)
  {
    var m := (p: nat) => TotalLineAt(text, p);
    assert forall q: nat :: m(q) == TotalLineAt(text, q);
    var found := FirstFrom(0, |text|, m);
    if found.None? then None
    else
      var (p, (q, f)) := found.value;
      assert TotalLineAt(text, p) == Some((q, f)) && forall k :: 0 <= k < p ==> TotalLineAt(text, k).None?;
      Some(AmountText(text, q, f))
  }

  /** Every digit of the amount is 0. */
  predicate IsZeroAmount(a: string) {
    forall i :: 0 <= i < |a| ==> a[i] == '0' || a[i] == '.'
  }

  /** The number a run of digits denotes. */
  function DigitsValue(s: string): (v: nat)
    requires AllDigits(s)
  {
    if |s| == 0 then 0 else 10 * DigitsValue(s[..|s| - 1]) + DigitValue(s[|s| - 1]) as nat
  }

  lemma {:induction false} DigitsValueZero(s: string)
    requires AllDigits(s)
    ensures DigitsValue(s) == 0 <==> forall i :: 0 <= i < |s| ==> s[i] == '0'
  {
    if |s| > 0 {
      var init := s[..|s| - 1];
      DigitsValueZero(init);
      assert forall i :: 0 <= i < |init| ==> init[i] == s[i];
    }
  }

  /** What `float` makes of a two-decimal amount, in hundredths. */
  function Cents(a: string): nat
    requires IsDecimal2(a)
  {
    var k := |a| - 3;
    assert AllDigits(a[..k]) && AllDigits(a[k + 1..]);
    100 * DigitsValue(a[..k]) + DigitsValue(a[k + 1..])
  }

  /** `float(a) == 0` exactly when every digit of `a` is 0. */
  lemma ZeroAmountIsZero(a: string)
    requires IsDecimal2(a)
    ensures IsZeroAmount(a) <==> Cents(a) == 0
  {
    var k := |a| - 3;
    var whole, frac := a[..k], a[k + 1..];
    DigitsValueZero(whole);
    DigitsValueZero(frac);
    assert forall i :: 0 <= i < k ==> whole[i] == a[i];
    assert frac[0] == a[k + 1] && frac[1] == a[k + 2];
  }

  /** The due date: the labelled line's value, else the sentinel when the total is zero. */
  function KotakPaymentDueDate(text: string): (r: Option<string>)
    ensures r == Some(NoPaymentRequired) <==>
              || (DueLine(text).Some? && SaysNoPayment(DueLine(text).value))
              || (DueLine(text).None? && KotakTotalAmountDue(text).Some? && IsZeroAmount(KotakTotalAmountDue(text).value))
    ensures DueLine(text).None? ==> r.None? || r == Some(NoPaymentRequired)
    ensures DueLine(text).Some? && !SaysNoPayment(DueLine(text).value) ==>
              r == ExtractLooseDate(DueLine(text).value.1) && r.Some?
  {
    match DueLine(text)
    case Some(groups) =>
      if SaysNoPayment(groups) then Some(NoPaymentRequired)
      else
        NotSentinel(groups.1);
        ExtractLooseDate(groups.1)
    case None =>
      var total := KotakTotalAmountDue(text);
      if total.Some? && IsZeroAmount(total.value) then Some(NoPaymentRequired) else None
  }

  /** The test on the due line's groups: group 1 holds the phrase, or group 2 is it, case ignored. */
  predicate SaysNoPayment(groups: (string, string)) {
    Contains(LowerString(groups.0), NoPaymentText) || LowerString(groups.1) == NoPaymentText
  }

  /** A due value that is a date token never reads as the sentinel. */
  lemma NotSentinel(value: string)
    requires IsStrictToken(value)
    ensures ExtractLooseDate(value).Some? && ExtractLooseDate(value) != Some(NoPaymentRequired)
  {
    StrictIsLoose(value);
    LooseDateOfToken(value);
    assert IsDigit(value[0]);
    assert NoPaymentRequired[0] == 'N';
  }

  /** `parse_kotak`; `detect` stands for `detect_currency_symbol`. */
  function ParseKotak(text: string, detect: string -> string): (r: Fields)
    ensures r.bank == "KOTAK" && r.currencySymbol == Some(detect(text))
    ensures r.cardLast4 == KotakCardLast4(text) && r.statementDate == KotakStatementDate(text)
    ensures r.paymentDueDate == KotakPaymentDueDate(text) && r.totalAmountDue == KotakTotalAmountDue(text)
    ensures r.cardLast4.Some? ==> IsLast4(r.cardLast4.value)
    ensures r.totalAmountDue.Some? ==> IsDecimal2(r.totalAmountDue.value)
  {
    Fields("KOTAK", KotakCardLast4(text), KotakStatementDate(text), KotakPaymentDueDate(text), KotakTotalAmountDue(text), Some(detect(text)))
  }
}
