/**
 * The ICICI extractor (icici_parser.py): month-name dates found behind
 * OCR-tolerant labels, the card digits after a run of capital X, and the total
 * after "total amount due". Its record has no currency symbol.
 */
module IciciParser {
  import opened Wrappers
  import opened Chars
  import opened Search
  import opened Tokens
  import opened Calendar
  import opened Statement
  import FuzzyLabel
  import CalendarFacts
  import GenericParser

  /** `[A-Za-z]+\s\d{1,2},\s\d{4}` at `p`: where the match ends. */
  function WordDateEnd(s: string, p: nat): (e: Option<nat>)
    ensures e.Some? ==> p < e.value <= |s| && IsLetter(s[p]) && IsDigit(s[e.value - 1])
  {
    WordDayYearAt(s, p, 1, 0, false)
  }

  /** A string that is, from end to end, one date token. */
  predicate IsDateToken(t: string) {
    WordDateEnd(t, 0) == Some(|t|)
  }

  /** A date matched inside a text is, sliced out, a date token. */
  lemma DateTokenSlice(s: string, p: nat, e: nat)
    requires WordDateEnd(s, p) == Some(e)
    ensures IsDateToken(s[p..e])
  {
    WordDayYearSlice(s, p, e, 1, 0);
  }

  /** A date token read with `%B %d, %Y` and written as ISO, or the token itself when that fails. */
  function WordDateToIso(tok: string): (r: string)
    ensures IsIsoShape(r) || r == tok
    ensures Strptime(tok, MonthNameDayYear).Some? ==> IsIsoShape(r)
  {
    match Strptime(tok, MonthNameDayYear)
    case Some(d) => Iso(d)
    case None => tok
  }

  /** The ISO text written for a token denotes the date the token was read as. */
  lemma WordDateReadsBack(tok: string)
    requires Strptime(tok, MonthNameDayYear).Some?
    ensures Strptime(WordDateToIso(tok), IsoYearMonthDay) == Strptime(tok, MonthNameDayYear)
  {
    CalendarFacts.IsoRoundTrip(Strptime(tok, MonthNameDayYear).value);
  }

  /** `extract_date`: the leftmost date token, converted to ISO when it reads as `%B %d, %Y`. */
  function ExtractWordDate(text: string): (r: Option<string>)
    ensures r.None? <==> forall p :: 0 <= p <= |text| ==> WordDateEnd(text, p).None?
    ensures r.Some? ==> IsIsoShape(r.value) || IsDateToken(r.value)
    ensures r.Some? ==> exists p ::
              0 <= p <= |text| && WordDateEnd(text, p).Some? &&
              (forall q :: 0 <= q < p ==> WordDateEnd(text, q).None?) &&
              r.value == WordDateToIso(text[p..WordDateEnd(text, p).value])
  {
    var m := (p: nat) => WordDateEnd(text, p);
    assert forall q: nat :: m(q) == WordDateEnd(text, q);
    match FirstFrom(0, |text|, m)
    case None => None
    case Some((p, e)) =>
      DateTokenSlice(text, p, e);
      assert WordDateEnd(text, p) == Some(e) && forall q :: 0 <= q < p ==> WordDateEnd(text, q).None?;
      Some(WordDateToIso(text[p..e]))
  }

  /** On a date token alone, `extract_date` finds the whole token. */
  lemma WordDateOfToken(t: string)
    requires IsDateToken(t)
    ensures ExtractWordDate(t) == Some(WordDateToIso(t))
  {
    var found := FirstFrom(0, |t|, (p: nat) => WordDateEnd(t, p));
    assert found == Some((0, |t|));
    assert t[0..|t|] == t;
  }

  /** A token returned verbatim is returned again when `extract_date` is applied to it. */
  lemma VerbatimWordDateIsStable(text: string)
    requires ExtractWordDate(text).Some? && !IsIsoShape(ExtractWordDate(text).value)
    ensures ExtractWordDate(ExtractWordDate(text).value) == ExtractWordDate(text)
  {
    var t := ExtractWordDate(text).value;
    WordDateOfToken(t);
    var found := FirstFrom(0, |text|, (p: nat) => WordDateEnd(text, p));
    var (p, e) := found.value;
    assert t == WordDateToIso(text[p..e]);
    assert t == text[p..e];
  }

  /** An ISO date holds no letter, so `extract_date` finds nothing in its own ISO output. */
  lemma IsoHoldsNoDate(d: Date)
    requires ValidDate(d)
    ensures ExtractWordDate(Iso(d)).None?
  {
    var s := Iso(d);
    forall p | 0 <= p <= |s| ensures WordDateEnd(s, p).None? {
      if p < |s| {
        assert IsDigit(s[p]) || s[p] == '-';
      }
    }
  }


  /** `X{4,}\s*?(\d{4})`: the four digits after a run of four or more capital X (case matters). */
  function MaskedCardLast4(text: string): (r: Option<string>)
    ensures r.Some? ==> IsLast4(r.value)
    ensures r.None? <==> forall p :: 0 <= p <= |text| ==> GenericParser.MaskThenDigits(text, p, IsCapitalX).None?
    ensures r.Some? ==> exists p ::
              0 <= p <= |text| && GenericParser.MaskThenDigits(text, p, IsCapitalX).Some? &&
              (forall q :: 0 <= q < p ==> GenericParser.MaskThenDigits(text, q, IsCapitalX).None?) &&
              r.value == text[GenericParser.MaskThenDigits(text, p, IsCapitalX).value..GenericParser.MaskThenDigits(text, p, IsCapitalX).value + 4]
  {
    var m := (p: nat) => GenericParser.MaskThenDigits(text, p, IsCapitalX);
    assert forall q: nat :: m(q) == GenericParser.MaskThenDigits(text, q, IsCapitalX);
    var found := FirstFrom(0, |text|, m);
    if found.None? then None
    else
      var (p, q) := found.value;
      assert GenericParser.MaskThenDigits(text, p, IsCapitalX) == Some(q);
      assert forall k :: 0 <= k < p ==> GenericParser.MaskThenDigits(text, k, IsCapitalX).None?;
      Some(text[q..q + 4])
  }

  /** Lower-case x never masks a card number here: without a capital X there is no card. */
  lemma NoCapitalXNoCard(text: string)
    requires 'X' !in text
    ensures MaskedCardLast4(text).None?
  {
    forall p | 0 <= p <= |text| ensures GenericParser.MaskThenDigits(text, p, IsCapitalX).None? {
      if p < |text| {
        assert !IsCapitalX(text[p]);
      }
    }
  }

  /** Where the four digits follow the mask at the start of the text, they are the card's. */
  lemma MaskedCardRead(spaces: string, digits: string, rest: string)
    requires AllSpace(spaces) && IsLast4(digits)
    ensures MaskedCardLast4("XXXX" + spaces + digits + rest) == Some(digits)
  {
    var s := "XXXX" + spaces + digits + rest;
    RunIs(s, 0, IsCapitalX, 4);
    assert forall k :: 4 <= k < 4 + |spaces| ==> s[k] == spaces[k - 4];
    assert s[4 + |spaces|] == digits[0];
    RunIs(s, 4, IsSpace, |spaces|);
    assert s[4 + |spaces|..8 + |spaces|] == digits;
    assert GenericParser.MaskThenDigits(s, 0, IsCapitalX) == Some(4 + |spaces|);
  }

  /** The date searches of `parse_icici`. */
  datatype DateSearch =
    | Fuzzy(phrase: string)   // the fuzzy label followed directly by a date token
    | StatementNear           // `STATEMENT.{0,50}?` then a date token
    | PaymentDueNear          // `PAYMENT.{0,50}?DUE.{0,20}?` then a date token

  predicate Searchable(k: DateSearch) {
    k.Fuzzy? ==> FuzzyLabel.EndsInLetter(k.phrase)
  }

  /**
   * The search `k` at `p`, case ignored: where its date token starts and ends.
   * A fuzzy label's last letter run and trailing whitespace give characters
   * back from the longest match down, until the token starts right there.
   */
  function SearchAt(s: string, p: nat, k: DateSearch): (r: Option<(nat, nat)>)
    requires Searchable(k)
    ensures r.Some? ==> p < r.value.0 < r.value.1 <= |s| && WordDateEnd(s, r.value.0) == Some(r.value.1)
  {
    match k
    case Fuzzy(phrase) => FuzzySearchAt(s, p, phrase)
    case StatementNear =>
      (match LabelAt(s, p, ["statement"], false)
       case None => None
       case Some(e) => FirstFrom(e, Min(e + 50, |s|), (q: nat) => WordDateEnd(s, q)))
    case PaymentDueNear => PaymentDueNearAt(s, p)
  }

  /** The fuzzy label at `p`, giving back characters until a date token starts right there. */
  function FuzzySearchAt(s: string, p: nat, phrase: string): (r: Option<(nat, nat)>)
    requires FuzzyLabel.EndsInLetter(phrase)
    ensures r.Some? ==> p < r.value.0 < r.value.1 <= |s| && WordDateEnd(s, r.value.0) == Some(r.value.1)
  {
    match FuzzyLabel.MatchAt(s, p, phrase)
    case None => None
    case Some((runStart, e)) => FirstDown(e, runStart + 1, (q: nat) => WordDateEnd(s, q))
  }

  /** `PAYMENT.{0,50}?DUE.{0,20}?` at `p`, then a date token. */
  function PaymentDueNearAt(s: string, p: nat): (r: Option<(nat, nat)>)
    ensures r.Some? ==> p < r.value.0 < r.value.1 <= |s| && WordDateEnd(s, r.value.0) == Some(r.value.1)
  {
    match LabelAt(s, p, ["payment"], false)
    case None => None
    case Some(e) =>
      var afterDue := (d: nat) =>
        if LiteralAtIgnoringCase(s, d, "due") then FirstFrom(d + 3, Min(d + 23, |s|), (q: nat) => WordDateEnd(s, q))
        else None;
      match FirstFrom(e, Min(e + 50, |s|), afterDue)
      case Some((_, span)) => Some(span)
      case None => None
  }

  /** The date token of the leftmost match of search `k`. */
  function FindDate(text: string, k: DateSearch): (r: Option<string>)
    requires Searchable(k)
    ensures r.Some? ==> IsDateToken(r.value)
    ensures r.None? <==> forall p :: 0 <= p <= |text| ==> SearchAt(text, p, k).None?
    ensures r.Some? ==> exists p ::
              0 <= p <= |text| && SearchAt(text, p, k).Some? &&
              (forall q :: 0 <= q < p ==> SearchAt(text, q, k).None?) &&
              r.value == text[SearchAt(text, p, k).value.0..SearchAt(text, p, k).value.1]
  {
    var m := (p: nat) => SearchAt(text, p, k);
    assert forall q: nat :: m(q) == SearchAt(text, q, k);
    match FirstFrom(0, |text|, m)
    case None => None
    case Some((p, span)) =>
      DateTokenSlice(text, span.0, span.1);
      assert SearchAt(text, p, k) == Some(span) && forall q :: 0 <= q < p ==> SearchAt(text, q, k).None?;
      Some(text[span.0..span.1])
  }

  /** The date a labelled search yields: `extract_date` of its token, never None. */
  function DateFromToken(tok: Option<string>): (r: Option<string>)
    requires tok.Some? ==> IsDateToken(tok.value)
    ensures r.Some? <==> tok.Some?
    ensures r.Some? ==> IsIsoShape(r.value) || r.value == tok.value
  {
    if tok.None? then None
    else
      WordDateOfToken(tok.value);
      ExtractWordDate(tok.value)
  }

  const StatementHeading: string := "STATEMENT DATE"
  const DueDateHeading: string := "PAYMENT DUE DATE"

  lemma LabelsAreFuzzy()
    ensures FuzzyLabel.IsFuzzyLabel(StatementHeading)
    ensures FuzzyLabel.IsFuzzyLabel(DueDateHeading)
  {
    LabelsAreUpper();
    FuzzyLabel.UpperCaseLabel(StatementHeading);
    FuzzyLabel.UpperCaseLabel(DueDateHeading);
  }

  lemma LabelsAreUpper()
    ensures FuzzyLabel.UpperLabel(StatementHeading)
    ensures FuzzyLabel.UpperLabel(DueDateHeading)
  {
  }

  /** The statement date: the fuzzy label first, then "STATEMENT" within 50 characters of a date. */
  function IciciStatementDate(text: string): (r: Option<string>)
    ensures r.None? <==> FindDate(text, Fuzzy(StatementHeading)).None? && FindDate(text, StatementNear).None?
    ensures FindDate(text, Fuzzy(StatementHeading)).Some? ==>
              r == DateFromToken(FindDate(text, Fuzzy(StatementHeading)))
    ensures FindDate(text, Fuzzy(StatementHeading)).None? ==> r == DateFromToken(FindDate(text, StatementNear))
  {
    LabelsAreFuzzy();
    var labelled := FindDate(text, Fuzzy(StatementHeading));
    if labelled.Some? then DateFromToken(labelled)
    else DateFromToken(FindDate(text, StatementNear))
  }

  /** The due date: the fuzzy label first, then "PAYMENT" ... "DUE" ... a date within 50 and 20 characters. */
  function IciciPaymentDueDate(text: string): (r: Option<string>)
    ensures r.None? <==> FindDate(text, Fuzzy(DueDateHeading)).None? && FindDate(text, PaymentDueNear).None?
    ensures FindDate(text, Fuzzy(DueDateHeading)).Some? ==>
              r == DateFromToken(FindDate(text, Fuzzy(DueDateHeading)))
    ensures FindDate(text, Fuzzy(DueDateHeading)).None? ==> r == DateFromToken(FindDate(text, PaymentDueNear))
  {
    LabelsAreFuzzy();
    var labelled := FindDate(text, Fuzzy(DueDateHeading));
    if labelled.Some? then DateFromToken(labelled)
    else DateFromToken(FindDate(text, PaymentDueNear))
  }

  /**
   * `(total\s*amount\s*due)[^\d]*[`\u00e2\u201a\u00b9]?\s?([\d,]+\.\d{2})` at `p`, case
   * ignored: the amount's bounds.
   */
  function LabelledTotalAt(s: string, p: nat): (r: Option<(nat, nat)>)
    ensures r.Some? ==> r.value.0 + 4 <= r.value.1 && IsAmountSpan(s, r.value.0, r.value.1)
  {
    match TotalLabelAt(s, p)
    case None => None
    case Some(e) => AmountAfterLabel(s, e)
  }

  /** `[`\u00e2\u201a\u00b9]`: a backquote or a character of the rupee sign decoded as Latin-1. */
  predicate IsTotalMark(c: char) { c == '`' || c == '\U{e2}' || c == '\U{201a}' || c == '\U{b9}' }

  /** `[`\u00e2\u201a\u00b9]?\s?([\d,]+\.\d{2})` from `k`: the amount's bounds. */
  function MarkedAmountFrom(s: string, k: nat): (r: Option<(nat, nat)>)
    requires k <= |s|
    ensures r.Some? ==> k <= r.value.0 && r.value.0 + 4 <= r.value.1 <= |s| && IsAmountSpan(s, r.value.0, r.value.1)
  {
    var m := if k < |s| && IsTotalMark(s[k]) then k + 1 else k;
    var j := if m < |s| && IsSpace(s[m]) then m + 1 else m;
    match DecimalAt(s, j)
    case Some(f) => Some((j, f))
    case None => None
  }

  /** Where `[^\d]*` after `e` stops when the amount matches: the longest stop that lets it. */
  predicate LongestTotalGap(s: string, e: nat, k: nat) {
    && e <= |s|
    && e <= k <= e + Run(s, e, IsNonDigit) <= |s|
    && MarkedAmountFrom(s, k).Some?
    && forall k' :: k < k' <= e + Run(s, e, IsNonDigit) ==> MarkedAmountFrom(s, k').None?
  }

  /**
   * `[^\d]*` from `e`, then the amount: its bounds. The run first extends to the
   * next digit and then gives characters back one at a time, so an amount that
   * opens with a comma inside the run is found too.
   */
  function AmountAfterLabel(s: string, e: nat): (r: Option<(nat, nat)>)
    requires e <= |s|
    ensures r.Some? ==> e <= r.value.0 && r.value.0 + 4 <= r.value.1 <= |s|
    ensures r.Some? ==> IsAmountSpan(s, r.value.0, r.value.1)
  {
    var found := FirstDown(e + Run(s, e, IsNonDigit), e, AmountStops(s));
    if found.Some? then Some(found.value.1) else None
  }

  /** `MarkedAmountFrom` at each stop inside the text, None past its end. */
  function AmountStops(s: string): nat -> Option<(nat, nat)> {
    (k: nat) => if k <= |s| then MarkedAmountFrom(s, k) else None
  }

  /** The amount after the label is the one read from the longest stop of `[^\d]*` that yields one. */
  lemma AmountAfterLabelIsLongest(s: string, e: nat)
    requires e <= |s|
    ensures forall k: nat :: LongestTotalGap(s, e, k) ==> AmountAfterLabel(s, e) == MarkedAmountFrom(s, k)
    ensures AmountAfterLabel(s, e).None? <==>
              forall k :: e <= k <= e + Run(s, e, IsNonDigit) ==> MarkedAmountFrom(s, k).None?
  {
    var q := e + Run(s, e, IsNonDigit);
    var found := FirstDown(q, e, AmountStops(s));
    assert AmountAfterLabel(s, e) == if found.Some? then Some(found.value.1) else None;
    if found.Some? {
      var k0 := found.value.0;
      assert AmountStops(s)(k0) == MarkedAmountFrom(s, k0);
      forall k: nat | LongestTotalGap(s, e, k)
        ensures AmountAfterLabel(s, e) == MarkedAmountFrom(s, k)
      {
        assert AmountStops(s)(k) == MarkedAmountFrom(s, k);
        assert k0 == k;
      }
    } else {
      forall k | e <= k <= q
        ensures MarkedAmountFrom(s, k).None?
      {
        assert AmountStops(s)(k) == MarkedAmountFrom(s, k);
      }
    }
  }

  /** `total\s*amount\s*due`, case ignored: where the label ends. */
  function TotalLabelAt(s: string, p: nat): (e: Option<nat>)
    ensures e.Some? ==> p <= e.value <= |s|
  {
    LabelAt(s, p, ["total", "amount", "due"], false)
  }

  /** The total amount due: the leftmost labelled amount with its commas removed. */
  function IciciTotalAmountDue(text: string): (r: Option<string>)
    ensures r.Some? ==> IsDecimal2(r.value)
    ensures r.None? <==> forall p :: 0 <= p <= |text| ==> LabelledTotalAt(text, p).None?
    ensures r.Some? ==> exists p ::
              0 <= p <= |text| && LabelledTotalAt(text, p).Some? &&
              (forall q :: 0 <= q < p ==> LabelledTotalAt(text, q).None?) &&
              r.value == AmountText(text, LabelledTotalAt(text, p).value.0, LabelledTotalAt(text, p).value.1)
  {
    var m := (p: nat) => LabelledTotalAt(text, p);
    assert forall q: nat :: m(q) == LabelledTotalAt(text, q);
    var found := FirstFrom(0, |text|, m);
    if found.None? then None
    else
      var (p, (q, f)) := found.value;
      assert LabelledTotalAt(text, p) == Some((q, f)) && forall k :: 0 <= k < p ==> LabelledTotalAt(text, k).None?;
      Some(AmountText(text, q, f))
  }

  /** The label at the start of a text ends at 16. */
  lemma TotalLabelRead(s: string)
    requires LiteralAt(s, 0, "total amount due")
    ensures TotalLabelAt(s, 0) == Some(16)
  {
    var w := "total amount due";
    LiteralPart(s, 0, w, 0, 5);
    LiteralPart(s, 0, w, 6, 6);
    LiteralPart(s, 0, w, 13, 3);
    assert w[0..5] == "total" && w[6..12] == "amount" && w[13..16] == "due";
    assert s[5] == w[5] == ' ' && s[12] == w[12] == ' ' by {
      assert s[0..16][5] == s[5] && s[0..16][12] == s[12];
    }
    LiteralIgnoringCase(s, 0, "total");
    RunIs(s, 5, IsSpace, 1);
    LiteralIgnoringCase(s, 6, "amount");
    RunIs(s, 12, IsSpace, 1);
    LiteralIgnoringCase(s, 13, "due");
    assert LabelAt(s, 13, ["due"], false) == Some(16);
    assert ["amount", "due"][1..] == ["due"];
    assert LabelAt(s, 6, ["amount", "due"], false) == Some(16);
    assert ["total", "amount", "due"][1..] == ["amount", "due"];
  }

  /** A text that opens with the label, a colon, a blank and an amount has that amount, commas removed, as its total. */
  lemma LabelledTotalRead(s: string, a: string)
    requires LiteralAt(s, 0, "total amount due: ") && LiteralAt(s, 18, a)
    requires IsCommaDecimal(a) && IsDigit(a[0])
    ensures IciciTotalAmountDue(s) == Some(Remove(a, ','))
  {
    TotalAtStart(s, a);
    TotalAtStartIsTotal(s, a);
  }

  /** The labelled search matches at the start of such a text, on the whole amount. */
  lemma TotalAtStart(s: string, a: string)
    requires LiteralAt(s, 0, "total amount due: ") && LiteralAt(s, 18, a)
    requires IsCommaDecimal(a) && IsDigit(a[0])
    ensures LabelledTotalAt(s, 0) == Some((18, 18 + |a|))
  {
    TotalPiecesAtStart(s, a);
  }

  /** The label and the amount of such a text, read separately. */
  lemma TotalPiecesAtStart(s: string, a: string)
    requires LiteralAt(s, 0, "total amount due: ") && LiteralAt(s, 18, a)
    requires IsCommaDecimal(a) && IsDigit(a[0])
    ensures TotalLabelAt(s, 0) == Some(16) && AmountAfterLabel(s, 16) == Some((18, 18 + |a|))
  {
    LabelThenColon(s);
    TotalLabelRead(s);
    AmountAfterColon(s, a);
  }

  /** "total amount due: " is the label, then a colon and a blank. */
  lemma LabelThenColon(s: string)
    requires LiteralAt(s, 0, "total amount due: ")
    ensures LiteralAt(s, 0, "total amount due") && LiteralAt(s, 16, ": ")
  {
    var w := "total amount due: ";
    LiteralPart(s, 0, w, 0, 16);
    assert w[0..16] == "total amount due";
    LiteralPart(s, 0, w, 16, 2);
    assert w[16..18] == ": ";
  }

  /** After the label, a colon, a blank and an amount: the amount is what is read. */
  lemma AmountAfterColon(s: string, a: string)
    requires LiteralAt(s, 16, ": ") && LiteralAt(s, 18, a)
    requires IsCommaDecimal(a) && IsDigit(a[0])
    ensures AmountAfterLabel(s, 16) == Some((18, 18 + |a|))
  {
    ColonGap(s, 16, a);
    DecimalAtToken(s, 18, a);
    AmountAfterGap(s, 16, 2, 18 + |a|);
  }

  /** A match of the labelled search at the very start gives the total. */
  lemma TotalAtStartIsTotal(s: string, a: string)
    requires LabelledTotalAt(s, 0) == Some((18, 18 + |a|)) && LiteralAt(s, 18, a)
    ensures IciciTotalAmountDue(s) == Some(Remove(a, ','))
  {
  }

  /** A colon and a blank before a digit make a non-digit run of two. */
  lemma ColonGap(s: string, i: nat, a: string)
    requires LiteralAt(s, i, ": ") && LiteralAt(s, i + 2, a) && |a| > 0 && IsDigit(a[0])
    ensures Run(s, i, IsNonDigit) == 2
  {
    assert s[i] == s[i..i + 2][0] && s[i + 1] == s[i..i + 2][1] && s[i + 2] == s[i + 2..i + 2 + |a|][0];
    assert Run(s, i + 2, IsNonDigit) == 0;
    assert Run(s, i + 1, IsNonDigit) == 1;
  }

  /** After a non-digit gap of `g` characters, the amount is read where the gap ends. */
  lemma AmountAfterGap(s: string, e: nat, g: nat, f: nat)
    requires e <= |s| && Run(s, e, IsNonDigit) == g && DecimalAt(s, e + g) == Some(f)
    ensures AmountAfterLabel(s, e) == Some((e + g, f))
  {
    RunIs(s, e + g, IsSpace, 0);
    assert MarkedAmountFrom(s, e + g) == Some((e + g, f));
    assert LongestTotalGap(s, e, e + g);
    AmountAfterLabelIsLongest(s, e);
  }

  /** A blank, a comma and a point before two final digits: `[^\d]*` gives the comma back to the amount. */
  lemma CommaLedTotal(s: string, e: nat)
    requires e + 5 == |s|
    requires s[e] == ' ' && s[e + 1] == ',' && s[e + 2] == '.' && IsDigit(s[e + 3]) && IsDigit(s[e + 4])
    ensures AmountAfterLabel(s, e) == Some((e + 1, e + 5))
  {
    RunIs(s, e, IsNonDigit, 3);
    CommaLedTotalCandidates(s, e);
    assert LongestTotalGap(s, e, e + 1);
    AmountAfterLabelIsLongest(s, e);
  }

  /** The places `[^\d]*` may stop in the text above, latest first: only the comma starts an amount. */
  lemma CommaLedTotalCandidates(s: string, e: nat)
    requires e + 5 == |s|
    requires s[e] == ' ' && s[e + 1] == ',' && s[e + 2] == '.' && IsDigit(s[e + 3]) && IsDigit(s[e + 4])
    ensures MarkedAmountFrom(s, e + 3).None? && MarkedAmountFrom(s, e + 2).None?
    ensures MarkedAmountFrom(s, e + 1) == Some((e + 1, e + 5))
  {
    NoAmountAtDigits(s, e + 3);
    NoAmountAtPoint(s, e + 2);
    AmountAtComma(s, e + 1);
  }

  /** Two final digits hold no `[\d,]+\.\d{2}`. */
  lemma NoAmountAtDigits(s: string, k: nat)
    requires k + 2 == |s| && IsDigit(s[k]) && IsDigit(s[k + 1])
    ensures MarkedAmountFrom(s, k).None?
  {
    RunIs(s, k, IsDigitOrComma, 2);
  }

  /** A point opens no `[\d,]+\.\d{2}`. */
  lemma NoAmountAtPoint(s: string, k: nat)
    requires k < |s| && s[k] == '.'
    ensures MarkedAmountFrom(s, k).None?
  {
    RunIs(s, k, IsDigitOrComma, 0);
  }

  /** A comma, a point and two final digits are a `[\d,]+\.\d{2}` match. */
  lemma AmountAtComma(s: string, k: nat)
    requires k + 4 == |s| && s[k] == ',' && s[k + 1] == '.' && IsDigit(s[k + 2]) && IsDigit(s[k + 3])
    ensures MarkedAmountFrom(s, k) == Some((k, k + 4))
  {
    RunIs(s, k, IsDigitOrComma, 1);
  }

  /** "total amount due ,.50": the total is ".50", not a digit-led amount. */
  lemma CommaLedTotalExample(t: string)
    requires t == "total amount due ,.50"
    ensures IciciTotalAmountDue(t) == Some(".50")
  {
    CommaLedTotalText(t);
    TotalLabelRead(t);
    CommaLedTotal(t, 16);
    assert LabelledTotalAt(t, 0) == Some((17, 21));
    TotalAtStartGives(t, 17, 21);
    CommaLedTotalValue(t);
  }

  lemma CommaLedTotalText(t: string)
    requires t == "total amount due ,.50"
    ensures LiteralAt(t, 0, "total amount due") && |t| == 21
    ensures t[16] == ' ' && t[17] == ',' && t[18] == '.' && IsDigit(t[19]) && IsDigit(t[20])
  {
    assert t[0..16] == "total amount due";
  }

  /** A labelled match at the very start of the text gives the total. */
  lemma TotalAtStartGives(s: string, q: nat, f: nat)
    requires LabelledTotalAt(s, 0) == Some((q, f))
    ensures IciciTotalAmountDue(s) == Some(AmountText(s, q, f))
  {
  }

  lemma CommaLedTotalValue(t: string)
    requires t == "total amount due ,.50"
    ensures IsAmountSpan(t, 17, 21) && AmountText(t, 17, 21) == ".50"
  {
    var a := t[17..21];
    assert |a| == 4 && a[0] == ',' && a[1] == '.' && a[2] == '5' && a[3] == '0';
    assert a == ",.50";
    assert Remove(",.50", ',') == ".50";
  }

  /** `parse_icici`. */
  function ParseIcici(text: string): (r: Fields)
    ensures r.bank == "ICICI" && r.currencySymbol.None?
    ensures r.cardLast4 == MaskedCardLast4(text)
    ensures r.statementDate == IciciStatementDate(text) && r.paymentDueDate == IciciPaymentDueDate(text)
    ensures r.totalAmountDue == IciciTotalAmountDue(text)
    ensures r.cardLast4.Some? ==> IsLast4(r.cardLast4.value)
    ensures r.totalAmountDue.Some? ==> IsDecimal2(r.totalAmountDue.value)
  {
    Fields("ICICI", MaskedCardLast4(text), IciciStatementDate(text), IciciPaymentDueDate(text), IciciTotalAmountDue(text), None)
  }
}
