/**
 * The generic extractor (parsers/generic_parser.py), used for unrecognised
 * issuers and for HDFC: label-window date and amount searches, masked-card
 * search and the "No payment required" sentinel, all over normalised text.
 */
module GenericParser {
  import opened Wrappers
  import opened Chars
  import opened Search
  import opened TextUtils
  import opened Calendar
  import opened Tokens
  import opened Statement
  import CalendarFacts

  /** A label pattern `w1\s*w2\s*...`, matched without regard to case. */
  type Label = seq<string>

  const StatementLabels: seq<Label> :=
    [["statement", "date"], ["statement", "generated", "on"], ["billing", "date"]]
  const DueLabels: seq<Label> :=
    [["payment", "due", "date"], ["due", "date"], ["payment", "by"]]
  const TotalLabels: seq<Label> :=
    [["total", "dues"], ["total", "amount", "due"], ["total", "amount", "payable"],
     ["amount", "due"], ["total", "due"]]
  const NoPaymentLabel: Label := ["no", "payment", "required"]
  const RowLabel: Label := ["payment", "due", "date"]

  /** The formats `_try_parse_date` tries, in order. */
  const DateFormats: seq<Format> :=
    [DayMonYear, DashedDayMonthYear, SlashedDayMonthYear, IsoYearMonthDay,
     MonthNameDayYear, DayMonthNameYear, DottedDayMonthYear]

  predicate ParsesUnderSome(t: string, fmts: seq<Format>) {
    exists k :: 0 <= k < |fmts| && Strptime(t, fmts[k]).Some?
  }

  /** Every format here needs at least one character. */
  lemma NothingParsesEmpty()
    ensures !ParsesUnderSome("", DateFormats)
  {
  }

  /**
   * `_try_parse_date`: the stripped snippet as ISO `YYYY-MM-DD` under the
   * first format that parses it, else the stripped snippet itself, and None
   * only when nothing is left after stripping.
   */
  function TryParseDate(raw: string): (r: Option<string>)
    ensures r.None? <==> AllSpace(raw)
    ensures ParsesUnderSome(Strip(raw), DateFormats) ==> r.Some? && IsIsoShape(r.value)
    ensures !ParsesUnderSome(Strip(raw), DateFormats) && r.Some? ==> r.value == Strip(raw)
    ensures FirstParse(Strip(raw), DateFormats).Some? ==> r == Some(Iso(FirstParse(Strip(raw), DateFormats).value))
  {
    var t := Strip(raw);
    NothingParsesEmpty();
    match FirstParse(t, DateFormats)
    case Some(d) => Some(Iso(d))
    case None => if t == "" then None else Some(t)
  }

  /** `_try_parse_date` gives an ISO date back unchanged. */
  lemma IsoIsFixed(d: Date)
    requires ValidDate(d)
    ensures TryParseDate(Iso(d)) == Some(Iso(d))
  {
    var s := Iso(d);
    StripUnchanged(s);
    CalendarFacts.DayFirstRejectsIso(d, DateFormats[0]);
    CalendarFacts.DayFirstRejectsIso(d, DateFormats[1]);
    CalendarFacts.DayFirstRejectsIso(d, DateFormats[2]);
    CalendarFacts.IsoRoundTrip(d);
    assert Strptime(s, DateFormats[3]) == Some(d);
    assert FirstParse(s, DateFormats) == Some(d);
  }

  /** Feeding `_try_parse_date` its own answer changes nothing. */
  lemma TryParseDateIdempotent(raw: string)
    requires TryParseDate(raw).Some?
    ensures TryParseDate(TryParseDate(raw).value) == TryParseDate(raw)
  {
    var t := Strip(raw);
    match FirstParse(t, DateFormats)
    case Some(d) => IsoIsFixed(d);
    case None => StripIdempotent(raw);
  }

  /** A label, then a date token starting within the next `reach` characters (`label.{0,n}?(DATE)`). */
  function LabelThenDate(s: string, p: nat, lab: Label, reach: nat): (r: Option<(nat, nat)>)
    ensures r.Some? ==> p <= r.value.0 < r.value.1 <= |s|
    ensures r.Some? ==> DateTokenAt(s, r.value.0) == Some(r.value.1)
  {
    match LabelAt(s, p, lab, false)
    case None => None
    case Some(e) =>
      match FirstFrom(e, Min(e + reach, |s|), (q: nat) => DateTokenAt(s, q))
      case Some((q, end)) => Some((q, end))
      case None => None
  }

  /** A date token is never blank at either end and ends in a digit. */
  predicate IsTokenText(t: string) {
    |t| > 0 && !IsSpace(t[0]) && IsDigit(t[|t| - 1])
  }

  /** A date token cut out of the text is never blank at either end and ends in a digit. */
  lemma TokenSlice(s: string, q: nat, e: nat)
    requires DateTokenAt(s, q) == Some(e)
    ensures q < e <= |s| && IsTokenText(s[q..e])
  {
    assert s[q..e][0] == s[q];
    assert s[q..e][e - q - 1] == s[e - 1];
  }

  /** `text[e : e + n]`: the window of at most `n` characters after `e`. */
  function Window(text: string, e: nat, n: nat): (w: string)
    requires e <= |text|
    ensures |w| <= n
  {
    text[e..Min(e + n, |text|)]
  }

  /** `re.search(DATE_TOKEN, w)`: the leftmost date token of `w`. */
  function FirstDateToken(w: string): (r: Option<string>)
    ensures r.Some? ==> IsTokenText(r.value)
    ensures r.None? <==> forall q :: 0 <= q <= |w| ==> DateTokenAt(w, q).None?
    ensures r.Some? ==> exists q ::
              0 <= q <= |w| && DateTokenAt(w, q).Some? &&
              (forall j :: 0 <= j < q ==> DateTokenAt(w, j).None?) &&
              r.value == w[q..DateTokenAt(w, q).value]
  {
    var m := (q: nat) => DateTokenAt(w, q);
    assert forall q: nat :: m(q) == DateTokenAt(w, q);
    match FirstFrom(0, |w|, m)
    case Some((q, f)) =>
      TokenSlice(w, q, f);
      assert DateTokenAt(w, q) == Some(f) && forall j :: 0 <= j < q ==> DateTokenAt(w, j).None?;
      Some(w[q..f])
    case None => None
  }

  /** The fallback for one label: the first date token in the 150 characters after its first occurrence. */
  function WindowDate(text: string, lab: Label): (r: Option<string>)
    ensures r.Some? ==> IsTokenText(r.value)
    ensures (forall p :: 0 <= p <= |text| ==> LabelAt(text, p, lab, false).None?) ==> r.None?
    ensures forall p :: OccurrenceFrom(text, lab, 0, p) ==>
              r == FirstDateToken(Window(text, LabelAt(text, p, lab, false).value, 150))
  {
    match NextOccurrence(text, lab, 0)
    case None => None
    case Some((p, e)) =>
      assert forall q :: OccurrenceFrom(text, lab, 0, q) ==> q == p by {
        forall q | OccurrenceFrom(text, lab, 0, q) ensures q == p {
          OccurrenceUnique(text, lab, 0, p, q);
        }
      }
      FirstDateToken(Window(text, e, 150))
  }

  /** At most one position is the first occurrence from a given start. */
  lemma OccurrenceUnique(text: string, lab: Label, from: nat, p: nat, q: nat)
    requires OccurrenceFrom(text, lab, from, p) && OccurrenceFrom(text, lab, from, q)
    ensures p == q
  {
  }

  /** `p` is where the lazy label-then-date search first matches. */
  predicate FirstLazyMatch(text: string, lab: Label, p: nat) {
    p <= |text| && LabelThenDate(text, p, lab, 120).Some? &&
    forall q :: 0 <= q < p ==> LabelThenDate(text, q, lab, 120).None?
  }

  /** At most one position is where the lazy search first matches. */
  lemma LazyMatchUnique(text: string, lab: Label, p: nat, q: nat)
    requires FirstLazyMatch(text, lab, p) && FirstLazyMatch(text, lab, q)
    ensures p == q
  {
  }

  /**
   * The date token for one label: the 120-character lazy search first, then
   * a 150-character window after the label's first occurrence.
   */
  function DateAfterLabel(text: string, lab: Label): (r: Option<string>)
    ensures r.Some? ==> IsTokenText(r.value)
    ensures (forall p :: 0 <= p <= |text| ==> LabelThenDate(text, p, lab, 120).None?) ==> r == WindowDate(text, lab)
    ensures forall p :: FirstLazyMatch(text, lab, p) ==>
              r == Some(text[LabelThenDate(text, p, lab, 120).value.0..LabelThenDate(text, p, lab, 120).value.1])
  {
    var m := (p: nat) => LabelThenDate(text, p, lab, 120);
    assert forall p: nat :: m(p) == LabelThenDate(text, p, lab, 120);
    match FirstFrom(0, |text|, m)
    case Some((p, span)) =>
      TokenSlice(text, span.0, span.1);
      assert forall q :: FirstLazyMatch(text, lab, q) ==> q == p by {
        forall q | FirstLazyMatch(text, lab, q) ensures q == p {
          LazyMatchUnique(text, lab, p, q);
        }
      }
      Some(text[span.0..span.1])
    case None => WindowDate(text, lab)
  }

  /** A found token always normalises to something holding a digit. */
  lemma TokenDateHasDigit(token: string)
    requires IsTokenText(token)
    ensures TryParseDate(token).Some? && HasDigit(TryParseDate(token).value)
  {
    StripUnchanged(token);
    var r := TryParseDate(token).value;
    if IsIsoShape(r) {
      assert IsDigit(r[0]);
    } else {
      assert IsDigit(r[|r| - 1]);
    }
  }

  /** `_find_date_near_label`: labels in order, the first one with a token decides. */
  function DateNearLabel(text: string, labels: seq<Label>): (r: Option<string>)
    ensures r.Some? ==> HasDigit(r.value)
    ensures r.None? <==> forall i :: 0 <= i < |labels| ==> DateAfterLabel(text, labels[i]).None?
    ensures r.Some? ==> exists i ::
              0 <= i < |labels| && DateAfterLabel(text, labels[i]).Some? &&
              (forall j :: 0 <= j < i ==> DateAfterLabel(text, labels[j]).None?) &&
              r == TryParseDate(DateAfterLabel(text, labels[i]).value)
  {
    if |labels| == 0 then None
    else
      match DateAfterLabel(text, labels[0])
      case Some(token) =>
        TokenDateHasDigit(token);
        TryParseDate(token)
      case None =>
        assert forall i :: 1 <= i < |labels| ==> labels[i] == labels[1..][i - 1];
        DateNearLabel(text, labels[1..])
  }

  /**
   * For one label, `re.finditer` over its occurrences from `from` on: the
   * first amount in the 200 characters after the first occurrence whose
   * window has one. Each search resumes where the previous occurrence ended.
   */
  function AmountAfterOccurrences(text: string, lab: Label, from: nat): (r: Option<string>)
    requires from <= |text|
    ensures r.Some? ==> IsPlainAmount(r.value)
    ensures r.Some? ==> exists p ::
              from <= p <= |text| && LabelAt(text, p, lab, false).Some? &&
              r == FirstListedAmount(Window(text, LabelAt(text, p, lab, false).value, 200))
    ensures (forall p :: from <= p <= |text| ==> LabelAt(text, p, lab, false).None?) ==> r.None?
    decreases |text| - from
  {
    match NextOccurrence(text, lab, from)
    case None => None
    case Some((p, e)) =>
      var found := FirstListedAmount(Window(text, e, 200));
      if found.Some? then found
      else
        var next := if e > p then e else p + 1;
        if next <= |text| then AmountAfterOccurrences(text, lab, next) else None
  }

  /** `_find_amounts_in_window(w)[0]`, if any: the first amount token of `w`, commas removed. */
  function FirstListedAmount(w: string): (r: Option<string>)
    ensures r.Some? ==> IsPlainAmount(r.value)
  {
    var amounts := FindAmounts(w, 0);
    if |amounts| > 0 then Some(amounts[0]) else None
  }

  /** The first amount `_find_amounts_in_window` lists is the one `re.search` of the token finds. */
  lemma ListedIsFirst(w: string)
    ensures FirstListedAmount(w) == FirstAmount(w, 0)
  {
    FindAmountsFirst(w, 0);
  }

  /** The next occurrence of the label at or after `from`: where it starts and where it ends. */
  function NextOccurrence(text: string, lab: Label, from: nat): (r: Option<(nat, nat)>)
    requires from <= |text|
    ensures r.Some? ==> OccurrenceFrom(text, lab, from, r.value.0) &&
                        r.value.1 == LabelAt(text, r.value.0, lab, false).value
    ensures r.None? <==> forall p :: from <= p <= |text| ==> LabelAt(text, p, lab, false).None?
  {
    var m := (p: nat) => LabelAt(text, p, lab, false);
    assert forall p: nat :: m(p) == LabelAt(text, p, lab, false);
    FirstFrom(from, |text|, m)
  }

  /** When the window after the first occurrence from `from` holds an amount, that amount is the answer. */
  lemma FirstOccurrenceDecides(text: string, lab: Label, from: nat, p: nat)
    requires from <= |text| && OccurrenceFrom(text, lab, from, p)
    requires FirstListedAmount(Window(text, LabelAt(text, p, lab, false).value, 200)).Some?
    ensures AmountAfterOccurrences(text, lab, from) ==
              FirstListedAmount(Window(text, LabelAt(text, p, lab, false).value, 200))
  {
    var next := NextOccurrence(text, lab, from);
    assert next.Some?;
    assert next.value.0 <= p;
    assert next.value.0 == p;
  }

  /** `p` is where the label first occurs at or after `from`. */
  predicate OccurrenceFrom(text: string, lab: Label, from: nat, p: nat) {
    from <= p <= |text| && LabelAt(text, p, lab, false).Some? &&
    forall q :: from <= q < p ==> LabelAt(text, q, lab, false).None?
  }

  /** `_find_amount_near_label`'s first step: labels in order, each over all its occurrences. */
  function LabelledAmount(text: string, labels: seq<Label>): (r: Option<string>)
    ensures r.Some? ==> IsPlainAmount(r.value)
    ensures r.None? ==> forall i :: 0 <= i < |labels| ==> AmountAfterOccurrences(text, labels[i], 0).None?
    ensures r.Some? ==> exists i ::
              0 <= i < |labels| && r == AmountAfterOccurrences(text, labels[i], 0) &&
              forall j :: 0 <= j < i ==> AmountAfterOccurrences(text, labels[j], 0).None?
  {
    FirstSome(PerLabelAmounts(text, labels))
  }

  /** What each label's occurrences yield, label by label. */
  function PerLabelAmounts(text: string, labels: seq<Label>): (r: seq<Option<string>>)
    ensures |r| == |labels|
    ensures forall i :: 0 <= i < |labels| ==> r[i] == AmountAfterOccurrences(text, labels[i], 0)
  {
    seq(|labels|, i requires 0 <= i < |labels| => AmountAfterOccurrences(text, labels[i], 0))
  }

  /** `Payment\s*Due\s*Date[^\n]*\n([^\n]+)`: the non-empty line after the label's line. */
  function RowAfterDueLabel(s: string, p: nat): (r: Option<(nat, nat)>)
    ensures r.Some? ==> p < r.value.0 < r.value.1 <= |s|
  {
    match LabelAt(s, p, RowLabel, false)
    case None => None
    case Some(e) =>
      var nl := e + Run(s, e, NotNewline);
      if nl < |s| then
        var rowEnd := nl + 1 + Run(s, nl + 1, NotNewline);
        if rowEnd > nl + 1 then Some((nl + 1, rowEnd)) else None
      else None
  }

  /** The first amount on the row under the first "Payment Due Date" line. */
  function RowAmount(text: string): (r: Option<string>)
    ensures r.Some? ==> IsPlainAmount(r.value)
    ensures (forall p :: 0 <= p <= |text| ==> RowAfterDueLabel(text, p).None?) ==> r.None?
  {
    var m := (p: nat) => RowAfterDueLabel(text, p);
    assert forall p: nat :: m(p) == RowAfterDueLabel(text, p);
    match FirstFrom(0, |text|, m)
    case None => None
    case Some((p, (a, b))) =>
      FirstListedAmount(text[a..b])
  }

  /** The answer is the first amount on the row the leftmost search finds. */
  lemma FirstRowDecides(text: string, p: nat)
    requires FirstRow(text, p)
    ensures RowAmount(text) ==
              FirstListedAmount(text[RowAfterDueLabel(text, p).value.0..RowAfterDueLabel(text, p).value.1])
  {
    var m := (q: nat) => RowAfterDueLabel(text, q);
    assert forall q: nat :: m(q) == RowAfterDueLabel(text, q);
    var found := FirstFrom(0, |text|, m);
    assert found.Some? && found.value.0 == p;
  }

  /** `p` is where the "Payment Due Date" row search first matches. */
  predicate FirstRow(text: string, p: nat) {
    p <= |text| && RowAfterDueLabel(text, p).Some? &&
    forall q :: 0 <= q < p ==> RowAfterDueLabel(text, q).None?
  }

  /**
   * `_find_amount_near_label`: a labelled window, then the row after
   * "Payment Due Date", then the first amount anywhere in the document.
   */
  function AmountNearLabel(text: string, labels: seq<Label>): (r: Option<string>)
    ensures r.Some? ==> IsPlainAmount(r.value)
    ensures LabelledAmount(text, labels).Some? ==> r == LabelledAmount(text, labels)
    ensures LabelledAmount(text, labels).None? && RowAmount(text).Some? ==> r == RowAmount(text)
    ensures LabelledAmount(text, labels).None? && RowAmount(text).None? ==> r == FirstAmount(text, 0)
    ensures r.None? <==> LabelledAmount(text, labels).None? && RowAmount(text).None? && FirstAmount(text, 0).None?
  {
    match LabelledAmount(text, labels)
    case Some(a) => Some(a)
    case None =>
      match RowAmount(text)
      case Some(a) => Some(a)
      case None => FirstAmount(text, 0)
  }

  predicate IsMaskX(c: char) { c == 'X' || c == 'x' }

  predicate IsMaskStar(c: char) { c == '*' }

  /** Four digits at `q`. */
  function FourDigits(s: string, q: nat): (r: Option<nat>)
    ensures r.Some? ==> r.value == q && q + 4 <= |s| && DigitsFrom(s, q, q + 4)
  {
    if q + 4 <= |s| && DigitsFrom(s, q, q + 4) then Some(q) else None
  }

  /** `mask{4,}\s*(\d{4})`: where the four digits start. */
  function MaskThenDigits(s: string, p: nat, isMask: char -> bool): (r: Option<nat>)
    ensures r.Some? ==> r.value + 4 <= |s| && DigitsFrom(s, r.value, r.value + 4)
  {
    if p > |s| then None
    else
      var n := Run(s, p, isMask);
      if n < 4 then None else FourDigits(s, SkipSpace(s, p + n))
  }

  /**
   * The card patterns of `_find_card_last4`, all searched ignoring case:
   * `X{4,}\s*(\d{4})`, `\*{4,}\s*(\d{4})`, `x{4,}\s*(\d{4})`,
   * `ending\s*(\d{4})`, `last\s*4\s*digits\s*[:\-]?\s*(\d{4})`.
   */
  function CardPatternAt(s: string, p: nat, k: nat): (r: Option<nat>)
    ensures r.Some? ==> r.value + 4 <= |s| && DigitsFrom(s, r.value, r.value + 4)
  {
    if k == 0 || k == 2 then MaskThenDigits(s, p, IsMaskX)
    else if k == 1 then MaskThenDigits(s, p, IsMaskStar)
    else if k == 3 then EndingDigitsAt(s, p)
    else if k == 4 then LastDigitsAt(s, p)
    else None
  }

  /** `ending\s*(\d{4})` at `p`: where the digits begin. */
  function EndingDigitsAt(s: string, p: nat): (r: Option<nat>)
    ensures r.Some? ==> r.value + 4 <= |s| && DigitsFrom(s, r.value, r.value + 4)
  {
    match LabelAt(s, p, ["ending"], false)
    case Some(e) => FourDigits(s, SkipSpace(s, e))
    case None => None
  }

  /** `last\s*4\s*digits\s*[:\-]?\s*(\d{4})` at `p`: where the digits begin. */
  function LastDigitsAt(s: string, p: nat): (r: Option<nat>)
    ensures r.Some? ==> r.value + 4 <= |s| && DigitsFrom(s, r.value, r.value + 4)
  {
    match LabelAt(s, p, ["last", "4", "digits"], false)
    case Some(e) =>
      var q := SkipSpace(s, e);
      var q' := if q < |s| && (s[q] == ':' || s[q] == '-') then q + 1 else q;
      FourDigits(s, SkipSpace(s, q'))
    case None => None
  }

  /** The digits the `k`-th card pattern captures at its leftmost match. */
  function CardByPattern(text: string, k: nat): (r: Option<string>)
    ensures r.Some? ==> IsLast4(r.value)
  {
    match FirstFrom(0, |text|, (p: nat) => CardPatternAt(text, p, k))
    case Some((_, q)) => Some(text[q..q + 4])
    case None => None
  }

  /** The card patterns from the `k`-th on, in list order; the first that matches anywhere wins. */
  function CardFrom(text: string, k: nat): (r: Option<string>)
    requires k <= 5
    ensures r.Some? ==> IsLast4(r.value)
    ensures r.None? <==> forall j :: k <= j < 5 ==> CardByPattern(text, j).None?
    ensures r.Some? ==> exists j :: k <= j < 5 && r == CardByPattern(text, j)
                                   && forall i :: k <= i < j ==> CardByPattern(text, i).None?
    decreases 5 - k
  {
    if k == 5 then None
    else
      match CardByPattern(text, k)
      case Some(d) => Some(d)
      case None => CardFrom(text, k + 1)
  }

  /** `_find_card_last4`. */
  function FindCardLast4(text: string): (r: Option<string>)
    ensures r.Some? ==> IsLast4(r.value)
    ensures r.None? <==> forall k :: 0 <= k < 5 ==> CardByPattern(text, k).None?
    ensures r.Some? ==> exists k :: 0 <= k < 5 && r == CardByPattern(text, k)
                                   && forall j :: 0 <= j < k ==> CardByPattern(text, j).None?
  {
    CardFrom(text, 0)
  }

  /** The text contains `no\s*payment\s*required`, case ignored. */
  predicate MentionsNoPayment(s: string) {
    FirstFrom(0, |s|, (p: nat) => LabelAt(s, p, NoPaymentLabel, false)).Some?
  }

  /** `parse_generic`. */
  function ParseGeneric(text: string, bank: string, detect: string -> string): (r: Fields)
    ensures r.bank == bank
    ensures r.currencySymbol == Some(detect(NormalizeText(text)))
    ensures r.cardLast4.Some? ==> IsLast4(r.cardLast4.value)
    ensures r.statementDate.Some? ==> HasDigit(r.statementDate.value)
    ensures r.totalAmountDue.Some? ==> IsPlainAmount(r.totalAmountDue.value)
    ensures r.cardLast4 == FindCardLast4(NormalizeText(text))
    ensures r.statementDate == DateNearLabel(NormalizeText(text), StatementLabels)
    ensures r.totalAmountDue == AmountNearLabel(NormalizeText(text), TotalLabels)
    ensures r.paymentDueDate == Some(NoPaymentRequired) <==>
              DateNearLabel(NormalizeText(text), DueLabels).None? && MentionsNoPayment(NormalizeText(text))
    ensures r.paymentDueDate != Some(NoPaymentRequired) ==>
              r.paymentDueDate == DateNearLabel(NormalizeText(text), DueLabels)
  {
    var ntext := NormalizeText(text);
    var due := DateNearLabel(ntext, DueLabels);
    SentinelHasNoDigit();
    var due' := if !Truthy(due) && MentionsNoPayment(ntext) then Some(NoPaymentRequired) else due;
    Fields(
      bank,
      FindCardLast4(ntext),
      DateNearLabel(ntext, StatementLabels),
      due',
      AmountNearLabel(ntext, TotalLabels),
      Some(detect(ntext)))
  }
}
