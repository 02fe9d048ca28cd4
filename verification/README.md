# Credit-card statement field extraction, modelled in Dafny

The system reads a credit-card statement and reports five fields:
- the last four digits of the card;
- the statement date;
- the payment due date, possibly the sentinel "No payment required";
- the total amount due;
- a currency symbol.

It has two layers. The text-acquisition layer (`utils/pdf_utils.py`) picks a text engine:
- pdfplumber, then PyMuPDF;
- OCR when both give blank text and OCR is forced or allowed;
- OCR reads a capped number of pages.

The extraction layer (`parsers/`) works on plain text:
- a case-insensitive bank classifier;
- a dispatcher that guarantees a currency symbol;
- one extractor per issuer: ICICI, Kotak, HDFC, and a generic one.

The extractors are cascades of fixed regular expressions. They include:
- label-window searches;
- OCR-tolerant "fuzzy" labels, where each letter may repeat and be followed by whitespace;
- table-row fallbacks;
- a "No payment required" sentinel.

Each regular expression is hand-coded as a deterministic "match at position p" function over `seq<char>`. `Search.FirstFrom` gives `re.search`'s leftmost-match rule. Where backtracking matters, the model tries the candidates in the order the regex engine would. This covers:
- the fuzzy label's last letter run;
- the lazy `.{0,50}?` gaps;
- whitespace that two adjacent character classes share;
- a comma shared by a non-digit run (`\D+`, `[^\d]*`) and the amount's `[\d,]` class. The run first extends to the next digit, then gives characters back one at a time. So the stops are tried longest first, and an amount such as ",.50" that opens with a comma inside the run is found (`Search.FirstDown`).

`datetime.strptime` is modelled by the `Calendar` module. It covers the directive lists the source uses, calendar validity, and full consumption of the input.

Modules, one per file:
- Foundations: `Wrappers`, `Chars`, `Search`, `Calendar`/`CalendarFacts`, `Tokens`.
- The `Statement` record.
- `TextUtils` (`normalize_text`).
- `FuzzyLabel` (the pattern text and the matching it performs).
- The parsers: `GenericParser`, `HdfcParser`, `IciciParser`, `KotakParser`.
- `Router`.
- `PdfUtils`.

## Model

All paths are under `credit-card-statement-parser-backend/`.

| member | source | states |
|---|---|---|
| Router.DetectBank | credit-card-statement-parser-backend/parsers/router.py:7-16 | Four if-and-only-if clauses fix the priority. ICICI exactly when the lower-cased text contains "icici bank". Otherwise KOTAK exactly when it contains "kotak". Otherwise HDFC exactly when it contains "hdfc". UNKNOWN when none occurs. |
| Router.DetectBankIgnoresCase | credit-card-statement-parser-backend/parsers/router.py:8 | Classifying a text and classifying its lower-cased copy give the same bank. |
| Router.IciciBankWins | credit-card-statement-parser-backend/parsers/router.py:8-10 | Any text containing "ICICI Bank" is ICICI, whatever else (kotak, hdfc) it contains. |
| Router.IciciAloneFallsThrough | credit-card-statement-parser-backend/parsers/router.py:9-12 | "icici" without "bank" does not select ICICI: "icici kotak" is classified KOTAK. |
| Router.Dispatch | credit-card-statement-parser-backend/parsers/router.py:19-32 | The bank tag is the classifier's. ICICI text goes to the ICICI parser and Kotak text to the Kotak parser. HDFC and UNKNOWN both go to the generic parser with the tag as `bank`, so the HDFC parser is never reached. |
| Router.ParseStatement | credit-card-statement-parser-backend/parsers/router.py:18-35 | The bank field is `detect_bank(text)` and a currency symbol is always present. It is the extractor's own symbol when that is truthy, else the detector's value on the raw text. Every other field is the dispatched parser's. |
| TextUtils.NormalizeText | credit-card-statement-parser-backend/utils/text_utils.py:3-12 | Empty input gives "". The output has no NBSP, no carriage return, no en dash, em dash or minus sign, and no whitespace right after '₹'. It has no tab and no two consecutive spaces, and no leading or trailing whitespace. Which characters are kept is stated by `NormalTextIsKept` and `DashesBecomeHyphens`. |
| TextUtils.NormalTextIsKept | credit-card-statement-parser-backend/utils/text_utils.py:3-12 | Text that is already normal is returned unchanged. Normal means no NBSP, carriage return, dash variant, tab, double space, edge whitespace, word-initial `Rs`, or whitespace after '₹'. |
| TextUtils.DashesBecomeHyphens | credit-card-statement-parser-backend/utils/text_utils.py:8 | For text without whitespace, 'R', 'r' or '₹', the result is the text with each en dash, em dash and minus sign replaced by '-'. Every other character is kept. |
| TextUtils.CollapseBlanksFixpoint | credit-card-statement-parser-backend/utils/text_utils.py:11 | Collapsing runs of blanks leaves a text that has no tab and no double space unchanged. |
| TextUtils.JoinLineEndings | credit-card-statement-parser-backend/utils/text_utils.py:7 | No carriage return remains. Apart from line breaks, the text keeps exactly the characters it had with its carriage returns removed. How each break is rewritten is stated by `CrLfBecomesLf` and `LoneCrBecomesLf`. |
| TextUtils.CrLfBecomesLf | credit-card-statement-parser-backend/utils/text_utils.py:7 | A "\r\n" becomes exactly one "\n", and the text on either side is rewritten independently. |
| TextUtils.LoneCrBecomesLf | credit-card-statement-parser-backend/utils/text_utils.py:7 | A lone "\r" becomes exactly one "\n", and the text on either side is rewritten independently. |
| TextUtils.DropSpaceAfterRupee | credit-card-statement-parser-backend/utils/text_utils.py:10 | No whitespace follows '₹' afterwards. The first character is kept, and a text already in that form is returned unchanged. |
| Calendar.FirstParse | credit-card-statement-parser-backend/parsers/generic_parser.py:23-41 | Formats are tried in order. The result is a valid calendar date exactly when some format parses, and it is the date the first such format gives. |
| CalendarFacts.IsoRoundTrip | credit-card-statement-parser-backend/parsers/generic_parser.py:36 | Writing a valid date as `%Y-%m-%d` and parsing it back with the same format gives the date. |
| GenericParser.TryParseDate | credit-card-statement-parser-backend/parsers/generic_parser.py:23-41 | None exactly when the snippet is blank. Otherwise the stripped snippet is read with the seven formats in order: the first format that parses gives the ISO text of its date. When none parses, the stripped snippet comes back unchanged. |
| GenericParser.IsoIsFixed | credit-card-statement-parser-backend/parsers/generic_parser.py:23-41 | An ISO date is mapped to itself. |
| GenericParser.TryParseDateIdempotent | credit-card-statement-parser-backend/parsers/generic_parser.py:23-41 | Applying the date normaliser to its own output changes nothing. |
| GenericParser.DateNearLabel | credit-card-statement-parser-backend/parsers/generic_parser.py:44-63 | Labels are tried in order, and the first label after which a date token is found decides. The result is the date normaliser applied to that token. None exactly when no label yields a token. A found date contains a digit. |
| GenericParser.DateAfterLabel | credit-card-statement-parser-backend/parsers/generic_parser.py:45-62 | For one label: the leftmost label-then-date match within 120 characters gives the token. When no such match exists, the result is the first date token in the 150 characters after the label's first occurrence. |
| GenericParser.WindowDate | credit-card-statement-parser-backend/parsers/generic_parser.py:56-62 | The first date token in the 150 characters after the label's first occurrence. None when the label does not occur. |
| GenericParser.FirstDateToken | credit-card-statement-parser-backend/parsers/generic_parser.py:60-62 | None exactly when no date token occurs in the window. Otherwise the result is the leftmost token. |
| Tokens.FindAmounts | credit-card-statement-parser-backend/parsers/generic_parser.py:66-67 | Every amount found is comma-free digits, '.', then exactly two digits. The list is empty exactly when no amount token starts at or after the window's start. |
| Tokens.FindAmountsFirst | credit-card-statement-parser-backend/parsers/generic_parser.py:66-67 | The list is empty exactly when no amount token occurs. Otherwise its head is the first amount token, which `re.search` would find. |
| GenericParser.AmountNearLabel | credit-card-statement-parser-backend/parsers/generic_parser.py:70-92 | A three-step cascade. The labelled amount wins when there is one. Otherwise the first amount on the row after "Payment Due Date" is used, and otherwise the first amount token of the document. None exactly when all three fail. A result is a plain amount. |
| GenericParser.LabelledAmount | credit-card-statement-parser-backend/parsers/generic_parser.py:72-78 | Labels are tried in order, and the first label with an amount after one of its occurrences decides. None only when no label yields one. |
| GenericParser.FirstOccurrenceDecides | credit-card-statement-parser-backend/parsers/generic_parser.py:73-78 | When the next occurrence of a label has an amount within 200 characters after it, that amount is the label's result. Later occurrences are not consulted. |
| GenericParser.FirstRowDecides | credit-card-statement-parser-backend/parsers/generic_parser.py:81-86 | The row-fallback amount is the first amount on the row of the leftmost "Payment Due Date" line. |
| GenericParser.ListedIsFirst | credit-card-statement-parser-backend/parsers/generic_parser.py:76-78 | The first element of the window's amount list is the first amount token of the window. |
| GenericParser.FindCardLast4 | credit-card-statement-parser-backend/parsers/generic_parser.py:95-108 | The result is exactly four digits. It is None exactly when none of the five patterns matches, and otherwise it is the first matching pattern's digits. |
| GenericParser.ParseGeneric | credit-card-statement-parser-backend/parsers/generic_parser.py:111-163 | The bank is the argument and the currency symbol is the detector's on the normalised text. The card is four digits, the total a plain amount, and a statement date holds a digit. The sentinel appears exactly when no labelled due date was found and the phrase occurs in the text. Otherwise the due date is the labelled one. The card, statement date and total are the card finder's, the labelled date's and the labelled amount's on the normalised text. |
| HdfcParser.NormalizeAmount | credit-card-statement-parser-backend/parsers/hdfc_parser.py:4-9 | A result is digits with at most one '.' followed by one or two digits, beginning and ending with a digit. |
| HdfcParser.AmountTextIsFixed | credit-card-statement-parser-backend/parsers/hdfc_parser.py:4-9 | An amount already in that form is returned unchanged. |
| HdfcParser.NormalizeAmountIdempotent | credit-card-statement-parser-backend/parsers/hdfc_parser.py:4-9 | Normalising an amount's normalised form changes nothing. |
| HdfcParser.CommaDecimalNormalised | credit-card-statement-parser-backend/parsers/hdfc_parser.py:4-9 | A `[\d,]+\.\d{2}` amount that starts with a digit normalises to itself with its commas removed. |
| HdfcParser.NormalizeDateStr | credit-card-statement-parser-backend/parsers/hdfc_parser.py:12-37 | None exactly for empty input. Otherwise the whitespace-collapsed, stripped input is read with the seven HDFC formats in order, and the first that parses gives the ISO date. If none parses, the first embedded `d/m/y` token is read with the three numeric formats. If that also fails, the cleaned input is returned unchanged. |
| HdfcParser.ReadCleaned | credit-card-statement-parser-backend/parsers/hdfc_parser.py:22-37 | On cleaned text: the first of the seven formats that parses gives the ISO date. Otherwise the embedded token is read with the three numeric formats, and failing that the text is returned unchanged. |
| HdfcParser.FirstSlashToken | credit-card-statement-parser-backend/parsers/hdfc_parser.py:28-30 | None exactly when no `\d{1,2}[/-]\d{1,2}[/-]\d{2,4}` token occurs. Otherwise the result is the leftmost such token. |
| HdfcParser.TokenDate | credit-card-statement-parser-backend/parsers/hdfc_parser.py:28-36 | A date exactly when the leftmost embedded token parses under one of the three numeric formats. The date is the one the first such format gives. |
| HdfcParser.DayFirstExample | credit-card-statement-parser-backend/parsers/hdfc_parser.py:18-25 | "12/09/2025" is read day first and becomes "2025-09-12". |
| HdfcParser.ImpossibleDateExample | credit-card-statement-parser-backend/parsers/hdfc_parser.py:22-37 | "31/02/2025" names no calendar date, so every format fails and the text comes back unchanged. |
| HdfcParser.BlankGivesEmpty | credit-card-statement-parser-backend/parsers/hdfc_parser.py:14-37 | Non-empty all-whitespace input gives the empty string, not None. |
| HdfcParser.IsoIsKept | credit-card-statement-parser-backend/parsers/hdfc_parser.py:14-37 | An ISO date fails all day-first formats and the embedded-token search, and is returned unchanged. |
| HdfcParser.NormalizeDateStrIdempotent | credit-card-statement-parser-backend/parsers/hdfc_parser.py:12-37 | Normalising a non-empty normalised date changes nothing. |
| HdfcParser.ExtractLast4FromCardNo | credit-card-statement-parser-backend/parsers/hdfc_parser.py:40-65 | The result is None or exactly four digits. It is None exactly when the text is empty or all four patterns fail. Otherwise the first pattern that matches decides, in the order: card number, masked number, X-run, digit run. Each pattern's digits are the last four digits of its leftmost match; for the X-run they are the four digits after the mask. |
| HdfcParser.ByCardNo | credit-card-statement-parser-backend/parsers/hdfc_parser.py:44-48 | The leftmost "card no" match decides: the result is the last four digits of the group after the label, and None when that group holds fewer than four. None when "card no" matches nowhere. |
| HdfcParser.ByMaskedNumber | credit-card-statement-parser-backend/parsers/hdfc_parser.py:50-54 | The leftmost `\d{4}…\d{2}XX…\d{4}` match decides: the result is the last four digits of the matched text. None when the pattern matches nowhere. |
| HdfcParser.ByMaskRun | credit-card-statement-parser-backend/parsers/hdfc_parser.py:56-58 | The leftmost position where two or more X's are followed, after non-digits, by four digits decides: the result is those four digits. None when no position matches. |
| HdfcParser.ByDigitRun | credit-card-statement-parser-backend/parsers/hdfc_parser.py:60-64 | The leftmost word-bounded run of 12 to 19 digits, each optionally followed by a space or hyphen, decides: the result is its last four digits. None when no such run occurs. |
| HdfcParser.MaskedCardNoExample | credit-card-statement-parser-backend/parsers/hdfc_parser.py:40-48 | "Card No: XXXX XXXX XXXX 1234" yields "1234". |
| HdfcParser.FindPaymentRow | credit-card-statement-parser-backend/parsers/hdfc_parser.py:68-83 | The whitespace-separated row wins over the pipe/comma row. Each pattern takes its leftmost match. When the first fails, the result is the pipe/comma row's. None exactly when neither matches. Both amounts are `[\d,]+\.\d{2}` tokens and the date starts with a digit. In the pipe/comma row, blanks may stand on both sides of the separator and between it and the rupee sign. |
| HdfcParser.RowByPattern | credit-card-statement-parser-backend/parsers/hdfc_parser.py:73-82 | The result is the leftmost match of one row pattern. None exactly when it matches nowhere. |
| HdfcParser.PipedRowExample | credit-card-statement-parser-backend/parsers/hdfc_parser.py:74-80 | The date "15/10/2025", then twice a blank, a bar, a blank, a rupee sign and an amount ("1,234.56", then "500.00"), is read by the pipe/comma pattern as the row ("15/10/2025", "1,234.56", "500.00"). |
| FuzzyLabel.RegexTextRoundTrip | credit-card-statement-parser-backend/parsers/icici_parser.py:20-26 | The pattern text built for a phrase determines the phrase: reading it back gives the phrase. |
| FuzzyVariants.VariantMatches | credit-card-statement-parser-backend/parsers/icici_parser.py:13-26 | The fuzzy label matches every variant of a label in which each letter is repeated one or more times and followed by any run of blanks, with at least one blank where the label has a space. The match ends at the variant's end. |
| FuzzyVariants.DoubledLettersExample | credit-card-statement-parser-backend/parsers/hdfc_parser.py:88-97 | "PPAYY  BY" is matched by the fuzzy "PAY BY" label over its whole length. |
| HdfcParser.FindLabelFollowingDate | credit-card-statement-parser-backend/parsers/hdfc_parser.py:86-105 | The leftmost position where the fuzzy label is followed within 80 characters by a date decides, and the result is that date's text. None exactly when no position matches. A found date starts with a non-blank character and ends in a digit. |
| HdfcParser.FuzzyLabelDateAt | credit-card-statement-parser-backend/parsers/hdfc_parser.py:98-104 | At one position, the label must match and a date must follow within 80 characters of one of the label's possible ends. The date is the one found from the latest label end that yields a date. That is the end the regex engine reaches first when it backtracks from its greedy choice. |
| HdfcParser.GreedyEndDate | credit-card-statement-parser-backend/parsers/hdfc_parser.py:98-104 | If a date follows within 80 characters of the matcher's longest label end, that date is the result at that position. |
| HdfcParser.VariantLabelDate | credit-card-statement-parser-backend/parsers/hdfc_parser.py:86-104 | Take an OCR variant of the label, with letters repeated and spaces widened, that is followed within 80 characters by a date. At that position the result is that date. |
| HdfcParser.VariantLabelFound | credit-card-statement-parser-backend/parsers/hdfc_parser.py:86-105 | A text holding such a variant of the label, followed by a date, always yields a date. |
| HdfcParser.StatementLabelsAreFuzzy | credit-card-statement-parser-backend/parsers/hdfc_parser.py:134-137 | "Statement Date" and "Statement for HDFC Bank Credit Card" have the shape `FuzzyVariants.VariantMatches` needs, so their letter-doubled and space-widened variants match. |
| HdfcParser.DueLabelsAreFuzzy | credit-card-statement-parser-backend/parsers/hdfc_parser.py:149-153 | "Payment Due Date", "Payment Due" and "Pay By" have the shape `FuzzyVariants.VariantMatches` needs, so their letter-doubled and space-widened variants match. |
| HdfcParser.StatementLabelToken | credit-card-statement-parser-backend/parsers/hdfc_parser.py:134-137 | The fuzzy "Statement Date" label decides when it is followed by a date. Otherwise the "Statement for HDFC Bank Credit Card" label is used. |
| HdfcParser.LabelledStatementDate | credit-card-statement-parser-backend/parsers/hdfc_parser.py:133-146 | When a statement label is followed by a date, the result is that date normalised. Otherwise it is the normalised date found within 60 characters after the first "Statement" that has one. |
| HdfcParser.DueLabelToken | credit-card-statement-parser-backend/parsers/hdfc_parser.py:149-153 | The labels are tried in order "Payment Due Date", "Payment Due", "Pay By". The first one followed by a date decides. |
| HdfcParser.LabelledDueDate | credit-card-statement-parser-backend/parsers/hdfc_parser.py:148-155 | None exactly when no due label is followed by a date. Otherwise the result is the deciding label's date, normalised. |
| HdfcParser.LabelledTotal | credit-card-statement-parser-backend/parsers/hdfc_parser.py:157-169 | The first "Total Dues"/"Total Amount Due"/"Total Due" amount in the one-line text decides. Failing that, the first "Total Dues" with an amount within 60 characters does. The result is that amount normalised, and None when both fail. The one-line amount is the one read from the longest stop of `\D+` that yields one, so a comma inside the non-digit run can open it. |
| HdfcParser.AfterNonDigitsIsLongest | credit-card-statement-parser-backend/parsers/hdfc_parser.py:159-161 | The amount after a total label is the one read from the longest stop of the non-digit run that yields an amount. None exactly when no stop yields one. |
| HdfcParser.CommaLedAmount | credit-card-statement-parser-backend/parsers/hdfc_parser.py:159-161 | After a label, " ,.50" gives ",.50" as the amount: `\D+` gives the comma back. |
| HdfcParser.CommaLedDuesExample | credit-card-statement-parser-backend/parsers/hdfc_parser.py:159-162 | In "Total Due ,.50" the one-line pattern matches and its amount is ",.50". |
| HdfcParser.ParseHdfc | credit-card-statement-parser-backend/parsers/hdfc_parser.py:108-189 | Empty text gives bank "HDFC" with every field None. The card is the card-number extractor's on the one-line text. When a payment row is found, the due date and total come from it and the statement date only from the first-800-characters fallback. Without a row, the statement date is the labelled one (the labels, else a date shortly after "Statement") when non-blank, else the first-800-characters fallback. The due date is the labelled one when found, else the first date after a due phrase. The total is the labelled total. A total is a normalised amount. |
| IciciParser.ExtractWordDate | credit-card-statement-parser-backend/parsers/icici_parser.py:4-11 | None exactly when no "Word d, yyyy" token occurs. Otherwise the leftmost token is converted: its ISO date when it parses with a full month name, else the token verbatim. |
| IciciParser.WordDateReadsBack | credit-card-statement-parser-backend/parsers/icici_parser.py:8 | A token that parses under `%B %d, %Y` becomes an ISO text that parses back to the same date. |
| IciciParser.WordDateOfToken | credit-card-statement-parser-backend/parsers/icici_parser.py:4-11 | A lone token is found whole and converted. |
| IciciParser.VerbatimWordDateIsStable | credit-card-statement-parser-backend/parsers/icici_parser.py:9-10 | A token returned verbatim is returned again when fed back. |
| IciciParser.IsoHoldsNoDate | credit-card-statement-parser-backend/parsers/icici_parser.py:5 | The ISO output holds no token of the searched shape, so fed back it gives None. |
| IciciParser.MaskedCardLast4 | credit-card-statement-parser-backend/parsers/icici_parser.py:38-40 | None exactly when nowhere does a run of 4+ capital 'X' precede optional whitespace and four digits. Otherwise the result is the four digits of the leftmost such match. |
| IciciParser.NoCapitalXNoCard | credit-card-statement-parser-backend/parsers/icici_parser.py:38 | The mask is case-sensitive: text without a capital 'X' has no card. |
| IciciParser.MaskedCardRead | credit-card-statement-parser-backend/parsers/icici_parser.py:38-40 | "XXXX", any whitespace, then four digits yields those digits. |
| IciciParser.FindDate | credit-card-statement-parser-backend/parsers/icici_parser.py:43-62 | None exactly when no position matches the search. Otherwise the result is the date token of the leftmost match, in the "Word d, yyyy" shape. |
| IciciParser.IciciStatementDate | credit-card-statement-parser-backend/parsers/icici_parser.py:43-51 | The fuzzy "STATEMENT DATE" label is tried first: when it finds a token, that token's date is the result. Otherwise the result comes from the "STATEMENT … date within 50" fallback's token. None exactly when both fail. |
| IciciParser.IciciPaymentDueDate | credit-card-statement-parser-backend/parsers/icici_parser.py:54-62 | The fuzzy "PAYMENT DUE DATE" label is tried first: when it finds a token, that token's date is the result. Otherwise the result comes from the PAYMENT…DUE…date fallback (50/20 gaps). None exactly when both fail. |
| IciciParser.IciciTotalAmountDue | credit-card-statement-parser-backend/parsers/icici_parser.py:65-67 | None exactly when no labelled amount occurs. Otherwise the result is the amount of the leftmost "total amount due" match, with commas removed. The amount is the one read from the longest stop of `[^\d]*` that yields one, so it may open with a comma and then has no digit before the point. |
| IciciParser.AmountAfterLabelIsLongest | credit-card-statement-parser-backend/parsers/icici_parser.py:65 | The amount after the label is the one read from the longest stop of the non-digit run that yields one: a mark, an optional blank, then `[\d,]+\.\d{2}`. None exactly when no stop yields one. |
| IciciParser.CommaLedTotal | credit-card-statement-parser-backend/parsers/icici_parser.py:65 | After the label, " ,.50" gives ",.50" as the amount: `[^\d]*` gives the comma back. |
| IciciParser.CommaLedTotalExample | credit-card-statement-parser-backend/parsers/icici_parser.py:65-67 | "total amount due ,.50" has the total ".50". |
| IciciParser.LabelledTotalRead | credit-card-statement-parser-backend/parsers/icici_parser.py:65-67 | A text opening with "total amount due: " and a `[\d,]+\.\d{2}` amount has that amount, commas removed, as its total. |
| IciciParser.ParseIcici | credit-card-statement-parser-backend/parsers/icici_parser.py:28-69 | The bank is "ICICI", there is no currency symbol, and each field is its extractor's. A total is digits, a point and two digits, possibly with no digit before the point. |
| KotakParser.ExtractLooseDate | credit-card-statement-parser-backend/parsers/kotak_parser.py:5-14 | None exactly when no `\d{1,2}[-/]\w{3,}[-/]\d{2,4}` token occurs. Otherwise the leftmost token is converted: its ISO date when `%d-%b-%Y` reads it, else the token verbatim. |
| KotakParser.LooseDateReadsBack | credit-card-statement-parser-backend/parsers/kotak_parser.py:10 | A `%d-%b-%Y` token becomes an ISO text that parses back to the same date. |
| KotakParser.LooseDateOfToken | credit-card-statement-parser-backend/parsers/kotak_parser.py:5-14 | A lone token is found whole and converted. |
| KotakParser.VerbatimLooseDateIsStable | credit-card-statement-parser-backend/parsers/kotak_parser.py:11-13 | A token returned verbatim is returned again when fed back. |
| KotakParser.LooseDateSlice | credit-card-statement-parser-backend/parsers/kotak_parser.py:7 | A match, cut out of the text, is itself a whole token. |
| KotakParser.StrictIsLoose | credit-card-statement-parser-backend/parsers/kotak_parser.py:37-44 | Every labelled `d-Mon-yyyy` token is a token of the date extractor. |
| KotakParser.ExtractAmount | credit-card-statement-parser-backend/parsers/kotak_parser.py:16-19 | None exactly when no amount occurs. Otherwise the result is the leftmost amount, with commas removed. |
| KotakParser.BacktickAmountRead | credit-card-statement-parser-backend/parsers/kotak_parser.py:18-19 | A backtick followed by an amount yields the amount without commas. |
| KotakParser.KotakCardLast4 | credit-card-statement-parser-backend/parsers/kotak_parser.py:32-34 | None exactly when no four digits directly follow 4+ capital 'X'. Otherwise the result is the four digits of the leftmost such match. |
| KotakParser.SpacedMaskIsNoCard | credit-card-statement-parser-backend/parsers/kotak_parser.py:32 | Whitespace between the mask and the digits means no match. |
| KotakParser.KotakStatementDate | credit-card-statement-parser-backend/parsers/kotak_parser.py:37-44 | The labelled line is tried first, and when it yields a token that token's extraction is the result. Otherwise the "StatementDate" fallback's token is used. None exactly when both fail. A result is ISO or a `d-Mon-yyyy` token. |
| KotakParser.RunTogetherIsLabelled | credit-card-statement-parser-backend/parsers/kotak_parser.py:37-42 | Wherever the "StatementDate" fallback matches, the labelled pattern matches too, with the same token. |
| KotakParser.StatementFallbackIsDead | credit-card-statement-parser-backend/parsers/kotak_parser.py:37-44 | The fallback finds a token only when the labelled search also does. It therefore never decides the result. |
| KotakParser.DueValueShape | credit-card-statement-parser-backend/parsers/kotak_parser.py:47 | The due line's value is "no payment required" (case ignored) or a `d-Mon-yyyy` token. |
| KotakParser.DueLine | credit-card-statement-parser-backend/parsers/kotak_parser.py:47 | None exactly when no position starts a due line. Otherwise the label and the value are the groups of the leftmost due line. The value is "no payment required" (case ignored) or a `d-Mon-yyyy` token. |
| KotakParser.ZeroAmountIsZero | credit-card-statement-parser-backend/parsers/kotak_parser.py:56 | An amount token counts as zero (every digit '0') exactly when its value in cents is 0, which is the float comparison. |
| KotakParser.DigitsValueZero | credit-card-statement-parser-backend/parsers/kotak_parser.py:56 | A digit string has value 0 exactly when every digit is '0'. |
| KotakParser.NotSentinel | credit-card-statement-parser-backend/parsers/kotak_parser.py:52 | A due value that is a date token always yields a date, never the sentinel. |
| KotakParser.KotakPaymentDueDate | credit-card-statement-parser-backend/parsers/kotak_parser.py:47-57 | The sentinel appears exactly when the due line says "no payment required", or there is no due line and the total is zero. With a due line naming a date, the result is that date's extraction. Without a due line and with a non-zero or missing total, the result is None. |
| KotakParser.KotakTotalAmountDue | credit-card-statement-parser-backend/parsers/kotak_parser.py:60-62 | None exactly when "TotalAmountDue" (case ignored) is never followed on its line by an amount. Otherwise the result is the amount of the leftmost such line, with commas removed. |
| KotakParser.ParseKotak | credit-card-statement-parser-backend/parsers/kotak_parser.py:21-67 | The bank is "KOTAK", the currency symbol is always the detector's value, and each field is its extractor's. |
| PdfUtils.ExtractText | credit-card-statement-parser-backend/utils/pdf_utils.py:25-53 | Forced OCR consults neither text engine. PyMuPDF runs exactly when pdfplumber's text is blank. OCR runs exactly when no text engine succeeded and OCR is forced or allowed. Each strategy label is given exactly when its engine produced the non-blank text. The text is non-blank exactly when a strategy succeeded, and is always one of the three engines' texts. Forced OCR returns the OCR text. |
| PdfUtils.FirstNonBlankWins | credit-card-statement-parser-backend/utils/pdf_utils.py:34-46 | Without forced OCR, the first non-blank engine result in preference order is the text. |
| PdfUtils.ForcedOcrIgnoresTextEngines | credit-card-statement-parser-backend/utils/pdf_utils.py:34-44 | With OCR forced, the result does not depend on the text engines. |
| PdfUtils.PagesRead | credit-card-statement-parser-backend/utils/pdf_utils.py:100-102 | OCR reads no more than the document's pages or `max_pages`. It reads none when `max_pages` is not positive, and otherwise stops short of the last page only at `max_pages`. |
| PdfUtils.ExtractViaOcr | credit-card-statement-parser-backend/utils/pdf_utils.py:85-108 | Missing libraries or a rendering failure give "". Otherwise one part per page up to the cap, each the page's text or "" where recognition failed, joined by line breaks. |
| PdfUtils.JoinSplitRoundTrip | credit-card-statement-parser-backend/utils/pdf_utils.py:108 | Page texts without line breaks are recovered by splitting the joined OCR text at line breaks. |

## Left out

- The PDF and OCR libraries (pdfplumber, PyMuPDF, pdf2image, pytesseract) are not modelled. `_extract_via_pdfplumber` and `_extract_via_pymupdf` enter `PdfUtils.ExtractText` as the strings they return. A failure or missing library is already "". OCR enters as its result text, or per page as an optional text.
- Environment variables, the Tesseract path set-up, the recognition language and the rendering DPI are left out. They only configure the foreign libraries.
- `extract_text.last_method`, a process-wide attribute, is left out. The label is returned as the `strategy` field of the result instead.
- `detect_currency_symbol` is not part of this model. It is a parameter `detect: string -> string`.
- `parsers/smart_parser.py` is entirely commented out, and `app.py` is the HTTP transport. Neither is part of this model.
- Python's `\d`, `\w`, `str.lower` and `IGNORECASE` are Unicode-aware. The model uses ASCII digits and letters. Whitespace (`\s`, `str.strip`, `str.isspace`) is Python's full Unicode whitespace set.
- `datetime`'s locale is fixed to English month names. A year below 1000 is written zero-padded to four digits, which is platform-dependent in Python.
- `float(...) == 0` in the Kotak zero-total test is modelled without floats, as "every digit is '0'". `KotakParser.ZeroAmountIsZero` shows this equals a zero value.
- FuzzyLabel.MatchAt: only requires the phrase to end in a letter. Its contract states bounds. Acceptance is proved separately (`FuzzyVariants.VariantMatches`) for labels with single spaces and no two adjacent equal letters (`IsFuzzyLabel`), and only for variants that are not followed by another blank or another copy of the last letter. Every label the source uses has that shape (`StatementLabelsAreFuzzy`, `DueLabelsAreFuzzy`, `LabelsAreFuzzy`). Rejection of texts that are not variants is not stated.
- FuzzyLabel.RegexText: does not upper-case the phrase. `parse_icici` passes upper-case constants, for which `label.upper()` is the identity. `parse_hdfc` passes mixed-case labels such as "Statement Date", and the model holds them already upper-cased (`HdfcParser.StatementDateLabel` and its neighbours), as `find_label_following_date` upper-cases them first.
- IciciParser.IciciTotalAmountDue: a total is promised only to be digits, a point and two digits, not to open with a digit. The pattern's `[^\d]*` can give a comma back to the amount, so "total amount due ,.50" has the total ".50".
- IciciParser.ParseIcici: the same holds for its total, for the same reason.
- HdfcParser.NormalizeAmount: its contract does not state that input without a digit gives None. It states the shape of every result.
- GenericParser.RowAmount: states the shape of its result and None when no row follows the label. Which row's amount it returns is stated separately by `FirstRowDecides`.
- KotakParser.SaysNoPayment keeps the source's test of group 1 for the phrase. Group 1 is one of the two label alternatives, so this test can never succeed, but no lemma proves that.

## Notes on the source

- An OCR-spaced label such as "S T A T E M E N T DATE: Oct 1, 2025" is not turned into an ISO date by the ICICI parser. The fuzzy pattern needs the month name directly after the label, so the colon stops it. The ICICI date conversion accepts only full month names (`%B`), so "Oct 1, 2025" would come back verbatim.
- The first-800-characters statement-date fallback exists only in `parse_hdfc`, which the router never calls.
- Only OCR reads a capped number of pages. The pdfplumber and PyMuPDF engines read the whole document.
- Text extraction is steered by two flags, `force_ocr` and `auto_ocr`.
- `utils/text_utils.py` defines only `normalize_text`. Yet `parsers/router.py:5`, `parsers/generic_parser.py:5` and `parsers/kotak_parser.py:3` import `detect_currency_symbol` from it, so, as written, those modules fail at import time. The model takes the detector as a parameter.
- `normalize_text` is not idempotent. "RsRs" becomes "₹Rs", and normalising again gives "₹₹".
- ICICI `extract_date` applied to its own ISO output gives None (`IciciParser.IsoHoldsNoDate`). Applied to a verbatim token, it returns that token again (`IciciParser.VerbatimWordDateIsStable`).
- In `parse_hdfc`, `if not total` at the fallback for the total is always true at that point. The model follows the control flow as written.
- The third card pattern of the generic parser duplicates the first one once case is ignored, so it can never be the first to match.
