/**
 * Text acquisition (utils/pdf_utils.py): two text engines tried in turn, then
 * OCR when both give blank text and OCR is forced or allowed. The engines are
 * not modelled; each enters as the text it would return for the document,
 * already "" where its library is missing or it fails.
 */
module PdfUtils {
  import opened Wrappers
  import opened Chars

  /** The label `extract_text` records for the strategy that produced the text. */
  datatype Method = Unextracted | Pdfplumber | Pymupdf | Tesseract

  function MethodLabel(m: Method): string {
    match m
    case Unextracted => "none"
    case Pdfplumber => "text-pdfplumber"
    case Pymupdf => "text-pymupdf"
    case Tesseract => "ocr-tesseract"
  }

  /** The engines in the order they may be consulted. */
  datatype Engine = Plumber | MuPdf | Ocr

  /** What `extract_text` returns, the strategy label it records, and the engines it ran, in order. */
  datatype Extraction = Extraction(text: string, strategy: Method, ran: seq<Engine>)

  /** `s.strip()` is truthy. */
  predicate NonBlank(s: string) { Strip(s) != "" }

  /**
   * `extract_text`. `plumber`, `mupdf` and `ocr` are what the pdfplumber,
   * PyMuPDF and OCR paths return for the document.
   */
  function ExtractText(forceOcr: bool, autoOcr: bool, plumber: string, mupdf: string, ocr: string): (r: Extraction)
    ensures forceOcr ==> Plumber !in r.ran && MuPdf !in r.ran
    ensures MuPdf in r.ran <==> !forceOcr && !NonBlank(plumber)
    ensures Ocr in r.ran <==> (forceOcr || autoOcr) && (forceOcr || (!NonBlank(plumber) && !NonBlank(mupdf)))
    ensures r.strategy == Pdfplumber <==> !forceOcr && NonBlank(plumber)
    ensures r.strategy == Pymupdf <==> !forceOcr && !NonBlank(plumber) && NonBlank(mupdf)
    ensures r.strategy == Tesseract <==> Ocr in r.ran && NonBlank(ocr)
    ensures r.strategy != Unextracted ==> NonBlank(r.text)
    ensures r.strategy == Unextracted ==> !NonBlank(r.text)
    ensures r.text in {plumber, mupdf, ocr}
    ensures forceOcr ==> r.text == ocr
  {
    var (text, strategy, ran) :=
      if forceOcr then ("", Unextracted, [])
      else if NonBlank(plumber) then (plumber, Pdfplumber, [Plumber])
      else if NonBlank(mupdf) then (mupdf, Pymupdf, [Plumber, MuPdf])
      else (mupdf, Unextracted, [Plumber, MuPdf]);
    if strategy == Unextracted && (forceOcr || autoOcr) then
      Extraction(ocr, if NonBlank(ocr) then Tesseract else Unextracted, ran + [Ocr])
    else Extraction(text, strategy, ran)
  }

  /** The first non-blank engine result wins, in the order the engines are consulted. */
  lemma FirstNonBlankWins(forceOcr: bool, autoOcr: bool, plumber: string, mupdf: string, ocr: string)
    requires !forceOcr
    ensures NonBlank(plumber) ==> ExtractText(forceOcr, autoOcr, plumber, mupdf, ocr).text == plumber
    ensures !NonBlank(plumber) && NonBlank(mupdf) ==> ExtractText(forceOcr, autoOcr, plumber, mupdf, ocr).text == mupdf
    ensures !NonBlank(plumber) && !NonBlank(mupdf) && autoOcr ==> ExtractText(forceOcr, autoOcr, plumber, mupdf, ocr).text == ocr
  {
  }

  /** With OCR forced the result does not depend on either text engine. */
  lemma ForcedOcrIgnoresTextEngines(autoOcr: bool, p1: string, m1: string, p2: string, m2: string, ocr: string)
    ensures ExtractText(true, autoOcr, p1, m1, ocr) == ExtractText(true, autoOcr, p2, m2, ocr)
  {
  }

  /** Python's `"\n".join(parts)`. */
  function JoinLines(parts: seq<string>): (r: string)
    ensures |parts| == 0 ==> r == ""
  {
    if |parts| == 0 then ""
    else if |parts| == 1 then parts[0]
    else parts[0] + "\n" + JoinLines(parts[1..])
  }

  /** Python's `s.split("\n")`. */
  function SplitLines(s: string): (r: seq<string>)
    ensures |r| >= 1
  {
    if |s| == 0 then [""]
    else
      var rest := SplitLines(s[1..]);
      if s[0] == '\n' then [""] + rest
      else [[s[0]] + rest[0]] + rest[1..]
  }

  /** A line without a line break splits into itself. */
  lemma {:induction false} SplitSingleLine(a: string)
    requires '\n' !in a
    ensures SplitLines(a) == [a]
  {
    if |a| > 0 {
      SplitSingleLine(a[1..]);
      assert [a[0]] + a[1..] == a;
    }
  }

  /** Splitting after a line without a break gives that line, then the rest's lines. */
  lemma {:induction false} SplitAfterLine(a: string, b: string)
    requires '\n' !in a
    ensures SplitLines(a + "\n" + b) == [a] + SplitLines(b)
  {
    if |a| == 0 {
      assert a + "\n" + b == "\n" + b;
      assert ("\n" + b)[1..] == b;
    } else {
      SplitAfterLine(a[1..], b);
      assert (a + "\n" + b)[1..] == a[1..] + "\n" + b;
      assert [a[0]] + a[1..] == a;
    }
  }

  /** Page texts without line breaks of their own are recovered from the joined OCR text. */
  lemma {:induction false} JoinSplitRoundTrip(parts: seq<string>)
    requires |parts| >= 1
    requires forall i :: 0 <= i < |parts| ==> '\n' !in parts[i]
    ensures SplitLines(JoinLines(parts)) == parts
  {
    if |parts| == 1 {
      SplitSingleLine(parts[0]);
    } else {
      JoinSplitRoundTrip(parts[1..]);
      SplitAfterLine(parts[0], JoinLines(parts[1..]));
      assert [parts[0]] + parts[1..] == parts;
    }
  }

  /** The pages OCR reads: at most `maxPages` of them, the first ones. */
  function PagesRead(pageCount: nat, maxPages: int): (n: nat)
    ensures n <= pageCount && (maxPages >= 0 ==> n <= maxPages)
    ensures maxPages <= 0 ==> n == 0
    ensures n < pageCount ==> (maxPages <= 0 && n == 0) || n == maxPages
  {
    if maxPages <= 0 then 0 else Min(pageCount, maxPages)
  }

  /**
   * `_extract_via_ocr`. `available` says whether both OCR libraries loaded;
   * `pages` is None when rendering the document raised, and otherwise holds,
   * per rendered page, the recognised text or None where recognition raised.
   */
  method ExtractViaOcr(available: bool, pages: Option<seq<Option<string>>>, maxPages: int)
    returns (text: string, parts: seq<string>)
    ensures !available || pages.None? ==> text == "" && parts == []
    ensures available && pages.Some? ==> |parts| == PagesRead(|pages.value|, maxPages)
    ensures available && pages.Some? ==>
              forall i :: 0 <= i < |parts| ==> parts[i] == pages.value[i].GetOr("")
    ensures text == JoinLines(parts)
  {
    if !available || pages.None? {
      return "", [];
    }
    var images := pages.value;
    parts := [];
    var i := 0;
    while i < |images|
      invariant 0 <= i <= |images|
      invariant i <= PagesRead(|images|, maxPages) && |parts| == i
      invariant forall k :: 0 <= k < |parts| ==> parts[k] == images[k].GetOr("")
    {
      if i >= maxPages {
        break;
      }
      var txt := images[i].GetOr("");
      parts := parts + [txt];
      i := i + 1;
    }
    text := JoinLines(parts);
  }
}
