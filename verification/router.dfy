/**
 * The entry point (router.py): a case-blind test picks the issuer, the
 * issuer's extractor runs, and a currency symbol is filled in when the
 * extractor found none. HDFC statements go to the generic extractor.
 */
module Router {
  import opened Wrappers
  import opened Chars
  import opened Search
  import opened Statement
  import GenericParser
  import IciciParser
  import KotakParser

  datatype Bank = Icici | Kotak | Hdfc | Unknown

  /** The tag `detect_bank` returns. */
  function Tag(b: Bank): string {
    match b
    case Icici => "ICICI"
    case Kotak => "KOTAK"
    case Hdfc => "HDFC"
    case Unknown => "UNKNOWN"
  }

  /** `detect_bank`: the first of "icici bank", "kotak", "hdfc" in the lower-cased text. */
  function DetectBank(text: string): (r: Bank)
    ensures r == Icici <==> Contains(LowerString(text), "icici bank")
    ensures r == Kotak <==> !Contains(LowerString(text), "icici bank") && Contains(LowerString(text), "kotak")
    ensures r == Hdfc <==>
              && !Contains(LowerString(text), "icici bank") && !Contains(LowerString(text), "kotak")
              && Contains(LowerString(text), "hdfc")
    ensures r == Unknown <==>
              && !Contains(LowerString(text), "icici bank") && !Contains(LowerString(text), "kotak")
              && !Contains(LowerString(text), "hdfc")
  {
    var lower := LowerString(text);
    if Contains(lower, "icici bank") then Icici
    else if Contains(lower, "kotak") then Kotak
    else if Contains(lower, "hdfc") then Hdfc
    else Unknown
  }

  /** Classification ignores case: the text and its lower-cased form get the same tag. */
  lemma DetectBankIgnoresCase(text: string)
    ensures DetectBank(text) == DetectBank(LowerString(text))
  {
    LowerStringIdempotent(text);
  }

  /** Lower-casing `w` character by character gives `l`. */
  lemma LowerWord(w: string, l: string)
    requires |w| == |l| && forall i :: 0 <= i < |w| ==> Lower(w[i]) == l[i]
    ensures LowerString(w) == l
  {
  }

  lemma LowerIcici()
    ensures LowerString("ICICI") == "icici"
  {
    LowerWord("ICICI", "icici");
  }

  lemma LowerBank()
    ensures LowerString(" Bank") == " bank"
  {
    LowerWord(" Bank", " bank");
  }

  lemma LowerIciciBank()
    ensures LowerString("ICICI Bank") == "icici bank"
  {
    LowerIcici();
    LowerBank();
    LowerStringAppend("ICICI", " Bank");
    assert "ICICI" + " Bank" == "ICICI Bank";
    assert "icici" + " bank" == "icici bank";
  }

  /** "ICICI Bank" anywhere wins, whatever other issuer names the text holds. */
  lemma IciciBankWins(before: string, after: string)
    ensures DetectBank(before + "ICICI Bank" + after) == Icici
  {
    var lower := LowerString(before + "ICICI Bank" + after);
    LowerStringAppend(before + "ICICI Bank", after);
    LowerStringAppend(before, "ICICI Bank");
    LowerIciciBank();
    assert lower == LowerString(before) + "icici bank" + LowerString(after);
    assert lower[|before|..|before| + 10] == "icici bank";
    assert LiteralAt(lower, |before|, "icici bank");
  }

  /** "icici" without "bank" is not enough: such a text falls through to the later tests. */
  lemma IciciAloneFallsThrough(t: string)
    requires t == "icici kotak"
    ensures DetectBank(t) == Kotak
  {
    assert LowerString(t) == t by { LowerOfLowercase(t); }
    assert !Contains(t, "icici bank") by { NoIciciBankIn(t); }
    assert Contains(t, "kotak") by {
      assert t[6..11] == "kotak";
      assert LiteralAt(t, 6, "kotak");
    }
  }

  lemma NoIciciBankIn(t: string)
    requires t == "icici kotak"
    ensures !Contains(t, "icici bank")
  {
    forall i | 0 <= i <= |t| ensures !LiteralAt(t, i, "icici bank") {
      if i == 0 {
        assert t[9] != "icici bank"[9];
      } else if i == 1 {
        assert t[1] != "icici bank"[0];
      }
    }
  }

  /** The record the chosen extractor returns; HDFC and unknown issuers both go to the generic one. */
  function Dispatch(text: string, detect: string -> string): (r: Fields)
    ensures r.bank == Tag(DetectBank(text))
    ensures DetectBank(text) == Icici ==> r == IciciParser.ParseIcici(text)
    ensures DetectBank(text) == Kotak ==> r == KotakParser.ParseKotak(text, detect)
    ensures DetectBank(text) in {Hdfc, Unknown} ==> r == GenericParser.ParseGeneric(text, Tag(DetectBank(text)), detect)
  {
    var bank := DetectBank(text);
    match bank
    case Icici => IciciParser.ParseIcici(text)
    case Kotak => KotakParser.ParseKotak(text, detect)
    case _ => GenericParser.ParseGeneric(text, Tag(bank), detect)
  }

  /** `parse_statement`; `detect` stands for `detect_currency_symbol`. */
  function ParseStatement(text: string, detect: string -> string): (r: Fields)
    ensures r.bank == Tag(DetectBank(text))
    ensures r.currencySymbol.Some?
    ensures r.currencySymbol ==
              if Truthy(Dispatch(text, detect).currencySymbol) then Dispatch(text, detect).currencySymbol
              else Some(detect(text))
    ensures r == Dispatch(text, detect).(currencySymbol := r.currencySymbol)
  {
    var res := Dispatch(text, detect);
    if Truthy(res.currencySymbol) then res else res.(currencySymbol := Some(detect(text)))
  }
}
