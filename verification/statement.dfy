/** The record every extractor returns, and the predicates its fields are judged by. */
module Statement {
  import opened Wrappers
  import opened Chars

  /**
   * The extracted fields. `currencySymbol` is None where the extractor's
   * record has no such key or holds None.
   */
  datatype Fields = Fields(
    bank: string,
    cardLast4: Option<string>,
    statementDate: Option<string>,
    paymentDueDate: Option<string>,
    totalAmountDue: Option<string>,
    currencySymbol: Option<string>)

  /** The due-date sentinel for statements that need no payment. */
  const NoPaymentRequired: string := "No payment required"

  /** Exactly four decimal digits. */
  predicate IsLast4(s: string) { |s| == 4 && AllDigits(s) }

  /** Python truthiness of an optional string: present and non-empty. */
  predicate Truthy(o: Option<string>) { o.Some? && o.value != "" }

  /** The sentinel holds no digit, so it never equals a date or a date token. */
  lemma SentinelHasNoDigit()
    ensures !HasDigit(NoPaymentRequired)
  {
    forall i | 0 <= i < |NoPaymentRequired| ensures !IsDigit(NoPaymentRequired[i]) { }
  }
}
