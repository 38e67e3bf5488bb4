/** The ledger directives the importer produces and the comparator reads:
    plain value versions of beancount's `Amount`, `Posting`, `Transaction`
    and `Balance`. Dates are day numbers. */
module Ledger {
  import opened Wrappers

  /** Metadata key carrying the external transaction identifier. */
  const FinIdKey: string := "fin_id"

  /** Metadata key beancount puts on postings whose amount it interpolated
      (the value of `interpolate.AUTOMATIC_META`). */
  const AutomaticMeta: string := "__automatic__"

  /** beancount's `flags.FLAG_OKAY`. */
  const FlagOkay: char := '*'

  /** An amount's currency: a string, or absent (`None`/`MISSING`). */
  datatype Currency = Code(code: string) | NoCurrency

  datatype Amount = Amount(number: real, currency: Currency)

  /** A posting's units: an `Amount`, or something that is not one. */
  datatype Units = Units(amount: Amount) | NoUnits

  /** A posting's metadata; a posting whose `meta` is `None` has the empty map. */
  type Meta = map<string, string>

  datatype Posting = Posting(account: string, units: Units, meta: Meta)

  /** A transaction; `lineno` is the line number of its metadata. */
  datatype Transaction = Transaction(
    lineno: int,
    date: int,
    flag: char,
    payee: Option<string>,
    narration: string,
    postings: seq<Posting>)

  datatype Directive =
    | Txn(txn: Transaction)
    | Balance(lineno: int, date: int, account: string, amount: Amount)

  function Negate(a: Amount): (r: Amount)
    ensures r.currency == a.currency && r.number + a.number == 0.0
  {
    Amount(-a.number, a.currency)
  }
}
