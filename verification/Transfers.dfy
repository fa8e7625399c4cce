/** What both transfer linkers know about a bank row and about a proposed pair of rows. */
module Transfers {
  import opened Basics

  datatype Currency = CAD | USD | CNY | EUR | GBP

  datatype Direction = Debit | Credit

  /** The link types the tables name; the keyword file may name others, which no table lists. */
  datatype LinkType =
    | CreditCardPayment
    | InternalTransfer
    | FxConversion
    | WiseTransfer
    | Refund
    | Other
    | Unlisted(name: string)

  /** One keyword-table entry that matched a row's description and account. */
  datatype Keyword = Keyword(kind: LinkType, isSource: bool, priority: int)

  /**
   A bank row: its id, the keyword entries its description matched, the rate it prints, whether its
   category names a transfer, and whether its status is already LINKED or MATCHED.
   */
  datatype Transaction = Transaction(
    id: int,
    account: string,
    direction: Direction,
    day: int,
    amount: real,
    currency: Currency,
    keywords: seq<Keyword>,
    printedRate: Option<real>,
    transferCategory: bool,
    settled: bool
  )

  type Ledger = map<int, Transaction>

  datatype Candidate = Candidate(source: int, target: int, kind: LinkType, score: real)

  const FAN_OUT_TOLERANCE: real := 0.01

  /** Only a refund anchor may face several counterparts. */
  predicate FansOut(kind: LinkType) {
    kind == Refund
  }

  predicate Touches(c: Candidate, id: int) {
    c.source == id || c.target == id
  }

  predicate Shares(a: Candidate, b: Candidate) {
    Touches(a, b.source) || Touches(a, b.target)
  }

  function Confidence(c: Candidate): real {
    c.score
  }
}
