/** A ledger entry for one buy or sell and the amounts it computes on read. */
module Ledger {
  import opened Wrappers
  import opened Time

  datatype Transaction = Transaction(
    transactionId: int,
    portfolioId: int,
    assetId: int,
    transactionType: string,   // "Buy" or "Sell", stored as text; empty on a new entity
    quantity: real,
    pricePerUnit: real,
    commission: real,
    transactionDate: DateTime,
    notes: Option<string>,
    createdAt: DateTime)

  /**
   * A new entity before any property is assigned: no type, no amounts and a
   * zero commission. Its two dates are two separate clock readings.
   */
  function NewTransaction(transactionDate: DateTime, createdAt: DateTime): (t: Transaction)
    ensures t.commission == 0.0 && t.transactionType == ""
    ensures t.transactionDate == transactionDate && t.createdAt == createdAt
  {
    Transaction(0, 0, 0, "", 0.0, 0.0, 0.0, transactionDate, None, createdAt)
  }

  /** Traded amount without fees: units times unit price. */
  function TotalAmount(t: Transaction): (r: real)
    ensures t.quantity >= 0.0 && t.pricePerUnit >= 0.0 ==> r >= 0.0
    ensures t.quantity == 0.0 || t.pricePerUnit == 0.0 ==> r == 0.0
  {
    t.quantity * t.pricePerUnit
  }

  /** Traded amount plus commission; never below the traded amount when fees are not negative. */
  function TotalCost(t: Transaction): (r: real)
    ensures t.commission >= 0.0 ==> r >= TotalAmount(t)
    ensures r == TotalAmount(t) <==> t.commission == 0.0
  {
    TotalAmount(t) + t.commission
  }

  /**
   * An entry filled in from a new entity without touching its commission
   * costs exactly its traded amount.
   */
  lemma FreshEntryCostIsAmount(quantity: real, pricePerUnit: real, transactionDate: DateTime, createdAt: DateTime)
    ensures var t := NewTransaction(transactionDate, createdAt).(quantity := quantity, pricePerUnit := pricePerUnit);
            TotalCost(t) == TotalAmount(t) == quantity * pricePerUnit
  {
  }
}
