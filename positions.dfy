/**
 * A holding of one asset in one portfolio and the accounting figures the
 * entity computes on read. `decimal` amounts are exact reals here.
 */
module Positions {
  import opened Wrappers
  import opened Time

  datatype PortfolioPosition = PortfolioPosition(
    positionId: int,
    portfolioId: int,
    assetId: int,
    quantity: real,
    averagePurchasePrice: real,
    currentPrice: Option<real>,   // last cached market price, absent until first refresh
    lastPriceUpdate: Option<DateTime>,
    createdAt: DateTime,
    updatedAt: DateTime)

  /** Amount paid for the units held: quantity times average cost. */
  function TotalInvested(p: PortfolioPosition): (r: real)
    ensures p.quantity >= 0.0 && p.averagePurchasePrice >= 0.0 ==> r >= 0.0
    ensures p.quantity == 0.0 || p.averagePurchasePrice == 0.0 ==> r == 0.0
  {
    p.quantity * p.averagePurchasePrice
  }

  /** Market value of the units held; without a cached price the average cost stands in. */
  function CurrentValue(p: PortfolioPosition): (r: real)
    ensures p.currentPrice.None? ==> r == TotalInvested(p)
    ensures p.currentPrice == Some(p.averagePurchasePrice) ==> r == TotalInvested(p)
  {
    p.quantity * p.currentPrice.GetOr(p.averagePurchasePrice)
  }

  /** Value minus cost; no gain or loss is shown until a price differs from the cost. */
  function UnrealizedGainLoss(p: PortfolioPosition): (r: real)
    ensures r + TotalInvested(p) == CurrentValue(p)
    ensures p.currentPrice.None? || p.currentPrice == Some(p.averagePurchasePrice) ==> r == 0.0
  {
    CurrentValue(p) - TotalInvested(p)
  }

  /** Gain as a percentage of cost; 0 whenever nothing (or a negative amount) was invested. */
  function ReturnPercentage(p: PortfolioPosition): (r: real)
    ensures TotalInvested(p) <= 0.0 ==> r == 0.0
    ensures TotalInvested(p) > 0.0 ==> r * TotalInvested(p) == UnrealizedGainLoss(p) * 100.0
  {
    if TotalInvested(p) > 0.0 then (UnrealizedGainLoss(p) / TotalInvested(p)) * 100.0 else 0.0
  }

  /**
   * For a position with units held at a positive cost and a cached price,
   * the return is the price move relative to the average cost.
   */
  lemma ReturnIsRelativePriceMove(p: PortfolioPosition)
    requires p.quantity > 0.0 && p.averagePurchasePrice > 0.0 && p.currentPrice.Some?
    ensures ReturnPercentage(p) == (p.currentPrice.value - p.averagePurchasePrice) / p.averagePurchasePrice * 100.0
  {
    var q, a, c := p.quantity, p.averagePurchasePrice, p.currentPrice.value;
    assert TotalInvested(p) == q * a > 0.0;
    assert UnrealizedGainLoss(p) == q * (c - a);
    var m := (c - a) / a;
    assert m * a == c - a;
    assert q * (c - a) == (q * a) * m;
  }

  /**
   * With units held at a positive cost, the return has the sign of the
   * current price minus the average cost (and is 0 without a cached price).
   */
  lemma ReturnSign(p: PortfolioPosition)
    requires p.quantity > 0.0 && p.averagePurchasePrice > 0.0
    ensures p.currentPrice.None? ==> ReturnPercentage(p) == 0.0
    ensures p.currentPrice.Some? ==>
      && (ReturnPercentage(p) > 0.0 <==> p.currentPrice.value > p.averagePurchasePrice)
      && (ReturnPercentage(p) == 0.0 <==> p.currentPrice.value == p.averagePurchasePrice)
      && (ReturnPercentage(p) < 0.0 <==> p.currentPrice.value < p.averagePurchasePrice)
  {
    if p.currentPrice.Some? {
      ReturnIsRelativePriceMove(p);
      var a, c := p.averagePurchasePrice, p.currentPrice.value;
      var m := (c - a) / a;
      assert m * a == c - a;
    }
  }
}
