/**
 * The trade record and the per-trade tests the store's queries apply to it.
 * Prices are reals and date-times are integer timestamps: the queries only
 * compare them with `<=` and `>=`.
 */
module Trades {
  import opened Wrappers
  import opened Substring

  /** Side, price and size of a trade. */
  datatype TradeDetails = TradeDetails(buySellIndicator: string, price: real, quantity: int)

  /**
   * One trade. `assetClass`, `counterparty` and `tradeId` default to `None`;
   * an absent `tradeId` is stored as it is, no identifier is assigned.
   */
  datatype Trade = Trade(
    assetClass: Option<string>,
    counterparty: Option<string>,
    instrumentId: string,
    instrumentName: string,
    tradeDateTime: int,
    tradeDetails: TradeDetails,
    tradeId: Option<string>,
    trader: string)

  /** The keyword arguments of the filter query; `None` means the criterion is not applied. */
  datatype Criteria = Criteria(
    assetClass: Option<string>,
    end: Option<int>,
    maxPrice: Option<real>,
    minPrice: Option<real>,
    start: Option<int>,
    tradeType: Option<string>)

  /** Every criterion left at its default. */
  const NoCriteria := Criteria(None, None, None, None, None, None)

  /** The filter query's test: every supplied criterion holds, range bounds inclusive. */
  predicate Satisfies(c: Criteria, t: Trade)
  {
    && (c.assetClass.None? || t.assetClass == Some(c.assetClass.value))
    && (c.end.None? || t.tradeDateTime <= c.end.value)
    && (c.maxPrice.None? || t.tradeDetails.price <= c.maxPrice.value)
    && (c.minPrice.None? || t.tradeDetails.price >= c.minPrice.value)
    && (c.start.None? || t.tradeDateTime >= c.start.value)
    && (c.tradeType.None? || t.tradeDetails.buySellIndicator == c.tradeType.value)
  }

  /** A trade whose counterparty was never given; the search query cannot examine it. */
  predicate LacksCounterparty(t: Trade)
  {
    t.counterparty.None?
  }

  /**
   * The search query's test: `text` is contained in the counterparty, the
   * instrument id, the instrument name or the trader. It is only applied to
   * trades that have a counterparty; see `Queries.SearchOutcome`.
   */
  predicate MatchesText(text: string, t: Trade)
  {
    || (t.counterparty.Some? && Contains(text, t.counterparty.value))
    || Contains(text, t.instrumentId)
    || Contains(text, t.instrumentName)
    || Contains(text, t.trader)
  }

  /** MatchesText is substring containment in one of the four searched fields. */
  lemma MatchesTextMeaning(text: string, t: Trade)
    requires t.counterparty.Some?
    ensures MatchesText(text, t) <==>
      || IsSubstring(text, t.counterparty.value)
      || IsSubstring(text, t.instrumentId)
      || IsSubstring(text, t.instrumentName)
      || IsSubstring(text, t.trader)
  {
    ContainsIsSubstring(text, t.counterparty.value);
    ContainsIsSubstring(text, t.instrumentId);
    ContainsIsSubstring(text, t.instrumentName);
    ContainsIsSubstring(text, t.trader);
  }

  /** The empty search text matches every trade. */
  lemma EmptyTextMatches(t: Trade)
    ensures MatchesText("", t)
  {
    EmptyContained(t.instrumentId);
  }
}
