/**
 * What each query of the trade store returns, as functions of the stored
 * sequence of trades, and the properties those answers have.
 */
module Queries {
  import opened Wrappers
  import opened Substring
  import opened Trades
  import opened Selection

  /** The per-trade test of a lookup by identifier. */
  function HasId(id: Option<string>): Trade -> bool
  {
    (t: Trade) => t.tradeId == id
  }

  /** The per-trade test of a filter query. */
  function FilterTest(c: Criteria): Trade -> bool
  {
    (t: Trade) => Satisfies(c, t)
  }

  /** The per-trade test of a text search. */
  function SearchTest(text: string): Trade -> bool
  {
    (t: Trade) => MatchesText(text, t)
  }

  /** Why a text search could not complete. */
  datatype SearchError =
    /** The trade at `position` has no counterparty, so `text in counterparty` raised a TypeError. */
    CounterpartyMissing(position: nat)

  /** The answer of a lookup by identifier: the earliest stored trade carrying `id`. */
  function TradeWithId(ts: seq<Trade>, id: Option<string>): (r: Option<Trade>)
    ensures r.None? <==> forall i :: 0 <= i < |ts| ==> ts[i].tradeId != id
    ensures r.Some? ==> r.value.tradeId == id
    ensures r.Some? ==>
      exists i :: 0 <= i < |ts| && ts[i] == r.value && forall j :: 0 <= j < i ==> ts[j].tradeId != id
  {
    match FirstIndex(ts, HasId(id))
    case None => None
    case Some(k) => Some(ts[k])
  }

  /** The answer of a filter query: the stored trades meeting every supplied criterion, in order. */
  function Filtered(c: Criteria, ts: seq<Trade>): seq<Trade>
  {
    Keep(ts, FilterTest(c))
  }

  /** The trades a search for `text` selects, in order. */
  function Searched(text: string, ts: seq<Trade>): seq<Trade>
  {
    Keep(ts, SearchTest(text))
  }

  /**
   * The answer of a text search: an error naming the first trade without a
   * counterparty if there is one (the scan raises there and returns nothing),
   * and otherwise the matching trades in order.
   */
  function SearchOutcome(text: string, ts: seq<Trade>): (r: Result<seq<Trade>, SearchError>)
    ensures r.Failure? <==> exists i :: 0 <= i < |ts| && LacksCounterparty(ts[i])
    ensures r.Failure? ==>
      && r.error.position < |ts| && LacksCounterparty(ts[r.error.position])
      && forall j :: 0 <= j < r.error.position ==> !LacksCounterparty(ts[j])
  {
    match FirstIndex(ts, LacksCounterparty)
    case Some(k) => Failure(CounterpartyMissing(k))
    case None => Success(Searched(text, ts))
  }

  // ---- lookup by identifier

  /**
   * After appending `t`, looking up any id gives the earlier answer if there was
   * one, and otherwise `t` when it carries that id.
   */
  lemma TradeWithIdAfterAdd(ts: seq<Trade>, t: Trade, id: Option<string>)
    ensures TradeWithId(ts + [t], id) ==
      if TradeWithId(ts, id).Some? then TradeWithId(ts, id)
      else if t.tradeId == id then Some(t)
      else None
  {
    FirstIndexSnoc(ts, t, HasId(id));
  }

  /**
   * After appending `t`, looking up its id finds a trade with that id: `t` itself
   * unless an earlier trade already carried the same id.
   */
  lemma FindAddedTrade(ts: seq<Trade>, t: Trade)
    ensures TradeWithId(ts + [t], t.tradeId).Some?
    ensures TradeWithId(ts + [t], t.tradeId).value.tradeId == t.tradeId
    ensures (forall i :: 0 <= i < |ts| ==> ts[i].tradeId != t.tradeId) ==>
      TradeWithId(ts + [t], t.tradeId) == Some(t)
  {
    TradeWithIdAfterAdd(ts, t, t.tradeId);
  }

  // ---- filter

  /** A trade is in the filter's answer exactly when it is stored and meets every supplied criterion. */
  lemma FilteredMember(c: Criteria, ts: seq<Trade>, t: Trade)
    ensures t in Filtered(c, ts) <==> t in ts && Satisfies(c, t)
  {
    KeepMember(ts, FilterTest(c), t);
  }

  /** The filter's answer is the subsequence of the store made of the trades that pass, in insertion order. */
  lemma FilteredInOrder(c: Criteria, ts: seq<Trade>)
    ensures SelectedInOrder(Filtered(c, ts), ts, FilterTest(c))
    ensures |Filtered(c, ts)| <= |ts|
  {
    KeepSelectsInOrder(ts, FilterTest(c));
  }

  /** With every criterion left out, the filter returns the whole store unchanged. */
  lemma FilterWithoutCriteria(ts: seq<Trade>)
    ensures Filtered(NoCriteria, ts) == ts
  {
    KeepAll(ts, FilterTest(NoCriteria));
  }

  /** Both price bounds are inclusive. */
  lemma PriceBoundsInclusive(ts: seq<Trade>, lo: real, hi: real, t: Trade)
    ensures t in Filtered(NoCriteria.(minPrice := Some(lo), maxPrice := Some(hi)), ts) <==>
      t in ts && lo <= t.tradeDetails.price <= hi
  {
    FilteredMember(NoCriteria.(minPrice := Some(lo), maxPrice := Some(hi)), ts, t);
  }

  /** Both date bounds are inclusive. */
  lemma DateBoundsInclusive(ts: seq<Trade>, from: int, to: int, t: Trade)
    ensures t in Filtered(NoCriteria.(start := Some(from), end := Some(to)), ts) <==>
      t in ts && from <= t.tradeDateTime <= to
  {
    FilteredMember(NoCriteria.(start := Some(from), end := Some(to)), ts, t);
  }

  /** Filtering by both price bounds at once is filtering by the lower bound and then by the upper bound. */
  lemma PriceRangeIsTwoFilters(ts: seq<Trade>, lo: real, hi: real)
    ensures Filtered(NoCriteria.(minPrice := Some(lo), maxPrice := Some(hi)), ts) ==
      Filtered(NoCriteria.(maxPrice := Some(hi)), Filtered(NoCriteria.(minPrice := Some(lo)), ts))
  {
    KeepConjunction(ts,
      FilterTest(NoCriteria.(minPrice := Some(lo))),
      FilterTest(NoCriteria.(maxPrice := Some(hi))),
      FilterTest(NoCriteria.(minPrice := Some(lo), maxPrice := Some(hi))));
  }

  // ---- text search

  /**
   * When every stored trade has a counterparty, the search succeeds and a trade
   * is in its answer exactly when it is stored and `text` is a substring of its
   * counterparty, instrument id, instrument name or trader.
   */
  lemma SearchedMember(text: string, ts: seq<Trade>, t: Trade)
    requires forall i :: 0 <= i < |ts| ==> !LacksCounterparty(ts[i])
    ensures SearchOutcome(text, ts).Success?
    ensures t in SearchOutcome(text, ts).value <==>
      && t in ts
      && (|| IsSubstring(text, t.counterparty.value)
          || IsSubstring(text, t.instrumentId)
          || IsSubstring(text, t.instrumentName)
          || IsSubstring(text, t.trader))
  {
    KeepMember(ts, SearchTest(text), t);
    if t in ts {
      MatchesTextMeaning(text, t);
    }
  }

  /** A successful search answers with a subsequence of the store, in insertion order. */
  lemma SearchedInOrder(text: string, ts: seq<Trade>)
    requires SearchOutcome(text, ts).Success?
    ensures SelectedInOrder(SearchOutcome(text, ts).value, ts, SearchTest(text))
    ensures |SearchOutcome(text, ts).value| <= |ts|
  {
    KeepSelectsInOrder(ts, SearchTest(text));
  }

  /** Searching for the empty text returns every stored trade, in insertion order. */
  lemma SearchEmptyText(ts: seq<Trade>)
    requires forall i :: 0 <= i < |ts| ==> !LacksCounterparty(ts[i])
    ensures SearchOutcome("", ts) == Success(ts)
  {
    forall i | 0 <= i < |ts| ensures SearchTest("")(ts[i]) {
      EmptyTextMatches(ts[i]);
    }
    KeepAll(ts, SearchTest(""));
  }

  // ---- a worked example

  /**
   * Two stored trades, a buy at price 10 and a sell at price 50: a lower price
   * bound of 20 keeps only the sell, the side "BUY" keeps only the buy, and an
   * id that was never stored is not found.
   */
  lemma TwoTradeExample(a: Trade, b: Trade)
    requires a.tradeId == Some("T1") && a.tradeDetails.price == 10.0 && a.tradeDetails.buySellIndicator == "BUY"
    requires b.tradeId == Some("T2") && b.tradeDetails.price == 50.0 && b.tradeDetails.buySellIndicator == "SELL"
    ensures Filtered(NoCriteria.(minPrice := Some(20.0)), [a, b]) == [b]
    ensures Filtered(NoCriteria.(tradeType := Some("BUY")), [a, b]) == [a]
    ensures TradeWithId([a, b], Some("T3")).None?
  {
    assert [] + [a] == [a] && [a] + [b] == [a, b];
    assert "SELL"[0] != "BUY"[0];
    var cheap, buys := FilterTest(NoCriteria.(minPrice := Some(20.0))), FilterTest(NoCriteria.(tradeType := Some("BUY")));
    KeepSnoc([], a, cheap);
    KeepSnoc([a], b, cheap);
    KeepSnoc([], a, buys);
    KeepSnoc([a], b, buys);
  }
}
