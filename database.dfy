/**
 * The in-memory trade store: an append-only list of trades scanned by
 * every query. Each query is a loop over the list, proved to return what the
 * corresponding function of `Queries` says; none of them changes the store.
 */
module TradeDatabase {
  import opened Wrappers
  import opened Trades
  import opened Selection
  import opened Queries

  class Database {
    /** Every trade added so far, in the order it was added. */
    var trades: seq<Trade>

    constructor ()
      ensures trades == []
    {
      trades := [];
    }

    /** Stores `t` after all earlier trades; duplicates are kept. */
    method AddTrade(t: Trade)
      modifies this
      ensures trades == old(trades) + [t]
    {
      trades := trades + [t];
    }

    /** The first stored trade, in insertion order, whose id equals `id`; `None` if there is none. */
    method GetTradeById(id: Option<string>) returns (r: Option<Trade>)
      ensures r == TradeWithId(trades, id)
      ensures r.None? <==> forall i :: 0 <= i < |trades| ==> trades[i].tradeId != id
      ensures r.Some? ==> r.value.tradeId == id && r.value in trades
    {
      var i := 0;
      while i < |trades|
        invariant 0 <= i <= |trades|
        invariant forall j :: 0 <= j < i ==> !HasId(id)(trades[j])
      {
        var trade := trades[i];
        if trade.tradeId == id {
          FirstIndexAt(trades, HasId(id), i);
          return Some(trade);
        }
        i := i + 1;
      }
      return None;
    }

    /**
     * The stored trades in which `text` occurs in the counterparty, the
     * instrument id, the instrument name or the trader, in insertion order.
     * The scan fails on the first trade that has no counterparty.
     */
    method SearchTrades(text: string) returns (r: Result<seq<Trade>, SearchError>)
      ensures r == SearchOutcome(text, trades)
      ensures r.Failure? <==> exists i :: 0 <= i < |trades| && trades[i].counterparty.None?
      ensures r.Success? ==> |r.value| <= |trades|
    {
      var results := [];
      var i := 0;
      while i < |trades|
        invariant 0 <= i <= |trades|
        invariant forall j :: 0 <= j < i ==> !LacksCounterparty(trades[j])
        invariant results == Searched(text, trades[..i])
      {
        var trade := trades[i];
        if trade.counterparty.None? {
          FirstIndexAt(trades, LacksCounterparty, i);
          return Failure(CounterpartyMissing(i));
        }
        if MatchesText(text, trade) {
          results := results + [trade];
        }
        assert trades[..i + 1] == trades[..i] + [trade];
        KeepSnoc(trades[..i], trade, SearchTest(text));
        i := i + 1;
      }
      assert trades[..i] == trades;
      return Success(results);
    }

    /** The stored trades meeting every criterion `c` supplies, in insertion order. */
    method FilterTrades(c: Criteria) returns (r: seq<Trade>)
      ensures r == Filtered(c, trades)
      ensures |r| <= |trades|
      ensures forall t :: t in r <==> t in trades && Satisfies(c, t)
    {
      var results := [];
      var i := 0;
      while i < |trades|
        invariant 0 <= i <= |trades|
        invariant results == Filtered(c, trades[..i])
      {
        var trade := trades[i];
        if Satisfies(c, trade) {
          results := results + [trade];
        }
        assert trades[..i + 1] == trades[..i] + [trade];
        KeepSnoc(trades[..i], trade, FilterTest(c));
        i := i + 1;
      }
      assert trades[..i] == trades;
      forall t ensures t in results <==> t in trades && Satisfies(c, t) {
        FilteredMember(c, trades, t);
      }
      return results;
    }
  }
}
