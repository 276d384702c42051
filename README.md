# Trade store model

This project models the in-memory trade store of a small trade-recording
service. The store (class `Database` in `app.py`) keeps an append-only list of
trade records. It offers four operations:

- `add_trade` appends a trade.
- `get_trade_by_id` returns the first stored trade with a given id, or `None`.
- `search_trades` returns every trade whose counterparty, instrument id,
  instrument name or trader contains the search text.
- `filter_trades` returns every trade that satisfies all the criteria supplied.
  The criteria are asset class, an inclusive date range, an inclusive price
  range, and buy/sell side.

Layout:

- `wrappers.dfy` (`Wrappers`): `Option` for Python's `None`, and `Result` for an
  operation that may raise.
- `selection.dfy` (`Selection`): the two scanning patterns the queries use,
  written once for any element type. `Keep` is an order-preserving filter.
  `FirstIndex` finds the first match.
- `substring.dfy` (`Substring`): Python's `needle in hay` on strings. It is a
  computable test (`Contains`), proved equal to "there is a position where
  `needle` occurs".
- `trades.dfy` (`Trades`): the trade record, the filter criteria, and the
  per-trade tests of the filter and the search.
- `queries.dfy` (`Queries`): what each query returns, as functions of the
  stored sequence, and lemmas about those answers.
- `database.dfy` (`TradeDatabase`): the store as a class with a `seq<Trade>`
  field. Every query is a loop, proved to return what the matching `Queries`
  function says. No query method has a `modifies` clause, so none can change
  the store. For the same reason, two lookups with no `AddTrade` between them
  give the same answer. Trades are immutable values in the model. A caller
  changing a trade it received is not modelled; see "## Left out".
- `Queries.FilterTest` and `Queries.SearchTest` only wrap `Trades.Satisfies`
  and `Trades.MatchesText` as `Trade -> bool` values, which is the form
  `Selection.Keep` takes.

Modelling decisions:

- Dates are integer timestamps and prices are reals. The queries only compare
  them with `<=` and `>=`.
- `trade_id` defaults to `None` (app.py:74), so it is an `Option<string>`. No id
  is generated for a trade that has none, and duplicate ids are not rejected.
  A lookup therefore returns the earliest trade that carries the id. The lookup
  argument is an `Option<string>` as well, because the Python code compares it
  with `==` whatever it is.
- The search code evaluates `search_text in trade.counterparty` with no check
  for `None` (app.py:27). The field's own description says a counterparty may
  be missing (app.py:69). Python raises `TypeError` on the first such trade,
  and no partial answer is returned. The model follows the code:
  `SearchOutcome` and `Database.SearchTrades` give
  `Failure(CounterpartyMissing(k))`, where `k` is the position of the first
  stored trade that has no counterparty. Otherwise they give the matches. A
  design that skips an absent field instead would differ from the code here.
- The keyword arguments of `filter_trades` are one `Criteria` value. Each of
  its fields is an `Option`, and `NoCriteria` stands for every argument left
  at its default.
- `get_trade_by_id` returns `None` when nothing matches, so there is no
  separate not-found error.

## Model

| member | source | states |
|---|---|---|
| `TradeDatabase.Database.constructor` | app.py:11-12 | a new store holds no trades |
| `TradeDatabase.Database.AddTrade` | app.py:14-15 | the new list is the old list with the trade appended at the end; nothing else changes and duplicates are kept |
| `TradeDatabase.Database.GetTradeById` | app.py:17-21 | the loop returns `None` exactly when no stored trade has the id; otherwise it returns a stored trade with that id, namely the earliest one (`TradeWithId`); the store is not changed |
| `TradeDatabase.Database.SearchTrades` | app.py:23-33 | the loop fails exactly when some stored trade has no counterparty, reporting the first one; otherwise it returns the matching trades in insertion order (`SearchOutcome`), at most as many as are stored; the store is not changed |
| `TradeDatabase.Database.FilterTrades` | app.py:35-55 | the loop returns the trades that meet every supplied criterion, in insertion order (`Filtered`); a trade is in the answer exactly when it is stored and satisfies the criteria; the answer is no longer than the store; the store is not changed |
| `Queries.TradeWithId` | app.py:17-21 | the answer is `None` exactly when no stored trade has the id; otherwise it is a stored trade with that id, and every trade before it has a different id |
| `Queries.SearchOutcome` | app.py:23-33 | the search fails exactly when some stored trade has no counterparty, and the failure names the first such position |
| `Queries.HasId` | app.py:19 | definition: the lookup's per-trade test, the trade's id equals the requested id |
| `Queries.Filtered` | app.py:44-55 | definition: the `results` list of the filter loop, the stored trades passing `Satisfies`, in insertion order |
| `Queries.Searched` | app.py:24-33 | definition: the `results` list of the search loop, the stored trades passing `MatchesText`, in insertion order |
| `Queries.TradeWithIdAfterAdd` | app.py:14-21 | after an append, a lookup keeps any earlier answer; when there was none, it finds the new trade if that trade carries the id, and nothing otherwise |
| `Queries.FindAddedTrade` | app.py:14-21 | after adding `t`, looking up `t`'s id finds a trade with that id; it is `t` itself when no earlier trade had that id |
| `Queries.FilteredMember` | app.py:44-55 | a trade is in the filter's answer if and only if it is stored and meets the conjunction of every supplied criterion |
| `Queries.FilteredInOrder` | app.py:44-55 | the filter's answer is the subsequence of the store formed by all trades that pass, in insertion order, and is no longer than the store |
| `Queries.FilterWithoutCriteria` | app.py:37-54 | with every criterion left out, the filter returns the whole store unchanged |
| `Queries.PriceBoundsInclusive` | app.py:49-50 | with both price bounds given, a stored trade passes if and only if `min_price <= price <= max_price` (both ends inclusive) |
| `Queries.DateBoundsInclusive` | app.py:48-51 | with both date bounds given, a stored trade passes if and only if `start <= trade_date_time <= end` (both ends inclusive) |
| `Queries.PriceRangeIsTwoFilters` | app.py:49-50 | filtering by both price bounds equals filtering by the lower bound and then filtering that answer by the upper bound |
| `Queries.SearchedMember` | app.py:23-33 | when every trade has a counterparty the search succeeds, and a trade is in its answer if and only if it is stored and the text is a substring of its counterparty, instrument id, instrument name or trader |
| `Queries.SearchedInOrder` | app.py:24-33 | a successful search answers with the subsequence of the store formed by all matching trades, in insertion order, and is no longer than the store |
| `Queries.SearchEmptyText` | app.py:26-32 | when every trade has a counterparty, searching for the empty text returns every stored trade in insertion order |
| `Queries.TwoTradeExample` | app.py:17-55 | for a buy at 10 and a sell at 50: lower price bound 20 gives just the sell, side "BUY" gives just the buy, and an id never stored is not found |
| `Trades.Satisfies` | app.py:46-53 | definition: the filter condition, the conjunction of exact asset class, `trade_date_time <= end`, `price <= max_price`, `price >= min_price`, `trade_date_time >= start` and exact buy/sell side, each skipped when its criterion is `None` |
| `Trades.LacksCounterparty` | app.py:27 | definition: the trade's counterparty is `None`, the case in which `search_text in trade.counterparty` raises |
| `Trades.MatchesText` | app.py:26-31 | definition: the search condition, the text is contained in the counterparty, the instrument id, the instrument name or the trader |
| `Trades.MatchesTextMeaning` | app.py:26-31 | the search test on a trade with a counterparty is substring containment in at least one of the four searched fields |
| `Trades.EmptyTextMatches` | app.py:26-31 | the empty text passes the search test of every trade |
| `Substring.Contains` | app.py:27-30 | definition: Python's `in` on two strings, trying each start position from the left |
| `Substring.ContainsIsSubstring` | app.py:27-30 | the computable containment test holds if and only if the needle occurs at some position of the string (Python's `in` on strings) |
| `Substring.EmptyContained` | app.py:27-30 | the empty string is contained in every string |
| `Selection.Keep` | app.py:44-55 | an order-preserving filter returns no more elements than its input, and each of them passes the test |
| `Selection.KeepSelectsInOrder` | app.py:44-55 | the filter's answer consists of exactly the positions that pass, listed in strictly increasing order |
| `Selection.KeepConjunction` | app.py:46-53 | filtering by a conjunction equals filtering by one conjunct and then by the other |
| `Selection.FirstIndex` | app.py:18-21 | the first-match scan finds nothing exactly when no element passes; otherwise it gives a position that passes, and every earlier position fails |
| `Selection.FirstIndexSnoc` | app.py:14-21 | appending an element never moves an existing first match; the new element becomes the first match only when there was none before and it passes |

## Left out

- The web layer is not modelled: the routes `create_trade` (app.py:79-82) and `get_trades` (app.py:85 on). It is HTTP plumbing around the store.
- Pydantic validation and JSON field aliases (app.py:61-75) are not modelled. They belong to a foreign library, and only the record shape is kept.
- The module-level singleton `db = Database()` (app.py:57) is not modelled. The model uses an explicit store object instead.
- Concurrent access is not modelled. The code has no synchronisation, and every operation here is a single sequential call.
- Floating-point behaviour of `price` is not modelled, including NaN, which fails every comparison. Prices are reals.
- Real `datetime` values are replaced by integer timestamps, including time-zone-aware versus naive comparison, which raises in Python.
- Trade aliasing is not modelled. The source stores the caller's own `Trade` object (app.py:15) and returns references to stored objects (app.py:20, app.py:32, app.py:54), and pydantic models are mutable. A caller can therefore change a stored trade, such as its `trade_id`, without calling `add_trade`, and later queries see the change. The model stores trades as immutable values. Its claims that queries leave the store unchanged, and that repeated lookups agree, hold only when no caller modifies a trade object it holds.
- Python's dynamic typing is not modelled; the model's parameters are typed. In the source, a range bound (`start`, `end`, `min_price`, `max_price`) of a type that cannot be ordered against the field raises at app.py:48-51. So does a non-string search text at app.py:27-30. An `int` price bound is accepted and compared as a number. A wrong-typed `asset_class` or `trade_type` raises nothing: the `==` at app.py:47 or app.py:52 is False, so the filter selects no trade.
