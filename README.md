# Trade query service — Dafny model

The service is a read-only query layer over a fixed, ordered list of trade
records. It has two queries:

- **Listing** (`GET /trades`). This applies at most one filter. The filter is chosen by a fixed priority
  over seven optional parameters: search text, asset class, trade type, a price range,
  minimum price, maximum price, start date and end date. The chosen filter keeps
  the passing trades in collection order. If it keeps none, the request fails
  with a 404 that names the filter's category.
- **Lookup by identifier** (`GET /trades/{trade_id}`). This returns the first trade
  whose id equals the given one exactly, or fails with "Trade not found".

The free-text search is case-insensitive. A trade matches when the search text
is a substring of its counterparty, instrument id, instrument name or trader.

The model is written in the source's own form, which is pure. The records are
datatypes. The list comprehensions and the lookup loop are recursive functions
over `seq<Trade>`. The HTTP 404 is the `NotFound` variant of a `Result`.

Files:

- `trades.dfy` (module `Trades`): the `Trade` and `TradeDetails` records,
  ASCII lower-casing, Python's substring test `needle in hay` (`Contains`),
  and `Trade.matches_search` (`MatchesSearch`).
- `trade_query.dfy` (module `TradeQuery`): the query parameters, the
  if/elif chain that picks the filter (`SelectCriterion`), the
  comprehension (`Matching`), the listing endpoint (`GetTrades`) and the
  lookup (`GetTradeById`), with the lemmas about them.
- `subsequences.dfy` (module `Subsequences`): order-preserving
  subsequences. These give the meaning of "keeps the trades in their
  original order".
- `seed_trades.dfy` (module `SeedTrades`): the five records the service
  starts with, and concrete answers to queries on them.

Records and data, which are datatypes and constants rather than functions:

- `Trades.TradeDetails` and `Trades.Trade` are the pydantic records of
  main.py:10-24. The Python field names in snake case become camel case.
- `SeedTrades.T1` to `SeedTrades.T5` and `SeedTrades.Seed` are the five
  starting trades of main.py:44-100, with the same values and order.
- `TradeQuery.TradeNotFound` is the lookup's 404 detail of main.py:194.

Modelling choices:

- Timestamps are integers. Only `>=` and `<=` are applied to them. The seed
  records use `YYYYMMDDhhmmss`, which keeps chronological order.
- Prices are `real`. They are compared but never computed with.
- Each optional parameter is an `Option`. Python truthiness is written out:
  - `IsGiven` makes `Some("")` count as absent for search, assetClass and
    tradeType.
  - `IsNonZero` makes `minPrice == 0` fail the range branch's guard.
- The exact meaning of a filter is `IsExactFilter`. The result is an
  order-preserving subsequence of the collection. It keeps every copy of
  each passing trade and no copy of any other. `ExactFilterUnique` proves
  that this property determines the list.

Behaviour of `main.py` that is easy to misread, modelled as the code has it:

- On a filter that keeps nothing, the code raises a 404. It never falls
  back to the full list. The closing `matching if matching else trades`
  (main.py:186) is kept as written, but it can only ever return the
  filtered list or, with no filter, the collection itself.
- `minPrice=1200&maxPrice=2000` returns trades 3, 4 and 5 (prices 2000,
  1500 and 1200), not trade 1, which costs 1000. See `SeedPriceRange`.
- `search=sbi` matches trade 5 as well as trades 2 and 3 (counterparty
  "SBI Bank"), because trade 5's instrument id is "SBIN". See
  `SeedSearch`.

## Model

| member | source | states |
|---|---|---|
| `Trades.LowerChar` | main.py:33 | definition of `str.lower()` on one character, for the ASCII letters A-Z only: upper-case letters map to their lower-case forms and every other character is kept |
| `Trades.Lower` | main.py:33 | definition of `str.lower()` on a string, character by character with `LowerChar`; the length is unchanged |
| `Trades.Contains` | main.py:33-39 | Python's `needle in hay`: true exactly when `needle` occurs at some position of `hay` (the empty needle occurs everywhere) |
| `Trades.MatchesSearch` | main.py:26-41 | true exactly when the lower-cased search text is a substring of the lower-cased counterparty, instrument id, instrument name or trader; false otherwise |
| `Trades.MatchesSearchIgnoresCase` | main.py:33-39 | the search gives the same answer for a text and its lower-cased form |
| `Trades.MatchesSearchOfFieldSlice` | main.py:33-39 | any slice of any of the four searched fields, typed in any letter case, matches the trade |
| `Trades.AbsentLetterNotFound` | main.py:33-39 | a search text is not found, in any letter case, in a field that lacks one of its letters in every case |
| `Trades.MatchesEmptySearch` | main.py:33-41 | the empty text matches every trade, which is why the empty string has to be excluded by the truthiness guard |
| `Trades.LowerIdempotent` | main.py:33 | lower-casing an already lower-cased text changes nothing |
| `TradeQuery.Holds` | main.py:131-181 | definition of each branch's per-trade test: the search test, equality of the asset class, equality of the buy/sell indicator, price from low to high inclusive, price at least the minimum, price at most the maximum, timestamp at or after start, timestamp at or before end |
| `TradeQuery.NotFoundDetail` | main.py:135-184 | definition of the eight 404 detail strings of main.py:135-184, one per branch |
| `TradeQuery.NotFoundDetailIdentifiesFilter` | main.py:135-194 | two filters report the same 404 detail exactly when they come from the same branch, and no listing detail equals the lookup's "Trade not found" |
| `TradeQuery.IsGiven` | main.py:130-144 | definition of Python truthiness of an optional string: absent and the empty string are both false |
| `TradeQuery.IsNonZero` | main.py:151 | definition of Python truthiness of an optional float: absent and 0.0 are both false |
| `TradeQuery.Candidates` | main.py:130-184 | definition of the priority table (its contract states only that it has eight entries): one entry per branch in the chain's order, each present exactly when that branch's guard holds |
| `TradeQuery.FirstActive` | main.py:130-184 | the first present entry of a priority list: absent exactly when every entry is absent, otherwise an entry all of whose predecessors are absent |
| `TradeQuery.SelectCriterion` | main.py:130-184 | no filter is selected exactly when search, assetClass and tradeType are absent or empty and minPrice, maxPrice, start and end are all None |
| `TradeQuery.SelectCriterionIsFirstActive` | main.py:130-184 | the if/elif chain selects the first active entry of the priority table search, assetClass, tradeType, (non-zero minPrice and maxPrice), minPrice, maxPrice, start, end |
| `TradeQuery.Matching` | main.py:131-181 | definition of the list comprehension `[trade for trade in trades if <test>]`; its properties are the lemmas below |
| `TradeQuery.MatchingSound` | main.py:131-181 | every trade a filter keeps satisfies that filter's test |
| `TradeQuery.MatchingComplete` | main.py:131-181 | every trade of the collection that satisfies the filter's test is kept |
| `TradeQuery.MatchingIsSubsequence` | main.py:131-181 | a filter's result keeps the collection's order: it is a subsequence of the collection |
| `TradeQuery.MatchingMultiset` | main.py:131-181 | a filter's result holds every copy of each passing trade and no copy of any other |
| `TradeQuery.MatchingIsExact` | main.py:131-181 | a filter's result is an order-preserving subsequence of the collection that keeps every copy of each passing trade and no copy of any other |
| `TradeQuery.ExactFilterUnique` | main.py:131-181 | any list that is an exact filter of the collection equals the comprehension's result, so the property above pins the result down completely |
| `TradeQuery.MatchingEmptyIff` | main.py:133-184 | a filter keeps nothing exactly when no trade of the collection passes its test |
| `TradeQuery.GetTrades` | main.py:128-186 | with no filter selected the answer is the whole collection unchanged; with a filter, a 404 happens exactly when no trade passes, and it carries that filter's detail message; a success is non-empty, holds only passing trades and holds every passing trade |
| `TradeQuery.GetTradesIsExactFilter` | main.py:128-186 | every successful listing is an order-preserving subsequence of the collection; under a filter it is exactly the passing trades |
| `TradeQuery.SameSelectionSameAnswer` | main.py:130-186 | two requests that select the same filter get the same answer |
| `TradeQuery.OnlySelectedParametersMatter` | main.py:130-184 | a request answers exactly like the request that carries only the selected filter's parameters; every other parameter is ignored |
| `TradeQuery.NoParametersReturnsAll` | main.py:128-186 | with no parameters the answer is the whole collection, in order |
| `TradeQuery.EmptyTextIsAbsent` | main.py:130-144 | an empty search, assetClass or tradeType string gives the same answer as leaving that parameter out |
| `TradeQuery.ZeroMinPriceIgnoresMaxPrice` | main.py:151-163 | with minPrice 0 the range branch is never taken and maxPrice has no effect on the answer; when search, assetClass and tradeType are absent or empty, the minPrice-only filter with bound 0 is selected |
| `TradeQuery.RangeIsInclusive` | main.py:151-156 | when the range branch is reached and some trade is priced within it, the answer succeeds and holds exactly the trades priced from minPrice to maxPrice, both ends included |
| `TradeQuery.GetTradeById` | main.py:189-194 | the answer is "Trade not found" exactly when no trade has the id; otherwise it is a trade with exactly that id, and no earlier trade has that id |
| `TradeQuery.LookupFindsEveryTrade` | main.py:191-193 | when ids are unique, looking up any trade's id returns that trade |
| `SeedTrades.SeedLookup` | main.py:44-100 | each of the five seed trades is returned by a lookup of its own id |
| `SeedTrades.SeedLookupUnknown` | main.py:189-194 | the id "6", which no seed trade carries, gives "Trade not found" |
| `SeedTrades.SeedAssetClass` | main.py:137-142 | assetClass=Equity returns only trade 1 |
| `SeedTrades.SeedTradeType` | main.py:144-149 | tradeType=SELL returns trades 2 and 4, in that order |
| `SeedTrades.SeedPriceRange` | main.py:151-156 | minPrice=1200 with maxPrice=2000 returns trades 3, 4 and 5; both ends are included |
| `SeedTrades.SeedZeroMinPrice` | main.py:151-163 | minPrice=0 with maxPrice=1500 returns all five trades, including trade 2 at price 3000 |
| `SeedTrades.SeedStart` | main.py:172-177 | start=2023-04-25T00:00:00 returns trades 3, 4 and 5 |
| `SeedTrades.SeedEndNotFound` | main.py:179-184 | end=2023-01-01T00:00:00 (timestamp 20230101000000), before every seed trade, gives the end filter's 404 message "No trades match the end criteria" |
| `SeedTrades.SeedSearchMatchesSbin` | main.py:33-39 | search text "sbi" matches trade 5 through its instrument id "SBIN" |
| `SeedTrades.SbiBankMatchesSbi` | main.py:33-39 | search text "sbi" matches trades 2 and 3 through their counterparty "SBI Bank" |
| `SeedTrades.T1MissesSbi` | main.py:33-41 | search text "sbi" matches none of trade 1's four searched fields |
| `SeedTrades.T4MissesSbi` | main.py:33-41 | search text "sbi" matches none of trade 4's four searched fields |
| `SeedTrades.SeedSearch` | main.py:130-135 | search=sbi returns trades 2, 3 and 5, in that order |

## Left out

- HTTP transport is not modelled: FastAPI routing, decorators, `async`, and status codes (a 404 is the `NotFound` variant). The `root` endpoint (main.py:103-105) and the catch-all path handler (main.py:197-199) are also left out, because they return fixed payloads and have no logic.
- Pydantic validation and serialisation are not modelled. Neither is the framework's coercion of query strings into `datetime` and `float`. Both happen before `get_trades_search_filter` runs.
- Timestamp semantics are reduced to integer order. The model does not cover Python's `TypeError` when a timezone-aware timestamp is compared with a naive one.
- Float semantics are reduced to real numbers. NaN and `-0.0` are not modelled (`-0.0` is falsy like `0.0`; NaN is truthy but fails every comparison).
- `str.lower()` is modelled only for the ASCII letters A-Z. Full Unicode case mapping, including mappings that change a string's length, is not modelled.
- The `quantity` field is carried in the record, but no query reads it.
