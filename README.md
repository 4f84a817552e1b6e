# Fantasy stock-trading leaderboard: trade accounting and ranking

This project models the two pieces of business logic in a fantasy stock-trading web
application. Users start with 1,00,000 of virtual cash, buy and sell equities at
quoted prices, and are ranked by their return.

- **Trade execution and portfolio accounting** (`pages/api/trades.js`). A POST does
  these steps in order:
  - It fetches a live price first and stops before any change if that fails.
  - It looks up the user and stops if the user is missing.
  - It refuses a buy that costs more than the wallet holds.
  - It debits the wallet on a buy and credits it on anything else.
  - It updates the portfolio array in place. An unknown symbol is appended. A buy on a
    held symbol recomputes the weighted-average cost. A sell on a held symbol lowers the
    quantity and splices the entry out when the quantity reaches exactly 0.
  - It appends one trade record.

  GET lists the caller's own trades, newest first. DELETE removes one record whose id
  and owner both match, and never touches a wallet or a portfolio.
- **Leaderboard ranking** (`pages/api/leaderboard.js`). Each user's total value is the
  wallet plus quantity × average price summed over the portfolio. The return is
  `(totalValue − 100000) / 100000 × 100`. Entries are sorted by return, highest first,
  with a stable sort.

Modules:
- `Seqs` (`seqs.dfy`): generic `findIndex`, filter, `splice(i, 1)` and the stable
  descending sort, with its sortedness, permutation and stability proofs.
- `Holdings` (`holdings.dfy`): the accounting rules as functions of the old wallet and
  portfolio (`WalletAfter`, `Bought`, `Rebalanced`), with lemmas for each case.
- `Trades` (`trades.dfy`): the user document as a class `User` whose `walletBalance` and
  `portfolio` are updated in place by `ApplyTrade`. The trade collection is a class
  `TradeLog` with `Create`, `ListFor` and `Delete`. `Post` is the POST branch and
  `Handle` is the whole handler.
- `Leaderboard` (`leaderboard.dfy`): valuation, return, ranking. It also has lemmas on
  how an executed trade moves a user's total value.

The code is more permissive than a trading ledger usually is, and the model follows
the code as written:
- The code never checks holdings on a sell, so there is no "no position" or
  "insufficient shares" error.
- A held quantity may go negative. On a negative holding, a buy's weighted-average
  rule can put the new average outside the range between the old average and the buy
  price. That is why the average is bounded only for holdings that are not negative.
- Selling a symbol that is not held opens a position of the sold quantity at the sale
  price.
- Any `type` other than the exact string `"buy"` is treated as a sell.

The server checks neither `quantity > 0` nor `price > 0`. The model assumes both, as
preconditions. Only the quantity field of the client form carries `min="1"`. The
price comes from the quote service, which returns any price string it gets, parsed
as a number; a positive price is an assumption about that service.

## Model

| member | source | states |
|---|---|---|
| `Seqs.FindIndex` | pages/api/trades.js:72 | the result is -1 exactly when no element satisfies the predicate; otherwise it is the first index that does |
| `Seqs.Filter` | pages/api/trades.js:23 | every kept element satisfies the predicate and comes from the input; every input element satisfying it is kept |
| `Seqs.FilterCounts` | pages/api/trades.js:23 | every element satisfying the predicate is kept exactly as many times as it occurs in the input, and no element occurs more often than in the input |
| `Seqs.RemoveAt` | pages/api/trades.js:83 | `splice(i, 1)`: one element shorter, the elements before `i` unchanged, those after shifted down by one, the multiset loses exactly `s[i]` |
| `Seqs.InsertSorted` | pages/api/leaderboard.js:23 | inserting one element into a sequence ordered by non-increasing key keeps it ordered |
| `Seqs.SortDesc` | pages/api/leaderboard.js:23 | the descending comparator sort: same length, a permutation (multiset equality), ordered by non-increasing key |
| `Seqs.SortDescStable` | pages/api/leaderboard.js:23 | stability: for every key value, the elements with that key appear in the output in their input order |
| `Holdings.Accepted` | pages/api/trades.js:62 | a sell is always accepted; a buy is accepted exactly when the wallet after the debit is not negative |
| `Holdings.WalletAfter` | pages/api/trades.js:66-70 | a buy lowers the wallet by exactly quantity × price, anything else raises it by exactly that amount (the old wallet is recovered by undoing the move) |
| `Holdings.Bought` | pages/api/trades.js:77-79 | the symbol is kept and the quantity grows by the amount bought; when the new quantity is 0 the old average is kept |
| `Holdings.BoughtKeepsCost` | pages/api/trades.js:77-79 | whenever the new quantity is not 0, new quantity × new average = old quantity × old average + quantity × price: a buy conserves cost |
| `Holdings.Rebalanced` | pages/api/trades.js:72-84 | the portfolio grows or shrinks by at most one entry; each case is stated by `RebalanceOthersUnchanged`, `RebalanceUnheld`, `RebalanceBuyHeld`, `RebalanceSellHeld` and `RebalanceKeepsDistinct` |
| `Holdings.RebalanceOthersUnchanged` | pages/api/trades.js:72-84 | a trade touches only the entry of its own symbol: every entry for another symbol is kept, and none appears that was not there |
| `Holdings.WalletMoves` | pages/api/trades.js:61-70 | an accepted buy lowers the wallet by exactly quantity × price and leaves it ≥ 0; any other type raises it by exactly that amount; a non-negative wallet stays non-negative |
| `Holdings.ExactBalanceAccepted` | pages/api/trades.js:62 | a buy costing exactly the wallet balance passes the check (`<` is strict) and leaves the wallet at 0 |
| `Holdings.RebalanceUnheld` | pages/api/trades.js:72-74 | a symbol not in the portfolio is appended as `{symbol, quantity, averagePrice: price}` after all earlier entries, for a buy and for a sell alike |
| `Holdings.RebalanceBuyHeld` | pages/api/trades.js:76-79 | a buy on a held symbol sets its quantity to old + q and its average to (oldAvg·oldQ + price·q)/(oldQ + q); all other entries are unchanged |
| `Holdings.BuyAverageBetween` | pages/api/trades.js:77-79 | when the held quantity is not negative, the new average lies between the old average and the buy price |
| `Holdings.NegativeHoldingAverageOutside` | pages/api/trades.js:77-79 | holding −5 at 10 and buying 10 at 20 gives an average of 30, above both prices, so the bound for a non-negative holding cannot be extended to a negative one |
| `Holdings.RebalanceSellHeld` | pages/api/trades.js:80-84 | a sell on a held symbol lowers its quantity by q and keeps its average. The entry is removed exactly when the new quantity is 0, keeping the order of the rest. Otherwise it is kept, even with a negative quantity |
| `Holdings.RebalanceKeepsDistinct` | pages/api/trades.js:72-84 | if portfolio symbols are pairwise distinct before a trade they are distinct after it |
| `Holdings.TwoBuysAverage` | pages/api/trades.js:76-79 | buying 10 at 100 and then 10 at 200 holds 20 at an average of 150 |
| `Holdings.SellAllRemoves` | pages/api/trades.js:81-84 | in any portfolio with one entry per symbol, selling exactly the held quantity of a symbol leaves no entry for it |
| `Holdings.SellAllExample` | pages/api/trades.js:81-84 | selling the whole of the only position empties the portfolio |
| `Trades.StatusCode` | pages/api/trades.js:10-96 | the answers map to the statuses the handler sends: 2xx exactly for a listing, a deletion and an executed trade; 401 exactly for a refused token; 404 exactly for a missing trade or user; 400 exactly for a missing id, an unavailable price and an insufficient balance; no status when no response is sent |
| `Trades.User.ApplyTrade` | pages/api/trades.js:61-86 | accepted exactly when not (buy and wallet < quantity × price). When refused, wallet and portfolio are unchanged. Otherwise the new wallet and portfolio are `WalletAfter` and `Rebalanced` of the old ones. A non-negative wallet with distinct symbols stays so |
| `Trades.TradeLog.Create` | pages/api/trades.js:89-95 | appends exactly one record with the user, symbol, quantity, price, type and timestamp given, under an id no earlier record has, and advances the id counter by one |
| `Trades.TradeLog.ListFor` | pages/api/trades.js:20-24 | the caller's listing holds only records whose owner is the caller and every such record. It is a permutation of the filtered log, ordered by non-increasing timestamp |
| `Trades.TradeLog.Delete` | pages/api/trades.js:30-46 | a missing id gets 400. Otherwise the call reports deleted exactly when some record matches both id and owner, and then removes that one record. When an id is given and nothing matches, it reports not found (404, never the missing-id 400) and the log is unchanged. With distinct ids no matching record remains |
| `Trades.Post` | pages/api/trades.js:48-96 | a failed price fetch, a missing user or a refused buy returns its error with the wallet, portfolio and log unchanged. The price is checked before the user. A success updates wallet and portfolio as the rules say and appends exactly the returned record |
| `Trades.Handle` | pages/api/trades.js:7-97 | without a valid token the answer is 401 and nothing changes. GET and DELETE never change a wallet or a portfolio, and GET does not change the log. GET answers with the caller's listing. DELETE without an id answers 400. Otherwise it reports deleted exactly when a record matches both id and owner, and removes exactly that record; any other DELETE answer leaves the log unchanged. For POST: a missing price gives the price error, and with a price, a missing user gives 404. Every POST that does not execute leaves wallet, portfolio and log unchanged. With a price and a user, the trade executes exactly when the balance check accepts it; a refused buy answers the insufficient-balance 400. A DELETE with an id that matches nothing answers 404. An executed trade's record is exactly the next id, the caller, the symbol, quantity and type requested, the quoted price and the current time; it is appended to the log, and leaves wallet and portfolio as `WalletAfter` and `Rebalanced` of the old ones |
| `Leaderboard.ToEntry` | pages/api/leaderboard.js:13-22 | name, wallet and portfolio are copied. The total value is the wallet plus Σ quantity × averagePrice. roi·100000 = (totalValue − 100000)·100 |
| `Leaderboard.Entries` | pages/api/leaderboard.js:13-22 | one entry per user, in user order |
| `Leaderboard.Ranked` | pages/api/leaderboard.js:13-23 | same length as the user list, a permutation of the per-user entries, ordered by non-increasing roi |
| `Leaderboard.HoldingsValue` | pages/api/leaderboard.js:14 | a portfolio whose quantities and average prices are all non-negative has a non-negative value |
| `Leaderboard.Roi` | pages/api/leaderboard.js:15 | roi × 1000 = totalValue − 100000; positive exactly above the starting balance, 0 exactly at it |
| `Leaderboard.HoldingsValueIsSum` | pages/api/leaderboard.js:14 | the left-fold `reduce` equals the sum of quantity × averagePrice over the portfolio |
| `Leaderboard.EmptyPortfolioValue` | pages/api/leaderboard.js:14 | an empty portfolio gives totalValue == walletBalance |
| `Leaderboard.StartingUserRoiZero` | pages/api/leaderboard.js:15 | a user with the starting 100000 and no positions has roi exactly 0 |
| `Leaderboard.RoiOrder` | pages/api/leaderboard.js:15 | roi > 0 iff totalValue > 100000, roi == 0 iff totalValue == 100000, and roi is strictly increasing in totalValue |
| `Leaderboard.RankedEntriesCopyUsers` | pages/api/leaderboard.js:16-22 | every ranked entry is the entry of some user |
| `Leaderboard.RankedStable` | pages/api/leaderboard.js:23 | entries with equal roi keep their input order |
| `Leaderboard.RankedByTotalValue` | pages/api/leaderboard.js:15-23 | an entry ranked above another has a total value at least as large |
| `Leaderboard.RankingExample` | pages/api/leaderboard.js:23 | returns of 5, 20, 20 and −3 rank as the two 20s in input order, then 5, then −3 |
| `Leaderboard.BuyKeepsTotalValue` | pages/api/trades.js:66-79 | an accepted buy, of a new symbol or of a held one, leaves wallet + holdings at cost unchanged. The exception is a buy that brings a negative holding back to exactly 0 |
| `Leaderboard.SellHeldRealisesGain` | pages/api/trades.js:68-84 | a sell of a held symbol changes wallet + holdings at cost by exactly quantity × (price − averagePrice), whether or not the entry is spliced out |
| `Leaderboard.SellUnheldDoublesProceeds` | pages/api/trades.js:68-74 | a sell of a symbol not held raises wallet + holdings at cost by 2 × quantity × price: the wallet is credited and a position is opened |

## Left out

- Holdings.Bought: a buy that brings a negative holding back to exactly 0 divides by zero at pages/api/trades.js:79. In JavaScript that stores NaN or ±Infinity as `averagePrice`. The model has no non-finite numbers and keeps the old average in that case.
- Holdings.RebalanceBuyHeld: excludes the buy that brings a negative holding back to exactly 0, where the source divides by zero (see `Holdings.Bought`).
- Holdings.BoughtKeepsCost: excludes the same case, for the same reason.
- Leaderboard.BuyKeepsTotalValue: excludes the same case, for the same reason; there the source's total value would not be a finite number.
- Trades.TradeLog.ListFor: the database sort by timestamp promises no order among equal timestamps. The model keeps log order for ties. Its contract promises only the order by timestamp and the permutation.
- Token handling (the `Authorization` header and JWT verification, lines 8-17) is reduced to an optional caller id: `None` stands for a missing or invalid token.
- Persistence is not modelled: `dbConnect`, `User.findById`, `user.save`, `Trade.create`, `Trade.find`, `Trade.findOne` and `deleteOne`. The user found by id is a `User?` parameter. The trade collection is the in-memory `TradeLog`. Record ids come from a counter. The schemas' validation is not modelled; for example, the `type` enum would reject a record whose type is neither buy nor sell. The window between saving the user and creating the record is not modelled either.
- The three `catch` branches that answer 500 on a database failure are not modelled; they are I/O failures.
- The price service (`lib/stockApi.js`, a network fetch plus `parseFloat`) is an `Option<real>` parameter. `Date.now` is the `now` parameter.
- Request bodies are typed. A `quantity` sent as a string, which JavaScript would concatenate with `+=`, is outside the model.
- Numbers are exact reals, not IEEE-754 doubles, so no result is claimed to be float-exact.
- Concurrent requests for the same user, and the lost updates they can cause, are not modelled; the handler has no locking.
- The React pages, registration, login, profile updates and matchups are not part of this model. They are UI code and thin database CRUD.
