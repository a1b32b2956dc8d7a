# Finance: ledger-based portfolio accounting

This project models the accounting core of a stock-trading simulator, a
Flask web application. Users register, get a cash balance, buy and sell
shares at quoted prices, and view their portfolio and their transaction
history.

The database has two tables. `users` holds each user's name, password hash
and cash balance. `transactions` is an append-only ledger. Each row has a
user, a symbol, a share count, a per-share price, a type (`BUY` or `SELL`)
and a timestamp. Holdings are never stored. The shares a user owns in a
symbol are always recomputed as a signed sum over that user's rows: a `BUY`
adds its shares and a `SELL` subtracts them.

- `ledger.dfy` (module `Ledger`) holds the pure part:
  - the row type;
  - the signed-sum aggregation `Owned`, plus the cash flow `CashFlow`;
  - the grouped holdings `Holdings` and the history filter `UserTransactions`;
  - the holdings query as it is actually written (see Findings).
- `finance.dfy` (module `Finance`) holds the class `Database`. Its fields
  are the users map, the next user id and the ledger. It has the request
  handlers:
  - `Register`, `Buy` and `Sell` change the state;
  - `Portfolio`, `SellableSymbols` and `History` read the state, with the
    loops of the portfolio, sell-form and history pages.
- `scenarios.dfy` (module `Scenarios`) is a client. It replays a trading
  session using only the handlers' contracts: a buy, a refused oversell,
  selling everything, and refused quantities, symbols, balances and names.

The class invariant `Database.Valid` holds after every handler. It says:
- usernames are unique;
- every cash balance is non-negative;
- every balance equals the starting balance plus the user's net cash flow in
  the ledger;
- every ledger row holds at least one share and belongs to a user;
- no user's net position in any symbol is negative.

Every refused request leaves the users table and the ledger unchanged.

Amounts (cash, prices, totals) are integers in the smallest currency unit.
Quoted prices are non-negative (`nat`).

## Model

| member | source | states |
|---|---|---|
| `Finance.Database.Valid` | app.py:207-291 | The class invariant every handler keeps: usernames unique (app.py:111-113), every row holds at least one share (app.py:207-208, 256-257), every balance is the starting balance plus the user's net cash flow (app.py:223, 285) and never negative (app.py:219), and no net position is negative (app.py:278). |
| `Finance.Database.constructor` | app.py:106 | A new database has no users and an empty ledger; every user it registers will start with the given balance (the column default). |
| `Finance.Database.Register` | app.py:79-113 | Rejects, in the code's order, an empty username, password or confirmation, a confirmation that differs from the password, and a username already taken; a rejection adds no user. On success, adds exactly one user with a fresh id, the given hash and the starting balance, and keeps usernames unique. |
| `Finance.Database.Buy` | app.py:189-231 | Rejects, in the code's order, an empty symbol, a failed lookup, a non-integer quantity, a quantity below 1, and a cost `qty * price` above the user's cash; every rejection leaves users and ledger unchanged. Succeeds exactly when none of these applies: cash drops by exactly `qty * price`, exactly one `BUY` row with `shares = qty` and the looked-up price is appended, the owned count for that symbol rises by `qty`, every other count is unchanged, and the invariant (cash >= 0, no short position) still holds. |
| `Finance.Database.Sell` | app.py:240-295 | Same validation as Buy up to the quantity, then rejects when the net owned count (0 when the user has no rows) is below `qty`; rejections change nothing. Succeeds exactly when `qty <= owned`: cash rises by exactly `qty * price`, one `SELL` row is appended, and the owned count becomes `owned - qty`, which is never negative. |
| `Finance.Database.Record` | app.py:223-228 | The cash update and the ledger insert of one trade, as one unit: the user's cash changes by the row's cost or proceeds, the row is appended, and every owned count changes by the row's signed delta for its own user and symbol only. |
| `Finance.Credit` | app.py:285 | The `UPDATE users SET cash = cash + ?` of one user: that user's cash moves by exactly the amount, their name and hash stay, and every other user is unchanged. |
| `Finance.Database.Portfolio` | app.py:122-163 | Fails exactly when some holding's quote cannot be resolved. Otherwise there is one row per holding, in holdings order. Each row has the holding's net shares (which are > 0 and equal the owned count), the quoted price and `total = shares * price`. Every symbol with a positive owned count gets a row. `grand_total = cash + sum of totals`, so it is at least `cash`. |
| `Finance.PriceAll` | app.py:141-156 | The portfolio loop, over any rows with non-negative share counts (zero-share rows of the query as written included): prices each holding in turn, gives each row `total = shares * price`, and accumulates the stock value as the sum of the rows' totals (never negative); the first unresolvable quote fails the page. |
| `Finance.TotalValue` | app.py:142-147 | The accumulated stock value is non-negative when every row's total is. |
| `Finance.Database.SellableSymbols` | app.py:297-317 | The sell form lists a symbol exactly when the user's net owned count of it is greater than 0, and lists no symbol twice. |
| `Finance.Database.History` | app.py:321-342 | One history row per ledger row of the user, in ledger order; each row carries that entry's symbol, shares, price, type and timestamp, and `total = shares * price`. |
| `Ledger.OwnedAppend` | app.py:264-273 | Appending a row changes the net owned count of its own user and symbol by +shares (BUY) or -shares (SELL), and no other count. |
| `Ledger.OwnedConcat` | app.py:130-136 | The signed sum is additive over any split of the ledger. |
| `Ledger.OwnedPermutation` | app.py:130-136 | Derivation determinism: two ledgers with the same rows in any order give every user the same owned count for every symbol. |
| `Ledger.Delta` | app.py:131 | The `CASE WHEN type = 'BUY' THEN shares ELSE -shares END` of one row: its magnitude is the row's share count, positive only for a BUY and negative only for a SELL. |
| `Ledger.CashDelta` | app.py:210-223 | The cash effect of one row: `shares * price` against the direction of the share movement, so a BUY never adds cash and a SELL never removes it. |
| `Ledger.Owned` | app.py:264-278 | The `SUM(CASE ...)` of one user's rows for one symbol; a user with no such rows owns 0 shares (the SQL sum is NULL, which the sell check treats as nothing owned). |
| `Ledger.BuyThenSellCancels` | app.py:264-270 | A BUY followed by a SELL of the same number of shares of the same symbol leaves every owned count as it was, whatever the two prices. |
| `Ledger.AppendKeepsNoShortPosition` | app.py:278-291 | If the appended row keeps its own user and symbol at zero or above, no user is short of any symbol afterwards. |
| `Ledger.CashFlowAppend` | app.py:223-227 | Appending a row moves its user's net cash flow by the row's proceeds (SELL) or minus its cost (BUY), and no one else's. |
| `Ledger.CashFlowWithoutEntries` | app.py:105-107 | A user without ledger rows, such as a newly registered one, has had no cash flow, so their cash is the starting balance. |
| `Ledger.Symbols` | app.py:130-136 | The groups of `GROUP BY symbol`: no symbol twice, and only symbols the user has rows for. |
| `Ledger.SymbolsComplete` | app.py:130-136 | Every symbol the user has a row for is one of the groups. |
| `Ledger.OwnedNonZeroIsTraded` | app.py:130-136 | A symbol with a non-zero net count is one of the user's groups. |
| `Ledger.Keep` | app.py:301-307 | The `HAVING SUM(...) > 0` filter: keeps a group exactly when its net sum is positive, with that sum, and keeps distinct groups distinct. |
| `Ledger.Holdings` | app.py:301-307 | The net-sum grouping `GROUP BY symbol HAVING SUM(...) > 0`: every listed symbol carries its net owned count, which is greater than 0, and no symbol is listed twice. |
| `Ledger.HoldingsExact` | app.py:301-307 | Holdings list a symbol if and only if its net owned count is greater than 0; a fully sold symbol is absent. |
| `Ledger.UserTransactions` | app.py:326-327 | The user's rows: only rows of that user, and every row of that user. |
| `Ledger.UserTransactionsCounts` | app.py:326-333 | One history row per ledger row of the user: each of the user's rows appears exactly as often as in the ledger, and no other user's row appears. |
| `Ledger.UserTransactionsAppend` | app.py:326-333 | Appending a row of the user appends it to the user's history, and appending another user's row leaves it unchanged. |
| `Ledger.LastShares` | app.py:135 | The raw `shares` column the filter as written reads: when positive, it is the share count of one of the group's rows; with no rows it is 0. |
| `Ledger.KeepAsWritten` | app.py:135 | The filter as written: it keeps a group exactly when that raw column is positive, listing it with its net sum. |
| `Ledger.HoldingsAsWritten` | app.py:130-136 | The index query as written: every listed symbol is one of the user's groups and carries its net sum, which may be 0. |
| `Ledger.LastSharesOfTraded` | app.py:135 | When every row holds at least one share, the raw `shares` column that the as-written filter tests is at least 1 for every traded symbol. |
| `Ledger.KeepAsWrittenKeepsAll` | app.py:130-136 | The filter as written drops no group of traded symbols: it keeps every one, each with its net sum. |
| `Ledger.HoldingsAsWrittenListsEveryGroup` | app.py:130-136 | The index query as written lists every symbol the user ever traded, with its net sum, zero included. |
| `Ledger.SoldOutStillListed` | app.py:135 | Counterexample: after buying 10 AAPL and selling 10 AAPL, the query as written lists AAPL with 0 shares, and the net-sum filter lists nothing. |

## Findings

| source | as written | input that shows it | evidently intended | confidence | as-written member | corrected member |
|---|---|---|---|---|---|---|
| app.py:135 | `HAVING shares > 0`. The name `shares` is both the alias of the net sum and a column of `transactions`. In this position SQLite resolves it to the column, whose value comes from one row of the group. Every row holds at least one share, so no traded symbol is ever filtered out. | Buy 10 AAPL, then sell 10 AAPL. The portfolio page still lists AAPL, with 0 shares and a 0 total. It also still looks up AAPL's quote. | Keep only symbols whose net sum is greater than 0, as the sell form's query does at app.py:306. | medium; not executed (it rests on SQLite's name-resolution rule) | `Ledger.SoldOutStillListed` | `Ledger.HoldingsExact` |

The as-written query is `Ledger.HoldingsAsWritten`. It takes the filtered
value from the last row of the group, and `Ledger.HoldingsAsWrittenListsEveryGroup`
proves the general case. The rest of the model uses the corrected
`Ledger.Holdings`: the portfolio page (`Database.Portfolio`) as well as the
sell form.

## Modelling decisions

- The code looks up the quote before it parses the quantity, so a bad symbol
  wins over a bad quantity. The model checks in the same order.
- The code refuses a non-integer quantity and a quantity below 1 with two
  different messages. The model has two errors for them (`InvalidQuantity`,
  `NonPositiveQuantity`).
- The code's sell page reports a non-integer quantity with the text "Not
  enough shares". The model reports `InvalidQuantity`, because the message
  text is presentation.
- The code indexes the quote of every holding on the portfolio page, and a
  missing quote raises, so the whole page fails. The model returns
  `Err(QuoteUnavailable)` and no partial page.
- The code does not re-check the balance when it stores the new cash. The
  model's `Database.Record` requires the non-negative result, and `Buy` and
  `Sell` establish it before calling it.

## Left out

- Flask routing, form parsing, the session and `login_required`, the apology
  pages, templates, currency formatting and the no-cache response headers
  (app.py:16-22). These are web plumbing. The logged-in user id is a
  parameter, and a missing form field is an empty string.
- Logging in (app.py:31-71) and the quote page (app.py:165-183). These are not
  part of the accounting core.
- The SQLite connection and SQL execution (app.py:24-28). Each query is a
  function over the in-memory ledger. Each handler's read-check-update-commit
  is one atomic method, so races between concurrent requests are not modelled.
- The quote lookup, which is an external network service; helpers.py is not
  part of this model. Buy and Sell take the resolved price, or `None`.
  Portfolio takes the lookup as a function from symbol to an optional price.
  Symbols are recorded exactly as typed. Any case normalisation the lookup
  performs is not modelled.
- Password hashing. The hash is computed outside and passed in.
- Python's `int()` conversion of the quantity field. Its outcome is passed in:
  `None` when the text is not an integer.
- Floating-point prices and cash. Amounts are exact integers, so rounding is
  not modelled.
- The starting balance, which is a column default not visible in the code.
  It is a constructor parameter.
- Timestamps, which the database assigns. The current time is a parameter of
  Buy and Sell.
- Row order of `GROUP BY` and of the history query. Neither query has an
  `ORDER BY`. The model lists groups in order of first appearance and history
  in ledger order.
