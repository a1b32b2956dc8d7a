/** The users table, the ledger, and the request handlers that read and
    change them: register, buy, sell, the portfolio page and the history page.
    Each handler's read-check-update-commit runs as one atomic step. */
module Finance {
  import opened Ledger

  datatype Option<T> = None | Some(value: T)

  /** Every way a request can be refused; each leaves the database unchanged. */
  datatype Error =
    | MissingUsername | MissingPassword | MissingConfirmation | PasswordMismatch | UsernameTaken
    | MissingSymbol | UnknownSymbol | InvalidQuantity | NonPositiveQuantity
    | InsufficientFunds | InsufficientShares | QuoteUnavailable

  datatype Result<T> = Ok(value: T) | Err(error: Error)

  /** One row of the users table. `hash` is the stored password hash. */
  datatype User = User(username: string, hash: string, cash: int)

  /** One row of the portfolio page. */
  datatype PortfolioRow = PortfolioRow(symbol: string, shares: int, price: nat, total: int)

  datatype Valuation = Valuation(rows: seq<PortfolioRow>, cash: int, grandTotal: int)

  /** One row of the history page. */
  datatype HistoryRow = HistoryRow(symbol: string, shares: nat, price: nat, kind: Kind, time: int, total: int)

  /** The summed market value of the portfolio rows. */
  function TotalValue(rows: seq<PortfolioRow>): (v: int)
    ensures (forall k :: 0 <= k < |rows| ==> rows[k].total >= 0) ==> v >= 0
  {
    if rows == [] then 0 else TotalValue(rows[..|rows| - 1]) + rows[|rows| - 1].total
  }

  /** The users table after `UPDATE users SET cash = cash + amount WHERE id = uid`. */
  function Credit(users: map<nat, User>, uid: nat, amount: int): (r: map<nat, User>)
    requires uid in users
    ensures r.Keys == users.Keys
    ensures r[uid].cash == users[uid].cash + amount
    ensures r[uid].username == users[uid].username && r[uid].hash == users[uid].hash
    ensures forall id :: id in users && id != uid ==> r[id] == users[id]
  {
    users[uid := users[uid].(cash := users[uid].cash + amount)]
  }

  class Database {
    /** The cash balance a new user starts with (the column's default). */
    const initialCash: nat
    var users: map<nat, User>
    /** The id the next registered user gets. */
    var nextId: nat
    var transactions: seq<Transaction>

    /** Usernames are unique; every balance is non-negative and equals the
        starting balance plus the user's cash flow in the ledger; every ledger
        row holds at least one share and belongs to a user; and no user is
        ever short of any symbol. */
    ghost predicate Valid()
      reads this
    {
      && (forall id :: id in users ==> id < nextId && users[id].cash >= 0)
      && (forall id :: id in users ==> users[id].cash == initialCash + CashFlow(transactions, id))
      && (forall a, b :: a in users && b in users && a != b ==> users[a].username != users[b].username)
      && (forall i :: 0 <= i < |transactions| ==> transactions[i].shares >= 1 && transactions[i].userId in users)
      && NoShortPosition(transactions)
    }

    constructor (initialCash: nat)
      ensures Valid()
      ensures this.initialCash == initialCash
      ensures users == map[] && transactions == [] && nextId == 1
    {
      this.initialCash := initialCash;
      users := map[];
      nextId := 1;
      transactions := [];
    }

    /** Whether some user already has this username (the UNIQUE constraint). */
    predicate Taken(username: string)
      reads this
    {
      exists id :: id in users && users[id].username == username
    }

    method Register(username: string, password: string, confirmation: string, hash: string) returns (r: Result<nat>)
      requires Valid()
      modifies this
      ensures Valid()
      ensures username == "" ==> r == Err(MissingUsername)
      ensures username != "" && password == "" ==> r == Err(MissingPassword)
      ensures username != "" && password != "" && confirmation == "" ==> r == Err(MissingConfirmation)
      ensures username != "" && password != "" && confirmation != "" && password != confirmation ==>
                r == Err(PasswordMismatch)
      ensures username != "" && password != "" && password == confirmation && old(Taken(username)) ==>
                r == Err(UsernameTaken)
      ensures r.Ok? <==> username != "" && password != "" && password == confirmation && !old(Taken(username))
      ensures r.Ok? ==>
                && r.value == old(nextId) && r.value !in old(users) && nextId == old(nextId) + 1
                && users == old(users)[r.value := User(username, hash, initialCash)]
      ensures r.Err? ==> users == old(users) && nextId == old(nextId)
      ensures transactions == old(transactions)
    {
      if username == "" {
        return Err(MissingUsername);
      }
      if password == "" {
        return Err(MissingPassword);
      }
      if confirmation == "" {
        return Err(MissingConfirmation);
      }
      if password != confirmation {
        return Err(PasswordMismatch);
      }
      if Taken(username) {
        return Err(UsernameTaken);
      }
      var id := nextId;
      CashFlowWithoutEntries(transactions, id);
      users := users[id := User(username, hash, initialCash)];
      nextId := nextId + 1;
      r := Ok(id);
    }

    /** Buys `quantity` shares of `symbol` at the looked-up `quote` price.
        `quote` is None when the lookup failed; `quantity` is None when the
        form field is not an integer. */
    method Buy(uid: nat, symbol: string, quote: Option<nat>, quantity: Option<int>, now: int) returns (r: Result<Transaction>)
      requires Valid() && uid in users
      modifies this
      ensures Valid() && nextId == old(nextId) && users.Keys == old(users.Keys)
      ensures symbol == "" ==> r == Err(MissingSymbol)
      ensures symbol != "" && quote.None? ==> r == Err(UnknownSymbol)
      ensures symbol != "" && quote.Some? && quantity.None? ==> r == Err(InvalidQuantity)
      ensures symbol != "" && quote.Some? && quantity.Some? && quantity.value < 1 ==> r == Err(NonPositiveQuantity)
      ensures (symbol != "" && quote.Some? && quantity.Some? && quantity.value >= 1
               && quantity.value * quote.value > old(users[uid].cash)) ==> r == Err(InsufficientFunds)
      ensures r.Ok? <==> symbol != "" && quote.Some? && quantity.Some? && quantity.value >= 1
                         && quantity.value * quote.value <= old(users[uid].cash)
      ensures r.Ok? ==>
                && r.value == Transaction(uid, symbol, quantity.value, quote.value, Kind.Buy, now)
                && transactions == old(transactions) + [r.value]
                && users == Credit(old(users), uid, -(quantity.value * quote.value))
                && Owned(transactions, uid, symbol) == old(Owned(transactions, uid, symbol)) + quantity.value
      ensures r.Err? ==> users == old(users) && transactions == old(transactions)
      ensures forall u, s :: (u != uid || s != symbol) ==> Owned(transactions, u, s) == old(Owned(transactions, u, s))
    {
      if symbol == "" {
        return Err(MissingSymbol);
      }
      if quote.None? {
        return Err(UnknownSymbol);
      }
      var price := quote.value;
      if quantity.None? {
        return Err(InvalidQuantity);
      }
      var count := quantity.value;
      if count < 1 {
        return Err(NonPositiveQuantity);
      }
      var cost := count * price;
      var available := users[uid].cash;
      if cost > available {
        return Err(InsufficientFunds);
      }
      var t := Transaction(uid, symbol, count, price, Kind.Buy, now);
      assert Delta(t) == count && CashDelta(t) == -cost;
      Record(uid, t);
      r := Ok(t);
    }

    /** Sells `quantity` shares of `symbol` at the looked-up `quote` price. */
    method Sell(uid: nat, symbol: string, quote: Option<nat>, quantity: Option<int>, now: int) returns (r: Result<Transaction>)
      requires Valid() && uid in users
      modifies this
      ensures Valid() && nextId == old(nextId) && users.Keys == old(users.Keys)
      ensures symbol == "" ==> r == Err(MissingSymbol)
      ensures symbol != "" && quote.None? ==> r == Err(UnknownSymbol)
      ensures symbol != "" && quote.Some? && quantity.None? ==> r == Err(InvalidQuantity)
      ensures symbol != "" && quote.Some? && quantity.Some? && quantity.value < 1 ==> r == Err(NonPositiveQuantity)
      ensures (symbol != "" && quote.Some? && quantity.Some? && quantity.value >= 1
               && old(Owned(transactions, uid, symbol)) < quantity.value) ==> r == Err(InsufficientShares)
      ensures r.Ok? <==> symbol != "" && quote.Some? && quantity.Some? && quantity.value >= 1
                         && quantity.value <= old(Owned(transactions, uid, symbol))
      ensures r.Ok? ==>
                && r.value == Transaction(uid, symbol, quantity.value, quote.value, Kind.Sell, now)
                && transactions == old(transactions) + [r.value]
                && users == Credit(old(users), uid, quantity.value * quote.value)
                && Owned(transactions, uid, symbol) == old(Owned(transactions, uid, symbol)) - quantity.value >= 0
      ensures r.Err? ==> users == old(users) && transactions == old(transactions)
      ensures forall u, s :: (u != uid || s != symbol) ==> Owned(transactions, u, s) == old(Owned(transactions, u, s))
    {
      if symbol == "" {
        return Err(MissingSymbol);
      }
      if quote.None? {
        return Err(UnknownSymbol);
      }
      var price := quote.value;
      if quantity.None? {
        return Err(InvalidQuantity);
      }
      var count := quantity.value;
      if count < 1 {
        return Err(NonPositiveQuantity);
      }
      var owned := Owned(transactions, uid, symbol);
      if owned == 0 || owned < count {
        return Err(InsufficientShares);
      }
      var t := Transaction(uid, symbol, count, price, Kind.Sell, now);
      assert Delta(t) == -count && CashDelta(t) == count * price;
      Record(uid, t);
      r := Ok(t);
    }

    /** Applies one checked trade: adjusts the user's cash by the trade's
        cost or proceeds and appends the ledger row, as one unit. */
    method Record(uid: nat, t: Transaction)
      requires Valid() && uid in users && t.userId == uid && t.shares >= 1
      requires users[uid].cash + CashDelta(t) >= 0
      requires Owned(transactions, uid, t.symbol) + Delta(t) >= 0
      modifies this
      ensures Valid() && nextId == old(nextId)
      ensures transactions == old(transactions) + [t]
      ensures users == Credit(old(users), uid, CashDelta(t))
      ensures forall u, s :: Owned(transactions, u, s)
                == old(Owned(transactions, u, s)) + (if Matches(t, u, s) then Delta(t) else 0)
    {
      var users', ledger' := Credit(users, uid, CashDelta(t)), transactions + [t];
      AppendKeepsNoShortPosition(transactions, t);
      forall id | id in users'
        ensures users'[id].cash == initialCash + CashFlow(ledger', id) && users'[id].cash >= 0
      {
        CashFlowAppend(transactions, t, id);
      }
      assert forall id :: id in users' ==> users'[id].username == users[id].username;
      users, transactions := users', ledger';
    }

    /** The portfolio page: every holding priced with `quote`, its market
        value, and the grand total of cash and market values. A holding whose
        quote cannot be resolved fails the whole page. */
    method Portfolio(uid: nat, quote: string -> Option<nat>) returns (r: Result<Valuation>)
      requires uid in users
      ensures var h := Holdings(transactions, uid);
              r.Err? <==> exists k :: 0 <= k < |h| && quote(h[k].symbol).None?
      ensures r.Err? ==> r.error == QuoteUnavailable
      ensures var h := Holdings(transactions, uid);
              r.Ok? ==>
                && |r.value.rows| == |h|
                && forall k :: 0 <= k < |h| ==>
                     quote(h[k].symbol).Some? && Priced(r.value.rows[k], h[k], quote(h[k].symbol).value)
      ensures r.Ok? ==>
                && r.value.cash == users[uid].cash
                && r.value.grandTotal == r.value.cash + TotalValue(r.value.rows)
                && r.value.grandTotal >= r.value.cash
      ensures r.Ok? ==> forall k :: 0 <= k < |r.value.rows| ==>
                r.value.rows[k].shares == Owned(transactions, uid, r.value.rows[k].symbol) > 0
      ensures r.Ok? ==> forall s :: Owned(transactions, uid, s) > 0 ==>
                exists k :: 0 <= k < |r.value.rows| && r.value.rows[k].symbol == s
    {
      var h := Holdings(transactions, uid);
      var cash := users[uid].cash;
      var priced := PriceAll(h, quote);
      match priced {
        case Err(e) => r := Err(e);
        case Ok((rows, stockValue)) =>
          r := Ok(Valuation(rows, cash, cash + stockValue));
          forall s | Owned(transactions, uid, s) > 0
            ensures exists k :: 0 <= k < |rows| && rows[k].symbol == s
          {
            HoldingsExact(transactions, uid, s);
            var k :| 0 <= k < |h| && h[k].symbol == s;
            assert rows[k].symbol == s;
          }
      }
    }

    /** The symbol list of the sell form: every symbol of which `uid` owns a
        positive net number of shares, each once. */
    method SellableSymbols(uid: nat) returns (symbols: seq<string>)
      requires uid in users
      ensures forall s :: s in symbols <==> Owned(transactions, uid, s) > 0
      ensures forall i, j :: 0 <= i < j < |symbols| ==> symbols[i] != symbols[j]
    {
      var h := Holdings(transactions, uid);
      symbols := [];
      var i := 0;
      while i < |h|
        invariant 0 <= i <= |h| && |symbols| == i
        invariant forall k :: 0 <= k < i ==> symbols[k] == h[k].symbol
      {
        assert (symbols + [h[i].symbol])[..i] == symbols;
        symbols := symbols + [h[i].symbol];
        i := i + 1;
      }
      forall s
        ensures s in symbols <==> Owned(transactions, uid, s) > 0
      {
        HoldingsExact(transactions, uid, s);
        if s in symbols {
          var k :| 0 <= k < |symbols| && symbols[k] == s;
          assert h[k].symbol == s;
        }
      }
    }

    /** The history page: one row per ledger entry of `uid`, in ledger order,
        each with its total of shares times price. */
    method History(uid: nat) returns (rows: seq<HistoryRow>)
      requires uid in users
      ensures |rows| == |UserTransactions(transactions, uid)|
      ensures forall k :: 0 <= k < |rows| ==> Shows(rows[k], UserTransactions(transactions, uid)[k])
    {
      rows := [];
      var i := 0;
      while i < |transactions|
        invariant 0 <= i <= |transactions|
        invariant |rows| == |UserTransactions(transactions[..i], uid)|
        invariant forall k :: 0 <= k < |rows| ==> Shows(rows[k], UserTransactions(transactions[..i], uid)[k])
      {
        var t := transactions[i];
        ghost var mine := UserTransactions(transactions[..i], uid);
        assert transactions[..i + 1] == transactions[..i] + [t];
        UserTransactionsAppend(transactions[..i], t, uid);
        ghost var mine' := UserTransactions(transactions[..i + 1], uid);
        if t.userId == uid {
          var row := HistoryRow(t.symbol, t.shares, t.price, t.kind, t.time, t.shares * t.price);
          assert Shows(row, t);
          ghost var before := rows;
          rows := rows + [row];
          assert mine' == mine + [t];
          forall k | 0 <= k < |rows|
            ensures Shows(rows[k], mine'[k])
          {
            if k < |before| {
              assert rows[k] == before[k] && mine'[k] == mine[k];
            }
          }
        }
        i := i + 1;
      }
      assert transactions[..|transactions|] == transactions;
    }
  }

  /** The loop of the portfolio page: prices each holding in turn and sums
      the market values; the first holding without a quote fails the page. */
  method PriceAll(h: seq<Position>, quote: string -> Option<nat>) returns (r: Result<(seq<PortfolioRow>, int)>)
    requires forall k :: 0 <= k < |h| ==> h[k].shares >= 0
    ensures r.Err? <==> exists k :: 0 <= k < |h| && quote(h[k].symbol).None?
    ensures r.Err? ==> r.error == QuoteUnavailable
    ensures r.Ok? ==>
              && |r.value.0| == |h|
              && (forall k :: 0 <= k < |h| ==>
                    quote(h[k].symbol).Some? && Priced(r.value.0[k], h[k], quote(h[k].symbol).value))
              && r.value.1 == TotalValue(r.value.0) >= 0
  {
    var rows: seq<PortfolioRow> := [];
    var stockValue := 0;
    var i := 0;
    while i < |h|
      invariant 0 <= i <= |h| && |rows| == i
      invariant forall k :: 0 <= k < i ==> quote(h[k].symbol).Some? && Priced(rows[k], h[k], quote(h[k].symbol).value)
      invariant stockValue == TotalValue(rows)
    {
      var q := quote(h[i].symbol);
      if q.None? {
        return Err(QuoteUnavailable);
      }
      var row := PortfolioRow(h[i].symbol, h[i].shares, q.value, h[i].shares * q.value);
      assert (rows + [row])[..i] == rows;
      stockValue := stockValue + row.total;
      rows := rows + [row];
      i := i + 1;
    }
    r := Ok((rows, stockValue));
  }

  /** `row` shows `holding` at `price`, with its market value. */
  predicate Priced(row: PortfolioRow, holding: Position, price: nat)
  {
    && row.symbol == holding.symbol && row.shares == holding.shares && row.price == price
    && row.total == holding.shares * price && row.total >= 0
  }

  /** `row` shows the ledger entry `t`, with its total of shares times price. */
  predicate Shows(row: HistoryRow, t: Transaction)
  {
    && row.symbol == t.symbol && row.shares == t.shares && row.price == t.price
    && row.kind == t.kind && row.time == t.time && row.total == t.shares * t.price
  }
}
