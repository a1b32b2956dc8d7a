/** The transaction ledger and everything derived from it.

    Holdings are never stored: the number of shares a user owns in a symbol
    is always recomputed as the signed sum of that user's ledger entries for
    the symbol (a BUY adds its shares, a SELL subtracts them). */
module Ledger {

  datatype Kind = Buy | Sell

  /** One row of the transactions table. `price` is the price per share at
      execution time, in the smallest currency unit; `time` is the row's
      creation timestamp. */
  datatype Transaction = Transaction(userId: nat, symbol: string, shares: nat, price: nat, kind: Kind, time: int)

  /** One row of the holdings query: a symbol and its net share count. */
  datatype Position = Position(symbol: string, shares: int)

  /** The signed share delta of one entry: its share count, added for a BUY
      and subtracted for a SELL. */
  function Delta(t: Transaction): (d: int)
    ensures (if d < 0 then -d else d) == t.shares
    ensures d > 0 ==> t.kind == Buy
    ensures d < 0 ==> t.kind.Sell?
  {
    if t.kind == Buy then t.shares as int else -(t.shares as int)
  }

  predicate Matches(t: Transaction, uid: nat, symbol: string)
  {
    t.userId == uid && t.symbol == symbol
  }

  /** Net shares of `symbol` owned by `uid`: the SUM over that user's rows for
      the symbol. SQL's SUM over no rows is NULL, which the callers treat as 0. */
  function Owned(txns: seq<Transaction>, uid: nat, symbol: string): (o: int)
    ensures (forall i :: 0 <= i < |txns| ==> !Matches(txns[i], uid, symbol)) ==> o == 0
  {
    if txns == [] then 0
    else
      var t := txns[|txns| - 1];
      Owned(txns[..|txns| - 1], uid, symbol) + (if Matches(t, uid, symbol) then Delta(t) else 0)
  }

  /** Appending one entry changes the owned count of its own user and symbol
      by the entry's signed delta, and no other count. */
  lemma OwnedAppend(txns: seq<Transaction>, t: Transaction, uid: nat, symbol: string)
    ensures Owned(txns + [t], uid, symbol)
         == Owned(txns, uid, symbol) + (if Matches(t, uid, symbol) then Delta(t) else 0)
  {
    assert (txns + [t])[..|txns|] == txns;
  }

  /** The cash effect of one entry: a SELL credits its proceeds, a BUY
      debits its cost. */
  function CashDelta(t: Transaction): (c: int)
    ensures c == -(Delta(t) * t.price)
    ensures t.kind == Buy ==> c <= 0
    ensures t.kind == Sell ==> c >= 0
  {
    if t.kind == Sell then t.shares * t.price else -(t.shares * t.price)
  }

  /** The net cash `uid` has received from trading: proceeds of sales minus
      cost of purchases, over that user's entries. */
  function CashFlow(txns: seq<Transaction>, uid: nat): int
  {
    if txns == [] then 0
    else
      var t := txns[|txns| - 1];
      CashFlow(txns[..|txns| - 1], uid) + (if t.userId == uid then CashDelta(t) else 0)
  }

  lemma CashFlowAppend(txns: seq<Transaction>, t: Transaction, uid: nat)
    ensures CashFlow(txns + [t], uid) == CashFlow(txns, uid) + (if t.userId == uid then CashDelta(t) else 0)
  {
    assert (txns + [t])[..|txns|] == txns;
  }

  /** A user without ledger entries has had no cash flow. */
  lemma {:induction false} CashFlowWithoutEntries(txns: seq<Transaction>, uid: nat)
    requires forall i :: 0 <= i < |txns| ==> txns[i].userId != uid
    ensures CashFlow(txns, uid) == 0
  {
    if txns != [] {
      CashFlowWithoutEntries(txns[..|txns| - 1], uid);
    }
  }

  /** No user is short of any symbol. */
  ghost predicate NoShortPosition(txns: seq<Transaction>)
  {
    forall uid, symbol :: Owned(txns, uid, symbol) >= 0
  }

  /** Appending an entry that leaves its own user and symbol non-negative
      keeps every user and symbol non-negative. */
  lemma AppendKeepsNoShortPosition(txns: seq<Transaction>, t: Transaction)
    requires NoShortPosition(txns)
    requires Owned(txns, t.userId, t.symbol) + Delta(t) >= 0
    ensures NoShortPosition(txns + [t])
    ensures forall uid, symbol :: Owned(txns + [t], uid, symbol)
              == Owned(txns, uid, symbol) + (if Matches(t, uid, symbol) then Delta(t) else 0)
  {
    forall uid, symbol
      ensures Owned(txns + [t], uid, symbol)
           == Owned(txns, uid, symbol) + (if Matches(t, uid, symbol) then Delta(t) else 0)
    {
      OwnedAppend(txns, t, uid, symbol);
    }
  }

  /** The aggregation is additive over a split of the ledger. */
  lemma {:induction false} OwnedConcat(a: seq<Transaction>, b: seq<Transaction>, uid: nat, symbol: string)
    ensures Owned(a + b, uid, symbol) == Owned(a, uid, symbol) + Owned(b, uid, symbol)
    decreases |b|
  {
    if b == [] {
      assert a + b == a;
    } else {
      var b', t := b[..|b| - 1], b[|b| - 1];
      assert b == b' + [t];
      assert a + b == (a + b') + [t];
      OwnedConcat(a, b', uid, symbol);
      OwnedAppend(a + b', t, uid, symbol);
      OwnedAppend(b', t, uid, symbol);
    }
  }

  /** Removing one entry from the middle of the ledger removes its delta. */
  lemma OwnedSplice(left: seq<Transaction>, t: Transaction, right: seq<Transaction>, uid: nat, symbol: string)
    ensures Owned(left + [t] + right, uid, symbol)
         == Owned(left + right, uid, symbol) + (if Matches(t, uid, symbol) then Delta(t) else 0)
  {
    OwnedConcat(left, right, uid, symbol);
    OwnedConcat(left + [t], right, uid, symbol);
    OwnedAppend(left, t, uid, symbol);
  }

  /** Taking the same entry out of two ledgers with equal contents leaves
      ledgers with equal contents. */
  lemma MultisetRemove(a: seq<Transaction>, t: Transaction, left: seq<Transaction>, right: seq<Transaction>)
    requires multiset(a + [t]) == multiset(left + [t] + right)
    ensures multiset(a) == multiset(left + right)
  {
    calc {
      multiset(a);
      multiset(a + [t]) - multiset{t};
      multiset(left + [t] + right) - multiset{t};
      multiset(left + right) + multiset{t} - multiset{t};
      multiset(left + right);
    }
  }

  /** Derivation determinism: the owned count depends only on which entries
      the ledger holds, not on the order in which they are summed. */
  lemma {:induction false} OwnedPermutation(a: seq<Transaction>, b: seq<Transaction>, uid: nat, symbol: string)
    requires multiset(a) == multiset(b)
    ensures Owned(a, uid, symbol) == Owned(b, uid, symbol)
    decreases |a|
  {
    if a == [] {
      assert |b| == |multiset(b)| == 0;
    } else {
      var a', t := a[..|a| - 1], a[|a| - 1];
      assert a == a' + [t];
      assert t in multiset(b);
      var j :| 0 <= j < |b| && b[j] == t;
      var left, right := b[..j], b[j + 1..];
      assert b == left + [t] + right;
      MultisetRemove(a', t, left, right);
      OwnedPermutation(a', left + right, uid, symbol);
      OwnedAppend(a', t, uid, symbol);
      OwnedSplice(left, t, right, uid, symbol);
    }
  }

  /** Buying shares and then selling the same number of the same symbol
      leaves every owned count where it was, whatever the two prices. */
  lemma BuyThenSellCancels(txns: seq<Transaction>, buy: Transaction, sell: Transaction, uid: nat, symbol: string)
    requires buy.kind == Buy && sell.kind == Sell && buy.shares == sell.shares
    requires buy.userId == sell.userId && buy.symbol == sell.symbol
    ensures Owned(txns + [buy] + [sell], uid, symbol) == Owned(txns, uid, symbol)
  {
    OwnedAppend(txns, buy, uid, symbol);
    OwnedAppend(txns + [buy], sell, uid, symbol);
  }

  /** The distinct symbols `uid` has traded, in order of first appearance:
      the groups of GROUP BY symbol. */
  function Symbols(txns: seq<Transaction>, uid: nat): (r: seq<string>)
    ensures forall i, j :: 0 <= i < j < |r| ==> r[i] != r[j]
    ensures forall s :: s in r ==> exists i :: 0 <= i < |txns| && Matches(txns[i], uid, s)
  {
    if txns == [] then []
    else
      var rest, t := Symbols(txns[..|txns| - 1], uid), txns[|txns| - 1];
      if t.userId == uid && t.symbol !in rest then rest + [t.symbol] else rest
  }

  /** Every symbol the user has a ledger entry for is one of the groups. */
  lemma {:induction false} SymbolsComplete(txns: seq<Transaction>, uid: nat, i: nat)
    requires i < |txns| && txns[i].userId == uid
    ensures txns[i].symbol in Symbols(txns, uid)
  {
    var prefix := txns[..|txns| - 1];
    if i < |txns| - 1 {
      SymbolsComplete(prefix, uid, i);
    }
  }

  /** A symbol with a non-zero owned count is one of the groups. */
  lemma {:induction false} OwnedNonZeroIsTraded(txns: seq<Transaction>, uid: nat, symbol: string)
    requires Owned(txns, uid, symbol) != 0
    ensures symbol in Symbols(txns, uid)
  {
    var i :| 0 <= i < |txns| && Matches(txns[i], uid, symbol);
    SymbolsComplete(txns, uid, i);
  }

  /** The groups of `symbols` whose net sum is greater than 0, each with that sum. */
  function Keep(symbols: seq<string>, txns: seq<Transaction>, uid: nat): (r: seq<Position>)
    ensures forall k :: 0 <= k < |r| ==>
              r[k].symbol in symbols && r[k].shares == Owned(txns, uid, r[k].symbol) && r[k].shares > 0
    ensures forall s :: s in symbols && Owned(txns, uid, s) > 0 ==>
              Position(s, Owned(txns, uid, s)) in r
    ensures (forall i, j :: 0 <= i < j < |symbols| ==> symbols[i] != symbols[j]) ==>
              forall i, j :: 0 <= i < j < |r| ==> r[i].symbol != r[j].symbol
  {
    if symbols == [] then []
    else
      var rest := Keep(symbols[1..], txns, uid);
      var net := Owned(txns, uid, symbols[0]);
      if net > 0 then [Position(symbols[0], net)] + rest else rest
  }

  /** The holdings of `uid`: one row per symbol whose net sum is greater than 0. */
  function Holdings(txns: seq<Transaction>, uid: nat): (r: seq<Position>)
    ensures forall k :: 0 <= k < |r| ==> r[k].shares == Owned(txns, uid, r[k].symbol) > 0
    ensures forall i, j :: 0 <= i < j < |r| ==> r[i].symbol != r[j].symbol
  {
    Keep(Symbols(txns, uid), txns, uid)
  }

  /** Holdings list a symbol exactly when its net owned count is positive;
      a fully sold symbol is therefore absent. */
  lemma HoldingsExact(txns: seq<Transaction>, uid: nat, symbol: string)
    ensures (exists k :: 0 <= k < |Holdings(txns, uid)| && Holdings(txns, uid)[k].symbol == symbol)
        <==> Owned(txns, uid, symbol) > 0
  {
    if Owned(txns, uid, symbol) > 0 {
      OwnedNonZeroIsTraded(txns, uid, symbol);
      var h := Holdings(txns, uid);
      var k :| 0 <= k < |h| && h[k] == Position(symbol, Owned(txns, uid, symbol));
      assert h[k].symbol == symbol;
    }
  }

  /** The rows of the history query: every entry of `uid`, in ledger order. */
  function UserTransactions(txns: seq<Transaction>, uid: nat): (r: seq<Transaction>)
    ensures |r| <= |txns|
    ensures forall k :: 0 <= k < |r| ==> r[k].userId == uid && r[k] in txns
    ensures forall i :: 0 <= i < |txns| && txns[i].userId == uid ==> txns[i] in r
  {
    if txns == [] then []
    else
      var rest, t := UserTransactions(txns[..|txns| - 1], uid), txns[|txns| - 1];
      if t.userId == uid then rest + [t] else rest
  }

  /** The history rows hold each entry of `uid` exactly as often as the
      ledger does, and no entry of another user. */
  lemma {:induction false} UserTransactionsCounts(txns: seq<Transaction>, uid: nat)
    ensures forall t :: multiset(UserTransactions(txns, uid))[t] == if t.userId == uid then multiset(txns)[t] else 0
  {
    if txns != [] {
      var prefix, last := txns[..|txns| - 1], txns[|txns| - 1];
      assert txns == prefix + [last];
      UserTransactionsCounts(prefix, uid);
    }
  }

  /** Appending an entry of `uid` appends it to the history rows, and
      appending any other entry leaves them as they were. */
  lemma UserTransactionsAppend(txns: seq<Transaction>, t: Transaction, uid: nat)
    ensures UserTransactions(txns + [t], uid)
         == UserTransactions(txns, uid) + (if t.userId == uid then [t] else [])
  {
    assert (txns + [t])[..|txns|] == txns;
  }

  // The holdings filter of the portfolio page as written. Its HAVING clause
  // names `shares`, which is both the alias of the net sum and a column of
  // the table; SQLite resolves a name in that position to the column, whose
  // value in an aggregate query comes from one row of the group (in practice
  // the last one). Every row holds at least one share, so the filter keeps
  // every symbol ever traded, including those sold down to zero.

  /** Shares of the last row of the group (`uid`, `symbol`), 0 if there is none. */
  function LastShares(txns: seq<Transaction>, uid: nat, symbol: string): (n: nat)
    ensures n > 0 ==> exists i :: 0 <= i < |txns| && Matches(txns[i], uid, symbol) && txns[i].shares == n
    ensures (forall i :: 0 <= i < |txns| ==> !Matches(txns[i], uid, symbol)) ==> n == 0
  {
    if txns == [] then 0
    else if Matches(txns[|txns| - 1], uid, symbol) then txns[|txns| - 1].shares
    else LastShares(txns[..|txns| - 1], uid, symbol)
  }

  /** The groups of `symbols` that pass `HAVING shares > 0` with `shares`
      read as the column, each listed with its net sum. */
  function KeepAsWritten(symbols: seq<string>, txns: seq<Transaction>, uid: nat): (r: seq<Position>)
    ensures forall k :: 0 <= k < |r| ==>
              && r[k].symbol in symbols && r[k].shares == Owned(txns, uid, r[k].symbol)
              && LastShares(txns, uid, r[k].symbol) > 0
    ensures forall s :: s in symbols && LastShares(txns, uid, s) > 0 ==> Position(s, Owned(txns, uid, s)) in r
  {
    if symbols == [] then []
    else
      var rest := KeepAsWritten(symbols[1..], txns, uid);
      if LastShares(txns, uid, symbols[0]) > 0
      then [Position(symbols[0], Owned(txns, uid, symbols[0]))] + rest
      else rest
  }

  /** The index page's holdings query as written (see the comment above). */
  function HoldingsAsWritten(txns: seq<Transaction>, uid: nat): (r: seq<Position>)
    ensures forall k :: 0 <= k < |r| ==> r[k].symbol in Symbols(txns, uid) && r[k].shares == Owned(txns, uid, r[k].symbol)
  {
    KeepAsWritten(Symbols(txns, uid), txns, uid)
  }

  /** When every row holds at least one share, the last row of a traded
      symbol passes the filter as written. */
  lemma {:induction false} LastSharesOfTraded(txns: seq<Transaction>, uid: nat, symbol: string, i: nat)
    requires forall j :: 0 <= j < |txns| ==> txns[j].shares >= 1
    requires i < |txns| && Matches(txns[i], uid, symbol)
    ensures LastShares(txns, uid, symbol) >= 1
  {
    if !Matches(txns[|txns| - 1], uid, symbol) {
      LastSharesOfTraded(txns[..|txns| - 1], uid, symbol, i);
    }
  }

  lemma {:induction false} KeepAsWrittenKeepsAll(symbols: seq<string>, txns: seq<Transaction>, uid: nat)
    requires forall j :: 0 <= j < |txns| ==> txns[j].shares >= 1
    requires forall s :: s in symbols ==> exists i :: 0 <= i < |txns| && Matches(txns[i], uid, s)
    ensures |KeepAsWritten(symbols, txns, uid)| == |symbols|
    ensures forall k :: 0 <= k < |symbols| ==>
              KeepAsWritten(symbols, txns, uid)[k] == Position(symbols[k], Owned(txns, uid, symbols[k]))
  {
    if symbols != [] {
      assert symbols[0] in symbols;
      assert forall s :: s in symbols[1..] ==> s in symbols;
      var i :| 0 <= i < |txns| && Matches(txns[i], uid, symbols[0]);
      LastSharesOfTraded(txns, uid, symbols[0], i);
      KeepAsWrittenKeepsAll(symbols[1..], txns, uid);
    }
  }

  /** With the filter as written, no traded symbol is ever filtered out:
      each group is listed with its net sum, zero included. */
  lemma HoldingsAsWrittenListsEveryGroup(txns: seq<Transaction>, uid: nat)
    requires forall j :: 0 <= j < |txns| ==> txns[j].shares >= 1
    ensures |HoldingsAsWritten(txns, uid)| == |Symbols(txns, uid)|
    ensures forall k :: 0 <= k < |Symbols(txns, uid)| ==>
              HoldingsAsWritten(txns, uid)[k] == Position(Symbols(txns, uid)[k], Owned(txns, uid, Symbols(txns, uid)[k]))
  {
    KeepAsWrittenKeepsAll(Symbols(txns, uid), txns, uid);
  }

  /** Buying 10 shares and then selling all 10: the query as written still
      lists the symbol, with 0 shares; the net-sum filter drops it. */
  lemma SoldOutStillListed()
    ensures var ledger := [Transaction(1, "AAPL", 10, 150, Buy, 0), Transaction(1, "AAPL", 10, 200, Sell, 1)];
            HoldingsAsWritten(ledger, 1) == [Position("AAPL", 0)] && Holdings(ledger, 1) == []
  {
    var ledger := [Transaction(1, "AAPL", 10, 150, Buy, 0), Transaction(1, "AAPL", 10, 200, Sell, 1)];
    assert ledger[..1][..0] == [];
    assert ledger[..1] == [ledger[0]];
    assert Symbols(ledger, 1) == ["AAPL"];
    assert Owned(ledger, 1, "AAPL") == 0;
  }
}
