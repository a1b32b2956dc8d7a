/** A client of the database that replays a short trading session and a few
    refused requests, using nothing but the handlers' contracts. */
module Scenarios {
  import opened Ledger
  import opened Finance

  method TradingSession()
  {
    var db := new Database(10000);
    var reg := db.Register("alice", "secret", "secret", "hash-of-secret");
    assert reg == Ok(1);
    var alice := reg.value;

    // Ten shares at 150 cost 1500.
    var r := db.Buy(alice, "AAPL", Some(150), Some(10), 1);
    assert r.Ok?;
    assert db.users[alice].cash == 8500;
    assert Owned(db.transactions, alice, "AAPL") == 10;

    // Fifteen shares cannot be sold out of ten; nothing changes.
    r := db.Sell(alice, "AAPL", Some(200), Some(15), 2);
    assert r == Err(InsufficientShares);
    assert db.users[alice].cash == 8500;
    assert Owned(db.transactions, alice, "AAPL") == 10;

    // Selling all ten at 200 brings in 2000 and empties the position.
    r := db.Sell(alice, "AAPL", Some(200), Some(10), 3);
    assert r.Ok?;
    assert db.users[alice].cash == 10500;
    assert Owned(db.transactions, alice, "AAPL") == 0;
    HoldingsExact(db.transactions, alice, "AAPL");
    assert forall k :: 0 <= k < |Holdings(db.transactions, alice)| ==> Holdings(db.transactions, alice)[k].symbol != "AAPL";
  }

  method RefusedRequests()
  {
    var db := new Database(10000);
    var reg := db.Register("alice", "secret", "secret", "hash-of-secret");
    assert reg == Ok(1);
    var alice := reg.value;

    // Zero, negative, non-integer quantities and unknown symbols are refused.
    var r := db.Buy(alice, "AAPL", Some(150), Some(0), 4);
    assert r == Err(NonPositiveQuantity);
    r := db.Buy(alice, "AAPL", Some(150), Some(-5), 4);
    assert r == Err(NonPositiveQuantity);
    r := db.Buy(alice, "AAPL", Some(150), None, 4);
    assert r == Err(InvalidQuantity);
    r := db.Sell(alice, "ZZZZ", None, Some(1), 4);
    assert r == Err(UnknownSymbol);
    assert db.users[alice].cash == 10000 && db.transactions == [];

    // A second registration under the same name is refused.
    var again := db.Register("alice", "other", "other", "hash-of-other");
    assert db.Taken("alice");
    assert again == Err(UsernameTaken);
  }

  method SmallBalance()
  {
    var db := new Database(100);
    var reg := db.Register("bob", "pw", "pw", "hash-of-pw");
    var bob := reg.value;
    var r := db.Buy(bob, "AAPL", Some(150), Some(1), 1);
    assert r == Err(InsufficientFunds);
    assert db.users[bob].cash == 100 && db.transactions == [];
    var mismatch := db.Register("carol", "pw", "wp", "hash-of-pw");
    assert mismatch == Err(PasswordMismatch);
  }
}
