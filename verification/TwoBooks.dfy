/** The option book and the stock's book side by side. They are written differently: one scans
    hash maps for the best price and prices lazily, the other keeps ordered sides and compares
    after each event. On the same adds, cancels and deletes they hold the same market. */
module TwoBooks {
  import opened Words
  import opened Events
  import opened Books
  import opened OptionTypes
  import opened Options
  import opened OptionChains
  import opened OrderBooks

  /** The market-data event that asks the same of a stock's book. */
  function ActionEvent(a: OptionAction, key: OptionContractKey): ItchEvent {
    match a
    case Add(r, side, price, shares) => ItchEvent.AddOrder(0, r, side, shares, key.underlying, price)
    case Cancel(r, shares) => OrderCancel(0, r, shares)
    case Delete(r) => OrderDelete(0, r)
  }

  lemma SameIntent(a: OptionAction, key: OptionContractKey)
    ensures IntentOf(ActionEvent(a, key)) == ActionIntent(a, key)
  {
  }

  /** One order applied to both books. */
  method ApplyBoth(a: OptionAction, option: OptionBook, book: SingleOrderBook) returns (out: Option<BboUpdate>)
    requires option.Valid() && book.Valid() && option.DepthNow() == book.DepthNow()
    modifies option, book.Objects()
    ensures option.Valid() && book.Valid() && option.DepthNow() == book.DepthNow()
    ensures out.Some? ==> option.pricingDirty
  {
    hide DepthStep, BboOf;
    ghost var b, d := option.Model(), book.DepthNow();
    SameIntent(a, option.contract.key);
    option.Apply(a);
    assert option.Model() == OrderStep(b, a);
    out := book.ApplyEvent(ActionEvent(a, option.contract.key));
    assert option.Model() == OrderStep(b, a);
    if !TouchesLevels(d, a) {
      UntouchedKeepsBbo(b, a);
    }
  }

  /** Any orders applied to both books, starting from the same market: they end with the same
      orders and levels (price, volume and count) and report the same best bid and offer. */
  method RunBoth(actions: seq<OptionAction>, option: OptionBook, book: SingleOrderBook) returns (q: Bbo, snap: Bbo)
    requires option.Valid() && book.Valid() && option.DepthNow() == book.DepthNow()
    modifies option, book.Objects()
    ensures option.Valid() && book.Valid() && option.DepthNow() == book.DepthNow()
    ensures q == snap == BboOf(option.DepthNow())
  {
    hide BboOf;
    for i := 0 to |actions|
      invariant option.Valid() && book.Valid() && option.DepthNow() == book.DepthNow()
    {
      var out := ApplyBoth(actions[i], option, book);
    }
    q := option.BboSnapshot();
    snap := book.SnapshotBbo();
  }

  /** The same from two new books. */
  method RunNewBooks(contract: OptionContract, actions: seq<OptionAction>)
    returns (mine: Depth, other: Depth, q: Bbo, snap: Bbo)
    ensures mine == other && q == snap == BboOf(mine)
  {
    var option := new OptionBook(contract);
    var book := new SingleOrderBook(contract.key.underlying);
    q, snap := RunBoth(actions, option, book);
    mine := Depth(option.bids, option.asks, option.orders);
    other := Depth(book.bids.levels, book.asks.levels, book.orders);
  }
}
