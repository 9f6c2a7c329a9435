/** On a positive feed the levels are exactly the prices of live orders, and the published
    best prices are their extrema. */
module Quotes {
  import opened Words
  import opened Totals
  import opened Events
  import opened Levels
  import opened Books
  import opened Ledger
  import opened Gateways

  ghost predicate PositiveLevels(l: LevelMap) {
    forall p :: p in l ==> l[p].volume > 0
  }

  ghost predicate PositiveOrders(orders: OrderMap) {
    forall r :: r in orders ==> orders[r].shares > 0
  }

  ghost predicate PositiveDepth(d: Depth) {
    KeyedDepth(d) && PositiveLevels(d.bids) && PositiveLevels(d.asks) && PositiveOrders(d.orders)
  }

  lemma PositiveAdd(l: LevelMap, price: uint64, shares: uint32)
    requires PositiveLevels(l) && VolumeAt(l, price) + shares < TWO_64 && shares > 0
    ensures PositiveLevels(AddShares(l, price, shares))
  {
  }

  lemma PositiveReplace(l: LevelMap, o: Order, price: uint64, shares: uint32)
    requires PositiveLevels(l) && VolumeBeside(l, o, price) + shares < TWO_64 && shares > 0
    ensures PositiveLevels(ReplaceShares(l, o.price, o.shares, price, shares))
  {
  }

  lemma PositiveSides(d: Depth, a: Intent, side: Side)
    requires PositiveDepth(d) && Positive(a) && Fits(d, a)
    ensures PositiveLevels(SideOf(DepthStep(d, a), side))
  {
    if a.Open? {
      PositiveAdd(SideOf(d, a.side), a.price, a.shares);
    } else if a.Swap? && a.orderRef in d.orders {
      var o := d.orders[a.orderRef];
      PositiveReplace(SideOf(d, o.side), o, a.price, a.shares);
    }
  }

  lemma PositiveStep(d: Depth, a: Intent)
    requires PositiveDepth(d) && Positive(a) && Fits(d, a)
    ensures PositiveDepth(DepthStep(d, a))
  {
    KeyedStep(d, a);
    PositiveSides(d, a, Buy);
    PositiveSides(d, a, Sell);
    OrdersAfter(d, a);
  }

  ghost predicate PositiveGateway(g: Gateway) {
    forall s :: s in g.books ==> PositiveDepth(g.books[s].depth)
  }

  lemma PositivePut(g: Gateway, t: uint64, b: Book, routes: map<uint64, uint64>)
    requires PositiveGateway(g) && PositiveDepth(b.depth)
    ensures PositiveGateway(Gateway(g.books[t := b], routes))
  {
  }

  lemma PositiveRoutedStep(g: Gateway, m: Naive, e: ItchEvent)
    requires Represents(g, m) && PositiveGateway(g) && Positive(IntentOf(e)) && Fresh(m, e)
    requires VolumesFit(NaiveStep(m, e))
    ensures PositiveGateway(RoutedStep(g, e).0)
  {
    match Target(g, IntentOf(e))
    case None =>
    case Some(t) =>
      EventFits(g, m, e, t);
      PositiveStep(BookOr(g, t).depth, IntentOf(e));
      var b' := BookStep(BookOr(g, t), e).0;
      PositivePut(g, t, b', RoutesAfter(g, IntentOf(e), t, b'));
  }

  lemma {:induction false} RunIsPositive(states: seq<Gateway>, events: seq<ItchEvent>, outs: seq<Option<BboUpdate>>)
    requires IsTrace(states, events, outs) && FreshFeed(events) && PositiveFeed(events) && FittingFeed(events)
    ensures PositiveGateway(states[|events|])
    decreases |events|
  {
    if events != [] {
      var k := |events| - 1;
      TraceInit(states, events, outs);
      RunIsPositive(states[..k + 1], events[..k], outs[..k]);
      RunRefines(states[..k + 1], events[..k], outs[..k]);
      ScanIsRouted(states[k], NaiveRun(events[..k]), events[k], states[k + 1], outs[k]);
      PositiveRoutedStep(states[k], NaiveRun(events[..k]), events[k]);
    }
  }

  predicate RestsAt(o: Resting, stock: uint64, side: Side, price: uint64) {
    o.stock == stock && o.order.side == side && o.order.price == price
  }

  /** A level exists exactly where a live order rests. */
  lemma LevelsAreLivePrices(g: Gateway, m: Naive, s: uint64, side: Side, price: uint64)
    requires Represents(g, m) && PositiveGateway(g)
    ensures price in SideOf(BookOr(g, s).depth, side) <==> exists r :: r in m && RestsAt(m[r], s, side, price)
  {
    VolumesAgree(g, m, s, side, price);
    TotalPositive(m, AtStockLevel(s, side, price));
    assert s in g.books ==> PositiveDepth(g.books[s].depth);
    forall r | r in m && RestsAt(m[r], s, side, price) ensures AtStockLevel(s, side, price)(m[r]) > 0 {
      assert HoldsOrder(g, s, r);
    }
    if price in SideOf(BookOr(g, s).depth, side) {
      var r :| r in m && AtStockLevel(s, side, price)(m[r]) > 0;
      assert RestsAt(m[r], s, side, price);
    }
  }

  /** The quote is that of the plain table: no live order on the side means two zeros,
      otherwise the price is the best among the live orders' prices, and the volume is the
      live total there. */
  ghost predicate TrueQuote(q: Quote, m: Naive, s: uint64, side: Side) {
    if exists r :: r in m && m[r].stock == s && m[r].order.side == side then
      && (exists r :: r in m && RestsAt(m[r], s, side, q.price))
      && (forall r :: r in m && m[r].stock == s && m[r].order.side == side ==>
            AtLeastAsGood(side, q.price, m[r].order.price))
      && q.volume == NaiveVolume(m, s, side, q.price)
    else q == Quote(0, 0)
  }

  lemma QuoteIsTrue(g: Gateway, m: Naive, s: uint64, side: Side)
    requires Represents(g, m) && PositiveGateway(g)
    ensures TrueQuote(BestQuote(SideOf(BookOr(g, s).depth, side), side), m, s, side)
  {
    var l := SideOf(BookOr(g, s).depth, side);
    forall r | r in m && m[r].stock == s && m[r].order.side == side ensures m[r].order.price in l {
      LevelsAreLivePrices(g, m, s, side, m[r].order.price);
      assert RestsAt(m[r], s, side, m[r].order.price);
    }
    if l != map[] {
      var p := BestPrice(l, side);
      LevelsAreLivePrices(g, m, s, side, p);
      VolumesAgree(g, m, s, side, p);
      assert s in g.books && PositiveDepth(g.books[s].depth);
      assert l[p].price == p;
    }
  }

  /** After every fresh positive run, each stock's best bid and offer are the highest live
      bid and the lowest live offer of the plain table, with their live volumes. */
  lemma BestQuotesOfRun(states: seq<Gateway>, events: seq<ItchEvent>, outs: seq<Option<BboUpdate>>, s: uint64)
    requires IsTrace(states, events, outs) && FreshFeed(events) && PositiveFeed(events) && FittingFeed(events)
    ensures var bbo := BboOf(BookOr(states[|events|], s).depth);
      && TrueQuote(Quote(bbo.bidPrice, bbo.bidVolume), NaiveRun(events), s, Buy)
      && TrueQuote(Quote(bbo.askPrice, bbo.askVolume), NaiveRun(events), s, Sell)
  {
    RunRefines(states, events, outs);
    RunIsPositive(states, events, outs);
    QuoteIsTrue(states[|events|], NaiveRun(events), s, Buy);
    QuoteIsTrue(states[|events|], NaiveRun(events), s, Sell);
  }
}
