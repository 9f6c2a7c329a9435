/** An atomic replace compared with a delete followed by an add on the same side. */
module Replacement {
  import opened Words
  import opened Events
  import opened Levels
  import opened Books
  import opened Ledger
  import opened Gateways

  /** The same prices with the same volumes; the order counts may differ. */
  ghost predicate SameVolumes(l: LevelMap, k: LevelMap) {
    l.Keys == k.Keys && forall p :: p in l ==> l[p].price == k[p].price && l[p].volume == k[p].volume
  }

  ghost predicate SameMarket(d: Depth, c: Depth) {
    d.orders == c.orders && SameVolumes(d.bids, c.bids) && SameVolumes(d.asks, c.asks)
  }

  function DeleteThenAdd(d: Depth, r: uint64, newRef: uint64, stock: uint64, price: uint64, shares: uint32): Depth
    requires r in d.orders
  {
    DepthStep(DepthStep(d, Close(r)), Open(newRef, stock, d.orders[r].side, price, shares))
  }

  /** The replacement leaves nothing at an unchanged price (or, beyond 64 bits, wraps around to
      nothing): the atomic form then drops the level, while deleting and adding leaves a level
      of no volume. */
  predicate LeavesNothing(l: LevelMap, o: Order, price: uint64, shares: uint32) {
    price == o.price && price in l && (VolumeBeside(l, o, price) + shares) % TWO_64 == 0
  }

  lemma SideComparison(l: LevelMap, o: Order, price: uint64, shares: uint32)
    requires Keyed(l)
    ensures SameVolumes(ReplaceShares(l, o.price, o.shares, price, shares),
                        AddShares(TakeShares(l, o.price, o.shares), price, shares))
       <==> !LeavesNothing(l, o, price, shares)
  {
  }

  /** In any book at all, replacing is deleting and adding (up to order counts) exactly when the
      replacement leaves something at its price. */
  lemma ReplaceIsDeleteThenAdd(d: Depth, r: uint64, newRef: uint64, stock: uint64, price: uint64, shares: uint32)
    requires KeyedDepth(d) && r in d.orders
    ensures SameMarket(DepthStep(d, Swap(r, newRef, price, shares)), DeleteThenAdd(d, r, newRef, stock, price, shares))
       <==> !LeavesNothing(SideOf(d, d.orders[r].side), d.orders[r], price, shares)
  {
    var o := d.orders[r];
    SideComparison(SideOf(d, o.side), o, price, shares);
  }

  /** While volumes fit, only a replacement by no shares can leave nothing. */
  lemma FittingLeavesSomething(l: LevelMap, o: Order, price: uint64, shares: uint32)
    requires VolumeBeside(l, o, price) + shares < TWO_64
    ensures LeavesNothing(l, o, price, shares) <==>
      price == o.price && price in l && shares == 0 && l[price].volume <= o.shares
  {
  }

  lemma RunOne(stock: uint64, e: ItchEvent)
    ensures BookRun(stock, [e]).0.depth == DepthStep(EMPTY_DEPTH, IntentOf(e))
  {
    assert [e][..0] == [];
  }

  lemma RunMore(stock: uint64, events: seq<ItchEvent>, e: ItchEvent)
    ensures BookRun(stock, events + [e]).0.depth == DepthStep(BookRun(stock, events).0.depth, IntentOf(e))
  {
    assert (events + [e])[..|events|] == events;
  }

  lemma AfterAdd(add: ItchEvent)
    requires add == AddOrder(1, 1, Buy, 100, 7, 100)
    ensures BookRun(7, [add]).0.depth
         == Depth(map[100 := PriceLevel(100, 100, 1)], map[], map[1 := Order(Buy, 100, 100)])
  {
    RunOne(7, add);
  }

  lemma AfterDelete(add: ItchEvent, del: ItchEvent)
    requires add == AddOrder(1, 1, Buy, 100, 7, 100) && del == OrderDelete(2, 1)
    ensures BookRun(7, [add, del]).0.depth == EMPTY_DEPTH
  {
    hide BookRun;
    AfterAdd(add);
    RunMore(7, [add], del);
    assert [add] + [del] == [add, del];
    assert map[1 := Order(Buy, 100, 100)] - {1} == map[];
    assert map[100 := PriceLevel(100, 100, 1)] - {100} == map[];
  }

  /** A run on which the two forms differ: 100 shares are replaced by none at the same price.
      The atomic form drops the level; deleting and adding leaves a level without volume. */
  lemma ReplaceCanDiffer()
    ensures var add, rep := AddOrder(1, 1, Buy, 100, 7, 100), OrderReplace(2, 1, 2, 0, 100);
      BookRun(7, [add, rep]).0.depth == Depth(map[], map[], map[2 := Order(Buy, 100, 0)])
    ensures var add, del, again := AddOrder(1, 1, Buy, 100, 7, 100), OrderDelete(2, 1), AddOrder(2, 2, Buy, 0, 7, 100);
      BookRun(7, [add, del, again]).0.depth
      == Depth(map[100 := PriceLevel(100, 0, 1)], map[], map[2 := Order(Buy, 100, 0)])
  {
    hide BookRun;
    var add, rep := AddOrder(1, 1, Buy, 100, 7, 100), OrderReplace(2, 1, 2, 0, 100);
    var del, again := OrderDelete(2, 1), AddOrder(2, 2, Buy, 0, 7, 100);
    AfterAdd(add);
    RunMore(7, [add], rep);
    assert [add] + [rep] == [add, rep];
    AfterDelete(add, del);
    RunMore(7, [add, del], again);
    assert [add, del] + [again] == [add, del, again];
  }

  lemma SameMarketSameBbo(d: Depth, c: Depth)
    requires SameMarket(d, c)
    ensures BboOf(d) == BboOf(c)
  {
  }

  lemma PublishedLast(b: Book, e: ItchEvent)
    ensures var (b', out) := BookStep(b, e);
      && b'.depth == DepthStep(b.depth, IntentOf(e))
      && b'.lastSnapshot == BboOf(b'.depth)
      && b'.stock == b.stock
      && (out.Some? <==> b'.lastSnapshot != b.lastSnapshot)
  {
  }

  /** The replace ends like the delete and then the add, and publishes only if one of them does. */
  ghost predicate AtOnce(b: Book, rep: ItchEvent, del: ItchEvent, add: ItchEvent) {
    var (atomic, out) := BookStep(b, rep);
    var (b1, out1) := BookStep(b, del);
    var (twice, out2) := BookStep(b1, add);
    && SameMarket(atomic.depth, twice.depth)
    && atomic.lastSnapshot == twice.lastSnapshot == BboOf(atomic.depth)
    && (out.Some? ==> out1.Some? || out2.Some?)
  }

  /** In a book where the new shares fit, a replace with shares leaves the same orders, volumes
      and last published best bid and offer as deleting and adding, publishes at most once, and
      only if one of the two others would. */
  lemma AtomicReplace(b: Book, del: ItchEvent, add: ItchEvent, rep: ItchEvent)
    requires KeyedDepth(b.depth) && Fits(b.depth, IntentOf(rep))
    requires rep.OrderReplace? && rep.orderRef in b.depth.orders && rep.shares > 0
    requires del.OrderDelete? && del.orderRef == rep.orderRef
    requires add.AddOrder? || add.AddOrderMpid?
    requires add.orderRef == rep.newOrderRef && add.side == b.depth.orders[rep.orderRef].side
    requires add.price == rep.price && add.shares == rep.shares
    ensures AtOnce(b, rep, del, add)
  {
    var d, o := b.depth, b.depth.orders[rep.orderRef];
    FittingLeavesSomething(SideOf(d, o.side), o, rep.price, rep.shares);
    ReplaceIsDeleteThenAdd(d, rep.orderRef, rep.newOrderRef, add.stock, rep.price, rep.shares);
    assert SameMarket(DepthStep(d, IntentOf(rep)),
                      DeleteThenAdd(d, rep.orderRef, rep.newOrderRef, add.stock, rep.price, rep.shares));
    hide BookStep, DepthStep, SameMarket;
    PublishedLast(b, rep);
    PublishedLast(b, del);
    PublishedLast(BookStep(b, del).0, add);
    SameMarketSameBbo(BookStep(b, rep).0.depth, BookStep(BookStep(b, del).0, add).0.depth);
  }

  // ---------------------------------------------------------------- through the gateway

  ghost predicate SameMarkets(g: Gateway, h: Gateway) {
    && g.routes == h.routes
    && g.books.Keys == h.books.Keys
    && forall s :: s in g.books ==> SameMarket(g.books[s].depth, h.books[s].depth)
                                    && g.books[s].lastSnapshot == h.books[s].lastSnapshot
  }

  /** The replace leaves every stock as the delete and then the add would, and publishes only
      if one of them does. */
  ghost predicate ReplacesAtOnce(g: Gateway, rep: ItchEvent, del: ItchEvent, add: ItchEvent) {
    var (h, out) := RoutedStep(g, rep);
    var (h1, out1) := RoutedStep(g, del);
    var (h2, out2) := RoutedStep(h1, add);
    SameMarkets(h, h2) && (out.Some? ==> out1.Some? || out2.Some?)
  }

  lemma SameMarketRefl(d: Depth)
    ensures SameMarket(d, d)
  {
  }

  lemma BookReplaced(g: Gateway, m: Naive, rep: ItchEvent, del: ItchEvent, add: ItchEvent)
    requires Represents(g, m) && Fresh(m, rep) && VolumesFit(NaiveStep(m, rep))
    requires rep.OrderReplace? && rep.orderRef in m && rep.shares > 0
    requires del.OrderDelete? && del.orderRef == rep.orderRef
    requires add.AddOrder? || add.AddOrderMpid?
    requires add.orderRef == rep.newOrderRef && add.price == rep.price && add.shares == rep.shares
    requires add.stock == m[rep.orderRef].stock && add.side == m[rep.orderRef].order.side
    ensures var s := m[rep.orderRef].stock;
      && rep.orderRef in g.routes && g.routes[rep.orderRef] == s
      && s in g.books && AtOnce(g.books[s], rep, del, add)
  {
    hide BookStep, SameMarket, VolumesFit, NaiveStep, Fresh, AtOnce;
    var s := m[rep.orderRef].stock;
    assert HoldsOrder(g, s, rep.orderRef);
    BookIsSound(g, m, s);
    EventFits(g, m, rep, s);
    AtomicReplace(g.books[s], del, add, rep);
  }

  lemma RoutedReplace(g: Gateway, s: uint64, rep: ItchEvent, del: ItchEvent, add: ItchEvent)
    requires rep.OrderReplace? && rep.orderRef in g.routes && g.routes[rep.orderRef] == s && s in g.books
    requires IntentOf(rep).Swap? && IntentOf(rep).orderRef == rep.orderRef && IntentOf(del) == Close(rep.orderRef)
    requires IntentOf(add).Open? && IntentOf(add).stock == s && IntentOf(add).orderRef == IntentOf(rep).newRef
    requires AtOnce(g.books[s], rep, del, add)
    ensures ReplacesAtOnce(g, rep, del, add)
  {
    hide BookStep, SameMarket, IntentOf;
    var b := g.books[s];
    var routes := (g.routes - {rep.orderRef})[IntentOf(rep).newRef := s];
    var h1 := RoutedStep(g, del).0;
    assert h1 == Gateway(g.books[s := BookStep(b, del).0], g.routes - {rep.orderRef});
    var h2 := RoutedStep(h1, add).0;
    assert h2 == Gateway(h1.books[s := BookStep(BookStep(b, del).0, add).0], routes);
    var h := RoutedStep(g, rep).0;
    assert h == Gateway(g.books[s := BookStep(b, rep).0], routes);
    forall t | t in g.books
      ensures SameMarket(h.books[t].depth, h2.books[t].depth) && h.books[t].lastSnapshot == h2.books[t].lastSnapshot
    {
      SameMarketRefl(g.books[t].depth);
    }
  }

  lemma GatewayReplace(g: Gateway, m: Naive, rep: ItchEvent, del: ItchEvent, add: ItchEvent)
    requires Represents(g, m) && Fresh(m, rep) && VolumesFit(NaiveStep(m, rep))
    requires rep.OrderReplace? && rep.orderRef in m && rep.shares > 0
    requires del.OrderDelete? && del.orderRef == rep.orderRef
    requires add.AddOrder? || add.AddOrderMpid?
    requires add.orderRef == rep.newOrderRef && add.price == rep.price && add.shares == rep.shares
    requires add.stock == m[rep.orderRef].stock && add.side == m[rep.orderRef].order.side
    ensures ReplacesAtOnce(g, rep, del, add)
  {
    hide NaiveStep, VolumesFit, Fresh, Represents, ReplacesAtOnce, AtOnce;
    BookReplaced(g, m, rep, del, add);
    RoutedReplace(g, m[rep.orderRef].stock, rep, del, add);
  }

  /** In every state reached on a fresh feed, an effective replace with shares leaves every
      stock as deleting the old order and adding the new one would. */
  lemma AtomicReplaceOnRun(states: seq<Gateway>, events: seq<ItchEvent>, outs: seq<Option<BboUpdate>>,
                           rep: ItchEvent, del: ItchEvent, add: ItchEvent)
    requires IsTrace(states, events, outs) && FreshFeed(events) && FittingFeed(events)
    requires VolumesFit(NaiveStep(NaiveRun(events), rep))
    requires rep.OrderReplace? && rep.orderRef in NaiveRun(events) && rep.shares > 0
    requires Fresh(NaiveRun(events), rep)
    requires del.OrderDelete? && del.orderRef == rep.orderRef
    requires add.AddOrder? || add.AddOrderMpid?
    requires add.orderRef == rep.newOrderRef && add.price == rep.price && add.shares == rep.shares
    requires var former := NaiveRun(events)[rep.orderRef]; add.stock == former.stock && add.side == former.order.side
    ensures ReplacesAtOnce(states[|events|], rep, del, add)
  {
    RunRefines(states, events, outs);
    assert |states| == |events| + 1;
    hide IsTrace, FreshFeed, FittingFeed, NaiveRun, NaiveStep, VolumesFit, Fresh, Represents, ReplacesAtOnce;
    GatewayReplace(states[|events|], NaiveRun(events), rep, del, add);
  }
}
