/** Share conservation: every share that enters on a fresh feed is executed, cancelled,
    deleted, replaced away, or still standing in the level volumes. */
module Conservation {
  import opened Words
  import opened Totals
  import opened Events
  import opened Levels
  import opened Books
  import opened Ledger
  import opened Gateways

  datatype Flows = Flows(introduced: nat, executed: nat, cancelled: nat, deleted: nat, replacedAway: nat)

  function LiveShares(m: Naive, r: uint64): nat {
    if r in m then m[r].order.shares else 0
  }

  function FlowStep(f: Flows, m: Naive, e: ItchEvent): Flows {
    match e
    case AddOrder(_, _, _, shares, _, _) => f.(introduced := f.introduced + shares)
    case AddOrderMpid(_, _, _, shares, _, _, _) => f.(introduced := f.introduced + shares)
    case OrderExecuted(_, r, shares, _) => f.(executed := f.executed + Min(shares, LiveShares(m, r)))
    case OrderExecutedPrice(_, r, shares, _, _, _) => f.(executed := f.executed + Min(shares, LiveShares(m, r)))
    case OrderCancel(_, r, shares) => f.(cancelled := f.cancelled + Min(shares, LiveShares(m, r)))
    case OrderDelete(_, r) => f.(deleted := f.deleted + LiveShares(m, r))
    case OrderReplace(_, r, _, shares, _) =>
      if r in m then f.(replacedAway := f.replacedAway + LiveShares(m, r), introduced := f.introduced + shares) else f
    case StockDirectory(_, _, _, _, _, _, _) => f
    case SystemEvent(_, _) => f
  }

  function FlowsOf(events: seq<ItchEvent>): Flows {
    if events == [] then Flows(0, 0, 0, 0, 0)
    else FlowStep(FlowsOf(events[..|events| - 1]), NaiveRun(events[..|events| - 1]), events[|events| - 1])
  }

  function Left(f: Flows): int {
    f.introduced - f.executed - f.cancelled - f.deleted - f.replacedAway
  }

  ghost function RestingShares(): Resting -> nat { (o: Resting) => o.order.shares }

  ghost function Outstanding(m: Naive): nat {
    Total(m, RestingShares())
  }

  lemma OutstandingLess(m: Naive, r: uint64, shares: uint32)
    ensures Outstanding(Lessened(m, r, shares)) == Outstanding(m) - Min(shares, LiveShares(m, r))
  {
    var w := RestingShares();
    if r in m {
      TotalRemove(m, w, r);
      if shares < m[r].order.shares {
        TotalInsert(m, w, r, Resting(m[r].stock, m[r].order.(shares := m[r].order.shares - shares)));
      }
    }
  }

  lemma OutstandingMore(m: Naive, r: uint64, o: Resting)
    requires r !in m
    ensures Outstanding(m[r := o]) == Outstanding(m) + o.order.shares
  {
    TotalInsert(m, RestingShares(), r, o);
    TotalAbsent(m, RestingShares(), r);
  }

  lemma OutstandingWithout(m: Naive, r: uint64)
    ensures Outstanding(m - {r}) == Outstanding(m) - LiveShares(m, r)
  {
    if r in m { TotalRemove(m, RestingShares(), r); } else { TotalAbsent(m, RestingShares(), r); }
  }

  lemma OutstandingStep(f: Flows, m: Naive, e: ItchEvent)
    requires Fresh(m, e) && Left(f) == Outstanding(m)
    ensures Left(FlowStep(f, m, e)) == Outstanding(NaiveStep(m, e))
  {
    hide Outstanding;
    match e
    case AddOrder(_, r, side, shares, stock, price) =>
      OutstandingMore(m, r, Resting(stock, Order(side, price, shares)));
    case AddOrderMpid(_, r, side, shares, stock, price, _) =>
      OutstandingMore(m, r, Resting(stock, Order(side, price, shares)));
    case OrderExecuted(_, r, shares, _) => OutstandingLess(m, r, shares);
    case OrderExecutedPrice(_, r, shares, _, _, _) => OutstandingLess(m, r, shares);
    case OrderCancel(_, r, shares) => OutstandingLess(m, r, shares);
    case OrderDelete(_, r) => OutstandingWithout(m, r);
    case OrderReplace(_, r, newRef, shares, price) =>
      if r in m {
        OutstandingWithout(m, r);
        OutstandingMore(m - {r}, newRef, Resting(m[r].stock, Order(m[r].order.side, price, shares)));
      }
    case _ =>
  }

  lemma {:induction false} FlowsBalance(events: seq<ItchEvent>)
    requires FreshFeed(events)
    ensures Left(FlowsOf(events)) == Outstanding(NaiveRun(events))
  {
    if events != [] {
      FlowsBalance(events[..|events| - 1]);
      OutstandingStep(FlowsOf(events[..|events| - 1]), NaiveRun(events[..|events| - 1]), events[|events| - 1]);
    }
  }

  // ---------------------------------------------------------------- sums of level volumes

  ghost function LevelVolume(): PriceLevel -> nat { (l: PriceLevel) => l.volume }

  ghost function SharesOn(side: Side): Order -> nat { (o: Order) => if o.side == side then o.shares else 0 }

  ghost function OrderShares(): Order -> nat { (o: Order) => o.shares }

  ghost function PriceOf(): Order -> uint64 { (o: Order) => o.price }

  ghost function SideVolume(l: LevelMap): nat {
    Total(l, LevelVolume())
  }

  ghost function BookVolume(): Book -> nat {
    (b: Book) => SideVolume(b.depth.bids) + SideVolume(b.depth.asks)
  }

  ghost function StockOf(): Resting -> uint64 { (o: Resting) => o.stock }

  /** All level volumes on both sides of all books. */
  ghost function StandingVolume(g: Gateway): nat {
    Total(g.books, BookVolume())
  }

  /** With no orphans, a side's volumes add up to its orders' shares. */
  lemma SideVolumeIsLive(d: Depth, side: Side)
    requires Balanced(d, map[])
    ensures SideVolume(SideOf(d, side)) == Total(d.orders, SharesOn(side))
  {
    var l, w, c := SideOf(d, side), SharesOn(side), PriceOf();
    forall p | p in l ensures LevelVolume()(l[p]) == Total(d.orders, Within(w, c, p)) {
      assert VolumeAt(SideOf(d, side), p) == LiveAt(d.orders, side, p) + OrphanedAt(map[], side, p);
      TotalTransfer(d.orders, AtLevel(side, p), d.orders, Within(w, c, p));
    }
    forall r | r in d.orders && w(d.orders[r]) > 0 ensures c(d.orders[r]) in l {
      var p := d.orders[r].price;
      assert VolumeAt(SideOf(d, side), p) == LiveAt(d.orders, side, p) + OrphanedAt(map[], side, p);
      LiveWithout(d.orders, r, side, p);
    }
    GroupedTotal(d.orders, w, c, l, LevelVolume());
  }

  lemma BookVolumeIsLive(b: Book)
    requires Balanced(b.depth, map[])
    ensures BookVolume()(b) == Total(b.depth.orders, OrderShares())
  {
    SideVolumeIsLive(b.depth, Buy);
    SideVolumeIsLive(b.depth, Sell);
    TotalAdd(b.depth.orders, OrderShares(), SharesOn(Buy), SharesOn(Sell));
  }

  lemma StandingIsOutstanding(g: Gateway, m: Naive)
    requires Represents(g, m)
    ensures StandingVolume(g) == Outstanding(m)
  {
    var w, c := RestingShares(), StockOf();
    forall s | s in g.books ensures BookVolume()(g.books[s]) == Total(m, Within(w, c, s)) {
      assert SoundBook(g.books[s], s);
      BookVolumeIsLive(g.books[s]);
      var orders := g.books[s].depth.orders;
      forall r | r in orders ensures r in m && OrderShares()(orders[r]) == Within(w, c, s)(m[r]) {
        assert HoldsOrder(g, s, r);
      }
      forall r | r in m && r !in orders ensures Within(w, c, s)(m[r]) == 0 {
        assert HoldsOrder(g, m[r].stock, r);
      }
      TotalTransfer(orders, OrderShares(), m, Within(w, c, s));
    }
    forall r | r in m && w(m[r]) > 0 ensures c(m[r]) in g.books {
      assert HoldsOrder(g, m[r].stock, r);
    }
    GroupedTotal(m, w, c, g.books, BookVolume());
  }

  /** Over every fresh run: introduced shares = executed + cancelled + deleted + replaced
      away + the sum of all level volumes of all books. */
  lemma SharesAreConserved(states: seq<Gateway>, events: seq<ItchEvent>, outs: seq<Option<BboUpdate>>)
    requires IsTrace(states, events, outs) && FreshFeed(events) && FittingFeed(events)
    ensures var f := FlowsOf(events);
      f.introduced == f.executed + f.cancelled + f.deleted + f.replacedAway + StandingVolume(states[|events|])
  {
    RunRefines(states, events, outs);
    FlowsBalance(events);
    hide Represents, StandingVolume, Outstanding, NaiveRun, FlowsOf, FreshFeed, FittingFeed, Next;
    StandingIsOutstanding(states[|events|], NaiveRun(events));
  }
}
