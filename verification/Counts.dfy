/** How far a level's order_count can be trusted. It is decremented on partial executions
    and cancels too, so it is a lower bound of the live orders there, and only while no
    order without shares is executed or cancelled; it is their number exactly while nothing is
    reduced partially and 32 bits can count them. */
module Counts {
  import opened Words
  import opened Totals
  import opened Events
  import opened Levels
  import opened Books
  import opened Ledger
  import opened Gateways
  import opened Quotes

  ghost function OneAt(side: Side, price: uint64): Order -> nat {
    (o: Order) => if o.side == side && o.price == price then 1 else 0
  }

  ghost function LiveCount(orders: OrderMap, side: Side, price: uint64): nat {
    Total(orders, OneAt(side, price))
  }

  ghost predicate CountsCovered(d: Depth) {
    forall side, price :: CountAt(SideOf(d, side), price) <= LiveCount(d.orders, side, price)
  }

  ghost predicate CountsExact(d: Depth) {
    forall side, price :: CountAt(SideOf(d, side), price) == LiveCount(d.orders, side, price)
  }

  /** The intent retires a live order that has no shares, at a level whose count leaves no slack. */
  ghost predicate RetiresUncounted(d: Depth, a: Intent) {
    && a.Reduce? && a.orderRef in d.orders
    && var o := d.orders[a.orderRef];
       o.shares == 0 && CountAt(SideOf(d, o.side), o.price) == LiveCount(d.orders, o.side, o.price)
  }

  /** A reduction that leaves the order live. */
  predicate Partial(d: Depth, a: Intent) {
    a.Reduce? && a.orderRef in d.orders && 0 < a.shares < d.orders[a.orderRef].shares
  }

  ghost function OneIf(o: Order, side: Side, price: uint64): nat {
    OneAt(side, price)(o)
  }

  lemma CountWithout(orders: OrderMap, r: uint64, side: Side, price: uint64)
    requires r in orders
    ensures LiveCount(orders, side, price) == OneIf(orders[r], side, price) + LiveCount(orders - {r}, side, price)
  {
    TotalRemove(orders, OneAt(side, price), r);
  }

  lemma CountWith(orders: OrderMap, r: uint64, o: Order, side: Side, price: uint64)
    requires r !in orders
    ensures LiveCount(orders[r := o], side, price) == OneIf(o, side, price) + LiveCount(orders, side, price)
  {
    TotalInsert(orders, OneAt(side, price), r, o);
    TotalAbsent(orders, OneAt(side, price), r);
  }

  lemma CountReplaced(orders: OrderMap, r: uint64, o: Order, side: Side, price: uint64)
    requires r in orders && o.side == orders[r].side && o.price == orders[r].price
    ensures LiveCount(orders[r := o], side, price) == LiveCount(orders, side, price)
  {
    TotalInsert(orders, OneAt(side, price), r, o);
    CountWithout(orders, r, side, price);
  }

  /** Live orders at one level after an intent that overwrites no live order. */
  lemma CountAfter(d: Depth, a: Intent, side: Side, price: uint64)
    requires Overwritten(d, a) == None
    ensures LiveCount(DepthStep(d, a).orders, side, price) == LiveCount(d.orders, side, price)
         - (if a.Ignore? || a.Open? || a.orderRef !in d.orders || (a.Reduce? && a.shares < d.orders[a.orderRef].shares)
            then 0 else OneIf(d.orders[a.orderRef], side, price))
         + (match a
            case Open(_, _, s, p, shares) => OneIf(Order(s, p, shares), side, price)
            case Swap(r, _, p, shares) =>
              if r in d.orders then OneIf(Order(d.orders[r].side, p, shares), side, price) else 0
            case _ => 0)
  {
    OrdersAfter(d, a);
    match a
    case Open(r, _, s, p, shares) => CountWith(d.orders, r, Order(s, p, shares), side, price);
    case Reduce(r, shares) =>
      if r in d.orders {
        CountWithout(d.orders, r, side, price);
        CountReplaced(d.orders, r, d.orders[r].(shares := SatSub(d.orders[r].shares, shares)), side, price);
      }
    case Close(r) =>
      if r in d.orders {
        CountWithout(d.orders, r, side, price);
      } else {
        TotalAbsent(d.orders, OneAt(side, price), r);
      }
    case Swap(r, newRef, p, shares) =>
      if r in d.orders {
        CountWithout(d.orders, r, side, price);
        CountWith(d.orders - {r}, newRef, Order(d.orders[r].side, p, shares), side, price);
      }
    case Ignore =>
  }

  // ---------------------------------------------------------------- counts of levels

  lemma CountAdd(l: LevelMap, price: uint64, shares: uint32, p: uint64)
    ensures CountAt(AddShares(l, price, shares), p)
         == if p == price then (CountAt(l, price) + 1) % TWO_32 else CountAt(l, p)
  {
  }

  lemma CountTake(l: LevelMap, price: uint64, shares: uint32, p: uint64)
    ensures p != price ==> CountAt(TakeShares(l, price, shares), p) == CountAt(l, p)
    ensures CountAt(TakeShares(l, price, shares), price)
         == if VolumeAt(l, price) <= shares then 0 else SatSub(CountAt(l, price), 1)
  {
  }

  function CountKept(l: LevelMap, price: uint64, oldShares: uint32, newShares: uint32): nat {
    if price !in l then 1
    else if (SatSub(VolumeAt(l, price), oldShares) + newShares) % TWO_64 == 0 then 0
    else CountAt(l, price)
  }

  /** A replacement at an unchanged price keeps the count, unless it empties the level. */
  lemma CountReplace(l: LevelMap, oldPrice: uint64, oldShares: uint32, newPrice: uint64, newShares: uint32, p: uint64)
    ensures var l' := ReplaceShares(l, oldPrice, oldShares, newPrice, newShares);
      && (p != oldPrice && p != newPrice ==> CountAt(l', p) == CountAt(l, p))
      && (oldPrice != newPrice ==> CountAt(l', newPrice) == (CountAt(l, newPrice) + 1) % TWO_32)
      && (oldPrice != newPrice ==> CountAt(l', oldPrice) == CountAt(TakeShares(l, oldPrice, oldShares), oldPrice))
      && (oldPrice == newPrice ==> CountAt(l', oldPrice) == CountKept(l, oldPrice, oldShares, newShares))
  {
  }

  // ---------------------------------------------------------------- counts never exceed live orders

  lemma CoverOpen(d: Depth, a: Intent, side: Side, price: uint64)
    requires a.Open? && CountsCovered(d) && Overwritten(d, a) == None
    ensures CountAt(SideOf(DepthStep(d, a), side), price) <= LiveCount(DepthStep(d, a).orders, side, price)
  {
    CountAfter(d, a, side, price);
    CountAdd(SideOf(d, a.side), a.price, a.shares, price);
    assert CountAt(SideOf(d, side), price) <= LiveCount(d.orders, side, price);
  }

  lemma CoverTake(d: Depth, a: Intent, side: Side, price: uint64)
    requires (a.Reduce? || a.Close?) && a.orderRef in d.orders && CountsCovered(d) && !RetiresUncounted(d, a)
    ensures CountAt(SideOf(DepthStep(d, a), side), price) <= LiveCount(DepthStep(d, a).orders, side, price)
  {
    var o := d.orders[a.orderRef];
    CountAfter(d, a, side, price);
    CountWithout(d.orders, a.orderRef, side, price);
    CountTake(SideOf(d, o.side), o.price, if a.Reduce? then Min(a.shares, o.shares) else o.shares, price);
    assert CountAt(SideOf(d, side), price) <= LiveCount(d.orders, side, price);
  }

  lemma CoverSwap(d: Depth, a: Intent, side: Side, price: uint64)
    requires a.Swap? && a.orderRef in d.orders && CountsCovered(d) && Overwritten(d, a) == None
    ensures CountAt(SideOf(DepthStep(d, a), side), price) <= LiveCount(DepthStep(d, a).orders, side, price)
  {
    var o := d.orders[a.orderRef];
    CountAfter(d, a, side, price);
    CountWithout(d.orders, a.orderRef, side, price);
    CountReplace(SideOf(d, o.side), o.price, o.shares, a.price, a.shares, price);
    CountTake(SideOf(d, o.side), o.price, o.shares, price);
    assert CountAt(SideOf(d, side), price) <= LiveCount(d.orders, side, price);
  }

  /** No event lets a count exceed the live orders it stands for, except the one case above,
      and that case always does. A count that wraps around only gets smaller. */
  lemma CoverStep(d: Depth, a: Intent)
    requires CountsCovered(d) && Overwritten(d, a) == None
    ensures CountsCovered(DepthStep(d, a)) <==> !RetiresUncounted(d, a)
  {
    var d' := DepthStep(d, a);
    if RetiresUncounted(d, a) {
      var o := d.orders[a.orderRef];
      CountAfter(d, a, o.side, o.price);
      assert CountAt(SideOf(d', o.side), o.price) > LiveCount(d'.orders, o.side, o.price);
    } else {
      forall side, price ensures CountAt(SideOf(d', side), price) <= LiveCount(d'.orders, side, price) {
        if a.Open? {
          CoverOpen(d, a, side, price);
        } else if a.Ignore? || a.orderRef !in d.orders {
          assert CountAt(SideOf(d, side), price) <= LiveCount(d.orders, side, price);
        } else if a.Swap? {
          CoverSwap(d, a, side, price);
        } else {
          CoverTake(d, a, side, price);
        }
      }
    }
  }

  // ---------------------------------------------------------------- exact counts

  /** On a positive book whose ledger is exact, a level without volume has no live orders. */
  lemma NoVolumeNoOrders(d: Depth, side: Side, price: uint64)
    requires Balanced(d, map[]) && PositiveOrders(d.orders) && VolumeAt(SideOf(d, side), price) == 0
    ensures LiveCount(d.orders, side, price) == 0
  {
    assert VolumeAt(SideOf(d, side), price) == LiveAt(d.orders, side, price) + OrphanedAt(map[], side, price);
    TotalPositive(d.orders, AtLevel(side, price));
    TotalPositive(d.orders, OneAt(side, price));
    assert forall r :: r in d.orders && OneAt(side, price)(d.orders[r]) > 0 ==> AtLevel(side, price)(d.orders[r]) > 0;
  }

  lemma ExactTake(d: Depth, a: Intent, side: Side, price: uint64)
    requires (a.Reduce? || a.Close?) && a.orderRef in d.orders && !Partial(d, a) && (a.Reduce? ==> a.shares > 0)
    requires CountsExact(d) && PositiveDepth(d)
    requires VolumeAt(SideOf(DepthStep(d, a), side), price) == 0 ==> LiveCount(DepthStep(d, a).orders, side, price) == 0
    ensures CountAt(SideOf(DepthStep(d, a), side), price) == LiveCount(DepthStep(d, a).orders, side, price)
  {
    var o := d.orders[a.orderRef];
    CountAfter(d, a, side, price);
    CountWithout(d.orders, a.orderRef, side, price);
    CountTake(SideOf(d, o.side), o.price, o.shares, price);
    assert CountAt(SideOf(d, side), price) == LiveCount(d.orders, side, price);
  }

  lemma ExactSwap(d: Depth, a: Intent, side: Side, price: uint64)
    requires a.Swap? && a.orderRef in d.orders && a.shares > 0 && Fits(d, a)
    requires CountsExact(d) && PositiveDepth(d) && Overwritten(d, a) == None && Balanced(d, map[])
    requires VolumeAt(SideOf(DepthStep(d, a), side), price) == 0 ==> LiveCount(DepthStep(d, a).orders, side, price) == 0
    requires LiveCount(DepthStep(d, a).orders, side, price) < TWO_32
    ensures CountAt(SideOf(DepthStep(d, a), side), price) == LiveCount(DepthStep(d, a).orders, side, price)
  {
    hide LiveCount, LiveAt, ReplaceShares, TakeShares, PositiveLevels, KeyedDepth;
    var o := d.orders[a.orderRef];
    CountAfter(d, a, side, price);
    CountWithout(d.orders, a.orderRef, side, price);
    NeverClips(d, map[], a.orderRef);
    ReplaceVolume(SideOf(d, o.side), o.price, o.shares, a.price, a.shares, price);
    CountReplace(SideOf(d, o.side), o.price, o.shares, a.price, a.shares, price);
    CountTake(SideOf(d, o.side), o.price, o.shares, price);
    assert CountAt(SideOf(d, side), price) == LiveCount(d.orders, side, price);
  }

  lemma ExactOpen(d: Depth, a: Intent, side: Side, price: uint64)
    requires a.Open? && CountsExact(d) && Overwritten(d, a) == None
    requires LiveCount(DepthStep(d, a).orders, side, price) < TWO_32
    ensures CountAt(SideOf(DepthStep(d, a), side), price) == LiveCount(DepthStep(d, a).orders, side, price)
  {
    CountAfter(d, a, side, price);
    CountAdd(SideOf(d, a.side), a.price, a.shares, price);
    assert CountAt(SideOf(d, side), price) == LiveCount(d.orders, side, price);
  }

  lemma ExactStill(d: Depth, a: Intent)
    requires a.Ignore? || (!a.Open? && a.orderRef !in d.orders) || (a.Reduce? && a.shares == 0 && PositiveDepth(d))
    ensures DepthStep(d, a) == d
  {
    if a.Reduce? && a.orderRef in d.orders {
      assert d.orders[a.orderRef := d.orders[a.orderRef]] == d.orders;
    }
  }

  lemma ExactAt(d: Depth, a: Intent, side: Side, price: uint64)
    requires Balanced(d, map[]) && PositiveDepth(d) && CountsExact(d) && Fits(d, a)
    requires Overwritten(d, a) == None && Positive(a) && !Partial(d, a)
    requires LiveCount(DepthStep(d, a).orders, side, price) < TWO_32
    ensures CountAt(SideOf(DepthStep(d, a), side), price) == LiveCount(DepthStep(d, a).orders, side, price)
  {
    hide DepthStep, LiveCount, Balanced, Fits, PositiveLevels, KeyedDepth;
    var d' := DepthStep(d, a);
    BalancedStep(d, map[], a);
    PositiveStep(d, a);
    assert CountAt(SideOf(d, side), price) == LiveCount(d.orders, side, price);
    if VolumeAt(SideOf(d', side), price) == 0 { NoVolumeNoOrders(d', side, price); }
    if a.Open? {
      ExactOpen(d, a, side, price);
    } else if a.Ignore? || a.orderRef !in d.orders || (a.Reduce? && a.shares == 0) {
      ExactStill(d, a);
    } else if a.Swap? {
      ExactSwap(d, a, side, price);
    } else {
      ExactTake(d, a, side, price);
    }
  }

  lemma PartialMiscounts(d: Depth, a: Intent)
    requires CountsExact(d) && Partial(d, a)
    ensures !CountsExact(DepthStep(d, a))
  {
    var o := d.orders[a.orderRef];
    CountAfter(d, a, o.side, o.price);
    CountWithout(d.orders, a.orderRef, o.side, o.price);
    CountTake(SideOf(d, o.side), o.price, a.shares, o.price);
    assert CountAt(SideOf(d, o.side), o.price) == LiveCount(d.orders, o.side, o.price);
    assert CountAt(SideOf(DepthStep(d, a), o.side), o.price) < LiveCount(DepthStep(d, a).orders, o.side, o.price);
  }

  ghost predicate CountsFit(d: Depth) {
    forall side, price :: LiveCount(d.orders, side, price) < TWO_32
  }

  lemma CountIsWord(l: LevelMap, price: uint64)
    ensures CountAt(l, price) < TWO_32
  {
  }

  /** On a positive, fresh feed an event keeps the counts exact exactly when it does not
      reduce an order partially and the live orders at each level can be counted in 32 bits. */
  lemma ExactStep(d: Depth, a: Intent)
    requires Balanced(d, map[]) && PositiveDepth(d) && CountsExact(d) && Fits(d, a)
    requires Overwritten(d, a) == None && Positive(a)
    ensures CountsExact(DepthStep(d, a)) <==> !Partial(d, a) && CountsFit(DepthStep(d, a))
  {
    var d' := DepthStep(d, a);
    if CountsExact(d') {
      if Partial(d, a) { PartialMiscounts(d, a); }
      forall side, price ensures LiveCount(d'.orders, side, price) < TWO_32 {
        CountIsWord(SideOf(d', side), price);
      }
    } else if !Partial(d, a) && CountsFit(d') {
      forall side, price ensures CountAt(SideOf(d', side), price) == LiveCount(d'.orders, side, price) {
        ExactAt(d, a, side, price);
      }
    }
  }

  // ---------------------------------------------------------------- covered counts on runs

  ghost predicate CoveredGateway(g: Gateway) {
    forall s :: s in g.books ==> CountsCovered(g.books[s].depth)
  }

  lemma EmptyCounts()
    ensures CountsExact(EMPTY_DEPTH) && CountsCovered(EMPTY_DEPTH)
  {
  }

  /** Does the event, routed, retire a shareless order at a level without slack? */
  ghost predicate RetiresIn(g: Gateway, a: Intent) {
    Target(g, a).Some? && RetiresUncounted(BookOr(g, Target(g, a).value).depth, a)
  }

  lemma CoverDelivered(g: Gateway, m: Naive, e: ItchEvent, t: uint64)
    requires OrdersAgree(g, m) && CoveredGateway(g) && Fresh(m, e)
    ensures CountsCovered(BookStep(BookOr(g, t), e).0.depth) <==> !RetiresUncounted(BookOr(g, t).depth, IntentOf(e))
  {
    EmptyCounts();
    FreshOverwritesNothing(g, m, t, e);
    CoverStep(BookOr(g, t).depth, IntentOf(e));
  }

  lemma CoverPut(g: Gateway, t: uint64, b: Book, g': Gateway)
    requires CoveredGateway(g) && g'.books == g.books[t := b]
    ensures CoveredGateway(g') <==> CountsCovered(b.depth)
  {
    hide CountsCovered;
    assert g'.books[t] == b;
  }

  /** One event on a fresh feed keeps every count within the live orders iff it does not
      retire a shareless order at a level without slack. */
  lemma CoverNext(g: Gateway, m: Naive, e: ItchEvent, g': Gateway, out: Option<BboUpdate>)
    requires RoutesAgree(g, m) && OrdersAgree(g, m) && CoveredGateway(g)
    requires Fresh(m, e) && Next(g, e, g', out)
    ensures CoveredGateway(g') <==> !RetiresIn(g, IntentOf(e))
  {
    hide Next, BookStep, CountsCovered, RetiresUncounted, Fresh, RoutesAgree, OrdersAgree;
    ScanIsRouted(g, m, e, g', out);
    match Target(g, IntentOf(e))
    case None =>
    case Some(t) =>
      CoverDelivered(g, m, e, t);
      CoverPut(g, t, BookStep(BookOr(g, t), e).0, g');
  }

  /** In every state of the run. */
  ghost predicate Always(states: seq<Gateway>, holds: Gateway -> bool) {
    forall i :: 0 <= i < |states| ==> holds(states[i])
  }

  lemma LastState(states: seq<Gateway>, holds: Gateway -> bool)
    requires states != []
    ensures Always(states, holds) <==> Always(states[..|states| - 1], holds) && holds(states[|states| - 1])
  {
    var k := |states| - 1;
    if Always(states[..k], holds) {
      assert forall i :: 0 <= i < k ==> states[..k][i] == states[i];
    }
  }

  ghost predicate NeverRetires(states: seq<Gateway>, events: seq<ItchEvent>)
    requires |states| == |events| + 1
  {
    forall i :: 0 <= i < |events| ==> !RetiresIn(states[i], IntentOf(events[i]))
  }

  lemma LastEvent(states: seq<Gateway>, events: seq<ItchEvent>)
    requires events != [] && |states| == |events| + 1
    ensures NeverRetires(states, events) <==>
      NeverRetires(states[..|events|], events[..|events| - 1])
      && !RetiresIn(states[|events| - 1], IntentOf(events[|events| - 1]))
  {
    hide RetiresIn, IntentOf;
    var k := |events| - 1;
    if NeverRetires(states[..k + 1], events[..k]) {
      assert forall i :: 0 <= i < k ==> states[..k + 1][i] == states[i] && events[..k][i] == events[i];
    }
  }

  /** On every fresh run, positive or not and however large, the counts stay within the live
      orders all along exactly when no event retires a shareless order at a level without slack. */
  lemma {:induction false} CoveredExactly(states: seq<Gateway>, events: seq<ItchEvent>, outs: seq<Option<BboUpdate>>)
    requires IsTrace(states, events, outs) && FreshFeed(events)
    ensures Always(states, CoveredGateway) <==> NeverRetires(states, events)
    decreases |events|
  {
    if events == [] {
      assert CoveredGateway(EMPTY_GATEWAY);
    } else {
      hide Next, RoutesAgree, OrdersAgree, NaiveStep, Fresh, CoveredGateway, RetiresIn;
      var k := |events| - 1;
      TraceInit(states, events, outs);
      CoveredExactly(states[..k + 1], events[..k], outs[..k]);
      RunAgrees(states[..k + 1], events[..k], outs[..k]);
      if Always(states[..k + 1], CoveredGateway) {
        assert CoveredGateway(states[..k + 1][k]);
        CoverNext(states[k], NaiveRun(events[..k]), events[k], states[k + 1], outs[k]);
      }
      LastState(states, CoveredGateway);
      LastEvent(states, events);
    }
  }

  ghost predicate PositiveTable(m: Naive) {
    forall r :: r in m ==> m[r].order.shares > 0
  }

  lemma {:induction false} RunHasShares(events: seq<ItchEvent>)
    requires PositiveFeed(events)
    ensures PositiveTable(NaiveRun(events))
  {
    if events != [] {
      var k := |events| - 1;
      RunHasShares(events[..k]);
      assert Positive(IntentOf(events[k]));
    }
  }

  /** A table whose orders all have shares leaves nothing to retire without them. */
  lemma NothingToRetire(g: Gateway, m: Naive, a: Intent)
    requires OrdersAgree(g, m) && PositiveTable(m)
    ensures !RetiresIn(g, a)
  {
    if Target(g, a).Some? && a.Reduce? && a.orderRef in BookOr(g, Target(g, a).value).depth.orders {
      assert HoldsOrder(g, Target(g, a).value, a.orderRef);
    }
  }

  lemma {:induction false} PositiveNeverRetires(states: seq<Gateway>, events: seq<ItchEvent>,
                                                outs: seq<Option<BboUpdate>>)
    requires IsTrace(states, events, outs) && FreshFeed(events) && PositiveFeed(events)
    ensures NeverRetires(states, events)
    decreases |events|
  {
    if events != [] {
      hide Next, RoutesAgree, OrdersAgree, NaiveStep, Fresh, RetiresIn, PositiveTable;
      var k := |events| - 1;
      TraceInit(states, events, outs);
      PositiveNeverRetires(states[..k + 1], events[..k], outs[..k]);
      RunAgrees(states[..k + 1], events[..k], outs[..k]);
      RunHasShares(events[..k]);
      NothingToRetire(states[k], NaiveRun(events[..k]), IntentOf(events[k]));
      LastEvent(states, events);
    }
  }

  // ---------------------------------------------------------------- exact counts on runs

  ghost function OneAtStock(stock: uint64, side: Side, price: uint64): Resting -> nat {
    (o: Resting) => if o.stock == stock && o.order.side == side && o.order.price == price then 1 else 0
  }

  /** Live orders of the plain table at one stock, side and price. */
  ghost function NaiveCount(m: Naive, stock: uint64, side: Side, price: uint64): nat {
    Total(m, OneAtStock(stock, side, price))
  }

  /** No level has more live orders than 32 bits can count. */
  ghost predicate Countable(m: Naive) {
    forall s, side, price :: NaiveCount(m, s, side, price) < TWO_32
  }

  /** Not during the feed either. */
  ghost predicate CountableFeed(events: seq<ItchEvent>) {
    events == [] || (CountableFeed(events[..|events| - 1]) && Countable(NaiveRun(events)))
  }

  lemma BookCountsItsShare(g: Gateway, m: Naive, s: uint64, side: Side, price: uint64)
    requires OrdersAgree(g, m)
    ensures LiveCount(BookOr(g, s).depth.orders, side, price) == NaiveCount(m, s, side, price)
  {
    var orders := BookOr(g, s).depth.orders;
    forall r | r in orders
      ensures r in m && OneAt(side, price)(orders[r]) == OneAtStock(s, side, price)(m[r])
    {
      assert HoldsOrder(g, s, r);
    }
    forall r | r in m && r !in orders ensures OneAtStock(s, side, price)(m[r]) == 0 {
      assert HoldsOrder(g, m[r].stock, r);
    }
    TotalTransfer(orders, OneAt(side, price), m, OneAtStock(s, side, price));
  }

  lemma {:induction false} VolumeOfCount(m: Naive, s: uint64, side: Side, price: uint64)
    ensures NaiveVolume(m, s, side, price) <= NaiveCount(m, s, side, price) * MAX_U32
    decreases |m|
  {
    if r :| r in m {
      Smaller(m, r);
      TotalRemove(m, AtStockLevel(s, side, price), r);
      TotalRemove(m, OneAtStock(s, side, price), r);
      VolumeOfCount(m - {r}, s, side, price);
      assert AtStockLevel(s, side, price)(m[r]) <= OneAtStock(s, side, price)(m[r]) * MAX_U32;
    } else {
      assert m == map[];
    }
  }

  /** What can be counted in 32 bits can be added up in 64. */
  lemma CountableFits(m: Naive)
    requires Countable(m)
    ensures VolumesFit(m)
  {
    forall s, side, price ensures NaiveVolume(m, s, side, price) < TWO_64 {
      VolumeOfCount(m, s, side, price);
      FewFit(NaiveCount(m, s, side, price));
    }
  }

  lemma {:induction false} CountableFeedFits(events: seq<ItchEvent>)
    requires CountableFeed(events)
    ensures FittingFeed(events)
  {
    if events != [] {
      CountableFeedFits(events[..|events| - 1]);
      CountableFits(NaiveRun(events));
    }
  }

  ghost predicate ExactGateway(g: Gateway) {
    forall s :: s in g.books ==> CountsExact(g.books[s].depth)
  }

  lemma ExactIsCountable(g: Gateway, m: Naive)
    requires OrdersAgree(g, m) && ExactGateway(g)
    ensures Countable(m)
  {
    hide OrdersAgree;
    EmptyCounts();
    forall s, side, price ensures NaiveCount(m, s, side, price) < TWO_32 {
      BookCountsItsShare(g, m, s, side, price);
      CountIsWord(SideOf(BookOr(g, s).depth, side), price);
      assert CountAt(SideOf(BookOr(g, s).depth, side), price) == LiveCount(BookOr(g, s).depth.orders, side, price);
    }
  }

  lemma CountableIsCounted(g: Gateway, m: Naive, s: uint64)
    requires OrdersAgree(g, m) && Countable(m)
    ensures CountsFit(BookOr(g, s).depth)
  {
    hide OrdersAgree;
    forall side, price ensures LiveCount(BookOr(g, s).depth.orders, side, price) < TWO_32 {
      BookCountsItsShare(g, m, s, side, price);
    }
  }

  /** The event reduces a live order and leaves it live. */
  predicate PartialOn(m: Naive, a: Intent) {
    a.Reduce? && a.orderRef in m && 0 < a.shares < m[a.orderRef].order.shares
  }

  lemma PartialIsOn(g: Gateway, m: Naive, a: Intent, t: uint64)
    requires RoutesAgree(g, m) && OrdersAgree(g, m) && Target(g, a) == Some(t)
    ensures Partial(BookOr(g, t).depth, a) <==> PartialOn(m, a)
  {
    if a.Reduce? { assert HoldsOrder(g, t, a.orderRef); }
  }

  lemma RoutedDepth(g: Gateway, e: ItchEvent, t: uint64)
    requires Target(g, IntentOf(e)) == Some(t)
    ensures BookOr(RoutedStep(g, e).0, t).depth == DepthStep(BookOr(g, t).depth, IntentOf(e))
  {
  }

  lemma ExactDelivered(g: Gateway, m: Naive, e: ItchEvent, t: uint64)
    requires Represents(g, m) && PositiveGateway(g) && ExactGateway(g) && Target(g, IntentOf(e)) == Some(t)
    requires Fresh(m, e) && Positive(IntentOf(e)) && Countable(NaiveStep(m, e))
    ensures CountsExact(BookStep(BookOr(g, t), e).0.depth) <==> !PartialOn(m, IntentOf(e))
  {
    var d, a := BookOr(g, t).depth, IntentOf(e);
    hide Fresh, NaiveStep, Countable, CountsFit, Fits, DepthStep, RoutedStep, Balanced, OrdersAgree, RoutesAgree;
    CountableFits(NaiveStep(m, e));
    EventFits(g, m, e, t);
    BookIsSound(g, m, t);
    EmptyCounts();
    FreshOverwritesNothing(g, m, t, e);
    ExactStep(d, a);
    PartialIsOn(g, m, a, t);
    AgreeStep(g, m, e);
    CountableIsCounted(RoutedStep(g, e).0, NaiveStep(m, e), t);
    RoutedDepth(g, e, t);
  }

  lemma ExactPut(g: Gateway, t: uint64, b: Book, g': Gateway)
    requires ExactGateway(g) && g'.books == g.books[t := b]
    ensures ExactGateway(g') <==> CountsExact(b.depth)
  {
    hide CountsExact;
    assert g'.books[t] == b;
  }

  lemma NoTarget(g: Gateway, m: Naive, a: Intent)
    requires RoutesAgree(g, m) && Target(g, a) == None
    ensures !PartialOn(m, a)
  {
  }

  /** One event on a positive, fresh feed keeps every count exact iff it does not reduce an
      order partially and the live orders can then be counted in 32 bits. */
  lemma ExactNext(g: Gateway, m: Naive, e: ItchEvent, g': Gateway, out: Option<BboUpdate>)
    requires Represents(g, m) && PositiveGateway(g) && ExactGateway(g) && Next(g, e, g', out)
    requires Fresh(m, e) && Positive(IntentOf(e))
    ensures ExactGateway(g') <==> !PartialOn(m, IntentOf(e)) && Countable(NaiveStep(m, e))
  {
    hide Next, BookStep, CountsExact, Fresh, RoutesAgree, OrdersAgree, NaiveStep, Countable, PartialOn, Positive;
    ScanIsRouted(g, m, e, g', out);
    AgreeNext(g, m, e, g', out);
    if ExactGateway(g') { ExactIsCountable(g', NaiveStep(m, e)); }
    match Target(g, IntentOf(e))
    case None => NoTarget(g, m, IntentOf(e));
    case Some(t) =>
      if Countable(NaiveStep(m, e)) {
        ExactDelivered(g, m, e, t);
        ExactPut(g, t, BookStep(BookOr(g, t), e).0, g');
      }
  }

  predicate WholeFeed(events: seq<ItchEvent>) {
    events == []
    || (var k := |events| - 1; WholeFeed(events[..k]) && !PartialOn(NaiveRun(events[..k]), IntentOf(events[k])))
  }

  /** On every fresh positive run the counts never exceed the live orders; they are the live
      orders all along exactly when no order is reduced partially and the live orders at each
      level can be counted in 32 bits. */
  lemma {:induction false} CountsOfRun(states: seq<Gateway>, events: seq<ItchEvent>, outs: seq<Option<BboUpdate>>)
    requires IsTrace(states, events, outs) && FreshFeed(events) && PositiveFeed(events)
    ensures Always(states, CoveredGateway)
    ensures Always(states, ExactGateway) <==> WholeFeed(events) && CountableFeed(events)
    decreases |events|
  {
    PositiveNeverRetires(states, events, outs);
    CoveredExactly(states, events, outs);
    if events == [] {
      assert ExactGateway(EMPTY_GATEWAY);
    } else {
      var k := |events| - 1;
      TraceInit(states, events, outs);
      assert Positive(IntentOf(events[k]));
      hide Next, IsTrace, Represents, NaiveStep, Fresh, CoveredGateway, ExactGateway, PositiveGateway, PartialOn,
        Countable, NeverRetires, Positive;
      CountsOfRun(states[..k + 1], events[..k], outs[..k]);
      if Always(states[..k + 1], ExactGateway) {
        CountableFeedFits(events[..k]);
        RunRefines(states[..k + 1], events[..k], outs[..k]);
        RunIsPositive(states[..k + 1], events[..k], outs[..k]);
        assert ExactGateway(states[..k + 1][k]);
        ExactNext(states[k], NaiveRun(events[..k]), events[k], states[k + 1], outs[k]);
      }
      LastState(states, ExactGateway);
    }
  }

  lemma CountMore(m: Naive, r: uint64, o: Order)
    requires r !in m
    ensures NaiveCount(m[r := Resting(7, o)], 7, o.side, o.price) == NaiveCount(m, 7, o.side, o.price) + 1
  {
    var w := OneAtStock(7, o.side, o.price);
    TotalInsert(m, w, r, Resting(7, o));
    TotalAbsent(m, w, r);
  }

  lemma AddedBuy(m: Naive, r: uint64)
    ensures NaiveStep(m, AddOrder(0, r, Buy, 0xFFFF_FFFF, 7, 100)) == m[r := Resting(7, Order(Buy, 100, 0xFFFF_FFFF))]
  {
  }

  lemma HugeStep(n: nat)
    requires 0 < n <= TWO_64
    ensures var m := NaiveRun(HugeFeed(n - 1));
      n - 1 !in m && NaiveRun(HugeFeed(n)) == m[n - 1 := Resting(7, Order(Buy, 100, 0xFFFF_FFFF))]
  {
    hide FreshFeed, NaiveVolume, NaiveRun, HugeFeed, NaiveStep;
    HugeTotal(n - 1);
    HugeMore(n);
    AddedBuy(NaiveRun(HugeFeed(n - 1)), n - 1);
    FeedMore(HugeFeed(n - 1), AddOrder(0, n - 1, Buy, 0xFFFF_FFFF, 7, 100));
  }

  lemma {:induction false} HugeCount(n: nat)
    requires n <= TWO_64
    ensures NaiveCount(NaiveRun(HugeFeed(n)), 7, Buy, 100) == n
  {
    if n > 0 {
      hide HugeFeed, NaiveRun, NaiveCount;
      HugeCount(n - 1);
      HugeStep(n);
      CountMore(NaiveRun(HugeFeed(n - 1)), n - 1, Order(Buy, 100, 0xFFFF_FFFF));
    }
  }

  /** A fresh feed of 2^32 orders at one price cannot be counted. */
  lemma CountsCanWrap()
    ensures FreshFeed(HugeFeed(TWO_32)) && !CountableFeed(HugeFeed(TWO_32))
  {
    HugeTotal(TWO_32);
    HugeCount(TWO_32);
    hide HugeFeed, NaiveRun, NaiveCount, FreshFeed;
    NotEmpty(TWO_32);
  }

  /** A fresh feed with an order of no shares: once it is executed the level counts one
      order although none is live. */
  lemma CountCanExceedLiveOrders()
    ensures var d := BookRun(7, [AddOrder(1, 1, Buy, 0, 7, 100), OrderExecuted(2, 1, 5, 9)]).0.depth;
      d.orders == map[] && CountAt(d.bids, 100) == 1 && LiveCount(d.orders, Buy, 100) == 0
  {
    var add, exec := AddOrder(1, 1, Buy, 0, 7, 100), OrderExecuted(2, 1, 5, 9);
    var d0 := EMPTY_DEPTH;
    var d1 := DepthStep(d0, IntentOf(add));
    var d2 := DepthStep(d1, IntentOf(exec));
    assert d1.orders == map[1 := Order(Buy, 100, 0)];
    assert d2.orders == map[];
    assert [add, exec][..1] == [add] && [add][..0] == [];
    assert BookRun(7, [add]).0.depth == d1;
    assert BookRun(7, [add, exec]).0.depth == d2;
  }
}
