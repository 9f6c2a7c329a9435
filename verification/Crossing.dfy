/** The gateway never matches orders: a book is crossed only if the feed crosses it. */
module Crossing {
  import opened Words
  import opened Events
  import opened Levels
  import opened Books
  import opened Gateways

  function Opposite(side: Side): Side {
    match side
    case Buy => Sell
    case Sell => Buy
  }

  /** No bid is above any ask. */
  ghost predicate Uncrossed(d: Depth) {
    forall b, a :: b in d.bids && a in d.asks ==> b <= a
  }

  /** Would an order at this price pass the best price of the other side? */
  predicate PassesOpposite(d: Depth, side: Side, price: uint64) {
    var other := SideOf(d, Opposite(side));
    other != map[] && price != BestPrice(other, Opposite(side))
    && AtLeastAsGood(side, price, BestPrice(other, Opposite(side)))
  }

  /** Does an effective add or replace price pass the opposite best at that moment? */
  predicate Passes(d: Depth, a: Intent) {
    match a
    case Open(_, _, side, price, _) => PassesOpposite(d, side, price)
    case Swap(r, _, price, _) => r in d.orders && PassesOpposite(d, d.orders[r].side, price)
    case _ => false
  }

  lemma ReplacedKeys(l: LevelMap, oldPrice: uint64, oldShares: uint32, newPrice: uint64, newShares: uint32)
    ensures var l' := ReplaceShares(l, oldPrice, oldShares, newPrice, newShares);
      l'.Keys <= l.Keys + {newPrice} && (newPrice in l' || newPrice in l)
  {
  }

  /** Executions, cancels and deletes add no price, so they never improve a side's best:
      the best bid is not raised and a non-empty best ask is not lowered. */
  lemma RemovalsNeverImprove(d: Depth, a: Intent, side: Side)
    requires a.Reduce? || a.Close?
    ensures SideOf(DepthStep(d, a), side).Keys <= SideOf(d, side).Keys
    ensures SideOf(DepthStep(d, a), side) != map[] ==>
      SideOf(d, side) != map[]
      && AtLeastAsGood(side, BestPrice(SideOf(d, side), side), BestPrice(SideOf(DepthStep(d, a), side), side))
  {
  }

  lemma UncrossedPut(d: Depth, side: Side, l: LevelMap, price: uint64, orders: OrderMap)
    requires Uncrossed(d)
    requires l.Keys <= SideOf(d, side).Keys + {price}
    requires price in l || price in SideOf(d, side)
    ensures Uncrossed(WithSide(d, side, l).(orders := orders)) <==> !PassesOpposite(d, side, price)
  {
  }

  /** One event crosses an uncrossed book exactly when it brings in a price that passes the
      opposite best. */
  lemma CrossingStep(d: Depth, a: Intent)
    requires Uncrossed(d)
    ensures Uncrossed(DepthStep(d, a)) <==> !Passes(d, a)
  {
    match a
    case Open(r, _, side, price, shares) =>
      UncrossedPut(d, side, AddShares(SideOf(d, side), price, shares), price,
                   d.orders[r := Order(side, price, shares)]);
    case Swap(r, newRef, price, shares) =>
      if r in d.orders {
        var o := d.orders[r];
        ReplacedKeys(SideOf(d, o.side), o.price, o.shares, price, shares);
        UncrossedPut(d, o.side, ReplaceShares(SideOf(d, o.side), o.price, o.shares, price, shares), price,
                     (d.orders - {r})[newRef := Order(o.side, price, shares)]);
      }
    case Ignore =>
    case _ =>
      RemovalsNeverImprove(d, a, Buy);
      RemovalsNeverImprove(d, a, Sell);
  }

  /** The gateway's own check sees an uncrossed book as uncrossed; with non-zero best prices
      the check is exact. */
  lemma CheckIsSound(d: Depth)
    requires KeyedDepth(d)
    ensures Uncrossed(d) ==> !IsCrossed(BboOf(d))
    ensures !IsCrossed(BboOf(d)) && 0 !in d.asks ==> Uncrossed(d)
  {
  }

  /** Does the event bring a crossing price to the book it is delivered to? */
  predicate GatewayPasses(g: Gateway, a: Intent) {
    match a
    case Open(_, stock, _, _, _) => Passes(BookOr(g, stock).depth, a)
    case Swap(r, _, _, _) => r in g.routes && Passes(BookOr(g, g.routes[r]).depth, a)
    case _ => false
  }

  ghost predicate UncrossedGateway(g: Gateway) {
    forall s :: s in g.books ==> Uncrossed(g.books[s].depth)
  }

  ghost predicate KeyedGateway(g: Gateway) {
    forall s :: s in g.books ==> KeyedDepth(g.books[s].depth)
  }

  /** What the gateway checks after every batch. */
  ghost predicate AllConsistent(g: Gateway) {
    forall s :: s in g.books ==> !IsCrossed(BboOf(g.books[s].depth))
  }

  lemma UncrossedBook(b: Book, e: ItchEvent)
    requires Uncrossed(b.depth)
    ensures Uncrossed(BookStep(b, e).0.depth) <==> !Passes(b.depth, IntentOf(e))
  {
    CrossingStep(b.depth, IntentOf(e));
  }

  /** One event, fresh or not, crosses a book of a gateway that has none crossed exactly when
      its price passes the opposite best in the book it is delivered to. */
  lemma UncrossedNext(g: Gateway, e: ItchEvent, g': Gateway, out: Option<BboUpdate>)
    requires UncrossedGateway(g) && Next(g, e, g', out)
    ensures UncrossedGateway(g') <==> !GatewayPasses(g, IntentOf(e))
  {
    hide BookStep, Next;
    var t := StepsOneBook(g, e, g', out);
    if t.Some? {
      UncrossedBook(BookOr(g, t.value), e);
      assert g'.books[t.value] == BookStep(BookOr(g, t.value), e).0;
    }
  }

  lemma KeyedBook(b: Book, e: ItchEvent)
    requires KeyedDepth(b.depth)
    ensures KeyedDepth(BookStep(b, e).0.depth)
  {
    KeyedStep(b.depth, IntentOf(e));
  }

  lemma KeyedNext(g: Gateway, e: ItchEvent, g': Gateway, out: Option<BboUpdate>)
    requires KeyedGateway(g) && Next(g, e, g', out)
    ensures KeyedGateway(g')
  {
    hide BookStep, Next, KeyedDepth;
    var t := StepsOneBook(g, e, g', out);
    if t.Some? {
      KeyedBook(BookOr(g, t.value), e);
    }
  }

  lemma {:induction false} RunIsKeyed(states: seq<Gateway>, events: seq<ItchEvent>, outs: seq<Option<BboUpdate>>,
                                      i: nat)
    requires IsTrace(states, events, outs) && i <= |events|
    ensures KeyedGateway(states[i])
  {
    if i > 0 {
      hide Next, KeyedGateway;
      RunIsKeyed(states, events, outs, i - 1);
      assert Next(states[i - 1], events[i - 1], states[i - 1 + 1], outs[i - 1]);
      KeyedNext(states[i - 1], events[i - 1], states[i], outs[i - 1]);
    } else {
      assert states[0] == EMPTY_GATEWAY;
    }
  }

  ghost predicate NoFreeOffers(g: Gateway) {
    forall s :: s in g.books ==> 0 !in g.books[s].depth.asks
  }

  lemma ConsistentExactly(g: Gateway)
    requires KeyedGateway(g)
    ensures UncrossedGateway(g) ==> AllConsistent(g)
    ensures AllConsistent(g) && NoFreeOffers(g) ==> UncrossedGateway(g)
  {
    hide Uncrossed, IsCrossed, BboOf, KeyedDepth;
    forall s | s in g.books
      ensures Uncrossed(g.books[s].depth) ==> !IsCrossed(BboOf(g.books[s].depth))
      ensures !IsCrossed(BboOf(g.books[s].depth)) && 0 !in g.books[s].depth.asks ==> Uncrossed(g.books[s].depth)
    {
      CheckIsSound(g.books[s].depth);
    }
  }

  ghost predicate NeverCrossed(states: seq<Gateway>) {
    forall i :: 0 <= i < |states| ==> UncrossedGateway(states[i])
  }

  /** No price passes the opposite best when it comes in. */
  ghost predicate NeverPasses(states: seq<Gateway>, events: seq<ItchEvent>)
    requires |states| == |events| + 1
  {
    forall i :: 0 <= i < |events| ==> !GatewayPasses(states[i], IntentOf(events[i]))
  }

  lemma {:induction false} PassingNothing(states: seq<Gateway>, events: seq<ItchEvent>, outs: seq<Option<BboUpdate>>,
                                          i: nat)
    requires IsTrace(states, events, outs) && NeverPasses(states, events) && i <= |events|
    ensures UncrossedGateway(states[i])
  {
    if i > 0 {
      hide Next, UncrossedGateway, GatewayPasses;
      PassingNothing(states, events, outs, i - 1);
      assert Next(states[i - 1], events[i - 1], states[i - 1 + 1], outs[i - 1]);
      UncrossedNext(states[i - 1], events[i - 1], states[i], outs[i - 1]);
    } else {
      assert states[0] == EMPTY_GATEWAY;
    }
  }

  /** On any events at all, in any scan order, no book is ever crossed exactly when no price
      passes the opposite best when it comes in. */
  lemma UncrossedExactly(states: seq<Gateway>, events: seq<ItchEvent>, outs: seq<Option<BboUpdate>>)
    requires IsTrace(states, events, outs)
    ensures NeverCrossed(states) <==> NeverPasses(states, events)
  {
    hide Next, UncrossedGateway, GatewayPasses;
    if NeverPasses(states, events) {
      forall i | 0 <= i < |states| ensures UncrossedGateway(states[i]) {
        PassingNothing(states, events, outs, i);
      }
    }
    if NeverCrossed(states) {
      forall i | 0 <= i < |events| ensures !GatewayPasses(states[i], IntentOf(events[i])) {
        assert Next(states[i], events[i], states[i + 1], outs[i]);
        assert UncrossedGateway(states[i + 1]);
        UncrossedNext(states[i], events[i], states[i + 1], outs[i]);
      }
    }
  }

  /** The gateway's own check then holds after every event; where nothing is offered at price
      zero, it holds after every event exactly then. */
  lemma RunIsConsistent(states: seq<Gateway>, events: seq<ItchEvent>, outs: seq<Option<BboUpdate>>)
    requires IsTrace(states, events, outs)
    ensures NeverPasses(states, events) ==> forall i :: 0 <= i < |states| ==> AllConsistent(states[i])
    ensures (forall i :: 0 <= i < |states| ==> AllConsistent(states[i]) && NoFreeOffers(states[i]))
      ==> NeverPasses(states, events)
  {
    UncrossedExactly(states, events, outs);
    hide Next, NeverPasses, UncrossedGateway, AllConsistent, NoFreeOffers, KeyedGateway;
    forall i | 0 <= i < |states|
      ensures UncrossedGateway(states[i]) ==> AllConsistent(states[i])
      ensures AllConsistent(states[i]) && NoFreeOffers(states[i]) ==> UncrossedGateway(states[i])
    {
      RunIsKeyed(states, events, outs, i);
      ConsistentExactly(states[i]);
    }
  }

  /** A bid at 101, then an offer of the same stock at 100. */
  const CROSSING_FEED: seq<ItchEvent> := [AddOrder(1, 1, Buy, 5, 7, 101), AddOrder(2, 2, Sell, 5, 7, 100)]

  lemma OneLevel(side: Side, price: uint64, shares: uint32)
    ensures BestQuote(AddShares(map[], price, shares), side) == Quote(price, shares)
  {
  }

  /** The gateway takes that feed as it comes: the book is crossed and the check fails. */
  lemma FeedCanCross() returns (states: seq<Gateway>, outs: seq<Option<BboUpdate>>)
    ensures IsTrace(states, CROSSING_FEED, outs) && FreshFeed(CROSSING_FEED)
    ensures !UncrossedGateway(states[2]) && !AllConsistent(states[2])
  {
    var e, f := CROSSING_FEED[0], CROSSING_FEED[1];
    var (g1, out1) := RoutedStep(EMPTY_GATEWAY, e);
    var (g2, out2) := RoutedStep(g1, f);
    states, outs := [EMPTY_GATEWAY, g1, g2], [out1, out2];
    assert FreshFeed([e] + [f]) by {
      FeedMore([], e);
      assert [] + [e] == [e];
      FeedMore([e], f);
    }
    assert [e] + [f] == CROSSING_FEED;
    hide FreshFeed, NaiveRun;
    OneLevel(Buy, 101, 5);
    OneLevel(Sell, 100, 5);
    var d := g2.books[7].depth;
    assert d.bids == AddShares(map[], 101, 5) && d.asks == AddShares(map[], 100, 5);
    assert 101 in d.bids && 100 in d.asks;
  }
}
