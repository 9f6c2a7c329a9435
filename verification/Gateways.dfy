/** All the stocks' books behind one routing index, and their refinement of a plain table
    of live orders. Scanning the hash map of books is a choice among its stocks, so the
    step is a relation. */
module Gateways {
  import opened Words
  import opened Totals
  import opened Events
  import opened Levels
  import opened Books
  import opened Ledger

  datatype Gateway = Gateway(books: map<uint64, Book>, routes: map<uint64, uint64>)

  const EMPTY_GATEWAY := Gateway(map[], map[])

  function BookOr(g: Gateway, stock: uint64): Book {
    if stock in g.books then g.books[stock] else NewBook(stock)
  }

  function SharesLeft(b: Book, r: uint64): nat {
    if r in b.depth.orders then b.depth.orders[r].shares else 0
  }

  /** Hands the event to one stock's book, creating it when it is not there yet. */
  function Deliver(g: Gateway, stock: uint64, e: ItchEvent): (Gateway, Option<BboUpdate>) {
    var (b, out) := BookStep(BookOr(g, stock), e);
    (g.(books := g.books[stock := b]), out)
  }

  ghost predicate HoldsOrder(g: Gateway, s: uint64, r: uint64) {
    s in g.books && r in g.books[s].depth.orders
  }

  /** The event goes to any one of the books that hold its order, if there is one. */
  ghost predicate Scanned(g: Gateway, e: ItchEvent, g': Gateway, out: Option<BboUpdate>)
    requires IntentOf(e).Close?
  {
    if exists s :: HoldsOrder(g, s, e.orderRef) then
      exists s :: HoldsOrder(g, s, e.orderRef) && (g', out) == Deliver(g, s, e)
    else g' == g && out == None
  }

  /** Every outcome the gateway may have on an event; a delete goes to any one of the books
      that hold the order. */
  ghost predicate Next(g: Gateway, e: ItchEvent, g': Gateway, out: Option<BboUpdate>) {
    match IntentOf(e)
    case Open(r, stock, _, _, _) =>
      (g', out) == Deliver(g.(routes := g.routes[r := stock]), stock, e)
    case Swap(r, newRef, _, _) =>
      if r in g.routes then
        (g', out) == Deliver(g.(routes := (g.routes - {r})[newRef := g.routes[r]]), g.routes[r], e)
      else g' == g && out == None
    case Reduce(r, _) =>
      if r in g.routes then
        var (h, update) := Deliver(g, g.routes[r], e);
        && out == update
        && g' == if SharesLeft(h.books[g.routes[r]], r) == 0 then h.(routes := h.routes - {r}) else h
      else g' == g && out == None
    case Close(r) =>
      Scanned(g.(routes := g.routes - {r}), e, g', out)
    case Ignore => g' == g && out == None
  }

  // ---------------------------------------------------------------- the plain table

  datatype Resting = Resting(stock: uint64, order: Order)

  type Naive = map<uint64, Resting>

  function Lessened(m: Naive, r: uint64, shares: uint32): Naive {
    if r !in m then m
    else if shares >= m[r].order.shares then m - {r}
    else m[r := Resting(m[r].stock, m[r].order.(shares := m[r].order.shares - shares))]
  }

  /** What an event does to the table, read off the event itself: an add rests its own side,
      price and shares, an execution or a cancel takes at most the order's shares, and a
      replace keeps the order's stock and side. */
  function NaiveStep(m: Naive, e: ItchEvent): Naive {
    match e
    case AddOrder(_, r, side, shares, stock, price) => m[r := Resting(stock, Order(side, price, shares))]
    case AddOrderMpid(_, r, side, shares, stock, price, _) => m[r := Resting(stock, Order(side, price, shares))]
    case OrderExecuted(_, r, shares, _) => Lessened(m, r, shares)
    case OrderExecutedPrice(_, r, shares, _, _, _) => Lessened(m, r, shares)
    case OrderCancel(_, r, shares) => Lessened(m, r, shares)
    case OrderDelete(_, r) => m - {r}
    case OrderReplace(_, r, newRef, shares, price) =>
      if r !in m then m
      else (m - {r})[newRef := Resting(m[r].stock, Order(m[r].order.side, price, shares))]
    case StockDirectory(_, _, _, _, _, _, _) => m
    case SystemEvent(_, _) => m
  }

  /** A fresh feed never gives a new order a reference that is still live. */
  predicate Fresh(m: Naive, e: ItchEvent) {
    match e
    case AddOrder(_, r, _, _, _, _) => r !in m
    case AddOrderMpid(_, r, _, _, _, _, _) => r !in m
    case OrderReplace(_, r, newRef, _, _) => r in m && newRef != r ==> newRef !in m
    case _ => true
  }

  // ---------------------------------------------------------------- the refinement relation

  ghost predicate RoutesAgree(g: Gateway, m: Naive) {
    g.routes.Keys == m.Keys && forall r :: r in m ==> g.routes[r] == m[r].stock
  }

  /** Each live order is in its own stock's book and in no other. */
  ghost predicate OrdersAgree(g: Gateway, m: Naive) {
    && (forall r :: r in m ==> HoldsOrder(g, m[r].stock, r) && g.books[m[r].stock].depth.orders[r] == m[r].order)
    && (forall s, r :: HoldsOrder(g, s, r) ==> r in m && m[r].stock == s)
  }

  ghost predicate SoundBook(b: Book, s: uint64) {
    b.stock == s && KeyedDepth(b.depth) && Balanced(b.depth, map[])
  }

  ghost predicate Represents(g: Gateway, m: Naive) {
    && RoutesAgree(g, m)
    && OrdersAgree(g, m)
    && forall s :: s in g.books ==> SoundBook(g.books[s], s)
  }

  // ---------------------------------------------------------------- what the relation means

  ghost function AtStockLevel(stock: uint64, side: Side, price: uint64): Resting -> nat {
    (o: Resting) => if o.stock == stock && o.order.side == side && o.order.price == price then o.order.shares else 0
  }

  /** Live shares of the plain table at one stock, side and price. */
  ghost function NaiveVolume(m: Naive, stock: uint64, side: Side, price: uint64): nat {
    Total(m, AtStockLevel(stock, side, price))
  }

  /** Every live total of the table fits in a level's 64-bit volume. */
  ghost predicate VolumesFit(m: Naive) {
    forall s, side, price :: NaiveVolume(m, s, side, price) < TWO_64
  }

  lemma BookHoldsItsShare(g: Gateway, m: Naive, s: uint64, side: Side, price: uint64)
    requires OrdersAgree(g, m)
    ensures LiveAt(BookOr(g, s).depth.orders, side, price) == NaiveVolume(m, s, side, price)
  {
    var orders := BookOr(g, s).depth.orders;
    forall r | r in orders
      ensures r in m && AtLevel(side, price)(orders[r]) == AtStockLevel(s, side, price)(m[r])
    {
      assert HoldsOrder(g, s, r);
    }
    forall r | r in m && r !in orders ensures AtStockLevel(s, side, price)(m[r]) == 0 {
      assert HoldsOrder(g, m[r].stock, r);
    }
    TotalTransfer(orders, AtLevel(side, price), m, AtStockLevel(s, side, price));
  }

  lemma BookIsSound(g: Gateway, m: Naive, s: uint64)
    requires Represents(g, m)
    ensures SoundBook(BookOr(g, s), s)
  {
    if s !in g.books {
      EmptyIsBalanced();
    }
  }

  /** The aggregated volume of every level of every book is the live total of the table. */
  lemma VolumesAgree(g: Gateway, m: Naive, s: uint64, side: Side, price: uint64)
    requires Represents(g, m)
    ensures VolumeAt(SideOf(BookOr(g, s).depth, side), price) == NaiveVolume(m, s, side, price)
  {
    BookHoldsItsShare(g, m, s, side, price);
    BookIsSound(g, m, s);
    assert VolumeAt(SideOf(BookOr(g, s).depth, side), price)
        == LiveAt(BookOr(g, s).depth.orders, side, price) + OrphanedAt(map[], side, price);
  }

  lemma RepresentedFits(g: Gateway, m: Naive)
    requires Represents(g, m)
    ensures VolumesFit(m)
  {
    forall s, side, price ensures NaiveVolume(m, s, side, price) < TWO_64 {
      VolumesAgree(g, m, s, side, price);
      VolumeIsWord(SideOf(BookOr(g, s).depth, side), price);
    }
  }

  // ---------------------------------------------------------------- the step, routed

  /** Where a routed delivery would send an intent. */
  function Target(g: Gateway, a: Intent): Option<uint64> {
    match a
    case Open(_, stock, _, _, _) => Some(stock)
    case Ignore => None
    case _ => if a.orderRef in g.routes then Some(g.routes[a.orderRef]) else None
  }

  function RoutesAfter(g: Gateway, a: Intent, stock: uint64, b: Book): map<uint64, uint64> {
    match a
    case Open(r, _, _, _, _) => g.routes[r := stock]
    case Swap(r, newRef, _, _) => (g.routes - {r})[newRef := stock]
    case Reduce(r, _) => if SharesLeft(b, r) == 0 then g.routes - {r} else g.routes
    case Close(r) => g.routes - {r}
    case Ignore => g.routes
  }

  /** The step as a function: look the stock up in the index and touch that book only. */
  function RoutedStep(g: Gateway, e: ItchEvent): (Gateway, Option<BboUpdate>) {
    match Target(g, IntentOf(e))
    case None => (g, None)
    case Some(stock) =>
      var (b, out) := BookStep(BookOr(g, stock), e);
      (Gateway(g.books[stock := b], RoutesAfter(g, IntentOf(e), stock, b)), out)
  }

  lemma CloseIsRouted(g: Gateway, m: Naive, e: ItchEvent, g': Gateway, out: Option<BboUpdate>)
    requires RoutesAgree(g, m) && OrdersAgree(g, m) && IntentOf(e).Close?
    ensures Next(g, e, g', out) <==> (g', out) == RoutedStep(g, e)
  {
    hide BookStep;
    var r := IntentOf(e).orderRef;
    var h := g.(routes := g.routes - {r});
    if r in m {
      assert HoldsOrder(g, m[r].stock, r);
      assert forall s :: HoldsOrder(h, s, r) <==> HoldsOrder(g, s, r);
      assert forall s :: HoldsOrder(h, s, r) <==> s == m[r].stock;
      assert Deliver(h, m[r].stock, e) == RoutedStep(g, e);
    } else {
      assert h.routes == g.routes && h == g;
    }
  }

  /** When the index agrees with the books, scanning for the order to delete has one
      outcome whatever the order of the scan: that of routing it through the index. */
  lemma ScanIsRouted(g: Gateway, m: Naive, e: ItchEvent, g': Gateway, out: Option<BboUpdate>)
    requires RoutesAgree(g, m) && OrdersAgree(g, m)
    ensures Next(g, e, g', out) <==> (g', out) == RoutedStep(g, e)
  {
    hide BookStep;
    var a := IntentOf(e);
    if a.Close? {
      CloseIsRouted(g, m, e, g', out);
    }
  }

  lemma FreshOverwritesNothing(g: Gateway, m: Naive, s: uint64, e: ItchEvent)
    requires OrdersAgree(g, m) && Fresh(m, e)
    ensures Overwritten(BookOr(g, s).depth, IntentOf(e)) == None
  {
    var d := BookOr(g, s).depth;
    match IntentOf(e)
    case Open(r, _, _, _, _) => assert r in d.orders ==> HoldsOrder(g, s, r);
    case Swap(r, newRef, _, _) =>
      assert r in d.orders ==> HoldsOrder(g, s, r);
      assert newRef in d.orders ==> HoldsOrder(g, s, newRef);
    case _ =>
  }

  /** The part of the step that concerns the order records alone. */
  function OrdersStep(orders: OrderMap, a: Intent): OrderMap {
    match a
    case Open(r, _, side, price, shares) => orders[r := Order(side, price, shares)]
    case Reduce(r, shares) =>
      if r !in orders then orders
      else if shares >= orders[r].shares then orders - {r}
      else orders[r := orders[r].(shares := orders[r].shares - shares)]
    case Close(r) => orders - {r}
    case Swap(r, newRef, price, shares) =>
      if r !in orders then orders
      else (orders - {r})[newRef := Order(orders[r].side, price, shares)]
    case Ignore => orders
  }

  lemma OrdersAfter(d: Depth, a: Intent)
    ensures DepthStep(d, a).orders == OrdersStep(d.orders, a)
  {
  }

  /** The index, moved as the event itself asks. */
  lemma RoutesAfterEvent(g: Gateway, m: Naive, e: ItchEvent, t: uint64, b: Book)
    requires RoutesAgree(g, m) && OrdersAgree(g, m) && Target(g, IntentOf(e)) == Some(t)
    requires b.depth.orders == OrdersStep(BookOr(g, t).depth.orders, IntentOf(e))
    ensures RoutesAgree(Gateway(g.books[t := b], RoutesAfter(g, IntentOf(e), t, b)), NaiveStep(m, e))
  {
    if !IntentOf(e).Open? { assert HoldsOrder(g, t, IntentOf(e).orderRef); }
  }

  /** These are exactly the table's orders of one stock. */
  ghost predicate OrdersOf(m: Naive, t: uint64, orders: OrderMap) {
    && (forall r :: r in orders <==> r in m && m[r].stock == t)
    && forall r :: r in orders ==> orders[r] == m[r].order
  }

  /** An event does to the orders of the stock it is for what it does to the table. */
  lemma OwnOrdersAfter(m: Naive, e: ItchEvent, t: uint64, orders: OrderMap)
    requires OrdersOf(m, t, orders) && Fresh(m, e)
    requires match IntentOf(e)
             case Open(_, stock, _, _, _) => stock == t
             case Ignore => true
             case a => a.orderRef in orders
    ensures OrdersOf(NaiveStep(m, e), t, OrdersStep(orders, IntentOf(e)))
  {
  }

  lemma OtherOrdersAfter(m: Naive, e: ItchEvent, t: uint64, r: uint64)
    requires Fresh(m, e)
    requires match IntentOf(e)
             case Open(_, stock, _, _, _) => stock == t
             case Ignore => true
             case a => a.orderRef in m && m[a.orderRef].stock == t
    ensures var m' := NaiveStep(m, e);
      && (r in m && m[r].stock != t ==> r in m' && m'[r] == m[r])
      && (r in m' && m'[r].stock != t ==> r in m && m[r] == m'[r])
  {
  }

  lemma OrdersAfterEvent(g: Gateway, m: Naive, e: ItchEvent, t: uint64, b: Book, routes: map<uint64, uint64>)
    requires RoutesAgree(g, m) && OrdersAgree(g, m) && Fresh(m, e) && Target(g, IntentOf(e)) == Some(t)
    requires b.depth.orders == OrdersStep(BookOr(g, t).depth.orders, IntentOf(e))
    ensures OrdersAgree(Gateway(g.books[t := b], routes), NaiveStep(m, e))
  {
    hide NaiveStep, Fresh, OrdersStep;
    var g', m' := Gateway(g.books[t := b], routes), NaiveStep(m, e);
    assert OrdersOf(m, t, BookOr(g, t).depth.orders) by {
      forall r ensures r in BookOr(g, t).depth.orders <==> HoldsOrder(g, t, r) {}
    }
    OwnOrdersAfter(m, e, t, BookOr(g, t).depth.orders);
    forall r | r in m'
      ensures HoldsOrder(g', m'[r].stock, r) && g'.books[m'[r].stock].depth.orders[r] == m'[r].order
    {
      OtherOrdersAfter(m, e, t, r);
    }
    forall s, r | HoldsOrder(g', s, r) ensures r in m' && m'[r].stock == s {
      OtherOrdersAfter(m, e, t, r);
      if s != t { assert HoldsOrder(g, s, r); }
    }
  }

  lemma AgreeStep(g: Gateway, m: Naive, e: ItchEvent)
    requires RoutesAgree(g, m) && OrdersAgree(g, m) && Fresh(m, e)
    ensures RoutesAgree(RoutedStep(g, e).0, NaiveStep(m, e))
    ensures OrdersAgree(RoutedStep(g, e).0, NaiveStep(m, e))
  {
    match Target(g, IntentOf(e))
    case None => assert NaiveStep(m, e) == m;
    case Some(t) =>
      var b := BookStep(BookOr(g, t), e).0;
      OrdersAfter(BookOr(g, t).depth, IntentOf(e));
      OrdersAfterEvent(g, m, e, t, b, RoutesAfter(g, IntentOf(e), t, b));
      RoutesAfterEvent(g, m, e, t, b);
  }

  /** What an event brings to its book is what the table then has there. */
  lemma IncomingIsNaive(g: Gateway, m: Naive, e: ItchEvent, s: uint64)
    requires Represents(g, m) && Fresh(m, e) && Target(g, IntentOf(e)) == Some(s)
    requires Brings(BookOr(g, s).depth, IntentOf(e))
    ensures var d, a := BookOr(g, s).depth, IntentOf(e);
      Incoming(d, a) == NaiveVolume(NaiveStep(m, e), s, IncomingSide(d, a), a.price)
  {
    hide NaiveStep, Incoming, IncomingSide, DepthStep, NaiveVolume, OrdersAgree, RoutesAgree, Fresh, Balanced;
    var d, a := BookOr(g, s).depth, IntentOf(e);
    BookIsSound(g, m, s);
    IncomingTotal(d, map[], a);
    FreshOverwritesNothing(g, m, s, e);
    AgreeStep(g, m, e);
    BookHoldsItsShare(RoutedStep(g, e).0, NaiveStep(m, e), s, IncomingSide(d, a), a.price);
    assert BookOr(RoutedStep(g, e).0, s).depth == DepthStep(d, a);
  }

  lemma EventFits(g: Gateway, m: Naive, e: ItchEvent, s: uint64)
    requires Represents(g, m) && Fresh(m, e) && VolumesFit(NaiveStep(m, e))
    requires Target(g, IntentOf(e)) == Some(s)
    ensures Fits(BookOr(g, s).depth, IntentOf(e))
  {
    hide Represents, NaiveStep, Incoming, IncomingSide, NaiveVolume, Fresh;
    if Brings(BookOr(g, s).depth, IntentOf(e)) {
      IncomingIsNaive(g, m, e, s);
    }
  }

  lemma SoundStep(g: Gateway, m: Naive, e: ItchEvent, s: uint64)
    requires Represents(g, m) && Fresh(m, e) && Fits(BookOr(g, s).depth, IntentOf(e))
    ensures SoundBook(BookStep(BookOr(g, s), e).0, s)
  {
    var b, a := BookOr(g, s), IntentOf(e);
    BookIsSound(g, m, s);
    KeyedStep(b.depth, a);
    BalancedStep(b.depth, map[], a);
    FreshOverwritesNothing(g, m, s, e);
  }

  /** One event on a fresh feed keeps the gateway in step with the plain table exactly when
      the table's live totals then fit in 64 bits. */
  lemma RefinesStep(g: Gateway, m: Naive, e: ItchEvent)
    requires Represents(g, m) && Fresh(m, e)
    ensures Represents(RoutedStep(g, e).0, NaiveStep(m, e)) <==> VolumesFit(NaiveStep(m, e))
  {
    hide BookStep, SoundBook, Fits, VolumesFit, NaiveStep, Fresh, OrdersAgree, RoutesAgree;
    var g', m' := RoutedStep(g, e).0, NaiveStep(m, e);
    if VolumesFit(m') {
      AgreeStep(g, m, e);
      forall s | s in g'.books ensures SoundBook(g'.books[s], s) {
        if Target(g, IntentOf(e)) == Some(s) {
          EventFits(g, m, e, s);
          SoundStep(g, m, e, s);
        }
      }
    } else if Represents(g', m') {
      RepresentedFits(g', m');
      assert false;
    }
  }

  ghost predicate Delivered(g: Gateway, t: uint64, e: ItchEvent, g': Gateway, out: Option<BboUpdate>) {
    g'.books == g.books[t := BookStep(BookOr(g, t), e).0] && out == BookStep(BookOr(g, t), e).1
  }

  lemma CloseStepsOneBook(g: Gateway, e: ItchEvent, g': Gateway, out: Option<BboUpdate>) returns (t: Option<uint64>)
    requires Next(g, e, g', out) && IntentOf(e).Close?
    ensures t == None ==> g'.books == g.books && out == None
    ensures t.Some? ==> Delivered(g, t.value, e, g', out)
  {
    hide BookStep;
    var r := IntentOf(e).orderRef;
    var h := g.(routes := g.routes - {r});
    t := None;
    if exists s :: HoldsOrder(h, s, r) {
      var s :| HoldsOrder(h, s, r) && (g', out) == Deliver(h, s, e);
      t := Some(s);
    }
  }

  /** Every step, fresh feed or not, delivers the event to at most one book. */
  lemma StepsOneBook(g: Gateway, e: ItchEvent, g': Gateway, out: Option<BboUpdate>) returns (t: Option<uint64>)
    requires Next(g, e, g', out)
    ensures t == None ==> g'.books == g.books && out == None
    ensures t.Some? ==> Delivered(g, t.value, e, g', out)
    ensures !IntentOf(e).Close? ==> Target(g, IntentOf(e)) == t
  {
    hide BookStep;
    if IntentOf(e).Close? {
      t := CloseStepsOneBook(g, e, g', out);
    } else {
      t := Target(g, IntentOf(e));
    }
  }

  lemma RefinesNext(g: Gateway, m: Naive, e: ItchEvent, g': Gateway, out: Option<BboUpdate>)
    requires Represents(g, m) && Fresh(m, e) && Next(g, e, g', out)
    ensures Represents(g', NaiveStep(m, e)) <==> VolumesFit(NaiveStep(m, e))
  {
    ScanIsRouted(g, m, e, g', out);
    hide Next, RoutedStep, Fresh, NaiveStep, Represents, VolumesFit;
    RefinesStep(g, m, e);
  }

  /** No event on a fresh feed changes the book of another stock. */
  lemma OtherStocksAreUntouched(g: Gateway, m: Naive, e: ItchEvent, g': Gateway, out: Option<BboUpdate>, s: uint64)
    requires RoutesAgree(g, m) && OrdersAgree(g, m) && Next(g, e, g', out)
    requires match IntentOf(e)
             case Open(_, stock, _, _, _) => s != stock
             case Ignore => true
             case a => a.orderRef in m ==> s != m[a.orderRef].stock
    ensures s in g'.books <==> s in g.books
    ensures s in g.books ==> g'.books[s] == g.books[s]
  {
    ScanIsRouted(g, m, e, g', out);
  }

  // ---------------------------------------------------------------- runs

  /** states are the gateway states of a run on the events, outs what it published at each. */
  ghost predicate IsTrace(states: seq<Gateway>, events: seq<ItchEvent>, outs: seq<Option<BboUpdate>>) {
    && |states| == |events| + 1 && |outs| == |events|
    && states[0] == EMPTY_GATEWAY
    && forall i :: 0 <= i < |events| ==> Next(states[i], events[i], states[i + 1], outs[i])
  }

  function NaiveRun(events: seq<ItchEvent>): Naive {
    if events == [] then map[]
    else NaiveStep(NaiveRun(events[..|events| - 1]), events[|events| - 1])
  }

  predicate FreshFeed(events: seq<ItchEvent>) {
    events == []
    || (FreshFeed(events[..|events| - 1]) && Fresh(NaiveRun(events[..|events| - 1]), events[|events| - 1]))
  }

  predicate PositiveFeed(events: seq<ItchEvent>) {
    forall i :: 0 <= i < |events| ==> Positive(IntentOf(events[i]))
  }

  lemma TraceInit(states: seq<Gateway>, events: seq<ItchEvent>, outs: seq<Option<BboUpdate>>)
    requires IsTrace(states, events, outs) && events != []
    ensures |states| == |events| + 1 && |outs| == |events|
    ensures IsTrace(states[..|events|], events[..|events| - 1], outs[..|events| - 1])
    ensures Next(states[|events| - 1], events[|events| - 1], states[|events|], outs[|events| - 1])
  {
  }

  lemma NothingRepresented()
    ensures Represents(EMPTY_GATEWAY, map[])
  {
  }

  lemma AgreeNext(g: Gateway, m: Naive, e: ItchEvent, g': Gateway, out: Option<BboUpdate>)
    requires RoutesAgree(g, m) && OrdersAgree(g, m) && Fresh(m, e) && Next(g, e, g', out)
    ensures RoutesAgree(g', NaiveStep(m, e)) && OrdersAgree(g', NaiveStep(m, e))
  {
    ScanIsRouted(g, m, e, g', out);
    hide Next, RoutedStep, Fresh, NaiveStep, RoutesAgree, OrdersAgree;
    AgreeStep(g, m, e);
  }

  /** On every fresh run, however large, index and books agree with the table on what is live. */
  lemma {:induction false} RunAgrees(states: seq<Gateway>, events: seq<ItchEvent>, outs: seq<Option<BboUpdate>>)
    requires IsTrace(states, events, outs) && FreshFeed(events)
    ensures RoutesAgree(states[|events|], NaiveRun(events)) && OrdersAgree(states[|events|], NaiveRun(events))
    decreases |events|
  {
    if events == [] {
      NothingRepresented();
    } else {
      var k := |events| - 1;
      TraceInit(states, events, outs);
      hide IsTrace, Next, RoutesAgree, OrdersAgree, NaiveStep, Fresh;
      RunAgrees(states[..k + 1], events[..k], outs[..k]);
      AgreeNext(states[k], NaiveRun(events[..k]), events[k], states[k + 1], outs[k]);
    }
  }

  /** No live total of the table outgrows 64 bits during the feed. */
  ghost predicate FittingFeed(events: seq<ItchEvent>) {
    events == [] || (FittingFeed(events[..|events| - 1]) && VolumesFit(NaiveRun(events)))
  }

  /** The gateway represents the table in every state of the run. */
  ghost predicate RefinesThroughout(states: seq<Gateway>, events: seq<ItchEvent>)
    requires |states| == |events| + 1
    decreases |events|
  {
    Represents(states[|events|], NaiveRun(events))
    && (events != [] ==> RefinesThroughout(states[..|events|], events[..|events| - 1]))
  }

  /** On every fresh feed, whatever order the hash map is scanned in, the gateway represents
      the plain table run on the same events, all along, exactly when no live total of the
      table outgrows 64 bits. */
  lemma {:induction false} RefinesExactly(states: seq<Gateway>, events: seq<ItchEvent>, outs: seq<Option<BboUpdate>>)
    requires IsTrace(states, events, outs) && FreshFeed(events)
    ensures RefinesThroughout(states, events) <==> FittingFeed(events)
    decreases |events|
  {
    if events == [] {
      NothingRepresented();
    } else {
      var k := |events| - 1;
      TraceInit(states, events, outs);
      hide IsTrace, Next, Represents, NaiveStep, Fresh, VolumesFit;
      RefinesExactly(states[..k + 1], events[..k], outs[..k]);
      if FittingFeed(events[..k]) {
        assert Represents(states[..k + 1][k], NaiveRun(events[..k]));
        RefinesNext(states[k], NaiveRun(events[..k]), events[k], states[k + 1], outs[k]);
      }
    }
  }

  lemma RunRefines(states: seq<Gateway>, events: seq<ItchEvent>, outs: seq<Option<BboUpdate>>)
    requires IsTrace(states, events, outs) && FreshFeed(events) && FittingFeed(events)
    ensures Represents(states[|events|], NaiveRun(events))
  {
    RefinesExactly(states, events, outs);
  }

  // ---------------------------------------------------------------- few orders always fit

  lemma SizeWithoutKey(m: Naive, r: uint64)
    requires r in m
    ensures |m| == |m - {r}| + 1
  {
    assert m.Keys == (m - {r}).Keys + {r};
  }

  lemma {:induction false} TotalOfFew(m: Naive, s: uint64, side: Side, price: uint64)
    ensures NaiveVolume(m, s, side, price) <= |m| * MAX_U32
    decreases |m|
  {
    var w := AtStockLevel(s, side, price);
    if r :| r in m {
      Smaller(m, r);
      TotalRemove(m, w, r);
      SizeWithoutKey(m, r);
      TotalOfFew(m - {r}, s, side, price);
      assert w(m[r]) <= MAX_U32;
    } else {
      assert m == map[];
    }
  }

  /** The reference an event brings in, if it brings one. */
  function NewRef(e: ItchEvent): set<uint64> {
    match e
    case AddOrder(_, r, _, _, _, _) => {r}
    case AddOrderMpid(_, r, _, _, _, _, _) => {r}
    case OrderReplace(_, _, newRef, _, _) => {newRef}
    case _ => {}
  }

  lemma KeysStep(m: Naive, e: ItchEvent)
    ensures NaiveStep(m, e).Keys <= m.Keys + NewRef(e)
    ensures |NewRef(e)| == if Introduces(IntentOf(e)) then 1 else 0
  {
  }

  lemma SmallUnion(a: set<uint64>, b: set<uint64>, c: set<uint64>)
    requires a <= b + c
    ensures |a| <= |b| + |c|
  {
    assert b + c == a + (b + c - a) && |b + c| <= |b| + |c|;
  }

  lemma SizeStep(m: Naive, e: ItchEvent)
    ensures |NaiveStep(m, e)| <= |m| + if Introduces(IntentOf(e)) then 1 else 0
  {
    hide NaiveStep, NewRef;
    KeysStep(m, e);
    SmallUnion(NaiveStep(m, e).Keys, m.Keys, NewRef(e));
    assert |m| == |m.Keys| && |NaiveStep(m, e)| == |NaiveStep(m, e).Keys|;
  }

  lemma {:induction false} FewOrders(events: seq<ItchEvent>)
    ensures |NaiveRun(events)| <= Introductions(events)
  {
    if events != [] {
      FewOrders(events[..|events| - 1]);
      SizeStep(NaiveRun(events[..|events| - 1]), events[|events| - 1]);
    }
  }

  lemma FewFit(n: nat)
    requires n < TWO_32
    ensures n * MAX_U32 < TWO_64
  {
  }

  /** With fewer than 2^32 introductions no total can outgrow 64 bits. */
  lemma {:induction false} FewIntroductionsFit(events: seq<ItchEvent>)
    requires Introductions(events) < TWO_32
    ensures FittingFeed(events)
  {
    if events != [] {
      FewIntroductionsFit(events[..|events| - 1]);
      FewOrders(events);
      var m := NaiveRun(events);
      forall s, side, price ensures NaiveVolume(m, s, side, price) < TWO_64 {
        TotalOfFew(m, s, side, price);
        FewFit(|m|);
      }
    }
  }

  /** n full buy orders at one price. */
  function HugeFeed(n: nat): seq<ItchEvent>
    requires n <= TWO_64
  {
    if n == 0 then [] else HugeFeed(n - 1) + [AddOrder(0, n - 1, Buy, 0xFFFF_FFFF, 7, 100)]
  }

  lemma HugeMore(n: nat)
    requires 0 < n <= TWO_64
    ensures HugeFeed(n) == HugeFeed(n - 1) + [AddOrder(0, n - 1, Buy, 0xFFFF_FFFF, 7, 100)]
  {
  }

  lemma FeedMore(events: seq<ItchEvent>, e: ItchEvent)
    ensures NaiveRun(events + [e]) == NaiveStep(NaiveRun(events), e)
    ensures FreshFeed(events + [e]) <==> FreshFeed(events) && Fresh(NaiveRun(events), e)
  {
    assert (events + [e])[..|events|] == events;
  }

  lemma VolumeMore(m: Naive, r: uint64, o: Order)
    requires r !in m
    ensures NaiveVolume(m[r := Resting(7, o)], 7, o.side, o.price) == NaiveVolume(m, 7, o.side, o.price) + o.shares
  {
    var w := AtStockLevel(7, o.side, o.price);
    TotalInsert(m, w, r, Resting(7, o));
    TotalAbsent(m, w, r);
  }

  lemma {:induction false} HugeTotal(n: nat)
    requires n <= TWO_64
    ensures FreshFeed(HugeFeed(n)) && forall r :: r in NaiveRun(HugeFeed(n)) ==> r < n
    ensures NaiveVolume(NaiveRun(HugeFeed(n)), 7, Buy, 100) == n * MAX_U32
  {
    if n > 0 {
      HugeTotal(n - 1);
      var before, m := HugeFeed(n - 1), NaiveRun(HugeFeed(n - 1));
      FeedMore(before, AddOrder(0, n - 1, Buy, 0xFFFF_FFFF, 7, 100));
      hide NaiveRun, FreshFeed, NaiveVolume;
      VolumeMore(m, n - 1, Order(Buy, 100, 0xFFFF_FFFF));
    }
  }

  lemma NotEmpty(n: nat)
    requires 0 < n <= TWO_64
    ensures HugeFeed(n) != []
  {
  }

  /** A fresh feed of 2^32 + 2 full orders at one price outgrows the 64-bit volume. */
  lemma VolumesCanOverflow()
    ensures var feed := HugeFeed(0x1_0000_0002); FreshFeed(feed) && !FittingFeed(feed)
  {
    HugeTotal(0x1_0000_0002);
    hide HugeFeed, NaiveRun, NaiveVolume, FreshFeed;
    var feed := HugeFeed(0x1_0000_0002);
    assert 0x1_0000_0002 * MAX_U32 >= TWO_64;
    NotEmpty(0x1_0000_0002);
  }

  // ---------------------------------------------------------------- the ledger on any feed

  /** One stock's ledger: the volumes of its book are its live shares plus the given orphaned
      ones, and volumes and counts are within the bounds after n introductions. */
  ghost predicate LedgerHolds(g: Gateway, s: uint64, x: Orphans, n: nat) {
    Balanced(BookOr(g, s).depth, x) && Bounded(BookOr(g, s).depth, n)
  }

  /** What one event adds to the shares orphaned in a stock's book. */
  ghost function OrphansNext(g: Gateway, s: uint64, x: Orphans, a: Intent): Orphans {
    if Target(g, a) == Some(s) then OrphanStep(BookOr(g, s).depth, x, a) else x
  }

  /** The shares orphaned in one stock's book over a run: exactly those of the live orders
      overwritten there, level by level. */
  ghost function OrphansAt(states: seq<Gateway>, events: seq<ItchEvent>, s: uint64): Orphans
    requires |states| == |events| + 1
    decreases |events|
  {
    if events == [] then map[]
    else
      var k := |events| - 1;
      OrphansNext(states[k], s, OrphansAt(states[..k + 1], events[..k], s), IntentOf(events[k]))
  }

  lemma LedgerStep(b: Book, e: ItchEvent, x: Orphans, n: nat)
    requires Balanced(b.depth, x) && Bounded(b.depth, n)
    requires Introduces(IntentOf(e)) ==> n + 1 < TWO_32
    ensures Balanced(BookStep(b, e).0.depth, OrphanStep(b.depth, x, IntentOf(e)))
    ensures Bounded(BookStep(b, e).0.depth, if Introduces(IntentOf(e)) then n + 1 else n)
  {
    BoundedFits(b.depth, IntentOf(e), n);
    BalancedStep(b.depth, x, IntentOf(e));
    BoundedStep(b.depth, IntentOf(e), n);
  }

  lemma NewLedger(s: uint64, n: nat)
    ensures Balanced(NewBook(s).depth, map[]) && Bounded(NewBook(s).depth, n)
  {
    EmptyIsBalanced();
  }

  lemma LedgerNext(g: Gateway, e: ItchEvent, g': Gateway, out: Option<BboUpdate>, s: uint64, x: Orphans, n: nat)
    requires LedgerHolds(g, s, x, n) && Next(g, e, g', out)
    requires Introduces(IntentOf(e)) ==> n + 1 < TWO_32
    ensures LedgerHolds(g', s, OrphansNext(g, s, x, IntentOf(e)), if Introduces(IntentOf(e)) then n + 1 else n)
  {
    hide Next, BookStep, Balanced, Bounded;
    var t := StepsOneBook(g, e, g', out);
    if t == Some(s) {
      LedgerStep(BookOr(g, s), e, x, n);
    } else {
      assert BookOr(g', s) == BookOr(g, s);
      assert OrphansNext(g, s, x, IntentOf(e)) == x;
      BoundedWeaken(BookOr(g, s).depth, n);
    }
  }

  /** Across all stocks, on any events and any scan order, references reused or not: every
      level's volume is the live shares there plus the shares orphaned there. */
  lemma {:induction false} RunIsAccounted(states: seq<Gateway>, events: seq<ItchEvent>, outs: seq<Option<BboUpdate>>,
                                          s: uint64)
    requires IsTrace(states, events, outs) && Introductions(events) < TWO_32
    ensures LedgerHolds(states[|events|], s, OrphansAt(states, events, s), Introductions(events))
    decreases |events|
  {
    if events == [] {
      NewLedger(s, 0);
    } else {
      hide IsTrace, Next, LedgerHolds, OrphansNext;
      var k := |events| - 1;
      TraceInit(states, events, outs);
      RunIsAccounted(states[..k + 1], events[..k], outs[..k], s);
      var x := OrphansAt(states[..k + 1], events[..k], s);
      LedgerNext(states[k], events[k], states[k + 1], outs[k], s, x, Introductions(events[..k]));
    }
  }

  predicate FitsAt(g: Gateway, a: Intent, s: uint64) {
    Target(g, a) == Some(s) ==> Fits(BookOr(g, s).depth, a)
  }

  /** Every event that reaches the stock's book fits there. */
  ghost predicate FitsThroughout(states: seq<Gateway>, events: seq<ItchEvent>, s: uint64)
    requires |states| == |events| + 1
    decreases |events|
  {
    events == []
    || (var k := |events| - 1;
        && FitsThroughout(states[..k + 1], events[..k], s)
        && FitsAt(states[k], IntentOf(events[k]), s))
  }

  /** The stock's ledger is exact in every state of the run. */
  ghost predicate BalancedThroughout(states: seq<Gateway>, events: seq<ItchEvent>, s: uint64)
    requires |states| == |events| + 1
    decreases |events|
  {
    Balanced(BookOr(states[|events|], s).depth, OrphansAt(states, events, s))
    && (events != [] ==> BalancedThroughout(states[..|events|], events[..|events| - 1], s))
  }

  lemma StepDepth(b: Book, e: ItchEvent)
    ensures BookStep(b, e).0.depth == DepthStep(b.depth, IntentOf(e))
  {
  }

  /** A delete brings nothing and orphans nothing, whichever book it reaches. */
  lemma CloseIsNeutral(d: Depth, x: Orphans, a: Intent)
    ensures a.Close? ==> Fits(d, a) && OrphanStep(d, x, a) == x
  {
  }

  lemma LedgerNextExactly(g: Gateway, e: ItchEvent, g': Gateway, out: Option<BboUpdate>, s: uint64, x: Orphans)
    requires Balanced(BookOr(g, s).depth, x) && Next(g, e, g', out)
    ensures Balanced(BookOr(g', s).depth, OrphansNext(g, s, x, IntentOf(e))) <==> FitsAt(g, IntentOf(e), s)
  {
    hide Next, Balanced, Fits, BookStep, OrphanStep;
    var t := StepsOneBook(g, e, g', out);
    if t == Some(s) {
      BalancedStep(BookOr(g, s).depth, x, IntentOf(e));
      StepDepth(BookOr(g, s), e);
      CloseIsNeutral(BookOr(g, s).depth, x, IntentOf(e));
    } else {
      CloseIsNeutral(BookOr(g, s).depth, x, IntentOf(e));
      assert BookOr(g', s) == BookOr(g, s);
      assert OrphansNext(g, s, x, IntentOf(e)) == x;
    }
  }

  /** On any feed, however long and references reused or not: a stock's ledger is exact all
      along exactly when the shares each event brings to its book fit their level. */
  lemma {:induction false} LedgerExactly(states: seq<Gateway>, events: seq<ItchEvent>, outs: seq<Option<BboUpdate>>,
                                         s: uint64)
    requires IsTrace(states, events, outs)
    ensures BalancedThroughout(states, events, s) <==> FitsThroughout(states, events, s)
    decreases |events|
  {
    if events == [] {
      NewLedger(s, 0);
    } else {
      var k := |events| - 1;
      TraceInit(states, events, outs);
      hide IsTrace, Next, Balanced, FitsAt, OrphansNext;
      LedgerExactly(states[..k + 1], events[..k], outs[..k], s);
      if FitsThroughout(states[..k + 1], events[..k], s) {
        var x := OrphansAt(states[..k + 1], events[..k], s);
        assert Balanced(BookOr(states[..k + 1][k], s).depth, x);
        LedgerNextExactly(states[k], events[k], states[k + 1], outs[k], s, x);
      }
    }
  }

  ghost predicate OrderFits(d: Depth, x: Orphans, o: Order) {
    o.shares + OrphanedAt(x, o.side, o.price) <= VolumeAt(SideOf(d, o.side), o.price)
  }

  /** So on every run of the gateway a level with orphaned shares is still there, and a live
      order's shares fit in its level beside the orphaned ones. */
  lemma OrphansStayOnRun(states: seq<Gateway>, events: seq<ItchEvent>, outs: seq<Option<BboUpdate>>, s: uint64)
    requires IsTrace(states, events, outs) && Introductions(events) < TWO_32
    ensures var d, x := BookOr(states[|events|], s).depth, OrphansAt(states, events, s);
      && (forall side, price :: OrphanedAt(x, side, price) > 0 ==> price in SideOf(d, side))
      && (forall side, price :: OrphanedAt(x, side, price) <= VolumeAt(SideOf(d, side), price))
      && (forall r :: r in d.orders ==> OrderFits(d, x, d.orders[r]))
  {
    hide Next, OrphansNext, OrphanedAt, LiveAt;
    RunIsAccounted(states, events, outs, s);
    var d, x := BookOr(states[|events|], s).depth, OrphansAt(states, events, s);
    forall side, price ensures OrphanedAt(x, side, price) <= VolumeAt(SideOf(d, side), price) {
      assert VolumeAt(SideOf(d, side), price) == LiveAt(d.orders, side, price) + OrphanedAt(x, side, price);
    }
    forall r | r in d.orders ensures OrderFits(d, x, d.orders[r]) {
      NeverClips(d, x, r);
    }
  }
}
