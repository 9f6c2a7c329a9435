/** The exact share ledger of one book: on any events at all, order references reused or
    not, every level's volume is the live shares resting there plus the shares orphaned
    there when a live reference was overwritten. */
module Ledger {
  import opened Words
  import opened Totals
  import opened Events
  import opened Levels
  import opened Books

  ghost function AtLevel(side: Side, price: uint64): Order -> nat {
    (o: Order) => if o.side == side && o.price == price then o.shares else 0
  }

  /** Shares of the live orders resting at one price of one side. */
  ghost function LiveAt(orders: OrderMap, side: Side, price: uint64): nat {
    Total(orders, AtLevel(side, price))
  }

  type Orphans = map<(Side, uint64), nat>

  ghost function OrphanedAt(x: Orphans, side: Side, price: uint64): nat {
    if (side, price) in x then x[(side, price)] else 0
  }

  /** The live order whose record an intent overwrites without taking its shares off the book. */
  function Overwritten(d: Depth, a: Intent): Option<Order> {
    match a
    case Open(r, _, _, _, _) => if r in d.orders then Some(d.orders[r]) else None
    case Swap(r, newRef, _, _) =>
      if r in d.orders && newRef in d.orders && newRef != r then Some(d.orders[newRef]) else None
    case _ => None
  }

  ghost function OrphanStep(d: Depth, x: Orphans, a: Intent): Orphans {
    match Overwritten(d, a)
    case None => x
    case Some(o) => x[(o.side, o.price) := OrphanedAt(x, o.side, o.price) + o.shares]
  }

  ghost predicate Balanced(d: Depth, x: Orphans) {
    forall side, price :: VolumeAt(SideOf(d, side), price) == LiveAt(d.orders, side, price) + OrphanedAt(x, side, price)
  }

  ghost predicate BoundedLevels(l: LevelMap, n: nat) {
    forall p :: p in l ==> l[p].volume <= n * MAX_U32 && l[p].orderCount <= n
  }

  /** The volume that rests at a price once an order is taken away. */
  function VolumeBeside(l: LevelMap, o: Order, price: uint64): nat {
    if price == o.price then SatSub(VolumeAt(l, price), o.shares) else VolumeAt(l, price)
  }

  /** Does the intent bring shares into this book? */
  predicate Brings(d: Depth, a: Intent) {
    a.Open? || (a.Swap? && a.orderRef in d.orders)
  }

  function IncomingSide(d: Depth, a: Intent): Side
    requires Brings(d, a)
  {
    if a.Open? then a.side else d.orders[a.orderRef].side
  }

  /** What the level these shares come to should hold with them. */
  function Incoming(d: Depth, a: Intent): nat
    requires Brings(d, a)
  {
    var l := SideOf(d, IncomingSide(d, a));
    a.shares + if a.Open? then VolumeAt(l, a.price) else VolumeBeside(l, d.orders[a.orderRef], a.price)
  }

  /** Do the shares the intent brings in fit in their level's 64-bit volume? */
  predicate Fits(d: Depth, a: Intent) {
    Brings(d, a) ==> Incoming(d, a) < TWO_64
  }

  /** After n order-introducing events no level can hold more than n full orders. */
  ghost predicate Bounded(d: Depth, n: nat) {
    BoundedLevels(d.bids, n) && BoundedLevels(d.asks, n)
  }

  // ---------------------------------------------------------------- live shares

  ghost function SharesAt(o: Order, side: Side, price: uint64): nat {
    AtLevel(side, price)(o)
  }

  lemma LiveWithout(orders: OrderMap, r: uint64, side: Side, price: uint64)
    requires r in orders
    ensures LiveAt(orders, side, price) == SharesAt(orders[r], side, price) + LiveAt(orders - {r}, side, price)
  {
    TotalRemove(orders, AtLevel(side, price), r);
  }

  lemma LiveWith(orders: OrderMap, r: uint64, o: Order, side: Side, price: uint64)
    ensures LiveAt(orders[r := o], side, price) == SharesAt(o, side, price) + LiveAt(orders - {r}, side, price)
  {
    TotalInsert(orders, AtLevel(side, price), r, o);
  }

  /** A live order's shares are all in its level, so taking them never clips at zero. */
  lemma NeverClips(d: Depth, x: Orphans, r: uint64)
    requires Balanced(d, x) && r in d.orders
    ensures d.orders[r].shares + OrphanedAt(x, d.orders[r].side, d.orders[r].price)
         <= VolumeAt(SideOf(d, d.orders[r].side), d.orders[r].price)
  {
    var o := d.orders[r];
    LiveWithout(d.orders, r, o.side, o.price);
    assert VolumeAt(SideOf(d, o.side), o.price) == LiveAt(d.orders, o.side, o.price) + OrphanedAt(x, o.side, o.price);
  }

  // ---------------------------------------------------------------- level volumes

  lemma AddVolume(l: LevelMap, price: uint64, shares: uint32, p: uint64)
    requires VolumeAt(l, price) + shares < TWO_64
    ensures VolumeAt(AddShares(l, price, shares), p) == VolumeAt(l, p) + if p == price then shares else 0
  {
  }

  lemma VolumeIsWord(l: LevelMap, price: uint64)
    ensures VolumeAt(l, price) < TWO_64
  {
  }

  lemma TakeVolume(l: LevelMap, price: uint64, shares: uint32, p: uint64)
    requires shares <= VolumeAt(l, price)
    ensures VolumeAt(TakeShares(l, price, shares), p) == VolumeAt(l, p) - if p == price then shares else 0
  {
  }

  lemma ReplaceVolume(l: LevelMap, oldPrice: uint64, oldShares: uint32, newPrice: uint64, newShares: uint32, p: uint64)
    requires oldShares <= VolumeAt(l, oldPrice)
    requires VolumeAt(l, newPrice) - (if newPrice == oldPrice then oldShares else 0) + newShares < TWO_64
    ensures VolumeAt(ReplaceShares(l, oldPrice, oldShares, newPrice, newShares), p)
         == VolumeAt(l, p) - (if p == oldPrice then oldShares else 0) + if p == newPrice then newShares else 0
  {
  }

  lemma VolumeRoom(l: LevelMap, n: nat, price: uint64, shares: uint32)
    requires BoundedLevels(l, n) && n + 1 < TWO_32
    ensures VolumeAt(l, price) + shares < TWO_64
  {
  }

  // ---------------------------------------------------------------- one step

  lemma OrphansAfter(d: Depth, x: Orphans, a: Intent, side: Side, price: uint64)
    ensures OrphanedAt(OrphanStep(d, x, a), side, price)
         == OrphanedAt(x, side, price) + match Overwritten(d, a) case None => 0 case Some(o) => SharesAt(o, side, price)
  {
  }

  lemma BalancedOpen(d: Depth, x: Orphans, a: Intent, side: Side, price: uint64)
    requires a.Open? && Balanced(d, x) && Fits(d, a)
    ensures VolumeAt(SideOf(DepthStep(d, a), side), price)
         == LiveAt(DepthStep(d, a).orders, side, price) + OrphanedAt(OrphanStep(d, x, a), side, price)
  {
    OrphansAfter(d, x, a, side, price);
    AddVolume(SideOf(d, a.side), a.price, a.shares, price);
    LiveWith(d.orders, a.orderRef, Order(a.side, a.price, a.shares), side, price);
    if a.orderRef in d.orders {
      LiveWithout(d.orders, a.orderRef, side, price);
    } else {
      TotalAbsent(d.orders, AtLevel(side, price), a.orderRef);
    }
  }

  lemma BalancedReduce(d: Depth, x: Orphans, a: Intent, side: Side, price: uint64)
    requires a.Reduce? && a.orderRef in d.orders && Balanced(d, x)
    ensures VolumeAt(SideOf(DepthStep(d, a), side), price)
         == LiveAt(DepthStep(d, a).orders, side, price) + OrphanedAt(x, side, price)
  {
    var r, o := a.orderRef, d.orders[a.orderRef];
    var taken := Min(a.shares, o.shares);
    NeverClips(d, x, r);
    TakeVolume(SideOf(d, o.side), o.price, taken, price);
    LiveWithout(d.orders, r, side, price);
    LiveWith(d.orders, r, o.(shares := o.shares - taken), side, price);
    assert VolumeAt(SideOf(d, side), price) == LiveAt(d.orders, side, price) + OrphanedAt(x, side, price);
  }

  lemma BalancedClose(d: Depth, x: Orphans, a: Intent, side: Side, price: uint64)
    requires a.Close? && a.orderRef in d.orders && Balanced(d, x)
    ensures VolumeAt(SideOf(DepthStep(d, a), side), price)
         == LiveAt(DepthStep(d, a).orders, side, price) + OrphanedAt(x, side, price)
  {
    var r, o := a.orderRef, d.orders[a.orderRef];
    NeverClips(d, x, r);
    TakeVolume(SideOf(d, o.side), o.price, o.shares, price);
    LiveWithout(d.orders, r, side, price);
  }

  lemma LiveAfterSwap(orders: OrderMap, r: uint64, newRef: uint64, o: Order, side: Side, price: uint64)
    requires r in orders
    ensures LiveAt((orders - {r})[newRef := o], side, price) + SharesAt(orders[r], side, price)
         + (if newRef in orders && newRef != r then SharesAt(orders[newRef], side, price) else 0)
         == LiveAt(orders, side, price) + SharesAt(o, side, price)
  {
    var rest := orders - {r};
    LiveWithout(orders, r, side, price);
    LiveWith(rest, newRef, o, side, price);
    if newRef in rest {
      LiveWithout(rest, newRef, side, price);
    } else {
      TotalAbsent(rest, AtLevel(side, price), newRef);
    }
  }

  lemma BalancedSwap(d: Depth, x: Orphans, a: Intent, side: Side, price: uint64)
    requires a.Swap? && a.orderRef in d.orders && Balanced(d, x) && Fits(d, a)
    ensures VolumeAt(SideOf(DepthStep(d, a), side), price)
         == LiveAt(DepthStep(d, a).orders, side, price) + OrphanedAt(OrphanStep(d, x, a), side, price)
  {
    hide ReplaceShares, OrphanStep, LiveAt;
    var o := d.orders[a.orderRef];
    OrphansAfter(d, x, a, side, price);
    NeverClips(d, x, a.orderRef);
    ReplaceVolume(SideOf(d, o.side), o.price, o.shares, a.price, a.shares, price);
    LiveAfterSwap(d.orders, a.orderRef, a.newRef, Order(o.side, a.price, a.shares), side, price);
    assert VolumeAt(SideOf(d, side), price) == LiveAt(d.orders, side, price) + OrphanedAt(x, side, price);
  }

  /** What the ledger asks of the level the shares come to. */
  lemma IncomingTotal(d: Depth, x: Orphans, a: Intent)
    requires Balanced(d, x) && Brings(d, a)
    ensures var side := IncomingSide(d, a);
      LiveAt(DepthStep(d, a).orders, side, a.price) + OrphanedAt(OrphanStep(d, x, a), side, a.price) == Incoming(d, a)
  {
    var side, price := IncomingSide(d, a), a.price;
    OrphansAfter(d, x, a, side, price);
    assert VolumeAt(SideOf(d, side), price) == LiveAt(d.orders, side, price) + OrphanedAt(x, side, price);
    if a.Swap? {
      NeverClips(d, x, a.orderRef);
      LiveAfterSwap(d.orders, a.orderRef, a.newRef, Order(side, price, a.shares), side, price);
    } else {
      LiveWith(d.orders, a.orderRef, Order(side, price, a.shares), side, price);
      if a.orderRef in d.orders {
        LiveWithout(d.orders, a.orderRef, side, price);
      } else {
        TotalAbsent(d.orders, AtLevel(side, price), a.orderRef);
      }
    }
  }

  lemma FittingIsBalanced(d: Depth, x: Orphans, a: Intent)
    requires Balanced(d, x) && Fits(d, a)
    ensures Balanced(DepthStep(d, a), OrphanStep(d, x, a))
  {
    var d', x' := DepthStep(d, a), OrphanStep(d, x, a);
    forall side, price
      ensures VolumeAt(SideOf(d', side), price) == LiveAt(d'.orders, side, price) + OrphanedAt(x', side, price)
    {
      if a.Open? { BalancedOpen(d, x, a, side, price); }
      else if a.Ignore? || a.orderRef !in d.orders {}
      else if a.Reduce? { BalancedReduce(d, x, a, side, price); }
      else if a.Close? { BalancedClose(d, x, a, side, price); }
      else { BalancedSwap(d, x, a, side, price); }
    }
  }

  /** An event keeps the ledger exact exactly when the shares it brings in fit their level. */
  lemma BalancedStep(d: Depth, x: Orphans, a: Intent)
    requires Balanced(d, x)
    ensures Balanced(DepthStep(d, a), OrphanStep(d, x, a)) <==> Fits(d, a)
  {
    if Fits(d, a) {
      FittingIsBalanced(d, x, a);
    } else {
      IncomingTotal(d, x, a);
      VolumeIsWord(SideOf(DepthStep(d, a), IncomingSide(d, a)), a.price);
    }
  }

  // ---------------------------------------------------------------- what each event does

  /** An order now rests: it is recorded, its level has its shares more, and no other level
      of either side has changed its volume. */
  ghost predicate OrderRests(d: Depth, d': Depth, r: uint64, o: Order) {
    && d'.orders == d.orders[r := o]
    && forall side, p :: VolumeAt(SideOf(d', side), p) ==
         if side == o.side && p == o.price then (VolumeAt(SideOf(d, side), p) + o.shares) % TWO_64
         else VolumeAt(SideOf(d, side), p)
  }

  /** At most the given shares were taken off an order and off its level. */
  ghost predicate SharesTaken(d: Depth, d': Depth, r: uint64, shares: nat) {
    if r !in d.orders then d' == d
    else
      var o := d.orders[r];
      && d'.orders == (if shares >= o.shares then d.orders - {r} else d.orders[r := o.(shares := o.shares - shares)])
      && forall side, p :: VolumeAt(SideOf(d', side), p) ==
           if side == o.side && p == o.price then SatSub(VolumeAt(SideOf(d, side), p), Min(shares, o.shares))
           else VolumeAt(SideOf(d, side), p)
  }

  /** An order was taken away, and one on its side rests in its place under a new reference. */
  ghost predicate OrderMoved(d: Depth, d': Depth, r: uint64, newRef: uint64, price: uint64, shares: uint32) {
    if r !in d.orders then d' == d
    else
      var o := d.orders[r];
      && d'.orders == (d.orders - {r})[newRef := Order(o.side, price, shares)]
      && forall side, p :: VolumeAt(SideOf(d', side), p) ==
           if side == o.side then (VolumeBeside(SideOf(d, side), o, p) + if p == price then shares else 0) % TWO_64
           else VolumeAt(SideOf(d, side), p)
  }

  lemma AddRests(d: Depth, r: uint64, stock: uint64, o: Order)
    ensures OrderRests(d, DepthStep(d, Open(r, stock, o.side, o.price, o.shares)), r, o)
  {
  }

  lemma ReduceTakes(d: Depth, r: uint64, shares: uint32)
    ensures SharesTaken(d, DepthStep(d, Reduce(r, shares)), r, shares)
  {
    if r in d.orders && Min(shares, d.orders[r].shares) == 0 && d.orders[r].shares > 0 {
      assert d.orders[r := d.orders[r]] == d.orders;
    }
  }

  lemma CloseTakes(d: Depth, r: uint64)
    ensures SharesTaken(d, DepthStep(d, Close(r)), r, TWO_32)
  {
  }

  lemma ReplaceMoves(l: LevelMap, o: Order, price: uint64, shares: uint32, p: uint64)
    ensures VolumeAt(ReplaceShares(l, o.price, o.shares, price, shares), p)
         == (VolumeBeside(l, o, p) + if p == price then shares else 0) % TWO_64
  {
  }

  lemma SwapMoves(d: Depth, r: uint64, newRef: uint64, price: uint64, shares: uint32)
    ensures OrderMoved(d, DepthStep(d, Swap(r, newRef, price, shares)), r, newRef, price, shares)
  {
    hide ReplaceShares;
    if r in d.orders {
      var o := d.orders[r];
      forall p { ReplaceMoves(SideOf(d, o.side), o, price, shares, p); }
    }
  }

  /** What an event does to a book, read off the event itself, in any book at all: both adds rest
      the event's own side, price and shares, executions and cancels take at most the order's
      shares, a delete takes all of them, and a replace keeps the side. */
  lemma EventMoves(d: Depth, e: ItchEvent)
    ensures var d' := DepthStep(d, IntentOf(e));
      match e
      case AddOrder(_, r, side, shares, _, price) => OrderRests(d, d', r, Order(side, price, shares))
      case AddOrderMpid(_, r, side, shares, _, price, _) => OrderRests(d, d', r, Order(side, price, shares))
      case OrderExecuted(_, r, shares, _) => SharesTaken(d, d', r, shares)
      case OrderExecutedPrice(_, r, shares, _, _, _) => SharesTaken(d, d', r, shares)
      case OrderCancel(_, r, shares) => SharesTaken(d, d', r, shares)
      case OrderDelete(_, r) => SharesTaken(d, d', r, TWO_32)
      case OrderReplace(_, r, newRef, shares, price) => OrderMoved(d, d', r, newRef, price, shares)
      case StockDirectory(_, _, _, _, _, _, _) => d' == d
      case SystemEvent(_, _) => d' == d
  {
    hide OrderRests, SharesTaken, OrderMoved, OpenOrder, ReduceOrder, CloseOrder, SwapOrder;
    match e
    case AddOrder(_, r, side, shares, stock, price) => AddRests(d, r, stock, Order(side, price, shares));
    case AddOrderMpid(_, r, side, shares, stock, price, _) => AddRests(d, r, stock, Order(side, price, shares));
    case OrderExecuted(_, r, shares, _) => ReduceTakes(d, r, shares);
    case OrderExecutedPrice(_, r, shares, _, _, _) => ReduceTakes(d, r, shares);
    case OrderCancel(_, r, shares) => ReduceTakes(d, r, shares);
    case OrderDelete(_, r) => CloseTakes(d, r);
    case OrderReplace(_, r, newRef, shares, price) => SwapMoves(d, r, newRef, price, shares);
    case _ =>
  }

  // ---------------------------------------------------------------- bounds

  lemma BoundedAdd(l: LevelMap, n: nat, price: uint64, shares: uint32)
    requires BoundedLevels(l, n) && n + 1 < TWO_32
    ensures BoundedLevels(AddShares(l, price, shares), n + 1)
  {
  }

  lemma BoundedTake(l: LevelMap, n: nat, price: uint64, shares: uint32)
    requires BoundedLevels(l, n)
    ensures BoundedLevels(TakeShares(l, price, shares), n)
  {
  }

  lemma BoundedReplace(l: LevelMap, n: nat, oldPrice: uint64, oldShares: uint32, newPrice: uint64, newShares: uint32)
    requires BoundedLevels(l, n) && n + 1 < TWO_32
    ensures BoundedLevels(ReplaceShares(l, oldPrice, oldShares, newPrice, newShares), n + 1)
  {
    if oldPrice != newPrice {
      BoundedTake(l, n, oldPrice, oldShares);
      BoundedAdd(TakeShares(l, oldPrice, oldShares), n, newPrice, newShares);
    } else {
      VolumeRoom(l, n, newPrice, newShares);
    }
  }

  /** With fewer than 2^32 introductions every intent fits. */
  lemma BoundedFits(d: Depth, a: Intent, n: nat)
    requires Bounded(d, n)
    requires Introduces(a) ==> n + 1 < TWO_32
    ensures Fits(d, a)
  {
    if a.Open? {
      VolumeRoom(SideOf(d, a.side), n, a.price, a.shares);
    } else if a.Swap? && a.orderRef in d.orders {
      VolumeRoom(SideOf(d, d.orders[a.orderRef].side), n, a.price, a.shares);
    }
  }

  lemma BoundedWeaken(d: Depth, n: nat)
    requires Bounded(d, n)
    ensures Bounded(d, n + 1)
  {
  }

  lemma BoundedStep(d: Depth, a: Intent, n: nat)
    requires Bounded(d, n)
    requires Introduces(a) ==> n + 1 < TWO_32
    ensures Bounded(DepthStep(d, a), if Introduces(a) then n + 1 else n)
  {
    BoundedWeaken(d, n);
    match a
    case Open(r, _, side, price, shares) => BoundedAdd(SideOf(d, side), n, price, shares);
    case Swap(r, _, price, shares) =>
      if r in d.orders {
        BoundedReplace(SideOf(d, d.orders[r].side), n, d.orders[r].price, d.orders[r].shares, price, shares);
      }
    case Reduce(r, shares) =>
      if r in d.orders {
        BoundedTake(SideOf(d, d.orders[r].side), n, d.orders[r].price, Min(shares, d.orders[r].shares));
      }
    case Close(r) =>
      if r in d.orders {
        BoundedTake(SideOf(d, d.orders[r].side), n, d.orders[r].price, d.orders[r].shares);
      }
    case Ignore =>
  }

  // ---------------------------------------------------------------- whole runs

  ghost function OrphansOf(stock: uint64, events: seq<ItchEvent>): Orphans {
    if events == [] then map[]
    else
      var before := events[..|events| - 1];
      OrphanStep(BookRun(stock, before).0.depth, OrphansOf(stock, before), IntentOf(events[|events| - 1]))
  }

  lemma EmptyIsBalanced()
    ensures Balanced(EMPTY_DEPTH, map[]) && Bounded(EMPTY_DEPTH, 0)
  {
  }

  /** After any run with fewer than 2^32 order-introducing events, references reused or
      not: the ledger is exact, and volumes and counts are within their bounds. */
  lemma {:induction false} LedgerOfRun(stock: uint64, events: seq<ItchEvent>)
    requires Introductions(events) < TWO_32
    ensures Balanced(BookRun(stock, events).0.depth, OrphansOf(stock, events))
    ensures Bounded(BookRun(stock, events).0.depth, Introductions(events))
  {
    if events == [] {
      EmptyIsBalanced();
    } else {
      var before := events[..|events| - 1];
      var a := IntentOf(events[|events| - 1]);
      LedgerOfRun(stock, before);
      BoundedFits(BookRun(stock, before).0.depth, a, Introductions(before));
      BalancedStep(BookRun(stock, before).0.depth, OrphansOf(stock, before), a);
      BoundedStep(BookRun(stock, before).0.depth, a, Introductions(before));
    }
  }

  /** Consequences on every run: no subtraction of a live order's shares clips, and a level
      that holds orphaned shares is still there. */
  lemma OrphansAreNeverLost(stock: uint64, events: seq<ItchEvent>, side: Side, price: uint64)
    requires Introductions(events) < TWO_32
    ensures var d := BookRun(stock, events).0.depth; var orphaned := OrphanedAt(OrphansOf(stock, events), side, price);
      && (orphaned > 0 ==> price in SideOf(d, side) && SideOf(d, side)[price].volume >= orphaned)
      && (forall r :: r in d.orders ==> d.orders[r].shares <= VolumeAt(SideOf(d, d.orders[r].side), d.orders[r].price))
  {
    LedgerOfRun(stock, events);
    var d, x := BookRun(stock, events).0.depth, OrphansOf(stock, events);
    assert VolumeAt(SideOf(d, side), price) == LiveAt(d.orders, side, price) + OrphanedAt(x, side, price);
    forall r | r in d.orders ensures d.orders[r].shares <= VolumeAt(SideOf(d, d.orders[r].side), d.orders[r].price) {
      NeverClips(d, x, r);
    }
  }
}
