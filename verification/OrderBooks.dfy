/** The order book as it is kept in memory: sides, single-stock books and the routing index,
    all updated in place. Each operation is tied to the value-level step it stands for. */
module OrderBooks {
  import opened Words
  import opened Events
  import opened Levels
  import opened Books
  import G = Gateways
  import Crossing

  class BookSide {
    var levels: LevelMap
    const side: Side

    constructor (side: Side)
      ensures this.side == side && levels == map[]
    {
      this.side := side;
      levels := map[];
    }

    method Best() returns (level: Option<PriceLevel>)
      ensures level.None? <==> levels == map[]
      ensures level.Some? ==> IsBest(levels, side, level.value)
    {
      return if levels == map[] then None else Some(levels[BestPrice(levels, side)]);
    }

    method BestSnapshot() returns (price: uint64, volume: uint64)
      ensures Quote(price, volume) == BestQuote(levels, side)
    {
      var level := Best();
      match level
      case None => return 0, 0;
      case Some(l) =>
        BestIsUnique(levels, side, l);
        return l.price, l.volume;
    }

    method AddOrder(price: uint64, shares: uint32)
      modifies this
      ensures levels == AddShares(old(levels), price, shares)
    {
      if price in levels {
        var level := levels[price];
        level := level.(volume := WrapAdd64(level.volume, shares));
        level := level.(orderCount := WrapAdd32(level.orderCount, 1));
        levels := levels[price := level];
      } else {
        levels := levels[price := PriceLevel(price, shares, 1)];
      }
    }

    method RemoveShares(price: uint64, shares: uint32)
      modifies this
      ensures levels == TakeShares(old(levels), price, shares)
    {
      if price in levels {
        var level := levels[price];
        level := level.(volume := SatSub(level.volume, shares));
        level := level.(orderCount := SatSub(level.orderCount, 1));
        levels := levels[price := level];
        if level.volume == 0 {
          levels := levels - {price};
        }
      }
    }

    method DeleteAllAtPrice(price: uint64, shares: uint32)
      modifies this
      ensures levels == TakeShares(old(levels), price, shares)
    {
      if price in levels {
        var level := levels[price];
        level := level.(volume := SatSub(level.volume, shares));
        level := level.(orderCount := SatSub(level.orderCount, 1));
        levels := levels[price := level];
        if level.volume == 0 {
          levels := levels - {price};
        }
      }
    }

    method ReplaceAtomically(oldPrice: uint64, oldShares: uint32, newPrice: uint64, newShares: uint32)
      modifies this
      ensures levels == ReplaceShares(old(levels), oldPrice, oldShares, newPrice, newShares)
    {
      if oldPrice == newPrice {
        if oldPrice in levels {
          var level := levels[oldPrice];
          level := level.(volume := WrapAdd64(SatSub(level.volume, oldShares), newShares));
          levels := levels[oldPrice := level];
          if level.volume == 0 {
            levels := levels - {oldPrice};
          }
        } else {
          levels := levels[newPrice := PriceLevel(newPrice, newShares, 1)];
        }
        return;
      }

      if oldPrice in levels {
        var level := levels[oldPrice];
        level := level.(volume := SatSub(level.volume, oldShares));
        level := level.(orderCount := SatSub(level.orderCount, 1));
        levels := levels[oldPrice := level];
        if level.volume == 0 {
          levels := levels - {oldPrice};
        }
      }
      assert levels == TakeShares(old(levels), oldPrice, oldShares);

      if newPrice in levels {
        var level := levels[newPrice];
        level := level.(volume := WrapAdd64(level.volume, newShares));
        level := level.(orderCount := WrapAdd32(level.orderCount, 1));
        levels := levels[newPrice := level];
      } else {
        levels := levels[newPrice := PriceLevel(newPrice, newShares, 1)];
      }
    }

    /** The n best levels, read in the side's own order. */
    method TopN(n: nat) returns (result: seq<PriceLevel>)
      ensures result == TopLevels(levels, side, n)
      ensures Keyed(levels) ==> IsTop(levels, side, n, result)
    {
      result := [];
      var rest := levels;
      while |result| < n && rest != map[]
        invariant |result| <= n
        invariant TopLevels(levels, side, n) == result + TopLevels(rest, side, n - |result|)
        decreases n - |result|
      {
        var p := BestPrice(rest, side);
        assert TopLevels(rest, side, n - |result|) == [rest[p]] + TopLevels(rest - {p}, side, n - |result| - 1);
        result := result + [rest[p]];
        rest := rest - {p};
      }
      if Keyed(levels) {
        TopLevelsMeaning(levels, side, n, TopLevels(levels, side, n));
      }
    }
  }

  class SingleOrderBook {
    const stock: uint64
    const bids: BookSide
    const asks: BookSide
    var orders: OrderMap
    var lastSnapshot: Bbo
    var seqNum: uint64

    ghost function Objects(): set<object> {
      {this, bids, asks}
    }

    ghost function DepthNow(): Depth
      reads Objects()
    {
      Depth(bids.levels, asks.levels, orders)
    }

    /** The change detector remembers the present best bid and offer: this is what makes it
        safe to skip the comparison when nothing was touched. */
    ghost predicate Valid()
      reads Objects()
    {
      bids != asks && bids.side == Buy && asks.side == Sell && lastSnapshot == BboOf(DepthNow())
    }

    ghost function Model(): Book
      reads Objects()
    {
      Book(stock, DepthNow(), lastSnapshot, seqNum)
    }

    constructor (stock: uint64)
      ensures Valid() && fresh(Objects()) && Model() == NewBook(stock)
    {
      this.stock := stock;
      bids := new BookSide(Buy);
      asks := new BookSide(Sell);
      orders := map[];
      lastSnapshot := ZERO_BBO;
      seqNum := 0;
    }

    method SnapshotBbo() returns (snap: Bbo)
      requires bids.side == Buy && asks.side == Sell
      ensures snap == BboOf(DepthNow())
    {
      var bidPrice, bidVolume := bids.BestSnapshot();
      var askPrice, askVolume := asks.BestSnapshot();
      snap := Bbo(bidPrice, bidVolume, askPrice, askVolume);
    }

    method IsConsistent() returns (ok: bool)
      requires Valid()
      ensures ok <==> !IsCrossed(BboOf(DepthNow()))
    {
      var snap := SnapshotBbo();
      ok := !IsCrossed(snap);
    }

    method CreateBboUpdate(timestamp: uint64, snap: Bbo) returns (u: BboUpdate)
      requires bids.side == Buy && asks.side == Sell && snap == BboOf(DepthNow())
      modifies this`seqNum
      ensures u == UpdateFor(old(Model()), timestamp)
      ensures seqNum == WrapAdd64(old(seqNum), 1)
    {
      var topBids := bids.TopN(TOP_LEVELS);
      var topAsks := asks.TopN(TOP_LEVELS);
      u := BboUpdate(stock, timestamp, seqNum, snap, topBids, topAsks);
      seqNum := WrapAdd64(seqNum, 1);
    }

    method InsertOrder(r: uint64, side: Side, price: uint64, shares: uint32)
      requires bids != asks
      modifies Objects()
      ensures DepthNow() == OpenOrder(old(DepthNow()), r, Order(side, price, shares))
      ensures lastSnapshot == old(lastSnapshot) && seqNum == old(seqNum)
    {
      orders := orders[r := Order(side, price, shares)];
      match side
      case Buy => bids.AddOrder(price, shares);
      case Sell => asks.AddOrder(price, shares);
    }

    /** An execution or a cancellation. */
    method TakeFromOrder(r: uint64, shares: uint32) returns (touched: bool)
      requires bids != asks
      modifies Objects()
      ensures DepthNow() == ReduceOrder(old(DepthNow()), r, shares)
      ensures lastSnapshot == old(lastSnapshot) && seqNum == old(seqNum)
      ensures !touched ==> bids.levels == old(bids.levels) && asks.levels == old(asks.levels)
    {
      touched := false;
      if r in orders {
        var info := orders[r];
        var taken := Min(shares, info.shares);
        if taken > 0 {
          info := info.(shares := info.shares - taken);
          orders := orders[r := info];
          match info.side {
            case Buy => bids.RemoveShares(info.price, taken);
            case Sell => asks.RemoveShares(info.price, taken);
          }
          touched := true;
        }
        if info.shares == 0 {
          orders := orders - {r};
        }
      }
    }

    method DeleteOrder(r: uint64) returns (touched: bool)
      requires bids != asks
      modifies Objects()
      ensures DepthNow() == CloseOrder(old(DepthNow()), r)
      ensures lastSnapshot == old(lastSnapshot) && seqNum == old(seqNum)
      ensures !touched ==> bids.levels == old(bids.levels) && asks.levels == old(asks.levels)
    {
      touched := false;
      if r in orders {
        var info := orders[r];
        orders := orders - {r};
        match info.side {
          case Buy => bids.DeleteAllAtPrice(info.price, info.shares);
          case Sell => asks.DeleteAllAtPrice(info.price, info.shares);
        }
        touched := true;
      }
    }

    method ReplaceOrder(r: uint64, newRef: uint64, price: uint64, shares: uint32) returns (touched: bool)
      requires bids != asks
      modifies Objects()
      ensures DepthNow() == SwapOrder(old(DepthNow()), r, newRef, price, shares)
      ensures lastSnapshot == old(lastSnapshot) && seqNum == old(seqNum)
      ensures !touched ==> bids.levels == old(bids.levels) && asks.levels == old(asks.levels)
    {
      touched := false;
      if r in orders {
        var info := orders[r];
        orders := orders - {r};
        match info.side {
          case Buy => bids.ReplaceAtomically(info.price, info.shares, price, shares);
          case Sell => asks.ReplaceAtomically(info.price, info.shares, price, shares);
        }
        orders := orders[newRef := Order(info.side, price, shares)];
        touched := true;
      }
    }

    /** The end of an event: nothing to compare when no level was touched. */
    method PublishIfChanged(touched: bool, timestamp: uint64) returns (out: Option<BboUpdate>)
      requires bids != asks && bids.side == Buy && asks.side == Sell
      requires !touched ==> lastSnapshot == BboOf(DepthNow())
      modifies this
      ensures Valid() && orders == old(orders)
      ensures (Model(), out) == Publish(old(Model()), timestamp)
    {
      if !touched {
        return None;
      }
      var snap := SnapshotBbo();
      if snap == lastSnapshot {
        return None;
      }
      lastSnapshot := snap;
      var u := CreateBboUpdate(timestamp, snap);
      out := Some(u);
    }

    method ApplyEvent(e: ItchEvent) returns (out: Option<BboUpdate>)
      requires Valid()
      modifies Objects()
      ensures Valid()
      ensures (Model(), out) == BookStep(old(Model()), e)
    {
      var touched := false;
      match e {
        case AddOrder(_, r, side, shares, _, price) =>
          InsertOrder(r, side, price, shares);
          touched := true;
        case AddOrderMpid(_, r, side, shares, _, price, _) =>
          InsertOrder(r, side, price, shares);
          touched := true;
        case OrderExecuted(_, r, shares, _) => touched := TakeFromOrder(r, shares);
        case OrderExecutedPrice(_, r, shares, _, _, _) => touched := TakeFromOrder(r, shares);
        case OrderCancel(_, r, shares) => touched := TakeFromOrder(r, shares);
        case OrderDelete(_, r) => touched := DeleteOrder(r);
        case OrderReplace(_, r, newRef, shares, price) => touched := ReplaceOrder(r, newRef, price, shares);
        case StockDirectory(_, _, _, _, _, _, _) =>
        case SystemEvent(_, _) =>
      }
      assert DepthNow() == DepthStep(old(DepthNow()), IntentOf(e));
      assert lastSnapshot == old(lastSnapshot) && seqNum == old(seqNum);
      out := PublishIfChanged(touched, e.timestamp);
    }
  }

  class OrderBook {
    var books: map<uint64, SingleOrderBook>
    var orderToStock: map<uint64, uint64>
    ghost var Repr: set<object>

    /** The two books share no object. */
    static ghost predicate Apart(b: SingleOrderBook, c: SingleOrderBook) {
      b != c && b.bids != c.bids && b.bids != c.asks && b.asks != c.bids && b.asks != c.asks
    }

    ghost predicate Valid()
      reads this, Repr
      ensures Valid() ==> this in Repr
    {
      && this in Repr
      && (forall s :: s in books ==>
            && books[s] in Repr && books[s].bids in Repr && books[s].asks in Repr
            && this !in books[s].Objects() && books[s].Valid())
      && (forall s, t :: s in books && t in books && s != t ==> Apart(books[s], books[t]))
    }

    ghost function Model(): (g: G.Gateway)
      requires Valid()
      reads this, Repr
      ensures g.routes == orderToStock && g.books.Keys == books.Keys
    {
      G.Gateway(map s | s in books :: books[s].Model(), orderToStock)
    }

    constructor ()
      ensures Valid() && fresh(Repr) && Model() == G.EMPTY_GATEWAY
    {
      books := map[];
      orderToStock := map[];
      Repr := {this};
    }

    method Insert(stock: uint64, book: SingleOrderBook)
      requires Valid() && stock !in books
      requires book.Valid() && book.Objects() !! Repr
      modifies this
      ensures Valid() && Repr == old(Repr) + book.Objects()
      ensures orderToStock == old(orderToStock) && books == old(books)[stock := book]
      ensures Model().books == old(Model()).books[stock := book.Model()]
    {
      hide SingleOrderBook.Valid, SingleOrderBook.Model;
      ghost var g := Model();
      books := books[stock := book];
      Repr := Repr + book.Objects();
      assert Valid() by {
        forall s | s in books && s != stock ensures Apart(books[s], book) && Apart(book, books[s]) {
          assert books[s] in old(Repr) && books[s].bids in old(Repr) && books[s].asks in old(Repr);
        }
        assert this !in book.Objects();
      }
      forall s | s in books ensures books[s].Model() == g.books[stock := book.Model()][s] {}
    }

    method GetOrCreate(stock: uint64) returns (book: SingleOrderBook)
      requires Valid()
      modifies this
      ensures Valid() && fresh(Repr - old(Repr))
      ensures orderToStock == old(orderToStock)
      ensures stock in books && books[stock] == book && book.Model() == G.BookOr(old(Model()), stock)
      ensures Model().books == old(Model()).books[stock := book.Model()]
    {
      hide SingleOrderBook.Valid, SingleOrderBook.Model;
      if stock in books {
        book := books[stock];
      } else {
        book := new SingleOrderBook(stock);
        assert Valid() && Model() == old(Model());
        hide Valid, Model;
        Insert(stock, book);
      }
    }

    /** The effect on all the books of a change to one of them alone. */
    twostate lemma OnlyOneChanged(stock: uint64)
      requires old(Valid()) && stock in books
      requires unchanged(this)
      requires forall o :: o in Repr && o !in books[stock].Objects() ==> unchanged(o)
      requires books[stock].Valid()
      ensures Valid()
      ensures Model() == old(Model()).(books := old(Model()).books[stock := books[stock].Model()])
    {
      hide SingleOrderBook.Valid, SingleOrderBook.Model;
      forall s | s in books && s != stock ensures books[s].Valid() && books[s].Model() == old(books[s].Model()) {
        assert Apart(books[s], books[stock]);
      }
    }

    method ApplyToExisting(stock: uint64, e: ItchEvent) returns (out: Option<BboUpdate>)
      requires Valid() && stock in books
      modifies books[stock].Objects()
      ensures unchanged(this) && Valid()
      ensures (books[stock].Model(), out) == BookStep(old(books[stock].Model()), e)
      ensures Model() == old(Model()).(books := old(Model()).books[stock := books[stock].Model()])
    {
      hide SingleOrderBook.Valid, SingleOrderBook.Model, BookStep, Model;
      out := books[stock].ApplyEvent(e);
      OnlyOneChanged(stock);
    }

    /** Creating the book first and then applying the event is delivering it. */
    static lemma DeliverInTwo(g: G.Gateway, stock: uint64, e: ItchEvent, created: Book, b: Book, out: Option<BboUpdate>)
      requires created == G.BookOr(g, stock) && (b, out) == BookStep(created, e)
      ensures (g.(books := g.books[stock := created][stock := b]), out) == G.Deliver(g, stock, e)
    {
      hide BookStep, G.BookOr;
      assert g.books[stock := created][stock := b] == g.books[stock := b];
    }

    /** Fetches the stock's book and applies the event to it. */
    method ApplyTo(stock: uint64, e: ItchEvent) returns (out: Option<BboUpdate>)
      requires Valid()
      modifies Repr
      ensures Valid() && fresh(Repr - old(Repr))
      ensures stock in books
      ensures (Model(), out) == G.Deliver(old(Model()), stock, e)
    {
      hide SingleOrderBook.Model, BookStep, G.BookOr, G.Deliver, Model;
      ghost var g := Model();
      var book := GetOrCreate(stock);
      ghost var created := book.Model();
      out := ApplyToExisting(stock, e);
      DeliverInTwo(g, stock, e, created, book.Model(), out);
    }

    method SetRoutes(routes: map<uint64, uint64>)
      requires Valid()
      modifies this`orderToStock
      ensures Valid() && Model() == old(Model()).(routes := routes)
    {
      hide SingleOrderBook.Valid, SingleOrderBook.Model;
      orderToStock := routes;
    }

    /** The scan over all books for the order to delete, in any order of the hash map. */
    method DeleteFromSomeBook(e: ItchEvent) returns (out: Option<BboUpdate>)
      requires Valid() && e.OrderDelete?
      modifies Repr
      ensures Valid() && fresh(Repr - old(Repr))
      ensures G.Scanned(old(Model()), e, Model(), out)
    {
      ghost var g := Model();
      out := None;
      var unseen := books.Keys;
      while unseen != {}
        invariant unseen <= books.Keys && books == old(books) && Repr == old(Repr)
        invariant Valid() && Model() == g && out == None
        invariant forall s :: s in books && s !in unseen ==> !G.HoldsOrder(g, s, e.orderRef)
        decreases unseen
      {
        var s :| s in unseen;
        assert g.books[s] == books[s].Model();
        if e.orderRef in books[s].orders {
          assert G.HoldsOrder(g, s, e.orderRef);
          out := ApplyTo(s, e);
          return;
        }
        unseen := unseen - {s};
      }
    }

    method SharesRemaining(stock: uint64, r: uint64) returns (left: nat)
      requires Valid() && stock in books
      ensures left == G.SharesLeft(Model().books[stock], r)
    {
      hide SingleOrderBook.Valid;
      assert Model().books[stock] == books[stock].Model();
      left := if r in books[stock].orders then books[stock].orders[r].shares else 0;
    }

    method ReduceRouted(r: uint64, e: ItchEvent) returns (out: Option<BboUpdate>)
      requires Valid() && IntentOf(e).Reduce? && r == e.orderRef
      modifies Repr
      ensures Valid() && fresh(Repr - old(Repr))
      ensures G.Next(old(Model()), e, Model(), out)
    {
      hide Valid, Model, BookStep, G.SharesLeft, G.BookOr;
      out := None;
      if r in orderToStock {
        var stock := orderToStock[r];
        out := ApplyTo(stock, e);
        var sharesRemaining := SharesRemaining(stock, r);
        if sharesRemaining == 0 {
          SetRoutes(orderToStock - {r});
        }
      }
    }

    method ReplaceRouted(r: uint64, newRef: uint64, e: ItchEvent) returns (out: Option<BboUpdate>)
      requires Valid() && e.OrderReplace? && r == e.orderRef && newRef == e.newOrderRef
      modifies Repr
      ensures Valid() && fresh(Repr - old(Repr))
      ensures G.Next(old(Model()), e, Model(), out)
    {
      hide SingleOrderBook.Valid, SingleOrderBook.Model, BookStep;
      out := None;
      if r in orderToStock {
        var stock := orderToStock[r];
        SetRoutes((orderToStock - {r})[newRef := stock]);
        out := ApplyTo(stock, e);
      }
    }

    method ApplyEvent(e: ItchEvent) returns (out: Option<BboUpdate>)
      requires Valid()
      modifies Repr
      ensures Valid() && fresh(Repr - old(Repr))
      ensures G.Next(old(Model()), e, Model(), out)
    {
      hide Valid, Model, G.Deliver, G.Scanned;
      match e
      case AddOrder(_, r, _, _, stock, _) =>
        SetRoutes(orderToStock[r := stock]);
        out := ApplyTo(stock, e);
      case AddOrderMpid(_, r, _, _, stock, _, _) =>
        SetRoutes(orderToStock[r := stock]);
        out := ApplyTo(stock, e);
      case OrderReplace(_, r, newRef, _, _) => out := ReplaceRouted(r, newRef, e);
      case OrderExecuted(_, r, _, _) => out := ReduceRouted(r, e);
      case OrderExecutedPrice(_, r, _, _, _, _) => out := ReduceRouted(r, e);
      case OrderCancel(_, r, _) => out := ReduceRouted(r, e);
      case OrderDelete(_, r) =>
        SetRoutes(orderToStock - {r});
        out := DeleteFromSomeBook(e);
      case _ => out := None;
    }

    /** Is no book crossed? The books are looked at in any order. */
    method AllConsistent() returns (ok: bool)
      requires Valid()
      ensures ok <==> Crossing.AllConsistent(Model())
    {
      hide BboOf;
      ghost var g := Model();
      var unseen := books.Keys;
      while unseen != {}
        invariant unseen <= books.Keys
        invariant forall s :: s in books && s !in unseen ==> !IsCrossed(BboOf(g.books[s].depth))
        decreases unseen
      {
        var s :| s in unseen;
        ok := books[s].IsConsistent();
        assert g.books[s] == books[s].Model();
        if !ok {
          return false;
        }
        unseen := unseen - {s};
      }
      ok := true;
    }
  }
}
