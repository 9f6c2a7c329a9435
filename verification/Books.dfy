/** One stock's book as a value: its resting orders, its two sides, the last published
    best bid and offer, and the step an event makes. */
module Books {
  import opened Words
  import opened Events
  import opened Levels

  datatype Order = Order(side: Side, price: uint64, shares: uint32)

  type OrderMap = map<uint64, Order>

  datatype Depth = Depth(bids: LevelMap, asks: LevelMap, orders: OrderMap)

  datatype Bbo = Bbo(bidPrice: uint64, bidVolume: uint64, askPrice: uint64, askVolume: uint64)

  datatype BboUpdate = BboUpdate(
    stock: uint64, timestamp: uint64, seqNum: uint64, bbo: Bbo, topBids: seq<PriceLevel>, topAsks: seq<PriceLevel>)

  datatype Book = Book(stock: uint64, depth: Depth, lastSnapshot: Bbo, seqNum: uint64)

  const TOP_LEVELS: nat := 10
  const EMPTY_DEPTH := Depth(map[], map[], map[])
  const ZERO_BBO := Bbo(0, 0, 0, 0)

  function NewBook(stock: uint64): Book {
    Book(stock, EMPTY_DEPTH, ZERO_BBO, 0)
  }

  function SideOf(d: Depth, side: Side): LevelMap {
    match side
    case Buy => d.bids
    case Sell => d.asks
  }

  function WithSide(d: Depth, side: Side, l: LevelMap): Depth {
    match side
    case Buy => d.(bids := l)
    case Sell => d.(asks := l)
  }

  function BboOf(d: Depth): Bbo {
    var bid, ask := BestQuote(d.bids, Buy), BestQuote(d.asks, Sell);
    Bbo(bid.price, bid.volume, ask.price, ask.volume)
  }

  predicate IsCrossed(b: Bbo) {
    b.bidPrice != 0 && b.askPrice != 0 && b.bidPrice > b.askPrice
  }

  function OpenOrder(d: Depth, r: uint64, o: Order): Depth {
    WithSide(d, o.side, AddShares(SideOf(d, o.side), o.price, o.shares)).(orders := d.orders[r := o])
  }

  /** Takes up to the given shares off an order; an order left with none is gone. */
  function ReduceOrder(d: Depth, r: uint64, shares: uint32): Depth {
    if r !in d.orders then d
    else
      var o := d.orders[r];
      var taken := Min(shares, o.shares);
      var left := o.shares - taken;
      var d' := if taken == 0 then d else WithSide(d, o.side, TakeShares(SideOf(d, o.side), o.price, taken));
      d'.(orders := if left == 0 then d.orders - {r} else d.orders[r := o.(shares := left)])
  }

  function CloseOrder(d: Depth, r: uint64): Depth {
    if r !in d.orders then d
    else
      var o := d.orders[r];
      WithSide(d, o.side, TakeShares(SideOf(d, o.side), o.price, o.shares)).(orders := d.orders - {r})
  }

  function SwapOrder(d: Depth, r: uint64, newRef: uint64, price: uint64, shares: uint32): Depth {
    if r !in d.orders then d
    else
      var o := d.orders[r];
      WithSide(d, o.side, ReplaceShares(SideOf(d, o.side), o.price, o.shares, price, shares))
        .(orders := (d.orders - {r})[newRef := Order(o.side, price, shares)])
  }

  function DepthStep(d: Depth, a: Intent): Depth {
    match a
    case Open(r, _, side, price, shares) => OpenOrder(d, r, Order(side, price, shares))
    case Reduce(r, shares) => ReduceOrder(d, r, shares)
    case Close(r) => CloseOrder(d, r)
    case Swap(r, newRef, price, shares) => SwapOrder(d, r, newRef, price, shares)
    case Ignore => d
  }

  function UpdateFor(b: Book, timestamp: uint64): BboUpdate {
    BboUpdate(b.stock, timestamp, b.seqNum, BboOf(b.depth),
              TopLevels(b.depth.bids, Buy, TOP_LEVELS), TopLevels(b.depth.asks, Sell, TOP_LEVELS))
  }

  /** Publishes the best bid and offer exactly when it is not the one published last. */
  function Publish(b: Book, timestamp: uint64): (Book, Option<BboUpdate>) {
    if BboOf(b.depth) == b.lastSnapshot then (b, None)
    else (b.(lastSnapshot := BboOf(b.depth), seqNum := WrapAdd64(b.seqNum, 1)), Some(UpdateFor(b, timestamp)))
  }

  /** The simple form of the book's step: update the depth, then compare after every event. */
  function BookStep(b: Book, e: ItchEvent): (Book, Option<BboUpdate>) {
    Publish(b.(depth := DepthStep(b.depth, IntentOf(e))), e.timestamp)
  }

  ghost predicate KeyedDepth(d: Depth) {
    Keyed(d.bids) && Keyed(d.asks)
  }

  lemma KeyedStep(d: Depth, a: Intent)
    requires KeyedDepth(d)
    ensures KeyedDepth(DepthStep(d, a))
  {
  }

  // ---------------------------------------------------------------- change detection

  /** What a subscriber that folds the published updates believes the book to be. */
  function Believed(updates: seq<BboUpdate>): Bbo {
    if updates == [] then ZERO_BBO else updates[|updates| - 1].bbo
  }

  /** Every published update is numbered by its position (modulo 2^64). */
  ghost predicate Numbered(updates: seq<BboUpdate>, stock: uint64) {
    forall k :: 0 <= k < |updates| ==> updates[k].stock == stock && updates[k].seqNum == k % TWO_64
  }

  /** The detector's invariant: folding the history gives the current best bid and offer,
      and the numbers handed out so far are 0, 1, 2, ... */
  ghost predicate Tracked(b: Book, history: seq<BboUpdate>) {
    && b.lastSnapshot == BboOf(b.depth) == Believed(history)
    && b.seqNum == |history| % TWO_64
    && Numbered(history, b.stock)
    && KeyedDepth(b.depth)
  }

  function Extend(history: seq<BboUpdate>, out: Option<BboUpdate>): seq<BboUpdate> {
    if out.Some? then history + [out.value] else history
  }

  ghost predicate FaithfulUpdate(u: BboUpdate, d: Depth) {
    && u.bbo == BboOf(d)
    && IsTop(d.bids, Buy, 10, u.topBids)
    && IsTop(d.asks, Sell, 10, u.topAsks)
    && (u.topBids == [] ==> u.bbo.bidPrice == 0 && u.bbo.bidVolume == 0)
    && (u.topBids != [] ==> u.topBids[0].price == u.bbo.bidPrice && u.topBids[0].volume == u.bbo.bidVolume)
    && (u.topAsks == [] ==> u.bbo.askPrice == 0 && u.bbo.askVolume == 0)
    && (u.topAsks != [] ==> u.topAsks[0].price == u.bbo.askPrice && u.topAsks[0].volume == u.bbo.askVolume)
  }

  lemma ModuloStep(n: nat)
    ensures WrapAdd64(n % TWO_64, 1) == (n + 1) % TWO_64
  {
  }

  lemma UpdateIsFaithful(b: Book, timestamp: uint64)
    requires KeyedDepth(b.depth)
    ensures FaithfulUpdate(UpdateFor(b, timestamp), b.depth)
    ensures UpdateFor(b, timestamp).stock == b.stock && UpdateFor(b, timestamp).timestamp == timestamp
  {
    TopLevelsMeaning(b.depth.bids, Buy, TOP_LEVELS, TopLevels(b.depth.bids, Buy, TOP_LEVELS));
    TopLevelsMeaning(b.depth.asks, Sell, TOP_LEVELS, TopLevels(b.depth.asks, Sell, TOP_LEVELS));
  }

  lemma NumberedExtend(history: seq<BboUpdate>, stock: uint64, u: BboUpdate)
    requires Numbered(history, stock)
    requires u.stock == stock && u.seqNum == |history| % TWO_64
    ensures Numbered(history + [u], stock)
  {
  }

  lemma PublishIsTracked(b: Book, depth: Depth, timestamp: uint64, history: seq<BboUpdate>)
    requires Tracked(b, history) && KeyedDepth(depth)
    ensures var (b', out) := Publish(b.(depth := depth), timestamp);
      && b'.stock == b.stock && b'.depth == depth
      && Tracked(b', Extend(history, out))
      && (out.Some? <==> BboOf(depth) != BboOf(b.depth))
  {
    if BboOf(depth) != b.lastSnapshot {
      var u := UpdateFor(b.(depth := depth), timestamp);
      ModuloStep(|history|);
      NumberedExtend(history, b.stock, u);
      assert Believed(history + [u]) == u.bbo;
    }
  }

  /** On any event, an update is published exactly when the best bid and offer changed, it
      describes the new book, and the detector's invariant is kept. */
  lemma ChangeDetection(b: Book, e: ItchEvent, history: seq<BboUpdate>)
    requires Tracked(b, history)
    ensures var (b', out) := BookStep(b, e);
      && b'.stock == b.stock && b'.depth == DepthStep(b.depth, IntentOf(e))
      && Tracked(b', Extend(history, out))
      && (out.Some? <==> BboOf(b'.depth) != BboOf(b.depth))
      && (out.Some? ==> FaithfulUpdate(out.value, b'.depth) && out.value.timestamp == e.timestamp)
  {
    var depth := DepthStep(b.depth, IntentOf(e));
    KeyedStep(b.depth, IntentOf(e));
    PublishIsTracked(b, depth, e.timestamp, history);
    UpdateIsFaithful(b.(depth := depth), e.timestamp);
  }

  /** The book after a run of events, with the updates it published. */
  function BookRun(stock: uint64, events: seq<ItchEvent>): (Book, seq<BboUpdate>) {
    if events == [] then (NewBook(stock), [])
    else
      var (b, history) := BookRun(stock, events[..|events| - 1]);
      var (b', out) := BookStep(b, events[|events| - 1]);
      (b', Extend(history, out))
  }

  /** After every run of any events at all: the history folds to the current best bid and
      offer, and is numbered without gaps. */
  lemma {:induction false} RunIsTracked(stock: uint64, events: seq<ItchEvent>)
    ensures var (b, history) := BookRun(stock, events); b.stock == stock && Tracked(b, history)
  {
    if events != [] {
      var before := events[..|events| - 1];
      RunIsTracked(stock, before);
      var (b, history) := BookRun(stock, before);
      ChangeDetection(b, events[|events| - 1], history);
    }
  }
}
