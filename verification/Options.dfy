/** Option books, chains and their manager as values: the same depth of orders and levels as
    a stock's book, with a cache of pricing results guarded by dirty flags. */
module Options {
  import opened Words
  import opened Events
  import opened Books
  import opened Ledger
  import opened OptionTypes
  import opened Calendar

  type Pricing = BsmResult<real>

  /** Implied volatility and greeks from mid, spot, strike, rate, time to maturity and type. */
  type Solver = (real, real, real, real, real, OptionType) -> Option<Pricing>

  datatype OptionAction =
    | Add(orderRef: uint64, side: Side, price: uint64, shares: uint32)
    | Cancel(orderRef: uint64, shares: uint32)
    | Delete(orderRef: uint64)

  datatype BookState = BookState(
    contract: OptionContract, depth: Depth, lastBbo: Option<Bbo>, lastPricing: Option<Pricing>,
    lastSpotPrice: Option<real>, pricingDirty: bool)

  datatype ChainState = ChainState(
    underlying: uint64, contracts: map<OptionContractKey, BookState>, expiryDates: seq<uint32>, riskFreeRate: real,
    lastSpotPrice: Option<real>, lastSpotTimestamp: uint64, chainDirty: bool)

  datatype ManagerState = ManagerState(chains: map<uint64, ChainState>, riskFreeRate: real)

  datatype GreeksSnapshot = GreeksSnapshot(key: OptionContractKey, pricing: Pricing, spotPrice: real, midPrice: real)

  type ChainSnapshot = AggregatedOptionSnapshot<real>

  type Entry = OptionContractSnapshot<real>

  // ---------------------------------------------------------------- one book

  function NewOptionBook(contract: OptionContract): BookState {
    BookState(contract, EMPTY_DEPTH, None, None, None, true)
  }

  /** An option order does to its book what the like market-data event does to a stock's. */
  function ActionIntent(a: OptionAction, key: OptionContractKey): Intent {
    match a
    case Add(r, side, price, shares) => Open(r, key.underlying, side, price, shares)
    case Cancel(r, shares) => Reduce(r, shares)
    case Delete(r) => Close(r)
  }

  /** Does the action touch a level? */
  predicate TouchesLevels(d: Depth, a: OptionAction) {
    match a
    case Add(_, _, _, _) => true
    case Cancel(r, shares) => r in d.orders && Min(shares, d.orders[r].shares) > 0
    case Delete(r) => r in d.orders
  }

  function OrderStep(b: BookState, a: OptionAction): BookState {
    b.(depth := DepthStep(b.depth, ActionIntent(a, b.contract.key)),
       pricingDirty := b.pricingDirty || TouchesLevels(b.depth, a))
  }

  /** What an order does to its book: an add rests its own side, price and shares, a cancel takes
      at most the order's shares, a delete all of them. The cache becomes dirty exactly if a level
      was touched. */
  lemma ActionMoves(b: BookState, a: OptionAction)
    ensures var b' := OrderStep(b, a);
      match a
      case Add(r, side, price, shares) => OrderRests(b.depth, b'.depth, r, Order(side, price, shares))
      case Cancel(r, shares) => SharesTaken(b.depth, b'.depth, r, shares)
      case Delete(r) => SharesTaken(b.depth, b'.depth, r, TWO_32)
    ensures OrderStep(b, a) == b.(depth := OrderStep(b, a).depth, pricingDirty := OrderStep(b, a).pricingDirty)
    ensures OrderStep(b, a).pricingDirty <==> b.pricingDirty || match a
      case Add(_, _, _, _) => true
      case Cancel(r, shares) => r in b.depth.orders && shares > 0 && b.depth.orders[r].shares > 0
      case Delete(r) => r in b.depth.orders
  {
    hide OrderRests, SharesTaken, DepthStep;
    match a
    case Add(r, side, price, shares) => AddRests(b.depth, r, b.contract.key.underlying, Order(side, price, shares));
    case Cancel(r, shares) => ReduceTakes(b.depth, r, shares);
    case Delete(r) => CloseTakes(b.depth, r);
  }

  function MidPrice(q: Bbo): Option<real> {
    if q.bidPrice > 0 && q.askPrice > 0 then Some((q.bidPrice as real + q.askPrice as real) / 2.0 / 10000.0) else None
  }

  function StrikeOf(contract: OptionContract): real {
    contract.key.strikePrice as real / 10000.0
  }

  /** What the solver says of a contract at given quotes, spot, rate and time. */
  function SolveFor(solver: Solver, contract: OptionContract, mid: real, spot: real, rate: real, now: uint64)
    : Option<Pricing>
  {
    solver(mid, spot, StrikeOf(contract), rate, TimeToMaturity(contract.key.expiryDate, now), contract.key.optionType)
  }

  /** What the solver is asked: the middle of the two quotes, the spot, the strike, the rate, the
      years left of 31557600 seconds each, and the contract's type. */
  lemma SolverArguments(solver: Solver, contract: OptionContract, q: Bbo, spot: real, rate: real, now: uint64)
    ensures MidPrice(q).Some? <==> q.bidPrice > 0 && q.askPrice > 0
    ensures q.bidPrice > 0 && q.askPrice > 0 ==>
      SolveFor(solver, contract, MidPrice(q).value, spot, rate, now)
      == (var expiry := DateToUnixSecs(contract.key.expiryDate);
          solver((q.bidPrice as real + q.askPrice as real) / 2.0 / 10000.0, spot,
                 contract.key.strikePrice as real / 10000.0, rate,
                 if expiry > now then (expiry - now) as real / 31557600.0 else 0.0, contract.key.optionType))
  {
    hide DateToUnixSecs;
  }

  function ComputePricing(solver: Solver, b: BookState, spot: real, now: uint64, rate: real)
    : (BookState, Option<GreeksSnapshot>)
  {
    match MidPrice(BboOf(b.depth))
    case None => (b, None)
    case Some(mid) =>
      var result := SolveFor(solver, b.contract, mid, spot, rate, now);
      (b.(lastSpotPrice := Some(spot), lastPricing := result, pricingDirty := false, lastBbo := Some(BboOf(b.depth))),
       match result
       case None => None
       case Some(p) => Some(GreeksSnapshot(b.contract.key, p, spot, mid)))
  }

  // ---------------------------------------------------------------- one chain

  function NewChain(underlying: uint64, rate: real): ChainState {
    ChainState(underlying, map[], [], rate, None, 0, false)
  }

  /** Sorted and without repeats. */
  predicate Increasing(dates: seq<uint32>) {
    forall i, j :: 0 <= i < j < |dates| ==> dates[i] < dates[j]
  }

  /** Where sorting puts a date pushed onto a sorted list. */
  function Inserted(dates: seq<uint32>, date: uint32): seq<uint32> {
    if dates == [] || date < dates[0] then [date] + dates
    else [dates[0]] + Inserted(dates[1..], date)
  }

  function WithExpiry(dates: seq<uint32>, date: uint32): seq<uint32> {
    if date in dates then dates else Inserted(dates, date)
  }

  function Register(c: ChainState, contract: OptionContract): ChainState {
    c.(contracts := c.contracts[contract.key := NewOptionBook(contract)],
       expiryDates := WithExpiry(c.expiryDates, contract.key.expiryDate))
  }

  function UpdateSpot(c: ChainState, spot: real, timestamp: uint64): ChainState {
    c.(lastSpotPrice := Some(spot), lastSpotTimestamp := timestamp, chainDirty := true,
       contracts := map k | k in c.contracts :: c.contracts[k].(pricingDirty := true))
  }

  function Repriced(solver: Solver, b: BookState, spot: real, now: uint64, rate: real): BookState {
    if b.pricingDirty then ComputePricing(solver, b, spot, now, rate).0 else b
  }

  function UpdateAllPricing(solver: Solver, c: ChainState, now: uint64): ChainState {
    match c.lastSpotPrice
    case None => c
    case Some(spot) =>
      c.(chainDirty := false,
         contracts := map k | k in c.contracts :: Repriced(solver, c.contracts[k], spot, now, c.riskFreeRate))
  }

  /** One order on a contract of the chain, repriced when the chain knows a spot price. */
  function OrderedChain(solver: Solver, c: ChainState, key: OptionContractKey, a: OptionAction, now: uint64,
                        rate: real): (ChainState, Option<GreeksSnapshot>)
    requires key in c.contracts
  {
    var b := OrderStep(c.contracts[key], a);
    match c.lastSpotPrice
    case None => (c.(contracts := c.contracts[key := b]), None)
    case Some(spot) =>
      var (priced, out) := ComputePricing(solver, b, spot, now, rate);
      (c.(contracts := c.contracts[key := priced]), out)
  }

  function SpotOf(q: Bbo): real {
    (q.bidPrice as real + q.askPrice as real) / 2.0 / 10000.0
  }

  /** The spot a two-sided quote implies is its mid price. */
  lemma SpotIsMid(q: Bbo)
    requires MidPrice(q).Some?
    ensures SpotOf(q) == MidPrice(q).value
    ensures q.bidPrice <= q.askPrice ==> q.bidPrice as real / 10000.0 <= SpotOf(q) <= q.askPrice as real / 10000.0
  {
  }

  /** The chain's state after an aggregate snapshot. */
  function Refreshed(solver: Solver, c: ChainState, spot: Bbo, now: uint64): ChainState {
    UpdateAllPricing(solver, UpdateSpot(c, SpotOf(spot), c.lastSpotTimestamp), now)
  }

  /** What a book contributes to a snapshot: anything priced that has a quote. */
  function EntryOf(b: BookState): Option<Entry> {
    match b.lastPricing
    case None => None
    case Some(p) =>
      var q := BboOf(b.depth);
      if q.bidPrice > 0 || q.askPrice > 0 then Some(OptionContractSnapshot(b.contract, q, p)) else None
  }

  /** items lists what all holds outside the unseen keys, each exactly once, in the order of keys. */
  ghost predicate ListsSeen<K(!new), T>(all: map<K, Option<T>>, unseen: set<K>, keys: seq<K>, items: seq<T>) {
    && |keys| == |items|
    && (forall i, j :: 0 <= i < j < |keys| ==> keys[i] != keys[j])
    && (forall i :: 0 <= i < |keys| ==> keys[i] in all && keys[i] !in unseen && all[keys[i]] == Some(items[i]))
    && (forall k :: k in all && k !in unseen && all[k].Some? ==> k in keys)
  }

  ghost predicate Lists<K(!new), T>(all: map<K, Option<T>>, keys: seq<K>, items: seq<T>) {
    ListsSeen(all, {}, keys, items)
  }

  ghost function EntriesOf(c: ChainState): map<OptionContractKey, Option<Entry>> {
    map k | k in c.contracts :: EntryOf(c.contracts[k])
  }

  /** The books that contribute to a snapshot. */
  ghost function Contributors(c: ChainState): set<OptionContractKey> {
    set k | k in c.contracts && EntryOf(c.contracts[k]).Some?
  }

  /** The snapshot of a refreshed chain lists the contribution of every book that has one,
      exactly once, in the order of keys; there is none when nothing has a contribution. */
  ghost predicate IsSnapshot(c: ChainState, spot: Bbo, out: Option<ChainSnapshot>, keys: seq<OptionContractKey>) {
    match out
    case None => forall k :: k in c.contracts ==> EntryOf(c.contracts[k]) == None
    case Some(a) =>
      && a.underlying == c.underlying && a.spot == spot && a.spotTimestamp == c.lastSpotTimestamp
      && a.contracts != []
      && Lists(EntriesOf(c), keys, a.contracts)
  }

  /** The list of a snapshot holds 128 contracts; one contribution more aborts the writer. */
  ghost predicate SnapshotOutcome(c: ChainState, spot: Bbo, out: Option<ChainSnapshot>, aborted: bool,
                                  keys: seq<OptionContractKey>) {
    && (aborted <==> |Contributors(c)| > MAX_CONTRACTS_PER_CHAIN)
    && (aborted ==> out == None)
    && (!aborted ==> IsSnapshot(c, spot, out, keys))
    && (out.Some? ==> |out.value.contracts| <= MAX_CONTRACTS_PER_CHAIN)
  }

  function ResultOf(solver: Solver, b: BookState, spot: real, now: uint64, rate: real): Option<GreeksSnapshot> {
    if b.pricingDirty then ComputePricing(solver, b, spot, now, rate).1 else None
  }

  /** The results that repricing the dirty books of a chain yields. */
  ghost function ResultsOf(solver: Solver, c: ChainState, now: uint64): map<OptionContractKey, Option<GreeksSnapshot>> {
    map k | k in c.contracts ::
      if c.lastSpotPrice.Some? then ResultOf(solver, c.contracts[k], c.lastSpotPrice.value, now, c.riskFreeRate)
      else None
  }

  // ---------------------------------------------------------------- the manager

  function ChainOr(m: ManagerState, underlying: uint64): ChainState {
    if underlying in m.chains then m.chains[underlying] else NewChain(underlying, m.riskFreeRate)
  }

  function PutChain(m: ManagerState, underlying: uint64, c: ChainState): ManagerState {
    m.(chains := m.chains[underlying := c])
  }

  function ApplyOrder(solver: Solver, m: ManagerState, key: OptionContractKey, a: OptionAction, now: uint64)
    : (ManagerState, Option<GreeksSnapshot>)
  {
    var c := ChainOr(m, key.underlying);
    if key !in c.contracts then (PutChain(m, key.underlying, c), None)
    else
      var (c', out) := OrderedChain(solver, c, key, a, now, m.riskFreeRate);
      (PutChain(m, key.underlying, c'), out)
  }

  datatype ManagerOp =
    | RegisterContract(contract: OptionContract)
    | SpotPrice(underlying: uint64, spot: real, timestamp: uint64)
    | OptionOrder(key: OptionContractKey, action: OptionAction, now: uint64)
    | Aggregate(chain: uint64, quote: Bbo, at: uint64)

  function ManagerStep(solver: Solver, m: ManagerState, op: ManagerOp): ManagerState {
    match op
    case RegisterContract(contract) =>
      PutChain(m, contract.key.underlying, Register(ChainOr(m, contract.key.underlying), contract))
    case SpotPrice(u, spot, timestamp) =>
      if u in m.chains then PutChain(m, u, UpdateSpot(m.chains[u], spot, timestamp)) else m
    case OptionOrder(key, action, now) => ApplyOrder(solver, m, key, action, now).0
    case Aggregate(u, quote, now) =>
      if u in m.chains then PutChain(m, u, Refreshed(solver, m.chains[u], quote, now)) else m
  }

  function ManagerFrom(solver: Solver, m: ManagerState, ops: seq<ManagerOp>): ManagerState {
    if ops == [] then m
    else ManagerStep(solver, ManagerFrom(solver, m, ops[..|ops| - 1]), ops[|ops| - 1])
  }

  function ManagerRun(solver: Solver, rate: real, ops: seq<ManagerOp>): ManagerState {
    ManagerFrom(solver, ManagerState(map[], rate), ops)
  }

  lemma {:induction false} FromConcat(solver: Solver, m: ManagerState, ops: seq<ManagerOp>, more: seq<ManagerOp>)
    ensures ManagerFrom(solver, m, ops + more) == ManagerFrom(solver, ManagerFrom(solver, m, ops), more)
    decreases |more|
  {
    hide ManagerStep;
    if more == [] {
      assert ops + more == ops;
    } else {
      assert (ops + more)[..|ops + more| - 1] == ops + more[..|more| - 1];
      FromConcat(solver, m, ops, more[..|more| - 1]);
    }
  }

  // ---------------------------------------------------------------- when a book was last priced

  /** Does an order on this contract price it? It must be registered, the chain must know a
      spot, and both quotes must be there after the order. */
  predicate OrderPrices(m: ManagerState, key: OptionContractKey, a: OptionAction) {
    && key in ChainOr(m, key.underlying).contracts
    && ChainOr(m, key.underlying).lastSpotPrice.Some?
    && MidPrice(BboOf(OrderStep(ChainOr(m, key.underlying).contracts[key], a).depth)).Some?
  }

  /** Does a snapshot of its chain price this contract? */
  predicate AggregatePrices(m: ManagerState, key: OptionContractKey) {
    && key.underlying in m.chains && key in m.chains[key.underlying].contracts
    && MidPrice(BboOf(m.chains[key.underlying].contracts[key].depth)).Some?
  }

  /** When the contract was last priced, after an operation, given when it was before. */
  function TimeAfter(m: ManagerState, op: ManagerOp, key: OptionContractKey, before: Option<uint64>): Option<uint64> {
    match op
    case RegisterContract(contract) => if contract.key == key then None else before
    case SpotPrice(_, _, _) => before
    case OptionOrder(k, action, now) => if k == key && OrderPrices(m, k, action) then Some(now) else before
    case Aggregate(u, _, now) => if u == key.underlying && AggregatePrices(m, key) then Some(now) else before
  }

  function TimeFrom(solver: Solver, m: ManagerState, ops: seq<ManagerOp>, key: OptionContractKey,
                    before: Option<uint64>): Option<uint64> {
    if ops == [] then before
    else
      var init := ops[..|ops| - 1];
      TimeAfter(ManagerFrom(solver, m, init), ops[|ops| - 1], key, TimeFrom(solver, m, init, key, before))
  }

  /** When the contract was last priced in a run, if it was. */
  function LastPriced(solver: Solver, rate: real, ops: seq<ManagerOp>, key: OptionContractKey): Option<uint64> {
    TimeFrom(solver, ManagerState(map[], rate), ops, key, None)
  }

  /** For every contract, when it was last priced. */
  type Times = OptionContractKey -> Option<uint64>

  ghost function TimesAfter(m: ManagerState, op: ManagerOp, times: Times): Times {
    (k: OptionContractKey) => TimeAfter(m, op, k, times(k))
  }

  ghost function TimesFrom(solver: Solver, m: ManagerState, ops: seq<ManagerOp>, times: Times): Times {
    (k: OptionContractKey) => TimeFrom(solver, m, ops, k, times(k))
  }

  // ---------------------------------------------------------------- coherence of the cache

  /** What is cached, dirty or not, is the solver's result for the quotes and the spot stored
      with it, at the time the book was last priced; before that nothing is cached. */
  ghost predicate CachedAt(solver: Solver, b: BookState, rate: real, time: Option<uint64>) {
    match time
    case None => b.pricingDirty && b.lastPricing == None && b.lastBbo == None && b.lastSpotPrice == None
    case Some(now) =>
      && b.lastBbo.Some? && b.lastSpotPrice.Some? && MidPrice(b.lastBbo.value).Some?
      && b.lastPricing
         == SolveFor(solver, b.contract, MidPrice(b.lastBbo.value).value, b.lastSpotPrice.value, rate, now)
  }

  /** A clean book's cache belongs to its present quotes and to the chain's present spot. */
  ghost predicate CoherentBook(solver: Solver, c: ChainState, b: BookState, time: Option<uint64>) {
    && CachedAt(solver, b, c.riskFreeRate, time)
    && (!b.pricingDirty ==>
          b.lastBbo == Some(BboOf(b.depth)) && c.lastSpotPrice.Some? && b.lastSpotPrice == c.lastSpotPrice)
  }

  ghost predicate NamedBook(c: ChainState, k: OptionContractKey)
    requires k in c.contracts
  {
    k.underlying == c.underlying && c.contracts[k].contract.key == k
  }

  ghost predicate CoherentChain(solver: Solver, c: ChainState, rate: real, times: Times) {
    && c.riskFreeRate == rate
    && forall k :: k in c.contracts ==> NamedBook(c, k) && CoherentBook(solver, c, c.contracts[k], times(k))
  }

  ghost predicate Coherent(solver: Solver, m: ManagerState, times: Times) {
    forall u :: u in m.chains ==>
      m.chains[u].underlying == u && CoherentChain(solver, m.chains[u], m.riskFreeRate, times)
  }

  lemma UntouchedKeepsBbo(b: BookState, a: OptionAction)
    requires !TouchesLevels(b.depth, a)
    ensures BboOf(OrderStep(b, a).depth) == BboOf(b.depth)
  {
  }

  lemma OrderStepCoherent(solver: Solver, c: ChainState, b: BookState, a: OptionAction, time: Option<uint64>)
    requires CoherentBook(solver, c, b, time)
    ensures CoherentBook(solver, c, OrderStep(b, a), time) && OrderStep(b, a).contract == b.contract
  {
    hide DepthStep, BboOf;
    if !OrderStep(b, a).pricingDirty {
      UntouchedKeepsBbo(b, a);
    }
  }

  /** The time of a book's last pricing when it is priced now, if both quotes are there. */
  function PricedTime(b: BookState, now: uint64, time: Option<uint64>): Option<uint64> {
    if MidPrice(BboOf(b.depth)).Some? then Some(now) else time
  }

  lemma PricingCoherent(solver: Solver, c: ChainState, b: BookState, now: uint64, time: Option<uint64>)
    requires CoherentBook(solver, c, b, time) && c.lastSpotPrice.Some?
    ensures var b' := ComputePricing(solver, b, c.lastSpotPrice.value, now, c.riskFreeRate).0;
      CoherentBook(solver, c, b', PricedTime(b, now, time)) && b'.contract == b.contract && b'.depth == b.depth
  {
    hide BboOf;
  }

  /** Putting a coherent book into a chain, when the times of the other books stand. */
  lemma PutBookCoherent(solver: Solver, c: ChainState, rate: real, key: OptionContractKey, b: BookState,
                        times: Times, times': Times)
    requires CoherentChain(solver, c, rate, times) && key.underlying == c.underlying
    requires b.contract.key == key && CoherentBook(solver, c, b, times'(key))
    requires forall k :: k != key && k.underlying == key.underlying ==> times'(k) == times(k)
    ensures CoherentChain(solver, c.(contracts := c.contracts[key := b]), rate, times')
  {
    hide CachedAt;
  }

  lemma SpotCoherent(solver: Solver, c: ChainState, rate: real, spot: real, timestamp: uint64, times: Times)
    requires CoherentChain(solver, c, rate, times)
    ensures CoherentChain(solver, UpdateSpot(c, spot, timestamp), rate, times)
  {
  }

  /** Repricing the dirty books keeps the chain coherent: each dirty book with both quotes is
      priced now, and no other. */
  lemma UpdateAllCoherent(solver: Solver, c: ChainState, rate: real, now: uint64, times: Times, times': Times)
    requires CoherentChain(solver, c, rate, times)
    requires c.lastSpotPrice.Some? ==> forall k :: k in c.contracts ==>
      times'(k) == if c.contracts[k].pricingDirty then PricedTime(c.contracts[k], now, times(k)) else times(k)
    requires c.lastSpotPrice.None? ==> forall k :: k in c.contracts ==> times'(k) == times(k)
    ensures CoherentChain(solver, UpdateAllPricing(solver, c, now), rate, times')
  {
    hide CachedAt, ComputePricing, PricedTime;
    if c.lastSpotPrice.Some? {
      var c' := UpdateAllPricing(solver, c, now);
      forall k | k in c'.contracts
        ensures NamedBook(c', k) && CoherentBook(solver, c', c'.contracts[k], times'(k))
      {
        PricingCoherent(solver, c, c.contracts[k], now, times(k));
        assert NamedBook(c, k) && CoherentBook(solver, c, c'.contracts[k], times'(k));
      }
    }
  }

  /** Contracts of other underlyings keep their times, so the other chains stay coherent. */
  lemma PutChainCoherent(solver: Solver, m: ManagerState, u: uint64, c: ChainState, times: Times, times': Times)
    requires Coherent(solver, m, times) && c.underlying == u && CoherentChain(solver, c, m.riskFreeRate, times')
    requires forall k: OptionContractKey :: k.underlying != u ==> times'(k) == times(k)
    ensures Coherent(solver, PutChain(m, u, c), times')
  {
    hide CoherentBook;
    forall v | v in m.chains && v != u ensures CoherentChain(solver, m.chains[v], m.riskFreeRate, times') {
      forall k | k in m.chains[v].contracts
        ensures NamedBook(m.chains[v], k) && CoherentBook(solver, m.chains[v], m.chains[v].contracts[k], times'(k))
      {
        assert NamedBook(m.chains[v], k);
      }
    }
  }

  lemma ChainOrCoherent(solver: Solver, m: ManagerState, u: uint64, times: Times)
    requires Coherent(solver, m, times)
    ensures ChainOr(m, u).underlying == u && CoherentChain(solver, ChainOr(m, u), m.riskFreeRate, times)
  {
    hide CoherentBook;
  }

  lemma OrderTimes(m: ManagerState, key: OptionContractKey, a: OptionAction, now: uint64, times: Times)
    ensures var times' := TimesAfter(m, OptionOrder(key, a, now), times);
      && (forall k :: k != key ==> times'(k) == times(k))
      && times'(key) == if OrderPrices(m, key, a) then Some(now) else times(key)
  {
    hide OrderPrices;
    var op := OptionOrder(key, a, now);
    assert TimesAfter(m, op, times)(key) == TimeAfter(m, op, key, times(key));
  }

  lemma OrderedCoherent(solver: Solver, m: ManagerState, key: OptionContractKey, a: OptionAction, now: uint64,
                        times: Times, times': Times)
    requires var c := ChainOr(m, key.underlying);
      c.underlying == key.underlying && CoherentChain(solver, c, m.riskFreeRate, times)
    requires forall k :: k != key ==> times'(k) == times(k)
    requires times'(key) == if OrderPrices(m, key, a) then Some(now) else times(key)
    ensures var c' := ApplyOrder(solver, m, key, a, now).0.chains[key.underlying];
      c'.underlying == key.underlying && CoherentChain(solver, c', m.riskFreeRate, times')
  {
    hide CoherentBook, OrderStep, ComputePricing, BboOf;
    var c := ChainOr(m, key.underlying);
    if key in c.contracts {
      assert NamedBook(c, key) && CoherentBook(solver, c, c.contracts[key], times(key));
      var b := OrderStep(c.contracts[key], a);
      OrderStepCoherent(solver, c, c.contracts[key], a, times(key));
      if c.lastSpotPrice.Some? {
        PricingCoherent(solver, c, b, now, times(key));
        b := ComputePricing(solver, b, c.lastSpotPrice.value, now, m.riskFreeRate).0;
      }
      PutBookCoherent(solver, c, m.riskFreeRate, key, b, times, times');
    }
  }

  /** An option order keeps every cache coherent, priced or not. */
  lemma ApplyOrderCoherent(solver: Solver, m: ManagerState, key: OptionContractKey, a: OptionAction, now: uint64,
                           times: Times)
    requires Coherent(solver, m, times)
    ensures Coherent(solver, ApplyOrder(solver, m, key, a, now).0, TimesAfter(m, OptionOrder(key, a, now), times))
  {
    hide Coherent, CoherentChain, CoherentBook, OrderStep, ComputePricing, TimesAfter, BboOf;
    var c := ChainOr(m, key.underlying);
    var times' := TimesAfter(m, OptionOrder(key, a, now), times);
    OrderTimes(m, key, a, now, times);
    ChainOrCoherent(solver, m, key.underlying, times);
    OrderedCoherent(solver, m, key, a, now, times, times');
    PutChainCoherent(solver, m, key.underlying,
                     ApplyOrder(solver, m, key, a, now).0.chains[key.underlying], times, times');
  }

  lemma DatesCoherent(solver: Solver, c: ChainState, rate: real, times: Times, dates: seq<uint32>)
    requires CoherentChain(solver, c, rate, times)
    ensures CoherentChain(solver, c.(expiryDates := dates), rate, times)
  {
  }

  lemma RegisterTimes(m: ManagerState, contract: OptionContract, times: Times)
    ensures var times' := TimesAfter(m, RegisterContract(contract), times);
      (forall k :: k != contract.key ==> times'(k) == times(k)) && times'(contract.key) == None
  {
    var op := RegisterContract(contract);
    assert TimesAfter(m, op, times)(contract.key) == TimeAfter(m, op, contract.key, times(contract.key));
  }

  lemma NewBookCoherent(solver: Solver, c: ChainState, contract: OptionContract)
    ensures CoherentBook(solver, c, NewOptionBook(contract), None)
  {
  }

  lemma RegisterCoherent(solver: Solver, m: ManagerState, contract: OptionContract, times: Times)
    requires Coherent(solver, m, times)
    ensures Coherent(solver, ManagerStep(solver, m, RegisterContract(contract)),
                     TimesAfter(m, RegisterContract(contract), times))
  {
    hide Coherent, CoherentChain, CoherentBook, TimesAfter;
    var c := ChainOr(m, contract.key.underlying);
    var times' := TimesAfter(m, RegisterContract(contract), times);
    RegisterTimes(m, contract, times);
    NewBookCoherent(solver, c, contract);
    ChainOrCoherent(solver, m, contract.key.underlying, times);
    PutBookCoherent(solver, c, m.riskFreeRate, contract.key, NewOptionBook(contract), times, times');
    DatesCoherent(solver, c.(contracts := c.contracts[contract.key := NewOptionBook(contract)]), m.riskFreeRate,
                  times', Register(c, contract).expiryDates);
    PutChainCoherent(solver, m, contract.key.underlying, Register(c, contract), times, times');
  }

  lemma SpotStepCoherent(solver: Solver, m: ManagerState, u: uint64, spot: real, timestamp: uint64, times: Times)
    requires Coherent(solver, m, times)
    ensures Coherent(solver, ManagerStep(solver, m, SpotPrice(u, spot, timestamp)), times)
  {
    hide CoherentChain;
    if u in m.chains {
      SpotCoherent(solver, m.chains[u], m.riskFreeRate, spot, timestamp, times);
      PutChainCoherent(solver, m, u, UpdateSpot(m.chains[u], spot, timestamp), times, times);
    }
  }

  lemma RefreshedCoherent(solver: Solver, m: ManagerState, u: uint64, quote: Bbo, now: uint64,
                          times: Times, times': Times)
    requires Coherent(solver, m, times) && u in m.chains
    requires forall k: OptionContractKey ::
      times'(k) == if k.underlying == u && AggregatePrices(m, k) then Some(now) else times(k)
    ensures CoherentChain(solver, Refreshed(solver, m.chains[u], quote, now), m.riskFreeRate, times')
  {
    hide CoherentBook, BboOf, UpdateAllPricing;
    var c := m.chains[u];
    var c1 := UpdateSpot(c, SpotOf(quote), c.lastSpotTimestamp);
    SpotCoherent(solver, c, m.riskFreeRate, SpotOf(quote), c.lastSpotTimestamp, times);
    forall k | k in c1.contracts ensures times'(k) == PricedTime(c1.contracts[k], now, times(k)) {
      assert NamedBook(c, k);
    }
    UpdateAllCoherent(solver, c1, m.riskFreeRate, now, times, times');
  }

  lemma ChainNames(solver: Solver, c: ChainState, quote: Bbo, now: uint64)
    ensures Refreshed(solver, c, quote, now).underlying == c.underlying
  {
  }

  lemma SameTimes(solver: Solver, m: ManagerState, times: Times, times': Times)
    requires Coherent(solver, m, times) && forall k :: times'(k) == times(k)
    ensures Coherent(solver, m, times')
  {
    hide CoherentBook;
  }

  lemma AggregateCoherent(solver: Solver, m: ManagerState, u: uint64, quote: Bbo, now: uint64, times: Times)
    requires Coherent(solver, m, times)
    ensures Coherent(solver, ManagerStep(solver, m, Aggregate(u, quote, now)),
                     TimesAfter(m, Aggregate(u, quote, now), times))
  {
    hide CoherentChain, UpdateSpot, UpdateAllPricing;
    var times' := TimesAfter(m, Aggregate(u, quote, now), times);
    if u in m.chains {
      RefreshedCoherent(solver, m, u, quote, now, times, times');
      ChainNames(solver, m.chains[u], quote, now);
      PutChainCoherent(solver, m, u, Refreshed(solver, m.chains[u], quote, now), times, times');
    } else {
      SameTimes(solver, m, times, times');
    }
  }

  /** Every operation of the manager keeps every cache coherent with the time its book was last
      priced, as that operation changes it. */
  lemma ManagerStepCoherent(solver: Solver, m: ManagerState, op: ManagerOp, times: Times)
    requires Coherent(solver, m, times)
    ensures Coherent(solver, ManagerStep(solver, m, op), TimesAfter(m, op, times))
  {
    hide Coherent, ApplyOrder, OrderPrices, AggregatePrices, Refreshed, UpdateSpot, Register;
    match op
    case RegisterContract(contract) => RegisterCoherent(solver, m, contract, times);
    case SpotPrice(u, spot, timestamp) =>
      SpotStepCoherent(solver, m, u, spot, timestamp, times);
      SameTimes(solver, ManagerStep(solver, m, op), times, TimesAfter(m, op, times));
    case OptionOrder(key, action, now) => ApplyOrderCoherent(solver, m, key, action, now, times);
    case Aggregate(u, quote, now) => AggregateCoherent(solver, m, u, quote, now, times);
  }

  /** From any coherent state, any operations lead to a coherent one. */
  lemma {:induction false} FromIsCoherent(solver: Solver, m: ManagerState, ops: seq<ManagerOp>, times: Times)
    requires Coherent(solver, m, times)
    ensures Coherent(solver, ManagerFrom(solver, m, ops), TimesFrom(solver, m, ops, times))
    decreases |ops|
  {
    hide Coherent, ManagerStep, TimeAfter;
    if ops == [] {
      SameTimes(solver, m, times, TimesFrom(solver, m, ops, times));
    } else {
      var init, op := ops[..|ops| - 1], ops[|ops| - 1];
      FromIsCoherent(solver, m, init, times);
      ManagerStepCoherent(solver, ManagerFrom(solver, m, init), op, TimesFrom(solver, m, init, times));
      var stepped := TimesAfter(ManagerFrom(solver, m, init), op, TimesFrom(solver, m, init, times));
      forall k ensures stepped(k) == TimesFrom(solver, m, ops, times)(k) {
        assert stepped(k) == TimeAfter(ManagerFrom(solver, m, init), op, k, TimeFrom(solver, m, init, k, times(k)));
      }
      SameTimes(solver, ManagerFrom(solver, m, ops), stepped, TimesFrom(solver, m, ops, times));
    }
  }

  lemma NoChains(solver: Solver, rate: real, times: Times)
    ensures Coherent(solver, ManagerState(map[], rate), times)
  {
  }

  /** After any run of manager operations every cache is coherent with the time its book was
      last priced in that run. */
  lemma RunIsCoherent(solver: Solver, rate: real, ops: seq<ManagerOp>)
    ensures Coherent(solver, ManagerRun(solver, rate, ops),
                     (k: OptionContractKey) => LastPriced(solver, rate, ops, k))
  {
    hide Coherent, TimeFrom, ManagerFrom;
    var m := ManagerState(map[], rate);
    var never: Times := (k: OptionContractKey) => None;
    NoChains(solver, rate, never);
    FromIsCoherent(solver, m, ops, never);
    SameTimes(solver, ManagerRun(solver, rate, ops), TimesFrom(solver, m, ops, never),
              (k: OptionContractKey) => LastPriced(solver, rate, ops, k));
  }

  lemma StepKeepsRate(solver: Solver, m: ManagerState, op: ManagerOp)
    ensures ManagerStep(solver, m, op).riskFreeRate == m.riskFreeRate
  {
  }

  lemma {:induction false} SameRate(solver: Solver, rate: real, ops: seq<ManagerOp>)
    ensures ManagerRun(solver, rate, ops).riskFreeRate == rate
    decreases |ops|
  {
    if ops != [] {
      SameRate(solver, rate, ops[..|ops| - 1]);
      StepKeepsRate(solver, ManagerRun(solver, rate, ops[..|ops| - 1]), ops[|ops| - 1]);
    }
  }

  /** So a clean book's cached result is the solver's for its present quotes and the chain's
      present spot and rate, at the time the run last priced it. */
  lemma CleanIsCurrent(solver: Solver, rate: real, ops: seq<ManagerOp>, k: OptionContractKey)
    requires var m := ManagerRun(solver, rate, ops);
      k.underlying in m.chains && k in m.chains[k.underlying].contracts
      && !m.chains[k.underlying].contracts[k].pricingDirty
    ensures var c := ManagerRun(solver, rate, ops).chains[k.underlying]; var b := c.contracts[k];
      && LastPriced(solver, rate, ops, k).Some? && MidPrice(BboOf(b.depth)).Some? && c.lastSpotPrice.Some?
      && b.contract.key == k
      && b.lastPricing
         == (var q, expiry := BboOf(b.depth), DateToUnixSecs(k.expiryDate);
             var now := LastPriced(solver, rate, ops, k).value;
             solver((q.bidPrice as real + q.askPrice as real) / 2.0 / 10000.0, c.lastSpotPrice.value,
                    k.strikePrice as real / 10000.0, rate,
                    if expiry > now then (expiry - now) as real / 31557600.0 else 0.0, k.optionType))
  {
    hide ManagerRun, LastPriced, BboOf, SolveFor, MidPrice, DateToUnixSecs;
    RunIsCoherent(solver, rate, ops);
    SameRate(solver, rate, ops);
    var c := ManagerRun(solver, rate, ops).chains[k.underlying];
    var b := c.contracts[k];
    assert NamedBook(c, k) && CoherentBook(solver, c, b, LastPriced(solver, rate, ops, k));
    SolverArguments(solver, b.contract, BboOf(b.depth), c.lastSpotPrice.value, rate,
                    LastPriced(solver, rate, ops, k).value);
  }

  /** After any run every chain carries the manager's rate and its own name. */
  lemma ChainOfRun(solver: Solver, rate: real, ops: seq<ManagerOp>, u: uint64)
    requires u in ManagerRun(solver, rate, ops).chains
    ensures ManagerRun(solver, rate, ops).chains[u].riskFreeRate == rate
    ensures ManagerRun(solver, rate, ops).chains[u].underlying == u
  {
    hide ManagerRun, LastPriced, CoherentBook;
    RunIsCoherent(solver, rate, ops);
    SameRate(solver, rate, ops);
  }

  // ---------------------------------------------------------------- which orders are priced

  /** Does the solver have an answer for this order's contract once the order is applied? */
  predicate AnswersOrder(solver: Solver, m: ManagerState, key: OptionContractKey, a: OptionAction, now: uint64)
    requires OrderPrices(m, key, a)
  {
    var c := ChainOr(m, key.underlying);
    var b := OrderStep(c.contracts[key], a);
    SolveFor(solver, b.contract, MidPrice(BboOf(b.depth)).value, c.lastSpotPrice.value, m.riskFreeRate, now).Some?
  }

  /** The contract is registered, its chain knows a spot, both quotes are there after the order,
      and the solver has an answer. */
  predicate IsPriced(solver: Solver, m: ManagerState, key: OptionContractKey, a: OptionAction, now: uint64) {
    OrderPrices(m, key, a) && AnswersOrder(solver, m, key, a, now)
  }

  /** These are exactly the orders that yield a result. No order by itself moves a spot. */
  lemma PricedExactly(solver: Solver, m: ManagerState, key: OptionContractKey, a: OptionAction, now: uint64)
    ensures ApplyOrder(solver, m, key, a, now).1.Some? <==> IsPriced(solver, m, key, a, now)
    ensures key.underlying in ApplyOrder(solver, m, key, a, now).0.chains
    ensures ApplyOrder(solver, m, key, a, now).0.chains[key.underlying].lastSpotPrice
         == ChainOr(m, key.underlying).lastSpotPrice
  {
    hide BboOf, SolveFor, OrderStep;
  }

  /** In a coherent state an order has a result exactly when its contract is registered, its chain
      knows a spot, both quotes are there after it, and the solver answers; the result is that
      answer, with what it was asked for. */
  lemma PricedResult(solver: Solver, m: ManagerState, key: OptionContractKey, a: OptionAction, now: uint64,
                     times: Times)
    requires Coherent(solver, m, times)
    ensures var c, out := ChainOr(m, key.underlying), ApplyOrder(solver, m, key, a, now).1;
      if key in c.contracts && c.lastSpotPrice.Some? then
        var q, expiry := BboOf(OrderStep(c.contracts[key], a).depth), DateToUnixSecs(key.expiryDate);
        var mid, spot := (q.bidPrice as real + q.askPrice as real) / 2.0 / 10000.0, c.lastSpotPrice.value;
        var answer := solver(mid, spot, key.strikePrice as real / 10000.0, m.riskFreeRate,
                             if expiry > now then (expiry - now) as real / 31557600.0 else 0.0, key.optionType);
        out == if q.bidPrice > 0 && q.askPrice > 0 && answer.Some? then
                 Some(GreeksSnapshot(key, answer.value, spot, mid))
               else None
      else out == None
  {
    hide BboOf, DepthStep, SolveFor, DateToUnixSecs, CoherentBook;
    ChainOrCoherent(solver, m, key.underlying, times);
    var c := ChainOr(m, key.underlying);
    if key in c.contracts && c.lastSpotPrice.Some? {
      assert NamedBook(c, key);
      var b := OrderStep(c.contracts[key], a);
      SolverArguments(solver, b.contract, BboOf(b.depth), c.lastSpotPrice.value, m.riskFreeRate, now);
    }
  }

  // ---------------------------------------------------------------- when nothing is registered

  ghost predicate NoContracts(m: ManagerState) {
    forall u :: u in m.chains ==> m.chains[u].contracts == map[]
  }

  /** Only registering brings in a contract, and without one no order is priced. */
  lemma StepWithoutContracts(solver: Solver, m: ManagerState, op: ManagerOp)
    requires NoContracts(m) && !op.RegisterContract?
    ensures NoContracts(ManagerStep(solver, m, op))
  {
  }

  lemma {:induction false} RunWithoutContracts(solver: Solver, m: ManagerState, ops: seq<ManagerOp>)
    requires NoContracts(m) && forall i :: 0 <= i < |ops| ==> !ops[i].RegisterContract?
    ensures NoContracts(ManagerFrom(solver, m, ops))
    decreases |ops|
  {
    hide NoContracts, ManagerStep;
    if ops != [] {
      RunWithoutContracts(solver, m, ops[..|ops| - 1]);
      StepWithoutContracts(solver, ManagerFrom(solver, m, ops[..|ops| - 1]), ops[|ops| - 1]);
    }
  }

  predicate IsRegistered(m: ManagerState, k: OptionContractKey) {
    k in ChainOr(m, k.underlying).contracts
  }

  predicate Registers(op: ManagerOp, k: OptionContractKey) {
    op.RegisterContract? && op.contract.key == k
  }

  lemma StepRegisters(solver: Solver, m: ManagerState, op: ManagerOp, k: OptionContractKey)
    ensures IsRegistered(ManagerStep(solver, m, op), k) <==> IsRegistered(m, k) || Registers(op, k)
  {
    hide OrderStep, ComputePricing;
  }

  /** A contract is there after a run exactly when the run registered it. */
  lemma {:induction false} RegisteredExactly(solver: Solver, rate: real, ops: seq<ManagerOp>, k: OptionContractKey)
    ensures IsRegistered(ManagerRun(solver, rate, ops), k) <==> exists i :: 0 <= i < |ops| && Registers(ops[i], k)
    decreases |ops|
  {
    if ops == [] {
    } else {
      hide IsRegistered, Registers, ManagerStep;
      var j := |ops| - 1;
      RegisteredExactly(solver, rate, ops[..j], k);
      StepRegisters(solver, ManagerRun(solver, rate, ops[..j]), ops[j], k);
      if i :| 0 <= i < j && Registers(ops[..j][i], k) { assert Registers(ops[i], k); }
      if i :| 0 <= i < |ops| && Registers(ops[i], k) { assert i == j || Registers(ops[..j][i], k); }
    }
  }

  /** Registering a contract, again or for the first time, starts it with an empty book that has
      no result, and leaves every other contract as it was. */
  lemma RegisteredIsNew(solver: Solver, m: ManagerState, contract: OptionContract, k: OptionContractKey)
    ensures var m' := ManagerStep(solver, m, RegisterContract(contract));
      && IsRegistered(m', contract.key)
      && (var b := ChainOr(m', contract.key.underlying).contracts[contract.key];
          && b.contract == contract && b.depth.orders == map[] && BboOf(b.depth) == Bbo(0, 0, 0, 0)
          && b.lastPricing == None && b.pricingDirty)
      && (k != contract.key && IsRegistered(m, k) ==>
            && IsRegistered(m', k)
            && ChainOr(m', k.underlying).contracts[k] == ChainOr(m, k.underlying).contracts[k])
  {
  }

  lemma OrderWithoutContracts(solver: Solver, m: ManagerState, key: OptionContractKey, a: OptionAction, now: uint64)
    requires NoContracts(m)
    ensures ApplyOrder(solver, m, key, a, now).1 == None
  {
  }

  lemma ListedIsThere(c: ChainState, keys: seq<OptionContractKey>, entries: seq<Entry>, i: nat)
    requires Lists(EntriesOf(c), keys, entries) && i < |entries|
    ensures i < |keys| && keys[i] in c.contracts
  {
    assert keys[i] in EntriesOf(c);
  }

  lemma SnapshotWithoutContracts(c: ChainState, quote: Bbo, out: Option<ChainSnapshot>, aborted: bool,
                                 keys: seq<OptionContractKey>)
    requires SnapshotOutcome(c, quote, out, aborted, keys) && c.contracts == map[]
    ensures out == None && !aborted
  {
    assert Contributors(c) == {};
    if out.Some? {
      ListedIsThere(c, keys, out.value.contracts, 0);
    }
  }

  // ---------------------------------------------------------------- the list of expiry dates

  /** Inserting a new date into a sorted list keeps it sorted and adds just that date. */
  lemma {:induction false} InsertedMeaning(dates: seq<uint32>, date: uint32)
    requires Increasing(dates) && date !in dates
    ensures Increasing(Inserted(dates, date))
    ensures forall x :: x in Inserted(dates, date) <==> x in dates || x == date
    decreases |dates|
  {
    if dates == [] || date < dates[0] {
    } else {
      InsertedMeaning(dates[1..], date);
      var rest := Inserted(dates[1..], date);
      assert forall x :: x in dates <==> x == dates[0] || x in dates[1..];
      assert forall j :: 0 <= j < |rest| ==> rest[j] in rest;
    }
  }

  ghost predicate HasExpiry(c: ChainState, date: uint32) {
    exists k :: k in c.contracts && k.expiryDate == date
  }

  /** The list of expiry dates is sorted and holds exactly those of the chain's contracts. */
  ghost predicate ExpiriesListed(c: ChainState) {
    Increasing(c.expiryDates) && forall date :: date in c.expiryDates <==> HasExpiry(c, date)
  }

  lemma RegisterListsExpiry(c: ChainState, contract: OptionContract)
    requires ExpiriesListed(c)
    ensures ExpiriesListed(Register(c, contract))
  {
    var c' := Register(c, contract);
    if contract.key.expiryDate !in c.expiryDates {
      InsertedMeaning(c.expiryDates, contract.key.expiryDate);
    }
    forall date ensures HasExpiry(c', date) <==> HasExpiry(c, date) || date == contract.key.expiryDate {
      assert contract.key in c'.contracts;
      if HasExpiry(c, date) {
        var k :| k in c.contracts && k.expiryDate == date;
        assert k in c'.contracts;
      }
    }
  }

  lemma SameKeysSameExpiries(c: ChainState, c': ChainState)
    requires ExpiriesListed(c) && c'.expiryDates == c.expiryDates && c'.contracts.Keys == c.contracts.Keys
    ensures ExpiriesListed(c')
  {
    forall date ensures HasExpiry(c', date) <==> HasExpiry(c, date) {
      assert forall k :: k in c'.contracts <==> k in c.contracts;
    }
  }

  ghost predicate AllExpiriesListed(m: ManagerState) {
    forall u :: u in m.chains ==> ExpiriesListed(m.chains[u])
  }

  lemma NewChainListsExpiries(u: uint64, rate: real)
    ensures ExpiriesListed(NewChain(u, rate))
  {
  }

  lemma SameContracts(solver: Solver, c: ChainState, spot: Bbo, now: uint64)
    ensures Refreshed(solver, c, spot, now).contracts.Keys == c.contracts.Keys
  {
  }

  lemma StepListsExpiries(solver: Solver, m: ManagerState, op: ManagerOp)
    requires AllExpiriesListed(m)
    ensures AllExpiriesListed(ManagerStep(solver, m, op))
  {
    hide ExpiriesListed, OrderStep, ComputePricing;
    assert forall u :: ExpiriesListed(NewChain(u, m.riskFreeRate)) by {
      forall u ensures ExpiriesListed(NewChain(u, m.riskFreeRate)) { NewChainListsExpiries(u, m.riskFreeRate); }
    }
    match op
    case RegisterContract(contract) => RegisterListsExpiry(ChainOr(m, contract.key.underlying), contract);
    case SpotPrice(u, spot, timestamp) =>
      if u in m.chains { SameKeysSameExpiries(m.chains[u], UpdateSpot(m.chains[u], spot, timestamp)); }
    case OptionOrder(key, action, now) =>
      var c := ChainOr(m, key.underlying);
      if key in c.contracts {
        SameKeysSameExpiries(c, OrderedChain(solver, c, key, action, now, m.riskFreeRate).0);
      }
    case Aggregate(u, quote, now) =>
      if u in m.chains {
        SameContracts(solver, m.chains[u], quote, now);
        SameKeysSameExpiries(m.chains[u], Refreshed(solver, m.chains[u], quote, now));
      }
  }

  lemma NoExpiries(rate: real)
    ensures AllExpiriesListed(ManagerState(map[], rate))
  {
  }

  /** After any run every chain's list of expiry dates is sorted, without repeats, and holds
      exactly the dates of its registered contracts. */
  lemma {:induction false} RunListsExpiries(solver: Solver, rate: real, ops: seq<ManagerOp>)
    ensures AllExpiriesListed(ManagerRun(solver, rate, ops))
    decreases |ops|
  {
    hide AllExpiriesListed, ManagerStep;
    if ops == [] {
      assert AllExpiriesListed(ManagerState(map[], rate)) by { NoExpiries(rate); }
    } else {
      RunListsExpiries(solver, rate, ops[..|ops| - 1]);
      StepListsExpiries(solver, ManagerRun(solver, rate, ops[..|ops| - 1]), ops[|ops| - 1]);
    }
  }

  // ---------------------------------------------------------------- what a snapshot carries

  /** Refreshing prices every two-sided book at this spot and time, and leaves the result of
      a one-sided book as it was. */
  function RefreshedResult(solver: Solver, b: BookState, spot: Bbo, rate: real, now: uint64): Option<Pricing> {
    match MidPrice(BboOf(b.depth))
    case None => b.lastPricing
    case Some(mid) => SolveFor(solver, b.contract, mid, SpotOf(spot), rate, now)
  }

  ghost predicate IsRefreshed(solver: Solver, b: BookState, b': BookState, spot: Bbo, rate: real, now: uint64) {
    && b'.depth == b.depth && b'.contract == b.contract
    && b'.lastPricing == RefreshedResult(solver, b, spot, rate, now)
  }

  lemma RefreshedBook(solver: Solver, c: ChainState, spot: Bbo, now: uint64, k: OptionContractKey)
    requires k in c.contracts
    ensures k in Refreshed(solver, c, spot, now).contracts
    ensures IsRefreshed(solver, c.contracts[k], Refreshed(solver, c, spot, now).contracts[k], spot, c.riskFreeRate, now)
  {
  }

  /** A published contract carries its book's own quotes and its result of exactly that call. */
  ghost predicate FreshEntry(solver: Solver, b: BookState, entry: Entry, spot: Bbo, rate: real, now: uint64) {
    && entry.contract == b.contract && entry.bbo == BboOf(b.depth)
    && RefreshedResult(solver, b, spot, rate, now) == Some(entry.pricing)
  }

  /** A quote is there on some side, and after the call a result. */
  predicate IsPublished(solver: Solver, b: BookState, spot: Bbo, rate: real, now: uint64) {
    var q := BboOf(b.depth);
    (q.bidPrice > 0 || q.askPrice > 0) && RefreshedResult(solver, b, spot, rate, now).Some?
  }

  lemma EntryIsFresh(solver: Solver, b: BookState, b': BookState, spot: Bbo, rate: real, now: uint64)
    requires IsRefreshed(solver, b, b', spot, rate, now)
    ensures EntryOf(b').Some? <==> IsPublished(solver, b, spot, rate, now)
    ensures EntryOf(b').Some? ==> FreshEntry(solver, b, EntryOf(b').value, spot, rate, now)
  {
    hide BboOf, RefreshedResult;
  }

  lemma ListedExactly(c: ChainState, spot: Bbo, out: Option<ChainSnapshot>, keys: seq<OptionContractKey>,
                      k: OptionContractKey)
    requires IsSnapshot(c, spot, out, keys) && k in c.contracts
    ensures out.Some? && k in keys <==> EntryOf(c.contracts[k]).Some?
  {
    hide EntryOf;
    if out.Some? && k in keys {
      var i :| 0 <= i < |keys| && keys[i] == k;
      assert EntriesOf(c)[keys[i]] == Some(out.value.contracts[i]);
    }
    assert EntriesOf(c)[k] == EntryOf(c.contracts[k]);
  }

  lemma ListedEntries(c: ChainState, spot: Bbo, out: Option<ChainSnapshot>, keys: seq<OptionContractKey>)
    requires IsSnapshot(c, spot, out, keys) && out.Some?
    ensures |keys| == |out.value.contracts| && forall i :: 0 <= i < |keys| ==>
      keys[i] in c.contracts && EntryOf(c.contracts[keys[i]]) == Some(out.value.contracts[i])
  {
    hide EntryOf;
    forall i | 0 <= i < |keys|
      ensures keys[i] in c.contracts && EntryOf(c.contracts[keys[i]]) == Some(out.value.contracts[i])
    {
      assert keys[i] in EntriesOf(c);
    }
  }

  /** The entries of a snapshot are fresh, and a contract is listed exactly if it is published. */
  lemma EntriesAreFresh(solver: Solver, c: ChainState, spot: Bbo, now: uint64, out: Option<ChainSnapshot>,
                        keys: seq<OptionContractKey>)
    requires IsSnapshot(Refreshed(solver, c, spot, now), spot, out, keys)
    ensures out.Some? ==> |keys| == |out.value.contracts| && forall i :: 0 <= i < |keys| ==>
      && keys[i] in c.contracts
      && FreshEntry(solver, c.contracts[keys[i]], out.value.contracts[i], spot, c.riskFreeRate, now)
    ensures forall k :: k in c.contracts ==>
      (out.Some? && k in keys <==> IsPublished(solver, c.contracts[k], spot, c.riskFreeRate, now))
  {
    hide BboOf, RefreshedResult, Refreshed, IsSnapshot, EntryOf, FreshEntry, IsPublished;
    SameContracts(solver, c, spot, now);
    var c' := Refreshed(solver, c, spot, now);
    forall k | k in c.contracts
      ensures out.Some? && k in keys <==> EntryOf(c'.contracts[k]).Some?
      ensures EntryOf(c'.contracts[k]).Some? <==> IsPublished(solver, c.contracts[k], spot, c.riskFreeRate, now)
      ensures EntryOf(c'.contracts[k]).Some? ==>
        FreshEntry(solver, c.contracts[k], EntryOf(c'.contracts[k]).value, spot, c.riskFreeRate, now)
    {
      RefreshedBook(solver, c, spot, now, k);
      EntryIsFresh(solver, c.contracts[k], c'.contracts[k], spot, c.riskFreeRate, now);
      ListedExactly(c', spot, out, keys, k);
    }
    if out.Some? { ListedEntries(c', spot, out, keys); }
  }

  lemma ResultWritten(solver: Solver, b: BookState, spot: Bbo, rate: real, now: uint64)
    ensures RefreshedResult(solver, b, spot, rate, now)
         == (var q, expiry := BboOf(b.depth), DateToUnixSecs(b.contract.key.expiryDate);
             if q.bidPrice > 0 && q.askPrice > 0 then
               solver((q.bidPrice as real + q.askPrice as real) / 2.0 / 10000.0,
                      (spot.bidPrice as real + spot.askPrice as real) / 2.0 / 10000.0,
                      b.contract.key.strikePrice as real / 10000.0, rate,
                      if expiry > now then (expiry - now) as real / 31557600.0 else 0.0, b.contract.key.optionType)
             else b.lastPricing)
  {
    hide BboOf, SolveFor, DateToUnixSecs;
    SolverArguments(solver, b.contract, BboOf(b.depth), SpotOf(spot), rate, now);
  }

  /** In any aggregate snapshot each entry is of one of the chain's contracts, with its book's
      quotes. With both quotes its result is the solver's for exactly that call, with one it is
      the result the book had. A contract is there exactly if it has such a result and a quote. */
  lemma SnapshotIsFresh(solver: Solver, c: ChainState, spot: Bbo, now: uint64, out: Option<ChainSnapshot>,
                        keys: seq<OptionContractKey>, k: OptionContractKey)
    requires IsSnapshot(Refreshed(solver, c, spot, now), spot, out, keys) && k in c.contracts
    ensures var b := c.contracts[k];
      var q, expiry := BboOf(b.depth), DateToUnixSecs(b.contract.key.expiryDate);
      var result :=
        if q.bidPrice > 0 && q.askPrice > 0 then
          solver((q.bidPrice as real + q.askPrice as real) / 2.0 / 10000.0,
                 (spot.bidPrice as real + spot.askPrice as real) / 2.0 / 10000.0,
                 b.contract.key.strikePrice as real / 10000.0, c.riskFreeRate,
                 if expiry > now then (expiry - now) as real / 31557600.0 else 0.0, b.contract.key.optionType)
        else b.lastPricing;
      && (out.Some? && k in keys <==> (q.bidPrice > 0 || q.askPrice > 0) && result.Some?)
      && (out.Some? ==> |keys| == |out.value.contracts| && forall i :: 0 <= i < |keys| && keys[i] == k ==>
            out.value.contracts[i].contract == b.contract && out.value.contracts[i].bbo == q
            && result == Some(out.value.contracts[i].pricing))
    ensures out.Some? ==> forall i :: 0 <= i < |keys| ==> keys[i] in c.contracts
  {
    hide BboOf, RefreshedResult, Refreshed, IsSnapshot, DateToUnixSecs;
    EntriesAreFresh(solver, c, spot, now, out, keys);
    ResultWritten(solver, c.contracts[k], spot, c.riskFreeRate, now);
  }
}
