/** Runs of the option manager that reach what the gateway's own writer never does, because it
    registers no contract: a priced order, a spot price that is cut, an expired contract that is
    still listed, and a chain that does not fit in a snapshot. The contracts are quoted at what
    they would pay at once, where the solver always has an answer. */
module OptionWitnesses {
  import opened Words
  import opened Events
  import opened Levels
  import opened Books
  import opened OptionTypes
  import opened Calendar
  import opened Options
  import opened Solvers
  import opened WriterSteps

  const UNDERLYING: uint64 := 7
  const EXPIRY: uint32 := 20300101
  const EXPIRY_SECONDS: nat := 1893456000

  /** A spot half a tick above 200 ticks. */
  const HALF_TICK_SPOT: real := 200.5 / 10000.0

  lemma ExpiryDay()
    ensures JulianDay(2030, 1, 1) == 2462503
  {
  }

  lemma ExpiryMoment()
    ensures DateToUnixSecs(EXPIRY) == EXPIRY_SECONDS
  {
    hide JulianDay;
    ExpiryDay();
    assert EXPIRY / 10000 == 2030 && (EXPIRY % 10000) / 100 == 1 && EXPIRY % 100 == 1;
  }

  function KeyAt(strike: nat): OptionContractKey
    requires strike < TWO_64
  {
    OptionContractKey(UNDERLYING, EXPIRY, strike, Call)
  }

  function ContractAt(strike: nat): OptionContract
    requires strike < TWO_64
  {
    OptionContract(KeyAt(strike), 1, 0)
  }

  function Buying(price: uint64): OptionAction {
    Add(1, Buy, price, 10)
  }

  function Selling(price: uint64): OptionAction {
    Add(2, Sell, price, 10)
  }

  lemma OneMoreOp(solver: Solver, m: ManagerState, ops: seq<ManagerOp>, op: ManagerOp)
    ensures ManagerFrom(solver, m, ops + [op]) == ManagerStep(solver, ManagerFrom(solver, m, ops), op)
  {
    hide ManagerStep;
    assert (ops + [op])[..|ops|] == ops;
  }

  /** The two orders give a new book both quotes. */
  lemma Quoted(b: BookState, bid: uint64, ask: uint64)
    requires b.depth == EMPTY_DEPTH && bid > 0 && ask > 0
    ensures MidPrice(BboOf(OrderStep(OrderStep(b, Buying(bid)), Selling(ask)).depth))
         == Some((bid as real + ask as real) / 2.0 / 10000.0)
    ensures MidPrice(BboOf(OrderStep(b, Buying(bid)).depth)) == None
  {
    var d := OrderStep(b, Buying(bid)).depth;
    assert d.bids == map[bid := PriceLevel(bid, 10, 1)] && d.asks == map[];
    var d' := OrderStep(OrderStep(b, Buying(bid)), Selling(ask)).depth;
    assert d'.bids == map[bid := PriceLevel(bid, 10, 1)] && d'.asks == map[ask := PriceLevel(ask, 10, 1)];
  }

  // ---------------------------------------------------------------- a priced order

  /** A call at 100 ticks is registered, its chain gets a spot of 200.5 ticks, and somebody bids
      100 ticks for it. */
  function QuoteOps(): seq<ManagerOp> {
    [RegisterContract(ContractAt(100)), SpotPrice(UNDERLYING, HALF_TICK_SPOT, 0),
     OptionOrder(KeyAt(100), Buying(100), 0)]
  }

  lemma ThreeOps(solver: Solver, m: ManagerState, a: ManagerOp, b: ManagerOp, c: ManagerOp)
    ensures ManagerFrom(solver, m, [a, b, c])
         == ManagerStep(solver, ManagerStep(solver, ManagerStep(solver, m, a), b), c)
  {
    hide ManagerStep;
    TwoOps(solver, m, a, b);
    OneMoreOp(solver, m, [a, b], c);
    assert [a, b] + [c] == [a, b, c];
  }

  lemma FirstQuote(solver: Solver, rate: real)
    ensures var m := ManagerRun(solver, rate, QuoteOps());
      && UNDERLYING in m.chains && m.riskFreeRate == rate
      && var c := m.chains[UNDERLYING];
         c.lastSpotPrice == Some(HALF_TICK_SPOT)
         && KeyAt(100) in c.contracts && c.contracts[KeyAt(100)].contract == ContractAt(100)
         && c.contracts[KeyAt(100)].depth == OrderStep(NewOptionBook(ContractAt(100)), Buying(100)).depth
  {
    hide BboOf, DepthStep, SolveFor;
    var m0 := ManagerState(map[], rate);
    ThreeOps(solver, m0, QuoteOps()[0], QuoteOps()[1], QuoteOps()[2]);
    var m1 := ManagerStep(solver, m0, QuoteOps()[0]);
    assert m1.chains[UNDERLYING].contracts[KeyAt(100)] == NewOptionBook(ContractAt(100));
    var m2 := ManagerStep(solver, m1, QuoteOps()[1]);
    assert m2.chains[UNDERLYING].contracts[KeyAt(100)].depth == EMPTY_DEPTH;
    Quoted(m2.chains[UNDERLYING].contracts[KeyAt(100)], 100, 101);
  }

  lemma SoldAtIntrinsic(solver: Solver, rate: real, now: uint64)
    requires IsSolver(solver) && now < EXPIRY_SECONDS
    ensures SolveFor(solver, ContractAt(100), 100.5 / 10000.0, HALF_TICK_SPOT, rate, now).Some?
  {
    hide IsSolver, DateToUnixSecs;
    ExpiryMoment();
    IntrinsicIsSolved(solver, ContractAt(100), 100.5 / 10000.0, HALF_TICK_SPOT, rate, now);
  }

  /** An offer at 101 ticks is then priced, at any time before the expiry. */
  lemma OrderCanBePriced(solver: Solver, rate: real, now: uint64)
    requires IsSolver(solver) && now < EXPIRY_SECONDS
    ensures IsPriced(solver, ManagerRun(solver, rate, QuoteOps()), KeyAt(100), Selling(101), now)
  {
    hide ManagerRun, SolveFor, BboOf, DepthStep, IsSolver, DateToUnixSecs;
    FirstQuote(solver, rate);
    Quoted(NewOptionBook(ContractAt(100)), 100, 101);
    SoldAtIntrinsic(solver, rate, now);
  }

  lemma HalfTick(n: uint64)
    ensures n as real != HALF_TICK_SPOT * 10000.0
  {
    assert HALF_TICK_SPOT * 10000.0 == 200.5;
    assert n <= 200 || n >= 201;
  }

  /** And it moves the chain's spot, however that is cut to ticks. */
  lemma SpotCanMove(env: Setting, rate: real, at: Reading)
    requires IsSolver(env.solver) && at.pricing < EXPIRY_SECONDS
    ensures var m := ManagerRun(env.solver, rate, QuoteOps());
      var m' := ManagerFrom(env.solver, m, OrderOps(env, m, KeyAt(100), Selling(101), at));
      && UNDERLYING in m.chains && m.chains[UNDERLYING].lastSpotPrice == Some(HALF_TICK_SPOT)
      && UNDERLYING in m'.chains && m'.chains[UNDERLYING].lastSpotPrice != Some(HALF_TICK_SPOT)
  {
    hide ManagerRun, ManagerFrom, OrderOps, IsPriced, Coherent, IsSolver, DateToUnixSecs;
    var m := ManagerRun(env.solver, rate, QuoteOps());
    FirstQuote(env.solver, rate);
    OrderCanBePriced(env.solver, rate, at.pricing);
    RunIsCoherent(env.solver, rate, QuoteOps());
    OrderKeepsSpot(env, m, KeyAt(100), Selling(101), at,
                   (k: OptionContractKey) => LastPriced(env.solver, rate, QuoteOps(), k));
    HalfTick(env.cut(HALF_TICK_SPOT));
  }

  // ---------------------------------------------------------------- an expired contract still listed

  /** What a priced order leaves of its contract. */
  lemma SoldBook(solver: Solver, rate: real, now: uint64)
    ensures var m := ManagerStep(solver, ManagerRun(solver, rate, QuoteOps()),
                                 OptionOrder(KeyAt(100), Selling(101), now));
      && UNDERLYING in m.chains && m.chains[UNDERLYING].lastSpotPrice == Some(HALF_TICK_SPOT)
      && KeyAt(100) in m.chains[UNDERLYING].contracts
      && var b := m.chains[UNDERLYING].contracts[KeyAt(100)];
         b.depth == OrderStep(OrderStep(NewOptionBook(ContractAt(100)), Buying(100)), Selling(101)).depth
         && b.contract == ContractAt(100)
         && b.lastPricing == SolveFor(solver, ContractAt(100), 100.5 / 10000.0, HALF_TICK_SPOT, rate, now)
  {
    hide ManagerRun, SolveFor, BboOf, DepthStep;
    FirstQuote(solver, rate);
    Quoted(NewOptionBook(ContractAt(100)), 100, 101);
  }

  lemma BidGone(b: BookState)
    requires b.depth == OrderStep(OrderStep(NewOptionBook(ContractAt(100)), Buying(100)), Selling(101)).depth
    ensures BboOf(OrderStep(b, Delete(1)).depth) == Bbo(0, 0, 101, 10)
  {
    var d := OrderStep(NewOptionBook(ContractAt(100)), Buying(100)).depth;
    assert d.bids == map[100 := PriceLevel(100, 10, 1)];
    var d' := OrderStep(b, Delete(1)).depth;
    assert d'.bids == map[] && d'.asks == map[101 := PriceLevel(101, 10, 1)];
  }

  /** The bid is then withdrawn, so nothing prices the contract any more. */
  lemma WithdrawnBook(solver: Solver, m: ManagerState, now: uint64)
    requires UNDERLYING in m.chains && KeyAt(100) in m.chains[UNDERLYING].contracts
    requires var b := m.chains[UNDERLYING].contracts[KeyAt(100)];
      b.contract == ContractAt(100)
      && b.depth == OrderStep(OrderStep(NewOptionBook(ContractAt(100)), Buying(100)), Selling(101)).depth
    ensures var m' := ManagerStep(solver, m, OptionOrder(KeyAt(100), Delete(1), now));
      && UNDERLYING in m'.chains && KeyAt(100) in m'.chains[UNDERLYING].contracts
      && var b := m'.chains[UNDERLYING].contracts[KeyAt(100)];
         b.lastPricing == m.chains[UNDERLYING].contracts[KeyAt(100)].lastPricing
         && BboOf(b.depth) == Bbo(0, 0, 101, 10)
  {
    hide BboOf, DepthStep, SolveFor;
    BidGone(m.chains[UNDERLYING].contracts[KeyAt(100)]);
  }

  /** The contract is priced, its bid withdrawn, and a snapshot taken whenever you like. */
  function StaleOps(now: uint64, quote: Bbo, later: uint64): seq<ManagerOp> {
    QuoteOps() + [OptionOrder(KeyAt(100), Selling(101), now)] + [OptionOrder(KeyAt(100), Delete(1), now)]
    + [Aggregate(UNDERLYING, quote, later)]
  }

  /** The snapshot lists the contract with the result it had before it expired. */
  lemma StaleIsListed(solver: Solver, rate: real, now: uint64, quote: Bbo, later: uint64)
    requires IsSolver(solver) && now < EXPIRY_SECONDS <= later
    ensures var m := ManagerRun(solver, rate, StaleOps(now, quote, later));
      && UNDERLYING in m.chains && KeyAt(100) in Contributors(m.chains[UNDERLYING])
      && m.chains[UNDERLYING].contracts[KeyAt(100)].lastPricing
         == SolveFor(solver, ContractAt(100), 100.5 / 10000.0, HALF_TICK_SPOT, rate, now)
  {
    hide ManagerFrom, IsSolver, SolveFor, BboOf, QuoteOps, OrderStep, Refreshed;
    var m0 := ManagerState(map[], rate);
    var sold, gone := OptionOrder(KeyAt(100), Selling(101), now), OptionOrder(KeyAt(100), Delete(1), now);
    OneMoreOp(solver, m0, QuoteOps(), sold);
    OneMoreOp(solver, m0, QuoteOps() + [sold], gone);
    OneMoreOp(solver, m0, QuoteOps() + [sold] + [gone], Aggregate(UNDERLYING, quote, later));
    SoldBook(solver, rate, now);
    SoldAtIntrinsic(solver, rate, now);
    var m2 := ManagerFrom(solver, m0, QuoteOps() + [sold]);
    WithdrawnBook(solver, m2, now);
    hide ApplyOrder;
    var m3 := ManagerFrom(solver, m0, QuoteOps() + [sold] + [gone]);
    RefreshedBook(solver, m3.chains[UNDERLYING], quote, later, KeyAt(100));
  }

  // ---------------------------------------------------------------- a chain too large to snapshot

  /** What the underlying is quoted at, in ticks: more than any strike listed. */
  const LEVEL: nat := 1000

  /** Registers a call and quotes it at what it would pay at that level. */
  function Listing(strike: nat): seq<ManagerOp>
    requires 0 < strike < LEVEL
  {
    [RegisterContract(ContractAt(strike)), OptionOrder(KeyAt(strike), Buying(LEVEL - strike), 0),
     OptionOrder(KeyAt(strike), Selling(LEVEL - strike), 0)]
  }

  /** The calls at 1, 2, ..., n ticks. */
  function Listings(n: nat): seq<ManagerOp>
    requires n < LEVEL
  {
    if n == 0 then [] else Listings(n - 1) + Listing(n)
  }

  ghost function KeysTo(n: nat): set<OptionContractKey>
    requires n < LEVEL
  {
    set i | 0 < i <= n :: KeyAt(i)
  }

  lemma {:induction false} SizeTo(n: nat)
    requires n < LEVEL
    ensures |KeysTo(n)| == n
  {
    if n > 0 {
      SizeTo(n - 1);
      assert KeysTo(n) == KeysTo(n - 1) + {KeyAt(n)};
      assert KeyAt(n) !in KeysTo(n - 1);
    }
  }

  /** The book of a listed contract is its own, quoted at what the contract would pay. */
  predicate AtPayoff(b: BookState, k: OptionContractKey) {
    && b.contract.key == k && k.expiryDate == EXPIRY && k.optionType == Call && 0 < k.strikePrice < LEVEL
    && MidPrice(BboOf(b.depth)) == Some((LEVEL - k.strikePrice) as real / 10000.0)
  }

  /** The chain of the listings so far: no spot yet, and every contract quoted. */
  ghost predicate Listed(c: ChainState, n: nat)
    requires n < LEVEL
  {
    && c.underlying == UNDERLYING && c.lastSpotPrice == None && c.contracts.Keys == KeysTo(n)
    && forall k :: k in c.contracts ==> AtPayoff(c.contracts[k], k)
  }

  /** The new contract's book after its listing. */
  function ListedBook(strike: nat): BookState
    requires 0 < strike < LEVEL
  {
    OrderStep(OrderStep(NewOptionBook(ContractAt(strike)), Buying(LEVEL - strike)), Selling(LEVEL - strike))
  }

  /** Without a spot an order only changes its own book. */
  lemma UnpricedOrder(solver: Solver, m: ManagerState, key: OptionContractKey, a: OptionAction)
    requires key.underlying in m.chains && key in m.chains[key.underlying].contracts
    requires m.chains[key.underlying].lastSpotPrice == None
    ensures var c, m' := m.chains[key.underlying], ManagerStep(solver, m, OptionOrder(key, a, 0));
      && key.underlying in m'.chains
      && m'.chains[key.underlying] == c.(contracts := c.contracts[key := OrderStep(c.contracts[key], a)])
  {
    hide OrderStep, ComputePricing;
  }

  lemma ListingAddsBook(solver: Solver, m: ManagerState, strike: nat)
    requires 0 < strike < LEVEL && ChainOr(m, UNDERLYING).lastSpotPrice == None
    ensures var c, m' := ChainOr(m, UNDERLYING), ManagerFrom(solver, m, Listing(strike));
      && UNDERLYING in m'.chains
      && m'.chains[UNDERLYING].underlying == c.underlying && m'.chains[UNDERLYING].lastSpotPrice == None
      && m'.chains[UNDERLYING].contracts == c.contracts[KeyAt(strike) := ListedBook(strike)]
  {
    var key, c, b, ops := KeyAt(strike), ChainOr(m, UNDERLYING), NewOptionBook(ContractAt(strike)), Listing(strike);
    var m1 := ManagerStep(solver, m, ops[0]);
    assert m1.chains[UNDERLYING] == Register(c, ContractAt(strike));
    assert Register(c, ContractAt(strike)).contracts[key] == b;
    ThreeOps(solver, m, ops[0], ops[1], ops[2]);
    hide OrderStep, ManagerStep, ManagerFrom, WithExpiry, NewOptionBook, ChainOr;
    UnpricedOrder(solver, m1, key, Buying(LEVEL - strike));
    UnpricedOrder(solver, ManagerStep(solver, m1, ops[1]), key, Selling(LEVEL - strike));
  }

  lemma ListedAtPayoff(strike: nat)
    requires 0 < strike < LEVEL
    ensures AtPayoff(ListedBook(strike), KeyAt(strike))
  {
    hide BboOf, DepthStep;
    Quoted(NewOptionBook(ContractAt(strike)), LEVEL - strike, LEVEL - strike);
  }

  lemma ListedMore(c: ChainState, c': ChainState, n: nat)
    requires n + 1 < LEVEL && Listed(c, n)
    requires c'.underlying == c.underlying && c'.lastSpotPrice == None
    requires c'.contracts == c.contracts[KeyAt(n + 1) := ListedBook(n + 1)]
    ensures Listed(c', n + 1)
  {
    hide AtPayoff, ListedBook;
    ListedAtPayoff(n + 1);
    assert KeysTo(n + 1) == KeysTo(n) + {KeyAt(n + 1)};
  }

  lemma NothingListedYet(rate: real)
    ensures Listed(ChainOr(ManagerState(map[], rate), UNDERLYING), 0)
  {
    assert KeysTo(0) == {};
  }

  lemma {:induction false} AllListed(solver: Solver, rate: real, n: nat)
    requires n < LEVEL
    ensures Listed(ChainOr(ManagerRun(solver, rate, Listings(n)), UNDERLYING), n)
    ensures n > 0 ==> UNDERLYING in ManagerRun(solver, rate, Listings(n)).chains
    decreases n
  {
    hide Listing, ListedBook, KeyAt, KeysTo, AtPayoff, ManagerStep;
    var m0 := ManagerState(map[], rate);
    if n == 0 {
      NothingListedYet(rate);
    } else {
      AllListed(solver, rate, n - 1);
      var m := ManagerFrom(solver, m0, Listings(n - 1));
      FromConcat(solver, m0, Listings(n - 1), Listing(n));
      ListingAddsBook(solver, m, n);
      hide ManagerFrom, Listed;
      ListedMore(ChainOr(m, UNDERLYING), ManagerFrom(solver, m, Listing(n)).chains[UNDERLYING], n - 1);
    }
  }

  /** The underlying quoted at its level. */
  const LEVEL_QUOTE: Bbo := Bbo(LEVEL, 1, LEVEL, 1)

  /** A contract quoted at its payoff contributes to a snapshot at that level. */
  lemma PayoffContributes(solver: Solver, c: ChainState, now: uint64, k: OptionContractKey)
    requires k in c.contracts && AtPayoff(c.contracts[k], k) && IsSolver(solver) && now < EXPIRY_SECONDS
    ensures k in Refreshed(solver, c, LEVEL_QUOTE, now).contracts
    ensures EntryOf(Refreshed(solver, c, LEVEL_QUOTE, now).contracts[k]).Some?
  {
    hide BboOf, Refreshed, IsSolver, DateToUnixSecs, SolveFor;
    RefreshedBook(solver, c, LEVEL_QUOTE, now, k);
    ExpiryMoment();
    var b := c.contracts[k];
    assert SpotOf(LEVEL_QUOTE) == LEVEL as real / 10000.0;
    IntrinsicIsSolved(solver, b.contract, MidPrice(BboOf(b.depth)).value, SpotOf(LEVEL_QUOTE), c.riskFreeRate, now);
  }

  lemma AllContribute(solver: Solver, c: ChainState, n: nat, now: uint64)
    requires n < LEVEL && Listed(c, n) && IsSolver(solver) && now < EXPIRY_SECONDS
    ensures |Contributors(Refreshed(solver, c, LEVEL_QUOTE, now))| == n
  {
    hide Refreshed, EntryOf, AtPayoff, KeysTo, IsSolver, DateToUnixSecs;
    var c' := Refreshed(solver, c, LEVEL_QUOTE, now);
    SameContracts(solver, c, LEVEL_QUOTE, now);
    forall k | k in c.contracts ensures EntryOf(c'.contracts[k]).Some? {
      PayoffContributes(solver, c, now, k);
    }
    assert Contributors(c') == c'.contracts.Keys == KeysTo(n);
    SizeTo(n);
  }

  /** With 129 calls listed, the chain's snapshot aborts, at any time before they expire. */
  lemma ChainCanOverflow(solver: Solver, rate: real, now: uint64, out: Option<ChainSnapshot>, aborted: bool,
                         keys: seq<OptionContractKey>)
    requires IsSolver(solver) && now < EXPIRY_SECONDS
    ensures var m := ManagerRun(solver, rate, Listings(129) + [Aggregate(UNDERLYING, LEVEL_QUOTE, now)]);
      && UNDERLYING in m.chains && |Contributors(m.chains[UNDERLYING])| == 129
      && (SnapshotOutcome(m.chains[UNDERLYING], LEVEL_QUOTE, out, aborted, keys) ==> aborted)
  {
    hide ManagerFrom, Listings, Listed, Refreshed, IsSnapshot, Contributors, IsSolver, DateToUnixSecs;
    AllListed(solver, rate, 129);
    var m := ManagerRun(solver, rate, Listings(129));
    OneMoreOp(solver, ManagerState(map[], rate), Listings(129), Aggregate(UNDERLYING, LEVEL_QUOTE, now));
    AllContribute(solver, m.chains[UNDERLYING], 129, now);
  }
}
