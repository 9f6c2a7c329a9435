/** The writer's turns as values: what one event does to the books, to the option chains and to
    the queues of the broadcast server. */
module WriterSteps {
  import opened Words
  import opened Events
  import opened Books
  import opened Gateways
  import opened OptionTypes
  import opened Options
  import opened Bytes
  import opened Wire
  import opened WireLayouts
  import opened Publication

  /** A computed number as its eight bytes; which bytes is left open. */
  type ToBits = real -> Bits

  /** A spot price as a whole number of ticks; how its fraction is cut off is left open. */
  type Cut = real -> uint64

  /** What the model leaves open. */
  datatype Setting = Setting(solver: Solver, bits: ToBits, cut: Cut)

  /** What the single writer owns or writes to. */
  datatype Turn = Turn(gateway: Gateway, manager: ManagerState, server: ServerState)

  /** What one event led to: a published update, a snapshot, or an abort while listing one.
      The keys tell the contracts of the snapshot in order. */
  datatype Mark = Mark(out: Option<BboUpdate>, snapshot: Option<ChainSnapshot>, aborted: bool,
                       keys: seq<OptionContractKey>)

  datatype Input =
    | Market(e: ItchEvent)
    | OptionEvent(key: OptionContractKey, action: OptionAction)

  /** The clock as it is read for one input: for pricing an order, and for a snapshot. */
  datatype Reading = Reading(pricing: uint64, snapshot: uint64)

  // ---------------------------------------------------------------- snapshots on the wire

  function PricingBits(p: Pricing, bits: ToBits): BsmResult<Bits> {
    BsmResult(bits(p.price), bits(p.delta), bits(p.gamma), bits(p.vega), bits(p.theta), bits(p.rho),
              bits(p.impliedVolatility))
  }

  function ContractBits(entry: Entry, bits: ToBits): ContractSnapshot {
    OptionContractSnapshot(entry.contract, entry.bbo, PricingBits(entry.pricing, bits))
  }

  function SnapshotBits(a: ChainSnapshot, bits: ToBits): (s: Snapshot)
    ensures |s.contracts| == |a.contracts|
  {
    var contracts := seq(|a.contracts|, i requires 0 <= i < |a.contracts| => ContractBits(a.contracts[i], bits));
    AggregatedOptionSnapshot(a.underlying, a.spot, a.spotTimestamp, contracts)
  }

  /** What the 121 bytes sent for a snapshot's entry hold, each computed number in its place. */
  lemma EntryOnWire(a: ChainSnapshot, bits: ToBits, i: nat)
    requires i < |a.contracts|
    ensures var entry, s := a.contracts[i], ContractBytes(SnapshotBits(a, bits).contracts[i]);
      && FromBytes(Little, s[0..4]) == entry.contract.key.expiryDate
      && FromBytes(Little, s[4..12]) == entry.contract.key.strikePrice
      && s[12] == (if entry.contract.key.optionType == Call then 0 else 1)
      && FromBytes(Little, s[13..21]) == entry.bbo.bidPrice && FromBytes(Little, s[21..29]) == entry.bbo.bidVolume
      && FromBytes(Little, s[29..37]) == entry.bbo.askPrice && FromBytes(Little, s[37..45]) == entry.bbo.askVolume
      && FromBytes(Little, s[45..53]) == bits(entry.pricing.impliedVolatility)
      && FromBytes(Little, s[53..61]) == bits(entry.pricing.delta)
      && FromBytes(Little, s[61..69]) == bits(entry.pricing.gamma)
      && FromBytes(Little, s[69..77]) == bits(entry.pricing.vega)
      && FromBytes(Little, s[77..85]) == bits(entry.pricing.theta)
      && FromBytes(Little, s[85..93]) == bits(entry.pricing.rho)
      && FromBytes(Little, s[93..101]) == bits(entry.pricing.price)
  {
    hide ContractBytes, FromBytes;
    ContractLayout(ContractBits(a.contracts[i], bits));
  }

  function OfferedSnapshot(s: ServerState, snapshot: Option<ChainSnapshot>, bits: ToBits): ServerState {
    match snapshot
    case None => s
    case Some(a) => OptionEnqueued(s, SnapshotBits(a, bits))
  }

  function OfferedUpdate(s: ServerState, out: Option<BboUpdate>): ServerState {
    match out
    case None => s
    case Some(u) => Enqueued(s, u)
  }

  /** The server after an update and a snapshot, if there are any, were offered to it. */
  function Served(s: ServerState, out: Option<BboUpdate>, snapshot: Option<ChainSnapshot>, bits: ToBits): ServerState {
    OfferedSnapshot(OfferedUpdate(s, out), snapshot, bits)
  }

  // ---------------------------------------------------------------- market data

  /** What a published update asks of the option chains: nothing without both quotes, otherwise
      a new spot price and a snapshot. */
  function UpdateOps(out: Option<BboUpdate>, now: uint64): seq<ManagerOp> {
    if out.None? || MidPrice(out.value.bbo).None? then []
    else
      var u := out.value;
      [SpotPrice(u.stock, MidPrice(u.bbo).value, u.timestamp), Aggregate(u.stock, u.bbo, now)]
  }

  /** The snapshot a quote leads to, in the manager's state after it was priced. */
  ghost predicate SnapshotMade(m: ManagerState, u: uint64, quote: Bbo, mark: Mark) {
    if u in m.chains then SnapshotOutcome(m.chains[u], quote, mark.snapshot, mark.aborted, mark.keys)
    else mark.snapshot == None && !mark.aborted
  }

  predicate NoSnapshot(mark: Mark) {
    mark.snapshot == None && !mark.aborted
  }

  /** The snapshot an update leads to: none without both quotes. */
  ghost predicate UpdateSnapshot(m: ManagerState, mark: Mark) {
    if mark.out.Some? && MidPrice(mark.out.value.bbo).Some?
    then SnapshotMade(m, mark.out.value.stock, mark.out.value.bbo, mark)
    else NoSnapshot(mark)
  }

  ghost predicate MarketStep(env: Setting, x: Turn, e: ItchEvent, now: uint64, mark: Mark, y: Turn) {
    && Next(x.gateway, e, y.gateway, mark.out)
    && y.manager == ManagerFrom(env.solver, x.manager, UpdateOps(mark.out, now))
    && UpdateSnapshot(y.manager, mark)
    && y.server == Served(x.server, mark.out, mark.snapshot, env.bits)
  }

  // ---------------------------------------------------------------- option orders

  function LastSpot(m: ManagerState, u: uint64): real {
    if u in m.chains && m.chains[u].lastSpotPrice.Some? then m.chains[u].lastSpotPrice.value else 0.0
  }

  /** The quote an option order has its chain snapshotted at: the chain's spot in ticks. */
  function TickQuote(cut: Cut, spot: real): Bbo {
    Bbo(cut(spot), 0, cut(spot), 0)
  }

  /** An option order that could be priced has its chain snapshotted. */
  function OrderOps(env: Setting, m: ManagerState, key: OptionContractKey, a: OptionAction, at: Reading)
    : seq<ManagerOp>
  {
    match ApplyOrder(env.solver, m, key, a, at.pricing)
    case (_, None) => [OptionOrder(key, a, at.pricing)]
    case (m1, Some(g)) =>
      [OptionOrder(key, a, at.pricing),
       Aggregate(g.key.underlying, TickQuote(env.cut, LastSpot(m1, g.key.underlying)), at.snapshot)]
  }

  ghost predicate OrderSnapshot(env: Setting, m: ManagerState, key: OptionContractKey, a: OptionAction, at: Reading,
                                m': ManagerState, mark: Mark) {
    match ApplyOrder(env.solver, m, key, a, at.pricing)
    case (_, None) => NoSnapshot(mark)
    case (m1, Some(g)) =>
      SnapshotMade(m', g.key.underlying, TickQuote(env.cut, LastSpot(m1, g.key.underlying)), mark)
  }

  ghost predicate OptionStep(env: Setting, x: Turn, key: OptionContractKey, a: OptionAction, at: Reading, mark: Mark,
                             y: Turn) {
    && y.gateway == x.gateway && mark.out == None
    && y.manager == ManagerFrom(env.solver, x.manager, OrderOps(env, x.manager, key, a, at))
    && OrderSnapshot(env, x.manager, key, a, at, y.manager, mark)
    && y.server == Served(x.server, None, mark.snapshot, env.bits)
  }

  // ---------------------------------------------------------------- runs of the writer

  ghost predicate WriterStep(env: Setting, x: Turn, input: Input, at: Reading, mark: Mark, y: Turn) {
    match input
    case Market(e) => MarketStep(env, x, e, at.snapshot, mark, y)
    case OptionEvent(key, action) => OptionStep(env, x, key, action, at, mark, y)
  }

  /** turns are the writer's states on the inputs, marks what each input led to. */
  ghost predicate IsWriterRun(env: Setting, turns: seq<Turn>, inputs: seq<Input>, times: seq<Reading>,
                              marks: seq<Mark>) {
    && |turns| == |inputs| + 1 && |marks| == |times| == |inputs|
    && forall i :: 0 <= i < |inputs| ==> WriterStep(env, turns[i], inputs[i], times[i], marks[i], turns[i + 1])
  }

  lemma WriterRunExtends(env: Setting, turns: seq<Turn>, inputs: seq<Input>, times: seq<Reading>, marks: seq<Mark>,
                         input: Input, at: Reading, mark: Mark, y: Turn)
    requires IsWriterRun(env, turns, inputs, times, marks)
    requires WriterStep(env, turns[|inputs|], input, at, mark, y)
    ensures IsWriterRun(env, turns + [y], inputs + [input], times + [at], marks + [mark])
  {
    hide WriterStep;
  }

  /** The clock readings of the first n inputs. */
  ghost function Readings(clock: nat -> Reading, n: nat): (times: seq<Reading>)
    ensures |times| == n
  {
    seq(n, i requires 0 <= i < n => clock(i))
  }

  /** Only the last input of a batch can have aborted. */
  ghost predicate AbortsLast(marks: seq<Mark>, aborted: bool) {
    && (forall i :: 0 <= i < |marks| - 1 ==> !marks[i].aborted)
    && (aborted <==> marks != [] && marks[|marks| - 1].aborted)
  }

  lemma NothingRun(env: Setting, x: Turn, clock: nat -> Reading)
    ensures IsWriterRun(env, [x], [], Readings(clock, 0), []) && AbortsLast([], false)
  {
  }

  lemma RunMore(env: Setting, clock: nat -> Reading, turns: seq<Turn>, inputs: seq<Input>, marks: seq<Mark>,
                input: Input, mark: Mark, y: Turn)
    requires IsWriterRun(env, turns, inputs, Readings(clock, |inputs|), marks) && AbortsLast(marks, false)
    requires WriterStep(env, turns[|inputs|], input, clock(|inputs|), mark, y)
    ensures IsWriterRun(env, turns + [y], inputs + [input], Readings(clock, |inputs| + 1), marks + [mark])
    ensures AbortsLast(marks + [mark], mark.aborted)
  {
    hide WriterStep;
    assert Readings(clock, |inputs| + 1) == Readings(clock, |inputs|) + [clock(|inputs|)];
    WriterRunExtends(env, turns, inputs, Readings(clock, |inputs|), marks, input, clock(|inputs|), mark, y);
  }

  lemma WriterRunInit(env: Setting, turns: seq<Turn>, inputs: seq<Input>, times: seq<Reading>, marks: seq<Mark>)
    requires IsWriterRun(env, turns, inputs, times, marks) && inputs != []
    ensures var k := |inputs| - 1;
      && |turns| == k + 2 && |marks| == |times| == k + 1
      && IsWriterRun(env, turns[..k + 1], inputs[..k], times[..k], marks[..k])
      && WriterStep(env, turns[k], inputs[k], times[k], marks[k], turns[k + 1])
  {
    hide WriterStep;
  }

  /** What one input asks of the option chains. */
  function InputOps(env: Setting, m: ManagerState, input: Input, at: Reading, mark: Mark): seq<ManagerOp> {
    match input
    case Market(_) => UpdateOps(mark.out, at.snapshot)
    case OptionEvent(key, action) => OrderOps(env, m, key, action, at)
  }

  ghost function RunOps(env: Setting, turns: seq<Turn>, inputs: seq<Input>, times: seq<Reading>, marks: seq<Mark>)
    : seq<ManagerOp>
    requires |turns| == |inputs| + 1 && |marks| == |times| == |inputs|
    decreases |inputs|
  {
    if inputs == [] then []
    else
      var k := |inputs| - 1;
      RunOps(env, turns[..k + 1], inputs[..k], times[..k], marks[..k])
      + InputOps(env, turns[k].manager, inputs[k], times[k], marks[k])
  }

  lemma StepIsOps(env: Setting, x: Turn, input: Input, at: Reading, mark: Mark, y: Turn)
    requires WriterStep(env, x, input, at, mark, y)
    ensures y.manager == ManagerFrom(env.solver, x.manager, InputOps(env, x.manager, input, at, mark))
  {
    hide Next, ManagerFrom, UpdateSnapshot, OrderSnapshot, Served, OrderOps, UpdateOps;
  }

  lemma {:induction false} RunIsOps(env: Setting, turns: seq<Turn>, inputs: seq<Input>, times: seq<Reading>,
                                    marks: seq<Mark>)
    requires IsWriterRun(env, turns, inputs, times, marks)
    ensures turns[|inputs|].manager
         == ManagerFrom(env.solver, turns[0].manager, RunOps(env, turns, inputs, times, marks))
    decreases |inputs|
  {
    hide IsWriterRun, WriterStep, InputOps;
    if inputs == [] {
    } else {
      var k := |inputs| - 1;
      WriterRunInit(env, turns, inputs, times, marks);
      RunIsOps(env, turns[..k + 1], inputs[..k], times[..k], marks[..k]);
      StepIsOps(env, turns[k], inputs[k], times[k], marks[k], turns[k + 1]);
      FromConcat(env.solver, turns[0].manager, RunOps(env, turns[..k + 1], inputs[..k], times[..k], marks[..k]),
                 InputOps(env, turns[k].manager, inputs[k], times[k], marks[k]));
    }
  }

  /** On every run of the writer each cache stays coherent with the time its book was last
      priced, by an option order or by a snapshot. */
  lemma RunKeepsCoherent(env: Setting, turns: seq<Turn>, inputs: seq<Input>, readings: seq<Reading>,
                         marks: seq<Mark>, times: Times)
    requires IsWriterRun(env, turns, inputs, readings, marks) && Coherent(env.solver, turns[0].manager, times)
    ensures Coherent(env.solver, turns[|inputs|].manager,
                     TimesFrom(env.solver, turns[0].manager, RunOps(env, turns, inputs, readings, marks), times))
  {
    hide Coherent, ManagerFrom, RunOps, TimesFrom, WriterStep;
    RunIsOps(env, turns, inputs, readings, marks);
    FromIsCoherent(env.solver, turns[0].manager, RunOps(env, turns, inputs, readings, marks), times);
  }

  // ---------------------------------------------------------------- what the snapshots carry
  // These results are about a manager whose caller registers contracts, which the gateway's own
  // writer does not; see the last section.

  /** Every entry is fresh, and exactly the contracts with a quote and a result are there. */
  ghost predicate FreshSnapshot(solver: Solver, c: ChainState, quote: Bbo, now: uint64, mark: Mark) {
    && (mark.snapshot.Some? ==>
          && |mark.keys| == |mark.snapshot.value.contracts|
          && forall i :: 0 <= i < |mark.keys| ==>
               && mark.keys[i] in c.contracts
               && FreshEntry(solver, c.contracts[mark.keys[i]], mark.snapshot.value.contracts[i], quote, c.riskFreeRate,
                             now))
    && (!mark.aborted ==> forall k :: k in c.contracts ==>
          (mark.snapshot.Some? && k in mark.keys <==> IsPublished(solver, c.contracts[k], quote, c.riskFreeRate, now)))
  }

  lemma RefreshedNames(solver: Solver, c: ChainState, quote: Bbo, now: uint64)
    ensures Refreshed(solver, c, quote, now).underlying == c.underlying
    ensures Refreshed(solver, c, quote, now).lastSpotTimestamp == c.lastSpotTimestamp
  {
  }

  lemma MadeIsFresh(solver: Solver, m: ManagerState, u: uint64, quote: Bbo, now: uint64, mark: Mark)
    requires u in m.chains && SnapshotMade(ManagerStep(solver, m, Aggregate(u, quote, now)), u, quote, mark)
    ensures FreshSnapshot(solver, m.chains[u], quote, now, mark)
    ensures mark.snapshot.Some? ==>
      && mark.snapshot.value.underlying == m.chains[u].underlying && mark.snapshot.value.spot == quote
      && mark.snapshot.value.spotTimestamp == m.chains[u].lastSpotTimestamp
      && 0 < |mark.snapshot.value.contracts| <= MAX_CONTRACTS_PER_CHAIN
  {
    hide FreshEntry, IsPublished, Lists, EntryOf;
    var c := m.chains[u];
    if !mark.aborted {
      EntriesAreFresh(solver, c, quote, now, mark.snapshot, mark.keys);
    }
    RefreshedNames(solver, c, quote, now);
  }

  /** The chain's state when a market event has its snapshot taken. */
  ghost function Respotted(c: ChainState, u: BboUpdate): ChainState
    requires MidPrice(u.bbo).Some?
  {
    UpdateSpot(c, MidPrice(u.bbo).value, u.timestamp)
  }

  lemma RefreshedSpot(solver: Solver, c: ChainState, quote: Bbo, now: uint64)
    ensures Refreshed(solver, c, quote, now).lastSpotPrice == Some(SpotOf(quote))
  {
  }

  lemma TwoOps(solver: Solver, m: ManagerState, first: ManagerOp, second: ManagerOp)
    ensures ManagerFrom(solver, m, [first, second]) == ManagerStep(solver, ManagerStep(solver, m, first), second)
  {
    hide ManagerStep;
    assert [first, second][..1] == [first] && [first][..0] == [];
    assert ManagerFrom(solver, m, [first]) == ManagerStep(solver, ManagerFrom(solver, m, []), first);
  }

  /** A published update with both quotes has the chain of its stock, if there is one, priced
      and snapshotted at its mid price, with its timestamp. */
  lemma UpdateIsSnapshotted(env: Setting, x: Turn, e: ItchEvent, now: uint64, mark: Mark, y: Turn)
    requires MarketStep(env, x, e, now, mark, y)
    requires mark.out.Some? && MidPrice(mark.out.value.bbo).Some? && mark.out.value.stock in x.manager.chains
    ensures var u := mark.out.value; var c := x.manager.chains[u.stock];
      && FreshSnapshot(env.solver, Respotted(c, u), u.bbo, now, mark)
      && u.stock in y.manager.chains && y.manager.chains[u.stock].lastSpotPrice == MidPrice(u.bbo)
      && (mark.snapshot.Some? ==>
            mark.snapshot.value.spot == u.bbo && mark.snapshot.value.spotTimestamp == u.timestamp)
  {
    hide Next, MidPrice, UpdateAllPricing, FreshSnapshot, SnapshotMade, Served;
    var u := mark.out.value;
    TwoOps(env.solver, x.manager, SpotPrice(u.stock, MidPrice(u.bbo).value, u.timestamp),
           Aggregate(u.stock, u.bbo, now));
    var m1 := ManagerStep(env.solver, x.manager, SpotPrice(u.stock, MidPrice(u.bbo).value, u.timestamp));
    assert m1.chains[u.stock] == Respotted(x.manager.chains[u.stock], u);
    MadeIsFresh(env.solver, m1, u.stock, u.bbo, now, mark);
    SpotIsMid(u.bbo);
    RefreshedSpot(env.solver, m1.chains[u.stock], u.bbo, now);
  }

  /** In a coherent state a priced order is that of its own contract, and its chain is there. */
  lemma PricedOrder(solver: Solver, m: ManagerState, key: OptionContractKey, a: OptionAction, now: uint64, times: Times)
    requires Coherent(solver, m, times)
    ensures key.underlying in ApplyOrder(solver, m, key, a, now).0.chains
    ensures var greeks := ApplyOrder(solver, m, key, a, now).1; greeks.Some? ==> greeks.value.key == key
  {
    hide CoherentBook, DepthStep, BboOf, SolveFor;
    ChainOrCoherent(solver, m, key.underlying, times);
    var c := ChainOr(m, key.underlying);
    assert key in c.contracts ==> NamedBook(c, key);
  }

  /** On any run, an option order that is priced has its chain priced and snapshotted at the spot
      in ticks, which becomes the chain's spot whatever it was before. */
  lemma OrderIsSnapshotted(env: Setting, x: Turn, key: OptionContractKey, a: OptionAction, at: Reading, mark: Mark,
                           y: Turn, times: Times)
    requires OptionStep(env, x, key, a, at, mark, y) && Coherent(env.solver, x.manager, times)
    ensures var (m1, greeks) := ApplyOrder(env.solver, x.manager, key, a, at.pricing);
      var u, quote := key.underlying, TickQuote(env.cut, LastSpot(m1, key.underlying));
      greeks.Some? ==>
        && greeks.value.key == key && u in m1.chains && u in y.manager.chains
        && FreshSnapshot(env.solver, m1.chains[u], quote, at.snapshot, mark)
        && y.manager.chains[u].lastSpotPrice == Some(env.cut(LastSpot(m1, u)) as real / 10000.0)
        && (mark.snapshot.Some? ==> mark.snapshot.value.spot == quote)
  {
    hide Coherent, ApplyOrder, UpdateAllPricing, UpdateSpot, FreshSnapshot, SnapshotMade, Served;
    PricedOrder(env.solver, x.manager, key, a, at.pricing, times);
    var (m1, greeks) := ApplyOrder(env.solver, x.manager, key, a, at.pricing);
    if greeks.Some? {
      var u := key.underlying;
      var quote := TickQuote(env.cut, LastSpot(m1, u));
      TwoOps(env.solver, x.manager, OptionOrder(key, a, at.pricing), Aggregate(u, quote, at.snapshot));
      MadeIsFresh(env.solver, m1, u, quote, at.snapshot, mark);
      RefreshedSpot(env.solver, m1.chains[u], quote, at.snapshot);
    }
  }

  /** Is the spot price a whole number of ticks, and kept by the cut? */
  predicate CutKeeps(cut: Cut, spot: real) {
    cut(spot) as real == spot * 10000.0
  }

  lemma OnlyOp(solver: Solver, m: ManagerState, op: ManagerOp)
    ensures ManagerFrom(solver, m, [op]) == ManagerStep(solver, m, op)
  {
    hide ManagerStep;
    assert [op][..0] == [];
  }

  /** In any state a run can reach, what an option order asks of the chains keeps the spot price
      of its chain exactly when the order is not priced or the cut to ticks keeps that price;
      otherwise the price becomes the one cut to ticks. */
  lemma OrderKeepsSpot(env: Setting, m: ManagerState, key: OptionContractKey, a: OptionAction, at: Reading,
                       times: Times)
    requires Coherent(env.solver, m, times)
    ensures var m' := ManagerFrom(env.solver, m, OrderOps(env, m, key, a, at));
      var spot := ChainOr(m, key.underlying).lastSpotPrice;
      && key.underlying in m'.chains
      && (m'.chains[key.underlying].lastSpotPrice == spot <==>
            !IsPriced(env.solver, m, key, a, at.pricing) || CutKeeps(env.cut, spot.value))
      && (IsPriced(env.solver, m, key, a, at.pricing) ==>
            m'.chains[key.underlying].lastSpotPrice == Some(env.cut(spot.value) as real / 10000.0))
  {
    hide Coherent, ApplyOrder, AnswersOrder, ChainOr, UpdateAllPricing, UpdateSpot;
    PricedExactly(env.solver, m, key, a, at.pricing);
    PricedOrder(env.solver, m, key, a, at.pricing, times);
    var (m1, greeks) := ApplyOrder(env.solver, m, key, a, at.pricing);
    if greeks.Some? {
      var quote := TickQuote(env.cut, LastSpot(m1, key.underlying));
      TwoOps(env.solver, m, OptionOrder(key, a, at.pricing), Aggregate(key.underlying, quote, at.snapshot));
      RefreshedSpot(env.solver, m1.chains[key.underlying], quote, at.snapshot);
    } else {
      OnlyOp(env.solver, m, OptionOrder(key, a, at.pricing));
    }
  }

  // ---------------------------------------------------------------- a writer without contracts

  lemma MadeWithoutContracts(m: ManagerState, u: uint64, quote: Bbo, mark: Mark)
    requires NoContracts(m) && SnapshotMade(m, u, quote, mark)
    ensures NoSnapshot(mark)
  {
    if u in m.chains {
      SnapshotWithoutContracts(m.chains[u], quote, mark.snapshot, mark.aborted, mark.keys);
    }
  }

  lemma NoneRegistered(env: Setting, m: ManagerState, input: Input, at: Reading, mark: Mark)
    ensures forall i :: 0 <= i < |InputOps(env, m, input, at, mark)| ==>
      !InputOps(env, m, input, at, mark)[i].RegisterContract?
  {
    hide ApplyOrder, MidPrice;
  }

  lemma InputWithoutContracts(env: Setting, x: Turn, input: Input, at: Reading, mark: Mark, y: Turn)
    requires WriterStep(env, x, input, at, mark, y) && NoContracts(x.manager)
    ensures NoContracts(y.manager) && NoSnapshot(mark)
  {
    hide Next, NoContracts, ManagerFrom, ApplyOrder, SnapshotMade, InputOps, NoSnapshot, Served;
    StepIsOps(env, x, input, at, mark, y);
    NoneRegistered(env, x.manager, input, at, mark);
    RunWithoutContracts(env.solver, x.manager, InputOps(env, x.manager, input, at, mark));
    match input
    case Market(_) =>
      if mark.out.Some? && MidPrice(mark.out.value.bbo).Some? {
        MadeWithoutContracts(y.manager, mark.out.value.stock, mark.out.value.bbo, mark);
      }
    case OptionEvent(key, action) => OrderWithoutContracts(env.solver, x.manager, key, action, at.pricing);
  }

  predicate NoSnapshots(marks: seq<Mark>) {
    forall i :: 0 <= i < |marks| ==> NoSnapshot(marks[i])
  }

  lemma NoSnapshotsMore(marks: seq<Mark>)
    requires marks != [] && NoSnapshots(marks[..|marks| - 1]) && NoSnapshot(marks[|marks| - 1])
    ensures NoSnapshots(marks)
  {
    var k := |marks| - 1;
    assert forall i :: 0 <= i < k ==> marks[..k][i] == marks[i];
  }

  /** The writer never registers a contract. Started with none, as the gateway starts it, it
      prices no order, takes no snapshot and never aborts. */
  lemma {:induction false} RunTakesNoSnapshot(env: Setting, turns: seq<Turn>, inputs: seq<Input>, times: seq<Reading>,
                                              marks: seq<Mark>)
    requires IsWriterRun(env, turns, inputs, times, marks) && NoContracts(turns[0].manager)
    ensures NoContracts(turns[|inputs|].manager) && NoSnapshots(marks)
    decreases |inputs|
  {
    if inputs != [] {
      hide IsWriterRun, WriterStep, NoContracts, NoSnapshot, NoSnapshots;
      var k := |inputs| - 1;
      WriterRunInit(env, turns, inputs, times, marks);
      RunTakesNoSnapshot(env, turns[..k + 1], inputs[..k], times[..k], marks[..k]);
      InputWithoutContracts(env, turns[k], inputs[k], times[k], marks[k], turns[k + 1]);
      NoSnapshotsMore(marks);
    }
  }
}
