/** What the option chains may count on from the pricing solver: its domain, and the contracts
    it has no answer for because they have expired. */
module Solvers {
  import opened Words
  import opened Books
  import opened OptionTypes
  import opened Calendar
  import opened ImpliedVolatility
  import opened Options

  /** On every input the solver answers within what the code's own may. */
  ghost predicate IsSolver(solver: Solver) {
    forall market, spot, strike, rate, ttm, kind ::
      IsAnswer(market, spot, strike, ttm, kind, solver(market, spot, strike, rate, ttm, kind))
  }

  /** Some solver does. */
  lemma SolverExists() returns (solver: Solver)
    ensures IsSolver(solver)
  {
    solver := (market, spot, strike, rate, ttm, kind) =>
      if OutOfDomain(market, spot, strike, ttm, kind) then None
      else
        var vol := if AtIntrinsic(market, spot, strike, kind) then 0.0 else START_VOL;
        Some(BsmResult(0.0, 0.0, 0.0, 0.0, 0.0, 0.0, vol));
  }

  /** What it says of one contract. */
  lemma ContractAnswer(solver: Solver, contract: OptionContract, mid: real, spot: real, rate: real, now: uint64)
    requires IsSolver(solver)
    ensures var key := contract.key;
      IsAnswer(mid, spot, StrikeOf(contract), TimeToMaturity(key.expiryDate, now), key.optionType,
               SolveFor(solver, contract, mid, spot, rate, now))
  {
    hide IsAnswer;
  }

  lemma TimeLeft(date: uint32, now: uint64)
    ensures TimeToMaturity(date, now) > 0.0 <==> now < DateToUnixSecs(date)
  {
    hide DateToUnixSecs;
    var expiry := DateToUnixSecs(date);
    if now < expiry {
      var left := (expiry - now) as real;
      assert left > 0.0 && left / (365.25 * 86400.0) > 0.0;
    }
  }

  /** A call before its expiry, quoted at what it would pay now, always has an answer. */
  lemma IntrinsicIsSolved(solver: Solver, contract: OptionContract, mid: real, spot: real, rate: real, now: uint64)
    requires IsSolver(solver) && contract.key.optionType == Call && now < DateToUnixSecs(contract.key.expiryDate)
    requires StrikeOf(contract) > 0.0 && mid > 0.0 && mid == spot - StrikeOf(contract)
    ensures SolveFor(solver, contract, mid, spot, rate, now).Some?
  {
    ContractAnswer(solver, contract, mid, spot, rate, now);
    TimeLeft(contract.key.expiryDate, now);
  }

  // ---------------------------------------------------------------- expired contracts

  /** The contract expires on this day, which has been reached. */
  predicate HasExpired(contract: OptionContract, y: nat, m: nat, d: nat, now: uint64) {
    ValidDate(y, m, d) && DateCode(y, m, d) == contract.key.expiryDate && ReachedAt(y, m, d) <= now
  }

  lemma ExpiredIsNotSolved(solver: Solver, contract: OptionContract, mid: real, spot: real, rate: real, now: uint64,
                           y: nat, m: nat, d: nat)
    requires IsSolver(solver) && HasExpired(contract, y, m, d, now)
    ensures SolveFor(solver, contract, mid, spot, rate, now) == None
  {
    hide DateCode, ReachedAt, IsSolver;
    MaturityIsReached(y, m, d, now);
    ContractAnswer(solver, contract, mid, spot, rate, now);
  }

  /** From its expiry on no order on a contract is priced. */
  lemma ExpiredIsNotPriced(solver: Solver, manager: ManagerState, key: OptionContractKey, a: OptionAction, now: uint64,
                           times: Times, y: nat, m: nat, d: nat)
    requires IsSolver(solver) && Coherent(solver, manager, times)
    requires ValidDate(y, m, d) && DateCode(y, m, d) == key.expiryDate && ReachedAt(y, m, d) <= now
    ensures !IsPriced(solver, manager, key, a, now)
    ensures ApplyOrder(solver, manager, key, a, now).1 == None
  {
    hide IsSolver, Coherent, SolveFor, BboOf, DepthStep, DateCode, ReachedAt, ApplyOrder, CoherentBook;
    PricedExactly(solver, manager, key, a, now);
    if OrderPrices(manager, key, a) {
      ChainOrCoherent(solver, manager, key.underlying, times);
      var c := ChainOr(manager, key.underlying);
      var b := OrderStep(c.contracts[key], a);
      assert NamedBook(c, key);
      ExpiredIsNotSolved(solver, b.contract, MidPrice(BboOf(b.depth)).value, c.lastSpotPrice.value,
                         manager.riskFreeRate, now, y, m, d);
    }
  }

  /** A snapshot taken after its expiry lists a contract only if it is quoted on one side alone
      and was priced before: with both quotes it is not listed, and it is not priced anew. */
  lemma ExpiredIsListedStale(solver: Solver, c: ChainState, quote: Bbo, now: uint64, k: OptionContractKey,
                             y: nat, m: nat, d: nat)
    requires IsSolver(solver) && k in c.contracts && HasExpired(c.contracts[k].contract, y, m, d, now)
    ensures k in Contributors(Refreshed(solver, c, quote, now)) <==>
      EntryOf(c.contracts[k]).Some? && MidPrice(BboOf(c.contracts[k].depth)).None?
    ensures k in Contributors(Refreshed(solver, c, quote, now)) ==>
      EntryOf(Refreshed(solver, c, quote, now).contracts[k]) == EntryOf(c.contracts[k])
  {
    hide IsSolver, SolveFor, BboOf, HasExpired, Refreshed;
    RefreshedBook(solver, c, quote, now, k);
    var b := c.contracts[k];
    if MidPrice(BboOf(b.depth)).Some? {
      var mid := MidPrice(BboOf(b.depth)).value;
      ExpiredIsNotSolved(solver, b.contract, mid, SpotOf(quote), c.riskFreeRate, now, y, m, d);
    }
  }
}
