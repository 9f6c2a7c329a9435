/** The implied-volatility search over real numbers. The pricing formula and its vega are
    arbitrary functions of the volatility: only the search itself is modelled. */
module ImpliedVolatility {
  import opened Words
  import opened OptionTypes

  const MAX_IV_ITERATIONS: nat := 32
  const IV_EPSILON: real := 0.00000001
  const MIN_IV: real := 0.0001
  const MAX_IV: real := 10.0
  const MIN_VEGA: real := 0.000000000001
  const START_VOL: real := 0.3

  function Max(a: real, b: real): real {
    if a >= b then a else b
  }

  function Abs(x: real): real {
    if x >= 0.0 then x else -x
  }

  function Clamp(x: real): real {
    if x < MIN_IV then MIN_IV else if x > MAX_IV then MAX_IV else x
  }

  function Intrinsic(spot: real, strike: real, optType: OptionType): real {
    match optType
    case Call => Max(spot - strike, 0.0)
    case Put => Max(strike - spot, 0.0)
  }

  /** How far the model price at a volatility is from the market. */
  function Miss(price: real -> real, market: real, vol: real): real {
    Abs(price(vol) - market)
  }

  function NewtonStep(price: real -> real, vega: real -> real, market: real, vol: real): real
    requires vega(vol) >= MIN_VEGA
  {
    Clamp(vol - (price(vol) - market) / vega(vol))
  }

  /** visited is a path of the search: it starts at 0.3 and goes on by clamped Newton steps,
      never past a volatility that is good enough or whose vega vanishes. */
  ghost predicate IsPath(price: real -> real, vega: real -> real, market: real, visited: seq<real>) {
    && 1 <= |visited| <= MAX_IV_ITERATIONS
    && visited[0] == START_VOL
    && forall i :: 0 <= i < |visited| - 1 ==>
         && Miss(price, market, visited[i]) >= IV_EPSILON
         && vega(visited[i]) >= MIN_VEGA
         && visited[i + 1] == NewtonStep(price, vega, market, visited[i])
  }

  ghost predicate IsBest(price: real -> real, market: real, visited: seq<real>, vol: real) {
    vol in visited && forall v :: v in visited ==> Miss(price, market, vol) <= Miss(price, market, v)
  }

  /** The search is over: converged, out of iterations, or no slope left to follow. */
  ghost predicate IsFinished(price: real -> real, vega: real -> real, market: real, visited: seq<real>)
    requires visited != []
  {
    var last := visited[|visited| - 1];
    Miss(price, market, last) < IV_EPSILON || |visited| == MAX_IV_ITERATIONS || vega(last) < MIN_VEGA
  }

  function Tolerance(market: real): real {
    Max(IV_EPSILON, 0.01 * market)
  }

  predicate OutOfDomain(market: real, spot: real, strike: real, ttm: real, optType: OptionType) {
    || ttm <= 0.0 || spot <= 0.0 || strike <= 0.0 || market <= 0.0
    || market < Intrinsic(spot, strike, optType) - IV_EPSILON
  }

  predicate AtIntrinsic(market: real, spot: real, strike: real, optType: OptionType) {
    market <= Intrinsic(spot, strike, optType) + IV_EPSILON
  }

  /** A call pays what the spot is above the strike, a put what it is below, and neither less
      than nothing. A price is out of domain if it is below that, and at intrinsic value if it is
      not above it, each by more than 1e-8. */
  lemma DomainMeaning(market: real, spot: real, strike: real, ttm: real, optType: OptionType)
    ensures OutOfDomain(market, spot, strike, ttm, optType) <==>
      || ttm <= 0.0 || spot <= 0.0 || strike <= 0.0 || market <= 0.0
      || (optType == Call && market + 0.00000001 < spot - strike)
      || (optType == Put && market + 0.00000001 < strike - spot)
    ensures AtIntrinsic(market, spot, strike, optType) <==>
      || market <= 0.00000001
      || (optType == Call && market <= spot - strike + 0.00000001)
      || (optType == Put && market <= strike - spot + 0.00000001)
  {
  }

  lemma TangentGrows(v: real, x: real, y: real)
    requires v > 0.0
    ensures x <= y ==> v * x <= v * y
    ensures y <= x ==> v * y <= v * x
  {
  }

  /** A step of the search goes to where the tangent of the price meets the market, or as far
      towards it as the limits 1e-4 and 10 allow. */
  lemma NewtonMeetsMarket(price: real -> real, vega: real -> real, market: real, vol: real)
    requires vega(vol) >= MIN_VEGA
    ensures var next := NewtonStep(price, vega, market, vol);
      && 0.0001 <= next <= 10.0
      && (0.0001 < next < 10.0 ==> price(vol) + vega(vol) * (next - vol) == market)
      && (next == 0.0001 ==> price(vol) + vega(vol) * (next - vol) >= market)
      && (next == 10.0 ==> price(vol) + vega(vol) * (next - vol) <= market)
  {
    var v, gap := vega(vol), price(vol) - market;
    var exact := vol - gap / v;
    assert v * (exact - vol) == -gap;
    TangentGrows(v, exact - vol, NewtonStep(price, vega, market, vol) - vol);
  }

  /** What the search promises for prices with time value: it always ends within 32
      iterations, a result is the best volatility visited, lies in [1e-4, 10] and prices
      within tolerance, and no result means that nothing visited does. */
  ghost predicate SearchOutcome(price: real -> real, vega: real -> real, market: real, visited: seq<real>,
                                r: Option<real>) {
    && IsPath(price, vega, market, visited)
    && IsFinished(price, vega, market, visited)
    && (r.Some? ==>
          && IsBest(price, market, visited, r.value)
          && MIN_IV <= r.value <= MAX_IV
          && Miss(price, market, r.value) < Tolerance(market))
    && (r.None? ==> forall v :: v in visited ==> Miss(price, market, v) >= Tolerance(market))
  }

  lemma PathStarts(price: real -> real, vega: real -> real, market: real)
    ensures IsPath(price, vega, market, [] + [START_VOL])
  {
  }

  lemma PathExtends(price: real -> real, vega: real -> real, market: real, visited: seq<real>)
    requires IsPath(price, vega, market, visited) && |visited| < MAX_IV_ITERATIONS
    requires Miss(price, market, visited[|visited| - 1]) >= IV_EPSILON && vega(visited[|visited| - 1]) >= MIN_VEGA
    ensures IsPath(price, vega, market, visited + [NewtonStep(price, vega, market, visited[|visited| - 1])])
  {
  }

  lemma {:induction false} PathStaysInRange(price: real -> real, vega: real -> real, market: real, visited: seq<real>,
                                            i: nat)
    requires IsPath(price, vega, market, visited) && i < |visited|
    ensures MIN_IV <= visited[i] <= MAX_IV
  {
    if i > 0 {
      assert visited[i] == NewtonStep(price, vega, market, visited[i - 1]);
    }
  }

  lemma BestExtends(price: real -> real, market: real, seen: seq<real>, best: real, vol: real)
    requires IsBest(price, market, seen, best)
    ensures IsBest(price, market, seen + [vol],
                   if Miss(price, market, vol) < Miss(price, market, best) then vol else best)
  {
  }

  lemma BestIsInRange(price: real -> real, vega: real -> real, market: real, visited: seq<real>, best: real)
    requires IsPath(price, vega, market, visited) && best in visited
    ensures MIN_IV <= best <= MAX_IV
  {
    var i :| 0 <= i < |visited| && visited[i] == best;
    PathStaysInRange(price, vega, market, visited, i);
  }

  /** The search ended without converging: the best volatility seen is good enough, or none is. */
  method Conclude(market: real, bestVol: real, bestError: real, price: real -> real, vega: real -> real,
                  ghost visited: seq<real>)
    returns (r: Option<real>)
    requires IsPath(price, vega, market, visited) && IsFinished(price, vega, market, visited)
    requires IsBest(price, market, visited, bestVol) && bestError == Miss(price, market, bestVol) >= IV_EPSILON
    ensures SearchOutcome(price, vega, market, visited, r)
  {
    BestIsInRange(price, vega, market, visited, bestVol);
    if bestError < 0.01 * market {
      r := Some(bestVol);
    } else {
      r := None;
    }
  }

  lemma FirstIsBest(price: real -> real, market: real, vol: real)
    ensures IsBest(price, market, [] + [vol], vol)
  {
  }

  lemma Found(price: real -> real, vega: real -> real, market: real, visited: seq<real>, vol: real, best: real)
    requires IsPath(price, vega, market, visited) && visited[|visited| - 1] == vol
    requires Miss(price, market, vol) < IV_EPSILON && best == vol && IsBest(price, market, visited, best)
    ensures SearchOutcome(price, vega, market, visited, Some(vol))
  {
    BestIsInRange(price, vega, market, visited, vol);
  }

  lemma StepIsClamped(price: real -> real, vega: real -> real, market: real, vol: real)
    requires vega(vol) >= MIN_VEGA
    ensures NewtonStep(price, vega, market, vol) == Clamp(vol - (price(vol) - market) / vega(vol))
  {
  }

  /** The loop of at most 32 steps. */
  method Search(market: real, price: real -> real, vega: real -> real)
    returns (r: Option<real>, ghost visited: seq<real>)
    ensures SearchOutcome(price, vega, market, visited, r)
    ensures r.Some? ==> MIN_IV <= r.value <= MAX_IV && Miss(price, market, r.value) < Tolerance(market)
    ensures 0 < |visited| <= 32 && visited[0] == 0.3
    ensures |visited| < 32 ==>
      var last := visited[|visited| - 1];
      -0.00000001 < price(last) - market < 0.00000001 || vega(last) < 0.000000000001
    ensures r.None? ==> forall v :: v in visited ==>
      && (price(v) >= market + 0.00000001 || price(v) <= market - 0.00000001)
      && (price(v) >= market + 0.01 * market || price(v) <= market - 0.01 * market)
  {
    hide IsPath, IsBest, NewtonStep;
    var vol := START_VOL;
    var bestVol := vol;
    var bestError: Option<real> := None;  // no error seen yet stands for infinity
    visited := [];
    PathStarts(price, vega, market);
    for i := 0 to MAX_IV_ITERATIONS
      invariant |visited| == i && (visited + [vol])[0] == START_VOL
      invariant IsPath(price, vega, market, visited + [vol]) || i == MAX_IV_ITERATIONS
      invariant i > 0 ==> IsPath(price, vega, market, visited)
      invariant bestError.None? <==> i == 0
      invariant i > 0 ==> IsBest(price, market, visited, bestVol) && bestError == Some(Miss(price, market, bestVol))
      invariant i > 0 ==> bestError.value >= IV_EPSILON
    {
      var error := price(vol) - market;
      var absError := Abs(error);
      assert absError == Miss(price, market, vol);
      if i > 0 { BestExtends(price, market, visited, bestVol, vol); } else { FirstIsBest(price, market, vol); }
      visited := visited + [vol];
      if bestError.None? || absError < bestError.value {
        bestError := Some(absError);
        bestVol := vol;
      }
      if absError < IV_EPSILON {
        Found(price, vega, market, visited, vol, bestVol);
        return Some(vol), visited;
      }
      if vega(vol) < MIN_VEGA {
        r := Conclude(market, bestVol, bestError.value, price, vega, visited);
        return;
      }
      if i + 1 < MAX_IV_ITERATIONS { PathExtends(price, vega, market, visited); }
      ghost var next := NewtonStep(price, vega, market, vol);
      vol := vol - error / vega(vol);
      vol := Clamp(vol);
      assert vol == next by { StepIsClamped(price, vega, market, visited[|visited| - 1]); }
    }
    r := Conclude(market, bestVol, bestError.value, price, vega, visited);
  }

  method SolveImpliedVolatility(market: real, spot: real, strike: real, ttm: real, optType: OptionType,
                                price: real -> real, vega: real -> real)
    returns (r: Option<real>, ghost visited: seq<real>)
    ensures OutOfDomain(market, spot, strike, ttm, optType) ==> r == None
    ensures !OutOfDomain(market, spot, strike, ttm, optType) && AtIntrinsic(market, spot, strike, optType) ==>
      r == Some(0.0)
    ensures !OutOfDomain(market, spot, strike, ttm, optType) && !AtIntrinsic(market, spot, strike, optType) ==>
      SearchOutcome(price, vega, market, visited, r)
    ensures r.Some? && r.value != 0.0 ==>
      && 0.0001 <= r.value <= 10.0
      && var miss := price(r.value) - market;
         (-0.00000001 < miss < 0.00000001 || -0.01 * market < miss < 0.01 * market)
    ensures |visited| <= 32
  {
    hide SearchOutcome;
    visited := [];
    if ttm <= 0.0 || spot <= 0.0 || strike <= 0.0 || market <= 0.0 {
      return None, visited;
    }
    var intrinsic := Intrinsic(spot, strike, optType);
    if market < intrinsic - IV_EPSILON {
      return None, visited;
    }
    if market <= intrinsic + IV_EPSILON {
      return Some(0.0), visited;
    }
    r, visited := Search(market, price, vega);
  }

  /** What the solver's answers have in common whatever the pricing formula: none outside its
      domain, zero volatility at intrinsic value, and otherwise, if any, one within the limits. */
  predicate IsAnswer(market: real, spot: real, strike: real, ttm: real, optType: OptionType,
                     r: Option<BsmResult<real>>) {
    if OutOfDomain(market, spot, strike, ttm, optType) then r == None
    else if AtIntrinsic(market, spot, strike, optType) then r.Some? && r.value.impliedVolatility == 0.0
    else r.Some? ==> MIN_IV <= r.value.impliedVolatility <= MAX_IV
  }

  /** The solver: the greeks at the implied volatility, if there is one. */
  method SolveIvAndGreeks(market: real, spot: real, strike: real, ttm: real, optType: OptionType,
                          price: real -> real, vega: real -> real, greeks: real -> BsmResult<real>)
    returns (r: Option<BsmResult<real>>)
    ensures IsAnswer(market, spot, strike, ttm, optType, r)
    ensures r.Some? ==> var iv := r.value.impliedVolatility; r.value == greeks(iv).(impliedVolatility := iv)
  {
    var iv;
    ghost var visited;
    iv, visited := SolveImpliedVolatility(market, spot, strike, ttm, optType, price, vega);
    match iv
    case None => r := None;
    case Some(vol) => r := Some(greeks(vol).(impliedVolatility := vol));
  }
}
