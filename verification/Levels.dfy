/** One side of a book: price levels keyed by price, and the updates made to them. */
module Levels {
  import opened Words
  import opened Events

  datatype PriceLevel = PriceLevel(price: uint64, volume: uint64, orderCount: uint32)

  type LevelMap = map<uint64, PriceLevel>

  /** Best price and its volume, or two zeros for an empty side. */
  datatype Quote = Quote(price: uint64, volume: uint64)

  function VolumeAt(l: LevelMap, price: uint64): nat {
    if price in l then l[price].volume else 0
  }

  function CountAt(l: LevelMap, price: uint64): nat {
    if price in l then l[price].orderCount else 0
  }

  function AddShares(l: LevelMap, price: uint64, shares: uint32): LevelMap {
    if price in l then
      l[price := PriceLevel(l[price].price, WrapAdd64(l[price].volume, shares), WrapAdd32(l[price].orderCount, 1))]
    else
      l[price := PriceLevel(price, shares, 1)]
  }

  /** Takes shares and one order off a level, and drops the level when no volume is left. */
  function TakeShares(l: LevelMap, price: uint64, shares: uint32): LevelMap {
    if price !in l then l
    else
      var volume := SatSub(l[price].volume, shares);
      if volume == 0 then l - {price}
      else l[price := PriceLevel(l[price].price, volume, SatSub(l[price].orderCount, 1))]
  }

  function ReplaceShares(l: LevelMap, oldPrice: uint64, oldShares: uint32, newPrice: uint64, newShares: uint32)
    : LevelMap
  {
    if oldPrice != newPrice then AddShares(TakeShares(l, oldPrice, oldShares), newPrice, newShares)
    else if oldPrice !in l then l[newPrice := PriceLevel(newPrice, newShares, 1)]
    else
      var volume := WrapAdd64(SatSub(l[oldPrice].volume, oldShares), newShares);
      if volume == 0 then l - {oldPrice}
      else l[oldPrice := l[oldPrice].(volume := volume)]
  }

  /** Is p at least as good a price as q for an order resting on this side? */
  predicate AtLeastAsGood(side: Side, p: uint64, q: uint64) {
    match side
    case Buy => q <= p
    case Sell => p <= q
  }

  lemma {:induction false} BestExists(prices: set<uint64>, side: Side)
    requires prices != {}
    ensures exists p :: p in prices && forall q :: q in prices ==> AtLeastAsGood(side, p, q)
  {
    var p :| p in prices;
    var rest := prices - {p};
    if rest == {} {
      assert prices == {p};
      assert forall q :: q in prices ==> AtLeastAsGood(side, p, q);
    } else {
      BestExists(rest, side);
      var b :| b in rest && forall q :: q in rest ==> AtLeastAsGood(side, b, q);
      var best := if AtLeastAsGood(side, p, b) then p else b;
      assert best in prices && forall q :: q in prices ==> q == p || q in rest;
      assert forall q :: q in prices ==> AtLeastAsGood(side, best, q);
    }
  }

  /** The first price in the side's own order: highest bid, lowest ask. */
  function BestPrice(l: LevelMap, side: Side): (p: uint64)
    requires l != map[]
    ensures p in l && forall q :: q in l ==> AtLeastAsGood(side, p, q)
  {
    assert l.Keys != {};
    BestExists(l.Keys, side);
    var p :| p in l.Keys && forall q :: q in l.Keys ==> AtLeastAsGood(side, p, q);
    p
  }

  function BestQuote(l: LevelMap, side: Side): Quote {
    if l == map[] then Quote(0, 0)
    else var p := BestPrice(l, side); Quote(l[p].price, l[p].volume)
  }

  /** The level is in l, and no level of l has a better price. */
  ghost predicate IsBest(l: LevelMap, side: Side, level: PriceLevel) {
    exists p :: p in l && l[p] == level && forall q :: q in l ==> AtLeastAsGood(side, p, q)
  }

  /** There is only one best level, so its price and volume are the best quote. */
  lemma BestIsUnique(l: LevelMap, side: Side, level: PriceLevel)
    requires IsBest(l, side, level)
    ensures BestQuote(l, side) == Quote(level.price, level.volume)
  {
    var p :| p in l && l[p] == level && forall q :: q in l ==> AtLeastAsGood(side, p, q);
    assert AtLeastAsGood(side, p, BestPrice(l, side)) && AtLeastAsGood(side, BestPrice(l, side), p);
  }

  /** Every level records the price it is stored under. */
  ghost predicate Keyed(l: LevelMap) {
    forall p :: p in l ==> l[p].price == p
  }

  ghost predicate Listed(top: seq<PriceLevel>, price: uint64) {
    exists j :: 0 <= j < |top| && top[j].price == price
  }

  /** top holds distinct levels of l, best first. */
  ghost predicate Ranked(l: LevelMap, side: Side, top: seq<PriceLevel>) {
    && (forall i :: 0 <= i < |top| ==> top[i].price in l && top[i] == l[top[i].price])
    && (forall i, j :: 0 <= i < j < |top| ==>
          top[i].price != top[j].price && AtLeastAsGood(side, top[i].price, top[j].price))
  }

  /** No level that is left out is better than one that is listed. */
  ghost predicate Foremost(l: LevelMap, side: Side, top: seq<PriceLevel>) {
    forall i, q :: 0 <= i < |top| && q in l && !Listed(top, q) ==> AtLeastAsGood(side, top[i].price, q)
  }

  /** top lists the n best levels, best first. */
  ghost predicate IsTop(l: LevelMap, side: Side, n: nat, top: seq<PriceLevel>) {
    |top| == Min(n, |l|) && Ranked(l, side, top) && Foremost(l, side, top)
  }

  function TopLevels(l: LevelMap, side: Side, n: nat): seq<PriceLevel>
    decreases n
  {
    if n == 0 || l == map[] then []
    else
      var p := BestPrice(l, side);
      [l[p]] + TopLevels(l - {p}, side, n - 1)
  }

  lemma SizeWithout(l: LevelMap, p: uint64)
    requires p in l
    ensures |l - {p}| == |l| - 1
  {
  }

  lemma ListedCons(first: PriceLevel, tail: seq<PriceLevel>, q: uint64)
    ensures Listed([first] + tail, q) <==> q == first.price || Listed(tail, q)
  {
    var top := [first] + tail;
    assert top[0] == first;
    if j :| 0 <= j < |tail| && tail[j].price == q { assert top[j + 1] == tail[j]; }
    if j :| 0 <= j < |top| && top[j].price == q { assert j == 0 || top[j] == tail[j - 1]; }
  }

  /** Putting the best level in front of the n best of the others gives the n + 1 best. */
  lemma TopCons(l: LevelMap, side: Side, n: nat, tail: seq<PriceLevel>)
    requires Keyed(l) && l != map[]
    requires IsTop(l - {BestPrice(l, side)}, side, n, tail)
    ensures IsTop(l, side, n + 1, [l[BestPrice(l, side)]] + tail)
  {
    var p := BestPrice(l, side);
    var top := [l[p]] + tail;
    SizeWithout(l, p);
    assert Ranked(l, side, top) by {
      forall i | 0 <= i < |top| ensures top[i].price in l && top[i] == l[top[i].price] {
        if i > 0 { assert top[i] == tail[i - 1]; }
      }
      forall i, j | 0 <= i < j < |top|
        ensures top[i].price != top[j].price && AtLeastAsGood(side, top[i].price, top[j].price)
      {
        assert top[j] == tail[j - 1];
        if i > 0 { assert top[i] == tail[i - 1]; }
      }
    }
    forall i, q | 0 <= i < |top| && q in l && !Listed(top, q)
      ensures AtLeastAsGood(side, top[i].price, q)
    {
      ListedCons(l[p], tail, q);
      if i > 0 { assert top[i] == tail[i - 1] && q in l - {p}; }
    }
  }

  /** The head of a ranking of the best levels is the best level. */
  lemma TopHead(l: LevelMap, side: Side, n: nat, top: seq<PriceLevel>)
    requires Keyed(l) && l != map[] && n > 0 && IsTop(l, side, n, top)
    ensures top != [] && top[0] == l[BestPrice(l, side)]
    ensures IsTop(l - {BestPrice(l, side)}, side, n - 1, top[1..])
  {
    var p := BestPrice(l, side);
    SizeWithout(l, p);
    if Listed(top, p) {
      var j :| 0 <= j < |top| && top[j].price == p;
      assert top[0].price == p;
    }
    var rest, tail := l - {p}, top[1..];
    assert top == [top[0]] + tail;
    assert Ranked(rest, side, tail) by {
      forall i | 0 <= i < |tail| ensures tail[i].price in rest && tail[i] == rest[tail[i].price] {
        assert tail[i] == top[i + 1] && top[0].price != top[i + 1].price;
      }
    }
    forall i, q | 0 <= i < |tail| && q in rest && !Listed(tail, q)
      ensures AtLeastAsGood(side, tail[i].price, q)
    {
      ListedCons(top[0], tail, q);
      assert tail[i] == top[i + 1];
    }
  }

  lemma {:induction false} TopLevelsAreTop(l: LevelMap, side: Side, n: nat)
    requires Keyed(l)
    ensures IsTop(l, side, n, TopLevels(l, side, n))
    decreases n
  {
    if l == map[] {
      assert |l| == 0;
    } else if n > 0 {
      TopLevelsAreTop(l - {BestPrice(l, side)}, side, n - 1);
      TopCons(l, side, n - 1, TopLevels(l - {BestPrice(l, side)}, side, n - 1));
    }
  }

  lemma TopOfNothing(l: LevelMap, side: Side, n: nat, top: seq<PriceLevel>)
    requires IsTop(l, side, n, top) && (n == 0 || l == map[])
    ensures top == []
  {
  }

  lemma {:induction false} TopIsUnique(l: LevelMap, side: Side, n: nat, top: seq<PriceLevel>)
    requires Keyed(l) && IsTop(l, side, n, top)
    ensures top == TopLevels(l, side, n)
    decreases n
  {
    hide IsTop;
    if n == 0 || l == map[] {
      TopOfNothing(l, side, n, top);
    } else {
      TopHead(l, side, n, top);
      TopIsUnique(l - {BestPrice(l, side)}, side, n - 1, top[1..]);
      assert top == [top[0]] + top[1..];
    }
  }

  /** TopLevels computes the n best levels, and no other list is that ranking. */
  lemma TopLevelsMeaning(l: LevelMap, side: Side, n: nat, top: seq<PriceLevel>)
    requires Keyed(l)
    ensures IsTop(l, side, n, top) <==> top == TopLevels(l, side, n)
  {
    TopLevelsAreTop(l, side, n);
    if IsTop(l, side, n, top) {
      TopIsUnique(l, side, n, top);
    }
  }
}
