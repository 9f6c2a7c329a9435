/** Option books, chains and their manager as they are kept in memory and updated in place.
    Best prices are found by scanning a hash map, and loops over hash maps run in any order. */
module OptionChains {
  import opened Words
  import opened Events
  import opened Levels
  import opened Books
  import opened OptionTypes
  import opened Calendar
  import opened Options

  class OptionBook {
    const contract: OptionContract
    var bids: LevelMap
    var asks: LevelMap
    var orders: OrderMap
    var lastBbo: Option<Bbo>
    var lastPricing: Option<Pricing>
    var lastSpotPrice: Option<real>
    var pricingDirty: bool

    ghost predicate Valid()
      reads this
    {
      Keyed(bids) && Keyed(asks)
    }

    ghost function DepthNow(): Depth
      reads this
    {
      Depth(bids, asks, orders)
    }

    ghost function Model(): BookState
      reads this
    {
      BookState(contract, DepthNow(), lastBbo, lastPricing, lastSpotPrice, pricingDirty)
    }

    constructor (contract: OptionContract)
      ensures Valid() && Model() == NewOptionBook(contract)
    {
      this.contract := contract;
      bids, asks, orders := map[], map[], map[];
      lastBbo, lastPricing, lastSpotPrice := None, None, None;
      pricingDirty := true;
    }

    /** The scan for the best level, in any order of the hash map. */
    static method Scan(levels: LevelMap, side: Side) returns (best: Option<PriceLevel>)
      requires Keyed(levels)
      ensures best == if levels == map[] then None else Some(levels[BestPrice(levels, side)])
    {
      best := None;
      var unseen := levels.Keys;
      while unseen != {}
        invariant unseen <= levels.Keys
        invariant best.None? <==> unseen == levels.Keys
        invariant best.Some? ==> best.value.price in levels && best.value == levels[best.value.price]
        invariant best.Some? ==> forall p :: p in levels && p !in unseen ==> AtLeastAsGood(side, best.value.price, p)
        decreases unseen
      {
        var p :| p in unseen;
        if best.None? || AtLeastAsGood(side, p, best.value.price) {
          best := Some(levels[p]);
        }
        unseen := unseen - {p};
      }
      assert levels == map[] <==> levels.Keys == {};
    }

    method BboSnapshot() returns (q: Bbo)
      requires Valid()
      ensures q == BboOf(DepthNow())
    {
      var bid := Scan(bids, Buy);
      var ask := Scan(asks, Sell);
      var (bidPrice, bidVolume) := match bid case Some(l) => (l.price, l.volume) case None => (0, 0);
      var (askPrice, askVolume) := match ask case Some(l) => (l.price, l.volume) case None => (0, 0);
      q := Bbo(bidPrice, bidVolume, askPrice, askVolume);
    }

    method AddOrder(r: uint64, side: Side, price: uint64, shares: uint32)
      requires Valid()
      modifies this
      ensures Valid() && Model() == OrderStep(old(Model()), Add(r, side, price, shares))
    {
      orders := orders[r := Order(side, price, shares)];
      var levels := match side case Buy => bids case Sell => asks;
      if price in levels {
        var level := levels[price];
        level := level.(volume := WrapAdd64(level.volume, shares));
        level := level.(orderCount := WrapAdd32(level.orderCount, 1));
        levels := levels[price := level];
      } else {
        levels := levels[price := PriceLevel(price, shares, 1)];
      }
      match side {
        case Buy => bids := levels;
        case Sell => asks := levels;
      }
      pricingDirty := true;
    }

    /** Takes shares off the level of an order, on the order's side. */
    method TakeFromLevel(info: Order, shares: uint32)
      requires Valid()
      modifies this`bids, this`asks
      ensures Valid()
      ensures var d := old(DepthNow());
        DepthNow() == WithSide(d, info.side, TakeShares(SideOf(d, info.side), info.price, shares))
    {
      var levels := match info.side case Buy => bids case Sell => asks;
      if info.price in levels {
        var level := levels[info.price];
        level := level.(volume := SatSub(level.volume, shares));
        level := level.(orderCount := SatSub(level.orderCount, 1));
        levels := levels[info.price := level];
        if level.volume == 0 {
          levels := levels - {info.price};
        }
      }
      match info.side {
        case Buy => bids := levels;
        case Sell => asks := levels;
      }
    }

    method RemoveOrder(r: uint64, shares: uint32)
      requires Valid()
      modifies this
      ensures Valid() && Model() == OrderStep(old(Model()), Cancel(r, shares))
    {
      if r in orders {
        var info := orders[r];
        var taken := Min(shares, info.shares);
        if taken > 0 {
          info := info.(shares := info.shares - taken);
          orders := orders[r := info];
          TakeFromLevel(info, taken);
          pricingDirty := true;
        }
        if info.shares == 0 {
          orders := orders - {r};
        }
      }
    }

    method DeleteOrder(r: uint64)
      requires Valid()
      modifies this
      ensures Valid() && Model() == OrderStep(old(Model()), Delete(r))
    {
      if r in orders {
        var info := orders[r];
        orders := orders - {r};
        TakeFromLevel(info, info.shares);
        pricingDirty := true;
      }
    }

    method Apply(a: OptionAction)
      requires Valid()
      modifies this
      ensures Valid() && Model() == OrderStep(old(Model()), a)
    {
      match a
      case Add(r, side, price, shares) => AddOrder(r, side, price, shares);
      case Cancel(r, shares) => RemoveOrder(r, shares);
      case Delete(r) => DeleteOrder(r);
    }

    method Price(solver: Solver, spot: real, now: uint64, rate: real) returns (out: Option<GreeksSnapshot>)
      requires Valid()
      modifies this
      ensures Valid() && (Model(), out) == ComputePricing(solver, old(Model()), spot, now, rate)
      ensures var q, expiry := BboOf(DepthNow()), DateToUnixSecs(contract.key.expiryDate);
        q.bidPrice > 0 && q.askPrice > 0 ==>
          lastPricing == solver((q.bidPrice as real + q.askPrice as real) / 2.0 / 10000.0, spot,
                                contract.key.strikePrice as real / 10000.0, rate,
                                if expiry > now then (expiry - now) as real / 31557600.0 else 0.0,
                                contract.key.optionType)
    {
      hide BboOf, SolveFor, DateToUnixSecs;
      var q := BboSnapshot();
      SolverArguments(solver, contract, q, spot, rate, now);
      var mid := MidPrice(q);
      if mid.None? {
        return None;
      }
      var result := SolveFor(solver, contract, mid.value, spot, rate, now);
      lastSpotPrice := Some(spot);
      lastPricing := result;
      pricingDirty := false;
      lastBbo := Some(q);
      out := match result
        case None => None
        case Some(p) => Some(GreeksSnapshot(contract.key, p, spot, mid.value));
    }

    method MarkDirty()
      modifies this`pricingDirty
      ensures Model() == old(Model()).(pricingDirty := true)
    {
      pricingDirty := true;
    }
  }

  /** The chain's books when the unseen ones are still to be repriced. */
  ghost function PartlyRepriced(models: map<OptionContractKey, BookState>, unseen: set<OptionContractKey>,
                                solver: Solver, spot: real, now: uint64, rate: real)
    : map<OptionContractKey, BookState>
  {
    map k | k in models :: if k in unseen then models[k] else Repriced(solver, models[k], spot, now, rate)
  }

  lemma NoneRepriced(models: map<OptionContractKey, BookState>, solver: Solver, spot: real, now: uint64, rate: real)
    ensures PartlyRepriced(models, models.Keys, solver, spot, now, rate) == models
  {
  }

  lemma OneMoreRepriced(models: map<OptionContractKey, BookState>, unseen: set<OptionContractKey>, k: OptionContractKey,
                        solver: Solver, spot: real, now: uint64, rate: real)
    requires k in unseen && k in models
    ensures var partly := PartlyRepriced(models, unseen, solver, spot, now, rate);
      && k in partly && partly[k] == models[k]
      && partly[k := Repriced(solver, models[k], spot, now, rate)]
         == PartlyRepriced(models, unseen - {k}, solver, spot, now, rate)
  {
    hide Repriced;
  }

  lemma NothingRepriced(solver: Solver, c: ChainState, now: uint64)
    requires c.lastSpotPrice.None?
    ensures UpdateAllPricing(solver, c, now) == c
  {
  }

  lemma AllRepriced(solver: Solver, c: ChainState, now: uint64)
    requires c.lastSpotPrice.Some?
    ensures UpdateAllPricing(solver, c, now)
         == c.(chainDirty := false,
               contracts := PartlyRepriced(c.contracts, {}, solver, c.lastSpotPrice.value, now, c.riskFreeRate))
  {
    hide Repriced;
  }

  lemma {:induction false} InsertedAt(dates: seq<uint32>, date: uint32, i: nat)
    requires i <= |dates| && forall j :: 0 <= j < i ==> dates[j] <= date
    requires i < |dates| ==> date < dates[i]
    ensures Inserted(dates, date) == dates[..i] + [date] + dates[i..]
    decreases |dates|
  {
    if i == 0 {
      assert dates[..0] + [date] + dates[0..] == [date] + dates;
    } else {
      var rest := dates[1..];
      InsertedAt(rest, date, i - 1);
      assert dates[..i] == [dates[0]] + rest[..i - 1] && rest[i - 1..] == dates[i..];
      assert Inserted(dates, date) == [dates[0]] + Inserted(rest, date);
    }
  }

  lemma NothingListed<K(!new), T>(all: map<K, Option<T>>)
    ensures ListsSeen(all, all.Keys, [], [])
  {
  }

  lemma NothingToList<K(!new), T>(all: map<K, Option<T>>)
    requires forall k :: k in all ==> all[k].None?
    ensures Lists(all, [], [])
  {
  }

  lemma ListOneMore<K(!new), T>(all: map<K, Option<T>>, unseen: set<K>, keys: seq<K>, items: seq<T>, k: K)
    requires ListsSeen(all, unseen, keys, items) && k in unseen && k in all
    ensures match all[k]
      case None => ListsSeen(all, unseen - {k}, keys, items)
      case Some(item) => ListsSeen(all, unseen - {k}, keys + [k], items + [item])
  {
  }

  lemma {:induction false} DistinctSize<K>(keys: seq<K>)
    requires forall i, j :: 0 <= i < j < |keys| ==> keys[i] != keys[j]
    ensures |set k | k in keys| == |keys|
    decreases |keys|
  {
    if keys != [] {
      var init, last := keys[..|keys| - 1], keys[|keys| - 1];
      DistinctSize(init);
      assert (set k | k in keys) == (set k | k in init) + {last};
      assert last !in init;
    }
  }

  lemma SmallerSet<K>(a: set<K>, b: set<K>)
    requires a <= b
    ensures |a| <= |b|
  {
    assert b == a + (b - a);
  }

  lemma TooMany(c: ChainState, unseen: set<OptionContractKey>, keys: seq<OptionContractKey>, entries: seq<Entry>)
    requires ListsSeen(EntriesOf(c), unseen, keys, entries) && |entries| > MAX_CONTRACTS_PER_CHAIN
    ensures |Contributors(c)| > MAX_CONTRACTS_PER_CHAIN
  {
    hide EntryOf;
    DistinctSize(keys);
    SmallerSet((set k | k in keys), Contributors(c));
  }

  lemma AllListed(c: ChainState, keys: seq<OptionContractKey>, entries: seq<Entry>)
    requires Lists(EntriesOf(c), keys, entries)
    ensures |Contributors(c)| == |entries|
  {
    hide EntryOf;
    DistinctSize(keys);
    assert (set k | k in keys) == Contributors(c);
  }

  lemma ListedIsSnapshot(c: ChainState, spot: Bbo, keys: seq<OptionContractKey>, entries: seq<Entry>,
                         out: Option<ChainSnapshot>)
    requires Lists(EntriesOf(c), keys, entries)
    requires out == if entries == [] then None
                    else Some(AggregatedOptionSnapshot(c.underlying, spot, c.lastSpotTimestamp, entries))
    ensures IsSnapshot(c, spot, out, keys)
  {
    hide EntryOf;
    forall k | k in c.contracts && EntryOf(c.contracts[k]).Some? ensures k in keys {
      assert EntriesOf(c)[k] == EntryOf(c.contracts[k]);
    }
  }

  class OptionChain {
    const underlying: uint64
    const riskFreeRate: real
    var contracts: map<OptionContractKey, OptionBook>
    var expiryDates: seq<uint32>
    var lastSpotPrice: Option<real>
    var lastSpotTimestamp: uint64
    var chainDirty: bool
    ghost var Repr: set<object>

    ghost predicate Valid()
      reads this, Repr
      ensures Valid() ==> this in Repr
    {
      && this in Repr && Increasing(expiryDates)
      && (forall k :: k in contracts ==>
            contracts[k] in Repr && contracts[k].Valid() && (contracts[k] as object) != this)
      && (forall k, j :: k in contracts && j in contracts && k != j ==> contracts[k] != contracts[j])
    }

    ghost function BookModels(): (m: map<OptionContractKey, BookState>)
      requires Valid()
      reads this, Repr
      ensures m.Keys == contracts.Keys
      ensures forall k :: k in contracts ==> m[k] == contracts[k].Model()
    {
      map k | k in contracts :: contracts[k].Model()
    }

    ghost function Model(): (c: ChainState)
      requires Valid()
      reads this, Repr
      ensures c.contracts.Keys == contracts.Keys
    {
      ChainState(underlying, BookModels(), expiryDates, riskFreeRate, lastSpotPrice, lastSpotTimestamp, chainDirty)
    }

    constructor (underlying: uint64, riskFreeRate: real)
      ensures Valid() && fresh(Repr) && Model() == NewChain(underlying, riskFreeRate)
    {
      this.underlying := underlying;
      this.riskFreeRate := riskFreeRate;
      contracts := map[];
      expiryDates := [];
      lastSpotPrice := None;
      lastSpotTimestamp := 0;
      chainDirty := false;
      Repr := {this};
    }

    /** A date is pushed at the end of the sorted list and moved to its place. */
    static method PushSorted(dates: seq<uint32>, date: uint32) returns (sorted: seq<uint32>)
      requires Increasing(dates) && date !in dates
      ensures sorted == Inserted(dates, date) && Increasing(sorted)
    {
      sorted := dates + [date];
      var i := |dates|;
      while i > 0 && date < sorted[i - 1]
        invariant 0 <= i <= |dates| && sorted == dates[..i] + [date] + dates[i..]
        invariant i < |dates| ==> date < dates[i]
      {
        sorted := sorted[i := sorted[i - 1]][i - 1 := date];
        i := i - 1;
      }
      assert forall j :: 0 <= j < i ==> dates[j] <= dates[i - 1] <= date;
      InsertedAt(dates, date, i);
      InsertedMeaning(dates, date);
    }

    method AddExpiry(date: uint32)
      requires Valid()
      modifies this`expiryDates
      ensures Valid() && expiryDates == WithExpiry(old(expiryDates), date) && BookModels() == old(BookModels())
    {
      hide OptionBook.Model, OptionBook.Valid, Inserted, Increasing;
      if date !in expiryDates {
        expiryDates := PushSorted(expiryDates, date);
      }
    }

    method InsertBook(contract: OptionContract)
      requires Valid()
      modifies this`contracts, this`Repr
      ensures Valid() && fresh(Repr - old(Repr))
      ensures BookModels() == old(BookModels())[contract.key := NewOptionBook(contract)]
    {
      hide OptionBook.Model, OptionBook.Valid, Increasing, NewOptionBook;
      ghost var before := BookModels();
      var book := new OptionBook(contract);
      contracts := contracts[contract.key := book];
      Repr := Repr + {book};
      forall k | k in contracts
        ensures contracts[k].Model() == before[contract.key := NewOptionBook(contract)][k]
      {
      }
    }

    method RegisterContract(contract: OptionContract)
      requires Valid()
      modifies this
      ensures Valid() && fresh(Repr - old(Repr))
      ensures Model() == Register(old(Model()), contract)
    {
      hide Valid, BookModels, WithExpiry, NewOptionBook;
      AddExpiry(contract.key.expiryDate);
      InsertBook(contract);
    }

    method MarkBook(k: OptionContractKey)
      requires Valid() && k in contracts
      modifies contracts[k]
      ensures Valid()
      ensures contracts[k].Model() == old(contracts[k].Model()).(pricingDirty := true)
      ensures forall j :: j in contracts && j != k ==> contracts[j].Model() == old(contracts[j].Model())
    {
      contracts[k].MarkDirty();
    }

    /** A new spot price invalidates every book's cache. */
    method UpdateSpotPrice(spot: real, timestamp: uint64)
      requires Valid()
      modifies Repr
      ensures Valid() && Repr == old(Repr) && Model() == UpdateSpot(old(Model()), spot, timestamp)
      ensures contracts == old(contracts)
    {
      hide OptionBook.Model, OptionBook.Valid;
      ghost var before := BookModels();
      lastSpotPrice := Some(spot);
      lastSpotTimestamp := timestamp;
      chainDirty := true;
      var unseen := contracts.Keys;
      while unseen != {}
        invariant unseen <= contracts.Keys
        invariant contracts == old(contracts) && Repr == old(Repr) && Valid()
        invariant lastSpotPrice == Some(spot) && lastSpotTimestamp == timestamp && chainDirty
        invariant expiryDates == old(expiryDates)
        invariant forall k :: k in contracts ==>
                    contracts[k].Model() == if k in unseen then before[k] else before[k].(pricingDirty := true)
        decreases unseen
      {
        var k :| k in unseen;
        MarkBook(k);
        unseen := unseen - {k};
      }
    }

    method PriceBook(solver: Solver, k: OptionContractKey, spot: real, now: uint64, rate: real)
      returns (out: Option<GreeksSnapshot>)
      requires Valid() && k in contracts
      modifies contracts[k]
      ensures Valid()
      ensures (contracts[k].Model(), out) == ComputePricing(solver, old(contracts[k].Model()), spot, now, rate)
      ensures forall j :: j in contracts && j != k ==> contracts[j].Model() == old(contracts[j].Model())
    {
      hide ComputePricing;
      out := contracts[k].Price(solver, spot, now, rate);
    }

    method ApplyToBook(k: OptionContractKey, a: OptionAction)
      requires Valid() && k in contracts
      modifies contracts[k]
      ensures Valid()
      ensures contracts[k].Model() == OrderStep(old(contracts[k].Model()), a)
      ensures forall j :: j in contracts && j != k ==> contracts[j].Model() == old(contracts[j].Model())
    {
      hide OrderStep;
      contracts[k].Apply(a);
    }

    lemma DirtyOf(b: OptionBook)
      ensures b.Model().pricingDirty == b.pricingDirty
    {
    }

    method RepriceIfDirty(solver: Solver, k: OptionContractKey, spot: real, now: uint64)
      returns (out: Option<GreeksSnapshot>)
      requires Valid() && k in contracts
      modifies contracts[k]
      ensures Valid() && unchanged(this)
      ensures var b := old(BookModels())[k];
        && BookModels() == old(BookModels())[k := Repriced(solver, b, spot, now, riskFreeRate)]
        && out == ResultOf(solver, b, spot, now, riskFreeRate)
    {
      hide OptionBook.Model, OptionBook.Valid, ComputePricing;
      ghost var before := BookModels();
      assert contracts[k].Model().pricingDirty == contracts[k].pricingDirty by { DirtyOf(contracts[k]); }
      out := None;
      if contracts[k].pricingDirty {
        out := PriceBook(solver, k, spot, now, riskFreeRate);
      }
      assert BookModels() == before[k := Repriced(solver, before[k], spot, now, riskFreeRate)];
    }

    /** Reprices the dirty books, in any order, and collects each result there is once. */
    method UpdateAll(solver: Solver, now: uint64)
      returns (results: seq<GreeksSnapshot>, ghost keys: seq<OptionContractKey>)
      requires Valid()
      modifies Repr
      ensures Valid() && Repr == old(Repr) && Model() == UpdateAllPricing(solver, old(Model()), now)
      ensures Lists(ResultsOf(solver, old(Model()), now), keys, results)
      ensures contracts == old(contracts)
    {
      hide Increasing, OptionBook.Model, OptionBook.Valid, BookModels, Repriced, ResultOf, ListsSeen, UpdateAllPricing,
        PartlyRepriced;
      results, keys := [], [];
      ghost var before, c := BookModels(), Model();
      ghost var all := ResultsOf(solver, c, now);
      NothingListed(all);
      assert all.Keys == contracts.Keys;
      if lastSpotPrice.None? {
        NothingToList(all);
        NothingRepriced(solver, c, now);
        return;
      }
      var spot := lastSpotPrice.value;
      var unseen := contracts.Keys;
      NoneRepriced(before, solver, spot, now, riskFreeRate);
      while unseen != {}
        invariant unseen <= contracts.Keys && unchanged(this) && Valid()
        invariant BookModels() == PartlyRepriced(before, unseen, solver, spot, now, riskFreeRate)
        invariant ListsSeen(all, unseen, keys, results)
        decreases unseen
      {
        var k :| k in unseen;
        ListOneMore(all, unseen, keys, results, k);
        OneMoreRepriced(before, unseen, k, solver, spot, now, riskFreeRate);
        var snapshot := RepriceIfDirty(solver, k, spot, now);
        if snapshot.Some? {
          results, keys := results + [snapshot.value], keys + [k];
        }
        unseen := unseen - {k};
      }
      AllRepriced(solver, c, now);
      chainDirty := false;
    }

    method EntryFor(k: OptionContractKey) returns (entry: Option<Entry>)
      requires Valid() && k in contracts
      ensures entry == EntryOf(contracts[k].Model())
    {
      hide BboOf;
      var book := contracts[k];
      if book.lastPricing.None? {
        return None;
      }
      var q := book.BboSnapshot();
      if q.bidPrice > 0 || q.askPrice > 0 {
        entry := Some(OptionContractSnapshot(book.contract, q, book.lastPricing.value));
      } else {
        entry := None;
      }
    }

    /** Lists what is priced and quoted. The fixed list of a snapshot holds 128 entries: the
        push of one more aborts. */
    method Collect(spot: Bbo)
      returns (out: Option<ChainSnapshot>, aborted: bool, ghost keys: seq<OptionContractKey>)
      requires Valid()
      ensures SnapshotOutcome(Model(), spot, out, aborted, keys)
      ensures aborted <==> |Contributors(Model())| > 128
      ensures out.Some? <==> 0 < |Contributors(Model())| <= 128
    {
      hide OptionBook.Model, OptionBook.Valid, EntryOf, ListsSeen, Contributors, IsSnapshot;
      var entries: seq<Entry> := [];
      out, aborted, keys := None, false, [];
      ghost var all := EntriesOf(Model());
      var unseen := contracts.Keys;
      NothingListed(all);
      while unseen != {}
        invariant unseen <= contracts.Keys
        invariant |entries| <= MAX_CONTRACTS_PER_CHAIN
        invariant ListsSeen(all, unseen, keys, entries)
        decreases unseen
      {
        var k :| k in unseen;
        var entry := EntryFor(k);
        ListOneMore(all, unseen, keys, entries, k);
        if entry.Some? {
          if |entries| == MAX_CONTRACTS_PER_CHAIN {
            TooMany(Model(), unseen - {k}, keys + [k], entries + [entry.value]);
            aborted := true;
            return;
          }
          entries, keys := entries + [entry.value], keys + [k];
        }
        unseen := unseen - {k};
      }
      AllListed(Model(), keys, entries);
      if entries != [] {
        out := Some(AggregatedOptionSnapshot(underlying, spot, lastSpotTimestamp, entries));
      }
      ListedIsSnapshot(Model(), spot, keys, entries, out);
    }

    /** Reprices everything at the given spot and lists what is priced and quoted. */
    method AggregateSnapshot(solver: Solver, spot: Bbo, now: uint64)
      returns (out: Option<ChainSnapshot>, aborted: bool, ghost keys: seq<OptionContractKey>)
      requires Valid()
      modifies Repr
      ensures Valid() && Repr == old(Repr)
      ensures Model() == Refreshed(solver, old(Model()), spot, now)
      ensures SnapshotOutcome(Model(), spot, out, aborted, keys)
    {
      hide UpdateAllPricing, UpdateSpot, SnapshotOutcome, Lists, OptionBook.Model, OptionBook.Valid, BookModels;
      UpdateSpotPrice(SpotOf(spot), lastSpotTimestamp);
      ghost var pricedKeys;
      var results;
      results, pricedKeys := UpdateAll(solver, now);
      out, aborted, keys := Collect(spot);
    }

    /** One order on a contract of the chain, repriced when a spot price is known. */
    method ApplyAndPrice(solver: Solver, key: OptionContractKey, a: OptionAction, now: uint64, rate: real)
      returns (out: Option<GreeksSnapshot>)
      requires Valid() && key in contracts
      modifies Repr
      ensures Valid() && Repr == old(Repr)
      ensures (Model(), out) == OrderedChain(solver, old(Model()), key, a, now, rate)
    {
      hide OptionBook.Model, OptionBook.Valid, ComputePricing, OrderStep;
      ghost var before := BookModels();
      ApplyToBook(key, a);
      if lastSpotPrice.None? {
        assert BookModels() == before[key := OrderStep(before[key], a)];
        return None;
      }
      out := PriceBook(solver, key, lastSpotPrice.value, now, rate);
      assert BookModels() == before[key := contracts[key].Model()];
    }
  }

  lemma PutTwice(m: ManagerState, u: uint64, c: ChainState, d: ChainState)
    ensures PutChain(PutChain(m, u, c), u, d) == PutChain(m, u, d)
  {
  }

  class OptionChainManager {
    const riskFreeRate: real
    var chains: map<uint64, OptionChain>
    ghost var Repr: set<object>

    ghost predicate Valid()
      reads this, Repr
      ensures Valid() ==> this in Repr
    {
      && this in Repr
      && (forall u :: u in chains ==>
            chains[u] in Repr && chains[u].Repr <= Repr && this !in chains[u].Repr && chains[u].Valid())
      && (forall u, v :: u in chains && v in chains && u != v ==> chains[u].Repr !! chains[v].Repr)
    }

    ghost function Model(): (m: ManagerState)
      requires Valid()
      reads this, Repr
      ensures m.riskFreeRate == riskFreeRate && m.chains.Keys == chains.Keys
    {
      ManagerState(map u | u in chains :: chains[u].Model(), riskFreeRate)
    }

    constructor (riskFreeRate: real)
      ensures Valid() && fresh(Repr) && Model() == ManagerState(map[], riskFreeRate)
    {
      this.riskFreeRate := riskFreeRate;
      chains := map[];
      Repr := {this};
    }

    method Insert(u: uint64, chain: OptionChain)
      requires Valid() && u !in chains && chain.Valid() && chain.Repr !! Repr
      modifies this
      ensures Valid() && Repr == old(Repr) + chain.Repr
      ensures chains == old(chains)[u := chain]
      ensures Model() == PutChain(old(Model()), u, chain.Model())
    {
      hide OptionChain.Valid, OptionChain.Model;
      ghost var before := Model().chains;
      chains := chains[u := chain];
      Repr := Repr + chain.Repr;
      forall v | v in chains ensures chains[v].Model() == before[u := chain.Model()][v] {}
    }

    method GetOrCreateChain(u: uint64) returns (chain: OptionChain)
      requires Valid()
      modifies this
      ensures Valid() && fresh(Repr - old(Repr))
      ensures u in chains && chains[u] == chain && chain.Valid() && chain.Model() == ChainOr(old(Model()), u)
      ensures Model() == PutChain(old(Model()), u, chain.Model())
    {
      hide OptionChain.Valid, OptionChain.Model;
      if u in chains {
        chain := chains[u];
        assert Model().chains[u := chain.Model()] == Model().chains;
      } else {
        chain := new OptionChain(u, riskFreeRate);
        assert Valid() && Model() == old(Model());
        hide Valid, Model;
        Insert(u, chain);
      }
    }

    /** The effect on all the chains of a change inside one of them. */
    twostate lemma OnlyOneChanged(u: uint64)
      requires old(Valid()) && old(u in chains)
      requires chains == old(chains) && chains[u].Valid() && fresh(chains[u].Repr - old(chains[u].Repr))
      requires Repr == old(Repr) + chains[u].Repr
      requires forall o :: o in old(Repr) && o !in old(chains[u].Repr) && o != this ==> unchanged(o)
      ensures Valid()
      ensures Model() == PutChain(old(Model()), u, chains[u].Model())
    {
      hide OptionChain.Valid, OptionChain.Model;
      forall v | v in chains && v != u
        ensures chains[v].Repr == old(chains[v].Repr) && chains[v].Valid()
        ensures chains[v].Model() == old(chains[v].Model())
      {
        assert old(chains[v].Repr) !! old(chains[u].Repr);
        assert chains[v] in old(chains[v].Repr);
      }
    }

    method UpdateSpotPrice(solver: Solver, u: uint64, spot: real, timestamp: uint64)
      requires Valid()
      modifies Repr
      ensures Valid() && fresh(Repr - old(Repr))
      ensures Model() == ManagerStep(solver, old(Model()), SpotPrice(u, spot, timestamp))
      ensures chains == old(chains) && (u !in chains ==> Model() == old(Model()))
    {
      hide OptionChain.Model, OptionChain.Valid, UpdateSpot;
      if u in chains {
        chains[u].UpdateSpotPrice(spot, timestamp);
        hide Model;
        OnlyOneChanged(u);
      }
    }

    method RegisterIn(u: uint64, contract: OptionContract)
      requires Valid() && u in chains
      modifies Repr
      ensures Valid() && fresh(Repr - old(Repr))
      ensures Model() == PutChain(old(Model()), u, Register(old(chains[u].Model()), contract))
    {
      hide OptionChain.Model, OptionChain.Valid, Register, Model;
      chains[u].RegisterContract(contract);
      Repr := Repr + chains[u].Repr;
      OnlyOneChanged(u);
    }

    method RegisterContract(solver: Solver, contract: OptionContract)
      requires Valid()
      modifies Repr
      ensures Valid() && fresh(Repr - old(Repr))
      ensures Model() == ManagerStep(solver, old(Model()), Options.RegisterContract(contract))
    {
      hide OptionChain.Model, OptionChain.Valid, Register, ChainOr, PutChain, Model, Valid;
      ghost var m := Model();
      var u := contract.key.underlying;
      var chain := GetOrCreateChain(u);
      ghost var c := chain.Model();
      RegisterIn(u, contract);
      PutTwice(m, u, c, Register(c, contract));
    }

    method OrderIn(solver: Solver, u: uint64, key: OptionContractKey, a: OptionAction, now: uint64)
      returns (out: Option<GreeksSnapshot>)
      requires Valid() && u in chains && key in chains[u].contracts
      modifies Repr
      ensures Valid() && fresh(Repr - old(Repr))
      ensures var (c, o) := OrderedChain(solver, old(chains[u].Model()), key, a, now, riskFreeRate);
        Model() == PutChain(old(Model()), u, c) && out == o
    {
      hide OrderedChain, OptionChain.Model, OptionChain.Valid, Model;
      out := chains[u].ApplyAndPrice(solver, key, a, now, riskFreeRate);
      OnlyOneChanged(u);
    }

    /** Applies an option order to its contract, if registered, and prices it when the chain
        knows a spot price. */
    method ApplyOptionOrderEvent(solver: Solver, key: OptionContractKey, a: OptionAction, now: uint64)
      returns (out: Option<GreeksSnapshot>)
      requires Valid()
      modifies Repr
      ensures Valid() && fresh(Repr - old(Repr))
      ensures (Model(), out) == ApplyOrder(solver, old(Model()), key, a, now)
    {
      hide OptionChain.Model, OptionChain.Valid, ChainOr, OrderedChain, PutChain, Model, Valid;
      ghost var m := Model();
      var u := key.underlying;
      var chain := GetOrCreateChain(u);
      ghost var c := chain.Model();
      if key !in chain.contracts {
        return None;
      }
      PutTwice(m, u, c, OrderedChain(solver, c, key, a, now, riskFreeRate).0);
      out := OrderIn(solver, u, key, a, now);
    }

    /** The snapshot of one underlying's chain, when there is such a chain. */
    method AggregateSnapshot(solver: Solver, u: uint64, spot: Bbo, now: uint64)
      returns (out: Option<ChainSnapshot>, aborted: bool, ghost keys: seq<OptionContractKey>)
      requires Valid()
      modifies Repr
      ensures Valid() && fresh(Repr - old(Repr))
      ensures Model() == ManagerStep(solver, old(Model()), Aggregate(u, spot, now))
      ensures chains == old(chains)
      ensures if u in chains then SnapshotOutcome(Model().chains[u], spot, out, aborted, keys)
              else out == None && !aborted
    {
      hide OptionChain.Model, OptionChain.Valid, Refreshed, SnapshotOutcome;
      out, aborted, keys := None, false, [];
      if u in chains {
        out, aborted, keys := chains[u].AggregateSnapshot(solver, spot, now);
        hide Model;
        OnlyOneChanged(u);
      }
    }
  }
}
