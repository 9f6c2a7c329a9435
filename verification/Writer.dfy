/** The single writer: it takes events, applies them to the books, offers the published
    updates to the broadcaster, and keeps the option chains priced from them. */
module Writer {
  import opened Words
  import opened Events
  import opened Books
  import opened Gateways
  import opened OptionTypes
  import opened Options
  import opened OptionChains
  import opened OrderBooks
  import opened Publication
  import opened Broadcaster
  import opened WriterSteps

  const WRITER_BATCH: nat := 1024

  ghost function TurnOf(book: OrderBook, manager: OptionChainManager, server: TcpBroadcastServer): Turn
    requires book.Valid() && manager.Valid()
    reads book, book.Repr, manager, manager.Repr, server
  {
    Turn(book.Model(), manager.Model(), server.Model())
  }

  /** The books, the chains and the server share no object. */
  ghost predicate Disjoint(book: OrderBook, manager: OptionChainManager, server: TcpBroadcastServer)
    reads book, manager
  {
    book.Repr !! manager.Repr && server !in book.Repr && server !in manager.Repr
  }

  // ---------------------------------------------------------------- market data

  lemma NoOps(solver: Solver, m: ManagerState)
    ensures ManagerFrom(solver, m, []) == m
  {
  }

  /** A published update moves the spot price of its underlying's chain, if both quotes are
      there, and has the chain snapshotted. */
  method UpdateChains(u: BboUpdate, solver: Solver, now: uint64, manager: OptionChainManager)
    returns (snapshot: Option<ChainSnapshot>, aborted: bool, ghost keys: seq<OptionContractKey>)
    requires manager.Valid()
    modifies manager.Repr
    ensures manager.Valid() && fresh(manager.Repr - old(manager.Repr))
    ensures manager.Model() == ManagerFrom(solver, old(manager.Model()), UpdateOps(Some(u), now))
    ensures UpdateSnapshot(manager.Model(), Mark(Some(u), snapshot, aborted, keys))
  {
    hide ManagerStep, ManagerFrom, MidPrice, SnapshotOutcome, OptionChainManager.Valid, OptionChainManager.Model;
    ghost var m := manager.Model();
    snapshot, aborted, keys := None, false, [];
    var mid := MidPrice(u.bbo);
    if mid.None? {
      NoOps(solver, m);
      return;
    }
    TwoOps(solver, m, SpotPrice(u.stock, mid.value, u.timestamp), Aggregate(u.stock, u.bbo, now));
    manager.UpdateSpotPrice(solver, u.stock, mid.value, u.timestamp);
    snapshot, aborted, keys := manager.AggregateSnapshot(solver, u.stock, u.bbo, now);
  }

  /** Offers a published update to the server, and then the snapshot it leads to. */
  method ServeUpdate(u: BboUpdate, env: Setting, now: uint64, manager: OptionChainManager, server: TcpBroadcastServer)
    returns (snapshot: Option<ChainSnapshot>, aborted: bool, ghost keys: seq<OptionContractKey>)
    requires manager.Valid() && server !in manager.Repr
    modifies manager.Repr, server
    ensures manager.Valid() && fresh(manager.Repr - old(manager.Repr))
    ensures manager.Model() == ManagerFrom(env.solver, old(manager.Model()), UpdateOps(Some(u), now))
    ensures UpdateSnapshot(manager.Model(), Mark(Some(u), snapshot, aborted, keys))
    ensures server.Model() == Served(old(server.Model()), Some(u), snapshot, env.bits)
  {
    hide ManagerFrom, UpdateOps, UpdateSnapshot, SnapshotBits, Enqueued, OptionEnqueued, OptionChainManager.Valid,
      OptionChainManager.Model;
    server.EnqueueBbo(u);
    snapshot, aborted, keys := UpdateChains(u, env.solver, now, manager);
    if snapshot.Some? {
      server.EnqueueOptionSnapshot(SnapshotBits(snapshot.value, env.bits));
    }
  }

  lemma NoUpdate(env: Setting, m: ManagerState, s: ServerState, now: uint64, keys: seq<OptionContractKey>)
    ensures ManagerFrom(env.solver, m, UpdateOps(None, now)) == m
    ensures UpdateSnapshot(m, Mark(None, None, false, keys)) && Served(s, None, None, env.bits) == s
  {
  }

  /** One market-data event: the books, the chains and both queues. */
  method ApplyMarketEvent(e: ItchEvent, env: Setting, now: uint64,
                          book: OrderBook, manager: OptionChainManager, server: TcpBroadcastServer)
    returns (out: Option<BboUpdate>, snapshot: Option<ChainSnapshot>, aborted: bool,
             ghost keys: seq<OptionContractKey>)
    requires book.Valid() && manager.Valid() && Disjoint(book, manager, server)
    modifies book.Repr, manager.Repr, server
    ensures book.Valid() && fresh(book.Repr - old(book.Repr))
    ensures manager.Valid() && fresh(manager.Repr - old(manager.Repr)) && Disjoint(book, manager, server)
    ensures MarketStep(env, old(TurnOf(book, manager, server)), e, now, Mark(out, snapshot, aborted, keys),
                       TurnOf(book, manager, server))
  {
    hide Next, ManagerFrom, UpdateOps, UpdateSnapshot, Served, OptionChainManager.Valid, OptionChainManager.Model,
      OrderBook.Valid, OrderBook.Model;
    out := book.ApplyEvent(e);
    ghost var g := book.Model();
    snapshot, aborted, keys := None, false, [];
    if out.None? {
      NoUpdate(env, manager.Model(), server.Model(), now, keys);
      return;
    }
    snapshot, aborted, keys := ServeUpdate(out.value, env, now, manager, server);
    assert book.Valid() && book.Model() == g;
  }

  // ---------------------------------------------------------------- option orders

  method ReadSpot(manager: OptionChainManager, u: uint64) returns (spot: real)
    requires manager.Valid()
    ensures spot == LastSpot(manager.Model(), u)
  {
    if u in manager.chains && manager.chains[u].lastSpotPrice.Some? {
      spot := manager.chains[u].lastSpotPrice.value;
    } else {
      spot := 0.0;
    }
  }

  /** An option order, and if it could be priced a snapshot of its chain. */
  method OrderAndSnapshot(key: OptionContractKey, a: OptionAction, env: Setting, now: uint64, later: uint64,
                          manager: OptionChainManager)
    returns (snapshot: Option<ChainSnapshot>, aborted: bool, ghost keys: seq<OptionContractKey>)
    requires manager.Valid()
    modifies manager.Repr
    ensures manager.Valid() && fresh(manager.Repr - old(manager.Repr))
    ensures var m := old(manager.Model());
      manager.Model() == ManagerFrom(env.solver, m, OrderOps(env, m, key, a, Reading(now, later)))
    ensures OrderSnapshot(env, old(manager.Model()), key, a, Reading(now, later), manager.Model(),
                          Mark(None, snapshot, aborted, keys))
  {
    hide ManagerFrom, ApplyOrder, SnapshotOutcome, OptionChainManager.Valid, OptionChainManager.Model;
    ghost var m := manager.Model();
    snapshot, aborted, keys := None, false, [];
    var greeks := manager.ApplyOptionOrderEvent(env.solver, key, a, now);
    ghost var m1 := manager.Model();
    if greeks.None? {
      OnlyOp(env.solver, m, OptionOrder(key, a, now));
      return;
    }
    var u := greeks.value.key.underlying;
    var spot := ReadSpot(manager, u);
    var quote := TickQuote(env.cut, spot);
    TwoOps(env.solver, m, OptionOrder(key, a, now), Aggregate(u, quote, later));
    snapshot, aborted, keys := manager.AggregateSnapshot(env.solver, u, quote, later);
  }

  /** One option order: the chains and the option queue. */
  method ApplyOptionEvent(key: OptionContractKey, a: OptionAction, env: Setting, now: uint64, later: uint64,
                          manager: OptionChainManager, server: TcpBroadcastServer, ghost g: Gateway)
    returns (snapshot: Option<ChainSnapshot>, aborted: bool, ghost keys: seq<OptionContractKey>)
    requires manager.Valid() && server !in manager.Repr
    modifies manager.Repr, server`optionQueue, server`optionDroppedCount
    ensures manager.Valid() && fresh(manager.Repr - old(manager.Repr)) && server !in manager.Repr
    ensures OptionStep(env, Turn(g, old(manager.Model()), old(server.Model())), key, a, Reading(now, later),
                       Mark(None, snapshot, aborted, keys), Turn(g, manager.Model(), server.Model()))
  {
    hide ManagerFrom, OrderOps, OrderSnapshot, SnapshotBits, OptionEnqueued, OptionChainManager.Valid,
      OptionChainManager.Model;
    snapshot, aborted, keys := OrderAndSnapshot(key, a, env, now, later, manager);
    if snapshot.Some? {
      server.EnqueueOptionSnapshot(SnapshotBits(snapshot.value, env.bits));
    }
  }

  // ---------------------------------------------------------------- batches

  ghost function MarketInputs(events: seq<ItchEvent>): (inputs: seq<Input>)
    ensures |inputs| == |events|
  {
    seq(|events|, i requires 0 <= i < |events| => Market(events[i]))
  }

  ghost function OrderInputs(orders: seq<(OptionContractKey, OptionAction)>): (inputs: seq<Input>)
    ensures |inputs| == |orders|
  {
    seq(|orders|, i requires 0 <= i < |orders| => OptionEvent(orders[i].0, orders[i].1))
  }

  lemma NextMarketInput(pending: seq<ItchEvent>, n: nat)
    requires n < |pending|
    ensures MarketInputs(pending[..n + 1]) == MarketInputs(pending[..n]) + [Market(pending[n])]
  {
  }

  lemma NextOrderInput(pending: seq<(OptionContractKey, OptionAction)>, n: nat)
    requires n < |pending|
    ensures OrderInputs(pending[..n + 1]) == OrderInputs(pending[..n]) + [OptionEvent(pending[n].0, pending[n].1)]
  {
  }

  /** Up to 1024 waiting events, in order, or up to the first that aborts: a run of the writer
      from its state before to its state after. */
  method ApplyMarketBatch(pending: seq<ItchEvent>, env: Setting, clock: nat -> Reading,
                          book: OrderBook, manager: OptionChainManager, server: TcpBroadcastServer)
    returns (rest: seq<ItchEvent>, aborted: bool, ghost turns: seq<Turn>, ghost marks: seq<Mark>)
    requires book.Valid() && manager.Valid() && Disjoint(book, manager, server)
    modifies book.Repr, manager.Repr, server
    ensures book.Valid() && manager.Valid() && Disjoint(book, manager, server)
    ensures fresh(book.Repr - old(book.Repr)) && fresh(manager.Repr - old(manager.Repr))
    ensures |marks| <= Min(1024, |pending|) && rest == pending[|marks|..]
    ensures !aborted ==> |marks| == Min(1024, |pending|)
    ensures IsWriterRun(env, turns, MarketInputs(pending[..|marks|]), Readings(clock, |marks|), marks)
    ensures turns[0] == old(TurnOf(book, manager, server)) && turns[|marks|] == TurnOf(book, manager, server)
    ensures AbortsLast(marks, aborted)
  {
    hide IsWriterRun, MarketStep, TurnOf, AbortsLast, MarketInputs, Readings, OptionChainManager.Valid, OrderBook.Valid;
    rest, aborted := pending, false;
    turns, marks := [TurnOf(book, manager, server)], [];
    assert pending[..0] == [];
    assert MarketInputs([]) == [];
    NothingRun(env, turns[0], clock);
    while |pending| - |rest| < WRITER_BATCH && rest != [] && !aborted
      invariant |marks| <= WRITER_BATCH && |marks| <= |pending| && rest == pending[|marks|..]
      invariant book.Valid() && manager.Valid() && Disjoint(book, manager, server)
      invariant fresh(book.Repr - old(book.Repr)) && fresh(manager.Repr - old(manager.Repr))
      invariant |turns| == |marks| + 1
      invariant IsWriterRun(env, turns, MarketInputs(pending[..|marks|]), Readings(clock, |marks|), marks)
      invariant turns[0] == old(TurnOf(book, manager, server)) && turns[|marks|] == TurnOf(book, manager, server)
      invariant AbortsLast(marks, aborted)
      decreases |rest|
    {
      ghost var n := |marks|;
      var e, at := rest[0], clock(|pending| - |rest|);
      var out, snapshot;
      ghost var keys;
      out, snapshot, aborted, keys := ApplyMarketEvent(e, env, at.snapshot, book, manager, server);
      ghost var mark, y := Mark(out, snapshot, aborted, keys), TurnOf(book, manager, server);
      NextMarketInput(pending, n);
      RunMore(env, clock, turns, MarketInputs(pending[..n]), marks, Market(e), mark, y);
      turns, marks := turns + [y], marks + [mark];
      rest := rest[1..];
    }
  }

  /** Up to 1024 waiting option orders, in the same way; the books, g, are left alone. */
  method ApplyOptionBatch(pending: seq<(OptionContractKey, OptionAction)>, env: Setting, clock: nat -> Reading,
                          manager: OptionChainManager, server: TcpBroadcastServer, ghost g: Gateway)
    returns (rest: seq<(OptionContractKey, OptionAction)>, aborted: bool, ghost turns: seq<Turn>,
             ghost marks: seq<Mark>)
    requires manager.Valid() && server !in manager.Repr
    modifies manager.Repr, server`optionQueue, server`optionDroppedCount
    ensures manager.Valid() && server !in manager.Repr && fresh(manager.Repr - old(manager.Repr))
    ensures |marks| <= Min(1024, |pending|) && rest == pending[|marks|..]
    ensures !aborted ==> |marks| == Min(1024, |pending|)
    ensures IsWriterRun(env, turns, OrderInputs(pending[..|marks|]), Readings(clock, |marks|), marks)
    ensures turns[0] == Turn(g, old(manager.Model()), old(server.Model()))
    ensures turns[|marks|] == Turn(g, manager.Model(), server.Model())
    ensures AbortsLast(marks, aborted)
  {
    hide IsWriterRun, OptionStep, AbortsLast, OrderInputs, Readings, OptionChainManager.Valid;
    rest, aborted := pending, false;
    turns, marks := [Turn(g, manager.Model(), server.Model())], [];
    assert pending[..0] == [] && OrderInputs([]) == [];
    NothingRun(env, turns[0], clock);
    while |pending| - |rest| < WRITER_BATCH && rest != [] && !aborted
      invariant |marks| <= WRITER_BATCH && |marks| <= |pending| && rest == pending[|marks|..]
      invariant manager.Valid() && server !in manager.Repr && fresh(manager.Repr - old(manager.Repr))
      invariant |turns| == |marks| + 1
      invariant IsWriterRun(env, turns, OrderInputs(pending[..|marks|]), Readings(clock, |marks|), marks)
      invariant turns[0] == Turn(g, old(manager.Model()), old(server.Model()))
      invariant turns[|marks|] == Turn(g, manager.Model(), server.Model())
      invariant AbortsLast(marks, aborted)
      decreases |rest|
    {
      ghost var n := |marks|;
      var (key, a) := rest[0];
      var at := clock(|pending| - |rest|);
      var snapshot;
      ghost var keys;
      snapshot, aborted, keys := ApplyOptionEvent(key, a, env, at.pricing, at.snapshot, manager, server, g);
      ghost var mark, y := Mark(None, snapshot, aborted, keys), Turn(g, manager.Model(), server.Model());
      NextOrderInput(pending, n);
      RunMore(env, clock, turns, OrderInputs(pending[..n]), marks, OptionEvent(key, a), mark, y);
      turns, marks := turns + [y], marks + [mark];
      rest := rest[1..];
    }
  }
}
