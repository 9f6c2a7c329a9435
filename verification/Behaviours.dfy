/** The methods of the writer and of the broadcast server take the steps of the publication
    system: an input of the writer is an Apply with what follows it, a pass of the broadcaster
    is its pops, a broadcast and a report. So what holds of every interleaving of single steps
    holds of the bytes these methods send. */
module Behaviours {
  import opened Words
  import opened Events
  import opened Bytes
  import opened Books
  import opened Gateways
  import opened OptionTypes
  import opened Options
  import opened Wire
  import opened Channels
  import opened Publication
  import opened WriterSteps

  // ---------------------------------------------------------------- chains of steps

  /** The steps lead from one state of the system to another. */
  ghost predicate Reaches(x: System, steps: seq<Step>, y: System)
    decreases |steps|
  {
    if steps == [] then x == y
    else
      var init, last := steps[..|steps| - 1], steps[|steps| - 1];
      exists z :: Reaches(x, init, z) && SystemStep(z, last, y)
  }

  lemma ReachesMore(x: System, steps: seq<Step>, y: System, s: Step, z: System)
    requires Reaches(x, steps, y) && SystemStep(y, s, z)
    ensures Reaches(x, steps + [s], z)
  {
    assert (steps + [s])[..|steps|] == steps;
  }

  lemma {:induction false} ReachesOn(x: System, steps: seq<Step>, y: System, more: seq<Step>, z: System)
    requires Reaches(x, steps, y) && Reaches(y, more, z)
    ensures Reaches(x, steps + more, z)
    decreases |more|
  {
    hide SystemStep;
    if more == [] {
      assert steps + more == steps;
    } else {
      var k := |more| - 1;
      var w :| Reaches(y, more[..k], w) && SystemStep(w, more[k], z);
      ReachesOn(x, steps, y, more[..k], w);
      ReachesMore(x, steps + more[..k], w, more[k], z);
      assert steps + more[..k] + [more[k]] == steps + more;
    }
  }

  lemma ReachesNone(x: System)
    ensures Reaches(x, [], x)
  {
  }

  lemma ReachesOne(x: System, s: Step, y: System)
    requires SystemStep(x, s, y)
    ensures Reaches(x, [s], y)
  {
    hide SystemStep, Reaches;
    ReachesNone(x);
    ReachesMore(x, [], x, s, y);
    assert [] + [s] == [s];
  }

  /** What is reached from the initial state is the end of a behaviour. */
  lemma {:induction false} ReachedByBehaviour(steps: seq<Step>, y: System) returns (states: seq<System>)
    requires Reaches(INITIAL, steps, y)
    ensures IsBehaviour(states, steps) && states[|steps|] == y
    decreases |steps|
  {
    hide SystemStep;
    if steps == [] {
      states := [y];
    } else {
      var k := |steps| - 1;
      var z :| Reaches(INITIAL, steps[..k], z) && SystemStep(z, steps[k], y);
      var before := ReachedByBehaviour(steps[..k], z);
      states := before + [y];
    }
  }

  // ---------------------------------------------------------------- the writer's steps

  /** The system between two inputs of the writer, as the books and the server show it. */
  ghost predicate Shows(x: System, g: Gateway, s: ServerState) {
    && x.gateway == g && Quiet(x)
    && x.updates.queue == s.broadcastQueue && x.updates.droppedCount == s.droppedCount
    && x.snapshots.queue == s.optionQueue && x.snapshots.droppedCount == s.optionDroppedCount
  }

  /** The writer leaves the broadcaster's own part of a channel alone. */
  ghost predicate SameTaken<T>(c: Channel<T>, c': Channel<T>) {
    c'.batch == c.batch && c'.reported == c.reported && c'.sent == c.sent
  }

  ghost predicate SameBroadcaster(x: System, y: System) {
    && SameTaken(x.updates, y.updates) && SameTaken(x.snapshots, y.snapshots)
    && y.stream == x.stream && y.messages == x.messages
  }

  function PublishedBy(mark: Mark): seq<BboUpdate> {
    if mark.out.Some? then [mark.out.value] else []
  }

  function OfferedBy(mark: Mark, bits: ToBits): seq<Snapshot> {
    if mark.snapshot.Some? then [SnapshotBits(mark.snapshot.value, bits)] else []
  }

  /** The steps of an event: its drop is counted when the update found the queue full. */
  function EventSteps(e: ItchEvent, out: Option<BboUpdate>, s: ServerState): seq<Step> {
    if out.Some? && |s.broadcastQueue| >= QUEUE_CAP then [Apply(e), CountDrop] else [Apply(e)]
  }

  function OfferSteps(a: Snapshot, s: ServerState): seq<Step> {
    if |s.optionQueue| >= OPTION_QUEUE_CAP then [OfferSnapshot(a), CountOptionDrop] else [OfferSnapshot(a)]
  }

  function SnapshotSteps(mark: Mark, s: ServerState, bits: ToBits): seq<Step> {
    match mark.snapshot
    case None => []
    case Some(a) => OfferSteps(SnapshotBits(a, bits), s)
  }

  /** The steps one input stands for. */
  function StepsOf(input: Input, mark: Mark, s: ServerState, bits: ToBits): seq<Step> {
    match input
    case Market(e) => EventSteps(e, mark.out, s) + SnapshotSteps(mark, s, bits)
    case OptionEvent(_, _) => SnapshotSteps(mark, s, bits)
  }

  lemma ApplyIsSteps(x: System, e: ItchEvent, g: Gateway, out: Option<BboUpdate>, s: ServerState) returns (y: System)
    requires Next(x.gateway, e, g, out) && Shows(x, x.gateway, s)
    ensures Reaches(x, EventSteps(e, out, s), y)
    ensures Shows(y, g, OfferedUpdate(s, out)) && SameBroadcaster(x, y) && y.snapshots == x.snapshots
    ensures Published(y.updates.log) == Published(x.updates.log) + if out.Some? then [out.value] else []
  {
    hide Next, Reaches;
    y := AfterApply(x, g, out);
    assert ApplyStep(x, e, y);
    ReachesOne(x, Apply(e), y);
    if out.Some? {
      var full := |x.updates.queue| >= QUEUE_CAP;
      LogGrows(x.updates.log, LogEntry(out.value, full));
      if full {
        var z := y.(updates := Counted(y.updates));
        ReachesMore(x, [Apply(e)], y, CountDrop, z);
        assert [Apply(e)] + [CountDrop] == [Apply(e), CountDrop];
        y := z;
      }
    }
  }

  lemma OfferIsSteps(x: System, s: ServerState, a: Snapshot) returns (y: System)
    requires Shows(x, x.gateway, s) && |a.contracts| <= MAX_CONTRACTS_PER_CHAIN
    ensures Reaches(x, OfferSteps(a, s), y)
    ensures Shows(y, x.gateway, OptionEnqueued(s, a)) && SameBroadcaster(x, y) && y.updates == x.updates
    ensures Published(y.snapshots.log) == Published(x.snapshots.log) + [a]
  {
    hide Reaches, Published, Survivors, Drops;
    y := x.(snapshots := Offered(x.snapshots, a, OPTION_QUEUE_CAP));
    LogGrows(x.snapshots.log, LogEntry(a, |x.snapshots.queue| >= OPTION_QUEUE_CAP));
    ReachesOne(x, OfferSnapshot(a), y);
    if |x.snapshots.queue| >= OPTION_QUEUE_CAP {
      var z := y.(snapshots := Counted(y.snapshots));
      ReachesMore(x, [OfferSnapshot(a)], y, CountOptionDrop, z);
      assert [OfferSnapshot(a)] + [CountOptionDrop] == [OfferSnapshot(a), CountOptionDrop];
      y := z;
    }
  }

  lemma SnapshotIsSteps(x: System, s: ServerState, mark: Mark, bits: ToBits) returns (y: System)
    requires Shows(x, x.gateway, s)
    requires mark.snapshot.Some? ==> |mark.snapshot.value.contracts| <= MAX_CONTRACTS_PER_CHAIN
    ensures Reaches(x, SnapshotSteps(mark, s, bits), y)
    ensures Shows(y, x.gateway, OfferedSnapshot(s, mark.snapshot, bits)) && SameBroadcaster(x, y)
    ensures y.updates == x.updates && Published(y.snapshots.log) == Published(x.snapshots.log) + OfferedBy(mark, bits)
  {
    hide Reaches, SnapshotBits, OfferSteps, OptionEnqueued, Published, Shows;
    match mark.snapshot
    case None =>
      y := x;
      ReachesNone(x);
      assert Published(x.snapshots.log) + [] == Published(x.snapshots.log);
    case Some(a) => y := OfferIsSteps(x, s, SnapshotBits(a, bits));
  }

  lemma SnapshotFits(env: Setting, x: Turn, input: Input, at: Reading, mark: Mark, y: Turn)
    requires WriterStep(env, x, input, at, mark, y)
    ensures mark.snapshot.Some? ==> |mark.snapshot.value.contracts| <= MAX_CONTRACTS_PER_CHAIN
  {
    hide Next, ManagerFrom, Served, IsSnapshot, ApplyOrder;
  }

  /** An option event publishes no update, so nothing is offered before its snapshot. */
  lemma NothingOffered(s: ServerState)
    ensures OfferedUpdate(s, None) == s
  {
  }

  lemma SameQueue(s: ServerState, out: Option<BboUpdate>, mark: Mark, bits: ToBits)
    ensures SnapshotSteps(mark, OfferedUpdate(s, out), bits) == SnapshotSteps(mark, s, bits)
  {
  }

  /** One input of the writer is a chain of its steps. */
  lemma InputIsSteps(env: Setting, x: Turn, input: Input, at: Reading, mark: Mark, y: Turn, sys: System)
    returns (sys': System)
    requires WriterStep(env, x, input, at, mark, y) && Shows(sys, x.gateway, x.server)
    ensures Reaches(sys, StepsOf(input, mark, x.server, env.bits), sys')
    ensures Shows(sys', y.gateway, y.server) && SameBroadcaster(sys, sys')
    ensures Published(sys'.updates.log) == Published(sys.updates.log) + PublishedBy(mark)
    ensures Published(sys'.snapshots.log) == Published(sys.snapshots.log) + OfferedBy(mark, env.bits)
  {
    hide Next, Reaches, ManagerFrom, SnapshotBits, UpdateSnapshot, OrderSnapshot, OfferedUpdate, OfferedSnapshot,
      Published, SnapshotSteps, EventSteps, OfferedBy, Quiet;
    SnapshotFits(env, x, input, at, mark, y);
    match input
    case Market(e) =>
      var mid := ApplyIsSteps(sys, e, y.gateway, mark.out, x.server);
      sys' := SnapshotIsSteps(mid, OfferedUpdate(x.server, mark.out), mark, env.bits);
      SameQueue(x.server, mark.out, mark, env.bits);
      ReachesOn(sys, EventSteps(e, mark.out, x.server), mid, SnapshotSteps(mark, x.server, env.bits), sys');
    case OptionEvent(_, _) =>
      NothingOffered(x.server);
      sys' := SnapshotIsSteps(sys, x.server, mark, env.bits);
      assert Published(sys.updates.log) + [] == Published(sys.updates.log);
  }

  // ---------------------------------------------------------------- the broadcaster's steps

  function PopsOf(n: nat): seq<Step> {
    seq(n, _ => PopUpdate)
  }

  function OptionPopsOf(n: nat): seq<Step> {
    seq(n, _ => PopSnapshot)
  }

  /** The steps of one pass. */
  function PassSteps(s: ServerState): seq<Step> {
    var n, m := Min(BATCH_SIZE, |s.broadcastQueue|), Min(MAX_OPTION_BATCH, |s.optionQueue|);
    PopsOf(n) + OptionPopsOf(m) + if n == 0 && m == 0 then [] else [Broadcast, Report, ReportOptions]
  }

  /** The channel after its n oldest items were popped. */
  function PoppedTimes<T>(c: Channel<T>, n: nat): Channel<T>
    requires n <= |c.queue|
  {
    c.(batch := c.batch + c.queue[..n], queue := c.queue[n..])
  }

  lemma PoppedOnce<T>(c: Channel<T>, n: nat)
    requires n < |c.queue|
    ensures |PoppedTimes(c, n).queue| > 0 && Popped(PoppedTimes(c, n)) == PoppedTimes(c, n + 1)
    ensures PoppedTimes(c, 0) == c
  {
    var q := c.queue;
    assert q[..n + 1] == q[..n] + [q[n]] && q[n..][0] == q[n] && q[n..][1..] == q[n + 1..];
    assert c.batch + q[..n] + [q[n]] == c.batch + q[..n + 1];
  }

  lemma {:induction false} PopsAreSteps(x: System, n: nat)
    requires x.updates.batch == [] && n <= |x.updates.queue| && n <= BATCH_SIZE
    ensures Reaches(x, PopsOf(n), x.(updates := PoppedTimes(x.updates, n)))
    decreases n
  {
    if n == 0 {
      assert PoppedTimes(x.updates, 0) == x.updates;
    } else {
      assert PopsOf(n) == PopsOf(n - 1) + [PopUpdate];
      PoppedOnce(x.updates, n - 1);
      var y, z := x.(updates := PoppedTimes(x.updates, n - 1)), x.(updates := PoppedTimes(x.updates, n));
      assert SystemStep(y, PopUpdate, z);
      hide Reaches, PopsOf, PoppedTimes, SystemStep;
      PopsAreSteps(x, n - 1);
      ReachesMore(x, PopsOf(n - 1), y, PopUpdate, z);
    }
  }

  lemma {:induction false} OptionPopsAreSteps(x: System, n: nat)
    requires x.snapshots.batch == [] && n <= |x.snapshots.queue| && n <= MAX_OPTION_BATCH
    ensures Reaches(x, OptionPopsOf(n), x.(snapshots := PoppedTimes(x.snapshots, n)))
    decreases n
  {
    if n == 0 {
      assert PoppedTimes(x.snapshots, 0) == x.snapshots;
    } else {
      assert OptionPopsOf(n) == OptionPopsOf(n - 1) + [PopSnapshot];
      PoppedOnce(x.snapshots, n - 1);
      var y, z := x.(snapshots := PoppedTimes(x.snapshots, n - 1)), x.(snapshots := PoppedTimes(x.snapshots, n));
      assert SystemStep(y, PopSnapshot, z);
      hide Reaches, OptionPopsOf, PoppedTimes, SystemStep;
      OptionPopsAreSteps(x, n - 1);
      ReachesMore(x, OptionPopsOf(n - 1), y, PopSnapshot, z);
    }
  }

  /** The broadcaster is between two passes. */
  ghost predicate AtRest(x: System) {
    x.updates.batch == [] && x.snapshots.batch == []
  }

  /** The system after a broadcast and the two reports. */
  function AfterSending(x: System): System {
    var sent := AfterBroadcast(x);
    sent.(updates := Reported(sent.updates), snapshots := Reported(sent.snapshots))
  }

  lemma SendingIsSteps(x: System)
    requires x.updates.batch != [] || x.snapshots.batch != []
    ensures Reaches(x, [Broadcast, Report, ReportOptions], AfterSending(x))
  {
    hide Reaches, AfterBroadcast, Reported;
    var sent := AfterBroadcast(x);
    var told := sent.(updates := Reported(sent.updates));
    assert SystemStep(x, Broadcast, sent) && SystemStep(sent, Report, told);
    assert SystemStep(told, ReportOptions, AfterSending(x));
    hide SystemStep, AfterSending;
    ReachesOne(x, Broadcast, sent);
    ReachesMore(x, [Broadcast], sent, Report, told);
    assert [Broadcast] + [Report] == [Broadcast, Report];
    ReachesMore(x, [Broadcast, Report], told, ReportOptions, AfterSending(x));
    assert [Broadcast, Report] + [ReportOptions] == [Broadcast, Report, ReportOptions];
  }

  /** The system when a pass has taken its batches. */
  function Taken(x: System, n: nat, m: nat): System
    requires n <= |x.updates.queue| && m <= |x.snapshots.queue|
  {
    x.(updates := PoppedTimes(x.updates, n), snapshots := PoppedTimes(x.snapshots, m))
  }

  lemma TakingIsSteps(x: System, n: nat, m: nat)
    requires AtRest(x) && n <= |x.updates.queue| && n <= BATCH_SIZE
    requires m <= |x.snapshots.queue| && m <= MAX_OPTION_BATCH
    ensures Reaches(x, PopsOf(n) + OptionPopsOf(m), Taken(x, n, m))
    ensures var y := Taken(x, n, m);
      && y.updates == x.updates.(batch := x.updates.queue[..n], queue := x.updates.queue[n..])
      && y.snapshots == x.snapshots.(batch := x.snapshots.queue[..m], queue := x.snapshots.queue[m..])
  {
    hide Reaches;
    PopsAreSteps(x, n);
    var popped := x.(updates := PoppedTimes(x.updates, n));
    OptionPopsAreSteps(popped, m);
    ReachesOn(x, PopsOf(n), popped, OptionPopsOf(m), Taken(x, n, m));
  }

  lemma TakenAlone(x: System, n: nat, m: nat)
    requires n <= |x.updates.queue| && m <= |x.snapshots.queue|
    ensures Taken(x, n, m).gateway == x.gateway && Taken(x, n, m).stream == x.stream
  {
  }

  /** One pass is a chain of the broadcaster's steps that sends the same bytes and reports the
      same drops. */
  lemma PassIsSteps(x: System, s: ServerState, s': ServerState, data: Bytes, dropped: uint64, optionDropped: uint64)
    returns (y: System)
    requires PassOutcome(s, s', data, dropped, optionDropped) && Shows(x, x.gateway, s) && AtRest(x)
    ensures Reaches(x, PassSteps(s), y)
    ensures Shows(y, x.gateway, s') && AtRest(y) && y.updates.log == x.updates.log && y.snapshots.log == x.snapshots.log
    ensures y.stream == x.stream + data
    ensures y.updates.reported == x.updates.reported + dropped
    ensures y.snapshots.reported == x.snapshots.reported + optionDropped
  {
    hide Reaches, EncodeBatch, BatchMessages, Taken, PopsOf, OptionPopsOf;
    var n, m := Min(BATCH_SIZE, |s.broadcastQueue|), Min(MAX_OPTION_BATCH, |s.optionQueue|);
    TakingIsSteps(x, n, m);
    y := Taken(x, n, m);
    assert y.gateway == x.gateway && y.stream == x.stream by { TakenAlone(x, n, m); }
    if n == 0 && m == 0 {
      assert EncodeBatch([], []) == [] by { EmptyBatch(); }
      assert x.stream + [] == x.stream && y.updates == x.updates && y.snapshots == x.snapshots;
      assert PassSteps(s) == PopsOf(n) + OptionPopsOf(m);
    } else {
      SendingIsSteps(y);
      ReachesOn(x, PopsOf(n) + OptionPopsOf(m), y, [Broadcast, Report, ReportOptions], AfterSending(y));
      y := AfterSending(y);
    }
  }

  // ---------------------------------------------------------------- whole runs

  /** A turn of either side, each run to its end before the next begins. */
  datatype Act =
    | Write(input: Input, at: Reading, mark: Mark)
    | Pass(data: Bytes, dropped: uint64, optionDropped: uint64)

  ghost predicate ActStep(env: Setting, x: Turn, act: Act, y: Turn) {
    match act
    case Write(input, at, mark) => WriterStep(env, x, input, at, mark, y)
    case Pass(data, dropped, optionDropped) =>
      && y.gateway == x.gateway && y.manager == x.manager
      && PassOutcome(x.server, y.server, data, dropped, optionDropped)
  }

  /** The gateway from empty books and queues. Its option chains may be any: the gateway itself
      starts with none, a caller of the library may have registered contracts. */
  ghost predicate IsGatewayRun(env: Setting, turns: seq<Turn>, acts: seq<Act>) {
    && |turns| == |acts| + 1
    && turns[0].gateway == EMPTY_GATEWAY && turns[0].server == ServerState([], [], 0, 0)
    && forall i :: 0 <= i < |acts| ==> ActStep(env, turns[i], acts[i], turns[i + 1])
  }

  /** What a run offers to the queues and what leaves them. */
  datatype Traffic = Traffic(
    published: seq<BboUpdate>, snapshots: seq<Snapshot>, bytes: Bytes, reported: nat, optionReported: nat)

  function AddAct(t: Traffic, act: Act, bits: ToBits): Traffic {
    match act
    case Write(_, _, mark) =>
      t.(published := t.published + PublishedBy(mark), snapshots := t.snapshots + OfferedBy(mark, bits))
    case Pass(data, dropped, optionDropped) =>
      t.(bytes := t.bytes + data, reported := t.reported + dropped, optionReported := t.optionReported + optionDropped)
  }

  function TrafficOf(acts: seq<Act>, bits: ToBits): Traffic {
    if acts == [] then Traffic([], [], [], 0, 0)
    else AddAct(TrafficOf(acts[..|acts| - 1], bits), acts[|acts| - 1], bits)
  }

  ghost predicate Carries(x: System, t: Traffic) {
    && Published(x.updates.log) == t.published && Published(x.snapshots.log) == t.snapshots
    && x.stream == t.bytes && x.updates.reported == t.reported && x.snapshots.reported == t.optionReported
  }

  lemma ActIsSteps(env: Setting, x: Turn, act: Act, y: Turn, sys: System, t: Traffic)
    returns (steps: seq<Step>, sys': System)
    requires ActStep(env, x, act, y) && Shows(sys, x.gateway, x.server) && AtRest(sys) && Carries(sys, t)
    ensures Reaches(sys, steps, sys') && Shows(sys', y.gateway, y.server) && AtRest(sys')
    ensures Carries(sys', AddAct(t, act, env.bits))
  {
    hide Reaches, WriterStep, PassOutcome, StepsOf, PassSteps, Published, PublishedBy, OfferedBy, Quiet;
    match act
    case Write(input, at, mark) =>
      steps := StepsOf(input, mark, x.server, env.bits);
      sys' := InputIsSteps(env, x, input, at, mark, y, sys);
    case Pass(data, dropped, optionDropped) =>
      steps := PassSteps(x.server);
      sys' := PassIsSteps(sys, x.server, y.server, data, dropped, optionDropped);
  }

  lemma RunInit(env: Setting, turns: seq<Turn>, acts: seq<Act>)
    requires IsGatewayRun(env, turns, acts) && acts != []
    ensures |turns| == |acts| + 1 && IsGatewayRun(env, turns[..|acts|], acts[..|acts| - 1])
    ensures ActStep(env, turns[|acts| - 1], acts[|acts| - 1], turns[|acts|])
  {
    hide ActStep;
  }

  lemma NothingCarried(bits: ToBits)
    ensures Carries(INITIAL, TrafficOf([], bits)) && AtRest(INITIAL)
    ensures Shows(INITIAL, EMPTY_GATEWAY, ServerState([], [], 0, 0))
  {
  }

  /** The system shows a run's last turn, and carries its traffic. */
  ghost predicate Mirrors(sys: System, turn: Turn, t: Traffic) {
    Shows(sys, turn.gateway, turn.server) && AtRest(sys) && Carries(sys, t)
  }

  lemma StartIsMirrored(env: Setting, turns: seq<Turn>)
    requires IsGatewayRun(env, turns, [])
    ensures Reaches(INITIAL, [], INITIAL) && Mirrors(INITIAL, turns[0], TrafficOf([], env.bits))
  {
    ReachesNone(INITIAL);
    NothingCarried(env.bits);
  }

  lemma ActIsMirrored(env: Setting, x: Turn, act: Act, y: Turn, before: seq<Step>, mid: System, t: Traffic)
    returns (steps: seq<Step>, sys: System)
    requires ActStep(env, x, act, y) && Reaches(INITIAL, before, mid) && Mirrors(mid, x, t)
    ensures Reaches(INITIAL, steps, sys) && Mirrors(sys, y, AddAct(t, act, env.bits))
  {
    hide ActStep, Reaches, Shows, AtRest, Carries, AddAct;
    var more;
    more, sys := ActIsSteps(env, x, act, y, mid, t);
    steps := before + more;
    ReachesOn(INITIAL, before, mid, more, sys);
  }

  /** Every run of the gateway's methods is a behaviour of the publication system, with the
      same traffic. */
  lemma {:induction false} RunIsBehaviour(env: Setting, turns: seq<Turn>, acts: seq<Act>)
    returns (steps: seq<Step>, sys: System)
    requires IsGatewayRun(env, turns, acts)
    ensures Reaches(INITIAL, steps, sys) && Mirrors(sys, turns[|acts|], TrafficOf(acts, env.bits))
    decreases |acts|
  {
    hide ActStep, Reaches, Mirrors, AddAct;
    if acts == [] {
      StartIsMirrored(env, turns);
      steps, sys := [], INITIAL;
    } else {
      var k := |acts| - 1;
      RunInit(env, turns, acts);
      hide IsGatewayRun;
      var before, mid := RunIsBehaviour(env, turns[..k + 1], acts[..k]);
      steps, sys := ActIsMirrored(env, turns[k], acts[k], turns[k + 1], before, mid, TrafficOf(acts[..k], env.bits));
    }
  }

  lemma ReachedInv(steps: seq<Step>, x: System)
    requires Reaches(INITIAL, steps, x)
    ensures Inv(x)
  {
    hide Inv, Reaches, SystemStep;
    var states := ReachedByBehaviour(steps, x);
    BehaviourKeepsInv(states, steps);
  }

  /** A pass may always be made: no snapshot in the queue is larger than its frame allows. */
  lemma RunKeepsCapacity(env: Setting, turns: seq<Turn>, acts: seq<Act>)
    requires IsGatewayRun(env, turns, acts)
    ensures |turns| == |acts| + 1 && WithinCapacity(turns[|acts|].server.optionQueue)
  {
    assert |turns| == |acts| + 1;
    hide IsGatewayRun, Reaches, NumberedStock, Sound, DecodesTo;
    var steps, sys := RunIsBehaviour(env, turns, acts);
    ReachedInv(steps, sys);
  }

  // ---------------------------------------------------------------- what was sent accounts for it

  /** The bytes decode, and the gaps in what they hold for a stock are what the log dropped. */
  ghost predicate Explains(log: seq<LogEntry<BboUpdate>>, bytes: Bytes, stock: uint64) {
    && DecodeStream(bytes).Some?
    && var received := ViewsFor(SpotViews(DecodeStream(bytes).value), stock);
       AccountsFor(received, Positions(LogOf(log, stock)), LogOf(log, stock))
       && GapsAreDrops(received, Positions(LogOf(log, stock)), LogOf(log, stock))
  }

  ghost predicate IsFirst(chains: seq<Message>, snaps: seq<Snapshot>, n: nat) {
    n <= |snaps| && chains == ChainMessages(snaps[..n])
  }

  /** The bytes decode, and their option messages are the first of the snapshots that were not
      dropped, in order. */
  ghost predicate HoldsFirst(log: seq<LogEntry<Snapshot>>, bytes: Bytes) {
    DecodeStream(bytes).Some? && exists n :: IsFirst(Chains(DecodeStream(bytes).value), Survivors(log), n)
  }

  /** The log has as many drops as were reported or are still counted. */
  ghost predicate CountsDrops<T>(log: seq<LogEntry<T>>, reported: nat, droppedCount: uint64) {
    (reported + droppedCount) % TWO_64 == Drops(log) % TWO_64
  }

  lemma ReachedAccounts(steps: seq<Step>, x: System, stock: uint64)
    requires Reaches(INITIAL, steps, x)
    ensures Explains(x.updates.log, x.stream, stock) && HoldsFirst(x.snapshots.log, x.stream)
  {
    hide Reaches, SystemStep, DecodeStream, AccountsFor, GapsAreDrops, LogOf, Positions, ViewsFor, SpotViews, Chains,
      ChainMessages, Survivors;
    var states := ReachedByBehaviour(steps, x);
    LossIsDetectable(states, steps, stock);
    SnapshotsInOrder(states, steps);
    var sent, all := x.snapshots.sent, Survivors(x.snapshots.log);
    assert sent == all[..|sent|];
    assert IsFirst(Chains(DecodeStream(x.stream).value), all, |sent|);
  }

  lemma ReachedReports(steps: seq<Step>, x: System)
    requires Reaches(INITIAL, steps, x) && Quiet(x)
    ensures CountsDrops(x.updates.log, x.updates.reported, x.updates.droppedCount)
    ensures CountsDrops(x.snapshots.log, x.snapshots.reported, x.snapshots.droppedCount)
  {
    hide Reaches, Drops, InOrder, Decodable, NumberedStock;
    ReachedInv(steps, x);
  }

  /** So the bytes the methods send decode, and what a subscriber finds in them for a stock
      accounts exactly for what the books published for it: a log of what was published, with as
      many drops as were reported or are still counted, explains every gap in the numbers. The
      option messages are the snapshots offered, but for as many drops, in order. */
  lemma SentBytesAccount(env: Setting, turns: seq<Turn>, acts: seq<Act>, stock: uint64)
    returns (log: seq<LogEntry<BboUpdate>>, optionLog: seq<LogEntry<Snapshot>>)
    requires IsGatewayRun(env, turns, acts)
    ensures var t := TrafficOf(acts, env.bits);
      && Published(log) == t.published && Explains(log, t.bytes, stock)
      && Published(optionLog) == t.snapshots && HoldsFirst(optionLog, t.bytes)
    ensures var t := TrafficOf(acts, env.bits);
      && |turns| == |acts| + 1
      && CountsDrops(log, t.reported, turns[|acts|].server.droppedCount)
      && CountsDrops(optionLog, t.optionReported, turns[|acts|].server.optionDroppedCount)
  {
    assert |turns| == |acts| + 1;
    hide IsGatewayRun, Reaches, Published, TrafficOf, Explains, HoldsFirst, CountsDrops;
    var steps, sys := RunIsBehaviour(env, turns, acts);
    ReachedReports(steps, sys);
    ReachedAccounts(steps, sys, stock);
    log, optionLog := sys.updates.log, sys.snapshots.log;
  }

  // ---------------------------------------------------------------- the gateway as it is started

  lemma ActWithoutContracts(env: Setting, x: Turn, act: Act, y: Turn)
    requires ActStep(env, x, act, y) && NoContracts(x.manager)
    ensures NoContracts(y.manager) && (act.Write? ==> NoSnapshot(act.mark))
  {
    hide WriterStep, NoContracts, PassOutcome;
    if act.Write? {
      InputWithoutContracts(env, x, act.input, act.at, act.mark, y);
    }
  }

  /** No act of the run aborted the writer. */
  predicate NeverAborts(acts: seq<Act>) {
    forall i :: 0 <= i < |acts| && acts[i].Write? ==> !acts[i].mark.aborted
  }

  lemma OneMoreAct(acts: seq<Act>)
    requires acts != [] && NeverAborts(acts[..|acts| - 1])
    requires acts[|acts| - 1].Write? ==> !acts[|acts| - 1].mark.aborted
    ensures NeverAborts(acts)
  {
    var k := |acts| - 1;
    assert forall i :: 0 <= i < k ==> acts[..k][i] == acts[i];
  }

  lemma NothingAdded(t: Traffic, act: Act, bits: ToBits)
    requires act.Write? ==> act.mark.snapshot == None
    ensures AddAct(t, act, bits).snapshots == t.snapshots
  {
    hide PublishedBy;
  }

  /** Without contracts nothing is ever offered to the option queue. */
  lemma {:induction false} NothingForOptions(env: Setting, turns: seq<Turn>, acts: seq<Act>)
    requires IsGatewayRun(env, turns, acts) && NoContracts(turns[0].manager)
    ensures NoContracts(turns[|acts|].manager) && TrafficOf(acts, env.bits).snapshots == [] && NeverAborts(acts)
    decreases |acts|
  {
    if acts != [] {
      var k := |acts| - 1;
      RunInit(env, turns, acts);
      hide IsGatewayRun, ActStep, NoContracts, AddAct, NeverAborts;
      NothingForOptions(env, turns[..k + 1], acts[..k]);
      ActWithoutContracts(env, turns[k], acts[k], turns[k + 1]);
      OneMoreAct(acts);
      NothingAdded(TrafficOf(acts[..k], env.bits), acts[k], env.bits);
    }
  }

  lemma {:induction false} NothingSurvives(log: seq<LogEntry<Snapshot>>)
    requires Published(log) == []
    ensures Survivors(log) == []
  {
    if log != [] { PublishedAt(log, 0); }
  }

  /** The gateway's own writer starts with an empty manager, and nothing but registering brings
      in a contract: the stream it sends never holds an option message. */
  lemma GatewaySendsNoOptions(env: Setting, turns: seq<Turn>, acts: seq<Act>, rate: real)
    requires IsGatewayRun(env, turns, acts) && turns[0].manager == ManagerState(map[], rate)
    ensures var bytes := TrafficOf(acts, env.bits).bytes;
      DecodeStream(bytes).Some? && Chains(DecodeStream(bytes).value) == []
    ensures NeverAborts(acts)
  {
    assert NoContracts(turns[0].manager);
    NothingForOptions(env, turns, acts);
    hide IsGatewayRun, Reaches, Published, TrafficOf, DecodeStream, Chains;
    var log, optionLog := SentBytesAccount(env, turns, acts, 0);
    NothingSurvives(optionLog);
  }
}
