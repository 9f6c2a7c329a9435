/** The publication path as a state machine: one writer and one broadcaster, interleaved in
    any way, joined by bounded queues that drop what they cannot take. */
module Publication {
  import opened Words
  import opened Events
  import opened Bytes
  import opened Books
  import opened Gateways
  import opened Histories
  import opened OptionTypes
  import opened Wire
  import opened Channels

  const QUEUE_CAP: nat := 32768
  const OPTION_QUEUE_CAP: nat := 8192
  const BATCH_SIZE: nat := 64
  const MAX_OPTION_BATCH: nat := 16

  /** The broadcast server as a value: its two queues and their drop counters. */
  datatype ServerState = ServerState(
    broadcastQueue: seq<BboUpdate>, optionQueue: seq<Snapshot>, droppedCount: uint64, optionDroppedCount: uint64)

  /** A drop count after something was offered to a queue of this length. */
  function CountIfFull(count: uint64, length: nat, capacity: nat): uint64 {
    if length < capacity then count else WrapAdd64(count, 1)
  }

  function Enqueued(s: ServerState, u: BboUpdate): ServerState {
    s.(broadcastQueue := Offer(s.broadcastQueue, u, QUEUE_CAP),
       droppedCount := CountIfFull(s.droppedCount, |s.broadcastQueue|, QUEUE_CAP))
  }

  function OptionEnqueued(s: ServerState, a: Snapshot): ServerState {
    s.(optionQueue := Offer(s.optionQueue, a, OPTION_QUEUE_CAP),
       optionDroppedCount := CountIfFull(s.optionDroppedCount, |s.optionQueue|, OPTION_QUEUE_CAP))
  }

  /** One pass of the broadcaster with the writer quiet: the oldest updates and snapshots leave
      the queues in order and are encoded; the drop counts are taken if anything was sent. */
  ghost predicate PassOutcome(s: ServerState, s': ServerState, data: Bytes, dropped: uint64, optionDropped: uint64) {
    var n, m := Min(BATCH_SIZE, |s.broadcastQueue|), Min(MAX_OPTION_BATCH, |s.optionQueue|);
    && s'.broadcastQueue == s.broadcastQueue[n..] && s'.optionQueue == s.optionQueue[m..]
    && data == EncodeBatch(s.broadcastQueue[..n], s.optionQueue[..m])
    && if s.broadcastQueue == [] && s.optionQueue == [] then
         && dropped == optionDropped == 0
         && s'.droppedCount == s.droppedCount && s'.optionDroppedCount == s.optionDroppedCount
       else
         && dropped == s.droppedCount && optionDropped == s.optionDroppedCount
         && s'.droppedCount == s'.optionDroppedCount == 0
  }

  // ---------------------------------------------------------------- the state machine

  /** The last field is history: the messages the broadcast bytes carry. */
  datatype System = System(
    gateway: Gateway, updates: Channel<BboUpdate>, snapshots: Channel<Snapshot>,
    stream: Bytes, messages: seq<Message>)

  const INITIAL := System(EMPTY_GATEWAY, EmptyChannel<BboUpdate>(), EmptyChannel<Snapshot>(), [], [])

  datatype Step =
    | Apply(e: ItchEvent)
    | CountDrop
    | OfferSnapshot(snapshot: Snapshot)
    | CountOptionDrop
    | PopUpdate
    | PopSnapshot
    | Broadcast
    | Report
    | ReportOptions

  /** The writer has no drop left to count. */
  predicate Quiet(x: System) {
    !x.updates.counting && !x.snapshots.counting
  }

  function AfterApply(x: System, g: Gateway, out: Option<BboUpdate>): System {
    match out
    case None => x.(gateway := g)
    case Some(u) => x.(gateway := g, updates := Offered(x.updates, u, QUEUE_CAP))
  }

  /** The writer applies one event and offers the update it may publish. */
  ghost predicate ApplyStep(x: System, e: ItchEvent, y: System) {
    Quiet(x) && exists out :: Next(x.gateway, e, y.gateway, out) && y == AfterApply(x, y.gateway, out)
  }

  function AfterBroadcast(x: System): System {
    var us, snaps := x.updates.batch, x.snapshots.batch;
    x.(updates := Flushed(x.updates), snapshots := Flushed(x.snapshots),
       stream := x.stream + EncodeBatch(us, snaps), messages := x.messages + BatchMessages(us, snaps))
  }

  /** One step of either thread. Pops, the broadcast and the two drop reports are separate
      steps, and so are an offer and the count of its drop, so the other thread may run between
      any two of them. */
  ghost predicate SystemStep(x: System, s: Step, y: System) {
    match s
    case Apply(e) => ApplyStep(x, e, y)
    case CountDrop => x.updates.counting && y == x.(updates := Counted(x.updates))
    case OfferSnapshot(a) =>
      && Quiet(x) && |a.contracts| <= MAX_CONTRACTS_PER_CHAIN
      && y == x.(snapshots := Offered(x.snapshots, a, OPTION_QUEUE_CAP))
    case CountOptionDrop => x.snapshots.counting && y == x.(snapshots := Counted(x.snapshots))
    case PopUpdate =>
      |x.updates.batch| < BATCH_SIZE && x.updates.queue != [] && y == x.(updates := Popped(x.updates))
    case PopSnapshot =>
      |x.snapshots.batch| < MAX_OPTION_BATCH && x.snapshots.queue != [] && y == x.(snapshots := Popped(x.snapshots))
    case Broadcast =>
      (x.updates.batch != [] || x.snapshots.batch != []) && y == AfterBroadcast(x)
    case Report => y == x.(updates := Reported(x.updates))
    case ReportOptions => y == x.(snapshots := Reported(x.snapshots))
  }

  // ---------------------------------------------------------------- the log of one stock

  function LogOf(log: seq<LogEntry<BboUpdate>>, stock: uint64): seq<LogEntry<BboUpdate>> {
    if log == [] then []
    else LogOf(log[..|log| - 1], stock) + if log[|log| - 1].item.stock == stock then [log[|log| - 1]] else []
  }

  function OfStock(us: seq<BboUpdate>, stock: uint64): seq<BboUpdate> {
    if us == [] then []
    else OfStock(us[..|us| - 1], stock) + if us[|us| - 1].stock == stock then [us[|us| - 1]] else []
  }

  lemma LogOfAppend(log: seq<LogEntry<BboUpdate>>, x: LogEntry<BboUpdate>, stock: uint64)
    ensures LogOf(log + [x], stock) == LogOf(log, stock) + if x.item.stock == stock then [x] else []
  {
  }

  lemma {:induction false} OfStockConcat(a: seq<BboUpdate>, b: seq<BboUpdate>, stock: uint64)
    ensures OfStock(a + b, stock) == OfStock(a, stock) + OfStock(b, stock)
    decreases |b|
  {
    if b == [] {
      assert a + b == a;
    } else {
      assert (a + b)[..|a + b| - 1] == a + b[..|b| - 1];
      OfStockConcat(a, b[..|b| - 1], stock);
    }
  }

  lemma OneOfStock(u: BboUpdate, stock: uint64)
    ensures OfStock([u], stock) == if u.stock == stock then [u] else []
  {
  }

  lemma {:induction false} SurvivorsOfStock(log: seq<LogEntry<BboUpdate>>, stock: uint64)
    ensures Survivors(LogOf(log, stock)) == OfStock(Survivors(log), stock)
    decreases |log|
  {
    if log != [] {
      var before, x := log[..|log| - 1], log[|log| - 1];
      SurvivorsOfStock(before, stock);
      if x.dropped {
        assert Survivors(log) == Survivors(before);
      } else {
        OfStockConcat(Survivors(before), [x.item], stock);
        OneOfStock(x.item, stock);
      }
      if x.item.stock == stock {
        LogGrows(LogOf(before, stock), x);
      } else {
        assert LogOf(log, stock) == LogOf(before, stock);
      }
    }
  }

  // ---------------------------------------------------------------- the messages of a stream

  function SpotViews(ms: seq<Message>): seq<SpotView> {
    if ms == [] then []
    else SpotViews(ms[..|ms| - 1]) + if ms[|ms| - 1].Spot? then [ms[|ms| - 1].view] else []
  }

  /** The option messages of a stream, in order. */
  function Chains(ms: seq<Message>): seq<Message> {
    if ms == [] then []
    else Chains(ms[..|ms| - 1]) + if ms[|ms| - 1].Chain? then [ms[|ms| - 1]] else []
  }

  function Views(us: seq<BboUpdate>): seq<SpotView> {
    if us == [] then [] else Views(us[..|us| - 1]) + [ViewOf(us[|us| - 1])]
  }

  lemma {:induction false} MessagesConcat(a: seq<Message>, b: seq<Message>)
    ensures SpotViews(a + b) == SpotViews(a) + SpotViews(b) && Chains(a + b) == Chains(a) + Chains(b)
    decreases |b|
  {
    if b == [] {
      assert a + b == a;
    } else {
      assert (a + b)[..|a + b| - 1] == a + b[..|b| - 1];
      MessagesConcat(a, b[..|b| - 1]);
    }
  }

  lemma {:induction false} ViewsConcat(a: seq<BboUpdate>, b: seq<BboUpdate>)
    ensures Views(a + b) == Views(a) + Views(b)
    decreases |b|
  {
    if b == [] {
      assert a + b == a;
    } else {
      assert (a + b)[..|a + b| - 1] == a + b[..|b| - 1];
      ViewsConcat(a, b[..|b| - 1]);
    }
  }

  lemma {:induction false} SpotMessagesViews(us: seq<BboUpdate>)
    ensures SpotViews(SpotMessages(us)) == Views(us) && Chains(SpotMessages(us)) == []
    decreases |us|
  {
    hide ViewOf;
    if us != [] {
      SpotMessagesViews(us[..|us| - 1]);
      assert SpotMessages(us)[..|us| - 1] == SpotMessages(us[..|us| - 1]);
    }
  }

  lemma {:induction false} ChainMessagesViews(snaps: seq<Snapshot>)
    ensures SpotViews(ChainMessages(snaps)) == [] && Chains(ChainMessages(snaps)) == ChainMessages(snaps)
    decreases |snaps|
  {
    hide SnapshotFields, ContractViews;
    if snaps != [] {
      ChainMessagesViews(snaps[..|snaps| - 1]);
      assert ChainMessages(snaps)[..|snaps| - 1] == ChainMessages(snaps[..|snaps| - 1]);
    }
  }

  lemma ChainMessagesConcat(a: seq<Snapshot>, b: seq<Snapshot>)
    ensures ChainMessages(a + b) == ChainMessages(a) + ChainMessages(b)
  {
  }

  // ---------------------------------------------------------------- the invariant

  /** The bytes broadcast so far decode to the messages sent; the spot updates among them are
      exactly the updates sent, and the option messages the snapshots sent, in order. */
  ghost predicate Decodable(x: System) {
    && DecodesTo(x.stream, x.messages)
    && SpotViews(x.messages) == Views(x.updates.sent)
    && Chains(x.messages) == ChainMessages(x.snapshots.sent)
    && WithinCapacity(x.snapshots.queue) && WithinCapacity(x.snapshots.batch)
  }

  ghost predicate NumberedStock(x: System, stock: uint64) {
    TrackedStock(x.gateway, stock, Published(LogOf(x.updates.log, stock)))
  }

  ghost predicate Inv(x: System) {
    && Sound(x.updates) && Sound(x.snapshots)
    && Decodable(x)
    && forall s :: NumberedStock(x, s)
  }

  lemma BatchViews(us: seq<BboUpdate>, snaps: seq<Snapshot>)
    ensures SpotViews(BatchMessages(us, snaps)) == Views(us)
    ensures Chains(BatchMessages(us, snaps)) == ChainMessages(snaps)
  {
    hide SpotViews, Chains, Views, SpotMessages, ChainMessages;
    MessagesConcat(SpotMessages(us), ChainMessages(snaps));
    SpotMessagesViews(us);
    ChainMessagesViews(snaps);
  }

  lemma BroadcastKeepsDecodable(x: System)
    requires Decodable(x)
    ensures Decodable(AfterBroadcast(x))
  {
    hide DecodesTo, EncodeBatch, BatchMessages, SpotViews, Chains, Views, SpotMessages, ChainMessages;
    var us, snaps := x.updates.batch, x.snapshots.batch;
    BatchDecodes(us, snaps);
    DecodesConcat(x.stream, x.messages, EncodeBatch(us, snaps), BatchMessages(us, snaps));
    MessagesConcat(x.messages, BatchMessages(us, snaps));
    BatchViews(us, snaps);
    ViewsConcat(x.updates.sent, us);
    ChainMessagesConcat(x.snapshots.sent, snaps);
  }

  /** The published history of one stock grows by the updates that name it. */
  lemma HistoryAppend(log: seq<LogEntry<BboUpdate>>, x: LogEntry<BboUpdate>, s: uint64)
    ensures Published(LogOf(log + [x], s))
         == if x.item.stock == s then Published(LogOf(log, s)) + [x.item] else Published(LogOf(log, s))
  {
    LogOfAppend(log, x, s);
    LogGrows(LogOf(log, s), x);
    assert x.item.stock != s ==> LogOf(log + [x], s) == LogOf(log, s);
  }

  lemma ApplyKeepsNumbers(x: System, e: ItchEvent, g: Gateway, out: Option<BboUpdate>, s: uint64)
    requires Next(x.gateway, e, g, out) && forall t :: NumberedStock(x, t)
    ensures NumberedStock(AfterApply(x, g, out), s)
  {
    hide Next, TrackedStock, Published, LogOf;
    var history := (t: uint64) => Published(LogOf(x.updates.log, t));
    forall t ensures TrackedStock(x.gateway, t, history(t)) {
      assert NumberedStock(x, t);
    }
    TrackedStockStep(x.gateway, e, g, out, history, s);
    if out.Some? {
      HistoryAppend(x.updates.log, LogEntry(out.value, |x.updates.queue| >= QUEUE_CAP), s);
    }
  }

  lemma ApplyKeepsInv(x: System, e: ItchEvent, y: System)
    requires Inv(x) && ApplyStep(x, e, y)
    ensures Inv(y)
  {
    hide Next, Sound, DecodesTo, SpotViews, Chains, Views, ChainMessages, TrackedStock, Published, LogOf;
    var out :| Next(x.gateway, e, y.gateway, out) && y == AfterApply(x, y.gateway, out);
    if out.Some? {
      OfferedIsSound(x.updates, out.value, QUEUE_CAP);
    }
    forall t ensures NumberedStock(y, t) {
      ApplyKeepsNumbers(x, e, y.gateway, out, t);
    }
  }

  /** A step that leaves the books and the log of updates alone keeps the numbering. */
  lemma SameNumbers(x: System, y: System)
    requires y.gateway == x.gateway && y.updates.log == x.updates.log && forall t :: NumberedStock(x, t)
    ensures forall t :: NumberedStock(y, t)
  {
    hide TrackedStock, Published, LogOf;
    assert forall t :: NumberedStock(x, t) ==> NumberedStock(y, t);
  }

  lemma SameUpdates(x: System, s: Step, y: System)
    requires SystemStep(x, s, y) && !s.Apply?
    ensures y.gateway == x.gateway && y.updates.log == x.updates.log
  {
    hide EncodeBatch, BatchMessages, ApplyStep;
  }

  lemma OtherStepKeepsInv(x: System, s: Step, y: System)
    requires Inv(x) && SystemStep(x, s, y) && !s.Apply?
    ensures Inv(y)
  {
    hide NumberedStock, Sound, DecodesTo, SpotViews, Chains, Views, ChainMessages, EncodeBatch, BatchMessages,
      ApplyStep;
    SameUpdates(x, s, y);
    SameNumbers(x, y);
    match s
    case CountDrop => CountedIsSound(x.updates);
    case OfferSnapshot(a) => OfferedIsSound(x.snapshots, a, OPTION_QUEUE_CAP);
    case CountOptionDrop => CountedIsSound(x.snapshots);
    case PopUpdate => PoppedIsSound(x.updates);
    case PopSnapshot => PoppedIsSound(x.snapshots);
    case Broadcast =>
      BroadcastKeepsDecodable(x);
      FlushedIsSound(x.updates);
      FlushedIsSound(x.snapshots);
    case Report => ReportedIsSound(x.updates);
    case ReportOptions => ReportedIsSound(x.snapshots);
  }

  lemma SystemStepKeepsInv(x: System, s: Step, y: System)
    requires Inv(x) && SystemStep(x, s, y)
    ensures Inv(y)
  {
    hide Inv, ApplyStep, AfterBroadcast;
    if s.Apply? {
      ApplyKeepsInv(x, s.e, y);
    } else {
      OtherStepKeepsInv(x, s, y);
    }
  }

  lemma InitialInv()
    ensures Inv(INITIAL)
  {
    DecodesNothing();
    EmptyIsSound<BboUpdate>();
    EmptyIsSound<Snapshot>();
    forall s ensures NumberedStock(INITIAL, s) {
      assert BboOf(EMPTY_DEPTH) == ZERO_BBO;
    }
  }

  /** states is a behaviour of the system: from the initial state, one step after another. */
  ghost predicate IsBehaviour(states: seq<System>, steps: seq<Step>) {
    && |states| == |steps| + 1 && states[0] == INITIAL
    && forall i :: 0 <= i < |steps| ==> SystemStep(states[i], steps[i], states[i + 1])
  }

  lemma {:induction false} BehaviourKeepsInv(states: seq<System>, steps: seq<Step>)
    requires IsBehaviour(states, steps)
    ensures Inv(states[|steps|])
    decreases |steps|
  {
    hide Inv, SystemStep;
    if steps == [] {
      InitialInv();
    } else {
      var k := |steps| - 1;
      BehaviourKeepsInv(states[..k + 1], steps[..k]);
      SystemStepKeepsInv(states[k], steps[k], states[k + 1]);
    }
  }

  // ---------------------------------------------------------------- what a subscriber can tell

  /** Positions of the entries that were not dropped. */
  function Positions(log: seq<LogEntry<BboUpdate>>): seq<nat> {
    if log == [] then []
    else Positions(log[..|log| - 1]) + if log[|log| - 1].dropped then [] else [|log| - 1]
  }

  /** p lists exactly the undropped positions of the log, in order; us are the updates there. */
  ghost predicate Locates(log: seq<LogEntry<BboUpdate>>, p: seq<nat>, us: seq<BboUpdate>) {
    && |p| == |us|
    && (forall i :: 0 <= i < |p| ==> p[i] < |log| && log[p[i]] == LogEntry(us[i], false))
    && (forall i, j :: 0 <= i < j < |p| ==> p[i] < p[j])
    && (forall k :: 0 <= k < |log| && k !in p ==> log[k].dropped)
  }

  lemma {:induction false} PositionsLocate(log: seq<LogEntry<BboUpdate>>)
    ensures Locates(log, Positions(log), Survivors(log))
    decreases |log|
  {
    if log != [] {
      var before, x := log[..|log| - 1], log[|log| - 1];
      PositionsLocate(before);
      var p, q := Positions(before), Positions(log);
      forall k | 0 <= k < |log| && k !in q ensures log[k].dropped {
        if k < |before| { assert k !in p; assert before[k] == log[k]; }
      }
    }
  }

  /** Views of one stock, in the order they appear. */
  function ViewsFor(views: seq<SpotView>, stock: uint64): seq<SpotView> {
    if views == [] then []
    else ViewsFor(views[..|views| - 1], stock)
         + if views[|views| - 1].stock == stock then [views[|views| - 1]] else []
  }

  lemma {:induction false} ViewsOfStock(us: seq<BboUpdate>, stock: uint64)
    ensures ViewsFor(Views(us), stock) == Views(OfStock(us, stock))
    decreases |us|
  {
    if us != [] {
      ViewsOfStock(us[..|us| - 1], stock);
      var own: seq<BboUpdate> := if us[|us| - 1].stock == stock then [us[|us| - 1]] else [];
      ViewsConcat(OfStock(us[..|us| - 1], stock), own);
      assert Views(us)[..|Views(us)| - 1] == Views(us[..|us| - 1]);
      assert Views([us[|us| - 1]]) == [ViewOf(us[|us| - 1])] by { assert [us[|us| - 1]][..0] == []; }
    }
  }

  lemma {:induction false} ViewAt(us: seq<BboUpdate>, i: nat)
    requires i < |us|
    ensures |Views(us)| == |us| && Views(us)[i] == ViewOf(us[i])
    decreases |us|
  {
    if i < |us| - 1 {
      ViewAt(us[..|us| - 1], i);
    } else if |us| > 1 {
      ViewAt(us[..|us| - 1], 0);
    }
  }

  lemma {:induction false} ViewsSize(us: seq<BboUpdate>)
    ensures |Views(us)| == |us|
  {
    if us != [] { ViewAt(us, 0); }
  }

  /** What a subscriber decodes from the stream for one stock. */
  ghost function Decoded(x: System, stock: uint64): seq<SpotView> {
    match DecodeStream(x.stream)
    case None => []
    case Some(ms) => ViewsFor(SpotViews(ms), stock)
  }

  /** The i-th view received shows the update at position p[i] of what was published for the
      stock; its number is that position, and the updates skipped since the one received
      before are exactly the ones dropped. */
  ghost predicate AccountsFor(received: seq<SpotView>, p: seq<nat>, published: seq<LogEntry<BboUpdate>>) {
    && |received| <= |p|
    && (forall i :: 0 <= i < |received| ==>
          && p[i] < |published| && !published[p[i]].dropped
          && received[i] == ViewOf(published[p[i]].item)
          && received[i].seqNum == p[i] % TWO_64)
    && (forall i :: 0 <= i < |received| - 1 ==> p[i] < p[i + 1])
    && (forall i, k :: 0 <= i < |received| - 1 && p[i] < k < p[i + 1] ==> published[k].dropped)
    && (forall k :: 0 <= k < (if received == [] then 0 else p[0]) ==> published[k].dropped)
  }

  lemma NothingDecodes()
    ensures DecodeStream([]) == Some([])
  {
  }

  lemma DecodedIsSent(x: System, s: uint64)
    requires Inv(x)
    ensures DecodeStream(x.stream) == Some(x.messages)
    ensures Decoded(x, s) == Views(OfStock(x.updates.sent, s))
    ensures OfStock(x.updates.sent, s) <= Survivors(LogOf(x.updates.log, s))
  {
    hide DecodeStream, LogOf, SpotViews, Views, Survivors, OfStock, ViewsFor, NumberedStock, DropsCounted;
    assert DecodeStream(x.stream + []) == Some(x.messages + []) by { NothingDecodes(); }
    assert x.stream + [] == x.stream && x.messages + [] == x.messages;
    ViewsOfStock(x.updates.sent, s);
    SurvivorsOfStock(x.updates.log, s);
    OfStockConcat(x.updates.sent + x.updates.batch, x.updates.queue, s);
    OfStockConcat(x.updates.sent, x.updates.batch, s);
  }

  lemma NotListed(p: seq<nat>, i: nat, k: nat)
    requires forall a, b :: 0 <= a < b < |p| ==> p[a] < p[b]
    requires i + 1 < |p| && p[i] < k < p[i + 1]
    ensures k !in p
  {
  }

  lemma ReceivedAt(log: seq<LogEntry<BboUpdate>>, b: Book, own: seq<BboUpdate>, i: nat)
    requires Locates(log, Positions(log), Survivors(log))
    requires Tracked(b, Published(log)) && own <= Survivors(log) && i < |own|
    ensures |Views(own)| == |own| <= |Positions(log)|
    ensures var k := Positions(log)[i];
      Views(own)[i] == ViewOf(log[k].item) && Views(own)[i].seqNum == k % TWO_64
  {
    hide Positions, Views, Survivors, Published, BboOf;
    ViewAt(own, i);
    PublishedAt(log, Positions(log)[i]);
    assert own[i] == Survivors(log)[i];
  }

  /** A prefix of the updates that survived, seen in the light of the whole log. */
  lemma ReceivedAccounts(log: seq<LogEntry<BboUpdate>>, b: Book, own: seq<BboUpdate>)
    requires Locates(log, Positions(log), Survivors(log))
    requires Tracked(b, Published(log)) && own <= Survivors(log)
    ensures AccountsFor(Views(own), Positions(log), log)
  {
    hide Positions, Views, Survivors, Published, BboOf, ViewOf;
    var p := Positions(log);
    ViewsSize(own);
    forall i | 0 <= i < |own|
      ensures Views(own)[i] == ViewOf(log[p[i]].item) && Views(own)[i].seqNum == p[i] % TWO_64
    {
      ReceivedAt(log, b, own, i);
    }
    forall i, k | 0 <= i < |own| - 1 && p[i] < k < p[i + 1] ensures log[k].dropped { NotListed(p, i, k); }
    forall k | 0 <= k < (if own == [] then 0 else p[0]) ensures log[k].dropped {
      assert k !in p by { forall j | 0 <= j < |p| ensures p[j] != k { assert j == 0 || p[0] < p[j]; } }
    }
  }

  lemma StreamAccountsForLog(x: System, s: uint64)
    requires Inv(x)
    ensures DecodeStream(x.stream) == Some(x.messages)
    ensures AccountsFor(Decoded(x, s), Positions(LogOf(x.updates.log, s)), LogOf(x.updates.log, s))
  {
    hide DecodeStream, Decoded, Positions, LogOf, Views, Survivors, OfStock, Tracked, Sound, Decodable;
    DecodedIsSent(x, s);
    PositionsLocate(LogOf(x.updates.log, s));
    assert NumberedStock(x, s);
    ReceivedAccounts(LogOf(x.updates.log, s), BookOr(x.gateway, s), OfStock(x.updates.sent, s));
  }

  /** Between two updates received one after the other, the numbers jump by exactly the
      updates dropped in between; with fewer than 2^64 of them nothing wraps around. */
  ghost predicate GapsAreDrops(received: seq<SpotView>, p: seq<nat>, log: seq<LogEntry<BboUpdate>>)
    requires AccountsFor(received, p, log)
  {
    forall i :: 0 <= i < |received| - 1 ==>
      var dropped := Drops(log[p[i] + 1..p[i + 1]]);
      && (received[i + 1].seqNum - received[i].seqNum - 1) % TWO_64 == dropped % TWO_64
      && (|log| <= TWO_64 ==> received[i + 1].seqNum == received[i].seqNum + 1 + dropped)
  }

  lemma ModuloGap(a: nat, b: nat)
    ensures (b % TWO_64 - a % TWO_64 - 1) % TWO_64 == (b - a - 1) % TWO_64
  {
  }

  lemma SmallModulo(n: nat)
    requires n < TWO_64
    ensures n % TWO_64 == n
  {
  }

  lemma GapsMatch(received: seq<SpotView>, p: seq<nat>, log: seq<LogEntry<BboUpdate>>)
    requires AccountsFor(received, p, log)
    ensures GapsAreDrops(received, p, log)
  {
    hide ViewOf;
    forall i | 0 <= i < |received| - 1
      ensures Drops(log[p[i] + 1..p[i + 1]]) == p[i + 1] - p[i] - 1
      ensures (received[i + 1].seqNum - received[i].seqNum - 1) % TWO_64 == (p[i + 1] - p[i] - 1) % TWO_64
      ensures |log| <= TWO_64 ==> received[i + 1].seqNum - received[i].seqNum == p[i + 1] - p[i]
    {
      AllDropped(log[p[i] + 1..p[i + 1]]);
      ModuloGap(p[i], p[i + 1]);
      if |log| <= TWO_64 {
        SmallModulo(p[i]);
        SmallModulo(p[i + 1]);
      }
    }
  }

  /** In every state of every interleaving the stream decodes, and what a subscriber decodes
      for a stock accounts exactly for the updates it did not get. */
  lemma LossIsDetectable(states: seq<System>, steps: seq<Step>, s: uint64)
    requires IsBehaviour(states, steps)
    ensures var x := states[|steps|];
      var received, log := Decoded(x, s), LogOf(x.updates.log, s);
      && DecodeStream(x.stream).Some?
      && AccountsFor(received, Positions(log), log)
      && GapsAreDrops(received, Positions(log), log)
  {
    BehaviourKeepsInv(states, steps);
    StreamAccountsForLog(states[|steps|], s);
    var log := LogOf(states[|steps|].updates.log, s);
    GapsMatch(Decoded(states[|steps|], s), Positions(log), log);
  }

  /** In every interleaving the option messages a subscriber decodes are the snapshots the queue
      took, in order, up to some point. */
  lemma SnapshotsInOrder(states: seq<System>, steps: seq<Step>)
    requires IsBehaviour(states, steps)
    ensures var c := states[|steps|].snapshots;
      && DecodeStream(states[|steps|].stream).Some?
      && Chains(DecodeStream(states[|steps|].stream).value) == ChainMessages(c.sent)
      && c.sent <= Survivors(c.log)
  {
    hide DecodeStream, Chains, ChainMessages, Survivors, NumberedStock;
    BehaviourKeepsInv(states, steps);
    StreamAccountsForLog(states[|steps|], 0);
  }

  /** Drop counting over every interleaving, for updates and for option snapshots. */
  lemma DropsAreReported(states: seq<System>, steps: seq<Step>)
    requires IsBehaviour(states, steps)
    ensures DropsCounted(states[|steps|].updates) && DropsCounted(states[|steps|].snapshots)
  {
    BehaviourKeepsInv(states, steps);
  }
}
