/** A bounded queue between the writer and the broadcaster: it drops what it cannot take, and
    counts what it drops. */
module Channels {
  import opened Words

  /** Something offered to the queue, and whether the full queue dropped it. */
  datatype LogEntry<T> = LogEntry(item: T, dropped: bool)

  /** The queue, the drop being counted and those counted and reported, the batch the
      broadcaster has taken, and as history what was offered and what was broadcast. */
  datatype Channel<T> = Channel(
    queue: seq<T>, counting: bool, droppedCount: uint64, reported: nat, batch: seq<T>,
    log: seq<LogEntry<T>>, sent: seq<T>)

  function EmptyChannel<T>(): Channel<T> {
    Channel([], false, 0, 0, [], [], [])
  }

  function Offer<T>(queue: seq<T>, item: T, capacity: nat): seq<T> {
    if |queue| < capacity then queue + [item] else queue
  }

  /** The writer offers an item; if the queue is full the drop is still to be counted. */
  function Offered<T>(c: Channel<T>, item: T, capacity: nat): Channel<T> {
    var full := |c.queue| >= capacity;
    c.(queue := Offer(c.queue, item, capacity), counting := full, log := c.log + [LogEntry(item, full)])
  }

  function Counted<T>(c: Channel<T>): Channel<T> {
    c.(counting := false, droppedCount := WrapAdd64(c.droppedCount, 1))
  }

  /** The broadcaster takes the oldest item. */
  function Popped<T>(c: Channel<T>): Channel<T>
    requires |c.queue| > 0
  {
    c.(batch := c.batch + [c.queue[0]], queue := c.queue[1..])
  }

  /** The broadcaster sends its batch. */
  function Flushed<T>(c: Channel<T>): Channel<T> {
    c.(batch := [], sent := c.sent + c.batch)
  }

  function Reported<T>(c: Channel<T>): Channel<T> {
    c.(reported := c.reported + c.droppedCount, droppedCount := 0)
  }

  // ---------------------------------------------------------------- the log

  /** What a log was offered, dropped or not. */
  function Published<T>(log: seq<LogEntry<T>>): seq<T> {
    if |log| == 0 then [] else Published(log[..|log| - 1]) + [log[|log| - 1].item]
  }

  /** What the queue took. */
  function Survivors<T>(log: seq<LogEntry<T>>): seq<T> {
    if |log| == 0 then []
    else Survivors(log[..|log| - 1]) + if log[|log| - 1].dropped then [] else [log[|log| - 1].item]
  }

  function Drops<T>(log: seq<LogEntry<T>>): nat {
    if |log| == 0 then 0 else Drops(log[..|log| - 1]) + if log[|log| - 1].dropped then 1 else 0
  }

  lemma LogGrows<T>(log: seq<LogEntry<T>>, x: LogEntry<T>)
    ensures Published(log + [x]) == Published(log) + [x.item]
    ensures Survivors(log + [x]) == Survivors(log) + if x.dropped then [] else [x.item]
    ensures Drops(log + [x]) == Drops(log) + if x.dropped then 1 else 0
  {
    assert (log + [x])[..|log|] == log;
  }

  lemma {:induction false} PublishedAt<T>(log: seq<LogEntry<T>>, i: nat)
    requires i < |log|
    ensures |Published(log)| == |log| && Published(log)[i] == log[i].item
    decreases |log|
  {
    if i < |log| - 1 {
      PublishedAt(log[..|log| - 1], i);
    } else if |log| > 1 {
      PublishedAt(log[..|log| - 1], 0);
    }
  }

  lemma {:induction false} AllDropped<T>(log: seq<LogEntry<T>>)
    requires forall k :: 0 <= k < |log| ==> log[k].dropped
    ensures Drops(log) == |log|
    decreases |log|
  {
    if |log| > 0 { AllDropped(log[..|log| - 1]); }
  }

  // ---------------------------------------------------------------- the invariant

  /** Nothing the queue took is lost or reordered on its way out. */
  ghost predicate InOrder<T>(c: Channel<T>) {
    Survivors(c.log) == c.sent + c.batch + c.queue
  }

  /** Every drop is counted, is about to be, or has been reported. */
  ghost predicate DropsCounted<T>(c: Channel<T>) {
    (c.reported + c.droppedCount + if c.counting then 1 else 0) % TWO_64 == Drops(c.log) % TWO_64
  }

  ghost predicate Sound<T>(c: Channel<T>) {
    InOrder(c) && DropsCounted(c)
  }

  lemma EmptyIsSound<T>()
    ensures Sound(EmptyChannel<T>())
  {
  }

  lemma ModuloNext(a: nat, b: nat)
    requires a % TWO_64 == b % TWO_64
    ensures (a + 1) % TWO_64 == (b + 1) % TWO_64
  {
  }

  lemma OfferedIsSound<T>(c: Channel<T>, item: T, capacity: nat)
    requires Sound(c) && !c.counting
    ensures Sound(Offered(c, item, capacity))
  {
    hide Survivors, Drops, Published;
    LogGrows(c.log, LogEntry(item, |c.queue| >= capacity));
    ModuloNext(c.reported + c.droppedCount, Drops(c.log));
  }

  lemma CountedIsSound<T>(c: Channel<T>)
    requires Sound(c) && c.counting
    ensures Sound(Counted(c))
  {
    hide Survivors, Drops;
  }

  lemma PoppedIsSound<T>(c: Channel<T>)
    requires Sound(c) && |c.queue| > 0
    ensures Sound(Popped(c))
  {
    hide Survivors, Drops;
    assert c.queue == [c.queue[0]] + c.queue[1..];
  }

  lemma FlushedIsSound<T>(c: Channel<T>)
    requires Sound(c)
    ensures Sound(Flushed(c))
  {
    hide Survivors, Drops;
  }

  lemma ReportedIsSound<T>(c: Channel<T>)
    requires Sound(c)
    ensures Sound(Reported(c))
  {
    hide Survivors, Drops;
  }
}
