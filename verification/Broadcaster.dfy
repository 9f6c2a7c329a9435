/** The broadcast server's queues and one pass of its sending loop. */
module Broadcaster {
  import opened Words
  import opened Bytes
  import opened Books
  import opened Wire
  import opened Serialization
  import opened Publication

  class TcpBroadcastServer {
    var broadcastQueue: seq<BboUpdate>
    var optionQueue: seq<Snapshot>
    var droppedCount: uint64
    var optionDroppedCount: uint64

    ghost function Model(): ServerState
      reads this
    {
      ServerState(broadcastQueue, optionQueue, droppedCount, optionDroppedCount)
    }

    constructor ()
      ensures Model() == ServerState([], [], 0, 0)
    {
      broadcastQueue, optionQueue := [], [];
      droppedCount, optionDroppedCount := 0, 0;
    }

    /** Queues the update, or counts it as dropped when the queue is full. */
    method EnqueueBbo(u: BboUpdate)
      modifies this`broadcastQueue, this`droppedCount
      ensures Model() == Enqueued(old(Model()), u)
      ensures if |old(broadcastQueue)| < 32768 then
                broadcastQueue == old(broadcastQueue) + [u] && droppedCount == old(droppedCount)
              else
                broadcastQueue == old(broadcastQueue) && droppedCount == (old(droppedCount) + 1) % TWO_64
    {
      if |broadcastQueue| < QUEUE_CAP {
        broadcastQueue := broadcastQueue + [u];
      } else {
        droppedCount := WrapAdd64(droppedCount, 1);
      }
    }

    method EnqueueOptionSnapshot(a: Snapshot)
      modifies this`optionQueue, this`optionDroppedCount
      ensures Model() == OptionEnqueued(old(Model()), a)
      ensures if |old(optionQueue)| < 8192 then
                optionQueue == old(optionQueue) + [a] && optionDroppedCount == old(optionDroppedCount)
              else
                optionQueue == old(optionQueue) && optionDroppedCount == (old(optionDroppedCount) + 1) % TWO_64
    {
      if |optionQueue| < OPTION_QUEUE_CAP {
        optionQueue := optionQueue + [a];
      } else {
        optionDroppedCount := WrapAdd64(optionDroppedCount, 1);
      }
    }

    method TakeBatch() returns (batch: seq<BboUpdate>)
      modifies this`broadcastQueue
      ensures |batch| == Min(64, |old(broadcastQueue)|)
      ensures batch + broadcastQueue == old(broadcastQueue)
    {
      batch := [];
      while |batch| < BATCH_SIZE && broadcastQueue != []
        invariant |batch| <= BATCH_SIZE && batch + broadcastQueue == old(broadcastQueue)
        decreases |broadcastQueue|
      {
        batch := batch + [broadcastQueue[0]];
        broadcastQueue := broadcastQueue[1..];
      }
    }

    method TakeOptionBatch() returns (batch: seq<Snapshot>)
      modifies this`optionQueue
      ensures |batch| == Min(16, |old(optionQueue)|)
      ensures batch + optionQueue == old(optionQueue)
    {
      batch := [];
      while |batch| < MAX_OPTION_BATCH && optionQueue != []
        invariant |batch| <= MAX_OPTION_BATCH && batch + optionQueue == old(optionQueue)
        decreases |optionQueue|
      {
        batch := batch + [optionQueue[0]];
        optionQueue := optionQueue[1..];
      }
    }

    /** One pass with the writer quiet; the bytes it sends decode to exactly what left the
        queues. */
    method BroadcastPass() returns (data: Bytes, dropped: uint64, optionDropped: uint64)
      requires WithinCapacity(optionQueue)
      modifies this
      ensures PassOutcome(old(Model()), Model(), data, dropped, optionDropped)
      ensures var n, m := Min(64, |old(broadcastQueue)|), Min(16, |old(optionQueue)|);
        DecodeStream(data) == Some(BatchMessages(old(broadcastQueue)[..n], old(optionQueue)[..m]))
    {
      hide DecodeStream, EncodeBatch, BatchMessages;
      dropped, optionDropped := 0, 0;
      var batch := TakeBatch();
      var optionBatch := TakeOptionBatch();
      assert batch == old(broadcastQueue)[..|batch|] && optionBatch == old(optionQueue)[..|optionBatch|];
      BatchDecodes(batch, optionBatch);
      if batch == [] && optionBatch == [] {
        data := [];
        assert EncodeBatch([], []) == [] by { EmptyBatch(); }
        return;
      }
      data := SerializeBatch(batch, optionBatch);
      dropped, optionDropped := droppedCount, optionDroppedCount;
      droppedCount, optionDroppedCount := 0, 0;
    }
  }
}
