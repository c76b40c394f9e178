/**
 * The receiving thread: one turn of its loop takes a free buffer from the
 * lanes, descending from the lane it used last, fills it with one batched
 * receive and publishes it to a used queue, descending again until an offer
 * succeeds. The socket's result and the bytes it leaves in the buffer are
 * parameters of the turn.
 */
module Receiver {
  import opened Bytes
  import opened Wrappers
  import opened Lanes

  /** Polls of the spin phase before the receiver falls back to sleeping between polls. */
  const SPIN_POLLS: int := 1000

  /**
   * The lanes the index moves down over waits empty polls: one per empty
   * poll, except the first poll of the sleeping phase, which repeats the
   * lane of the last spinning poll.
   */
  function Rotations(waits: nat): nat {
    if waits <= SPIN_POLLS then waits else waits - 1
  }

  class RxThreadPacketReceiver {
    const lanes: LaneQueues
    /** Packets asked of one receive call. */
    const mmsgs: int
    /** The buffers in circulation when the thread was built. */
    ghost const pool: nat

    /** The lane the next acquisition starts from (a local of the thread's loop). */
    var indexQueueFree: int

    var rxIterationCounter: int
    var rxPacketCounter: int
    var rxErrors: int
    /** Never written: the line that would record errno is commented out. */
    var rxErrno: int
    var rxNoFreeBuffers: int
    var rxNoFreeBuffersLong: int
    var rxUsedBuffersOverflow: int

    /** Buffers that left the pool without reaching a queue. */
    ghost var lost: nat

    /**
     * The lanes pair up, the lane index stays on a lane, and every buffer of
     * the pool is in a queue or lost; the used queues can hold the whole pool.
     */
    ghost predicate Valid()
      reads this, lanes
    {
      && lanes.Valid()
      && |lanes.free| == |lanes.used|
      && (|lanes.free| > 0 ==> 0 <= indexQueueFree < |lanes.free|)
      && lanes.Pool() + lost == pool
      && pool <= |lanes.used| * lanes.capacity
    }

    constructor Init(lanes: LaneQueues, mmsgs: int)
      requires lanes.Valid() && |lanes.free| == |lanes.used|
      requires lanes.Pool() <= |lanes.used| * lanes.capacity
      ensures Valid() && this.lanes == lanes && this.mmsgs == mmsgs && pool == lanes.Pool()
      ensures indexQueueFree == |lanes.free| - 1 && lost == 0
      ensures rxIterationCounter == rxPacketCounter == rxErrors == rxErrno == 0
      ensures rxNoFreeBuffers == rxNoFreeBuffersLong == rxUsedBuffersOverflow == 0
    {
      this.lanes := lanes;
      this.mmsgs := mmsgs;
      pool := lanes.Pool();
      indexQueueFree := |lanes.free| - 1;
      rxIterationCounter, rxPacketCounter, rxErrors, rxErrno := 0, 0, 0, 0;
      rxNoFreeBuffers, rxNoFreeBuffersLong, rxUsedBuffersOverflow := 0, 0, 0;
      lost := 0;
    }

    /** The thread's constructor: it refuses free and used lanes of different counts. */
    static method New(lanes: LaneQueues, mmsgs: int) returns (r: Result<RxThreadPacketReceiver, string>)
      requires lanes.Valid() && lanes.Pool() <= |lanes.used| * lanes.capacity
      ensures r.Failure? <==> |lanes.free| != |lanes.used|
      ensures r.Success? ==> fresh(r.value) && r.value.Valid() && r.value.lanes == lanes && r.value.lost == 0
      ensures r.Success? ==> r.value.indexQueueFree == |lanes.free| - 1 && r.value.pool == lanes.Pool()
    {
      if |lanes.free| != |lanes.used| {
        return Failure("queues must be of the same length");
      }
      var t := new RxThreadPacketReceiver.Init(lanes, mmsgs);
      r := Success(t);
    }

    /**
     * Takes a buffer from the free queues, through the three polling phases:
     * one poll, up to SPIN_POLLS spinning polls one lane further down each,
     * then, from the lane where the spin stopped, polls with a sleep between
     * them. Only handlers fill the free queues, concurrently, so a poll that
     * comes back empty says nothing of the queues when a later poll succeeds:
     * `waits` is the number of empty polls, and the lane the polls reach
     * then holds a buffer. One `rxNoFreeBuffers` counts a failed first poll
     * and one `rxNoFreeBuffersLong` a failed spin phase.
     */
    method AcquireFree(waits: nat) returns (b: RxBuffer)
      requires Valid() && |lanes.free| > 0
      requires |lanes.free[DownBy(indexQueueFree, |lanes.free|, Rotations(waits))]| > 0
      modifies lanes, this`indexQueueFree, this`rxNoFreeBuffers, this`rxNoFreeBuffersLong
      ensures lanes.Valid() && lanes.used == old(lanes.used) && |lanes.free| == |old(lanes.free)|
      ensures indexQueueFree == DownBy(old(indexQueueFree), |lanes.free|, Rotations(waits))
      ensures rxNoFreeBuffers == old(rxNoFreeBuffers) + (if waits > 0 then 1 else 0)
      ensures rxNoFreeBuffersLong == old(rxNoFreeBuffersLong) + (if waits > SPIN_POLLS then 1 else 0)
      ensures b == old(lanes.free)[indexQueueFree][0]
      ensures lanes.free == old(lanes.free)[indexQueueFree := old(lanes.free)[indexQueueFree][1..]]
      ensures lanes.Pool() == old(lanes.Pool()) - 1
    {
      WaitForFree(waits, |lanes.free|);
      var polled := lanes.PollFree(indexQueueFree);
      b := polled.value;
    }

    /** The empty polls of an acquisition: the lane index walks down and the wait counters grow. */
    method WaitForFree(waits: nat, queues: int)
      requires 0 <= indexQueueFree < queues
      modifies this`indexQueueFree, this`rxNoFreeBuffers, this`rxNoFreeBuffersLong
      ensures indexQueueFree == DownBy(old(indexQueueFree), queues, Rotations(waits))
      ensures rxNoFreeBuffers == old(rxNoFreeBuffers) + (if waits > 0 then 1 else 0)
      ensures rxNoFreeBuffersLong == old(rxNoFreeBuffersLong) + (if waits > SPIN_POLLS then 1 else 0)
    {
      ghost var start := indexQueueFree;
      var polls := 0;
      var found := polls >= waits;
      if !found {
        rxNoFreeBuffers := rxNoFreeBuffers + 1;
        indexQueueFree := Down(indexQueueFree, queues);
        polls := 1;
        var counter := SPIN_POLLS;
        found := polls >= waits;
        if !found {
          counter := counter - 1;
        }
        while !found && 0 < counter
          invariant 1 <= polls <= SPIN_POLLS && polls <= waits && (found <==> polls == waits)
          invariant indexQueueFree == DownBy(start, queues, polls)
          invariant counter == if found then SPIN_POLLS + 1 - polls else SPIN_POLLS - polls
          modifies this`indexQueueFree
          decreases waits - polls
        {
          indexQueueFree := Down(indexQueueFree, queues);
          polls := polls + 1;
          found := polls >= waits;
          if !found {
            counter := counter - 1;
          }
        }
        if counter == 0 && !found {
          rxNoFreeBuffersLong := rxNoFreeBuffersLong + 1;
          polls := polls + 1;
          found := polls >= waits;
          while !found
            invariant SPIN_POLLS < polls <= waits && (found <==> polls == waits)
            invariant indexQueueFree == DownBy(start, queues, polls - 1)
            modifies this`indexQueueFree
            decreases waits - polls
          {
            indexQueueFree := Down(indexQueueFree, queues);
            polls := polls + 1;
            found := polls >= waits;
          }
        }
      }
    }

    /**
     * The offers of a buffer from lane from, whose first queue with room lies
     * steps lanes down, have reached step j at lane `lane`.
     */
    ghost predicate OfferedAt(ok: bool, j: nat, lane: int, b: RxBuffer, from: int, steps: nat, used0: seq<seq<RxBuffer>>)
      reads lanes
    {
      && 0 <= from < |used0| && |lanes.used| == |used0|
      && lane == DownBy(from, |used0|, j)
      && (!ok ==> j < steps && lanes.used == used0)
      && (ok ==> j == steps && lanes.used == used0[lane := used0[lane] + [b]])
    }

    /** One offer of the publishing loop. */
    method OfferNext(b: RxBuffer, lane: int, ghost from: int, ghost steps: nat, ghost used0: seq<seq<RxBuffer>>, ghost j: nat)
      returns (ok: bool)
      requires lanes.Valid() && 0 <= from < |used0| && lanes.used == used0
      requires Count(used0) < |used0| * lanes.capacity && steps == StepsToRoom(used0, lanes.capacity, from)
      requires j <= steps && lane == DownBy(from, |used0|, j)
      modifies lanes
      ensures lanes.Valid() && lanes.free == old(lanes.free)
      ensures OfferedAt(ok, j, lane, b, from, steps, used0)
    {
      ok := lanes.OfferUsed(lane, b);
    }

    /**
     * Offers the buffer to the used queue of lane `indexQueueFree` and then to
     * the lanes below it until an offer succeeds, counting each failure.
     */
    method Publish(b: RxBuffer) returns (ghost lane: int)
      requires lanes.Valid() && |lanes.free| == |lanes.used| && 0 <= indexQueueFree < |lanes.used|
      requires Count(lanes.used) < |lanes.used| * lanes.capacity
      modifies lanes, this`rxUsedBuffersOverflow
      ensures lanes.Valid() && lanes.free == old(lanes.free) && |lanes.used| == |old(lanes.used)|
      ensures var steps := StepsToRoom(old(lanes.used), lanes.capacity, indexQueueFree);
        && lane == DownBy(indexQueueFree, |lanes.used|, steps)
        && rxUsedBuffersOverflow == old(rxUsedBuffersOverflow) + steps
      ensures 0 <= lane < |lanes.used|
      ensures lanes.used == old(lanes.used)[lane := old(lanes.used)[lane] + [b]]
      ensures lanes.Pool() == old(lanes.Pool()) + 1
    {
      var queues := |lanes.used|;
      ghost var used0 := lanes.used;
      ghost var steps := StepsToRoom(used0, lanes.capacity, indexQueueFree);
      ghost var j: nat := 0;
      var indexQueueUsed := indexQueueFree;
      var ok := OfferNext(b, indexQueueUsed, indexQueueFree, steps, used0, 0);
      while !ok
        invariant lanes.Valid() && lanes.free == old(lanes.free)
        invariant OfferedAt(ok, j, indexQueueUsed, b, indexQueueFree, steps, used0)
        invariant rxUsedBuffersOverflow == old(rxUsedBuffersOverflow) + j
        decreases steps - j
      {
        rxUsedBuffersOverflow := rxUsedBuffersOverflow + 1;
        indexQueueUsed := Down(indexQueueUsed, queues);
        j := j + 1;
        ok := OfferNext(b, indexQueueUsed, indexQueueFree, steps, used0, j);
      }
      lane := indexQueueUsed;
      CountUpdate(used0, lane, used0[lane] + [b]);
    }

    /** The successful receive of a turn: the counters grow and the stamped buffer is published. */
    method Deliver(b: RxBuffer, received: int, data: seq<byte>) returns (ghost lane: int)
      requires lanes.Valid() && |lanes.free| == |lanes.used| && 0 <= indexQueueFree < |lanes.used|
      requires Count(lanes.used) < |lanes.used| * lanes.capacity
      modifies lanes, this`rxUsedBuffersOverflow, this`rxPacketCounter, this`rxIterationCounter
      ensures lanes.Valid() && lanes.free == old(lanes.free) && |lanes.used| == |old(lanes.used)|
      ensures rxPacketCounter == old(rxPacketCounter) + received
      ensures rxIterationCounter == old(rxIterationCounter) + 1
      ensures var steps := StepsToRoom(old(lanes.used), lanes.capacity, indexQueueFree);
        && lane == DownBy(indexQueueFree, |lanes.used|, steps)
        && rxUsedBuffersOverflow == old(rxUsedBuffersOverflow) + steps
      ensures 0 <= lane < |lanes.used|
      ensures lanes.used == old(lanes.used)[lane := old(lanes.used)[lane] + [RxBuffer(b.id, received, data)]]
      ensures lanes.Pool() == old(lanes.Pool()) + 1
    {
      rxPacketCounter := rxPacketCounter + received;
      rxIterationCounter := rxIterationCounter + 1;
      lane := Publish(b.(packets := received, data := data));
    }

    /**
     * One turn of the thread's loop as written: on a receive error the
     * acquired buffer is dropped, published nowhere and returned nowhere.
     */
    method StepAsWritten(waits: nat, received: int, data: seq<byte>) returns (ghost lane: int)
      requires Valid() && |lanes.free| > 0
      requires |lanes.free[DownBy(indexQueueFree, |lanes.free|, Rotations(waits))]| > 0
      requires Count(lanes.free) > 0
      modifies lanes, this`indexQueueFree, this`rxNoFreeBuffers, this`rxNoFreeBuffersLong, this`rxErrors, this`lost
      modifies this`rxPacketCounter, this`rxIterationCounter, this`rxUsedBuffersOverflow
      ensures Valid() && |lanes.free| == |old(lanes.free)| && rxErrno == old(rxErrno)
      ensures indexQueueFree == DownBy(old(indexQueueFree), |lanes.free|, Rotations(waits))
      ensures rxNoFreeBuffers == old(rxNoFreeBuffers) + (if waits > 0 then 1 else 0)
      ensures rxNoFreeBuffersLong == old(rxNoFreeBuffersLong) + (if waits > SPIN_POLLS then 1 else 0)
      ensures lanes.free == old(lanes.free)[indexQueueFree := old(lanes.free)[indexQueueFree][1..]]
      ensures received == -1 ==>
        && rxErrors == old(rxErrors) + 1 && lost == old(lost) + 1
        && lanes.used == old(lanes.used) && rxUsedBuffersOverflow == old(rxUsedBuffersOverflow)
        && rxPacketCounter == old(rxPacketCounter) && rxIterationCounter == old(rxIterationCounter)
      ensures received != -1 ==>
        && rxErrors == old(rxErrors) && lost == old(lost)
        && rxPacketCounter == old(rxPacketCounter) + received
        && rxIterationCounter == old(rxIterationCounter) + 1
        && var steps := StepsToRoom(old(lanes.used), lanes.capacity, indexQueueFree);
        && lane == DownBy(indexQueueFree, |lanes.used|, steps)
        && rxUsedBuffersOverflow == old(rxUsedBuffersOverflow) + steps
        && lanes.used == old(lanes.used)[lane := old(lanes.used)[lane]
             + [RxBuffer(old(lanes.free)[indexQueueFree][0].id, received, data)]]
    {
      lane := -1;
      var b := AcquireFree(waits);
      if received == -1 {
        rxErrors := rxErrors + 1;
        lost := lost + 1;
        return;
      }
      lane := Deliver(b, received, data);
    }

    /**
     * One turn of the thread's loop with the buffer of a failed receive given
     * back to the free queue it came from: no buffer ever leaves the pool.
     */
    method Step(waits: nat, received: int, data: seq<byte>) returns (ghost lane: int)
      requires Valid() && |lanes.free| > 0
      requires |lanes.free[DownBy(indexQueueFree, |lanes.free|, Rotations(waits))]| > 0
      requires Count(lanes.free) > 0
      modifies lanes, this`indexQueueFree, this`rxNoFreeBuffers, this`rxNoFreeBuffersLong, this`rxErrors, this`lost
      modifies this`rxPacketCounter, this`rxIterationCounter, this`rxUsedBuffersOverflow
      ensures Valid() && |lanes.free| == |old(lanes.free)| && rxErrno == old(rxErrno)
      ensures lost == old(lost) && lanes.Pool() == old(lanes.Pool())
      ensures indexQueueFree == DownBy(old(indexQueueFree), |lanes.free|, Rotations(waits))
      ensures rxNoFreeBuffers == old(rxNoFreeBuffers) + (if waits > 0 then 1 else 0)
      ensures rxNoFreeBuffersLong == old(rxNoFreeBuffersLong) + (if waits > SPIN_POLLS then 1 else 0)
      ensures received == -1 ==>
        && rxErrors == old(rxErrors) + 1
        && lanes.free == old(lanes.free)[indexQueueFree :=
             old(lanes.free)[indexQueueFree][1..] + [old(lanes.free)[indexQueueFree][0]]]
        && lanes.used == old(lanes.used) && rxUsedBuffersOverflow == old(rxUsedBuffersOverflow)
        && rxPacketCounter == old(rxPacketCounter) && rxIterationCounter == old(rxIterationCounter)
      ensures received != -1 ==>
        && rxErrors == old(rxErrors)
        && lanes.free == old(lanes.free)[indexQueueFree := old(lanes.free)[indexQueueFree][1..]]
        && rxPacketCounter == old(rxPacketCounter) + received
        && rxIterationCounter == old(rxIterationCounter) + 1
        && var steps := StepsToRoom(old(lanes.used), lanes.capacity, indexQueueFree);
        && lane == DownBy(indexQueueFree, |lanes.used|, steps)
        && rxUsedBuffersOverflow == old(rxUsedBuffersOverflow) + steps
        && lanes.used == old(lanes.used)[lane := old(lanes.used)[lane]
             + [RxBuffer(old(lanes.free)[indexQueueFree][0].id, received, data)]]
    {
      lane := -1;
      var b := AcquireFree(waits);
      if received == -1 {
        rxErrors := rxErrors + 1;
        var ok := lanes.OfferFree(indexQueueFree, b);
        return;
      }
      lane := Deliver(b, received, data);
    }
  }

  /**
   * A single lane holding a single buffer: one failed receive as written
   * leaves no buffer in any queue, so the thread's next acquisition waits
   * forever.
   */
  method ReceiveErrorLeaks() returns (before: nat, after: nat)
    ensures before == 1 && after == 0
  {
    var lanes := new LaneQueues.Init(1, 1, 0);
    InitialPool(1, 1, 0);
    before := |lanes.free[0]| + |lanes.used[0]|;
    var t := new RxThreadPacketReceiver.Init(lanes, 1);
    ghost var lane0 := t.StepAsWritten(0, -1, []);
    after := |lanes.free[0]| + |lanes.used[0]|;
  }

  /** The same failed receive with the buffer given back keeps the buffer in the pool. */
  method ReceiveErrorKeepsBuffer() returns (before: nat, after: nat)
    ensures before == 1 && after == 1
  {
    var lanes := new LaneQueues.Init(1, 1, 0);
    InitialPool(1, 1, 0);
    before := |lanes.free[0]| + |lanes.used[0]|;
    var t := new RxThreadPacketReceiver.Init(lanes, 1);
    ghost var lane0 := t.Step(0, -1, []);
    after := |lanes.free[0]| + |lanes.used[0]|;
  }
}
