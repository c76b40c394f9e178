/**
 * The lanes between the receiving thread and the handler threads: lane i is a
 * pair of bounded single-producer single-consumer queues, one of free buffers
 * (handler i to the receiver) and one of used buffers (the receiver to
 * handler i). Every queue is created with the same capacity and the free
 * queues start full, so the pool of buffers is lanes * capacity.
 *
 * A buffer passes from one thread to another only through these queues, so
 * the model carries buffers as values; the receiver stamps its packet count
 * and received bytes into the value it publishes.
 */
module Lanes {
  import opened Bytes
  import opened Wrappers

  /** A receive buffer: its identity in the pool, the packet count and the bytes of its slots. */
  datatype RxBuffer = RxBuffer(id: nat, packets: int, data: seq<byte>)

  /** The receiver's step to the next lane: `idx == 0 ? queues - 1 : idx - 1`. */
  function Down(idx: int, queues: int): (r: int)
    requires 0 <= idx < queues
    ensures 0 <= r < queues
    ensures r == (idx - 1) % queues
  {
    if idx == 0 then queues - 1 else idx - 1
  }

  /** n steps down from idx. */
  function DownBy(idx: int, queues: int, n: nat): (r: int)
    requires 0 <= idx < queues
    ensures 0 <= r < queues
  {
    if n == 0 then idx else Down(DownBy(idx, queues, n - 1), queues)
  }

  /** Fewer steps than idx stay above lane 0 and count down linearly. */
  lemma {:induction false} DownByLinear(idx: int, queues: int, n: nat)
    requires 0 <= idx < queues && n <= idx
    ensures DownBy(idx, queues, n) == idx - n
  {
    if n > 0 {
      DownByLinear(idx, queues, n - 1);
    }
  }

  /** Past lane 0 the steps wrap to the top lane and count down from there. */
  lemma {:induction false} DownByWrap(idx: int, queues: int, m: nat)
    requires 0 <= idx < queues && m < queues
    ensures DownBy(idx, queues, idx + 1 + m) == queues - 1 - m
  {
    if m == 0 {
      DownByLinear(idx, queues, idx);
    } else {
      DownByWrap(idx, queues, m - 1);
    }
  }

  /** Every lane is reached from idx within fewer than queues steps down. */
  lemma DownByReaches(idx: int, queues: int, lane: int)
    requires 0 <= idx < queues && 0 <= lane < queues
    ensures var n := if lane <= idx then idx - lane else idx + queues - lane;
      n < queues && DownBy(idx, queues, n) == lane
  {
    if lane <= idx {
      DownByLinear(idx, queues, idx - lane);
    } else {
      DownByWrap(idx, queues, queues - 1 - lane);
    }
  }

  // ---------------------------------------------------------------------------
  // Counting buffers

  /** The buffers held by a row of queues. */
  function Count(lanes: seq<seq<RxBuffer>>): nat {
    if |lanes| == 0 then 0 else Count(lanes[..|lanes| - 1]) + |lanes[|lanes| - 1]|
  }

  /** Changing one queue changes the count by the change in its length. */
  lemma {:induction false} CountUpdate(lanes: seq<seq<RxBuffer>>, i: int, q: seq<RxBuffer>)
    requires 0 <= i < |lanes|
    ensures Count(lanes[i := q]) == Count(lanes) - |lanes[i]| + |q|
    decreases |lanes|
  {
    var n := |lanes| - 1;
    var l := lanes[i := q];
    if i < n {
      assert l[..n] == lanes[..n][i := q];
      CountUpdate(lanes[..n], i, q);
    } else {
      assert l[..n] == lanes[..n];
    }
  }

  /** Queues that are all full hold |lanes| * capacity buffers. */
  lemma {:induction false} CountFull(lanes: seq<seq<RxBuffer>>, capacity: nat)
    requires forall i :: 0 <= i < |lanes| ==> |lanes[i]| == capacity
    ensures Count(lanes) == |lanes| * capacity
    decreases |lanes|
  {
    if |lanes| > 0 {
      CountFull(lanes[..|lanes| - 1], capacity);
    }
  }

  /** Queues that are none of them over capacity hold at most |lanes| * capacity buffers. */
  lemma {:induction false} CountBounded(lanes: seq<seq<RxBuffer>>, capacity: nat)
    requires forall i :: 0 <= i < |lanes| ==> |lanes[i]| <= capacity
    ensures Count(lanes) <= |lanes| * capacity
    decreases |lanes|
  {
    if |lanes| > 0 {
      CountBounded(lanes[..|lanes| - 1], capacity);
    }
  }

  /** Pigeonhole: queues holding fewer buffers than their total capacity leave room in one of them. */
  lemma SomeRoom(lanes: seq<seq<RxBuffer>>, capacity: nat)
    requires (forall i :: 0 <= i < |lanes| ==> |lanes[i]| <= capacity) && Count(lanes) < |lanes| * capacity
    ensures exists i :: 0 <= i < |lanes| && |lanes[i]| < capacity
  {
    if forall i :: 0 <= i < |lanes| ==> |lanes[i]| == capacity {
      CountFull(lanes, capacity);
    }
  }

  /** The steps down from idx, at or after step k, to the first queue with room. */
  function RoomFrom(lanes: seq<seq<RxBuffer>>, capacity: nat, idx: int, k: nat): (r: nat)
    requires 0 <= idx < |lanes| && k <= |lanes|
    requires exists j :: k <= j < |lanes| && |lanes[DownBy(idx, |lanes|, j)]| < capacity
    ensures k <= r < |lanes| && |lanes[DownBy(idx, |lanes|, r)]| < capacity
    ensures forall m :: k <= m < r ==> |lanes[DownBy(idx, |lanes|, m)]| >= capacity
    decreases |lanes| - k
  {
    if |lanes[DownBy(idx, |lanes|, k)]| < capacity then k else RoomFrom(lanes, capacity, idx, k + 1)
  }

  /**
   * The failed offers before an offer-until-success loop starting at lane idx
   * succeeds: queues that together have room always leave it within one round.
   */
  function StepsToRoom(lanes: seq<seq<RxBuffer>>, capacity: nat, idx: int): (r: nat)
    requires 0 <= idx < |lanes|
    requires (forall i :: 0 <= i < |lanes| ==> |lanes[i]| <= capacity) && Count(lanes) < |lanes| * capacity
    ensures r < |lanes| && |lanes[DownBy(idx, |lanes|, r)]| < capacity
    ensures forall m :: 0 <= m < r ==> |lanes[DownBy(idx, |lanes|, m)]| == capacity
  {
    RoomReachable(lanes, capacity, idx);
    RoomFrom(lanes, capacity, idx, 0)
  }

  /** Some queue with room is reached by stepping down from any lane. */
  lemma RoomReachable(lanes: seq<seq<RxBuffer>>, capacity: nat, idx: int)
    requires 0 <= idx < |lanes|
    requires (forall i :: 0 <= i < |lanes| ==> |lanes[i]| <= capacity) && Count(lanes) < |lanes| * capacity
    ensures exists j :: 0 <= j < |lanes| && |lanes[DownBy(idx, |lanes|, j)]| < capacity
  {
    SomeRoom(lanes, capacity);
    var lane :| 0 <= lane < |lanes| && |lanes[lane]| < capacity;
    DownByReaches(idx, |lanes|, lane);
  }

  /** The free queues as `PacketReceiver` fills them: every queue full, each buffer with its own identity. */
  function InitialFree(queues: nat, capacity: nat, bytes: nat): (lanes: seq<seq<RxBuffer>>)
    ensures |lanes| == queues
    ensures forall i :: 0 <= i < queues ==> |lanes[i]| == capacity
  {
    seq(queues, (i: nat) => seq(capacity, (e: nat) => RxBuffer(i * capacity + e, 0, seq(bytes, _ => 0))))
  }

  /** The lanes start with the whole pool of queues * capacity buffers in the free queues. */
  lemma InitialPool(queues: nat, capacity: nat, bytes: nat)
    ensures Count(InitialFree(queues, capacity, bytes)) == queues * capacity
    ensures Count(seq(queues, _ => [])) == 0
  {
    CountFull(InitialFree(queues, capacity, bytes), capacity);
    CountFull(seq(queues, _ => []), 0);
  }

  // ---------------------------------------------------------------------------
  // The queues

  class LaneQueues {
    /** Capacity of every queue (`RECEIVE_BUFFERS`). */
    const capacity: nat
    var free: seq<seq<RxBuffer>>
    var used: seq<seq<RxBuffer>>

    ghost predicate Valid()
      reads this
    {
      && (forall i :: 0 <= i < |free| ==> |free[i]| <= capacity)
      && (forall i :: 0 <= i < |used| ==> |used[i]| <= capacity)
    }

    /** The buffers in all queues. */
    ghost function Pool(): nat
      reads this
    {
      Count(free) + Count(used)
    }

    /** queues free queues, each filled with capacity fresh buffers, and as many empty used queues. */
    constructor Init(queues: nat, capacity: nat, bytes: nat)
      ensures Valid() && this.capacity == capacity
      ensures free == InitialFree(queues, capacity, bytes) && used == seq(queues, _ => [])
      ensures Pool() == queues * capacity
    {
      this.capacity := capacity;
      free := InitialFree(queues, capacity, bytes);
      used := seq(queues, _ => []);
      new;
      InitialPool(queues, capacity, bytes);
    }

    /** `queueFreeBuffers[i].poll()`: the head of the queue, None when it is empty. */
    method PollFree(i: int) returns (b: Option<RxBuffer>)
      requires Valid() && 0 <= i < |free|
      modifies this
      ensures Valid() && used == old(used)
      ensures b.None? <==> |old(free[i])| == 0
      ensures b.None? ==> free == old(free)
      ensures b.Some? ==> b.value == old(free[i][0]) && free == old(free)[i := old(free[i])[1..]]
      ensures b.Some? ==> Pool() == old(Pool()) - 1
    {
      if |free[i]| == 0 {
        return None;
      }
      b := Some(free[i][0]);
      CountUpdate(free, i, free[i][1..]);
      free := free[i := free[i][1..]];
    }

    /** `queueUsedBuffers[i].poll()`. */
    method PollUsed(i: int) returns (b: Option<RxBuffer>)
      requires Valid() && 0 <= i < |used|
      modifies this
      ensures Valid() && free == old(free)
      ensures b.None? <==> |old(used[i])| == 0
      ensures b.None? ==> used == old(used)
      ensures b.Some? ==> b.value == old(used[i][0]) && used == old(used)[i := old(used[i])[1..]]
      ensures b.Some? ==> Pool() == old(Pool()) - 1
    {
      if |used[i]| == 0 {
        return None;
      }
      b := Some(used[i][0]);
      CountUpdate(used, i, used[i][1..]);
      used := used[i := used[i][1..]];
    }

    /** `queueUsedBuffers[i].offer(b)`: appended unless the queue is full. */
    method OfferUsed(i: int, b: RxBuffer) returns (ok: bool)
      requires Valid() && 0 <= i < |used|
      modifies this
      ensures Valid() && free == old(free)
      ensures ok <==> |old(used[i])| < capacity
      ensures ok ==> used == old(used)[i := old(used[i]) + [b]] && Pool() == old(Pool()) + 1
      ensures !ok ==> used == old(used)
    {
      if |used[i]| == capacity {
        return false;
      }
      CountUpdate(used, i, used[i] + [b]);
      used := used[i := used[i] + [b]];
      ok := true;
    }

    /** `queueFreeBuffers[i].offer(b)`. */
    method OfferFree(i: int, b: RxBuffer) returns (ok: bool)
      requires Valid() && 0 <= i < |free|
      modifies this
      ensures Valid() && used == old(used)
      ensures ok <==> |old(free[i])| < capacity
      ensures ok ==> free == old(free)[i := old(free[i]) + [b]] && Pool() == old(Pool()) + 1
      ensures !ok ==> free == old(free)
    {
      if |free[i]| == capacity {
        return false;
      }
      CountUpdate(free, i, free[i] + [b]);
      free := free[i := free[i] + [b]];
      ok := true;
    }
  }
}
