/**
 * A handler thread: it takes filled buffers from the used queue of its own
 * lane, validates every received packet, hands the UNI of a random share of
 * the valid ones to the state store, answers another random share with a
 * reply packet of the same type, and gives the buffer back to the free queue
 * of its lane.
 *
 * The processing of one buffer is specified by pure functions of the
 * received bytes and the random draws: which slots are picked for storing
 * and for replying, and what the replies write into the send buffer.
 */
module Handler {
  import opened Bytes
  import opened Wrappers
  import opened PacketTypes
  import opened Codec
  import opened SlotTemplates
  import opened Lanes

  /** Slots of a receive or send buffer. */
  const BUF_PACKETS_MAX: int := 1024
  /** Bytes of one slot. */
  const BUF_PACKET_BYTES_MAX: int := 1024
  /** The range of the random draws that percentages are compared with. */
  const PERCENT_LONG_NORMALIZED: int := 1000
  /** Polls of the spin phase, then of the parking phase, before the handler sleeps between polls. */
  const SPIN_POLLS: int := 100
  const PARK_POLLS: int := 10
  /** The largest Java int, the bound of the workload loop's counter. */
  const INT_MAX: int := 0x7FFF_FFFF
  const TWO_63: int := 0x8000_0000_0000_0000

  /** The two draws of `nextInt(1000)` made for one valid packet: first for storing, then for replying. */
  datatype SlotDraw = SlotDraw(store: int, reply: int)

  function Draw(d: SlotDraw, reply: bool): int {
    if reply then d.reply else d.store
  }

  predicate DrawsInRange(draws: seq<SlotDraw>) {
    forall i :: 0 <= i < |draws| ==> 0 <= draws[i].store < PERCENT_LONG_NORMALIZED && 0 <= draws[i].reply < PERCENT_LONG_NORMALIZED
  }

  /** The first n slots of the bytes exist. */
  predicate SlotsInRange(data: seq<byte>, n: int) {
    0 <= n && n * BUF_PACKET_BYTES_MAX <= |data|
  }

  lemma SlotFields(data: seq<byte>, n: int, i: int)
    requires SlotsInRange(data, n) && 0 <= i < n
    ensures HeaderInRange(|data|, i * BUF_PACKET_BYTES_MAX)
    ensures 0 <= i * BUF_PACKET_BYTES_MAX + SLOT_UNI_SHIFT && i * BUF_PACKET_BYTES_MAX + SLOT_UNI_SHIFT + UNI_LENGTH <= |data|
    ensures SlotInRange(|data|, BUF_PACKET_BYTES_MAX, i)
  {
    LayoutOffsets();
  }

  /** `validate(i)` on the slot i of the bytes, false when the slot is not there. */
  predicate ValidAt(data: seq<byte>, i: int) {
    0 <= i && SlotsInRange(data, i + 1) && ValidIn(data, i)
  }

  predicate ValidIn(data: seq<byte>, i: int)
    requires 0 <= i && SlotsInRange(data, i + 1)
  {
    SlotFields(data, i + 1, i);
    SlotValid(data, i * BUF_PACKET_BYTES_MAX)
  }

  /** `getPacketTypeAsByte(i)`. */
  function TypeAt(data: seq<byte>, i: int): byte
    requires 0 <= i && SlotsInRange(data, i + 1)
  {
    SlotFields(data, i + 1, i);
    TypeByte(data, i * BUF_PACKET_BYTES_MAX)
  }

  /** `getUNI(i)`. */
  function UniAt(data: seq<byte>, i: int): seq<byte>
    requires 0 <= i && SlotsInRange(data, i + 1)
  {
    SlotFields(data, i + 1, i);
    Uni(data, i * BUF_PACKET_BYTES_MAX)
  }

  /** Reply slot k after `setPacketType(k, t)` and `setPacketLength(k, byType(t).length)`. */
  function ReplyAt(s: seq<byte>, k: int, t: byte): (r: seq<byte>)
    requires 0 <= k && SlotsInRange(s, k + 1)
    ensures |r| == |s|
  {
    SlotFields(s, k + 1, k);
    WriteLength(WriteType(s, k * BUF_PACKET_BYTES_MAX, t), k * BUF_PACKET_BYTES_MAX, Length(ByType(t)))
  }

  /** What the handler reads of one received slot: whether it passes `validate`, its UNI and its type byte. */
  datatype Packet = Packet(valid: bool, uni: seq<byte>, ptype: byte)

  /** A packet that passes `validate` carries the byte of a real type. */
  predicate Readable(p: Packet) {
    p.valid ==> ByType(p.ptype) != Error
  }

  /** Slot i of the bytes as the handler reads it. */
  function ReadSlot(data: seq<byte>, i: int): (r: Packet)
    requires 0 <= i && SlotsInRange(data, i + 1)
    ensures Readable(r)
  {
    Packet(ValidAt(data, i), UniAt(data, i), TypeAt(data, i))
  }

  /** The first n slots of the bytes as the handler reads them. */
  function Read(data: seq<byte>, n: int): (r: seq<Packet>)
    requires SlotsInRange(data, n)
    ensures |r| == n
    ensures forall i :: 0 <= i < n ==> r[i] == ReadSlot(data, i) && Readable(r[i])
  {
    seq(n, i requires 0 <= i < n => ReadSlot(data, i))
  }

  // ---------------------------------------------------------------------------
  // What one buffer's processing decides

  /** The packets among the first n that pass `validate`. */
  function ValidCount(pkts: seq<Packet>, n: int): nat
    requires 0 <= n <= |pkts|
  {
    if n == 0 then 0
    else
      ValidCount(pkts, n - 1) + (if pkts[n - 1].valid then 1 else 0)
  }

  /**
   * The slots, in order, among the first n that are valid and whose store
   * (or reply) draw falls below the threshold.
   */
  function Picks(pkts: seq<Packet>, draws: seq<SlotDraw>, n: int, threshold: int, reply: bool): (r: seq<int>)
    requires 0 <= n <= |pkts| && n <= |draws|
    ensures forall k :: 0 <= k < |r| ==> 0 <= r[k] < n
    ensures |r| <= n
  {
    if n == 0 then []
    else
      var p := Picks(pkts, draws, n - 1, threshold, reply);
      if pkts[n - 1].valid && Draw(draws[n - 1], reply) < threshold then p + [n - 1] else p
  }

  /** One more slot extends the picks by its index exactly when it is picked. */
  lemma PicksStep(pkts: seq<Packet>, draws: seq<SlotDraw>, n: int, threshold: int, reply: bool)
    requires 0 < n <= |pkts| && n <= |draws|
    ensures var p := Picks(pkts, draws, n - 1, threshold, reply);
      Picks(pkts, draws, n, threshold, reply) == if pkts[n - 1].valid && Draw(draws[n - 1], reply) < threshold then p + [n - 1] else p
  {
  }

  /** The slots are indices of packets. */
  predicate AllInRange(pkts: seq<Packet>, slots: seq<int>) {
    forall k :: 0 <= k < |slots| ==> 0 <= slots[k] < |pkts|
  }

  /** The UNIs of the given slots, in order: what the handler hands to the store. */
  function Unis(pkts: seq<Packet>, slots: seq<int>): (r: seq<seq<byte>>)
    requires AllInRange(pkts, slots)
    ensures |r| == |slots|
  {
    if |slots| == 0 then []
    else
      Unis(pkts, slots[..|slots| - 1]) + [pkts[slots[|slots| - 1]].uni]
  }

  /** The type bytes of the given slots, in order: the types of the replies. */
  function Types(pkts: seq<Packet>, slots: seq<int>): (r: seq<byte>)
    requires AllInRange(pkts, slots)
    ensures |r| == |slots|
  {
    if |slots| == 0 then []
    else
      Types(pkts, slots[..|slots| - 1]) + [pkts[slots[|slots| - 1]].ptype]
  }

  /**
   * The send buffer after the replies of the given types are accumulated:
   * reply k gets its type byte and that type's length in slot k.
   */
  function Replies(s: seq<byte>, types: seq<byte>): (r: seq<byte>)
    requires SlotsInRange(s, |types|)
    ensures |r| == |s|
  {
    if |types| == 0 then s
    else
      var k := |types| - 1;
      ReplyAt(Replies(s, types[..k]), k, types[k])
  }

  // ---------------------------------------------------------------------------
  // Properties of the processing

  /** Errors and valid packets add up to the packets of the buffer. */
  lemma {:induction false} ValidCountBound(pkts: seq<Packet>, n: int)
    requires 0 <= n <= |pkts|
    ensures ValidCount(pkts, n) <= n
  {
    if n > 0 {
      ValidCountBound(pkts, n - 1);
    }
  }

  /**
   * The picked slots are valid, strictly increasing and no more than the
   * valid slots: invalid packets are never stored or replied to.
   */
  lemma {:induction false} PicksValid(pkts: seq<Packet>, draws: seq<SlotDraw>, n: int, threshold: int, reply: bool)
    requires 0 <= n <= |pkts| && n <= |draws|
    ensures var r := Picks(pkts, draws, n, threshold, reply);
      && (forall k :: 0 <= k < |r| ==> pkts[r[k]].valid && Draw(draws[r[k]], reply) < threshold)
      && (forall k, m :: 0 <= k < m < |r| ==> r[k] < r[m])
      && |r| <= ValidCount(pkts, n)
  {
    if n > 0 {
      PicksValid(pkts, draws, n - 1, threshold, reply);
    }
  }

  /** A slot that is valid and drawn below the threshold is picked. */
  lemma {:induction false} PicksComplete(pkts: seq<Packet>, draws: seq<SlotDraw>, n: int, threshold: int, reply: bool, i: int)
    requires 0 <= i < n <= |pkts| && n <= |draws|
    requires pkts[i].valid && Draw(draws[i], reply) < threshold
    ensures i in Picks(pkts, draws, n, threshold, reply)
  {
    if i < n - 1 {
      PicksComplete(pkts, draws, n - 1, threshold, reply, i);
    }
  }

  /** A threshold of 0 or less picks nothing: with a percentage of 0 the handler never stores or replies. */
  lemma {:induction false} PicksNone(pkts: seq<Packet>, draws: seq<SlotDraw>, n: int, threshold: int, reply: bool)
    requires 0 <= n <= |pkts| && n <= |draws| && DrawsInRange(draws) && threshold <= 0
    ensures Picks(pkts, draws, n, threshold, reply) == []
  {
    if n > 0 {
      PicksNone(pkts, draws, n - 1, threshold, reply);
    }
  }

  /** A threshold of 1000 or more picks every valid slot: at 100 percent every valid packet is taken. */
  lemma {:induction false} PicksAll(pkts: seq<Packet>, draws: seq<SlotDraw>, n: int, threshold: int, reply: bool)
    requires 0 <= n <= |pkts| && n <= |draws| && DrawsInRange(draws) && PERCENT_LONG_NORMALIZED <= threshold
    ensures |Picks(pkts, draws, n, threshold, reply)| == ValidCount(pkts, n)
  {
    if n > 0 {
      PicksAll(pkts, draws, n - 1, threshold, reply);
    }
  }

  /** The types of readable valid packets are real types. */
  lemma {:induction false} TypesReal(pkts: seq<Packet>, slots: seq<int>)
    requires AllInRange(pkts, slots)
    requires forall k :: 0 <= k < |slots| ==> pkts[slots[k]].valid && Readable(pkts[slots[k]])
    ensures forall k :: 0 <= k < |slots| ==> ByType(Types(pkts, slots)[k]) != Error
  {
    if |slots| > 0 {
      TypesReal(pkts, slots[..|slots| - 1]);
    }
  }

  /**
   * Slot k of the send buffer, for every accumulated reply k, carries the
   * reply's type byte and passes `validate` exactly when that byte names a
   * real type.
   */
  lemma {:induction false} RepliesRead(s: seq<byte>, types: seq<byte>)
    requires SlotsInRange(s, |types|)
    ensures forall k :: 0 <= k < |types| ==>
      && TypeAt(Replies(s, types), k) == types[k]
      && (ValidAt(Replies(s, types), k) <==> ByType(types[k]) != Error)
  {
    if |types| > 0 {
      var k := |types| - 1;
      SlotFields(s, |types|, k);
      var p := Replies(s, types[..k]);
      RepliesRead(s, types[..k]);
      var t := WriteType(p, k * BUF_PACKET_BYTES_MAX, types[k]);
      var r := Replies(s, types);
      SetTypeAndLengthThenValidate(p, k * BUF_PACKET_BYTES_MAX, types[k], Length(ByType(types[k])));
      forall j | 0 <= j < k
        ensures TypeAt(r, j) == types[j] && (ValidAt(r, j) <==> ByType(types[j]) != Error)
      {
        SlotFields(s, |types|, j);
        SlotFields(s, k, j);
        WriteTypeFrame(p, BUF_PACKET_BYTES_MAX, k, types[k], j);
        WriteLengthFrame(t, BUF_PACKET_BYTES_MAX, k, Length(ByType(types[k])), j);
      }
    }
  }


  /**
   * Every reply the handler accumulates for a buffer passes `validate`, and
   * there are no more replies than valid packets.
   */
  lemma HandlerRepliesValid(s: seq<byte>, data: seq<byte>, draws: seq<SlotDraw>, n: int, threshold: int)
    requires SlotsInRange(data, n) && n <= |draws| && SlotsInRange(s, n)
    ensures var pkts := Read(data, n);
      var slots := Picks(pkts, draws, n, threshold, true);
      && |slots| <= ValidCount(pkts, n) <= n
      && SlotsInRange(s, |slots|)
      && AllInRange(pkts, slots)
      && forall k :: 0 <= k < |slots| ==> ValidAt(Replies(s, Types(pkts, slots)), k)
  {
    var pkts := Read(data, n);
    var slots := Picks(pkts, draws, n, threshold, true);
    PicksValid(pkts, draws, n, threshold, true);
    ValidCountBound(pkts, n);
    TypesReal(pkts, slots);
    RepliesRead(s, Types(pkts, slots));
  }

  /** One more reply type writes the next reply slot. */
  lemma RepliesSnoc(s: seq<byte>, types: seq<byte>, t: byte)
    requires SlotsInRange(s, |types| + 1)
    ensures Replies(s, types + [t]) == ReplyAt(Replies(s, types), |types|, t)
  {
    assert (types + [t])[..|types|] == types;
  }

  // ---------------------------------------------------------------------------
  // The workload

  /** The sum of 0 .. n-1. */
  function Triangle(n: int): int {
    if n <= 0 then 0 else Triangle(n - 1) + (n - 1)
  }

  /**
   * `workload()`: the sum of the loop counter over its iterations. The
   * iteration count is a long but the counter is a Java int, so for more
   * than INT_MAX iterations the counter wraps and the loop never ends (see
   * WorkloadNeverEnds); within that bound the long accumulator never wraps.
   */
  method Workload(iterations: int) returns (accumulator: int)
    requires iterations <= INT_MAX
    ensures accumulator == Triangle(iterations)
    ensures 0 <= accumulator < TWO_63
  {
    accumulator := 0;
    var i := 0;
    while i < iterations
      invariant 0 <= i <= (if iterations > 0 then iterations else 0)
      invariant accumulator == Triangle(i)
    {
      accumulator := accumulator + i;
      i := i + 1;
    }
    TriangleBound(iterations);
  }

  /** Twice the sum of 0 .. n-1 is n(n-1). */
  lemma {:induction false} TriangleClosed(n: int)
    requires 0 <= n
    ensures 2 * Triangle(n) == n * (n - 1)
  {
    if n > 0 {
      TriangleClosed(n - 1);
      assert n * (n - 1) == (n - 1) * (n - 2) + 2 * (n - 1);
    }
  }

  lemma TriangleBound(n: int)
    requires n <= INT_MAX
    ensures 0 <= Triangle(n) < TWO_63
  {
    if n > 0 {
      TriangleClosed(n);
      assert n * (n - 1) <= INT_MAX * INT_MAX by {
        MulMonotone(n, n - 1, INT_MAX);
      }
    }
  }

  /** The `int` counter of `workload()` after k increments: Java's `i++` wraps at 2^31. */
  function WorkloadCounter(k: nat): int {
    if k == 0 then 0 else Int32Wrap(WorkloadCounter(k - 1) + 1)
  }

  /** After k increments the counter is k reduced to the signed 32-bit range. */
  lemma {:induction false} WorkloadCounterWraps(k: nat)
    ensures WorkloadCounter(k) == Int32Wrap(k)
  {
    if k > 0 {
      WorkloadCounterWraps(k - 1);
      WrapAdd(k - 1, 1);
    }
  }

  /**
   * With more than INT_MAX iterations the guard `i < workloadIterations`
   * holds after every number of increments: the loop of `workload()` never
   * ends.
   */
  lemma WorkloadNeverEnds(iterations: int, k: nat)
    requires iterations > INT_MAX
    ensures WorkloadCounter(k) < iterations
  {
    WorkloadCounterWraps(k);
  }

  /** The increment after INT_MAX increments takes the counter to the most negative `int`. */
  lemma WorkloadCounterTurnsNegative()
    ensures WorkloadCounter(INT_MAX + 1) == -0x8000_0000
  {
    WorkloadCounterWraps(INT_MAX + 1);
  }

  lemma MulMonotone(a: int, b: int, c: int)
    requires 0 <= b <= a <= c
    ensures 0 <= a * b <= c * c
  {
    assert a * b <= c * b;
    assert c * b <= c * c;
  }

  // ---------------------------------------------------------------------------
  // One buffer, slot by slot

  /** The handler's settings: the store and reply thresholds (per mille) and the workload iterations. */
  datatype Settings = Settings(store: int, reply: int, iterations: int)

  /**
   * What processing changes: the error, store, reply and workload counters,
   * the workload accumulator, the UNIs saved and the types of the replies
   * accumulated in the send buffer.
   */
  datatype Tally = Tally(errors: int, stores: int, replies: int, workload: int, accumulator: int,
                         saved: seq<seq<byte>>, types: seq<byte>)

  /**
   * One turn of the processing loop on a packet with its two draws: an
   * invalid packet is counted as an error; a valid one is stored when its
   * store draw is below the store threshold, and answered, with the
   * workload run when iterations are configured, when its reply draw is
   * below the reply threshold.
   */
  function SlotEffect(cfg: Settings, t: Tally, p: Packet, d: SlotDraw): (r: Tally)
    ensures |t.types| <= |r.types| <= |t.types| + 1
  {
    if !p.valid then t.(errors := t.errors + 1)
    else ReplyEffect(cfg, StoreEffect(cfg, t, p, d), p, d)
  }

  /** The store half of a valid packet. */
  function StoreEffect(cfg: Settings, t: Tally, p: Packet, d: SlotDraw): Tally {
    if d.store < cfg.store then t.(saved := t.saved + [p.uni], stores := t.stores + 1) else t
  }

  /** The reply half of a valid packet. */
  function ReplyEffect(cfg: Settings, t: Tally, p: Packet, d: SlotDraw): Tally {
    if d.reply < cfg.reply then
      var t1 := t.(types := t.types + [p.ptype], replies := t.replies + 1);
      if 0 < cfg.iterations then t1.(accumulator := Triangle(cfg.iterations), workload := t1.workload + 1) else t1
    else t
  }

  /** The loop over the first n packets, starting from t. */
  function Tallied(cfg: Settings, t: Tally, pkts: seq<Packet>, draws: seq<SlotDraw>, n: int): (r: Tally)
    requires 0 <= n <= |pkts| && n <= |draws|
    ensures |t.types| <= |r.types| <= |t.types| + n
  {
    if n == 0 then t
    else SlotEffect(cfg, Tallied(cfg, t, pkts, draws, n - 1), pkts[n - 1], draws[n - 1])
  }

  lemma UnisSnoc(pkts: seq<Packet>, slots: seq<int>, i: int)
    requires AllInRange(pkts, slots) && 0 <= i < |pkts|
    ensures AllInRange(pkts, slots + [i])
    ensures Unis(pkts, slots + [i]) == Unis(pkts, slots) + [pkts[i].uni]
  {
    assert (slots + [i])[..|slots|] == slots;
  }

  lemma TypesSnoc(pkts: seq<Packet>, slots: seq<int>, i: int)
    requires AllInRange(pkts, slots) && 0 <= i < |pkts|
    ensures AllInRange(pkts, slots + [i])
    ensures Types(pkts, slots + [i]) == Types(pkts, slots) + [pkts[i].ptype]
  {
    assert (slots + [i])[..|slots|] == slots;
  }

  /** Types accumulated on top of `base` extend by the type of one more slot. */
  lemma TypesExtend(base: seq<byte>, pkts: seq<Packet>, slots: seq<int>, i: int, before: seq<byte>)
    requires AllInRange(pkts, slots) && 0 <= i < |pkts| && before == base + Types(pkts, slots)
    ensures AllInRange(pkts, slots + [i])
    ensures before + [pkts[i].ptype] == base + Types(pkts, slots + [i])
  {
    TypesSnoc(pkts, slots, i);
  }

  lemma {:induction false} TalliedErrors(cfg: Settings, t: Tally, pkts: seq<Packet>, draws: seq<SlotDraw>, n: int)
    requires 0 <= n <= |pkts| && n <= |draws|
    ensures Tallied(cfg, t, pkts, draws, n).errors == t.errors + n - ValidCount(pkts, n)
  {
    if n > 0 {
      TalliedErrors(cfg, t, pkts, draws, n - 1);
    }
  }

  /** What one packet does to the stores. */
  lemma SlotEffectStores(cfg: Settings, t: Tally, p: Packet, d: SlotDraw)
    ensures var r := SlotEffect(cfg, t, p, d);
      var picked := p.valid && d.store < cfg.store;
      && r.saved == t.saved + (if picked then [p.uni] else [])
      && r.stores == t.stores + (if picked then 1 else 0)
  {
  }

  /** What one packet does to the replies. */
  lemma SlotEffectReplies(cfg: Settings, t: Tally, p: Packet, d: SlotDraw)
    ensures var r := SlotEffect(cfg, t, p, d);
      var picked := p.valid && d.reply < cfg.reply;
      && r.replies == t.replies + (if picked then 1 else 0)
      && r.workload == t.workload + (if picked && 0 < cfg.iterations then 1 else 0)
      && r.accumulator == (if picked && 0 < cfg.iterations then Triangle(cfg.iterations) else t.accumulator)
      && r.types == t.types + (if picked then [p.ptype] else [])
  {
  }

  /** What one packet does to the reply types. */
  lemma SlotEffectTypes(cfg: Settings, t: Tally, p: Packet, d: SlotDraw)
    ensures SlotEffect(cfg, t, p, d).types == t.types + (if p.valid && d.reply < cfg.reply then [p.ptype] else [])
  {
  }

  lemma {:induction false} TalliedStores(cfg: Settings, t: Tally, pkts: seq<Packet>, draws: seq<SlotDraw>, n: int)
    requires 0 <= n <= |pkts| && n <= |draws|
    ensures var r := Tallied(cfg, t, pkts, draws, n);
      var stores := Picks(pkts, draws, n, cfg.store, false);
      && AllInRange(pkts, stores)
      && r.saved == t.saved + Unis(pkts, stores) && r.stores == t.stores + |stores|
  {
    if n == 0 {
      assert t.saved + [] == t.saved;
    } else {
      var m := n - 1;
      TalliedStores(cfg, t, pkts, draws, m);
      var p := Picks(pkts, draws, m, cfg.store, false);
      SlotEffectStores(cfg, Tallied(cfg, t, pkts, draws, m), pkts[m], draws[m]);
      if pkts[m].valid && draws[m].store < cfg.store {
        assert Picks(pkts, draws, n, cfg.store, false) == p + [m];
        UnisSnoc(pkts, p, m);
        assert t.saved + Unis(pkts, p + [m]) == (t.saved + Unis(pkts, p)) + [pkts[m].uni];
      } else {
        assert Picks(pkts, draws, n, cfg.store, false) == p;
      }
    }
  }

  lemma {:induction false} TalliedReplies(cfg: Settings, t: Tally, pkts: seq<Packet>, draws: seq<SlotDraw>, n: int)
    requires 0 <= n <= |pkts| && n <= |draws|
    ensures var r := Tallied(cfg, t, pkts, draws, n);
      var replies := Picks(pkts, draws, n, cfg.reply, true);
      && r.replies == t.replies + |replies|
      && r.workload == t.workload + (if 0 < cfg.iterations then |replies| else 0)
      && r.accumulator == (if 0 < cfg.iterations && |replies| > 0 then Triangle(cfg.iterations) else t.accumulator)
  {
    if n > 0 {
      var m := n - 1;
      TalliedReplies(cfg, t, pkts, draws, m);
      var p := Picks(pkts, draws, m, cfg.reply, true);
      SlotEffectReplies(cfg, Tallied(cfg, t, pkts, draws, m), pkts[m], draws[m]);
      PicksStep(pkts, draws, n, cfg.reply, true);
    }
  }

  lemma {:induction false} TalliedTypes(cfg: Settings, t: Tally, pkts: seq<Packet>, draws: seq<SlotDraw>, n: int)
    requires 0 <= n <= |pkts| && n <= |draws|
    ensures var replies := Picks(pkts, draws, n, cfg.reply, true);
      && AllInRange(pkts, replies)
      && Tallied(cfg, t, pkts, draws, n).types == t.types + Types(pkts, replies)
  {
    if n == 0 {
      assert t.types + [] == t.types;
    } else {
      var m := n - 1;
      TalliedTypes(cfg, t, pkts, draws, m);
      var p := Picks(pkts, draws, m, cfg.reply, true);
      SlotEffectTypes(cfg, Tallied(cfg, t, pkts, draws, m), pkts[m], draws[m]);
      PicksStep(pkts, draws, n, cfg.reply, true);
      if pkts[m].valid && draws[m].reply < cfg.reply {
        TypesExtend(t.types, pkts, p, m, Tallied(cfg, t, pkts, draws, m).types);
      }
    }
  }

  /**
   * The loop over a buffer in closed form: one error per invalid packet,
   * the UNIs of the slots picked for storing saved in slot order, one reply
   * per slot picked for replying, of that slot's type and in slot order,
   * and the workload run once per reply.
   */
  lemma TalliedClosed(cfg: Settings, t: Tally, pkts: seq<Packet>, draws: seq<SlotDraw>, n: int)
    requires 0 <= n <= |pkts| && n <= |draws|
    ensures var r := Tallied(cfg, t, pkts, draws, n);
      var stores := Picks(pkts, draws, n, cfg.store, false);
      var replies := Picks(pkts, draws, n, cfg.reply, true);
      && AllInRange(pkts, stores) && AllInRange(pkts, replies)
      && r.errors == t.errors + n - ValidCount(pkts, n)
      && r.saved == t.saved + Unis(pkts, stores)
      && r.stores == t.stores + |stores|
      && r.replies == t.replies + |replies|
      && r.workload == t.workload + (if 0 < cfg.iterations then |replies| else 0)
      && r.accumulator == (if 0 < cfg.iterations && |replies| > 0 then Triangle(cfg.iterations) else t.accumulator)
      && r.types == t.types + Types(pkts, replies)
  {
    TalliedErrors(cfg, t, pkts, draws, n);
    TalliedStores(cfg, t, pkts, draws, n);
    TalliedReplies(cfg, t, pkts, draws, n);
    TalliedTypes(cfg, t, pkts, draws, n);
  }

  /** Errors are counted once per packet that fails `validate`, never more than the packets. */
  lemma ErrorsBounded(cfg: Settings, t: Tally, pkts: seq<Packet>, draws: seq<SlotDraw>, n: int)
    requires 0 <= n <= |pkts| && n <= |draws|
    ensures t.errors <= Tallied(cfg, t, pkts, draws, n).errors <= t.errors + n
  {
    TalliedErrors(cfg, t, pkts, draws, n);
    ValidCountBound(pkts, n);
  }

  // ---------------------------------------------------------------------------
  // The thread

  /** A percentage of whole percents on the scale of the draws: `(long) (1000 * p / 100f)`. */
  function Normalize(percent: int): (r: int)
    requires 0 <= percent <= 100
    ensures 0 <= r <= PERCENT_LONG_NORMALIZED
    ensures percent == 0 <==> r == 0
    ensures percent == 100 <==> r == PERCENT_LONG_NORMALIZED
  {
    PERCENT_LONG_NORMALIZED * percent / 100
  }

  /** The bytes of the reply address that fit the slot header's address field. */
  predicate AddressFits(address: seq<byte>) {
    SLOT_HEADER_ADDR_SHIFT + |address| <= SLOT_DATA_SHIFT
  }

  /** The packets of a received buffer the processing loop visits: none when the count is negative. */
  function Visited(b: RxBuffer): nat {
    if b.packets < 0 then 0 else b.packets
  }

  /** The processing loop can read every visited slot and answer each in the send buffer. */
  predicate Processable(b: RxBuffer, draws: seq<SlotDraw>) {
    Visited(b) <= BUF_PACKETS_MAX && SlotsInRange(b.data, Visited(b)) && Visited(b) <= |draws|
  }

  class RxThreadPacketHandler {
    /** The lane whose used queue the handler drains and whose free queue it refills. */
    const lanes: LaneQueues
    const lane: int
    /** Thresholds for the draws, per mille. */
    const percentToStore: int
    const percentToReply: int
    const workloadIterations: int
    /** The preallocated reply buffer. */
    const sendBuffer: PacketBuffer

    var rxIterationCounter: int
    var rxNoUsedBuffers: int
    var rxNoUsedBuffersLong: int
    var rxFreeBuffersOverflow: int
    var rxPacketErrors: int
    var rxPacketReplies: int
    var rxPacketStores: int
    var rxPacketWorkload: int
    var txErrors: int
    var txErrno: int
    var workloadAccumulator: int

    /** The UNIs handed to the state store, in order. */
    var saved: seq<seq<byte>>
    /** The batches handed to the socket: the bytes of the accumulated reply slots. */
    var sent: seq<seq<byte>>
    /** The types of the replies accumulated since the reply count was last reset. */
    ghost var replyTypes: seq<byte>

    /** The reply buffer has the handler's geometry. */
    ghost predicate SendReady() {
      && sendBuffer.slots == BUF_PACKETS_MAX && sendBuffer.slotSize == BUF_PACKET_BYTES_MAX
      && sendBuffer.buffer.Length == BUF_PACKETS_MAX * BUF_PACKET_BYTES_MAX
    }

    /**
     * The workload loop ends for every reply drawn for a slot of the bytes
     * that passes `validate`, among the first n: the iterations fit the `int`
     * counter, or no such reply is drawn (see WorkloadNeverEnds).
     */
    ghost predicate WorkloadEnds(data: seq<byte>, draws: seq<SlotDraw>, n: nat)
      decreases n
    {
      0 < n <= |draws| ==>
        && WorkloadEnds(data, draws, n - 1)
        && (ValidAt(data, n - 1) && draws[n - 1].reply < percentToReply ==> workloadIterations <= INT_MAX)
    }

    /** What WorkloadEnds says of one of the first n slots. */
    lemma {:induction false} WorkloadEndsAt(data: seq<byte>, draws: seq<SlotDraw>, n: nat, i: int)
      requires WorkloadEnds(data, draws, n) && 0 <= i < n <= |draws|
      ensures ValidAt(data, i) && draws[i].reply < percentToReply ==> workloadIterations <= INT_MAX
      decreases n
    {
      if i < n - 1 {
        WorkloadEndsAt(data, draws, n - 1, i);
      }
    }

    ghost predicate Valid()
      reads this, sendBuffer, lanes
    {
      && SendReady() && sendBuffer.Valid()
      && lanes.Valid() && |lanes.free| == |lanes.used| && 0 <= lane < |lanes.used|
    }

    /**
     * The constructor: thresholds from whole percents, and a send buffer
     * of 1024 slots of 1024 bytes whose every slot holds the reply
     * address, the extension header template and the payload template.
     */
    constructor Init(lanes: LaneQueues, lane: int, percentToStore: int, percentToReply: int,
                     workloadIterations: int, replyAddress: seq<byte>)
      requires lanes.Valid() && |lanes.free| == |lanes.used| && 0 <= lane < |lanes.used|
      requires 0 <= percentToStore <= 100 && 0 <= percentToReply <= 100
      requires AddressFits(replyAddress)
      ensures Valid() && fresh(sendBuffer) && fresh(sendBuffer.buffer)
      ensures this.lanes == lanes && this.lane == lane && this.workloadIterations == workloadIterations
      ensures this.percentToStore == Normalize(percentToStore) && this.percentToReply == Normalize(percentToReply)
      ensures sendBuffer.packets == 0
      ensures sendBuffer.buffer[..] == Templated(seq(BUF_PACKETS_MAX * BUF_PACKET_BYTES_MAX, _ => 0),
                                                 BUF_PACKET_BYTES_MAX, replyAddress, BUF_PACKETS_MAX)
      ensures saved == [] && sent == [] && replyTypes == []
      ensures rxIterationCounter == rxNoUsedBuffers == rxNoUsedBuffersLong == rxFreeBuffersOverflow == 0
      ensures rxPacketErrors == rxPacketReplies == rxPacketStores == rxPacketWorkload == 0
      ensures txErrors == txErrno == workloadAccumulator == 0
    {
      this.lanes := lanes;
      this.lane := lane;
      this.percentToStore := Normalize(percentToStore);
      this.percentToReply := Normalize(percentToReply);
      this.workloadIterations := workloadIterations;
      var sb := new PacketBuffer.Allocate(BUF_PACKETS_MAX, BUF_PACKET_BYTES_MAX);
      LayoutOffsets();
      PopulateTemplates(sb, BUF_PACKETS_MAX, replyAddress);
      sendBuffer := sb;
      rxIterationCounter, rxNoUsedBuffers, rxNoUsedBuffersLong, rxFreeBuffersOverflow := 0, 0, 0, 0;
      rxPacketErrors, rxPacketReplies, rxPacketStores, rxPacketWorkload := 0, 0, 0, 0;
      txErrors, txErrno, workloadAccumulator := 0, 0, 0;
      saved, sent := [], [];
      replyTypes := [];
    }

    /**
     * The empty polls before a used buffer arrives: one poll, up to
     * SPIN_POLLS spinning polls, up to PARK_POLLS parking polls, then polls
     * with a sleep between them. The receiver fills the used queue
     * concurrently, so `waits`, the number of empty polls, is a parameter.
     */
    method WaitForUsed(waits: nat)
      modifies this`rxNoUsedBuffers, this`rxNoUsedBuffersLong
      ensures rxNoUsedBuffers == old(rxNoUsedBuffers) + (if waits > 0 then 1 else 0)
      ensures rxNoUsedBuffersLong == old(rxNoUsedBuffersLong) + (if waits > SPIN_POLLS then 1 else 0)
    {
      var polls := 0;
      var found := polls >= waits;
      if !found {
        rxNoUsedBuffers := rxNoUsedBuffers + 1;
        var counter := SPIN_POLLS;
        polls := polls + 1;
        found := polls >= waits;
        if !found {
          counter := counter - 1;
        }
        while !found && 0 < counter
          invariant 1 <= polls <= SPIN_POLLS && polls <= waits && (found <==> polls == waits)
          invariant counter == if found then SPIN_POLLS + 1 - polls else SPIN_POLLS - polls
          decreases waits - polls
        {
          polls := polls + 1;
          found := polls >= waits;
          if !found {
            counter := counter - 1;
          }
        }
        if counter == 0 && !found {
          rxNoUsedBuffersLong := rxNoUsedBuffersLong + 1;
          counter := PARK_POLLS;
          polls := polls + 1;
          found := polls >= waits;
          if !found {
            counter := counter - 1;
          }
          while !found && 0 < counter
            invariant SPIN_POLLS < polls <= waits && (found <==> polls == waits)
            decreases waits - polls
          {
            polls := polls + 1;
            found := polls >= waits;
            if !found {
              counter := counter - 1;
            }
          }
          if counter == 0 && !found {
            polls := polls + 1;
            found := polls >= waits;
            while !found
              invariant polls <= waits && (found <==> polls == waits)
              decreases waits - polls
            {
              polls := polls + 1;
              found := polls >= waits;
            }
          }
        }
      }
    }

    /** `store`: the UNI of slot i goes to the state store (a failed save is only reported). */
    method Store(uni: seq<byte>)
      modifies this`saved
      ensures saved == old(saved) + [uni]
    {
      saved := saved + [uni];
    }

    /**
     * `accumulateReply`: the next reply slot gets the type byte of slot i
     * and the length of that type, and the reply count grows by one.
     */
    method AccumulateReply(pType: byte)
      requires SendReady() && 0 <= sendBuffer.packets < BUF_PACKETS_MAX
      modifies sendBuffer`packets, sendBuffer.buffer, this`replyTypes
      ensures sendBuffer.packets == old(sendBuffer.packets) + 1
      ensures sendBuffer.buffer[..] == ReplyAt(old(sendBuffer.buffer[..]), old(sendBuffer.packets), pType)
      ensures replyTypes == old(replyTypes) + [pType]
    {
      SlotFields(sendBuffer.buffer[..], BUF_PACKETS_MAX, sendBuffer.packets);
      sendBuffer.SetPacketType(sendBuffer.packets, pType);
      sendBuffer.SetPacketLength(sendBuffer.packets, Length(ByType(pType)));
      sendBuffer.packets := sendBuffer.packets + 1;
      replyTypes := replyTypes + [pType];
    }

    /**
     * `sendReplies`: the accumulated reply slots go to the socket, whose
     * result and errno are parameters; a result of -1 records the errno
     * and counts an error.
     */
    method SendReplies(result: int, errno: int)
      requires SendReady() && 0 <= sendBuffer.packets <= BUF_PACKETS_MAX
      modifies this`sent, this`txErrors, this`txErrno
      ensures SlotsInRange(sendBuffer.buffer[..], sendBuffer.packets)
      ensures sent == old(sent) + [sendBuffer.buffer[..sendBuffer.packets * BUF_PACKET_BYTES_MAX]]
      ensures result == -1 ==> txErrors == old(txErrors) + 1 && txErrno == errno
      ensures result != -1 ==> txErrors == old(txErrors) && txErrno == old(txErrno)
    {
      sent := sent + [sendBuffer.buffer[..sendBuffer.packets * sendBuffer.slotSize]];
      if result == -1 {
        txErrno := errno;
        txErrors := txErrors + 1;
      }
    }

    /** The handler's settings. */
    function Config(): Settings {
      Settings(percentToStore, percentToReply, workloadIterations)
    }

    /** The state processing changes. */
    ghost function Tallies(): Tally
      reads this
    {
      Tally(rxPacketErrors, rxPacketStores, rxPacketReplies, rxPacketWorkload, workloadAccumulator, saved, replyTypes)
    }

    /**
     * The send buffer holds, from the bytes buf0 it had when the reply count
     * was reset, one reply per type of types, and the reply count is their
     * number.
     */
    ghost predicate Accumulated(buf0: seq<byte>, types: seq<byte>)
      reads sendBuffer, sendBuffer.buffer
    {
      && sendBuffer.packets == |types| && |buf0| == sendBuffer.buffer.Length
      && SlotsInRange(buf0, |types|)
      && sendBuffer.buffer[..] == Replies(buf0, types)
    }

    /** The store half of a valid slot: stored when the store draw is below the threshold. */
    method StoreDrawn(p: Packet, d: SlotDraw)
      modifies this`rxPacketStores, this`saved
      ensures saved == old(saved) + (if d.store < percentToStore then [p.uni] else [])
      ensures rxPacketStores == old(rxPacketStores) + (if d.store < percentToStore then 1 else 0)
      ensures Tallies() == StoreEffect(Config(), old(Tallies()), p, d)
    {
      if d.store < percentToStore {
        Store(p.uni);
        rxPacketStores := rxPacketStores + 1;
      }
    }

    /** A reply of the given type is accumulated on top of the earlier ones. */
    method AnswerSlot(pType: byte, ghost buf0: seq<byte>)
      requires SendReady() && Accumulated(buf0, replyTypes) && sendBuffer.packets < BUF_PACKETS_MAX
      modifies sendBuffer`packets, sendBuffer.buffer, this`replyTypes
      ensures replyTypes == old(replyTypes) + [pType]
      ensures Accumulated(buf0, replyTypes)
    {
      RepliesSnoc(buf0, replyTypes, pType);
      AccumulateReply(pType);
    }

    /** The reply half of a valid slot: answered, with the workload, when the reply draw is below the threshold. */
    method ReplyDrawn(p: Packet, d: SlotDraw, ghost buf0: seq<byte>)
      requires SendReady() && (d.reply < percentToReply ==> workloadIterations <= INT_MAX)
      requires Accumulated(buf0, replyTypes) && sendBuffer.packets < BUF_PACKETS_MAX
      modifies sendBuffer`packets, sendBuffer.buffer, this`rxPacketReplies, this`rxPacketWorkload
      modifies this`workloadAccumulator, this`replyTypes
      ensures Accumulated(buf0, replyTypes)
      ensures var picked := d.reply < percentToReply;
        && replyTypes == old(replyTypes) + (if picked then [p.ptype] else [])
        && rxPacketReplies == old(rxPacketReplies) + (if picked then 1 else 0)
        && rxPacketWorkload == old(rxPacketWorkload) + (if picked && 0 < workloadIterations then 1 else 0)
        && workloadAccumulator == (if picked && 0 < workloadIterations then Triangle(workloadIterations) else old(workloadAccumulator))
      ensures Tallies() == ReplyEffect(Config(), old(Tallies()), p, d)
    {
      ghost var t0 := Tallies();
      if d.reply < percentToReply {
        AnswerSlot(p.ptype, buf0);
      }
      CountReply(p, d, t0);
    }

    /** The counters of the reply half, once the reply types hold the answer. */
    method CountReply(p: Packet, d: SlotDraw, ghost t0: Tally)
      requires d.reply < percentToReply ==> workloadIterations <= INT_MAX
      requires replyTypes == t0.types + (if d.reply < percentToReply then [p.ptype] else [])
      requires Tallies() == t0.(types := replyTypes)
      modifies this`rxPacketReplies, this`rxPacketWorkload, this`workloadAccumulator
      ensures Tallies() == ReplyEffect(Config(), t0, p, d)
    {
      if d.reply < percentToReply {
        rxPacketReplies := rxPacketReplies + 1;
        if 0 < workloadIterations {
          workloadAccumulator := Workload(workloadIterations);
          rxPacketWorkload := rxPacketWorkload + 1;
        }
      }
    }

    /** One turn of the processing loop on a packet read from its slot. */
    method ProcessSlot(p: Packet, d: SlotDraw, ghost buf0: seq<byte>)
      requires SendReady() && (p.valid && d.reply < percentToReply ==> workloadIterations <= INT_MAX)
      requires Accumulated(buf0, replyTypes) && sendBuffer.packets < BUF_PACKETS_MAX
      modifies sendBuffer`packets, sendBuffer.buffer, this`rxPacketErrors, this`rxPacketStores, this`saved
      modifies this`rxPacketReplies, this`rxPacketWorkload, this`workloadAccumulator, this`replyTypes
      ensures Tallies() == SlotEffect(Config(), old(Tallies()), p, d)
      ensures Accumulated(buf0, replyTypes)
    {
      if !p.valid {
        rxPacketErrors := rxPacketErrors + 1;
        return;
      }
      StoreDrawn(p, d);
      ReplyDrawn(p, d, buf0);
    }

    /** One turn of the loop of `process`: read slot i and process it, extending the tally by that slot. */
    method ProcessNext(b: RxBuffer, draws: seq<SlotDraw>, ghost buf0: seq<byte>, ghost t0: Tally, ghost pkts: seq<Packet>, i: int)
      requires SendReady() && Processable(b, draws) && pkts == Read(b.data, Visited(b)) && 0 <= i < Visited(b)
      requires WorkloadEnds(b.data, draws, Visited(b))
      requires Tallies() == Tallied(Config(), t0, pkts, draws, i) && |t0.types| == 0
      requires Accumulated(buf0, replyTypes)
      modifies sendBuffer`packets, sendBuffer.buffer, this`rxPacketErrors, this`rxPacketStores, this`saved
      modifies this`rxPacketReplies, this`rxPacketWorkload, this`workloadAccumulator, this`replyTypes
      ensures Tallies() == Tallied(Config(), t0, pkts, draws, i + 1)
      ensures Accumulated(buf0, replyTypes)
    {
      var p := ReadSlot(b.data, i);
      assert p == pkts[i];
      WorkloadEndsAt(b.data, draws, Visited(b), i);
      ghost var before := Tallies();
      ProcessSlot(p, draws[i], buf0);
      assert Tallied(Config(), t0, pkts, draws, i + 1) == SlotEffect(Config(), before, p, draws[i]);
    }

    /** The loop of `process` over the visited slots. */
    method ProcessSlots(b: RxBuffer, draws: seq<SlotDraw>, ghost buf0: seq<byte>)
      requires SendReady() && Processable(b, draws) && Accumulated(buf0, []) && replyTypes == []
      requires WorkloadEnds(b.data, draws, Visited(b))
      modifies sendBuffer`packets, sendBuffer.buffer, this`rxPacketErrors, this`rxPacketStores, this`saved
      modifies this`rxPacketReplies, this`rxPacketWorkload, this`workloadAccumulator, this`replyTypes
      ensures Tallies() == Tallied(Config(), old(Tallies()), Read(b.data, Visited(b)), draws, Visited(b))
      ensures Accumulated(buf0, replyTypes)
    {
      var n := Visited(b);
      ghost var t0 := Tallies();
      ghost var pkts := Read(b.data, n);
      var i := 0;
      while i < b.packets
        invariant 0 <= i <= n
        invariant Tallies() == Tallied(Config(), t0, pkts, draws, i)
        invariant Accumulated(buf0, replyTypes)
      {
        ProcessNext(b, draws, buf0, t0, pkts, i);
        i := i + 1;
      }
      assert i == n;
    }

    /**
     * `process`: the reply count starts at 0, the visited slots are
     * processed in order, and a non-empty batch of replies is sent.
     */
    method Process(b: RxBuffer, draws: seq<SlotDraw>, sendResult: int, errno: int)
      requires SendReady() && Processable(b, draws)
      requires WorkloadEnds(b.data, draws, Visited(b))
      modifies sendBuffer`packets, sendBuffer.buffer, this`rxPacketErrors, this`rxPacketStores, this`saved
      modifies this`rxPacketReplies, this`rxPacketWorkload, this`workloadAccumulator, this`replyTypes
      modifies this`sent, this`txErrors, this`txErrno
      ensures Tallies() == Tallied(Config(), old(Tallies()).(types := []), Read(b.data, Visited(b)), draws, Visited(b))
      ensures Accumulated(old(sendBuffer.buffer[..]), replyTypes)
      ensures sendBuffer.packets > 0 ==>
        && sent == old(sent) + [sendBuffer.buffer[..sendBuffer.packets * BUF_PACKET_BYTES_MAX]]
        && txErrors == old(txErrors) + (if sendResult == -1 then 1 else 0)
        && txErrno == (if sendResult == -1 then errno else old(txErrno))
      ensures sendBuffer.packets == 0 ==> sent == old(sent) && txErrors == old(txErrors) && txErrno == old(txErrno)
    {
      ghost var buf0 := sendBuffer.buffer[..];
      sendBuffer.packets := 0;
      replyTypes := [];
      ProcessSlots(b, draws, buf0);
      if sendBuffer.packets > 0 {
        SendReplies(sendResult, errno);
      }
    }

    /**
     * Gives the buffer back to the free queue of the lane, after
     * `fullOffers` offers that found it full (the receiver drains it
     * concurrently); the offer that follows succeeds.
     */
    method Release(b: RxBuffer, fullOffers: nat)
      requires lanes.Valid() && 0 <= lane < |lanes.free| && |lanes.free[lane]| < lanes.capacity
      modifies lanes, this`rxFreeBuffersOverflow
      ensures lanes.Valid() && lanes.used == old(lanes.used)
      ensures lanes.free == old(lanes.free)[lane := old(lanes.free)[lane] + [b]]
      ensures lanes.Pool() == old(lanes.Pool()) + 1
      ensures rxFreeBuffersOverflow == old(rxFreeBuffersOverflow) + fullOffers
    {
      var failed := 0;
      while failed < fullOffers
        invariant 0 <= failed <= fullOffers
        invariant rxFreeBuffersOverflow == old(rxFreeBuffersOverflow) + failed
        modifies this`rxFreeBuffersOverflow
      {
        rxFreeBuffersOverflow := rxFreeBuffersOverflow + 1;
        failed := failed + 1;
      }
      var ok := lanes.OfferFree(lane, b);
    }

    /** The polls of one turn: the empty ones, then the one that takes the head of the lane's used queue. */
    method Take(waits: nat) returns (b: RxBuffer)
      requires lanes.Valid() && 0 <= lane < |lanes.used| && |lanes.used[lane]| > 0
      modifies lanes, this`rxNoUsedBuffers, this`rxNoUsedBuffersLong, this`rxIterationCounter
      ensures lanes.Valid() && lanes.free == old(lanes.free)
      ensures b == old(lanes.used[lane][0]) && lanes.used == old(lanes.used)[lane := old(lanes.used[lane])[1..]]
      ensures lanes.Pool() == old(lanes.Pool()) - 1
      ensures rxIterationCounter == old(rxIterationCounter) + 1
      ensures rxNoUsedBuffers == old(rxNoUsedBuffers) + (if waits > 0 then 1 else 0)
      ensures rxNoUsedBuffersLong == old(rxNoUsedBuffersLong) + (if waits > SPIN_POLLS then 1 else 0)
    {
      WaitForUsed(waits);
      var polled := lanes.PollUsed(lane);
      b := polled.value;
      rxIterationCounter := rxIterationCounter + 1;
    }

    /**
     * One turn of the thread's loop: wait for and take the head of the
     * lane's used queue, count it, process it and give it back to the lane's
     * free queue. The buffer moves from one queue to the other, so the pool
     * of buffers is unchanged.
     */
    method Step(waits: nat, draws: seq<SlotDraw>, sendResult: int, errno: int, fullOffers: nat)
      requires Valid() && |lanes.used[lane]| > 0 && |lanes.free[lane]| < lanes.capacity
      requires Processable(lanes.used[lane][0], draws)
      requires WorkloadEnds(lanes.used[lane][0].data, draws, Visited(lanes.used[lane][0]))
      modifies lanes, sendBuffer`packets, sendBuffer.buffer
      modifies this`rxNoUsedBuffers, this`rxNoUsedBuffersLong, this`rxIterationCounter, this`rxFreeBuffersOverflow
      modifies this`rxPacketErrors, this`rxPacketStores, this`saved, this`rxPacketReplies, this`rxPacketWorkload
      modifies this`workloadAccumulator, this`replyTypes, this`sent, this`txErrors, this`txErrno
      ensures Valid() && lanes.Pool() == old(lanes.Pool())
      ensures lanes.used == old(lanes.used)[lane := old(lanes.used[lane])[1..]]
      ensures lanes.free == old(lanes.free)[lane := old(lanes.free[lane]) + [old(lanes.used[lane][0])]]
      ensures rxIterationCounter == old(rxIterationCounter) + 1
      ensures rxNoUsedBuffers == old(rxNoUsedBuffers) + (if waits > 0 then 1 else 0)
      ensures rxNoUsedBuffersLong == old(rxNoUsedBuffersLong) + (if waits > SPIN_POLLS then 1 else 0)
      ensures rxFreeBuffersOverflow == old(rxFreeBuffersOverflow) + fullOffers
      ensures var b := old(lanes.used[lane][0]);
        Tallies() == Tallied(Config(), old(Tallies()).(types := []), Read(b.data, Visited(b)), draws, Visited(b))
      ensures Accumulated(old(sendBuffer.buffer[..]), replyTypes)
    {
      var b := Take(waits);
      Process(b, draws, sendResult, errno);
      Release(b, fullOffers);
    }
  }
}
