# xnetp packet codec and buffer pipeline — a Dafny model

xnetp is a proof of concept for a custom IPv6 extension header (Next Header
253). Each xnetp packet carries a 16-byte UNI (a state address: volume,
segment and address) and a one-byte packet type. Every type has a fixed data
length.

This project models the parts of the repository that decide what a packet
is and where a buffer goes:

- **PacketType** (`PacketTypes`): the type table, with the code and length of
  each type, and `byType` decoding.
- **PacketBuffer** (`Codec`, `Bytes`, `SlotTemplates`): the slot layout of a
  buffer of fixed-size slots.
  - The slot header holds the destination at +8 and the data length at +28.
  - The reserved IPv6 fixed header follows.
  - The xnetp extension header starts at +72, with the UNI at +76 and the
    type at +92.
  - The payload starts at +104.
  - The buffer's writers are modelled, together with its one acceptance gate,
    `validate`.
  - The pure layout functions work on `seq<byte>`. The class `PacketBuffer`
    updates an `array<byte>` in place and states each update as one of those
    functions applied to the old bytes.
- **PacketSender** (`Sender`): configuration checks, the split of the packet
  budget over threads, and weighted type selection over prefix sums. It also
  covers the ERROR remap that forges malformed packets, the filling of a
  batch, and the send loop that resends a batch after a failed `sendmmsg`.
- **Receive pipeline** (`Lanes`, `Receiver`, `Handler`), one loop turn at a
  time.
  - Buffers circulate between per-lane free and used queues.
  - The receiving thread takes a free buffer, walking the lanes downwards
    with wrap-around. It fills the buffer with one batched receive and
    publishes it to a used queue.
  - A handler thread takes a used buffer from its lane and validates every
    slot. It stores the UNIs and accumulates replies according to per-mille
    draws, sends the replies, and gives the buffer back.
- **PacketReceiverParameters** (`ReceiverParameters`): the receiver's
  configuration checks and the parameters it hands to the state store.
- **xnetpnf.c** (`Netfilter`): the kernel netfilter hook that accepts or drops
  IPv6 packets with Next Header 253. It keeps per-CPU counters and serves a
  proc file with open, release and read. The hook is proved to agree with
  `PacketBuffer.validate`.
- **RxRing** (`Ring`): walking a TPACKET_V3 receive ring.
  - Each block is polled by its status word.
  - Its `num_pkts` packets are visited by their `tp_next_offset` chain, and
    xnetp packets are counted by EtherType and IPv6 Next Header.
  - The block is then handed back to the kernel and the next block polled.
- **Affinity** (`Affinity`): the CPU-mask bytes for pinning a thread to one
  CPU.
- **snd.c** (`Snd`): the helpers of the UDP flood tool:
  - `addr_to_ss`, which splits `host:port` at the last colon;
  - `tv_diff`;
  - the option loop of `main` and its usage check.
- The static hex `dump` is identical in `PacketBuffer.java` and `RxRing.java`
  and is modelled once (`HexDump`).

The Java integer types are modelled explicitly where they matter. `int`
arithmetic wraps with `Int32Wrap`, and `ByteBuffer.getInt`/`putInt`/`getShort`
are fixed to little-endian. Bytes are the unsigned view 0..255 of Java's
signed `byte`; every comparison the code makes on a byte is an equality with a
constant.

Random draws, socket results, the number of empty polls before a queue yields
a buffer, and the number of full offers before one succeeds are all
parameters of the methods. The code's own callers run these inside unbounded
concurrent loops.

## Model

| member | source | states |
|---|---|---|
| PacketTypes.ByType | src/main/java/xnetp/poc/net/PacketType.java:45-52 | `byType` yields a real type exactly for codes 1..3, and that type's code is the byte; every other byte decodes to Error |
| PacketTypes.ByTypeOfCode | src/main/java/xnetp/poc/net/PacketType.java:45-52 | decoding inverts encoding for every type, Error included (its code 4 falls to the default) |
| PacketTypes.CodesInjective | src/main/java/xnetp/poc/net/PacketType.java:10-22 | two types have the same code only if they are the same type |
| PacketTypes.ValuesShape | src/main/java/xnetp/poc/net/PacketType.java:8-22 | `values()` lists the four types once each with Error last, so `values()[length-2]` is AttributeGroup, the last real type |
| PacketTypes.LengthsIncreasing | src/main/java/xnetp/poc/net/PacketType.java:10-17 | the lengths of the real types are positive and strictly increasing in declaration order |
| Affinity.CpuMask | src/main/java/xnetp/poc/affinity/Affinity.java:21-28 | the mask for a non-negative cpu has `cpu/8 + 1` bytes; a negative cpu makes the array allocation or store throw |
| Affinity.MaskCpus | src/main/java/xnetp/poc/affinity/Affinity.java:50-53 | the CPUs a little-endian bitset of the mask bytes selects lie within the mask's bits |
| Affinity.SingleBit | src/main/java/xnetp/poc/affinity/Affinity.java:23 | `1 << (cpu & 7)` fits a byte and has exactly that one bit set |
| Affinity.CpuMaskBytes | src/main/java/xnetp/poc/affinity/Affinity.java:22-26 | byte `cpu/8` is the only nonzero byte of the mask and has exactly bit `cpu % 8` set |
| Affinity.CpuMaskSelectsOnlyCpu | src/main/java/xnetp/poc/affinity/Affinity.java:21-28 | reading the mask back as a CPU set gives exactly `{cpu}` |
| Bytes.Int32Wrap | src/main/java/xnetp/poc/net/PacketSender.java:347-350 | a Java `int` sum wraps modulo 2^32 into the `int` range and leaves in-range values alone |
| Bytes.Int32At | src/main/java/xnetp/poc/net/PacketBuffer.java:270-286 | `getInt` yields an `int` whose two's complement is the four little-endian bytes |
| Bytes.Int16At | src/main/java/xnetp/poc/sockets/RxRing.java:169-175 | `getShort` yields a signed 16-bit value whose two's complement is the two little-endian bytes |
| Bytes.Int32RoundTrip | src/main/java/xnetp/poc/net/PacketBuffer.java:230-232 | an `int` written with `putInt` reads back unchanged with `getInt` |
| Bytes.OverwriteAt | src/main/java/xnetp/poc/net/PacketBuffer.java:178-195 | a relative `put` of bytes changes exactly the window it writes, byte by byte |
| Bytes.Int32AtOverwrite | src/main/java/xnetp/poc/sockets/RxRing.java:136 | an `int` put at a position is what `getInt` reads there afterwards |
| Codec.WriteLength | src/main/java/xnetp/poc/net/PacketBuffer.java:230-232 | `setPacketLength` makes the length field read n and changes no byte outside +28..+31 of the slot |
| Codec.WriteType | src/main/java/xnetp/poc/net/PacketBuffer.java:211-222 | `setPacketType` makes the type byte read b and changes no other byte |
| Codec.LayoutOffsets | src/main/java/xnetp/poc/net/PacketBuffer.java:23-45 | the data starts at +72 and the payload at +104; the type byte is extension-header byte 20, straight after the UNI; the extension template fits before the payload and writes type 0 |
| Codec.SetTypeAndLengthThenValidate | src/main/java/xnetp/poc/net/PacketBuffer.java:202-232 | after `setPacketType(b)` and `setPacketLength(n)`, `getPacketTypeAsByte` reads b and `validate` holds iff b is a real type's code and n is its length |
| Codec.PacketDataReadBack | src/main/java/xnetp/poc/net/PacketBuffer.java:109-155 | `populatePacketData` writes the length and type that `validate` reads; the UNI that `getUNI` reads gets bytes 12..15 from the draws and keeps its first 12 bytes |
| Codec.PacketDataValidity | src/main/java/xnetp/poc/net/PacketBuffer.java:120-154 | for a real type, the written slot passes `validate` iff the packet is meant to be correct; a forged packet fails on both branches, whether the length is off by one or the code is Error with the Minimal length |
| Codec.IndexByteBound | src/main/java/xnetp/poc/net/PacketBuffer.java:140-145 | the volume or segment byte is below its count: 0 for a count of 1, else the draw |
| Codec.AddressBytes | src/main/java/xnetp/poc/net/PacketBuffer.java:146-149 | the two address bytes spell the address big-endian |
| Codec.PacketDataUni | src/main/java/xnetp/poc/net/PacketBuffer.java:140-151 | UNI[12] is the volume and UNI[13] the segment, each below its count; UNI[14..15] hold the address big-endian, in 1..addresses |
| Codec.ExtHeaderTemplateReadBack | src/main/java/xnetp/poc/net/PacketBuffer.java:178-195 | after the extension-header template the type byte reads 0 and the UNI reads FC followed by 15 zero bytes |
| Codec.SlotsApart | src/main/java/xnetp/poc/net/PacketBuffer.java:96-98 | distinct slots occupy disjoint byte ranges |
| Codec.SlotReadsFrame | src/main/java/xnetp/poc/net/PacketBuffer.java:238-286 | what `validate`, `getUNI` and `getPacketTypeAsByte` read depends only on the first 104 bytes of the slot |
| Codec.OtherSlotFrame | src/main/java/xnetp/poc/net/PacketBuffer.java:238-286 | a write confined to one slot changes nothing read from another slot |
| Codec.WriteTypeFrame | src/main/java/xnetp/poc/net/PacketBuffer.java:211-222 | writing a type byte changes no length field and no other slot's type |
| Codec.WriteLengthFrame | src/main/java/xnetp/poc/net/PacketBuffer.java:230-232 | writing a length changes no type byte and no other slot's length |
| Codec.WritePacketDataFrame | src/main/java/xnetp/poc/net/PacketBuffer.java:109-155 | `populatePacketData` on one slot changes no other slot's length, type, UNI or validity |
| Codec.PayloadTemplateAt | src/main/java/xnetp/poc/net/PacketBuffer.java:250-262 | payload byte k is byte `k mod 5` of "data:" |
| Codec.PacketBuffer.Allocate | src/main/java/xnetp/poc/net/PacketBuffer.java:86-89 | a fresh zero-filled buffer of exactly `slots*slotSize` bytes holding no packets |
| Codec.PacketBuffer.PopulateSlotAddress | src/main/java/xnetp/poc/net/PacketBuffer.java:96-98 | the address bytes go to +8 of the slot and nothing else changes |
| Codec.PacketBuffer.PopulatePacketData | src/main/java/xnetp/poc/net/PacketBuffer.java:109-155 | the buffer becomes the old bytes with the length, the four UNI bytes and the type code of the chosen fields written |
| Codec.PacketBuffer.PopulatePacketExtHeaderTemplate | src/main/java/xnetp/poc/net/PacketBuffer.java:178-195 | the 24 template bytes FF 20 00 00 FC, 15 zeros, 00 88 12 34 land at +72..+95 and nothing else changes |
| Codec.PacketBuffer.SetPacketType | src/main/java/xnetp/poc/net/PacketBuffer.java:211-222 | only the type byte of the slot changes, to b |
| Codec.PacketBuffer.SetPacketTypeOf | src/main/java/xnetp/poc/net/PacketBuffer.java:211-215 | only the type byte of the slot changes, to the type's code |
| Codec.PacketBuffer.SetPacketLength | src/main/java/xnetp/poc/net/PacketBuffer.java:230-232 | only the length field of the slot changes, to n |
| Codec.PacketBuffer.PopulatePacketPayloadTemplate | src/main/java/xnetp/poc/net/PacketBuffer.java:250-262 | `min(length, slotSize-104)` bytes of repeated "data:" are written at +104, and nothing past them changes |
| Codec.PacketBuffer.PutPayload | src/main/java/xnetp/poc/net/PacketBuffer.java:255-261 | the loop writes n/5 whole markers and then n%5 bytes of one more, and nothing else |
| HexDump.DumpLength | src/main/java/xnetp/poc/sockets/RxRing.java:404-415 | a dump of n bytes, by either copy of `dump`, has 3n-1 characters, and none when n is 0 |
| HexDump.DumpSnoc | src/main/java/xnetp/poc/net/PacketBuffer.java:333-335 | the last byte is written without a colon after the others |
| HexDump.ParseDumpText | src/main/java/xnetp/poc/net/PacketBuffer.java:326-337 | every dump reads back as the bytes it was made from |
| HexDump.DumpOfParse | src/main/java/xnetp/poc/net/PacketBuffer.java:326-337 | any text that reads back as bytes is exactly their dump: one spelling per window |
| HexDump.Dump | src/main/java/xnetp/poc/net/PacketBuffer.java:326-337 | `dump(formatter, b, from, len)` appends the colon-joined `%02X` groups of the window, and nothing for len <= 0 |
| SlotTemplates.TemplateSlotWindows | src/main/java/xnetp/poc/net/PacketSender.java:337-344 | templating one slot writes the address, extension header and payload templates inside that slot and nothing outside it |
| SlotTemplates.TemplatedSlots | src/main/java/xnetp/poc/net/PacketSender.java:337-344 | after templating `count` slots, each of them holds the address, the extension header template and the payload template |
| SlotTemplates.PopulateTemplates | src/main/java/xnetp/poc/net/PacketSender.java:337-344 | the loop over the slots leaves the buffer templated slot by slot |
| SlotTemplates.TemplateOne | src/main/java/xnetp/poc/net/PacketSender.java:338-344 | one turn of the template loop rewrites the bytes exactly as templating that one slot does |
| Sender.ValidateAsWrittenAccepts | src/main/java/xnetp/poc/net/PacketSender.java:113-150 | `validate` passes exactly when packets >= -1, the host is IPv6, mmsgs is in 1..16, there are at least 4 values whose `int` sum is 100, threads <= 16, volumes and segments are in 1..256, and addresses in 1..65535 |
| Sender.ValidateStricter | src/main/java/xnetp/poc/net/PacketSender.java:126-133 | the corrected check also demands exactly four non-negative values, and otherwise agrees |
| Sender.ThreadBudgets | src/main/java/xnetp/poc/net/PacketSender.java:219-232 | a negative thread count fails (the futures array cannot be allocated) and 0 threads get no budget; otherwise threads 0..T-2 get `packets/T` and the last the rest, so the budgets are non-negative and sum to packets, and a budget of -1 stays -1 for every thread |
| Sender.Proportions | src/main/java/xnetp/poc/net/PacketSender.java:347-350 | the `proportions` array is the `int`-wrapped running sum of the distribution |
| Sender.PrefixSumMonotone | src/main/java/xnetp/poc/net/PacketSender.java:347-350 | prefix sums of non-negative values are non-negative and non-decreasing |
| Sender.DistributionProportions | src/main/java/xnetp/poc/net/PacketSender.java:347-350 | for a valid distribution no sum wraps, the proportions are non-decreasing in 0..100, and the last is 100 |
| Sender.SelectAsWritten | src/main/java/xnetp/poc/net/PacketSender.java:451-457 | the loop stops at the first non-zero proportion not below the draw, after skipping every earlier one |
| Sender.Select | src/main/java/xnetp/poc/net/PacketSender.java:451-457 | the corrected loop stops at the first non-zero proportion above the draw |
| Sender.SelectIndex | src/main/java/xnetp/poc/net/PacketSender.java:451-457 | the selection loop as written, skipping while the proportion is 0 or below the draw, returns the as-written index |
| Sender.SelectAsWrittenInterval | src/main/java/xnetp/poc/net/PacketSender.java:451-457 | as written, a draw in [0,100) selects an index <= 3, and index k exactly for the draws in `(proportions[k-1], proportions[k]]`, the draw 0 going to the first type with any weight |
| Sender.SelectInterval | src/main/java/xnetp/poc/net/PacketSender.java:451-457 | corrected rule: a draw in [0,100) selects an index <= 3, and index k exactly for the draws in `[proportions[k-1], proportions[k])` |
| Sender.SelectFrequency | src/main/java/xnetp/poc/net/PacketSender.java:347-457 | corrected rule: of the 100 possible draws, exactly `distribution[k]` select type k |
| Sender.SelectAsWrittenSkipsType | src/main/java/xnetp/poc/net/PacketSender.java:451-457 | with distribution 99:1:0:0 the loop as written never selects Attribute, while the corrected loop does on draw 99 |
| Sender.Choice | src/main/java/xnetp/poc/net/PacketSender.java:459-486 | with the selection as written, the chosen type is never Error; the packet is correct iff the draw selects a real type, which is then kept; an Error draw with `proportions[2] == 0` becomes Minimal, and otherwise becomes the as-written selection of the second draw |
| Sender.ChooseType | src/main/java/xnetp/poc/net/PacketSender.java:451-486 | the selection and remap code as written computes that choice |
| Sender.ChoiceIsAsWritten | src/main/java/xnetp/poc/net/PacketSender.java:451-486 | on the proportions of a valid distribution the as-written draw and remap never throw and give exactly that choice |
| Sender.PopulateSlot | src/main/java/xnetp/poc/net/PacketSender.java:451-489 | one turn of the slot loop writes the packet data of the as-written choice for that slot's draw |
| Sender.ValidateAsWrittenAdmitsFifthType | src/main/java/xnetp/poc/net/PacketSender.java:126-133 | five values 10,10,10,10,60 pass `validate`, and draws of 41..99 (50, say) select index 4, past the four types |
| Sender.ValidateAsWrittenAdmitsNegativeType | src/main/java/xnetp/poc/net/PacketSender.java:126-133 | the values 10,0,-20,110 pass `validate`; an Error draw then remaps with a negative bound, where `nextInt` throws |
| Sender.ValidConfigChoiceDefined | src/main/java/xnetp/poc/net/PacketSender.java:440-486 | under the corrected check, the selection and remap as written always pick a real type |
| Sender.PopulatedValidity | src/main/java/xnetp/poc/net/PacketSender.java:440-493 | every slot of a populated batch passes `validate` exactly when the as-written selection of its draw picked a real type, not Error |
| Sender.PopulatePackets | src/main/java/xnetp/poc/net/PacketSender.java:440-493 | slots 0..packets-1 are populated from their draws through the as-written selection and remap, and `buffer.packets` becomes packets |
| Sender.DistributionBounds | src/main/java/xnetp/poc/net/PacketSender.java:126-133 | a valid distribution holds percentages in 0..100 |
| Sender.TxThread.Start | src/main/java/xnetp/poc/net/PacketSender.java:329-350 | the thread starts with a templated buffer, the distribution's proportions, zero counters and `generatePackets` set |
| Sender.TxThread.Step | src/main/java/xnetp/poc/net/PacketSender.java:373-415 | a batch is regenerated (with the as-written selection) only after a successful send; a -1 result keeps the batch and the counters and records errno; success adds the result and ends the loop iff the budget is not -1 and is reached |
| Sender.TxThread.Run | src/main/java/xnetp/poc/net/PacketSender.java:373-425 | the loop stops after the first successful send that reaches the budget, having sent the sum of the results and at most one batch beyond the budget |
| Lanes.Down | src/main/java/xnetp/poc/net/RxThreadPacketReceiver.java:110-111 | `idx == 0 ? queues-1 : idx-1` is idx-1 modulo queues and stays in [0, queues) |
| Lanes.DownByLinear | src/main/java/xnetp/poc/net/RxThreadPacketReceiver.java:110-111 | n advances from idx >= n reach idx-n |
| Lanes.DownByWrap | src/main/java/xnetp/poc/net/RxThreadPacketReceiver.java:110-111 | after passing lane 0 the index wraps round to queues-1 and keeps descending |
| Lanes.DownByReaches | src/main/java/xnetp/poc/net/RxThreadPacketReceiver.java:141-147 | every lane is reached from every index within queues-1 advances |
| Lanes.CountUpdate | src/main/java/xnetp/poc/net/RxThreadPacketReceiver.java:141-147 | replacing one queue changes the buffers in the lanes by the difference in its length |
| Lanes.CountBounded | src/main/java/xnetp/poc/net/RxThreadPacketReceiver.java:141-147 | lanes of bounded capacity hold at most lanes*capacity buffers |
| Lanes.SomeRoom | src/main/java/xnetp/poc/net/RxThreadPacketReceiver.java:141-147 | fewer buffers than lanes*capacity leave a lane with room |
| Lanes.StepsToRoom | src/main/java/xnetp/poc/net/RxThreadPacketReceiver.java:141-147 | descending from any lane, the first lane with room is met within queues steps, and every lane before it is full |
| Lanes.RoomReachable | src/main/java/xnetp/poc/net/RxThreadPacketReceiver.java:141-147 | the descending offer loop reaches a lane with room whenever the pool is below the lanes' capacity |
| Lanes.InitialPool | src/main/java/xnetp/poc/net/PacketReceiver.java:104-112 | the initial free queues hold queues*capacity buffers and the used queues none |
| Lanes.LaneQueues.Init | src/main/java/xnetp/poc/net/PacketReceiver.java:104-112 | every free queue starts full of fresh buffers and every used queue empty |
| Lanes.LaneQueues.PollFree | src/main/java/xnetp/poc/net/RxThreadPacketReceiver.java:97-98 | `poll` fails iff the free queue is empty, else yields its head and removes it |
| Lanes.LaneQueues.PollUsed | src/main/java/xnetp/poc/net/RxThreadPacketHandler.java:139-140 | `poll` fails iff the used queue is empty, else yields its head and removes it |
| Lanes.LaneQueues.OfferUsed | src/main/java/xnetp/poc/net/RxThreadPacketReceiver.java:141-147 | `offer` succeeds iff the used queue has room, appending the buffer |
| Lanes.LaneQueues.OfferFree | src/main/java/xnetp/poc/net/RxThreadPacketHandler.java:181-185 | `offer` succeeds iff the free queue has room, appending the buffer |
| Receiver.RxThreadPacketReceiver.New | src/main/java/xnetp/poc/net/RxThreadPacketReceiver.java:60-77 | the constructor throws iff the free and used lane arrays differ in length; otherwise the lane index starts at queues-1 |
| Receiver.RxThreadPacketReceiver.AcquireFree | src/main/java/xnetp/poc/net/RxThreadPacketReceiver.java:88-117 | one acquisition moves the index down once per failed poll (bar the first parked poll); `rxNoFreeBuffers` grows iff the first poll fails, `rxNoFreeBuffersLong` iff the 1000-poll spin also fails; the head of the lane's free queue is taken |
| Receiver.RxThreadPacketReceiver.WaitForFree | src/main/java/xnetp/poc/net/RxThreadPacketReceiver.java:97-117 | the escalating polls bump each no-free counter at most once and move the index down by the failed polls |
| Receiver.RxThreadPacketReceiver.Publish | src/main/java/xnetp/poc/net/RxThreadPacketReceiver.java:141-147 | publishing starts at the acquisition lane, moves one lane down and counts `rxUsedBuffersOverflow` per full queue, and appends the buffer to the first used queue with room |
| Receiver.RxThreadPacketReceiver.Deliver | src/main/java/xnetp/poc/net/RxThreadPacketReceiver.java:132-147 | a successful receive adds packets to `rxPacketCounter` and 1 to `rxIterationCounter`, sets `buffer.packets`, and publishes the buffer |
| Receiver.RxThreadPacketReceiver.StepAsWritten | src/main/java/xnetp/poc/net/RxThreadPacketReceiver.java:80-162 | a loop turn as written: on a receive error `rxErrors` grows, `rxErrno` is untouched, and the acquired buffer is lost from the pool |
| Receiver.RxThreadPacketReceiver.Step | src/main/java/xnetp/poc/net/RxThreadPacketReceiver.java:80-162 | a loop turn with the failed buffer returned to its free queue: the pool of buffers is conserved on every path |
| Receiver.ReceiveErrorLeaks | src/main/java/xnetp/poc/net/RxThreadPacketReceiver.java:123-129 | with one lane and one buffer, a failed receive as written leaves no buffer in any queue |
| Receiver.ReceiveErrorKeepsBuffer | src/main/java/xnetp/poc/net/RxThreadPacketReceiver.java:123-129 | the same failed receive with the buffer returned keeps it in the pool |
| Handler.ReadSlot | src/main/java/xnetp/poc/net/RxThreadPacketHandler.java:206-217 | a slot that passes `validate` carries the code of a real type |
| Handler.Read | src/main/java/xnetp/poc/net/RxThreadPacketHandler.java:202-235 | the handler reads n slots, each as its validity, UNI and type byte |
| Handler.Picks | src/main/java/xnetp/poc/net/RxThreadPacketHandler.java:213-229 | the stored or replied slots are indices of visited packets, at most one per packet |
| Handler.ValidCountBound | src/main/java/xnetp/poc/net/RxThreadPacketHandler.java:202-210 | valid packets are no more than the packets visited |
| Handler.PicksValid | src/main/java/xnetp/poc/net/RxThreadPacketHandler.java:206-229 | picked slots are valid, drawn below the threshold and in increasing order: invalid packets are never stored or replied to |
| Handler.PicksComplete | src/main/java/xnetp/poc/net/RxThreadPacketHandler.java:213-229 | every valid slot drawn below the threshold is picked |
| Handler.PicksNone | src/main/java/xnetp/poc/net/RxThreadPacketHandler.java:213-229 | a threshold of 0 picks nothing, so a 0 percentage never stores or replies |
| Handler.PicksAll | src/main/java/xnetp/poc/net/RxThreadPacketHandler.java:213-229 | a threshold of 1000 picks every valid slot |
| Handler.TypesReal | src/main/java/xnetp/poc/net/RxThreadPacketHandler.java:219-222 | the types copied into replies are real types |
| Handler.RepliesRead | src/main/java/xnetp/poc/net/RxThreadPacketHandler.java:263-269 | each accumulated reply slot carries its type byte and passes `validate` iff that byte is a real type |
| Handler.HandlerRepliesValid | src/main/java/xnetp/poc/net/RxThreadPacketHandler.java:202-269 | every reply the handler accumulates passes `validate`, and there are no more replies than valid packets |
| Handler.RepliesSnoc | src/main/java/xnetp/poc/net/RxThreadPacketHandler.java:263-269 | one more reply writes exactly the next reply slot |
| Handler.Workload | src/main/java/xnetp/poc/net/RxThreadPacketHandler.java:285-291 | for n up to `Integer.MAX_VALUE`, `workload(n)` ends and returns the sum of 0..n-1, which fits a `long` |
| Handler.WorkloadCounterWraps | src/main/java/xnetp/poc/net/RxThreadPacketHandler.java:287 | after k increments the `int` loop counter holds k wrapped to the signed 32-bit range |
| Handler.WorkloadNeverEnds | src/main/java/xnetp/poc/net/RxThreadPacketHandler.java:285-291 | with more than `Integer.MAX_VALUE` iterations (the count is a `long`) the counter stays below the count after any number of increments, and turns negative after 2^31 of them, so the loop never ends |
| Handler.TriangleClosed | src/main/java/xnetp/poc/net/RxThreadPacketHandler.java:285-291 | twice the sum the loop accumulates over n iterations is n(n-1) |
| Handler.WorkloadCounterTurnsNegative | src/main/java/xnetp/poc/net/RxThreadPacketHandler.java:287 | after 2^31 increments the `int` counter is `Integer.MIN_VALUE` |
| Handler.TriangleBound | src/main/java/xnetp/poc/net/RxThreadPacketHandler.java:285-291 | for n up to `Integer.MAX_VALUE` the sum stays in 0..2^63-1 |
| Handler.SlotEffect | src/main/java/xnetp/poc/net/RxThreadPacketHandler.java:202-235 | one slot adds at most one reply type |
| Handler.TalliedErrors | src/main/java/xnetp/poc/net/RxThreadPacketHandler.java:202-210 | the errors grow by the invalid packets, so errors plus valid packets equal `buffer.packets` |
| Handler.TalliedStores | src/main/java/xnetp/poc/net/RxThreadPacketHandler.java:213-217 | the store loop saves the UNIs of the store-picked slots in slot order and counts them |
| Handler.TalliedReplies | src/main/java/xnetp/poc/net/RxThreadPacketHandler.java:219-229 | replies grow by the reply-picked slots; the workload runs once per reply, and only when iterations are positive |
| Handler.TalliedTypes | src/main/java/xnetp/poc/net/RxThreadPacketHandler.java:219-222 | the reply types are those of the reply-picked slots, in slot order |
| Handler.TalliedClosed | src/main/java/xnetp/poc/net/RxThreadPacketHandler.java:194-241 | the whole processing loop in closed form: errors, stores, saved UNIs, replies, workload and reply types |
| Handler.ErrorsBounded | src/main/java/xnetp/poc/net/RxThreadPacketHandler.java:202-210 | the errors of one buffer are at most its packets |
| Handler.Normalize | src/main/java/xnetp/poc/net/RxThreadPacketHandler.java:108-109 | a whole percentage maps to per mille in 0..1000, 0 only for 0 and 1000 only for 100 |
| Handler.RxThreadPacketHandler.Init | src/main/java/xnetp/poc/net/RxThreadPacketHandler.java:92-127 | the handler starts with normalised thresholds, zero counters, and a templated send buffer holding no replies |
| Handler.RxThreadPacketHandler.WaitForUsed | src/main/java/xnetp/poc/net/RxThreadPacketHandler.java:139-169 | `rxNoUsedBuffers` grows at most once, iff the first poll fails; `rxNoUsedBuffersLong` only after the 100-poll spin also fails |
| Handler.RxThreadPacketHandler.Store | src/main/java/xnetp/poc/net/RxThreadPacketHandler.java:249-256 | the UNI is handed to the state store |
| Handler.RxThreadPacketHandler.AccumulateReply | src/main/java/xnetp/poc/net/RxThreadPacketHandler.java:263-269 | the next reply slot gets the type byte and that type's length, and the reply count grows by one |
| Handler.RxThreadPacketHandler.SendReplies | src/main/java/xnetp/poc/net/RxThreadPacketHandler.java:274-280 | the accumulated reply slots are sent once; a -1 result counts one `txErrors` and records errno, with no retry |
| Handler.RxThreadPacketHandler.StoreDrawn | src/main/java/xnetp/poc/net/RxThreadPacketHandler.java:213-217 | a valid slot is stored and counted iff its store draw is below the threshold |
| Handler.RxThreadPacketHandler.ReplyDrawn | src/main/java/xnetp/poc/net/RxThreadPacketHandler.java:219-229 | a valid slot is answered iff its reply draw is below the threshold, with the workload counted only then and only for positive iterations |
| Handler.RxThreadPacketHandler.AnswerSlot | src/main/java/xnetp/poc/net/RxThreadPacketHandler.java:220 | `accumulateReply` appends the packet's type to the replies and keeps the send buffer equal to the accumulated replies |
| Handler.RxThreadPacketHandler.CountReply | src/main/java/xnetp/poc/net/RxThreadPacketHandler.java:219-229 | an answered packet adds one reply, and runs and counts the workload only for positive iterations; an unanswered one changes no counter |
| Handler.RxThreadPacketHandler.ProcessSlot | src/main/java/xnetp/poc/net/RxThreadPacketHandler.java:202-235 | one loop turn changes the counters as the slot's effect says, and keeps the send buffer equal to the accumulated replies |
| Handler.RxThreadPacketHandler.ProcessNext | src/main/java/xnetp/poc/net/RxThreadPacketHandler.java:202-235 | reading slot i and processing it extends the closed-form tally by exactly that slot |
| Handler.RxThreadPacketHandler.ProcessSlots | src/main/java/xnetp/poc/net/RxThreadPacketHandler.java:202-235 | the loop over the visited slots ends in the closed-form tally |
| Handler.RxThreadPacketHandler.Process | src/main/java/xnetp/poc/net/RxThreadPacketHandler.java:194-241 | the reply count starts at 0; `sendReplies` is called iff at least one reply accumulated |
| Handler.RxThreadPacketHandler.Release | src/main/java/xnetp/poc/net/RxThreadPacketHandler.java:181-185 | the buffer is re-offered until it lands on the lane's free queue, counting one `rxFreeBuffersOverflow` per failed offer, so no buffer is dropped |
| Handler.RxThreadPacketHandler.Take | src/main/java/xnetp/poc/net/RxThreadPacketHandler.java:139-175 | the head of the lane's used queue is taken and `rxIterationCounter` grows by one |
| Handler.RxThreadPacketHandler.Step | src/main/java/xnetp/poc/net/RxThreadPacketHandler.java:138-186 | one loop turn moves the buffer from the used to the free queue, so the pool is conserved, and leaves the processing tally |
| ReceiverParameters.StoreModeOf | src/main/java/xnetp/poc/net/PacketReceiverParameters.java:169-172 | `valueOf` finds the mode of exactly that name, and throws when no mode has it |
| ReceiverParameters.StoreModeNames | src/main/java/xnetp/poc/net/PacketReceiverParameters.java:169-172 | every store mode is found by its name |
| ReceiverParameters.ValidateAccepts | src/main/java/xnetp/poc/net/PacketReceiverParameters.java:150-173 | `validate` passes exactly when mmsgs is in 1..BUF_PACKETS_MAX, handler threads in 1..64, a reply address is present if the reply percentage is positive, and the store mode is known |
| ReceiverParameters.ValidateReports | src/main/java/xnetp/poc/net/PacketReceiverParameters.java:150-173 | each rejection names the first failing check, with every earlier check passed |
| ReceiverParameters.ValidateIgnoresUnchecked | src/main/java/xnetp/poc/net/PacketReceiverParameters.java:150-173 | the UNI shape, store percentage, workload and store files are never range-checked |
| ReceiverParameters.BuildStateStoreParameters | src/main/java/xnetp/poc/net/PacketReceiverParameters.java:235-250 | root, file, UNI shape, state size and write mode are copied, threads is 1, and the mode is looked up by name, throwing iff the name is unknown |
| ReceiverParameters.ValidatedBuilds | src/main/java/xnetp/poc/net/PacketReceiverParameters.java:150-250 | after `validate` passes, building the store parameters cannot throw |
| Netfilter.PacketsLenTable | src/nfmodule/xnetpnf.c:41 | `XNETP_PACKETS_LEN[code]` is 40 plus the Java length of each real type |
| Netfilter.ClassifyAccepts | src/nfmodule/xnetpnf.c:193-226 | another Next Header passes as not-xnetp; an xnetp packet passes iff its type is 1..3 and its length is 40 plus that type's length |
| Netfilter.ClassifierAgreesWithValidate | src/nfmodule/xnetpnf.c:193-226 | the hook accepts an xnetp packet iff the slot that stores it passes `PacketBuffer.validate` |
| Netfilter.Counted | src/nfmodule/xnetpnf.c:193-223 | a non-xnetp packet bumps only `unknown`; every xnetp packet bumps `xnetp` once; a drop bumps exactly one error counter |
| Netfilter.CountedConsistent | src/nfmodule/xnetpnf.c:193-223 | the counters stay non-negative, with no more errors than xnetp packets |
| Netfilter.PacketHook.Init | src/nfmodule/xnetpnf.c:404-410 | every present CPU's counters start at zero |
| Netfilter.PacketHook.HookIn | src/nfmodule/xnetpnf.c:165-227 | the verdict is the classifier's, and only the running CPU's counters change |
| Netfilter.ProcStats.ProcOpen | src/nfmodule/xnetpnf.c:250-283 | opening returns -16 (EBUSY) while the file is open; otherwise it takes the file, renders the statistics and starts at position 0 |
| Netfilter.ProcStats.ProcRelease | src/nfmodule/xnetpnf.c:288-293 | release makes the file available again |
| Netfilter.ProcStats.ProcRead | src/nfmodule/xnetpnf.c:368-386 | a read copies `min(offset - pos, size)` bytes from pos and advances pos by that amount, never past the data; a failed copy returns -EFAULT |
| Netfilter.ProcStats.EndOfFile | src/nfmodule/xnetpnf.c:368-386 | a read returning 0 into a non-empty buffer means the whole rendering was handed out |
| Ring.Ipv6EtherType | src/main/java/xnetp/poc/sockets/RxRing.java:175-177 | the native-order short equals `(short)0xDD86` iff the wire bytes are 86 DD |
| Ring.PacketAtPrefix | src/main/java/xnetp/poc/sockets/RxRing.java:160-164 | a packet chain readable to n is readable to every earlier packet |
| Ring.PacketStep | src/main/java/xnetp/poc/sockets/RxRing.java:160-164 | the next packet lies at this one's offset plus its `tp_next_offset` (int arithmetic), and counts iff this one is xnetp |
| Ring.XnetpCountBound | src/main/java/xnetp/poc/sockets/RxRing.java:161-164 | the xnetp packets of a block are at most its packets |
| Ring.RxRing.Init | src/main/java/xnetp/poc/sockets/RxRing.java:102 | polling starts at block 0 with zero counters |
| Ring.RxRing.ProcessPacket | src/main/java/xnetp/poc/sockets/RxRing.java:166-191 | `counterAll` grows by one; `counter` grows iff the EtherType is IPv6 and the IPv6 Next Header is 0xFD; the result is `tp_next_offset` |
| Ring.RxRing.Process | src/main/java/xnetp/poc/sockets/RxRing.java:154-165 | `num_pkts` packets are visited from `base + offset_to_first_pkt`; `counterAll` grows by exactly that many, `counter` by the xnetp ones among them |
| Ring.RxRing.PollBlock | src/main/java/xnetp/poc/sockets/RxRing.java:104-138 | a block is processed iff its status has the user bit; it is then handed back to the kernel with status 0, and the index advances to `(b+1) % blocks`; otherwise nothing changes |
| Ring.RxRing.ReleaseBlock | src/main/java/xnetp/poc/sockets/RxRing.java:136 | the status word becomes 0, so the block is no longer user-owned, and nothing else changes |
| Snd.DigitRun | src/ext/snd.c:63 | the digits `atoi` reads are the longest digit prefix |
| Snd.SkipSpaces | src/ext/snd.c:63 | `atoi` skips leading white space, leaving a suffix that starts with no space |
| Snd.AtoiDecimal | src/ext/snd.c:218-222 | `atol` reads back a decimal number, with and without a minus sign |
| Snd.SplitAtLastColon | src/ext/snd.c:51-56 | there is no split iff the string has no colon; otherwise the host, a colon and a colon-free port make the string |
| Snd.SplitRoundTrip | src/ext/snd.c:51-56 | host, colon and a colon-free port split back into that host and port |
| Snd.Port | src/ext/snd.c:63 | `htons(atoi(port))` is the port cut to 16 bits |
| Snd.AddrToSs | src/ext/snd.c:46-91 | the result is "missing port" iff the string has no colon |
| Snd.AddrToSsCases | src/ext/snd.c:46-91 | a host with a colon is IPv6 and must be a literal; an empty host or one starting with `*` is the IPv4 wildcard with no lookup; any other host is an IPv4 literal or else looked up by name |
| Snd.AddrToSsPort | src/ext/snd.c:70-88 | an IPv4 host with a decimal port resolves, as IPv4, to that port |
| Snd.TvDiff | src/ext/snd.c:97-104 | `tv_diff` is the microseconds from tv1 to tv2 |
| Snd.TvDiffOrdered | src/ext/snd.c:93-104 | for normalised times the difference is non-negative iff the times are ordered, and 0 iff they are equal |
| Snd.TvDiffChain | src/ext/snd.c:97-104 | differences add up along a chain of times |
| Snd.FlagOf | src/ext/snd.c:213-226 | an argument is a flag iff it spells -l, -m or -n exactly |
| Snd.OptionLoop | src/ext/snd.c:210-229 | the pointer-walking loop computes the option parse |
| Snd.ParseStep | src/ext/snd.c:212-228 | a flag and its value are consumed together, whatever the value looks like |
| Snd.ParseRendered | src/ext/snd.c:212-229 | options written flag-then-value are all consumed, the last value of each flag wins, and parsing stops at the first non-flag |
| Snd.MissingValueCrashes | src/ext/snd.c:212-229 | `-m` or `-l` as the last argument reads the null pointer that ends `argv` |
| Snd.Arguments | src/ext/snd.c:210-236 | the corrected check never crashes and runs only with a non-empty address and mtu >= 28 |
| Snd.ArgumentsAgree | src/ext/snd.c:212-236 | the corrected check agrees with the as-written one wherever that one does not crash, and it crashes iff a flag is left without its value |
| Snd.ArgumentsRun | src/ext/snd.c:210-236 | `-l address -m mtu` with mtu >= 28 starts the flood with those options and count 1 |

## Left out

- Sockets, JNI and the kernel interfaces are not modelled. Transport results
  (`sendmmsg`/`recvmmsg` counts and errno, the received bytes) are method
  parameters. This covers `RawSocket.java`, `xnetprs.c`, `rxring.c`,
  `scheda.c`, the ring's `socket`/`mmap`/`_poll` calls, and `hack`/`restore`.
- Concurrency: the queues are modelled as sequences, one thread step at a
  time. The number of empty polls (`waits`) and of full offers
  (`fullOffers`) are parameters standing for the other threads' progress.
- Timing is left out: the spin, park and sleep timing (`onSpinWait`,
  `parkNanos`, `Thread.sleep`), the pps pacing and all per-second statistics.
  The spin and park phases are counted by the polls they make.
- Handler.RxThreadPacketHandler.Release requires a free queue with room.
  Sequentially nothing else can make room, so the offer loop's progress
  comes only from `fullOffers`.
- Receiver.RxThreadPacketReceiver.Publish requires that the pool fit the
  used queues. The as-written loop would otherwise spin until another
  thread drains a queue.
- Handler.Normalize takes whole percents. The float arithmetic
  `(long)(1000 * p / 100f)` is not modelled for fractional percentages.
- ReceiverParameters.Validate compares percentages as reals, so a NaN
  percentage is not modelled.
- Handler.Workload requires iterations up to `Integer.MAX_VALUE`. The
  iteration count is a `long`, but the loop counter is an `int`: above that
  bound it wraps and never reaches the count (Handler.WorkloadNeverEnds),
  so the handler thread hangs on its first reply-picked packet. The
  processing methods below are therefore modelled only for runs that end.
- Handler.RxThreadPacketHandler.ReplyDrawn requires the iterations to fit
  an `int` when the reply is picked; otherwise `workload()` never returns.
- Handler.RxThreadPacketHandler.CountReply requires the same.
- Handler.RxThreadPacketHandler.ProcessSlot requires the same for a valid
  packet whose reply is picked.
- Handler.RxThreadPacketHandler.ProcessNext, like the three below, requires
  `WorkloadEnds`: no slot of the buffer that passes `validate` has its
  reply picked, or the iterations fit an `int`.
- Handler.RxThreadPacketHandler.ProcessSlots requires `WorkloadEnds`.
- Handler.RxThreadPacketHandler.Process requires `WorkloadEnds`.
- Handler.RxThreadPacketHandler.Step requires `WorkloadEnds` for the buffer
  it takes.
- The counters (`rxPacketCounter`, `counterAll`, the netfilter `__u64`
  counters and the like) are unbounded integers; `long` and `u64`
  wrap-around is not modelled.
- The state store (`IStateStore.save`) and `DiskThreadTLogBufferHandler`
  are not part of this model. Saved UNIs are collected in a sequence, and a
  failed save is only reported in the source.
- The store mode set is {single, tree, tslog}, as `StoreMode.valueOf`
  accepts. The console, affinity and tlog options of the receiver's
  parameters are not modelled.
- `proc_open`'s `sprintf` rendering is a parameter (the rendered text).
- A `proc_data` overflow with very many CPUs is not modelled.
- `proc_write` and its perf timing, `lseek`, and netfilter registration are
  not modelled.
- Netfilter.ProcStats.ProcRead treats a failed `copy_to_user` as
  all-or-nothing. The kernel can copy part of the buffer and report the
  rest.
- The per-CPU counters are a sequence indexed by CPU; the summing in
  `proc_open` is part of the rendering parameter.
- Ring.RxRing.Process requires a readable block. Reads outside the mapped
  ring, which throw in Java, are not modelled, and neither are the ring's
  statistics printing and its 100-second run limit.
- snd.c's `flood` and `floodmmsg` and the rest of `main` after the usage
  check are not modelled: socket setup, send loops, clocks and printing are
  I/O.
- `dumpHeader` (ANSI-coloured printing) and the printing of dumps are not
  modelled. HexDump.Dump returns the text that would be appended to the
  `Formatter`.
- `Affinity` passes the mask to a native `sched_setaffinity`, which is not
  modelled.
- PacketSender's statistics loop and the thread pool wiring in
  `PacketReceiver.java` are not modelled; the lane initialisation is the
  initial state of `Lanes.LaneQueues.Init`.
- Sender.TxThread.Start is modelled only for configurations the corrected
  check (`Sender.Validate`) accepts. The source starts threads after the
  as-written `validate`, which also admits distributions such as
  `110,-10,0,0` or `100,0,0,0,0`; see Findings row 1.
- Native byte order is fixed to little-endian for `getInt`, `putInt` and
  `getShort`.
- The batch filler (`Sender.PopulatePackets`, `Sender.TxThread.Step`) keeps
  the type selection as written, tie-break included. The corrected
  selection (`Sender.Select`) is stated and proved beside it, but no batch
  is built with it.

## Findings

| source | as written | input that shows it | evidently intended | confidence | as-written member | corrected member |
|---|---|---|---|---|---|---|
| src/main/java/xnetp/poc/net/PacketSender.java:126-133 | `validate` demands at least four distribution values summing to 100, but neither caps their number nor forbids negatives | `10,10,10,10,60`: draws 41..99 select index 4, past `PacketType.values()`. `10,0,-20,110`: an Error draw calls `nextInt` with a negative bound, which throws | exactly four non-negative percentages | not executed | Sender.ValidateAsWrittenAdmitsFifthType | Sender.ValidConfigChoiceDefined |
| src/main/java/xnetp/poc/net/PacketSender.java:451-457 | the selection loop skips while `proportions[k] < rnd`, so a draw equal to a prefix sum selects the earlier type | distribution `99,1,0,0`: draw 99 selects Minimal and Attribute is never sent | type k chosen for exactly `distribution[k]` of the 100 draws | not executed | Sender.SelectAsWrittenSkipsType | Sender.SelectFrequency |
| src/main/java/xnetp/poc/net/RxThreadPacketReceiver.java:123-129 | on a receive error the loop `continue`s without publishing or returning the buffer it acquired | one lane with one buffer and one failed `recvmmsg`: no queue holds a buffer, so the next acquisition waits forever | the buffer goes back to its free queue | not executed | Receiver.ReceiveErrorLeaks | Receiver.ReceiveErrorKeepsBuffer |
| src/ext/snd.c:212-229 | a flag given as the last argument takes its value from `*++argv`, the null pointer ending `argv`, and `atol` or the later `*address` dereferences it | `snd -m` | report the missing value as a usage error | not executed | Snd.MissingValueCrashes | Snd.ArgumentsAgree |
