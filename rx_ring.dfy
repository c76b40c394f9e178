/**
 * The packet-ring receiver: the kernel fills the blocks of a TPACKET_V3 ring
 * mapped into memory and hands each block over by setting the user bit of
 * its status; the reader walks the packets of a handed-over block, counts
 * every packet and the xnetp ones among them (IPv6 frames whose Next Header
 * is 253), gives the block back and moves on to the next block of the ring.
 *
 * A block starts with a descriptor whose status, packet count and offset of
 * the first packet sit at +8, +12 and +16; each packet starts with a header
 * holding the offset of the next packet (+0) and the offsets of the link and
 * network headers from the packet (+24, +26). All are read as native
 * (little-endian) `int`s and `short`s.
 */
module Ring {
  import opened Bytes
  import opened Wrappers

  /** The ring: 16 blocks of 16 MiB. */
  const BLOCK_SIZE: int := 0x100_0000
  const BLOCKS: int := 16
  const RING_SIZE: int := BLOCKS * BLOCK_SIZE

  const TP_STATUS_KERNEL: int := 0
  const TP_STATUS_USER: int := 1

  /** The block descriptor's fields. */
  const BLOCK_STATUS_SHIFT: int := 8
  const BLOCK_NUM_PKTS_SHIFT: int := 12
  const BLOCK_FIRST_PKT_SHIFT: int := 16
  const BLOCK_HEADER_LENGTH: int := 20

  /** A packet header's fields: next offset, link header offset, network header offset. */
  const PKT_NEXT_OFFSET_SHIFT: int := 0
  const PKT_MAC_SHIFT: int := 24
  const PKT_NET_SHIFT: int := 26
  const PKT_HEADER_LENGTH: int := 28

  /** The EtherType follows the two MAC addresses of the Ethernet header. */
  const ETH_TYPE_SHIFT: int := 12
  /** `(short) 0xDD86`: the IPv6 EtherType 0x86DD in network order, read as a native short. */
  const ETH_P_IPV6_NATIVE: int := 0xDD86 - TWO_16
  /** The Next Header field of the IPv6 fixed header (section 3 of RFC 8200). */
  const IPV6_NEXTHDR_SHIFT: int := 6
  const XNETP_NEXT_HEADER: byte := 0xFD

  // ---------------------------------------------------------------------------
  // One packet

  /** The packet header at off lies in the ring. */
  predicate HeaderAt(s: seq<byte>, off: int) {
    0 <= off && off + PKT_HEADER_LENGTH <= |s|
  }

  /** Where the EtherType of the packet at off is. */
  function EthTypeIndex(s: seq<byte>, off: int): int
    requires HeaderAt(s, off)
  {
    off + Int16At(s, off + PKT_MAC_SHIFT) + ETH_TYPE_SHIFT
  }

  /** Where the IPv6 Next Header of the packet at off is. */
  function NextHeaderIndex(s: seq<byte>, off: int): int
    requires HeaderAt(s, off)
  {
    off + Int16At(s, off + PKT_NET_SHIFT) + IPV6_NEXTHDR_SHIFT
  }

  /** The EtherType of the packet at off can be read. */
  predicate EthTypeAt(s: seq<byte>, off: int) {
    HeaderAt(s, off) && 0 <= EthTypeIndex(s, off) && EthTypeIndex(s, off) + 2 <= |s|
  }

  /** The packet at off is an IPv6 frame. */
  predicate IsIpv6(s: seq<byte>, off: int)
    requires EthTypeAt(s, off)
  {
    Int16At(s, EthTypeIndex(s, off)) == ETH_P_IPV6_NATIVE
  }

  /** Every byte `processPacket` reads of the packet at off is in the ring. */
  predicate PacketReadable(s: seq<byte>, off: int) {
    EthTypeAt(s, off) && (IsIpv6(s, off) ==> 0 <= NextHeaderIndex(s, off) < |s|)
  }

  /** The packet at off is counted as xnetp: an IPv6 frame whose Next Header is 253. */
  predicate IsXnetp(s: seq<byte>, off: int)
    requires PacketReadable(s, off)
  {
    IsIpv6(s, off) && s[NextHeaderIndex(s, off)] == XNETP_NEXT_HEADER
  }

  /** The offset from the packet at off to the next one. */
  function NextOffset(s: seq<byte>, off: int): int
    requires HeaderAt(s, off)
  {
    Int32At(s, off + PKT_NEXT_OFFSET_SHIFT)
  }

  /** The native short compared with `(short) 0xDD86` is the EtherType 0x86DD as it is sent: 0x86 first. */
  lemma Ipv6EtherType(s: seq<byte>, i: int)
    requires 0 <= i && i + 2 <= |s|
    ensures Int16At(s, i) == ETH_P_IPV6_NATIVE <==> s[i] == 0x86 && s[i + 1] == 0xDD
  {
  }

  // ---------------------------------------------------------------------------
  // The packets of a block

  /**
   * Where packet i of a block is when packet 0 is at first: each step adds
   * the next offset with `int` wrap-around. None when one of the packets
   * before it is not readable.
   */
  function PacketAt(s: seq<byte>, first: int, i: nat): Option<int>
  {
    if i == 0 then Some(first)
    else
      match PacketAt(s, first, i - 1)
      case None => None
      case Some(off) =>
        if PacketReadable(s, off) then Some(Int32Wrap(off + NextOffset(s, off))) else None
  }

  /** The xnetp packets among the first n. */
  function XnetpCount(s: seq<byte>, first: int, n: nat): nat
    requires PacketAt(s, first, n).Some?
  {
    if n == 0 then 0
    else
      XnetpCount(s, first, n - 1) + (if IsXnetp(s, PacketAt(s, first, n - 1).value) then 1 else 0)
  }

  /** A walk that reaches packet n reaches every packet before it. */
  lemma {:induction false} PacketAtPrefix(s: seq<byte>, first: int, i: nat, n: nat)
    requires i <= n && PacketAt(s, first, n).Some?
    ensures PacketAt(s, first, i).Some?
  {
    if i < n {
      PacketAtPrefix(s, first, i, n - 1);
    }
  }

  /** One step of the walk: packet i is readable, packet i + 1 is its next offset away, and counted in turn. */
  lemma PacketStep(s: seq<byte>, first: int, i: nat, off: int)
    requires PacketAt(s, first, i) == Some(off) && PacketAt(s, first, i + 1).Some?
    ensures PacketReadable(s, off)
    ensures PacketAt(s, first, i + 1) == Some(Int32Wrap(off + NextOffset(s, off)))
    ensures XnetpCount(s, first, i + 1) == XnetpCount(s, first, i) + (if IsXnetp(s, off) then 1 else 0)
  {
  }

  /** No more xnetp packets than packets. */
  lemma {:induction false} XnetpCountBound(s: seq<byte>, first: int, n: nat)
    requires PacketAt(s, first, n).Some?
    ensures XnetpCount(s, first, n) <= n
  {
    if n > 0 {
      XnetpCountBound(s, first, n - 1);
    }
  }

  /** The block descriptor at base lies in the ring. */
  predicate BlockHeaderAt(s: seq<byte>, base: int) {
    0 <= base && base + BLOCK_HEADER_LENGTH <= |s|
  }

  function NumPkts(s: seq<byte>, base: int): int
    requires BlockHeaderAt(s, base)
  {
    Int32At(s, base + BLOCK_NUM_PKTS_SHIFT)
  }

  /** The packets the loop visits: none for a negative count. */
  function Visits(s: seq<byte>, base: int): nat
    requires BlockHeaderAt(s, base)
  {
    if NumPkts(s, base) < 0 then 0 else NumPkts(s, base)
  }

  /** Where the first packet is: the block's offset plus `offset_to_first_pkt`, as an `int`. */
  function FirstPacket(s: seq<byte>, base: int): int
    requires BlockHeaderAt(s, base)
  {
    Int32Wrap(base + Int32At(s, base + BLOCK_FIRST_PKT_SHIFT))
  }

  /** Every packet the loop visits in the block at base is readable. */
  predicate BlockReadable(s: seq<byte>, base: int) {
    BlockHeaderAt(s, base) && PacketAt(s, FirstPacket(s, base), Visits(s, base)).Some?
  }

  /** The kernel has handed the block at base to the reader: `(status & TP_STATUS_USER) != 0`. */
  predicate UserOwned(s: seq<byte>, base: int)
    requires BlockHeaderAt(s, base)
  {
    UInt32At(s, base + BLOCK_STATUS_SHIFT) % 2 == TP_STATUS_USER
  }

  // ---------------------------------------------------------------------------
  // The reader

  class RxRing {
    /** The mapped ring. */
    const ring: array<byte>
    var counterAll: int
    var counter: int
    /** The block the reader waits for. */
    var blockToPoll: int

    ghost predicate Valid()
      reads this
    {
      ring.Length == RING_SIZE && 0 <= blockToPoll < BLOCKS && 0 <= counter <= counterAll
    }

    /** The reader's state after the ring is mapped: no packets counted, waiting for block 0. */
    constructor Init(ring: array<byte>)
      requires ring.Length == RING_SIZE
      ensures Valid() && this.ring == ring && counterAll == 0 && counter == 0 && blockToPoll == 0
    {
      this.ring := ring;
      counterAll, counter, blockToPoll := 0, 0, 0;
    }

    /** `processPacket`: counts the packet, and counts it as xnetp when it is one; returns the next offset. */
    method ProcessPacket(offset: int) returns (next: int)
      requires PacketReadable(ring[..], offset)
      modifies this`counterAll, this`counter
      ensures next == NextOffset(ring[..], offset)
      ensures counterAll == old(counterAll) + 1
      ensures counter == old(counter) + (if IsXnetp(ring[..], offset) then 1 else 0)
    {
      next := Int32At(ring[..], offset + PKT_NEXT_OFFSET_SHIFT);
      var tpMac := Int16At(ring[..], offset + PKT_MAC_SHIFT);
      var tpNet := Int16At(ring[..], offset + PKT_NET_SHIFT);
      counterAll := counterAll + 1;
      var ethProto := Int16At(ring[..], offset + tpMac + ETH_TYPE_SHIFT);
      if ethProto != ETH_P_IPV6_NATIVE {
        return;
      }
      var nextHdr := ring[offset + tpNet + IPV6_NEXTHDR_SHIFT];
      if nextHdr != XNETP_NEXT_HEADER {
        return;
      }
      counter := counter + 1;
    }

    /**
     * `process`: the packets of the block are visited from the first one,
     * each step moving by the packet's next offset; every packet is counted
     * and the xnetp ones are counted again.
     */
    method Process(block: int)
      requires ring.Length == RING_SIZE && 0 <= block < BLOCKS && BlockReadable(ring[..], block * BLOCK_SIZE)
      modifies this`counterAll, this`counter
      ensures var base := block * BLOCK_SIZE;
        && counterAll == old(counterAll) + Visits(ring[..], base)
        && counter == old(counter) + XnetpCount(ring[..], FirstPacket(ring[..], base), Visits(ring[..], base))
    {
      var base := block * BLOCK_SIZE;
      var numPkts := Int32At(ring[..], base + BLOCK_NUM_PKTS_SHIFT);
      var offsetToFirstPkt := Int32At(ring[..], base + BLOCK_FIRST_PKT_SHIFT);
      ghost var s := ring[..];
      ghost var first := FirstPacket(s, base);
      ghost var n := Visits(s, base);
      var offset := Int32Wrap(base + offsetToFirstPkt);
      var i := 0;
      while i < numPkts
        invariant ring[..] == s
        invariant 0 <= i <= n && PacketAt(s, first, i) == Some(offset)
        invariant counterAll == old(counterAll) + i
        invariant counter == old(counter) + XnetpCount(s, first, i)
      {
        PacketAtPrefix(s, first, i + 1, n);
        PacketStep(s, first, i, offset);
        var tpNextOffset := ProcessPacket(offset);
        offset := Int32Wrap(offset + tpNextOffset);
        i := i + 1;
      }
    }

    /**
     * One turn of the reader's loop: a block still owned by the kernel is
     * waited for (the poll is left to the kernel and nothing changes); a
     * handed-over block is processed, its status set back to
     * TP_STATUS_KERNEL, and the reader moves to the next block of the ring.
     */
    method PollBlock() returns (processed: bool)
      requires Valid()
      requires UserOwned(ring[..], blockToPoll * BLOCK_SIZE) ==> BlockReadable(ring[..], blockToPoll * BLOCK_SIZE)
      modifies this`counterAll, this`counter, this`blockToPoll, ring
      ensures Valid()
      ensures var base := old(blockToPoll) * BLOCK_SIZE;
        processed == UserOwned(old(ring[..]), base)
      ensures !processed ==>
        ring[..] == old(ring[..]) && blockToPoll == old(blockToPoll)
        && counterAll == old(counterAll) && counter == old(counter)
      ensures var base := old(blockToPoll) * BLOCK_SIZE;
        processed ==>
        && ring[..] == Overwrite(old(ring[..]), base + BLOCK_STATUS_SHIFT, Int32Bytes(TP_STATUS_KERNEL))
        && blockToPoll == (old(blockToPoll) + 1) % BLOCKS
        && counterAll == old(counterAll) + Visits(old(ring[..]), base)
        && counter == old(counter) + XnetpCount(old(ring[..]), FirstPacket(old(ring[..]), base), Visits(old(ring[..]), base))
        && !UserOwned(ring[..], base)
    {
      var base := blockToPoll * BLOCK_SIZE;
      var bStatus := UInt32At(ring[..], base + BLOCK_STATUS_SHIFT);
      if bStatus % 2 != TP_STATUS_USER {
        return false;
      }
      XnetpCountBound(ring[..], FirstPacket(ring[..], base), Visits(ring[..], base));
      Process(blockToPoll);
      ReleaseBlock(base);
      blockToPoll := (blockToPoll + 1) % BLOCKS;
      return true;
    }

    /** `putInt(status, TP_STATUS_KERNEL)`: the block goes back to the kernel. */
    method ReleaseBlock(base: int)
      requires ring.Length == RING_SIZE && BlockHeaderAt(ring[..], base)
      modifies ring
      ensures ring[..] == Overwrite(old(ring[..]), base + BLOCK_STATUS_SHIFT, Int32Bytes(TP_STATUS_KERNEL))
      ensures !UserOwned(ring[..], base)
    {
      var data := Int32Bytes(TP_STATUS_KERNEL);
      var pos := base + BLOCK_STATUS_SHIFT;
      forall i | pos <= i < pos + |data| {
        ring[i] := data[i - pos];
      }
      OverwriteAt(old(ring[..]), pos, data);
      Int32AtOverwrite(old(ring[..]), pos, TP_STATUS_KERNEL);
    }
  }
}
