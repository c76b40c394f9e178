/**
 * The kernel-side classifier: a netfilter hook on incoming IPv6 packets
 * that lets every packet through unless its Next Header names the xnetp
 * extension header (253), in which case the packet must be long enough,
 * carry a known type and have exactly that type's length. Per-CPU counters
 * record the outcomes, and a proc file hands out a rendering of them to one
 * reader at a time.
 */
module Netfilter {
  import opened Bytes
  import opened PacketTypes
  import opened Codec

  /** The Next Header value of xnetp packets. */
  const XNETP_PROTOCOL_TYPE: byte := 253
  const XNETP_EXT_HDR_LENGTH: int := 32
  /** The IPv6 fixed header, and the offset of its Next Header field (section 3 of RFC 8200). */
  const IPV6_HDR_LENGTH: int := 40
  const IPV6_NEXTHDR_OFFSET: int := 6
  /** The offset of `cmptype` in the extension header: next header, length, two relation bytes, 16-byte UNI. */
  const EXT_CMPTYPE_OFFSET: int := 20
  const XNETP_PKT_TYPE_LOWER: int := 1
  const XNETP_PKT_TYPE_UPPER: int := 3
  /** The correct IPv6 packet length of each type code; code 0 is unused. */
  const XNETP_PACKETS_LEN: seq<int> := [0, 40 + 32, 40 + 48, 40 + 96]

  const EBUSY: int := 16
  const EFAULT: int := 14

  datatype Verdict = Accept | Drop

  /** The four ways the hook ends. */
  datatype Classification = NotXnetp | Accepted | BadLength | BadType

  function VerdictOf(c: Classification): Verdict {
    if c == NotXnetp || c == Accepted then Accept else Drop
  }

  /** The type byte of an xnetp packet: `cmptype` of the extension header after the fixed header. */
  function CmpType(ip: seq<byte>): byte
    requires IPV6_HDR_LENGTH + EXT_CMPTYPE_OFFSET < |ip|
  {
    ip[IPV6_HDR_LENGTH + EXT_CMPTYPE_OFFSET]
  }

  /** The decision `hook_func_in` makes on an IPv6 packet of `|ip|` bytes. */
  function Classify(ip: seq<byte>): Classification
    requires IPV6_HDR_LENGTH <= |ip|
  {
    if ip[IPV6_NEXTHDR_OFFSET] != XNETP_PROTOCOL_TYPE then NotXnetp
    else if |ip| < IPV6_HDR_LENGTH + XNETP_EXT_HDR_LENGTH then BadLength
    else
      var t := CmpType(ip) as int;
      if t < XNETP_PKT_TYPE_LOWER || XNETP_PKT_TYPE_UPPER < t then BadType
      else if |ip| != XNETP_PACKETS_LEN[t] then BadLength
      else Accepted
  }

  /** The length table is the fixed header plus each real type's length. */
  lemma PacketsLenTable(t: PacketType)
    requires t != Error
    ensures 0 <= Code(t) as int < |XNETP_PACKETS_LEN|
    ensures XNETP_PACKETS_LEN[Code(t)] == IPV6_HDR_LENGTH + Length(t)
  {
  }

  /**
   * Packets with another Next Header pass; an xnetp packet passes exactly
   * when its type byte names a real type and its length is the fixed header
   * plus that type's length.
   */
  lemma ClassifyAccepts(ip: seq<byte>)
    requires IPV6_HDR_LENGTH <= |ip|
    ensures Classify(ip) == NotXnetp <==> ip[IPV6_NEXTHDR_OFFSET] != XNETP_PROTOCOL_TYPE
    ensures Classify(ip) == Accepted <==>
      && ip[IPV6_NEXTHDR_OFFSET] == XNETP_PROTOCOL_TYPE
      && IPV6_HDR_LENGTH + XNETP_EXT_HDR_LENGTH <= |ip|
      && ByType(CmpType(ip)) != Error
      && |ip| == IPV6_HDR_LENGTH + Length(ByType(CmpType(ip)))
  {
    if ip[IPV6_NEXTHDR_OFFSET] == XNETP_PROTOCOL_TYPE && IPV6_HDR_LENGTH + XNETP_EXT_HDR_LENGTH <= |ip|
       && ByType(CmpType(ip)) != Error {
      PacketsLenTable(ByType(CmpType(ip)));
    }
  }

  /**
   * The classifier and `validate` agree. The receiver stores the IPv6
   * payload of a packet at +72 of a slot and its length at +28, so the slot's
   * type byte is the packet's `cmptype` whenever the packet reaches it; an
   * xnetp packet passes the hook exactly when its slot passes `validate`.
   */
  lemma ClassifierAgreesWithValidate(ip: seq<byte>, s: seq<byte>, base: int)
    requires IPV6_HDR_LENGTH <= |ip| && ip[IPV6_NEXTHDR_OFFSET] == XNETP_PROTOCOL_TYPE
    requires HeaderInRange(|s|, base) && LengthField(s, base) == |ip| - IPV6_HDR_LENGTH
    requires IPV6_HDR_LENGTH + EXT_CMPTYPE_OFFSET < |ip| ==> TypeByte(s, base) == CmpType(ip)
    ensures Classify(ip) == Accepted <==> SlotValid(s, base)
  {
    LayoutOffsets();
    ClassifyAccepts(ip);
  }

  /** `struct pkt_counters` of one CPU. */
  datatype PktCounters = PktCounters(unknown: int, xnetp: int, errType: int, errLen: int)

  /** The counters after one classification: one packet counter, and one error counter for a drop. */
  function Counted(c: PktCounters, k: Classification): (r: PktCounters)
    ensures k == NotXnetp ==> r.xnetp == c.xnetp && r.unknown == c.unknown + 1
    ensures k != NotXnetp ==> r.xnetp == c.xnetp + 1 && r.unknown == c.unknown
    ensures (r.errType - c.errType) + (r.errLen - c.errLen) == (if VerdictOf(k) == Drop then 1 else 0)
  {
    match k
    case NotXnetp => c.(unknown := c.unknown + 1)
    case Accepted => c.(xnetp := c.xnetp + 1)
    case BadLength => c.(xnetp := c.xnetp + 1, errLen := c.errLen + 1)
    case BadType => c.(xnetp := c.xnetp + 1, errType := c.errType + 1)
  }

  /** Counters that can have come from the hook: never negative, no more errors than xnetp packets. */
  predicate Consistent(c: PktCounters) {
    0 <= c.unknown && 0 <= c.errType && 0 <= c.errLen && c.errType + c.errLen <= c.xnetp
  }

  /** The hook keeps the counters consistent. */
  lemma CountedConsistent(c: PktCounters, k: Classification)
    requires Consistent(c)
    ensures Consistent(Counted(c, k))
  {
  }

  class PacketHook {
    /** The counters of every present CPU. */
    var counters: seq<PktCounters>

    ghost predicate Valid()
      reads this
    {
      forall cpu :: 0 <= cpu < |counters| ==> Consistent(counters[cpu])
    }

    /** Module initialisation: the counters of every present CPU are zeroed. */
    constructor Init(cpus: nat)
      ensures Valid() && |counters| == cpus
      ensures forall cpu :: 0 <= cpu < cpus ==> counters[cpu] == PktCounters(0, 0, 0, 0)
    {
      counters := seq(cpus, _ => PktCounters(0, 0, 0, 0));
    }

    /**
     * `hook_func_in`, run on CPU `cpu` for the IPv6 packet `ip` (the data
     * of the socket buffer, its length `skb->len`).
     */
    method HookIn(cpu: int, ip: seq<byte>) returns (v: Verdict)
      requires Valid() && 0 <= cpu < |counters| && IPV6_HDR_LENGTH <= |ip|
      modifies this
      ensures Valid() && v == VerdictOf(Classify(ip))
      ensures counters == old(counters)[cpu := Counted(old(counters[cpu]), Classify(ip))]
    {
      CountedConsistent(counters[cpu], Classify(ip));
      var c := counters[cpu];
      if ip[IPV6_NEXTHDR_OFFSET] != XNETP_PROTOCOL_TYPE {
        counters := counters[cpu := c.(unknown := c.unknown + 1)];
        return Accept;
      }
      c := c.(xnetp := c.xnetp + 1);
      counters := counters[cpu := c];
      if |ip| < IPV6_HDR_LENGTH + XNETP_EXT_HDR_LENGTH {
        counters := counters[cpu := c.(errLen := c.errLen + 1)];
        return Drop;
      }
      var xnetpType := CmpType(ip) as int;
      if xnetpType < XNETP_PKT_TYPE_LOWER || XNETP_PKT_TYPE_UPPER < xnetpType {
        counters := counters[cpu := c.(errType := c.errType + 1)];
        return Drop;
      }
      if |ip| != XNETP_PACKETS_LEN[xnetpType] {
        counters := counters[cpu := c.(errLen := c.errLen + 1)];
        return Drop;
      }
      return Accept;
    }
  }

  /**
   * The proc file: `proc_access` lets one reader open it at a time, opening
   * renders the statistics into `proc_data`, and reads hand them out from
   * the reader's file position.
   */
  class ProcStats {
    /** 1 when the file may be opened, 0 while it is open. */
    var procAccess: int
    var procData: seq<byte>
    var procDataOffset: int
    /** The file position of the open file. */
    var pos: int
    /** What the reads since the open have handed out, in order. */
    ghost var delivered: seq<byte>

    ghost predicate Valid()
      reads this
    {
      && procDataOffset == |procData| && 0 <= pos <= procDataOffset
      && delivered == procData[..pos]
    }

    constructor Init()
      ensures Valid() && procAccess == 1 && procData == [] && pos == 0
    {
      procAccess, procData, procDataOffset, pos := 1, [], 0, 0;
      delivered := [];
    }

    /**
     * `proc_open`: -EBUSY while the file is open; otherwise it is taken,
     * the statistics are rendered (the text is a parameter) and the new
     * file starts at position 0.
     */
    method ProcOpen(rendered: seq<byte>) returns (r: int)
      requires Valid()
      modifies this
      ensures Valid()
      ensures old(procAccess) != 1 ==>
        r == -EBUSY && procAccess == old(procAccess) && procData == old(procData) && pos == old(pos)
      ensures old(procAccess) == 1 ==> r == 0 && procAccess == 0 && procData == rendered && pos == 0
    {
      if procAccess != 1 {
        return -EBUSY;
      }
      procAccess := 0;
      procData := rendered;
      procDataOffset := |rendered|;
      pos := 0;
      delivered := [];
      return 0;
    }

    /** `proc_release`: the file may be opened again. */
    method ProcRelease() returns (r: int)
      modifies this`procAccess
      ensures procAccess == 1 && r == 0
    {
      procAccess := 1;
      return 0;
    }

    /**
     * `proc_read` into a user buffer of `ubufSize` bytes: the smaller of what
     * is left and the buffer is copied and the position advances by it; a
     * failed copy to user space (a parameter) gives -EFAULT and moves nothing.
     */
    method ProcRead(ubufSize: nat, copyFails: bool) returns (r: int, copied: seq<byte>)
      requires Valid()
      modifies this`pos, this`delivered
      ensures Valid()
      ensures copyFails ==> r == -EFAULT && copied == [] && pos == old(pos)
      ensures !copyFails ==>
        && r == (if ubufSize < procDataOffset - old(pos) then ubufSize else procDataOffset - old(pos))
        && pos == old(pos) + r
        && delivered == old(delivered) + copied
      ensures 0 <= r ==> copied == procData[old(pos)..pos]
    {
      var dataToSend := procDataOffset - pos;
      if ubufSize < dataToSend {
        dataToSend := ubufSize;
      }
      if copyFails {
        return -EFAULT, [];
      }
      copied := procData[pos..pos + dataToSend];
      assert procData[..pos + dataToSend] == procData[..pos] + copied;
      pos := pos + dataToSend;
      delivered := delivered + copied;
      r := dataToSend;
    }

    /**
     * A read that returns 0 into a non-empty buffer is the end of the file:
     * the reads have handed out the whole rendering.
     */
    lemma EndOfFile(r: int, ubufSize: nat)
      requires Valid() && 0 < ubufSize
      requires r == (if ubufSize < procDataOffset - pos then ubufSize else procDataOffset - pos) && r == 0
      ensures delivered == procData
    {
    }
  }
}
