/**
 * The closed set of xnetp packet types: a one-byte wire code and the fixed
 * length of the packet data that follows the IPv6 fixed header.
 */
module PacketTypes {
  import opened Bytes

  /** Declared in this order; Error is the sentinel and must stay last. */
  datatype PacketType = Minimal | Attribute | AttributeGroup | Error

  /** `PacketType.values()`, in declaration order. */
  const Values: seq<PacketType> := [Minimal, Attribute, AttributeGroup, Error]

  function Code(t: PacketType): byte {
    match t
    case Minimal => 0x01
    case Attribute => 0x02
    case AttributeGroup => 0x03
    case Error => 0x04
  }

  /** Bytes of packet data after the IPv6 fixed header (extension header + payload). */
  function Length(t: PacketType): nat {
    match t
    case Minimal => 32
    case Attribute => 48
    case AttributeGroup => 96
    case Error => 0
  }

  /** `byType`: the three real codes decode to their type, every other byte to Error. */
  function ByType(b: byte): (t: PacketType)
    ensures t != Error <==> 1 <= b <= 3
    ensures t != Error ==> Code(t) == b
  {
    match b
    case 0x01 => Minimal
    case 0x02 => Attribute
    case 0x03 => AttributeGroup
    case _ => Error
  }

  /** Decoding inverts encoding for every type, Error included (0x04 falls to the default). */
  lemma ByTypeOfCode(t: PacketType)
    ensures ByType(Code(t)) == t
  {
  }

  /** Codes are pairwise distinct. */
  lemma CodesInjective(t: PacketType, u: PacketType)
    ensures Code(t) == Code(u) <==> t == u
  {
  }

  /** Values lists every type once, Error last, so Values[|Values| - 2] is the last real type. */
  lemma ValuesShape()
    ensures |Values| == 4
    ensures forall t: PacketType :: t in Values
    ensures forall i, j :: 0 <= i < j < |Values| ==> Values[i] != Values[j]
    ensures Values[|Values| - 1] == Error
    ensures Values[|Values| - 2] == AttributeGroup
    ensures forall i :: 0 <= i < |Values| - 1 ==> Values[i] != Error
  {
    forall t: PacketType ensures t in Values {
      match t
      case Minimal => assert Values[0] == t;
      case Attribute => assert Values[1] == t;
      case AttributeGroup => assert Values[2] == t;
      case Error => assert Values[3] == t;
    }
  }

  /** Real types have positive lengths, strictly increasing in declaration order. */
  lemma LengthsIncreasing()
    ensures forall i :: 0 <= i < |Values| - 1 ==> Length(Values[i]) > 0
    ensures forall i, j :: 0 <= i < j < |Values| - 1 ==> Length(Values[i]) < Length(Values[j])
  {
  }
}
