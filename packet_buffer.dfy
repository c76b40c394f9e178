/**
 * The xnetp packet buffer: `slots` fixed-size slots of `slotSize` bytes in one
 * region, each laid out at fixed offsets from the slot base `slot * slotSize`:
 *
 *   +0   slot header (32 bytes): destination address at +8, data length (int) at +28
 *   +32  reserved IPv6 fixed header (40 bytes), laid out as in section 3 of RFC 8200
 *   +72  xnetp extension header (32 bytes): UNI at +76..+91, packet type at +92
 *   +104 payload
 *
 * The layout is given first as pure functions over the bytes (`seq<byte>`) and
 * a slot base; the class `PacketBuffer` then updates an `array<byte>` in place
 * and states each update as one of those functions applied to the old contents.
 */
module Codec {
  import opened Bytes
  import opened PacketTypes

  const SLOT_HEADER_LENGTH: int := 32
  const SLOT_HEADER_ADDR_SHIFT: int := 8
  const SLOT_HEADER_DATALEN_SHIFT: int := 28
  const SLOT_IPV6_HDR_SHIFT: int := SLOT_HEADER_LENGTH
  const PACKET_IPV6_HDR_LENGTH: int := 40
  const SLOT_DATA_SHIFT: int := SLOT_HEADER_LENGTH + PACKET_IPV6_HDR_LENGTH
  const PACKET_XNETP_EXT_HDR_LENGTH: int := 32
  const SLOT_XNETP_EXT_HDR_SHIFT: int := SLOT_DATA_SHIFT
  const SLOT_XNETP_DATA_SHIFT: int := SLOT_XNETP_EXT_HDR_SHIFT + PACKET_XNETP_EXT_HDR_LENGTH

  /** The type byte sits 12 bytes before the payload, at extension-header offset 20. */
  const SLOT_TYPE_SHIFT: int := SLOT_XNETP_DATA_SHIFT - 12
  /** The 16-byte UNI follows the first four bytes of the extension header. */
  const SLOT_UNI_SHIFT: int := SLOT_XNETP_EXT_HDR_SHIFT + 4
  const UNI_LENGTH: int := 16

  /** The UNI template: FC followed by 15 zero bytes. */
  const UNI_TEMPLATE: seq<byte> := [0xFC, 0, 0, 0, 0, 0, 0, 0, 0, 0, 0, 0, 0, 0, 0, 0]

  /** The fixed part of the extension header: FF 20 00 00, the UNI template, type 00, then 88 12 34. */
  const EXT_HEADER_TEMPLATE: seq<byte> := [0xFF, 0x20, 0x00, 0x00] + UNI_TEMPLATE + [0x00, 0x88, 0x12, 0x34]

  /** The repeating payload marker "data:". */
  const MARKER: seq<byte> := [0x64, 0x61, 0x74, 0x61, 0x3A]
  const MARKER_LENGTH: int := 5

  // ---------------------------------------------------------------------------
  // Reading a slot (base is the offset of the slot in the region)

  /** The bytes +28..+31 of the slot exist (the int that `setPacketLength` writes). */
  predicate LengthInRange(n: int, base: int) {
    0 <= base + SLOT_HEADER_DATALEN_SHIFT && base + SLOT_HEADER_DATALEN_SHIFT + 4 <= n
  }

  /** The bytes +28..+92 of the slot exist: everything `validate` and `populatePacketData` touch. */
  predicate HeaderInRange(n: int, base: int) {
    0 <= base + SLOT_HEADER_DATALEN_SHIFT && base + SLOT_TYPE_SHIFT < n
  }

  /** Slot `slot` lies inside a region of n bytes and is large enough for all fixed fields. */
  predicate SlotInRange(n: int, sz: int, slot: int) {
    0 <= slot && SLOT_XNETP_DATA_SHIFT <= sz && slot * sz + sz <= n
  }

  function LengthField(s: seq<byte>, base: int): int
    requires LengthInRange(|s|, base)
  {
    Int32At(s, base + SLOT_HEADER_DATALEN_SHIFT)
  }

  function TypeByte(s: seq<byte>, base: int): byte
    requires 0 <= base + SLOT_TYPE_SHIFT < |s|
  {
    s[base + SLOT_TYPE_SHIFT]
  }

  function Uni(s: seq<byte>, base: int): (u: seq<byte>)
    requires 0 <= base + SLOT_UNI_SHIFT && base + SLOT_UNI_SHIFT + UNI_LENGTH <= |s|
    ensures |u| == UNI_LENGTH
  {
    s[base + SLOT_UNI_SHIFT .. base + SLOT_UNI_SHIFT + UNI_LENGTH]
  }

  /** `validate`: the type byte names a real type and the length field holds that type's length. */
  predicate SlotValid(s: seq<byte>, base: int)
    requires HeaderInRange(|s|, base)
  {
    var t := ByType(TypeByte(s, base));
    t != Error && LengthField(s, base) == Length(t)
  }

  // ---------------------------------------------------------------------------
  // Writing a slot

  function WriteLength(s: seq<byte>, base: int, n: int): (r: seq<byte>)
    requires LengthInRange(|s|, base) && IsInt32(n)
    ensures |r| == |s|
    ensures LengthField(r, base) == n
    ensures forall i :: 0 <= i < |s| && !(base + SLOT_HEADER_DATALEN_SHIFT <= i < base + SLOT_HEADER_DATALEN_SHIFT + 4) ==> r[i] == s[i]
  {
    Int32AtOverwrite(s, base + SLOT_HEADER_DATALEN_SHIFT, n);
    OverwriteAt(s, base + SLOT_HEADER_DATALEN_SHIFT, Int32Bytes(n));
    Overwrite(s, base + SLOT_HEADER_DATALEN_SHIFT, Int32Bytes(n))
  }

  function WriteType(s: seq<byte>, base: int, b: byte): (r: seq<byte>)
    requires 0 <= base + SLOT_TYPE_SHIFT < |s|
    ensures |r| == |s|
    ensures TypeByte(r, base) == b
    ensures forall i :: 0 <= i < |s| && i != base + SLOT_TYPE_SHIFT ==> r[i] == s[i]
  {
    s[base + SLOT_TYPE_SHIFT := b]
  }

  /** Length and type code that `populatePacketData` writes. */
  datatype Fields = Fields(length: int, code: byte)

  /**
   * A well-formed packet carries its type's own code and length; a malformed one
   * gets, on coin 0, the type's length plus one, and on coin 1 the Error code
   * with the Minimal length.
   */
  function PacketFields(t: PacketType, correct: bool, coin: int): Fields {
    if correct then Fields(Length(t), Code(t))
    else if coin < 1 then Fields(Length(t) + 1, Code(t))
    else Fields(Length(Minimal), Code(Error))
  }

  /** The random UNI coordinates of one packet: volume, segment and in-segment address draws. */
  datatype UniDraw = UniDraw(volume: int, segment: int, address: int)

  /**
   * `random.nextInt(bound)` is only called with a positive bound and yields a value
   * below it; the volume and segment draws are skipped when there is only one.
   */
  predicate UniDrawInRange(d: UniDraw, volumes: int, segments: int, addresses: int) {
    && 1 <= volumes && (volumes == 1 || 0 <= d.volume < volumes)
    && 1 <= segments && (segments == 1 || 0 <= d.segment < segments)
    && 1 <= addresses && 0 <= d.address < addresses
  }

  /** A volume or segment index: 0 when there is only one, otherwise the draw cast to a byte. */
  function IndexByte(count: int, draw: int): byte {
    if count == 1 then 0 else (draw % 256) as byte
  }

  /** The five bytes written at +88: volume, segment, address (big-endian, draw + 1), type code. */
  function PacketDataBytes(d: UniDraw, volumes: int, segments: int, code: byte): (r: seq<byte>)
    ensures |r| == 5
  {
    var address := d.address + 1;
    [IndexByte(volumes, d.volume), IndexByte(segments, d.segment),
     (address / 256 % 256) as byte, (address % 256) as byte, code]
  }

  /** The region after `populatePacketData` on the slot at base. */
  function WritePacketData(s: seq<byte>, base: int, f: Fields, d: UniDraw, volumes: int, segments: int): (r: seq<byte>)
    requires HeaderInRange(|s|, base) && IsInt32(f.length)
    ensures |r| == |s|
  {
    Overwrite(WriteLength(s, base, f.length), base + SLOT_UNI_SHIFT + 12, PacketDataBytes(d, volumes, segments, f.code))
  }

  /** i whole markers in a row. */
  function Markers(i: nat): (r: seq<byte>)
    ensures |r| == MARKER_LENGTH * i
  {
    if i == 0 then [] else Markers(i - 1) + MARKER
  }

  /** The payload template of n bytes: n / 5 whole markers, then the first n % 5 bytes of one more. */
  function PayloadTemplate(n: nat): (r: seq<byte>)
    ensures |r| == n
  {
    Markers(n / MARKER_LENGTH) + MARKER[..n % MARKER_LENGTH]
  }

  // ---------------------------------------------------------------------------
  // Properties of the layout

  /** Field offsets agree with the layout: the type byte is byte 20 of the extension header, the UNI bytes 4..19. */
  lemma LayoutOffsets()
    ensures SLOT_DATA_SHIFT == 72 && SLOT_XNETP_DATA_SHIFT == 104
    ensures SLOT_TYPE_SHIFT - SLOT_XNETP_EXT_HDR_SHIFT == 20
    ensures SLOT_UNI_SHIFT + UNI_LENGTH == SLOT_TYPE_SHIFT
    ensures SLOT_XNETP_EXT_HDR_SHIFT + |EXT_HEADER_TEMPLATE| <= SLOT_XNETP_DATA_SHIFT
    ensures EXT_HEADER_TEMPLATE[SLOT_TYPE_SHIFT - SLOT_XNETP_EXT_HDR_SHIFT] == 0
  {
  }

  /** `validate` reads back exactly the type that `setPacketType` writes and the length that `setPacketLength` writes. */
  lemma SetTypeAndLengthThenValidate(s: seq<byte>, base: int, b: byte, n: int)
    requires HeaderInRange(|s|, base) && IsInt32(n)
    ensures var r := WriteLength(WriteType(s, base, b), base, n);
            && TypeByte(r, base) == b && LengthField(r, base) == n
            && (SlotValid(r, base) <==> ByType(b) != Error && n == Length(ByType(b)))
  {
    var r1 := WriteType(s, base, b);
    var r := WriteLength(r1, base, n);
    assert r[base + SLOT_TYPE_SHIFT] == r1[base + SLOT_TYPE_SHIFT];
  }

  /** The fields `populatePacketData` writes are the ones `validate` and `getUNI` read back. */
  lemma PacketDataReadBack(s: seq<byte>, base: int, f: Fields, d: UniDraw, volumes: int, segments: int)
    requires HeaderInRange(|s|, base) && IsInt32(f.length)
    ensures var r := WritePacketData(s, base, f, d, volumes, segments);
            && LengthField(r, base) == f.length
            && TypeByte(r, base) == f.code
            && (forall j :: 0 <= j < 4 ==> Uni(r, base)[12 + j] == PacketDataBytes(d, volumes, segments, f.code)[j])
            && (forall j :: 0 <= j < 12 ==> Uni(r, base)[j] == Uni(s, base)[j])
  {
    var pos := base + SLOT_HEADER_DATALEN_SHIFT;
    var w := WriteLength(s, base, f.length);
    var r := WritePacketData(s, base, f, d, volumes, segments);
    OverwriteAt(w, base + SLOT_UNI_SHIFT + 12, PacketDataBytes(d, volumes, segments, f.code));
    assert r[pos..pos + 4] == w[pos..pos + 4];
    Int32AtFrame(r, w, pos);
  }

  /**
   * A well-formed packet of a real type passes `validate`; a malformed one fails
   * it on either forging branch.
   */
  lemma PacketDataValidity(s: seq<byte>, base: int, t: PacketType, correct: bool, coin: int, d: UniDraw, volumes: int, segments: int)
    requires HeaderInRange(|s|, base) && t != Error
    ensures SlotValid(WritePacketData(s, base, PacketFields(t, correct, coin), d, volumes, segments), base) == correct
  {
    PacketDataReadBack(s, base, PacketFields(t, correct, coin), d, volumes, segments);
    ByTypeOfCode(t);
    ByTypeOfCode(Error);
  }

  /** An index byte is below its count: 0 for a single volume or segment, else the draw itself. */
  lemma IndexByteBound(count: int, draw: int)
    requires 1 <= count && (count == 1 || 0 <= draw < count)
    ensures (IndexByte(count, draw) as int) < count
    ensures count <= 256 ==> IndexByte(count, draw) as int == if count == 1 then 0 else draw
  {
  }

  /** The two address bytes are the address in big-endian order, for addresses up to 0xFFFF. */
  lemma AddressBytes(a: int)
    requires 0 <= a <= 0xFFFF
    ensures 256 * ((a / 256 % 256) as byte as int) + (a % 256) as byte as int == a
  {
  }

  /**
   * The UNI coordinates of a generated packet: volume and segment below their
   * counts (0 when the count is 1), the address big-endian in 1..addresses.
   */
  lemma PacketDataUni(s: seq<byte>, base: int, f: Fields, d: UniDraw, volumes: int, segments: int, addresses: int)
    requires HeaderInRange(|s|, base) && IsInt32(f.length)
    requires UniDrawInRange(d, volumes, segments, addresses) && addresses <= 0xFFFF
    ensures var u := Uni(WritePacketData(s, base, f, d, volumes, segments), base);
            && (volumes == 1 ==> u[12] == 0) && (u[12] as int) < volumes
            && (segments == 1 ==> u[13] == 0) && (u[13] as int) < segments
            && 256 * (u[14] as int) + (u[15] as int) == d.address + 1
  {
    PacketDataReadBack(s, base, f, d, volumes, segments);
    var u := Uni(WritePacketData(s, base, f, d, volumes, segments), base);
    var p := PacketDataBytes(d, volumes, segments, f.code);
    assert u[12] == p[0] && u[13] == p[1] && u[14] == p[2] && u[15] == p[3];
    IndexByteBound(volumes, d.volume);
    IndexByteBound(segments, d.segment);
    AddressBytes(d.address + 1);
  }

  /** After `populatePacketExtHeaderTemplate` the type byte reads 0 and the UNI reads as the template. */
  lemma ExtHeaderTemplateReadBack(s: seq<byte>, base: int)
    requires 0 <= base + SLOT_XNETP_EXT_HDR_SHIFT && base + SLOT_XNETP_EXT_HDR_SHIFT + |EXT_HEADER_TEMPLATE| <= |s|
    ensures var r := Overwrite(s, base + SLOT_XNETP_EXT_HDR_SHIFT, EXT_HEADER_TEMPLATE);
            TypeByte(r, base) == 0 && Uni(r, base) == UNI_TEMPLATE
  {
    var pos := base + SLOT_XNETP_EXT_HDR_SHIFT;
    var r := Overwrite(s, pos, EXT_HEADER_TEMPLATE);
    OverwriteAt(s, pos, EXT_HEADER_TEMPLATE);
    assert forall i :: 0 <= i < UNI_LENGTH ==> EXT_HEADER_TEMPLATE[4 + i] == UNI_TEMPLATE[i];
    assert EXT_HEADER_TEMPLATE[20] == 0;
  }

  // ---------------------------------------------------------------------------
  // Slots are independent

  lemma MulAtLeast(a: int, b: int)
    requires 1 <= a && 0 <= b
    ensures b <= a * b
  {
    if a > 1 {
      MulAtLeast(a - 1, b);
      assert a * b == (a - 1) * b + b;
    }
  }

  /** Distinct slots occupy disjoint byte ranges. */
  lemma SlotsApart(sz: int, j: int, k: int)
    requires 0 <= j < k && 0 <= sz
    ensures j * sz + sz <= k * sz
  {
    MulAtLeast(k - j, sz);
    assert k * sz == j * sz + (k - j) * sz;
  }

  /** Everything read from a slot depends on the first 104 bytes of that slot only. */
  lemma SlotReadsFrame(s: seq<byte>, t: seq<byte>, base: int)
    requires 0 <= base && base + SLOT_XNETP_DATA_SHIFT <= |s| && |s| == |t|
    requires forall i :: base <= i < base + SLOT_XNETP_DATA_SHIFT ==> s[i] == t[i]
    ensures LengthField(s, base) == LengthField(t, base)
    ensures TypeByte(s, base) == TypeByte(t, base)
    ensures Uni(s, base) == Uni(t, base)
    ensures SlotValid(s, base) <==> SlotValid(t, base)
  {
    var pos := base + SLOT_HEADER_DATALEN_SHIFT;
    assert s[pos..pos + 4] == t[pos..pos + 4];
    Int32AtFrame(s, t, pos);
  }

  /** A write confined to slot k changes nothing that is read from another slot j. */
  lemma OtherSlotFrame(s: seq<byte>, r: seq<byte>, sz: int, k: int, j: int)
    requires SlotInRange(|s|, sz, k) && SlotInRange(|s|, sz, j) && |r| == |s| && j != k
    requires forall i :: 0 <= i < |s| && !(k * sz <= i < k * sz + sz) ==> r[i] == s[i]
    ensures LengthField(r, j * sz) == LengthField(s, j * sz)
    ensures TypeByte(r, j * sz) == TypeByte(s, j * sz)
    ensures Uni(r, j * sz) == Uni(s, j * sz)
    ensures SlotValid(r, j * sz) <==> SlotValid(s, j * sz)
  {
    if j < k { SlotsApart(sz, j, k); } else { SlotsApart(sz, k, j); }
    SlotReadsFrame(r, s, j * sz);
  }

  /** Writing a type byte changes no length field and no other slot's type byte. */
  lemma WriteTypeFrame(s: seq<byte>, sz: int, slot: int, b: byte, j: int)
    requires SlotInRange(|s|, sz, slot) && SlotInRange(|s|, sz, j)
    ensures LengthField(WriteType(s, slot * sz, b), j * sz) == LengthField(s, j * sz)
    ensures j != slot ==> TypeByte(WriteType(s, slot * sz, b), j * sz) == TypeByte(s, j * sz)
  {
    var r := WriteType(s, slot * sz, b);
    if j != slot {
      OtherSlotFrame(s, r, sz, slot, j);
    } else {
      var pos := j * sz + SLOT_HEADER_DATALEN_SHIFT;
      assert r[pos..pos + 4] == s[pos..pos + 4];
      Int32AtFrame(s, r, pos);
    }
  }

  /** Writing a length field changes no type byte and no other slot's length field. */
  lemma WriteLengthFrame(s: seq<byte>, sz: int, slot: int, n: int, j: int)
    requires SlotInRange(|s|, sz, slot) && SlotInRange(|s|, sz, j) && IsInt32(n)
    ensures TypeByte(WriteLength(s, slot * sz, n), j * sz) == TypeByte(s, j * sz)
    ensures j != slot ==> LengthField(WriteLength(s, slot * sz, n), j * sz) == LengthField(s, j * sz)
  {
    var r := WriteLength(s, slot * sz, n);
    if j != slot {
      OtherSlotFrame(s, r, sz, slot, j);
    }
  }

  /** `populatePacketData` on one slot changes nothing that is read from another slot. */
  lemma WritePacketDataFrame(s: seq<byte>, sz: int, slot: int, f: Fields, d: UniDraw, volumes: int, segments: int, j: int)
    requires SlotInRange(|s|, sz, slot) && SlotInRange(|s|, sz, j) && IsInt32(f.length) && j != slot
    ensures var r := WritePacketData(s, slot * sz, f, d, volumes, segments);
            && TypeByte(r, j * sz) == TypeByte(s, j * sz)
            && Uni(r, j * sz) == Uni(s, j * sz)
            && (SlotValid(r, j * sz) <==> SlotValid(s, j * sz))
  {
    var w := WriteLength(s, slot * sz, f.length);
    var r := WritePacketData(s, slot * sz, f, d, volumes, segments);
    OverwriteAt(w, slot * sz + SLOT_UNI_SHIFT + 12, PacketDataBytes(d, volumes, segments, f.code));
    OtherSlotFrame(s, r, sz, slot, j);
  }

  // ---------------------------------------------------------------------------
  // The payload template

  lemma OverwriteConcat(s: seq<byte>, pos: int, a: seq<byte>, b: seq<byte>)
    requires 0 <= pos && pos + |a| + |b| <= |s|
    ensures Overwrite(Overwrite(s, pos, a), pos + |a|, b) == Overwrite(s, pos, a + b)
  {
    var l := Overwrite(Overwrite(s, pos, a), pos + |a|, b);
    var r := Overwrite(s, pos, a + b);
    OverwriteAt(s, pos, a);
    OverwriteAt(Overwrite(s, pos, a), pos + |a|, b);
    OverwriteAt(s, pos, a + b);
    assert forall i :: 0 <= i < |s| ==> l[i] == r[i];
  }

  lemma {:induction false} MarkersAt(i: nat)
    ensures forall k :: 0 <= k < MARKER_LENGTH * i ==> Markers(i)[k] == MARKER[k % MARKER_LENGTH]
  {
    if i > 0 {
      MarkersAt(i - 1);
      forall k | MARKER_LENGTH * (i - 1) <= k < MARKER_LENGTH * i
        ensures Markers(i)[k] == MARKER[k % MARKER_LENGTH]
      {
        assert k % MARKER_LENGTH == k - MARKER_LENGTH * (i - 1);
      }
    }
  }

  /** Byte k of the payload template is byte k % 5 of the marker: the marker repeated and cut after n bytes. */
  lemma PayloadTemplateAt(n: nat)
    ensures forall k :: 0 <= k < n ==> PayloadTemplate(n)[k] == MARKER[k % MARKER_LENGTH]
  {
    var q := n / MARKER_LENGTH;
    MarkersAt(q);
    forall k | MARKER_LENGTH * q <= k < n
      ensures PayloadTemplate(n)[k] == MARKER[k % MARKER_LENGTH]
    {
      assert k % MARKER_LENGTH == k - MARKER_LENGTH * q;
    }
  }

  // ---------------------------------------------------------------------------
  // The buffer

  class PacketBuffer {
    /** Number of slots; the region always holds slots * slotSize bytes. */
    const slots: nat
    const slotSize: nat
    /** Number of packets in the buffer, kept in 0..slots by the application. */
    var packets: int
    const buffer: array<byte>

    ghost predicate Valid()
      reads this
    {
      buffer.Length == slots * slotSize && 0 <= packets <= slots
    }

    /** A zero-filled buffer of slots * slotSize bytes holding no packets. */
    constructor Allocate(slots: nat, slotSize: nat)
      ensures Valid() && fresh(buffer)
      ensures this.slots == slots && this.slotSize == slotSize && packets == 0
      ensures buffer[..] == seq(slots * slotSize, _ => 0)
    {
      this.slots := slots;
      this.slotSize := slotSize;
      packets := 0;
      buffer := new byte[slots * slotSize](_ => 0);
    }

    /** `position(pos).put(data)`. */
    method Put(pos: int, data: seq<byte>)
      requires 0 <= pos && pos + |data| <= buffer.Length
      modifies buffer
      ensures buffer[..] == Overwrite(old(buffer[..]), pos, data)
    {
      forall i | pos <= i < pos + |data| {
        buffer[i] := data[i - pos];
      }
      OverwriteAt(old(buffer[..]), pos, data);
    }

    /** `populateSlotAddress`: the destination address goes to +8 of the slot header. */
    method PopulateSlotAddress(slot: int, address: seq<byte>)
      requires 0 <= slot * slotSize + SLOT_HEADER_ADDR_SHIFT && slot * slotSize + SLOT_HEADER_ADDR_SHIFT + |address| <= buffer.Length
      modifies buffer
      ensures buffer[..] == Overwrite(old(buffer[..]), slot * slotSize + SLOT_HEADER_ADDR_SHIFT, address)
    {
      Put(slot * slotSize + SLOT_HEADER_ADDR_SHIFT, address);
    }

    /**
     * `populatePacketData`: length field, the last four UNI bytes and the type
     * code. The random draws are parameters: `coin` is `nextInt(2)`, used only
     * for a malformed packet, and `d` holds the UNI draws.
     */
    method PopulatePacketData(slot: int, pType: PacketType, uniVolumes: int, uniSegments: int, uniAddresses: int,
                              packetCorrect: bool, coin: int, d: UniDraw)
      requires HeaderInRange(buffer.Length, slot * slotSize)
      requires 0 <= coin < 2 && UniDrawInRange(d, uniVolumes, uniSegments, uniAddresses)
      modifies buffer
      ensures buffer[..] == WritePacketData(old(buffer[..]), slot * slotSize, PacketFields(pType, packetCorrect, coin), d, uniVolumes, uniSegments)
    {
      var base := slot * slotSize;
      var pTypeLength := Length(pType);
      var pTypeCode := Code(pType);
      if !packetCorrect {
        if coin < 1 {
          pTypeLength := pTypeLength + 1;
        } else {
          pTypeCode := Code(Error);
          pTypeLength := Length(Minimal);
        }
      }
      assert Fields(pTypeLength, pTypeCode) == PacketFields(pType, packetCorrect, coin);
      SetPacketLength(slot, pTypeLength);
      var volume: byte := if uniVolumes == 1 then 0 else (d.volume % 256) as byte;
      var segment: byte := if uniSegments == 1 then 0 else (d.segment % 256) as byte;
      var address := d.address + 1;
      var data := [volume, segment, (address / 256 % 256) as byte, (address % 256) as byte, pTypeCode];
      assert data == PacketDataBytes(d, uniVolumes, uniSegments, pTypeCode);
      Put(base + SLOT_UNI_SHIFT + 12, data);
    }

    /** `populatePacketExtHeaderTemplate`. */
    method PopulatePacketExtHeaderTemplate(slot: int)
      requires 0 <= slot * slotSize + SLOT_XNETP_EXT_HDR_SHIFT && slot * slotSize + SLOT_XNETP_EXT_HDR_SHIFT + |EXT_HEADER_TEMPLATE| <= buffer.Length
      modifies buffer
      ensures buffer[..] == Overwrite(old(buffer[..]), slot * slotSize + SLOT_XNETP_EXT_HDR_SHIFT, EXT_HEADER_TEMPLATE)
    {
      Put(slot * slotSize + SLOT_XNETP_EXT_HDR_SHIFT, EXT_HEADER_TEMPLATE);
    }

    /** `getPacketTypeAsByte`. */
    function PacketTypeByte(slot: int): byte
      requires 0 <= slot * slotSize + SLOT_TYPE_SHIFT < buffer.Length
      reads buffer
    {
      TypeByte(buffer[..], slot * slotSize)
    }

    /** `setPacketType(slot, byte)`: only the type byte of the slot changes. */
    method SetPacketType(slot: int, b: byte)
      requires 0 <= slot * slotSize + SLOT_TYPE_SHIFT < buffer.Length
      modifies buffer
      ensures buffer[..] == WriteType(old(buffer[..]), slot * slotSize, b)
    {
      buffer[slot * slotSize + SLOT_TYPE_SHIFT] := b;
    }

    /** `setPacketType(slot, PacketType)`. */
    method SetPacketTypeOf(slot: int, t: PacketType)
      requires 0 <= slot * slotSize + SLOT_TYPE_SHIFT < buffer.Length
      modifies buffer
      ensures buffer[..] == WriteType(old(buffer[..]), slot * slotSize, Code(t))
    {
      SetPacketType(slot, Code(t));
    }

    /** `setPacketLength`: the int at +28 of the slot header. */
    method SetPacketLength(slot: int, length: int)
      requires LengthInRange(buffer.Length, slot * slotSize) && IsInt32(length)
      modifies buffer
      ensures buffer[..] == WriteLength(old(buffer[..]), slot * slotSize, length)
    {
      Put(slot * slotSize + SLOT_HEADER_DATALEN_SHIFT, Int32Bytes(length));
    }

    /** `getUNI`: a copy of the 16 UNI bytes. */
    function GetUni(slot: int): seq<byte>
      requires 0 <= slot * slotSize + SLOT_UNI_SHIFT && slot * slotSize + SLOT_UNI_SHIFT + UNI_LENGTH <= buffer.Length
      reads buffer
    {
      Uni(buffer[..], slot * slotSize)
    }

    /** `validate`. */
    predicate Validate(slot: int)
      requires HeaderInRange(buffer.Length, slot * slotSize)
      reads buffer
    {
      SlotValid(buffer[..], slot * slotSize)
    }

    /**
     * `populatePacketPayloadTemplate`: the length is clipped to the payload room
     * of the slot; whole markers are written in a loop, then the remainder.
     */
    method PopulatePacketPayloadTemplate(slot: int, length: int)
      requires SlotInRange(buffer.Length, slotSize, slot) && 0 <= length
      modifies buffer
      ensures var n := if length < slotSize - SLOT_XNETP_DATA_SHIFT then length else slotSize - SLOT_XNETP_DATA_SHIFT;
              buffer[..] == Overwrite(old(buffer[..]), slot * slotSize + SLOT_XNETP_DATA_SHIFT, PayloadTemplate(n))
    {
      var n := if length < slotSize - SLOT_XNETP_DATA_SHIFT then length else slotSize - SLOT_XNETP_DATA_SHIFT;
      var pos := slot * slotSize + SLOT_XNETP_DATA_SHIFT;
      PutPayload(pos, n);
    }

    /** The payload loop: `n / 5` whole markers, then `n % 5` bytes of one more, advancing the position. */
    method PutPayload(pos: int, n: nat)
      requires 0 <= pos && pos + n <= buffer.Length
      modifies buffer
      ensures buffer[..] == Overwrite(old(buffer[..]), pos, PayloadTemplate(n))
    {
      var repeat := n / MARKER_LENGTH;
      ghost var before := buffer[..];
      var at := pos;
      var i := 0;
      while i < repeat
        invariant 0 <= i <= repeat && at == pos + MARKER_LENGTH * i
        invariant buffer[..] == Overwrite(before, pos, Markers(i))
      {
        OverwriteConcat(before, pos, Markers(i), MARKER);
        Put(at, MARKER);
        at := at + MARKER_LENGTH;
        i := i + 1;
      }
      OverwriteConcat(before, pos, Markers(repeat), MARKER[..n % MARKER_LENGTH]);
      Put(at, MARKER[..n % MARKER_LENGTH]);
    }
  }
}
