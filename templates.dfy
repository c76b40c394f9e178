/**
 * Slot templates: the loop that prepares the first slots of a buffer for
 * sending, writing in each the destination address, the fixed extension
 * header and the "data:" payload. The sender runs it for its batch slots,
 * a handler for all slots of its reply buffer.
 */
module SlotTemplates {
  import opened Bytes
  import opened Codec

  /** The payload length both template loops ask for: `BUF_PACKET_BYTES_MAX`, 1024. */
  const TEMPLATE_PAYLOAD_LENGTH: int := 1024

  /** The payload bytes `populatePacketPayloadTemplate(i, 1024)` writes in a slot of sz bytes. */
  function PayloadRoom(sz: int): int {
    if TEMPLATE_PAYLOAD_LENGTH < sz - SLOT_XNETP_DATA_SHIFT then TEMPLATE_PAYLOAD_LENGTH else sz - SLOT_XNETP_DATA_SHIFT
  }

  /** Room in a region of n bytes for count slots of sz bytes with a destination address of |address| bytes. */
  predicate TemplateRoom(n: int, sz: int, address: seq<byte>, count: int) {
    && SLOT_XNETP_DATA_SHIFT <= sz && 0 <= count && count * sz <= n
    && SLOT_HEADER_ADDR_SHIFT + |address| <= SLOT_DATA_SHIFT
  }

  /** One slot after its address, extension header template and payload template are written. */
  function TemplateSlot(s: seq<byte>, base: int, sz: int, address: seq<byte>): (r: seq<byte>)
    requires 0 <= base && base + sz <= |s| && SLOT_XNETP_DATA_SHIFT <= sz
    requires SLOT_HEADER_ADDR_SHIFT + |address| <= SLOT_DATA_SHIFT
    ensures |r| == |s|
  {
    var a := Overwrite(s, base + SLOT_HEADER_ADDR_SHIFT, address);
    var h := Overwrite(a, base + SLOT_XNETP_EXT_HDR_SHIFT, EXT_HEADER_TEMPLATE);
    Overwrite(h, base + SLOT_XNETP_DATA_SHIFT, PayloadTemplate(PayloadRoom(sz)))
  }

  /** The slot at base holds the address, the extension header template and the payload template. */
  predicate SlotTemplated(r: seq<byte>, base: int, sz: int, address: seq<byte>)
    requires 0 <= base && base + sz <= |r| && SLOT_XNETP_DATA_SHIFT <= sz
    requires SLOT_HEADER_ADDR_SHIFT + |address| <= SLOT_DATA_SHIFT
  {
    && r[base + SLOT_HEADER_ADDR_SHIFT..base + SLOT_HEADER_ADDR_SHIFT + |address|] == address
    && r[base + SLOT_XNETP_EXT_HDR_SHIFT..base + SLOT_XNETP_EXT_HDR_SHIFT + |EXT_HEADER_TEMPLATE|] == EXT_HEADER_TEMPLATE
    && r[base + SLOT_XNETP_DATA_SHIFT..base + SLOT_XNETP_DATA_SHIFT + PayloadRoom(sz)] == PayloadTemplate(PayloadRoom(sz))
  }

  /** The templates land in their windows and nothing outside the slot changes. */
  lemma TemplateSlotWindows(s: seq<byte>, base: int, sz: int, address: seq<byte>)
    requires 0 <= base && base + sz <= |s| && SLOT_XNETP_DATA_SHIFT <= sz
    requires SLOT_HEADER_ADDR_SHIFT + |address| <= SLOT_DATA_SHIFT
    ensures SlotTemplated(TemplateSlot(s, base, sz, address), base, sz, address)
    ensures forall i :: 0 <= i < |s| && !(base <= i < base + sz) ==> TemplateSlot(s, base, sz, address)[i] == s[i]
  {
    LayoutOffsets();
    var a := Overwrite(s, base + SLOT_HEADER_ADDR_SHIFT, address);
    var h := Overwrite(a, base + SLOT_XNETP_EXT_HDR_SHIFT, EXT_HEADER_TEMPLATE);
    var n := PayloadRoom(sz);
    var r := Overwrite(h, base + SLOT_XNETP_DATA_SHIFT, PayloadTemplate(n));
    OverwriteAt(s, base + SLOT_HEADER_ADDR_SHIFT, address);
    OverwriteAt(a, base + SLOT_XNETP_EXT_HDR_SHIFT, EXT_HEADER_TEMPLATE);
    OverwriteAt(h, base + SLOT_XNETP_DATA_SHIFT, PayloadTemplate(n));
    assert r[base + SLOT_HEADER_ADDR_SHIFT..base + SLOT_HEADER_ADDR_SHIFT + |address|] == address;
    assert r[base + SLOT_XNETP_EXT_HDR_SHIFT..base + SLOT_XNETP_EXT_HDR_SHIFT + |EXT_HEADER_TEMPLATE|] == EXT_HEADER_TEMPLATE;
    assert r[base + SLOT_XNETP_DATA_SHIFT..base + SLOT_XNETP_DATA_SHIFT + n] == PayloadTemplate(n);
  }

  /** Whether a slot is templated depends on that slot's bytes only. */
  lemma SlotTemplatedFrame(s: seq<byte>, t: seq<byte>, base: int, sz: int, address: seq<byte>)
    requires 0 <= base && base + sz <= |s| && |s| == |t| && SLOT_XNETP_DATA_SHIFT <= sz
    requires SLOT_HEADER_ADDR_SHIFT + |address| <= SLOT_DATA_SHIFT
    requires forall i :: base <= i < base + sz ==> s[i] == t[i]
    ensures SlotTemplated(s, base, sz, address) <==> SlotTemplated(t, base, sz, address)
  {
    LayoutOffsets();
    var n := PayloadRoom(sz);
    assert s[base + SLOT_HEADER_ADDR_SHIFT..base + SLOT_HEADER_ADDR_SHIFT + |address|] == t[base + SLOT_HEADER_ADDR_SHIFT..base + SLOT_HEADER_ADDR_SHIFT + |address|];
    assert s[base + SLOT_XNETP_EXT_HDR_SHIFT..base + SLOT_XNETP_EXT_HDR_SHIFT + |EXT_HEADER_TEMPLATE|] == t[base + SLOT_XNETP_EXT_HDR_SHIFT..base + SLOT_XNETP_EXT_HDR_SHIFT + |EXT_HEADER_TEMPLATE|];
    assert s[base + SLOT_XNETP_DATA_SHIFT..base + SLOT_XNETP_DATA_SHIFT + n] == t[base + SLOT_XNETP_DATA_SHIFT..base + SLOT_XNETP_DATA_SHIFT + n];
  }

  /** A shorter prefix of slots keeps the room, and slot j lies inside the region. */
  lemma TemplateRoomSlot(n: int, sz: int, address: seq<byte>, count: int, j: int)
    requires TemplateRoom(n, sz, address, count) && 0 <= j < count
    ensures TemplateRoom(n, sz, address, j) && 0 <= j * sz && j * sz + sz <= n
  {
    SlotsApart(sz, j, count);
    MulNonNegative(j, sz);
  }

  lemma MulNonNegative(a: int, b: int)
    requires 0 <= a && 0 <= b
    ensures 0 <= a * b
  {
  }

  /** The region after the template loop has prepared slots 0 .. count - 1. */
  function Templated(s: seq<byte>, sz: int, address: seq<byte>, count: int): (r: seq<byte>)
    requires TemplateRoom(|s|, sz, address, count)
    ensures |r| == |s|
    decreases count
  {
    if count == 0 then s
    else
      TemplateRoomSlot(|s|, sz, address, count, count - 1);
      TemplateSlot(Templated(s, sz, address, count - 1), (count - 1) * sz, sz, address)
  }

  /** Preparing the slot at mb leaves the earlier slot at kb as it was. */
  lemma TemplateSlotKeeps(s: seq<byte>, sz: int, address: seq<byte>, mb: int, kb: int)
    requires 0 <= kb && kb + sz <= mb && mb + sz <= |s| && SLOT_XNETP_DATA_SHIFT <= sz
    requires SLOT_HEADER_ADDR_SHIFT + |address| <= SLOT_DATA_SHIFT
    ensures SlotTemplated(TemplateSlot(s, mb, sz, address), kb, sz, address) <==> SlotTemplated(s, kb, sz, address)
  {
    TemplateSlotWindows(s, mb, sz, address);
    SlotTemplatedFrame(s, TemplateSlot(s, mb, sz, address), kb, sz, address);
  }

  /** After the template loop every prepared slot holds the address, the header template and the payload template. */
  lemma {:induction false} TemplatedSlots(s: seq<byte>, sz: int, address: seq<byte>, count: int, k: int)
    requires TemplateRoom(|s|, sz, address, count) && 0 <= k < count
    ensures k * sz + sz <= |s|
    ensures SlotTemplated(Templated(s, sz, address, count), k * sz, sz, address)
    decreases count
  {
    var m := count - 1;
    TemplateRoomSlot(|s|, sz, address, count, m);
    var prev := Templated(s, sz, address, m);
    if k < m {
      SlotsApart(sz, k, m);
      MulNonNegative(k, sz);
      TemplatedSlots(s, sz, address, m, k);
      TemplateSlotKeeps(prev, sz, address, m * sz, k * sz);
    } else {
      TemplateSlotWindows(prev, m * sz, sz, address);
    }
  }

  /** The body of the template loop: slot i gets the address, the extension header and the payload templates. */
  method TemplateOne(buffer: PacketBuffer, i: int, address: seq<byte>)
    requires 0 <= i * buffer.slotSize && i * buffer.slotSize + buffer.slotSize <= buffer.buffer.Length
    requires SLOT_XNETP_DATA_SHIFT <= buffer.slotSize && SLOT_HEADER_ADDR_SHIFT + |address| <= SLOT_DATA_SHIFT
    modifies buffer.buffer
    ensures buffer.buffer[..] == TemplateSlot(old(buffer.buffer[..]), i * buffer.slotSize, buffer.slotSize, address)
  {
    LayoutOffsets();
    buffer.PopulateSlotAddress(i, address);
    buffer.PopulatePacketExtHeaderTemplate(i);
    buffer.PopulatePacketPayloadTemplate(i, TEMPLATE_PAYLOAD_LENGTH);
  }

  /**
   * The template loop a sending thread runs at its start and a handler in its
   * constructor: for each of the first count slots, the destination address,
   * the extension header template and the payload template.
   */
  method PopulateTemplates(buffer: PacketBuffer, count: int, address: seq<byte>)
    requires buffer.Valid() && TemplateRoom(buffer.buffer.Length, buffer.slotSize, address, count)
    modifies buffer.buffer
    ensures buffer.buffer[..] == Templated(old(buffer.buffer[..]), buffer.slotSize, address, count)
  {
    ghost var before := buffer.buffer[..];
    var i := 0;
    while i < count
      invariant 0 <= i <= count
      invariant buffer.buffer[..] == Templated(before, buffer.slotSize, address, i)
    {
      TemplateRoomSlot(buffer.buffer.Length, buffer.slotSize, address, count, i);
      TemplateOne(buffer, i, address);
      if i + 1 < count {
        TemplateRoomSlot(buffer.buffer.Length, buffer.slotSize, address, count, i + 1);
      }
      i := i + 1;
    }
  }
}
