/**
 * Bytes and the fixed-width integers the xnetp buffers are made of.
 *
 * A Java `byte` is signed, but every comparison the codec makes on a byte is
 * an equality with a constant, so the unsigned view 0..255 is used throughout.
 * `ByteBuffer.putInt`/`getInt`/`getShort` use the native byte order of the
 * machine; the model fixes little-endian.
 */
module Bytes {

  newtype byte = b: int | 0 <= b < 256

  const TWO_16: int := 0x1_0000
  const TWO_32: int := 0x1_0000_0000

  /** The values of a Java `int`. */
  predicate IsInt32(v: int) {
    -0x8000_0000 <= v < 0x8000_0000
  }

  /** A value cast to a Java or C `int`: two's complement wrap-around to 32 bits. */
  function Int32Wrap(v: int): (r: int)
    ensures IsInt32(r)
    ensures IsInt32(v) ==> r == v
    ensures (v - r) % TWO_32 == 0
  {
    (v + 0x8000_0000) % TWO_32 - 0x8000_0000
  }

  /** Wrapping a partial sum first does not change the wrapped total. */
  lemma WrapAdd(a: int, b: int)
    ensures Int32Wrap(Int32Wrap(a) + b) == Int32Wrap(a + b)
  {
    var w := Int32Wrap(a);
    var k := (a - w) / TWO_32;
    assert a - w == k * TWO_32;
    assert (w + b + 0x8000_0000) + k * TWO_32 == a + b + 0x8000_0000;
    ModMultiple(w + b + 0x8000_0000, k);
  }

  lemma {:induction false} ModMultiple(x: int, k: int)
    ensures (x + k * TWO_32) % TWO_32 == x % TWO_32
    decreases if k < 0 then -k else k
  {
    if k > 0 {
      ModMultiple(x, k - 1);
      assert x + k * TWO_32 == (x + (k - 1) * TWO_32) + TWO_32;
    } else if k < 0 {
      ModMultiple(x, k + 1);
      assert x + k * TWO_32 == (x + (k + 1) * TWO_32) - TWO_32;
    }
  }

  /** `ByteBuffer.putInt` in little-endian order: the four bytes of v's two's complement. */
  function Int32Bytes(v: int): (r: seq<byte>)
    requires IsInt32(v)
    ensures |r| == 4
  {
    var u := v % TWO_32;
    var q1 := u / 256;
    var q2 := q1 / 256;
    [(u % 256) as byte, (q1 % 256) as byte, (q2 % 256) as byte, (q2 / 256) as byte]
  }

  /** The unsigned value of four little-endian bytes starting at pos. */
  function UInt32At(s: seq<byte>, pos: int): (u: int)
    requires 0 <= pos && pos + 4 <= |s|
    ensures 0 <= u < TWO_32
  {
    s[pos] as int + 256 * (s[pos + 1] as int + 256 * (s[pos + 2] as int + 256 * s[pos + 3] as int))
  }

  /** `ByteBuffer.getInt` in little-endian order. */
  function Int32At(s: seq<byte>, pos: int): (v: int)
    requires 0 <= pos && pos + 4 <= |s|
    ensures IsInt32(v)
    ensures v % TWO_32 == UInt32At(s, pos)
  {
    var u := UInt32At(s, pos);
    if u < 0x8000_0000 then u else u - TWO_32
  }

  /** `ByteBuffer.getShort` in little-endian order (a signed 16-bit value). */
  function Int16At(s: seq<byte>, pos: int): (v: int)
    requires 0 <= pos && pos + 2 <= |s|
    ensures -0x8000 <= v < 0x8000
    ensures v % TWO_16 == s[pos] as int + 256 * s[pos + 1] as int
  {
    var u := s[pos] as int + 256 * s[pos + 1] as int;
    if u < 0x8000 then u else u - TWO_16
  }

  /** Writing an int and reading it back at the same position gives the int back. */
  lemma Int32RoundTrip(v: int)
    requires IsInt32(v)
    ensures Int32At(Int32Bytes(v), 0) == v
  {
    var u := v % TWO_32;
    var q1 := u / 256;
    var q2 := q1 / 256;
    assert u == u % 256 + 256 * q1;
    assert q1 == q1 % 256 + 256 * q2;
    assert q2 == q2 % 256 + 256 * (q2 / 256);
    assert UInt32At(Int32Bytes(v), 0) == u;
  }

  /** Replaces |data| bytes of s starting at pos, one byte at a time; nothing else changes. */
  function Overwrite(s: seq<byte>, pos: int, data: seq<byte>): (r: seq<byte>)
    requires 0 <= pos && pos + |data| <= |s|
    ensures |r| == |s|
    decreases |data|
  {
    if |data| == 0 then s else Overwrite(s[pos := data[0]], pos + 1, data[1..])
  }

  /** Byte by byte: inside the window the new data, outside it the old bytes. */
  lemma {:induction false} OverwriteAt(s: seq<byte>, pos: int, data: seq<byte>)
    requires 0 <= pos && pos + |data| <= |s|
    ensures forall i :: 0 <= i < |s| ==> Overwrite(s, pos, data)[i] == if pos <= i < pos + |data| then data[i - pos] else s[i]
    decreases |data|
  {
    if |data| > 0 {
      OverwriteAt(s[pos := data[0]], pos + 1, data[1..]);
    }
  }

  /** The overwritten window reads back as the data. */
  lemma OverwriteWindow(s: seq<byte>, pos: int, data: seq<byte>)
    requires 0 <= pos && pos + |data| <= |s|
    ensures Overwrite(s, pos, data)[pos..pos + |data|] == data
  {
    OverwriteAt(s, pos, data);
  }

  /** A four-byte field is determined by its four bytes only. */
  lemma Int32AtFrame(s: seq<byte>, t: seq<byte>, pos: int)
    requires 0 <= pos && pos + 4 <= |s| && pos + 4 <= |t|
    requires s[pos..pos + 4] == t[pos..pos + 4]
    ensures Int32At(s, pos) == Int32At(t, pos)
  {
    assert s[pos] == s[pos..pos + 4][0] && t[pos] == t[pos..pos + 4][0];
    assert s[pos + 1] == s[pos..pos + 4][1] && t[pos + 1] == t[pos..pos + 4][1];
    assert s[pos + 2] == s[pos..pos + 4][2] && t[pos + 2] == t[pos..pos + 4][2];
    assert s[pos + 3] == s[pos..pos + 4][3] && t[pos + 3] == t[pos..pos + 4][3];
  }

  /** An int written with `putInt` at pos reads back with `getInt` at pos. */
  lemma Int32AtOverwrite(s: seq<byte>, pos: int, v: int)
    requires IsInt32(v) && 0 <= pos && pos + 4 <= |s|
    ensures Int32At(Overwrite(s, pos, Int32Bytes(v)), pos) == v
  {
    var r := Overwrite(s, pos, Int32Bytes(v));
    Int32RoundTrip(v);
    OverwriteWindow(s, pos, Int32Bytes(v));
    Int32AtFrame(r[pos..pos + 4], Int32Bytes(v), 0);
    assert r[pos..pos + 4][0..4] == r[pos..pos + 4];
    assert Int32At(r, pos) == Int32At(r[pos..pos + 4], 0) by {
      assert UInt32At(r, pos) == UInt32At(r[pos..pos + 4], 0);
    }
  }
}
