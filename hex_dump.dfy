/**
 * The static hex `dump` shared by the packet buffer and the receive ring: a
 * window of bytes written as two upper-case hex digits each (`%02X`), joined
 * by ':' with no colon after the last one, appended to a `Formatter`'s text.
 */
module HexDump {
  import opened Bytes
  import opened Wrappers

  function HexDigit(d: int): (c: char)
    requires 0 <= d < 16
  {
    if d < 10 then ('0' as int + d) as char else ('A' as int + d - 10) as char
  }

  /** The value of an upper-case hex digit, if c is one. */
  function HexValue(c: char): (r: Option<int>)
    ensures r.Some? ==> 0 <= r.value < 16
  {
    if '0' <= c <= '9' then Some(c as int - '0' as int)
    else if 'A' <= c <= 'F' then Some(c as int - 'A' as int + 10)
    else None
  }

  lemma HexValueOfDigit(d: int)
    requires 0 <= d < 16
    ensures HexValue(HexDigit(d)) == Some(d)
  {
  }

  /** `%02X` of one byte: the high nibble first. */
  function Hex2(b: byte): (s: string)
    ensures |s| == 2 && s[0] != ':' && s[1] != ':'
  {
    [HexDigit(b as int / 16), HexDigit(b as int % 16)]
  }

  /** The loop's output for the bytes before the last: each byte followed by a colon. */
  function Groups(bs: seq<byte>): (s: string)
    ensures |s| == 3 * |bs|
  {
    if |bs| == 0 then [] else Groups(bs[..|bs| - 1]) + Hex2(bs[|bs| - 1]) + ":"
  }

  /** The text `dump` appends for a window of bytes: nothing for an empty window. */
  function DumpText(bs: seq<byte>): string {
    if |bs| == 0 then [] else Groups(bs[..|bs| - 1]) + Hex2(bs[|bs| - 1])
  }

  /** Three characters per byte, less the colon that the last byte does not get. */
  lemma DumpLength(bs: seq<byte>)
    ensures |DumpText(bs)| == if |bs| == 0 then 0 else 3 * |bs| - 1
  {
  }

  /** Two or more bytes: the dump of all but the last, a colon, then the last. */
  lemma DumpSnoc(bs: seq<byte>)
    requires |bs| >= 2
    ensures DumpText(bs) == DumpText(bs[..|bs| - 1]) + ":" + Hex2(bs[|bs| - 1])
  {
    var init := bs[..|bs| - 1];
    assert init[..|init| - 1] == bs[..|bs| - 2];
  }

  /** The byte two hex digits spell. */
  function ByteOf(hi: char, lo: char): (r: Option<byte>)
  {
    match (HexValue(hi), HexValue(lo)) {
      case (Some(h), Some(l)) => Some((16 * h + l) as byte)
      case _ => None
    }
  }

  /** Two hex digits are the dump of the byte they spell. */
  lemma Hex2OfByteOf(hi: char, lo: char)
    requires ByteOf(hi, lo).Some?
    ensures Hex2(ByteOf(hi, lo).value) == [hi, lo]
  {
    var h, l := HexValue(hi).value, HexValue(lo).value;
    assert HexDigit(h) == hi && HexDigit(l) == lo;
    var b := ByteOf(hi, lo).value;
    assert b as int == 16 * h + l;
    assert b as int / 16 == h && b as int % 16 == l;
  }

  lemma ByteOfHex2(b: byte)
    ensures ByteOf(Hex2(b)[0], Hex2(b)[1]) == Some(b)
  {
    HexValueOfDigit(b as int / 16);
    HexValueOfDigit(b as int % 16);
  }

  /** Reading a dump back: colon-separated two-digit groups, from the last one. */
  function ParseDump(s: string): (r: Option<seq<byte>>)
    ensures r.Some? ==> (|r.value| == 0 <==> |s| == 0)
    decreases |s|
  {
    if |s| == 0 then Some([])
    else if |s| == 2 then
      match ByteOf(s[0], s[1]) {
        case None => None
        case Some(b) => Some([b])
      }
    else if |s| < 5 || s[|s| - 3] != ':' then None
    else
      match (ParseDump(s[..|s| - 3]), ByteOf(s[|s| - 2], s[|s| - 1])) {
        case (Some(p), Some(b)) => Some(p + [b])
        case _ => None
      }
  }

  lemma InitLast(bs: seq<byte>)
    requires |bs| > 0
    ensures bs[..|bs| - 1] + [bs[|bs| - 1]] == bs
  {
  }

  /** Reading a text with one more group after a non-empty head. */
  lemma ParseDumpGroup(head: string, g: string)
    requires |head| >= 2 && |g| == 2
    ensures var s := head + ":" + g;
      ParseDump(s) == if ParseDump(head).Some? && ByteOf(g[0], g[1]).Some?
                      then Some(ParseDump(head).value + [ByteOf(g[0], g[1]).value]) else None
  {
    var s := head + ":" + g;
    assert s[..|s| - 3] == head;
    assert s[|s| - 3] == ':' && s[|s| - 2] == g[0] && s[|s| - 1] == g[1];
  }

  /** Every dump reads back as the bytes it was made from. */
  lemma {:induction false} ParseDumpText(bs: seq<byte>)
    ensures ParseDump(DumpText(bs)) == Some(bs)
    decreases |bs|
  {
    if |bs| == 1 {
      assert DumpText(bs) == Hex2(bs[0]);
      ByteOfHex2(bs[0]);
      assert bs == [bs[0]];
    } else if |bs| >= 2 {
      var init, last := bs[..|bs| - 1], bs[|bs| - 1];
      DumpSnoc(bs);
      DumpLength(init);
      ParseDumpText(init);
      ByteOfHex2(last);
      ParseDumpGroup(DumpText(init), Hex2(last));
      InitLast(bs);
    }
  }

  /** A text ending in a group after a colon is the dump of the head's bytes and the group's byte. */
  lemma DumpAppendGroup(p: seq<byte>, s: string)
    requires |s| >= 5 && s[|s| - 3] == ':' && |p| > 0 && DumpText(p) == s[..|s| - 3]
    requires ByteOf(s[|s| - 2], s[|s| - 1]).Some?
    ensures DumpText(p + [ByteOf(s[|s| - 2], s[|s| - 1]).value]) == s
  {
    var b := ByteOf(s[|s| - 2], s[|s| - 1]).value;
    Hex2OfByteOf(s[|s| - 2], s[|s| - 1]);
    DumpSnoc(p + [b]);
    assert (p + [b])[..|p|] == p;
    var t := DumpText(p + [b]);
    assert t == s[..|s| - 3] + ":" + [s[|s| - 2], s[|s| - 1]];
    assert forall k :: 0 <= k < |s| ==> t[k] == s[k];
  }

  /** A text that reads back as some bytes is exactly their dump: the format has one spelling per window. */
  lemma {:induction false} DumpOfParse(s: string)
    ensures ParseDump(s).Some? ==> DumpText(ParseDump(s).value) == s
    decreases |s|
  {
    if ParseDump(s).Some? {
      if |s| == 2 {
        Hex2OfByteOf(s[0], s[1]);
      } else if |s| > 2 {
        var head := s[..|s| - 3];
        DumpOfParse(head);
        DumpAppendGroup(ParseDump(head).value, s);
      }
    }
  }

  /** One more byte in the window adds its group with a colon. */
  lemma GroupsSlice(b: seq<byte>, from: int, i: int)
    requires 0 <= from <= i < |b|
    ensures Groups(b[from..i + 1]) == Groups(b[from..i]) + Hex2(b[i]) + ":"
  {
    var w := b[from..i + 1];
    assert w[..|w| - 1] == b[from..i];
  }

  /** A non-empty window ends with its last byte's group, without a colon. */
  lemma DumpTextSlice(b: seq<byte>, from: int, to: int)
    requires 0 <= from < to <= |b|
    ensures DumpText(b[from..to]) == Groups(b[from..to - 1]) + Hex2(b[to - 1])
  {
    var w := b[from..to];
    assert w[..|w| - 1] == b[from..to - 1];
  }

  /**
   * `dump(formatter, b, from, len)`: the text it appends to the formatter. The
   * loop appends `XX:` for each byte but the last, then `XX` for the last
   * when len > 0.
   */
  method Dump(b: seq<byte>, from: int, len: int) returns (r: string)
    requires len <= 0 || (0 <= from && from + len <= |b|)
    ensures len <= 0 ==> r == []
    ensures len > 0 ==> r == DumpText(b[from..from + len])
  {
    if len <= 0 {
      return [];
    }
    r := [];
    var to := from + len;
    var i := from;
    assert b[from..i] == [];
    while i < to - 1
      invariant from <= i <= to - 1 && r == Groups(b[from..i])
    {
      GroupsSlice(b, from, i);
      r := r + Hex2(b[i]) + ":";
      i := i + 1;
    }
    DumpTextSlice(b, from, to);
    r := r + Hex2(b[to - 1]);
  }
}
