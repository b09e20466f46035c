/** UTF-8 encoding of Unicode scalar values (RFC 3629 section 3), and the decoder that inverts it. */
module Utf8 {
  import opened Wrappers

  type Byte = x: int | 0 <= x < 256

  function EncodeChar(c: char): (bs: seq<Byte>)
    ensures 1 <= |bs| <= 4
  {
    var n := c as int;
    if n < 0x80 then [n]
    else if n < 0x800 then [0xC0 + n / 0x40, 0x80 + n % 0x40]
    else if n < 0x1_0000 then [0xE0 + n / 0x1000, 0x80 + n / 0x40 % 0x40, 0x80 + n % 0x40]
    else [0xF0 + n / 0x4_0000, 0x80 + n / 0x1000 % 0x40, 0x80 + n / 0x40 % 0x40, 0x80 + n % 0x40]
  }

  /** The shortest form: one byte for ASCII, itself; otherwise a lead byte that tells the length, and continuation bytes. */
  lemma EncodeShortest(c: char)
    ensures var n, bs := c as int, EncodeChar(c);
      && |bs| == (if n < 128 then 1 else if n < 2048 then 2 else if n < 65536 then 3 else 4)
      && (|bs| == 1 ==> bs[0] == n)
      && (|bs| == 2 ==> 192 <= bs[0] < 224) && (|bs| == 3 ==> 224 <= bs[0] < 240) && (|bs| == 4 ==> 240 <= bs[0] < 248)
      && forall i :: 1 <= i < |bs| ==> 128 <= bs[i] < 192
  {
  }

  function Encode(s: string): (bs: seq<Byte>) {
    if s == [] then [] else EncodeChar(s[0]) + Encode(s[1..])
  }

  function ToChar(n: int): Option<char> {
    if 0 <= n < 0xD800 || 0xE000 <= n < 0x11_0000 then Some(n as char) else None
  }

  /** How many bytes the sequence led by `b` takes; 0 when no sequence starts with it. */
  function SequenceLength(b: Byte): nat {
    if b < 0x80 then 1 else if b < 0xC0 then 0 else if b < 0xE0 then 2
    else if b < 0xF0 then 3 else if b < 0xF8 then 4 else 0
  }

  function CodePoint(bs: seq<Byte>): int
    requires 1 <= |bs| <= 4
  {
    var lead: int, last: int := bs[0], bs[|bs| - 1];
    match |bs|
    case 1 => lead
    case 2 => (lead - 0xC0) * 0x40 + (last - 0x80)
    case 3 =>
      var mid: int := bs[1];
      (lead - 0xE0) * 0x1000 + (mid - 0x80) * 0x40 + (last - 0x80)
    case _ =>
      var high: int, low: int := bs[1], bs[2];
      (lead - 0xF0) * 0x4_0000 + (high - 0x80) * 0x1000 + (low - 0x80) * 0x40 + (last - 0x80)
  }

  function Decode(bs: seq<Byte>): Option<string> {
    if bs == [] then Some([])
    else
      var k := SequenceLength(bs[0]);
      if k == 0 || |bs| < k then None
      else
        match ToChar(CodePoint(bs[..k]))
        case None => None
        case Some(c) =>
          match Decode(bs[k..])
          case None => None
          case Some(rest) => Some([c] + rest)
  }

  lemma SixBitGroups(n: nat)
    ensures n == n / 0x40 * 0x40 + n % 0x40
    ensures n / 0x40 == n / 0x1000 * 0x40 + n / 0x40 % 0x40
    ensures n / 0x1000 == n / 0x4_0000 * 0x40 + n / 0x1000 % 0x40
  {
    assert n / 0x1000 == n / 0x40 / 0x40;
    assert n / 0x4_0000 == n / 0x1000 / 0x40;
  }

  lemma CharRoundTrip(c: char)
    ensures SequenceLength(EncodeChar(c)[0]) == |EncodeChar(c)|
    ensures ToChar(CodePoint(EncodeChar(c))) == Some(c)
  {
    var n := c as int;
    var bs := EncodeChar(c);
    SixBitGroups(n);
    if n < 0x80 {
      assert CodePoint(bs) == n;
    } else if n < 0x800 {
      assert CodePoint(bs) == n;
    } else if n < 0x1_0000 {
      assert CodePoint(bs) == n;
    } else {
      assert CodePoint(bs) == n;
    }
  }

  lemma {:induction false} RoundTrip(s: string)
    ensures Decode(Encode(s)) == Some(s)
  {
    if s != [] {
      var bs := EncodeChar(s[0]);
      CharRoundTrip(s[0]);
      RoundTrip(s[1..]);
      assert Encode(s) == bs + Encode(s[1..]) && Encode(s)[0] == bs[0];
      assert Encode(s)[..|bs|] == bs;
      assert Encode(s)[|bs|..] == Encode(s[1..]);
      assert s == [s[0]] + s[1..];
    }
  }
}
