/** Bytes and the big-endian integers of `struct.pack(">...")`. */
module Bytes {
  import opened Wrappers

  type Byte = x: int | 0 <= x < 256

  type Word32 = x: int | 0 <= x < 0x1_0000_0000

  function Pow256(n: nat): (r: nat)
    ensures r > 0
  {
    if n == 0 then 1 else 256 * Pow256(n - 1)
  }

  function BigEndian(s: seq<Byte>): nat {
    if s == [] then 0 else BigEndian(s[..|s| - 1]) * 256 + s[|s| - 1]
  }

  function ToBigEndian(n: nat, width: nat): (s: seq<Byte>)
    ensures |s| == width
  {
    if width == 0 then [] else ToBigEndian(n / 256, width - 1) + [n % 256]
  }

  lemma {:induction false} BigEndianBound(s: seq<Byte>)
    ensures BigEndian(s) < Pow256(|s|)
  {
    if s != [] {
      BigEndianBound(s[..|s| - 1]);
    }
  }

  lemma {:induction false} DecodeEncode(n: nat, width: nat)
    requires n < Pow256(width)
    ensures BigEndian(ToBigEndian(n, width)) == n
  {
    if width > 0 {
      DecodeEncode(n / 256, width - 1);
      var s := ToBigEndian(n, width);
      assert s[..width - 1] == ToBigEndian(n / 256, width - 1);
    }
  }

  lemma {:induction false} EncodeDecode(s: seq<Byte>)
    ensures ToBigEndian(BigEndian(s), |s|) == s
  {
    if s != [] {
      EncodeDecode(s[..|s| - 1]);
    }
  }

  /** Two's complement: the value `struct.unpack` gives a signed field of this many bytes. */
  function Signed(s: seq<Byte>): int {
    if 2 * BigEndian(s) < Pow256(|s|) then BigEndian(s) else BigEndian(s) - Pow256(|s|)
  }

  /** `struct.pack` of a signed field; out of range raises. */
  function PackSigned(v: int, width: nat): Option<seq<Byte>> {
    var full: int := Pow256(width);
    if -full <= 2 * v < full then Some(ToBigEndian(if v < 0 then v + full else v, width)) else None
  }

  lemma UnpackPack(v: int, width: nat)
    requires PackSigned(v, width).Some?
    ensures |PackSigned(v, width).value| == width && Signed(PackSigned(v, width).value) == v
  {
    DecodeEncode(if v < 0 then v + Pow256(width) else v, width);
  }

  lemma PackUnpack(s: seq<Byte>)
    ensures PackSigned(Signed(s), |s|) == Some(s)
  {
    BigEndianBound(s);
    EncodeDecode(s);
  }
}
