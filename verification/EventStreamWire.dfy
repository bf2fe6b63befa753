/** The bytes of headers and frames, number by number: what each type code and each field of a frame
    means on the wire (src/llm_redact/eventstream.py). */
module EventStreamWire {
  import opened Wrappers
  import opened Bytes
  import opened EventStream

  // ---- big-endian numbers ----

  function Two(a: Byte, b: Byte): nat {
    a * 0x100 + b
  }

  function Four(a: Byte, b: Byte, c: Byte, d: Byte): nat {
    a * 0x100_0000 + b * 0x1_0000 + c * 0x100 + d
  }

  lemma Snoc(s: seq<Byte>, x: Byte)
    ensures BigEndian(s + [x]) == BigEndian(s) * 0x100 + x
  {
    assert (s + [x])[..|s|] == s;
  }

  lemma TwoIs(a: Byte, b: Byte)
    ensures BigEndian([a, b]) == Two(a, b)
  {
    Snoc([], a);
    Snoc([a], b);
    assert [] + [a] == [a] && [a] + [b] == [a, b];
  }

  lemma FourIs(a: Byte, b: Byte, c: Byte, d: Byte)
    ensures BigEndian([a, b, c, d]) == Four(a, b, c, d)
  {
    TwoIs(a, b);
    Snoc([a, b], c);
    Snoc([a, b, c], d);
    assert [a, b] + [c] == [a, b, c] && [a, b, c] + [d] == [a, b, c, d];
  }

  lemma EightIs(s: seq<Byte>)
    requires |s| == 8
    ensures BigEndian(s) == Four(s[0], s[1], s[2], s[3]) * 0x1_0000_0000 + Four(s[4], s[5], s[6], s[7])
  {
    hide BigEndian;
    FourIs(s[0], s[1], s[2], s[3]);
    assert s[..4] == [s[0], s[1], s[2], s[3]];
    Snoc(s[..4], s[4]);
    Snoc(s[..5], s[5]);
    Snoc(s[..6], s[6]);
    Snoc(s[..7], s[7]);
    assert s[..5] == s[..4] + [s[4]] && s[..6] == s[..5] + [s[5]] && s[..7] == s[..6] + [s[6]] && s == s[..7] + [s[7]];
  }

  lemma Powers()
    ensures Pow256(1) == 0x100 && Pow256(2) == 0x1_0000 && Pow256(4) == 0x1_0000_0000
    ensures Pow256(8) == 0x1_0000_0000_0000_0000
  {
    assert Pow256(3) == 0x100_0000;
    assert Pow256(6) == 0x1_0000_0000_0000;
  }

  /** n as two's complement of a width whose numbers end below full. */
  function TwosComplement(n: int, full: int): int {
    if 2 * n < full then n else n - full
  }

  lemma SignedIs(s: seq<Byte>)
    ensures |s| == 1 ==> Signed(s) == TwosComplement(s[0], 0x100)
    ensures |s| == 2 ==> Signed(s) == TwosComplement(Two(s[0], s[1]), 0x1_0000)
    ensures |s| == 4 ==> Signed(s) == TwosComplement(Four(s[0], s[1], s[2], s[3]), 0x1_0000_0000)
    ensures |s| == 8 ==>
      Signed(s) == TwosComplement(Four(s[0], s[1], s[2], s[3]) * 0x1_0000_0000 + Four(s[4], s[5], s[6], s[7]),
                                  0x1_0000_0000_0000_0000)
  {
    hide BigEndian, Pow256;
    Powers();
    if |s| == 1 {
      Snoc([], s[0]);
      assert s == [] + [s[0]];
      Nothing();
    } else if |s| == 2 {
      TwoIs(s[0], s[1]);
      assert s == [s[0], s[1]];
    } else if |s| == 4 {
      FourIs(s[0], s[1], s[2], s[3]);
      assert s == [s[0], s[1], s[2], s[3]];
    } else if |s| == 8 {
      EightIs(s);
    }
  }

  lemma Nothing()
    ensures BigEndian([]) == 0
  {
  }

  // ---- header values ----

  /** What a reader of the wire makes of a type code and the bytes after it. */
  lemma ValuesOnTheWire(p: Platform, code: int, data: seq<Byte>)
    ensures code == 0 ==> ParseValue(p, code, data) == Some((Bool(true), 0))
    ensures code == 1 ==> ParseValue(p, code, data) == Some((Bool(false), 0))
    ensures code == 2 && |data| >= 1 ==>
      ParseValue(p, code, data) == Some((Int(TwosComplement(data[0], 0x100)), 1))
    ensures code == 3 && |data| >= 2 ==>
      ParseValue(p, code, data) == Some((Int(TwosComplement(Two(data[0], data[1]), 0x1_0000)), 2))
    ensures code == 4 && |data| >= 4 ==>
      ParseValue(p, code, data)
      == Some((Int(TwosComplement(Four(data[0], data[1], data[2], data[3]), 0x1_0000_0000)), 4))
    ensures (code == 5 || code == 8) && |data| >= 8 ==>
      ParseValue(p, code, data)
      == Some((Int(TwosComplement(Four(data[0], data[1], data[2], data[3]) * 0x1_0000_0000
                                  + Four(data[4], data[5], data[6], data[7]), 0x1_0000_0000_0000_0000)), 8))
    ensures code == 9 && |data| >= 16 ==> ParseValue(p, code, data) == Some((Uuid(data[..16]), 16))
    ensures code < 0 || code > 9 ==> ParseValue(p, code, data).None?
    ensures (code == 2 && |data| < 1) || (code == 3 && |data| < 2) || (code == 4 && |data| < 4) ==>
      ParseValue(p, code, data).None?
    ensures ((code == 5 || code == 8) && |data| < 8) || (code == 9 && |data| < 16) ==>
      ParseValue(p, code, data).None?
  {
    hide Signed, BigEndian;
    if |data| >= 1 { SignedIs(data[..1]); }
    if |data| >= 2 { SignedIs(data[..2]); }
    if |data| >= 4 { SignedIs(data[..4]); }
    if |data| >= 8 { SignedIs(data[..8]); }
  }

  /** A byte array under code 6 and a string under code 7: two bytes of length, and as many more. */
  lemma LongValuesOnTheWire(p: Platform, a: Byte, b: Byte, bytes: seq<Byte>, rest: seq<Byte>)
    requires |bytes| == Two(a, b)
    ensures ParseValue(p, 6, [a, b] + bytes + rest) == Some((Raw(bytes), 2 + |bytes|))
    ensures ParseValue(p, 7, [a, b] + bytes + rest)
      == if p.decode(bytes).Some? then Some((Text(p.decode(bytes).value), 2 + |bytes|)) else None
  {
    hide BigEndian;
    var data := [a, b] + bytes + rest;
    TwoIs(a, b);
    assert data[..2] == [a, b] && data[2..2 + |bytes|] == bytes;
  }

  /** One whose bytes are not all there is refused. */
  lemma LongValuesCut(p: Platform, data: seq<Byte>)
    requires |data| < 2 || |data| < 2 + Two(data[0], data[1])
    ensures ParseValue(p, 6, data).None? && ParseValue(p, 7, data).None?
  {
    hide BigEndian;
    if |data| >= 2 {
      TwoIs(data[0], data[1]);
      assert data[..2] == [data[0], data[1]];
    }
  }

  /** What is printed for values of another type than the code's own: a flag as the number 1 or 0,
      text under code 6 as its bytes and bytes under code 7 as they are, and nothing at all for any
      value under the codes 0 and 1. Everything else raises. */
  lemma OtherValuesPrinted(p: Platform, code: int, value: Value)
    ensures code == 0 || code == 1 ==> ValueBytes(p, code, value) == Some([])
    ensures 2 <= code <= 5 || code == 8 ==>
      && (value.Bool? ==> ValueBytes(p, code, value) == ValueBytes(p, code, Int(if value.b then 1 else 0)))
      && (!value.Bool? && !value.Int? ==> ValueBytes(p, code, value).None?)
    ensures code == 6 || code == 7 ==>
      && (value.Raw? ==>
            ValueBytes(p, code, value)
            == if |value.bytes| < 0x1_0000 then Some([|value.bytes| / 0x100, |value.bytes| % 0x100] + value.bytes)
               else None)
      && (value.Text? ==>
            ValueBytes(p, code, value)
            == if p.encode(value.s).Some? then ValueBytes(p, code, Raw(p.encode(value.s).value)) else None)
      && (!value.Raw? && !value.Text? ==> ValueBytes(p, code, value).None?)
    ensures code == 9 ==> ValueBytes(p, code, value) == if value.Uuid? then Some(value.id) else None
    ensures code < 0 || code > 9 ==> ValueBytes(p, code, value).None?
  {
    hide PackSigned, ToBigEndian;
    if value.Raw? && |value.bytes| < 0x1_0000 {
      TwoPrinted(|value.bytes|);
    }
  }

  lemma TwoPrinted(n: nat)
    requires n < 0x1_0000
    ensures ToBigEndian(n, 2) == [n / 0x100, n % 0x100]
  {
    assert ToBigEndian(n / 256, 1) == ToBigEndian(n / 256 / 256, 0) + [n / 256 % 256];
  }

  /** Every integer code prints exactly the numbers of its width. */
  lemma IntegersPrinted(p: Platform, n: int)
    ensures ValueBytes(p, 2, Int(n)).Some? <==> -0x80 <= n < 0x80
    ensures ValueBytes(p, 3, Int(n)).Some? <==> -0x8000 <= n < 0x8000
    ensures ValueBytes(p, 4, Int(n)).Some? <==> -0x8000_0000 <= n < 0x8000_0000
    ensures ValueBytes(p, 5, Int(n)).Some? <==> -0x8000_0000_0000_0000 <= n < 0x8000_0000_0000_0000
    ensures ValueBytes(p, 8, Int(n)) == ValueBytes(p, 5, Int(n))
  {
    hide Pow256, ToBigEndian;
    Powers();
  }

  // ---- headers ----

  /** A header: the length of its name in one byte, the name, the type code and the value. */
  lemma HeaderOnTheWire(p: Platform, name: seq<Byte>, code: Byte, rest: seq<Byte>)
    requires |name| <= 255
    ensures ParseHeader(p, [|name|] + name + [code] + rest)
      == if p.decode(name).None? || ParseValue(p, code, rest).None? then None
         else var (value, n) := ParseValue(p, code, rest).value;
           Some((Header(p.decode(name).value, code, value), 2 + |name| + n))
  {
    hide ParseValue;
    var data, at := [|name|] + name + [code] + rest, 1 + |name|;
    assert data[0] == |name| && data[1..at] == name && data[at] == code && data[at + 1..] == rest;
  }

  /** One whose name or code is not all there is refused. */
  lemma HeaderCut(p: Platform, data: seq<Byte>)
    requires data == [] || |data| < data[0] as int + 2
    ensures ParseHeader(p, data).None?
  {
  }

  /** The header of a one-letter text: the bytes 1, e, 7, 0, 1, x. */
  lemma StringHeaderExample(p: Platform, e: Byte, x: Byte)
    requires p.decode([e]).Some? && p.decode([x]).Some?
    ensures HeadersOf(p, [1, e, 7, 0, 1, x]) == Some([Header(p.decode([e]).value, 7, Text(p.decode([x]).value))])
  {
    hide *;
    var data := [1, e, 7, 0, 1, x];
    OneIs();
    LongValuesOnTheWire(p, 0, 1, [x], []);
    assert [0, 1] + [x] + [] == [0, 1, x];
    HeaderOnTheWire(p, [e], 7, [0, 1, x]);
    assert data == [1] + [e] + [7] + [0, 1, x];
    assert data[6..] == [];
    HeadersOfCons(p, data, []);
    HeadersOfNothing(p);
    AfterOne(Header(p.decode([e]).value, 7, Text(p.decode([x]).value)));
  }

  lemma AfterOne(h: Header)
    ensures Prepend([h], Some([])) == Some([h])
  {
    assert [h] + [] == [h];
  }

  lemma OneIs()
    ensures Two(0, 1) == 1
  {
  }

  // ---- frames ----

  /** A frame: its whole length and that of its headers in four bytes each, a checksum of these
      eight bytes, the headers, the payload, and a checksum of everything before it. The bound and
      the first checksum are looked at once twelve bytes are there, the rest once all of it is. */
  lemma FrameOnTheWire(p: Platform, maxFrameBytes: int, data: seq<Byte>)
    requires |data| >= 12
    ensures var total := Four(data[0], data[1], data[2], data[3]);
      var length := Four(data[4], data[5], data[6], data[7]);
      NextFrame(p, maxFrameBytes, data)
      == if total < 16 || total > maxFrameBytes || length > total - 16 then Corrupt
         else if p.crc32(data[..8]) != Four(data[8], data[9], data[10], data[11]) then Corrupt
         else if |data| < total then NeedMore
         else if p.crc32(data[..total - 4])
           != Four(data[total - 4], data[total - 3], data[total - 2], data[total - 1]) then Corrupt
         else if HeadersOf(p, data[12..12 + length]).None? then Corrupt
         else Complete(Message(HeadersOf(p, data[12..12 + length]).value, data[12 + length..total - 4]), total)
  {
    hide BigEndian, HeadersOf, Four;
    FourAt(data, 0);
    FourAt(data, 4);
    FourAt(data, 8);
    var total := Four(data[0], data[1], data[2], data[3]);
    if 16 <= total <= |data| {
      FourAt(data, total - 4);
    }
  }

  lemma FourAt(data: seq<Byte>, i: nat)
    requires i + 4 <= |data|
    ensures BigEndian(data[i..i + 4]) == Four(data[i], data[i + 1], data[i + 2], data[i + 3])
  {
    FourIs(data[i], data[i + 1], data[i + 2], data[i + 3]);
    assert data[i..i + 4] == [data[i], data[i + 1], data[i + 2], data[i + 3]];
  }
}
