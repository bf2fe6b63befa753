/** The Amazon event-stream codec of src/llm_redact/eventstream.py: message
    headers, frames, and the incremental parser over a byte buffer. */
module EventStream {
  import opened Wrappers
  import opened Bytes

  // ---- what the module takes from its platform ----

  /** `zlib.crc32` and strict UTF-8, as any functions obeying the laws of `Lawful`. */
  datatype PlatformBase = Platform(
    crc32: seq<Byte> -> Word32,
    encode: string -> Option<seq<Byte>>,
    decode: seq<Byte> -> Option<string>)
  {
    /** Encoding and decoding undo each other wherever they succeed; nothing is asked of the CRC. */
    ghost predicate Lawful() {
      forall s, b {:trigger encode(s), decode(b)} :: encode(s) == Some(b) <==> decode(b) == Some(s)
    }
  }

  type Platform = p: PlatformBase | p.Lawful()
    ghost witness PlatformBase.Platform(_ => 0, s => if s == "" then Some([]) else None,
                                        b => if b == [] then Some("") else None)

  // ---- messages ----

  type UuidBytes = s: seq<Byte> | |s| == 16 witness seq(16, i => 0)

  /** A header's value: any Python object that is none of the first five is `Other`. */
  datatype Value =
    | Bool(b: bool)
    | Int(n: int)
    | Raw(bytes: seq<Byte>)
    | Text(s: string)
    | Uuid(id: UuidBytes)
    | Other

  datatype Header = Header(name: string, code: int, value: Value)

  datatype Message = Message(headers: seq<Header>, payload: seq<Byte>)

  const BOOL_TRUE := 0
  const BOOL_FALSE := 1
  const BYTE := 2
  const SHORT := 3
  const INT := 4
  const LONG := 5
  const BYTE_ARRAY := 6
  const STRING := 7
  const TIMESTAMP := 8
  const UUID := 9

  /** The width in bytes of an integer type code, 0 for every other code. */
  function IntWidth(code: int): nat {
    if code == BYTE then 1
    else if code == SHORT then 2
    else if code == INT then 4
    else if code == LONG || code == TIMESTAMP then 8
    else 0
  }

  /** The value has the Python type the parser gives this type code. */
  predicate Canonical(h: Header) {
    match h.value
    case Bool(b) => h.code == if b then BOOL_TRUE else BOOL_FALSE
    case Int(_) => IntWidth(h.code) > 0
    case Raw(_) => h.code == BYTE_ARRAY
    case Text(_) => h.code == STRING
    case Uuid(_) => h.code == UUID
    case Other => false
  }

  predicate CanonicalMessage(m: Message) {
    forall h :: h in m.headers ==> Canonical(h)
  }

  // ---- one header ----

  /** The bytes a value takes after its type code; None where the original raises. */
  function ValueBytes(p: Platform, code: int, value: Value): Option<seq<Byte>> {
    if code == BOOL_TRUE || code == BOOL_FALSE then Some([])
    else if IntWidth(code) > 0 then
      (match value
       case Int(n) => PackSigned(n, IntWidth(code))
       case Bool(b) => PackSigned(if b then 1 else 0, IntWidth(code))
       case _ => None)
    else if code == BYTE_ARRAY || code == STRING then
      var raw := match value
        case Text(s) => p.encode(s)
        case Raw(bytes) => Some(bytes)
        case _ => None;
      if raw.Some? && |raw.value| < 0x1_0000 then Some(ToBigEndian(|raw.value|, 2) + raw.value) else None
    else if code == UUID && value.Uuid? then Some(value.id)
    else None
  }

  function HeaderBytes(p: Platform, h: Header): Option<seq<Byte>> {
    var name := p.encode(h.name);
    var value := ValueBytes(p, h.code, h.value);
    if name.Some? && |name.value| <= 255 && value.Some? && 0 <= h.code < 256
    then Some([|name.value|] + name.value + [h.code] + value.value)
    else None
  }

  function HeadersBytes(p: Platform, hs: seq<Header>): Option<seq<Byte>> {
    if hs == [] then Some([])
    else
      var first := HeaderBytes(p, hs[0]);
      var rest := HeadersBytes(p, hs[1..]);
      if first.Some? && rest.Some? then Some(first.value + rest.value) else None
  }

  /** A value at the head of `data` and the bytes it takes. */
  function ParseValue(p: Platform, code: int, data: seq<Byte>): (r: Option<(Value, nat)>)
    ensures r.Some? ==> r.value.1 <= |data|
  {
    if code == BOOL_TRUE then Some((Bool(true), 0))
    else if code == BOOL_FALSE then Some((Bool(false), 0))
    else if IntWidth(code) > 0 then
      if |data| < IntWidth(code) then None
      else Some((Int(Signed(data[..IntWidth(code)])), IntWidth(code)))
    else if code == BYTE_ARRAY || code == STRING then
      if |data| < 2 || |data| < 2 + BigEndian(data[..2]) then None
      else
        var end := 2 + BigEndian(data[..2]);
        if code == BYTE_ARRAY then Some((Raw(data[2..end]), end))
        else
          var text := p.decode(data[2..end]);
          if text.Some? then Some((Text(text.value), end)) else None
    else if code == UUID then
      if |data| < 16 then None else Some((Uuid(data[..16]), 16))
    else None
  }

  /** A header at the head of `data` and the bytes it takes. */
  function ParseHeader(p: Platform, data: seq<Byte>): (r: Option<(Header, nat)>)
    ensures r.Some? ==> 2 <= r.value.1 <= |data|
  {
    if data == [] || |data| < data[0] as int + 2 then None
    else
      var at := 1 + data[0] as int;
      var name := p.decode(data[1..at]);
      var value := ParseValue(p, data[at], data[at + 1..]);
      if name.Some? && value.Some?
      then Some((Header(name.value, data[at], value.value.0), at + 1 + value.value.1))
      else None
  }

  function HeadersOf(p: Platform, data: seq<Byte>): Option<seq<Header>>
    decreases |data|
  {
    if data == [] then Some([])
    else
      var first := ParseHeader(p, data);
      if first.None? then None
      else
        var rest := HeadersOf(p, data[first.value.1..]);
        if rest.Some? then Some([first.value.0] + rest.value) else None
  }

  lemma TwoBytes(n: nat)
    requires n < 0x1_0000
    ensures BigEndian(ToBigEndian(n, 2)) == n
  {
    assert Pow256(2) == 0x1_0000;
    DecodeEncode(n, 2);
  }

  lemma TwoBytesBack(s: seq<Byte>)
    requires |s| == 2
    ensures BigEndian(s) < 0x1_0000 && ToBigEndian(BigEndian(s), 2) == s
  {
    assert Pow256(2) == 0x1_0000;
    BigEndianBound(s);
    EncodeDecode(s);
  }

  lemma ParseValueOfBytes(p: Platform, code: int, value: Value, rest: seq<Byte>)
    requires ValueBytes(p, code, value).Some? && Canonical(Header("", code, value))
    ensures ParseValue(p, code, ValueBytes(p, code, value).value + rest)
         == Some((value, |ValueBytes(p, code, value).value|))
  {
    hide BigEndian, ToBigEndian, Signed, PackSigned;
    var bytes := ValueBytes(p, code, value).value;
    var data := bytes + rest;
    if IntWidth(code) > 0 {
      UnpackPack(value.n, IntWidth(code));
      assert data[..IntWidth(code)] == bytes;
    } else if code == BYTE_ARRAY || code == STRING {
      var raw := if value.Text? then p.encode(value.s).value else value.bytes;
      TwoBytes(|raw|);
      assert data[..2] == ToBigEndian(|raw|, 2);
      assert data[2..2 + |raw|] == raw;
    } else if code == UUID {
      assert data[..16] == bytes;
    }
  }

  lemma BytesOfParsedValue(p: Platform, code: int, data: seq<Byte>)
    requires ParseValue(p, code, data).Some?
    ensures var (value, n) := ParseValue(p, code, data).value;
      ValueBytes(p, code, value) == Some(data[..n]) && Canonical(Header("", code, value))
  {
    hide BigEndian, ToBigEndian, Signed, PackSigned;
    var (value, n) := ParseValue(p, code, data).value;
    if IntWidth(code) > 0 {
      PackUnpack(data[..n]);
    } else if code == BYTE_ARRAY || code == STRING {
      TwoBytesBack(data[..2]);
      assert data[..n] == data[..2] + data[2..n];
    }
  }

  /** The parts a header is printed in. */
  lemma PartsOfPrinted(p: Platform, h: Header)
    requires HeaderBytes(p, h).Some?
    ensures var name, value := p.encode(h.name), ValueBytes(p, h.code, h.value);
      && name.Some? && |name.value| <= 255 && value.Some? && 0 <= h.code < 256
      && HeaderBytes(p, h) == Some([|name.value|] + name.value + [h.code] + value.value)
  {
    hide ValueBytes;
  }

  /** A header is parsed from its parts. */
  lemma ParseOfParts(p: Platform, h: Header, data: seq<Byte>, at: nat, n: nat)
    requires data != [] && at == 1 + data[0] as int && at < |data| && data[at] == h.code
    requires p.decode(data[1..at]) == Some(h.name) && ParseValue(p, h.code, data[at + 1..]) == Some((h.value, n))
    ensures ParseHeader(p, data) == Some((h, at + 1 + n))
  {
    hide ParseValue;
  }

  lemma HeaderLayout(length: Byte, name: seq<Byte>, code: Byte, value: seq<Byte>, rest: seq<Byte>)
    ensures var data, at := [length] + name + [code] + value + rest, 1 + |name|;
      data[0] == length && data[1..at] == name && data[at] == code && data[at + 1..] == value + rest
  {
  }

  lemma Decodes(p: Platform, s: string, b: seq<Byte>)
    requires p.encode(s) == Some(b)
    ensures p.decode(b) == Some(s)
  {
  }

  /** Printing then parsing gives the header back, whatever bytes follow. */
  lemma ParseHeaderOfBytes(p: Platform, h: Header, rest: seq<Byte>)
    requires HeaderBytes(p, h).Some? && Canonical(h)
    ensures ParseHeader(p, HeaderBytes(p, h).value + rest) == Some((h, |HeaderBytes(p, h).value|))
  {
    hide *;
    PartsOfPrinted(p, h);
    var name, value := p.encode(h.name).value, ValueBytes(p, h.code, h.value).value;
    HeaderLayout(|name|, name, h.code, value, rest);
    Decodes(p, h.name, name);
    SameCanonical(h, Header("", h.code, h.value));
    ParseValueOfBytes(p, h.code, h.value, rest);
    ParseOfParts(p, h, HeaderBytes(p, h).value + rest, 1 + |name|, |value|);
  }

  /** Whether a header is canonical does not depend on its name. */
  lemma SameCanonical(a: Header, b: Header)
    requires a.code == b.code && a.value == b.value
    ensures Canonical(a) == Canonical(b)
  {
  }

  lemma HeaderOfParts(p: Platform, h: Header, name: seq<Byte>, value: seq<Byte>)
    requires p.encode(h.name) == Some(name) && |name| <= 255 && 0 <= h.code < 256
    requires ValueBytes(p, h.code, h.value) == Some(value)
    ensures HeaderBytes(p, h) == Some([|name|] + name + [h.code] + value)
  {
    hide ValueBytes;
  }

  /** The parts a parsed header was read from. */
  lemma PartsOfParsed(p: Platform, data: seq<Byte>)
    requires ParseHeader(p, data).Some?
    ensures var (h, n) := ParseHeader(p, data).value;
      var at := 1 + data[0] as int;
      && at < n <= |data| && p.encode(h.name) == Some(data[1..at]) && h.code == data[at]
      && ParseValue(p, h.code, data[at + 1..]) == Some((h.value, n - at - 1))
  {
    hide ParseValue;
  }

  /** A parsed header is canonical and prints to exactly the bytes it was parsed from. */
  lemma BytesOfParsedHeader(p: Platform, data: seq<Byte>)
    requires ParseHeader(p, data).Some?
    ensures var (h, n) := ParseHeader(p, data).value;
      HeaderBytes(p, h) == Some(data[..n]) && Canonical(h)
  {
    hide *;
    var (h, n) := ParseHeader(p, data).value;
    PartsOfParsed(p, data);
    var at := 1 + data[0] as int;
    var name, value := data[1..at], data[at + 1..n];
    BytesOfParsedValue(p, h.code, data[at + 1..]);
    assert data[at + 1..][..n - at - 1] == value;
    SameCanonical(h, Header("", h.code, h.value));
    HeaderOfParts(p, h, name, value);
    assert data[..n] == [|name|] + name + [data[at]] + value;
  }

  ghost function Prepend(hs: seq<Header>, rest: Option<seq<Header>>): Option<seq<Header>> {
    if rest.Some? then Some(hs + rest.value) else None
  }

  lemma HeadersOfNothing(p: Platform)
    ensures HeadersOf(p, []) == Some([])
  {
  }

  lemma HeadersOfCons(p: Platform, data: seq<Byte>, before: seq<Header>)
    requires data != []
    ensures ParseHeader(p, data).None? ==> HeadersOf(p, data).None?
    ensures ParseHeader(p, data).Some? ==>
      var (h, n) := ParseHeader(p, data).value;
      && HeadersOf(p, data) == Prepend([h], HeadersOf(p, data[n..]))
      && Prepend(before, HeadersOf(p, data)) == Prepend(before + [h], HeadersOf(p, data[n..]))
  {
    hide ParseHeader;
    if ParseHeader(p, data).Some? {
      var (h, n) := ParseHeader(p, data).value;
      var rest := HeadersOf(p, data[n..]);
      if rest.Some? {
        assert before + ([h] + rest.value) == before + [h] + rest.value;
      }
    }
  }

  ghost function PrependBytes(bytes: seq<Byte>, rest: Option<seq<Byte>>): Option<seq<Byte>> {
    if rest.Some? then Some(bytes + rest.value) else None
  }

  lemma HeadersBytesCons(p: Platform, hs: seq<Header>, before: seq<Byte>)
    requires hs != []
    ensures HeaderBytes(p, hs[0]).None? ==> HeadersBytes(p, hs).None?
    ensures HeaderBytes(p, hs[0]).Some? ==>
      PrependBytes(before, HeadersBytes(p, hs))
        == PrependBytes(before + HeaderBytes(p, hs[0]).value, HeadersBytes(p, hs[1..]))
  {
    hide HeaderBytes;
    var rest := HeadersBytes(p, hs[1..]);
    if HeaderBytes(p, hs[0]).Some? && rest.Some? {
      assert before + (HeaderBytes(p, hs[0]).value + rest.value) == before + HeaderBytes(p, hs[0]).value + rest.value;
    }
  }

  lemma HeadersBytesOfNothing(p: Platform)
    ensures HeadersBytes(p, []) == Some([])
  {
  }

  lemma {:induction false} HeadersOfBytes(p: Platform, hs: seq<Header>)
    requires HeadersBytes(p, hs).Some?
    requires forall h :: h in hs ==> Canonical(h)
    ensures HeadersOf(p, HeadersBytes(p, hs).value) == Some(hs)
  {
    hide HeaderBytes, ParseHeader, Canonical, HeadersOf, HeadersBytes;
    if hs == [] {
      HeadersOfNothing(p);
      HeadersBytesOfNothing(p);
    } else {
      HeadersBytesCons(p, hs, []);
      var first, rest := HeaderBytes(p, hs[0]).value, HeadersBytes(p, hs[1..]).value;
      assert first + rest == HeadersBytes(p, hs).value by {
        assert forall s: seq<Byte> :: [] + s == s;
      }
      HeadersOfBytes(p, hs[1..]);
      ParseHeaderOfBytes(p, hs[0], rest);
      HeadersOfCons(p, first + rest, []);
      assert (first + rest)[|first|..] == rest;
      assert hs == [hs[0]] + hs[1..];
    }
  }

  lemma {:induction false} BytesOfHeaders(p: Platform, data: seq<Byte>)
    requires HeadersOf(p, data).Some?
    ensures var hs := HeadersOf(p, data).value;
      HeadersBytes(p, hs) == Some(data) && forall h :: h in hs ==> Canonical(h)
    decreases |data|
  {
    hide HeaderBytes, ParseHeader, Canonical, HeadersOf, HeadersBytes;
    if data == [] {
      HeadersOfNothing(p);
      HeadersBytesOfNothing(p);
    } else {
      HeadersOfCons(p, data, []);
      BytesOfParsedHeader(p, data);
      var (h, n) := ParseHeader(p, data).value;
      BytesOfHeaders(p, data[n..]);
      var hs := HeadersOf(p, data).value;
      assert hs[0] == h && hs[1..] == HeadersOf(p, data[n..]).value;
      HeadersBytesCons(p, hs, []);
      assert hs == [h] + hs[1..] && data == data[..n] + data[n..];
      assert HeadersBytes(p, hs) == Some(data[..n] + data[n..]) by {
        assert forall s: seq<Byte> :: [] + s == s;
      }
    }
  }

  // ---- the header loops ----

  /** The value part of `_parse_headers`' loop, from `at` on. */
  method ParseValueAt(p: Platform, code: int, data: seq<Byte>, at: nat) returns (r: Option<(Value, nat)>)
    requires at <= |data|
    ensures r == ParseValue(p, code, data[at..])
  {
    ghost var tail := data[at..];
    var pos, end := at, |data|;
    var value: Value;
    if code == BOOL_TRUE {
      value := Bool(true);
    } else if code == BOOL_FALSE {
      value := Bool(false);
    } else if IntWidth(code) > 0 {
      if pos + IntWidth(code) > end {
        return None;
      }
      assert tail[..IntWidth(code)] == data[pos..pos + IntWidth(code)];
      value := Int(Signed(data[pos..pos + IntWidth(code)]));
      pos := pos + IntWidth(code);
    } else if code == BYTE_ARRAY || code == STRING {
      if pos + 2 > end {
        return None;
      }
      assert tail[..2] == data[pos..pos + 2];
      var length := BigEndian(data[pos..pos + 2]);
      pos := pos + 2;
      if pos + length > end {
        return None;
      }
      assert tail[2..2 + length] == data[pos..pos + length];
      var raw := data[pos..pos + length];
      pos := pos + length;
      if code == STRING {
        var text := p.decode(raw);
        if text.None? {
          return None;
        }
        value := Text(text.value);
      } else {
        value := Raw(raw);
      }
    } else if code == UUID {
      if pos + 16 > end {
        return None;
      }
      assert tail[..16] == data[pos..pos + 16];
      value := Uuid(data[pos..pos + 16]);
      pos := pos + 16;
    } else {
      return None;
    }
    return Some((value, pos - at));
  }

  /** One turn of `_parse_headers`' loop: no slice is taken before its bound is checked. */
  method ParseHeaderAt(p: Platform, data: seq<Byte>, start: nat) returns (r: Option<(Header, nat)>)
    requires start < |data|
    ensures r == ParseHeader(p, data[start..])
  {
    hide ParseValue;
    ghost var here := data[start..];
    var pos, end := start, |data|;
    var nameLength: int := data[pos];
    pos := pos + 1;
    if pos + nameLength + 1 > end {
      return None;
    }
    assert here[1..1 + nameLength] == data[pos..pos + nameLength];
    var name := p.decode(data[pos..pos + nameLength]);
    if name.None? {
      return None;
    }
    pos := pos + nameLength;
    var code := data[pos];
    pos := pos + 1;
    assert here[2 + nameLength..] == data[pos..];
    var value := ParseValueAt(p, code, data, pos);
    if value.None? {
      return None;
    }
    return Some((Header(name.value, code, value.value.0), pos + value.value.1 - start));
  }

  /** `_parse_headers` */
  method ParseHeaders(p: Platform, data: seq<Byte>) returns (r: Option<seq<Header>>)
    ensures r == HeadersOf(p, data)
  {
    hide ParseHeader, HeadersOf;
    var headers: seq<Header> := [];
    var pos := 0;
    HeadersOfNothing(p);
    assert data[0..] == data && Prepend([], HeadersOf(p, data)) == HeadersOf(p, data) by {
      assert forall hs: seq<Header> :: [] + hs == hs;
    }
    while pos < |data|
      invariant 0 <= pos <= |data|
      invariant HeadersOf(p, data) == Prepend(headers, HeadersOf(p, data[pos..]))
    {
      ghost var here := data[pos..];
      var header := ParseHeaderAt(p, data, pos);
      HeadersOfCons(p, here, headers);
      if header.None? {
        return None;
      }
      assert here[header.value.1..] == data[pos + header.value.1..];
      headers := headers + [header.value.0];
      pos := pos + header.value.1;
    }
    assert data[pos..] == [] && headers + [] == headers;
    return Some(headers);
  }

  /** `_serialize_headers` */
  method SerializeHeaders(p: Platform, headers: seq<Header>) returns (r: Option<seq<Byte>>)
    ensures r == HeadersBytes(p, headers)
  {
    hide ValueBytes, HeadersBytes;
    var parts: seq<Byte> := [];
    HeadersBytesOfNothing(p);
    assert headers[0..] == headers && (forall s: seq<Byte> :: [] + s == s);
    for i := 0 to |headers|
      invariant HeadersBytes(p, headers) == PrependBytes(parts, HeadersBytes(p, headers[i..]))
    {
      assert headers[i..][1..] == headers[i + 1..];
      HeadersBytesCons(p, headers[i..], parts);
      var Header(name, code, value) := headers[i];
      var nameBytes := p.encode(name);
      if nameBytes.None? || |nameBytes.value| > 255 || !(0 <= code < 256) {
        return None;
      }
      var valueBytes := ValueBytes(p, code, value);
      if valueBytes.None? {
        return None;
      }
      parts := parts + ([|nameBytes.value|] + nameBytes.value + [code] + valueBytes.value);
    }
    assert headers[|headers|..] == [] && parts + [] == parts;
    return Some(parts);
  }

  // ---- frames ----

  /** `serialize`: both lengths and both CRCs computed afresh. None where the original raises:
      a header it cannot print, or a length over four bytes. */
  function Serialize(p: Platform, m: Message): Option<seq<Byte>> {
    var headers := HeadersBytes(p, m.headers);
    if headers.None? || 16 + |headers.value| + |m.payload| >= 0x1_0000_0000 then None
    else
      var total := 16 + |headers.value| + |m.payload|;
      var prelude := ToBigEndian(total, 4) + ToBigEndian(|headers.value|, 4);
      var body := prelude + ToBigEndian(p.crc32(prelude), 4) + headers.value + m.payload;
      Some(body + ToBigEndian(p.crc32(body), 4))
  }

  datatype Frame = NeedMore | Corrupt | Complete(message: Message, total: nat)

  /** One turn of `feed`'s loop on the unread bytes. */
  function NextFrame(p: Platform, maxFrameBytes: int, data: seq<Byte>): (f: Frame)
    ensures f.Complete? ==> 16 <= f.total <= |data|
  {
    if |data| < 12 then NeedMore
    else
      var total, headersLength := BigEndian(data[..4]), BigEndian(data[4..8]);
      if total < 16 || total > maxFrameBytes || headersLength > total - 16 then Corrupt
      else if p.crc32(data[..8]) != BigEndian(data[8..12]) then Corrupt
      else if |data| < total then NeedMore
      else if p.crc32(data[..total - 4]) != BigEndian(data[total - 4..total]) then Corrupt
      else
        var headers := HeadersOf(p, data[12..12 + headersLength]);
        if headers.None? then Corrupt
        else Complete(Message(headers.value, data[12 + headersLength..total - 4]), total)
  }

  lemma FourBytes(n: Word32)
    ensures |ToBigEndian(n, 4)| == 4 && BigEndian(ToBigEndian(n, 4)) == n
  {
    assert Pow256(4) == 0x1_0000_0000;
    DecodeEncode(n, 4);
  }

  lemma FourBytesBack(s: seq<Byte>)
    requires |s| == 4
    ensures 0 <= BigEndian(s) < 0x1_0000_0000 && ToBigEndian(BigEndian(s), 4) == s
  {
    assert Pow256(4) == 0x1_0000_0000;
    BigEndianBound(s);
    EncodeDecode(s);
  }

  lemma ShortDataNeedsMore(p: Platform, maxFrameBytes: int, data: seq<Byte>)
    ensures |data| < 12 ==> NextFrame(p, maxFrameBytes, data).NeedMore?
  {
  }

  /** Where each part of a frame lies. */
  lemma FrameLayout(total: seq<Byte>, length: seq<Byte>, check: seq<Byte>, headers: seq<Byte>, payload: seq<Byte>,
                    last: seq<Byte>, rest: seq<Byte>)
    requires |total| == |length| == |check| == |last| == 4
    ensures var data := total + length + check + headers + payload + last + rest;
      var n, h := 16 + |headers| + |payload|, |headers|;
      && data[..4] == total && data[4..8] == length && data[8..12] == check
      && data[..8] == total + length
      && data[12..12 + h] == headers && data[12 + h..n - 4] == payload
      && data[n - 4..n] == last
      && data[..n - 4] == total + length + check + headers + payload
  {
  }

  /** A printed canonical message within the bound is read back, whatever bytes follow. */
  lemma NextFrameOfSerialized(p: Platform, maxFrameBytes: int, m: Message, rest: seq<Byte>)
    requires Serialize(p, m).Some? && CanonicalMessage(m)
    requires |Serialize(p, m).value| <= maxFrameBytes
    ensures NextFrame(p, maxFrameBytes, Serialize(p, m).value + rest)
         == Complete(m, |Serialize(p, m).value|)
  {
    hide ToBigEndian, BigEndian, HeadersOf, HeadersBytes, Canonical;
    var headers := HeadersBytes(p, m.headers).value;
    var total := ToBigEndian(16 + |headers| + |m.payload|, 4);
    var length := ToBigEndian(|headers|, 4);
    var check := ToBigEndian(p.crc32(total + length), 4);
    var body := total + length + check + headers + m.payload;
    var last := ToBigEndian(p.crc32(body), 4);
    var data := Serialize(p, m).value + rest;
    assert data == body + last + rest;
    FrameLayout(total, length, check, headers, m.payload, last, rest);
    FourBytes(16 + |headers| + |m.payload|);
    FourBytes(|headers|);
    FourBytes(p.crc32(total + length));
    FourBytes(p.crc32(body));
    HeadersOfBytes(p, m.headers);
  }

  /** An accepted frame prints back to the identical bytes. */
  lemma SerializeOfNextFrame(p: Platform, maxFrameBytes: int, data: seq<Byte>)
    requires NextFrame(p, maxFrameBytes, data).Complete?
    ensures var Complete(m, total) := NextFrame(p, maxFrameBytes, data);
      Serialize(p, m) == Some(data[..total]) && CanonicalMessage(m) && total <= maxFrameBytes
  {
    hide ToBigEndian, BigEndian, HeadersOf, HeadersBytes;
    var Complete(m, total) := NextFrame(p, maxFrameBytes, data);
    var h := BigEndian(data[4..8]);
    var headers := data[12..12 + h];
    FourBytesBack(data[..4]);
    FourBytesBack(data[4..8]);
    FourBytesBack(data[8..12]);
    FourBytesBack(data[total - 4..total]);
    BytesOfHeaders(p, headers);
    FrameSplit(data, h, total);
  }

  lemma FrameSplit(data: seq<Byte>, h: nat, total: nat)
    requires 16 <= total <= |data| && h <= total - 16
    ensures data[..8] == data[..4] + data[4..8]
    ensures data[..total - 4]
         == data[..4] + data[4..8] + data[8..12] + data[12..12 + h] + data[12 + h..total - 4]
    ensures data[..total] == data[..total - 4] + data[total - 4..total]
  {
  }

  /** The parser accepts exactly the printed forms of canonical messages within the frame bound. */
  lemma FrameParserIsExact(p: Platform, maxFrameBytes: int, data: seq<Byte>, m: Message, total: nat)
    ensures NextFrame(p, maxFrameBytes, data) == Complete(m, total)
       <==> && total <= |data|
            && Serialize(p, m) == Some(data[..total])
            && CanonicalMessage(m)
            && total <= maxFrameBytes
  {
    if NextFrame(p, maxFrameBytes, data) == Complete(m, total) {
      SerializeOfNextFrame(p, maxFrameBytes, data);
    }
    if total <= |data| && Serialize(p, m) == Some(data[..total]) && CanonicalMessage(m) && total <= maxFrameBytes {
      NextFrameOfSerialized(p, maxFrameBytes, m, data[total..]);
      assert data == data[..total] + data[total..];
    }
  }

  /** What the parser has decided, more bytes do not change. */
  lemma NextFrameIsStable(p: Platform, maxFrameBytes: int, data: seq<Byte>, more: seq<Byte>)
    requires !NextFrame(p, maxFrameBytes, data).NeedMore?
    ensures NextFrame(p, maxFrameBytes, data + more) == NextFrame(p, maxFrameBytes, data)
  {
    hide BigEndian, HeadersOf;
    var longer := data + more;
    assert longer[..4] == data[..4] && longer[4..8] == data[4..8];
    assert longer[..8] == data[..8] && longer[8..12] == data[8..12];
    var total, h := BigEndian(data[..4]), BigEndian(data[4..8]);
    if 16 <= total <= |data| && h <= total - 16 {
      assert longer[..total - 4] == data[..total - 4];
      assert longer[total - 4..total] == data[total - 4..total];
      assert longer[12..12 + h] == data[12..12 + h];
      assert longer[12 + h..total - 4] == data[12 + h..total - 4];
    }
  }
}
