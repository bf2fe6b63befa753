/** The incremental event-stream parser of src/llm_redact/eventstream.py, and what holds of every
    run of it. */
module EventStreamParsing {
  import opened Wrappers
  import opened Bytes
  import opened EventStream

  /** The frames at the head of `data`: their messages, the bytes they take, and whether the
      bytes after them are a frame the parser refuses (rather than an unfinished one). */
  datatype Frames = Frames(messages: seq<Message>, used: nat, corrupt: bool)

  function Scan(p: Platform, maxFrameBytes: int, data: seq<Byte>): (r: Frames)
    ensures r.used <= |data|
    decreases |data|
  {
    match NextFrame(p, maxFrameBytes, data)
    case NeedMore => Frames([], 0, false)
    case Corrupt => Frames([], 0, true)
    case Complete(m, total) =>
      var rest := Scan(p, maxFrameBytes, data[total..]);
      Frames([m] + rest.messages, total + rest.used, rest.corrupt)
  }

  /** `feed` on the buffer's value: the new buffer, and the messages or the failure. A failed
      feed keeps every byte, those of frames it had already parsed included. */
  function FeedStep(p: Platform, maxFrameBytes: int, buffer: seq<Byte>, chunk: seq<Byte>)
    : (seq<Byte>, Result<seq<Message>>)
  {
    var data := buffer + chunk;
    var frames := Scan(p, maxFrameBytes, data);
    if frames.corrupt then (data, Failed) else (data[frames.used..], Ok(frames.messages))
  }

  ghost function After(messages: seq<Message>, used: nat, rest: Frames): Frames {
    Frames(messages + rest.messages, used + rest.used, rest.corrupt)
  }

  class EventStreamParser {
    const platform: Platform
    const maxFrameBytes: int
    var buffer: seq<Byte>

    constructor (platform: Platform, maxFrameBytes: int := 10 * 1024 * 1024)
      ensures this.platform == platform && this.maxFrameBytes == maxFrameBytes
      ensures buffer == []
    {
      this.platform := platform;
      this.maxFrameBytes := maxFrameBytes;
      buffer := [];
    }

    /** The body of `feed`'s loop: the frame at `pos`, read where it lies. */
    method ReadFrame(pos: nat) returns (f: Frame)
      requires pos + 12 <= |buffer|
      ensures f == NextFrame(platform, maxFrameBytes, buffer[pos..])
    {
      hide BigEndian, HeadersOf;
      ghost var data := buffer[pos..];
      assert data[..4] == buffer[pos..pos + 4] && data[4..8] == buffer[pos + 4..pos + 8];
      assert data[..8] == buffer[pos..pos + 8] && data[8..12] == buffer[pos + 8..pos + 12];
      var total, headersLength := BigEndian(buffer[pos..pos + 4]), BigEndian(buffer[pos + 4..pos + 8]);
      if total < 16 || total > maxFrameBytes || headersLength > total - 16 {
        return Corrupt;
      }
      if platform.crc32(buffer[pos..pos + 8]) != BigEndian(buffer[pos + 8..pos + 12]) {
        return Corrupt;
      }
      if |buffer| - pos < total {
        return NeedMore;
      }
      var frame := buffer[pos..pos + total];
      assert frame == data[..total] && frame[..total - 4] == data[..total - 4];
      assert frame[total - 4..] == data[total - 4..total];
      if platform.crc32(frame[..total - 4]) != BigEndian(frame[total - 4..]) {
        return Corrupt;
      }
      assert frame[12..12 + headersLength] == data[12..12 + headersLength];
      assert frame[12 + headersLength..total - 4] == data[12 + headersLength..total - 4];
      var headers := ParseHeaders(platform, frame[12..12 + headersLength]);
      if headers.None? {
        return Corrupt;
      }
      return Complete(Message(headers.value, frame[12 + headersLength..total - 4]), total);
    }

    method Feed(chunk: seq<Byte>) returns (r: Result<seq<Message>>)
      modifies this`buffer
      ensures (buffer, r) == FeedStep(platform, maxFrameBytes, old(buffer), chunk)
    {
      hide NextFrame;
      buffer := buffer + chunk;
      var messages: seq<Message> := [];
      var pos := 0;
      ghost var whole := Scan(platform, maxFrameBytes, buffer);
      assert buffer[0..] == buffer && [] + whole.messages == whole.messages;
      while |buffer| - pos >= 12
        invariant 0 <= pos <= |buffer|
        invariant buffer == old(buffer) + chunk
        invariant whole == After(messages, pos, Scan(platform, maxFrameBytes, buffer[pos..]))
        decreases |buffer| - pos
      {
        var frame := ReadFrame(pos);
        assert messages + [] == messages;
        match frame {
          case Corrupt =>
            return Failed;
          case NeedMore =>
            break;
          case Complete(m, total) =>
            assert buffer[pos..][total..] == buffer[pos + total..];
            ghost var rest := Scan(platform, maxFrameBytes, buffer[pos + total..]);
            assert messages + ([m] + rest.messages) == messages + [m] + rest.messages;
            messages := messages + [m];
            pos := pos + total;
        }
      }
      ShortDataNeedsMore(platform, maxFrameBytes, buffer[pos..]);
      assert messages + [] == messages;
      buffer := buffer[pos..];
      return Ok(messages);
    }

    /** `residual` */
    function Residual(): (r: seq<Byte>)
      reads this
      ensures r == buffer
    {
      buffer
    }

    /** `close`: Failed stands for the raise on leftover bytes. */
    method Close() returns (r: Result<()>)
      ensures r == if buffer == [] then Ok(()) else Failed
    {
      if |buffer| > 0 {
        return Failed;
      }
      return Ok(());
    }
  }

  /** A parser made without a bound allows frames of ten mebibytes. */
  method NewParser(platform: Platform) returns (parser: EventStreamParser)
    ensures fresh(parser) && parser.buffer == []
    ensures parser.platform == platform && parser.maxFrameBytes == 10_485_760
  {
    parser := new EventStreamParser(platform);
  }

  // ---- whole runs ----

  function Join(parts: seq<seq<Byte>>): seq<Byte> {
    if parts == [] then [] else parts[0] + Join(parts[1..])
  }

  /** What a parser's caller has seen after feeding the chunks in turn: the residual, and one
      outcome for each feed. A caller may go on feeding after a failure. */
  datatype Run = Run(residual: seq<Byte>, outcomes: seq<Result<seq<Message>>>)

  function FeedAll(p: Platform, maxFrameBytes: int, buffer: seq<Byte>, chunks: seq<seq<Byte>>): (r: Run)
    ensures |r.outcomes| == |chunks|
    decreases |chunks|
  {
    if chunks == [] then Run(buffer, [])
    else
      var (next, outcome) := FeedStep(p, maxFrameBytes, buffer, chunks[0]);
      var rest := FeedAll(p, maxFrameBytes, next, chunks[1..]);
      Run(rest.residual, [outcome] + rest.outcomes)
  }

  function Returned(outcomes: seq<Result<seq<Message>>>): seq<Message> {
    if outcomes == [] then []
    else (if outcomes[0].Ok? then outcomes[0].value else []) + Returned(outcomes[1..])
  }

  /** The messages printed one after another; None when one has no printed form. */
  function Wire(p: Platform, messages: seq<Message>): Option<seq<Byte>> {
    if messages == [] then Some([])
    else
      var first, rest := Serialize(p, messages[0]), Wire(p, messages[1..]);
      if first.Some? && rest.Some? then Some(first.value + rest.value) else None
  }

  lemma Associate<T>(a: seq<T>, b: seq<T>, c: seq<T>)
    ensures a + b + c == a + (b + c)
  {
  }

  lemma {:induction false} WireOfSum(p: Platform, a: seq<Message>, b: seq<Message>)
    requires Wire(p, a).Some? && Wire(p, b).Some?
    ensures Wire(p, a + b) == Some(Wire(p, a).value + Wire(p, b).value)
  {
    hide Serialize;
    if a == [] {
      assert a + b == b && [] + Wire(p, b).value == Wire(p, b).value;
    } else {
      assert (a + b)[0] == a[0] && (a + b)[1..] == a[1..] + b;
      WireOfSum(p, a[1..], b);
      Associate(Serialize(p, a[0]).value, Wire(p, a[1..]).value, Wire(p, b).value);
    }
  }

  /** The messages scanned off the buffer print to exactly the bytes they took. */
  lemma {:induction false} ScanConserves(p: Platform, maxFrameBytes: int, data: seq<Byte>)
    ensures var r := Scan(p, maxFrameBytes, data); Wire(p, r.messages) == Some(data[..r.used])
    decreases |data|
  {
    hide NextFrame, Serialize;
    var f := NextFrame(p, maxFrameBytes, data);
    if f.Complete? {
      SerializeOfNextFrame(p, maxFrameBytes, data);
      ScanConserves(p, maxFrameBytes, data[f.total..]);
      var r, rest := Scan(p, maxFrameBytes, data), Scan(p, maxFrameBytes, data[f.total..]);
      assert r.messages[1..] == rest.messages;
      assert data[..r.used] == data[..f.total] + data[f.total..][..rest.used];
    }
  }

  /** Scanning in two goes: a refusal stands, and otherwise the second go starts at the residual. */
  lemma {:induction false} ScanOfSum(p: Platform, maxFrameBytes: int, a: seq<Byte>, b: seq<Byte>)
    ensures var first := Scan(p, maxFrameBytes, a);
      Scan(p, maxFrameBytes, a + b)
      == if first.corrupt then first
         else After(first.messages, first.used, Scan(p, maxFrameBytes, a[first.used..] + b))
    decreases |a|
  {
    hide NextFrame;
    var f := NextFrame(p, maxFrameBytes, a);
    if f.NeedMore? {
      assert a[0..] + b == a + b;
      var rest := Scan(p, maxFrameBytes, a + b);
      assert [] + rest.messages == rest.messages;
    } else {
      NextFrameIsStable(p, maxFrameBytes, a, b);
      if f.Complete? {
        var tail := a[f.total..];
        assert (a + b)[f.total..] == tail + b;
        ScanOfSum(p, maxFrameBytes, tail, b);
        var first := Scan(p, maxFrameBytes, tail);
        if !first.corrupt {
          assert a[f.total + first.used..] == tail[first.used..];
          var second := Scan(p, maxFrameBytes, tail[first.used..] + b);
          Associate([f.message], first.messages, second.messages);
        }
      }
    }
  }

  /** No byte is lost or duplicated in any run, failed feeds included: the printed forms of the
      returned messages, followed by the residual, are the bytes fed. */
  lemma {:induction false} RunConserves(p: Platform, maxFrameBytes: int, buffer: seq<Byte>, chunks: seq<seq<Byte>>)
    ensures var r := FeedAll(p, maxFrameBytes, buffer, chunks);
      var wire := Wire(p, Returned(r.outcomes));
      wire.Some? && wire.value + r.residual == buffer + Join(chunks)
    decreases |chunks|
  {
    hide Scan, Serialize, Wire;
    if chunks == [] {
      NothingOnTheWire(p);
      assert [] + buffer == buffer + [];
    } else {
      var (next, outcome) := FeedStep(p, maxFrameBytes, buffer, chunks[0]);
      var rest := FeedAll(p, maxFrameBytes, next, chunks[1..]);
      var here := if outcome.Ok? then outcome.value else [];
      var more := Returned(rest.outcomes);
      assert FeedAll(p, maxFrameBytes, buffer, chunks).outcomes[1..] == rest.outcomes;
      StepConserves(p, maxFrameBytes, buffer, chunks[0]);
      RunConserves(p, maxFrameBytes, next, chunks[1..]);
      WireOfSum(p, here, more);
      Associate(Wire(p, here).value, Wire(p, more).value, rest.residual);
      Associate(Wire(p, here).value, next, Join(chunks[1..]));
      Associate(buffer, chunks[0], Join(chunks[1..]));
    }
  }

  lemma NothingOnTheWire(p: Platform)
    ensures Wire(p, []) == Some([])
  {
  }

  lemma StepConserves(p: Platform, maxFrameBytes: int, buffer: seq<Byte>, chunk: seq<Byte>)
    ensures var (next, outcome) := FeedStep(p, maxFrameBytes, buffer, chunk);
      var wire := Wire(p, if outcome.Ok? then outcome.value else []);
      wire.Some? && wire.value + next == buffer + chunk
  {
    hide NextFrame, Serialize;
    var data := buffer + chunk;
    ScanConserves(p, maxFrameBytes, data);
    var used := Scan(p, maxFrameBytes, data).used;
    assert data[..used] + data[used..] == data;
    assert [] + data == data;
  }

  /** `close` at the end of a run succeeds exactly when the returned messages account for every byte. */
  lemma CloseMeansAllReturned(p: Platform, maxFrameBytes: int, chunks: seq<seq<Byte>>)
    ensures var r := FeedAll(p, maxFrameBytes, [], chunks);
      r.residual == [] <==> Wire(p, Returned(r.outcomes)) == Some(Join(chunks))
  {
    hide Wire, FeedAll, Join, Returned;
    RunConserves(p, maxFrameBytes, [], chunks);
    var r := FeedAll(p, maxFrameBytes, [], chunks);
    var wire := Wire(p, Returned(r.outcomes)).value;
    assert |wire + r.residual| == |[] + Join(chunks)|;
    assert r.residual == [] ==> wire + r.residual == wire;
    assert [] + Join(chunks) == Join(chunks);
  }

  lemma FeedAllIs(p: Platform, maxFrameBytes: int, buffer: seq<Byte>, chunks: seq<seq<Byte>>,
                  before: seq<Result<seq<Message>>>)
    requires chunks != []
    ensures var (next, outcome) := FeedStep(p, maxFrameBytes, buffer, chunks[0]);
      && FeedAll(p, maxFrameBytes, buffer, chunks).residual == FeedAll(p, maxFrameBytes, next, chunks[1..]).residual
      && before + FeedAll(p, maxFrameBytes, buffer, chunks).outcomes
         == before + [outcome] + FeedAll(p, maxFrameBytes, next, chunks[1..]).outcomes
  {
    hide *;
    FeedAllCons(p, maxFrameBytes, buffer, chunks);
    var (next, outcome) := FeedStep(p, maxFrameBytes, buffer, chunks[0]);
    Associate(before, [outcome], FeedAll(p, maxFrameBytes, next, chunks[1..]).outcomes);
  }

  lemma FeedAllCons(p: Platform, maxFrameBytes: int, buffer: seq<Byte>, chunks: seq<seq<Byte>>)
    requires chunks != []
    ensures var (next, outcome) := FeedStep(p, maxFrameBytes, buffer, chunks[0]);
      var rest := FeedAll(p, maxFrameBytes, next, chunks[1..]);
      FeedAll(p, maxFrameBytes, buffer, chunks) == Run(rest.residual, [outcome] + rest.outcomes)
  {
    hide FeedStep;
  }

  lemma FeedAllNothing(p: Platform, maxFrameBytes: int, buffer: seq<Byte>)
    ensures FeedAll(p, maxFrameBytes, buffer, []) == Run(buffer, [])
  {
  }

  /** A whole stream on a new parser: each chunk fed, the residual read, and the parser closed. The
      close succeeds exactly when the messages returned account for every byte. */
  method ReadStream(parser: EventStreamParser, chunks: seq<seq<Byte>>)
    returns (outcomes: seq<Result<seq<Message>>>, residual: seq<Byte>, closed: Result<()>)
    requires parser.buffer == []
    modifies parser
    ensures Run(residual, outcomes) == FeedAll(parser.platform, parser.maxFrameBytes, [], chunks)
    ensures closed.Ok? <==> Wire(parser.platform, Returned(outcomes)) == Some(Join(chunks))
  {
    hide *;
    var p, most := parser.platform, parser.maxFrameBytes;
    outcomes := [];
    ghost var all := FeedAll(p, most, [], chunks);
    assert [] + all.outcomes == all.outcomes;
    for i := 0 to |chunks|
      invariant all.residual == FeedAll(p, most, parser.buffer, chunks[i..]).residual
      invariant all.outcomes == outcomes + FeedAll(p, most, parser.buffer, chunks[i..]).outcomes
    {
      FeedAllIs(p, most, parser.buffer, chunks[i..], outcomes);
      assert chunks[i..][1..] == chunks[i + 1..];
      var outcome := parser.Feed(chunks[i]);
      outcomes := outcomes + [outcome];
    }
    assert chunks[|chunks|..] == [];
    FeedAllNothing(p, most, parser.buffer);
    CloseMeansAllReturned(p, most, chunks);
    residual := parser.Residual();
    closed := parser.Close();
    assert outcomes + [] == outcomes;
  }

  /** After a failed feed every later feed fails, and the residual only grows by what is fed. */
  lemma {:induction false} FailureSticks(p: Platform, maxFrameBytes: int, buffer: seq<Byte>, chunks: seq<seq<Byte>>)
    requires Scan(p, maxFrameBytes, buffer).corrupt
    ensures var r := FeedAll(p, maxFrameBytes, buffer, chunks);
      && r.residual == buffer + Join(chunks)
      && Returned(r.outcomes) == []
      && forall i :: 0 <= i < |r.outcomes| ==> r.outcomes[i] == Failed
    decreases |chunks|
  {
    hide Scan;
    if chunks != [] {
      var data := buffer + chunks[0];
      ScanOfSum(p, maxFrameBytes, buffer, chunks[0]);
      assert FeedStep(p, maxFrameBytes, buffer, chunks[0]) == (data, Failed);
      FailureSticks(p, maxFrameBytes, data, chunks[1..]);
      Associate(buffer, chunks[0], Join(chunks[1..]));
      var r, rest := FeedAll(p, maxFrameBytes, buffer, chunks), FeedAll(p, maxFrameBytes, data, chunks[1..]);
      assert r.outcomes[1..] == rest.outcomes;
    }
  }

  lemma UnfinishedFrameIsShort(p: Platform, maxFrameBytes: int, data: seq<Byte>)
    requires NextFrame(p, maxFrameBytes, data).NeedMore?
    ensures |data| < 12 || |data| < maxFrameBytes
  {
  }

  /** What a successful feed leaves holds no finished frame, and is shorter than the longest allowed one. */
  lemma {:induction false} ResidualIsBounded(p: Platform, maxFrameBytes: int, data: seq<Byte>)
    ensures var r := Scan(p, maxFrameBytes, data);
      var left := data[r.used..];
      !r.corrupt ==> && Scan(p, maxFrameBytes, left) == Frames([], 0, false)
                     && (|left| < 12 || |left| < maxFrameBytes)
    decreases |data|
  {
    hide NextFrame;
    var f := NextFrame(p, maxFrameBytes, data);
    if f.NeedMore? {
      UnfinishedFrameIsShort(p, maxFrameBytes, data);
      assert data[0..] == data;
    } else if f.Complete? {
      var rest := Scan(p, maxFrameBytes, data[f.total..]);
      ResidualIsBounded(p, maxFrameBytes, data[f.total..]);
      assert data[f.total + rest.used..] == data[f.total..][rest.used..];
    }
  }

  /** A run compared with one feed of all its bytes. */
  ghost predicate SameAsWhole(p: Platform, maxFrameBytes: int, stream: seq<Byte>, r: Run) {
    var whole, left := Scan(p, maxFrameBytes, stream), Scan(p, maxFrameBytes, r.residual);
    && (whole.corrupt <==> Failed in r.outcomes)
    && left.corrupt == whole.corrupt
    && Returned(r.outcomes) + left.messages == whole.messages
    && |stream| - |r.residual| + left.used == whole.used
    && (!whole.corrupt ==> left == Frames([], 0, false) && r.residual == stream[whole.used..])
  }

  lemma SameAsWholeAfterFailure(p: Platform, maxFrameBytes: int, data: seq<Byte>, tail: seq<Byte>, r: Run)
    requires Scan(p, maxFrameBytes, data).corrupt
    requires r.residual == data + tail && Returned(r.outcomes) == [] && Failed in r.outcomes
    ensures SameAsWhole(p, maxFrameBytes, data + tail, r)
  {
    hide Scan, Returned;
    ScanOfSum(p, maxFrameBytes, data, tail);
    var messages := Scan(p, maxFrameBytes, data).messages;
    assert [] + messages == messages;
  }

  lemma ReturnedCons(messages: seq<Message>, outcomes: seq<Result<seq<Message>>>)
    ensures Returned([Ok(messages)] + outcomes) == messages + Returned(outcomes)
    ensures Failed in [Ok(messages)] + outcomes <==> Failed in outcomes
  {
    assert ([Ok(messages)] + outcomes)[1..] == outcomes;
  }

  lemma DropTwice(data: seq<Byte>, tail: seq<Byte>, m: nat, n: nat)
    requires m <= |data| && m + n <= |data| + |tail|
    ensures (data + tail)[m + n..] == (data[m..] + tail)[n..]
  {
  }

  lemma SameAsWholeAfterSuccess(p: Platform, maxFrameBytes: int, data: seq<Byte>, tail: seq<Byte>, r: Run)
    requires var frames := Scan(p, maxFrameBytes, data);
      !frames.corrupt && SameAsWhole(p, maxFrameBytes, data[frames.used..] + tail, r)
    ensures var frames := Scan(p, maxFrameBytes, data);
      SameAsWhole(p, maxFrameBytes, data + tail, Run(r.residual, [Ok(frames.messages)] + r.outcomes))
  {
    hide Scan, Returned;
    ScanOfSum(p, maxFrameBytes, data, tail);
    var frames := Scan(p, maxFrameBytes, data);
    var later := Scan(p, maxFrameBytes, data[frames.used..] + tail);
    ReturnedCons(frames.messages, r.outcomes);
    Associate(frames.messages, Returned(r.outcomes), Scan(p, maxFrameBytes, r.residual).messages);
    DropTwice(data, tail, frames.used, later.used);
  }

  lemma {:induction false} ChunksFrom(p: Platform, maxFrameBytes: int, buffer: seq<Byte>, chunks: seq<seq<Byte>>)
    requires Scan(p, maxFrameBytes, buffer) == Frames([], 0, false)
    ensures SameAsWhole(p, maxFrameBytes, buffer + Join(chunks), FeedAll(p, maxFrameBytes, buffer, chunks))
    decreases |chunks|
  {
    hide Scan, SameAsWhole, Returned;
    if chunks == [] {
      NoChunks(p, maxFrameBytes, buffer);
      assert buffer + [] == buffer;
    } else {
      var data, tail := buffer + chunks[0], Join(chunks[1..]);
      Associate(buffer, chunks[0], tail);
      if Scan(p, maxFrameBytes, data).corrupt {
        FailureSticks(p, maxFrameBytes, data, chunks[1..]);
        var r := FeedAll(p, maxFrameBytes, buffer, chunks);
        assert r.outcomes[0] == Failed && r.outcomes[1..] == FeedAll(p, maxFrameBytes, data, chunks[1..]).outcomes;
        NothingReturned(r.outcomes);
        SameAsWholeAfterFailure(p, maxFrameBytes, data, tail, r);
      } else {
        var (next, _) := FeedStep(p, maxFrameBytes, buffer, chunks[0]);
        ResidualIsBounded(p, maxFrameBytes, data);
        ChunksFrom(p, maxFrameBytes, next, chunks[1..]);
        SameAsWholeAfterSuccess(p, maxFrameBytes, data, tail, FeedAll(p, maxFrameBytes, next, chunks[1..]));
      }
    }
  }

  lemma NothingReturned(outcomes: seq<Result<seq<Message>>>)
    requires outcomes != [] && outcomes[0] == Failed
    ensures Returned(outcomes) == Returned(outcomes[1..])
  {
  }

  lemma NoChunks(p: Platform, maxFrameBytes: int, buffer: seq<Byte>)
    requires Scan(p, maxFrameBytes, buffer) == Frames([], 0, false)
    ensures SameAsWhole(p, maxFrameBytes, buffer, Run(buffer, []))
  {
    hide Scan;
    assert buffer[0..] == buffer;
  }

  /** Any way of cutting a stream into chunks gives what one feed of the whole stream gives: the
      same messages and residual when the stream is good. When it is not, some feed fails, at the
      very frame the whole-stream feed stops at: the messages returned before, and those still
      unreturned in the residual, are the frames before it. */
  lemma ChunkingDoesNotMatter(p: Platform, maxFrameBytes: int, chunks: seq<seq<Byte>>)
    ensures SameAsWhole(p, maxFrameBytes, Join(chunks), FeedAll(p, maxFrameBytes, [], chunks))
  {
    ChunksFrom(p, maxFrameBytes, [], chunks);
    assert [] + Join(chunks) == Join(chunks);
  }

  /** A message the parser can be expected to give back: canonical, printable, within the frame bound. */
  predicate Fits(p: Platform, maxFrameBytes: int, m: Message) {
    CanonicalMessage(m) && Serialize(p, m).Some? && |Serialize(p, m).value| <= maxFrameBytes
  }

  lemma {:induction false} ScanOfWire(p: Platform, maxFrameBytes: int, messages: seq<Message>)
    requires Wire(p, messages).Some? && forall m :: m in messages ==> Fits(p, maxFrameBytes, m)
    ensures var wire := Wire(p, messages).value;
      Scan(p, maxFrameBytes, wire) == Frames(messages, |wire|, false)
  {
    hide NextFrame, Serialize;
    if messages == [] {
      ShortDataNeedsMore(p, maxFrameBytes, []);
    } else {
      var first, rest := Serialize(p, messages[0]).value, Wire(p, messages[1..]).value;
      assert Fits(p, maxFrameBytes, messages[0]);
      NextFrameOfSerialized(p, maxFrameBytes, messages[0], rest);
      assert (first + rest)[|first|..] == rest;
      ScanOfWire(p, maxFrameBytes, messages[1..]);
      assert messages == [messages[0]] + messages[1..];
    }
  }

  lemma {:induction false} ScannedFit(p: Platform, maxFrameBytes: int, data: seq<Byte>)
    ensures forall m :: m in Scan(p, maxFrameBytes, data).messages ==> Fits(p, maxFrameBytes, m)
    decreases |data|
  {
    hide NextFrame, Serialize, CanonicalMessage;
    if NextFrame(p, maxFrameBytes, data).Complete? {
      SerializeOfNextFrame(p, maxFrameBytes, data);
      ScannedFit(p, maxFrameBytes, data[NextFrame(p, maxFrameBytes, data).total..]);
    }
  }

  /** Feeding the printed forms of a list of messages, cut anywhere, returns exactly that list and
      leaves nothing, if and only if each message is canonical and within the frame bound. */
  lemma PrintedStreamIsReadBack(p: Platform, maxFrameBytes: int, messages: seq<Message>, chunks: seq<seq<Byte>>)
    requires Wire(p, messages) == Some(Join(chunks))
    ensures var r := FeedAll(p, maxFrameBytes, [], chunks);
      && Failed !in r.outcomes && Returned(r.outcomes) == messages && r.residual == []
      <==> forall m :: m in messages ==> Fits(p, maxFrameBytes, m)
  {
    hide Scan, FeedAll, Returned, Wire, Join, Fits;
    var r := FeedAll(p, maxFrameBytes, [], chunks);
    ChunkingDoesNotMatter(p, maxFrameBytes, chunks);
    if forall m :: m in messages ==> Fits(p, maxFrameBytes, m) {
      ScanOfWire(p, maxFrameBytes, messages);
    }
    if Failed !in r.outcomes && Returned(r.outcomes) == messages {
      ScannedFit(p, maxFrameBytes, Join(chunks));
      assert messages + [] == messages;
    }
  }
}
