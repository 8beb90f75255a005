/** The incremental decoder, and what it means for its output not to depend on
    how the byte stream is cut into chunks. */
module FrameDecoder {
  import opened Results
  import opened Text
  import opened DriverFrames

  /** What `push` answers: the messages of this chunk, or the code of the error that ends the host. */
  datatype Pushed = Messages(envelopes: seq<Envelope>) | Died(code: string)

  class FrameDecoder {
    const limits: Limits
    var buffer: seq<byte>
    var pendingLength: Option<nat>
    var lastPayloadDigest: string

    ghost function State(): Decoder
      reads this
    {
      Decoder(buffer, pendingLength)
    }

    constructor (limits: Limits)
      ensures this.limits == limits && State() == Decoder([], None) && lastPayloadDigest == ""
    {
      this.limits := limits;
      buffer, pendingLength, lastPayloadDigest := [], None, "";
    }

    /** Consumes one complete header, or reports that it is still incomplete. */
    method ReadHeader() returns (r: Result<Option<nat>>)
      requires pendingLength.None?
      modifies `buffer, `pendingLength
      ensures match Advance(limits, old(State()))
              case Wait => r == Ok(None) && State() == old(State())
              case Fail(code, left) => r == Err(code) && State() == old(State()) == left
              case Header(n, left) => r == Ok(Some(n)) && State() == left && pendingLength == Some(n)
              case Message(_, _) => false
    {
      hide FrameLength;
      match Boundary(buffer) {
        case None =>
          if |buffer| > limits.maximumHeaderBytes {
            return Err("VES_DRIVER_FRAME_HEADER_LIMIT");
          }
          return Ok(None);
        case Some(i) =>
          if i > limits.maximumHeaderBytes {
            return Err("VES_DRIVER_FRAME_HEADER_LIMIT");
          }
          match FrameLength(buffer[..i], limits.maximumMessageBytes) {
            case Err(code) =>
              return Err(code);
            case Ok(n) =>
              pendingLength, buffer := Some(n), buffer[i + 4..];
              return Ok(Some(n));
          }
      }
    }

    /** Takes the pending body off the buffer and validates it. */
    method ReadBody() returns (r: Result<Envelope>)
      requires pendingLength.Some? && |buffer| >= pendingLength.value
      modifies `buffer, `pendingLength
      ensures match Advance(limits, old(State()))
              case Message(e, left) => r == Ok(e) && State() == left
              case Fail(code, left) => r == Err(code) && State() == left
              case _ => false
    {
      hide ValidateBody;
      var length := pendingLength.value;
      var body := buffer[..length];
      buffer, pendingLength := buffer[length..], None;
      r := ValidateBody(limits, body);
    }

    method Push(chunk: seq<byte>) returns (pushed: Pushed)
      modifies this
      ensures var r := Drain(limits, Decoder(old(buffer) + chunk, old(pendingLength)));
              && State() == r.left
              && pushed == Answer(r)
              && lastPayloadDigest == LastDigest(Decoded(r), old(lastPayloadDigest))
    {
      hide Advance;
      buffer := buffer + chunk;
      ghost var whole := Drain(limits, State());
      var messages := [];
      BeforeNothing(whole);
      while true
        invariant whole == Before(messages, Drain(limits, State()))
        invariant lastPayloadDigest == LastDigest(messages, old(lastPayloadDigest))
        decreases Fuel(State())
      {
        if pendingLength.None? {
          var header := ReadHeader();
          if header.Err? {
            assert messages + [] == messages;
            return Died(header.code);
          }
          if header.value.None? {
            break;
          }
        }
        if |buffer| < pendingLength.value {
          ShortBodyWaits(limits, State());
          break;
        }
        ghost var here := State();
        var body := ReadBody();
        if body.Err? {
          assert messages + [] == messages;
          return Died(body.code);
        }
        BeforeBefore(messages, [body.value], Drain(limits, State()));
        lastPayloadDigest, messages := body.value.payloadDigest, messages + [body.value];
      }
      assert messages + [] == messages;
      return Messages(messages);
    }
  }

  function Answer(r: Drained): Pushed {
    match r case More(messages, _) => Messages(messages) case Terminated(code, _, _) => Died(code)
  }

  lemma ShortBodyWaits(l: Limits, d: Decoder)
    requires d.pending.Some? && |d.buffer| < d.pending.value
    ensures Advance(l, d) == Wait
  {
  }

  function Decoded(r: Drained): seq<Envelope> { if r.More? then r.messages else r.lost }

  function LastDigest(es: seq<Envelope>, otherwise: string): string {
    if es == [] then otherwise else es[|es| - 1].payloadDigest
  }

  lemma BeforeBefore(a: seq<Envelope>, b: seq<Envelope>, r: Drained)
    ensures Before(a, Before(b, r)) == Before(a + b, r)
  {
    assert forall c: seq<Envelope> :: a + (b + c) == (a + b) + c;
  }

  // ---- Bytes that arrive later ----

  function Extend(d: Decoder, more: seq<byte>): Decoder { d.(buffer := d.buffer + more) }

  /** A step that consumed a frame part consumes the same part when more bytes follow. */
  lemma AdvanceExtend(l: Limits, d: Decoder, more: seq<byte>)
    ensures match Advance(l, d)
            case Header(n, left) => Advance(l, Extend(d, more)) == Header(n, Extend(left, more))
            case Message(e, left) => Advance(l, Extend(d, more)) == Message(e, Extend(left, more))
            case _ => true
  {
    var b, all := d.buffer, d.buffer + more;
    BoundaryAppend(b, more);
    if d.pending.None? {
      if Boundary(b).Some? {
        var i := Boundary(b).value;
        assert all[..i] == b[..i] && all[i + 4..] == b[i + 4..] + more;
      }
    } else if |b| >= d.pending.value {
      assert all[..d.pending.value] == b[..d.pending.value];
      assert all[d.pending.value..] == b[d.pending.value..] + more;
    }
  }

  /** Draining what arrived first, then the rest, is draining it all. */
  lemma {:induction false} DrainExtend(l: Limits, d: Decoder, more: seq<byte>)
    requires Drain(l, d).More?
    ensures var first := Drain(l, d);
            Drain(l, Extend(d, more)) == Before(first.messages, Drain(l, Extend(first.left, more)))
    decreases Fuel(d)
  {
    hide Advance;
    AdvanceExtend(l, d, more);
    match Advance(l, d) {
      case Wait => BeforeNothing(Drain(l, Extend(d, more)));
      case Header(_, left) => DrainExtend(l, left, more);
      case Message(e, left) =>
        DrainExtend(l, left, more);
        BeforeBefore([e], Drain(l, left).messages, Drain(l, Extend(Drain(l, left).left, more)));
    }
  }

  lemma BeforeNothing(r: Drained)
    ensures Before([], r) == r
  {
    assert forall c: seq<Envelope> :: [] + c == c;
  }

  // ---- Chunkings ----

  function Concat(chunks: seq<seq<byte>>): seq<byte> {
    if chunks == [] then [] else chunks[0] + Concat(chunks[1..])
  }

  /** Pushing the chunks one after the other; the host dies with the first error. */
  function PushAll(l: Limits, d: Decoder, chunks: seq<seq<byte>>): Drained
    decreases |chunks|
  {
    if chunks == [] then More([], d)
    else
      match Drain(l, Extend(d, chunks[0]))
      case Terminated(code, lost, left) => Terminated(code, lost, left)
      case More(messages, left) => Before(messages, PushAll(l, left, chunks[1..]))
  }

  /** A chunking that does not terminate decodes exactly what one push of the whole stream decodes. */
  lemma {:induction false} ChunkingIsOnePush(l: Limits, d: Decoder, chunks: seq<seq<byte>>)
    requires Drain(l, d) == More([], d)
    requires PushAll(l, d, chunks).More?
    ensures PushAll(l, d, chunks) == Drain(l, Extend(d, Concat(chunks)))
    decreases |chunks|
  {
    hide Advance, Drain;
    if chunks == [] {
      assert d.buffer + [] == d.buffer;
    } else {
      var first := Drain(l, Extend(d, chunks[0]));
      DrainTwice(l, Extend(d, chunks[0]));
      ChunkingIsOnePush(l, first.left, chunks[1..]);
      DrainExtend(l, Extend(d, chunks[0]), Concat(chunks[1..]));
      assert d.buffer + chunks[0] + Concat(chunks[1..]) == d.buffer + Concat(chunks);
    }
  }

  /** What a drain leaves has nothing more to give. */
  lemma {:induction false} DrainTwice(l: Limits, d: Decoder)
    requires Drain(l, d).More?
    ensures var left := Drain(l, d).left; Drain(l, left) == More([], left)
    decreases Fuel(d)
  {
    hide Advance;
    match Advance(l, d) {
      case Wait =>
      case Header(_, left) => DrainTwice(l, left);
      case Message(_, left) => DrainTwice(l, left);
    }
  }

  /** Two chunkings of one stream that both survive deliver the same envelopes and leave the same state. */
  lemma ChunkIndependence(l: Limits, a: seq<seq<byte>>, b: seq<seq<byte>>)
    requires Concat(a) == Concat(b)
    requires PushAll(l, Decoder([], None), a).More? && PushAll(l, Decoder([], None), b).More?
    ensures PushAll(l, Decoder([], None), a) == PushAll(l, Decoder([], None), b)
  {
    EmptyDrains(l);
    ChunkingIsOnePush(l, Decoder([], None), a);
    ChunkingIsOnePush(l, Decoder([], None), b);
  }

  lemma EmptyDrains(l: Limits)
    ensures Drain(l, Decoder([], None)) == More([], Decoder([], None))
  {
    var none: seq<byte> := [];
    assert Boundary(none) == None;
  }

  // ---- When every chunking survives ----

  /** The headers read while draining leave room for a boundary that arrives in pieces. */
  predicate HeadersFit(l: Limits, d: Decoder)
    decreases Fuel(d)
  {
    match Advance(l, d)
    case Header(_, left) => Boundary(d.buffer).value + 3 <= l.maximumHeaderBytes && HeadersFit(l, left)
    case Message(_, left) => HeadersFit(l, left)
    case _ => true
  }

  /** If the headers fit, a prefix of a stream that drains drains too. */
  lemma {:induction false} PrefixDrains(l: Limits, d: Decoder, more: seq<byte>)
    requires Drain(l, Extend(d, more)).More? && HeadersFit(l, Extend(d, more))
    ensures Drain(l, d).More?
    decreases Fuel(d)
  {
    AdvanceExtend(l, d, more);
    BoundaryAppend(d.buffer, more);
    match Advance(l, d) {
      case Wait =>
      case Header(_, left) => PrefixDrains(l, left, more);
      case Message(_, left) => PrefixDrains(l, left, more);
      case Fail(code, left) => FailExtends(l, d, more);
    }
  }

  lemma FailExtends(l: Limits, d: Decoder, more: seq<byte>)
    requires Advance(l, d).Fail? && HeadersFit(l, Extend(d, more))
    ensures Advance(l, Extend(d, more)).Fail?
  {
    var b, all := d.buffer, d.buffer + more;
    BoundaryAppend(b, more);
    if d.pending.None? {
      if Boundary(b).Some? {
        assert all[..Boundary(b).value] == b[..Boundary(b).value];
      }
    } else {
      assert all[..d.pending.value] == b[..d.pending.value];
    }
  }

  /** A header that leaves no room is cut inside its boundary. */
  lemma LongHeaderDies(l: Limits, d: Decoder)
    requires Advance(l, d).Header? && Boundary(d.buffer).value + 3 > l.maximumHeaderBytes
    ensures l.maximumHeaderBytes + 1 <= |d.buffer|
    ensures Drain(l, d.(buffer := d.buffer[..l.maximumHeaderBytes + 1])).Terminated?
  {
    var b, k := d.buffer, l.maximumHeaderBytes + 1;
    BoundaryAppend(b[..k], b[k..]);
    assert b[..k] + b[k..] == b;
    hide FrameLength;
  }

  lemma AdvanceShape(l: Limits, d: Decoder)
    ensures match Advance(l, d)
            case Header(n, left) =>
              d.pending.None? && Boundary(d.buffer).Some? && Boundary(d.buffer).value + 4 <= |d.buffer| &&
              left == Decoder(d.buffer[Boundary(d.buffer).value + 4..], Some(n))
            case Message(e, left) =>
              d.pending.Some? && d.pending.value <= |d.buffer| && left == Decoder(d.buffer[d.pending.value..], None)
            case _ => true
  {
    hide FrameLength, ValidateBody;
  }

  lemma TakeAcross(b: seq<byte>, n: nat, j: nat)
    requires n + j <= |b|
    ensures b[..n + j] == b[..n] + b[n..][..j]
  {
  }

  lemma DiesAfterHeader(l: Limits, d: Decoder, left: Decoder, j: nat)
    requires Advance(l, d).Header? && Advance(l, d).left == left
    requires j <= |left.buffer| && Drain(l, Decoder(left.buffer[..j], left.pending)).Terminated?
    ensures Boundary(d.buffer).Some?
    ensures var k := Boundary(d.buffer).value + 4 + j;
            k <= |d.buffer| && Drain(l, d.(buffer := d.buffer[..k])).Terminated?
  {
    hide Advance, Boundary;
    AdvanceShape(l, d);
    HeaderAgain(l, d, left, left.buffer[..j]);
    TakeAcross(d.buffer, Boundary(d.buffer).value + 4, j);
  }

  lemma DiesAfterMessage(l: Limits, d: Decoder, left: Decoder, j: nat)
    requires Advance(l, d).Message? && Advance(l, d).left == left
    requires j <= |left.buffer| && Drain(l, Decoder(left.buffer[..j], left.pending)).Terminated?
    ensures d.pending.Some?
    ensures var k := d.pending.value + j;
            k <= |d.buffer| && Drain(l, d.(buffer := d.buffer[..k])).Terminated?
  {
    hide Advance, Boundary;
    AdvanceShape(l, d);
    MessageAgain(l, d, left, left.buffer[..j]);
    TakeAcross(d.buffer, d.pending.value, j);
  }

  /** If some header leaves no room, the stream can be cut so that a push terminates. */
  lemma {:induction false} SomePrefixDies(l: Limits, d: Decoder) returns (k: nat)
    requires Drain(l, d).More? && !HeadersFit(l, d)
    ensures k <= |d.buffer| && Drain(l, d.(buffer := d.buffer[..k])).Terminated?
    decreases Fuel(d)
  {
    hide Advance, Boundary;
    AdvanceShape(l, d);
    match Advance(l, d) {
      case Header(_, left) =>
        if Boundary(d.buffer).value + 3 > l.maximumHeaderBytes {
          LongHeaderDies(l, d);
          k := l.maximumHeaderBytes + 1;
        } else {
          var j := SomePrefixDies(l, left);
          DiesAfterHeader(l, d, left, j);
          k := Boundary(d.buffer).value + 4 + j;
        }
      case Message(_, left) =>
        var j := SomePrefixDies(l, left);
        DiesAfterMessage(l, d, left, j);
        k := d.pending.value + j;
    }
  }

  lemma MessageAgain(l: Limits, d: Decoder, left: Decoder, rest: seq<byte>)
    requires Advance(l, d).Message? && Advance(l, d).left == left
    ensures Advance(l, d.(buffer := d.buffer[..d.pending.value] + rest)) ==
            Message(Advance(l, d).envelope, Decoder(rest, None))
  {
    var n := d.pending.value;
    var b := d.buffer[..n] + rest;
    assert b[..n] == d.buffer[..n] && b[n..] == rest;
    hide ValidateBody;
  }

  lemma HeaderAgain(l: Limits, d: Decoder, left: Decoder, rest: seq<byte>)
    requires Advance(l, d).Header? && Advance(l, d).left == left
    ensures var i := Boundary(d.buffer).value;
            Advance(l, d.(buffer := d.buffer[..i + 4] + rest)) == Header(left.pending.value, Decoder(rest, left.pending))
  {
    var i := Boundary(d.buffer).value;
    var b := d.buffer[..i + 4] + rest;
    forall j: nat | j <= i
      ensures EndsHeader(b, j) <==> EndsHeader(d.buffer, j)
    {
      assert b[j..j + 4] == d.buffer[j..j + 4];
    }
    BoundaryIs(b, i);
    assert b[..i] == d.buffer[..i] && b[i + 4..] == rest;
  }

  /** For a stream one push decodes: every chunking decodes it to the same, exactly when every
      header is at most `maximumHeaderBytes - 3` bytes long. */
  lemma EveryChunkingSurvivesIff(l: Limits, stream: seq<byte>)
    requires Drain(l, Decoder(stream, None)).More?
    ensures HeadersFit(l, Decoder(stream, None)) <==>
            forall chunks :: Concat(chunks) == stream ==>
              PushAll(l, Decoder([], None), chunks) == Drain(l, Decoder(stream, None))
  {
    EmptyDrains(l);
    var d := Decoder([], None);
    if HeadersFit(l, Decoder(stream, None)) {
      forall chunks | Concat(chunks) == stream
        ensures PushAll(l, d, chunks) == Drain(l, Decoder(stream, None))
      {
        assert Extend(d, stream) == Decoder(stream, None) by {
          assert [] + stream == stream;
        }
        ChunkingSurvives(l, d, chunks);
        ChunkingIsOnePush(l, d, chunks);
      }
    } else {
      var k := SomePrefixDies(l, Decoder(stream, None));
      CutInTwoDies(l, stream, k);
    }
  }

  lemma CutInTwoDies(l: Limits, stream: seq<byte>, k: nat)
    requires k <= |stream| && Drain(l, Decoder(stream[..k], None)).Terminated?
    ensures Concat([stream[..k], stream[k..]]) == stream
    ensures PushAll(l, Decoder([], None), [stream[..k], stream[k..]]).Terminated?
  {
    var cut: seq<seq<byte>> := [stream[..k], stream[k..]];
    assert cut[1..] == [stream[k..]];
    assert Concat(cut[1..]) == stream[k..] by {
      assert |cut[1..][1..]| == 0;
      assert stream[k..] + [] == stream[k..];
    }
    assert [] + stream[..k] == stream[..k];
  }

  lemma {:induction false} ChunkingSurvives(l: Limits, d: Decoder, chunks: seq<seq<byte>>)
    requires Drain(l, d) == More([], d)
    requires Drain(l, Extend(d, Concat(chunks))).More? && HeadersFit(l, Extend(d, Concat(chunks)))
    ensures PushAll(l, d, chunks).More?
    decreases |chunks|
  {
    if chunks != [] {
      var here := Extend(d, chunks[0]);
      var rest := Concat(chunks[1..]);
      assert d.buffer + Concat(chunks) == d.buffer + chunks[0] + rest;
      PrefixDrains(l, here, rest);
      DrainExtend(l, here, rest);
      DrainTwice(l, here);
      FitAfter(l, here, rest);
      ChunkingSurvives(l, Drain(l, here).left, chunks[1..]);
    }
  }

  lemma {:induction false} FitAfter(l: Limits, d: Decoder, more: seq<byte>)
    requires Drain(l, d).More? && HeadersFit(l, Extend(d, more))
    ensures HeadersFit(l, Extend(Drain(l, d).left, more))
    decreases Fuel(d)
  {
    hide Advance;
    AdvanceExtend(l, d, more);
    match Advance(l, d) {
      case Wait =>
      case Header(_, left) => FitAfter(l, left, more);
      case Message(_, left) => FitAfter(l, left, more);
    }
  }

  // ---- Bounds ----

  predicate Bounded(l: Limits, d: Decoder) {
    if d.pending.None? then |d.buffer| <= l.maximumHeaderBytes
    else |d.buffer| < d.pending.value <= l.maximumMessageBytes
  }

  function Max(a: int, b: int): int { if a < b then b else a }

  predicate PendingBounded(l: Limits, d: Decoder) { d.pending.Some? ==> d.pending.value <= l.maximumMessageBytes }

  /** A push that returns leaves at most max(header limit, message limit - 1) bytes behind. */
  lemma {:induction false} ResidualBounded(l: Limits, d: Decoder)
    requires Drain(l, d).More? && PendingBounded(l, d)
    ensures Bounded(l, Drain(l, d).left)
    ensures |Drain(l, d).left.buffer| <= Max(l.maximumHeaderBytes, l.maximumMessageBytes - 1)
    decreases Fuel(d)
  {
    match Advance(l, d) {
      case Wait =>
      case Header(_, left) => ResidualBounded(l, left);
      case Message(_, left) => ResidualBounded(l, left);
    }
  }

  // ---- Round trip ----

  /** An envelope this decoder is meant to accept, rendered within its limits. */
  predicate Deliverable(l: Limits, e: Envelope) {
    var n := |l.codec.render(e)|;
    && ValidateBody(l, l.codec.render(e)) == Ok(e)
    && n <= l.maximumMessageBytes && n <= MAX_SAFE_INTEGER
    && |HeaderText(n)| + 3 <= l.maximumHeaderBytes
  }

  function Encode(l: Limits, es: seq<Envelope>): seq<byte> {
    if es == [] then [] else EncodeFrame(l, es[0]) + Encode(l, es[1..])
  }

  lemma HeaderEnds(header: seq<byte>, rest: seq<byte>)
    requires forall b :: b in header ==> b != 13
    ensures Boundary(header + CRLF2 + rest) == Some(|header|)
  {
    var all := header + CRLF2 + rest;
    assert all[|header|..|header| + 4] == CRLF2;
    forall j: nat | j < |header|
      ensures !EndsHeader(all, j)
    {
      assert header[j] in header && all[j] == header[j];
      if j + 4 <= |all| {
        assert all[j..j + 4][0] == all[j];
      }
    }
    BoundaryIs(all, |header|);
  }

  lemma EncodedHeader(l: Limits, e: Envelope, rest: seq<byte>)
    requires Deliverable(l, e)
    ensures var body := l.codec.render(e);
            var d := Decoder(EncodeFrame(l, e) + rest, None);
            Advance(l, d) == Header(|body|, Decoder(body + rest, Some(|body|))) &&
            Boundary(d.buffer).value + 3 <= l.maximumHeaderBytes
  {
    var body := l.codec.render(e);
    var header := Bytes(HeaderText(|body|));
    var buffer := EncodeFrame(l, e) + rest;
    assert buffer == header + CRLF2 + (body + rest);
    HeaderHasNoCr(|body|);
    HeaderEnds(header, body + rest);
    EncodedLength(|body|, l.maximumMessageBytes);
    hide FrameLength, HeaderText, Boundary, ValidateBody, Bytes, EncodeFrame;
    assert buffer[..|header|] == header;
    assert buffer[|header| + 4..] == body + rest;
  }

  lemma HeaderHasNoCr(n: nat)
    ensures forall b :: b in Bytes(HeaderText(n)) ==> b != 13
    ensures |Bytes(HeaderText(n))| == |HeaderText(n)|
  {
    var text := HeaderText(n);
    hide HeaderText;
    var header := Bytes(text);
    forall i | 0 <= i < |header|
      ensures header[i] != 13
    {
      assert text[i] in text;
    }
  }

  lemma EncodedBody(l: Limits, e: Envelope, rest: seq<byte>)
    requires Deliverable(l, e)
    ensures var body := l.codec.render(e);
            Advance(l, Decoder(body + rest, Some(|body|))) == Message(e, Decoder(rest, None))
  {
    var body := l.codec.render(e);
    assert (body + rest)[..|body|] == body && (body + rest)[|body|..] == rest;
    hide ValidateBody, HeaderText;
  }

  lemma FrameDecodes(l: Limits, e: Envelope, rest: seq<byte>)
    requires Deliverable(l, e)
    ensures Drain(l, Decoder(EncodeFrame(l, e) + rest, None)) == Before([e], Drain(l, Decoder(rest, None)))
    ensures HeadersFit(l, Decoder(EncodeFrame(l, e) + rest, None)) == HeadersFit(l, Decoder(rest, None))
  {
    EncodedHeader(l, e, rest);
    EncodedBody(l, e, rest);
    hide Advance, Deliverable, EncodeFrame, Boundary;
    var body := l.codec.render(e);
    var d1 := Decoder(body + rest, Some(|body|));
    assert Drain(l, d1) == Before([e], Drain(l, Decoder(rest, None)));
    assert HeadersFit(l, d1) == HeadersFit(l, Decoder(rest, None));
  }

  /** Encoded valid envelopes decode back, in order, whatever chunks their bytes arrive in. */
  lemma {:induction false} EncodedDecodes(l: Limits, es: seq<Envelope>)
    requires forall e :: e in es ==> Deliverable(l, e)
    ensures Drain(l, Decoder(Encode(l, es), None)) == More(es, Decoder([], None))
    ensures HeadersFit(l, Decoder(Encode(l, es), None))
    decreases |es|
  {
    hide Advance;
    if es == [] {
      EmptyDrains(l);
      EmptyFits(l);
    } else {
      EncodedDecodes(l, es[1..]);
      FrameDecodes(l, es[0], Encode(l, es[1..]));
      assert [es[0]] + es[1..] == es;
    }
  }

  lemma EmptyFits(l: Limits)
    ensures HeadersFit(l, Decoder([], None))
  {
    var none: seq<byte> := [];
    assert Boundary(none) == None;
  }

  lemma RoundTripAnyChunks(l: Limits, es: seq<Envelope>, chunks: seq<seq<byte>>)
    requires forall e :: e in es ==> Deliverable(l, e)
    requires Concat(chunks) == Encode(l, es)
    ensures PushAll(l, Decoder([], None), chunks) == More(es, Decoder([], None))
  {
    EncodedDecodes(l, es);
    EveryChunkingSurvivesIff(l, Encode(l, es));
  }

  // ---- A header within three bytes of the limit ----

  const TIGHT_ENVELOPE := Envelope("m", "c", "w", None, 0, "", "")

  /** A codec for one envelope, and a header limit of exactly the bytes of its header. */
  function TightLimits(): Limits {
    Limits(Codec(_ => Some(TIGHT_ENVELOPE), _ => [123, 125], _ => true, _ => ""), "w", 17, 2)
  }

  lemma TightHeader()
    ensures |Bytes(HeaderText(2))| == 17
    ensures EncodeFrame(TightLimits(), TIGHT_ENVELOPE) == Bytes(HeaderText(2)) + CRLF2 + [123, 125]
  {
    HeaderHasNoCr(2);
    assert Decimal(2) == ['2'];
    assert |LENGTH_PREFIX| == 16;
  }

  lemma HeaderIsRead(l: Limits, header: seq<byte>, n: nat, body: seq<byte>)
    requires (forall b :: b in header ==> b != 13) && |header| <= l.maximumHeaderBytes
    requires FrameLength(header, l.maximumMessageBytes) == Ok(n)
    ensures Advance(l, Decoder(header + CRLF2 + body, None)) == Header(n, Decoder(body, Some(n)))
  {
    hide FrameLength, ValidateBody, Boundary;
    HeaderEnds(header, body);
    var frame := header + CRLF2 + body;
    assert frame[..|header|] == header && frame[|header| + 4..] == body;
  }

  lemma TightHeaderIsRead(body: seq<byte>)
    ensures Advance(TightLimits(), Decoder(Bytes(HeaderText(2)) + CRLF2 + body, None)) == Header(2, Decoder(body, Some(2)))
  {
    hide FrameLength, HeaderText, Bytes, EncodeFrame, Advance;
    TightHeader();
    HeaderHasNoCr(2);
    EncodedLength(2, 2);
    HeaderIsRead(TightLimits(), Bytes(HeaderText(2)), 2, body);
  }

  lemma TightBodyIsRead()
    ensures Advance(TightLimits(), Decoder([123, 125], Some(2))) == Message(TIGHT_ENVELOPE, Decoder([], None))
  {
    var body: seq<byte> := [123, 125];
    assert body[..2] == body && body[2..] == [];
  }

  lemma TightWholeDecodes()
    ensures Drain(TightLimits(), Decoder(EncodeFrame(TightLimits(), TIGHT_ENVELOPE), None))
            == More([TIGHT_ENVELOPE], Decoder([], None))
  {
    TightHeader();
    TightHeaderIsRead([123, 125]);
    TightBodyIsRead();
    EmptyDrains(TightLimits());
    hide Advance, HeaderText, Bytes, EncodeFrame, TightLimits;
    assert [TIGHT_ENVELOPE] + [] == [TIGHT_ENVELOPE];
  }

  /** The header and one byte of what ends it. */
  lemma TightCutFails(first: seq<byte>)
    requires |first| == 18 && forall j :: 0 <= j < 17 ==> first[j] != 13
    ensures Drain(TightLimits(), Decoder(first, None))
            == Terminated("VES_DRIVER_FRAME_HEADER_LIMIT", [], Decoder(first, None))
  {
    forall j: nat | j + 4 <= 18
      ensures !EndsHeader(first, j)
    {
      assert first[j..j + 4][0] == first[j] != 13;
    }
    assert Boundary(first) == None;
    hide FrameLength, ValidateBody;
    assert Advance(TightLimits(), Decoder(first, None)) == Fail("VES_DRIVER_FRAME_HEADER_LIMIT", Decoder(first, None));
    FailDrains(TightLimits(), Decoder(first, None));
  }

  lemma TightBytes(stream: seq<byte>, header: seq<byte>)
    requires |header| == 17 && stream == header + CRLF2 + [123, 125] && forall b :: b in header ==> b != 13
    ensures |stream| == 23 && forall j :: 0 <= j < 17 ==> stream[..18][j] != 13
  {
    assert forall j :: 0 <= j < 17 ==> stream[..18][j] == header[j] && header[j] in header;
  }

  lemma FirstChunkDies(l: Limits, a: seq<byte>, b: seq<byte>)
    requires Drain(l, Decoder(a, None)).Terminated?
    ensures PushAll(l, Decoder([], None), [a, b]) == Drain(l, Decoder(a, None))
  {
    hide Drain;
    assert [] + a == a;
  }

  /** Decoded in one push, and refused when cut inside the four bytes that end its header. */
  lemma TightHeaderCanDie()
    ensures var l, stream := TightLimits(), EncodeFrame(TightLimits(), TIGHT_ENVELOPE);
            && |stream| > 18
            && Drain(l, Decoder(stream, None)) == More([TIGHT_ENVELOPE], Decoder([], None))
            && PushAll(l, Decoder([], None), [stream[..18], stream[18..]])
               == Terminated("VES_DRIVER_FRAME_HEADER_LIMIT", [], Decoder(stream[..18], None))
  {
    hide HeaderText, Bytes, EncodeFrame, Drain, TightLimits, PushAll;
    var l, stream := TightLimits(), EncodeFrame(TightLimits(), TIGHT_ENVELOPE);
    TightHeader();
    TightWholeDecodes();
    HeaderHasNoCr(2);
    TightBytes(stream, Bytes(HeaderText(2)));
    TightCutFails(stream[..18]);
    FirstChunkDies(l, stream[..18], stream[18..]);
  }

  lemma FailDrains(l: Limits, d: Decoder)
    requires Advance(l, d).Fail?
    ensures Drain(l, d) == Terminated(Advance(l, d).code, [], Advance(l, d).left)
  {
  }
}
