/** The exactly-once guard over message identities and sequence numbers, and the
    host adapter that puts it behind the frame decoder. */
module SequenceGuard {
  import opened Results
  import opened Text
  import opened DriverFrames
  import opened FrameDecoder

  /** Next expected sequence, and the payload digest recorded for each message identity. */
  datatype Guard = Guard(nextSequence: nat, messages: map<string, string>)

  const NEW_GUARD := Guard(0, map[])

  datatype Verdict = Accepted(guard: Guard) | Duplicate | Refused(code: string)

  function Accept(g: Guard, e: Envelope): Verdict {
    if e.messageId in g.messages then
      if g.messages[e.messageId] != e.payloadDigest then Refused("VES_DRIVER_MESSAGE_CONFLICT") else Duplicate
    else if e.sequence != g.nextSequence then Refused("VES_DRIVER_SEQUENCE_GAP")
    else Accepted(Guard(g.nextSequence + 1, g.messages[e.messageId := e.payloadDigest]))
  }

  class SequenceGuard {
    var nextSequence: nat
    var messages: map<string, string>

    function State(): Guard
      reads this
    {
      Guard(nextSequence, messages)
    }

    constructor ()
      ensures State() == NEW_GUARD
    {
      nextSequence, messages := 0, map[];
    }

    method AcceptEnvelope(e: Envelope) returns (verdict: Verdict)
      modifies this
      ensures verdict == Accept(old(State()), e)
      ensures State() == if verdict.Accepted? then verdict.guard else old(State())
    {
      if e.messageId in messages {
        if messages[e.messageId] != e.payloadDigest {
          return Refused("VES_DRIVER_MESSAGE_CONFLICT");
        }
        return Duplicate;
      }
      if e.sequence != nextSequence {
        return Refused("VES_DRIVER_SEQUENCE_GAP");
      }
      messages := messages[e.messageId := e.payloadDigest];
      nextSequence := nextSequence + 1;
      return Accepted(State());
    }
  }

  // ---- A whole stream through the guard ----

  datatype Fed = Passed(out: seq<Envelope>, guard: Guard) | Rejected(code: string, guard: Guard)

  function Feed(g: Guard, es: seq<Envelope>): Fed {
    if es == [] then Passed([], g)
    else
      match Feed(g, es[..|es| - 1])
      case Rejected(code, g') => Rejected(code, g')
      case Passed(out, g') =>
        var e := es[|es| - 1];
        match Accept(g', e)
        case Accepted(g'') => Passed(out + [e], g'')
        case Duplicate => Passed(out, g')
        case Refused(code) => Rejected(code, g')
  }

  lemma {:induction false} FeedConcat(g: Guard, a: seq<Envelope>, b: seq<Envelope>)
    ensures match Feed(g, a)
            case Rejected(_, _) => Feed(g, a + b) == Feed(g, a)
            case Passed(out, g') =>
              (match Feed(g', b)
               case Rejected(code, g'') => Feed(g, a + b) == Rejected(code, g'')
               case Passed(more, g'') => Feed(g, a + b) == Passed(out + more, g''))
    decreases |b|
  {
    if b == [] {
      assert a + b == a;
      if Feed(g, a).Passed? {
        assert Feed(g, a).out + [] == Feed(g, a).out;
      }
    } else {
      var n := |b| - 1;
      assert (a + b)[..|a + b| - 1] == a + b[..n];
      hide Accept;
      FeedConcat(g, a, b[..n]);
    }
  }

  /** Sequences contiguous from zero, identities distinct. */
  predicate Numbered(es: seq<Envelope>) {
    && (forall i :: 0 <= i < |es| ==> es[i].sequence == i)
    && (forall i, j :: 0 <= i < j < |es| ==> es[i].messageId != es[j].messageId)
  }

  predicate Repeats(e: Envelope, original: Envelope) {
    e.messageId == original.messageId && e.payloadDigest == original.payloadDigest
  }

  /** `stream` is `original` with repeats of already sent messages inserted anywhere. */
  predicate Retransmits(original: seq<Envelope>, stream: seq<Envelope>)
    decreases |stream|
  {
    if stream == [] then original == []
    else
      var init, last := stream[..|stream| - 1], stream[|stream| - 1];
      || (original != [] && original[|original| - 1] == last && Retransmits(original[..|original| - 1], init))
      || ((exists e :: e in original && Repeats(last, e)) && Retransmits(original, init))
  }

  /** What the guard remembers after passing `out`. */
  ghost predicate Remembers(g: Guard, out: seq<Envelope>) {
    && g.nextSequence == |out|
    && (forall e :: e in out ==> e.messageId in g.messages && g.messages[e.messageId] == e.payloadDigest)
    && (forall id :: id in g.messages ==> exists e :: e in out && e.messageId == id)
  }

  lemma AcceptRemembers(g: Guard, out: seq<Envelope>, e: Envelope)
    requires Remembers(g, out) && Numbered(out)
    ensures Accept(g, e).Accepted? <==> e.sequence == |out| && forall x :: x in out ==> x.messageId != e.messageId
    ensures Accept(g, e).Accepted? ==> Remembers(Accept(g, e).guard, out + [e]) && Numbered(out + [e])
    ensures Accept(g, e) == Duplicate <==> exists x :: x in out && Repeats(e, x)
  {
    if Accept(g, e).Accepted? {
      assert e in out + [e];
    }
    if x :| x in out && Repeats(e, x) {
      assert e.messageId in g.messages;
    }
    if e.messageId in g.messages {
      var x :| x in out && x.messageId == e.messageId;
    }
  }

  lemma {:induction false} FeedIsRetransmission(stream: seq<Envelope>)
    requires Feed(NEW_GUARD, stream).Passed?
    ensures var r := Feed(NEW_GUARD, stream);
            Numbered(r.out) && Remembers(r.guard, r.out) && Retransmits(r.out, stream)
    decreases |stream|
  {
    if stream != [] {
      var init, e := stream[..|stream| - 1], stream[|stream| - 1];
      FeedIsRetransmission(init);
      var before := Feed(NEW_GUARD, init);
      AcceptRemembers(before.guard, before.out, e);
      hide Accept, Remembers, Numbered;
      if Accept(before.guard, e).Accepted? {
        var out := before.out + [e];
        assert out[..|out| - 1] == before.out;
      }
    }
  }

  lemma {:induction false} RetransmissionIsFed(original: seq<Envelope>, stream: seq<Envelope>)
    requires Numbered(original) && Retransmits(original, stream)
    ensures Feed(NEW_GUARD, stream).Passed? && Feed(NEW_GUARD, stream).out == original
    ensures Remembers(Feed(NEW_GUARD, stream).guard, original)
    decreases |stream|
  {
    hide Accept, Remembers, Numbered;
    if stream == [] {
      NothingFed();
    } else {
      var init, e := stream[..|stream| - 1], stream[|stream| - 1];
      if original != [] && original[|original| - 1] == e && Retransmits(original[..|original| - 1], init) {
        var sent := original[..|original| - 1];
        assert original == sent + [e];
        NotSentBefore(sent, e);
        RetransmissionIsFed(sent, init);
        AcceptRemembers(Feed(NEW_GUARD, init).guard, sent, e);
      } else {
        RetransmissionIsFed(original, init);
        AcceptRemembers(Feed(NEW_GUARD, init).guard, original, e);
      }
    }
  }

  lemma NothingFed()
    ensures Remembers(NEW_GUARD, [])
  {
  }

  lemma NotSentBefore(sent: seq<Envelope>, e: Envelope)
    requires Numbered(sent + [e])
    ensures Numbered(sent) && e.sequence == |sent| && forall x :: x in sent ==> x.messageId != e.messageId
  {
    var all := sent + [e];
    assert forall i :: 0 <= i < |sent| ==> all[i] == sent[i];
    assert all[|sent|] == e;
    forall x | x in sent
      ensures x.messageId != e.messageId
    {
      var i :| 0 <= i < |sent| && sent[i] == x;
      assert all[i].messageId != all[|sent|].messageId;
    }
  }

  /** The guard passes a stream with output `out` exactly when `out` is numbered from zero with
      distinct identities and the stream is `out` with repeats of sent messages inserted. */
  lemma ExactlyOnceIff(stream: seq<Envelope>, out: seq<Envelope>)
    ensures (Feed(NEW_GUARD, stream).Passed? && Feed(NEW_GUARD, stream).out == out) <==>
            Numbered(out) && Retransmits(out, stream)
  {
    if Feed(NEW_GUARD, stream).Passed? {
      FeedIsRetransmission(stream);
    }
    if Numbered(out) && Retransmits(out, stream) {
      RetransmissionIsFed(out, stream);
    }
  }

  // ---- The host adapter ----

  datatype Delivery = Delivered(envelopes: seq<Envelope>) | HostDied(code: string)

  class HostAdapter {
    const decoder: FrameDecoder
    const guard: SequenceGuard

    constructor (limits: Limits)
      ensures fresh(decoder) && fresh(guard) && decoder.limits == limits
      ensures decoder.State() == Decoder([], None) && guard.State() == NEW_GUARD
    {
      decoder := new FrameDecoder(limits);
      guard := new SequenceGuard();
    }

    /** Decodes the chunk, then keeps the envelopes the guard accepts. */
    method Push(chunk: seq<byte>) returns (delivery: Delivery)
      modifies decoder, guard
      ensures var r := Drain(decoder.limits, Decoder(old(decoder.buffer) + chunk, old(decoder.pendingLength)));
              decoder.State() == r.left &&
              (match r
               case Terminated(code, _, _) => delivery == HostDied(code) && guard.State() == old(guard.State())
               case More(messages, _) =>
                 (match Feed(old(guard.State()), messages)
                  case Passed(out, g) => delivery == Delivered(out) && guard.State() == g
                  case Rejected(code, g) => delivery == HostDied(code) && guard.State() == g))
    {
      hide Drain, Accept;
      var pushed := decoder.Push(chunk);
      if pushed.Died? {
        return HostDied(pushed.code);
      }
      var es := pushed.envelopes;
      ghost var start := guard.State();
      var out := [];
      var i := 0;
      while i < |es|
        invariant 0 <= i <= |es|
        invariant Feed(start, es[..i]) == Passed(out, guard.State())
        modifies guard
      {
        assert es[..i + 1][..i] == es[..i];
        var verdict := guard.AcceptEnvelope(es[i]);
        if verdict.Refused? {
          assert es == es[..i + 1] + es[i + 1..];
          FeedConcat(start, es[..i + 1], es[i + 1..]);
          return HostDied(verdict.code);
        }
        if verdict.Accepted? {
          out := out + [es[i]];
        }
        i := i + 1;
      }
      assert es[..|es|] == es;
      return Delivered(out);
    }
  }

  /** Everything a host delivers over a sequence of pushes, until one ends it. */
  function HostRun(l: Limits, d: Decoder, g: Guard, chunks: seq<seq<byte>>): Delivery
    decreases |chunks|
  {
    if chunks == [] then Delivered([])
    else
      match Drain(l, Extend(d, chunks[0]))
      case Terminated(code, _, _) => HostDied(code)
      case More(messages, left) =>
        match Feed(g, messages)
        case Rejected(code, _) => HostDied(code)
        case Passed(out, g') =>
          match HostRun(l, left, g', chunks[1..])
          case HostDied(code) => HostDied(code)
          case Delivered(rest) => Delivered(out + rest)
  }

  lemma {:induction false} HostRunFeeds(l: Limits, d: Decoder, g: Guard, chunks: seq<seq<byte>>)
    requires PushAll(l, d, chunks).More? && Feed(g, PushAll(l, d, chunks).messages).Passed?
    ensures HostRun(l, d, g, chunks) == Delivered(Feed(g, PushAll(l, d, chunks).messages).out)
    decreases |chunks|
  {
    hide Drain, Accept;
    if chunks != [] {
      var first := Drain(l, Extend(d, chunks[0]));
      var rest := PushAll(l, first.left, chunks[1..]).messages;
      FeedConcat(g, first.messages, rest);
      HostRunFeeds(l, first.left, Feed(g, first.messages).guard, chunks[1..]);
    }
  }

  /** End to end: a numbered stream sent as frames, with any repeats of sent messages inserted and
      cut into any chunks, is delivered once each, in order. */
  lemma DeliveredExactlyOnce(l: Limits, original: seq<Envelope>, stream: seq<Envelope>, chunks: seq<seq<byte>>)
    requires Numbered(original) && Retransmits(original, stream)
    requires forall e :: e in stream ==> Deliverable(l, e)
    requires Concat(chunks) == Encode(l, stream)
    ensures HostRun(l, Decoder([], None), NEW_GUARD, chunks) == Delivered(original)
  {
    RoundTripAnyChunks(l, stream, chunks);
    RetransmissionIsFed(original, stream);
    HostRunFeeds(l, Decoder([], None), NEW_GUARD, chunks);
  }

  /** Whatever bytes arrive in whatever chunks, what a host delivers is numbered from zero
      without gaps and holds no identity twice. */
  lemma DeliveriesAreNumbered(l: Limits, chunks: seq<seq<byte>>)
    requires HostRun(l, Decoder([], None), NEW_GUARD, chunks).Delivered?
    ensures Numbered(HostRun(l, Decoder([], None), NEW_GUARD, chunks).envelopes)
  {
    DeliveredIsFed(l, Decoder([], None), NEW_GUARD, chunks);
    FeedIsRetransmission(PushAll(l, Decoder([], None), chunks).messages);
  }

  lemma {:induction false} DeliveredIsFed(l: Limits, d: Decoder, g: Guard, chunks: seq<seq<byte>>)
    requires HostRun(l, d, g, chunks).Delivered?
    ensures PushAll(l, d, chunks).More? && Feed(g, PushAll(l, d, chunks).messages).Passed?
    ensures HostRun(l, d, g, chunks).envelopes == Feed(g, PushAll(l, d, chunks).messages).out
    decreases |chunks|
  {
    hide Drain, Accept;
    if chunks != [] {
      var first := Drain(l, Extend(d, chunks[0]));
      DeliveredIsFed(l, first.left, Feed(g, first.messages).guard, chunks[1..]);
      FeedConcat(g, first.messages, PushAll(l, first.left, chunks[1..]).messages);
    }
  }
}
