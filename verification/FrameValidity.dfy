/** Which frames a decoder accepts: the headers it reads a length from, and the bodies
    it lets through. Nothing else is ever emitted or delivered. */
module FrameValidity {
  import opened Results
  import opened Text
  import opened DriverFrames
  import opened FrameDecoder
  import opened SequenceGuard

  // ---- Bodies ----

  /** Well formed, of this workspace, and with the digest of its own payload. */
  predicate Genuine(l: Limits, e: Envelope) {
    l.codec.wellFormed(e) && e.workspaceId == l.workspaceId && e.payloadDigest == l.codec.digest(e.payload)
  }

  /** A body is accepted exactly as the genuine envelope it parses to; the first thing wrong names the error. */
  lemma BodyIsAcceptedIff(l: Limits, body: seq<byte>)
    ensures forall e :: ValidateBody(l, body) == Ok(e) <==> l.codec.parse(body) == Some(e) && Genuine(l, e)
    ensures l.codec.parse(body) == None ==> ValidateBody(l, body) == Err("VES_DRIVER_FRAME_JSON_INVALID")
    ensures l.codec.parse(body).Some? && !Genuine(l, l.codec.parse(body).value) ==>
              var e := l.codec.parse(body).value;
              ValidateBody(l, body) == Err(
                if !l.codec.wellFormed(e) then "VES_DRIVER_ENVELOPE_INVALID"
                else if e.workspaceId != l.workspaceId then "VES_DRIVER_ENVELOPE_WORKSPACE"
                else "VES_DRIVER_ENVELOPE_DIGEST")
  {
  }

  /** Some stretch of the stream is a body that parses to this envelope. */
  ghost predicate BodyIn(l: Limits, stream: seq<byte>, e: Envelope) {
    exists i, j :: 0 <= i <= j <= |stream| && l.codec.parse(stream[i..j]) == Some(e)
  }

  ghost predicate AllGenuine(l: Limits, stream: seq<byte>, es: seq<Envelope>) {
    forall e :: e in es ==> Genuine(l, e) && BodyIn(l, stream, e)
  }

  lemma BodyInLater(l: Limits, before: seq<byte>, stream: seq<byte>, after: seq<byte>, e: Envelope)
    requires BodyIn(l, stream, e)
    ensures BodyIn(l, before + stream + after, e)
  {
    var i, j :| 0 <= i <= j <= |stream| && l.codec.parse(stream[i..j]) == Some(e);
    assert (before + stream + after)[|before| + i..|before| + j] == stream[i..j];
  }

  lemma AllGenuineLater(l: Limits, before: seq<byte>, stream: seq<byte>, after: seq<byte>, es: seq<Envelope>)
    requires AllGenuine(l, stream, es)
    ensures AllGenuine(l, before + stream + after, es)
  {
    hide Genuine, BodyIn;
    forall e | e in es
      ensures BodyIn(l, before + stream + after, e)
    {
      BodyInLater(l, before, stream, after, e);
    }
  }

  /** A step leaves the end of the buffer, and a message it yields is a genuine body from its beginning. */
  lemma StepLeavesEnd(l: Limits, d: Decoder) returns (k: nat)
    ensures k <= |d.buffer|
    ensures match Advance(l, d)
            case Wait => k == 0
            case Fail(_, left) => left.buffer == d.buffer[k..]
            case Header(_, left) => left.buffer == d.buffer[k..]
            case Message(e, left) => left.buffer == d.buffer[k..] && AllGenuine(l, d.buffer, [e])
  {
    k := 0;
    if d.pending.None? {
      if Boundary(d.buffer).Some? && Advance(l, d).Header? {
        k := Boundary(d.buffer).value + 4;
      }
    } else if |d.buffer| >= d.pending.value {
      k := d.pending.value;
      BodyIsAcceptedIff(l, d.buffer[..k]);
      assert d.buffer[..k] == d.buffer[0..k];
    }
  }

  lemma {:induction false} DrainedAreGenuine(l: Limits, d: Decoder) returns (k: nat)
    ensures AllGenuine(l, d.buffer, Decoded(Drain(l, d)))
    ensures k <= |d.buffer| && Drain(l, d).left.buffer == d.buffer[k..]
    decreases Fuel(d)
  {
    hide Advance, AllGenuine;
    k := StepLeavesEnd(l, d);
    match Advance(l, d) {
      case Wait => NoneGenuine(l, d.buffer);
      case Fail(_, _) => NoneGenuine(l, d.buffer);
      case Header(_, left) =>
        var j := DrainedAreGenuine(l, left);
        AllGenuineLater(l, d.buffer[..k], left.buffer, [], Decoded(Drain(l, left)));
        assert d.buffer[..k] + left.buffer + [] == d.buffer && d.buffer[k..][j..] == d.buffer[k + j..];
        k := k + j;
      case Message(e, left) =>
        var j := DrainedAreGenuine(l, left);
        AllGenuineLater(l, d.buffer[..k], left.buffer, [], Decoded(Drain(l, left)));
        assert d.buffer[..k] + left.buffer + [] == d.buffer && d.buffer[k..][j..] == d.buffer[k + j..];
        JoinGenuine(l, d.buffer, [e], Decoded(Drain(l, left)));
        k := k + j;
    }
  }

  lemma NoneGenuine(l: Limits, stream: seq<byte>)
    ensures AllGenuine(l, stream, [])
  {
  }

  lemma JoinGenuine(l: Limits, stream: seq<byte>, a: seq<Envelope>, b: seq<Envelope>)
    requires AllGenuine(l, stream, a) && AllGenuine(l, stream, b)
    ensures AllGenuine(l, stream, a + b)
  {
    hide Genuine, BodyIn;
  }

  /** What one chunk adds, in the stream that goes on. */
  lemma ChunkIsGenuine(l: Limits, d: Decoder, chunks: seq<seq<byte>>) returns (k: nat)
    requires chunks != []
    ensures AllGenuine(l, d.buffer + Concat(chunks), Decoded(Drain(l, Extend(d, chunks[0]))))
    ensures k <= |Extend(d, chunks[0]).buffer|
    ensures Drain(l, Extend(d, chunks[0])).More? ==>
              d.buffer + Concat(chunks)
              == Extend(d, chunks[0]).buffer[..k] + (Drain(l, Extend(d, chunks[0])).left.buffer + Concat(chunks[1..]))
  {
    hide Drain, AllGenuine;
    var first := Extend(d, chunks[0]);
    k := DrainedAreGenuine(l, first);
    AllGenuineLater(l, [], first.buffer, Concat(chunks[1..]), Decoded(Drain(l, first)));
    assert [] + first.buffer + Concat(chunks[1..]) == d.buffer + Concat(chunks);
    if Drain(l, first).More? {
      assert first.buffer[..k] + first.buffer[k..] == first.buffer;
    }
  }

  /** Over any chunks: everything emitted, also what is lost when the host dies, is a genuine body that
      stands in the bytes received. */
  lemma {:induction false} EmittedAreGenuine(l: Limits, d: Decoder, chunks: seq<seq<byte>>)
    ensures AllGenuine(l, d.buffer + Concat(chunks), Decoded(PushAll(l, d, chunks)))
    decreases |chunks|
  {
    hide Drain, AllGenuine, Extend, Concat;
    if chunks == [] {
      NoneGenuine(l, d.buffer + Concat(chunks));
    } else {
      var k := ChunkIsGenuine(l, d, chunks);
      var first := Extend(d, chunks[0]);
      if Drain(l, first).More? {
        var left := Drain(l, first).left;
        EmittedAreGenuine(l, left, chunks[1..]);
        var before, rest := first.buffer[..k], left.buffer + Concat(chunks[1..]);
        AllGenuineLater(l, before, rest, [], Decoded(PushAll(l, left, chunks[1..])));
        assert before + rest + [] == before + rest;
        JoinGenuine(l, before + rest, Drain(l, first).messages, Decoded(PushAll(l, left, chunks[1..])));
      }
    }
  }

  lemma {:induction false} FedComesFrom(g: Guard, es: seq<Envelope>)
    ensures Feed(g, es).Passed? ==> forall e :: e in Feed(g, es).out ==> e in es
    decreases |es|
  {
    hide Accept;
    if es != [] {
      FedComesFrom(g, es[..|es| - 1]);
      assert es == es[..|es| - 1] + [es[|es| - 1]];
    }
  }

  /** Everything a host adapter delivers over any chunks is a genuine body from the bytes it received. */
  lemma DeliveredAreGenuine(l: Limits, chunks: seq<seq<byte>>)
    requires HostRun(l, Decoder([], None), NEW_GUARD, chunks).Delivered?
    ensures AllGenuine(l, Concat(chunks), HostRun(l, Decoder([], None), NEW_GUARD, chunks).envelopes)
  {
    DeliveredIsFed(l, Decoder([], None), NEW_GUARD, chunks);
    EmittedAreGenuine(l, Decoder([], None), chunks);
    hide HostRun, PushAll, Feed, Genuine, BodyIn;
    assert [] + Concat(chunks) == Concat(chunks);
    FedComesFrom(NEW_GUARD, PushAll(l, Decoder([], None), chunks).messages);
  }

  /** A complete body that is not a genuine envelope ends the decoder there and then. */
  lemma OtherBodiesEnd(l: Limits, d: Decoder)
    requires d.pending.Some? && |d.buffer| >= d.pending.value
    requires forall e :: l.codec.parse(d.buffer[..d.pending.value]) == Some(e) ==> !Genuine(l, e)
    ensures var r := Drain(l, d);
            r.Terminated? && r.lost == [] && r.left == Decoder(d.buffer[d.pending.value..], None)
  {
    BodyIsAcceptedIff(l, d.buffer[..d.pending.value]);
    hide ValidateBody, Genuine;
  }

  // ---- Headers ----

  /** A blank, a tab, or the end of a line or page. */
  predicate BlankChar(c: char) { 9 <= c as int <= 13 || c as int == 32 }

  predicate Blank(s: string) { forall c :: c in s ==> BlankChar(c) }

  lemma BlankIff(c: char)
    ensures IsSpace(c) <==> BlankChar(c)
  {
    assert '\t' as int == 9 && '\n' as int == 10 && '\r' as int == 13 && ' ' as int == 32;
  }

  predicate BreaksAt(text: string, i: nat) { i + 1 < |text| && text[i] == '\r' && text[i + 1] == '\n' }

  predicate OneLine(text: string) { forall i: nat | i < |text| :: !BreaksAt(text, i) }

  lemma {:induction false} OneLineIff(text: string)
    ensures OneLine(text) <==> |Lines(text)| == 1
    ensures OneLine(text) ==> Lines(text) == [text]
    decreases |text|
  {
    if |text| >= 2 && text[0] == '\r' && text[1] == '\n' {
      assert |Lines(text)| == 1 + |Lines(text[2..])|;
      assert BreaksAt(text, 0);
    } else if text != [] {
      OneLineIff(text[1..]);
      assert text == [text[0]] + text[1..];
      forall i: nat | i < |text[1..]|
        ensures BreaksAt(text[1..], i) <==> BreaksAt(text, i + 1)
      {
      }
      assert !BreaksAt(text, 0);
      if !OneLine(text) {
        var i: nat :| i < |text| && BreaksAt(text, i);
        assert BreaksAt(text[1..], i - 1);
      }
    }
  }

  lemma {:induction false} TrimStartHolds(s: string) returns (a: string)
    ensures Blank(a) && s == a + TrimStart(s)
    ensures TrimStart(s) != [] ==> !IsSpace(TrimStart(s)[0])
  {
    a := [];
    if s != [] && IsSpace(s[0]) {
      var rest := TrimStartHolds(s[1..]);
      a := [s[0]] + rest;
    }
  }

  lemma {:induction false} TrimEndHolds(s: string) returns (b: string)
    ensures Blank(b) && s == TrimEnd(s) + b
    ensures TrimEnd(s) != [] ==> !IsSpace(TrimEnd(s)[|TrimEnd(s)| - 1])
  {
    b := [];
    if s != [] && IsSpace(s[|s| - 1]) {
      var rest := TrimEndHolds(s[..|s| - 1]);
      b := rest + [s[|s| - 1]];
    }
  }

  lemma {:induction false} TrimStartBlank(a: string, s: string)
    requires Blank(a) && s != [] && !IsSpace(s[0])
    ensures TrimStart(a + s) == s
  {
    if a == [] {
      assert a + s == s;
    } else {
      assert a[0] in a && (a + s)[1..] == a[1..] + s;
      TrimStartBlank(a[1..], s);
    }
  }

  lemma {:induction false} TrimEndBlank(s: string, b: string)
    requires Blank(b) && s != [] && !IsSpace(s[|s| - 1])
    ensures TrimEnd(s + b) == s
    decreases |b|
  {
    if b == [] {
      assert s + b == s;
    } else {
      assert b[|b| - 1] in b && (s + b)[..|s + b| - 1] == s + b[..|b| - 1];
      TrimEndBlank(s, b[..|b| - 1]);
    }
  }

  lemma {:induction false} DecimalNonZero(s: string)
    requires s != [] && Every(s, IsDigit) && s[0] != '0'
    ensures DecimalValue(s) >= 1
    decreases |s|
  {
    assert s[|s| - 1] in s;
    if |s| > 1 {
      DecimalNonZero(s[..|s| - 1]);
    }
  }

  lemma LongIsTenOrMore(s: string)
    requires IsDecimal(s) && |s| > 1
    ensures IsDecimal(s[..|s| - 1]) && DecimalValue(s) >= 10
  {
    assert s[|s| - 1] in s;
    DecimalNonZero(s[..|s| - 1]);
  }

  lemma ShortIsBelowTen(s: string)
    requires IsDecimal(s) && |s| == 1
    ensures DecimalValue(s) == s[0] as int - '0' as int < 10
  {
    assert s[0] in s && s[..0] == [];
  }

  /** A number has one decimal text. */
  lemma {:induction false} DecimalIsUnique(s: string, t: string)
    requires IsDecimal(s) && IsDecimal(t) && DecimalValue(s) == DecimalValue(t)
    ensures s == t
    decreases |s|
  {
    if |s| == 1 || |t| == 1 {
      if |s| > 1 {
        LongIsTenOrMore(s);
        ShortIsBelowTen(t);
      } else {
        ShortIsBelowTen(s);
        if |t| > 1 {
          LongIsTenOrMore(t);
        } else {
          ShortIsBelowTen(t);
        }
      }
    } else {
      LongIsTenOrMore(s);
      LongIsTenOrMore(t);
      var a, b := s[..|s| - 1], t[..|t| - 1];
      LastDigit(s);
      LastDigit(t);
      hide DecimalValue, IsDecimal;
      DecimalIsUnique(a, b);
      assert s == a + [s[|s| - 1]] && t == b + [t[|t| - 1]];
    }
  }

  lemma LastDigit(s: string)
    requires IsDecimal(s)
    ensures Every(s[..|s| - 1], IsDigit)
    ensures DecimalValue(s) == DecimalValue(s[..|s| - 1]) * 10 + (s[|s| - 1] as int - '0' as int)
    ensures 0 <= s[|s| - 1] as int - '0' as int < 10
  {
    assert s[|s| - 1] in s;
  }

  lemma DecimalText(s: string, n: nat)
    requires IsDecimal(s)
    ensures DecimalValue(s) == n <==> s == Decimal(n)
  {
    if DecimalValue(s) == n {
      DecimalIsUnique(s, Decimal(n));
    }
  }

  /** The text a length header consists of: one line, the field name in any case, and the number in
      decimal between blanks. */
  ghost predicate Declares(text: string, n: nat) {
    && OneLine(text) && LENGTH_FIELD <= Lower(text)
    && exists a, b :: Blank(a) && Blank(b) && text[|LENGTH_FIELD|..] == a + Decimal(n) + b
  }

  lemma SingleLength(text: string)
    ensures LengthLines([text]) == if LENGTH_FIELD <= Lower(text) then [text] else []
  {
    assert [text][1..] == [];
  }

  lemma TrimmedIff(field: string, n: nat)
    ensures var raw := TrimEnd(TrimStart(field));
            IsDecimal(raw) && DecimalValue(raw) == n <==>
              exists a, b :: Blank(a) && Blank(b) && field == a + Decimal(n) + b
  {
    hide DecimalValue, Decimal;
    var raw := TrimEnd(TrimStart(field));
    if IsDecimal(raw) && DecimalValue(raw) == n {
      var a := TrimStartHolds(field);
      var b := TrimEndHolds(TrimStart(field));
      DecimalText(raw, n);
      hide TrimStart, TrimEnd, Blank, IsDecimal;
      assert field == a + Decimal(n) + b;
    }
    if a, b :| Blank(a) && Blank(b) && field == a + Decimal(n) + b {
      TrimmedDecimal(a, n, b);
    }
  }

  lemma TrimmedDecimal(a: string, n: nat, b: string)
    requires Blank(a) && Blank(b)
    ensures TrimEnd(TrimStart(a + Decimal(n) + b)) == Decimal(n)
    ensures IsDecimal(Decimal(n)) && DecimalValue(Decimal(n)) == n
  {
    var s := Decimal(n);
    hide Decimal, DecimalValue;
    assert s[0] in s && s[|s| - 1] in s;
    assert a + s + b == a + (s + b);
    TrimStartBlank(a, s + b);
    TrimEndBlank(s, b);
  }

  /** The text of a header drops the high bit of every byte. */
  predicate Reads(header: seq<byte>, text: string) {
    |text| == |header|
    && forall i :: 0 <= i < |header| ==> text[i] as int == if header[i] < 128 then header[i] else header[i] - 128
  }

  lemma ReadsIff(header: seq<byte>, text: string)
    ensures Reads(header, text) <==> text == AsciiText(header)
  {
    forall b: byte
      ensures Ascii(b) as int == if b < 128 then b else b - 128
    {
    }
    if Reads(header, text) {
      assert forall i :: 0 <= i < |header| ==> text[i] == AsciiText(header)[i];
    }
  }

  /** A header gives a length exactly when its text declares one within both limits. */
  lemma HeaderIsReadIff(header: seq<byte>, text: string, maximumMessageBytes: nat, n: nat)
    requires Reads(header, text)
    ensures FrameLength(header, maximumMessageBytes) == Ok(n) <==>
              Declares(text, n) && n <= maximumMessageBytes && n <= 9007199254740991
  {
    ReadsIff(header, text);
    OneLineIff(text);
    SingleLength(text);
    hide OneLine, Lines, LengthLines, AsciiText, TrimEnd, TrimStart, DecimalValue, IsDecimal, Blank, Decimal, Reads;
    if OneLine(text) && LENGTH_FIELD <= Lower(text) {
      assert |Lower(text)| == |text|;
      TrimmedIff(text[|LENGTH_FIELD|..], n);
      assert [text][0][|LENGTH_FIELD|..] == text[|LENGTH_FIELD|..];
    }
  }

  /** The header says nothing of a length exactly when none of its lines does. */
  lemma LengthIsMissingIff(header: seq<byte>, text: string, maximumMessageBytes: nat)
    requires Reads(header, text)
    ensures FrameLength(header, maximumMessageBytes) == Err("VES_DRIVER_FRAME_LENGTH_REQUIRED") <==>
              forall line :: line in Lines(text) ==> !("content-length:" <= Lower(line))
  {
    ReadsIff(header, text);
    LengthLinesHold(Lines(text));
    assert |"VES_DRIVER_FRAME_LENGTH_REQUIRED"| == 32 && |"VES_DRIVER_FRAME_HEADER_INVALID"| == 31;
    assert |"VES_DRIVER_FRAME_LENGTH_INVALID"| == 31 && |"VES_DRIVER_FRAME_MESSAGE_LIMIT"| == 30;
    hide Lines, LengthLines, AsciiText, DecimalValue, TrimEnd, TrimStart, IsDecimal, Reads;
  }

  lemma {:induction false} LengthLinesHold(lines: seq<string>)
    ensures LengthLines(lines) == [] <==> forall line :: line in lines ==> !(LENGTH_FIELD <= Lower(line))
  {
    if lines != [] {
      LengthLinesHold(lines[1..]);
      assert lines == [lines[0]] + lines[1..];
    }
  }

  // ---- One step ----

  /** Two line ends, one after the other. */
  predicate TwoLineEnds(buffer: seq<byte>, i: nat) {
    i + 4 <= |buffer| && buffer[i] == 13 && buffer[i + 1] == 10 && buffer[i + 2] == 13 && buffer[i + 3] == 10
  }

  predicate EndsFirstAt(buffer: seq<byte>, i: nat) {
    TwoLineEnds(buffer, i) && forall j: nat | j < i :: !TwoLineEnds(buffer, j)
  }

  /** Between bodies the decoder waits only while no header has ended and the limit is not passed, and
      takes a header only if it ends within the limit and is read; anything else ends it where it is. */
  lemma HeaderStepIff(l: Limits, d: Decoder, n: nat, left: Decoder)
    requires d.pending.None?
    ensures Advance(l, d).Wait? <==>
              |d.buffer| <= l.maximumHeaderBytes && forall i: nat :: !TwoLineEnds(d.buffer, i)
    ensures Advance(l, d) == Header(n, left) <==>
              exists i: nat :: EndsFirstAt(d.buffer, i) && i <= l.maximumHeaderBytes
                && FrameLength(d.buffer[..i], l.maximumMessageBytes) == Ok(n) && left == Decoder(d.buffer[i + 4..], Some(n))
    ensures Advance(l, d).Fail? ==> Advance(l, d).left == d
    ensures !Advance(l, d).Message?
  {
    hide FrameLength, TwoLineEnds, EndsFirstAt, Boundary;
    EndIff(d.buffer);
  }

  lemma TwoEndsIff(buffer: seq<byte>, j: nat)
    ensures EndsHeader(buffer, j) <==> TwoLineEnds(buffer, j)
  {
    if TwoLineEnds(buffer, j) {
      assert buffer[j..j + 4] == CRLF2;
    }
    if EndsHeader(buffer, j) {
      var end := buffer[j..j + 4];
      assert end[0] == 13 && end[1] == 10 && end[2] == 13 && end[3] == 10;
    }
  }

  lemma EndIff(buffer: seq<byte>)
    ensures forall i: nat :: EndsFirstAt(buffer, i) <==> Boundary(buffer) == Some(i)
    ensures Boundary(buffer).None? <==> forall i: nat :: !TwoLineEnds(buffer, i)
  {
    forall j: nat
      ensures EndsHeader(buffer, j) <==> TwoLineEnds(buffer, j)
    {
      TwoEndsIff(buffer, j);
    }
    hide EndsHeader, TwoLineEnds;
    forall i: nat | EndsFirstAt(buffer, i)
      ensures Boundary(buffer) == Some(i)
    {
      BoundaryIs(buffer, i);
    }
    if Boundary(buffer).None? {
      forall i: nat
        ensures !TwoLineEnds(buffer, i)
      {
        assert i >= |buffer| ==> !EndsHeader(buffer, i) by { PastTheEnd(buffer, i); }
      }
    }
  }

  lemma PastTheEnd(buffer: seq<byte>, i: nat)
    ensures i >= |buffer| ==> !EndsHeader(buffer, i)
  {
  }

  /** Inside a body the decoder waits exactly until it is whole, and then takes exactly its bytes. */
  lemma BodyStepIff(l: Limits, d: Decoder, e: Envelope, left: Decoder)
    requires d.pending.Some?
    ensures Advance(l, d).Wait? <==> |d.buffer| < d.pending.value
    ensures Advance(l, d) == Message(e, left) <==>
              && d.pending.value <= |d.buffer| && left == Decoder(d.buffer[d.pending.value..], None)
              && l.codec.parse(d.buffer[..d.pending.value]) == Some(e) && Genuine(l, e)
    ensures !Advance(l, d).Header?
  {
    hide Genuine;
    if d.pending.value <= |d.buffer| {
      BodyIsAcceptedIff(l, d.buffer[..d.pending.value]);
    }
  }
}
