/** Driver frames: the Content-Length header, the encoder, and one decoding step. */
module DriverFrames {
  import opened Results
  import opened Text

  datatype Envelope = Envelope(
    messageId: string,
    correlationId: string,
    workspaceId: string,
    runId: Option<string>,
    sequence: int,
    payloadDigest: string,
    payload: string)

  /** JSON, the field shapes and the payload digest are oracles. */
  datatype Codec = Codec(
    parse: seq<byte> -> Option<Envelope>,
    render: Envelope -> seq<byte>,
    wellFormed: Envelope -> bool,
    digest: string -> string)

  datatype Limits = Limits(codec: Codec, workspaceId: string, maximumHeaderBytes: nat, maximumMessageBytes: nat)

  const MAX_SAFE_INTEGER := 9007199254740991
  const CRLF2: seq<byte> := [13, 10, 13, 10]

  function ValidateBody(l: Limits, body: seq<byte>): Result<Envelope> {
    match l.codec.parse(body)
    case None => Err("VES_DRIVER_FRAME_JSON_INVALID")
    case Some(e) =>
      if !l.codec.wellFormed(e) then Err("VES_DRIVER_ENVELOPE_INVALID")
      else if e.workspaceId != l.workspaceId then Err("VES_DRIVER_ENVELOPE_WORKSPACE")
      else if e.payloadDigest != l.codec.digest(e.payload) then Err("VES_DRIVER_ENVELOPE_DIGEST")
      else Ok(e)
  }

  // ---- Header ----

  predicate EndsHeader(buffer: seq<byte>, i: nat) { i + 4 <= |buffer| && buffer[i..i + 4] == CRLF2 }

  /** `buffer.indexOf("\r\n\r\n")` from `i` on. */
  function BoundaryFrom(buffer: seq<byte>, i: nat): (r: Option<nat>)
    ensures r.Some? ==> i <= r.value && EndsHeader(buffer, r.value)
    ensures forall j :: i <= j < (if r.Some? then r.value else |buffer|) ==> !EndsHeader(buffer, j)
    decreases |buffer| - i
  {
    if EndsHeader(buffer, i) then Some(i) else if i >= |buffer| then None else BoundaryFrom(buffer, i + 1)
  }

  function Boundary(buffer: seq<byte>): Option<nat> { BoundaryFrom(buffer, 0) }

  /** The boundary is the first place a header ends. */
  lemma BoundaryIs(buffer: seq<byte>, i: nat)
    requires EndsHeader(buffer, i) && forall j :: 0 <= j < i ==> !EndsHeader(buffer, j)
    ensures Boundary(buffer) == Some(i)
  {
  }

  /** A boundary already seen is not moved by bytes that arrive later. */
  lemma BoundaryAppend(buffer: seq<byte>, more: seq<byte>)
    ensures Boundary(buffer).Some? ==> Boundary(buffer + more) == Boundary(buffer)
    ensures Boundary(buffer).None? && Boundary(buffer + more).Some? ==> Boundary(buffer + more).value + 3 >= |buffer|
  {
    var all := buffer + more;
    forall j: nat | j + 4 <= |buffer|
      ensures EndsHeader(all, j) <==> EndsHeader(buffer, j)
    {
      assert all[j..j + 4] == buffer[j..j + 4];
    }
    if Boundary(buffer).Some? {
      BoundaryIs(all, Boundary(buffer).value);
    }
  }

  function Ascii(b: byte): char { (b % 128) as char }

  function AsciiText(bytes: seq<byte>): string { seq(|bytes|, i requires 0 <= i < |bytes| => Ascii(bytes[i])) }

  /** `text.split("\r\n")`. */
  function Lines(text: string): (lines: seq<string>)
    ensures |lines| >= 1
    decreases |text|
  {
    if text == [] then [""]
    else if |text| >= 2 && text[0] == '\r' && text[1] == '\n' then [""] + Lines(text[2..])
    else var rest := Lines(text[1..]); [[text[0]] + rest[0]] + rest[1..]
  }

  const LENGTH_FIELD := "content-length:"

  predicate IsLengthLine(line: string) { LENGTH_FIELD <= Lower(line) }

  function LengthLines(lines: seq<string>): (r: seq<string>)
    ensures forall x :: x in r ==> IsLengthLine(x)
  {
    if lines == [] then []
    else (if IsLengthLine(lines[0]) then [lines[0]] else []) + LengthLines(lines[1..])
  }

  predicate IsSpace(c: char) { c in "\t\n\r " || c == 11 as char || c == 12 as char }

  function TrimStart(s: string): string {
    if s != [] && IsSpace(s[0]) then TrimStart(s[1..]) else s
  }

  function TrimEnd(s: string): string {
    if s != [] && IsSpace(s[|s| - 1]) then TrimEnd(s[..|s| - 1]) else s
  }

  predicate IsDecimal(s: string) { s != [] && Every(s, IsDigit) && (s[0] == '0' ==> |s| == 1) }

  function DecimalValue(s: string): nat
    requires Every(s, IsDigit)
  {
    if s == [] then 0
    else
      assert s[|s| - 1] in s && forall c :: c in s[..|s| - 1] ==> c in s;
      DecimalValue(s[..|s| - 1]) * 10 + (s[|s| - 1] as int - '0' as int)
  }

  /** `driverFrameLength`. */
  function FrameLength(header: seq<byte>, maximumMessageBytes: nat): Result<nat> {
    var lines := Lines(AsciiText(header));
    var lengthLines := LengthLines(lines);
    if |lengthLines| == 0 then Err("VES_DRIVER_FRAME_LENGTH_REQUIRED")
    else if |lines| != 1 || |lengthLines| != 1 then Err("VES_DRIVER_FRAME_HEADER_INVALID")
    else
      assert lengthLines[0] in lengthLines;
      var raw := TrimEnd(TrimStart(lengthLines[0][|LENGTH_FIELD|..]));
      if !IsDecimal(raw) then Err("VES_DRIVER_FRAME_LENGTH_INVALID")
      else if DecimalValue(raw) > MAX_SAFE_INTEGER then Err("VES_DRIVER_FRAME_LENGTH_INVALID")
      else if DecimalValue(raw) > maximumMessageBytes then Err("VES_DRIVER_FRAME_MESSAGE_LIMIT")
      else Ok(DecimalValue(raw))
  }

  // ---- Encoder ----

  function Decimal(n: nat): (s: string)
    ensures IsDecimal(s) && DecimalValue(s) == n
    ensures n > 0 ==> s[0] != '0'
  {
    var digit := [(n % 10 + '0' as int) as char];
    if n < 10 then
      assert digit[..0] == [];
      digit
    else
      var s := Decimal(n / 10) + digit;
      assert s[..|s| - 1] == Decimal(n / 10);
      s
  }

  function CodeOf(c: char): byte { (c as int) % 256 }

  function Bytes(s: string): seq<byte>
  {
    seq(|s|, i requires 0 <= i < |s| => CodeOf(s[i]))
  }

  const LENGTH_PREFIX := "Content-Length: "

  function HeaderText(n: nat): (s: string)
    ensures forall c :: c in s ==> c as int < 128 && c != '\r'
  {
    assert Every(Decimal(n), IsDigit);
    LENGTH_PREFIX + Decimal(n)
  }

  /** `encodeDriverFrame` over the rendered envelope. */
  function EncodeFrame(l: Limits, e: Envelope): seq<byte> {
    var body := l.codec.render(e);
    Bytes(HeaderText(|body|)) + CRLF2 + body
  }

  lemma {:induction false} LinesWhole(s: string)
    requires '\r' !in s
    ensures Lines(s) == [s]
  {
    if s != [] {
      LinesWhole(s[1..]);
      assert s == [s[0]] + s[1..];
    }
  }

  lemma TrimDecimal(s: string)
    requires IsDecimal(s)
    ensures TrimEnd(TrimStart(" " + s)) == s
  {
    assert (" " + s)[1..] == s;
    assert s[0] in s && s[|s| - 1] in s;
    assert TrimStart(s) == s && TrimEnd(s) == s;
  }

  lemma AsciiOfBytes(s: string)
    requires forall c :: c in s ==> c as int < 128
    ensures AsciiText(Bytes(s)) == s
  {
    forall i | 0 <= i < |s|
      ensures AsciiText(Bytes(s))[i] == s[i]
    {
      assert s[i] in s;
    }
  }

  lemma PrefixIsLengthLine(rest: string)
    ensures IsLengthLine(LENGTH_PREFIX + rest)
  {
    var text := Lower(LENGTH_PREFIX + rest);
    forall i | 0 <= i < |LENGTH_FIELD|
      ensures text[i] == LENGTH_FIELD[i]
    {
      assert text[i] == ToLower(LENGTH_PREFIX[i]);
    }
  }

  /** The header the encoder writes declares exactly the body's length. */
  lemma EncodedLength(n: nat, maximumMessageBytes: nat)
    requires n <= maximumMessageBytes && n <= MAX_SAFE_INTEGER
    ensures FrameLength(Bytes(HeaderText(n)), maximumMessageBytes) == Ok(n)
  {
    hide Lower, IsLengthLine, TrimEnd, TrimStart, DecimalValue, Lines;
    var text := HeaderText(n);
    AsciiOfBytes(text);
    LinesWhole(text);
    PrefixIsLengthLine(Decimal(n));
    var none: seq<string> := [];
    assert LengthLines([text]) == [text] by {
      assert [text][1..] == none && LengthLines(none) == none;
    }
    assert text[|LENGTH_FIELD|..] == " " + Decimal(n);
    TrimDecimal(Decimal(n));
  }

  // ---- One step of the decoder's loop ----

  datatype Decoder = Decoder(buffer: seq<byte>, pending: Option<nat>)

  datatype Progress =
    | Wait
    | Fail(code: string, left: Decoder)
    | Header(length: nat, left: Decoder)
    | Message(envelope: Envelope, left: Decoder)

  function Advance(l: Limits, d: Decoder): (r: Progress)
    ensures r.Header? || r.Message? ==> Fuel(r.left) < Fuel(d)
  {
    if d.pending.None? then
      match Boundary(d.buffer)
      case None => if |d.buffer| > l.maximumHeaderBytes then Fail("VES_DRIVER_FRAME_HEADER_LIMIT", d) else Wait
      case Some(i) =>
        if i > l.maximumHeaderBytes then Fail("VES_DRIVER_FRAME_HEADER_LIMIT", d)
        else
          match FrameLength(d.buffer[..i], l.maximumMessageBytes)
          case Err(code) => Fail(code, d)
          case Ok(n) => Header(n, Decoder(d.buffer[i + 4..], Some(n)))
    else
      var n := d.pending.value;
      if |d.buffer| < n then Wait
      else
        var left := Decoder(d.buffer[n..], None);
        match ValidateBody(l, d.buffer[..n])
        case Err(code) => Fail(code, left)
        case Ok(e) => Message(e, left)
  }

  function Fuel(d: Decoder): nat { 2 * |d.buffer| + (if d.pending.Some? then 1 else 0) }

  /** All the frames a buffer holds, and what is left; a failure loses the messages before it. */
  datatype Drained =
    | More(messages: seq<Envelope>, left: Decoder)
    | Terminated(code: string, lost: seq<Envelope>, left: Decoder)

  function Drain(l: Limits, d: Decoder): Drained
    decreases Fuel(d)
  {
    match Advance(l, d)
    case Wait => More([], d)
    case Fail(code, left) => Terminated(code, [], left)
    case Header(_, left) => Drain(l, left)
    case Message(e, left) => Before([e], Drain(l, left))
  }

  function Before(es: seq<Envelope>, r: Drained): Drained {
    match r
    case More(messages, left) => More(es + messages, left)
    case Terminated(code, lost, left) => Terminated(code, es + lost, left)
  }
}
