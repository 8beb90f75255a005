/** Downloading targets in ranges: the HTTP range contract, reading a whole
    target, and staging a component over attempts that may be cut anywhere. */
module ResumableStaging {
  import opened Results
  import opened Text

  /** SHA-256, taken as injective. */
  datatype Digest = OfBytes(bytes: seq<byte>)

  datatype Component = Component(sizeBytes: nat, contentDigest: Digest)

  /** The component whose content this is. */
  function ComponentOf(content: seq<byte>): Component { Component(|content|, OfBytes(content)) }

  /** What happens to one ranged read: it fails, it is answered, or it is answered and the process dies
      while appending, after some of the bytes. */
  datatype Reply =
    | Fails
    | Serves(bytes: seq<byte>, totalLength: int)
    | Torn(bytes: seq<byte>, totalLength: int, written: nat)

  datatype Outcome = Finished | Failed(code: string) | Interrupted

  function Min(a: nat, b: nat): nat { if a < b then a else b }

  // ---- Reading a range over HTTP ----

  datatype ContentRange = Missing | Range(start: nat, end: nat, total: nat)

  function Flatten(chunks: seq<seq<byte>>): seq<byte> {
    if chunks == [] then [] else chunks[0] + Flatten(chunks[1..])
  }

  lemma {:induction false} FlattenSnoc(chunks: seq<seq<byte>>, chunk: seq<byte>)
    ensures Flatten(chunks + [chunk]) == Flatten(chunks) + chunk
  {
    if chunks == [] {
      assert chunks + [chunk] == [chunk];
      assert Flatten([chunk]) == chunk + Flatten([]);
    } else {
      assert (chunks + [chunk])[1..] == chunks[1..] + [chunk];
      FlattenSnoc(chunks[1..], chunk);
    }
  }

  lemma {:induction false} FlattenPrefix(chunks: seq<seq<byte>>, i: nat)
    requires i <= |chunks|
    ensures |Flatten(chunks[..i])| <= |Flatten(chunks)|
    decreases |chunks| - i
  {
    if i < |chunks| {
      assert chunks[..i + 1] == chunks[..i] + [chunks[i]];
      FlattenSnoc(chunks[..i], chunks[i]);
      FlattenPrefix(chunks, i + 1);
    } else {
      assert chunks[..i] == chunks;
    }
  }

  /** Gathers a body and gives up as soon as it exceeds the bound. */
  method BoundedBody(chunks: seq<seq<byte>>, maximumBytes: nat) returns (r: Option<seq<byte>>)
    ensures r == if |Flatten(chunks)| <= maximumBytes then Some(Flatten(chunks)) else None
  {
    var body: seq<byte> := [];
    for i := 0 to |chunks|
      invariant body == Flatten(chunks[..i]) && |body| <= maximumBytes
    {
      assert chunks[..i + 1] == chunks[..i] + [chunks[i]];
      FlattenSnoc(chunks[..i], chunks[i]);
      if |body| + |chunks[i]| > maximumBytes {
        FlattenPrefix(chunks, i + 1);
        return None;
      }
      body := body + chunks[i];
    }
    assert chunks[..|chunks|] == chunks;
    r := Some(body);
  }

  predicate RangeValid(header: ContentRange, offset: nat, last: nat) {
    header.Range? && header.start == offset && header.start <= header.end <= last && header.end < header.total
  }

  /** One ranged read: accepted exactly when the status is 206, the range is valid and the body is as
      long as the range. An accepted answer always lies in the contract the download loops rely on. */
  method ReadRange(offset: nat, maximumBytes: nat, status: int, header: ContentRange, chunks: seq<seq<byte>>)
    returns (r: Result<Reply>)
    requires maximumBytes > 0
    ensures r.Ok? <==>
              && status == 206 && header.Range? && header.start == offset
              && offset <= header.end < offset + maximumBytes && header.end < header.total
              && |Flatten(chunks)| == header.end - header.start + 1
    ensures r.Ok? ==>
              && r.value == Serves(Flatten(chunks), header.total)
              && 1 <= |r.value.bytes| <= maximumBytes && offset + |r.value.bytes| <= r.value.totalLength
    ensures r.Err? ==> r.code == if status != 206 then "VES_TUF_SOURCE_HTTP" else "VES_TUF_SOURCE_HTTP_INVALID"
  {
    if status != 206 {
      return Err("VES_TUF_SOURCE_HTTP");
    }
    if !RangeValid(header, offset, offset + maximumBytes - 1) {
      return Err("VES_TUF_SOURCE_HTTP_INVALID");
    }
    var bytes := BoundedBody(chunks, maximumBytes);
    if bytes.None? || |bytes.value| != header.end - header.start + 1 {
      return Err("VES_TUF_SOURCE_HTTP_INVALID");
    }
    r := Ok(Serves(bytes.value, header.total));
  }

  // ---- The download loop ----

  /** The checks of one answer, for a target of known length. */
  function ReplyError(size: nat, chunkSize: nat, offset: nat, reply: Reply): Option<string> {
    if reply.Fails? then Some("VES_TUF_SOURCE_HTTP")
    else if reply.totalLength != size then Some("VES_TUF_LENGTH_MISMATCH")
    else if reply.bytes == [] || offset > size || |reply.bytes| > Min(chunkSize, size - offset) then
      Some("VES_TUF_PARTIAL_DOWNLOAD")
    else None
  }

  /** The bytes held when the loop ends, and how it ends: done, refused, or out of replies. */
  function Download(size: nat, chunkSize: nat, held: seq<byte>, replies: seq<Reply>): (seq<byte>, Outcome)
    decreases |replies|
  {
    if |held| >= size then (held, Finished)
    else if replies == [] then (held, Interrupted)
    else
      var error := ReplyError(size, chunkSize, |held|, replies[0]);
      if error.Some? then (held, Failed(error.value))
      else if replies[0].Torn? then (held + replies[0].bytes[..Min(replies[0].written, |replies[0].bytes|)], Interrupted)
      else Download(size, chunkSize, held + replies[0].bytes, replies[1..])
  }

  /** Reading a target into memory is the same loop from nothing. */
  method ReadWholeTarget(expectedLength: nat, chunkSize: nat, replies: seq<Reply>) returns (bytes: seq<byte>, outcome: Outcome)
    requires forall r :: r in replies ==> !r.Torn?
    ensures (bytes, outcome) == Download(expectedLength, chunkSize, [], replies)
  {
    bytes := [];
    var next := 0;
    while |bytes| < expectedLength
      invariant next <= |replies|
      invariant Download(expectedLength, chunkSize, [], replies) == Download(expectedLength, chunkSize, bytes, replies[next..])
      decreases |replies| - next
    {
      if next == |replies| {
        return bytes, Interrupted;
      }
      var reply := replies[next];
      var error := ReplyError(expectedLength, chunkSize, |bytes|, reply);
      if error.Some? {
        return bytes, Failed(error.value);
      }
      assert reply in replies;
      assert replies[next..][1..] == replies[next + 1..];
      bytes := bytes + reply.bytes;
      next := next + 1;
    }
    outcome := Finished;
  }

  // ---- Staging one component ----

  /** Where an attempt stops early: before clearing what is stale, or before its last step. */
  datatype Cut = Never | BeforeCleanup | BeforeFinish

  datatype Files = Files(partial: Option<seq<byte>>, final: Option<seq<byte>>)

  predicate Matches(file: Option<seq<byte>>, c: Component) {
    file.Some? && |file.value| == c.sizeBytes && OfBytes(file.value) == c.contentDigest
  }

  function Held(partial: Option<seq<byte>>, size: nat): seq<byte> {
    if partial.Some? && |partial.value| <= size then partial.value else []
  }

  /** A file is there once it holds something; an oversized one has been removed. */
  function AsFile(before: Option<seq<byte>>, held: seq<byte>, size: nat): Option<seq<byte>> {
    if before.Some? && |before.value| <= size then Some(held) else if held == [] then None else Some(held)
  }

  function Attempt(c: Component, chunkSize: nat, files: Files, replies: seq<Reply>, cut: Cut): (Files, Outcome) {
    if Matches(files.final, c) then (files, Finished)
    else if cut == BeforeCleanup then (files, Interrupted)
    else
      var (held, outcome) := Download(c.sizeBytes, chunkSize, Held(files.partial, c.sizeBytes), replies);
      var partial := AsFile(files.partial, held, c.sizeBytes);
      if outcome != Finished then (Files(partial, None), outcome)
      else if cut == BeforeFinish then (Files(partial, None), Interrupted)
      else if !Matches(partial, c) then (Files(None, None), Failed("VES_TUF_INTEGRITY"))
      else (Files(None, partial), Finished)
  }

  class StagedComponent {
    var partial: Option<seq<byte>>
    var final: Option<seq<byte>>
    ghost var offsets: seq<nat>

    constructor (files: Files)
      ensures partial == files.partial && final == files.final && offsets == []
    {
      partial, final, offsets := files.partial, files.final, [];
    }

    /** One attempt. It asks for strictly later offsets each time, none below what is already held. */
    method Stage(c: Component, chunkSize: nat, replies: seq<Reply>, cut: Cut) returns (outcome: Outcome)
      modifies this
      ensures (Files(partial, final), outcome) == Attempt(c, chunkSize, old(Files(partial, final)), replies, cut)
      ensures |old(offsets)| <= |offsets| && offsets[..|old(offsets)|] == old(offsets)
      ensures forall k :: |old(offsets)| <= k < |offsets| ==> offsets[k] >= |Held(old(partial), c.sizeBytes)|
      ensures forall j, k :: |old(offsets)| <= j < k < |offsets| ==> offsets[j] < offsets[k]
    {
      if Matches(final, c) {
        return Finished;
      }
      if cut == BeforeCleanup {
        return Interrupted;
      }
      final := None;
      if partial.Some? && |partial.value| > c.sizeBytes {
        partial := None;
      }
      outcome := Resume(c, chunkSize, replies);
      if outcome != Finished {
        return;
      }
      if cut == BeforeFinish {
        return Interrupted;
      }
      if !Matches(partial, c) {
        partial := None;
        return Failed("VES_TUF_INTEGRITY");
      }
      partial, final := None, partial;
    }

    /** The resuming loop: each answer is appended to the partial file before the next is asked for. */
    method Resume(c: Component, chunkSize: nat, replies: seq<Reply>) returns (outcome: Outcome)
      requires partial.Some? ==> |partial.value| <= c.sizeBytes
      modifies this`partial, this`offsets
      ensures var start := Held(old(partial), c.sizeBytes);
              var (held, ended) := Download(c.sizeBytes, chunkSize, start, replies);
              outcome == ended && partial == AsFile(old(partial), held, c.sizeBytes)
      ensures |old(offsets)| <= |offsets| && offsets[..|old(offsets)|] == old(offsets)
      ensures forall k :: |old(offsets)| <= k < |offsets| ==> offsets[k] >= |Held(old(partial), c.sizeBytes)|
      ensures forall j, k :: |old(offsets)| <= j < k < |offsets| ==> offsets[j] < offsets[k]
    {
      ghost var start := Held(partial, c.sizeBytes);
      var offset := if partial.Some? then |partial.value| else 0;
      var next := 0;
      while offset < c.sizeBytes
        invariant next <= |replies| && offset == |Held(partial, c.sizeBytes)| <= c.sizeBytes
        invariant partial == AsFile(old(partial), Held(partial, c.sizeBytes), c.sizeBytes)
        invariant Download(c.sizeBytes, chunkSize, start, replies)
                  == Download(c.sizeBytes, chunkSize, Held(partial, c.sizeBytes), replies[next..])
        invariant |start| <= offset
        invariant |old(offsets)| <= |offsets| && offsets[..|old(offsets)|] == old(offsets)
        invariant forall k :: |old(offsets)| <= k < |offsets| ==> |start| <= offsets[k] < offset
        invariant forall j, k :: |old(offsets)| <= j < k < |offsets| ==> offsets[j] < offsets[k]
        decreases |replies| - next
      {
        if next == |replies| {
          return Interrupted;
        }
        var reply := replies[next];
        offsets := offsets + [offset];
        var error := ReplyError(c.sizeBytes, chunkSize, offset, reply);
        if error.Some? {
          return Failed(error.value);
        }
        var held := if partial.Some? then partial.value else [];
        if reply.Torn? {
          held := held + reply.bytes[..Min(reply.written, |reply.bytes|)];
          if partial.Some? || held != [] {
            partial := Some(held);
          }
          return Interrupted;
        }
        assert replies[next..][1..] == replies[next + 1..];
        partial := Some(held + reply.bytes);
        offset := offset + |reply.bytes|;
        next := next + 1;
      }
      outcome := Finished;
    }
  }

  // ---- A source of fixed content ----

  /** From this offset on, every answer with the right length carries the content's own bytes. */
  ghost predicate HonestFrom(content: seq<byte>, offset: nat, replies: seq<Reply>)
    decreases |replies|
  {
    replies == [] || replies[0].Fails? ||
    (&& (offset + |replies[0].bytes| <= |content| ==> replies[0].bytes == content[offset..offset + |replies[0].bytes|])
     && HonestFrom(content, offset + |replies[0].bytes|, replies[1..]))
  }

  /** What is held is always a prefix of the content, and never shrinks. */
  lemma {:induction false} DownloadExtendsPrefix(content: seq<byte>, chunkSize: nat, held: seq<byte>, replies: seq<Reply>)
    requires held <= content && HonestFrom(content, |held|, replies)
    ensures held <= Download(|content|, chunkSize, held, replies).0 <= content
    ensures Download(|content|, chunkSize, held, replies).1.Finished? ==>
              Download(|content|, chunkSize, held, replies).0 == content
    decreases |replies|
  {
    if |held| < |content| && replies != [] && ReplyError(|content|, chunkSize, |held|, replies[0]).None? {
      var bytes := replies[0].bytes;
      assert held + bytes == content[..|held| + |bytes|];
      if replies[0].Torn? {
        var n := Min(replies[0].written, |bytes|);
        assert held + bytes[..n] == content[..|held| + n];
      } else {
        DownloadExtendsPrefix(content, chunkSize, held + bytes, replies[1..]);
      }
    }
  }

  /** A refused answer is never reported as a digest failure. */
  lemma {:induction false} DownloadNeverBlamesTheDigest(size: nat, chunkSize: nat, held: seq<byte>, replies: seq<Reply>)
    ensures Download(size, chunkSize, held, replies).1 != Failed("VES_TUF_INTEGRITY")
    decreases |replies|
  {
    assert |"VES_TUF_INTEGRITY"| == 17 && |"VES_TUF_SOURCE_HTTP"| == 19 && |"VES_TUF_LENGTH_MISMATCH"| == 23;
    assert |"VES_TUF_PARTIAL_DOWNLOAD"| == 24;
    if replies != [] && !replies[0].Torn? && ReplyError(size, chunkSize, |held|, replies[0]).None? {
      DownloadNeverBlamesTheDigest(size, chunkSize, held + replies[0].bytes, replies[1..]);
    }
  }

  datatype Try = Try(chunkSize: nat, replies: seq<Reply>, cut: Cut)

  ghost predicate Clean(content: seq<byte>, files: Files) {
    files.partial.Some? ==> files.partial.value <= content
  }

  ghost predicate HonestTry(content: seq<byte>, files: Files, t: Try) {
    HonestFrom(content, |Held(files.partial, |content|)|, t.replies)
  }

  function After(c: Component, files: Files, tries: seq<Try>): Files
    decreases |tries|
  {
    if tries == [] then files
    else
      var init, t := tries[..|tries| - 1], tries[|tries| - 1];
      Attempt(c, t.chunkSize, After(c, files, init), t.replies, t.cut).0
  }

  ghost predicate AllHonest(content: seq<byte>, files: Files, tries: seq<Try>)
    decreases |tries|
  {
    tries == [] ||
    (var init, t := tries[..|tries| - 1], tries[|tries| - 1];
     AllHonest(content, files, init) && HonestTry(content, After(ComponentOf(content), files, init), t))
  }

  lemma AttemptKeepsClean(content: seq<byte>, files: Files, t: Try)
    requires Clean(content, files) && HonestTry(content, files, t)
    ensures var (after, outcome) := Attempt(ComponentOf(content), t.chunkSize, files, t.replies, t.cut);
            && Clean(content, after)
            && (outcome.Finished? ==> after.final == Some(content))
            && (content != [] ==> outcome != Failed("VES_TUF_INTEGRITY"))
            && (after.final.None? ==> Held(files.partial, |content|) <= Held(after.partial, |content|))
  {
    var start := Held(files.partial, |content|);
    assert start <= content;
    DownloadExtendsPrefix(content, t.chunkSize, start, t.replies);
    DownloadNeverBlamesTheDigest(|content|, t.chunkSize, start, t.replies);
  }

  /** Over any sequence of attempts, each cut anywhere, against a source of fixed content: the partial
      file is a prefix of the content, and any finished attempt leaves exactly the content. */
  lemma {:induction false} StagingIsSafe(content: seq<byte>, files: Files, tries: seq<Try>, last: Try)
    requires Clean(content, files) && AllHonest(content, files, tries + [last])
    ensures Clean(content, After(ComponentOf(content), files, tries))
    ensures var (after, outcome) :=
              Attempt(ComponentOf(content), last.chunkSize, After(ComponentOf(content), files, tries), last.replies, last.cut);
            Clean(content, after) && (outcome.Finished? ==> after.final == Some(content))
    decreases |tries|
  {
    assert (tries + [last])[..|tries|] == tries;
    if tries != [] {
      var init := tries[..|tries| - 1];
      assert init + [tries[|tries| - 1]] == tries;
      StagingIsSafe(content, files, init, tries[|tries| - 1]);
    }
    AttemptKeepsClean(content, After(ComponentOf(content), files, tries), last);
  }

  /** Answers that are all usable from this offset on. */
  ghost predicate Usable(size: nat, chunkSize: nat, offset: nat, replies: seq<Reply>)
    decreases |replies|
  {
    replies == [] || offset >= size ||
    (replies[0].Serves? && ReplyError(size, chunkSize, offset, replies[0]).None?
     && Usable(size, chunkSize, offset + |replies[0].bytes|, replies[1..]))
  }

  /** With usable answers the loop ends after at most one answer per missing byte, at exactly the size. */
  lemma {:induction false} DownloadFinishes(size: nat, chunkSize: nat, held: seq<byte>, replies: seq<Reply>)
    requires |held| <= size && Usable(size, chunkSize, |held|, replies) && |replies| >= size - |held|
    ensures Download(size, chunkSize, held, replies).1.Finished?
    ensures |Download(size, chunkSize, held, replies).0| == size && held <= Download(size, chunkSize, held, replies).0
    decreases |replies|
  {
    if |held| < size {
      DownloadFinishes(size, chunkSize, held + replies[0].bytes, replies[1..]);
    }
  }

  ghost predicate Complete(content: seq<byte>, files: Files, t: Try) {
    && t.cut.Never? && HonestTry(content, files, t)
    && Usable(|content|, t.chunkSize, |Held(files.partial, |content|)|, t.replies)
    && |t.replies| >= |content| - |Held(files.partial, |content|)|
  }

  /** Whatever earlier attempts or others left behind, an attempt that is answered to the end either
      stages the content or removes a partial file that was not a prefix of it; so from any state the
      second such attempt has staged it. */
  lemma CorruptionCostsOneAttempt(content: seq<byte>, files: Files, first: Try, second: Try)
    requires content != [] && Complete(content, files, first)
    requires var after := Attempt(ComponentOf(content), first.chunkSize, files, first.replies, first.cut).0;
             Complete(content, after, second)
    ensures var c := ComponentOf(content);
            var (once, outcome) := Attempt(c, first.chunkSize, files, first.replies, first.cut);
            && (outcome.Finished? || (outcome == Failed("VES_TUF_INTEGRITY") && once == Files(None, None)))
            && (Clean(content, files) ==> outcome.Finished?)
            && Attempt(c, second.chunkSize, once, second.replies, second.cut)
               == (Files(if outcome.Finished? then once.partial else None, Some(content)), Finished)
  {
    var c := ComponentOf(content);
    CompleteAttemptEnds(content, files, first);
    var (once, outcome) := Attempt(c, first.chunkSize, files, first.replies, first.cut);
    if !outcome.Finished? {
      CompleteAttemptEnds(content, once, second);
    }
  }

  lemma CompleteAttemptEnds(content: seq<byte>, files: Files, t: Try)
    requires content != [] && Complete(content, files, t)
    ensures var (after, outcome) := Attempt(ComponentOf(content), t.chunkSize, files, t.replies, t.cut);
            && (outcome.Finished? ==> after.final == Some(content))
            && (outcome.Finished? || (outcome == Failed("VES_TUF_INTEGRITY") && after == Files(None, None)))
            && (Clean(content, files) ==> outcome.Finished?)
            && (outcome.Finished? && !Matches(files.final, ComponentOf(content)) ==> after.partial.None?)
  {
    var start := Held(files.partial, |content|);
    DownloadFinishes(|content|, t.chunkSize, start, t.replies);
    if Clean(content, files) {
      AttemptKeepsClean(content, files, t);
    }
  }
}
