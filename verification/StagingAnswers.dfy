/** What the downloading loop takes from any source, good or bad: the answers it appends, where it stops
    and why, and what a finished attempt holds. */
module StagingAnswers {
  import opened Results
  import opened Text
  import opened ResumableStaging
  import R = ReleaseStaging

  /** An answer the loop may append at `offset`: of the announced total length, not empty, no longer than
      asked for and inside the target. */
  predicate Usable(size: nat, chunkSize: nat, offset: nat, reply: Reply) {
    && !reply.Fails? && reply.totalLength == size
    && 1 <= |reply.bytes| <= chunkSize && offset + |reply.bytes| <= size
  }

  /** Why an answer that is not usable is refused. */
  predicate Refuses(size: nat, reply: Reply, code: string) {
    if reply.Fails? then code == "VES_TUF_SOURCE_HTTP"
    else if reply.totalLength != size then code == "VES_TUF_LENGTH_MISMATCH"
    else code == "VES_TUF_PARTIAL_DOWNLOAD"
  }

  /** What the first answers carry, one after the other. */
  function Carried(replies: seq<Reply>): seq<byte> {
    if replies == [] then []
    else (if replies[0].Fails? then [] else replies[0].bytes) + Carried(replies[1..])
  }

  /** The loop appends the first `n` answers, each complete and usable where it stands, until it holds the
      whole target. */
  ghost predicate Takes(size: nat, chunkSize: nat, held: seq<byte>, replies: seq<Reply>, n: nat) {
    && n <= |replies|
    && forall k :: 0 <= k < n ==> TakenAt(size, chunkSize, held, replies, k)
  }

  ghost predicate TakenAt(size: nat, chunkSize: nat, held: seq<byte>, replies: seq<Reply>, k: nat)
    requires k < |replies|
  {
    replies[k].Serves? && Usable(size, chunkSize, |held + Carried(replies[..k])|, replies[k])
  }

  /** How the loop ends after the first `n` answers, and what it holds then. */
  ghost predicate EndsAt(
    size: nat, chunkSize: nat, held: seq<byte>, replies: seq<Reply>, n: nat, got: seq<byte>, outcome: Outcome)
    requires n <= |replies|
  {
    var before := held + Carried(replies[..n]);
    if |before| >= size then outcome == Finished && got == before
    else if n == |replies| then outcome == Interrupted && got == before
    else if !Usable(size, chunkSize, |before|, replies[n]) then
      outcome.Failed? && Refuses(size, replies[n], outcome.code) && got == before
    else
      && replies[n].Torn? && outcome == Interrupted
      && before <= got <= before + replies[n].bytes
      && |got| - |before| == Min(replies[n].written, |replies[n].bytes|)
  }

  lemma ReplyErrorIff(size: nat, chunkSize: nat, offset: nat, reply: Reply)
    ensures ReplyError(size, chunkSize, offset, reply).None? <==> Usable(size, chunkSize, offset, reply)
    ensures forall code :: ReplyError(size, chunkSize, offset, reply) == Some(code) ==> Refuses(size, reply, code)
  {
  }

  lemma CarriedStep(replies: seq<Reply>, k: nat)
    requires 0 < k <= |replies| && !replies[0].Fails?
    ensures Carried(replies[..k]) == replies[0].bytes + Carried(replies[1..][..k - 1])
  {
    assert replies[..k][1..] == replies[1..][..k - 1];
  }

  /** Against any source, the loop appends usable answers only, in order and each in full, and stops at the
      first that is not: with the whole target, at the first refusal, or where it was cut. */
  lemma {:induction false} DownloadTakes(size: nat, chunkSize: nat, held: seq<byte>, replies: seq<Reply>) returns (n: nat)
    ensures Takes(size, chunkSize, held, replies, n)
    ensures EndsAt(size, chunkSize, held, replies, n,
                   Download(size, chunkSize, held, replies).0, Download(size, chunkSize, held, replies).1)
    decreases |replies|
  {
    hide Usable, Refuses, ReplyError;
    n := 0;
    assert held + Carried(replies[..0]) == held;
    if |held| < size && replies != [] {
      ReplyErrorIff(size, chunkSize, |held|, replies[0]);
      UsableIsAnswer(size, chunkSize, |held|, replies[0]);
      if ReplyError(size, chunkSize, |held|, replies[0]).None? && !replies[0].Torn? {
        var more := held + replies[0].bytes;
        var m := DownloadTakes(size, chunkSize, more, replies[1..]);
        n := m + 1;
        TakesOneMore(size, chunkSize, held, replies, m);
        CarriedStep(replies, n);
        assert held + Carried(replies[..n]) == more + Carried(replies[1..][..m]);
      }
    }
  }

  lemma UsableIsAnswer(size: nat, chunkSize: nat, offset: nat, reply: Reply)
    ensures Usable(size, chunkSize, offset, reply) ==> !reply.Fails?
  {
  }

  lemma TakesOneMore(size: nat, chunkSize: nat, held: seq<byte>, replies: seq<Reply>, m: nat)
    requires replies != [] && replies[0].Serves? && Usable(size, chunkSize, |held|, replies[0])
    requires Takes(size, chunkSize, held + replies[0].bytes, replies[1..], m)
    ensures Takes(size, chunkSize, held, replies, m + 1)
  {
    hide Usable;
    forall k | 0 <= k < m + 1
      ensures TakenAt(size, chunkSize, held, replies, k)
    {
      if k == 0 {
        assert held + Carried(replies[..0]) == held;
      } else {
        assert TakenAt(size, chunkSize, held + replies[0].bytes, replies[1..], k - 1);
        CarriedStep(replies, k);
      }
    }
  }

  /** A file holds exactly the component: as many bytes as announced, with the announced digest. */
  predicate Holds(file: Option<seq<byte>>, c: Component) {
    file.Some? && |file.value| == c.sizeBytes && OfBytes(file.value) == c.contentDigest
  }

  /** Whatever the source serves and whatever was there before, an attempt that finishes leaves the very
      component behind, and one that does not finish leaves no final file unless that was the component. */
  lemma FinishedIsVerified(c: Component, chunkSize: nat, files: Files, replies: seq<Reply>, cut: Cut)
    ensures var (after, outcome) := Attempt(c, chunkSize, files, replies, cut);
            && (outcome.Finished? ==> Holds(after.final, c))
            && (!outcome.Finished? ==> !Holds(files.final, c) && (after.final.None? || after == files))
  {
    hide Download;
  }

  /** An attempt over an incomplete file finishes exactly when it is not cut, its answers fill the target
      and what they fill it with has the digest. */
  lemma AttemptFinishesIff(c: Component, chunkSize: nat, files: Files, replies: seq<Reply>, cut: Cut) returns (n: nat)
    requires !Holds(files.final, c)
    ensures var start := if files.partial.Some? && |files.partial.value| <= c.sizeBytes then files.partial.value else [];
            var (after, outcome) := Attempt(c, chunkSize, files, replies, cut);
            && Takes(c.sizeBytes, chunkSize, start, replies, n)
            && var got := start + Carried(replies[..n]);
            && (outcome.Finished? <==>
                  && cut.Never? && |got| == c.sizeBytes && OfBytes(got) == c.contentDigest
                  && (files.partial.None? || |files.partial.value| > c.sizeBytes ==> got != []))
            && (outcome.Finished? ==> after == Files(None, Some(got)))
            && (outcome == Failed("VES_TUF_INTEGRITY") ==> after == Files(None, None) && |got| == c.sizeBytes)
  {
    var start := if files.partial.Some? && |files.partial.value| <= c.sizeBytes then files.partial.value else [];
    n := DownloadTakes(c.sizeBytes, chunkSize, start, replies);
    TakenFits(c.sizeBytes, chunkSize, start, replies, n);
    DownloadNeverBlamesTheDigest(c.sizeBytes, chunkSize, start, replies);
    hide Download, Takes, Usable, Carried;
    assert start == Held(files.partial, c.sizeBytes);
  }

  /** Taking usable answers never overshoots the target. */
  lemma {:induction false} TakenFits(size: nat, chunkSize: nat, held: seq<byte>, replies: seq<Reply>, n: nat)
    requires |held| <= size && Takes(size, chunkSize, held, replies, n)
    ensures |held + Carried(replies[..n])| <= size
  {
    if n > 0 {
      assert TakenAt(size, chunkSize, held, replies, n - 1);
      CarriedSnoc(replies, n - 1);
    }
  }

  lemma {:induction false} CarriedSnoc(replies: seq<Reply>, k: nat)
    requires k < |replies| && !replies[k].Fails?
    ensures Carried(replies[..k + 1]) == Carried(replies[..k]) + replies[k].bytes
  {
    if k == 0 {
      assert replies[..1] == [replies[0]];
      assert Carried([replies[0]]) == replies[0].bytes + Carried([]);
    } else {
      CarriedSnoc(replies[1..], k - 1);
      assert replies[..k + 1][1..] == replies[1..][..k] && replies[..k][1..] == replies[1..][..k - 1];
    }
  }

  // ---- One component in the stage directory ----

  /** Some file of the stage lies below `path`, or stands where `path` needs a directory. */
  ghost predicate InTheWay(stage: R.Stage, path: string) {
    exists q :: q in stage && (q + "/" <= path || path + "/" <= q)
  }

  /** A component's attempt touches its own two names only, and says it is staged exactly when the stage
      holds it afterwards under its own name and no file is in the way of that name. */
  lemma ItemIsStagedIff(stage: R.Stage, item: R.Item, t: Try)
    ensures var (after, outcome) := R.StageItem(stage, item, t);
            && (forall p :: p != item.path && p != item.path + ".part" ==>
                  (p in after <==> p in stage) && (p in stage ==> after[p] == stage[p]))
            && (InTheWay(stage, item.path) ==> after == stage && outcome == Failed("VES_TUF_STAGE_PATH_INVALID"))
            && (outcome.Finished? ==> item.path in after && after[item.path] == item.content)
            && (!InTheWay(stage, item.path) && item.path in stage && stage[item.path] == item.content ==>
                  outcome.Finished? && after == stage)
            && (!InTheWay(stage, item.path) && InTheWay(stage, item.path + ".part") && !outcome.Finished? ==>
                  outcome == Failed("VES_TUF_STAGE_PATH_INVALID") && after == stage - {item.path})
  {
    hide Attempt;
    InTheWayIff(stage, item.path);
    InTheWayIff(stage, item.path + ".part");
    R.PartNames(item.path, item.path);
    hide R.Obstructed, InTheWay;
    FinishedIsVerified(ComponentOf(item.content), t.chunkSize, R.FilesFor(stage, item.path), t.replies, t.cut);
  }

  lemma InTheWayIff(stage: R.Stage, path: string)
    ensures R.Obstructed(stage, path) <==> InTheWay(stage, path)
  {
    if q :| q in stage && (q + "/" <= path || path + "/" <= q) {
      assert Below(q, path) || Below(path, q);
    }
  }

  /** A receipt that is there already must be this very one, or the stage is refused as it is; otherwise it
      is written unless its name is taken. */
  lemma ReceiptIsWritten(stage: R.Stage, receipt: seq<byte>)
    ensures var (after, outcome) := R.WriteReceipt(stage, receipt);
            if "staged-release.json" in stage then
              after == stage && outcome == if stage["staged-release.json"] == receipt then Finished
                                           else Failed("VES_TUF_STAGE_CONFLICT")
            else if InTheWay(stage, "staged-release.json") then
              after == stage && outcome == Failed("VES_TUF_STAGE_PATH_INVALID")
            else after == stage["staged-release.json" := receipt] && outcome == Finished
  {
    hide R.Obstructed, InTheWay;
    InTheWayIff(stage, "staged-release.json");
  }
}
