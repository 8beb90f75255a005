/** The verified-release record against the history of recorded activations,
    and the launcher's choice between a retained release and the network. */
module VerifiedRecord {
  import opened Results
  import opened Text
  import opened HermeticBundle
  import opened InstallRoot
  import opened ActivationPlan
  import opened CrashConsistency
  import opened CrashRuns

  // ---- The record as a function of its history ----

  predicate MentionsDigest(entries: seq<Pointer>, d: ReleaseDigest) {
    exists e :: e in entries && e.releaseDigest == d
  }

  /** A history with all but the last occurrence of each digest removed. */
  function KeepLast(history: seq<Pointer>): seq<Pointer> {
    if history == [] then []
    else if MentionsDigest(history[1..], history[0].releaseDigest) then KeepLast(history[1..])
    else [history[0]] + KeepLast(history[1..])
  }

  lemma {:induction false} KeepLastMembers(h: seq<Pointer>, e: Pointer)
    ensures e in KeepLast(h) <==> exists i :: 0 <= i < |h| && h[i] == e && !MentionsDigest(h[i + 1..], e.releaseDigest)
    ensures e in KeepLast(h) ==> e in h
  {
    hide MentionsDigest;
    if h != [] {
      KeepLastMembers(h[1..], e);
      if e in KeepLast(h) {
        if e in KeepLast(h[1..]) {
          var i :| 0 <= i < |h[1..]| && h[1..][i] == e && !MentionsDigest(h[1..][i + 1..], e.releaseDigest);
          assert h[1..][i + 1..] == h[i + 2..];
          assert h[i + 1] == e;
        } else {
          assert h[0] == e && h[0 + 1..] == h[1..];
        }
      }
      if i :| 0 <= i < |h| && h[i] == e && !MentionsDigest(h[i + 1..], e.releaseDigest) {
        if i > 0 {
          assert h[1..][i - 1] == e && h[1..][i - 1 + 1..] == h[i + 1..];
        }
      }
    }
  }

  lemma MentionsSnoc(t: seq<Pointer>, e: Pointer, d: ReleaseDigest)
    ensures MentionsDigest(t + [e], d) <==> MentionsDigest(t, d) || e.releaseDigest == d
  {
    assert e in t + [e];
    assert forall x :: x in t ==> x in t + [e];
  }

  lemma WithoutCons(x: Pointer, entries: seq<Pointer>, d: ReleaseDigest)
    ensures Without([x] + entries, d) == (if x.releaseDigest == d then [] else [x]) + Without(entries, d)
  {
    assert ([x] + entries)[1..] == entries;
  }

  /** Recording one more release is dropping its digest and appending it. */
  lemma {:induction false} KeepLastSnoc(h: seq<Pointer>, e: Pointer)
    ensures KeepLast(h + [e]) == Without(KeepLast(h), e.releaseDigest) + [e]
  {
    if h == [] {
      assert [] + [e] == [e] && [e][1..] == [];
    } else {
      var x, t := h[0], h[1..];
      KeepLastSnoc(t, e);
      assert h + [e] == [x] + (t + [e]);
      assert (h + [e])[1..] == t + [e];
      MentionsSnoc(t, e, x.releaseDigest);
      WithoutCons(x, KeepLast(t), e.releaseDigest);
      hide MentionsDigest, Without;
    }
  }

  lemma {:induction false} WithoutAbsent(entries: seq<Pointer>, d: ReleaseDigest)
    requires !MentionsDigest(entries, d)
    ensures Without(entries, d) == entries
  {
    if entries != [] {
      assert entries[0] in entries;
      assert forall e :: e in entries[1..] ==> e in entries;
      WithoutAbsent(entries[1..], d);
    }
  }

  lemma {:induction false} KeepLastDistinct(h: seq<Pointer>)
    ensures DistinctDigests(KeepLast(h))
  {
    if h != [] {
      KeepLastDistinct(h[1..]);
      var rest := KeepLast(h[1..]);
      forall i | 0 <= i < |rest|
        ensures rest[i] in h[1..]
      {
        KeepLastMembers(h[1..], rest[i]);
      }
    }
  }

  lemma KeepLastEnd(h: seq<Pointer>)
    requires h != []
    ensures EndsWith(KeepLast(h), h[|h| - 1])
  {
    hide KeepLast, Without;
    assert h == h[..|h| - 1] + [h[|h| - 1]];
    KeepLastSnoc(h[..|h| - 1], h[|h| - 1]);
  }

  /** The recording step, with its shortcut for an entry that is last already. */
  lemma RecordedIsKeepLast(h: seq<Pointer>, e: Pointer)
    ensures Recorded(KeepLast(h), e) == KeepLast(h + [e])
  {
    hide KeepLast;
    KeepLastSnoc(h, e);
    var entries := KeepLast(h);
    if EndsWith(entries, e) {
      KeepLastDistinct(h);
      WithoutLast(entries, e);
    }
  }

  lemma WithoutLast(entries: seq<Pointer>, e: Pointer)
    requires DistinctDigests(entries) && EndsWith(entries, e)
    ensures Without(entries, e.releaseDigest) + [e] == entries
  {
    var n := |entries| - 1;
    assert entries == entries[..n] + [e];
    forall x | x in entries[..n]
      ensures x.releaseDigest != e.releaseDigest
    {
      var i :| 0 <= i < n && entries[i] == x;
    }
    WithoutConcat(entries[..n], [e], e.releaseDigest);
    assert [e][1..] == [];
    WithoutAbsent(entries[..n], e.releaseDigest);
  }

  lemma {:induction false} WithoutConcat(a: seq<Pointer>, b: seq<Pointer>, d: ReleaseDigest)
    ensures Without(a + b, d) == Without(a, d) + Without(b, d)
  {
    if a == [] {
      assert a + b == b;
    } else {
      assert (a + b)[1..] == a[1..] + b;
      WithoutConcat(a[1..], b, d);
    }
  }

  // ---- The record over crashed runs ----

  predicate Writes(effects: seq<Effect>, t: TrustRoot) {
    exists e :: e in effects && e.RecordReleases? && e.trustRoot == t
  }

  lemma {:induction false} RecordAfter(r0: Root, r: Root, effects: seq<Effect>, target: Pointer, t: TrustRoot)
    requires forall e :: e in effects ==> Aimed(r0, e, target)
    ensures RecordOf(ApplyAll(r, effects), t) ==
            if Writes(effects, t) then Recorded(RecordOf(r0, t), target) else RecordOf(r, t)
    decreases |effects|
  {
    hide Recorded;
    if effects != [] {
      var rest := effects[1..];
      assert effects == [effects[0]] + rest;
      assert Aimed(r0, effects[0], target);
      RecordAfter(r0, Apply(r, effects[0]), rest, target, t);
      assert Writes(effects, t) <==> (effects[0].RecordReleases? && effects[0].trustRoot == t) || Writes(rest, t);
    }
  }

  /** The release this attempt recorded under `t` before it ended or died. */
  function Logged(r: Root, a: Attempt, t: TrustRoot): seq<Pointer> {
    if TargetOf(a.command).Some? && Writes(Cut(Effects(r, a.command), a.survives), t) then [TargetOf(a.command).value]
    else []
  }

  function History(r: Root, attempts: seq<Attempt>, t: TrustRoot): seq<Pointer>
    decreases |attempts|
  {
    if attempts == [] then []
    else Logged(r, attempts[0], t) + History(After(r, attempts[0]), attempts[1..], t)
  }

  lemma AttemptLogs(r: Root, a: Attempt, t: TrustRoot, h: seq<Pointer>)
    requires Inv(r) && !Purging(a.command) && RecordOf(r, t) == KeepLast(h)
    ensures RecordOf(After(r, a), t) == KeepLast(h + Logged(r, a, t))
  {
    hide Inv, TargetOf, Effects, Answer, Recorded, KeepLast, ApplyAll;
    assert h + [] == h;
    if TargetOf(a.command).None? {
      QuietRecord(r, a, t);
    } else {
      OnlyUninstallAimless(a.command);
      CommandAimed(r, a.command);
      var target := TargetOf(a.command).value;
      var es := Cut(Effects(r, a.command), a.survives);
      assert forall e :: e in es ==> e in Effects(r, a.command);
      RecordAfter(r, r, es, target, t);
      RecordedIsKeepLast(h, target);
    }
  }

  lemma OnlyUninstallAimless(c: Command)
    requires TargetOf(c).Some?
    ensures !c.Uninstall?
  {
  }

  predicate Keeps(e: Effect) { e.RemoveActive? || e.RemoveJournal? || e.RemoveTransactions? }

  lemma {:induction false} KeptRecord(r: Root, effects: seq<Effect>, t: TrustRoot)
    requires forall e :: e in effects ==> Keeps(e)
    ensures RecordOf(ApplyAll(r, effects), t) == RecordOf(r, t)
    decreases |effects|
  {
    if effects != [] {
      assert Keeps(effects[0]);
      KeptRecord(Apply(r, effects[0]), effects[1..], t);
    }
  }

  lemma QuietRecord(r: Root, a: Attempt, t: TrustRoot)
    requires TargetOf(a.command).None? && !Purging(a.command)
    ensures RecordOf(After(r, a), t) == RecordOf(r, t)
  {
    hide OpenStage;
    assert forall e :: e in Effects(r, a.command) ==> Keeps(e);
    var es := Cut(Effects(r, a.command), a.survives);
    assert forall e :: e in es ==> e in Effects(r, a.command);
    hide Effects, ApplyAll;
    KeptRecord(r, es, t);
  }

  /** Over any run without a purge, crashed anywhere, the record under each trust root is the
      history of recorded activations with all but the last occurrence of each digest removed. */
  lemma {:induction false} RecordIsHistory(r: Root, attempts: seq<Attempt>, t: TrustRoot, h: seq<Pointer>)
    requires Inv(r) && RecordOf(r, t) == KeepLast(h)
    requires forall a :: a in attempts ==> !Purging(a.command)
    ensures RecordOf(Run(r, attempts), t) == KeepLast(h + History(r, attempts, t))
    decreases |attempts|
  {
    hide Inv, After, Logged, KeepLast, RecordOf, Purging;
    if attempts == [] {
      assert h + [] == h;
    } else {
      var a := attempts[0];
      AttemptLogs(r, a, t, h);
      AttemptKeepsInv(r, a);
      RecordIsHistory(After(r, a), attempts[1..], t, h + Logged(r, a, t));
      assert h + (Logged(r, a, t) + History(After(r, a), attempts[1..], t))
          == h + Logged(r, a, t) + History(After(r, a), attempts[1..], t);
    }
  }

  // ---- Retained releases ----

  datatype Query = Query(trustRoot: TrustRoot, releaseId: string, semanticVersion: string)

  predicate Matches(q: Query, e: Pointer) { e.releaseId == q.releaseId && e.semanticVersion == q.semanticVersion }

  function Matching(q: Query, entries: seq<Pointer>): seq<Pointer> {
    if entries == [] then []
    else (if Matches(q, entries[0]) then [entries[0]] else []) + Matching(q, entries[1..])
  }

  function RetainedManifest(r: Root, match_: Pointer): Result<Option<Pointer>> {
    var d := match_.releaseDigest;
    if d !in r.releases || RecordIn(r.releases[d]).None? then Ok(None)
    else
      var verified := Verify(RecordIn(r.releases[d]).value.bundle);
      if verified.Err? || PointerOf(verified.value) != match_ then Err("VES_ROLLBACK_TARGET_INVALID")
      else Ok(Some(match_))
  }

  function RetainedRelease(r: Root, q: Query): Result<Option<Pointer>> {
    if !IsDigest(q.trustRoot) then Err("VES_ACTIVATION_PROVENANCE_INVALID")
    else
      match VerifiedReleases(r, q.trustRoot)
      case Err(code) => Err(code)
      case Ok(entries) =>
        var matching := Matching(q, entries);
        if |matching| != 1 || EndsWith(entries, matching[0]) then Ok(None)
        else RetainedManifest(r, matching[0])
  }

  lemma {:induction false} MatchingMembers(q: Query, entries: seq<Pointer>)
    ensures forall e :: e in Matching(q, entries) <==> e in entries && Matches(q, e)
  {
    if entries != [] {
      MatchingMembers(q, entries[1..]);
      assert entries == [entries[0]] + entries[1..];
    }
  }

  lemma RetainedPick(r: Root, q: Query, p: Pointer)
    requires RetainedRelease(r, q) == Ok(Some(p))
    ensures Matching(q, RecordOf(r, q.trustRoot)) == [p] && !EndsWith(RecordOf(r, q.trustRoot), p)
  {
    hide Verify, IsDigest, Matching;
  }

  /** A retained release is one that was recorded, that a later recorded activation of another
      digest superseded, and that alone carries the pinned identity; it is never the latest. */
  lemma RetainedIsSuperseded(r: Root, q: Query, h: seq<Pointer>, p: Pointer)
    requires RecordOf(r, q.trustRoot) == KeepLast(h)
    requires RetainedRelease(r, q) == Ok(Some(p))
    ensures Matches(q, p) && h != [] && h[|h| - 1] != p
    ensures exists i :: 0 <= i < |h| - 1 && h[i] == p && !MentionsDigest(h[i + 1..], p.releaseDigest)
    ensures forall e :: e in KeepLast(h) && Matches(q, e) ==> e == p
  {
    hide RetainedRelease, RecordOf, Matching, KeepLast, MentionsDigest, Matches;
    RetainedPick(r, q, p);
    MatchingMembers(q, KeepLast(h));
    assert p in [p];
    KeepLastMembers(h, p);
    var i :| 0 <= i < |h| && h[i] == p && !MentionsDigest(h[i + 1..], p.releaseDigest);
    KeepLastEnd(h);
  }

  /** The release recorded last keeps the network path. */
  lemma LatestIsNeverRetained(r: Root, q: Query, h: seq<Pointer>)
    requires h != [] && RecordOf(r, q.trustRoot) == KeepLast(h) && Matches(q, h[|h| - 1])
    requires IsDigest(q.trustRoot)
    ensures RetainedRelease(r, q) == Ok(None)
  {
    hide KeepLast, IsDigest, Matching, Matches, RetainedManifest, DistinctDigests;
    KeepLastDistinct(h);
    KeepLastEnd(h);
    MatchingMembers(q, KeepLast(h));
    assert h[|h| - 1] in KeepLast(h);
  }

  // ---- The launcher's decision ----

  datatype Launch = Launch(command: Command, network: bool)

  /** Local re-activation if the anchored trust root retains the pinned release, else the network. */
  function Decide(r: Root, host: Host, anchored: bool, q: Query, gate: GateAnswer, staging: Staging,
                  staged: Staged): Result<Launch>
  {
    match (if anchored then RetainedRelease(r, q) else Ok(None))
    case Err(code) => Err(code)
    case Ok(Some(p)) => Ok(Launch(RollbackTo(host, p.releaseDigest, Some(q.trustRoot), gate), false))
    case Ok(None) =>
      if staged.releaseId != q.releaseId || staged.bundle.manifest.semanticVersion != q.semanticVersion then
        Err("VES_VESTRA_ACTIVATION_UNAVAILABLE")
      else Ok(Launch(ActivateRelease(host, staging, staged, Some(q.trustRoot), gate), true))
  }

  /** A bound rollback that succeeds rolled back to a recorded release. */
  lemma BoundRollbackIsRecorded(r: Root, host: Host, d: ReleaseDigest, t: TrustRoot, gate: GateAnswer)
    requires Inv(r) && RollbackPlan(r, host, d, Some(t), gate).result.Ok?
    ensures PointerFor(d) in RecordOf(r, t)
    ensures d.manifest.target.platform == host.platform && d.manifest.target.arch == host.arch
  {
    InstalledIsIntact(r, d);
    VerifyIsNormalForm(RecordIn(r.releases[d]).value.bundle, InstalledBundle(r, d).value);
    hide InstalledBundle, HealthOf, Inv;
  }

  /** A retained release that is complete re-activates without the network, from any disk no foreign
      journal blocks, exactly when no component of it claims the record's path; then the same query
      answers the same again, and otherwise nothing was written. */
  lemma RetainedPathWorks(r: Root, host: Host, q: Query, gate: GateAnswer, staging: Staging, staged: Staged, p: Pointer)
    requires Inv(r) && RetainedRelease(r, q) == Ok(Some(p))
    requires PresentComplete(r, p.releaseDigest) && !ForeignJournal(r, p)
    requires p.releaseDigest.manifest.target.platform == host.platform
    requires p.releaseDigest.manifest.target.arch == host.arch
    requires HealthOf(gate, p).Ok?
    ensures var launch := Decide(r, host, true, q, gate, staging, staged);
            && launch.Ok? && !launch.value.network
            && (Answer(r, launch.value.command).Ok? <==> SparesRecord(p))
            && (!SparesRecord(p) ==> Effects(r, launch.value.command) == [])
            && (SparesRecord(p) ==>
                 var r' := ApplyAll(r, Effects(r, launch.value.command));
                 r'.active == Some(p) && r'.journal == None && RetainedRelease(r', q) == Ok(Some(p)))
  {
    RetainedShape(r, q, p);
    var d := p.releaseDigest;
    assert Complete(r, p);
    IntactIff(r, p);
    hide Verify, Inv, HealthError, Matching, IsDigest, CompleteDirectory, SparesRecord, FilesMatch, RecordIn;
    if SparesRecord(p) {
      InstalledTarget(r, d);
      hide InstalledBundle;
      RollbackSteps(r, Journal(Rollback, PREPARED, p, r.active, HealthOf(gate, p).value));
      var r' := r.(active := Some(p), journal := None);
      assert RetainedRelease(r', q) == RetainedRelease(r, q);
    }
  }

  lemma RetainedShape(r: Root, q: Query, p: Pointer)
    requires RetainedRelease(r, q) == Ok(Some(p))
    ensures p.releaseDigest in r.releases && p == PointerFor(p.releaseDigest)
    ensures IsDigest(q.trustRoot) && VerifiedReleases(r, q.trustRoot).Ok?
    ensures p in VerifiedReleases(r, q.trustRoot).value
  {
    var entries := VerifiedReleases(r, q.trustRoot).value;
    MatchingMembers(q, entries);
    assert Matching(q, entries)[0] in Matching(q, entries);
    VerifiedPointer(RecordIn(r.releases[p.releaseDigest]).value.bundle,
                    Verify(RecordIn(r.releases[p.releaseDigest]).value.bundle).value);
  }

  lemma InstalledTarget(r: Root, d: ReleaseDigest)
    requires InstalledBundle(r, d).Ok?
    ensures InstalledBundle(r, d).value.manifest.target == d.manifest.target
  {
    VerifyIsNormalForm(RecordIn(r.releases[d]).value.bundle, InstalledBundle(r, d).value);
  }
}
