/** A whole launch: decide over the local record, roll back or activate, then
    resolve what is active. What a launch of a retained release can do, cut anywhere. */
module Launcher {
  import opened Results
  import opened Text
  import opened HermeticBundle
  import opened InstallRoot
  import opened ActivationPlan
  import opened CrashConsistency
  import opened CrashRuns
  import opened VerifiedRecord
  import opened ActivationManager

  /** The release that runs, by its installed bytes. */
  function ResolveActive(r: Root): Result<Pointer> {
    if r.active.None? then Err("VES_ACTIVATION_POINTER_MISSING")
    else
      match InstalledBundle(r, r.active.value.releaseDigest)
      case Err(_) => Err("VES_ACTIVATION_INTEGRITY")
      case Ok(bundle) =>
        if PointerOf(bundle) != r.active.value then Err("VES_ACTIVATION_RELEASE_MIXED") else Ok(r.active.value)
  }

  function Runtimes(components: seq<Component>): seq<Component> {
    if components == [] then []
    else (if components[0].kind == "node-runtime" then [components[0]] else []) + Runtimes(components[1..])
  }

  /** What the launcher holds of the release it decided on: its digest and its components. */
  datatype Expected = Expected(releaseDigest: ReleaseDigest, components: seq<Component>)

  /** A retained release holds the components its digest names. */
  function RetainedAs(d: ReleaseDigest): Expected { Expected(d, d.manifest.components) }

  function StagedAs(staged: Staged): Expected { Expected(staged.releaseDigest, staged.bundle.manifest.components) }

  /** The launch ends with the expected release, which on the local path must still be the pinned one, and
      which must bring exactly one runtime to execute the launcher. */
  function Target(r: Root, q: Query, network: bool, expected: Expected): Result<Pointer> {
    match ResolveActive(r)
    case Err(code) => Err(code)
    case Ok(p) =>
      if (!network && !Matches(q, p)) || p.releaseDigest != expected.releaseDigest || |Runtimes(expected.components)| != 1
      then Err("VES_ACTIVATION_RELEASE_MIXED")
      else Ok(p)
  }

  /** `answer` is absent when the process died. */
  datatype Launched = Launched(disk: Root, network: bool, answer: Option<Result<Pointer>>)

  function Conclude(disk: Root, q: Query, network: bool, expected: Expected, outcome: Outcome): Launched {
    Launched(disk, network,
      match outcome
      case Crashed => None
      case Ended(Err(code)) => Some(Err(code))
      case Ended(Ok(_)) => Some(Target(disk, q, network, expected)))
  }

  function LaunchOf(
    r: Root, host: Host, anchored: bool, q: Query, gate: GateAnswer, staging: Staging, staged: Staged, budget: nat): Launched
  {
    match Decide(r, host, anchored, q, gate, staging, staged)
    case Err(code) => Launched(r, anchored ==> RetainedRelease(r, q).Ok?, Some(Err(code)))
    case Ok(launch) =>
      match launch.command
      case RollbackTo(_, d, binding, _) =>
        var plan := RollbackPlan(r, host, d, binding, gate);
        Conclude(ApplyAll(r, Cut(plan.effects, budget)), q, false, RetainedAs(d), OutcomeOf(plan, budget))
      case ActivateRelease(_, _, _, trust, _) =>
        var plan := ActivatePlan(r, host, staging, staged, trust, gate);
        Conclude(ApplyAll(r, Cut(plan.effects, budget)), q, true, StagedAs(staged), OutcomeOf(plan, budget))
      case Uninstall(_) => Launched(r, false, None)
  }

  /** The launcher as it runs, over a manager that may die at any write. */
  method Launch(manager: Manager, anchored: bool, q: Query, gate: GateAnswer, staging: Staging, staged: Staged)
    returns (network: bool, answer: Option<Result<Pointer>>)
    modifies manager
    ensures Launched(manager.Disk(), network, answer)
            == LaunchOf(old(manager.Disk()), manager.host, anchored, q, gate, staging, staged, old(manager.writesLeft))
  {
    hide RetainedRelease, ActivatePlan, RollbackPlan, Target;
    var retained := if anchored then RetainedRelease(manager.Disk(), q) else Ok(None);
    if retained.Err? {
      return false, Some(Err(retained.code));
    }
    if retained.value.Some? {
      var d := retained.value.value.releaseDigest;
      var outcome := manager.RollbackRelease(d, Some(q.trustRoot), gate);
      var launched := Conclude(manager.Disk(), q, false, RetainedAs(d), outcome);
      return false, launched.answer;
    }
    if staged.releaseId != q.releaseId || staged.bundle.manifest.semanticVersion != q.semanticVersion {
      return true, Some(Err("VES_VESTRA_ACTIVATION_UNAVAILABLE"));
    }
    var outcome := manager.Activate(staging, staged, Some(q.trustRoot), gate);
    var launched := Conclude(manager.Disk(), q, true, StagedAs(staged), outcome);
    return true, launched.answer;
  }

  // ---- A rollback touches neither releases nor records ----

  predicate MovesOnly(e: Effect) { e.WriteJournal? || e.SwitchPointer? || e.RemoveJournal? }

  lemma {:induction false} MovesKeepReleases(r: Root, effects: seq<Effect>)
    requires forall e :: e in effects ==> MovesOnly(e)
    ensures ApplyAll(r, effects).releases == r.releases && ApplyAll(r, effects).verified == r.verified
    decreases |effects|
  {
    if effects != [] {
      assert effects[0] in effects;
      MovesKeepReleases(Apply(r, effects[0]), effects[1..]);
    }
  }

  /** Wherever it is cut, a rollback, bound or not, leaves every release directory and every verified
      record as it was. */
  lemma RollbackKeepsRecord(r: Root, host: Host, d: ReleaseDigest, binding: Option<TrustRoot>, gate: GateAnswer, survives: nat)
    ensures var r' := After(r, Attempt(RollbackTo(host, d, binding, gate), survives));
            r'.verified == r.verified && r'.releases == r.releases
  {
    var es := RollbackPlan(r, host, d, binding, gate).effects;
    hide InstalledBundle, HealthOf, BindingError, ForeignJournal, ApplyAll;
    assert forall e :: e in es ==> MovesOnly(e);
    MovesKeepReleases(r, Cut(es, survives));
  }

  /** The retained release is read from releases and records alone. */
  lemma RetainedByRecord(r: Root, r': Root, q: Query)
    requires r'.releases == r.releases && r'.verified == r.verified
    ensures RetainedRelease(r', q) == RetainedRelease(r, q)
  {
    hide Verify, Matching, IsDigest, DistinctDigests;
  }

  lemma RetainedTarget(r: Root, host: Host, q: Query, gate: GateAnswer, p: Pointer)
    requires RetainedRelease(r, q) == Ok(Some(p))
    requires RollbackPlan(r, host, p.releaseDigest, Some(q.trustRoot), gate).result.Ok?
    ensures InstalledBundle(r, p.releaseDigest).Ok? && PointerOf(InstalledBundle(r, p.releaseDigest).value) == p
    ensures Matches(q, p)
  {
    RetainedShape(r, q, p);
    RetainedPick(r, q, p);
    MatchingMembers(q, RecordOf(r, q.trustRoot));
    assert p in Matching(q, RecordOf(r, q.trustRoot));
    VerifiedPointer(RecordIn(r.releases[p.releaseDigest]).value.bundle, InstalledBundle(r, p.releaseDigest).value);
  }

  /** A launch that finds a retained release, cut anywhere: it performs a prefix of the bound rollback to
      that release and nothing else; no staged or remote release, whatever it is, has any influence; the
      installed bytes and the record are untouched, so the release stays retained; a refused launch changes
      nothing at all, and its answer is the rollback's; a successful one runs exactly the retained release,
      unless that has several runtimes. */
  lemma RetainedLaunchIsLocal(
    r: Root, host: Host, q: Query, gate: GateAnswer, staging: Staging, staged: Staged, budget: nat, p: Pointer)
    requires RetainedRelease(r, q) == Ok(Some(p))
    ensures var plan := RollbackPlan(r, host, p.releaseDigest, Some(q.trustRoot), gate);
            var l := LaunchOf(r, host, true, q, gate, staging, staged, budget);
            && !l.network
            && l.disk == ApplyAll(r, Cut(plan.effects, budget))
            && l.disk.releases == r.releases && l.disk.verified == r.verified
            && RetainedRelease(l.disk, q) == Ok(Some(p))
            && (l.answer == None <==> budget < |plan.effects|)
            && (plan.result.Err? ==> l.answer == Some(Err(plan.result.code)) && l.disk == r)
            && (plan.result.Ok? && l.answer.Some? ==>
                 && l.disk == r.(active := Some(p), journal := None)
                 && l.answer == Some(if |Runtimes(p.releaseDigest.manifest.components)| == 1 then Ok(p)
                                     else Err("VES_ACTIVATION_RELEASE_MIXED")))
    ensures forall staging', staged' ::
              LaunchOf(r, host, true, q, gate, staging', staged', budget) == LaunchOf(r, host, true, q, gate, staging, staged, budget)
  {
    hide RetainedRelease, RollbackPlan, ApplyAll, Matches, InstalledBundle;
    var plan := RollbackPlan(r, host, p.releaseDigest, Some(q.trustRoot), gate);
    var disk := ApplyAll(r, Cut(plan.effects, budget));
    RollbackKeepsRecord(r, host, p.releaseDigest, Some(q.trustRoot), gate, budget);
    RetainedByRecord(r, disk, q);
    if plan.result.Ok? {
      RetainedTarget(r, host, q, gate, p);
      RetainedRun(r, host, q, gate, p);
    } else {
      assert plan.effects == [] by { RefusedWritesNothing(r, host, p.releaseDigest, Some(q.trustRoot), gate); }
    }
    InstalledByReleases(r, disk, p.releaseDigest);
    NoWrites(r);
  }

  lemma NoWrites(r: Root)
    ensures ApplyAll(r, []) == r
  {
  }

  lemma InstalledByReleases(r: Root, r': Root, d: ReleaseDigest)
    requires r'.releases == r.releases
    ensures InstalledBundle(r', d) == InstalledBundle(r, d)
  {
    hide Verify, FilesMatch;
  }

  lemma RefusedWritesNothing(r: Root, host: Host, d: ReleaseDigest, binding: Option<TrustRoot>, gate: GateAnswer)
    ensures var plan := RollbackPlan(r, host, d, binding, gate); plan.result.Err? ==> plan.effects == []
  {
    hide InstalledBundle, HealthOf, BindingError, ForeignJournal;
  }

  lemma RetainedRun(r: Root, host: Host, q: Query, gate: GateAnswer, p: Pointer)
    requires RetainedRelease(r, q) == Ok(Some(p))
    requires RollbackPlan(r, host, p.releaseDigest, Some(q.trustRoot), gate).result.Ok?
    ensures ApplyAll(r, RollbackPlan(r, host, p.releaseDigest, Some(q.trustRoot), gate).effects)
            == r.(active := Some(p), journal := None)
  {
    RetainedTarget(r, host, q, gate, p);
    hide InstalledBundle, BindingError, ForeignJournal, RetainedRelease, HealthError, ApplyAll, RollbackEffects;
    RollbackSwitches(r, Journal(Rollback, PREPARED, p, r.active, HealthOf(gate, p).value));
  }

  lemma RollbackSwitches(r: Root, prepared: Journal)
    ensures ApplyAll(r, RollbackEffects(prepared)) == r.(active := Some(prepared.target), journal := None)
  {
    hide ApplyAll;
    var es := RollbackEffects(prepared);
    ApplyFour(r, es[0], es[1], es[2], es[3]);
  }
}
