/** What health evidence the activation accepts, and that nothing becomes active or
    stays recorded without it. */
module HealthEvidence {
  import opened Results
  import opened CodeUnits
  import opened Text
  import opened HermeticBundle
  import opened InstallRoot
  import opened ActivationPlan
  import opened CrashConsistency
  import opened CrashRuns

  /** Some check of this name passed, with evidence. */
  predicate Passed(h: Health, name: string) {
    exists c :: c in h.checks && c.name == name && c.status == "pass" && IsDigest(c.evidenceDigest)
  }

  predicate ChecksPassed(h: Health) {
    |h.checks| == 3 && Passed(h, "migration") && Passed(h, "native") && Passed(h, "driver")
  }

  /** The launcher ran, and reported this release. */
  predicate RanAs(l: Launcher, id: string, p: Pointer) {
    && l.componentId == id && l.exitCode == 0
    && l.semanticVersion == p.semanticVersion && l.releaseDigest == p.releaseDigest
    && IsDigest(l.normalizedBehaviorDigest)
  }

  /** Three checks, the three required ones passed, and the two launchers that behaved alike. */
  ghost predicate Healthy(h: Health, p: Pointer) {
    && ChecksPassed(h)
    && |h.launchers| == 2
    && exists a, b ::
         && a in h.launchers && RanAs(a, "launcher:vestra", p)
         && b in h.launchers && RanAs(b, "launcher:verchestra", p)
         && a.normalizedBehaviorDigest == b.normalizedBehaviorDigest
  }

  lemma {:induction false} LauncherOfHolds(launchers: seq<Launcher>, id: string)
    ensures LauncherOf(launchers, id).Some? ==>
              LauncherOf(launchers, id).value in launchers && LauncherOf(launchers, id).value.componentId == id
    ensures LauncherOf(launchers, id).None? ==> forall l :: l in launchers ==> l.componentId != id
    decreases |launchers|
  {
    if launchers != [] {
      LauncherOfHolds(launchers[..|launchers| - 1], id);
      assert launchers == launchers[..|launchers| - 1] + [launchers[|launchers| - 1]];
    }
  }

  lemma PairOfLaunchers(launchers: seq<Launcher>, a: Launcher, b: Launcher)
    requires |launchers| == 2 && a in launchers && b in launchers && a.componentId != b.componentId
    ensures |KeySet(launchers, LauncherId)| == 2
    ensures LauncherOf(launchers, a.componentId) == Some(a) && LauncherOf(launchers, b.componentId) == Some(b)
  {
    assert launchers == [a, b] || launchers == [b, a];
    DistinctIffSetSize(launchers, LauncherId);
    assert launchers[..1] == [launchers[0]];
    assert LauncherOf(launchers[..1], launchers[0].componentId) == Some(launchers[0]);
  }

  lemma ChecksPassIff(h: Health)
    ensures (forall name :: name in HEALTH_NAMES ==>
               exists c :: c in h.checks && c.name == name && c.status == "pass" && IsDigest(c.evidenceDigest))
            <==> Passed(h, "migration") && Passed(h, "native") && Passed(h, "driver")
  {
    hide IsDigest;
    assert HEALTH_NAMES[0] in HEALTH_NAMES && HEALTH_NAMES[1] in HEALTH_NAMES && HEALTH_NAMES[2] in HEALTH_NAMES;
  }

  lemma IdsDiffer()
    ensures "launcher:vestra" != "launcher:verchestra"
  {
    assert |"launcher:vestra"| != |"launcher:verchestra"|;
  }

  /** The validation accepts exactly this evidence, and names the half that fails first. */
  lemma HealthErrorIff(h: Health, p: Pointer)
    ensures HealthError(h, p).None? <==> Healthy(h, p)
    ensures HealthError(h, p).Some? ==>
              HealthError(h, p).value == (if ChecksPassed(h) then "VES_ACTIVATION_LAUNCHER_MISMATCH"
                                          else "VES_ACTIVATION_HEALTH_FAILED")
  {
    ChecksPassIff(h);
    IdsDiffer();
    var ls := h.launchers;
    LauncherOfHolds(ls, "launcher:vestra");
    LauncherOfHolds(ls, "launcher:verchestra");
    hide IsDigest, Passed, LauncherOf, KeySet;
    if Healthy(h, p) {
      var a, b :| a in ls && RanAs(a, "launcher:vestra", p) && b in ls && RanAs(b, "launcher:verchestra", p)
        && a.normalizedBehaviorDigest == b.normalizedBehaviorDigest;
      PairOfLaunchers(ls, a, b);
    }
  }

  /** A gate that throws is never healthy, and an answer is kept exactly as given. */
  lemma HealthOfIff(gate: GateAnswer, p: Pointer)
    ensures HealthOf(gate, p).Ok? <==> gate.Answered? && Healthy(gate.health, p)
    ensures HealthOf(gate, p).Ok? ==> HealthOf(gate, p).value == gate.health
  {
    hide HealthError, Healthy;
    if gate.Answered? {
      HealthErrorIff(gate.health, p);
    }
  }

  /** A release that an activation newly makes active was answered for by such evidence. */
  lemma ActivatedWasHealthy(
    r: Root, host: Host, staging: Staging, staged: Staged, trust: Option<TrustRoot>, gate: GateAnswer)
    requires ActivatePlan(r, host, staging, staged, trust, gate).result.Ok?
    ensures OpenStage(host, staging, staged).Ok?
    ensures var target := PointerOf(OpenStage(host, staging, staged).value);
            r.active == Some(target) || (gate.Answered? && Healthy(gate.health, target))
  {
    hide OpenStage, HealthOf, Healthy, CopyEffects, ApplyAll, PayloadMatches, RecordEffects, AlreadyActivePlan;
    var bundle := OpenStage(host, staging, staged).value;
    var target := PointerOf(bundle);
    HealthOfIff(gate, target);
    if r.active != Some(target) && target.releaseDigest in r.releases {
      SameRelease(r, host, staging, staged);
    }
    hide InstalledBundle;
  }

  /** What is installed under a stage's digest is the release of that stage. */
  lemma SameRelease(r: Root, host: Host, staging: Staging, staged: Staged)
    requires OpenStage(host, staging, staged).Ok?
    ensures var d := OpenStage(host, staging, staged).value.releaseDigest;
            InstalledBundle(r, d).Ok? ==>
              PointerOf(InstalledBundle(r, d).value) == PointerOf(OpenStage(host, staging, staged).value)
  {
    var d := OpenStage(host, staging, staged).value.releaseDigest;
    OpenedBundle(host, staging, staged);
    if InstalledBundle(r, d).Ok? {
      VerifiedPointer(RecordIn(r.releases[d]).value.bundle, InstalledBundle(r, d).value);
    }
  }

  lemma RolledBackWasHealthy(r: Root, host: Host, d: ReleaseDigest, binding: Option<TrustRoot>, gate: GateAnswer)
    requires RollbackPlan(r, host, d, binding, gate).result.Ok?
    ensures gate.Answered? && Healthy(gate.health, PointerFor(d))
  {
    hide HealthOf, Healthy, BindingError, Verify;
    VerifiedPointer(RecordIn(r.releases[d]).value.bundle, InstalledBundle(r, d).value);
    HealthOfIff(gate, PointerFor(d));
  }

  /** On every disk that operations can leave, crashed anywhere, each release that has a record was
      healthy when it was published, and so was the target of the journal; the active one is among them. */
  lemma ReachedIsHealthy(attempts: seq<Attempt>)
    ensures var r := Run(EMPTY_ROOT, attempts);
            && (forall d :: d in r.releases && RecordIn(r.releases[d]).Some? ==>
                 Healthy(RecordIn(r.releases[d]).value.health, PointerFor(d)))
            && (r.journal.Some? ==> Healthy(r.journal.value.health, r.journal.value.target))
            && (r.active.Some? ==>
                 r.active.value.releaseDigest in r.releases && RecordIn(r.releases[r.active.value.releaseDigest]).Some?)
  {
    EmptyRootSound();
    RunKeepsInv(EMPTY_ROOT, attempts);
    var r := Run(EMPTY_ROOT, attempts);
    hide Run, HealthError, Healthy, Verify, OthersMatch;
    forall d | d in r.releases && RecordIn(r.releases[d]).Some?
      ensures Healthy(RecordIn(r.releases[d]).value.health, PointerFor(d))
    {
      assert RecordHealthy(r.releases[d], d);
      HealthErrorIff(RecordIn(r.releases[d]).value.health, PointerFor(d));
    }
    if r.journal.Some? {
      HealthErrorIff(r.journal.value.health, r.journal.value.target);
    }
  }
}
