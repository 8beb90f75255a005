/** A smallest release that the bundle rules accept, and its first activation on
    an empty machine: the hypotheses of the crash and recovery theorems are met.
    And the same release with one component at or inside the record's path. */
module FirstRelease {
  import opened Results
  import opened CodeUnits
  import opened Text
  import opened HermeticBundle
  import opened InstallRoot
  import opened ActivationPlan
  import opened CrashConsistency
  import opened CrashRuns
  import opened Recovery

  function Zeros(n: nat): (s: string)
    ensures |s| == n && forall c :: c in s ==> c == '0'
  {
    if n == 0 then "" else "0" + Zeros(n - 1)
  }

  const DIGEST := "sha256:" + Zeros(64)
  const TARGET := Target("linux", "x64", "24.0.0")

  /** The single kinds get the letters from A on: K is the license, M and N the attestations. */
  function Letter(i: nat): string
    requires i < 26
  {
    [(i + 65) as char]
  }

  function Plain(id: string, path: string, kind: string): Component {
    Component(
      id, kind, "r", if kind in TARGET_KINDS then "linux" else "any", if kind in TARGET_KINDS then "x64" else "any",
      path, DIGEST, 1, if kind in EVIDENCE_KINDS then [] else ["K"], if kind in EVIDENCE_KINDS then [] else ["M", "N"],
      kind == "node-runtime" || kind == "launcher")
  }

  function Singles(odd: string): seq<Component> {
    seq(14, i requires 0 <= i < 14 => Plain(Letter(i), PathAt(odd, i), REQUIRED_SINGLE_KINDS[i]))
  }

  function Components(odd: string): seq<Component> {
    Singles(odd) + [Plain("launcher:verchestra", "y", "launcher"), Plain("launcher:vestra", "x", "launcher")]
  }

  function FirstManifest(odd: string): Manifest {
    Manifest(1, "r", "1.0.0", "2026-01-01T00:00:00.000Z", TARGET, false, Components(odd))
  }

  predicate IsPlainPath(path: string) {
    (|path| == 1 && (IsUpper(path[0]) || path == "x" || path == "y")) || path == RECORD || path == RECORD + "/x"
  }

  /** The paths the first component can have: an ordinary one, the record's, and one inside it. */
  predicate IsOdd(path: string) { path == "A" || path == RECORD || path == RECORD + "/x" }

  lemma PlainFits(id: string, path: string, kind: string)
    requires kind in KINDS
    ensures var p := Plain(id, path, kind);
            && p.componentId == id && p.kind == kind && p.releaseId == "r" && p.logicalPath == path
            && p.contentDigest == DIGEST && p.sizeBytes == 1
            && (p.platform == "any" || p.platform in PLATFORMS) && (p.arch == "any" || p.arch in ARCHES)
            && (if kind in TARGET_KINDS then p.platform == TARGET.platform && p.arch == TARGET.arch
                else p.platform == p.arch == "any")
            && p.executable == (kind == "node-runtime" || kind == "launcher")
  {
    hide Zeros;
    assert "linux" in PLATFORMS && "x64" in ARCHES;
  }

  lemma PlainRefsKept(id: string, path: string, kind: string)
    ensures var p := Plain(id, path, kind); Refs(p.licenseRefs) == Ok(p.licenseRefs) && Refs(p.attestationRefs) == Ok(p.attestationRefs)
  {
    PlainRefs();
    hide Refs, Zeros;
  }

  lemma PlainIsNormal(id: string, path: string, kind: string)
    requires IsSafeId(id) && kind in KINDS && IsPlainPath(path)
    ensures NormalizeComponent(Plain(id, path, kind), "r", TARGET) == Ok(Plain(id, path, kind))
  {
    PlainTexts(path);
    PlainFits(id, path, kind);
    PlainRefsKept(id, path, kind);
    hide IsDigest, IsSafeId, IsLogicalPath, Refs, IsPlainPath, Zeros, Plain;
  }

  lemma PlainTexts(path: string)
    requires IsPlainPath(path)
    ensures IsDigest(DIGEST) && IsSafeId("r") && IsLogicalPath(path)
  {
    assert IsDigest(DIGEST) by {
      assert DIGEST[7..] == Zeros(64) && DIGEST[..7] == "sha256:";
    }
    if |path| == 1 {
      SegmentIsSafe(path);
      hide IsSafeSegment, IsDigest, Split;
      assert '/' !in path;
      SplitWhole(path, '/');
    } else {
      RecordPathsAreSafe();
    }
  }

  lemma RecordSegments()
    ensures Split(RECORD, '.') == ["release", "json"] && '/' !in RECORD
  {
    hide Split;
    var parts := ["release", "json"];
    assert '.' !in "release" && '.' !in "json";
    SplitJoin(parts, '.');
    assert parts[1..] == ["json"];
    assert Join(["json"], ".") == "json";
    assert Join(parts, ".") == "release" + "." + "json" == RECORD;
  }

  lemma ReleaseIsNotReserved()
    ensures Lower("release") !in RESERVED_NAMES
  {
    hide Lower;
    assert |Lower("release")| == 7;
  }

  lemma RecordIsSafe()
    ensures IsSafeSegment(RECORD) && '/' !in RECORD
  {
    RecordSegments();
    ReleaseIsNotReserved();
    hide Split, Lower;
    assert |RECORD| == 12 && RECORD[0] == 'r' && RECORD[11] == 'n';
    assert forall c :: c in RECORD ==> IsLower(c) || c == '.';
  }

  lemma XIsSafe()
    ensures IsSafeSegment("x")
  {
    XIsPlain();
    hide IsSafeSegment, IsPlainPath;
    SegmentIsSafe("x");
  }

  lemma RecordPathsAreSafe()
    ensures IsLogicalPath(RECORD) && IsLogicalPath(RECORD + "/x")
  {
    RecordIsSafe();
    XIsSafe();
    hide IsSafeSegment, Split;
    var parts := [RECORD, "x"];
    assert '/' !in "x";
    SplitJoin(parts, '/');
    assert parts[1..] == ["x"];
    assert Join(["x"], "/") == "x";
    assert Join(parts, "/") == RECORD + "/" + "x" == RECORD + "/x";
    SplitWhole(RECORD, '/');
  }

  lemma XIsPlain()
    ensures IsPlainPath("x")
  {
  }

  lemma ReservedAreLonger(name: string)
    requires |name| == 1
    ensures name !in RESERVED_NAMES
  {
  }

  lemma SegmentIsSafe(path: string)
    requires IsPlainPath(path) && |path| == 1
    ensures IsSafeSegment(path)
  {
    hide Split;
    assert '.' !in path;
    SplitWhole(path, '.');
    ReservedAreLonger(Lower(path));
  }

  lemma PlainRefs()
    ensures Refs([]) == Ok([]) && Refs(["K"]) == Ok(["K"]) && Refs(["M", "N"]) == Ok(["M", "N"])
  {
    var one, two := ["K"], ["M", "N"];
    assert Less("M", "N");
    SortFixed(one, Whole);
    SortFixed(two, Whole);
    DistinctIffSetSize(one, Whole);
    DistinctIffSetSize(two, Whole);
    assert IsSafeId("K") && IsSafeId("M") && IsSafeId("N");
    assert "M"[0] != "N"[0];
  }

  lemma LaunchersAreSorted()
    ensures Less("launcher:verchestra", "launcher:vestra")
  {
    LessPrefix("launcher:ve", "rchestra", "stra");
    assert "launcher:ve" + "rchestra" == "launcher:verchestra" && "launcher:ve" + "stra" == "launcher:vestra";
  }

  lemma LetterBefore(i: nat, id: string)
    requires i < 14 && id != "" && id[0] > 'N'
    ensures Less(Letter(i), id)
  {
  }

  lemma LettersInOrder(i: nat, j: nat)
    requires i < j < 26
    ensures Less(Letter(i), Letter(j)) && Letter(i) != Letter(j)
  {
    assert Letter(i)[0] < Letter(j)[0];
  }

  function IdAt(i: nat): string
    requires i < 16
  {
    if i < 14 then Letter(i) else if i == 14 then "launcher:verchestra" else "launcher:vestra"
  }

  function PathAt(odd: string, i: nat): string
    requires i < 16
  {
    if i == 0 then odd else if i < 14 then Letter(i) else if i == 14 then "y" else "x"
  }

  lemma ComponentAt(odd: string, i: nat)
    requires IsOdd(odd)
    requires i < 16
    ensures |Components(odd)| == 16 && Components(odd)[i].componentId == IdAt(i) && Components(odd)[i].logicalPath == PathAt(odd, i)
  {
  }

  lemma PathsDiffer(odd: string, i: nat, j: nat)
    requires IsOdd(odd) && i < j < 16
    ensures PathAt(odd, i) != PathAt(odd, j)
  {
    assert |PathAt(odd, j)| == 1;
    if |PathAt(odd, i)| == 1 {
      assert PathAt(odd, i)[0] != PathAt(odd, j)[0];
    }
  }

  lemma PairInOrder(odd: string, i: nat, j: nat)
    requires IsOdd(odd)
    requires i < j < 16
    ensures Less(IdAt(i), IdAt(j)) && PathAt(odd, i) != PathAt(odd, j)
  {
    hide Less;
    LaunchersAreSorted();
    if j < 14 {
      LettersInOrder(i, j);
    } else if i < 14 {
      LetterBefore(i, IdAt(j));
    }
    PathsDiffer(odd, i, j);
  }

  lemma ComponentsAreSorted(odd: string)
    requires IsOdd(odd)
    ensures StrictlySorted(Components(odd), Id) && DistinctKeys(Components(odd), Path)
  {
    hide Less, Components, IdAt, PathAt;
    var cs := Components(odd);
    ComponentAt(odd, 0);
    forall i, j | 0 <= i < j < |cs|
      ensures Less(Id(cs[i]), Id(cs[j])) && Path(cs[i]) != Path(cs[j])
    {
      ComponentAt(odd, i);
      ComponentAt(odd, j);
      PairInOrder(odd, i, j);
    }
  }

  function KindAt(i: nat): string
    requires i < 16
  {
    if i < 14 then REQUIRED_SINGLE_KINDS[i] else "launcher"
  }

  lemma PlainAt(odd: string, i: nat)
    requires IsOdd(odd)
    requires i < 16
    ensures |Components(odd)| == 16 && Components(odd)[i] == Plain(IdAt(i), PathAt(odd, i), KindAt(i))
    ensures KindAt(i) in KINDS && IsPlainPath(PathAt(odd, i))
  {
  }

  lemma IdIsSafe(i: nat)
    requires i < 16
    ensures IsSafeId(IdAt(i))
  {
    LauncherIdsAreSafe();
    assert i < 14 ==> IsSafeId(Letter(i));
  }

  lemma ComponentIsNormal(odd: string, i: nat)
    requires IsOdd(odd)
    requires i < 16
    ensures |Components(odd)| == 16 && NormalizeComponent(Components(odd)[i], "r", TARGET) == Ok(Components(odd)[i])
  {
    PlainAt(odd, i);
    IdIsSafe(i);
    hide Components, KindAt, PathAt, NormalizeComponent, Plain, IsPlainPath, IdAt, IsSafeId, IsOdd;
    PlainIsNormal(IdAt(i), PathAt(odd, i), KindAt(i));
  }

  lemma ComponentsAreNormal(odd: string)
    requires IsOdd(odd)
    ensures NormalizeAll(Components(odd), "r", TARGET) == Ok(Components(odd))
  {
    hide Components, NormalizeComponent, NormalizeAll;
    var cs := Components(odd);
    NormalizeAllPointwise(cs, "r", TARGET);
    ComponentAt(odd, 0);
    forall i | 0 <= i < |cs|
      ensures NormalizeComponent(cs[i], "r", TARGET) == Ok(cs[i])
    {
      ComponentIsNormal(odd, i);
    }
    assert NormalizeAll(cs, "r", TARGET).value == cs;
  }

  lemma LauncherIdsAreSafe()
    ensures IsSafeId("launcher:vestra") && IsSafeId("launcher:verchestra")
  {
    assert forall c :: c in "launcher:vestra" || c in "launcher:verchestra" ==> IsLower(c) || c == ':';
  }

  lemma {:induction false} NoLaunchers(cs: seq<Component>, rest: seq<Component>)
    requires forall c :: c in cs ==> c.kind != "launcher"
    ensures Launchers(cs + rest) == Launchers(rest)
  {
    if cs == [] {
      assert cs + rest == rest;
    } else {
      assert (cs + rest)[1..] == cs[1..] + rest;
      NoLaunchers(cs[1..], rest);
    }
  }

  lemma TwoLaunchers(odd: string)
    requires IsOdd(odd)
    ensures |Launchers(Components(odd))| == 2
  {
    var a, b := Plain("launcher:verchestra", "y", "launcher"), Plain("launcher:vestra", "x", "launcher");
    forall c | c in Singles(odd)
      ensures c.kind != "launcher"
    {
      var i :| 0 <= i < 14 && Singles(odd)[i] == c;
      SingleKindsAreNotLaunchers(i);
    }
    NoLaunchers(Singles(odd), [a, b]);
    assert [a, b][1..] == [b] && [b][1..] == [];
    assert Launchers([b]) == [b] + Launchers([b][1..]);
    assert Launchers([a, b]) == [a] + Launchers([a, b][1..]);
  }

  lemma SingleKindsAreNotLaunchers(i: nat)
    requires i < 14
    ensures REQUIRED_SINGLE_KINDS[i] != "launcher"
  {
  }

  lemma KeysAreCounted(odd: string)
    requires IsOdd(odd)
    ensures |KeySet(Components(odd), Id)| == |Components(odd)| && |KeySet(Components(odd), Path)| == |Components(odd)|
    ensures DistinctKeys(Components(odd), Id)
  {
    hide Components, Less;
    var cs := Components(odd);
    ComponentsAreSorted(odd);
    forall i, j | 0 <= i < j < |cs|
      ensures Id(cs[i]) != Id(cs[j])
    {
      LessIrreflexive(Id(cs[i]));
    }
    DistinctIffSetSize(cs, Path);
    DistinctIffSetSize(cs, Id);
  }

  lemma SingleResolves(odd: string, i: nat)
    requires IsOdd(odd)
    requires i < 14
    ensures Resolves(Components(odd), Letter(i), REQUIRED_SINGLE_KINDS[i])
  {
    var c := Components(odd)[i];
    assert c == Plain(Letter(i), PathAt(odd, i), REQUIRED_SINGLE_KINDS[i]);
    assert c in Components(odd);
  }

  lemma KindsArePresent(odd: string, kind: string)
    requires IsOdd(odd)
    requires kind in REQUIRED_SINGLE_KINDS
    ensures exists c :: c in Components(odd) && c.kind == kind
  {
    hide Components, Letter;
    var i :| 0 <= i < 14 && REQUIRED_SINGLE_KINDS[i] == kind;
    SingleResolves(odd, i);
  }

  lemma LaunchersArePresent(odd: string)
    requires IsOdd(odd)
    ensures exists c :: c in Launchers(Components(odd)) && c.componentId == "launcher:vestra"
    ensures exists c :: c in Launchers(Components(odd)) && c.componentId == "launcher:verchestra"
  {
    var a, b := Components(odd)[14], Components(odd)[15];
    LaunchersAre(Components(odd));
    assert a in Components(odd) && a.kind == "launcher" && a.componentId == "launcher:verchestra";
    assert b in Components(odd) && b.kind == "launcher" && b.componentId == "launcher:vestra";
  }

  lemma PlainReferences(odd: string, c: Component)
    requires IsOdd(odd)
    requires c in Components(odd) && c.kind !in EVIDENCE_KINDS
    ensures c.licenseRefs == ["K"] && c.attestationRefs == ["M", "N"]
  {
  }

  lemma ReferencesResolve(odd: string, c: Component)
    requires IsOdd(odd)
    requires c in Components(odd)
    ensures ReferencesClosed(Components(odd), c)
  {
    hide Components, Resolves;
    SingleResolves(odd, 10);
    SingleResolves(odd, 12);
    SingleResolves(odd, 13);
    assert Letter(10) == "K" && Letter(12) == "M" && Letter(13) == "N";
    assert REQUIRED_SINGLE_KINDS[10] == "license" && REQUIRED_SINGLE_KINDS[12] == "provenance";
    assert REQUIRED_SINGLE_KINDS[13] == "evaluation";
    if c.kind !in EVIDENCE_KINDS {
      PlainReferences(odd, c);
      assert c.attestationRefs[0] == "M" && c.attestationRefs[1] == "N";
    }
  }

  lemma ComponentsAreClosed(odd: string)
    requires IsOdd(odd)
    ensures ClosureError(Components(odd)) == None
  {
    hide Components, KeySet, Launchers, ReferencesClosed, FirstReferenceError;
    KeysAreCounted(odd);
    TwoLaunchers(odd);
    LaunchersArePresent(odd);
    forall kind | kind in REQUIRED_SINGLE_KINDS
      ensures exists c :: c in Components(odd) && c.kind == kind
    {
      KindsArePresent(odd, kind);
    }
    forall c | c in Components(odd)
      ensures ReferencesClosed(Components(odd), c)
    {
      ReferencesResolve(odd, c);
    }
    FirstReferenceErrorIff(Components(odd), Components(odd));
  }

  /** The bundle rules accept some release. */
  lemma FirstReleaseIsAccepted(odd: string)
    requires IsOdd(odd)
    ensures Build(FirstManifest(odd)).Ok? && Build(FirstManifest(odd)).value.manifest == FirstManifest(odd)
  {
    hide NormalizeAll, SortBy, ClosureError, Components, IsSemver, IsInstant;
    ComponentsAreSorted(odd);
    ComponentsAreNormal(odd);
    ComponentsAreClosed(odd);
    SortFixed(Components(odd), Id);
    ManifestTexts(odd);
  }

  lemma InstantText()
    ensures IsInstant("2026-01-01T00:00:00.000Z")
  {
  }

  lemma ManifestTexts(odd: string)
    requires IsOdd(odd)
    ensures IsSafeId("r") && IsSemver("1.0.0") && IsInstant("2026-01-01T00:00:00.000Z")
    ensures IsSafeId("linux") && IsSafeId("x64") && IsNodeVersion("24.0.0") && Components(odd) != []
  {
    hide Components, IsInstant, IsNodeVersion;
    InstantText();
    VersionText("1", "0", "0");
    VersionText("24", "0", "0");
    assert "1" + "." + "0" + "." + "0" == "1.0.0" && "24" + "." + "0" + "." + "0" == "24.0.0";
    ComponentAt(odd, 0);
    assert IsSafeId("linux") && IsSafeId("x64");
  }

  lemma VersionText(a: string, b: string, c: string)
    requires IsNumber(a) && IsNumber(b) && IsNumber(c)
    ensures IsNodeVersion(a + "." + b + "." + c)
  {
    var parts := [a, b, c];
    assert '.' !in a && '.' !in b && '.' !in c;
    SplitJoin(parts, '.');
    assert parts[1..] == [b, c] && [b, c][1..] == [c];
    assert Join([b, c], ".") == b + "." + c;
    assert Join(parts, ".") == a + "." + (b + "." + c) == a + "." + b + "." + c;
  }

  // ---- Its first activation ----

  const FIRST_HOST := Host("linux", "x64")

  function FirstBundle(odd: string): Bundle { Bundle(FirstManifest(odd), Sha256(FirstManifest(odd))) }

  function FirstStaged(odd: string): Staged {
    Staged(Sha256(FirstManifest(odd)), "r", Sha256(FirstManifest(odd)), "linux", "x64", FirstBundle(odd), Project(Components(odd)), false)
  }

  function FirstFiles(odd: string): Directory {
    map p | p in KeySet(Components(odd), Path) :: Bytes(1, DIGEST)
  }

  function FirstStaging(odd: string): Staging {
    map[Sha256(FirstManifest(odd)) := FirstFiles(odd)[RECEIPT := StageReceipt(FirstStaged(odd))]]
  }

  function FirstPointer(odd: string): Pointer { PointerOf(FirstBundle(odd)) }

  function GoodLauncher(odd: string, id: string): Launcher {
    Launcher(id, 0, "1.0.0", Sha256(FirstManifest(odd)), DIGEST)
  }

  function GoodHealth(odd: string): Health {
    Health([Check("migration", "pass", DIGEST), Check("native", "pass", DIGEST), Check("driver", "pass", DIGEST)],
           [GoodLauncher(odd, "launcher:vestra"), GoodLauncher(odd, "launcher:verchestra")])
  }

  function FirstActivation(odd: string): Command {
    ActivateRelease(FIRST_HOST, FirstStaging(odd), FirstStaged(odd), Some(DIGEST), Answered(GoodHealth(odd)))
  }

  lemma ReceiptHoldsNothing(p: string)
    ensures !Below(RECEIPT, p)
  {
    assert forall i :: 0 <= i < |RECEIPT| ==> RECEIPT[i] != '/';
    assert (p + "/")[|p|] == '/';
  }

  lemma PlainIsFlat(p: string, q: string)
    requires IsPlainPath(p) && IsPlainPath(q) && (|p| == 1 || |q| == 1)
    ensures !Below(p, q) && !Below(p, RECEIPT) && p != RECEIPT
  {
    assert (q + "/")[|q|] == '/' && (RECEIPT + "/")[0] == 's' && RECEIPT[0] == 's';
    if |p| > 1 {
      assert p[0] == 'r' && (q + "/")[0] == q[0] != 'r';
    }
  }

  lemma PathIsAt(odd: string, p: string)
    requires IsOdd(odd) && p in KeySet(Components(odd), Path)
    ensures IsPlainPath(p) && (|p| == 1 || p == odd)
  {
    hide Components;
    var c :| c in Components(odd) && Path(c) == p;
    ComponentAt(odd, 0);
    var i :| 0 <= i < 16 && Components(odd)[i] == c;
    ComponentAt(odd, i);
    PlainAt(odd, i);
  }

  lemma RecordIsNotInside()
    ensures !Below(RECORD, RECORD) && !Below(RECORD + "/x", RECORD + "/x")
  {
    RecordHoldsNothing(RECORD);
  }

  lemma PathsAreFlat(odd: string, p: string, q: string)
    requires IsOdd(odd) && p in KeySet(Components(odd), Path) && q in KeySet(Components(odd), Path)
    ensures !Below(p, q) && !Below(p, RECEIPT) && p != RECEIPT
  {
    PathIsAt(odd, p);
    PathIsAt(odd, q);
    hide Components, KeySet, IsPlainPath, IsOdd;
    if |p| == 1 || |q| == 1 {
      PlainIsFlat(p, q);
    } else {
      XIsPlain();
      PlainIsFlat(p, "x");
      RecordIsNotInside();
      assert p == q;
    }
  }

  lemma FirstFilesMatch(odd: string)
    requires IsOdd(odd)
    ensures var dir := FirstFiles(odd)[RECEIPT := StageReceipt(FirstStaged(odd))];
            FilesMatch(dir, Components(odd)) && ReceiptMatches(dir, FirstStaged(odd))
  {
    hide Components, Below, IsOdd, FirstStaged;
    var dir := FirstFiles(odd)[RECEIPT := StageReceipt(FirstStaged(odd))];
    ReceiptHoldsNothing(RECEIPT);
    forall c | c in Components(odd)
      ensures FileMatches(dir, c)
    {
      assert Path(c) in KeySet(Components(odd), Path);
      PlainSizes(odd, c);
      ReceiptHoldsNothing(c.logicalPath);
      PathsAreFlat(odd, c.logicalPath, c.logicalPath);
      forall q | q in FirstFiles(odd)
        ensures !Below(q, c.logicalPath)
      {
        PathsAreFlat(odd, q, c.logicalPath);
      }
    }
    forall q | q in FirstFiles(odd)
      ensures !Below(q, RECEIPT)
    {
      PathsAreFlat(odd, q, q);
    }
  }

  lemma FirstStageOpens(odd: string)
    requires IsOdd(odd)
    ensures OpenStage(FIRST_HOST, FirstStaging(odd), FirstStaged(odd)) == Ok(FirstBundle(odd))
  {
    hide Build, Verify, Components, FilesMatch, ReceiptMatches, Project, FirstFiles, IsOdd;
    assert Build(FirstManifest(odd)) == Ok(FirstBundle(odd)) by { FirstBundleIsBuilt(odd); }
    VerifyBuilt(FirstManifest(odd), FirstBundle(odd));
    FirstFilesMatch(odd);
  }

  lemma FirstBundleIsBuilt(odd: string)
    requires IsOdd(odd)
    ensures Build(FirstManifest(odd)) == Ok(FirstBundle(odd))
  {
    hide NormalizeInput;
    FirstReleaseIsAccepted(odd);
  }

  lemma PlainSizes(odd: string, c: Component)
    requires IsOdd(odd)
    requires c in Components(odd)
    ensures c.sizeBytes == 1 && c.contentDigest == DIGEST
  {
    hide Letter, Zeros;
  }

  lemma FirstHealthPasses(odd: string)
    requires IsOdd(odd)
    ensures HealthOf(Answered(GoodHealth(odd)), FirstPointer(odd)) == Ok(GoodHealth(odd))
  {
    hide Components, IsDigest;
    PlainTexts("x");
    var h := GoodHealth(odd);
    assert h.checks[0] in h.checks && h.checks[1] in h.checks && h.checks[2] in h.checks;
    assert "launcher:vestra"[11] != "launcher:verchestra"[11];
    var launchers := h.launchers;
    assert launchers[..1] == [launchers[0]];
    assert LauncherOf(launchers[..1], "launcher:vestra") == Some(launchers[0]);
    DistinctIffSetSize(launchers, LauncherId);
    assert h.checks[0].name == "migration" && h.checks[1].name == "native" && h.checks[2].name == "driver";
  }

  lemma OddIsComponent(odd: string)
    requires IsOdd(odd)
    ensures exists c :: c in Components(odd) && c.logicalPath == odd
    ensures forall c :: c in Components(odd) ==> |c.logicalPath| == 1 || c.logicalPath == odd
  {
    hide Components;
    ComponentAt(odd, 0);
    forall c | c in Components(odd)
      ensures |c.logicalPath| == 1 || c.logicalPath == odd
    {
      assert Path(c) in KeySet(Components(odd), Path);
      PathIsAt(odd, Path(c));
    }
    assert Components(odd)[0] in Components(odd);
  }

  /** Only the two other paths are in the record's way. */
  lemma RecordPaths(odd: string)
    requires IsOdd(odd)
    ensures SparesRecord(FirstPointer(odd)) <==> odd != RECORD
    ensures BlocksRecordOf(FirstPointer(odd)) <==> odd == RECORD + "/x"
  {
    OddIsComponent(odd);
    hide Components;
    RecordIsNotInside();
    assert (RECORD + "/")[0] == RECORD[0] == 'r' && |RECORD| == 12;
    forall c | c in Components(odd)
      ensures Below(c.logicalPath, RECORD) ==> c.logicalPath == odd == RECORD + "/x"
    {
      if c.logicalPath == "A" {
        assert !Below("A", RECORD);
      }
    }
    if odd == RECORD + "/x" {
      var c :| c in Components(odd) && c.logicalPath == odd;
      assert RECORD + "/" <= RECORD + "/x" by { assert RECORD + "/x" == RECORD + "/" + "x"; }
    }
  }

  lemma FirstCommand(odd: string)
    requires IsOdd(odd)
    ensures TargetOf(FirstActivation(odd)) == Some(FirstPointer(odd)) && Recoverable(EMPTY_ROOT, FirstPointer(odd))
    ensures OpenStage(FIRST_HOST, FirstStaging(odd), FirstStaged(odd)) == Ok(FirstBundle(odd))
    ensures TrustValid(Some(DIGEST)) && HealthOf(Answered(GoodHealth(odd)), FirstPointer(odd)).Ok?
  {
    FirstStageOpens(odd);
    FirstHealthPasses(odd);
    PlainTexts("x");
    EmptyRootSound();
    hide OpenStage, HealthOf, IsDigest, Inv, Components;
  }

  /** On an empty machine the first activation, retried after any crashes, succeeds and leaves the
      release active, intact and recorded. */
  lemma FirstActivationEnds(attempts: seq<Attempt>)
    requires forall a :: a in attempts ==> a.command == FirstActivation("A")
    ensures Converges(EMPTY_ROOT, attempts, FirstActivation("A"), FirstPointer("A"))
  {
    FirstCommand("A");
    RecordPaths("A");
    assert "A" != RECORD && "A" != RECORD + "/x";
    hide OpenStage, HealthOf, IsDigest, Converges, TargetOf, Recoverable, SparesRecord, BlocksRecordOf;
    RetriesConverge(EMPTY_ROOT, attempts, FirstActivation("A"), FirstPointer("A"));
  }

  /** With a component at the record's path the bundle is accepted and its activation succeeds, and the
      active release is not intact; every further operation on it, after anything but a purge, is refused. */
  lemma RecordOverwritesComponent(attempts: seq<Attempt>, command: Command)
    requires forall a :: a in attempts ==> !Purging(a.command)
    requires !command.Uninstall? && TargetOf(command) == Some(FirstPointer(RECORD))
    ensures Build(FirstManifest(RECORD)).Ok? && Answer(EMPTY_ROOT, FirstActivation(RECORD)).Ok?
    ensures var r1 := ApplyAll(EMPTY_ROOT, Effects(EMPTY_ROOT, FirstActivation(RECORD)));
            && r1.active == Some(FirstPointer(RECORD)) && !Intact(r1, FirstPointer(RECORD))
            && Answer(Run(r1, attempts), command).Err? && Effects(Run(r1, attempts), command) == []
  {
    var first, target := FirstActivation(RECORD), FirstPointer(RECORD);
    FirstCommand(RECORD);
    FirstReleaseIsAccepted(RECORD);
    RecordPaths(RECORD);
    assert |RECORD| != |RECORD + "/x"|;
    hide OpenStage, HealthOf, IsDigest, TargetOf, SparesRecord, BlocksRecordOf, Components, Build, Inv, Run, Complete;
    ActivationSucceedsIff(EMPTY_ROOT, FIRST_HOST, FirstStaging(RECORD), FirstStaged(RECORD), Some(DIGEST),
                          Answered(GoodHealth(RECORD)));
    hide ActivatePlan, ApplyAll;
    ActivationEnds(EMPTY_ROOT, FIRST_HOST, FirstStaging(RECORD), FirstStaged(RECORD), Some(DIGEST),
                   Answered(GoodHealth(RECORD)));
    AttemptFinishes(EMPTY_ROOT, first);
    OverwrittenStaysRefused(ApplyAll(EMPTY_ROOT, Effects(EMPTY_ROOT, first)), attempts, command, target);
  }

  /** An operation that is not cut keeps the invariant. */
  lemma AttemptFinishes(r: Root, c: Command)
    requires Inv(r)
    ensures Inv(ApplyAll(r, Effects(r, c)))
  {
    hide Inv, Effects, ApplyAll;
    AttemptKeepsInv(r, Attempt(c, |Effects(r, c)|));
  }

  /** With a component inside the record's path the bundle is accepted and its activation fails. */
  lemma RecordIsBlocked()
    ensures Build(FirstManifest(RECORD + "/x")).Ok? && Answer(EMPTY_ROOT, FirstActivation(RECORD + "/x")).Err?
  {
    FirstCommand(RECORD + "/x");
    FirstReleaseIsAccepted(RECORD + "/x");
    RecordPaths(RECORD + "/x");
    hide OpenStage, HealthOf, IsDigest, TargetOf, SparesRecord, BlocksRecordOf, Components, Build, Inv, Complete;
    ActivationSucceedsIff(EMPTY_ROOT, FIRST_HOST, FirstStaging(RECORD + "/x"), FirstStaged(RECORD + "/x"), Some(DIGEST),
                          Answered(GoodHealth(RECORD + "/x")));
  }

  /** The installed first release, of which a purge removes one file and then dies, cannot be activated. */
  lemma PurgeLeavesRemains()
    ensures var r := ApplyAll(EMPTY_ROOT, Effects(EMPTY_ROOT, FirstActivation("A")));
            var removed := ReleaseFile(Sha256(FirstManifest("A")), "A");
            var r1 := After(r, Attempt(Uninstall(Some([removed])), 4));
            && Intact(r, FirstPointer("A"))
            && Answer(r1, FirstActivation("A")) == Err("VES_ACTIVATION_INTEGRITY") && Effects(r1, FirstActivation("A")) == []
  {
    hide OpenStage, HealthOf, IsDigest, TargetOf, Components, Inv, Complete, Intact, Activated, ApplyAll, Effects,
      Answer, After, FilesMatch, HealthError, Verify, GoodHealth, FirstStaged, FirstStaging;
    var r := ApplyAll(EMPTY_ROOT, Effects(EMPTY_ROOT, FirstActivation("A")));
    var d := Sha256(FirstManifest("A"));
    var order := [ReleaseFile(d, "A")];
    FirstActivationEnds([]);
    FirstCommand("A");
    OddIsComponent("A");
    assert Run(EMPTY_ROOT, []) == EMPTY_ROOT;
    assert order[..1] == order;
    assert RECORD != "A" by { assert |RECORD| == 12; }
    hide Run;
    AttemptFinishes(EMPTY_ROOT, FirstActivation("A"));
    InterruptedPurgeBlocks(r, order, 4, FirstPointer("A"), FirstActivation("A"));
  }
}
