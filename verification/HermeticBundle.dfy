/** The hermetic release bundle: normalization of an untrusted manifest, the
    closure it must satisfy, and the digest that names it. */
module HermeticBundle {
  import opened Results
  import opened CodeUnits
  import opened Text

  datatype Component = Component(
    componentId: string,
    kind: string,
    releaseId: string,
    platform: string,
    arch: string,
    logicalPath: string,
    contentDigest: string,
    sizeBytes: int,
    licenseRefs: seq<string>,
    attestationRefs: seq<string>,
    executable: bool)

  datatype Target = Target(platform: string, arch: string, nodeVersion: string)

  datatype Manifest = Manifest(
    schemaVersion: int,
    releaseId: string,
    semanticVersion: string,
    createdAt: string,
    target: Target,
    runtimeResolver: bool,
    components: seq<Component>)

  /** SHA-256 over the canonical JSON of a manifest, taken as injective. */
  datatype ReleaseDigest = Sha256(manifest: Manifest)

  datatype Bundle = Bundle(manifest: Manifest, releaseDigest: ReleaseDigest)

  const PLATFORMS: seq<string> := ["win32", "linux", "darwin"]
  const ARCHES: seq<string> := ["x64", "arm64"]
  const REQUIRED_SINGLE_KINDS: seq<string> := [
    "node-runtime", "core-code", "schema", "migration", "policy", "cedar-wasm", "sqlite-native",
    "driver", "connector", "skill", "license", "sbom", "provenance", "evaluation"]
  const KINDS: seq<string> := REQUIRED_SINGLE_KINDS + ["launcher"]
  const EVIDENCE_KINDS: seq<string> := ["license", "sbom", "provenance", "evaluation"]
  const TARGET_KINDS: seq<string> := ["node-runtime", "sqlite-native", "launcher"]
  const RESERVED_NAMES: seq<string> := [
    "con", "prn", "aux", "nul",
    "com1", "com2", "com3", "com4", "com5", "com6", "com7", "com8", "com9",
    "lpt1", "lpt2", "lpt3", "lpt4", "lpt5", "lpt6", "lpt7", "lpt8", "lpt9"]
  const MAX_SAFE_INTEGER := 9007199254740991

  predicate IsSafeId(s: string) {
    0 < |s| <= 256 && IsAlnum(s[0]) && Every(s[1..], c => IsAlnum(c) || c in ":._@+/-")
  }

  predicate IsNumber(s: string) {
    s != [] && Every(s, IsDigit) && (s[0] == '0' ==> |s| == 1)
  }

  predicate IsNodeVersion(s: string) {
    var parts := Split(s, '.');
    |parts| == 3 && forall p :: p in parts ==> IsNumber(p)
  }

  predicate IsSemver(s: string) {
    IsNodeVersion(s) ||
    exists i :: 0 <= i < |s| - 1 && s[i] == '-' && IsNodeVersion(s[..i]) &&
      Every(s[i + 1..], c => IsAlnum(c) || c == '.' || c == '-')
  }

  predicate IsSafeSegment(segment: string) {
    segment != "" && segment != "." && segment != ".." && segment[|segment| - 1] != '.' &&
    Lower(Split(segment, '.')[0]) !in RESERVED_NAMES &&
    Every(segment, c => IsAlnum(c) || c in "._@+-")
  }

  predicate IsLogicalPath(path: string) {
    0 < |path| <= 1024 && (forall p :: p in Split(path, '/') ==> IsSafeSegment(p))
  }

  function Refs(value: seq<string>): Result<seq<string>> {
    if exists r :: r in value && !IsSafeId(r) then Err("VES_DISTRIBUTION_INPUT_INVALID")
    else if |KeySet(value, Whole)| != |value| then Err("VES_DISTRIBUTION_INPUT_INVALID")
    else Ok(SortBy(value, Whole))
  }

  function NormalizeComponent(item: Component, releaseId: string, target: Target): Result<Component> {
    if !IsSafeId(item.releaseId) then Err("VES_DISTRIBUTION_INPUT_INVALID")
    else if item.releaseId != releaseId then Err("VES_DISTRIBUTION_RELEASE_MIXED")
    else if item.kind !in KINDS then Err("VES_DISTRIBUTION_INPUT_INVALID")
    else if item.platform != "any" && item.platform !in PLATFORMS then Err("VES_DISTRIBUTION_INPUT_INVALID")
    else if item.arch != "any" && item.arch !in ARCHES then Err("VES_DISTRIBUTION_INPUT_INVALID")
    else if item.kind in TARGET_KINDS && (item.platform != target.platform || item.arch != target.arch) then
      Err("VES_DISTRIBUTION_PLATFORM_MISMATCH")
    else if item.kind !in TARGET_KINDS && (item.platform != "any" || item.arch != "any") then
      Err("VES_DISTRIBUTION_PLATFORM_MISMATCH")
    else if !IsDigest(item.contentDigest) then Err("VES_DISTRIBUTION_INPUT_INVALID")
    else if !(0 < item.sizeBytes <= MAX_SAFE_INTEGER) then Err("VES_DISTRIBUTION_INPUT_INVALID")
    else if item.executable != (item.kind == "node-runtime" || item.kind == "launcher") then
      Err("VES_DISTRIBUTION_INPUT_INVALID")
    else if !IsSafeId(item.componentId) || !IsLogicalPath(item.logicalPath) then Err("VES_DISTRIBUTION_INPUT_INVALID")
    else
      var licenses, attestations := Refs(item.licenseRefs), Refs(item.attestationRefs);
      if licenses.Err? || attestations.Err? then Err("VES_DISTRIBUTION_INPUT_INVALID")
      else Ok(item.(licenseRefs := licenses.value, attestationRefs := attestations.value))
  }

  function NormalizeAll(items: seq<Component>, releaseId: string, target: Target): (r: Result<seq<Component>>)
  {
    if items == [] then Ok([])
    else
      var first := NormalizeComponent(items[0], releaseId, target);
      if first.Err? then Err(first.code)
      else
        var rest := NormalizeAll(items[1..], releaseId, target);
        if rest.Err? then rest else Ok([first.value] + rest.value)
  }

  function Id(c: Component): string { c.componentId }

  function Path(c: Component): string { c.logicalPath }

  /** `ids.get(ref)?.kind ?? ""`: the last component under an id names its kind. */
  function KindOf(components: seq<Component>, ref: string): string {
    if components == [] then ""
    else
      var last := components[|components| - 1];
      if last.componentId == ref then last.kind else KindOf(components[..|components| - 1], ref)
  }

  function ReferenceError(components: seq<Component>, c: Component): Option<string> {
    if c.kind in EVIDENCE_KINDS then None
    else if c.licenseRefs == [] || exists r :: r in c.licenseRefs && KindOf(components, r) != "license" then
      Some("VES_DISTRIBUTION_LICENSE_MISSING")
    else if
      || c.attestationRefs == []
      || (exists r :: r in c.attestationRefs && KindOf(components, r) !in ["provenance", "evaluation"])
      || !(exists r :: r in c.attestationRefs && KindOf(components, r) == "provenance")
      || !(exists r :: r in c.attestationRefs && KindOf(components, r) == "evaluation") then
      Some("VES_DISTRIBUTION_ATTESTATION_MISSING")
    else None
  }

  function FirstReferenceError(components: seq<Component>, rest: seq<Component>): Option<string> {
    if rest == [] then None
    else if ReferenceError(components, rest[0]).Some? then ReferenceError(components, rest[0])
    else FirstReferenceError(components, rest[1..])
  }

  function Launchers(components: seq<Component>): seq<Component> {
    if components == [] then []
    else (if components[0].kind == "launcher" then [components[0]] else []) + Launchers(components[1..])
  }

  function ClosureError(components: seq<Component>): Option<string> {
    var launchers := Launchers(components);
    if |KeySet(components, Id)| != |components| || |KeySet(components, Path)| != |components| then
      Some("VES_DISTRIBUTION_DUPLICATE_COMPONENT")
    else if exists kind :: kind in REQUIRED_SINGLE_KINDS && forall c :: c in components ==> c.kind != kind then
      Some("VES_DISTRIBUTION_CLOSURE_INCOMPLETE")
    else if
      || |launchers| != 2
      || (forall c :: c in launchers ==> c.componentId != "launcher:vestra")
      || (forall c :: c in launchers ==> c.componentId != "launcher:verchestra") then
      Some("VES_DISTRIBUTION_CLOSURE_INCOMPLETE")
    else FirstReferenceError(components, components)
  }

  function NormalizeInput(input: Manifest): Result<Manifest> {
    if input.schemaVersion != 1 || input.runtimeResolver then Err("VES_DISTRIBUTION_INPUT_INVALID")
    else if !IsSafeId(input.releaseId) || !IsSemver(input.semanticVersion) || !IsInstant(input.createdAt) then
      Err("VES_DISTRIBUTION_INPUT_INVALID")
    else if !IsSafeId(input.target.platform) || !IsSafeId(input.target.arch) || !IsNodeVersion(input.target.nodeVersion)
            || input.target.platform !in PLATFORMS || input.target.arch !in ARCHES then
      Err("VES_DISTRIBUTION_INPUT_INVALID")
    else if input.components == [] then Err("VES_DISTRIBUTION_CLOSURE_INCOMPLETE")
    else
      var normalized := NormalizeAll(input.components, input.releaseId, input.target);
      if normalized.Err? then Err(normalized.code)
      else
        var components := SortBy(normalized.value, Id);
        match ClosureError(components)
        case Some(code) => Err(code)
        case None => Ok(input.(components := components))
  }

  function Build(input: Manifest): Result<Bundle> {
    match NormalizeInput(input)
    case Err(code) => Err(code)
    case Ok(manifest) => Ok(Bundle(manifest, Sha256(manifest)))
  }

  function Verify(value: Bundle): Result<Bundle> {
    match Build(value.manifest)
    case Err(_) => Err("VES_DISTRIBUTION_BUNDLE_INVALID")
    case Ok(rebuilt) =>
      if rebuilt.releaseDigest != value.releaseDigest then Err("VES_DISTRIBUTION_BUNDLE_INVALID") else Ok(rebuilt)
  }

  // ---- Normal form ----

  /** Two components that differ at most in the order of their references. */
  ghost predicate SameUpToReferenceOrder(c: Component, d: Component) {
    d == c.(licenseRefs := d.licenseRefs, attestationRefs := d.attestationRefs) &&
    multiset(c.licenseRefs) == multiset(d.licenseRefs) &&
    multiset(c.attestationRefs) == multiset(d.attestationRefs)
  }

  lemma RefsOrder(a: seq<string>, b: seq<string>)
    requires multiset(a) == multiset(b)
    ensures Refs(a) == Refs(b)
    ensures Refs(a).Ok? ==> multiset(Refs(a).value) == multiset(a)
  {
    assert |a| == |multiset(a)| == |b|;
    forall x
      ensures x in a <==> x in b
    {
      assert x in multiset(a) <==> x in multiset(b);
    }
    assert KeySet(a, Whole) == KeySet(b, Whole);
    SortMultiset(a, Whole);
    if |KeySet(a, Whole)| == |a| {
      DistinctIffSetSize(a, Whole);
      DistinctIffSetSize(b, Whole);
      SortCanonical(a, b, Whole);
    }
  }

  lemma NormalizeOrder(c: Component, d: Component, releaseId: string, target: Target)
    requires SameUpToReferenceOrder(c, d)
    ensures NormalizeComponent(c, releaseId, target) == NormalizeComponent(d, releaseId, target)
  {
    hide Refs, IsSafeId, IsDigest, IsLogicalPath;
    RefsOrder(c.licenseRefs, d.licenseRefs);
    RefsOrder(c.attestationRefs, d.attestationRefs);
  }

  lemma NormalizeTwice(c: Component, releaseId: string, target: Target)
    requires NormalizeComponent(c, releaseId, target).Ok?
    ensures var n := NormalizeComponent(c, releaseId, target).value;
            n.componentId == c.componentId && NormalizeComponent(n, releaseId, target) == Ok(n)
  {
    var n := NormalizeComponent(c, releaseId, target).value;
    RefsOrder(c.licenseRefs, c.licenseRefs);
    RefsOrder(c.attestationRefs, c.attestationRefs);
    NormalizeOrder(c, n, releaseId, target);
  }

  lemma {:induction false} NormalizeAllPointwise(items: seq<Component>, releaseId: string, target: Target)
    ensures NormalizeAll(items, releaseId, target).Ok? <==>
            forall i :: 0 <= i < |items| ==> NormalizeComponent(items[i], releaseId, target).Ok?
    ensures NormalizeAll(items, releaseId, target).Ok? ==>
            var out := NormalizeAll(items, releaseId, target).value;
            |out| == |items| &&
            forall i :: 0 <= i < |items| ==> NormalizeComponent(items[i], releaseId, target) == Ok(out[i])
  {
    hide NormalizeComponent;
    if items != [] {
      NormalizeAllPointwise(items[1..], releaseId, target);
      if NormalizeAll(items, releaseId, target).Err? && NormalizeComponent(items[0], releaseId, target).Ok? {
        var i :| 0 <= i < |items[1..]| && NormalizeComponent(items[1..][i], releaseId, target).Err?;
        assert NormalizeComponent(items[i + 1], releaseId, target).Err?;
      }
    }
  }

  lemma ClosureMeansDistinct(components: seq<Component>)
    requires ClosureError(components) == None
    ensures DistinctKeys(components, Id) && DistinctKeys(components, Path)
  {
    DistinctIffSetSize(components, Id);
    DistinctIffSetSize(components, Path);
  }

  /** Normalizing a sorted list of normalized components gives it back. */
  lemma NormalizeSorted(items: seq<Component>, releaseId: string, target: Target)
    requires NormalizeAll(items, releaseId, target).Ok?
    ensures var sorted := SortBy(NormalizeAll(items, releaseId, target).value, Id);
            |sorted| == |items| && NormalizeAll(sorted, releaseId, target) == Ok(sorted)
  {
    hide NormalizeComponent, SortBy, NormalizeAll;
    var out := NormalizeAll(items, releaseId, target).value;
    var sorted := SortBy(out, Id);
    SortMultiset(out, Id);
    NormalizeAllPointwise(items, releaseId, target);
    forall i | 0 <= i < |sorted|
      ensures NormalizeComponent(sorted[i], releaseId, target) == Ok(sorted[i])
    {
      assert sorted[i] in multiset(out);
      var j :| 0 <= j < |out| && out[j] == sorted[i];
      NormalizeTwice(items[j], releaseId, target);
    }
    NormalizeAllPointwise(sorted, releaseId, target);
    assert NormalizeAll(sorted, releaseId, target).value == sorted;
  }

  /** What `build` accepts is already in the form `build` produces. */
  lemma BuildIsNormalForm(input: Manifest, b: Bundle)
    requires Build(input) == Ok(b)
    ensures Build(b.manifest) == Ok(b)
  {
    hide NormalizeComponent, SortBy, NormalizeAll;
    var out := NormalizeAll(input.components, input.releaseId, input.target).value;
    var sorted := SortBy(out, Id);
    NormalizeSorted(input.components, input.releaseId, input.target);
    ClosureMeansDistinct(sorted);
    SortMultiset(out, Id);
    DistinctByMultiset(sorted, out, Id);
    SortStrict(out, Id);
    hide ClosureError;
    SortFixed(sorted, Id);
  }

  /** A built bundle verifies as itself. */
  lemma VerifyBuilt(input: Manifest, b: Bundle)
    requires Build(input) == Ok(b)
    ensures Verify(b) == Ok(b)
  {
    BuildIsNormalForm(input, b);
  }

  /** Verification returns a bundle that verifies as itself, named by the digest it was given. */
  lemma VerifyIsNormalForm(value: Bundle, b: Bundle)
    requires Verify(value) == Ok(b)
    ensures Verify(b) == Ok(b) && b.releaseDigest == value.releaseDigest == Sha256(b.manifest)
  {
    VerifyBuilt(value.manifest, b);
  }

  lemma NormalizedMembers(items: seq<Component>, releaseId: string, target: Target, n: Component)
    requires NormalizeAll(items, releaseId, target).Ok?
    ensures n in NormalizeAll(items, releaseId, target).value <==>
            exists c :: c in items && NormalizeComponent(c, releaseId, target) == Ok(n)
  {
    NormalizeAllPointwise(items, releaseId, target);
    var out := NormalizeAll(items, releaseId, target).value;
    if n in out {
      var i :| 0 <= i < |out| && out[i] == n;
      assert items[i] in items;
    }
    if exists c :: c in items && NormalizeComponent(c, releaseId, target) == Ok(n) {
      var c :| c in items && NormalizeComponent(c, releaseId, target) == Ok(n);
      var i :| 0 <= i < |items| && items[i] == c;
      assert out[i] == n;
    }
  }

  lemma {:induction false} NormalizeReordered(items: seq<Component>, shuffled: seq<Component>, releaseId: string, target: Target)
    requires |shuffled| == |items|
    requires forall i :: 0 <= i < |shuffled| ==> SameUpToReferenceOrder(items[i], shuffled[i])
    ensures NormalizeAll(shuffled, releaseId, target) == NormalizeAll(items, releaseId, target)
  {
    if items != [] {
      NormalizeOrder(items[0], shuffled[0], releaseId, target);
      NormalizeReordered(items[1..], shuffled[1..], releaseId, target);
    }
  }

  lemma NormalizePermuted(items: seq<Component>, other: seq<Component>, releaseId: string, target: Target)
    requires multiset(items) == multiset(other)
    requires NormalizeAll(items, releaseId, target).Ok?
    ensures NormalizeAll(other, releaseId, target).Ok?
    ensures forall n :: n in NormalizeAll(items, releaseId, target).value <==>
                        n in NormalizeAll(other, releaseId, target).value
    ensures |NormalizeAll(other, releaseId, target).value| == |NormalizeAll(items, releaseId, target).value|
  {
    assert |items| == |multiset(items)| == |other|;
    forall c
      ensures c in other <==> c in items
    {
      assert c in multiset(other) <==> c in multiset(items);
    }
    NormalizeAllPointwise(items, releaseId, target);
    forall i | 0 <= i < |other|
      ensures NormalizeComponent(other[i], releaseId, target).Ok?
    {
      assert other[i] in items;
    }
    NormalizeAllPointwise(other, releaseId, target);
    forall n
      ensures n in NormalizeAll(items, releaseId, target).value <==> n in NormalizeAll(other, releaseId, target).value
    {
      NormalizedMembers(items, releaseId, target, n);
      NormalizedMembers(other, releaseId, target, n);
    }
  }

  /** The order of components and of references inside a component is immaterial.
      `shuffled` holds the components of `x` with their references reordered. */
  lemma BuildIgnoresOrder(x: Manifest, y: Manifest, shuffled: seq<Component>)
    requires y == x.(components := y.components)
    requires |shuffled| == |x.components|
    requires forall i :: 0 <= i < |shuffled| ==> SameUpToReferenceOrder(x.components[i], shuffled[i])
    requires multiset(shuffled) == multiset(y.components)
    requires Build(x).Ok?
    ensures Build(y) == Build(x)
  {
    NormalizeReordered(x.components, shuffled, x.releaseId, x.target);
    NormalizePermuted(shuffled, y.components, x.releaseId, x.target);
    var out := NormalizeAll(x.components, x.releaseId, x.target).value;
    var out' := NormalizeAll(y.components, x.releaseId, x.target).value;
    ClosureMeansDistinct(SortBy(out, Id));
    SortMultiset(out, Id);
    DistinctByMultiset(SortBy(out, Id), out, Id);
    DistinctIffSetSize(out, Id);
    assert KeySet(out, Id) == KeySet(out', Id);
    DistinctIffSetSize(out', Id);
    SortCanonical(out, out', Id);
    assert |shuffled| == |multiset(shuffled)| == |y.components|;
  }

  // ---- Closure ----

  predicate Resolves(components: seq<Component>, ref: string, kind: string) {
    exists d :: d in components && d.componentId == ref && d.kind == kind
  }

  /** What acceptance promises about the references of one component. */
  ghost predicate ReferencesClosed(components: seq<Component>, c: Component) {
    c.kind !in EVIDENCE_KINDS ==>
      && c.licenseRefs != [] && c.attestationRefs != []
      && (forall r :: r in c.licenseRefs ==> Resolves(components, r, "license"))
      && (forall r :: r in c.attestationRefs ==>
            Resolves(components, r, "provenance") || Resolves(components, r, "evaluation"))
      && (exists r :: r in c.attestationRefs && Resolves(components, r, "provenance"))
      && (exists r :: r in c.attestationRefs && Resolves(components, r, "evaluation"))
  }

  lemma {:induction false} KindOfResolves(components: seq<Component>, ref: string, kind: string)
    requires DistinctKeys(components, Id) && kind != ""
    ensures KindOf(components, ref) == kind <==> Resolves(components, ref, kind)
  {
    if components != [] {
      var n := |components| - 1;
      var init := components[..n];
      assert components == init + [components[n]];
      KindOfResolves(init, ref, kind);
      if components[n].componentId == ref {
        assert Id(components[n]) == ref;
        if Resolves(components, ref, kind) {
          var d :| d in components && d.componentId == ref && d.kind == kind;
          var i :| 0 <= i < |components| && components[i] == d;
          assert Id(components[i]) == ref;
          assert i == n;
        } else {
          assert components[n] in components;
        }
      }
    }
  }

  lemma ReferenceErrorIff(components: seq<Component>, c: Component)
    requires DistinctKeys(components, Id)
    ensures ReferenceError(components, c) == None <==> ReferencesClosed(components, c)
  {
    forall r
      ensures KindOf(components, r) == "license" <==> Resolves(components, r, "license")
      ensures KindOf(components, r) == "provenance" <==> Resolves(components, r, "provenance")
      ensures KindOf(components, r) == "evaluation" <==> Resolves(components, r, "evaluation")
    {
      KindOfResolves(components, r, "license");
      KindOfResolves(components, r, "provenance");
      KindOfResolves(components, r, "evaluation");
    }
  }

  lemma {:induction false} FirstReferenceErrorIff(components: seq<Component>, rest: seq<Component>)
    requires DistinctKeys(components, Id)
    ensures FirstReferenceError(components, rest) == None <==>
            forall c :: c in rest ==> ReferencesClosed(components, c)
  {
    if rest != [] {
      ReferenceErrorIff(components, rest[0]);
      FirstReferenceErrorIff(components, rest[1..]);
      assert rest == [rest[0]] + rest[1..];
    }
  }

  lemma {:induction false} LaunchersAre(components: seq<Component>)
    ensures forall c :: c in Launchers(components) <==> c in components && c.kind == "launcher"
  {
    if components != [] {
      LaunchersAre(components[1..]);
      assert components == [components[0]] + components[1..];
    }
  }

  /** Every reference of an accepted bundle resolves inside it, to the required kind. */
  lemma AcceptedBundleIsClosed(input: Manifest, b: Bundle)
    requires Build(input) == Ok(b)
    ensures var cs := b.manifest.components;
            && DistinctKeys(cs, Id) && DistinctKeys(cs, Path)
            && (forall c :: c in cs ==> ReferencesClosed(cs, c))
            && (forall kind :: kind in KINDS ==> exists c :: c in cs && c.kind == kind)
            && Resolves(cs, "launcher:vestra", "launcher") && Resolves(cs, "launcher:verchestra", "launcher")
  {
    hide NormalizeAll, SortBy, IsSafeId, IsSemver, IsInstant, IsNodeVersion, ReferencesClosed, FirstReferenceError;
    var cs := b.manifest.components;
    ClosureMeansDistinct(cs);
    FirstReferenceErrorIff(cs, cs);
    LaunchersAre(cs);
  }
}
