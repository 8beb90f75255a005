/** When a release manifest is accepted, on the manifest as it was given, and what the
    bundle keeps of it. */
module BundleAcceptance {
  import opened Results
  import opened CodeUnits
  import opened Text
  import opened HermeticBundle

  // ---- One component ----

  /** A list of distinct safe identities. */
  predicate RefsFit(refs: seq<string>) { (forall r :: r in refs ==> IsSafeId(r)) && DistinctKeys(refs, Whole) }

  /** A component of this release and for this target, with a digest, a size, and safe names; exactly the
      runtime and the launchers are executable. */
  predicate Fits(c: Component, releaseId: string, target: Target) {
    && c.releaseId == releaseId && IsSafeId(releaseId) && IsSafeId(c.componentId) && IsLogicalPath(c.logicalPath)
    && c.kind in KINDS
    && (if c.kind in ["node-runtime", "sqlite-native", "launcher"]
        then c.platform == target.platform && c.arch == target.arch
        else c.platform == "any" && c.arch == "any")
    && IsDigest(c.contentDigest) && 1 <= c.sizeBytes <= 9007199254740991
    && (c.executable <==> c.kind == "node-runtime" || c.kind == "launcher")
    && RefsFit(c.licenseRefs) && RefsFit(c.attestationRefs)
  }

  /** The component with its references sorted. */
  function Tidy(c: Component): Component {
    c.(licenseRefs := SortBy(c.licenseRefs, Whole), attestationRefs := SortBy(c.attestationRefs, Whole))
  }

  lemma RefsIff(refs: seq<string>)
    ensures Refs(refs).Ok? <==> RefsFit(refs)
    ensures Refs(refs).Ok? ==> Refs(refs).value == SortBy(refs, Whole)
  {
    hide IsSafeId;
    DistinctIffSetSize(refs, Whole);
  }

  lemma ComponentIsAcceptedIff(c: Component, releaseId: string, target: Target)
    requires target.platform in ["win32", "linux", "darwin"] && target.arch in ["x64", "arm64"]
    ensures NormalizeComponent(c, releaseId, target).Ok? <==> Fits(c, releaseId, target)
    ensures NormalizeComponent(c, releaseId, target).Ok? ==> NormalizeComponent(c, releaseId, target).value == Tidy(c)
  {
    hide IsSafeId, IsDigest, IsLogicalPath, Refs, RefsFit;
    RefsIff(c.licenseRefs);
    RefsIff(c.attestationRefs);
  }

  // ---- The closure ----

  function TidyAll(items: seq<Component>): seq<Component> {
    seq(|items|, i requires 0 <= i < |items| => Tidy(items[i]))
  }

  /** Distinct identities and paths, every kind there, the two launchers and no other, and every reference
      resolved inside the release. */
  ghost predicate Closed(cs: seq<Component>) {
    && DistinctKeys(cs, Id) && DistinctKeys(cs, Path)
    && (forall kind :: kind in REQUIRED_SINGLE_KINDS ==> exists c :: c in cs && c.kind == kind)
    && Resolves(cs, "launcher:vestra", "launcher") && Resolves(cs, "launcher:verchestra", "launcher")
    && (forall c :: c in cs && c.kind == "launcher" ==> c.componentId in ["launcher:vestra", "launcher:verchestra"])
    && (forall c :: c in cs ==> ReferencesClosed(cs, c))
  }

  lemma {:induction false} LaunchersAreDistinct(cs: seq<Component>)
    requires DistinctKeys(cs, Id)
    ensures DistinctKeys(Launchers(cs), Id)
  {
    if cs != [] {
      var rest := cs[1..];
      forall i, j | 0 <= i < j < |rest|
        ensures Id(rest[i]) != Id(rest[j])
      {
        assert Id(cs[i + 1]) != Id(cs[j + 1]);
      }
      LaunchersAreDistinct(rest);
      LaunchersAre(rest);
      forall c | c in Launchers(rest)
        ensures Id(c) != Id(cs[0])
      {
        var i :| 0 <= i < |rest| && rest[i] == c;
        assert Id(cs[0]) != Id(cs[i + 1]);
      }
    }
  }

  lemma LauncherIds()
    ensures "launcher:vestra" != "launcher:verchestra"
  {
    assert |"launcher:vestra"| != |"launcher:verchestra"|;
  }

  lemma LauncherKeys(cs: seq<Component>)
    ensures forall id :: id in KeySet(Launchers(cs), Id) <==> Resolves(cs, id, "launcher")
  {
    LaunchersAre(cs);
    hide Launchers;
    forall id
      ensures id in KeySet(Launchers(cs), Id) <==> Resolves(cs, id, "launcher")
    {
      if Resolves(cs, id, "launcher") {
        var c :| c in cs && c.componentId == id && c.kind == "launcher";
        assert Id(c) == id && c in Launchers(cs);
      }
    }
  }

  lemma TwoLaunchersIff(cs: seq<Component>)
    requires DistinctKeys(cs, Id)
    requires Resolves(cs, "launcher:vestra", "launcher") && Resolves(cs, "launcher:verchestra", "launcher")
    ensures |Launchers(cs)| == 2 <==>
              forall c :: c in cs && c.kind == "launcher" ==> c.componentId in ["launcher:vestra", "launcher:verchestra"]
  {
    hide Launchers, DistinctKeys, KeySet;
    var ls := Launchers(cs);
    LauncherKeys(cs);
    LaunchersAreDistinct(cs);
    LauncherIds();
    DistinctIffSetSize(ls, Id);
    var two := {"launcher:vestra", "launcher:verchestra"};
    assert two <= KeySet(ls, Id);
    assert |two| == 2;
    SubsetSize(two, KeySet(ls, Id));
    if forall c :: c in cs && c.kind == "launcher" ==> c.componentId in ["launcher:vestra", "launcher:verchestra"] {
      assert KeySet(ls, Id) == two;
    }
    if |ls| == 2 {
      forall c | c in cs && c.kind == "launcher"
        ensures c.componentId in ["launcher:vestra", "launcher:verchestra"]
      {
        assert Resolves(cs, c.componentId, "launcher");
      }
    }
  }

  lemma LaunchersNamedIff(cs: seq<Component>)
    ensures (exists c :: c in Launchers(cs) && c.componentId == "launcher:vestra") <==> Resolves(cs, "launcher:vestra", "launcher")
    ensures (exists c :: c in Launchers(cs) && c.componentId == "launcher:verchestra")
            <==> Resolves(cs, "launcher:verchestra", "launcher")
  {
    LaunchersAre(cs);
  }

  lemma ClosureIff(cs: seq<Component>)
    ensures ClosureError(cs).None? <==> Closed(cs)
  {
    DistinctIffSetSize(cs, Id);
    DistinctIffSetSize(cs, Path);
    LaunchersNamedIff(cs);
    if DistinctKeys(cs, Id) {
      FirstReferenceErrorIff(cs, cs);
      if Resolves(cs, "launcher:vestra", "launcher") && Resolves(cs, "launcher:verchestra", "launcher") {
        TwoLaunchersIff(cs);
      }
    }
    hide KeySet, DistinctKeys, Launchers, Resolves, ReferencesClosed, FirstReferenceError;
  }

  lemma ClosedIgnoresOrder(a: seq<Component>, b: seq<Component>)
    requires multiset(a) == multiset(b) && Closed(a)
    ensures Closed(b)
  {
    forall c
      ensures c in a <==> c in b
    {
      assert c in multiset(a) <==> c in multiset(b);
    }
    DistinctByMultiset(a, b, Id);
    DistinctByMultiset(a, b, Path);
    forall ref, kind
      ensures Resolves(a, ref, kind) <==> Resolves(b, ref, kind)
    {
    }
    hide DistinctKeys, Resolves;
  }

  // ---- The manifest ----

  /** The header of a manifest. */
  predicate HeaderFits(m: Manifest) {
    && m.schemaVersion == 1 && !m.runtimeResolver
    && IsSafeId(m.releaseId) && IsSemver(m.semanticVersion) && IsInstant(m.createdAt)
    && m.target.platform in ["win32", "linux", "darwin"] && m.target.arch in ["x64", "arm64"]
    && IsNodeVersion(m.target.nodeVersion)
  }

  lemma TargetsAreSafe(target: Target)
    requires target.platform in ["win32", "linux", "darwin"] && target.arch in ["x64", "arm64"]
    ensures IsSafeId(target.platform) && IsSafeId(target.arch)
  {
  }

  lemma {:induction false} ItemsAreAcceptedIff(items: seq<Component>, releaseId: string, target: Target)
    requires target.platform in ["win32", "linux", "darwin"] && target.arch in ["x64", "arm64"]
    ensures NormalizeAll(items, releaseId, target).Ok? <==> forall c :: c in items ==> Fits(c, releaseId, target)
    ensures NormalizeAll(items, releaseId, target).Ok? ==> NormalizeAll(items, releaseId, target).value == TidyAll(items)
  {
    hide NormalizeComponent, Fits, Tidy;
    if items != [] {
      ComponentIsAcceptedIff(items[0], releaseId, target);
      ItemsAreAcceptedIff(items[1..], releaseId, target);
      assert items == [items[0]] + items[1..];
      assert TidyAll(items) == [Tidy(items[0])] + TidyAll(items[1..]);
    }
  }

  /** A manifest is accepted exactly when its header is valid, every component fits it, and together they are
      closed. The bundle then holds the same components, each once, with references sorted, in the order
      of their identities, and nothing else of the manifest changed. */
  lemma ManifestIsAcceptedIff(input: Manifest)
    ensures Build(input).Ok? <==>
              && HeaderFits(input)
              && (forall c :: c in input.components ==> Fits(c, input.releaseId, input.target))
              && Closed(TidyAll(input.components))
    ensures Build(input).Ok? ==>
              var m := Build(input).value.manifest;
              && m == input.(components := m.components) && Build(input).value.releaseDigest == Sha256(m)
              && multiset(m.components) == multiset(TidyAll(input.components)) && StrictlySorted(m.components, Id)
  {
    hide NormalizeAll, IsSemver, IsInstant, IsNodeVersion, ClosureError, SortBy, Closed, Fits;
    if input.target.platform in ["win32", "linux", "darwin"] && input.target.arch in ["x64", "arm64"] {
      TargetsAreSafe(input.target);
      ItemsAreAcceptedIff(input.components, input.releaseId, input.target);
      var cs := TidyAll(input.components);
      hide TidyAll, IsSafeId;
      SortMultiset(cs, Id);
      ClosureIff(SortBy(cs, Id));
      if Closed(cs) {
        ClosedIgnoresOrder(cs, SortBy(cs, Id));
        ClosedIsSorted(cs);
        ClosedIsSome(cs);
      }
      if Closed(SortBy(cs, Id)) {
        ClosedIgnoresOrder(SortBy(cs, Id), cs);
        ClosedIsSorted(cs);
      }
    }
  }

  lemma ClosedIsSorted(cs: seq<Component>)
    requires Closed(cs)
    ensures StrictlySorted(SortBy(cs, Id), Id)
  {
    SortStrict(cs, Id);
  }

  lemma ClosedIsSome(cs: seq<Component>)
    requires Closed(cs)
    ensures cs != []
  {
  }

  // ---- Where a component's path leads ----

  /** An accepted path is relative and stays inside its directory: it is made of names, none of them empty
      or a step, and no character of it separates otherwise. */
  lemma PathsStayInside(path: string)
    requires IsLogicalPath(path)
    ensures 1 <= |path| <= 1024 && path[0] != '/' && path[|path| - 1] != '/'
    ensures forall name :: name in Split(path, '/') ==> name != "" && name != "." && name != ".."
    ensures forall c :: c in path ==> IsAlnum(c) || c in "._@+-/"
  {
    hide IsSafeSegment, Split, Join;
    var parts := Split(path, '/');
    JoinSplit(path, '/');
    forall name | name in parts
      ensures name != "" && name != "." && name != ".." && forall c :: c in name ==> IsAlnum(c) || c in "._@+-"
    {
      SegmentIsName(name);
    }
    JoinedCharacters(parts);
    JoinedEnds(parts);
  }

  lemma SegmentIsName(name: string)
    requires IsSafeSegment(name)
    ensures name != "" && name != "." && name != ".." && forall c :: c in name ==> IsAlnum(c) || c in "._@+-"
  {
    hide Split, Lower;
  }

  lemma {:induction false} JoinedCharacters(parts: seq<string>)
    ensures forall c :: c in Join(parts, "/") ==> c == '/' || exists p :: p in parts && c in p
  {
    if |parts| == 1 {
      assert parts[0] in parts;
    } else if parts != [] {
      JoinedCharacters(parts[1..]);
      assert parts[0] in parts && forall p :: p in parts[1..] ==> p in parts;
    }
  }

  lemma {:induction false} JoinedEnds(parts: seq<string>)
    requires parts != [] && forall p :: p in parts ==> p != "" && '/' !in p
    ensures Join(parts, "/") != "" && Join(parts, "/")[0] != '/'
    ensures Join(parts, "/")[|Join(parts, "/")| - 1] != '/'
  {
    assert parts[0] in parts && parts[0][0] in parts[0] && parts[0][|parts[0]| - 1] in parts[0];
    if |parts| > 1 {
      assert forall p :: p in parts[1..] ==> p in parts;
      JoinedEnds(parts[1..]);
    }
  }
}
