/** Target names and bytes: the name the publisher writes and the one the client
    reads, and why materialized bytes always cover their own bundle. */
module TargetPaths {
  import opened Results
  import opened CodeUnits
  import opened Text
  import opened HermeticBundle

  // ---- Names ----

  predicate IsHash(s: string) { |s| == 64 && Every(s, IsHex) }

  /** The position just after the last slash, or 0. */
  function NameStart(path: string): (n: nat)
    ensures n <= |path|
    ensures n > 0 ==> path[n - 1] == '/'
    ensures '/' !in path[n..]
  {
    if path == "" then 0 else if path[|path| - 1] == '/' then |path| else NameStart(path[..|path| - 1])
  }

  function Hashed(directory: string, hash: string, name: string): string { directory + hash + "." + name }

  /** The publisher's name of a target. */
  function ConsistentTargetPath(path: string, hash: string, consistentSnapshot: bool): string {
    if !consistentSnapshot then path
    else Hashed(path[..NameStart(path)], hash, path[NameStart(path)..])
  }

  /** `parse(path).dir` of a POSIX path that does not end in a slash. */
  function ParsedDir(path: string): string {
    var n := NameStart(path);
    if n == 0 then "" else if n == 1 then "/" else path[..n - 1]
  }

  function SlashesForward(s: string): string {
    seq(|s|, i requires 0 <= i < |s| => if s[i] == '\\' then '/' else s[i])
  }

  /** The client's name of the same target. */
  function SourcePathFor(path: string, hash: string, consistentSnapshot: bool): Result<string> {
    if !consistentSnapshot then Ok(path)
    else if !IsHash(hash) then Err("VES_TUF_INTEGRITY")
    else
      var dir, base := ParsedDir(path), path[NameStart(path)..];
      Ok(Hashed(if dir != "" then SlashesForward(dir) + "/" else "", hash, base))
  }

  /** Publisher and client name a hashed target alike exactly when its directory is not the root itself
      and holds no backslash. */
  lemma NamesAgreeIff(path: string, hash: string)
    requires IsHash(hash) && path != "" && path[|path| - 1] != '/'
    ensures SourcePathFor(path, hash, true) == Ok(ConsistentTargetPath(path, hash, true)) <==>
              NameStart(path) != 1 && '\\' !in path[..NameStart(path)]
  {
    hide IsHash, NameStart, SlashesForward, Hashed;
    var n, dir := NameStart(path), ParsedDir(path);
    var read := if dir != "" then SlashesForward(dir) + "/" else "";
    HashedInDirectory(read, path[..n], hash, path[n..]);
    ForwardIff(dir);
    if n > 0 {
      DirectoryRead(path, n);
    }
  }

  lemma HashedInDirectory(a: string, b: string, hash: string, name: string)
    ensures Hashed(a, hash, name) == Hashed(b, hash, name) <==> a == b
  {
    assert Hashed(a, hash, name) == Hashed(b, hash, name) ==> |a| == |b|;
    assert Hashed(a, hash, name)[..|a|] == a && Hashed(b, hash, name)[..|b|] == b;
  }

  /** How the client's directory compares with the publisher's. */
  lemma DirectoryRead(path: string, n: nat)
    requires 0 < n <= |path| && path[n - 1] == '/'
    ensures n == 1 ==> SlashesForward("/") + "/" != path[..n]
    ensures n > 1 ==> (SlashesForward(path[..n - 1]) + "/" == path[..n] <==> '\\' !in path[..n])
  {
    if n == 1 {
      assert |SlashesForward("/") + "/"| == 2;
    } else {
      var dir := path[..n - 1];
      ForwardIff(dir);
      assert path[..n] == dir + "/";
      assert (SlashesForward(dir) + "/")[..|dir|] == SlashesForward(dir);
      assert (dir + "/")[..|dir|] == dir;
    }
  }

  lemma ForwardIff(dir: string)
    ensures SlashesForward(dir) == dir <==> '\\' !in dir
  {
    if '\\' in dir {
      var i :| 0 <= i < |dir| && dir[i] == '\\';
      assert SlashesForward(dir)[i] == '/';
    }
  }

  lemma SegmentFacts(p: string)
    requires IsSafeSegment(p)
    ensures p != "" && forall c :: c in p ==> IsAlnum(c) || c in "._@+-"
  {
  }

  lemma BundlePathSegments(path: string)
    requires IsLogicalPath(path)
    ensures path != "" && forall i :: 0 <= i < |Split(path, '/')| ==> Split(path, '/')[i] != ""
  {
    hide IsSafeSegment, Split;
    forall i | 0 <= i < |Split(path, '/')|
      ensures Split(path, '/')[i] != ""
    {
      assert Split(path, '/')[i] in Split(path, '/');
      SegmentFacts(Split(path, '/')[i]);
    }
  }

  lemma BundlePathEnds(path: string)
    requires path != "" && forall i :: 0 <= i < |Split(path, '/')| ==> Split(path, '/')[i] != ""
    ensures path[|path| - 1] != '/' && NameStart(path) != 1
  {
    hide NameStart, Split;
    assert Split(path, '/')[0] != "" && Split(path, '/')[|Split(path, '/')| - 1] != "";
    FirstSegment(path);
    LastSegment(path);
  }

  lemma BundlePathCharacters(path: string)
    requires IsLogicalPath(path)
    ensures forall c :: c in path ==> IsAlnum(c) || c in "._@+-/"
  {
    hide IsSafeSegment, Split, IsAlnum;
    SegmentsCover(path);
    forall c | c in path && c != '/'
      ensures IsAlnum(c) || c in "._@+-/"
    {
      var p :| p in Split(path, '/') && c in p;
      SegmentFacts(p);
    }
  }

  lemma {:induction false} SegmentsCover(path: string)
    ensures forall c :: c in path ==> c == '/' || exists p :: p in Split(path, '/') && c in p
  {
    if path != "" {
      SegmentsCover(path[1..]);
      var rest := Split(path[1..], '/');
      forall c | c in path && c != '/'
        ensures exists p :: p in Split(path, '/') && c in p
      {
        if path[0] == '/' {
          assert c in path[1..];
          var p :| p in rest && c in p;
          assert p in [""] + rest;
        } else {
          var parts := [[path[0]] + rest[0]] + rest[1..];
          if c == path[0] {
            assert parts[0] in parts && c in parts[0];
          } else {
            assert c in path[1..];
            var p :| p in rest && c in p;
            var i :| 0 <= i < |rest| && rest[i] == p;
            assert parts[i] in parts && c in parts[i];
          }
        }
      }
    }
  }

  lemma FirstSegment(path: string)
    requires path != ""
    ensures NameStart(path) == 1 ==> Split(path, '/')[0] == ""
  {
    assert NameStart(path) == 1 ==> path[0] == '/';
  }

  lemma {:induction false} LastSegment(path: string)
    requires path != "" && Split(path, '/')[|Split(path, '/')| - 1] != ""
    ensures path[|path| - 1] != '/'
  {
    if |path| > 1 {
      var rest := Split(path[1..], '/');
      var parts := Split(path, '/');
      if path[0] == '/' {
        assert parts == [""] + rest;
        LastSegment(path[1..]);
      } else {
        assert parts == [[path[0]] + rest[0]] + rest[1..];
        if path[|path| - 1] == '/' {
          TrailingSlash(path[1..]);
        }
      }
    } else {
      assert path == [path[0]];
      assert Split(path[1..], '/') == [""];
    }
  }

  lemma {:induction false} TrailingSlash(path: string)
    requires path != "" && path[|path| - 1] == '/'
    ensures |Split(path, '/')| > 1 && Split(path, '/')[|Split(path, '/')| - 1] == ""
  {
    if |path| == 1 {
      assert Split(path[1..], '/') == [""];
    } else {
      TrailingSlash(path[1..]);
    }
  }

  /** For every path a bundle can carry the two names are the same, hashed or not. */
  lemma BundlePathsAgree(path: string, hash: string, consistentSnapshot: bool)
    requires IsLogicalPath(path) && IsHash(hash)
    ensures SourcePathFor(path, hash, consistentSnapshot) == Ok(ConsistentTargetPath(path, hash, consistentSnapshot))
  {
    if consistentSnapshot {
      hide IsLogicalPath, NameStart, SourcePathFor, ConsistentTargetPath, IsHash;
      BundlePathSegments(path);
      BundlePathEnds(path);
      BundlePathCharacters(path);
      forall c | c in path[..NameStart(path)]
        ensures c != '\\'
      {
        assert c in path;
      }
      NamesAgreeIff(path, hash);
    }
  }

  lemma {:induction false} NameStartAt(dir: string, name: string)
    requires '/' !in name && (dir == "" || dir[|dir| - 1] == '/')
    ensures NameStart(dir + name) == |dir|
    decreases |name|
  {
    if name == "" {
      assert dir + name == dir;
    } else {
      var all, init := dir + name, name[..|name| - 1];
      assert all[|all| - 1] == name[|name| - 1];
      assert name[|name| - 1] in name;
      assert all[..|all| - 1] == dir + init;
      NameStartAt(dir, init);
    }
  }

  /** Naming is injective: the published name gives back both the path and the hash. */
  lemma NamesAreInjective(p: string, h: string, q: string, g: string)
    requires IsHash(h) && IsHash(g) && ConsistentTargetPath(p, h, true) == ConsistentTargetPath(q, g, true)
    ensures p == q && h == g
  {
    HashedTail(p, h);
    HashedTail(q, g);
    hide ConsistentTargetPath, NameStart, IsHash, Hashed;
    HashedPath(p, h);
    HashedPath(q, g);
    HashLength(h);
    HashLength(g);
    SameHashed(p[..NameStart(p)], h, p[NameStart(p)..], q[..NameStart(q)], g, q[NameStart(q)..]);
    assert p == p[..NameStart(p)] + p[NameStart(p)..] && q == q[..NameStart(q)] + q[NameStart(q)..];
  }

  lemma HashedPath(p: string, h: string)
    ensures ConsistentTargetPath(p, h, true) == Hashed(p[..NameStart(p)], h, p[NameStart(p)..])
  {
  }

  lemma HashLength(h: string)
    requires IsHash(h)
    ensures |h| == 64
  {
  }

  lemma SameHashed(a: string, h: string, x: string, b: string, g: string, y: string)
    requires |a| == |b| && |h| == |g| && Hashed(a, h, x) == Hashed(b, g, y)
    ensures a == b && h == g && x == y
  {
    var l, r := Hashed(a, h, x), Hashed(b, g, y);
    assert l[..|a|] == a && r[..|a|] == b;
    assert l[|a|..|a| + |h|] == h && r[|a|..|a| + |h|] == g;
    assert l[|a| + |h| + 1..] == x && r[|a| + |h| + 1..] == y;
  }

  lemma HashedTail(p: string, h: string)
    requires IsHash(h)
    ensures NameStart(ConsistentTargetPath(p, h, true)) == NameStart(p)
  {
    var n := NameStart(p);
    var tail := h + "." + p[n..];
    assert '/' !in h by {
      assert !IsHex('/');
    }
    assert p[..n] + h + "." + p[n..] == p[..n] + tail;
    NameStartAt(p[..n], tail);
  }

  // ---- Publishing targets under their names ----

  datatype NamedTarget = NamedTarget(path: string, hash: string)

  function PublishedName(t: NamedTarget, consistentSnapshot: bool): string {
    ConsistentTargetPath(t.path, t.hash, consistentSnapshot)
  }

  /** Publishing distinct paths never overwrites a target: there are as many names as targets, and each
      name leads back to its own target. */
  method PublishTargets(targets: seq<NamedTarget>, consistentSnapshot: bool) returns (published: map<string, NamedTarget>)
    requires forall t :: t in targets ==> IsHash(t.hash)
    requires forall i, j :: 0 <= i < j < |targets| ==> targets[i].path != targets[j].path
    ensures |published| == |targets|
    ensures forall t :: t in targets ==>
              PublishedName(t, consistentSnapshot) in published && published[PublishedName(t, consistentSnapshot)] == t
  {
    hide ConsistentTargetPath, IsHash;
    published := map[];
    for i := 0 to |targets|
      invariant |published| == i
      invariant forall j :: 0 <= j < i ==>
                  PublishedName(targets[j], consistentSnapshot) in published
                  && published[PublishedName(targets[j], consistentSnapshot)] == targets[j]
      invariant forall k :: k in published ==> exists j :: 0 <= j < i && k == PublishedName(targets[j], consistentSnapshot)
    {
      forall j | 0 <= j < i
        ensures PublishedName(targets[j], consistentSnapshot) != PublishedName(targets[i], consistentSnapshot)
      {
        assert targets[i] in targets && targets[j] in targets;
        DistinctNames(targets[j], targets[i], consistentSnapshot);
      }
      published := published[PublishedName(targets[i], consistentSnapshot) := targets[i]];
    }
  }

  lemma DistinctNames(a: NamedTarget, b: NamedTarget, consistentSnapshot: bool)
    requires IsHash(a.hash) && IsHash(b.hash) && a.path != b.path
    ensures PublishedName(a, consistentSnapshot) != PublishedName(b, consistentSnapshot)
  {
    if consistentSnapshot && PublishedName(a, true) == PublishedName(b, true) {
      NamesAreInjective(a.path, a.hash, b.path, b.hash);
    }
  }

  // ---- Component bytes ----

  datatype ComponentBytes = ComponentBytes(logicalPath: string, bytes: seq<byte>)

  predicate IsSafeText(s: string) { s != "" && Every(s, c => IsAlnum(c) || c in "._@+-/") }

  function PathOf(v: ComponentBytes): string { v.logicalPath }

  predicate Observed(c: Component, bytes: seq<byte>, sha: seq<byte> -> string) {
    c.sizeBytes == |bytes| && c.contentDigest == sha(bytes)
  }

  predicate CoveredBy(c: Component, values: seq<ComponentBytes>, sha: seq<byte> -> string) {
    exists v :: v in values && v.logicalPath == c.logicalPath && Observed(c, v.bytes, sha)
  }

  /** The bytes cover the components exactly: one entry each, of the declared size and digest. */
  predicate Covers(components: seq<Component>, values: seq<ComponentBytes>, sha: seq<byte> -> string) {
    && |values| == |components|
    && (forall v :: v in values ==> IsSafeText(v.logicalPath) && v.bytes != [])
    && DistinctKeys(values, PathOf)
    && (forall c :: c in components ==> CoveredBy(c, values, sha))
  }

  method GatherBytes(values: seq<ComponentBytes>) returns (r: Result<map<string, seq<byte>>>)
    ensures r.Ok? <==> DistinctKeys(values, PathOf) && forall v :: v in values ==> IsSafeText(v.logicalPath) && v.bytes != []
    ensures r.Ok? ==> forall p :: p in r.value <==> exists v :: v in values && v.logicalPath == p
    ensures r.Ok? ==> forall v :: v in values ==> r.value[v.logicalPath] == v.bytes
  {
    hide IsSafeText;
    var byPath: map<string, seq<byte>> := map[];
    for i := 0 to |values|
      invariant DistinctKeys(values[..i], PathOf)
      invariant forall v :: v in values[..i] ==> IsSafeText(v.logicalPath) && v.bytes != []
      invariant forall p :: p in byPath <==> exists v :: v in values[..i] && v.logicalPath == p
      invariant forall v :: v in values[..i] ==> byPath[v.logicalPath] == v.bytes
    {
      assert values[..i + 1] == values[..i] + [values[i]];
      if !IsSafeText(values[i].logicalPath) {
        return Err("VES_TUF_PUBLICATION_INPUT_INVALID");
      }
      if values[i].bytes == [] {
        return Err("VES_TUF_PUBLICATION_BYTES_INVALID");
      }
      KeySetSnoc(values[..i], values[i], PathOf);
      if values[i].logicalPath in byPath {
        var v :| v in values[..i] && v.logicalPath == values[i].logicalPath;
        assert PathOf(v) in KeySet(values[..i], PathOf);
        return Err("VES_TUF_PUBLICATION_BYTES_DUPLICATE");
      }
      byPath := byPath[values[i].logicalPath := values[i].bytes];
    }
    assert values[..|values|] == values;
    r := Ok(byPath);
  }

  method ValidateComponentBytes(components: seq<Component>, values: seq<ComponentBytes>, sha: seq<byte> -> string)
    returns (r: Result<map<string, seq<byte>>>)
    ensures r.Ok? <==> Covers(components, values, sha)
    ensures r.Ok? ==> forall v :: v in values ==> v.logicalPath in r.value && r.value[v.logicalPath] == v.bytes
  {
    hide IsSafeText, DistinctKeys;
    if |values| != |components| {
      return Err("VES_TUF_PUBLICATION_BYTES_INCOMPLETE");
    }
    r := GatherBytes(values);
    if r.Err? {
      return;
    }
    for i := 0 to |components|
      invariant forall c :: c in components[..i] ==> CoveredBy(c, values, sha)
    {
      var c := components[i];
      assert components[..i + 1] == components[..i] + [c];
      CoveredByTable(c, values, r.value, sha);
      if c.logicalPath !in r.value {
        return Err("VES_TUF_PUBLICATION_BYTES_INCOMPLETE");
      }
      if !Observed(c, r.value[c.logicalPath], sha) {
        return Err("VES_TUF_PUBLICATION_BYTES_MISMATCH");
      }
    }
    assert components[..|components|] == components;
  }

  lemma CoveredByTable(c: Component, values: seq<ComponentBytes>, byPath: map<string, seq<byte>>, sha: seq<byte> -> string)
    requires forall p :: p in byPath <==> exists v :: v in values && v.logicalPath == p
    requires forall v :: v in values ==> byPath[v.logicalPath] == v.bytes
    ensures CoveredBy(c, values, sha) <==> c.logicalPath in byPath && Observed(c, byPath[c.logicalPath], sha)
  {
  }

  // ---- Materialization ----

  /** A component with the bytes it was observed from: collected source files and generated evidence. */
  datatype Artifact = Artifact(component: Component, bytes: seq<byte>)

  function WithoutLicenses(artifacts: seq<Artifact>): seq<Artifact> {
    if artifacts == [] then []
    else (if artifacts[0].component.kind != "license" then [artifacts[0]] else []) + WithoutLicenses(artifacts[1..])
  }

  function Included(sources: seq<Artifact>, evidence: seq<Artifact>): seq<Artifact> {
    WithoutLicenses(sources) + evidence
  }

  function ComponentsOf(artifacts: seq<Artifact>): seq<Component> {
    seq(|artifacts|, i requires 0 <= i < |artifacts| => artifacts[i].component)
  }

  function BytesOf(artifacts: seq<Artifact>): seq<ComponentBytes> {
    seq(|artifacts|, i requires 0 <= i < |artifacts| =>
      ComponentBytes(artifacts[i].component.logicalPath, artifacts[i].bytes))
  }

  function Materialize(input: Manifest, sources: seq<Artifact>, evidence: seq<Artifact>): Result<(Bundle, seq<ComponentBytes>)> {
    match Build(input.(components := ComponentsOf(Included(sources, evidence))))
    case Err(code) => Err(code)
    case Ok(bundle) => Ok((bundle, SortBy(BytesOf(Included(sources, evidence)), PathOf)))
  }

  lemma NormalizedKeepsIdentity(item: Component, releaseId: string, target: Target)
    requires NormalizeComponent(item, releaseId, target).Ok?
    ensures var c := NormalizeComponent(item, releaseId, target).value;
            c.logicalPath == item.logicalPath && c.sizeBytes == item.sizeBytes && c.contentDigest == item.contentDigest
    ensures item.sizeBytes > 0 && IsLogicalPath(item.logicalPath)
  {
    hide IsSafeId, IsDigest, IsLogicalPath, Refs;
  }

  /** Whatever materialization accepts passes the publisher's check of its own bytes. */
  lemma MaterializedBytesCover(input: Manifest, sources: seq<Artifact>, evidence: seq<Artifact>, sha: seq<byte> -> string)
    requires forall a :: a in sources || a in evidence ==> Observed(a.component, a.bytes, sha)
    requires Materialize(input, sources, evidence).Ok?
    ensures var (bundle, bytes) := Materialize(input, sources, evidence).value;
            Covers(bundle.manifest.components, bytes, sha)
  {
    var included := Included(sources, evidence);
    IncludedAreGiven(sources, evidence);
    var items, values := ComponentsOf(included), BytesOf(included);
    var manifest := input.(components := items);
    assert Build(manifest).Ok?;
    hide NormalizeComponent, SortBy, NormalizeAll, Included;
    var out := NormalizeAll(items, input.releaseId, input.target).value;
    NormalizeAllPointwise(items, input.releaseId, input.target);
    ClosureMeansDistinct(SortBy(out, Id));
    hide ClosureError, IsSafeText, IsLogicalPath;
    SortMultiset(out, Id);
    SortMembers(out, Id);
    DistinctByMultiset(SortBy(out, Id), out, Path);
    forall i | 0 <= i < |included|
      ensures Observed(out[i], included[i].bytes, sha) && out[i].logicalPath == included[i].component.logicalPath
      ensures IsSafeText(values[i].logicalPath) && values[i].bytes != []
    {
      assert included[i] in included;
      NormalizedKeepsIdentity(items[i], input.releaseId, input.target);
      LogicalPathIsSafeText(items[i].logicalPath);
    }
    BytesCover(included, out, values, sha);
    CoversSorted(out, values, sha);
  }

  lemma IncludedAreGiven(sources: seq<Artifact>, evidence: seq<Artifact>)
    ensures forall a :: a in Included(sources, evidence) ==> a in sources || a in evidence
  {
    WithoutLicensesAreGiven(sources);
  }

  lemma {:induction false} WithoutLicensesAreGiven(artifacts: seq<Artifact>)
    ensures forall a :: a in WithoutLicenses(artifacts) ==> a in artifacts
  {
    if artifacts != [] {
      WithoutLicensesAreGiven(artifacts[1..]);
    }
  }

  lemma LogicalPathIsSafeText(path: string)
    requires IsLogicalPath(path)
    ensures IsSafeText(path)
  {
    BundlePathCharacters(path);
  }

  lemma BytesCover(included: seq<Artifact>, out: seq<Component>, values: seq<ComponentBytes>, sha: seq<byte> -> string)
    requires |out| == |included| && values == BytesOf(included) && DistinctKeys(out, Path)
    requires forall i :: 0 <= i < |included| ==>
               && Observed(out[i], included[i].bytes, sha) && out[i].logicalPath == included[i].component.logicalPath
               && IsSafeText(values[i].logicalPath) && values[i].bytes != []
    ensures Covers(out, values, sha)
  {
    hide IsSafeText;
    forall i, j | 0 <= i < j < |values|
      ensures PathOf(values[i]) != PathOf(values[j])
    {
      assert Path(out[i]) != Path(out[j]);
    }
    forall c | c in out
      ensures CoveredBy(c, values, sha)
    {
      var i :| 0 <= i < |out| && out[i] == c;
      assert values[i] in values;
    }
  }

  lemma CoversSorted(components: seq<Component>, values: seq<ComponentBytes>, sha: seq<byte> -> string)
    requires Covers(components, values, sha)
    ensures Covers(SortBy(components, Id), SortBy(values, PathOf), sha)
  {
    hide IsSafeText, SortBy, Observed;
    SortMembers(components, Id);
    SortMembers(values, PathOf);
    SortMultiset(values, PathOf);
    DistinctByMultiset(values, SortBy(values, PathOf), PathOf);
  }
}
