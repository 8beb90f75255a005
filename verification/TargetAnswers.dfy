/** What the names and bytes of targets are, on the path, the bytes and the artifacts
    themselves. */
module TargetAnswers {
  import opened Results
  import opened CodeUnits
  import opened Text
  import opened HermeticBundle
  import opened TargetPaths
  import opened BundleAcceptance

  // ---- Names ----

  lemma {:induction false} NameStartIs(directory: string, base: string)
    requires '/' !in base
    ensures NameStart(directory + "/" + base) == |directory| + 1
    ensures NameStart(base) == 0
    decreases |base|
  {
    var path := directory + "/" + base;
    if base == "" {
      assert path[|path| - 1] == '/';
    } else {
      var init := base[..|base| - 1];
      assert base[|base| - 1] in base && path[..|path| - 1] == directory + "/" + init;
      NameStartIs(directory, init);
      assert base[|base| - 1] != '/';
    }
  }

  /** The publisher puts the hash before the last name of a path, and changes nothing else of it. */
  lemma PublishedAs(directory: string, base: string, hash: string)
    requires '/' !in base
    ensures ConsistentTargetPath(directory + "/" + base, hash, true) == directory + "/" + hash + "." + base
    ensures ConsistentTargetPath(base, hash, true) == hash + "." + base
    ensures ConsistentTargetPath(directory + "/" + base, hash, false) == directory + "/" + base
  {
    NameStartIs(directory, base);
    var path := directory + "/" + base;
    assert path[..|directory| + 1] == directory + "/" && path[|directory| + 1..] == base;
  }

  /** The client reads the same, but that it turns backslashes around and doubles the slash of the root;
      it refuses what is no digest. */
  lemma ReadAs(directory: string, base: string, hash: string)
    requires '/' !in base
    ensures var path := directory + "/" + base;
            if |hash| == 64 && forall c :: c in hash ==> '0' <= c <= '9' || 'a' <= c <= 'f' then
              && SourcePathFor(base, hash, true) == Ok(hash + "." + base)
              && (directory == "" ==> SourcePathFor(path, hash, true) == Ok("//" + hash + "." + base))
              && (directory != "" && '\\' !in directory ==>
                    SourcePathFor(path, hash, true) == Ok(directory + "/" + hash + "." + base))
            else SourcePathFor(path, hash, true) == Err("VES_TUF_INTEGRITY")
    ensures SourcePathFor(directory + "/" + base, hash, false) == Ok(directory + "/" + base)
  {
    NameStartIs(directory, base);
    var path := directory + "/" + base;
    assert IsHash(hash) <==> |hash| == 64 && forall c :: c in hash ==> '0' <= c <= '9' || 'a' <= c <= 'f';
    hide IsHash, NameStart, SlashesForward;
    assert path[|directory| + 1..] == base && path[..|directory|] == directory && base[0..] == base;
    assert Hashed("", hash, base) == hash + "." + base by {
      assert "" + hash == hash;
    }
    assert "/" + "/" + hash + "." + base == "//" + hash + "." + base;
    ForwardIff(directory);
    assert SlashesForward("/") == "/" by { ForwardIff("/"); }
  }

  // ---- Bytes ----

  /** A path of safe characters, and some bytes. */
  predicate Entry(v: ComponentBytes) {
    v.logicalPath != "" && v.bytes != [] &&
    forall c :: c in v.logicalPath ==> '0' <= c <= '9' || 'a' <= c <= 'z' || 'A' <= c <= 'Z' || c in "._@+-/"
  }

  /** The bytes of one component: under its path, of its size and digest. */
  predicate BytesFor(c: Component, v: ComponentBytes, sha: seq<byte> -> string) {
    v.logicalPath == c.logicalPath && |v.bytes| == c.sizeBytes && sha(v.bytes) == c.contentDigest
  }

  /** Bytes cover components exactly when they are as many entries as components, of different paths, and
      each component finds its own. */
  lemma CoversIff(components: seq<Component>, values: seq<ComponentBytes>, sha: seq<byte> -> string)
    ensures Covers(components, values, sha) <==>
              && |values| == |components| && (forall v :: v in values ==> Entry(v))
              && (forall i, j :: 0 <= i < j < |values| ==> values[i].logicalPath != values[j].logicalPath)
              && forall c :: c in components ==> exists v :: v in values && BytesFor(c, v, sha)
  {
    forall v | v in values
      ensures Entry(v) <==> IsSafeText(v.logicalPath) && v.bytes != []
    {
    }
    hide IsSafeText, Entry;
    assert DistinctKeys(values, PathOf) <==>
      forall i, j :: 0 <= i < j < |values| ==> values[i].logicalPath != values[j].logicalPath;
    forall c | c in components
      ensures CoveredBy(c, values, sha) <==> exists v :: v in values && BytesFor(c, v, sha)
    {
      if v :| v in values && v.logicalPath == c.logicalPath && Observed(c, v.bytes, sha) {
        assert BytesFor(c, v, sha);
      }
    }
  }

  // ---- Materialization ----

  lemma {:induction false} WithoutLicensesIff(artifacts: seq<Artifact>)
    ensures forall a :: a in WithoutLicenses(artifacts) <==> a in artifacts && a.component.kind != "license"
  {
    if artifacts != [] {
      WithoutLicensesIff(artifacts[1..]);
      assert artifacts == [artifacts[0]] + artifacts[1..];
    }
  }

  predicate Brings(sources: seq<Artifact>, evidence: seq<Artifact>, a: Artifact) {
    (a in sources && a.component.kind != "license") || a in evidence
  }

  /** A materialized bundle holds the component of every source artifact but the licenses and of every
      evidence artifact, nothing else, and the bytes returned are theirs. */
  lemma MaterializedHolds(input: Manifest, sources: seq<Artifact>, evidence: seq<Artifact>)
    requires Materialize(input, sources, evidence).Ok?
    ensures var (bundle, bytes) := Materialize(input, sources, evidence).value;
            && bundle.manifest == input.(components := bundle.manifest.components)
            && (forall c :: c in bundle.manifest.components <==>
                  exists a :: Brings(sources, evidence, a) && c == Tidy(a.component))
            && (forall v :: v in bytes <==>
                  exists a :: Brings(sources, evidence, a) && v == ComponentBytes(a.component.logicalPath, a.bytes))
  {
    hide Build, SortBy, Tidy, Included, Brings, BytesOf, ComponentsOf, TidyAll;
    var included := Included(sources, evidence);
    IncludedIff(sources, evidence);
    ManifestIsAcceptedIff(input.(components := ComponentsOf(included)));
    SortMembers(BytesOf(included), PathOf);
    TidyMembers(included);
    BytesMembers(included);
    var bundle := Materialize(input, sources, evidence).value.0;
    SameMembers(bundle.manifest.components, TidyAll(ComponentsOf(included)));
  }

  lemma IncludedIff(sources: seq<Artifact>, evidence: seq<Artifact>)
    ensures forall a :: a in Included(sources, evidence) <==> Brings(sources, evidence, a)
  {
    WithoutLicensesIff(sources);
  }

  lemma SameMembers<T>(xs: seq<T>, ys: seq<T>)
    requires multiset(xs) == multiset(ys)
    ensures forall x :: x in xs <==> x in ys
  {
    forall x: T
      ensures x in xs <==> x in ys
    {
      assert x in multiset(xs) <==> x in multiset(ys);
    }
  }

  lemma TidyMembers(included: seq<Artifact>)
    ensures forall c :: c in TidyAll(ComponentsOf(included)) <==> exists a :: a in included && c == Tidy(a.component)
  {
    hide Tidy;
    var cs := TidyAll(ComponentsOf(included));
    forall a | a in included
      ensures Tidy(a.component) in cs
    {
      var i :| 0 <= i < |included| && included[i] == a;
      assert cs[i] == Tidy(a.component);
    }
    forall c | c in cs
      ensures exists a :: a in included && c == Tidy(a.component)
    {
      var i :| 0 <= i < |cs| && cs[i] == c;
      assert included[i] in included;
    }
  }

  lemma BytesMembers(included: seq<Artifact>)
    ensures forall v :: v in BytesOf(included) <==>
              exists a :: a in included && v == ComponentBytes(a.component.logicalPath, a.bytes)
  {
    var values := BytesOf(included);
    forall a | a in included
      ensures ComponentBytes(a.component.logicalPath, a.bytes) in values
    {
      var i :| 0 <= i < |included| && included[i] == a;
      assert values[i] == ComponentBytes(a.component.logicalPath, a.bytes);
    }
    forall v | v in values
      ensures exists a :: a in included && v == ComponentBytes(a.component.logicalPath, a.bytes)
    {
      var i :| 0 <= i < |values| && values[i] == v;
      assert included[i] in included;
    }
  }
}
