/** The texts the program's patterns match, spelled out by their parts and characters. */
module Patterns {
  import opened Text
  import H = HermeticBundle
  import O = ProbeOperation
  import Q = PostgreSqlProbe
  import T = TargetPaths

  predicate Alnum(c: char) { '0' <= c <= '9' || 'a' <= c <= 'z' || 'A' <= c <= 'Z' }

  predicate HexDigit(c: char) { '0' <= c <= '9' || 'a' <= c <= 'f' }

  // ---- Identities and digests ----

  predicate SafeId(s: string) {
    1 <= |s| <= 256 && Alnum(s[0]) && forall c :: c in s ==> Alnum(c) || c in ":._@+/-"
  }

  lemma SafeIdIff(s: string)
    ensures H.IsSafeId(s) <==> SafeId(s)
  {
    if s != [] {
      assert s == [s[0]] + s[1..];
    }
  }

  predicate Digest(s: string) {
    |s| == 71 && s[..7] == "sha256:" && forall i :: 7 <= i < 71 ==> HexDigit(s[i])
  }

  lemma DigestIff(s: string)
    ensures IsDigest(s) <==> Digest(s)
  {
    if |s| == 71 {
      EveryFrom(s, 7, IsHex);
    }
  }

  lemma EveryFrom(s: string, n: nat, ok: char -> bool)
    requires n <= |s|
    ensures Every(s[n..], ok) <==> forall i :: n <= i < |s| ==> ok(s[i])
  {
    if Every(s[n..], ok) {
      forall i | n <= i < |s|
        ensures ok(s[i])
      {
        assert s[n..][i - n] in s[n..];
      }
    }
  }

  lemma HashIff(s: string)
    ensures T.IsHash(s) <==> |s| == 64 && forall c :: c in s ==> HexDigit(c)
  {
  }

  lemma SafeTextIff(s: string)
    ensures T.IsSafeText(s) <==> s != "" && forall c :: c in s ==> Alnum(c) || c in "._@+-/"
  {
  }

  // ---- Versions ----

  /** A number without leading zeros. */
  predicate Numeral(s: string) {
    s == "0" || (s != "" && '1' <= s[0] <= '9' && forall c :: c in s ==> '0' <= c <= '9')
  }

  lemma NumeralIff(s: string)
    ensures H.IsNumber(s) <==> Numeral(s)
  {
    if s != [] {
      assert s == [s[0]] + s[1..];
      assert s[0] in s;
    }
  }

  /** Three numbers joined by dots. */
  ghost predicate Version(s: string) {
    exists a, b, c :: Numeral(a) && Numeral(b) && Numeral(c) && s == a + "." + b + "." + c
  }

  lemma NumeralHasNoDot(s: string)
    requires Numeral(s)
    ensures '.' !in s
  {
  }

  lemma JoinThree(a: string, b: string, c: string)
    ensures Join([a, b, c], ".") == a + "." + b + "." + c
  {
    assert [a, b, c][1..] == [b, c] && [b, c][1..] == [c];
    assert Join([b, c], ".") == b + "." + c;
  }

  lemma VersionIff(s: string)
    ensures H.IsNodeVersion(s) <==> Version(s)
  {
    hide H.IsNumber, Numeral, Split, Join;
    var parts := Split(s, '.');
    forall p
      ensures H.IsNumber(p) <==> Numeral(p)
    {
      NumeralIff(p);
    }
    if H.IsNodeVersion(s) {
      JoinSplit(s, '.');
      assert parts == [parts[0], parts[1], parts[2]];
      JoinThree(parts[0], parts[1], parts[2]);
      assert Numeral(parts[0]) && Numeral(parts[1]) && Numeral(parts[2]);
    }
    if a, b, c :| Numeral(a) && Numeral(b) && Numeral(c) && s == a + "." + b + "." + c {
      NumeralHasNoDot(a);
      NumeralHasNoDot(b);
      NumeralHasNoDot(c);
      JoinThree(a, b, c);
      SplitJoin([a, b, c], '.');
    }
  }

  /** A version, perhaps with a tail after a hyphen. */
  ghost predicate SemanticVersion(s: string) {
    Version(s) || exists v, tail :: Version(v) && Tail(tail) && s == v + "-" + tail
  }

  predicate Tail(s: string) { s != "" && forall c :: c in s ==> Alnum(c) || c == '.' || c == '-' }

  lemma SemanticVersionIff(s: string)
    ensures H.IsSemver(s) <==> SemanticVersion(s)
  {
    hide H.IsNodeVersion, Version, H.IsSemver;
    VersionIff(s);
    if SemanticVersion(s) && !Version(s) {
      var v, tail :| Version(v) && Tail(tail) && s == v + "-" + tail;
      VersionIff(v);
      assert s[..|v|] == v && s[|v| + 1..] == tail && s[|v|] == '-';
      HyphenAt(s, |v|);
    }
    if H.IsSemver(s) && !H.IsNodeVersion(s) {
      var i := HyphenOf(s);
      VersionIff(s[..i]);
      assert s == s[..i] + "-" + s[i + 1..];
    }
    SemverOfVersion(s);
  }

  lemma SemverOfVersion(s: string)
    ensures H.IsNodeVersion(s) ==> H.IsSemver(s)
  {
    hide H.IsNodeVersion;
  }

  lemma HyphenAt(s: string, i: nat)
    requires i < |s| - 1 && s[i] == '-' && H.IsNodeVersion(s[..i]) && Tail(s[i + 1..])
    ensures H.IsSemver(s)
  {
    hide H.IsNodeVersion;
  }

  lemma HyphenOf(s: string) returns (i: nat)
    requires H.IsSemver(s) && !H.IsNodeVersion(s)
    ensures i < |s| - 1 && s[i] == '-' && H.IsNodeVersion(s[..i]) && Tail(s[i + 1..])
  {
    hide H.IsNodeVersion;
    i :| 0 <= i < |s| - 1 && s[i] == '-' && H.IsNodeVersion(s[..i]) && Every(s[i + 1..], c => IsAlnum(c) || c == '.' || c == '-');
  }

  // ---- Paths ----

  /** A device name of Windows. */
  predicate Device(s: string) {
    || s == "con" || s == "prn" || s == "aux" || s == "nul"
    || (|s| == 4 && (s[..3] == "com" || s[..3] == "lpt") && '1' <= s[3] <= '9')
  }

  /** A name of safe characters that is no step, has no final dot, and is no device name in any case,
      with or without an extension. */
  predicate Segment(s: string) {
    && s != "" && s != "." && s != ".." && s[|s| - 1] != '.'
    && !Device(Stem(Lower(s))) && forall c :: c in s ==> Alnum(c) || c in "._@+-"
  }

  /** The name up to its first dot. */
  function Stem(s: string): string {
    if s == "" || s[0] == '.' then "" else [s[0]] + Stem(s[1..])
  }

  lemma DeviceIff(s: string)
    ensures s in H.RESERVED_NAMES <==> Device(s)
  {
    var names := H.RESERVED_NAMES;
    assert names[0] == "con" && names[1] == "prn" && names[2] == "aux" && names[3] == "nul";
    if Device(s) && |s| == 4 {
      var at := if s[..3] == "com" then s[3] as int - '1' as int + 4 else s[3] as int - '1' as int + 13;
      assert s == s[..3] + [s[3]];
      assert names[at] == s by { NumberedDevice(s, at); }
    }
    if s in names {
      var i :| 0 <= i < |names| && names[i] == s;
    }
  }

  lemma NumberedDevice(s: string, at: nat)
    requires |s| == 4 && (s[..3] == "com" || s[..3] == "lpt") && '1' <= s[3] <= '9'
    requires at == if s[..3] == "com" then s[3] as int - '1' as int + 4 else s[3] as int - '1' as int + 13
    ensures |H.RESERVED_NAMES| == 22 && H.RESERVED_NAMES[at] == s
  {
    assert s == s[..3] + [s[3]];
  }

  lemma {:induction false} StemIsFirstPart(s: string)
    ensures Stem(s) == Split(s, '.')[0] && Stem(Lower(s)) == Lower(Stem(s))
  {
    if s != [] {
      StemIsFirstPart(s[1..]);
      assert Lower(s) == [ToLower(s[0])] + Lower(s[1..]);
      if s[0] != '.' {
        assert Lower([s[0]] + Stem(s[1..])) == [ToLower(s[0])] + Lower(Stem(s[1..]));
      }
    }
  }

  lemma SegmentIff(s: string)
    ensures H.IsSafeSegment(s) <==> Segment(s)
  {
    StemIsFirstPart(s);
    DeviceIff(Lower(Stem(s)));
    hide Split, Stem, Lower, Device;
  }

  /** A path of 1 to 1024 characters made of segments joined by slashes. */
  ghost predicate RelativePath(path: string) {
    1 <= |path| <= 1024 && exists names: seq<string> :: path == Join(names, "/") && names != [] && forall n :: n in names ==> Segment(n)
  }

  lemma PathIff(path: string)
    ensures H.IsLogicalPath(path) <==> RelativePath(path)
  {
    hide H.IsSafeSegment, Split, Join, Segment;
    forall s
      ensures H.IsSafeSegment(s) <==> Segment(s)
    {
      SegmentIff(s);
    }
    var parts := Split(path, '/');
    JoinSplit(path, '/');
    if H.IsLogicalPath(path) {
      assert path == Join(parts, "/");
    }
    if RelativePath(path) {
      var names: seq<string> :| path == Join(names, "/") && names != [] && forall n :: n in names ==> Segment(n);
      forall n | n in names
        ensures '/' !in n
      {
        SegmentHasNoSlash(n);
      }
      SplitJoin(names, '/');
    }
  }

  lemma SegmentHasNoSlash(s: string)
    requires Segment(s)
    ensures '/' !in s
  {
  }

  // ---- Names of databases and requests ----

  lemma IdentifierIff(s: string)
    ensures O.IsIdentifier(s) <==>
              && 2 <= |s| <= 128 && 'a' <= s[0] <= 'z'
              && ('a' <= s[|s| - 1] <= 'z' || '0' <= s[|s| - 1] <= '9')
              && forall c :: c in s ==> 'a' <= c <= 'z' || '0' <= c <= '9' || c == '.' || c == '_' || c == '-'
  {
  }

  lemma SqlNameIff(s: string)
    ensures Q.IsSqlName(s) <==>
              && 1 <= |s| <= 63 && 'a' <= s[0] <= 'z'
              && forall c :: c in s ==> 'a' <= c <= 'z' || '0' <= c <= '9' || c == '_'
  {
  }

  predicate RequestChar(c: char) { 'a' <= c <= 'z' || '0' <= c <= '9' || c == '-' }

  lemma RequestRefIff(s: string)
    ensures O.IsProtectedRef(s) <==>
              34 <= |s| <= 146 && s[..18] == "protected-request:" && forall i :: 18 <= i < |s| ==> RequestChar(s[i])
  {
    assert |O.REF_PREFIX| == 18 && O.REF_PREFIX == "protected-request:";
    if |s| >= 18 {
      EveryFrom(s, 18, c => IsLower(c) || IsDigit(c) || c == '-');
      assert O.REF_PREFIX <= s <==> s[..18] == O.REF_PREFIX;
    }
  }
}
