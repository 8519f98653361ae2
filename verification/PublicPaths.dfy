/** Store keys as paths: different keys have different paths, and the download route serves
    exactly the published ones. */
module PublicPaths {
  import opened Options
  import opened Strings
  import opened SemVer
  import opened Names
  import opened Registry

  function Segments(k: Key): seq<string> {
    match k
    case ProviderIndex(p) => ["providers", p.namespace, p.name, "index.json"]
    case ProviderKey(p, v, file) => ["providers", p.namespace, p.name, v, ProviderFileText(p.name, v, file)]
    case ModuleIndex(m) => ["modules", m.namespace, m.name, m.provider, "index.json"]
    case ModuleKey(m, v, part) => ["modules", m.namespace, m.name, m.provider, v, ModuleFileText(part)]
  }

  function KeyText(k: Key): string { Join(Segments(k), '/') }

  // ---- Keys and their paths ------------------------------------------------------------------

  lemma JoinTwo(a: string, b: string)
    ensures Join([a, b], '/') == a + "/" + b
  {
    JoinHead(a, [b], '/');
    JoinOne(b, '/');
    assert [a] + [b] == [a, b];
  }

  lemma JoinThree(a: string, b: string, c: string)
    ensures Join([a, b, c], '/') == a + "/" + b + "/" + c
  {
    hide Join;
    JoinHead(a, [b, c], '/');
    JoinTwo(b, c);
    assert [a] + [b, c] == [a, b, c];
    assert a + ['/'] + (b + "/" + c) == a + "/" + b + "/" + c;
  }

  lemma JoinFour(a: string, b: string, c: string, d: string)
    ensures Join([a, b, c, d], '/') == a + "/" + b + "/" + c + "/" + d
  {
    hide Join;
    JoinHead(a, [b, c, d], '/');
    JoinThree(b, c, d);
    assert [a] + [b, c, d] == [a, b, c, d];
    assert a + ['/'] + (b + "/" + c + "/" + d) == a + "/" + b + "/" + c + "/" + d;
  }

  lemma JoinFive(a: string, b: string, c: string, d: string, e: string)
    ensures Join([a, b, c, d, e], '/') == a + "/" + b + "/" + c + "/" + d + "/" + e
  {
    hide Join;
    JoinHead(a, [b, c, d, e], '/');
    JoinFour(b, c, d, e);
    assert [a] + [b, c, d, e] == [a, b, c, d, e];
    assert a + ['/'] + (b + "/" + c + "/" + d + "/" + e) == a + "/" + b + "/" + c + "/" + d + "/" + e;
  }

  lemma JoinSix(a: string, b: string, c: string, d: string, e: string, f: string)
    ensures Join([a, b, c, d, e, f], '/') == a + "/" + b + "/" + c + "/" + d + "/" + e + "/" + f
  {
    hide Join;
    JoinHead(a, [b, c, d, e, f], '/');
    JoinFive(b, c, d, e, f);
    assert [a] + [b, c, d, e, f] == [a, b, c, d, e, f];
    assert a + ['/'] + (b + "/" + c + "/" + d + "/" + e + "/" + f) ==
           a + "/" + b + "/" + c + "/" + d + "/" + e + "/" + f;
  }

  /** Where the files of a provider lie. */
  lemma ProviderPaths(p: Provider, v: string, platform: string, shasum: string)
    ensures var home := "providers" + "/" + p.namespace + "/" + p.name + "/";
            && KeyText(ProviderIndex(p)) == home + "index.json"
            && KeyText(ProviderKey(p, v, Metadata)) == home + v + "/" + "metadata.json"
            && KeyText(ProviderKey(p, v, PlatformJson(platform))) == home + v + "/" + (platform + ".json")
            && KeyText(ProviderKey(p, v, Artifact(platform, shasum))) == home + v + "/" +
                 ("terraform-provider-" + p.name + "_" + v + "_" + platform + "_" + shasum + ".zip")
            && KeyText(ProviderKey(p, v, Checksums)) == home + v + "/" +
                 ("terraform-provider-" + p.name + "_" + v + "_SHA256SUMS")
            && KeyText(ProviderKey(p, v, Signature)) == home + v + "/" +
                 ("terraform-provider-" + p.name + "_" + v + "_SHA256SUMS" + ".sig")
  {
    hide Join;
    JoinFour("providers", p.namespace, p.name, "index.json");
    forall file: ProviderFile
      ensures KeyText(ProviderKey(p, v, file)) ==
              "providers" + "/" + p.namespace + "/" + p.name + "/" + v + "/" + ProviderFileText(p.name, v, file)
    {
      JoinFive("providers", p.namespace, p.name, v, ProviderFileText(p.name, v, file));
    }
  }

  /** Where the files of a module lie. */
  lemma ModulePaths(m: Module, v: string, shasum: string)
    ensures var home := "modules" + "/" + m.namespace + "/" + m.name + "/" + m.provider + "/";
            && KeyText(ModuleIndex(m)) == home + "index.json"
            && KeyText(ModuleKey(m, v, ModuleMetadata)) == home + v + "/" + "metadata.json"
            && KeyText(ModuleKey(m, v, ArtifactJson)) == home + v + "/" + "artifact.json"
            && KeyText(ModuleKey(m, v, LegacyArchive)) == home + v + "/" + "module.tar.gz"
            && KeyText(ModuleKey(m, v, Archive(shasum))) == home + v + "/" + ("module_" + shasum + ".tar.gz")
  {
    hide Join;
    JoinFive("modules", m.namespace, m.name, m.provider, "index.json");
    forall part: ModuleFile
      ensures KeyText(ModuleKey(m, v, part)) ==
              "modules" + "/" + m.namespace + "/" + m.name + "/" + m.provider + "/" + v + "/" + ModuleFileText(part)
    {
      JoinSix("modules", m.namespace, m.name, m.provider, v, ModuleFileText(part));
    }
  }

  lemma PlatformAlphabet(platform: string)
    requires IsPlatform(platform)
    ensures '_' in platform && '.' !in platform && '/' !in platform
  {
    hide ValidArtifactName;
    var os, arch :| ValidArtifactName(os) && ValidArtifactName(arch) && platform == PlatformName(os, arch);
    NameHasNoDot(os);
    NameHasNoDot(arch);
  }

  lemma FileTextHasNoSlash(name: string, v: string, file: ProviderFile)
    requires ValidArtifactName(name) && ValidVersion(v) && WellNamedFile(file)
    ensures '/' !in ProviderFileText(name, v, file) && ProviderFileText(name, v, file) != ""
  {
    hide ValidVersion, ValidArtifactName, IsPlatform, IsShasum;
    VersionAlphabet(v);
    NameHasNoDot(name);
    if file.Artifact? {
      HexIsName(file.shasum);
      PlatformAlphabet(file.platform);
    } else if file.PlatformJson? {
      PlatformAlphabet(file.platform);
    }
  }

  lemma SegmentsHaveNoSlash(k: Key)
    requires WellNamed(k)
    ensures NoneContains(Segments(k), '/')
  {
    hide ValidVersion, ProviderFileText;
    match k
    case ProviderKey(p, v, file) => VersionAlphabet(v); FileTextHasNoSlash(p.name, v, file);
    case ModuleKey(m, v, part) => VersionAlphabet(v); if part.Archive? { HexIsName(part.shasum); }
    case _ =>
  }

  lemma ProviderFileTextInjective(name: string, v: string, a: ProviderFile, b: ProviderFile)
    requires WellNamedFile(a) && WellNamedFile(b) && ProviderFileText(name, v, a) == ProviderFileText(name, v, b)
    ensures a == b
  {
    hide IsShasum, IsPlatform;
    LastCharacter(name, v, a);
    LastCharacter(name, v, b);
    match (a, b)
    case (Artifact(_, _), Artifact(_, _)) => ArtifactTextInjective(name, v, a, b);
    case (PlatformJson(x), PlatformJson(y)) => SameTails(x, ".json", y, ".json");
    case (PlatformJson(x), Metadata) => SameTails(x, ".json", "metadata", ".json"); PlatformAlphabet(x);
    case (Metadata, PlatformJson(y)) => SameTails(y, ".json", "metadata", ".json"); PlatformAlphabet(y);
    case _ =>
  }

  lemma LastCharacter(name: string, v: string, file: ProviderFile)
    ensures var t := ProviderFileText(name, v, file);
            t != "" && t[|t| - 1] == match file
                                     case Artifact(_, _) => 'p'
                                     case PlatformJson(_) => 'n'
                                     case Metadata => 'n'
                                     case Checksums => 'S'
                                     case Signature => 'g'
  {
  }

  /** No two keys of the store share a path. */
  lemma KeyTextInjective(a: Key, b: Key)
    requires WellNamed(a) && WellNamed(b) && KeyText(a) == KeyText(b)
    ensures a == b
  {
    hide ValidVersion, ValidArtifactName, ProviderFileText, IsShasum, IsPlatform;
    SegmentsHaveNoSlash(a);
    SegmentsHaveNoSlash(b);
    SplitJoin(Segments(a), '/');
    SplitJoin(Segments(b), '/');
    var s, t := Segments(a), Segments(b);
    assert s == t;
    assert s[0] == t[0] && s[1] == t[1] && s[2] == t[2] && s[3] == t[3];
    match (a, b)
    case (ProviderKey(p, v, x), ProviderKey(_, _, y)) =>
      assert s[4] == t[4];
      ProviderFileTextInjective(p.name, v, x, y);
    case (ModuleKey(_, _, x), ModuleKey(_, _, y)) =>
      assert s[4] == t[4] && s[5] == t[5];
      ModuleFileTextInjective(x, y);
    case _ =>
  }

  lemma ModuleFileTextInjective(a: ModuleFile, b: ModuleFile)
    requires (a.Archive? ==> IsShasum(a.shasum)) && (b.Archive? ==> IsShasum(b.shasum))
    requires ModuleFileText(a) == ModuleFileText(b)
    ensures a == b
  {
    var s, t := ModuleFileText(a), ModuleFileText(b);
    assert |s| == |t| && s[|s| - 1] == t[|t| - 1] && s[0] == t[0];
    if a.Archive? && b.Archive? {
      assert a.shasum == s[7..71] && b.shasum == t[7..71];
    }
  }

  /** No file's path is a directory on another's. */
  lemma NoPathBelow(a: Key, b: Key)
    requires WellNamed(a) && WellNamed(b)
    ensures !HasPrefix(KeyText(b), KeyText(a) + "/")
  {
    hide ValidVersion, ValidArtifactName, ProviderFileText, ModuleFileText, IsShasum, IsPlatform, Split, Join,
         NoneContains;
    if HasPrefix(KeyText(b), KeyText(a) + "/") {
      var rest := KeyText(b)[|KeyText(a)| + 1..];
      assert KeyText(b) == KeyText(a) + ['/'] + rest;
      SegmentsHaveNoSlash(a);
      SegmentsHaveNoSlash(b);
      SplitJoin(Segments(a), '/');
      SplitJoin(Segments(b), '/');
      SplitConcat(KeyText(a), '/', rest);
      PrefixSegments(a, b, Split(rest, '/'));
    }
  }

  lemma PrefixSegments(a: Key, b: Key, rest: seq<string>)
    requires WellNamed(a) && WellNamed(b) && Segments(b) == Segments(a) + rest
    ensures rest == []
  {
    hide ValidVersion, ValidArtifactName, ProviderFileText, ModuleFileText, IsShasum, IsPlatform;
    var s, t := Segments(a), Segments(b);
    IndexFileIsNoVersion();
    assert |t| == |s| + |rest| && t[0] == s[0] && t[3] == s[3] && (|s| > 4 ==> t[4] == s[4]);
    assert "providers"[0] != "modules"[0];
  }

  function FileName(k: Key): string { Segments(k)[|Segments(k)| - 1] }

  /** GarbageCollect, at its most eager: every file whose name starts with `.tmp-`, of any age. */
  function WithoutTemporary(f: Files): Files { map k | k in f && !HasPrefix(FileName(k), ".tmp-") :: f[k] }

  /** Garbage collection touches no file of the registry, not even while an operation is under way. */
  lemma CollectsNothing(c: Crypto, f: Files)
    requires Sound(c, f)
    ensures WithoutTemporary(f) == f
  {
    hide KeyOk, WellNamed, FileName;
    forall k | k in f ensures !HasPrefix(FileName(k), ".tmp-") { NotTemporary(k); }
  }

  lemma NotTemporary(k: Key)
    requires WellNamed(k)
    ensures !HasPrefix(FileName(k), ".tmp-")
  {
    hide ValidVersion, IsShasum;
    assert ".tmp-"[0] == '.';
    match k
    case ProviderKey(p, v, PlatformJson(platform)) =>
      var os, arch :| ValidArtifactName(os) && ValidArtifactName(arch) && platform == PlatformName(os, arch);
      assert FileName(k)[0] == os[0];
      NameHasNoDot(os);
    case _ =>
      assert FileName(k)[0] != '.';
  }

  /** In every sound state, in particular at every step of every run, the model's keys are paths: no
      two files share one, and none is a directory on another's. */
  lemma StoreIsATree(c: Crypto, f: Files)
    requires Sound(c, f)
    ensures forall a, b :: a in f && b in f && a != b ==>
              KeyText(a) != KeyText(b) && !HasPrefix(KeyText(b), KeyText(a) + "/")
  {
    hide KeyOk, WellNamed, KeyText;
    forall a, b | a in f && b in f && a != b
      ensures KeyText(a) != KeyText(b) && !HasPrefix(KeyText(b), KeyText(a) + "/")
    {
      if KeyText(a) == KeyText(b) { KeyTextInjective(a, b); }
      NoPathBelow(a, b);
    }
  }

  // ---- The download route --------------------------------------------------------------------

  predicate IsVersionText(s: string) {
    s != "" && forall i :: 0 <= i < |s| ==> IsIdentifierChar(s[i]) || s[i] == '.' || s[i] == '+'
  }

  /** An artifact's name as the pattern spells it, with or without a digest. */
  function ZipName(name: string, version: string, os: string, arch: string, digest: string): string {
    PROVIDER_PREFIX + name + "_" + version + "_" + os + "_" + arch + digest + ".zip"
  }

  predicate IsDigest(digest: string) { digest == "" || (digest[0] == '_' && IsShasum(digest[1..])) }

  /** providerFileRE, with its groups. */
  ghost predicate ProviderFileMatch(file: string, name: string, version: string, os: string, arch: string) {
    && ValidArtifactName(name) && IsVersionText(version) && ValidArtifactName(os) && ValidArtifactName(arch)
    && exists digest :: IsDigest(digest) && file == ZipName(name, version, os, arch, digest)
  }

  /** checksumFileRE. */
  ghost predicate ChecksumFileMatch(file: string, name: string, version: string) {
    && ValidArtifactName(name) && IsVersionText(version)
    && (file == ChecksumsText(name, version) || file == ChecksumsText(name, version) + ".sig")
  }

  /** moduleFileRE. */
  predicate ModuleFileMatch(file: string) {
    || file == "module.tar.gz"
    || (|file| == 78 && file[..7] == "module_" && IsShasum(file[7..71]) && file[71..] == ".tar.gz")
  }

  /** FindStringSubmatch of the two file patterns: some match when there is one. Which split it
      returns is left open. */
  datatype Matcher = Matcher(
    provider: string -> Option<(string, string, string, string)>,
    checksum: string -> Option<(string, string)>)

  ghost predicate Conforms(m: Matcher) {
    && (forall f :: m.provider(f).Some? ==>
          ProviderFileMatch(f, m.provider(f).value.0, m.provider(f).value.1, m.provider(f).value.2,
                            m.provider(f).value.3))
    && (forall f, n, v, o, a :: ProviderFileMatch(f, n, v, o, a) ==> m.provider(f).Some?)
    && (forall f :: m.checksum(f).Some? ==> ChecksumFileMatch(f, m.checksum(f).value.0, m.checksum(f).value.1))
    && (forall f, n, v :: ChecksumFileMatch(f, n, v) ==> m.checksum(f).Some?)
  }

  /** strings.Trim with "/". */
  function TrimSlashes(s: string): string
    decreases |s|
  {
    if s != "" && s[0] == '/' then TrimSlashes(s[1..])
    else if s != "" && s[|s| - 1] == '/' then TrimSlashes(s[..|s| - 1])
    else s
  }

  /** The two patterns recognise the file as one of the version's. */
  predicate Recognised(m: Matcher, name: string, v: string, t: string) {
    match m.provider(t)
    case Some(g) => g.0 == name && g.1 == v && ValidArtifactName(g.2) && ValidArtifactName(g.3)
    case None => m.checksum(t).Some? && m.checksum(t).value.0 == name && m.checksum(t).value.1 == v
  }

  predicate PublicParts(m: Matcher, parts: seq<string>) {
    if |parts| == 5 && parts[0] == "providers" then
      && ValidArtifactName(parts[1]) && ValidArtifactName(parts[2]) && ValidVersion(parts[3])
      && Recognised(m, parts[2], parts[3], parts[4])
    else
      && |parts| == 6 && parts[0] == "modules" && ModuleFileMatch(parts[5])
      && ValidArtifactName(parts[1]) && ValidArtifactName(parts[2]) && ValidArtifactName(parts[3]) &&
         ValidVersion(parts[4])
  }

  predicate IsPublicArtifactPath(m: Matcher, path: string) { PublicParts(m, Split(TrimSlashes(path), '/')) }

  /** A file name between its fixed prefix and suffix. */
  function Stem(name: string, v: string, rest: string): string { name + "_" + v + ("_" + rest) }

  lemma ArtifactStem(name: string, v: string, platform: string, shasum: string)
    ensures ProviderFileText(name, v, Artifact(platform, shasum)) ==
            PROVIDER_PREFIX + (Stem(name, v, platform + "_" + shasum) + ".zip")
  {
  }

  lemma MatchStem(n: string, w: string, o: string, a: string, digest: string)
    ensures ZipName(n, w, o, a, digest) == PROVIDER_PREFIX + (Stem(n, w, o + "_" + a + digest) + ".zip")
  {
  }

  lemma SameStems(name: string, v: string, rest: string, n: string, w: string, rest2: string)
    requires Stem(name, v, rest) == Stem(n, w, rest2)
    requires '.' !in name && '.' !in n && '.' !in rest2 && '.' in v && '_' !in v && '_' !in w
    ensures name == n && v == w
  {
    assert '.' in Stem(name, v, rest);
    assert '.' in w;
    SplitAtVersion(name, v, "_" + rest, n, w, "_" + rest2);
    assert Stem(name, v, rest) == (name + "_") + (v + "_" + rest);
    assert Stem(n, w, rest2) == (name + "_") + (w + "_" + rest2);
    DropPrefix(name + "_", v + "_" + rest, w + "_" + rest2);
    SameBeforeUnderscore(v, rest, w, rest2);
  }

  lemma RestHasNoDot(o: string, a: string, digest: string)
    requires ValidArtifactName(o) && ValidArtifactName(a)
    requires IsDigest(digest)
    ensures '.' !in o + "_" + a + digest
  {
    NoDotIn(digest);
  }

  /** However the pattern splits a file name that starts with a provider's name and version, those
      come out right. */
  lemma NameSplits(name: string, v: string, rest: string, n: string, w: string, o: string, a: string)
    requires ValidArtifactName(name) && ValidVersion(v)
    requires ProviderFileMatch(PROVIDER_PREFIX + (Stem(name, v, rest) + ".zip"), n, w, o, a)
    ensures n == name && w == v
  {
    hide ValidVersion, ProviderFileMatch, Stem, IsVersionText;
    var rest2 := MatchRest(PROVIDER_PREFIX + (Stem(name, v, rest) + ".zip"), n, w, o, a);
    DropPrefix(PROVIDER_PREFIX, Stem(name, v, rest) + ".zip", Stem(n, w, rest2) + ".zip");
    SameTails(Stem(name, v, rest), ".zip", Stem(n, w, rest2), ".zip");
    VersionAlphabet(v);
    SameStems(name, v, rest, n, w, rest2);
  }

  lemma ArtifactNameSplits(name: string, v: string, platform: string, shasum: string, n: string, w: string, o: string,
                           a: string)
    requires ValidArtifactName(name) && ValidVersion(v)
    requires ProviderFileMatch(ProviderFileText(name, v, Artifact(platform, shasum)), n, w, o, a)
    ensures n == name && w == v
  {
    hide ValidVersion, ProviderFileText, ProviderFileMatch, Stem, IsVersionText;
    ArtifactStem(name, v, platform, shasum);
    NameSplits(name, v, platform + "_" + shasum, n, w, o, a);
  }

  lemma MatchRest(file: string, n: string, w: string, o: string, a: string) returns (rest: string)
    requires ProviderFileMatch(file, n, w, o, a)
    ensures file == PROVIDER_PREFIX + (Stem(n, w, rest) + ".zip")
    ensures '.' !in rest && '.' !in n && '_' !in w
  {
    hide IsShasum, Stem, IsVersionText;
    var digest :| IsDigest(digest) && file == ZipName(n, w, o, a, digest);
    rest := o + "_" + a + digest;
    RestHasNoDot(o, a, digest);
    NameHasNoDot(n);
    NoUnderscoreInVersion(w);
    MatchStem(n, w, o, a, digest);
  }

  lemma NoDotIn(digest: string)
    requires IsDigest(digest)
    ensures '.' !in digest
  {
    if digest != "" { assert digest == [digest[0]] + digest[1..]; }
  }

  lemma NoUnderscoreInVersion(w: string)
    requires IsVersionText(w)
    ensures '_' !in w
  {
  }

  lemma ChecksumNameSplits(name: string, v: string, signature: bool, n: string, w: string)
    requires '_' !in v
    requires ChecksumFileMatch(if signature then ChecksumsText(name, v) + ".sig" else ChecksumsText(name, v), n, w)
    ensures n == name && w == v
  {
    hide ChecksumsText;
    NoUnderscoreInVersion(w);
    var file := if signature then ChecksumsText(name, v) + ".sig" else ChecksumsText(name, v);
    var tail := if signature then "_SHA256SUMS.sig" else "_SHA256SUMS";
    var tail2 := if file == ChecksumsText(n, w) then "_SHA256SUMS" else "_SHA256SUMS.sig";
    var front, front2 := name + "_" + v, n + "_" + w;
    ChecksumsForm(name, v);
    ChecksumsForm(n, w);
    assert file == PROVIDER_PREFIX + (front + tail) && file == PROVIDER_PREFIX + (front2 + tail2);
    DropPrefix(PROVIDER_PREFIX, front + tail, front2 + tail2);
    assert (front + tail)[|front + tail| - 1] == tail[|tail| - 1] &&
           (front2 + tail2)[|front2 + tail2| - 1] == tail2[|tail2| - 1];
    SameTails(front, tail, front2, tail2);
    LastUnderscore(name, v, n, w);
  }

  lemma ChecksumsForm(name: string, v: string)
    ensures ChecksumsText(name, v) == PROVIDER_PREFIX + (name + "_" + v + "_SHA256SUMS")
    ensures ChecksumsText(name, v) + ".sig" == PROVIDER_PREFIX + (name + "_" + v + "_SHA256SUMS.sig")
  {
    assert "_SHA256SUMS.sig" == "_SHA256SUMS" + ".sig";
  }

  predicate IsDownload(k: Key) {
    || (k.ProviderKey? && (k.file.Artifact? || k.file.Checksums? || k.file.Signature?))
    || (k.ModuleKey? && (k.part.Archive? || k.part.LegacyArchive?))
  }

  lemma PathParts(k: Key)
    requires WellNamed(k)
    ensures Split(TrimSlashes(KeyText(k)), '/') == Segments(k)
  {
    hide WellNamed, TrimSlashes, Split, Join, NoneContains;
    var parts := Segments(k);
    SegmentsHaveNoSlash(k);
    SplitJoin(parts, '/');
    assert parts == [parts[0]] + parts[1..];
    JoinHead(parts[0], parts[1..], '/');
    LastSegment(k);
    LastOfJoin(parts, '/');
    assert KeyText(k)[0] == parts[0][0];
    NothingToTrim(KeyText(k));
  }

  /** Trimming takes away slashes at both ends, all of them, and nothing else. */
  lemma {:induction false} TrimExactly(s: string) returns (before: string, after: string)
    ensures s == before + TrimSlashes(s) + after
    ensures (forall c :: c in before ==> c == '/') && forall c :: c in after ==> c == '/'
    ensures var t := TrimSlashes(s); t != "" ==> t[0] != '/' && t[|t| - 1] != '/'
    decreases |s|
  {
    before, after := "", "";
    if s != "" && s[0] == '/' {
      before, after := TrimExactly(s[1..]);
      before := ['/'] + before;
    } else if s != "" && s[|s| - 1] == '/' {
      before, after := TrimExactly(s[..|s| - 1]);
      after := after + ['/'];
    }
  }

  lemma NothingToTrim(s: string)
    requires s != "" && s[0] != '/' && s[|s| - 1] != '/'
    ensures TrimSlashes(s) == s
  {
  }

  lemma LastSegment(k: Key)
    requires WellNamed(k)
    ensures var t := Segments(k)[|Segments(k)| - 1]; t != "" && t[|t| - 1] != '/'
  {
    match k
    case ProviderKey(p, v, file) => LastCharacter(p.name, v, file);
    case _ =>
  }

  lemma ArtifactMatches(name: string, v: string, platform: string, shasum: string, os: string, arch: string)
    requires ValidArtifactName(name) && ValidVersion(v) && IsShasum(shasum)
    requires ValidArtifactName(os) && ValidArtifactName(arch) && platform == PlatformName(os, arch)
    ensures ProviderFileMatch(ProviderFileText(name, v, Artifact(platform, shasum)), name, v, os, arch)
  {
    hide ValidVersion, ValidArtifactName, IsShasum, Stem;
    VersionAlphabet(v);
    var digest := "_" + shasum;
    assert digest[1..] == shasum;
    ArtifactStem(name, v, platform, shasum);
    MatchStem(name, v, os, arch, digest);
    assert platform + "_" + shasum == os + "_" + arch + digest;
  }

  lemma MatchEndsInZip(file: string, n: string, w: string, o: string, a: string)
    requires ProviderFileMatch(file, n, w, o, a)
    ensures file != "" && file[|file| - 1] == 'p'
  {
  }

  lemma ProviderFilesServed(m: Matcher, name: string, v: string, file: ProviderFile)
    requires Conforms(m) && ValidArtifactName(name) && ValidVersion(v) && WellNamedFile(file)
    ensures Recognised(m, name, v, ProviderFileText(name, v, file)) <==>
              file.Artifact? || file.Checksums? || file.Signature?
  {
    hide ValidVersion, ValidArtifactName, IsShasum, ProviderFileText, ProviderFileMatch, ChecksumFileMatch;
    var t := ProviderFileText(name, v, file);
    LastCharacter(name, v, file);
    if m.provider(t).Some? {
      var g := m.provider(t).value;
      MatchEndsInZip(t, g.0, g.1, g.2, g.3);
      ArtifactNameSplits(name, v, file.platform, file.shasum, g.0, g.1, g.2, g.3);
      MatchNames(t, g.0, g.1, g.2, g.3);
    } else if file.Artifact? {
      var os, arch :| ValidArtifactName(os) && ValidArtifactName(arch) && file.platform == PlatformName(os, arch);
      ArtifactMatches(name, v, file.platform, file.shasum, os, arch);
    } else {
      ChecksumFilesServed(m, name, v, file);
    }
  }

  lemma MatchNames(file: string, n: string, w: string, o: string, a: string)
    requires ProviderFileMatch(file, n, w, o, a)
    ensures ValidArtifactName(o) && ValidArtifactName(a)
  {
  }

  lemma ChecksumFilesServed(m: Matcher, name: string, v: string, file: ProviderFile)
    requires Conforms(m) && ValidArtifactName(name) && ValidVersion(v) && !file.Artifact?
    ensures var c := m.checksum(ProviderFileText(name, v, file));
            (c.Some? && c.value.0 == name && c.value.1 == v) <==> file.Checksums? || file.Signature?
  {
    hide ValidVersion, ValidArtifactName, ProviderFileMatch;
    var t := ProviderFileText(name, v, file);
    LastCharacter(name, v, file);
    VersionAlphabet(v);
    if file.Checksums? || file.Signature? { assert ChecksumFileMatch(t, name, v); }
    if m.checksum(t).Some? {
      var g := m.checksum(t).value;
      assert ChecksumFileMatch(t, g.0, g.1);
      ChecksumEnd(t, g.0, g.1);
      ChecksumNameSplits(name, v, file.Signature?, g.0, g.1);
    }
  }

  lemma ChecksumEnd(file: string, n: string, w: string)
    requires ChecksumFileMatch(file, n, w)
    ensures file != "" && (file[|file| - 1] == 'S' || file[|file| - 1] == 'g')
  {
  }

  lemma ModuleFilesServed(part: ModuleFile)
    requires part.Archive? ==> IsShasum(part.shasum)
    ensures ModuleFileMatch(ModuleFileText(part)) <==> part.Archive? || part.LegacyArchive?
  {
    var t := ModuleFileText(part);
    if part.Archive? {
      assert t[..7] == "module_" && t[7..71] == part.shasum && t[71..] == ".tar.gz";
    } else if !part.LegacyArchive? {
      assert t[|t| - 1] == 'n';
      assert "module.tar.gz"[12] == 'z';
      assert t[0] == 'a' || |t| == 13;
    }
  }

  /** A provider artifact of the older form, without a digest in its name. */
  ghost predicate IsLegacyZip(parts: seq<string>) {
    && |parts| == 5 && parts[0] == "providers" && WellNamedDir(ProviderDir(Provider(parts[1], parts[2]), parts[3]))
    && exists os, arch ::
         ValidArtifactName(os) && ValidArtifactName(arch) && parts[4] == ZipName(parts[2], parts[3], os, arch, "")
  }

  /** The key a path names, if it is a download. */
  ghost predicate NamesDownload(parts: seq<string>, k: Key) { WellNamed(k) && IsDownload(k) && parts == Segments(k) }

  lemma LegacyServed(m: Matcher, name: string, v: string, os: string, arch: string)
    requires Conforms(m) && ValidArtifactName(name) && ValidVersion(v) && ValidArtifactName(os) &&
             ValidArtifactName(arch)
    ensures Recognised(m, name, v, ZipName(name, v, os, arch, ""))
  {
    hide ValidVersion, ValidArtifactName, IsShasum, Stem;
    var t := ZipName(name, v, os, arch, "");
    VersionAlphabet(v);
    assert ProviderFileMatch(t, name, v, os, arch);
    var g := m.provider(t).value;
    MatchStem(name, v, os, arch, "");
    NameSplits(name, v, os + "_" + arch + "", g.0, g.1, g.2, g.3);
    MatchNames(t, g.0, g.1, g.2, g.3);
  }

  /** What a recognised file name of a version is. */
  lemma RecognisedIs(m: Matcher, p: Provider, v: string, t: string)
    requires Conforms(m) && WellNamedDir(ProviderDir(p, v)) && Recognised(m, p.name, v, t)
    ensures var parts := ["providers", p.namespace, p.name, v, t];
            IsLegacyZip(parts) || exists k :: NamesDownload(parts, k)
  {
    hide ValidVersion, ValidArtifactName, ProviderFileMatch, ChecksumFileMatch, IsLegacyZip, NamesDownload;
    if m.provider(t).Some? {
      var g := m.provider(t).value;
      MatchIs(p, v, t, g.2, g.3);
    } else {
      ChecksumIs(p, v, t);
    }
  }

  lemma ChecksumIs(p: Provider, v: string, t: string)
    requires WellNamedDir(ProviderDir(p, v)) && ChecksumFileMatch(t, p.name, v)
    ensures exists k :: NamesDownload(["providers", p.namespace, p.name, v, t], k)
  {
    hide ValidVersion, ValidArtifactName, IsVersionText, ChecksumsText;
    var k := ProviderKey(p, v, if t == ChecksumsText(p.name, v) then Checksums else Signature);
    assert NamesDownload(["providers", p.namespace, p.name, v, t], k);
  }

  lemma MatchIs(p: Provider, v: string, t: string, os: string, arch: string)
    requires WellNamedDir(ProviderDir(p, v)) && ProviderFileMatch(t, p.name, v, os, arch)
    ensures var parts := ["providers", p.namespace, p.name, v, t];
            IsLegacyZip(parts) || exists k :: NamesDownload(parts, k)
  {
    hide ValidVersion, ValidArtifactName, IsDigest, IsVersionText, NamesDownload, ZipName;
    var digest :| IsDigest(digest) && t == ZipName(p.name, v, os, arch, digest);
    if digest == "" {
      assert t == ZipName(p.name, v, os, arch, "");
    } else {
      DigestKey(p, v, t, os, arch, digest);
    }
  }

  lemma DigestKey(p: Provider, v: string, t: string, os: string, arch: string, digest: string)
    requires WellNamedDir(ProviderDir(p, v)) && ValidArtifactName(os) && ValidArtifactName(arch)
    requires digest != "" && IsDigest(digest) && t == ZipName(p.name, v, os, arch, digest)
    ensures exists k :: NamesDownload(["providers", p.namespace, p.name, v, t], k)
  {
    hide ValidVersion, ValidArtifactName, IsShasum, Stem;
    var platform, shasum := PlatformName(os, arch), digest[1..];
    assert digest == "_" + shasum;
    ArtifactStem(p.name, v, platform, shasum);
    MatchStem(p.name, v, os, arch, digest);
    assert platform + "_" + shasum == os + "_" + arch + digest;
    assert NamesDownload(["providers", p.namespace, p.name, v, t], ProviderKey(p, v, Artifact(platform, shasum)));
  }

  lemma ModuleFileIs(m: Module, v: string, t: string)
    requires WellNamedDir(ModuleDir(m, v)) && ModuleFileMatch(t)
    ensures exists k :: NamesDownload(["modules", m.namespace, m.name, m.provider, v, t], k)
  {
    hide ValidVersion, ValidArtifactName, IsShasum;
    var parts := ["modules", m.namespace, m.name, m.provider, v, t];
    if t == "module.tar.gz" {
      assert NamesDownload(parts, ModuleKey(m, v, LegacyArchive));
    } else {
      assert t == t[..7] + t[7..71] + t[71..];
      assert NamesDownload(parts, ModuleKey(m, v, Archive(t[7..71])));
    }
  }

  lemma PartsServed(m: Matcher, parts: seq<string>, k: Key)
    requires Conforms(m) && WellNamed(k) && parts == Segments(k)
    ensures PublicParts(m, parts) <==> IsDownload(k)
  {
    hide ValidVersion, ValidArtifactName, Conforms, ProviderFileText, ModuleFileText, ModuleFileMatch, IsPlatform;
    match k
    case ProviderKey(p, v, file) => ProviderFilesServed(m, p.name, v, file);
    case ModuleKey(_, _, part) => ModuleFilesServed(part);
    case _ =>
  }

  /** Which paths the download route serves, of all texts: those whose trimmed segments spell a
      well-named artifact, SHA256SUMS, signature or module archive, or a provider zip of the older
      form; whichever split the patterns return. */
  lemma ServedPaths(m: Matcher, path: string)
    requires Conforms(m)
    ensures var parts := Split(TrimSlashes(path), '/');
            IsPublicArtifactPath(m, path) <==> IsLegacyZip(parts) || exists k :: NamesDownload(parts, k)
  {
    hide ValidVersion, ValidArtifactName, Conforms, ProviderFileText, ModuleFileText, ModuleFileMatch, Split,
         TrimSlashes, WellNamed, IsDownload;
    var parts := Split(TrimSlashes(path), '/');
    if k :| NamesDownload(parts, k) { PartsServed(m, parts, k); }
    if IsLegacyZip(parts) {
      var os, arch :| ValidArtifactName(os) && ValidArtifactName(arch) &&
        parts[4] == ZipName(parts[2], parts[3], os, arch, "");
      LegacyServed(m, parts[2], parts[3], os, arch);
    }
    if IsPublicArtifactPath(m, path) { PublicPartsAre(m, parts); }
  }

  lemma PublicPartsAre(m: Matcher, parts: seq<string>)
    requires Conforms(m) && PublicParts(m, parts)
    ensures IsLegacyZip(parts) || exists k :: NamesDownload(parts, k)
  {
    hide ValidVersion, ValidArtifactName, Conforms, NamesDownload, IsLegacyZip, ModuleFileMatch;
    if |parts| == 5 && parts[0] == "providers" {
      assert parts == ["providers", parts[1], parts[2], parts[3], parts[4]];
      RecognisedIs(m, Provider(parts[1], parts[2]), parts[3], parts[4]);
    } else {
      assert parts == ["modules", parts[1], parts[2], parts[3], parts[4], parts[5]];
      ModuleFileIs(Module(parts[1], parts[2], parts[3]), parts[4], parts[5]);
    }
  }

  /** Of the registry's own files, in every sound state, the route serves artifacts, SHA256SUMS,
      signatures and module archives, and no index or metadata file. */
  lemma PublicExactly(m: Matcher, c: Crypto, f: Files)
    requires Conforms(m) && Sound(c, f)
    ensures forall k :: k in f ==> (IsPublicArtifactPath(m, KeyText(k)) <==> IsDownload(k))
  {
    hide Conforms, KeyText, Split, TrimSlashes, PublicParts, WellNamed, KeyOk, IsDownload, Segments;
    forall k | k in f ensures IsPublicArtifactPath(m, KeyText(k)) <==> IsDownload(k) {
      PathParts(k);
      PartsServed(m, Segments(k), k);
    }
  }
}
