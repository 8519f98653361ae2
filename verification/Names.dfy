/** Names and file names: what a route accepts, and how the registry spells its files. */
module Names {
  import opened Strings
  import opened SemVer

  predicate IsNameChar(c: char) {
    IsDigit(c) || 'A' <= c <= 'Z' || 'a' <= c <= 'z' || c == '_' || c == '-'
  }

  /** artifactNameRE: a letter or digit, then up to 63 letters, digits, hyphens or underscores. */
  predicate ValidArtifactName(s: string) {
    1 <= |s| <= 64 && s[0] != '_' && s[0] != '-' && forall i :: 0 <= i < |s| ==> IsNameChar(s[i])
  }

  predicate IsHexDigit(c: char) { IsDigit(c) || 'a' <= c <= 'f' }

  predicate IsShasum(s: string) { |s| == 64 && forall i :: 0 <= i < |s| ==> IsHexDigit(s[i]) }

  /** The files of one provider version. */
  datatype ProviderFile =
    | Artifact(platform: string, shasum: string)
    | PlatformJson(platform: string)
    | Metadata
    | Checksums
    | Signature

  /** The files of one module version. */
  datatype ModuleFile =
    | Archive(shasum: string)
    | LegacyArchive
    | ArtifactJson
    | ModuleMetadata

  /** os and arch are joined by a character both may contain, so the joined text is the platform. */
  function PlatformName(os: string, arch: string): string { os + "_" + arch }

  ghost predicate IsPlatform(platform: string) {
    exists os, arch :: ValidArtifactName(os) && ValidArtifactName(arch) && platform == PlatformName(os, arch)
  }

  ghost predicate WellNamedFile(file: ProviderFile) {
    match file
    case Artifact(platform, shasum) => IsPlatform(platform) && IsShasum(shasum)
    case PlatformJson(platform) => IsPlatform(platform)
    case _ => true
  }

  const PROVIDER_PREFIX := "terraform-provider-"

  function ChecksumsText(name: string, version: string): string {
    PROVIDER_PREFIX + name + "_" + version + "_SHA256SUMS"
  }

  function ProviderFileText(name: string, version: string, file: ProviderFile): string {
    match file
    case Artifact(platform, shasum) => PROVIDER_PREFIX + name + "_" + version + "_" + platform + "_" + shasum + ".zip"
    case PlatformJson(platform) => platform + ".json"
    case Metadata => "metadata.json"
    case Checksums => ChecksumsText(name, version)
    case Signature => ChecksumsText(name, version) + ".sig"
  }

  function ModuleFileText(file: ModuleFile): string {
    match file
    case Archive(shasum) => "module_" + shasum + ".tar.gz"
    case LegacyArchive => "module.tar.gz"
    case ArtifactJson => "artifact.json"
    case ModuleMetadata => "metadata.json"
  }

  /** The suffix test that keeps version metadata out of the platform listing. It also hides a
      platform whose name ends in `index` or `metadata`. */
  predicate Skipped(platform: string) {
    HasSuffix(platform + ".json", "index.json") || HasSuffix(platform + ".json", "metadata.json")
  }

  lemma SkippedNames(platform: string)
    ensures Skipped(platform) <==> HasSuffix(platform, "index") || HasSuffix(platform, "metadata")
  {
    SuffixBeforeJson(platform, "index");
    SuffixBeforeJson(platform, "metadata");
  }

  lemma SuffixBeforeJson(platform: string, word: string)
    ensures HasSuffix(platform + ".json", word + ".json") <==> HasSuffix(platform, word)
  {
    var s := platform + ".json";
    if |word| <= |platform| {
      assert s[|s| - |word + ".json"|..] == platform[|platform| - |word|..] + ".json";
      SameTails(platform[|platform| - |word|..], ".json", word, ".json");
    }
  }

  lemma HexIsName(s: string)
    requires IsShasum(s)
    ensures '_' !in s && '.' !in s && '/' !in s && ValidArtifactName(s)
  {
  }

  lemma NameHasNoDot(s: string)
    requires ValidArtifactName(s)
    ensures '.' !in s && '/' !in s && '+' !in s
  {
  }

  lemma IndexFileIsNoVersion()
    ensures !ValidVersion("index.json")
  {
    if ValidVersion("index.json") { VersionAlphabet("index.json"); }
  }

  /** Different artifacts of one version have different file names. */
  lemma ArtifactTextInjective(name: string, version: string, a: ProviderFile, b: ProviderFile)
    requires a.Artifact? && b.Artifact? && IsShasum(a.shasum) && IsShasum(b.shasum)
    requires ProviderFileText(name, version, a) == ProviderFileText(name, version, b)
    ensures a == b
  {
    var front := PROVIDER_PREFIX + name + "_" + version + "_";
    ArtifactTail(name, version, a);
    ArtifactTail(name, version, b);
    var ta, tb := ("_" + a.shasum) + ".zip", ("_" + b.shasum) + ".zip";
    DropPrefix(front, a.platform + ta, b.platform + tb);
    SameTails(a.platform, ta, b.platform, tb);
    SameTails("_" + a.shasum, ".zip", "_" + b.shasum, ".zip");
    DropPrefix("_", a.shasum, b.shasum);
  }

  lemma ArtifactTail(name: string, version: string, a: ProviderFile)
    requires a.Artifact?
    ensures ProviderFileText(name, version, a) ==
            PROVIDER_PREFIX + name + "_" + version + "_" + (a.platform + (("_" + a.shasum) + ".zip"))
  {
  }
}
