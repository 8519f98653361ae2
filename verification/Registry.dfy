/** The registry's files, what each may hold, and the invariants publication keeps. */
module Registry {
  import opened Strings
  import opened SemVer
  import opened Precedence
  import opened StableSort
  import opened VersionIndex
  import opened Names

  newtype byte = x: int | 0 <= x < 256

  type Bytes = seq<byte>

  /** SHA-256 and OpenPGP signing, left abstract. A signature also depends on when it is made. */
  datatype Crypto = Crypto(hash: Bytes -> string, sign: (string, int) -> Bytes, verifies: (string, Bytes) -> bool)

  ghost predicate CryptoOk(c: Crypto) {
    (forall b :: IsShasum(c.hash(b))) && forall text, time :: c.verifies(text, c.sign(text, time))
  }

  datatype Provider = Provider(namespace: string, name: string)

  datatype Module = Module(namespace: string, name: string, provider: string)

  datatype Key =
    | ProviderIndex(provider: Provider)
    | ProviderKey(provider: Provider, version: string, file: ProviderFile)
    | ModuleIndex(m: Module)
    | ModuleKey(m: Module, version: string, part: ModuleFile)

  /** A version directory. */
  datatype Directory = ProviderDir(p: Provider, v: string) | ModuleDir(m: Module, w: string)

  datatype PlatformMeta = PlatformMeta(os: string, arch: string, filename: ProviderFile, shasum: string)

  datatype ModuleMeta = ModuleMeta(filename: ModuleFile, shasum: string)

  /** `rest` stands for the fields a deprecation leaves alone. */
  datatype VersionMeta = VersionMeta(version: string, deprecated: bool, message: string, rest: string)

  datatype Content =
    | Blob(bytes: Bytes)
    | PlatformFile(platform: PlatformMeta)
    | ModuleMetaFile(archive: ModuleMeta)
    | VersionFile(meta: VersionMeta)
    | IndexFile(versions: seq<string>)
    | SumsFile(text: string)
    | SignatureFile(signature: Bytes)

  type Files = map<Key, Content>

  // ---- Directories ---------------------------------------------------------------------------

  function VersionOf(d: Directory): string { match d case ProviderDir(_, v) => v case ModuleDir(_, w) => w }

  function IndexKey(d: Directory): Key {
    match d
    case ProviderDir(p, _) => ProviderIndex(p)
    case ModuleDir(m, _) => ModuleIndex(m)
  }

  function MetadataKey(d: Directory): Key {
    match d
    case ProviderDir(p, v) => ProviderKey(p, v, Metadata)
    case ModuleDir(m, w) => ModuleKey(m, w, ModuleMetadata)
  }

  predicate Within(k: Key, d: Directory) {
    match d
    case ProviderDir(p, v) => k.ProviderKey? && k.provider == p && k.version == v
    case ModuleDir(m, w) => k.ModuleKey? && k.m == m && k.version == w
  }

  function Inside(f: Files, d: Directory): Files { map k | k in f && Within(k, d) :: f[k] }

  function Outside(f: Files, d: Directory): Files { map k | k in f && !Within(k, d) :: f[k] }

  ghost predicate HasFiles(f: Files, d: Directory) { exists k :: k in f && Within(k, d) }

  // ---- What holds in every state, even in the middle of an operation ------------------------

  /** Route variables as the validation middleware admits them. */
  predicate WellNamedDir(d: Directory) {
    match d
    case ProviderDir(p, v) => ValidArtifactName(p.namespace) && ValidArtifactName(p.name) && ValidVersion(v)
    case ModuleDir(m, w) =>
      && ValidArtifactName(m.namespace) && ValidArtifactName(m.name) && ValidArtifactName(m.provider)
      && ValidVersion(w)
  }

  ghost predicate WellNamed(k: Key) {
    match k
    case ProviderIndex(p) => ValidArtifactName(p.namespace) && ValidArtifactName(p.name)
    case ProviderKey(p, v, file) => WellNamedDir(ProviderDir(p, v)) && WellNamedFile(file)
    case ModuleIndex(m) => ValidArtifactName(m.namespace) && ValidArtifactName(m.name) && ValidArtifactName(m.provider)
    case ModuleKey(m, v, part) => WellNamedDir(ModuleDir(m, v)) && (part.Archive? ==> IsShasum(part.shasum))
  }

  /** What a file may hold. An artifact has the hash its name records; a platform file sits under
      its own platform and names an artifact of that platform by its recorded hash. */
  ghost predicate KeyOk(c: Crypto, k: Key, x: Content) {
    match k
    case ProviderIndex(_) => x.IndexFile? && IndexOk(x.versions)
    case ModuleIndex(_) => x.IndexFile? && IndexOk(x.versions)
    case ProviderKey(_, _, Artifact(_, shasum)) => x.Blob? && c.hash(x.bytes) == shasum
    case ProviderKey(_, _, PlatformJson(platform)) =>
      && x.PlatformFile?
      && PlatformName(x.platform.os, x.platform.arch) == platform
      && '/' !in x.platform.os && '/' !in x.platform.arch
      && IsShasum(x.platform.shasum)
      && x.platform.filename == Artifact(platform, x.platform.shasum)
    case ProviderKey(_, _, Metadata) => x.VersionFile?
    case ProviderKey(_, _, Checksums) => x.SumsFile?
    case ProviderKey(_, _, Signature) => x.SignatureFile?
    case ModuleKey(_, _, Archive(shasum)) => x.Blob? && c.hash(x.bytes) == shasum
    case ModuleKey(_, _, LegacyArchive) => x.Blob?
    case ModuleKey(_, _, ArtifactJson) => x.ModuleMetaFile? && x.archive.filename == Archive(x.archive.shasum)
    case ModuleKey(_, _, ModuleMetadata) => x.VersionFile?
  }

  ghost predicate Sound(c: Crypto, files: Files) {
    forall k :: k in files ==> WellNamed(k) && KeyOk(c, k, files[k])
  }

  /** Metadata files, and the file each names. */
  predicate IsNaming(k: Key) {
    (k.ProviderKey? && k.file.PlatformJson?) || (k.ModuleKey? && k.part.ArtifactJson?)
  }

  predicate IsNamed(k: Key) {
    (k.ProviderKey? && k.file.Artifact?) || (k.ModuleKey? && k.part.Archive?)
  }

  function NamedBy(k: Key, x: Content): Key {
    match (k, x)
    case (ProviderKey(p, v, _), PlatformFile(meta)) => ProviderKey(p, v, meta.filename)
    case (ModuleKey(m, v, _), ModuleMetaFile(meta)) => ModuleKey(m, v, meta.filename)
    case _ => k
  }

  /** Every metadata file of a directory names an artifact that is there. */
  ghost predicate CompleteIn(files: Files, d: Directory) {
    forall k :: k in files && Within(k, d) && IsNaming(k) ==> NamedBy(k, files[k]) in files
  }

  // ---- What holds between operations --------------------------------------------------------

  function IndexVersions(files: Files, k: Key): seq<string> {
    if k in files && files[k].IndexFile? then files[k].versions else []
  }

  predicate Listed(files: Files, d: Directory) { VersionOf(d) in IndexVersions(files, IndexKey(d)) }

  /** A platform that listings show: its file is not skipped and its artifact exists. */
  predicate IsPublished(files: Files, p: Provider, v: string, platform: string) {
    var k := ProviderKey(p, v, PlatformJson(platform));
    k in files && files[k].PlatformFile? && !Skipped(platform) && ProviderKey(p, v, files[k].platform.filename) in files
  }

  function PublishedPlatforms(files: Files, p: Provider, v: string): set<string> {
    set k | k in files && Within(k, ProviderDir(p, v)) && k.file.PlatformJson? &&
      IsPublished(files, p, v, k.file.platform)
      :: k.file.platform
  }

  /** One line of SHA256SUMS. */
  datatype Entry = Entry(filename: string, checksum: string)

  function EntryOf(files: Files, p: Provider, v: string, platform: string): Entry
    requires IsPublished(files, p, v, platform)
  {
    var meta := files[ProviderKey(p, v, PlatformJson(platform))].platform;
    Entry(ProviderFileText(p.name, v, meta.filename), meta.shasum)
  }

  function Entries(files: Files, p: Provider, v: string): set<Entry> {
    set platform | platform in PublishedPlatforms(files, p, v) :: EntryOf(files, p, v, platform)
  }

  function EntryLine(e: Entry): string { e.checksum + "  " + e.filename + "\n" }

  function Lines(entries: seq<Entry>): string {
    if entries == [] then "" else Lines(entries[..|entries| - 1]) + EntryLine(entries[|entries| - 1])
  }

  function CompareEntries(a: Entry, b: Entry): int { Compare(a.filename, b.filename) }

  /** The entries in strictly ascending order of file name. */
  ghost predicate IsListing(entries: seq<Entry>, s: set<Entry>) {
    && (forall i, j :: 0 <= i < j < |entries| ==> CompareEntries(entries[i], entries[j]) < 0)
    && (forall e :: e in entries <==> e in s)
  }

  /** `text` is exactly the sorted lines of `s`. */
  ghost predicate IsChecksumText(text: string, s: set<Entry>) {
    exists entries :: IsListing(entries, s) && Lines(entries) == text
  }

  /** SHA256SUMS lists the published platforms and its signature verifies. */
  ghost predicate ChecksumsMatch(c: Crypto, files: Files, p: Provider, v: string) {
    var sums, sig := ProviderKey(p, v, Checksums), ProviderKey(p, v, Signature);
    && sums in files && files[sums].SumsFile? && sig in files && files[sig].SignatureFile?
    && IsChecksumText(files[sums].text, Entries(files, p, v))
    && c.verifies(files[sums].text, files[sig].signature)
  }

  /** The directory holds something clients can be given. */
  predicate Shows(files: Files, d: Directory) {
    match d
    case ProviderDir(p, v) => PublishedPlatforms(files, p, v) != {}
    case ModuleDir(m, w) => ModuleKey(m, w, ArtifactJson) in files
  }

  ghost predicate InStep(files: Files, d: Directory) {
    (HasFiles(files, d) ==> Shows(files, d)) && (Listed(files, d) <==> Shows(files, d))
  }

  ghost predicate Signed(c: Crypto, files: Files, d: Directory) {
    d.ProviderDir? && Shows(files, d) ==> ChecksumsMatch(c, files, d.p, d.v)
  }

  ghost predicate DirSettled(c: Crypto, files: Files, d: Directory) {
    CompleteIn(files, d) && InStep(files, d) && Signed(c, files, d)
  }

  ghost predicate Settled(c: Crypto, files: Files) {
    Sound(c, files) && forall d :: DirSettled(c, files, d)
  }

  // ---- Facts about these notions -------------------------------------------------------------

  lemma PublishedMember(files: Files, p: Provider, v: string, platform: string)
    ensures platform in PublishedPlatforms(files, p, v) <==> IsPublished(files, p, v, platform)
  {
    var k := ProviderKey(p, v, PlatformJson(platform));
    if IsPublished(files, p, v, platform) {
      assert k in files && Within(k, ProviderDir(p, v)) && k.file.platform == platform;
    }
  }

  /** SHA256SUMS is determined by the published platforms. */
  lemma {:induction false} ListingUnique(a: seq<Entry>, b: seq<Entry>, s: set<Entry>)
    requires IsListing(a, s) && IsListing(b, s)
    ensures a == b
  {
    assert b != [] ==> b[0] in b;
    if a != [] {
      assert a[0] in a;
      assert b != [];
      var i :| 0 <= i < |b| && b[i] == a[0];
      var j :| 0 <= j < |a| && a[j] == b[0];
      CompareFlips(a[0].filename, b[0].filename);
      CompareZero(a[0].filename, a[0].filename);
      assert a[0] == b[0];
      ListingTail(a, s);
      ListingTail(b, s);
      ListingUnique(a[1..], b[1..], s - {a[0]});
      assert a == [a[0]] + a[1..] && b == [b[0]] + b[1..];
    }
  }

  lemma ListingTail(a: seq<Entry>, s: set<Entry>)
    requires IsListing(a, s) && a != []
    ensures IsListing(a[1..], s - {a[0]})
  {
    CompareZero(a[0].filename, a[0].filename);
    assert a == [a[0]] + a[1..];
  }

  lemma ChecksumTextUnique(x: string, y: string, s: set<Entry>)
    requires IsChecksumText(x, s) && IsChecksumText(y, s)
    ensures x == y
  {
    var a :| IsListing(a, s) && Lines(a) == x;
    var b :| IsListing(b, s) && Lines(b) == y;
    ListingUnique(a, b, s);
  }

  /** Two states agree on everything the published platforms of a version depend on. */
  ghost predicate SamePlatforms(f: Files, g: Files, p: Provider, v: string) {
    forall platform :: var k := ProviderKey(p, v, PlatformJson(platform));
      && (k in f <==> k in g)
      && (k in f ==> f[k] == g[k])
      && (k in f && f[k].PlatformFile? ==>
            (ProviderKey(p, v, f[k].platform.filename) in f <==> ProviderKey(p, v, f[k].platform.filename) in g))
  }

  lemma SamePublished(f: Files, g: Files, p: Provider, v: string)
    requires SamePlatforms(f, g, p, v)
    ensures PublishedPlatforms(f, p, v) == PublishedPlatforms(g, p, v)
    ensures Entries(f, p, v) == Entries(g, p, v)
  {
    forall platform ensures platform in PublishedPlatforms(f, p, v) <==> platform in PublishedPlatforms(g, p, v) {
      PublishedMember(f, p, v, platform);
      PublishedMember(g, p, v, platform);
      assert var k := ProviderKey(p, v, PlatformJson(platform)); k in f <==> k in g;
    }
    assert PublishedPlatforms(f, p, v) == PublishedPlatforms(g, p, v);
    forall platform | platform in PublishedPlatforms(f, p, v)
      ensures IsPublished(f, p, v, platform) && IsPublished(g, p, v, platform)
      ensures EntryOf(f, p, v, platform) == EntryOf(g, p, v, platform)
    {
      PublishedMember(f, p, v, platform);
      PublishedMember(g, p, v, platform);
    }
  }

  /** Two states agree outside a set of keys. */
  ghost predicate SameExcept(f: Files, g: Files, keys: set<Key>) {
    forall k :: k !in keys ==> (k in f <==> k in g) && (k in f ==> f[k] == g[k])
  }

  ghost predicate SameWithin(f: Files, g: Files, d: Directory) {
    forall k :: Within(k, d) ==> (k in f <==> k in g) && (k in f ==> f[k] == g[k])
  }

  lemma SamePlatformsWithin(f: Files, g: Files, p: Provider, v: string)
    requires SameWithin(f, g, ProviderDir(p, v))
    ensures SamePlatforms(f, g, p, v)
  {
    forall platform
      ensures var k := ProviderKey(p, v, PlatformJson(platform));
        && (k in f <==> k in g)
        && (k in f ==> f[k] == g[k])
        && (k in f && f[k].PlatformFile? ==>
              (ProviderKey(p, v, f[k].platform.filename) in f <==> ProviderKey(p, v, f[k].platform.filename) in g))
    {
      var k := ProviderKey(p, v, PlatformJson(platform));
      assert Within(k, ProviderDir(p, v));
      if k in f && f[k].PlatformFile? {
        assert Within(ProviderKey(p, v, f[k].platform.filename), ProviderDir(p, v));
      }
    }
  }

  /** What a directory's state depends on: its own files and its place in the index. */
  lemma DirFrame(c: Crypto, f: Files, g: Files, d: Directory)
    requires DirSettled(c, f, d) && SameWithin(f, g, d) && (Listed(f, d) <==> Listed(g, d))
    ensures DirSettled(c, g, d)
  {
    hide IsChecksumText, Entries, PublishedPlatforms, SamePlatforms;
    forall k | k in g && Within(k, d) && IsNaming(k) ensures NamedBy(k, g[k]) in g {
      assert Within(NamedBy(k, f[k]), d);
    }
    match d
    case ProviderDir(p, v) =>
      SamePlatformsWithin(f, g, p, v);
      SamePublished(f, g, p, v);
      assert Within(ProviderKey(p, v, Checksums), d) && Within(ProviderKey(p, v, Signature), d);
    case ModuleDir(m, w) =>
      assert Within(ModuleKey(m, w, ArtifactJson), d);
  }

  lemma EmptySettled(c: Crypto)
    ensures Settled(c, map[])
  {
    var f: Files := map[];
    forall d ensures DirSettled(c, f, d) {
      if d.ProviderDir? { assert PublishedPlatforms(f, d.p, d.v) == {}; }
    }
  }

  lemma NamedIsNamed(c: Crypto, k: Key, x: Content)
    requires IsNaming(k) && KeyOk(c, k, x)
    ensures IsNamed(NamedBy(k, x))
  {
  }

  /** Metadata as in `f`, and every artifact of `f` still there. */
  lemma CompleteLike(c: Crypto, f: Files, g: Files, d: Directory)
    requires Sound(c, f) && CompleteIn(f, d)
    requires forall k :: k in g && IsNaming(k) ==> k in f && f[k] == g[k]
    requires forall k :: k in f && IsNamed(k) ==> k in g
    ensures CompleteIn(g, d)
  {
    hide WellNamed;
    forall k | k in g && Within(k, d) && IsNaming(k) ensures NamedBy(k, g[k]) in g {
      NamedIsNamed(c, k, f[k]);
    }
  }
}
