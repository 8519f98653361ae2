/** The registry's operations as single steps on the file map: what an upload, a delete or a
    deprecation does when it takes effect, and the states it may be stopped in. Handlers refine
    these steps; here every step, and so every run, is shown to keep the published state consistent. */
module Publication {
  import opened Strings
  import opened SemVer
  import opened VersionIndex
  import opened Names
  import opened Registry

  // ---- The steps -----------------------------------------------------------------------------

  /** The artifact under its content-derived name, never overwritten. */
  function WithArtifact(f: Files, k: Key, bytes: Bytes): Files { if k in f then f else f[k := Blob(bytes)] }

  function MetaFor(c: Crypto, os: string, arch: string, bytes: Bytes): PlatformMeta {
    PlatformMeta(os, arch, Artifact(PlatformName(os, arch), c.hash(bytes)), c.hash(bytes))
  }

  /** The artifact and the platform file that names it. */
  function WithPlatform(c: Crypto, f: Files, p: Provider, v: string, os: string, arch: string, bytes: Bytes): Files {
    var meta := MetaFor(c, os, arch, bytes);
    var stored := WithArtifact(f, ProviderKey(p, v, meta.filename), bytes);
    stored[ProviderKey(p, v, PlatformJson(PlatformName(os, arch))) := PlatformFile(meta)]
  }

  function WithChecksums(f: Files, p: Provider, v: string, text: string, sig: Bytes): Files {
    f[ProviderKey(p, v, Checksums) := SumsFile(text)][ProviderKey(p, v, Signature) := SignatureFile(sig)]
  }

  function WithIndexed(f: Files, d: Directory): Files {
    if Listed(f, d) then f else f[IndexKey(d) := IndexFile(AddVersion(IndexVersions(f, IndexKey(d)), VersionOf(d)))]
  }

  /** The whole upload but for the removal of the replaced artifact. */
  function Finished(c: Crypto, f: Files, p: Provider, v: string, os: string, arch: string, bytes: Bytes, text: string,
                    sig: Bytes): Files
  {
    WithIndexed(WithChecksums(WithPlatform(c, f, p, v, os, arch, bytes), p, v, text, sig), ProviderDir(p, v))
  }

  /** The upload replaced this platform's artifact by a different one. */
  predicate ReplacesArtifact(c: Crypto, f: Files, p: Provider, v: string, os: string, arch: string, bytes: Bytes) {
    var k := ProviderKey(p, v, PlatformJson(PlatformName(os, arch)));
    k in f && f[k].PlatformFile? && f[k].platform.filename != MetaFor(c, os, arch, bytes).filename
  }

  function ReplacedArtifact(f: Files, p: Provider, v: string, os: string, arch: string): Key {
    var k := ProviderKey(p, v, PlatformJson(PlatformName(os, arch)));
    if k in f then NamedBy(k, f[k]) else k
  }

  /** A provider upload took effect. Removing the replaced artifact is best effort. */
  ghost predicate ProviderUploaded(c: Crypto, f: Files, g: Files, p: Provider, v: string, os: string, arch: string,
                                   bytes: Bytes)
  {
    var placed := WithPlatform(c, f, p, v, os, arch, bytes);
    exists text, sig ::
      && c.verifies(text, sig)
      && PublishedPlatforms(placed, p, v) != {}
      && IsChecksumText(text, Entries(placed, p, v))
      && var done := WithIndexed(WithChecksums(placed, p, v, text, sig), ProviderDir(p, v));
         || g == done
         || (ReplacesArtifact(c, f, p, v, os, arch, bytes) && g == done - {ReplacedArtifact(f, p, v, os, arch)})
  }

  function WithModule(c: Crypto, f: Files, m: Module, v: string, bytes: Bytes): Files {
    WithArtifact(f, ModuleKey(m, v, Archive(c.hash(bytes))), bytes)
      [ModuleKey(m, v, ArtifactJson) := ModuleMetaFile(ModuleMeta(Archive(c.hash(bytes)), c.hash(bytes)))]
  }

  predicate ReplacesArchive(c: Crypto, f: Files, m: Module, v: string, bytes: Bytes) {
    var k := ModuleKey(m, v, ArtifactJson);
    k in f && f[k].ModuleMetaFile? && f[k].archive.filename != Archive(c.hash(bytes))
  }

  function ReplacedArchive(f: Files, m: Module, v: string): Key {
    var k := ModuleKey(m, v, ArtifactJson);
    if k in f then NamedBy(k, f[k]) else k
  }

  ghost predicate ModuleUploaded(c: Crypto, f: Files, g: Files, m: Module, v: string, bytes: Bytes) {
    var done := WithIndexed(WithModule(c, f, m, v, bytes), ModuleDir(m, v));
    g == done || (ReplacesArchive(c, f, m, v, bytes) && g == done - {ReplacedArchive(f, m, v)})
  }

  ghost predicate Deleted(f: Files, g: Files, d: Directory) {
    && HasFiles(f, d)
    && g == Outside(f, d)[IndexKey(d) := IndexFile(Without(IndexVersions(f, IndexKey(d)), VersionOf(d)))]
  }

  /** The fields a deprecation carries over. */
  function Carried(f: Files, k: Key): string { if k in f && f[k].VersionFile? then f[k].meta.rest else "" }

  ghost predicate Deprecated(f: Files, g: Files, d: Directory, message: string) {
    && Listed(f, d)
    && g == f[MetadataKey(d) := VersionFile(VersionMeta(VersionOf(d), true, message, Carried(f, MetadataKey(d))))]
  }

  /** A request, or the step it amounts to. */
  datatype Event =
    | UploadProvider(p: Provider, v: string, os: string, arch: string, bytes: Bytes)
    | UploadModule(m: Module, w: string, bytes: Bytes)
    | Delete(target: Directory)
    | Deprecate(target: Directory, message: string)

  function DirOf(e: Event): Directory {
    match e
    case UploadProvider(p, v, _, _, _) => ProviderDir(p, v)
    case UploadModule(m, w, _) => ModuleDir(m, w)
    case Delete(d) => d
    case Deprecate(d, _) => d
  }

  /** What the routes let through. */
  predicate Routed(e: Event) {
    WellNamedDir(DirOf(e)) && (e.UploadProvider? ==> ValidArtifactName(e.os) && ValidArtifactName(e.arch))
  }

  ghost predicate TookEffect(c: Crypto, f: Files, g: Files, e: Event) {
    match e
    case UploadProvider(p, v, os, arch, bytes) => ProviderUploaded(c, f, g, p, v, os, arch, bytes)
    case UploadModule(m, w, bytes) => ModuleUploaded(c, f, g, m, w, bytes)
    case Delete(d) => Deleted(f, g, d)
    case Deprecate(d, message) => Deprecated(f, g, d, message)
  }

  /** All or nothing. */
  ghost predicate AtomicStep(c: Crypto, f: Files, g: Files, e: Event) { f == g || TookEffect(c, f, g, e) }

  /** Only `d`, and its version's place in the index, may differ. */
  ghost predicate Confined(f: Files, g: Files, d: Directory) {
    && (forall k :: !Within(k, d) && k != IndexKey(d) ==> (k in f <==> k in g) && (k in f ==> f[k] == g[k]))
    && (forall x :: x != VersionOf(d) ==> (x in IndexVersions(f, IndexKey(d)) <==> x in IndexVersions(g, IndexKey(d))))
  }

  // ---- States an operation may be stopped in -------------------------------------------------

  /** Platform and module metadata may change but never disappears, and the index gains the version
      only once there is something to show. */
  ghost predicate UploadStop(f: Files, g: Files, d: Directory) {
    && Confined(f, g, d)
    && (forall k :: k in f && Within(k, d) && IsNaming(k) ==> k in g)
    && (((IndexKey(d) in f <==> IndexKey(d) in g) && (IndexKey(d) in f ==> f[IndexKey(d)] == g[IndexKey(d)]))
        || (Listed(g, d) && Shows(g, d)))
  }

  /** Before the rename, between it and the index write, or after that. */
  ghost predicate DeleteStop(f: Files, g: Files, d: Directory) {
    g == f || (HasFiles(f, d) && (g == Outside(f, d) || Deleted(f, g, d)))
  }

  ghost predicate Stop(c: Crypto, f: Files, g: Files, e: Event) {
    && Sound(c, g)
    && match e
       case Delete(d) => DeleteStop(f, g, d)
       case Deprecate(d, message) => g == f || Deprecated(f, g, d, message)
       case _ => UploadStop(f, g, DirOf(e))
  }

  lemma RemovedFromIndex(f: Files, d: Directory)
    ensures Confined(f, Outside(f, d), d)
    ensures forall g :: Deleted(f, g, d) ==> Confined(f, g, d) && !Listed(g, d) && !HasFiles(g, d)
  {
    hide Listed;
    forall g | Deleted(f, g, d) ensures Confined(f, g, d) && !Listed(g, d) && !HasFiles(g, d) { AfterDelete(f, g, d); }
  }

  lemma AfterDelete(f: Files, g: Files, d: Directory)
    requires Deleted(f, g, d)
    ensures Confined(f, g, d) && !Listed(g, d) && !HasFiles(g, d)
  {
  }

  lemma StopConfined(c: Crypto, f: Files, g: Files, e: Event)
    requires Stop(c, f, g, e)
    ensures Confined(f, g, DirOf(e))
  {
    hide Sound, Deleted;
    if e.Delete? { RemovedFromIndex(f, e.target); }
    if e.Deprecate? && g != f { DeprecatedConfined(f, g, e.target, e.message); }
  }

  lemma DeprecatedConfined(f: Files, g: Files, d: Directory, message: string)
    requires Deprecated(f, g, d, message)
    ensures Confined(f, g, d)
  {
  }

  // ---- Single writes -------------------------------------------------------------------------

  lemma SoundPut(c: Crypto, f: Files, k: Key, x: Content)
    requires Sound(c, f) && WellNamed(k) && KeyOk(c, k, x)
    ensures Sound(c, f[k := x])
  {
    hide WellNamed, KeyOk;
  }

  lemma SoundLess(c: Crypto, f: Files, g: Files)
    requires Sound(c, f) && forall k :: k in g ==> k in f && f[k] == g[k]
    ensures Sound(c, g)
  {
    hide WellNamed, KeyOk;
  }

  lemma CompletePut(f: Files, k: Key, x: Content, d: Directory)
    requires CompleteIn(f, d) && (IsNaming(k) ==> NamedBy(k, x) in f[k := x])
    ensures CompleteIn(f[k := x], d)
  {
  }

  lemma PlatformFiles(c: Crypto, p: Provider, v: string, os: string, arch: string, bytes: Bytes)
    requires CryptoOk(c) && WellNamedDir(ProviderDir(p, v)) && ValidArtifactName(os) && ValidArtifactName(arch)
    ensures var meta := MetaFor(c, os, arch, bytes);
            && WellNamed(ProviderKey(p, v, meta.filename)) && KeyOk(c, ProviderKey(p, v, meta.filename), Blob(bytes))
            && WellNamed(ProviderKey(p, v, PlatformJson(PlatformName(os, arch))))
            && KeyOk(c, ProviderKey(p, v, PlatformJson(PlatformName(os, arch))), PlatformFile(meta))
  {
    hide WellNamedDir, ValidArtifactName, IsShasum;
    NameHasNoDot(os);
    NameHasNoDot(arch);
  }

  lemma ArtifactSound(c: Crypto, f: Files, k: Key, bytes: Bytes, d: Directory)
    requires Sound(c, f) && WellNamed(k) && KeyOk(c, k, Blob(bytes)) && IsNamed(k)
    ensures Sound(c, WithArtifact(f, k, bytes)) && (CompleteIn(f, d) ==> CompleteIn(WithArtifact(f, k, bytes), d))
  {
    hide Sound, CompleteIn, WellNamed, KeyOk;
    SoundPut(c, f, k, Blob(bytes));
    if CompleteIn(f, d) { CompletePut(f, k, Blob(bytes), d); }
  }

  lemma PlatformSound(c: Crypto, f: Files, p: Provider, v: string, os: string, arch: string, bytes: Bytes)
    requires CryptoOk(c) && Sound(c, f) && WellNamedDir(ProviderDir(p, v)) && ValidArtifactName(os) &&
             ValidArtifactName(arch)
    ensures Sound(c, WithPlatform(c, f, p, v, os, arch, bytes))
    ensures CompleteIn(f, ProviderDir(p, v)) ==>
              CompleteIn(WithPlatform(c, f, p, v, os, arch, bytes), ProviderDir(p, v))
  {
    hide Sound, CompleteIn, WellNamed, KeyOk, WellNamedDir, ValidArtifactName;
    var meta, k := MetaFor(c, os, arch, bytes), ProviderKey(p, v, PlatformJson(PlatformName(os, arch)));
    var stored := WithArtifact(f, ProviderKey(p, v, meta.filename), bytes);
    PlatformFiles(c, p, v, os, arch, bytes);
    ArtifactSound(c, f, ProviderKey(p, v, meta.filename), bytes, ProviderDir(p, v));
    SoundPut(c, stored, k, PlatformFile(meta));
    if CompleteIn(f, ProviderDir(p, v)) { CompletePut(stored, k, PlatformFile(meta), ProviderDir(p, v)); }
  }

  lemma ChecksumsSound(c: Crypto, f: Files, p: Provider, v: string, text: string, sig: Bytes)
    requires Sound(c, f) && WellNamedDir(ProviderDir(p, v))
    ensures Sound(c, f[ProviderKey(p, v, Checksums) := SumsFile(text)]) && Sound(c, WithChecksums(f, p, v, text, sig))
    ensures CompleteIn(f, ProviderDir(p, v)) ==>
              && CompleteIn(f[ProviderKey(p, v, Checksums) := SumsFile(text)], ProviderDir(p, v))
              && CompleteIn(WithChecksums(f, p, v, text, sig), ProviderDir(p, v))
  {
    hide Sound, CompleteIn, WellNamedDir;
    var d, sums := ProviderDir(p, v), f[ProviderKey(p, v, Checksums) := SumsFile(text)];
    SoundPut(c, f, ProviderKey(p, v, Checksums), SumsFile(text));
    SoundPut(c, sums, ProviderKey(p, v, Signature), SignatureFile(sig));
    if CompleteIn(f, d) {
      CompletePut(f, ProviderKey(p, v, Checksums), SumsFile(text), d);
      CompletePut(sums, ProviderKey(p, v, Signature), SignatureFile(sig), d);
    }
  }

  lemma IndexSound(c: Crypto, f: Files, d: Directory)
    requires Sound(c, f)
    ensures IndexOk(IndexVersions(f, IndexKey(d)))
  {
    hide IndexOk, WellNamed;
    var k := IndexKey(d);
    assert k in f ==> KeyOk(c, k, f[k]);
    EmptyIndex();
  }

  lemma EmptyIndex()
    ensures IndexOk([])
  {
  }

  lemma IndexNamed(d: Directory)
    requires WellNamedDir(d)
    ensures WellNamed(IndexKey(d)) && ValidVersion(VersionOf(d))
  {
  }

  lemma IndexedSound(c: Crypto, f: Files, d: Directory)
    requires Sound(c, f) && WellNamedDir(d)
    ensures Sound(c, WithIndexed(f, d)) && (CompleteIn(f, d) ==> CompleteIn(WithIndexed(f, d), d))
    ensures Confined(f, WithIndexed(f, d), d) && Listed(WithIndexed(f, d), d)
  {
    hide ValidVersion, IndexOk, AddVersion, Sound, CompleteIn, WellNamedDir, WellNamed;
    var k, v := IndexKey(d), VersionOf(d);
    IndexSound(c, f, d);
    IndexNamed(d);
    AddKeepsIndex(IndexVersions(f, k), v);
    SoundPut(c, f, k, IndexFile(AddVersion(IndexVersions(f, k), v)));
    if CompleteIn(f, d) { CompletePut(f, k, IndexFile(AddVersion(IndexVersions(f, k), v)), d); }
  }

  lemma UnlistedSound(c: Crypto, f: Files, d: Directory)
    requires Sound(c, f) && WellNamedDir(d)
    ensures Sound(c, f[IndexKey(d) := IndexFile(Without(IndexVersions(f, IndexKey(d)), VersionOf(d)))])
  {
    hide IndexOk, Without, Sound, WellNamed, WellNamedDir;
    IndexSound(c, f, d);
    IndexNamed(d);
    RemoveKeepsIndex(IndexVersions(f, IndexKey(d)), VersionOf(d));
    SoundPut(c, f, IndexKey(d), IndexFile(Without(IndexVersions(f, IndexKey(d)), VersionOf(d))));
  }

  // ---- An upload that took effect ------------------------------------------------------------

  /** Writing anything but platform files and artifacts leaves the published platforms alone. */
  lemma PlatformsUntouched(f: Files, g: Files, p: Provider, v: string)
    requires forall k :: IsNaming(k) || IsNamed(k) ==> (k in f <==> k in g) && (k in f ==> f[k] == g[k])
    requires forall k :: k in f && IsNaming(k) ==> IsNamed(NamedBy(k, f[k]))
    ensures SamePlatforms(f, g, p, v)
  {
    forall platform
      ensures var k := ProviderKey(p, v, PlatformJson(platform));
        && (k in f <==> k in g)
        && (k in f ==> f[k] == g[k])
        && (k in f && f[k].PlatformFile? ==>
              (ProviderKey(p, v, f[k].platform.filename) in f <==> ProviderKey(p, v, f[k].platform.filename) in g))
    {
      var k := ProviderKey(p, v, PlatformJson(platform));
      assert IsNaming(k);
      if k in f && f[k].PlatformFile? { assert IsNamed(NamedBy(k, f[k])); }
    }
  }

  lemma SoundNames(c: Crypto, f: Files)
    requires Sound(c, f)
    ensures forall k :: k in f && IsNaming(k) ==> IsNamed(NamedBy(k, f[k]))
  {
    hide WellNamed;
    forall k | k in f && IsNaming(k) ensures IsNamed(NamedBy(k, f[k])) { NamedIsNamed(c, k, f[k]); }
  }

  lemma PlatformConfined(c: Crypto, f: Files, p: Provider, v: string, os: string, arch: string, bytes: Bytes,
                         text: string, sig: Bytes)
    ensures var g := WithChecksums(WithPlatform(c, f, p, v, os, arch, bytes), p, v, text, sig);
            && (forall k :: !Within(k, ProviderDir(p, v)) ==> (k in f <==> k in g) && (k in f ==> f[k] == g[k]))
            && Confined(f, g, ProviderDir(p, v))
  {
  }

  lemma ConfinedTwice(f: Files, g: Files, h: Files, d: Directory)
    requires Confined(f, g, d) && Confined(g, h, d)
    ensures Confined(f, h, d)
  {
  }

  lemma FinishedChecksums(c: Crypto, placed: Files, p: Provider, v: string, text: string, sig: Bytes)
    requires Sound(c, placed) && c.verifies(text, sig)
    requires PublishedPlatforms(placed, p, v) != {} && IsChecksumText(text, Entries(placed, p, v))
    ensures var g := WithIndexed(WithChecksums(placed, p, v, text, sig), ProviderDir(p, v));
            PublishedPlatforms(g, p, v) != {} && ChecksumsMatch(c, g, p, v)
  {
    hide IsChecksumText, PublishedPlatforms, Entries, AddVersion, SamePlatforms, Sound;
    var g := WithIndexed(WithChecksums(placed, p, v, text, sig), ProviderDir(p, v));
    SoundNames(c, placed);
    PlatformsUntouched(placed, g, p, v);
    SamePublished(placed, g, p, v);
  }

  /** What an effective upload leaves in its directory. */
  ghost predicate Renewed(c: Crypto, f: Files, g: Files, d: Directory) {
    && Sound(c, g) && Confined(f, g, d) && Listed(g, d) && Shows(g, d) && Signed(c, g, d)
    && (forall k :: k in f && Within(k, d) && IsNaming(k) ==> k in g)
    && (CompleteIn(f, d) || d.ModuleDir? ==> CompleteIn(g, d))
  }

  lemma FinishedIsRenewed(c: Crypto, f: Files, p: Provider, v: string, os: string, arch: string, bytes: Bytes,
                          text: string, sig: Bytes)
    requires CryptoOk(c) && Sound(c, f) && WellNamedDir(ProviderDir(p, v)) && ValidArtifactName(os) &&
             ValidArtifactName(arch)
    requires var placed := WithPlatform(c, f, p, v, os, arch, bytes);
             c.verifies(text, sig) && PublishedPlatforms(placed, p, v) != {} &&
               IsChecksumText(text, Entries(placed, p, v))
    ensures Renewed(c, f, Finished(c, f, p, v, os, arch, bytes, text, sig), ProviderDir(p, v))
  {
    hide IsChecksumText, PublishedPlatforms, Entries, AddVersion, WellNamedDir, ValidArtifactName, Sound, CompleteIn,
         ChecksumsMatch, Confined, Listed;
    var d := ProviderDir(p, v);
    var placed := WithPlatform(c, f, p, v, os, arch, bytes);
    var summed := WithChecksums(placed, p, v, text, sig);
    PlatformSound(c, f, p, v, os, arch, bytes);
    ChecksumsSound(c, placed, p, v, text, sig);
    IndexedSound(c, summed, d);
    PlatformConfined(c, f, p, v, os, arch, bytes, text, sig);
    ConfinedTwice(f, summed, WithIndexed(summed, d), d);
    FinishedChecksums(c, placed, p, v, text, sig);
  }

  /** The metadata file that may name an artifact. */
  function Namer(k: Key): Key
    requires IsNamed(k)
  {
    if k.ProviderKey? then ProviderKey(k.provider, k.version, PlatformJson(k.file.platform))
    else ModuleKey(k.m, k.version, ArtifactJson)
  }

  /** An artifact its metadata file does not name. */
  predicate Unreferenced(f: Files, gone: Key) {
    IsNamed(gone) && Namer(gone) in f && NamedBy(Namer(gone), f[Namer(gone)]) != gone
  }

  lemma DropCompletes(c: Crypto, f: Files, gone: Key, d: Directory)
    requires Sound(c, f) && CompleteIn(f, d) && Unreferenced(f, gone)
    ensures CompleteIn(f - {gone}, d)
  {
    hide WellNamed;
    var g := f - {gone};
    forall k | k in g && Within(k, d) && IsNaming(k) ensures NamedBy(k, g[k]) in g {
      assert KeyOk(c, k, f[k]) && NamedBy(k, f[k]) in f;
    }
  }

  lemma DropKeepsPlatforms(c: Crypto, f: Files, gone: Key, p: Provider, v: string)
    requires Sound(c, f) && Unreferenced(f, gone)
    ensures SamePlatforms(f, f - {gone}, p, v)
  {
    hide WellNamed;
    var g := f - {gone};
    forall platform
      ensures var k := ProviderKey(p, v, PlatformJson(platform));
        && (k in f <==> k in g)
        && (k in f ==> f[k] == g[k])
        && (k in f && f[k].PlatformFile? ==>
              (ProviderKey(p, v, f[k].platform.filename) in f <==> ProviderKey(p, v, f[k].platform.filename) in g))
    {
      var k := ProviderKey(p, v, PlatformJson(platform));
      assert k in f ==> KeyOk(c, k, f[k]);
    }
  }

  /** Removing an artifact nothing names changes nothing that clients see. */
  lemma DropIsRenewed(c: Crypto, f: Files, h: Files, gone: Key, d: Directory)
    requires Renewed(c, f, h, d) && Within(gone, d) && Unreferenced(h, gone)
    ensures Renewed(c, f, h - {gone}, d)
  {
    hide IsChecksumText, PublishedPlatforms, Entries, Sound, CompleteIn, SamePlatforms;
    var g := h - {gone};
    SoundLess(c, h, g);
    if CompleteIn(h, d) { DropCompletes(c, h, gone, d); }
    if d.ProviderDir? {
      DropKeepsPlatforms(c, h, gone, d.p, d.v);
      SamePublished(h, g, d.p, d.v);
    }
  }

  lemma ReplacedIsUnreferenced(c: Crypto, f: Files, p: Provider, v: string, os: string, arch: string, bytes: Bytes,
                               text: string, sig: Bytes)
    requires Sound(c, f) && ReplacesArtifact(c, f, p, v, os, arch, bytes)
    ensures Within(ReplacedArtifact(f, p, v, os, arch), ProviderDir(p, v))
    ensures Unreferenced(Finished(c, f, p, v, os, arch, bytes, text, sig), ReplacedArtifact(f, p, v, os, arch))
  {
    hide WellNamed;
    var k := ProviderKey(p, v, PlatformJson(PlatformName(os, arch)));
    assert KeyOk(c, k, f[k]);
  }

  lemma ProviderUploadRenews(c: Crypto, f: Files, g: Files, p: Provider, v: string, os: string, arch: string,
                             bytes: Bytes)
    requires CryptoOk(c) && Sound(c, f) && WellNamedDir(ProviderDir(p, v)) && ValidArtifactName(os) &&
             ValidArtifactName(arch)
    requires ProviderUploaded(c, f, g, p, v, os, arch, bytes)
    ensures Renewed(c, f, g, ProviderDir(p, v))
  {
    hide IsChecksumText, PublishedPlatforms, Entries, WithIndexed, WellNamedDir, ValidArtifactName, Sound, Renewed;
    var placed := WithPlatform(c, f, p, v, os, arch, bytes);
    var text, sig :|
      && c.verifies(text, sig)
      && PublishedPlatforms(placed, p, v) != {}
      && IsChecksumText(text, Entries(placed, p, v))
      && var done := WithIndexed(WithChecksums(placed, p, v, text, sig), ProviderDir(p, v));
         || g == done
         || (ReplacesArtifact(c, f, p, v, os, arch, bytes) && g == done - {ReplacedArtifact(f, p, v, os, arch)});
    var done := Finished(c, f, p, v, os, arch, bytes, text, sig);
    FinishedIsRenewed(c, f, p, v, os, arch, bytes, text, sig);
    if g != done {
      ReplacedIsUnreferenced(c, f, p, v, os, arch, bytes, text, sig);
      DropIsRenewed(c, f, done, ReplacedArtifact(f, p, v, os, arch), ProviderDir(p, v));
    }
  }

  lemma ArchiveFiles(c: Crypto, m: Module, v: string, bytes: Bytes)
    requires CryptoOk(c) && WellNamedDir(ModuleDir(m, v))
    ensures var k := ModuleKey(m, v, Archive(c.hash(bytes)));
            && WellNamed(k) && KeyOk(c, k, Blob(bytes)) && WellNamed(ModuleKey(m, v, ArtifactJson))
            && KeyOk(c, ModuleKey(m, v, ArtifactJson),
                     ModuleMetaFile(ModuleMeta(Archive(c.hash(bytes)), c.hash(bytes))))
  {
    hide WellNamedDir, IsShasum;
  }

  lemma ModuleSound(c: Crypto, f: Files, m: Module, v: string, bytes: Bytes)
    requires CryptoOk(c) && Sound(c, f) && WellNamedDir(ModuleDir(m, v))
    ensures Sound(c, WithModule(c, f, m, v, bytes)) && CompleteIn(WithModule(c, f, m, v, bytes), ModuleDir(m, v))
  {
    hide Sound, WellNamed, KeyOk, WellNamedDir;
    var k := ModuleKey(m, v, Archive(c.hash(bytes)));
    ArchiveFiles(c, m, v, bytes);
    ArtifactSound(c, f, k, bytes, ModuleDir(m, v));
    SoundPut(c, WithArtifact(f, k, bytes), ModuleKey(m, v, ArtifactJson),
             ModuleMetaFile(ModuleMeta(Archive(c.hash(bytes)), c.hash(bytes))));
  }

  lemma ModuleConfined(c: Crypto, f: Files, m: Module, v: string, bytes: Bytes)
    ensures Confined(f, WithModule(c, f, m, v, bytes), ModuleDir(m, v))
  {
  }

  lemma ReplacedArchiveUnreferenced(c: Crypto, f: Files, m: Module, v: string, bytes: Bytes)
    requires Sound(c, f) && ReplacesArchive(c, f, m, v, bytes)
    ensures Within(ReplacedArchive(f, m, v), ModuleDir(m, v))
    ensures Unreferenced(WithIndexed(WithModule(c, f, m, v, bytes), ModuleDir(m, v)), ReplacedArchive(f, m, v))
  {
    hide WellNamed;
    var k := ModuleKey(m, v, ArtifactJson);
    assert KeyOk(c, k, f[k]);
  }

  lemma ModuleFinishedIsRenewed(c: Crypto, f: Files, m: Module, v: string, bytes: Bytes)
    requires CryptoOk(c) && Sound(c, f) && WellNamedDir(ModuleDir(m, v))
    ensures Renewed(c, f, WithIndexed(WithModule(c, f, m, v, bytes), ModuleDir(m, v)), ModuleDir(m, v))
  {
    hide AddVersion, Sound, CompleteIn, WellNamedDir, Confined, Listed;
    var placed := WithModule(c, f, m, v, bytes);
    var done := WithIndexed(placed, ModuleDir(m, v));
    ModuleSound(c, f, m, v, bytes);
    IndexedSound(c, placed, ModuleDir(m, v));
    ModuleConfined(c, f, m, v, bytes);
    ConfinedTwice(f, placed, done, ModuleDir(m, v));
  }

  lemma ModuleUploadRenews(c: Crypto, f: Files, g: Files, m: Module, v: string, bytes: Bytes)
    requires CryptoOk(c) && Sound(c, f) && WellNamedDir(ModuleDir(m, v)) && ModuleUploaded(c, f, g, m, v, bytes)
    ensures Renewed(c, f, g, ModuleDir(m, v))
  {
    hide Sound, WellNamedDir, Renewed, WithIndexed;
    var done := WithIndexed(WithModule(c, f, m, v, bytes), ModuleDir(m, v));
    ModuleFinishedIsRenewed(c, f, m, v, bytes);
    if g != done {
      ReplacedArchiveUnreferenced(c, f, m, v, bytes);
      DropIsRenewed(c, f, done, ReplacedArchive(f, m, v), ModuleDir(m, v));
    }
  }

  lemma RenewedIsSettled(c: Crypto, f: Files, g: Files, d: Directory)
    requires Renewed(c, f, g, d) && (CompleteIn(f, d) || d.ModuleDir?)
    ensures DirSettled(c, g, d)
  {
  }

  // ---- What an upload publishes --------------------------------------------------------------

  /** After the first two writes there is something to publish exactly when the platform's name does
      not end in `index` or `metadata`, or something was published before. */
  lemma ShowsAfterUpload(c: Crypto, f: Files, p: Provider, v: string, os: string, arch: string, bytes: Bytes)
    requires Sound(c, f)
    ensures var platform := PlatformName(os, arch);
            Shows(WithPlatform(c, f, p, v, os, arch, bytes), ProviderDir(p, v)) <==>
            (!HasSuffix(platform, "index") && !HasSuffix(platform, "metadata")) || Shows(f, ProviderDir(p, v))
  {
    hide WellNamed, PublishedPlatforms, Skipped;
    var g, platform := WithPlatform(c, f, p, v, os, arch, bytes), PlatformName(os, arch);
    SkippedNames(platform);
    PublishedMember(g, p, v, platform);
    forall x | x != platform ensures IsPublished(g, p, v, x) <==> IsPublished(f, p, v, x) {
      var k := ProviderKey(p, v, PlatformJson(x));
      assert k in f ==> KeyOk(c, k, f[k]);
    }
    if x :| x in PublishedPlatforms(g, p, v) && x != platform {
      PublishedMember(g, p, v, x);
      PublishedMember(f, p, v, x);
    }
    if x :| x in PublishedPlatforms(f, p, v) {
      PublishedMember(f, p, v, x);
      PublishedMember(g, p, v, x);
      assert x != platform ==> IsPublished(g, p, v, x);
    }
    if x :| x in PublishedPlatforms(g, p, v) { PublishedMember(g, p, v, x); }
  }

  /** What an upload that took effect publishes. Its platform is listed, and so in SHA256SUMS,
      exactly when the platform's name does not end in `index` or `metadata`; its metadata and
      artifact are there either way. */
  lemma UploadIsListed(c: Crypto, f: Files, g: Files, p: Provider, v: string, os: string, arch: string, bytes: Bytes)
    requires CryptoOk(c) && Sound(c, f) && WellNamedDir(ProviderDir(p, v)) && ValidArtifactName(os) &&
             ValidArtifactName(arch)
    requires ProviderUploaded(c, f, g, p, v, os, arch, bytes)
    ensures var platform, meta := PlatformName(os, arch), MetaFor(c, os, arch, bytes);
            var k, artifact := ProviderKey(p, v, PlatformJson(platform)), ProviderKey(p, v, meta.filename);
            && k in g && g[k] == PlatformFile(meta)
            && artifact in g && g[artifact].Blob? && c.hash(g[artifact].bytes) == meta.shasum
            && (platform in PublishedPlatforms(g, p, v) <==>
                !HasSuffix(platform, "index") && !HasSuffix(platform, "metadata"))
  {
    hide IsChecksumText, PublishedPlatforms, Entries, AddVersion, Skipped, WellNamed, WellNamedDir;
    var platform, meta := PlatformName(os, arch), MetaFor(c, os, arch, bytes);
    var k, artifact := ProviderKey(p, v, PlatformJson(platform)), ProviderKey(p, v, meta.filename);
    PlatformSound(c, f, p, v, os, arch, bytes);
    var placed := WithPlatform(c, f, p, v, os, arch, bytes);
    assert KeyOk(c, artifact, placed[artifact]);
    assert k in f ==> KeyOk(c, k, f[k]);
    assert k in g && g[k] == PlatformFile(meta) && artifact in g && g[artifact] == placed[artifact];
    PublishedMember(g, p, v, platform);
    SkippedNames(platform);
  }

  // ---- Every step keeps the invariants -------------------------------------------------------

  /** The step leaves its own directory consistent, whatever it was before: an upload to complete
      metadata, any module upload, and a delete. */
  ghost predicate Heals(c: Crypto, f: Files, g: Files, e: Event) {
    TookEffect(c, f, g, e) && !e.Deprecate? && (e.UploadProvider? ==> CompleteIn(f, DirOf(e)))
  }

  lemma DeleteSettles(c: Crypto, f: Files, g: Files, d: Directory)
    requires Sound(c, f) && WellNamedDir(d) && Deleted(f, g, d)
    ensures Sound(c, g) && Confined(f, g, d) && DirSettled(c, g, d)
  {
    hide WellNamedDir, Sound, Listed, Confined, Without, PublishedPlatforms;
    AfterDelete(f, g, d);
    SoundLess(c, f, Outside(f, d));
    assert IndexVersions(Outside(f, d), IndexKey(d)) == IndexVersions(f, IndexKey(d));
    UnlistedSound(c, Outside(f, d), d);
    assert !HasFiles(g, d);
    ShownHasFiles(g, d);
  }

  lemma ShownHasFiles(f: Files, d: Directory)
    ensures Shows(f, d) ==> HasFiles(f, d)
  {
    match d
    case ProviderDir(p, v) =>
      if x :| x in PublishedPlatforms(f, p, v) {
        PublishedMember(f, p, v, x);
        assert Within(ProviderKey(p, v, PlatformJson(x)), d);
      }
    case ModuleDir(m, w) => assert Within(ModuleKey(m, w, ArtifactJson), d);
  }

  lemma MetadataSound(c: Crypto, f: Files, d: Directory, meta: VersionMeta)
    requires Sound(c, f) && WellNamedDir(d)
    ensures Sound(c, f[MetadataKey(d) := VersionFile(meta)])
  {
    hide Sound, WellNamedDir;
    SoundPut(c, f, MetadataKey(d), VersionFile(meta));
  }

  lemma DeprecateKeeps(c: Crypto, f: Files, g: Files, d: Directory, message: string)
    requires Sound(c, f) && WellNamedDir(d) && Deprecated(f, g, d, message)
    ensures Sound(c, g) && Confined(f, g, d) && (DirSettled(c, f, d) ==> DirSettled(c, g, d))
  {
    hide IsChecksumText, Entries, PublishedPlatforms, WellNamedDir, Sound, SamePlatforms;
    MetadataSound(c, f, d, VersionMeta(VersionOf(d), true, message, Carried(f, MetadataKey(d))));
    DeprecatedConfined(f, g, d, message);
    if DirSettled(c, f, d) {
      CompleteLike(c, f, g, d);
      if d.ProviderDir? {
        SoundNames(c, f);
        PlatformsUntouched(f, g, d.p, d.v);
        SamePublished(f, g, d.p, d.v);
      }
      ShownHasFiles(f, d);
    }
  }

  /** One step: its own directory stays consistent or becomes so, and nothing else is touched. */
  lemma StepKeepsDir(c: Crypto, f: Files, g: Files, e: Event)
    requires CryptoOk(c) && Sound(c, f) && Routed(e) && AtomicStep(c, f, g, e)
    ensures Sound(c, g) && Confined(f, g, DirOf(e))
    ensures DirSettled(c, f, DirOf(e)) || Heals(c, f, g, e) ==> DirSettled(c, g, DirOf(e))
  {
    hide Sound, DirSettled, ProviderUploaded, ModuleUploaded, Deleted, Deprecated, Renewed, WellNamedDir,
         ValidArtifactName;
    if TookEffect(c, f, g, e) {
      SettledIsComplete(c, f, DirOf(e));
      match e
      case UploadProvider(p, v, os, arch, bytes) =>
        ProviderUploadRenews(c, f, g, p, v, os, arch, bytes);
        if CompleteIn(f, DirOf(e)) { RenewedIsSettled(c, f, g, DirOf(e)); }
        RenewedParts(c, f, g, DirOf(e));
      case UploadModule(m, w, bytes) =>
        ModuleUploadRenews(c, f, g, m, w, bytes);
        RenewedIsSettled(c, f, g, DirOf(e));
        RenewedParts(c, f, g, DirOf(e));
      case Delete(d) => DeleteSettles(c, f, g, d);
      case Deprecate(d, message) => DeprecateKeeps(c, f, g, d, message);
    }
  }

  lemma RenewedParts(c: Crypto, f: Files, g: Files, d: Directory)
    requires Renewed(c, f, g, d)
    ensures Sound(c, g) && Confined(f, g, d)
  {
  }

  lemma SettledIsComplete(c: Crypto, f: Files, d: Directory)
    ensures DirSettled(c, f, d) ==> CompleteIn(f, d)
  {
  }

  /** A change confined to one directory leaves every other consistent. */
  lemma ConfinedKeepsOthers(c: Crypto, f: Files, g: Files, d: Directory, other: Directory)
    requires Confined(f, g, d) && other != d && DirSettled(c, f, other)
    ensures DirSettled(c, g, other)
  {
    hide DirSettled;
    DirFrame(c, f, g, other);
  }

  lemma StepKeepsSettled(c: Crypto, f: Files, g: Files, e: Event)
    requires CryptoOk(c) && Settled(c, f) && Routed(e) && AtomicStep(c, f, g, e)
    ensures Settled(c, g)
  {
    hide Sound, DirSettled, Routed, AtomicStep, Confined;
    StepKeepsDir(c, f, g, e);
    forall d ensures DirSettled(c, g, d) {
      if d != DirOf(e) { ConfinedKeepsOthers(c, f, g, DirOf(e), d); }
    }
  }

  // ---- Artifacts left behind -----------------------------------------------------------------

  /** Every artifact that is there is named by its metadata. */
  ghost predicate NoStrays(f: Files) {
    forall k :: k in f && IsNamed(k) ==> Namer(k) in f && NamedBy(Namer(k), f[Namer(k)]) == k
  }

  predicate Replaces(c: Crypto, f: Files, e: Event) {
    match e
    case UploadProvider(p, v, os, arch, bytes) => ReplacesArtifact(c, f, p, v, os, arch, bytes)
    case UploadModule(m, w, bytes) => ReplacesArchive(c, f, m, w, bytes)
    case _ => false
  }

  function Replaced(f: Files, e: Event): Key {
    match e
    case UploadProvider(p, v, os, arch, _) => ReplacedArtifact(f, p, v, os, arch)
    case UploadModule(m, w, _) => ReplacedArchive(f, m, w)
    case _ => MetadataKey(DirOf(e))
  }

  /** The artifact an upload replaced was removed. */
  ghost predicate Tidy(c: Crypto, f: Files, g: Files, e: Event) {
    Replaces(c, f, e) ==> Replaced(f, e) !in g
  }

  /** A step that removes what it replaces leaves no artifact unnamed. */
  lemma TidyStep(c: Crypto, f: Files, g: Files, e: Event)
    requires Sound(c, f) && NoStrays(f) && TookEffect(c, f, g, e) && Tidy(c, f, g, e)
    ensures NoStrays(g)
  {
    hide WellNamed, IsChecksumText, Entries, PublishedPlatforms, AddVersion, Without;
    match e
    case UploadProvider(p, v, os, arch, bytes) => TidyUpload(c, f, g, p, v, os, arch, bytes);
    case UploadModule(m, w, bytes) => TidyModule(c, f, g, m, w, bytes);
    case _ =>
  }

  lemma ReplacedIsNamed(c: Crypto, f: Files, p: Provider, v: string, os: string, arch: string, bytes: Bytes)
    requires Sound(c, f) && ReplacesArtifact(c, f, p, v, os, arch, bytes)
    ensures var metaKey := ProviderKey(p, v, PlatformJson(PlatformName(os, arch)));
            && IsNamed(ReplacedArtifact(f, p, v, os, arch)) && metaKey in f
            && NamedBy(metaKey, f[metaKey]) == ReplacedArtifact(f, p, v, os, arch)
  {
    hide WellNamed;
    var metaKey := ProviderKey(p, v, PlatformJson(PlatformName(os, arch)));
    NamedIsNamed(c, metaKey, f[metaKey]);
  }

  /** Of metadata and artifacts an upload leaves what its first two writes did, but for what it replaced. */
  lemma UploadLeaves(c: Crypto, f: Files, g: Files, p: Provider, v: string, os: string, arch: string, bytes: Bytes)
    requires Sound(c, f) && ProviderUploaded(c, f, g, p, v, os, arch, bytes)
    ensures var placed := WithPlatform(c, f, p, v, os, arch, bytes);
            && (forall k :: IsNaming(k) ==> (k in g <==> k in placed) && (k in g ==> g[k] == placed[k]))
            && (forall k :: k in g && IsNamed(k) ==> k in placed)
  {
    hide WellNamed, IsChecksumText, Entries, PublishedPlatforms, AddVersion, WithPlatform, ReplacesArtifact,
         ReplacedArtifact, Sound, NamedBy;
    if ReplacesArtifact(c, f, p, v, os, arch, bytes) { ReplacedIsNamed(c, f, p, v, os, arch, bytes); }
  }

  lemma TidyUpload(c: Crypto, f: Files, g: Files, p: Provider, v: string, os: string, arch: string, bytes: Bytes)
    requires Sound(c, f) && NoStrays(f) && ProviderUploaded(c, f, g, p, v, os, arch, bytes)
    requires ReplacesArtifact(c, f, p, v, os, arch, bytes) ==> ReplacedArtifact(f, p, v, os, arch) !in g
    ensures NoStrays(g)
  {
    hide WellNamed, ProviderUploaded;
    var metaKey := ProviderKey(p, v, PlatformJson(PlatformName(os, arch)));
    assert metaKey in f ==> KeyOk(c, metaKey, f[metaKey]);
    UploadLeaves(c, f, g, p, v, os, arch, bytes);
    forall k | k in g && IsNamed(k) ensures Namer(k) in g && NamedBy(Namer(k), g[Namer(k)]) == k {
      assert IsNaming(Namer(k));
    }
  }

  lemma TidyModule(c: Crypto, f: Files, g: Files, m: Module, v: string, bytes: Bytes)
    requires Sound(c, f) && NoStrays(f) && ModuleUploaded(c, f, g, m, v, bytes)
    requires ReplacesArchive(c, f, m, v, bytes) ==> ReplacedArchive(f, m, v) !in g
    ensures NoStrays(g)
  {
    hide WellNamed, AddVersion;
    var metaKey := ModuleKey(m, v, ArtifactJson);
    assert metaKey in f ==> KeyOk(c, metaKey, f[metaKey]);
    forall k | k in g && IsNamed(k) ensures Namer(k) in g && NamedBy(Namer(k), g[Namer(k)]) == k {
      var n := Namer(k);
      assert n == metaKey || (n in f ==> n in g && g[n] == f[n]);
    }
  }

  /** An upload neither adds nor loses the artifact it replaces until it removes it. */
  lemma ReplacedStays(c: Crypto, f: Files, p: Provider, v: string, os: string, arch: string, bytes: Bytes,
                      text: string, sig: Bytes)
    requires Sound(c, f) && ReplacesArtifact(c, f, p, v, os, arch, bytes)
    ensures var gone := ReplacedArtifact(f, p, v, os, arch);
            gone in f <==> gone in Finished(c, f, p, v, os, arch, bytes, text, sig)
  {
    hide WellNamed;
    var k := ProviderKey(p, v, PlatformJson(PlatformName(os, arch)));
    assert KeyOk(c, k, f[k]);
  }

  lemma ReplacedArchiveStays(c: Crypto, f: Files, m: Module, v: string, bytes: Bytes)
    requires Sound(c, f) && ReplacesArchive(c, f, m, v, bytes)
    ensures var gone := ReplacedArchive(f, m, v);
            gone in f <==> gone in WithIndexed(WithModule(c, f, m, v, bytes), ModuleDir(m, v))
  {
    hide WellNamed;
    var k := ModuleKey(m, v, ArtifactJson);
    assert KeyOk(c, k, f[k]);
  }

  // ---- Completeness in between ---------------------------------------------------------------

  lemma ConfinedKeepsComplete(f: Files, g: Files, d: Directory, other: Directory)
    requires Confined(f, g, d) && other != d && CompleteIn(f, other)
    ensures CompleteIn(g, other)
  {
    forall k | k in g && Within(k, other) && IsNaming(k) ensures NamedBy(k, g[k]) in g {
      assert Within(NamedBy(k, f[k]), other);
    }
  }

  lemma StopComplete(c: Crypto, f: Files, g: Files, e: Event)
    requires Sound(c, f) && Stop(c, f, g, e) && (e.Delete? || e.Deprecate?) && CompleteIn(f, DirOf(e))
    ensures CompleteIn(g, DirOf(e))
  {
    hide Sound, Without, Listed;
    if e.Deprecate? && g != f { CompleteLike(c, f, g, e.target); }
  }

  /** The states a request passed through belong to its operation, and are complete where the files
      were before, but for a last one that its undo left incomplete in its own directory. */
  ghost predicate Passed(c: Crypto, f: Files, g: Files, e: Event, undone: bool, states: seq<Files>) {
    && (forall x :: x in states ==> Stop(c, f, x, e))
    && (forall x, d :: x in states && CompleteIn(f, d) ==> CompleteIn(x, d) || (d == DirOf(e) && x == g && !undone))
  }

  lemma PassedThrough(c: Crypto, f: Files, g: Files, e: Event, undone: bool, states: seq<Files>)
    requires forall x :: x in states ==> Stop(c, f, x, e)
    requires forall x :: x in states && CompleteIn(f, DirOf(e)) ==> CompleteIn(x, DirOf(e)) || (x == g && !undone)
    ensures Passed(c, f, g, e, undone, states)
  {
    hide Stop, CompleteIn, Confined;
    forall x, d | x in states && CompleteIn(f, d) ensures CompleteIn(x, d) || (d == DirOf(e) && x == g && !undone) {
      StopConfined(c, f, x, e);
      if d != DirOf(e) { ConfinedKeepsComplete(f, x, DirOf(e), d); }
    }
  }

  // ---- Runs ----------------------------------------------------------------------------------

  /** The directories a run may leave inconsistent: those it found so, and those of requests whose
      undo did not go through, until a later step heals them. */
  ghost function Damaged(c: Crypto, states: seq<Files>, events: seq<Event>, undone: seq<bool>,
                         hurt: set<Directory>): set<Directory>
    requires |states| == |events| + 1 && |undone| == |events|
  {
    if events == [] then hurt
    else
      var n := |events| - 1;
      var before := Damaged(c, states[..n + 1], events[..n], undone[..n], hurt);
      if !undone[n] then before + {DirOf(events[n])}
      else if Heals(c, states[n], states[n + 1], events[n]) then before - {DirOf(events[n])}
      else before
  }

  /** A request that reports success took effect; otherwise no file changed or, if its undo failed,
      at least none outside its directory. */
  ghost predicate Served(c: Crypto, f: Files, g: Files, e: Event, ok: bool, undone: bool) {
    && Routed(e)
    && if ok then undone && TookEffect(c, f, g, e)
       else if undone then g == f
       else Sound(c, g) && Confined(f, g, DirOf(e))
  }

  lemma {:induction false} NoDamage(c: Crypto, states: seq<Files>, events: seq<Event>, undone: seq<bool>)
    requires |states| == |events| + 1 && |undone| == |events| && forall i :: 0 <= i < |undone| ==> undone[i]
    ensures Damaged(c, states, events, undone, {}) == {}
  {
    hide Heals;
    if events != [] {
      var n := |events| - 1;
      NoDamage(c, states[..n + 1], events[..n], undone[..n]);
    }
  }

  /** Damage stays local: whatever undo steps failed in a run, every other directory is consistent
      after each request, and every file that is there is sound. */
  lemma {:induction false} DamageIsLocal(c: Crypto, states: seq<Files>, events: seq<Event>, oks: seq<bool>,
                                         undone: seq<bool>, hurt: set<Directory>)
    requires CryptoOk(c) && |states| == |events| + 1 && |oks| == |undone| == |events|
    requires Sound(c, states[0]) && forall d :: d !in hurt ==> DirSettled(c, states[0], d)
    requires forall i :: 0 <= i < |events| ==> Served(c, states[i], states[i + 1], events[i], oks[i], undone[i])
    ensures Sound(c, states[|events|])
    ensures forall d :: d !in Damaged(c, states, events, undone, hurt) ==> DirSettled(c, states[|events|], d)
  {
    hide DirSettled, Sound, TookEffect, Confined, Routed, Heals;
    if events != [] {
      var n := |events| - 1;
      DamageIsLocal(c, states[..n + 1], events[..n], oks[..n], undone[..n], hurt);
      var f, g, e := states[n], states[n + 1], events[n];
      assert Served(c, f, g, e, oks[n], undone[n]);
      if undone[n] { StepKeepsDir(c, f, g, e); }
      forall d | d !in Damaged(c, states, events, undone, hurt) ensures DirSettled(c, g, d) {
        if d != DirOf(e) { ConfinedKeepsOthers(c, f, g, DirOf(e), d); }
      }
    }
  }

  /** `g` is what the steps `done` leave, taken one after another from `f`. */
  ghost predicate Explains(c: Crypto, f: Files, g: Files, done: seq<Event>)
    decreases |done|
  {
    if done == [] then g == f
    else
      var front, last := done[..|done| - 1], done[|done| - 1];
      exists h :: Explains(c, f, h, front) && TookEffect(c, h, g, last)
  }

  /** The requests that reported success, in order. */
  function Successes(events: seq<Event>, oks: seq<bool>): seq<Event>
    requires |oks| == |events|
  {
    if events == [] then []
    else
      var n := |events| - 1;
      Successes(events[..n], oks[..n]) + if oks[n] then [events[n]] else []
  }

  /** With no failed undo, the files are what the requests that reported success leave, in order. */
  lemma {:induction false} SuccessesExplain(c: Crypto, states: seq<Files>, events: seq<Event>, oks: seq<bool>,
                                            undone: seq<bool>)
    requires |states| == |events| + 1 && |oks| == |undone| == |events| && forall i :: 0 <= i < |undone| ==> undone[i]
    requires forall i :: 0 <= i < |events| ==> Served(c, states[i], states[i + 1], events[i], oks[i], undone[i])
    ensures Explains(c, states[0], states[|events|], Successes(events, oks))
  {
    hide TookEffect, Routed, Confined, Sound;
    if events != [] {
      var n := |events| - 1;
      SuccessesExplain(c, states[..n + 1], events[..n], oks[..n], undone[..n]);
      assert Served(c, states[n], states[n + 1], events[n], oks[n], undone[n]);
      var earlier := Successes(events[..n], oks[..n]);
      assert earlier + [] == earlier;
      if oks[n] { ExplainsNext(c, states[0], states[n], states[n + 1], earlier, events[n]); }
    }
  }

  lemma ExplainsNext(c: Crypto, f: Files, h: Files, g: Files, done: seq<Event>, e: Event)
    requires Explains(c, f, h, done) && TookEffect(c, h, g, e)
    ensures Explains(c, f, g, done + [e])
  {
    hide TookEffect;
    assert (done + [e])[..|done|] == done;
  }

  /** The registry is consistent after every operation of every run from the empty store in which
      requests are atomic. */
  lemma {:induction false} RunIsSettled(c: Crypto, states: seq<Files>, events: seq<Event>)
    requires CryptoOk(c) && |states| == |events| + 1 && states[0] == map[]
    requires forall i :: 0 <= i < |events| ==> Routed(events[i]) && AtomicStep(c, states[i], states[i + 1], events[i])
    ensures forall i :: 0 <= i < |states| ==> Settled(c, states[i])
  {
    hide Settled, AtomicStep, Routed;
    if events == [] {
      EmptySettled(c);
    } else {
      var n := |events| - 1;
      RunIsSettled(c, states[..|states| - 1], events[..n]);
      StepKeepsSettled(c, states[n], states[n + 1], events[n]);
    }
  }
}
