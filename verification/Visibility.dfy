/** From a request to what clients then see: each management request, handled with whatever steps
    failing, against every view asked before and after it. */
module Visibility {
  import opened Options
  import opened Strings
  import opened SemVer
  import opened Precedence
  import opened VersionIndex
  import opened Names
  import opened Registry
  import opened Publication
  import opened Stores
  import opened Handlers
  import opened Reads
  import opened Sums

  // ---- What is shown -------------------------------------------------------------------------

  /** The version has a metadata file that marks it as deprecated. */
  predicate MarkedDeprecated(f: Files, k: Key) {
    k in f && match f[k] case VersionFile(VersionMeta(_, deprecated, _, _)) => deprecated case _ => false
  }

  /** The text ends in `index` or in `metadata`. */
  predicate EndsInReserved(platform: string) {
    || (|platform| >= 5 && platform[|platform| - 5..] == "index")
    || (|platform| >= 8 && platform[|platform| - 8..] == "metadata")
  }

  /** A platform file, not skipped, whose artifact is there. */
  predicate HasPlatform(f: Files, p: Provider, v: string, platform: string) {
    var k := ProviderKey(p, v, PlatformJson(platform));
    k in f && !EndsInReserved(platform) && match f[k]
      case PlatformFile(PlatformMeta(_, _, filename, _)) => ProviderKey(p, v, filename) in f
      case _ => false
  }

  lemma PublishedIs(f: Files, p: Provider, v: string, platform: string)
    ensures platform in PublishedPlatforms(f, p, v) <==> HasPlatform(f, p, v, platform)
  {
    hide Skipped;
    PublishedMember(f, p, v, platform);
    SkippedNames(platform);
  }

  /** A version is shown: listed in the index, with a platform, and not marked as deprecated. */
  ghost predicate IsShown(f: Files, p: Provider, v: string) {
    && v in IndexVersions(f, ProviderIndex(p)) && (exists platform :: HasPlatform(f, p, v, platform))
    && !MarkedDeprecated(f, ProviderKey(p, v, Metadata))
  }

  lemma OfferedIs(f: Files, p: Provider, v: string)
    ensures v in IndexVersions(f, ProviderIndex(p)) && Offered(f, p, v) <==> IsShown(f, p, v)
  {
    hide PublishedPlatforms, HasPlatform;
    if platform :| platform in PublishedPlatforms(f, p, v) { PublishedIs(f, p, v, platform); }
    if platform :| HasPlatform(f, p, v, platform) { PublishedIs(f, p, v, platform); }
  }

  /** The versions list and the mirror index show exactly these versions, the list in ascending order. */
  method ShownVersions(s: Store, p: Provider) returns (versions: seq<string>, mirror: set<string>)
    requires s.Valid()
    ensures forall v :: v in versions <==> IsShown(s.files, p, v)
    ensures forall v :: v in mirror <==> IsShown(s.files, p, v)
    ensures Ascending(versions)
  {
    hide Offered, IsShown, IndexVersions, Sound, CompareSemver, ValidVersion, IndexOk, Ascending;
    var listings := ProviderVersions(s, p);
    var index := MirrorIndex(s, p);
    versions := if listings.Some? then VersionsOf(listings.value) else [];
    mirror := if index.Some? then index.value else {};
    ghost var all := IndexVersions(s.files, ProviderIndex(p));
    IndexSound(s.crypto, s.files, ProviderDir(p, ""));
    OfferedMembers(s.files, p, all);
    IndexAscending(all);
    EmptyIndex();
    IndexAscending([]);
    OfferedAscends(s.files, p, all);
    forall v ensures v in all && Offered(s.files, p, v) <==> IsShown(s.files, p, v) { OfferedIs(s.files, p, v); }
  }

  /** Distinct versions in the order of precedence. */
  ghost predicate Ascending(versions: seq<string>) {
    forall i, j :: 0 <= i < j < |versions| ==>
      versions[i] != versions[j] && CompareSemver(versions[i], versions[j]) <= 0
  }

  lemma IndexAscending(versions: seq<string>)
    requires IndexOk(versions)
    ensures Ascending(versions)
  {
    hide ValidVersion, CompareSemver;
  }

  lemma {:induction false} OfferedAscends(f: Files, p: Provider, versions: seq<string>)
    requires Ascending(versions)
    ensures Ascending(OfferedOf(f, p, versions))
  {
    hide Offered, CompareSemver;
    if versions != [] {
      var n := |versions| - 1;
      OfferedAscends(f, p, versions[..n]);
      OfferedMembers(f, p, versions[..n]);
      forall x | x in OfferedOf(f, p, versions[..n]) ensures x != versions[n] && CompareSemver(x, versions[n]) <= 0 {
        var i :| 0 <= i < n && versions[i] == x;
      }
    }
  }

  // ---- What a request changes for clients ----------------------------------------------------

  lemma Elsewhere(f: Files, g: Files, p: Provider, v: string, w: string)
    requires Confined(f, g, ProviderDir(p, v)) && w != v
    ensures IsShown(f, p, w) <==> IsShown(g, p, w)
  {
    forall platform ensures HasPlatform(f, p, w, platform) <==> HasPlatform(g, p, w, platform) {
      assert !Within(ProviderKey(p, w, PlatformJson(platform)), ProviderDir(p, v));
      assert forall file :: !Within(ProviderKey(p, w, file), ProviderDir(p, v));
    }
    assert !Within(ProviderKey(p, w, Metadata), ProviderDir(p, v));
  }

  /** Up to checksums, signature and the replaced artifact, an upload leaves what its first two writes did. */
  lemma UploadedFiles(c: Crypto, f: Files, g: Files, p: Provider, v: string, os: string, arch: string, bytes: Bytes,
                      file: ProviderFile)
    requires ProviderUploaded(c, f, g, p, v, os, arch, bytes) && !file.Checksums? && !file.Signature?
    ensures var placed, k := WithPlatform(c, f, p, v, os, arch, bytes), ProviderKey(p, v, file);
            || ((k in g <==> k in placed) && (k in g ==> g[k] == placed[k]))
            || (ReplacesArtifact(c, f, p, v, os, arch, bytes) && k == ReplacedArtifact(f, p, v, os, arch))
  {
    hide IsChecksumText, PublishedPlatforms, Entries, AddVersion, WithPlatform, ReplacedArtifact, ReplacesArtifact;
  }

  lemma ReplacedIs(c: Crypto, f: Files, p: Provider, v: string, os: string, arch: string, bytes: Bytes)
    requires Sound(c, f) && ReplacesArtifact(c, f, p, v, os, arch, bytes)
    ensures var r := ReplacedArtifact(f, p, v, os, arch);
            && r.ProviderKey? && r.file.Artifact? && r.file.platform == PlatformName(os, arch)
            && r.file != MetaFor(c, os, arch, bytes).filename
  {
    hide WellNamed;
    var k := ProviderKey(p, v, PlatformJson(PlatformName(os, arch)));
    assert KeyOk(c, k, f[k]);
  }

  /** An upload adds its platform, unless that is hidden, and leaves every other platform as it was. */
  lemma UploadAddsPlatform(c: Crypto, f: Files, g: Files, p: Provider, v: string, os: string, arch: string,
                           bytes: Bytes, platform: string)
    requires Sound(c, f) && ProviderUploaded(c, f, g, p, v, os, arch, bytes)
    ensures HasPlatform(g, p, v, platform) <==>
              if platform == PlatformName(os, arch) then !EndsInReserved(platform) else HasPlatform(f, p, v, platform)
    ensures var k := ProviderKey(p, v, PlatformJson(platform));
            platform != PlatformName(os, arch) && HasPlatform(f, p, v, platform) ==> k in g && g[k] == f[k]
    ensures MarkedDeprecated(f, ProviderKey(p, v, Metadata)) <==> MarkedDeprecated(g, ProviderKey(p, v, Metadata))
  {
    hide ProviderUploaded, WellNamed, EndsInReserved, ReplacedArtifact, ReplacesArtifact;
    var k := ProviderKey(p, v, PlatformJson(platform));
    assert k in f ==> KeyOk(c, k, f[k]);
    if ReplacesArtifact(c, f, p, v, os, arch, bytes) { ReplacedIs(c, f, p, v, os, arch, bytes); }
    UploadedFiles(c, f, g, p, v, os, arch, bytes, PlatformJson(platform));
    UploadedFiles(c, f, g, p, v, os, arch, bytes, Metadata);
    UploadedFiles(c, f, g, p, v, os, arch, bytes, MetaFor(c, os, arch, bytes).filename);
    if k in f && f[k].PlatformFile? { UploadedFiles(c, f, g, p, v, os, arch, bytes, f[k].platform.filename); }
  }

  lemma RequestElsewhere(c: Crypto, f: Files, g: Files, e: Event, ok: bool, undone: bool)
    requires CryptoOk(c) && Sound(c, f) && Served(c, f, g, e, ok, undone)
    ensures Confined(f, g, DirOf(e))
  {
    hide Sound, TookEffect, Confined, Routed, CryptoOk;
    if ok {
      StepKeepsDir(c, f, g, e);
    } else if undone {
      ConfinedSame(f, DirOf(e));
    }
  }

  /** A delete or a deprecation takes the version out of sight. */
  lemma Gone(f: Files, g: Files, e: Event, p: Provider, v: string)
    requires DirOf(e) == ProviderDir(p, v) && (e.Delete? || e.Deprecate?)
    requires if e.Delete? then Deleted(f, g, e.target) else Deprecated(f, g, e.target, e.message)
    ensures !IsShown(g, p, v)
  {
    hide HasPlatform;
    if e.Delete? { AfterDelete(f, g, e.target); }
  }

  /** An effective upload shows its version unless that is deprecated. */
  lemma ShownAfterUpload(c: Crypto, f: Files, g: Files, p: Provider, v: string, os: string, arch: string, bytes: Bytes)
    requires CryptoOk(c) && Sound(c, f) && WellNamedDir(ProviderDir(p, v)) && ValidArtifactName(os) &&
             ValidArtifactName(arch)
    requires ProviderUploaded(c, f, g, p, v, os, arch, bytes)
    ensures IsShown(g, p, v) <==> !MarkedDeprecated(f, ProviderKey(p, v, Metadata))
  {
    hide Sound, WellNamedDir, ValidArtifactName, ProviderUploaded, HasPlatform, MarkedDeprecated, PublishedPlatforms,
         CompleteIn, Confined, Signed, CryptoOk;
    ProviderUploadRenews(c, f, g, p, v, os, arch, bytes);
    UploadAddsPlatform(c, f, g, p, v, os, arch, bytes, PlatformName(os, arch));
    var platform :| platform in PublishedPlatforms(g, p, v);
    PublishedIs(g, p, v, platform);
  }

  /** Any management request on a version of a provider, whichever of its steps fail. The other versions
      are shown exactly if they were before. If the request reports success, the version itself is shown
      by every view or by none: by none after a delete or a deprecation, and after an upload by all,
      unless the version was deprecated before. */
  method ChangeThenList(s: Store, e: Event, p: Provider, v: string)
    returns (status: Status, before: seq<string>, versions: seq<string>, mirror: set<string>, offered: bool)
    requires s.Valid() && Routed(e) && DirOf(e) == ProviderDir(p, v)
    modifies s
    ensures s.Valid() && Ascending(versions) && forall w :: w in mirror <==> w in versions
    ensures forall w :: w != v ==> (w in versions <==> w in before)
    ensures offered <==> v in versions
    ensures status.Done? || status.CleanupFailed? ==>
              (v in versions <==>
               e.UploadProvider? && !MarkedDeprecated(old(s.files), ProviderKey(p, v, Metadata)))
  {
    hide IsShown, Ascending, Sound, TookEffect, Served, Routed, MarkedDeprecated, Passed, Tidy, Works, Confined;
    var ignored, document;
    ghost var r, f := *, s.files;
    before, ignored := ShownVersions(s, p);
    status, r := Handlers.Handle(s, e);
    RequestElsewhere(s.crypto, f, s.files, e, Success(status), r.undone);
    versions, mirror := ShownVersions(s, p);
    document := MirrorVersion(s, p, v);
    offered := document.Some?;
    OfferedIs(s.files, p, v);
    forall w | w != v ensures w in versions <==> w in before { Elsewhere(f, s.files, p, v, w); }
    if status.Done? || status.CleanupFailed? {
      ChangeShows(s.crypto, f, s.files, e, p, v, r.undone);
    }
  }

  lemma ChangeShows(c: Crypto, f: Files, g: Files, e: Event, p: Provider, v: string, undone: bool)
    requires CryptoOk(c) && Sound(c, f) && Served(c, f, g, e, true, undone) && DirOf(e) == ProviderDir(p, v)
    ensures IsShown(g, p, v) <==> e.UploadProvider? && !MarkedDeprecated(f, ProviderKey(p, v, Metadata))
  {
    hide Sound, WellNamedDir, ValidArtifactName, ProviderUploaded, ModuleUploaded, Deleted, Deprecated, IsShown,
         MarkedDeprecated, CryptoOk;
    match e
    case UploadProvider(_, _, os, arch, bytes) => ShownAfterUpload(c, f, g, p, v, os, arch, bytes);
    case UploadModule(_, _, _) =>
    case Delete(_) => Gone(f, g, e, p, v);
    case Deprecate(_, _) => Gone(f, g, e, p, v);
  }

  // ---- What a client downloads ---------------------------------------------------------------

  /** The bytes stored under a name that existed before are the bytes it had. */
  lemma ArtifactKept(c: Crypto, f: Files, g: Files, p: Provider, v: string, os: string, arch: string, bytes: Bytes)
    requires Sound(c, f) && ProviderUploaded(c, f, g, p, v, os, arch, bytes)
    ensures var k := ProviderKey(p, v, Artifact(PlatformName(os, arch), c.hash(bytes)));
            k in g && g[k] == if k in f then f[k] else Blob(bytes)
  {
    hide ProviderUploaded, WellNamed, ReplacedArtifact, ReplacesArtifact;
    if ReplacesArtifact(c, f, p, v, os, arch, bytes) { ReplacedIs(c, f, p, v, os, arch, bytes); }
    UploadedFiles(c, f, g, p, v, os, arch, bytes, MetaFor(c, os, arch, bytes).filename);
  }

  /** A client's check: SHA256SUMS, whose signature verifies, has a line that gives the digest of this
      platform's zip, by the name the zip is served under, and the zip has that digest. */
  ghost predicate ClientAccepts(c: Crypto, f: Files, p: Provider, v: string, platform: string, d: Download) {
    && d.sums in f && f[d.sums].SumsFile? && d.signature in f && f[d.signature].SignatureFile?
    && c.verifies(f[d.sums].text, f[d.signature].signature)
    && exists line :: line in Split(f[d.sums].text, '\n') && |line| > 66 && LineAccepts(c, f, p, v, platform, d, line)
  }

  ghost predicate LineAccepts(c: Crypto, f: Files, p: Provider, v: string, platform: string, d: Download, line: string)
    requires |line| > 66
  {
    && line[..64] == d.shasum && line[64..66] == "  "
    && line[66..] == "terraform-provider-" + p.name + "_" + v + "_" + platform + "_" + d.shasum + ".zip"
    && d.url in f && f[d.url].Blob? && c.hash(f[d.url].bytes) == d.shasum
  }

  lemma HasLineAccepts(c: Crypto, f: Files, p: Provider, v: string, platform: string, d: Download)
    requires d.sums in f && f[d.sums].SumsFile? && d.signature in f && f[d.signature].SignatureFile?
    requires c.verifies(f[d.sums].text, f[d.signature].signature)
    requires ReadsBack(c, f, p, v, f[d.sums].text) && HasPlatform(f, p, v, platform)
    requires var k := ProviderKey(p, v, PlatformJson(platform));
             k in f && f[k].PlatformFile? && d.shasum == f[k].platform.shasum &&
               d.url == ProviderKey(p, v, f[k].platform.filename) &&
               f[k].platform.filename == Artifact(platform, d.shasum)
    ensures ClientAccepts(c, f, p, v, platform, d)
  {
    hide Split, PublishedPlatforms, InOrder, HasPlatform;
    PublishedIs(f, p, v, platform);
    var lines :| Split(f[d.sums].text, '\n') == lines + [""] && LinesFor(c, f, p, v, lines);
    assert HasLine(c, f, p, v, lines, platform);
    var line :| line in lines && LineFor(c, f, p, v, line, platform);
    assert line in Split(f[d.sums].text, '\n') && LineAccepts(c, f, p, v, platform, d, line);
  }

  /** A line that a client accepts for a platform is the line of that platform. */
  lemma AcceptedHasPlatform(c: Crypto, f: Files, p: Provider, v: string, platform: string, d: Download)
    requires d.sums in f && f[d.sums].SumsFile? && ReadsBack(c, f, p, v, f[d.sums].text) && IsShasum(d.shasum)
    requires ClientAccepts(c, f, p, v, platform, d)
    ensures HasPlatform(f, p, v, platform)
  {
    hide Split, InOrder, HasPlatform, PublishedPlatforms, IsShasum, ProviderFileText;
    var lines :| Split(f[d.sums].text, '\n') == lines + [""] && LinesFor(c, f, p, v, lines);
    var line :| line in Split(f[d.sums].text, '\n') && |line| > 66 && LineAccepts(c, f, p, v, platform, d, line);
    assert line in lines && IsLine(c, f, p, v, line);
    var q :| LineFor(c, f, p, v, line, q);
    PublishedMember(f, p, v, q);
    PublishedIs(f, p, v, q);
    SameArtifactText(p.name, v, q, platform, d.shasum);
  }

  lemma SameArtifactText(name: string, v: string, a: string, b: string, shasum: string)
    requires IsShasum(shasum)
    requires "terraform-provider-" + name + "_" + v + "_" + a + "_" + shasum + ".zip" ==
             "terraform-provider-" + name + "_" + v + "_" + b + "_" + shasum + ".zip"
    ensures a == b
  {
    hide IsShasum;
    ArtifactTextInjective(name, v, Artifact(a, shasum), Artifact(b, shasum));
  }

  /** Between operations a client can download and check every platform that is shown. */
  method DownloadPublished(s: Store, p: Provider, v: string, os: string, arch: string) returns (r: DownloadResult)
    requires s.Valid() && Settled(s.crypto, s.files)
    ensures HasPlatform(s.files, p, v, PlatformName(os, arch)) ==>
              r.Ready? && ClientAccepts(s.crypto, s.files, p, v, PlatformName(os, arch), r.download)
  {
    hide ReadsBack, PublishedPlatforms, Settled, WellNamed, ClientAccepts, HasPlatform, PlatformName, IsShasum,
         CryptoOk;
    ghost var platform := PlatformName(os, arch);
    r := ProviderDownload(s, true, p, v, os, arch);
    if HasPlatform(s.files, p, v, platform) {
      PublishedIs(s.files, p, v, platform);
      PublishedMember(s.files, p, v, platform);
      StoredSumsReadBack(s.crypto, s.files, p, v);
      ghost var k := ProviderKey(p, v, PlatformJson(platform));
      assert KeyOk(s.crypto, k, s.files[k]);
      HasLineAccepts(s.crypto, s.files, p, v, platform, r.download);
    }
  }

  /** From upload to download, whatever was there before. If the upload reports success, the platform's
      download is ready and serves the uploaded bytes, or those already stored under their digest. It
      passes a client's check exactly when the platform's name does not end in `index` or `metadata`. */
  method UploadThenDownload(s: Store, p: Provider, v: string, os: string, arch: string, bytes: Bytes)
    returns (status: Status, r: DownloadResult)
    requires s.Valid() && WellNamedDir(ProviderDir(p, v)) && ValidArtifactName(os) && ValidArtifactName(arch)
    modifies s
    ensures s.Valid()
    ensures status.Done? ==>
              var zip := ProviderKey(p, v, Artifact(PlatformName(os, arch), s.crypto.hash(bytes)));
              && r == Ready(Download(zip, ProviderKey(p, v, Checksums), ProviderKey(p, v, Signature),
                                     s.crypto.hash(bytes)))
              && zip in s.files && s.files[zip] == (if zip in old(s.files) then old(s.files)[zip] else Blob(bytes))
              && (ClientAccepts(s.crypto, s.files, p, v, PlatformName(os, arch), r.download) <==>
                  !EndsInReserved(PlatformName(os, arch)))
  {
    hide ReadsBack, PublishedPlatforms, WellNamed, ClientAccepts, HasPlatform, PlatformName, IsShasum, ProviderUploaded,
         Outcome, Phase, Removal, WellNamedDir, ValidArtifactName, Renewed, Sound, EndsInReserved;
    ghost var f, platform, undoFrom, added := s.files, PlatformName(os, arch), 0, [];
    status, undoFrom, added := Handlers.UploadProvider(s, p, v, os, arch, Accepted(bytes));
    r := ProviderDownload(s, true, p, v, os, arch);
    if status.Done? {
      UploadIsListed(s.crypto, f, s.files, p, v, os, arch, bytes);
      ProviderUploadRenews(s.crypto, f, s.files, p, v, os, arch, bytes);
      ArtifactKept(s.crypto, f, s.files, p, v, os, arch, bytes);
      UploadAddsPlatform(s.crypto, f, s.files, p, v, os, arch, bytes, platform);
      RenewedSums(s.crypto, f, s.files, p, v);
      if HasPlatform(s.files, p, v, platform) {
        HasLineAccepts(s.crypto, s.files, p, v, platform, r.download);
      }
      if ClientAccepts(s.crypto, s.files, p, v, platform, r.download) {
        AcceptedHasPlatform(s.crypto, s.files, p, v, platform, r.download);
      }
    }
  }

  lemma RenewedSums(c: Crypto, f: Files, g: Files, p: Provider, v: string)
    requires CryptoOk(c) && Renewed(c, f, g, ProviderDir(p, v))
    ensures var sums, sig := ProviderKey(p, v, Checksums), ProviderKey(p, v, Signature);
            && sums in g && g[sums].SumsFile? && ReadsBack(c, g, p, v, g[sums].text)
            && sig in g && g[sig].SignatureFile? && c.verifies(g[sums].text, g[sig].signature)
  {
    hide ReadsBack, IsChecksumText, PublishedPlatforms, Entries, Sound, CryptoOk;
    ChecksumsReadBack(c, g, p, v, g[ProviderKey(p, v, Checksums)].text);
  }

  /** After a delete that reports success nothing of the version can be downloaded. */
  method DeleteThenDownload(s: Store, p: Provider, v: string, os: string, arch: string)
    returns (status: Status, r: DownloadResult)
    requires s.Valid() && WellNamedDir(ProviderDir(p, v))
    modifies s
    ensures s.Valid() && (status.Done? || status.CleanupFailed? ==> r.Missing?)
  {
    hide Sound, WellNamedDir, HasFiles, IndexVersions, Without;
    ghost var f, added := s.files, [];
    status, added := Handlers.DeleteVersion(s, ProviderDir(p, v));
    r := ProviderDownload(s, true, p, v, os, arch);
  }

  /** What a deprecation records. The version's other fields are kept, and every other file. */
  method RecordDeprecation(s: Store, d: Directory, message: string) returns (status: Status)
    requires s.Valid() && WellNamedDir(d)
    modifies s
    ensures s.Valid() && (status.Done? ==> VersionOf(d) in IndexVersions(old(s.files), IndexKey(d)))
    ensures status.Done? ==>
              && MetadataKey(d) in s.files && s.files[MetadataKey(d)].VersionFile?
              && var meta := s.files[MetadataKey(d)].meta;
                 && meta.version == VersionOf(d) && meta.deprecated && meta.message == message
                 && (MetadataKey(d) in old(s.files) && old(s.files)[MetadataKey(d)].VersionFile? ==>
                       meta.rest == old(s.files)[MetadataKey(d)].meta.rest)
    ensures if status.Done? then SameExcept(old(s.files), s.files, {MetadataKey(d)}) else s.files == old(s.files)
  {
    hide Sound, WellNamedDir;
    ghost var added;
    status, added := Handlers.DeprecateVersion(s, d, message);
  }

  // ---- Modules -------------------------------------------------------------------------------

  /** moduleDownloadHandler resolves a version without asking whether it is deprecated. */
  method ModuleDownload(s: Store, m: Module, v: string) returns (r: Option<Key>)
    requires s.Valid()
    ensures r.Some? ==> r.value in s.files && r.value.ModuleKey? && r.value.m == m && r.value.version == v
    ensures r == Some(ModuleKey(m, v, LegacyArchive)) <==>
              ModuleKey(m, v, ArtifactJson) !in s.files && ModuleKey(m, v, LegacyArchive) in s.files
    ensures ModuleKey(m, v, ArtifactJson) in s.files ==>
              s.files[ModuleKey(m, v, ArtifactJson)].ModuleMetaFile? &&
              var meta := s.files[ModuleKey(m, v, ArtifactJson)].archive;
              (CompleteIn(s.files, ModuleDir(m, v)) ==> r == Some(ModuleKey(m, v, Archive(meta.shasum)))) &&
              (r.Some? ==> r == Some(ModuleKey(m, v, Archive(meta.shasum))) && s.files[r.value].Blob? &&
                           s.crypto.hash(s.files[r.value].bytes) == meta.shasum)
  {
    hide WellNamed;
    r := ModuleArtifact(s.files, m, v);
    ghost var k := ModuleKey(m, v, ArtifactJson);
    if k in s.files {
      assert KeyOk(s.crypto, k, s.files[k]) && Within(k, ModuleDir(m, v)) && IsNaming(k);
      if r.Some? { assert KeyOk(s.crypto, r.value, s.files[r.value]); }
    }
  }

  lemma ModuleUploadResolves(c: Crypto, f: Files, g: Files, m: Module, v: string, bytes: Bytes)
    requires Sound(c, f) && ModuleUploaded(c, f, g, m, v, bytes)
    ensures ModuleArtifact(g, m, v) == Some(ModuleKey(m, v, Archive(c.hash(bytes))))
    ensures var k := ModuleKey(m, v, Archive(c.hash(bytes))); k in g && g[k] == if k in f then f[k] else Blob(bytes)
    ensures MarkedDeprecated(g, ModuleKey(m, v, ModuleMetadata)) <==>
            MarkedDeprecated(f, ModuleKey(m, v, ModuleMetadata))
  {
    hide WellNamed, AddVersion;
    var k := ModuleKey(m, v, ArtifactJson);
    assert k in f ==> KeyOk(c, k, f[k]);
  }

  lemma ModulesElsewhere(f: Files, g: Files, m: Module, v: string, w: string)
    requires Confined(f, g, ModuleDir(m, v)) && w != v
    ensures w in IndexVersions(f, ModuleIndex(m)) <==> w in IndexVersions(g, ModuleIndex(m))
    ensures ModuleArtifact(f, m, w) == ModuleArtifact(g, m, w)
  {
    assert forall part :: !Within(ModuleKey(m, w, part), ModuleDir(m, v));
  }

  lemma ModuleGone(c: Crypto, f: Files, g: Files, e: Event, m: Module, v: string)
    requires DirOf(e) == ModuleDir(m, v) && (e.Delete? || e.Deprecate?)
    requires if e.Delete? then Deleted(f, g, e.target) else Deprecated(f, g, e.target, e.message)
    ensures !(v in IndexVersions(g, ModuleIndex(m)) && Downloadable(g, m, v))
    ensures e.Delete? ==> ModuleArtifact(g, m, v) == None
    ensures e.Deprecate? ==> ModuleArtifact(g, m, v) == ModuleArtifact(f, m, v)
  {
    if e.Delete? {
      AfterDelete(f, g, e.target);
      assert forall part :: Within(ModuleKey(m, v, part), ModuleDir(m, v));
    }
  }

  /** Any management request on a version of a module, whichever of its steps fail. The other versions
      resolve as before. If the request reports success: an uploaded version resolves to the archive of
      the uploaded bytes, and the latest version is it or one of greater precedence unless it was
      deprecated before; a deleted version does not resolve; a deleted or deprecated version is never
      the latest. */
  method ChangeThenLatest(s: Store, e: Event, m: Module, v: string)
    returns (status: Status, r: Option<Key>, latest: Option<(string, Key)>)
    requires s.Valid() && Routed(e) && DirOf(e) == ModuleDir(m, v)
    modifies s
    ensures s.Valid()
    ensures latest.Some? ==>
              && latest.value.0 in IndexVersions(s.files, ModuleIndex(m))
              && !MarkedDeprecated(s.files, ModuleKey(m, latest.value.0, ModuleMetadata))
    ensures forall w :: w != v ==>
              && ModuleArtifact(s.files, m, w) == ModuleArtifact(old(s.files), m, w)
              && (w in IndexVersions(s.files, ModuleIndex(m)) <==> w in IndexVersions(old(s.files), ModuleIndex(m)))
    ensures Success(status) && e.UploadModule? ==>
              && r == Some(ModuleKey(m, v, Archive(s.crypto.hash(e.bytes)))) && r.value in s.files
              && s.files[r.value] == (if r.value in old(s.files) then old(s.files)[r.value] else Blob(e.bytes))
              && if MarkedDeprecated(old(s.files), ModuleKey(m, v, ModuleMetadata))
                 then latest.Some? ==> latest.value.0 != v
                 else latest.Some? && CompareSemver(v, latest.value.0) <= 0 &&
                        (latest.value.0 == v ==> latest.value.1 == r.value)
    ensures Success(status) && !e.UploadModule? ==> latest.Some? ==> latest.value.0 != v
    ensures Success(status) && e.Delete? ==> r.None?
    ensures Success(status) && e.Deprecate? ==> r == ModuleArtifact(old(s.files), m, v)
  {
    hide Sound, TookEffect, Served, Routed, Passed, Tidy, Works, Confined, ModuleArtifact, CompareSemver,
         CompleteIn, IndexVersions, MarkedDeprecated;
    ghost var f := s.files;
    ghost var reply;
    status, reply := Handlers.Handle(s, e);
    RequestElsewhere(s.crypto, f, s.files, e, Success(status), reply.undone);
    forall w | w != v
      ensures ModuleArtifact(s.files, m, w) == ModuleArtifact(f, m, w)
      ensures w in IndexVersions(s.files, ModuleIndex(m)) <==> w in IndexVersions(f, ModuleIndex(m))
    {
      ModulesElsewhere(f, s.files, m, v, w);
    }
    if Success(status) { ChangeResolves(s.crypto, f, s.files, e, m, v, reply.undone); }
    r := ModuleArtifact(s.files, m, v);
    latest := LatestModule(s, m);
    if latest.Some? { DownloadableIs(s.files, m, latest.value.0); }
    DownloadableIs(s.files, m, v);
  }

  lemma DownloadableIs(f: Files, m: Module, v: string)
    ensures Downloadable(f, m, v) <==>
            !MarkedDeprecated(f, ModuleKey(m, v, ModuleMetadata)) && ModuleArtifact(f, m, v).Some?
  {
    hide ModuleArtifact;
  }

  lemma ChangeResolves(c: Crypto, f: Files, g: Files, e: Event, m: Module, v: string, undone: bool)
    requires CryptoOk(c) && Sound(c, f) && Served(c, f, g, e, true, undone) && DirOf(e) == ModuleDir(m, v)
    ensures e.UploadModule? ==>
              && v in IndexVersions(g, ModuleIndex(m))
              && ModuleArtifact(g, m, v) == Some(ModuleKey(m, v, Archive(c.hash(e.bytes))))
              && (var k := ModuleKey(m, v, Archive(c.hash(e.bytes)));
                  k in g && g[k] == if k in f then f[k] else Blob(e.bytes))
              && (MarkedDeprecated(g, ModuleKey(m, v, ModuleMetadata)) <==>
                  MarkedDeprecated(f, ModuleKey(m, v, ModuleMetadata)))
    ensures !e.UploadModule? ==> !(v in IndexVersions(g, ModuleIndex(m)) && Downloadable(g, m, v))
    ensures e.Delete? ==> ModuleArtifact(g, m, v) == None
    ensures e.Deprecate? ==> ModuleArtifact(g, m, v) == ModuleArtifact(f, m, v)
  {
    hide Sound, WellNamedDir, ProviderUploaded, ModuleUploaded, Deleted, Deprecated, MarkedDeprecated, CryptoOk,
         Downloadable, ModuleArtifact, Confined, CompleteIn, Signed;
    match e
    case UploadModule(_, _, bytes) =>
      ModuleUploadResolves(c, f, g, m, v, bytes);
      ModuleUploadRenews(c, f, g, m, v, bytes);
    case UploadProvider(_, _, _, _, _) =>
    case Delete(_) => ModuleGone(c, f, g, e, m, v);
    case Deprecate(_, _) => ModuleGone(c, f, g, e, m, v);
  }
}
