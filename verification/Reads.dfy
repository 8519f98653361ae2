/** The read side: what clients are shown of the published state. */
module Reads {
  import opened Options
  import opened Strings
  import opened SemVer
  import opened Precedence
  import opened StableSort
  import opened VersionIndex
  import opened Names
  import opened Registry
  import opened Publication
  import opened Stores
  import opened Handlers

  predicate IsDeprecated(f: Files, k: Key) { k in f && f[k].VersionFile? && f[k].meta.deprecated }

  /** A version clients are offered: not deprecated, and with a published platform. */
  predicate Offered(f: Files, p: Provider, v: string) {
    !IsDeprecated(f, ProviderKey(p, v, Metadata)) && PublishedPlatforms(f, p, v) != {}
  }

  function OfferedOf(f: Files, p: Provider, versions: seq<string>): seq<string> {
    if versions == [] then []
    else OfferedOf(f, p, versions[..|versions| - 1]) +
         if Offered(f, p, versions[|versions| - 1]) then [versions[|versions| - 1]] else []
  }

  /** `platforms` holds the metadata of exactly the published platforms, each once. */
  ghost predicate IsPublishedList(f: Files, p: Provider, v: string, platforms: seq<PlatformMeta>) {
    && (forall meta :: meta in platforms ==> PlatformListed(f, p, v, meta) && ProviderKey(p, v, meta.filename) in f)
    && (forall platform :: platform in PublishedPlatforms(f, p, v) ==>
          (f[ProviderKey(p, v, PlatformJson(platform))].PlatformFile? &&
           f[ProviderKey(p, v, PlatformJson(platform))].platform in platforms))
    && Distinct(platforms)
  }

  datatype VersionListing = VersionListing(version: string, platforms: seq<PlatformMeta>)

  /** The compaction of platforms[:0]: published entries move to the front, in order. */
  method KeepPublished(s: Store, p: Provider, v: string, a: array<PlatformMeta>) returns (n: nat)
    modifies a
    ensures n <= a.Length && a[..n] == PublishedOf(s.files, p, v, old(a[..]))
  {
    ghost var all := a[..];
    n := 0;
    for i := 0 to a.Length
      invariant n <= i && a[..n] == PublishedOf(s.files, p, v, all[..i]) && a[i..] == all[i..]
    {
      assert all[..i + 1][..i] == all[..i] && a[i] == a[i..][0] == all[i..][0];
      assert a[i + 1..] == a[i..][1..] == all[i + 1..];
      ghost var kept, rest := a[..n], a[i + 1..];
      if s.Exists(ProviderKey(p, v, a[i].filename)) {
        a[n] := a[i];
        n := n + 1;
        assert a[..n] == kept + [all[i]] && a[i + 1..] == rest;
      }
    }
    assert all[..a.Length] == all;
  }

  function PublishedOf(f: Files, p: Provider, v: string, platforms: seq<PlatformMeta>): seq<PlatformMeta> {
    if platforms == [] then []
    else PublishedOf(f, p, v, platforms[..|platforms| - 1]) +
         if ProviderKey(p, v, platforms[|platforms| - 1].filename) in f then [platforms[|platforms| - 1]] else []
  }

  lemma {:induction false} PublishedOfMembers(f: Files, p: Provider, v: string, platforms: seq<PlatformMeta>)
    ensures forall meta :: meta in PublishedOf(f, p, v, platforms) <==>
              meta in platforms && ProviderKey(p, v, meta.filename) in f
    ensures Distinct(platforms) ==> Distinct(PublishedOf(f, p, v, platforms))
  {
    if platforms != [] {
      PublishedOfMembers(f, p, v, platforms[..|platforms| - 1]);
      assert platforms == platforms[..|platforms| - 1] + [platforms[|platforms| - 1]];
    }
  }

  lemma PublishedListFrom(c: Crypto, f: Files, p: Provider, v: string, platforms: seq<PlatformMeta>)
    requires Sound(c, f) && ListsPlatforms(f, p, v, platforms)
    ensures IsPublishedList(f, p, v, PublishedOf(f, p, v, platforms))
    ensures PublishedOf(f, p, v, platforms) == [] <==> PublishedPlatforms(f, p, v) == {}
  {
    hide Skipped, KeyOk, WellNamed;
    var r := PublishedOf(f, p, v, platforms);
    PublishedOfMembers(f, p, v, platforms);
    forall platform ensures platform in PublishedPlatforms(f, p, v) <==> IsPublished(f, p, v, platform) {
      PublishedMember(f, p, v, platform);
    }
    if r != [] {
      assert r[0] in r && PlatformListed(f, p, v, r[0]);
      assert PlatformName(r[0].os, r[0].arch) in PublishedPlatforms(f, p, v);
    }
    if platform :| platform in PublishedPlatforms(f, p, v) {
      assert f[ProviderKey(p, v, PlatformJson(platform))].platform in r;
    }
  }

  method PublishedList(s: Store, p: Provider, v: string) returns (platforms: seq<PlatformMeta>)
    requires s.Valid()
    ensures IsPublishedList(s.files, p, v, platforms) && (platforms == [] <==> PublishedPlatforms(s.files, p, v) == {})
  {
    var listed := s.GetProviderPlatforms(p, v);
    var a := new PlatformMeta[|listed|](i requires 0 <= i < |listed| => listed[i]);
    assert a[..] == listed;
    var n := KeepPublished(s, p, v, a);
    PublishedListFrom(s.crypto, s.files, p, v, listed);
    return a[..n];
  }

  function VersionsOf(listings: seq<VersionListing>): seq<string> {
    seq(|listings|, i requires 0 <= i < |listings| => listings[i].version)
  }

  /** providerVersionsHandler: the offered versions in index order, or nothing to show. */
  method ProviderVersions(s: Store, p: Provider) returns (r: Option<seq<VersionListing>>)
    requires s.Valid()
    ensures r.None? <==> forall v :: v in IndexVersions(s.files, ProviderIndex(p)) ==> !Offered(s.files, p, v)
    ensures r.Some? ==> VersionsOf(r.value) == OfferedOf(s.files, p, IndexVersions(s.files, ProviderIndex(p)))
    ensures r.Some? ==> forall i :: 0 <= i < |r.value| ==>
              IsPublishedList(s.files, p, r.value[i].version, r.value[i].platforms)
  {
    hide PublishedPlatforms, IsPublishedList, IndexOk, IndexVersions, Sound, OfferedOf, SortVersions, IsDeprecated,
         CryptoOk;
    var index := s.GetIndex(ProviderIndex(p));
    if index.None? { return None; }
    var listings: seq<VersionListing> := [];
    var versions := index.value;
    OfferedNone(s.files, p, versions);
    for i := 0 to |versions|
      invariant VersionsOf(listings) == OfferedOf(s.files, p, versions[..i])
      invariant forall j :: 0 <= j < |listings| ==>
                  IsPublishedList(s.files, p, listings[j].version, listings[j].platforms)
    {
      var v := versions[i];
      OfferedNext(s.files, p, versions, i);
      if IsDeprecated(s.files, ProviderKey(p, v, Metadata)) { continue; }
      var published := PublishedList(s, p, v);
      if |published| == 0 { continue; }
      ghost var shorter := listings;
      listings := listings + [VersionListing(v, published)];
      assert VersionsOf(listings) == VersionsOf(shorter) + [v];
    }
    assert versions[..|versions|] == versions;
    OfferedMembers(s.files, p, versions);
    if |listings| == 0 {
      assert VersionsOf(listings) == [];
      return None;
    }
    assert VersionsOf(listings)[0] in OfferedOf(s.files, p, versions);
    return Some(listings);
  }

  lemma {:induction false} OfferedMembers(f: Files, p: Provider, versions: seq<string>)
    ensures forall v :: v in OfferedOf(f, p, versions) <==> v in versions && Offered(f, p, v)
  {
    hide Offered;
    if versions != [] {
      OfferedMembers(f, p, versions[..|versions| - 1]);
      assert versions == versions[..|versions| - 1] + [versions[|versions| - 1]];
    }
  }

  lemma OfferedNext(f: Files, p: Provider, versions: seq<string>, i: nat)
    requires i < |versions|
    ensures OfferedOf(f, p, versions[..i + 1]) ==
            OfferedOf(f, p, versions[..i]) + if Offered(f, p, versions[i]) then [versions[i]] else []
  {
    assert versions[..i + 1][..i] == versions[..i];
  }

  lemma OfferedNone(f: Files, p: Provider, versions: seq<string>)
    ensures OfferedOf(f, p, versions[..0]) == []
  {
  }

  /** networkMirrorIndexHandler: the set of versions, stopping at the first published platform. */
  method MirrorIndex(s: Store, p: Provider) returns (r: Option<set<string>>)
    requires s.Valid()
    ensures r.None? <==> forall v :: v in IndexVersions(s.files, ProviderIndex(p)) ==> !Offered(s.files, p, v)
    ensures r.Some? ==> forall v :: v in r.value <==>
              v in IndexVersions(s.files, ProviderIndex(p)) && Offered(s.files, p, v)
  {
    hide PublishedPlatforms, IndexOk, IndexVersions, Sound;
    var index := s.GetIndex(ProviderIndex(p));
    if index.None? { return None; }
    var versionMap: set<string> := {};
    var versions := index.value;
    for i := 0 to |versions|
      invariant forall v :: v in versionMap <==> v in versions[..i] && Offered(s.files, p, v)
    {
      var v := versions[i];
      assert versions[..i + 1] == versions[..i] + [v];
      if IsDeprecated(s.files, ProviderKey(p, v, Metadata)) { continue; }
      var any := AnyPublished(s, p, v);
      if any { versionMap := versionMap + {v}; }
    }
    assert versions[..|versions|] == versions;
    return if versionMap == {} then None else Some(versionMap);
  }

  method AnyPublished(s: Store, p: Provider, v: string) returns (any: bool)
    requires s.Valid()
    ensures any <==> PublishedPlatforms(s.files, p, v) != {}
  {
    hide Sound, PublishedPlatforms, Skipped, ListsPlatforms;
    var platforms := s.GetProviderPlatforms(p, v);
    PublishedListFrom(s.crypto, s.files, p, v, platforms);
    PublishedOfMembers(s.files, p, v, platforms);
    ghost var published := PublishedOf(s.files, p, v, platforms);
    assert published != [] ==> published[0] in published;
    for i := 0 to |platforms|
      invariant forall j :: 0 <= j < i ==> ProviderKey(p, v, platforms[j].filename) !in s.files
    {
      if s.Exists(ProviderKey(p, v, platforms[i].filename)) {
        assert platforms[i] in published;
        return true;
      }
    }
    return false;
  }

  /** One archive of a mirror document: what its URL names, and its `zh:` hash. */
  datatype MirrorArchive = MirrorArchive(url: Key, hash: string)

  ghost predicate IsMirrorDocument(f: Files, p: Provider, v: string, archives: map<string, MirrorArchive>) {
    && archives.Keys == PublishedPlatforms(f, p, v)
    && forall platform :: platform in archives ==>
         var k := ProviderKey(p, v, PlatformJson(platform));
         k in f && f[k].PlatformFile? &&
         archives[platform] == MirrorArchive(ProviderKey(p, v, f[k].platform.filename), "zh:" + f[k].platform.shasum)
  }

  /** networkMirrorVersionHandler: reads each listed platform's metadata again by its name. */
  method MirrorVersion(s: Store, p: Provider, v: string) returns (r: Option<map<string, MirrorArchive>>)
    requires s.Valid()
    ensures r.Some? <==> v in IndexVersions(s.files, ProviderIndex(p)) && Offered(s.files, p, v)
    ensures r.Some? ==> IsMirrorDocument(s.files, p, v, r.value)
  {
    hide PublishedPlatforms, IndexOk, IndexVersions, Skipped, KeyOk, WellNamed;
    var index := s.GetIndex(ProviderIndex(p));
    if index.None? { return None; }
    var found := IndexHasVersion(index.value, v);
    if !found { return None; }
    if IsDeprecated(s.files, ProviderKey(p, v, Metadata)) { return None; }
    var platforms := s.GetProviderPlatforms(p, v);
    var archives: map<string, MirrorArchive> := map[];
    for i := 0 to |platforms|
      invariant forall platform :: platform in archives ==> MirrorEntry(s.files, p, v, platform, archives[platform])
      invariant forall j :: 0 <= j < i && ProviderKey(p, v, platforms[j].filename) in s.files ==>
                  PlatformName(platforms[j].os, platforms[j].arch) in archives
    {
      var q := platforms[i];
      assert PlatformListed(s.files, p, v, q);
      var platformKey := PlatformName(q.os, q.arch);
      match s.Get(ProviderKey(p, v, PlatformJson(platformKey))) {
        case Some(PlatformFile(meta)) =>
          var zip := ProviderKey(p, v, meta.filename);
          if s.Exists(zip) {
            archives := archives[platformKey := MirrorArchive(zip, "zh:" + meta.shasum)];
          }
        case _ =>
      }
    }
    forall platform ensures platform in archives <==> platform in PublishedPlatforms(s.files, p, v) {
      PublishedMember(s.files, p, v, platform);
      if IsPublished(s.files, p, v, platform) {
        var k := ProviderKey(p, v, PlatformJson(platform));
        assert KeyOk(s.crypto, k, s.files[k]);
        PlatformNamed(s.crypto, k, s.files[k]);
        assert s.files[k].platform in platforms;
      }
    }
    return if |archives| == 0 then None else Some(archives);
  }

  lemma PlatformNamed(c: Crypto, k: Key, x: Content)
    requires KeyOk(c, k, x) && k.ProviderKey? && k.file.PlatformJson?
    ensures x.PlatformFile? && PlatformName(x.platform.os, x.platform.arch) == k.file.platform
  {
  }

  ghost predicate MirrorEntry(f: Files, p: Provider, v: string, platform: string, a: MirrorArchive) {
    var k := ProviderKey(p, v, PlatformJson(platform));
    IsPublished(f, p, v, platform) &&
      a == MirrorArchive(ProviderKey(p, v, f[k].platform.filename), "zh:" + f[k].platform.shasum)
  }

  datatype Download = Download(url: Key, sums: Key, signature: Key, shasum: string)

  datatype DownloadResult = Ready(download: Download) | Missing | Unavailable

  /** providerDownloadHandler; `signer` says whether the server has a signing key. */
  method ProviderDownload(s: Store, signer: bool, p: Provider, v: string, os: string, arch: string)
    returns (r: DownloadResult)
    ensures var k := ProviderKey(p, v, PlatformJson(PlatformName(os, arch)));
            var file := if k in s.files && s.files[k].PlatformFile? then s.files[k].platform.filename else Metadata;
            var zip := ProviderKey(p, v, file);
            && (r.Missing? <==> k !in s.files || (s.files[k].PlatformFile? && zip !in s.files))
            && (r.Ready? <==> k in s.files && s.files[k].PlatformFile? && zip in s.files && signer &&
                              ProviderKey(p, v, Checksums) in s.files && ProviderKey(p, v, Signature) in s.files)
            && (r.Ready? ==>
                r.download == Download(zip, ProviderKey(p, v, Checksums), ProviderKey(p, v, Signature),
                                       s.files[k].platform.shasum))
  {
    match s.Get(ProviderKey(p, v, PlatformJson(PlatformName(os, arch)))) {
      case None => return Missing;
      case Some(PlatformFile(meta)) =>
        var zip := ProviderKey(p, v, meta.filename);
        if !s.Exists(zip) { return Missing; }
        var sums, signature := ProviderKey(p, v, Checksums), ProviderKey(p, v, Signature);
        if !signer || !s.Exists(sums) || !s.Exists(signature) { return Unavailable; }
        return Ready(Download(zip, sums, signature, meta.shasum));
      case Some(_) => return Unavailable;
    }
  }

  /** Uploading a platform whose name ends in `index` or `metadata`, with no step failing: it succeeds
      exactly when the version already has a published platform, and then it can be downloaded
      although no listing shows it. */
  method HiddenPlatform(s: Store, p: Provider, v: string, os: string, arch: string, bytes: Bytes)
    returns (status: Status, download: DownloadResult)
    requires s.Valid() && WellNamedDir(ProviderDir(p, v)) && ValidArtifactName(os) && ValidArtifactName(arch)
    requires HasSuffix(PlatformName(os, arch), "index") || HasSuffix(PlatformName(os, arch), "metadata")
    requires forall n :: !s.fails(n)
    modifies s
    ensures status.Done? <==> Shows(old(s.files), ProviderDir(p, v))
    ensures status.Done? ==> download.Ready? && download.download.shasum == s.crypto.hash(bytes)
    ensures PlatformName(os, arch) !in PublishedPlatforms(s.files, p, v)
    ensures if status.Done? then Shows(s.files, ProviderDir(p, v)) else s.files == old(s.files)
    ensures s.Valid()
  {
    hide Sound, CompleteIn, PublishedPlatforms, WellNamedDir, ValidArtifactName, Phase, WithPlatform, Listed, Skipped,
         Outcome, Renewed, ProviderUploaded;
    ghost var before, a := s.files, s.steps;
    ShowsAfterUpload(s.crypto, before, p, v, os, arch, bytes);
    ghost var undoFrom, added;
    status, undoFrom, added := Handlers.UploadProvider(s, p, v, os, arch, Accepted(bytes));
    NothingFails(s.fails, a, s.steps, undoFrom, if Listed(before, ProviderDir(p, v)) then 5 else 6, 3,
                 Shows(WithPlatform(s.crypto, before, p, v, os, arch, bytes), ProviderDir(p, v)),
                 ProviderKey(p, v, MetaFor(s.crypto, os, arch, bytes).filename) in before, status.Done?, before,
                   s.files, ProviderDir(p, v));
    if status.Done? {
      UploadIsListed(s.crypto, before, s.files, p, v, os, arch, bytes);
      ProviderUploadRenews(s.crypto, before, s.files, p, v, os, arch, bytes);
      RenewedFiles(s.crypto, before, s.files, p, v);
    }
    PublishedMember(s.files, p, v, PlatformName(os, arch));
    SkippedNames(PlatformName(os, arch));
    download := ProviderDownload(s, true, p, v, os, arch);
  }

  lemma RenewedFiles(c: Crypto, f: Files, g: Files, p: Provider, v: string)
    requires Renewed(c, f, g, ProviderDir(p, v))
    ensures Shows(g, ProviderDir(p, v)) && ProviderKey(p, v, Checksums) in g && ProviderKey(p, v, Signature) in g
  {
  }

  /** For instance linux_index, uploaded after linux_amd64. */
  method HiddenExample(c: Crypto, p: Provider, v: string, amd64: Bytes, index: Bytes)
    returns (s: Store, download: DownloadResult)
    requires CryptoOk(c) && WellNamedDir(ProviderDir(p, v))
    ensures fresh(s) && s.Valid() && Shows(s.files, ProviderDir(p, v))
    ensures download.Ready? && download.download.shasum == c.hash(index) &&
            "linux_index" !in PublishedPlatforms(s.files, p, v)
  {
    hide Sound, CompleteIn, PublishedPlatforms, WellNamedDir, ValidArtifactName, Phase, WithPlatform, Listed, Skipped,
         Outcome, HasSuffix, PlatformName, ProviderUploaded, Works, CryptoOk;
    EmptySound(c);
    s := new Store(c, n => false, map[]);
    ghost var start, placed := s.files, WithPlatform(c, s.files, p, v, "linux", "amd64", amd64);
    NotHidden();
    ShowsAfterUpload(c, start, p, v, "linux", "amd64", amd64);
    ghost var undoFrom, added;
    var status;
    status, undoFrom, added := Handlers.UploadProvider(s, p, v, "linux", "amd64", Accepted(amd64));
    assert forall n :: !s.fails(n);
    NothingFails(s.fails, 0, s.steps, undoFrom, if Listed(start, ProviderDir(p, v)) then 5 else 6, 3,
                 Shows(placed, ProviderDir(p, v)),
                 ProviderKey(p, v, MetaFor(c, "linux", "amd64", amd64).filename) in start, status.Done?, start,
                   s.files, ProviderDir(p, v));
    ProviderUploadRenews(c, start, s.files, p, v, "linux", "amd64", amd64);
    status, download := HiddenPlatform(s, p, v, "linux", "index", index);
  }

  lemma EmptySound(c: Crypto)
    ensures Sound(c, map[])
  {
  }

  lemma NotHidden()
    ensures !HasSuffix(PlatformName("linux", "amd64"), "index") &&
            !HasSuffix(PlatformName("linux", "amd64"), "metadata")
    ensures HasSuffix(PlatformName("linux", "index"), "index") && PlatformName("linux", "index") == "linux_index"
    ensures ValidArtifactName("linux") && ValidArtifactName("amd64") && ValidArtifactName("index")
  {
    var s := PlatformName("linux", "amd64");
    assert s[|s| - 1] == '4' && s[|s| - 5..][4] == '4' && s[|s| - 8..][7] == '4';
    assert "index"[4] == 'x' && "metadata"[7] == 'a';
  }

  /** The three listings and the download agree between operations: a version is listed by one
      exactly when by all, with the same platforms, and the mirror's hash of a platform is the
      download's shasum and a line of the signed SHA256SUMS. */
  method ViewsAgree(s: Store, signer: bool, p: Provider, v: string, os: string, arch: string)
    returns (listings: Option<seq<VersionListing>>, mirror: Option<set<string>>,
             document: Option<map<string, MirrorArchive>>, download: DownloadResult)
    requires s.Valid() && Settled(s.crypto, s.files)
    ensures document.Some? <==> mirror.Some? && v in mirror.value
    ensures document.Some? <==> listings.Some? && v in VersionsOf(listings.value)
    ensures listings.Some? <==> mirror.Some?
    ensures document.Some? ==> forall i :: 0 <= i < |listings.value| && listings.value[i].version == v ==>
              forall platform :: platform in document.value <==>
                exists meta :: meta in listings.value[i].platforms && platform == PlatformName(meta.os, meta.arch)
    ensures document.Some? && PlatformName(os, arch) in document.value ==>
              && (if signer then download.Ready? else download.Unavailable?)
              && ChecksumsMatch(s.crypto, s.files, p, v)
    ensures document.Some? && PlatformName(os, arch) in document.value && signer ==>
              && document.value[PlatformName(os, arch)] ==
                 MirrorArchive(download.download.url, "zh:" + download.download.shasum)
              && download.download.url.ProviderKey?
              && var line := Entry(ProviderFileText(p.name, v, download.download.url.file), download.download.shasum);
                 line in Entries(s.files, p, v)
  {
    hide PublishedPlatforms, Entries, IsChecksumText, KeyOk, WellNamed, Skipped, IndexOk;
    listings := ProviderVersions(s, p);
    mirror := MirrorIndex(s, p);
    document := MirrorVersion(s, p, v);
    download := ProviderDownload(s, signer, p, v, os, arch);
    OfferedMembers(s.files, p, IndexVersions(s.files, ProviderIndex(p)));
    if listings.Some? {
      forall i, platform | 0 <= i < |listings.value| && listings.value[i].version == v
        ensures platform in PublishedPlatforms(s.files, p, v) <==>
                exists meta :: meta in listings.value[i].platforms && platform == PlatformName(meta.os, meta.arch)
      {
        ListedPlatforms(s.crypto, s.files, p, v, listings.value[i].platforms, platform);
      }
    }
    var platform := PlatformName(os, arch);
    if document.Some? && platform in document.value {
      assert DirSettled(s.crypto, s.files, ProviderDir(p, v));
      PublishedEntry(s.files, p, v, platform);
    }
  }

  lemma PublishedEntry(f: Files, p: Provider, v: string, platform: string)
    requires platform in PublishedPlatforms(f, p, v)
    ensures IsPublished(f, p, v, platform) && EntryOf(f, p, v, platform) in Entries(f, p, v)
  {
    PublishedMember(f, p, v, platform);
  }

  lemma ListedPlatforms(c: Crypto, f: Files, p: Provider, v: string, platforms: seq<PlatformMeta>, platform: string)
    requires Sound(c, f) && IsPublishedList(f, p, v, platforms)
    ensures platform in PublishedPlatforms(f, p, v) <==>
              exists meta :: meta in platforms && platform == PlatformName(meta.os, meta.arch)
  {
    hide KeyOk, Skipped, WellNamed;
    PublishedMember(f, p, v, platform);
    var k := ProviderKey(p, v, PlatformJson(platform));
    if IsPublished(f, p, v, platform) {
      PlatformNamed(c, k, f[k]);
      assert f[k].platform in platforms;
    }
    if meta :| meta in platforms && platform == PlatformName(meta.os, meta.arch) {
      assert PlatformListed(f, p, v, meta);
    }
  }

  // ---- Modules -------------------------------------------------------------------------------

  /** moduleArtifactKey: the archive artifact.json names, or without it the legacy archive. */
  function ModuleArtifact(f: Files, m: Module, v: string): Option<Key> {
    var k := ModuleKey(m, v, ArtifactJson);
    if k in f then
      if !f[k].ModuleMetaFile? || !(f[k].archive.filename.Archive? || f[k].archive.filename.LegacyArchive?) then None
      else if ModuleKey(m, v, f[k].archive.filename) in f then Some(ModuleKey(m, v, f[k].archive.filename))
      else None
    else if ModuleKey(m, v, LegacyArchive) in f then Some(ModuleKey(m, v, LegacyArchive))
    else None
  }

  predicate Downloadable(f: Files, m: Module, v: string) {
    !IsDeprecated(f, ModuleKey(m, v, ModuleMetadata)) && ModuleArtifact(f, m, v).Some?
  }

  lemma IndexAscends(versions: seq<string>, i: nat, j: nat)
    requires IndexOk(versions) && i <= j < |versions|
    ensures CompareSemver(versions[i], versions[j]) <= 0
  {
    hide ValidVersion, CompareSemver;
    SemverFlips(versions[i], versions[i]);
  }

  /** moduleLatestDownloadHandler scans the index backwards. What it picks has the greatest
      precedence of all it could have picked, and it answers 404 exactly when there is nothing. */
  method LatestModule(s: Store, m: Module) returns (latest: Option<(string, Key)>)
    requires s.Valid()
    ensures latest.None? <==> forall v :: v in IndexVersions(s.files, ModuleIndex(m)) ==> !Downloadable(s.files, m, v)
    ensures latest.Some? ==>
              && latest.value.0 in IndexVersions(s.files, ModuleIndex(m)) && Downloadable(s.files, m, latest.value.0)
              && Some(latest.value.1) == ModuleArtifact(s.files, m, latest.value.0)
              && forall v :: v in IndexVersions(s.files, ModuleIndex(m)) && Downloadable(s.files, m, v)
                   ==> CompareSemver(v, latest.value.0) <= 0
  {
    hide ValidVersion, CompareSemver, ModuleArtifact, KeyOk, WellNamed, IndexOk, IndexVersions, Sound, SortVersions;
    var index := s.GetIndex(ModuleIndex(m));
    if index.None? || |index.value| == 0 { return None; }
    var versions := index.value;
    for i := |versions| downto 0
      invariant forall j :: i <= j < |versions| ==> !Downloadable(s.files, m, versions[j])
    {
      var candidate := versions[i];
      if IsDeprecated(s.files, ModuleKey(m, candidate, ModuleMetadata)) { continue; }
      var key := ModuleArtifact(s.files, m, candidate);
      if key.Some? {
        assert candidate in versions && Downloadable(s.files, m, candidate);
        forall v | v in versions && Downloadable(s.files, m, v) ensures CompareSemver(v, candidate) <= 0 {
          var j :| 0 <= j < |versions| && versions[j] == v;
          IndexAscends(versions, j, i);
        }
        return Some((candidate, key.value));
      }
    }
    return None;
  }
}
