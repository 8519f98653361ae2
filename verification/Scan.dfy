/** The directory scan behind the management API, and that it lists what the index lists. */
module Scan {
  import opened Strings
  import opened SemVer
  import opened Precedence
  import opened StableSort
  import opened VersionIndex
  import opened Names
  import opened Registry
  import opened Stores

  /** The name of a hidden tree, which a delete leaves behind when its clean-up fails. */
  predicate IsHidden(name: string) { HasPrefix(name, ".trash-") }

  /** The directories below a provider, in whatever order the file system gives them: its versions and
      the hidden trees left behind. */
  method ListVersionDirs(s: Store, p: Provider, hidden: set<string>) returns (names: seq<string>)
    ensures Distinct(names) && forall v :: v in names <==> HasFiles(s.files, ProviderDir(p, v)) || v in hidden
  {
    var left := set k | k in s.files && k.ProviderKey? && k.provider == p :: k.version;
    forall v ensures v in left <==> HasFiles(s.files, ProviderDir(p, v)) {
      if k :| k in s.files && Within(k, ProviderDir(p, v)) { assert k.version == v; }
      if v in left {
        var k :| k in s.files && k.ProviderKey? && k.provider == p && k.version == v;
        assert Within(k, ProviderDir(p, v));
      }
    }
    left := left + hidden;
    names := [];
    while left != {}
      invariant Distinct(names)
      invariant forall v :: v in names ==> v !in left
      invariant forall v :: HasFiles(s.files, ProviderDir(p, v)) || v in hidden <==> v in names || v in left
      decreases left
    {
      var v :| v in left;
      names, left := names + [v], left - {v};
    }
  }

  ghost predicate Scanned(f: Files, p: Provider, hidden: set<string>, listing: seq<string>) {
    Distinct(listing) && forall v :: v in listing <==>
      (HasFiles(f, ProviderDir(p, v)) && v != "index.json") || v in hidden
  }

  /** ScanProviderVersions: the directories not seen before, sorted. Hidden trees are among them. */
  method ScanProviderVersions(s: Store, p: Provider, hidden: set<string>)
    returns (versions: seq<string>, ghost listing: seq<string>)
    requires forall v :: v in hidden ==> IsHidden(v)
    ensures Scanned(s.files, p, hidden, listing) && versions == SortVersions(listing)
    ensures Scanned(s.files, p, hidden, versions)
  {
    hide HasFiles;
    var names := ListVersionDirs(s, p, hidden);
    var seen: set<string> := {};
    var found: seq<string> := [];
    for i := 0 to |names|
      invariant forall v :: v in seen <==> v in found
      invariant forall v :: v in found <==> v in names[..i] && v != "index.json"
      invariant Distinct(found)
    {
      var v := names[i];
      assert names[..i + 1] == names[..i] + [v];
      if v !in seen && v != "index.json" {
        seen := seen + {v};
        found := found + [v];
      }
    }
    assert names[..|names|] == names;
    assert "index.json"[0] != ".trash-"[0];
    listing := found;
    var a := new string[|found|](i requires 0 <= i < |found| => found[i]);
    assert a[..] == found;
    SortSemanticVersions(a);
    SortPermutes(found, CompareSemver);
    SortKeepsDistinct(found, CompareSemver);
    versions := a[..];
  }

  /** Between operations a version is in the index exactly when its directory exists. */
  lemma IndexListsDirectories(c: Crypto, f: Files, p: Provider, v: string)
    requires Settled(c, f)
    ensures v in IndexVersions(f, ProviderIndex(p)) <==> HasFiles(f, ProviderDir(p, v))
  {
    hide Entries, IsChecksumText;
    assert DirSettled(c, f, ProviderDir(p, v));
    if platform :| platform in PublishedPlatforms(f, p, v) {
      PublishedMember(f, p, v, platform);
      assert Within(ProviderKey(p, v, PlatformJson(platform)), ProviderDir(p, v));
    }
  }

  lemma SettledIndexOk(c: Crypto, f: Files, p: Provider)
    requires Settled(c, f)
    ensures IndexOk(IndexVersions(f, ProviderIndex(p)))
  {
    assert ProviderIndex(p) in f ==> KeyOk(c, ProviderIndex(p), f[ProviderIndex(p)]);
  }

  /** Between operations the scan lists what the index lists and the hidden trees, so the same versions
      exactly when the clean-up of every delete worked. As sequences they are equal then exactly when
      build variants come in the same order from the directory and the index, and in particular when
      there are none. */
  lemma ScanMatchesIndex(c: Crypto, f: Files, p: Provider, hidden: set<string>, listing: seq<string>)
    requires Settled(c, f) && Scanned(f, p, hidden, listing) && forall v :: v in hidden ==> IsHidden(v)
    ensures var index := IndexVersions(f, ProviderIndex(p));
            && (forall v :: v in SortVersions(listing) <==> v in index || v in hidden)
            && ((forall v :: v in SortVersions(listing) <==> v in index) <==> hidden == {})
            && (hidden == {} ==>
                (SortVersions(listing) == index <==> StableFor(index, listing, CompareSemver, ValidVersion)))
            && (hidden == {} && NoBuildVariants(index) ==> SortVersions(listing) == index)
  {
    hide ValidVersion, CompareSemver, HasFiles, Settled, IndexOk, NoBuildVariants, SortVersions, StableFor, IsHidden;
    var index := IndexVersions(f, ProviderIndex(p));
    SettledIndexOk(c, f, p);
    IndexIsValid(index);
    IndexFileIsNoVersion();
    forall v ensures v in listing <==> v in index || v in hidden {
      IndexListsDirectories(c, f, p, v);
      if v in index { var i :| 0 <= i < |index| && index[i] == v; }
    }
    SortedMembers(listing);
    forall v | v in hidden ensures v !in index { HiddenNotIndexed(index, v); }
    if hidden == {} { WithoutHidden(index, listing); }
  }

  lemma SortedMembers(listing: seq<string>)
    ensures forall v :: v in SortVersions(listing) <==> v in listing
  {
    hide CompareSemver;
    SortPermutes(listing, CompareSemver);
  }

  lemma HiddenNotIndexed(index: seq<string>, v: string)
    requires AllValid(index) && IsHidden(v)
    ensures v !in index
  {
    hide ValidVersion;
    assert v[0] == ".trash-"[0] == '.';
    if ValidVersion(v) { VersionAlphabet(v); }
  }

  lemma WithoutHidden(index: seq<string>, listing: seq<string>)
    requires IndexOk(index) && Distinct(listing) && forall v :: v in listing <==> v in index
    ensures SortVersions(listing) == index <==> StableFor(index, listing, CompareSemver, ValidVersion)
    ensures NoBuildVariants(index) ==> SortVersions(listing) == index
  {
    hide ValidVersion, CompareSemver, IndexOk, NoBuildVariants, SortVersions, StableFor;
    IndexIsValid(index);
    forall i | 0 <= i < |listing| ensures ValidVersion(listing[i]) {
      assert listing[i] in index;
      var j :| 0 <= j < |index| && index[j] == listing[i];
    }
    IndexMatchesScan(index, listing);
    if NoBuildVariants(index) { ScanEqualsIndex(index, listing); }
  }

  lemma IndexIsValid(index: seq<string>)
    requires IndexOk(index)
    ensures AllValid(index)
  {
  }
}
