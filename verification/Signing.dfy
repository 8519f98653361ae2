/** SHA256SUMS and its signature: rebuilt from the platform files after an upload and at startup. */
module Signing {
  import opened Strings
  import opened StableSort
  import opened Options
  import opened Names
  import opened Registry
  import opened Publication
  import opened Stores
  import opened Sums

  ghost predicate AnyEntry(e: Entry) { true }

  lemma EntriesOrdered()
    ensures Orders(CompareEntries, AnyEntry)
  {
    forall a: Entry, b: Entry ensures CompareEntries(a, b) == -CompareEntries(b, a) {
      CompareFlips(a.filename, b.filename);
    }
    forall a: Entry, b: Entry, c: Entry | CompareEntries(a, b) <= 0 && CompareEntries(b, c) <= 0
      ensures CompareEntries(a, c) <= 0
    {
      CompareChains(a.filename, b.filename, c.filename);
    }
  }

  /** Sorting entries with different file names lists them strictly in order. */
  lemma SortedListing(entries: seq<Entry>, s: set<Entry>)
    requires forall e :: e in entries <==> e in s
    requires forall i, j :: 0 <= i < j < |entries| ==> entries[i].filename != entries[j].filename
    ensures IsListing(SortedOf(entries, CompareEntries), s)
  {
    hide SortedOf, CompareEntries, Sorted, Distinct;
    NamesDistinct(entries);
    EntriesOrdered();
    SortSorts(entries, CompareEntries, AnyEntry);
    SortPermutes(entries, CompareEntries);
    SortKeepsDistinct(entries, CompareEntries);
    StrictlyAscending(entries, SortedOf(entries, CompareEntries));
  }

  lemma NamesDistinct(entries: seq<Entry>)
    requires forall i, j :: 0 <= i < j < |entries| ==> entries[i].filename != entries[j].filename
    ensures Distinct(entries)
  {
  }

  lemma StrictlyAscending(entries: seq<Entry>, r: seq<Entry>)
    requires forall i, j :: 0 <= i < j < |entries| ==> entries[i].filename != entries[j].filename
    requires Sorted(r, CompareEntries) && Distinct(r) && forall e :: e in r ==> e in entries
    ensures forall i, j :: 0 <= i < j < |r| ==> CompareEntries(r[i], r[j]) < 0
  {
    hide CompareEntries;
    forall i, j | 0 <= i < j < |r| ensures CompareEntries(r[i], r[j]) < 0 {
      assert r[i] in r && r[j] in r;
      DifferentNames(entries, r[i], r[j]);
    }
  }

  lemma DifferentNames(entries: seq<Entry>, a: Entry, b: Entry)
    requires forall i, j :: 0 <= i < j < |entries| ==> entries[i].filename != entries[j].filename
    requires a in entries && b in entries && a != b
    ensures CompareEntries(a, b) != 0
  {
    var x, y :| 0 <= x < |entries| && 0 <= y < |entries| && entries[x] == a && entries[y] == b;
    CompareZero(a.filename, b.filename);
  }

  /** The entries collected so far: the published ones among the platforms looked at. */
  ghost predicate Collected(f: Files, p: Provider, v: string, platforms: seq<PlatformMeta>, entries: seq<Entry>) {
    && (forall e :: e in entries <==> exists meta :: meta in platforms && EntryFor(f, p, v, meta, e))
    && (forall i, j :: 0 <= i < j < |entries| ==> entries[i].filename != entries[j].filename)
  }

  ghost predicate EntryFor(f: Files, p: Provider, v: string, meta: PlatformMeta, e: Entry) {
    ProviderKey(p, v, meta.filename) in f && e == Entry(ProviderFileText(p.name, v, meta.filename), meta.shasum)
  }

  lemma CollectNext(c: Crypto, f: Files, p: Provider, v: string, platforms: seq<PlatformMeta>, i: nat,
                    entries: seq<Entry>)
    requires Sound(c, f) && ListsPlatforms(f, p, v, platforms) && i < |platforms| &&
             Collected(f, p, v, platforms[..i], entries)
    requires ProviderKey(p, v, platforms[i].filename) in f
    ensures Collected(f, p, v, platforms[..i + 1],
                      entries + [Entry(ProviderFileText(p.name, v, platforms[i].filename), platforms[i].shasum)])
  {
    hide ProviderFileText, Skipped, WellNamed;
    var meta := platforms[i];
    var next := Entry(ProviderFileText(p.name, v, meta.filename), meta.shasum);
    assert platforms[..i + 1] == platforms[..i] + [meta];
    assert EntryFor(f, p, v, meta, next);
    forall j | 0 <= j < |entries| ensures entries[j].filename != next.filename {
      assert entries[j] in entries;
      var other :| other in platforms[..i] && EntryFor(f, p, v, other, entries[j]);
      assert other != meta;
      assert PlatformListed(f, p, v, meta) && PlatformListed(f, p, v, other);
      assert KeyOk(c, PlatformKey(p, v, meta), f[PlatformKey(p, v, meta)]);
      assert KeyOk(c, PlatformKey(p, v, other), f[PlatformKey(p, v, other)]);
      if ProviderFileText(p.name, v, other.filename) == ProviderFileText(p.name, v, meta.filename) {
        ArtifactTextInjective(p.name, v, other.filename, meta.filename);
      }
    }
  }

  lemma CollectSkip(f: Files, p: Provider, v: string, platforms: seq<PlatformMeta>, i: nat, entries: seq<Entry>)
    requires i < |platforms| && Collected(f, p, v, platforms[..i], entries)
    requires ProviderKey(p, v, platforms[i].filename) !in f
    ensures Collected(f, p, v, platforms[..i + 1], entries)
  {
    hide ProviderFileText;
    assert platforms[..i + 1] == platforms[..i] + [platforms[i]];
  }

  lemma CollectedAll(f: Files, p: Provider, v: string, platforms: seq<PlatformMeta>, entries: seq<Entry>)
    requires ListsPlatforms(f, p, v, platforms) && Collected(f, p, v, platforms, entries)
    ensures forall e :: e in entries <==> e in Entries(f, p, v)
    ensures entries == [] <==> PublishedPlatforms(f, p, v) == {}
  {
    hide ProviderFileText, Skipped, WellNamed;
    forall e ensures e in entries <==> e in Entries(f, p, v) {
      if meta :| meta in platforms && EntryFor(f, p, v, meta, e) {
        assert PlatformListed(f, p, v, meta);
        var platform := PlatformName(meta.os, meta.arch);
        PublishedMember(f, p, v, platform);
        assert EntryOf(f, p, v, platform) == e;
      }
      if e in Entries(f, p, v) {
        var platform :| platform in PublishedPlatforms(f, p, v) && EntryOf(f, p, v, platform) == e;
        PublishedMember(f, p, v, platform);
        var meta := f[ProviderKey(p, v, PlatformJson(platform))].platform;
        assert meta in platforms && EntryFor(f, p, v, meta, e);
      }
    }
    if platform :| platform in PublishedPlatforms(f, p, v) {
      PublishedMember(f, p, v, platform);
      assert EntryOf(f, p, v, platform) in Entries(f, p, v);
    }
    if entries != [] { assert entries[0] in entries; }
  }

  /** What a rebuild leaves: nothing written, SHA256SUMS written, or both files. */
  ghost predicate Rebuilding(f: Files, g: Files, p: Provider, v: string, text: string, sig: Bytes) {
    || g == f
    || g == f[ProviderKey(p, v, Checksums) := SumsFile(text)]
    || g == WithChecksums(f, p, v, text, sig)
  }

  /** rebuildProviderChecksums, in three steps: sign, write SHA256SUMS, write the signature. With
      nothing published it fails before the first. On success both files are replaced by the sorted
      lines of what is published and a signature that verifies for them. */
  method RebuildProviderChecksums(s: Store, p: Provider, v: string)
    returns (ok: bool, ghost text: string, ghost sig: Bytes, ghost added: seq<Files>)
    requires s.Valid() && WellNamedDir(ProviderDir(p, v))
    modifies s
    ensures s.Valid() && s.trace == old(s.trace) + added
    ensures if Shows(old(s.files), ProviderDir(p, v)) then Ran(s.fails, old(s.steps), s.steps, 3, ok)
            else !ok && s.steps == old(s.steps) && added == []
    ensures Shows(old(s.files), ProviderDir(p, v)) ==>
              IsChecksumText(text, Entries(old(s.files), p, v)) && ReadsBack(s.crypto, old(s.files), p, v, text)
    ensures ok ==> s.crypto.verifies(text, sig) && s.files == WithChecksums(old(s.files), p, v, text, sig)
    ensures !ok ==> s.files == old(s.files) || s.files == old(s.files)[ProviderKey(p, v, Checksums) := SumsFile(text)]
    ensures (forall g :: g in added ==> Rebuilding(old(s.files), g, p, v, text, sig)) &&
            (s.files == old(s.files) || s.files in added)
  {
    hide IsChecksumText, ReadsBack, Entries, PublishedPlatforms, IsListing, WellNamedDir, Sound, CompleteIn;
    ok, text, sig, added := false, "", [], [];
    var platforms := s.GetProviderPlatforms(p, v);
    var entries := CollectEntries(s, p, v, platforms);
    CollectedAll(s.files, p, v, platforms, entries);
    if entries == [] { return; }
    var a := new Entry[|entries|](i requires 0 <= i < |entries| => entries[i]);
    assert a[..] == entries;
    Sort(a, CompareEntries);
    SortedListing(entries, Entries(s.files, p, v));
    var checksums := WriteLines(a[..]);
    ChecksumTextOf(a[..], Entries(s.files, p, v), checksums);
    text := checksums;
    ChecksumsReadBack(s.crypto, s.files, p, v, text);
    ok, sig, added := SignAndWrite(s, p, v, checksums);
  }

  lemma ChecksumTextOf(entries: seq<Entry>, s: set<Entry>, text: string)
    requires IsListing(entries, s) && text == Lines(entries)
    ensures IsChecksumText(text, s)
  {
  }

  method CollectEntries(s: Store, p: Provider, v: string, platforms: seq<PlatformMeta>) returns (entries: seq<Entry>)
    requires s.Valid() && ListsPlatforms(s.files, p, v, platforms)
    ensures Collected(s.files, p, v, platforms, entries)
  {
    entries := [];
    for i := 0 to |platforms|
      invariant Collected(s.files, p, v, platforms[..i], entries)
    {
      if s.Exists(ProviderKey(p, v, platforms[i].filename)) {
        CollectNext(s.crypto, s.files, p, v, platforms, i, entries);
        entries := entries + [Entry(ProviderFileText(p.name, v, platforms[i].filename), platforms[i].shasum)];
      } else {
        CollectSkip(s.files, p, v, platforms, i, entries);
      }
    }
    assert platforms[..|platforms|] == platforms;
  }

  method WriteLines(entries: seq<Entry>) returns (text: string)
    ensures text == Lines(entries)
  {
    text := "";
    for i := 0 to |entries|
      invariant text == Lines(entries[..i])
    {
      assert entries[..i + 1][..i] == entries[..i];
      text := text + (entries[i].checksum + "  " + entries[i].filename + "\n");
    }
    assert entries[..|entries|] == entries;
  }

  /** The three steps. If a later one fails, the files written stay for the caller to undo. */
  method SignAndWrite(s: Store, p: Provider, v: string, text: string)
    returns (ok: bool, ghost sig: Bytes, ghost added: seq<Files>)
    requires s.Valid() && WellNamedDir(ProviderDir(p, v))
    modifies s
    ensures s.Valid() && s.trace == old(s.trace) + added && Ran(s.fails, old(s.steps), s.steps, 3, ok)
    ensures ok ==> s.crypto.verifies(text, sig) && s.files == WithChecksums(old(s.files), p, v, text, sig)
    ensures !ok ==> s.files == old(s.files) || s.files == old(s.files)[ProviderKey(p, v, Checksums) := SumsFile(text)]
    ensures (forall g :: g in added ==> Rebuilding(old(s.files), g, p, v, text, sig)) &&
            (s.files == old(s.files) || s.files in added)
  {
    hide WellNamedDir, Sound, CompleteIn;
    ok, sig := false, [];
    var signature := s.Sign(text);
    added := [s.files];
    if signature.None? { return; }
    sig := signature.value;
    ChecksumsSound(s.crypto, s.files, p, v, text, sig);
    ok := s.Put(ProviderKey(p, v, Checksums), SumsFile(text));
    added := added + [s.files];
    if !ok { return; }
    ok := s.Put(ProviderKey(p, v, Signature), SignatureFile(signature.value));
    added := added + [s.files];
  }
}
