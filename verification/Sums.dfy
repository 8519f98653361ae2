/** SHA256SUMS as a client reads it: one line per published platform, digest, two blanks, file name. */
module Sums {
  import opened Strings
  import opened SemVer
  import opened Names
  import opened Registry

  /** The line names a published platform's artifact after the digest the artifact has. */
  ghost predicate LineFor(c: Crypto, f: Files, p: Provider, v: string, line: string, platform: string) {
    && IsPublished(f, p, v, platform) && |line| > 66
    && var artifact := ProviderKey(p, v, f[ProviderKey(p, v, PlatformJson(platform))].platform.filename);
       && f[artifact].Blob? && line[..64] == c.hash(f[artifact].bytes) && line[64..66] == "  "
       && artifact.file == Artifact(platform, line[..64])
       && line[66..] == "terraform-provider-" + p.name + "_" + v + "_" + platform + "_" + line[..64] + ".zip"
  }

  ghost predicate InOrder(lines: seq<string>) {
    forall i, j :: 0 <= i < j < |lines| ==>
      |lines[i]| > 66 && |lines[j]| > 66 && Compare(lines[i][66..], lines[j][66..]) < 0
  }

  ghost predicate IsLine(c: Crypto, f: Files, p: Provider, v: string, line: string) {
    exists platform :: LineFor(c, f, p, v, line, platform)
  }

  ghost predicate HasLine(c: Crypto, f: Files, p: Provider, v: string, lines: seq<string>, platform: string) {
    exists line :: line in lines && LineFor(c, f, p, v, line, platform)
  }

  /** One line per published platform, each once, in the order of the file names. */
  ghost predicate LinesFor(c: Crypto, f: Files, p: Provider, v: string, lines: seq<string>) {
    && |lines| == |PublishedPlatforms(f, p, v)| && InOrder(lines)
    && (forall line :: line in lines ==> IsLine(c, f, p, v, line))
    && (forall platform :: platform in PublishedPlatforms(f, p, v) ==> HasLine(c, f, p, v, lines, platform))
  }

  /** Split at newlines, the text is those lines and an empty last piece. */
  ghost predicate ReadsBack(c: Crypto, f: Files, p: Provider, v: string, text: string) {
    exists lines :: Split(text, '\n') == lines + [""] && LinesFor(c, f, p, v, lines)
  }

  // ---- Lines ---------------------------------------------------------------------------------

  function Line(e: Entry): string { e.checksum + "  " + e.filename }

  function LinesOf(entries: seq<Entry>): seq<string> {
    seq(|entries|, i requires 0 <= i < |entries| => Line(entries[i]))
  }

  lemma {:induction false} LinesSplit(entries: seq<Entry>)
    requires forall e :: e in entries ==> '\n' !in Line(e)
    ensures Split(Lines(entries), '\n') == LinesOf(entries) + [""]
  {
    hide Split, Line;
    if entries == [] {
      SplitNowhere("", '\n');
    } else {
      var front, last := entries[..|entries| - 1], entries[|entries| - 1];
      LinesSplit(front);
      LineEnds(last);
      assert Lines(entries) == Lines(front) + Line(last) + ['\n'] + "";
      SplitConcat(Lines(front) + Line(last), '\n', "");
      SplitNowhere("", '\n');
      LastPiece(Lines(front), LinesOf(front), Line(last));
      assert LinesOf(entries) == LinesOf(front) + [Line(last)];
    }
  }

  lemma LineEnds(e: Entry)
    ensures EntryLine(e) == Line(e) + ['\n']
  {
  }

  /** Text that ends in a newline, or none: what follows is a piece of its own. */
  lemma LastPiece(s: string, pieces: seq<string>, rest: string)
    requires Split(s, '\n') == pieces + [""] && '\n' !in rest
    ensures Split(s + rest, '\n') == pieces + [rest]
  {
    hide Split;
    JoinSplit(s, '\n');
    if pieces == [] {
      assert s == Join([""], '\n') == "";
      assert s + rest == rest;
      SplitNowhere(rest, '\n');
    } else {
      JoinTail(pieces, "", '\n');
      assert s == Join(pieces, '\n') + ['\n'] + "";
      SplitSnoc(Join(pieces, '\n'), "", '\n');
      SameFront(Split(Join(pieces, '\n'), '\n'), pieces, "");
      assert s + rest == Join(pieces, '\n') + ['\n'] + rest;
      SplitSnoc(Join(pieces, '\n'), rest, '\n');
    }
  }

  lemma SameFront(a: seq<string>, b: seq<string>, last: string)
    requires a + [last] == b + [last]
    ensures a == b
  {
    assert a == (a + [last])[..|a + [last]| - 1] && b == (b + [last])[..|b + [last]| - 1];
  }

  lemma {:induction false} JoinTail(pieces: seq<string>, last: string, c: char)
    requires pieces != []
    ensures Join(pieces + [last], c) == Join(pieces, c) + [c] + last
  {
    if |pieces| > 1 {
      JoinTail(pieces[1..], last, c);
      assert (pieces + [last])[1..] == pieces[1..] + [last];
    } else {
      assert (pieces + [last])[1..] == [last];
    }
  }

  // ---- Entries -------------------------------------------------------------------------------

  lemma NoNewline(name: string, v: string, platform: string, shasum: string)
    requires ValidArtifactName(name) && ValidVersion(v) && IsPlatform(platform) && IsShasum(shasum)
    ensures '\n' !in name && '\n' !in v && '\n' !in platform && '\n' !in shasum
  {
    hide ValidVersion;
    VersionAlphabet(v);
    var os, arch :| ValidArtifactName(os) && ValidArtifactName(arch) && platform == PlatformName(os, arch);
  }

  lemma EntryReads(c: Crypto, f: Files, p: Provider, v: string, platform: string)
    requires CryptoOk(c) && Sound(c, f) && platform in PublishedPlatforms(f, p, v)
    ensures IsPublished(f, p, v, platform)
    ensures var e := EntryOf(f, p, v, platform);
            '\n' !in Line(e) && LineFor(c, f, p, v, Line(e), platform) && |e.checksum| == 64 &&
              Line(e)[66..] == e.filename
  {
    hide ValidVersion, ValidArtifactName, PublishedPlatforms, IsPlatform, IsShasum, Sound, CryptoOk, Skipped, Line;
    PublishedMember(f, p, v, platform);
    EntryFiles(c, f, p, v, platform);
    var shasum := EntryOf(f, p, v, platform).checksum;
    NoNewline(p.name, v, platform, shasum);
    LineParts(p.name, v, platform, shasum);
  }

  lemma EntryFiles(c: Crypto, f: Files, p: Provider, v: string, platform: string)
    requires Sound(c, f) && IsPublished(f, p, v, platform)
    ensures var meta := f[ProviderKey(p, v, PlatformJson(platform))].platform;
            var artifact := ProviderKey(p, v, meta.filename);
            && ValidArtifactName(p.name) && ValidVersion(v) && IsPlatform(platform) && IsShasum(meta.shasum)
            && meta.filename == Artifact(platform, meta.shasum)
            && f[artifact].Blob? && c.hash(f[artifact].bytes) == meta.shasum
  {
    hide ValidVersion, ValidArtifactName, IsPlatform, IsShasum, Skipped;
    var k := ProviderKey(p, v, PlatformJson(platform));
    assert WellNamed(k) && KeyOk(c, k, f[k]);
    var artifact := ProviderKey(p, v, f[k].platform.filename);
    assert KeyOk(c, artifact, f[artifact]);
  }

  lemma LineParts(name: string, v: string, platform: string, shasum: string)
    requires IsShasum(shasum) && '\n' !in name && '\n' !in v && '\n' !in platform && '\n' !in shasum
    ensures var filename := ProviderFileText(name, v, Artifact(platform, shasum));
            var line := Line(Entry(filename, shasum));
            && |shasum| == 64 && |line| > 66 && line[..64] == shasum && line[64..66] == "  " && line[66..] == filename
            && filename == "terraform-provider-" + name + "_" + v + "_" + platform + "_" + shasum + ".zip"
            && '\n' !in line
  {
    hide Line, ProviderFileText, PROVIDER_PREFIX;
    FilenameSpelled(name, v, platform, shasum);
    LineSlices(ProviderFileText(name, v, Artifact(platform, shasum)), shasum);
  }

  lemma FilenameSpelled(name: string, v: string, platform: string, shasum: string)
    requires '\n' !in name && '\n' !in v && '\n' !in platform && '\n' !in shasum
    ensures var filename := ProviderFileText(name, v, Artifact(platform, shasum));
            && filename == "terraform-provider-" + name + "_" + v + "_" + platform + "_" + shasum + ".zip"
            && '\n' !in filename && filename != ""
  {
  }

  lemma LineSlices(filename: string, checksum: string)
    requires |checksum| == 64 && filename != "" && '\n' !in filename && '\n' !in checksum
    ensures var line := Line(Entry(filename, checksum));
            && |line| > 66 && line[..64] == checksum && line[64..66] == "  " && line[66..] == filename
            && '\n' !in line
  {
  }

  // ---- Counting ------------------------------------------------------------------------------

  lemma {:induction false} DistinctCount(xs: seq<string>, s: set<string>)
    requires (forall i, j :: 0 <= i < j < |xs| ==> xs[i] != xs[j]) && forall x :: x in xs <==> x in s
    ensures |xs| == |s|
  {
    if xs == [] {
      assert s == {};
    } else {
      var n := |xs| - 1;
      assert xs == xs[..n] + [xs[n]];
      DistinctCount(xs[..n], s - {xs[n]});
    }
  }

  lemma PlatformOf(f: Files, p: Provider, v: string, e: Entry) returns (platform: string)
    requires e in Entries(f, p, v)
    ensures platform in PublishedPlatforms(f, p, v) && IsPublished(f, p, v, platform)
    ensures EntryOf(f, p, v, platform) == e
  {
    platform :| platform in PublishedPlatforms(f, p, v) && EntryOf(f, p, v, platform) == e;
  }

  /** The platforms of some entries, in their order. */
  lemma {:induction false} PlatformsOf(f: Files, p: Provider, v: string, entries: seq<Entry>)
    returns (platforms: seq<string>)
    requires forall e :: e in entries ==> e in Entries(f, p, v)
    ensures |platforms| == |entries|
    ensures forall i :: 0 <= i < |entries| ==>
              platforms[i] in PublishedPlatforms(f, p, v) && IsPublished(f, p, v, platforms[i]) &&
                EntryOf(f, p, v, platforms[i]) == entries[i]
  {
    hide PublishedPlatforms, Entries, EntryOf, IsPublished;
    if entries == [] {
      platforms := [];
    } else {
      var n := |entries| - 1;
      platforms := PlatformsOf(f, p, v, entries[..n]);
      assert entries[n] in entries;
      var platform := PlatformOf(f, p, v, entries[n]);
      platforms := platforms + [platform];
    }
  }

  lemma NotSame(a: Entry, b: Entry)
    requires CompareEntries(a, b) < 0
    ensures a != b
  {
    CompareZero(a.filename, b.filename);
  }

  lemma SamePlatform(c: Crypto, f: Files, p: Provider, v: string, a: string, b: string)
    requires Sound(c, f) && IsPublished(f, p, v, a) && IsPublished(f, p, v, b)
    requires EntryOf(f, p, v, a) == EntryOf(f, p, v, b)
    ensures a == b
  {
    hide ProviderFileText, WellNamed, Skipped, IsShasum;
    var k, l := ProviderKey(p, v, PlatformJson(a)), ProviderKey(p, v, PlatformJson(b));
    assert KeyOk(c, k, f[k]) && KeyOk(c, l, f[l]);
    ArtifactTextInjective(p.name, v, f[k].platform.filename, f[l].platform.filename);
  }

  lemma ListingPlatforms(c: Crypto, f: Files, p: Provider, v: string, entries: seq<Entry>)
    returns (platforms: seq<string>)
    requires Sound(c, f) && IsListing(entries, Entries(f, p, v))
    ensures |platforms| == |entries| == |PublishedPlatforms(f, p, v)|
    ensures forall x :: x in platforms <==> x in PublishedPlatforms(f, p, v)
    ensures forall i :: 0 <= i < |entries| ==>
              IsPublished(f, p, v, platforms[i]) && EntryOf(f, p, v, platforms[i]) == entries[i]
  {
    hide PublishedPlatforms, CompareEntries, IsPublished, Sound;
    platforms := PlatformsOf(f, p, v, entries);
    forall i, j | 0 <= i < j < |platforms| ensures platforms[i] != platforms[j] { NotSame(entries[i], entries[j]); }
    forall x | x in PublishedPlatforms(f, p, v) ensures x in platforms {
      PublishedMember(f, p, v, x);
      assert EntryOf(f, p, v, x) in Entries(f, p, v);
      var i :| 0 <= i < |entries| && entries[i] == EntryOf(f, p, v, x);
      SamePlatform(c, f, p, v, x, platforms[i]);
    }
    DistinctCount(platforms, PublishedPlatforms(f, p, v));
  }

  // ---- The whole text ------------------------------------------------------------------------

  lemma ListingReads(c: Crypto, f: Files, p: Provider, v: string, entries: seq<Entry>)
    requires CryptoOk(c) && Sound(c, f) && IsListing(entries, Entries(f, p, v))
    ensures LinesFor(c, f, p, v, LinesOf(entries)) && forall e :: e in entries ==> '\n' !in Line(e)
  {
    hide PublishedPlatforms, Entries, IsPublished, Sound, CryptoOk, Line, EntryOf, LineFor, IsListing, Compare;
    var platforms := ListingPlatforms(c, f, p, v, entries);
    var lines := LinesOf(entries);
    forall i | 0 <= i < |entries|
      ensures '\n' !in Line(entries[i]) && LineFor(c, f, p, v, lines[i], platforms[i])
      ensures |lines[i]| > 66 && lines[i][66..] == entries[i].filename
    {
      assert platforms[i] in platforms;
      EntryReads(c, f, p, v, platforms[i]);
      assert LineFor(c, f, p, v, lines[i], platforms[i]);
      LineLong(c, f, p, v, lines[i], platforms[i]);
    }
    forall i, j | 0 <= i < j < |lines| ensures Compare(lines[i][66..], lines[j][66..]) < 0 {
      ListingAscends(entries, Entries(f, p, v), i, j);
    }
    forall line | line in lines ensures IsLine(c, f, p, v, line) {
      var i :| 0 <= i < |lines| && lines[i] == line;
      assert LineFor(c, f, p, v, line, platforms[i]);
    }
    forall platform | platform in PublishedPlatforms(f, p, v) ensures HasLine(c, f, p, v, lines, platform) {
      var i :| 0 <= i < |platforms| && platforms[i] == platform;
      assert lines[i] in lines && LineFor(c, f, p, v, lines[i], platform);
    }
    forall e | e in entries ensures '\n' !in Line(e) { var i :| 0 <= i < |entries| && entries[i] == e; }
  }

  lemma LineLong(c: Crypto, f: Files, p: Provider, v: string, line: string, platform: string)
    requires LineFor(c, f, p, v, line, platform)
    ensures |line| > 66
  {
  }

  lemma ListingAscends(entries: seq<Entry>, s: set<Entry>, i: nat, j: nat)
    requires IsListing(entries, s) && i < j < |entries|
    ensures Compare(entries[i].filename, entries[j].filename) < 0
  {
    assert CompareEntries(entries[i], entries[j]) < 0;
  }

  /** What IsChecksumText builds up, a client takes apart. */
  lemma ChecksumsReadBack(c: Crypto, f: Files, p: Provider, v: string, text: string)
    requires CryptoOk(c) && Sound(c, f) && IsChecksumText(text, Entries(f, p, v))
    ensures ReadsBack(c, f, p, v, text)
  {
    hide Split, IsListing, Entries, Sound, CryptoOk, Lines, Line, LinesFor;
    var entries :| IsListing(entries, Entries(f, p, v)) && Lines(entries) == text;
    ListingReads(c, f, p, v, entries);
    LinesSplit(entries);
    assert Split(text, '\n') == LinesOf(entries) + [""] && LinesFor(c, f, p, v, LinesOf(entries));
  }

  /** Between operations the signed SHA256SUMS of every version with a published platform reads so. */
  lemma StoredSumsReadBack(c: Crypto, f: Files, p: Provider, v: string)
    requires CryptoOk(c) && Settled(c, f) && PublishedPlatforms(f, p, v) != {}
    ensures var sums, sig := ProviderKey(p, v, Checksums), ProviderKey(p, v, Signature);
            && sums in f && f[sums].SumsFile? && ReadsBack(c, f, p, v, f[sums].text)
            && sig in f && f[sig].SignatureFile? && c.verifies(f[sums].text, f[sig].signature)
  {
    hide ReadsBack, IsChecksumText, PublishedPlatforms, Entries, Sound, CryptoOk;
    assert DirSettled(c, f, ProviderDir(p, v));
    ChecksumsReadBack(c, f, p, v, f[ProviderKey(p, v, Checksums)].text);
  }
}
