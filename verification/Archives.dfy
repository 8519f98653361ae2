/** Archive checks: the cumulative size bound in fixed-width arithmetic, and the binary a provider
    archive must hold. Path safety and path.Base are left to the caller as functions. */
module Archives {
  import opened Options
  import opened Strings
  import opened SemVer
  import opened Names

  newtype int64 = x: int | -0x8000_0000_0000_0000 <= x < 0x8000_0000_0000_0000
  newtype uint64 = x: int | 0 <= x < 0x1_0000_0000_0000_0000

  const MAX_EXPANDED: int64 := 21474836480

  /** expandedArchiveLimit: 20 times the upload limit, never over 20 GiB. The product fits. */
  function ExpandedArchiveLimit(uploadLimit: int64): (limit: int64)
    ensures 0 < limit <= MAX_EXPANDED
    ensures var max := 20 * 1024 * 1024 * 1024;
            limit as int == if uploadLimit <= 0 ||
              20 * (uploadLimit as int) >= max then max else 20 * (uploadLimit as int)
  {
    if uploadLimit <= 0 || uploadLimit > MAX_EXPANDED / 20 then MAX_EXPANDED else uploadLimit * 20
  }

  datatype Kind = Regular | Directory | Special

  /** A ZIP entry as declared, with what reading it gives: a byte count, or an error. */
  datatype ZipEntry = ZipEntry(name: string, kind: Kind, size: uint64, copied: Option<int64>)

  /** A tar entry. Its declared size is signed. */
  datatype TarEntry = TarEntry(name: string, kind: Kind, size: int64, copied: Option<int64>)

  /** A ZIP file: whether its directory could be read, and what it lists. */
  datatype ZipFile = ZipFile(readable: bool, entries: seq<ZipEntry>)

  /** A compressed tar stream: whether the gzip header could be read, the entries before the end or
      the first error, whether that was the end, and whether the trailer checked out. */
  datatype TarStream = TarStream(header: bool, entries: seq<TarEntry>, ended: bool, trailer: bool)

  /** Path safety and path.Base. */
  datatype Paths = Paths(safe: string -> bool, base: string -> string)

  // ---- Verdicts ------------------------------------------------------------------------------

  /** The sizes of some entries, added up without bound. */
  function Total<E>(entries: seq<E>, size: E -> int): int {
    if entries == [] then 0 else Total(entries[..|entries| - 1], size) + size(entries[|entries| - 1])
  }

  function ZipSize(e: ZipEntry): int { if e.kind.Regular? then e.size as int else 0 }

  function TarSize(e: TarEntry): int { if e.kind.Regular? then e.size as int else 0 }

  predicate ZipEntryOk(e: ZipEntry, paths: Paths) {
    paths.safe(e.name) && !e.kind.Special? &&
      (e.kind.Regular? ==> e.copied.Some? && e.copied.value as int == e.size as int)
  }

  predicate TarEntryOk(e: TarEntry, paths: Paths) {
    paths.safe(e.name) && !e.kind.Special? && (e.kind.Regular? ==> e.size >= 0 && e.copied == Some(e.size))
  }

  predicate IsProviderBinary(e: ZipEntry, provider: string, paths: Paths) {
    e.kind.Regular? && ProviderBinaryNameMatches(paths.base(e.name), PROVIDER_PREFIX + provider)
  }

  predicate IsConfig(e: TarEntry, paths: Paths) {
    e.kind.Regular? && (HasSuffix(paths.base(e.name), ".tf") || HasSuffix(paths.base(e.name), ".tf.json"))
  }

  ghost predicate HasBinary(entries: seq<ZipEntry>, provider: string, paths: Paths) {
    exists e :: e in entries && IsProviderBinary(e, provider, paths)
  }

  ghost predicate HasConfig(entries: seq<TarEntry>, paths: Paths) { exists e :: e in entries && IsConfig(e, paths) }

  /** A provider archive is accepted when it reads, every entry is sound, the file sizes add up to at
      most the limit, counted without bound, and some file is the provider's binary. */
  ghost predicate ProviderArchiveOk(zip: ZipFile, provider: string, uploadLimit: int64, paths: Paths) {
    && zip.readable
    && (forall e :: e in zip.entries ==> ZipEntryOk(e, paths))
    && Total(zip.entries, ZipSize) <= ExpandedArchiveLimit(uploadLimit) as int
    && HasBinary(zip.entries, provider, paths)
  }

  ghost predicate ModuleArchiveOk(tar: TarStream, uploadLimit: int64, paths: Paths) {
    && tar.header && tar.ended && tar.trailer
    && (forall e :: e in tar.entries ==> TarEntryOk(e, paths))
    && Total(tar.entries, TarSize) <= ExpandedArchiveLimit(uploadLimit) as int
    && HasConfig(tar.entries, paths)
  }

  // ---- The loops -----------------------------------------------------------------------------

  lemma TotalStep<E>(entries: seq<E>, i: nat, size: E -> int)
    requires i < |entries|
    ensures Total(entries[..i + 1], size) == Total(entries[..i], size) + size(entries[i])
  {
    assert entries[..i + 1][..i] == entries[..i];
  }

  lemma {:induction false} TotalGrows<E>(entries: seq<E>, i: nat, size: E -> int)
    requires i <= |entries| && forall k :: i <= k < |entries| ==> size(entries[k]) >= 0
    ensures Total(entries[..i], size) <= Total(entries, size)
    decreases |entries| - i
  {
    if i < |entries| {
      TotalGrows(entries, i + 1, size);
      TotalStep(entries, i, size);
    } else {
      assert entries[..i] == entries;
    }
  }

  /** Counts up. Each conversion and sum is in range, for any declared 64-bit sizes. */
  method ValidateProviderArchive(zip: ZipFile, provider: string, uploadLimit: int64, paths: Paths) returns (ok: bool)
    ensures ok <==> ProviderArchiveOk(zip, provider, uploadLimit, paths)
  {
    hide ProviderBinaryNameMatches, Total;
    if !zip.readable { return false; }
    var entries := zip.entries;
    var found := false;
    var expanded: int64 := 0;
    var limit := ExpandedArchiveLimit(uploadLimit);
    TotalOfNone(entries, ZipSize);
    for i := 0 to |entries|
      invariant 0 <= expanded <= limit && expanded as int == Total(entries[..i], ZipSize)
      invariant forall k :: 0 <= k < i ==> ZipEntryOk(entries[k], paths)
      invariant found <==> exists k :: 0 <= k < i && IsProviderBinary(entries[k], provider, paths)
    {
      var e := entries[i];
      TotalStep(entries, i, ZipSize);
      TotalGrows(entries, i + 1, ZipSize);
      if !paths.safe(e.name) || e.kind.Special? {
        assert !ZipEntryOk(entries[i], paths);
        return false;
      }
      if e.kind.Directory? { continue; }
      if e.size > (limit - expanded) as uint64 { return false; }
      expanded := expanded + e.size as int64;
      if e.copied.None? || e.copied.value != e.size as int64 {
        assert !ZipEntryOk(entries[i], paths);
        return false;
      }
      if ProviderBinaryNameMatches(paths.base(e.name), PROVIDER_PREFIX + provider) {
        found := true;
        assert IsProviderBinary(entries[i], provider, paths);
      }
    }
    assert entries[..|entries|] == entries;
    return found;
  }

  lemma TotalOfNone<E>(entries: seq<E>, size: E -> int)
    ensures Total(entries[..0], size) == 0
  {
  }

  /** Counts down what remains. */
  method ValidateModuleArchive(tar: TarStream, uploadLimit: int64, paths: Paths) returns (ok: bool)
    ensures ok <==> ModuleArchiveOk(tar, uploadLimit, paths)
  {
    hide Total, HasSuffix;
    if !tar.header { return false; }
    var entries := tar.entries;
    var remaining := ExpandedArchiveLimit(uploadLimit);
    ghost var limit := remaining;
    var found := false;
    TotalOfNone(entries, TarSize);
    for i := 0 to |entries|
      invariant 0 <= remaining <= limit && remaining as int == limit as int - Total(entries[..i], TarSize)
      invariant forall k :: 0 <= k < i ==> TarEntryOk(entries[k], paths)
      invariant found <==> exists k :: 0 <= k < i && IsConfig(entries[k], paths)
    {
      var e := entries[i];
      TotalStep(entries, i, TarSize);
      if forall x :: x in entries ==> TarEntryOk(x, paths) {
        forall k | i < k < |entries| ensures TarSize(entries[k]) >= 0 { assert entries[k] in entries; }
        TotalGrows(entries, i + 1, TarSize);
      }
      if !paths.safe(e.name) {
        assert !TarEntryOk(entries[i], paths);
        return false;
      }
      match e.kind {
        case Directory => continue;
        case Regular =>
        case Special =>
          assert !TarEntryOk(entries[i], paths);
          return false;
      }
      if e.size < 0 || e.size > remaining {
        assert e.size < 0 ==> !TarEntryOk(entries[i], paths);
        return false;
      }
      if e.copied.None? || e.copied.value != e.size {
        assert !TarEntryOk(entries[i], paths);
        return false;
      }
      remaining := remaining - e.copied.value;
      if HasSuffix(paths.base(e.name), ".tf") || HasSuffix(paths.base(e.name), ".tf.json") {
        found := true;
        assert IsConfig(entries[i], paths);
      }
    }
    assert entries[..|entries|] == entries;
    if !tar.ended || !tar.trailer { return false; }
    return found;
  }

  // ---- Order and direction do not matter -----------------------------------------------------

  lemma {:induction false} TotalConcat<E>(a: seq<E>, b: seq<E>, size: E -> int)
    ensures Total(a + b, size) == Total(a, size) + Total(b, size)
  {
    if b == [] {
      assert a + b == a;
    } else {
      assert (a + b)[..|a + b| - 1] == a + b[..|b| - 1];
      TotalConcat(a, b[..|b| - 1], size);
    }
  }

  lemma TotalMiddle<E>(p: seq<E>, x: E, q: seq<E>, size: E -> int)
    ensures Total(p + [x] + q, size) == Total(p + q, size) + size(x)
  {
    assert Total([x], size) == size(x) by { assert [x][..0] == []; }
    hide Total;
    TotalConcat(p + [x], q, size);
    TotalConcat(p, [x], size);
    TotalConcat(p, q, size);
  }

  lemma {:induction false} TotalOfPermutation<E>(a: seq<E>, b: seq<E>, size: E -> int)
    requires multiset(a) == multiset(b)
    ensures Total(a, size) == Total(b, size)
  {
    hide Total;
    assert b != [] ==> b[0] in multiset(b);
    if a == [] {
      assert b == [];
    } else {
      var p, q := MatchLast(a, b);
      TotalOfPermutation(a[..|a| - 1], p + q, size);
      TotalMiddle(p, a[|a| - 1], q, size);
      TotalStep(a, |a| - 1, size);
      assert a[..|a| - 1 + 1] == a;
    }
  }

  lemma MatchLast<E>(a: seq<E>, b: seq<E>) returns (p: seq<E>, q: seq<E>)
    requires a != [] && multiset(a) == multiset(b)
    ensures b == p + [a[|a| - 1]] + q && multiset(a[..|a| - 1]) == multiset(p + q)
  {
    var x, front := a[|a| - 1], a[..|a| - 1];
    assert a == front + [x];
    OneMore(front, x, []);
    assert front + [x] + [] == a && front + [] == front;
    assert x in multiset(b);
    var i :| 0 <= i < |b| && b[i] == x;
    p, q := b[..i], b[i + 1..];
    assert b == p + [x] + q;
    OneMore(p, x, q);
    assert multiset(front) == multiset(a) - multiset{x};
  }

  lemma OneMore<E>(p: seq<E>, x: E, q: seq<E>)
    ensures multiset(p + [x] + q) == multiset(p + q) + multiset{x}
  {
  }

  /** The verdict on an archive does not depend on the order of its entries. */
  lemma ProviderVerdictIgnoresOrder(a: ZipFile, b: ZipFile, provider: string, uploadLimit: int64, paths: Paths)
    requires multiset(a.entries) == multiset(b.entries) && a.readable == b.readable
    ensures ProviderArchiveOk(a, provider, uploadLimit, paths) <==> ProviderArchiveOk(b, provider, uploadLimit, paths)
  {
    hide ProviderBinaryNameMatches;
    TotalOfPermutation(a.entries, b.entries, ZipSize);
    assert forall e :: e in a.entries <==> e in multiset(a.entries);
    assert forall e :: e in b.entries <==> e in multiset(b.entries);
  }

  lemma ModuleVerdictIgnoresOrder(a: TarStream, b: TarStream, uploadLimit: int64, paths: Paths)
    requires multiset(a.entries) == multiset(b.entries) && b == a.(entries := b.entries)
    ensures ModuleArchiveOk(a, uploadLimit, paths) <==> ModuleArchiveOk(b, uploadLimit, paths)
  {
    TotalOfPermutation(a.entries, b.entries, TarSize);
    assert forall e :: e in a.entries <==> e in multiset(a.entries);
    assert forall e :: e in b.entries <==> e in multiset(b.entries);
  }

  /** What one more entry does to an accepted provider archive: it must be a directory, or a regular
      file that copies to its declared size and still fits, and in either case have a safe path. */
  lemma ProviderEntryAdded(zip: ZipFile, e: ZipEntry, provider: string, uploadLimit: int64, paths: Paths)
    requires ProviderArchiveOk(zip, provider, uploadLimit, paths)
    ensures var fits := Total(zip.entries, ZipSize) + e.size as int <= ExpandedArchiveLimit(uploadLimit) as int;
            var whole := e.copied.Some? && e.copied.value as int == e.size as int;
            ProviderArchiveOk(zip.(entries := zip.entries + [e]), provider, uploadLimit, paths) <==>
            paths.safe(e.name) && (e.kind.Directory? || (e.kind.Regular? && whole && fits))
  {
    hide ProviderBinaryNameMatches;
    var more := zip.entries + [e];
    assert more[..|zip.entries|] == zip.entries && e in more;
    TotalStep(more, |zip.entries|, ZipSize);
    assert more[..|more|] == more;
    var b :| b in zip.entries && IsProviderBinary(b, provider, paths);
    assert b in more;
    assert forall x :: x in zip.entries ==> x in more;
  }

  /** A single sound file is accepted exactly when it is the provider's binary. */
  lemma ProviderOneFile(e: ZipEntry, provider: string, uploadLimit: int64, paths: Paths)
    requires e.kind.Regular? && paths.safe(e.name) && e.copied.Some? && e.copied.value as int == e.size as int
    requires e.size as int <= ExpandedArchiveLimit(uploadLimit) as int
    ensures ProviderArchiveOk(ZipFile(true, [e]), provider, uploadLimit, paths) <==>
            ProviderBinaryNameMatches(paths.base(e.name), "terraform-provider-" + provider)
  {
    hide ProviderBinaryNameMatches;
    var zip := ZipFile(true, [e]);
    assert zip.entries[..|zip.entries| - 1] == [] && e in zip.entries;
    assert Total(zip.entries, ZipSize) == ZipSize(e);
    assert HasBinary(zip.entries, provider, paths) <==> IsProviderBinary(e, provider, paths);
  }

  /** The same for modules. */
  lemma ModuleEntryAdded(tar: TarStream, e: TarEntry, uploadLimit: int64, paths: Paths)
    requires ModuleArchiveOk(tar, uploadLimit, paths)
    ensures var fits := Total(tar.entries, TarSize) + e.size as int <= ExpandedArchiveLimit(uploadLimit) as int;
            var whole := e.size >= 0 && e.copied == Some(e.size);
            ModuleArchiveOk(tar.(entries := tar.entries + [e]), uploadLimit, paths) <==>
            paths.safe(e.name) && (e.kind.Directory? || (e.kind.Regular? && whole && fits))
  {
    var more := tar.entries + [e];
    assert more[..|tar.entries|] == tar.entries && e in more;
    TotalStep(more, |tar.entries|, TarSize);
    assert more[..|more|] == more;
    var b :| b in tar.entries && IsConfig(b, paths);
    assert b in more;
    assert forall x :: x in tar.entries ==> x in more;
  }

  /** A single sound file is accepted exactly when its name ends in .tf or .tf.json. */
  lemma ModuleOneFile(e: TarEntry, uploadLimit: int64, paths: Paths)
    requires e.kind.Regular? && paths.safe(e.name) && e.size >= 0 && e.copied == Some(e.size)
    requires e.size as int <= ExpandedArchiveLimit(uploadLimit) as int
    ensures ModuleArchiveOk(TarStream(true, [e], true, true), uploadLimit, paths) <==>
            exists stem :: paths.base(e.name) == stem + ".tf" || paths.base(e.name) == stem + ".tf.json"
  {
    hide HasSuffix;
    var tar := TarStream(true, [e], true, true);
    assert tar.entries[..|tar.entries| - 1] == [] && e in tar.entries;
    assert Total(tar.entries, TarSize) == TarSize(e);
    assert HasConfig(tar.entries, paths) <==> IsConfig(e, paths);
    SuffixIs(paths.base(e.name), ".tf");
    SuffixIs(paths.base(e.name), ".tf.json");
  }

  lemma SuffixIs(s: string, suffix: string)
    ensures HasSuffix(s, suffix) <==> exists stem :: s == stem + suffix
  {
    if HasSuffix(s, suffix) { assert s == s[..|s| - |suffix|] + suffix; }
  }

  /** The same file declared in the other format. */
  ghost predicate SameFile(z: ZipEntry, t: TarEntry) {
    z.name == t.name && z.kind == t.kind && z.copied == t.copied && z.size as int == t.size as int
  }

  ghost predicate SameFiles(zip: seq<ZipEntry>, tar: seq<TarEntry>) {
    |zip| == |tar| && forall i :: 0 <= i < |zip| ==> SameFile(zip[i], tar[i])
  }

  /** Counting up in one check and down in the other give one verdict on the same files: each accepts
      what the other does, but for the kind of file each asks for. */
  lemma SizeChecksAgree(zip: ZipFile, tar: TarStream, provider: string, uploadLimit: int64, paths: Paths)
    requires SameFiles(zip.entries, tar.entries) && zip.readable && tar.header && tar.ended && tar.trailer
    ensures ProviderArchiveOk(zip, provider, uploadLimit, paths) && HasConfig(tar.entries, paths) <==>
            ModuleArchiveOk(tar, uploadLimit, paths) && HasBinary(zip.entries, provider, paths)
  {
    hide HasBinary, HasConfig;
    var zs, ts := zip.entries, tar.entries;
    SameTotals(zs, ts);
    forall i | 0 <= i < |zs| ensures ZipEntryOk(zs[i], paths) <==> TarEntryOk(ts[i], paths) {}
    if forall e :: e in zs ==> ZipEntryOk(e, paths) {
      forall e | e in ts ensures TarEntryOk(e, paths) {
        var i :| 0 <= i < |ts| && ts[i] == e;
        assert zs[i] in zs;
      }
    }
    if forall e :: e in ts ==> TarEntryOk(e, paths) {
      forall e | e in zs ensures ZipEntryOk(e, paths) {
        var i :| 0 <= i < |zs| && zs[i] == e;
        assert ts[i] in ts;
      }
    }
  }

  /** The two loops on the same files, of which one is a binary and one a configuration. */
  method CheckBoth(zip: ZipFile, tar: TarStream, provider: string, uploadLimit: int64, paths: Paths)
    returns (first: bool, second: bool)
    requires SameFiles(zip.entries, tar.entries) && zip.readable && tar.header && tar.ended && tar.trailer
    requires HasBinary(zip.entries, provider, paths) && HasConfig(tar.entries, paths)
    ensures first == second
  {
    hide ProviderArchiveOk, ModuleArchiveOk, HasBinary, HasConfig, SameFiles;
    first := ValidateProviderArchive(zip, provider, uploadLimit, paths);
    second := ValidateModuleArchive(tar, uploadLimit, paths);
    SizeChecksAgree(zip, tar, provider, uploadLimit, paths);
  }

  lemma {:induction false} SameTotals(zip: seq<ZipEntry>, tar: seq<TarEntry>)
    requires SameFiles(zip, tar)
    ensures Total(zip, ZipSize) == Total(tar, TarSize)
  {
    if zip != [] { SameTotals(zip[..|zip| - 1], tar[..|tar| - 1]); }
  }

  // ---- Binary names --------------------------------------------------------------------------

  function TrimSuffix(s: string, suffix: string): string {
    if HasSuffix(s, suffix) then s[..|s| - |suffix|] else s
  }

  /** The position of "_x", or |s|. */
  function ProtocolMark(s: string): (i: nat)
    ensures i <= |s| && (i < |s| ==> i + 2 <= |s| && s[i..i + 2] == "_x")
  {
    if |s| < 2 then |s|
    else if s[..2] == "_x" then 0
    else ProtocolMark(s[1..]) + 1
  }

  function ProviderBinaryNameMatches(base: string, prefix: string): bool {
    var name := TrimSuffix(base, ".exe");
    if name == prefix then true
    else if !HasPrefix(name, prefix + "_v") then false
    else
      var version := name[|prefix| + 2..];
      var mark := ProtocolMark(version);
      if mark < |version| then
        version[mark + 2..] != "" && AllDigits(version[mark + 2..]) && ValidVersion(version[..mark])
      else ValidVersion(version)
  }

  // An accepted name in the two shapes the server allows.

  ghost predicate BareName(t: string, provider: string) { t == PROVIDER_PREFIX + provider }

  ghost predicate VersionedName(t: string, provider: string, version: string, protocol: string) {
    && ValidVersion(version)
    && (protocol == "" || (|protocol| > 2 && protocol[..2] == "_x" && AllDigits(protocol[2..])))
    && t == PROVIDER_PREFIX + provider + "_v" + version + protocol
  }

  lemma ShapesOfMatch(base: string, provider: string)
    requires ProviderBinaryNameMatches(base, PROVIDER_PREFIX + provider)
    ensures var t := TrimSuffix(base, ".exe");
            BareName(t, provider) || exists version, protocol :: VersionedName(t, provider, version, protocol)
  {
    hide ValidVersion, ProtocolMark;
    var prefix := PROVIDER_PREFIX + provider;
    var t := TrimSuffix(base, ".exe");
    if t != prefix {
      var rest := t[|prefix| + 2..];
      assert t == prefix + "_v" + rest;
      ShapesOfRest(t, provider, rest);
    }
  }

  lemma Regroup(a: string, b: string, c: string)
    ensures a + (b + c) == a + b + c
  {
  }

  lemma ShapesOfRest(t: string, provider: string, rest: string)
    requires t == PROVIDER_PREFIX + provider + "_v" + rest
    requires var mark := ProtocolMark(rest);
             if mark < |rest| then rest[mark + 2..] != "" && AllDigits(rest[mark + 2..]) && ValidVersion(rest[..mark])
             else ValidVersion(rest)
    ensures exists version, protocol :: VersionedName(t, provider, version, protocol)
  {
    hide ValidVersion, ProtocolMark, PROVIDER_PREFIX, IsDigit, AllDigits;
    var mark := ProtocolMark(rest);
    if mark < |rest| {
      var version, protocol := rest[..mark], rest[mark..];
      assert protocol[..2] == rest[mark..mark + 2] && protocol[2..] == rest[mark + 2..];
      assert rest == version + protocol;
      Regroup(PROVIDER_PREFIX + provider + "_v", version, protocol);
      assert VersionedName(t, provider, version, protocol);
    } else {
      assert t == PROVIDER_PREFIX + provider + "_v" + rest + "";
      assert VersionedName(t, provider, rest, "");
    }
  }

  lemma VersionedTail(t: string, provider: string, version: string, protocol: string)
    requires VersionedName(t, provider, version, protocol)
    ensures t == PROVIDER_PREFIX + (provider + "_" + ("v" + version) + protocol)
    ensures '.' in "v" + version && '_' !in "v" + version
  {
    hide ValidVersion;
    VersionAlphabet(version);
    assert "_v" == "_" + "v";
  }

  /** No binary name matches two different provider names. */
  lemma BinaryNamesOneProvider(base: string, a: string, b: string)
    requires ValidArtifactName(a) && ValidArtifactName(b)
    requires ProviderBinaryNameMatches(base, PROVIDER_PREFIX + a) &&
             ProviderBinaryNameMatches(base, PROVIDER_PREFIX + b)
    ensures a == b
  {
    hide ValidVersion, ProviderBinaryNameMatches, VersionedName, ValidArtifactName;
    var t := TrimSuffix(base, ".exe");
    ShapesOfMatch(base, a);
    ShapesOfMatch(base, b);
    NameHasNoDot(a);
    NameHasNoDot(b);
    if BareName(t, a) && BareName(t, b) {
      DropPrefix(PROVIDER_PREFIX, a, b);
    } else if BareName(t, a) {
      var v, x :| VersionedName(t, b, v, x);
      VersionedTail(t, b, v, x);
      DropPrefix(PROVIDER_PREFIX, a, b + "_" + ("v" + v) + x);
    } else if BareName(t, b) {
      var v, x :| VersionedName(t, a, v, x);
      VersionedTail(t, a, v, x);
      DropPrefix(PROVIDER_PREFIX, b, a + "_" + ("v" + v) + x);
    } else {
      var v, x :| VersionedName(t, a, v, x);
      var w, y :| VersionedName(t, b, w, y);
      VersionedTail(t, a, v, x);
      VersionedTail(t, b, w, y);
      DropPrefix(PROVIDER_PREFIX, a + "_" + ("v" + v) + x, b + "_" + ("v" + w) + y);
      SplitAtVersion(a, "v" + v, x, b, "v" + w, y);
    }
  }

  lemma {:induction false} MarkAt(version: string, protocol: string)
    requires '_' !in version && |protocol| > 2 && protocol[..2] == "_x"
    ensures ProtocolMark(version + protocol) == |version|
  {
    var s := version + protocol;
    if version == "" {
      assert s == protocol;
    } else {
      assert s[..2][0] == version[0] && s[1..] == version[1..] + protocol;
      MarkAt(version[1..], protocol);
    }
  }

  lemma ShapeMatches(t: string, provider: string, version: string, protocol: string)
    requires VersionedName(t, provider, version, protocol)
    ensures forall base :: TrimSuffix(base, ".exe") == t ==> ProviderBinaryNameMatches(base, PROVIDER_PREFIX + provider)
  {
    hide ValidVersion, ProtocolMark, TrimSuffix;
    var prefix, rest := PROVIDER_PREFIX + provider, version + protocol;
    VersionAlphabet(version);
    assert t == prefix + "_v" + rest && t[|prefix| + 2..] == rest && prefix + "_v" <= t;
    if protocol == "" {
      NoProtocol(version);
      assert rest == version;
    } else {
      MarkAt(version, protocol);
      assert rest[..|version|] == version && rest[|version| + 2..] == protocol[2..];
    }
  }

  /** Which binary names the server takes for a provider's: its name alone or with a version, which may
      be followed by a protocol number, with or without .exe. */
  lemma BinaryNameExactly(base: string, provider: string)
    ensures var t := TrimSuffix(base, ".exe");
            ProviderBinaryNameMatches(base, PROVIDER_PREFIX + provider) <==>
            BareName(t, provider) || exists version, protocol :: VersionedName(t, provider, version, protocol)
  {
    hide ProviderBinaryNameMatches, VersionedName, TrimSuffix;
    var t := TrimSuffix(base, ".exe");
    if ProviderBinaryNameMatches(base, PROVIDER_PREFIX + provider) { ShapesOfMatch(base, provider); }
    BareMatches(base, provider);
    if version, protocol :| VersionedName(t, provider, version, protocol) {
      ShapeMatches(t, provider, version, protocol);
    }
  }

  lemma BareMatches(base: string, provider: string)
    ensures BareName(TrimSuffix(base, ".exe"), provider) ==> ProviderBinaryNameMatches(base, PROVIDER_PREFIX + provider)
  {
  }

  lemma TrimExe(t: string)
    ensures TrimSuffix(t + ".exe", ".exe") == t && (!HasSuffix(t, ".exe") ==> TrimSuffix(t, ".exe") == t)
  {
  }

  /** Every name of either shape is accepted, bare or with .exe appended. */
  lemma NamesAccepted(provider: string, version: string, protocol: string)
    requires ValidArtifactName(provider) && ValidVersion(version)
    requires protocol == "" || exists digits :: digits != "" && AllDigits(digits) && protocol == "_x" + digits
    ensures var prefix := "terraform-provider-" + provider;
            var versioned := prefix + "_v" + version + protocol;
            && ProviderBinaryNameMatches(prefix, prefix) && ProviderBinaryNameMatches(prefix + ".exe", prefix)
            && ProviderBinaryNameMatches(versioned, prefix) && ProviderBinaryNameMatches(versioned + ".exe", prefix)
  {
    hide ProviderBinaryNameMatches, ValidVersion, ValidArtifactName, TrimSuffix;
    var prefix := "terraform-provider-" + provider;
    var versioned := prefix + "_v" + version + protocol;
    TrimExe(prefix);
    TrimExe(versioned);
    NameHasNoDot(provider);
    BinaryNameExactly(prefix, provider);
    BinaryNameExactly(prefix + ".exe", provider);
    NoDotNoExe(prefix);
    assert VersionedName(versioned, provider, version, protocol) by {
      if digits :| digits != "" && AllDigits(digits) && protocol == "_x" + digits {
        assert protocol[..2] == "_x" && protocol[2..] == digits;
      }
    }
    BinaryNameExactly(versioned + ".exe", provider);
    if !HasSuffix(versioned, ".exe") {
      BinaryNameExactly(versioned, provider);
    } else {
      EndsInExe(prefix + "_v" + version, protocol);
      assert versioned == CliBinaryName(provider, version);
      CliBinaryAccepted(provider, version);
    }
  }

  lemma NoDotNoExe(s: string)
    requires '.' !in s
    ensures !HasSuffix(s, ".exe")
  {
    if |s| >= 4 { assert s[|s| - 4..][0] == s[|s| - 4]; }
  }

  lemma ProtocolEnd(front: string, digits: string)
    requires digits != "" && AllDigits(digits)
    ensures !HasSuffix(front + ("_x" + digits), ".exe")
  {
    var s := front + ("_x" + digits);
    assert s[|s| - 1] == digits[|digits| - 1];
    if |s| >= 4 { assert s[|s| - 4..][3] == s[|s| - 1]; }
  }

  lemma EndsInExe(front: string, protocol: string)
    requires protocol == "" || exists digits :: digits != "" && AllDigits(digits) && protocol == "_x" + digits
    requires HasSuffix(front + protocol, ".exe")
    ensures protocol == "" && front + protocol == front
  {
    if digits :| digits != "" && AllDigits(digits) && protocol == "_x" + digits { ProtocolEnd(front, digits); }
  }

  /** The name under which the CLI builds a provider. */
  function CliBinaryName(name: string, version: string): string { PROVIDER_PREFIX + name + "_v" + version }

  /** A list of identifiers whose text ends in ".exe" ends in `exe` after another identifier. */
  lemma ExeIdentifier(ids: seq<string>, noLeadingZero: bool, front: string)
    requires ids != [] && AreIdentifiers(ids, noLeadingZero) && Join(ids, '.') == front + ".exe"
    ensures Split(front, '.') == ids[..|ids| - 1] && AreIdentifiers(Split(front, '.'), noLeadingZero)
    ensures Join(Split(front, '.'), '.') == front
  {
    JoinOfIdentifiers(ids, noLeadingZero);
    assert front + ".exe" == front + ['.'] + "exe";
    SplitSnoc(front, "exe", '.');
    JoinSplit(front, '.');
    assert ids == Split(front, '.') + ["exe"];
  }

  /** Cutting ".exe" off a valid version leaves a valid version. */
  lemma VersionWithoutExe(version: string, w: string)
    requires ValidVersion(version) && version == w + ".exe"
    ensures ValidVersion(w)
  {
    hide ValidVersion, Decimal, Split;
    var v := Reading(version);
    TextOfReading(version);
    assert version[|version| - 1] == 'e';
    if v.build != [] {
      var front := ExeTail(ReleaseText(v), '+', Join(v.build, '.'), w);
      ExeIdentifier(v.build, false, front);
      var shorter := v.(build := Split(front, '.'));
      assert Text(shorter) == ReleaseText(v) + ['+'] + front;
      ParserAcceptsGrammar(w);
    } else if v.pre != [] {
      var front := ExeTail(CoreText(v), '-', Join(v.pre, '.'), w);
      ExeIdentifier(v.pre, true, front);
      var shorter := v.(pre := Split(front, '.'));
      assert Text(shorter) == CoreText(v) + ['-'] + front;
      ParserAcceptsGrammar(w);
    } else {
      CoreEndsInDigit(v);
    }
  }

  lemma ExeTail(before: string, c: char, after: string, w: string) returns (front: string)
    requires c == '+' || c == '-'
    requires before + [c] + after == w + ".exe"
    ensures after == front + ".exe" && w == before + [c] + front
  {
    var s := before + [c] + after;
    assert s[|before|] == c;
    forall k | |w| <= k < |s| ensures s[k] != c { assert s[k] == ".exe"[k - |w|]; }
    front := w[|before| + 1..];
    assert w == s[..|w|] && before == s[..|before|];
    assert w[|before|] == c && w[..|before|] == before;
    assert after == s[|before| + 1..];
  }

  lemma CoreEndsInDigit(v: Version)
    ensures CoreText(v) != "" && IsDigit(CoreText(v)[|CoreText(v)| - 1])
  {
    var parts := [Decimal(v.major), Decimal(v.minor), Decimal(v.patch)];
    LastOfJoin(parts, '.');
  }

  /** Every binary the CLI names is accepted by the server, versions ending in ".exe" included. */
  lemma CliBinaryAccepted(name: string, version: string)
    requires ValidArtifactName(name) && ValidVersion(version)
    ensures ProviderBinaryNameMatches(CliBinaryName(name, version), PROVIDER_PREFIX + name)
    ensures CliBinaryName(name, version) == "terraform-provider-" + name + "_v" + version
  {
    hide ValidVersion, ValidArtifactName, ProtocolMark;
    var prefix := PROVIDER_PREFIX + name;
    var base := CliBinaryName(name, version);
    VersionAlphabet(version);
    if HasSuffix(base, ".exe") {
      VersionHasSuffix(prefix, version);
      var w := version[..|version| - 4];
      assert version == w + ".exe";
      VersionWithoutExe(version, w);
      assert TrimSuffix(base, ".exe") == prefix + "_v" + w;
      NoProtocol(w);
      assert (prefix + "_v" + w)[|prefix| + 2..] == w;
      assert prefix + "_v" <= prefix + "_v" + w;
    } else {
      NoProtocol(version);
      assert base[|prefix| + 2..] == version;
      assert prefix + "_v" <= base;
    }
  }

  lemma VersionHasSuffix(prefix: string, version: string)
    requires ValidVersion(version) && HasSuffix(prefix + "_v" + version, ".exe")
    ensures HasSuffix(version, ".exe")
  {
    hide ValidVersion;
    var s := prefix + "_v" + version;
    VersionAlphabet(version);
    assert s[|s| - |version|..] == version;
    forall k | 0 <= k < 4 ensures s[|s| - 4 + k] == ".exe"[k] { assert s[|s| - 4..][k] == s[|s| - 4 + k]; }
    assert s[|s| - |version|] == version[0] && s[|s| - |version| - 1] == 'v';
    assert |version| >= 4;
    assert version[|version| - 4..] == s[|s| - 4..];
  }

  lemma {:induction false} NoProtocol(s: string)
    requires '_' !in s
    ensures ProtocolMark(s) == |s|
  {
    if |s| >= 2 {
      assert s[..2][0] == s[0];
      NoProtocol(s[1..]);
    }
  }
}
