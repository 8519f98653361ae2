/** Startup after a crash: SHA256SUMS and signatures are rebuilt for every version found. Which stops
    of which operations that repairs, and which it does not. */
module Recovery {
  import opened Names
  import opened Registry
  import opened Publication
  import opened Stores
  import opened Signing
  import opened Handlers

  /** A rebuild writes SHA256SUMS and signature files in existing version directories, no more. */
  ghost predicate OnlyChecksums(f: Files, g: Files) {
    && (forall k: Key :: !(k.ProviderKey? && (k.file.Checksums? || k.file.Signature?)) ==>
        (k in f <==> k in g) && (k in f ==> f[k] == g[k]))
    && (forall k: Key :: k in f ==> k in g)
    && (forall k: Key :: k in g && k.ProviderKey? ==> HasFiles(f, ProviderDir(k.provider, k.version)))
  }

  lemma ChecksumsOnly(c: Crypto, f: Files, g: Files, p: Provider, v: string)
    requires Sound(c, f)
    requires forall k: Key :: IsNaming(k) || IsNamed(k) ==> (k in f <==> k in g) && (k in f ==> f[k] == g[k])
    ensures PublishedPlatforms(f, p, v) == PublishedPlatforms(g, p, v) && Entries(f, p, v) == Entries(g, p, v)
  {
    hide KeyOk, WellNamed;
    SoundNames(c, f);
    PlatformsUntouched(f, g, p, v);
    SamePublished(f, g, p, v);
  }

  /** The version directories below providers/. */
  function VersionDirs(f: Files): set<Directory> {
    set k | k in f && k.ProviderKey? :: ProviderDir(k.provider, k.version)
  }

  /** Each version has a turn, the steps of its own rebuild; no two turns share a step. */
  ghost predicate TakeTurns(turns: map<Directory, (nat, nat)>, first: nat, last: nat) {
    && (forall d :: d in turns ==> first <= turns[d].0 <= turns[d].1 <= last)
    && (forall d, e :: d in turns && e in turns && d != e ==> turns[d].1 <= turns[e].0 || turns[e].1 <= turns[d].0)
  }

  /** A version fails exactly when nothing is published in it or one of its own three steps fails. */
  ghost predicate FailsAlone(fails: nat -> bool, f: Files, turns: map<Directory, (nat, nat)>,
                             failures: set<Directory>)
  {
    forall d :: d in turns ==>
      if Shows(f, d) then Ran(fails, turns[d].0, turns[d].1, 3, d !in failures)
      else d in failures && turns[d].0 == turns[d].1
  }

  /** The steps of `d`'s own rebuild, if it has one, work. */
  ghost predicate OwnStepsWork(fails: nat -> bool, f: Files, turns: map<Directory, (nat, nat)>, d: Directory) {
    d in turns && Shows(f, d) ==> Works(fails, turns[d].0, turns[d].1)
  }

  /** rebuildAllProviderChecksums: goes on past failures, and returns them. Every version gets its
      turn, whatever happened in the others; where its own steps work, its checksums match afterwards,
      and where they matched before they still do even if a step fails. */
  method RebuildAll(s: Store) returns (failures: set<Directory>, ghost turns: map<Directory, (nat, nat)>)
    requires s.Valid()
    modifies s
    ensures s.Valid() && OnlyChecksums(old(s.files), s.files)
    ensures turns.Keys == VersionDirs(old(s.files)) && failures <= turns.Keys
    ensures TakeTurns(turns, old(s.steps), s.steps) && FailsAlone(s.fails, old(s.files), turns, failures)
    ensures forall p, v :: ProviderDir(p, v) in turns && ProviderDir(p, v) !in failures ==>
              ChecksumsMatch(s.crypto, s.files, p, v)
    ensures forall p, v :: ChecksumsMatch(s.crypto, old(s.files), p, v) ==> ChecksumsMatch(s.crypto, s.files, p, v)
  {
    hide Sound, PublishedPlatforms, Entries, ChecksumsMatch, OnlyChecksums, VersionDirs, IsChecksumText, WellNamedDir,
         HasFiles, Shows, Rebuilding, WithChecksums, Ran;
    ghost var start := s.files;
    OnlyChecksumsAtFirst(start);
    failures, turns := {}, map[];
    var left := VersionDirs(s.files);
    ghost var all := left;
    VersionDirsHaveFiles(s.crypto, start);
    while left != {}
      invariant s.Valid() && OnlyChecksums(start, s.files) && left <= all
      invariant turns.Keys == all - left && failures <= turns.Keys
      invariant old(s.steps) <= s.steps && TakeTurns(turns, old(s.steps), s.steps) &&
                FailsAlone(s.fails, start, turns, failures)
      invariant forall p, v :: ProviderDir(p, v) in turns && ProviderDir(p, v) !in failures ==>
                  ChecksumsMatch(s.crypto, s.files, p, v)
      invariant forall p, v :: ChecksumsMatch(s.crypto, start, p, v) ==> ChecksumsMatch(s.crypto, s.files, p, v)
      decreases left
    {
      var d :| d in left;
      left := left - {d};
      ghost var before, b := s.files, s.steps;
      ghost var text, sig, added;
      var ok;
      ok, text, sig, added := RebuildProviderChecksums(s, d.p, d.v);
      SameShows(s.crypto, start, before, d);
      RanForward(s.fails, b, s.steps, 3, ok);
      if !ok { failures := failures + {d}; }
      turns := turns[d := (b, s.steps)];
      OneRebuilt(s.crypto, start, before, s.files, d, ok, text, sig);
    }
  }

  lemma RanForward(fails: nat -> bool, a: nat, b: nat, n: nat, ok: bool)
    requires Ran(fails, a, b, n, ok) || a == b
    ensures a <= b
  {
  }

  /** One turn: this version's checksums match if it worked or if they did, and the others are as before. */
  lemma OneRebuilt(c: Crypto, start: Files, f: Files, g: Files, d: Directory, ok: bool, text: string, sig: Bytes)
    requires d.ProviderDir? && Sound(c, f) && OnlyChecksums(start, f) && HasFiles(start, d)
    requires Shows(f, d) ==> IsChecksumText(text, Entries(f, d.p, d.v))
    requires ok ==> Shows(f, d) && c.verifies(text, sig) && g == WithChecksums(f, d.p, d.v, text, sig)
    requires !ok ==> g == f || (Shows(f, d) && g == f[ProviderKey(d.p, d.v, Checksums) := SumsFile(text)])
    ensures OnlyChecksums(start, g)
    ensures ok ==> ChecksumsMatch(c, g, d.p, d.v)
    ensures forall p, v :: ChecksumsMatch(c, f, p, v) ==> ChecksumsMatch(c, g, p, v)
  {
    hide Sound, PublishedPlatforms, Entries, ChecksumsMatch, OnlyChecksums, IsChecksumText, HasFiles, Shows;
    OnlyChecksumsOn(start, f, g, d.p, d.v);
    if ok { RebuiltMatches(c, f, d.p, d.v, text, sig); }
    forall p, v | ChecksumsMatch(c, f, p, v) ensures ChecksumsMatch(c, g, p, v) {
      if ProviderDir(p, v) != d {
        OthersMatch(c, f, g, d.p, d.v, p, v);
      } else if !ok && g != f {
        SameText(c, f, p, v, text);
      }
    }
  }

  /** Where the checksums matched, rewriting SHA256SUMS writes what was there. */
  lemma SameText(c: Crypto, f: Files, p: Provider, v: string, text: string)
    requires ChecksumsMatch(c, f, p, v) && IsChecksumText(text, Entries(f, p, v))
    ensures f[ProviderKey(p, v, Checksums) := SumsFile(text)] == f
  {
    hide IsChecksumText, Entries;
    ChecksumTextUnique(text, f[ProviderKey(p, v, Checksums)].text, Entries(f, p, v));
  }

  lemma VersionDirsHaveFiles(c: Crypto, f: Files)
    requires Sound(c, f)
    ensures forall d :: d in VersionDirs(f) <==> d.ProviderDir? && HasFiles(f, d)
    ensures forall d :: d in VersionDirs(f) ==> WellNamedDir(d)
  {
    hide KeyOk, WellNamedDir;
    forall d ensures d in VersionDirs(f) <==> d.ProviderDir? && HasFiles(f, d) {
      if d.ProviderDir? && HasFiles(f, d) {
        var k :| k in f && Within(k, d);
        assert ProviderDir(k.provider, k.version) == d;
      }
      if d in VersionDirs(f) {
        var k :| k in f && k.ProviderKey? && ProviderDir(k.provider, k.version) == d;
        assert Within(k, d);
      }
    }
  }

  lemma OnlyChecksumsAtFirst(f: Files)
    ensures OnlyChecksums(f, f)
  {
    forall k: Key | k in f && k.ProviderKey? ensures HasFiles(f, ProviderDir(k.provider, k.version)) {
      assert Within(k, ProviderDir(k.provider, k.version));
    }
  }

  lemma OnlyChecksumsOn(f: Files, g: Files, h: Files, p: Provider, v: string)
    requires OnlyChecksums(f, g) && HasFiles(f, ProviderDir(p, v))
    requires SameExcept(g, h, {ProviderKey(p, v, Checksums), ProviderKey(p, v, Signature)}) && g.Keys <= h.Keys
    ensures OnlyChecksums(f, h)
  {
    hide HasFiles;
    forall k: Key | k in h && k.ProviderKey? ensures HasFiles(f, ProviderDir(k.provider, k.version)) {
      if k !in g { assert k.provider == p && k.version == v; }
    }
  }

  lemma SameShows(c: Crypto, f: Files, g: Files, d: Directory)
    requires Sound(c, f) && OnlyChecksums(f, g)
    ensures Shows(f, d) <==> Shows(g, d)
  {
    hide Sound, PublishedPlatforms, Entries;
    if d.ProviderDir? { ChecksumsOnly(c, f, g, d.p, d.v); }
  }

  lemma RebuiltMatches(c: Crypto, f: Files, p: Provider, v: string, text: string, sig: Bytes)
    requires Sound(c, f) && c.verifies(text, sig) && IsChecksumText(text, Entries(f, p, v))
    ensures ChecksumsMatch(c, WithChecksums(f, p, v, text, sig), p, v)
  {
    hide IsChecksumText, Entries, PublishedPlatforms;
    ChecksumsOnly(c, f, WithChecksums(f, p, v, text, sig), p, v);
  }

  lemma OthersMatch(c: Crypto, f: Files, g: Files, p: Provider, v: string, q: Provider, w: string)
    requires Sound(c, f) && ChecksumsMatch(c, f, q, w) && (q, w) != (p, v)
    requires SameExcept(f, g, {ProviderKey(p, v, Checksums), ProviderKey(p, v, Signature)})
    ensures ChecksumsMatch(c, g, q, w)
  {
    hide IsChecksumText, Entries, PublishedPlatforms, Sound, WellNamed, KeyOk;
    ChecksumsOnly(c, f, g, q, w);
  }

  // ---- Which directories a restart repairs ---------------------------------------------------

  /** A rebuild that worked repairs checksums and signature and nothing else: the directory is
      consistent afterwards exactly when its metadata and its place in the index already were. */
  lemma RestartSettles(c: Crypto, f: Files, g: Files, d: Directory)
    requires Sound(c, f) && Sound(c, g) && OnlyChecksums(f, g)
    requires d.ProviderDir? && Shows(f, d) ==> ChecksumsMatch(c, g, d.p, d.v)
    ensures DirSettled(c, g, d) <==> CompleteIn(f, d) && InStep(f, d)
  {
    hide KeyOk, WellNamed, IsChecksumText, Entries, PublishedPlatforms, ChecksumsMatch;
    SameShows(c, f, g, d);
    SameFiles(f, g, d);
    SameNames(c, f, g, d);
  }

  lemma SameFiles(f: Files, g: Files, d: Directory)
    requires OnlyChecksums(f, g)
    ensures HasFiles(f, d) <==> HasFiles(g, d)
  {
    if k :| k in f && Within(k, d) { assert k in g; }
    if k :| k in g && Within(k, d) { assert k.ProviderKey? || k in f; }
  }

  lemma SameNames(c: Crypto, f: Files, g: Files, d: Directory)
    requires Sound(c, f) && OnlyChecksums(f, g)
    ensures (Listed(f, d) <==> Listed(g, d)) && (CompleteIn(f, d) <==> CompleteIn(g, d))
  {
    hide KeyOk, WellNamed;
    SoundNames(c, f);
    forall k | k in f && Within(k, d) && IsNaming(k) ensures NamedBy(k, f[k]) in f <==> NamedBy(k, g[k]) in g {
      assert IsNamed(NamedBy(k, f[k]));
    }
  }

  /** From a consistent directory, a stop is in step exactly when the directory exists if and only if
      the index lists it. An upload to a listed version is in step at every stop, one to an unlisted
      version only before its first write and from its index write on; a delete is not between its
      rename and its index write; a deprecation always is. */
  lemma StopInStep(c: Crypto, f: Files, g: Files, e: Event)
    requires Sound(c, f) && DirSettled(c, f, DirOf(e)) && Stop(c, f, g, e)
    ensures var d := DirOf(e);
            && (e.Delete? || e.Deprecate? ==> CompleteIn(g, d))
            && (CompleteIn(g, d) ==> (InStep(g, d) <==> (Listed(g, d) <==> HasFiles(g, d))))
            && (CompleteIn(g, d) ==>
                  match e
                  case Delete(_) => InStep(g, d) <==> g == f || !Listed(g, d)
                  case Deprecate(_, _) => InStep(g, d)
                  case _ => (InStep(g, d) <==> g == f || Listed(g, d)) && (Listed(f, d) ==> InStep(g, d)))
  {
    hide Sound, Signed, PublishedPlatforms, UploadStop, DeleteStop, Deprecated, CompleteIn;
    SettledParts(c, f, DirOf(e));
    match e
    case Delete(d) => DeleteInStep(c, f, g, d);
    case Deprecate(d, message) => if g != f { DeprecateInStep(c, f, g, d, message); } else { ShownHasFiles(g, d); }
    case _ => if CompleteIn(g, DirOf(e)) { UploadInStep(c, f, g, DirOf(e)); }
  }

  lemma SettledParts(c: Crypto, f: Files, d: Directory)
    requires DirSettled(c, f, d)
    ensures CompleteIn(f, d) && InStep(f, d) && Signed(c, f, d)
  {
  }

  lemma DeleteInStep(c: Crypto, f: Files, g: Files, d: Directory)
    requires CompleteIn(f, d) && InStep(f, d) && DeleteStop(f, g, d)
    ensures CompleteIn(g, d) && (InStep(g, d) <==> (Listed(g, d) <==> HasFiles(g, d))) &&
            (InStep(g, d) <==> g == f || !Listed(g, d))
  {
    hide Listed, PublishedPlatforms, Deleted, Shows;
    ShownHasFiles(g, d);
    ShownHasFiles(f, d);
    if Deleted(f, g, d) { AfterDelete(f, g, d); } else { HiddenStaysListed(f, d); }
  }

  lemma HiddenStaysListed(f: Files, d: Directory)
    ensures !HasFiles(Outside(f, d), d) && (Listed(Outside(f, d), d) <==> Listed(f, d))
  {
  }

  lemma DeprecateInStep(c: Crypto, f: Files, g: Files, d: Directory, message: string)
    requires Sound(c, f) && CompleteIn(f, d) && InStep(f, d) && Deprecated(f, g, d, message)
    ensures CompleteIn(g, d) && InStep(g, d) && Listed(g, d) && HasFiles(g, d)
  {
    hide Sound, Entries, PublishedPlatforms, SamePlatforms;
    CompleteLike(c, f, g, d);
    if d.ProviderDir? {
      SoundNames(c, f);
      PlatformsUntouched(f, g, d.p, d.v);
      SamePublished(f, g, d.p, d.v);
    }
    assert Within(MetadataKey(d), d);
  }

  lemma UploadInStep(c: Crypto, f: Files, g: Files, d: Directory)
    requires InStep(f, d) && UploadStop(f, g, d) && Sound(c, g) && CompleteIn(g, d)
    ensures InStep(g, d) <==> (Listed(g, d) <==> HasFiles(g, d))
    ensures (InStep(g, d) <==> g == f || Listed(g, d)) && (Listed(f, d) ==> InStep(g, d))
  {
    hide PublishedPlatforms, Sound;
    ShownHasFiles(g, d);
    if Listed(f, d) && !(Listed(g, d) && Shows(g, d)) {
      StillShows(c, f, g, d);
    } else if !Listed(f, d) && !HasFiles(g, d) && !Listed(g, d) {
      NothingWritten(f, g, d);
    }
  }

  /** What was shown before an upload is still shown while its metadata names files that are there. */
  lemma StillShows(c: Crypto, f: Files, g: Files, d: Directory)
    requires Shows(f, d) && UploadStop(f, g, d) && Sound(c, g) && CompleteIn(g, d)
    ensures Shows(g, d)
  {
    hide WellNamed, Confined, Listed;
    match d
    case ProviderDir(p, v) =>
      var x :| x in PublishedPlatforms(f, p, v);
      PublishedMember(f, p, v, x);
      var k := ProviderKey(p, v, PlatformJson(x));
      assert k in f && Within(k, d) && IsNaming(k);
      assert k in g && KeyOk(c, k, g[k]);
      assert NamedBy(k, g[k]) in g;
      PublishedMember(g, p, v, x);
    case ModuleDir(m, w) =>
      var k := ModuleKey(m, w, ArtifactJson);
      assert k in f && Within(k, d) && IsNaming(k);
  }

  lemma NothingWritten(f: Files, g: Files, d: Directory)
    requires UploadStop(f, g, d) && !HasFiles(f, d) && !HasFiles(g, d) && !Listed(g, d)
    ensures g == f
  {
    hide Shows;
    forall k ensures (k in f <==> k in g) && (k in f ==> f[k] == g[k]) {
      if k in f { assert !Within(k, d); }
      if k in g { assert !Within(k, d); }
    }
  }

  lemma RestartInStep(c: Crypto, f: Files, g: Files, d: Directory)
    requires Sound(c, f) && OnlyChecksums(f, g) && DirSettled(c, g, d)
    ensures CompleteIn(f, d) && InStep(f, d)
  {
    hide PublishedPlatforms, Sound, CompleteIn, Listed;
    SameShows(c, f, g, d);
    SameFiles(f, g, d);
    SameNames(c, f, g, d);
  }

  /** Stop any operation between any two steps of it or of its undo, in a consistent registry, and
      start again. Every other directory is consistent, whatever steps of the restart fail. If the
      steps of its own rebuild work, the operation's directory, and so the registry, is consistent
      exactly when the stop left it with all the artifacts its metadata names, and there exactly when
      the index lists it; if they do not, only then. Everything but SHA256SUMS and signatures is as
      the crash left it. */
  method CrashAndRestart(c: Crypto, fails: nat -> bool, f: Files, ghost before: Files, ghost e: Event)
    returns (t: Store, failures: set<Directory>, ghost turns: map<Directory, (nat, nat)>)
    requires CryptoOk(c) && Settled(c, before) && Stop(c, before, f, e)
    ensures fresh(t) && t.Valid() && t.crypto == c && t.fails == fails && OnlyChecksums(f, t.files)
    ensures turns.Keys == VersionDirs(f) && failures <= turns.Keys
    ensures TakeTurns(turns, 0, t.steps) && FailsAlone(fails, f, turns, failures)
    ensures forall d :: d != DirOf(e) ==> DirSettled(c, t.files, d)
    ensures Settled(c, t.files) ==> CompleteIn(f, DirOf(e)) && (Listed(f, DirOf(e)) <==> HasFiles(f, DirOf(e)))
    ensures OwnStepsWork(fails, f, turns, DirOf(e)) ==>
              (Settled(c, t.files) <==> CompleteIn(f, DirOf(e)) && (Listed(f, DirOf(e)) <==> HasFiles(f, DirOf(e))))
  {
    hide Sound, DirSettled, OnlyChecksums, Stop, CompleteIn, InStep, HasFiles, Listed, ChecksumsMatch, Shows,
         Confined, VersionDirs, TakeTurns, FailsAlone, OwnStepsWork;
    StopSound(c, before, f, e);
    StopConfined(c, before, f, e);
    StopInStep(c, before, f, e);
    t := new Store(c, fails, f);
    failures, turns := RebuildAll(t);
    RestartOthers(c, before, f, t.files, DirOf(e));
    if Settled(c, t.files) { RestartInStep(c, f, t.files, DirOf(e)); }
    if OwnStepsWork(fails, f, turns, DirOf(e)) {
      OwnTurn(c, fails, f, turns, failures, DirOf(e));
      RestartSettles(c, f, t.files, DirOf(e));
    }
  }

  lemma OwnTurn(c: Crypto, fails: nat -> bool, f: Files, turns: map<Directory, (nat, nat)>, failures: set<Directory>,
                d: Directory)
    requires Sound(c, f) && turns.Keys == VersionDirs(f) && FailsAlone(fails, f, turns, failures) &&
             OwnStepsWork(fails, f, turns, d)
    ensures d.ProviderDir? && Shows(f, d) ==> d in turns && d !in failures
  {
    hide Sound, Shows, VersionDirs, HasFiles;
    VersionDirsHaveFiles(c, f);
    ShownHasFiles(f, d);
  }

  lemma StopSound(c: Crypto, f: Files, g: Files, e: Event)
    requires Stop(c, f, g, e)
    ensures Sound(c, g)
  {
  }

  lemma RestartOthers(c: Crypto, before: Files, f: Files, g: Files, d: Directory)
    requires Sound(c, f) && Sound(c, g) && OnlyChecksums(f, g) && Confined(before, f, d) && Settled(c, before)
    requires forall p, v :: ChecksumsMatch(c, f, p, v) ==> ChecksumsMatch(c, g, p, v)
    ensures forall other :: other != d ==> DirSettled(c, g, other)
  {
    hide Sound, DirSettled, OnlyChecksums, Confined, ChecksumsMatch, Shows, CompleteIn, InStep;
    forall other | other != d ensures DirSettled(c, g, other) {
      ConfinedKeepsOthers(c, before, f, d, other);
      SettledParts(c, f, other);
      RestartSettles(c, f, g, other);
    }
  }

  /** A stop uploads pass through, after the metadata write: a restart repairs it exactly when the
      version was listed before. */
  method CrashDuringUpload(s: Store, p: Provider, v: string, os: string, arch: string, bytes: Bytes, fails: nat -> bool)
    returns (t: Store, ghost turns: map<Directory, (nat, nat)>)
    requires s.Valid() && Settled(s.crypto, s.files) && Works(s.fails, s.steps, s.steps + 2)
    requires WellNamedDir(ProviderDir(p, v)) && ValidArtifactName(os) && ValidArtifactName(arch)
    modifies s
    ensures WithPlatform(s.crypto, old(s.files), p, v, os, arch, bytes) in s.trace
    ensures OnlyChecksums(WithPlatform(s.crypto, old(s.files), p, v, os, arch, bytes), t.files)
    ensures Settled(s.crypto, t.files) ==> Listed(old(s.files), ProviderDir(p, v))
    ensures OwnStepsWork(fails, WithPlatform(s.crypto, old(s.files), p, v, os, arch, bytes), turns,
                         ProviderDir(p, v)) ==>
              (Settled(s.crypto, t.files) <==> Listed(old(s.files), ProviderDir(p, v)))
  {
    hide Sound, DirSettled, CompleteIn, Works, Listed, PublishedPlatforms, WellNamedDir, ValidArtifactName,
         OnlyChecksums, Phase, UploadStop, Outcome, TakeTurns, FailsAlone, OwnStepsWork, VersionDirs;
    ghost var before, e := s.files, UploadProvider(p, v, os, arch, bytes);
    var placed := WithPlatform(s.crypto, s.files, p, v, os, arch, bytes);
    SettledParts(s.crypto, before, DirOf(e));
    PlatformSound(s.crypto, before, p, v, os, arch, bytes);
    PlacedListing(s.crypto, before, p, v, os, arch, bytes);
    ghost var added;
    var status;
    ghost var undoFrom;
    status, undoFrom, added := Handlers.UploadProvider(s, p, v, os, arch, Accepted(bytes));
    assert placed == added[1] && placed in added;
    UploadStops(s.crypto, before, e, added, s.files);
    var failures;
    t, failures, turns := CrashAndRestart(s.crypto, fails, placed, before, e);
    assert Within(ProviderKey(p, v, PlatformJson(PlatformName(os, arch))), DirOf(e));
  }

  /** A stop deletes pass through, between the rename and the index write, which no restart repairs. */
  method CrashDuringDelete(s: Store, d: Directory, fails: nat -> bool) returns (t: Store)
    requires s.Valid() && Settled(s.crypto, s.files) && WellNamedDir(d) && HasFiles(s.files, d) && !s.fails(s.steps)
    modifies s
    ensures Outside(old(s.files), d) in s.trace
    ensures OnlyChecksums(Outside(old(s.files), d), t.files)
    ensures !Settled(s.crypto, t.files)
  {
    hide Sound, DirSettled, CompleteIn, Works, Listed, WellNamedDir, OnlyChecksums, DeleteStop, TakeTurns, FailsAlone,
         OwnStepsWork, VersionDirs;
    ghost var before, e := s.files, Delete(d);
    var hidden := Outside(s.files, d);
    SettledParts(s.crypto, before, d);
    ghost var added;
    var status;
    status, added := DeleteVersion(s, d);
    assert hidden == added[0] && hidden in added;
    HiddenStaysListed(before, d);
    ghost var turns;
    var failures;
    t, failures, turns := CrashAndRestart(s.crypto, fails, hidden, before, e);
  }
}
