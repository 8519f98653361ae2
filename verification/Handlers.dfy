/** The management handlers, step by step with their hand-written undo. Each one either takes effect
    as one step of `Publication` or, if its own undo steps work, leaves every file as it was. The
    ghost results say where the undo begins and which states a call adds to the store's trace. */
module Handlers {
  import opened Options
  import opened Strings
  import opened SemVer
  import opened VersionIndex
  import opened Names
  import opened Registry
  import opened Publication
  import opened Stores
  import opened Signing

  datatype Status = Done | BadRequest | TooLarge | NotFound | Failed | CleanupFailed

  /** What the size limit and the archive checks made of an upload. */
  datatype Upload = Accepted(bytes: Bytes) | Oversize | Rejected

  // ---- Undoing -------------------------------------------------------------------------------

  /** What a handler read before it wrote `k`. */
  ghost predicate Snapshot(f: Files, k: Key, previous: Option<Content>) {
    previous == if k in f then Some(f[k]) else None
  }

  /** `g` differs from `before` on `left` at most, and has every file `before` has. */
  ghost predicate Undoing(before: Files, g: Files, left: set<Key>) {
    SameExcept(before, g, left) && forall k :: k in before ==> k in g
  }

  lemma UndoStep(before: Files, g: Files, left: set<Key>, k: Key, previous: Option<Content>)
    requires Undoing(before, g, left) && Snapshot(before, k, previous)
    ensures Undoing(before, Reset(g, k, previous), left - {k})
  {
  }

  lemma UndoSound(c: Crypto, before: Files, g: Files, k: Key, previous: Option<Content>)
    requires Sound(c, before) && Sound(c, g) && Snapshot(before, k, previous)
    ensures Sound(c, Reset(g, k, previous))
  {
    hide KeyOk, WellNamed;
  }

  lemma Undone(before: Files, g: Files)
    requires Undoing(before, g, {})
    ensures g == before
  {
  }

  lemma UndoingMore(before: Files, g: Files, left: set<Key>, more: set<Key>)
    requires Undoing(before, g, left) && left <= more
    ensures Undoing(before, g, more)
  {
  }

  /** Whether metadata still names files that are there comes down to the one metadata file written. */
  lemma CompleteExcept(before: Files, g: Files, left: set<Key>, metaKey: Key, d: Directory)
    requires Undoing(before, g, left) && CompleteIn(before, d)
    requires IsNaming(metaKey) && Within(metaKey, d) && forall k :: k in left && IsNaming(k) ==> k == metaKey
    ensures CompleteIn(g, d) <==>
            metaKey in g ==> (metaKey in before && g[metaKey] == before[metaKey]) || NamedBy(metaKey, g[metaKey]) in g
  {
  }

  /** Until the index is written, an upload can be stopped at any point of its undo. */
  lemma UndoingIsStop(before: Files, g: Files, left: set<Key>, d: Directory)
    requires Undoing(before, g, left) && forall k :: k in left ==> Within(k, d)
    ensures UploadStop(before, g, d)
  {
  }

  lemma RenewedIsStop(c: Crypto, before: Files, g: Files, d: Directory)
    requires Renewed(c, before, g, d)
    ensures UploadStop(before, g, d) && (CompleteIn(before, d) ==> CompleteIn(g, d))
  {
  }

  /** Where an undo stands: `left` may still differ from `before`, and unless its metadata is `stuck`,
      that is restored. */
  ghost predicate Restoring(before: Files, g: Files, left: set<Key>, metaKey: Key, artifact: Key, stuck: bool) {
    && Undoing(before, g, left)
    && if stuck then metaKey in g && NamedBy(metaKey, g[metaKey]) == artifact && (artifact in before ==> artifact in g)
       else metaKey !in left
  }

  /** The artifact is not left behind, whichever files were. */
  ghost predicate RestoredWell(before: Files, g: Files, all: set<Key>, artifact: Key, d: Directory, stuck: bool) {
    Undoing(before, g, all) && (CompleteIn(before, d) ==> (CompleteIn(g, d) <==> !stuck || artifact in g))
  }

  lemma RestoredSoFar(before: Files, g: Files, left: set<Key>, all: set<Key>, metaKey: Key, artifact: Key,
                      d: Directory, stuck: bool)
    requires Restoring(before, g, left, metaKey, artifact, stuck) && left <= all
    requires IsNaming(metaKey) && Within(metaKey, d) && forall k :: k in all && IsNaming(k) ==> k == metaKey
    ensures RestoredWell(before, g, all, artifact, d, stuck)
  {
    UndoingMore(before, g, left, all);
    if CompleteIn(before, d) { CompleteExcept(before, g, all, metaKey, d); }
  }

  /** One undo step, keeping track of what is left to undo. */
  method UndoOne(s: Store, k: Key, previous: Option<Content>, ghost before: Files, ghost left: set<Key>)
    requires s.Valid() && Sound(s.crypto, before)
    requires Snapshot(before, k, previous) && Undoing(before, s.files, left)
    modifies s
    ensures s.Valid() && s.steps == old(s.steps) + 1 && s.trace == old(s.trace) + [s.files]
    ensures s.files == if s.fails(old(s.steps)) then old(s.files) else Reset(old(s.files), k, previous)
    ensures Undoing(before, s.files, if s.fails(old(s.steps)) then left else left - {k})
  {
    hide Sound, Undoing, Snapshot;
    UndoSound(s.crypto, before, s.files, k, previous);
    UndoStep(before, s.files, left, k, previous);
    s.Undo(k, previous);
  }

  /** The first undo step of an upload: its metadata. */
  method RestoreMeta(s: Store, metaKey: Key, previous: Option<Content>, artifact: Key,
                     ghost before: Files, ghost left: set<Key>, ghost all: set<Key>, ghost d: Directory)
    returns (ghost rest: set<Key>)
    requires s.Valid() && Sound(s.crypto, before) && Snapshot(before, metaKey, previous) &&
             Undoing(before, s.files, left) && left <= all
    requires IsNaming(metaKey) && Within(metaKey, d) && forall k :: k in all && IsNaming(k) ==> k == metaKey
    requires metaKey in s.files && NamedBy(metaKey, s.files[metaKey]) == artifact && artifact in s.files &&
             metaKey != artifact
    modifies s
    ensures s.Valid() && s.steps == old(s.steps) + 1 && s.trace == old(s.trace) + [s.files]
    ensures rest == if s.fails(old(s.steps)) then left else left - {metaKey}
    ensures Restoring(before, s.files, rest, metaKey, artifact, s.fails(old(s.steps))) && artifact in s.files
    ensures RestoredWell(before, s.files, all, artifact, d, s.fails(old(s.steps)))
  {
    hide Sound, Undoing, IsNaming, CompleteIn, NamedBy, RestoredWell;
    ghost var stuck := s.fails(s.steps);
    UndoOne(s, metaKey, previous, before, left);
    rest := if stuck then left else left - {metaKey};
    RestoredSoFar(before, s.files, rest, all, metaKey, artifact, d, stuck);
  }

  /** A later undo step: any other file but the artifact, or at last the artifact. */
  method RestoreNext(s: Store, k: Key, previous: Option<Content>, metaKey: Key, artifact: Key, ghost stuck: bool,
                     ghost before: Files, ghost left: set<Key>, ghost all: set<Key>, ghost d: Directory)
    returns (ghost rest: set<Key>)
    requires s.Valid() && Sound(s.crypto, before) && Snapshot(before, k, previous) && left <= all
    requires IsNaming(metaKey) && Within(metaKey, d) && forall x :: x in all && IsNaming(x) ==> x == metaKey
    requires Restoring(before, s.files, left, metaKey, artifact, stuck) && k != metaKey
    requires k == artifact ==> artifact !in before
    modifies s
    ensures s.Valid() && s.steps == old(s.steps) + 1 && s.trace == old(s.trace) + [s.files]
    ensures rest == if s.fails(old(s.steps)) then left else left - {k}
    ensures Restoring(before, s.files, rest, metaKey, artifact, stuck)
    ensures artifact in s.files <==> artifact in old(s.files) && (k == artifact ==> s.fails(old(s.steps)))
    ensures RestoredWell(before, s.files, all, artifact, d, stuck)
  {
    hide Sound, Undoing, IsNaming, CompleteIn, NamedBy, RestoredWell;
    ghost var failed := s.fails(s.steps);
    UndoKeeps(before, s.files, left, k, previous, artifact);
    UndoOne(s, k, previous, before, left);
    rest := if failed then left else left - {k};
    RestoredSoFar(before, s.files, rest, all, metaKey, artifact, d, stuck);
  }

  lemma UndoKeeps(before: Files, g: Files, left: set<Key>, k: Key, previous: Option<Content>, artifact: Key)
    requires Undoing(before, g, left) && Snapshot(before, k, previous)
    ensures artifact != k ==> (artifact in Reset(g, k, previous) <==> artifact in g)
    ensures artifact in before ==> artifact in g
  {
  }

  /** restorePublication, for an upload that put `metaKey` in place naming `artifact`. If every step
      works the files are those before the upload. The metadata is left naming a missing file exactly
      when the artifact was new, restoring the metadata failed and removing the artifact did not. */
  method RestorePublication(s: Store, metaKey: Key, meta: Option<Content>, sumsKey: Key, sums: Option<Content>,
                            sigKey: Key, sig: Option<Content>, artifact: Key, existed: bool,
                            ghost before: Files, ghost d: Directory)
    returns (ghost added: seq<Files>)
    requires s.Valid() && Sound(s.crypto, before)
    requires !IsNaming(sumsKey) && !IsNaming(sigKey) && !IsNaming(artifact) && IsNaming(metaKey) && Within(metaKey, d)
    requires artifact != sumsKey && artifact != sigKey && existed == (artifact in before)
    requires Snapshot(before, metaKey, meta) && Snapshot(before, sumsKey, sums) && Snapshot(before, sigKey, sig)
    requires Undoing(before, s.files, {metaKey, sumsKey, sigKey} + if existed then {} else {artifact})
    requires metaKey in s.files && NamedBy(metaKey, s.files[metaKey]) == artifact && artifact in s.files
    modifies s
    ensures s.Valid() && s.trace == old(s.trace) + added && s.steps == old(s.steps) + (if existed then 3 else 4)
    ensures s.files in added
    ensures Works(s.fails, old(s.steps), s.steps) ==> s.files == before
    ensures forall g :: g in added ==>
              Undoing(before, g, {metaKey, sumsKey, sigKey} + if existed then {} else {artifact})
    ensures CompleteIn(before, d) ==>
              && (!CompleteIn(s.files, d) <==> !existed && s.fails(old(s.steps)) && !s.fails(old(s.steps) + 3))
              && forall g :: g in added ==> CompleteIn(g, d) || g == s.files
  {
    hide Sound, Undoing, IsNaming, CompleteIn, NamedBy, Snapshot, Restoring, RestoredWell, Within, CryptoOk, Works;
    ghost var all := {metaKey, sumsKey, sigKey} + if existed then {} else {artifact};
    ghost var a, stuck := s.steps, s.fails(s.steps);
    ghost var left := RestoreMeta(s, metaKey, meta, artifact, before, all, all, d);
    added := [s.files];
    left := RestoreNext(s, sumsKey, sums, metaKey, artifact, stuck, before, left, all, d);
    added := added + [s.files];
    left := RestoreNext(s, sigKey, sig, metaKey, artifact, stuck, before, left, all, d);
    added := added + [s.files];
    if !existed {
      MissingBefore(before, artifact);
      left := RestoreNext(s, artifact, None, metaKey, artifact, stuck, before, left, all, d);
      added := added + [s.files];
    }
    AllRestoredWell(before, added, s.files, all, artifact, d, stuck);
    if Works(s.fails, a, s.steps) {
      NoneFailed(s.fails, a, s.steps);
      assert left == {};
      RestoringUndone(before, s.files, metaKey, artifact, stuck);
    }
  }

  lemma NoneFailed(fails: nat -> bool, a: nat, b: nat)
    requires Works(fails, a, b)
    ensures a < b ==> !fails(a)
    ensures a + 1 < b ==> !fails(a + 1)
    ensures a + 2 < b ==> !fails(a + 2)
    ensures a + 3 < b ==> !fails(a + 3)
  {
  }

  lemma AllRestoredWell(before: Files, added: seq<Files>, last: Files, all: set<Key>, artifact: Key, d: Directory,
                        stuck: bool)
    requires last in added && forall g :: g in added ==>
               RestoredWell(before, g, all, artifact, d, stuck) && (artifact in g || g == last)
    ensures forall g :: g in added ==>
              Undoing(before, g, all) && (CompleteIn(before, d) ==> CompleteIn(g, d) || g == last)
    ensures CompleteIn(before, d) ==> (CompleteIn(last, d) <==> !stuck || artifact in last)
  {
    hide Undoing, CompleteIn;
  }

  lemma MissingBefore(before: Files, k: Key)
    requires k !in before
    ensures Snapshot(before, k, None)
  {
  }

  lemma RestoringUndone(before: Files, g: Files, metaKey: Key, artifact: Key, stuck: bool)
    requires Restoring(before, g, {}, metaKey, artifact, stuck)
    ensures g == before
  {
    Undone(before, g);
  }

  // ---- Uploads -------------------------------------------------------------------------------

  lemma RanThen(fails: nat -> bool, a: nat, b: nat, c: nat, n: nat, m: nat, ok: bool)
    requires Ran(fails, a, b, n, true) && Ran(fails, b, c, m, ok)
    ensures Ran(fails, a, c, n + m, ok)
  {
  }

  /** The steps of an upload up to its undo: all `n`, or those up to the first that fails; only the
      first two if nothing would be published. */
  ghost predicate UploadRan(fails: nat -> bool, a: nat, undoFrom: nat, n: nat, shows: bool, done: bool) {
    if shows then Ran(fails, a, undoFrom, n, done)
    else !done && (Ran(fails, a, undoFrom, 2, true) || Ran(fails, a, undoFrom, 2, false))
  }

  /** How many undo steps follow: none after a failed first step, the artifact's removal if it was new
      after a failed second one, later `restores` besides that. */
  ghost function UndoCount(fails: nat -> bool, a: nat, undoFrom: nat, existed: bool, restores: nat): nat {
    if undoFrom <= a + 1 then 0
    else (if undoFrom == a + 2 && fails(a + 1) then 0 else restores) + if existed then 0 else 1
  }

  /** How an accepted upload of `n` steps ended. It succeeds exactly when no step fails and there is
      something to publish. Otherwise its undo begins at `undoFrom`, with `restores` files put back
      besides the artifact: if those steps work the files are as before, and metadata is left naming
      a missing file exactly when the artifact was new, restoring the metadata failed and removing
      the artifact did not. */
  ghost predicate Outcome(fails: nat -> bool, a: nat, b: nat, undoFrom: nat, n: nat, restores: nat, shows: bool,
                          existed: bool, done: bool, before: Files, after: Files, d: Directory)
  {
    && a <= undoFrom <= b && UploadRan(fails, a, undoFrom, n, shows, done)
    && (!done ==> b == undoFrom + UndoCount(fails, a, undoFrom, existed, restores))
    && (!done && Works(fails, undoFrom, b) ==> after == before)
    && (CompleteIn(before, d) ==>
          (!CompleteIn(after, d) <==>
           !done && b == undoFrom + restores + 1 && fails(undoFrom) && !fails(undoFrom + restores)))
  }

  /** When no step ever fails, an upload succeeds exactly when there is something to publish. */
  lemma NothingFails(fails: nat -> bool, a: nat, b: nat, undoFrom: nat, n: nat, restores: nat, shows: bool,
                     existed: bool, done: bool, before: Files, after: Files, d: Directory)
    requires Outcome(fails, a, b, undoFrom, n, restores, shows, existed, done, before, after, d) &&
             forall i :: !fails(i)
    ensures done == shows && (!done ==> after == before)
  {
    hide CompleteIn;
  }

  /** What the first two writes of an upload rest on. */
  ghost predicate Placeable(c: Crypto, f: Files, artifact: Key, bytes: Bytes, metaKey: Key, meta: Content,
                            d: Directory)
  {
    && IsNamed(artifact) && Within(artifact, d) && IsNaming(metaKey) && Within(metaKey, d) &&
       NamedBy(metaKey, meta) == artifact
    && var stored := WithArtifact(f, artifact, bytes);
       && Sound(c, stored) && Sound(c, stored[metaKey := meta])
       && (CompleteIn(f, d) ==> CompleteIn(stored, d) && CompleteIn(stored[metaKey := meta], d))
  }

  /** The first two writes of an upload, with the undo for a failed second one. */
  method PlaceArtifact(s: Store, artifact: Key, bytes: Bytes, metaKey: Key, meta: Content, ghost d: Directory)
    returns (ok: bool, existed: bool, previous: Option<Content>, ghost undoFrom: nat, ghost added: seq<Files>)
    requires s.Valid() && Placeable(s.crypto, s.files, artifact, bytes, metaKey, meta, d)
    modifies s
    ensures s.Valid() && s.trace == old(s.trace) + added && Ran(s.fails, old(s.steps), undoFrom, 2, ok)
    ensures s.steps == undoFrom +
            if ok then 0 else UndoCount(s.fails, old(s.steps), undoFrom, artifact in old(s.files), 0)
    ensures ok ==> existed == (artifact in old(s.files)) && Snapshot(old(s.files), metaKey, previous)
    ensures ok ==> s.files == WithArtifact(old(s.files), artifact, bytes)[metaKey := meta]
    ensures !ok && Works(s.fails, undoFrom, s.steps) ==> s.files == old(s.files)
    ensures forall g :: g in added ==>
              Undoing(old(s.files), g, {metaKey} + if artifact in old(s.files) then {} else {artifact})
    ensures forall g :: g in added && CompleteIn(old(s.files), d) ==> CompleteIn(g, d)
    ensures s.files in added && (Works(s.fails, old(s.steps), old(s.steps) + 2) ==> |added| == 2 && added[1] == s.files)
  {
    hide Sound, CompleteIn, IsNaming, IsNamed, NamedBy, Within, CryptoOk;
    ghost var before, a := s.files, s.steps;
    ok, existed := s.PutStreamImmutable(artifact, bytes);
    previous, undoFrom, added := None, s.steps, [s.files];
    if !ok { return; }
    previous := s.Get(metaKey);
    NamingNotNamed(metaKey);
    ok := s.Put(metaKey, meta);
    undoFrom, added := s.steps, added + [s.files];
    if !ok && !existed {
      AddThenRemove(before, artifact, Blob(bytes));
      s.Undo(artifact, None);
      added := added + [s.files];
    }
  }

  lemma NamingNotNamed(k: Key)
    ensures !(IsNaming(k) && IsNamed(k))
  {
  }

  lemma AddThenRemove(f: Files, k: Key, x: Content)
    requires k !in f
    ensures f[k := x] - {k} == f
  {
  }

  /** The end of a successful upload: if it replaced an artifact, one step removes that, and it is
      there afterwards exactly when it was and the step failed. */
  ghost predicate Removal(fails: nat -> bool, a: nat, b: nat, another: bool, gone: Key, before: Files, after: Files) {
    if another then b == a + 1 && (gone in after <==> gone in before && fails(a)) else b == a
  }

  /** Best-effort removal of an artifact that no metadata names any more. */
  method DropReplaced(s: Store, gone: Key, ghost before: Files, ghost d: Directory)
    requires s.Valid() && Renewed(s.crypto, before, s.files, d) && Within(gone, d) && Unreferenced(s.files, gone)
    modifies s
    ensures s.Valid() && s.steps == old(s.steps) + 1 && s.trace == old(s.trace) + [s.files]
    ensures s.files == if s.fails(old(s.steps)) then old(s.files) else old(s.files) - {gone}
    ensures Renewed(s.crypto, before, s.files, d)
  {
    hide Sound, Renewed;
    DropIsRenewed(s.crypto, before, s.files, gone, d);
    RenewedParts(s.crypto, before, s.files - {gone}, d);
    var _ := s.Delete(gone);
  }

  lemma ProviderPlaceable(c: Crypto, f: Files, p: Provider, v: string, os: string, arch: string, bytes: Bytes)
    requires CryptoOk(c) && Sound(c, f) && WellNamedDir(ProviderDir(p, v)) && ValidArtifactName(os) &&
             ValidArtifactName(arch)
    ensures var meta := MetaFor(c, os, arch, bytes);
            Placeable(c, f, ProviderKey(p, v, meta.filename), bytes,
                      ProviderKey(p, v, PlatformJson(PlatformName(os, arch))),
                      PlatformFile(meta), ProviderDir(p, v))
  {
    hide Sound, CompleteIn, WellNamed, KeyOk, WellNamedDir, ValidArtifactName;
    PlatformFiles(c, p, v, os, arch, bytes);
    ArtifactSound(c, f, ProviderKey(p, v, MetaFor(c, os, arch, bytes).filename), bytes, ProviderDir(p, v));
    PlatformSound(c, f, p, v, os, arch, bytes);
  }

  /** Up to the index write, an upload has touched only the files it can put back. */
  lemma UploadTouched(c: Crypto, before: Files, g: Files, p: Provider, v: string, os: string, arch: string,
                      bytes: Bytes, text: string, sig: Bytes)
    requires Rebuilding(WithPlatform(c, before, p, v, os, arch, bytes), g, p, v, text, sig)
    ensures var artifact := ProviderKey(p, v, MetaFor(c, os, arch, bytes).filename);
            Undoing(before, g,
                    {ProviderKey(p, v, PlatformJson(PlatformName(os, arch))), ProviderKey(p, v, Checksums),
                     ProviderKey(p, v, Signature)} +
                               if artifact in before then {} else {artifact})
  {
  }

  lemma RebuildingComplete(c: Crypto, placed: Files, g: Files, p: Provider, v: string, text: string, sig: Bytes)
    requires Sound(c, placed) && WellNamedDir(ProviderDir(p, v)) && Rebuilding(placed, g, p, v, text, sig)
    ensures CompleteIn(placed, ProviderDir(p, v)) ==> CompleteIn(g, ProviderDir(p, v))
  {
    ChecksumsSound(c, placed, p, v, text, sig);
  }

  /** The checksum rebuild and the index write. */
  method Publish(s: Store, p: Provider, v: string)
    returns (ok: bool, ghost text: string, ghost sig: Bytes, ghost added: seq<Files>)
    requires s.Valid() && WellNamedDir(ProviderDir(p, v))
    modifies s
    ensures s.Valid() && s.trace == old(s.trace) + added
    ensures if Shows(old(s.files), ProviderDir(p, v))
            then Ran(s.fails, old(s.steps), s.steps, if Listed(old(s.files), ProviderDir(p, v)) then 3 else 4, ok)
            else !ok && s.steps == old(s.steps)
    ensures ok ==> IsChecksumText(text, Entries(old(s.files), p, v)) && s.crypto.verifies(text, sig)
    ensures ok ==> s.files == WithIndexed(WithChecksums(old(s.files), p, v, text, sig), ProviderDir(p, v))
    ensures !ok ==> Rebuilding(old(s.files), s.files, p, v, text, sig)
    ensures forall g :: g in added ==> Rebuilding(old(s.files), g, p, v, text, sig) || (ok && g == s.files)
    ensures s.files == old(s.files) || s.files in added
  {
    hide IsChecksumText, Entries, PublishedPlatforms, WellNamedDir, Sound, Listed, Shows, IndexVersions;
    ghost var before, a := s.files, s.steps;
    ok, text, sig, added := RebuildProviderChecksums(s, p, v);
    if !ok {
      if Shows(before, ProviderDir(p, v)) {
        RanShort(s.fails, a, s.steps, 3, if Listed(before, ProviderDir(p, v)) then 3 else 4);
      }
      return;
    }
    SameListing(before, p, v, text, sig);
    ghost var rebuilt, b := s.files, s.steps;
    ok := s.AddVersionToIndex(ProviderDir(p, v));
    RanThen(s.fails, a, b, s.steps, 3, if Listed(rebuilt, ProviderDir(p, v)) then 0 else 1, ok);
    added := added + if Listed(rebuilt, ProviderDir(p, v)) then [] else [s.files];
  }

  lemma PlaceFailed(fails: nat -> bool, a: nat, b: nat, undoFrom: nat, n: nat, restores: nat, shows: bool,
                    existed: bool, before: Files, after: Files, d: Directory)
    requires Ran(fails, a, undoFrom, 2, false) && n >= 2 && restores >= 1
    requires b == undoFrom + UndoCount(fails, a, undoFrom, existed, 0)
    requires Works(fails, undoFrom, b) ==> after == before
    requires CompleteIn(before, d) ==> CompleteIn(after, d)
    ensures Outcome(fails, a, b, undoFrom, n, restores, shows, existed, false, before, after, d) &&
            !Works(fails, a, a + 2)
  {
    hide CompleteIn;
  }

  /** How an upload went on from its third step at `b`, with `m` steps to go, up to `end`. */
  ghost predicate Continued(fails: nat -> bool, b: nat, end: nat, undoFrom: nat, m: nat, restores: nat, shows: bool,
                            existed: bool, done: bool, before: Files, after: Files, d: Directory)
  {
    if done then
      && shows && Ran(fails, b, undoFrom, m, true) && undoFrom <= end
      && (CompleteIn(before, d) ==> CompleteIn(after, d))
    else
      && (if shows then Ran(fails, b, undoFrom, m, false) else undoFrom == b)
      && end == undoFrom + restores + (if existed then 0 else 1)
      && (Works(fails, undoFrom, end) ==> after == before)
      && (CompleteIn(before, d) ==>
          (!CompleteIn(after, d) <==> !existed && fails(undoFrom) && !fails(undoFrom + restores)))
  }

  lemma ContinuedOutcome(fails: nat -> bool, a: nat, end: nat, undoFrom: nat, n: nat, restores: nat, shows: bool,
                         existed: bool, done: bool, before: Files, after: Files, d: Directory)
    requires Ran(fails, a, a + 2, 2, true) && n >= 2 && restores >= 1
    requires Continued(fails, a + 2, end, undoFrom, n - 2, restores, shows, existed, done, before, after, d)
    ensures Outcome(fails, a, end, undoFrom, n, restores, shows, existed, done, before, after, d)
  {
    hide CompleteIn;
    if shows { RanThen(fails, a, a + 2, undoFrom, 2, n - 2, done); }
  }

  lemma RanShort(fails: nat -> bool, a: nat, b: nat, n: nat, m: nat)
    requires Ran(fails, a, b, n, false) && n <= m
    ensures Ran(fails, a, b, m, false)
  {
  }

  lemma SameListing(f: Files, p: Provider, v: string, text: string, sig: Bytes)
    ensures Listed(WithChecksums(f, p, v, text, sig), ProviderDir(p, v)) <==> Listed(f, ProviderDir(p, v))
  {
  }

  lemma PlacedListing(c: Crypto, f: Files, p: Provider, v: string, os: string, arch: string, bytes: Bytes)
    ensures Listed(WithPlatform(c, f, p, v, os, arch, bytes), ProviderDir(p, v)) <==> Listed(f, ProviderDir(p, v))
  {
  }

  /** The states may all be stopped in, and if `before` is complete so are they, but for the last one
      when its metadata was left naming a missing file. */
  ghost predicate Phase(before: Files, added: seq<Files>, d: Directory, last: Files) {
    forall g :: g in added ==> UploadStop(before, g, d) && (CompleteIn(before, d) ==> CompleteIn(g, d) || g == last)
  }

  lemma UndoingPhase(before: Files, added: seq<Files>, left: set<Key>, d: Directory, last: Files)
    requires forall g :: g in added ==>
               Undoing(before, g, left) && (CompleteIn(before, d) ==> CompleteIn(g, d) || g == last)
    requires forall k :: k in left ==> Within(k, d)
    ensures Phase(before, added, d, last)
  {
    hide Undoing, CompleteIn, UploadStop;
    forall g | g in added ensures UploadStop(before, g, d) { UndoingIsStop(before, g, left, d); }
  }

  /** The files an upload can put back. */
  ghost function UploadKeys(c: Crypto, before: Files, p: Provider, v: string, os: string, arch: string,
                            bytes: Bytes): set<Key>
  {
    var artifact := ProviderKey(p, v, MetaFor(c, os, arch, bytes).filename);
    {ProviderKey(p, v, PlatformJson(PlatformName(os, arch))), ProviderKey(p, v, Checksums),
     ProviderKey(p, v, Signature)} +
    if artifact in before then {} else {artifact}
  }

  lemma UploadKeysWithin(c: Crypto, before: Files, p: Provider, v: string, os: string, arch: string, bytes: Bytes)
    ensures forall k :: k in UploadKeys(c, before, p, v, os, arch, bytes) ==> Within(k, ProviderDir(p, v))
  {
  }

  lemma PublishPhase(c: Crypto, before: Files, p: Provider, v: string, os: string, arch: string, bytes: Bytes,
                     text: string, sig: Bytes, added: seq<Files>, done: bool, after: Files, last: Files)
    requires CryptoOk(c) && Sound(c, before) && WellNamedDir(ProviderDir(p, v)) && ValidArtifactName(os) &&
             ValidArtifactName(arch)
    requires var placed := WithPlatform(c, before, p, v, os, arch, bytes);
             && (forall g :: g in added ==> Rebuilding(placed, g, p, v, text, sig) || (done && g == after))
             && (done ==> Renewed(c, before, after, ProviderDir(p, v)))
    ensures Phase(before, added, ProviderDir(p, v), last)
  {
    hide Undoing, CompleteIn, UploadStop, Rebuilding, Renewed, Sound, WellNamedDir, ValidArtifactName;
    var d, placed := ProviderDir(p, v), WithPlatform(c, before, p, v, os, arch, bytes);
    PlatformSound(c, before, p, v, os, arch, bytes);
    forall g | g in added ensures UploadStop(before, g, d) && (CompleteIn(before, d) ==> CompleteIn(g, d)) {
      if Rebuilding(placed, g, p, v, text, sig) {
        UploadTouched(c, before, g, p, v, os, arch, bytes, text, sig);
        UploadKeysWithin(c, before, p, v, os, arch, bytes);
        UndoingIsStop(before, g, UploadKeys(c, before, p, v, os, arch, bytes), d);
        RebuildingComplete(c, placed, g, p, v, text, sig);
      } else {
        RenewedIsStop(c, before, g, d);
      }
    }
  }

  lemma PhaseOfNone(before: Files, d: Directory)
    ensures Phase(before, [], d, before)
  {
  }

  lemma PhaseThen(before: Files, a: seq<Files>, b: seq<Files>, d: Directory, last: Files)
    requires Phase(before, a, d, last) && Phase(before, b, d, last)
    ensures Phase(before, a + b, d, last)
  {
    hide UploadStop, CompleteIn;
  }

  /** Without a dangling last state the phase is complete throughout. */
  lemma PhaseWhole(before: Files, added: seq<Files>, d: Directory, last: Files)
    requires Phase(before, added, d, before)
    ensures Phase(before, added, d, last)
  {
    hide UploadStop, CompleteIn;
  }

  lemma RenewedPhase(c: Crypto, before: Files, g: Files, d: Directory)
    requires Renewed(c, before, g, d)
    ensures Phase(before, [g], d, before)
  {
    hide UploadStop, CompleteIn, Renewed;
    RenewedIsStop(c, before, g, d);
  }

  /** What a failed upload hands to its undo. */
  lemma StillNamed(c: Crypto, before: Files, g: Files, p: Provider, v: string, os: string, arch: string, bytes: Bytes,
                   text: string, sig: Bytes)
    requires Rebuilding(WithPlatform(c, before, p, v, os, arch, bytes), g, p, v, text, sig)
    ensures var artifact := ProviderKey(p, v, MetaFor(c, os, arch, bytes).filename);
            var metaKey := ProviderKey(p, v, PlatformJson(PlatformName(os, arch)));
            metaKey in g && NamedBy(metaKey, g[metaKey]) == artifact && artifact in g
  {
  }

  lemma SumsSnapshots(c: Crypto, before: Files, p: Provider, v: string, os: string, arch: string, bytes: Bytes)
    ensures var placed := WithPlatform(c, before, p, v, os, arch, bytes);
            var sums, sig := ProviderKey(p, v, Checksums), ProviderKey(p, v, Signature);
            && Snapshot(before, sums, if sums in placed then Some(placed[sums]) else None)
            && Snapshot(before, sig, if sig in placed then Some(placed[sig]) else None)
  {
  }

  /** The undo of a provider upload that failed after its first two writes. */
  method AbandonProvider(s: Store, p: Provider, v: string, os: string, arch: string, bytes: Bytes,
                         meta: Option<Content>, sums: Option<Content>, sig: Option<Content>, existed: bool,
                         ghost before: Files, ghost text: string, ghost signature: Bytes)
    returns (ghost added: seq<Files>)
    requires s.Valid() && Sound(s.crypto, before)
    requires Rebuilding(WithPlatform(s.crypto, before, p, v, os, arch, bytes), s.files, p, v, text, signature)
    requires existed == (ProviderKey(p, v, MetaFor(s.crypto, os, arch, bytes).filename) in before)
    requires Snapshot(before, ProviderKey(p, v, PlatformJson(PlatformName(os, arch))), meta)
    requires Snapshot(before, ProviderKey(p, v, Checksums), sums) && Snapshot(before, ProviderKey(p, v, Signature), sig)
    modifies s
    ensures s.Valid() && s.trace == old(s.trace) + added && s.steps == old(s.steps) + 3 + (if existed then 0 else 1)
    ensures Works(s.fails, old(s.steps), s.steps) ==> s.files == before
    ensures Phase(before, added, ProviderDir(p, v), s.files) && s.files in added
    ensures CompleteIn(before, ProviderDir(p, v)) ==>
              (!CompleteIn(s.files, ProviderDir(p, v)) <==>
               !existed && s.fails(old(s.steps)) && !s.fails(old(s.steps) + 3))
  {
    hide Sound, CompleteIn, Rebuilding, Snapshot, Works, Undoing, Phase, WithPlatform;
    UploadTouched(s.crypto, before, s.files, p, v, os, arch, bytes, text, signature);
    StillNamed(s.crypto, before, s.files, p, v, os, arch, bytes, text, signature);
    UploadKeysWithin(s.crypto, before, p, v, os, arch, bytes);
    var artifact := ProviderKey(p, v, MetaFor(s.crypto, os, arch, bytes).filename);
    added := RestorePublication(s, ProviderKey(p, v, PlatformJson(PlatformName(os, arch))), meta,
                                ProviderKey(p, v, Checksums), sums,
                                ProviderKey(p, v, Signature), sig, artifact, existed, before, ProviderDir(p, v));
    UndoingPhase(before, added, UploadKeys(s.crypto, before, p, v, os, arch, bytes), ProviderDir(p, v), s.files);
  }

  /** The end of a successful provider upload: the artifact it replaced, if another one, is removed. */
  method RemoveReplaced(s: Store, p: Provider, v: string, os: string, arch: string, bytes: Bytes,
                        previous: Option<Content>, ghost before: Files, ghost text: string, ghost sig: Bytes)
    returns (ghost added: seq<Files>)
    requires s.Valid() && Sound(s.crypto, before) &&
             s.files == Finished(s.crypto, before, p, v, os, arch, bytes, text, sig)
    requires Snapshot(before, ProviderKey(p, v, PlatformJson(PlatformName(os, arch))), previous)
    requires s.crypto.verifies(text, sig) && Renewed(s.crypto, before, s.files, ProviderDir(p, v))
    requires var placed := WithPlatform(s.crypto, before, p, v, os, arch, bytes);
             PublishedPlatforms(placed, p, v) != {} && IsChecksumText(text, Entries(placed, p, v))
    modifies s
    ensures s.Valid() && s.trace == old(s.trace) + added
    ensures Removal(s.fails, old(s.steps), s.steps, ReplacesArtifact(s.crypto, before, p, v, os, arch, bytes),
                    ReplacedArtifact(before, p, v, os, arch), before, s.files)
    ensures ProviderUploaded(s.crypto, before, s.files, p, v, os, arch, bytes)
    ensures Renewed(s.crypto, before, s.files, ProviderDir(p, v))
    ensures Phase(before, added, ProviderDir(p, v), before) && (s.files == old(s.files) || s.files in added)
  {
    hide Sound, CompleteIn, PublishedPlatforms, Entries, IsChecksumText, Renewed, Phase, WithPlatform, WithIndexed,
         WithChecksums;
    added := [];
    PhaseOfNone(before, ProviderDir(p, v));
    var filename := Artifact(PlatformName(os, arch), s.crypto.hash(bytes));
    if previous.Some? && previous.value.PlatformFile? && previous.value.platform.filename != filename {
      ReplacedIsUnreferenced(s.crypto, before, p, v, os, arch, bytes, text, sig);
      ReplacedStays(s.crypto, before, p, v, os, arch, bytes, text, sig);
      DropReplaced(s, ProviderKey(p, v, previous.value.platform.filename), before, ProviderDir(p, v));
      RenewedPhase(s.crypto, before, s.files, ProviderDir(p, v));
      added := [s.files];
    }
  }

  /** A provider upload from its third step on: the rebuild, the index and the clean-up, or the undo. */
  method ContinueProvider(s: Store, p: Provider, v: string, os: string, arch: string, bytes: Bytes,
                          previousMeta: Option<Content>, existed: bool, ghost before: Files)
    returns (done: bool, ghost undoFrom: nat, ghost added: seq<Files>)
    requires s.Valid() && Sound(s.crypto, before) && s.files == WithPlatform(s.crypto, before, p, v, os, arch, bytes)
    requires WellNamedDir(ProviderDir(p, v)) && ValidArtifactName(os) && ValidArtifactName(arch)
    requires existed == (ProviderKey(p, v, MetaFor(s.crypto, os, arch, bytes).filename) in before)
    requires Snapshot(before, ProviderKey(p, v, PlatformJson(PlatformName(os, arch))), previousMeta)
    modifies s
    ensures s.Valid() && s.trace == old(s.trace) + added && (s.files == old(s.files) || s.files in added)
    ensures Continued(s.fails, old(s.steps), s.steps, undoFrom, if Listed(before, ProviderDir(p, v)) then 3 else 4, 3,
                      Shows(old(s.files), ProviderDir(p, v)), existed, done, before, s.files, ProviderDir(p, v))
    ensures done ==> ProviderUploaded(s.crypto, before, s.files, p, v, os, arch, bytes)
    ensures done ==> Removal(s.fails, undoFrom, s.steps, ReplacesArtifact(s.crypto, before, p, v, os, arch, bytes),
                             ReplacedArtifact(before, p, v, os, arch), before, s.files)
    ensures Phase(before, added, ProviderDir(p, v), s.files)
  {
    hide Sound, CompleteIn, WellNamedDir, ValidArtifactName, PublishedPlatforms, Entries, IsChecksumText, Undoing,
         Renewed, UploadStop, WithIndexed, WithChecksums, WithArtifact, Phase, Rebuilding, Listed, Works,
         ProviderUploaded, IndexVersions, SameExcept, Snapshot, ReplacesArtifact, ReplacedArtifact, KeyOk, WellNamed,
         WellNamedFile, NamedBy, CryptoOk, IsNaming, IsNamed;
    ghost var placed, d := s.files, ProviderDir(p, v);
    var sumsKey, sigKey := ProviderKey(p, v, Checksums), ProviderKey(p, v, Signature);
    var previousSums, previousSig := s.Get(sumsKey), s.Get(sigKey);
    SumsSnapshots(s.crypto, before, p, v, os, arch, bytes);
    ghost var text, sig;
    done, text, sig, added := Publish(s, p, v);
    undoFrom := s.steps;
    PlacedListing(s.crypto, before, p, v, os, arch, bytes);
    if done { FinishedIsRenewed(s.crypto, before, p, v, os, arch, bytes, text, sig); }
    PublishPhase(s.crypto, before, p, v, os, arch, bytes, text, sig, added, done, s.files, before);
    ghost var more;
    if !done {
      more := AbandonProvider(s, p, v, os, arch, bytes, previousMeta, previousSums, previousSig, existed, before,
                              text, sig);
      PhaseWhole(before, added, d, s.files);
      PhaseThen(before, added, more, d, s.files);
    } else {
      more := RemoveReplaced(s, p, v, os, arch, bytes, previousMeta, before, text, sig);
      PhaseThen(before, added, more, d, before);
      PhaseWhole(before, added + more, d, s.files);
      RenewedIsStop(s.crypto, before, s.files, d);
    }
    added := added + more;
  }

  method UploadProvider(s: Store, p: Provider, v: string, os: string, arch: string, upload: Upload)
    returns (status: Status, ghost undoFrom: nat, ghost added: seq<Files>)
    requires s.Valid() && WellNamedDir(ProviderDir(p, v)) && ValidArtifactName(os) && ValidArtifactName(arch)
    modifies s
    ensures s.Valid() && s.trace == old(s.trace) + added && (s.files == old(s.files) || s.files in added)
    ensures !upload.Accepted? ==> status == (if upload.Oversize? then TooLarge else BadRequest) && added == []
    ensures upload.Accepted? ==>
              var placed := WithPlatform(s.crypto, old(s.files), p, v, os, arch, upload.bytes);
              && (status.Done? || status.Failed?)
              && Outcome(s.fails, old(s.steps), s.steps, undoFrom,
                         if Listed(old(s.files), ProviderDir(p, v)) then 5 else 6, 3,
                         Shows(placed, ProviderDir(p, v)),
                         ProviderKey(p, v, MetaFor(s.crypto, os, arch, upload.bytes).filename) in old(s.files),
                         status.Done?, old(s.files), s.files, ProviderDir(p, v))
              && (Works(s.fails, old(s.steps), old(s.steps) + 2) ==> |added| >= 2 && added[1] == placed)
    ensures status.Done? ==> ProviderUploaded(s.crypto, old(s.files), s.files, p, v, os, arch, upload.bytes)
    ensures status.Done? ==>
              Removal(s.fails, undoFrom, s.steps,
                      ReplacesArtifact(s.crypto, old(s.files), p, v, os, arch, upload.bytes),
                      ReplacedArtifact(old(s.files), p, v, os, arch), old(s.files), s.files)
    ensures Phase(old(s.files), added, ProviderDir(p, v), s.files)
  {
    hide Sound, CompleteIn, WellNamedDir, ValidArtifactName, PublishedPlatforms, Entries, IsChecksumText, Undoing,
         Renewed, UploadStop, WithIndexed, WithChecksums, WithArtifact, Phase, Placeable, Rebuilding, Listed, Works,
         Outcome, UndoCount, Continued, ProviderUploaded, ReplacesArtifact, ReplacedArtifact, Removal, IndexVersions,
         SameExcept, Snapshot, KeyOk, WellNamed, WellNamedFile, NamedBy, CryptoOk, IsNaming, IsNamed;
    status, undoFrom, added := TooLarge, s.steps, [];
    match upload {
      case Oversize => PhaseOfNone(s.files, ProviderDir(p, v)); return;
      case Rejected => status := BadRequest; PhaseOfNone(s.files, ProviderDir(p, v)); return;
      case Accepted(_) =>
    }
    ghost var before, a, d := s.files, s.steps, ProviderDir(p, v);
    var bytes := upload.bytes;
    var platform, shasum := PlatformName(os, arch), s.crypto.hash(bytes);
    var filename := Artifact(platform, shasum);
    var artifact, metaKey := ProviderKey(p, v, filename), ProviderKey(p, v, PlatformJson(platform));
    ProviderPlaceable(s.crypto, before, p, v, os, arch, bytes);
    var ok, existed, previousMeta;
    var meta := PlatformFile(PlatformMeta(os, arch, filename, shasum));
    ok, existed, previousMeta, undoFrom, added := PlaceArtifact(s, artifact, bytes, metaKey, meta, d);
    ghost var n := if Listed(before, d) then 5 else 6;
    ghost var placed := WithPlatform(s.crypto, before, p, v, os, arch, bytes);
    UndoingPhase(before, added, {metaKey} + if artifact in before then {} else {artifact}, d, before);
    if !ok {
      PlaceFailed(s.fails, a, s.steps, undoFrom, n, 3, Shows(placed, d), artifact in before, before, s.files, d);
      PhaseWhole(before, added, d, s.files);
      status := Failed;
      return;
    }
    ghost var more;
    var done;
    done, undoFrom, more := ContinueProvider(s, p, v, os, arch, bytes, previousMeta, existed, before);
    PhaseWhole(before, added, d, s.files);
    PhaseThen(before, added, more, d, s.files);
    added := added + more;
    ContinuedOutcome(s.fails, a, s.steps, undoFrom, n, 3, Shows(placed, d), existed, done, before, s.files, d);
    status := if done then Done else Failed;
  }

  /** The failing input: a first upload whose index write and whose metadata removal fail leaves
      metadata that names a missing artifact. */
  method DanglingUpload(c: Crypto, p: Provider, v: string, os: string, arch: string, bytes: Bytes)
    returns (s: Store, status: Status)
    requires CryptoOk(c) && WellNamedDir(ProviderDir(p, v)) && ValidArtifactName(os) && ValidArtifactName(arch)
    requires !HasSuffix(PlatformName(os, arch), "index") && !HasSuffix(PlatformName(os, arch), "metadata")
    ensures fresh(s) && s.Valid() && status.Failed? && !CompleteIn(s.files, ProviderDir(p, v))
    ensures forall n :: s.fails(n) <==> n == 5 || n == 6
  {
    hide PublishedPlatforms, WellNamedDir, ValidArtifactName, Phase, WithPlatform;
    s := new Store(c, n => n == 5 || n == 6, map[]);
    ShowsAfterUpload(c, map[], p, v, os, arch, bytes);
    ghost var undoFrom, added;
    status, undoFrom, added := UploadProvider(s, p, v, os, arch, Accepted(bytes));
    assert s.fails(5) && s.fails(6) && !s.fails(9);
    assert undoFrom == 6;
  }

  // ---- Modules -------------------------------------------------------------------------------

  lemma ModulePlaceable(c: Crypto, f: Files, m: Module, v: string, bytes: Bytes)
    requires CryptoOk(c) && Sound(c, f) && WellNamedDir(ModuleDir(m, v))
    ensures Placeable(c, f, ModuleKey(m, v, Archive(c.hash(bytes))), bytes, ModuleKey(m, v, ArtifactJson),
                      ModuleMetaFile(ModuleMeta(Archive(c.hash(bytes)), c.hash(bytes))), ModuleDir(m, v))
  {
    hide Sound, CompleteIn, WellNamed, KeyOk, WellNamedDir;
    ArchiveFiles(c, m, v, bytes);
    ArtifactSound(c, f, ModuleKey(m, v, Archive(c.hash(bytes))), bytes, ModuleDir(m, v));
    ModuleSound(c, f, m, v, bytes);
  }

  /** The undo of a module upload whose index write failed. */
  method AbandonModule(s: Store, m: Module, v: string, bytes: Bytes, meta: Option<Content>, existed: bool,
                       ghost before: Files)
    returns (ghost added: seq<Files>)
    requires s.Valid() && Sound(s.crypto, before) && s.files == WithModule(s.crypto, before, m, v, bytes)
    requires existed == (ModuleKey(m, v, Archive(s.crypto.hash(bytes))) in before) &&
             Snapshot(before, ModuleKey(m, v, ArtifactJson), meta)
    modifies s
    ensures s.Valid() && s.trace == old(s.trace) + added && s.steps == old(s.steps) + 1 + if existed then 0 else 1
    ensures Works(s.fails, old(s.steps), s.steps) ==> s.files == before
    ensures Phase(before, added, ModuleDir(m, v), s.files) && s.files in added
    ensures CompleteIn(before, ModuleDir(m, v)) ==>
              (!CompleteIn(s.files, ModuleDir(m, v)) <==>
               !existed && s.fails(old(s.steps)) && !s.fails(old(s.steps) + 1))
  {
    hide Sound, CompleteIn, Undoing, Phase, Restoring, RestoredWell, Snapshot;
    var metaKey, archive := ModuleKey(m, v, ArtifactJson), ModuleKey(m, v, Archive(s.crypto.hash(bytes)));
    ghost var d, a, stuck := ModuleDir(m, v), s.steps, s.fails(s.steps);
    ghost var all := {metaKey} + if existed then {} else {archive};
    ModuleTouched(s.crypto, before, m, v, bytes);
    ghost var left := RestoreMeta(s, metaKey, meta, archive, before, all, all, d);
    added := [s.files];
    if !existed {
      MissingBefore(before, archive);
      left := RestoreNext(s, archive, None, metaKey, archive, stuck, before, left, all, d);
      added := added + [s.files];
    }
    AllRestoredWell(before, added, s.files, all, archive, d, stuck);
    UndoingPhase(before, added, all, d, s.files);
    if Works(s.fails, a, s.steps) {
      assert left == {};
      RestoringUndone(before, s.files, metaKey, archive, stuck);
    }
  }

  lemma ModuleTouched(c: Crypto, before: Files, m: Module, v: string, bytes: Bytes)
    ensures var archive := ModuleKey(m, v, Archive(c.hash(bytes)));
            Undoing(before, WithModule(c, before, m, v, bytes),
                    {ModuleKey(m, v, ArtifactJson)} + if archive in before then {} else {archive})
  {
  }

  lemma ModuleListing(c: Crypto, f: Files, m: Module, v: string, bytes: Bytes)
    ensures Listed(WithModule(c, f, m, v, bytes), ModuleDir(m, v)) <==> Listed(f, ModuleDir(m, v))
  {
  }

  method RemoveReplacedArchive(s: Store, m: Module, v: string, bytes: Bytes, previous: Option<Content>,
                               ghost before: Files)
    returns (ghost added: seq<Files>)
    requires s.Valid() && Sound(s.crypto, before) &&
             s.files == WithIndexed(WithModule(s.crypto, before, m, v, bytes), ModuleDir(m, v))
    requires Snapshot(before, ModuleKey(m, v, ArtifactJson), previous) &&
             Renewed(s.crypto, before, s.files, ModuleDir(m, v))
    modifies s
    ensures s.Valid() && s.trace == old(s.trace) + added
    ensures Removal(s.fails, old(s.steps), s.steps, ReplacesArchive(s.crypto, before, m, v, bytes),
                    ReplacedArchive(before, m, v),
                    before, s.files)
    ensures ModuleUploaded(s.crypto, before, s.files, m, v, bytes)
    ensures Renewed(s.crypto, before, s.files, ModuleDir(m, v))
    ensures Phase(before, added, ModuleDir(m, v), before) && (s.files == old(s.files) || s.files in added)
  {
    hide Sound, CompleteIn, Renewed, Phase, WithModule, WithIndexed;
    added := [];
    PhaseOfNone(before, ModuleDir(m, v));
    if previous.Some? && previous.value.ModuleMetaFile? &&
      previous.value.archive.filename != Archive(s.crypto.hash(bytes)) {
      ReplacedArchiveUnreferenced(s.crypto, before, m, v, bytes);
      ReplacedArchiveStays(s.crypto, before, m, v, bytes);
      DropReplaced(s, ModuleKey(m, v, previous.value.archive.filename), before, ModuleDir(m, v));
      RenewedPhase(s.crypto, before, s.files, ModuleDir(m, v));
      added := [s.files];
    }
  }

  lemma RepeatedPhase(before: Files, added: seq<Files>, g: Files, d: Directory)
    requires Phase(before, added, d, before) && g in added
    ensures Phase(before, [g], d, before)
  {
    hide UploadStop, CompleteIn;
  }

  lemma PhasePart(before: Files, more: seq<Files>, g: Files, d: Directory)
    requires Phase(before, [g], d, before) && (more == [] || more == [g])
    ensures Phase(before, more, d, before)
  {
    hide UploadStop, CompleteIn;
  }

  lemma IndexedAlready(f: Files, d: Directory)
    ensures Listed(f, d) ==> WithIndexed(f, d) == f
  {
  }

  /** A module upload from its third step on: the index and the clean-up, or the undo. */
  method ContinueModule(s: Store, m: Module, v: string, bytes: Bytes, previousMeta: Option<Content>, existed: bool,
                        ghost before: Files, ghost earlier: seq<Files>)
    returns (done: bool, ghost undoFrom: nat, ghost added: seq<Files>)
    requires s.Valid() && Sound(s.crypto, before) && s.files == WithModule(s.crypto, before, m, v, bytes) &&
             WellNamedDir(ModuleDir(m, v))
    requires existed == (ModuleKey(m, v, Archive(s.crypto.hash(bytes))) in before) &&
             Snapshot(before, ModuleKey(m, v, ArtifactJson), previousMeta)
    requires Phase(before, earlier, ModuleDir(m, v), before) && s.files in earlier
    modifies s
    ensures s.Valid() && s.trace == old(s.trace) + added && (s.files == old(s.files) || s.files in added)
    ensures Continued(s.fails, old(s.steps), s.steps, undoFrom, if Listed(before, ModuleDir(m, v)) then 0 else 1, 1,
                      true,
                      existed, done, before, s.files, ModuleDir(m, v))
    ensures done ==> ModuleUploaded(s.crypto, before, s.files, m, v, bytes)
    ensures done ==>
              Removal(s.fails, undoFrom, s.steps, ReplacesArchive(s.crypto, before, m, v, bytes),
                      ReplacedArchive(before, m, v),
                             before, s.files)
    ensures Phase(before, added, ModuleDir(m, v), s.files)
  {
    hide Sound, CompleteIn, WellNamedDir, Undoing, Renewed, UploadStop, WithArtifact, WithModule, WithIndexed, Phase,
         Listed, Works, ModuleUploaded, ReplacesArchive, ReplacedArchive, IndexVersions, SameExcept, Snapshot, KeyOk,
         WellNamed, NamedBy, CryptoOk, IsNaming, IsNamed;
    ghost var d := ModuleDir(m, v);
    ModuleListing(s.crypto, before, m, v, bytes);
    ModuleFinishedIsRenewed(s.crypto, before, m, v, bytes);
    IndexedAlready(s.files, d);
    done := s.AddVersionToIndex(ModuleDir(m, v));
    undoFrom := s.steps;
    added := if Listed(before, d) then [] else [s.files];
    if done { RenewedPhase(s.crypto, before, s.files, d); } else { RepeatedPhase(before, earlier, s.files, d); }
    PhasePart(before, added, s.files, d);
    ghost var more;
    if !done {
      more := AbandonModule(s, m, v, bytes, previousMeta, existed, before);
      PhaseWhole(before, added, d, s.files);
      PhaseThen(before, added, more, d, s.files);
    } else {
      more := RemoveReplacedArchive(s, m, v, bytes, previousMeta, before);
      PhaseThen(before, added, more, d, before);
      PhaseWhole(before, added + more, d, s.files);
      RenewedIsStop(s.crypto, before, s.files, d);
    }
    added := added + more;
  }

  method UploadModule(s: Store, m: Module, v: string, upload: Upload)
    returns (status: Status, ghost undoFrom: nat, ghost added: seq<Files>)
    requires s.Valid() && WellNamedDir(ModuleDir(m, v))
    modifies s
    ensures s.Valid() && s.trace == old(s.trace) + added && (s.files == old(s.files) || s.files in added)
    ensures !upload.Accepted? ==> status == (if upload.Oversize? then TooLarge else BadRequest) && added == []
    ensures upload.Accepted? ==>
              && (status.Done? || status.Failed?)
              && Outcome(s.fails, old(s.steps), s.steps, undoFrom,
                         if Listed(old(s.files), ModuleDir(m, v)) then 2 else 3, 1, true,
                         ModuleKey(m, v, Archive(s.crypto.hash(upload.bytes))) in old(s.files),
                         status.Done?, old(s.files), s.files, ModuleDir(m, v))
              && (Works(s.fails, old(s.steps), old(s.steps) + 2) ==>
                    |added| >= 2 && added[1] == WithModule(s.crypto, old(s.files), m, v, upload.bytes))
    ensures status.Done? ==> ModuleUploaded(s.crypto, old(s.files), s.files, m, v, upload.bytes)
    ensures status.Done? ==>
              Removal(s.fails, undoFrom, s.steps, ReplacesArchive(s.crypto, old(s.files), m, v, upload.bytes),
                                     ReplacedArchive(old(s.files), m, v), old(s.files), s.files)
    ensures Phase(old(s.files), added, ModuleDir(m, v), s.files)
  {
    hide Sound, CompleteIn, WellNamedDir, Undoing, Renewed, UploadStop, WithArtifact, Phase, Placeable, Listed, Works,
         Outcome, UndoCount, Continued, Removal, ReplacesArchive, ReplacedArchive, ModuleUploaded, IndexVersions,
         SameExcept, Snapshot, KeyOk, WellNamed, NamedBy, CryptoOk, IsNaming, IsNamed;
    status, undoFrom, added := TooLarge, s.steps, [];
    match upload {
      case Oversize => PhaseOfNone(s.files, ModuleDir(m, v)); return;
      case Rejected => status := BadRequest; PhaseOfNone(s.files, ModuleDir(m, v)); return;
      case Accepted(_) =>
    }
    ghost var before, a, d := s.files, s.steps, ModuleDir(m, v);
    var bytes := upload.bytes;
    var shasum := s.crypto.hash(bytes);
    var archive, metaKey := ModuleKey(m, v, Archive(shasum)), ModuleKey(m, v, ArtifactJson);
    ModulePlaceable(s.crypto, before, m, v, bytes);
    var ok, existed, previousMeta;
    var meta := ModuleMetaFile(ModuleMeta(Archive(shasum), shasum));
    ok, existed, previousMeta, undoFrom, added := PlaceArtifact(s, archive, bytes, metaKey, meta, d);
    ghost var n := if Listed(before, d) then 2 else 3;
    UndoingPhase(before, added, {metaKey} + if archive in before then {} else {archive}, d, before);
    if !ok {
      PlaceFailed(s.fails, a, s.steps, undoFrom, n, 1, true, archive in before, before, s.files, d);
      PhaseWhole(before, added, d, s.files);
      status := Failed;
      return;
    }
    ghost var more;
    var done;
    done, undoFrom, more := ContinueModule(s, m, v, bytes, previousMeta, existed, before, added);
    PhaseWhole(before, added, d, s.files);
    PhaseThen(before, added, more, d, s.files);
    added := added + more;
    ContinuedOutcome(s.fails, a, s.steps, undoFrom, n, 1, true, existed, done, before, s.files, d);
    status := if done then Done else Failed;
  }

  // ---- Deletes and deprecations ----------------------------------------------------------------

  /** deleteProviderVersionHandler and its module twin. The status and the files follow from which of
      the three steps fail; only a failed rollback leaves the directory hidden. */
  method DeleteVersion(s: Store, d: Directory) returns (status: Status, ghost added: seq<Files>)
    requires s.Valid() && WellNamedDir(d)
    modifies s
    ensures s.Valid() && s.trace == old(s.trace) + added && s.files in added
    ensures status == (if !HasFiles(old(s.files), d) || s.fails(old(s.steps)) then NotFound
                       else if s.fails(old(s.steps) + 1) then Failed
                       else if s.fails(old(s.steps) + 2) then CleanupFailed else Done)
    ensures s.steps == old(s.steps) + if status.NotFound? then 1 else 3
    ensures status.Done? || status.CleanupFailed? ==> Deleted(old(s.files), s.files, d)
    ensures status.NotFound? ==> s.files == old(s.files)
    ensures status.Failed? ==> s.files == if s.fails(old(s.steps) + 2) then Outside(old(s.files), d) else old(s.files)
    ensures forall g :: g in added ==> DeleteStop(old(s.files), g, d)
    ensures !status.NotFound? ==> |added| == 3 && added[0] == Outside(old(s.files), d)
  {
    hide Sound, WellNamedDir, Without, HasFiles, Within, IndexVersions, CryptoOk;
    ghost var before := s.files;
    SoundLess(s.crypto, before, Outside(before, d));
    var tree := s.StageDeleteTree(d);
    added := [s.files];
    if tree.None? { return NotFound, added; }
    SameIndex(before, d);
    var removed := s.RemoveVersionFromIndex(d);
    added := added + [s.files];
    if !removed {
      OutsideAndInside(before, d);
      var _ := s.RollbackDelete(tree.value);
      added := added + [s.files];
      return Failed, added;
    }
    var committed := s.CommitDelete();
    added := added + [s.files];
    return if committed then Done else CleanupFailed, added;
  }

  lemma SameIndex(f: Files, d: Directory)
    ensures IndexVersions(Outside(f, d), IndexKey(d)) == IndexVersions(f, IndexKey(d))
  {
  }

  lemma OutsideAndInside(f: Files, d: Directory)
    ensures Outside(f, d) + Inside(f, d) == f
  {
  }

  /** indexHasVersion. */
  method IndexHasVersion(versions: seq<string>, v: string) returns (found: bool)
    ensures found <==> v in versions
  {
    for i := 0 to |versions|
      invariant v !in versions[..i]
    {
      if versions[i] == v { return true; }
      assert versions[..i + 1] == versions[..i] + [versions[i]];
    }
    assert versions[..|versions|] == versions;
    return false;
  }

  /** deprecateProviderHandler and its module twin. */
  method DeprecateVersion(s: Store, d: Directory, message: string) returns (status: Status, ghost added: seq<Files>)
    requires s.Valid() && WellNamedDir(d)
    modifies s
    ensures s.Valid() && s.trace == old(s.trace) + added
    ensures status == if !Listed(old(s.files), d) then NotFound else if s.fails(old(s.steps)) then Failed else Done
    ensures s.steps == old(s.steps) + if status.NotFound? then 0 else 1
    ensures if status.Done? then Deprecated(old(s.files), s.files, d, message) else s.files == old(s.files)
    ensures added == if status.NotFound? then [] else [s.files]
  {
    hide Sound, IndexOk, IndexVersions, SortVersions, CryptoOk, KeyOk, WellNamedDir;
    added := [];
    var index := s.GetIndex(IndexKey(d));
    if index.None? { return NotFound, added; }
    var found := IndexHasVersion(index.value, VersionOf(d));
    if !found { return NotFound, added; }
    MetadataSound(s.crypto, s.files, d, VersionMeta(VersionOf(d), true, message, Carried(s.files, MetadataKey(d))));
    var ok := s.SetDeprecation(MetadataKey(d), VersionOf(d), message);
    return if ok then Done else Failed, [s.files];
  }

  // ---- Runs ----------------------------------------------------------------------------------

  /** One served request: the files before and after it, its first step, where its undo or, if it
      succeeded, its clean-up begins, the step after its last, what it reports, whether it changed no
      file if it failed, and the states it passed through. */
  datatype Reply = Reply(before: Files, after: Files, begin: nat, undoFrom: nat, end: nat, status: Status,
                         undone: bool, passed: seq<Files>)

  /** The status says that the request took effect. */
  predicate Success(status: Status) { status.Done? || status.CleanupFailed? }

  ghost predicate Handled(c: Crypto, fails: nat -> bool, e: Event, r: Reply) {
    && Served(c, r.before, r.after, e, Success(r.status), r.undone)
    && r.begin <= r.undoFrom <= r.end
    && (Works(fails, r.undoFrom, r.end) ==> r.undone && (Success(r.status) ==> Tidy(c, r.before, r.after, e)))
    && Passed(c, r.before, r.after, e, r.undone, r.passed)
    && (r.after == r.before || r.after in r.passed)
  }

  lemma UploadStops(c: Crypto, before: Files, e: Event, added: seq<Files>, last: Files)
    requires (e.UploadProvider? || e.UploadModule?) && Phase(before, added, DirOf(e), last)
    requires forall g :: g in added ==> Sound(c, g)
    ensures forall g :: g in added ==> Stop(c, before, g, e)
  {
    hide Sound, UploadStop, CompleteIn;
  }

  lemma UploadHandled(c: Crypto, fails: nat -> bool, n: nat, restores: nat, shows: bool, existed: bool, e: Event,
                      r: Reply)
    requires (e.UploadProvider? || e.UploadModule?) && Routed(e) && (r.status.Done? || r.status.Failed?)
    requires Outcome(fails, r.begin, r.end, r.undoFrom, n, restores, shows, existed, r.status.Done?, r.before,
                     r.after, DirOf(e))
    requires r.undone == (r.status.Done? || Works(fails, r.undoFrom, r.end))
    requires r.status.Done? ==> TookEffect(c, r.before, r.after, e)
    requires r.status.Done? ==>
               Removal(fails, r.undoFrom, r.end, Replaces(c, r.before, e), Replaced(r.before, e), r.before, r.after)
    requires Phase(r.before, r.passed, DirOf(e), r.after) && (r.after == r.before || r.after in r.passed)
    requires Sound(c, r.after) && forall g :: g in r.passed ==> Sound(c, g)
    ensures Handled(c, fails, e, r)
  {
    hide Sound, CompleteIn, UploadStop, TookEffect, Confined, Routed, Passed, Stop, Replaces, Replaced;
    UploadStops(c, r.before, e, r.passed, r.after);
    UndoneComplete(fails, n, restores, shows, existed, e, r);
    PassedThrough(c, r.before, r.after, e, r.undone, r.passed);
    if r.after in r.passed { StopConfined(c, r.before, r.after, e); } else { ConfinedSame(r.before, DirOf(e)); }
  }

  /** Only a failed undo leaves metadata naming a missing artifact. */
  lemma UndoneComplete(fails: nat -> bool, n: nat, restores: nat, shows: bool, existed: bool, e: Event, r: Reply)
    requires Outcome(fails, r.begin, r.end, r.undoFrom, n, restores, shows, existed, r.status.Done?, r.before,
                     r.after, DirOf(e))
    requires r.undone == (r.status.Done? || Works(fails, r.undoFrom, r.end)) &&
             Phase(r.before, r.passed, DirOf(e), r.after)
    ensures forall x :: x in r.passed && CompleteIn(r.before, DirOf(e)) ==>
              CompleteIn(x, DirOf(e)) || (x == r.after && !r.undone)
  {
    hide CompleteIn, UploadStop, UploadRan;
  }

  lemma ConfinedSame(f: Files, d: Directory)
    ensures Confined(f, f, d)
  {
  }

  lemma StopsHandled(c: Crypto, fails: nat -> bool, e: Event, r: Reply)
    requires (e.Delete? || e.Deprecate?) && Sound(c, r.before) && r.begin <= r.undoFrom <= r.end
    requires Served(c, r.before, r.after, e, Success(r.status), r.undone) &&
             (Works(fails, r.undoFrom, r.end) ==> r.undone)
    requires (forall g :: g in r.passed ==> Stop(c, r.before, g, e)) && (r.after == r.before || r.after in r.passed)
    ensures Handled(c, fails, e, r)
  {
    hide Sound, CompleteIn, TookEffect, Confined, Routed, Passed, Stop, Served, Works;
    forall x | x in r.passed && CompleteIn(r.before, DirOf(e)) ensures CompleteIn(x, DirOf(e)) {
      StopComplete(c, r.before, x, e);
    }
    PassedThrough(c, r.before, r.after, e, r.undone, r.passed);
  }

  /** One request, under the lock that serializes mutations. What it reports as done took effect; what
      it reports as failed changed no file, unless one of its own undo steps failed; and whatever fails
      it stays in its directory. */
  method Handle(s: Store, e: Event) returns (status: Status, ghost r: Reply)
    requires s.Valid() && Routed(e)
    modifies s
    ensures s.Valid() && s.trace == old(s.trace) + r.passed && r.status == status
    ensures r.before == old(s.files) && r.after == s.files && r.begin == old(s.steps) && r.end == s.steps
    ensures Handled(s.crypto, s.fails, e, r)
  {
    hide ProviderUploaded, ModuleUploaded, Deleted, Deprecated, WellNamedDir, ValidArtifactName, Sound, Phase,
         UploadStop, Outcome, Confined, Shows, WithPlatform, Handled, ReplacesArtifact, ReplacedArtifact,
         ReplacesArchive, ReplacedArchive, Removal, Works;
    ghost var before, a := s.files, s.steps;
    ghost var undoFrom, undone, added;
    match e {
      case UploadProvider(p, v, os, arch, bytes) =>
        status, undoFrom, added := UploadProvider(s, p, v, os, arch, Accepted(bytes));
        undone := status.Done? || Works(s.fails, undoFrom, s.steps);
        r := Reply(before, s.files, a, undoFrom, s.steps, status, undone, added);
        UploadHandled(s.crypto, s.fails, if Listed(before, DirOf(e)) then 5 else 6, 3,
                      Shows(WithPlatform(s.crypto, before, p, v, os, arch, bytes), DirOf(e)),
                      ProviderKey(p, v, MetaFor(s.crypto, os, arch, bytes).filename) in before, e, r);
      case UploadModule(m, w, bytes) =>
        status, undoFrom, added := UploadModule(s, m, w, Accepted(bytes));
        undone := status.Done? || Works(s.fails, undoFrom, s.steps);
        r := Reply(before, s.files, a, undoFrom, s.steps, status, undone, added);
        UploadHandled(s.crypto, s.fails, if Listed(before, DirOf(e)) then 2 else 3, 1, true,
                      ModuleKey(m, w, Archive(s.crypto.hash(bytes))) in before, e, r);
      case Delete(d) =>
        status, added := DeleteVersion(s, d);
        undoFrom := if status.Failed? then a + 2 else s.steps;
        r := Reply(before, s.files, a, undoFrom, s.steps, status, !(status.Failed? && s.fails(a + 2)), added);
        WorksAt(s.fails, a + 2);
        StopConfined(s.crypto, before, s.files, e);
        StopsHandled(s.crypto, s.fails, e, r);
      case Deprecate(d, message) =>
        status, added := DeprecateVersion(s, d, message);
        r := Reply(before, s.files, a, s.steps, s.steps, status, true, added);
        StopsHandled(s.crypto, s.fails, e, r);
    }
  }

  lemma WorksAt(fails: nat -> bool, a: nat)
    ensures Works(fails, a, a + 1) ==> !fails(a)
  {
  }

  function Oks(replies: seq<Reply>): seq<bool> {
    seq(|replies|, i requires 0 <= i < |replies| => Success(replies[i].status))
  }

  function Undones(replies: seq<Reply>): seq<bool> {
    seq(|replies|, i requires 0 <= i < |replies| => replies[i].undone)
  }

  /** The states a run passed through, in order. */
  function AllPassed(replies: seq<Reply>): seq<Files> {
    if replies == [] then [] else AllPassed(replies[..|replies| - 1]) + replies[|replies| - 1].passed
  }

  /** A reply fits its request and the one before it. */
  ghost predicate Fits(c: Crypto, fails: nat -> bool, start: nat, f: Files, g: Files, e: Event, r: Reply) {
    Handled(c, fails, e, r) && r.before == f && r.after == g && r.begin == start
  }

  /** Where the steps of the reply after `replies` begin. */
  function NextStep(first: nat, replies: seq<Reply>): nat {
    if replies == [] then first else replies[|replies| - 1].end
  }

  ghost predicate IsRecord(c: Crypto, fails: nat -> bool, first: nat, states: seq<Files>, events: seq<Event>,
                           replies: seq<Reply>)
  {
    && |states| == |events| + 1 && |replies| == |events|
    && forall i :: 0 <= i < |events| ==>
         Fits(c, fails, NextStep(first, replies[..i]), states[i], states[i + 1], events[i], replies[i])
  }

  lemma NoRecord(c: Crypto, fails: nat -> bool, first: nat, f: Files)
    ensures IsRecord(c, fails, first, [f], [], []) && NextStep(first, []) == first && AllPassed([]) == []
  {
  }

  lemma RecordNext(c: Crypto, fails: nat -> bool, first: nat, states: seq<Files>, events: seq<Event>,
                   replies: seq<Reply>, e: Event, r: Reply)
    requires IsRecord(c, fails, first, states, events, replies) && Handled(c, fails, e, r)
    requires r.before == states[|events|] && r.begin == NextStep(first, replies)
    ensures IsRecord(c, fails, first, states + [r.after], events + [e], replies + [r])
    ensures NextStep(first, replies + [r]) == r.end && AllPassed(replies + [r]) == AllPassed(replies) + r.passed
  {
    hide Handled;
    var more := replies + [r];
    assert more[..|replies|] == replies;
    forall i | 0 <= i < |events| + 1
      ensures Fits(c, fails, NextStep(first, more[..i]), (states + [r.after])[i], (states + [r.after])[i + 1],
                   (events + [e])[i], more[i])
    {
      if i < |events| {
        assert more[..i] == replies[..i];
        assert Fits(c, fails, NextStep(first, replies[..i]), states[i], states[i + 1], events[i], replies[i]);
      }
    }
  }

  lemma ServedOf(c: Crypto, fails: nat -> bool, first: nat, states: seq<Files>, events: seq<Event>, replies: seq<Reply>)
    requires IsRecord(c, fails, first, states, events, replies)
    ensures forall i :: 0 <= i < |events| ==>
              Served(c, states[i], states[i + 1], events[i], Oks(replies)[i], Undones(replies)[i])
  {
    hide Served, Passed, Tidy, Works, NextStep;
    forall i | 0 <= i < |events|
      ensures Served(c, states[i], states[i + 1], events[i], Oks(replies)[i], Undones(replies)[i])
    {
      assert Fits(c, fails, NextStep(first, replies[..i]), states[i], states[i + 1], events[i], replies[i]);
    }
  }

  /** What a run leaves. Directories that were consistent, and whose requests could be undone since the
      last step that healed them, are consistent. With no failed undo the registry as a whole stays
      consistent, and the files are what the requests that reported success leave, in order. */
  lemma RecordIsConsistent(c: Crypto, fails: nat -> bool, first: nat, states: seq<Files>, events: seq<Event>,
                           replies: seq<Reply>, hurt: set<Directory>)
    requires CryptoOk(c) && IsRecord(c, fails, first, states, events, replies)
    requires Sound(c, states[0]) && forall d :: d !in hurt ==> DirSettled(c, states[0], d)
    ensures forall d :: d !in Damaged(c, states, events, Undones(replies), hurt) ==> DirSettled(c, states[|events|], d)
    ensures (forall i :: 0 <= i < |events| ==> replies[i].undone) ==>
              && (hurt == {} ==> Settled(c, states[|events|]))
              && Explains(c, states[0], states[|events|], Successes(events, Oks(replies)))
  {
    hide Sound, DirSettled, Explains, Damaged, Successes, Served, Fits, CryptoOk;
    ServedOf(c, fails, first, states, events, replies);
    DamageIsLocal(c, states, events, Oks(replies), Undones(replies), hurt);
    if forall i :: 0 <= i < |events| ==> replies[i].undone {
      SuccessesExplain(c, states, events, Oks(replies), Undones(replies));
      NoDamage(c, states, events, Undones(replies));
    }
  }

  /** A run in which neither an undo step nor the removal of a replaced artifact fails leaves no
      artifact that its metadata does not name. */
  lemma {:induction false} RecordIsTidy(c: Crypto, fails: nat -> bool, first: nat, states: seq<Files>,
                                        events: seq<Event>, replies: seq<Reply>)
    requires CryptoOk(c) && IsRecord(c, fails, first, states, events, replies) && Sound(c, states[0]) &&
             NoStrays(states[0])
    requires forall i :: 0 <= i < |events| ==> Works(fails, replies[i].undoFrom, replies[i].end)
    ensures Sound(c, states[|events|]) && NoStrays(states[|events|])
  {
    hide Sound, NoStrays, Handled, Works, CryptoOk, NextStep;
    if events != [] {
      var n := |events| - 1;
      RecordFront(c, fails, first, states, events, replies);
      RecordIsTidy(c, fails, first, states[..n + 1], events[..n], replies[..n]);
      assert Fits(c, fails, NextStep(first, replies[..n]), states[n], states[n + 1], events[n], replies[n]);
      TidyReply(c, fails, events[n], replies[n]);
    }
  }

  /** No undo of a request on `d` failed. */
  ghost predicate UndoneOn(events: seq<Event>, replies: seq<Reply>, d: Directory)
    requires |replies| == |events|
  {
    forall i :: 0 <= i < |events| && DirOf(events[i]) == d ==> replies[i].undone
  }

  /** In a run in which no undo of a request on `d` fails, the metadata of `d` names artifacts that are
      there in every state passed through, in the middle of requests too. */
  lemma {:induction false} RecordIsComplete(c: Crypto, fails: nat -> bool, first: nat, states: seq<Files>,
                                            events: seq<Event>, replies: seq<Reply>, d: Directory)
    requires IsRecord(c, fails, first, states, events, replies) && CompleteIn(states[0], d)
    requires UndoneOn(events, replies, d)
    ensures CompleteIn(states[|events|], d) && forall x :: x in AllPassed(replies) ==> CompleteIn(x, d)
  {
    hide CompleteIn, Served, Tidy, Works, NextStep, Stop;
    if events != [] {
      var n := |events| - 1;
      RecordFront(c, fails, first, states, events, replies);
      RecordIsComplete(c, fails, first, states[..n + 1], events[..n], replies[..n], d);
      assert Fits(c, fails, NextStep(first, replies[..n]), states[n], states[n + 1], events[n], replies[n]);
      assert Passed(c, states[n], states[n + 1], events[n], replies[n].undone, replies[n].passed);
    }
  }

  lemma RecordFront(c: Crypto, fails: nat -> bool, first: nat, states: seq<Files>, events: seq<Event>,
                    replies: seq<Reply>)
    requires IsRecord(c, fails, first, states, events, replies) && events != []
    ensures IsRecord(c, fails, first, states[..|events|], events[..|events| - 1], replies[..|events| - 1])
  {
    hide Fits, NextStep;
    forall i | 0 <= i < |events| - 1
      ensures Fits(c, fails, NextStep(first, replies[..|events| - 1][..i]), states[i], states[i + 1], events[i],
                   replies[i])
    {
      assert replies[..|events| - 1][..i] == replies[..i];
      assert Fits(c, fails, NextStep(first, replies[..i]), states[i], states[i + 1], events[i], replies[i]);
    }
  }

  lemma TidyReply(c: Crypto, fails: nat -> bool, e: Event, r: Reply)
    requires CryptoOk(c) && Handled(c, fails, e, r) && Sound(c, r.before) && NoStrays(r.before) &&
             Works(fails, r.undoFrom, r.end)
    ensures Sound(c, r.after) && NoStrays(r.after)
  {
    hide Sound, NoStrays, TookEffect, Tidy, Passed, Confined, Routed, CryptoOk;
    if Success(r.status) {
      TidyStep(c, r.before, r.after, e);
      StepKeepsDir(c, r.before, r.after, e);
    }
  }

  /** Any requests, failing at any steps. Each is handled as above, one after another; so the run is as
      the lemmas above say, and every state passed through is sound. */
  method Serve(s: Store, events: seq<Event>, ghost hurt: set<Directory>)
    returns (ghost states: seq<Files>, ghost replies: seq<Reply>)
    requires s.Valid() && forall i :: 0 <= i < |events| ==> Routed(events[i])
    requires forall d :: d !in hurt ==> DirSettled(s.crypto, s.files, d)
    modifies s
    ensures IsRecord(s.crypto, s.fails, old(s.steps), states, events, replies) &&
            s.steps == NextStep(old(s.steps), replies)
    ensures states[0] == old(s.files) && states[|events|] == s.files && s.trace == old(s.trace) + AllPassed(replies)
    ensures forall d :: d !in Damaged(s.crypto, states, events, Undones(replies), hurt) ==>
              DirSettled(s.crypto, s.files, d)
    ensures (forall i :: 0 <= i < |events| ==> replies[i].undone) ==>
              && (hurt == {} ==> Settled(s.crypto, s.files))
              && Explains(s.crypto, old(s.files), s.files, Successes(events, Oks(replies)))
    ensures forall d ::
              CompleteIn(old(s.files), d) && UndoneOn(events, replies, d) ==>
                forall x :: x in AllPassed(replies) ==> CompleteIn(x, d)
    ensures NoStrays(old(s.files)) &&
            (forall i :: 0 <= i < |events| ==> Works(s.fails, replies[i].undoFrom, replies[i].end)) ==>
              NoStrays(s.files)
    ensures s.Valid() && forall f :: f in s.trace ==> Sound(s.crypto, f)
  {
    hide Sound, DirSettled, Routed, Handled, Works, NoStrays, Explains, Fits, Damaged, Successes, NextStep, AllPassed,
         Settled, CryptoOk, CompleteIn;
    states, replies := [s.files], [];
    NoRecord(s.crypto, s.fails, s.steps, s.files);
    for i := 0 to |events|
      invariant s.Valid() && |states| == i + 1 && |replies| == i
      invariant IsRecord(s.crypto, s.fails, old(s.steps), states, events[..i], replies)
      invariant states[0] == old(s.files) && states[i] == s.files && s.steps == NextStep(old(s.steps), replies)
      invariant s.trace == old(s.trace) + AllPassed(replies)
    {
      hide IsRecord;
      assert events[..i + 1] == events[..i] + [events[i]];
      var _, r := Handle(s, events[i]);
      RecordNext(s.crypto, s.fails, old(s.steps), states, events[..i], replies, events[i], r);
      states, replies := states + [s.files], replies + [r];
    }
    assert events[..|events|] == events;
    assert Sound(s.crypto, states[0]);
    RecordIsConsistent(s.crypto, s.fails, old(s.steps), states, events, replies, hurt);
    forall d | CompleteIn(old(s.files), d) && UndoneOn(events, replies, d)
      ensures forall x :: x in AllPassed(replies) ==> CompleteIn(x, d)
    {
      RecordIsComplete(s.crypto, s.fails, old(s.steps), states, events, replies, d);
    }
    if NoStrays(old(s.files)) && forall i :: 0 <= i < |events| ==> Works(s.fails, replies[i].undoFrom, replies[i].end) {
      RecordIsTidy(s.crypto, s.fails, old(s.steps), states, events, replies);
    }
  }
}
