# Terraform registry: verified model

A Dafny model of the registry server's stateful core and of the parsers and limits it rests on,
with proofs over every input, every run and every failure pattern. `dafny verify dfyconfig.toml`
checks it.

What is modelled, by file:

- `Options`, `Strings`: an optional value, and the text functions taken from Go's standard library.
- `SemVer`, `Precedence`: the version parser, the CLI's second parser, the comparison, the grammar
  and section 11 precedence of Semantic Versioning 2.0.0, the last two stated independently of the code.
- `Alphabets`: the accepted texts with every alphabet and limit written out, part by part.
- `StableSort`, `VersionIndex`: stable sorting and the version list of an index file.
- `Names`, `Registry`: file names, the file map, and its invariants. `Sound` holds in every state, even
  in the middle of an operation and after failed undo steps: every key is well named and every file is
  what its key says. `CompleteIn` says that a version directory's metadata names artifacts that are
  there, `DirSettled` that the directory, its place in the index, its SHA256SUMS and its signature
  agree, `Settled` that all directories do.
- `Publication`: each operation as one atomic step on the file map, the states it may be stopped in,
  and runs of steps.
- `Store`: the store as a class over a map of files. Every write, removal, rename and signature is one
  step; the function `fails`, which is left open, says which steps fail. The ghost field `trace` holds
  every state passed through.
- `Sums`: SHA256SUMS as a client takes it apart.
- `Signing`, `Handlers`, `Recovery`: the checksum rebuild, the management handlers with their
  hand-written undo, and startup after a crash. The provider and module handlers for deletes and
  deprecations differ only in the directory and index they name, so each pair is one method over a
  directory. Handlers are proved to refine the steps of `Publication`.
- `Reads`, `Scan`: the versions list, the two mirror documents, the download, the latest module and
  the directory scan.
- `Visibility`: from a management request to what clients then see, are offered and can verify.
- `PublicPaths`: keys as paths, and the download route's file patterns.
- `Locking`: concurrent index updates under per-key mutexes, as interleaved steps.
- `RateLimiter`, `Admission`: the token bucket and its cleanup over real time, and which requests of
  a run are admitted, said without the bucket.
- `Archives`: the archive size checks in 64-bit arithmetic and the provider binary's name.

Things the code does that a reader may not expect, each proved exactly:

- A platform whose name ends in `index` or `metadata` is hidden from listings and from SHA256SUMS. Its
  upload succeeds if and only if the version already has a published platform, and then its download
  works (`Publication.UploadIsListed`, `Publication.ShowsAfterUpload`, `Reads.HiddenPlatform`;
  `Reads.HiddenExample` is linux_index), but no line of SHA256SUMS vouches for it
  (`Visibility.UploadThenDownload`). The model makes no assumption about architecture names.
- A prerelease number of 2^64 or more is compared as text. `Precedence.Section11Exactly` says for
  which pairs of versions the comparison still is section 11's; `Precedence.OversizedExample` is a pair
  for which it is not.
- With an invalid text among the versions the order may fail to be transitive.
  `Precedence.TransitiveExactly` says on which sets of texts it is: those where no invalid text lies, as
  text, after the later and before the earlier of two valid versions. `Precedence.InvalidTextBreaksTransitivity`
  is a triple for which it is not. Index files hold valid versions only.
- A failed upload undoes its writes, ignoring errors. If each of its own undo steps works, every file
  is as before, whatever failed earlier. Metadata is left naming a missing artifact if and only if the
  artifact was new, restoring the metadata failed and removing the artifact did not
  (`Handlers.RestorePublication`, `Handlers.UploadProvider`, `Handlers.UploadModule`;
  `Handlers.DanglingUpload` is a run that ends there). Such damage stays in the one directory, until a
  delete or a module upload of it takes effect (`Publication.DamageIsLocal`).
- Startup repairs checksums and signatures but not the version index, each version by its own steps.
  Of the states an operation on a consistent registry can be stopped in, it repairs exactly those in
  which metadata names artifacts that are there and the version's directory exists if and only if the
  index lists it (`Recovery.CrashAndRestart`); the other directories stay consistent whatever steps of
  the startup fail. So an upload to a listed version is repaired at every such stop, and not repaired
  are a first upload stopped between its first write and its index write (`Recovery.CrashDuringUpload`)
  and a delete stopped between its rename and its index write (`Recovery.CrashDuringDelete`).
- A delete whose clean-up fails leaves a hidden tree, which the directory scan lists as a version
  (`Scan.ScanMatchesIndex`).

SHA-256 and OpenPGP are abstract functions (`Registry.Crypto`): hashes are 64 hexadecimal digits, and
a signature, which may differ from one call to the next, verifies for the text it was made for. No
injectivity is assumed. Text is a sequence of code points.

## Model

| member | source | states |
|---|---|---|
| Strings.JoinSplit | registry-server/semver.go:108 | Joining the pieces of a split gives the text back, and no piece holds the separator |
| Strings.SplitJoin | registry-server/semver.go:108 | Splitting a joined list gives the list back, so dot-splitting of identifiers is invertible |
| SemVer.CheckIdentifiers | registry-server/semver.go:104-126 | The identifier loop accepts exactly nonempty dot-separated identifiers over letters, digits and hyphen, without leading zeros in numbers when that is enforced |
| SemVer.ParseVersion | registry-server/semver.go:73-102 | The parser's cuts and loops compute the specified parse |
| SemVer.ValidImportVersion | cmd/tfreg/import.go:221-270 | The CLI's separate check accepts exactly the texts of the grammar, which are those the server accepts |
| SemVer.DecimalOfDecimalValue | registry-server/semver.go:92-95 | Without leading zeros a number is written in one way |
| SemVer.ParseText | registry-server/semver.go:73-102 | Parsing the text of any version of the grammar returns its numbers and prerelease identifiers |
| SemVer.TextOfReading | registry-server/semver.go:73-102 | What the parser reads from an accepted text is a version of the grammar whose text is the input |
| SemVer.ParserAcceptsGrammar | registry-server/semver.go:73-139 | The parser accepts exactly the grammar of sections 2, 9 and 10 with core numbers below 2^64 |
| SemVer.TextInjective | registry-server/semver.go:73-102 | The grammar is unambiguous: different versions have different texts |
| SemVer.VersionAlphabet | registry-server/validation.go:14-15 | Every accepted version starts with a digit, holds a dot, no underscore and no slash, and fits the alphabet of the file patterns |
| Alphabets.BuildExactly | registry-server/semver.go:73-126 | After a plus sign exactly the dot-separated identifiers over the 63 characters of section 10 are accepted |
| Alphabets.PrereleaseExactly | registry-server/semver.go:73-126 | After a hyphen exactly the dot-separated identifiers over the 63 characters of section 9 are accepted, numbers without leading zeros |
| Alphabets.CoreExactly | registry-server/semver.go:86-98 | Of three dot-separated texts exactly those of decimal numbers without leading zeros up to 2^64 - 1 are accepted |
| Alphabets.OneCharacter | registry-server/semver.go:104-126 | Of all characters exactly the 63 letters, digits and hyphen make a prerelease or build identifier on their own |
| Alphabets.LargestNumber | registry-server/semver.go:92-95 | A core number is accepted if and only if it is at most 18446744073709551615 |
| Alphabets.NameExactly | registry-server/validation.go:12 | Names are 1 to 64 letters, digits, hyphens and underscores, and start with a letter or digit |
| Alphabets.DigestExactly | registry-server/validation.go:14-16 | Digests in file names are 64 lower-case hexadecimal digits |
| Precedence.CompareVersions | registry-server/semver.go:19-71 | The comparison's loops and early returns compute the specified comparison, invalid texts included |
| Precedence.SemverFlips | registry-server/semver.go:19-71 | Swapping the operands negates the result, for all texts |
| Precedence.SemverChains | registry-server/semver.go:19-71 | On valid versions the order is transitive |
| Precedence.SemverTies | registry-server/semver.go:19-71 | Two valid versions tie exactly when their texts agree up to build metadata |
| Precedence.ChainsUnlessOneInvalid | registry-server/semver.go:20-31 | The comparison chains for every three texts, valid or not, unless exactly one of them is invalid |
| Precedence.TransitiveExactly | registry-server/semver.go:20-31 | On a set of texts the order is transitive if and only if no invalid one lies, as text, after the later and before the earlier of two valid versions |
| Precedence.InvalidTextBreaksTransitivity | registry-server/semver.go:20-31 | 10.0.0 < 1x < 9.0.0 and 9.0.0 < 10.0.0 by the comparison, a case of that condition |
| Precedence.Section11Exactly | registry-server/semver.go:25-70 | The comparison of two valid versions is section 11's precedence if and only if the first differing identifiers, when reached, are not an oversized number that text order misplaces |
| Precedence.Section11ForOrdinaryNumbers | registry-server/semver.go:128-139 | A version agrees with section 11 against all versions of ordinary numbers if and only if its own prerelease numbers are below 2^64 |
| Precedence.OversizedExample | registry-server/semver.go:137-138 | 1.0.0-18446744073709551616 against 1.0.0-- is misordered |
| Precedence.CoreExample | registry-server/semver.go:19-32 | The chain of section 11.2 comes out in its order |
| Precedence.PrereleaseExample | registry-server/semver.go:33-71 | The chain of section 11.4 comes out in its order |
| StableSort.Sort | registry-server/semver.go:15-17 | The in-place sort leaves the array equal to the specified stable sort of what it held |
| StableSort.SortSorts | registry-server/semver.go:15-17 | The result is sorted whenever the comparison is an order on the elements |
| StableSort.SortPermutes | registry-server/semver.go:15-17 | The result is a permutation of the input |
| StableSort.SortStable | registry-server/semver.go:15-17 | Elements that tie keep their relative order |
| StableSort.StableSortIsUnique | registry-server/semver.go:15-17 | A sequence is the result if and only if it is sorted and stable, so any stable algorithm gives it |
| VersionIndex.SortSemanticVersions | registry-server/semver.go:14-17 | Sorts the versions in place by the comparison |
| VersionIndex.IndexIsFixed | registry-server/storage.go:593 | Re-sorting a well-kept index on read changes nothing |
| VersionIndex.AddKeepsIndex | registry-server/storage.go:606-612 | Adding a version keeps the index valid, sorted and duplicate-free, with that version added and no other |
| VersionIndex.RemoveKeepsIndex | registry-server/storage.go:630-636 | Removing a version keeps the index valid, sorted and duplicate-free |
| VersionIndex.RemoveUndoesAdd | registry-server/storage.go:597-643 | Removing a version just added gives back the index as it was |
| VersionIndex.IndexMatchesScan | registry-server/storage.go:491 | Sorting a directory listing gives the index if and only if build variants come in the same order in both |
| VersionIndex.ScanEqualsIndex | registry-server/storage.go:472-512 | Without build variants, sorting any listing of the same versions gives the index |
| Names.SkippedNames | registry-server/storage.go:525 | The suffix filter hides exactly the platforms whose names end in index or metadata |
| Names.ArtifactTextInjective | registry-server/api.go:188 | Different artifacts of a version have different file names |
| Registry.ChecksumTextUnique | registry-server/signing.go:166-170 | The sorted lines of SHA256SUMS are determined by the set of entries |
| Publication.ShowsAfterUpload | registry-server/signing.go:146-165 | After an upload's first two writes there is something to publish if and only if the platform's name does not end in index or metadata, or something was published before |
| Publication.UploadIsListed | registry-server/api.go:204-243 | After an upload its metadata and an artifact of the recorded hash are there, and it is listed if and only if its name does not end in index or metadata |
| Publication.ProviderUploadRenews | registry-server/api.go:176-262 | A provider upload that takes effect leaves its version listed, shown, signed and, if it was complete, complete, keeps all other files and the rest of the index, and keeps every file sound and well named, whether or not the replaced artifact was removed |
| Publication.ModuleUploadRenews | registry-server/api.go:430-485 | The same for modules, whose metadata is complete afterwards in any case |
| Publication.DeleteSettles | registry-server/api.go:276-300 | A delete leaves its directory consistent, whatever it was before, and touches no other |
| Publication.DeprecateKeeps | registry-server/api.go:310-330 | A deprecation keeps its directory consistent and touches no other |
| Publication.StepKeepsDir | registry-server/api.go:145-576 | Every step keeps every file sound and well named, stays in its own directory and index entry, and leaves that directory consistent if it was or if the step heals it |
| Publication.ConfinedKeepsOthers | registry-server/api.go:145-576 | A change confined to one directory leaves every other one consistent |
| Publication.StepKeepsSettled | registry-server/api.go:145-576 | Every step keeps the whole registry consistent |
| Publication.RunIsSettled | registry-server/api.go:145-576 | After every operation of every run of atomic steps from the empty store: metadata names existing artifacts of the recorded hash, SHA256SUMS is exactly the sorted lines of the published platforms, its signature verifies, and a version is indexed if and only if it is published |
| Publication.DamageIsLocal | registry-server/api.go:145-576 | In any run in which undo steps may fail, every directory but those found damaged or whose own request's undo failed, and not healed since, is consistent, and every file is sound |
| Publication.SuccessesExplain | registry-server/api.go:20-576 | With no failed undo the files of a run are what the requests reporting success leave, one after another |
| Publication.TidyStep | registry-server/api.go:256-262 | A step that removes what it replaces leaves no artifact unnamed if there was none |
| Stores.Store.Put | registry-server/storage.go:93-134 | A write replaces one file or, if its step fails, has no effect |
| Stores.Store.Delete | registry-server/storage.go:291-316 | A removal takes away one file or has no effect; a missing file counts as removed |
| Stores.Store.PutStreamImmutable | registry-server/storage.go:203-258 | An artifact is stored under its key only if nothing is there, and the caller learns which |
| Stores.Store.StageDeleteTree | registry-server/storage.go:262-288 | All files of a version directory disappear in one step, or none; a missing directory is an error |
| Stores.Store.RollbackDelete | registry-server/storage.go:285 | The rename back adds exactly the hidden files, or nothing |
| Stores.Store.GetIndex | registry-server/storage.go:578-595 | A missing index reads as empty, a corrupt one as an error, any other sorted; in every valid store that is the stored list |
| Stores.Store.AddVersionToIndex | registry-server/storage.go:597-619 | Adds the version to the stored index in one step, leaves it alone with no step if already there, or fails with no effect |
| Stores.Store.RemoveVersionFromIndex | registry-server/storage.go:621-643 | Rewrites the index without the version, or fails with no effect |
| Stores.Store.SetDeprecation | registry-server/storage.go:692-711 | Writes the deprecation to the version's metadata and carries its other fields over, or has no effect |
| Stores.Store.GetProviderPlatforms | registry-server/storage.go:515-542 | Returns the metadata of exactly the platform files that are not skipped, each once: the seen check drops nothing |
| Signing.RebuildProviderChecksums | registry-server/signing.go:146-184 | Succeeds if and only if something is published and its three steps work; then SHA256SUMS is exactly the sorted lines of the published platforms, as a client reads them, and the signature verifies for it; otherwise at most the first of the two files changed |
| Signing.SortedListing | registry-server/signing.go:166 | Sorting entries with different file names puts them in strict order |
| Sums.ChecksumsReadBack | registry-server/signing.go:166-171 | Split at newlines, SHA256SUMS gives one piece per published platform, in the order of the file names, and an empty last one; each piece is 64 characters, the digest of the stored artifact, two blanks and the file name of that artifact |
| Sums.StoredSumsReadBack | registry-server/signing.go:146-184 | Between operations the stored SHA256SUMS of every version with a published platform reads so, and its signature verifies |
| Handlers.RestorePublication | registry-server/api.go:223-242 | If its steps work the files are exactly those before the upload; metadata is left naming a missing artifact if and only if the artifact was new, restoring the metadata failed and removing the artifact did not; no other state on the way has such metadata |
| Handlers.PlaceArtifact | registry-server/api.go:176-213 | The first two writes, in order up to the first failure, with the undo for a failed second one |
| Handlers.UploadProvider | registry-server/api.go:145-274 | Succeeds if and only if no step fails and there is something to publish, and then takes effect as one step and removes the artifact it replaced if and only if that step works; otherwise, if its own undo steps work, every file is as before; how many undo steps there are, exactly when metadata is left dangling, and which states it passes through |
| Handlers.DanglingUpload | registry-server/api.go:223-254 | A run of the upload handler, with two failing steps, that ends with metadata naming a missing artifact |
| Handlers.AbandonModule | registry-server/api.go:464-476 | The module handler's undo: all files back if its steps work, and the same exact condition for dangling metadata |
| Handlers.UploadModule | registry-server/api.go:402-497 | As for providers: succeeds if and only if no step fails, then removes the archive it replaced if and only if that step works; all or nothing if its own undo steps work, and exactly when metadata is left dangling |
| Handlers.DeleteVersion | registry-server/api.go:276-308 | The provider handler and, at 499-533, the module handler: the status and the files for each failing step; all or nothing, also when only the cleanup fails, unless the rollback fails, which leaves the directory hidden |
| Handlers.IndexHasVersion | registry-server/api.go:607-617 | Tells whether the version is listed |
| Handlers.DeprecateVersion | registry-server/api.go:310-336 | The provider handler and, at 535-561, the module handler: takes effect if and only if the version is listed and the write works, otherwise no file changes |
| Handlers.Handle | registry-server/api.go:20-576 | What is reported as done took effect, and what is reported as failed changed no file unless one of its own undo steps failed; every request passes only through states of its own operation, complete where the files were but for a last one that a failed undo left, and stays in its directory |
| Handlers.RecordIsConsistent | registry-server/api.go:20-576 | After any run every directory without a failed undo since it was last healed is consistent; with no failed undo the whole registry is, and the files are exactly what the requests that reported success leave, in order |
| Handlers.RecordIsTidy | registry-server/api.go:256-262 | In a run in which no undo step and no removal of a replaced artifact fails, every artifact left is named by its metadata |
| Handlers.RecordIsComplete | registry-server/api.go:20-576 | While no undo of a request on a directory fails, its metadata names artifacts that are there in every state passed through, in the middle of requests too |
| Handlers.Serve | registry-server/api.go:20-576 | For any requests failing at any steps, from any start: each is handled so, one after another, the run is as the three rows above say, and in every state passed through every file is sound |
| Recovery.RebuildAll | registry-server/signing.go:108-138 | Every version has its own turn of steps, whatever happened in the others: it is rebuilt if and only if something is published in it and its own three steps work, and reported as failed otherwise; checksums that matched before still do, even if steps fail; nothing but checksums and signatures is written |
| Recovery.RestartSettles | registry-server/signing.go:108-138 | After its rebuild a directory is consistent if and only if its metadata and its place in the index already were |
| Recovery.StopInStep | registry-server/api.go:145-576 | Of the states an operation on a consistent directory can be stopped in, which are in step with the index: directory present if and only if listed; for uploads, before the first write or once listed; for deletes, before the rename or once unlisted |
| Recovery.CrashAndRestart | registry-server/main.go:143-145 | Stopped anywhere in an operation or its undo and restarted: every other directory is consistent, whatever steps of the restart fail; if the steps of its own rebuild work, the registry is consistent if and only if the stop left complete metadata and a directory that exists exactly if it is listed; if they do not, only then |
| Recovery.CrashDuringUpload | registry-server/api.go:202-248 | An upload stopped after its metadata write, a state it passes through: a restart whose steps for that version work repairs it if and only if the version was listed before, and none does if it was not |
| Recovery.CrashDuringDelete | registry-server/api.go:284-290 | A delete stopped between its rename and its index write, a state it passes through, is repaired by no restart, whichever steps of that fail |
| Reads.KeepPublished | registry-server/main.go:318-324 | The in-place compaction keeps the published platforms, in order |
| Reads.ProviderVersions | registry-server/main.go:295-343 | Lists, in index order, exactly the versions that are not deprecated and have a published platform, each with exactly its published platforms; not found if and only if there is none |
| Reads.MirrorIndex | registry-server/main.go:401-433 | Lists exactly the same versions; not found if and only if there is none |
| Reads.MirrorVersion | registry-server/main.go:435-487 | Answers for exactly the indexed versions that are offered, with one archive per published platform |
| Reads.ProviderDownload | registry-server/main.go:345-399 | When it answers, and with which artifact, checksum files and shasum, with and without a signing key |
| Reads.HiddenPlatform | registry-server/api.go:145-274 | With no step failing, the upload of a platform whose name ends in index or metadata succeeds if and only if something is already published; then its download is ready and no listing has it |
| Reads.HiddenExample | registry-server/api.go:145-274 | linux_index uploaded after linux_amd64 is downloadable and not listed |
| Reads.ViewsAgree | registry-server/main.go:295-487 | Between operations the versions list, the mirror index and the mirror document agree on versions and platforms, and a mirror hash is the download's shasum and an entry of the signed SHA256SUMS |
| Reads.LatestModule | registry-server/main.go:551-588 | Picks a version of greatest precedence among the indexed, non-deprecated ones whose artifact resolves; not found if and only if there is none |
| Visibility.ShownVersions | registry-server/main.go:295-433 | The versions list and the mirror index show exactly the indexed versions that have a platform not hidden by its name and no metadata that marks them as deprecated, the list in ascending order |
| Visibility.ChangeThenList | registry-server/main.go:295-487 | Whatever steps of a request on a version fail, the other versions are shown as before; if it reports success, the version is shown by all three views after an upload, unless it was deprecated before, and by none after a delete or a deprecation |
| Visibility.UploadAddsPlatform | registry-server/api.go:202-262 | An upload adds its platform to the published ones, unless the name hides it, and leaves every other platform and the deprecation as they were |
| Visibility.DownloadPublished | registry-server/main.go:345-399 | Between operations every published platform can be downloaded, and the zip has the digest that a line of the signed SHA256SUMS gives for its file name |
| Visibility.UploadThenDownload | registry-server/api.go:145-274 | After an upload that reports success the download is ready, whatever was there before, and serves the uploaded bytes or those stored earlier under the same digest; a client can verify it by SHA256SUMS if and only if the name does not end in index or metadata |
| Visibility.DeleteThenDownload | registry-server/api.go:276-308 | After a delete that reports success nothing of the version can be downloaded |
| Visibility.RecordDeprecation | registry-server/storage.go:692-711 | A deprecation that reports success is recorded with the version and the message, keeps the other fields and changes no other file |
| Visibility.ModuleDownload | registry-server/main.go:527-549 | Resolves to the archive artifact.json names, of the recorded digest, and to the legacy archive if and only if there is no artifact.json |
| Visibility.ChangeThenLatest | registry-server/main.go:85-588 | After an upload that reports success the version resolves to the archive of the uploaded bytes, and the latest is it or one of no lesser precedence unless it was deprecated; a deleted version does not resolve; a deleted or deprecated one is never the latest; other versions resolve as before, whatever steps fail |
| Scan.ScanProviderVersions | registry-server/storage.go:472-493 | Returns exactly the version directories and the hidden trees a delete may have left, each once, as the stable sort of their listing |
| Scan.ScanMatchesIndex | registry-server/storage.go:472-643 | Between operations the scan lists what the index lists and the hidden trees, so the same versions if and only if every delete's clean-up worked; then they are equal as sequences if and only if build variants are listed in the same order, in particular when there are none |
| PublicPaths.KeyTextInjective | registry-server/api.go:186-220 | Different keys of well-named providers, modules and versions have different paths |
| PublicPaths.ProviderPaths | registry-server/api.go:186-220 | The path of every file of a provider, spelled out |
| PublicPaths.ModulePaths | registry-server/api.go:430-462 | The path of every file of a module, spelled out |
| PublicPaths.NoPathBelow | registry-server/api.go:186-220 | No well-named key's path is a directory on another's |
| PublicPaths.StoreIsATree | registry-server/validation.go:42-60 | In every sound state, so at every step of every run, no two files share a path and none is a directory on another's |
| PublicPaths.CollectsNothing | registry-server/storage.go:558-574 | Garbage collection removes no file of the registry, whatever the files' ages and even while an operation is under way |
| PublicPaths.NameSplits | registry-server/validation.go:14 | Any split of a file name that starts with a provider name and version yields that name and version |
| PublicPaths.ArtifactNameSplits | registry-server/validation.go:14 | Any split of an uploaded artifact's file name by the pattern yields its provider name and version |
| PublicPaths.ChecksumNameSplits | registry-server/validation.go:15 | Any split of a SHA256SUMS or signature file name yields its provider name and version |
| PublicPaths.TrimExactly | registry-server/validation.go:24 | Trimming a requested path takes away all slashes at both ends and nothing else |
| PublicPaths.ServedPaths | registry-server/validation.go:23-40 | Of all texts the download route serves exactly those whose trimmed segments spell a well-named artifact, SHA256SUMS, signature or module archive, or a provider zip without a digest |
| PublicPaths.PublicExactly | registry-server/validation.go:23-40 | Of the files of any sound state the route serves exactly the artifacts, SHA256SUMS, signatures and module archives, never an index or metadata |
| Locking.MutualExclusion | registry-server/storage.go:63-70 | In no interleaving are two calls on one index both between taking and releasing its mutex |
| Locking.StepKeepsInvariant | registry-server/storage.go:597-643 | No step of any call breaks the invariant that the index is the replay of the writes so far |
| Locking.NoLostUpdates | registry-server/storage.go:597-643 | In every interleaving each index is what the calls that report success, including additions of a version already there, would leave one after another, each exactly once |
| Locking.LastCallDecides | registry-server/storage.go:597-643 | In every reachable state of every interleaving an index is sorted and free of duplicates, and a version is in it if and only if the last successful call on it is an addition, or there is none and it was there at the start |
| Locking.UpdateIndex | registry-server/storage.go:597-643 | The store's two index methods have the effect the interleaved calls are given: a success leaves exactly the version added or removed, a failure changes nothing |
| Locking.LogRespectsTime | registry-server/storage.go:597-643 | In that order, a call that returned with success before another began comes before it |
| Locking.Progress | registry-server/storage.go:63-70 | No deadlock: in every reachable state some call can take a step, unless all are done |
| Locking.RunsEnd | registry-server/storage.go:597-643 | Every run of n calls has at most 5n steps, so with the row above any run that goes on while it can finishes every call |
| RateLimiting.RateLimiter.Allow | registry-server/middleware.go:61-86 | One request refills, caps and charges one address's bucket by its two clock readings and answers accordingly |
| RateLimiting.RateLimiter.Cleanup | registry-server/middleware.go:51-59 | Removes exactly the entries idle for more than two windows at the sweep's reading for each |
| RateLimiting.RateLimiter.Run | registry-server/middleware.go:51-86 | A run of events on the limiter gives the specified answers |
| RateLimiting.CleanupInvisible | registry-server/middleware.go:51-86 | Every run gets the answers it would get without cleanup |
| RateLimiting.AdmissionBound | registry-server/middleware.go:61-86 | In any stretch of any run, over time T, one address gets at most rate + rate * T / window requests through |
| RateLimiting.SpacedNeverRefused | registry-server/middleware.go:61-86 | An address each of whose requests begins at least window / rate after the previous one's second clock reading is never refused |
| RateLimiting.BurstAdmitsRate | registry-server/middleware.go:61-86 | Of a burst at one instant exactly rate requests get through |
| Admission.AnsweredAlone | registry-server/middleware.go:61-86 | In any run an address is answered as if it were alone, without other addresses and without cleanup |
| Admission.AdmittedExactly | registry-server/middleware.go:61-86 | In any run a request is admitted if and only if every stretch of its address's requests that ends with it stays within rate + rate * T / window admissions |
| Admission.FractionIsKept | registry-server/middleware.go:72-83 | A refused request keeps the fraction of a token there is: a retry at 0.4 s is refused, and the next one admitted |
| Archives.ExpandedArchiveLimit | registry-server/archive_validation.go:28-34 | The limit is the lesser of 20 times the upload limit and 20 GiB, computed without overflow |
| Archives.ValidateProviderArchive | registry-server/archive_validation.go:36-83 | Accepts exactly the readable archives whose entries are sound, whose sizes total at most the limit in unbounded arithmetic, and which hold the binary; no conversion or sum leaves its 64-bit range |
| Archives.ValidateModuleArchive | registry-server/archive_validation.go:109-162 | The same for modules, counting down, with the errors of the header, between entries and in the trailer |
| Archives.ProviderVerdictIgnoresOrder | registry-server/archive_validation.go:45-78 | The verdict does not depend on the order of entries |
| Archives.ModuleVerdictIgnoresOrder | registry-server/archive_validation.go:118-151 | The verdict does not depend on the order of entries |
| Archives.ProviderEntryAdded | registry-server/archive_validation.go:45-78 | One more entry keeps an archive acceptable if and only if its path is safe and it is a directory or a regular file that copies to its declared size and still fits |
| Archives.ModuleEntryAdded | registry-server/archive_validation.go:118-151 | The same for modules |
| Archives.SizeChecksAgree | registry-server/archive_validation.go:36-162 | On the same files, declared in the two formats, each check accepts what the other does but for the kind of file each asks for |
| Archives.CheckBoth | registry-server/archive_validation.go:36-162 | The two loops return the same verdict on the same files when these hold both a binary and a configuration |
| Archives.BinaryNamesOneProvider | registry-server/archive_validation.go:85-107 | No binary name matches two different provider names |
| Archives.BinaryNameExactly | registry-server/archive_validation.go:85-107 | A binary name is accepted if and only if, without .exe, it is the provider's name alone or with a version and perhaps a protocol number |
| Archives.NamesAccepted | registry-server/archive_validation.go:85-107 | Every name of either form is accepted, bare and with .exe appended, protocol numbers included |
| Archives.CliBinaryAccepted | cmd/tfreg/publish.go:104 | The server accepts every binary name the CLI builds, versions ending in .exe included |

## Left out

- HTTP routing, multipart reading, response encoding, headers, logging, metrics, the audit log and the
  web UI: no state worth proving. Handlers are operations on the store; rejected uploads are one input.
- API keys and permissions, CLI flags, builds, downloads and OCI transport: easy members.
- ZIP, tar and gzip decoding: archives are lists of entries with declared and copied sizes.
- `archivePathSafe` and `path.Base` are parameters of the archive checks: they rest on Go's path cleaning.
- JSON text: files hold datatypes. A file of the wrong kind stands for JSON that does not parse.
- Path resolution and symlink checks: operating system behaviour.
- Read errors other than a missing file: a read returns the file or says it is missing.
- Empty directories and temporary files a crash leaves inside one write: directories are derived from files.
  Hidden trees whose removal failed, or which a crash in a delete leaves, are names the directory scan
  lists (`Scan.ScanMatchesIndex`), not files here. Startup also tries to rebuild the checksums in them,
  which no route serves. Garbage collection removes only such temporary files, an
  hour after their last change (its comment speaks of a path's modification time), so it is not a step here
  but a lemma (`PublicPaths.CollectsNothing`).
- The module side of the directory scan and the module versions list: easy members beside the provider's.
- Stores.Store.GetProviderPlatforms: the order of the directory listing is left open, so platforms come in
  some order.
- Stores.Store.Sign: a missing signer is a signature that fails; the source notices before it lists the
  platforms, to the same effect.
- Stores.Store.Put: writing a temporary file and renaming it is one step.
- StableSort.Sort: an insertion sort stands for `sort.SliceStable` and, on entries with different file names,
  for `sort.Slice`; the result is the same for any stable algorithm.
- Locking.NoLostUpdates: covers index updates only; whole handlers run under one mutex in the source and are
  sequential here.
- RateLimiting.RateLimiter.Allow: uses reals for floating point, and needs a window above zero, which the
  server's configuration does not check.
- PublicPaths.ServedPaths: the regular expression engine is any function that returns a match when there is
  one; which of several splits it returns is left open.
- Recovery.RebuildAll: goes over versions in some order, not grouped by namespace.
