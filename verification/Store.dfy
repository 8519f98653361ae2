/** The file store. Each write, removal, directory rename and signature is one step that may fail
    with no effect; `fails` says which do and is left open. The ghost field `trace` holds every state
    the files have been in. */
module Stores {
  import opened Options
  import opened SemVer
  import Strings
  import opened VersionIndex
  import opened Names
  import opened Registry
  import opened Publication

  /** The file as it was before: rewritten, or removed if it was not there. */
  function Reset(f: Files, k: Key, previous: Option<Content>): Files {
    if previous.Some? then f[k := previous.value] else f - {k}
  }

  /** No step from `a` up to `b` fails. */
  ghost predicate Works(fails: nat -> bool, a: nat, b: nat) { forall i :: a <= i < b ==> !fails(i) }

  /** Steps `a` up to `b`: all `n` of them, or those up to the first that fails. */
  ghost predicate Ran(fails: nat -> bool, a: nat, b: nat, n: nat, ok: bool) {
    if ok then b == a + n && Works(fails, a, b)
    else a < b <= a + n && Works(fails, a, b - 1) && fails(b - 1)
  }

  class Store {
    const crypto: Crypto
    const fails: nat -> bool
    var files: Files
    var steps: nat
    ghost var trace: seq<Files>

    /** Every state passed through is sound, whatever failed. */
    ghost predicate Valid()
      reads this
    {
      CryptoOk(crypto) && files in trace && forall f :: f in trace ==> Sound(crypto, f)
    }

    /** The store a starting server finds. */
    constructor (crypto: Crypto, fails: nat -> bool, files: Files)
      requires CryptoOk(crypto) && Sound(crypto, files)
      ensures Valid() && this.crypto == crypto && this.fails == fails
      ensures this.files == files && steps == 0 && trace == [files]
    {
      this.crypto, this.fails, this.files := crypto, fails, files;
      steps, trace := 0, [files];
    }

    function Get(k: Key): Option<Content>
      reads this
    {
      if k in files then Some(files[k]) else None
    }

    predicate Exists(k: Key)
      reads this
    {
      k in files
    }

    method Put(k: Key, x: Content) returns (ok: bool)
      modifies this
      ensures ok == !fails(old(steps))
      ensures files == if ok then old(files)[k := x] else old(files)
      ensures steps == old(steps) + 1 && trace == old(trace) + [files]
    {
      ok := !fails(steps);
      if ok { files := files[k := x]; }
      steps, trace := steps + 1, trace + [files];
    }

    /** Removing a file that is not there counts as done. */
    method Delete(k: Key) returns (ok: bool)
      modifies this
      ensures ok == !fails(old(steps))
      ensures files == if ok then old(files) - {k} else old(files)
      ensures steps == old(steps) + 1 && trace == old(trace) + [files]
    {
      ok := !fails(steps);
      if ok { files := files - {k}; }
      steps, trace := steps + 1, trace + [files];
    }

    /** Publishes a validated upload under its content-derived key, keeping what is already there. */
    method PutStreamImmutable(k: Key, bytes: Bytes) returns (ok: bool, existed: bool)
      modifies this
      ensures ok == !fails(old(steps)) && (ok ==> existed == (k in old(files)))
      ensures files == if ok then WithArtifact(old(files), k, bytes) else old(files)
      ensures files == if ok && !existed then old(files)[k := Blob(bytes)] else old(files)
      ensures steps == old(steps) + 1 && trace == old(trace) + [files]
    {
      ok, existed := !fails(steps), false;
      if ok {
        existed := k in files;
        if !existed { files := files[k := Blob(bytes)]; }
      }
      steps, trace := steps + 1, trace + [files];
    }

    /** The signer, whose failures include its being missing. */
    method Sign(text: string) returns (sig: Option<Bytes>)
      requires CryptoOk(crypto)
      modifies this
      ensures sig.Some? == !fails(old(steps)) && (sig.Some? ==> crypto.verifies(text, sig.value))
      ensures files == old(files) && steps == old(steps) + 1 && trace == old(trace) + [files]
    {
      sig := if fails(steps) then None else Some(crypto.sign(text, steps));
      steps, trace := steps + 1, trace + [files];
    }

    /** An undo step. Its failure is ignored by the caller. */
    method Undo(k: Key, previous: Option<Content>)
      modifies this
      ensures files == if fails(old(steps)) then old(files) else Reset(old(files), k, previous)
      ensures steps == old(steps) + 1 && trace == old(trace) + [files]
    {
      match previous {
        case Some(x) => var _ := Put(k, x);
        case None => var _ := Delete(k);
      }
    }

    /** Hides a version directory by one rename. A missing directory is an error. */
    method StageDeleteTree(d: Directory) returns (tree: Option<Files>)
      modifies this
      ensures tree == if !fails(old(steps)) && HasFiles(old(files), d) then Some(Inside(old(files), d)) else None
      ensures files == if tree.Some? then Outside(old(files), d) else old(files)
      ensures steps == old(steps) + 1 && trace == old(trace) + [files]
    {
      tree := None;
      assert HasFiles(files, d) <==> Inside(files, d) != map[] by {
        if k :| k in files && Within(k, d) { assert k in Inside(files, d); }
        if k :| k in Inside(files, d) { assert k in files && Within(k, d); }
      }
      if !fails(steps) && Inside(files, d) != map[] {
        tree := Some(Inside(files, d));
        files := Outside(files, d);
      }
      steps, trace := steps + 1, trace + [files];
    }

    /** The rename back. */
    method RollbackDelete(tree: Files) returns (ok: bool)
      modifies this
      ensures ok == !fails(old(steps)) && files == if ok then old(files) + tree else old(files)
      ensures steps == old(steps) + 1 && trace == old(trace) + [files]
    {
      ok := !fails(steps);
      if ok { files := files + tree; }
      steps, trace := steps + 1, trace + [files];
    }

    /** Removing the hidden directory touches no visible file. */
    method CommitDelete() returns (ok: bool)
      modifies this
      ensures ok == !fails(old(steps)) && files == old(files)
      ensures steps == old(steps) + 1 && trace == old(trace) + [files]
    {
      ok := !fails(steps);
      steps, trace := steps + 1, trace + [files];
    }

    /** A missing index reads as empty; anything else is sorted again. */
    method GetIndex(k: Key) returns (versions: Option<seq<string>>)
      ensures k !in files ==> versions == Some([])
      ensures k in files ==> versions == if files[k].IndexFile? then Some(SortVersions(files[k].versions)) else None
      ensures Valid() && (k.ProviderIndex? || k.ModuleIndex?) ==>
                versions == Some(IndexVersions(files, k)) && IndexOk(versions.value)
    {
      hide WellNamed;
      match Get(k) {
        case None =>
          versions := Some([]);
        case Some(IndexFile(stored)) =>
          var a := new string[|stored|](i requires 0 <= i < |stored| => stored[i]);
          assert a[..] == stored;
          SortSemanticVersions(a);
          versions := Some(a[..]);
        case Some(_) =>
          versions := None;
      }
      if Valid() && (k.ProviderIndex? || k.ModuleIndex?) {
        assert k in files ==> KeyOk(crypto, k, files[k]);
        EmptyIndex();
        IndexIsFixed(IndexVersions(files, k));
      }
    }

    method AddVersionToIndex(d: Directory) returns (ok: bool)
      requires Valid() && WellNamedDir(d)
      modifies this
      ensures Ran(fails, old(steps), steps, if Listed(old(files), d) then 0 else 1, ok)
      ensures files == if ok then WithIndexed(old(files), d) else old(files)
      ensures trace == old(trace) + (if Listed(old(files), d) then [] else [files]) && Valid()
    {
      hide WellNamedDir, SortVersions, IndexOk, Sound, IndexVersions, ValidVersion;
      var k, v := IndexKey(d), VersionOf(d);
      var index := GetIndex(k);
      if index.None? { return false; }
      var versions := index.value;
      for i := 0 to |versions|
        invariant v !in versions[..i]
      {
        if versions[i] == v { return true; }
        assert versions[..i + 1] == versions[..i] + [versions[i]];
      }
      assert versions[..|versions|] == versions;
      var a := new string[|versions| + 1](i requires 0 <= i <= |versions| => if i < |versions| then versions[i] else v);
      assert a[..] == versions + [v];
      SortSemanticVersions(a);
      IndexedSound(crypto, files, d);
      assert a[..] == AddVersion(versions, v);
      ok := Put(k, IndexFile(a[..]));
    }

    method RemoveVersionFromIndex(d: Directory) returns (ok: bool)
      requires Valid() && WellNamedDir(d)
      modifies this
      ensures ok == !fails(old(steps))
      ensures files == if ok then old(files)[IndexKey(d) := IndexFile(Without(IndexVersions(old(files), IndexKey(d)),
            VersionOf(d)))] else old(files)
      ensures steps == old(steps) + 1 && trace == old(trace) + [files] && Valid()
    {
      hide SortVersions, Without, IndexOk, Sound, WellNamedDir;
      var index := GetIndex(IndexKey(d));
      assert index.Some?;
      if index.None? { return false; }
      var filtered := FilterOut(index.value, VersionOf(d));
      UnlistedSound(crypto, files, d);
      ok := Put(IndexKey(d), IndexFile(filtered));
    }

    /** Sets three fields of the version's metadata and carries the others over. */
    method SetDeprecation(k: Key, v: string, message: string) returns (ok: bool)
      modifies this
      ensures ok == !fails(old(steps))
      ensures files == if ok then old(files)[k := VersionFile(VersionMeta(v, true, message,
            Carried(old(files), k)))] else old(files)
      ensures steps == old(steps) + 1 && trace == old(trace) + [files]
    {
      var meta := VersionMeta("", false, "", "");
      match Get(k) {
        case Some(VersionFile(stored)) => meta := stored;
        case _ =>
      }
      meta := meta.(version := v, deprecated := true, message := message);
      ok := Put(k, VersionFile(meta));
    }

    /** The files below a directory, in whatever order the file system gives them. */
    method List(d: Directory) returns (keys: seq<Key>)
      ensures forall k :: k in keys <==> k in files && Within(k, d)
      ensures forall i, j :: 0 <= i < j < |keys| ==> keys[i] != keys[j]
    {
      var left := set k | k in files && Within(k, d);
      keys := [];
      while left != {}
        invariant forall k :: k in files && Within(k, d) <==> k in keys || k in left
        invariant forall k :: k in keys ==> k !in left
        invariant forall i, j :: 0 <= i < j < |keys| ==> keys[i] != keys[j]
        decreases left
      {
        var k :| k in left;
        keys, left := keys + [k], left - {k};
      }
    }

    /** GetProviderPlatforms. The `seen` check never drops a platform, because a platform file
        sits under its own platform. */
    method GetProviderPlatforms(p: Provider, v: string) returns (platforms: seq<PlatformMeta>)
      requires Valid()
      ensures ListsPlatforms(files, p, v, platforms)
    {
      hide WellNamed;
      var objects := List(ProviderDir(p, v));
      var listed: set<string> := {};
      platforms := [];
      for i := 0 to |objects|
        invariant ListedSoFar(files, p, v, objects[..i], platforms, listed)
      {
        var obj := objects[i];
        assert objects[..i + 1] == objects[..i] + [obj] && obj in objects;
        if IsPlatformObject(obj) {
          assert KeyOk(crypto, obj, files[obj]);
          var data := Get(obj);
          if data.Some? && data.value.PlatformFile? {
            var meta := data.value.platform;
            var key := ListingKey(meta);
            if key !in listed {
              ListNext(crypto, files, p, v, objects[..i], obj, platforms, listed);
              listed := listed + {key};
              platforms := platforms + [meta];
            } else {
              ListedAlready(crypto, files, p, v, objects[..i], obj, platforms, listed);
            }
          }
        }
      }
      assert objects[..|objects|] == objects;
      ListedAll(crypto, files, p, v, objects, platforms, listed);
    }
  }

  /** The filtering loop of removeVersionFromIndex. */
  method FilterOut(versions: seq<string>, v: string) returns (filtered: seq<string>)
    ensures filtered == Without(versions, v)
  {
    filtered := [];
    for i := 0 to |versions|
      invariant filtered == Without(versions[..i], v)
    {
      assert versions[..i + 1] == versions[..i] + [versions[i]];
      WithoutConcat(versions[..i], [versions[i]], v);
      assert [versions[i]][1..] == [];
      if versions[i] != v { filtered := filtered + [versions[i]]; }
    }
    assert versions[..|versions|] == versions;
  }

  // ---- Platform listings ---------------------------------------------------------------------

  predicate IsPlatformObject(k: Key) { k.ProviderKey? && k.file.PlatformJson? && !Skipped(k.file.platform) }

  function PlatformKey(p: Provider, v: string, meta: PlatformMeta): Key {
    ProviderKey(p, v, PlatformJson(PlatformName(meta.os, meta.arch)))
  }

  function ListingKey(meta: PlatformMeta): string { meta.os + "/" + meta.arch }

  ghost predicate PlatformListed(f: Files, p: Provider, v: string, meta: PlatformMeta) {
    var k := PlatformKey(p, v, meta);
    k in f && f[k] == PlatformFile(meta) && !Skipped(PlatformName(meta.os, meta.arch))
  }

  /** Exactly the platform files of the version that are not skipped, each once. */
  ghost predicate ListsPlatforms(f: Files, p: Provider, v: string, platforms: seq<PlatformMeta>) {
    && (forall j :: 0 <= j < |platforms| ==> PlatformListed(f, p, v, platforms[j]))
    && (forall j, k :: 0 <= j < k < |platforms| ==> platforms[j] != platforms[k])
    && (forall platform :: ProviderKey(p, v, PlatformJson(platform)) in f && !Skipped(platform) ==>
          f[ProviderKey(p, v, PlatformJson(platform))].PlatformFile? &&
          f[ProviderKey(p, v, PlatformJson(platform))].platform in platforms)
  }

  ghost predicate ListedSoFar(f: Files, p: Provider, v: string, objects: seq<Key>, platforms: seq<PlatformMeta>,
                              listed: set<string>)
  {
    && (forall j :: 0 <= j < |platforms| ==>
        PlatformListed(f, p, v, platforms[j]) && ListingKey(platforms[j]) in listed)
    && (forall j, k :: 0 <= j < k < |platforms| ==> platforms[j] != platforms[k])
    && (forall x :: x in listed ==> exists j :: 0 <= j < |platforms| && ListingKey(platforms[j]) == x)
    && (forall j :: 0 <= j < |objects| && IsPlatformObject(objects[j]) ==>
          objects[j] in f && f[objects[j]].PlatformFile? && f[objects[j]].platform in platforms)
  }

  lemma ListNext(c: Crypto, f: Files, p: Provider, v: string, objects: seq<Key>, obj: Key,
                 platforms: seq<PlatformMeta>, listed: set<string>)
    requires Sound(c, f) && ListedSoFar(f, p, v, objects, platforms, listed)
    requires obj in f && Within(obj, ProviderDir(p, v)) && IsPlatformObject(obj) && f[obj].PlatformFile?
    requires ListingKey(f[obj].platform) !in listed
    ensures ListedSoFar(f, p, v, objects + [obj], platforms + [f[obj].platform], listed + {ListingKey(f[obj].platform)})
  {
    hide ListingKey, Skipped, WellNamed;
    var meta := f[obj].platform;
    assert KeyOk(c, obj, f[obj]);
    var more := platforms + [meta];
    assert more[|platforms|] == meta && forall j :: 0 <= j < |platforms| ==> more[j] == platforms[j];
    forall x | x in listed ensures exists j :: 0 <= j < |more| && ListingKey(more[j]) == x {
      var j :| 0 <= j < |platforms| && ListingKey(platforms[j]) == x;
      assert ListingKey(more[j]) == x;
    }
    assert ListingKey(more[|platforms|]) == ListingKey(meta);
  }

  lemma ListedAlready(c: Crypto, f: Files, p: Provider, v: string, objects: seq<Key>, obj: Key,
                      platforms: seq<PlatformMeta>, listed: set<string>)
    requires Sound(c, f) && ListedSoFar(f, p, v, objects, platforms, listed)
    requires obj in f && Within(obj, ProviderDir(p, v)) && IsPlatformObject(obj) && f[obj].PlatformFile?
    requires ListingKey(f[obj].platform) in listed
    ensures ListedSoFar(f, p, v, objects + [obj], platforms, listed)
  {
    hide ListingKey, Skipped, WellNamed;
    var meta := f[obj].platform;
    var j :| 0 <= j < |platforms| && ListingKey(platforms[j]) == ListingKey(meta);
    assert PlatformListed(f, p, v, platforms[j]);
    assert KeyOk(c, obj, f[obj]) && KeyOk(c, PlatformKey(p, v, platforms[j]), f[PlatformKey(p, v, platforms[j])]);
    ListingKeyInjective(meta, platforms[j]);
    assert PlatformKey(p, v, platforms[j]) == obj;
  }

  lemma ListedAll(c: Crypto, f: Files, p: Provider, v: string, objects: seq<Key>, platforms: seq<PlatformMeta>,
                  listed: set<string>)
    requires ListedSoFar(f, p, v, objects, platforms, listed)
    requires forall k :: k in objects <==> k in f && Within(k, ProviderDir(p, v))
    ensures ListsPlatforms(f, p, v, platforms)
  {
    hide ListingKey, Skipped, WellNamed;
    forall platform | ProviderKey(p, v, PlatformJson(platform)) in f && !Skipped(platform)
      ensures f[ProviderKey(p, v, PlatformJson(platform))].PlatformFile?
      ensures f[ProviderKey(p, v, PlatformJson(platform))].platform in platforms
    {
      var k := ProviderKey(p, v, PlatformJson(platform));
      assert k in objects;
      var j :| 0 <= j < |objects| && objects[j] == k;
      assert IsPlatformObject(objects[j]);
    }
  }

  lemma ListingKeyInjective(a: PlatformMeta, b: PlatformMeta)
    requires '/' !in a.os && '/' !in b.os && ListingKey(a) == ListingKey(b)
    ensures a.os == b.os && a.arch == b.arch
  {
    hide Strings.Cut;
    Strings.CutAt(a.os, '/', a.arch);
    Strings.CutAt(b.os, '/', b.arch);
    assert ListingKey(a) == a.os + ['/'] + a.arch && ListingKey(b) == b.os + ['/'] + b.arch;
  }
}
