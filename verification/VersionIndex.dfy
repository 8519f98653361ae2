/** The version list kept in an index file: sorted on every read, extended on upload, filtered on
    delete, and compared with what the directory listing shows. */
module VersionIndex {
  import opened Strings
  import opened SemVer
  import opened Precedence
  import opened StableSort

  function SortVersions(versions: seq<string>): seq<string> { SortedOf(versions, CompareSemver) }

  /** sortSemanticVersions: in place and stable. */
  method SortSemanticVersions(versions: array<string>)
    modifies versions
    ensures versions[..] == SortVersions(old(versions[..]))
  {
    Sort(versions, CompareSemver);
  }

  ghost predicate AllValid(versions: seq<string>) { AllOk(versions, ValidVersion) }

  /** What every index file holds between and during operations. */
  ghost predicate IndexOk(versions: seq<string>) {
    AllValid(versions) && Distinct(versions) && Sorted(versions, CompareSemver)
  }

  function AddVersion(versions: seq<string>, v: string): seq<string> {
    if v in versions then versions else SortVersions(versions + [v])
  }

  function Without(versions: seq<string>, v: string): (r: seq<string>)
    ensures v !in r && forall x :: x in versions && x != v ==> x in r
    ensures forall x :: x in r ==> x in versions
  {
    if versions == [] then []
    else (if versions[0] == v then [] else [versions[0]]) + Without(versions[1..], v)
  }

  lemma SemverOrders()
    ensures Orders(CompareSemver, ValidVersion)
  {
    hide ValidVersion, CompareSemver;
    forall x, y ensures CompareSemver(x, y) == -CompareSemver(y, x) { SemverFlips(x, y); }
    forall x, y, z | ValidVersion(x) && ValidVersion(y) && ValidVersion(z) && CompareSemver(x, y) <= 0 &&
      CompareSemver(y, z) <= 0
      ensures CompareSemver(x, z) <= 0
    {
      SemverChains(x, y, z);
    }
  }

  lemma SortGivesIndex(s: seq<string>)
    requires AllValid(s) && Distinct(s)
    ensures IndexOk(SortVersions(s)) && forall x :: x in SortVersions(s) <==> x in s
  {
    hide ValidVersion, CompareSemver;
    SemverOrders();
    SortSorts(s, CompareSemver, ValidVersion);
    SortPermutes(s, CompareSemver);
    SortKeepsDistinct(s, CompareSemver);
    var r := SortVersions(s);
    forall i | 0 <= i < |r| ensures ValidVersion(r[i]) { assert r[i] in s; }
  }

  /** Reading an index sorts it again; that never changes a well-kept one. */
  lemma IndexIsFixed(versions: seq<string>)
    requires IndexOk(versions)
    ensures SortVersions(versions) == versions
  {
    hide ValidVersion, CompareSemver;
    SemverOrders();
    SortedIsFixed(versions, CompareSemver, ValidVersion);
  }

  lemma AddKeepsIndex(versions: seq<string>, v: string)
    requires IndexOk(versions) && ValidVersion(v)
    ensures IndexOk(AddVersion(versions, v))
    ensures forall x :: x in AddVersion(versions, v) <==> x in versions || x == v
  {
    hide ValidVersion, CompareSemver;
    if v !in versions {
      SortGivesIndex(versions + [v]);
    }
  }

  lemma {:induction false} RemoveKeepsIndex(versions: seq<string>, v: string)
    requires IndexOk(versions)
    ensures IndexOk(Without(versions, v))
  {
    hide ValidVersion, CompareSemver;
    if versions != [] {
      var rest := versions[1..];
      assert AllValid(rest) && Distinct(rest) && Sorted(rest, CompareSemver);
      RemoveKeepsIndex(rest, v);
      var r := Without(rest, v);
      forall i | 0 <= i < |r| ensures CompareSemver(versions[0], r[i]) <= 0 && versions[0] != r[i] {
        assert r[i] in rest;
      }
    }
  }

  lemma {:induction false} WithoutNothing(versions: seq<string>, v: string)
    requires v !in versions
    ensures Without(versions, v) == versions
  {
    if versions != [] {
      WithoutNothing(versions[1..], v);
      assert versions == [versions[0]] + versions[1..];
    }
  }

  lemma WithoutOne(x: string, v: string)
    ensures Without([x], v) == if x == v then [] else [x]
  {
    assert [x][1..] == [];
  }

  lemma {:induction false} WithoutInsert(s: seq<string>, v: string)
    requires v !in s
    ensures Without(Insert(s, v, CompareSemver), v) == s
  {
    hide CompareSemver, Without;
    if s == [] || CompareSemver(v, s[|s| - 1]) >= 0 {
      WithoutConcat(s, [v], v);
      WithoutNothing(s, v);
      WithoutOne(v, v);
    } else {
      var front, y := s[..|s| - 1], s[|s| - 1];
      WithoutInsert(front, v);
      WithoutConcat(Insert(front, v, CompareSemver), [y], v);
      WithoutOne(y, v);
      assert s == front + [y];
    }
  }

  lemma {:induction false} WithoutConcat(s: seq<string>, t: seq<string>, v: string)
    ensures Without(s + t, v) == Without(s, v) + Without(t, v)
  {
    if s == [] {
      assert s + t == t;
    } else {
      assert (s + t)[1..] == s[1..] + t;
      WithoutConcat(s[1..], t, v);
    }
  }

  /** Removing a version that was just added gives back the index that was there before. */
  lemma RemoveUndoesAdd(versions: seq<string>, v: string)
    requires IndexOk(versions) && v !in versions
    ensures Without(AddVersion(versions, v), v) == versions
  {
    hide ValidVersion, CompareSemver;
    IndexIsFixed(versions);
    assert (versions + [v])[..|versions|] == versions;
    WithoutInsert(versions, v);
  }

  /** The directory scan lists an index's versions in the index's order exactly when versions that
      differ only in build metadata come in the same order from the directory listing. */
  lemma IndexMatchesScan(index: seq<string>, listing: seq<string>)
    requires IndexOk(index) && AllValid(listing)
    ensures index == SortVersions(listing) <==> StableFor(index, listing, CompareSemver, ValidVersion)
  {
    hide ValidVersion, CompareSemver;
    SemverOrders();
    StableSortIsUnique(listing, index, CompareSemver, ValidVersion);
  }

  /** No two versions differ only in build metadata. */
  ghost predicate NoBuildVariants(versions: seq<string>) {
    forall i, j :: 0 <= i < j < |versions| ==> CompareSemver(versions[i], versions[j]) != 0
  }

  lemma {:induction false} OneTie(s: seq<string>, x: string, i: nat)
    requires NoBuildVariants(s) && AllValid(s) && ValidVersion(x) && i < |s| && CompareSemver(s[i], x) == 0
    ensures Ties(s, x, CompareSemver) == [s[i]]
  {
    hide ValidVersion, CompareSemver;
    if i > 0 {
      SemverFlips(s[0], x);
      SemverFlips(s[i], x);
      if CompareSemver(s[0], x) == 0 {
        SemverChains(s[0], x, s[i]);
        SemverChains(s[i], x, s[0]);
        SemverFlips(s[0], s[i]);
        assert false;
      }
      OneTie(s[1..], x, i - 1);
    } else {
      forall k | 0 < k < |s| ensures CompareSemver(s[k], x) != 0 {
        SemverFlips(s[k], x);
        SemverFlips(s[0], x);
        if CompareSemver(s[k], x) == 0 {
          SemverChains(s[0], x, s[k]);
          SemverChains(s[k], x, s[0]);
          SemverFlips(s[0], s[k]);
        }
      }
      NoTies(s[1..], x);
    }
  }

  lemma {:induction false} NoTies(s: seq<string>, x: string)
    requires forall i :: 0 <= i < |s| ==> CompareSemver(s[i], x) != 0
    ensures Ties(s, x, CompareSemver) == []
  {
    hide CompareSemver;
    if s != [] { NoTies(s[1..], x); }
  }

  /** Then any listing of the same versions scans to the index itself. */
  lemma ScanEqualsIndex(index: seq<string>, listing: seq<string>)
    requires IndexOk(index) && NoBuildVariants(index) && Distinct(listing)
    requires forall v :: v in listing <==> v in index
    ensures SortVersions(listing) == index
  {
    hide ValidVersion, CompareSemver;
    forall i | 0 <= i < |listing| ensures ValidVersion(listing[i]) { assert listing[i] in index; }
    ListingNoVariants(index, listing);
    forall x | ValidVersion(x) ensures Ties(index, x, CompareSemver) == Ties(listing, x, CompareSemver) {
      if i :| 0 <= i < |listing| && CompareSemver(listing[i], x) == 0 {
        assert listing[i] in index;
        var j :| 0 <= j < |index| && index[j] == listing[i];
        OneTie(index, x, j);
        OneTie(listing, x, i);
      } else {
        forall j | 0 <= j < |index| ensures CompareSemver(index[j], x) != 0 {
          assert index[j] in listing;
        }
        NoTies(index, x);
        NoTies(listing, x);
      }
    }
    IndexMatchesScan(index, listing);
  }

  lemma ListingNoVariants(index: seq<string>, listing: seq<string>)
    requires NoBuildVariants(index) && Distinct(listing)
    requires forall v :: v in listing <==> v in index
    ensures NoBuildVariants(listing)
  {
    hide CompareSemver;
    forall i, j | 0 <= i < j < |listing| ensures CompareSemver(listing[i], listing[j]) != 0 {
      assert listing[i] in index && listing[j] in index;
      var p, q :| 0 <= p < |index| && 0 <= q < |index| && index[p] == listing[i] && index[q] == listing[j];
      SemverFlips(index[p], index[q]);
    }
  }
}
