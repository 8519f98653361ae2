/** In-place stable sorting by a three-way comparison. The method below is an insertion sort;
    `StableSortIsUnique` shows that every stable sort of the same input gives the same result,
    so nothing proved from it depends on which stable algorithm runs. */
module StableSort {

  /** `cmp` orders the elements that satisfy `ok`. */
  ghost predicate Orders<T(!new)>(cmp: (T, T) -> int, ok: T -> bool) {
    && (forall x, y :: cmp(x, y) == -cmp(y, x))
    && (forall x, y, z :: ok(x) && ok(y) && ok(z) && cmp(x, y) <= 0 && cmp(y, z) <= 0 ==> cmp(x, z) <= 0)
  }

  ghost predicate AllOk<T(!new)>(s: seq<T>, ok: T -> bool) { forall i :: 0 <= i < |s| ==> ok(s[i]) }

  predicate Sorted<T>(s: seq<T>, cmp: (T, T) -> int) {
    forall i, j :: 0 <= i < j < |s| ==> cmp(s[i], s[j]) <= 0
  }

  /** The elements that tie with `x`, in their order in `s`. */
  function Ties<T>(s: seq<T>, x: T, cmp: (T, T) -> int): seq<T> {
    if s == [] then []
    else (if cmp(s[0], x) == 0 then [s[0]] else []) + Ties(s[1..], x, cmp)
  }

  /** `r` rearranges `s` without changing the relative order of elements that tie. */
  ghost predicate StableFor<T(!new)>(r: seq<T>, s: seq<T>, cmp: (T, T) -> int, ok: T -> bool) {
    forall x :: ok(x) ==> Ties(r, x, cmp) == Ties(s, x, cmp)
  }

  /** `x` placed after the last element of `s` that is not greater. */
  function Insert<T>(s: seq<T>, x: T, cmp: (T, T) -> int): seq<T> {
    if s == [] || cmp(x, s[|s| - 1]) >= 0 then s + [x]
    else Insert(s[..|s| - 1], x, cmp) + [s[|s| - 1]]
  }

  function SortedOf<T>(s: seq<T>, cmp: (T, T) -> int): seq<T> {
    if s == [] then [] else Insert(SortedOf(s[..|s| - 1], cmp), s[|s| - 1], cmp)
  }

  method Sort<T>(a: array<T>, cmp: (T, T) -> int)
    modifies a
    ensures a[..] == SortedOf(old(a[..]), cmp)
  {
    hide Insert, SortedOf;
    ghost var s := a[..];
    SortedOfNone(s, cmp);
    for i := 0 to a.Length
      invariant a[..i] == SortedOf(s[..i], cmp) && a[i..] == s[i..]
    {
      var x := a[i];
      SortedOfNext(s, i, cmp);
      assert s[i] == s[i..][0] == a[i..][0] == x;
      var j := i;
      assert a[i + 1..] == a[i..][1..] && s[i + 1..] == s[i..][1..] && a[i + 1..i + 1] == [];
      while j > 0 && cmp(x, a[j - 1]) < 0
        invariant 0 <= j <= i && a[j] == x
        invariant a[i + 1..] == s[i + 1..]
        invariant Insert(a[..j], x, cmp) + a[j + 1..i + 1] == SortedOf(s[..i + 1], cmp)
      {
        var y := a[j - 1];
        ghost var before, after := a[..j - 1], a[j + 1..i + 1];
        assert a[..j] == before + [y];
        InsertStep(before, y, x, after, cmp);
        a[j], a[j - 1] := y, x;
        j := j - 1;
        assert a[..j] == before && a[j + 1..i + 1] == [y] + after;
      }
      InsertDone(a[..j], x, cmp);
      assert a[..j] + [x] + a[j + 1..i + 1] == a[..i + 1];
    }
    assert s[..|s|] == s && a[..a.Length] == a[..];
  }

  lemma SortedOfNone<T>(s: seq<T>, cmp: (T, T) -> int)
    ensures SortedOf(s[..0], cmp) == []
  {
  }

  lemma SortedOfNext<T>(s: seq<T>, i: nat, cmp: (T, T) -> int)
    requires i < |s|
    ensures SortedOf(s[..i + 1], cmp) == Insert(SortedOf(s[..i], cmp), s[i], cmp)
  {
    assert s[..i + 1][..i] == s[..i];
  }

  lemma InsertStep<T>(before: seq<T>, y: T, x: T, after: seq<T>, cmp: (T, T) -> int)
    requires cmp(x, y) < 0
    ensures Insert(before + [y], x, cmp) + after == Insert(before, x, cmp) + ([y] + after)
  {
    assert (before + [y])[..|before|] == before;
  }

  lemma InsertDone<T>(s: seq<T>, x: T, cmp: (T, T) -> int)
    requires s == [] || cmp(x, s[|s| - 1]) >= 0
    ensures Insert(s, x, cmp) == s + [x]
  {
  }

  // ---- What sorting promises ---------------------------------------------------------------

  lemma {:induction false} TiesOfConcat<T>(s: seq<T>, t: seq<T>, x: T, cmp: (T, T) -> int)
    ensures Ties(s + t, x, cmp) == Ties(s, x, cmp) + Ties(t, x, cmp)
  {
    if s == [] {
      assert s + t == t;
      assert Ties(s, x, cmp) == [];
    } else {
      var head := if cmp(s[0], x) == 0 then [s[0]] else [];
      assert (s + t)[1..] == s[1..] + t && (s + t)[0] == s[0];
      TiesOfConcat(s[1..], t, x, cmp);
      assert Ties(s + t, x, cmp) == head + (Ties(s[1..], x, cmp) + Ties(t, x, cmp));
    }
  }

  lemma TiesOfOne<T>(y: T, x: T, cmp: (T, T) -> int)
    ensures Ties([y], x, cmp) == if cmp(y, x) == 0 then [y] else []
  {
    assert [y][1..] == [];
  }

  lemma {:induction false} InsertPermutes<T>(s: seq<T>, x: T, cmp: (T, T) -> int)
    ensures multiset(Insert(s, x, cmp)) == multiset(s) + multiset{x}
  {
    if s != [] && cmp(x, s[|s| - 1]) < 0 {
      InsertPermutes(s[..|s| - 1], x, cmp);
      assert s == s[..|s| - 1] + [s[|s| - 1]];
    }
  }

  lemma {:induction false} SortPermutes<T>(s: seq<T>, cmp: (T, T) -> int)
    ensures multiset(SortedOf(s, cmp)) == multiset(s)
    ensures |SortedOf(s, cmp)| == |s|
    ensures forall x :: x in SortedOf(s, cmp) <==> x in s
  {
    if s != [] {
      SortPermutes(s[..|s| - 1], cmp);
      InsertPermutes(SortedOf(s[..|s| - 1], cmp), s[|s| - 1], cmp);
      assert s == s[..|s| - 1] + [s[|s| - 1]];
    }
    var r := SortedOf(s, cmp);
    assert |multiset(r)| == |r| && |multiset(s)| == |s|;
    forall x ensures x in r <==> x in s {
      assert x in r <==> x in multiset(r);
      assert x in s <==> x in multiset(s);
    }
  }

  predicate Distinct<T(==)>(s: seq<T>) { forall i, j :: 0 <= i < j < |s| ==> s[i] != s[j] }

  lemma {:induction false} DistinctByCount<T>(s: seq<T>)
    ensures Distinct(s) <==> forall x :: multiset(s)[x] <= 1
  {
    if s != [] {
      DistinctByCount(s[1..]);
      assert s == [s[0]] + s[1..];
      assert multiset(s) == multiset{s[0]} + multiset(s[1..]);
      assert s[0] in s[1..] <==> multiset(s[1..])[s[0]] > 0;
      if Distinct(s) {
        assert Distinct(s[1..]);
        assert s[0] !in s[1..];
      }
      if forall x :: multiset(s)[x] <= 1 {
        assert multiset(s)[s[0]] <= 1;
        forall x ensures multiset(s[1..])[x] <= 1 { assert multiset(s)[x] <= 1; }
        assert s[0] !in s[1..];
      }
    }
  }

  lemma SortKeepsDistinct<T>(s: seq<T>, cmp: (T, T) -> int)
    ensures Distinct(SortedOf(s, cmp)) <==> Distinct(s)
  {
    SortPermutes(s, cmp);
    DistinctByCount(s);
    DistinctByCount(SortedOf(s, cmp));
  }

  lemma Flip<T(!new)>(x: T, y: T, cmp: (T, T) -> int, ok: T -> bool)
    requires Orders(cmp, ok)
    ensures cmp(x, y) == -cmp(y, x)
  {
  }

  lemma Chain<T(!new)>(x: T, y: T, z: T, cmp: (T, T) -> int, ok: T -> bool)
    requires Orders(cmp, ok) && ok(x) && ok(y) && ok(z) && cmp(x, y) <= 0 && cmp(y, z) <= 0
    ensures cmp(x, z) <= 0
  {
  }

  lemma {:induction false} InsertStable<T(!new)>(s: seq<T>, x: T, z: T, cmp: (T, T) -> int, ok: T -> bool)
    requires Orders(cmp, ok) && AllOk(s, ok) && ok(x) && ok(z)
    ensures Ties(Insert(s, x, cmp), z, cmp) == Ties(s + [x], z, cmp)
  {
    hide Orders, Ties;
    if s != [] && cmp(x, s[|s| - 1]) < 0 {
      var front, y := s[..|s| - 1], s[|s| - 1];
      InsertStable(front, x, z, cmp, ok);
      TiesOfConcat(Insert(front, x, cmp), [y], z, cmp);
      TiesOfConcat(front, [x], z, cmp);
      assert s + [x] == front + ([y] + [x]);
      TiesOfConcat(front, [y] + [x], z, cmp);
      TiesOfConcat([y], [x], z, cmp);
      TiesOfOne(x, z, cmp);
      TiesOfOne(y, z, cmp);
      if cmp(x, z) == 0 && cmp(y, z) == 0 {
        Flip(x, z, cmp, ok);
        Chain(y, z, x, cmp, ok);
        Flip(x, y, cmp, ok);
        assert false;
      }
    }
  }

  lemma {:induction false} SortStable<T(!new)>(s: seq<T>, z: T, cmp: (T, T) -> int, ok: T -> bool)
    requires Orders(cmp, ok) && AllOk(s, ok) && ok(z)
    ensures Ties(SortedOf(s, cmp), z, cmp) == Ties(s, z, cmp)
  {
    hide Orders, Ties, Insert;
    if s != [] {
      var front, x := s[..|s| - 1], s[|s| - 1];
      SortStable(front, z, cmp, ok);
      SortPermutes(front, cmp);
      var r := SortedOf(front, cmp);
      forall i | 0 <= i < |r| ensures ok(r[i]) { assert r[i] in front; }
      InsertStable(r, x, z, cmp, ok);
      TiesOfConcat(r, [x], z, cmp);
      TiesOfConcat(front, [x], z, cmp);
      assert s == front + [x];
    }
  }

  lemma {:induction false} InsertSorts<T(!new)>(s: seq<T>, x: T, cmp: (T, T) -> int, ok: T -> bool)
    requires Orders(cmp, ok) && AllOk(s, ok) && ok(x) && Sorted(s, cmp)
    ensures Sorted(Insert(s, x, cmp), cmp)
  {
    hide Orders;
    if s != [] {
      var front, y := s[..|s| - 1], s[|s| - 1];
      if cmp(x, y) < 0 {
        InsertSorts(front, x, cmp, ok);
        InsertPermutes(front, x, cmp);
        var r := Insert(front, x, cmp);
        forall i | 0 <= i < |r| ensures cmp(r[i], y) <= 0 {
          assert r[i] in multiset(front) + multiset{x};
          assert r[i] == x || r[i] in front;
        }
      } else {
        Flip(x, y, cmp, ok);
        forall i | 0 <= i < |s| ensures cmp(s[i], x) <= 0 {
          Flip(y, y, cmp, ok);
          Chain(s[i], y, x, cmp, ok);
        }
      }
    }
  }

  lemma {:induction false} SortSorts<T(!new)>(s: seq<T>, cmp: (T, T) -> int, ok: T -> bool)
    requires Orders(cmp, ok) && AllOk(s, ok)
    ensures Sorted(SortedOf(s, cmp), cmp)
  {
    hide Orders, Insert;
    if s != [] {
      var front := s[..|s| - 1];
      SortSorts(front, cmp, ok);
      SortPermutes(front, cmp);
      var r := SortedOf(front, cmp);
      forall i | 0 <= i < |r| ensures ok(r[i]) { assert r[i] in front; }
      InsertSorts(r, s[|s| - 1], cmp, ok);
    }
  }

  lemma {:induction false} TiesMember<T>(s: seq<T>, x: T, y: T, cmp: (T, T) -> int)
    ensures y in Ties(s, x, cmp) <==> y in s && cmp(y, x) == 0
  {
    if s != [] {
      TiesMember(s[1..], x, y, cmp);
      assert s == [s[0]] + s[1..];
    }
  }

  lemma FirstTie<T(!new)>(s: seq<T>, cmp: (T, T) -> int, ok: T -> bool)
    requires Orders(cmp, ok) && s != []
    ensures forall x :: cmp(s[0], x) == 0 ==> Ties(s, x, cmp) != [] && Ties(s, x, cmp)[0] == s[0]
    ensures cmp(s[0], s[0]) == 0
  {
    Flip(s[0], s[0], cmp, ok);
  }

  lemma FirstIsLeast<T(!new)>(s: seq<T>, x: T, cmp: (T, T) -> int, ok: T -> bool)
    requires Orders(cmp, ok) && Sorted(s, cmp) && x in s
    ensures cmp(s[0], x) <= 0
  {
    Flip(x, x, cmp, ok);
  }

  /** The first element of a sorted sequence follows from its tie classes. */
  lemma SameFirst<T(!new)>(r: seq<T>, q: seq<T>, cmp: (T, T) -> int, ok: T -> bool)
    requires Orders(cmp, ok) && Sorted(r, cmp) && Sorted(q, cmp) && AllOk(r, ok) && AllOk(q, ok)
    requires StableFor(r, q, cmp, ok)
    requires r != [] && q != []
    ensures r[0] == q[0]
  {
    hide Orders, Ties, Sorted;
    FirstTie(r, cmp, ok);
    FirstTie(q, cmp, ok);
    TiesMember(q, r[0], r[0], cmp);
    TiesMember(r, q[0], q[0], cmp);
    FirstIsLeast(r, q[0], cmp, ok);
    FirstIsLeast(q, r[0], cmp, ok);
    Flip(r[0], q[0], cmp, ok);
  }

  lemma TiesOfTail<T(!new)>(r: seq<T>, q: seq<T>, z: T, cmp: (T, T) -> int)
    requires r != [] && q != [] && r[0] == q[0] && Ties(r, z, cmp) == Ties(q, z, cmp)
    ensures Ties(r[1..], z, cmp) == Ties(q[1..], z, cmp)
  {
    var head := if cmp(r[0], z) == 0 then [r[0]] else [];
    assert Ties(r, z, cmp)[|head|..] == Ties(r[1..], z, cmp);
    assert Ties(q, z, cmp)[|head|..] == Ties(q[1..], z, cmp);
  }

  /** A sorted sequence is determined by its tie classes. */
  lemma {:induction false} SortedByTies<T(!new)>(r: seq<T>, q: seq<T>, cmp: (T, T) -> int, ok: T -> bool)
    requires Orders(cmp, ok) && AllOk(r, ok) && AllOk(q, ok) && Sorted(r, cmp) && Sorted(q, cmp)
    requires StableFor(r, q, cmp, ok)
    ensures r == q
  {
    hide Orders, Ties;
    if r != [] { FirstTie(r, cmp, ok); TiesMember(q, r[0], r[0], cmp); }
    if q != [] { FirstTie(q, cmp, ok); TiesMember(r, q[0], q[0], cmp); }
    if r != [] && q != [] {
      SameFirst(r, q, cmp, ok);
      forall z | ok(z) ensures Ties(r[1..], z, cmp) == Ties(q[1..], z, cmp) {
        TiesOfTail(r, q, z, cmp);
      }
      SortedByTies(r[1..], q[1..], cmp, ok);
      assert r == [r[0]] + r[1..] && q == [q[0]] + q[1..];
    }
  }

  /** Any stable sort gives this result, whatever its algorithm. */
  lemma StableSortIsUnique<T(!new)>(s: seq<T>, r: seq<T>, cmp: (T, T) -> int, ok: T -> bool)
    requires Orders(cmp, ok) && AllOk(s, ok) && AllOk(r, ok)
    ensures r == SortedOf(s, cmp) <==> Sorted(r, cmp) && StableFor(r, s, cmp, ok)
  {
    var q := SortedOf(s, cmp);
    SortSorts(s, cmp, ok);
    SortPermutes(s, cmp);
    forall i | 0 <= i < |q| ensures ok(q[i]) { assert q[i] in s; }
    forall x | ok(x) ensures Ties(q, x, cmp) == Ties(s, x, cmp) { SortStable(s, x, cmp, ok); }
    if Sorted(r, cmp) && StableFor(r, s, cmp, ok) {
      SortedByTies(r, q, cmp, ok);
    }
  }

  /** Sorting what is sorted changes nothing, ties included. */
  lemma SortedIsFixed<T(!new)>(s: seq<T>, cmp: (T, T) -> int, ok: T -> bool)
    requires Orders(cmp, ok) && AllOk(s, ok) && Sorted(s, cmp)
    ensures SortedOf(s, cmp) == s
  {
    StableSortIsUnique(s, s, cmp, ok);
  }
}
