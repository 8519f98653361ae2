/** Text helpers the registry takes from Go's standard library: cutting and splitting at a
    separator, joining, suffix tests and lexicographic comparison. A string is a sequence of
    code points. */
module Strings {

  /** The position of the first `c` in `s`, or |s| when there is none. */
  function IndexOf(s: string, c: char): (i: nat)
    ensures i <= |s| && c !in s[..i]
    ensures i < |s| ==> s[i] == c
  {
    if s == "" || s[0] == c then 0 else 1 + IndexOf(s[1..], c)
  }

  datatype Pieces = Pieces(before: string, after: string, found: bool)

  /** strings.Cut: the text around the first separator. */
  function Cut(s: string, c: char): Pieces {
    var i := IndexOf(s, c);
    if i < |s| then Pieces(s[..i], s[i + 1..], true) else Pieces(s, "", false)
  }

  /** strings.Split with a one-character separator. */
  function Split(s: string, c: char): (parts: seq<string>)
    ensures |parts| >= 1
    decreases |s|
  {
    var i := IndexOf(s, c);
    if i < |s| then [s[..i]] + Split(s[i + 1..], c) else [s]
  }

  function Join(parts: seq<string>, c: char): string {
    if parts == [] then ""
    else if |parts| == 1 then parts[0]
    else parts[0] + [c] + Join(parts[1..], c)
  }

  predicate HasPrefix(s: string, prefix: string) { prefix <= s }

  predicate HasSuffix(s: string, suffix: string) {
    |suffix| <= |s| && s[|s| - |suffix|..] == suffix
  }

  ghost predicate NoneContains(parts: seq<string>, c: char) {
    forall i :: 0 <= i < |parts| ==> c !in parts[i]
  }

  lemma IndexOfFirst(before: string, c: char, after: string)
    requires c !in before
    ensures IndexOf(before + [c] + after, c) == |before|
  {
    var s := before + [c] + after;
    var i := IndexOf(s, c);
    assert s[|before|] == c;
    assert forall k :: 0 <= k < i ==> s[..i][k] != c;
    assert forall k :: 0 <= k < |before| ==> s[k] == before[k];
  }

  lemma CutAt(before: string, c: char, after: string)
    requires c !in before
    ensures Cut(before + [c] + after, c) == Pieces(before, after, true)
  {
    IndexOfFirst(before, c, after);
    var s := before + [c] + after;
    assert s[..|before|] == before && s[|before| + 1..] == after;
  }

  lemma CutNowhere(s: string, c: char)
    requires c !in s
    ensures Cut(s, c) == Pieces(s, "", false)
  {
  }

  lemma CutParts(s: string, c: char)
    ensures var p := Cut(s, c); c !in p.before && s == (if p.found then p.before + [c] + p.after else p.before)
  {
    var i := IndexOf(s, c);
    if i < |s| {
      assert s == s[..i] + [s[i]] + s[i + 1..];
    }
  }

  lemma SplitAt(before: string, c: char, after: string)
    requires c !in before
    ensures Split(before + [c] + after, c) == [before] + Split(after, c)
  {
    IndexOfFirst(before, c, after);
    var s := before + [c] + after;
    assert s[..|before|] == before && s[|before| + 1..] == after;
  }

  lemma {:induction false} SplitConcat(a: string, c: char, b: string)
    ensures Split(a + [c] + b, c) == Split(a, c) + Split(b, c)
    decreases |a|
  {
    hide Split;
    CutParts(a, c);
    var p := Cut(a, c);
    if p.found {
      SplitConcat(p.after, c, b);
      assert a + [c] + b == p.before + [c] + (p.after + [c] + b);
      SplitAt(p.before, c, p.after + [c] + b);
      SplitAt(p.before, c, p.after);
    } else {
      SplitNowhere(a, c);
      SplitAt(a, c, b);
    }
  }

  lemma SplitNowhere(s: string, c: char)
    requires c !in s
    ensures Split(s, c) == [s]
  {
  }

  lemma {:induction false} SplitSnoc(front: string, last: string, c: char)
    requires c !in last
    ensures Split(front + [c] + last, c) == Split(front, c) + [last]
    decreases |front|
  {
    var s := front + [c] + last;
    var i := IndexOf(front, c);
    if i < |front| {
      var rest := front[i + 1..];
      assert front == front[..i] + [c] + rest;
      assert s == front[..i] + [c] + (rest + [c] + last);
      CutAt(front[..i], c, rest + [c] + last);
      IndexOfFirst(front[..i], c, rest + [c] + last);
      assert s[i + 1..] == rest + [c] + last && s[..i] == front[..i];
      SplitSnoc(rest, last, c);
    } else {
      assert front[..i] == front;
      IndexOfFirst(front, c, last);
      assert s[..|front|] == front && s[|front| + 1..] == last;
      assert IndexOf(last, c) == |last| by { CutNowhere(last, c); }
    }
  }

  lemma JoinHead(first: string, rest: seq<string>, c: char)
    requires rest != []
    ensures Join([first] + rest, c) == first + [c] + Join(rest, c)
  {
    assert ([first] + rest)[1..] == rest;
  }

  /** Splitting and joining are inverse, in both directions. */
  lemma {:induction false} JoinSplit(s: string, c: char)
    ensures Join(Split(s, c), c) == s
    ensures NoneContains(Split(s, c), c)
    decreases |s|
  {
    hide Split, Join;
    CutParts(s, c);
    var p := Cut(s, c);
    if p.found {
      JoinSplit(p.after, c);
      SplitAt(p.before, c, p.after);
      JoinHead(p.before, Split(p.after, c), c);
    } else {
      SplitNowhere(s, c);
      JoinOne(s, c);
    }
  }

  lemma JoinOne(s: string, c: char)
    ensures Join([s], c) == s
  {
  }

  lemma {:induction false} SplitJoin(parts: seq<string>, c: char)
    requires parts != [] && NoneContains(parts, c)
    ensures Split(Join(parts, c), c) == parts
  {
    hide Split, Join;
    assert c !in parts[0];
    if |parts| == 1 {
      assert parts == [parts[0]];
      JoinOne(parts[0], c);
      SplitNowhere(parts[0], c);
    } else {
      var rest := parts[1..];
      assert parts == [parts[0]] + rest;
      assert forall i :: 0 <= i < |rest| ==> rest[i] == parts[i + 1];
      SplitJoin(rest, c);
      JoinHead(parts[0], rest, c);
      SplitAt(parts[0], c, Join(rest, c));
    }
  }

  lemma JoinLacks(parts: seq<string>, c: char, d: char)
    requires d != c && NoneContains(parts, d)
    ensures d !in Join(parts, c)
  {
    hide Join;
    JoinChars(parts, c, d);
  }

  lemma {:induction false} JoinChars(parts: seq<string>, c: char, d: char)
    requires d != c
    ensures d in Join(parts, c) <==> exists i :: 0 <= i < |parts| && d in parts[i]
  {
    if |parts| > 1 {
      var rest := parts[1..];
      JoinChars(rest, c, d);
      assert forall i :: 0 <= i < |rest| ==> rest[i] == parts[i + 1];
      if i :| 0 <= i < |parts| && d in parts[i] {
        if i > 0 {
          assert d in rest[i - 1];
        }
      }
    } else if |parts| == 1 {
      assert Join(parts, c) == parts[0];
    }
  }

  /** strings.Compare. */
  function Compare(a: string, b: string): int {
    if a == "" && b == "" then 0
    else if a == "" then -1
    else if b == "" then 1
    else if a[0] < b[0] then -1
    else if a[0] > b[0] then 1
    else Compare(a[1..], b[1..])
  }

  lemma {:induction false} CompareZero(a: string, b: string)
    ensures Compare(a, b) == 0 <==> a == b
  {
    if a != "" && b != "" && a[0] == b[0] {
      CompareZero(a[1..], b[1..]);
      assert a == [a[0]] + a[1..] && b == [b[0]] + b[1..];
    }
  }

  lemma {:induction false} CompareFlips(a: string, b: string)
    ensures Compare(a, b) == -Compare(b, a) && -1 <= Compare(a, b) <= 1
  {
    if a != "" && b != "" && a[0] == b[0] {
      CompareFlips(a[1..], b[1..]);
    }
  }

  lemma {:induction false} CompareChains(a: string, b: string, c: string)
    requires Compare(a, b) <= 0 && Compare(b, c) <= 0
    ensures Compare(a, c) <= 0
  {
    if a != "" && b != "" && c != "" && a[0] == b[0] == c[0] {
      CompareChains(a[1..], b[1..], c[1..]);
    }
  }

  /** Two concatenations whose tails have equal length agree exactly when both parts do. */
  lemma SameTails(a: string, x: string, b: string, y: string)
    requires |x| == |y|
    ensures a + x == b + y <==> a == b && x == y
  {
    if a + x == b + y {
      assert a == (a + x)[..|a|] && b == (b + y)[..|b|];
      assert x == (a + x)[|a|..] && y == (b + y)[|b|..];
    }
  }

  lemma DropPrefix(prefix: string, a: string, b: string)
    requires prefix + a == prefix + b
    ensures a == b
  {
    assert a == (prefix + a)[|prefix|..] && b == (prefix + b)[|prefix|..];
  }

  lemma LastUnderscore(n: string, v: string, n2: string, v2: string)
    requires n + "_" + v == n2 + "_" + v2 && '_' !in v && '_' !in v2
    ensures n == n2 && v == v2
  {
    var s := n + "_" + v;
    forall k | |n| < k < |s| ensures s[k] != '_' { assert s[k] == v[k - |n| - 1]; }
    forall k | |n2| < k < |s| ensures s[k] != '_' { assert s[k] == v2[k - |n2| - 1]; }
    assert s[|n|] == '_' && s[|n2|] == '_';
    assert n == s[..|n|] && v == s[|n| + 1..] && n2 == s[..|n2|] && v2 == s[|n2| + 1..];
  }

  lemma BeforeFirstDot(n: string, v: string, rest: string)
    requires '.' !in n && '.' in v
    ensures Cut(n + "_" + v + rest, '.').before == n + "_" + Cut(v, '.').before
    ensures forall c :: c in Cut(v, '.').before ==> c in v
  {
    hide Cut;
    CutParts(v, '.');
    var p := Cut(v, '.');
    assert p.found;
    assert v == p.before + ['.'] + p.after;
    CutAt(n + "_" + p.before, '.', p.after + rest);
    assert n + "_" + (p.before + ['.'] + p.after) + rest == (n + "_" + p.before) + ['.'] + (p.after + rest);
  }

  /** A dot pins down where the part after an underscore starts, if it holds a dot and no underscore
      and what precedes it holds no dot. */
  lemma SplitAtVersion(n: string, v: string, rest: string, n2: string, v2: string, rest2: string)
    requires n + "_" + v + rest == n2 + "_" + v2 + rest2
    requires '.' !in n && '.' !in n2 && '_' !in v && '_' !in v2 && '.' in v && '.' in v2
    ensures n == n2
  {
    hide Cut;
    BeforeFirstDot(n, v, rest);
    BeforeFirstDot(n2, v2, rest2);
    LastUnderscore(n, Cut(v, '.').before, n2, Cut(v2, '.').before);
  }

  lemma SameBeforeUnderscore(v: string, rest: string, v2: string, rest2: string)
    requires v + "_" + rest == v2 + "_" + rest2 && '_' !in v && '_' !in v2
    ensures v == v2
  {
    CutAt(v, '_', rest);
    CutAt(v2, '_', rest2);
    assert v + ['_'] + rest == v2 + ['_'] + rest2;
  }

  lemma {:induction false} LastOfJoin(parts: seq<string>, c: char)
    requires parts != [] && parts[|parts| - 1] != ""
    ensures Join(parts, c) != "" && Join(parts, c)[|Join(parts, c)| - 1] == parts[|parts| - 1][|parts[|parts| - 1]| - 1]
  {
    if |parts| > 1 { LastOfJoin(parts[1..], c); }
  }
}
