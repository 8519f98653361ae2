/** The comparison everything is sorted by, that it is an order on valid versions, and exactly
    when it is the precedence of section 11 of Semantic Versioning 2.0.0. */
module Precedence {
  import opened Options
  import opened Strings
  import opened SemVer

  // ---- The comparison ----------------------------------------------------------------------

  function CompareNat(a: nat, b: nat): int { if a < b then -1 else if a > b then 1 else 0 }

  function CompareIdentifiers(a: string, b: string): int {
    match (NumericIdentifier(a), NumericIdentifier(b))
    case (Some(m), Some(n)) => CompareNat(m, n)
    case (Some(_), None) => -1
    case (None, Some(_)) => 1
    case (None, None) => Compare(a, b)
  }

  function ComparePre(a: seq<string>, b: seq<string>): int {
    if a == [] || b == [] then CompareNat(|a|, |b|)
    else if CompareIdentifiers(a[0], b[0]) != 0 then CompareIdentifiers(a[0], b[0])
    else ComparePre(a[1..], b[1..])
  }

  function CompareCore(a: seq<nat>, b: seq<nat>): int
    requires |a| == |b| == 3
  {
    if a[0] != b[0] then CompareNat(a[0], b[0])
    else if a[1] != b[1] then CompareNat(a[1], b[1])
    else CompareNat(a[2], b[2])
  }

  function CompareParsed(a: Parsed, b: Parsed): int
    requires |a.core| == |b.core| == 3
  {
    if CompareCore(a.core, b.core) != 0 then CompareCore(a.core, b.core)
    else if a.pre == [] && b.pre == [] then 0
    else if a.pre == [] then 1
    else if b.pre == [] then -1
    else ComparePre(a.pre, b.pre)
  }

  function CompareSemver(a: string, b: string): int {
    match (ParseSemanticVersion(a), ParseSemanticVersion(b))
    case (Some(va), Some(vb)) => CompareParsed(va, vb)
    case _ => Compare(a, b)
  }

  lemma ComparePreFrom(a: seq<string>, b: seq<string>, i: nat)
    requires i < |a| && i < |b|
    ensures ComparePre(a[i..], b[i..]) ==
            if CompareIdentifiers(a[i], b[i]) != 0 then CompareIdentifiers(a[i], b[i])
            else ComparePre(a[i + 1..], b[i + 1..])
  {
    assert a[i..][1..] == a[i + 1..] && b[i..][1..] == b[i + 1..];
  }

  /** The comparison as the source runs it: three core numbers, then a loop over identifiers. */
  method CompareVersions(a: string, b: string) returns (c: int)
    ensures c == CompareSemver(a, b)
  {
    hide ParseSemanticVersion, Compare, NumericIdentifier;
    var va := ParseVersion(a);
    var vb := ParseVersion(b);
    if va.None? || vb.None? { return Compare(a, b); }
    var x, y := va.value, vb.value;
    for i := 0 to 3
      invariant forall k :: 0 <= k < i ==> x.core[k] == y.core[k]
    {
      if x.core[i] < y.core[i] { return -1; }
      if x.core[i] > y.core[i] { return 1; }
    }
    if |x.pre| == 0 && |y.pre| == 0 { return 0; }
    if |x.pre| == 0 { return 1; }
    if |y.pre| == 0 { return -1; }
    var i := 0;
    assert x.pre[0..] == x.pre && y.pre[0..] == y.pre;
    while i < |x.pre| && i < |y.pre|
      invariant i <= |x.pre| && i <= |y.pre|
      invariant ComparePre(x.pre, y.pre) == ComparePre(x.pre[i..], y.pre[i..])
    {
      ComparePreFrom(x.pre, y.pre, i);
      var m, n := NumericIdentifier(x.pre[i]), NumericIdentifier(y.pre[i]);
      if m.Some? && n.Some? {
        if m.value < n.value { return -1; }
        if m.value > n.value { return 1; }
      } else if m.Some? {
        return -1;
      } else if n.Some? {
        return 1;
      } else {
        var t := Compare(x.pre[i], y.pre[i]);
        if t != 0 { return t; }
      }
      i := i + 1;
    }
    if |x.pre| < |y.pre| { return -1; }
    if |x.pre| > |y.pre| { return 1; }
    return 0;
  }

  // ---- A total preorder on valid versions --------------------------------------------------

  lemma IdentifierZero(a: string, b: string)
    requires IsIdentifier(a, true) && IsIdentifier(b, true)
    ensures CompareIdentifiers(a, b) == 0 <==> a == b
  {
    CompareZero(a, b);
    if ParseUint(a).Some? && ParseUint(b).Some? {
      DecimalOfDecimalValue(a);
      DecimalOfDecimalValue(b);
    }
  }

  lemma IdentifierFlips(a: string, b: string)
    ensures CompareIdentifiers(a, b) == -CompareIdentifiers(b, a)
  {
    CompareFlips(a, b);
  }

  lemma IdentifierChains(a: string, b: string, c: string)
    requires CompareIdentifiers(a, b) <= 0 && CompareIdentifiers(b, c) <= 0
    ensures CompareIdentifiers(a, c) <= 0
  {
    if ParseUint(a).None? && ParseUint(b).None? && ParseUint(c).None? {
      CompareChains(a, b, c);
    }
  }

  lemma {:induction false} PreFlips(a: seq<string>, b: seq<string>)
    ensures ComparePre(a, b) == -ComparePre(b, a)
  {
    if a != [] && b != [] {
      IdentifierFlips(a[0], b[0]);
      PreFlips(a[1..], b[1..]);
    }
  }

  lemma {:induction false} PreZero(a: seq<string>, b: seq<string>)
    requires AreIdentifiers(a, true) && AreIdentifiers(b, true)
    ensures ComparePre(a, b) == 0 <==> a == b
  {
    if a != [] && b != [] {
      IdentifierZero(a[0], b[0]);
      PreZero(a[1..], b[1..]);
      assert a == [a[0]] + a[1..] && b == [b[0]] + b[1..];
    }
  }

  lemma {:induction false} PreChains(a: seq<string>, b: seq<string>, c: seq<string>)
    requires AreIdentifiers(a, true) && AreIdentifiers(b, true) && AreIdentifiers(c, true)
    requires ComparePre(a, b) <= 0 && ComparePre(b, c) <= 0
    ensures ComparePre(a, c) <= 0
  {
    if a != [] && b != [] && c != [] {
      IdentifierZero(a[0], b[0]);
      IdentifierZero(b[0], c[0]);
      IdentifierZero(a[0], c[0]);
      IdentifierChains(a[0], b[0], c[0]);
      IdentifierFlips(a[0], c[0]);
      if a[0] == c[0] {
        IdentifierFlips(a[0], b[0]);
        IdentifierChains(b[0], c[0], a[0]);
        assert a[0] == b[0];
        PreChains(a[1..], b[1..], c[1..]);
      }
    }
  }

  ghost predicate ParsedOk(p: Parsed) { |p.core| == 3 && AreIdentifiers(p.pre, true) }

  lemma ParsedOkOf(s: string)
    requires ValidVersion(s)
    ensures ParsedOk(ParseSemanticVersion(s).value)
  {
    TextOfReading(s);
  }

  lemma ParsedChains(a: Parsed, b: Parsed, c: Parsed)
    requires ParsedOk(a) && ParsedOk(b) && ParsedOk(c)
    requires CompareParsed(a, b) <= 0 && CompareParsed(b, c) <= 0
    ensures CompareParsed(a, c) <= 0
  {
    if a.pre != [] && b.pre != [] && c.pre != [] && ComparePre(a.pre, b.pre) <= 0 && ComparePre(b.pre, c.pre) <= 0 {
      PreChains(a.pre, b.pre, c.pre);
    }
  }

  lemma SemverFlips(a: string, b: string)
    ensures CompareSemver(a, b) == -CompareSemver(b, a)
  {
    hide ParseSemanticVersion, ComparePre, Compare;
    CompareFlips(a, b);
    if ValidVersion(a) && ValidVersion(b) {
      PreFlips(ParseSemanticVersion(a).value.pre, ParseSemanticVersion(b).value.pre);
    }
  }

  lemma SemverChains(a: string, b: string, c: string)
    requires ValidVersion(a) && ValidVersion(b) && ValidVersion(c)
    requires CompareSemver(a, b) <= 0 && CompareSemver(b, c) <= 0
    ensures CompareSemver(a, c) <= 0
  {
    ParsedOkOf(a);
    ParsedOkOf(b);
    ParsedOkOf(c);
    ParsedChains(ParseSemanticVersion(a).value, ParseSemanticVersion(b).value, ParseSemanticVersion(c).value);
  }

  /** Two valid versions tie exactly when they differ at most in build metadata. */
  lemma SemverTies(a: string, b: string)
    requires ValidVersion(a) && ValidVersion(b)
    ensures CompareSemver(a, b) == 0 <==> Cut(a, '+').before == Cut(b, '+').before
  {
    hide ParseSemanticVersion, ComparePre, Cut, Text, ReleaseText;
    var va, vb := Reading(a), Reading(b);
    TextOfReading(a);
    TextOfReading(b);
    TextCuts(va);
    TextCuts(vb);
    PreZero(va.pre, vb.pre);
    ReleaseTextInjective(va, vb);
    ReadingPieces(a);
    ReadingPieces(b);
    assert CompareSemver(a, b) == 0 <==> va.(build := []) == vb.(build := []);
  }

  lemma ReleaseTextInjective(a: Version, b: Version)
    requires IsVersion(a) && IsVersion(b)
    ensures ReleaseText(a) == ReleaseText(b) <==> a.(build := []) == b.(build := [])
  {
    var ra, rb := a.(build := []), b.(build := []);
    if ReleaseText(a) == ReleaseText(b) {
      assert Text(ra) == ReleaseText(a) && Text(rb) == ReleaseText(b);
      TextInjective(ra, rb);
    }
  }

  // ---- With invalid texts -------------------------------------------------------------------

  /** The comparison chains for every triple but those with exactly one invalid text. */
  lemma ChainsUnlessOneInvalid(a: string, b: string, c: string)
    requires (if ValidVersion(a) then 0 else 1) + (if ValidVersion(b) then 0 else 1) +
             (if ValidVersion(c) then 0 else 1) != 1
    requires CompareSemver(a, b) <= 0 && CompareSemver(b, c) <= 0
    ensures CompareSemver(a, c) <= 0
  {
    hide ParseSemanticVersion, CompareParsed;
    if ValidVersion(a) && ValidVersion(b) {
      SemverChains(a, b, c);
    } else {
      CompareChains(a, b, c);
    }
  }

  ghost predicate TransitiveOn(s: set<string>) {
    forall a, b, c :: a in s && b in s && c in s && CompareSemver(a, b) <= 0 && CompareSemver(b, c) <= 0 ==>
      CompareSemver(a, c) <= 0
  }

  /** An invalid text between two versions: as text after the later and before the earlier. */
  predicate Between(a: string, b: string, x: string) {
    && ValidVersion(a) && ValidVersion(b) && !ValidVersion(x)
    && CompareSemver(a, b) <= 0 && Compare(b, x) < 0 && Compare(x, a) < 0
  }

  lemma BetweenBreaks(a: string, b: string, x: string)
    requires Between(a, b, x)
    ensures CompareSemver(b, x) < 0 && CompareSemver(a, x) > 0
  {
    AgainstInvalid(b, x);
    AgainstInvalid(a, x);
  }

  /** On which texts the order is transitive: exactly those where no invalid one lies between two
      versions that precedence and text order differently. */
  lemma TransitiveExactly(s: set<string>)
    ensures TransitiveOn(s) <==> forall a, b, x :: a in s && b in s && x in s ==> !Between(a, b, x)
  {
    hide ValidVersion, CompareSemver, Compare;
    if TransitiveOn(s) {
      forall a, b, x | a in s && b in s && x in s ensures !Between(a, b, x) {
        if Between(a, b, x) { BetweenBreaks(a, b, x); }
      }
    }
    if forall a, b, x :: a in s && b in s && x in s ==> !Between(a, b, x) {
      forall a, b, c | a in s && b in s && c in s && CompareSemver(a, b) <= 0 && CompareSemver(b, c) <= 0
        ensures CompareSemver(a, c) <= 0
      {
        ChainOrBetween(a, b, c);
      }
    }
  }

  /** Compared with an invalid text, versions and texts are ordered as texts, strictly. */
  lemma AgainstInvalid(a: string, x: string)
    requires ValidVersion(a)
    ensures !ValidVersion(x) ==>
              CompareSemver(a, x) == Compare(a, x) == -Compare(x, a) == -CompareSemver(x, a) && Compare(a, x) != 0
  {
    hide ParseSemanticVersion, CompareParsed, Compare;
    CompareFlips(a, x);
    CompareZero(a, x);
  }

  lemma ChainOrBetween(a: string, b: string, c: string)
    requires CompareSemver(a, b) <= 0 && CompareSemver(b, c) <= 0
    ensures CompareSemver(a, c) <= 0 || Between(b, c, a) || Between(c, a, b) || Between(a, b, c)
  {
    hide ValidVersion, CompareSemver, Compare;
    SemverFlips(a, c);
    if ValidVersion(a) && ValidVersion(b) && !ValidVersion(c) {
      AgainstInvalid(a, c);
      AgainstInvalid(b, c);
    } else if ValidVersion(a) && !ValidVersion(b) && ValidVersion(c) {
      AgainstInvalid(a, b);
      AgainstInvalid(c, b);
    } else if !ValidVersion(a) && ValidVersion(b) && ValidVersion(c) {
      AgainstInvalid(b, a);
      AgainstInvalid(c, a);
    } else {
      ChainsUnlessOneInvalid(a, b, c);
    }
  }

  /** For instance 1x, which as text lies between 10.0.0 and 9.0.0. */
  lemma InvalidTextBreaksTransitivity()
    ensures CompareSemver("10.0.0", "1x") < 0 && CompareSemver("1x", "9.0.0") < 0
    ensures CompareSemver("10.0.0", "9.0.0") > 0 && Between("9.0.0", "10.0.0", "1x")
  {
    hide ParseSemanticVersion;
    var ten := Version(10, 0, 0, [], []);
    var nine := Version(9, 0, 0, [], []);
    assert Decimal(10) == Decimal(1) + "0" == "10" && Decimal(9) == "9" && Decimal(0) == "0";
    WholeVersionText(ten, "10", "0", "0");
    WholeVersionText(nine, "9", "0", "0");
    assert Text(ten) == "10.0.0" && Text(nine) == "9.0.0";
    ParseText(ten);
    ParseText(nine);
    if ValidVersion("1x") {
      VersionAlphabet("1x");
    }
    assert Compare("10.0.0", "1x") == Compare("10.0.0"[1..], "1x"[1..]) == -1;
  }

  lemma WholeVersionText(v: Version, major: string, minor: string, patch: string)
    requires v.pre == v.build == []
    requires [Decimal(v.major), Decimal(v.minor), Decimal(v.patch)] == [major, minor, patch]
    ensures Text(v) == major + "." + minor + "." + patch
  {
    assert Join([major, minor, patch][1..], '.') == minor + "." + patch;
  }

  // ---- Section 11 --------------------------------------------------------------------------

  /** ASCII sort order, stated without reference to the comparison. */
  ghost predicate TextBefore(a: string, b: string) {
    exists i :: 0 <= i <= |a| && i < |b| && a[..i] == b[..i] && (i == |a| || a[i] < b[i])
  }

  /** Sections 11.4.1 to 11.4.3, with numbers of any size. */
  ghost predicate IdentifierBefore(a: string, b: string) {
    if AllDigits(a) && AllDigits(b) then DecimalValue(a) < DecimalValue(b)
    else if AllDigits(a) || AllDigits(b) then AllDigits(a)
    else TextBefore(a, b)
  }

  /** Section 11.4: the first difference decides, and a longer list follows its prefixes. */
  ghost predicate PreBefore(a: seq<string>, b: seq<string>) {
    || (|a| < |b| && a == b[..|a|])
    || exists i :: 0 <= i < |a| && i < |b| && a[..i] == b[..i] && IdentifierBefore(a[i], b[i])
  }

  /** Sections 11.2 and 11.3. Build metadata does not figure (section 10). */
  ghost predicate Before(a: Version, b: Version) {
    || a.major < b.major
    || (a.major == b.major && a.minor < b.minor)
    || (a.major == b.major && a.minor == b.minor && a.patch < b.patch)
    || (a.major == b.major && a.minor == b.minor && a.patch == b.patch &&
        a.pre != [] && (b.pre == [] || PreBefore(a.pre, b.pre)))
  }

  ghost predicate FollowsSection11(a: string, b: string)
    requires ValidVersion(a) && ValidVersion(b)
  {
    && (CompareSemver(a, b) < 0 <==> Before(Reading(a), Reading(b)))
    && (CompareSemver(a, b) > 0 <==> Before(Reading(b), Reading(a)))
  }

  /** A number the source cannot hold in 64 bits and therefore compares as text. */
  predicate Oversized(id: string) { AllDigits(id) && DecimalValue(id) >= UINT64_LIMIT }

  predicate NoOversized(ids: seq<string>) { forall i :: 0 <= i < |ids| ==> !Oversized(ids[i]) }

  /** When comparing an oversized number as text happens to give the right answer. */
  predicate TextOrderWillDo(a: string, b: string) {
    if Oversized(a) && Oversized(b) then |a| == |b| || (|a| < |b| <==> Compare(a, b) < 0)
    else if Oversized(a) && !AllDigits(b) then Compare(a, b) < 0
    else if Oversized(b) && !AllDigits(a) then Compare(b, a) < 0
    else true
  }

  function FirstDifference(a: seq<string>, b: seq<string>): (d: nat)
    ensures d <= |a| && d <= |b| && a[..d] == b[..d]
    ensures d < |a| && d < |b| ==> a[d] != b[d]
    ensures forall k :: 0 <= k < d ==> a[k] == b[k]
  {
    if a == [] || b == [] || a[0] != b[0] then 0 else FirstDifference(a[1..], b[1..]) + 1
  }

  lemma DifferenceAt(a: seq<string>, b: seq<string>, i: nat)
    requires i < |a| && i < |b| && a[..i] == b[..i] && a[i] != b[i]
    ensures FirstDifference(a, b) == i
  {
    assert forall k :: 0 <= k < i ==> a[k] == a[..i][k] == b[..i][k] == b[k];
  }

  /** The guard: look at the first identifiers that differ, if the comparison reaches them. */
  predicate OrderedAsNumbers(a: Version, b: Version) {
    var d := FirstDifference(a.pre, b.pre);
    (a.major == b.major && a.minor == b.minor && a.patch == b.patch && d < |a.pre| && d < |b.pre|)
    ==> TextOrderWillDo(a.pre[d], b.pre[d])
  }

  lemma PrefixStep(a: string, b: string, i: nat)
    requires 0 < i <= |a| && i <= |b|
    ensures a[..i] == b[..i] <==> a[0] == b[0] && a[1..][..i - 1] == b[1..][..i - 1]
  {
    assert a[..i] == [a[0]] + a[1..][..i - 1] && b[..i] == [b[0]] + b[1..][..i - 1];
    assert a[..i][0] == a[0] && b[..i][0] == b[0];
    assert a[..i][1..] == a[1..][..i - 1] && b[..i][1..] == b[1..][..i - 1];
  }

  lemma {:induction false} TextOrder(a: string, b: string)
    ensures Compare(a, b) < 0 <==> TextBefore(a, b)
  {
    forall i | 0 < i <= |a| && i <= |b|
      ensures a[..i] == b[..i] <==> a[0] == b[0] && a[1..][..i - 1] == b[1..][..i - 1]
    {
      PrefixStep(a, b, i);
    }
    if a != "" && b != "" && a[0] == b[0] {
      TextOrder(a[1..], b[1..]);
      if TextBefore(a[1..], b[1..]) {
        var i :| 0 <= i <= |a[1..]| && i < |b[1..]| && a[1..][..i] == b[1..][..i] &&
          (i == |a[1..]| || a[1..][i] < b[1..][i]);
        assert a[..i + 1] == b[..i + 1];
      }
      if TextBefore(a, b) {
        var i :| 0 <= i <= |a| && i < |b| && a[..i] == b[..i] && (i == |a| || a[i] < b[i]);
        assert a[1..][..i - 1] == b[1..][..i - 1];
      }
    } else if Compare(a, b) < 0 {
      assert a[..0] == b[..0];
    }
  }

  function Pow10(n: nat): nat { if n == 0 then 1 else 10 * Pow10(n - 1) }

  lemma {:induction false} ValueBounds(s: string)
    requires AllDigits(s)
    ensures DecimalValue(s) < Pow10(|s|)
    ensures s != "" && s[0] != '0' ==> Pow10(|s| - 1) <= DecimalValue(s)
  {
    if |s| == 1 {
      assert DecimalValue(s[..0]) == 0;
    } else if s != "" {
      ValueBounds(s[..|s| - 1]);
    }
  }

  lemma TimesTen(d: nat, p: nat, rest: nat)
    ensures (d * p + rest) * 10 == d * (10 * p) + rest * 10
  {
  }

  lemma DecimalNext(front: string, c: char)
    requires AllDigits(front) && IsDigit(c)
    ensures AllDigits(front + [c]) && DecimalValue(front + [c]) == DecimalValue(front) * 10 + (c as int - '0' as int)
  {
    assert (front + [c])[..|front|] == front;
  }

  lemma {:induction false} ValueFromFront(s: string)
    requires s != "" && AllDigits(s)
    ensures DecimalValue(s) == (s[0] as int - '0' as int) * Pow10(|s| - 1) + DecimalValue(s[1..])
  {
    hide DecimalValue;
    var front, c := s[..|s| - 1], s[|s| - 1];
    assert s == front + [c];
    DecimalNext(front, c);
    if |s| > 1 {
      ValueFromFront(front);
      assert s[1..] == front[1..] + [c];
      DecimalNext(front[1..], c);
      TimesTen(s[0] as int - '0' as int, Pow10(|s| - 2), DecimalValue(front[1..]));
    } else {
      assert front == "" && s[1..] == "";
      NoDigits();
    }
  }

  lemma NoDigits()
    ensures DecimalValue("") == 0
  {
  }

  lemma {:induction false} SameLengthNumbers(a: string, b: string)
    requires AllDigits(a) && AllDigits(b) && |a| == |b|
    ensures DecimalValue(a) < DecimalValue(b) <==> Compare(a, b) < 0
  {
    if a != "" {
      ValueFromFront(a);
      ValueFromFront(b);
      ValueBounds(a[1..]);
      ValueBounds(b[1..]);
      SameLengthNumbers(a[1..], b[1..]);
      var x, y := a[0] as int - '0' as int, b[0] as int - '0' as int;
      if x < y {
        LeadingDigit(x, y, Pow10(|a| - 1), DecimalValue(a[1..]), DecimalValue(b[1..]));
      } else if x > y {
        LeadingDigit(y, x, Pow10(|a| - 1), DecimalValue(b[1..]), DecimalValue(a[1..]));
      }
    }
  }

  lemma LeadingDigit(x: nat, y: nat, p: nat, u: nat, v: nat)
    requires x < y && u < p
    ensures x * p + u < y * p + v
  {
    assert (x + 1) * p <= y * p;
  }

  lemma {:induction false} Pow10Grows(m: nat, n: nat)
    requires m <= n
    ensures Pow10(m) <= Pow10(n)
  {
    if m < n { Pow10Grows(m, n - 1); }
  }

  lemma LongerNumbers(a: string, b: string)
    requires AllDigits(a) && AllDigits(b) && b != "" && b[0] != '0' && |a| < |b|
    ensures DecimalValue(a) < DecimalValue(b)
  {
    ValueBounds(a);
    ValueBounds(b);
    Pow10Grows(|a|, |b| - 1);
  }

  lemma OversizedStart(a: string)
    requires IsIdentifier(a, true) && Oversized(a)
    ensures a[0] != '0'
  {
    if a == "0" {
      assert DecimalValue("") == 0;
    }
  }

  lemma OversizedPair(a: string, b: string)
    requires IsIdentifier(a, true) && IsIdentifier(b, true) && a != b && Oversized(a) && Oversized(b)
    ensures IdentifierBefore(a, b) <==> (|a| < |b| || (|a| == |b| && Compare(a, b) < 0))
  {
    OversizedStart(a);
    OversizedStart(b);
    if |a| == |b| {
      SameLengthNumbers(a, b);
    } else if |a| < |b| {
      LongerNumbers(a, b);
    } else {
      LongerNumbers(b, a);
    }
  }

  lemma IdentifierAgreement(a: string, b: string)
    requires IsIdentifier(a, true) && IsIdentifier(b, true) && a != b
    ensures ((CompareIdentifiers(a, b) < 0 <==> IdentifierBefore(a, b)) &&
             (CompareIdentifiers(a, b) > 0 <==> IdentifierBefore(b, a))) <==> TextOrderWillDo(a, b)
  {
    TextOrder(a, b);
    TextOrder(b, a);
    CompareFlips(a, b);
    CompareZero(a, b);
    IdentifierZero(a, b);
    if Oversized(a) && Oversized(b) {
      OversizedPair(a, b);
      OversizedPair(b, a);
    }
  }

  lemma {:induction false} ComparePreAt(a: seq<string>, b: seq<string>)
    requires AreIdentifiers(a, true) && AreIdentifiers(b, true)
    ensures var d := FirstDifference(a, b);
            ComparePre(a, b) == if d < |a| && d < |b| then CompareIdentifiers(a[d], b[d]) else CompareNat(|a|, |b|)
  {
    if a != [] && b != [] {
      IdentifierZero(a[0], b[0]);
      if a[0] == b[0] { ComparePreAt(a[1..], b[1..]); }
    }
  }

  lemma PreBeforeAt(a: seq<string>, b: seq<string>)
    ensures var d := FirstDifference(a, b);
            PreBefore(a, b) <==> if d < |a| && d < |b| then IdentifierBefore(a[d], b[d]) else |a| < |b|
  {
    var d := FirstDifference(a, b);
    if i :| 0 <= i < |a| && i < |b| && a[..i] == b[..i] && IdentifierBefore(a[i], b[i]) {
      NotBeforeItself(a[i]);
      DifferenceAt(a, b, i);
    }
    assert |a| < |b| && a == b[..|a|] ==> forall k :: 0 <= k < |a| ==> a[k] == b[k];
    assert d == |a| ==> a[..d] == a;
  }

  lemma NotBeforeItself(a: string)
    ensures !IdentifierBefore(a, a)
  {
    TextOrder(a, a);
    CompareZero(a, a);
  }

  lemma PreAgreement(a: seq<string>, b: seq<string>)
    requires AreIdentifiers(a, true) && AreIdentifiers(b, true)
    ensures ((ComparePre(a, b) < 0 <==> PreBefore(a, b)) && (ComparePre(a, b) > 0 <==> PreBefore(b, a))) <==>
            var d := FirstDifference(a, b);
            (d < |a| && d < |b| ==> TextOrderWillDo(a[d], b[d]))
  {
    hide ComparePre, PreBefore, IdentifierBefore, CompareIdentifiers, TextOrderWillDo;
    ComparePreAt(a, b);
    PreBeforeAt(a, b);
    PreBeforeAt(b, a);
    DifferenceSymmetric(a, b);
    var d := FirstDifference(a, b);
    if d < |a| && d < |b| {
      IdentifierAgreement(a[d], b[d]);
    }
  }

  /** The comparison is section 11's precedence exactly on the pairs the guard admits. */
  lemma Section11Exactly(a: string, b: string)
    requires ValidVersion(a) && ValidVersion(b)
    ensures FollowsSection11(a, b) <==> OrderedAsNumbers(Reading(a), Reading(b))
  {
    hide ParseSemanticVersion, Reading, CompareParsed, Before, OrderedAsNumbers;
    ReadingPieces(a);
    ReadingPieces(b);
    VersionAgreement(Reading(a), Reading(b));
  }

  function ParsedOf(v: Version): Parsed { Parsed([v.major, v.minor, v.patch], v.pre) }

  lemma VersionAgreement(a: Version, b: Version)
    requires AreIdentifiers(a.pre, true) && AreIdentifiers(b.pre, true)
    ensures ((CompareParsed(ParsedOf(a), ParsedOf(b)) < 0 <==> Before(a, b)) &&
             (CompareParsed(ParsedOf(a), ParsedOf(b)) > 0 <==> Before(b, a))) <==> OrderedAsNumbers(a, b)
  {
    hide ComparePre, PreBefore, TextOrderWillDo, FirstDifference;
    PreAgreement(a.pre, b.pre);
  }

  lemma {:induction false} DifferenceSymmetric(a: seq<string>, b: seq<string>)
    ensures FirstDifference(a, b) == FirstDifference(b, a)
  {
    if a != [] && b != [] && a[0] == b[0] { DifferenceSymmetric(a[1..], b[1..]); }
  }

  /** A version is compared by section 11 with every version of ordinary numbers exactly when its
      own prerelease numbers fit in 64 bits. */
  lemma Section11ForOrdinaryNumbers(a: string)
    requires ValidVersion(a)
    ensures NoOversized(Reading(a).pre) <==>
            forall b | ValidVersion(b) && NoOversized(Reading(b).pre) :: FollowsSection11(a, b)
  {
    forall b | ValidVersion(b) ensures FollowsSection11(a, b) <==> OrderedAsNumbers(Reading(a), Reading(b)) {
      Section11Exactly(a, b);
    }
    if !NoOversized(Reading(a).pre) {
      var i := FirstOversized(Reading(a).pre);
      MisorderedNeighbour(a, i);
    }
  }

  function FirstOversized(ids: seq<string>): (i: nat)
    requires !NoOversized(ids)
    ensures i < |ids| && Oversized(ids[i]) && NoOversized(ids[..i])
  {
    if Oversized(ids[0]) then 0 else FirstOversized(ids[1..]) + 1
  }

  /** The failing input: replace the oversized number by a hyphen, which section 11 ranks above
      every number and text order ranks below. */
  lemma MisorderedNeighbour(a: string, i: nat)
    requires ValidVersion(a) && i < |Reading(a).pre| && Oversized(Reading(a).pre[i]) && NoOversized(Reading(a).pre[..i])
    ensures exists b :: ValidVersion(b) && NoOversized(Reading(b).pre) && !FollowsSection11(a, b)
  {
    hide ParseSemanticVersion, Reading, FirstDifference, ComparePre, Text, IsVersion, FollowsSection11;
    var va := Reading(a);
    TextOfReading(a);
    var pre := va.pre[..i] + ["-"];
    var vb := Version(va.major, va.minor, va.patch, pre, []);
    HyphenVersion(va, vb, i);
    var b := Text(vb);
    ParseText(vb);
    TextOfReading(b);
    TextInjective(Reading(b), vb);
    assert pre[..i] == va.pre[..i];
    DifferenceAt(va.pre, pre, i);
    assert !AllDigits("-") by { assert !IsDigit("-"[0]); }
    assert Compare(va.pre[i], "-") > 0;
    Section11Exactly(a, b);
  }

  lemma HyphenVersion(a: Version, b: Version, i: nat)
    requires IsVersion(a) && i < |a.pre| && b == a.(pre := a.pre[..i] + ["-"], build := [])
    ensures IsVersion(b)
  {
    assert IsIdentifier("-", true);
  }

  /** For instance 1.0.0-18446744073709551616, that is 2^64, against 1.0.0--. */
  lemma OversizedExample()
    ensures var a, b := Text(Version(1, 0, 0, [Decimal(UINT64_LIMIT)], [])), Text(Version(1, 0, 0, ["-"], []));
            ValidVersion(a) && ValidVersion(b) && !FollowsSection11(a, b)
  {
    hide ParseSemanticVersion, Decimal, Text, FollowsSection11;
    var huge := Decimal(UINT64_LIMIT);
    var va, vb := Version(1, 0, 0, [huge], []), Version(1, 0, 0, ["-"], []);
    DecimalValueOfDecimal(UINT64_LIMIT);
    assert IsIdentifier(huge, true) && IsIdentifier("-", true) && !AllDigits("-") by { assert !IsDigit("-"[0]); }
    var a, b := Text(va), Text(vb);
    ParseText(va);
    ParseText(vb);
    TextOfReading(a);
    TextOfReading(b);
    TextInjective(Reading(a), va);
    TextInjective(Reading(b), vb);
    DifferenceAt(va.pre, vb.pre, 0);
    assert Compare(huge, "-") > 0;
    Section11Exactly(a, b);
  }

  // ---- The examples of section 11 --------------------------------------------------------------

  lemma ParsesTo(v: Version, s: string)
    requires IsVersion(v) && Text(v) == s
    ensures ValidVersion(s) && ParseSemanticVersion(s) == Some(Parsed([v.major, v.minor, v.patch], v.pre))
  {
    ParseText(v);
  }

  lemma OnePrerelease(ids: seq<string>, text: string)
    requires ids != [] && AreIdentifiers(ids, true) && Join(ids, '.') == text
    ensures ParseSemanticVersion("1.0.0-" + text) == Some(Parsed([1, 0, 0], ids))
  {
    hide ParseSemanticVersion, Decimal, Join;
    var v := Version(1, 0, 0, ids, []);
    SmallNumbers();
    WholeVersionText(v.(pre := []), "1", "0", "0");
    assert Text(v.(pre := [])) == CoreText(v) == "1.0.0";
    assert Text(v) == "1.0.0" + ['-'] + text == "1.0.0-" + text;
    ParsesTo(v, "1.0.0-" + text);
  }

  lemma SmallNumbers()
    ensures Decimal(0) == "0" && Decimal(1) == "1" && Decimal(2) == "2"
  {
  }

  lemma WholeVersion(major: nat, minor: nat, patch: nat, text: string)
    requires major <= 2 && minor <= 2 && patch <= 2
    requires text == Decimal(major) + "." + Decimal(minor) + "." + Decimal(patch)
    ensures ParseSemanticVersion(text) == Some(Parsed([major, minor, patch], []))
  {
    hide ParseSemanticVersion, Decimal;
    var v := Version(major, minor, patch, [], []);
    WholeVersionText(v, Decimal(major), Decimal(minor), Decimal(patch));
    ParsesTo(v, text);
  }

  /** Section 11.2: 1.0.0 < 2.0.0 < 2.1.0 < 2.1.1. */
  lemma CoreExample()
    ensures CompareSemver("1.0.0", "2.0.0") < 0 && CompareSemver("2.0.0", "2.1.0") < 0 &&
            CompareSemver("2.1.0", "2.1.1") < 0
  {
    hide ParseSemanticVersion, Decimal;
    SmallNumbers();
    WholeVersion(1, 0, 0, "1.0.0");
    WholeVersion(2, 0, 0, "2.0.0");
    WholeVersion(2, 1, 0, "2.1.0");
    WholeVersion(2, 1, 1, "2.1.1");
  }

  /** Section 11.4: 1.0.0-alpha < 1.0.0-alpha.1 < 1.0.0-alpha.beta < 1.0.0-beta < 1.0.0-beta.2 <
      1.0.0-beta.11 < 1.0.0-rc.1 < 1.0.0. */
  lemma PrereleaseExample()
    ensures CompareSemver("1.0.0-alpha", "1.0.0-alpha.1") < 0 && CompareSemver("1.0.0-alpha.1", "1.0.0-alpha.beta") < 0
    ensures CompareSemver("1.0.0-alpha.beta", "1.0.0-beta") < 0 && CompareSemver("1.0.0-beta", "1.0.0-beta.2") < 0
    ensures CompareSemver("1.0.0-beta.2", "1.0.0-beta.11") < 0 && CompareSemver("1.0.0-beta.11", "1.0.0-rc.1") < 0
    ensures CompareSemver("1.0.0-rc.1", "1.0.0") < 0
  {
    hide ParseSemanticVersion, Decimal, ComparePre;
    ExampleTexts();
    ExampleIdentifiers();
    SmallNumbers();
    WholeVersion(1, 0, 0, "1.0.0");
  }

  lemma ExampleTexts()
    ensures ParseSemanticVersion("1.0.0-alpha") == Some(Parsed([1, 0, 0], ["alpha"]))
    ensures ParseSemanticVersion("1.0.0-alpha.1") == Some(Parsed([1, 0, 0], ["alpha", "1"]))
    ensures ParseSemanticVersion("1.0.0-alpha.beta") == Some(Parsed([1, 0, 0], ["alpha", "beta"]))
    ensures ParseSemanticVersion("1.0.0-beta") == Some(Parsed([1, 0, 0], ["beta"]))
    ensures ParseSemanticVersion("1.0.0-beta.2") == Some(Parsed([1, 0, 0], ["beta", "2"]))
    ensures ParseSemanticVersion("1.0.0-beta.11") == Some(Parsed([1, 0, 0], ["beta", "11"]))
    ensures ParseSemanticVersion("1.0.0-rc.1") == Some(Parsed([1, 0, 0], ["rc", "1"]))
  {
    hide ParseSemanticVersion;
    OnePrerelease(["alpha"], "alpha");
    OnePrerelease(["beta"], "beta");
    TwoIdentifiers("alpha", "1");
    TwoIdentifiers("alpha", "beta");
    TwoIdentifiers("beta", "2");
    TwoIdentifiers("beta", "11");
    TwoIdentifiers("rc", "1");
    ExampleSpellings();
  }

  lemma ExampleSpellings()
    ensures "1.0.0-" + ("alpha" + "." + "1") == "1.0.0-alpha.1"
    ensures "1.0.0-" + ("alpha" + "." + "beta") == "1.0.0-alpha.beta"
    ensures "1.0.0-" + ("beta" + "." + "2") == "1.0.0-beta.2"
    ensures "1.0.0-" + ("beta" + "." + "11") == "1.0.0-beta.11"
    ensures "1.0.0-" + ("rc" + "." + "1") == "1.0.0-rc.1"
    ensures "1.0.0-" + "alpha" == "1.0.0-alpha" && "1.0.0-" + "beta" == "1.0.0-beta"
  {
  }

  lemma TwoIdentifiers(a: string, b: string)
    requires IsIdentifier(a, true) && IsIdentifier(b, true)
    ensures ParseSemanticVersion("1.0.0-" + (a + "." + b)) == Some(Parsed([1, 0, 0], [a, b]))
  {
    hide ParseSemanticVersion;
    assert [a, b][1..] == [b];
    OnePrerelease([a, b], a + "." + b);
  }

  lemma ExampleIdentifiers()
    ensures ComparePre(["alpha"], ["alpha", "1"]) < 0 && ComparePre(["alpha", "1"], ["alpha", "beta"]) < 0
    ensures ComparePre(["alpha", "beta"], ["beta"]) < 0 && ComparePre(["beta"], ["beta", "2"]) < 0
    ensures ComparePre(["beta", "2"], ["beta", "11"]) < 0 && ComparePre(["beta", "11"], ["rc", "1"]) < 0
  {
    hide CompareIdentifiers;
    assert ["alpha"][1..] == [] && ["alpha", "1"][1..] == ["1"] && ["alpha", "beta"][1..] == ["beta"];
    assert ["beta"][1..] == [] && ["beta", "2"][1..] == ["2"] && ["beta", "11"][1..] == ["11"];
    ExampleWords();
  }

  lemma ExampleWords()
    ensures CompareIdentifiers("alpha", "alpha") == 0 && CompareIdentifiers("beta", "beta") == 0
    ensures CompareIdentifiers("1", "beta") < 0 && CompareIdentifiers("alpha", "beta") < 0
    ensures CompareIdentifiers("2", "11") < 0 && CompareIdentifiers("beta", "rc") < 0
  {
    assert DecimalValue("1") == 1 by { assert "1"[..0] == ""; }
    assert DecimalValue("2") == 2 by { assert "2"[..0] == ""; }
    assert DecimalValue("11") == 11 by { assert "11"[..1] == "1"; }
    CompareZero("alpha", "alpha");
    CompareZero("beta", "beta");
    assert !IsDigit("alpha"[0]) && !IsDigit("beta"[0]) && !IsDigit("rc"[0]);
  }
}
