/** Versions: the server's parser, the importing CLI's parser, and the grammar of Semantic
    Versioning 2.0.0 (sections 2, 9 and 10) that both must accept exactly. */
module SemVer {
  import opened Options
  import opened Strings

  const UINT64_LIMIT: nat := 0x1_0000_0000_0000_0000

  predicate IsDigit(c: char) { '0' <= c <= '9' }

  predicate AllDigits(s: string) { forall i :: 0 <= i < |s| ==> IsDigit(s[i]) }

  predicate IsIdentifierChar(c: char) {
    IsDigit(c) || 'A' <= c <= 'Z' || 'a' <= c <= 'z' || c == '-'
  }

  predicate IdentifierChars(s: string) { forall i :: 0 <= i < |s| ==> IsIdentifierChar(s[i]) }

  predicate LeadingZero(s: string) { |s| > 1 && s[0] == '0' }

  // ---- The grammar -------------------------------------------------------------------------

  /** Dot-separated fields of a version. Section 2 gives the numbers, section 9 the prerelease
      identifiers and section 10 the build identifiers; an empty list means the part is absent. */
  datatype Version = Version(major: nat, minor: nat, patch: nat, pre: seq<string>, build: seq<string>)

  /** Sections 9 and 10: nonempty, ASCII alphanumerics and hyphen; only a prerelease forbids a
      number written with leading zeros. */
  predicate IsIdentifier(s: string, noLeadingZero: bool) {
    s != "" && IdentifierChars(s) && !(noLeadingZero && AllDigits(s) && LeadingZero(s))
  }

  ghost predicate AreIdentifiers(ids: seq<string>, noLeadingZero: bool) {
    forall i :: 0 <= i < |ids| ==> IsIdentifier(ids[i], noLeadingZero)
  }

  /** The number is also bounded, because the source keeps it in 64 bits. */
  ghost predicate IsVersion(v: Version) {
    && v.major < UINT64_LIMIT && v.minor < UINT64_LIMIT && v.patch < UINT64_LIMIT
    && AreIdentifiers(v.pre, true) && AreIdentifiers(v.build, false)
  }

  /** A number without leading zeros. */
  function Decimal(n: nat): (s: string)
    ensures s != "" && AllDigits(s) && !LeadingZero(s)
    ensures n > 0 ==> s[0] != '0'
  {
    if n < 10 then [('0' as int + n) as char]
    else Decimal(n / 10) + [('0' as int + n % 10) as char]
  }

  function CoreText(v: Version): string {
    Join([Decimal(v.major), Decimal(v.minor), Decimal(v.patch)], '.')
  }

  function ReleaseText(v: Version): string {
    if v.pre == [] then CoreText(v) else CoreText(v) + ['-'] + Join(v.pre, '.')
  }

  function Text(v: Version): string {
    if v.build == [] then ReleaseText(v) else ReleaseText(v) + ['+'] + Join(v.build, '.')
  }

  ghost predicate InGrammar(s: string) {
    exists v :: IsVersion(v) && Text(v) == s
  }

  // ---- The parser --------------------------------------------------------------------------

  function DecimalValue(s: string): nat
    requires AllDigits(s)
  {
    if s == "" then 0 else DecimalValue(s[..|s| - 1]) * 10 + (s[|s| - 1] as int - '0' as int)
  }

  /** strconv.ParseUint with base 10 and 64 bits. */
  function ParseUint(s: string): Option<nat> {
    if s != "" && AllDigits(s) && DecimalValue(s) < UINT64_LIMIT then Some(DecimalValue(s)) else None
  }

  datatype Parsed = Parsed(core: seq<nat>, pre: seq<string>)

  predicate CorePart(part: string) { ParseUint(part).Some? && !LeadingZero(part) }

  function CoreValue(part: string): nat {
    match ParseUint(part) case Some(n) => n case None => 0
  }

  predicate ValidIdentifiers(value: string, noLeadingZero: bool) {
    value != "" && forall id | id in Split(value, '.') :: IsIdentifier(id, noLeadingZero)
  }

  function ParseSemanticVersion(value: string): (p: Option<Parsed>)
    ensures p.Some? ==> |p.value.core| == 3
  {
    if value == "" || HasPrefix(value, "v") then None
    else
      var outer := Cut(value, '+');
      if outer.found && ('+' in outer.after || !ValidIdentifiers(outer.after, false)) then None
      else
        var inner := Cut(outer.before, '-');
        if inner.found && !ValidIdentifiers(inner.after, true) then None
        else
          var parts := Split(inner.before, '.');
          if |parts| != 3 || !(forall part | part in parts :: CorePart(part)) then None
          else
            Some(Parsed([CoreValue(parts[0]), CoreValue(parts[1]), CoreValue(parts[2])],
                        if inner.found then Split(inner.after, '.') else []))
  }

  predicate ValidVersion(s: string) { ParseSemanticVersion(s).Some? }

  /** The loop over the identifiers of a prerelease or build string. */
  method CheckIdentifiers(value: string, noLeadingZero: bool) returns (ok: bool)
    ensures ok == ValidIdentifiers(value, noLeadingZero)
  {
    if value == "" { return false; }
    var ids := Split(value, '.');
    for i := 0 to |ids|
      invariant forall k :: 0 <= k < i ==> IsIdentifier(ids[k], noLeadingZero)
    {
      var id := ids[i];
      if id == "" {
        assert !IsIdentifier(id, noLeadingZero);
        return false;
      }
      var allNumeric := true;
      for j := 0 to |id|
        invariant IdentifierChars(id[..j]) && allNumeric == AllDigits(id[..j])
      {
        var c := id[j];
        assert id[..j + 1] == id[..j] + [c];
        if !IsIdentifierChar(c) {
          assert !IdentifierChars(id);
          assert !IsIdentifier(ids[i], noLeadingZero);
          return false;
        }
        if !IsDigit(c) {
          allNumeric := false;
          assert !AllDigits(id[..j + 1]) by { assert !IsDigit(id[..j + 1][j]); }
        }
      }
      assert id[..|id|] == id;
      if noLeadingZero && allNumeric && |id| > 1 && id[0] == '0' {
        assert !IsIdentifier(id, noLeadingZero);
        return false;
      }
    }
    return true;
  }

  /** numericIdentifier: digits first, then the 64-bit conversion. */
  function NumericIdentifier(s: string): (n: Option<nat>)
    ensures n == ParseUint(s)
  {
    if s == "" then None
    else if exists i :: 0 <= i < |s| && !IsDigit(s[i]) then None
    else ParseUint(s)
  }

  method ParseVersion(value: string) returns (result: Option<Parsed>)
    ensures result == ParseSemanticVersion(value)
  {
    if value == "" || HasPrefix(value, "v") { return None; }
    var outer := Cut(value, '+');
    if outer.found {
      if '+' in outer.after { return None; }
      var ok := CheckIdentifiers(outer.after, false);
      if !ok { return None; }
    }
    var inner := Cut(outer.before, '-');
    if inner.found {
      var ok := CheckIdentifiers(inner.after, true);
      if !ok { return None; }
    }
    var parts := Split(inner.before, '.');
    if |parts| != 3 { return None; }
    var core: seq<nat> := [0, 0, 0];
    for i := 0 to 3
      invariant |core| == 3
      invariant forall k :: 0 <= k < i ==> CorePart(parts[k]) && core[k] == CoreValue(parts[k])
    {
      var n := NumericIdentifier(parts[i]);
      if n.None? || (|parts[i]| > 1 && parts[i][0] == '0') {
        assert !CorePart(parts[i]);
        return None;
      }
      core := core[i := n.value];
    }
    assert core == [CoreValue(parts[0]), CoreValue(parts[1]), CoreValue(parts[2])];
    return Some(Parsed(core, if inner.found then Split(inner.after, '.') else []));
  }

  /** The CLI's separately written check. It tests for a leading zero before converting and
      keeps no result. Its identifier loop has the server's body. */
  method ValidImportVersion(value: string) returns (ok: bool)
    ensures ok <==> InGrammar(value)
  {
    ParserAcceptsGrammar(value);
    if value == "" || HasPrefix(value, "v") { return false; }
    var outer := Cut(value, '+');
    if outer.found {
      if '+' in outer.after { return false; }
      var build := CheckIdentifiers(outer.after, false);
      if !build { return false; }
    }
    var inner := Cut(outer.before, '-');
    if inner.found {
      var pre := CheckIdentifiers(inner.after, true);
      if !pre { return false; }
    }
    var parts := Split(inner.before, '.');
    if |parts| != 3 { return false; }
    for i := 0 to |parts|
      invariant forall k :: 0 <= k < i ==> CorePart(parts[k])
    {
      var part := parts[i];
      if part == "" || (|part| > 1 && part[0] == '0') {
        assert !CorePart(part);
        return false;
      }
      if ParseUint(part).None? {
        assert !CorePart(part);
        return false;
      }
    }
    return true;
  }

  // ---- The parser and the grammar agree ----------------------------------------------------

  lemma {:induction false} DecimalValueOfDecimal(n: nat)
    ensures DecimalValue(Decimal(n)) == n
  {
    var s := Decimal(n);
    if n < 10 {
      assert s[..|s| - 1] == "";
    } else {
      DecimalValueOfDecimal(n / 10);
      assert s[..|s| - 1] == Decimal(n / 10);
    }
  }

  lemma {:induction false} DigitsNotZero(s: string)
    requires s != "" && AllDigits(s) && s[0] != '0'
    ensures DecimalValue(s) > 0
  {
    if |s| > 1 {
      DigitsNotZero(s[..|s| - 1]);
    } else {
      assert s[..0] == "";
    }
  }

  /** Without leading zeros a number is written in one way. */
  lemma {:induction false} DecimalOfDecimalValue(s: string)
    requires s != "" && AllDigits(s) && !LeadingZero(s)
    ensures Decimal(DecimalValue(s)) == s
  {
    var last := s[|s| - 1] as int - '0' as int;
    var front := s[..|s| - 1];
    if |s| == 1 {
      assert front == "" && DecimalValue(s) == last;
      assert Decimal(last) == s;
    } else {
      DigitsNotZero(front);
      DecimalOfDecimalValue(front);
      assert DecimalValue(s) / 10 == DecimalValue(front) && DecimalValue(s) % 10 == last;
      assert s == front + [s[|s| - 1]];
    }
  }

  lemma JoinOfIdentifiers(ids: seq<string>, noLeadingZero: bool)
    requires ids != [] && AreIdentifiers(ids, noLeadingZero)
    ensures Split(Join(ids, '.'), '.') == ids
    ensures Join(ids, '.') != "" && ValidIdentifiers(Join(ids, '.'), noLeadingZero)
    ensures '+' !in Join(ids, '.') && '_' !in Join(ids, '.') && '/' !in Join(ids, '.')
  {
    forall i | 0 <= i < |ids| ensures '.' !in ids[i] && '+' !in ids[i] && '_' !in ids[i] && '/' !in ids[i] {
      assert IsIdentifier(ids[i], noLeadingZero);
    }
    SplitJoin(ids, '.');
    JoinChars(ids, '.', '+');
    JoinChars(ids, '.', '_');
    JoinChars(ids, '.', '/');
    assert Split("", '.') == [""];
    assert IsIdentifier(ids[0], noLeadingZero);
  }

  lemma DigitsLack(parts: seq<string>, c: char)
    requires !IsDigit(c) && forall i :: 0 <= i < |parts| ==> AllDigits(parts[i])
    ensures NoneContains(parts, c)
  {
  }

  lemma CoreTextParts(v: Version)
    ensures Split(CoreText(v), '.') == [Decimal(v.major), Decimal(v.minor), Decimal(v.patch)]
    ensures '+' !in CoreText(v) && '-' !in CoreText(v) && '_' !in CoreText(v) && '/' !in CoreText(v)
    ensures CoreText(v) != "" && IsDigit(CoreText(v)[0])
  {
    hide Decimal, Join, Split;
    var parts := [Decimal(v.major), Decimal(v.minor), Decimal(v.patch)];
    DigitsLack(parts, '.');
    DigitsLack(parts, '+');
    DigitsLack(parts, '-');
    DigitsLack(parts, '_');
    DigitsLack(parts, '/');
    SplitJoin(parts, '.');
    JoinLacks(parts, '.', '+');
    JoinLacks(parts, '.', '-');
    JoinLacks(parts, '.', '_');
    JoinLacks(parts, '.', '/');
    assert parts == [parts[0]] + parts[1..];
    JoinHead(parts[0], parts[1..], '.');
  }

  lemma TextCuts(v: Version)
    requires IsVersion(v)
    ensures Cut(Text(v), '+') == Pieces(ReleaseText(v), Join(v.build, '.'), v.build != [])
    ensures Cut(ReleaseText(v), '-') == Pieces(CoreText(v), Join(v.pre, '.'), v.pre != [])
  {
    CoreTextParts(v);
    if v.pre != [] {
      JoinOfIdentifiers(v.pre, true);
      CutAt(CoreText(v), '-', Join(v.pre, '.'));
    } else {
      CutNowhere(CoreText(v), '-');
    }
    assert '+' !in ReleaseText(v);
    if v.build != [] {
      JoinOfIdentifiers(v.build, false);
      CutAt(ReleaseText(v), '+', Join(v.build, '.'));
    } else {
      CutNowhere(ReleaseText(v), '+');
    }
  }

  lemma DecimalIsCorePart(n: nat)
    requires n < UINT64_LIMIT
    ensures CorePart(Decimal(n)) && CoreValue(Decimal(n)) == n
  {
    DecimalValueOfDecimal(n);
  }

  lemma ParsePieces(s: string, v: Version)
    requires IsVersion(v) && s != "" && s[0] != 'v'
    requires Cut(s, '+') == Pieces(ReleaseText(v), Join(v.build, '.'), v.build != [])
    requires Cut(ReleaseText(v), '-') == Pieces(CoreText(v), Join(v.pre, '.'), v.pre != [])
    requires Split(CoreText(v), '.') == [Decimal(v.major), Decimal(v.minor), Decimal(v.patch)]
    ensures ParseSemanticVersion(s) == Some(Parsed([v.major, v.minor, v.patch], v.pre))
  {
    hide Decimal, Cut, Split, Join, IsIdentifier, CorePart, CoreValue, ReleaseText, CoreText;
    DecimalIsCorePart(v.major);
    DecimalIsCorePart(v.minor);
    DecimalIsCorePart(v.patch);
    if v.pre != [] { JoinOfIdentifiers(v.pre, true); }
    if v.build != [] { JoinOfIdentifiers(v.build, false); }
    assert Split(CoreText(v), '.')[0] == Decimal(v.major) && Split(CoreText(v), '.')[1] == Decimal(v.minor)
        && Split(CoreText(v), '.')[2] == Decimal(v.patch);
  }

  lemma TextStart(v: Version)
    ensures Text(v) != "" && IsDigit(Text(v)[0]) && CoreText(v) <= Text(v)
  {
    CoreTextParts(v);
  }

  /** Round trip: parsing the text of a version gives back its numbers and prerelease. */
  lemma ParseText(v: Version)
    requires IsVersion(v)
    ensures ParseSemanticVersion(Text(v)) == Some(Parsed([v.major, v.minor, v.patch], v.pre))
  {
    TextCuts(v);
    CoreTextParts(v);
    TextStart(v);
    ParsePieces(Text(v), v);
  }

  /** What the parser read, with the build identifiers it checks but drops. */
  function Reading(s: string): Version
    requires ValidVersion(s)
  {
    var p := ParseSemanticVersion(s).value;
    var outer := Cut(s, '+');
    Version(p.core[0], p.core[1], p.core[2], p.pre, if outer.found then Split(outer.after, '.') else [])
  }

  lemma ReadingPieces(s: string)
    requires ValidVersion(s)
    ensures var v, outer := Reading(s), Cut(s, '+');
            var inner := Cut(outer.before, '-');
            var parts := Split(inner.before, '.');
            && |parts| == 3 && CorePart(parts[0]) && CorePart(parts[1]) && CorePart(parts[2])
            && v.major == CoreValue(parts[0]) && v.minor == CoreValue(parts[1]) && v.patch == CoreValue(parts[2])
            && v.pre == (if inner.found then Split(inner.after, '.') else [])
            && v.build == (if outer.found then Split(outer.after, '.') else [])
            && AreIdentifiers(v.pre, true) && AreIdentifiers(v.build, false)
    ensures ParseSemanticVersion(s) == Some(Parsed([Reading(s).major, Reading(s).minor, Reading(s).patch],
                                                   Reading(s).pre))
  {
    hide Cut, Split, IsIdentifier, CorePart, CoreValue;
    var v, p := Reading(s), ParseSemanticVersion(s).value;
    assert forall i :: 0 <= i < |v.pre| ==> v.pre[i] in v.pre;
    assert forall i :: 0 <= i < |v.build| ==> v.build[i] in v.build;
    assert p.core == [p.core[0], p.core[1], p.core[2]];
  }

  /** The other round trip: an accepted text is the text of what was read from it. */
  lemma TextOfReading(s: string)
    requires ValidVersion(s)
    ensures IsVersion(Reading(s)) && Text(Reading(s)) == s
  {
    hide ParseSemanticVersion, Reading, Cut, Split, Decimal, DecimalValue;
    var v := Reading(s);
    ReadingPieces(s);
    var outer := Cut(s, '+');
    var inner := Cut(outer.before, '-');
    var parts := Split(inner.before, '.');
    CutParts(s, '+');
    CutParts(outer.before, '-');
    JoinSplit(inner.before, '.');
    JoinSplit(inner.after, '.');
    JoinSplit(outer.after, '.');
    DecimalOfDecimalValue(parts[0]);
    DecimalOfDecimalValue(parts[1]);
    DecimalOfDecimalValue(parts[2]);
    assert parts == [Decimal(v.major), Decimal(v.minor), Decimal(v.patch)];
    assert CoreText(v) == inner.before;
    assert ReleaseText(v) == outer.before;
  }

  /** The server accepts exactly the grammar. */
  lemma ParserAcceptsGrammar(s: string)
    ensures ValidVersion(s) <==> InGrammar(s)
  {
    if ValidVersion(s) {
      TextOfReading(s);
    }
    if InGrammar(s) {
      var v :| IsVersion(v) && Text(v) == s;
      ParseText(v);
    }
  }

  /** The grammar is unambiguous. */
  lemma TextInjective(a: Version, b: Version)
    requires IsVersion(a) && IsVersion(b) && Text(a) == Text(b)
    ensures a == b
  {
    ParseText(a);
    ParseText(b);
    TextCuts(a);
    TextCuts(b);
    if a.build != [] { JoinOfIdentifiers(a.build, false); }
    if b.build != [] { JoinOfIdentifiers(b.build, false); }
  }

  /** Facts the file-name grammars need about every accepted version. */
  lemma VersionAlphabet(s: string)
    requires ValidVersion(s)
    ensures s != "" && IsDigit(s[0]) && '.' in s && '_' !in s && '/' !in s
    ensures forall i :: 0 <= i < |s| ==> IsIdentifierChar(s[i]) || s[i] == '.' || s[i] == '+'
  {
    var v := Reading(s);
    TextOfReading(s);
    TextStart(v);
    assert s[|Decimal(v.major)|] == '.' by {
      assert CoreText(v)[|Decimal(v.major)|] == '.';
    }
    forall i | 0 <= i < |s| ensures IsIdentifierChar(s[i]) || s[i] == '.' || s[i] == '+' {
      CharOfVersion(v, s[i]);
    }
  }

  lemma CharOfVersion(v: Version, c: char)
    requires IsVersion(v) && c in Text(v)
    ensures IsIdentifierChar(c) || c == '.' || c == '+'
  {
    if c != '.' && c != '+' && c != '-' {
      var core := [Decimal(v.major), Decimal(v.minor), Decimal(v.patch)];
      JoinChars(core, '.', c);
      JoinChars(v.pre, '.', c);
      JoinChars(v.build, '.', c);
      assert c in CoreText(v) || c in Join(v.pre, '.') || c in Join(v.build, '.');
      assert forall i :: 0 <= i < |core| ==> AllDigits(core[i]);
      assert forall i :: 0 <= i < |v.pre| ==> IsIdentifier(v.pre[i], true);
      assert forall i :: 0 <= i < |v.build| ==> IsIdentifier(v.build[i], false);
    }
  }
}
