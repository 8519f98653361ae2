/** The texts the registry accepts, with every alphabet and limit spelled out: versions part by part,
    names, and digests. */
module Alphabets {
  import opened Options
  import opened Strings
  import opened SemVer
  import opened Names

  const DIGITS := "0123456789"
  const CAPITALS := "ABCDEFGHIJKLMNOPQRSTUVWXYZ"
  const SMALL := "abcdefghijklmnopqrstuvwxyz"

  /** Sections 9 and 10: ASCII alphanumerics and hyphen. */
  const IDENTIFIER := DIGITS + CAPITALS + SMALL + "-"

  predicate Over(s: string, alphabet: string) { forall i :: 0 <= i < |s| ==> s[i] in alphabet }

  lemma DigitIs(c: char)
    ensures IsDigit(c) <==> c in DIGITS
  {
    if IsDigit(c) { assert DIGITS[c as int - '0' as int] == c; }
  }

  lemma CapitalIs(c: char)
    ensures 'A' <= c <= 'Z' <==> c in CAPITALS
  {
    if 'A' <= c <= 'M' { assert CAPITALS[c as int - 'A' as int] == c; }
    if 'N' <= c <= 'Z' { assert CAPITALS[c as int - 'A' as int] == c; }
  }

  lemma SmallIs(c: char)
    ensures 'a' <= c <= 'z' <==> c in SMALL
  {
    if 'a' <= c <= 'm' { assert SMALL[c as int - 'a' as int] == c; }
    if 'n' <= c <= 'z' { assert SMALL[c as int - 'a' as int] == c; }
  }

  lemma IdentifierCharIs(c: char)
    ensures IsIdentifierChar(c) <==> c in IDENTIFIER
  {
    hide DIGITS, CAPITALS, SMALL;
    DigitIs(c);
    CapitalIs(c);
    SmallIs(c);
  }

  lemma DigitsAre(s: string)
    ensures AllDigits(s) <==> Over(s, DIGITS)
  {
    hide DIGITS, IsDigit;
    forall i | 0 <= i < |s| ensures IsDigit(s[i]) <==> s[i] in DIGITS { DigitIs(s[i]); }
  }

  // ---- Versions, part by part ----------------------------------------------------------------

  /** A build identifier, in the words of section 10. */
  predicate BuildIdentifier(id: string) { id != "" && Over(id, IDENTIFIER) }

  /** A prerelease identifier, in the words of section 9. */
  predicate PrereleaseIdentifier(id: string) {
    id != "" && Over(id, IDENTIFIER) && !(|id| > 1 && id[0] == '0' && Over(id, DIGITS))
  }

  /** A number, in the words of section 2, that fits in 64 bits. */
  predicate CoreNumber(part: string) {
    && part != "" && Over(part, DIGITS) && !(|part| > 1 && part[0] == '0')
    && (Over(part, DIGITS) && AllDigits(part) ==> DecimalValue(part) <= 18446744073709551615)
  }

  lemma IdentifiersAre(id: string)
    ensures IsIdentifier(id, false) <==> BuildIdentifier(id)
    ensures IsIdentifier(id, true) <==> PrereleaseIdentifier(id)
  {
    hide DIGITS, IDENTIFIER, IsDigit, IsIdentifierChar;
    DigitsAre(id);
    forall i | 0 <= i < |id| ensures IsIdentifierChar(id[i]) <==> id[i] in IDENTIFIER { IdentifierCharIs(id[i]); }
  }

  lemma CorePartIs(part: string)
    ensures CorePart(part) <==> CoreNumber(part)
  {
    hide DIGITS, IsDigit;
    DigitsAre(part);
  }

  lemma NoPlusIn(id: string)
    requires BuildIdentifier(id)
    ensures '+' !in id
  {
    hide IDENTIFIER;
    IdentifierCharIs('+');
  }

  lemma NoPlus(s: string)
    requires forall id :: id in Split(s, '.') ==> BuildIdentifier(id)
    ensures '+' !in s
  {
    hide Split, BuildIdentifier;
    var ids := Split(s, '.');
    JoinSplit(s, '.');
    forall i | 0 <= i < |ids| ensures '+' !in ids[i] { NoPlusIn(ids[i]); }
    JoinChars(ids, '.', '+');
  }

  lemma StartsWithV(s: string)
    ensures HasPrefix(s, "v") <==> s != "" && s[0] == 'v'
  {
  }

  /** Text after a first plus sign: exactly the dot-separated build identifiers are accepted. */
  lemma BuildExactly(release: string, build: string)
    requires '+' !in release
    ensures ValidVersion(release + "+" + build) <==>
            ValidVersion(release) && forall id :: id in Split(build, '.') ==> BuildIdentifier(id)
  {
    hide Split, Cut, IsIdentifier, BuildIdentifier, CorePart, CoreValue;
    var s := release + "+" + build;
    assert s == release + ['+'] + build;
    CutAt(release, '+', build);
    CutNowhere(release, '+');
    StartsWithV(s);
    StartsWithV(release);
    forall id ensures IsIdentifier(id, false) <==> BuildIdentifier(id) { IdentifiersAre(id); }
    SplitNowhere("", '.');
    IdentifiersAre("");
    EmptyIsNone(build);
    if forall id :: id in Split(build, '.') ==> BuildIdentifier(id) { NoPlus(build); }
    CutNowhere("", '-');
  }

  lemma EmptyIsNone(s: string)
    ensures (s == "" ==> Split(s, '.') == [""]) && !BuildIdentifier("") && !PrereleaseIdentifier("") && !CorePart("")
  {
    SplitNowhere("", '.');
  }

  /** Text after a first hyphen: exactly the dot-separated prerelease identifiers are accepted. */
  lemma PrereleaseExactly(core: string, pre: string)
    requires '+' !in core && '-' !in core && '+' !in pre
    ensures ValidVersion(core + "-" + pre) <==>
            ValidVersion(core) && forall id :: id in Split(pre, '.') ==> PrereleaseIdentifier(id)
  {
    hide Split, Cut, IsIdentifier, PrereleaseIdentifier, CorePart, CoreValue;
    var s := core + "-" + pre;
    assert s == core + ['-'] + pre;
    CutAt(core, '-', pre);
    CutNowhere(core, '-');
    CutNowhere(core, '+');
    CutNowhere(s, '+');
    StartsWithV(s);
    StartsWithV(core);
    forall id ensures IsIdentifier(id, true) <==> PrereleaseIdentifier(id) { IdentifiersAre(id); }
    EmptyIsNone(pre);
    SplitNowhere("", '.');
  }

  /** Three dot-separated texts: exactly numbers without leading zeros, each below 2^64, are accepted. */
  lemma CoreExactly(major: string, minor: string, patch: string)
    requires forall c :: c in major || c in minor || c in patch ==> c != '.' && c != '+' && c != '-'
    ensures ValidVersion(major + "." + minor + "." + patch) <==>
            CoreNumber(major) && CoreNumber(minor) && CoreNumber(patch)
  {
    hide Split, Cut, CorePart, CoreValue, CoreNumber;
    var s := major + "." + minor + "." + patch;
    assert s == major + ['.'] + (minor + ['.'] + patch);
    SplitAt(major, '.', minor + ['.'] + patch);
    SplitAt(minor, '.', patch);
    SplitNowhere(patch, '.');
    assert Split(s, '.') == [major, minor, patch];
    CutNowhere(s, '+');
    CutNowhere(s, '-');
    CorePartIs(major);
    CorePartIs(minor);
    CorePartIs(patch);
    StartsWithV(s);
    if HasPrefix(s, "v") { NoNumber(major); }
  }

  lemma NoNumber(part: string)
    requires part == "" || part[0] == 'v'
    ensures !CoreNumber(part)
  {
  }

  /** The single characters: exactly the 63 of section 9, as prerelease and as build identifier. */
  lemma OneCharacter(c: char)
    ensures ValidVersion("1.0.0-" + [c]) <==> c in IDENTIFIER
    ensures ValidVersion("1.0.0+" + [c]) <==> c in IDENTIFIER
  {
    hide ValidVersion, IDENTIFIER, CoreNumber;
    SimpleCore();
    IdentifierCharIs('.');
    IdentifierCharIs('+');
    assert "1.0.0-" + [c] == "1.0.0" + "-" + [c] && "1.0.0+" + [c] == "1.0.0" + "+" + [c];
    BuildExactly("1.0.0", [c]);
    if c == '.' {
      SplitAt("", '.', "");
      SplitNowhere("", '.');
      assert "" + ['.'] + "" == [c];
      assert "" in Split([c], '.');
    } else {
      SplitNowhere([c], '.');
      assert [c] in Split([c], '.');
    }
    if c == '+' {
      BuildExactly("1.0.0-", "");
      assert "1.0.0-" + "+" + "" == "1.0.0-" + [c];
      SplitNowhere("", '.');
      assert "" in Split("", '.');
    } else {
      PrereleaseExactly("1.0.0", [c]);
    }
  }

  lemma SimpleCore()
    ensures ValidVersion("1.0.0")
  {
    hide ValidVersion;
    assert DecimalValue("1") == 1 by { assert "1"[..0] == ""; }
    assert DecimalValue("0") == 0 by { assert "0"[..0] == ""; }
    assert "1"[0] == DIGITS[1] && "0"[0] == DIGITS[0];
    CoreExactly("1", "0", "0");
    assert "1" + "." + "0" + "." + "0" == "1.0.0";
  }

  /** Core numbers are accepted up to 2^64 - 1 and no further. */
  lemma LargestNumber(n: nat)
    ensures ValidVersion(Decimal(n) + ".0.0") <==> n <= 18446744073709551615
  {
    hide ValidVersion, Decimal, DIGITS, DecimalValue;
    var s := Decimal(n);
    DecimalValueOfDecimal(n);
    DigitsAre(s);
    Zero();
    assert s + "." + "0" + "." + "0" == s + ".0.0";
    CoreExactly(s, "0", "0");
  }

  lemma Zero()
    ensures CoreNumber("0")
  {
    assert DecimalValue("0") == 0 by { assert "0"[..0] == ""; }
    assert "0"[0] == DIGITS[0];
  }

  // ---- Names and digests ---------------------------------------------------------------------

  /** Route variables: a letter or digit, then up to 63 letters, digits, hyphens or underscores. */
  lemma NameExactly(s: string)
    ensures ValidArtifactName(s) <==> 1 <= |s| <= 64 && s[0] in DIGITS + CAPITALS + SMALL && Over(s, IDENTIFIER + "_")
  {
    hide DIGITS, CAPITALS, SMALL;
    forall i | 0 <= i < |s|
      ensures IsNameChar(s[i]) <==> s[i] in IDENTIFIER + "_"
      ensures IsNameChar(s[i]) && s[i] != '_' && s[i] != '-' <==> s[i] in DIGITS + CAPITALS + SMALL
    {
      NameCharIs(s[i]);
    }
  }

  lemma NameCharIs(c: char)
    ensures IsNameChar(c) <==> c in IDENTIFIER + "_"
    ensures IsNameChar(c) && c != '_' && c != '-' <==> c in DIGITS + CAPITALS + SMALL
  {
    hide DIGITS, CAPITALS, SMALL;
    DigitIs(c);
    CapitalIs(c);
    SmallIs(c);
  }

  /** Digests: 64 lower-case hexadecimal digits. */
  lemma DigestExactly(s: string)
    ensures IsShasum(s) <==> |s| == 64 && Over(s, "0123456789abcdef")
  {
    forall i | 0 <= i < |s| ensures IsHexDigit(s[i]) <==> s[i] in "0123456789abcdef" { HexDigitIs(s[i]); }
  }

  lemma HexDigitIs(c: char)
    ensures IsHexDigit(c) <==> c in "0123456789abcdef"
  {
    var all := "0123456789abcdef";
    if IsDigit(c) { assert all[c as int - '0' as int] == c; }
    if 'a' <= c <= 'f' { assert all[c as int - 'a' as int + 10] == c; }
  }
}
