/** The part of Masterminds semver/v3 that the repository relies on:
    `NewVersion` (the lenient parser), `Version.String` (canonical rendering)
    and `Version.Compare`/`GreaterThan` (precedence, item 11 of Semantic
    Versioning 2.0.0). */
module SemVer {
  import opened Wrappers
  import opened Strings

  /** A parsed version. `pre` is the pre-release tag and `build` the build
      metadata, both without their leading '-' / '+'; "" means absent. */
  datatype Version = Version(major: nat, minor: nat, patch: nat, pre: string, build: string)

  predicate IsDigit(c: char) { '0' <= c <= '9' }

  /** A non-empty run of decimal digits. */
  predicate IsNumeric(s: string)
  {
    |s| > 0 && forall i :: 0 <= i < |s| ==> IsDigit(s[i])
  }

  function ParseNat(s: string): nat
    requires forall i :: 0 <= i < |s| ==> IsDigit(s[i])
  {
    if |s| == 0 then 0 else 10 * ParseNat(s[..|s| - 1]) + DigitValue(s[|s| - 1])
  }

  function DigitValue(c: char): nat
    requires IsDigit(c)
  {
    c as int - '0' as int
  }

  function DigitChar(d: nat): (c: char)
    requires d < 10
    ensures IsDigit(c) && DigitValue(c) == d
  {
    ('0' as int + d) as char
  }

  /** Decimal rendering (Go's `%d`); parsing it back gives the number. */
  function NatToString(n: nat): (s: string)
    ensures IsNumeric(s)
    ensures ParseNat(s) == n
  {
    if n < 10 then
      var s := [DigitChar(n)];
      assert s[..0] == [];
      s
    else
      var prefix := NatToString(n / 10);
      var s := prefix + [DigitChar(n % 10)];
      assert s[..|s| - 1] == prefix;
      s
  }

  predicate IsIdentChar(c: char)
  {
    IsDigit(c) || ('a' <= c <= 'z') || ('A' <= c <= 'Z') || c == '-'
  }

  /** A dot-separated list of non-empty identifiers over [0-9A-Za-z-], the
      shape the parser accepts for a pre-release tag or build metadata. */
  predicate ValidIdentifiers(s: string)
  {
    (forall i :: 0 <= i < |s| ==> IsIdentChar(s[i]) || s[i] == '.') &&
    (forall p :: p in Split(s, '.') ==> p != "")
  }

  /** What the parser can produce. */
  predicate WellFormed(v: Version)
  {
    (v.pre == "" || ValidIdentifiers(v.pre)) && (v.build == "" || ValidIdentifiers(v.build))
  }

  /** `semver.NewVersion`: an optional leading 'v', one to three numeric
      components (missing ones are 0), an optional "-pre" and an optional
      "+build"; anything else is an error (None). */
  function Parse(s: string): Option<Version>
  {
    var body := TrimPrefix(s, "v");
    var (core, build) := CutFirst(body, '+');
    var (nums, pre) := CutFirst(core, '-');
    var parts := Split(nums, '.');
    if ('+' in body && !ValidIdentifiers(build))
      || ('-' in core && !ValidIdentifiers(pre))
      || |parts| > 3
      || !(forall i :: 0 <= i < |parts| ==> IsNumeric(parts[i]))
    then None
    else
      Some(Version(ParseNat(parts[0]),
                   if |parts| > 1 then ParseNat(parts[1]) else 0,
                   if |parts| > 2 then ParseNat(parts[2]) else 0,
                   pre, build))
  }

  /** The parser produces only well-formed versions. */
  lemma ParseWellFormed(s: string)
    requires Parse(s).Some?
    ensures WellFormed(Parse(s).value)
  {
    var body := TrimPrefix(s, "v");
    CutFirstSplits(body, '+');
    CutFirstSplits(CutFirst(body, '+').0, '-');
  }

  /** `Version.String`: "major.minor.patch[-pre][+build]". */
  function Render(v: Version): string
  {
    Triple(v) + PreSuffix(v) + BuildSuffix(v)
  }

  /** The three numeric components joined by dots. */
  function Triple(v: Version): string
  {
    NatToString(v.major) + "." + NatToString(v.minor) + "." + NatToString(v.patch)
  }

  function PreSuffix(v: Version): string
  {
    if v.pre == "" then "" else "-" + v.pre
  }

  function BuildSuffix(v: Version): string
  {
    if v.build == "" then "" else "+" + v.build
  }

  lemma TripleSplits(v: Version)
    ensures Split(Triple(v), '.') == [NatToString(v.major), NatToString(v.minor), NatToString(v.patch)]
    ensures '+' !in Triple(v) && '-' !in Triple(v) && |Triple(v)| > 0 && IsDigit(Triple(v)[0])
  {
    var a, b, c := NatToString(v.major), NatToString(v.minor), NatToString(v.patch);
    assert '.' !in a && '.' !in b && '.' !in c by {
      assert forall x :: IsNumeric(x) ==> '.' !in x;
    }
    SplitNoSeparator(c, '.');
    SplitCons(b, '.', c);
    assert a + "." + b + "." + c == a + ['.'] + (b + ['.'] + c);
    SplitCons(a, '.', b + ['.'] + c);
    assert forall x :: IsNumeric(x) ==> '+' !in x && '-' !in x;
    assert Triple(v) == a + ['.'] + b + ['.'] + c;
  }

  /** Cutting the rendering at '+' and then at '-' recovers its three parts. */
  lemma RenderCuts(v: Version)
    requires WellFormed(v)
    ensures CutFirst(Render(v), '+') == (Triple(v) + PreSuffix(v), v.build)
    ensures ('+' in Render(v)) == (v.build != "")
    ensures CutFirst(Triple(v) + PreSuffix(v), '-') == (Triple(v), v.pre)
    ensures ('-' in Triple(v) + PreSuffix(v)) == (v.pre != "")
  {
    var t, p := Triple(v), PreSuffix(v);
    TripleSplits(v);
    assert '+' !in t + p by {
      assert forall i :: 0 <= i < |v.pre| ==> v.pre[i] != '+';
    }
    if v.build == "" {
      assert Render(v) == t + p;
      CutFirstSplits(t + p, '+');
    } else {
      assert Render(v) == (t + p) + ['+'] + v.build;
      CutFirstOf(t + p, '+', v.build);
    }
    if v.pre != "" {
      assert t + p == t + ['-'] + v.pre;
      CutFirstOf(t, '-', v.pre);
    } else {
      assert t + p == t;
      CutFirstSplits(t, '-');
    }
  }

  /** Rendering is a right inverse of parsing: every version the parser can
      produce is parsed back from its canonical string. */
  lemma ParseRender(v: Version)
    requires WellFormed(v)
    ensures Parse(Render(v)) == Some(v)
  {
    TripleSplits(v);
    RenderCuts(v);
    assert !HasPrefix(Render(v), "v") by { assert Render(v)[0] == Triple(v)[0]; }
  }

  /** Parsing canonicalises: the rendering of a parsed string parses to the
      same version, so `Render(Parse(s))` is a fixed point. */
  lemma ParseIsCanonical(s: string)
    requires Parse(s).Some?
    ensures Parse(Render(Parse(s).value)) == Parse(s)
  {
    ParseWellFormed(s);
    ParseRender(Parse(s).value);
  }

  // ---- Precedence ----

  function CompareNat(a: nat, b: nat): int
  {
    if a > b then 1 else if a < b then -1 else 0
  }

  /** Go's byte-wise string comparison `s > o`. */
  predicate StrGreater(s: string, o: string)
  {
    if |s| == 0 then false
    else if |o| == 0 then true
    else if s[0] != o[0] then s[0] > o[0]
    else StrGreater(s[1..], o[1..])
  }

  /** `comparePrePart`: equal parts are 0; an absent part sorts first; numbers
      sort before alphanumerics and compare numerically; alphanumerics compare
      byte-wise. */
  function ComparePrePart(s: string, o: string): (c: int)
    ensures -1 <= c <= 1
    ensures c == 0 <==> s == o
  {
    if s == o then 0
    else if s == "" then -1
    else if o == "" then 1
    else if !IsNumeric(o) && !IsNumeric(s) then (if StrGreater(s, o) then 1 else -1)
    else if !IsNumeric(o) then -1
    else if !IsNumeric(s) then 1
    else if ParseNat(s) > ParseNat(o) then 1 else -1
  }

  /** `comparePrerelease`: part by part, the shorter list padded with "". */
  function ComparePreParts(sp: seq<string>, op: seq<string>): (c: int)
    ensures -1 <= c <= 1
    decreases |sp| + |op|
  {
    if |sp| == 0 && |op| == 0 then 0
    else
      var s := if |sp| > 0 then sp[0] else "";
      var o := if |op| > 0 then op[0] else "";
      var d := ComparePrePart(s, o);
      if d != 0 then d
      else ComparePreParts(if |sp| > 0 then sp[1..] else [], if |op| > 0 then op[1..] else [])
  }

  /** `Version.Compare`: -1, 0 or 1; build metadata is ignored, and a
      version without pre-release tag sorts after one with. */
  function Compare(v: Version, o: Version): (c: int)
    ensures -1 <= c <= 1
  {
    var d := CompareNat(v.major, o.major);
    if d != 0 then d
    else
      var d := CompareNat(v.minor, o.minor);
      if d != 0 then d
      else
        var d := CompareNat(v.patch, o.patch);
        if d != 0 then d
        else if v.pre == "" && o.pre == "" then 0
        else if v.pre == "" then 1
        else if o.pre == "" then -1
        else ComparePreParts(Split(v.pre, '.'), Split(o.pre, '.'))
  }

  predicate GreaterThan(v: Version, o: Version)
  {
    Compare(v, o) > 0
  }

  /** Lexicographic order on (major, minor, patch). */
  predicate TripleGreater(v: Version, o: Version)
  {
    v.major > o.major
    || (v.major == o.major && v.minor > o.minor)
    || (v.major == o.major && v.minor == o.minor && v.patch > o.patch)
  }

  /** Without pre-release tags, precedence is lexicographic order on the
      numeric triple; build metadata plays no part. */
  lemma GreaterThanReleases(v: Version, o: Version)
    requires v.pre == "" && o.pre == ""
    ensures GreaterThan(v, o) <==> TripleGreater(v, o)
  {
  }

  /** A release is greater than every pre-release of the same triple. */
  lemma ReleaseAbovePreRelease(v: Version, o: Version)
    requires v.pre == "" && o.pre != ""
    requires v.major == o.major && v.minor == o.minor && v.patch == o.patch
    ensures GreaterThan(v, o) && !GreaterThan(o, v)
  {
  }

  /** No version is greater than itself. */
  lemma GreaterThanIrreflexive(v: Version)
    ensures !GreaterThan(v, v)
  {
    ComparePrePartsSame(Split(v.pre, '.'));
  }

  lemma {:induction false} ComparePrePartsSame(sp: seq<string>)
    ensures ComparePreParts(sp, sp) == 0
    decreases |sp|
  {
    if |sp| > 0 {
      ComparePrePartsSame(sp[1..]);
    }
  }
}
