/** Version selection of pkg/pkg/wrapper.go (duplicated in main.go): which
    upstream chart versions to fetch, given the versions already stored in
    the repository's index, the fetch mode and the tracked major.minor
    streams. Upstream lists arrive newest first. */
module Selection {
  import opened Wrappers
  import opened Strings
  import opened SemVer
  import opened Helm

  /** The semver parser, `semver.NewVersion`: partial, so it may fail. The
      package wrapper passes SemVer.Parse. */
  type Parser = string -> Option<Version>

  predicate Parses(parse: Parser, cv: ChartVersion)
  {
    parse(cv.version).Some?
  }

  function SemVerOf(parse: Parser, cv: ChartVersion): Version
    requires Parses(parse, cv)
  {
    parse(cv.version).value
  }

  predicate AllParse(parse: Parser, vs: seq<ChartVersion>)
  {
    forall x :: x in vs ==> Parses(parse, x)
  }

  /** `a` is `b` with some elements left out, order kept. */
  predicate IsSubsequence<T(==)>(a: seq<T>, b: seq<T>)
    decreases |b|
  {
    |a| == 0 || (|b| > 0 && ((a[0] == b[0] && IsSubsequence(a[1..], b[1..])) || IsSubsequence(a, b[1..])))
  }

  lemma {:induction false} SubsequenceOfSuffix<T>(a: seq<T>, b: seq<T>, i: nat)
    requires i <= |b| && IsSubsequence(a, b[i..])
    ensures IsSubsequence(a, b)
    decreases i
  {
    if i > 0 {
      assert b[i - 1..][1..] == b[i..];
      SubsequenceOfSuffix(a, b, i - 1);
    }
  }

  lemma {:induction false} SubsequenceMembers<T>(a: seq<T>, b: seq<T>)
    requires IsSubsequence(a, b)
    ensures forall x :: x in a ==> x in b
    decreases |b|
  {
    if |a| > 0 {
      if a[0] == b[0] && IsSubsequence(a[1..], b[1..]) {
        SubsequenceMembers(a[1..], b[1..]);
        assert forall x :: x in a ==> x == a[0] || x in a[1..];
      } else {
        SubsequenceMembers(a, b[1..]);
      }
    }
  }

  // ---- stripPreRelease ----

  /** A version that parses and has no pre-release tag (item 9 of Semantic
      Versioning 2.0.0). */
  predicate IsRelease(parse: Parser, cv: ChartVersion)
  {
    Parses(parse, cv) && SemVerOf(parse, cv).pre == ""
  }

  /** The releases of `vs`, in order. */
  function Releases(parse: Parser, vs: seq<ChartVersion>): seq<ChartVersion>
  {
    if |vs| == 0 then []
    else if IsRelease(parse, vs[0]) then [vs[0]] + Releases(parse, vs[1..])
    else Releases(parse, vs[1..])
  }

  /** Exactly the releases survive, in input order. */
  lemma {:induction false} ReleasesExactly(parse: Parser, vs: seq<ChartVersion>)
    ensures forall x :: x in Releases(parse, vs) <==> x in vs && IsRelease(parse, x)
    ensures IsSubsequence(Releases(parse, vs), vs)
    ensures AllParse(parse, Releases(parse, vs))
  {
    if |vs| > 0 {
      ReleasesExactly(parse, vs[1..]);
      assert forall x :: x in vs <==> x == vs[0] || x in vs[1..];
      if !IsRelease(parse, vs[0]) {
        SubsequenceOfSuffix(Releases(parse, vs), vs, 1);
      }
    }
  }

  lemma ReleasesParse(parse: Parser, vs: seq<ChartVersion>)
    ensures AllParse(parse, Releases(parse, vs))
  {
    ReleasesExactly(parse, vs);
  }

  lemma ReleasesStep(parse: Parser, vs: seq<ChartVersion>, i: nat)
    requires i < |vs|
    ensures Releases(parse, vs[i..]) == (if IsRelease(parse, vs[i]) then [vs[i]] else []) + Releases(parse, vs[i + 1..])
  {
    assert vs[i..][1..] == vs[i + 1..];
  }

  /** `stripPreRelease`: drops versions that fail to parse or carry a
      pre-release tag. */
  method StripPreRelease(parse: Parser, vs: seq<ChartVersion>) returns (stripped: seq<ChartVersion>)
    ensures stripped == Releases(parse, vs)
  {
    stripped := [];
    var i := 0;
    while i < |vs|
      invariant 0 <= i <= |vs|
      invariant stripped + Releases(parse, vs[i..]) == Releases(parse, vs)
    {
      ReleasesStep(parse, vs, i);
      var parsed := parse(vs[i].version);
      if parsed.None? {
        i := i + 1;
        continue;
      }
      if parsed.value.pre == "" {
        stripped := stripped + [vs[i]];
      }
      i := i + 1;
    }
    assert vs[i..] == [];
  }

  // ---- collectTrackedVersions ----

  predicate SameStream(v: Version, t: Version)
  {
    v.major == t.major && v.minor == t.minor
  }

  /** major.minor of `v` is strictly below that of `t`. */
  predicate StreamBelow(v: Version, t: Version)
  {
    v.major < t.major || (v.major == t.major && v.minor < t.minor)
  }

  /** One tracked stream's bucket: the versions of stream `t`, scanning until
      the first version of an older stream; unparsable versions are skipped. */
  function Bucket(parse: Parser, vs: seq<ChartVersion>, t: Version): seq<ChartVersion>
  {
    if |vs| == 0 then []
    else if Parses(parse, vs[0]) && SameStream(SemVerOf(parse, vs[0]), t) then [vs[0]] + Bucket(parse, vs[1..], t)
    else if Parses(parse, vs[0]) && StreamBelow(SemVerOf(parse, vs[0]), t) then []
    else Bucket(parse, vs[1..], t)
  }

  predicate InStream(parse: Parser, x: ChartVersion, t: Version)
  {
    Parses(parse, x) && SameStream(SemVerOf(parse, x), t)
  }

  /** A bucket holds versions of its stream only, in input order. */
  lemma {:induction false} BucketSpec(parse: Parser, vs: seq<ChartVersion>, t: Version)
    ensures forall x :: x in Bucket(parse, vs, t) ==> x in vs && InStream(parse, x, t)
    ensures IsSubsequence(Bucket(parse, vs, t), vs)
    ensures AllParse(parse, Bucket(parse, vs, t))
  {
    if |vs| > 0 {
      BucketSpec(parse, vs[1..], t);
      assert forall x :: x in vs[1..] ==> x in vs;
      if !InStream(parse, vs[0], t) {
        SubsequenceOfSuffix(Bucket(parse, vs, t), vs, 1);
      }
    }
  }

  lemma BucketStep(parse: Parser, vs: seq<ChartVersion>, i: nat, t: Version)
    requires i < |vs|
    ensures Bucket(parse, vs[i..], t) ==
      if InStream(parse, vs[i], t) then [vs[i]] + Bucket(parse, vs[i + 1..], t)
      else if Parses(parse, vs[i]) && StreamBelow(SemVerOf(parse, vs[i]), t) then []
      else Bucket(parse, vs[i + 1..], t)
  {
    assert vs[i..][1..] == vs[i + 1..];
  }

  /** The bucket of a tracked string: empty when it does not parse, since
      then every version is skipped. */
  function TrackedBucket(parse: Parser, vs: seq<ChartVersion>, tracked: string): seq<ChartVersion>
  {
    if parse(tracked).Some? then Bucket(parse, vs, parse(tracked).value) else []
  }

  /** `collectTrackedVersions`: a map from each tracked string to its bucket. */
  method CollectTrackedVersions(parse: Parser, vs: seq<ChartVersion>, tracked: seq<string>) returns (buckets: map<string, seq<ChartVersion>>)
    ensures forall t :: t in buckets <==> t in tracked
    ensures forall t :: t in buckets ==> buckets[t] == TrackedBucket(parse, vs, t)
  {
    buckets := map[];
    var n := 0;
    while n < |tracked|
      invariant 0 <= n <= |tracked|
      invariant forall t :: t in buckets <==> t in tracked[..n]
      invariant forall t :: t in buckets ==> buckets[t] == TrackedBucket(parse, vs, t)
    {
      var versionList := CollectStream(parse, vs, tracked[n]);
      buckets := buckets[tracked[n] := versionList];
      n := n + 1;
      assert tracked[..n] == tracked[..n - 1] + [tracked[n - 1]];
    }
    assert tracked[..n] == tracked;
  }

  /** The inner loop of `collectTrackedVersions`, for one tracked string. */
  method CollectStream(parse: Parser, vs: seq<ChartVersion>, trackedVersion: string) returns (versionList: seq<ChartVersion>)
    ensures versionList == TrackedBucket(parse, vs, trackedVersion)
  {
    ghost var tracked := parse(trackedVersion);
    versionList := [];
    var i := 0;
    while i < |vs|
      invariant 0 <= i <= |vs|
      invariant tracked.None? ==> versionList == []
      invariant tracked.Some? ==> versionList + Bucket(parse, vs[i..], tracked.value) == Bucket(parse, vs, tracked.value)
    {
      if tracked.Some? {
        BucketStep(parse, vs, i, tracked.value);
      }
      var append, stop := CompareToTracked(parse, vs[i], trackedVersion);
      if append {
        versionList := versionList + [vs[i]];
      } else if stop {
        break;
      }
      i := i + 1;
    }
    assert i == |vs| ==> vs[i..] == [];
  }

  /** One step of that loop: whether `version` joins the bucket, and whether
      the scan stops at it. Unparsable versions and an unparsable tracked
      string skip the version. */
  method CompareToTracked(parse: Parser, version: ChartVersion, trackedVersion: string) returns (append: bool, stop: bool)
    ensures parse(trackedVersion).None? ==> !append && !stop
    ensures parse(trackedVersion).Some? ==>
      append == InStream(parse, version, parse(trackedVersion).value)
      && stop == (!append && Parses(parse, version) && StreamBelow(SemVerOf(parse, version), parse(trackedVersion).value))
  {
    var semVer := parse(version.version);
    if semVer.None? {
      return false, false;
    }
    var trackedSemVer := parse(trackedVersion);
    if trackedSemVer.None? {
      return false, false;
    }
    var v, t := semVer.value, trackedSemVer.value;
    if v.major == t.major && v.minor == t.minor {
      return true, false;
    } else if v.major < t.major || (v.major == t.major && v.minor < t.minor) {
      return false, true;
    }
    return false, false;
  }

  /** The versions of `vs` in stream `t`, wherever they are. */
  function StreamVersions(parse: Parser, vs: seq<ChartVersion>, t: Version): seq<ChartVersion>
  {
    if |vs| == 0 then []
    else (if InStream(parse, vs[0], t) then [vs[0]] else []) + StreamVersions(parse, vs[1..], t)
  }

  /** Newest first by stream: among versions that parse, major.minor never
      increases along the list. */
  predicate StreamsNewestFirst(parse: Parser, vs: seq<ChartVersion>)
  {
    forall i, j :: 0 <= i < j < |vs| && Parses(parse, vs[i]) && Parses(parse, vs[j]) ==>
      !StreamBelow(SemVerOf(parse, vs[i]), SemVerOf(parse, vs[j]))
  }

  /** The order depends on the version strings only, so a rewrite that
      keeps them position by position (the chart URL rewrite after Helm's
      sort) keeps a newest-first list newest first. */
  lemma NewestFirstUnderRewrite(parse: Parser, sorted: seq<ChartVersion>, fetched: seq<ChartVersion>)
    requires |fetched| == |sorted|
    requires forall i :: 0 <= i < |sorted| ==> fetched[i].version == sorted[i].version
    requires StreamsNewestFirst(parse, sorted)
    ensures StreamsNewestFirst(parse, fetched)
  {
    forall i, j | 0 <= i < j < |fetched| && Parses(parse, fetched[i]) && Parses(parse, fetched[j])
      ensures !StreamBelow(SemVerOf(parse, fetched[i]), SemVerOf(parse, fetched[j]))
    {
      assert SemVerOf(parse, fetched[i]) == SemVerOf(parse, sorted[i]);
      assert SemVerOf(parse, fetched[j]) == SemVerOf(parse, sorted[j]);
    }
  }

  lemma StreamsNewestFirstTail(parse: Parser, vs: seq<ChartVersion>)
    requires |vs| > 0 && StreamsNewestFirst(parse, vs)
    ensures StreamsNewestFirst(parse, vs[1..])
  {
    forall i, j | 0 <= i < j < |vs[1..]| && Parses(parse, vs[1..][i]) && Parses(parse, vs[1..][j])
      ensures !StreamBelow(SemVerOf(parse, vs[1..][i]), SemVerOf(parse, vs[1..][j]))
    {
      assert vs[1..][i] == vs[i + 1] && vs[1..][j] == vs[j + 1];
    }
  }

  /** A list holding no version of stream `t` has an empty stream. */
  lemma {:induction false} StreamVersionsNone(parse: Parser, vs: seq<ChartVersion>, t: Version)
    requires forall j :: 0 <= j < |vs| ==> !InStream(parse, vs[j], t)
    ensures StreamVersions(parse, vs, t) == []
  {
    if |vs| > 0 {
      assert !InStream(parse, vs[0], t);
      StreamVersionsNone(parse, vs[1..], t);
    }
  }

  /** On a newest-first list the early stop loses nothing: the bucket holds
      every version of the stream. */
  lemma {:induction false} BucketIsStream(parse: Parser, vs: seq<ChartVersion>, t: Version)
    requires StreamsNewestFirst(parse, vs)
    ensures Bucket(parse, vs, t) == StreamVersions(parse, vs, t)
  {
    if |vs| > 0 {
      StreamsNewestFirstTail(parse, vs);
      BucketIsStream(parse, vs[1..], t);
      if Parses(parse, vs[0]) && !SameStream(SemVerOf(parse, vs[0]), t) && StreamBelow(SemVerOf(parse, vs[0]), t) {
        forall j | 0 <= j < |vs[1..]|
          ensures !InStream(parse, vs[1..][j], t)
        {
          assert vs[1..][j] == vs[j + 1];
        }
        StreamVersionsNone(parse, vs[1..], t);
      }
    }
  }

  // ---- collectNonStoredVersions ----

  /* `strip` stands for `StripPackageVersion`, which the package wrapper
     passes in; its precondition is the source's demand that a stored
     version can be stripped without dereferencing a failed parse.
     `render` stands for `Version.String`, the canonical string a stored
     entry is compared with; the package wrapper passes SemVer.Render. */

  /** The stored entries `strip` can be applied to. */
  ghost predicate AllStripDefined(stored: seq<ChartVersion>, strip: string --> string)
  {
    forall s :: s in stored ==> strip.requires(s.version)
  }

  /** Stored entry `s` records upstream version `v`: its raw version, or its
      version with the package-version encoding stripped, is `v`'s canonical
      string. */
  predicate Records(s: ChartVersion, v: Version, strip: string --> string, render: Version -> string)
    requires strip.requires(s.version)
  {
    s.version == render(v) || strip(s.version) == render(v)
  }

  predicate IsStored(parse: Parser, cv: ChartVersion, stored: seq<ChartVersion>, strip: string --> string, render: Version -> string)
    requires AllStripDefined(stored, strip)
  {
    Parses(parse, cv) && RecordedIn(stored, render(SemVerOf(parse, cv)), strip)
  }

  /** Some stored entry, raw or stripped, is the string `canonical`. */
  predicate RecordedIn(stored: seq<ChartVersion>, canonical: string, strip: string --> string)
    requires AllStripDefined(stored, strip)
  {
    |stored| > 0 &&
    (assert stored[0] in stored;
     stored[0].version == canonical || strip(stored[0].version) == canonical || RecordedIn(stored[1..], canonical, strip))
  }

  /** A version is stored exactly when some stored entry records it. */
  lemma {:induction false} IsStoredRecords(parse: Parser, cv: ChartVersion, stored: seq<ChartVersion>, strip: string --> string, render: Version -> string)
    requires AllStripDefined(stored, strip) && Parses(parse, cv)
    ensures IsStored(parse, cv, stored, strip, render) <==> exists s :: s in stored && Records(s, SemVerOf(parse, cv), strip, render)
  {
    RecordedInExists(stored, render(SemVerOf(parse, cv)), strip);
  }

  lemma {:induction false} RecordedInExists(stored: seq<ChartVersion>, canonical: string, strip: string --> string)
    requires AllStripDefined(stored, strip)
    ensures RecordedIn(stored, canonical, strip) <==>
      exists s :: s in stored && (s.version == canonical || strip(s.version) == canonical)
  {
    if |stored| > 0 {
      RecordedInExists(stored[1..], canonical, strip);
      assert forall s :: s in stored <==> s == stored[0] || s in stored[1..];
    }
  }

  /** What "newer" mode asks of a version that is not stored: it parses and,
      when there are stored versions, the newest one stripped parses and is
      below it. */
  predicate NewerThanStored(parse: Parser, cv: ChartVersion, stored: seq<ChartVersion>, strip: string --> string)
    requires AllStripDefined(stored, strip)
  {
    Parses(parse, cv) &&
    (|stored| == 0 ||
     (assert stored[0] in stored;
      var latest := parse(strip(stored[0].version));
      latest.Some? && GreaterThan(SemVerOf(parse, cv), latest.value)))
  }

  /** The fetch modes that stop as soon as the newest version is stored:
      empty, or "latest" in any letter case. */
  predicate LatestLike(fetch: string)
  {
    |fetch| == 0 ||
    (|fetch| == 6 && LowerChar(fetch[0]) == 'l' && LowerChar(fetch[1]) == 'a' && LowerChar(fetch[2]) == 't'
                  && LowerChar(fetch[3]) == 'e' && LowerChar(fetch[4]) == 's' && LowerChar(fetch[5]) == 't')
  }

  /** The source's test: the lower-cased mode is "" or "latest". */
  method FetchesLatest(fetch: string) returns (latest: bool)
    ensures latest == LatestLike(fetch)
  {
    latest := ToLower(fetch) == "" || ToLower(fetch) == "latest";
  }

  /** What `collectNonStoredVersions` relies on: with stored versions to
      compare against, every version parses (the source dereferences the
      parse result), and stored versions can be stripped. */
  ghost predicate NonStoredInputs(parse: Parser, vs: seq<ChartVersion>, stored: seq<ChartVersion>, strip: string --> string)
  {
    (|stored| > 0 ==> AllParse(parse, vs)) && AllStripDefined(stored, strip)
  }

  /** The selection from position `i` on. */
  function NonStoredFrom(parse: Parser, vs: seq<ChartVersion>, stored: seq<ChartVersion>, strip: string --> string, render: Version -> string, fetch: string, i: nat): seq<ChartVersion>
    requires i <= |vs| && NonStoredInputs(parse, vs, stored, strip)
    decreases |vs| - i
  {
    if i == |vs| then []
    else
      var v := vs[i];
      if IsStored(parse, v, stored, strip, render) && i == 0 && LatestLike(fetch) then []
      else if IsStored(parse, v, stored, strip, render) then NonStoredFrom(parse, vs, stored, strip, render, fetch, i + 1)
      else if fetch == "newer" then
        (if NewerThanStored(parse, v, stored, strip) then [v] else []) + NonStoredFrom(parse, vs, stored, strip, render, fetch, i + 1)
      else if fetch == "all" then [v] + NonStoredFrom(parse, vs, stored, strip, render, fetch, i + 1)
      else [v]
  }

  /** `collectNonStoredVersions`' result. */
  function NonStored(parse: Parser, vs: seq<ChartVersion>, stored: seq<ChartVersion>, strip: string --> string, render: Version -> string, fetch: string): seq<ChartVersion>
    requires NonStoredInputs(parse, vs, stored, strip)
  {
    NonStoredFrom(parse, vs, stored, strip, render, fetch, 0)
  }

  /** In every mode the selection keeps input order and holds no stored
      version. */
  lemma NonStoredFromSpec(parse: Parser, vs: seq<ChartVersion>, stored: seq<ChartVersion>, strip: string --> string, render: Version -> string, fetch: string, i: nat)
    requires i <= |vs| && NonStoredInputs(parse, vs, stored, strip)
    ensures IsSubsequence(NonStoredFrom(parse, vs, stored, strip, render, fetch, i), vs[i..])
    ensures forall x :: x in NonStoredFrom(parse, vs, stored, strip, render, fetch, i) ==> x in vs[i..] && !IsStored(parse, x, stored, strip, render)
  {
    NonStoredFromOrder(parse, vs, stored, strip, render, fetch, i);
    NonStoredFromMembers(parse, vs, stored, strip, render, fetch, i);
  }

  lemma {:induction false} NonStoredFromOrder(parse: Parser, vs: seq<ChartVersion>, stored: seq<ChartVersion>, strip: string --> string, render: Version -> string, fetch: string, i: nat)
    requires i <= |vs| && NonStoredInputs(parse, vs, stored, strip)
    ensures IsSubsequence(NonStoredFrom(parse, vs, stored, strip, render, fetch, i), vs[i..])
    decreases |vs| - i
  {
    if i < |vs| {
      var v := vs[i];
      var rest := NonStoredFrom(parse, vs, stored, strip, render, fetch, i + 1);
      var r := NonStoredFrom(parse, vs, stored, strip, render, fetch, i);
      NonStoredFromOrder(parse, vs, stored, strip, render, fetch, i + 1);
      assert vs[i..][0] == v && vs[i..][1..] == vs[i + 1..];
      SubsequenceOfSuffix(rest, vs[i..], 1);
      NonStoredFromShape(parse, vs, stored, strip, render, fetch, i);
      if r == [v] + rest {
        assert r[1..] == rest;
      } else if r == [v] {
        assert r[1..] == [];
      }
    }
  }

  lemma NonStoredFromShape(parse: Parser, vs: seq<ChartVersion>, stored: seq<ChartVersion>, strip: string --> string, render: Version -> string, fetch: string, i: nat)
    requires i < |vs| && NonStoredInputs(parse, vs, stored, strip)
    ensures var r, rest := NonStoredFrom(parse, vs, stored, strip, render, fetch, i), NonStoredFrom(parse, vs, stored, strip, render, fetch, i + 1);
      r == [] || r == rest || r == [vs[i]] + rest || r == [vs[i]]
  {
  }

  lemma {:induction false} NonStoredFromMembers(parse: Parser, vs: seq<ChartVersion>, stored: seq<ChartVersion>, strip: string --> string, render: Version -> string, fetch: string, i: nat)
    requires i <= |vs| && NonStoredInputs(parse, vs, stored, strip)
    ensures forall x :: x in NonStoredFrom(parse, vs, stored, strip, render, fetch, i) ==> x in vs[i..] && !IsStored(parse, x, stored, strip, render)
    decreases |vs| - i
  {
    if i < |vs| {
      NonStoredFromMembers(parse, vs, stored, strip, render, fetch, i + 1);
      assert forall x :: x in vs[i + 1..] ==> x in vs[i..];
      assert vs[i] in vs[i..];
    }
  }


  /** `collectNonStoredVersions`: in the latest-like modes, nothing when the
      newest version is stored and otherwise the first version not stored;
      in "newer" mode, the versions not stored that are above the newest
      stored one; in "all" mode, every version not stored. */
  method CollectNonStoredVersions(parse: Parser, vs: seq<ChartVersion>, stored: seq<ChartVersion>, strip: string --> string, render: Version -> string, fetch: string)
    returns (nonStored: seq<ChartVersion>)
    requires NonStoredInputs(parse, vs, stored, strip)
    ensures nonStored == NonStored(parse, vs, stored, strip, render, fetch)
  {
    ghost var selection := NonStored(parse, vs, stored, strip, render, fetch);
    nonStored := [];
    var i := 0;
    while i < |vs|
      invariant 0 <= i <= |vs|
      invariant nonStored + NonStoredFrom(parse, vs, stored, strip, render, fetch, i) == selection
    {
      ghost var current := NonStoredFrom(parse, vs, stored, strip, render, fetch, i);
      ghost var rest := NonStoredFrom(parse, vs, stored, strip, render, fetch, i + 1);
      var add, stop := SelectAt(parse, vs, stored, strip, render, fetch, i);
      AppendStep(nonStored, vs[i], add, stop, current, rest, selection);
      if add {
        nonStored := nonStored + [vs[i]];
      }
      if stop {
        return;
      }
      i := i + 1;
    }
    assert nonStored + [] == nonStored;
  }

  /** Moving the part of the pending suffix that position `i` decides to the
      result. */
  lemma AppendStep<T>(prefix: seq<T>, v: T, add: bool, stop: bool, current: seq<T>, rest: seq<T>, whole: seq<T>)
    requires prefix + current == whole
    requires current == (if add then [v] else []) + (if stop then [] else rest)
    ensures stop ==> (if add then prefix + [v] else prefix) == whole
    ensures !stop ==> (if add then prefix + [v] else prefix) + rest == whole
  {
    var added := if add then [v] else [];
    var tail := if stop then [] else rest;
    assert (prefix + added) + tail == prefix + (added + tail);
    assert added == [] ==> prefix + added == prefix;
    assert tail == [] ==> (prefix + added) + tail == prefix + added;
  }

  /** One step of that loop: whether `vs[i]` is selected, and whether the
      scan stops after it. */
  method SelectAt(parse: Parser, vs: seq<ChartVersion>, stored: seq<ChartVersion>, strip: string --> string, render: Version -> string, fetch: string, i: nat)
    returns (add: bool, stop: bool)
    requires i < |vs| && NonStoredInputs(parse, vs, stored, strip)
    ensures NonStoredFrom(parse, vs, stored, strip, render, fetch, i) ==
      (if add then [vs[i]] else []) + (if stop then [] else NonStoredFrom(parse, vs, stored, strip, render, fetch, i + 1))
  {
    var version := vs[i];
    var isStored := false;
    if |stored| > 0 {
      assert version in vs;
      isStored := FindStored(parse, version, stored, strip, render);
    }
    assert isStored == IsStored(parse, version, stored, strip, render);
    ghost var rest := NonStoredFrom(parse, vs, stored, strip, render, fetch, i + 1);
    var latest := FetchesLatest(fetch);
    if isStored && i == 0 && latest {
      return false, true;
    }
    if !isStored {
      if fetch == "newer" {
        var newer := IsNewerThanStoredLatest(parse, version, stored, strip);
        assert NonStoredFrom(parse, vs, stored, strip, render, fetch, i) == (if newer then [version] else []) + rest;
        return newer, false;
      } else if fetch == "all" {
        assert NonStoredFrom(parse, vs, stored, strip, render, fetch, i) == [version] + rest;
        return true, false;
      } else {
        assert NonStoredFrom(parse, vs, stored, strip, render, fetch, i) == [version];
        return true, true;
      }
    }
    assert NonStoredFrom(parse, vs, stored, strip, render, fetch, i) == rest;
    return false, false;
  }

  /** The inner loop of `collectNonStoredVersions`: whether some stored
      entry records `version`. */
  method FindStored(parse: Parser, version: ChartVersion, stored: seq<ChartVersion>, strip: string --> string, render: Version -> string) returns (isStored: bool)
    requires Parses(parse, version) && AllStripDefined(stored, strip)
    ensures isStored == IsStored(parse, version, stored, strip, render)
  {
    var canonical := render(SemVerOf(parse, version));
    isStored := false;
    var j := 0;
    while j < |stored|
      invariant 0 <= j <= |stored|
      invariant RecordedIn(stored, canonical, strip) == RecordedIn(stored[j..], canonical, strip)
    {
      assert stored[j] in stored;
      assert stored[j..][1..] == stored[j + 1..];
      var strippedStoredVersion := strip(stored[j].version);
      if stored[j].version == canonical {
        isStored := true;
        break;
      } else if strippedStoredVersion == canonical {
        isStored := true;
        break;
      }
      j := j + 1;
    }
  }

  /** The "newer" test on a version that is not stored; a version that
      does not parse, or a newest stored version whose stripped form does
      not, skips it. */
  method IsNewerThanStoredLatest(parse: Parser, version: ChartVersion, stored: seq<ChartVersion>, strip: string --> string) returns (newer: bool)
    requires AllStripDefined(stored, strip)
    ensures newer == NewerThanStored(parse, version, stored, strip)
  {
    var semVer := parse(version.version);
    if semVer.None? {
      return false;
    }
    if |stored| > 0 {
      assert stored[0] in stored;
      var strippedStoredLatest := strip(stored[0].version);
      var storedLatestSemVer := parse(strippedStoredLatest);
      if storedLatestSemVer.None? {
        return false;
      }
      newer := GreaterThan(semVer.value, storedLatestSemVer.value);
    } else {
      newer := true;
    }
  }

  // ---- the fetch modes, each as a plain definition ----

  /** The versions of `vs[i..]` that are not stored and, with `newerOnly`,
      newer than the newest stored one. */
  function NotStoredFrom(parse: Parser, vs: seq<ChartVersion>, stored: seq<ChartVersion>, strip: string --> string, render: Version -> string, newerOnly: bool, i: nat): seq<ChartVersion>
    requires i <= |vs| && NonStoredInputs(parse, vs, stored, strip)
    decreases |vs| - i
  {
    if i == |vs| then []
    else
      (if !IsStored(parse, vs[i], stored, strip, render) && (newerOnly ==> NewerThanStored(parse, vs[i], stored, strip)) then [vs[i]] else [])
      + NotStoredFrom(parse, vs, stored, strip, render, newerOnly, i + 1)
  }

  /** The first version of `vs[i..]` that is not stored, if any. */
  function FirstNotStoredFrom(parse: Parser, vs: seq<ChartVersion>, stored: seq<ChartVersion>, strip: string --> string, render: Version -> string, i: nat): seq<ChartVersion>
    requires i <= |vs| && NonStoredInputs(parse, vs, stored, strip)
    decreases |vs| - i
  {
    if i == |vs| then []
    else if !IsStored(parse, vs[i], stored, strip, render) then [vs[i]]
    else FirstNotStoredFrom(parse, vs, stored, strip, render, i + 1)
  }

  /** "all" selects every version not stored and "newer" those also above
      the newest stored one; neither stops early. */
  lemma {:induction false} FilterModes(parse: Parser, vs: seq<ChartVersion>, stored: seq<ChartVersion>, strip: string --> string, render: Version -> string, fetch: string, i: nat)
    requires i <= |vs| && NonStoredInputs(parse, vs, stored, strip)
    requires fetch == "all" || fetch == "newer"
    ensures NonStoredFrom(parse, vs, stored, strip, render, fetch, i) == NotStoredFrom(parse, vs, stored, strip, render, fetch == "newer", i)
    decreases |vs| - i
  {
    if i < |vs| {
      FilterModes(parse, vs, stored, strip, render, fetch, i + 1);
      FilterModesCons(parse, vs, stored, strip, render, fetch, i);
    }
  }

  /** The two selections agree from `i` on when they agree from `i + 1` on. */
  lemma FilterModesCons(parse: Parser, vs: seq<ChartVersion>, stored: seq<ChartVersion>, strip: string --> string, render: Version -> string, fetch: string, i: nat)
    requires i < |vs| && NonStoredInputs(parse, vs, stored, strip)
    requires fetch == "all" || fetch == "newer"
    requires NonStoredFrom(parse, vs, stored, strip, render, fetch, i + 1) == NotStoredFrom(parse, vs, stored, strip, render, fetch == "newer", i + 1)
    ensures NonStoredFrom(parse, vs, stored, strip, render, fetch, i) == NotStoredFrom(parse, vs, stored, strip, render, fetch == "newer", i)
  {
    FilterModeStep(parse, vs, stored, strip, render, fetch, i);
    NotStoredStep(parse, vs, stored, strip, render, fetch == "newer", i);
  }

  lemma NotStoredStep(parse: Parser, vs: seq<ChartVersion>, stored: seq<ChartVersion>, strip: string --> string, render: Version -> string, newerOnly: bool, i: nat)
    requires i < |vs| && NonStoredInputs(parse, vs, stored, strip)
    ensures NotStoredFrom(parse, vs, stored, strip, render, newerOnly, i)
         == (if !IsStored(parse, vs[i], stored, strip, render) && (newerOnly ==> NewerThanStored(parse, vs[i], stored, strip)) then [vs[i]] else [])
            + NotStoredFrom(parse, vs, stored, strip, render, newerOnly, i + 1)
  {
  }

  /** One position in "all" or "newer" mode: the version is kept when it is
      not stored (and, for "newer", above the stored ones), and the
      selection goes on. */
  lemma FilterModeStep(parse: Parser, vs: seq<ChartVersion>, stored: seq<ChartVersion>, strip: string --> string, render: Version -> string, fetch: string, i: nat)
    requires i < |vs| && NonStoredInputs(parse, vs, stored, strip)
    requires fetch == "all" || fetch == "newer"
    ensures NonStoredFrom(parse, vs, stored, strip, render, fetch, i)
         == (if !IsStored(parse, vs[i], stored, strip, render) && (fetch == "newer" ==> NewerThanStored(parse, vs[i], stored, strip)) then [vs[i]] else [])
            + NonStoredFrom(parse, vs, stored, strip, render, fetch, i + 1)
  {
    assert !LatestLike(fetch);
  }

  lemma {:induction false} FirstNotStoredMode(parse: Parser, vs: seq<ChartVersion>, stored: seq<ChartVersion>, strip: string --> string, render: Version -> string, fetch: string, i: nat)
    requires i <= |vs| && NonStoredInputs(parse, vs, stored, strip)
    requires fetch != "all" && fetch != "newer" && !(i == 0 && LatestLike(fetch))
    ensures NonStoredFrom(parse, vs, stored, strip, render, fetch, i) == FirstNotStoredFrom(parse, vs, stored, strip, render, i)
    decreases |vs| - i
  {
    if i < |vs| {
      if IsStored(parse, vs[i], stored, strip, render) {
        NonStoredSkips(parse, vs, stored, strip, render, fetch, i);
        FirstNotStoredMode(parse, vs, stored, strip, render, fetch, i + 1);
        assert FirstNotStoredFrom(parse, vs, stored, strip, render, i) == FirstNotStoredFrom(parse, vs, stored, strip, render, i + 1);
      } else {
        NonStoredStops(parse, vs, stored, strip, render, fetch, i);
        assert FirstNotStoredFrom(parse, vs, stored, strip, render, i) == [vs[i]];
      }
    }
  }

  /** Past the newest position, a stored version is skipped in every mode. */
  lemma NonStoredSkips(parse: Parser, vs: seq<ChartVersion>, stored: seq<ChartVersion>, strip: string --> string, render: Version -> string, fetch: string, i: nat)
    requires i < |vs| && NonStoredInputs(parse, vs, stored, strip)
    requires IsStored(parse, vs[i], stored, strip, render) && !(i == 0 && LatestLike(fetch))
    ensures NonStoredFrom(parse, vs, stored, strip, render, fetch, i) == NonStoredFrom(parse, vs, stored, strip, render, fetch, i + 1)
  {
  }

  /** In the single-version modes, a version not stored ends the selection. */
  lemma NonStoredStops(parse: Parser, vs: seq<ChartVersion>, stored: seq<ChartVersion>, strip: string --> string, render: Version -> string, fetch: string, i: nat)
    requires i < |vs| && NonStoredInputs(parse, vs, stored, strip)
    requires !IsStored(parse, vs[i], stored, strip, render) && fetch != "all" && fetch != "newer"
    ensures NonStoredFrom(parse, vs, stored, strip, render, fetch, i) == [vs[i]]
  {
  }

  /** Every other mode selects at most one version: the first one not
      stored, except that the latest-like modes select nothing when the
      newest version is already stored. */
  lemma SingleVersionModes(parse: Parser, vs: seq<ChartVersion>, stored: seq<ChartVersion>, strip: string --> string, render: Version -> string, fetch: string)
    requires NonStoredInputs(parse, vs, stored, strip)
    requires fetch != "all" && fetch != "newer"
    ensures NonStored(parse, vs, stored, strip, render, fetch) ==
      if LatestLike(fetch) && |vs| > 0 && IsStored(parse, vs[0], stored, strip, render) then []
      else FirstNotStoredFrom(parse, vs, stored, strip, render, 0)
    ensures |NonStored(parse, vs, stored, strip, render, fetch)| <= 1
  {
    if LatestLike(fetch) && |vs| > 0 {
      if !IsStored(parse, vs[0], stored, strip, render) {
        assert NonStoredFrom(parse, vs, stored, strip, render, fetch, 0) == [vs[0]];
      }
    } else if !LatestLike(fetch) {
      FirstNotStoredMode(parse, vs, stored, strip, render, fetch, 0);
    }
    FirstNotStoredShort(parse, vs, stored, strip, render, 0);
  }

  lemma {:induction false} FirstNotStoredShort(parse: Parser, vs: seq<ChartVersion>, stored: seq<ChartVersion>, strip: string --> string, render: Version -> string, i: nat)
    requires i <= |vs| && NonStoredInputs(parse, vs, stored, strip)
    ensures |FirstNotStoredFrom(parse, vs, stored, strip, render, i)| <= 1
    decreases |vs| - i
  {
    if i < |vs| && IsStored(parse, vs[i], stored, strip, render) {
      FirstNotStoredShort(parse, vs, stored, strip, render, i + 1);
      assert FirstNotStoredFrom(parse, vs, stored, strip, render, i) == FirstNotStoredFrom(parse, vs, stored, strip, render, i + 1);
    }
  }

  // ---- getLatestTracked ----

  /** Tracked strings that fail to parse come before every one that parses:
      the source compares a failed parse against the running maximum
      otherwise. */
  predicate TrackedComparable(parse: Parser, tracked: seq<string>)
  {
    forall j, k :: 0 <= j < k < |tracked| && parse(tracked[k]).None? ==> parse(tracked[j]).None?
  }

  /** What `getLatestTracked` computes: the first parse result, replaced by
      each later one that is greater. (A string that fails to parse after
      one that parsed is skipped here; the source dereferences it, which
      `TrackedComparable` rules out.) */
  function LatestTracked(parse: Parser, tracked: seq<string>): Option<Version>
  {
    if |tracked| == 0 then None
    else
      var prior := LatestTracked(parse, tracked[..|tracked| - 1]);
      var last := parse(tracked[|tracked| - 1]);
      if prior.None? then last
      else if last.Some? && GreaterThan(last.value, prior.value) then last
      else prior
  }

  /** There is a latest tracked version exactly when some tracked string
      parses, and it is the parse of one of them. */
  lemma {:induction false} LatestTrackedSome(parse: Parser, tracked: seq<string>)
    ensures LatestTracked(parse, tracked).Some? <==> exists j :: 0 <= j < |tracked| && parse(tracked[j]).Some?
    ensures LatestTracked(parse, tracked).Some? ==>
      exists j :: 0 <= j < |tracked| && parse(tracked[j]) == LatestTracked(parse, tracked)
    decreases |tracked|
  {
    if |tracked| > 0 {
      var n := |tracked| - 1;
      var prefix := tracked[..n];
      LatestTrackedSome(parse, prefix);
      assert forall j :: 0 <= j < n ==> prefix[j] == tracked[j];
      if LatestTracked(parse, prefix).Some? {
        var j :| 0 <= j < n && parse(prefix[j]) == LatestTracked(parse, prefix);
        assert parse(tracked[j]) == LatestTracked(parse, prefix);
      }
    }
  }

  /** With release-only tracked strings (the usual "1.2" form), the latest
      tracked version is a maximum: no tracked version is above it. */
  lemma {:induction false} LatestTrackedIsMaximum(parse: Parser, tracked: seq<string>)
    requires forall j :: 0 <= j < |tracked| && parse(tracked[j]).Some? ==> parse(tracked[j]).value.pre == ""
    ensures forall j :: 0 <= j < |tracked| && parse(tracked[j]).Some? ==>
      LatestTracked(parse, tracked).Some? && !TripleGreater(parse(tracked[j]).value, LatestTracked(parse, tracked).value)
    decreases |tracked|
  {
    if |tracked| > 0 {
      var n := |tracked| - 1;
      var prefix := tracked[..n];
      LatestTrackedIsMaximum(parse, prefix);
      LatestTrackedSome(parse, prefix);
      assert forall j :: 0 <= j < n ==> prefix[j] == tracked[j];
      var prior := LatestTracked(parse, prefix);
      var last := parse(tracked[n]);
      if prior.Some? && last.Some? {
        var i :| 0 <= i < n && parse(prefix[i]) == prior;
        assert prior.value.pre == "";
        GreaterThanReleases(last.value, prior.value);
      }
    }
  }

  /** `getLatestTracked`. */
  method GetLatestTracked(parse: Parser, tracked: seq<string>) returns (latestTracked: Option<Version>)
    requires TrackedComparable(parse, tracked)
    ensures latestTracked == LatestTracked(parse, tracked)
  {
    latestTracked := None;
    var k := 0;
    while k < |tracked|
      invariant 0 <= k <= |tracked|
      invariant latestTracked == LatestTracked(parse, tracked[..k])
    {
      assert tracked[..k + 1][..k] == tracked[..k];
      LatestTrackedSome(parse, tracked[..k]);
      var semVer := parse(tracked[k]);
      if latestTracked.None? || GreaterThan(semVer.value, latestTracked.value) {
        latestTracked := semVer;
      }
      k := k + 1;
    }
    assert tracked[..k] == tracked;
  }

  // ---- checkNewerUntracked ----

  /** major.minor of `v` is strictly above that of `t`. */
  predicate StreamAbove(v: Version, t: Version)
  {
    v.major > t.major || (v.major == t.major && v.minor > t.minor)
  }

  /** The canonical strings of the versions above stream `latest`, scanning
      until the first version of that stream. */
  function NewerUntracked(parse: Parser, vs: seq<ChartVersion>, latest: Version): seq<string>
    requires AllParse(parse, vs)
  {
    if |vs| == 0 then []
    else
      assert vs[0] in vs;
      var v := SemVerOf(parse, vs[0]);
      if StreamAbove(v, latest) then [Render(v)] + NewerUntracked(parse, vs[1..], latest)
      else if SameStream(v, latest) then []
      else NewerUntracked(parse, vs[1..], latest)
  }

  /** The canonical strings of all versions above stream `latest`. */
  function AboveStream(parse: Parser, vs: seq<ChartVersion>, latest: Version): seq<string>
    requires AllParse(parse, vs)
  {
    if |vs| == 0 then []
    else
      assert vs[0] in vs;
      (if StreamAbove(SemVerOf(parse, vs[0]), latest) then [Render(SemVerOf(parse, vs[0]))] else [])
      + AboveStream(parse, vs[1..], latest)
  }

  lemma {:induction false} AboveStreamNone(parse: Parser, vs: seq<ChartVersion>, latest: Version)
    requires AllParse(parse, vs)
    requires forall j :: 0 <= j < |vs| ==> !StreamAbove(SemVerOf(parse, vs[j]), latest)
    ensures AboveStream(parse, vs, latest) == []
  {
    if |vs| > 0 {
      assert !StreamAbove(SemVerOf(parse, vs[0]), latest);
      AboveStreamNone(parse, vs[1..], latest);
    }
  }

  /** On a newest-first list the early stop loses nothing: every version
      above the latest tracked stream is reported. */
  lemma {:induction false} NewerUntrackedIsAboveStream(parse: Parser, vs: seq<ChartVersion>, latest: Version)
    requires AllParse(parse, vs) && StreamsNewestFirst(parse, vs)
    ensures NewerUntracked(parse, vs, latest) == AboveStream(parse, vs, latest)
  {
    if |vs| > 0 {
      assert vs[0] in vs;
      StreamsNewestFirstTail(parse, vs);
      NewerUntrackedIsAboveStream(parse, vs[1..], latest);
      var v := SemVerOf(parse, vs[0]);
      if !StreamAbove(v, latest) && SameStream(v, latest) {
        forall j | 0 <= j < |vs[1..]|
          ensures !StreamAbove(SemVerOf(parse, vs[1..][j]), latest)
        {
          assert vs[1..][j] == vs[j + 1];
          assert vs[j + 1] in vs;
        }
        AboveStreamNone(parse, vs[1..], latest);
      }
    }
  }

  /** `checkNewerUntracked`: nothing without tracked streams or versions;
      otherwise the versions above the latest tracked stream, as canonical
      strings. The source dereferences every version's parse and the latest
      tracked version inside the scan. */
  method CheckNewerUntracked(parse: Parser, tracked: seq<string>, vs: seq<ChartVersion>) returns (newerUntracked: seq<string>)
    requires TrackedComparable(parse, tracked)
    requires |tracked| > 0 && |vs| > 0 ==> LatestTracked(parse, tracked).Some? && AllParse(parse, vs)
    ensures |tracked| == 0 || |vs| == 0 ==> newerUntracked == []
    ensures |tracked| > 0 && |vs| > 0 ==> newerUntracked == NewerUntracked(parse, vs, LatestTracked(parse, tracked).value)
  {
    newerUntracked := [];
    var latestTracked := GetLatestTracked(parse, tracked);
    if |tracked| == 0 {
      return;
    }
    var i := 0;
    while i < |vs|
      invariant 0 <= i <= |vs|
      invariant |vs| > 0 ==> newerUntracked + NewerUntracked(parse, vs[i..], latestTracked.value) == NewerUntracked(parse, vs, latestTracked.value)
      invariant |vs| == 0 ==> newerUntracked == []
    {
      var latest := latestTracked.value;
      assert vs[i..][1..] == vs[i + 1..];
      assert vs[i] in vs;
      var semVer := parse(vs[i].version).value;
      if semVer.major > latest.major || (semVer.major == latest.major && semVer.minor > latest.minor) {
        newerUntracked := newerUntracked + [Render(semVer)];
      } else if semVer.major == latest.major && semVer.minor == latest.minor {
        break;
      }
      i := i + 1;
    }
    assert i == |vs| ==> vs[i..] == [];
  }
}
