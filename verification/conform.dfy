/** pkg/conform/conform.go: in-place edits of a chart's metadata (annotation
    add/remove, the upstream.yaml metadata overlay) and the package-version
    encoding of the patch number. */
module Conform {
  import opened Wrappers
  import opened Strings
  import opened SemVer
  import opened Helm

  /** 10^2; the source computes it through a floating-point power. */
  const PatchNumMultiplier: nat := 100
  const MaxPatchNum: nat := PatchNumMultiplier - 1
  /** Go's patch arithmetic is in uint64, so it is taken modulo 2^64. */
  const Uint64Modulus: nat := 0x1_0000_0000_0000_0000

  // ---- Annotations ----

  /** Whether `AnnotateChart` writes `key`: it is absent, or it holds a
      different value and overriding is allowed. */
  predicate Writes(a: map<string, string>, key: string, value: string, override: bool)
  {
    key !in a || (a[key] != value && override)
  }

  /** The annotations after `AnnotateChart`: only `key` may change. */
  function Annotated(a: map<string, string>, key: string, value: string, override: bool): (r: map<string, string>)
    ensures key in r && r[key] == (if Writes(a, key, value, override) then value else a[key])
    ensures r - {key} == a - {key}
  {
    if Writes(a, key, value, override) then a[key := value] else a
  }

  /** `AnnotateChart`: a nil map is first replaced by an empty one; the key
      is written iff `Writes`, and the result says whether it was. */
  method AnnotateChart(c: Chart, key: string, value: string, override: bool) returns (written: bool)
    modifies c
    ensures written == Writes(Annotations(old(c.metadata)), key, value, override)
    ensures c.metadata == old(c.metadata).(annotations := Some(Annotated(Annotations(old(c.metadata)), key, value, override)))
    ensures c.files == old(c.files)
  {
    if c.metadata.annotations.None? {
      c.metadata := c.metadata.(annotations := Some(map[]));
    }
    var a := c.metadata.annotations.value;
    if key !in a || (a[key] != value && override) {
      c.metadata := c.metadata.(annotations := Some(a[key := value]));
      return true;
    }
    return false;
  }

  /** Whether `DeannotateChart` deletes `key`: it is present and either no
      value was given or the stored value equals the given one. */
  predicate Removes(a: map<string, string>, key: string, value: string)
  {
    key in a && (value == "" || a[key] == value)
  }

  /** The annotations after `DeannotateChart`: a nil map stays nil, and only
      `key` may disappear. */
  function Deannotated(m: Option<map<string, string>>, key: string, value: string): (r: Option<map<string, string>>)
    ensures m.None? <==> r.None?
    ensures m.Some? ==> r.value - {key} == m.value - {key}
    ensures m.Some? ==> (key in r.value <==> key in m.value && !Removes(m.value, key, value))
    ensures m.Some? && key in r.value ==> r.value[key] == m.value[key]
  {
    if m.Some? && Removes(m.value, key, value) then Some(m.value - {key}) else m
  }

  /** `DeannotateChart`: returns true iff it deleted the key. */
  method DeannotateChart(c: Chart, key: string, value: string) returns (removed: bool)
    modifies c
    ensures removed == (c.metadata.annotations != old(c.metadata.annotations))
    ensures removed == Removes(Annotations(old(c.metadata)), key, value)
    ensures c.metadata == old(c.metadata).(annotations := Deannotated(old(c.metadata.annotations), key, value))
    ensures c.files == old(c.files)
  {
    removed := false;
    var removeAnnotation := false;
    if c.metadata.annotations.None? {
      return;
    }
    var a := c.metadata.annotations.value;
    if key in a {
      if value != "" {
        if a[key] == value {
          removeAnnotation := true;
        }
      } else {
        removeAnnotation := true;
      }
    }
    if removeAnnotation {
      c.metadata := c.metadata.(annotations := Some(a - {key}));
      assert key !in c.metadata.annotations.value;
      removed := true;
    }
  }

  /** The entries of `m` whose keys are in `keys`. */
  function Restrict(m: map<string, string>, keys: set<string>): (r: map<string, string>)
    ensures r.Keys == m.Keys * keys
    ensures forall k :: k in r ==> r[k] == m[k]
  {
    map k | k in m.Keys * keys :: m[k]
  }

  /** The annotations after annotating every entry of `anns` in turn.
      Keys are distinct, so the result does not depend on the order. */
  function Applied(a: map<string, string>, anns: map<string, string>, override: bool): (r: map<string, string>)
    ensures r.Keys == a.Keys + anns.Keys
  {
    map k | k in a.Keys + anns.Keys :: if k in anns && Writes(a, k, anns[k], override) then anns[k] else a[k]
  }

  /** Whether any entry of `anns` would be written. */
  predicate AnyWrites(a: map<string, string>, anns: map<string, string>, override: bool)
  {
    exists k :: k in anns && Writes(a, k, anns[k], override)
  }

  /** With `override`, the given annotations win on every key; without it,
      the existing ones do. Either way no key is lost. */
  lemma AppliedIsUnion(a: map<string, string>, anns: map<string, string>)
    ensures Applied(a, anns, true) == a + anns
    ensures Applied(a, anns, false) == anns + a
  {
  }

  /** Applying the same annotations a second time changes nothing and
      reports no change. */
  lemma AppliedIdempotent(a: map<string, string>, anns: map<string, string>, override: bool)
    ensures Applied(Applied(a, anns, override), anns, override) == Applied(a, anns, override)
    ensures !AnyWrites(Applied(a, anns, override), anns, override)
  {
    var r := Applied(a, anns, override);
    forall k | k in anns
      ensures !Writes(r, k, anns[k], override)
    {
    }
    var rr := Applied(r, anns, override);
    assert rr.Keys == r.Keys;
    forall k | k in rr
      ensures rr[k] == r[k]
    {
    }
  }

  /** One more key processed: annotating it on the partial result equals
      the partial result over one more key, and it is written exactly when
      it would have been on the original map. */
  lemma AppliedStep(a: map<string, string>, anns: map<string, string>, done: set<string>, k: string, override: bool)
    requires k in anns && k !in done
    ensures Writes(Applied(a, Restrict(anns, done), override), k, anns[k], override) == Writes(a, k, anns[k], override)
    ensures Annotated(Applied(a, Restrict(anns, done), override), k, anns[k], override)
         == Applied(a, Restrict(anns, done + {k}), override)
  {
    var cur := Applied(a, Restrict(anns, done), override);
    var next := Applied(a, Restrict(anns, done + {k}), override);
    var ann := Annotated(cur, k, anns[k], override);
    assert ann.Keys == next.Keys;
    forall j | j in ann
      ensures ann[j] == next[j]
    {
      AppliedStepAt(a, anns, done, k, override, j);
    }
  }

  /** `AppliedStep` at one key `j`. */
  lemma AppliedStepAt(a: map<string, string>, anns: map<string, string>, done: set<string>, k: string, override: bool, j: string)
    requires k in anns && k !in done && j in Annotated(Applied(a, Restrict(anns, done), override), k, anns[k], override)
    ensures Annotated(Applied(a, Restrict(anns, done), override), k, anns[k], override)[j]
         == Applied(a, Restrict(anns, done + {k}), override)[j]
  {
    var before, after := Restrict(anns, done), Restrict(anns, done + {k});
    if j == k {
      assert k !in before && k in after && after[k] == anns[k];
    } else {
      assert (j in before) == (j in after) && (j in before ==> before[j] == after[j]);
    }
  }

  /** The loop shared by `ApplyChartAnnotations` and the annotation part of
      `OverlayChartMetadata`: `AnnotateChart` on each entry, in map order. */
  method AnnotateEach(c: Chart, anns: map<string, string>, override: bool) returns (modified: bool)
    modifies c
    ensures modified == AnyWrites(Annotations(old(c.metadata)), anns, override)
    ensures c.metadata == old(c.metadata).(annotations :=
      if anns == map[] then old(c.metadata.annotations)
      else Some(Applied(Annotations(old(c.metadata)), anns, override)))
    ensures c.files == old(c.files)
  {
    ghost var a0 := Annotations(c.metadata);
    modified := false;
    var todo := anns.Keys;
    while todo != {}
      invariant todo <= anns.Keys
      invariant c.files == old(c.files)
      invariant c.metadata == old(c.metadata).(annotations := c.metadata.annotations)
      invariant todo == anns.Keys ==> c.metadata.annotations == old(c.metadata.annotations)
      invariant todo != anns.Keys ==>
        c.metadata.annotations == Some(Applied(a0, Restrict(anns, anns.Keys - todo), override))
      invariant modified <==> exists j :: j in anns && j !in todo && Writes(a0, j, anns[j], override)
      decreases |todo|
    {
      var k :| k in todo;
      modified := AnnotateOne(c, a0, anns, todo, k, override, modified);
      todo := todo - {k};
    }
    AnnotateEachDone(a0, anns, modified, override);
  }

  /** After the last key of `AnnotateEach`: every key is done. */
  lemma AnnotateEachDone(a0: map<string, string>, anns: map<string, string>, modified: bool, override: bool)
    requires modified <==> exists j :: j in anns && j !in {} && Writes(a0, j, anns[j], override)
    ensures anns.Keys - {} == anns.Keys && Restrict(anns, anns.Keys) == anns
    ensures modified == AnyWrites(a0, anns, override)
  {
    assert Restrict(anns, anns.Keys) == anns;
    if modified {
      var j :| j in anns && j !in {} && Writes(a0, j, anns[j], override);
    }
  }
  /** One iteration of `AnnotateEach`: key `k` is annotated, moving it from
      `todo` to the keys done. */
  method AnnotateOne(c: Chart, ghost a0: map<string, string>, anns: map<string, string>, todo: set<string>, k: string,
                     override: bool, modified: bool) returns (modified': bool)
    requires todo <= anns.Keys && k in todo
    requires todo == anns.Keys ==> c.metadata.annotations.None? || c.metadata.annotations == Some(a0)
    requires todo == anns.Keys ==> Annotations(c.metadata) == a0
    requires todo != anns.Keys ==> c.metadata.annotations == Some(Applied(a0, Restrict(anns, anns.Keys - todo), override))
    requires modified <==> exists j :: j in anns && j !in todo && Writes(a0, j, anns[j], override)
    modifies c
    ensures c.files == old(c.files)
    ensures c.metadata == old(c.metadata).(annotations := c.metadata.annotations)
    ensures c.metadata.annotations == Some(Applied(a0, Restrict(anns, anns.Keys - (todo - {k})), override))
    ensures modified' <==> exists j :: j in anns && j !in todo - {k} && Writes(a0, j, anns[j], override)
  {
    AnnotateEachStep(a0, anns, todo, k, Annotations(c.metadata), override);
    var w := AnnotateChart(c, k, anns[k], override);
    modified' := modified || w;
  }


  /** One iteration of `AnnotateEach`, on the annotations it has built so far. */
  lemma AnnotateEachStep(a0: map<string, string>, anns: map<string, string>, todo: set<string>, k: string,
                         cur: map<string, string>, override: bool)
    requires todo <= anns.Keys && k in todo
    requires todo == anns.Keys ==> cur == a0
    requires todo != anns.Keys ==> cur == Applied(a0, Restrict(anns, anns.Keys - todo), override)
    ensures Annotated(cur, k, anns[k], override) == Applied(a0, Restrict(anns, anns.Keys - (todo - {k})), override)
    ensures Writes(cur, k, anns[k], override) == Writes(a0, k, anns[k], override)
  {
    var done := anns.Keys - todo;
    if todo == anns.Keys {
      AppliedNothing(a0, anns, override);
      assert done == {};
    }
    AppliedStep(a0, anns, done, k, override);
    assert anns.Keys - (todo - {k}) == done + {k};
  }

  /** `ApplyChartAnnotations`: initialises a nil map even when there is
      nothing to apply, then annotates every entry; true iff any entry was
      written. */
  method ApplyChartAnnotations(c: Chart, anns: map<string, string>, override: bool) returns (modified: bool)
    modifies c
    ensures modified == AnyWrites(Annotations(old(c.metadata)), anns, override)
    ensures c.metadata == old(c.metadata).(annotations := Some(Applied(Annotations(old(c.metadata)), anns, override)))
    ensures c.files == old(c.files)
  {
    if c.metadata.annotations.None? {
      c.metadata := c.metadata.(annotations := Some(map[]));
    }
    modified := AnnotateEach(c, anns, override);
    if anns == map[] {
      assert Applied(Annotations(old(c.metadata)), anns, override) == Annotations(old(c.metadata));
    }
  }

  /** The annotations after removing every entry of `anns` in turn. */
  function RemovedAll(a: map<string, string>, anns: map<string, string>): (r: map<string, string>)
    ensures r.Keys <= a.Keys
    ensures forall k :: k in r ==> r[k] == a[k]
  {
    map k | k in a && !(k in anns && Removes(a, k, anns[k])) :: a[k]
  }

  predicate AnyRemoves(a: map<string, string>, anns: map<string, string>)
  {
    exists k :: k in anns && Removes(a, k, anns[k])
  }

  /** A key survives the removal iff it was not named, or it was named with
      a value different from the stored one. */
  lemma RemovedAllKeeps(a: map<string, string>, anns: map<string, string>, k: string)
    requires k in a
    ensures k in RemovedAll(a, anns) <==> (k !in anns || (anns[k] != "" && anns[k] != a[k]))
  {
  }

  lemma RemovedStep(a: map<string, string>, anns: map<string, string>, done: set<string>, k: string)
    requires k in anns && k !in done
    ensures Removes(RemovedAll(a, Restrict(anns, done)), k, anns[k]) == Removes(a, k, anns[k])
    ensures Deannotated(Some(RemovedAll(a, Restrict(anns, done))), k, anns[k])
         == Some(RemovedAll(a, Restrict(anns, done + {k})))
  {
    var cur := RemovedAll(a, Restrict(anns, done));
    var next := RemovedAll(a, Restrict(anns, done + {k}));
    var d := Deannotated(Some(cur), k, anns[k]).value;
    forall j
      ensures j in d <==> j in next
    {
      if j == k {
      } else {
        assert j in Restrict(anns, done + {k}) <==> j in Restrict(anns, done);
      }
    }
    assert d.Keys == next.Keys;
    forall j | j in d
      ensures d[j] == next[j]
    {
    }
    assert d == next;
  }

  lemma RemovedNothing(a: map<string, string>, anns: map<string, string>)
    ensures RemovedAll(a, Restrict(anns, {})) == a
  {
    assert Restrict(anns, {}) == map[];
  }

  lemma AppliedNothing(a: map<string, string>, anns: map<string, string>, override: bool)
    ensures Applied(a, Restrict(anns, {}), override) == a
  {
    assert Restrict(anns, {}) == map[];
  }

  lemma AnyRemovesStep(a: map<string, string>, anns: map<string, string>, done: set<string>, k: string)
    requires k in anns
    ensures AnyRemoves(a, Restrict(anns, done + {k}))
         == (AnyRemoves(a, Restrict(anns, done)) || Removes(a, k, anns[k]))
  {
    var r := Restrict(anns, done + {k});
    if AnyRemoves(a, r) && !Removes(a, k, anns[k]) {
      var j :| j in r && Removes(a, j, r[j]);
      assert j in Restrict(anns, done);
    }
  }

  /** `RemoveChartAnnotations`: `DeannotateChart` on each entry, in map
      order; true iff any entry was removed. A nil map stays nil. */
  method RemoveChartAnnotations(c: Chart, anns: map<string, string>) returns (modified: bool)
    modifies c
    ensures modified == AnyRemoves(Annotations(old(c.metadata)), anns)
    ensures c.metadata == old(c.metadata).(annotations :=
      if old(c.metadata.annotations).None? then None
      else Some(RemovedAll(old(c.metadata.annotations).value, anns)))
    ensures c.files == old(c.files)
  {
    ghost var a0 := Annotations(c.metadata);
    ghost var wasNil := c.metadata.annotations.None?;
    RemovedNothing(a0, anns);
    modified := false;
    var todo := anns.Keys;
    while todo != {}
      invariant todo <= anns.Keys
      invariant c.files == old(c.files)
      invariant c.metadata == old(c.metadata).(annotations := c.metadata.annotations)
      invariant wasNil ==> c.metadata.annotations.None?
      invariant !wasNil ==> c.metadata.annotations == Some(RemovedAll(a0, Restrict(anns, anns.Keys - todo)))
      invariant modified == AnyRemoves(a0, Restrict(anns, anns.Keys - todo))
      decreases |todo|
    {
      var k :| k in todo;
      modified := RemoveOne(c, a0, anns, todo, k, wasNil, modified);
      todo := todo - {k};
    }
    RestrictAll(anns, todo);
  }

  /** With no key left to do, the keys done are all of them. */
  lemma RestrictAll(anns: map<string, string>, todo: set<string>)
    requires todo == {}
    ensures Restrict(anns, anns.Keys - todo) == anns
  {
    assert anns.Keys - todo == anns.Keys;
  }
  /** One iteration of `RemoveChartAnnotations`: key `k` is deannotated,
      moving it from `todo` to the keys done. */
  method RemoveOne(c: Chart, ghost a0: map<string, string>, anns: map<string, string>, todo: set<string>, k: string,
                   ghost wasNil: bool, modified: bool) returns (modified': bool)
    requires todo <= anns.Keys && k in todo
    requires wasNil ==> c.metadata.annotations.None? && a0 == map[]
    requires !wasNil ==> c.metadata.annotations == Some(RemovedAll(a0, Restrict(anns, anns.Keys - todo)))
    requires modified == AnyRemoves(a0, Restrict(anns, anns.Keys - todo))
    modifies c
    ensures c.files == old(c.files)
    ensures c.metadata == old(c.metadata).(annotations := c.metadata.annotations)
    ensures wasNil ==> c.metadata.annotations.None?
    ensures !wasNil ==> c.metadata.annotations == Some(RemovedAll(a0, Restrict(anns, anns.Keys - (todo - {k}))))
    ensures modified' == AnyRemoves(a0, Restrict(anns, anns.Keys - (todo - {k})))
  {
    ghost var done := anns.Keys - todo;
    RemovedStep(a0, anns, done, k);
    AnyRemovesStep(a0, anns, done, k);
    var w := DeannotateChart(c, k, anns[k]);
    modified' := modified || w;
    assert anns.Keys - (todo - {k}) == done + {k};
  }


  // ---- Metadata overlay ----

  function OverlayString(current: string, overlay: string): string
  {
    if overlay != "" then overlay else current
  }

  /** The metadata after `OverlayChartMetadata`. */
  function Overlaid(m: Metadata, o: Metadata): Metadata
  {
    Metadata(
      name := OverlayString(m.name, o.name),
      home := OverlayString(m.home, o.home),
      sources := m.sources + o.sources,
      version := OverlayString(m.version, o.version),
      description := OverlayString(m.description, o.description),
      keywords := m.keywords + o.keywords,
      maintainers := m.maintainers + o.maintainers,
      icon := OverlayString(m.icon, o.icon),
      apiVersion := OverlayString(m.apiVersion, o.apiVersion),
      condition := OverlayString(m.condition, o.condition),
      tags := OverlayString(m.tags, o.tags),
      appVersion := OverlayString(m.appVersion, o.appVersion),
      deprecated := m.deprecated || o.deprecated,
      annotations :=
        if Annotations(o) == map[] then m.annotations
        else Some(Applied(Annotations(m), Annotations(o), true)),
      kubeVersion := m.kubeVersion,
      dependencies := m.dependencies + o.dependencies,
      chartType := OverlayString(m.chartType, o.chartType))
  }

  /** Lists grow by the overlay's entries, after the chart's own;
      Deprecated is only ever switched on; KubeVersion is not overlaid; and
      overlay annotations win per key while other keys are kept. */
  lemma OverlaidSpec(m: Metadata, o: Metadata)
    ensures var r := Overlaid(m, o);
      && r.sources == m.sources + o.sources && r.keywords == m.keywords + o.keywords
      && r.maintainers == m.maintainers + o.maintainers && r.dependencies == m.dependencies + o.dependencies
      && r.deprecated == (m.deprecated || o.deprecated)
      && r.kubeVersion == m.kubeVersion
      && (forall k :: k in Annotations(o) ==> k in Annotations(r) && Annotations(r)[k] == Annotations(o)[k])
      && (forall k :: k in Annotations(m) && k !in Annotations(o) ==> k in Annotations(r) && Annotations(r)[k] == Annotations(m)[k])
      && Annotations(r).Keys == Annotations(m).Keys + Annotations(o).Keys
  {
  }

  /** An overlay with every field empty leaves the metadata as it is. */
  lemma OverlayEmptyIsIdentity(m: Metadata)
    ensures Overlaid(m, EmptyMetadata) == m
  {
  }

  /** Each scalar field of the result is the overlay's when that is
      non-empty and the chart's otherwise. */
  lemma OverlayScalars(m: Metadata, o: Metadata)
    ensures var r := Overlaid(m, o);
      (o.name == "" ==> r.name == m.name) && (o.name != "" ==> r.name == o.name) &&
      (o.version == "" ==> r.version == m.version) && (o.version != "" ==> r.version == o.version) &&
      (o.icon == "" ==> r.icon == m.icon) && (o.icon != "" ==> r.icon == o.icon) &&
      (o.home == "" ==> r.home == m.home) && (o.home != "" ==> r.home == o.home) &&
      (o.description == "" ==> r.description == m.description) && (o.description != "" ==> r.description == o.description) &&
      (o.apiVersion == "" ==> r.apiVersion == m.apiVersion) && (o.apiVersion != "" ==> r.apiVersion == o.apiVersion) &&
      (o.condition == "" ==> r.condition == m.condition) && (o.condition != "" ==> r.condition == o.condition) &&
      (o.tags == "" ==> r.tags == m.tags) && (o.tags != "" ==> r.tags == o.tags) &&
      (o.appVersion == "" ==> r.appVersion == m.appVersion) && (o.appVersion != "" ==> r.appVersion == o.appVersion) &&
      (o.chartType == "" ==> r.chartType == m.chartType) && (o.chartType != "" ==> r.chartType == o.chartType)
  {
  }

  /** `OverlayChartMetadata`: scalars are replaced by non-empty overlay
      values, lists are appended, Deprecated can only be switched on, and
      each overlay annotation is written with override. */
  method OverlayChartMetadata(c: Chart, overlay: Metadata)
    modifies c
    ensures c.metadata == Overlaid(old(c.metadata), overlay)
    ensures c.files == old(c.files)
  {
    var m := c.metadata;
    m := m.(name := OverlayString(m.name, overlay.name));
    m := m.(home := OverlayString(m.home, overlay.home));
    m := m.(sources := m.sources + overlay.sources);
    m := m.(version := OverlayString(m.version, overlay.version));
    m := m.(description := OverlayString(m.description, overlay.description));
    m := m.(keywords := m.keywords + overlay.keywords);
    m := m.(maintainers := m.maintainers + overlay.maintainers);
    m := m.(icon := OverlayString(m.icon, overlay.icon));
    m := m.(apiVersion := OverlayString(m.apiVersion, overlay.apiVersion));
    m := m.(condition := OverlayString(m.condition, overlay.condition));
    m := m.(tags := OverlayString(m.tags, overlay.tags));
    m := m.(appVersion := OverlayString(m.appVersion, overlay.appVersion));
    m := m.(deprecated := m.deprecated || overlay.deprecated);
    c.metadata := m;
    if overlay.annotations.Some? {
      var _ := AnnotateEach(c, overlay.annotations.value, true);
    }
    c.metadata := c.metadata.(dependencies := c.metadata.dependencies + overlay.dependencies);
    if overlay.chartType != "" { c.metadata := c.metadata.(chartType := overlay.chartType); }
  }

  // ---- Package version ----

  /** Replaces the third '.'-separated piece of `s` by the decimal `patch`,
      the rewrite the source performs on a version's canonical string. */
  function ReplacePatch(s: string, patch: nat): string
    requires |Split(s, '.')| >= 3
  {
    var parts := Split(s, '.');
    Join(parts[..2] + [NatToString(patch)] + parts[3..], '.')
  }

  /** A canonical string always has at least three '.'-pieces. */
  lemma RenderHasThreePieces(v: Version)
    ensures |Split(Render(v), '.')| >= 3
  {
    var a, b, c := NatToString(v.major), NatToString(v.minor), NatToString(v.patch);
    assert '.' !in a && '.' !in b by {
      assert forall x :: IsNumeric(x) ==> '.' !in x;
    }
    var rest := c + PreSuffix(v) + BuildSuffix(v);
    assert Render(v) == a + ['.'] + (b + ['.'] + rest);
    SplitCons(a, '.', b + ['.'] + rest);
    SplitCons(b, '.', rest);
  }

  /** The patch `StripPackageVersion` computes from an encoded patch `p >= 100`. */
  function StrippedPatch(p: nat): nat
  {
    (p - p % 2) / PatchNumMultiplier
  }

  /** Subtracting the parity first does not change the quotient. */
  lemma StrippedPatchIsQuotient(p: nat)
    ensures StrippedPatch(p) == p / PatchNumMultiplier
  {
    var q, r := p / 100, p % 100;
    assert p == 100 * q + r;
    ParityOfHundreds(q, r);
    HundredsQuotient(q, r - r % 2);
  }

  lemma ParityOfHundreds(q: nat, r: nat)
    ensures (100 * q + r) % 2 == r % 2
  {
    assert 100 * q + r == 2 * (50 * q) + r;
  }

  lemma HundredsQuotient(q: nat, s: int)
    requires 0 <= s < 100
    ensures (100 * q + s) / 100 == q
  {
  }

  /** The inputs on which `StripPackageVersion` returns instead of
      dereferencing a nil version: the string parses and, when the patch
      is rewritten, the rewritten string parses too. */
  predicate StripDefined(s: string)
  {
    Parse(s).Some? &&
    (Parse(s).value.patch >= PatchNumMultiplier ==>
      (RenderHasThreePieces(Parse(s).value);
       Parse(ReplacePatch(Render(Parse(s).value), StrippedPatch(Parse(s).value.patch))).Some?))
  }

  /** `StripPackageVersion`: undoes the package-version encoding of the patch. */
  function StripPackageVersion(s: string): (r: string)
    requires StripDefined(s)
    ensures Parse(r).Some?
  {
    var v := Parse(s).value;
    RenderHasThreePieces(v);
    ParseWellFormed(s);
    if v.patch >= PatchNumMultiplier then
      var w := Parse(ReplacePatch(Render(v), StrippedPatch(v.patch))).value;
      ParseWellFormed(ReplacePatch(Render(v), StrippedPatch(v.patch)));
      ParseRender(w);
      Render(w)
    else
      ParseRender(v);
      Render(v)
  }

  const ErrInvalidSemVer := "Invalid Semantic Version"

  function IntToString(n: int): string
  {
    if n < 0 then "-" + NatToString(-n) else NatToString(n)
  }

  function PackageVersionTooLarge(pv: int): string
  {
    "package version " + IntToString(pv) + " is greater than maximum of " + NatToString(MaxPatchNum)
  }

  /** The canonical form of the version whose canonical string has its
      patch piece replaced by `patch`, or the error of parsing it. */
  function Repatched(v: Version, patch: nat): (r: Result<string>)
    ensures r.Ok? ==> Parse(r.value).Some?
  {
    RenderHasThreePieces(v);
    var t := ReplacePatch(Render(v), patch);
    match Parse(t)
    case None => Err(ErrInvalidSemVer)
    case Some(w) => RenderedParses(t); Ok(Render(w))
  }

  /** `GeneratePackageVersion`: with a package version `pv` in 0..98 the
      patch becomes `100 * patch + pv`, wrapped to 64 bits as Go's uint64
      arithmetic does; without one the canonical form of the upstream
      version is returned. */
  function GeneratePackageVersion(s: string, pv: Option<int>): Result<string>
  {
    match Parse(s)
    case None => Err(ErrInvalidSemVer)
    case Some(v) =>
      if pv.None? then Ok(Render(v)) else WithPackageVersion(v, pv.value)
  }

  /** The parsed upstream version `v` with the package version `pv` folded
      into its patch. */
  function WithPackageVersion(v: Version, pv: int): Result<string>
  {
    if pv < 0 || pv >= MaxPatchNum then
      // uint64(pv) turns a negative value into one above the maximum
      Err(PackageVersionTooLarge(pv))
    else
      Repatched(v, PackagePatch(v.patch, pv))
  }

  /** The patch Go computes in uint64: `100 * patch + pv` modulo 2^64. */
  function PackagePatch(patch: nat, pv: nat): (r: nat)
    ensures r < Uint64Modulus
    ensures PatchNumMultiplier * patch + pv < Uint64Modulus ==> r == PatchNumMultiplier * patch + pv
    ensures PatchNumMultiplier * patch + pv >= Uint64Modulus ==> r + Uint64Modulus <= PatchNumMultiplier * patch + pv
  {
    var q := PatchNumMultiplier * patch + pv;
    WrappedBelow(q);
    Wrap64(q)
  }

  /** An unparsable version is rejected, no package version gives the
      canonical form, an out-of-range one is rejected, and whatever is
      produced parses again. */
  lemma GeneratePackageVersionSpec(s: string, pv: Option<int>)
    ensures Parse(s).None? ==> GeneratePackageVersion(s, pv) == Err(ErrInvalidSemVer)
    ensures pv.None? && Parse(s).Some? ==> GeneratePackageVersion(s, pv) == Ok(Render(Parse(s).value))
    ensures pv.Some? && Parse(s).Some? && (pv.value < 0 || pv.value >= MaxPatchNum) ==> GeneratePackageVersion(s, pv).Err?
    ensures GeneratePackageVersion(s, pv).Ok? ==> Parse(GeneratePackageVersion(s, pv).value).Some?
  {
    if Parse(s).Some? && pv.None? {
      RenderedParses(s);
    }
  }

  /** The canonical form of whatever parses parses again. */
  lemma RenderedParses(t: string)
    requires Parse(t).Some?
    ensures Parse(Render(Parse(t).value)).Some?
  {
    ParseWellFormed(t);
    ParseRender(Parse(t).value);
  }

  /** A plain release: no pre-release tag and no build metadata. */
  predicate IsPlain(v: Version)
  {
    v.pre == "" && v.build == ""
  }

  /** On a plain release the rewrite just sets the patch. */
  lemma ReplacePatchPlain(v: Version, n: nat)
    requires IsPlain(v)
    ensures |Split(Render(v), '.')| >= 3
    ensures ReplacePatch(Render(v), n) == Render(v.(patch := n))
  {
    TripleSplits(v);
    assert Render(v) == Triple(v);
    var a, b := NatToString(v.major), NatToString(v.minor);
    var parts := [a, b, NatToString(n)];
    assert Split(Render(v), '.')[..2] + [NatToString(n)] + Split(Render(v), '.')[3..] == parts;
    assert Join(parts, '.') == a + ['.'] + (b + ['.'] + NatToString(n)) by {
      var c := NatToString(n);
      assert parts[1..] == [b, c];
      assert [b, c][1..] == [c];
      assert Join([c], '.') == c;
      assert Join([b, c], '.') == b + ['.'] + c;
    }
    assert Render(v.(patch := n)) == Triple(v.(patch := n));
  }

  /** Encoding a plain release keeps major and minor and sets the patch to
      `100 * patch + pv` modulo 2^64: below the wrap the patch is exactly
      `100 * patch + pv`. */
  lemma GeneratePlain(s: string, pv: int)
    requires Parse(s).Some? && IsPlain(Parse(s).value)
    requires 0 <= pv < MaxPatchNum
    ensures var v := Parse(s).value;
      GeneratePackageVersion(s, Some(pv)) == Ok(Render(v.(patch := PackagePatch(v.patch, pv))))
    ensures var v := Parse(s).value; PatchNumMultiplier * v.patch + pv < Uint64Modulus ==>
      GeneratePackageVersion(s, Some(pv)) == Ok(Render(v.(patch := PatchNumMultiplier * v.patch + pv)))
  {
    var v := Parse(s).value;
    assert GeneratePackageVersion(s, Some(pv)) == WithPackageVersion(v, pv);
    ParseWellFormed(s);
    WithPackageVersionPlain(v, pv);
  }

  /** On a plain release the package version only replaces the patch. */
  lemma WithPackageVersionPlain(v: Version, pv: int)
    requires IsPlain(v) && WellFormed(v) && 0 <= pv < MaxPatchNum
    ensures WithPackageVersion(v, pv) == Ok(Render(v.(patch := PackagePatch(v.patch, pv))))
  {
    var p := PackagePatch(v.patch, pv);
    assert WithPackageVersion(v, pv) == Repatched(v, p);
    RepatchedPlain(v, p);
  }

  /** On a plain release the repatched version is the version with that
      patch. */
  lemma RepatchedPlain(v: Version, p: nat)
    requires IsPlain(v) && WellFormed(v)
    ensures Repatched(v, p) == Ok(Render(v.(patch := p)))
  {
    ReplacePatchPlain(v, p);
    ParseRender(v.(patch := p));
  }

  /** Reduction modulo 2^64 (what uint64 arithmetic keeps of `q`), the
      identity below it. */
  function Wrap64(q: nat): (r: nat)
    ensures r < Uint64Modulus
    ensures q < Uint64Modulus ==> r == q
  {
    if q < Uint64Modulus then q else Wrap64(q - Uint64Modulus)
  }

  /** Stripping a plain release divides a patch of 100 or more by 100 and
      leaves a smaller one alone. */
  lemma StripPlain(v: Version)
    requires IsPlain(v)
    ensures StripDefined(Render(v))
    ensures StripPackageVersion(Render(v))
         == Render(v.(patch := if v.patch >= PatchNumMultiplier then v.patch / PatchNumMultiplier else v.patch))
  {
    ParseRender(v);
    StrippedPatchIsQuotient(v.patch);
    ReplacePatchPlain(v, StrippedPatch(v.patch));
    ParseRender(v.(patch := StrippedPatch(v.patch)));
  }

  /** Rendering is injective on what the parser produces. */
  lemma RenderInjective(v: Version, w: Version)
    requires WellFormed(v) && WellFormed(w)
    ensures Render(v) == Render(w) <==> v == w
  {
    ParseRender(v);
    ParseRender(w);
  }

  /** The patch arithmetic of the round trip: the encoded patch, taken
      modulo 2^64, decodes back exactly when it did not wrap and the
      upstream patch is at least 1 or `pv` is 0. */
  lemma EncodedPatch(patch: nat, pv: int)
    requires 0 <= pv < MaxPatchNum
    ensures var p := PackagePatch(patch, pv);
      ((if p >= PatchNumMultiplier then p / PatchNumMultiplier else p) == patch)
      <==> ((patch >= 1 || pv == 0) && PatchNumMultiplier * patch + pv < Uint64Modulus)
  {
    var q := PatchNumMultiplier * patch + pv;
    var p := PackagePatch(patch, pv);
    if q < Uint64Modulus {
      assert p == q;
      if patch >= 1 {
        assert p >= PatchNumMultiplier;
        assert p / PatchNumMultiplier == patch;
      } else {
        assert p == pv;
      }
    } else {
      assert p < PatchNumMultiplier * patch;
      if p >= PatchNumMultiplier {
        assert p / PatchNumMultiplier < patch;
      } else {
        assert patch > PatchNumMultiplier;
      }
    }
  }

  /** A value at or above 2^64 loses at least 2^64 when wrapped. */
  lemma WrappedBelow(q: nat)
    ensures q >= Uint64Modulus ==> Wrap64(q) + Uint64Modulus <= q
  {
  }

  /** The package-version round trip: stripping the encoded version gives
      back the upstream version exactly when the upstream patch is at least
      1 or the package version is 0, and `100 * patch + pv` fits in 64 bits;
      an upstream patch of 0 with a non-zero package version is not
      recoverable, and neither is a patch whose encoding wraps. */
  lemma StripGenerateRoundTrip(s: string, pv: int)
    requires Parse(s).Some? && IsPlain(Parse(s).value)
    requires 0 <= pv < MaxPatchNum
    ensures GeneratePackageVersion(s, Some(pv)).Ok?
    ensures StripDefined(GeneratePackageVersion(s, Some(pv)).value)
    ensures StripPackageVersion(GeneratePackageVersion(s, Some(pv)).value) == Render(Parse(s).value)
        <==> (Parse(s).value.patch >= 1 || pv == 0) && PatchNumMultiplier * Parse(s).value.patch + pv < Uint64Modulus
  {
    var v := Parse(s).value;
    var p := PackagePatch(v.patch, pv);
    var w := v.(patch := p);
    GeneratePlain(s, pv);
    assert GeneratePackageVersion(s, Some(pv)) == Ok(Render(w));
    StripPlain(w);
    var back := w.(patch := if p >= PatchNumMultiplier then p / PatchNumMultiplier else p);
    assert StripPackageVersion(Render(w)) == Render(back);
    EncodedPatch(v.patch, pv);
    assert back == v <==> (v.patch >= 1 || pv == 0) && PatchNumMultiplier * v.patch + pv < Uint64Modulus;
    RenderInjective(back, v);
  }
}
