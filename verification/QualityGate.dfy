/** The vulnerability gate of scripts/run_quality_gate.py, in terms of what pip-audit reports and
    what the baseline file lists. */
module QualityGate {
  import opened Prelude
  import opened Sequences
  import opened Ordering
  import opened Text
  import opened VulnFindings
  import opened VulnGate

  // ----- what is reported -----

  ghost predicate NamedIn(dep: Dependency, v: Vuln, package: string, id: string) {
    v in dep.vulns && Strip(dep.name) == package != "" && Strip(v.id) == id != ""
  }

  /** Some dependency of this name is reported with a vulnerability of this id. */
  ghost predicate Reported(deps: seq<Dependency>, package: string, id: string) {
    exists dep, v :: dep in deps && NamedIn(dep, v, package, id)
  }

  /** And some such report names this version as one that fixes it. */
  ghost predicate ReportedFix(deps: seq<Dependency>, package: string, id: string, version: string) {
    exists dep, v :: dep in deps && NamedIn(dep, v, package, id) && Fixes(v, version)
  }

  ghost predicate Fixes(v: Vuln, version: string) {
    version != "" && v.fixVersions.Some? && exists raw :: raw in v.fixVersions.value && Strip(raw) == version
  }

  /** The baseline file lists this vulnerability of this package. */
  ghost predicate Listed(entries: seq<Finding>, package: string, id: string) {
    package != "" && id != "" && exists b :: b in entries && Strip(b.package) == package && Strip(b.id) == id
  }

  // ----- what is collected -----

  lemma VersionsNormalized(v: Vuln, version: string)
    ensures version in NormalizeVersions(v.fixVersions) <==> Fixes(v, version)
  {
    var raw := if v.fixVersions.Some? then v.fixVersions.value else [];
    StringLeOrder();
    SortedSetMeaning(StringLe, Filter(IsNonEmpty, Map(Strip, raw)));
    FilterMembers(IsNonEmpty, Map(Strip, raw));
    hide Strip, SortedSet, Filter, Map;
    MapMember(Strip, raw, version);
  }

  ghost predicate FoundAs(dep: Dependency, v: Vuln, f: Finding) {
    NamedIn(dep, v, f.package, f.id) && f.fixVersions == NormalizeVersions(v.fixVersions)
  }

  lemma DependencyFinding(dep: Dependency, f: Finding)
    ensures f in DependencyFindings(dep) <==> exists v :: FoundAs(dep, v, f)
  {
    var package := Strip(dep.name);
    StripIdempotent(dep.name);
    hide NormalizeVersions, Strip;
    if package != "" {
      FlatMapMember(VulnFinding(package), dep.vulns, f);
      forall v | v in dep.vulns ensures f in VulnFinding(package)(v) <==> FoundAs(dep, v, f) {
      }
    }
  }

  lemma OccurrenceReported(deps: seq<Dependency>, f: Finding)
    ensures f in Occurrences(deps) <==> exists dep, v :: dep in deps && FoundAs(dep, v, f)
  {
    FlatMapMember(DependencyFindings, deps, f);
    hide FoundAs, DependencyFindings;
    forall dep ensures f in DependencyFindings(dep) <==> exists v :: FoundAs(dep, v, f) {
      DependencyFinding(dep, f);
    }
  }

  lemma OccurrenceKey(f: Finding, deps: seq<Dependency>)
    requires f in Occurrences(deps)
    ensures KeyOf(f) == Key(f.package, f.id)
  {
    OccurrencesNormal(deps);
    NormalizeFixed(f);
  }

  lemma KeyReported(deps: seq<Dependency>, package: string, id: string)
    ensures KeyOccurs(Occurrences(deps), Key(package, id)) <==> Reported(deps, package, id)
  {
    var all := Occurrences(deps);
    hide Occurrences, NormalizeVersions, KeyOf, NamedIn;
    if f :| f in all && KeyOf(f) == Key(package, id) {
      OccurrenceKey(f, deps);
      OccurrenceReported(deps, f);
    }
    if dep, v :| dep in deps && NamedIn(dep, v, package, id) {
      var f := Finding(package, id, NormalizeVersions(v.fixVersions));
      assert FoundAs(dep, v, f);
      OccurrenceReported(deps, f);
      OccurrenceKey(f, deps);
    }
  }

  lemma VersionReported(deps: seq<Dependency>, package: string, id: string, version: string)
    ensures VersionOccurs(Occurrences(deps), Key(package, id), version) <==> ReportedFix(deps, package, id, version)
  {
    var all := Occurrences(deps);
    hide Occurrences, NormalizeVersions, KeyOf, NamedIn, Fixes;
    if f :| f in all && KeyOf(f) == Key(package, id) && version in f.fixVersions {
      OccurrenceKey(f, deps);
      OccurrenceReported(deps, f);
      var dep, v :| dep in deps && FoundAs(dep, v, f);
      VersionsNormalized(v, version);
    }
    if dep, v :| dep in deps && NamedIn(dep, v, package, id) && Fixes(v, version) {
      var f := Finding(package, id, NormalizeVersions(v.fixVersions));
      assert FoundAs(dep, v, f);
      OccurrenceReported(deps, f);
      OccurrenceKey(f, deps);
      VersionsNormalized(v, version);
    }
  }

  ghost predicate Has(findings: seq<Finding>, package: string, id: string) {
    exists f :: f in findings && f.package == package && f.id == id
  }

  lemma HasRawKey(findings: seq<Finding>, package: string, id: string)
    ensures Has(findings, package, id) <==> exists i :: 0 <= i < |findings| && RawKey(findings[i]) == Key(package, id)
  {
    if i :| 0 <= i < |findings| && RawKey(findings[i]) == Key(package, id) {
      assert findings[i] in findings;
    }
  }

  /** The collected findings are exactly the reported vulnerabilities, one entry each, with exactly
      the versions that any of the reports names. */
  lemma CollectedReported(deps: seq<Dependency>)
    ensures forall package, id :: Has(Collect(deps), package, id) <==> Reported(deps, package, id)
    ensures forall f, version :: f in Collect(deps) ==>
              (version in f.fixVersions <==> ReportedFix(deps, f.package, f.id, version))
    ensures forall i, j :: 0 <= i < j < |Collect(deps)| ==>
              Collect(deps)[i].package != Collect(deps)[j].package || Collect(deps)[i].id != Collect(deps)[j].id
  {
    var (found, all) := (Collect(deps), Occurrences(deps));
    CollectCanonical(all);
    assert found == CollectFrom(all);
    hide CollectFrom, Collect, Occurrences, KeyOccurs, VersionOccurs, Reported, ReportedFix, KeyOf, FindingLe;
    forall package, id ensures Has(found, package, id) <==> Reported(deps, package, id) {
      HasRawKey(found, package, id);
      KeyReported(deps, package, id);
      hide Has;
    }
    forall f, version | f in found ensures version in f.fixVersions <==> ReportedFix(deps, f.package, f.id, version) {
      VersionReported(deps, f.package, f.id, version);
      var i :| 0 <= i < |found| && found[i] == f;
    }
  }

  lemma CollectedKeyOf(deps: seq<Dependency>, package: string, id: string)
    ensures HasKeyIn(Collect(deps), Key(package, id)) <==> Reported(deps, package, id)
  {
    CollectedReported(deps);
    CollectedNormal(deps);
    var found := Collect(deps);
    hide Collect, Reported, ReportedFix;
    MapMember(KeyOf, found, Key(package, id));
    forall f | f in found ensures KeyOf(f) == Key(f.package, f.id) {
      NormalizeFixed(f);
    }
    hide KeyOf;
  }

  lemma BaselineEntry(entries: seq<Finding>, f: Finding)
    ensures f in LoadBaseline(entries) <==> HasKey(f) && exists b :: b in entries && Renormalize(b) == f
  {
    SortMember(FindingLe, Filter(HasKey, Map(Renormalize, entries)), f);
    FilterMembers(HasKey, Map(Renormalize, entries));
    hide Filter, Map, Sort, Renormalize;
    MapMember(Renormalize, entries, f);
  }

  lemma BaselineKeyOf(entries: seq<Finding>, package: string, id: string)
    ensures HasKeyIn(LoadBaseline(entries), Key(package, id)) <==> Listed(entries, package, id)
  {
    var found := LoadBaseline(entries);
    hide LoadBaseline;
    MapMember(KeyOf, found, Key(package, id));
    if f :| f in found && KeyOf(f) == Key(package, id) {
      BaselineEntry(entries, f);
      var b :| b in entries && Renormalize(b) == f;
      NormalizeNormal(b.package, b.id, Some(b.fixVersions));
      NormalizeFixed(f);
    }
    if Listed(entries, package, id) {
      var b :| b in entries && Strip(b.package) == package && Strip(b.id) == id;
      BaselineEntry(entries, Renormalize(b));
      NormalizeNormal(b.package, b.id, Some(b.fixVersions));
      NormalizeFixed(Renormalize(b));
    }
  }

  /** A baseline entry is read with its names trimmed, and its versions trimmed and without blanks. */
  lemma BaselineRead(entries: seq<Finding>, f: Finding)
    requires f in LoadBaseline(entries)
    ensures exists b :: b in entries && Strip(b.package) == f.package != "" && Strip(b.id) == f.id != ""
                        && forall v :: v in f.fixVersions <==> Fixes(Vuln("", Some(b.fixVersions)), v)
  {
    BaselineEntry(entries, f);
    var b :| b in entries && Renormalize(b) == f;
    hide Strip, NormalizeVersions;
    forall v ensures v in f.fixVersions <==> Fixes(Vuln("", Some(b.fixVersions)), v) {
      VersionsNormalized(Vuln("", Some(b.fixVersions)), v);
    }
  }

  /** By package, then by vulnerability id, none twice. */
  ghost predicate InOrder(findings: seq<Finding>) {
    forall i, j :: 0 <= i < j < |findings| ==>
      && StringLe(findings[i].package, findings[j].package)
      && (findings[i].package == findings[j].package ==>
            StringLe(findings[i].id, findings[j].id) && findings[i].id != findings[j].id)
  }

  lemma CollectedInOrder(deps: seq<Dependency>)
    ensures InOrder(Collect(deps))
  {
    CollectedKeys(Occurrences(deps));
    var found := Collect(deps);
    assert StrictlyByKey(found);
    StringLeOrder();
    hide Collect, StringLe;
    forall i, j | 0 <= i < j < |found|
      ensures StringLe(found[i].package, found[j].package)
      ensures found[i].package == found[j].package ==>
                StringLe(found[i].id, found[j].id) && found[i].id != found[j].id
    {
      assert FindingLe(found[i], found[j]) && RawKey(found[i]) != RawKey(found[j]);
    }
  }

  lemma KeysInOrder(findings: seq<Finding>)
    requires StrictlySorted(KeyLe, Map(KeyOf, findings))
    requires forall f :: f in findings ==> KeyOf(f) == Key(f.package, f.id)
    ensures InOrder(findings)
  {
    StringLeOrder();
    hide StringLe, KeyOf;
    forall i, j | 0 <= i < j < |findings|
      ensures StringLe(findings[i].package, findings[j].package)
      ensures findings[i].package == findings[j].package ==>
                StringLe(findings[i].id, findings[j].id) && findings[i].id != findings[j].id
    {
      assert findings[i] in findings && findings[j] in findings;
      assert KeyLe(Map(KeyOf, findings)[i], Map(KeyOf, findings)[j]);
      assert Map(KeyOf, findings)[i] != Map(KeyOf, findings)[j];
    }
  }

  lemma CurrentKeys(audit: AuditRun, f: Finding)
    requires f in CurrentFindings(audit)
    ensures KeyOf(f) == Key(f.package, f.id)
  {
    CollectedNormal(audit.payload.value);
    NormalizeFixed(f);
  }

  lemma BaselineKeys(entries: seq<Finding>, f: Finding)
    requires f in LoadBaseline(entries)
    ensures KeyOf(f) == Key(f.package, f.id)
  {
    BaselineEntry(entries, f);
    var b :| b in entries && Renormalize(b) == f;
    NormalizeNormal(b.package, b.id, Some(b.fixVersions));
    NormalizeFixed(f);
  }

  /** All lists of the gate are in this order. */
  lemma DiffInOrder(audit: AuditRun, baseline: seq<Finding>)
    ensures var diff := DiffFindings(CurrentFindings(audit), LoadBaseline(baseline));
            InOrder(diff.introduced) && InOrder(diff.known) && InOrder(diff.resolved)
  {
    var (current, base) := (CurrentFindings(audit), LoadBaseline(baseline));
    DiffPartition(current, base);
    DiffFromInputs(current, base);
    hide CurrentFindings, LoadBaseline, DiffFindings, InOrder, KeyOf, KeyLe;
    forall f | f in current ensures KeyOf(f) == Key(f.package, f.id) {
      CurrentKeys(audit, f);
    }
    forall f | f in base ensures KeyOf(f) == Key(f.package, f.id) {
      BaselineKeys(baseline, f);
    }
    var diff := DiffFindings(current, base);
    KeysInOrder(diff.introduced);
    KeysInOrder(diff.known);
    KeysInOrder(diff.resolved);
  }

  // ----- the gate as it is run -----

  /** What the payload reports; nothing when none could be read. */
  ghost predicate Current(audit: AuditRun, package: string, id: string) {
    audit.payload.Some? && Reported(audit.payload.value, package, id)
  }

  lemma CurrentKeyOf(audit: AuditRun, package: string, id: string)
    ensures HasKeyIn(CurrentFindings(audit), Key(package, id)) <==> Current(audit, package, id)
  {
    if audit.payload.Some? {
      CollectedKeyOf(audit.payload.value, package, id);
    }
  }

  /** New findings are reported and not listed, known ones both, resolved ones only listed. */
  ghost predicate DiffMeans(diff: Diff, audit: AuditRun, baseline: seq<Finding>) {
    forall package, id ::
      && (Key(package, id) in Map(KeyOf, diff.introduced) <==>
            Current(audit, package, id) && !Listed(baseline, package, id))
      && (Key(package, id) in Map(KeyOf, diff.known) <==> Current(audit, package, id) && Listed(baseline, package, id))
      && (Key(package, id) in Map(KeyOf, diff.resolved) <==>
            Listed(baseline, package, id) && !Current(audit, package, id))
  }

  lemma DiffMeaning(audit: AuditRun, baseline: seq<Finding>)
    ensures DiffMeans(DiffFindings(CurrentFindings(audit), LoadBaseline(baseline)), audit, baseline)
  {
    var (current, base) := (CurrentFindings(audit), LoadBaseline(baseline));
    DiffPartition(current, base);
    hide CurrentFindings, LoadBaseline, DiffFindings, Current, Listed, HasKeyIn, KeyOf, Map;
    forall package, id
      ensures HasKeyIn(current, Key(package, id)) <==> Current(audit, package, id)
      ensures HasKeyIn(base, Key(package, id)) <==> Listed(baseline, package, id)
    {
      CurrentKeyOf(audit, package, id);
      BaselineKeyOf(baseline, package, id);
    }
  }

  /** Every vulnerability that pip-audit reports is in the baseline file. */
  ghost predicate AllListed(deps: seq<Dependency>, baseline: seq<Finding>) {
    forall dep, v :: dep in deps && v in dep.vulns && Strip(dep.name) != "" && Strip(v.id) != "" ==>
      exists b :: b in baseline && Strip(b.package) == Strip(dep.name) && Strip(b.id) == Strip(v.id)
  }

  lemma NothingNew(audit: AuditRun, baseline: seq<Finding>)
    requires audit.payload.Some?
    ensures DiffFindings(CurrentFindings(audit), LoadBaseline(baseline)).introduced == [] <==>
            AllListed(audit.payload.value, baseline)
  {
    var introduced := DiffFindings(CurrentFindings(audit), LoadBaseline(baseline)).introduced;
    DiffMeaning(audit, baseline);
    hide DiffFindings, CurrentFindings, LoadBaseline, KeyOf, Strip;
    if introduced != [] {
      var key := KeyOf(introduced[0]);
      MapMember(KeyOf, introduced, key);
      assert introduced[0] in introduced;
      assert Key(key.package, key.id) in Map(KeyOf, introduced);
      var dep, v :| dep in audit.payload.value && NamedIn(dep, v, key.package, key.id);
    } else {
      forall dep, v | dep in audit.payload.value && v in dep.vulns && Strip(dep.name) != "" && Strip(v.id) != ""
        ensures exists b :: b in baseline && Strip(b.package) == Strip(dep.name) && Strip(b.id) == Strip(v.id)
      {
        assert NamedIn(dep, v, Strip(dep.name), Strip(v.id));
        assert Key(Strip(dep.name), Strip(v.id)) !in Map(KeyOf, introduced);
      }
    }
  }

  /** The gate passes exactly when every required command worked, the audit was run and read, and,
      in strict mode, every vulnerability it reports is in the baseline file. */
  method RunQualityGate(required: seq<int>, audit: AuditRun, baseline: seq<Finding>, failOnNew: bool)
    returns (passed: bool, diff: Diff)
    ensures diff == DiffFindings(CurrentFindings(audit), LoadBaseline(baseline)) && DiffMeans(diff, audit, baseline)
    ensures passed <==>
            && (forall i :: 0 <= i < |required| ==> required[i] == 0)
            && AuditGate(audit, baseline, failOnNew)
    ensures passed <==>
            && (forall i :: 0 <= i < |required| ==> required[i] == 0)
            && (audit.returncode == 0 || audit.returncode == 1) && audit.payload.Some?
            && (failOnNew ==> AllListed(audit.payload.value, baseline))
  {
    hide DiffFindings, LoadBaseline, AllListed, DiffMeans;
    passed := true;
    for i := 0 to |required|
      invariant passed <==> forall j :: 0 <= j < i ==> required[j] == 0
    {
      if required[i] != 0 {
        passed := false;
      }
    }
    var commandOk := audit.returncode in {0, 1};
    var current: seq<Finding> := [];
    if audit.payload.Some? {
      current := CollectFindings(audit.payload.value);
    }
    diff := DiffFindings(current, LoadBaseline(baseline));
    var newCount := |diff.introduced|;
    if !(commandOk && audit.payload.Some? && (!failOnNew || newCount == 0)) {
      passed := false;
    }
    DiffMeaning(audit, baseline);
    if audit.payload.Some? {
      NothingNew(audit, baseline);
    }
  }
}
