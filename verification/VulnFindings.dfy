/** Collecting, merging and diffing vulnerability findings (scripts/run_quality_gate.py). */
module VulnFindings {
  import opened Prelude
  import opened Sequences
  import opened Ordering
  import opened Text

  datatype Finding = Finding(package: string, id: string, fixVersions: seq<string>)

  datatype Vuln = Vuln(id: string, fixVersions: Option<seq<string>>)

  datatype Dependency = Dependency(name: string, vulns: seq<Vuln>)

  datatype Key = Key(package: string, id: string)

  predicate KeyLe(a: Key, b: Key) {
    if a.package == b.package then StringLe(a.id, b.id) else StringLe(a.package, b.package)
  }

  predicate FindingLe(a: Finding, b: Finding) {
    KeyLe(Key(a.package, a.id), Key(b.package, b.id))
  }

  lemma KeyLeOrder()
    ensures TotalPreorder(KeyLe) && Antisymmetric(KeyLe)
    ensures TotalPreorder(FindingLe)
  {
    StringLeOrder();
    forall a, b, c | KeyLe(a, b) && KeyLe(b, c) ensures KeyLe(a, c) {
    }
  }

  // ----- normalisation -----

  function NormalizeVersions(raw: Option<seq<string>>): seq<string> {
    SortedSet(StringLe, Filter(IsNonEmpty, Map(Strip, if raw.Some? then raw.value else [])))
  }

  function Normalize(package: string, id: string, raw: Option<seq<string>>): Finding {
    Finding(Strip(package), Strip(id), NormalizeVersions(raw))
  }

  function KeyOf(f: Finding): Key {
    Key(Strip(f.package), Strip(f.id))
  }

  ghost predicate NormalVersions(versions: seq<string>) {
    StrictlySorted(StringLe, versions) && forall v :: v in versions ==> v != "" && Clean(v)
  }

  /** What normalisation produces and keeps. */
  ghost predicate Normal(f: Finding) {
    Clean(f.package) && Clean(f.id) && NormalVersions(f.fixVersions)
  }

  lemma {:induction false} StripAll(raw: seq<string>)
    ensures forall v :: v in Filter(IsNonEmpty, Map(Strip, raw)) ==> v != "" && Clean(v)
  {
    if raw != [] {
      StripAll(raw[..|raw| - 1]);
      StripIdempotent(raw[|raw| - 1]);
      var init := Map(Strip, raw[..|raw| - 1]);
      assert Map(Strip, raw)[..|raw| - 1] == init;
    }
  }

  lemma {:induction false} StripNone(versions: seq<string>)
    requires forall v :: v in versions ==> v != "" && Clean(v)
    ensures Filter(IsNonEmpty, Map(Strip, versions)) == versions
  {
    if versions != [] {
      var init, last := versions[..|versions| - 1], versions[|versions| - 1];
      assert versions == init + [last];
      assert last in versions;
      assert forall v :: v in init ==> v in versions;
      StripFixed(last);
      StripNone(init);
      assert Map(Strip, versions)[..|versions| - 1] == Map(Strip, init);
    }
  }

  lemma NormalizeVersionsNormal(raw: Option<seq<string>>)
    ensures NormalVersions(NormalizeVersions(raw))
  {
    var list := if raw.Some? then raw.value else [];
    StripAll(list);
    StringLeOrder();
    SortedSetMeaning(StringLe, Filter(IsNonEmpty, Map(Strip, list)));
  }

  lemma SortedSetFixed(versions: seq<string>)
    requires StrictlySorted(StringLe, versions)
    ensures SortedSet(StringLe, versions) == versions
  {
    DedupDistinct(versions);
    SortIdentity(StringLe, versions);
  }

  lemma NormalizeNormal(package: string, id: string, raw: Option<seq<string>>)
    ensures Normal(Normalize(package, id, raw))
  {
    StripIdempotent(package);
    StripIdempotent(id);
    NormalizeVersionsNormal(raw);
  }

  /** Normalising a normal finding changes nothing. */
  lemma NormalizeFixed(f: Finding)
    requires Normal(f)
    ensures Normalize(f.package, f.id, Some(f.fixVersions)) == f
    ensures KeyOf(f) == Key(f.package, f.id)
  {
    StripFixed(f.package);
    StripFixed(f.id);
    StripNone(f.fixVersions);
    SortedSetFixed(f.fixVersions);
  }

  // ----- collecting -----

  function VulnFinding(package: string): Vuln -> seq<Finding> {
    (v: Vuln) => if Strip(v.id) == "" then [] else [Normalize(package, v.id, v.fixVersions)]
  }

  function DependencyFindings(dep: Dependency): seq<Finding> {
    if Strip(dep.name) == "" then [] else FlatMap(VulnFinding(Strip(dep.name)), dep.vulns)
  }

  /** Every reported occurrence, in order, before merging. */
  function Occurrences(deps: seq<Dependency>): seq<Finding> {
    FlatMap(DependencyFindings, deps)
  }

  function VersionsOf(f: Finding): seq<string> {
    f.fixVersions
  }

  /** All occurrences of one key merged. */
  function Merged(key: Key, occurrences: seq<Finding>): Finding {
    Finding(key.package, key.id, SortedSet(StringLe, FlatMap(VersionsOf, Group(KeyOf, key, occurrences))))
  }

  function MergedIn(occurrences: seq<Finding>): Key -> Finding {
    (key: Key) => Merged(key, occurrences)
  }

  function CollectFrom(occurrences: seq<Finding>): seq<Finding> {
    Sort(FindingLe, Map(MergedIn(occurrences), Keys(KeyOf, occurrences)))
  }

  function Collect(deps: seq<Dependency>): seq<Finding> {
    CollectFrom(Occurrences(deps))
  }

  method CollectDependency(dep: Dependency) returns (findings: seq<Finding>)
    ensures findings == DependencyFindings(dep)
  {
    hide Normalize;
    findings := [];
    var package := Strip(dep.name);
    if package == "" {
      return;
    }
    for j := 0 to |dep.vulns|
      invariant findings == FlatMap(VulnFinding(package), dep.vulns[..j])
    {
      assert dep.vulns[..j + 1][..j] == dep.vulns[..j];
      if Strip(dep.vulns[j].id) == "" {
        continue;
      }
      findings := findings + [Normalize(package, dep.vulns[j].id, dep.vulns[j].fixVersions)];
    }
    assert dep.vulns[..|dep.vulns|] == dep.vulns;
  }

  method CollectOccurrences(deps: seq<Dependency>) returns (findings: seq<Finding>)
    ensures findings == Occurrences(deps)
  {
    hide DependencyFindings;
    findings := [];
    for i := 0 to |deps|
      invariant findings == Occurrences(deps[..i])
    {
      assert deps[..i + 1][..i] == deps[..i];
      var more := CollectDependency(deps[i]);
      findings := findings + more;
    }
    assert deps[..|deps|] == deps;
  }

  lemma MemberUnion(a: seq<string>, b: seq<string>, c: seq<string>)
    requires forall v :: v in a <==> v in c
    ensures SortedSet(StringLe, a + b) == SortedSet(StringLe, c + b)
  {
    StringLeOrder();
    SortedSetMeaning(StringLe, a + b);
    SortedSetMeaning(StringLe, c + b);
    StrictlySortedUnique(StringLe, SortedSet(StringLe, a + b), SortedSet(StringLe, c + b));
  }

  /** Merging one more occurrence into what is already merged. */
  lemma MergeStep(occurrences: seq<Finding>, item: Finding)
    requires Normal(item)
    ensures var key := KeyOf(item);
            Merged(key, occurrences + [item])
            == Finding(item.package, item.id,
                       SortedSet(StringLe, Merged(key, occurrences).fixVersions + item.fixVersions))
  {
    NormalizeFixed(item);
    var key := KeyOf(item);
    var group := Group(KeyOf, key, occurrences);
    var all := FlatMap(VersionsOf, group);
    assert (occurrences + [item])[..|occurrences|] == occurrences;
    assert Group(KeyOf, key, occurrences + [item]) == group + [item];
    assert (group + [item])[..|group|] == group;
    StringLeOrder();
    SortedSetMeaning(StringLe, all);
    MemberUnion(SortedSet(StringLe, all), item.fixVersions, all);
  }

  lemma MergeOther(occurrences: seq<Finding>, item: Finding, key: Key)
    requires key != KeyOf(item)
    ensures Merged(key, occurrences + [item]) == Merged(key, occurrences)
  {
    assert (occurrences + [item])[..|occurrences|] == occurrences;
  }

  lemma MergeFirst(occurrences: seq<Finding>, item: Finding)
    requires Normal(item) && KeyOf(item) !in Keys(KeyOf, occurrences)
    ensures Merged(KeyOf(item), occurrences + [item]) == item
  {
    GroupAbsent(KeyOf, KeyOf(item), occurrences);
    MergeStep(occurrences, item);
    NormalizeFixed(item);
    SortedSetFixed(item.fixVersions);
    assert SortedSet(StringLe, []) == [];
    assert [] + item.fixVersions == item.fixVersions;
  }

  /** The `dedup` dictionary holds exactly the merged occurrences seen so far. */
  ghost predicate Deduplicated(order: seq<Key>, dedup: map<Key, Finding>, occurrences: seq<Finding>) {
    && order == Keys(KeyOf, occurrences)
    && (forall k :: k in dedup <==> k in order)
    && (forall k :: k in dedup ==> dedup[k] == Merged(k, occurrences))
  }

  method MergeOne(order: seq<Key>, dedup: map<Key, Finding>, item: Finding, ghost occurrences: seq<Finding>)
    returns (order': seq<Key>, dedup': map<Key, Finding>)
    requires Normal(item) && Deduplicated(order, dedup, occurrences)
    ensures Deduplicated(order', dedup', occurrences + [item])
  {
    hide SortedSet, Merged, KeyOf, Keys, Normal;
    var key := KeyOf(item);
    KeysSnoc(KeyOf, occurrences, item);
    if key !in dedup {
      MergeFirst(occurrences, item);
      order', dedup' := order + [key], dedup[key := item];
    } else {
      MergeStep(occurrences, item);
      var versions := SortedSet(StringLe, dedup[key].fixVersions + item.fixVersions);
      order', dedup' := order, dedup[key := Finding(item.package, item.id, versions)];
    }
    forall k | k in dedup' ensures dedup'[k] == Merged(k, occurrences + [item]) {
      if k != key {
        MergeOther(occurrences, item, k);
      }
    }
  }

  method MergeFindings(findings: seq<Finding>) returns (order: seq<Key>, dedup: map<Key, Finding>)
    requires forall f :: f in findings ==> Normal(f)
    ensures Deduplicated(order, dedup, findings)
  {
    order, dedup := [], map[];
    for i := 0 to |findings|
      invariant Deduplicated(order, dedup, findings[..i])
    {
      PrefixStep(findings, i);
      order, dedup := MergeOne(order, dedup, findings[i], findings[..i]);
    }
    assert findings[..|findings|] == findings;
  }

  lemma {:induction false} VulnFindingsNormal(package: string, vulns: seq<Vuln>)
    requires Clean(package)
    ensures forall f :: f in FlatMap(VulnFinding(package), vulns) ==> Normal(f) && f.id != "" && f.package == package
  {
    if vulns != [] {
      var last := vulns[|vulns| - 1];
      VulnFindingsNormal(package, vulns[..|vulns| - 1]);
      NormalizeNormal(package, last.id, last.fixVersions);
      StripFixed(package);
    }
  }

  lemma {:induction false} OccurrencesNormal(deps: seq<Dependency>)
    ensures forall f :: f in Occurrences(deps) ==> Normal(f) && f.package != "" && f.id != ""
  {
    if deps != [] {
      var last := deps[|deps| - 1];
      OccurrencesNormal(deps[..|deps| - 1]);
      StripIdempotent(last.name);
      VulnFindingsNormal(Strip(last.name), last.vulns);
    }
  }

  method CollectFindings(deps: seq<Dependency>) returns (findings: seq<Finding>)
    ensures findings == Collect(deps)
  {
    var occurrences := CollectOccurrences(deps);
    OccurrencesNormal(deps);
    var order, dedup := MergeFindings(occurrences);
    var values: seq<Finding> := [];
    for i := 0 to |order|
      invariant values == Map(MergedIn(occurrences), order[..i])
    {
      MapSnoc(MergedIn(occurrences), order, i);
      values := values + [dedup[order[i]]];
    }
    assert order[..|order|] == order;
    findings := Sort(FindingLe, values);
  }

  // ----- the baseline and the diff -----

  predicate HasKey(f: Finding) {
    f.package != "" && f.id != ""
  }

  function Renormalize(f: Finding): Finding {
    Normalize(f.package, f.id, Some(f.fixVersions))
  }

  /** The findings listed in a baseline file. */
  function LoadBaseline(entries: seq<Finding>): seq<Finding> {
    Sort(FindingLe, Filter(HasKey, Map(Renormalize, entries)))
  }

  /** `{key: item for item in items}[key]`: the last item with this key. */
  function LastWith(key: Key, items: seq<Finding>): (f: Finding)
    requires key in Map(KeyOf, items)
    ensures f in items && KeyOf(f) == key
  {
    var last := items[|items| - 1];
    if KeyOf(last) == key then last
    else
      assert items == items[..|items| - 1] + [last];
      LastWith(key, items[..|items| - 1])
  }

  function ItemFor(items: seq<Finding>): Key -> Finding {
    (key: Key) => if key in Map(KeyOf, items) then LastWith(key, items) else Finding(key.package, key.id, [])
  }

  predicate InKeys(keys: seq<Key>, wanted: bool, key: Key) {
    (key in keys) == wanted
  }

  function KeysWhere(keys: seq<Key>, wanted: bool): Key -> bool {
    (key: Key) => InKeys(keys, wanted, key)
  }

  /** The sorted keys of `here` that are (not) keys of `there`. */
  function SortedKeys(here: seq<Finding>, there: seq<Finding>, wanted: bool): seq<Key> {
    SortedSet(KeyLe, Filter(KeysWhere(Map(KeyOf, there), wanted), Map(KeyOf, here)))
  }

  datatype Diff = Diff(introduced: seq<Finding>, resolved: seq<Finding>, known: seq<Finding>)

  function DiffFindings(current: seq<Finding>, baseline: seq<Finding>): Diff {
    Diff(Map(ItemFor(current), SortedKeys(current, baseline, false)),
         Map(ItemFor(baseline), SortedKeys(baseline, current, false)),
         Map(ItemFor(current), SortedKeys(current, baseline, true)))
  }

  // ----- the gate -----

  /** A run of pip-audit; the payload is None when no JSON object could be read. */
  datatype AuditRun = AuditRun(returncode: int, payload: Option<seq<Dependency>>)

  function CurrentFindings(audit: AuditRun): seq<Finding> {
    if audit.payload.Some? then Collect(audit.payload.value) else []
  }
}
