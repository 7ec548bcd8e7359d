/** Findings are a canonical form, the diff against a baseline is a partition, and the gate
    decides inclusion of keys. */
module VulnGate {
  import opened Prelude
  import opened Sequences
  import opened Ordering
  import opened Text
  import opened VulnFindings

  // ----- the canonical form -----

  function RawKey(f: Finding): Key {
    Key(f.package, f.id)
  }

  ghost predicate KeyOccurs(occurrences: seq<Finding>, key: Key) {
    exists f :: f in occurrences && KeyOf(f) == key
  }

  ghost predicate VersionOccurs(occurrences: seq<Finding>, key: Key, version: string) {
    exists f :: f in occurrences && KeyOf(f) == key && version in f.fixVersions
  }

  ghost predicate StrictlyByKey(findings: seq<Finding>) {
    forall i, j :: 0 <= i < j < |findings| ==>
        FindingLe(findings[i], findings[j]) && RawKey(findings[i]) != RawKey(findings[j])
  }

  /** One entry per occurring key, in key order, its versions the sorted union of all that the
      key was reported with. */
  ghost predicate Canonical(findings: seq<Finding>, occurrences: seq<Finding>) {
    && StrictlyByKey(findings)
    && (forall key :: (exists i :: 0 <= i < |findings| && RawKey(findings[i]) == key) <==> KeyOccurs(occurrences, key))
    && forall i :: 0 <= i < |findings| ==>
         && StrictlySorted(StringLe, findings[i].fixVersions)
         && forall v :: v in findings[i].fixVersions <==> VersionOccurs(occurrences, RawKey(findings[i]), v)
  }

  lemma {:induction false} VersionsIn(group: seq<Finding>, v: string)
    ensures v in FlatMap(VersionsOf, group) <==> exists f :: f in group && v in f.fixVersions
  {
    if group != [] {
      var init, last := group[..|group| - 1], group[|group| - 1];
      VersionsIn(init, v);
      assert group == init + [last];
      assert last in group;
    }
  }

  lemma MergedMeaning(key: Key, occurrences: seq<Finding>)
    ensures StrictlySorted(StringLe, Merged(key, occurrences).fixVersions)
    ensures forall v :: v in Merged(key, occurrences).fixVersions <==> VersionOccurs(occurrences, key, v)
  {
    var group := Group(KeyOf, key, occurrences);
    StringLeOrder();
    SortedSetMeaning(StringLe, FlatMap(VersionsOf, group));
    GroupMembers(KeyOf, key, occurrences);
    forall v ensures v in FlatMap(VersionsOf, group) <==> VersionOccurs(occurrences, key, v) {
      VersionsIn(group, v);
      if f :| f in occurrences && KeyOf(f) == key && v in f.fixVersions {
        assert f in group;
      }
    }
  }

  lemma KeysOccur(occurrences: seq<Finding>, key: Key)
    ensures key in Keys(KeyOf, occurrences) <==> KeyOccurs(occurrences, key)
  {
    KeysMeaning(KeyOf, occurrences);
    if key in Keys(KeyOf, occurrences) {
      var i :| 0 <= i < |occurrences| && KeyOf(occurrences[i]) == key;
      assert occurrences[i] in occurrences;
    }
  }

  lemma RawKeysDistinct(occurrences: seq<Finding>)
    ensures Map(RawKey, Map(MergedIn(occurrences), Keys(KeyOf, occurrences))) == Keys(KeyOf, occurrences)
  {
  }

  /** Sorting the merged findings leaves their keys distinct and complete. */
  lemma CollectedKeys(occurrences: seq<Finding>)
    ensures StrictlyByKey(CollectFrom(occurrences))
    ensures multiset(CollectFrom(occurrences)) == multiset(Map(MergedIn(occurrences), Keys(KeyOf, occurrences)))
  {
    var values := Map(MergedIn(occurrences), Keys(KeyOf, occurrences));
    var r := CollectFrom(occurrences);
    KeyLeOrder();
    SortPermutes(FindingLe, values);
    SortSorted(FindingLe, values);
    MapPermutation(RawKey, values, r);
    RawKeysDistinct(occurrences);
    KeysMeaning(KeyOf, occurrences);
    DistinctPermutation(Map(RawKey, values), Map(RawKey, r));
    forall i, j | 0 <= i < j < |r| ensures RawKey(r[i]) != RawKey(r[j]) {
      assert Map(RawKey, r)[i] != Map(RawKey, r)[j];
    }
  }

  lemma CollectedEntry(occurrences: seq<Finding>, i: nat)
    requires i < |CollectFrom(occurrences)|
    ensures var f := CollectFrom(occurrences)[i];
            RawKey(f) in Keys(KeyOf, occurrences) && f == Merged(RawKey(f), occurrences)
  {
    var values, r := Map(MergedIn(occurrences), Keys(KeyOf, occurrences)), CollectFrom(occurrences);
    SortMember(FindingLe, values, r[i]);
    assert r[i] in r;
    var k :| 0 <= k < |values| && values[k] == r[i];
    assert Keys(KeyOf, occurrences)[k] in Keys(KeyOf, occurrences);
  }

  lemma CollectedHas(occurrences: seq<Finding>, key: Key)
    requires key in Keys(KeyOf, occurrences)
    ensures exists i :: 0 <= i < |CollectFrom(occurrences)| && RawKey(CollectFrom(occurrences)[i]) == key
  {
    var ks := Keys(KeyOf, occurrences);
    var values, r := Map(MergedIn(occurrences), ks), CollectFrom(occurrences);
    var k :| 0 <= k < |ks| && ks[k] == key;
    assert values[k] in values;
    SortMember(FindingLe, values, values[k]);
    var i :| 0 <= i < |r| && r[i] == values[k];
    assert RawKey(r[i]) == key;
  }

  /** The collected findings are in canonical form. */
  lemma CollectCanonical(occurrences: seq<Finding>)
    ensures Canonical(CollectFrom(occurrences), occurrences)
  {
    var r := CollectFrom(occurrences);
    CollectedKeys(occurrences);
    forall i | 0 <= i < |r|
      ensures StrictlySorted(StringLe, r[i].fixVersions) && RawKey(r[i]) in Keys(KeyOf, occurrences)
      ensures forall v :: v in r[i].fixVersions <==> VersionOccurs(occurrences, RawKey(r[i]), v)
    {
      CollectedEntry(occurrences, i);
      MergedMeaning(RawKey(r[i]), occurrences);
    }
    forall key ensures (exists i :: 0 <= i < |r| && RawKey(r[i]) == key) <==> KeyOccurs(occurrences, key) {
      KeysOccur(occurrences, key);
      if key in Keys(KeyOf, occurrences) {
        CollectedHas(occurrences, key);
      }
    }
  }

  lemma CanonicalEntriesAgree(a: seq<Finding>, b: seq<Finding>, occurrences: seq<Finding>, i: nat, j: nat)
    requires Canonical(a, occurrences) && Canonical(b, occurrences)
    requires i < |a| && j < |b| && RawKey(a[i]) == RawKey(b[j])
    ensures a[i] == b[j]
  {
    StringLeOrder();
    StrictlySortedUnique(StringLe, a[i].fixVersions, b[j].fixVersions);
  }

  lemma CanonicalMembers(a: seq<Finding>, b: seq<Finding>, occurrences: seq<Finding>, f: Finding)
    requires Canonical(a, occurrences) && Canonical(b, occurrences) && f in a
    ensures f in b
  {
    var i :| 0 <= i < |a| && a[i] == f;
    assert KeyOccurs(occurrences, RawKey(f));
    var j :| 0 <= j < |b| && RawKey(b[j]) == RawKey(f);
    CanonicalEntriesAgree(a, b, occurrences, i, j);
  }

  lemma ByKeySorted(a: seq<Finding>)
    requires StrictlyByKey(a)
    ensures Sorted(FindingLe, a) && Distinct(a)
    ensures TiesIdentical(FindingLe, a)
  {
    KeyLeOrder();
    forall x, y | x in a && y in a && FindingLe(x, y) && FindingLe(y, x) ensures x == y {
      var i :| 0 <= i < |a| && a[i] == x;
      var j :| 0 <= j < |a| && a[j] == y;
      assert RawKey(a[i]) == RawKey(a[j]);
    }
  }

  /** There is only one canonical form of a set of occurrences. */
  lemma CanonicalUnique(a: seq<Finding>, b: seq<Finding>, occurrences: seq<Finding>)
    requires Canonical(a, occurrences) && Canonical(b, occurrences)
    ensures a == b
  {
    KeyLeOrder();
    ByKeySorted(a);
    ByKeySorted(b);
    forall f ensures f in a <==> f in b {
      if f in a { CanonicalMembers(a, b, occurrences, f); }
      if f in b { CanonicalMembers(b, a, occurrences, f); }
    }
    DistinctSameMembers(a, b);
    SortedUnique(FindingLe, a, b);
  }

  // ----- independence of the report order -----

  ghost predicate SameMembers(s: seq<Finding>, t: seq<Finding>) {
    forall f :: f in s <==> f in t
  }

  lemma CanonicalTransfer(findings: seq<Finding>, s: seq<Finding>, t: seq<Finding>)
    requires SameMembers(s, t) && Canonical(findings, s)
    ensures Canonical(findings, t)
  {
    forall key ensures KeyOccurs(s, key) <==> KeyOccurs(t, key) {
    }
    forall key, v ensures VersionOccurs(s, key, v) <==> VersionOccurs(t, key, v) {
    }
  }

  /** Only the set of occurrences matters. */
  lemma CollectDependsOnSet(s: seq<Finding>, t: seq<Finding>)
    requires SameMembers(s, t)
    ensures CollectFrom(s) == CollectFrom(t)
  {
    CollectCanonical(s);
    CollectCanonical(t);
    CanonicalTransfer(CollectFrom(s), s, t);
    CanonicalUnique(CollectFrom(s), CollectFrom(t), t);
  }

  /** Same dependencies in the same order, each with its vulnerabilities shuffled. */
  ghost predicate VulnsShuffled(deps: seq<Dependency>, deps': seq<Dependency>) {
    && |deps| == |deps'|
    && forall i :: 0 <= i < |deps| ==>
        deps[i].name == deps'[i].name && multiset(deps[i].vulns) == multiset(deps'[i].vulns)
  }

  lemma ShuffledDependency(dep: Dependency, dep': Dependency)
    requires dep.name == dep'.name && multiset(dep.vulns) == multiset(dep'.vulns)
    ensures multiset(DependencyFindings(dep)) == multiset(DependencyFindings(dep'))
  {
    if Strip(dep.name) != "" {
      FlatMapPermutation(VulnFinding(Strip(dep.name)), dep.vulns, dep'.vulns);
    }
  }

  lemma {:induction false} ShuffledOccurrences(deps: seq<Dependency>, deps': seq<Dependency>)
    requires VulnsShuffled(deps, deps')
    ensures multiset(Occurrences(deps)) == multiset(Occurrences(deps'))
  {
    if deps != [] {
      var n := |deps| - 1;
      ShuffledOccurrences(deps[..n], deps'[..n]);
      ShuffledDependency(deps[n], deps'[n]);
    }
  }

  lemma PermutedMembers(s: seq<Finding>, t: seq<Finding>)
    requires multiset(s) == multiset(t)
    ensures SameMembers(s, t)
  {
    forall f ensures f in s <==> f in t {
      assert f in s <==> f in multiset(s);
    }
  }

  /** Permuting the dependencies, and the vulnerabilities within each, changes nothing. */
  lemma CollectOrderIndependent(deps: seq<Dependency>, permuted: seq<Dependency>, shuffled: seq<Dependency>)
    requires multiset(deps) == multiset(permuted) && VulnsShuffled(permuted, shuffled)
    ensures Collect(deps) == Collect(shuffled)
  {
    FlatMapPermutation(DependencyFindings, deps, permuted);
    ShuffledOccurrences(permuted, shuffled);
    PermutedMembers(Occurrences(deps), Occurrences(shuffled));
    CollectDependsOnSet(Occurrences(deps), Occurrences(shuffled));
  }

  // ----- feeding the result back -----

  function AsDependency(f: Finding): Dependency {
    Dependency(f.package, [Vuln(f.id, Some(f.fixVersions))])
  }

  ghost predicate AllNormal(findings: seq<Finding>) {
    forall f :: f in findings ==> Normal(f) && f.package != "" && f.id != ""
  }

  lemma CollectedNormal(deps: seq<Dependency>)
    ensures AllNormal(Collect(deps))
  {
    var occurrences, r := Occurrences(deps), Collect(deps);
    OccurrencesNormal(deps);
    forall f | f in r ensures Normal(f) && f.package != "" && f.id != "" {
      var i :| 0 <= i < |r| && r[i] == f;
      CollectedEntry(occurrences, i);
      MergedNormal(RawKey(f), occurrences);
    }
  }

  lemma MergedNormal(key: Key, occurrences: seq<Finding>)
    requires AllNormal(occurrences) && key in Keys(KeyOf, occurrences)
    ensures Normal(Merged(key, occurrences)) && key.package != "" && key.id != ""
  {
    KeysOccur(occurrences, key);
    var f :| f in occurrences && KeyOf(f) == key;
    NormalizeFixed(f);
    MergedMeaning(key, occurrences);
    forall v | v in Merged(key, occurrences).fixVersions ensures v != "" && Clean(v) {
      assert VersionOccurs(occurrences, key, v);
    }
  }

  lemma {:induction false} RefedOccurrences(findings: seq<Finding>)
    requires AllNormal(findings)
    ensures Occurrences(Map(AsDependency, findings)) == findings
  {
    if findings != [] {
      var init, last := findings[..|findings| - 1], findings[|findings| - 1];
      assert findings == init + [last];
      assert last in findings;
      assert forall f :: f in init ==> f in findings;
      RefedOccurrences(init);
      assert Map(AsDependency, findings) == Map(AsDependency, init) + [AsDependency(last)];
      assert (Map(AsDependency, init) + [AsDependency(last)])[..|init|] == Map(AsDependency, init);
      OneDependency(last);
    }
  }

  lemma OneDependency(f: Finding)
    requires Normal(f) && f.package != "" && f.id != ""
    ensures DependencyFindings(AsDependency(f)) == [f]
  {
    NormalizeFixed(f);
    StripFixed(f.package);
    StripFixed(f.id);
    var vulns := AsDependency(f).vulns;
    assert vulns[..0] == [];
    assert FlatMap(VulnFinding(f.package), vulns) == [] + [f];
  }

  lemma CanonicalOfItself(findings: seq<Finding>)
    requires AllNormal(findings) && StrictlyByKey(findings)
    ensures Canonical(findings, findings)
  {
    forall f | f in findings ensures KeyOf(f) == RawKey(f) {
      NormalizeFixed(f);
    }
    forall key ensures (exists i :: 0 <= i < |findings| && RawKey(findings[i]) == key) <==> KeyOccurs(findings, key) {
      if i :| 0 <= i < |findings| && RawKey(findings[i]) == key {
        assert findings[i] in findings;
      }
    }
    forall i, v | 0 <= i < |findings|
      ensures v in findings[i].fixVersions <==> VersionOccurs(findings, RawKey(findings[i]), v)
    {
      assert findings[i] in findings;
      if f :| f in findings && KeyOf(f) == RawKey(findings[i]) && v in f.fixVersions {
        var j :| 0 <= j < |findings| && findings[j] == f;
        assert i == j;
      }
    }
    forall i | 0 <= i < |findings| ensures StrictlySorted(StringLe, findings[i].fixVersions) {
      assert findings[i] in findings;
    }
  }

  /** Collecting is idempotent: its output, reported again, is collected to itself. */
  lemma CollectFixedPoint(deps: seq<Dependency>)
    ensures Collect(Map(AsDependency, Collect(deps))) == Collect(deps)
  {
    var r := Collect(deps);
    CollectedNormal(deps);
    RefedOccurrences(r);
    CollectedKeys(Occurrences(deps));
    CollectCanonical(r);
    CanonicalOfItself(r);
    CanonicalUnique(CollectFrom(r), r, r);
  }

  lemma {:induction false} RenormalizeFixed(findings: seq<Finding>)
    requires AllNormal(findings)
    ensures Filter(HasKey, Map(Renormalize, findings)) == findings
  {
    if findings != [] {
      var init, last := findings[..|findings| - 1], findings[|findings| - 1];
      assert findings == init + [last];
      assert last in findings;
      assert forall f :: f in init ==> f in findings;
      RenormalizeFixed(init);
      NormalizeFixed(last);
      assert Map(Renormalize, findings)[..|init|] == Map(Renormalize, init);
    }
  }

  /** Collected findings written as a baseline are read back unchanged. */
  lemma BaselineRoundTrip(deps: seq<Dependency>)
    ensures LoadBaseline(Collect(deps)) == Collect(deps)
  {
    CollectedNormal(deps);
    RenormalizeFixed(Collect(deps));
    CollectedKeys(Occurrences(deps));
    ByKeySorted(Collect(deps));
    SortIdentity(FindingLe, Collect(deps));
  }

  // ----- the diff -----

  ghost predicate HasKeyIn(findings: seq<Finding>, key: Key) {
    key in Map(KeyOf, findings)
  }

  lemma SortedKeysMeaning(here: seq<Finding>, there: seq<Finding>, wanted: bool)
    ensures StrictlySorted(KeyLe, SortedKeys(here, there, wanted))
    ensures forall key ::
              key in SortedKeys(here, there, wanted) <==> HasKeyIn(here, key) && HasKeyIn(there, key) == wanted
  {
    var p := KeysWhere(Map(KeyOf, there), wanted);
    KeyLeOrder();
    FilterMembers(p, Map(KeyOf, here));
    SortedSetMeaning(KeyLe, Filter(p, Map(KeyOf, here)));
  }

  lemma ListedKeys(here: seq<Finding>, there: seq<Finding>, wanted: bool)
    ensures Map(KeyOf, Map(ItemFor(here), SortedKeys(here, there, wanted))) == SortedKeys(here, there, wanted)
  {
    SortedKeysMeaning(here, there, wanted);
    var ks := SortedKeys(here, there, wanted);
    forall i | 0 <= i < |ks| ensures KeyOf(ItemFor(here)(ks[i])) == ks[i] {
      assert ks[i] in ks;
      assert HasKeyIn(here, ks[i]);
    }
  }

  /** The three lists are strictly sorted by key, and their keys partition the union of the two
      key sets: introduced and known make up the current keys, known and resolved the baseline
      keys, and no key is in two lists. */
  lemma DiffPartition(current: seq<Finding>, baseline: seq<Finding>)
    ensures var d := DiffFindings(current, baseline);
            var (n, k, r) := (Map(KeyOf, d.introduced), Map(KeyOf, d.known), Map(KeyOf, d.resolved));
            && StrictlySorted(KeyLe, n) && StrictlySorted(KeyLe, k) && StrictlySorted(KeyLe, r)
            && forall key ::
                 && (HasKeyIn(current, key) <==> key in n || key in k)
                 && (HasKeyIn(baseline, key) <==> key in k || key in r)
                 && !(key in n && key in k) && !(key in k && key in r) && !(key in n && key in r)
  {
    ListedKeys(current, baseline, false);
    ListedKeys(current, baseline, true);
    ListedKeys(baseline, current, false);
    SortedKeysMeaning(current, baseline, false);
    SortedKeysMeaning(current, baseline, true);
    SortedKeysMeaning(baseline, current, false);
  }

  /** Every listed finding is one of the findings it was taken from. */
  lemma DiffFromInputs(current: seq<Finding>, baseline: seq<Finding>)
    ensures var d := DiffFindings(current, baseline);
            && (forall f :: f in d.introduced || f in d.known ==> f in current)
            && (forall f :: f in d.resolved ==> f in baseline)
  {
    SortedKeysMeaning(current, baseline, false);
    SortedKeysMeaning(current, baseline, true);
    SortedKeysMeaning(baseline, current, false);
    ListedFrom(current, baseline, false);
    ListedFrom(current, baseline, true);
    ListedFrom(baseline, current, false);
  }

  lemma ListedFrom(here: seq<Finding>, there: seq<Finding>, wanted: bool)
    ensures forall f :: f in Map(ItemFor(here), SortedKeys(here, there, wanted)) ==> f in here
  {
    SortedKeysMeaning(here, there, wanted);
    var ks := SortedKeys(here, there, wanted);
    forall f | f in Map(ItemFor(here), ks) ensures f in here {
      var i :| 0 <= i < |ks| && ItemFor(here)(ks[i]) == f;
      assert ks[i] in ks;
      assert HasKeyIn(here, ks[i]);
    }
  }

  // ----- the gate -----

  ghost predicate KeysIncluded(current: seq<Finding>, baseline: seq<Finding>) {
    forall key :: HasKeyIn(current, key) ==> HasKeyIn(baseline, key)
  }

  ghost predicate AuditGate(audit: AuditRun, baseline: seq<Finding>, failOnNew: bool) {
    && audit.returncode in {0, 1} && audit.payload.Some?
    && (failOnNew ==> DiffFindings(CurrentFindings(audit), LoadBaseline(baseline)).introduced == [])
  }

  /** For a valid invocation whose output was read, the strict gate passes exactly when every
      current key is a baseline key. */
  lemma GateDecidesInclusion(audit: AuditRun, baseline: seq<Finding>)
    requires audit.returncode in {0, 1} && audit.payload.Some?
    ensures AuditGate(audit, baseline, true) <==> KeysIncluded(CurrentFindings(audit), LoadBaseline(baseline))
  {
    var current, base := CurrentFindings(audit), LoadBaseline(baseline);
    SortedKeysMeaning(current, base, false);
    var ks := SortedKeys(current, base, false);
    if ks == [] {
      forall key | HasKeyIn(current, key) ensures HasKeyIn(base, key) {
        assert key !in ks;
      }
    } else {
      assert ks[0] in ks;
    }
  }

  /** A passing gate keeps passing when findings disappear or the baseline grows. */
  lemma GateMonotone(
    audit: AuditRun, audit': AuditRun, baseline: seq<Finding>, baseline': seq<Finding>, failOnNew: bool)
    requires AuditGate(audit, baseline, failOnNew)
    requires audit'.returncode in {0, 1} && audit'.payload.Some?
    requires KeysIncluded(CurrentFindings(audit'), CurrentFindings(audit))
    requires KeysIncluded(LoadBaseline(baseline), LoadBaseline(baseline'))
    ensures AuditGate(audit', baseline', failOnNew)
  {
    if failOnNew {
      GateDecidesInclusion(audit, baseline);
      GateDecidesInclusion(audit', baseline');
    }
  }

  /** Accepting the current findings as the baseline clears the gate. */
  lemma AcceptedBaselinePasses(audit: AuditRun, failOnNew: bool)
    requires audit.returncode in {0, 1} && audit.payload.Some?
    ensures AuditGate(audit, CurrentFindings(audit), failOnNew)
  {
    BaselineRoundTrip(audit.payload.value);
    GateDecidesInclusion(audit, CurrentFindings(audit));
  }
}
