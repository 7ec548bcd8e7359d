/** Sums, groups and duplicate removal over sequences.
    Every recursion peels off the last element, so that a loop over a prefix
    s[..i] unfolds it by one step. */
module Sequences {
  import opened Prelude

  predicate Distinct<T(==)>(s: seq<T>) {
    forall i, j :: 0 <= i < j < |s| ==> s[i] != s[j]
  }

  lemma PrefixStep<T>(s: seq<T>, i: nat)
    requires i < |s|
    ensures s[..i + 1] == s[..i] + [s[i]]
  {
  }

  // ----- sums -----

  function Sum<T>(f: T -> real, s: seq<T>): real {
    if s == [] then 0.0 else Sum(f, s[..|s| - 1]) + f(s[|s| - 1])
  }

  function Total<T>(f: T -> int, s: seq<T>): int {
    if s == [] then 0 else Total(f, s[..|s| - 1]) + f(s[|s| - 1])
  }

  lemma SumSnoc<T>(f: T -> real, s: seq<T>, x: T)
    ensures Sum(f, s + [x]) == Sum(f, s) + f(x)
  {
    assert (s + [x])[..|s|] == s;
  }

  lemma TotalSnoc<T>(f: T -> int, s: seq<T>, x: T)
    ensures Total(f, s + [x]) == Total(f, s) + f(x)
  {
    assert (s + [x])[..|s|] == s;
  }

  lemma {:induction false} SumAppend<T>(f: T -> real, s: seq<T>, t: seq<T>)
    ensures Sum(f, s + t) == Sum(f, s) + Sum(f, t)
  {
    if t == [] {
      assert s + t == s;
    } else {
      assert (s + t)[..|s + t| - 1] == s + t[..|t| - 1];
      SumAppend(f, s, t[..|t| - 1]);
    }
  }

  lemma {:induction false} TotalAppend<T>(f: T -> int, s: seq<T>, t: seq<T>)
    ensures Total(f, s + t) == Total(f, s) + Total(f, t)
  {
    if t == [] {
      assert s + t == s;
    } else {
      assert (s + t)[..|s + t| - 1] == s + t[..|t| - 1];
      TotalAppend(f, s, t[..|t| - 1]);
    }
  }

  lemma {:induction false} SumCongruent<T>(f: T -> real, g: T -> real, s: seq<T>)
    requires forall x :: x in s ==> f(x) == g(x)
    ensures Sum(f, s) == Sum(g, s)
  {
    if s != [] {
      SumCongruent(f, g, s[..|s| - 1]);
    }
  }

  lemma {:induction false} TotalCongruent<T>(f: T -> int, g: T -> int, s: seq<T>)
    requires forall x :: x in s ==> f(x) == g(x)
    ensures Total(f, s) == Total(g, s)
  {
    if s != [] {
      TotalCongruent(f, g, s[..|s| - 1]);
    }
  }

  /** A sum lies between the sums of any pointwise bounds. */
  lemma {:induction false} SumMonotone<T>(f: T -> real, g: T -> real, s: seq<T>)
    requires forall x :: x in s ==> f(x) <= g(x)
    ensures Sum(f, s) <= Sum(g, s)
  {
    if s != [] {
      SumMonotone(f, g, s[..|s| - 1]);
    }
  }

  /** A loop that updates the entry of every listed key of a dictionary. */
  method UpdateEach<K(==), V>(keys: seq<K>, entries: map<K, V>, step: (K, V) -> V) returns (updated: map<K, V>)
    requires Distinct(keys) && forall k :: k in keys ==> k in entries
    ensures updated.Keys == entries.Keys
    ensures forall k :: k in entries ==> updated[k] == if k in keys then step(k, entries[k]) else entries[k]
  {
    updated := entries;
    for i := 0 to |keys|
      invariant updated.Keys == entries.Keys
      invariant forall k :: k in entries ==> updated[k] == if k in keys[..i] then step(k, entries[k]) else entries[k]
    {
      assert keys[i] !in keys[..i];
      updated := updated[keys[i] := step(keys[i], updated[keys[i]])];
      PrefixStep(keys, i);
    }
    assert keys[..|keys|] == keys;
  }

  function One<T>(x: T): int {
    1
  }

  lemma {:induction false} OnesCount<T>(s: seq<T>)
    ensures Total(One, s) == |s|
  {
    if s != [] {
      OnesCount(s[..|s| - 1]);
    }
  }

  /** The average of f, zero for an empty sequence. */
  function Mean<T>(f: T -> real, s: seq<T>): real {
    if s == [] then 0.0 else Sum(f, s) / |s| as real
  }

  lemma MeanTimesCount<T>(f: T -> real, s: seq<T>)
    ensures Share(Mean(f, s), |s|) == Sum(f, s)
  {
  }

  /** The mean of f over the rows. */
  ghost predicate Averages<T>(mean: real, f: T -> real, rows: seq<T>) {
    mean * |rows| as real == Sum(f, rows)
  }

  lemma MeanIs<T(!new)>(f: T -> real, g: T -> real, rows: seq<T>)
    requires forall r :: f(r) == g(r)
    ensures Averages(Mean(f, rows), g, rows)
  {
    MeanTimesCount(f, rows);
    SumCongruent(f, g, rows);
  }

  // ----- mapping and filtering -----

  function Map<A, B>(f: A -> B, s: seq<A>): (r: seq<B>)
    ensures |r| == |s|
    ensures forall i :: 0 <= i < |s| ==> r[i] == f(s[i])
  {
    if s == [] then [] else Map(f, s[..|s| - 1]) + [f(s[|s| - 1])]
  }

  lemma MapSnoc<A, B>(f: A -> B, s: seq<A>, i: nat)
    requires i < |s|
    ensures Map(f, s[..i + 1]) == Map(f, s[..i]) + [f(s[i])]
  {
    assert s[..i + 1][..i] == s[..i];
  }

  lemma MapEnd<A, B>(f: A -> B, s: seq<A>, x: A)
    ensures Map(f, s + [x]) == Map(f, s) + [f(x)]
  {
    assert (s + [x])[..|s|] == s;
  }

  lemma MapMember<A, B>(f: A -> B, s: seq<A>, y: B)
    ensures y in Map(f, s) <==> exists x :: x in s && f(x) == y
  {
    if y in Map(f, s) {
      var i :| 0 <= i < |s| && Map(f, s)[i] == y;
      assert s[i] in s;
    }
    if x :| x in s && f(x) == y {
      var i :| 0 <= i < |s| && s[i] == x;
      assert Map(f, s)[i] == y;
    }
  }

  lemma {:induction false} SumOfMap<A, B>(f: B -> real, g: A -> B, h: A -> real, s: seq<A>)
    requires forall x :: x in s ==> h(x) == f(g(x))
    ensures Sum(f, Map(g, s)) == Sum(h, s)
  {
    if s != [] {
      var init, last := s[..|s| - 1], s[|s| - 1];
      assert last in s;
      SumOfMap(f, g, h, init);
      assert Map(g, s) == Map(g, init) + [g(last)];
      SumSnoc(f, Map(g, init), g(last));
    }
  }

  lemma {:induction false} TotalOfMap<A, B>(f: B -> int, g: A -> B, h: A -> int, s: seq<A>)
    requires forall x :: x in s ==> h(x) == f(g(x))
    ensures Total(f, Map(g, s)) == Total(h, s)
  {
    if s != [] {
      var init, last := s[..|s| - 1], s[|s| - 1];
      assert last in s;
      TotalOfMap(f, g, h, init);
      assert Map(g, s) == Map(g, init) + [g(last)];
      TotalSnoc(f, Map(g, init), g(last));
    }
  }

  function Filter<T>(p: T -> bool, s: seq<T>): seq<T> {
    if s == [] then []
    else Filter(p, s[..|s| - 1]) + (if p(s[|s| - 1]) then [s[|s| - 1]] else [])
  }

  lemma FilterSnoc<T>(p: T -> bool, s: seq<T>, x: T)
    ensures Filter(p, s + [x]) == Filter(p, s) + (if p(x) then [x] else [])
  {
    assert (s + [x])[..|s|] == s;
  }

  lemma {:induction false} FilterMembers<T>(p: T -> bool, s: seq<T>)
    ensures forall x :: x in Filter(p, s) <==> x in s && p(x)
    ensures |Filter(p, s)| <= |s|
  {
    if s != [] {
      FilterMembers(p, s[..|s| - 1]);
      assert s == s[..|s| - 1] + [s[|s| - 1]];
    }
  }

  lemma {:induction false} FilterEmpty<T>(p: T -> bool, s: seq<T>)
    ensures Filter(p, s) == [] <==> forall x :: x in s ==> !p(x)
  {
    if s != [] {
      var init, last := s[..|s| - 1], s[|s| - 1];
      FilterEmpty(p, init);
      assert s == init + [last];
      assert last in s;
    }
  }

  lemma {:induction false} FilterAppend<T>(p: T -> bool, s: seq<T>, t: seq<T>)
    ensures Filter(p, s + t) == Filter(p, s) + Filter(p, t)
  {
    if t == [] {
      assert s + t == s;
    } else {
      assert (s + t)[..|s + t| - 1] == s + t[..|t| - 1];
      FilterAppend(p, s, t[..|t| - 1]);
    }
  }

  lemma {:induction false} FilterAll<T>(p: T -> bool, s: seq<T>)
    requires forall x :: x in s ==> p(x)
    ensures Filter(p, s) == s
  {
    if s != [] {
      var init, last := s[..|s| - 1], s[|s| - 1];
      assert forall x :: x in init ==> x in s;
      FilterAll(p, init);
      assert last in s;
      assert s == init + [last];
    }
  }

  /** Filtering by a condition first, and then by a stronger one. */
  lemma {:induction false} FilterStronger<T>(p: T -> bool, q: T -> bool, s: seq<T>)
    requires forall x :: p(x) ==> q(x)
    ensures Filter(p, Filter(q, s)) == Filter(p, s)
  {
    if s != [] {
      var init, last := s[..|s| - 1], s[|s| - 1];
      FilterStronger(p, q, init);
      FilterAppend(p, Filter(q, init), [last]);
      assert [last][..0] == [];
      assert Filter(q, init) + [] == Filter(q, init);
      assert Filter(p, init) + [] == Filter(p, init);
    }
  }

  /** The order in which two conditions are applied does not matter. */
  lemma {:induction false} FiltersCommute<T>(p: T -> bool, q: T -> bool, s: seq<T>)
    ensures Filter(p, Filter(q, s)) == Filter(q, Filter(p, s))
  {
    if s != [] {
      var init, last := s[..|s| - 1], s[|s| - 1];
      FiltersCommute(p, q, init);
      FilterSnoc(p, Filter(q, init), last);
      FilterSnoc(q, Filter(p, init), last);
      assert Filter(p, init) + [] == Filter(p, init) && Filter(q, init) + [] == Filter(q, init);
      assert Filter(p, Filter(q, init)) + [] == Filter(p, Filter(q, init));
    }
  }

  function Count<T>(p: T -> bool, s: seq<T>): (n: nat)
    ensures n <= |s|
  {
    if s == [] then 0 else Count(p, s[..|s| - 1]) + (if p(s[|s| - 1]) then 1 else 0)
  }

  lemma CountSnoc<T>(p: T -> bool, s: seq<T>, x: T)
    ensures Count(p, s + [x]) == Count(p, s) + (if p(x) then 1 else 0)
  {
    assert (s + [x])[..|s|] == s;
  }

  /** Every element satisfies p exactly when the count is the length. */
  lemma {:induction false} CountFull<T>(p: T -> bool, s: seq<T>)
    ensures Count(p, s) == |s| <==> forall x :: x in s ==> p(x)
  {
    if s != [] {
      var init, last := s[..|s| - 1], s[|s| - 1];
      CountFull(p, init);
      assert s == init + [last];
      if Count(p, s) == |s| {
        assert p(last);
      }
    }
  }

  lemma {:induction false} CountAppend<T>(p: T -> bool, s: seq<T>, t: seq<T>)
    ensures Count(p, s + t) == Count(p, s) + Count(p, t)
  {
    if t == [] {
      assert s + t == s;
    } else {
      assert (s + t)[..|s + t| - 1] == s + t[..|t| - 1];
      CountAppend(p, s, t[..|t| - 1]);
    }
  }

  lemma MultisetRemove<T>(s: seq<T>, i: nat)
    requires i < |s|
    ensures multiset(s[..i] + s[i + 1..]) == multiset(s) - multiset{s[i]}
  {
    assert s == s[..i] + [s[i]] + s[i + 1..];
  }

  lemma CountAround<T>(p: T -> bool, a: seq<T>, x: T, b: seq<T>)
    ensures Count(p, a + [x] + b) == Count(p, a + b) + (if p(x) then 1 else 0)
  {
    CountAppend(p, a + [x], b);
    CountAppend(p, a, [x]);
    CountAppend(p, a, b);
    assert [x][..0] == [];
  }

  /** A count depends only on the elements, not on their order. */
  lemma {:induction false} CountPermutation<T>(p: T -> bool, s: seq<T>, t: seq<T>)
    requires multiset(s) == multiset(t)
    ensures Count(p, s) == Count(p, t)
    decreases |s|
  {
    assert |s| == |multiset(s)| == |t|;
    if s != [] {
      var init, a, b := TakeOut(s, t);
      CountPermutation(p, init, a + b);
      CountAround(p, a, s[|s| - 1], b);
    }
  }

  // ----- duplicate removal: the `seen` loops -----

  /** The elements of s at their first occurrence, in order. */
  function Dedup<T(==)>(s: seq<T>): seq<T> {
    if s == [] then []
    else
      var kept := Dedup(s[..|s| - 1]);
      if s[|s| - 1] in kept then kept else kept + [s[|s| - 1]]
  }

  lemma {:induction false} DedupMeaning<T>(s: seq<T>)
    ensures Distinct(Dedup(s))
    ensures forall x :: x in Dedup(s) <==> x in s
    ensures |Dedup(s)| <= |s|
  {
    if s != [] {
      DedupMeaning(s[..|s| - 1]);
      assert s == s[..|s| - 1] + [s[|s| - 1]];
    }
  }

  lemma DedupMember<T>(s: seq<T>, x: T)
    ensures x in Dedup(s) <==> x in s
  {
    DedupMeaning(s);
  }

  lemma {:induction false} DedupDistinct<T>(s: seq<T>)
    requires Distinct(s)
    ensures Dedup(s) == s
  {
    if s != [] {
      DedupDistinct(s[..|s| - 1]);
      assert s == s[..|s| - 1] + [s[|s| - 1]];
    }
  }

  ghost predicate HitAt<A, B>(f: A -> B, raw: seq<A>, k: nat, x: B) {
    k < |raw| && f(raw[k]) == x
  }

  /** x is hit before y. */
  ghost predicate HitBefore<A, B>(f: A -> B, raw: seq<A>, x: B, y: B) {
    exists k: nat :: HitAt(f, raw, k, x) && forall l: nat :: l <= k ==> !HitAt(f, raw, l, y)
  }

  /** The kept values are the distinct values of f that satisfy p, in the order of first occurrence. */
  ghost predicate Keeps<A, B(!new)>(f: A -> B, p: B -> bool, kept: seq<B>, raw: seq<A>) {
    && Distinct(kept)
    && (forall x :: x in kept <==> p(x) && exists k: nat :: HitAt(f, raw, k, x))
    && (forall i, j :: 0 <= i < j < |kept| ==> HitBefore(f, raw, kept[i], kept[j]))
  }

  lemma DedupSnoc<A, B>(f: A -> B, p: B -> bool, raw: seq<A>, last: A)
    ensures var kept, x := Dedup(Filter(p, Map(f, raw))), f(last);
            Dedup(Filter(p, Map(f, raw + [last]))) == if !p(x) || x in kept then kept else kept + [x]
  {
    assert (raw + [last])[..|raw|] == raw;
    assert Map(f, raw + [last]) == Map(f, raw) + [f(last)];
    FilterSnoc(p, Map(f, raw), f(last));
    var values := Filter(p, Map(f, raw));
    assert values + [] == values;
    assert (values + [f(last)])[..|values|] == values;
  }

  lemma HitSnoc<A, B>(f: A -> B, raw: seq<A>, last: A, k: nat, x: B)
    ensures HitAt(f, raw + [last], k, x) <==> HitAt(f, raw, k, x) || (k == |raw| && f(last) == x)
    ensures k >= |raw| ==> !HitAt(f, raw, k, x)
  {
  }

  lemma KeepsSnoc<A, B(!new)>(f: A -> B, p: B -> bool, kept: seq<B>, raw: seq<A>, last: A)
    requires Keeps(f, p, kept, raw)
    ensures Keeps(f, p, if !p(f(last)) || f(last) in kept then kept else kept + [f(last)], raw + [last])
  {
    var all := raw + [last];
    var next := if !p(f(last)) || f(last) in kept then kept else kept + [f(last)];
    forall k: nat, x
      ensures HitAt(f, all, k, x) <==> HitAt(f, raw, k, x) || (k == |raw| && f(last) == x)
      ensures k >= |raw| ==> !HitAt(f, raw, k, x)
    {
      HitSnoc(f, raw, last, k, x);
    }
    hide HitAt;
    forall x ensures x in next <==> p(x) && exists k: nat :: HitAt(f, all, k, x) {
      if k: nat :| HitAt(f, raw, k, x) {
        assert HitAt(f, all, k, x);
      }
      if f(last) == x {
        assert HitAt(f, all, |raw|, x);
      }
    }
    forall i, j | 0 <= i < j < |next| ensures HitBefore(f, all, next[i], next[j]) {
      assert next[i] in kept;
      if j < |kept| {
        var k: nat :| HitAt(f, raw, k, kept[i]) && forall l: nat :: l <= k ==> !HitAt(f, raw, l, kept[j]);
        assert HitAt(f, all, k, next[i]);
      } else {
        var k: nat :| HitAt(f, raw, k, kept[i]);
        assert HitAt(f, all, k, next[i]);
        assert next[j] !in kept;
      }
    }
  }

  lemma {:induction false} DedupKeeps<A, B(!new)>(f: A -> B, p: B -> bool, raw: seq<A>)
    ensures Keeps(f, p, Dedup(Filter(p, Map(f, raw))), raw)
  {
    if raw != [] {
      var init, last := raw[..|raw| - 1], raw[|raw| - 1];
      assert raw == init + [last];
      DedupKeeps(f, p, init);
      DedupSnoc(f, p, init, last);
      KeepsSnoc(f, p, Dedup(Filter(p, Map(f, init))), init, last);
      hide Dedup, Filter, Map, Keeps;
    }
  }

  lemma KeepsCongruent<A(!new), B(!new)>(f: A -> B, g: A -> B, p: B -> bool, q: B -> bool, kept: seq<B>, raw: seq<A>)
    requires forall a :: f(a) == g(a)
    requires forall b :: p(b) <==> q(b)
    requires Keeps(f, p, kept, raw)
    ensures Keeps(g, q, kept, raw)
  {
    forall k: nat, x ensures HitAt(f, raw, k, x) <==> HitAt(g, raw, k, x) {
    }
    hide HitAt;
    forall x, y | HitBefore(f, raw, x, y) ensures HitBefore(g, raw, x, y) {
      var k: nat :| HitAt(f, raw, k, x) && forall l: nat :: l <= k ==> !HitAt(f, raw, l, y);
      assert HitAt(g, raw, k, x);
    }
  }

  /** The loop with a `seen` set that keeps first occurrences. */
  method KeepFirst<T(==)>(values: seq<T>) returns (kept: seq<T>)
    ensures kept == Dedup(values)
  {
    kept := [];
    var seen: set<T> := {};
    for i := 0 to |values|
      invariant kept == Dedup(values[..i])
      invariant seen == set x | x in kept
    {
      assert values[..i + 1][..i] == values[..i];
      if values[i] in seen {
        continue;
      }
      kept, seen := kept + [values[i]], seen + {values[i]};
    }
    assert values[..|values|] == values;
  }

  // ----- grouping: the `setdefault(key, []).append(item)` loops -----

  /** The elements of s whose key is k, in order. */
  function Group<T, K(==)>(key: T -> K, k: K, s: seq<T>): seq<T> {
    if s == [] then []
    else
      var rest := Group(key, k, s[..|s| - 1]);
      if key(s[|s| - 1]) == k then rest + [s[|s| - 1]] else rest
  }

  lemma {:induction false} GroupMembers<T, K>(key: T -> K, k: K, s: seq<T>)
    ensures forall x :: x in Group(key, k, s) <==> x in s && key(x) == k
  {
    if s != [] {
      GroupMembers(key, k, s[..|s| - 1]);
      assert s == s[..|s| - 1] + [s[|s| - 1]];
    }
  }

  /** A group is what a filter for its key keeps. */
  lemma {:induction false} GroupIsFilter<T, K>(key: T -> K, k: K, s: seq<T>, p: T -> bool)
    requires forall x :: x in s ==> (p(x) <==> key(x) == k)
    ensures Group(key, k, s) == Filter(p, s)
  {
    if s != [] {
      var init, last := s[..|s| - 1], s[|s| - 1];
      assert last in s && forall x :: x in init ==> x in s;
      GroupIsFilter(key, k, init, p);
      assert Filter(p, init) + [] == Filter(p, init);
    }
  }

  lemma {:induction false} CountCongruent<T>(p: T -> bool, q: T -> bool, s: seq<T>)
    requires forall x :: x in s ==> (p(x) <==> q(x))
    ensures Count(p, s) == Count(q, s)
  {
    if s != [] {
      assert s[|s| - 1] in s && forall x :: x in s[..|s| - 1] ==> x in s;
      CountCongruent(p, q, s[..|s| - 1]);
    }
  }

  /** The keys of s in the order in which a dictionary first sees them. */
  function Keys<T, K(==)>(key: T -> K, s: seq<T>): seq<K> {
    Dedup(Map(key, s))
  }

  lemma KeysMeaning<T, K>(key: T -> K, s: seq<T>)
    ensures Distinct(Keys(key, s))
    ensures forall x :: x in s ==> key(x) in Keys(key, s)
    ensures forall k :: k in Keys(key, s) ==> exists i :: 0 <= i < |s| && key(s[i]) == k
  {
    var ks := Map(key, s);
    DedupMeaning(ks);
    forall x | x in s ensures key(x) in Keys(key, s) {
      var i :| 0 <= i < |s| && s[i] == x;
      assert ks[i] == key(x);
      assert key(x) in ks;
      assert key(x) in Dedup(ks);
    }
    forall k | k in Keys(key, s)
      ensures exists i :: 0 <= i < |s| && key(s[i]) == k
    {
      DedupMember(ks, k);
      var i :| 0 <= i < |ks| && ks[i] == k;
      assert key(s[i]) == k;
    }
  }

  lemma KeysSnoc<T, K>(key: T -> K, s: seq<T>, x: T)
    ensures Keys(key, s + [x])
         == if key(x) in Keys(key, s) then Keys(key, s) else Keys(key, s) + [key(x)]
  {
    assert (s + [x])[..|s|] == s;
    var ks := Map(key, s + [x]);
    assert ks == Map(key, s) + [key(x)];
    assert ks[..|s|] == Map(key, s);
  }

  lemma GroupNonEmpty<T, K>(key: T -> K, k: K, s: seq<T>)
    requires k in Keys(key, s)
    ensures Group(key, k, s) != []
  {
    KeysMeaning(key, s);
    var i :| 0 <= i < |s| && key(s[i]) == k;
    GroupMembers(key, k, s);
    assert s[i] in Group(key, k, s);
  }

  lemma {:induction false} GroupAppend<T, K>(key: T -> K, k: K, s: seq<T>, t: seq<T>)
    ensures Group(key, k, s + t) == Group(key, k, s) + Group(key, k, t)
  {
    if t == [] {
      assert s + t == s;
    } else {
      assert (s + t)[..|s + t| - 1] == s + t[..|t| - 1];
      GroupAppend(key, k, s, t[..|t| - 1]);
    }
  }

  lemma GroupAround<T, K>(key: T -> K, k: K, a: seq<T>, x: T, b: seq<T>)
    ensures multiset(Group(key, k, a + [x] + b))
         == multiset(Group(key, k, a + b)) + (if key(x) == k then multiset{x} else multiset{})
  {
    GroupAppend(key, k, a + [x], b);
    GroupAppend(key, k, a, [x]);
    GroupAppend(key, k, a, b);
    assert [x][..0] == [];
  }

  /** Reordering the input reorders each group. */
  lemma {:induction false} GroupPermutation<T, K>(key: T -> K, k: K, s: seq<T>, t: seq<T>)
    requires multiset(s) == multiset(t)
    ensures multiset(Group(key, k, s)) == multiset(Group(key, k, t))
    decreases |s|
  {
    assert |s| == |multiset(s)| == |t|;
    if s != [] {
      var last := s[|s| - 1];
      var init, a, b := TakeOut(s, t);
      GroupPermutation(key, k, init, a + b);
      GroupAround(key, k, a, last, b);
    }
  }

  lemma MultisetDropLast<T>(s: seq<T>)
    requires s != []
    ensures s == s[..|s| - 1] + [s[|s| - 1]]
    ensures multiset(s[..|s| - 1]) == multiset(s) - multiset{s[|s| - 1]}
  {
  }

  lemma FindElement<T>(t: seq<T>, x: T) returns (i: nat)
    requires x in multiset(t)
    ensures i < |t| && t[i] == x && t == t[..i] + [x] + t[i + 1..]
  {
    i :| 0 <= i < |t| && t[i] == x;
  }

  /** The last element of s has a counterpart in any permutation of s. */
  lemma TakeOut<T>(s: seq<T>, t: seq<T>) returns (init: seq<T>, a: seq<T>, b: seq<T>)
    requires s != [] && multiset(s) == multiset(t)
    ensures init == s[..|s| - 1] && s == init + [s[|s| - 1]]
    ensures t == a + [s[|s| - 1]] + b
    ensures multiset(init) == multiset(a + b)
  {
    MultisetDropLast(s);
    init := s[..|s| - 1];
    var i := FindElement(t, s[|s| - 1]);
    a, b := t[..i], t[i + 1..];
    MultisetRemove(t, i);
  }

  lemma {:induction false} MapAppend<A, B>(f: A -> B, s: seq<A>, t: seq<A>)
    ensures Map(f, s + t) == Map(f, s) + Map(f, t)
  {
    if t == [] {
      assert s + t == s;
    } else {
      assert (s + t)[..|s + t| - 1] == s + t[..|t| - 1];
      MapAppend(f, s, t[..|t| - 1]);
    }
  }

  lemma MapAround<A, B>(f: A -> B, a: seq<A>, x: A, b: seq<A>)
    ensures multiset(Map(f, a + [x] + b)) == multiset(Map(f, a + b)) + multiset{f(x)}
  {
    MapAppend(f, a + [x], b);
    MapAppend(f, a, [x]);
    MapAppend(f, a, b);
    assert Map(f, [x]) == [f(x)];
  }

  lemma {:induction false} MapPermutation<A, B>(f: A -> B, s: seq<A>, t: seq<A>)
    requires multiset(s) == multiset(t)
    ensures multiset(Map(f, s)) == multiset(Map(f, t))
    decreases |s|
  {
    assert |s| == |multiset(s)| == |t|;
    if s != [] {
      var last := s[|s| - 1];
      var init, a, b := TakeOut(s, t);
      MapPermutation(f, init, a + b);
      assert Map(f, s) == Map(f, init) + [f(last)];
      MapAround(f, a, last, b);
    }
  }

  lemma SumAround<T>(f: T -> real, a: seq<T>, x: T, b: seq<T>)
    ensures Sum(f, a + [x] + b) == Sum(f, a + b) + f(x)
  {
    SumAppend(f, a + [x], b);
    SumSnoc(f, a, x);
    SumAppend(f, a, b);
  }

  lemma TotalAround<T>(f: T -> int, a: seq<T>, x: T, b: seq<T>)
    ensures Total(f, a + [x] + b) == Total(f, a + b) + f(x)
  {
    TotalAppend(f, a + [x], b);
    TotalSnoc(f, a, x);
    TotalAppend(f, a, b);
  }

  /** Sums depend only on the elements, not on their order. */
  lemma {:induction false} SumPermutation<T>(f: T -> real, s: seq<T>, t: seq<T>)
    requires multiset(s) == multiset(t)
    ensures Sum(f, s) == Sum(f, t)
    decreases |s|
  {
    assert |s| == |multiset(s)| == |t|;
    if s != [] {
      var init, a, b := TakeOut(s, t);
      SumPermutation(f, init, a + b);
      SumAround(f, a, s[|s| - 1], b);
    }
  }

  lemma {:induction false} TotalPermutation<T>(f: T -> int, s: seq<T>, t: seq<T>)
    requires multiset(s) == multiset(t)
    ensures Total(f, s) == Total(f, t)
    decreases |s|
  {
    assert |s| == |multiset(s)| == |t|;
    if s != [] {
      var init, a, b := TakeOut(s, t);
      TotalPermutation(f, init, a + b);
      TotalAround(f, a, s[|s| - 1], b);
    }
  }

  /** When the outer key is a projection of the inner one, the inner groups refine the outer. */
  lemma {:induction false} NestedGroup<T, K, L>(inner: T -> K, outer: T -> L, project: K -> L, k: K, l: L, s: seq<T>)
    requires forall x :: x in s ==> outer(x) == project(inner(x))
    ensures Group(inner, k, Group(outer, l, s)) == if project(k) == l then Group(inner, k, s) else []
  {
    if s != [] {
      var init, last := s[..|s| - 1], s[|s| - 1];
      assert last in s && forall x :: x in init ==> x in s;
      NestedGroup(inner, outer, project, k, l, init);
      var g := Group(outer, l, init);
      assert (g + [last])[..|g|] == g;
    }
  }

  /** Concatenation of f over a sequence: nested loops that append. */
  function FlatMap<A, B>(f: A -> seq<B>, s: seq<A>): seq<B> {
    if s == [] then [] else FlatMap(f, s[..|s| - 1]) + f(s[|s| - 1])
  }

  lemma {:induction false} FlatMapAppend<A, B>(f: A -> seq<B>, s: seq<A>, t: seq<A>)
    ensures FlatMap(f, s + t) == FlatMap(f, s) + FlatMap(f, t)
  {
    if t == [] {
      assert s + t == s;
    } else {
      assert (s + t)[..|s + t| - 1] == s + t[..|t| - 1];
      FlatMapAppend(f, s, t[..|t| - 1]);
    }
  }

  lemma {:induction false} FlatMapMember<A(!new), B>(f: A -> seq<B>, s: seq<A>, y: B)
    ensures y in FlatMap(f, s) <==> exists x :: x in s && y in f(x)
  {
    if s != [] {
      var init, last := s[..|s| - 1], s[|s| - 1];
      FlatMapMember(f, init, y);
      assert s == init + [last];
      assert last in s;
    }
  }

  lemma FlatMapCons<A, B>(f: A -> seq<B>, x: A, s: seq<A>)
    ensures FlatMap(f, [x] + s) == f(x) + FlatMap(f, s)
  {
    FlatMapAppend(f, [x], s);
    assert [x][..0] == [];
    assert FlatMap(f, [x]) == [] + f(x) == f(x);
  }

  lemma FlatMapAround<A, B>(f: A -> seq<B>, a: seq<A>, x: A, b: seq<A>)
    ensures multiset(FlatMap(f, a + [x] + b)) == multiset(FlatMap(f, a + b)) + multiset(f(x))
  {
    FlatMapAppend(f, a + [x], b);
    FlatMapAppend(f, a, [x]);
    FlatMapAppend(f, a, b);
    assert [x][..0] == [];
    assert FlatMap(f, [x]) == f(x);
  }

  lemma {:induction false} FlatMapPermutation<A, B>(f: A -> seq<B>, s: seq<A>, t: seq<A>)
    requires multiset(s) == multiset(t)
    ensures multiset(FlatMap(f, s)) == multiset(FlatMap(f, t))
    decreases |s|
  {
    assert |s| == |multiset(s)| == |t|;
    if s != [] {
      var last := s[|s| - 1];
      var init, a, b := TakeOut(s, t);
      FlatMapPermutation(f, init, a + b);
      FlatMapAround(f, a, last, b);
    }
  }

  /** The scripts' grouping loop: file each item under its key, remembering the order of the keys. */
  method GroupInto<T, K(==)>(key: T -> K, s: seq<T>) returns (order: seq<K>, groups: map<K, seq<T>>)
    ensures order == Keys(key, s)
    ensures forall k :: k in groups <==> k in order
    ensures forall k :: k in groups ==> groups[k] == Group(key, k, s)
  {
    order, groups := [], map[];
    for i := 0 to |s|
      invariant order == Keys(key, s[..i])
      invariant forall k :: k in groups <==> k in order
      invariant forall k :: k in groups ==> groups[k] == Group(key, k, s[..i])
    {
      var k0 := key(s[i]);
      assert s[..i + 1][..i] == s[..i];
      KeysSnoc(key, s[..i], s[i]);
      PrefixStep(s, i);
      if k0 !in groups {
        GroupAbsent(key, k0, s[..i]);
        order := order + [k0];
        groups := groups[k0 := []];
      }
      groups := groups[k0 := groups[k0] + [s[i]]];
    }
    assert s[..|s|] == s;
  }

  /** A dictionary of group sizes, with the order in which its keys were first seen. */
  ghost predicate Tallied<T, K(!new)>(key: T -> K, s: seq<T>, order: seq<K>, counts: map<K, nat>) {
    && order == Keys(key, s)
    && (forall k :: k in counts <==> k in order)
    && (forall k :: k in counts ==> counts[k] == |Group(key, k, s)|)
  }

  lemma TallyStep<T, K(!new)>(key: T -> K, s: seq<T>, x: T, order: seq<K>, counts: map<K, nat>)
    requires Tallied(key, s, order, counts)
    ensures var k0 := key(x);
            Tallied(key, s + [x], if k0 in counts then order else order + [k0],
                    counts[k0 := (if k0 in counts then counts[k0] else 0) + 1])
  {
    var k0 := key(x);
    KeysSnoc(key, s, x);
    if k0 !in counts {
      GroupAbsent(key, k0, s);
    }
    assert (s + [x])[..|s|] == s;
    hide Keys;
  }

  /** The same loop when only the size of each group is kept. */
  method CountInto<T, K(==, !new)>(key: T -> K, s: seq<T>) returns (order: seq<K>, counts: map<K, nat>)
    ensures Tallied(key, s, order, counts)
  {
    order, counts := [], map[];
    for i := 0 to |s|
      invariant Tallied(key, s[..i], order, counts)
    {
      var k0 := key(s[i]);
      PrefixStep(s, i);
      TallyStep(key, s[..i], s[i], order, counts);
      hide Tallied;
      if k0 !in counts {
        order := order + [k0];
      }
      counts := counts[k0 := (if k0 in counts then counts[k0] else 0) + 1];
    }
    assert s[..|s|] == s;
  }

  lemma {:induction false} GroupAbsent<T, K>(key: T -> K, k: K, s: seq<T>)
    requires k !in Keys(key, s)
    ensures Group(key, k, s) == []
  {
    if s != [] {
      var init, last := s[..|s| - 1], s[|s| - 1];
      assert s == init + [last];
      KeysSnoc(key, init, last);
      GroupAbsent(key, k, init);
    }
  }

  /** Summing each group is a function of the group key. */
  function GroupSum<T, K(==)>(key: T -> K, f: T -> real, s: seq<T>): K -> real {
    k => Sum(f, Group(key, k, s))
  }

  function GroupTotal<T, K(==)>(key: T -> K, f: T -> int, s: seq<T>): K -> int {
    k => Total(f, Group(key, k, s))
  }

  lemma {:induction false} SumBump<K>(ks: seq<K>, g: K -> real, h: K -> real, k0: K, c: real)
    requires Distinct(ks)
    requires forall k :: k in ks ==> h(k) == g(k) + (if k == k0 then c else 0.0)
    ensures Sum(h, ks) == Sum(g, ks) + (if k0 in ks then c else 0.0)
  {
    if ks != [] {
      var init, last := ks[..|ks| - 1], ks[|ks| - 1];
      assert ks == init + [last];
      SumBump(init, g, h, k0, c);
    }
  }

  lemma {:induction false} TotalBump<K>(ks: seq<K>, g: K -> int, h: K -> int, k0: K, c: int)
    requires Distinct(ks)
    requires forall k :: k in ks ==> h(k) == g(k) + (if k == k0 then c else 0)
    ensures Total(h, ks) == Total(g, ks) + (if k0 in ks then c else 0)
  {
    if ks != [] {
      var init, last := ks[..|ks| - 1], ks[|ks| - 1];
      assert ks == init + [last];
      TotalBump(init, g, h, k0, c);
    }
  }

  lemma {:induction false} SumZero<K>(ks: seq<K>, h: K -> real)
    requires forall k :: k in ks ==> h(k) == 0.0
    ensures Sum(h, ks) == 0.0
  {
    if ks != [] {
      SumZero(ks[..|ks| - 1], h);
    }
  }

  lemma {:induction false} TotalZero<K>(ks: seq<K>, h: K -> int)
    requires forall k :: k in ks ==> h(k) == 0
    ensures Total(h, ks) == 0
  {
    if ks != [] {
      TotalZero(ks[..|ks| - 1], h);
    }
  }

  /** Re-aggregation: the group sums, over any enumeration of the keys, add up to the whole. */
  lemma {:induction false} GroupSumsToWhole<T, K>(key: T -> K, f: T -> real, s: seq<T>, ks: seq<K>)
    requires Distinct(ks)
    requires forall x :: x in s ==> key(x) in ks
    ensures Sum(GroupSum(key, f, s), ks) == Sum(f, s)
  {
    var h := GroupSum(key, f, s);
    if s == [] {
      SumZero(ks, h);
    } else {
      var init, last := s[..|s| - 1], s[|s| - 1];
      assert s == init + [last];
      GroupSumsToWhole(key, f, init, ks);
      var g := GroupSum(key, f, init);
      forall k | k in ks ensures h(k) == g(k) + (if k == key(last) then f(last) else 0.0) {
        SumSnoc(f, Group(key, k, init), last);
      }
      SumBump(ks, g, h, key(last), f(last));
    }
  }

  lemma {:induction false} GroupTotalsToWhole<T, K>(key: T -> K, f: T -> int, s: seq<T>, ks: seq<K>)
    requires Distinct(ks)
    requires forall x :: x in s ==> key(x) in ks
    ensures Total(GroupTotal(key, f, s), ks) == Total(f, s)
  {
    var h := GroupTotal(key, f, s);
    if s == [] {
      TotalZero(ks, h);
    } else {
      var init, last := s[..|s| - 1], s[|s| - 1];
      assert s == init + [last];
      GroupTotalsToWhole(key, f, init, ks);
      var g := GroupTotal(key, f, init);
      forall k | k in ks ensures h(k) == g(k) + (if k == key(last) then f(last) else 0) {
        TotalSnoc(f, Group(key, k, init), last);
      }
      TotalBump(ks, g, h, key(last), f(last));
    }
  }

  /** All groups laid end to end, in the order of ks. */
  function Regrouped<T, K(==)>(key: T -> K, s: seq<T>, ks: seq<K>): seq<T> {
    if ks == [] then [] else Regrouped(key, s, ks[..|ks| - 1]) + Group(key, ks[|ks| - 1], s)
  }

  lemma {:induction false} RegroupedSnoc<T, K>(key: T -> K, s: seq<T>, x: T, ks: seq<K>)
    requires Distinct(ks)
    ensures multiset(Regrouped(key, s + [x], ks))
         == multiset(Regrouped(key, s, ks)) + (if key(x) in ks then multiset{x} else multiset{})
  {
    if ks != [] {
      var init, last := ks[..|ks| - 1], ks[|ks| - 1];
      assert ks == init + [last];
      RegroupedSnoc(key, s, x, init);
      assert (s + [x])[..|s|] == s;
    }
  }

  /** The groups partition the sequence: laid end to end they are a permutation of it. */
  lemma {:induction false} GroupsPartition<T, K>(key: T -> K, s: seq<T>, ks: seq<K>)
    requires Distinct(ks)
    requires forall x :: x in s ==> key(x) in ks
    ensures multiset(Regrouped(key, s, ks)) == multiset(s)
  {
    if s == [] {
      RegroupedEmpty(key, s, ks);
    } else {
      var init, last := s[..|s| - 1], s[|s| - 1];
      assert s == init + [last];
      GroupsPartition(key, init, ks);
      RegroupedSnoc(key, init, last, ks);
    }
  }

  lemma {:induction false} RegroupedEmpty<T, K>(key: T -> K, s: seq<T>, ks: seq<K>)
    requires s == []
    ensures Regrouped(key, s, ks) == []
  {
    if ks != [] {
      RegroupedEmpty(key, s, ks[..|ks| - 1]);
    }
  }
}
