/** Python's `sorted`: a stable sort by a total preorder, and the string order it uses. */
module Ordering {
  import opened Sequences

  ghost predicate TotalPreorder<T(!new)>(le: (T, T) -> bool) {
    && (forall x, y :: le(x, y) || le(y, x))
    && (forall x, y, z :: le(x, y) && le(y, z) ==> le(x, z))
  }

  ghost predicate Antisymmetric<T(!new)>(le: (T, T) -> bool) {
    forall x, y :: le(x, y) && le(y, x) ==> x == y
  }

  ghost predicate Sorted<T(!new)>(le: (T, T) -> bool, s: seq<T>) {
    forall i, j :: 0 <= i < j < |s| ==> le(s[i], s[j])
  }

  /** Puts x after every element that may stand before it. */
  function Insert<T>(le: (T, T) -> bool, s: seq<T>, x: T): seq<T> {
    if s == [] then [x]
    else if le(s[|s| - 1], x) then s + [x]
    else Insert(le, s[..|s| - 1], x) + [s[|s| - 1]]
  }

  function Sort<T>(le: (T, T) -> bool, s: seq<T>): seq<T> {
    if s == [] then [] else Insert(le, Sort(le, s[..|s| - 1]), s[|s| - 1])
  }

  lemma {:induction false} InsertPermutes<T>(le: (T, T) -> bool, s: seq<T>, x: T)
    ensures multiset(Insert(le, s, x)) == multiset(s) + multiset{x}
  {
    if s != [] && !le(s[|s| - 1], x) {
      var init, last := s[..|s| - 1], s[|s| - 1];
      InsertPermutes(le, init, x);
      MultisetDropLast(s);
      assert multiset(Insert(le, s, x)) == multiset(Insert(le, init, x)) + multiset{last};
    }
  }

  lemma {:induction false} InsertSorted<T(!new)>(le: (T, T) -> bool, s: seq<T>, x: T)
    requires TotalPreorder(le) && Sorted(le, s)
    ensures Sorted(le, Insert(le, s, x))
  {
    if s != [] && !le(s[|s| - 1], x) {
      var init, last := s[..|s| - 1], s[|s| - 1];
      InsertSorted(le, init, x);
      InsertPermutes(le, init, x);
      var r := Insert(le, init, x);
      forall i | 0 <= i < |r| ensures le(r[i], last) {
        assert r[i] in multiset(r);
        assert r[i] in init || r[i] == x;
      }
    }
  }

  lemma {:induction false} SortPermutes<T>(le: (T, T) -> bool, s: seq<T>)
    ensures multiset(Sort(le, s)) == multiset(s)
    ensures |Sort(le, s)| == |s|
  {
    if s != [] {
      var init, last := s[..|s| - 1], s[|s| - 1];
      SortPermutes(le, init);
      InsertPermutes(le, Sort(le, init), last);
      MultisetDropLast(s);
    }
    assert |Sort(le, s)| == |multiset(Sort(le, s))| == |multiset(s)|;
  }

  lemma SortMember<T>(le: (T, T) -> bool, s: seq<T>, x: T)
    ensures x in Sort(le, s) <==> x in s
  {
    SortPermutes(le, s);
    assert x in Sort(le, s) <==> x in multiset(Sort(le, s));
  }

  lemma {:induction false} SortSorted<T(!new)>(le: (T, T) -> bool, s: seq<T>)
    requires TotalPreorder(le)
    ensures Sorted(le, Sort(le, s))
  {
    if s != [] {
      SortSorted(le, s[..|s| - 1]);
      InsertSorted(le, Sort(le, s[..|s| - 1]), s[|s| - 1]);
    }
  }

  /** A sequence that is already sorted is left as it is. */
  lemma {:induction false} SortIdentity<T(!new)>(le: (T, T) -> bool, s: seq<T>)
    requires Sorted(le, s)
    ensures Sort(le, s) == s
  {
    if s != [] {
      var init, last := s[..|s| - 1], s[|s| - 1];
      SortIdentity(le, init);
      assert s == init + [last];
      assert init != [] ==> le(init[|init| - 1], last);
    }
  }

  lemma {:induction false} InsertStable<T>(le: (T, T) -> bool, p: T -> bool, s: seq<T>, x: T)
    requires forall y, z :: (y in s || y == x) && (z in s || z == x) && p(y) && p(z) ==> le(y, z)
    ensures Filter(p, Insert(le, s, x)) == Filter(p, s) + (if p(x) then [x] else [])
  {
    if s == [] || le(s[|s| - 1], x) {
      FilterSnoc(p, s, x);
      assert [] + [x] == [x];
    } else {
      var init, last := s[..|s| - 1], s[|s| - 1];
      assert last in s && forall y :: y in init ==> y in s;
      assert !(p(x) && p(last));
      InsertStable(le, p, init, x);
      FilterSnoc(p, Insert(le, init, x), last);
    }
  }

  /** The sort is stable: elements that tie with each other keep their order. */
  lemma {:induction false} SortStable<T>(le: (T, T) -> bool, p: T -> bool, s: seq<T>)
    requires forall y, z :: y in s && z in s && p(y) && p(z) ==> le(y, z)
    ensures Filter(p, Sort(le, s)) == Filter(p, s)
  {
    if s != [] {
      var init, last := s[..|s| - 1], s[|s| - 1];
      assert last in s && forall y :: y in init ==> y in s;
      SortStable(le, p, init);
      forall y | y in Sort(le, init) ensures y in init {
        SortMember(le, init, y);
      }
      InsertStable(le, p, Sort(le, init), last);
    }
  }

  /** Elements that tie are the same element. */
  ghost predicate TiesIdentical<T(!new)>(le: (T, T) -> bool, s: seq<T>) {
    forall x, y :: x in s && y in s && le(x, y) && le(y, x) ==> x == y
  }

  lemma LastIsGreatest<T(!new)>(le: (T, T) -> bool, s: seq<T>, x: T)
    requires TotalPreorder(le) && Sorted(le, s) && x in s
    ensures le(x, s[|s| - 1])
  {
    var i :| 0 <= i < |s| && s[i] == x;
    assert le(s[|s| - 1], s[|s| - 1]);
  }

  lemma FirstIsLeast<T(!new)>(le: (T, T) -> bool, s: seq<T>, x: T)
    requires TotalPreorder(le) && Sorted(le, s) && x in s
    ensures le(s[0], x)
  {
    var i :| 0 <= i < |s| && s[i] == x;
    assert le(s[0], s[0]);
  }

  lemma PrefixKeeps<T(!new)>(le: (T, T) -> bool, s: seq<T>, n: nat)
    requires n <= |s|
    ensures Sorted(le, s) ==> Sorted(le, s[..n])
    ensures TiesIdentical(le, s) ==> TiesIdentical(le, s[..n])
  {
    assert forall x :: x in s[..n] ==> x in s;
  }

  lemma SortedLastAgree<T(!new)>(le: (T, T) -> bool, s: seq<T>, t: seq<T>)
    requires TotalPreorder(le) && Sorted(le, s) && Sorted(le, t)
    requires s != [] && t != [] && multiset(s) == multiset(t)
    requires TiesIdentical(le, s)
    ensures s[|s| - 1] == t[|t| - 1]
  {
    var x, y := s[|s| - 1], t[|t| - 1];
    assert x in multiset(t) && y in multiset(s);
    LastIsGreatest(le, s, y);
    LastIsGreatest(le, t, x);
  }

  lemma DropLastPermutes<T>(s: seq<T>, t: seq<T>)
    requires s != [] && t != [] && multiset(s) == multiset(t)
    requires s[|s| - 1] == t[|t| - 1]
    ensures multiset(s[..|s| - 1]) == multiset(t[..|t| - 1])
  {
    assert s == s[..|s| - 1] + [s[|s| - 1]];
    assert t == t[..|t| - 1] + [t[|t| - 1]];
    assert multiset(s[..|s| - 1]) == multiset(s) - multiset{s[|s| - 1]};
    assert multiset(t[..|t| - 1]) == multiset(t) - multiset{t[|t| - 1]};
  }

  /** Two sorted arrangements of the same elements agree, when ties are identical. */
  lemma {:induction false} SortedUnique<T(!new)>(le: (T, T) -> bool, s: seq<T>, t: seq<T>)
    requires TotalPreorder(le) && Sorted(le, s) && Sorted(le, t)
    requires multiset(s) == multiset(t)
    requires TiesIdentical(le, s)
    ensures s == t
  {
    assert |s| == |multiset(s)| == |multiset(t)| == |t|;
    if s != [] {
      var n := |s| - 1;
      SortedLastAgree(le, s, t);
      DropLastPermutes(s, t);
      PrefixKeeps(le, s, n);
      PrefixKeeps(le, t, n);
      SortedUnique(le, s[..n], t[..n]);
      assert s == s[..n] + [s[n]] && t == t[..n] + [t[n]];
    }
  }

  /** Sorting forgets the input order. */
  lemma SortInvariant<T(!new)>(le: (T, T) -> bool, s: seq<T>, t: seq<T>)
    requires TotalPreorder(le)
    requires multiset(s) == multiset(t)
    requires TiesIdentical(le, s)
    ensures Sort(le, s) == Sort(le, t)
  {
    SortPermutes(le, s);
    SortPermutes(le, t);
    SortSorted(le, s);
    SortSorted(le, t);
    forall x | x in Sort(le, s) ensures x in s {
      SortMember(le, s, x);
    }
    SortedUnique(le, Sort(le, s), Sort(le, t));
  }

  // ----- sorting with ties -----

  /** The elements that tie with x. */
  predicate Ties<T>(le: (T, T) -> bool, x: T, y: T) {
    le(x, y) && le(y, x)
  }

  function TieOf<T>(le: (T, T) -> bool, x: T): T -> bool {
    (y: T) => Ties(le, x, y)
  }

  /** Every class of tying elements stands in the same order in s and in t. */
  ghost predicate SameTies<T(!new)>(le: (T, T) -> bool, s: seq<T>, t: seq<T>) {
    forall x :: Filter(TieOf(le, x), s) == Filter(TieOf(le, x), t)
  }

  lemma TieMember<T(!new)>(le: (T, T) -> bool, s: seq<T>, t: seq<T>, x: T)
    requires TotalPreorder(le) && SameTies(le, s, t) && x in s
    ensures x in t
  {
    assert Ties(le, x, x);
    FilterMembers(TieOf(le, x), s);
    FilterMembers(TieOf(le, x), t);
    assert x in Filter(TieOf(le, x), t);
  }

  lemma SameLast<T(!new)>(le: (T, T) -> bool, s: seq<T>, t: seq<T>)
    requires TotalPreorder(le) && Sorted(le, s) && Sorted(le, t) && SameTies(le, s, t)
    requires s != [] && t != []
    ensures s[|s| - 1] == t[|t| - 1]
    ensures SameTies(le, s[..|s| - 1], t[..|t| - 1])
  {
    var x, y := s[|s| - 1], t[|t| - 1];
    assert x in s && y in t;
    TieMember(le, s, t, x);
    TieMember(le, t, s, y);
    LastIsGreatest(le, t, x);
    LastIsGreatest(le, s, y);
    assert Ties(le, x, x) && Ties(le, x, y);
    var a, b := Filter(TieOf(le, x), s[..|s| - 1]), Filter(TieOf(le, x), t[..|t| - 1]);
    assert Filter(TieOf(le, x), s) == a + [x] && Filter(TieOf(le, x), t) == b + [y];
    SnocInjective(a, x, b, y);
    forall z ensures Filter(TieOf(le, z), s[..|s| - 1]) == Filter(TieOf(le, z), t[..|t| - 1]) {
      var c, d := Filter(TieOf(le, z), s[..|s| - 1]), Filter(TieOf(le, z), t[..|t| - 1]);
      assert Filter(TieOf(le, z), s) == Filter(TieOf(le, z), t);
      if Ties(le, z, x) {
        SnocInjective(c, x, d, x);
      } else {
        assert c + [] == c && d + [] == d;
      }
    }
  }

  lemma SnocInjective<T>(a: seq<T>, x: T, b: seq<T>, y: T)
    requires a + [x] == b + [y]
    ensures a == b && x == y
  {
    assert |a + [x]| == |b + [y]|;
    assert (a + [x])[..|a|] == a && (b + [y])[..|b|] == b;
    assert (a + [x])[|a|] == x && (b + [y])[|b|] == y;
  }

  /** Two sorted sequences in which all classes of ties agree are equal. */
  lemma {:induction false} SortedTiesUnique<T(!new)>(le: (T, T) -> bool, s: seq<T>, t: seq<T>)
    requires TotalPreorder(le) && Sorted(le, s) && Sorted(le, t) && SameTies(le, s, t)
    ensures s == t
  {
    if s != [] {
      TieMember(le, s, t, s[0]);
      SameLast(le, s, t);
      SortedTiesUnique(le, s[..|s| - 1], t[..|t| - 1]);
      assert s == s[..|s| - 1] + [s[|s| - 1]] && t == t[..|t| - 1] + [t[|t| - 1]];
    } else if t != [] {
      TieMember(le, t, s, t[0]);
    }
  }

  /** Sorting depends on the input order only through the order inside each class of ties. */
  lemma SortTiesInvariant<T(!new)>(le: (T, T) -> bool, s: seq<T>, t: seq<T>)
    requires TotalPreorder(le) && SameTies(le, s, t)
    ensures Sort(le, s) == Sort(le, t)
  {
    SortSorted(le, s);
    SortSorted(le, t);
    forall x ensures Filter(TieOf(le, x), Sort(le, s)) == Filter(TieOf(le, x), Sort(le, t)) {
      SortStable(le, TieOf(le, x), s);
      SortStable(le, TieOf(le, x), t);
      assert Filter(TieOf(le, x), s) == Filter(TieOf(le, x), t);
    }
    SortedTiesUnique(le, Sort(le, s), Sort(le, t));
  }

  /** The k-th element is the first of the least ones. */
  ghost predicate Leads<T(!new)>(le: (T, T) -> bool, s: seq<T>, k: nat) {
    k < |s| && forall i :: 0 <= i < |s| ==> le(s[k], s[i]) && (i < k ==> !le(s[i], s[k]))
  }

  lemma {:induction false} FilterHead<T>(p: T -> bool, s: seq<T>, k: nat)
    requires k < |s| && p(s[k]) && forall i :: 0 <= i < k ==> !p(s[i])
    ensures Filter(p, s) != [] && Filter(p, s)[0] == s[k]
  {
    var init := s[..|s| - 1];
    if k < |init| {
      FilterHead(p, init, k);
    } else {
      FilterEmpty(p, init);
    }
  }

  /** A stable sort puts the first of the least elements in front. */
  lemma SortHead<T(!new)>(le: (T, T) -> bool, s: seq<T>, k: nat)
    requires TotalPreorder(le) && Leads(le, s, k)
    ensures |Sort(le, s)| == |s| && Sort(le, s)[0] == s[k]
  {
    SortPermutes(le, s);
    SortSorted(le, s);
    SortMember(le, s, s[k]);
    SortMember(le, s, Sort(le, s)[0]);
    FirstIsLeast(le, Sort(le, s), s[k]);
    var head := Sort(le, s)[0];
    assert Ties(le, head, head) && Ties(le, head, s[k]);
    SortStable(le, TieOf(le, head), s);
    FilterHead(TieOf(le, head), s, k);
    FilterHead(TieOf(le, head), Sort(le, s), 0);
  }

  /** Every non-empty sequence has such an element. */
  lemma {:induction false} SomeLeads<T(!new)>(le: (T, T) -> bool, s: seq<T>) returns (k: nat)
    requires TotalPreorder(le) && s != []
    ensures Leads(le, s, k)
  {
    var init, last := s[..|s| - 1], |s| - 1;
    if init == [] {
      k := 0;
      assert le(s[0], s[0]);
    } else {
      k := SomeLeads(le, init);
      assert forall i :: 0 <= i < |init| ==> init[i] == s[i];
      if !le(s[k], s[last]) {
        k := last;
        assert le(s[last], s[last]);
      }
    }
  }

  // ----- strings -----

  /** Python's `<=` on strings: lexicographic by code point. */
  predicate StringLe(a: string, b: string) {
    a == [] || (b != [] && (a[0] < b[0] || (a[0] == b[0] && StringLe(a[1..], b[1..]))))
  }

  lemma {:induction false} StringLeTotal(a: string, b: string)
    ensures StringLe(a, b) || StringLe(b, a)
  {
    if a != [] && b != [] && a[0] == b[0] {
      StringLeTotal(a[1..], b[1..]);
    }
  }

  lemma {:induction false} StringLeTransitive(a: string, b: string, c: string)
    requires StringLe(a, b) && StringLe(b, c)
    ensures StringLe(a, c)
  {
    if a != [] && a[0] == b[0] == c[0] {
      StringLeTransitive(a[1..], b[1..], c[1..]);
    }
  }

  lemma {:induction false} StringLeAntisymmetric(a: string, b: string)
    requires StringLe(a, b) && StringLe(b, a)
    ensures a == b
  {
    if a != [] {
      StringLeAntisymmetric(a[1..], b[1..]);
      assert a == [a[0]] + a[1..] && b == [b[0]] + b[1..];
    }
  }

  lemma StringLeOrder()
    ensures TotalPreorder(StringLe) && Antisymmetric(StringLe)
  {
    forall x, y ensures StringLe(x, y) || StringLe(y, x) {
      StringLeTotal(x, y);
    }
    forall x, y, z | StringLe(x, y) && StringLe(y, z) ensures StringLe(x, z) {
      StringLeTransitive(x, y, z);
    }
    forall x, y | StringLe(x, y) && StringLe(y, x) ensures x == y {
      StringLeAntisymmetric(x, y);
    }
  }

  /** a is a prefix of b, or smaller at the first place where they differ. */
  lemma {:induction false} StringLeMeaning(a: string, b: string)
    ensures StringLe(a, b) <==> a <= b || exists i :: 0 <= i < |a| && i < |b| && a[..i] == b[..i] && a[i] < b[i]
  {
    if a != [] && b != [] && a[0] == b[0] {
      StringLeMeaning(a[1..], b[1..]);
      assert a == [a[0]] + a[1..] && b == [b[0]] + b[1..];
      assert a <= b <==> a[1..] <= b[1..];
      if i :| 0 <= i < |a| && i < |b| && a[..i] == b[..i] && a[i] < b[i] {
        assert a[1..][..i - 1] == a[..i][1..] && b[1..][..i - 1] == b[..i][1..];
        assert a[1..][i - 1] < b[1..][i - 1];
      }
      if i :| 0 <= i < |a| - 1 && i < |b| - 1 && a[1..][..i] == b[1..][..i] && a[1..][i] < b[1..][i] {
        assert a[..i + 1] == [a[0]] + a[1..][..i] && b[..i + 1] == [b[0]] + b[1..][..i];
        assert a[i + 1] < b[i + 1];
      }
    } else if a != [] && b != [] {
      assert a[..0] == b[..0];
    }
  }

  // ----- `sorted(set(...))` -----

  ghost predicate StrictlySorted<T(!new)>(le: (T, T) -> bool, s: seq<T>) {
    Sorted(le, s) && Distinct(s)
  }

  function SortedSet<T(==)>(le: (T, T) -> bool, s: seq<T>): seq<T> {
    Sort(le, Dedup(s))
  }

  lemma {:induction false} DistinctMultiplicity<T>(s: seq<T>)
    requires Distinct(s)
    ensures forall x :: x in s ==> multiset(s)[x] == 1
  {
    if s != [] {
      var init, last := s[..|s| - 1], s[|s| - 1];
      DistinctMultiplicity(init);
      assert s == init + [last];
      assert last !in init;
    }
  }

  lemma OccurrencesCounted<T>(t: seq<T>, i: nat, j: nat)
    requires i < j < |t|
    ensures multiset(t)[t[j]] >= 1 + (if t[i] == t[j] then 1 else 0)
  {
    assert t == t[..j] + [t[j]] + t[j + 1..];
    assert t[..j][i] in multiset(t[..j]);
  }

  /** Distinctness is about multiplicities, so it survives reordering. */
  lemma DistinctPermutation<T>(s: seq<T>, t: seq<T>)
    requires Distinct(s) && multiset(s) == multiset(t)
    ensures Distinct(t)
  {
    DistinctMultiplicity(s);
    forall i, j | 0 <= i < j < |t| ensures t[i] != t[j] {
      OccurrencesCounted(t, i, j);
      assert t[j] in multiset(s);
    }
  }

  lemma SortedSetMeaning<T(!new)>(le: (T, T) -> bool, s: seq<T>)
    requires TotalPreorder(le)
    ensures StrictlySorted(le, SortedSet(le, s))
    ensures forall x :: x in SortedSet(le, s) <==> x in s
  {
    DedupMeaning(s);
    SortSorted(le, Dedup(s));
    SortPermutes(le, Dedup(s));
    DistinctPermutation(Dedup(s), SortedSet(le, s));
    forall x ensures x in SortedSet(le, s) <==> x in s {
      SortMember(le, Dedup(s), x);
      DedupMember(s, x);
    }
  }

  lemma DistinctSameMembers<T>(s: seq<T>, t: seq<T>)
    requires Distinct(s) && Distinct(t)
    requires forall x :: x in s <==> x in t
    ensures multiset(s) == multiset(t)
  {
    DistinctMultiplicity(s);
    DistinctMultiplicity(t);
    forall x ensures multiset(s)[x] == multiset(t)[x] {
      if x in s {
        assert x in t;
      } else {
        assert x !in multiset(s) && x !in multiset(t);
      }
    }
  }

  /** A strictly sorted sequence is determined by its set of elements. */
  lemma StrictlySortedUnique<T(!new)>(le: (T, T) -> bool, s: seq<T>, t: seq<T>)
    requires TotalPreorder(le) && Antisymmetric(le)
    requires StrictlySorted(le, s) && StrictlySorted(le, t)
    requires forall x :: x in s <==> x in t
    ensures s == t
  {
    DistinctSameMembers(s, t);
    SortedUnique(le, s, t);
  }
}
