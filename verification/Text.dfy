/** The Python string operations the scripts lean on. */
module Text {
  import opened Prelude
  import opened Sequences

  /** The characters `str.strip` removes. */
  predicate IsSpace(c: char) {
    var n := c as int;
    9 <= n <= 13 || 28 <= n <= 32 || n == 0x85 || n == 0xA0 || n == 0x1680
    || 0x2000 <= n <= 0x200A || n == 0x2028 || n == 0x2029 || n == 0x202F || n == 0x205F || n == 0x3000
  }

  /** The characters `str.splitlines` breaks at; each of them is a space. */
  predicate IsLineBreak(c: char) {
    var n := c as int;
    10 <= n <= 13 || 28 <= n <= 30 || n == 0x85 || n == 0x2028 || n == 0x2029
  }

  predicate IsNonEmpty(s: string) {
    s != ""
  }

  predicate IsComma(c: char) {
    c == ','
  }

  function TrimLeft(s: string): string {
    if s != [] && IsSpace(s[0]) then TrimLeft(s[1..]) else s
  }

  function TrimRight(s: string): string {
    if s != [] && IsSpace(s[|s| - 1]) then TrimRight(s[..|s| - 1]) else s
  }

  function Strip(s: string): string {
    TrimRight(TrimLeft(s))
  }

  /** Neither end is a space. */
  predicate Clean(s: string) {
    s == [] || (!IsSpace(s[0]) && !IsSpace(s[|s| - 1]))
  }

  /** The trimmed texts, without blanks and repetitions, at their first occurrence. */
  function CleanList(raw: seq<string>): seq<string> {
    Dedup(Filter(IsNonEmpty, Map(Strip, raw)))
  }

  /** The kept texts are the distinct non-blank trimmed ones, in the order of first occurrence. */
  ghost predicate Trims(kept: seq<string>, raw: seq<string>) {
    Keeps(Strip, IsNonEmpty, kept, raw)
  }

  lemma CleanListTrims(raw: seq<string>)
    ensures Trims(CleanList(raw), raw)
  {
    DedupKeeps(Strip, IsNonEmpty, raw);
  }

  lemma StripFixed(s: string)
    requires Clean(s)
    ensures Strip(s) == s
  {
  }

  lemma {:induction false} TrimLeftShape(s: string) returns (a: string)
    ensures s == a + TrimLeft(s)
    ensures forall c :: c in a ==> IsSpace(c)
    ensures TrimLeft(s) == [] || !IsSpace(TrimLeft(s)[0])
  {
    hide IsSpace;
    if s != [] && IsSpace(s[0]) {
      var b := TrimLeftShape(s[1..]);
      a := [s[0]] + b;
      assert s == [s[0]] + s[1..];
    } else {
      a := [];
    }
  }

  lemma {:induction false} TrimRightShape(s: string) returns (b: string)
    ensures s == TrimRight(s) + b
    ensures forall c :: c in b ==> IsSpace(c)
    ensures TrimRight(s) == [] || !IsSpace(TrimRight(s)[|TrimRight(s)| - 1])
  {
    hide IsSpace;
    if s != [] && IsSpace(s[|s| - 1]) {
      var a := TrimRightShape(s[..|s| - 1]);
      b := a + [s[|s| - 1]];
      assert s == s[..|s| - 1] + [s[|s| - 1]];
    } else {
      b := [];
    }
  }

  /** `strip` removes spaces at the two ends and nothing else. */
  lemma StripShape(s: string) returns (a: string, b: string)
    ensures s == a + Strip(s) + b
    ensures forall c :: c in a || c in b ==> IsSpace(c)
    ensures Clean(Strip(s))
  {
    hide IsSpace;
    a := TrimLeftShape(s);
    b := TrimRightShape(TrimLeft(s));
    var t := TrimLeft(s);
    assert Strip(s) != [] ==> Strip(s)[0] == t[0];
  }

  lemma StripIdempotent(s: string)
    ensures Strip(Strip(s)) == Strip(s)
    ensures Clean(Strip(s))
  {
    var a, b := StripShape(s);
    StripFixed(Strip(s));
  }

  lemma {:induction false} TrimLeftPadded(a: string, t: string)
    requires t != [] && !IsSpace(t[0]) && forall c :: c in a ==> IsSpace(c)
    ensures TrimLeft(a + t) == t
  {
    if a == [] {
      assert a + t == t;
    } else {
      assert (a + t)[1..] == a[1..] + t;
      assert a[0] in a;
      TrimLeftPadded(a[1..], t);
    }
  }

  lemma {:induction false} TrimRightPadded(t: string, b: string)
    requires t != [] && !IsSpace(t[|t| - 1]) && forall c :: c in b ==> IsSpace(c)
    ensures TrimRight(t + b) == t
  {
    if b == [] {
      assert t + b == t;
    } else {
      var s := t + b;
      assert s[..|s| - 1] == t + b[..|b| - 1];
      assert b[|b| - 1] in b;
      TrimRightPadded(t, b[..|b| - 1]);
    }
  }

  lemma StripPadded(a: string, t: string, b: string)
    requires t != [] && Clean(t)
    requires forall c :: c in a || c in b ==> IsSpace(c)
    ensures Strip(a + t + b) == t
  {
    assert a + t + b == a + (t + b);
    TrimLeftPadded(a, t + b);
    TrimRightPadded(t, b);
  }

  /** Cuts the text at every character satisfying p. */
  function SplitBy(p: char -> bool, s: string): (parts: seq<string>)
    ensures parts != []
  {
    if s == [] then [""]
    else
      var rest := SplitBy(p, s[1..]);
      if p(s[0]) then [""] + rest else [[s[0]] + rest[0]] + rest[1..]
  }

  lemma {:induction false} SplitFirst(p: char -> bool, a: string, c: char, b: string)
    requires p(c) && forall x :: x in a ==> !p(x)
    ensures SplitBy(p, a + [c] + b) == [a] + SplitBy(p, b)
  {
    if a == [] {
      assert ([c] + b)[1..] == b;
      assert a + [c] + b == [c] + b;
    } else {
      assert (a + [c] + b)[1..] == a[1..] + [c] + b;
      assert a[0] in a;
      SplitFirst(p, a[1..], c, b);
      assert [a[0]] + a[1..] == a;
    }
  }

  lemma {:induction false} SplitWhole(p: char -> bool, a: string)
    requires forall x :: x in a ==> !p(x)
    ensures SplitBy(p, a) == [a]
  {
    if a != [] {
      assert a[0] in a;
      SplitWhole(p, a[1..]);
      assert [a[0]] + a[1..] == a;
    }
  }

  /** `separator.join(words)`. */
  function Join(separator: string, words: seq<string>): string {
    if words == [] then ""
    else if |words| == 1 then words[0]
    else words[0] + separator + Join(separator, words[1..])
  }

  /** Position of the first c, or |s|. */
  function IndexOf(s: string, c: char): (i: nat)
    ensures i <= |s|
    ensures i < |s| ==> s[i] == c
    ensures forall j :: 0 <= j < i ==> s[j] != c
  {
    if s == [] || s[0] == c then 0 else 1 + IndexOf(s[1..], c)
  }

  /** `s.partition(c)`: the text before and after the first c. */
  function Partition(s: string, c: char): (string, string) {
    var i := IndexOf(s, c);
    if i < |s| then (s[..i], s[i + 1..]) else (s, "")
  }

  lemma PartitionAt(a: string, c: char, b: string)
    requires c !in a
    ensures Partition(a + [c] + b, c) == (a, b)
  {
    var s := a + [c] + b;
    var i := IndexOf(s, c);
    assert s[|a|] == c;
    assert forall j :: 0 <= j < |a| ==> s[j] in a;
    assert s[..|a|] == a && s[|a| + 1..] == b;
  }

  predicate OccursAt(s: string, m: string, i: nat) {
    i + |m| <= |s| && forall k :: 0 <= k < |m| ==> s[i + k] == m[k]
  }

  /** Python's `m in s`. */
  predicate Contains(s: string, m: string) {
    exists i :: 0 <= i <= |s| && OccursAt(s, m, i)
  }

  lemma ContainsWiden(a: string, s: string, b: string, m: string)
    requires Contains(s, m)
    ensures Contains(a + s + b, m)
  {
    var i :| 0 <= i <= |s| && OccursAt(s, m, i);
    assert OccursAt(a + s + b, m, |a| + i);
  }

  lemma Itself(s: string)
    ensures Contains(s, s)
  {
    assert OccursAt(s, s, 0);
  }

  /** A match whose last character does not occur behind it lies before. */
  lemma ContainsBefore(a: string, b: string, m: string)
    requires m != "" && m[|m| - 1] !in b && Contains(a + b, m)
    ensures Contains(a, m)
  {
    var i :| 0 <= i <= |a + b| && OccursAt(a + b, m, i);
    assert (a + b)[i + (|m| - 1)] == m[|m| - 1];
    assert OccursAt(a, m, i);
  }

  /** The match cannot start in a. */
  predicate NoStart(a: string, m: string) {
    |m| >= 2 && (a == "" || a[|a| - 1] != m[0])
    && forall i :: 0 <= i < |a| - 1 ==> !(a[i] == m[0] && a[i + 1] == m[1])
  }

  lemma ContainsAfter(a: string, b: string, m: string)
    requires NoStart(a, m) && Contains(a + b, m)
    ensures Contains(b, m)
  {
    var s := a + b;
    var i :| 0 <= i <= |s| && OccursAt(s, m, i);
    assert s[i + 0] == m[0] && s[i + 1] == m[1];
    assert OccursAt(b, m, i - |a|);
  }

  /** A match that avoids a separator lies on one side of it. */
  lemma ContainsSide(a: string, c: char, b: string, m: string)
    requires c !in m && Contains(a + [c] + b, m)
    ensures Contains(a, m) || Contains(b, m)
  {
    var w := a + [c] + b;
    var i :| 0 <= i <= |w| && OccursAt(w, m, i);
    forall j | i <= j < i + |m| ensures w[j] != c {
      assert w[i + (j - i)] == m[j - i] && m[j - i] in m;
    }
    assert w[|a|] == c;
    if i + |m| <= |a| {
      assert OccursAt(a, m, i);
    } else if i > |a| {
      assert OccursAt(b, m, i - |a| - 1);
    }
  }

  function Decimal(n: int): string
    decreases n < 0, if n < 0 then -n else n
  {
    if n < 0 then "-" + Decimal(-n)
    else if n < 10 then [('0' as int + n) as char]
    else Decimal(n / 10) + [('0' as int + n % 10) as char]
  }

  function LowerChar(c: char): char {
    if 'A' <= c <= 'Z' then (c as int + 32) as char else c
  }

  /** `str.lower` on ASCII letters; other characters are left alone. */
  function Lower(s: string): (r: string)
    ensures |r| == |s|
    ensures forall i :: 0 <= i < |s| ==> r[i] == LowerChar(s[i])
  {
    if s == [] then [] else [LowerChar(s[0])] + Lower(s[1..])
  }

  lemma LowerAppend(a: string, b: string)
    ensures Lower(a + b) == Lower(a) + Lower(b)
  {
  }

  lemma LowerFixed(s: string)
    requires forall i :: 0 <= i < |s| ==> !('A' <= s[i] <= 'Z')
    ensures Lower(s) == s
  {
  }

  lemma LowerKeepsOut(s: string, c: char)
    requires c !in s && !('a' <= c <= 'z')
    ensures c !in Lower(s)
  {
    forall i | 0 <= i < |s| ensures LowerChar(s[i]) != c {
      assert s[i] in s;
    }
  }

  lemma {:induction false} DecimalDigits(n: int)
    ensures forall c :: c in Decimal(n) ==> c == '-' || '0' <= c <= '9'
    decreases n < 0, if n < 0 then -n else n
  {
    if n < 0 {
      DecimalDigits(-n);
    } else if n >= 10 {
      DecimalDigits(n / 10);
    }
  }

  lemma LowerSpace(c: char)
    ensures IsSpace(LowerChar(c)) <==> IsSpace(c)
  {
  }

  /** Stripping cannot lose a lower-case match whose ends are not spaces. */
  lemma LowerContainsStrip(s: string, m: string)
    requires m != [] && Clean(m) && Contains(Lower(s), m)
    ensures Contains(Lower(Strip(s)), m)
  {
    hide IsSpace, Strip, LowerChar;
    var a, b := StripShape(s);
    var t := Strip(s);
    var i :| 0 <= i <= |s| && OccursAt(Lower(s), m, i);
    MatchInside(a, t, b, m, i);
    assert OccursAt(Lower(t), m, i - |a|);
  }

  lemma MatchInside(a: string, t: string, b: string, m: string, i: nat)
    requires m != [] && Clean(m) && OccursAt(Lower(a + t + b), m, i)
    requires forall c :: c in a || c in b ==> IsSpace(c)
    ensures |a| <= i && i + |m| <= |a| + |t|
  {
    var s, j := a + t + b, i + |m| - 1;
    assert LowerChar(s[i + 0]) == m[0] && LowerChar(s[i + (|m| - 1)]) == m[|m| - 1];
    LowerSpace(s[i]);
    LowerSpace(s[j]);
    assert forall k :: 0 <= k < |a| ==> s[k] in a;
    assert forall k :: |a| + |t| <= k < |s| ==> s[k] in b;
  }
}
