/** The path normalisation of scripts/run_quality_gate.py on POSIX systems: which paths survive a
    refresh of the hotspot baseline. */
module HotspotPaths {
  import opened Prelude
  import opened Sequences
  import opened Text
  import opened Hotspots

  // ----- `str(Path(s))` -----

  predicate IsSlash(c: char) {
    c == '/'
  }

  /** Exactly two leading slashes are kept, any other number above none becomes one. */
  function Root(s: string): string {
    if s == "" || s[0] != '/' then ""
    else if |s| >= 2 && s[1] == '/' && (|s| == 2 || s[2] != '/') then "//"
    else "/"
  }

  predicate IsPiece(part: string) {
    part != "" && part != "."
  }

  function Pieces(s: string): seq<string> {
    Filter(IsPiece, SplitBy(IsSlash, s))
  }

  function PathText(s: string): string {
    var text := Root(s) + Join("/", Pieces(s));
    if text == "" then "." else text
  }

  function SlashFor(c: char): char {
    if c == '\\' then '/' else c
  }

  /** `_normalize_hotspot_path`. */
  function NormalizePath(s: string): string {
    Map(SlashFor, PathText(Strip(s)))
  }

  // ----- cutting and joining -----

  lemma {:induction false} SplitParts(p: char -> bool, s: string)
    ensures forall part, c :: part in SplitBy(p, s) && c in part ==> c in s && !p(c)
  {
    if s != [] {
      SplitParts(p, s[1..]);
    }
  }

  lemma {:induction false} JoinSplit(s: string)
    ensures Join("/", SplitBy(IsSlash, s)) == s
  {
    if s != [] {
      JoinSplit(s[1..]);
      var rest := SplitBy(IsSlash, s[1..]);
      assert s == [s[0]] + s[1..];
      if IsSlash(s[0]) {
        assert ([""] + rest)[1..] == rest;
      } else {
        assert ([[s[0]] + rest[0]] + rest[1..])[1..] == rest[1..];
      }
    }
  }

  lemma {:induction false} SplitJoin(parts: seq<string>)
    requires parts != [] && forall part :: part in parts ==> '/' !in part
    ensures SplitBy(IsSlash, Join("/", parts)) == parts
  {
    assert parts[0] in parts;
    if |parts| == 1 {
      SplitWhole(IsSlash, parts[0]);
    } else {
      SplitFirst(IsSlash, parts[0], '/', Join("/", parts[1..]));
      assert Join("/", parts) == parts[0] + ['/'] + Join("/", parts[1..]);
      SplitJoin(parts[1..]);
      assert parts == [parts[0]] + parts[1..];
    }
  }

  function Width(part: string): int {
    |part| + 1
  }

  lemma WidthCons(part: string, rest: seq<string>)
    ensures Total(Width, [part] + rest) == |part| + 1 + Total(Width, rest)
  {
    TotalAppend(Width, [part], rest);
    assert [part][..0] == [];
  }

  lemma {:induction false} JoinWidth(parts: seq<string>)
    requires parts != []
    ensures |Join("/", parts)| + 1 == Total(Width, parts)
  {
    WidthCons(parts[0], parts[1..]);
    assert parts == [parts[0]] + parts[1..];
    if |parts| > 1 {
      JoinWidth(parts[1..]);
    }
  }

  lemma {:induction false} FilterWidth(parts: seq<string>)
    ensures Total(Width, Filter(IsPiece, parts)) <= Total(Width, parts)
  {
    if parts != [] {
      var init, last := parts[..|parts| - 1], parts[|parts| - 1];
      FilterWidth(init);
      TotalSnoc(Width, Filter(IsPiece, init), last);
      assert Filter(IsPiece, init) + [] == Filter(IsPiece, init);
    }
  }

  lemma {:induction false} FilterNarrows(parts: seq<string>)
    ensures Filter(IsPiece, parts) == parts || Total(Width, Filter(IsPiece, parts)) < Total(Width, parts)
  {
    if parts != [] {
      var init, last := parts[..|parts| - 1], parts[|parts| - 1];
      var kept := Filter(IsPiece, init);
      FilterNarrows(init);
      assert parts == init + [last];
      if IsPiece(last) {
        assert Filter(IsPiece, parts) == kept + [last];
        TotalSnoc(Width, kept, last);
      } else {
        assert Filter(IsPiece, parts) == kept + [] == kept;
        FilterWidth(init);
      }
    }
  }

  // ----- the text of a path -----

  lemma LeadingSlash(s: string)
    ensures Pieces("/" + s) == Pieces(s)
  {
    assert ("/" + s)[1..] == s;
    FilterAppend(IsPiece, [""], SplitBy(IsSlash, s));
    assert [""][..0] == [];
  }

  lemma RootedPieces(s: string)
    ensures |Root(s)| <= |s| && s == Root(s) + s[|Root(s)|..] && Pieces(s) == Pieces(s[|Root(s)|..])
  {
    var tail := s[|Root(s)|..];
    if Root(s) == "//" {
      assert s == "/" + ("/" + tail);
      LeadingSlash("/" + tail);
      LeadingSlash(tail);
    } else if Root(s) == "/" {
      assert s == "/" + tail;
      LeadingSlash(tail);
    }
  }

  /** A path never grows by being normalised. */
  lemma PathShrinks(s: string)
    requires s != ""
    ensures |PathText(s)| <= |s|
  {
    var tail, ps := s[|Root(s)|..], Pieces(s);
    RootedPieces(s);
    FilterWidth(SplitBy(IsSlash, tail));
    JoinWidth(SplitBy(IsSlash, tail));
    JoinSplit(tail);
    if ps != [] {
      JoinWidth(ps);
    }
  }

  /** And it shrinks whenever it changes. */
  lemma ChangeShrinks(s: string)
    requires s != "" && PathText(s) != s
    ensures |PathText(s)| < |s|
  {
    var tail, ps := s[|Root(s)|..], Pieces(s);
    RootedPieces(s);
    FilterNarrows(SplitBy(IsSlash, tail));
    JoinWidth(SplitBy(IsSlash, tail));
    JoinSplit(tail);
    if ps != [] {
      JoinWidth(ps);
    } else if tail == "" {
      assert Join("/", ps) == "";
    } else if |s| == 1 {
      OneCharacter(s);
    }
  }

  lemma OneCharacter(s: string)
    requires |s| == 1 && Pieces(s) == []
    ensures PathText(s) == s
  {
    if s[0] != '/' {
      SplitWhole(IsSlash, s);
      assert [s][..0] == [];
      assert IsPiece(s) ==> Pieces(s) == [s];
    }
  }

  lemma PiecesShape(s: string)
    ensures forall part :: part in Pieces(s) ==> IsPiece(part) && '/' !in part
  {
    FilterMembers(IsPiece, SplitBy(IsSlash, s));
    SplitParts(IsSlash, s);
  }

  /** A root followed by proper pieces is left as it is. */
  lemma AssembledFixed(root: string, ps: seq<string>)
    requires root == "" || root == "/" || root == "//"
    requires ps != [] && forall part :: part in ps ==> IsPiece(part) && '/' !in part
    ensures PathText(root + Join("/", ps)) == root + Join("/", ps)
    ensures Root(root + Join("/", ps)) == root && SplitBy(IsSlash, Join("/", ps)) == ps
  {
    var tail := Join("/", ps);
    assert ps[0] in ps;
    assert tail[0] == ps[0][0] && ps[0][0] in ps[0];
    assert Root(root + tail) == root;
    RootedPieces(root + tail);
    assert (root + tail)[|root|..] == tail;
    SplitJoin(ps);
    FilterAll(IsPiece, ps);
  }

  lemma BareRoot(root: string)
    requires root == "/" || root == "//" || root == "."
    ensures PathText(root) == root
  {
    assert SplitBy(IsSlash, "") == [""];
    LeadingSlash("");
    LeadingSlash("/");
    assert "/" + "" == "/" && "/" + "/" == "//";
    assert [""][..0] == [] && ["."][..0] == [];
    if root == "." {
      SplitWhole(IsSlash, ".");
    }
  }

  /** Python's paths are normalised once and for all. */
  lemma PathTextFixed(s: string)
    ensures PathText(PathText(s)) == PathText(s)
  {
    PiecesShape(s);
    if Pieces(s) != [] {
      AssembledFixed(Root(s), Pieces(s));
      assert Join("/", Pieces(s)) != "" by {
        assert Pieces(s)[0] in Pieces(s);
      }
    } else {
      BareRoot(PathText(s));
    }
  }

  /** A path that normalisation leaves as it is, apart from spaces at its ends: a bare root, the
      current directory, or a root followed by proper pieces. */
  predicate Settled(q: string) {
    Clean(q)
    && (q == "." || (q != "" && q == Root(q))
        || forall part :: part in SplitBy(IsSlash, q[|Root(q)|..]) ==> IsPiece(part))
  }

  lemma PathTextExactly(q: string)
    requires q != ""
    ensures Clean(q) && PathText(q) == q <==> Settled(q)
  {
    RootedPieces(q);
    PiecesShape(q);
    var tail := q[|Root(q)|..];
    if PathText(q) == q && Pieces(q) != [] {
      AssembledFixed(Root(q), Pieces(q));
      assert tail == Join("/", Pieces(q));
    }
    if q == "." || q == Root(q) {
      BareRoot(q);
    } else if forall part :: part in SplitBy(IsSlash, tail) ==> IsPiece(part) {
      FilterAll(IsPiece, SplitBy(IsSlash, tail));
      JoinSplit(tail);
    }
  }

  // ----- which paths survive a second normalisation -----

  lemma {:induction false} JoinChars(parts: seq<string>, c: char)
    requires c in Join("/", parts)
    ensures c == '/' || exists part :: part in parts && c in part
  {
    if |parts| > 1 && c !in parts[0] && c != '/' {
      JoinChars(parts[1..], c);
      var part :| part in parts[1..] && c in part;
      assert part in parts;
    } else if parts != [] {
      assert parts[0] in parts;
    }
  }

  lemma PathChars(s: string, c: char)
    requires c in PathText(s)
    ensures c == '/' || c == '.' || c in s
  {
    if c in Join("/", Pieces(s)) && c != '/' {
      JoinChars(Pieces(s), c);
      FilterMembers(IsPiece, SplitBy(IsSlash, s));
      SplitParts(IsSlash, s);
    }
  }

  lemma SlashedFixed(s: string)
    requires '\\' !in s
    ensures Map(SlashFor, s) == s
  {
    forall i | 0 <= i < |s| ensures Map(SlashFor, s)[i] == s[i] {
      assert s[i] in s;
    }
  }

  lemma NormalizedPlain(p: string)
    ensures '\\' !in NormalizePath(p) && NormalizePath(p) != ""
  {
  }

  /** A path survives a second normalisation exactly when the first one yields a settled path. */
  lemma StableExactly(p: string)
    ensures var q := NormalizePath(p);
            NormalizePath(q) == q <==> Settled(q)
  {
    var q := NormalizePath(p);
    NormalizedPlain(p);
    PathTextExactly(q);
    if '\\' in PathText(q) {
      PathChars(q, '\\');
    }
    SlashedFixed(PathText(q));
    if Clean(q) {
      StripFixed(q);
    } else {
      UncleanShrinks(q);
    }
  }

  lemma UncleanShrinks(q: string)
    requires !Clean(q)
    ensures NormalizePath(q) != q && (NormalizePath(q) == "." || |NormalizePath(q)| < |q|)
  {
    var a, b := StripShape(q);
    StripIdempotent(q);
    assert |Strip(q)| < |q|;
    if Strip(q) != "" {
      PathShrinks(Strip(q));
    } else {
      BlankNormalized(q);
      assert Clean(".");
    }
  }

  lemma BlankNormalized(q: string)
    requires Strip(q) == ""
    ensures NormalizePath(q) == "."
  {
    assert SplitBy(IsSlash, "") == [""] && [""][..0] == [];
    assert !IsPiece("") && Filter(IsPiece, [""]) == [];
    assert Root("") == "" && Join("/", []) == "" && PathText("") == ".";
    SlashedFixed(".");
  }

  /** Without backslashes this asks only that normalisation leaves no space at either end. */
  lemma StableWithoutBackslash(p: string)
    requires '\\' !in p
    ensures NormalizePath(p) == PathText(Strip(p))
    ensures NormalizePath(NormalizePath(p)) == NormalizePath(p) <==> Clean(PathText(Strip(p)))
  {
    var a, b := StripShape(p);
    if '\\' in PathText(Strip(p)) {
      PathChars(Strip(p), '\\');
    }
    SlashedFixed(PathText(Strip(p)));
    PathTextFixed(Strip(p));
    NormalizedPlain(p);
    PathTextExactly(NormalizePath(p));
    StableExactly(p);
  }

  /** A normalised path that does not survive gets shorter, or was blank. */
  lemma UnsettledShrinks(p: string)
    requires !Settled(NormalizePath(p))
    ensures var q := NormalizePath(p);
            NormalizePath(q) == "." || |NormalizePath(q)| < |q|
  {
    var q := NormalizePath(p);
    NormalizedPlain(p);
    PathTextExactly(q);
    if Clean(q) {
      StripFixed(q);
      ChangeShrinks(q);
    } else {
      UncleanShrinks(q);
    }
  }

  // ----- refreshing the baseline -----

  /** The gate on a POSIX system. */
  function Posix(measure: string -> Measure, tenth: int -> real): World {
    World(NormalizePath, measure, tenth)
  }

  /** Refresh, reload and summarise change nothing whenever every requested path settles. */
  lemma PosixRefresh(
    measure: string -> Measure, tenth: int -> real, requested: seq<string>,
    order: seq<string>, baseline: map<string, Entry>)
    requires RoundedTenth(tenth)
    requires forall p :: p in requested ==> Settled(NormalizePath(p))
    requires Loaded(Posix(measure, tenth), Payload(Posix(measure, tenth), requested), order, baseline)
    ensures var w := Posix(measure, tenth);
            && SummaryPaths(w, requested, order) == OrderedPaths(w, requested)
            && forall path :: path in OrderedPaths(w, requested) ==> Unchanged(w, RowFor(w, baseline)(path))
  {
    var w := Posix(measure, tenth);
    forall p | p in requested ensures w.norm(w.norm(p)) == w.norm(p) {
      StableExactly(p);
    }
    RefreshIsNeutral(w, requested, order, baseline);
  }

  function Longest(paths: seq<string>): nat {
    if paths == [] then 0
    else Max(Longest(paths[..|paths| - 1]), |paths[|paths| - 1]|)
  }

  lemma {:induction false} LongestBounds(paths: seq<string>, q: string)
    requires q in paths
    ensures |q| <= Longest(paths)
  {
    var init, last := paths[..|paths| - 1], paths[|paths| - 1];
    assert paths == init + [last];
    if q != last {
      LongestBounds(init, q);
    }
  }

  /** A listed path that does not settle can only be restored by a longer one, and so on without end. */
  lemma {:induction false} NoEndlessChain(w: World, requested: seq<string>, q: string)
    requires w.norm == NormalizePath
    requires forall path :: path in OrderedPaths(w, requested) ==> Reachable(w, requested, path)
    requires q in OrderedPaths(w, requested)
    ensures Settled(q)
    decreases Longest(OrderedPaths(w, requested)) - |q|
  {
    hide Settled, OrderedPaths, NormalizePath, Longest;
    if !Settled(q) {
      var longer := LongerSource(w, requested, q);
      LongestBounds(OrderedPaths(w, requested), longer);
      NoEndlessChain(w, requested, longer);
    }
  }

  lemma LongerSource(w: World, requested: seq<string>, q: string) returns (longer: string)
    requires w.norm == NormalizePath && Reachable(w, requested, q)
    requires q in OrderedPaths(w, requested) && !Settled(q)
    ensures longer in OrderedPaths(w, requested) && |q| < |longer| && !Settled(longer)
  {
    longer :| longer in OrderedPaths(w, requested) && w.norm(longer) == q;
    OrderedMember(w, requested, q);
    OrderedMember(w, requested, longer);
    var p :| p in requested && w.norm(p) == q;
    var p' :| p' in requested && w.norm(p') == longer;
    hide OrderedPaths, NormalizePath;
    StableExactly(p);
    StableExactly(p');
    DotSettled();
    hide Settled;
    UnsettledShrinks(p');
  }

  lemma DotSettled()
    ensures Settled(".")
  {
  }

  lemma AllReachable(w: World, requested: seq<string>)
    requires w.norm == NormalizePath && forall p :: p in requested ==> Settled(NormalizePath(p))
    ensures forall path :: path in OrderedPaths(w, requested) ==> Reachable(w, requested, path)
  {
    forall path | path in OrderedPaths(w, requested) ensures Reachable(w, requested, path) {
      OrderedMember(w, requested, path);
      var p :| p in requested && w.norm(p) == path;
      hide OrderedPaths, NormalizePath, Settled;
      StableExactly(p);
      assert w.norm(path) == path;
    }
  }

  lemma AllSettled(w: World, requested: seq<string>)
    requires w.norm == NormalizePath
    requires forall path :: path in OrderedPaths(w, requested) ==> Reachable(w, requested, path)
    ensures forall p :: p in requested ==> Settled(NormalizePath(p))
  {
    forall p | p in requested ensures Settled(NormalizePath(p)) {
      NormalizedPlain(p);
      OrderedMember(w, requested, NormalizePath(p));
      hide OrderedPaths, NormalizePath, Settled, Reachable;
      NoEndlessChain(w, requested, NormalizePath(p));
    }
  }

  /** After a refresh no baseline is missing exactly when every requested path settles. */
  lemma PosixNothingMissing(
    measure: string -> Measure, tenth: int -> real, requested: seq<string>,
    order: seq<string>, baseline: map<string, Entry>)
    requires Loaded(Posix(measure, tenth), Payload(Posix(measure, tenth), requested), order, baseline)
    ensures (forall path :: path in SummaryPaths(Posix(measure, tenth), requested, order) ==> path in baseline)
            <==> forall p :: p in requested ==> Settled(NormalizePath(p))
  {
    var w := Posix(measure, tenth);
    NothingMissingExactly(w, requested, order, baseline);
    hide SummaryPaths, Loaded, Payload, NormalizePath, Settled, OrderedPaths, Reachable;
    if forall path :: path in OrderedPaths(w, requested) ==> Reachable(w, requested, path) {
      AllSettled(w, requested);
    }
    if forall p :: p in requested ==> Settled(NormalizePath(p)) {
      AllReachable(w, requested);
    }
  }

  lemma OnePiece(x: string)
    requires IsPiece(x) && '/' !in x
    ensures PathText(x) == x && PathText(x + "/") == x
  {
    AssembledFixed("", [x]);
    assert Join("/", [x]) == x && "" + x == x;
    SplitWhole(IsSlash, x);
    SplitFirst(IsSlash, x, '/', "");
    assert x + ['/'] + "" == x + "/";
    FilterAppend(IsPiece, [x], [""]);
    assert [x][..0] == [] && [""][..0] == [];
  }

  lemma PieceNormalized(x: string)
    requires IsPiece(x) && '/' !in x && !IsSpace(x[0]) && !IsSpace(x[|x| - 1])
    ensures NormalizePath(x) == NormalizePath(x + "/") == Map(SlashFor, x)
  {
    StripFixed(x);
    StripFixed(x + "/");
    OnePiece(x);
    hide Strip, PathText, Map;
  }

  lemma BackslashPaths()
    ensures NormalizePath("a\\") == "a/" && NormalizePath("a/") == "a"
  {
    hide NormalizePath;
    PieceNormalized("a\\");
    PieceNormalized("a");
    SlashedFixed("a");
    assert "a" + "/" == "a/";
    assert Map(SlashFor, "a\\") == "a/";
  }

  /** The failing case: a trailing backslash becomes a slash, which the next round drops. */
  lemma UnstablePathMissing(
    measure: string -> Measure, tenth: int -> real, order: seq<string>, baseline: map<string, Entry>)
    requires Loaded(Posix(measure, tenth), Payload(Posix(measure, tenth), ["a\\"]), order, baseline)
    ensures "a/" in SummaryPaths(Posix(measure, tenth), ["a\\"], order) && "a/" !in baseline
  {
    BackslashPaths();
    UnstableAlone(Posix(measure, tenth), "a\\", order, baseline);
    hide NormalizePath, OrderedPaths, SummaryPaths, Loaded, Payload;
  }
}
