/** Resolving HEAD from the files under .git when git itself cannot be run
    (scripts/run_benchmark_matrix.py). */
module PackedRefs {
  import opened Prelude
  import opened Sequences
  import opened Text

  /** The readable files under .git; None stands for a file that cannot be read. */
  datatype GitDir = GitDir(head: Option<string>, refs: map<string, string>, packedRefs: Option<string>)

  function TextOf(file: Option<string>): string {
    if file.Some? then file.value else ""
  }

  function LooseRef(d: GitDir, name: string): string {
    if name in d.refs then Strip(d.refs[name]) else ""
  }

  predicate IsNoise(stripped: string) {
    stripped == "" || stripped[0] == '#' || stripped[0] == '^'
  }

  /** The commit this line assigns to the ref, or "". */
  function CommitOf(line: string, refName: string): string {
    var stripped := Strip(line);
    if IsNoise(stripped) then ""
    else
      var (commit, name) := Partition(stripped, ' ');
      if Strip(name) == refName then Strip(commit) else ""
  }

  function FirstCommit(lines: seq<string>, refName: string): string {
    if lines == [] then ""
    else
      var commit := CommitOf(lines[0], refName);
      if commit != "" then commit else FirstCommit(lines[1..], refName)
  }

  function ResolveHead(d: GitDir): string {
    var headText := Strip(TextOf(d.head));
    if headText == "" then ""
    else if !("ref:" <= headText) then if |headText| >= 7 then headText else ""
    else
      var refName := Strip(Partition(headText, ':').1);
      if refName == "" then ""
      else if LooseRef(d, refName) != "" then LooseRef(d, refName)
      else FirstCommit(SplitBy(IsLineBreak, TextOf(d.packedRefs)), refName)
  }

  /** The script's loop over the lines of packed-refs. */
  method FindPackedRef(lines: seq<string>, refName: string) returns (commit: string)
    ensures commit == FirstCommit(lines, refName)
  {
    for i := 0 to |lines|
      invariant FirstCommit(lines, refName) == FirstCommit(lines[i..], refName)
    {
      var stripped := Strip(lines[i]);
      if IsNoise(stripped) {
        continue;
      }
      var (first, rest) := Partition(stripped, ' ');
      if Strip(rest) == refName && Strip(first) != "" {
        return Strip(first);
      }
    }
    return "";
  }

  method ResolveHeadWithoutGit(d: GitDir) returns (commit: string)
    ensures commit == ResolveHead(d)
  {
    if d.head.None? {
      return "";
    }
    var headText := Strip(d.head.value);
    if headText == "" {
      return "";
    }
    if !("ref:" <= headText) {
      return if |headText| >= 7 then headText else "";
    }
    var refName := Strip(Partition(headText, ':').1);
    if refName == "" {
      return "";
    }
    if LooseRef(d, refName) != "" {
      return LooseRef(d, refName);
    }
    commit := FindPackedRef(SplitBy(IsLineBreak, TextOf(d.packedRefs)), refName);
  }

  // ----- writing packed-refs, and reading it back -----

  datatype Line = Entry(commit: string, name: string) | Comment(text: string) | Peeled(text: string)

  predicate OneLine(s: string) {
    forall c :: c in s ==> !IsLineBreak(c)
  }

  predicate WellFormed(line: Line) {
    match line
    case Entry(commit, name) =>
      && commit != "" && (forall c :: c in commit ==> !IsSpace(c)) && commit[0] != '#' && commit[0] != '^'
      && name != "" && Clean(name) && OneLine(name)
    case Comment(text) => OneLine(text)
    case Peeled(text) => OneLine(text)
  }

  function Show(line: Line): string {
    match line
    case Entry(commit, name) => commit + " " + name
    case Comment(text) => "#" + text
    case Peeled(text) => "^" + text
  }

  function Render(lines: seq<Line>): string {
    if lines == [] then "" else Show(lines[0]) + "\n" + Render(lines[1..])
  }

  /** What the file says about a ref. */
  function FirstEntry(lines: seq<Line>, refName: string): string {
    if lines == [] then ""
    else if lines[0].Entry? && lines[0].name == refName then lines[0].commit
    else FirstEntry(lines[1..], refName)
  }

  lemma ShowOneLine(line: Line)
    requires WellFormed(line)
    ensures OneLine(Show(line))
  {
  }

  lemma {:induction false} TrimLeftNoise(s: string, mark: char, text: string)
    requires s == [mark] + text && !IsSpace(mark)
    ensures Strip(s) != "" && Strip(s)[0] == mark
  {
    var b := TrimRightShape(s);
    assert TrimLeft(s) == s;
    assert forall i :: 0 <= i < |b| ==> b[i] in b;
    assert s[0] == (TrimRight(s) + b)[0];
  }

  lemma EntryRead(commit: string, name: string, refName: string)
    requires WellFormed(Entry(commit, name))
    ensures CommitOf(Show(Entry(commit, name)), refName) == if name == refName then commit else ""
  {
    var s := commit + " " + name;
    assert commit[0] in commit && commit[|commit| - 1] in commit;
    assert s[0] == commit[0] && s[|s| - 1] == name[|name| - 1];
    StripFixed(s);
    assert !IsNoise(s);
    PartitionAt(commit, ' ', name);
    StripFixed(commit);
    StripFixed(name);
  }

  lemma LineRead(line: Line, refName: string)
    requires WellFormed(line)
    ensures CommitOf(Show(line), refName) == if line.Entry? && line.name == refName then line.commit else ""
  {
    match line
    case Entry(commit, name) => EntryRead(commit, name, refName);
    case Comment(text) => TrimLeftNoise(Show(line), '#', text);
    case Peeled(text) => TrimLeftNoise(Show(line), '^', text);
  }

  /** Reading a rendered file back finds the first entry of the ref, or nothing. */
  lemma {:induction false} PackedRoundTrip(lines: seq<Line>, refName: string)
    requires forall line :: line in lines ==> WellFormed(line)
    ensures FirstCommit(SplitBy(IsLineBreak, Render(lines)), refName) == FirstEntry(lines, refName)
  {
    if lines == [] {
      assert SplitBy(IsLineBreak, "") == [""];
      assert CommitOf("", refName) == "";
    } else {
      var first, rest := Show(lines[0]), Render(lines[1..]);
      ShowOneLine(lines[0]);
      SplitFirst(IsLineBreak, first, '\n', rest);
      assert Render(lines) == first + ['\n'] + rest;
      var parts := SplitBy(IsLineBreak, Render(lines));
      assert parts[0] == first && parts[1..] == SplitBy(IsLineBreak, rest);
      LineRead(lines[0], refName);
      PackedRoundTrip(lines[1..], refName);
    }
  }

  lemma SymbolicHead(refName: string, padding: string)
    requires refName != "" && Clean(refName)
    requires forall c :: c in padding ==> IsSpace(c)
    ensures Strip("ref: " + refName + padding) == "ref: " + refName
    ensures Partition("ref: " + refName, ':') == ("ref", " " + refName)
    ensures Strip(" " + refName) == refName
  {
    hide Strip, Partition;
    SymbolicText(refName, padding);
    SymbolicParts(refName);
  }

  lemma SymbolicText(refName: string, padding: string)
    requires refName != "" && Clean(refName)
    requires forall c :: c in padding ==> IsSpace(c)
    ensures Strip("ref: " + refName + padding) == "ref: " + refName
  {
    assert !IsSpace('r');
    var s := "ref: " + refName;
    assert s[0] == 'r' && s[|s| - 1] == refName[|refName| - 1];
    hide IsSpace, Strip;
    StripPadded("", s, padding);
    assert "" + s + padding == s + padding;
  }

  lemma SymbolicParts(refName: string)
    requires refName != "" && Clean(refName)
    ensures Partition("ref: " + refName, ':') == ("ref", " " + refName)
    ensures Strip(" " + refName) == refName
  {
    assert IsSpace(' ');
    hide IsSpace, Strip, Partition;
    PartitionAt("ref", ':', " " + refName);
    assert "ref" + [':'] + (" " + refName) == "ref: " + refName;
    StripPadded(" ", refName, "");
    assert " " + refName + "" == " " + refName;
  }

  /** A symbolic HEAD over a rendered packed-refs file: a non-blank loose ref wins, else the
      first matching entry, else the empty string. */
  lemma ResolveRendered(refName: string, padding: string, refs: map<string, string>, lines: seq<Line>)
    requires refName != "" && Clean(refName)
    requires forall c :: c in padding ==> IsSpace(c)
    requires forall line :: line in lines ==> WellFormed(line)
    ensures ResolveHead(GitDir(Some("ref: " + refName + padding), refs, Some(Render(lines))))
         == if refName in refs && Strip(refs[refName]) != "" then Strip(refs[refName]) else FirstEntry(lines, refName)
  {
    SymbolicHead(refName, padding);
    PackedRoundTrip(lines, refName);
  }

  /** Nothing but a listed, non-blank commit can come out of packed-refs. */
  lemma {:induction false} FirstEntryListed(lines: seq<Line>, refName: string)
    ensures FirstEntry(lines, refName) == "" || Entry(FirstEntry(lines, refName), refName) in lines
    ensures (forall line :: line in lines ==> WellFormed(line)) && FirstEntry(lines, refName) == ""
        ==> forall line :: line in lines && line.Entry? ==> line.name != refName
  {
    if lines != [] && !(lines[0].Entry? && lines[0].name == refName) {
      FirstEntryListed(lines[1..], refName);
      assert lines == [lines[0]] + lines[1..];
    }
  }

  /** The entry that is found is the first one of its ref. */
  lemma {:induction false} FirstEntryFirst(lines: seq<Line>, refName: string)
    requires forall line :: line in lines ==> WellFormed(line)
    requires FirstEntry(lines, refName) != ""
    ensures exists i :: 0 <= i < |lines| && lines[i] == Entry(FirstEntry(lines, refName), refName)
                        && forall j :: 0 <= j < i ==> !(lines[j].Entry? && lines[j].name == refName)
  {
    if !(lines[0].Entry? && lines[0].name == refName) {
      FirstEntryFirst(lines[1..], refName);
      var i :| 0 <= i < |lines| - 1 && lines[1..][i] == Entry(FirstEntry(lines, refName), refName)
               && forall j :: 0 <= j < i ==> !(lines[1..][j].Entry? && lines[1..][j].name == refName);
      assert lines[i + 1] == Entry(FirstEntry(lines, refName), refName);
      forall j | 0 <= j < i + 1 ensures !(lines[j].Entry? && lines[j].name == refName) {
        assert j > 0 ==> lines[1..][j - 1] == lines[j];
      }
    } else {
      assert lines[0] == Entry(FirstEntry(lines, refName), refName);
    }
  }

  // ----- any file, well formed or not -----

  /** The line, trimmed, is no comment and reads `commit`, a space, and the ref name. */
  ghost predicate Assigns(line: string, refName: string, commit: string) {
    var s := Strip(line);
    && commit != "" && s != "" && s[0] != '#' && s[0] != '^'
    && exists k :: 0 <= k < |s| && s[k] == ' ' && ' ' !in s[..k]
                   && Strip(s[..k]) == commit && Strip(s[k + 1..]) == refName
  }

  lemma IndexIs(s: string, c: char, k: nat)
    requires k < |s| && s[k] == c && c !in s[..k]
    ensures IndexOf(s, c) == k
  {
  }

  lemma IndexFirst(s: string, c: char)
    ensures c !in s[..IndexOf(s, c)]
  {
  }

  lemma CommitAssigned(line: string, refName: string, commit: string)
    requires refName != "" && commit != ""
    ensures CommitOf(line, refName) == commit <==> Assigns(line, refName, commit)
  {
    AllBlank("");
    var s := Strip(line);
    hide Strip, IndexOf;
    IndexFirst(s, ' ');
    if Assigns(line, refName, commit) {
      var k :| 0 <= k < |s| && s[k] == ' ' && ' ' !in s[..k] && Strip(s[..k]) == commit && Strip(s[k + 1..]) == refName;
      IndexIs(s, ' ', k);
    }
  }

  ghost predicate Unassigned(line: string, refName: string) {
    forall c :: !Assigns(line, refName, c)
  }

  /** Line i is the first one that assigns a commit to the ref, and assigns this one. */
  ghost predicate FirstAssigned(lines: seq<string>, refName: string, commit: string, i: int) {
    0 <= i < |lines| && Assigns(lines[i], refName, commit) && forall j :: 0 <= j < i ==> Unassigned(lines[j], refName)
  }

  ghost predicate Scanned(lines: seq<string>, refName: string, commit: string) {
    if commit == "" then forall line :: line in lines ==> Unassigned(line, refName)
    else exists i :: FirstAssigned(lines, refName, commit, i)
  }

  lemma LineScanned(line: string, refName: string)
    requires refName != ""
    ensures var commit := CommitOf(line, refName);
            if commit == "" then Unassigned(line, refName) else Assigns(line, refName, commit)
  {
    forall c | c != "" ensures CommitOf(line, refName) == c <==> Assigns(line, refName, c) {
      CommitAssigned(line, refName, c);
    }
    hide CommitOf;
  }

  /** What a scan of packed-refs yields for any file: the commit of the first line that assigns
      one to the ref, and nothing exactly when no line does. */
  lemma {:induction false} ScanMeaning(lines: seq<string>, refName: string)
    requires refName != ""
    ensures Scanned(lines, refName, FirstCommit(lines, refName))
  {
    if lines != [] {
      var (commit, found) := (CommitOf(lines[0], refName), FirstCommit(lines[1..], refName));
      LineScanned(lines[0], refName);
      ScanMeaning(lines[1..], refName);
      assert lines == [lines[0]] + lines[1..];
      hide CommitOf, Assigns, Unassigned;
      if commit != "" {
        assert FirstAssigned(lines, refName, commit, 0);
      } else if found != "" {
        var i :| FirstAssigned(lines[1..], refName, found, i);
        AssignedLater(lines, refName, found, i);
      }
    }
  }

  lemma AssignedLater(lines: seq<string>, refName: string, commit: string, i: int)
    requires lines != [] && Unassigned(lines[0], refName) && FirstAssigned(lines[1..], refName, commit, i)
    ensures FirstAssigned(lines, refName, commit, i + 1)
  {
    hide Assigns, Unassigned;
    forall j | 0 <= j < i + 1 ensures Unassigned(lines[j], refName) {
      assert j > 0 ==> lines[1..][j - 1] == lines[j];
    }
  }

  /** A HEAD that names no ref: a commit of at least seven characters is taken, however padded, and
      anything shorter, a blank file and a missing one give nothing. */
  lemma DetachedHead(text: string, before: string, after: string, refs: map<string, string>, packed: Option<string>)
    requires Clean(text) && !("ref:" <= text)
    requires forall c :: c in before || c in after ==> IsSpace(c)
    ensures ResolveHead(GitDir(Some(before + text + after), refs, packed)) == if |text| >= 7 then text else ""
    ensures ResolveHead(GitDir(None, refs, packed)) == ""
  {
    if text == "" {
      AllBlank(before + text + after);
    } else {
      StripPadded(before, text, after);
    }
    AllBlank("");
  }

  lemma {:induction false} AllBlank(s: string)
    requires forall c :: c in s ==> IsSpace(c)
    ensures Strip(s) == ""
  {
    var a, b := StripShape(s);
  }

  /** A HEAD that names a ref: the loose ref decides if it is not blank, else the first line of
      packed-refs that assigns a commit to the ref, else nothing. */
  lemma SymbolicMeaning(refName: string, padding: string, refs: map<string, string>, packed: Option<string>)
    requires refName != "" && Clean(refName)
    requires forall c :: c in padding ==> IsSpace(c)
    ensures var commit := ResolveHead(GitDir(Some("ref: " + refName + padding), refs, packed));
            if refName in refs && Strip(refs[refName]) != "" then commit == Strip(refs[refName])
            else if packed.None? then commit == ""
            else Scanned(SplitBy(IsLineBreak, packed.value), refName, commit)
  {
    SymbolicHead(refName, padding);
    AllBlank("");
    if packed.Some? {
      ScanMeaning(SplitBy(IsLineBreak, packed.value), refName);
    }
    assert SplitBy(IsLineBreak, "") == [""];
    assert CommitOf("", refName) == "" && FirstCommit([""], refName) == "";
    hide Strip, Partition, SplitBy, Assigns, FirstCommit;
  }
}
