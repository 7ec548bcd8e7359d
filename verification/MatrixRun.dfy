/** The repo loop of scripts/run_benchmark_matrix.py: which repos are benchmarked, which are
    skipped because git could not be launched, and which failures abort the whole matrix. */
module MatrixRun {
  import opened Prelude
  import opened Sequences
  import opened Text
  import opened Checkout

  // ----- the text of a RuntimeError -----

  function Words(cmd: Command): seq<string> {
    match cmd
    case Clone(url, gitRef, target) => ["git", "clone", "--depth", "1", "--branch", gitRef, url, target]
    case Fetch(target, gitRef) => ["git", "-C", target, "fetch", "--depth", "1", "origin", gitRef]
    case CheckoutFetchHead(target) => ["git", "-C", target, "checkout", "--force", "FETCH_HEAD"]
    case SubmoduleSync(target) => ["git", "-C", target, "submodule", "sync", "--recursive"]
    case SubmoduleUpdate(target, paths) =>
      ["git", "-C", target, "submodule", "update", "--init", "--depth", "1", "--recursive"]
      + (if paths == [] then [] else ["--"] + paths)
    case RevParse(target) => ["git", "-C", target, "rev-parse", "HEAD"]
  }

  /** A captured stream is quoted only when it is not blank. */
  function Quoted(title: string, stream: string): string {
    if Strip(stream) == "" then "" else "\n" + (title + ":") + "\n" + Strip(stream)
  }

  function CommandLine(cmd: Command): string {
    Join(" ", Words(cmd))
  }

  const EXIT_TEXT: string := " failed with exit code "
  const CMD_TEXT: string := "cmd: "

  function FailureText(cmd: Command, returncode: int): string {
    EXIT_TEXT + Decimal(returncode) + "\n" + (CMD_TEXT + CommandLine(cmd))
  }

  function Headline(step: string, cmd: Command, returncode: int): string {
    step + FailureText(cmd, returncode)
  }

  /** What `_require_success` raises. */
  function Message(step: string, cmd: Command, r: CommandResult): string {
    Headline(step, cmd, r.returncode) + Quoted("stdout", r.stdout) + Quoted("stderr", r.stderr)
  }

  lemma QuotedKeeps(title: string, stream: string, m: string)
    requires m != "" && Clean(m) && Contains(Lower(stream), m)
    ensures Contains(Lower(Quoted(title, stream)), m)
  {
    LowerContainsStrip(stream, m);
    var lead := "\n" + (title + ":") + "\n";
    assert Quoted(title, stream) == lead + Strip(stream);
    LowerAppend(lead, Strip(stream));
    ContainsWiden(Lower(lead), Lower(Strip(stream)), "", m);
    assert Lower(lead) + Lower(Strip(stream)) + "" == Lower(Quoted(title, stream));
  }

  lemma CombinedLower(r: CommandResult)
    ensures Combined(r) == Lower(r.stdout) + ['\n'] + Lower(r.stderr)
  {
    LowerAppend(r.stdout + "\n", r.stderr);
    LowerAppend(r.stdout, "\n");
    assert Lower("\n") == ['\n'];
  }

  /** A text found in the output of the command is found again in the error raised for it,
      although the error quotes the two streams separately and stripped. */
  lemma MessageKeeps(step: string, cmd: Command, r: CommandResult, m: string)
    requires m != "" && Clean(m) && '\n' !in m
    requires Contains(Combined(r), m)
    ensures Contains(Lower(Message(step, cmd, r)), m)
  {
    var head, out, err := Headline(step, cmd, r.returncode), Quoted("stdout", r.stdout), Quoted("stderr", r.stderr);
    CombinedLower(r);
    ContainsSide(Lower(r.stdout), '\n', Lower(r.stderr), m);
    LowerAppend(head, out);
    LowerAppend(head + out, err);
    if Contains(Lower(r.stdout), m) {
      QuotedKeeps("stdout", r.stdout, m);
      ContainsWiden(Lower(head), Lower(out), Lower(err), m);
    } else {
      QuotedKeeps("stderr", r.stderr, m);
      ContainsWiden(Lower(head) + Lower(out), Lower(err), "", m);
      assert Lower(head) + Lower(out) + Lower(err) + "" == Lower(head + out + err);
    }
  }

  lemma AroundTitle(before: string, head: string, text: string, m: string)
    requires '\n' !in m && |m| > |head|
    requires Contains(before + ['\n'] + (head + ['\n'] + text), m)
    ensures Contains(before, m) || Contains(text, m)
  {
    ContainsSide(before, '\n', head + ['\n'] + text, m);
    if !Contains(before, m) {
      ContainsSide(head, '\n', text, m);
    }
  }

  lemma Regroup(a: string, b: string, c: string, d: string)
    ensures a + b + c + d == a + (b + c + d)
  {
  }

  lemma LinesLower(first: string, second: string)
    ensures Lower("\n" + first + "\n" + second) == ['\n'] + (Lower(first) + ['\n'] + Lower(second))
  {
    assert Lower("\n") == ['\n'];
    var (br, a, b) := ("\n", Lower(first), Lower(second));
    LowerAppend(br + first + br, second);
    LowerAppend(br + first, br);
    LowerAppend(br, first);
    hide *;
    calc {
      Lower(br + first + br + second);
      Lower(br) + a + Lower(br) + b;
      { Regroup(Lower(br), a, Lower(br), b); }
      Lower(br) + (a + Lower(br) + b);
    }
  }

  lemma QuotedLower(title: string, stream: string)
    requires Strip(stream) != ""
    ensures Lower(Quoted(title, stream)) == ['\n'] + (Lower(title + ":") + ['\n'] + Lower(Strip(stream)))
  {
    LinesLower(title + ":", Strip(stream));
  }

  /** A text without line breaks, longer than the title of a quotation, that is found up to the
      end of the quotation stands before it or in the quoted stream. */
  lemma QuotedOnly(before: string, title: string, stream: string, m: string)
    requires '\n' !in m && |m| > |title| + 1
    requires Contains(before + Lower(Quoted(title, stream)), m)
    ensures Contains(before, m) || Contains(Lower(stream), m)
  {
    if Strip(stream) == "" {
      assert before + Lower(Quoted(title, stream)) == before;
    } else {
      QuotedLower(title, stream);
      hide Strip, Contains, Quoted;
      var head, text := Lower(title + ":"), Lower(Strip(stream));
      assert before + Lower(Quoted(title, stream)) == before + ['\n'] + (head + ['\n'] + text);
      AroundTitle(before, head, text, m);
      if Contains(text, m) {
        StrippedKeeps(stream, m);
      }
    }
  }

  lemma StrippedKeeps(stream: string, m: string)
    requires Contains(Lower(Strip(stream)), m)
    ensures Contains(Lower(stream), m)
  {
    var a, b := StripShape(stream);
    LowerAppend(a + Strip(stream), b);
    LowerAppend(a, Strip(stream));
    ContainsWiden(Lower(a), Lower(Strip(stream)), Lower(b), m);
  }

  lemma MessageLower(step: string, cmd: Command, r: CommandResult)
    ensures Lower(Message(step, cmd, r))
         == Lower(Headline(step, cmd, r.returncode))
            + Lower(Quoted("stdout", r.stdout)) + Lower(Quoted("stderr", r.stderr))
  {
    var head, out, err := Headline(step, cmd, r.returncode), Quoted("stdout", r.stdout), Quoted("stderr", r.stderr);
    assert Message(step, cmd, r) == head + out + err;
    hide *;
    LowerAppend(head, out);
    LowerAppend(head + out, err);
  }

  /** What the error shows is what its headline or the output of the command shows. */
  lemma MessageShows(step: string, cmd: Command, r: CommandResult, m: string)
    requires Clean(m) && '\n' !in m && |m| > 7
    ensures Contains(Lower(Message(step, cmd, r)), m) <==>
            Contains(Lower(Headline(step, cmd, r.returncode)), m) || Contains(Combined(r), m)
  {
    hide *;
    var head := Lower(Headline(step, cmd, r.returncode));
    var out, err := Lower(Quoted("stdout", r.stdout)), Lower(Quoted("stderr", r.stderr));
    MessageLower(step, cmd, r);
    CombinedShows(r, m);
    if Contains(head, m) {
      assert [] + head + (out + err) == head + out + err;
      ContainsWiden([], head, out + err, m);
    } else if Contains(Combined(r), m) {
      MessageKeeps(step, cmd, r, m);
    } else if Contains(head + out + err, m) {
      QuotedOnly(head + out, "stderr", r.stderr, m);
      QuotedOnly(head, "stdout", r.stdout, m);
    }
  }

  lemma CombinedShows(r: CommandResult, m: string)
    ensures Contains(Lower(r.stdout), m) || Contains(Lower(r.stderr), m) ==> Contains(Combined(r), m)
  {
    CombinedLower(r);
    hide *;
    var (out, err) := (Lower(r.stdout), Lower(r.stderr));
    if Contains(out, m) {
      ContainsWiden([], out, ['\n'] + err, m);
      assert [] + out + (['\n'] + err) == out + ['\n'] + err;
    }
    if Contains(err, m) {
      ContainsWiden(out + ['\n'], err, [], m);
      assert out + ['\n'] + err + [] == out + ['\n'] + err;
    }
  }

  // ----- the loop -----

  datatype Outcome =
    | Completed(passed: bool, regressed: bool)
    | RuntimeFailure(message: string)
    | OtherFailure

  /** One entry of the `repos` list, with what running its benchmark leads to. */
  datatype Item = Foreign | Repo(name: string, outcome: Outcome)

  datatype Matrix = Matrix(results: seq<Item>, skipped: seq<Item>)

  predicate Configured(item: Item) {
    item.Repo? && Strip(item.name) != ""
  }

  predicate Skippable(outcome: Outcome) {
    outcome.RuntimeFailure? && Contains(Lower(outcome.message), LAUNCH_ERROR)
  }

  predicate IsResult(item: Item) {
    Configured(item) && item.outcome.Completed?
  }

  predicate IsSkipped(item: Item) {
    Configured(item) && Skippable(item.outcome)
  }

  predicate Aborts(item: Item) {
    Configured(item) && !IsResult(item) && !IsSkipped(item)
  }

  /** Either every configured repo was dealt with, or the first failure that is not a missing
      git escapes the loop. */
  method RunRepos(items: seq<Item>) returns (r: Result<Matrix, Item>)
    ensures r.Ok? <==> forall item :: item in items ==> !Aborts(item)
    ensures r.Ok? ==> r.value == Matrix(Filter(IsResult, items), Filter(IsSkipped, items))
    ensures r.Err? ==> exists i :: 0 <= i < |items| && items[i] == r.error && Aborts(items[i])
                                   && forall j :: 0 <= j < i ==> !Aborts(items[j])
  {
    var results, skipped := [], [];
    for i := 0 to |items|
      invariant results == Filter(IsResult, items[..i])
      invariant skipped == Filter(IsSkipped, items[..i])
      invariant forall j :: 0 <= j < i ==> !Aborts(items[j])
    {
      var item := items[i];
      assert items[..i + 1][..i] == items[..i];
      if !Configured(item) {
        continue;
      }
      if item.outcome.Completed? {
        results := results + [item];
      } else if Skippable(item.outcome) {
        skipped := skipped + [item];
      } else {
        assert item in items && Aborts(item);
        return Err(item);
      }
    }
    assert items[..|items|] == items;
    r := Ok(Matrix(results, skipped));
  }

  /** `repo_count + skipped_repo_count` is `configured_repo_count` whenever the loop finishes. */
  lemma {:induction false} ConfiguredAccounted(items: seq<Item>)
    requires forall item :: item in items ==> !Aborts(item)
    ensures |Filter(IsResult, items)| + |Filter(IsSkipped, items)| == Count(Configured, items)
  {
    if items != [] {
      var init, last := items[..|items| - 1], items[|items| - 1];
      assert last in items;
      assert forall item :: item in init ==> item in items;
      ConfiguredAccounted(init);
    }
  }

  /** The `passed` verdict of the matrix summary. */
  predicate MatrixPassed(m: Matrix) {
    m.results != [] && forall item :: item in m.results && item.Repo? && item.outcome.Completed? ==> item.outcome.passed
  }

  ghost predicate AllPassed(items: seq<Item>) {
    forall item :: item in items && Configured(item) ==> item.outcome.Completed? && item.outcome.passed
  }

  /** Skipped repos do not count against the verdict: a passing matrix covers every configured
      repo exactly when nothing was skipped. */
  lemma PassedCoversAll(items: seq<Item>)
    requires forall item :: item in items ==> !Aborts(item)
    requires MatrixPassed(Matrix(Filter(IsResult, items), Filter(IsSkipped, items)))
    ensures AllPassed(items) <==> Filter(IsSkipped, items) == []
  {
    FilterMembers(IsResult, items);
    FilterMembers(IsSkipped, items);
    if Filter(IsSkipped, items) != [] {
      var item := Filter(IsSkipped, items)[0];
      assert item in Filter(IsSkipped, items);
      assert item in items && Configured(item) && !item.outcome.Completed?;
    }
    forall item | item in items && Configured(item) && Filter(IsSkipped, items) == []
      ensures item.outcome.Completed? && item.outcome.passed
    {
      assert IsSkipped(item) ==> item in Filter(IsSkipped, items);
      assert item in Filter(IsResult, items);
    }
  }

  /** The failing case: one passing repo beside one whose git could not be launched, and the
      matrix passes although a configured repo never ran. */
  lemma PassedMayMissRepos(good: Item, gone: Item)
    requires IsResult(good) && good.outcome.passed && IsSkipped(gone)
    ensures var m := Matrix(Filter(IsResult, [good, gone]), Filter(IsSkipped, [good, gone]));
            m == Matrix([good], [gone]) && MatrixPassed(m) && !AllPassed([good, gone])
  {
    var items := [good, gone];
    assert items[..1] == [good] && [good][..0] == [];
    assert Filter(IsResult, [good]) == [good] && Filter(IsSkipped, [good]) == [];
    assert gone in items && Configured(gone);
  }

  // ----- the loop in terms of its items -----

  /** A named repo whose benchmark completed is a result, one whose RuntimeError mentions that git
      could not be launched is skipped, and any other failure aborts the loop; anything without a
      name is passed over. */
  lemma ItemFate(items: seq<Item>, item: Item)
    ensures item in Filter(IsResult, items) <==>
            item in items && item.Repo? && Strip(item.name) != "" && item.outcome.Completed?
    ensures item in Filter(IsSkipped, items) <==>
            && item in items && item.Repo? && Strip(item.name) != "" && item.outcome.RuntimeFailure?
            && Contains(Lower(item.outcome.message), "error launching git:")
    ensures Aborts(item) <==>
            && item.Repo? && Strip(item.name) != ""
            && (item.outcome.OtherFailure?
                || (item.outcome.RuntimeFailure? && !Contains(Lower(item.outcome.message), "error launching git:")))
  {
    FilterMembers(IsResult, items);
    FilterMembers(IsSkipped, items);
    assert LAUNCH_ERROR == "error launching git:";
    hide LAUNCH_ERROR, Strip, Lower, Contains, Filter;
  }

  /** The matrix passes exactly when some named repo completed and all that did passed. */
  lemma MatrixPassesExactly(items: seq<Item>)
    ensures MatrixPassed(Matrix(Filter(IsResult, items), Filter(IsSkipped, items))) <==>
            && (exists item :: item in items && item.Repo? && Strip(item.name) != "" && item.outcome.Completed?)
            && forall item :: item in items && item.Repo? && Strip(item.name) != "" && item.outcome.Completed? ==>
                 item.outcome.passed
  {
    var results := Filter(IsResult, items);
    FilterMembers(IsResult, items);
    hide Strip, Filter;
    if results != [] {
      assert results[0] in results;
    }
  }
}
