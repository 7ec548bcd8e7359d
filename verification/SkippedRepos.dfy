/** Which failed checkouts the repo loop of scripts/run_benchmark_matrix.py skips, and when a
    repo is skipped although git was there. */
module SkippedRepos {
  import opened Prelude
  import opened Sequences
  import opened Text
  import opened Checkout
  import opened MatrixRun
  import CheckoutSafety
  import PackedRefs

  // ----- what the loop makes of a failed checkout -----

  /** What a failed checkout means for the loop: a ValueError escapes, a RuntimeError is looked at. */
  function CheckoutFailure(e: Failure): Outcome {
    match e
    case Invalid(_) => OtherFailure
    case CommandFailed(step, cmd, result) => RuntimeFailure(Message(step, cmd, result))
  }

  lemma LaunchErrorClean()
    ensures '\n' !in LAUNCH_ERROR && |LAUNCH_ERROR| > 7 && Clean(LAUNCH_ERROR)
  {
  }

  /** A repo whose checkout failed because git could not be launched never aborts the matrix,
      whichever command was affected and whichever stream named the failure. */
  lemma UnavailableNeverAborts(
    answer: (Trace, Command) -> CommandResult, name: string, step: string, cmd: Command, r: CommandResult)
    requires Unavailable(ScriptGit(answer), r)
    ensures !Aborts(Repo(name, CheckoutFailure(CommandFailed(step, cmd, r))))
  {
    hide LAUNCH_ERROR, Message, Combined, Contains, Clean;
    LaunchErrorClean();
    MessageKeeps(step, cmd, r, LAUNCH_ERROR);
  }

  /** The words of the step and of the command, repo name and url among them, look like git
      could not be launched. */
  predicate Misleading(e: Failure) {
    e.CommandFailed? && Contains(Lower(Headline(e.step, e.cmd, e.result.returncode)), LAUNCH_ERROR)
  }

  /** A failed command makes the loop skip the repo exactly when it showed git to be unavailable,
      or the error's own headline reads like that; otherwise it aborts the matrix. */
  lemma CommandFailureVerdict(answer: (Trace, Command) -> CommandResult, name: string, e: Failure)
    requires Strip(name) != "" && e.CommandFailed? && e.result.returncode != 0
    ensures var item := Repo(name, CheckoutFailure(e));
            && (IsSkipped(item) <==> Unavailable(ScriptGit(answer), e.result) || Misleading(e))
            && (Aborts(item) <==> !IsSkipped(item))
  {
    hide LAUNCH_ERROR, Message, Headline, Contains, Combined, Clean;
    LaunchErrorClean();
    MessageShows(e.step, e.cmd, e.result, LAUNCH_ERROR);
  }

  /** How a failed checkout ends, for every git and every repo with a name: an invalid spec or
      target aborts the matrix without a command having been issued; otherwise the last command
      failed, and the repo is skipped exactly when that command showed git to be unavailable or
      the headline of the error reads like that, and aborts the matrix in all other cases. */
  lemma CheckoutFailureVerdict(
    answer: (Trace, Command) -> CommandResult, spec: Spec, world: World, gitDir: PackedRefs.GitDir)
    requires Strip(spec.name) != "" && Ensure(ScriptGit(answer), spec, world, gitDir).outcome.Err?
    ensures var run := Ensure(ScriptGit(answer), spec, world, gitDir);
            var (item, e) := (Repo(spec.name, CheckoutFailure(run.outcome.error)), run.outcome.error);
            && (Aborts(item) <==> !IsSkipped(item))
            && (run.trace == [] <==> e.Invalid?)
            && (run.trace == [] ==> Aborts(item))
            && (run.trace != [] ==>
                  (IsSkipped(item) <==>
                   Unavailable(ScriptGit(answer), run.trace[|run.trace| - 1].result) || Misleading(e)))
  {
    CheckoutSafety.EnsureSafe(ScriptGit(answer), spec, world, gitDir);
    var run := Ensure(ScriptGit(answer), spec, world, gitDir);
    hide Ensure, ScriptGit, Message, Headline, Unavailable, Contains;
    if run.outcome.error.CommandFailed? {
      CommandFailureVerdict(answer, spec.name, run.outcome.error);
    }
  }

  function SilentFailure(): (Trace, Command) -> CommandResult {
    (trace: Trace, cmd: Command) => CommandResult(128, "", "")
  }

  function MisnamedSpec(url: string): Spec {
    Spec(LAUNCH_ERROR, url, "main", Flag(false))
  }

  /** The failing case: git runs and refuses to clone a repo of this name, and the repo is skipped
      as if git were missing. */
  lemma MisnamedRepoSkipped(url: string, world: World, gitDir: PackedRefs.GitDir)
    requires Strip(url) != "" && !world.hasGitDir && !world.targetExists
    ensures var run := Ensure(ScriptGit(SilentFailure()), MisnamedSpec(url), world, gitDir);
            && run.outcome.Err? && |run.trace| == 1
            && !Unavailable(ScriptGit(SilentFailure()), run.trace[0].result)
            && IsSkipped(Repo(LAUNCH_ERROR, CheckoutFailure(run.outcome.error)))
  {
    var git, r, step := ScriptGit(SilentFailure()), CommandResult(128, "", ""), "clone " + LAUNCH_ERROR;
    var cmd := Clone(Strip(url), RefOf(MisnamedSpec(url)), TargetOf(MisnamedSpec(url), world));
    hide Lower, Strip, Contains, Headline, Combined, LAUNCH_ERROR, NETWORK_ERRORS, RefOf, TargetOf;
    LaunchErrorText();
    QuietFailure(r);
    assert Retry(git, [], cmd, step, DEFAULT_ATTEMPTS, 1) == Run([Event(cmd, r)], Err(CommandFailed(step, cmd, r)));
    HeadlineNames(step, cmd, 128, "clone ", LAUNCH_ERROR);
    CommandFailureVerdict(SilentFailure(), LAUNCH_ERROR, CommandFailed(step, cmd, r));
  }

  lemma QuietFailure(r: CommandResult)
    requires r.stdout == r.stderr == ""
    ensures !MentionsNetworkError(r) && !MentionsLaunchError(r)
  {
    assert |LAUNCH_ERROR| > 1 && forall i :: 0 <= i < |NETWORK_ERRORS| ==> |NETWORK_ERRORS[i]| > 1;
    hide NETWORK_ERRORS, LAUNCH_ERROR;
    QuietCommand(r, LAUNCH_ERROR);
    forall f | f in NETWORK_ERRORS ensures !Contains(Combined(r), f) {
      QuietCommand(r, f);
    }
  }

  lemma LaunchErrorText()
    ensures Lower(LAUNCH_ERROR) == LAUNCH_ERROR && Strip(LAUNCH_ERROR) == LAUNCH_ERROR != ""
  {
    assert Clean(LAUNCH_ERROR);
    assert forall i :: 0 <= i < |LAUNCH_ERROR| ==> !('A' <= LAUNCH_ERROR[i] <= 'Z');
    hide Lower, Strip;
    LowerFixed(LAUNCH_ERROR);
    StripFixed(LAUNCH_ERROR);
  }

  lemma QuietCommand(r: CommandResult, m: string)
    requires r.stdout == r.stderr == "" && |m| > 1
    ensures !Contains(Combined(r), m)
  {
    assert Combined(r) == Lower("\n");
  }

  lemma HeadlineNames(step: string, cmd: Command, returncode: int, lead: string, name: string)
    requires step == lead + name
    ensures Contains(Lower(Headline(step, cmd, returncode)), Lower(name))
  {
    var tail := FailureText(cmd, returncode);
    assert Headline(step, cmd, returncode) == step + tail;
    hide *;
    LowerAppend(step, tail);
    LowerAppend(lead, name);
    Itself(Lower(name));
    ContainsWiden(Lower(lead), Lower(name), Lower(tail), Lower(name));
  }

  // ----- the headline of an error -----

  function Verb(cmd: Command): string {
    match cmd
    case Clone(_, _, _) => "clone "
    case Fetch(_, _) => "fetch "
    case CheckoutFetchHead(_) => "checkout "
    case SubmoduleSync(_) => "submodule sync "
    case SubmoduleUpdate(_, _) => "submodule update "
    case RevParse(_) => "resolve head "
  }

  /** The step text of a command, as it heads the error. */
  function Label(spec: Spec, cmd: Command): string {
    Verb(cmd) + Strip(spec.name)
  }

  /** Neither the repo name nor the words of the command read like git could not be launched. */
  predicate PlainCommand(spec: Spec, cmd: Command) {
    !Contains(Lower(Strip(spec.name)), LAUNCH_ERROR) && !Contains(Lower(CommandLine(cmd)), LAUNCH_ERROR)
  }

  /** Lower case, not ending in an e, and without "er". */
  predicate PlainWord(v: string) {
    v != "" && v[|v| - 1] != 'e'
    && (forall i :: 0 <= i < |v| ==> !('A' <= v[i] <= 'Z'))
    && (forall i :: 0 <= i < |v| - 1 ==> !(v[i] == 'e' && v[i + 1] == 'r'))
  }

  lemma LaunchErrorStart()
    ensures |LAUNCH_ERROR| >= 2 && LAUNCH_ERROR[0] == 'e' && LAUNCH_ERROR[1] == 'r'
  {
  }

  lemma LaunchErrorEnd()
    ensures LAUNCH_ERROR[|LAUNCH_ERROR| - 1] == ':' && '\n' !in LAUNCH_ERROR
  {
  }

  lemma PlainWordStart(v: string)
    requires PlainWord(v)
    ensures NoStart(v, LAUNCH_ERROR) && Lower(v) == v
  {
    LaunchErrorStart();
    hide LAUNCH_ERROR, Lower;
    LowerFixed(v);
  }

  lemma SubmoduleVerbsPlain()
    ensures PlainWord("submodule sync ") && PlainWord("submodule update ")
  {
  }

  lemma VerbPlain(cmd: Command)
    ensures PlainWord(Verb(cmd))
  {
    if cmd.SubmoduleSync? || cmd.SubmoduleUpdate? {
      SubmoduleVerbsPlain();
      hide PlainWord;
    }
  }

  lemma LabelShows(spec: Spec, cmd: Command)
    ensures Contains(Lower(Label(spec, cmd)), LAUNCH_ERROR) <==> Contains(Lower(Strip(spec.name)), LAUNCH_ERROR)
  {
    var v, name := Verb(cmd), Strip(spec.name);
    VerbPlain(cmd);
    hide Verb;
    PlainWordStart(v);
    LowerAppend(v, name);
    hide PlainWord, LAUNCH_ERROR, Lower, Strip, Contains, NoStart;
    if Contains(Lower(name), LAUNCH_ERROR) {
      ContainsWiden(v, Lower(name), [], LAUNCH_ERROR);
      assert v + Lower(name) + [] == v + Lower(name);
    }
    if Contains(v + Lower(name), LAUNCH_ERROR) {
      ContainsAfter(v, Lower(name), LAUNCH_ERROR);
    }
  }

  lemma CmdTextStart()
    ensures NoStart(CMD_TEXT, LAUNCH_ERROR) && Lower(CMD_TEXT) == CMD_TEXT
  {
    assert PlainWord(CMD_TEXT);
    hide CMD_TEXT;
    PlainWordStart(CMD_TEXT);
  }

  lemma ExitTextEnd(returncode: int)
    ensures ':' !in Lower(EXIT_TEXT + Decimal(returncode))
  {
    assert ':' !in EXIT_TEXT;
    DecimalDigits(returncode);
    hide EXIT_TEXT, Decimal;
    LowerKeepsOut(EXIT_TEXT + Decimal(returncode), ':');
  }

  lemma HeadlineParts(step: string, cmd: Command, returncode: int)
    ensures Headline(step, cmd, returncode)
            == (step + (EXIT_TEXT + Decimal(returncode)) + "\n") + (CMD_TEXT + CommandLine(cmd))
  {
    hide Decimal, CommandLine, EXIT_TEXT, CMD_TEXT;
    var (exit, line) := (EXIT_TEXT + Decimal(returncode), CMD_TEXT + CommandLine(cmd));
    assert Headline(step, cmd, returncode) == step + (exit + "\n" + line);
  }

  lemma HeadlineLower(step: string, cmd: Command, returncode: int)
    ensures Lower(Headline(step, cmd, returncode))
         == (Lower(step) + Lower(EXIT_TEXT + Decimal(returncode))) + ['\n'] + (CMD_TEXT + Lower(CommandLine(cmd)))
  {
    var (exit, line) := (EXIT_TEXT + Decimal(returncode), CommandLine(cmd));
    HeadlineParts(step, cmd, returncode);
    CmdTextStart();
    assert Lower("\n") == ['\n'];
    hide *;
    LowerAppend(step + exit + "\n", CMD_TEXT + line);
    LowerAppend(step + exit, "\n");
    LowerAppend(step, exit);
    LowerAppend(CMD_TEXT, line);
  }

  /** What the headline of an error shows is what its step text or its command line shows. */
  lemma HeadlineShows(step: string, cmd: Command, returncode: int)
    ensures Contains(Lower(Headline(step, cmd, returncode)), LAUNCH_ERROR) <==>
            Contains(Lower(step), LAUNCH_ERROR) || Contains(Lower(CommandLine(cmd)), LAUNCH_ERROR)
  {
    var (a, exit, line) := (Lower(step), Lower(EXIT_TEXT + Decimal(returncode)), Lower(CommandLine(cmd)));
    HeadlineLower(step, cmd, returncode);
    ExitTextEnd(returncode);
    CmdTextStart();
    LaunchErrorStart();
    LaunchErrorEnd();
    hide Headline, LAUNCH_ERROR, EXIT_TEXT, CMD_TEXT, CommandLine, Lower, Contains, NoStart, Decimal;
    var whole := (a + exit) + ['\n'] + (CMD_TEXT + line);
    if Contains(whole, LAUNCH_ERROR) {
      ContainsSide(a + exit, '\n', CMD_TEXT + line, LAUNCH_ERROR);
      if Contains(a + exit, LAUNCH_ERROR) {
        ContainsBefore(a, exit, LAUNCH_ERROR);
      } else {
        ContainsAfter(CMD_TEXT, line, LAUNCH_ERROR);
      }
    }
    if Contains(a, LAUNCH_ERROR) {
      ContainsWiden([], a, exit + ['\n'] + (CMD_TEXT + line), LAUNCH_ERROR);
      assert [] + a + (exit + ['\n'] + (CMD_TEXT + line)) == whole;
    }
    if Contains(line, LAUNCH_ERROR) {
      ContainsWiden((a + exit) + ['\n'] + CMD_TEXT, line, [], LAUNCH_ERROR);
      assert ((a + exit) + ['\n'] + CMD_TEXT) + line + [] == whole;
    }
  }

  /** The words of a command start with git, and name all that it works on, in this order. */
  lemma WordsName(cmd: Command)
    ensures |Words(cmd)| > 2 && Words(cmd)[0] == "git"
    ensures match cmd
            case Clone(url, gitRef, target) => Words(cmd)[|Words(cmd)| - 3..] == [gitRef, url, target]
            case Fetch(target, gitRef) => Words(cmd)[2] == target && Words(cmd)[|Words(cmd)| - 1] == gitRef
            case CheckoutFetchHead(target) => Words(cmd)[2] == target
            case SubmoduleSync(target) => Words(cmd)[2] == target
            case SubmoduleUpdate(target, paths) =>
              Words(cmd)[2] == target && |paths| <= |Words(cmd)| && Words(cmd)[|Words(cmd)| - |paths|..] == paths
            case RevParse(target) => Words(cmd)[2] == target
  {
  }

  // ----- every error is headed by the label of its command -----

  predicate Labelled(spec: Spec, e: Failure) {
    e.CommandFailed? ==> e.step == Label(spec, e.cmd)
  }

  lemma {:induction false} RetryLabel(git: Git, ev: Trace, cmd: Command, step: string, attempts: int, attempt: nat)
    requires 1 <= attempt
    ensures var run := Retry(git, ev, cmd, step, attempts, attempt);
            run.outcome.Err? ==>
              run.outcome.error.CommandFailed? && run.outcome.error.step == step && run.outcome.error.cmd == cmd
    decreases attempts - attempt
  {
    var r := git.answer(ev, cmd);
    if r.returncode != 0 && attempt < attempts && Retryable(git, r) {
      RetryLabel(git, ev + [Event(cmd, r)], cmd, step, attempts, attempt + 1);
    }
  }

  lemma SubmodulesLabel(git: Git, ev: Trace, spec: Spec, world: World)
    ensures var run := SyncSubmodules(git, ev, spec, world);
            run.outcome.Err? ==> Labelled(spec, run.outcome.error)
  {
    hide Retry, SubmodulesEnabled, SubmodulePaths, TargetOf, Strip;
    var target, name := TargetOf(spec, world), Strip(spec.name);
    var sync := Retry(git, ev, SubmoduleSync(target), "submodule sync " + name, DEFAULT_ATTEMPTS, 1);
    RetryLabel(git, ev, SubmoduleSync(target), "submodule sync " + name, DEFAULT_ATTEMPTS, 1);
    RetryLabel(git, sync.trace, SubmoduleUpdate(target, SubmodulePaths(spec.submodules)),
               "submodule update " + name, DEFAULT_ATTEMPTS, 1);
  }

  lemma FinishLabel(git: Git, ev: Trace, spec: Spec, world: World)
    ensures var run := Finish(git, ev, spec, world);
            run.outcome.Err? ==> Labelled(spec, run.outcome.error)
  {
    SubmodulesLabel(git, ev, spec, world);
    hide SyncSubmodules, SubmodulesEnabled, SubmodulePaths, TargetOf, RefOf, Strip;
  }

  lemma AfterFetchLabel(git: Git, ev: Trace, spec: Spec, world: World, gitDir: PackedRefs.GitDir, tolerant: bool)
    ensures var run := AfterFetch(git, ev, spec, world, gitDir, tolerant);
            run.outcome.Err? ==> Labelled(spec, run.outcome.error)
  {
    hide Finish, SubmodulesEnabled, SubmodulePaths, TargetOf, RefOf, Strip, Unavailable, PackedRefs.ResolveHead;
    var checkout := Once(git, ev, CheckoutFetchHead(TargetOf(spec, world)), "checkout " + Strip(spec.name));
    FinishLabel(git, checkout.trace, spec, world);
  }

  lemma RefreshLabel(git: Git, spec: Spec, world: World, gitDir: PackedRefs.GitDir)
    ensures var run := Refresh(git, spec, world, gitDir);
            run.outcome.Err? ==> Labelled(spec, run.outcome.error)
  {
    hide AfterFetch, Retry, SubmodulesEnabled, SubmodulePaths, TargetOf, RefOf, Strip;
    hide Unavailable, Retryable, PackedRefs.ResolveHead;
    var cmd, step := Fetch(TargetOf(spec, world), RefOf(spec)), "fetch " + Strip(spec.name);
    var fetch := Once(git, [], cmd, step);
    var again := Retry(git, fetch.trace, cmd, step, DEFAULT_ATTEMPTS, 1);
    AfterFetchLabel(git, fetch.trace, spec, world, gitDir, true);
    AfterFetchLabel(git, again.trace, spec, world, gitDir, false);
    RetryLabel(git, fetch.trace, cmd, step, DEFAULT_ATTEMPTS, 1);
  }

  lemma EnsureLabel(git: Git, spec: Spec, world: World, gitDir: PackedRefs.GitDir)
    ensures var run := Ensure(git, spec, world, gitDir);
            run.outcome.Err? ==> Labelled(spec, run.outcome.error)
  {
    hide Refresh, Finish, Retry, TargetOf, RefOf, Strip;
    var cmd, step := Clone(Strip(spec.url), RefOf(spec), TargetOf(spec, world)), "clone " + Strip(spec.name);
    var clone := Retry(git, [], cmd, step, DEFAULT_ATTEMPTS, 1);
    RefreshLabel(git, spec, world, gitDir);
    RetryLabel(git, [], cmd, step, DEFAULT_ATTEMPTS, 1);
    FinishLabel(git, clone.trace, spec, world);
  }

  /** An error is misleading exactly when its command is not plain. */
  lemma MisleadingExactly(spec: Spec, e: Failure)
    requires e.CommandFailed? && Labelled(spec, e)
    ensures Misleading(e) <==> !PlainCommand(spec, e.cmd)
  {
    hide Headline, LAUNCH_ERROR, CommandLine, Lower, Contains, Label, Strip;
    HeadlineShows(e.step, e.cmd, e.result.returncode);
    LabelShows(spec, e.cmd);
  }

  // ----- a git that fails at one command only -----

  const REFUSAL: CommandResult := CommandResult(128, "", "")

  function FailsAt(bad: Command): (Trace, Command) -> CommandResult {
    (trace: Trace, cmd: Command) => if cmd == bad then REFUSAL else CommandResult(0, "", "")
  }

  lemma RefusalQuiet(bad: Command)
    ensures !Retryable(ScriptGit(FailsAt(bad)), REFUSAL) && !Unavailable(ScriptGit(FailsAt(bad)), REFUSAL)
    ensures REFUSAL.returncode != 0
  {
    QuietFailure(REFUSAL);
  }

  /** The failure of this very command ends the trace. */
  ghost predicate RefusedAt(bad: Command, trace: Trace, error: Failure) {
    && trace != [] && trace[|trace| - 1] == Event(bad, REFUSAL)
    && error.CommandFailed? && error.cmd == bad && error.result == REFUSAL
  }

  /** With such a git a command succeeds at once or is refused at once. */
  lemma OneAnswer(bad: Command, ev: Trace, cmd: Command, step: string)
    ensures var git := ScriptGit(FailsAt(bad));
            && Retry(git, ev, cmd, step, DEFAULT_ATTEMPTS, 1) == Once(git, ev, cmd, step)
            && (var run := Once(git, ev, cmd, step);
                if cmd == bad then
                  run.outcome.Err? && RefusedAt(bad, run.trace, run.outcome.error) && run.trace[|ev|].result == REFUSAL
                else run.outcome.Ok? && run.trace[|ev|].result.returncode == 0)
  {
    RefusalQuiet(bad);
    hide Retryable;
  }

  lemma SubmodulesRefused(bad: Command, ev: Trace, spec: Spec, world: World)
    ensures var run := SyncSubmodules(ScriptGit(FailsAt(bad)), ev, spec, world);
            var target := TargetOf(spec, world);
            if SubmodulesEnabled(spec.submodules)
               && (bad == SubmoduleSync(target) || bad == SubmoduleUpdate(target, SubmodulePaths(spec.submodules)))
            then run.outcome.Err? && RefusedAt(bad, run.trace, run.outcome.error)
            else run.outcome.Ok?
  {
    hide Retry, Once, ScriptGit, FailsAt, SubmodulesEnabled, SubmodulePaths, TargetOf, Strip, RefusedAt;
    var git, target, name := ScriptGit(FailsAt(bad)), TargetOf(spec, world), Strip(spec.name);
    var sync := Retry(git, ev, SubmoduleSync(target), "submodule sync " + name, DEFAULT_ATTEMPTS, 1);
    OneAnswer(bad, ev, SubmoduleSync(target), "submodule sync " + name);
    OneAnswer(bad, sync.trace, SubmoduleUpdate(target, SubmodulePaths(spec.submodules)), "submodule update " + name);
  }

  /** The commands that follow the clone, or the checkout of FETCH_HEAD. */
  function Tail(spec: Spec, world: World): seq<Command> {
    Plan(spec, world)[CheckoutSafety.HeadSteps(world)..]
  }

  lemma FinishRefused(bad: Command, ev: Trace, spec: Spec, world: World)
    requires bad in Tail(spec, world)
    ensures var run := Finish(ScriptGit(FailsAt(bad)), ev, spec, world);
            run.outcome.Err? && RefusedAt(bad, run.trace, run.outcome.error)
  {
    CheckoutSafety.PlannedTail(spec, world);
    SubmodulesRefused(bad, ev, spec, world);
    hide Once, ScriptGit, FailsAt, SyncSubmodules, SubmodulesEnabled, SubmodulePaths, TargetOf, RefOf, Strip, RefusedAt;
    var subs := SyncSubmodules(ScriptGit(FailsAt(bad)), ev, spec, world);
    OneAnswer(bad, subs.trace, RevParse(TargetOf(spec, world)), "resolve head " + Strip(spec.name));
  }

  lemma PlanParts(spec: Spec, world: World)
    ensures var target := TargetOf(spec, world);
            Plan(spec, world) == (if world.hasGitDir then [Fetch(target, RefOf(spec)), CheckoutFetchHead(target)]
                                  else [Clone(Strip(spec.url), RefOf(spec), target)]) + Tail(spec, world)
  {
    hide TargetOf, RefOf, Strip, SubmodulesEnabled, SubmodulePaths;
  }

  lemma CloneRefused(bad: Command, spec: Spec, world: World, gitDir: PackedRefs.GitDir)
    requires Strip(spec.name) != "" && Strip(spec.url) != "" && !world.hasGitDir && !world.targetExists
    requires bad in Plan(spec, world)
    ensures var run := Ensure(ScriptGit(FailsAt(bad)), spec, world, gitDir);
            run.outcome.Err? && RefusedAt(bad, run.trace, run.outcome.error)
  {
    PlanParts(spec, world);
    hide Plan, Tail, Retry, Once, Finish, Refresh, ScriptGit, FailsAt, TargetOf, RefOf, Strip, RefusedAt;
    var cmd, step := Clone(Strip(spec.url), RefOf(spec), TargetOf(spec, world)), "clone " + Strip(spec.name);
    OneAnswer(bad, [], cmd, step);
    if cmd != bad {
      FinishRefused(bad, Retry(ScriptGit(FailsAt(bad)), [], cmd, step, DEFAULT_ATTEMPTS, 1).trace, spec, world);
    }
  }

  lemma AfterFetchRefused(bad: Command, ev: Trace, spec: Spec, world: World, gitDir: PackedRefs.GitDir)
    requires bad == CheckoutFetchHead(TargetOf(spec, world)) || bad in Tail(spec, world)
    ensures var run := AfterFetch(ScriptGit(FailsAt(bad)), ev, spec, world, gitDir, true);
            run.outcome.Err? && RefusedAt(bad, run.trace, run.outcome.error)
  {
    var cmd, step := CheckoutFetchHead(TargetOf(spec, world)), "checkout " + Strip(spec.name);
    OneAnswer(bad, ev, cmd, step);
    RefusalQuiet(bad);
    hide Plan, Tail, Once, Finish, ScriptGit, FailsAt, TargetOf, RefOf, Strip, RefusedAt, Reuse, REFUSAL;
    if cmd != bad {
      FinishRefused(bad, Once(ScriptGit(FailsAt(bad)), ev, cmd, step).trace, spec, world);
    }
  }

  lemma RefreshRefused(bad: Command, spec: Spec, world: World, gitDir: PackedRefs.GitDir)
    requires world.hasGitDir && bad in Plan(spec, world)
    ensures var run := Refresh(ScriptGit(FailsAt(bad)), spec, world, gitDir);
            run.outcome.Err? && RefusedAt(bad, run.trace, run.outcome.error)
  {
    var cmd, step := Fetch(TargetOf(spec, world), RefOf(spec)), "fetch " + Strip(spec.name);
    PlanParts(spec, world);
    OneAnswer(bad, [], cmd, step);
    RefusalQuiet(bad);
    hide Plan, Tail, Once, Retry, AfterFetch, ScriptGit, FailsAt, TargetOf, RefOf, Strip, RefusedAt, Reuse, REFUSAL;
    hide Unavailable, Retryable;
    if cmd != bad {
      AfterFetchRefused(bad, Once(ScriptGit(FailsAt(bad)), [], cmd, step).trace, spec, world, gitDir);
    }
  }

  lemma EnsureRefused(bad: Command, spec: Spec, world: World, gitDir: PackedRefs.GitDir)
    requires Strip(spec.name) != "" && Strip(spec.url) != "" && (world.hasGitDir || !world.targetExists)
    requires bad in Plan(spec, world)
    ensures var run := Ensure(ScriptGit(FailsAt(bad)), spec, world, gitDir);
            run.outcome.Err? && RefusedAt(bad, run.trace, run.outcome.error)
  {
    hide Plan, Refresh, ScriptGit, FailsAt, Strip, RefusedAt;
    if world.hasGitDir {
      RefreshRefused(bad, spec, world, gitDir);
    } else {
      CloneRefused(bad, spec, world, gitDir);
    }
  }

  /** No repo is skipped unless its last command showed git to be unavailable. */
  ghost predicate SkippedRightly(
    answer: (Trace, Command) -> CommandResult, spec: Spec, world: World, gitDir: PackedRefs.GitDir)
  {
    var run := Ensure(ScriptGit(answer), spec, world, gitDir);
    run.outcome.Err? && IsSkipped(Repo(spec.name, CheckoutFailure(run.outcome.error))) ==>
      run.trace != [] && Unavailable(ScriptGit(answer), run.trace[|run.trace| - 1].result)
  }

  lemma FailurePlanned(git: Git, spec: Spec, world: World, gitDir: PackedRefs.GitDir)
    requires var o := Ensure(git, spec, world, gitDir).outcome; o.Err? && o.error.CommandFailed?
    ensures var run := Ensure(git, spec, world, gitDir);
            && run.trace != [] && run.trace[|run.trace| - 1] == Event(run.outcome.error.cmd, run.outcome.error.result)
            && run.outcome.error.cmd in Plan(spec, world) && run.outcome.error.result.returncode != 0
  {
    CheckoutSafety.EnsureSafe(git, spec, world, gitDir);
    hide Ensure, Plan;
    CheckoutSafety.LastStep(git, Ensure(git, spec, world, gitDir).trace, Plan(spec, world));
  }

  lemma PlainSkips(answer: (Trace, Command) -> CommandResult, spec: Spec, world: World, gitDir: PackedRefs.GitDir)
    requires Strip(spec.name) != "" && forall cmd :: cmd in Plan(spec, world) ==> PlainCommand(spec, cmd)
    ensures SkippedRightly(answer, spec, world, gitDir)
  {
    var git := ScriptGit(answer);
    var run := Ensure(git, spec, world, gitDir);
    hide Ensure, Plan, ScriptGit, PlainCommand, Strip, Misleading, Label, Unavailable;
    if run.outcome.Err? && run.outcome.error.CommandFailed? {
      FailurePlanned(git, spec, world, gitDir);
      EnsureLabel(git, spec, world, gitDir);
      MisleadingExactly(spec, run.outcome.error);
      CommandFailureVerdict(answer, spec.name, run.outcome.error);
    }
  }

  lemma MisnamedSkips(bad: Command, spec: Spec, world: World, gitDir: PackedRefs.GitDir)
    requires Strip(spec.name) != "" && Strip(spec.url) != "" && (world.hasGitDir || !world.targetExists)
    requires bad in Plan(spec, world) && !PlainCommand(spec, bad)
    ensures !SkippedRightly(FailsAt(bad), spec, world, gitDir)
  {
    hide Ensure, Plan, ScriptGit, PlainCommand, Strip, Misleading, Label, Unavailable, FailsAt, REFUSAL;
    hide IsSkipped, Aborts, CheckoutFailure, Labelled;
    var git := ScriptGit(FailsAt(bad));
    var run := Ensure(git, spec, world, gitDir);
    EnsureRefused(bad, spec, world, gitDir);
    EnsureLabel(git, spec, world, gitDir);
    RefusalQuiet(bad);
    MisleadingExactly(spec, run.outcome.error);
    CommandFailureVerdict(FailsAt(bad), spec.name, run.outcome.error);
  }

  /** Whatever git answers, a repo that can be checked out is skipped only when git could not be
      launched, exactly when neither its name nor any command planned for it reads like that. */
  lemma SkippedRightlyExactly(spec: Spec, world: World, gitDir: PackedRefs.GitDir)
    requires Strip(spec.name) != "" && Strip(spec.url) != "" && (world.hasGitDir || !world.targetExists)
    ensures (forall cmd :: cmd in Plan(spec, world) ==> PlainCommand(spec, cmd)) <==>
            forall answer :: SkippedRightly(answer, spec, world, gitDir)
  {
    hide Plan, PlainCommand, SkippedRightly, Strip;
    if forall cmd :: cmd in Plan(spec, world) ==> PlainCommand(spec, cmd) {
      forall answer ensures SkippedRightly(answer, spec, world, gitDir) {
        PlainSkips(answer, spec, world, gitDir);
      }
    } else {
      var bad :| bad in Plan(spec, world) && !PlainCommand(spec, bad);
      MisnamedSkips(bad, spec, world, gitDir);
    }
  }
}
