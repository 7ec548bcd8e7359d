/** The git checkout protocol of scripts/run_benchmark_matrix.py, driven by an
    arbitrary oracle that decides what every git command returns. */
module Checkout {
  import opened Prelude
  import opened Sequences
  import opened Text
  import PackedRefs

  datatype Command =
    | Clone(url: string, gitRef: string, target: string)
    | Fetch(target: string, gitRef: string)
    | CheckoutFetchHead(target: string)
    | SubmoduleSync(target: string)
    | SubmoduleUpdate(target: string, paths: seq<string>)
    | RevParse(target: string)

  datatype CommandResult = CommandResult(returncode: int, stdout: string, stderr: string)

  datatype Event = Event(cmd: Command, result: CommandResult)

  type Trace = seq<Event>

  /** An arbitrary git: what it answers, as a function of everything run before, and how its
      failures are told apart. */
  datatype Git = Git(
    answer: (Trace, Command) -> CommandResult,
    networkError: CommandResult -> bool,
    launchError: CommandResult -> bool)

  datatype Failure =
    | Invalid(message: string)
    | CommandFailed(step: string, cmd: Command, result: CommandResult)

  // ----- classification of results -----

  const NETWORK_ERRORS: seq<string> := [
    "schannel: failed to receive handshake",
    "ssl/tls connection failed",
    "gnutls recv error",
    "connection reset by peer",
    "the remote end hung up unexpectedly",
    "failed to connect",
    "operation timed out",
    "tlsv1 alert"
  ]

  const LAUNCH_ERROR: string := "error launching git:"

  function Combined(r: CommandResult): string {
    Lower(r.stdout + "\n" + r.stderr)
  }

  predicate MentionsNetworkError(r: CommandResult) {
    exists f :: f in NETWORK_ERRORS && Contains(Combined(r), f)
  }

  predicate MentionsLaunchError(r: CommandResult) {
    Contains(Combined(r), LAUNCH_ERROR)
  }

  /** Git as the script sees it: failures are classified by their output. */
  function ScriptGit(answer: (Trace, Command) -> CommandResult): Git {
    Git(answer, MentionsNetworkError, MentionsLaunchError)
  }

  predicate Retryable(git: Git, r: CommandResult) {
    r.returncode != 0 && git.networkError(r)
  }

  predicate Unavailable(git: Git, r: CommandResult) {
    r.returncode != 0 && git.launchError(r)
  }

  predicate Succeeded(e: Event) {
    e.result.returncode == 0
  }

  // ----- the retry loop -----

  const DEFAULT_ATTEMPTS: int := 3

  datatype Run = Run(trace: Trace, outcome: Result<CommandResult, Failure>)

  /** The retry loop from its given attempt on. */
  function Retry(git: Git, trace: Trace, cmd: Command, step: string, attempts: int, attempt: nat): Run
    requires 1 <= attempt
    decreases attempts - attempt
  {
    var r := git.answer(trace, cmd);
    var after := trace + [Event(cmd, r)];
    if r.returncode == 0 then Run(after, Ok(r))
    else if attempt >= attempts || !Retryable(git, r) then Run(after, Err(CommandFailed(step, cmd, r)))
    else Retry(git, after, cmd, step, attempts, attempt + 1)
  }

  /** One command whose failure is final: `_require_success`. */
  function Once(git: Git, trace: Trace, cmd: Command, step: string): Run {
    var r := git.answer(trace, cmd);
    Run(trace + [Event(cmd, r)], if r.returncode == 0 then Ok(r) else Err(CommandFailed(step, cmd, r)))
  }

  ghost predicate RetryShape(git: Git, run: Run, trace: Trace, cmd: Command, budget: int) {
    && |trace| < |run.trace| <= |trace| + budget
    && run.trace[..|trace|] == trace
    && (forall i :: |trace| <= i < |run.trace| ==> run.trace[i].cmd == cmd)
    && (forall i :: |trace| <= i < |run.trace| - 1 ==> Retryable(git, run.trace[i].result))
    && (match run.outcome
        case Ok(r) => run.trace[|run.trace| - 1] == Event(cmd, r) && r.returncode == 0
        case Err(e) =>
          && e.CommandFailed? && e.cmd == cmd && e.result.returncode != 0
          && run.trace[|run.trace| - 1] == Event(cmd, e.result)
          && (|run.trace| < |trace| + budget ==> !Retryable(git, e.result)))
  }

  lemma RetryShapeStep(git: Git, run: Run, trace: Trace, cmd: Command, r: CommandResult, budget: int)
    requires RetryShape(git, run, trace + [Event(cmd, r)], cmd, budget) && Retryable(git, r)
    ensures RetryShape(git, run, trace, cmd, budget + 1)
  {
    var after := trace + [Event(cmd, r)];
    assert run.trace[..|trace|] == run.trace[..|after|][..|trace|] == trace;
    assert run.trace[|trace|] == run.trace[..|after|][|trace|];
  }

  /** The loop issues between one and max(1, attempts) copies of its command, goes round only
      after a retryable failure, never returns a failing result, and gives up before its last
      attempt only on a failure that is not retryable. */
  lemma {:induction false} RetryMeaning(git: Git, trace: Trace, cmd: Command, step: string, attempts: int, attempt: nat)
    requires 1 <= attempt
    ensures RetryShape(git, Retry(git, trace, cmd, step, attempts, attempt), trace, cmd, Max(1, attempts - attempt + 1))
    decreases attempts - attempt
  {
    var r := git.answer(trace, cmd);
    if r.returncode != 0 && attempt < attempts && Retryable(git, r) {
      var after := trace + [Event(cmd, r)];
      RetryMeaning(git, after, cmd, step, attempts, attempt + 1);
      RetryShapeStep(git, Retry(git, after, cmd, step, attempts, attempt + 1), trace, cmd, r, attempts - attempt);
    }
  }

  // ----- submodules -----

  /** The raw `submodules` entry of a repo spec. */
  datatype Submodules = Flag(on: bool) | Single(path: string) | Listed(paths: seq<string>) | OtherValue(truthy: bool)

  predicate SubmodulesEnabled(raw: Submodules) {
    match raw
    case Flag(on) => on
    case Single(path) => path != ""
    case Listed(paths) => paths != []
    case OtherValue(truthy) => truthy
  }

  function SubmodulePaths(raw: Submodules): seq<string> {
    match raw
    case Flag(_) => []
    case Single(path) => if Strip(path) == "" then [] else [Strip(path)]
    case Listed(paths) => CleanList(paths)
    case OtherValue(_) => []
  }

  // ----- the checkout -----

  datatype Spec = Spec(name: string, url: string, gitRef: string, submodules: Submodules)

  /** What the file system shows before the checkout starts. */
  datatype World = World(hasGitDir: bool, targetExists: bool, workspace: string)

  datatype Checkout = Checkout(
    name: string,
    gitRef: string,
    resolvedCommit: string,
    submodulesEnabled: bool,
    submodulePaths: seq<string>,
    reused: bool)

  datatype CheckoutRun = CheckoutRun(trace: Trace, outcome: Result<Checkout, Failure>)

  function RefOf(spec: Spec): string {
    Strip(if spec.gitRef == "" then "main" else spec.gitRef)
  }

  function TargetOf(spec: Spec, world: World): string {
    world.workspace + "/" + Strip(spec.name)
  }

  /** The commands that must succeed, in this order, for a refreshed checkout. */
  function Plan(spec: Spec, world: World): seq<Command> {
    var target := TargetOf(spec, world);
    (if world.hasGitDir then [Fetch(target, RefOf(spec)), CheckoutFetchHead(target)]
     else [Clone(Strip(spec.url), RefOf(spec), target)])
    + (if SubmodulesEnabled(spec.submodules)
       then [SubmoduleSync(target), SubmoduleUpdate(target, SubmodulePaths(spec.submodules))] else [])
    + [RevParse(target)]
  }

  /** Reusing the existing checkout once git cannot be launched. */
  function Reuse(trace: Trace, spec: Spec, gitDir: PackedRefs.GitDir): CheckoutRun {
    CheckoutRun(trace, Ok(Checkout(Strip(spec.name), RefOf(spec), PackedRefs.ResolveHead(gitDir),
                                   SubmodulesEnabled(spec.submodules), SubmodulePaths(spec.submodules), true)))
  }

  function Fail(run: Run): CheckoutRun
    requires run.outcome.Err?
  {
    CheckoutRun(run.trace, Err(run.outcome.error))
  }

  /** Submodule commands when enabled; the result only matters through its success. */
  function SyncSubmodules(git: Git, trace: Trace, spec: Spec, world: World): Run {
    var target, name := TargetOf(spec, world), Strip(spec.name);
    if !SubmodulesEnabled(spec.submodules) then Run(trace, Ok(CommandResult(0, "", "")))
    else
      var sync := Retry(git, trace, SubmoduleSync(target), "submodule sync " + name, DEFAULT_ATTEMPTS, 1);
      if sync.outcome.Err? then sync
      else Retry(git, sync.trace, SubmoduleUpdate(target, SubmodulePaths(spec.submodules)),
                 "submodule update " + name, DEFAULT_ATTEMPTS, 1)
  }

  /** Submodules, then the commit of HEAD. */
  function Finish(git: Git, trace: Trace, spec: Spec, world: World): CheckoutRun {
    var subs := SyncSubmodules(git, trace, spec, world);
    if subs.outcome.Err? then Fail(subs)
    else
      var rev := Once(git, subs.trace, RevParse(TargetOf(spec, world)), "resolve head " + Strip(spec.name));
      if rev.outcome.Err? then Fail(rev)
      else CheckoutRun(rev.trace, Ok(Checkout(Strip(spec.name), RefOf(spec), Strip(rev.outcome.value.stdout),
                                              SubmodulesEnabled(spec.submodules),
                                              if SubmodulesEnabled(spec.submodules) then SubmodulePaths(spec.submodules)
                                              else [],
                                              false)))
  }

  /** FETCH_HEAD is checked out; only after a first-try fetch is a missing git tolerated. */
  function AfterFetch(
    git: Git, trace: Trace, spec: Spec, world: World, gitDir: PackedRefs.GitDir, tolerant: bool): CheckoutRun
  {
    var checkout := Once(git, trace, CheckoutFetchHead(TargetOf(spec, world)), "checkout " + Strip(spec.name));
    if tolerant && Unavailable(git, checkout.trace[|trace|].result) then Reuse(checkout.trace, spec, gitDir)
    else if checkout.outcome.Err? then Fail(checkout)
    else Finish(git, checkout.trace, spec, world)
  }

  /** Refreshing an existing checkout. */
  function Refresh(git: Git, spec: Spec, world: World, gitDir: PackedRefs.GitDir): CheckoutRun {
    var cmd, step := Fetch(TargetOf(spec, world), RefOf(spec)), "fetch " + Strip(spec.name);
    var fetch := Once(git, [], cmd, step);
    var first := fetch.trace[0].result;
    if fetch.outcome.Ok? then AfterFetch(git, fetch.trace, spec, world, gitDir, true)
    else if Unavailable(git, first) then Reuse(fetch.trace, spec, gitDir)
    else if Retryable(git, first) then
      var again := Retry(git, fetch.trace, cmd, step, DEFAULT_ATTEMPTS, 1);
      if again.outcome.Err? then Fail(again) else AfterFetch(git, again.trace, spec, world, gitDir, false)
    else Fail(fetch)
  }

  function Ensure(git: Git, spec: Spec, world: World, gitDir: PackedRefs.GitDir): CheckoutRun {
    var name := Strip(spec.name);
    if name == "" then CheckoutRun([], Err(Invalid("repo matrix item missing name")))
    else if Strip(spec.url) == "" then CheckoutRun([], Err(Invalid("repo matrix item " + name + " missing url")))
    else if world.hasGitDir then Refresh(git, spec, world, gitDir)
    else if world.targetExists then
      CheckoutRun([], Err(Invalid("checkout target exists without .git: " + TargetOf(spec, world))))
    else
      var cmd := Clone(Strip(spec.url), RefOf(spec), TargetOf(spec, world));
      var clone := Retry(git, [], cmd, "clone " + name, DEFAULT_ATTEMPTS, 1);
      if clone.outcome.Err? then Fail(clone) else Finish(git, clone.trace, spec, world)
  }

  // ----- the same protocol as the script runs it -----

  /** One checkout session: the commands it issues are appended to its trace. */
  class Session {
    const git: Git
    var trace: Trace

    constructor (answer: (Trace, Command) -> CommandResult)
      ensures git == ScriptGit(answer) && trace == []
    {
      git := ScriptGit(answer);
      trace := [];
    }

    method RunCommand(cmd: Command) returns (r: CommandResult)
      modifies this
      ensures r == git.answer(old(trace), cmd)
      ensures trace == old(trace) + [Event(cmd, r)]
    {
      r := git.answer(trace, cmd);
      trace := trace + [Event(cmd, r)];
    }

    method RunWithRetry(cmd: Command, step: string, attempts: int) returns (outcome: Result<CommandResult, Failure>)
      modifies this
      ensures Run(trace, outcome) == Retry(git, old(trace), cmd, step, attempts, 1)
    {
      var attempt := 1;
      while attempt <= Max(1, attempts)
        invariant 1 <= attempt <= Max(1, attempts)
        invariant Retry(git, trace, cmd, step, attempts, attempt) == Retry(git, old(trace), cmd, step, attempts, 1)
      {
        var r := RunCommand(cmd);
        if r.returncode == 0 {
          return Ok(r);
        }
        if attempt >= attempts || !Retryable(git, r) {
          return Err(CommandFailed(step, cmd, r));
        }
        attempt := attempt + 1;
      }
    }

    method SyncCheckoutSubmodules(spec: Spec, world: World) returns (outcome: Result<CommandResult, Failure>)
      modifies this
      ensures Run(trace, outcome) == SyncSubmodules(git, old(trace), spec, world)
    {
      if !SubmodulesEnabled(spec.submodules) {
        return Ok(CommandResult(0, "", ""));
      }
      var target := TargetOf(spec, world);
      outcome := RunWithRetry(SubmoduleSync(target), "submodule sync " + Strip(spec.name), DEFAULT_ATTEMPTS);
      if outcome.Err? {
        return;
      }
      outcome := RunWithRetry(SubmoduleUpdate(target, SubmodulePaths(spec.submodules)),
                              "submodule update " + Strip(spec.name), DEFAULT_ATTEMPTS);
    }

    /** Fetch and check out; `unavailable` is the script's `git_unavailable` flag. */
    method RefreshCheckout(spec: Spec, world: World) returns (unavailable: bool, failure: Option<Failure>)
      requires trace == []
      modifies this
      ensures forall gitDir :: Refresh(git, spec, world, gitDir)
                == if failure.Some? then CheckoutRun(trace, Err(failure.value))
                   else if unavailable then Reuse(trace, spec, gitDir)
                   else Finish(git, trace, spec, world)
    {
      unavailable, failure := false, None;
      var target, name := TargetOf(spec, world), Strip(spec.name);
      var fetchCmd, headCmd := Fetch(target, RefOf(spec)), CheckoutFetchHead(target);
      var fetch := RunCommand(fetchCmd);
      if fetch.returncode == 0 {
        var checkout := RunCommand(headCmd);
        if Unavailable(git, checkout) {
          unavailable := true;
        } else if checkout.returncode != 0 {
          failure := Some(CommandFailed("checkout " + name, headCmd, checkout));
        }
      } else if Unavailable(git, fetch) {
        unavailable := true;
      } else if Retryable(git, fetch) {
        var again := RunWithRetry(fetchCmd, "fetch " + name, DEFAULT_ATTEMPTS);
        if again.Err? {
          failure := Some(again.error);
        } else {
          var checkout := RunCommand(headCmd);
          if checkout.returncode != 0 {
            failure := Some(CommandFailed("checkout " + name, headCmd, checkout));
          }
        }
      } else {
        failure := Some(CommandFailed("fetch " + name, fetchCmd, fetch));
      }
    }

    method EnsureCheckout(spec: Spec, world: World, gitDir: PackedRefs.GitDir)
      returns (outcome: Result<Checkout, Failure>)
      requires trace == []
      modifies this
      ensures CheckoutRun(trace, outcome) == Ensure(git, spec, world, gitDir)
    {
      var name := Strip(spec.name);
      if name == "" {
        return Err(Invalid("repo matrix item missing name"));
      }
      if Strip(spec.url) == "" {
        return Err(Invalid("repo matrix item " + name + " missing url"));
      }
      var unavailable := false;
      if !world.hasGitDir {
        if world.targetExists {
          return Err(Invalid("checkout target exists without .git: " + TargetOf(spec, world)));
        }
        var cmd := Clone(Strip(spec.url), RefOf(spec), TargetOf(spec, world));
        var clone := RunWithRetry(cmd, "clone " + name, DEFAULT_ATTEMPTS);
        if clone.Err? {
          return Err(clone.error);
        }
      } else {
        var failure;
        unavailable, failure := RefreshCheckout(spec, world);
        if failure.Some? {
          return Err(failure.value);
        }
      }
      var commit, paths := "", SubmodulePaths(spec.submodules);
      if unavailable {
        commit := PackedRefs.ResolveHeadWithoutGit(gitDir);
      } else {
        var subs := SyncCheckoutSubmodules(spec, world);
        if subs.Err? {
          return Err(subs.error);
        }
        var revCmd := RevParse(TargetOf(spec, world));
        var rev := RunCommand(revCmd);
        if rev.returncode != 0 {
          return Err(CommandFailed("resolve head " + name, revCmd, rev));
        }
        commit := Strip(rev.stdout);
        if !SubmodulesEnabled(spec.submodules) {
          paths := [];
        }
      }
      return Ok(Checkout(name, RefOf(spec), commit, SubmodulesEnabled(spec.submodules), paths, unavailable));
    }
  }
}
