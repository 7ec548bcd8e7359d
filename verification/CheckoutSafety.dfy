/** What every checkout does, whatever git answers. */
module CheckoutSafety {
  import opened Prelude
  import opened Sequences
  import opened Text
  import opened Checkout
  import PackedRefs

  /** How many commands of the plan are done. */
  function Progress(ev: Trace): nat {
    Count(Succeeded, ev)
  }

  predicate Retried(cmd: Command) {
    !cmd.CheckoutFetchHead? && !cmd.RevParse?
  }

  /** Every command issued is the first one of the plan that has not succeeded yet, and a
      failure is followed by another command only if it was retryable and of a retried kind. */
  ghost predicate Follows(git: Git, ev: Trace, plan: seq<Command>)
  {
    ev == [] ||
    var init, last := ev[..|ev| - 1], ev[|ev| - 1];
    && Follows(git, init, plan)
    && Progress(init) < |plan| && last.cmd == plan[Progress(init)]
    && (init != [] && !Succeeded(init[|init| - 1]) ==>
          Retryable(git, init[|init| - 1].result) && Retried(init[|init| - 1].cmd))
  }

  lemma FollowsSnoc(git: Git, ev: Trace, e: Event, plan: seq<Command>)
    requires Follows(git, ev, plan) && Progress(ev) < |plan| && e.cmd == plan[Progress(ev)]
    requires ev != [] && !Succeeded(ev[|ev| - 1]) ==> Retryable(git, ev[|ev| - 1].result) && Retried(ev[|ev| - 1].cmd)
    ensures Follows(git, ev + [e], plan)
    ensures Progress(ev + [e]) == Progress(ev) + (if Succeeded(e) then 1 else 0)
  {
    assert (ev + [e])[..|ev|] == ev;
  }

  /** The trace may be extended: nothing has failed for good. */
  ghost predicate Open(git: Git, ev: Trace, plan: seq<Command>, cap: int) {
    && Follows(git, ev, plan) && |ev| <= cap
    && (ev != [] ==> Succeeded(ev[|ev| - 1]))
  }

  lemma {:induction false} RetryPrefixFollows(
    git: Git, run: Run, ev: Trace, plan: seq<Command>, cmd: Command, budget: int, n: nat)
    requires RetryShape(git, run, ev, cmd, budget) && |ev| <= n < |run.trace|
    requires Follows(git, ev, plan) && Progress(ev) < |plan| && plan[Progress(ev)] == cmd && Retried(cmd)
    requires ev != [] && !Succeeded(ev[|ev| - 1]) ==> Retryable(git, ev[|ev| - 1].result) && Retried(ev[|ev| - 1].cmd)
    ensures Follows(git, run.trace[..n], plan) && Progress(run.trace[..n]) == Progress(ev)
    ensures n > 0 && !Succeeded(run.trace[n - 1]) ==>
            Retryable(git, run.trace[n - 1].result) && Retried(run.trace[n - 1].cmd)
    decreases n
  {
    hide Follows, Retried, Progress;
    if n == |ev| {
      assert run.trace[..n] == ev;
      assert n > 0 ==> run.trace[n - 1] == run.trace[..n][n - 1];
    } else {
      RetryPrefixFollows(git, run, ev, plan, cmd, budget, n - 1);
      FollowsSnoc(git, run.trace[..n - 1], run.trace[n - 1], plan);
      PrefixStep(run.trace, n - 1);
    }
  }

  lemma RetryFollows(git: Git, run: Run, ev: Trace, plan: seq<Command>, cmd: Command, budget: int)
    requires RetryShape(git, run, ev, cmd, budget)
    requires Follows(git, ev, plan) && Progress(ev) < |plan| && plan[Progress(ev)] == cmd && Retried(cmd)
    requires ev != [] && !Succeeded(ev[|ev| - 1]) ==> Retryable(git, ev[|ev| - 1].result) && Retried(ev[|ev| - 1].cmd)
    ensures Follows(git, run.trace, plan)
    ensures Progress(run.trace) == Progress(ev) + (if run.outcome.Ok? then 1 else 0)
  {
    hide Follows, Retried, Retryable, Progress;
    var n := |run.trace| - 1;
    RetryPrefixFollows(git, run, ev, plan, cmd, budget, n);
    FollowsSnoc(git, run.trace[..n], run.trace[n], plan);
    PrefixStep(run.trace, n);
    assert run.trace[..n + 1] == run.trace;
  }

  /** The state a stage of the checkout leaves behind: either it went on, with exactly `done`
      commands of the plan completed, or it stopped at a failed command. */
  ghost predicate Stage(git: Git, run: Run, plan: seq<Command>, done: nat, cap: int) {
    && Follows(git, run.trace, plan) && |run.trace| <= cap
    && match run.outcome
       case Ok(_) => Progress(run.trace) == done && run.trace != [] && Succeeded(run.trace[|run.trace| - 1])
       case Err(e) => FailedAt(run.trace, e) && Progress(run.trace) < |plan|
  }

  ghost predicate FailedAt(ev: Trace, e: Failure) {
    && e.CommandFailed? && ev != [] && e.result.returncode != 0
    && ev[|ev| - 1] == Event(e.cmd, e.result)
  }

  lemma RetryStage(git: Git, ev: Trace, plan: seq<Command>, cmd: Command, step: string, cap: int)
    requires Follows(git, ev, plan) && |ev| <= cap && Progress(ev) < |plan| && plan[Progress(ev)] == cmd && Retried(cmd)
    requires ev != [] && !Succeeded(ev[|ev| - 1]) ==> Retryable(git, ev[|ev| - 1].result) && Retried(ev[|ev| - 1].cmd)
    ensures Stage(git, Retry(git, ev, cmd, step, DEFAULT_ATTEMPTS, 1), plan, Progress(ev) + 1, cap + 3)
  {
    RetryMeaning(git, ev, cmd, step, DEFAULT_ATTEMPTS, 1);
    RetryFollows(git, Retry(git, ev, cmd, step, DEFAULT_ATTEMPTS, 1), ev, plan, cmd, 3);
  }

  lemma OnceStage(git: Git, ev: Trace, plan: seq<Command>, cmd: Command, step: string, cap: int)
    requires Open(git, ev, plan, cap) && Progress(ev) < |plan| && plan[Progress(ev)] == cmd
    ensures Stage(git, Once(git, ev, cmd, step), plan, Progress(ev) + 1, cap + 1)
  {
    FollowsSnoc(git, ev, Event(cmd, git.answer(ev, cmd)), plan);
  }

  function HeadSteps(world: World): nat {
    if world.hasGitDir then 2 else 1
  }

  lemma TwoRetriesStage(
    git: Git, ev: Trace, plan: seq<Command>, one: Command, two: Command, step1: string, step2: string, cap: int)
    requires Open(git, ev, plan, cap) && Progress(ev) + 2 <= |plan| && Retried(one) && Retried(two)
    requires plan[Progress(ev)] == one && plan[Progress(ev) + 1] == two
    ensures var sync := Retry(git, ev, one, step1, DEFAULT_ATTEMPTS, 1);
            Stage(git, if sync.outcome.Err? then sync else Retry(git, sync.trace, two, step2, DEFAULT_ATTEMPTS, 1),
                  plan, Progress(ev) + 2, cap + 6)
  {
    var sync := Retry(git, ev, one, step1, DEFAULT_ATTEMPTS, 1);
    RetryStage(git, ev, plan, one, step1, cap);
    if sync.outcome.Ok? {
      RetryStage(git, sync.trace, plan, two, step2, cap + 3);
    }
  }

  lemma PlannedTail(spec: Spec, world: World)
    ensures var plan, k, target := Plan(spec, world), HeadSteps(world), TargetOf(spec, world);
            && plan[|plan| - 1] == RevParse(target)
            && (if SubmodulesEnabled(spec.submodules) then
                  |plan| == k + 3 && plan[k] == SubmoduleSync(target)
                  && plan[k + 1] == SubmoduleUpdate(target, SubmodulePaths(spec.submodules))
                else |plan| == k + 1)
  {
  }

  lemma SubmodulesStage(git: Git, ev: Trace, spec: Spec, world: World, cap: int)
    requires Open(git, ev, Plan(spec, world), cap) && ev != [] && Progress(ev) == HeadSteps(world)
    ensures Stage(git, SyncSubmodules(git, ev, spec, world), Plan(spec, world), |Plan(spec, world)| - 1, cap + 6)
  {
    PlannedTail(spec, world);
    if SubmodulesEnabled(spec.submodules) {
      var target := TargetOf(spec, world);
      TwoRetriesStage(git, ev, Plan(spec, world),
                      SubmoduleSync(target), SubmoduleUpdate(target, SubmodulePaths(spec.submodules)),
                      "submodule sync " + Strip(spec.name), "submodule update " + Strip(spec.name), cap);
    }
  }

  /** The verdict on a whole checkout. */
  ghost predicate Safe(git: Git, run: CheckoutRun, spec: Spec, world: World, gitDir: PackedRefs.GitDir, cap: int) {
    var ev, plan := run.trace, Plan(spec, world);
    && Follows(git, ev, plan) && |ev| <= cap
    && match run.outcome
       case Ok(c) =>
         && ev != []
         && (if c.reused then
               && world.hasGitDir && |ev| == Progress(ev) + 1 && Progress(ev) <= 1
               && Unavailable(git, ev[|ev| - 1].result)
               && c.resolvedCommit == PackedRefs.ResolveHead(gitDir)
             else
               && Progress(ev) == |plan|
               && ev[|ev| - 1].cmd == RevParse(TargetOf(spec, world)) && Succeeded(ev[|ev| - 1])
               && c.resolvedCommit == Strip(ev[|ev| - 1].result.stdout))
       case Err(e) => if e.Invalid? then ev == [] else FailedAt(ev, e) && Progress(ev) < |plan|
  }

  lemma FinishSafe(git: Git, ev: Trace, spec: Spec, world: World, gitDir: PackedRefs.GitDir, cap: int)
    requires Open(git, ev, Plan(spec, world), cap) && ev != [] && Progress(ev) == HeadSteps(world)
    ensures Safe(git, Finish(git, ev, spec, world), spec, world, gitDir, cap + 7)
  {
    var plan, target := Plan(spec, world), TargetOf(spec, world);
    var subs := SyncSubmodules(git, ev, spec, world);
    SubmodulesStage(git, ev, spec, world, cap);
    if subs.outcome.Ok? {
      OnceStage(git, subs.trace, plan, RevParse(target), "resolve head " + Strip(spec.name), cap + 6);
    }
  }

  lemma AfterFetchSafe(
    git: Git, ev: Trace, spec: Spec, world: World, gitDir: PackedRefs.GitDir, tolerant: bool, cap: int)
    requires world.hasGitDir && Open(git, ev, Plan(spec, world), cap) && Progress(ev) == 1
    requires tolerant ==> |ev| == 1
    ensures Safe(git, AfterFetch(git, ev, spec, world, gitDir, tolerant), spec, world, gitDir, cap + 8)
  {
    var cmd, step := CheckoutFetchHead(TargetOf(spec, world)), "checkout " + Strip(spec.name);
    var checkout := Once(git, ev, cmd, step);
    OnceStage(git, ev, Plan(spec, world), cmd, step, cap);
    FollowsSnoc(git, ev, Event(cmd, git.answer(ev, cmd)), Plan(spec, world));
    if checkout.outcome.Ok? {
      FinishSafe(git, checkout.trace, spec, world, gitDir, cap + 1);
    }
  }

  lemma RefetchSafe(git: Git, ev: Trace, spec: Spec, world: World, gitDir: PackedRefs.GitDir)
    requires world.hasGitDir && Follows(git, ev, Plan(spec, world)) && |ev| == 1 && Progress(ev) == 0
    requires Retryable(git, ev[0].result) && ev[0].cmd.Fetch?
    ensures var (cmd, step) := (Fetch(TargetOf(spec, world), RefOf(spec)), "fetch " + Strip(spec.name));
            var again := Retry(git, ev, cmd, step, DEFAULT_ATTEMPTS, 1);
            Safe(git,
                 if again.outcome.Err? then Fail(again)
                 else AfterFetch(git, again.trace, spec, world, gitDir, false),
                 spec, world, gitDir, 12)
  {
    var cmd, step := Fetch(TargetOf(spec, world), RefOf(spec)), "fetch " + Strip(spec.name);
    RetryStage(git, ev, Plan(spec, world), cmd, step, 1);
    var again := Retry(git, ev, cmd, step, DEFAULT_ATTEMPTS, 1);
    if again.outcome.Ok? {
      AfterFetchSafe(git, again.trace, spec, world, gitDir, false, 4);
    }
  }

  lemma ReuseSafe(git: Git, ev: Trace, spec: Spec, world: World, gitDir: PackedRefs.GitDir, cap: int)
    requires world.hasGitDir && Follows(git, ev, Plan(spec, world)) && ev != [] && |ev| <= cap
    requires |ev| == Progress(ev) + 1 && Progress(ev) <= 1 && Unavailable(git, ev[|ev| - 1].result)
    ensures Safe(git, Reuse(ev, spec, gitDir), spec, world, gitDir, cap)
  {
    hide Follows, Plan, Progress, Unavailable, Strip, RefOf, SubmodulesEnabled, SubmodulePaths, PackedRefs.ResolveHead;
  }

  lemma FailSafe(git: Git, run: Run, spec: Spec, world: World, gitDir: PackedRefs.GitDir, done: nat, cap: int)
    requires Stage(git, run, Plan(spec, world), done, cap) && run.outcome.Err?
    ensures Safe(git, Fail(run), spec, world, gitDir, cap)
  {
    hide Follows, Plan, Progress, Unavailable, Strip, TargetOf, PackedRefs.ResolveHead;
  }

  lemma FirstFetch(git: Git, spec: Spec, world: World)
    requires world.hasGitDir
    ensures var fetch := Once(git, [], Fetch(TargetOf(spec, world), RefOf(spec)), "fetch " + Strip(spec.name));
            && Stage(git, fetch, Plan(spec, world), 1, 1) && Follows(git, fetch.trace, Plan(spec, world))
            && |fetch.trace| == 1 && fetch.trace[0].cmd.Fetch?
            && Progress(fetch.trace) == (if fetch.outcome.Ok? then 1 else 0)
            && (fetch.outcome.Ok? ==> Open(git, fetch.trace, Plan(spec, world), 1))
  {
    var cmd, step := Fetch(TargetOf(spec, world), RefOf(spec)), "fetch " + Strip(spec.name);
    assert Plan(spec, world)[0] == cmd;
    hide Plan, Strip, RefOf, TargetOf;
    OnceStage(git, [], Plan(spec, world), cmd, step, 0);
    FollowsSnoc(git, [], Event(cmd, git.answer([], cmd)), Plan(spec, world));
  }

  lemma RefreshSafe(git: Git, spec: Spec, world: World, gitDir: PackedRefs.GitDir)
    requires world.hasGitDir
    ensures Safe(git, Refresh(git, spec, world, gitDir), spec, world, gitDir, 12)
  {
    hide Safe, Stage, Open, Follows, Plan, Progress, Once, Retry, Fail, Reuse, AfterFetch;
    hide Strip, RefOf, TargetOf, Unavailable, Retryable;
    var cmd, step := Fetch(TargetOf(spec, world), RefOf(spec)), "fetch " + Strip(spec.name);
    var fetch := Once(git, [], cmd, step);
    FirstFetch(git, spec, world);
    if fetch.outcome.Ok? {
      AfterFetchSafe(git, fetch.trace, spec, world, gitDir, true, 1);
      SafeWidens(git, AfterFetch(git, fetch.trace, spec, world, gitDir, true), spec, world, gitDir, 9, 12);
    } else if Unavailable(git, fetch.trace[0].result) {
      ReuseSafe(git, fetch.trace, spec, world, gitDir, 12);
    } else if Retryable(git, fetch.trace[0].result) {
      RefetchSafe(git, fetch.trace, spec, world, gitDir);
    } else {
      FailSafe(git, fetch, spec, world, gitDir, 1, 1);
      SafeWidens(git, Fail(fetch), spec, world, gitDir, 1, 12);
    }
  }

  lemma SafeWidens(
    git: Git, run: CheckoutRun, spec: Spec, world: World, gitDir: PackedRefs.GitDir, cap: int, wider: int)
    requires Safe(git, run, spec, world, gitDir, cap) && cap <= wider
    ensures Safe(git, run, spec, world, gitDir, wider)
  {
    hide Follows, Plan, Progress, Unavailable, Strip, TargetOf, PackedRefs.ResolveHead;
  }

  /** Over every oracle: the commands issued walk through the plan in order, at most twelve of
      them; a refreshed checkout has completed the whole plan and reports what rev-parse printed;
      a reused one stopped at the very command that showed git to be unavailable; a command
      error is the last thing that happened; and invalid specs issue no command at all. */
  lemma EnsureSafe(git: Git, spec: Spec, world: World, gitDir: PackedRefs.GitDir)
    ensures Safe(git, Ensure(git, spec, world, gitDir), spec, world, gitDir, 12)
  {
    if Strip(spec.name) != "" && Strip(spec.url) != "" {
      if world.hasGitDir {
        RefreshSafe(git, spec, world, gitDir);
      } else if !world.targetExists {
        var cmd := Clone(Strip(spec.url), RefOf(spec), TargetOf(spec, world));
        RetryStage(git, [], Plan(spec, world), cmd, "clone " + Strip(spec.name), 0);
        var clone := Retry(git, [], cmd, "clone " + Strip(spec.name), DEFAULT_ATTEMPTS, 1);
        if clone.outcome.Ok? {
          FinishSafe(git, clone.trace, spec, world, gitDir, 3);
        }
      }
    }
  }

  lemma {:induction false} FollowsAt(git: Git, ev: Trace, plan: seq<Command>, i: nat)
    requires Follows(git, ev, plan) && i < |ev|
    ensures Follows(git, ev[..i + 1], plan)
    decreases |ev|
  {
    if i + 1 == |ev| {
      assert ev[..i + 1] == ev;
    } else {
      FollowsAt(git, ev[..|ev| - 1], plan, i);
      assert ev[..|ev| - 1][..i + 1] == ev[..i + 1];
    }
  }

  /** The last step of a trace that follows its plan. */
  lemma LastStep(git: Git, ev: Trace, plan: seq<Command>)
    requires Follows(git, ev, plan) && ev != []
    ensures var k := Progress(ev[..|ev| - 1]);
            && k < |plan| && ev[|ev| - 1].cmd == plan[k]
            && Follows(git, ev[..|ev| - 1], plan)
            && Progress(ev) == k + (if Succeeded(ev[|ev| - 1]) then 1 else 0)
    ensures |ev| > 1 && !Succeeded(ev[|ev| - 2]) ==> Retried(ev[|ev| - 2].cmd)
  {
  }

  lemma PlannedCheckout(spec: Spec, world: World, k: nat)
    requires k < |Plan(spec, world)| && Plan(spec, world)[k].CheckoutFetchHead?
    ensures world.hasGitDir && k == 1
  {
  }

  lemma FetchStep(git: Git, ev: Trace, spec: Spec, world: World)
    requires Follows(git, ev, Plan(spec, world)) && world.hasGitDir && Progress(ev) == 1
    requires ev != [] && !Succeeded(ev[|ev| - 1]) ==> Retried(ev[|ev| - 1].cmd)
    ensures ev != [] && ev[|ev| - 1].cmd == Fetch(TargetOf(spec, world), RefOf(spec)) && Succeeded(ev[|ev| - 1])
  {
    LastStep(git, ev, Plan(spec, world));
  }

  /** FETCH_HEAD is checked out only right after a fetch that returned 0. */
  lemma CheckoutFollowsFetch(git: Git, spec: Spec, world: World, gitDir: PackedRefs.GitDir, i: nat)
    requires i < |Ensure(git, spec, world, gitDir).trace|
    requires Ensure(git, spec, world, gitDir).trace[i].cmd.CheckoutFetchHead?
    ensures i > 0
    ensures var before := Ensure(git, spec, world, gitDir).trace[i - 1];
            before.cmd == Fetch(TargetOf(spec, world), RefOf(spec)) && before.result.returncode == 0
  {
    hide Ensure, Plan, Follows, Progress;
    EnsureSafe(git, spec, world, gitDir);
    var ev := Ensure(git, spec, world, gitDir).trace;
    FollowsAt(git, ev, Plan(spec, world), i);
    var upto, before := ev[..i + 1], ev[..i];
    assert upto[..i] == before && upto[i] == ev[i];
    LastStep(git, upto, Plan(spec, world));
    PlannedCheckout(spec, world, Progress(before));
    FetchStep(git, before, spec, world);
  }

  ghost predicate Extends(longer: Trace, ev: Trace) {
    |ev| <= |longer| && longer[..|ev|] == ev
  }

  lemma RetryExtends(git: Git, ev: Trace, cmd: Command, step: string)
    ensures var run := Retry(git, ev, cmd, step, DEFAULT_ATTEMPTS, 1);
            Extends(run.trace, ev) && |run.trace| > |ev|
  {
    RetryMeaning(git, ev, cmd, step, DEFAULT_ATTEMPTS, 1);
    hide Retry;
  }

  lemma SubmodulesExtend(git: Git, ev: Trace, spec: Spec, world: World)
    ensures var run := SyncSubmodules(git, ev, spec, world);
            Extends(run.trace, ev) && (run.outcome.Err? ==> |run.trace| > |ev|)
  {
    hide Retry, SubmodulesEnabled, SubmodulePaths, TargetOf, Strip;
    var target, name := TargetOf(spec, world), Strip(spec.name);
    var sync := Retry(git, ev, SubmoduleSync(target), "submodule sync " + name, DEFAULT_ATTEMPTS, 1);
    RetryExtends(git, ev, SubmoduleSync(target), "submodule sync " + name);
    RetryExtends(git, sync.trace, SubmoduleUpdate(target, SubmodulePaths(spec.submodules)), "submodule update " + name);
  }

  lemma FinishExtends(git: Git, ev: Trace, spec: Spec, world: World)
    requires ev != []
    ensures var run := Finish(git, ev, spec, world);
            && |run.trace| > |ev| && run.trace[0] == ev[0]
            && (run.outcome.Ok? ==> !run.outcome.value.reused)
  {
    SubmodulesExtend(git, ev, spec, world);
    hide SyncSubmodules, SubmodulesEnabled, SubmodulePaths, TargetOf, RefOf, Strip;
    assert SyncSubmodules(git, ev, spec, world).trace[..|ev|][0] == ev[0];
  }

  lemma AfterFetchReuse(git: Git, ev: Trace, spec: Spec, world: World, gitDir: PackedRefs.GitDir, tolerant: bool)
    requires ev != []
    ensures var run := AfterFetch(git, ev, spec, world, gitDir, tolerant);
            && |run.trace| > |ev| && run.trace[0] == ev[0]
            && ((run.outcome.Ok? && run.outcome.value.reused) <==>
                  tolerant && |run.trace| == |ev| + 1 && Unavailable(git, run.trace[|ev|].result))
  {
    hide Finish, SubmodulesEnabled, SubmodulePaths, TargetOf, RefOf, Strip, PackedRefs.ResolveHead;
    var checkout := Once(git, ev, CheckoutFetchHead(TargetOf(spec, world)), "checkout " + Strip(spec.name));
    FinishExtends(git, checkout.trace, spec, world);
  }

  /** The checkout is reused exactly when git could not be launched for the first fetch, or for
      the checkout that directly followed a first fetch that worked. */
  lemma ReusedExactly(git: Git, spec: Spec, world: World, gitDir: PackedRefs.GitDir)
    requires Strip(spec.name) != "" && Strip(spec.url) != "" && world.hasGitDir
    ensures var run := Ensure(git, spec, world, gitDir);
            && run.trace != []
            && ((run.outcome.Ok? && run.outcome.value.reused) <==>
                  || Unavailable(git, run.trace[0].result)
                  || (|run.trace| == 2 && Succeeded(run.trace[0]) && Unavailable(git, run.trace[1].result)))
  {
    var cmd, step := Fetch(TargetOf(spec, world), RefOf(spec)), "fetch " + Strip(spec.name);
    var fetch := Once(git, [], cmd, step);
    if fetch.outcome.Ok? {
      AfterFetchReuse(git, fetch.trace, spec, world, gitDir, true);
    } else if !Unavailable(git, fetch.trace[0].result) && Retryable(git, fetch.trace[0].result) {
      RetryMeaning(git, fetch.trace, cmd, step, DEFAULT_ATTEMPTS, 1);
      var again := Retry(git, fetch.trace, cmd, step, DEFAULT_ATTEMPTS, 1);
      assert again.trace[..1][0] == again.trace[0];
      AfterFetchReuse(git, again.trace, spec, world, gitDir, false);
    }
  }
}
