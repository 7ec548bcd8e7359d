/** What a checkout does, in terms of the repo spec and the file system alone: which ref of which
    url goes where, which submodules are updated, and what the result reports. */
module CheckoutMeaning {
  import opened Prelude
  import opened Sequences
  import opened Text
  import opened Checkout
  import opened CheckoutSafety
  import opened MatrixRun
  import PackedRefs

  // ----- the submodules entry -----

  /** Which paths a `submodules` entry names. */
  ghost predicate NamesPaths(raw: Submodules, paths: seq<string>) {
    match raw
    case Flag(_) => paths == []
    case OtherValue(_) => paths == []
    case Single(path) => paths == if Strip(path) == "" then [] else [Strip(path)]
    case Listed(items) => Trims(paths, items)
  }

  lemma SubmodulePathsNamed(raw: Submodules)
    ensures NamesPaths(raw, SubmodulePaths(raw))
  {
    if raw.Listed? {
      CleanListTrims(raw.paths);
    }
  }

  predicate Falsy(raw: Submodules) {
    raw == Flag(false) || raw == Single("") || raw == Listed([]) || raw == OtherValue(false)
  }

  /** Only the falsy entries switch submodules off. */
  lemma EnabledExactly(raw: Submodules)
    ensures SubmodulesEnabled(raw) <==> !Falsy(raw)
  {
  }

  // ----- the commands -----

  /** The command belongs to this spec: it clones this url at this ref to this place, or works
      there, and updates the submodules the spec names. */
  ghost predicate Aimed(cmd: Command, spec: Spec, world: World, gitRef: string, target: string) {
    match cmd
    case Clone(url, r, t) => !world.hasGitDir && url == Strip(spec.url) && r == gitRef && t == target
    case Fetch(t, r) => world.hasGitDir && r == gitRef && t == target
    case CheckoutFetchHead(t) => world.hasGitDir && t == target
    case SubmoduleSync(t) => t == target && !Falsy(spec.submodules)
    case SubmoduleUpdate(t, paths) =>
      t == target && NamesPaths(spec.submodules, paths)
      && !Falsy(spec.submodules)
    case RevParse(t) => t == target
  }

  lemma MainIsClean()
    ensures Strip("main") == "main"
  {
    StripFixed("main");
  }

  lemma PlanAimed(spec: Spec, world: World)
    ensures var gitRef := if spec.gitRef == "" then "main" else Strip(spec.gitRef);
            forall cmd :: cmd in Plan(spec, world) ==>
              Aimed(cmd, spec, world, gitRef, world.workspace + "/" + Strip(spec.name))
  {
    MainIsClean();
    EnabledExactly(spec.submodules);
    SubmodulePathsNamed(spec.submodules);
    hide Strip, NamesPaths, SubmodulesEnabled, SubmodulePaths;
  }

  lemma DoneSnoc(init: Trace, last: Event)
    ensures Map(CommandOf, Filter(Succeeded, init + [last]))
         == Map(CommandOf, Filter(Succeeded, init)) + (if Succeeded(last) then [last.cmd] else [])
    ensures Progress(init + [last]) == Progress(init) + (if Succeeded(last) then 1 else 0)
  {
    hide Filter, Map, Succeeded;
    var done := Filter(Succeeded, init);
    FilterSnoc(Succeeded, init, last);
    CountSnoc(Succeeded, init, last);
    MapEnd(CommandOf, done, last);
    assert done + [] == done && Map(CommandOf, done) + [] == Map(CommandOf, done);
  }

  lemma {:induction false} TracePlanned(git: Git, ev: Trace, plan: seq<Command>)
    requires Follows(git, ev, plan)
    ensures forall e :: e in ev ==> e.cmd in plan
    ensures ev != [] ==> plan != [] && ev[0].cmd == plan[0]
    ensures Progress(ev) <= |plan| && Map(CommandOf, Filter(Succeeded, ev)) == plan[..Progress(ev)]
  {
    if ev != [] {
      var init, last := ev[..|ev| - 1], ev[|ev| - 1];
      assert ev == init + [last];
      assert Follows(git, init, plan) && Progress(init) < |plan| && last.cmd == plan[Progress(init)];
      hide Follows;
      DoneSnoc(init, last);
      hide Progress, Filter, Map, Succeeded;
      TracePlanned(git, init, plan);
      PrefixStep(plan, Progress(init));
      if init == [] {
        NothingDone();
      }
    }
  }

  lemma NothingDone()
    ensures Progress([]) == 0
  {
  }

  function CommandOf(e: Event): Command {
    e.cmd
  }

  lemma FirstPlanned(spec: Spec, world: World)
    ensures var gitRef := if spec.gitRef == "" then "main" else Strip(spec.gitRef);
            var target := world.workspace + "/" + Strip(spec.name);
            Plan(spec, world)[0]
            == if world.hasGitDir then Fetch(target, gitRef) else Clone(Strip(spec.url), gitRef, target)
  {
    MainIsClean();
    hide Strip;
  }

  lemma EnsureIssues(git: Git, spec: Spec, world: World, gitDir: PackedRefs.GitDir)
    requires Strip(spec.name) != "" && Strip(spec.url) != "" && (world.hasGitDir || !world.targetExists)
    ensures Ensure(git, spec, world, gitDir).trace != []
    ensures Follows(git, Ensure(git, spec, world, gitDir).trace, Plan(spec, world))
  {
    EnsureSafe(git, spec, world, gitDir);
    if world.hasGitDir {
      ReusedExactly(git, spec, world, gitDir);
    } else {
      var cmd, step := Clone(Strip(spec.url), RefOf(spec), TargetOf(spec, world)), "clone " + Strip(spec.name);
      RetryMeaning(git, [], cmd, step, DEFAULT_ATTEMPTS, 1);
      var clone := Retry(git, [], cmd, step, DEFAULT_ATTEMPTS, 1);
      if clone.outcome.Ok? {
        FinishExtends(git, clone.trace, spec, world);
      }
      hide Strip, RefOf, TargetOf, Retry, Finish, Plan, Follows;
    }
  }

  /** Every command of a checkout is aimed as the spec asks: the first one fetches or clones the
      ref that is given, `main` when none is, and the later ones work in the same place on the
      submodules that are named. */
  lemma CommandsHonourSpec(git: Git, spec: Spec, world: World, gitDir: PackedRefs.GitDir)
    requires Strip(spec.name) != "" && Strip(spec.url) != "" && (world.hasGitDir || !world.targetExists)
    ensures var trace := Ensure(git, spec, world, gitDir).trace;
            var gitRef := if spec.gitRef == "" then "main" else Strip(spec.gitRef);
            var target := world.workspace + "/" + Strip(spec.name);
            && trace != []
            && trace[0].cmd == (if world.hasGitDir then Fetch(target, gitRef)
                                else Clone(Strip(spec.url), gitRef, target))
            && forall e :: e in trace ==> Aimed(e.cmd, spec, world, gitRef, target)
  {
    hide Ensure, Strip, Plan, Aimed;
    EnsureIssues(git, spec, world, gitDir);
    TracePlanned(git, Ensure(git, spec, world, gitDir).trace, Plan(spec, world));
    FirstPlanned(spec, world);
    PlanAimed(spec, world);
  }

  // ----- the result -----

  /** The result names the repo and the ref that were asked for, and the submodules. */
  ghost predicate Reports(c: Checkout, spec: Spec) {
    && c.name == Strip(spec.name)
    && c.gitRef == (if spec.gitRef == "" then "main" else Strip(spec.gitRef))
    && (c.submodulesEnabled <==> !Falsy(spec.submodules))
    && (if c.reused || c.submodulesEnabled then NamesPaths(spec.submodules, c.submodulePaths)
        else c.submodulePaths == [])
  }

  ghost predicate Reported(run: CheckoutRun, spec: Spec) {
    run.outcome.Ok? ==> Reports(run.outcome.value, spec)
  }

  lemma ReportParts(spec: Spec)
    ensures RefOf(spec) == (if spec.gitRef == "" then "main" else Strip(spec.gitRef))
    ensures SubmodulesEnabled(spec.submodules) <==> !Falsy(spec.submodules)
    ensures NamesPaths(spec.submodules, SubmodulePaths(spec.submodules))
  {
    MainIsClean();
    EnabledExactly(spec.submodules);
    SubmodulePathsNamed(spec.submodules);
    hide Strip, NamesPaths, SubmodulesEnabled, SubmodulePaths;
  }

  lemma FinishReports(git: Git, ev: Trace, spec: Spec, world: World)
    ensures Reported(Finish(git, ev, spec, world), spec)
  {
    ReportParts(spec);
    hide SyncSubmodules, SubmodulesEnabled, SubmodulePaths, TargetOf, RefOf, Strip, NamesPaths, Once;
  }

  lemma ReuseReports(ev: Trace, spec: Spec, gitDir: PackedRefs.GitDir)
    ensures Reported(Reuse(ev, spec, gitDir), spec)
  {
    ReportParts(spec);
    hide SubmodulesEnabled, SubmodulePaths, RefOf, Strip, NamesPaths, PackedRefs.ResolveHead;
  }

  lemma AfterFetchReports(git: Git, ev: Trace, spec: Spec, world: World, gitDir: PackedRefs.GitDir, tolerant: bool)
    ensures Reported(AfterFetch(git, ev, spec, world, gitDir, tolerant), spec)
  {
    hide Finish, Reuse, TargetOf, Strip, Unavailable, Reports;
    var checkout := Once(git, ev, CheckoutFetchHead(TargetOf(spec, world)), "checkout " + Strip(spec.name));
    FinishReports(git, checkout.trace, spec, world);
    ReuseReports(checkout.trace, spec, gitDir);
  }

  lemma RefreshReports(git: Git, spec: Spec, world: World, gitDir: PackedRefs.GitDir)
    ensures Reported(Refresh(git, spec, world, gitDir), spec)
  {
    hide AfterFetch, Reuse, Retry, TargetOf, RefOf, Strip, Unavailable, Retryable, Reports;
    var cmd, step := Fetch(TargetOf(spec, world), RefOf(spec)), "fetch " + Strip(spec.name);
    var fetch := Once(git, [], cmd, step);
    var again := Retry(git, fetch.trace, cmd, step, DEFAULT_ATTEMPTS, 1);
    ReuseReports(fetch.trace, spec, gitDir);
    AfterFetchReports(git, fetch.trace, spec, world, gitDir, true);
    AfterFetchReports(git, again.trace, spec, world, gitDir, false);
  }

  /** A checkout that succeeds reports the name and the ref of its spec, and its submodules. */
  lemma ResultHonoursSpec(git: Git, spec: Spec, world: World, gitDir: PackedRefs.GitDir)
    requires Ensure(git, spec, world, gitDir).outcome.Ok?
    ensures Reports(Ensure(git, spec, world, gitDir).outcome.value, spec)
  {
    hide Refresh, Finish, Retry, TargetOf, RefOf, Strip, Reports;
    var cmd, step := Clone(Strip(spec.url), RefOf(spec), TargetOf(spec, world)), "clone " + Strip(spec.name);
    RefreshReports(git, spec, world, gitDir);
    FinishReports(git, Retry(git, [], cmd, step, DEFAULT_ATTEMPTS, 1).trace, spec, world);
  }

  ghost predicate PathsAsNamed(run: CheckoutRun, spec: Spec) {
    run.outcome.Ok? && !run.outcome.value.reused ==>
      && run.outcome.value.submodulesEnabled == SubmodulesEnabled(spec.submodules)
      && (run.outcome.value.submodulesEnabled ==> run.outcome.value.submodulePaths == SubmodulePaths(spec.submodules))
  }

  lemma AfterFetchPaths(git: Git, ev: Trace, spec: Spec, world: World, gitDir: PackedRefs.GitDir, tolerant: bool)
    ensures PathsAsNamed(AfterFetch(git, ev, spec, world, gitDir, tolerant), spec)
  {
    hide SyncSubmodules, SubmodulesEnabled, SubmodulePaths, TargetOf, RefOf, Strip, Unavailable, Once;
    hide PackedRefs.ResolveHead;
  }

  lemma PathsReported(git: Git, spec: Spec, world: World, gitDir: PackedRefs.GitDir)
    ensures PathsAsNamed(Ensure(git, spec, world, gitDir), spec)
  {
    var cmd, step := Fetch(TargetOf(spec, world), RefOf(spec)), "fetch " + Strip(spec.name);
    var fetch := Once(git, [], cmd, step);
    AfterFetchPaths(git, fetch.trace, spec, world, gitDir, true);
    AfterFetchPaths(git, Retry(git, fetch.trace, cmd, step, DEFAULT_ATTEMPTS, 1).trace, spec, world, gitDir, false);
    hide AfterFetch, SyncSubmodules, SubmodulesEnabled, SubmodulePaths, TargetOf, RefOf, Strip, Retry;
    hide Unavailable, Retryable, PackedRefs.ResolveHead;
  }

  /** A checkout that was refreshed ran these commands to success, in this order and no others. */
  lemma RefreshedRan(git: Git, spec: Spec, world: World, gitDir: PackedRefs.GitDir)
    requires Strip(spec.name) != "" && Strip(spec.url) != "" && (world.hasGitDir || !world.targetExists)
    requires var o := Ensure(git, spec, world, gitDir).outcome; o.Ok? && !o.value.reused
    ensures var gitRef := if spec.gitRef == "" then "main" else Strip(spec.gitRef);
            var target := world.workspace + "/" + Strip(spec.name);
            var c := Ensure(git, spec, world, gitDir).outcome.value;
            Map(CommandOf, Filter(Succeeded, Ensure(git, spec, world, gitDir).trace))
            == (if world.hasGitDir then [Fetch(target, gitRef), CheckoutFetchHead(target)]
                else [Clone(Strip(spec.url), gitRef, target)])
               + (if c.submodulesEnabled then [SubmoduleSync(target), SubmoduleUpdate(target, c.submodulePaths)]
                  else [])
               + [RevParse(target)]
  {
    EnsureSafe(git, spec, world, gitDir);
    EnsureIssues(git, spec, world, gitDir);
    TracePlanned(git, Ensure(git, spec, world, gitDir).trace, Plan(spec, world));
    PathsReported(git, spec, world, gitDir);
    ReportParts(spec);
    assert Plan(spec, world)[..|Plan(spec, world)|] == Plan(spec, world);
    hide Ensure, Strip, RefOf, SubmodulesEnabled, SubmodulePaths, NamesPaths, Follows, Map, Filter;
  }

  // ----- persistence -----

  lemma FinishFailure(git: Git, ev: Trace, spec: Spec, world: World)
    ensures var o := Finish(git, ev, spec, world).outcome;
            o.Err? ==> o.error.CommandFailed? && !o.error.cmd.Clone?
  {
    hide Retry, SubmodulesEnabled, SubmodulePaths, TargetOf, RefOf, Strip;
    var target, name := TargetOf(spec, world), Strip(spec.name);
    var sync := Retry(git, ev, SubmoduleSync(target), "submodule sync " + name, DEFAULT_ATTEMPTS, 1);
    RetryMeaning(git, ev, SubmoduleSync(target), "submodule sync " + name, DEFAULT_ATTEMPTS, 1);
    RetryMeaning(git, sync.trace, SubmoduleUpdate(target, SubmodulePaths(spec.submodules)),
                 "submodule update " + name, DEFAULT_ATTEMPTS, 1);
  }

  /** A clone is given up after three attempts if its failures are worth a retry, and at once
      after one that is not. */
  lemma CloneAttempts(git: Git, spec: Spec, world: World, gitDir: PackedRefs.GitDir)
    requires Strip(spec.name) != "" && Strip(spec.url) != "" && !world.hasGitDir && !world.targetExists
    requires var o := Ensure(git, spec, world, gitDir).outcome; o.Err? && o.error.CommandFailed? && o.error.cmd.Clone?
    ensures var run := Ensure(git, spec, world, gitDir);
            && 1 <= |run.trace| <= 3
            && (|run.trace| == 3 <== Retryable(git, run.outcome.error.result))
            && forall i :: 0 <= i < |run.trace| - 1 ==> Retryable(git, run.trace[i].result)
  {
    hide Retry, Finish, TargetOf, RefOf, Strip, Retryable;
    var cmd, step := Clone(Strip(spec.url), RefOf(spec), TargetOf(spec, world)), "clone " + Strip(spec.name);
    RetryMeaning(git, [], cmd, step, DEFAULT_ATTEMPTS, 1);
    FinishFailure(git, Retry(git, [], cmd, step, DEFAULT_ATTEMPTS, 1).trace, spec, world);
  }

  // ----- how failures are told apart -----

  ghost predicate Shows(r: CommandResult, text: string) {
    Contains(Lower(r.stdout), text) || Contains(Lower(r.stderr), text)
  }

  lemma CombinedShowsExactly(r: CommandResult, text: string)
    requires '\n' !in text
    ensures Contains(Combined(r), text) <==> Shows(r, text)
  {
    CombinedLower(r);
    CombinedShows(r, text);
    hide Combined, Lower, Contains;
    if Contains(Combined(r), text) {
      ContainsSide(Lower(r.stdout), '\n', Lower(r.stderr), text);
    }
  }

  lemma LaunchErrorOneLine()
    ensures '\n' !in LAUNCH_ERROR
  {
  }

  lemma FragmentsOneLine()
    ensures forall f :: f in NETWORK_ERRORS ==> '\n' !in f
  {
    assert forall i :: 0 <= i < |NETWORK_ERRORS| ==> '\n' !in NETWORK_ERRORS[i];
  }

  /** A failure counts as a missing git, or as worth a retry, exactly when one of its two streams
      shows one of these texts, in whatever case. */
  lemma FailuresToldApart(answer: (Trace, Command) -> CommandResult, r: CommandResult)
    ensures Unavailable(ScriptGit(answer), r) <==> r.returncode != 0 && Shows(r, "error launching git:")
    ensures Retryable(ScriptGit(answer), r) <==>
            r.returncode != 0
            && exists f :: f in ["schannel: failed to receive handshake", "ssl/tls connection failed",
                                 "gnutls recv error", "connection reset by peer",
                                 "the remote end hung up unexpectedly", "failed to connect",
                                 "operation timed out", "tlsv1 alert"] && Shows(r, f)
  {
    FragmentsOneLine();
    LaunchErrorOneLine();
    assert LAUNCH_ERROR == "error launching git:";
    assert NETWORK_ERRORS == ["schannel: failed to receive handshake", "ssl/tls connection failed",
                              "gnutls recv error", "connection reset by peer",
                              "the remote end hung up unexpectedly", "failed to connect",
                              "operation timed out", "tlsv1 alert"];
    hide LAUNCH_ERROR, NETWORK_ERRORS, Shows, Combined, Contains;
    CombinedShowsExactly(r, LAUNCH_ERROR);
    forall f | f in NETWORK_ERRORS ensures Contains(Combined(r), f) <==> Shows(r, f) {
      CombinedShowsExactly(r, f);
    }
  }
}
