/**
 * One scaffolding run (`scaffold` in src/scaffolder.js): a fixed sequence of
 * awaited collaborator calls, some of them gated, that stops at the first
 * rejection.
 *
 * Each collaborator is represented by the response it gives: in one run every
 * collaborator is called at most once, with arguments fixed by the earlier
 * responses, so one response per collaborator covers every run. The run
 * records each call, with its arguments, in a trace.
 */
module Scaffolder {
  import opened Wrappers
  import opened Entries
  import opened Project
  import opened Merge

  /** The caller's untyped options object; only the validator reads it. */
  type RawOptions = map<string, string>

  /** The collaborator calls of a run, in the order the source makes them. */
  datatype Step =
    | Validate
    | PromptForBaseDetails
    | InitializeGit
    | PromptForLanguageDetails
    | ScaffoldLicense
    | ScaffoldLanguage
    | ScaffoldVcsHost
    | ScaffoldReadme
    | CopyEditorconfig
    | ScaffoldGit
    | Verify
    | DisplayResults

  datatype InitRequest = InitRequest(
    gitRepo: bool,
    projectRoot: string,
    projectName: string,
    vcsHosts: map<string, Plugin>,
    visibility: string,
    decisions: Option<Decisions>)

  datatype LicenseRequest = LicenseRequest(
    projectRoot: string,
    license: Option<string>,
    copyright: Copyright,
    vcs: Option<VcsContext>)

  datatype LanguageRequest = LanguageRequest(
    languages: map<string, Plugin>,
    projectLanguage: Option<string>,
    projectRoot: string,
    projectName: string,
    vcs: Option<VcsContext>,
    visibility: string,
    license: string,
    description: string)

  datatype VcsHostRequest = VcsHostRequest(
    vcsHosts: map<string, Plugin>,
    vcs: VcsContext,
    projectRoot: string,
    projectType: Option<string>,
    description: string,
    visibility: string,
    homepage: Option<string>,
    nextSteps: seq<Task>)

  datatype GitRequest = GitRequest(projectRoot: string, ignore: Option<VcsIgnore>, origin: Option<VcsHostResult>)

  /** A collaborator call, with the arguments it received. */
  datatype Event =
    | Validated(options: RawOptions)
    | PromptedForBaseDetails(root: string, copyrightHolderDefault: Option<string>, baseDecisions: Option<Decisions>)
    | InitializedGit(init: InitRequest)
    | PromptedForLanguageDetails(languagePlugins: map<string, Plugin>, languageDecisions: Option<Decisions>)
    | ScaffoldedLicense(licenseRequest: LicenseRequest)
    | ScaffoldedLanguage(languageRequest: LanguageRequest)
    | ScaffoldedVcsHost(vcsHostRequest: VcsHostRequest)
    | ScaffoldedReadme(readmeRequest: ReadmeRequest)
    | CopiedEditorconfig(destination: string)
    | ScaffoldedGit(gitRequest: GitRequest)
    | ExecutedVerification(command: string)
    | DisplayedResults(nextSteps: seq<Task>)

  function StepOf(e: Event): Step {
    match e
    case Validated(_) => Validate
    case PromptedForBaseDetails(_, _, _) => PromptForBaseDetails
    case InitializedGit(_) => InitializeGit
    case PromptedForLanguageDetails(_, _) => PromptForLanguageDetails
    case ScaffoldedLicense(_) => ScaffoldLicense
    case ScaffoldedLanguage(_) => ScaffoldLanguage
    case ScaffoldedVcsHost(_) => ScaffoldVcsHost
    case ScaffoldedReadme(_) => ScaffoldReadme
    case CopiedEditorconfig(_) => CopyEditorconfig
    case ScaffoldedGit(_) => ScaffoldGit
    case ExecutedVerification(_) => Verify
    case DisplayedResults(_) => DisplayResults
  }

  /** The steps a trace records, in order. */
  function Steps(trace: seq<Event>): seq<Step> {
    if trace == [] then [] else Steps(trace[..|trace| - 1]) + [StepOf(trace[|trace| - 1])]
  }

  /** How each collaborator settles in this run. */
  datatype Responses = Responses(
    validated: Result<Config, Error>,
    baseDetails: Result<BaseAnswers, Error>,
    vcs: Result<Option<VcsContext>, Error>,
    languageDetails: Result<LanguageAnswers, Error>,
    license: Result<LicenseResult, Error>,
    language: Result<Option<LanguageResult>, Error>,
    vcsHost: Result<Option<VcsHostResult>, Error>,
    readme: Outcome<Error>,
    editorconfig: Outcome<Error>,
    git: Result<Option<GitResult>, Error>,
    verification: Outcome<Error>,
    display: Outcome<Error>)
  {
    /** The language result, as later steps see it. */
    function Language(): Option<LanguageResult> {
      if language.Success? then language.value else None
    }

    /** The VCS context, as later steps see it. */
    function Vcs(): Option<VcsContext> {
      if vcs.Success? then vcs.value else None
    }

    /** `vcsHostResults`: absent when there is no VCS context. */
    function Origin(): Option<VcsHostResult> {
      if Vcs().Some? && vcsHost.Success? then vcsHost.value else None
    }

    /** `gitResults`: absent when no git repository was requested. */
    function GitOutput(): Option<GitResult> {
      if baseDetails.Success? && baseDetails.value.gitRepo && git.Success? then git.value else None
    }
  }

  datatype RunOutcome = Completed | Aborted(failedStep: Step, error: Error)

  /** The cause carried by step `s`'s response, if it rejected. */
  function Rejection(r: Responses, s: Step): Option<Error> {
    match s
    case Validate => if r.validated.Failure? then Some(r.validated.error) else None
    case PromptForBaseDetails => if r.baseDetails.Failure? then Some(r.baseDetails.error) else None
    case InitializeGit => if r.vcs.Failure? then Some(r.vcs.error) else None
    case PromptForLanguageDetails => if r.languageDetails.Failure? then Some(r.languageDetails.error) else None
    case ScaffoldLicense => if r.license.Failure? then Some(r.license.error) else None
    case ScaffoldLanguage => if r.language.Failure? then Some(r.language.error) else None
    case ScaffoldVcsHost => if r.vcsHost.Failure? then Some(r.vcsHost.error) else None
    case ScaffoldReadme => if r.readme.Fail? then Some(r.readme.error) else None
    case CopyEditorconfig => if r.editorconfig.Fail? then Some(r.editorconfig.error) else None
    case ScaffoldGit => if r.git.Failure? then Some(r.git.error) else None
    case Verify => if r.verification.Fail? then Some(r.verification.error) else None
    case DisplayResults => if r.display.Fail? then Some(r.display.error) else None
  }

  /**
   * The source's gates: the VCS-host step needs a VCS context, the git step
   * needs `gitRepo`, and verification needs a (non-empty) command.
   */
  predicate Gated(r: Responses, s: Step) {
    match s
    case ScaffoldVcsHost => r.Vcs().Some?
    case ScaffoldGit => r.baseDetails.Success? && r.baseDetails.value.gitRepo
    case Verify => VerificationCommand(r.Language()).Some?
    case _ => true
  }

  /** Steps started together (by one `Promise.all`) share a stage. */
  function Stage(s: Step): nat {
    match s
    case Validate => 0
    case PromptForBaseDetails => 1
    case InitializeGit => 2
    case PromptForLanguageDetails => 3
    case ScaffoldLicense => 4
    case ScaffoldLanguage => 4
    case ScaffoldVcsHost => 5
    case ScaffoldReadme => 6
    case CopyEditorconfig => 6
    case ScaffoldGit => 7
    case Verify => 8
    case DisplayResults => 9
  }

  /** A step resolves when it is skipped or its response does not reject. */
  predicate Resolves(r: Responses, s: Step) {
    Gated(r, s) ==> Rejection(r, s).None?
  }

  /** Every step of stage `n` resolves. */
  predicate StageResolves(r: Responses, n: nat) {
    match n
    case 0 => Resolves(r, Validate)
    case 1 => Resolves(r, PromptForBaseDetails)
    case 2 => Resolves(r, InitializeGit)
    case 3 => Resolves(r, PromptForLanguageDetails)
    case 4 => Resolves(r, ScaffoldLicense) && Resolves(r, ScaffoldLanguage)
    case 5 => Resolves(r, ScaffoldVcsHost)
    case 6 => Resolves(r, ScaffoldReadme) && Resolves(r, CopyEditorconfig)
    case 7 => Resolves(r, ScaffoldGit)
    case 8 => Resolves(r, Verify)
    case _ => Resolves(r, DisplayResults)
  }

  /** The calls stage `n` makes: its steps whose gate is open, in source order. */
  function StageCalls(r: Responses, n: nat): seq<Step> {
    match n
    case 0 => [Validate]
    case 1 => [PromptForBaseDetails]
    case 2 => [InitializeGit]
    case 3 => [PromptForLanguageDetails]
    case 4 => [ScaffoldLicense, ScaffoldLanguage]
    case 5 => if Gated(r, ScaffoldVcsHost) then [ScaffoldVcsHost] else []
    case 6 => [ScaffoldReadme, CopyEditorconfig]
    case 7 => if Gated(r, ScaffoldGit) then [ScaffoldGit] else []
    case 8 => if Gated(r, Verify) then [Verify] else []
    case 9 => [DisplayResults]
    case _ => []
  }

  /** What one stage of a run does: the calls it makes, and whether they all resolve. */
  datatype StageRun = StageRun(calls: seq<Step>, resolves: bool)

  /** The ten stages of a run with responses `r`, in source order. */
  function Plan(r: Responses): seq<StageRun> {
    [StageRun(StageCalls(r, 0), StageResolves(r, 0)), StageRun(StageCalls(r, 1), StageResolves(r, 1)),
     StageRun(StageCalls(r, 2), StageResolves(r, 2)), StageRun(StageCalls(r, 3), StageResolves(r, 3)),
     StageRun(StageCalls(r, 4), StageResolves(r, 4)), StageRun(StageCalls(r, 5), StageResolves(r, 5)),
     StageRun(StageCalls(r, 6), StageResolves(r, 6)), StageRun(StageCalls(r, 7), StageResolves(r, 7)),
     StageRun(StageCalls(r, 8), StageResolves(r, 8)), StageRun(StageCalls(r, 9), StageResolves(r, 9))]
  }

  /**
   * The calls made from stage `n` on: the stage's calls, then, if they all
   * resolved, the calls of the stages after it.
   */
  function CallsFrom(p: seq<StageRun>, n: nat): seq<Step>
    decreases |p| - n
  {
    if n >= |p| then [] else p[n].calls + (if p[n].resolves then CallsFrom(p, n + 1) else [])
  }

  /** The calls a run with responses `r` makes from stage `n` on. */
  function RunCallsFrom(r: Responses, n: nat): seq<Step>
    decreases 10 - n
  {
    if n > 9 then [] else StageCalls(r, n) + (if StageResolves(r, n) then RunCallsFrom(r, n + 1) else [])
  }

  /** The calls a whole run makes, in order. */
  function Invocations(r: Responses): seq<Step> {
    RunCallsFrom(r, 0)
  }

  /** Stage `n` of the plan is what the run does at stage `n`. */
  lemma PlanAt(r: Responses, n: nat)
    requires n < 10
    ensures |Plan(r)| == 10 && Plan(r)[n] == StageRun(StageCalls(r, n), StageResolves(r, n))
  {
    var p := Plan(r);
    if n < 5 {
      assert n == 0 || n == 1 || n == 2 || n == 3 || n == 4;
    } else {
      assert n == 5 || n == 6 || n == 7 || n == 8 || n == 9;
    }
  }

  /** The run's calls are those of its plan. */
  lemma {:induction false} RunCallsFromPlan(r: Responses, n: nat)
    ensures RunCallsFrom(r, n) == CallsFrom(Plan(r), n)
    decreases 10 - n
  {
    if n <= 9 {
      RunCallsFromPlan(r, n + 1);
      PlanAt(r, n);
    } else {
      PlanAt(r, 0);
    }
  }

  /** The run gets to stage `n`: every earlier stage resolved. */
  predicate Reaches(p: seq<StageRun>, n: nat) {
    n == 0 || (n - 1 < |p| && Reaches(p, n - 1) && p[n - 1].resolves)
  }

  /** Every call listed in stage `m` belongs to stage `m`. */
  predicate Staged(p: seq<StageRun>) {
    forall m, i :: 0 <= m < |p| && 0 <= i < |p[m].calls| ==> Stage(p[m].calls[i]) == m
  }

  /** A run that gets to stage `n` resolved every stage before it. */
  lemma {:induction false} ReachesEarlier(p: seq<StageRun>, m: nat, n: nat)
    requires m <= n && Reaches(p, n)
    ensures Reaches(p, m)
    ensures m < n ==> m < |p| && p[m].resolves
    decreases n
  {
    if m < n - 1 {
      ReachesEarlier(p, m, n - 1);
    }
  }

  /** A stage that does not resolve stops the run: no later stage is reached. */
  lemma StopsAt(p: seq<StageRun>, n: nat)
    requires n < |p| && !p[n].resolves
    ensures forall m :: n < m ==> !Reaches(p, m)
  {
    forall m | n < m ensures !Reaches(p, m) {
      if Reaches(p, m) {
        ReachesEarlier(p, n, m);
      }
    }
  }

  /** From a reached stage on, a call is made exactly when its own stage is reached and lists it. */
  lemma {:induction false} CallsFromAre(p: seq<StageRun>, n: nat, s: Step)
    requires Staged(p) && Reaches(p, n)
    ensures s in CallsFrom(p, n) <==> n <= Stage(s) < |p| && Reaches(p, Stage(s)) && s in p[Stage(s)].calls
    decreases |p| - n
  {
    if n < |p| {
      assert s in p[n].calls ==> Stage(s) == n;
      if p[n].resolves {
        CallsFromAre(p, n + 1, s);
      } else {
        StopsAt(p, n);
      }
    }
  }

  lemma StageCallsAre(r: Responses, n: nat, s: Step)
    ensures s in StageCalls(r, n) <==> Stage(s) == n && Gated(r, s)
  {
  }

  lemma PlanStaged(r: Responses)
    ensures Staged(Plan(r))
  {
    var p := Plan(r);
    forall m, i | 0 <= m < |p| && 0 <= i < |p[m].calls| ensures Stage(p[m].calls[i]) == m {
      StageCallsAre(r, m, p[m].calls[i]);
    }
  }

  /** A step is called exactly when the run gets to its stage and its gate is open. */
  lemma InvokedIff(r: Responses, s: Step)
    ensures s in Invocations(r) <==> Reaches(Plan(r), Stage(s)) && Gated(r, s)
  {
    RunCallsFromPlan(r, 0);
    PlanStaged(r);
    CallsFromAre(Plan(r), 0, s);
    PlanAt(r, Stage(s));
    StageCallsAre(r, Stage(s), s);
  }

  /** The VCS-host step is called if and only if the run gets that far and a VCS context exists. */
  lemma VcsHostGate(r: Responses)
    ensures ScaffoldVcsHost in Invocations(r) <==> Reaches(Plan(r), 5) && r.Vcs().Some?
  {
    InvokedIff(r, ScaffoldVcsHost);
  }

  /** The git step is called if and only if the run gets that far and a repository was requested. */
  lemma GitGate(r: Responses)
    ensures ScaffoldGit in Invocations(r) <==>
      Reaches(Plan(r), 7) && r.baseDetails.Success? && r.baseDetails.value.gitRepo
  {
    InvokedIff(r, ScaffoldGit);
  }

  /** Verification runs if and only if the run gets that far and the language defines a command. */
  lemma VerifyGate(r: Responses)
    ensures Verify in Invocations(r) <==> Reaches(Plan(r), 8) && VerificationCommand(r.Language()).Some?
  {
    InvokedIff(r, Verify);
  }

  /** The run gets to stage `n` exactly when every stage before it resolves. */
  lemma {:induction false} ReachesAll(p: seq<StageRun>, n: nat)
    requires n <= |p|
    ensures Reaches(p, n) <==> forall m :: 0 <= m < n ==> p[m].resolves
  {
    if n > 0 {
      ReachesAll(p, n - 1);
    }
  }

  /** Stage `n` resolves exactly when each of its steps does. */
  lemma StageResolvesAll(r: Responses, n: nat)
    requires n < 10
    ensures StageResolves(r, n) <==> forall s :: Stage(s) == n ==> Resolves(r, s)
  {
    if StageResolves(r, n) {
      forall s | Stage(s) == n ensures Resolves(r, s) {
      }
    }
  }

  /** The run gets to the display of the next steps exactly when no step before it rejects. */
  lemma Completes(r: Responses)
    ensures DisplayResults in Invocations(r) <==> forall s :: s != DisplayResults ==> Resolves(r, s)
  {
    var p := Plan(r);
    InvokedIff(r, DisplayResults);
    ReachesAll(p, 9);
    if forall s :: s != DisplayResults ==> Resolves(r, s) {
      forall m | 0 <= m < 9 ensures p[m].resolves {
        StageResolvesAll(r, m);
        PlanAt(r, m);
      }
    } else {
      var s :| s != DisplayResults && !Resolves(r, s);
      StageResolvesAll(r, Stage(s));
      PlanAt(r, Stage(s));
      assert Stage(s) < 9 && !p[Stage(s)].resolves;
    }
  }

  /** A rejected step stops the run: no step of a later stage is called. */
  lemma FailFast(r: Responses, s: Step, t: Step)
    requires s in Invocations(r) && Rejection(r, s).Some?
    requires Stage(s) < Stage(t)
    ensures t !in Invocations(r)
  {
    InvokedIff(r, s);
    InvokedIff(r, t);
    assert !Plan(r)[Stage(s)].resolves;
    StopsAt(Plan(r), Stage(s));
  }

  /** The position of a step in the source text. */
  function Position(s: Step): nat {
    match s
    case Validate => 0
    case PromptForBaseDetails => 1
    case InitializeGit => 2
    case PromptForLanguageDetails => 3
    case ScaffoldLicense => 4
    case ScaffoldLanguage => 5
    case ScaffoldVcsHost => 6
    case ScaffoldReadme => 7
    case CopyEditorconfig => 8
    case ScaffoldGit => 9
    case Verify => 10
    case DisplayResults => 11
  }

  predicate InSourceOrder(steps: seq<Step>) {
    forall i, j :: 0 <= i < j < |steps| ==> Position(steps[i]) < Position(steps[j])
  }

  /** Within each stage, the calls are listed in source order. */
  predicate StagesInOrder(p: seq<StageRun>) {
    forall m :: 0 <= m < |p| ==> InSourceOrder(p[m].calls)
  }

  lemma PlanInOrder(r: Responses)
    ensures StagesInOrder(Plan(r))
  {
  }

  lemma OrderedConcat(a: seq<Step>, b: seq<Step>)
    requires InSourceOrder(a) && InSourceOrder(b)
    requires forall i, j :: 0 <= i < |a| && 0 <= j < |b| ==> Position(a[i]) < Position(b[j])
    ensures InSourceOrder(a + b)
  {
  }

  /** A later stage's steps come later in the source. */
  lemma StageBefore(s: Step, t: Step)
    requires Stage(s) < Stage(t)
    ensures Position(s) < Position(t)
  {
  }

  lemma {:induction false} CallsFromOrdered(p: seq<StageRun>, n: nat)
    requires Staged(p) && StagesInOrder(p)
    ensures InSourceOrder(CallsFrom(p, n))
    ensures forall i :: 0 <= i < |CallsFrom(p, n)| ==> n <= Stage(CallsFrom(p, n)[i])
    decreases |p| - n
  {
    if n < |p| {
      var here := p[n].calls;
      var rest := if p[n].resolves then CallsFrom(p, n + 1) else [];
      if p[n].resolves {
        CallsFromOrdered(p, n + 1);
      }
      forall i, j | 0 <= i < |here| && 0 <= j < |rest| ensures Position(here[i]) < Position(rest[j]) {
        StageBefore(here[i], rest[j]);
      }
      OrderedConcat(here, rest);
    }
  }

  /**
   * The calls happen in the order of the source: validate, base prompts, git
   * initialization, language prompts, license, language, VCS host, README,
   * editorconfig, git, verification, display.
   */
  lemma InvocationsOrdered(r: Responses)
    ensures InSourceOrder(Invocations(r))
  {
    RunCallsFromPlan(r, 0);
    PlanStaged(r);
    PlanInOrder(r);
    CallsFromOrdered(Plan(r), 0);
  }

  lemma {:induction false} StepsAppend(t: seq<Event>, u: seq<Event>)
    ensures Steps(t + u) == Steps(t) + Steps(u)
    decreases |u|
  {
    if u == [] {
      assert t + u == t;
    } else {
      StepsAppend(t, u[..|u| - 1]);
      assert (t + u)[..|t + u| - 1] == t + u[..|u| - 1];
    }
  }

  /** What each collaborator receives, as the source builds its argument. */
  ghost predicate Faithful(r: Responses, options: RawOptions, root: string, e: Event) {
    match e
    case Validated(o) => o == options
    case PromptedForBaseDetails(rt, holder, decisions) =>
      && r.validated.Success?
      && rt == root
      && holder == (if r.validated.value.overrides.Some? then r.validated.value.overrides.value.copyrightHolder else None)
      && decisions == r.validated.value.decisions
    case InitializedGit(req) =>
      && r.validated.Success? && r.baseDetails.Success?
      && req.gitRepo == r.baseDetails.value.gitRepo
      && req.projectRoot == root
      && req.decisions == r.validated.value.decisions
      && req.projectName == r.baseDetails.value.projectName
      && req.visibility == r.baseDetails.value.visibility
      && req.vcsHosts == r.validated.value.vcsHosts.GetOr(map[])
    case PromptedForLanguageDetails(languages, decisions) =>
      && r.validated.Success?
      && languages == r.validated.value.languages.GetOr(map[])
      && decisions == r.validated.value.decisions
    case ScaffoldedLicense(req) =>
      && r.baseDetails.Success? && r.vcs.Success?
      && req.projectRoot == root
      && req.license == r.baseDetails.value.license
      && req.copyright == Copyright(r.baseDetails.value.copyrightYear, r.baseDetails.value.copyrightHolder)
      && req.vcs == r.Vcs()
    case ScaffoldedLanguage(req) =>
      && r.validated.Success? && r.baseDetails.Success? && r.vcs.Success? && r.languageDetails.Success?
      && req.languages == r.validated.value.languages.GetOr(map[])
      && req.projectRoot == root
      && req.projectName == r.baseDetails.value.projectName
      && req.visibility == r.baseDetails.value.visibility
      && req.description == r.baseDetails.value.description
      && req.license == LanguageLicense(r.baseDetails.value.license)
      && req.projectLanguage == r.languageDetails.value.projectType
      && req.vcs == r.Vcs()
    case ScaffoldedVcsHost(req) =>
      && r.validated.Success? && r.baseDetails.Success? && r.languageDetails.Success? && r.language.Success? && r.Vcs().Some?
      && req.vcsHosts == r.validated.value.vcsHosts.GetOr(map[])
      && req.vcs == r.Vcs().value
      && req.projectRoot == root
      && req.projectType == r.languageDetails.value.projectType
      && req.description == r.baseDetails.value.description
      && req.visibility == r.baseDetails.value.visibility
      && req.homepage == Homepage(r.Language())
      && req.nextSteps == ContributedTasks(r.Language())
    case ScaffoldedReadme(req) =>
      && r.baseDetails.Success? && r.license.Success? && r.language.Success?
      && req.projectName == r.baseDetails.value.projectName
      && req.projectRoot == root
      && req.description == r.baseDetails.value.description
      && req.documentation == ReadmeDocumentation(r.Language())
      && req.badges == ReadmeBadges(r.Language(), r.license.value, r.baseDetails.value.visibility)
    case CopiedEditorconfig(destination) =>
      destination == root + "/.editorconfig"
    case ScaffoldedGit(req) =>
      && r.language.Success?
      && req.projectRoot == root
      && req.ignore == Ignore(r.Language())
      && req.origin == r.Origin()
    case ExecutedVerification(command) =>
      VerificationCommand(r.Language()) == Some(command)
    case DisplayedResults(tasks) =>
      tasks == NextSteps(r.GitOutput(), r.Language())
  }


  /** Every call recorded so far received the arguments the source builds. */
  ghost predicate FaithfulTrace(r: Responses, options: RawOptions, root: string, trace: seq<Event>)
    decreases |trace|
  {
    trace == [] || (FaithfulTrace(r, options, root, trace[..|trace| - 1]) && Faithful(r, options, root, trace[|trace| - 1]))
  }

  lemma {:induction false} FaithfulAppend(r: Responses, options: RawOptions, root: string, t: seq<Event>, u: seq<Event>)
    requires FaithfulTrace(r, options, root, t) && FaithfulTrace(r, options, root, u)
    ensures FaithfulTrace(r, options, root, t + u)
    decreases |u|
  {
    if u == [] {
      assert t + u == t;
    } else {
      FaithfulAppend(r, options, root, t, u[..|u| - 1]);
      assert (t + u)[..|t + u| - 1] == t + u[..|u| - 1];
    }
  }

  /** A faithful trace is one whose every call is faithful. */
  lemma {:induction false} FaithfulEach(r: Responses, options: RawOptions, root: string, t: seq<Event>)
    requires FaithfulTrace(r, options, root, t)
    ensures forall e | e in t :: Faithful(r, options, root, e)
    decreases |t|
  {
    if t != [] {
      var front := t[..|t| - 1];
      FaithfulEach(r, options, root, front);
      forall e | e in t ensures Faithful(r, options, root, e) {
        var i :| 0 <= i < |t| && t[i] == e;
        if i < |t| - 1 {
          assert front[i] == e;
        }
      }
    }
  }

  /** One call made on its own. */
  lemma CallOf(r: Responses, options: RawOptions, root: string, a: Event)
    requires Faithful(r, options, root, a)
    ensures Steps([a]) == [StepOf(a)]
    ensures FaithfulTrace(r, options, root, [a])
  {
    assert [a][..0] == [];
  }

  /** Two calls made together. */
  lemma CallsOfPair(r: Responses, options: RawOptions, root: string, a: Event, b: Event)
    requires Faithful(r, options, root, a) && Faithful(r, options, root, b)
    ensures Steps([a, b]) == [StepOf(a), StepOf(b)]
    ensures FaithfulTrace(r, options, root, [a, b])
  {
    assert [a, b][..1] == [a];
    CallOf(r, options, root, a);
  }

  /** The calls of the stages before `n`, when all of them resolve. */
  function CallsBefore(r: Responses, n: nat): seq<Step>
    decreases n
  {
    if n == 0 then [] else CallsBefore(r, n - 1) + StageCalls(r, n - 1)
  }

  /** Every stage before `n` resolves. */
  predicate ResolvedBefore(r: Responses, n: nat)
    decreases n
  {
    n == 0 || (ResolvedBefore(r, n - 1) && StageResolves(r, n - 1))
  }

  /** The calls of the first `n` stages of a plan. */
  function Before(p: seq<StageRun>, n: nat): seq<Step>
    requires n <= |p|
  {
    if n == 0 then [] else Before(p, n - 1) + p[n - 1].calls
  }

  /** A run that gets to stage `n` of a plan makes the calls of the stages before it, then those from `n` on. */
  lemma {:induction false} PlanSplits(p: seq<StageRun>, n: nat)
    requires n <= |p| && Reaches(p, n)
    ensures CallsFrom(p, 0) == Before(p, n) + CallsFrom(p, n)
  {
    if n == 0 {
      assert [] + CallsFrom(p, 0) == CallsFrom(p, 0);
    } else {
      PlanSplits(p, n - 1);
      assert Before(p, n - 1) + (p[n - 1].calls + CallsFrom(p, n)) == Before(p, n) + CallsFrom(p, n);
    }
  }

  /** The stages before `n` of a run are those of its plan. */
  lemma {:induction false} BeforePlan(r: Responses, n: nat)
    requires n <= 10
    ensures CallsBefore(r, n) == Before(Plan(r), n)
    ensures ResolvedBefore(r, n) <==> Reaches(Plan(r), n)
  {
    PlanAt(r, 0);
    if n > 0 {
      BeforePlan(r, n - 1);
      PlanAt(r, n - 1);
    }
  }

  /** A run whose first `n` stages resolve makes their calls, then those from stage `n` on. */
  lemma RunSplits(r: Responses, n: nat)
    requires n <= 10 && ResolvedBefore(r, n)
    ensures Invocations(r) == CallsBefore(r, n) + RunCallsFrom(r, n)
  {
    BeforePlan(r, n);
    RunCallsFromPlan(r, 0);
    RunCallsFromPlan(r, n);
    PlanSplits(Plan(r), n);
  }

  /** The run has resolved its first `n` stages and made their calls, which `trace` records. */
  ghost predicate Reached(r: Responses, trace: seq<Event>, n: nat) {
    ResolvedBefore(r, n) && Steps(trace) == CallsBefore(r, n)
  }

  /** The run is over: `trace` records all its calls, and `outcome` says how it ended. */
  ghost predicate Ended(r: Responses, trace: seq<Event>, outcome: RunOutcome) {
    && Steps(trace) == Invocations(r)
    && (outcome.Completed? <==> forall s :: Resolves(r, s))
    && (outcome.Aborted? ==> outcome.failedStep in Invocations(r) && Rejection(r, outcome.failedStep) == Some(outcome.error))
  }

  /** Every call of the stages before `n` belongs to one of them. */
  lemma {:induction false} CallsBeforeStages(r: Responses, n: nat)
    ensures forall s :: s in CallsBefore(r, n) ==> Stage(s) < n
    decreases n
  {
    if n > 0 {
      CallsBeforeStages(r, n - 1);
      forall s | s in StageCalls(r, n - 1) ensures Stage(s) == n - 1 {
        StageCallsAre(r, n - 1, s);
      }
    }
  }

  /** A run that resolves its first `n` stages but not stage `n` makes their calls and stops. */
  lemma StopsWith(r: Responses, n: nat)
    requires n <= 9 && ResolvedBefore(r, n) && !StageResolves(r, n)
    ensures Invocations(r) == CallsBefore(r, n) + StageCalls(r, n)
  {
    RunSplits(r, n);
    assert RunCallsFrom(r, n) == StageCalls(r, n) + [];
  }

  /** Stage `n` made its calls and they all resolved: the run goes on with stage `n + 1`. */
  lemma Resolved(r: Responses, trace: seq<Event>, calls: seq<Event>, n: nat)
    requires n <= 9 && Reached(r, trace, n)
    requires Steps(calls) == StageCalls(r, n) && StageResolves(r, n)
    ensures Reached(r, trace + calls, n + 1)
  {
    StepsAppend(trace, calls);
  }

  /** Stage `n` made its calls and step `s` among them rejected with `err`: the run ends with them. */
  lemma Rejected(r: Responses, trace: seq<Event>, calls: seq<Event>, n: nat, s: Step, err: Error)
    requires n <= 9 && Reached(r, trace, n)
    requires Steps(calls) == StageCalls(r, n) && s in StageCalls(r, n) && Rejection(r, s) == Some(err)
    ensures Ended(r, trace + calls, Aborted(s, err))
  {
    StepsAppend(trace, calls);
    StageCallsAre(r, n, s);
    StageResolvesAll(r, n);
    StopsWith(r, n);
  }

  /** Every stage before `n` resolves, one by one. */
  lemma {:induction false} ResolvedBeforeAll(r: Responses, n: nat)
    ensures ResolvedBefore(r, n) <==> forall m :: 0 <= m < n ==> StageResolves(r, m)
    decreases n
  {
    if n > 0 {
      ResolvedBeforeAll(r, n - 1);
    }
  }

  /** The run resolves all ten stages exactly when no step rejects, the display included. */
  lemma AllResolve(r: Responses)
    ensures ResolvedBefore(r, 10) <==> forall s :: Resolves(r, s)
  {
    ResolvedBeforeAll(r, 10);
    if ResolvedBefore(r, 10) {
      forall s ensures Resolves(r, s) {
        StageResolvesAll(r, Stage(s));
      }
    } else {
      var m :| 0 <= m < 10 && !StageResolves(r, m);
      StageResolvesAll(r, m);
    }
  }

  /** All ten stages resolved: the run is complete, and its calls are theirs. */
  lemma Finished(r: Responses, trace: seq<Event>)
    requires Reached(r, trace, 10)
    ensures Ended(r, trace, Completed)
  {
    RunSplits(r, 10);
    assert Invocations(r) == CallsBefore(r, 10) + [];
    AllResolve(r);
  }

  /** The first of `steps` whose response rejects, if any. */
  function FirstRejected(r: Responses, steps: seq<Step>): (failed: Option<Step>)
    ensures failed.Some? ==> failed.value in steps && Rejection(r, failed.value).Some?
    ensures failed.None? <==> forall s :: s in steps ==> Rejection(r, s).None?
    ensures steps != [] && Rejection(r, steps[0]).Some? ==> failed == Some(steps[0])
  {
    if steps == [] then None
    else if Rejection(r, steps[0]).Some? then Some(steps[0])
    else FirstRejected(r, steps[1..])
  }

  /** A stage resolves exactly when none of the calls it makes rejects. */
  lemma StageRejects(r: Responses, n: nat)
    requires n <= 9
    ensures StageResolves(r, n) <==> forall s :: s in StageCalls(r, n) ==> Rejection(r, s).None?
  {
    StageResolvesAll(r, n);
    forall s {
      StageCallsAre(r, n, s);
    }
  }

  /**
   * `await` of the calls of stage `n`, made together (none when the stage's
   * gate is closed): all of them are recorded, and the run stops with the
   * first of them, in source order, that rejects.
   */
  method Await(ghost options: RawOptions, ghost root: string, r: Responses, trace0: seq<Event>, calls: seq<Event>, n: nat)
    returns (trace: seq<Event>, outcome: RunOutcome, go: bool)
    requires n <= 9 && Reached(r, trace0, n) && Steps(calls) == StageCalls(r, n)
    requires FaithfulTrace(r, options, root, trace0) && FaithfulTrace(r, options, root, calls)
    ensures trace == trace0 + calls
    ensures FaithfulTrace(r, options, root, trace)
    ensures go <==> StageResolves(r, n)
    ensures go ==> Reached(r, trace, n + 1)
    ensures !go ==> Ended(r, trace, outcome)
  {
    trace := trace0 + calls;
    FaithfulAppend(r, options, root, trace0, calls);
    StageRejects(r, n);
    var failed := FirstRejected(r, Steps(calls));
    if failed.Some? {
      var err := Rejection(r, failed.value).value;
      Rejected(r, trace0, calls, n, failed.value, err);
      outcome, go := Aborted(failed.value, err), false;
    } else {
      Resolved(r, trace0, calls, n);
      outcome, go := Completed, true;
    }
  }

  /**
   * The run up to the language prompt: validate the options, prompt for the
   * base details, initialize git, prompt for the language details.
   */
  method Prepare(options: RawOptions, projectRoot: string, r: Responses) returns (trace: seq<Event>, outcome: RunOutcome, go: bool)
    ensures FaithfulTrace(r, options, projectRoot, trace)
    ensures go ==> Reached(r, trace, 4)
    ensures go ==> r.validated.Success? && r.baseDetails.Success? && r.vcs.Success? && r.languageDetails.Success?
    ensures !go ==> Ended(r, trace, outcome)
  {
    var validateCall := Validated(options);
    CallOf(r, options, projectRoot, validateCall);
    trace, outcome, go := Await(options, projectRoot, r, [], [validateCall], 0);
    if !go { return; }
    var config := r.validated.value;
    var languages := config.languages.GetOr(map[]);
    var overrides := config.overrides.GetOr(Overrides(None));
    var vcsHosts := config.vcsHosts.GetOr(map[]);

    var baseCall := PromptedForBaseDetails(projectRoot, overrides.copyrightHolder, config.decisions);
    CallOf(r, options, projectRoot, baseCall);
    trace, outcome, go := Await(options, projectRoot, r, trace, [baseCall], 1);
    if !go { return; }
    var base := r.baseDetails.value;

    var initCall := InitializedGit(InitRequest(base.gitRepo, projectRoot, base.projectName, vcsHosts, base.visibility, config.decisions));
    CallOf(r, options, projectRoot, initCall);
    trace, outcome, go := Await(options, projectRoot, r, trace, [initCall], 2);
    if !go { return; }

    var languageCall := PromptedForLanguageDetails(languages, config.decisions);
    CallOf(r, options, projectRoot, languageCall);
    trace, outcome, go := Await(options, projectRoot, r, trace, [languageCall], 3);
  }

  /** The license and the language, scaffolded together. */
  method ScaffoldCode(options: RawOptions, projectRoot: string, r: Responses, trace0: seq<Event>)
    returns (trace: seq<Event>, outcome: RunOutcome, go: bool)
    requires Reached(r, trace0, 4) && FaithfulTrace(r, options, projectRoot, trace0)
    requires r.validated.Success? && r.baseDetails.Success? && r.vcs.Success? && r.languageDetails.Success?
    ensures FaithfulTrace(r, options, projectRoot, trace)
    ensures go ==> Reached(r, trace, 5) && r.license.Success? && r.language.Success?
    ensures !go ==> Ended(r, trace, outcome)
  {
    var config, base, vcs := r.validated.value, r.baseDetails.value, r.vcs.value;
    var copyright := Copyright(base.copyrightYear, base.copyrightHolder);
    var licenseCall := ScaffoldedLicense(LicenseRequest(projectRoot, base.license, copyright, vcs));
    var languageCall := ScaffoldedLanguage(LanguageRequest(config.languages.GetOr(map[]), r.languageDetails.value.projectType,
                                                           projectRoot, base.projectName, vcs, base.visibility,
                                                           LanguageLicense(base.license), base.description));
    CallsOfPair(r, options, projectRoot, licenseCall, languageCall);
    trace, outcome, go := Await(options, projectRoot, r, trace0, [licenseCall, languageCall], 4);
  }

  /** The VCS host, only when git initialization returned a VCS context. */
  method ScaffoldVcs(options: RawOptions, projectRoot: string, r: Responses, trace0: seq<Event>)
    returns (trace: seq<Event>, outcome: RunOutcome, go: bool)
    requires Reached(r, trace0, 5) && FaithfulTrace(r, options, projectRoot, trace0)
    requires r.validated.Success? && r.baseDetails.Success? && r.vcs.Success? && r.languageDetails.Success? && r.language.Success?
    ensures FaithfulTrace(r, options, projectRoot, trace)
    ensures go ==> Reached(r, trace, 6) && (r.vcs.value.Some? ==> r.vcsHost.Success?)
    ensures !go ==> Ended(r, trace, outcome)
  {
    var base, vcs, language := r.baseDetails.value, r.vcs.value, r.language.value;
    var calls := if vcs.Some? then
      [ScaffoldedVcsHost(VcsHostRequest(r.validated.value.vcsHosts.GetOr(map[]), vcs.value, projectRoot,
                                        r.languageDetails.value.projectType, base.description, base.visibility,
                                        Homepage(language), ContributedTasks(language)))]
      else [];
    if vcs.Some? {
      CallOf(r, options, projectRoot, calls[0]);
    }
    trace, outcome, go := Await(options, projectRoot, r, trace0, calls, 5);
  }

  /** The README, with the merged badge groups, and the editorconfig, together. */
  method ScaffoldDocs(options: RawOptions, projectRoot: string, r: Responses, trace0: seq<Event>)
    returns (trace: seq<Event>, outcome: RunOutcome, go: bool)
    requires Reached(r, trace0, 6) && FaithfulTrace(r, options, projectRoot, trace0)
    requires r.baseDetails.Success? && r.license.Success? && r.language.Success?
    ensures FaithfulTrace(r, options, projectRoot, trace)
    ensures go ==> Reached(r, trace, 7)
    ensures !go ==> Ended(r, trace, outcome)
  {
    var base, license, language := r.baseDetails.value, r.license.value, r.language.value;
    var readmeCall := ScaffoldedReadme(ReadmeRequest(base.projectName, projectRoot, base.description, ReadmeDocumentation(language),
                                                     ReadmeBadges(language, license, base.visibility)));
    var editorconfigCall := CopiedEditorconfig(projectRoot + "/.editorconfig");
    CallsOfPair(r, options, projectRoot, readmeCall, editorconfigCall);
    trace, outcome, go := Await(options, projectRoot, r, trace0, [readmeCall, editorconfigCall], 6);
  }

  /** A stage whose gate is closed makes no call. */
  lemma NoCalls(r: Responses, options: RawOptions, root: string)
    ensures Steps([]) == [] && FaithfulTrace(r, options, root, [])
  {
  }

  /** The git stage calls the git scaffolder exactly when a repository was requested, and resolves unless that call rejects. */
  lemma GitStage(r: Responses)
    requires r.baseDetails.Success?
    ensures StageCalls(r, 7) == if r.baseDetails.value.gitRepo then [ScaffoldGit] else []
    ensures StageResolves(r, 7) <==> (r.baseDetails.value.gitRepo ==> r.git.Success?)
  {
  }

  /** The git scaffolding, only when a repository was requested; `origin` is the VCS host's result. */
  method ScaffoldRepository(options: RawOptions, projectRoot: string, r: Responses, trace0: seq<Event>)
    returns (trace: seq<Event>, outcome: RunOutcome, go: bool)
    requires Reached(r, trace0, 7) && FaithfulTrace(r, options, projectRoot, trace0)
    requires r.baseDetails.Success? && r.vcs.Success? && r.language.Success? && (r.vcs.value.Some? ==> r.vcsHost.Success?)
    ensures FaithfulTrace(r, options, projectRoot, trace)
    ensures go ==> Reached(r, trace, 8) && (r.baseDetails.value.gitRepo ==> r.git.Success?)
    ensures !go ==> Ended(r, trace, outcome)
  {
    var vcsHostResults := if r.vcs.value.Some? then r.vcsHost.value else None;
    GitStage(r);
    if r.baseDetails.value.gitRepo {
      var gitCall := ScaffoldedGit(GitRequest(projectRoot, Ignore(r.language.value), vcsHostResults));
      CallOf(r, options, projectRoot, gitCall);
      trace, outcome, go := Await(options, projectRoot, r, trace0, [gitCall], 7);
    } else {
      NoCalls(r, options, projectRoot);
      trace, outcome, go := Await(options, projectRoot, r, trace0, [], 7);
    }
  }

  /** The language's verification command, only when it defines a non-empty one. */
  method VerifyProject(options: RawOptions, projectRoot: string, r: Responses, trace0: seq<Event>)
    returns (trace: seq<Event>, outcome: RunOutcome, go: bool)
    requires Reached(r, trace0, 8) && FaithfulTrace(r, options, projectRoot, trace0)
    requires r.language.Success?
    ensures FaithfulTrace(r, options, projectRoot, trace)
    ensures go ==> Reached(r, trace, 9)
    ensures !go ==> Ended(r, trace, outcome)
  {
    var command := VerificationCommand(r.language.value);
    var calls := if command.Some? then [ExecutedVerification(command.value)] else [];
    if command.Some? {
      CallOf(r, options, projectRoot, calls[0]);
    }
    trace, outcome, go := Await(options, projectRoot, r, trace0, calls, 8);
  }

  /** The last stage is the display alone, and it resolves exactly when the display does not throw. */
  lemma DisplayStage(r: Responses)
    ensures StageCalls(r, 9) == [DisplayResults]
    ensures StageResolves(r, 9) <==> r.display.Pass?
  {
  }

  /** The last call: the next steps of git, then those of the language, are displayed. */
  method Report(options: RawOptions, projectRoot: string, r: Responses, trace0: seq<Event>)
    returns (trace: seq<Event>, outcome: RunOutcome)
    requires Reached(r, trace0, 9) && FaithfulTrace(r, options, projectRoot, trace0)
    requires r.baseDetails.Success? && r.language.Success? && (r.baseDetails.value.gitRepo ==> r.git.Success?)
    ensures FaithfulTrace(r, options, projectRoot, trace)
    ensures Ended(r, trace, outcome)
    ensures outcome.Completed? <==> r.display.Pass?
  {
    var gitResults := if r.baseDetails.value.gitRepo then r.git.value else None;
    var display := DisplayedResults(NextSteps(gitResults, r.language.value));
    CallOf(r, options, projectRoot, display);
    DisplayStage(r);
    var go;
    trace, outcome, go := Await(options, projectRoot, r, trace0, [display], 9);
    if go {
      Finished(r, trace);
      outcome := Completed;
    }
  }

  /**
   * `scaffold`: the calls of the ten stages, in source order, each stage
   * started only when every call of the stages before it resolved. The run is
   * complete exactly when no step rejects, the display of the results
   * included; otherwise it ends with a step that was called and rejected, and
   * the cause that step's response carried.
   */
  method Scaffold(options: RawOptions, projectRoot: string, r: Responses) returns (trace: seq<Event>, outcome: RunOutcome)
    ensures Steps(trace) == Invocations(r)
    ensures outcome.Completed? <==> forall s :: Resolves(r, s)
    ensures outcome.Aborted? ==> outcome.failedStep in Invocations(r) && Rejection(r, outcome.failedStep) == Some(outcome.error)
    ensures forall e | e in trace :: Faithful(r, options, projectRoot, e)
  {
    var go;
    trace, outcome, go := Prepare(options, projectRoot, r);
    if !go { FaithfulEach(r, options, projectRoot, trace); return; }
    trace, outcome, go := ScaffoldCode(options, projectRoot, r, trace);
    if !go { FaithfulEach(r, options, projectRoot, trace); return; }
    trace, outcome, go := ScaffoldVcs(options, projectRoot, r, trace);
    if !go { FaithfulEach(r, options, projectRoot, trace); return; }
    trace, outcome, go := ScaffoldDocs(options, projectRoot, r, trace);
    if !go { FaithfulEach(r, options, projectRoot, trace); return; }
    trace, outcome, go := ScaffoldRepository(options, projectRoot, r, trace);
    if !go { FaithfulEach(r, options, projectRoot, trace); return; }
    trace, outcome, go := VerifyProject(options, projectRoot, r, trace);
    if !go { FaithfulEach(r, options, projectRoot, trace); return; }
    trace, outcome := Report(options, projectRoot, r, trace);
    FaithfulEach(r, options, projectRoot, trace);
  }
}
