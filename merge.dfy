/**
 * The pure expressions between the scaffolder's steps: the defaults it
 * substitutes, the values it derives from the language result, the three
 * badge groups it builds by object spread, and the final next-steps list.
 */
module Merge {
  import opened Wrappers
  import opened Entries
  import opened Project

  /** `chosenLicense || 'UNLICENSED'`: the license the language scaffolder is told about. */
  function LanguageLicense(chosen: Option<string>): (license: string)
    ensures license != ""
    ensures chosen.Some? && chosen.value != "" ==> license == chosen.value
    ensures chosen.None? || chosen.value == "" ==> license == "UNLICENSED"
  {
    if chosen.Some? && chosen.value != "" then chosen.value else "UNLICENSED"
  }

  /** `contributedTasks`: the language's next steps, or none. */
  function ContributedTasks(language: Option<LanguageResult>): (tasks: seq<Task>)
    ensures language.None? || language.value.nextSteps.None? ==> tasks == []
    ensures language.Some? && language.value.nextSteps.Some? ==> tasks == language.value.nextSteps.value
  {
    if language.Some? && language.value.nextSteps.Some? then language.value.nextSteps.value else []
  }

  /** The git scaffolder's next steps, or none when it was skipped or returned none. */
  function GitTasks(git: Option<GitResult>): (tasks: seq<Task>)
    ensures git.None? || git.value.nextSteps.None? ==> tasks == []
    ensures git.Some? && git.value.nextSteps.Some? ==> tasks == git.value.nextSteps.value
  {
    if git.Some? && git.value.nextSteps.Some? then git.value.nextSteps.value else []
  }

  /** The list handed to the results display: git's tasks first, then the language's. */
  function NextSteps(git: Option<GitResult>, language: Option<LanguageResult>): (tasks: seq<Task>)
    ensures |tasks| == |GitTasks(git)| + |ContributedTasks(language)|
    ensures tasks[..|GitTasks(git)|] == GitTasks(git)
    ensures tasks[|GitTasks(git)|..] == ContributedTasks(language)
  {
    GitTasks(git) + ContributedTasks(language)
  }

  /** `language && language.projectDetails && language.projectDetails.homepage` */
  function Homepage(language: Option<LanguageResult>): (homepage: Option<string>)
    ensures homepage.Some? <==>
      language.Some? && language.value.projectDetails.Some? && language.value.projectDetails.value.homepage.Some?
    ensures homepage.Some? ==> homepage == language.value.projectDetails.value.homepage
  {
    if language.Some? && language.value.projectDetails.Some? then language.value.projectDetails.value.homepage
    else None
  }

  /** `language && language.verificationCommand`, when truthy (a non-empty string). */
  function VerificationCommand(language: Option<LanguageResult>): (command: Option<string>)
    ensures command.Some? <==>
      language.Some? && language.value.verificationCommand.Some? && language.value.verificationCommand.value != ""
    ensures command.Some? ==> command == language.value.verificationCommand
  {
    if language.Some? && language.value.verificationCommand.Some? && language.value.verificationCommand.value != ""
    then language.value.verificationCommand
    else None
  }

  /** `language && {ignore: language.vcsIgnore}`: what the git scaffolder gets as `ignore`. */
  function Ignore(language: Option<LanguageResult>): Option<VcsIgnore> {
    if language.Some? then language.value.vcsIgnore else None
  }

  /** `language && {documentation: language.documentation}` */
  function ReadmeDocumentation(language: Option<LanguageResult>): Option<Documentation> {
    if language.Some? then language.value.documentation else None
  }

  /** `language && language.badges && language.badges[g]`; spreading a missing group adds nothing. */
  function LanguageGroup(language: Option<LanguageResult>, g: GroupName): Object<Badge> {
    if language.Some? && language.value.badges.Some? && language.value.badges.value.Group(g).Some?
    then language.value.badges.value.Group(g).value
    else []
  }

  const PrsKey := "PRs"
  const LicenseKey := "license"

  /** The badge added to the contribution group of a public project. */
  const PrsBadge := Badge("PRs Welcome", Some("http://makeapullrequest.com"), "https://img.shields.io/badge/PRs-welcome-brightgreen.svg")

  /** `license.badges && {license: license.badges.consumer}` */
  function LicenseEntries(license: LicenseResult): Object<Badge> {
    if license.badges.Some? then [(LicenseKey, license.badges.value.consumer)] else []
  }

  /** `'Public' === visibility && {PRs: ...}` */
  function PrsEntries(visibility: string): Object<Badge> {
    if visibility == "Public" then [(PrsKey, PrsBadge)] else []
  }

  /*
   * The three groups below are object literals built by spreading. Spreading
   * the language's group into the fresh literal copies it (`SpreadCopies`),
   * so each group is the language's group with the fixed entries spread over
   * it.
   */

  /** `{...language.badges.consumer, ...license.badges && {license: ...}}` */
  function ConsumerGroup(language: Option<LanguageResult>, license: LicenseResult): Object<Badge> {
    Spread(LanguageGroup(language, Consumer), LicenseEntries(license))
  }

  /** `{...language.badges.status}` */
  function StatusGroup(language: Option<LanguageResult>): Object<Badge> {
    LanguageGroup(language, Status)
  }

  /** `{...language.badges.contribution, ...'Public' === visibility && {PRs: ...}}` */
  function ContributionGroup(language: Option<LanguageResult>, visibility: string): Object<Badge> {
    Spread(LanguageGroup(language, Contribution), PrsEntries(visibility))
  }

  /** The `badges` argument of the README scaffolder. */
  function ReadmeBadges(language: Option<LanguageResult>, license: LicenseResult, visibility: string): BadgeGroups {
    BadgeGroups(ConsumerGroup(language, license), StatusGroup(language), ContributionGroup(language, visibility))
  }

  /**
   * Spreading one fixed badge (or nothing) over a collaborator's group: the
   * group's keys keep their order and positions, the fixed key takes the
   * fixed badge, and every other key keeps its badge.
   */
  lemma MergeFixedBadge(o: Object<Badge>, add: bool, k: string, b: Badge)
    ensures var m := Spread(o, if add then [(k, b)] else []);
      && |m| >= |o| && Keys(m)[..|o|] == Keys(o)
      && (forall j :: j != k ==> Get(m, j) == Get(o, j))
      && Get(m, k) == (if add then Some(b) else Get(o, k))
      && (!add ==> m == o)
      && (add && !HasKey(o, k) ==> m == o + [(k, b)])
      && (HasKey(o, k) ==> Keys(m) == Keys(o))
  {
    if add {
      SpreadOne(o, k, b);
      AssignSpec(o, k, b);
      if !HasKey(o, k) {
        assert Keys(o + [(k, b)])[..|o|] == Keys(o);
      }
    }
  }

  /**
   * The consumer group: the language's consumer badges in their order, then a
   * `license` badge when the license result has badges. A language badge
   * under the key `license` keeps its position and takes the license badge.
   */
  lemma ConsumerGroupMerge(language: Option<LanguageResult>, license: LicenseResult)
    ensures var lang := LanguageGroup(language, Consumer);
      var c := ConsumerGroup(language, license);
      && |c| >= |lang| && Keys(c)[..|lang|] == Keys(lang)
      && (forall k :: k != LicenseKey ==> Get(c, k) == Get(lang, k))
      && Get(c, LicenseKey) == (if license.badges.Some? then Some(license.badges.value.consumer) else Get(lang, LicenseKey))
      && (license.badges.None? ==> c == lang)
      && (license.badges.Some? && !HasKey(lang, LicenseKey) ==> c == lang + [(LicenseKey, license.badges.value.consumer)])
      && (HasKey(lang, LicenseKey) ==> Keys(c) == Keys(lang))
  {
    var add := license.badges.Some?;
    var b := if add then license.badges.value.consumer else PrsBadge;
    MergeFixedBadge(LanguageGroup(language, Consumer), add, LicenseKey, b);
  }

  /**
   * The contribution group: the language's contribution badges in their
   * order, then the `PRs` badge if and only if the visibility is exactly
   * `Public`.
   */
  lemma ContributionGroupMerge(language: Option<LanguageResult>, visibility: string)
    ensures var lang := LanguageGroup(language, Contribution);
      var c := ContributionGroup(language, visibility);
      && |c| >= |lang| && Keys(c)[..|lang|] == Keys(lang)
      && (forall k :: k != PrsKey ==> Get(c, k) == Get(lang, k))
      && (visibility == "Public" ==> Get(c, PrsKey) == Some(PrsBadge))
      && (visibility != "Public" ==> c == lang)
      && (visibility == "Public" && !HasKey(lang, PrsKey) ==> c == lang + [(PrsKey, PrsBadge)])
      && (HasKey(c, PrsKey) <==> visibility == "Public" || HasKey(lang, PrsKey))
  {
    MergeFixedBadge(LanguageGroup(language, Contribution), visibility == "Public", PrsKey, PrsBadge);
  }

  /** Reading one key after spreading one fixed badge (or nothing) over a group. */
  lemma MergeFixedGet(o: Object<Badge>, add: bool, k: string, b: Badge, key: string)
    ensures Get(Spread(o, if add then [(k, b)] else []), key) == if add && key == k then Some(b) else Get(o, key)
  {
    if add {
      SpreadOne(o, k, b);
      AssignSpec(o, k, b);
    }
  }

  /** `consumer[key]`: the license badge under `license` when the license result has badges, else the language's badge. */
  lemma ConsumerGroupGet(language: Option<LanguageResult>, license: LicenseResult, key: string)
    ensures Get(ConsumerGroup(language, license), key) ==
      if key == LicenseKey && license.badges.Some? then Some(license.badges.value.consumer)
      else Get(LanguageGroup(language, Consumer), key)
  {
    var add := license.badges.Some?;
    MergeFixedGet(LanguageGroup(language, Consumer), add, LicenseKey, if add then license.badges.value.consumer else PrsBadge, key);
  }

  /** `contribution[key]`: the PRs badge under `PRs` for a public project, else the language's badge. */
  lemma ContributionGroupGet(language: Option<LanguageResult>, visibility: string, key: string)
    ensures Get(ContributionGroup(language, visibility), key) ==
      if key == PrsKey && visibility == "Public" then Some(PrsBadge)
      else Get(LanguageGroup(language, Contribution), key)
  {
    MergeFixedGet(LanguageGroup(language, Contribution), visibility == "Public", PrsKey, PrsBadge, key);
  }

  /**
   * The groups as the source writes them, each an object literal that first
   * spreads the language's group into `{}`: the copy changes nothing, so the
   * status group is the language's status badges (or none), and the other two
   * are the language's group with the fixed entries spread over it.
   */
  lemma GroupLiterals(language: Option<LanguageResult>, license: LicenseResult, visibility: string)
    ensures StatusGroup(language) == Spread([], LanguageGroup(language, Status))
    ensures ConsumerGroup(language, license) == Spread(Spread([], LanguageGroup(language, Consumer)), LicenseEntries(license))
    ensures ContributionGroup(language, visibility) == Spread(Spread([], LanguageGroup(language, Contribution)), PrsEntries(visibility))
    ensures StatusGroup(language) == if language.Some? && language.value.badges.Some? && language.value.badges.value.status.Some?
      then language.value.badges.value.status.value else []
  {
    SpreadCopies(LanguageGroup(language, Status));
    SpreadCopies(LanguageGroup(language, Consumer));
    SpreadCopies(LanguageGroup(language, Contribution));
  }
}
