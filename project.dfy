/**
 * The values that flow through one scaffolding run: the validated options,
 * the answers to the prompts, and what each collaborator returns. A field of
 * type `Option` is one the source may find `undefined`.
 */
module Project {
  import opened Wrappers
  import opened Entries

  /** The cause a rejected step carries. */
  type Error = string

  /** Pre-supplied answers, keyed by question name; passed through untouched. */
  type Decisions = map<string, string>

  /** A language or VCS-host plugin, known to the core only by name. */
  datatype Plugin = Plugin(id: string)

  datatype Overrides = Overrides(copyrightHolder: Option<string>)

  /** What the options validator yields: any option may be missing. */
  datatype Config = Config(
    languages: Option<map<string, Plugin>>,
    overrides: Option<Overrides>,
    vcsHosts: Option<map<string, Plugin>>,
    decisions: Option<Decisions>)

  /** The answers to the base questions (project name, license, visibility, ...). */
  datatype BaseAnswers = BaseAnswers(
    projectName: string,
    license: Option<string>,
    visibility: string,
    description: string,
    gitRepo: bool,
    copyrightYear: string,
    copyrightHolder: string)

  datatype Copyright = Copyright(year: string, holder: string)

  /** The answers to the language questions; only the chosen project type is read. */
  datatype LanguageAnswers = LanguageAnswers(projectType: Option<string>)

  /** The local repository state the git initializer returns when VCS is wanted. */
  datatype VcsContext = VcsContext(host: Option<string>, owner: Option<string>, name: Option<string>)

  /** A follow-up task shown to the user at the end of the run. */
  datatype Task = Task(summary: string, description: Option<string>)

  /** One badge: alt text, optional link target, image URL. */
  datatype Badge = Badge(text: string, link: Option<string>, img: string)

  datatype GroupName = Status | Consumer | Contribution

  /** The badges a language contributes; any group may be missing. */
  datatype LanguageBadges = LanguageBadges(
    consumer: Option<Object<Badge>>,
    status: Option<Object<Badge>>,
    contribution: Option<Object<Badge>>)
  {
    function Group(g: GroupName): Option<Object<Badge>> {
      match g
      case Status => status
      case Consumer => consumer
      case Contribution => contribution
    }
  }

  /** The README texts a language contributes. */
  datatype Documentation = Documentation(toc: Option<string>, usage: Option<string>, contributing: Option<string>)

  datatype ProjectDetails = ProjectDetails(homepage: Option<string>)

  datatype VcsIgnore = VcsIgnore(files: seq<string>, directories: seq<string>)

  /** What the language scaffolder returns; every field is optional. */
  datatype LanguageResult = LanguageResult(
    nextSteps: Option<seq<Task>>,
    documentation: Option<Documentation>,
    badges: Option<LanguageBadges>,
    vcsIgnore: Option<VcsIgnore>,
    verificationCommand: Option<string>,
    projectDetails: Option<ProjectDetails>)

  datatype LicenseBadges = LicenseBadges(consumer: Badge)

  /** What the license scaffolder returns. */
  datatype LicenseResult = LicenseResult(badges: Option<LicenseBadges>)

  /** The remote the VCS-host scaffolder registers; the git scaffolder's `origin`. */
  datatype VcsHostResult = VcsHostResult(origin: string)

  /** What the git scaffolder returns. */
  datatype GitResult = GitResult(nextSteps: Option<seq<Task>>)

  /** The three badge groups handed to the README scaffolder, in the source's key order. */
  datatype BadgeGroups = BadgeGroups(consumer: Object<Badge>, status: Object<Badge>, contribution: Object<Badge>)
  {
    function Group(g: GroupName): Object<Badge> {
      match g
      case Status => status
      case Consumer => consumer
      case Contribution => contribution
    }
  }

  /** The argument of the README scaffolder. */
  datatype ReadmeRequest = ReadmeRequest(
    projectName: string,
    projectRoot: string,
    description: string,
    documentation: Option<Documentation>,
    badges: BadgeGroups)
}
