# project-scaffolder: the scaffolding run and the README it asks for

A model, in Dafny, of two pieces of form8ion's project scaffolder.

**The scaffolding run** (`scaffold` in `src/scaffolder.js`) validates the options and prompts for the base details. It initializes git and prompts for the language. It then scaffolds the license and the language together, then the VCS host, then the README together with the editorconfig. Last come the git repository, the verification command and the display of the next steps. Between these awaited calls it:

- substitutes defaults (`'UNLICENSED'`, empty task lists);
- derives the homepage, the ignore lists and the verification command from the language result;
- merges three README badge groups by object spread;
- concatenates the next steps of git and of the language.

**The README the run must produce**, as the integration steps in `test/integration/features/step_definitions/documentation-steps.js` check it. Those steps parse the README into a syntax tree and observe it:

- `getBadgesFromZone`, `groupBadges` and `extractReferences` read the tree;
- the `assert…` helpers and the four `Then` steps check it.

The model's files:

- `wrappers.dfy`: `Option`, `Result` and `Outcome` (a settled call whose value is unused).
- `entries.dfy`: JavaScript objects as ordered lists of unique keys. Covers property access, assignment, object spread (`{...o, ...src}`) and `Object.fromEntries`. Keys are kept in insertion order, which is JavaScript's enumeration order for keys that are not array indices. An existing key keeps its position and takes the later value.
- `project.dfy`: the values flowing through a run, meaning the validated options, the answers, and each collaborator's result.
- `merge.dfy`: the pure expressions of `scaffold`. These are the license default, `contributedTasks`, homepage, verification command, the three badge groups and the next-steps list.
- `scaffolder.dfy`: the run itself. Each collaborator is one response: a value or a rejection. The run is an imperative method that appends every call, with its arguments, to a trace. It stops at the first stage with a rejection.
- `readme.dfy`: the README tree the steps require (`Render`). It holds the title, the description, and three badge zones delimited by html comments. It has Table of Contents, Usage and Contributing sections, and ends with the reference definitions.
- `observers.dfy`: the test's observers and assertions as functions, predicates and one method (`GroupBadges`). Its lemmas prove that a README rendered from the scaffolder's merged badge groups passes each step. They also record the vacuous non-public check at line 211 (see Findings).

## Model

| member | source | states |
|---|---|---|
| Entries.GetAt | test/integration/features/step_definitions/documentation-steps.js:28 | in an object, looking up the key at position `i` finds the value stored at `i` |
| Entries.GetIn | test/integration/features/step_definitions/documentation-steps.js:28 | `o[k]` is `v` exactly when the pair `(k, v)` belongs to the object |
| Entries.AssignSpec | src/scaffolder.js:63-79 | after `o[k] = v`, `k` holds `v` and every other key keeps its value; an existing key keeps the key order, a new (non-index) key is enumerated last |
| Entries.SpreadGet | src/scaffolder.js:63-79 | after `{...o, ...src}`, a key of `src` has `src`'s value, every other key keeps `o`'s |
| Entries.SpreadKeepsPositions | src/scaffolder.js:63-79 | a spread never moves the keys already present: they stay first, in their order |
| Entries.SpreadFresh | src/scaffolder.js:63-79 | spreading an object whose keys are all new (and not array indices) appends it unchanged |
| Entries.SpreadCopies | src/scaffolder.js:68 | `{...o}` is a copy of `o`, order included |
| Entries.SpreadLast | src/scaffolder.js:63-79 | after a spread of any pair list, a key takes the value of the last pair with that key, else keeps its value |
| Entries.LastValueAppend | test/integration/features/step_definitions/documentation-steps.js:169-171 | in `a + b`, a pair of `b` overrides every pair of `a` with the same key |
| Entries.FromEntriesGet | test/integration/features/step_definitions/documentation-steps.js:169-171 | `Object.fromEntries(e)[k]` is the value of the last pair of `e` with key `k` |
| Entries.GetCons | test/integration/features/step_definitions/documentation-steps.js:28 | a lookup in a non-empty object finds the first pair's value when its key matches, else looks in the rest |
| Merge.LanguageLicense | src/scaffolder.js:41 | the language scaffolder's license is the chosen license when one is chosen (non-empty), else `UNLICENSED`; never empty |
| Merge.ContributedTasks | src/scaffolder.js:45 | the language's next steps when the result and its field exist, else no tasks |
| Merge.GitTasks | src/scaffolder.js:94 | the git result's next steps when git ran and returned some, else no tasks |
| Merge.NextSteps | src/scaffolder.js:93-96 | the displayed list is the git tasks, in order, followed by the language's tasks |
| Merge.Homepage | src/scaffolder.js:53 | the homepage is present if and only if the language result, its project details and their homepage all are, and is then that homepage |
| Merge.VerificationCommand | src/scaffolder.js:91 | a command is present if and only if the language result defines a non-empty one, and is then that command |
| Merge.MergeFixedBadge | src/scaffolder.js:63-79 | spreading one fixed badge (or nothing) over a group keeps the group's keys in order, gives the fixed key the fixed badge, keeps every other badge, enumerates a new (non-index) key last |
| Merge.ConsumerGroupMerge | src/scaffolder.js:64-67 | the consumer group is the language's consumer badges, then `license` mapped to the license badge only when the license result has badges; a colliding `license` key keeps its position and takes the license badge |
| Merge.ContributionGroupMerge | src/scaffolder.js:69-78 | the contribution group is the language's contribution badges, then the fixed PRs badge if and only if visibility is exactly `Public`; it has a `PRs` key exactly when the project is public or the language gave one |
| Merge.GroupLiterals | src/scaffolder.js:63-79 | the three groups equal the source's object literals, which first spread the language's group into `{}`; the status group is the language's status badges or empty |
| Merge.MergeFixedGet | src/scaffolder.js:63-79 | reading one key after spreading a fixed badge: the fixed badge under its key when it was added, else the group's badge |
| Merge.ConsumerGroupGet | src/scaffolder.js:64-67 | `consumer[key]` is the license badge under `license` when the license result has badges, else the language's consumer badge |
| Merge.ContributionGroupGet | src/scaffolder.js:69-78 | `contribution[key]` is the PRs badge under `PRs` for a public project, else the language's contribution badge |
| Scaffolder.FirstRejected | src/scaffolder.js:36-43 | the first of a stage's calls that rejects, if any; none exactly when no call of the stage rejects |
| Scaffolder.StageRejects | src/scaffolder.js:36-43 | a stage resolves exactly when none of the calls it makes rejects |
| Scaffolder.InvokedIff | src/scaffolder.js:17-96 | a step is called exactly when every earlier stage resolved and its gate is open |
| Scaffolder.VcsHostGate | src/scaffolder.js:47-55 | the VCS-host scaffolder is called if and only if the run gets that far and git initialization returned a VCS context |
| Scaffolder.GitGate | src/scaffolder.js:84-88 | the git scaffolder is called if and only if the run gets that far and a repository was requested |
| Scaffolder.VerifyGate | src/scaffolder.js:90-91 | the verification command runs if and only if the run gets that far and the language defines a non-empty command |
| Scaffolder.Completes | src/scaffolder.js:17-96 | the results are displayed exactly when no step before the display rejects (a skipped step cannot reject) |
| Scaffolder.AllResolve | src/scaffolder.js:17-96 | every stage resolves exactly when no step rejects, the display of the results included |
| Scaffolder.FailFast | src/scaffolder.js:17-96 | once a called step rejects, no step of a later stage is called |
| Scaffolder.InvocationsOrdered | src/scaffolder.js:17-96 | the calls happen in source order: validate, base prompts, git init, language prompts, license, language, VCS host, README, editorconfig, git, verification, display |
| Scaffolder.ReachesAll | src/scaffolder.js:17-96 | the run gets to a stage exactly when every stage before it resolves |
| Scaffolder.StageResolvesAll | src/scaffolder.js:36-43 | a stage started with `Promise.all` resolves exactly when each of its steps does |
| Scaffolder.Await | src/scaffolder.js:17-96 | awaiting any stage's calls, the display's included, records all of them, goes on if and only if the stage resolves, and otherwise ends the run with a called step that rejected and its cause |
| Scaffolder.Prepare | src/scaffolder.js:16-34 | validation, base prompts, git initialization and language prompts run in order, each with the arguments the source builds (options defaults included); a rejection ends the run |
| Scaffolder.ScaffoldCode | src/scaffolder.js:36-43 | license and language are scaffolded together; the license gets the raw choice and `{year, holder}`, the language gets the license or `UNLICENSED` |
| Scaffolder.ScaffoldVcs | src/scaffolder.js:47-55 | the VCS host is called only with a VCS context, with the homepage and the contributed tasks |
| Scaffolder.ScaffoldDocs | src/scaffolder.js:57-82 | the README gets the name, root, description, the language's documentation and the three merged badge groups; the editorconfig is copied beside it |
| Scaffolder.ScaffoldRepository | src/scaffolder.js:84-88 | git is scaffolded only when requested, with the language's ignore lists and the VCS host's result as origin |
| Scaffolder.VerifyProject | src/scaffolder.js:90-91 | the verification command runs only when the language defines one |
| Scaffolder.Report | src/scaffolder.js:93-96 | the last call displays git's next steps followed by the language's; the run completes if and only if the display resolves, and a throwing display ends it with that step and its cause |
| Scaffolder.Scaffold | src/scaffolder.js:15-97 | the trace records exactly the calls the stages make in order; the run completes exactly when no step rejects, the display included, else ends with a called step that rejected and its cause; every call receives the arguments the source builds |
| Readme.LabelsDistinct | test/integration/features/step_definitions/documentation-steps.js:76-78 | reference labels name their badge: two keys share a link (or image) label only when equal, and a link label is never an image label |
| Readme.MarkersDistinct | test/integration/features/step_definitions/documentation-steps.js:14 | zone markers name their zone, and a start marker is never an end marker |
| Observers.First | test/integration/features/step_definitions/documentation-steps.js:14 | the position of the first occurrence of a node: it holds the node and no earlier position does; none exactly when the node is absent |
| Observers.GroupBadges | test/integration/features/step_definitions/documentation-steps.js:22-32 | succeeds exactly when every group's zone exists, and then maps each group to its zone's badges keyed by label |
| Observers.SectionStart | test/integration/features/step_definitions/documentation-steps.js:97 | the first heading with the title: no earlier node is one; none when no node is |
| Observers.SectionEnd | test/integration/features/step_definitions/documentation-steps.js:97 | a section ends at the next heading at most as deep, or at the end; no such heading lies before it |
| Observers.TrimDefinitions | test/integration/features/step_definitions/documentation-steps.js:97 | ignoring final definitions keeps a prefix of the section that does not end with a definition |
| Observers.ZoneFound | test/integration/features/step_definitions/documentation-steps.js:11-20 | a zone between its markers is found, whatever surrounds it, when no start marker precedes it |
| Observers.BetweenFound | test/integration/features/step_definitions/documentation-steps.js:14 | the nodes between the first start node and the first end node after it are found |
| Observers.ZoneContentBadges | test/integration/features/step_definitions/documentation-steps.js:15 | the badges read from a rendered zone are the group's badge nodes, in order |
| Observers.BadgeNodesLookup | test/integration/features/step_definitions/documentation-steps.js:28 | keyed by label, a group's badge nodes give, for a badge of the group, its node under its link label when linked, else under its image label; a missing key has neither label |
| Observers.DefinitionEntriesAppend | test/integration/features/step_definitions/documentation-steps.js:169-171 | the definitions of two node lists are those of the first then those of the second |
| Observers.BadgeDefinitionsLookup | test/integration/features/step_definitions/documentation-steps.js:64-65 | a group's definitions map the image label of a key to its image, and the link label to its link only when linked |
| Observers.GroupsRendered | test/integration/features/step_definitions/documentation-steps.js:22-32 | in a rendered README, every group's zone exists and holds the group's badge nodes |
| Observers.AllGroupsRendered | test/integration/features/step_definitions/documentation-steps.js:22-32 | `groupBadges` of a rendered README keys every group's badge nodes by label |
| Observers.DefinitionsRendered | test/integration/features/step_definitions/documentation-steps.js:168-172 | the definitions of a rendered README are the badge definitions, group by group |
| Observers.ReferencesRendered | test/integration/features/step_definitions/documentation-steps.js:168-172 | `extractReferences` of a rendered README maps a key's labels to the image and link of its badge in the last group that has it |
| Observers.ContainsBadge | test/integration/features/step_definitions/documentation-steps.js:57-66 | a group and references that hold a badge's node and definitions pass `assertGroupContainsBadge` for its details |
| Observers.ReferencesOnlyIn | test/integration/features/step_definitions/documentation-steps.js:168-172 | the references of a badge only one group has are that badge's image and link |
| Observers.BadgeRendered | test/integration/features/step_definitions/documentation-steps.js:57-66 | round trip: a badge of one group only, once rendered, is recovered from the group and references with its text, link and image |
| Observers.GroupRendered | test/integration/features/step_definitions/documentation-steps.js:74-86 | every expected badge held by one group only passes `assertResultingBadgesInBadgeGroup` on a rendered README |
| Observers.ZoneMarkerRendered | test/integration/features/step_definitions/documentation-steps.js:53-55 | the start marker of every badge zone occurs in a rendered README |
| Observers.CoreDetailsRendered | test/integration/features/step_definitions/documentation-steps.js:187-195 | a rendered README passes the core-details step: title, description, three zones |
| Observers.BadgeAbsent | test/integration/features/step_definitions/documentation-steps.js:68-72 | a key no group has shows no badge and defines neither of its labels |
| Observers.ReferencesAbsent | test/integration/features/step_definitions/documentation-steps.js:168-172 | a key no group has leaves no definition under its link or image label |
| Observers.NoUndefinedLabel | test/integration/features/step_definitions/documentation-steps.js:68-72 | no badge node and no badge definition carries the label `undefined` |
| Observers.UndefinedUnreferenced | test/integration/features/step_definitions/documentation-steps.js:68-72 | a rendered README defines no reference labelled `undefined` |
| Observers.PrsDetailsOfBadge | test/integration/features/step_definitions/documentation-steps.js:202-208 | the details the visibility step expects are those derived from the PRs badge the scaffolder adds |
| Observers.VisibilityFrom | test/integration/features/step_definitions/documentation-steps.js:197-212 | the visibility step holds when all zones exist and the contribution group contains (public) or lacks (otherwise) the badge |
| Observers.VisibilityCheckAsWrittenVacuous | test/integration/features/step_definitions/documentation-steps.js:211 | as written, the non-public check accepts every rendered README, whatever its badges |
| Observers.VisibilityCheckCatchesPrs | test/integration/features/step_definitions/documentation-steps.js:211 | the intended non-public check rejects a README whose contribution group has a PRs badge |
| Observers.MergedKeeps | src/scaffolder.js:63-79 | a language badge not overridden by the license or PRs badge reaches the README request unchanged |
| Observers.PrsOnlyInContribution | src/scaffolder.js:71-77 | in a public project's groups, `PRs` is the fixed PRs badge and lives only in the contribution group |
| Observers.PrsNowhere | src/scaffolder.js:71 | without a language badge under `PRs`, a non-public project's groups have no `PRs` key |
| Observers.ContributionBadgeRendered | test/integration/features/step_definitions/documentation-steps.js:57-66 | a linked badge of the contribution group is recovered from its zone and the references whatever the other groups hold under its key, since the contribution definitions come last |
| Observers.PublicReadmeRendered | test/integration/features/step_definitions/documentation-steps.js:197-210 | the README rendered for a public project passes the visibility step, whatever badges the language gives: the PRs badge is found with its text, link and image |
| Observers.PrivateReadmeRendered | test/integration/features/step_definitions/documentation-steps.js:211 | given that the language puts no badge under `PRs` in any group, the README rendered for a non-public project lacks the PRs badge's labels in the group and the references |
| Observers.LanguageShown | test/integration/features/step_definitions/documentation-steps.js:220-222 | every badge the language gives group `g` is recovered from `g`'s zone and the references |
| Observers.LanguageDetailsRendered | test/integration/features/step_definitions/documentation-steps.js:214-223 | a README rendered from the merged groups passes 'the README includes the language details' |
| Observers.SectionStartIs | test/integration/features/step_definitions/documentation-steps.js:97 | a section starts at the first heading with its title |
| Observers.SectionEndIs | test/integration/features/step_definitions/documentation-steps.js:97 | a section ends at the first heading at most as deep after it, or at the end |
| Observers.TrimDefinitionsIs | test/integration/features/step_definitions/documentation-steps.js:97 | trimming the final definitions leaves what comes before them |
| Observers.SectionAt | test/integration/features/step_definitions/documentation-steps.js:97 | the range of a level-2 section is its content, up to the next section heading or, past that, to definitions only |
| Observers.SectionFound | test/integration/features/step_definitions/documentation-steps.js:97-98 | a level-2 section is found whatever precedes it, and its heading occurs |
| Observers.TocRendered | test/integration/features/step_definitions/documentation-steps.js:119-132 | the Table of Contents section of a rendered README exists and holds only its text (no zone) |
| Observers.UsageRendered | test/integration/features/step_definitions/documentation-steps.js:134-149 | the Usage section of a rendered README holds the consumer zone and its text |
| Observers.ContributingRendered | test/integration/features/step_definitions/documentation-steps.js:151-166 | the Contributing section holds the contribution zone and its text, without the final definitions |
| Observers.ZonedSectionChecked | test/integration/features/step_definitions/documentation-steps.js:88-117 | a section made of a group's zone and its text passes `assertSectionContentIsCorrect` |
| Observers.LanguageZoneShown | test/integration/features/step_definitions/documentation-steps.js:100-108 | the language's badges of a group pass the section's badge check against that group's rendered zone |
| Observers.BadgeSectionRendered | test/integration/features/step_definitions/documentation-steps.js:134-166 | the Usage and Contributing sections of a rendered README pass their steps |
| Observers.LanguageContentRendered | test/integration/features/step_definitions/documentation-steps.js:225-233 | a README rendered from the merged groups and the language's documentation passes 'the language content is included in the README' |

## Left out

- I/O: the working directory (a parameter), the editorconfig copy (its destination is recorded, its outcome is a response), the `info` log, the process running the verification command (its outcome is a response), and reading README.md in the steps.
- The collaborators (`validate`, the prompts, `initializeGit`, `scaffoldLicense`, `scaffoldLanguage`, `scaffoldVcsHost`, `scaffoldReadme`, `scaffoldGit`, `displayResults`) are not part of this model. Each is one response, a value or a rejection, fixed for the run; for the editorconfig copy, the verification command and `displayResults` the response is only an outcome, pass or fail. The options validator's schema is not modelled either; the model only substitutes empty defaults for missing `languages`, `overrides` and `vcsHosts`.
- `Promise.all`: both calls of a stage are recorded and the run stops if either rejects. Timing is not modelled. When both reject, the model reports the first in source order, whereas the source reports whichever rejects first in time.
- Scaffolder.Scaffold: each collaborator is one fixed response for the run. A collaborator is called at most once per run, with arguments fixed by earlier responses, so this covers every run. What a collaborator does with its arguments is not modelled.
- The README scaffolder (`src/readme`) is not part of this model. `Readme.Render` is the README shape the steps require, not markdown text. Parsing and serialisation are not modelled.
- Observers.SectionStart: `mdast-util-heading-range` matches the title case-insensitively against the heading's whole text. The model requires a heading whose only child is the exact title text.
- Observers.FindZone: `mdast-zone` also finds zones nested below the top level and tolerates whitespace in the markers. The model reads only the top-level siblings and the exact marker text.
- Observers.Occurs: `unist-util-find`'s partial match is modelled for the three patterns the steps use. These are an html value, a heading with a child of that value, and a paragraph containing that text.
- Observers.LanguageDetailsRendered: assumes that no badge key appears in two groups (`Disjoint`) and that the license and PRs badges do not override a language badge. Otherwise the references found could belong to another badge, and the step could fail on a correct README.
- Observers.LanguageContentRendered: assumes the same two things, and also that the project is not named like a section (`NotSectionTitle`), since otherwise the first heading found could be the title rather than the section.
- Observers.TocRendered: the Table of Contents section has no badge zone, as the steps require. The status zone sits between the description and the Table of Contents.
- Merge.ConsumerGroupMerge: the license result's badges are assumed to carry a consumer badge. When `license.badges` exists without one, the source spreads `{license: undefined}`, a key whose value is `undefined`; the README scaffolder's handling of an undefined badge is not part of this model.
- Entries.AssignSpec, Entries.SpreadFresh, Merge.MergeFixedBadge: keys are assumed not to be array indices. JavaScript enumerates index-like keys (`"0"`, `"42"`) before all others, in ascending numeric order, so for such badge keys the order stated here would differ. The keys the scaffolder adds itself (`license`, `PRs`) are not index-like.
- Exceptions in the steps (reading a property of `undefined`) make a predicate false, or make an observer return `None`.

## Findings

| source | as written | input that shows it | evidently intended | confidence | as-written member | corrected member |
|---|---|---|---|---|---|---|
| test/integration/features/step_definitions/documentation-steps.js:211 | the non-public branch passes the string `'PRs-link'` where `assertGroupDoesNotContainBadge` expects a details object. Destructuring a string gives `label` and `imageReferenceLabel` both `undefined`, so the check only asks that nothing is labelled `undefined` | any non-public project whose contribution group has a `PRs` badge (e.g. one the language contributes): the check still passes | the check looks up `PRs-link` and `PRs-badge`, so a non-public README showing the PRs badge fails | not executed | Observers.VisibilityCheckAsWrittenVacuous | Observers.VisibilityCheckCatchesPrs |
