# next-cli command composition, in Dafny

next-cli is an interactive scaffolder for Next.js projects. It asks for a
package manager, a project name and a set of features. It then builds one
`create-next-app` command line and runs it through the shell. Afterwards it
can install optional packages, with a second, dev-dependency install for the
packages that bring a companion (type declarations or a CLI).

This project models the pure part of that flow, all of it in `root.py`:

- the project-name validator and the name default;
- the feature menu, its default ticks and the mapping from ticked entries to
  generator flags;
- the scaffolding command template of each package manager;
- the install prefix of each manager;
- the package table;
- the split of the selected packages into a regular list and a dev list, and
  the one or two install commands built from them.

A command line is judged by the words it splits into. `Text.Words` models
Python's `str.split()`: the pieces between runs of whitespace. The command
builders' contracts say which words each command consists of. This gives
every builder an independent partner: the list of words it must produce.
For the space and the tab this is also where `sh` splits arguments. The
other differences from the shell are listed under "## Left out".

Modules:

- `Text` (text.dfy): substring containment (`in`), `split()`, `" ".join`, and
  lemmas relating them.
- `MenuLabels` (menu_labels.dfy): containment facts about the literal menu
  entries.
- `Features` (features.dfy): the feature menu and the flag mapper.
- `CreateCommand` (create.dfy): `build_create_command`.
- `Packages` (packages.dfy): `create_package_command`, the package table and
  the install step of `install_additional_packages`.
- `AppName` (appname.dfy): `is_valid_app_name` and the default name of
  `get_app_name`.
- `Wizard` (wizard.dfy): one pass of `main` from the answers to the command
  line.

## Model

| member | source | states |
|---|---|---|
| Features.MapFlags | root.py:73-90 | One flag per feature, in flag-table order. Flag i is the positive flag exactly when some selected entry contains label i. Otherwise it is the disable flag `--no-<name>`. |
| Features.NegatedFlag | root.py:88-89 | The disable flag built from any flag with a word is a single word that starts with `--no-`. Its partner `Features.NegatedFlagsAgree` proves it agrees with the written-out table of disable flags. |
| Features.NegatedFlagsAgree | root.py:88-89 | Taking the first word of a positive flag and replacing its leading `--` with `--no-` gives exactly the table of disable flags. No flag is empty, so the split never fails. |
| Features.ImportAliasAsymmetry | root.py:80-89 | When enabled, the import-alias flag carries its quoted `"@/*"` argument. When disabled, it is the bare `--no-import-alias`. |
| Features.LabelsMatchOwnEntryOnly | root.py:46-53 | Label i of the flag table occurs in menu entry j exactly when i = j. A ticked entry therefore enables its own feature and nothing else. |
| Features.TickedFlags | root.py:71-90 | Ticking the entries at any set of indices enables exactly the features at those indices and disables all the others. |
| Features.DefaultFlags | root.py:63 | The default ticks 0, 1, 3, 4 give `--typescript --eslint --no-src-dir --app --tailwind --no-import-alias`. |
| Features.MoreSelectedKeepsEnabled | root.py:84-86 | Selecting a superset of entries never turns an enabled feature off. |
| CreateCommand.UnknownManagerUsesBun | root.py:99-100 | For an unknown manager, the command is exactly the bun command: `bunx create-next-app` with `--use-bun`. |
| CreateCommand.BuildCreateCommand | root.py:92-102 | The command starts with the manager's launcher words joined by spaces, the project name, the manager flag `--use-<manager>` and a space. It ends with the flags joined by single spaces. Its partner `CreateCommand.CreateCommandWords` states the words the whole command splits into. |
| CreateCommand.CreateCommandWords | root.py:92-102 | For any project name, the command splits into the manager's launcher words, then the words of the name, then `--use-<manager>`, then every word of every flag in order. A name with whitespace in it therefore comes apart into several words. |
| CreateCommand.OneWordNameCommandWords | root.py:92-102 | A name that is one word reaches the generator as exactly one word, right after the launcher and before the manager flag. |
| CreateCommand.NpmExample | root.py:92-102 | For the name `my-app`, npm and `--typescript`, the command is `npx create-next-app@latest my-app --use-npm --typescript`. |
| Packages.CreatePackageCommand | root.py:114-133 | The prefix starts with the manager's install words (`npm install`, `yarn add`, `pnpm add`, else `bun add`) joined by a space, then a space. What follows is exactly the dev flag for a dev install and nothing otherwise. Its partners are `Packages.PackageCommandWords` (the words) and `Packages.DevInstallAddsFlag` (dev against regular). |
| Packages.PackageCommandWords | root.py:114-133 | Split into words, the install prefix is the manager's install invocation (`npm install`, `yarn add`, `pnpm add`, else `bun add`). The dev flag follows only for a dev install under a manager that has one. |
| Packages.DevInstallAddsFlag | root.py:114-133 | The dev prefix is the regular prefix with the dev flag appended. The dev flag is empty exactly for a manager outside npm, yarn, pnpm and bun. |
| Packages.UnknownManagerDropsDevFlag | root.py:115-133 | An unknown manager installs both regular and dev packages with a flagless `bun add `. bun itself gets `bun add -d` for dev packages. |
| Packages.CatalogCompanions | root.py:136-193 | Of the 14 packages, only bcrypt, react-google-recaptcha-v3 and @prisma/client (indices 5, 8, 13) have a companion. |
| Packages.BcryptCompanion | root.py:157-160 | The companion of bcrypt is `@types/bcrypt`. |
| Packages.Position | root.py:211-212 | A dictionary lookup lands on the first entry with the name. If there is none, the result is past the end of the table. |
| Packages.Companion | root.py:211-212 | The lookup returns the companion of the first entry with the name, and nothing for a name the table lacks. A companion that is returned belongs to an entry with that name. |
| Packages.PartitionSelected | root.py:206-212 | The loop builds the regular list (every selected package with `@latest`, in order) and the dev list (the companions with `@latest`, skipping an empty companion as Python's truth test does). The dev list is never longer than the regular list. |
| Packages.RegularList | root.py:208-210 | One entry per selected package, in selection order: the package name with `@latest`. Its partner `Packages.PartitionSelected` builds the same list with the loop of the source. |
| Packages.DevList | root.py:208-212 | Never longer than the selection. Its partners are `Packages.DevListAppend` (order kept), `Packages.DevListEmpty` (empty exactly when no package has a companion) and `Packages.DevEntryOrigin` (every entry is a companion of a selected package). |
| Packages.DevListAppend | root.py:209-212 | The dev list of a concatenation is the concatenation of the dev lists, so selection order is kept. |
| Packages.DevListEmpty | root.py:211-212 | The dev list is empty exactly when no selected package has a non-empty companion. |
| Packages.DevEntryOrigin | root.py:211-212 | Every dev entry is the `@latest` companion of some selected package. |
| Packages.InstallCommandWords | root.py:217-221 | An install command splits into the prefix words, then the packages exactly as listed. |
| Packages.InstallCommands | root.py:205-222 | An empty selection gives no command. Otherwise the regular install comes first, and a second, dev install follows exactly when some selected package has a companion. Each command's words are stated. |
| Packages.BcryptRegularWithNpm | root.py:217 | The regular npm install of bcrypt is `npm install  bcrypt@latest`, with two spaces after `install` because the dev flag is empty. |
| Text.WordsOfJoin | root.py:102 | Splitting `" ".join(xs)` yields the words of each piece, in order. |
| Text.JoinSplitRoundTrip | root.py:217-221 | Single words joined with spaces split back into the same sequence. |
| AppName.NameOrDefault | root.py:41 | An empty answer becomes `my-next-app`. A non-empty answer is kept as is. The name is never empty. Its partner `AppName.DefaultNameAccepted` shows that the default passes both validators. |
| AppName.CheckAppName | root.py:20-30 | As written: the name is accepted exactly when it has no space character, no uppercase letter and no existing path. The space check comes first, then uppercase, then the file system. |
| AppName.MalformedNamesIgnoreFileSystem | root.py:21-27 | A name with a space or an uppercase letter is rejected with the same verdict whatever exists on disk. The file system is consulted last. |
| AppName.TabbedNameAccepted | root.py:21-24 | `my<TAB>app` passes the validator as written. The whitespace-rejecting validator refuses it. |
| AppName.CheckAppNameStrict | root.py:20-30 | Corrected validator: accepted exactly when the name has no whitespace at all, no uppercase letter and no existing path. |
| AppName.StrictAgreesOnSpaces | root.py:21-23 | On names whose only whitespace is the space character, the corrected validator and the one as written agree. |
| AppName.StrictAcceptsWords | root.py:41-42 | A name the corrected validator accepts, after the default is applied, is a single `str.split()` word. |
| AppName.DefaultNameAccepted | root.py:41-42 | The default name passes both validators when nothing of that name exists. |
| Wizard.ProjectCommand | root.py:231-237 | One pass of `main` as written gives a rejection exactly when `is_valid_app_name` refuses the defaulted name, and the rejection carries that verdict. Otherwise it gives a command that starts with the template filled with that name, and that splits into the launcher words, the words of the name, the manager flag and the words of the mapped feature flags. |
| Wizard.ProjectCommandStrict | root.py:231-237 | The same pass with the corrected validator: a rejection exactly when that validator refuses the name, with its verdict. A command splits into words in the same way as for the pass as written. |
| Wizard.StrictPassAgreesOnSpaces | root.py:21-23 | For answers whose only whitespace is the space character, the corrected pass and the pass as written give the same outcome. |
| Wizard.ProjectNameIsOneArgument | root.py:234-237 | When the corrected pass builds a command, the name is exactly one `str.split()` word, after the launcher words. The manager flag and the words of the mapped feature flags follow. |
| Wizard.TabbedNameSplitsCommand | root.py:20-30 | As written, `my<TAB>app` is accepted, and the npm command comes apart at the tab into `npx create-next-app@latest my app --use-npm`. This is an instance of `CreateCommand.CreateCommandWords`. |
| Wizard.TabbedAnswerReachesCommand | root.py:21-42 | When nothing named `my<TAB>app` exists, the pass as written builds a command for that answer, and the corrected pass rejects it with the space verdict. |

## Left out

- `run_command`: running the command, its timing, and the
  `CalledProcessError` branch. The model stops at the command string and its
  `str.split()` words.
- The shell's own reading of the command line. `sh` splits words only at the
  space and the tab. A newline ends the command. CR, VT, FF and 0x1C–0x1F
  are ordinary characters to `sh`, but `str.split()` splits at them. Quotes,
  `;`, `$`, globs and the other metacharacters are not interpreted. So these
  lemmas state `str.split()` words, not the arguments `sh` passes on:
  CreateCommand.CreateCommandWords, CreateCommand.OneWordNameCommandWords,
  Packages.PackageCommandWords, Packages.InstallCommandWords,
  Packages.InstallCommands, AppName.StrictAcceptsWords,
  Wizard.ProjectCommand, Wizard.ProjectCommandStrict and
  Wizard.ProjectNameIsOneArgument. For
  example, a name like `my;rm` is one word here but two commands to `sh`.
  The import-alias argument `"@/*"` is shown with its quotes.
- The `beaupy` prompts (`prompt`, `select`, `select_multiple`, `confirm`). Their
  answers are parameters. `select_multiple` returns the ticked entries in an
  order the model does not assume: `Features.Ticked` and
  `Packages.PartitionSelected` take any sequence.
- All console output: the banners and the rejection messages. The message is
  represented by the `AppName.Verdict` value.
- The feature and package descriptions: they are only printed.
- `get_app_name`'s retry loop: `Wizard.ProjectCommand` models one pass, and a
  rejection is what makes the loop ask again. `main` asks for the manager
  before the name, and that order does not affect the result.
- `get_package_manager`: the manager is any string, so the model also covers
  values outside the four offered.
- `perform_post_install_action` and `main`'s two confirmations: they pick
  between side effects.
- `os.path.exists`: it becomes the parameter `pathExists`.
- Character classes: `str.isupper` is taken as ASCII `A`–`Z`, and
  `str.split()` whitespace as ASCII whitespace. Other Unicode uppercase
  letters and Unicode spaces are not modelled.
- Packages.PartitionSelected: requires every selected name to be in the table.
  Python would raise `KeyError` for an unlisted name, and the menu offers
  only listed names.
- Packages.InstallCommands: has the same requirement, for the same reason.

## Findings

| source | as written | input that shows it | evidently intended | confidence | as-written member | corrected member |
|---|---|---|---|---|---|---|
| root.py:21 | Only the space character is rejected, so a tab or another whitespace character passes the name check. | `my<TAB>app` with nothing on disk: accepted, and the command line comes apart at the tab into `my` and `app`. | Reject every whitespace character. The name fills the single project-directory slot of the template (root.py:94-100) and is later used as one directory (root.py:226). The space check exists to keep it one word. | medium, not executed | Wizard.TabbedNameSplitsCommand | AppName.CheckAppNameStrict |

`Wizard.ProjectCommand` and `AppName.CheckAppName` keep the code as written.
`Wizard.TabbedAnswerReachesCommand` shows that `main` as written builds a
command for `my<TAB>app`. `Wizard.ProjectCommandStrict` uses the corrected
validator, and `Wizard.ProjectNameIsOneArgument` proves the intended property
for it. `Wizard.StrictPassAgreesOnSpaces` shows that the correction changes
nothing for answers without other whitespace.

A related observation: the regular install prefix ends in a space followed
by an empty dev flag. So the regular install command carries two spaces after
the install verb, e.g. `npm install  bcrypt@latest`
(`Packages.BcryptRegularWithNpm`). Splitting into words ignores the extra
space, as the word-level contract of `Packages.InstallCommands` shows.
