# git-init in Dafny

A model of `git-init`, a small command-line script in two variants: `index.ts`
(current) and `index.js` (older). The script reads repository URLs from a list
file. For each URL it clones the repository into a target directory if the
repository is absent, and pulls it if it is present. A failure in one
repository never stops the others. The TypeScript variant also keeps the last
arguments in a per-user settings file, `~/.git_init_settings`.

The model is made of pure functions over an abstract environment (`Workflow.Env`):

- the command-line arguments;
- the user name `whoami` reports, or None when it fails;
- the operating-system family, as a boolean;
- a map of readable files;
- a set of paths that exist;
- a set of paths that can be written;
- the set of external commands that succeed.

A run (`IndexTs.Main`, `IndexJs.Main`) produces its settings writes, its log
lines and commands, and one report per URL. Each report keeps the exception the
script's empty `catch` swallows.

On POSIX, `index.ts` expands `~` to `Users/<user>/`, with no leading slash
(see Findings). `IndexTs.Main` and every path check of `index.ts` therefore take
a `TsPaths.HomeStyle`: `AsWritten` is the script as it stands, `Corrected` uses
`/Users/<user>/` like the settings path and `index.js`. Every lemma about the
TypeScript run holds for both styles; `IndexTs.MainAsWrittenChecksRelativePaths`
and `IndexTs.MainCorrectedChecksHome` show one run on which they differ.

Modules:

- `JsString`: `lastIndexOf`, `substring` (clamping and swapping), `indexOf`/`replace` with a string pattern, `split`, `join`.
- `Lines`: `split('\n').filter(f => f)`, used for the URL list and for the settings file.
- `RepoName`: `getRepoName`, which is the same in both variants.
- `Workflow`: the per-URL clone-or-pull block, the `Promise.all` fan-out, and the environment and run result types.
- `TsSettings`: `saveSettings`, `parseArgs` and the destructuring defaults of `index.ts`.
- `TsPaths`: `~` expansion, the display form of paths, and the clone and pull commands of `index.ts`.
- `IndexTs`, `IndexJs`: the main function of each variant.
- `Variants`: how the two variants' existence checks relate.

Behaviour of the code that a reader of the help text would not expect, all of it modelled as the code does it:

- `~` expansion happens when the path contains `~` anywhere, not only at the start. The expansion always drops the first two characters, whatever they are.
- A readable settings file with at least as many lines as arguments, but a different first line, IS overwritten.
- A readable settings file with fewer lines than arguments is left as it is. This is the case even when the arguments differ.
- The settings file lives under `/Users/<user>/` on every POSIX system. Where that directory does not exist, writing it fails and the run ends before the list is read.
- The `.` exemption from `mkdir -p` exists only in `index.ts`. `index.js` checks `/Users/<user>/<path>` and creates the directory whenever that check fails.
- On Windows, commands join the target and the name with `\` while the existence check joins them with `/`.

## Model

| member | source | states |
|---|---|---|
| JsString.LastIndexOf | index.ts:91-92 | the result is -1 exactly when the character is absent; otherwise it is a position holding the character, with no occurrence after it |
| JsString.Substring | index.ts:93 | indices in range select that slice; out-of-order indices select the same slice as in-order ones; the result is never longer than the string |
| JsString.SubstringSymmetric | index.ts:93 | `substring(a, b)` equals `substring(b, a)` for all integers |
| JsString.SubstringNegativeIsZero | index.ts:93 | a negative start (`lastIndexOf` returning -1) behaves exactly like 0 |
| JsString.ReplaceFirst | index.ts:74 | a string in which the pattern does not occur is returned unchanged |
| JsString.ReplaceFirstAt | index.ts:101 | when the first occurrence of the pattern is at `i`, only that occurrence is replaced |
| JsString.SplitJoin | index.ts:35 | joining the pieces of a split with the separator gives back the original text |
| JsString.JoinSplit | index.ts:45 | splitting a join of separator-free pieces gives back the pieces |
| JsString.SplitConcat | index.js:38 | the pieces of `a + sep + b` are the pieces of `a` followed by the pieces of `b` |
| Lines.ParseLines | index.ts:66 | every parsed line is non-empty and newline-free; a string is a parsed line exactly when it is a non-empty piece of the split |
| Lines.ParseSingleLine | index.js:38 | text without a newline is one line kept verbatim (no trimming), or no line if it is empty |
| Lines.ParseLinesConcat | index.ts:35 | parsing preserves order: the lines of `a + "\n" + b` are the lines of `a` followed by those of `b` |
| Lines.ParseJoin | index.ts:45 | values that are non-empty and newline-free, written joined by newlines, parse back to exactly those values |
| Lines.ParseJoinParse | index.ts:35 | rewriting parsed lines and parsing them again changes nothing |
| RepoName.GetRepoName | index.ts:90-94 | the name is never longer than the URL, and contains no `/` when the last `.` follows the last `/` |
| RepoName.NameBetweenSlashAndDot | index.ts:90-94 | for `<prefix>/<name>.<ext>` with no `/` in name or ext and no `.` in ext, the result is exactly `<name>` |
| RepoName.NameWithoutSlash | index.js:59-63 | for `<name>.<ext>` without any `/`, the result is everything before the last `.` |
| RepoName.NameWithoutSlashOrDot | index.ts:90-94 | a URL with neither `/` nor `.` yields the empty name |
| RepoName.NameWithoutDot | index.js:59-63 | with a `/` but no `.`, the bounds are swapped and the name is the prefix up to and including the last `/` |
| RepoName.NameDotBeforeSlash | index.ts:90-94 | when the last `.` precedes the last `/`, the name runs from that `.` through that `/` |
| Workflow.CloneIfNotExists | index.ts:96-107 | an existing checked path: no event and normal completion; an absent one: the clone is announced and run, then the step throws the success signal if the clone succeeds and the clone's failure otherwise |
| Workflow.PullIfExists | index.ts:109-115 | the step runs exactly the pull, and completes normally exactly when the pull succeeds |
| Workflow.SyncRepo | index.ts:130-138 | one URL runs exactly one git command: the pull if the checked path exists, else the clone; the report records a successful clone or pull, or the failing command, exactly per the oracle |
| Workflow.CloneExcludesPull | index.ts:105 | a clone is never followed by a pull, and exactly one of the two runs |
| Workflow.SyncAll | index.ts:130-140 | every URL settles with one report, in order; each report is the URL's own clone-or-pull outcome |
| Workflow.FailureIsContained | index.ts:132-138 | a repository's report is the same whatever the other repositories' commands do |
| Workflow.OrderIndependent | index.js:91-101 | reordering, dropping or duplicating URLs reorders, drops or duplicates their reports and changes nothing else |
| Workflow.SecondRunOnlyPulls | index.ts:100-106 | after a run whose clones succeeded, a second run against the resulting file system pulls every repository and clones none |
| TsSettings.SaveSettings | index.ts:31-50 | stored lines are returned exactly when the file is readable and there are no arguments, and then nothing is written; a missing file is always written; the only contents ever written are the joined arguments, or `./my.list\n.` when there are none |
| TsSettings.FewerStoredLinesNoWrite | index.ts:37 | a readable file with fewer lines than arguments: nothing is returned and nothing is written |
| TsSettings.WriteIffSomePositionDiffers | index.ts:39-45 | otherwise the arguments are written exactly when some argument differs from the stored line at its position; extra stored lines are ignored |
| TsSettings.SecondCallWritesNothing | index.ts:35-45 | for non-empty newline-free arguments, a second call right after any first call writes nothing |
| TsSettings.ArgumentsPersisted | index.ts:39-48 | unless the readable file is shorter than the arguments, the settings file ends up starting with the arguments |
| TsSettings.ParseArgs | index.ts:52-57 | `-h` anywhere yields help; otherwise the write is the one `saveSettings` performs, and the arguments differ from the raw ones only when there are none and the file holds stored lines |
| Workflow.Destructure | index.ts:127 | element 0 is the source and element 1 the target; a default replaces only a missing element, never an empty one |
| TsSettings.EffectiveArguments | index.ts:55-56 | the stored lines are used exactly when there are no arguments and the file holds at least one line; otherwise the raw arguments are used |
| TsSettings.DefaultsAreStable | index.ts:47 | the defaults written on a first run parse to `./my.list`, `.`, so a second run without arguments gets the same configuration |
| TsSettings.SettingsExamples | index.ts:31-50 | a first run writes the two arguments; an identical second run writes nothing; a different single argument overwrites |
| TsPaths.ExpandWith | index.ts:71 | a path without `~` is unchanged; a path with `~` anywhere becomes the home prefix followed by the path minus its first two characters (all of a one-character path) |
| TsPaths.ExpandHomeRelative | index.ts:71 | `~/<rest>` expands to the home prefix followed by `<rest>` |
| TsPaths.ExpandBareTilde | index.ts:71 | `~` alone expands to the home prefix |
| TsPaths.ExpandTildeNotAtStart | index.ts:71 | a `~` after the first two characters still expands, and those two characters are dropped whatever they are |
| TsPaths.DisplayCurrentDirectory | index.ts:73-74 | `.` is displayed as `current directory` |
| TsPaths.DisplayOutsideHome | index.ts:110-111 | a path that cannot contain `/Users/<user>` is displayed verbatim |
| TsPaths.DisplayInsideHome | index.ts:98-101 | `/Users/<user>/<rest>` is displayed as `~/<rest>` |
| TsPaths.DisplayRoundTrip | index.ts:99-101 | with the corrected prefix, expanding the displayed form of a path inside the home directory gives back the path (POSIX) |
| TsPaths.DisplayRoundTripFailsAsWritten | index.ts:97-101 | with the prefix as written, that round trip drops the leading `/` for every path inside the home directory |
| TsPaths.CloneCommand | index.ts:103-104 | the clone command clones the given URL into the raw, unexpanded target, the platform separator (`\` on Windows, `/` elsewhere) and the name |
| TsPaths.PullCommand | index.ts:113-114 | the pull command runs in the raw, unexpanded target, the platform separator and the name |
| TsPaths.CloneAndPullShareDirectory | index.ts:104-114 | clone and pull of one repository address the same directory |
| TsPaths.RepoCheckPathHomeRelative | index.ts:97-100 | a repository under `~/<rest>` is checked at the home prefix of the chosen style, `<rest>`, `/` and the name |
| TsPaths.CloneCreatesCheckedPath | index.ts:100-104 | on POSIX, for a target without `~`, the clone writes exactly the path the existence check looks at |
| TsPaths.CloneMissesCheckedPathOnWindows | index.ts:100-104 | on Windows, for a target without `~`, the clone's directory is never the path the existence check looks at |
| IndexTs.CreateGitDir | index.ts:69-78 | for either home style: a log line appears exactly when the expanded target is missing; `mkdir -p` on the raw target runs exactly then, unless the target is `.` |
| IndexTs.SuggestAction | index.ts:117-123 | no suggestion exactly for `.`; otherwise `cd` followed by the target in its display form |
| IndexTs.SuggestInsideHome | index.ts:121-122 | a target `/Users/<user>/<rest>` is suggested as `cd ~/<rest>` |
| IndexTs.SuggestOutsideHome | index.ts:121-122 | a target that cannot mention `/Users/<user>` is suggested verbatim |
| IndexTs.Main | index.ts:125-142 | the user lookup comes first and help second, neither writing; at most one write, always to the settings file and only when it can be written; every URL gets a report; a suggestion exactly when the target is not `.` |
| IndexTs.MainSettingsWriteFailure | index.ts:45-48 | the run stops on the settings write exactly when `saveSettings` decides to write and the path cannot be written; with no settings file and an unwritable path, every run stops there, before the list is read |
| IndexTs.MainReachesCreateGitDir | index.ts:126-129 | a run past `-h`, a successful settings write and a readable list either finishes or stops on `mkdir -p` |
| IndexTs.MainConfiguration | index.ts:127-129 | unless the settings write fails, the run's write is the reconciliation's; a finished run's configuration comes from the stored lines or the raw arguments with defaults, its setup is `createGitDir` on that target, and its URLs are the parsed list, read after the settings write |
| IndexTs.MainOneCommandPerUrl | index.ts:130-140 | for either home style, every URL gets exactly one clone if `<expanded target>/<name>` is absent, else exactly one pull |
| IndexTs.MainCommandOf | index.ts:130-134 | the same for one URL, picked by its index |
| IndexTs.MainFinishesDespiteRepoFailures | index.ts:132-140 | whether a run finishes does not depend on any git command's outcome |
| IndexTs.MainMakeDirFailure | index.ts:70-76 | for either home style, once `createGitDir` is reached, the run stops exactly when the expanded target is missing, the target is not `.`, and `mkdir -p` fails |
| IndexTs.MainAsWrittenChecksRelativePaths | index.ts:70-72 | as written, on POSIX with target `~/git` and a working directory holding `Users/u/git/foo`, a run creates no directory and pulls `foo` |
| IndexTs.MainCorrectedChecksHome | index.ts:97-104 | with the corrected prefix, the same run creates `~/git` and clones `foo` |
| IndexJs.ParseArgs | index.js:25-29 | help exactly when `-h` is present; otherwise the raw arguments unchanged |
| IndexJs.StripTilde | index.js:42 | a path without `~` is kept; a path with `~` anywhere loses its first two characters (`~` alone becomes empty) |
| IndexJs.GitDirCheckPath | index.js:42-43 | the target is checked at `/Users/<user>/` followed by the target, minus its first two characters when it contains `~`; this holds even for an absolute target |
| IndexJs.RepoCheckPath | index.js:66-67 | a target with `~` is checked at `/Users/<user>/`, the target minus its first two characters, `/` and the name; otherwise at `<target>/<name>` |
| IndexJs.CheckPathsHomeRelative | index.js:41-43 | the default `~/git` is checked at `/Users/<user>/git`; `~/<rest>` at `/Users/<user>/<rest>`, and a repository in it at `/Users/<user>/<rest>/<name>` |
| IndexJs.GitDirCheckOutsideHome | index.js:42-43 | `.` is checked at `/Users/<user>/.` and `/tmp/x` at `/Users/<user>//tmp/x` |
| IndexJs.RepoCheckTildeNotAtStart | index.js:66-67 | `/a~b` still expands: its repositories are checked under `/Users/<user>/~b/` |
| IndexJs.CreateGitDir | index.js:41-47 | `mkdir -p` runs exactly when the home-relative check fails, with no exemption for `.` |
| IndexJs.Main | index.js:86-103 | nothing is written; `-h` wins over every failure; the list is read before the user is looked up; a finished run uses the raw arguments, with `./my.list` for a missing source and `~/git` for a missing target, and always suggests `cd <target>` |
| IndexJs.MainOneCommandPerUrl | index.js:91-101 | the URLs are the parsed list; each gets exactly one `git clone <url> <target>/<name>` if its checked path is absent, else exactly one `git -C <target>/<name> pull` |
| IndexJs.MainMakeDir | index.js:42-46 | `mkdir -p` is in the setup exactly when the check fails, and the run stops exactly when that command fails |
| IndexJs.MainFinishesDespiteRepoFailures | index.js:93-99 | whether a run finishes does not depend on any git command's outcome |
| Variants.RepoCheckPathsAgree | index.js:66 | with the corrected prefix, both variants check a repository at the same path on POSIX |
| Variants.RepoCheckPathsDifferAsWritten | index.ts:97-100 | with the prefix as written, the variants never agree on a `~` target |

## Findings

| source | as written | input that shows it | evidently intended | confidence | as-written member | corrected member |
|---|---|---|---|---|---|---|
| index.ts:70 | On POSIX the home prefix is `Users/<user>/`, with no leading `/`. It is used for `~` expansion in `createGitDir`. An expanded path is therefore relative to the working directory. | user `u`, target `~/git`, run from any directory other than `/`: the check looks at `./Users/u/git` rather than `/Users/u/git`. Displaying `/Users/u/git` gives `~/git`, which then expands to `Users/u/git`. | `/Users/<user>/`, as in the settings path at index.ts:32 and in index.js:66 | high (not executed) | TsPaths.DisplayRoundTripFailsAsWritten | TsPaths.DisplayRoundTrip |
| index.ts:97 | The same prefix in `cloneIfNotExists` decides clone or pull by a path relative to the working directory. | user `u` on POSIX, target `~/git`, URL `h/foo.git`, a working directory holding `Users/u/git/foo` but no `/Users/u/git`: the script creates nothing and pulls `~/git/foo`, a directory that does not exist | clone `foo` into `~/git` after creating it, as `index.js` does | high (not executed) | IndexTs.MainAsWrittenChecksRelativePaths | IndexTs.MainCorrectedChecksHome |

## Left out

- Running `git`, `mkdir` and `whoami`: commands are values (`Workflow.Command`, rendered by `Workflow.CommandLine`), and their success comes from an oracle set. Their output, and how the shell reads spaces or `~` in a command line, are not modelled.
- `fs.access`, `readFile` and `writeFile` become a set of existing paths, a map of readable files and a set of writable paths. Whether a write succeeds depends only on its path, so a write that fails inside the `try` of `saveSettings` fails again in its `catch`, and the run stops (`Workflow.SettingsWriteFailed`). A transient failure that the `catch` retry would survive is not modelled.
- JavaScript strings are sequences of UTF-16 code units, and `lastIndexOf`, `substring` and the `.length` of a path count those units. The model's strings are sequences of Unicode scalar values, so paths and URLs with characters outside the Basic Multilingual Plane (where one character is two code units) are not modelled faithfully: `substring(2)` can split such a character in the script but never in the model.
- Byte decoding (`raw.toString()`): files are modelled as character strings.
- Concurrency: every repository is checked against the file system as it was before the fan-out. Clones and `mkdir -p` do not update that set during the run. The race between two URLs with the same name is not modelled.
- `Workflow.SecondRunOnlyPulls`: assumes that a successful clone creates exactly the path the next run checks. `TsPaths.CloneCreatesCheckedPath` shows this for a POSIX target without `~`. It fails on Windows (`TsPaths.CloneMissesCheckedPathOnWindows`) and for `~` targets with the prefix as written (see Findings).
- `process.exit`, exit codes, the help text, error messages, ANSI colours and the blank lines around the suggestion. A stop reason (`Workflow.Stop`) stands for each exit. Log lines keep only their text.
- `process.platform` is a boolean parameter; `index.js` has no platform handling.
- A display-then-expand round trip on Windows is not stated. The display rewrite looks for `/Users/<user>` with forward slashes on every platform, so Windows home paths are never rewritten.
- An empty or colliding repository name is processed like any other. Neither variant guards against it, and the model does not either.
