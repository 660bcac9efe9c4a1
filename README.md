# ai-instruct installer, modelled in Dafny

`bin/init.js` is the interactive installer of ai-instruct. It does five things:

- It detects which AI coding tools have a configuration file in the working directory.
- It asks which of those configurations to update: a yes/no confirmation when some were detected, otherwise a numbered menu.
- It asks which guides to install, as a comma-separated list of numbers where the empty answer means all of them.
- It downloads each chosen guide into `ai-docs/`.
- For every chosen configuration file, it appends one reference snippet per selected guide that the file does not mention yet.

This project models that core:

- `wrappers.dfy` defines `Option`, which stands for a missing file and for `NaN`.
- `string_ops.dfy` (module `StringOps`) models the JavaScript built-ins the installer relies on: `trim`, `toLowerCase`, `split(',')`, `includes` and `parseInt`. Each comes with lemmas about its meaning.
- `catalog.dfy` (module `Catalog`) holds the `GUIDES` and `TOOL_CONFIGS` catalogs, the per-tool snippet templates, and `detectTools` as an order-preserving filter over the set of paths that exist.
- `selection.dfy` (module `Selection`) reads the three answers: the confirmation, the menu and the guide list.
- `config_update.dfy` (module `ConfigUpdate`) gives the configuration-update loop as functions over one file's content (`Updated`, `Appended`). It proves the loop's properties about those functions.
- `installer.dfy` (module `Installer`) has a `FileSystem` class: file contents by path plus the set of directories, changed in place. It also holds:
  - the download loop and the two update loops as methods with loop invariants, proved against the functions above;
  - `Setup`, which is `main`.

## Model

| member | source | states |
|---|---|---|
| Catalog.RefShape | bin/init.js:39-60 | every tool's snippet for every guide starts and ends with a line break and contains `ai-docs/<file>`, hence the guide's file name |
| Catalog.GuideFilesUnique | bin/init.js:12-37 | no two catalog guides share a file name |
| Catalog.ToolFilesUnique | bin/init.js:39-60 | no two catalog tools share a configuration path |
| Catalog.SubseqDistinctPaths | bin/init.js:62-64 | leaving tools out of a list, as the detection filter does, keeps their configuration paths distinct |
| Catalog.DetectAmong | bin/init.js:62-64 | the filter keeps exactly the tools whose file exists, as a subsequence of the list (order kept) |
| Catalog.DetectTools | bin/init.js:62-64 | the detected tools are exactly the catalog tools whose configuration path exists, in catalog order |
| Installer.FileSystem.AlreadyReferenced | bin/init.js:70-73 | true iff the configuration file exists and the guide's file name occurs in it at some position |
| StringOps.IncludesIff | bin/init.js:72 | the left-to-right scan that models `includes` is true iff the text occurs at some index |
| StringOps.IncludesAppend | bin/init.js:153 | text that occurs in a string still occurs after more text is appended |
| StringOps.TrimShape | bin/init.js:67 | `trim` returns a slice of its input, with only ECMAScript whitespace and line terminators (ASCII and Unicode, `\u00A0`, `\uFEFF`, `\u2028` and the other space separators included) cut off either end, and none left at either end |
| StringOps.LowerIsN | bin/init.js:94 | the lower-cased answer is "n" iff the answer is "n" or "N" |
| Selection.ConfirmDeclinesOnN | bin/init.js:93-96 | the detected tools are kept unless the answer is exactly "n" or "N", in which case none is |
| Selection.MenuChoice | bin/init.js:102-106 | the menu selects at most one tool, and only a catalog tool; an answer that `parseInt` reads as `NaN` selects nothing |
| Selection.MenuChoiceOfNumber | bin/init.js:102-106 | an answer that starts with the number k selects tool k for k in 1..4, and nothing for any other k (the "skip" entry 5 included) |
| Selection.SelectTools | bin/init.js:90-107 | with tools detected, the choice is all of them or none; otherwise at most one catalog tool |
| Selection.GuideChoice | bin/init.js:114-116 | the empty answer selects the whole catalog; any other answer selects at most one guide per comma-separated piece |
| Selection.GuideChoiceFromCatalog | bin/init.js:114-116 | every selected guide is a catalog guide |
| Selection.ResolvePieceOfNumber | bin/init.js:116 | a piece that starts with the number k selects guide k for k in 1..4, and is dropped otherwise |
| Selection.ResolvePieceNotANumber | bin/init.js:116 | a piece with no leading number is dropped |
| Selection.ResolveAllAppend | bin/init.js:116 | resolution goes piece by piece in input order: it distributes over concatenation of the piece lists |
| Selection.GuideChoiceOfTwo | bin/init.js:114-116 | the answer "a,b" selects guide a then guide b, dropping an invalid number and keeping a repeated one twice |
| StringOps.SplitJoin | bin/init.js:116 | splitting a comma-join of comma-free pieces gives back exactly those pieces |
| StringOps.JoinSplit | bin/init.js:116 | joining the pieces of a split gives back the string |
| StringOps.SplitPiecesFree | bin/init.js:116 | no piece of a split contains the separator |
| StringOps.ParseShowInt | bin/init.js:103 | the modelled `parseInt` reads back the decimal numeral of every integer n (`ShowInt`), also when text that does not start with a digit follows |
| StringOps.ParseIntTrim | bin/init.js:116 | the `trim()` applied before `parseInt` never changes the number read |
| ConfigUpdate.UpdatedIsAppend | bin/init.js:151-155 | the loop only appends: the new content is the old content followed by the snippets of the appended guides, in order, and is unchanged when nothing is appended |
| ConfigUpdate.UpdatedKeepsContent | bin/init.js:151-155 | an existing file keeps existing and its old content is a prefix of its new content |
| ConfigUpdate.UpdatedReferencesAll | bin/init.js:151-155 | after the loop, every selected guide's file name occurs in the configuration |
| ConfigUpdate.UpdatedKeepsReferenced | bin/init.js:151-155 | a guide referenced before the loop is still referenced after it |
| ConfigUpdate.StepReferences | bin/init.js:152-153 | after one iteration the guide is referenced, whether it was skipped or appended |
| ConfigUpdate.NothingAppendedIff | bin/init.js:150-162 | `added` is empty (the "no changes" report) iff every selected guide was already referenced |
| ConfigUpdate.UpdatedWhenAllReferenced | bin/init.js:151-152 | when every selected guide is referenced the file is left as it is |
| ConfigUpdate.Idempotent | bin/init.js:146-163 | running the loop again with the same selection appends nothing and leaves the file unchanged |
| ConfigUpdate.AppendedUnreferenced | bin/init.js:151-155 | only guides unreferenced at the start are appended, and they are a subsequence of the selection |
| ConfigUpdate.AppendedOnce | bin/init.js:151-155 | no two appended snippets are for the same file name, so a guide listed twice is appended once |
| Installer.FileSystem.AppendFile | bin/init.js:153 | `appendFileSync` appends to the file, creating it if missing, and changes nothing else |
| Installer.FileSystem.Mkdir | bin/init.js:148 | creates the directory, or with `recursive` the directory and every directory above it |
| Installer.FileSystem.WriteFile | bin/init.js:78 | `writeFileSync` replaces one file's content and changes nothing else |
| Installer.BeforeLastSlash | bin/init.js:147 | the directory part ends just before the last '/' of the path |
| Installer.FileSystem.AppendMissing | bin/init.js:150-155 | the loop leaves the configuration as `Updated` says, touches no other file, and `added` holds the names of the guides `Appended` lists |
| Installer.FileSystem.UpdateConfig | bin/init.js:147-155 | the configuration's directory is created only when it is not "." and is missing; then the guides are appended as in `AppendMissing` |
| Installer.AlreadyComplete | bin/init.js:150-152 | a tool whose configuration an earlier tool of the loop already updated finds every guide referenced, appends nothing and leaves the file as it is |
| Installer.FileSystem.UpdateConfigs | bin/init.js:146-163 | every chosen configuration ends up as `Updated` makes its old content, so it references every selected guide; the first report for a path lists exactly the guides appended, a later report for the same path is empty; files only grow and no other file changes; the directory of every chosen configuration exists afterwards, and every new directory is one of theirs or above one of theirs |
| Installer.ChosenToolsDistinct | bin/init.js:90-107 | the tools a run chooses, from the detection or the menu, have distinct configuration paths, none inside `ai-docs` |
| Installer.FileSystem.DownloadGuides | bin/init.js:132-143 | the files after the loop are `Downloaded`, and each guide's flag says whether its fetch succeeded |
| Installer.DownloadedKeys | bin/init.js:134-143 | the downloads create exactly the `ai-docs/<file>` paths of the guides whose fetch succeeded |
| Installer.DownloadedKeeps | bin/init.js:137-142 | a file that no successful download writes keeps its content |
| Installer.DownloadedWrites | bin/init.js:135-138 | each successful fetch's body ends up at the guide's `ai-docs/<file>` path |
| Installer.Written | bin/init.js:135 | every downloaded guide lands in the documentation directory |
| Installer.FileSystem.Install | bin/init.js:124-163 | `ai-docs` exists afterwards and the downloaded guides are in it; each chosen configuration outside `ai-docs` is `Updated` from its content before the run, and its report lists exactly the guides appended (empty for a repeated path); every file that no successful download writes, in `ai-docs` or not, only grows, and only chosen configurations among them change, so an older guide whose fetch fails is kept; new directories are `ai-docs` and those of the chosen configurations |
| Installer.FileSystem.Setup | bin/init.js:81-179 | with no valid guide selected the run changes nothing; otherwise, for the tools chosen from the detected ones and the answers, each configuration is `Updated` from its content before the run and its report lists exactly the guides appended to it, every fetched guide is at its `ai-docs` path, every other file keeps its content unless it is a chosen configuration (which only grows), and the other guarantees of `Install` hold |

## Left out

- Console output and the readline prompts are not modelled. The two answers are parameters of `Setup`, trimmed as `ask` trims them. The closing summary and the example lines printed when no configuration was chosen are console text only.
- The network is a parameter, `fetch: string -> Option<string>`, from URL to body. A non-OK HTTP status and a thrown fetch error are both `None`. Both are reported and skipped, as the `try`/`catch` does. The model treats fetch as a deterministic function of the URL.
- The downloads are awaited one after the other in the source, so no concurrency is left out.
- Failures of the file-system calls themselves are not modelled: a path that is a directory, a missing parent directory, permission errors, and the top-level `catch` that prints the error and exits with status 1. In the model those calls always succeed.
- StringOps.ParseInt: covers leading whitespace, an optional sign and leading decimal digits. It does not cover the `0x` prefix that `parseInt` without a radix reads as hexadecimal, or the loss of precision of very long digit strings in IEEE doubles.
- StringOps.Lower: lower-cases ASCII letters only; no other character lower-cases to "n", the one comparison its result feeds.
- Installer.FileSystem: a state need not be well-formed. Nothing requires a file's parent directories to be in `dirs`, or keeps a path from being both a file and a directory. In such a state `UpdateConfig` may record a directory that `existsSync` would report as existing already; no file content differs.
- Installer.Dirname: covers relative paths without a trailing slash, which is all the catalog uses. `path.dirname`'s handling of a leading or trailing "/" is not modelled.
- Installer.FileSystem.UpdateConfigs: bounds the new directories rather than giving the exact set. Each chosen configuration's directory exists afterwards, and each new directory is one of those or lies above one. Whether `mkdirSync` runs for a tool depends on whether its directory existed at that tool's turn, and an earlier tool's file can change that.
- Installer.FileSystem.Install: inherits the directory bounds of `UpdateConfigs`. It states the new content only for configurations outside `ai-docs`, whose content before the run the downloads cannot change.
- Installer.FileSystem.Setup: inherits the directory bounds of `UpdateConfigs`.
- Scenario left unproved: a fresh configuration, with all four guides selected, receives one snippet per guide in catalog order. It holds only when no guide's file name occurs in an earlier guide's snippet, a fact about the literal text that is not proved here. `ConfigUpdate.AppendedUnreferenced` and `ConfigUpdate.UpdatedIsAppend` give the general form.
- The guides' `desc` field is kept as data. It only feeds the menu text.
