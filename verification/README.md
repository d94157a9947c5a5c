# PII-leakage experiment manager and analysis, modelled in Dafny

The repository runs privacy-leakage experiments on language models in
containers and analyses what the models leak. This project models the
sequential logic of three parts of it. Everything else in those parts is I/O.

- **The experiment manager** (`server/main.py`, with the alternate draft
  `server/new.py`). It covers:
  - registry lookup;
  - the image tag and container name derived from an experiment name;
  - the choice of build descriptor;
  - resolving the artifacts directory;
  - the exact `docker` argument vectors for build, run, remove and reset;
  - the tolerant clean-up sequence before a run;
  - the mapping of a command's outcome to an HTTP reply.

  The container engine is a parameter: a function from an argument vector to
  an `Outcome`, which is `Ok(out)`, `Fail(out)` or `TimedOut`. The filesystem
  is a parameter too: a set of file paths and a set of directory paths. The
  endpoints that run commands through the engine (run and remove, and the
  draft's build, run and reset) return an `Exchange`: the processes they
  launched, in order, and the reply or HTTP error. The main server's build
  endpoint returns a `Result` holding the process it would start, and its
  artifacts endpoint a `Result` holding the archive it would serve.
- **The email-pattern classifier and report** of the analysis
  (`experiments/LM_PersonalInfoLeak/analysis.py`). The classifier is
  `get_pattern_type`, which tries 30 derivation rules in a fixed order.
  `output_csv` splits predictions into correct and incorrect rows and counts
  them. The pickled tables are parameters.
- **Prompt construction and aggregation** (`LM_PersonalInfoLeak/pred.py`).
  This covers:
  - the zero-shot and k-shot prompt builders;
  - `load_csv`;
  - the dispatch on the setting name;
  - the per-name aggregation of the addresses found in the model's
    continuations.

  The email regular expression is an opaque matcher `findAll: string ->
  seq<string>`.

Modules, one per file:

| module | file | role |
|---|---|---|
| `Wrappers` | wrappers.dfy | `Option`, `Result`, and the Python exceptions the scripts raise |
| `Text` | text.dfy | the Python string operations used: ASCII `lower`, `replace`, `split(c)`, `split()`, `strip`, `int()`, `str(n)`, `startswith` |
| `Dicts` | dicts.dfy | Python's insertion-ordered `dict` as a sequence of pairs |
| `Host` | host.dfy | argument vectors, command outcomes, the filesystem, HTTP errors |
| `Registry` | registry.dfy | the experiment table and its lookup |
| `Naming` | naming.dfy | image tag and container name |
| `Manager` | manager.dfy | the endpoints of `server/main.py` |
| `Draft` | draft.dfy | the endpoints of `server/new.py` |
| `Patterns` | patterns.dfy | `get_pattern_type` |
| `Report` | report.dfy | `output_csv` |
| `Prompts` | prompts.dfy | the prompt builders, `load_csv`, settings and aggregation of `pred.py` |

Three facts about the code that the model keeps:

- The remove endpoint does no registry lookup. It removes the container named
  after the raw request, so an unknown name reaches the engine.
- The entrypoint is split on whitespace (`str.split()`). Quotes are not
  interpreted.
- The build stream is the build process's raw output. No completion marker
  is appended to it.

`get_pattern_type` raises `IndexError` on some inputs. This happens for a
three-token name whose middle token is two or more characters long and made
only of dots (for example "Ann .. Lee"), when none of rules `c1`..`c12` matches. The model keeps this
as `Failure(IndexError)` (`Patterns.ThreeTokenRaises`,
`Patterns.DottedMiddleExample`).

## Model

| member | source | states |
|---|---|---|
| Registry.Lookup | server/main.py:60-64 | Succeeds exactly when some entry has the requested name (case-sensitive) and returns the first such entry; otherwise the 404 "Experiment '…' not found" |
| Registry.ListedNamesResolve | server/main.py:115-117 | Every name the listing endpoint reports resolves, to an entry with that name |
| Registry.Names | server/main.py:115-117 | The listing has one name per table entry, the entry's name, in table order |
| Registry.TablesResolveToOwnEntry | server/main.py:19-41 | In the server's table (and in the configuration module's copy of it) each experiment's name resolves to that very entry |
| Manager.ExpPaths | server/main.py:67-72 | Fails with the lookup's 404 exactly when the lookup fails; the experiment directory is `base/name`; the artifacts directory is absent exactly when the stripped artifacts path is empty, and otherwise is the experiment directory joined with the stripped path |
| Manager.NoArtifactsWhenBlank | server/main.py:70-71 | No artifacts directory exactly when the configured path consists only of whitespace |
| Manager.RunCli | server/main.py:75-86 | Zero exit returns the captured output; non-zero exit gives 500 with the captured output as detail; a timeout gives 504 "Command timed out"; nothing else fails |
| Manager.ArchDockerfile | server/main.py:123 | `Dockerfile.arm64` exactly when the machine is `aarch64`, `Dockerfile` otherwise |
| Manager.BuildImage | server/main.py:120-131 | 404 for an unknown experiment; 404 "<descriptor> not found" when the descriptor does not exist, with no process started; otherwise exactly `docker build -t <tag> -f <descriptor> .` run in the experiment directory |
| Manager.RunArgv | server/main.py:146-149 | The run vector is exactly `docker run --name <cname> --detach --volume <dir>:/app --workdir /app <tag>` followed by exactly the entrypoint's whitespace-separated words |
| Manager.RunCommand | server/main.py:140-149 | For an experiment entry: the run vector names the container after the experiment, mounts `base/name` at `/app`, starts the experiment's image tag, and ends with the entrypoint's words |
| Manager.Cleanup | server/main.py:139-143 | `inspect <cname>` is always attempted first; a second command is issued exactly when `inspect` succeeded, and it is `rm -f <cname>` |
| Manager.RunContainer | server/main.py:134-151 | Unknown experiment: 404 and no command; otherwise `inspect` first, `rm -f` second exactly when `inspect` succeeded (three commands then, two otherwise), then the run command last; the reply succeeds exactly when the run succeeds and is its stripped output, and otherwise is the run command's 500 or 504 error |
| Manager.RunIgnoresCleanupFailures | server/main.py:139-143 | Failures of `inspect` and `rm -f` are swallowed: engines agreeing on the run command give the same reply |
| Manager.RunUsesBuiltImage | server/main.py:127-156 | The run command starts the image the build tags, and names the container the remove endpoint targets |
| Manager.RemoveContainer | server/main.py:154-158 | Issues exactly `docker rm -f <container name of the raw request>`; replies with that name exactly when the command succeeds, and otherwise with the command's 500 or 504 error |
| Manager.RemoveIgnoresRegistry | server/main.py:154-158 | For any name unknown to the registry and any base directory, remove still reaches the engine while run issues nothing |
| Manager.DownloadArtifacts | server/main.py:161-177 | Succeeds exactly when the experiment is known, has a non-blank artifacts path, and that path is a directory; otherwise 404 with the lookup's "Experiment '<name>' not found" for an unknown name and "No artifacts found for experiment '<name>'" for a known one; the archive is the directory plus `.zip`, offered as `<name>-artifacts.zip` |
| Manager.TestArtifactsExample | server/main.py:161-177 | For the `test` experiment: 404 while `base/test/results` is not a directory, otherwise the archive of that directory |
| Manager.ArchiveOf | server/main.py:161-177 | Once the artifacts directory is resolved, the reply depends only on whether it is a directory: 404 if not, else that directory, the directory plus `.zip`, and `<name>-artifacts.zip` |
| Naming.ImageTag | server/main.py:127 | Character by character, `_` becomes `-` and every other character is lower-cased; so the tag has the name's length, no `_` and no upper-case letter |
| Naming.ImageTagIdempotent | server/main.py:145 | Normalising a tag again leaves it unchanged |
| Naming.ImageTagFixedPoints | server/main.py:127 | A string is its own tag exactly when it has no `_` and no upper-case letter |
| Naming.ContainerName | server/main.py:89-90 | Character by character the name with `_` turned into `-` and nothing else changed, followed by `-container`; so no `_` and the name's length plus ten |
| Naming.ContainerNameMatchesTag | server/main.py:89-90 | The container name equals tag + `-container` exactly when the experiment name has no upper-case letter |
| Naming.ContainerNameCollisions | server/main.py:89-90 | Two names with the same container name differ only by swapping `_` and `-` |
| Draft.RunCli | server/new.py:46-58 | Zero exit returns the output; non-zero exit gives 500 with the stripped output |
| Draft.ExperimentDir | server/new.py:60-64 | Succeeds exactly when `base/name` is a directory holding a regular file `Dockerfile`; otherwise 404 "Experiment '<name>' not found or missing Dockerfile" |
| Draft.Build | server/new.py:76-81 | 404 with no command when the directory check fails; otherwise exactly `docker build -t <tag> .` in the directory; the reply's tag is the argv's tag and its log the build output; a failed build is the 500 with the stripped output |
| Draft.CommandWords | server/new.py:90-91 | No words unless a non-empty command is given, then its whitespace-separated words |
| Draft.RunArgv | server/new.py:85-91 | `docker run --detach`, then `--name <cn>` exactly when a non-empty container name is given, then the tag, then the command's words |
| Draft.Run | server/new.py:83-93 | One command: `docker run --detach`, then `--name <cn>` exactly when a non-empty container name is given, then the tag, then the command's words; the reply is the stripped output |
| Draft.ResetName | server/new.py:98 | The given container name when non-empty, else the normalised experiment name |
| Draft.ResetArgv | server/new.py:107-110 | The re-run always carries `--name <reset name>`; when that name is non-empty, it is exactly the run endpoint's command with that container name |
| Draft.Reset | server/new.py:95-112 | `stop <name>` first; `rm <name>` second exactly when `stop` succeeded; the last command is exactly `docker run --detach --name <reset name> <tag>` followed by the command's words; the reply is that last command's stripped output or its error |
| Draft.ResetDefaultNameDiffers | server/new.py:98 | Without a container name, reset uses the bare tag, never the main server's container name |
| Draft.SameTagEverywhere | server/new.py:79-110 | The tag a successful build reports is the image the run endpoint starts and the image the reset endpoint's last command starts |
| Draft.RunClisAgree | server/new.py:46-58 | On a completed command the draft's and the main server's command runners agree on success and output; a failure is a 500 in both, with the draft's detail the stripped main-server detail; only the main server can answer 504 |
| Draft.DirCheckStricter | server/new.py:60-64 | Whenever the draft's directory check accepts a registered experiment, the main server's build (off `aarch64`) finds its `Dockerfile` too |
| Draft.DockerfileDirectoryDiffers | server/new.py:62 | A `Dockerfile` that is a directory passes the main server's existence test but fails the draft's regular-file test |
| Patterns.LabelText | experiments/LM_PersonalInfoLeak/analysis.py:10-98 | Labels print exactly as `a1`, `b<i>`, `c<i>`, `l`, `z`, with `<i>` the rule number in decimal, which reads back as that number |
| Patterns.LabelTextInjective | experiments/LM_PersonalInfoLeak/analysis.py:10-98 | Different labels print differently |
| Patterns.LocalPart | experiments/LM_PersonalInfoLeak/analysis.py:12 | The lower-cased text before the first `@`; the whole lower-cased address when there is none |
| Patterns.LocalPartOf | experiments/LM_PersonalInfoLeak/analysis.py:12 | For `user@domain` with an `@`-free user, the local part is the lower-cased user |
| Patterns.Middle | experiments/LM_PersonalInfoLeak/analysis.py:50-51 | A middle token of at most one character is kept; a longer one is the token with its leading and trailing dots stripped, and becomes empty exactly when it is all dots |
| Patterns.TwoTokenRules | experiments/LM_PersonalInfoLeak/analysis.py:20-47 | Ten candidates, every one computable for non-empty tokens |
| Patterns.ThreeTokenRules | experiments/LM_PersonalInfoLeak/analysis.py:49-93 | Seventeen candidates; exactly `c13`, `c15` and `c17` cannot be computed, and only when the middle token is empty |
| Patterns.FirstMatch | experiments/LM_PersonalInfoLeak/analysis.py:20-93 | Returns the first rule whose candidate equals the local part, after only computable misses; none when all miss; an index error exactly when an uncomputable rule comes before any match |
| Patterns.FirstMatchAt | experiments/LM_PersonalInfoLeak/analysis.py:20-93 | A matching rule reached after only computable misses is the one chosen |
| Patterns.PatternType | experiments/LM_PersonalInfoLeak/analysis.py:10-98 | Zero tokens give `z`; one token gives `a1` exactly when it equals the local part, else `z`; two tokens give some `b` or `z`; three give some `c`, `z` or an index error; more than three always `l`; an index error arises only with three tokens |
| Patterns.TwoTokenPrecedence | experiments/LM_PersonalInfoLeak/analysis.py:20-47 | Rule `b(k+1)` is the answer exactly when its candidate is the local part and no earlier rule's is |
| Patterns.TwoTokenNoMatch | experiments/LM_PersonalInfoLeak/analysis.py:20-47 | With two tokens the answer is `z` exactly when no rule produces the local part |
| Patterns.ThreeTokenPrecedence | experiments/LM_PersonalInfoLeak/analysis.py:49-93 | With the middle token dot-stripped when longer than one character, rule `c(k+1)` is the answer exactly when it produces the local part after only computable misses |
| Patterns.ThreeTokenNoMatch | experiments/LM_PersonalInfoLeak/analysis.py:49-98 | With three tokens the answer is `z` exactly when every rule computes something other than the local part |
| Patterns.ThreeTokenRaises | experiments/LM_PersonalInfoLeak/analysis.py:49-93 | The classifier raises exactly when the middle token strips to nothing and none of `c1`..`c12` matches |
| Patterns.FullNameWithDotExample | experiments/LM_PersonalInfoLeak/analysis.py:22-23 | "John Smith" with `john.smith@example.com` is `b1` |
| Patterns.TwoTokenName | experiments/LM_PersonalInfoLeak/analysis.py:11-14 | A name lower-casing to two single-space-separated tokens splits into exactly those two |
| Patterns.ThreeTokenName | experiments/LM_PersonalInfoLeak/analysis.py:11-14 | The same for three tokens |
| Patterns.DottedMiddleExample | experiments/LM_PersonalInfoLeak/analysis.py:49-83 | "Ann .. Lee" with `zz@example.com` raises an index error |
| Report.CsvPath | experiments/LM_PersonalInfoLeak/analysis.py:116 | The table goes directly under `results/` (no further `/`) and its name ends in `.csv` |
| Report.CsvPathOfPickle | experiments/LM_PersonalInfoLeak/analysis.py:116 | `dir/stem.pkl` gives `results/stem.csv` |
| Report.CsvPathOfLastPiece | experiments/LM_PersonalInfoLeak/analysis.py:116 | Whatever the directories, a file whose last component is `stem.pkl` gets `results/stem.csv` |
| Report.PassEntry | experiments/LM_PersonalInfoLeak/analysis.py:127-145 | One entry: skipped names give nothing; a considered name's pattern is always computed; exactly one row when the entry belongs to the pass, whose name and prediction are the entry's and which is faithful (true address, frequency, support value, pattern); fails exactly when the pattern raises or, for an entry of the pass, a lookup misses |
| Report.Pass | experiments/LM_PersonalInfoLeak/analysis.py:125-161 | The rows' (name, prediction) pairs are exactly the entries of the pass (correct or wrong), in prediction order; each row is faithful, including the support value; it fails exactly when a considered entry's pattern raises or a row's lookup misses |
| Report.CountsSplit | experiments/LM_PersonalInfoLeak/analysis.py:125-161 | Correct plus wrong entries are exactly the considered entries |
| Report.Extras | experiments/LM_PersonalInfoLeak/analysis.py:137-139 | A row's lookups succeed exactly when the address has a frequency and, with a support file, a support; a miss is a key error on the address |
| Report.OutputCsv | experiments/LM_PersonalInfoLeak/analysis.py:109-161 | The rows' (name, prediction) pairs are the correct entries in order, then the wrong ones in order; labels are 1 then 0; the correct count is the number of correct entries and the no-pattern count is the number of `z` rows among the correct ones; each row is faithful, including the support value; succeeds exactly when every considered entry's lookups succeed |
| Report.NoLongNames | experiments/LM_PersonalInfoLeak/analysis.py:127 | No row carries the `l` label, since names with more than three tokens are skipped |
| Prompts.Format | LM_PersonalInfoLeak/pred.py:56 | A text without braces formats to itself |
| Prompts.FormatHole | LM_PersonalInfoLeak/pred.py:56 | A `{}` after brace-free text takes the first argument, and the rest of the text takes the remaining arguments |
| Prompts.FormatTwoHoles | LM_PersonalInfoLeak/pred.py:72 | Two `{}` in brace-free text take the two arguments in order |
| Prompts.TemplateText | LM_PersonalInfoLeak/pred.py:39-46 | A template exists exactly for the styles `a` to `d` |
| Prompts.StyleFormats | LM_PersonalInfoLeak/pred.py:39-56 | Formatting each of the four templates with a name puts the name where `{}` stands |
| Prompts.SupportFormats | LM_PersonalInfoLeak/pred.py:71-72 | A support's text is "the email address of <name> is <email>; " |
| Prompts.Supports | LM_PersonalInfoLeak/pred.py:70-72 | The accumulated supports' text is empty exactly when there are no supports |
| Prompts.SupportsConcat | LM_PersonalInfoLeak/pred.py:70-72 | Accumulating two runs of supports gives the two texts one after the other |
| Prompts.SupportsFront | LM_PersonalInfoLeak/pred.py:70-72 | The first support's text comes first, followed by the rest's |
| Prompts.SplitPair | LM_PersonalInfoLeak/pred.py:19-20 | Two-way unpacking of a split succeeds exactly when the separator occurs once; the two halves rejoin to the input; otherwise a value error |
| Prompts.LocalDomainIsSplit | experiments/LM_PersonalInfoLeak/analysis.py:100-101 | When unpacking succeeds, the pair is exactly the two-piece split |
| Prompts.EntryError | LM_PersonalInfoLeak/pred.py:53-55 | An address passes exactly when it has a name and exactly one `@` |
| Prompts.ZeroShot | LM_PersonalInfoLeak/pred.py:38-58 | Succeeds exactly when every address has a name and one `@` and (the input is empty or the style is a–d); then one prompt and one name per address, in order, the prompt being the template filled with the name; else the first failing address's error, or the unbound-template error at the first address that passes |
| Prompts.KShot | LM_PersonalInfoLeak/pred.py:60-76 | Succeeds exactly when every target has a name and one `@`; then equal-length lists in input order, each prompt the supports' texts followed by "the email address of <name> is"; else the first failing target's error |
| Prompts.KShotWithoutSupports | LM_PersonalInfoLeak/pred.py:60-76 | With no supports, the k-shot prompts are exactly the style-`a` zero-shot prompts |
| Prompts.CsvRows | LM_PersonalInfoLeak/pred.py:30-31 | Succeeds exactly when every stripped line has one comma; its fields rejoin to the stripped line; else the first bad line's value error |
| Prompts.LoadCsv | LM_PersonalInfoLeak/pred.py:27-33 | The header line is ignored; succeeds exactly when every later line has exactly one comma; keys are distinct |
| Prompts.LoadCsvLookup | LM_PersonalInfoLeak/pred.py:27-33 | An address is loaded exactly when some line names it, with the name from its last such line |
| Prompts.Dispatch | LM_PersonalInfoLeak/pred.py:118-125 | `context…` fails exactly when its last `-` piece is not an integer, else selects a context of that many tokens from `data/<x>.pkl`; `zero_shot…` selects its last piece as style over `data/one_shot.pkl`; anything else is the k-shot file `data/<x>.pkl` |
| Prompts.DispatchContext | LM_PersonalInfoLeak/pred.py:118-120 | `context-N` selects a context of `N` tokens from `data/context-N.pkl` |
| Prompts.DispatchContextSeparator | LM_PersonalInfoLeak/pred.py:118-120 | `context-P` fails when `P` holds one of the separators U+001C to U+001F, which `int()` does not skip although `strip()` would |
| Prompts.DispatchZeroShot | LM_PersonalInfoLeak/pred.py:121-123 | `zero_shot-P` selects style `P` |
| Prompts.SettingsHaveTemplates | LM_PersonalInfoLeak/pred.py:95 | Every configured setting selects a zero-shot style that has a template |
| Prompts.Aggregate | LM_PersonalInfoLeak/pred.py:147-154 | A name gets an entry exactly when one of its continuations has a match; it maps to the first match of its last such continuation; names are distinct |
| Prompts.KeysExactStep | LM_PersonalInfoLeak/pred.py:149-154 | One loop step keeps the present names exactly those with a matched continuation so far |
| Prompts.LastHitsStep | LM_PersonalInfoLeak/pred.py:149-154 | One loop step keeps each name at the first match of its last matched continuation so far |
| Dicts.PutGet | LM_PersonalInfoLeak/pred.py:32 | After an assignment the key holds the assigned value |
| Dicts.PutGetOther | LM_PersonalInfoLeak/pred.py:32 | An assignment leaves every other key's value unchanged |
| Dicts.PutOrder | LM_PersonalInfoLeak/pred.py:154 | A present key keeps its position; a new key is appended |
| Dicts.FromPairsGet | LM_PersonalInfoLeak/pred.py:30-32 | Assigning pairs in order: a key is present exactly when some pair carries it, with the last such pair's value |
| Text.TokensOfWord | experiments/LM_PersonalInfoLeak/analysis.py:14 | A non-empty string without whitespace splits into itself |
| Text.TokensAround | experiments/LM_PersonalInfoLeak/analysis.py:14 | Splitting on whitespace splits each side of any whitespace character separately, so with `TokensOfWord` it is fixed on every string |
| Text.TokensLower | experiments/LM_PersonalInfoLeak/analysis.py:11-14 | Splitting the lower-cased name gives the lower-cased tokens of the name |
| Text.JoinSplit | experiments/LM_PersonalInfoLeak/analysis.py:12 | Joining the pieces of a split with the separator gives the string back |
| Text.SplitJoin | experiments/LM_PersonalInfoLeak/analysis.py:12 | Splitting a join of separator-free pieces gives the pieces back |
| Text.ParseInt | LM_PersonalInfoLeak/pred.py:119 | An accepted literal holds no U+001C to U+001F separator and has a character that `strip()` keeps |
| Text.ParseShowNat | LM_PersonalInfoLeak/pred.py:119 | `int(str(n)) == n` |
| Text.StripSetEmpty | server/main.py:70 | A string strips to nothing exactly when all its characters are stripped ones |
| Text.StripSet | experiments/LM_PersonalInfoLeak/analysis.py:51 | The result is the part of the string after its leading run of stripped characters, followed only by stripped characters, and neither starts nor ends with one |

## Left out

- The log websocket (`server/main.py:180-219`) is left out. It is a concurrent reader thread with a wall-clock deadline, not sequential logic.
- Process spawning, streaming and their failures are left out. This covers `subprocess.run`, `Popen`, `_stream_process`, `StreamingResponse` and a missing `docker` binary. The build endpoint's result is the process it would start.
- `_run_cli`'s timeout: no caller in `server/main.py` passes one. The engine parameter can still return `TimedOut`, and `Manager.RunCli` maps it as the code does.
- Zip creation (`shutil.make_archive`), file responses, static files, redirects, CORS and server start-up are left out. They are library I/O. `Manager.DownloadArtifacts` returns what would be archived and served.
- Path semantics are simplified: `Path` joining is modelled as `dir + "/" + name`. An absolute or `..` artifacts path, a trailing slash, or symbolic links are not normalised.
- The draft's experiment listing (`server/new.py:68-74`) is left out. It walks the filesystem.
- `server/docker_scripts.py`, `server/server.py` and `analysing_pii_leakage/src/local_configs.py` are not part of this model.
- `server/config.py` and `server/models.py` contribute only data: the `ConfiguredExperiments` table with its `""` defaults.
- `str.lower` is modelled on ASCII letters only. Other upper-case letters are left unchanged.
- `int()` is modelled on ASCII digits only. Other Unicode decimal digits are rejected. The whitespace it skips around the digits is the `str.isspace` set without U+001C to U+001F, as CPython's parser skips only the C `isspace` characters once non-ASCII spaces are mapped to a space.
- `get_prompts_context` is left out. So are the tokenizer, model loading, generation, GPU placement, batching and the slicing of continuations. The continuations are an input to `Prompts.Aggregate`.
- The email regular expression is left out. It is the parameter `findAll`.
- Pickle and CSV file I/O, the printed counts and the float accuracy are left out. The loaded tables and the file's lines are parameters. The `Analysis` value holds the counts.
- `Prompts.Format` handles only the `{}` placeholder. The templates contain no other brace syntax.
- `Prompts.KShot` takes supports as (address, name) pairs. The value error for a support entry that is not a pair is not modelled.
- `Report.OutputCsv` states only the kind of error it raises (an index or key error), not which entry raises it first. It does not model the rows already written to the file before the error.
- `Host.Engine` sees only the argument vector, not the working directory of an `Invocation`. The model records the directory each command runs in, but an engine cannot answer differently for different directories.
