# nest — a verified model of its core

nest manages dotfiles and system packages through plugins called *twigs*.
A twig has a name, dependencies, the files it links into the user's home
and into the system, and callbacks to install, check, prepare, complete,
remove and update it. Which twigs are enabled, and how they behave, comes
from layered INI configuration files. A section of those files can be
guarded by a small boolean expression over facts about the distribution.

This Dafny project models the core of that engine and proves properties of
the model:

- **Expression** (`expression.dfy`): the restricted expression language of
  section headers. `and`/`or` are left folds that evaluate every operand.
  Only five comparison operators are accepted. An unknown name or node is an
  evaluation error, and a syntax error is reported when compiling.
- **Configuration** (`configuration.dfy`, with `dicts.dfy` for Python's
  insertion-ordered dictionaries): sections kept by their predicate and
  placed at their dotted path. The files are deep-merged in order, and the
  reserved sections `env` and `submodules` are refused. `Container`/`Value`
  lookups never raise.
- **Twigs** (`twigs.dfy`, `twig_strings.dfy`, `twig_files.dfy`,
  `twig_commands.dfy`):
  - the registry, which refuses duplicate names;
  - the chained lifecycle callbacks and the presence cache;
  - dependencies and the recursive `enabled` rule with provider fallback;
  - `${token}` interpolation, `normalize`, `as_mod`, and the names deduced
    from a module;
  - the sorted file listing that treats submodules as leaves;
  - the rules of `Twig.run`, the stored version, and the `downloadable`
    update lister.
- **Orchestrator** (`orchestrator.dfy`): the duplicate-file check of
  `initialize`, and the order in which `build` removes, unlinks, installs,
  links and completes twigs, recorded as a trace.
- **Commands** (`commands.dfy`, `update_command.dfy`): `clean`,
  `dependencies` (the dependency or dependent trees), and `update` with its
  commit message.
- **User interface** (`ui.dfy`, `wrap.dfy`, `tree_layout.dfy`,
  `filesystem.dfy`):
  - the indentation level and the queue of delayed section headers;
  - the word-wrapping printer and the tree renderer;
  - `query`, which accepts an answer by unique prefix;
  - `link`/`unlink` over an abstract file system of files, directories and
    symbolic links.
- **Shell UI** (`shell_ui.dfy`): the standalone UI copy shipped with the
  shell utilities, whose message queue prints a message only once another
  follows.
- **System packages** (`system_packages.dfy`): choosing the unique enabled
  provider of a package, with the generic commands as the fallback.
- **Terminal overlay** (`terminal_overlay.dfy`): allocating `customN` key
  binding directories in dconf, and its check and removal.

`wrappers.dfy`, `text.dfy` and `order.dfy` hold the shared `Option`/`Result`
types, Python's string operations, and Python's ordering of strings and
paths.

Some behaviours follow the code and differ from what one might expect:

- A chain of comparisons `a < b < c` is evaluated as `(a < b) < c`, a left
  fold over the boolean results, and not as Python's chaining.
  `Expression.ChainIsNotPythonChaining` exhibits the difference.
- `and` and `or` evaluate every operand, so an unknown name in any operand is
  an error even when the result is already decided.
- Only entry keys are normalised (`.` and `_` become `-`). Section names and
  twig names are taken as written.
- A configuration file whose section is named `env` or `submodules` is
  refused, because those sections are reserved for the facts and the
  submodule paths.
- The commit bullet of `update` is the three characters ` â€¢ ` that the
  source file contains: the UTF-8 bytes of `•` read as CP1252.

External effects enter as parameters or oracles, and callbacks are opaque
stage identifiers whose answers an oracle supplies:

- Python's parser is a `parse` function, and the INI parser's output is the
  list of raw sections.
- The spawned process is a `Spawn` outcome, the keyboard a list of replies,
  and the terminal width a number.
- The file system is a map, and dconf is a store of listed items and key
  values.

## Model

| member | source | states |
|---|---|---|
| Expression.Compile | src/nest/twigs/_expression.py:57-61 | compiling fails with a syntax error naming the expression exactly when it does not parse; otherwise the parsed body is kept with its text |
| Expression.Evaluate | src/nest/twigs/_expression.py:15-55 | evaluation can fail only with an evaluation error, never with a syntax error; an unknown name or node is reported with the compiled expression's text; a bare name evaluates exactly when the environment binds it |
| Expression.Cmp | src/nest/twigs/_expression.py:16-24 | a comparison yields a boolean; `==` always succeeds, the four orderings succeed exactly on orderable operands, and any other operator is rejected naming both operands |
| Expression.Val | src/nest/twigs/_expression.py:26-53 | a constant evaluates to itself; a name to its value in the environment, or, when unbound, to an "unknown value" error naming the expression and the name; any other kind of node to an "unknown expression" error with its text; no node raises a syntax error |
| Expression.AndFold | src/nest/twigs/_expression.py:30-33 | the `and` fold fails only with an evaluation error, and names the expression being evaluated in it |
| Expression.OrFold | src/nest/twigs/_expression.py:34-37 | the `or` fold fails only with an evaluation error, and names the expression being evaluated in it |
| Expression.CompareFold | src/nest/twigs/_expression.py:38-41 | the comparison fold fails only with an evaluation error, and names the expression being evaluated in it |
| Expression.AndFoldDefined | src/nest/twigs/_expression.py:30-33 | the `and` fold succeeds exactly when every operand evaluates: all operands are evaluated, with no short circuit |
| Expression.AndFoldSemantics | src/nest/twigs/_expression.py:30-33 | the `and` fold succeeds exactly when every operand evaluates (all are evaluated, no short circuit); its result is truthy exactly when the start and every operand are, and it is the start or one of the operand values |
| Expression.OrFoldDefined | src/nest/twigs/_expression.py:34-37 | the `or` fold succeeds exactly when every operand evaluates: all operands are evaluated, with no short circuit |
| Expression.OrFoldSemantics | src/nest/twigs/_expression.py:34-37 | the `or` fold succeeds exactly when every operand evaluates; its result is truthy exactly when the start or some operand is, and it is the start or one of the operand values |
| Expression.AndTruthTable | src/nest/twigs/_expression.py:30-33 | `a and b and …` is truthy exactly when every operand is |
| Expression.OrTruthTable | src/nest/twigs/_expression.py:34-37 | `a or b or …` is truthy exactly when some operand is |
| Expression.UnknownOperandRaises | src/nest/twigs/_expression.py:44-50 | a boolean operation with an operand naming an unknown value fails, even where Python's `and`/`or` would short-circuit |
| Expression.CompareIsLeftFold | src/nest/twigs/_expression.py:38-41 | `a op1 b op2 c` compares the result of `a op1 b` with `c` |
| Expression.CmpChainFirst | src/nest/twigs/_expression.py:38-41 | the reference chain of comparisons, built from its last comparison, starts by comparing the start value with the first value |
| Expression.CompareFoldIsChain | src/nest/twigs/_expression.py:38-41 | for any number of operators and comparators, the fold over the pairs `zip` forms is the left-nested chain of `cmp` over the comparators' values |
| Expression.CompareNodeIsChain | src/nest/twigs/_expression.py:38-41 | a comparison node evaluates to the left-nested chain of `cmp` starting from its left operand's value |
| Expression.ChainIsNotPythonChaining | src/nest/twigs/_expression.py:38-41 | `1 < 3 < 2` evaluates to true (the fold compares `True < 2`), although `3 < 2` is false |
| Expression.ExampleEvaluations | src/nest/twigs/_expression.py:26-53 | `x == 1 and y > 2` is true for x=1, y=3 and false for x=1, y=1; an unknown name fails naming it |
| FileSystem.Resolve | src/nest/ui/__init__.py:44-57 | following symbolic links ends at a file or directory, never at a link, and a missing path resolves to nothing |
| FileSystem.DanglingLink | src/nest/ui/__init__.py:50-54 | a link to a missing path neither exists nor is a file |
| FileSystem.LinkResolves | src/nest/ui/__init__.py:44-46 | a link exists when its target resolves, and is a file exactly when its target resolves to a regular file |
| FileSystem.LinkTo | src/nest/ui/__init__.py:92 | linking makes the target a link to the source and changes no other path |
| FileSystem.Remove | src/nest/ui/__init__.py:95-114 | unlinking removes the path and changes no other path |
| FileSystem.ResolveShrunk | src/nest/__main__.py:111-132 | removing links never makes a path resolve to something it did not resolve to before |
| FileSystem.IsFileShrunk | src/nest/__main__.py:111-132 | a path that is a file after links were removed was a file before |
| TwigStrings.Normalize | src/nest/twigs/__init__.py:819-828 | every `.` and `_` of a twig name becomes `-`, every other character is kept, and the result holds neither `.` nor `_` |
| TwigStrings.NormalizeIdempotent | src/nest/twigs/__init__.py:819-828 | normalising a normalised name changes nothing |
| TwigStrings.NormalizeCollision | src/nest/twigs/__init__.py:819-828 | two names normalise to the same name exactly when they have the same length and differ only where both hold one of `.`, `_`, `-` |
| TwigStrings.AsMod | src/nest/twigs/__init__.py:831-841 | the module name keeps ASCII letters, digits and `_` and turns every other character into `_`, length preserved |
| TwigStrings.AsModOfNormalized | src/nest/twigs/__init__.py:819-841 | the module name of a normalised twig name is the module name of the raw name, and `as_mod` is idempotent |
| TwigStrings.LastSegment | src/nest/twigs/__init__.py:855 | `rsplit(sep, 1)[-1]`: the longest suffix without the separator, preceded by the separator when shorter than the input |
| TwigStrings.Stem | src/nest/twigs/__init__.py:886 | `rsplit(sep, 1)[0]`: the text before the last separator, so that stem, separator and last segment rebuild the input; the whole input when there is no separator |
| TwigStrings.LastSegmentAfter | src/nest/twigs/__init__.py:855 | the last segment of `a + sep + b` is `b` when `b` holds no separator |
| TwigStrings.ExtractName | src/nest/twigs/__init__.py:853-857 | a module without `__name__` is an error; otherwise the twig name is the normalised last dotted component of the module name |
| TwigStrings.ExtractNameOfModule | src/nest/twigs/__init__.py:853-857 | the twig defined in module `pkg.mod` is named `normalize(mod)` |
| TwigStrings.ExtractVersionPath | src/nest/twigs/__init__.py:881-886 | a twig defined in `__init__.py` stores its version in `VERSION`, any other file `f.py` in `VERSION.f` |
| TwigStrings.VersionPathOfPackage | src/nest/twigs/__init__.py:881-884 | a package's twig uses `VERSION` |
| TwigStrings.VersionPathOfModule | src/nest/twigs/__init__.py:885-886 | the twig of module file `stem.py` uses `VERSION.stem` |
| TwigStrings.InterpolateWithoutDollar | src/nest/twigs/__init__.py:131-144 | a string without `$` is returned unchanged |
| TwigStrings.InterpolateAtToken | src/nest/twigs/__init__.py:131-144 | at a `${name}` token (non-empty name, no `}` inside) the mapper's answer replaces the token, or the token is kept verbatim when the mapper answers nothing, and scanning resumes after the `}` |
| TwigStrings.InterpolateAtChar | src/nest/twigs/__init__.py:131-144 | where no token starts, the character is copied and scanning moves on by one |
| TwigStrings.InterpolateUnmapped | src/nest/twigs/__init__.py:141-144 | a mapper that maps nothing leaves every string unchanged |
| TwigStrings.TokenEnd | src/nest/twigs/__init__.py:33 | in `${token}rest` the token pattern ends at the first `}`, capturing exactly `token` |
| TwigStrings.InterpolateToken | src/nest/twigs/__init__.py:131-144 | `${token}rest` becomes the mapped value (or the token itself) followed by the interpolation of `rest` |
| TwigCommands.InterpolateArgs | src/nest/twigs/__init__.py:484-487 | every command argument is interpolated with the keyword arguments as mapper, one result per argument |
| TwigCommands.PlainArgsUnchanged | src/nest/twigs/__init__.py:484-487 | arguments without `$` reach the process unchanged |
| TwigCommands.RunCheckedNeverRaises | src/nest/twigs/__init__.py:489-505 | with `check`, `run` never raises: it answers whether the process was found and exited with code 0 |
| TwigCommands.RunRaises | src/nest/twigs/__init__.py:489-509 | `Run`, the model of `Twig.run`: without `check`, `run` fails exactly when the command is missing or (when not streaming) exits non-zero, and the error names the joined command, the twig and the code |
| TwigCommands.RunSucceeds | src/nest/twigs/__init__.py:492-497 | in `Run`, a process exiting with 0 yields its output when capturing and `True` otherwise |
| TwigCommands.Parent | src/nest/twigs/__init__.py:255 | the parent of a non-empty path is the path without its last component |
| TwigCommands.StoredVersion | src/nest/twigs/__init__.py:249-261 | reading the stored version fails, naming the file, exactly when the version file beside the twig's files is missing |
| TwigCommands.SetStoredVersion | src/nest/twigs/__init__.py:263-266 | writing the version creates the version file and leaves every other file as it was |
| TwigCommands.StoredVersionRoundTrip | src/nest/twigs/__init__.py:249-266 | reading after writing gives back the written version, stripped of surrounding white space |
| TwigCommands.DownloadUpdates | src/nest/twigs/__init__.py:801-807 | a downloadable twig lists no update without a latest version, fails when the stored version cannot be read, and otherwise lists the latest version exactly when it differs from the stored one |
| TwigCommands.DownloadApply | src/nest/twigs/__init__.py:809-814 | applying does nothing without a latest version; otherwise it removes, stores the latest version and installs last |
| TwigCommands.ApplyStoresVersion | src/nest/twigs/__init__.py:809-814 | the files after applying are the files with the latest version stored |
| TwigCommands.ApplyThenNoUpdates | src/nest/twigs/__init__.py:801-814 | after applying a (white-space free) latest version, listing updates finds none |
| TwigFiles.SubmoduleDirs | src/nest/twigs/__init__.py:317-323 | the directories listed are exactly the child directories configured as submodules |
| TwigFiles.FileNames | src/nest/twigs/__init__.py:324-326 | the files listed are exactly the child regular files of the directory being walked |
| TwigFiles.WalkSound | src/nest/twigs/__init__.py:315-327 | every path the walk lists lies below the walked directory and is reachable through non-submodule directories |
| TwigFiles.DeeperSound | src/nest/twigs/__init__.py:327 | every path found by descending into non-submodule directories is reachable |
| TwigFiles.WalkComplete | src/nest/twigs/__init__.py:315-327 | every reachable file and submodule directory is listed by the walk |
| TwigFiles.DeeperComplete | src/nest/twigs/__init__.py:327 | a path reachable through a non-submodule child directory is found by descending into it |
| TwigFiles.Files | src/nest/twigs/__init__.py:298-329 | the files of a twig are sorted, empty without a source or when another twig copies the same source, and otherwise a permutation of the walk |
| TwigFiles.FilesListed | src/nest/twigs/__init__.py:298-329 | a relative path is among a twig's files exactly when it is a file or submodule directory reachable from its source |
| Twigs.CheckIsConjunction | src/nest/twigs/__init__.py:155-163 | the chained checker answers the conjunction of the checkers, runs them in registration order and stops after the first one that fails |
| Twigs.RunAllInOrder | src/nest/twigs/__init__.py:165-196 | calling the closure that the preparer, completer or remover decorators compose (`previous(); f(me)`) runs every registered callback once, in registration order |
| Twigs.ConcatAppend | src/nest/twigs/__init__.py:198-206 | appending an update lister appends its updates to the list |
| Twigs.ListUpdatesIsConcat | src/nest/twigs/__init__.py:198-206 | the chained update lister returns the concatenation of every lister's updates in registration order |
| Twigs.ApplyUpdatesIsConcat | src/nest/twigs/__init__.py:208-216 | the chained update applier returns the concatenation of every applier's instructions, or nothing when that is empty |
| Twigs.InstructionsAreAnswers | src/nest/twigs/__init__.py:208-216 | when no applier has instructions, the chain has none |
| Twigs.IndicesNamedMeaning | src/nest/twigs/__init__.py:272-278 | the twigs found for a set of names are exactly the registered twigs carrying one of those names |
| Twigs.Dependencies | src/nest/twigs/__init__.py:268-290 | resolved dependencies are registered twigs |
| Twigs.DependenciesMeaning | src/nest/twigs/__init__.py:268-290 | resolving fails exactly when some dependency name is not registered, reporting the set of unmet names and every registered name; on success every resolved twig is a dependency and every dependency name is resolved |
| Twigs.AlternativeStep | src/nest/twigs/__init__.py:345-348 | `alternative_available` scans the registered twigs in order, skipping those that do not provide the name |
| Twigs.AlternativeFound | src/nest/twigs/__init__.py:345-348 | an alternative is reported available only when some twig providing the name is enabled |
| Twigs.AlternativeNoneStep | src/nest/twigs/__init__.py:345-348 | when no alternative is found, the first twig considered is disabled if it provides the name, and no alternative is found among the rest |
| Twigs.AlternativeNone | src/nest/twigs/__init__.py:345-348 | an alternative is reported unavailable only when every twig providing the name is disabled |
| Twigs.AllDependenciesStep | src/nest/twigs/__init__.py:351-353 | each dependency is checked in turn: enabled, or else an enabled alternative provider |
| Twigs.AllDependenciesMeaning | src/nest/twigs/__init__.py:351-353 | all dependencies hold when each is enabled or has an enabled provider; they fail when some dependency is disabled and all of its providers are too |
| Twigs.EnabledStep | src/nest/twigs/__init__.py:341-353 | a twig is enabled when it is not disabled (or explicitly enabled) by the configuration and its dependencies hold; unmet dependencies are an error |
| Twigs.EnabledWhenNotAllowed | src/nest/twigs/__init__.py:349-350 | a twig the configuration's allow rule refuses is not enabled, whatever its dependencies |
| Twigs.DisabledByConfiguration | src/nest/twigs/__init__.py:349-350 | a twig listed under `disable` and not under `enable` is not enabled |
| Twigs.EnabledTrue | src/nest/twigs/__init__.py:341-353 | an enabled twig is allowed by the configuration and each of its dependencies is enabled or provided by an enabled twig |
| Twigs.EnabledFalse | src/nest/twigs/__init__.py:341-353 | an allowed twig that is not enabled has a dependency that is disabled along with all of its providers |
| Twigs.Registry.constructor | src/nest/twigs/__init__.py:64-65 | the registry starts without twigs |
| Twigs.Registry.Register | src/nest/twigs/__init__.py:78-108 | registering a name already taken fails and changes nothing; otherwise the twig is appended with default callbacks, no provided names, no cached presence, and copies files only when no earlier twig shares its source |
| Twigs.Registry.Decorate | src/nest/twigs/__init__.py:149-216 | a decorator appends its callback to the matching chain of that twig only |
| Twigs.Registry.Depends | src/nest/twigs/__init__.py:218-224 | adds the other twig's name to the dependency names |
| Twigs.Registry.Provides | src/nest/twigs/__init__.py:226-233 | adds a provided name |
| Twigs.Registry.Present | src/nest/twigs/__init__.py:355-364 | a cached presence is returned without running anything; otherwise the checker chain runs, its answer is cached and returned |
| Twigs.Registry.Install | src/nest/twigs/__init__.py:387-393 | runs the installer and forgets the cached presence |
| Twigs.Registry.RunChain | src/nest/twigs/__init__.py:395-414 | `prepare`, `complete` and `remove` run every callback of their chain in order and change no twig |
| Twigs.Registry.Updates | src/nest/twigs/__init__.py:366-372 | lists the concatenated updates of the chain, running each lister once |
| Twigs.Registry.Update | src/nest/twigs/__init__.py:416-424 | returns the concatenated instructions of the chain, running each applier once |
| Configuration.SplitHeader | src/nest/twigs/configuration.py:180-185 | a section header without `::` is the stripped header with condition `True` |
| Configuration.SplitHeaderAtFirst | src/nest/twigs/configuration.py:180-185 | a header is split at its first `::` into the stripped section name and the stripped condition |
| Configuration.NormalizeInto | src/nest/twigs/configuration.py:187-189 | entry keys are normalised into a table that never holds a key twice |
| Configuration.NormalizeLastWins | src/nest/twigs/configuration.py:187-189 | for every key, the value of the last entry whose key normalises to it is the one stored, whatever came before |
| Configuration.NormalizeMissing | src/nest/twigs/configuration.py:187-189 | a key that no entry normalises to keeps what the table held before |
| Configuration.NormalizeAll | src/nest/twigs/configuration.py:187-189 | after normalising, every key holds the value of the last entry normalising to it, and every other key is unchanged |
| Configuration.SectionEntries | src/nest/twigs/configuration.py:186-189 | a section's table has distinct keys; a key holds the value of the last raw entry that normalises to it (an entry without value holding `None`) and is absent when no entry normalises to it |
| Configuration.ExtractSection | src/nest/twigs/configuration.py:179-189 | a section fails exactly when its condition does not compile; otherwise its name is the header's section part (not normalised) and its entries are the normalised table `SectionEntries` of the raw entries |
| Configuration.InsertAtStores | src/nest/twigs/configuration.py:150-157 | after updating the table reached by following the dotted section name, each entry is found under the section path followed by its key |
| Configuration.ExtractValues | src/nest/twigs/configuration.py:139-159 | the loop over a file's sections computes the reference fold `ExtractFrom` |
| Configuration.FalseSectionDropped | src/nest/twigs/configuration.py:155 | a section whose condition evaluates falsy adds nothing |
| Configuration.TrueSectionStored | src/nest/twigs/configuration.py:155-157 | each entry of a section whose condition evaluates truthy is found under the section's dotted path |
| Configuration.MergedStep | src/nest/twigs/configuration.py:97-103 | merging walks the new entries in order, each merged into the table built so far |
| Configuration.Merge | src/nest/twigs/configuration.py:97-103 | the merging loop computes the reference function `Merged` |
| Configuration.MergeValue | src/nest/twigs/configuration.py:99-102 | a table is merged recursively into the old value under its key, any other value replaces it |
| Configuration.MergedKey | src/nest/twigs/configuration.py:97-103 | after a merge, a key of the new entries holds the merge of the old and new value, and every other key keeps its old value |
| Configuration.EnvEntries | src/nest/twigs/configuration.py:107-111 | building the `env` section fails exactly when some variable name is empty (its first character does not exist) |
| Configuration.EnvEntriesContent | src/nest/twigs/configuration.py:107-111 | the `env` section holds every variable not starting with `_`, with its value, and no other |
| Configuration.FactMap | src/nest/twigs/configuration.py:139-159 | the conditions are evaluated over exactly the variables passed in |
| Configuration.Load | src/nest/twigs/configuration.py:82-127 | loading the configuration computes the reference function `Loaded` |
| Configuration.ReservedKept | src/nest/twigs/configuration.py:115-125 | loading the files never changes the `env` and `submodules` sections |
| Configuration.MergeSectionsKeepsReserved | src/nest/twigs/configuration.py:120-125 | merging one file's sections leaves `env` and `submodules` as they were |
| Configuration.ReservedRejected | src/nest/twigs/configuration.py:121-123 | a file defining a section `env` or `submodules` is rejected |
| Configuration.LoadedEnv | src/nest/twigs/configuration.py:107-127 | a loaded configuration holds the filtered variables under `env` and the submodule paths under `submodules` |
| Configuration.MakeContainer | src/nest/twigs/configuration.py:10-15 | a container keeps its path and holds no values when given none; otherwise each key holds the value of the last given entry normalising to it, and keys nothing normalises to are absent |
| Configuration.Lookup | src/nest/twigs/configuration.py:33-47 | looking up a key normalises it; a missing key gives an empty container one path level deeper, a table gives the container `MakeContainer` builds from it at that path, and any other value is wrapped as a `Value` |
| Configuration.GetItemIsGetAttr | src/nest/twigs/configuration.py:129-134 | subscripting a configuration is attribute access on the normalised key |
| Configuration.MissingKey | src/nest/twigs/configuration.py:17-47 | the container for a missing key contains nothing, iterates over nothing, returns a given default when called and otherwise its (absent) values |
| Configuration.StoredValueIgnoresDefault | src/nest/twigs/configuration.py:60-61 | a stored plain value is returned when called, whatever default is given |
| Configuration.ContainsIffFound | src/nest/twigs/configuration.py:29-31 | `k in container` exactly when the normalised key is stored |
| Orchestrator.ClaimsOf | src/nest/__main__.py:48-51 | one claim `(twig, path)` per user file of the twig, in order |
| Orchestrator.FileTableStep | src/nest/__main__.py:52-54 | one claim appends the twig's name to the list stored for its path |
| Orchestrator.FileTableClaimants | src/nest/__main__.py:47-54 | `files` maps each claimed path to exactly the twigs claiming it, in claim order, and holds no unclaimed path |
| Orchestrator.FileTableUnique | src/nest/__main__.py:47-54 | `files` holds each path once |
| Orchestrator.UniqueTail | src/nest/__main__.py:56-59 | a dictionary without repeated keys stays so without its first entry, which is not repeated later |
| Orchestrator.DuplicatesGet | src/nest/__main__.py:56-59 | the duplicates hold a path exactly when `files` lists more than one twig for it, with the same twigs |
| Orchestrator.DuplicatesMeaning | src/nest/__main__.py:46-59 | a path is a duplicate exactly when more than one claim of the enabled twigs names it, and it lists those claimants |
| Orchestrator.DuplicatesExist | src/nest/__main__.py:46-61 | there are duplicates exactly when some path has more than one claimant |
| Orchestrator.Described | src/nest/__main__.py:64 | each duplicate is described as `path for twigs a, b` |
| Orchestrator.Initialize | src/nest/__main__.py:46-65 | initialising fails exactly when some user file is claimed more than once by enabled twigs, with the message naming every such file and its twigs |
| Orchestrator.CollectFiles | src/nest/__main__.py:47-54 | the loop filling `files` computes the reference function `FileTable` |
| Orchestrator.Indices | src/nest/__main__.py:72 | the list comprehension over `TWIGS` keeps only twigs whose flag is set |
| Orchestrator.IndicesComplete | src/nest/__main__.py:72 | every twig whose flag is set is kept, in registration order |
| Orchestrator.Reversed | src/nest/__main__.py:107 | `reversed` lists the same items last first |
| Orchestrator.Negated | src/nest/__main__.py:72 | the disabled twigs are those not enabled |
| Orchestrator.UnlinkSteps | src/nest/__main__.py:75-79 | one unlink per file, in order |
| Orchestrator.LinkSteps | src/nest/__main__.py:100-105 | one link per file, in order |
| Orchestrator.WidestName | src/nest/__main__.py:83-86 | the width is the length of the longest enabled twig name, and there is none (so `max` raises) exactly when no twig is enabled |
| Orchestrator.BuildWithoutEnabledTwigsRaises | src/nest/__main__.py:71-86 | `BuildAsWritten`, `build` as written: as written, `build` with every twig disabled raises after tearing down the twigs, although nothing was left to install |
| Orchestrator.BuildWithEnabledTwigs | src/nest/__main__.py:68-108 | as written, `build` with some twig enabled does not raise and performs the corrected trace |
| Orchestrator.PadRight | src/nest/__main__.py:83-86 | a name padded to a width at least its length fills exactly that width and starts with the name |
| Orchestrator.HeadersAligned | src/nest/__main__.py:83-95 | every enabled twig's header puts ` - ` at the width of the longest name; the formatted header is the bold name followed by the same padding and description as the plain one, so the plain length given to the section is right |
| Orchestrator.HeaderPadding | src/nest/__main__.py:83-94 | the bold and the plain header pad a name by the same spaces |
| Orchestrator.TwigsOfAppend | src/nest/__main__.py:68-108 | the steps of one kind in a concatenation are those of each part, in order |
| Orchestrator.TwigsOfNone | src/nest/__main__.py:68-108 | a phase without steps of a kind contributes none |
| Orchestrator.NamesAt | src/nest/__main__.py:81 | the names of the selected twigs, in the selection's order |
| Orchestrator.PhaseAppend | src/nest/__main__.py:68-108 | two stretches of steps of the same kinds form one |
| Orchestrator.TeardownRemoves | src/nest/__main__.py:72-79 | a disabled twig is removed once and otherwise its files are only unlinked |
| Orchestrator.TeardownsRemove | src/nest/__main__.py:71-79 | the teardown removes exactly the given twigs, in order, and only removes and unlinks |
| Orchestrator.AbsentWithin | src/nest/__main__.py:96 | the twigs not present are registered twigs |
| Orchestrator.SetupInstalls | src/nest/__main__.py:96-105 | an enabled twig is installed once unless present and otherwise its files are only linked |
| Orchestrator.SetupsInstall | src/nest/__main__.py:88-105 | the setup installs exactly the given twigs that are not present, in order, and only installs and links |
| Orchestrator.CompletionsComplete | src/nest/__main__.py:107-108 | the completion phase completes exactly the given twigs, in order |
| Orchestrator.PhasesOrdered | src/nest/__main__.py:68-108 | in three phases run one after another, no removal or unlinking follows a later phase's step and nothing but completions follows a completion |
| Orchestrator.TraceProjections | src/nest/__main__.py:68-108 | the removals, installations and completions of the whole trace are those of their own phase |
| Orchestrator.TraceRemovals | src/nest/__main__.py:70-72 | the removals of the whole trace are those of the teardown phase, since the other phases remove nothing |
| Orchestrator.TraceInstallations | src/nest/__main__.py:87-98 | the installations of the whole trace are those of the setup phase |
| Orchestrator.TraceCompletions | src/nest/__main__.py:107-108 | the completions of the whole trace are those of the completion phase |
| Orchestrator.BuildProjections | src/nest/__main__.py:68-108 | `BuildTrace`, the corrected `build` as the trace of its steps: `build` removes exactly the disabled twigs, last registered first; installs exactly the enabled twigs that are not present, in registration order; and completes exactly the enabled twigs, last registered first |
| Orchestrator.BuildPhases | src/nest/__main__.py:68-108 | every removal and unlinking comes before every installation and linking, and every completion after them all |
| Orchestrator.TraceKind | src/nest/__main__.py:68-108 | the steps of a kind that only one phase has are that phase's, wherever it stands |
| Orchestrator.Build | src/nest/__main__.py:68-108 | the three loops of `build` produce the reference trace `BuildTrace` |
| Orchestrator.RemoveDisabled | src/nest/__main__.py:71-79 | the loop over the disabled twigs produces their teardowns |
| Orchestrator.InstallEnabled | src/nest/__main__.py:81-105 | the loop over the enabled twigs produces their setups |
| Orchestrator.CompleteEnabled | src/nest/__main__.py:107-108 | the final loop completes the enabled twigs in the given order |
| Orchestrator.TeardownsStep | src/nest/__main__.py:72-79 | one more disabled twig appends its teardown |
| Orchestrator.SetupsStep | src/nest/__main__.py:88-105 | one more enabled twig appends its setup |
| Orchestrator.FileSteps | src/nest/__main__.py:75-79 | the loop over a twig's files links or unlinks each, in order |
| Commands.LinksTo | src/nest/__main__.py:230-264 | every pair kept is a listed file that is a symbolic link into the repository, with its link target |
| Commands.LinksToComplete | src/nest/__main__.py:230-264 | every listed file that links into the repository is kept |
| Commands.Clean | src/nest/__main__.py:111-132 | `clean` ends exactly as `CleanAll` says: the file system and the replies left, or the first error; it only deletes listed links into the repository whose target is no longer a file and whose removal the system allows; with `force` it deletes every such link; a refused removal leaves the link and the loop goes on; without a terminal and without `force` it deletes nothing |
| Commands.CleanLink | src/nest/__main__.py:116-132 | one path ends as `CleanStep` says; a link whose target is still a file is left alone with nothing read or printed; a stale link is deleted when forced, and on a terminal when the first selecting reply is "yes"; it is kept on "no"; the end of input is the only error; a refused removal is logged "Failed to remove file!" last; without a terminal the link is kept, no reply is read and "Not removing as we are not running in a terminal." is logged last |
| Commands.CleanAllNext | src/nest/__main__.py:116-132 | the run of `clean` from one path on is that path's step, then the run from the next path, or the step's error |
| Commands.CleanAllRemoves | src/nest/__main__.py:116-132 | `CleanAll`, the reference for the whole of `clean`, only removes paths, and each one it removes is a listed link into the repository whose removal was not refused |
| Commands.CleanAllOffline | src/nest/__main__.py:123-132 | without a terminal and unforced, `clean` changes no file and reads no reply |
| Commands.CleanAllConfirmed | src/nest/__main__.py:123-129 | a stale link whose question is answered "yes", and whose removal is not refused, is gone when `clean` ends |
| Commands.CleanedStep | src/nest/__main__.py:116-132 | each path of `clean` keeps the loop's invariant: only stale, unrefused links among the paths seen so far were removed |
| Commands.AnyNamedMeaning | src/nest/__main__.py:147-148 | `any(d.name == name for d in deps)` holds exactly when some dependency has that name |
| Commands.DependsOnMeaning | src/nest/__main__.py:144-148 | a twig depends on a name exactly when the name is among its dependency names, once its dependencies resolve; otherwise the resolution error is raised |
| Commands.DependentsWithin | src/nest/__main__.py:144-148 | the dependents found are registered twigs |
| Commands.DependentsFail | src/nest/__main__.py:144-148 | listing dependents succeeds exactly when the dependencies of every registered twig resolve |
| Commands.DependentsError | src/nest/__main__.py:144-148 | a failure is the resolution error of some registered twig |
| Commands.DependentsMembers | src/nest/__main__.py:144-148 | `Dependents`, the model of the dependents search: the dependents of a twig are exactly the registered twigs listing its name as a dependency |
| Commands.Leaves | src/nest/__main__.py:144-152 | the leaves of a node are registered twigs |
| Commands.Forest | src/nest/__main__.py:160-161 | one tree per root twig |
| Commands.ShapedAt | src/nest/__main__.py:160-161 | the k-th tree of a forest belongs to the k-th root and is linked |
| Commands.DependencyTreeShape | src/nest/__main__.py:144-161 | `DependencyTree`, the model of the tree built by `dependencies`: a tree has its twig at the root, every child joined to its parent by a dependency edge (reversed with `--invert`), and the root's children are its leaves in order |
| Commands.NodeLinked | src/nest/__main__.py:144-152 | a node whose children are all joined to it and linked is linked |
| Commands.ChildrenLinked | src/nest/__main__.py:144-152 | the subtrees built for a twig's leaves are joined to it and linked |
| Commands.ForestShape | src/nest/__main__.py:160-161 | every tree of the forest is its root twig's linked tree |
| Commands.LeafEdge | src/nest/__main__.py:144-152 | every leaf of a twig is a dependency of it, or with `--invert` a dependent |
| Commands.Range | src/nest/__main__.py:140 | the indices of all registered twigs |
| Commands.Roots | src/nest/__main__.py:139-140 | the selected twigs are the roots when any are given; otherwise every registered twig, sorted by name |
| Commands.ShowDependencies | src/nest/__main__.py:135-161 | `dependencies` prints the title for the direction followed by the lines of each root's tree; a dependency error is returned instead |
| Commands.ShowTrees | src/nest/__main__.py:160-161 | the loop over the roots prints the lines of each tree in order |
| Commands.ShowTree | src/nest/__main__.py:161 | one tree appends its lines to the output |
| Commands.ForestLinesStep | src/nest/__main__.py:160-161 | the lines of one more tree follow those of the trees before it |
| Commands.ForestStep | src/nest/__main__.py:160-161 | one more root adds its tree, or its error |
| Commands.ForestStops | src/nest/__main__.py:160-161 | once a tree fails, the whole forest fails with that error |
| UpdateCommand.EntriesMeaning | src/nest/__main__.py:167-178 | `Entries`, the model of `updates_for_twigs`: `updates_for_twigs` holds exactly the enabled twigs whose updates are not empty, each with its updates |
| UpdateCommand.NothingListed | src/nest/__main__.py:169-180 | no twig has updates exactly when listing shows no twig section |
| UpdateCommand.NothingApplied | src/nest/__main__.py:185-193 | no twig has updates exactly when applying shows no twig section |
| UpdateCommand.EntryNamesUnique | src/nest/__main__.py:168-178 | with unique twig names, no two entries share a name |
| UpdateCommand.CommitMessageAnyOrder | src/nest/__main__.py:199-211 | the commit message is the same for any arrival order of the same entries, since they are sorted by name |
| UpdateCommand.MessageAnyOrder | src/nest/__main__.py:199-211 | whatever order the parallel listers finish in, the commit message is that of the entries in registration order |
| UpdateCommand.MessageMentions | src/nest/__main__.py:201-208 | `CommitMessage`, the model of the commit message: the message holds, for each twig that listed updates, a paragraph of its name followed by one bullet line per update |
| UpdateCommand.ParagraphsAt | src/nest/__main__.py:202-205 | the j-th paragraph is the j-th entry's name followed by its bullet lines |
| UpdateCommand.ParagraphsLength | src/nest/__main__.py:202-205 | one paragraph per entry |
| UpdateCommand.TitleShown | src/nest/ui/__init__.py:327-333 | a title queued last is printed after the headers queued before it, followed by what triggered it |
| UpdateCommand.ListTwig | src/nest/__main__.py:179-183 | a twig without updates shows nothing, not even its header; otherwise the queued headers, its header and one item per update |
| UpdateCommand.ListTwigAt | src/nest/__main__.py:174-183 | the twig at `k` runs its listers only when enabled, gets an entry only when it has updates, and adds its section after those of the twigs before it |
| UpdateCommand.ListStep | src/nest/__main__.py:174-183 | one round of the listing loop extends the runs, the entries and the lines shown by those of the next twig |
| UpdateCommand.ListTwigs | src/nest/__main__.py:174-183 | the listing loop runs each enabled twig's listers once, in order, collects their entries and shows their sections |
| UpdateCommand.ListAll | src/nest/__main__.py:167-183 | listing runs the listers of every enabled twig once, collects the entries, and shows the title and the twig sections only when some twig has updates |
| UpdateCommand.ApplyTwig | src/nest/__main__.py:189-193 | updating a twig shows its section at once with the instructions its appliers return, if any, and runs each applier once |
| UpdateCommand.ApplyTwigAt | src/nest/__main__.py:188-193 | the twig at `k` is updated exactly when it is enabled and has updates, after the twigs before it |
| UpdateCommand.ApplyStep | src/nest/__main__.py:188-193 | one round of the applying loop extends the runs and the lines shown by those of the next twig |
| UpdateCommand.ApplyTwigs | src/nest/__main__.py:188-193 | the applying loop updates each enabled twig with updates once, in order, in its own section |
| UpdateCommand.ApplyAll | src/nest/__main__.py:185-193 | applying prints an empty line, then updates every enabled twig with updates in its own section under the title, which is shown only if some twig has updates |
| UpdateCommand.Update | src/nest/__main__.py:164-213 | `update` lists (and with `apply` applies) the updates as above and, with `apply`, commits with the message built from the listed updates sorted by twig name |
| Ui.HeaderLines | src/nest/ui/__init__.py:328-331 | one line per queued header, each indented to the level it was queued at |
| Ui.HeaderLinesAppend | src/nest/ui/__init__.py:328-331 | a header queued later is printed after the earlier ones |
| Ui.HeaderFitsWidth | src/nest/ui/__init__.py:254-257 | a header shorter than the width is shown as it is; a longer one is cut so that with the ellipsis it fills the width exactly, followed by the colour reset |
| Ui.SectionWithoutTextPrintsNone | src/nest/ui/__init__.py:254-263 | as written, a section opened without a text logs (or queues) a line reading `None` |
| Ui.Lowered | src/nest/ui/__init__.py:127 | the options lower-cased, one for one |
| Ui.Matches | src/nest/ui/__init__.py:131-134 | the candidates for a reply are exactly the options it begins, in ascending order |
| Ui.AnswerMeaning | src/nest/ui/__init__.py:129-136 | a reply selects option `i` exactly when it is not empty and `i` is the only option it begins |
| Ui.QueryResult | src/nest/ui/__init__.py:126-138 | the answer of `query` on a terminal is one of the options |
| Ui.QueryRest | src/nest/ui/__init__.py:126-138 | each question consumes at least one reply |
| Ui.FirstSelectsAnswers | src/nest/ui/__init__.py:126-138 | when reply `k` is the first to select an option, `query` answers that option |
| Ui.AnswersFirstSelects | src/nest/ui/__init__.py:126-138 | when `query` answers an option, some reply selects it and no earlier reply selects anything |
| Ui.QueryAnswers | src/nest/ui/__init__.py:126-138 | `query` answers `i` exactly when some reply selects `i` and no reply before it selects anything |
| Ui.WrittenPromptGrows | src/nest/ui/__init__.py:126-128 | as written, the `n`-th repetition of a question shows the prompt followed by `n + 1` copies of the options |
| Ui.RelinkIsLink | src/nest/ui/__init__.py:26-114 | unlinking the target and then linking it is the same as linking it |
| Ui.RowLinesNode | src/nest/ui/__init__.py:157-169 | a node below the root is printed wrapped under its two indentations |
| Ui.LayoutRows | src/nest/ui/__init__.py:153-177 | the root is the first row, alone at level 0 |
| Ui.TreeLinesRoot | src/nest/ui/__init__.py:155-156 | the root row is logged as it is |
| Ui.TreeLinesStep | src/nest/ui/__init__.py:153-177 | the lines of the rows are those of each row in turn |
| Ui.Console.constructor | src/nest/ui/__init__.py:19-23 | the console starts at level 0 with no queued header and nothing printed |
| Ui.Console.Log | src/nest/ui/__init__.py:320-333 | `log` prints the queued headers at their levels, empties the queue, then prints the line at the current level |
| Ui.Console.Print | src/nest/ui/__init__.py:336-394 | `_print` prints the text wrapped, both indentations placed after the current level's |
| Ui.Console.Echo | src/nest/ui/__init__.py:361 | the built-in `print` adds its line as it is, past the queue and the indentation |
| Ui.Console.BeginIndent | src/nest/ui/__init__.py:224-231 | entering `indent` raises the level by one and changes nothing else |
| Ui.Console.EndIndent | src/nest/ui/__init__.py:232-233 | leaving `indent` lowers the level by one and changes nothing else |
| Ui.Console.BeginSection | src/nest/ui/__init__.py:236-265 | entering a section raises the level; its (possibly cut) header is logged at once or queued; a section without a text only indents |
| Ui.Console.EndSection | src/nest/ui/__init__.py:265-268 | leaving a section lowers the level and drops its delayed header if nothing was logged under it |
| Ui.Console.UnusedDelayedSection | src/nest/ui/__init__.py:247-268 | a delayed section under which nothing is logged leaves no trace |
| Ui.Console.LoggedDelayedSection | src/nest/ui/__init__.py:247-268 | a delayed header is printed just before the first line logged under it, one level up |
| Ui.Console.Query | src/nest/ui/__init__.py:117-138 | without a terminal `query` answers `None` and reads nothing; on a terminal it asks with the same prompt until a reply selects an option, printing a hint after each non-empty reply that does not, and fails when the input runs out |
| Ui.Console.Ask | src/nest/ui/__init__.py:127-138 | one round prints the prompt, reads one lower-cased reply, and prints a hint when a non-empty reply selects nothing |
| Ui.Console.Link | src/nest/ui/__init__.py:26-92 | a target already linking to the file is left alone and nothing is printed or read; otherwise the file is logged first (after any delayed headers); a dangling file is then an error; a free target is linked reading nothing more; an occupied one goes through the overwrite dialogue, whose replies are consumed and whose rounds are printed as `ConflictOut` states, and is replaced by the link exactly when the dialogue ends with yes, kept on no or without a terminal |
| Ui.Console.Overwrite | src/nest/ui/__init__.py:57-90 | the overwrite loop ends with the decision `ConflictDecision` on the replies, prints the rounds `ConflictOut` describes and leaves the replies `ConflictRest` describes, changing no file |
| Ui.Console.OverwriteRound | src/nest/ui/__init__.py:58-90 | one question either ends the dialogue with its decision, output and leftover replies, or (on `diff`) logs "Failed to read file." and leaves a shorter input from which the dialogue reaches the same end |
| Ui.EndRound | src/nest/ui/__init__.py:61-67 | a round answered with yes or no, or ended by the input running out, is the whole dialogue: yes overwrites, no keeps, and nothing more is printed or read |
| Ui.DiffRound | src/nest/ui/__init__.py:68-90 | a `diff` round prints its question and the logged failure, and the dialogue then continues on the remaining replies to the same decision |
| Ui.DanglingRaisesNameError | src/nest/ui/__init__.py:50-54 | as written, a dangling file raises a `NameError` for `NestException`, not the intended exception |
| Ui.Console.Unlink | src/nest/ui/__init__.py:95-114 | only a link to the twig's own file is removed, and the removal is logged relative to the user source when below it and absolute otherwise |
| Ui.Console.Tree | src/nest/ui/__init__.py:141-177 | `tree` logs the root and prints every other node wrapped under its connector, in pre-order |
| Ui.Console.ShowRows | src/nest/ui/__init__.py:170-175 | the rows below the root are printed in order |
| Ui.Console.ShowRowAt | src/nest/ui/__init__.py:153-175 | printing the row at `k` moves its lines from what remains to print into the output |
| Ui.Console.ShowNode | src/nest/ui/__init__.py:157-169 | one node is printed under its indentations |
| TreeLayout.Items | src/nest/ui/__init__.py:153-177 | the nodes of the rows, one per row, in order |
| TreeLayout.ItemsAppend | src/nest/ui/__init__.py:170-175 | the nodes of consecutive rows are those of each part |
| TreeLayout.DisplayItems | src/nest/ui/__init__.py:153-175 | `Display`, the model of `display`: `display` shows the node and then its descendants, in pre-order |
| TreeLayout.ChildrenItems | src/nest/ui/__init__.py:170-175 | the loop over the children shows them and their descendants in pre-order |
| TreeLayout.DisplayShape | src/nest/ui/__init__.py:153-175 | `display` shows the node first, with its level, whether it is last and whether it is a leaf; each descendant is deeper, and it carries the node's level among its stops exactly when the node is not last |
| TreeLayout.ChildrenShape | src/nest/ui/__init__.py:170-175 | the rows of the children are never above the children's level and keep the ancestors' stops |
| TreeLayout.LayoutShape | src/nest/ui/__init__.py:177 | `tree` shows every node in pre-order, the root alone at level 0 and marked last, so level 0 is never a stop |
| TreeLayout.AtLevel | src/nest/ui/__init__.py:153-175 | the rows of one level, in order |
| TreeLayout.AtLevelAppend | src/nest/ui/__init__.py:153-175 | the rows of a level in consecutive rows are those of each part |
| TreeLayout.AtLevelDeeper | src/nest/ui/__init__.py:153-175 | rows all deeper than a level contribute none at it |
| TreeLayout.HeadAtLevel | src/nest/ui/__init__.py:153-175 | of the rows `display` gives a node, only the node's own row is at the node's level |
| TreeLayout.SiblingRows | src/nest/ui/__init__.py:170-175 | the rows at the children's level are the children, in order; only the last one is marked last, and one is marked a leaf exactly when it has no children |
| TreeLayout.Columns | src/nest/ui/__init__.py:160-166 | the prefix has two characters per level |
| TreeLayout.Indents | src/nest/ui/__init__.py:158-168 | `FirstIndent` and `RestIndent`, the two indentations of a row: the `[2:]` slice drops the blank column of level 0; the first line gets the columns, `├─` or `└─` and the knob, later lines the columns and `│ ` or blanks, both `2 * level + 1` wide |
| TreeLayout.ColumnsAt | src/nest/ui/__init__.py:160-166 | column `i` shows `│` exactly when level `i` is a stop |
| Wrap.PyPrefix | src/nest/ui/__init__.py:376 | `w[:n]` is a prefix of `w`, exactly `n` long when `0 <= n <= len(w)` |
| Wrap.PySuffix | src/nest/ui/__init__.py:376 | `w[:n] + w[n:] == w` |
| Wrap.WrapWords | src/nest/ui/__init__.py:363-389 | the loop over a paragraph's words computes the reference fold `AfterWords` of the corrected printer |
| Wrap.WrapWord | src/nest/ui/__init__.py:365-389 | the loop body places one word as the corrected reference step `WordStep` does: added when it fits, otherwise the line is ended or the word cut |
| Wrap.PlaceWord | src/nest/ui/__init__.py:371-379 | the corrected cut, a loop that prints a piece of the word per line until the rest fits, computes the reference function `Place` |
| Wrap.AfterWordsStep | src/nest/ui/__init__.py:365-389 | one more word extends the fold by one step |
| Wrap.WrapBlock | src/nest/ui/__init__.py:358-394 | one paragraph, with its separating line, computes the reference step `BlockStep` |
| Wrap.WrapBlocks | src/nest/ui/__init__.py:358-394 | the loop over the paragraphs computes the reference fold `AfterBlocks` |
| Wrap.WrapNextBlock | src/nest/ui/__init__.py:358-394 | one round of the loop over the paragraphs advances the reference fold by one paragraph |
| Wrap.WrapText | src/nest/ui/__init__.py:336-394 | `_print`, corrected, prints the lines of the reference function `Lines` |
| Wrap.AfterBlocksStep | src/nest/ui/__init__.py:358-394 | one more paragraph extends the state by one step |
| Wrap.PlaceBounded | src/nest/ui/__init__.py:371-379 | the corrected cut prints only lines within the width and leaves a line within it, when the indentations leave room for a space and a character |
| Wrap.WordStepBounded | src/nest/ui/__init__.py:365-389 | when a word meets `StepFits`, no line printed by the step exceeds the width and the line being built stays within it |
| Wrap.AfterWordsBounded | src/nest/ui/__init__.py:365-389 | the same across all words of a paragraph |
| Wrap.BlockStepBounded | src/nest/ui/__init__.py:358-394 | the same across one paragraph, separating line included |
| Wrap.AfterBlocksBounded | src/nest/ui/__init__.py:358-394 | the same across all paragraphs |
| Wrap.LinesWithinColumns | src/nest/ui/__init__.py:341-347 | `Lines`, the printed lines of `_print` (`fixed` false: as written; true: corrected): the documented promise that no line is longer than `columns`: for the code as written when every word fits after either indentation, for the corrected printer whenever the indentations leave room |
| Wrap.FixedLinesFit | src/nest/ui/__init__.py:341-347 | the corrected printer keeps the promise for every text, however long its words |
| Wrap.PlaceKeepsWord | src/nest/ui/__init__.py:371-379 | the corrected cut loses nothing: its lines and the line it leaves, read back after the indentation and space, are the word, and earlier lines are kept |
| Wrap.WordsOfWord | src/nest/ui/__init__.py:358-365 | a single word without white space is one paragraph of one word |
| Wrap.OneWord | src/nest/ui/__init__.py:358-394 | a text of one word is printed as that word alone is placed after the first indentation |
| Wrap.WrittenCut | src/nest/ui/__init__.py:371-379 | as written, a single word too long for the first line is cut after `columns - len(first)` characters and printed after the indentation and a space; the rest follows on one line |
| Wrap.CutLineTooLong | src/nest/ui/__init__.py:371-377 | as written, the line holding a cut word is `columns + 1` long |
| Wrap.RemainderTooLong | src/nest/ui/__init__.py:376-393 | as written, the rest of a cut word is not cut again: a word longer than two lines leaves a second line longer than `columns` |
| Wrap.PlaceFirstLine | src/nest/ui/__init__.py:371-377 | the corrected cut's first line takes exactly the characters that fill the line |
| Wrap.CutLineFits | src/nest/ui/__init__.py:371-377 | reserving the space, the line holding a cut word is exactly `columns` long |
| Wrap.WordsOfTwo | src/nest/ui/__init__.py:365 | two words separated by a space are split into those two words |
| Wrap.BlockOfTwo | src/nest/ui/__init__.py:358 | two words separated by a space make one paragraph |
| Wrap.TwoWords | src/nest/ui/__init__.py:358-394 | a text of two words is printed as the two words are placed in turn |
| Wrap.RemainderLost | src/nest/ui/__init__.py:366-379 | as written, after an empty first indentation the rest of a cut word is dropped when a next word follows: the output is the cut piece and the next word |
| Wrap.WrittenNewLine | src/nest/ui/__init__.py:380-384 | as written, a word that does not fit after others ends the line, which is printed, and starts the next line after the indentation, uncut |
| Wrap.LongWordNotCut | src/nest/ui/__init__.py:371-394 | as written, a long word after another word is printed uncut on its own line after the second indentation, which exceeds `columns` whenever the word does not fit there |
| ShellUi.NoPadding | twigs/shell_utilities/files/.local/lib/python/ui/__init__.py:31-41 | the shell interface has no indentation: level 0 pads nothing |
| ShellUi.Terminal.constructor | twigs/shell_utilities/files/.local/lib/python/ui/__init__.py:7-8 | the terminal starts with an empty queue and nothing printed |
| ShellUi.Terminal.Queue | twigs/shell_utilities/files/.local/lib/python/ui/__init__.py:11-16 | `queue` appends the message to the queue and prints nothing |
| ShellUi.Terminal.Log | twigs/shell_utilities/files/.local/lib/python/ui/__init__.py:31-41 | `log` prints the queued messages in order, then the message, and empties the queue |
| ShellUi.Terminal.LogIfQueued | twigs/shell_utilities/files/.local/lib/python/ui/__init__.py:19-28 | with an empty queue nothing is printed; otherwise the queued messages are dropped unprinted and only the message is shown |
| ShellUi.Terminal.Print | twigs/shell_utilities/files/.local/lib/python/ui/__init__.py:132-189 | `_print` prints the wrapped lines and leaves the queue alone |
| ShellUi.Terminal.Tree | twigs/shell_utilities/files/.local/lib/python/ui/__init__.py:90-129 | `tree` prints whatever was queued, then the same lines as the main interface at level 0 |
| ShellUi.Terminal.ShowRow | twigs/shell_utilities/files/.local/lib/python/ui/__init__.py:105-127 | one row below the root is printed wrapped, with its tree indentation on the first line and the continuation indentation after |
| ShellUi.Terminal.ShowRows | twigs/shell_utilities/files/.local/lib/python/ui/__init__.py:105-127 | the rows below the root are printed wrapped, in order |
| ShellUi.Terminal.ShowRowAt | twigs/shell_utilities/files/.local/lib/python/ui/__init__.py:105-127 | printing the row at `k` moves its wrapped lines from what remains to print into the output |
| SystemPackages.CandidatesMeaning | twigs/system/__init__.py:154-159 | the providers considered are exactly the registered records that are enabled and claim the package, each once and in registration order |
| SystemPackages.ProviderNames | twigs/system/__init__.py:166 | the names listed in the error are the names of the candidate providers, one per candidate, in order |
| SystemPackages.ProviderMeaning | twigs/system/__init__.py:147-168 | `Provider`, the model of `_provider`: `_provider` returns the one enabled provider that claims the package (no other record claims it); it finds none exactly when no enabled record claims it; it fails exactly when two do, with an error that names the package and every claiming provider |
| SystemPackages.ListedWithoutValue | twigs/system/__init__.py:158-159 | a provider whose `packages` section lists the package without a value does not claim it |
| SystemPackages.PackageNameDefault | twigs/system/__init__.py:85 | the package name passed to the generic command is the twig's own name when `system.packages` has no entry for it, the stored value when the entry is a plain value, and again the twig's own name when the entry is a sub-table (`Container.__call__` returns the default) |
| SystemPackages.OperationsAgree | twigs/system/__init__.py:77-110 | `Install`, `IsInstalled` and `Remove`, the models of the installer, `is_installed` and the remover: installing, checking and removing a package fail exactly when the provider lookup fails; with no provider they use the generic command (the check looks up the binary when one is named); with a provider they all delegate to it, and removal runs only when the check says the package is installed |
| SystemPackages.Providers.constructor | twigs/system/__init__.py:29 | the provider list starts empty |
| SystemPackages.Providers.Provide | twigs/system/__init__.py:115-136 | registering a provider appends it to the end of the list and returns the twig unchanged |
| TerminalOverlay.DigitRun | twigs/terminal_overlay/__init__.py:13 | the `[0-9]+` group is the longest prefix of the text made of digits: all digits, and the character after it (if any) is not one |
| TerminalOverlay.DecimalRoundTrip | twigs/terminal_overlay/__init__.py:41-46 | reading back the decimal digits an index is written with gives that index (`int(str(n)) == n`) |
| TerminalOverlay.DigitRunStops | twigs/terminal_overlay/__init__.py:13 | the digit group stops at the first character that is not a digit |
| TerminalOverlay.ItemIndex | twigs/terminal_overlay/__init__.py:13 | the item `custom{n}/` written by the installer, and any key below it, matches the binding pattern with index `n` |
| TerminalOverlay.ItemKeysDistinct | twigs/terminal_overlay/__init__.py:46-48 | two keys written under `custom{a}/` and `custom{b}/` are the same path only when the indices and the key names are the same |
| TerminalOverlay.MaxIndexMeaning | twigs/terminal_overlay/__init__.py:39-44 | the largest index is at least every matching item's index and is the index of one of them; with no matching item the first free index is 1 |
| TerminalOverlay.KeepMeaning | twigs/terminal_overlay/__init__.py:72-75 | the bindings kept are exactly those whose name is not among the current names, in their original order, and all of them when no name is current |
| TerminalOverlay.KeepAllNamed | twigs/terminal_overlay/__init__.py:72-75 | when every binding's name is current, none is kept as missing |
| TerminalOverlay.CurrentNamesMeaning | twigs/terminal_overlay/__init__.py:69-71 | the current names are exactly the `name` keys read from the listed items |
| TerminalOverlay.MissingMeaning | twigs/terminal_overlay/__init__.py:52-54 | `Missing`, the model of `_list_missing`: a binding is missing exactly when no listed item stores its name; the missing ones keep the order of `BINDINGS`; the twig is installed exactly when every binding's name is stored in some listed item |
| TerminalOverlay.ApplyWritesAppend | twigs/terminal_overlay/__init__.py:45-49 | applying two runs of writes one after the other is applying their concatenation |
| TerminalOverlay.ApplyWritesListing | twigs/dconf/__init__.py:54-69 | writing keeps every listed item and lists every item written to |
| TerminalOverlay.ApplyWritesUntouched | twigs/dconf/__init__.py:54-69 | a key that no write touches keeps its value |
| TerminalOverlay.ApplyWritesLast | twigs/dconf/__init__.py:54-69 | a key holds the value of the last write to it |
| TerminalOverlay.InstallWritesAt | twigs/terminal_overlay/__init__.py:45-49 | the installer writes three keys per missing binding: its name, binding and command, under `custom{next_index + k}/` for the k-th missing binding |
| TerminalOverlay.WriteKeysDistinct | twigs/terminal_overlay/__init__.py:45-49 | no two writes of the installer go to the same key |
| TerminalOverlay.NameNotOverwritten | twigs/terminal_overlay/__init__.py:39-48 | an item whose index is below the next free index (or that has none) never has its name key overwritten by a new binding |
| TerminalOverlay.WrittenAt | twigs/terminal_overlay/__init__.py:45-49 | after the writes, each new item is listed and holds the fields of its binding |
| TerminalOverlay.WrittenKeeps | twigs/terminal_overlay/__init__.py:45-49 | the writes keep every listed item and every value that is not below a new item |
| TerminalOverlay.NameKept | twigs/terminal_overlay/__init__.py:39-48 | the name stored in an existing item is unchanged by installing |
| TerminalOverlay.InstallAboveExisting | twigs/terminal_overlay/__init__.py:39-44 | every index already listed is below the first index the installer writes to |
| TerminalOverlay.InstallListsNew | twigs/terminal_overlay/__init__.py:37-49 | installing lists one new item `custom{next_index + k}/` for each missing binding |
| TerminalOverlay.InstallPlacement | twigs/terminal_overlay/__init__.py:37-49 | installing writes each field (name, binding, command) of the k-th missing binding into item `custom{next_index + k}/` |
| TerminalOverlay.InstallKeeps | twigs/terminal_overlay/__init__.py:37-49 | installing keeps every listed item and every existing value outside the new items |
| TerminalOverlay.BindingNamesNonEmpty | twigs/terminal_overlay/__init__.py:16-34 | no binding has the empty name |
| TerminalOverlay.InstallStoresMissing | twigs/terminal_overlay/__init__.py:45-71 | after installing, each binding that was missing is among the current names |
| TerminalOverlay.InstallKeepsName | twigs/terminal_overlay/__init__.py:39-71 | after installing, a binding name already stored in a listed item is still among the current names |
| TerminalOverlay.InstallStoresName | twigs/terminal_overlay/__init__.py:45-75 | after installing, every binding's name is among the current names |
| TerminalOverlay.InstallCompletes | twigs/terminal_overlay/__init__.py:37-54 | `Installed`, the store the installer leaves: after installing, the checker reports the twig installed |
| TerminalOverlay.RemoveOnlyBindings | twigs/terminal_overlay/__init__.py:57-63 | removing only clears keys and items: a value that stays is unchanged, and a key or item that goes belongs to an item whose stored name was a binding's |
| TerminalOverlay.UnsetIsNoBindingName | twigs/terminal_overlay/__init__.py:61-62 | an unset name (read as empty text) is not a binding's name |
| TerminalOverlay.RemoveClears | twigs/terminal_overlay/__init__.py:57-63 | every handled item that is still listed after removal stores no binding's name |
| TerminalOverlay.RemoveUninstalls | twigs/terminal_overlay/__init__.py:52-63 | `Removed`, the store the remover leaves: after removing, every binding is missing and the checker reports the twig not installed |
| TerminalOverlay.Dconf.constructor | twigs/dconf/__init__.py:15-34 | the store starts with the given listing and values |
| TerminalOverlay.Dconf.ReadKey | twigs/dconf/__init__.py:37-51 | reading a key gives its stored value, or empty text when it is unset |
| TerminalOverlay.Dconf.WriteKey | twigs/dconf/__init__.py:54-69 | writing sets the key and lists its item, changing nothing else |
| TerminalOverlay.Dconf.ResetItem | twigs/dconf/__init__.py:72-83 | resetting an item clears the keys below it and removes it from the listing |
| TerminalOverlay.WriteFields | twigs/terminal_overlay/__init__.py:47-48 | the new store is the old one with the binding's fields written in order |
| TerminalOverlay.WriteBindings | twigs/terminal_overlay/__init__.py:45-49 | the new store is the old one with the installer's writes applied, from the given index on |
| TerminalOverlay.Install | twigs/terminal_overlay/__init__.py:37-49 | the new store is the installed store, which InstallPlacement, InstallListsNew, InstallKeeps and InstallCompletes describe |
| TerminalOverlay.Remove | twigs/terminal_overlay/__init__.py:57-63 | the new store is the removed store, which RemoveOnlyBindings and RemoveUninstalls describe |

## Left out

- Input and output: printing is the list of lines written, and reading is the list of replies still to come. Colours are only the escape sequences. Whether stdin is a tty is a parameter.
- Processes: `subprocess` calls (`Twig.run`, `run_progress`, `git` in `update`, `dconf`, `shutil.which`) become parameters or named actions. The progress bar (floating-point fractions) and the `stream` return of `Twig.run` are not modelled.
- `UpdateCommand.Update`: the result is the commit message; running `git add` and `git commit` with it is not modelled.
- Concurrency: `update` lists the twigs' updates in a thread pool. The model lists them in registration order, and `UpdateCommand.MessageAnyOrder` proves the commit message does not depend on the order in which they finish.
- Reflection: `caller_context`, `_extract_description`, `_extract_dependencies` and the module lookups of the decorators are not modelled. A twig's name, description and dependencies are given.
- Python's `ast` and `configparser`: the parse tree and the parsed sections are inputs.
- `Twigs.Enabled`: the recursion of `enabled` is bounded by a `fuel` argument in place of Python's recursion limit. Running out is the error `RecursionLimit`, so a cyclic dependency ends in that error rather than `RecursionError`.
- `Commands.DependencyTree`: the tree is built to a bounded `depth` for the same reason.
- `Commands.ShowDependencies`: on an error the contract states the error but not the trees printed before it.
- Set iteration order: `Twig.dependencies` builds a Python `set` and the unmet names are joined in the set's iteration order. The model returns the dependencies in registration order and the unmet names as a set, so the order of names in that message is not modelled.
- Directory walks: `os.walk` order is not modelled. The listing is the sorted result, as `Twig.files` returns it.
- `_links_to`: the `OSError`s raised by `is_symlink` and `readlink` are not modelled. A path is kept exactly when it is a symbolic link into the root.
- Relative link targets: a link's target is always an absolute path, a list of parts from the file system root. `link` compares the raw `readlink()` text with the absolute source (src/nest/ui/__init__.py:44-46), and `_links_to` tests the raw text against the root (src/nest/__main__.py:264). So in the program a relative link into the repository is never in sync and never cleaned. The model cannot express such a link.
- `twig.link` and `twig.unlink` are not part of this model; they are taken to create and remove the symbolic link.
- The diff at a link conflict: `src/nest/ui/__init__.py` (lines 1-10) does not import `difflib`, so choosing to show the differences always ends in the handler that logs "Failed to read file." (`Ui.Console.OverwriteRound`); no diff is ever printed, and the model prints none.
- `Ui.Lowered`: `Text.Lower` lower-cases only ASCII `A`-`Z`, while Python's `str.lower` maps every Unicode upper-case letter. Options and replies outside ASCII are compared as written.
- `Ui.Console.Ask`: the reply is lower-cased with the same ASCII-only `Text.Lower`; this also holds for `Ui.Console.Query` and `Ui.Console.Pick`.
- `Expression.Cmp`: the facts are booleans, integers, strings and `None`. Floats and `platforms.Version` values (the `version` and `python_version` facts of `src/nest/__main__.py`, lines 29-39) are not modelled, because `platforms` is not part of this model.
- dconf: `_run`'s `$DISPLAY` check and a missing `dconf` binary (both return the empty text) are not modelled. The order of `dconf list` is the order items were first written. A reset item leaves the listing.
- `SystemPackages.Claims`: when a provider's `packages` entry is a plain value rather than a section, `me.name in p.twig.c.packages` (twigs/system/__init__.py:158) iterates the wrapped value, since `Value` defines `__iter__` but neither `__contains__` nor `__getitem__` (src/nest/twigs/configuration.py:56-67). An entry without a value wraps `None`, so `in` raises `TypeError` for every package twig. A string value claims a name of one character, and the lookup `packages[me.name]` on line 159 then raises `TypeError`. The model treats every plain value as claiming nothing, so these `TypeError`s are not modelled.
- `downloadable`: its installer (the web download and the copy to the target), its checker and its remover act on the network and on target paths and are not modelled. The update lister and applier are modelled, with `latest_version(me)` as an input.
- `Twig.empty`, `arguments`, `list_actions` and `__str__` are not modelled: they format text for the command line and are not part of the core.
- `Wrap.WrapText`: it models the printer corrected in four ways, each a row of Findings: the cut reserves the space, the rest of a cut word is cut again, the rest is never dropped, and a long word that follows other words is cut as well. `Ui.Console.Print` and the shell printer use it. The code as written is `Wrap.Lines` with `fixed` false, which the as-written lemmas describe.

## Findings

| source | as written | input that shows it | evidently intended | confidence | as-written member | corrected member |
|---|---|---|---|---|---|---|
| src/nest/__main__.py:83-86 | `build` takes `max` over the enabled twigs' name lengths, which raises `ValueError` when no twig is enabled, after the disabled twigs have been torn down | a configuration in which every twig is disabled | tear the disabled twigs down and finish without an error | not executed | Orchestrator.BuildWithoutEnabledTwigsRaises | Orchestrator.Build |
| src/nest/ui/__init__.py:126-128 | `query` reassigns `prompt` to itself plus the options on every round, so each repeated question carries one more copy of the options | on a tty, one reply that matches no option (such as `x`), then a valid one | the same prompt on every round | not executed | Ui.WrittenPromptGrows | Ui.Console.Query |
| src/nest/ui/__init__.py:254-263 | `section()` without a text logs `str(None)` | `section()` with its default `s=None` | only indent, as the docstring says | not executed | Ui.SectionWithoutTextPrintsNone | Ui.Console.BeginSection |
| src/nest/ui/__init__.py:371-377 | a word cut on an empty line is cut to `columns - len(indent)` characters, and the space before it makes the line `columns + 1` long | one word longer than `columns - len(indent)` | the line holding the cut fits in `columns` | not executed | Wrap.CutLineTooLong | Wrap.CutLineFits |
| src/nest/ui/__init__.py:376-379 | the rest of a cut word becomes the next line without being cut again | `columns` 10, both indentations `ab`, one word of 30 characters: the second line is 24 long | every printed line fits in `columns`, as the docstring promises | not executed | Wrap.RemainderTooLong | Wrap.FixedLinesFit |
| src/nest/ui/__init__.py:366-379 | after an empty indentation `words` stays 0, so the next word starts the line again from the indentation and the rest of the cut word is lost | `columns` 3, empty indentations, the text `abcdef g`: the lines are ` abc` and ` g`. The program cannot reach this itself: `tree` (ui/__init__.py:157-169) is the only caller of `_print`, and its first indentation always ends in a connector and knob, so it is never empty | every character of the text is printed | not executed | Wrap.RemainderLost | Wrap.PlaceKeepsWord |
| src/nest/ui/__init__.py:380-384 | a word that does not fit after other words starts the next line uncut, however long it is | `columns` 10, both indentations `ab`, the text `x` followed by a space and a word of 30 characters: the lines are `ab x` and a line of 33 characters | every printed line fits in `columns`, as the docstring promises | not executed | Wrap.LongWordNotCut | Wrap.FixedLinesFit |
| src/nest/ui/__init__.py:50-54 | `NestException` is not imported, so linking a dangling file raises `NameError` | a twig file that is a symbolic link to a missing path | raise `NestException` naming the file and its target | not executed | Ui.DanglingRaisesNameError | Ui.Console.Link |
