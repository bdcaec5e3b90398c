# Rename engine of a regex file renamer

This project models the rename engine of a desktop batch file renamer. In the
front end (`src/composables/useRename.ts`) the user picks files and builds a
list of steps. A step names a regex rule from a library, names a group of
further steps, or asks for character normalization. The engine does four things:

- **Resolution.** It resolves group references into one flat list of regex and
  normalize steps, guarding against cycles.
- **Preview.** It shows, per file, the name the steps would give: the steps
  are folded over the stem and the extension is put back.
- **Batch rename.** After a confirmation dialog, it sends the selected paths and
  the flat list to the backend. Then it rewrites the selection from the results.
- **Backend.** The backend command (`src-tauri/src/lib.rs`) applies the regex
  steps to each file's stem, renames the file on disk and reports one result
  per path.

The modules follow the source:

| module | what it holds |
|---|---|
| `Wrappers`, `Foreign` | `Option`/`Result`; the regex engines and NFKC as function-valued parameters |
| `Types` | the records of `src/types/index.ts` and the JavaScript truthiness of step fields |
| `Text`, `Paths` | `lastIndexOf`, `endsWith`, character-class replacement, space collapsing; the last path component, directory prefix and stem/extension split |
| `Normalizer` | `applyNormalization`: NFKC, then seven toggled character maps in fixed order |
| `Resolver` | step resolution: a pure reference (`FlattenSteps`) and the closure state of `resolveSteps` as the class `StepResolver` |
| `Preview` | `resolveNewName` as a method, proved equal to the function `PreviewName` |
| `Selection` | the selection list as the class `RenameSession`: `addFiles`, `removeFiles`, `executeRename` |
| `Backend` | `apply_rename` and `execute_rename_files` as methods, each proved equal to a function |
| `Consistency` | where the front end's and the backend's stem/extension splits agree and where they part |

The code and its design description differ in these places. The model follows the code.

- **Shared visited set.** Cycle detection uses one `visited` set for the whole
  traversal. The set never shrinks, so a group named by two sibling steps is
  expanded only the first time. A guard local to each path would expand it
  twice (`Resolver.SiblingGroupExpandedOnce`).
- **Order in `executeRename`.** The dialog is shown before the steps are
  flattened. A confirmed run whose flat list is empty returns silently,
  without calling the backend.
- **No look-around check.** `executeRename` does not check patterns before
  calling the backend, although a test expects it to refuse look-around
  patterns (`src/composables/__tests__/useRename.spec.ts:199-217`). In the
  model, a confirmed run with a non-empty flat list always invokes the backend.
- **No normalize step in the backend.** The Rust `RenameStep` has only
  `pattern` and `replacement`. The model's backend takes regex steps only and
  ignores the `normalization` argument, which the Rust command does not declare.
- **Different splits.** The preview splits at the last dot with
  `lastIndexOf('.')`. The backend splits with `Path::file_stem`/`extension`.
  The two cut at the same dot on every name except `..` and names whose only
  dot is the first character, such as `.bashrc`. On a trailing dot (`foo.`) both cut at that dot, but the
  backend's `unwrap_or("")` and its join then drop the empty extension, so
  the renamed file loses its dot.

## Model

| member | source | states |
|---|---|---|
| Text.LastIndexIn | src/composables/useRename.ts:63 | the index of the last character of the string in the given set, -1 only when there is none, with no later member of the set |
| Text.Translate | src/composables/useRename.ts:14-29 | a character-class replace keeps the length, rewrites exactly the listed characters to the target and keeps every other character |
| Text.CollapseSpaces | src/composables/useRename.ts:11 | collapsing space runs never lengthens the text, keeps its first character and leaves no two adjacent spaces |
| Text.CollapseKeepsOtherCharacters | src/composables/useRename.ts:11 | collapsing keeps every non-space character, in order |
| Text.CollapseKeepsSomeSpace | src/composables/useRename.ts:11 | a space remains after collapsing exactly when the input had one |
| Text.CollapseFixesNoDoubleSpace | src/composables/useRename.ts:11 | text with no double space is left as it is |
| Text.CollapseIdempotent | src/composables/useRename.ts:11 | collapsing twice is collapsing once |
| Text.CollapseSplitsAtNonSpace | src/composables/useRename.ts:11 | a non-space character stays where it is: the text before it and the text after it are collapsed separately, so no run of spaces moves across it |
| Text.RunBeforeCharacterBecomesOneSpace | src/composables/useRename.ts:11 | a run of one or more spaces before a non-space character becomes exactly one space, in place |
| Text.TrailingRunBecomesOneSpace | src/composables/useRename.ts:11 | a run of one or more spaces with nothing after it becomes exactly one space |
| Text.TranslateKeepsNoDoubleSpace | src/composables/useRename.ts:13-30 | the later character maps never create a double space |
| Paths.FileNameOf | src/composables/useRename.ts:62 | the file name is a separator-free suffix of the path, preceded by a separator when it is not the whole path |
| Paths.DirPrefix | src/composables/useRename.ts:165-166 | the kept directory is empty or ends in a separator |
| Paths.SplitExt | src/composables/useRename.ts:63-65 | stem followed by extension is the file name; the extension is empty only without a dot, else it starts at the last dot |
| Paths.DirAndNameRebuildPath | src/composables/useRename.ts:62 | directory prefix followed by file name gives the path back |
| Paths.JoinedPathParts | src/composables/useRename.ts:165-167 | a directory followed by a separator-free name has that directory and that name as its parts |
| Normalizer.ApplyNormalization | src/composables/useRename.ts:6-33 | with every toggle off the result is the NFKC form of the input |
| Normalizer.ColonRemoved | src/composables/useRename.ts:25-27 | with `colon` on no ASCII colon survives |
| Normalizer.SlashRemoved | src/composables/useRename.ts:28-30 | with `slash` on no ASCII slash survives |
| Normalizer.SpacesCollapsed | src/composables/useRename.ts:9-12 | with `space` on no ideographic space and no double space survives the remaining maps |
| Normalizer.MapChar | src/composables/useRename.ts:13-30 | a character that no enabled one-for-one map lists passes through unchanged |
| Normalizer.PerCharacter | src/composables/useRename.ts:13-30 | without `space` the result has the NFKC form's length and holds, at every position, that position's character sent through the enabled one-for-one maps in source order |
| Normalizer.TargetsSurvive | src/composables/useRename.ts:13-30 | a character that an enabled map lists ends as that map's target: no later map rewrites an earlier map's target |
| Normalizer.ListedCharactersBecomeTargets | src/composables/useRename.ts:13-30 | without `space`, every position holding a character that an enabled map lists holds that map's target afterwards: wave dashes become `～`, dashes `-`, middle dots `・`, full-width parentheses ASCII ones, `:` `：` and `/` `／` |
| Normalizer.OnlyListedCharactersChange | src/composables/useRename.ts:13-30 | without `space` the length is that of the NFKC form, and characters outside the enabled maps are untouched |
| Resolver.FlattenSteps | src/composables/useRename.ts:68-88 | the reference traversal of a step list never removes a group from `visited` |
| Resolver.FlattenOne | src/composables/useRename.ts:70-86 | the reference for one step never removes a group from `visited` |
| Resolver.FirstIndexBy | src/composables/useRename.ts:75 | `find` returns the first element with the id, and none when no element has it |
| Resolver.EachGroupExpandedOnce | src/composables/useRename.ts:68-88 | each group is expanded at most once per traversal: expansions are distinct, existing and previously unvisited group ids, and `visited` grows by exactly them |
| Resolver.ExpansionsBoundedByGroups | src/composables/useRename.ts:80-84 | a traversal expands no more groups than exist, so it terminates even on cyclic references |
| Resolver.RegexStepsComeFromLibrary | src/composables/useRename.ts:74-78 | every flat regex step carries a library rule's pattern and replacement verbatim |
| Resolver.FlattenAppend | src/composables/useRename.ts:69 | step order is preserved: flattening a concatenation flattens the first part, then the second from the visited set the first left |
| Resolver.FlattenWithoutGroups | src/composables/useRename.ts:69-78 | without group references, each enabled normalize or known-regex step emits one flat step in order, the others nothing |
| Resolver.GroupSkips | src/composables/useRename.ts:80-82 | a reference to a group already visited, or to no existing group, emits nothing and leaves `visited` unchanged |
| Resolver.StepPrecedence | src/composables/useRename.ts:70-79 | a disabled step emits nothing; `normalize` wins over `regexId`, which wins over `groupRefId` |
| Resolver.MutualGroupsFlattenToNothing | src/composables/__tests__/useRename.spec.ts:108-126 | two groups naming each other flatten to the empty list |
| Resolver.SiblingGroupExpandedOnce | src/composables/useRename.ts:80-83 | a group named by two sibling steps contributes its steps once |
| Resolver.NestedGroupsDepthFirst | src/composables/__tests__/useRename.spec.ts:83-106 | a parent group's child group is expanded in place, before the parent's own later steps |
| Resolver.StepResolver.ResolveSteps | src/composables/useRename.ts:68-88 | the accumulator grows by exactly the reference flattening of the steps, and `visited` becomes the reference's new visited set |
| Resolver.StepResolver.ResolveStep | src/composables/useRename.ts:70-86 | one step of the loop appends exactly what the reference emits for that step and enters its group at most once |
| Preview.SplitName | src/composables/useRename.ts:63-65 | the `lastIndexOf`/`slice` split computes the stem/extension split at the last dot |
| Preview.RunFold | src/composables/useRename.ts:92-104 | the loop over the flat steps computes the fold, stopping with the exception at the first pattern the engine rejects |
| Preview.ResolveNewName | src/composables/useRename.ts:55-105 | the method computes `PreviewName`: split, resolve, fold over the stem, the file name on a thrown pattern error |
| Preview.FoldStemFailsIffBadPattern | src/composables/useRename.ts:92-104 | the fold throws exactly when some flat regex step's pattern does not compile |
| Preview.FoldStemAppend | src/composables/useRename.ts:93-100 | steps fold in list order, each on the previous output |
| Preview.PreviewKeepsExtension | src/composables/useRename.ts:62-65 | the extension is never transformed: the preview is the folded stem plus the original extension, or the original file name when a pattern fails |
| Preview.CyclicGroupsLeaveNameUnchanged | src/composables/__tests__/useRename.spec.ts:108-126 | with mutually referencing groups every path previews as its own file name, whatever the engine |
| Selection.NewPaths | src/composables/useRename.ts:39-46 | the filter adds no more paths than the batch holds |
| Selection.NewPathsMembers | src/composables/useRename.ts:39-46 | the added paths are exactly the batch's paths not selected before |
| Selection.NewPathsKeepsOrder | src/composables/useRename.ts:41-45 | a batch of new paths is appended whole, in input order, repeats included |
| Selection.AddFilesKeepsDistinct | src/composables/useRename.ts:39-46 | adding a repeat-free batch keeps a repeat-free selection repeat-free |
| Selection.AddFilesScenario | src/composables/__tests__/useRename.spec.ts:162-170 | two batches sharing a path leave the three distinct paths |
| Selection.SortDescending | src/composables/useRename.ts:49 | the sorted indices are a descending permutation of the given ones |
| Selection.RemoveDistinctInRange | src/composables/useRename.ts:48-53 | distinct in-range indices remove exactly those positions, keep the other entries in order and shrink the list by their number |
| Selection.RemoveFilesScenario | src/composables/__tests__/useRename.spec.ts:172-180 | removing positions 0 and 2 of three files leaves the middle one |
| Selection.FindSuffixIndex | src/composables/useRename.ts:162 | the first selected path ending with the old name, -1 when none does |
| Selection.ReconcileOne | src/composables/useRename.ts:160-169 | a successful result with a new name rewrites only the first suffix-matching entry to its directory plus the new name; other results change nothing |
| Selection.ReconcileKeepsDirectories | src/composables/useRename.ts:160-170 | when every applied new name is free of separators, reconciliation keeps the length of the selection and every entry's directory |
| Selection.ReconcileFirstEntry | src/composables/useRename.ts:161-167 | a successful result whose old name ends the first entry rewrites that entry to its directory plus the new name |
| Selection.ReconcileScenario | src/composables/__tests__/useRename.spec.ts:183-197 | `C:/old/2023-01-01.txt` becomes `C:/old/2023年01月01日.txt` |
| Selection.SuffixMatchRenamesWrongEntry | src/composables/useRename.ts:162 | suffix matching can rewrite an entry that was not renamed and leave the renamed one stale |
| Selection.PositionalRenamesOwnEntry | src/composables/useRename.ts:160-169 | with one result per file and new names free of separators, positional matching makes an entry its directory plus its own result's new name when that result applies (keeping the directory and taking the name), and leaves it as it was otherwise |
| Selection.ReconcilePositional | src/composables/useRename.ts:160-169 | the corrected reconciliation keeps the length of the selection |
| Selection.PositionalFixesSuffixScenario | src/composables/useRename.ts:162 | on the misleading input, positional matching renames the right entry |
| Selection.RenameSession.AddFiles | src/composables/useRename.ts:39-46 | the selection becomes the old one followed by the batch's paths not selected before |
| Selection.RenameSession.RemoveFiles | src/composables/useRename.ts:48-53 | the selection becomes the old one with each index spliced out, highest first |
| Selection.RenameSession.ApplyResult | src/composables/useRename.ts:161-168 | one result rewrites the selection exactly as the single-result reconciliation says |
| Selection.RenameSession.ApplyResults | src/composables/useRename.ts:160-170 | the selection becomes the reconciliation of the old one with the results |
| Selection.RenameSession.ExecuteRename | src/composables/useRename.ts:107-179 | asks only with files and steps; invokes only when confirmed with a non-empty flat list, sending the selection, flat list and options; reconciles on a reply, rethrows on a rejection, else changes nothing |
| Backend.RustSplit | src-tauri/src/lib.rs:122-123 | no extension exactly for `..` or a name with no dot after its first character; otherwise a non-empty stem and a dot-free extension |
| Backend.ApplyRenameSpec | src-tauri/src/lib.rs:88-100 | with an empty extension the result is the folded stem; otherwise a successful result is the folded stem, a dot and the extension; it fails exactly when the fold fails, and then with the fold's error |
| Backend.FoldRustErrIff | src-tauri/src/lib.rs:90-93 | the fold fails exactly when some pattern fails to compile, and then with the first such pattern's error, whatever the stem |
| Backend.FoldRustAppend | src-tauri/src/lib.rs:90-93 | steps apply in list order, each to the previous output |
| Backend.NoStepsKeepsName | src-tauri/src/lib.rs:95-99 | with no steps the result is the stem, or stem, dot and extension |
| Backend.MultipleRenamesScenario | src-tauri/src/lib.rs:192-209 | `test-file.txt` with `test`→`prod` then `file`→`data` gives `prod-data.txt` |
| Backend.ApplyRename | src-tauri/src/lib.rs:88-100 | the loop computes `ApplyRenameSpec`, returning the first compile error |
| Backend.ResultFor | src-tauri/src/lib.rs:106-165 | success exactly when the file name exists, the new name differs and the rename succeeds; success carries, as its new name, the stem the steps computed joined to the extension, and no error; failure carries no name and an error; invalid paths report the full path; a rename is attempted only to a different name; a compile error is reported as the result's error with no rename attempted; a rename to a different name is attempted with that name, and when it fails the host's message is the result's error |
| Backend.UnchangedNameIsReported | src-tauri/src/lib.rs:127-135 | a name the steps give back unchanged is reported as "Name unchanged" with no rename attempted |
| Backend.RenameCallsComeFromFiles | src-tauri/src/lib.rs:137-138 | every attempted rename moves one of the given paths to a name other than its own |
| Backend.ResultsForEachPath | src-tauri/src/lib.rs:103-169 | there is exactly one result per path, and the k-th result belongs to the k-th path |
| Backend.RenameFile | src-tauri/src/lib.rs:107-165 | the loop body computes the per-path result, with its early exits for an invalid path and an unchanged name |
| Backend.ExecuteRenameFiles | src-tauri/src/lib.rs:103-169 | exactly one result per path, in path order, each the per-path result; the attempted renames in order |
| Backend.TrailingDotDropped | src-tauri/src/lib.rs:95-98 | `foo.` splits into stem `foo` and an empty extension, so with any steps that leave the stem `foo` the file is renamed to `foo` |
| Backend.SplitJoinRoundTrip | src-tauri/src/lib.rs:122-123 | joining the split parts with the corrected join gives the file name back |
| Backend.StemKeptMeansNameKept | src-tauri/src/lib.rs:95-99 | with the corrected join, steps that keep the stem keep the whole name |
| Consistency.SplitsAgreeOnOrdinaryNames | src-tauri/src/lib.rs:122-123 | off dot-files the preview and the backend cut at the same dot |
| Consistency.DotFileSplitsDisagree | src/composables/useRename.ts:63-65 | `.bashrc` is all extension to the preview and all stem to the backend |

## Left out

- Regular-expression semantics: the JavaScript `RegExp` global replace and the Rust `regex` crate are foreign. Each is a parameter: a compile-error function and a replace-all function. `$n` back-references are the engine's business.
- NFKC tables: Unicode compatibility normalization is a parameter.
- JavaScript strings are UTF-16. The model works on code points, so a character outside the Basic Multilingual Plane counts as one character here.
- The confirmation dialog and the backend invocation are inputs of `ExecuteRename`: the dialog's answer and the reply. The dialog's wording is not modelled.
- Selection.RenameSession.ExecuteRename: the dialog's answer is a boolean. A rejection of the `ask` promise itself (src/composables/useRename.ts:115) would propagate out of `executeRename` before any state changes. The model does not represent that path.
- Selection.RenameSession.ExecuteRename: the method runs without interruption. In the source it waits twice: on `ask` (src/composables/useRename.ts:115) and on `invoke` (src/composables/useRename.ts:154). An `addFiles` or `removeFiles` call that lands during either wait is not modelled. The source would send the selection as it stood when `invoke` was called and reconcile the results against the selection as it stands when the reply arrives. In the model both are the selection as it was when the call started.
- `isRenaming` and the `console.error` logging are left out. They are flags and logging, not rename state.
- The Vue `ref` wrapper is left out: the selection is a field of `RenameSession`.
- `load_settings`, `save_settings`, `run()`, `get_settings_path`: file I/O, serde JSON and the window setup are outside the rename engine.
- `Path::file_name` is a parameter of `Host`. Trailing separators, `..` and roots are its business. The lossy UTF-8 conversion and the `to_str` fallbacks to "" are not modelled.
- Selection.ReconcileKeepsDirectories: directories are kept only when the new names contain no separator. A replacement that puts `/` or `\` into a name makes `parent.join` (src-tauri/src/lib.rs:137) move the file into a subdirectory. The front end then stores the directory plus that name (src/composables/useRename.ts:167), so the entry's directory changes. The lemma makes no claim for that case.
- Selection.PositionalRenamesOwnEntry: the directory and file-name claims assume one result per file and new names free of separators, for the same reason. A new name such as `a/b` gives the entry its old directory plus `a/b`, whose directory is a subdirectory.
- `Path::parent`, `Path::join` and `fs::rename` are one parameter of `Host`. That parameter answers success or an error message and ignores the state of the file system. Renames that interfere with each other within one batch are not modelled.
- The look-around validator the front-end test expects does not exist in `executeRename`, so it is not modelled.
- Deserialization of a `normalize` flat step into the Rust `RenameStep` is not modelled; the rejection it causes is one possible reply. Serde fails on the missing `pattern` field, and the whole invocation rejects.
- Selection.RenameSession.RemoveFiles: indices are integers. JavaScript's coercion of fractional or non-numeric indices in `splice` and `sort` is not modelled.
- Normalizer.ApplyNormalization: its own contract covers only the all-off case. The other toggles are covered by lemmas. With `space` off, `PerCharacter` and `ListedCharactersBecomeTargets` fix the result position by position. With `space` on, `SpacesCollapsed` states only that no ideographic space and no double space survive; the position of each other character after collapsing is not stated for the whole pipeline.
- `src/composables/useSettings.ts`, `src/store/settings.ts` and the UI components are not part of this model.

## Findings

| source | as written | input that shows it | evidently intended | confidence | as-written member | corrected member |
|---|---|---|---|---|---|---|
| src/composables/useRename.ts:162 | a result is matched to the first selected path that merely ends with its old name | selection `/a/xfile.txt`, `/b/file.txt`; results: `xfile.txt` unchanged, `file.txt` renamed to `new.txt`; selection becomes `/a/new.txt`, `/b/file.txt` | the entry whose own file was renamed is updated; the backend returns one result per path in order | high, not executed | Selection.SuffixMatchRenamesWrongEntry | Selection.PositionalRenamesOwnEntry |
| src-tauri/src/lib.rs:95-98 | an empty extension (name ending in a dot) is treated as no extension | `foo.` with any steps that leave the stem `foo` unchanged (for instance a replacement that matches nothing) is renamed to `foo` | steps that leave the stem alone leave the name alone and report "Name unchanged" | medium, not executed | Backend.TrailingDotDropped | Backend.StemKeptMeansNameKept |
