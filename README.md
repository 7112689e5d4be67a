# withExEditorHost: a Dafny model of the host's core

withExEditorHost is a native-messaging host. A browser extension sends it
messages, and it answers with frames of its own. It loads an editor
configuration, opens local files and temporary copies of edited text in
that editor, and keeps those copies in a per-process temporary tree.

This project models two parts of it and proves their properties:

- **The filesystem helpers** (`modules/file-util.js`):
  - The filesystem is a map from path strings to nodes, where a node is
    `Dir(mtime)` or `File(content, mode, mtime)` (`FileUtil.Fs`).
  - `FileUtil.WellFormed` is the shape every state keeps. It has no empty
    path and no trailing slash, and every ancestor of an entry is a
    directory.
  - The pure queries are functions over a snapshot: `isFile`, `isDir`,
    `isExecutable`, `isSubDir`, `getFileTimestamp` and `readFile`.
  - The operations that change the filesystem are methods of the class
    `FileUtil.Disk`: `createDir`, `removeDir`, `removeDirSync` and
    `createFile`.
  - Each method is proved against a specification function (`CreateDirSpec`,
    `CreateFileSpec`) or against the set of paths it removes (`Beneath`).
    Lemmas then state what those specifications promise.
  - The two string helpers, `stringifyPositiveInt` and
    `getFileNameFromFilePath`, live in module `PathUtil`, next to the POSIX
    `path.basename` they use.
- **The host's decision logic** (`index.js`):
  - The process is the class `Host.HostProcess`. Its fields are the
    configuration record `vars`, the log `out` of frames written to stdout,
    and the log `launches` of editor launches asked for.
  - Each handler of `index.js` is a method of that class.
  - Pure pieces are functions with lemmas: the host message, the argument
    vector, the editor-configuration merge, temporary-file staging, the
    startup status and the routing of message keys.
  - `handleMsg` runs one task per key of the message, one after another, in
    key order.
- **JavaScript values** (module `Js`):
  - Values are modelled with JavaScript truthiness, `&&`, `||`, property
    reads and writes, and `Object.keys`.
  - A rejected promise is the `Err`/`Fail` case of a result, carrying an
    `Error`.

Behaviour of the code (not just its intent) that the model keeps:

- `isSubDir` is a plain string-prefix test, so `/tmp/ab` passes as a
  subdirectory of `/tmp/a`.
- A single-element array given to `createDir` comes back as
  `arr[0] || null`, because `reduce` never calls its callback on one element.
- When `createTmpFile` resolves `null`, `handleCreatedTmpFile(null)` then
  destructures `null` and rejects.
- An array that fails the `dir && windowId && tabId && host` test reaches
  `path.join(...arr)`. That spread throws for every falsy value except `""`.
- Failing system calls are not modelled (see "Left out"). As a consequence,
  `removeDir` in the model either removes the whole subtree or rejects before
  touching anything. After a successful removal the private directory is
  therefore always gone, so the "Failed to remove" branch of
  `initPrivateTmpDir` (index.js:212-213) cannot be taken. A resolved
  `createDir` always names the private directory, so the "Failed to create"
  branch (index.js:217) cannot be taken either, and a successful remake
  writes nothing.

## Model

| member | source | states |
|---|---|---|
| Js.AssignLookup | index.js:113 | after `vars[key] = x`, the key reads back as `x` and every other key reads as before |
| Js.SetPropGet | index.js:137 | setting a property of an object makes it read back, and leaves every other property as it was |
| Js.Decimal | index.js:24 | `${n}` of a non-negative integer is a canonical numeral: digits only, with no leading zero, and one digit exactly when `n < 10` |
| Js.DecimalRoundTrip | modules/file-util.js:42 | reading back the decimal string of `n` gives `n` |
| Js.DecimalInjective | index.js:24 | two different numbers never give the same decimal string |
| PathUtil.StringifyPositiveInt | modules/file-util.js:41-42 | a string is returned exactly when `i` is a safe integer that is > 0 (or >= 0 with `zero`); it is a canonical decimal numeral whose value is `i`; otherwise null |
| PathUtil.Basename | modules/file-util.js:52 | the POSIX basename contains no `/` |
| PathUtil.BasenameIsLastSegment | modules/file-util.js:52 | the basename is the last segment of the path once trailing slashes are stripped: a suffix of it that is either the whole of it or follows a `/` |
| PathUtil.FileNameMatchIsRun | modules/file-util.js:52 | the regular expression can only capture the leading run of non-dot characters, and matches only when that run is the whole basename or is followed by a dot and at least one more character that is not a line terminator |
| PathUtil.GetFileNameFromFilePath | modules/file-util.js:50-54 | a non-string gives `"index"`; a basename the regular expression matches gives its captured group; a basename it does not match (one starting with `.`, ending in a lone `.`, or empty) gives `"index"` |
| FileUtil.GetFileTimestamp | modules/file-util.js:280-282 | the mtime of an existing path; 0 for a missing path or a non-string |
| FileUtil.ReadFile | modules/file-util.js:244-252 | resolves exactly when the path is a regular file, with its content; otherwise rejects with "not a file" |
| FileUtil.ConvUriToFilePath | modules/file-util.js:61-79 | a non-string rejects with a type error, and a malformed escape rejects as `decodeURIComponent` does; a `file:` URL with a non-empty decoded path resolves that path; anything else resolves null |
| FileUtil.KindQueries | modules/file-util.js:86-109 | `isFile` and `isDir` never both hold; both are false for a missing path or a non-string; an existing path named by a string is exactly one of the two |
| FileUtil.ExecutableQuery | modules/file-util.js:98-101 | only a regular file can be executable; outside Windows a file is executable exactly when its mode has one of the `0o111` bits; on Windows a file whose name ends in `.exe` is executable too |
| FileUtil.IsSubDirTransitive | modules/file-util.js:117-118 | the guard fails unless both paths are directories, and it is transitive |
| FileUtil.IsSubDirReflexive | modules/file-util.js:117-118 | a directory counts as its own subdirectory |
| FileUtil.IsSubDirIsStringPrefix | modules/file-util.js:117-118 | the guard is a string-prefix test: `/tmp/ab` passes as a subdirectory of `/tmp/a` |
| FileUtil.AddEntryWellFormed | modules/file-util.js:180 | creating an entry whose parent is a directory keeps the filesystem well formed |
| FileUtil.Segment | modules/file-util.js:176-178 | a segment is accepted exactly when it is a non-empty string or a non-negative safe integer, and an accepted segment is never empty |
| FileUtil.AccIsJoin | modules/file-util.js:174-183 | with a valid first element, the reduction yields the first element joined with the accepted segments in order, skipping the others |
| FileUtil.UndefinedFirst | modules/file-util.js:176-177 | an invalid first element leaves the accumulator undefined and visits no directory level |
| FileUtil.LastLevelIsResult | modules/file-util.js:179-182 | with a valid first element, the last level visited is the reduction's result |
| FileUtil.MkdirAllStopped | modules/file-util.js:180 | once a `mkdirSync` throws, no later level is attempted |
| FileUtil.MkdirStepEffect | modules/file-util.js:180 | one level: an existing entry is left alone; otherwise only that path is added, as a directory; a throw changes nothing and leaves the path missing |
| FileUtil.MkdirAllEffect | modules/file-util.js:174-183 | making the levels keeps every existing entry as it was and adds only directories, and only at visited levels; on success every level exists; a failed level is still missing; the filesystem stays well formed |
| FileUtil.MkdirAllIdempotent | modules/file-util.js:180 | making the same levels a second time changes nothing |
| FileUtil.PresentLevels | modules/file-util.js:180 | levels that all exist already are skipped without change |
| FileUtil.CreateDirSpec | modules/file-util.js:172-188 | a non-array rejects with a type error and changes nothing; any other rejection is a failed `mkdirSync`; with other than one element a resolved value is null or a string |
| FileUtil.CreateDirEffect | modules/file-util.js:172-188 | a non-array rejects with a type error and changes nothing; fewer than two elements change nothing, an empty array resolving null and a one-element array resolving its element when truthy and null otherwise; an invalid first element gives null; otherwise the result is the joined path of the accepted segments, which exists afterwards with every intermediate level; old entries are untouched and only directories are added; a rejection names a level that is still missing |
| FileUtil.CreateDirKeeps | modules/file-util.js:172-188 | `createDir` keeps the filesystem well formed, keeps every old entry and adds only directories |
| FileUtil.CreateDirResolvesPath | modules/file-util.js:174-184 | a resolved `createDir` with a valid first element names the joined path |
| FileUtil.LevelsBounded | modules/file-util.js:174-183 | no directory level visited is longer than the joined path the reduction resolves |
| FileUtil.CreateDirAgain | modules/file-util.js:172-188 | after `createDir` resolved, calling it again with the same array on any state that kept every entry resolves with the same value and changes nothing |
| FileUtil.CreateDirAddsShort | modules/file-util.js:174-183 | every directory `createDir` adds is at most as long as the path it resolves |
| FileUtil.CreateDirIdempotent | modules/file-util.js:172-188 | a second `createDir` with the same array, after the first resolved, resolves with the same value and changes nothing |
| FileUtil.CreateDirStopped | modules/file-util.js:180 | the level that throws ends the whole reduction in the state reached before it |
| FileUtil.ChildrenCover | modules/file-util.js:129-137 | every entry strictly beneath a directory lies in the subtree of one of the children `readdirSync` lists |
| FileUtil.FileIsLeaf | modules/file-util.js:135-137 | nothing lies beneath a regular file, so unlinking it removes exactly that path |
| FileUtil.RemoveSubtreeWellFormed | modules/file-util.js:126-143 | removing a whole subtree keeps the filesystem well formed |
| FileUtil.ChildOfSubDir | modules/file-util.js:133-134 | the guard of the recursive call holds: a child directory of a subdirectory of `base` is itself one |
| FileUtil.AllChildrenRemoved | modules/file-util.js:139 | once every child's subtree is gone, everything strictly beneath the directory is gone, so `rmdirSync` finds it empty |
| FileUtil.CreateFileSpec | modules/file-util.js:200-208 | a non-string path rejects with a type error; a resolved write names the path, which is then a regular file; a rejection changes nothing |
| FileUtil.CreateFileEffect | modules/file-util.js:200-208 | `createFile` resolves with the path exactly when the path is a string, the data is a string or absent, and the path names no directory and has a directory as parent; a later `readFile` then returns the data and no other path changes; a rejection changes nothing |
| FileUtil.NewFileNotExecutable | modules/file-util.js:98-101 | a newly created file (mode 0o666 under any umask) is not executable outside Windows |
| FileUtil.Disk.MakeLevel | modules/file-util.js:180 | `!existsSync(d) && mkdirSync(d)` has the effect of `MkdirStep`, reporting whether it threw |
| FileUtil.Disk.CreateDir | modules/file-util.js:172-188 | the loop over the segments leaves exactly the filesystem `CreateDirSpec` gives and settles as it says |
| FileUtil.Disk.RemoveDir | modules/file-util.js:126-143 | when `isSubDir` fails it rejects and changes nothing; otherwise it removes `dir` and everything beneath it and nothing else |
| FileUtil.Disk.RemoveDirSync | modules/file-util.js:151-164 | the same removal, and a silent no-op when the guard fails |
| FileUtil.Disk.RemoveTree | modules/file-util.js:129-139 | the shared body: after the loop over the listing and the final `rmdirSync`, the new state is the old one minus the directory's subtree, still well formed |
| FileUtil.Disk.RemoveEntry | modules/file-util.js:133-137 | one listed entry: a directory is removed recursively, anything else unlinked; either way exactly its subtree goes |
| FileUtil.Disk.CreateFile | modules/file-util.js:200-208 | writing with flag `"w"` and mode 0o666 under the umask leaves exactly the filesystem `CreateFileSpec` gives and settles as it says |
| Host.HostMsg | index.js:46-51 | a host message carries the given message and status |
| Host.HostMsgPid | index.js:46-51 | its `pid` stamp is the canonical decimal string of the process id and reads back as it |
| Host.Escape | index.js:173-174 | a path without backslashes is left as it is |
| Host.UnescapeEscape | index.js:173-174 | doubling backslashes loses nothing: halving them gives the path back |
| Host.EscapeInjective | index.js:173-174 | two different paths never escape alike |
| Host.ArgVector | index.js:171-180 | with a truthy `fileAfterCmdArgs` the vector is the configured arguments followed by the escaped file; otherwise the escaped file comes first; a falsy `cmdArgs` counts as no arguments |
| Host.SpawnOutcome | index.js:164-180 | exactly one of (one warning, one launch); a non-file target gives "not a file"; otherwise a non-executable app gives "not executable"; otherwise one launch of the app with the argument vector built from `vars` |
| Host.MergedLookup | index.js:110-115 | after the merge each key of the configuration reads as its last value there, and every other key as before |
| Host.EditorConfigSpec | index.js:102-126 | at most one frame; empty data does nothing at all; `vars` changes only when the data parses to a truthy value |
| Host.EditorConfigMerge | index.js:102-126 | a parse error leaves `vars` unchanged and gives one error message; a loaded, truthy configuration overwrites exactly its own keys of `vars` |
| Host.ConfigThenSpawn | index.js:102-180 | after a configuration naming `editorPath` and array `cmdArgs` is merged, spawning an existing file launches that editor, with those arguments after the escaped file or, when `fileAfterCmdArgs` is truthy, before it, and warns of nothing |
| Host.StageSpec | index.js:227-239 | a falsy `data` leaves the filesystem as it was; a non-null result carries the same `data` it was given |
| Host.StageSuccess | index.js:227-239 | a staged file exists only when `data` carries string `dir`, `windowId`, `tabId`, `host` and a non-empty `fileName`; the result is `{data, filePath}` with the path `<tmp>/<LABEL>/<pid>/<dir>/<windowId>/<tabId>/<host>/<fileName>`, and reading that file gives `value` |
| Host.StageWriteSuccess | index.js:235-238 | the file-writing half of staging: a non-null result names the joined path, which then holds `value` |
| Host.StageOpened | index.js:227-239 | a staging that does not resolve null names a non-empty `filePath`, and that path is a regular file afterwards |
| Host.SharedStagingDirs | index.js:227-239 | two stagings with the same `dir`, `windowId`, `tabId` and `host` both succeed: the second finds the directories the first made and writes its own plain-named file beside the first, which keeps its content when the file names differ |
| Host.StageFailureWritesNothing | index.js:227-239 | when staging produces no file, every old entry is left as it was and only directories were added |
| Host.StageDataFailure | index.js:230-237 | the same for the part after `data` was found truthy |
| Host.StageWriteFailure | index.js:235-237 | once the directory is made, a write that does not produce a file leaves the filesystem unchanged |
| Host.FileDataPort | index.js:133-143 | `null` cannot be destructured; a frame is sent only for truthy `data` and a string `filePath`, with that path; for an object, `data.filePath` is set and every other property is kept |
| Host.TmpFilePort | index.js:150-155 | it rejects exactly for `null`; otherwise it sends the object exactly when the object has at least one key |
| Host.AppStatusFrames | index.js:80-94 | the intended startup status: a "ready" message exactly when both directories were made; otherwise one warning per directory that was not, naming it, and nothing else |
| Host.AppStatusAsWritten | index.js:83-91 | the status as written: "ready" exactly when both directories were made; otherwise a single error frame reporting a rejection |
| Host.AppStatusAsWrittenLosesWarning | index.js:86-91 | when one directory was not made, the code as written reports a type error where the intended status names the directory |
| Host.Route | index.js:313-333 | each of the five known keys goes to its own handler with the key's value; any other key becomes a "no handler" task naming that key |
| Host.RouteAll | index.js:311-334 | one task per entry, in order, each the routing of its key |
| Host.TasksShape | index.js:307-339 | one task per key in key order: a known key goes to its handler with the key's value, an unknown key to a warning naming it; a falsy message or one without keys gives a single warning |
| Host.ReadOnlyMessage | index.js:313-333 | a message with neither a `createTmpFile` nor a `removePrivateTmpFiles` key makes no task that can change the filesystem |
| Host.NoHandlerFrames | index.js:329-336 | a run of unknown keys writes exactly one warning per key, each naming its key, in order |
| Host.UnknownConcat | index.js:329-332 | when every task is unknown and each wrote just its warning, together they wrote exactly `NoHandlerFrames` |
| Host.TmpDirResolves | index.js:215-217 | a resolved `createDir` of the private directory array names the private directory itself |
| Host.StartupReady | index.js:377-380 | when both temporary directories can be made, startup writes exactly the one "ready" message |
| Host.HostProcess.constructor | index.js:34-38 | `vars` starts as `{cmdArgs: [], editorPath: "", fileAfterCmdArgs: false}`, and nothing has been written or launched |
| Host.HostProcess.PortAppStatus | index.js:80-94 | appends exactly the intended status frames and changes nothing else |
| Host.HostProcess.Startup | index.js:377-380 | makes both temporary directories in turn; the first rejection is reported as one error frame; otherwise the status of both results is written |
| Host.HostProcess.PortEditorConfig | index.js:102-126 | empty data does nothing; a parse error writes one error frame and leaves `vars` unchanged; a truthy configuration is merged key by key into `vars` and answered with the editor's path, name and executability |
| Host.HostProcess.MergeVars | index.js:112-114 | the loop assigns each entry to `vars` in turn and touches nothing else |
| Host.HostProcess.GetEditorConfig | index.js:262-274 | uses the given path when it is a non-empty string and the default `editorconfig.json` otherwise; a missing file writes exactly one warning and one null reply and leaves `vars` unchanged; an existing file is loaded as `portEditorConfig` says |
| Host.HostProcess.SpawnChildProcess | index.js:164-180 | appends exactly what `SpawnOutcome` says: a warning or a launch, and never both |
| Host.HostProcess.ViewLocalFile | index.js:281-284 | a URI that `convUriToFilePath` rejects makes it reject with that error and write nothing; a URI that gives no file does nothing; otherwise the file is spawned in the configured editor as `SpawnOutcome` says |
| Host.HostProcess.PortFileData | index.js:133-143 | writes the file-data frame `FileDataPort` gives, or rejects and writes nothing |
| Host.HostProcess.PortTmpFile | index.js:150-155 | writes the temporary-file frame `TmpFilePort` gives, or rejects and writes nothing |
| Host.HostProcess.GetTmpFile | index.js:246-254 | `null` cannot be destructured; without a file path it answers `{data, value: ""}` with `data` unchanged; otherwise it rejects exactly when the path is not a regular file, and on success answers the file's content with `data.timestamp` set to its mtime and every other property kept |
| Host.HostProcess.CreateTmpFile | index.js:227-239 | leaves exactly the filesystem `StageSpec` gives and settles as it says |
| Host.HostProcess.StageTmpFile | index.js:230-235 | makes the directory and then writes the file, as `StageData` says |
| Host.HostProcess.WriteTmpFile | index.js:235-238 | writes the file into the resolved directory, as `StageWrite` says |
| Host.HostProcess.HandleCreatedTmpFile | index.js:292-300 | `null` rejects; without a file path nothing happens; otherwise the file is opened in the editor, then its data is sent back |
| Host.HostProcess.InitPrivateTmpDir | index.js:207-220 | a falsy flag does nothing; a failed guard rejects without change; otherwise the private tree is removed and remade as `CreateDirSpec` says, and the method rejects with the `createDir` error or resolves writing nothing |
| Host.HostProcess.StageAndOpen | index.js:320-321 | `createTmpFile(obj).then(handleCreatedTmpFile)`: leaves the filesystem `StageSpec` gives; a staging rejection is passed on, and a null staging rejects on destructuring, both writing nothing; a staged file exists and is spawned as `SpawnOutcome` says; `vars` is unchanged |
| Host.HostProcess.FetchTmpFile | index.js:323-324 | `getTmpFile(obj).then(portTmpFile)`: `null` rejects writing nothing; otherwise at most one frame is appended; `vars` and launches are unchanged |
| Host.HostProcess.RunTask | index.js:313-333 | a "no handler" task writes one warning naming its key and changes nothing else; only `createTmpFile` and `removePrivateTmpFiles` tasks touch the filesystem; `getEditorConfig` never rejects; no task removes a frame already written |
| Host.HostProcess.RunTasks | index.js:311-338 | runs each task in order; the frames written are the concatenation of one segment per task, and the segment of every unknown key, even in a message that mixes known and unknown keys, is exactly one warning naming it; when all are unknown it changes nothing else; when none touches the filesystem the filesystem is unchanged |
| Host.HostProcess.HandleMsg | index.js:307-339 | routes the message into `Tasks(msg)` and runs them, with the properties `RunTasks` states, including one warning per unknown key in its place |

## Left out

- Wire framing: `Input`/`Output` of `modules/native-message` are not part of this model. `writeStdout` is an append to the log `out`.
- Text: frames carry a structured `Text` rather than the exact message string.
- Concurrency: `Promise.all` fan-out is run as a sequence in key order. When several handlers reject, the model reports the first in that order, not the first in time.
- `readStdin`, `handleReject` and the process hooks (`process.on`, `handleExit`) are lifecycle plumbing and are not modelled. A rejection returned by `HandleMsg` is what `readStdin` would report.
- The child process: `execFile` itself, its options and the relaying of its stdout, stderr and errors (index.js:181-198) are a foreign process API. A launch is recorded as `Launch(app, args)`.
- `JSON.parse`, `url.parse` and `decodeURIComponent` are library calls. They are parameters of the process: `parse`, and `decodeFileUrl`, which says what `convUriToFilePath` reads from a string (not a `file:` URL, its decoded path, or a malformed escape).
- `modules/common` is not part of this model. `concatArgs` is assumed to concatenate its arguments, spreading arrays. `isString` is `typeof === "string"`, so `String` objects are not modelled.
- `modules/constant` is not part of this model. `Host` uses distinct stand-in strings for the message keys and directory names.
- `os.tmpdir()`, `process.pid` and the working directory are constants of the process, and the clock is a `now` parameter.
- `path.join` is plain concatenation with `/`. Normalisation of `.`, `..` and repeated slashes is not modelled. In particular a `fileName` such as `../x` given to `createTmpFile` is not resolved, so the model does not show where such a file would really land.
- The root `/` can never be a key of the filesystem map, because well-formed paths have no trailing `/`. So `IsSubDir(fs, x, "/")` is always false in the model, while `isSubDir(x, "/")` holds for every absolute directory `x` in the source.
- `path.resolve` of the default configuration path is modelled for an absolute working directory.
- Windows: the platform is POSIX, except for the `.exe` disjunct of `isExecutable`, which is a `windows` flag. Windows mode bits (the FIXME at modules/file-util.js:95-97) are not modelled.
- Directory modes (`PERM_DIR`) and directory mtimes are not modelled. Making an entry does not update its parent's mtime.
- Failing system calls are not modelled, apart from those whose preconditions the model can state: `mkdirSync` throws when the parent is not a directory, and `writeFileSync` throws on a directory or a missing parent.
- `writeFileSync` with data that is neither a string nor absent rejects with a type error. Buffers and typed arrays are not modelled.
- JavaScript values: numbers are integers only, arrays carry no named properties, and objects are trees. Aliasing between objects is not modelled.
- Js.OwnEntries: a string's own keys are indexed per Unicode character, while `Object.keys` indexes per UTF-16 code unit, so a string holding characters outside the Basic Multilingual Plane has fewer keys in the model. Lone surrogates cannot be represented in a Dafny `string`.
- `portFileData` on an array is modelled as sending the array unchanged. The property it sets is not serialised.
- `createFileWithCallback` and `readFileWithCallback` invoke arbitrary callbacks and are not modelled.
- `convUriToFilePath` on Windows (the per-segment `path.join` of modules/file-util.js:66-69) is not modelled; the model is the POSIX branch.
- Host.HostProcess.RunTask: states only the effect of a "no handler" task, which parts of the state each kind of task may change, and that `getEditorConfig` never rejects. The full effect of each other task is stated by the method it calls (`GetEditorConfig`, `ViewLocalFile`, `StageAndOpen`, `FetchTmpFile`, `InitPrivateTmpDir`).
- Host.HostProcess.HandleMsg: states the frames of unknown keys in their places, but not the combined effect of several known keys on `vars`, the launches or the filesystem. Each handler's effect is stated by its own method.
- Host.HostProcess.FetchTmpFile: states only that at most one frame is appended and that null rejects. The answer itself is stated by `GetTmpFile` and `PortTmpFile`.

## Findings

| source | as written | input that shows it | evidently intended | confidence | as-written member | corrected member |
|---|---|---|---|---|---|---|
| index.js:86-91 | the warnings call `path.join(DIR_TMP_FILES)` and `path.join(DIR_TMP_FILES_PB)` with an array, which throws a type error, so `portAppStatus` rejects and startup reports that rejection instead of a warning | `portAppStatus([null, "/tmp/pb"])`, a status in which the files directory was not made; the startup call at index.js:377-380 never passes one, since there `createDir` resolves a path or rejects | `path.join(...DIR_TMP_FILES)`: one "Failed to create <dir>" warning per directory that was not made | not executed | Host.AppStatusAsWritten, Host.AppStatusAsWrittenLosesWarning | Host.AppStatusFrames (used by Host.HostProcess.PortAppStatus) |
