/** The decision logic of index.js: the frames the host writes, the record
    `vars` it merges editor configurations into, the editor launches it
    asks for, the staging of temporary files and the message dispatcher.
    Frames are appended to a log and launches recorded; the handlers run
    one after another in key order. */
module Host {
  import opened Js
  import opened PathUtil
  import opened FileUtil

  // Message keys and directory names.  Their values live in
  // modules/constant, which is not part of this model; these stand-ins are
  // distinct, non-empty and free of `/`, which is all the model relies on.
  const EDITOR_CONFIG_GET := "getEditorConfig"
  const LOCAL_FILE_VIEW := "viewLocalFile"
  const TMP_FILE_CREATE := "createTmpFile"
  const TMP_FILE_GET := "getTmpFile"
  const TMP_FILES_PB_REMOVE := "removePrivateTmpFiles"
  const LABEL := "withExEditor"
  const TMP_FILES := "tmpFiles"
  const TMP_FILES_PB := "tmpFilesPb"

  // Keys of `vars`.
  const CMD_ARGS := "cmdArgs"
  const EDITOR_PATH := "editorPath"
  const FILE_AFTER_ARGS := "fileAfterCmdArgs"

  /** The keys `handleMsg` has a handler for. */
  const KnownKeys := {EDITOR_CONFIG_GET, LOCAL_FILE_VIEW, TMP_FILE_CREATE, TMP_FILE_GET, TMP_FILES_PB_REMOVE}

  /** `vars` as the host starts with it. */
  const InitialVars: seq<(string, JsVal)> := [(CMD_ARGS, JArr([])), (EDITOR_PATH, JStr("")), (FILE_AFTER_ARGS, JBool(false))]

  // ---------------------------------------------------------------------
  // Frames

  /** The `status` of a host message: "ready", "warn" or "error". */
  datatype Status = Ready | Warn | Failure

  /** The `message` of a host message, by the text it would carry. */
  datatype Text =
    | EditorConfigGetText                       // EDITOR_CONFIG_GET, with "ready"
    | IsNotAFile(path: JsVal)                   // `${file} is not a file.`
    | IsNotExecutable(app: JsVal)               // `${app} is not executable.`
    | NoHandlerFound(item: JsVal)               // `No handler found for ${item}.`
    | FailedToCreate(dir: string)               // `Failed to create ${dir}.`
    | ConfigError(reason: string, configPath: string) // `${e}: ${editorConfig}`
    | Rejected(error: Error)                    // a rejection, as reported

  datatype EditorConfigReply = EditorConfigReply(editorConfig: string, editorName: string, editorPath: JsVal, executable: bool)

  /** A message written to the browser. */
  datatype Frame =
    | HostFrame(message: Text, status: Status, pid: string)
    | EditorConfigRes(reply: Option<EditorConfigReply>)
    | TmpFileDataPort(data: JsVal, filePath: string)
    | TmpFileRes(obj: JsVal)

  /** An `execFile(app, args)` the host asks for. */
  datatype Launch = Launch(app: string, args: seq<JsVal>)

  /** What `JSON.parse` gives: a value, or the error it throws. */
  datatype ParseOutcome = Parsed(value: JsVal) | SyntaxError(reason: string)

  /** `hostMsg(message, status)`: a host message stamped with the process id
      as a decimal string. */
  function HostMsg(message: Text, status: Status, pid: nat): (r: Frame)
    ensures r.HostFrame? && r.message == message && r.status == status
  {
    HostFrame(message, status, Decimal(pid))
  }

  /** The stamp of a host message is a canonical decimal numeral that reads
      back as the process id, so distinct processes stamp differently. */
  lemma HostMsgPid(message: Text, status: Status, pid: nat)
    ensures IsDecimal(HostMsg(message, status, pid).pid)
    ensures DecimalValue(HostMsg(message, status, pid).pid) == pid
  {
    DecimalRoundTrip(pid);
  }

  // ---------------------------------------------------------------------
  // Argument vector

  /** `file.replace(/\\/g, "\\\\")`: every backslash doubled. */
  function Escape(s: string): (r: string)
    ensures (forall i :: 0 <= i < |s| ==> s[i] != '\\') ==> r == s
  {
    if s == [] then []
    else (if s[0] == '\\' then "\\\\" else [s[0]]) + Escape(s[1..])
  }

  /** Halves every doubled backslash. */
  function Unescape(s: string): string {
    if s == [] then []
    else if |s| >= 2 && s[0] == '\\' && s[1] == '\\' then "\\" + Unescape(s[2..])
    else [s[0]] + Unescape(s[1..])
  }

  /** Escaping loses nothing: the original path can be read back. */
  lemma {:induction false} UnescapeEscape(s: string)
    ensures Unescape(Escape(s)) == s
  {
    if s != [] {
      UnescapeEscape(s[1..]);
      if s[0] == '\\' {
        assert Escape(s) == "\\\\" + Escape(s[1..]);
        assert (Escape(s))[2..] == Escape(s[1..]);
      } else {
        assert Escape(s) == [s[0]] + Escape(s[1..]);
        assert (Escape(s))[1..] == Escape(s[1..]);
      }
    }
  }

  /** Two different paths never escape alike. */
  lemma EscapeInjective(s: string, t: string)
    requires Escape(s) == Escape(t)
    ensures s == t
  {
    UnescapeEscape(s);
    UnescapeEscape(t);
  }

  /** The elements `concatArgs` contributes for one argument: an array's
      items, or the value itself. */
  function ArgList(v: JsVal): seq<JsVal> {
    if v.JArr? then v.items else [v]
  }

  /** The configured arguments, a falsy `cmdArgs` meaning none. */
  function CmdArgs(cmdArgs: JsVal): seq<JsVal> {
    if Truthy(cmdArgs) then ArgList(cmdArgs) else []
  }

  /** The argument vector of index.js:171-180, as the source computes it
      with `&&` and `||`: the configured arguments then the escaped file
      when `fileAfterCmdArgs` is truthy, the escaped file first otherwise. */
  function ArgVector(cmdArgs: JsVal, fileAfter: JsVal, file: string): (r: seq<JsVal>)
    ensures Truthy(fileAfter) ==> r == CmdArgs(cmdArgs) + [JStr(Escape(file))]
    ensures !Truthy(fileAfter) ==> r == [JStr(Escape(file))] + CmdArgs(cmdArgs)
  {
    var args := Or(cmdArgs, JArr([]));
    var pos := Or(fileAfter, JBool(false));
    var esc := JArr([JStr(Escape(file))]);
    var argA := Or(And(pos, args), esc);
    var argB := Or(And(pos, esc), args);
    ArgList(argA) + ArgList(argB)
  }

  /** What `spawnChildProcess(file, app)` leaves behind. */
  datatype Emitted = Emitted(frames: seq<Frame>, launches: seq<Launch>)

  /** `spawnChildProcess(file, app)` up to the launch: the target must be a
      file, then the app executable; each failed check is one warning. */
  function SpawnOutcome(fs: Fs, vars: seq<(string, JsVal)>, file: JsVal, app: JsVal, windows: bool, pid: nat): (r: Emitted)
    ensures |r.frames| + |r.launches| == 1
    ensures |r.launches| == 1 <==> IsFile(fs, file) && IsExecutable(fs, app, windows)
    ensures !IsFile(fs, file) ==> r.frames == [HostMsg(IsNotAFile(file), Warn, pid)]
    ensures IsFile(fs, file) && !IsExecutable(fs, app, windows) ==> r.frames == [HostMsg(IsNotExecutable(app), Warn, pid)]
    ensures |r.launches| == 1 ==> r.launches[0] == Launch(app.s, ArgVector(Lookup(vars, CMD_ARGS), Lookup(vars, FILE_AFTER_ARGS), file.s))
  {
    if !IsFile(fs, file) then Emitted([HostMsg(IsNotAFile(file), Warn, pid)], [])
    else if !IsExecutable(fs, app, windows) then Emitted([HostMsg(IsNotExecutable(app), Warn, pid)], [])
    else Emitted([], [Launch(app.s, ArgVector(Lookup(vars, CMD_ARGS), Lookup(vars, FILE_AFTER_ARGS), file.s))])
  }

  // ---------------------------------------------------------------------
  // Editor configuration

  /** `vars[k] = v` for each entry in turn. */
  function Merged(vars: seq<(string, JsVal)>, entries: seq<(string, JsVal)>): seq<(string, JsVal)> {
    if entries == [] then vars
    else
      var last := entries[|entries| - 1];
      Assign(Merged(vars, entries[..|entries| - 1]), last.0, last.1)
  }

  /** The value of the last entry named `k`. */
  function LastValueOf(entries: seq<(string, JsVal)>, k: string): Option<JsVal> {
    if entries == [] then None
    else if entries[|entries| - 1].0 == k then Some(entries[|entries| - 1].1)
    else LastValueOf(entries[..|entries| - 1], k)
  }

  /** After the merge every key of the configuration reads as its value
      there, and every other key as it did before. */
  lemma {:induction false} MergedLookup(vars: seq<(string, JsVal)>, entries: seq<(string, JsVal)>, k: string)
    ensures Lookup(Merged(vars, entries), k) == match LastValueOf(entries, k)
      case Some(x) => x
      case None => Lookup(vars, k)
  {
    if entries != [] {
      var init := entries[..|entries| - 1];
      var last := entries[|entries| - 1];
      MergedLookup(vars, init, k);
      AssignLookup(Merged(vars, init), last.0, last.1, k);
    }
  }

  /** The new `vars` and the frames of `portEditorConfig(data, path)`. */
  datatype Configured = Configured(vars: seq<(string, JsVal)>, frames: seq<Frame>)

  /** `portEditorConfig(data, editorConfig)`: empty data does nothing; a
      parse error is one error message; a truthy parsed value is merged into
      `vars` and answered with the editor's name, path and executability. */
  function EditorConfigSpec(vars: seq<(string, JsVal)>, fs: Fs, data: string, editorConfig: string,
                            parse: string -> ParseOutcome, windows: bool, pid: nat): (c: Configured)
    ensures |c.frames| <= 1
    ensures data == "" ==> c == Configured(vars, [])
    ensures c.vars != vars ==> data != "" && parse(data).Parsed? && Truthy(parse(data).value)
  {
    if data == "" then Configured(vars, [])
    else match parse(data)
      case SyntaxError(e) => Configured(vars, [HostMsg(ConfigError(e, editorConfig), Failure, pid)])
      case Parsed(v) =>
        if !Truthy(v) then Configured(vars, [])
        else
          var editorPath := GetProp(v, EDITOR_PATH);
          var reply := EditorConfigReply(editorConfig, GetFileNameFromFilePath(editorPath), editorPath,
                                         IsExecutable(fs, editorPath, windows));
          Configured(Merged(vars, OwnEntries(v)), [EditorConfigRes(Some(reply))])
  }

  /** A loaded configuration overwrites exactly its own keys of `vars`; a
      parse error leaves `vars` as it was and is reported once. */
  lemma EditorConfigMerge(vars: seq<(string, JsVal)>, fs: Fs, data: string, editorConfig: string,
                          parse: string -> ParseOutcome, windows: bool, pid: nat, k: string)
    ensures var c := EditorConfigSpec(vars, fs, data, editorConfig, parse, windows, pid);
      && (data != "" && parse(data).SyntaxError? ==> c.vars == vars && |c.frames| == 1 && c.frames[0].status == Failure)
      && (data != "" && parse(data).Parsed? && Truthy(parse(data).value) ==>
            Lookup(c.vars, k) == match LastValueOf(OwnEntries(parse(data).value), k)
              case Some(x) => x
              case None => Lookup(vars, k))
  {
    if data != "" && parse(data).Parsed? && Truthy(parse(data).value) {
      MergedLookup(vars, OwnEntries(parse(data).value), k);
    }
  }

  /** After a configuration naming `editorPath` and `cmdArgs` is merged,
      the next spawn of an existing file launches that editor with those
      arguments around the escaped file path, and warns of nothing. */
  lemma ConfigThenSpawn(vars: seq<(string, JsVal)>, fs: Fs, data: string, editorConfig: string,
                        parse: string -> ParseOutcome, windows: bool, pid: nat,
                        file: JsVal, app: string, args: seq<JsVal>)
    requires data != "" && parse(data).Parsed? && parse(data).value.JObj?
    requires LastValueOf(OwnEntries(parse(data).value), EDITOR_PATH) == Some(JStr(app))
    requires LastValueOf(OwnEntries(parse(data).value), CMD_ARGS) == Some(JArr(args))
    requires IsFile(fs, file) && IsExecutable(fs, JStr(app), windows)
    ensures var c := EditorConfigSpec(vars, fs, data, editorConfig, parse, windows, pid);
      var s := SpawnOutcome(fs, c.vars, file, Lookup(c.vars, EDITOR_PATH), windows, pid);
      var after := Truthy(Lookup(c.vars, FILE_AFTER_ARGS));
      && s.frames == [] && |s.launches| == 1 && s.launches[0].app == app
      && s.launches[0].args == (if after then args + [JStr(Escape(file.s))] else [JStr(Escape(file.s))] + args)
  {
    var v := parse(data).value;
    MergedLookup(vars, OwnEntries(v), EDITOR_PATH);
    MergedLookup(vars, OwnEntries(v), CMD_ARGS);
  }

  /** The default configuration path, `path.resolve("./editorconfig.json")`. */
  function DefaultConfigPath(cwd: string): string {
    if cwd == "/" then "/editorconfig.json" else Join(cwd, "editorconfig.json")
  }

  // ---------------------------------------------------------------------
  // Temporary files

  /** The object `{data, filePath}` or `{data, value}` the source builds. */
  function Pair(k1: string, v1: JsVal, k2: string, v2: JsVal): JsVal {
    JObj([(k1, v1), (k2, v2)])
  }

  lemma PairGet(k1: string, v1: JsVal, k2: string, v2: JsVal)
    requires k1 != k2
    ensures GetProp(Pair(k1, v1, k2, v2), k1) == v1 && GetProp(Pair(k1, v1, k2, v2), k2) == v2
  {
    var props := [(k1, v1), (k2, v2)];
    assert props[1..] == [(k2, v2)];
    assert Lookup(props[1..], k2) == v2;
  }

  /** `createTmpFile(obj)`: reads `data` and `value` and, for truthy
      `data`, stages the file. */
  function StageSpec(fs: Fs, obj: JsVal, tmpRoot: string, app: string, now: int, mode: bv32): (e: Effect)
    ensures !Truthy(GetProp(obj, "data")) ==> e.fs == fs
    ensures e.result.Ok? && e.result.value != JNull ==> GetProp(e.result.value, "data") == GetProp(obj, "data")
  {
    var o := if obj.JUndefined? then JObj([]) else obj;
    if o.JNull? then Effect(fs, Err(TypeError("destructure")))
    else
      var data := GetProp(o, "data");
      if !Truthy(data) then Effect(fs, Ok(JNull))
      else StageData(fs, data, GetProp(o, "value"), tmpRoot, app, now, mode)
  }

  /** `[...DIR_TMP, dir, windowId, tabId, host]`. */
  function StageArray(tmpRoot: string, app: string, data: JsVal): JsVal {
    JArr([JStr(tmpRoot), JStr(LABEL), JStr(app), GetProp(data, "dir"), GetProp(data, "windowId"),
          GetProp(data, "tabId"), GetProp(data, "host")])
  }

  /** Makes `<tmp>/<LABEL>/<app>/<dir>/<windowId>/<tabId>/<host>` when the
      four properties are truthy.  Otherwise `path.join(...arr)` spreads the
      falsy value: only "" is iterable, anything else throws. */
  function StageData(fs: Fs, data: JsVal, value: JsVal, tmpRoot: string, app: string, now: int, mode: bv32): Effect {
    var arr := And(And(And(GetProp(data, "dir"), GetProp(data, "windowId")), GetProp(data, "tabId")), GetProp(data, "host"));
    if !Truthy(arr) then
      if arr == JStr("") then Effect(fs, Ok(JNull)) else Effect(fs, Err(TypeError("iterable")))
    else
      var made := CreateDirSpec(fs, StageArray(tmpRoot, app, data), now);
      if made.result.Err? then made
      else StageWrite(made.fs, made.result.value, data, value, tmpRoot, app, now, mode)
  }

  /** Once the directory is made: `path.join` needs strings; the result
      must be the joined path and `fileName` truthy; then `value` is written
      to the file and `{data, filePath}` resolved. */
  function StageWrite(fs: Fs, dPath: JsVal, data: JsVal, value: JsVal, tmpRoot: string, app: string, now: int, mode: bv32): Effect {
    var dir, windowId, tabId, host := GetProp(data, "dir"), GetProp(data, "windowId"), GetProp(data, "tabId"), GetProp(data, "host");
    var fileName := GetProp(data, "fileName");
    if !(dir.JStr? && windowId.JStr? && tabId.JStr? && host.JStr?) then Effect(fs, Err(TypeError("path")))
    else
      var joined := Joined(tmpRoot, [LABEL, app, dir.s, windowId.s, tabId.s, host.s]);
      if dPath != JStr(joined) || !Truthy(fileName) then Effect(fs, Ok(JNull))
      else if !fileName.JStr? then Effect(fs, Err(TypeError("path")))
      else
        var written := CreateFileSpec(fs, JStr(Join(joined, fileName.s)), value, now, mode);
        if written.result.Err? then written
        else Effect(written.fs, Ok(Pair("data", data, "filePath", written.result.value)))
  }

  /** The staged file's path. */
  function TmpFilePath(tmpRoot: string, app: string, dir: string, windowId: string, tabId: string, host: string, fileName: string): string {
    Joined(tmpRoot, [LABEL, app, dir, windowId, tabId, host, fileName])
  }

  /** A staged temporary file exists only when `data` carries string `dir`,
      `windowId`, `tabId`, `host` and `fileName`; it sits at their joined
      path, holds `value`, and is what the result names. */
  lemma StageSuccess(fs: Fs, obj: JsVal, tmpRoot: string, app: string, now: int, mode: bv32)
    requires WellFormed(fs)
    requires var e := StageSpec(fs, obj, tmpRoot, app, now, mode); e.result.Ok? && e.result.value != JNull
    ensures var e := StageSpec(fs, obj, tmpRoot, app, now, mode);
      var data := GetProp(obj, "data");
      && Truthy(data)
      && GetProp(data, "dir").JStr? && GetProp(data, "windowId").JStr? && GetProp(data, "tabId").JStr?
      && GetProp(data, "host").JStr? && GetProp(data, "fileName").JStr? && GetProp(data, "fileName").s != ""
      && var path := TmpFilePath(tmpRoot, app, GetProp(data, "dir").s, GetProp(data, "windowId").s,
                                 GetProp(data, "tabId").s, GetProp(data, "host").s, GetProp(data, "fileName").s);
         && e.result.value == Pair("data", data, "filePath", JStr(path))
         && ReadFile(e.fs, JStr(path)) == Ok(var v := GetProp(obj, "value"); if v.JStr? then v.s else "")
  {
    var data := GetProp(obj, "data");
    var e := StageSpec(fs, obj, tmpRoot, app, now, mode);
    assert !obj.JUndefined? && !obj.JNull? && Truthy(data);
    assert e == StageData(fs, data, GetProp(obj, "value"), tmpRoot, app, now, mode);
    var made := CreateDirSpec(fs, StageArray(tmpRoot, app, data), now);
    assert made.result.Ok?;
    assert e == StageWrite(made.fs, made.result.value, data, GetProp(obj, "value"), tmpRoot, app, now, mode);
    CreateDirKeeps(fs, StageArray(tmpRoot, app, data), now);
    StageWriteSuccess(made.fs, made.result.value, data, GetProp(obj, "value"), tmpRoot, app, now, mode);
  }

  lemma StageWriteSuccess(fs: Fs, dPath: JsVal, data: JsVal, value: JsVal, tmpRoot: string, app: string, now: int, mode: bv32)
    requires WellFormed(fs)
    requires var e := StageWrite(fs, dPath, data, value, tmpRoot, app, now, mode); e.result.Ok? && e.result.value != JNull
    ensures var e := StageWrite(fs, dPath, data, value, tmpRoot, app, now, mode);
      && GetProp(data, "dir").JStr? && GetProp(data, "windowId").JStr? && GetProp(data, "tabId").JStr?
      && GetProp(data, "host").JStr? && GetProp(data, "fileName").JStr? && GetProp(data, "fileName").s != ""
      && var path := TmpFilePath(tmpRoot, app, GetProp(data, "dir").s, GetProp(data, "windowId").s,
                                 GetProp(data, "tabId").s, GetProp(data, "host").s, GetProp(data, "fileName").s);
         && e.result.value == Pair("data", data, "filePath", JStr(path))
         && ReadFile(e.fs, JStr(path)) == Ok(if value.JStr? then value.s else "")
  {
    var dir, windowId, tabId, host := GetProp(data, "dir").s, GetProp(data, "windowId").s, GetProp(data, "tabId").s, GetProp(data, "host").s;
    var fileName := GetProp(data, "fileName").s;
    var segs := [LABEL, app, dir, windowId, tabId, host, fileName];
    assert segs[..|segs| - 1] == [LABEL, app, dir, windowId, tabId, host];
    var joined := Joined(tmpRoot, [LABEL, app, dir, windowId, tabId, host]);
    CreateFileEffect(fs, JStr(Join(joined, fileName)), value, now, mode);
  }

  /** A staged file's data names it by a path that is a regular file. */
  lemma StageOpened(fs: Fs, obj: JsVal, tmpRoot: string, app: string, now: int, mode: bv32)
    requires WellFormed(fs)
    requires var e := StageSpec(fs, obj, tmpRoot, app, now, mode); e.result.Ok? && e.result.value != JNull
    ensures var e := StageSpec(fs, obj, tmpRoot, app, now, mode);
      var fp := GetProp(e.result.value, "filePath");
      fp.JStr? && fp.s != "" && IsFile(e.fs, fp)
  {
    StageSuccess(fs, obj, tmpRoot, app, now, mode);
    var e := StageSpec(fs, obj, tmpRoot, app, now, mode);
    var data := GetProp(obj, "data");
    var path := TmpFilePath(tmpRoot, app, GetProp(data, "dir").s, GetProp(data, "windowId").s,
                            GetProp(data, "tabId").s, GetProp(data, "host").s, GetProp(data, "fileName").s);
    PairGet("data", data, "filePath", JStr(path));
  }

  /** Two `data` objects choose the same staging directory. */
  predicate SameStagingKey(d1: JsVal, d2: JsVal) {
    && GetProp(d2, "dir") == GetProp(d1, "dir") && GetProp(d2, "windowId") == GetProp(d1, "windowId")
    && GetProp(d2, "tabId") == GetProp(d1, "tabId") && GetProp(d2, "host") == GetProp(d1, "host")
  }

  /** No directory sits where `data` would put its staged file. */
  predicate NoDirAtStagedPath(fs: Fs, tmpRoot: string, app: string, d: JsVal) {
    var dir, w, t, h, f := GetProp(d, "dir"), GetProp(d, "windowId"), GetProp(d, "tabId"), GetProp(d, "host"), GetProp(d, "fileName");
    dir.JStr? && w.JStr? && t.JStr? && h.JStr? && f.JStr? ==>
      var p := TmpFilePath(tmpRoot, app, dir.s, w.s, t.s, h.s, f.s);
      !(p in fs && fs[p].Dir?)
  }

  /** A staging that produced a file made the joined directory and then
      wrote the file into it. */
  lemma StagedSteps(fs: Fs, obj: JsVal, tmpRoot: string, app: string, now: int, mode: bv32)
    requires WellFormed(fs)
    requires var e := StageSpec(fs, obj, tmpRoot, app, now, mode); e.result.Ok? && e.result.value != JNull
    ensures var d := GetProp(obj, "data");
      && GetProp(d, "dir").JStr? && GetProp(d, "windowId").JStr? && GetProp(d, "tabId").JStr?
      && GetProp(d, "host").JStr? && GetProp(d, "fileName").JStr?
    ensures var d := GetProp(obj, "data");
      var joined := Joined(tmpRoot, [LABEL, app, GetProp(d, "dir").s, GetProp(d, "windowId").s, GetProp(d, "tabId").s, GetProp(d, "host").s]);
      var made := CreateDirSpec(fs, StageArray(tmpRoot, app, d), now);
      && made.result == Ok(JStr(joined))
      && StageSpec(fs, obj, tmpRoot, app, now, mode).fs
         == CreateFileSpec(made.fs, JStr(Join(joined, GetProp(d, "fileName").s)), GetProp(obj, "value"), now, mode).fs
  {
    StageSuccess(fs, obj, tmpRoot, app, now, mode);
    var d, v := GetProp(obj, "data"), GetProp(obj, "value");
    assert !obj.JUndefined? && !obj.JNull?;
    assert StageSpec(fs, obj, tmpRoot, app, now, mode) == StageData(fs, d, v, tmpRoot, app, now, mode);
    var made := CreateDirSpec(fs, StageArray(tmpRoot, app, d), now);
    assert made.result.Ok?;
    var dir, w, t, h := GetProp(d, "dir").s, GetProp(d, "windowId").s, GetProp(d, "tabId").s, GetProp(d, "host").s;
    TmpFilePathIsJoin(tmpRoot, app, dir, w, t, h, GetProp(d, "fileName").s);
  }

  /** Two stagings that share `dir`, `windowId`, `tabId` and `host` both
      succeed: the second finds the directories the first made, is not
      troubled by them, and writes its own file beside the first one,
      which stays as it was when the file names differ. */
  lemma SharedStagingDirs(fs: Fs, obj1: JsVal, obj2: JsVal, tmpRoot: string, app: string, now: int, later: int, mode: bv32)
    requires WellFormed(fs)
    requires var e1 := StageSpec(fs, obj1, tmpRoot, app, now, mode); e1.result.Ok? && e1.result.value != JNull
    requires obj2.JObj? && Truthy(GetProp(obj2, "data"))
    requires SameStagingKey(GetProp(obj1, "data"), GetProp(obj2, "data"))
    requires var f := GetProp(GetProp(obj2, "data"), "fileName");
      f.JStr? && f.s != "" && forall i :: 0 <= i < |f.s| ==> f.s[i] != '/'
    requires var v := GetProp(obj2, "value"); v.JStr? || v.JUndefined?
    requires NoDirAtStagedPath(fs, tmpRoot, app, GetProp(obj2, "data"))
    ensures var e1 := StageSpec(fs, obj1, tmpRoot, app, now, mode);
      var e2 := StageSpec(e1.fs, obj2, tmpRoot, app, later, mode);
      var fp1 := GetProp(e1.result.value, "filePath");
      && e2.result.Ok? && e2.result.value != JNull
      && (GetProp(GetProp(obj1, "data"), "fileName") != GetProp(GetProp(obj2, "data"), "fileName") ==>
            ReadFile(e2.fs, fp1) == ReadFile(e1.fs, fp1))
  {
    var e1 := StageSpec(fs, obj1, tmpRoot, app, now, mode);
    StagedSteps(fs, obj1, tmpRoot, app, now, mode);
    var d1, d2 := GetProp(obj1, "data"), GetProp(obj2, "data");
    var dir, w, t, h := GetProp(d1, "dir").s, GetProp(d1, "windowId").s, GetProp(d1, "tabId").s, GetProp(d1, "host").s;
    var f1, f2 := GetProp(d1, "fileName").s, GetProp(d2, "fileName").s;
    var joined := Joined(tmpRoot, [LABEL, app, dir, w, t, h]);
    var path1, path2 := Join(joined, f1), Join(joined, f2);
    TmpFilePathIsJoin(tmpRoot, app, dir, w, t, h, f1);
    TmpFilePathIsJoin(tmpRoot, app, dir, w, t, h, f2);
    var arr := StageArray(tmpRoot, app, d1);
    var made := CreateDirSpec(fs, arr, now);
    // What the first staging left: the directories, then the first file.
    StageSuccess(fs, obj1, tmpRoot, app, now, mode);
    CreateDirEffect(fs, arr, now);
    CreateDirAddsShort(fs, arr, now, joined);
    CreateFileEffect(made.fs, JStr(path1), GetProp(obj1, "value"), now, mode);
    assert path1 in e1.fs;
    // The second finds every level there and makes nothing, and its file
    // goes into the directory holding the first file.
    CreateDirAgain(fs, e1.fs, arr, now, later);
    CanCreateBeside(e1.fs, joined, f1, f2);
    assert !(path2 in e1.fs && e1.fs[path2].Dir?);
    CreateFileEffect(e1.fs, JStr(path2), GetProp(obj2, "value"), later, mode);
    SecondStaging(e1.fs, obj2, tmpRoot, app, later, mode, joined);
    // The first result names the first file, which the second write spares.
    PairGet("data", d1, "filePath", JStr(path1));
    JoinDistinct(joined, f1, f2);
  }

  lemma TmpFilePathIsJoin(tmpRoot: string, app: string, dir: string, w: string, t: string, h: string, f: string)
    ensures var joined := Joined(tmpRoot, [LABEL, app, dir, w, t, h]);
      && TmpFilePath(tmpRoot, app, dir, w, t, h, f) == Join(joined, f)
      && joined != ""
  {
    var segs := [LABEL, app, dir, w, t, h, f];
    assert segs[..|segs| - 1] == [LABEL, app, dir, w, t, h];
  }

  /** A staging whose directory is already the joined path and whose file
      can be written succeeds, leaving what the write leaves. */
  lemma SecondStaging(fs: Fs, obj: JsVal, tmpRoot: string, app: string, now: int, mode: bv32, joined: string)
    requires obj.JObj? && Truthy(GetProp(obj, "data"))
    requires var d := GetProp(obj, "data");
      && GetProp(d, "dir").JStr? && GetProp(d, "windowId").JStr? && GetProp(d, "tabId").JStr? && GetProp(d, "host").JStr?
      && Truthy(GetProp(d, "dir")) && Truthy(GetProp(d, "windowId")) && Truthy(GetProp(d, "tabId")) && Truthy(GetProp(d, "host"))
      && joined == Joined(tmpRoot, [LABEL, app, GetProp(d, "dir").s, GetProp(d, "windowId").s, GetProp(d, "tabId").s, GetProp(d, "host").s])
      && CreateDirSpec(fs, StageArray(tmpRoot, app, d), now) == Effect(fs, Ok(JStr(joined)))
    requires var f := GetProp(GetProp(obj, "data"), "fileName"); f.JStr? && f.s != ""
    requires CreateFileSpec(fs, JStr(Join(joined, GetProp(GetProp(obj, "data"), "fileName").s)), GetProp(obj, "value"), now, mode).result.Ok?
    ensures var e := StageSpec(fs, obj, tmpRoot, app, now, mode);
      && e.result.Ok? && e.result.value != JNull
      && e.fs == CreateFileSpec(fs, JStr(Join(joined, GetProp(GetProp(obj, "data"), "fileName").s)), GetProp(obj, "value"), now, mode).fs
  {
  }

  /** When staging does not produce a file, no regular file is created or
      changed (directories on the way may have been made). */
  lemma StageFailureWritesNothing(fs: Fs, obj: JsVal, tmpRoot: string, app: string, now: int, mode: bv32)
    requires WellFormed(fs)
    requires var e := StageSpec(fs, obj, tmpRoot, app, now, mode); !(e.result.Ok? && e.result.value != JNull)
    ensures var e := StageSpec(fs, obj, tmpRoot, app, now, mode);
      && (forall k :: k in fs ==> k in e.fs && e.fs[k] == fs[k])
      && (forall k :: k in e.fs && k !in fs ==> e.fs[k].Dir?)
  {
    var o := if obj.JUndefined? then JObj([]) else obj;
    if !o.JNull? {
      var data := GetProp(o, "data");
      if Truthy(data) {
        StageDataFailure(fs, data, GetProp(o, "value"), tmpRoot, app, now, mode);
      }
    }
  }

  lemma StageDataFailure(fs: Fs, data: JsVal, value: JsVal, tmpRoot: string, app: string, now: int, mode: bv32)
    requires WellFormed(fs)
    requires var e := StageData(fs, data, value, tmpRoot, app, now, mode); !(e.result.Ok? && e.result.value != JNull)
    ensures var e := StageData(fs, data, value, tmpRoot, app, now, mode);
      && (forall k :: k in fs ==> k in e.fs && e.fs[k] == fs[k])
      && (forall k :: k in e.fs && k !in fs ==> e.fs[k].Dir?)
  {
    var arr := And(And(And(GetProp(data, "dir"), GetProp(data, "windowId")), GetProp(data, "tabId")), GetProp(data, "host"));
    if Truthy(arr) {
      CreateDirKeeps(fs, StageArray(tmpRoot, app, data), now);
      var made := CreateDirSpec(fs, StageArray(tmpRoot, app, data), now);
      if made.result.Ok? {
        StageWriteFailure(made.fs, made.result.value, data, value, tmpRoot, app, now, mode);
      }
    }
  }

  lemma StageWriteFailure(fs: Fs, dPath: JsVal, data: JsVal, value: JsVal, tmpRoot: string, app: string, now: int, mode: bv32)
    requires WellFormed(fs)
    requires var e := StageWrite(fs, dPath, data, value, tmpRoot, app, now, mode); !(e.result.Ok? && e.result.value != JNull)
    ensures StageWrite(fs, dPath, data, value, tmpRoot, app, now, mode).fs == fs
  {
    var dir, windowId, tabId, host := GetProp(data, "dir"), GetProp(data, "windowId"), GetProp(data, "tabId"), GetProp(data, "host");
    var fileName := GetProp(data, "fileName");
    if dir.JStr? && windowId.JStr? && tabId.JStr? && host.JStr? && fileName.JStr? {
      var joined := Joined(tmpRoot, [LABEL, app, dir.s, windowId.s, tabId.s, host.s]);
      CreateFileEffect(fs, JStr(Join(joined, fileName.s)), value, now, mode);
    }
  }

  /** `getTmpFile(data)`'s answer `{data, value}`. */
  function TmpFileReply(data: JsVal, value: string): JsVal {
    Pair("data", data, "value", JStr(value))
  }

  /** `portFileData(obj)`: when `data` is truthy and `filePath` a string,
      `data.filePath` is set and `{data, filePath}` is sent.  Under strict
      mode setting a property of a primitive throws; an array takes the
      property but does not serialise it. */
  function FileDataPort(obj: JsVal): (r: Result<seq<Frame>>)
    ensures obj.JNull? ==> r.Err?
    ensures r.Ok? && r.value != [] ==>
      var data := GetProp(obj, "data");
      var filePath := GetProp(obj, "filePath");
      && Truthy(data) && filePath.JStr? && |r.value| == 1
      && r.value[0].TmpFileDataPort? && r.value[0].filePath == filePath.s
      && (data.JObj? ==> GetProp(r.value[0].data, "filePath") == filePath
                         && forall k :: k != "filePath" ==> GetProp(r.value[0].data, k) == GetProp(data, k))
  {
    var o := if obj.JUndefined? then JObj([]) else obj;
    if o.JNull? then Err(TypeError("destructure"))
    else
      var data := GetProp(o, "data");
      var filePath := GetProp(o, "filePath");
      if !(Truthy(data) && filePath.JStr?) then Ok([])
      else if data.JObj? then
        var data' := SetProp(data, "filePath", filePath);
        assert forall k :: GetProp(data', k) == (if k == "filePath" then filePath else GetProp(data, k)) by {
          forall k { SetPropGet(data, "filePath", filePath, k); }
        }
        Ok([TmpFileDataPort(data', filePath.s)])
      else if data.JArr? then Ok([TmpFileDataPort(data, filePath.s)])
      else Err(TypeError("filePath"))
  }

  /** `portTmpFile(obj)`: sends `obj` when it has at least one key;
      `Object.keys(null)` throws. */
  function TmpFilePort(obj: JsVal): (r: Result<seq<Frame>>)
    ensures r.Err? <==> obj.JNull?
    ensures r.Ok? ==> (r.value != [] <==> OwnEntries(obj) != []) && (r.value != [] ==> r.value == [TmpFileRes(obj)])
  {
    if obj.JNull? then Err(TypeError("keys"))
    else if OwnEntries(obj) != [] then Ok([TmpFileRes(obj)])
    else Ok([])
  }

  // ---------------------------------------------------------------------
  // Startup status

  /** A "ready" host message is among the frames. */
  predicate HasReady(frames: seq<Frame>) {
    exists i :: 0 <= i < |frames| && frames[i].HostFrame? && frames[i].status == Ready
  }

  /** `portAppStatus([tmpDir, tmpDirPb])` as intended: "ready" when both
      directories were made, otherwise a warning for each that was not. */
  function AppStatusFrames(tmpDir: JsVal, tmpDirPb: JsVal, filesPath: string, pbPath: string, pid: nat): (r: seq<Frame>)
    ensures HasReady(r) <==> Truthy(tmpDir) && Truthy(tmpDirPb)
    ensures Truthy(tmpDir) && Truthy(tmpDirPb) ==> |r| == 1
    ensures !(Truthy(tmpDir) && Truthy(tmpDirPb)) ==>
      && |r| == (if Truthy(tmpDir) then 0 else 1) + (if Truthy(tmpDirPb) then 0 else 1)
      && (forall i :: 0 <= i < |r| ==> r[i].HostFrame? && r[i].status == Warn)
    ensures !Truthy(tmpDir) ==> r[0] == HostMsg(FailedToCreate(filesPath), Warn, pid)
    ensures !Truthy(tmpDirPb) ==> r[|r| - 1] == HostMsg(FailedToCreate(pbPath), Warn, pid)
  {
    if Truthy(tmpDir) && Truthy(tmpDirPb) then
      var r := [HostMsg(EditorConfigGetText, Ready, pid)];
      assert r[0].status == Ready;
      r
    else
      (if Truthy(tmpDir) then [] else [HostMsg(FailedToCreate(filesPath), Warn, pid)])
      + (if Truthy(tmpDirPb) then [] else [HostMsg(FailedToCreate(pbPath), Warn, pid)])
  }

  /** `portAppStatus` as written: on a failure it calls `path.join` with an
      array, which throws a type error, so the promise rejects and the
      startup handler reports that rejection instead of the warnings. */
  function AppStatusAsWritten(tmpDir: JsVal, tmpDirPb: JsVal, pid: nat): (r: seq<Frame>)
    ensures HasReady(r) <==> Truthy(tmpDir) && Truthy(tmpDirPb)
    ensures |r| == 1
    ensures !(Truthy(tmpDir) && Truthy(tmpDirPb)) ==> r[0].HostFrame? && r[0].status == Failure && r[0].message.Rejected?
  {
    if Truthy(tmpDir) && Truthy(tmpDirPb) then
      var r := [HostMsg(EditorConfigGetText, Ready, pid)];
      assert r[0].status == Ready;
      r
    else [HostMsg(Rejected(TypeError("path")), Failure, pid)]
  }

  /** Where a directory could not be made, the code as written reports a
      type error and no warning at all, while the intended status names the
      directory. */
  lemma AppStatusAsWrittenLosesWarning(pid: nat)
    ensures var written := AppStatusAsWritten(JNull, JStr("/tmp/pb"), pid);
      var intended := AppStatusFrames(JNull, JStr("/tmp/pb"), "/tmp/files", "/tmp/pb", pid);
      && written[0].HostFrame? && written[0].status == Failure
      && intended == [HostMsg(FailedToCreate("/tmp/files"), Warn, pid)]
      && written != intended
  {
  }

  // ---------------------------------------------------------------------
  // Dispatch

  /** A handler call `handleMsg` makes for one key. */
  datatype Task =
    | GetEditorConfigTask(arg: JsVal)
    | ViewLocalFileTask(arg: JsVal)
    | CreateTmpFileTask(arg: JsVal)
    | GetTmpFileTask(arg: JsVal)
    | InitPrivateTmpDirTask(arg: JsVal)
    | NoHandler(item: JsVal)

  /** The `switch` of index.js:313-333. */
  function Route(item: string, obj: JsVal): (t: Task)
    ensures t.NoHandler? <==> item !in KnownKeys
    ensures t.NoHandler? ==> t.item == JStr(item)
    ensures !t.NoHandler? ==> t.arg == obj
    ensures t.GetEditorConfigTask? <==> item == EDITOR_CONFIG_GET
    ensures t.ViewLocalFileTask? <==> item == LOCAL_FILE_VIEW
    ensures t.CreateTmpFileTask? <==> item == TMP_FILE_CREATE
    ensures t.GetTmpFileTask? <==> item == TMP_FILE_GET
    ensures t.InitPrivateTmpDirTask? <==> item == TMP_FILES_PB_REMOVE
  {
    if item == EDITOR_CONFIG_GET then GetEditorConfigTask(obj)
    else if item == LOCAL_FILE_VIEW then ViewLocalFileTask(obj)
    else if item == TMP_FILE_CREATE then CreateTmpFileTask(obj)
    else if item == TMP_FILE_GET then GetTmpFileTask(obj)
    else if item == TMP_FILES_PB_REMOVE then InitPrivateTmpDirTask(obj)
    else NoHandler(JStr(item))
  }

  /** One task per entry, in order. */
  function RouteAll(entries: seq<(string, JsVal)>): (ts: seq<Task>)
    ensures |ts| == |entries|
    ensures forall i :: 0 <= i < |ts| ==> ts[i] == Route(entries[i].0, entries[i].1)
  {
    if entries == [] then [] else [Route(entries[0].0, entries[0].1)] + RouteAll(entries[1..])
  }

  /** What `handleMsg(msg)` runs: a task per key in key order, or a single
      "no handler" for a falsy message or one without keys. */
  function Tasks(msg: JsVal): seq<Task> {
    if !Truthy(msg) || OwnEntries(msg) == [] then [NoHandler(msg)] else RouteAll(OwnEntries(msg))
  }

  /** `handleMsg` makes one task per key in key order, each known key going
      to its handler with the key's value and each unknown key to a single
      warning naming it; a falsy message or one without keys makes a single
      warning naming the message. */
  lemma TasksShape(msg: JsVal)
    ensures !Truthy(msg) || OwnEntries(msg) == [] ==> Tasks(msg) == [NoHandler(msg)]
    ensures Truthy(msg) && OwnEntries(msg) != [] ==>
      var ts, es := Tasks(msg), OwnEntries(msg);
      && |ts| == |es|
      && forall i :: 0 <= i < |ts| ==>
           && (ts[i].NoHandler? <==> es[i].0 !in KnownKeys)
           && (ts[i].NoHandler? ==> ts[i].item == JStr(es[i].0))
           && (!ts[i].NoHandler? ==> ts[i].arg == es[i].1)
  {
  }

  /** A task that may change the filesystem. */
  predicate TouchesDisk(t: Task) {
    t.CreateTmpFileTask? || t.InitPrivateTmpDirTask?
  }

  /** A message with neither a `createTmpFile` nor a `removePrivateTmpFiles`
      key makes no task that may change the filesystem. */
  lemma ReadOnlyMessage(msg: JsVal)
    requires forall i :: 0 <= i < |OwnEntries(msg)| ==>
      OwnEntries(msg)[i].0 != TMP_FILE_CREATE && OwnEntries(msg)[i].0 != TMP_FILES_PB_REMOVE
    ensures forall j :: 0 <= j < |Tasks(msg)| ==> !TouchesDisk(Tasks(msg)[j])
  {
  }

  /** Every task is a "no handler" warning. */
  predicate AllUnknown(ts: seq<Task>) {
    forall i :: 0 <= i < |ts| ==> ts[i].NoHandler?
  }

  /** The warnings a run of "no handler" tasks writes, one per task. */
  function NoHandlerFrames(ts: seq<Task>, pid: nat): (r: seq<Frame>)
    requires AllUnknown(ts)
    ensures |r| == |ts|
    ensures forall i :: 0 <= i < |ts| ==> r[i] == HostMsg(NoHandlerFound(ts[i].item), Warn, pid)
  {
    if ts == [] then [] else NoHandlerFrames(ts[..|ts| - 1], pid) + [HostMsg(NoHandlerFound(ts[|ts| - 1].item), Warn, pid)]
  }

  /** One more task keeps every task unknown only when it is unknown too,
      and then adds its warning at the end. */
  lemma UnknownSnoc(ts: seq<Task>, i: nat, pid: nat)
    requires i < |ts|
    ensures AllUnknown(ts[..i + 1]) <==> AllUnknown(ts[..i]) && ts[i].NoHandler?
    ensures AllUnknown(ts[..i + 1]) ==>
      NoHandlerFrames(ts[..i + 1], pid) == NoHandlerFrames(ts[..i], pid) + [HostMsg(NoHandlerFound(ts[i].item), Warn, pid)]
  {
    assert ts[..i + 1][..i] == ts[..i];
  }

  /** The frames of several tasks, one segment after another. */
  function Concat(segs: seq<seq<Frame>>): seq<Frame> {
    if segs == [] then [] else Concat(segs[..|segs| - 1]) + segs[|segs| - 1]
  }

  lemma ConcatSnoc(segs: seq<seq<Frame>>, seg: seq<Frame>)
    ensures Concat(segs + [seg]) == Concat(segs) + seg
  {
    assert (segs + [seg])[..|segs|] == segs;
  }

  /** When every task is unknown and wrote just its warning, together they
      wrote `NoHandlerFrames`. */
  lemma {:induction false} UnknownConcat(ts: seq<Task>, segs: seq<seq<Frame>>, pid: nat)
    requires AllUnknown(ts) && |segs| == |ts|
    requires forall i :: 0 <= i < |ts| && ts[i].NoHandler? ==> segs[i] == [HostMsg(NoHandlerFound(ts[i].item), Warn, pid)]
    ensures Concat(segs) == NoHandlerFrames(ts, pid)
  {
    if ts != [] {
      UnknownConcat(ts[..|ts| - 1], segs[..|segs| - 1], pid);
    }
  }

  // ---------------------------------------------------------------------
  // The host process

  class HostProcess {
    /** The filesystem. */
    const disk: Disk
    /** `os.tmpdir()`. */
    const tmpRoot: string
    /** `process.pid`. */
    const pid: nat
    /** The working directory `path.resolve` starts from. */
    const cwd: string
    const windows: bool
    /** `JSON.parse`. */
    const parse: string -> ParseOutcome
    /** `url.parse` and `decodeURIComponent`, as `convUriToFilePath` uses
        them. */
    const decodeFileUrl: string -> FileUrl
    /** The configuration record `vars`. */
    var vars: seq<(string, JsVal)>
    /** The frames written to stdout, in order. */
    var out: seq<Frame>
    /** The editor launches asked for, in order. */
    var launches: seq<Launch>

    ghost predicate Valid()
      reads this, disk
    {
      disk.Valid() && tmpRoot != ""
    }

    constructor (disk0: Disk, tmpRoot0: string, pid0: nat, cwd0: string, windows0: bool,
                 parse0: string -> ParseOutcome, decodeFileUrl0: string -> FileUrl)
      requires disk0.Valid() && tmpRoot0 != ""
      ensures Valid()
      ensures disk == disk0 && tmpRoot == tmpRoot0 && pid == pid0 && cwd == cwd0 && windows == windows0
      ensures parse == parse0 && decodeFileUrl == decodeFileUrl0
      ensures vars == InitialVars && out == [] && launches == []
    {
      disk := disk0;
      tmpRoot := tmpRoot0;
      pid := pid0;
      cwd := cwd0;
      windows := windows0;
      parse := parse0;
      decodeFileUrl := decodeFileUrl0;
      vars := InitialVars;
      out := [];
      launches := [];
    }

    /** `APP`, the process id as a string. */
    function App(): string {
      Decimal(pid)
    }

    /** `path.join(...DIR_TMP_FILES_PB)`. */
    function PrivateDir(): string {
      Joined(tmpRoot, [LABEL, App(), TMP_FILES_PB])
    }

    /** `path.join(...DIR_TMP_FILES)`. */
    function FilesDir(): string {
      Joined(tmpRoot, [LABEL, App(), TMP_FILES])
    }

    /** `portAppStatus([tmpDir, tmpDirPb])`, reporting failures as
        intended. */
    method PortAppStatus(tmpDir: JsVal, tmpDirPb: JsVal)
      modifies this
      ensures out == old(out) + AppStatusFrames(tmpDir, tmpDirPb, FilesDir(), PrivateDir(), pid)
      ensures vars == old(vars) && launches == old(launches)
    {
      var func: seq<Frame> := [];
      if Truthy(tmpDir) && Truthy(tmpDirPb) {
        func := func + [HostMsg(EditorConfigGetText, Ready, pid)];
      } else {
        if !Truthy(tmpDir) {
          func := func + [HostMsg(FailedToCreate(FilesDir()), Warn, pid)];
        }
        if !Truthy(tmpDirPb) {
          func := func + [HostMsg(FailedToCreate(PrivateDir()), Warn, pid)];
        }
      }
      out := out + func;
    }

    /** The startup sequence: make both temporary directories, then report
        the status, or the first rejection. */
    method Startup(now: int)
      requires Valid()
      modifies this, disk
      ensures Valid()
      ensures var a := CreateDirSpec(old(disk.entries), JArr([JStr(tmpRoot), JStr(LABEL), JStr(App()), JStr(TMP_FILES)]), now);
        var b := CreateDirSpec(a.fs, JArr([JStr(tmpRoot), JStr(LABEL), JStr(App()), JStr(TMP_FILES_PB)]), now);
        && disk.entries == b.fs
        && (a.result.Err? ==> out == old(out) + [HostMsg(Rejected(a.result.error), Failure, pid)])
        && (a.result.Ok? && b.result.Err? ==> out == old(out) + [HostMsg(Rejected(b.result.error), Failure, pid)])
        && (a.result.Ok? && b.result.Ok? ==>
              out == old(out) + AppStatusFrames(a.result.value, b.result.value, FilesDir(), PrivateDir(), pid))
      ensures vars == old(vars) && launches == old(launches)
    {
      var a := disk.CreateDir(JArr([JStr(tmpRoot), JStr(LABEL), JStr(App()), JStr(TMP_FILES)]), now);
      var b := disk.CreateDir(JArr([JStr(tmpRoot), JStr(LABEL), JStr(App()), JStr(TMP_FILES_PB)]), now);
      if a.Err? {
        out := out + [HostMsg(Rejected(a.error), Failure, pid)];
      } else if b.Err? {
        out := out + [HostMsg(Rejected(b.error), Failure, pid)];
      } else {
        PortAppStatus(a.value, b.value);
      }
    }

    /** `portEditorConfig(data, editorConfig)`, merging key by key. */
    method PortEditorConfig(data: string, editorConfig: string)
      requires Valid()
      modifies this
      ensures Valid()
      ensures var c := EditorConfigSpec(old(vars), disk.entries, data, editorConfig, parse, windows, pid);
        vars == c.vars && out == old(out) + c.frames
      ensures launches == old(launches)
    {
      if data == "" {
        return;
      }
      match parse(data)
      case SyntaxError(e) =>
        out := out + [HostMsg(ConfigError(e, editorConfig), Failure, pid)];
      case Parsed(v) =>
        if Truthy(v) {
          var editorPath := GetProp(v, EDITOR_PATH);
          var editorName := GetFileNameFromFilePath(editorPath);
          var executable := IsExecutable(disk.entries, editorPath, windows);
          MergeVars(OwnEntries(v));
          out := out + [EditorConfigRes(Some(EditorConfigReply(editorConfig, editorName, editorPath, executable)))];
        }
    }

    /** `for (const item of items) vars[item] = data[item]`. */
    method MergeVars(items: seq<(string, JsVal)>)
      modifies this
      ensures vars == Merged(old(vars), items)
      ensures out == old(out) && launches == old(launches)
    {
      var i := 0;
      while i < |items|
        invariant 0 <= i <= |items|
        invariant vars == Merged(old(vars), items[..i])
        invariant out == old(out) && launches == old(launches)
      {
        assert items[..i + 1][..i] == items[..i];
        vars := Assign(vars, items[i].0, items[i].1);
        i := i + 1;
      }
      assert items[..i] == items;
    }

    /** `getEditorConfig(filePath)`: the given path, or the default one
        when it is not a non-empty string; a missing file is one warning and
        one null reply. */
    method GetEditorConfig(filePath: JsVal)
      requires Valid()
      modifies this
      ensures Valid()
      ensures var fp := if filePath.JStr? && filePath.s != "" then filePath.s else DefaultConfigPath(cwd);
        && (!IsFile(disk.entries, JStr(fp)) ==>
              out == old(out) + [HostMsg(IsNotAFile(JStr(fp)), Warn, pid), EditorConfigRes(None)] && vars == old(vars))
        && (IsFile(disk.entries, JStr(fp)) ==>
              var c := EditorConfigSpec(old(vars), disk.entries, disk.entries[fp].content, fp, parse, windows, pid);
              vars == c.vars && out == old(out) + c.frames)
      ensures launches == old(launches)
      ensures old(out) <= out
    {
      var fp := if filePath.JStr? && filePath.s != "" then filePath.s else DefaultConfigPath(cwd);
      if IsFile(disk.entries, JStr(fp)) {
        var data := ReadFile(disk.entries, JStr(fp));
        PortEditorConfig(data.value, fp);
      } else {
        out := out + [HostMsg(IsNotAFile(JStr(fp)), Warn, pid), EditorConfigRes(None)];
      }
    }

    /** `spawnChildProcess(file, app)` up to the call of `execFile`. */
    method SpawnChildProcess(file: JsVal, app: JsVal)
      modifies this
      ensures var s := SpawnOutcome(disk.entries, old(vars), file, app, windows, pid);
        out == old(out) + s.frames && launches == old(launches) + s.launches
      ensures vars == old(vars)
    {
      if !IsFile(disk.entries, file) {
        out := out + [HostMsg(IsNotAFile(file), Warn, pid)];
        return;
      }
      if !IsExecutable(disk.entries, app, windows) {
        out := out + [HostMsg(IsNotExecutable(app), Warn, pid)];
        return;
      }
      var args := ArgVector(Lookup(vars, CMD_ARGS), Lookup(vars, FILE_AFTER_ARGS), file.s);
      launches := launches + [Launch(app.s, args)];
    }

    /** `viewLocalFile(uri)`: opens the file the URI names, if any, in the
        configured editor; rejects as `convUriToFilePath` does. */
    method ViewLocalFile(uri: JsVal) returns (r: Outcome)
      modifies this
      ensures var c := ConvUriToFilePath(uri, decodeFileUrl);
        && (c.Err? ==> r == Fail(c.error) && out == old(out) && launches == old(launches))
        && (c.Ok? && !Truthy(c.value) ==> r == Pass && out == old(out) && launches == old(launches))
        && (c.Ok? && Truthy(c.value) ==>
              var s := SpawnOutcome(disk.entries, old(vars), c.value, Lookup(old(vars), EDITOR_PATH), windows, pid);
              r == Pass && out == old(out) + s.frames && launches == old(launches) + s.launches)
      ensures vars == old(vars)
      ensures old(out) <= out
    {
      var file := ConvUriToFilePath(uri, decodeFileUrl);
      if file.Err? {
        return Fail(file.error);
      }
      if Truthy(file.value) {
        SpawnChildProcess(file.value, Lookup(vars, EDITOR_PATH));
      }
      r := Pass;
    }

    /** `portFileData(obj)`. */
    method PortFileData(obj: JsVal) returns (r: Outcome)
      modifies this
      ensures var p := FileDataPort(obj);
        && (p.Ok? ==> r == Pass && out == old(out) + p.value)
        && (p.Err? ==> r == Fail(p.error) && out == old(out))
      ensures vars == old(vars) && launches == old(launches)
    {
      var p := FileDataPort(obj);
      if p.Err? {
        return Fail(p.error);
      }
      out := out + p.value;
      r := Pass;
    }

    /** `portTmpFile(obj)`. */
    method PortTmpFile(obj: JsVal) returns (r: Outcome)
      modifies this
      ensures var p := TmpFilePort(if obj.JUndefined? then JObj([]) else obj);
        && (p.Ok? ==> r == Pass && out == old(out) + p.value)
        && (p.Err? ==> r == Fail(p.error) && out == old(out))
      ensures vars == old(vars) && launches == old(launches)
    {
      var p := TmpFilePort(if obj.JUndefined? then JObj([]) else obj);
      if p.Err? {
        return Fail(p.error);
      }
      out := out + p.value;
      r := Pass;
    }

    /** `getTmpFile(data)`: `{data, value: ""}` when there is no file path;
        otherwise `data.timestamp` is set to the file's mtime and the file's
        content is read, rejecting when it is not a regular file. */
    method GetTmpFile(data: JsVal) returns (r: Result<JsVal>)
      ensures data.JNull? ==> r == Err(TypeError("destructure"))
      ensures !data.JNull? && !Truthy(GetProp(data, "filePath")) ==>
        r == Ok(TmpFileReply(if data.JUndefined? then JObj([]) else data, ""))
      ensures var fp := GetProp(data, "filePath");
        Truthy(fp) ==>
          && (r.Ok? <==> IsFile(disk.entries, fp))
          && (r.Err? ==> r.error == NotAFile(fp))
          && (r.Ok? ==>
                var d := GetProp(r.value, "data");
                && GetProp(d, "timestamp") == JNum(disk.entries[fp.s].mtime)
                && (forall k :: k != "timestamp" ==> GetProp(d, k) == GetProp(data, k))
                && GetProp(r.value, "value") == JStr(disk.entries[fp.s].content))
    {
      var d := if data.JUndefined? then JObj([]) else data;
      if d.JNull? {
        return Err(TypeError("destructure"));
      }
      var filePath := GetProp(d, "filePath");
      if !Truthy(filePath) {
        return Ok(TmpFileReply(d, ""));
      }
      // `|| 0` adds nothing: the timestamp is already 0 when missing
      var timestamp := GetFileTimestamp(disk.entries, filePath);
      var d' := SetProp(d, "timestamp", JNum(timestamp));
      forall k ensures GetProp(d', k) == (if k == "timestamp" then JNum(timestamp) else GetProp(d, k)) {
        SetPropGet(d, "timestamp", JNum(timestamp), k);
      }
      var value := ReadFile(disk.entries, filePath);
      if value.Err? {
        return Err(value.error);
      }
      r := Ok(TmpFileReply(d', value.value));
      PairGet("data", d', "value", JStr(value.value));
    }

    /** `createTmpFile(obj)`. */
    method CreateTmpFile(obj: JsVal, now: int) returns (r: Result<JsVal>, ghost e: Effect)
      requires Valid()
      modifies disk
      ensures Valid()
      ensures e == StageSpec(old(disk.entries), obj, tmpRoot, App(), now, PERM_FILE & !disk.umask)
      ensures disk.entries == e.fs && r == e.result
      ensures r.Ok? && r.value != JNull ==>
        var fp := GetProp(r.value, "filePath"); fp.JStr? && fp.s != "" && IsFile(disk.entries, fp)
    {
      e := StageSpec(disk.entries, obj, tmpRoot, App(), now, PERM_FILE & !disk.umask);
      var o := if obj.JUndefined? then JObj([]) else obj;
      if o.JNull? {
        return Err(TypeError("destructure")), e;
      }
      var data := GetProp(o, "data");
      var value := GetProp(o, "value");
      if !Truthy(data) {
        return Ok(JNull), e;
      }
      ghost var fs0 := disk.entries;
      r := StageTmpFile(data, value, now);
      if r.Ok? && r.value != JNull {
        StageOpened(fs0, obj, tmpRoot, App(), now, PERM_FILE & !disk.umask);
      }
    }

    /** The body of `createTmpFile` once `data` is truthy: makes the
        directory, then writes the file. */
    method StageTmpFile(data: JsVal, value: JsVal, now: int) returns (r: Result<JsVal>)
      requires Valid()
      modifies disk
      ensures Valid()
      ensures var e := StageData(old(disk.entries), data, value, tmpRoot, App(), now, PERM_FILE & !disk.umask);
        disk.entries == e.fs && r == e.result
    {
      var dir, host, tabId, windowId := GetProp(data, "dir"), GetProp(data, "host"), GetProp(data, "tabId"), GetProp(data, "windowId");
      var arr := And(And(And(dir, windowId), tabId), host);
      if !Truthy(arr) {
        return if arr == JStr("") then Ok(JNull) else Err(TypeError("iterable"));
      }
      var dPath := disk.CreateDir(StageArray(tmpRoot, App(), data), now);
      if dPath.Err? {
        return dPath;
      }
      r := WriteTmpFile(dPath.value, data, value, now);
    }

    /** The file-writing half of `createTmpFile`, given the path `createDir`
        resolved. */
    method WriteTmpFile(dPath: JsVal, data: JsVal, value: JsVal, now: int) returns (r: Result<JsVal>)
      requires Valid()
      modifies disk
      ensures Valid()
      ensures var e := StageWrite(old(disk.entries), dPath, data, value, tmpRoot, App(), now, PERM_FILE & !disk.umask);
        disk.entries == e.fs && r == e.result
    {
      var dir, host, tabId, windowId := GetProp(data, "dir"), GetProp(data, "host"), GetProp(data, "tabId"), GetProp(data, "windowId");
      var fileName := GetProp(data, "fileName");
      if !(dir.JStr? && windowId.JStr? && tabId.JStr? && host.JStr?) {
        return Err(TypeError("path"));
      }
      var joined := Joined(tmpRoot, [LABEL, App(), dir.s, windowId.s, tabId.s, host.s]);
      if dPath != JStr(joined) || !Truthy(fileName) {
        return Ok(JNull);
      }
      if !fileName.JStr? {
        return Err(TypeError("path"));
      }
      var filePath := disk.CreateFile(JStr(Join(joined, fileName.s)), value, now);
      if filePath.Err? {
        return filePath;
      }
      r := Ok(Pair("data", data, "filePath", filePath.value));
    }

    /** `handleCreatedTmpFile(obj)`: with a file path, opens it in the
        editor and sends the file data back; `null` cannot be
        destructured. */
    method HandleCreatedTmpFile(obj: JsVal) returns (r: Outcome)
      modifies this
      ensures obj.JNull? ==> r == Fail(TypeError("destructure")) && out == old(out) && launches == old(launches)
      ensures !obj.JNull? && !Truthy(GetProp(obj, "filePath")) ==> r == Pass && out == old(out) && launches == old(launches)
      ensures var fp := GetProp(obj, "filePath");
        Truthy(fp) ==>
          var s := SpawnOutcome(disk.entries, old(vars), fp, Lookup(old(vars), EDITOR_PATH), windows, pid);
          var p := FileDataPort(obj);
          && launches == old(launches) + s.launches
          && out == old(out) + s.frames + (if p.Ok? then p.value else [])
          && r == (if p.Ok? then Pass else Fail(p.error))
      ensures vars == old(vars) && old(out) <= out
    {
      var o := if obj.JUndefined? then JObj([]) else obj;
      if o.JNull? {
        return Fail(TypeError("destructure"));
      }
      var filePath := GetProp(o, "filePath");
      if Truthy(filePath) {
        SpawnChildProcess(filePath, Lookup(vars, EDITOR_PATH));
        r := PortFileData(o);
      } else {
        r := Pass;
      }
    }

    /** `initPrivateTmpDir(flag)`: with a truthy flag, removes the private
        temporary directory and makes it again. Its two warnings (the
        directory survives the removal, or is not the one made) are never
        emitted: the removal is complete and a resolved `createDir` names
        exactly that directory, so a successful remake emits nothing. */
    method InitPrivateTmpDir(flag: JsVal, now: int) returns (r: Outcome)
      requires Valid()
      modifies this, disk
      ensures Valid()
      ensures !Truthy(flag) ==> r == Pass && disk.entries == old(disk.entries) && out == old(out)
      ensures Truthy(flag) && !IsSubDir(old(disk.entries), JStr(PrivateDir()), JStr(tmpRoot)) ==>
        r == Fail(NotASubdirectory(JStr(PrivateDir()), JStr(tmpRoot))) && disk.entries == old(disk.entries) && out == old(out)
      ensures Truthy(flag) && IsSubDir(old(disk.entries), JStr(PrivateDir()), JStr(tmpRoot)) ==>
        var cleared := old(disk.entries) - Beneath(old(disk.entries), PrivateDir());
        var e := CreateDirSpec(cleared, JArr([JStr(tmpRoot), JStr(LABEL), JStr(App()), JStr(TMP_FILES_PB)]), now);
        && disk.entries == e.fs
        && (e.result.Err? ==> r == Fail(e.result.error) && out == old(out))
        && (e.result.Ok? ==> r == Pass && out == old(out))
      ensures vars == old(vars) && launches == old(launches)
      ensures old(out) <= out
    {
      if !Truthy(flag) {
        return Pass;
      }
      var dir := PrivateDir();
      var removed := disk.RemoveDir(JStr(dir), JStr(tmpRoot));
      if removed.Fail? {
        return removed;
      }
      // The removal is complete, so the "Failed to remove" branch of
      // index.js:212-213 cannot be taken.
      BeneathContains(old(disk.entries), dir);
      assert !IsDir(disk.entries, JStr(dir));
      ghost var cleared := disk.entries;
      var dPath := disk.CreateDir(JArr([JStr(tmpRoot), JStr(LABEL), JStr(App()), JStr(TMP_FILES_PB)]), now);
      if dPath.Err? {
        return Fail(dPath.error);
      }
      // A resolved `createDir` names the joined path, so the "Failed to
      // create" branch of index.js:217 cannot be taken either.
      TmpDirResolves(cleared, tmpRoot, App(), TMP_FILES_PB, now);
      assert dPath.value == JStr(dir);
      r := Pass;
    }

    /** `createTmpFile(obj).then(handleCreatedTmpFile)`: stages the file,
        then opens it in the editor and sends its data back; staging that
        resolves `null` makes `handleCreatedTmpFile` reject. */
    method StageAndOpen(obj: JsVal, now: int) returns (r: Outcome, ghost e: Effect)
      requires Valid()
      modifies this, disk
      ensures Valid()
      ensures e == StageSpec(old(disk.entries), obj, tmpRoot, App(), now, PERM_FILE & !disk.umask)
      ensures disk.entries == e.fs
      ensures e.result.Err? ==> r == Fail(e.result.error) && out == old(out) && launches == old(launches)
      ensures e.result == Ok(JNull) ==> r == Fail(TypeError("destructure")) && out == old(out) && launches == old(launches)
      ensures e.result.Ok? && e.result.value != JNull ==>
        var fp := GetProp(e.result.value, "filePath");
        && fp.JStr? && IsFile(e.fs, fp)
        && launches == old(launches) + SpawnOutcome(e.fs, old(vars), fp, Lookup(old(vars), EDITOR_PATH), windows, pid).launches
      ensures old(out) <= out && vars == old(vars)
    {
      var staged;
      staged, e := CreateTmpFile(obj, now);
      if staged.Err? {
        return Fail(staged.error), e;
      }
      if staged.value != JNull {
        assert Truthy(GetProp(staged.value, "filePath"));
      }
      r := HandleCreatedTmpFile(staged.value);
    }

    /** `getTmpFile(obj).then(portTmpFile)`: reads the staged file back and
        sends it, writing at most one frame and changing nothing else. */
    method FetchTmpFile(obj: JsVal) returns (r: Outcome)
      modifies this
      ensures old(out) <= out && |out| <= |old(out)| + 1
      ensures vars == old(vars) && launches == old(launches)
      ensures obj.JNull? ==> r == Fail(TypeError("destructure")) && out == old(out)
    {
      var reply := GetTmpFile(obj);
      if reply.Err? {
        return Fail(reply.error);
      }
      r := PortTmpFile(reply.value);
    }

    /** Runs one task of `handleMsg`, giving how its promise settles and
        the frames it wrote. */
    method RunTask(t: Task, now: int) returns (r: Outcome, ghost seg: seq<Frame>)
      requires Valid()
      modifies this, disk
      ensures Valid()
      ensures out == old(out) + seg
      ensures t.NoHandler? ==>
        && r == Pass && seg == [HostMsg(NoHandlerFound(t.item), Warn, pid)]
        && vars == old(vars) && launches == old(launches) && disk.entries == old(disk.entries)
      ensures !TouchesDisk(t) ==> disk.entries == old(disk.entries)
      ensures t.GetEditorConfigTask? ==> r == Pass
    {
      if t.NoHandler? {
        out := out + [HostMsg(NoHandlerFound(t.item), Warn, pid)];
        r := Pass;
      } else if TouchesDisk(t) {
        r := RunDiskTask(t, now);
      } else {
        r := RunReadOnlyTask(t);
      }
      seg := out[|old(out)|..];
    }

    /** The two handlers that may change the filesystem. */
    method RunDiskTask(t: Task, now: int) returns (r: Outcome)
      requires Valid() && TouchesDisk(t)
      modifies this, disk
      ensures Valid() && old(out) <= out
    {
      match t {
        case CreateTmpFileTask(a) =>
          ghost var e;
          r, e := StageAndOpen(a, now);
        case InitPrivateTmpDirTask(a) =>
          r := InitPrivateTmpDir(a, now);
      }
    }

    /** The three handlers that only read the filesystem. */
    method RunReadOnlyTask(t: Task) returns (r: Outcome)
      requires Valid() && !TouchesDisk(t) && !t.NoHandler?
      modifies this
      ensures Valid() && old(out) <= out
      ensures t.GetEditorConfigTask? ==> r == Pass
    {
      match t {
        case GetEditorConfigTask(a) =>
          GetEditorConfig(a);
          r := Pass;
        case ViewLocalFileTask(a) =>
          r := ViewLocalFile(a);
        case GetTmpFileTask(a) =>
          r := FetchTmpFile(a);
      }
    }

    /** Runs each task in order, giving the first rejection among them and,
        task by task, the frames each one wrote. */
    method RunTasks(ts: seq<Task>, now: int) returns (r: Outcome, ghost segs: seq<seq<Frame>>)
      requires Valid()
      modifies this, disk
      ensures Valid()
      ensures |segs| == |ts| && out == old(out) + Concat(segs)
      ensures forall i :: 0 <= i < |ts| && ts[i].NoHandler? ==> segs[i] == [HostMsg(NoHandlerFound(ts[i].item), Warn, pid)]
      ensures AllUnknown(ts) ==>
        && r == Pass && out == old(out) + NoHandlerFrames(ts, pid)
        && vars == old(vars) && launches == old(launches) && disk.entries == old(disk.entries)
      ensures (forall j :: 0 <= j < |ts| ==> !TouchesDisk(ts[j])) ==> disk.entries == old(disk.entries)
    {
      r := Pass;
      segs := [];
      var i := 0;
      while i < |ts|
        invariant Valid()
        invariant 0 <= i <= |ts|
        invariant |segs| == i && out == old(out) + Concat(segs)
        invariant forall j :: 0 <= j < i && ts[j].NoHandler? ==> segs[j] == [HostMsg(NoHandlerFound(ts[j].item), Warn, pid)]
        invariant AllUnknown(ts[..i]) ==> r == Pass && vars == old(vars) && launches == old(launches) && disk.entries == old(disk.entries)
        invariant (forall j :: 0 <= j < i ==> !TouchesDisk(ts[j])) ==> disk.entries == old(disk.entries)
      {
        ghost var prev := segs;
        var settled, seg := RunTask(ts[i], now);
        segs := prev + [seg];
        ConcatSnoc(prev, seg);
        UnknownSnoc(ts, i, pid);
        if r.Pass? { r := settled; }
        i := i + 1;
      }
      assert ts[..i] == ts;
      if AllUnknown(ts) {
        UnknownConcat(ts, segs, pid);
      }
    }

    /** `handleMsg(msg)`: runs a task per key of the message in key order,
        giving its tasks, the first rejection among them and, task by task,
        the frames each one wrote. */
    method HandleMsg(msg: JsVal, now: int) returns (tasks: seq<Task>, r: Outcome, ghost segs: seq<seq<Frame>>)
      requires Valid()
      modifies this, disk
      ensures Valid()
      ensures tasks == Tasks(msg)
      ensures |segs| == |tasks| && out == old(out) + Concat(segs)
      ensures forall i :: 0 <= i < |tasks| && tasks[i].NoHandler? ==> segs[i] == [HostMsg(NoHandlerFound(tasks[i].item), Warn, pid)]
      ensures AllUnknown(tasks) ==>
        && r == Pass && out == old(out) + NoHandlerFrames(tasks, pid)
        && vars == old(vars) && launches == old(launches) && disk.entries == old(disk.entries)
      ensures (forall j :: 0 <= j < |tasks| ==> !TouchesDisk(tasks[j])) ==> disk.entries == old(disk.entries)
    {
      tasks := Tasks(msg);
      r, segs := RunTasks(tasks, now);
    }
  }

  /** `createDir([tmp, LABEL, app, leaf])` resolves, when it does, with
      their joined path. */
  lemma TmpDirResolves(fs: Fs, tmpRoot: string, app: string, leaf: string, now: int)
    requires tmpRoot != "" && app != "" && leaf != ""
    ensures var e := CreateDirSpec(fs, JArr([JStr(tmpRoot), JStr(LABEL), JStr(app), JStr(leaf)]), now);
      e.result.Ok? ==> e.result.value == JStr(Joined(tmpRoot, [LABEL, app, leaf]))
  {
    var arr := JArr([JStr(tmpRoot), JStr(LABEL), JStr(app), JStr(leaf)]);
    var rest := arr.items[1..];
    assert rest[..|rest| - 1] == [JStr(LABEL), JStr(app)];
    assert rest[..|rest| - 1][..1] == [JStr(LABEL)];
    assert ValidSegments([JStr(LABEL)]) == [LABEL] by {
      assert [JStr(LABEL)][..0] == [];
    }
    assert ValidSegments([JStr(LABEL), JStr(app)]) == [LABEL, app];
    assert ValidSegments(rest) == [LABEL, app, leaf];
    if CreateDirSpec(fs, arr, now).result.Ok? {
      CreateDirResolvesPath(fs, arr, now);
    }
  }

  /** Starting up on a filesystem where both temporary directories can be
      made yields exactly the "ready" message. */
  lemma StartupReady(fs: Fs, tmpRoot: string, app: string, now: int, filesPath: string, pbPath: string, pid: nat)
    requires tmpRoot != ""
    requires var a := CreateDirSpec(fs, JArr([JStr(tmpRoot), JStr(LABEL), JStr(app), JStr(TMP_FILES)]), now);
      var b := CreateDirSpec(a.fs, JArr([JStr(tmpRoot), JStr(LABEL), JStr(app), JStr(TMP_FILES_PB)]), now);
      a.result.Ok? && b.result.Ok?
    ensures var a := CreateDirSpec(fs, JArr([JStr(tmpRoot), JStr(LABEL), JStr(app), JStr(TMP_FILES)]), now);
      var b := CreateDirSpec(a.fs, JArr([JStr(tmpRoot), JStr(LABEL), JStr(app), JStr(TMP_FILES_PB)]), now);
      AppStatusFrames(a.result.value, b.result.value, filesPath, pbPath, pid) == [HostMsg(EditorConfigGetText, Ready, pid)]
  {
    var arrA := JArr([JStr(tmpRoot), JStr(LABEL), JStr(app), JStr(TMP_FILES)]);
    var a := CreateDirSpec(fs, arrA, now);
    assert Truthy(a.result.value) by {
      CreateDirResolvesPath(fs, arrA, now);
    }
    var arrB := JArr([JStr(tmpRoot), JStr(LABEL), JStr(app), JStr(TMP_FILES_PB)]);
    var b := CreateDirSpec(a.fs, arrB, now);
    assert Truthy(b.result.value) by {
      CreateDirResolvesPath(a.fs, arrB, now);
    }
  }
}
