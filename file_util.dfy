/** The filesystem helpers of modules/file-util.js over an abstract POSIX
    filesystem: a map from path strings to nodes. */
module FileUtil {
  import opened Js
  import opened PathUtil

  /** 0o111: any execute bit. */
  const MASK_BIT: bv32 := 0x49
  /** 0o666: the permission `createFile` asks for. */
  const PERM_FILE: bv32 := 0x1B6

  datatype Node = Dir(mtime: int) | File(content: string, mode: bv32, mtime: int)

  type Fs = map<string, Node>

  /** A filesystem a real one could be: no empty path, no path with a
      trailing slash, and every proper ancestor of an entry (its prefix
      before a `/` other than the leading one) is a directory. */
  ghost predicate WellFormed(fs: Fs) {
    forall k :: k in fs ==> k != "" && k[|k| - 1] != '/' && ParentsAreDirs(fs, k)
  }

  /** Every proper prefix of `k` that ends before a `/` is a directory. */
  ghost predicate ParentsAreDirs(fs: Fs, k: string) {
    forall i :: 0 < i < |k| && k[i] == '/' ==> k[..i] in fs && fs[k[..i]].Dir?
  }

  /** `isFile(file)`. */
  predicate IsFile(fs: Fs, file: JsVal) {
    file.JStr? && file.s in fs && fs[file.s].File?
  }

  /** `isDir(dir)`. */
  predicate IsDir(fs: Fs, dir: JsVal) {
    dir.JStr? && dir.s in fs && fs[dir.s].Dir?
  }

  /** `isExecutable(file)`: a regular file with an execute bit set, or on
      Windows one whose path ends in `.exe`. */
  predicate IsExecutable(fs: Fs, file: JsVal, windows: bool) {
    IsFile(fs, file) && (fs[file.s].mode & MASK_BIT != 0 || (windows && EndsWith(file.s, ".exe")))
  }

  /** `isSubDir(dir, baseDir)`: both are directories and the `dir` string
      starts with the `baseDir` string. */
  predicate IsSubDir(fs: Fs, dir: JsVal, base: JsVal) {
    IsDir(fs, dir) && IsDir(fs, base) && StartsWith(dir.s, base.s)
  }

  /** `getFileTimestamp(file)`. */
  function GetFileTimestamp(fs: Fs, file: JsVal): (r: int)
    ensures !(file.JStr? && file.s in fs) ==> r == 0
    ensures file.JStr? && file.s in fs ==> r == fs[file.s].mtime
  {
    if file.JStr? && file.s in fs && fs[file.s].mtime != 0 then fs[file.s].mtime else 0
  }

  /** `readFile(file)`: the content of a regular file, else a rejection. */
  function ReadFile(fs: Fs, file: JsVal): (r: Result<string>)
    ensures r.Ok? <==> IsFile(fs, file)
    ensures r.Ok? ==> r.value == fs[file.s].content
    ensures r.Err? ==> r.error == NotAFile(file)
  {
    if IsFile(fs, file) then Ok(fs[file.s].content) else Err(NotAFile(file))
  }

  /** `isFile` and `isDir` hold only for an existing path named by a string,
      and never both at once. */
  lemma KindQueries(fs: Fs, v: JsVal)
    ensures !(IsFile(fs, v) && IsDir(fs, v))
    ensures !(v.JStr? && v.s in fs) ==> !IsFile(fs, v) && !IsDir(fs, v)
    ensures v.JStr? && v.s in fs ==> IsFile(fs, v) || IsDir(fs, v)
  {
  }

  /** `isExecutable` is false for anything that is not a regular file; a
      regular file qualifies with any bit of 0o111 set, and off Windows
      only then; on Windows a `.exe` suffix qualifies as well. */
  lemma ExecutableQuery(fs: Fs, v: JsVal, windows: bool)
    ensures !IsFile(fs, v) ==> !IsExecutable(fs, v, windows)
    ensures IsFile(fs, v) && fs[v.s].mode & MASK_BIT != 0 ==> IsExecutable(fs, v, windows)
    ensures IsFile(fs, v) && !windows ==> (IsExecutable(fs, v, false) <==> fs[v.s].mode & MASK_BIT != 0)
    ensures IsFile(fs, v) && windows && EndsWith(v.s, ".exe") ==> IsExecutable(fs, v, true)
  {
  }

  /** The guard refuses anything but two existing directories, and it is
      transitive: a subdirectory of a subdirectory of `base` passes it. */
  lemma IsSubDirTransitive(fs: Fs, a: JsVal, b: JsVal, c: JsVal)
    ensures !IsDir(fs, a) || !IsDir(fs, b) ==> !IsSubDir(fs, a, b)
    ensures IsSubDir(fs, a, b) && IsSubDir(fs, b, c) ==> IsSubDir(fs, a, c)
  {
    if IsSubDir(fs, a, b) && IsSubDir(fs, b, c) {
      StartsWithTrans(a.s, b.s, c.s);
    }
  }

  /** The `dir` argument itself qualifies as its own subdirectory. */
  lemma IsSubDirReflexive(fs: Fs, dir: JsVal)
    requires IsDir(fs, dir)
    ensures IsSubDir(fs, dir, dir)
  {
  }

  /** The guard is a string-prefix test, not a path-segment test: a sibling
      whose name extends the base's name passes it. */
  lemma IsSubDirIsStringPrefix()
    ensures var fs := map["/tmp" := Dir(0), "/tmp/a" := Dir(0), "/tmp/ab" := Dir(0)];
            IsSubDir(fs, JStr("/tmp/ab"), JStr("/tmp/a"))
  {
    assert "/tmp/ab"[..6] == "/tmp/a";
  }

  /** What `url.parse` and `decodeURIComponent` make of a string: not a
      `file:` URL with a path, the decoded path of one, or a malformed
      escape, on which `decodeURIComponent` throws. */
  datatype FileUrl = NotAFileUrl | FileUrlPath(path: string) | MalformedUri

  /** `convUriToFilePath(uri)` on POSIX: a non-string rejects with a type
      error; a `file:` URL resolves its decoded path, anything else null. */
  function ConvUriToFilePath(uri: JsVal, decode: string -> FileUrl): (r: Result<JsVal>)
    ensures r.Err? <==> !uri.JStr? || decode(uri.s).MalformedUri?
    ensures !uri.JStr? ==> r == Err(TypeError("string"))
    ensures r.Ok? ==> r.value == JNull || (r.value.JStr? && r.value.s != "" && decode(uri.s) == FileUrlPath(r.value.s))
    ensures uri.JStr? && decode(uri.s).FileUrlPath? && decode(uri.s).path != "" ==> r == Ok(JStr(decode(uri.s).path))
  {
    if !uri.JStr? then Err(TypeError("string"))
    else match decode(uri.s)
      case MalformedUri => Err(URIError(uri.s))
      case NotAFileUrl => Ok(JNull)
      case FileUrlPath(file) => Ok(Or(JStr(file), JNull))
  }

  // ---------------------------------------------------------------------
  // Creating entries

  /** The parent of `d` is a directory; a path with no `/` after its first
      character lives in the root or the working directory, which exist. */
  predicate ParentIsDir(fs: Fs, d: string) {
    var i := LastSlash(d);
    i <= 0 || (d[..i] in fs && fs[d[..i]].Dir?)
  }

  /** `mkdirSync(d)` or `writeFileSync(d)` can create `d`. */
  predicate CanCreate(fs: Fs, d: string) {
    d != "" && d[|d| - 1] != '/' && ParentIsDir(fs, d)
  }

  /** Adding an entry whose parent is a directory keeps the filesystem well
      formed, as long as an existing entry keeps its kind. */
  lemma AddEntryWellFormed(fs: Fs, d: string, node: Node)
    requires WellFormed(fs) && CanCreate(fs, d)
    requires d in fs ==> (fs[d].Dir? <==> node.Dir?)
    ensures WellFormed(fs[d := node])
  {
    var fs' := fs[d := node];
    var p := LastSlash(d);
    forall k, i | k in fs' && 0 < i < |k| && k[i] == '/'
      ensures k[..i] in fs' && fs'[k[..i]].Dir?
    {
      if k == d {
        assert i <= p;
        if i < p {
          assert d[..p][i] == '/';
          assert d[..p][..i] == k[..i];
        }
      }
    }
  }

  // ---------------------------------------------------------------------
  // createDir

  /** One directory level: `stringifyPositiveInt`-style normalisation of a
      segment, accepting non-empty strings and non-negative safe integers. */
  function Segment(v: JsVal): (r: Option<string>)
    ensures r.Some? ==> r.value != ""
    ensures r.Some? <==> (v.JStr? && v.s != "") || (IsSafeInteger(v) && v.n >= 0)
  {
    if v.JStr? && v.s != "" then Some(v.s) else StringifyPositiveInt(v, true)
  }

  /** The path after one step of the reduction: joined with the segment, or
      unchanged when the segment is skipped. */
  function Step(p: string, c: JsVal): string {
    match Segment(c)
    case Some(v) => Join(p, v)
    case None => p
  }

  /** The accumulator after reducing `rest`, starting from the first
      element; once it is undefined it stays undefined. */
  function Acc(first: Option<string>, rest: seq<JsVal>): Option<string> {
    if rest == [] then first
    else
      var a := Acc(first, rest[..|rest| - 1]);
      if a.None? then None else Some(Step(a.value, rest[|rest| - 1]))
  }

  /** The directories the reduction visits, one per element after the
      first, in order. */
  function Levels(first: Option<string>, rest: seq<JsVal>): seq<string> {
    if rest == [] then []
    else
      var a := Acc(first, rest[..|rest| - 1]);
      Levels(first, rest[..|rest| - 1]) + (if a.None? then [] else [Step(a.value, rest[|rest| - 1])])
  }

  /** The accepted segments of `rest`, in order. */
  function ValidSegments(rest: seq<JsVal>): (r: seq<string>)
    ensures |r| <= |rest|
  {
    if rest == [] then []
    else
      var prev := ValidSegments(rest[..|rest| - 1]);
      match Segment(rest[|rest| - 1])
      case Some(v) => prev + [v]
      case None => prev
  }

  datatype Made = Made(fs: Fs, failed: Option<string>)

  /** `!existsSync(d) && mkdirSync(d)` for one level: existing entries are
      left alone; a missing one is created when its parent is a directory
      and otherwise the call throws. */
  function MkdirStep(fs: Fs, d: string, now: int): Made {
    if d in fs then Made(fs, None)
    else if CanCreate(fs, d) then Made(fs[d := Dir(now)], None)
    else Made(fs, Some(d))
  }

  /** The levels made in turn, stopping at the first that throws. */
  function MkdirAll(fs: Fs, levels: seq<string>, now: int): Made {
    if levels == [] then Made(fs, None)
    else
      var m := MkdirAll(fs, levels[..|levels| - 1], now);
      if m.failed.Some? then m else MkdirStep(m.fs, levels[|levels| - 1], now)
  }

  /** The reduction's result is the join of the first element with the
      accepted segments. */
  lemma {:induction false} AccIsJoin(p: string, rest: seq<JsVal>)
    ensures Acc(Some(p), rest) == Some(Joined(p, ValidSegments(rest)))
  {
    if rest != [] {
      AccIsJoin(p, rest[..|rest| - 1]);
      var prev := ValidSegments(rest[..|rest| - 1]);
      match Segment(rest[|rest| - 1])
      case Some(v) =>
        assert (prev + [v])[..|prev + [v]| - 1] == prev;
      case None =>
    }
  }

  /** An invalid first element leaves the accumulator undefined throughout
      and no level is visited. */
  lemma {:induction false} UndefinedFirst(rest: seq<JsVal>)
    ensures Acc(None, rest) == None && Levels(None, rest) == []
  {
    if rest != [] {
      UndefinedFirst(rest[..|rest| - 1]);
    }
  }

  /** With a valid first element the last level visited is the result. */
  lemma {:induction false} LastLevelIsResult(p: string, rest: seq<JsVal>)
    requires rest != []
    ensures Levels(Some(p), rest) != []
    ensures Some(Levels(Some(p), rest)[|Levels(Some(p), rest)| - 1]) == Acc(Some(p), rest)
  {
    assert Acc(Some(p), rest[..|rest| - 1]).Some? by {
      AccIsJoin(p, rest[..|rest| - 1]);
    }
  }

  /** No level visited is longer than the reduction's result. */
  lemma {:induction false} LevelsBounded(p: string, rest: seq<JsVal>)
    ensures forall i :: 0 <= i < |Levels(Some(p), rest)| ==>
      |Levels(Some(p), rest)[i]| <= |Joined(p, ValidSegments(rest))|
  {
    if rest != [] {
      var init := rest[..|rest| - 1];
      LevelsBounded(p, init);
      AccIsJoin(p, init);
      AccIsJoin(p, rest);
    }
  }

  /** Visiting a prefix of the elements visits a prefix of the levels. */
  lemma {:induction false} LevelsPrefix(first: Option<string>, rest: seq<JsVal>, j: nat)
    requires j <= |rest|
    ensures Levels(first, rest[..j]) <= Levels(first, rest)
    decreases |rest| - j
  {
    if j < |rest| {
      var shorter := rest[..|rest| - 1];
      assert shorter[..j] == rest[..j];
      LevelsPrefix(first, shorter, j);
    } else {
      assert rest[..j] == rest;
    }
  }

  /** Once a level throws, later levels are never attempted. */
  lemma {:induction false} MkdirAllStopped(fs: Fs, a: seq<string>, b: seq<string>, now: int)
    requires MkdirAll(fs, a, now).failed.Some?
    ensures MkdirAll(fs, a + b, now) == MkdirAll(fs, a, now)
  {
    if b == [] {
      assert a + b == a;
    } else {
      MkdirAllStopped(fs, a, b[..|b| - 1], now);
      assert (a + b)[..|a + b| - 1] == a + b[..|b| - 1];
    }
  }

  /** Making directories keeps every existing entry as it was, adds only
      directories, and only at the visited levels; on success every level
      exists; the filesystem stays well formed. */
  lemma {:induction false} MkdirAllEffect(fs: Fs, levels: seq<string>, now: int)
    requires WellFormed(fs)
    ensures var m := MkdirAll(fs, levels, now);
      && WellFormed(m.fs)
      && (forall k :: k in fs ==> k in m.fs && m.fs[k] == fs[k])
      && (forall k :: k in m.fs && k !in fs ==> k in levels && m.fs[k] == Dir(now))
      && (m.failed.None? ==> forall i :: 0 <= i < |levels| ==> levels[i] in m.fs)
      && (m.failed.Some? ==> m.failed.value in levels && m.failed.value !in m.fs)
  {
    if levels != [] {
      var init := levels[..|levels| - 1];
      var d := levels[|levels| - 1];
      var m := MkdirAll(fs, init, now);
      var m' := MkdirAll(fs, levels, now);
      MkdirAllEffect(fs, init, now);
      assert forall k :: k in init ==> k in levels;
      if m.failed.Some? {
        assert m' == m;
      } else {
        assert m' == MkdirStep(m.fs, d, now);
        MkdirStepEffect(m.fs, d, now);
        if m'.failed.None? {
          forall i | 0 <= i < |levels| ensures levels[i] in m'.fs {
            if i < |init| {
              assert levels[i] == init[i];
            }
          }
        }
        assert forall k :: k in m'.fs && k !in fs ==> k in levels && m'.fs[k] == Dir(now) by {
          forall k | k in m'.fs && k !in fs ensures k in levels && m'.fs[k] == Dir(now) {
            if k in m.fs {
              assert k in init;
            } else {
              assert k == d;
            }
          }
        }
      }
    }
  }

  /** One level: existing entries stay, only `d` may be added, as a
      directory; a failure changes nothing. */
  lemma MkdirStepEffect(fs: Fs, d: string, now: int)
    requires WellFormed(fs)
    ensures var m := MkdirStep(fs, d, now);
      && WellFormed(m.fs)
      && (forall k :: k in fs ==> k in m.fs && m.fs[k] == fs[k])
      && (forall k :: k in m.fs && k !in fs ==> k == d && m.fs[k] == Dir(now))
      && (m.failed.None? ==> d in m.fs)
      && (m.failed.Some? ==> m.failed.value == d && d !in m.fs)
  {
    if d !in fs && CanCreate(fs, d) {
      AddEntryWellFormed(fs, d, Dir(now));
    }
  }

  /** A second `createDir` over the same levels changes nothing. */
  lemma {:induction false} MkdirAllIdempotent(fs: Fs, levels: seq<string>, now: int, later: int)
    requires WellFormed(fs)
    requires MkdirAll(fs, levels, now).failed.None?
    ensures var m := MkdirAll(fs, levels, now);
      MkdirAll(m.fs, levels, later) == Made(m.fs, None)
  {
    var m := MkdirAll(fs, levels, now);
    MkdirAllEffect(fs, levels, now);
    PresentLevels(m.fs, levels, later);
  }

  /** Levels that all exist already are skipped. */
  lemma {:induction false} PresentLevels(fs: Fs, levels: seq<string>, now: int)
    requires forall i :: 0 <= i < |levels| ==> levels[i] in fs
    ensures MkdirAll(fs, levels, now) == Made(fs, None)
  {
    if levels != [] {
      PresentLevels(fs, levels[..|levels| - 1], now);
    }
  }

  // ---------------------------------------------------------------------
  // removeDir

  /** `d` and every entry beneath it. */
  function Beneath(fs: Fs, d: string): set<string> {
    set k | k in fs && (k == d || StartsWith(k, d + "/"))
  }

  /** An entry directly inside `d`, as `readdirSync(d)` lists it. */
  predicate IsChild(c: string, d: string) {
    StartsWith(c, d + "/") && forall i :: |d| + 1 <= i < |c| ==> c[i] != '/'
  }

  function Children(fs: Fs, d: string): set<string> {
    set c | c in fs && IsChild(c, d)
  }

  lemma BeneathContains(fs: Fs, d: string)
    requires d in fs
    ensures d in Beneath(fs, d)
  {
  }

  /** A child's subtree lies strictly beneath its parent. */
  lemma ChildBeneath(fs: Fs, d: string, c: string)
    requires c in Children(fs, d)
    ensures Beneath(fs, c) <= Beneath(fs, d) - {d}
  {
    forall k | k in Beneath(fs, c) ensures k in Beneath(fs, d) && k != d {
      if k != c {
        assert StartsWith(c + "/", c);
        StartsWithTrans(k, c + "/", c);
        StartsWithTrans(k, c, d + "/");
      }
    }
  }

  /** The subtrees of two different children do not overlap. */
  lemma ChildrenDisjoint(fs: Fs, d: string, c1: string, c2: string)
    requires c1 in Children(fs, d) && c2 in Children(fs, d) && c1 != c2
    ensures Beneath(fs, c1) !! Beneath(fs, c2)
  {
    if k :| k in Beneath(fs, c1) && k in Beneath(fs, c2) {
      PrefixesOfOne(k, c1, c2, d);
    }
  }

  lemma PrefixesOfOne(k: string, c1: string, c2: string, d: string)
    requires IsChild(c1, d) && IsChild(c2, d)
    requires k == c1 || StartsWith(k, c1 + "/")
    requires k == c2 || StartsWith(k, c2 + "/")
    ensures c1 == c2
  {
    assert k[..|c1|] == c1 by { assert (c1 + "/")[..|c1|] == c1; }
    assert k[..|c2|] == c2 by { assert (c2 + "/")[..|c2|] == c2; }
    if |c1| < |c2| {
      SlashAfterPrefix(k, c1);
      ChildSlashFree(c2, d, |c1|);
      assert false;
    } else if |c2| < |c1| {
      SlashAfterPrefix(k, c2);
      ChildSlashFree(c1, d, |c2|);
      assert false;
    }
  }

  lemma SlashAfterPrefix(k: string, c: string)
    requires StartsWith(k, c + "/")
    ensures k[|c|] == '/'
  {
    assert (c + "/")[|c|] == '/';
  }

  lemma ChildSlashFree(c: string, d: string, i: int)
    requires IsChild(c, d) && |d| + 1 <= i < |c|
    ensures c[i] != '/'
  {
  }

  /** The first `/` at or after `from`, or the length. */
  function SlashFrom(k: string, from: nat): (j: nat)
    requires from <= |k|
    ensures from <= j <= |k|
    ensures j < |k| ==> k[j] == '/'
    ensures forall i :: from <= i < j ==> k[i] != '/'
    decreases |k| - from
  {
    if from == |k| || k[from] == '/' then from else SlashFrom(k, from + 1)
  }

  /** In a well-formed filesystem every entry strictly beneath `d` lies in
      the subtree of some child of `d`. */
  lemma ChildrenCover(fs: Fs, d: string, k: string)
    requires WellFormed(fs) && d != ""
    requires k in Beneath(fs, d) && k != d
    ensures exists c :: c in Children(fs, d) && k in Beneath(fs, c)
  {
    var n := |d| + 1;
    assert k[..n] == d + "/";
    assert n < |k|;
    assert k[n] != '/';
    var j := SlashFrom(k, n + 1);
    var c := k[..j];
    assert c[..n] == d + "/";
    assert IsChild(c, d);
    if j < |k| {
      assert c in fs;
      assert k[..j + 1] == c + "/";
    } else {
      assert c == k;
    }
    assert c in Children(fs, d) && k in Beneath(fs, c);
  }

  /** Whatever lies beneath a path makes that path a directory. */
  lemma AncestorIsDir(fs: Fs, a: string, k: string)
    requires WellFormed(fs) && a != "" && k in fs && StartsWith(k, a + "/")
    ensures a in fs && fs[a].Dir?
  {
    assert k[|a|] == '/' by { assert (a + "/")[|a|] == '/'; }
    assert k[..|a|] == a by { assert (a + "/")[..|a|] == a; }
  }

  /** A regular file has nothing beneath it. */
  lemma FileIsLeaf(fs: Fs, c: string)
    requires WellFormed(fs) && c in fs && fs[c].File?
    ensures Beneath(fs, c) == {c}
  {
    forall k | k in fs && StartsWith(k, c + "/") ensures false {
      AncestorIsDir(fs, c, k);
    }
  }

  /** Removing a whole subtree keeps the filesystem well formed. */
  lemma RemoveSubtreeWellFormed(fs: Fs, d: string)
    requires WellFormed(fs)
    ensures WellFormed(fs - Beneath(fs, d))
  {
    var fs' := fs - Beneath(fs, d);
    forall k, i | k in fs' && 0 < i < |k| && k[i] == '/'
      ensures k[..i] in fs' && fs'[k[..i]].Dir?
    {
      var a := k[..i];
      assert a in fs;
    }
  }

  lemma StrictSubsetSmaller(a: set<string>, b: set<string>, x: string)
    requires a <= b - {x} && x in b
    ensures |a| < |b|
  {
    assert |b - {x}| == |b| - 1;
    assert |a| <= |b - {x}| by {
      assert (b - {x}) == a + ((b - {x}) - a);
    }
  }

  /** What lies beneath `c` once a set of paths is gone. */
  lemma BeneathMinus(fs: Fs, gone: set<string>, c: string)
    ensures Beneath(fs - gone, c) == Beneath(fs, c) - gone
  {
  }

  lemma MinusMinus(fs: Fs, a: set<string>, b: set<string>)
    ensures fs - a - b == fs - (a + b)
  {
  }

  // ---------------------------------------------------------------------
  // The effect of createDir and createFile

  /** The filesystem a promise-returning helper leaves, and how it settles. */
  datatype Effect = Effect(fs: Fs, result: Result<JsVal>)

  /** `createDir(arr)`: a non-array rejects; an empty array resolves null; a
      single element is returned by `reduce` without a callback (then
      `|| null`); otherwise the levels are made in turn and the reduction's
      result, or null, is resolved, unless a `mkdirSync` throws. */
  function CreateDirSpec(fs: Fs, arr: JsVal, now: int): (e: Effect)
    ensures !arr.JArr? ==> e.fs == fs && e.result == Err(TypeError("array"))
    ensures arr.JArr? && e.result.Err? ==> e.result.error.MkdirFailed?
    ensures arr.JArr? && |arr.items| != 1 && e.result.Ok? ==> e.result.value == JNull || e.result.value.JStr?
  {
    if !arr.JArr? then Effect(fs, Err(TypeError("array")))
    else if |arr.items| == 0 then Effect(fs, Ok(JNull))
    else if |arr.items| == 1 then Effect(fs, Ok(Or(arr.items[0], JNull)))
    else
      var first := Segment(arr.items[0]);
      var rest := arr.items[1..];
      var m := MkdirAll(fs, Levels(first, rest), now);
      if m.failed.Some? then Effect(m.fs, Err(MkdirFailed(m.failed.value)))
      else match Acc(first, rest)
        case None => Effect(m.fs, Ok(JNull))
        case Some(p) => Effect(m.fs, Ok(JStr(p)))
  }

  /** What `createDir` promises: non-arrays reject with a type error; an
      invalid first element gives null; otherwise the result is the first
      element joined with the accepted segments and every level visited
      exists afterwards; existing entries are untouched, only directories
      are added, and a failed level is one the filesystem still lacks. */
  lemma CreateDirEffect(fs: Fs, arr: JsVal, now: int)
    requires WellFormed(fs)
    ensures var e := CreateDirSpec(fs, arr, now);
      && WellFormed(e.fs)
      && (forall k :: k in fs ==> k in e.fs && e.fs[k] == fs[k])
      && (forall k :: k in e.fs && k !in fs ==> e.fs[k] == Dir(now))
      && (!arr.JArr? ==> e == Effect(fs, Err(TypeError("array"))))
      && (arr.JArr? && |arr.items| < 2 ==> e.fs == fs && e.result.Ok?)
      && (arr.JArr? && |arr.items| == 0 ==> e.result == Ok(JNull))
      && (arr.JArr? && |arr.items| == 1 ==> e.result == Ok(Or(arr.items[0], JNull)))
      && (arr.JArr? && |arr.items| >= 2 ==>
            var first := Segment(arr.items[0]);
            var levels := Levels(first, arr.items[1..]);
            && (e.result.Err? ==> e.result.error.MkdirFailed? && e.result.error.path in levels && e.result.error.path !in e.fs)
            && (e.result.Ok? && first.None? ==> e.result.value == JNull && e.fs == fs)
            && (e.result.Ok? && first.Some? ==>
                  && e.result.value == JStr(Joined(first.value, ValidSegments(arr.items[1..])))
                  && Joined(first.value, ValidSegments(arr.items[1..])) in e.fs
                  && (forall i :: 0 <= i < |levels| ==> levels[i] in e.fs)))
  {
    if arr.JArr? && |arr.items| >= 2 {
      var first := Segment(arr.items[0]);
      var rest := arr.items[1..];
      MkdirAllEffect(fs, Levels(first, rest), now);
      match first {
        case None =>
          UndefinedFirst(rest);
        case Some(p) =>
          AccIsJoin(p, rest);
          LastLevelIsResult(p, rest);
      }
    }
  }

  /** The part of `CreateDirEffect` callers mostly need: well formed, old
      entries kept, only directories added. */
  lemma CreateDirKeeps(fs: Fs, arr: JsVal, now: int)
    requires WellFormed(fs)
    ensures var e := CreateDirSpec(fs, arr, now);
      && WellFormed(e.fs)
      && (forall k :: k in fs ==> k in e.fs && e.fs[k] == fs[k])
      && (forall k :: k in e.fs && k !in fs ==> e.fs[k].Dir?)
  {
    CreateDirEffect(fs, arr, now);
  }

  /** With a valid first element, a resolved `createDir` names the joined
      path. */
  lemma CreateDirResolvesPath(fs: Fs, arr: JsVal, now: int)
    requires arr.JArr? && |arr.items| >= 2 && Segment(arr.items[0]).Some?
    requires CreateDirSpec(fs, arr, now).result.Ok?
    ensures CreateDirSpec(fs, arr, now).result.value == JStr(Joined(Segment(arr.items[0]).value, ValidSegments(arr.items[1..])))
  {
    AccIsJoin(Segment(arr.items[0]).value, arr.items[1..]);
  }

  /** A second `createDir` with the same array, once the first resolved,
      resolves alike and changes nothing. */
  lemma CreateDirIdempotent(fs: Fs, arr: JsVal, now: int, later: int)
    requires WellFormed(fs) && CreateDirSpec(fs, arr, now).result.Ok?
    ensures var e := CreateDirSpec(fs, arr, now);
      CreateDirSpec(e.fs, arr, later) == e
  {
    if arr.JArr? && |arr.items| >= 2 {
      MkdirAllIdempotent(fs, Levels(Segment(arr.items[0]), arr.items[1..]), now, later);
    }
  }

  /** Once `createDir` has resolved, calling it again with the same array
      on any state that still has everything the first call left resolves
      alike and changes nothing. */
  lemma CreateDirAgain(fs: Fs, fs': Fs, arr: JsVal, now: int, later: int)
    requires WellFormed(fs) && CreateDirSpec(fs, arr, now).result.Ok?
    requires forall k :: k in CreateDirSpec(fs, arr, now).fs ==> k in fs'
    ensures CreateDirSpec(fs', arr, later) == Effect(fs', CreateDirSpec(fs, arr, now).result)
  {
    if arr.JArr? && |arr.items| >= 2 {
      var levels := Levels(Segment(arr.items[0]), arr.items[1..]);
      MkdirAllEffect(fs, levels, now);
      PresentLevels(fs', levels, later);
    }
  }

  /** A directory `createDir` adds is never longer than the path it
      resolves. */
  lemma CreateDirAddsShort(fs: Fs, arr: JsVal, now: int, p: string)
    requires WellFormed(fs) && CreateDirSpec(fs, arr, now).result == Ok(JStr(p))
    ensures forall k :: k in CreateDirSpec(fs, arr, now).fs && k !in fs ==> |k| <= |p|
  {
    if arr.JArr? && |arr.items| >= 2 {
      var first, rest := Segment(arr.items[0]), arr.items[1..];
      if first.None? {
        UndefinedFirst(rest);
      } else {
        MkdirAllEffect(fs, Levels(first, rest), now);
        AccIsJoin(first.value, rest);
        LevelsBounded(first.value, rest);
      }
    }
  }

  /** Beside an entry of directory `p`, a plain name can be created. */
  lemma CanCreateBeside(fs: Fs, p: string, v: string, w: string)
    requires WellFormed(fs) && p != "" && Join(p, v) in fs
    requires w != "" && forall i :: 0 <= i < |w| ==> w[i] != '/'
    ensures p in fs && fs[p].Dir? && CanCreate(fs, Join(p, w))
  {
    var k := Join(p, v);
    assert k[|p|] == '/' && k[..|p|] == p;
    LastSlashOfJoin(p, w);
    assert Join(p, w)[..|p|] == p;
  }

  /** `writeFileSync(f, text, {flag: "w", mode})`: fails on a directory or
      where the parent is not a directory; otherwise truncates and writes,
      keeping the mode of a file that already exists. */
  function WriteFile(fs: Fs, f: string, text: string, now: int, mode: bv32): Option<Fs> {
    if !CanCreate(fs, f) || (f in fs && fs[f].Dir?) then None
    else Some(fs[f := File(text, if f in fs then fs[f].mode else mode, now)])
  }

  /** `createFile(file, value)` with the default options: a non-string path
      rejects; data other than a string (or absent, meaning "") rejects; a
      write that throws rejects; otherwise the file is written and, being a
      file now, its path is resolved. */
  function CreateFileSpec(fs: Fs, file: JsVal, value: JsVal, now: int, mode: bv32): (e: Effect)
    ensures e.result.Ok? ==> e.result.value == file && IsFile(e.fs, file)
    ensures e.result.Err? ==> e.fs == fs
    ensures !file.JStr? ==> e.result == Err(TypeError("string"))
  {
    if !file.JStr? then Effect(fs, Err(TypeError("string")))
    else if !(value.JStr? || value.JUndefined?) then Effect(fs, Err(TypeError("data")))
    else match WriteFile(fs, file.s, if value.JStr? then value.s else "", now, mode)
      case None => Effect(fs, Err(WriteFailed(file.s)))
      case Some(fs') => Effect(fs', Ok(file))
  }

  /** `createFile` resolves with the path exactly when the path is a string,
      the data a string or absent, and the path a non-directory whose parent
      is a directory; then `readFile` gives back the data and no other path
      changes; when it rejects, nothing changes. */
  lemma CreateFileEffect(fs: Fs, file: JsVal, value: JsVal, now: int, mode: bv32)
    requires WellFormed(fs)
    ensures var e := CreateFileSpec(fs, file, value, now, mode);
      && WellFormed(e.fs)
      && (e.result.Ok? <==> file.JStr? && (value.JStr? || value.JUndefined?)
                            && CanCreate(fs, file.s) && !(file.s in fs && fs[file.s].Dir?))
      && (e.result.Ok? ==>
            && e.result.value == file
            && ReadFile(e.fs, file) == Ok(if value.JStr? then value.s else "")
            && (forall k :: k != file.s ==> (k in e.fs <==> k in fs) && (k in fs ==> e.fs[k] == fs[k])))
      && (e.result.Err? ==> e.fs == fs)
  {
    if file.JStr? && (value.JStr? || value.JUndefined?) && CanCreate(fs, file.s) && !(file.s in fs && fs[file.s].Dir?) {
      var text := if value.JStr? then value.s else "";
      AddEntryWellFormed(fs, file.s, File(text, if file.s in fs then fs[file.s].mode else mode, now));
    }
  }

  /** A file the host creates with permission 0o666 is never executable
      (outside Windows), whatever the umask. */
  lemma NewFileNotExecutable(fs: Fs, file: JsVal, value: JsVal, now: int, umask: bv32)
    requires file.JStr? && file.s !in fs
    ensures !IsExecutable(CreateFileSpec(fs, file, value, now, PERM_FILE & !umask).fs, file, false)
  {
  }

  // ---------------------------------------------------------------------
  // The filesystem as the host's state

  /** The filesystem the helpers act on, with the process umask. */
  class Disk {
    var entries: Fs
    const umask: bv32

    ghost predicate Valid()
      reads this
    {
      WellFormed(entries)
    }

    constructor (entries0: Fs, umask0: bv32)
      requires WellFormed(entries0)
      ensures Valid() && entries == entries0 && umask == umask0
    {
      entries := entries0;
      umask := umask0;
    }

    /** `!fs.existsSync(d) && fs.mkdirSync(d)`: false when the level is
        missing and cannot be made. */
    method MakeLevel(d: string, now: int) returns (made: bool)
      requires Valid()
      modifies this
      ensures Valid()
      ensures MkdirStep(old(entries), d, now) == Made(entries, if made then None else Some(d))
    {
      made := true;
      if d !in entries {
        if CanCreate(entries, d) {
          AddEntryWellFormed(entries, d, Dir(now));
          entries := entries[d := Dir(now)];
        } else {
          made := false;
        }
      }
    }

    /** `createDir(arr)`, making each missing level in turn. */
    method CreateDir(arr: JsVal, now: int) returns (r: Result<JsVal>)
      requires Valid()
      modifies this
      ensures Valid()
      ensures entries == CreateDirSpec(old(entries), arr, now).fs
      ensures r == CreateDirSpec(old(entries), arr, now).result
    {
      if !arr.JArr? {
        return Err(TypeError("array"));
      }
      if |arr.items| == 0 {
        return Ok(JNull);
      }
      if |arr.items| == 1 {
        // `reduce` on one element returns it without calling back
        return Ok(Or(arr.items[0], JNull));
      }
      ghost var e0 := entries;
      var first := Segment(arr.items[0]);
      var rest := arr.items[1..];
      var cur := first;
      var j := 0;
      while j < |rest|
        invariant 0 <= j <= |rest|
        invariant Valid()
        invariant cur == Acc(first, rest[..j])
        invariant MkdirAll(e0, Levels(first, rest[..j]), now) == Made(entries, None)
      {
        if cur.Some? {
          var d := Step(cur.value, rest[j]);
          ghost var before := entries;
          var made := MakeLevel(d, now);
          if !made {
            assert MkdirAll(e0, Levels(first, rest), now) == Made(entries, Some(d)) by {
              CreateDirStopped(e0, first, rest, j, now);
            }
            return Err(MkdirFailed(d));
          }
          assert Acc(first, rest[..j + 1]) == Some(d) by {
            ReduceStep(e0, first, rest, j, now);
          }
          assert MkdirAll(e0, Levels(first, rest[..j + 1]), now) == MkdirStep(before, d, now) by {
            ReduceStep(e0, first, rest, j, now);
          }
          cur := Some(d);
        } else {
          assert Acc(first, rest[..j + 1]) == None by {
            ReduceStep(e0, first, rest, j, now);
          }
          assert MkdirAll(e0, Levels(first, rest[..j + 1]), now) == Made(entries, None) by {
            ReduceStep(e0, first, rest, j, now);
          }
        }
        j := j + 1;
      }
      assert rest[..j] == rest;
      r := if cur.None? then Ok(JNull) else Ok(JStr(cur.value));
    }

    /** `removeDir(dir, base)`: rejects unless `dir` is a subdirectory of
        `base`; otherwise removes `dir` and everything beneath it. */
    method RemoveDir(dir: JsVal, base: JsVal) returns (r: Outcome)
      requires Valid()
      modifies this
      ensures Valid()
      ensures !IsSubDir(old(entries), dir, base) ==> r == Fail(NotASubdirectory(dir, base)) && entries == old(entries)
      ensures IsSubDir(old(entries), dir, base) ==> r == Pass && entries == old(entries) - Beneath(old(entries), dir.s)
    {
      if IsSubDir(entries, dir, base) {
        RemoveTree(dir.s, base);
        r := Pass;
      } else {
        r := Fail(NotASubdirectory(dir, base));
      }
    }

    /** `removeDirSync(dir, base)`: the same removal, silently doing nothing
        when the guard fails. */
    method RemoveDirSync(dir: JsVal, base: JsVal)
      requires Valid()
      modifies this
      ensures Valid()
      ensures !IsSubDir(old(entries), dir, base) ==> entries == old(entries)
      ensures IsSubDir(old(entries), dir, base) ==> entries == old(entries) - Beneath(old(entries), dir.s)
    {
      if IsSubDir(entries, dir, base) {
        RemoveTree(dir.s, base);
      }
    }

    /** The body both removals share once the guard has passed: each child
        directory is removed recursively (its own guard holds, since it lies
        beneath `d`), each other child is unlinked, then `d` itself. */
    method RemoveTree(d: string, base: JsVal)
      requires Valid() && IsSubDir(entries, JStr(d), base)
      modifies this
      ensures Valid()
      ensures entries == old(entries) - Beneath(old(entries), d)
      decreases |Beneath(entries, d)|, 0
    {
      ghost var e0 := entries;
      ghost var all := Children(e0, d);
      var pending := Children(entries, d);
      ghost var removed: set<string> := {};
      while pending != {}
        invariant Valid()
        invariant pending <= all
        invariant entries == e0 - removed
        invariant Removing(e0, d, pending, removed)
        decreases |pending|
      {
        var c :| c in pending;
        ChildPending(e0, d, pending, removed, c, base);
        RemoveEntry(c, base);
        removed := removed + Beneath(e0, c);
        pending := pending - {c};
      }
      ChildrenGone(e0, d, removed);
      entries := entries - {d};
    }

    /** One entry of the listing: a directory is removed recursively,
        anything else is unlinked. */
    method RemoveEntry(c: string, base: JsVal)
      requires Valid() && c in entries
      requires entries[c].Dir? ==> IsSubDir(entries, JStr(c), base)
      modifies this
      ensures Valid()
      ensures entries == old(entries) - Beneath(old(entries), c)
      decreases |Beneath(entries, c)|, 1
    {
      if entries[c].Dir? {
        RemoveTree(c, base);
      } else {
        FileIsLeaf(entries, c);
        RemoveSubtreeWellFormed(entries, c);
        entries := entries - {c};
      }
    }

    /** `createFile(file, value)`, writing with permission 0o666 under the
        umask. */
    method CreateFile(file: JsVal, value: JsVal, now: int) returns (r: Result<JsVal>)
      requires Valid()
      modifies this
      ensures Valid()
      ensures entries == CreateFileSpec(old(entries), file, value, now, PERM_FILE & !umask).fs
      ensures r == CreateFileSpec(old(entries), file, value, now, PERM_FILE & !umask).result
    {
      if !file.JStr? {
        return Err(TypeError("string"));
      }
      if !(value.JStr? || value.JUndefined?) {
        return Err(TypeError("data"));
      }
      var text := if value.JStr? then value.s else "";
      CreateFileEffect(entries, file, value, now, PERM_FILE & !umask);
      var w := WriteFile(entries, file.s, text, now, PERM_FILE & !umask);
      if w.None? {
        return Err(WriteFailed(file.s));
      }
      entries := w.value;
      // `isFile(file) && file || null`: the file now exists, so its path
      r := Ok(file);
    }
  }

  /** A child directory, not yet removed, of a subdirectory of `base` is
      itself a subdirectory of `base` in the current state. */
  lemma ChildOfSubDir(e0: Fs, removed: set<string>, d: string, c: string, base: JsVal)
    requires WellFormed(e0) && IsSubDir(e0, JStr(d), base)
    requires c in Children(e0, d) && c !in removed && e0[c].Dir?
    requires removed <= Beneath(e0, d) - {d}
    ensures IsSubDir(e0 - removed, JStr(c), base)
  {
    assert StartsWith(c, d) by {
      assert StartsWith(d + "/", d);
      StartsWithTrans(c, d + "/", d);
    }
    StartsWithTrans(c, d, base.s);
    assert base.s !in removed;
  }

  /** Part way through removing the children of `d`: what is gone lies
      strictly beneath `d`, covers the subtree of every child already
      handled and misses those of the children still pending. */
  ghost predicate Removing(e0: Fs, d: string, pending: set<string>, removed: set<string>) {
    && removed <= Beneath(e0, d) - {d}
    && (forall c :: c in Children(e0, d) && c !in pending ==> Beneath(e0, c) <= removed)
    && (forall c :: c in pending ==> Beneath(e0, c) !! removed)
  }

  /** A pending child is still there, may be removed (a directory passes
      the guard), has a smaller subtree than its parent, and removing its
      subtree keeps the removal on track. */
  lemma ChildPending(e0: Fs, d: string, pending: set<string>, removed: set<string>, c: string, base: JsVal)
    requires WellFormed(e0) && IsSubDir(e0, JStr(d), base)
    requires pending <= Children(e0, d) && c in pending
    requires Removing(e0, d, pending, removed)
    ensures c in e0 - removed && (e0 - removed)[c] == e0[c]
    ensures e0[c].Dir? ==> IsSubDir(e0 - removed, JStr(c), base)
    ensures |Beneath(e0 - removed, c)| < |Beneath(e0, d)|
    ensures Removing(e0, d, pending - {c}, removed + Beneath(e0, c))
    ensures e0 - removed - Beneath(e0 - removed, c) == e0 - (removed + Beneath(e0, c))
  {
    ChildBeneath(e0, d, c);
    BeneathContains(e0, c);
    RemoveChildStep(e0, d, pending, removed, c);
    if e0[c].Dir? {
      ChildOfSubDir(e0, removed, d, c, base);
    }
    StrictSubsetSmaller(Beneath(e0 - removed, c), Beneath(e0, d), d);
  }

  /** Once every child's subtree is gone, removing `d` itself leaves the
      initial filesystem without `d`'s subtree, still well formed. */
  lemma ChildrenGone(e0: Fs, d: string, removed: set<string>)
    requires WellFormed(e0) && d in e0
    requires Removing(e0, d, {}, removed)
    ensures (e0 - removed) - {d} == e0 - Beneath(e0, d)
    ensures WellFormed(e0 - Beneath(e0, d))
  {
    AllChildrenRemoved(e0, d, removed);
    BeneathContains(e0, d);
    MinusMinus(e0, removed, {d});
    RemoveSubtreeWellFormed(e0, d);
  }

  /** Handling one pending child keeps the removal on track, and the state
      it leaves is the initial one without what has gone so far. */
  lemma RemoveChildStep(e0: Fs, d: string, pending: set<string>, removed: set<string>, c: string)
    requires pending <= Children(e0, d) && c in pending
    requires Removing(e0, d, pending, removed)
    ensures Removing(e0, d, pending - {c}, removed + Beneath(e0, c))
    ensures Beneath(e0 - removed, c) == Beneath(e0, c)
    ensures e0 - removed - Beneath(e0, c) == e0 - (removed + Beneath(e0, c))
  {
    ChildBeneath(e0, d, c);
    BeneathMinus(e0, removed, c);
    MinusMinus(e0, removed, Beneath(e0, c));
    forall c' | c' in pending - {c} ensures Beneath(e0, c') !! removed + Beneath(e0, c) {
      ChildrenDisjoint(e0, d, c', c);
    }
  }

  /** Once every child's subtree is gone, so is everything strictly beneath
      the directory. */
  lemma AllChildrenRemoved(e0: Fs, d: string, removed: set<string>)
    requires WellFormed(e0) && d in e0
    requires Removing(e0, d, {}, removed)
    ensures removed == Beneath(e0, d) - {d}
  {
    forall k | k in Beneath(e0, d) - {d} ensures k in removed {
      ChildrenCover(e0, d, k);
    }
  }

  /** One more element of the reduction: an undefined accumulator visits
      nothing, a defined one visits one more level after the others. */
  lemma ReduceStep(e0: Fs, first: Option<string>, rest: seq<JsVal>, j: nat, now: int)
    requires j < |rest|
    ensures var a := Acc(first, rest[..j]);
      var m := MkdirAll(e0, Levels(first, rest[..j]), now);
      if a.None? then
        Acc(first, rest[..j + 1]) == None && MkdirAll(e0, Levels(first, rest[..j + 1]), now) == m
      else
        var d := Step(a.value, rest[j]);
        && Acc(first, rest[..j + 1]) == Some(d)
        && MkdirAll(e0, Levels(first, rest[..j + 1]), now) == (if m.failed.Some? then m else MkdirStep(m.fs, d, now))
  {
    assert rest[..j + 1][..j] == rest[..j];
    var a := Acc(first, rest[..j]);
    if a.Some? {
      var l := Levels(first, rest[..j]) + [Step(a.value, rest[j])];
      assert l[..|l| - 1] == Levels(first, rest[..j]);
    } else {
      assert Levels(first, rest[..j]) + [] == Levels(first, rest[..j]);
    }
  }

  /** The level that throws stops `createDir` with the state it had. */
  lemma CreateDirStopped(e0: Fs, first: Option<string>, rest: seq<JsVal>, j: nat, now: int)
    requires j < |rest|
    requires Acc(first, rest[..j]).Some?
    requires var m := MkdirAll(e0, Levels(first, rest[..j]), now);
      var d := Step(Acc(first, rest[..j]).value, rest[j]);
      m.failed.None? && d !in m.fs && !CanCreate(m.fs, d)
    ensures var m := MkdirAll(e0, Levels(first, rest[..j]), now);
      var d := Step(Acc(first, rest[..j]).value, rest[j]);
      MkdirAll(e0, Levels(first, rest), now) == Made(m.fs, Some(d))
  {
    var m := MkdirAll(e0, Levels(first, rest[..j]), now);
    var d := Step(Acc(first, rest[..j]).value, rest[j]);
    var a := Levels(first, rest[..j + 1]);
    assert MkdirAll(e0, a, now) == Made(m.fs, Some(d)) by {
      ReduceStep(e0, first, rest, j, now);
      assert MkdirStep(m.fs, d, now) == Made(m.fs, Some(d));
    }
    var all := Levels(first, rest);
    LevelsPrefix(first, rest, j + 1);
    assert rest[..j + 1] <= rest;
    var b := all[|a|..];
    assert all == a + b;
    MkdirAllStopped(e0, a, b, now);
  }
}
