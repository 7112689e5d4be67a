/** The string helpers of modules/file-util.js: `stringifyPositiveInt`,
    `getFileNameFromFilePath` (with the POSIX `path.basename` it uses), and
    the POSIX path operations the filesystem helpers build on. */
module PathUtil {
  import opened Js

  const MAX_SAFE_INTEGER := 9007199254740991
  /** The substitute file name. */
  const SUBST := "index"

  /** `String.prototype.startsWith`. */
  predicate StartsWith(s: string, prefix: string) {
    |prefix| <= |s| && s[..|prefix|] == prefix
  }

  predicate EndsWith(s: string, suffix: string) {
    |suffix| <= |s| && s[|s| - |suffix|..] == suffix
  }

  lemma StartsWithTrans(s: string, t: string, u: string)
    requires StartsWith(s, t) && StartsWith(t, u)
    ensures StartsWith(s, u)
  {
    assert s[..|t|][..|u|] == s[..|u|];
  }

  /** `path.join(p, v)` on POSIX, for segments that need no normalisation. */
  function Join(p: string, v: string): string {
    p + "/" + v
  }

  /** `path.join(p, segs[0], segs[1], ...)`, as a left fold. */
  function Joined(p: string, segs: seq<string>): (r: string)
    ensures |r| >= |p|
  {
    if segs == [] then p else Join(Joined(p, segs[..|segs| - 1]), segs[|segs| - 1])
  }

  /** The index of the last `/`, or -1. */
  function LastSlash(s: string): (r: int)
    ensures -1 <= r < |s|
    ensures r >= 0 ==> s[r] == '/'
    ensures forall j :: r < j < |s| ==> s[j] != '/'
  {
    if s == [] then -1 else if s[|s| - 1] == '/' then |s| - 1 else LastSlash(s[..|s| - 1])
  }

  /** Joining different names onto one directory gives different paths. */
  lemma JoinDistinct(p: string, v: string, w: string)
    ensures v != w ==> Join(p, v) != Join(p, w)
  {
    assert Join(p, v)[|p| + 1..] == v && Join(p, w)[|p| + 1..] == w;
  }

  lemma LastSlashOfJoin(p: string, v: string)
    requires forall i :: 0 <= i < |v| ==> v[i] != '/'
    ensures LastSlash(Join(p, v)) == |p|
  {
    var s := Join(p, v);
    assert s[|p|] == '/';
    assert forall j :: |p| < j < |s| ==> s[j] == v[j - |p| - 1];
  }

  function StripTrailingSlashes(p: string): (r: string)
    ensures r == [] || r[|r| - 1] != '/'
    ensures |r| <= |p| && r == p[..|r|]
  {
    if p != [] && p[|p| - 1] == '/' then StripTrailingSlashes(p[..|p| - 1]) else p
  }

  /** POSIX `path.basename(p)`: the last segment, ignoring trailing slashes. */
  function Basename(p: string): (r: string)
    ensures forall i :: 0 <= i < |r| ==> r[i] != '/'
  {
    var t := StripTrailingSlashes(p);
    t[LastSlash(t) + 1..]
  }

  /** The basename is the last segment of the path once trailing slashes
      are stripped: a suffix of it that is the whole of it or follows a
      `/`. */
  lemma BasenameIsLastSegment(p: string)
    ensures var t, r := StripTrailingSlashes(p), Basename(p);
      && EndsWith(t, r)
      && (|r| == |t| || t[|t| - |r| - 1] == '/')
  {
    var t := StripTrailingSlashes(p);
    var i := LastSlash(t);
    assert Basename(p) == t[i + 1..];
    assert |t| - |t[i + 1..]| == i + 1;
  }

  /** `Number.isSafeInteger(v)`. */
  predicate IsSafeInteger(v: JsVal) {
    v.JNum? && -MAX_SAFE_INTEGER <= v.n <= MAX_SAFE_INTEGER
  }

  /** `stringifyPositiveInt(i, zero)`: the decimal string of a safe integer
      that is positive (or non-negative when `zero`), otherwise null. */
  function StringifyPositiveInt(i: JsVal, zero: bool): (r: Option<string>)
    ensures r.Some? <==> IsSafeInteger(i) && (if zero then i.n >= 0 else i.n > 0)
    ensures r.Some? ==> IsDecimal(r.value) && DecimalValue(r.value) == i.n
  {
    if IsSafeInteger(i) && ((zero && i.n >= 0) || i.n > 0) then
      DecimalRoundTrip(i.n);
      Some(Decimal(i.n))
    else None
  }

  /** A line terminator, which `.` in a JavaScript regular expression does
      not match. */
  predicate IsLineTerminator(c: char) {
    c == '\n' || c == '\r' || c == '\U{2028}' || c == '\U{2029}'
  }

  /** `/^([^.]+)(?:\..+)?$/` matches `b` with a first group of length `k`. */
  ghost predicate FileNameMatch(b: string, k: int) {
    && 0 < k <= |b|
    && (forall i :: 0 <= i < k ==> b[i] != '.')
    && (k == |b| || (b[k] == '.' && k + 1 < |b| && forall j :: k < j < |b| ==> !IsLineTerminator(b[j])))
  }

  /** The length of the leading run of characters other than `.`. */
  function NonDotRun(b: string): (r: nat)
    ensures r <= |b|
    ensures forall i :: 0 <= i < r ==> b[i] != '.'
    ensures r < |b| ==> b[r] == '.'
  {
    if b == [] || b[0] == '.' then 0 else 1 + NonDotRun(b[1..])
  }

  predicate NoLineTerminator(s: string) {
    forall j :: 0 <= j < |s| ==> !IsLineTerminator(s[j])
  }

  /** The regular expression can only capture the leading non-dot run, and
      it matches exactly when the run is followed by nothing or by a dot and
      at least one more character that is not a line terminator. */
  lemma FileNameMatchIsRun(b: string, k: int)
    requires FileNameMatch(b, k)
    ensures k == NonDotRun(b)
    ensures k == |b| || (k + 1 < |b| && NoLineTerminator(b[k + 1..]))
  {
    if k < |b| {
      var t := b[k + 1..];
      forall j | 0 <= j < |t| ensures !IsLineTerminator(t[j]) {
        assert t[j] == b[k + 1 + j];
      }
    }
  }

  /** `getFileNameFromFilePath(file)`: the captured leading run of the
      basename when the regular expression matches, else `"index"`. */
  function GetFileNameFromFilePath(file: JsVal): (r: string)
    ensures !file.JStr? ==> r == SUBST
    ensures file.JStr? ==> forall k :: FileNameMatch(Basename(file.s), k) ==> r == Basename(file.s)[..k]
    ensures file.JStr? && (forall k :: !FileNameMatch(Basename(file.s), k)) ==> r == SUBST
  {
    if !file.JStr? then SUBST
    else
      var b := Basename(file.s);
      var k := NonDotRun(b);
      if k > 0 && (k == |b| || (k + 1 < |b| && NoLineTerminator(b[k + 1..]))) then
        assert FileNameMatch(b, k) by {
          if k < |b| {
            forall j | k < j < |b| ensures !IsLineTerminator(b[j]) {
              assert b[j] == b[k + 1..][j - k - 1];
            }
          }
        }
        assert forall k' :: FileNameMatch(b, k') ==> k' == k by {
          forall k' | FileNameMatch(b, k') ensures k' == k { FileNameMatchIsRun(b, k'); }
        }
        b[..k]
      else
        assert forall k' :: !FileNameMatch(b, k') by {
          forall k' | FileNameMatch(b, k') ensures false {
            FileNameMatchIsRun(b, k');
          }
        }
        SUBST
  }

}
