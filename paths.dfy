/** POSIX path rules of Python's `os.path`: `basename`, `dirname`, `join`
    and `splitext`, with '/' as the only separator. */
module Paths {
  import Text

  /** `s.rfind(c)`: the last index holding `c`, or -1. */
  function RFind(s: string, c: char): (r: int)
    ensures -1 <= r < |s|
    ensures r >= 0 ==> s[r] == c
    ensures forall j :: r < j < |s| ==> s[j] != c
  {
    if s == [] then -1
    else if s[|s| - 1] == c then |s| - 1
    else RFind(s[..|s| - 1], c)
  }

  /** `os.path.basename(p)`: what follows the last '/'. */
  function Basename(p: string): (r: string)
    ensures '/' !in r
    ensures Text.EndsWith(p, r)
    ensures |r| == |p| || p[|p| - |r| - 1] == '/'
  {
    p[RFind(p, '/') + 1..]
  }

  predicate AllSlashes(s: string) {
    forall i :: 0 <= i < |s| ==> s[i] == '/'
  }

  /** `s.rstrip('/')`. */
  function RStripSlashes(s: string): (r: string)
    ensures r == [] || r[|r| - 1] != '/'
    ensures |r| <= |s| && r == s[..|r|]
    ensures AllSlashes(s[|r|..])
  {
    if s != [] && s[|s| - 1] == '/' then RStripSlashes(s[..|s| - 1]) else s
  }

  /** `os.path.dirname(p)`: everything up to the last '/', without the
      trailing slashes unless it is made of slashes only. */
  function Dirname(p: string): (r: string)
    ensures |r| <= |p| - |Basename(p)| && r == p[..|r|]
    ensures NormalDir(r)
    ensures AllSlashes(p[|r|..|p| - |Basename(p)|])
    ensures '/' !in p ==> r == []
  {
    var head := p[..RFind(p, '/') + 1];
    if head != [] && !AllSlashes(head) then RStripSlashes(head) else head
  }

  /** `os.path.join(a, b)`. */
  function Join(a: string, b: string): (r: string)
    ensures Text.EndsWith(r, b)
    ensures b != [] && b[0] == '/' ==> r == b
    ensures (b == [] || b[0] != '/') ==> |a| <= |r| && r[..|a|] == a
  {
    if b != [] && b[0] == '/' then b
    else if a == [] || a[|a| - 1] == '/' then a + b
    else a + "/" + b
  }

  /** A directory as `dirname` returns it: empty, all slashes, or without a
      trailing slash. */
  predicate NormalDir(d: string) {
    d == [] || AllSlashes(d) || d[|d| - 1] != '/'
  }

  /** What follows the last occurrence of `c` is unaffected by appending text without `c`. */
  lemma {:induction false} RFindPastFree(x: string, b: string, c: char)
    requires c !in b
    ensures RFind(x + b, c) == RFind(x, c)
    decreases |b|
  {
    if b == [] {
      assert x + b == x;
    } else {
      var s := x + b;
      assert s[..|s| - 1] == x + b[..|b| - 1];
      RFindPastFree(x, b[..|b| - 1], c);
    }
  }

  /** Joining a name without '/' to any directory yields a path whose basename is that name. */
  lemma BasenameOfJoin(a: string, b: string)
    requires '/' !in b
    ensures Basename(Join(a, b)) == b
  {
    if a == [] {
      RFindPastFree([], b, '/');
      assert [] + b == b;
    } else if a[|a| - 1] == '/' {
      RFindPastFree(a, b, '/');
    } else {
      RFindPastFree(a + "/", b, '/');
    }
  }

  /** Joining a name without '/' to a directory as `dirname` returns it
      yields a path whose dirname is that directory. */
  lemma DirnameOfJoin(a: string, b: string)
    requires NormalDir(a) && '/' !in b
    ensures Dirname(Join(a, b)) == a
  {
    if a == [] {
      RFindPastFree([], b, '/');
      assert [] + b == b;
    } else if a[|a| - 1] == '/' {
      RFindPastFree(a, b, '/');
      assert (a + b)[..|a|] == a;
    } else {
      var x := a + "/";
      RFindPastFree(x, b, '/');
      assert (x + b)[..|x|] == x;
      assert x[..|x| - 1] == a;
      assert !AllSlashes(x) by { assert x[|a| - 1] != '/'; }
      assert RStripSlashes(x) == RStripSlashes(a) == a;
    }
  }

  /** `p` holds a character other than '.' strictly between `lo` and `hi`. */
  predicate NonDotBetween(p: string, lo: int, hi: int)
    requires -1 <= lo && hi <= |p|
  {
    exists j :: lo < j < hi && p[j] != '.'
  }

  /** `os.path.splitext(p)`: the extension starts at the last '.' of the
      last path component, unless everything before that '.' in the
      component is dots (a leading-dot name has no extension). */
  function SplitExt(p: string): (r: (string, string))
    ensures r.0 + r.1 == p
    ensures r.1 == [] || (r.1[0] == '.' && '.' !in r.1[1..] && '/' !in r.1)
    ensures r.1 != [] <==> (RFind(p, '.') > RFind(p, '/') && NonDotBetween(p, RFind(p, '/'), RFind(p, '.')))
  {
    var sepIndex := RFind(p, '/');
    var dotIndex := RFind(p, '.');
    if dotIndex > sepIndex && NonDotBetween(p, sepIndex, dotIndex) then
      assert forall j :: 0 <= j < |p[dotIndex..]| ==> p[dotIndex..][j] == p[dotIndex + j];
      (p[..dotIndex], p[dotIndex..])
    else (p, [])
  }
}
