/** The parts of Python's `posixpath` the scripts use: join, split, basename, dirname. */
module Paths {
  import opened Strings

  /** Index of the last '/' in p, or -1 when there is none (Python's `p.rfind('/')`). */
  function LastSlash(p: string): (r: int)
    ensures -1 <= r < |p|
    ensures r >= 0 ==> p[r] == '/'
    ensures forall k :: r < k < |p| ==> p[k] != '/'
  {
    if p == [] then -1
    else if p[|p| - 1] == '/' then |p| - 1
    else LastSlash(p[..|p| - 1])
  }

  predicate AllSlashes(s: string) {
    forall i :: 0 <= i < |s| ==> s[i] == '/'
  }

  /** Python's `s.rstrip('/')`. */
  function RStripSlashes(s: string): (r: string)
    ensures r <= s
    ensures r == [] || r[|r| - 1] != '/'
    ensures forall i :: |r| <= i < |s| ==> s[i] == '/'
  {
    if s == [] then []
    else if s[|s| - 1] == '/' then RStripSlashes(s[..|s| - 1])
    else s
  }

  /** `os.path.split(p)`: the head (trailing slashes removed unless it is all slashes) and the tail. */
  function Split(p: string): (string, string) {
    var i := LastSlash(p) + 1;
    var head, tail := p[..i], p[i..];
    if head != [] && !AllSlashes(head) then (RStripSlashes(head), tail) else (head, tail)
  }

  /** `os.path.basename(p)`: everything after the last '/'. */
  function Basename(p: string): string {
    Split(p).1
  }

  /** `os.path.dirname(p)`. */
  function Dirname(p: string): string {
    Split(p).0
  }

  /** `os.path.join(a, b)`: an absolute b replaces a; otherwise one '/' separates them. */
  function Join(a: string, b: string): string {
    if |b| > 0 && b[0] == '/' then b
    else if a == [] || a[|a| - 1] == '/' then a + b
    else a + "/" + b
  }

  /** A directory entry name as `os.listdir` returns it: no separator inside. */
  predicate IsEntryName(b: string) {
    '/' !in b
  }

  lemma {:induction false} LastSlashBefore(a: string, b: string)
    requires a == [] || a[|a| - 1] == '/'
    requires IsEntryName(b)
    ensures LastSlash(a + b) == |a| - 1
  {
    var p := a + b;
    if b == [] {
      assert p == a;
      if a != [] {
        assert p[|p| - 1] == '/';
      }
    } else {
      assert p[|p| - 1] == b[|b| - 1];
      assert p[..|p| - 1] == a + b[..|b| - 1];
      LastSlashBefore(a, b[..|b| - 1]);
    }
  }

  lemma LastSlashAfter(a: string, b: string)
    requires IsEntryName(b)
    ensures LastSlash(a + "/" + b) == |a|
  {
    LastSlashBefore(a + "/", b);
  }

  lemma {:induction false} BasenameJoin(a: string, b: string)
    requires IsEntryName(b)
    ensures Basename(Join(a, b)) == b
  {
    if a == [] || a[|a| - 1] == '/' {
      LastSlashBefore(a, b);
      assert (a + b)[|a|..] == b;
    } else {
      LastSlashAfter(a, b);
      assert (a + "/" + b)[|a| + 1..] == b;
    }
  }

  lemma RStripOneSlash(a: string)
    requires a != [] && a[|a| - 1] != '/'
    ensures RStripSlashes(a + "/") == a
  {
    var s := a + "/";
    assert s[..|s| - 1] == a;
  }

  /** Splitting a joined path gives back its directory and entry name, for every directory
      `os.path.dirname` can return: empty, all slashes, or not ending in a slash. */
  lemma SplitJoin(a: string, b: string)
    requires a == [] || AllSlashes(a) || a[|a| - 1] != '/'
    requires IsEntryName(b)
    ensures Split(Join(a, b)) == (a, b)
  {
    if a == [] {
      LastSlashBefore(a, b);
      assert Join(a, b) == a + b;
    } else if a[|a| - 1] == '/' {
      LastSlashBefore(a, b);
      assert (a + b)[..|a|] == a && (a + b)[|a|..] == b;
    } else {
      var p := a + "/" + b;
      LastSlashAfter(a, b);
      assert p[..|a| + 1] == a + "/";
      assert p[|a| + 1..] == b;
      assert !AllSlashes(a + "/") by {
        assert (a + "/")[|a| - 1] == a[|a| - 1];
      }
      RStripOneSlash(a);
    }
  }

  /** A basename never holds a separator. */
  lemma BasenameIsEntryName(p: string)
    ensures IsEntryName(Basename(p))
  {
    var i := LastSlash(p) + 1;
    assert Basename(p) == p[i..];
    forall k | 0 <= k < |p[i..]|
      ensures p[i..][k] != '/'
    {
      assert p[i..][k] == p[i + k];
    }
  }

  /** What `os.path.dirname` returns is empty, all slashes, or does not end in a slash. */
  lemma DirnameShape(p: string)
    ensures var d := Dirname(p); d == [] || AllSlashes(d) || d[|d| - 1] != '/'
  {
  }

  /** A bare entry name has no directory part. */
  lemma EntryNameHasNoDirectory(b: string)
    requires IsEntryName(b)
    ensures Join("", b) == b
    ensures Dirname(b) == [] && Basename(b) == b
  {
    assert Join("", b) == b;
    SplitJoin("", b);
  }

  /** A name joined onto the directory of `p` lands in that same directory. */
  lemma DirnameJoin(p: string, b: string)
    requires IsEntryName(b)
    ensures Dirname(Join(Dirname(p), b)) == Dirname(p)
    ensures Basename(Join(Dirname(p), b)) == b
  {
    DirnameShape(p);
    SplitJoin(Dirname(p), b);
  }

  /** `os.path.basename(p).split('.')[0]`: the path's file name up to its first dot. */
  function Stem(p: string): (stem: string)
    ensures IsEntryName(stem)
    ensures '.' !in stem && stem <= Basename(p)
  {
    BasenameIsEntryName(p);
    var stem := BeforeFirstDot(Basename(p));
    assert forall k :: 0 <= k < |stem| ==> stem[k] == Basename(p)[k];
    stem
  }

  /** Each name joined to `directory`, in order. */
  function JoinAll(directory: string, names: seq<string>): (r: seq<string>)
    ensures |r| == |names|
    ensures forall i :: 0 <= i < |names| ==> r[i] == Join(directory, names[i])
  {
    seq(|names|, i requires 0 <= i < |names| => Join(directory, names[i]))
  }
}
