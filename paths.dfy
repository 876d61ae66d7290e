/** The parts of Node's `path` module the engine relies on, for POSIX
    paths. */
module Paths {
  import opened Text

  /** `path.join` of a directory and a file name, without normalisation. */
  function Join(dir: string, file: string): (r: string)
    ensures EndsWith(r, file) && StartsWith(r, dir)
  {
    if dir == "" then file else dir + "/" + file
  }

  /** Trailing separators do not count towards the last segment. */
  function DropTrailingSlashes(p: string): (r: string)
    ensures |r| <= |p| && r == p[..|r|]
    ensures |r| == 0 || r[|r| - 1] != '/'
    ensures forall k :: |r| <= k < |p| ==> p[k] == '/'
  {
    if |p| > 0 && p[|p| - 1] == '/' then DropTrailingSlashes(p[..|p| - 1]) else p
  }

  /** `path.basename(p)`: the last segment, without any directory part. */
  function Basename(p: string): (r: string)
    ensures NoChar(r, '/')
    ensures |r| <= |p|
  {
    var q := DropTrailingSlashes(p);
    q[LastIndexOfChar(q, '/') + 1..]
  }

  /** A path without separators is its own base name, and a directory part
      in front of it does not change it. */
  lemma BasenameOfPlainName(dir: string, name: string)
    requires |name| > 0 && NoChar(name, '/')
    ensures Basename(name) == name
    ensures Basename(dir + "/" + name) == name
  {
    var p := dir + "/" + name;
    assert DropTrailingSlashes(p) == p;
    assert DropTrailingSlashes(name) == name;
    assert LastIndexOfChar(p, '/') == |dir| by {
      assert p[|dir|] == '/';
      forall k | |dir| < k < |p| ensures p[k] != '/' {
        assert p[k] == name[k - |dir| - 1];
      }
      LastIndexOfCharIs(p, '/', |dir|);
    }
    assert p[|dir| + 1..] == name;
    LastIndexOfCharIs(name, '/', -1);
  }

  /** The last occurrence is pinned down by the character there and the
      absence of the character after it. */
  lemma {:induction false} LastIndexOfCharIs(s: string, c: char, i: int)
    requires -1 <= i < |s|
    requires i >= 0 ==> s[i] == c
    requires forall k :: i < k < |s| ==> s[k] != c
    ensures LastIndexOfChar(s, c) == i
    decreases |s|
  {
    if |s| > 0 && s[|s| - 1] != c {
      LastIndexOfCharIs(s[..|s| - 1], c, i);
    }
  }
}
