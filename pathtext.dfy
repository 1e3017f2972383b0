/** String operations that `arrange_files` performs on a path: `str.rfind`, the
    slice that takes the "extension" and the base name `shutil.move` keeps. */
module PathText {

  /** Python's `s.rfind(c)`: the index of the last occurrence of `c`, or -1. */
  function LastIndexOf(s: string, c: char): (r: int)
    ensures -1 <= r < |s|
    ensures r >= 0 ==> s[r] == c
    ensures forall j :: r < j < |s| ==> s[j] != c
    ensures r == -1 <==> c !in s
    decreases |s|
  {
    if s == [] then -1
    else if s[|s| - 1] == c then |s| - 1
    else LastIndexOf(s[..|s| - 1], c)
  }

  /** Python's slice `s[start:]`; a negative start counts from the end. */
  function SliceFrom(s: string, start: int): (r: string)
    requires -|s| <= start <= |s|
    ensures |r| == if start < 0 then -start else |s| - start
    ensures r == s[|s| - |r|..]
  {
    if start < 0 then s[|s| + start..] else s[start..]
  }

  /** The `file_prefix` of main.py: `s[s.rfind('.'):]`. With no '.' in `s`,
      `rfind` gives -1 and the slice is the last character (empty for ""). */
  function Extension(path: string): (r: string)
    ensures |r| <= |path| && r == path[|path| - |r|..]
    ensures '.' in path ==> |r| >= 1 && r[0] == '.' && '.' !in r[1..]
    ensures '.' !in path ==> |r| == (if path == [] then 0 else 1)
  {
    var i := LastIndexOf(path, '.');
    if path == [] then "" else SliceFrom(path, i)
  }

  /** The last component of a '/'-separated path: the name a moved file keeps. */
  function BaseName(path: string): string {
    path[LastIndexOf(path, '/') + 1..]
  }

  /** The base name is what follows the last '/' of the path: a '/'-free
      suffix, preceded by a '/' whenever it is shorter than the path. */
  lemma BaseNameSpec(path: string)
    ensures |BaseName(path)| <= |path| && BaseName(path) == path[|path| - |BaseName(path)|..]
    ensures '/' !in BaseName(path)
    ensures |BaseName(path)| < |path| ==> path[|path| - |BaseName(path)| - 1] == '/'
    ensures '/' !in path ==> BaseName(path) == path
  {
  }

  /** When the base name carries no '.', the extension either spans a '/'
      (the last '.' sits in a directory name) or is at most one character. */
  lemma DotlessBaseName(path: string)
    requires '.' !in BaseName(path)
    ensures '/' in Extension(path) || |Extension(path)| <= 1
  {
    BaseNameSpec(path);
    if '.' in path {
      var d := LastIndexOf(path, '.');
      var b := |path| - |BaseName(path)|;
      var k := LastIndexOf(path, '/');
      assert b == k + 1;
      assert Extension(path)[k - d] == path[k] == '/';
    }
  }

  /** With no '.' anywhere in a non-empty path, `rfind` gives -1 and the
      "extension" is the path's last character ("README" gives "E"). */
  lemma DotlessExtension(path: string)
    requires path != [] && '.' !in path
    ensures Extension(path) == [path[|path| - 1]]
  {
    assert LastIndexOf(path, '.') == -1;
  }

  /** A name ending in `ext`, where `ext` is a '.' followed by no other '.',
      has the extension `ext`, whatever the stem holds. */
  lemma ExtensionOfSplit(stem: string, ext: string)
    requires |ext| >= 1 && ext[0] == '.' && '.' !in ext[1..]
    ensures Extension(stem + ext) == ext
  {
    var s := stem + ext;
    var r := LastIndexOf(s, '.');
    assert s[|stem|] == '.';
    assert forall j :: |stem| < j < |s| ==> s[j] == ext[1..][j - |stem| - 1];
    assert s[|stem|..] == ext;
  }
}
