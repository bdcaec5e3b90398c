/**
 * The front end's path arithmetic (src/composables/useRename.ts): the last
 * path component, the directory prefix before it, and the stem/extension
 * split at the last dot.  Both `/` and `\` separate path components.
 */
module Paths {
  import opened Text

  const Separators: set<char> := {'/', '\\'}

  predicate NoSeparator(s: string) {
    forall i :: 0 <= i < |s| ==> s[i] !in Separators
  }

  /** `oldPath.split(/[/\\]/).pop() || ''`: everything after the last separator. */
  function FileNameOf(path: string): (name: string)
    ensures EndsWith(path, name)
    ensures NoSeparator(name)
    ensures |name| < |path| ==> path[|path| - |name| - 1] in Separators
  {
    path[LastIndexIn(path, Separators) + 1..]
  }

  /**
   * The directory prefix `executeRename` keeps: everything up to and including
   * the last separator, or "" when there is none.
   */
  function DirPrefix(path: string): (dir: string)
    ensures dir == "" || dir[|dir| - 1] in Separators
  {
    var lastSlash := LastIndexIn(path, Separators);
    if lastSlash != -1 then path[..lastSlash + 1] else ""
  }

  /**
   * The stem/extension split at the last dot, the dot going with the extension.
   * Without a dot the extension is empty and the stem is the whole name.
   */
  function SplitExt(fileName: string): (parts: (string, string))
    ensures parts.0 + parts.1 == fileName
    ensures parts.1 == "" ==> '.' !in fileName
    ensures parts.1 != "" ==> parts.1[0] == '.' && '.' !in parts.1[1..]
  {
    var lastDot := LastIndexIn(fileName, {'.'});
    if lastDot != -1 then (fileName[..lastDot], fileName[lastDot..]) else (fileName, "")
  }

  /** A path is its directory prefix followed by its last component. */
  lemma DirAndNameRebuildPath(path: string)
    ensures DirPrefix(path) + FileNameOf(path) == path
  {
    var k := LastIndexIn(path, Separators);
    if k == -1 {
      assert path[0..] == path;
    } else {
      assert path[..k + 1] + path[k + 1..] == path;
    }
  }

  /**
   * Putting a separator-free name after a directory prefix gives a path whose
   * prefix is that directory and whose last component is that name.
   */
  lemma JoinedPathParts(dir: string, name: string)
    requires dir == "" || dir[|dir| - 1] in Separators
    requires NoSeparator(name)
    ensures DirPrefix(dir + name) == dir
    ensures FileNameOf(dir + name) == name
  {
    var p := dir + name;
    LastIndexSkipsTail(dir, name, Separators);
    var k := LastIndexIn(p, Separators);
    if dir == "" {
      assert k == -1;
      assert p[0..] == p;
    } else {
      assert k == |dir| - 1;
      assert p[..k + 1] == dir;
      assert p[k + 1..] == name;
    }
  }
}
