/**
 * The front end (preview, src/composables/useRename.ts) and the backend
 * (src-tauri/src/lib.rs) split a file name into stem and extension by
 * different rules.  They agree on ordinary names and part on dot-files.
 */
module Consistency {
  import opened Wrappers
  import opened Text
  import opened Paths
  import opened Backend

  /**
   * On a name whose last dot is neither its first character nor missing, both
   * sides cut at that dot: same stem, and the front end's extension is the
   * backend's with the dot in front.  Without any dot both keep the whole name.
   */
  lemma SplitsAgreeOnOrdinaryNames(fileName: string)
    requires fileName != ".."
    requires LastIndexIn(fileName, {'.'}) != 0
    ensures SplitExt(fileName).0 == RustSplit(fileName).0
    ensures RustSplit(fileName).1.None? ==> SplitExt(fileName).1 == ""
    ensures RustSplit(fileName).1.Some? ==> SplitExt(fileName).1 == "." + RustSplit(fileName).1.value
  {
    var lastDot := LastIndexIn(fileName, {'.'});
    if lastDot > 0 {
      assert RustSplit(fileName) == (fileName[..lastDot], Some(fileName[lastDot + 1..]));
      assert SplitExt(fileName) == (fileName[..lastDot], fileName[lastDot..]);
      assert fileName[lastDot..] == "." + fileName[lastDot + 1..];
    } else {
      assert lastDot == -1;
      assert RustSplit(fileName) == (fileName, None);
      assert SplitExt(fileName) == (fileName, "");
    }
  }

  /** A dot-file: the preview sees an empty stem, the backend a stem with no extension. */
  lemma DotFileSplitsDisagree()
    ensures SplitExt(".bashrc") == ("", ".bashrc")
    ensures RustSplit(".bashrc") == (".bashrc", None)
  {
    var name := ".bashrc";
    assert name == ['.', 'b', 'a', 's', 'h', 'r', 'c'];
    assert forall i :: 0 < i < |name| ==> name[i] !in {'.'};
    var lastDot := LastIndexIn(name, {'.'});
    assert name[0] in {'.'};
    assert lastDot != -1;
    assert lastDot == 0;
    assert name[..0] == "" && name[0..] == name;
  }
}
