/**
 * The backend command `execute_rename_files` and its helper `apply_rename`
 * (src-tauri/src/lib.rs).  The backend receives the flattened regex steps and
 * the selected paths, renames each file on disk and reports one result per path.
 *
 * `Path::file_name` and `fs::rename` are handed in as a `Host`; the stem and
 * extension split that `Path::file_stem` / `Path::extension` perform on the file
 * name is modelled exactly.
 */
module Backend {
  import opened Wrappers
  import opened Foreign
  import opened Text
  import opened Types

  /** The backend's step: a regex rule (it has no normalize case). */
  datatype BackendStep = BackendStep(pattern: string, replacement: string)

  /**
   * The file system as the command sees it.  `fileName(p)` is the last component
   * of `p`, or `None` when `p` has none (it ends in `..`, or is a root or empty).
   * `rename(p, name)` moves `p` to `name` inside `p`'s parent directory and is
   * `None` on success, `Some(message)` on failure.
   */
  datatype Host = Host(fileName: string -> Option<string>, rename: (string, string) -> Option<string>)

  const InvalidPath: string := "Invalid file path"
  const NameUnchanged: string := "Name unchanged"

  // ------------------------------------------------------- stem and extension

  /**
   * The split `Path::file_stem` / `Path::extension` make at the last dot of a
   * file name: `..`, a name without a dot and a name whose only dot leads it
   * have no extension; otherwise the stem is everything before the last dot and
   * the extension everything after it, possibly empty.
   */
  function RustSplit(fileName: string): (parts: (string, Option<string>))
    ensures parts.1.None? <==> fileName == ".." || forall i :: 0 < i < |fileName| ==> fileName[i] != '.'
    ensures parts.1.None? ==> parts.0 == fileName
    ensures parts.1.Some? ==> parts.0 != "" && '.' !in parts.1.value
  {
    if fileName == ".." then (fileName, None)
    else
      var lastDot := LastIndexIn(fileName, {'.'});
      if lastDot <= 0 then (fileName, None)
      else (fileName[..lastDot], Some(fileName[lastDot + 1..]))
  }

  /** `extension().unwrap_or("")`: an empty extension and a missing one become the same "". */
  function ExtOrEmpty(ext: Option<string>): (r: string) {
    match ext
    case None => ""
    case Some(e) => e
  }

  // -------------------------------------------------------------- apply_rename

  /** The regex steps folded over the stem, stopping at the first pattern that does not compile. */
  function FoldRust(current: string, steps: seq<BackendStep>, rx: RegexEngine): (r: Result<string, string>)
    decreases |steps|
  {
    if |steps| == 0 then Ok(current)
    else if !rx.Compiles(steps[0].pattern) then Err(rx.compileError(steps[0].pattern).value)
    else FoldRust(rx.replaceAll(steps[0].pattern, steps[0].replacement, current), steps[1..], rx)
  }

  /** The extension is put back after a dot unless it is empty. */
  function JoinExt(current: string, ext: string): (r: string) {
    if ext == "" then current else current + "." + ext
  }

  function ApplyRenameSpec(stem: string, ext: string, steps: seq<BackendStep>, rx: RegexEngine): (r: Result<string, string>)
    ensures ext == "" ==> r == FoldRust(stem, steps, rx)
    ensures ext != "" && r.Ok? ==>
      FoldRust(stem, steps, rx).Ok? && r.value == FoldRust(stem, steps, rx).value + "." + ext
    ensures r.Err? <==> FoldRust(stem, steps, rx).Err?
    ensures r.Err? ==> r == FoldRust(stem, steps, rx)
  {
    match FoldRust(stem, steps, rx)
    case Err(e) => Err(e)
    case Ok(current) => Ok(JoinExt(current, ext))
  }

  predicate IsFirstBadPattern(steps: seq<BackendStep>, rx: RegexEngine, i: int) {
    && 0 <= i < |steps|
    && !rx.Compiles(steps[i].pattern)
    && forall j :: 0 <= j < i ==> rx.Compiles(steps[j].pattern)
  }

  /**
   * The fold fails exactly when some pattern does not compile, and then with the
   * compile error of the first such pattern, whatever the stem: no partially
   * transformed name escapes.
   */
  lemma {:induction false} FoldRustErrIff(current: string, steps: seq<BackendStep>, rx: RegexEngine)
    ensures FoldRust(current, steps, rx).Err? <==> exists i :: 0 <= i < |steps| && !rx.Compiles(steps[i].pattern)
    ensures FoldRust(current, steps, rx).Err? ==>
      exists i :: IsFirstBadPattern(steps, rx, i) && FoldRust(current, steps, rx).error == rx.compileError(steps[i].pattern).value
    decreases |steps|
  {
    if |steps| > 0 && rx.Compiles(steps[0].pattern) {
      var next := rx.replaceAll(steps[0].pattern, steps[0].replacement, current);
      assert FoldRust(current, steps, rx) == FoldRust(next, steps[1..], rx);
      FoldRustErrIff(next, steps[1..], rx);
      if exists i :: 0 <= i < |steps| && !rx.Compiles(steps[i].pattern) {
        var i :| 0 <= i < |steps| && !rx.Compiles(steps[i].pattern);
        assert steps[1..][i - 1] == steps[i];
      }
      if FoldRust(current, steps, rx).Err? {
        var i :| IsFirstBadPattern(steps[1..], rx, i)
          && FoldRust(next, steps[1..], rx).error == rx.compileError(steps[1..][i].pattern).value;
        assert steps[1..][i] == steps[i + 1];
        forall j | 0 <= j < i + 1 ensures rx.Compiles(steps[j].pattern) {
          if j > 0 {
            assert steps[1..][j - 1] == steps[j];
          }
        }
        assert IsFirstBadPattern(steps, rx, i + 1);
      }
    } else if |steps| > 0 {
      assert IsFirstBadPattern(steps, rx, 0);
    }
  }

  /** Steps apply in list order, each to the previous step's output. */
  lemma {:induction false} FoldRustAppend(current: string, a: seq<BackendStep>, b: seq<BackendStep>, rx: RegexEngine)
    ensures FoldRust(current, a + b, rx) ==
      match FoldRust(current, a, rx)
      case Err(e) => Err(e)
      case Ok(mid) => FoldRust(mid, b, rx)
    decreases |a|
  {
    if |a| == 0 {
      assert a + b == b;
    } else {
      assert (a + b)[0] == a[0];
      assert (a + b)[1..] == a[1..] + b;
      if rx.Compiles(a[0].pattern) {
        FoldRustAppend(rx.replaceAll(a[0].pattern, a[0].replacement, current), a[1..], b, rx);
      }
    }
  }

  /** With no steps the stem comes back with its extension. */
  lemma NoStepsKeepsName(stem: string, ext: string, rx: RegexEngine)
    ensures ApplyRenameSpec(stem, ext, [], rx) == Ok(if ext == "" then stem else stem + "." + ext)
  {
  }

  /** The two-step scenario: `test` → `prod`, then `file` → `data`, on `test-file.txt`. */
  lemma MultipleRenamesScenario(rx: RegexEngine)
    requires rx.Compiles("test") && rx.Compiles("file")
    requires rx.replaceAll("test", "prod", "test-file") == "prod-file"
    requires rx.replaceAll("file", "data", "prod-file") == "prod-data"
    ensures ApplyRenameSpec("test-file", "txt", [BackendStep("test", "prod"), BackendStep("file", "data")], rx)
      == Ok("prod-data.txt")
  {
    var steps := [BackendStep("test", "prod"), BackendStep("file", "data")];
    assert steps[1..] == [BackendStep("file", "data")] && steps[1..][1..] == [];
    assert FoldRust("test-file", steps, rx) == Ok("prod-data");
    assert JoinExt("prod-data", "txt") == "prod-data" + "." + "txt" == "prod-data.txt";
  }

  /** `apply_rename`: the loop over the steps, then the extension. */
  method ApplyRename(stem: string, ext: string, steps: seq<BackendStep>, rx: RegexEngine)
    returns (r: Result<string, string>)
    ensures r == ApplyRenameSpec(stem, ext, steps, rx)
  {
    var currentName := stem;
    for i := 0 to |steps|
      invariant FoldRust(currentName, steps[i..], rx) == FoldRust(stem, steps, rx)
    {
      var step := steps[i];
      assert steps[i..][1..] == steps[i + 1..];
      if !rx.Compiles(step.pattern) {
        return Err(rx.compileError(step.pattern).value);
      }
      currentName := rx.replaceAll(step.pattern, step.replacement, currentName);
    }
    assert steps[|steps|..] == [];
    if ext == "" {
      return Ok(currentName);
    } else {
      return Ok(currentName + "." + ext);
    }
  }

  // ------------------------------------------------------ execute_rename_files

  /** The result for one path, and the rename it attempted (path and new file name), if any. */
  datatype Outcome = Outcome(result: RenameResult, renameCall: Option<(string, string)>)

  /** What `execute_rename_files` computes for one path. */
  function ResultFor(filePath: string, steps: seq<BackendStep>, rx: RegexEngine, host: Host): (o: Outcome)
    ensures o.result.success ==> o.result.newName.Some? && o.result.error.None?
    ensures !o.result.success ==> o.result.newName.None? && o.result.error.Some?
    ensures host.fileName(filePath).None? ==>
      o == Outcome(RenameResult(false, filePath, None, Some(InvalidPath)), None)
    ensures host.fileName(filePath).Some? ==> o.result.oldName == host.fileName(filePath).value
    ensures o.renameCall.Some? ==>
      o.renameCall.value.0 == filePath && o.renameCall.value.1 != o.result.oldName
    ensures o.result.success ==> o.renameCall == Some((filePath, o.result.newName.value))
    ensures o.result.success ==>
      && host.fileName(filePath).Some?
      && var (stem, ext) := RustSplit(host.fileName(filePath).value);
         var r := ApplyRenameSpec(stem, ExtOrEmpty(ext), steps, rx);
         r.Ok? && o.result.newName == Some(r.value)
    ensures host.fileName(filePath).Some? ==>
      var oldName := host.fileName(filePath).value;
      var (stem, ext) := RustSplit(oldName);
      var r := ApplyRenameSpec(stem, ExtOrEmpty(ext), steps, rx);
      && (r.Err? ==> o == Outcome(RenameResult(false, oldName, None, Some(r.error)), None))
      && (r.Ok? && r.value != oldName ==> o.renameCall == Some((filePath, r.value)))
      && (r.Ok? && r.value != oldName && host.rename(filePath, r.value).Some? ==>
            o.result == RenameResult(false, oldName, None, host.rename(filePath, r.value)))
    ensures o.result.success <==>
      && host.fileName(filePath).Some?
      && var (stem, ext) := RustSplit(host.fileName(filePath).value);
         var r := ApplyRenameSpec(stem, ExtOrEmpty(ext), steps, rx);
         r.Ok? && r.value != host.fileName(filePath).value && host.rename(filePath, r.value).None?
  {
    match host.fileName(filePath)
    case None => Outcome(RenameResult(false, filePath, None, Some(InvalidPath)), None)
    case Some(oldName) =>
      var (stem, ext) := RustSplit(oldName);
      match ApplyRenameSpec(stem, ExtOrEmpty(ext), steps, rx)
      case Err(e) => Outcome(RenameResult(false, oldName, None, Some(e)), None)
      case Ok(newFileName) =>
        if newFileName == oldName then
          Outcome(RenameResult(false, oldName, None, Some(NameUnchanged)), None)
        else
          match host.rename(filePath, newFileName)
          case None => Outcome(RenameResult(true, oldName, Some(newFileName), None), Some((filePath, newFileName)))
          case Some(message) => Outcome(RenameResult(false, oldName, None, Some(message)), Some((filePath, newFileName)))
  }

  /** When the steps give back the old name the result says so and nothing is renamed. */
  lemma UnchangedNameIsReported(filePath: string, steps: seq<BackendStep>, rx: RegexEngine, host: Host)
    requires host.fileName(filePath).Some?
    requires var oldName := host.fileName(filePath).value;
      ApplyRenameSpec(RustSplit(oldName).0, ExtOrEmpty(RustSplit(oldName).1), steps, rx) == Ok(oldName)
    ensures ResultFor(filePath, steps, rx, host)
      == Outcome(RenameResult(false, host.fileName(filePath).value, None, Some(NameUnchanged)), None)
  {
  }

  /** The renames attempted for `files`, in order. */
  function RenameCalls(files: seq<string>, steps: seq<BackendStep>, rx: RegexEngine, host: Host): (r: seq<(string, string)>)
  {
    if |files| == 0 then []
    else
      var last := ResultFor(files[|files| - 1], steps, rx, host).renameCall;
      RenameCalls(files[..|files| - 1], steps, rx, host) + (if last.Some? then [last.value] else [])
  }

  /** Every attempted rename renames one of the given paths to a name other than its own. */
  lemma {:induction false} RenameCallsComeFromFiles(files: seq<string>, steps: seq<BackendStep>, rx: RegexEngine, host: Host)
    ensures forall c :: c in RenameCalls(files, steps, rx, host) ==>
      c.0 in files && host.fileName(c.0).Some? && c.1 != host.fileName(c.0).value
  {
    if |files| > 0 {
      var init := files[..|files| - 1];
      RenameCallsComeFromFiles(init, steps, rx, host);
      assert files == init + [files[|files| - 1]];
    }
  }

  /** The results for `files`, in order. */
  function ResultsFor(files: seq<string>, steps: seq<BackendStep>, rx: RegexEngine, host: Host): (r: seq<RenameResult>)
  {
    if |files| == 0 then []
    else ResultsFor(files[..|files| - 1], steps, rx, host) + [ResultFor(files[|files| - 1], steps, rx, host).result]
  }

  /** There is exactly one result per path, and the `k`-th result is the one for the `k`-th path. */
  lemma {:induction false} ResultsForEachPath(files: seq<string>, steps: seq<BackendStep>, rx: RegexEngine, host: Host)
    ensures |ResultsFor(files, steps, rx, host)| == |files|
    ensures forall k :: 0 <= k < |files| ==> ResultsFor(files, steps, rx, host)[k] == ResultFor(files[k], steps, rx, host).result
  {
    if |files| > 0 {
      var init := files[..|files| - 1];
      ResultsForEachPath(init, steps, rx, host);
      assert forall k :: 0 <= k < |init| ==> init[k] == files[k];
    }
  }

  /**
   * `execute_rename_files`: one result per path, in the order of the paths,
   * together with the renames it attempted on the way.
   */
  method ExecuteRenameFiles(files: seq<string>, steps: seq<BackendStep>, rx: RegexEngine, host: Host)
    returns (results: seq<RenameResult>, renames: seq<(string, string)>)
    ensures |results| == |files|
    ensures forall k :: 0 <= k < |files| ==> results[k] == ResultFor(files[k], steps, rx, host).result
    ensures renames == RenameCalls(files, steps, rx, host)
  {
    results := [];
    renames := [];
    for i := 0 to |files|
      invariant results == ResultsFor(files[..i], steps, rx, host)
      invariant renames == RenameCalls(files[..i], steps, rx, host)
    {
      assert files[..i + 1][..i] == files[..i] && files[..i + 1][i] == files[i];
      var outcome := RenameFile(files[i], steps, rx, host);
      results := results + [outcome.result];
      if outcome.renameCall.Some? {
        renames := renames + [outcome.renameCall.value];
      }
    }
    assert files[..|files|] == files;
    ResultsForEachPath(files, steps, rx, host);
  }

  /**
   * The loop body of `execute_rename_files` for one path; each early return is
   * a `continue` of the loop.
   */
  method RenameFile(filePath: string, steps: seq<BackendStep>, rx: RegexEngine, host: Host) returns (outcome: Outcome)
    ensures outcome == ResultFor(filePath, steps, rx, host)
  {
    var fileName := host.fileName(filePath);
    if fileName.None? {
      return Outcome(RenameResult(false, filePath, None, Some(InvalidPath)), None);
    }
    var oldName := fileName.value;
    var (stem, ext) := RustSplit(oldName);
    var applied := ApplyRename(stem, ExtOrEmpty(ext), steps, rx);
    match applied {
      case Ok(newFileName) => {
        if newFileName == oldName {
          return Outcome(RenameResult(false, oldName, None, Some(NameUnchanged)), None);
        }
        var renamed := host.rename(filePath, newFileName);
        match renamed {
          case None => {
            outcome := Outcome(RenameResult(true, oldName, Some(newFileName), None), Some((filePath, newFileName)));
          }
          case Some(message) => {
            outcome := Outcome(RenameResult(false, oldName, None, Some(message)), Some((filePath, newFileName)));
          }
        }
      }
      case Err(e) => {
        outcome := Outcome(RenameResult(false, oldName, None, Some(e)), None);
      }
    }
  }

  // -------------------------------------------------- the trailing-dot finding

  /**
   * As written, `foo.` splits into stem `foo` and an empty extension, which
   * `unwrap_or("")` cannot tell from no extension: any steps that leave the
   * stem alone still produce `foo`, and the file is renamed without its dot.
   */
  lemma TrailingDotDropped(filePath: string, steps: seq<BackendStep>, rx: RegexEngine, host: Host)
    requires host.fileName(filePath) == Some("foo.")
    requires FoldRust("foo", steps, rx) == Ok("foo")
    requires host.rename(filePath, "foo").None?
    ensures RustSplit("foo.") == ("foo", Some(""))
    ensures ResultFor(filePath, steps, rx, host).result == RenameResult(true, "foo.", Some("foo"), None)
  {
    var name := "foo.";
    assert LastIndexIn(name, {'.'}) == 3;
    assert name != ".." && name[..3] == "foo" && name[4..] == "";
    assert RustSplit(name) == ("foo", Some(""));
    assert ApplyRenameSpec("foo", ExtOrEmpty(Some("")), steps, rx) == Ok("foo");
    assert "foo" != name;
  }

  /** Corrected join: the extension goes back exactly when the split found one, even an empty one. */
  function JoinExtension(current: string, ext: Option<string>): (r: string) {
    match ext
    case None => current
    case Some(e) => current + "." + e
  }

  /** Corrected `apply_rename`, taking the extension as split. */
  function ApplyRenameFixed(stem: string, ext: Option<string>, steps: seq<BackendStep>, rx: RegexEngine): (r: Result<string, string>) {
    match FoldRust(stem, steps, rx)
    case Err(e) => Err(e)
    case Ok(current) => Ok(JoinExtension(current, ext))
  }

  /** Splitting a file name and joining the parts back gives the name again. */
  lemma SplitJoinRoundTrip(fileName: string)
    ensures JoinExtension(RustSplit(fileName).0, RustSplit(fileName).1) == fileName
  {
    var lastDot := LastIndexIn(fileName, {'.'});
    if fileName != ".." && lastDot > 0 {
      assert fileName == fileName[..lastDot] + [fileName[lastDot]] + fileName[lastDot + 1..];
    }
  }

  /**
   * With the corrected join, steps that leave the stem alone leave the whole
   * file name alone, so the backend reports it unchanged instead of renaming it.
   */
  lemma StemKeptMeansNameKept(fileName: string, steps: seq<BackendStep>, rx: RegexEngine)
    requires FoldRust(RustSplit(fileName).0, steps, rx) == Ok(RustSplit(fileName).0)
    ensures ApplyRenameFixed(RustSplit(fileName).0, RustSplit(fileName).1, steps, rx) == Ok(fileName)
  {
    SplitJoinRoundTrip(fileName);
  }
}
