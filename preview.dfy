/**
 * The live preview (resolveNewName in src/composables/useRename.ts): take the
 * last path component, split it at the last dot, fold the flattened steps over
 * the stem only, and put the extension back.  A pattern the JavaScript engine
 * rejects throws inside the fold; the catch returns the whole original file
 * name instead of a partly transformed one.
 */
module Preview {
  import opened Wrappers
  import opened Text
  import opened Types
  import opened Foreign
  import opened Normalizer
  import opened Resolver
  import opened Paths

  /** Some regex step of `flat` names a pattern the engine cannot compile. */
  predicate HasBadPattern(flat: seq<RenameStep>, js: RegexEngine) {
    exists i :: 0 <= i < |flat| && flat[i].Regex? && !js.Compiles(flat[i].pattern)
  }

  /** The fold over the stem; `None` is the exception the first bad pattern throws. */
  function FoldStem(stem: string, flat: seq<RenameStep>, normalization: NormalizationOptions,
                    js: RegexEngine, nfkc: Nfkc): (r: Option<string>)
    decreases |flat|
  {
    if |flat| == 0 then Some(stem)
    else match flat[0]
      case Normalize =>
        FoldStem(ApplyNormalization(nfkc, stem, normalization), flat[1..], normalization, js, nfkc)
      case Regex(pattern, replacement) =>
        if !js.Compiles(pattern) then None
        else FoldStem(js.replaceAll(pattern, replacement, stem), flat[1..], normalization, js, nfkc)
  }

  /** The name the preview shows for `oldPath`. */
  function PreviewName(oldPath: string, steps: seq<Step>, regexLibrary: seq<RegexDef>, groups: seq<Group>,
                       normalization: NormalizationOptions, js: RegexEngine, nfkc: Nfkc): (name: string)
  {
    var fileName := FileNameOf(oldPath);
    var (stem, ext) := SplitExt(fileName);
    match FoldStem(stem, Flatten(steps, regexLibrary, groups), normalization, js, nfkc)
    case Some(newStem) => newStem + ext
    case None => fileName
  }

  method ResolveNewName(oldPath: string, steps: seq<Step>, regexLibrary: seq<RegexDef>, groups: seq<Group>,
                        normalization: NormalizationOptions, js: RegexEngine, nfkc: Nfkc)
    returns (newName: string)
    ensures newName == PreviewName(oldPath, steps, regexLibrary, groups, normalization, js, nfkc)
  {
    var fileName := FileNameOf(oldPath);
    var stem, ext := SplitName(fileName);

    var resolver := new StepResolver(regexLibrary, groups);
    resolver.ResolveSteps(steps);
    var flattenedSteps := resolver.flattened;
    assert flattenedSteps == Flatten(steps, regexLibrary, groups);
    PreviewNameUnfold(oldPath, steps, regexLibrary, groups, normalization, js, nfkc);

    var folded := RunFold(stem, flattenedSteps, normalization, js, nfkc);
    match folded {
      case Some(newStem) => newName := newStem + ext;
      case None => newName := fileName;
    }
  }

  /** The split at the last dot, as `lastIndexOf` and two `substring` calls compute it. */
  method SplitName(fileName: string) returns (stem: string, ext: string)
    ensures (stem, ext) == SplitExt(fileName)
  {
    var lastDot := LastIndexIn(fileName, {'.'});
    ext := if lastDot != -1 then fileName[lastDot..] else "";
    stem := if lastDot != -1 then fileName[..lastDot] else fileName;
  }

  /** The `for` loop over the flat steps; `None` is the exception a bad pattern throws. */
  method RunFold(stem: string, flat: seq<RenameStep>, normalization: NormalizationOptions,
                 js: RegexEngine, nfkc: Nfkc) returns (r: Option<string>)
    ensures r == FoldStem(stem, flat, normalization, js, nfkc)
  {
    var current := stem;
    var i := 0;
    while i < |flat|
      invariant 0 <= i <= |flat|
      invariant FoldStem(current, flat[i..], normalization, js, nfkc) == FoldStem(stem, flat, normalization, js, nfkc)
    {
      assert flat[i..][1..] == flat[i + 1..];
      UnfoldFoldStem(current, flat[i..], normalization, js, nfkc);
      match flat[i] {
        case Normalize =>
          current := ApplyNormalization(nfkc, current, normalization);
        case Regex(pattern, replacement) =>
          if !js.Compiles(pattern) {
            return None;
          }
          current := js.replaceAll(pattern, replacement, current);
      }
      i := i + 1;
    }
    assert flat[i..] == [];
    r := Some(current);
  }

  lemma UnfoldFoldStem(stem: string, flat: seq<RenameStep>, normalization: NormalizationOptions,
                        js: RegexEngine, nfkc: Nfkc)
    requires |flat| > 0
    ensures FoldStem(stem, flat, normalization, js, nfkc)
      == if flat[0].Normalize? then FoldStem(ApplyNormalization(nfkc, stem, normalization), flat[1..], normalization, js, nfkc)
         else if !js.Compiles(flat[0].pattern) then None
         else FoldStem(js.replaceAll(flat[0].pattern, flat[0].replacement, stem), flat[1..], normalization, js, nfkc)
  {
  }

  lemma PreviewNameUnfold(oldPath: string, steps: seq<Step>, regexLibrary: seq<RegexDef>, groups: seq<Group>,
                          normalization: NormalizationOptions, js: RegexEngine, nfkc: Nfkc)
    ensures var fileName := FileNameOf(oldPath);
      var parts := SplitExt(fileName);
      var outcome := FoldStem(parts.0, Flatten(steps, regexLibrary, groups), normalization, js, nfkc);
      PreviewName(oldPath, steps, regexLibrary, groups, normalization, js, nfkc)
        == if outcome.Some? then outcome.value + parts.1 else fileName
  {
  }

  /** The fold fails exactly when some regex step names a pattern the engine rejects. */
  lemma {:induction false} FoldStemFailsIffBadPattern(stem: string, flat: seq<RenameStep>,
      normalization: NormalizationOptions, js: RegexEngine, nfkc: Nfkc)
    ensures FoldStem(stem, flat, normalization, js, nfkc).None? <==> HasBadPattern(flat, js)
    decreases |flat|
  {
    if |flat| > 0 {
      var next := match flat[0]
        case Normalize => ApplyNormalization(nfkc, stem, normalization)
        case Regex(p, r) => js.replaceAll(p, r, stem);
      FoldStemFailsIffBadPattern(next, flat[1..], normalization, js, nfkc);
      if HasBadPattern(flat[1..], js) {
        var i :| 0 <= i < |flat[1..]| && flat[1..][i].Regex? && !js.Compiles(flat[1..][i].pattern);
        assert flat[i + 1] == flat[1..][i];
      }
      if HasBadPattern(flat, js) && !(flat[0].Regex? && !js.Compiles(flat[0].pattern)) {
        var i :| 0 <= i < |flat| && flat[i].Regex? && !js.Compiles(flat[i].pattern);
        assert i > 0 && flat[1..][i - 1] == flat[i];
      }
    }
  }

  /** Steps run in list order, each on the previous one's output. */
  lemma {:induction false} FoldStemAppend(stem: string, a: seq<RenameStep>, b: seq<RenameStep>,
      normalization: NormalizationOptions, js: RegexEngine, nfkc: Nfkc)
    ensures FoldStem(stem, a + b, normalization, js, nfkc)
      == match FoldStem(stem, a, normalization, js, nfkc)
         case None => None
         case Some(mid) => FoldStem(mid, b, normalization, js, nfkc)
    decreases |a|
  {
    if |a| == 0 {
      assert a + b == b;
    } else {
      assert (a + b)[0] == a[0] && (a + b)[1..] == a[1..] + b;
      var next := match a[0]
        case Normalize => ApplyNormalization(nfkc, stem, normalization)
        case Regex(p, r) => js.replaceAll(p, r, stem);
      FoldStemAppend(next, a[1..], b, normalization, js, nfkc);
    }
  }

  /**
   * The extension is never transformed: without a bad pattern the preview is
   * the folded stem followed by the original extension; with one it is the
   * original file name, unchanged.
   */
  lemma PreviewKeepsExtension(oldPath: string, steps: seq<Step>, regexLibrary: seq<RegexDef>, groups: seq<Group>,
                              normalization: NormalizationOptions, js: RegexEngine, nfkc: Nfkc)
    ensures var fileName := FileNameOf(oldPath);
      var (stem, ext) := SplitExt(fileName);
      var flat := Flatten(steps, regexLibrary, groups);
      var r := PreviewName(oldPath, steps, regexLibrary, groups, normalization, js, nfkc);
      && (HasBadPattern(flat, js) ==> r == fileName)
      && (!HasBadPattern(flat, js) ==>
            && FoldStem(stem, flat, normalization, js, nfkc).Some?
            && EndsWith(r, ext) && r == FoldStem(stem, flat, normalization, js, nfkc).value + ext)
  {
    var fileName := FileNameOf(oldPath);
    var (stem, ext) := SplitExt(fileName);
    var flat := Flatten(steps, regexLibrary, groups);
    FoldStemFailsIffBadPattern(stem, flat, normalization, js, nfkc);
    if !HasBadPattern(flat, js) {
      var s := FoldStem(stem, flat, normalization, js, nfkc).value;
      assert (s + ext)[|s + ext| - |ext|..] == ext;
    }
  }

  /** Mutually referencing groups leave every file name exactly as it was, whatever the engine. */
  lemma CyclicGroupsLeaveNameUnchanged(oldPath: string, regexLibrary: seq<RegexDef>, normalization: NormalizationOptions,
                                       js: RegexEngine, nfkc: Nfkc)
    ensures PreviewName(oldPath, [GroupRef("g1")], regexLibrary,
      [Group("g1", "Group 1", [GroupRef("g2")]), Group("g2", "Group 2", [GroupRef("g1")])],
      normalization, js, nfkc) == FileNameOf(oldPath)
  {
    MutualGroupsFlattenToNothing(regexLibrary);
    var parts := SplitExt(FileNameOf(oldPath));
    assert parts.0 + parts.1 == FileNameOf(oldPath);
  }
}
