/**
 * The selection list and the batch rename it drives (useRename in
 * src/composables/useRename.ts): `selectedFiles` is an ordered list of paths
 * that `addFiles`, `removeFiles` and `executeRename` update in place.
 *
 * The confirmation dialog and the backend call are inputs here: `confirmed`
 * is what the dialog answered, `reply` what the call settled with.
 */
module Selection {
  import opened Wrappers
  import opened Text
  import opened Types
  import opened Resolver
  import opened Paths

  // ---------------------------------------------------------------- addFiles

  /** The paths of `files` not in `existing`, in input order, repeats kept. */
  function NewPaths(files: seq<string>, existing: set<string>): (r: seq<string>)
    ensures |r| <= |files|
  {
    if |files| == 0 then []
    else
      var last := files[|files| - 1];
      NewPaths(files[..|files| - 1], existing) + (if last in existing then [] else [last])
  }

  /** The added paths are exactly the batch's paths that were not already selected. */
  lemma {:induction false} NewPathsMembers(files: seq<string>, existing: set<string>)
    ensures forall x :: x in NewPaths(files, existing) <==> x in files && x !in existing
  {
    if |files| > 0 {
      var last := files[|files| - 1];
      NewPathsMembers(files[..|files| - 1], existing);
      assert files == files[..|files| - 1] + [last];
    }
  }

  lemma NewPathsSnoc(files: seq<string>, x: string, existing: set<string>)
    ensures NewPaths(files + [x], existing) == NewPaths(files, existing) + (if x in existing then [] else [x])
  {
    assert (files + [x])[..|files|] == files;
  }

  /** A batch whose paths are all new is appended whole and in order, repeats included. */
  lemma {:induction false} NewPathsKeepsOrder(files: seq<string>, existing: set<string>)
    requires forall k :: 0 <= k < |files| ==> files[k] !in existing
    ensures NewPaths(files, existing) == files
  {
    if |files| > 0 {
      NewPathsKeepsOrder(files[..|files| - 1], existing);
      assert files == files[..|files| - 1] + [files[|files| - 1]];
    }
  }

  /**
   * Adding keeps a duplicate-free selection duplicate-free when the batch itself
   * has no repeats; a repeat inside one batch is not filtered, because the set
   * of existing paths is built once before the batch.
   */
  lemma AddFilesKeepsDistinct(selected: seq<string>, files: seq<string>)
    requires NoDuplicates(selected) && NoDuplicates(files)
    ensures NoDuplicates(selected + NewPaths(files, Elems(selected)))
  {
    var added := NewPaths(files, Elems(selected));
    NewPathsDistinct(files, Elems(selected));
    NewPathsMembers(files, Elems(selected));
    var all := selected + added;
    forall i, j | 0 <= i < j < |all| ensures all[i] != all[j] {
      if i < |selected| && j >= |selected| {
        assert all[j] == added[j - |selected|];
        assert all[j] in added;
        assert all[i] in Elems(selected);
      } else if i >= |selected| {
        assert all[i] == added[i - |selected|] && all[j] == added[j - |selected|];
      }
    }
  }

  lemma {:induction false} NewPathsDistinct(files: seq<string>, existing: set<string>)
    requires NoDuplicates(files)
    ensures NoDuplicates(NewPaths(files, existing))
  {
    if |files| > 0 {
      var init := files[..|files| - 1];
      var last := files[|files| - 1];
      assert NoDuplicates(init);
      NewPathsDistinct(init, existing);
      assert last !in init;
      var prefix := NewPaths(init, existing);
      NewPathsMembers(init, existing);
      assert last !in prefix;
      var r := prefix + (if last in existing then [] else [last]);
      forall i, j | 0 <= i < j < |r| ensures r[i] != r[j] {
        if j == |prefix| {
          assert r[i] in prefix;
        }
      }
    }
  }

  /** The add-unique-files scenario: two batches sharing `file2.txt` leave three paths. */
  lemma AddFilesScenario()
    ensures var once := NewPaths(["file1.txt", "file2.txt"], {});
      var twice := once + NewPaths(["file2.txt", "file3.txt"], Elems(once));
      twice == ["file1.txt", "file2.txt", "file3.txt"]
  {
    NewPathsKeepsOrder(["file1.txt", "file2.txt"], {});
    var once := ["file1.txt", "file2.txt"];
    assert "file3.txt"[4] != "file1.txt"[4] && "file3.txt"[4] != "file2.txt"[4];
    assert "file3.txt" !in Elems(once);
    assert "file2.txt" in Elems(once);
    var batch := ["file2.txt", "file3.txt"];
    assert batch[..1] == ["file2.txt"] && batch[..1][..0] == [];
  }

  // ------------------------------------------------------------- removeFiles

  predicate Descending(d: seq<int>) {
    forall i, j :: 0 <= i < j < |d| ==> d[i] >= d[j]
  }

  function Insert(x: int, d: seq<int>): (r: seq<int>)
    requires Descending(d)
    ensures Descending(r) && multiset(r) == multiset(d) + multiset{x}
    ensures r[0] == x || (|d| > 0 && r[0] == d[0])
  {
    if |d| == 0 || x >= d[0] then [x] + d
    else
      assert d == [d[0]] + d[1..];
      [d[0]] + Insert(x, d[1..])
  }

  /** `[...indices].sort((a, b) => b - a)`: a descending permutation of the indices. */
  function SortDescending(xs: seq<int>): (r: seq<int>)
    ensures Descending(r) && multiset(r) == multiset(xs)
  {
    if |xs| == 0 then []
    else
      assert xs == [xs[0]] + xs[1..];
      Insert(xs[0], SortDescending(xs[1..]))
  }

  /**
   * `s.splice(i, 1)`: a negative index counts from the end (clamped at 0), and an
   * index at or past the end removes nothing.
   */
  function Splice(s: seq<string>, i: int): (r: seq<string>) {
    var start := if i < 0 then (if |s| + i < 0 then 0 else |s| + i) else i;
    if start < |s| then s[..start] + s[start + 1..] else s
  }

  function SpliceAll(s: seq<string>, d: seq<int>): (r: seq<string>) {
    if |d| == 0 then s else SpliceAll(Splice(s, d[0]), d[1..])
  }

  /** The entries of `s`, numbered from `base`, whose position is not in `removed`, in order. */
  function KeepExcept(s: seq<string>, removed: set<int>, base: int): (r: seq<string>) {
    if |s| == 0 then [] else (if base in removed then [] else [s[0]]) + KeepExcept(s[1..], removed, base + 1)
  }

  lemma {:induction false} KeepExceptAppend(a: seq<string>, b: seq<string>, removed: set<int>, base: int)
    ensures KeepExcept(a + b, removed, base) == KeepExcept(a, removed, base) + KeepExcept(b, removed, base + |a|)
  {
    if |a| == 0 {
      assert a + b == b;
    } else {
      assert (a + b)[1..] == a[1..] + b;
      KeepExceptAppend(a[1..], b, removed, base + 1);
    }
  }

  lemma {:induction false} KeepExceptNone(s: seq<string>, removed: set<int>, base: int)
    requires forall x :: x in removed ==> x < base || x >= base + |s|
    ensures KeepExcept(s, removed, base) == s
  {
    if |s| > 0 {
      KeepExceptNone(s[1..], removed, base + 1);
      assert s == [s[0]] + s[1..];
    }
  }

  predicate StrictlyDescending(d: seq<int>) {
    forall i, j :: 0 <= i < j < |d| ==> d[i] > d[j]
  }

  function IndexSet(d: seq<int>): (r: set<int>) {
    set x | x in d
  }

  /** Without position `p`, the kept entries are those of the front, then the whole back. */
  lemma KeepExceptSpliced(s: seq<string>, r: set<int>, p: int)
    requires 0 <= p < |s|
    requires forall x :: x in r ==> x < p
    ensures KeepExcept(s[..p] + s[p + 1..], r, 0) == KeepExcept(s[..p], r, 0) + s[p + 1..]
  {
    KeepExceptAppend(s[..p], s[p + 1..], r, 0);
    KeepExceptNone(s[p + 1..], r, p);
  }

  /** Removing position `p` as well drops `s[p]` and keeps the same front and the whole back. */
  lemma {:induction false} KeepExceptRemoving(s: seq<string>, r: set<int>, p: int, base: int)
    requires base <= p < base + |s|
    requires forall x :: x in r ==> x < p
    ensures KeepExcept(s, r + {p}, base) == KeepExcept(s[..p - base], r, base) + s[p - base + 1..]
    decreases |s|
  {
    if base == p {
      assert KeepExcept(s, r + {p}, base) == KeepExcept(s[1..], r + {p}, base + 1);
      KeepExceptNone(s[1..], r + {p}, p + 1);
      assert s[..0] == [];
    } else {
      var head := if base in r then [] else [s[0]];
      assert KeepExcept(s, r + {p}, base) == head + KeepExcept(s[1..], r + {p}, base + 1);
      KeepExceptRemoving(s[1..], r, p, base + 1);
      assert s[..p - base][1..] == s[1..][..p - base - 1];
      assert s[1..][p - base..] == s[p - base + 1..];
      assert s[..p - base][0] == s[0];
      assert KeepExcept(s[..p - base], r, base) == head + KeepExcept(s[1..][..p - base - 1], r, base + 1);
    }
  }

  lemma IndexSetCons(p: int, rest: seq<int>)
    ensures IndexSet([p] + rest) == {p} + IndexSet(rest)
  {
    assert forall x :: x in [p] + rest <==> x == p || x in rest;
  }

  /**
   * Splicing out strictly descending in-range positions, highest first, keeps
   * every other entry in order, and removes exactly one entry per position.
   */
  lemma {:induction false} SpliceDescending(s: seq<string>, d: seq<int>)
    requires StrictlyDescending(d)
    requires forall k :: 0 <= k < |d| ==> 0 <= d[k] < |s|
    ensures SpliceAll(s, d) == KeepExcept(s, IndexSet(d), 0)
    ensures |SpliceAll(s, d)| == |s| - |d|
  {
    if |d| == 0 {
      assert IndexSet(d) == {};
      KeepExceptNone(s, {}, 0);
    } else {
      var p := d[0];
      var rest := d[1..];
      var s' := s[..p] + s[p + 1..];
      assert Splice(s, p) == s';
      TailBelowHead(d);
      SpliceDescending(s', rest);
      var r := IndexSet(rest);
      assert d == [p] + rest;
      IndexSetCons(p, rest);
      KeepExceptSpliced(s, r, p);
      KeepExceptRemoving(s, r, p, 0);
      assert r + {p} == {p} + r;
    }
  }

  /** After the head of a strictly descending list, everything is smaller and still strictly descending. */
  lemma TailBelowHead(d: seq<int>)
    requires |d| > 0 && StrictlyDescending(d)
    ensures StrictlyDescending(d[1..])
    ensures forall k :: 0 <= k < |d| - 1 ==> d[1..][k] < d[0]
    ensures forall x :: x in IndexSet(d[1..]) ==> x < d[0]
  {
    assert forall k :: 0 <= k < |d| - 1 ==> d[1..][k] == d[k + 1];
  }

  lemma DescendingDistinctIsStrict(d: seq<int>, xs: seq<int>)
    requires Descending(d) && multiset(d) == multiset(xs)
    requires forall i, j :: 0 <= i < j < |xs| ==> xs[i] != xs[j]
    ensures StrictlyDescending(d)
  {
    forall i, j | 0 <= i < j < |d| ensures d[i] > d[j] {
      if d[i] == d[j] {
        var x := d[i];
        assert multiset(d)[x] >= 2 by {
          assert d == d[..i] + [d[i]] + d[i + 1..j] + [d[j]] + d[j + 1..];
        }
        CountAtMostOne(xs, x);
      }
    }
  }

  lemma {:induction false} CountAtMostOne(xs: seq<int>, x: int)
    requires forall i, j :: 0 <= i < j < |xs| ==> xs[i] != xs[j]
    ensures multiset(xs)[x] <= 1
  {
    if |xs| > 0 {
      CountAtMostOne(xs[1..], x);
      assert xs == [xs[0]] + xs[1..];
      if xs[0] == x {
        assert x !in xs[1..];
      }
    }
  }

  /**
   * For distinct in-range indices, removal deletes exactly those positions and
   * keeps the remaining entries in their original relative order.
   */
  lemma RemoveDistinctInRange(s: seq<string>, indices: seq<int>)
    requires forall k :: 0 <= k < |indices| ==> 0 <= indices[k] < |s|
    requires forall i, j :: 0 <= i < j < |indices| ==> indices[i] != indices[j]
    ensures SpliceAll(s, SortDescending(indices)) == KeepExcept(s, IndexSet(indices), 0)
    ensures |SpliceAll(s, SortDescending(indices))| == |s| - |indices|
  {
    var d := SortDescending(indices);
    DescendingDistinctIsStrict(d, indices);
    forall k | 0 <= k < |d| ensures 0 <= d[k] < |s| {
      assert d[k] in multiset(indices);
    }
    forall x ensures x in IndexSet(d) <==> x in IndexSet(indices) {
      assert x in d <==> x in multiset(d);
      assert x in indices <==> x in multiset(indices);
    }
    assert IndexSet(d) == IndexSet(indices);
    assert |d| == |multiset(d)| == |multiset(indices)| == |indices|;
    SpliceDescending(s, d);
  }

  /** The remove-by-indices scenario: removing 0 and 2 of three files leaves the middle one. */
  lemma RemoveFilesScenario()
    ensures SpliceAll(["file1.txt", "file2.txt", "file3.txt"], SortDescending([0, 2])) == ["file2.txt"]
  {
    assert SortDescending([2]) == [2];
    assert SortDescending([0, 2]) == [2, 0];
    var s := ["file1.txt", "file2.txt", "file3.txt"];
    assert Splice(s, 2) == ["file1.txt", "file2.txt"];
    assert Splice(["file1.txt", "file2.txt"], 0) == ["file2.txt"];
  }

  // ---------------------------------------------------------- reconciliation

  /** `findIndex(f => f.endsWith(suffix))`: the first entry ending in `suffix`, or -1. */
  function FindSuffixIndex(files: seq<string>, suffix: string): (k: int)
    ensures -1 <= k < |files|
    ensures k >= 0 ==> EndsWith(files[k], suffix)
    ensures forall j :: 0 <= j < |files| && (k < 0 || j < k) ==> !EndsWith(files[j], suffix)
  {
    if |files| == 0 then -1
    else if EndsWith(files[0], suffix) then 0
    else var k := FindSuffixIndex(files[1..], suffix); if k < 0 then -1 else k + 1
  }

  /** A result the reconciliation acts on: successful and carrying a non-empty new name. */
  predicate Applies(res: RenameResult) {
    res.success && Truthy(res.newName)
  }

  /**
   * One result, as written: the FIRST entry that ends with `oldName` becomes its
   * directory prefix plus `newName`; every other entry stays.
   */
  function ReconcileOne(files: seq<string>, res: RenameResult): (r: seq<string>)
    ensures |r| == |files|
    ensures forall j :: 0 <= j < |files| && j != FindSuffixIndex(files, res.oldName) ==> r[j] == files[j]
    ensures Applies(res) && FindSuffixIndex(files, res.oldName) >= 0 ==>
      var k := FindSuffixIndex(files, res.oldName); r[k] == DirPrefix(files[k]) + res.newName.value
    ensures !Applies(res) ==> r == files
  {
    if Applies(res) then
      var idx := FindSuffixIndex(files, res.oldName);
      if idx != -1 then files[idx := DirPrefix(files[idx]) + res.newName.value] else files
    else files
  }

  function Reconcile(files: seq<string>, results: seq<RenameResult>): (r: seq<string>)
    decreases |results|
  {
    if |results| == 0 then files else Reconcile(ReconcileOne(files, results[0]), results[1..])
  }

  predicate SeparatorFreeNames(results: seq<RenameResult>) {
    forall k :: 0 <= k < |results| && Applies(results[k]) ==> NoSeparator(results[k].newName.value)
  }

  /**
   * Reconciliation keeps the list length and every entry's directory prefix,
   * provided the new names are plain file names.
   */
  lemma {:induction false} ReconcileKeepsDirectories(files: seq<string>, results: seq<RenameResult>)
    requires SeparatorFreeNames(results)
    ensures |Reconcile(files, results)| == |files|
    ensures forall j :: 0 <= j < |files| ==> DirPrefix(Reconcile(files, results)[j]) == DirPrefix(files[j])
    decreases |results|
  {
    if |results| > 0 {
      var once := ReconcileOne(files, results[0]);
      forall j | 0 <= j < |files| ensures DirPrefix(once[j]) == DirPrefix(files[j]) {
        var k := FindSuffixIndex(files, results[0].oldName);
        if j == k && Applies(results[0]) {
          JoinedPathParts(DirPrefix(files[j]), results[0].newName.value);
        }
      }
      assert SeparatorFreeNames(results[1..]) by {
        forall k | 0 <= k < |results[1..]| && Applies(results[1..][k])
          ensures NoSeparator(results[1..][k].newName.value)
        {
          assert results[1..][k] == results[k + 1];
        }
      }
      ReconcileKeepsDirectories(once, results[1..]);
    }
  }

  /**
   * A successful result whose old name ends the first entry rewrites that entry
   * to its directory plus the new name.
   */
  lemma ReconcileFirstEntry(files: seq<string>, res: RenameResult, dir: string)
    requires |files| > 0 && Applies(res)
    requires EndsWith(files[0], res.oldName) && DirPrefix(files[0]) == dir
    ensures ReconcileOne(files, res) == [dir + res.newName.value] + files[1..]
  {
    assert FindSuffixIndex(files, res.oldName) == 0;
  }

  /** Unfolds the reconciliation of a suffix of the results by one result. */
  lemma ReconcileAt(files: seq<string>, results: seq<RenameResult>, i: nat)
    requires i < |results|
    ensures Reconcile(files, results[i..]) == Reconcile(ReconcileOne(files, results[i]), results[i + 1..])
  {
    assert results[i..][0] == results[i] && results[i..][1..] == results[i + 1..];
  }

  lemma ReconcileTwo(files: seq<string>, first: RenameResult, second: RenameResult)
    ensures Reconcile(files, [first, second]) == ReconcileOne(ReconcileOne(files, first), second)
  {
    var results := [first, second];
    var once := ReconcileOne(files, first);
    assert results[1..] == [second] && [second][1..] == [];
    assert Reconcile(files, results) == Reconcile(once, [second]);
    assert Reconcile(once, [second]) == Reconcile(ReconcileOne(once, second), []);
  }

  /** A path built from a directory and a plain file name ends with every suffix of that name. */
  lemma JoinedPathFacts(dir: string, name: string, suffix: string)
    requires dir == "" || dir[|dir| - 1] in Separators
    requires NoSeparator(name) && EndsWith(name, suffix)
    ensures DirPrefix(dir + name) == dir
    ensures EndsWith(dir + name, suffix)
  {
    JoinedPathParts(dir, name);
    var p := dir + name;
    assert p[|p| - |suffix|..] == name[|name| - |suffix|..];
  }

  /** The rename-success scenario: the entry keeps `C:/old/` and takes the new name. */
  lemma ReconcileScenario()
    ensures Reconcile(["C:/old/" + "2023-01-01.txt"],
      [RenameResult(true, "2023-01-01.txt", Some("2023年01月01日.txt"), None)])
      == ["C:/old/" + "2023年01月01日.txt"]
  {
    var files := ["C:/old/" + "2023-01-01.txt"];
    var res := RenameResult(true, "2023-01-01.txt", Some("2023年01月01日.txt"), None);
    assert res.oldName[0..] == res.oldName;
    JoinedPathFacts("C:/old/", res.oldName, res.oldName);
    ReconcileFirstEntry(files, res, "C:/old/");
    assert files[1..] == [] && [res][1..] == [];
    assert Reconcile(files, [res]) == Reconcile(ReconcileOne(files, res), []);
  }

  lemma XFileEndsWithFile()
    ensures NoSeparator("xfile.txt") && EndsWith("xfile.txt", "file.txt")
  {
    assert "xfile.txt"[1..] == "file.txt";
  }

  /**
   * As written, a result is matched by suffix, so it can land on another entry:
   * `/a/xfile.txt` ends with `file.txt`.  Here `/a/xfile.txt` was left alone and
   * `/b/file.txt` was renamed, yet the selection renames the first entry and
   * keeps the stale second one.
   */
  lemma SuffixMatchRenamesWrongEntry()
    ensures Reconcile(["/a/" + "xfile.txt", "/b/" + "file.txt"],
      [RenameResult(false, "xfile.txt", None, Some("Name unchanged")),
       RenameResult(true, "file.txt", Some("new.txt"), None)])
      == ["/a/" + "new.txt", "/b/" + "file.txt"]
  {
    var files := ["/a/" + "xfile.txt", "/b/" + "file.txt"];
    var failed := RenameResult(false, "xfile.txt", None, Some("Name unchanged"));
    var renamed := RenameResult(true, "file.txt", Some("new.txt"), None);
    ReconcileTwo(files, failed, renamed);
    assert !Applies(failed);
    assert ReconcileOne(files, failed) == files;
    XFileEndsWithFile();
    JoinedPathFacts("/a/", "xfile.txt", "file.txt");
    ReconcileFirstEntry(files, renamed, "/a/");
    assert files[1..] == ["/b/" + "file.txt"];
  }

  /**
   * Corrected reconciliation: the backend answers with one result per requested
   * path, in request order, so result `k` belongs to entry `k`.
   */
  function ReconcilePositional(files: seq<string>, results: seq<RenameResult>): (r: seq<string>)
    ensures |r| == |files|
  {
    seq(|files|, k requires 0 <= k < |files| =>
      if k < |results| && Applies(results[k]) then DirPrefix(files[k]) + results[k].newName.value else files[k])
  }

  /**
   * With positional matching each entry is renamed exactly when its own result
   * succeeded: it keeps its directory and takes its result's new name, and
   * every other entry is untouched.
   */
  lemma PositionalRenamesOwnEntry(files: seq<string>, results: seq<RenameResult>, k: nat)
    requires k < |files| && |results| == |files| && SeparatorFreeNames(results)
    ensures Applies(results[k]) ==>
      && DirPrefix(ReconcilePositional(files, results)[k]) == DirPrefix(files[k])
      && FileNameOf(ReconcilePositional(files, results)[k]) == results[k].newName.value
    ensures !Applies(results[k]) ==> ReconcilePositional(files, results)[k] == files[k]
  {
    if Applies(results[k]) {
      JoinedPathParts(DirPrefix(files[k]), results[k].newName.value);
    }
  }

  /** On the input that misleads suffix matching, positional matching renames the right entry. */
  lemma PositionalFixesSuffixScenario()
    ensures ReconcilePositional(["/a/" + "xfile.txt", "/b/" + "file.txt"],
      [RenameResult(false, "xfile.txt", None, Some("Name unchanged")),
       RenameResult(true, "file.txt", Some("new.txt"), None)])
      == ["/a/" + "xfile.txt", "/b/" + "new.txt"]
  {
    var files := ["/a/" + "xfile.txt", "/b/" + "file.txt"];
    var results := [RenameResult(false, "xfile.txt", None, Some("Name unchanged")),
       RenameResult(true, "file.txt", Some("new.txt"), None)];
    assert "file.txt"[0..] == "file.txt";
    JoinedPathFacts("/b/", "file.txt", "file.txt");
    assert !Applies(results[0]) && Applies(results[1]);
    var r := ReconcilePositional(files, results);
    var expected := ["/a/" + "xfile.txt", "/b/" + "new.txt"];
    assert r[0] == expected[0] && r[1] == expected[1];
  }

  // -------------------------------------------------------------- the session

  datatype BackendReply = Resolved(results: seq<RenameResult>) | Rejected(error: string)

  /** The arguments of the `execute_rename_files` invocation. */
  datatype Invocation = Invocation(files: seq<string>, steps: seq<RenameStep>, normalization: NormalizationOptions)

  /** How `executeRename` settles: no value, the backend's results, or the rethrown error. */
  datatype Completion = NoResult | Results(results: seq<RenameResult>) | Rethrown(error: string)

  /** What one `executeRename` call did: whether it asked, what it invoked, how it settled. */
  datatype Execution = Execution(asked: bool, invoked: Option<Invocation>, completion: Completion)

  class RenameSession {
    var selectedFiles: seq<string>

    constructor ()
      ensures selectedFiles == []
    {
      selectedFiles := [];
    }

    /** Appends, in order, each path of `files` that was not selected before the call. */
    method AddFiles(files: seq<string>)
      modifies this
      ensures selectedFiles == old(selectedFiles) + NewPaths(files, Elems(old(selectedFiles)))
    {
      var existing := Elems(selectedFiles);
      ghost var before := selectedFiles;
      var i := 0;
      while i < |files|
        invariant 0 <= i <= |files|
        invariant selectedFiles == before + NewPaths(files[..i], existing)
      {
        var f := files[i];
        ghost var added := NewPaths(files[..i], existing);
        assert files[..i + 1] == files[..i] + [f];
        NewPathsSnoc(files[..i], f, existing);
        if f !in existing {
          selectedFiles := selectedFiles + [f];
          assert selectedFiles == before + (added + [f]);
        } else {
          assert added + [] == added;
        }
        i := i + 1;
      }
      assert files[..|files|] == files;
    }

    /** Splices out each index, highest first. */
    method RemoveFiles(indices: seq<int>)
      modifies this
      ensures selectedFiles == SpliceAll(old(selectedFiles), SortDescending(indices))
    {
      var sortedIndices := SortDescending(indices);
      var i := 0;
      while i < |sortedIndices|
        invariant 0 <= i <= |sortedIndices|
        invariant SpliceAll(selectedFiles, sortedIndices[i..]) == SpliceAll(old(selectedFiles), sortedIndices)
      {
        assert sortedIndices[i..][1..] == sortedIndices[i + 1..];
        selectedFiles := Splice(selectedFiles, sortedIndices[i]);
        i := i + 1;
      }
    }

    /**
     * The reconciliation loop of `executeRename`: each successful result renames
     * the first selected path ending in its old name.
     */
    method ApplyResults(results: seq<RenameResult>)
      modifies this
      ensures selectedFiles == Reconcile(old(selectedFiles), results)
    {
      var i := 0;
      while i < |results|
        invariant 0 <= i <= |results|
        invariant Reconcile(selectedFiles, results[i..]) == Reconcile(old(selectedFiles), results)
      {
        ReconcileAt(selectedFiles, results, i);
        ApplyResult(results[i]);
        i := i + 1;
      }
      assert results[|results|..] == [];
    }

    /** The `forEach` body for one result: rewrite the first suffix-matching entry, keeping its directory. */
    method ApplyResult(res: RenameResult)
      modifies this
      ensures selectedFiles == ReconcileOne(old(selectedFiles), res)
    {
      if res.success && Truthy(res.newName) {
        var idx := FindSuffixIndex(selectedFiles, res.oldName);
        if idx != -1 {
          var oldPath := selectedFiles[idx];
          var lastSlash := LastIndexIn(oldPath, Separators);
          var dir := if lastSlash != -1 then oldPath[..lastSlash + 1] else "";
          selectedFiles := selectedFiles[idx := dir + res.newName.value];
        }
      }
    }

    /**
     * Guards, confirmation, flattening, the backend call and reconciliation.
     * The dialog is asked before the steps are flattened, and an empty flat
     * list ends the call silently after a confirmed dialog.
     */
    method ExecuteRename(steps: seq<Step>, regexLibrary: seq<RegexDef>, groups: seq<Group>,
                         normalization: NormalizationOptions, confirmed: bool, reply: BackendReply)
      returns (run: Execution)
      modifies this
      ensures run.asked <==> |old(selectedFiles)| > 0 && |steps| > 0
      ensures run.invoked.Some? <==> run.asked && confirmed && |Flatten(steps, regexLibrary, groups)| > 0
      ensures run.invoked.Some? ==>
        run.invoked.value == Invocation(old(selectedFiles), Flatten(steps, regexLibrary, groups), normalization)
      ensures run.invoked.None? ==> selectedFiles == old(selectedFiles) && run.completion == NoResult
      ensures run.invoked.Some? && reply.Rejected? ==>
        selectedFiles == old(selectedFiles) && run.completion == Rethrown(reply.error)
      ensures run.invoked.Some? && reply.Resolved? ==>
        selectedFiles == Reconcile(old(selectedFiles), reply.results) && run.completion == Results(reply.results)
    {
      if |selectedFiles| == 0 || |steps| == 0 {
        return Execution(false, None, NoResult);
      }
      if !confirmed {
        return Execution(true, None, NoResult);
      }

      var resolver := new StepResolver(regexLibrary, groups);
      resolver.ResolveSteps(steps);
      var flattenedSteps := resolver.flattened;
      if |flattenedSteps| == 0 {
        return Execution(true, None, NoResult);
      }

      var request := Invocation(selectedFiles, flattenedSteps, normalization);
      match reply {
        case Rejected(error) =>
          return Execution(true, Some(request), Rethrown(error));
        case Resolved(results) =>
          ApplyResults(results);
          return Execution(true, Some(request), Results(results));
      }
    }
  }
}
