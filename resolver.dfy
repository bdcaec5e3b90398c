/**
 * Step flattening (resolveSteps in src/composables/useRename.ts): a tree of
 * steps, in which a step may name a library regex, name a group of further
 * steps, or ask for normalization, becomes a flat list of `RenameStep`s.
 *
 * The source keeps ONE `visited` set for the whole call and only ever adds to
 * it, so a group is expanded at most once per call, also when it is named
 * again from a sibling branch.  `FlattenSteps` is the reference definition of
 * that traversal; `StepResolver` is the imperative accumulator-and-set form the
 * source uses, proved equal to it.
 */
module Resolver {
  import opened Wrappers
  import opened Types

  /** `xs.find(x => key(x) === id)` as an index: the first match, or -1. */
  function FirstIndexBy<T>(xs: seq<T>, key: T -> string, id: string): (k: int)
    ensures -1 <= k < |xs|
    ensures k >= 0 ==> key(xs[k]) == id
    ensures forall j :: 0 <= j < |xs| && (k < 0 || j < k) ==> key(xs[j]) != id
  {
    if |xs| == 0 then -1
    else if key(xs[0]) == id then 0
    else var k := FirstIndexBy(xs[1..], key, id); if k < 0 then -1 else k + 1
  }

  function FindRegex(library: seq<RegexDef>, id: string): (r: Option<RegexDef>) {
    var k := FirstIndexBy(library, (d: RegexDef) => d.id, id);
    if k < 0 then None else Some(library[k])
  }

  /** `find` returns the first rule whose id matches. */
  lemma FindRegexFirst(library: seq<RegexDef>, id: string, k: nat)
    requires k < |library| && library[k].id == id
    requires forall j :: 0 <= j < k ==> library[j].id != id
    ensures FindRegex(library, id) == Some(library[k])
  {
  }

  function FindGroup(groups: seq<Group>, id: string): (r: Option<Group>) {
    var k := FirstIndexBy(groups, (g: Group) => g.id, id);
    if k < 0 then None else Some(groups[k])
  }

  function GroupIds(groups: seq<Group>): (r: set<string>) {
    set g | g in groups :: g.id
  }

  /**
   * The outcome of flattening: the emitted steps, the `visited` set after the
   * traversal, and (for the proofs) the group ids expanded, in the order entered.
   */
  datatype Resolution = Resolution(out: seq<RenameStep>, visited: set<string>, expanded: seq<string>)

  lemma DiffShrinks(ids: set<string>, a: set<string>, b: set<string>)
    requires a <= b
    ensures |ids - b| <= |ids - a|
  {
    var small, large := ids - b, ids - a;
    assert large == small + (large - small);
  }

  lemma DiffShrinksStrictly(ids: set<string>, a: set<string>, id: string)
    requires id in ids && id !in a
    ensures |ids - (a + {id})| < |ids - a|
  {
    assert ids - a == (ids - (a + {id})) + {id};
  }

  /** The reference traversal of a step list, threading `visited` left to right. */
  function FlattenSteps(steps: seq<Step>, library: seq<RegexDef>, groups: seq<Group>, visited: set<string>): (r: Resolution)
    ensures visited <= r.visited
    decreases |GroupIds(groups) - visited|, |steps|, 1
  {
    if |steps| == 0 then Resolution([], visited, [])
    else
      var h := FlattenOne(steps[0], library, groups, visited);
      DiffShrinks(GroupIds(groups), visited, h.visited);
      var t := FlattenSteps(steps[1..], library, groups, h.visited);
      Resolution(h.out + t.out, t.visited, h.expanded + t.expanded)
  }

  /**
   * One step: skipped when disabled; otherwise normalize wins over regexId,
   * which wins over groupRefId.  Unknown ids and already visited groups emit
   * nothing.
   */
  function FlattenOne(step: Step, library: seq<RegexDef>, groups: seq<Group>, visited: set<string>): (r: Resolution)
    ensures visited <= r.visited
    decreases |GroupIds(groups) - visited|, 0, 0
  {
    if Disabled(step) then Resolution([], visited, [])
    else if WantsNormalize(step) then Resolution([Normalize], visited, [])
    else if Truthy(step.regexId) then
      match FindRegex(library, step.regexId.value)
      case Some(rx) => Resolution([Regex(rx.pattern, rx.replacement)], visited, [])
      case None => Resolution([], visited, [])
    else if Truthy(step.groupRefId) then
      var id := step.groupRefId.value;
      if id in visited then Resolution([], visited, [])
      else match FindGroup(groups, id)
        case None => Resolution([], visited, [])
        case Some(g) =>
          assert g in groups;
          DiffShrinksStrictly(GroupIds(groups), visited, id);
          var inner := FlattenSteps(g.steps, library, groups, visited + {id});
          Resolution(inner.out, inner.visited, [id] + inner.expanded)
    else Resolution([], visited, [])
  }

  /** The flat list a top-level call produces: `resolveSteps(steps, new Set())`. */
  function Flatten(steps: seq<Step>, library: seq<RegexDef>, groups: seq<Group>): (r: seq<RenameStep>) {
    FlattenSteps(steps, library, groups, {}).out
  }

  function Elems(xs: seq<string>): (r: set<string>) {
    set x | x in xs
  }

  predicate NoDuplicates(xs: seq<string>) {
    forall i, j :: 0 <= i < j < |xs| ==> xs[i] != xs[j]
  }

  /**
   * Each group id is expanded at most once per traversal: the expanded ids are
   * distinct, were not visited before, are ids of existing groups, and are
   * exactly what the traversal adds to `visited`.
   */
  lemma {:induction false} EachGroupExpandedOnce(steps: seq<Step>, library: seq<RegexDef>, groups: seq<Group>, visited: set<string>)
    ensures var r := FlattenSteps(steps, library, groups, visited);
      && (forall x :: x in r.visited <==> x in visited || x in r.expanded)
      && NoDuplicates(r.expanded)
      && forall x :: x in r.expanded ==> x !in visited && x in GroupIds(groups)
    decreases |GroupIds(groups) - visited|, |steps|, 1
  {
    if |steps| > 0 {
      var h := FlattenOne(steps[0], library, groups, visited);
      DiffShrinks(GroupIds(groups), visited, h.visited);
      EachGroupExpandedOnceOne(steps[0], library, groups, visited);
      EachGroupExpandedOnce(steps[1..], library, groups, h.visited);
      var t := FlattenSteps(steps[1..], library, groups, h.visited);
      var e := h.expanded + t.expanded;
      forall i, j | 0 <= i < j < |e| ensures e[i] != e[j] {
        if j >= |h.expanded| && i < |h.expanded| {
          assert e[i] in h.visited && e[j] !in h.visited;
        }
      }
    }
  }

  lemma {:induction false} EachGroupExpandedOnceOne(step: Step, library: seq<RegexDef>, groups: seq<Group>, visited: set<string>)
    ensures var r := FlattenOne(step, library, groups, visited);
      && (forall x :: x in r.visited <==> x in visited || x in r.expanded)
      && NoDuplicates(r.expanded)
      && forall x :: x in r.expanded ==> x !in visited && x in GroupIds(groups)
    decreases |GroupIds(groups) - visited|, 0, 0
  {
    if RefersToGroup(step) && step.groupRefId.value !in visited && FindGroup(groups, step.groupRefId.value).Some? {
      var id := step.groupRefId.value;
      var g := FindGroup(groups, id).value;
      assert g in groups && g.id == id;
      DiffShrinksStrictly(GroupIds(groups), visited, id);
      EachGroupExpandedOnce(g.steps, library, groups, visited + {id});
      EnteringGroup(step, library, groups, visited, g);
      var inner := FlattenSteps(g.steps, library, groups, visited + {id});
      ConsNoDuplicates(id, inner.expanded);
    } else {
      NotEnteringGroup(step, library, groups, visited);
    }
  }

  lemma ConsNoDuplicates(x: string, xs: seq<string>)
    requires x !in xs && NoDuplicates(xs)
    ensures NoDuplicates([x] + xs)
  {
    var e := [x] + xs;
    forall i, j | 0 <= i < j < |e| ensures e[i] != e[j] {
      assert e[j] == xs[j - 1];
      if i > 0 {
        assert e[i] == xs[i - 1];
      }
    }
  }

  /** Unfolds `FlattenOne` on every other step: nothing is expanded and `visited` is unchanged. */
  lemma NotEnteringGroup(step: Step, library: seq<RegexDef>, groups: seq<Group>, visited: set<string>)
    requires !(RefersToGroup(step) && step.groupRefId.value !in visited && FindGroup(groups, step.groupRefId.value).Some?)
    ensures FlattenOne(step, library, groups, visited).expanded == []
    ensures FlattenOne(step, library, groups, visited).visited == visited
  {
  }

  /** Unfolds `FlattenOne` on a step that enters a group that exists and is not yet visited. */
  lemma EnteringGroup(step: Step, library: seq<RegexDef>, groups: seq<Group>, visited: set<string>, g: Group)
    requires RefersToGroup(step) && step.groupRefId.value !in visited
    requires FindGroup(groups, step.groupRefId.value) == Some(g)
    ensures var inner := FlattenSteps(g.steps, library, groups, visited + {step.groupRefId.value});
      FlattenOne(step, library, groups, visited) == Resolution(inner.out, inner.visited, [step.groupRefId.value] + inner.expanded)
  {
  }

  lemma {:induction false} DistinctElemsCount(xs: seq<string>)
    requires NoDuplicates(xs)
    ensures |Elems(xs)| == |xs|
  {
    if |xs| > 0 {
      DistinctElemsCount(xs[1..]);
      assert Elems(xs) == {xs[0]} + Elems(xs[1..]);
      assert xs[0] !in Elems(xs[1..]);
    }
  }

  /** However cyclic the group graph, a call expands at most as many groups as exist. */
  lemma ExpansionsBoundedByGroups(steps: seq<Step>, library: seq<RegexDef>, groups: seq<Group>)
    ensures |FlattenSteps(steps, library, groups, {}).expanded| <= |GroupIds(groups)|
  {
    var r := FlattenSteps(steps, library, groups, {});
    EachGroupExpandedOnce(steps, library, groups, {});
    DistinctElemsCount(r.expanded);
    assert Elems(r.expanded) <= GroupIds(groups);
    SubsetCard(Elems(r.expanded), GroupIds(groups));
  }

  lemma SubsetCard(a: set<string>, b: set<string>)
    requires a <= b
    ensures |a| <= |b|
  {
    assert b == a + (b - a);
  }

  /** Every emitted regex step carries the pattern and replacement of a library rule, verbatim. */
  lemma {:induction false} RegexStepsComeFromLibrary(steps: seq<Step>, library: seq<RegexDef>, groups: seq<Group>, visited: set<string>)
    ensures forall k :: 0 <= k < |FlattenSteps(steps, library, groups, visited).out| ==>
      var s := FlattenSteps(steps, library, groups, visited).out[k];
      s.Regex? ==> s in LibraryRules(library)
    decreases |GroupIds(groups) - visited|, |steps|, 1
  {
    if |steps| > 0 {
      var h := FlattenOne(steps[0], library, groups, visited);
      DiffShrinks(GroupIds(groups), visited, h.visited);
      RegexStepsComeFromLibraryOne(steps[0], library, groups, visited);
      RegexStepsComeFromLibrary(steps[1..], library, groups, h.visited);
    }
  }

  lemma {:induction false} RegexStepsComeFromLibraryOne(step: Step, library: seq<RegexDef>, groups: seq<Group>, visited: set<string>)
    ensures forall k :: 0 <= k < |FlattenOne(step, library, groups, visited).out| ==>
      var s := FlattenOne(step, library, groups, visited).out[k];
      s.Regex? ==> s in LibraryRules(library)
    decreases |GroupIds(groups) - visited|, 0, 0
  {
    if !Disabled(step) && !WantsNormalize(step) {
      if Truthy(step.regexId) {
        var rx := FindRegex(library, step.regexId.value);
        if rx.Some? {
          assert rx.value in library;
          assert Regex(rx.value.pattern, rx.value.replacement) in LibraryRules(library);
        }
      } else if Truthy(step.groupRefId) {
        var id := step.groupRefId.value;
        var g := FindGroup(groups, id);
        if id !in visited && g.Some? {
          assert g.value in groups;
          DiffShrinksStrictly(GroupIds(groups), visited, id);
          RegexStepsComeFromLibrary(g.value.steps, library, groups, visited + {id});
        }
      }
    }
  }

  /** The flat regex steps the library's rules stand for. */
  function LibraryRules(library: seq<RegexDef>): (r: set<RenameStep>) {
    set d | d in library :: Regex(d.pattern, d.replacement)
  }

  /**
   * Order preservation: flattening a concatenation is flattening the first part
   * and then the second, starting from the `visited` set the first part left.
   */
  lemma {:induction false} FlattenAppend(a: seq<Step>, b: seq<Step>, library: seq<RegexDef>, groups: seq<Group>, visited: set<string>)
    ensures var ra := FlattenSteps(a, library, groups, visited);
      var rb := FlattenSteps(b, library, groups, ra.visited);
      && FlattenSteps(a + b, library, groups, visited).out == ra.out + rb.out
      && FlattenSteps(a + b, library, groups, visited).visited == rb.visited
    decreases |a|
  {
    if |a| == 0 {
      assert a + b == b;
    } else {
      var h := FlattenOne(a[0], library, groups, visited);
      FlattenAppend(a[1..], b, library, groups, h.visited);
      var rest := FlattenSteps(a[1..], library, groups, h.visited);
      var rb := FlattenSteps(b, library, groups, rest.visited);
      var ab := a + b;
      assert ab[0] == a[0] && ab[1..] == a[1..] + b;
      UnfoldFlattenSteps(a, library, groups, visited);
      UnfoldFlattenSteps(ab, library, groups, visited);
      assert h.out + (rest.out + rb.out) == (h.out + rest.out) + rb.out;
    }
  }

  lemma UnfoldFlattenSteps(steps: seq<Step>, library: seq<RegexDef>, groups: seq<Group>, visited: set<string>)
    requires |steps| > 0
    ensures var h := FlattenOne(steps[0], library, groups, visited);
      var rest := FlattenSteps(steps[1..], library, groups, h.visited);
      FlattenSteps(steps, library, groups, visited) == Resolution(h.out + rest.out, rest.visited, h.expanded + rest.expanded)
  {
  }

  /** Unfolds the traversal of a suffix of `steps` by one step. */
  lemma FlattenStepsAt(steps: seq<Step>, i: nat, library: seq<RegexDef>, groups: seq<Group>, visited: set<string>)
    requires i < |steps|
    ensures var one := FlattenOne(steps[i], library, groups, visited);
      var rest := FlattenSteps(steps[i + 1..], library, groups, one.visited);
      && FlattenSteps(steps[i..], library, groups, visited).out == one.out + rest.out
      && FlattenSteps(steps[i..], library, groups, visited).visited == rest.visited
  {
    assert steps[i..][0] == steps[i] && steps[i..][1..] == steps[i + 1..];
    UnfoldFlattenSteps(steps[i..], library, groups, visited);
  }

  /** A step that, when the traversal reaches it, enters a group. */
  predicate RefersToGroup(step: Step) {
    !Disabled(step) && !WantsNormalize(step) && !Truthy(step.regexId) && Truthy(step.groupRefId)
  }

  /** What a step that does not enter a group emits: nothing, or exactly one flat step. */
  function Emitted(step: Step, library: seq<RegexDef>): (r: seq<RenameStep>) {
    if Disabled(step) then []
    else if WantsNormalize(step) then [Normalize]
    else if Truthy(step.regexId) then
      match FindRegex(library, step.regexId.value)
      case Some(rx) => [Regex(rx.pattern, rx.replacement)]
      case None => []
    else []
  }

  function EmittedAll(steps: seq<Step>, library: seq<RegexDef>): (r: seq<RenameStep>) {
    if |steps| == 0 then [] else Emitted(steps[0], library) + EmittedAll(steps[1..], library)
  }

  /**
   * Without group references, flattening keeps step order and emits one flat
   * step per enabled step that asks for normalization or names a known regex,
   * and nothing for the others; `visited` does not change.
   */
  lemma {:induction false} FlattenWithoutGroups(steps: seq<Step>, library: seq<RegexDef>, groups: seq<Group>, visited: set<string>)
    requires forall k :: 0 <= k < |steps| ==> !RefersToGroup(steps[k])
    ensures FlattenSteps(steps, library, groups, visited).out == EmittedAll(steps, library)
    ensures FlattenSteps(steps, library, groups, visited).visited == visited
  {
    if |steps| > 0 {
      FlattenWithoutGroups(steps[1..], library, groups, visited);
    }
  }

  /**
   * Precedence inside one step: a disabled step emits nothing; otherwise
   * `normalize` wins over `regexId`, and `regexId` wins over `groupRefId`, whose
   * group is then never entered.
   */
  lemma StepPrecedence(step: Step, library: seq<RegexDef>, groups: seq<Group>, visited: set<string>)
    ensures Disabled(step) ==> FlattenOne(step, library, groups, visited) == Resolution([], visited, [])
    ensures !Disabled(step) && WantsNormalize(step) ==>
      FlattenOne(step, library, groups, visited) == Resolution([Normalize], visited, [])
    ensures !Disabled(step) && !WantsNormalize(step) && Truthy(step.regexId) ==>
      FlattenOne(step, library, groups, visited) == Resolution(Emitted(step, library), visited, [])
  {
  }

  /**
   * A group reference whose group was already entered, or does not exist,
   * emits nothing and leaves `visited` as it was.
   */
  lemma GroupSkips(step: Step, library: seq<RegexDef>, groups: seq<Group>, visited: set<string>)
    requires RefersToGroup(step)
    requires step.groupRefId.value in visited || FindGroup(groups, step.groupRefId.value).None?
    ensures FlattenOne(step, library, groups, visited) == Resolution([], visited, [])
  {
  }

  // The test scenarios of src/composables/__tests__/useRename.spec.ts.

  function GroupRef(id: string): Step {
    Step(None, Some(id), None, Some(true))
  }

  function RegexRef(id: string): Step {
    Step(Some(id), None, None, Some(true))
  }

  lemma FlattenSingle(step: Step, library: seq<RegexDef>, groups: seq<Group>, visited: set<string>)
    ensures FlattenSteps([step], library, groups, visited) == FlattenOne(step, library, groups, visited)
  {
    UnfoldFlattenSteps([step], library, groups, visited);
    assert [step][1..] == [];
  }

  /** Two groups naming each other, used as the only step, flatten to nothing. */
  lemma MutualGroupsFlattenToNothing(library: seq<RegexDef>)
    ensures Flatten([GroupRef("g1")], library,
      [Group("g1", "Group 1", [GroupRef("g2")]), Group("g2", "Group 2", [GroupRef("g1")])]) == []
  {
    var groups := [Group("g1", "Group 1", [GroupRef("g2")]), Group("g2", "Group 2", [GroupRef("g1")])];
    assert "g1"[1] != "g2"[1];
    assert FindGroup(groups, "g1") == Some(groups[0]);
    assert FindGroup(groups, "g2") == Some(groups[1]);
    FlattenSingle(GroupRef("g1"), library, groups, {"g1", "g2"});
    assert FlattenSteps([GroupRef("g1")], library, groups, {"g1", "g2"}).out == [];
    FlattenSingle(GroupRef("g2"), library, groups, {"g1"});
    EnteringGroup(GroupRef("g2"), library, groups, {"g1"}, groups[1]);
    assert {"g1"} + {"g2"} == {"g1", "g2"};
    assert FlattenSteps([GroupRef("g2")], library, groups, {"g1"}).out == [];
    FlattenSingle(GroupRef("g1"), library, groups, {});
    EnteringGroup(GroupRef("g1"), library, groups, {}, groups[0]);
    assert {} + {"g1"} == {"g1"};
  }

  /**
   * The shared `visited` set: a group named twice by sibling steps is expanded
   * only the first time, so its steps appear once.
   */
  lemma SiblingGroupExpandedOnce()
    ensures Flatten([GroupRef("g"), GroupRef("g")], [RegexDef("rx", "a", "b")], [Group("g", "G", [RegexRef("rx")])])
      == [Regex("a", "b")]
  {
    var library := [RegexDef("rx", "a", "b")];
    var groups := [Group("g", "G", [RegexRef("rx")])];
    assert FindGroup(groups, "g") == Some(groups[0]);
    assert FindRegex(library, "rx") == Some(library[0]);
    FlattenSingle(RegexRef("rx"), library, groups, {"g"});
    EnteringGroup(GroupRef("g"), library, groups, {}, groups[0]);
    assert {} + {"g"} == {"g"};
    var first := FlattenOne(GroupRef("g"), library, groups, {});
    assert first == Resolution([Regex("a", "b")], {"g"}, ["g"]);
    FlattenSingle(GroupRef("g"), library, groups, {"g"});
    UnfoldFlattenSteps([GroupRef("g"), GroupRef("g")], library, groups, {});
    assert [GroupRef("g"), GroupRef("g")][1..] == [GroupRef("g")];
  }

  /** A parent group that names a child group and then a regex: child steps first, depth-first. */
  lemma NestedGroupsDepthFirst(date: RegexDef, prefix: RegexDef)
    requires date.id == "rx1" && prefix.id == "rx2"
    ensures Flatten([GroupRef("g_parent")], [date, prefix],
      [Group("g_parent", "Parent Group", [GroupRef("g_child"), RegexRef("rx2")]),
       Group("g_child", "Child Group", [RegexRef("rx1")])])
      == [Regex(date.pattern, date.replacement), Regex(prefix.pattern, prefix.replacement)]
  {
    var library := [date, prefix];
    var groups := [Group("g_parent", "Parent Group", [GroupRef("g_child"), RegexRef("rx2")]),
                   Group("g_child", "Child Group", [RegexRef("rx1")])];
    assert FindGroup(groups, "g_parent") == Some(groups[0]);
    ParentGroupBody(date, prefix);
    EnteringGroup(GroupRef("g_parent"), library, groups, {}, groups[0]);
    assert {} + {"g_parent"} == {"g_parent"};
    FlattenSingle(GroupRef("g_parent"), library, groups, {});
  }

  /** The parent group's own steps, once it is being visited: the child's regex, then its own. */
  lemma ParentGroupBody(date: RegexDef, prefix: RegexDef)
    requires date.id == "rx1" && prefix.id == "rx2"
    ensures FlattenSteps([GroupRef("g_child"), RegexRef("rx2")], [date, prefix],
      [Group("g_parent", "Parent Group", [GroupRef("g_child"), RegexRef("rx2")]),
       Group("g_child", "Child Group", [RegexRef("rx1")])], {"g_parent"}).out
      == [Regex(date.pattern, date.replacement), Regex(prefix.pattern, prefix.replacement)]
  {
    var library := [date, prefix];
    var groups := [Group("g_parent", "Parent Group", [GroupRef("g_child"), RegexRef("rx2")]),
                   Group("g_child", "Child Group", [RegexRef("rx1")])];
    assert "rx1"[2] != "rx2"[2] && "g_parent"[2] != "g_child"[2];
    assert FindGroup(groups, "g_child") == Some(groups[1]);
    assert FindRegex(library, "rx1") == Some(date);
    FindRegexFirst(library, "rx2", 1);
    var both := {"g_parent", "g_child"};
    assert {"g_parent"} + {"g_child"} == both;
    FlattenSingle(RegexRef("rx1"), library, groups, both);
    EnteringGroup(GroupRef("g_child"), library, groups, {"g_parent"}, groups[1]);
    FlattenSingle(RegexRef("rx2"), library, groups, both);
    UnfoldFlattenSteps([GroupRef("g_child"), RegexRef("rx2")], library, groups, {"g_parent"});
    assert [GroupRef("g_child"), RegexRef("rx2")][1..] == [RegexRef("rx2")];
  }

  /**
   * The closure state of resolveSteps: the `flattenedSteps` accumulator and the
   * shared `visited` set, with the library and groups it reads.
   */
  class StepResolver {
    const regexLibrary: seq<RegexDef>
    const groups: seq<Group>
    var flattened: seq<RenameStep>
    var visited: set<string>

    constructor (regexLibrary: seq<RegexDef>, groups: seq<Group>)
      ensures this.regexLibrary == regexLibrary && this.groups == groups
      ensures flattened == [] && visited == {}
    {
      this.regexLibrary := regexLibrary;
      this.groups := groups;
      flattened := [];
      visited := {};
    }

    /** Appends the flattening of `currentSteps` and adds every group it enters to `visited`. */
    method ResolveSteps(currentSteps: seq<Step>)
      modifies this
      ensures flattened == old(flattened) + FlattenSteps(currentSteps, regexLibrary, groups, old(visited)).out
      ensures visited == FlattenSteps(currentSteps, regexLibrary, groups, old(visited)).visited
      decreases |GroupIds(groups) - visited|, 1
    {
      ghost var goal := FlattenSteps(currentSteps, regexLibrary, groups, visited);
      assert currentSteps[0..] == currentSteps;
      ghost var left := goal;
      var i := 0;
      while i < |currentSteps|
        invariant 0 <= i <= |currentSteps|
        invariant old(visited) <= visited
        invariant left == FlattenSteps(currentSteps[i..], regexLibrary, groups, visited)
        invariant flattened + left.out == old(flattened) + goal.out
        invariant left.visited == goal.visited
      {
        ghost var acc, before := flattened, visited;
        ghost var one := FlattenOne(currentSteps[i], regexLibrary, groups, before);
        ghost var rest := FlattenSteps(currentSteps[i + 1..], regexLibrary, groups, one.visited);
        FlattenStepsAt(currentSteps, i, regexLibrary, groups, before);
        assert left.out == one.out + rest.out && left.visited == rest.visited;
        DiffShrinks(GroupIds(groups), old(visited), before);
        ResolveStep(currentSteps[i]);
        assert flattened == acc + one.out && visited == one.visited;
        assert acc + (one.out + rest.out) == flattened + rest.out;
        left := rest;
        i := i + 1;
      }
      assert currentSteps[i..] == [];
    }

    /**
     * The loop body of resolveSteps for one step: skip it when disabled, else
     * push a normalize step, push the named regex rule, or enter the named
     * group once.
     */
    method ResolveStep(step: Step)
      modifies this
      ensures flattened == old(flattened) + FlattenOne(step, regexLibrary, groups, old(visited)).out
      ensures visited == FlattenOne(step, regexLibrary, groups, old(visited)).visited
      decreases |GroupIds(groups) - visited|, 0
    {
      if Disabled(step) {
        return;
      }
      if WantsNormalize(step) {
        flattened := flattened + [Normalize];
      } else if Truthy(step.regexId) {
        var rx := FindRegex(regexLibrary, step.regexId.value);
        if rx.Some? {
          flattened := flattened + [Regex(rx.value.pattern, rx.value.replacement)];
        }
      } else if Truthy(step.groupRefId) {
        var id := step.groupRefId.value;
        if id in visited {
          return;
        }
        var group := FindGroup(groups, id);
        if group.Some? {
          assert group.value in groups;
          DiffShrinksStrictly(GroupIds(groups), visited, id);
          EnteringGroup(step, regexLibrary, groups, visited, group.value);
          visited := visited + {id};
          ResolveSteps(group.value.steps);
        }
      }
    }
  }
}
