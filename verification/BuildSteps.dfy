/** The registry of build steps, kept in the order of their categories. */
module BuildSteps {
  import opened Seqs

  datatype Category =
    Auth | PreBuild | Build | PostBuild | Quality | Apply | PrePublish | Publish | Unknown(name: string)

  /** The order the registry keeps categories in. */
  const CATEGORY_ORDER: seq<Category> := [Auth, PreBuild, Build, PostBuild, Quality, Apply, PrePublish, Publish]

  /** A step: its name, whether it says it is asynchronous, whether it matches the build at hand,
      and what running it gives. */
  datatype Step = Step(name: string, isAsync: bool, matches: bool, id: string, error: Option<string>)

  datatype Context = Context(build: Step, category: Category, isAsync: bool)

  function Rank(c: Category): nat {
    match c
    case Auth => 0
    case PreBuild => 1
    case Build => 2
    case PostBuild => 3
    case Quality => 4
    case Apply => 5
    case PrePublish => 6
    case Publish => 7
    case Unknown(_) => 8
  }

  lemma RankIsPosition(i: nat)
    requires i < |CATEGORY_ORDER|
    ensures Rank(CATEGORY_ORDER[i]) == i
  {
    assert i == 0 || i == 1 || i == 2 || i == 3 || i == 4 || i == 5 || i == 6 || i == 7;
  }

  /** Steps stand in category order. */
  predicate InCategoryOrder(steps: seq<Context>) {
    forall i, j :: 0 <= i < j < |steps| ==> Rank(steps[i].category) <= Rank(steps[j].category)
  }

  function OfCategory(steps: seq<Context>, c: Category): seq<Context> {
    if steps == [] then [] else
      OfCategory(steps[..|steps| - 1], c) + if steps[|steps| - 1].category == c then [steps[|steps| - 1]] else []
  }

  lemma {:induction false} OfCategoryConcat(a: seq<Context>, b: seq<Context>, c: Category)
    ensures OfCategory(a + b, c) == OfCategory(a, c) + OfCategory(b, c)
  {
    if b == [] {
      NilRight(a);
      NilRight(OfCategory(a, c));
    } else {
      assert (a + b)[..|a + b| - 1] == a + b[..|b| - 1];
      OfCategoryConcat(a, b[..|b| - 1], c);
    }
  }

  lemma {:induction false} OfCategoryNone(steps: seq<Context>, c: Category)
    requires forall i :: 0 <= i < |steps| ==> steps[i].category != c
    ensures OfCategory(steps, c) == []
  {
    if steps != [] {
      OfCategoryNone(steps[..|steps| - 1], c);
    }
  }

  /** Splitting the steps at the target category. */
  ghost predicate Boundary(steps: seq<Context>, pos: nat, c: Category) {
    && pos <= |steps|
    && (forall i :: 0 <= i < pos ==> Rank(steps[i].category) <= Rank(c))
    && (forall i :: pos <= i < |steps| ==> Rank(steps[i].category) > Rank(c))
  }

  class BuildSteps {
    var steps: seq<Context>

    constructor ()
      ensures steps == []
    {
      steps := [];
    }

    /** The position of the first step of a category, or -1. */
    method FindFirstStepInCategory(c: Category) returns (pos: int)
      ensures pos == -1 ==> forall i :: 0 <= i < |steps| ==> steps[i].category != c
      ensures pos != -1 ==> 0 <= pos && FirstOf(steps, pos, c)
    {
      for i := 0 to |steps|
        invariant forall k :: 0 <= k < i ==> steps[k].category != c
      {
        if steps[i].category == c {
          return i;
        }
      }
      return -1;
    }

    /** Where a step of the category at `target` goes: before the first step of the nearest later
        category that has any, or at the end. */
    method InsertPosition(target: nat) returns (pos: nat)
      requires target < |CATEGORY_ORDER|
      ensures Behind(steps, pos, target)
      ensures InCategoryOrder(steps) && AllKnown(steps) ==> Boundary(steps, pos, CATEGORY_ORDER[target])
    {
      var i := target + 1;
      while i < |CATEGORY_ORDER|
        invariant target < i <= |CATEGORY_ORDER|
        invariant forall k, j :: target < k < i && 0 <= j < |steps| ==> steps[j].category != CATEGORY_ORDER[k]
      {
        var found := FindFirstStepInCategory(CATEGORY_ORDER[i]);
        if found != -1 {
          assert InsertionPoint(steps, found, target, i);
          PointIsBehind(steps, found, target, i);
          if InCategoryOrder(steps) && AllKnown(steps) {
            FoundBoundary(steps, found, target, i);
          }
          return found;
        }
        i := i + 1;
      }
      assert InsertionPoint(steps, |steps|, target, i);
      PointIsBehind(steps, |steps|, target, i);
      if InCategoryOrder(steps) && AllKnown(steps) {
        FoundBoundary(steps, |steps|, target, i);
      }
      return |steps|;
    }

    method CategoryIndex(c: Category) returns (index: int)
      ensures index == if c.Unknown? then -1 else Rank(c)
    {
      for i := 0 to |CATEGORY_ORDER|
        invariant forall k :: 0 <= k < i ==> CATEGORY_ORDER[k] != c
      {
        RankIsPosition(i);
        if CATEGORY_ORDER[i] == c {
          return i;
        }
      }
      KnownIsListed(c);
      return -1;
    }

    /** In an ordered registry the new step goes to the end of its own category: the order is kept,
        the category's steps gain the new one at their end, and nothing else changes. */
    method InsertAtCategoryEnd(c: Category, step: Step, isAsync: bool) returns (ok: bool)
      modifies this
      ensures ok == !c.Unknown?
      ensures !ok ==> steps == old(steps)
      ensures ok ==> exists pos: nat ::
                       && Behind(old(steps), pos, Rank(c))
                       && steps == old(steps)[..pos] + [Context(step, c, isAsync)] + old(steps)[pos..]
      ensures ok && InCategoryOrder(old(steps)) && AllKnown(old(steps)) ==>
                && InCategoryOrder(steps)
                && OfCategory(steps, c) == OfCategory(old(steps), c) + [Context(step, c, isAsync)]
                && forall d :: d != c ==> OfCategory(steps, d) == OfCategory(old(steps), d)
    {
      var targetIndex := CategoryIndex(c);
      if targetIndex == -1 {
        return false;
      }
      RankIsPosition(targetIndex);
      ListedAtRank(c);
      var insertPos := InsertPosition(targetIndex);
      ghost var was := steps;
      steps := steps[..insertPos] + ([Context(step, c, isAsync)] + steps[insertPos..]);
      assert steps == was[..insertPos] + [Context(step, c, isAsync)] + was[insertPos..];
      if InCategoryOrder(was) && AllKnown(was) {
        InsertKeepsOrder(was, insertPos, Context(step, c, isAsync));
      }
      return true;
    }

    method AddToCategory(c: Category, step: Step) returns (ok: bool)
      modifies this
      ensures ok == !c.Unknown?
      ensures !ok ==> steps == old(steps)
      ensures ok ==> exists pos: nat ::
                       && Behind(old(steps), pos, Rank(c))
                       && steps == old(steps)[..pos] + [Context(step, c, false)] + old(steps)[pos..]
      ensures ok && InCategoryOrder(old(steps)) && AllKnown(old(steps)) ==>
                && InCategoryOrder(steps)
                && OfCategory(steps, c) == OfCategory(old(steps), c) + [Context(step, c, false)]
                && forall d :: d != c ==> OfCategory(steps, d) == OfCategory(old(steps), d)
    {
      ok := InsertAtCategoryEnd(c, step, false);
    }

    /** Appending without a category puts the step into Build, at the very end. */
    method Add(step: Step)
      modifies this
      ensures steps == old(steps) + [Context(step, Build, false)]
    {
      steps := steps + [Context(step, Build, false)];
    }

    /** Inserting next to a named step, in that step's category. */
    method InsertRelativeToStep(stepName: string, step: Step, isAsync: bool, before: bool) returns (ok: bool)
      modifies this
      ensures ok <==> exists i :: 0 <= i < |old(steps)| && old(steps)[i].build.name == stepName
      ensures !ok ==> steps == old(steps)
      ensures ok ==> exists i :: 0 <= i < |old(steps)| && old(steps)[i].build.name == stepName &&
                       (forall k :: 0 <= k < i ==> old(steps)[k].build.name != stepName) &&
                       var pos := if before then i else i + 1;
                       steps == old(steps)[..pos] + [Context(step, old(steps)[i].category, isAsync)] + old(steps)[pos..]
      ensures InCategoryOrder(old(steps)) ==> InCategoryOrder(steps)
    {
      for i := 0 to |steps|
        invariant steps == old(steps)
        invariant forall k :: 0 <= k < i ==> steps[k].build.name != stepName
      {
        if steps[i].build.name == stepName {
          var newStep := Context(step, steps[i].category, isAsync);
          var insertPos := if before then i else i + 1;
          if InCategoryOrder(steps) {
            BesideKeepsOrder(steps, i, insertPos, newStep);
          }
          steps := steps[..insertPos] + ([newStep] + steps[insertPos..]);
          assert steps == old(steps)[..insertPos] + [newStep] + old(steps)[insertPos..];
          return true;
        }
      }
      return false;
    }

    /** The replacement keeps the category of the step it replaces. */
    method Replace(stepName: string, step: Step) returns (ok: bool)
      modifies this
      ensures ok <==> exists i :: 0 <= i < |old(steps)| && old(steps)[i].build.name == stepName
      ensures !ok ==> steps == old(steps)
      ensures ok ==> exists i :: 0 <= i < |old(steps)| && old(steps)[i].build.name == stepName &&
                       (forall k :: 0 <= k < i ==> old(steps)[k].build.name != stepName) &&
                       steps == old(steps)[i := Context(step, old(steps)[i].category, step.isAsync)]
      ensures InCategoryOrder(old(steps)) ==> InCategoryOrder(steps)
    {
      for i := 0 to |steps|
        invariant steps == old(steps)
        invariant forall k :: 0 <= k < i ==> steps[k].build.name != stepName
      {
        if steps[i].build.name == stepName {
          steps := steps[i := Context(step, steps[i].category, step.isAsync)];
          return true;
        }
      }
      return false;
    }
  }

  predicate AllKnown(steps: seq<Context>) {
    forall i :: 0 <= i < |steps| ==> !steps[i].category.Unknown?
  }

  lemma KnownIsListed(c: Category)
    requires forall k :: 0 <= k < |CATEGORY_ORDER| ==> CATEGORY_ORDER[k] != c
    ensures c.Unknown?
  {
    assert CATEGORY_ORDER[0] == Auth && CATEGORY_ORDER[1] == PreBuild && CATEGORY_ORDER[2] == Build
        && CATEGORY_ORDER[3] == PostBuild && CATEGORY_ORDER[4] == Quality && CATEGORY_ORDER[5] == Apply
        && CATEGORY_ORDER[6] == PrePublish && CATEGORY_ORDER[7] == Publish;
  }

  lemma ListedAtRank(c: Category)
    requires !c.Unknown?
    ensures Rank(c) < |CATEGORY_ORDER| && CATEGORY_ORDER[Rank(c)] == c
  {
  }

  /** `pos` is the first step of `next`, the nearest later category that has steps, or the end when
      none has. */
  ghost predicate InsertionPoint(steps: seq<Context>, pos: nat, target: nat, next: nat) {
    && target < next <= |CATEGORY_ORDER|
    && pos <= |steps|
    && (forall k, j :: target < k < next && 0 <= j < |steps| ==> steps[j].category != CATEGORY_ORDER[k])
    && if next == |CATEGORY_ORDER| then pos == |steps| else FirstOf(steps, pos, CATEGORY_ORDER[next])
  }

  ghost predicate FirstOf(steps: seq<Context>, pos: nat, c: Category) {
    pos < |steps| && steps[pos].category == c && forall i :: 0 <= i < pos ==> steps[i].category != c
  }

  /** `pos` is the end when no step is of a category ranked after `target`; otherwise it is the first step
      of its category, which is ranked after `target`, and no step is of a category ranked between. */
  ghost predicate Behind(steps: seq<Context>, pos: nat, target: nat) {
    if pos == |steps| then
      forall j :: 0 <= j < |steps| && !steps[j].category.Unknown? ==> Rank(steps[j].category) <= target
    else
      && pos < |steps| && !steps[pos].category.Unknown? && target < Rank(steps[pos].category)
      && (forall j :: 0 <= j < |steps| ==> !(target < Rank(steps[j].category) < Rank(steps[pos].category)))
      && forall j :: 0 <= j < pos ==> steps[j].category != steps[pos].category
  }

  lemma PointIsBehind(steps: seq<Context>, pos: nat, target: nat, next: nat)
    requires InsertionPoint(steps, pos, target, next)
    ensures Behind(steps, pos, target)
  {
    if next < |CATEGORY_ORDER| {
      RankIsPosition(next);
    }
    forall j | 0 <= j < |steps| && !steps[j].category.Unknown?
      ensures !(target < Rank(steps[j].category) < next)
    {
      ListedAtRank(steps[j].category);
    }
  }

  /** In an ordered registry the position found is the end of the target category. */
  lemma FoundBoundary(steps: seq<Context>, pos: nat, target: nat, next: nat)
    requires InCategoryOrder(steps) && AllKnown(steps) && InsertionPoint(steps, pos, target, next)
    ensures Boundary(steps, pos, CATEGORY_ORDER[target])
  {
    RankIsPosition(target);
    if next < |CATEGORY_ORDER| {
      RankIsPosition(next);
    }
    forall i | 0 <= i < |steps|
      ensures i < pos ==> Rank(steps[i].category) <= target
      ensures i >= pos ==> Rank(steps[i].category) > target
    {
      ListedAtRank(steps[i].category);
      if i < pos < |steps| {
        assert Rank(steps[i].category) <= Rank(steps[pos].category);
      } else if pos < i {
        assert Rank(steps[pos].category) <= Rank(steps[i].category);
      }
    }
  }

  lemma BoundaryKeepsOrder(steps: seq<Context>, pos: nat, step: Context)
    requires InCategoryOrder(steps) && Boundary(steps, pos, step.category)
    ensures InCategoryOrder(steps[..pos] + [step] + steps[pos..])
  {
  }

  lemma InsertedCategories(a: seq<Context>, step: Context, b: seq<Context>, d: Category)
    ensures OfCategory(a + [step] + b, d) ==
            OfCategory(a, d) + (if d == step.category then [step] else []) + OfCategory(b, d)
    ensures OfCategory(a + b, d) == OfCategory(a, d) + OfCategory(b, d)
  {
    OfCategoryConcat(a + [step], b, d);
    OfCategoryConcat(a, [step], d);
    OfCategoryConcat(a, b, d);
    assert [step][..0] == [];
  }

  lemma BesideKeepsOrder(steps: seq<Context>, i: nat, pos: nat, step: Context)
    requires InCategoryOrder(steps) && i < |steps| && (pos == i || pos == i + 1)
    requires step.category == steps[i].category
    ensures InCategoryOrder(steps[..pos] + [step] + steps[pos..])
  {
  }

  /** Inserting at the boundary is a stable insertion. */
  lemma InsertKeepsOrder(steps: seq<Context>, pos: nat, step: Context)
    requires InCategoryOrder(steps) && AllKnown(steps) && !step.category.Unknown? && Boundary(steps, pos, step.category)
    ensures var steps' := steps[..pos] + [step] + steps[pos..];
            && InCategoryOrder(steps')
            && OfCategory(steps', step.category) == OfCategory(steps, step.category) + [step]
            && forall d :: d != step.category ==> OfCategory(steps', d) == OfCategory(steps, d)
  {
    var a, b, c := steps[..pos], steps[pos..], step.category;
    assert steps == a + b;
    BoundaryKeepsOrder(steps, pos, step);
    OfCategoryNone(b, c);
    InsertedCategories(a, step, b, c);
    NilRight(OfCategory(a, c) + [step]);
    NilRight(OfCategory(a, c));
    forall d | d != c
      ensures OfCategory(a + [step] + b, d) == OfCategory(steps, d)
    {
      InsertedCategories(a, step, b, d);
      NilRight(OfCategory(a, d));
    }
  }

  /** A plain Add keeps the order exactly when no later category has a step yet. */
  lemma AddKeepsOrderIff(steps: seq<Context>, step: Step)
    requires InCategoryOrder(steps)
    ensures InCategoryOrder(steps + [Context(step, Build, false)]) <==>
            forall i :: 0 <= i < |steps| ==> Rank(steps[i].category) <= Rank(Build)
  {
    var all := steps + [Context(step, Build, false)];
    if InCategoryOrder(all) {
      forall i | 0 <= i < |steps|
        ensures Rank(steps[i].category) <= Rank(Build)
      {
        assert Rank(all[i].category) <= Rank(all[|steps|].category);
      }
    }
  }

  /** For example, adding to a registry that holds one step to publish breaks the order. */
  lemma AddAfterPublishBreaksOrder(step: Step, publish: Step)
    ensures InCategoryOrder([Context(publish, Publish, false)])
    ensures !InCategoryOrder([Context(publish, Publish, false)] + [Context(step, Build, false)])
  {
    var steps := [Context(publish, Publish, false)];
    assert steps[0].category == Publish;
    AddKeepsOrderIff(steps, step);
  }

  // ---------- the order of the categories ----------

  function Groups(steps: seq<Context>, n: nat): seq<Context>
    requires n <= |CATEGORY_ORDER|
  {
    if n == 0 then [] else Groups(steps, n - 1) + OfCategory(steps, CATEGORY_ORDER[n - 1])
  }

  lemma {:induction false} OfCategoryHas(steps: seq<Context>, c: Category)
    ensures forall x :: x in OfCategory(steps, c) <==> x in steps && x.category == c
  {
    if steps != [] {
      OfCategoryHas(steps[..|steps| - 1], c);
      assert steps == steps[..|steps| - 1] + [steps[|steps| - 1]];
    }
  }

  lemma {:induction false} GroupsAreOrdered(steps: seq<Context>, n: nat)
    requires n <= |CATEGORY_ORDER|
    ensures InCategoryOrder(Groups(steps, n))
    ensures forall i :: 0 <= i < |Groups(steps, n)| ==> Rank(Groups(steps, n)[i].category) < n
  {
    if n > 0 {
      var before, group := Groups(steps, n - 1), OfCategory(steps, CATEGORY_ORDER[n - 1]);
      GroupsAreOrdered(steps, n - 1);
      OfCategoryHas(steps, CATEGORY_ORDER[n - 1]);
      RankIsPosition(n - 1);
      forall i | 0 <= i < |group|
        ensures Rank(group[i].category) == n - 1
      {
        assert group[i] in group;
      }
    }
  }

  lemma GroupSnoc(steps: seq<Context>, last: Context, i: nat)
    requires i < |CATEGORY_ORDER|
    ensures OfCategory(steps + [last], CATEGORY_ORDER[i]) ==
            OfCategory(steps, CATEGORY_ORDER[i]) + if Rank(last.category) == i then [last] else []
  {
    assert (steps + [last])[..|steps|] == steps;
    KnownByRank(last.category, i);
  }

  lemma LaterGroupsEmpty(steps: seq<Context>, last: Context, c: Category)
    requires forall i :: 0 <= i < |steps| ==> Rank(steps[i].category) <= Rank(last.category)
    requires Rank(last.category) < Rank(c)
    ensures OfCategory(steps, c) == []
  {
    OfCategoryNone(steps, c);
  }

  /** Adding a last step to its group. */
  lemma {:induction false} GroupsSnoc(steps: seq<Context>, last: Context, n: nat)
    requires n <= |CATEGORY_ORDER| && forall i :: 0 <= i < |steps| ==> Rank(steps[i].category) <= Rank(last.category)
    ensures Groups(steps + [last], n) == Groups(steps, n) + if Rank(last.category) < n then [last] else []
  {
    if n > 0 {
      var before, group := Groups(steps, n - 1), OfCategory(steps, CATEGORY_ORDER[n - 1]);
      GroupsSnoc(steps, last, n - 1);
      GroupSnoc(steps, last, n - 1);
      if Rank(last.category) < n - 1 {
        RankIsPosition(n - 1);
        LaterGroupsEmpty(steps, last, CATEGORY_ORDER[n - 1]);
        NilRight(before);
        NilRight(before + [last]);
      } else {
        NilRight(before);
        NilRight(group);
        NilRight(before + group);
        Assoc(before, group, [last]);
      }
    }
  }

  lemma KnownByRank(c: Category, i: nat)
    requires i < |CATEGORY_ORDER|
    ensures c == CATEGORY_ORDER[i] <==> Rank(c) == i
  {
    RankIsPosition(i);
  }

  lemma {:induction false} OrderedAreGroups(steps: seq<Context>)
    requires AllKnown(steps) && InCategoryOrder(steps)
    ensures steps == Groups(steps, |CATEGORY_ORDER|)
  {
    if steps == [] {
      NoGroups(|CATEGORY_ORDER|);
    } else {
      var n := |steps| - 1;
      OrderedAreGroups(steps[..n]);
      GroupsSnoc(steps[..n], steps[n], |CATEGORY_ORDER|);
      assert steps == steps[..n] + [steps[n]];
      ListedAtRank(steps[n].category);
    }
  }

  lemma {:induction false} NoGroups(n: nat)
    requires n <= |CATEGORY_ORDER|
    ensures Groups([], n) == []
  {
    if n > 0 {
      NoGroups(n - 1);
    }
  }

  /** Steps of known categories stand in order exactly when they are those for authentication, then those
      before the build, of the build, after it, for quality, for applying, before publishing and for
      publishing, each group in its own order. */
  lemma OrderedIffGrouped(steps: seq<Context>)
    requires AllKnown(steps)
    ensures InCategoryOrder(steps) <==>
            steps == OfCategory(steps, Auth) + OfCategory(steps, PreBuild) + OfCategory(steps, Build)
                     + OfCategory(steps, PostBuild) + OfCategory(steps, Quality) + OfCategory(steps, Apply)
                     + OfCategory(steps, PrePublish) + OfCategory(steps, Publish)
  {
    GroupsAreOrdered(steps, 8);
    if InCategoryOrder(steps) {
      OrderedAreGroups(steps);
    }
    EightGroups(steps);
  }

  lemma EightGroups(steps: seq<Context>)
    ensures Groups(steps, 8) ==
            OfCategory(steps, Auth) + OfCategory(steps, PreBuild) + OfCategory(steps, Build)
            + OfCategory(steps, PostBuild) + OfCategory(steps, Quality) + OfCategory(steps, Apply)
            + OfCategory(steps, PrePublish) + OfCategory(steps, Publish)
  {
    assert Groups(steps, 1) == [] + OfCategory(steps, Auth) == OfCategory(steps, Auth);
    assert Groups(steps, 2) == Groups(steps, 1) + OfCategory(steps, PreBuild);
    assert Groups(steps, 3) == Groups(steps, 2) + OfCategory(steps, Build);
    assert Groups(steps, 4) == Groups(steps, 3) + OfCategory(steps, PostBuild);
    assert Groups(steps, 5) == Groups(steps, 4) + OfCategory(steps, Quality);
    assert Groups(steps, 6) == Groups(steps, 5) + OfCategory(steps, Apply);
    assert Groups(steps, 7) == Groups(steps, 6) + OfCategory(steps, PrePublish);
  }
}
