/** The environment checks: choosing which run, running them one by one or all at once, counting the
    results and deciding the exit. */
module Doctor {
  import opened Seqs
  import opened Sorting

  datatype Status = Pass | Fail | Warning | Skipped | Other(text: string)

  datatype Severity = Critical | Advisory(text: string)

  datatype CheckResult =
    CheckResult(category: string, name: string, status: Status, severity: Severity, message: string)

  datatype Check = Check(category: string, shouldRun: bool)

  /** A check and what running it reports. */
  datatype CheckRunner = CheckRunner(check: Check, result: CheckResult)

  // ---------- choosing ----------

  predicate Applies(r: CheckRunner, categories: seq<string>) {
    (categories == [] || r.check.category in categories) && r.check.shouldRun
  }

  function Filtered(checks: seq<CheckRunner>, categories: seq<string>): seq<CheckRunner> {
    if checks == [] then [] else
      Filtered(checks[..|checks| - 1], categories) +
      if Applies(checks[|checks| - 1], categories) then [checks[|checks| - 1]] else []
  }

  method FilterChecks(checks: seq<CheckRunner>, categories: seq<string>) returns (filtered: seq<CheckRunner>)
    ensures filtered == Filtered(checks, categories)
  {
    filtered := [];
    for i := 0 to |checks|
      invariant filtered == Filtered(checks[..i], categories)
    {
      assert checks[..i + 1][..i] == checks[..i];
      var check := checks[i].check;
      if |categories| > 0 {
        var found := false;
        for k := 0 to |categories|
          invariant !found && check.category !in categories[..k]
        {
          if check.category == categories[k] {
            found := true;
            break;
          }
        }
        if !found {
          assert categories[..|categories|] == categories;
          continue;
        }
      }
      if !check.shouldRun {
        continue;
      }
      filtered := filtered + [checks[i]];
    }
    assert checks[..|checks|] == checks;
  }

  // ---------- running ----------

  function ResultOf(r: CheckRunner): CheckResult { r.result }

  /** What running every check gives, in the order of the checks. */
  function Results(checks: seq<CheckRunner>): seq<CheckResult> {
    Map(ResultOf, checks)
  }

  method RunSequential(checks: seq<CheckRunner>) returns (results: seq<CheckResult>)
    ensures results == Results(checks)
  {
    results := [];
    for i := 0 to |checks|
      invariant results == Results(checks[..i])
    {
      assert checks[..i + 1] == checks[..i] + [checks[i]];
      MapSnoc(ResultOf, checks[..i], checks[i]);
      results := results + [checks[i].result];
    }
    assert checks[..|checks|] == checks;
  }

  predicate ByCategoryAndName(a: CheckResult, b: CheckResult) {
    if a.category != b.category then StringLess(a.category, b.category) else StringLess(a.name, b.name)
  }

  lemma ByCategoryAndNameIsOrder()
    ensures StrictWeakOrder(ByCategoryAndName)
  {
    forall x: CheckResult
      ensures !ByCategoryAndName(x, x)
    {
      StringIrreflexive(x.name);
    }
    forall x: CheckResult, y: CheckResult, z: CheckResult | ByCategoryAndName(x, y)
      ensures ByCategoryAndName(y, z) ==> ByCategoryAndName(x, z)
      ensures ByCategoryAndName(x, z) || ByCategoryAndName(z, y)
    {
      OrderedBetween(x, y, z);
      OrderedTransitively(x, y, z);
    }
  }

  lemma OrderedTransitively(x: CheckResult, y: CheckResult, z: CheckResult)
    requires ByCategoryAndName(x, y)
    ensures ByCategoryAndName(y, z) ==> ByCategoryAndName(x, z)
  {
    if ByCategoryAndName(y, z) {
      if x.category != y.category && y.category != z.category {
        StringTransitive(x.category, y.category, z.category);
        StringIrreflexive(x.category);
      } else if x.category == y.category == z.category {
        StringTransitive(x.name, y.name, z.name);
      }
    }
  }

  lemma OrderedBetween(x: CheckResult, y: CheckResult, z: CheckResult)
    requires ByCategoryAndName(x, y)
    ensures ByCategoryAndName(x, z) || ByCategoryAndName(z, y)
  {
    if x.category != y.category {
      StringBetween(x.category, y.category, z.category);
    } else if z.category == x.category {
      StringBetween(x.name, y.name, z.name);
    } else {
      StringTotal(x.category, z.category);
    }
  }

  lemma TiedIffSameKey(x: CheckResult, y: CheckResult)
    ensures Tied(x, y, ByCategoryAndName) <==> x.category == y.category && x.name == y.name
  {
    if x.category != y.category {
      StringTotal(x.category, y.category);
    } else if x.name != y.name {
      StringTotal(x.name, y.name);
    } else {
      StringIrreflexive(x.name);
    }
  }

  /** The goroutines append their results in whatever order they finish; then the results are sorted. */
  method RunParallel(checks: seq<CheckRunner>) returns (results: seq<CheckResult>)
    ensures IsSorting(Results(checks), results, ByCategoryAndName)
  {
    results := [];
    var running := checks;
    while running != []
      invariant multiset(results) + multiset(Results(running)) == multiset(Results(checks))
      decreases |running|
    {
      var next: int := *;
      if next < 0 || next >= |running| {
        next := 0;
      }
      TakingOut(running, next);
      results := results + [running[next].result];
      running := Without(running, next);
    }
    ByCategoryAndNameIsOrder();
    results := SortSlice(results, ByCategoryAndName);
  }

  lemma {:induction false} ResultsConcat(a: seq<CheckRunner>, b: seq<CheckRunner>)
    ensures Results(a + b) == Results(a) + Results(b)
  {
    if b == [] {
      NilRight(a);
    } else {
      assert (a + b)[..|a + b| - 1] == a + b[..|b| - 1];
      ResultsConcat(a, b[..|b| - 1]);
    }
  }

  lemma TakingOut(running: seq<CheckRunner>, i: nat)
    requires i < |running|
    ensures multiset(Results(running)) == multiset{running[i].result} + multiset(Results(Without(running, i)))
  {
    var a, b := running[..i], running[i + 1..];
    assert running == a + [running[i]] + b;
    ResultsConcat(a + [running[i]], b);
    MapSnoc(ResultOf, a, running[i]);
    ResultsConcat(a, b);
  }

  method RunChecks(checks: seq<CheckRunner>, categories: seq<string>, parallel: bool)
    returns (results: seq<CheckResult>)
    ensures IsOutcome(Filtered(checks, categories), parallel, results)
  {
    var applicable := FilterChecks(checks, categories);
    if parallel {
      results := RunParallel(applicable);
    } else {
      results := RunSequential(applicable);
    }
  }

  /** What a run may report. */
  predicate IsOutcome(checks: seq<CheckRunner>, parallel: bool, results: seq<CheckResult>) {
    if parallel then IsSorting(Results(checks), results, ByCategoryAndName) else results == Results(checks)
  }

  /** One by one there is a single outcome: each check's result, in the order of the checks. */
  lemma SequentialOutcome(checks: seq<CheckRunner>, results: seq<CheckResult>)
    ensures IsOutcome(checks, false, results) <==>
            |results| == |checks| && forall i :: 0 <= i < |checks| ==> results[i] == checks[i].result
  {
    assert forall i :: 0 <= i < |checks| ==> Results(checks)[i] == ResultOf(checks[i]);
  }

  // ---------- counting ----------

  datatype Summary = Summary(total: nat, passed: nat, failed: nat, warnings: nat, skipped: nat, critical: nat)

  predicate Passed(r: CheckResult) { r.status == Pass }

  predicate Failed(r: CheckResult) { r.status == Fail }

  predicate Warned(r: CheckResult) { r.status == Warning }

  predicate WasSkipped(r: CheckResult) { r.status == Skipped }

  predicate FailedCritically(r: CheckResult) { r.status == Fail && r.severity == Critical }

  predicate UnknownStatus(r: CheckResult) { r.status.Other? }

  function SummaryOf(results: seq<CheckResult>): Summary {
    Summary(|results|, Count(results, Passed), Count(results, Failed), Count(results, Warned),
            Count(results, WasSkipped), Count(results, FailedCritically))
  }

  method CalculateSummary(results: seq<CheckResult>) returns (summary: Summary)
    ensures summary == SummaryOf(results)
  {
    summary := Summary(|results|, 0, 0, 0, 0, 0);
    for i := 0 to |results|
      invariant summary == SummaryOf(results[..i]).(total := |results|)
    {
      assert results[..i + 1][..i] == results[..i];
      var result := results[i];
      match result.status {
        case Pass => summary := summary.(passed := summary.passed + 1);
        case Fail =>
          summary := summary.(failed := summary.failed + 1);
          if result.severity == Critical {
            summary := summary.(critical := summary.critical + 1);
          }
        case Warning => summary := summary.(warnings := summary.warnings + 1);
        case Skipped => summary := summary.(skipped := summary.skipped + 1);
        case Other(_) =>
      }
    }
    assert results[..|results|] == results;
  }

  /** The command's exit: an error at the first critical failure. */
  method ExitCheck(results: seq<CheckResult>) returns (failed: bool)
    ensures failed <==> exists i :: 0 <= i < |results| && results[i].status == Fail && results[i].severity == Critical
  {
    for i := 0 to |results|
      invariant forall k :: 0 <= k < i ==> !FailedCritically(results[k])
    {
      if results[i].status == Fail && results[i].severity == Critical {
        assert FailedCritically(results[i]);
        return true;
      }
    }
    return false;
  }

  /** Every result is counted under one heading, so the counts miss the total by the results with a
      status outside the four: they add up exactly when there is none. */
  lemma {:induction false} CountsAddUp(results: seq<CheckResult>)
    ensures var s := SummaryOf(results);
            && s.total == s.passed + s.failed + s.warnings + s.skipped + Count(results, UnknownStatus)
            && s.critical <= s.failed
  {
    if results != [] {
      CountsAddUp(results[..|results| - 1]);
    }
  }

  lemma CountsAddUpIff(results: seq<CheckResult>)
    ensures var s := SummaryOf(results);
            s.total == s.passed + s.failed + s.warnings + s.skipped <==>
            forall i :: 0 <= i < |results| ==> results[i].status in {Pass, Fail, Warning, Skipped}
  {
    CountsAddUp(results);
    CountZero(results, UnknownStatus);
  }

  lemma {:induction false} CountIsSize(results: seq<CheckResult>, p: CheckResult -> bool, all: set<int>)
    requires forall i :: i in all <==> 0 <= i < |results| && p(results[i])
    ensures Count(results, p) == |all|
  {
    if results == [] {
      assert forall i :: i in all ==> 0 <= i < |results|;
      assert |all| > 0 ==> exists i :: i in all;
    } else {
      var n := |results| - 1;
      CountIsSize(results[..n], p, all - {n});
    }
  }

  /** The summary, spelled out: how many results there are, and how many of each status. */
  lemma SummarySpelledOut(results: seq<CheckResult>)
    ensures var s := SummaryOf(results);
            && s.total == |results|
            && s.passed == |set i | 0 <= i < |results| && results[i].status == Pass|
            && s.failed == |set i | 0 <= i < |results| && results[i].status == Fail|
            && s.warnings == |set i | 0 <= i < |results| && results[i].status == Warning|
            && s.skipped == |set i | 0 <= i < |results| && results[i].status == Skipped|
            && s.critical ==
               |set i | 0 <= i < |results| && results[i].status == Fail && results[i].severity == Critical|
  {
    CountIsSize(results, Passed, set i | 0 <= i < |results| && results[i].status == Pass);
    CountIsSize(results, Failed, set i | 0 <= i < |results| && results[i].status == Fail);
    CountIsSize(results, Warned, set i | 0 <= i < |results| && results[i].status == Warning);
    CountIsSize(results, WasSkipped, set i | 0 <= i < |results| && results[i].status == Skipped);
    CountIsSize(results, FailedCritically,
                set i | 0 <= i < |results| && results[i].status == Fail && results[i].severity == Critical);
  }

  /** The summary shows a critical failure exactly when the command exits with an error. */
  lemma CriticalIffExitFails(results: seq<CheckResult>)
    ensures SummaryOf(results).critical > 0 <==>
            exists i :: 0 <= i < |results| && results[i].status == Fail && results[i].severity == Critical
  {
    CountZero(results, FailedCritically);
  }

  // ---------- parallel against sequential ----------

  /** Any parallel run reports the sequential results, those of each category together, categories and
      the names within one in lexicographic order, with the same summary and exit. */
  lemma ParallelAgreesWithSequential(checks: seq<CheckRunner>, results: seq<CheckResult>)
    requires IsOutcome(checks, true, results)
    ensures multiset(results) == multiset(Results(checks))
    ensures forall i, j :: 0 <= i < j < |results| ==>
              || StringLess(results[i].category, results[j].category)
              || (results[i].category == results[j].category && !StringLess(results[j].name, results[i].name))
    ensures SummaryOf(results) == SummaryOf(Results(checks))
  {
    var sequential := Results(checks);
    forall i, j | 0 <= i < j < |results|
      ensures || StringLess(results[i].category, results[j].category)
              || (results[i].category == results[j].category && !StringLess(results[j].name, results[i].name))
    {
      assert !ByCategoryAndName(results[j], results[i]);
      if results[i].category != results[j].category {
        StringTotal(results[i].category, results[j].category);
      }
    }
    assert |multiset(results)| == |multiset(sequential)|;
    CountPermuted(results, sequential, Passed);
    CountPermuted(results, sequential, Failed);
    CountPermuted(results, sequential, Warned);
    CountPermuted(results, sequential, WasSkipped);
    CountPermuted(results, sequential, FailedCritically);
  }

  predicate SameKey(x: CheckResult, y: CheckResult) { x.category == y.category && x.name == y.name }

  /** No two different results share their category and name. */
  predicate KeysTellApart(results: seq<CheckResult>) {
    forall i, j :: 0 <= i < |results| && 0 <= j < |results| && SameKey(results[i], results[j]) ==>
      results[i] == results[j]
  }

  /** A parallel run can report only one list, whatever the order of completion, exactly when no two
      different results share category and name. */
  lemma ParallelIsDeterministicIff(checks: seq<CheckRunner>)
    ensures OneSorting(Results(checks), ByCategoryAndName) <==> KeysTellApart(Results(checks))
  {
    var results := Results(checks);
    ByCategoryAndNameIsOrder();
    OneSortingIff(results, ByCategoryAndName);
    forall i, j | 0 <= i < |results| && 0 <= j < |results|
      ensures Tied(results[i], results[j], ByCategoryAndName) <==> SameKey(results[i], results[j])
    {
      TiedIffSameKey(results[i], results[j]);
    }
  }

  /** For example, two checks that report differently under one category and name: the parallel run can
      report them either way round. */
  lemma TwoReportsOfOneName(category: string, name: string)
    ensures var a := CheckResult(category, name, Pass, Critical, "");
            var b := CheckResult(category, name, Fail, Critical, "");
            var checks := [CheckRunner(Check(category, true), a), CheckRunner(Check(category, true), b)];
            IsOutcome(checks, true, [a, b]) && IsOutcome(checks, true, [b, a])
  {
    var a := CheckResult(category, name, Pass, Critical, "");
    var b := CheckResult(category, name, Fail, Critical, "");
    var checks := [CheckRunner(Check(category, true), a), CheckRunner(Check(category, true), b)];
    assert Results(checks) == [a, b];
    assert multiset([a, b]) == multiset([b, a]);
    TiedIffSameKey(a, b);
  }

  lemma {:induction false} FilteredAt(checks: seq<CheckRunner>, categories: seq<string>, p: CheckRunner -> bool)
    returns (at: seq<nat>)
    requires forall r :: p(r) <==> Applies(r, categories)
    ensures PickedAt(checks, p, Filtered(checks, categories), at)
  {
    at := [];
    if checks != [] {
      var n := |checks| - 1;
      at := FilteredAt(checks[..n], categories, p);
      PickNext(checks, p, Filtered(checks[..n], categories), at);
      at := if p(checks[n]) then at + [n] else at;
    }
  }

  /** The checks that run, by their positions in the registry: in order, exactly those of a wanted category,
      any when none is named, that apply. */
  lemma FilteredAreTheApplicable(checks: seq<CheckRunner>, categories: seq<string>) returns (at: seq<nat>)
    ensures |at| == |Filtered(checks, categories)|
    ensures forall k :: 0 <= k < |at| ==> at[k] < |checks| && Filtered(checks, categories)[k] == checks[at[k]]
    ensures forall k, l :: 0 <= k < l < |at| ==> at[k] < at[l]
    ensures forall i :: 0 <= i < |checks| ==>
              (i in at <==>
               (categories == [] || checks[i].check.category in categories) && checks[i].check.shouldRun)
  {
    at := FilteredAt(checks, categories, r => Applies(r, categories));
  }
}
