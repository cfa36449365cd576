/** What a run of the build steps can come to under all schedules: exactly the complete outcomes, and
    when there is only one order of IDs or only one error. */
module BuildOutcomes {
  import opened Seqs
  import opened BuildSteps
  import opened BuildRun

  // ---------- schedules ----------

  /** Either the loop goes on to the next selected step, or goroutine `k` does the next thing it does. */
  datatype Turn = Next | Go(k: nat)

  const START := Progress([], [], [], [])

  function TakeTurn(steps: seq<Step>, p: Progress, turn: Turn): Option<Progress> {
    match turn
    case Next =>
      if |p.launched| >= |steps| then None
      else
        var s := steps[|p.launched|];
        Some(if s.isAsync then Launch(p, s) else RunSync(p, s))
    case Go(k) => if Busy(p, k) then Some(Advance(p, k)) else None
  }

  function Play(steps: seq<Step>, turns: seq<Turn>): Option<Progress> {
    if turns == [] then Some(START) else
      match Play(steps, turns[..|turns| - 1])
      case None => None
      case Some(p) => TakeTurn(steps, p, turns[|turns| - 1])
  }

  lemma PlayOn(steps: seq<Step>, turns: seq<Turn>, turn: Turn)
    requires Play(steps, turns).Some?
    ensures Play(steps, turns + [turn]) == TakeTurn(steps, Play(steps, turns).value, turn)
  {
    assert (turns + [turn])[..|turns|] == turns;
  }

  /** Everything is launched and over. */
  predicate IsOver(steps: seq<Step>, p: Progress) {
    p.launched == steps && |p.phases| == |steps| && forall k :: 0 <= k < |steps| ==> p.phases[k] == Over
  }

  /** Some schedule ends with these IDs stored and these errors sent, in these orders. */
  ghost predicate IsOutcome(steps: seq<Step>, log: seq<nat>, errors: seq<nat>) {
    exists turns :: EndsWith(steps, turns, log, errors)
  }

  predicate EndsWith(steps: seq<Step>, turns: seq<Turn>, log: seq<nat>, errors: seq<nat>) {
    var p := Play(steps, turns);
    p.Some? && IsOver(steps, p.value) && p.value.log == log && p.value.errors == errors
  }

  // ---------- every schedule ends in a complete outcome ----------

  lemma TurnKeeps(steps: seq<Step>, p: Progress, turn: Turn)
    requires Inv(p) && p.launched <= steps && TakeTurn(steps, p, turn).Some?
    ensures Inv(TakeTurn(steps, p, turn).value) && TakeTurn(steps, p, turn).value.launched <= steps
  {
    match turn
    case Next =>
      var s := steps[|p.launched|];
      if s.isAsync {
        LaunchKeeps(p, s);
      } else {
        SyncKeeps(p, s);
      }
    case Go(k) =>
      AdvanceKeepsLog(p, k);
      AdvanceKeepsErrors(p, k);
  }

  lemma {:induction false} PlayKeeps(steps: seq<Step>, turns: seq<Turn>)
    requires Play(steps, turns).Some?
    ensures Inv(Play(steps, turns).value) && Play(steps, turns).value.launched <= steps
  {
    if turns != [] {
      PlayKeeps(steps, turns[..|turns| - 1]);
      TurnKeeps(steps, Play(steps, turns[..|turns| - 1]).value, turns[|turns| - 1]);
    }
  }

  lemma OverIsComplete(steps: seq<Step>, p: Progress)
    requires Inv(p) && IsOver(steps, p)
    ensures Complete(steps, p.log, p.errors)
  {
  }

  // ---------- every complete outcome is that of some schedule ----------

  /** The first `i` IDs of `log` are stored, and no error is sent yet. */
  ghost predicate Stage(steps: seq<Step>, log: seq<nat>, i: nat, p: Progress) {
    && i <= |log| && p.log == log[..i] && p.errors == []
    && p.launched <= steps && |p.phases| == |p.launched|
    && (forall k :: k in log[..i] ==> k < |p.launched|)
    && forall k :: 0 <= k < |p.launched| ==> p.phases[k] == StagePhase(steps[k], k in log[..i])
                                             && (!steps[k].isAsync ==> k in log[..i])
  }

  function StagePhase(s: Step, stored: bool): Phase {
    if !stored then Working else if s.isAsync then Stored else Over
  }

  lemma InPrefix(log: seq<nat>, i: nat, j: nat)
    requires i <= |log|
    ensures j < i ==> log[j] in log[..i]
  {
    assert j < i ==> log[..i][j] == log[j];
  }

  /** While the next ID to be stored is that of a later step, the step to be launched is asynchronous. */
  lemma NextIsAsync(steps: seq<Step>, log: seq<nat>, errors: seq<nat>, i: nat, p: Progress)
    requires Complete(steps, log, errors) && Stage(steps, log, i, p) && i < |log| && |p.launched| < log[i]
    ensures steps[|p.launched|].isAsync
  {
    var m := |p.launched|;
    assert m in log;
    var j :| 0 <= j < |log| && log[j] == m;
    assert log[..i] + log[i..] == log;
    InPrefix(log, i, j);
  }

  lemma LaunchStage(steps: seq<Step>, log: seq<nat>, i: nat, p: Progress)
    requires Stage(steps, log, i, p) && |p.launched| < |steps| && steps[|p.launched|].isAsync
    ensures TakeTurn(steps, p, Next).Some? && Stage(steps, log, i, TakeTurn(steps, p, Next).value)
  {
    var q := TakeTurn(steps, p, Next).value;
    var m := |p.launched|;
    assert m !in log[..i];
    assert q.launched == steps[..m + 1];
  }

  /** Launching everything before the step whose ID comes next. */
  lemma {:induction false} LaunchUpTo(steps: seq<Step>, log: seq<nat>, errors: seq<nat>, i: nat, turns: seq<Turn>)
    returns (more: seq<Turn>, p: Progress)
    requires Complete(steps, log, errors) && i < |log|
    requires Play(steps, turns).Some? && Stage(steps, log, i, Play(steps, turns).value)
    ensures Play(steps, more) == Some(p) && Stage(steps, log, i, p) && |p.launched| >= log[i]
    decreases log[i] - |Play(steps, turns).value.launched|
  {
    more, p := turns, Play(steps, turns).value;
    if |p.launched| < log[i] {
      NextIsAsync(steps, log, errors, i, p);
      LaunchStage(steps, log, i, p);
      PlayOn(steps, turns, Next);
      more, p := LaunchUpTo(steps, log, errors, i, turns + [Next]);
    }
  }

  lemma InNextPrefix(log: seq<nat>, i: nat, k: nat)
    requires i < |log|
    ensures k in log[..i + 1] <==> k in log[..i] || k == log[i]
  {
    assert log[..i + 1] == log[..i] + [log[i]];
  }

  lemma StoreLaunched(steps: seq<Step>, log: seq<nat>, i: nat, p: Progress)
    requires Stage(steps, log, i, p) && i < |log| && NoDuplicates(log) && log[i] < |p.launched|
    ensures TakeTurn(steps, p, Go(log[i])).Some? && Stage(steps, log, i + 1, TakeTurn(steps, p, Go(log[i])).value)
  {
    var m := log[i];
    assert m !in log[..i];
    assert log[..i + 1] == log[..i] + [m];
    forall k: nat
      ensures k in log[..i + 1] <==> k in log[..i] || k == m
    {
      InNextPrefix(log, i, k);
    }
  }

  lemma StoreSync(steps: seq<Step>, log: seq<nat>, i: nat, p: Progress)
    requires Stage(steps, log, i, p) && i < |log| && log[i] == |p.launched| < |steps| && !steps[log[i]].isAsync
    ensures TakeTurn(steps, p, Next).Some? && Stage(steps, log, i + 1, TakeTurn(steps, p, Next).value)
  {
    var m := log[i];
    assert log[..i + 1] == log[..i] + [m];
    forall k: nat
      ensures k in log[..i + 1] <==> k in log[..i] || k == m
    {
      InNextPrefix(log, i, k);
    }
  }

  /** A schedule that stores the IDs in the order of `log`. */
  lemma {:induction false} StoreInOrder(steps: seq<Step>, log: seq<nat>, errors: seq<nat>, i: nat)
    returns (turns: seq<Turn>, p: Progress)
    requires Complete(steps, log, errors) && i <= |log|
    ensures Play(steps, turns) == Some(p) && Stage(steps, log, i, p)
  {
    if i == 0 {
      return [], START;
    }
    var before, q := StoreInOrder(steps, log, errors, i - 1);
    turns, p := LaunchUpTo(steps, log, errors, i - 1, before);
    var m := log[i - 1];
    if m == |p.launched| && !steps[m].isAsync {
      StoreSync(steps, log, i - 1, p);
      PlayOn(steps, turns, Next);
      turns := turns + [Next];
      p := Play(steps, turns).value;
      return;
    }
    if m == |p.launched| {
      LaunchStage(steps, log, i - 1, p);
      PlayOn(steps, turns, Next);
      turns := turns + [Next];
      p := Play(steps, turns).value;
    }
    StoreLaunched(steps, log, i - 1, p);
    PlayOn(steps, turns, Go(m));
    turns := turns + [Go(m)];
    p := Play(steps, turns).value;
  }

  /** All IDs are stored in the order of `log`, and the first `e` errors are sent. */
  ghost predicate Reporting(steps: seq<Step>, log: seq<nat>, errors: seq<nat>, e: nat, p: Progress) {
    && e <= |errors| && p.log == log && p.errors == errors[..e]
    && p.launched == steps && |p.phases| == |steps|
    && forall k :: 0 <= k < |steps| ==> p.phases[k] == if steps[k].isAsync && k !in errors[..e] then Stored else Over
  }

  lemma AllStored(steps: seq<Step>, log: seq<nat>, errors: seq<nat>, p: Progress)
    requires Complete(steps, log, errors) && Stage(steps, log, |log|, p)
    ensures Reporting(steps, log, errors, 0, p)
  {
    assert log[..|log|] == log;
    assert |steps| > 0 ==> |steps| - 1 in log;
    assert p.launched == steps;
  }

  lemma SendNext(steps: seq<Step>, log: seq<nat>, errors: seq<nat>, e: nat, p: Progress)
    requires Complete(steps, log, errors) && Reporting(steps, log, errors, e, p) && e < |errors|
    ensures TakeTurn(steps, p, Go(errors[e])).Some?
    ensures Reporting(steps, log, errors, e + 1, TakeTurn(steps, p, Go(errors[e])).value)
  {
    var m := errors[e];
    assert m in errors;
    assert m !in errors[..e];
    assert errors[..e + 1] == errors[..e] + [m];
    forall k: nat
      ensures k in errors[..e + 1] <==> k in errors[..e] || k == m
    {
      InNextPrefix(errors, e, k);
    }
  }

  lemma {:induction false} SendInOrder(steps: seq<Step>, log: seq<nat>, errors: seq<nat>, e: nat)
    returns (turns: seq<Turn>, p: Progress)
    requires Complete(steps, log, errors) && e <= |errors|
    ensures Play(steps, turns) == Some(p) && Reporting(steps, log, errors, e, p)
  {
    if e == 0 {
      turns, p := StoreInOrder(steps, log, errors, |log|);
      AllStored(steps, log, errors, p);
    } else {
      turns, p := SendInOrder(steps, log, errors, e - 1);
      SendNext(steps, log, errors, e - 1, p);
      PlayOn(steps, turns, Go(errors[e - 1]));
      turns := turns + [Go(errors[e - 1])];
      p := Play(steps, turns).value;
    }
  }

  /** All IDs stored and all errors sent; the first `n` steps are over. */
  ghost predicate Ending(steps: seq<Step>, log: seq<nat>, errors: seq<nat>, n: nat, p: Progress) {
    && n <= |steps| && p.log == log && p.errors == errors
    && p.launched == steps && |p.phases| == |steps|
    && (forall k :: 0 <= k < n ==> p.phases[k] == Over)
    && forall k :: n <= k < |steps| ==> p.phases[k] == Over || (p.phases[k] == Stored && steps[k].error == None)
  }

  lemma {:induction false} EndInOrder(steps: seq<Step>, log: seq<nat>, errors: seq<nat>, n: nat)
    returns (turns: seq<Turn>, p: Progress)
    requires Complete(steps, log, errors) && n <= |steps|
    ensures Play(steps, turns) == Some(p) && Ending(steps, log, errors, n, p)
  {
    if n == 0 {
      turns, p := SendInOrder(steps, log, errors, |errors|);
      assert errors[..|errors|] == errors;
    } else {
      turns, p := EndInOrder(steps, log, errors, n - 1);
      if p.phases[n - 1] == Stored {
        PlayOn(steps, turns, Go(n - 1));
        turns := turns + [Go(n - 1)];
        p := Play(steps, turns).value;
      }
    }
  }

  /** The outcomes of all schedules are exactly the complete ones. */
  lemma OutcomesAreComplete(steps: seq<Step>, log: seq<nat>, errors: seq<nat>)
    ensures IsOutcome(steps, log, errors) <==> Complete(steps, log, errors)
  {
    if turns :| EndsWith(steps, turns, log, errors) {
      PlayKeeps(steps, turns);
      OverIsComplete(steps, Play(steps, turns).value);
    }
    if Complete(steps, log, errors) {
      var turns, p := EndInOrder(steps, log, errors, |steps|);
      assert EndsWith(steps, turns, log, errors);
    }
  }

  // ---------- one order of IDs ----------

  function Ascending(n: nat): (s: seq<nat>)
    ensures |s| == n && Below(s, n) && forall i :: 0 <= i < n ==> s[i] == i
  {
    if n == 0 then [] else Ascending(n - 1) + [n - 1]
  }

  lemma AscendingIsPermutation(n: nat)
    ensures IsPermutation(Ascending(n), n)
  {
    forall k | 0 <= k < n
      ensures k in Ascending(n)
    {
      assert Ascending(n)[k] == k;
    }
  }

  /** The asynchronous steps that fail, in registry order. */
  function Failing(steps: seq<Step>): seq<nat> {
    if steps == [] then [] else
      var n := |steps| - 1;
      Failing(steps[..n]) + if steps[n].isAsync && steps[n].error.Some? then [n] else []
  }

  predicate FailsAsync(steps: seq<Step>, k: int) {
    0 <= k < |steps| && steps[k].isAsync && steps[k].error.Some?
  }

  lemma {:induction false} FailingAre(steps: seq<Step>)
    ensures NoDuplicates(Failing(steps)) && Below(Failing(steps), |steps|)
    ensures forall k: nat :: k in Failing(steps) <==> FailsAsync(steps, k)
  {
    if steps != [] {
      var n := |steps| - 1;
      FailingAre(steps[..n]);
      forall k: nat
        ensures k in Failing(steps) <==> FailsAsync(steps, k)
      {
        assert k < n ==> (FailsAsync(steps[..n], k) <==> FailsAsync(steps, k));
      }
    }
  }

  /** Registry order, but for step `k`, which comes right after step `i`. */
  function Delayed(n: nat, k: nat, i: nat): (s: seq<nat>)
    requires k < i < n
    ensures |s| == n && Below(s, n) && forall m :: 0 <= m < n ==> s[m] == DelayedAt(k, i, m)
  {
    seq(n, m requires 0 <= m < n => DelayedAt(k, i, m))
  }

  function DelayedAt(k: nat, i: nat, m: nat): nat {
    if k <= m < i then m + 1 else if m == i then k else m
  }

  lemma DelayedIsComplete(steps: seq<Step>, k: nat, i: nat)
    requires k < i < |steps| && steps[k].isAsync
    ensures Complete(steps, Delayed(|steps|, k, i), Failing(steps))
  {
    var n := |steps|;
    var log := Delayed(n, k, i);
    FailingAre(steps);
    forall m | 0 <= m < n
      ensures m in log
    {
      assert log[if m == k then i else if k < m <= i then m - 1 else m] == m;
    }
  }

  lemma FirstsInOrder(steps: seq<Step>, log: seq<nat>, errors: seq<nat>)
    requires Complete(steps, log, errors) && forall k :: 0 <= k < |steps| - 1 ==> !steps[k].isAsync
    ensures forall i, j :: 0 <= i < j < |log| ==> log[i] < log[j]
  {
    forall i, j | 0 <= i < j < |log|
      ensures log[i] < log[j]
    {
      assert log[i] != log[j];
      assert log[j] < |steps| - 1 ==> !steps[log[j]].isAsync;
    }
  }

  lemma {:induction false} SortedPermutation(log: seq<nat>, n: nat)
    requires IsPermutation(log, n)
    requires forall i, j :: 0 <= i < j < |log| ==> log[i] < log[j]
    ensures log == Ascending(n)
  {
    Pigeonhole(log, n);
    if n > 0 {
      assert n - 1 in log;
      var at :| 0 <= at < |log| && log[at] == n - 1;
      assert log[|log| - 1] < n;
      assert at == |log| - 1;
      var rest := log[..at];
      forall k | 0 <= k < n - 1
        ensures k in rest
      {
        assert k in log;
        var i :| 0 <= i < |log| && log[i] == k;
        assert rest[i] == k;
      }
      SortedPermutation(rest, n - 1);
      assert log == rest + [n - 1];
    }
  }

  /** Under every schedule the steps store their IDs in registry order. */
  ghost predicate AlwaysInOrder(steps: seq<Step>) {
    forall log, errors :: IsOutcome(steps, log, errors) ==> log == Ascending(|steps|)
  }

  /** The steps store their IDs in registry order under every schedule exactly when no selected step before the
      last is asynchronous. */
  lemma AlwaysInOrderIff(steps: seq<Step>)
    ensures AlwaysInOrder(steps) <==> forall k :: 0 <= k < |steps| - 1 ==> !steps[k].isAsync
  {
    if forall k :: 0 <= k < |steps| - 1 ==> !steps[k].isAsync {
      forall log, errors | IsOutcome(steps, log, errors)
        ensures log == Ascending(|steps|)
      {
        OutcomesAreComplete(steps, log, errors);
        FirstsInOrder(steps, log, errors);
        SortedPermutation(log, |steps|);
      }
    } else {
      var k :| 0 <= k < |steps| - 1 && steps[k].isAsync;
      DelayedIsComplete(steps, k, k + 1);
      OutcomesAreComplete(steps, Delayed(|steps|, k, k + 1), Failing(steps));
      assert Delayed(|steps|, k, k + 1)[k] != Ascending(|steps|)[k];
    }
  }

  /** Without asynchronous steps there is one outcome: all IDs in registry order and no error sent. */
  lemma SynchronousRunsAreDeterministic(steps: seq<Step>, log: seq<nat>, errors: seq<nat>)
    requires Complete(steps, log, errors)
    requires forall k :: 0 <= k < |steps| ==> !steps[k].isAsync
    ensures |log| == |steps| && forall i :: 0 <= i < |log| ==> IdsOf(steps, log)[i] == steps[i].id
    ensures errors == []
  {
    FirstsInOrder(steps, log, errors);
    SortedPermutation(log, |steps|);
    HeadIsMember(errors);
  }

  // ---------- one list of IDs ----------

  /** Some schedule ends with this list of IDs. */
  ghost predicate Lists(steps: seq<Step>, ids: seq<string>) {
    exists log, errors :: IsOutcome(steps, log, errors) && Below(log, |steps|) && IdsOf(steps, log) == ids
  }

  ghost predicate OneList(steps: seq<Step>) {
    forall ids, ids' :: Lists(steps, ids) && Lists(steps, ids') ==> ids == ids'
  }

  /** Every asynchronous step is followed only by steps that yield the same ID. */
  predicate SameIdsAfterAsync(steps: seq<Step>) {
    forall k, i :: 0 <= k < i < |steps| && steps[k].isAsync ==> steps[k].id == steps[i].id
  }

  lemma {:induction false} PermutationLength(log: seq<nat>, n: nat)
    requires IsPermutation(log, n)
    ensures |log| == n
  {
    Pigeonhole(log, n);
    if n > 0 {
      assert n - 1 in log;
      var i :| 0 <= i < |log| && log[i] == n - 1;
      var rest := Without(log, i);
      forall k | 0 <= k < n - 1
        ensures k in rest
      {
        assert k in log;
        var j :| 0 <= j < |log| && log[j] == k;
        assert rest[if j < i then j else j - 1] == k;
      }
      PermutationLength(rest, n - 1);
    }
  }

  /** If a later step stores its ID at place `j`, some step up to `j` stores its ID after that. */
  lemma Postponed(log: seq<nat>, j: nat) returns (t: nat)
    requires IsPermutation(log, |log|) && j < |log| && log[j] > j
    ensures j < t < |log| && log[t] <= j
  {
    if forall u :: j < u < |log| ==> log[u] > j {
      var rest := seq(|log| - j, u requires 0 <= u < |log| - j => log[j + u] - (j + 1));
      Pigeonhole(rest, |log| - j - 1);
      assert false;
    }
    t :| j < t < |log| && log[t] <= j;
  }

  /** If an earlier step stores its ID at place `j`, step `j` or a later one stored its ID before that. */
  lemma Advanced(log: seq<nat>, j: nat) returns (t: nat)
    requires IsPermutation(log, |log|) && j < |log| && log[j] < j
    ensures t < j && log[t] >= j
  {
    if forall u :: 0 <= u < j ==> log[u] < j {
      Pigeonhole(log[..j + 1], j);
      assert false;
    }
    t :| 0 <= t < j && log[t] >= j;
  }

  lemma SameId(steps: seq<Step>, log: seq<nat>, errors: seq<nat>, j: nat)
    requires Complete(steps, log, errors) && SameIdsAfterAsync(steps) && |log| == |steps| && j < |log|
    ensures steps[log[j]].id == steps[j].id
  {
    if log[j] > j {
      var t := Postponed(log, j);
      assert steps[log[t]].isAsync;
    } else if log[j] < j {
      var t := Advanced(log, j);
      assert steps[log[j]].isAsync;
    }
  }

  lemma SameList(steps: seq<Step>, log: seq<nat>, errors: seq<nat>)
    requires Complete(steps, log, errors) && SameIdsAfterAsync(steps)
    ensures IdsOf(steps, log) == IdsOf(steps, Ascending(|steps|))
  {
    PermutationLength(log, |steps|);
    forall j | 0 <= j < |log|
      ensures IdsOf(steps, log)[j] == IdsOf(steps, Ascending(|steps|))[j]
    {
      SameId(steps, log, errors, j);
    }
  }

  lemma InOrderIsComplete(steps: seq<Step>)
    ensures Complete(steps, Ascending(|steps|), Failing(steps))
  {
    AscendingIsPermutation(|steps|);
    FailingAre(steps);
  }

  lemma ListsComplete(steps: seq<Step>, log: seq<nat>, errors: seq<nat>)
    requires Complete(steps, log, errors)
    ensures Lists(steps, IdsOf(steps, log))
  {
    OutcomesAreComplete(steps, log, errors);
  }

  lemma DelayedIsListed(steps: seq<Step>, k: nat, i: nat)
    requires k < i < |steps| && steps[k].isAsync
    ensures Lists(steps, IdsOf(steps, Delayed(|steps|, k, i)))
  {
    DelayedIsComplete(steps, k, i);
    ListsComplete(steps, Delayed(|steps|, k, i), Failing(steps));
  }

  lemma AscendingIsListed(steps: seq<Step>)
    ensures Lists(steps, IdsOf(steps, Ascending(|steps|)))
  {
    InOrderIsComplete(steps);
    ListsComplete(steps, Ascending(|steps|), Failing(steps));
  }

  lemma DifferAt(steps: seq<Step>, log: seq<nat>, log': seq<nat>, j: nat)
    requires Below(log, |steps|) && Below(log', |steps|) && j < |log| && j < |log'|
    requires steps[log[j]].id != steps[log'[j]].id
    ensures IdsOf(steps, log) != IdsOf(steps, log')
  {
    assert IdsOf(steps, log)[j] != IdsOf(steps, log')[j];
  }

  lemma DelayedDiffers(steps: seq<Step>, k: nat, i: nat)
    requires k < i < |steps| && steps[i - 1].id != steps[i].id
    ensures IdsOf(steps, Delayed(|steps|, k, i)) != IdsOf(steps, Ascending(|steps|))
  {
    assert Delayed(|steps|, k, i)[i - 1] == i;
    DifferAt(steps, Delayed(|steps|, k, i), Ascending(|steps|), i - 1);
  }

  lemma ListsDiffer(steps: seq<Step>, k: nat, i: nat)
    requires k < i < |steps| && steps[k].isAsync && steps[i - 1].id != steps[i].id
    ensures !OneList(steps)
  {
    DelayedIsListed(steps, k, i);
    AscendingIsListed(steps);
    DelayedDiffers(steps, k, i);
  }

  /** Between two steps with different IDs, two neighbours differ. */
  lemma {:induction false} NeighboursDiffer(steps: seq<Step>, k: nat, i: nat) returns (m: nat)
    requires k < i < |steps| && steps[k].id != steps[i].id
    ensures k < m <= i && steps[m - 1].id != steps[m].id
  {
    m := i;
    if steps[i - 1].id == steps[i].id {
      m := NeighboursDiffer(steps, k, i - 1);
    }
  }

  /** The list of IDs is the same under every schedule exactly when every asynchronous step is followed
      only by steps that yield the same ID. */
  lemma OneListIff(steps: seq<Step>)
    ensures OneList(steps) <==> SameIdsAfterAsync(steps)
  {
    if SameIdsAfterAsync(steps) {
      forall ids, ids' | Lists(steps, ids) && Lists(steps, ids')
        ensures ids == ids'
      {
        var log, errors :| IsOutcome(steps, log, errors) && Below(log, |steps|) && IdsOf(steps, log) == ids;
        var log', errors' :| IsOutcome(steps, log', errors') && Below(log', |steps|) && IdsOf(steps, log') == ids';
        OutcomesAreComplete(steps, log, errors);
        OutcomesAreComplete(steps, log', errors');
        SameList(steps, log, errors);
        SameList(steps, log', errors');
      }
    } else {
      var k, i :| 0 <= k < i < |steps| && steps[k].isAsync && steps[k].id != steps[i].id;
      var m := NeighboursDiffer(steps, k, i);
      ListsDiffer(steps, k, m);
    }
  }

  // ---------- one error ----------

  /** All errors sent, that of step `k` first. */
  function FirstSent(steps: seq<Step>, k: nat): seq<nat> {
    [k] + Others(Failing(steps), k)
  }

  function Others(s: seq<nat>, k: nat): seq<nat> {
    if s == [] then [] else
      Others(s[..|s| - 1], k) + if s[|s| - 1] == k then [] else [s[|s| - 1]]
  }

  lemma {:induction false} OthersAre(s: seq<nat>, k: nat, n: nat)
    requires NoDuplicates(s) && Below(s, n)
    ensures NoDuplicates(Others(s, k)) && Below(Others(s, k), n)
    ensures forall m: nat :: m in Others(s, k) <==> m in s && m != k
  {
    if s != [] {
      OthersAre(s[..|s| - 1], k, n);
      assert s == s[..|s| - 1] + [s[|s| - 1]];
      assert s[|s| - 1] !in s[..|s| - 1];
    }
  }

  lemma FirstSentIsComplete(steps: seq<Step>, k: nat)
    requires FailsAsync(steps, k)
    ensures Complete(steps, Ascending(|steps|), FirstSent(steps, k))
  {
    FailingAre(steps);
    OthersAre(Failing(steps), k, |steps|);
    AscendingIsPermutation(|steps|);
    forall m | 0 <= m < |steps|
      ensures m in FirstSent(steps, k) <==> steps[m].isAsync && steps[m].error.Some?
    {
      assert FailsAsync(steps, m) <==> steps[m].isAsync && steps[m].error.Some?;
    }
  }

  /** Some schedule reports `verdict`. */
  ghost predicate Reports(steps: seq<Step>, verdict: Option<string>) {
    exists log, errors :: IsOutcome(steps, log, errors) && Below(errors, |steps|) && Verdict(steps, errors) == verdict
  }

  /** Whatever the schedule, the run reports the same. */
  ghost predicate OneVerdict(steps: seq<Step>) {
    forall v, w :: Reports(steps, v) && Reports(steps, w) ==> v == w
  }

  ghost predicate FailsSync(steps: seq<Step>) {
    exists k :: 0 <= k < |steps| && !steps[k].isAsync && steps[k].error.Some?
  }

  ghost predicate SameAsyncErrors(steps: seq<Step>) {
    forall i, j :: FailsAsync(steps, i) && FailsAsync(steps, j) ==> steps[i].error == steps[j].error
  }

  lemma HeadIsMember(s: seq<nat>)
    ensures s == [] || s[0] in s
  {
  }

  lemma SameVerdict(steps: seq<Step>, log: seq<nat>, errors: seq<nat>, log': seq<nat>, errors': seq<nat>)
    requires Complete(steps, log, errors) && Complete(steps, log', errors')
    requires LastSyncError(steps).Some? || SameAsyncErrors(steps)
    ensures Verdict(steps, errors) == Verdict(steps, errors')
  {
    HeadIsMember(errors);
    HeadIsMember(errors');
    assert errors != [] ==> FailsAsync(steps, errors[0]);
    assert errors' != [] ==> FailsAsync(steps, errors'[0]);
    assert errors != [] ==> errors[0] in errors';
    assert errors' != [] ==> errors'[0] in errors;
  }

  /** The reported error is the same under every schedule exactly when some synchronous step fails or
      all asynchronous steps that fail do so with the same error. */
  lemma OneVerdictIff(steps: seq<Step>)
    ensures OneVerdict(steps) <==> FailsSync(steps) || SameAsyncErrors(steps)
  {
    LastSyncErrorMeaning(steps);
    assert LastSyncError(steps).Some? <==> FailsSync(steps);
    if LastSyncError(steps).Some? || SameAsyncErrors(steps) {
      forall v, w | Reports(steps, v) && Reports(steps, w)
        ensures v == w
      {
        var log, errors :|
          IsOutcome(steps, log, errors) && Below(errors, |steps|) && Verdict(steps, errors) == v;
        var log', errors' :|
          IsOutcome(steps, log', errors') && Below(errors', |steps|) && Verdict(steps, errors') == w;
        OutcomesAreComplete(steps, log, errors);
        OutcomesAreComplete(steps, log', errors');
        SameVerdict(steps, log, errors, log', errors');
      }
    } else {
      var i: nat, j: nat :| FailsAsync(steps, i) && FailsAsync(steps, j) && steps[i].error != steps[j].error;
      ReportsFirstSent(steps, i);
      ReportsFirstSent(steps, j);
    }
  }

  lemma ReportsFirstSent(steps: seq<Step>, k: nat)
    requires FailsAsync(steps, k) && LastSyncError(steps).None?
    ensures Reports(steps, steps[k].error)
  {
    FirstSentIsComplete(steps, k);
    OutcomesAreComplete(steps, Ascending(|steps|), FirstSent(steps, k));
    assert Verdict(steps, FirstSent(steps, k)) == steps[k].error;
  }
}
