/** One run of the registered steps that match a build: synchronous steps one after another,
    asynchronous ones alongside, with a store for the IDs and a channel for the errors. */
module BuildRun {
  import opened Seqs
  import opened BuildSteps

  /** Where a launched step stands: still working, its ID stored but its error not yet sent, or over. */
  datatype Phase = Working | Stored | Over

  /** The steps launched so far, where each stands, the order in which IDs were stored and the order
      in which asynchronous errors were sent (both as positions in `launched`). */
  datatype Progress = Progress(launched: seq<Step>, phases: seq<Phase>, log: seq<nat>, errors: seq<nat>)

  /** The step runs in this build: it matches, and it is the one asked for when one is. */
  predicate Selected(c: Context, only: Option<string>) {
    c.build.matches && (only.Some? ==> c.build.name == only.value)
  }

  function SelectedSteps(steps: seq<Context>, only: Option<string>): (r: seq<Step>)
    ensures |r| <= |steps|
  {
    if steps == [] then [] else
      var last := steps[|steps| - 1];
      SelectedSteps(steps[..|steps| - 1], only) + if Selected(last, only) then [last.build] else []
  }

  lemma SelectedSnoc(steps: seq<Context>, n: nat, only: Option<string>)
    requires n < |steps|
    ensures SelectedSteps(steps[..n + 1], only) ==
            SelectedSteps(steps[..n], only) + if Selected(steps[n], only) then [steps[n].build] else []
  {
    assert steps[..n + 1][..n] == steps[..n];
  }

  function BuildsOf(steps: seq<Context>): (r: seq<Step>)
    ensures |r| == |steps| && forall k :: 0 <= k < |r| ==> r[k] == steps[k].build
  {
    if steps == [] then [] else BuildsOf(steps[..|steps| - 1]) + [steps[|steps| - 1].build]
  }

  lemma {:induction false} SelectedAt(steps: seq<Context>, only: Option<string>, p: Context -> bool)
    returns (picked: seq<Context>, at: seq<nat>)
    requires forall c :: p(c) <==> Selected(c, only)
    ensures SelectedSteps(steps, only) == BuildsOf(picked) && PickedAt(steps, p, picked, at)
  {
    if steps == [] {
      return [], [];
    }
    var n := |steps| - 1;
    picked, at := SelectedAt(steps[..n], only, p);
    PickNext(steps, p, picked, at);
    BuildsSnoc(picked, steps[n]);
    if p(steps[n]) {
      picked, at := picked + [steps[n]], at + [n];
    }
  }

  lemma BuildsSnoc(steps: seq<Context>, c: Context)
    ensures BuildsOf(steps + [c]) == BuildsOf(steps) + [c.build]
  {
    assert (steps + [c])[..|steps|] == steps;
  }

  /** The selected steps, by their positions in the registry: in order, exactly those that match the
      build and, when one name is asked for, have it. */
  lemma SelectedAre(steps: seq<Context>, only: Option<string>) returns (at: seq<nat>)
    ensures |at| == |SelectedSteps(steps, only)|
    ensures forall k :: 0 <= k < |at| ==> at[k] < |steps| && SelectedSteps(steps, only)[k] == steps[at[k]].build
    ensures forall k, l :: 0 <= k < l < |at| ==> at[k] < at[l]
    ensures forall i :: 0 <= i < |steps| ==>
              (i in at <==> steps[i].build.matches && (only.Some? ==> steps[i].build.name == only.value))
  {
    var picked: seq<Context>;
    picked, at := SelectedAt(steps, only, c => Selected(c, only));
  }

  function IdsOf(steps: seq<Step>, log: seq<nat>): (r: seq<string>)
    requires forall i :: 0 <= i < |log| ==> log[i] < |steps|
    ensures |r| == |log| && forall i :: 0 <= i < |log| ==> r[i] == steps[log[i]].id
  {
    if log == [] then [] else IdsOf(steps, log[..|log| - 1]) + [steps[log[|log| - 1]].id]
  }

  // ---------- what every moment of a run keeps ----------

  predicate Below(s: seq<nat>, n: nat) {
    forall i :: 0 <= i < |s| ==> s[i] < n
  }

  /** IDs are stored once per step, exactly by the steps that got that far. */
  ghost predicate LogOk(p: Progress) {
    && |p.phases| == |p.launched|
    && NoDuplicates(p.log)
    && Below(p.log, |p.launched|)
    && forall k :: 0 <= k < |p.launched| ==> (k in p.log <==> p.phases[k] != Working)
  }

  /** Synchronous steps are over once launched: no step launched later stores its ID before theirs. */
  ghost predicate SyncOk(p: Progress) {
    && |p.phases| == |p.launched|
    && Below(p.log, |p.launched|)
    && (forall k :: 0 <= k < |p.launched| && !p.launched[k].isAsync ==> p.phases[k] == Over)
    && forall i, j :: 0 <= i < j < |p.log| && !p.launched[p.log[j]].isAsync ==> p.log[i] < p.log[j]
  }

  /** Errors are sent once, exactly by the asynchronous steps that failed and are over. */
  ghost predicate ErrorsOk(p: Progress) {
    && |p.phases| == |p.launched|
    && NoDuplicates(p.errors)
    && Below(p.errors, |p.launched|)
    && forall k :: 0 <= k < |p.launched| ==> (k in p.errors <==> Sent(p, k))
  }

  predicate Sent(p: Progress, k: nat)
    requires k < |p.launched| == |p.phases|
  {
    p.launched[k].isAsync && p.launched[k].error.Some? && p.phases[k] == Over
  }

  ghost predicate Inv(p: Progress) {
    LogOk(p) && SyncOk(p) && ErrorsOk(p)
  }

  // ---------- the steps a run is made of ----------

  function Launch(p: Progress, s: Step): Progress {
    p.(launched := p.launched + [s], phases := p.phases + [Working])
  }

  function RunSync(p: Progress, s: Step): Progress {
    Progress(p.launched + [s], p.phases + [Over], p.log + [|p.launched|], p.errors)
  }

  predicate Busy(p: Progress, k: nat) {
    k < |p.phases| && k < |p.launched| && p.phases[k] != Over
  }

  /** The next thing goroutine `k` does: store its ID, or send its error if it has one and end. */
  function Advance(p: Progress, k: nat): Progress
    requires Busy(p, k)
  {
    if p.phases[k] == Working then
      p.(phases := p.phases[k := Stored], log := p.log + [k])
    else
      p.(phases := p.phases[k := Over], errors := if p.launched[k].error.Some? then p.errors + [k] else p.errors)
  }

  lemma LaunchKeeps(p: Progress, s: Step)
    requires Inv(p) && s.isAsync
    ensures Inv(Launch(p, s))
  {
  }

  lemma SyncKeeps(p: Progress, s: Step)
    requires Inv(p) && !s.isAsync
    ensures Inv(RunSync(p, s))
  {
    var q := RunSync(p, s);
    var n := |p.launched|;
    forall k | 0 <= k < |q.launched|
      ensures k in q.log <==> q.phases[k] != Working
    {
      assert q.log[|p.log|] == n;
      if k < n && k in p.log {
        var i :| 0 <= i < |p.log| && p.log[i] == k;
        assert q.log[i] == k;
      }
    }
  }

  lemma AdvanceKeepsLog(p: Progress, k: nat)
    requires Inv(p) && Busy(p, k)
    ensures LogOk(Advance(p, k)) && SyncOk(Advance(p, k))
  {
    var q := Advance(p, k);
    if p.phases[k] == Working {
      forall j | 0 <= j < |q.launched|
        ensures j in q.log <==> q.phases[j] != Working
      {
        assert q.log[|p.log|] == k;
        if j in p.log {
          var i :| 0 <= i < |p.log| && p.log[i] == j;
          assert q.log[i] == j;
        }
      }
    }
  }

  lemma AdvanceKeepsErrors(p: Progress, k: nat)
    requires Inv(p) && Busy(p, k)
    ensures ErrorsOk(Advance(p, k))
  {
    var q := Advance(p, k);
    assert p.launched[k].isAsync && !Sent(p, k);
    assert k !in p.errors;
    forall j | 0 <= j < |q.launched|
      ensures j in q.errors <==> Sent(q, j)
    {
      assert q.errors != p.errors ==> q.errors[|p.errors|] == k;
      if j in p.errors {
        var i :| 0 <= i < |p.errors| && p.errors[i] == j;
        assert q.errors[i] == j;
      }
    }
  }

  /** The error channel, as large as the registry, always has room for the next error. */
  lemma ErrorChannelHasRoom(p: Progress, k: nat, capacity: nat)
    requires Inv(p) && Busy(p, k) && |p.launched| <= capacity
    ensures |p.errors| < capacity
  {
    assert !Sent(p, k);
    assert k !in p.errors;
    Pigeonhole(p.errors + [k], |p.launched|);
  }

  // ---------- termination of the wait ----------

  function Work(phase: Phase): nat {
    match phase case Working => 2 case Stored => 1 case Over => 0
  }

  function Remaining(phases: seq<Phase>): nat {
    if phases == [] then 0 else Remaining(phases[..|phases| - 1]) + Work(phases[|phases| - 1])
  }

  lemma {:induction false} RemainingUpdate(phases: seq<Phase>, k: nat, phase: Phase)
    requires k < |phases|
    ensures Remaining(phases[k := phase]) == Remaining(phases) - Work(phases[k]) + Work(phase)
  {
    var n := |phases| - 1;
    if k < n {
      assert phases[k := phase][..n] == phases[..n][k := phase];
      RemainingUpdate(phases[..n], k, phase);
    } else {
      assert phases[k := phase][..n] == phases[..n];
    }
  }

  lemma {:induction false} NothingRemains(phases: seq<Phase>)
    ensures Remaining(phases) == 0 <==> forall k :: 0 <= k < |phases| ==> phases[k] == Over
  {
    if phases != [] {
      var n := |phases| - 1;
      NothingRemains(phases[..n]);
      assert forall k :: 0 <= k < n ==> phases[..n][k] == phases[k];
    }
  }

  // ---------- the run ----------

  /** The error of the last synchronous step that failed. */
  function LastSyncError(steps: seq<Step>): Option<string> {
    if steps == [] then None else
      var s := steps[|steps| - 1];
      if !s.isAsync && s.error.Some? then s.error else LastSyncError(steps[..|steps| - 1])
  }

  lemma LastSyncErrorSnoc(steps: seq<Step>, s: Step)
    ensures LastSyncError(steps + [s]) == if !s.isAsync && s.error.Some? then s.error else LastSyncError(steps)
  {
    assert (steps + [s])[..|steps|] == steps;
  }

  lemma {:induction false} LastSyncErrorMeaning(steps: seq<Step>)
    ensures LastSyncError(steps) == None <==>
            forall i :: 0 <= i < |steps| && !steps[i].isAsync ==> steps[i].error == None
    ensures LastSyncError(steps).Some? ==> exists i :: LastSyncFailure(steps, i)
  {
    if steps != [] {
      var n := |steps| - 1;
      LastSyncErrorMeaning(steps[..n]);
      assert forall i :: 0 <= i < n ==> steps[..n][i] == steps[i];
      if !steps[n].isAsync && steps[n].error.Some? {
        assert LastSyncFailure(steps, n);
      } else if LastSyncError(steps[..n]).Some? {
        var i :| LastSyncFailure(steps[..n], i);
        assert LastSyncFailure(steps, i);
      }
    }
  }

  ghost predicate LastSyncFailure(steps: seq<Step>, i: nat) {
    && i < |steps|
    && !steps[i].isAsync
    && steps[i].error.Some?
    && LastSyncError(steps) == steps[i].error
    && forall j :: i < j < |steps| && !steps[j].isAsync ==> steps[j].error == None
  }

  /** Any goroutines may take any number of turns while the loop goes on. */
  method LetGoroutinesRun(p: Progress, capacity: nat) returns (q: Progress)
    requires Inv(p) && |p.launched| <= capacity
    ensures Inv(q) && q.launched == p.launched
  {
    q := p;
    var turns: int := *;
    while turns > 0
      invariant Inv(q) && q.launched == p.launched
    {
      var k: int := *;
      if 0 <= k && Busy(q, k) {
        ErrorChannelHasRoom(q, k, capacity);
        AdvanceKeepsLog(q, k);
        AdvanceKeepsErrors(q, k);
        q := Advance(q, k);
      }
      turns := turns - 1;
    }
  }

  /** Waiting until every goroutine is over ends, whatever order they go in. */
  method Wait(p: Progress, capacity: nat) returns (q: Progress)
    requires Inv(p) && |p.launched| <= capacity
    ensures Inv(q) && q.launched == p.launched
    ensures forall k :: 0 <= k < |q.phases| ==> q.phases[k] == Over
  {
    q := p;
    NothingRemains(q.phases);
    while Remaining(q.phases) > 0
      invariant Inv(q) && q.launched == p.launched
      decreases Remaining(q.phases)
    {
      NothingRemains(q.phases);
      assert exists j: nat :: Busy(q, j) by {
        var j :| 0 <= j < |q.phases| && q.phases[j] != Over;
        assert Busy(q, j);
      }
      var k: nat :| Busy(q, k);
      ErrorChannelHasRoom(q, k, capacity);
      AdvanceKeepsLog(q, k);
      AdvanceKeepsErrors(q, k);
      RemainingUpdate(q.phases, k, if q.phases[k] == Working then Stored else Over);
      q := Advance(q, k);
    }
    NothingRemains(q.phases);
  }

  /** A finished run: every selected step stored its ID exactly once, a synchronous one before all later
      steps, and every asynchronous failure was sent exactly once. */
  ghost predicate Complete(steps: seq<Step>, log: seq<nat>, errors: seq<nat>) {
    && IsPermutation(log, |steps|)
    && (forall i, j :: 0 <= i < j < |log| && !steps[log[j]].isAsync ==> log[i] < log[j])
    && NoDuplicates(errors)
    && Below(errors, |steps|)
    && forall k :: 0 <= k < |steps| ==> (k in errors <==> steps[k].isAsync && steps[k].error.Some?)
  }

  ghost predicate IsPermutation(log: seq<nat>, n: nat) {
    NoDuplicates(log) && Below(log, n) && forall k :: 0 <= k < n ==> k in log
  }

  /** What a run reports: the last synchronous failure, or else the first asynchronous error sent. */
  function Verdict(steps: seq<Step>, errors: seq<nat>): Option<string>
    requires Below(errors, |steps|)
  {
    if LastSyncError(steps).Some? then LastSyncError(steps)
    else if errors != [] then steps[errors[0]].error else None
  }

  method RunAllMatchingBuilds(steps: seq<Context>, only: Option<string>)
    returns (ids: seq<string>, buildErr: Option<string>, log: seq<nat>, errors: seq<nat>)
    ensures Complete(SelectedSteps(steps, only), log, errors)
    ensures ids == IdsOf(SelectedSteps(steps, only), log)
    ensures buildErr == Verdict(SelectedSteps(steps, only), errors)
  {
    var p := Progress([], [], [], []);
    buildErr := None;
    for i := 0 to |steps|
      invariant Inv(p)
      invariant p.launched == SelectedSteps(steps[..i], only)
      invariant buildErr == LastSyncError(p.launched)
    {
      p := LetGoroutinesRun(p, |steps|);
      SelectedSnoc(steps, i, only);
      if !Selected(steps[i], only) {
        continue;
      }
      var build := steps[i].build;
      LastSyncErrorSnoc(p.launched, build);
      if build.isAsync {
        LaunchKeeps(p, build);
        p := Launch(p, build);
        continue;
      }
      SyncKeeps(p, build);
      p := RunSync(p, build);
      if build.error.Some? {
        buildErr := build.error;
      }
    }
    assert steps[..|steps|] == steps;
    p := Wait(p, |steps|);
    if buildErr == None && p.errors != [] {
      buildErr := p.launched[p.errors[0]].error;
    }
    log, errors, ids := p.log, p.errors, IdsOf(p.launched, p.log);
  }

  /** A run succeeds exactly when no selected step fails, whatever the interleaving. */
  lemma SucceedsIffNothingFails(steps: seq<Step>, log: seq<nat>, errors: seq<nat>)
    requires Complete(steps, log, errors)
    ensures Verdict(steps, errors) == None <==> forall k :: 0 <= k < |steps| ==> steps[k].error == None
  {
    LastSyncErrorMeaning(steps);
    if errors != [] {
      assert errors[0] in errors;
      assert steps[errors[0]].error.Some?;
    }
    if Verdict(steps, errors) == None {
      forall k | 0 <= k < |steps|
        ensures steps[k].error == None
      {
        assert k in errors <==> steps[k].isAsync && steps[k].error.Some?;
      }
    }
  }

  /** The reported error is some selected step's own, and a synchronous failure always wins. */
  lemma VerdictIsAStepsError(steps: seq<Step>, log: seq<nat>, errors: seq<nat>)
    requires Complete(steps, log, errors) && Verdict(steps, errors).Some?
    ensures exists k :: 0 <= k < |steps| && steps[k].error == Verdict(steps, errors) &&
              (steps[k].isAsync ==> forall j :: 0 <= j < |steps| && !steps[j].isAsync ==> steps[j].error == None)
  {
    LastSyncErrorMeaning(steps);
    if LastSyncError(steps).Some? {
      var i :| LastSyncFailure(steps, i);
    } else {
      assert errors[0] in errors;
    }
  }

  /** The reported error, spelled out: that of the last synchronous step to fail, or else the first one
      sent by an asynchronous step, or else none. */
  lemma VerdictIs(steps: seq<Step>, log: seq<nat>, errors: seq<nat>)
    requires Complete(steps, log, errors)
    ensures forall i :: 0 <= i < |steps| && !steps[i].isAsync && steps[i].error.Some? &&
                        (forall j :: i < j < |steps| && !steps[j].isAsync ==> steps[j].error == None) ==>
                        Verdict(steps, errors) == steps[i].error
    ensures (forall i :: 0 <= i < |steps| && !steps[i].isAsync ==> steps[i].error == None) ==>
              Verdict(steps, errors) == if errors == [] then None else steps[errors[0]].error
  {
    LastSyncErrorMeaning(steps);
    if LastSyncError(steps).Some? {
      var k :| LastSyncFailure(steps, k);
      forall i | 0 <= i < |steps| && !steps[i].isAsync && steps[i].error.Some? &&
                 (forall j :: i < j < |steps| && !steps[j].isAsync ==> steps[j].error == None)
        ensures i == k
      {
      }
    }
  }
}
