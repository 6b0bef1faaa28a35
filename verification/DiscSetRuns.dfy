/** internal/download/discset.go: theorems about every run of the disc-set machine. */
module DiscSetRuns {
  import opened Options
  import opened DiscSet
  import opened DiscSetMarkers
  import opened DiscSetSteps

  // ---------- Theorems about every run ----------

  ghost predicate Inv(st: State, timeout: int) {
    Mutex(st) && Knows(st) && TailsBounded(st) && RowsUnique(st) && NoneLost(st) && SweepsThorough(st, timeout)
  }

  lemma {:induction false} RunInv(run: seq<State>, steps: seq<Step>, timeout: int, n: nat)
    requires IsRun(run, steps, timeout) && n < |run|
    ensures Inv(run[n], timeout)
  {
    if n > 0 {
      RunInv(run, steps, timeout, n - 1);
      var st, step := run[n - 1], steps[n - 1];
      MutexStep(st, step, timeout);
      KnowsStep(st, step, timeout);
      TailsStep(st, step, timeout);
      RowsStep(st, step, timeout);
      NoneLostStep(st, step, timeout);
      SweepsStep(st, step, timeout);
    }
  }

  /** The deferred tail runs at most once per set, and at most once more per crash. */
  lemma AtMostOneTail(run: seq<State>, steps: seq<Step>, timeout: int, n: nat, s: SetId)
    requires IsRun(run, steps, timeout) && n < |run|
    ensures run[n].tails[s] <= 1 + run[n].crashes
  {
    RunInv(run, steps, timeout, n);
  }

  /** Crashes or not, no two library rows ever carry the same set. */
  lemma AtMostOneRow(run: seq<State>, steps: seq<Step>, timeout: int, n: nat)
    requires IsRun(run, steps, timeout) && n < |run|
    ensures forall i, k :: 0 <= i < k < |run[n].rows| ==> run[n].rows[i].setId != run[n].rows[k].setId
  {
    RunInv(run, steps, timeout, n);
  }

  /** No lost finalize: without a crash, a complete set is finalized as soon as no thread
      that landed one of its members or is finalizing it is still under way. */
  lemma NoLostFinalize(run: seq<State>, steps: seq<Step>, timeout: int, n: nat, s: SetId)
    requires IsRun(run, steps, timeout) && n < |run| && run[n].crashes == 0
    requires Counted(run[n].jobs, s) && Complete(run[n].jobs, s) && !exists t :: Busy(run[n], s, t)
    ensures Finalized(run[n].jobs, s)
  {
    RunInv(run, steps, timeout, n);
  }

  /** Recovery, crashes included: once a sweep is through, every set its snapshot showed
      complete, hopeless or overdue is finalized or in another thread's flight. */
  lemma SweepRecovers(run: seq<State>, steps: seq<Step>, timeout: int, n: nat, t: nat, s: SetId)
    requires IsRun(run, steps, timeout) && n < |run| && t in run[n].threads && s != ""
    requires run[n].threads[t].pc.Return? && run[n].threads[t].sweep.Some?
    requires run[n].threads[t].sweep.value.todo == {}
    requires var sw := run[n].threads[t].sweep.value; Verdict(sw.snap, s, sw.now, timeout).Some?
    ensures Finalized(run[n].jobs, s) || s in run[n].importing
  {
    RunInv(run, steps, timeout, n);
    assert Dealt(run[n], t, s, timeout);
  }

  /** A marker that does not say "degraded" lists exactly 1..total. */
  lemma {:induction false} NonDegradedMeansComplete(run: seq<State>, steps: seq<Step>, timeout: int, n: nat, s: SetId)
    requires IsRun(run, steps, timeout) && n < |run|
    requires forall i :: 0 <= i <= n ==> Uniform(run[i].jobs, s)
    ensures MarkersComplete(run[n], s)
    ensures forall row :: row in run[n].rows && row.setId == s && row.marker.Some? && !row.marker.value.degraded ==>
              row.marker.value.total >= 1 && row.marker.value.have == UpTo(row.marker.value.total)
  {
    if n > 0 {
      NonDegradedMeansComplete(run, steps, timeout, n - 1, s);
      RunInv(run, steps, timeout, n - 1);
      MarkersStep(run[n - 1], steps[n - 1], timeout, s);
    }
  }

  const LATE: Job := Job("x", 1, 1, false, false, false, 1)

  lemma OverdueSweep() returns (run: seq<State>, steps: seq<Step>)
    ensures IsRun(run, steps, 10) && run[|run| - 1].jobs == map[1 := LATE] && run[|run| - 1].importing == {}
    ensures run[|run| - 1].rows == [] && run[|run| - 1].threads.Keys == {0}
    ensures run[|run| - 1].tails == multiset{} && run[|run| - 1].crashes == 0
    ensures run[|run| - 1].threads[0].pc == Lock("x", true)
  {
    run, steps := RunPush([INITIAL], [], 10, CreateJob(1, LATE));
    run, steps := RunPush(run, steps, 10, StartSweep(0, 12));
    var jobs := map[1 := LATE];
    assert IsMember(jobs, "x", 1) && DoneIn(jobs, "x") == {} && SetIds(jobs) == {"x"};
    assert Verdict(jobs, "x", 12, 10) == Some(true);
    run, steps := RunPush(run, steps, 10, Advance(0, Choose("x")));
  }

  lemma LandsBeforeReread() returns (run: seq<State>, steps: seq<Step>)
    ensures IsRun(run, steps, 10) && run[|run| - 1].rows == [] && 0 in run[|run| - 1].threads
    ensures run[|run| - 1].threads[0].pc == Work("x", true, [1], map[1 := LATE.(done := true)], ToRun)
  {
    run, steps := OverdueSweep();
    run, steps := RunPush(run, steps, 10, Land(5, 1));
    run, steps := RunPush(run, steps, 10, Advance(0, Go));
    var jobs := run[|run| - 1].jobs;
    assert jobs == map[1 := LATE.(done := true)];
    assert !Finalized(jobs, "x") && IsOrder([1], jobs, "x");
    run, steps := RunPush(run, steps, 10, Advance(0, Listing([1])));
  }

  lemma LateTailRuns() returns (run: seq<State>, steps: seq<Step>)
    ensures IsRun(run, steps, 10) && run[|run| - 1].rows == [Row("x", None)] && 0 in run[|run| - 1].threads
    ensures run[|run| - 1].threads[0].pc == Work("x", true, [1], map[1 := LATE.(done := true)], ToSave)
  {
    run, steps := LandsBeforeReread();
    assert 1 in DoneIn(map[1 := LATE.(done := true)], "x");
    run, steps := RunPush(run, steps, 10, Advance(0, Go));
    run, steps := RunPush(run, steps, 10, Advance(0, Go));
    run, steps := RunPush(run, steps, 10, Advance(0, Go));
  }

  lemma SavesDegraded(st: State)
    requires st.rows == [Row("x", None)] && 0 in st.threads
    requires st.threads[0].pc == Work("x", true, [1], map[1 := LATE.(done := true)], ToSave)
    ensures Enabled(st, Advance(0, Go), 10)
    ensures Apply(st, Advance(0, Go), 10).rows == [Row("x", Some(Marker(1, UpTo(1), true)))]
  {
    var view := map[1 := LATE.(done := true)];
    assert [1][..0] == [] && HaveOf([], view) == [];
    assert [1][|[1]| - 1] == 1 && HaveOf([1], view) == [] + [LATE.index];
    assert UpTo(1) == [1];
    assert MarkerOf([1], view, true) == Marker(1, UpTo(1), true);
  }

  /** A degraded marker need not be short of discs: the last disc may land after the sweep
      judged the set overdue and before it reads the members under the flight. */
  lemma DegradedMarkerMayBeComplete() returns (run: seq<State>, steps: seq<Step>)
    ensures IsRun(run, steps, 10)
    ensures run[|run| - 1].rows == [Row("x", Some(Marker(1, UpTo(1), true)))]
  {
    run, steps := LateTailRuns();
    SavesDegraded(run[|run| - 1]);
    run, steps := RunPush(run, steps, 10, Advance(0, Go));
  }
}
