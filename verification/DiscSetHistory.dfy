/** internal/download/discset.go: what a finalized set owes to the moment its flight read the members again. */
module DiscSetHistory {
  import opened Options
  import opened DiscSet
  import opened DiscSetMarkers
  import opened DiscSetRuns
  import opened DiscSetSteps

  // ---------- A disc is done once it has landed ----------

  ghost predicate LandedBefore(steps: seq<Step>, n: nat, j: JobId) {
    exists i :: 0 <= i < n && i < |steps| && steps[i].Land? && steps[i].j == j
  }

  lemma LandedPush(steps: seq<Step>, n: nat, j: JobId)
    requires n < |steps|
    ensures LandedBefore(steps, n + 1, j) <==> LandedBefore(steps, n, j) || (steps[n].Land? && steps[n].j == j)
  {
  }

  lemma {:induction false} DoneIsLanded(run: seq<State>, steps: seq<Step>, timeout: int, n: nat, j: JobId)
    requires IsRun(run, steps, timeout) && n < |run|
    ensures j in run[n].jobs && run[n].jobs[j].done <==> LandedBefore(steps, n, j)
  {
    if n > 0 {
      DoneIsLanded(run, steps, timeout, n - 1, j);
      LandedPush(steps, n - 1, j);
      JobsExtend(run[n - 1], steps[n - 1], timeout);
    }
  }

  // ---------- Where a view comes from ----------

  /** Step r is the re-read of `s` by thread t, under the flight and with no member finalized. */
  ghost predicate Rereads(run: seq<State>, steps: seq<Step>, r: nat, t: nat, s: SetId, degraded: bool,
                          order: seq<JobId>) {
    && r < |steps| && r < |run| && steps[r] == Advance(t, Listing(order)) && t in run[r].threads
    && run[r].threads[t].pc == Reread(s, degraded) && order != [] && IsOrder(order, run[r].jobs, s)
    && !Finalized(run[r].jobs, s)
  }

  /** The view a thread works on is what it read at some re-read before n. */
  ghost predicate Traced(run: seq<State>, steps: seq<Step>, n: nat, s: SetId, degraded: bool, order: seq<JobId>,
                         view: Jobs) {
    exists r: nat, t :: r < n && Rereads(run, steps, r, t, s, degraded, order) && view == run[r].jobs
  }

  ghost predicate PcTraced(run: seq<State>, steps: seq<Step>, n: nat, pc: Pc) {
    pc.Work? ==> Traced(run, steps, n, pc.s, pc.degraded, pc.order, pc.view)
  }

  lemma TracedLater(run: seq<State>, steps: seq<Step>, n: nat, s: SetId, degraded: bool, order: seq<JobId>, view: Jobs)
    requires Traced(run, steps, n, s, degraded, order, view)
    ensures Traced(run, steps, n + 1, s, degraded, order, view)
  {
    var r: nat, t :| r < n && Rereads(run, steps, r, t, s, degraded, order) && view == run[r].jobs;
    assert r < n + 1;
  }

  lemma MoverTraced(run: seq<State>, steps: seq<Step>, timeout: int, n: nat, t: nat)
    requires IsRun(run, steps, timeout) && n < |steps| && steps[n].Advance? && steps[n].t == t
    requires PcTraced(run, steps, n, run[n].threads[t].pc)
    ensures PcTraced(run, steps, n + 1, run[n + 1].threads[t].pc)
  {
    var pc, next := run[n].threads[t].pc, run[n + 1].threads[t].pc;
    if next.Work? {
      if pc.Work? {
        TracedLater(run, steps, n, pc.s, pc.degraded, pc.order, pc.view);
      } else {
        assert Rereads(run, steps, n, t, next.s, next.degraded, next.order);
      }
    }
  }

  lemma {:induction false} ViewsTraced(run: seq<State>, steps: seq<Step>, timeout: int, n: nat, t: nat)
    requires IsRun(run, steps, timeout) && n < |run| && t in run[n].threads
    ensures PcTraced(run, steps, n, run[n].threads[t].pc)
  {
    if n > 0 {
      var st, step := run[n - 1], steps[n - 1];
      if Mover(step) != Some(t) {
        OthersStay(st, step, timeout, t);
        ViewsTraced(run, steps, timeout, n - 1, t);
        var pc := st.threads[t].pc;
        if pc.Work? {
          TracedLater(run, steps, n - 1, pc.s, pc.degraded, pc.order, pc.view);
        }
      } else if step.Advance? {
        ViewsTraced(run, steps, timeout, n - 1, t);
        MoverTraced(run, steps, timeout, n - 1, t);
      }
    }
  }

  // ---------- What a marker lists ----------

  /** The marker is that of some re-read of `s` before n. */
  ghost predicate MarkerTraced(run: seq<State>, steps: seq<Step>, n: nat, s: SetId, mk: Marker) {
    exists order, view :: Traced(run, steps, n, s, mk.degraded, order, view) && mk == MarkerOf(order, view, mk.degraded)
  }

  lemma MarkerTracedLater(run: seq<State>, steps: seq<Step>, n: nat, s: SetId, mk: Marker)
    requires MarkerTraced(run, steps, n, s, mk)
    ensures MarkerTraced(run, steps, n + 1, s, mk)
  {
    var order: seq<JobId>, view: Jobs :| Traced(run, steps, n, s, mk.degraded, order, view) &&
      mk == MarkerOf(order, view, mk.degraded);
    TracedLater(run, steps, n, s, mk.degraded, order, view);
  }

  lemma {:induction false} MarkersTraced(run: seq<State>, steps: seq<Step>, timeout: int, n: nat, row: Row)
    requires IsRun(run, steps, timeout) && n < |run| && row in run[n].rows && row.marker.Some?
    ensures MarkerTraced(run, steps, n, row.setId, row.marker.value)
  {
    if n > 0 {
      var st, step := run[n - 1], steps[n - 1];
      RowComes(st, step, timeout, row);
      if row in st.rows {
        MarkersTraced(run, steps, timeout, n - 1, row);
      } else {
        ViewsTraced(run, steps, timeout, n - 1, step.t);
        var pc := st.threads[step.t].pc;
        assert Traced(run, steps, n - 1, pc.s, pc.degraded, pc.order, pc.view);
      }
      MarkerTracedLater(run, steps, n - 1, row.setId, row.marker.value);
    }
  }

  lemma MarkerSource(run: seq<State>, steps: seq<Step>, n: nat, s: SetId, mk: Marker)
    returns (r: nat, t: nat, order: seq<JobId>)
    requires MarkerTraced(run, steps, n, s, mk)
    ensures r < n && Rereads(run, steps, r, t, s, mk.degraded, order)
    ensures mk == MarkerOf(order, run[r].jobs, mk.degraded)
  {
    var listed: seq<JobId>, view: Jobs :| Traced(run, steps, n, s, mk.degraded, listed, view) &&
      mk == MarkerOf(listed, view, mk.degraded);
    order := listed;
    r, t :| r < n && Rereads(run, steps, r, t, s, mk.degraded, order) && view == run[r].jobs;
  }

  /** Member `j`, of that index, had landed before step r. */
  ghost predicate LandedAs(run: seq<State>, steps: seq<Step>, r: nat, s: SetId, j: JobId, index: int)
    requires r < |run|
  {
    IsMember(run[r].jobs, s, j) && run[r].jobs[j].index == index && LandedBefore(steps, r, j)
  }

  lemma HaveIsLanded(run: seq<State>, steps: seq<Step>, timeout: int, r: nat, s: SetId, order: seq<JobId>, index: int)
    requires IsRun(run, steps, timeout) && r < |run| && IsOrder(order, run[r].jobs, s)
    ensures index in HaveOf(order, run[r].jobs) <==> exists j :: LandedAs(run, steps, r, s, j, index)
  {
    var view := run[r].jobs;
    assert forall i :: 0 <= i < |order| ==> IsMember(view, s, order[i]);
    HaveMembers(order, view, index);
    if i :| 0 <= i < |order| && view[order[i]].done && view[order[i]].index == index {
      DoneIsLanded(run, steps, timeout, r, order[i]);
      assert LandedAs(run, steps, r, s, order[i], index);
    }
    if j :| LandedAs(run, steps, r, s, j, index) {
      DoneIsLanded(run, steps, timeout, r, j);
      assert j in order;
    }
  }

  /** A stored marker is that of one re-read of its set under a flight: a disc is in it if and only if it had
      landed before that re-read. */
  lemma MarkerListsLanded(run: seq<State>, steps: seq<Step>, timeout: int, n: nat, row: Row)
    returns (r: nat, t: nat, order: seq<JobId>)
    requires IsRun(run, steps, timeout) && n < |run| && row in run[n].rows && row.marker.Some?
    ensures r < n && Rereads(run, steps, r, t, row.setId, row.marker.value.degraded, order)
    ensures forall index :: index in row.marker.value.have <==> exists j :: LandedAs(run, steps, r, row.setId, j, index)
  {
    MarkersTraced(run, steps, timeout, n, row);
    r, t, order := MarkerSource(run, steps, n, row.setId, row.marker.value);
    forall index
      ensures index in row.marker.value.have <==> exists j :: LandedAs(run, steps, r, row.setId, j, index)
    {
      HaveIsLanded(run, steps, timeout, r, row.setId, order, index);
    }
  }

  // ---------- When the tail runs ----------

  /** Step k decides about the tail of `s`. */
  ghost predicate Decides(run: seq<State>, steps: seq<Step>, k: nat, s: SetId) {
    k < |steps| && k < |run| && Decision(run[k], steps[k], s)
  }

  ghost predicate DecidesForTail(run: seq<State>, steps: seq<Step>, k: nat, s: SetId)
    requires Decides(run, steps, k, s)
  {
    ForTail(run[k], steps[k], s)
  }

  ghost predicate Undecided(run: seq<State>, steps: seq<Step>, n: nat, s: SetId) {
    forall k: nat :: k < n ==> !Decides(run, steps, k, s)
  }

  /** Step k is the only decision about `s` before n, and it says whether the tail ran. */
  ghost predicate OneDecision(run: seq<State>, steps: seq<Step>, n: nat, s: SetId, k: nat) {
    && k < n && Decides(run, steps, k, s) && (forall i: nat :: i < n && Decides(run, steps, i, s) ==> i == k)
    && n < |run| && run[n].tails[s] == if DecidesForTail(run, steps, k, s) then 1 else 0
  }

  ghost predicate Story(run: seq<State>, steps: seq<Step>, n: nat, s: SetId)
    requires n < |run|
  {
    if Past(run[n], s) then exists k: nat :: OneDecision(run, steps, n, s, k)
    else Undecided(run, steps, n, s) && run[n].tails[s] == 0
  }

  lemma TailComes(st: State, t: nat, choice: Choice, timeout: int, s: SetId)
    requires Enabled(st, Advance(t, choice), timeout) && HolderOf(st, s, t) && !PastTail(st, s, t)
    requires PastTail(Apply(st, Advance(t, choice), timeout), s, t)
    ensures Decision(st, Advance(t, choice), s)
  {
    MoverMoves(st, t, choice, timeout);
  }

  /** A set gets past its decision only by one. */
  lemma PastComes(st: State, step: Step, timeout: int, s: SetId)
    requires Mutex(st) && Knows(st) && Enabled(st, step, timeout)
    requires !Past(st, s) && Past(Apply(st, step, timeout), s)
    ensures Decision(st, step, s)
  {
    if Finalized(Apply(st, step, timeout).jobs, s) {
      OnlyHolderFinalizes(st, step, timeout, s);
      assert PastTail(st, s, step.t);
      assert false;
    }
    var t: nat :| PastTail(Apply(st, step, timeout), s, t);
    HolderComes(st, step, timeout, s, t);
    if Mover(step) != Some(t) {
      OthersStay(st, step, timeout, t);
      assert PastTail(st, s, t);
      assert false;
    }
    assert !PastTail(st, s, t);
    if HolderOf(st, s, t) {
      TailComes(st, t, step.choice, timeout, s);
    } else {
      MoverMoves(st, t, step.choice, timeout);
      assert false;
    }
  }

  lemma StoryStep(run: seq<State>, steps: seq<Step>, timeout: int, n: nat, s: SetId)
    requires IsRun(run, steps, timeout) && n < |steps| && !steps[n].Crash?
    requires Mutex(run[n]) && Knows(run[n]) && Story(run, steps, n, s)
    ensures Story(run, steps, n + 1, s)
  {
    TailsChange(run[n], steps[n], timeout, s);
    if Decides(run, steps, n, s) {
      DecisionIsFirst(run[n], steps[n], timeout, s);
      assert OneDecision(run, steps, n + 1, s, n);
    } else if Past(run[n], s) {
      PastStays(run[n], steps[n], timeout, s);
      var k: nat :| OneDecision(run, steps, n, s, k);
      assert OneDecision(run, steps, n + 1, s, k);
    } else if Past(run[n + 1], s) {
      PastComes(run[n], steps[n], timeout, s);
    }
  }

  lemma {:induction false} RunStory(run: seq<State>, steps: seq<Step>, timeout: int, n: nat, s: SetId)
    requires IsRun(run, steps, timeout) && n < |run| && run[n].crashes == 0
    ensures Story(run, steps, n, s)
  {
    if n == 0 {
      assert forall t :: !PastTail(run[0], s, t);
    } else {
      RunStory(run, steps, timeout, n - 1, s);
      RunInv(run, steps, timeout, n - 1);
      StoryStep(run, steps, timeout, n - 1, s);
    }
  }

  ghost predicate SomethingLanded(run: seq<State>, steps: seq<Step>, r: nat, s: SetId)
    requires r < |run|
  {
    exists j :: IsMember(run[r].jobs, s, j) && LandedBefore(steps, r, j)
  }

  lemma LandedInView(run: seq<State>, steps: seq<Step>, timeout: int, r: nat, s: SetId)
    requires IsRun(run, steps, timeout) && r < |run|
    ensures DoneIn(run[r].jobs, s) != {} <==> SomethingLanded(run, steps, r, s)
  {
    if DoneIn(run[r].jobs, s) != {} {
      var j :| j in DoneIn(run[r].jobs, s);
      DoneIsLanded(run, steps, timeout, r, j);
      assert IsMember(run[r].jobs, s, j);
    }
    if SomethingLanded(run, steps, r, s) {
      var j :| IsMember(run[r].jobs, s, j) && LandedBefore(steps, r, j);
      DoneIsLanded(run, steps, timeout, r, j);
      assert j in DoneIn(run[r].jobs, s);
    }
  }

  /** Without a crash a finalized set was decided exactly once, at step k, on what its flight had read again at
      step r; its tail ran (once) if and only if some disc had landed before r and the directory was there at k. */
  lemma TailIffLanded(run: seq<State>, steps: seq<Step>, timeout: int, n: nat, s: SetId)
    returns (r: nat, t: nat, degraded: bool, order: seq<JobId>, k: nat)
    requires IsRun(run, steps, timeout) && n < |run| && run[n].crashes == 0 && Finalized(run[n].jobs, s)
    ensures r < k && Rereads(run, steps, r, t, s, degraded, order) && OneDecision(run, steps, n, s, k)
    ensures run[n].tails[s] == if SomethingLanded(run, steps, r, s) && steps[k].choice != NoTail then 1 else 0
  {
    RunStory(run, steps, timeout, n, s);
    k :| OneDecision(run, steps, n, s, k);
    var pc := run[k].threads[steps[k].t].pc;
    ViewsTraced(run, steps, timeout, k, steps[k].t);
    r, t :| r < k && Rereads(run, steps, r, t, s, pc.degraded, pc.order) && pc.view == run[r].jobs;
    degraded, order := pc.degraded, pc.order;
    LandedInView(run, steps, timeout, r, s);
  }

  // ---------- A complete set without a tail ----------

  ghost predicate SomeBusy(st: State, s: SetId) { exists t :: Busy(st, s, t) }

  lemma SweepReadsNothing() returns (run: seq<State>, steps: seq<Step>)
    ensures IsRun(run, steps, 10) && run[|run| - 1].jobs == map[1 := LATE] && run[|run| - 1].rows == []
    ensures run[|run| - 1].importing == {"x"} && run[|run| - 1].crashes == 0 && run[|run| - 1].tails == multiset{}
    ensures run[|run| - 1].threads.Keys == {0}
    ensures run[|run| - 1].threads[0].pc == Work("x", true, [1], map[1 := LATE], ToRun)
  {
    run, steps := OverdueSweep();
    run, steps := RunPush(run, steps, 10, Advance(0, Go));
    assert !Finalized(map[1 := LATE], "x") && IsOrder([1], map[1 := LATE], "x");
    run, steps := RunPush(run, steps, 10, Advance(0, Listing([1])));
  }

  lemma DiscFindsFlightTaken() returns (run: seq<State>, steps: seq<Step>)
    ensures IsRun(run, steps, 10) && run[|run| - 1].jobs == map[1 := LATE.(done := true)] && run[|run| - 1].rows == []
    ensures run[|run| - 1].importing == {"x"} && run[|run| - 1].crashes == 0 && run[|run| - 1].tails == multiset{}
    ensures run[|run| - 1].threads.Keys == {0, 5} && run[|run| - 1].threads[5].pc == Return
    ensures run[|run| - 1].threads[0].pc == Work("x", true, [1], map[1 := LATE], ToRun)
  {
    run, steps := SweepReadsNothing();
    run, steps := RunPush(run, steps, 10, Land(5, 1));
    var jobs := map[1 := LATE.(done := true)];
    assert run[|run| - 1].jobs == jobs;
    assert DoneIn(jobs, "x") == {1} && IsMember(jobs, "x", 1) && Complete(jobs, "x") && !Finalized(jobs, "x");
    run, steps := RunPush(run, steps, 10, Advance(5, Go));
    run, steps := RunPush(run, steps, 10, Advance(5, Go));
  }

  /** A sweep reads an overdue set with nothing landed; its one disc lands, finds the flight taken and leaves; the
      sweep marks the set. It is complete and finalized, nobody is left to act, and it has no tail and no row. */
  lemma CompleteWithoutTail() returns (run: seq<State>, steps: seq<Step>)
    ensures IsRun(run, steps, 10) && run[|run| - 1].crashes == 0
    ensures Complete(run[|run| - 1].jobs, "x") && Finalized(run[|run| - 1].jobs, "x")
    ensures !SomeBusy(run[|run| - 1], "x")
    ensures run[|run| - 1].tails["x"] == 0 && run[|run| - 1].rows == []
  {
    run, steps := DiscFindsFlightTaken();
    assert DoneIn(map[1 := LATE], "x") == {};
    run, steps := RunPush(run, steps, 10, Advance(0, Go));
    run, steps := RunPush(run, steps, 10, Advance(0, Go));
    run, steps := RunPush(run, steps, 10, Advance(0, Go));
    run, steps := RunPush(run, steps, 10, Advance(0, Go));
    var jobs := run[|run| - 1].jobs;
    assert jobs == map[1 := LATE.(done := true, finalized := true)];
    assert DoneIn(jobs, "x") == {1} && IsMember(jobs, "x", 1);
  }

  // ---------- Finalizes that are lost ----------

  /** Complete, not finalized, and nobody under way. */
  ghost predicate Lost(st: State, s: SetId) {
    st.crashes == 0 && Complete(st.jobs, s) && !Finalized(st.jobs, s) && !SomeBusy(st, s)
  }

  /** Only a set none of whose landed members declares a positive total can be lost. */
  lemma LostIsUncounted(run: seq<State>, steps: seq<Step>, timeout: int, n: nat, s: SetId)
    requires IsRun(run, steps, timeout) && n < |run| && Lost(run[n], s)
    ensures !Counted(run[n].jobs, s)
  {
    if Counted(run[n].jobs, s) {
      NoLostFinalize(run, steps, timeout, n, s);
    }
  }

  /** And any such set that is idle is lost by the next member it gets with a total already met. */
  lemma UncountedIsLost(run: seq<State>, steps: seq<Step>, timeout: int, s: SetId, j: JobId, job: Job)
    returns (run': seq<State>, steps': seq<Step>)
    requires IsRun(run, steps, timeout) && run[|run| - 1].crashes == 0 && !SomeBusy(run[|run| - 1], s)
    requires var jobs := run[|run| - 1].jobs;
      && !Finalized(jobs, s) && j !in jobs && job.setId == s && !job.done && !job.finalized
      && !Counted(jobs, s) && (forall k :: IsMember(jobs, s, k) ==> jobs[k].total <= |DoneIn(jobs, s)|)
      && 1 <= job.total <= |DoneIn(jobs, s)|
    ensures IsRun(run', steps', timeout) && Lost(run'[|run'| - 1], s)
  {
    var st := run[|run| - 1];
    run', steps' := RunPush(run, steps, timeout, CreateJob(j, job));
    var after := run'[|run'| - 1];
    CreatedIsComplete(st.jobs, s, j, job);
    assert forall t :: Busy(after, s, t) ==> Busy(st, s, t);
  }

  lemma CreatedIsComplete(jobs: Jobs, s: SetId, j: JobId, job: Job)
    requires j !in jobs && job.setId == s && !job.done && !job.finalized && !Finalized(jobs, s)
    requires forall k :: IsMember(jobs, s, k) ==> jobs[k].total <= |DoneIn(jobs, s)|
    requires 1 <= job.total <= |DoneIn(jobs, s)|
    ensures Complete(jobs[j := job], s) && !Finalized(jobs[j := job], s)
  {
    var b := jobs[j := job];
    assert DoneIn(b, s) == DoneIn(jobs, s);
    assert IsMember(b, s, j) && b[j].total > 0;
    forall k | IsMember(b, s, k)
      ensures b[k].total <= |DoneIn(b, s)| && !b[k].finalized
    {
      assert k == j || IsMember(jobs, s, k);
    }
  }

  const UNCOUNTED: Job := Job("x", 1, 0, false, false, false, 1)
  const COUNTED: Job := Job("x", 2, 1, false, false, false, 1)

  /** A concrete one: a disc lands that declares no total, and the next member's declared total is met before
      anyone looks again. */
  lemma ZeroTotalIsLost() returns (run: seq<State>, steps: seq<Step>)
    ensures IsRun(run, steps, 10) && Lost(run[|run| - 1], "x")
  {
    run, steps := RunPush([INITIAL], [], 10, CreateJob(1, UNCOUNTED));
    run, steps := RunPush(run, steps, 10, Land(5, 1));
    var jobs := map[1 := UNCOUNTED.(done := true)];
    assert run[|run| - 1].jobs == jobs;
    assert !Complete(jobs, "x");
    run, steps := RunPush(run, steps, 10, Advance(5, Go));
    assert DoneIn(jobs, "x") == {1};
    run, steps := UncountedIsLost(run, steps, 10, "x", 2, COUNTED);
  }
}
