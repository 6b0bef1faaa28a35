/** internal/download/discset.go: what the markers on library rows say of the discs that landed. */
module DiscSetMarkers {
  import opened Options
  import opened DiscSet
  import opened DiscSetSteps

  // ---------- A marker that says "complete" is complete ----------

  /** Members of `s` agree on the total and carry distinct indices within it. */
  ghost predicate Uniform(jobs: Jobs, s: SetId) {
    && TotalsAgree(jobs, s)
    && (forall j :: IsMember(jobs, s, j) ==> 1 <= jobs[j].index <= jobs[j].total)
    && (forall j, k :: IsMember(jobs, s, j) && IsMember(jobs, s, k) && j != k ==> jobs[j].index != jobs[k].index)
  }

  function UpTo(n: nat): seq<int> { seq(n, i => i + 1) }

  /** A thread that will write a non-degraded marker has seen the set complete. */
  ghost predicate SawComplete(jobs: Jobs, pc: Pc, s: SetId) {
    match pc
    case Lock(s', degraded) => s' == s && !degraded ==> Complete(jobs, s)
    case Reread(s', degraded) => s' == s && !degraded ==> Complete(jobs, s)
    case Work(s', degraded, _, view, _) => s' == s ==> Uniform(view, s) && (!degraded ==> Complete(view, s))
    case _ => true
  }

  ghost predicate RowsComplete(rows: seq<Row>, s: SetId) {
    forall i :: 0 <= i < |rows| && rows[i].setId == s && rows[i].marker.Some? ==> RowComplete(rows[i])
  }

  ghost predicate MarkersComplete(st: State, s: SetId) {
    RowsComplete(st.rows, s) && forall t :: t in st.threads ==> SawComplete(st.jobs, st.threads[t].pc, s)
  }

  /** The marker lists every disc, or it says degraded and lists fewer. */
  ghost predicate RowComplete(row: Row)
    requires row.marker.Some?
  {
    var mk := row.marker.value;
    mk.total >= 1 && (mk.have == UpTo(mk.total) || (mk.degraded && |mk.have| < mk.total))
  }

  function LandedAmong(order: seq<JobId>, view: Jobs): set<JobId> {
    set j | j in order && j in view && view[j].done
  }

  lemma LandedPush(init: seq<JobId>, last: JobId, view: Jobs)
    requires last !in init && last in view
    ensures |LandedAmong(init + [last], view)| == |LandedAmong(init, view)| + if view[last].done then 1 else 0
  {
    assert LandedAmong(init + [last], view) == LandedAmong(init, view) + if view[last].done then {last} else {};
  }

  lemma {:induction false} HaveSize(order: seq<JobId>, view: Jobs, s: SetId)
    requires Listed(order, view, s)
    ensures |HaveOf(order, view)| == |LandedAmong(order, view)|
  {
    if order != [] {
      var init, last := order[..|order| - 1], order[|order| - 1];
      HaveSize(init, view, s);
      LandedPush(init, last, view);
      assert order == init + [last];
    }
  }

  lemma {:induction false} HaveSource(order: seq<JobId>, view: Jobs, s: SetId, i: nat) returns (k: nat)
    requires Listed(order, view, s) && i < |HaveOf(order, view)|
    ensures k < |order| && HaveOf(order, view)[i] == view[order[k]].index
  {
    var init := order[..|order| - 1];
    if i < |HaveOf(init, view)| {
      k := HaveSource(init, view, s, i);
    } else {
      k := |order| - 1;
    }
  }

  lemma {:induction false} HaveMembers(order: seq<JobId>, view: Jobs, index: int)
    requires forall i :: 0 <= i < |order| ==> order[i] in view
    ensures index in HaveOf(order, view) <==>
            exists i :: 0 <= i < |order| && view[order[i]].done && view[order[i]].index == index
  {
    if order != [] {
      var n := |order| - 1;
      HaveMembers(order[..n], view, index);
      if i :| 0 <= i < n && view[order[..n][i]].done && view[order[..n][i]].index == index {
        assert view[order[i]].done && view[order[i]].index == index;
      }
    }
  }

  lemma {:induction false} HaveAscends(order: seq<JobId>, view: Jobs, s: SetId, i: nat, k: nat)
    requires Listed(order, view, s) && Uniform(view, s) && i < k < |HaveOf(order, view)|
    ensures HaveOf(order, view)[i] < HaveOf(order, view)[k]
  {
    var init, last := order[..|order| - 1], order[|order| - 1];
    if k < |HaveOf(init, view)| {
      HaveAscends(init, view, s, i, k);
    } else {
      var from := HaveSource(init, view, s, i);
      assert IsMember(view, s, order[from]) && IsMember(view, s, last) && order[from] != last;
    }
  }

  /** Pigeonhole: an ascending list within 1..n is no longer than n, and is 1..n when it is n long. */
  lemma {:induction false} AscendingFits(have: seq<int>, n: nat, i: nat)
    requires forall i, k :: 0 <= i < k < |have| ==> have[i] < have[k]
    requires forall i :: 0 <= i < |have| ==> 1 <= have[i] <= n
    requires i <= |have|
    ensures forall k :: 0 <= k < i ==> k + 1 <= have[k]
    ensures forall k :: |have| - i <= k < |have| ==> have[k] <= n - (|have| - 1 - k)
    ensures i <= n
  {
    if i > 0 {
      AscendingFits(have, n, i - 1);
      assert i >= 2 ==> have[i - 2] < have[i - 1];
      assert i >= 2 ==> have[|have| - i] < have[|have| - i + 1];
      assert i <= have[i - 1] <= n;
    }
  }

  /** What a marker says: all of 1..total exactly when the view it was taken from was complete. */
  lemma MarkerShape(order: seq<JobId>, view: Jobs, s: SetId, degraded: bool)
    requires IsOrder(order, view, s) && Uniform(view, s) && order != []
    ensures var mk := MarkerOf(order, view, degraded);
      && mk.total >= 1
      && (Complete(view, s) <==> mk.have == UpTo(mk.total))
      && (!Complete(view, s) <==> |mk.have| < mk.total)
  {
    var mk := MarkerOf(order, view, degraded);
    var have, n := mk.have, mk.total;
    assert IsMember(view, s, order[0]);
    forall i | 0 <= i < |have|
      ensures 1 <= have[i] <= n
    {
      var k := HaveSource(order, view, s, i);
      assert IsMember(view, s, order[k]);
    }
    forall i, k | 0 <= i < k < |have|
      ensures have[i] < have[k]
    {
      HaveAscends(order, view, s, i, k);
    }
    AscendingFits(have, n, |have|);
    HaveSize(order, view, s);
    assert LandedAmong(order, view) == DoneIn(view, s) by {
      assert forall j :: j in order ==> IsMember(view, s, j);
    }
    assert |have| == n ==> have == UpTo(n);
  }

  lemma SweepSawComplete(st: State, t: nat, choice: Choice, timeout: int, s: SetId)
    requires Knows(st) && Enabled(st, Advance(t, choice), timeout) && st.threads[t].pc.Return?
    requires TotalsAgree(st.jobs, s)
    ensures SawComplete(st.jobs, NextPc(st, t, choice, timeout).pc, s)
  {
    var snap := st.threads[t].sweep.value.snap;
    if choice.s == s && Verdict(snap, s, st.threads[t].sweep.value.now, timeout) == Some(false) {
      CompleteExtends(snap, st.jobs, s);
    }
  }

  lemma MoverSawComplete(st: State, t: nat, choice: Choice, timeout: int, s: SetId)
    requires Enabled(st, Advance(t, choice), timeout) && !st.threads[t].pc.Return?
    requires SawComplete(st.jobs, st.threads[t].pc, s) && Uniform(st.jobs, s)
    ensures SawComplete(st.jobs, NextPc(st, t, choice, timeout).pc, s)
  {
    var was, now := st.threads[t].pc, NextPc(st, t, choice, timeout).pc;
    match was
    case Scan(_) =>
    case Lock(_, _) =>
    case Reread(_, _) =>
    case Work(_, degraded, _, view, _) =>
      assert now.Mark? || (now.Work? && now.s == was.s && now.degraded == degraded && now.view == view);
    case Mark(_, _, _) =>
    case Release(_) =>
  }

  /** A row a step leaves was there before, is new and bare, or just got its marker. */
  lemma RowComes(st: State, step: Step, timeout: int, row: Row)
    requires Enabled(st, step, timeout) && row in Apply(st, step, timeout).rows && row.marker.Some?
    ensures row in st.rows || (step.Advance? && st.threads[step.t].pc.Work? && st.threads[step.t].pc.s == row.setId
                               && var pc := st.threads[step.t].pc;
                                  row.marker.value == MarkerOf(pc.order, pc.view, pc.degraded))
  {
    var rows := Apply(st, step, timeout).rows;
    var i :| 0 <= i < |rows| && rows[i] == row;
    if step.DropRow? {
      assert rows[i] == st.rows[if i < step.i then i else i + 1];
    }
  }

  lemma RowsCompleteStep(st: State, step: Step, timeout: int, s: SetId)
    requires Knows(st) && MarkersComplete(st, s) && Enabled(st, step, timeout)
    ensures RowsComplete(Apply(st, step, timeout).rows, s)
  {
    var rows := Apply(st, step, timeout).rows;
    forall i | 0 <= i < |rows| && rows[i].setId == s && rows[i].marker.Some?
      ensures RowComplete(rows[i])
    {
      RowComes(st, step, timeout, rows[i]);
      if rows[i] !in st.rows {
        SavedComplete(st, step, s, rows[i]);
      }
    }
  }

  lemma SavedComplete(st: State, step: Step, s: SetId, row: Row)
    requires Knows(st) && MarkersComplete(st, s) && step.Advance? && step.t in st.threads
    requires st.threads[step.t].pc.Work? && st.threads[step.t].pc.s == s && row.marker.Some?
    requires var pc := st.threads[step.t].pc; row.marker.value == MarkerOf(pc.order, pc.view, pc.degraded)
    ensures RowComplete(row)
  {
    var pc := st.threads[step.t].pc;
    assert KnowsOk(st.jobs, pc) && SawComplete(st.jobs, pc, s);
    MarkerShape(pc.order, pc.view, s, pc.degraded);
  }

  lemma SawKept(a: Jobs, b: Jobs, pc: Pc, s: SetId)
    requires SawComplete(a, pc, s) && (Complete(a, s) ==> Complete(b, s))
    ensures SawComplete(b, pc, s)
  {
  }

  lemma SawThread(st: State, step: Step, timeout: int, s: SetId, t: nat)
    requires Knows(st) && MarkersComplete(st, s) && Enabled(st, step, timeout) && Uniform(st.jobs, s)
    requires t in Apply(st, step, timeout).threads
    ensures SawComplete(st.jobs, Apply(st, step, timeout).threads[t].pc, s)
  {
    if Mover(step) != Some(t) {
      OthersStay(st, step, timeout, t);
    } else if step.Advance? {
      MoverMoves(st, t, step.choice, timeout);
      if st.threads[t].pc.Return? {
        SweepSawComplete(st, t, step.choice, timeout, s);
      } else {
        MoverSawComplete(st, t, step.choice, timeout, s);
      }
    }
  }

  lemma MarkersStep(st: State, step: Step, timeout: int, s: SetId)
    requires Knows(st) && MarkersComplete(st, s) && Enabled(st, step, timeout)
    requires Uniform(st.jobs, s) && Uniform(Apply(st, step, timeout).jobs, s)
    ensures MarkersComplete(Apply(st, step, timeout), s)
  {
    var b := Apply(st, step, timeout).jobs;
    JobsExtend(st, step, timeout);
    if Complete(st.jobs, s) {
      CompleteExtends(st.jobs, b, s);
    }
    RowsCompleteStep(st, step, timeout, s);
    forall t | t in Apply(st, step, timeout).threads
      ensures SawComplete(b, Apply(st, step, timeout).threads[t].pc, s)
    {
      SawThread(st, step, timeout, s, t);
      SawKept(st.jobs, b, Apply(st, step, timeout).threads[t].pc, s);
    }
  }
}
