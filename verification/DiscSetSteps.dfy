/** internal/download/discset.go: what every single step of the disc-set machine keeps. */
module DiscSetSteps {
  import opened Options
  import opened DiscSet

  // ---------- Jobs only ever move forward ----------

  ghost predicate Extends(a: Jobs, b: Jobs) {
    forall j :: j in a ==>
      && j in b && a[j].setId == b[j].setId && a[j].index == b[j].index && a[j].total == b[j].total
      && (a[j].done ==> b[j].done) && (a[j].finalized ==> b[j].finalized)
  }

  lemma JobsExtend(st: State, step: Step, timeout: int)
    requires Enabled(st, step, timeout)
    ensures Extends(st.jobs, Apply(st, step, timeout).jobs)
  {
  }

  lemma SubsetSize<T>(a: set<T>, b: set<T>)
    requires a <= b
    ensures |a| <= |b|
  {
    assert |b| == |a| + |b - a| by { assert b == a + (b - a); }
  }

  lemma ExtendsFacts(a: Jobs, b: Jobs, s: SetId)
    requires Extends(a, b)
    ensures HasMember(a, s) ==> HasMember(b, s)
    ensures Finalized(a, s) ==> Finalized(b, s)
    ensures |DoneIn(a, s)| <= |DoneIn(b, s)|
  {
    if j :| IsMember(a, s, j) { assert IsMember(b, s, j); }
    if j :| IsMember(a, s, j) && a[j].finalized { assert IsMember(b, s, j); }
    SubsetSize(DoneIn(a, s), DoneIn(b, s));
  }

  /** Members of one set declare one total. */
  ghost predicate TotalsAgree(jobs: Jobs, s: SetId) {
    forall j, k :: IsMember(jobs, s, j) && IsMember(jobs, s, k) ==> jobs[j].total == jobs[k].total
  }

  lemma CompleteExtends(a: Jobs, b: Jobs, s: SetId)
    requires Extends(a, b) && Complete(a, s) && TotalsAgree(b, s)
    ensures Complete(b, s)
  {
    ExtendsFacts(a, b, s);
    var j :| IsMember(a, s, j) && a[j].total > 0;
    assert IsMember(b, s, j);
  }

  // ---------- Single flight ----------

  predicate Holds(pc: Pc, s: SetId) { (pc.Reread? || pc.Work? || pc.Mark? || pc.Release?) && pc.s == s }

  ghost predicate HolderOf(st: State, s: SetId, t: nat) { t in st.threads && Holds(st.threads[t].pc, s) }

  ghost predicate Mutex(st: State) {
    && (forall t, s :: HolderOf(st, s, t) ==> s in st.importing)
    && (forall t, u, s :: HolderOf(st, s, t) && HolderOf(st, s, u) ==> t == u)
    && (forall s :: s in st.importing ==> exists t :: HolderOf(st, s, t))
  }

  /** A step moves at most its own thread. */
  function Mover(step: Step): Option<nat> {
    match step
    case Land(t, _) => Some(t)
    case StartSweep(t, _) => Some(t)
    case Advance(t, _) => Some(t)
    case _ => None
  }

  lemma OthersStay(st: State, step: Step, timeout: int, u: nat)
    requires Enabled(st, step, timeout) && Mover(step) != Some(u) && u in Apply(st, step, timeout).threads
    ensures u in st.threads && Apply(st, step, timeout).threads[u] == st.threads[u] && !step.Crash?
  {
  }

  lemma NoneDropped(st: State, step: Step, timeout: int, u: nat)
    requires Enabled(st, step, timeout) && !step.Crash? && u in st.threads
    ensures u in Apply(st, step, timeout).threads
    ensures Apply(st, step, timeout).threads[u] == st.threads[u] || (step.Advance? && step.t == u)
  {
  }

  lemma MoverMoves(st: State, t: nat, choice: Choice, timeout: int)
    requires Enabled(st, Advance(t, choice), timeout)
    ensures Apply(st, Advance(t, choice), timeout).threads == st.threads[t := NextPc(st, t, choice, timeout)]
    ensures Apply(st, Advance(t, choice), timeout).jobs == if st.threads[t].pc.Mark? then Marked(st, t) else st.jobs
  {
  }

  /** The jobs after a marking thread's step. */
  ghost function Marked(st: State, t: nat): Jobs
    requires t in st.threads && st.threads[t].pc.Mark?
  {
    var pc := st.threads[t].pc;
    if pc.k < |pc.order| && pc.order[pc.k] in st.jobs
    then st.jobs[pc.order[pc.k] := st.jobs[pc.order[pc.k]].(finalized := true)] else st.jobs
  }

  /** A thread comes to hold a flight only by taking a free one. */
  lemma HolderComes(st: State, step: Step, timeout: int, s: SetId, u: nat)
    requires Enabled(st, step, timeout) && HolderOf(Apply(st, step, timeout), s, u)
    ensures step != Crash
    ensures HolderOf(st, s, u) || (s !in st.importing && Mover(step) == Some(u) &&
        s in Apply(st, step, timeout).importing)
  {
    if Mover(step) != Some(u) {
      OthersStay(st, step, timeout, u);
    }
  }

  lemma MutexStep(st: State, step: Step, timeout: int)
    requires Mutex(st) && Enabled(st, step, timeout)
    ensures Mutex(Apply(st, step, timeout))
  {
    var st' := Apply(st, step, timeout);
    forall t, s | HolderOf(st', s, t)
      ensures s in st'.importing
    {
      HolderComes(st, step, timeout, s, t);
      if HolderOf(st, s, t) && step.Advance? && st.threads[step.t].pc == Release(s) {
        assert HolderOf(st, s, step.t);
      }
    }
    forall t, u, s | HolderOf(st', s, t) && HolderOf(st', s, u)
      ensures t == u
    {
      HolderComes(st, step, timeout, s, t);
      HolderComes(st, step, timeout, s, u);
    }
    forall s | s in st'.importing
      ensures exists t :: HolderOf(st', s, t)
    {
      if s in st.importing {
        var t :| HolderOf(st, s, t);
        assert HolderOf(st', s, t);
      } else {
        assert HolderOf(st', s, step.t);
      }
    }
  }

  // ---------- What a thread in the middle of a finalize knows ----------

  ghost predicate KnowsOk(jobs: Jobs, pc: Pc) {
    match pc
    case Lock(s, _) => HasMember(jobs, s)
    case Reread(s, _) => HasMember(jobs, s)
    case Work(s, _, order, view, _) =>
      order != [] && IsOrder(order, view, s) && Extends(view, jobs) && !Finalized(jobs, s)
    case Mark(s, order, k) =>
      && order != [] && k <= |order| && (forall i :: 0 <= i < |order| ==> IsMember(jobs, s, order[i]))
      && forall i :: 0 <= i < k ==> jobs[order[i]].finalized
    case Release(s) => Finalized(jobs, s)
    case _ => true
  }

  ghost predicate Knows(st: State) {
    && (forall t :: t in st.threads ==> KnowsOk(st.jobs, st.threads[t].pc))
    && (forall t :: t in st.threads && st.threads[t].sweep.Some? ==> Extends(st.threads[t].sweep.value.snap, st.jobs))
  }

  lemma ExtendsTrans(a: Jobs, b: Jobs, c: Jobs)
    requires Extends(a, b) && Extends(b, c)
    ensures Extends(a, c)
  {
  }

  /** Only the holder of a set's flight finalizes its members. */
  lemma OnlyHolderFinalizes(st: State, step: Step, timeout: int, s: SetId)
    requires Knows(st) && Enabled(st, step, timeout)
    requires !Finalized(st.jobs, s) && Finalized(Apply(st, step, timeout).jobs, s)
    ensures step.Advance? && HolderOf(st, s, step.t) && st.threads[step.t].pc.Mark?
  {
    var st' := Apply(st, step, timeout);
    var j :| IsMember(st'.jobs, s, j) && st'.jobs[j].finalized;
    if IsMember(st.jobs, s, j) {
      assert !st.jobs[j].finalized;
    }
  }

  /** What a thread knows stays true of later jobs, unless its set was finalized under it. */
  lemma KnowsKept(a: Jobs, b: Jobs, pc: Pc)
    requires Extends(a, b) && KnowsOk(a, pc) && (pc.Work? ==> !Finalized(b, pc.s))
    ensures KnowsOk(b, pc)
  {
    match pc
    case Work(s, _, _, view, _) => ExtendsTrans(view, a, b);
    case Mark(s, order, k) => assert forall i :: 0 <= i < |order| ==> IsMember(b, s, order[i]);
    case Lock(s, _) => ExtendsFacts(a, b, s);
    case Reread(s, _) => ExtendsFacts(a, b, s);
    case Release(s) => ExtendsFacts(a, b, s);
    case Scan(_) =>
    case Return =>
  }

  lemma KnowsOther(st: State, step: Step, timeout: int, u: nat)
    requires Mutex(st) && Knows(st) && Enabled(st, step, timeout)
    requires Mover(step) != Some(u) && u in Apply(st, step, timeout).threads
    ensures KnowsOk(Apply(st, step, timeout).jobs, Apply(st, step, timeout).threads[u].pc)
  {
    OthersStay(st, step, timeout, u);
    JobsExtend(st, step, timeout);
    var pc := st.threads[u].pc;
    if pc.Work? && Finalized(Apply(st, step, timeout).jobs, pc.s) {
      OnlyHolderFinalizes(st, step, timeout, pc.s);
      assert HolderOf(st, pc.s, u);
      assert false;
    }
    KnowsKept(st.jobs, Apply(st, step, timeout).jobs, pc);
  }

  lemma KnowsAfterMark(st: State, t: nat, choice: Choice, timeout: int)
    requires Knows(st) && Enabled(st, Advance(t, choice), timeout) && st.threads[t].pc.Mark?
    ensures KnowsOk(Marked(st, t), NextPc(st, t, choice, timeout).pc)
  {
    var pc := st.threads[t].pc;
    assert KnowsOk(st.jobs, pc);
    if pc.k == |pc.order| {
      assert IsMember(st.jobs, pc.s, pc.order[0]) && st.jobs[pc.order[0]].finalized;
    } else {
      var b := Marked(st, t);
      assert IsMember(st.jobs, pc.s, pc.order[pc.k]);
      assert forall i :: 0 <= i < |pc.order| ==> IsMember(b, pc.s, pc.order[i]);
    }
  }

  lemma KnowsAfterWork(st: State, t: nat, choice: Choice, timeout: int)
    requires Knows(st) && Enabled(st, Advance(t, choice), timeout) && st.threads[t].pc.Work?
    ensures KnowsOk(st.jobs, NextPc(st, t, choice, timeout).pc)
  {
    var pc := st.threads[t].pc;
    assert KnowsOk(st.jobs, pc);
    MarkStart(st.jobs, pc.s, pc.order, pc.view);
  }

  lemma MarkStart(jobs: Jobs, s: SetId, order: seq<JobId>, view: Jobs)
    requires order != [] && IsOrder(order, view, s) && Extends(view, jobs)
    ensures KnowsOk(jobs, Mark(s, order, 0))
  {
    assert forall i :: 0 <= i < |order| ==> IsMember(view, s, order[i]);
    assert forall i :: 0 <= i < |order| ==> IsMember(jobs, s, order[i]);
  }

  lemma KnowsAfterReread(st: State, t: nat, choice: Choice, timeout: int)
    requires Knows(st) && Enabled(st, Advance(t, choice), timeout) && st.threads[t].pc.Reread?
    ensures KnowsOk(st.jobs, NextPc(st, t, choice, timeout).pc)
  {
    var s := st.threads[t].pc.s;
    assert KnowsOk(st.jobs, st.threads[t].pc);
    var j :| IsMember(st.jobs, s, j);
    assert j in choice.order;
  }

  lemma KnowsAfterRest(st: State, t: nat, choice: Choice, timeout: int)
    requires Knows(st) && Enabled(st, Advance(t, choice), timeout)
    requires var pc := st.threads[t].pc; !pc.Mark? && !pc.Work? && !pc.Reread?
    ensures KnowsOk(st.jobs, NextPc(st, t, choice, timeout).pc)
  {
    var pc := st.threads[t].pc;
    assert KnowsOk(st.jobs, pc);
    if pc.Return? {
      ExtendsFacts(st.threads[t].sweep.value.snap, st.jobs, choice.s);
    }
  }

  lemma KnowsMover(st: State, t: nat, choice: Choice, timeout: int)
    requires Knows(st) && Enabled(st, Advance(t, choice), timeout)
    ensures KnowsOk(Apply(st, Advance(t, choice), timeout).jobs, NextPc(st, t, choice, timeout).pc)
  {
    MoverMoves(st, t, choice, timeout);
    match st.threads[t].pc
    case Mark(_, _, _) => KnowsAfterMark(st, t, choice, timeout);
    case Work(_, _, _, _, _) => KnowsAfterWork(st, t, choice, timeout);
    case Reread(_, _) => KnowsAfterReread(st, t, choice, timeout);
    case _ => KnowsAfterRest(st, t, choice, timeout);
  }

  lemma KnowsThread(st: State, step: Step, timeout: int, t: nat)
    requires Mutex(st) && Knows(st) && Enabled(st, step, timeout) && t in Apply(st, step, timeout).threads
    ensures KnowsOk(Apply(st, step, timeout).jobs, Apply(st, step, timeout).threads[t].pc)
  {
    if Mover(step) != Some(t) {
      KnowsOther(st, step, timeout, t);
    } else if step.Advance? {
      KnowsMover(st, t, step.choice, timeout);
      MoverMoves(st, t, step.choice, timeout);
    }
  }

  lemma SnapSource(st: State, step: Step, timeout: int, t: nat)
    requires Enabled(st, step, timeout)
    requires t in Apply(st, step, timeout).threads && Apply(st, step, timeout).threads[t].sweep.Some?
    ensures var snap := Apply(st, step, timeout).threads[t].sweep.value.snap;
            snap == st.jobs || (t in st.threads && st.threads[t].sweep.Some? && snap == st.threads[t].sweep.value.snap)
  {
    if Mover(step) != Some(t) {
      OthersStay(st, step, timeout, t);
    } else if step.Advance? {
      MoverMoves(st, t, step.choice, timeout);
    }
  }

  lemma SnapStays(st: State, step: Step, timeout: int, t: nat)
    requires Knows(st) && Enabled(st, step, timeout)
    requires t in Apply(st, step, timeout).threads && Apply(st, step, timeout).threads[t].sweep.Some?
    ensures Extends(Apply(st, step, timeout).threads[t].sweep.value.snap, Apply(st, step, timeout).jobs)
  {
    JobsExtend(st, step, timeout);
    SnapSource(st, step, timeout, t);
    ExtendsTrans(Apply(st, step, timeout).threads[t].sweep.value.snap, st.jobs, Apply(st, step, timeout).jobs);
  }

  lemma KnowsStep(st: State, step: Step, timeout: int)
    requires Mutex(st) && Knows(st) && Enabled(st, step, timeout)
    ensures Knows(Apply(st, step, timeout))
  {
    forall t | t in Apply(st, step, timeout).threads
      ensures KnowsOk(Apply(st, step, timeout).jobs, Apply(st, step, timeout).threads[t].pc)
    {
      KnowsThread(st, step, timeout, t);
    }
    forall t | t in Apply(st, step, timeout).threads && Apply(st, step, timeout).threads[t].sweep.Some?
      ensures Extends(Apply(st, step, timeout).threads[t].sweep.value.snap, Apply(st, step, timeout).jobs)
    {
      SnapStays(st, step, timeout, t);
    }
  }

  // ---------- At most one tail, at most one row ----------

  /** A thread past the tail but not yet marking. */
  ghost predicate PastTail(st: State, s: SetId, t: nat) {
    HolderOf(st, s, t) && (st.threads[t].pc.Mark? || (st.threads[t].pc.Work? && st.threads[t].pc.phase != ToRun))
  }

  /** `s` is finalized, or in a flight past its tail. */
  ghost predicate Past(st: State, s: SetId) { Finalized(st.jobs, s) || exists t :: PastTail(st, s, t) }

  ghost predicate TailsBounded(st: State) {
    forall s :: st.tails[s] <= st.crashes + 1 && (st.tails[s] == st.crashes + 1 ==> Past(st, s))
  }

  /** At this step a thread in the flight of `s` decides about the tail. */
  ghost predicate Decision(st: State, step: Step, s: SetId) {
    && step.Advance? && step.t in st.threads
    && st.threads[step.t].pc.Work? && st.threads[step.t].pc.s == s && st.threads[step.t].pc.phase == ToRun
  }

  ghost predicate ForTail(st: State, step: Step, s: SetId)
    requires Decision(st, step, s)
  {
    RunsTail(st.threads[step.t].pc.view, s, step.choice)
  }

  lemma TailsChange(st: State, step: Step, timeout: int, s: SetId)
    requires Enabled(st, step, timeout)
    ensures Apply(st, step, timeout).tails[s]
            == st.tails[s] + if Decision(st, step, s) && ForTail(st, step, s) then 1 else 0
    ensures Apply(st, step, timeout).crashes == st.crashes + if step.Crash? then 1 else 0
  {
  }

  /** A decision is made by the one holder of the flight, before anything is finalized. */
  lemma DecisionIsFirst(st: State, step: Step, timeout: int, s: SetId)
    requires Mutex(st) && Knows(st) && Enabled(st, step, timeout) && Decision(st, step, s)
    ensures !Past(st, s) && Past(Apply(st, step, timeout), s)
  {
    var t := step.t;
    assert KnowsOk(st.jobs, st.threads[t].pc) && HolderOf(st, s, t);
    MoverMoves(st, t, step.choice, timeout);
    assert PastTail(Apply(st, step, timeout), s, t);
  }

  lemma PastStays(st: State, step: Step, timeout: int, s: SetId)
    requires Knows(st) && Enabled(st, step, timeout) && !step.Crash? && Past(st, s)
    ensures Past(Apply(st, step, timeout), s)
  {
    JobsExtend(st, step, timeout);
    ExtendsFacts(st.jobs, Apply(st, step, timeout).jobs, s);
    if !Finalized(st.jobs, s) {
      var t :| PastTail(st, s, t);
      if step.Advance? && step.t == t {
        var pc := st.threads[t].pc;
        assert KnowsOk(st.jobs, pc);
        assert pc.Mark? ==> IsMember(st.jobs, s, pc.order[0]);
        MoverMoves(st, t, step.choice, timeout);
      } else {
        NoneDropped(st, step, timeout, t);
      }
      assert PastTail(Apply(st, step, timeout), s, t);
    }
  }

  lemma TailsStep(st: State, step: Step, timeout: int)
    requires Mutex(st) && Knows(st) && TailsBounded(st) && Enabled(st, step, timeout)
    ensures TailsBounded(Apply(st, step, timeout))
  {
    var st' := Apply(st, step, timeout);
    forall s
      ensures st'.tails[s] <= st'.crashes + 1
      ensures st'.tails[s] == st'.crashes + 1 ==> Past(st', s)
    {
      TailsChange(st, step, timeout, s);
      assert st.tails[s] == st.crashes + 1 ==> Past(st, s);
      if Decision(st, step, s) {
        DecisionIsFirst(st, step, timeout, s);
      } else if Past(st, s) && !step.Crash? {
        PastStays(st, step, timeout, s);
      }
    }
  }

  ghost predicate RowsUnique(st: State) {
    && (forall i, k :: 0 <= i < k < |st.rows| ==> st.rows[i].setId != st.rows[k].setId)
    && (forall t :: t in st.threads && st.threads[t].pc.Work? && st.threads[t].pc.phase == ToInsert ==>
          !HasRow(st.rows, st.threads[t].pc.s))
  }

  lemma RowsStep(st: State, step: Step, timeout: int)
    requires Mutex(st) && RowsUnique(st) && Enabled(st, step, timeout)
    ensures RowsUnique(Apply(st, step, timeout))
  {
    var st' := Apply(st, step, timeout);
    forall t | t in st'.threads && st'.threads[t].pc.Work? && st'.threads[t].pc.phase == ToInsert
      ensures !HasRow(st'.rows, st'.threads[t].pc.s)
    {
      var s := st'.threads[t].pc.s;
      assert HolderOf(st', s, t);
      HolderComes(st, step, timeout, s, t);
      if Mover(step) != Some(t) {
        OthersStay(st, step, timeout, t);
        assert step.Advance? && st.threads[step.t].pc.Work? && st.threads[step.t].pc.s == s ==> HolderOf(st, s, step.t);
      }
    }
  }

  // ---------- No finalize is lost ----------

  /** Some landed member declares a positive total. */
  ghost predicate Counted(jobs: Jobs, s: SetId) {
    exists j :: IsMember(jobs, s, j) && jobs[j].done && jobs[j].total > 0
  }

  /** A thread that has landed a member of `s`, or is finalizing `s`, and has not returned. */
  ghost predicate Busy(st: State, s: SetId, t: nat) {
    t in st.threads && !st.threads[t].pc.Return? && st.threads[t].pc.s == s
  }

  ghost predicate NoneLost(st: State) {
    st.crashes == 0 ==>
      forall s :: Counted(st.jobs, s) && Complete(st.jobs, s) && !Finalized(st.jobs, s) ==>
        exists t :: Busy(st, s, t)
  }

  ghost predicate DoneBefore(a: Jobs, b: Jobs, s: SetId) {
    forall j :: IsMember(b, s, j) && b[j].done ==> IsMember(a, s, j) && a[j].done
  }

  lemma OnlyLandingCompletes(st: State, step: Step, timeout: int, s: SetId)
    requires Enabled(st, step, timeout) && !(step.Land? && st.jobs[step.j].setId == s)
    ensures DoneBefore(st.jobs, Apply(st, step, timeout).jobs, s)
  {
  }

  lemma CompleteBefore(a: Jobs, b: Jobs, s: SetId)
    requires Extends(a, b) && DoneBefore(a, b, s) && Counted(b, s) && Complete(b, s)
    ensures Complete(a, s) && Counted(a, s)
  {
    assert forall j :: IsMember(a, s, j) ==> IsMember(b, s, j);
    SubsetSize(DoneIn(b, s), DoneIn(a, s));
    var j :| IsMember(b, s, j) && b[j].done && b[j].total > 0;
    assert IsMember(a, s, j);
  }

  lemma CompleteComes(st: State, step: Step, timeout: int, s: SetId)
    requires Enabled(st, step, timeout) && Counted(Apply(st, step, timeout).jobs, s)
    requires Complete(Apply(st, step, timeout).jobs, s)
    ensures (Complete(st.jobs, s) && Counted(st.jobs, s)) || (step.Land? && st.jobs[step.j].setId == s)
  {
    if !(step.Land? && st.jobs[step.j].setId == s) {
      JobsExtend(st, step, timeout);
      OnlyLandingCompletes(st, step, timeout, s);
      CompleteBefore(st.jobs, Apply(st, step, timeout).jobs, s);
    }
  }

  /** A busy thread leaves a complete set only to another busy thread, or finalized. */
  lemma BusyHandsOver(st: State, t: nat, choice: Choice, timeout: int, s: SetId)
    requires Mutex(st) && Knows(st) && Enabled(st, Advance(t, choice), timeout)
    requires Busy(st, s, t) && Complete(st.jobs, s)
    ensures var st' := Apply(st, Advance(t, choice), timeout);
            Finalized(st.jobs, s) || Finalized(st'.jobs, s) || exists u :: Busy(st', s, u)
  {
    var st' := Apply(st, Advance(t, choice), timeout);
    var pc := st.threads[t].pc;
    assert KnowsOk(st.jobs, pc);
    if pc.Lock? && s in st.importing {
      var u :| HolderOf(st, s, u);
      assert Busy(st', s, u);
    } else if !pc.Release? && !Finalized(st.jobs, s) {
      assert Busy(st', s, t);
    }
  }

  /** A complete set somebody is busy with stays in somebody's hands or is finalized. */
  lemma StillBusy(st: State, step: Step, timeout: int, s: SetId, t: nat)
    requires Mutex(st) && Knows(st) && Enabled(st, step, timeout) && !step.Crash?
    requires Busy(st, s, t) && Complete(st.jobs, s)
    ensures Finalized(Apply(st, step, timeout).jobs, s) || exists u :: Busy(Apply(st, step, timeout), s, u)
  {
    if step.Advance? && step.t == t {
      BusyHandsOver(st, t, step.choice, timeout, s);
      JobsExtend(st, step, timeout);
      ExtendsFacts(st.jobs, Apply(st, step, timeout).jobs, s);
    } else {
      NoneDropped(st, step, timeout, t);
      assert Busy(Apply(st, step, timeout), s, t);
    }
  }

  lemma LandingIsBusy(st: State, step: Step, timeout: int, s: SetId)
    requires Enabled(st, step, timeout) && step.Land? && st.jobs[step.j].setId == s
    ensures Busy(Apply(st, step, timeout), s, step.t)
  {
  }

  lemma NoneLostStep(st: State, step: Step, timeout: int)
    requires Mutex(st) && Knows(st) && NoneLost(st) && Enabled(st, step, timeout)
    ensures NoneLost(Apply(st, step, timeout))
  {
    var b := Apply(st, step, timeout).jobs;
    JobsExtend(st, step, timeout);
    forall s | Apply(st, step, timeout).crashes == 0 && Counted(b, s) && Complete(b, s) && !Finalized(b, s)
      ensures exists t :: Busy(Apply(st, step, timeout), s, t)
    {
      ExtendsFacts(st.jobs, b, s);
      CompleteComes(st, step, timeout, s);
      if step.Land? && st.jobs[step.j].setId == s {
        LandingIsBusy(st, step, timeout, s);
      } else {
        var t :| Busy(st, s, t);
        StillBusy(st, step, timeout, s, t);
      }
    }
  }

  // ---------- A sweep leaves nothing behind ----------

  /** Sweep `t` has dealt with `s` and judged it ready. */
  ghost predicate Dealt(st: State, t: nat, s: SetId, timeout: int) {
    && t in st.threads && st.threads[t].sweep.Some? && s != ""
    && var sw := st.threads[t].sweep.value;
       Verdict(sw.snap, s, sw.now, timeout).Some? && s !in sw.todo
  }

  ghost predicate SweepsThorough(st: State, timeout: int) {
    forall t, s :: Dealt(st, t, s, timeout) ==> Settled(st, t, s)
  }

  lemma DealtComes(st: State, step: Step, timeout: int, t: nat, s: SetId)
    requires Enabled(st, step, timeout) && Dealt(Apply(st, step, timeout), t, s, timeout)
    ensures Dealt(st, t, s, timeout)
            || (var pc := Apply(st, step, timeout).threads[t].pc; pc.Lock? && pc.s == s)
  {
    assert forall j :: s != "" && IsMember(st.jobs, s, j) ==> s in SetIds(st.jobs);
  }

  lemma FlightEnds(st: State, step: Step, timeout: int, s: SetId)
    requires Knows(st) && Enabled(st, step, timeout) && s in st.importing && s !in Apply(st, step, timeout).importing
    ensures step.Crash? || Finalized(st.jobs, s)
  {
    if step.Advance? {
      assert KnowsOk(st.jobs, st.threads[step.t].pc);
    }
  }

  ghost predicate Settled(st: State, t: nat, s: SetId) {
    Finalized(st.jobs, s) || s in st.importing || (t in st.threads && st.threads[t].pc.Lock? && st.threads[t].pc.s == s)
  }

  lemma SettledStays(st: State, step: Step, timeout: int, t: nat, s: SetId)
    requires Knows(st) && Enabled(st, step, timeout) && Settled(st, t, s) && t in Apply(st, step, timeout).threads
    requires t in st.threads && !step.Crash?
    ensures Settled(Apply(st, step, timeout), t, s)
  {
    JobsExtend(st, step, timeout);
    ExtendsFacts(st.jobs, Apply(st, step, timeout).jobs, s);
    if s in st.importing {
      if s !in Apply(st, step, timeout).importing {
        FlightEnds(st, step, timeout, s);
      }
    } else if !Finalized(st.jobs, s) {
      if step.Advance? && step.t == t {
        LockTakes(st, t, step.choice, timeout);
      } else {
        NoneDropped(st, step, timeout, t);
      }
    }
  }

  lemma LockTakes(st: State, t: nat, choice: Choice, timeout: int)
    requires Enabled(st, Advance(t, choice), timeout) && st.threads[t].pc.Lock?
    ensures st.threads[t].pc.s in Apply(st, Advance(t, choice), timeout).importing
  {
  }

  lemma SweepsStep(st: State, step: Step, timeout: int)
    requires Knows(st) && SweepsThorough(st, timeout) && Enabled(st, step, timeout)
    ensures SweepsThorough(Apply(st, step, timeout), timeout)
  {
    var st' := Apply(st, step, timeout);
    forall t, s | Dealt(st', t, s, timeout)
      ensures Settled(st', t, s)
    {
      DealtComes(st, step, timeout, t, s);
      if Dealt(st, t, s, timeout) {
        SettledStays(st, step, timeout, t, s);
      }
    }
  }
}
