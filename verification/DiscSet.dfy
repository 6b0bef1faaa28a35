/** internal/download/discset.go and the landing step of fulfill.go: the disc-set
    barrier as interleaved steps of import threads, sweeps and crashes.

    One step is one atomic action of the source: a job-store call made under the
    store's lock, one operation on the `importing` map, one library query or write.
    Jobs are never deleted here; a crash drops every thread and every flight. */
module DiscSet {
  import opened Options

  type JobId = nat
  type SetId = string

  /** The set-related part of a job blob; `terminal` is status "error" or "interrupted". */
  datatype Job = Job(setId: SetId, index: int, total: int, done: bool, finalized: bool, terminal: bool, started: nat)

  type Jobs = map<JobId, Job>

  // ---------- What the counting loops compute ----------

  predicate IsMember(jobs: Jobs, s: SetId, j: JobId) { j in jobs && jobs[j].setId == s }

  function DoneIn(jobs: Jobs, s: SetId): set<JobId> { set j | j in jobs && jobs[j].setId == s && jobs[j].done }

  ghost predicate HasMember(jobs: Jobs, s: SetId) { exists j :: IsMember(jobs, s, j) }

  ghost predicate Finalized(jobs: Jobs, s: SetId) { exists j :: IsMember(jobs, s, j) && jobs[j].finalized }

  /** The largest declared total is positive and that many members have landed. */
  ghost predicate Complete(jobs: Jobs, s: SetId) {
    && (exists j :: IsMember(jobs, s, j) && jobs[j].total > 0)
    && forall j :: IsMember(jobs, s, j) ==> jobs[j].total <= |DoneIn(jobs, s)|
  }

  ghost predicate Pending(jobs: Jobs, s: SetId) {
    exists j :: IsMember(jobs, s, j) && !jobs[j].done && !jobs[j].terminal
  }

  ghost predicate TimedOut(jobs: Jobs, s: SetId, now: int, timeout: int) {
    exists j :: IsMember(jobs, s, j) && jobs[j].started > 0 && now - jobs[j].started > timeout
  }

  /** What the sweep decides about a set: `Some(degraded)` means "finalize it". */
  ghost function Verdict(jobs: Jobs, s: SetId, now: int, timeout: int): Option<bool> {
    if !HasMember(jobs, s) || Finalized(jobs, s) then None
    else if Complete(jobs, s) then Some(false)
    else if !Pending(jobs, s) || TimedOut(jobs, s, now, timeout) then Some(true)
    else None
  }

  /** A listing of a set's members by ascending disc index, as `discSetMembers` returns it. */
  ghost predicate IsOrder(order: seq<JobId>, jobs: Jobs, s: SetId) {
    Listed(order, jobs, s) && forall j :: IsMember(jobs, s, j) ==> j in order
  }

  ghost predicate Listed(order: seq<JobId>, jobs: Jobs, s: SetId) {
    && (forall i :: 0 <= i < |order| ==> IsMember(jobs, s, order[i]))
    && (forall i, k :: 0 <= i < k < |order| ==> order[i] != order[k])
    && (forall i, k :: 0 <= i < k < |order| ==> jobs[order[i]].index <= jobs[order[k]].index)
  }

  datatype Marker = Marker(total: int, have: seq<int>, degraded: bool)

  /** A library row whose source id is "set:" + set. */
  datatype Row = Row(setId: SetId, marker: Option<Marker>)

  /** The indices of the listed members that have landed. */
  function HaveOf(order: seq<JobId>, view: Jobs): seq<int> {
    if order == [] then []
    else
      var last := order[|order| - 1];
      HaveOf(order[..|order| - 1], view) + if last in view && view[last].done then [view[last].index] else []
  }

  function MarkerOf(order: seq<JobId>, view: Jobs, degraded: bool): Marker {
    Marker(if order != [] && order[0] in view then view[order[0]].total else 0, HaveOf(order, view), degraded)
  }

  // ---------- The machine ----------

  datatype Phase = ToRun | ToCheck | ToInsert | ToSave

  datatype Pc =
    | Scan(s: SetId)                    // done flag written, barrier not yet entered
    | Lock(s: SetId, degraded: bool)    // about to take the flight
    | Reread(s: SetId, degraded: bool)  // holds the flight
    | Work(s: SetId, degraded: bool, order: seq<JobId>, view: Jobs, phase: Phase)
    | Mark(s: SetId, order: seq<JobId>, k: nat)
    | Release(s: SetId)
    | Return

  datatype Sweep = Sweep(snap: Jobs, now: int, todo: set<SetId>)

  datatype Thread = Thread(pc: Pc, sweep: Option<Sweep>)

  /** `tails` counts runs of the deferred tail per set; `crashes` counts restarts. */
  datatype State = State(jobs: Jobs, importing: set<SetId>, threads: map<nat, Thread>, rows: seq<Row>,
                         tails: multiset<SetId>, crashes: nat)

  datatype Step =
    | CreateJob(j: JobId, job: Job)
    | SetTerminal(j: JobId, terminal: bool)
    | Land(t: nat, j: JobId)
    | StartSweep(t: nat, now: int)
    | Advance(t: nat, choice: Choice)
    | DropRow(i: nat)
    | Crash

  /** What the environment decides in a thread's own step; `NoTail` says the set directory is missing. */
  datatype Choice = Go | Choose(s: SetId) | Listing(order: seq<JobId>) | NoTail | InsertFails

  function SetIds(jobs: Jobs): set<SetId> { set j | j in jobs && jobs[j].setId != "" :: jobs[j].setId }

  /** The tail runs over a directory that exists, with something landed in the view. */
  predicate RunsTail(view: Jobs, s: SetId, choice: Choice) { choice != NoTail && DoneIn(view, s) != {} }

  ghost predicate HasRow(rows: seq<Row>, s: SetId) { exists i :: 0 <= i < |rows| && rows[i].setId == s }

  function SaveRow(rows: seq<Row>, s: SetId, mk: Marker): (r: seq<Row>)
    ensures |r| == |rows|
    ensures forall i :: 0 <= i < |rows| ==> r[i].setId == rows[i].setId
    ensures forall i :: 0 <= i < |rows| ==> r[i] == rows[i] || r[i] == Row(s, Some(mk))
  {
    if rows == [] then []
    else if rows[0].setId == s then [Row(s, Some(mk))] + rows[1..]
    else [rows[0]] + SaveRow(rows[1..], s, mk)
  }

  ghost predicate Enabled(st: State, step: Step, timeout: int) {
    match step
    case CreateJob(j, job) => j !in st.jobs && !job.done && !job.finalized
    case SetTerminal(j, _) => j in st.jobs
    case Land(t, j) => t !in st.threads && j in st.jobs && st.jobs[j].setId != ""
    case StartSweep(t, _) => t !in st.threads
    case Advance(t, choice) =>
      t in st.threads &&
      (match st.threads[t].pc
       case Reread(s, _) => choice.Listing? && IsOrder(choice.order, st.jobs, s)
       case Return => st.threads[t].sweep.Some? && choice.Choose? && choice.s in st.threads[t].sweep.value.todo
       case _ => true)
    case DropRow(i) => i < |st.rows|
    case Crash => true
  }

  ghost function NextPc(st: State, t: nat, choice: Choice, timeout: int): Thread
    requires Enabled(st, Advance(t, choice), timeout)
  {
    var th := st.threads[t];
    match th.pc
    case Scan(s) => th.(pc := if Complete(st.jobs, s) && !Finalized(st.jobs, s) then Lock(s, false) else Return)
    case Lock(s, degraded) => th.(pc := if s in st.importing then Return else Reread(s, degraded))
    case Reread(s, degraded) =>
      th.(pc := if choice.order == [] || Finalized(st.jobs, s) then Release(s)
                else Work(s, degraded, choice.order, st.jobs, ToRun))
    case Work(s, degraded, order, view, phase) =>
      th.(pc := match phase
                case ToRun => if RunsTail(view, s, choice) then th.pc.(phase := ToCheck) else Mark(s, order, 0)
                case ToCheck => th.pc.(phase := if HasRow(st.rows, s) then ToSave else ToInsert)
                case ToInsert => th.pc.(phase := ToSave)
                case ToSave => Mark(s, order, 0))
    case Mark(s, order, k) => th.(pc := if k < |order| then Mark(s, order, k + 1) else Release(s))
    case Release(s) => th.(pc := Return)
    case Return =>
      var sw := th.sweep.value;
      Thread(match Verdict(sw.snap, choice.s, sw.now, timeout)
             case Some(degraded) => Lock(choice.s, degraded)
             case None => Return,
             Some(sw.(todo := sw.todo - {choice.s})))
  }

  ghost function Apply(st: State, step: Step, timeout: int): State
    requires Enabled(st, step, timeout)
  {
    match step
    case CreateJob(j, job) => st.(jobs := st.jobs[j := job])
    case SetTerminal(j, terminal) => st.(jobs := st.jobs[j := st.jobs[j].(terminal := terminal)])
    case Land(t, j) =>
      st.(jobs := st.jobs[j := st.jobs[j].(done := true, terminal := false)],
          threads := st.threads[t := Thread(Scan(st.jobs[j].setId), None)])
    case StartSweep(t, now) =>
      st.(threads := st.threads[t := Thread(Return, Some(Sweep(st.jobs, now, SetIds(st.jobs))))])
    case Advance(t, choice) =>
      var moved := st.(threads := st.threads[t := NextPc(st, t, choice, timeout)]);
      (match st.threads[t].pc
       case Lock(s, _) => moved.(importing := st.importing + {s})
       case Work(s, degraded, order, view, phase) =>
         (match phase
          case ToRun => if RunsTail(view, s, choice) then moved.(tails := st.tails + multiset{s}) else moved
          case ToCheck => moved
          case ToInsert => if choice == InsertFails then moved else moved.(rows := st.rows + [Row(s, None)])
          case ToSave =>
            moved.(rows := SaveRow(st.rows, s, MarkerOf(order, view, degraded))))
       case Mark(s, order, k) =>
         if k < |order| && order[k] in st.jobs
         then moved.(jobs := st.jobs[order[k] := st.jobs[order[k]].(finalized := true)]) else moved
       case Release(s) => moved.(importing := st.importing - {s})
       case _ => moved)
    case DropRow(i) => st.(rows := st.rows[..i] + st.rows[i + 1..])
    case Crash => st.(importing := {}, threads := map[], crashes := st.crashes + 1)
  }

  const INITIAL: State := State(map[], {}, map[], [], multiset{}, 0)

  ghost predicate IsRun(run: seq<State>, steps: seq<Step>, timeout: int) {
    && |run| == |steps| + 1 && run[0] == INITIAL
    && forall i :: 0 <= i < |steps| ==>
         Enabled(run[i], steps[i], timeout) && run[i + 1] == Apply(run[i], steps[i], timeout)
  }

  lemma RunPush(run: seq<State>, steps: seq<Step>, timeout: int, step: Step)
    returns (run': seq<State>, steps': seq<Step>)
    requires IsRun(run, steps, timeout) && Enabled(run[|run| - 1], step, timeout)
    ensures IsRun(run', steps', timeout) && run'[|run'| - 1] == Apply(run[|run| - 1], step, timeout)
    ensures run' != []
  {
    run', steps' := run + [Apply(run[|run| - 1], step, timeout)], steps + [step];
  }
}
