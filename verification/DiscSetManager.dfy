/** internal/download/discset.go as the code that runs: the counting loops, the deferred
    tail and the sweep over mutable fields.  Every method also takes the corresponding
    steps of the machine in `DiscSet`, so each state of a manager is the last state of a
    run and everything proved about runs holds of it. */
module DiscSetManager {
  import opened Options
  import opened DiscSet
  import opened DiscSetMarkers

  /** `convert_hash_status`, messages and file work are left out; what remains of the
      environment is whether the set directory exists and whether the library row is stored. */
  datatype Env = Env(dirExists: bool, rowStored: bool)

  function FinalizeAll(jobs: Jobs, s: SetId): Jobs {
    map j | j in jobs :: if jobs[j].setId == s then jobs[j].(finalized := true) else jobs[j]
  }

  method SortedInsert(order: seq<JobId>, j: JobId, jobs: Jobs, s: SetId) returns (r: seq<JobId>)
    requires Listed(order, jobs, s) && IsMember(jobs, s, j) && j !in order
    ensures Listed(r, jobs, s) && forall x :: x in r <==> x in order || x == j
  {
    var p := |order|;
    while p > 0 && jobs[order[p - 1]].index > jobs[j].index
      invariant 0 <= p <= |order|
      invariant forall i :: p <= i < |order| ==> jobs[j].index < jobs[order[i]].index
    {
      p := p - 1;
    }
    r := order[..p] + [j] + order[p..];
  }

  method DiscSetMembers(jobs: Jobs, s: SetId) returns (order: seq<JobId>)
    ensures IsOrder(order, jobs, s)
  {
    order := [];
    var todo := jobs.Keys;
    while todo != {}
      invariant todo <= jobs.Keys && Listed(order, jobs, s)
      invariant forall j :: j in order <==> IsMember(jobs, s, j) && j !in todo
      decreases |todo|
    {
      var j :| j in todo;
      todo := todo - {j};
      if jobs[j].setId == s {
        order := SortedInsert(order, j, jobs, s);
      }
    }
  }

  // ---------- The counters, one member at a time ----------

  datatype Counts = Counts(total: nat, done: nat, pending: nat, oldest: nat)

  function Count(c: Counts, mem: Job): Counts {
    Counts(if mem.total > c.total then mem.total else c.total,
           c.done + if mem.done then 1 else 0,
           c.pending + if !mem.done && !mem.terminal then 1 else 0,
           if c.oldest == 0 || (mem.started > 0 && mem.started < c.oldest) then mem.started else c.oldest)
  }

  ghost function CountAll(order: seq<JobId>, jobs: Jobs): Counts
    requires forall i :: 0 <= i < |order| ==> order[i] in jobs
  {
    if order == [] then Counts(0, 0, 0, 0)
    else Count(CountAll(order[..|order| - 1], jobs), jobs[order[|order| - 1]])
  }

  lemma {:induction false} DoneCounted(order: seq<JobId>, jobs: Jobs, s: SetId)
    requires Listed(order, jobs, s)
    ensures CountAll(order, jobs).done == |LandedAmong(order, jobs)|
  {
    if order != [] {
      var init, last := order[..|order| - 1], order[|order| - 1];
      DoneCounted(init, jobs, s);
      LandedPush(init, last, jobs);
      assert order == init + [last];
    }
  }

  lemma {:induction false} TotalCounted(order: seq<JobId>, jobs: Jobs, bound: int)
    requires (forall i :: 0 <= i < |order| ==> order[i] in jobs) && bound >= 0
    ensures CountAll(order, jobs).total <= bound <==> forall i :: 0 <= i < |order| ==> jobs[order[i]].total <= bound
  {
    if order != [] {
      TotalCounted(order[..|order| - 1], jobs, bound);
    }
  }

  lemma {:induction false} PendingCounted(order: seq<JobId>, jobs: Jobs)
    requires forall i :: 0 <= i < |order| ==> order[i] in jobs
    ensures CountAll(order, jobs).pending == 0 <==>
            forall i :: 0 <= i < |order| ==> jobs[order[i]].done || jobs[order[i]].terminal
  {
    if order != [] {
      PendingCounted(order[..|order| - 1], jobs);
    }
  }

  lemma {:induction false} OldestCounted(order: seq<JobId>, jobs: Jobs, bound: int)
    requires forall i :: 0 <= i < |order| ==> order[i] in jobs
    ensures var oldest := CountAll(order, jobs).oldest;
            0 < oldest < bound <==> exists i :: 0 <= i < |order| && 0 < jobs[order[i]].started < bound
  {
    if order != [] {
      var n := |order| - 1;
      OldestCounted(order[..n], jobs, bound);
      OldestCounted(order[..n], jobs, jobs[order[n]].started);
      if i :| 0 <= i < n && 0 < jobs[order[..n][i]].started < bound {
        assert 0 < jobs[order[i]].started < bound;
      }
    }
  }

  /** What the final counters say about the set. */
  lemma CountsMean(order: seq<JobId>, jobs: Jobs, s: SetId)
    requires IsOrder(order, jobs, s)
    ensures var c := CountAll(order, jobs);
      && (c.total > 0 && c.done >= c.total <==> Complete(jobs, s))
      && (c.pending == 0 <==> !Pending(jobs, s))
      && forall now, timeout :: c.oldest > 0 && now - c.oldest > timeout <==> TimedOut(jobs, s, now, timeout)
  {
    var c := CountAll(order, jobs);
    DoneCounted(order, jobs, s);
    assert LandedAmong(order, jobs) == DoneIn(jobs, s) by {
      assert forall i :: 0 <= i < |order| ==> IsMember(jobs, s, order[i]);
    }
    TotalCounted(order, jobs, 0);
    TotalCounted(order, jobs, c.done);
    PendingCounted(order, jobs);
    forall now, timeout
      ensures c.oldest > 0 && now - c.oldest > timeout <==> TimedOut(jobs, s, now, timeout)
    {
      OldestCounted(order, jobs, now - timeout);
    }
  }

  /** The loop of `maybeFinalizeDiscSet`, and of the sweep: it stops at the first finalized member. */
  method CountMembers(jobs: Jobs, order: seq<JobId>, s: SetId) returns (c: Counts, finalized: bool)
    requires IsOrder(order, jobs, s)
    ensures finalized <==> Finalized(jobs, s)
    ensures !finalized ==> c == CountAll(order, jobs)
  {
    var total: nat, done: nat, pending: nat, oldest: nat := 0, 0, 0, 0;
    for k := 0 to |order|
      invariant Counts(total, done, pending, oldest) == CountAll(order[..k], jobs)
      invariant forall i :: 0 <= i < k ==> !jobs[order[i]].finalized
    {
      var mem := jobs[order[k]];
      assert order[..k + 1][..k] == order[..k];
      if mem.finalized {
        assert IsMember(jobs, s, order[k]);
        return Counts(0, 0, 0, 0), true;
      }
      if mem.total > total {
        total := mem.total;
      }
      if mem.done {
        done := done + 1;
      } else if !mem.terminal {
        pending := pending + 1;
      }
      if oldest == 0 || (mem.started > 0 && mem.started < oldest) {
        oldest := mem.started;
      }
    }
    assert order[..|order|] == order;
    return Counts(total, done, pending, oldest), false;
  }

  /** The library rows a finalize leaves behind: no tail, no change; otherwise one row for
      the set, old or new, carrying the marker. */
  ghost function RowsAfter(rows: seq<Row>, jobs: Jobs, s: SetId, degraded: bool, order: seq<JobId>,
                           env: Env): seq<Row> {
    if DoneIn(jobs, s) == {} || !env.dirExists then rows
    else SaveRow(if HasRow(rows, s) || !env.rowStored then rows else rows + [Row(s, None)],
                 s, MarkerOf(order, jobs, degraded))
  }

  /** One finalize, from one pair of tables to the next. */
  ghost predicate FinalizedAs(jobs: Jobs, rows: seq<Row>, s: SetId, degraded: bool, env: Env, jobs': Jobs,
                              rows': seq<Row>) {
    if Finalized(jobs, s) || !HasMember(jobs, s) then jobs' == jobs && rows' == rows
    else jobs' == FinalizeAll(jobs, s) &&
         exists order :: IsOrder(order, jobs, s) && rows' == RowsAfter(rows, jobs, s, degraded, order, env)
  }

  /** The deferred tail runs when the set is still to be finalized, something of it has landed and its
      directory is there. */
  ghost predicate TailDue(jobs: Jobs, s: SetId, env: Env) {
    HasMember(jobs, s) && !Finalized(jobs, s) && DoneIn(jobs, s) != {} && env.dirExists
  }

  ghost function TailOf(jobs: Jobs, s: SetId, env: Env): multiset<SetId> {
    if TailDue(jobs, s, env) then multiset{s} else multiset{}
  }

  // ---------- The rows of one set ----------

  function RowsOf(rows: seq<Row>, s: SetId): seq<Row> {
    if rows == [] then [] else (if rows[0].setId == s then [rows[0]] else []) + RowsOf(rows[1..], s)
  }

  /** The marker lists exactly the landed members of the set, by ascending index, under the total of a member of
      least index. */
  ghost predicate MarksLanded(mk: Marker, jobs: Jobs, s: SetId, degraded: bool) {
    && mk.degraded == degraded && |mk.have| == |DoneIn(jobs, s)|
    && (forall index ::
          index in mk.have <==> exists j :: IsMember(jobs, s, j) && jobs[j].done && jobs[j].index == index)
    && (forall i, k :: 0 <= i < k < |mk.have| ==> mk.have[i] <= mk.have[k])
    && exists lead :: IsMember(jobs, s, lead) && jobs[lead].total == mk.total
                      && forall j :: IsMember(jobs, s, j) ==> jobs[lead].index <= jobs[j].index
  }

  /** The set's own rows after its tail: the first one, old or newly stored, carries the marker. */
  ghost predicate Tracked(before: seq<Row>, after: seq<Row>, jobs: Jobs, s: SetId, degraded: bool, env: Env) {
    var a, b := RowsOf(before, s), RowsOf(after, s);
    if a == [] && !env.rowStored then b == []
    else b != [] && b[0].setId == s && b[0].marker.Some? && MarksLanded(b[0].marker.value, jobs, s, degraded)
         && b[1..] == if a == [] then [] else a[1..]
  }

  lemma {:induction false} RowsOfConcat(a: seq<Row>, b: seq<Row>, s: SetId)
    ensures RowsOf(a + b, s) == RowsOf(a, s) + RowsOf(b, s)
  {
    if a == [] {
      assert a + b == b;
    } else {
      assert (a + b)[1..] == a[1..] + b;
      RowsOfConcat(a[1..], b, s);
    }
  }

  lemma {:induction false} RowsOfHas(rows: seq<Row>, s: SetId)
    ensures RowsOf(rows, s) != [] <==> HasRow(rows, s)
  {
    if rows != [] {
      RowsOfHas(rows[1..], s);
      if i :| 0 <= i < |rows[1..]| && rows[1..][i].setId == s {
        assert rows[i + 1].setId == s;
      }
      if i :| 0 <= i < |rows| && rows[i].setId == s {
        assert i > 0 ==> rows[1..][i - 1].setId == s;
      }
    }
  }

  lemma {:induction false} RowsOfSaved(rows: seq<Row>, s: SetId, mk: Marker, u: SetId)
    ensures var a, b := RowsOf(rows, u), RowsOf(SaveRow(rows, s, mk), u);
            b == if u == s && a != [] then [Row(s, Some(mk))] + a[1..] else a
  {
    if rows != [] {
      var saved := SaveRow(rows, s, mk);
      if rows[0].setId == s {
        assert saved[1..] == rows[1..];
      } else {
        assert saved[1..] == SaveRow(rows[1..], s, mk);
        RowsOfSaved(rows[1..], s, mk, u);
      }
    }
  }

  lemma {:induction false} HaveWeaklyAscends(order: seq<JobId>, view: Jobs, s: SetId, i: nat, k: nat)
    requires Listed(order, view, s) && i < k < |HaveOf(order, view)|
    ensures HaveOf(order, view)[i] <= HaveOf(order, view)[k]
  {
    var init, last := order[..|order| - 1], order[|order| - 1];
    if k < |HaveOf(init, view)| {
      HaveWeaklyAscends(init, view, s, i, k);
    } else {
      var from := HaveSource(init, view, s, i);
      assert view[order[from]].index <= view[last].index;
    }
  }

  lemma MarkerMarks(order: seq<JobId>, jobs: Jobs, s: SetId, degraded: bool)
    requires IsOrder(order, jobs, s) && order != []
    ensures MarksLanded(MarkerOf(order, jobs, degraded), jobs, s, degraded)
  {
    var have := HaveOf(order, jobs);
    assert forall i :: 0 <= i < |order| ==> IsMember(jobs, s, order[i]);
    HaveSize(order, jobs, s);
    assert LandedAmong(order, jobs) == DoneIn(jobs, s);
    forall index
      ensures index in have <==> exists j :: IsMember(jobs, s, j) && jobs[j].done && jobs[j].index == index
    {
      HaveMembers(order, jobs, index);
      if j :| IsMember(jobs, s, j) && jobs[j].done && jobs[j].index == index {
        assert j in order;
      }
    }
    forall i, k | 0 <= i < k < |have|
      ensures have[i] <= have[k]
    {
      HaveWeaklyAscends(order, jobs, s, i, k);
    }
    LeadIsLeast(order, jobs, s);
  }

  lemma LeadIsLeast(order: seq<JobId>, jobs: Jobs, s: SetId)
    requires IsOrder(order, jobs, s) && order != []
    ensures IsMember(jobs, s, order[0]) && forall j :: IsMember(jobs, s, j) ==> jobs[order[0]].index <= jobs[j].index
  {
    forall j | IsMember(jobs, s, j)
      ensures jobs[order[0]].index <= jobs[j].index
    {
      var i :| 0 <= i < |order| && order[i] == j;
    }
  }

  lemma StoredRows(rows: seq<Row>, s: SetId, env: Env, u: SetId)
    ensures var stored := if HasRow(rows, s) || !env.rowStored then rows else rows + [Row(s, None)];
            RowsOf(stored, u) ==
            if u == s && RowsOf(rows, s) == [] && env.rowStored then [Row(s, None)] else RowsOf(rows, u)
  {
    RowsOfHas(rows, s);
    RowsOfConcat(rows, [Row(s, None)], u);
    assert RowsOf([Row(s, None)], u) == if u == s then [Row(s, None)] else [];
  }

  /** The rows of one set after a finalize whose tail is due. */
  lemma RowsAfterOf(jobs: Jobs, rows: seq<Row>, s: SetId, degraded: bool, order: seq<JobId>, env: Env, u: SetId)
    requires DoneIn(jobs, s) != {} && env.dirExists
    ensures var a, b := RowsOf(rows, u), RowsOf(RowsAfter(rows, jobs, s, degraded, order, env), u);
            b == if u != s || (a == [] && !env.rowStored) then a
                 else [Row(s, Some(MarkerOf(order, jobs, degraded)))] + if a == [] then [] else a[1..]
  {
    StoredRows(rows, s, env, u);
    var stored := if HasRow(rows, s) || !env.rowStored then rows else rows + [Row(s, None)];
    RowsOfSaved(stored, s, MarkerOf(order, jobs, degraded), u);
  }

  /** What one finalize does to the library: the set's rows are tracked when its tail is due and untouched
      otherwise, and no other set's rows change. */
  lemma FinalizedRows(jobs: Jobs, rows: seq<Row>, s: SetId, degraded: bool, env: Env, jobs': Jobs, rows': seq<Row>)
    requires FinalizedAs(jobs, rows, s, degraded, env, jobs', rows')
    ensures TailDue(jobs, s, env) ==> Tracked(rows, rows', jobs, s, degraded, env)
    ensures !TailDue(jobs, s, env) ==> rows' == rows
    ensures forall u :: u != s ==> RowsOf(rows', u) == RowsOf(rows, u)
  {
    if TailDue(jobs, s, env) {
      var order :| IsOrder(order, jobs, s) && rows' == RowsAfter(rows, jobs, s, degraded, order, env);
      var j :| IsMember(jobs, s, j);
      assert j in order;
      MarkerMarks(order, jobs, s, degraded);
      RowsAfterOf(jobs, rows, s, degraded, order, env, s);
      forall u | u != s
        ensures RowsOf(rows', u) == RowsOf(rows, u)
      {
        RowsAfterOf(jobs, rows, s, degraded, order, env, u);
      }
    }
  }

  // ---------- What a sweep makes of one set ----------

  /** The verdict in terms of the members alone: a set without members or with a finalized one is left alone;
      otherwise the declared totals being met by the landed members makes it complete, and failing that it can wait
      exactly while some member is neither landed nor ended and none was started too long ago. */
  lemma VerdictMeans(jobs: Jobs, s: SetId, now: int, timeout: int)
    ensures var members := set j | j in jobs && jobs[j].setId == s;
            var landed := set j | j in members && jobs[j].done;
            var over := members == {} || exists j :: j in members && jobs[j].finalized;
            var met := (exists j :: j in members && jobs[j].total > 0)
                       && forall j :: j in members ==> jobs[j].total <= |landed|;
            var waits := (exists j :: j in members && !jobs[j].done && !jobs[j].terminal)
                         && forall j :: j in members && jobs[j].started > 0 ==> now - jobs[j].started <= timeout;
            && (over ==> Verdict(jobs, s, now, timeout) == None)
            && (!over && met ==> Verdict(jobs, s, now, timeout) == Some(false))
            && (!over && !met && waits ==> Verdict(jobs, s, now, timeout) == None)
            && (!over && !met && !waits ==> Verdict(jobs, s, now, timeout) == Some(true))
  {
    var members := set j | j in jobs && jobs[j].setId == s;
    assert forall j :: j in members <==> IsMember(jobs, s, j);
    assert (set j | j in members && jobs[j].done) == DoneIn(jobs, s);
    assert members != {} <==> HasMember(jobs, s) by {
      if members != {} {
        var j :| j in members;
        assert IsMember(jobs, s, j);
      }
    }
  }

  /** The rows and tails of one set after a sweep with verdict `v`: when the set is judged ready, no other thread
      holds it, something has landed and the directory is there, its tail ran once more and its row is tracked
      under the verdict's flag; otherwise nothing of it changed. */
  ghost predicate SetSwept(before: Jobs, rows0: seq<Row>, tails0: multiset<SetId>, rows1: seq<Row>,
                           tails1: multiset<SetId>, s: SetId, v: Option<bool>, env: Env, held: set<SetId>) {
    if s != "" && v.Some? && s !in held && DoneIn(before, s) != {} && env.dirExists
    then Tracked(rows0, rows1, before, s, v.value, env) && tails1[s] == tails0[s] + 1
    else RowsOf(rows1, s) == RowsOf(rows0, s) && tails1[s] == tails0[s]
  }

  ghost predicate OthersKept(rows0: seq<Row>, tails0: multiset<SetId>, rows1: seq<Row>, tails1: multiset<SetId>,
                             s: SetId) {
    forall u :: u != s ==> RowsOf(rows1, u) == RowsOf(rows0, u) && tails1[u] == tails0[u]
  }

  ghost predicate SameMembers(a: Jobs, b: Jobs, s: SetId) {
    && (forall j :: IsMember(a, s, j) <==> IsMember(b, s, j))
    && (forall j :: IsMember(a, s, j) ==> a[j] == b[j])
  }

  lemma SameFacts(a: Jobs, b: Jobs, s: SetId)
    requires SameMembers(a, b, s)
    ensures DoneIn(a, s) == DoneIn(b, s)
    ensures (Finalized(a, s) <==> Finalized(b, s)) && (HasMember(a, s) <==> HasMember(b, s))
  {
    forall j
      ensures j in DoneIn(a, s) <==> j in DoneIn(b, s)
    {
      assert IsMember(a, s, j) <==> IsMember(b, s, j);
    }
  }

  lemma SameMarks(mk: Marker, a: Jobs, b: Jobs, s: SetId, degraded: bool)
    requires SameMembers(a, b, s) && MarksLanded(mk, b, s, degraded)
    ensures MarksLanded(mk, a, s, degraded)
  {
    SameFacts(a, b, s);
    forall index
      ensures index in mk.have <==> exists j :: IsMember(a, s, j) && a[j].done && a[j].index == index
    {
      if j :| IsMember(b, s, j) && b[j].done && b[j].index == index {
        assert IsMember(a, s, j);
      }
    }
    var lead :| IsMember(b, s, lead) && b[lead].total == mk.total
                && forall j :: IsMember(b, s, j) ==> b[lead].index <= b[j].index;
    assert IsMember(a, s, lead);
  }

  /** A finalize of a set judged ready, told on the snapshot it was judged from. */
  lemma JudgedRows(snap: Jobs, before: Jobs, rows0: seq<Row>, tails0: multiset<SetId>, jobs1: Jobs, rows1: seq<Row>,
                   tails1: multiset<SetId>, s: SetId, degraded: bool, env: Env, held: set<SetId>)
    requires SameMembers(snap, before, s) && HasMember(before, s) && !Finalized(before, s) && s != "" && s !in held
    requires FinalizedAs(before, rows0, s, degraded, env, jobs1, rows1) && tails1 == tails0 + TailOf(before, s, env)
    ensures SetSwept(snap, rows0, tails0, rows1, tails1, s, Some(degraded), env, held)
    ensures OthersKept(rows0, tails0, rows1, tails1, s)
  {
    SameFacts(snap, before, s);
    FinalizedRows(before, rows0, s, degraded, env, jobs1, rows1);
    var b := RowsOf(rows1, s);
    if TailDue(before, s, env) && b != [] && b[0].marker.Some? && MarksLanded(b[0].marker.value, before, s, degraded) {
      SameMarks(b[0].marker.value, snap, before, s, degraded);
    }
  }

  /** The sets in `todo` are as they were, the others are swept. */
  ghost predicate SweptBut(before: Jobs, rows0: seq<Row>, tails0: multiset<SetId>, rows1: seq<Row>,
                           tails1: multiset<SetId>, verdict: SetId -> Option<bool>, env: SetId -> Env,
                           held: set<SetId>, todo: set<SetId>) {
    forall s ::
      if s in todo then RowsOf(rows1, s) == RowsOf(rows0, s) && tails1[s] == tails0[s]
      else SetSwept(before, rows0, tails0, rows1, tails1, s, verdict(s), env(s), held)
  }

  lemma SweptMore(before: Jobs, rows0: seq<Row>, tails0: multiset<SetId>, rows1: seq<Row>, tails1: multiset<SetId>,
                  rows2: seq<Row>, tails2: multiset<SetId>, verdict: SetId -> Option<bool>, env: SetId -> Env,
                  held: set<SetId>, todo: set<SetId>, s: SetId)
    requires s in todo && SweptBut(before, rows0, tails0, rows1, tails1, verdict, env, held, todo)
    requires SetSwept(before, rows1, tails1, rows2, tails2, s, verdict(s), env(s), held)
    requires OthersKept(rows1, tails1, rows2, tails2, s)
    ensures SweptBut(before, rows0, tails0, rows2, tails2, verdict, env, held, todo - {s})
  {
    forall u
      ensures if u in todo - {s} then RowsOf(rows2, u) == RowsOf(rows0, u) && tails2[u] == tails0[u]
              else SetSwept(before, rows0, tails0, rows2, tails2, u, verdict(u), env(u), held)
    {
      assert if u in todo then RowsOf(rows1, u) == RowsOf(rows0, u) && tails1[u] == tails0[u]
             else SetSwept(before, rows0, tails0, rows1, tails1, u, verdict(u), env(u), held);
      if u != s {
        assert RowsOf(rows2, u) == RowsOf(rows1, u) && tails2[u] == tails1[u];
      }
    }
  }

  /** The loop that counts landed members under the flight. */
  method Imported(jobs: Jobs, order: seq<JobId>, s: SetId) returns (n: nat)
    requires IsOrder(order, jobs, s)
    ensures n == |DoneIn(jobs, s)|
  {
    n := 0;
    for k := 0 to |order|
      invariant n == |LandedAmong(order[..k], jobs)|
    {
      assert IsMember(jobs, s, order[k]) && order[..k + 1] == order[..k] + [order[k]];
      LandedPush(order[..k], order[k], jobs);
      if jobs[order[k]].done {
        n := n + 1;
      }
    }
    assert order[..|order|] == order;
    assert LandedAmong(order, jobs) == DoneIn(jobs, s) by {
      assert forall i :: 0 <= i < |order| ==> IsMember(jobs, s, order[i]);
    }
  }

  // ---------- The manager ----------

  class Manager {
    var jobs: Jobs
    var importing: set<SetId>
    var rows: seq<Row>
    const timeout: int

    // the machine's run so far
    ghost var run: seq<State>
    ghost var steps: seq<Step>

    ghost function St(): State
      requires run != []
      reads this
    {
      run[|run| - 1]
    }

    ghost predicate Valid()
      reads this
    {
      IsRun(run, steps, timeout) && St().jobs == jobs && St().importing == importing && St().rows == rows
    }

    /** Thread `t` stands at `pc`. */
    ghost predicate AtPc(t: nat, pc: Pc)
      requires run != []
      reads this
    {
      t in St().threads && St().threads[t].pc == pc
    }

    constructor (timeout: int)
      ensures Valid() && St() == INITIAL && this.timeout == timeout
    {
      this.timeout := timeout;
      jobs, importing, rows := map[], {}, [];
      run, steps := [INITIAL], [];
    }

    ghost method Take(step: Step)
      requires IsRun(run, steps, timeout) && Enabled(St(), step, timeout)
      modifies this`run, this`steps
      ensures IsRun(run, steps, timeout) && St() == Apply(old(St()), step, timeout)
    {
      run, steps := RunPush(run, steps, timeout, step);
    }

    method CreateJob(j: JobId, job: Job)
      requires Valid() && j !in jobs && !job.done && !job.finalized
      modifies this
      ensures Valid() && jobs == old(jobs)[j := job] && St() == old(St()).(jobs := jobs)
    {
      Take(DiscSet.CreateJob(j, job));
      jobs := jobs[j := job];
    }

    /** Everything of the machine but thread `t`'s position is as it was. */
    twostate predicate OnlyMoved(t: nat)
      requires old(run) != [] && run != []
      reads this
    {
      && t in old(St()).threads && St().threads.Keys == old(St()).threads.Keys
      && (forall u :: u in St().threads && u != t ==> St().threads[u] == old(St()).threads[u])
      && St().threads[t].sweep == old(St()).threads[t].sweep
      && St().crashes == old(St()).crashes
    }

    /** `markAll`: one store update per member, in listing order. */
    method MarkAll(ghost t: nat, s: SetId, order: seq<JobId>)
      requires Valid() && AtPc(t, Mark(s, order, 0)) && IsOrder(order, jobs, s)
      modifies this
      ensures Valid() && AtPc(t, Mark(s, order, |order|)) && OnlyMoved(t)
      ensures jobs == FinalizeAll(old(jobs), s) && importing == old(importing) && rows == old(rows)
      ensures St().tails == old(St()).tails
    {
      ghost var before := jobs;
      for k := 0 to |order|
        invariant Valid() && AtPc(t, Mark(s, order, k)) && OnlyMoved(t)
        invariant importing == old(importing) && rows == old(rows) && St().tails == old(St()).tails
        invariant jobs == MarkedUpTo(before, order, k)
      {
        assert IsMember(before, s, order[k]);
        MarkedStep(before, order, k);
        Take(Advance(t, Go));
        jobs := jobs[order[k] := jobs[order[k]].(finalized := true)];
      }
      AllMarked(before, order, s);
    }

    ghost function MarkedUpTo(before: Jobs, order: seq<JobId>, k: nat): Jobs
      requires k <= |order|
    {
      map j | j in before :: if j in order[..k] then before[j].(finalized := true) else before[j]
    }

    lemma MarkedStep(before: Jobs, order: seq<JobId>, k: nat)
      requires k < |order| && order[k] in before
      ensures var marked := MarkedUpTo(before, order, k);
              MarkedUpTo(before, order, k + 1) == marked[order[k] := marked[order[k]].(finalized := true)]
    {
      assert order[..k + 1] == order[..k] + [order[k]];
    }

    lemma AllMarked(before: Jobs, order: seq<JobId>, s: SetId)
      requires IsOrder(order, before, s)
      ensures MarkedUpTo(before, order, |order|) == FinalizeAll(before, s)
    {
      assert order[..|order|] == order;
      forall j | j in before
        ensures j in order <==> IsMember(before, s, j)
      {
      }
    }

    /** TrackInLibrary: check for the source id, then insert. */
    method TrackInLibrary(ghost t: nat, s: SetId, degraded: bool, ghost order: seq<JobId>, ghost view: Jobs,
                          rowStored: bool)
      requires Valid() && AtPc(t, Work(s, degraded, order, view, ToCheck))
      modifies this
      ensures Valid() && AtPc(t, Work(s, degraded, order, view, ToSave)) && OnlyMoved(t)
      ensures jobs == old(jobs) && importing == old(importing)
      ensures rows == if HasRow(old(rows), s) || !rowStored then old(rows) else old(rows) + [Row(s, None)]
      ensures St().tails == old(St()).tails
    {
      var known := false;
      for i := 0 to |rows|
        invariant known <==> exists k :: 0 <= k < i && rows[k].setId == s
      {
        if rows[i].setId == s {
          known := true;
        }
      }
      Take(Advance(t, Go));
      if !known && rowStored {
        Take(Advance(t, Go));
        rows := rows + [Row(s, None)];
      } else if !known {
        Take(Advance(t, InsertFails));
      }
    }

    method SaveSetMarker(ghost t: nat, s: SetId, degraded: bool, order: seq<JobId>, view: Jobs)
      requires Valid() && AtPc(t, Work(s, degraded, order, view, ToSave))
      requires IsOrder(order, view, s) && order != []
      modifies this
      ensures Valid() && AtPc(t, Mark(s, order, 0)) && OnlyMoved(t)
      ensures jobs == old(jobs) && importing == old(importing)
      ensures rows == SaveRow(old(rows), s, MarkerOf(order, view, degraded)) && St().tails == old(St()).tails
    {
      var have := [];
      for k := 0 to |order|
        invariant have == HaveOf(order[..k], view)
      {
        assert order[..k + 1][..k] == order[..k];
        if view[order[k]].done {
          have := have + [view[order[k]].index];
        }
      }
      assert order[..|order|] == order;
      Take(Advance(t, Go));
      rows := SaveRow(rows, s, Marker(view[order[0]].total, have, degraded));
    }

    /** Normalize, convert and sidecar leave no trace here; the library row and marker do. */
    method RunTail(ghost t: nat, s: SetId, degraded: bool, order: seq<JobId>, env: Env)
      requires Valid() && AtPc(t, Work(s, degraded, order, jobs, ToRun))
      requires IsOrder(order, jobs, s) && order != [] && DoneIn(jobs, s) != {} && env.dirExists
      modifies this
      ensures Valid() && AtPc(t, Mark(s, order, 0)) && OnlyMoved(t)
      ensures importing == old(importing) && jobs == old(jobs)
      ensures rows == RowsAfter(old(rows), old(jobs), s, degraded, order, env)
      ensures St().tails == old(St()).tails + multiset{s}
    {
      var view := jobs;
      Take(Advance(t, Go));
      TrackInLibrary(t, s, degraded, order, view, env.rowStored);
      SaveSetMarker(t, s, degraded, order, view);
    }

    /** The tail and the marks, for a view with no finalized member. */
    method FinalizeView(ghost t: nat, s: SetId, degraded: bool, order: seq<JobId>, imported: nat, env: Env)
      requires Valid() && AtPc(t, Work(s, degraded, order, jobs, ToRun))
      requires IsOrder(order, jobs, s) && order != [] && imported == |DoneIn(jobs, s)|
      modifies this
      ensures Valid() && AtPc(t, Release(s)) && OnlyMoved(t)
      ensures importing == old(importing) && jobs == FinalizeAll(old(jobs), s)
      ensures rows == RowsAfter(old(rows), old(jobs), s, degraded, order, env)
      ensures St().tails
              == old(St()).tails + if DoneIn(old(jobs), s) != {} && env.dirExists then multiset{s} else multiset{}
    {
      if imported == 0 || !env.dirExists {
        Take(Advance(t, NoTail));
      } else {
        RunTail(t, s, degraded, order, env);
      }
      MarkAll(t, s, order);
      Take(Advance(t, Go));
    }

    /** Membership is read again under the flight; a finalized member ends the attempt. */
    method FinalizeUnderFlight(ghost t: nat, s: SetId, degraded: bool, env: Env)
      requires Valid() && AtPc(t, Reread(s, degraded))
      modifies this
      ensures Valid() && AtPc(t, Release(s)) && OnlyMoved(t)
      ensures importing == old(importing)
      ensures FinalizedAs(old(jobs), old(rows), s, degraded, env, jobs, rows)
      ensures St().tails == old(St()).tails + TailOf(old(jobs), s, env)
    {
      var order := DiscSetMembers(jobs, s);
      var _, finalized := CountMembers(jobs, order, s);
      assert order != [] <==> HasMember(jobs, s) by {
        assert order != [] ==> IsMember(jobs, s, order[0]);
      }
      Take(Advance(t, Listing(order)));
      if order != [] && !finalized {
        var imported := Imported(jobs, order, s);
        FinalizeView(t, s, degraded, order, imported, env);
      }
    }

    method FinalizeDiscSet(ghost t: nat, s: SetId, degraded: bool, env: Env)
      requires Valid() && AtPc(t, Lock(s, degraded))
      modifies this
      ensures Valid() && AtPc(t, Return) && OnlyMoved(t)
      ensures importing == old(importing)
      ensures if s in old(importing) then jobs == old(jobs) && rows == old(rows) && St().tails == old(St()).tails
              else && FinalizedAs(old(jobs), old(rows), s, degraded, env, jobs, rows)
                   && St().tails == old(St()).tails + TailOf(old(jobs), s, env)
    {
      if s in importing {
        Take(Advance(t, Go));
        return;
      }
      FinalizeInFlight(t, s, degraded, env);
    }

    /** One flight: taken, used, and given back. */
    method FinalizeInFlight(ghost t: nat, s: SetId, degraded: bool, env: Env)
      requires Valid() && AtPc(t, Lock(s, degraded)) && s !in importing
      modifies this
      ensures Valid() && AtPc(t, Return) && OnlyMoved(t) && importing == old(importing)
      ensures FinalizedAs(old(jobs), old(rows), s, degraded, env, jobs, rows)
      ensures St().tails == old(St()).tails + TailOf(old(jobs), s, env)
    {
      Take(Advance(t, Go));
      importing := importing + {s};
      FinalizeUnderFlight(t, s, degraded, env);
      Take(Advance(t, Go));
      importing := importing - {s};
    }

    method MaybeFinalizeDiscSet(ghost t: nat, s: SetId, env: Env)
      requires Valid() && AtPc(t, Scan(s))
      modifies this
      ensures Valid() && AtPc(t, Return) && OnlyMoved(t) && importing == old(importing)
      ensures if !Complete(old(jobs), s) || s in old(importing)
              then jobs == old(jobs) && rows == old(rows) && St().tails == old(St()).tails
              else && FinalizedAs(old(jobs), old(rows), s, false, env, jobs, rows)
                   && St().tails == old(St()).tails + TailOf(old(jobs), s, env)
    {
      var order := DiscSetMembers(jobs, s);
      var c, finalized := CountMembers(jobs, order, s);
      CountsMean(order, jobs, s);
      Take(Advance(t, Go));
      if order == [] || finalized || c.total == 0 || c.done < c.total {
        return;
      }
      FinalizeDiscSet(t, s, false, env);
    }

    /** The landing step of `fulfillLocalROM`: write the done flag, then enter the barrier. */
    method LandMember(ghost t: nat, j: JobId, env: Env)
      requires Valid() && t !in St().threads && j in jobs && jobs[j].setId != ""
      modifies this
      ensures Valid() && AtPc(t, Return) && importing == old(importing)
      ensures var s, landed := old(jobs)[j].setId, old(jobs)[j := old(jobs)[j].(done := true, terminal := false)];
              if !Complete(landed, s) || s in old(importing)
              then jobs == landed && rows == old(rows) && St().tails == old(St()).tails
              else && FinalizedAs(landed, old(rows), s, false, env, jobs, rows)
                   && St().tails == old(St()).tails + TailOf(landed, s, env)
    {
      Take(Land(t, j));
      jobs := jobs[j := jobs[j].(done := true, terminal := false)];
      MaybeFinalizeDiscSet(t, jobs[j].setId, env);
    }

    /** The sweep's switch for one set of its snapshot. */
    method Judge(snap: Jobs, s: SetId, now: int) returns (v: Option<bool>)
      requires HasMember(snap, s)
      ensures v == Verdict(snap, s, now, timeout)
    {
      var order := DiscSetMembers(snap, s);
      var c, finalized := CountMembers(snap, order, s);
      CountsMean(order, snap, s);
      if finalized {
        return None;
      }
      if c.total > 0 && c.done >= c.total {
        return Some(false);
      }
      if c.pending == 0 || (c.oldest > 0 && now - c.oldest > timeout) {
        return Some(true);
      }
      return None;
    }

    /** What the sweep has made of one job when the sets in `todo` are still to be judged and another
        thread holds the flights of the sets in `held`. */
    ghost function Swept(before: Jobs, j: JobId, now: int, todo: set<SetId>, held: set<SetId>): Job
      requires j in before
    {
      var s := before[j].setId;
      if s != "" && s !in todo && s !in held && Verdict(before, s, now, timeout).Some?
      then before[j].(finalized := true) else before[j]
    }

    /** The sweep's turn for one set of its snapshot. */
    method SweepOne(ghost t: nat, snap: Jobs, now: int, ghost todo: set<SetId>, s: SetId, env: Env)
      requires Valid() && AtPc(t, Return) && s in todo && todo <= SetIds(snap)
      requires St().threads[t].sweep == Some(Sweep(snap, now, todo))
      requires jobs == map j | j in snap :: Swept(snap, j, now, todo, importing)
      modifies this
      ensures Valid() && importing == old(importing) && AtPc(t, Return)
      ensures St().threads[t].sweep == Some(Sweep(snap, now, todo - {s}))
      ensures jobs == map j | j in snap :: Swept(snap, j, now, todo - {s}, importing)
      ensures SetSwept(snap, old(rows), old(St()).tails, rows, St().tails, s, Verdict(snap, s, now, timeout), env,
                       importing)
      ensures OthersKept(old(rows), old(St()).tails, rows, St().tails, s)
    {
      assert HasMember(snap, s) by {
        var j :| j in snap && snap[j].setId == s;
        assert IsMember(snap, s, j);
      }
      var v := Judge(snap, s, now);
      Take(Advance(t, Choose(s)));
      SweptStep(snap, jobs, s, now, todo, importing);
      if v.Some? {
        FinalizeDiscSet(t, s, v.value, env);
        if s !in importing {
          JudgedRows(snap, old(jobs), old(rows), old(St()).tails, jobs, rows, St().tails, s, v.value, env, importing);
        }
      }
    }

    ghost function VerdictOf(snap: Jobs, now: int): SetId -> Option<bool> { s => Verdict(snap, s, now, timeout) }

    /** A sweep no other thread interleaves with finalizes exactly the sets it judges complete, hopeless or
        overdue, but for those whose flight is held; `SetSwept` says what becomes of each set's rows and tail. */
    method SweepDiscSets(ghost t: nat, now: int, env: SetId -> Env)
      requires Valid() && t !in St().threads
      modifies this
      ensures Valid() && importing == old(importing)
      ensures jobs == map j | j in old(jobs) :: Swept(old(jobs), j, now, {}, importing)
      ensures forall s ::
        SetSwept(old(jobs), old(rows), old(St()).tails, rows, St().tails, s,
                 Verdict(old(jobs), s, now, timeout), env(s), importing)
    {
      Take(StartSweep(t, now));
      var snap := jobs;
      var todo := SetIds(snap);
      ghost var verdict := VerdictOf(snap, now);
      assert jobs == map j | j in snap :: Swept(snap, j, now, todo, importing);
      UnlistedWait(snap, now);
      while todo != {}
        invariant todo <= SetIds(snap) && Valid() && importing == old(importing) && AtPc(t, Return)
        invariant St().threads[t].sweep == Some(Sweep(snap, now, todo))
        invariant jobs == map j | j in snap :: Swept(snap, j, now, todo, importing)
        invariant SweptBut(snap, old(rows), old(St()).tails, rows, St().tails, verdict, env, importing, todo)
        decreases todo
      {
        var s :| s in todo;
        ghost var rows1, tails1 := rows, St().tails;
        SweepOne(t, snap, now, todo, s, env(s));
        SweptMore(snap, old(rows), old(St()).tails, rows1, tails1, rows, St().tails, verdict, env, importing, todo, s);
        todo := todo - {s};
      }
      forall s
        ensures SetSwept(snap, old(rows), old(St()).tails, rows, St().tails, s, Verdict(snap, s, now, timeout), env(s),
                         importing)
      {
        assert s !in todo && verdict(s) == Verdict(snap, s, now, timeout);
      }
    }

    /** A set nobody lists has no verdict. */
    lemma UnlistedWait(snap: Jobs, now: int)
      ensures forall s :: s !in SetIds(snap) ==> s == "" || Verdict(snap, s, now, timeout).None?
    {
      forall s | s != "" && HasMember(snap, s)
        ensures s in SetIds(snap)
      {
        var j :| IsMember(snap, s, j);
      }
    }

    lemma SweptStep(snap: Jobs, jobs: Jobs, s: SetId, now: int, todo: set<SetId>, held: set<SetId>)
      requires jobs == map j | j in snap :: Swept(snap, j, now, todo, held)
      requires s in todo && HasMember(snap, s) && s != ""
      ensures HasMember(jobs, s)
      ensures SameMembers(snap, jobs, s)
      ensures Verdict(snap, s, now, timeout).Some? ==> !Finalized(jobs, s)
      ensures (map j | j in snap :: Swept(snap, j, now, todo - {s}, held)) ==
              if Verdict(snap, s, now, timeout).Some? && s !in held then FinalizeAll(jobs, s) else jobs
    {
      assert forall j :: IsMember(jobs, s, j) <==> IsMember(snap, s, j);
    }

    /** After such a sweep every unfinalized set in no other flight still has a pending member, has fewer
        landed than declared, and is not overdue. */
    lemma SweptSetsCanWait(before: Jobs, after: Jobs, now: int, s: SetId, held: set<SetId>)
      requires after == map j | j in before :: Swept(before, j, now, {}, held)
      requires s != "" && s !in held && HasMember(after, s) && !Finalized(after, s)
      ensures Pending(after, s) && !Complete(after, s) && !TimedOut(after, s, now, timeout)
    {
      assert forall j :: IsMember(after, s, j) <==> IsMember(before, s, j);
      assert Verdict(before, s, now, timeout).None?;
      assert forall j :: IsMember(before, s, j) ==> after[j] == before[j];
      assert DoneIn(after, s) == DoneIn(before, s);
    }
  }
}
