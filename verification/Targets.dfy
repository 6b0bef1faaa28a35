/** internal/db/collection_targets.go: the stored gap list of collection mode.

    The table is a map from its unique index (platform, set key).  Times are whole
    seconds, as the stored stamps are; `None` is the empty last_attempt. */
module Targets {
  import opened Options
  import opened Text

  datatype Status = Wanted | Grabbed | Unavailable

  datatype Row = Row(id: nat, title: string, dumpName: string, hashes: seq<string>, status: Status,
                     attempts: nat, last: Option<int>, reason: string)

  datatype Key = Key(slug: string, setKey: string)

  type Table = map<Key, Row>

  datatype Gap = Gap(setKey: string, title: string, dumpName: string, hashes: seq<string>)

  const GRABBED_TIMEOUT: int := 12 * 3600

  // ---------- One gap against the table ----------

  predicate AgedOut(r: Row, now: int) {
    r.status == Grabbed && (r.last.None? || r.last.value < now - GRABBED_TIMEOUT)
  }

  /** The two updates of a row that is still wanted. */
  function Refresh(r: Row, g: Gap, now: int): Row {
    var r := r.(title := g.title, dumpName := g.dumpName, hashes := g.hashes);
    if AgedOut(r, now) then r.(status := Wanted, reason := "the grabbed release did not fill this gap") else r
  }

  function NewRow(g: Gap, id: nat): Row { Row(id, g.title, g.dumpName, g.hashes, Wanted, 0, None, "") }

  datatype Sync = Sync(table: Table, nextId: nat, added: nat)

  /** One turn of the loop over the gaps; inserting a key twice violates the unique index and is skipped. */
  function SyncGap(s: Sync, slug: string, existing: set<string>, g: Gap, now: int): Sync {
    var k := Key(slug, g.setKey);
    if g.setKey in existing && k in s.table then s.(table := s.table[k := Refresh(s.table[k], g, now)])
    else if g.setKey in existing || k in s.table then s
    else Sync(s.table[k := NewRow(g, s.nextId)], s.nextId + 1, s.added + 1)
  }

  function SyncGaps(s: Sync, slug: string, existing: set<string>, gaps: seq<Gap>, now: int): Sync {
    if gaps == [] then s
    else SyncGap(SyncGaps(s, slug, existing, gaps[..|gaps| - 1], now), slug, existing, gaps[|gaps| - 1], now)
  }

  function KeysOf(t: Table, slug: string): set<string> { set k | k in t && k.slug == slug :: k.setKey }

  function WantOf(gaps: seq<Gap>): set<string> { set i | 0 <= i < |gaps| :: gaps[i].setKey }

  function Without(t: Table, slug: string, dropped: set<string>): Table {
    map k | k in t && !(k.slug == slug && k.setKey in dropped) :: t[k]
  }

  // ---------- Backoff ----------

  function Pow2(n: nat): nat { if n == 0 then 1 else 2 * Pow2(n - 1) }

  function Min(a: int, b: int): int { if a < b then a else b }

  /** Hours to wait after the given number of attempts. */
  function WaitHours(attempts: nat): nat
    requires attempts >= 1
  {
    Min(Pow2(Min(attempts - 1, 8)), 168)
  }

  predicate Due(r: Row, now: int) {
    r.attempts == 0 || r.last.None? || now >= r.last.value + WaitHours(r.attempts) * 3600
  }

  const BACKOFF: seq<nat> := [1, 2, 4, 8, 16, 32, 64, 128, 168]

  /** A row is due as soon as the hours of its backoff have passed since its last attempt, and not before. */
  lemma DueIff(r: Row, now: int)
    ensures Due(r, now) <==>
            || r.attempts == 0 || r.last.None?
            || now - r.last.value >= BACKOFF[if r.attempts < 9 then r.attempts - 1 else 8] * 3600
  {
    assert Pow2(2) == 4 && Pow2(4) == 16 && Pow2(6) == 64 && Pow2(8) == 256;
    assert r.attempts > 0 ==> WaitHours(r.attempts) == BACKOFF[if r.attempts < 9 then r.attempts - 1 else 8];
  }

  /** `ORDER BY last_attempt ASC, title ASC`: the empty stamp comes first. */
  predicate QueueLess(a: Row, b: Row) {
    var (x, y) := (a.last, b.last);
    if x == y then StringLess(a.title, b.title) else x.None? || (y.Some? && x.value < y.value)
  }

  function Recorded(t: Table, id: nat, status: Status, reason: string, now: int): Table {
    map k | k in t :: if t[k].id == id
                      then t[k].(status := status, attempts := t[k].attempts + 1, last := Some(now), reason := reason)
                      else t[k]
  }

  ghost predicate IdsOk(t: Table, nextId: nat) {
    && (forall k :: k in t ==> t[k].id < nextId)
    && (forall k, l :: k in t && l in t && t[k].id == t[l].id ==> k == l)
  }

  // ---------- What a sync does to each row ----------

  /** A surviving row keeps its identity and its attempt history. A grab without a stamp, or with one more
      than twelve hours old, is wanted again; nothing else changes status. */
  ghost predicate Survives(before: Row, after: Row, now: int) {
    && after.id == before.id && after.attempts == before.attempts && after.last == before.last
    && if before.status.Grabbed? && (before.last.None? || now - before.last.value > 43200)
       then after.status.Wanted? && after.reason == "the grabbed release did not fill this gap"
       else after.status == before.status && after.reason == before.reason
  }

  ghost predicate IsFresh(r: Row, nextId: nat) {
    r.attempts == 0 && r.status == Wanted && r.last == None && r.reason == "" && r.id >= nextId
  }

  /** One row of the table a sync has built from `t` when the gaps seen so far want `want`. */
  ghost predicate RowSynced(t: Table, nextId: nat, slug: string, want: set<string>, now: int, s: Table, k: Key) {
    var wanted := k.slug == slug && k.setKey in want;
    && (k in s <==> k in t || wanted)
    && (k in t ==> if wanted then Survives(t[k], s[k], now) else s[k] == t[k])
    && (k in s && k !in t ==> IsFresh(s[k], nextId))
  }

  ghost predicate Synced(t: Table, nextId: nat, slug: string, want: set<string>, now: int, s: Sync) {
    && IdsOk(s.table, s.nextId) && nextId <= s.nextId && |s.table| == |t| + s.added
    && forall k :: RowSynced(t, nextId, slug, want, now, s.table, k)
  }

  lemma SyncGapStep(t: Table, nextId: nat, slug: string, want: set<string>, now: int, s: Sync, g: Gap)
    requires Synced(t, nextId, slug, want, now, s)
    ensures Synced(t, nextId, slug, want + {g.setKey}, now, SyncGap(s, slug, KeysOf(t, slug), g, now))
  {
    var s' := SyncGap(s, slug, KeysOf(t, slug), g, now);
    var at := Key(slug, g.setKey);
    assert g.setKey in KeysOf(t, slug) <==> at in t;
    assert RowSynced(t, nextId, slug, want, now, s.table, at);
    forall k
      ensures RowSynced(t, nextId, slug, want + {g.setKey}, now, s'.table, k)
    {
      assert RowSynced(t, nextId, slug, want, now, s.table, k);
      if k != at {
        OtherRow(t, nextId, slug, want, now, s.table, s'.table, g.setKey, k);
      }
    }
  }

  lemma OtherRow(t: Table, nextId: nat, slug: string, want: set<string>, now: int, a: Table, b: Table, key: string,
                 k: Key)
    requires RowSynced(t, nextId, slug, want, now, a, k) && k != Key(slug, key)
    requires (k in b <==> k in a) && (k in a ==> b[k] == a[k])
    ensures RowSynced(t, nextId, slug, want + {key}, now, b, k)
  {
  }

  lemma {:induction false} SyncGapsShape(t: Table, nextId: nat, slug: string, gaps: seq<Gap>, now: int)
    requires IdsOk(t, nextId)
    ensures Synced(t, nextId, slug, WantOf(gaps), now, SyncGaps(Sync(t, nextId, 0), slug, KeysOf(t, slug), gaps, now))
  {
    if gaps == [] {
      assert forall k :: RowSynced(t, nextId, slug, {}, now, t, k);
      assert WantOf(gaps) == {};
    } else {
      var init, g := gaps[..|gaps| - 1], gaps[|gaps| - 1];
      SyncGapsShape(t, nextId, slug, init, now);
      SyncGapStep(t, nextId, slug, WantOf(init), now, SyncGaps(Sync(t, nextId, 0), slug, KeysOf(t, slug), init, now),
          g);
      WantPush(gaps);
    }
  }

  lemma WantPush(gaps: seq<Gap>)
    requires gaps != []
    ensures WantOf(gaps) == WantOf(gaps[..|gaps| - 1]) + {gaps[|gaps| - 1].setKey}
  {
    forall x | x in WantOf(gaps)
      ensures x in WantOf(gaps[..|gaps| - 1]) + {gaps[|gaps| - 1].setKey}
    {
      var i :| 0 <= i < |gaps| && gaps[i].setKey == x;
      if i < |gaps| - 1 {
        assert gaps[..|gaps| - 1][i].setKey == x;
      }
    }
    forall x | x in WantOf(gaps[..|gaps| - 1])
      ensures x in WantOf(gaps)
    {
      var i :| 0 <= i < |gaps| - 1 && gaps[..|gaps| - 1][i].setKey == x;
      assert gaps[i].setKey == x;
    }
  }

  // ---------- The whole sync ----------

  function SyncTable(t: Table, nextId: nat, slug: string, gaps: seq<Gap>, now: int): Sync {
    var s := SyncGaps(Sync(t, nextId, 0), slug, KeysOf(t, slug), gaps, now);
    s.(table := Without(s.table, slug, KeysOf(t, slug) - WantOf(gaps)))
  }

  /** After a sync the platform's keys are exactly the gap keys, other platforms are untouched,
      surviving rows keep their history, and the counts are right. */
  lemma SyncIsExact(t: Table, nextId: nat, slug: string, gaps: seq<Gap>, now: int)
    requires IdsOk(t, nextId)
    ensures var s, want := SyncTable(t, nextId, slug, gaps, now), WantOf(gaps);
      && IdsOk(s.table, s.nextId) && KeysOf(s.table, slug) == want
      && (forall k: Key :: k.slug != slug ==> (k in s.table <==> k in t) && (k in t ==> s.table[k] == t[k]))
      && (forall k :: k in t && k in s.table && k.slug == slug ==> Survives(t[k], s.table[k], now))
      && (forall k :: k in s.table && k !in t ==> IsFresh(s.table[k], nextId))
      && |s.table| == |t| + s.added - |KeysOf(t, slug) - want|
  {
    var u := SyncGaps(Sync(t, nextId, 0), slug, KeysOf(t, slug), gaps, now);
    var s := SyncTable(t, nextId, slug, gaps, now);
    var dropped := KeysOf(t, slug) - WantOf(gaps);
    SyncGapsShape(t, nextId, slug, gaps, now);
    forall k
      ensures k in s.table <==> (if k.slug == slug then k.setKey in WantOf(gaps) else k in t)
      ensures k in s.table ==> s.table[k] == u.table[k]
      ensures k in s.table && k in t && k.slug != slug ==> s.table[k] == t[k]
      ensures k in s.table && k in t && k.slug == slug ==> Survives(t[k], s.table[k], now)
      ensures k in s.table && k !in t ==> IsFresh(s.table[k], nextId)
    {
      assert RowSynced(t, nextId, slug, WantOf(gaps), now, u.table, k);
    }
    KeysExact(s.table, slug, WantOf(gaps));
    forall x | x in dropped
      ensures Key(slug, x) in u.table
    {
      assert RowSynced(t, nextId, slug, WantOf(gaps), now, u.table, Key(slug, x));
    }
    WithoutSize(u.table, slug, dropped);
  }

  lemma KeysExact(t: Table, slug: string, want: set<string>)
    requires forall k: Key :: k.slug == slug ==> (k in t <==> k.setKey in want)
    ensures KeysOf(t, slug) == want
  {
    forall x | x in want
      ensures x in KeysOf(t, slug)
    {
      assert Key(slug, x) in t;
    }
  }

  lemma {:induction false} WithoutSize(t: Table, slug: string, dropped: set<string>)
    requires forall x :: x in dropped ==> Key(slug, x) in t
    ensures |Without(t, slug, dropped)| == |t| - |dropped|
    decreases |dropped|
  {
    if dropped == {} {
      assert Without(t, slug, dropped) == t;
    } else {
      var x :| x in dropped;
      var rest := dropped - {x};
      WithoutSize(t, slug, rest);
      var w := Without(t, slug, rest);
      assert Key(slug, x) in w;
      assert Without(t, slug, dropped) == w - {Key(slug, x)};
      assert |w.Keys - {Key(slug, x)}| == |w.Keys| - 1;
      assert (w - {Key(slug, x)}).Keys == w.Keys - {Key(slug, x)};
    }
  }

  lemma WithoutOneMore(t: Table, slug: string, dropped: set<string>, x: string)
    ensures Without(t, slug, dropped + {x}) == Without(t, slug, dropped) - {Key(slug, x)}
  {
  }

  // ---------- A second sync changes nothing ----------

  ghost predicate DistinctGaps(gaps: seq<Gap>) {
    forall i, j :: 0 <= i < j < |gaps| ==> gaps[i].setKey != gaps[j].setKey
  }

  ghost predicate Describes(r: Row, g: Gap) { r.title == g.title && r.dumpName == g.dumpName && r.hashes == g.hashes }

  ghost predicate Described(t: Table, slug: string, g: Gap, now: int) {
    var k := Key(slug, g.setKey);
    k in t && Describes(t[k], g) && !AgedOut(t[k], now)
  }

  /** One gap's row describes it, and every other row is left alone. */
  lemma OneDescribed(u: Sync, slug: string, existing: set<string>, g: Gap, now: int)
    requires g.setKey in existing <==> Key(slug, g.setKey) in u.table
    ensures var v, at := SyncGap(u, slug, existing, g, now), Key(slug, g.setKey);
      && v.table.Keys == u.table.Keys + {at} && (forall k :: k in u.table && k != at ==> v.table[k] == u.table[k])
      && Described(v.table, slug, g, now)
  {
  }

  ghost predicate AllDescribed(t: Table, slug: string, gaps: seq<Gap>, now: int) {
    forall i :: 0 <= i < |gaps| ==> Described(t, slug, gaps[i], now)
  }

  lemma DescribesStep(u: Sync, slug: string, existing: set<string>, gaps: seq<Gap>, g: Gap, now: int)
    requires AllDescribed(u.table, slug, gaps, now) && forall i :: 0 <= i < |gaps| ==> gaps[i].setKey != g.setKey
    requires g.setKey in existing <==> Key(slug, g.setKey) in u.table
    ensures var v := SyncGap(u, slug, existing, g, now);
            v.table.Keys == u.table.Keys + {Key(slug, g.setKey)} && AllDescribed(v.table, slug, gaps + [g], now)
  {
    OneDescribed(u, slug, existing, g, now);
    var v := SyncGap(u, slug, existing, g, now);
    forall i | 0 <= i < |gaps|
      ensures Described(v.table, slug, gaps[i], now)
    {
      assert Described(u.table, slug, gaps[i], now);
    }
  }

  lemma {:induction false} SyncDescribes(s: Sync, slug: string, existing: set<string>, gaps: seq<Gap>, now: int)
    requires DistinctGaps(gaps) && forall k :: k in s.table && k.slug == slug ==> k.setKey in existing
    requires forall x :: x in existing ==> Key(slug, x) in s.table
    ensures var u := SyncGaps(s, slug, existing, gaps, now);
      && (forall k :: k in s.table ==> k in u.table)
      && (forall k :: k in u.table && k !in s.table ==> k.setKey in WantOf(gaps))
      && AllDescribed(u.table, slug, gaps, now)
  {
    if gaps != [] {
      var n := |gaps| - 1;
      var u, init, g := SyncGaps(s, slug, existing, gaps[..n], now), gaps[..n], gaps[n];
      assert gaps == init + [g] && forall i :: 0 <= i < n ==> init[i].setKey != g.setKey;
      SyncDescribes(s, slug, existing, init, now);
      WantPush(gaps);
      assert g.setKey !in WantOf(init);
      DescribesStep(u, slug, existing, init, g, now);
    }
  }

  lemma {:induction false} NothingToSync(t: Table, nextId: nat, slug: string, gaps: seq<Gap>, now: int)
    requires AllDescribed(t, slug, gaps, now)
    ensures SyncGaps(Sync(t, nextId, 0), slug, KeysOf(t, slug), gaps, now) == Sync(t, nextId, 0)
  {
    if gaps != [] {
      var n := |gaps| - 1;
      assert forall i :: 0 <= i < n ==> gaps[..n][i] == gaps[i];
      NothingToSync(t, nextId, slug, gaps[..n], now);
      var k := Key(slug, gaps[n].setKey);
      assert k.setKey in KeysOf(t, slug);
      assert t[k := t[k]] == t;
    }
  }

  /** Syncing the same gaps again at the same time adds nothing, removes nothing, changes nothing. */
  lemma SyncIdempotent(t: Table, nextId: nat, slug: string, gaps: seq<Gap>, now: int)
    requires IdsOk(t, nextId) && DistinctGaps(gaps)
    ensures var s := SyncTable(t, nextId, slug, gaps, now);
      && SyncTable(s.table, s.nextId, slug, gaps, now) == Sync(s.table, s.nextId, 0)
      && KeysOf(s.table, slug) - WantOf(gaps) == {}
  {
    var s := SyncTable(t, nextId, slug, gaps, now);
    assert KeysOf(s.table, slug) - WantOf(gaps) == {} by {
      SyncIsExact(t, nextId, slug, gaps, now);
    }
    SyncedDescribe(t, nextId, slug, gaps, now);
    NothingToSync(s.table, s.nextId, slug, gaps, now);
    assert Without(s.table, slug, {}) == s.table;
  }

  lemma SyncedDescribe(t: Table, nextId: nat, slug: string, gaps: seq<Gap>, now: int)
    requires IdsOk(t, nextId) && DistinctGaps(gaps)
    ensures AllDescribed(SyncTable(t, nextId, slug, gaps, now).table, slug, gaps, now)
  {
    assert forall x :: x in KeysOf(t, slug) ==> Key(slug, x) in t;
    SyncDescribes(Sync(t, nextId, 0), slug, KeysOf(t, slug), gaps, now);
    forall i | 0 <= i < |gaps|
      ensures gaps[i].setKey in WantOf(gaps)
    {
    }
  }

  // ---------- Runs: how often a gap can be attempted ----------

  /** `Attempt` is a search of a row that was due at `checked`, recorded at `now`. */
  datatype Event =
    | SyncAt(slug: string, gaps: seq<Gap>, now: int)
    | Attempt(id: nat, checked: int, now: int, status: Status, reason: string)
    | ClearAll(slug: string)
    | DeleteOne(id: nat)

  datatype State = State(table: Table, nextId: nat)

  ghost predicate Enabled(st: State, e: Event) {
    e.Attempt? ==>
      && e.checked <= e.now
      && exists k :: k in st.table && st.table[k].id == e.id && st.table[k].status != Grabbed &&
          Due(st.table[k], e.checked)
  }

  function Apply(st: State, e: Event): State {
    match e
    case SyncAt(slug, gaps, now) =>
      if Trim(slug) == "" then st
      else
        var s := SyncTable(st.table, st.nextId, slug, gaps, now);
        State(s.table, s.nextId)
    case Attempt(id, _, now, status, reason) => st.(table := Recorded(st.table, id, status, reason, now))
    case ClearAll(slug) => st.(table := map k | k in st.table && k.slug != slug :: st.table[k])
    case DeleteOne(id) => st.(table := map k | k in st.table && st.table[k].id != id :: st.table[k])
  }

  ghost predicate IsRun(run: seq<State>, events: seq<Event>) {
    && |run| == |events| + 1 && IdsOk(run[0].table, run[0].nextId)
    && forall i :: 0 <= i < |events| ==> Enabled(run[i], events[i]) && run[i + 1] == Apply(run[i], events[i])
  }

  /** The stamps of the attempts on the row stored under `k`. */
  ghost function Stamps(run: seq<State>, events: seq<Event>, k: Key, n: nat): seq<int>
    requires |run| == |events| + 1 && n <= |events| && forall i :: 0 <= i <= n ==> k in run[i].table
  {
    if n == 0 then []
    else
      var e := events[n - 1];
      Stamps(run, events, k, n - 1)
      + if e.Attempt? && e.id == run[n - 1].table[k].id then [e.now] else []
  }

  lemma IdsKept(st: State, e: Event)
    requires IdsOk(st.table, st.nextId)
    ensures IdsOk(Apply(st, e).table, Apply(st, e).nextId)
  {
    if e.SyncAt? && Trim(e.slug) != "" {
      SyncIsExact(st.table, st.nextId, e.slug, e.gaps, e.now);
    }
  }

  /** What one event does to the attempt history of a row that stays in the table. */
  lemma HistoryStep(st: State, e: Event, k: Key)
    requires IdsOk(st.table, st.nextId) && Enabled(st, e) && k in st.table && k in Apply(st, e).table
    ensures var r, r' := st.table[k], Apply(st, e).table[k];
      && r'.id == r.id
      && if e.Attempt? && e.id == r.id
         then r'.attempts == r.attempts + 1 && r'.last == Some(e.now) && Due(r, e.checked) && e.checked <= e.now
         else r'.attempts == r.attempts && r'.last == r.last
  {
    if e.SyncAt? && Trim(e.slug) != "" {
      SyncIsExact(st.table, st.nextId, e.slug, e.gaps, e.now);
    }
  }

  lemma {:induction false} RunIds(run: seq<State>, events: seq<Event>, n: nat)
    requires IsRun(run, events) && n <= |events|
    ensures IdsOk(run[n].table, run[n].nextId)
  {
    if n > 0 {
      RunIds(run, events, n - 1);
      IdsKept(run[n - 1], events[n - 1]);
      assert run[n - 1 + 1] == Apply(run[n - 1], events[n - 1]);
    }
  }

  ghost predicate Spaced(ts: seq<int>) { forall i :: 1 <= i < |ts| ==> ts[i] - ts[i - 1] >= WaitHours(i) * 3600 }

  /** The row of k after n events carries the attempts made so far, well spaced. */
  ghost predicate Recording(ts: seq<int>, r: Row) {
    |ts| == r.attempts && Spaced(ts) && (ts != [] ==> r.last == Some(ts[|ts| - 1]))
  }

  lemma RecordingStep(st: State, e: Event, k: Key, ts: seq<int>)
    requires IdsOk(st.table, st.nextId) && Enabled(st, e) && k in st.table && k in Apply(st, e).table
    requires Recording(ts, st.table[k])
    ensures Recording(ts + if e.Attempt? && e.id == st.table[k].id then [e.now] else [], Apply(st, e).table[k])
  {
    HistoryStep(st, e, k);
    if e.Attempt? && e.id == st.table[k].id {
      SpacedPush(ts, e.now, e.checked);
    }
  }

  /** Attempt i+1 comes at least the backoff of i attempts after attempt i, whatever syncs,
      re-openings and other rows' events lie in between. */
  lemma {:induction false} AttemptsAreSpaced(run: seq<State>, events: seq<Event>, k: Key, n: nat)
    requires IsRun(run, events) && n <= |events| && forall i :: 0 <= i <= n ==> k in run[i].table
    requires run[0].table[k].attempts == 0
    ensures Recording(Stamps(run, events, k, n), run[n].table[k])
  {
    if n > 0 {
      var m := n - 1;
      AttemptsAreSpaced(run, events, k, m);
      RunIds(run, events, m);
      assert run[m + 1] == Apply(run[m], events[m]) && Enabled(run[m], events[m]);
      RecordingStep(run[m], events[m], k, Stamps(run, events, k, m));
    }
  }

  lemma SpacedPush(ts: seq<int>, now: int, checked: int)
    requires Spaced(ts) && checked <= now
    requires ts != [] ==> checked >= ts[|ts| - 1] + WaitHours(|ts|) * 3600
    ensures Spaced(ts + [now])
  {
  }

  ghost function HoursUpTo(n: nat): nat {
    if n == 0 then 0 else HoursUpTo(n - 1) + WaitHours(n)
  }

  lemma {:induction false} HoursClosedForm(n: nat)
    requires n >= 8
    ensures HoursUpTo(n) == 255 + 168 * (n - 8)
  {
    if n == 8 {
      assert Pow2(3) == 8 && Pow2(5) == 32 && Pow2(7) == 128;
      assert HoursUpTo(2) == 3 && HoursUpTo(4) == 15 && HoursUpTo(6) == 63;
    } else {
      HoursClosedForm(n - 1);
      assert Pow2(4) == 16 && Pow2(6) == 64 && Pow2(8) == 256;
    }
  }

  lemma {:induction false} SpacingSums(ts: seq<int>, n: nat)
    requires n < |ts| && Spaced(ts)
    ensures ts[n] - ts[0] >= HoursUpTo(n) * 3600
  {
    if n > 0 {
      SpacingSums(ts, n - 1);
    }
  }

  /** While a gap stays wanted, n + 1 attempts with n >= 8 span at least 255 + 168(n - 8) hours. */
  lemma AttemptsSpan(run: seq<State>, events: seq<Event>, k: Key, m: nat, n: nat)
    requires IsRun(run, events) && m <= |events| && forall i :: 0 <= i <= m ==> k in run[i].table
    requires run[0].table[k].attempts == 0 && 8 <= n < |Stamps(run, events, k, m)|
    ensures var ts := Stamps(run, events, k, m);
            ts[n] - ts[0] >= (255 + 168 * (n - 8)) * 3600
  {
    AttemptsAreSpaced(run, events, k, m);
    SpacingSums(Stamps(run, events, k, m), n);
    HoursClosedForm(n);
  }

  // ---------- The store ----------

  class Store {
    var table: Table
    var nextId: nat

    ghost predicate Valid()
      reads this
    {
      IdsOk(table, nextId)
    }

    constructor ()
      ensures Valid() && table == map[]
    {
      table, nextId := map[], 0;
    }

    method SyncCollectionTargets(slug: string, gaps: seq<Gap>, now: int) returns (added: nat, removed: nat)
      requires Valid()
      modifies this
      ensures Valid()
      ensures if Trim(slug) == "" then table == old(table) && added == removed == 0
              else SyncTable(old(table), old(nextId), slug, gaps, now) == Sync(table, nextId, added)
                   && removed == |KeysOf(old(table), slug) - WantOf(gaps)|
    {
      if Trim(slug) == "" {
        return 0, 0;
      }
      SyncIsExact(table, nextId, slug, gaps, now);
      var existing := KeysOf(table, slug);
      var want;
      added, want := SyncEach(slug, existing, gaps, now);
      removed := DeleteUnwanted(slug, existing, want);
    }

    /** The loop over the gaps. */
    method SyncEach(slug: string, existing: set<string>, gaps: seq<Gap>, now: int)
      returns (added: nat, want: set<string>)
      modifies this
      ensures Sync(table, nextId, added) == SyncGaps(Sync(old(table), old(nextId), 0), slug, existing, gaps, now)
      ensures want == WantOf(gaps)
    {
      added, want := 0, {};
      for i := 0 to |gaps|
        invariant Sync(table, nextId, added) == SyncGaps(Sync(old(table), old(nextId), 0), slug, existing, gaps[..i],
            now)
        invariant want == WantOf(gaps[..i])
      {
        assert gaps[..i + 1][..i] == gaps[..i];
        WantPush(gaps[..i + 1]);
        want := want + {gaps[i].setKey};
        var isNew := SyncOne(slug, existing, gaps[i], added, now);
        if isNew {
          added := added + 1;
        }
      }
      assert gaps[..|gaps|] == gaps;
    }

    /** The turn of one gap: refresh and perhaps re-open, or insert. */
    method SyncOne(slug: string, existing: set<string>, g: Gap, ghost added: nat, now: int) returns (isNew: bool)
      modifies this
      ensures Sync(table, nextId, added + if isNew then 1 else 0) ==
              SyncGap(Sync(old(table), old(nextId), added), slug, existing, g, now)
    {
      var k := Key(slug, g.setKey);
      if g.setKey in existing {
        if k in table {
          table := table[k := table[k].(title := g.title, dumpName := g.dumpName, hashes := g.hashes)];
          var r := table[k];
          if r.status == Grabbed && (r.last.None? || r.last.value < now - GRABBED_TIMEOUT) {
            table := table[k := table[k].(status := Wanted, reason := "the grabbed release did not fill this gap")];
          }
        }
        return false;
      }
      if k in table {
        return false;
      }
      table := table[k := Row(nextId, g.title, g.dumpName, g.hashes, Wanted, 0, None, "")];
      nextId := nextId + 1;
      return true;
    }

    ghost function Dropped(existing: set<string>, todo: set<string>, want: set<string>): set<string> {
      (existing - todo) - want
    }

    lemma TodoStep(before: Table, slug: string, existing: set<string>, todo: set<string>, want: set<string>,
                   key: string)
      requires todo <= existing && key in todo
      ensures var t := Without(before, slug, Dropped(existing, todo, want));
              Without(before, slug, Dropped(existing, todo - {key}, want)) == if key in want then t
                else t - {Key(slug, key)}
      ensures |Dropped(existing, todo - {key}, want)| == |Dropped(existing, todo, want)| + if key in want then 0 else 1
    {
      var dropped := Dropped(existing, todo, want);
      assert Dropped(existing, todo - {key}, want) == if key in want then dropped else dropped + {key};
      WithoutOneMore(before, slug, dropped, key);
    }

    /** The loop over the keys that were there before and are no longer wanted. */
    method DeleteUnwanted(slug: string, existing: set<string>, want: set<string>) returns (removed: nat)
      modifies this`table
      ensures table == Without(old(table), slug, existing - want) && removed == |existing - want|
    {
      removed := 0;
      var todo := existing;
      ghost var before := table;
      assert Without(table, slug, {}) == table && Dropped(existing, todo, want) == {};
      while todo != {}
        invariant todo <= existing
        invariant table == Without(before, slug, Dropped(existing, todo, want)) &&
            removed == |Dropped(existing, todo, want)|
        decreases |todo|
      {
        var key :| key in todo;
        TodoStep(before, slug, existing, todo, want, key);
        todo := todo - {key};
        if key in want {
          continue;
        }
        table := table - {Key(slug, key)};
        removed := removed + 1;
      }
      assert Dropped(existing, todo, want) == existing - want;
    }

    method RecordCollectionAttempt(id: nat, status: Status, reason: string, now: int)
      requires Valid()
      modifies this`table
      ensures Valid() && table == Recorded(old(table), id, status, reason, now)
    {
      table := map k | k in table :: if table[k].id == id
        then table[k].(status := status, attempts := table[k].attempts + 1, last := Some(now), reason := reason)
        else table[k];
    }

    method ClearCollectionTargets(slug: string) returns (n: nat)
      requires Valid()
      modifies this`table
      ensures Valid() && table == (map k | k in old(table) && k.slug != slug :: old(table)[k])
      ensures n == |old(table)| - |table|
    {
      var kept: Table := map k | k in table && k.slug != slug :: table[k];
      assert |kept| <= |table| by {
        assert kept.Keys <= table.Keys;
        var rest := table.Keys - kept.Keys;
        assert table.Keys == kept.Keys + rest;
        assert |table.Keys| == |kept.Keys| + |rest|;
      }
      n := |table| - |kept|;
      table := kept;
    }

    ghost predicate InQueue(slug: string, k: Key)
      reads this
    {
      k in table && k.slug == slug && table[k].status != Grabbed
    }

    ghost predicate Listed(slug: string, r: Row)
      reads this
    {
      exists k :: InQueue(slug, k) && table[k] == r
    }

    /** The rows of a platform that are due, each once, oldest attempt first, cut to the limit. */
    method DueCollectionTargets(slug: string, limit: int, now: int) returns (due: seq<Row>)
      requires Valid()
      ensures forall r :: r in due ==> Listed(slug, r) && Due(r, now)
      ensures Ordered(due) && Distinct(due)
      ensures limit > 0 ==> |due| <= limit
      ensures forall k :: InQueue(slug, k) && Due(table[k], now) && table[k] !in due ==>
                limit > 0 && |due| == limit && forall r :: r in due ==> !QueueLess(table[k], r)
    {
      var rows := Queue(slug);
      due := [];
      for i := 0 to |rows|
        invariant limit > 0 ==> |due| < limit
        invariant DueOf(rows, i, now, due)
      {
        if !Due(rows[i], now) {
          continue;
        }
        DueStep(rows, i, now, due);
        due := due + [rows[i]];
        assert forall r :: r in rows[..i + 1] ==> r in rows;
        if limit > 0 && |due| >= limit {
          forall k | InQueue(slug, k) && Due(table[k], now) && table[k] !in due
            ensures forall r :: r in due ==> !QueueLess(table[k], r)
          {
            assert table[k] in rows;
            DueIsFirst(rows, i + 1, now, due, table[k]);
          }
          return;
        }
      }
      assert rows[..|rows|] == rows;
    }

    /** `WHERE platform_slug = ? AND status != 'grabbed' ORDER BY last_attempt, title`. */
    method Queue(slug: string) returns (rows: seq<Row>)
      requires Valid()
      ensures forall r :: r in rows <==> Listed(slug, r)
      ensures Ordered(rows) && Distinct(rows)
    {
      rows := [];
      var todo := table.Keys;
      while todo != {}
        invariant todo <= table.Keys
        invariant forall r :: r in rows <==> exists k :: InQueue(slug, k) && k !in todo && table[k] == r
        invariant Ordered(rows) && Distinct(rows)
        decreases |todo|
      {
        var k :| k in todo;
        if k.slug == slug && table[k].status != Grabbed {
          rows := InsertRow(rows, table[k]);
        }
        todo := todo - {k};
      }
    }
  }

  ghost predicate Ordered(rows: seq<Row>) { forall i, j :: 0 <= i < j < |rows| ==> !QueueLess(rows[j], rows[i]) }

  ghost predicate Distinct(rows: seq<Row>) { forall i, j :: 0 <= i < j < |rows| ==> rows[i] != rows[j] }

  /** The due rows among the first n, in order. */
  ghost predicate DueOf(rows: seq<Row>, n: nat, now: int, due: seq<Row>)
    requires n <= |rows|
  {
    && Ordered(due) && Distinct(due)
    && forall r :: r in due <==> r in rows[..n] && Due(r, now)
  }

  /** What the order says: rows never attempted first, then the longest untouched, then by title. */
  lemma QueueAscends(rows: seq<Row>, i: nat, j: nat)
    requires Ordered(rows) && i < j < |rows|
    ensures rows[j].last.None? ==> rows[i].last.None?
    ensures rows[i].last.Some? && rows[j].last.Some? ==> rows[i].last.value <= rows[j].last.value
    ensures rows[i].last == rows[j].last ==>
              rows[i].title == rows[j].title || StringLess(rows[i].title, rows[j].title)
  {
    StringLessTotal(rows[i].title, rows[j].title);
  }

  lemma DueStep(rows: seq<Row>, i: nat, now: int, due: seq<Row>)
    requires i < |rows| && Ordered(rows) && Distinct(rows) && DueOf(rows, i, now, due) && Due(rows[i], now)
    ensures DueOf(rows, i + 1, now, due + [rows[i]])
  {
    assert rows[..i + 1] == rows[..i] + [rows[i]];
    forall x | 0 <= x < |due|
      ensures !QueueLess(rows[i], due[x]) && due[x] != rows[i]
    {
      assert due[x] in due;
      var z :| 0 <= z < i && rows[z] == due[x];
    }
  }

  lemma LateIsBehind(rows: seq<Row>, n: nat, now: int, due: seq<Row>, late: Row)
    requires n <= |rows| && DueOf(rows, n, now, due) && late in rows && Due(late, now) && late !in due
    ensures exists y :: n <= y < |rows| && rows[y] == late
  {
    assert rows == rows[..n] + rows[n..];
    assert late in rows[n..];
    var y :| 0 <= y < |rows| - n && rows[n..][y] == late;
    assert rows[n + y] == late;
  }

  /** A due row the first n do not hold comes after all of them. */
  lemma DueIsFirst(rows: seq<Row>, n: nat, now: int, due: seq<Row>, late: Row)
    requires n <= |rows| && Ordered(rows) && DueOf(rows, n, now, due)
    requires late in rows && Due(late, now) && late !in due
    ensures forall r :: r in due ==> !QueueLess(late, r)
  {
    LateIsBehind(rows, n, now, due, late);
    var y :| n <= y < |rows| && rows[y] == late;
    forall r | r in due
      ensures !QueueLess(late, r)
    {
      assert r in rows[..n];
      var z :| 0 <= z < n && rows[z] == r;
    }
  }

  lemma QueueOrder(a: Row, b: Row, c: Row)
    ensures !QueueLess(a, b) && !QueueLess(b, c) ==> !QueueLess(a, c)
    ensures !(QueueLess(a, b) && QueueLess(b, a)) && !QueueLess(a, a)
  {
    StringLessTotal(a.title, b.title);
    StringLessTotal(b.title, c.title);
    StringLessTotal(a.title, c.title);
    StringLessTotal(a.title, a.title);
    if StringLess(c.title, b.title) && StringLess(b.title, a.title) {
      StringLessTransitive(c.title, b.title, a.title);
    }
  }

  lemma InsertOrdered(rows: seq<Row>, p: nat, r: Row)
    requires Ordered(rows) && p <= |rows|
    requires forall k :: p <= k < |rows| ==> QueueLess(r, rows[k])
    requires p > 0 ==> !QueueLess(r, rows[p - 1])
    ensures Ordered(rows[..p] + [r] + rows[p..])
  {
    var out := rows[..p] + [r] + rows[p..];
    forall i, j | 0 <= i < j < |out|
      ensures !QueueLess(out[j], out[i])
    {
      var left, right := if i < p then i else i - 1, if j < p then j else j - 1;
      if i == p {
        assert out[j] == rows[right];
        QueueOrder(r, rows[right], r);
      } else if j == p {
        assert out[i] == rows[left];
        QueueOrder(r, rows[p - 1], rows[left]);
      } else {
        assert out[i] == rows[left] && out[j] == rows[right];
      }
    }
  }

  lemma InsertDistinct(rows: seq<Row>, p: nat, r: Row)
    requires Distinct(rows) && r !in rows && p <= |rows|
    ensures Distinct(rows[..p] + [r] + rows[p..])
    ensures forall x :: x in rows[..p] + [r] + rows[p..] <==> x in rows || x == r
  {
    var out := rows[..p] + [r] + rows[p..];
    assert rows == rows[..p] + rows[p..];
    forall i, j | 0 <= i < j < |out|
      ensures out[i] != out[j]
    {
      assert i == p || out[i] == rows[if i < p then i else i - 1];
      assert j == p || out[j] == rows[if j < p then j else j - 1];
    }
  }

  method InsertRow(rows: seq<Row>, r: Row) returns (out: seq<Row>)
    requires Ordered(rows) && Distinct(rows) && r !in rows
    ensures Ordered(out) && Distinct(out) && forall x :: x in out <==> x in rows || x == r
  {
    var p := |rows|;
    while p > 0 && QueueLess(r, rows[p - 1])
      invariant 0 <= p <= |rows|
      invariant forall k :: p <= k < |rows| ==> QueueLess(r, rows[k])
    {
      p := p - 1;
    }
    InsertOrdered(rows, p, r);
    InsertDistinct(rows, p, r);
    out := rows[..p] + [r] + rows[p..];
  }
}
