/** internal/api/ratelimit.go: the sliding-window limiter.

    Times are nanoseconds. A request reads the clock before it takes the lock, so the calls of one bucket
    may come with readings in any order. `After` says what a list of calls does to a bucket; `RateLimiter`
    keeps, beside the buckets the program keeps, the ghost list of calls each of them has seen. */
module RateLimit {
  const SECOND: int := 1_000_000_000

  // ---------- One bucket ----------

  /** Drops the leading entries older than the cutoff. */
  function Prune(ts: seq<int>, cutoff: int): (kept: seq<int>)
    ensures kept != [] ==> kept[0] >= cutoff
  {
    if ts != [] && ts[0] < cutoff then Prune(ts[1..], cutoff) else ts
  }

  /** Admissions in the closed window [from, to]. */
  function CountIn(ts: seq<int>, from: int, to: int): nat {
    if ts == [] then 0 else CountIn(ts[..|ts| - 1], from, to) + if from <= ts[|ts| - 1] <= to then 1 else 0
  }

  ghost predicate Sorted(ts: seq<int>) { forall i, j :: 0 <= i < j < |ts| ==> ts[i] <= ts[j] }

  ghost predicate Within(ts: seq<int>, from: int, to: int) { forall i :: 0 <= i < |ts| ==> from <= ts[i] <= to }

  ghost predicate Before(ts: seq<int>, t: int) { forall i :: 0 <= i < |ts| ==> ts[i] < t }

  datatype Verdict = Verdict(allowed: bool, retryAfter: int)

  /** Seconds until the oldest entry is `windowSec` old, cut to whole seconds, at least one. */
  function RetryAfter(windowSec: int, kept: seq<int>, now: int): int
    requires kept != [] ==> kept[0] >= now - windowSec * SECOND
  {
    if kept == [] then windowSec
    else
      var secs := (windowSec * SECOND - (now - kept[0])) / SECOND;
      if secs < 1 then 1 else secs
  }

  /** One request on one bucket. */
  function Decide(windowSec: int, limit: int, ts: seq<int>, now: int): (seq<int>, Verdict) {
    var kept := Prune(ts, now - windowSec * SECOND);
    if |kept| >= limit then (kept, Verdict(false, RetryAfter(windowSec, kept, now)))
    else (kept + [now], Verdict(true, 0))
  }

  lemma {:induction false} PruneSplits(ts: seq<int>, cutoff: int) returns (dropped: seq<int>)
    ensures ts == dropped + Prune(ts, cutoff) && Before(dropped, cutoff)
  {
    if ts != [] && ts[0] < cutoff {
      var rest := PruneSplits(ts[1..], cutoff);
      dropped := [ts[0]] + rest;
      assert ts == [ts[0]] + ts[1..];
    } else {
      dropped := [];
    }
  }

  lemma {:induction false} CountSplit(a: seq<int>, b: seq<int>, from: int, to: int)
    ensures CountIn(a + b, from, to) == CountIn(a, from, to) + CountIn(b, from, to)
  {
    if b == [] {
      assert a + b == a;
    } else {
      assert (a + b)[..|a + b| - 1] == a + b[..|b| - 1];
      CountSplit(a, b[..|b| - 1], from, to);
    }
  }

  lemma {:induction false} CountNone(ts: seq<int>, from: int, to: int)
    requires Before(ts, from)
    ensures CountIn(ts, from, to) == 0
  {
    if ts != [] {
      CountNone(ts[..|ts| - 1], from, to);
    }
  }

  lemma {:induction false} CountEvery(ts: seq<int>, from: int, to: int)
    requires Within(ts, from, to)
    ensures CountIn(ts, from, to) == |ts|
  {
    if ts != [] {
      CountEvery(ts[..|ts| - 1], from, to);
    }
  }

  lemma {:induction false} CountLater(ts: seq<int>, from: int, to: int, from': int, to': int)
    requires from' <= from && forall i :: 0 <= i < |ts| ==> ts[i] <= to'
    ensures CountIn(ts, from, to) <= CountIn(ts, from', to')
  {
    if ts != [] {
      CountLater(ts[..|ts| - 1], from, to, from', to');
    }
  }

  // ---------- A bucket against its whole history ----------

  /** `gone` are the admissions already dropped; with `ts` they are the whole history, and
      at time `seen` they are all too old to matter. */
  ghost predicate Tracks(window: int, gone: seq<int>, ts: seq<int>, seen: int) {
    Sorted(ts) && Before(gone, seen - window) && Before(ts, seen + 1)
  }

  /** Pruning splits the bucket: what it drops joins `gone`, what it keeps is the window. */
  lemma PruneTracks(window: int, gone: seq<int>, ts: seq<int>, seen: int, now: int) returns (dropped: seq<int>)
    requires Tracks(window, gone, ts, seen) && seen <= now
    ensures var kept := Prune(ts, now - window);
      && ts == dropped + kept && Tracks(window, gone + dropped, kept, now) && Within(kept, now - window, now)
  {
    dropped := PruneSplits(ts, now - window);
    var kept := Prune(ts, now - window);
    forall i | 0 <= i < |kept|
      ensures now - window <= kept[i] <= now
      ensures forall j :: i < j < |kept| ==> kept[i] <= kept[j]
    {
      assert ts[|dropped| + i] == kept[i] && ts[|dropped|] == kept[0];
      forall j | i < j < |kept|
        ensures kept[i] <= kept[j]
      {
        assert ts[|dropped| + j] == kept[j];
      }
    }
  }

  /** The pruned bucket is exactly the history's window ending now. */
  lemma KeptIsWindow(window: int, gone: seq<int>, kept: seq<int>, now: int)
    requires Tracks(window, gone, kept, now) && Within(kept, now - window, now)
    ensures |kept| == CountIn(gone + kept, now - window, now)
  {
    CountSplit(gone, kept, now - window, now);
    CountNone(gone, now - window, now);
    CountEvery(kept, now - window, now);
  }

  /** Every closed window holds at most `limit` admissions. */
  ghost predicate WindowsBounded(window: int, limit: nat, history: seq<int>) {
    forall from, to :: to == from + window ==> CountIn(history, from, to) <= limit
  }

  lemma AdmissionKeepsWindows(window: int, limit: nat, history: seq<int>, now: int)
    requires WindowsBounded(window, limit, history) && Before(history, now + 1)
    requires CountIn(history, now - window, now) < limit
    ensures WindowsBounded(window, limit, history + [now])
  {
    assert (history + [now])[..|history|] == history;
    forall from, to | to == from + window
      ensures CountIn(history + [now], from, to) <= limit
    {
      if from <= now <= to {
        CountLater(history, now - window, to, now - window, now);
        CountLater(history, from, to, now - window, now);
      }
    }
  }

  /** One request against the whole history of its bucket: it is denied exactly when the window
      ending now is full, and an admission leaves every window within the limit. */
  lemma DecideIsExact(windowSec: nat, limit: nat, gone: seq<int>, ts: seq<int>, seen: int, now: int)
    returns (dropped: seq<int>)
    requires Tracks(windowSec * SECOND, gone, ts, seen) && seen <= now
    requires WindowsBounded(windowSec * SECOND, limit, gone + ts)
    ensures var w, (ts', v) := windowSec * SECOND, Decide(windowSec, limit, ts, now);
      && (v.allowed <==> CountIn(gone + ts, now - w, now) < limit)
      && Tracks(w, gone + dropped, ts', now) && WindowsBounded(w, limit, gone + dropped + ts')
      && gone + dropped + ts' == gone + ts + if v.allowed then [now] else []
  {
    var w := windowSec * SECOND;
    dropped := PruneTracks(w, gone, ts, seen, now);
    var kept := Prune(ts, now - w);
    assert gone + dropped + kept == gone + ts;
    Admit(w, limit, gone + dropped, kept, now);
    assert gone + ts + [] == gone + ts;
  }

  lemma Append(window: nat, gone: seq<int>, kept: seq<int>, now: int)
    requires Tracks(window, gone, kept, now)
    ensures Tracks(window, gone, kept + [now], now)
    ensures gone + (kept + [now]) == gone + kept + [now]
    ensures Before(gone + kept, now + 1)
  {
  }

  /** The pruned bucket counts the window, and one more entry fits if it is not full. */
  lemma Admit(window: nat, limit: nat, gone: seq<int>, kept: seq<int>, now: int)
    requires Tracks(window, gone, kept, now) && Within(kept, now - window, now)
    requires WindowsBounded(window, limit, gone + kept)
    ensures |kept| == CountIn(gone + kept, now - window, now)
    ensures |kept| < limit ==>
      && Tracks(window, gone, kept + [now], now) && WindowsBounded(window, limit, gone + (kept + [now]))
      && gone + (kept + [now]) == gone + kept + [now]
  {
    KeptIsWindow(window, gone, kept, now);
    Append(window, gone, kept, now);
    if |kept| < limit {
      AdmissionKeepsWindows(window, limit, gone + kept, now);
    }
  }

  // ---------- A bucket over all its calls ----------

  datatype Call = Ask(now: int) | Sweep(now: int)

  /** The bucket, and every admission made so far. */
  datatype Past = Past(ts: seq<int>, admitted: seq<int>)

  /** A request decides on the bucket; a cleanup deletes a bucket whose newest entry is too old. */
  function Step(windowSec: int, limit: int, p: Past, c: Call): Past {
    match c
    case Ask(now) =>
      var (ts, v) := Decide(windowSec, limit, p.ts, now);
      Past(ts, p.admitted + if v.allowed then [now] else [])
    case Sweep(now) => p.(ts := if Expired(p.ts, now - windowSec * SECOND) then [] else p.ts)
  }

  predicate Expired(ts: seq<int>, cutoff: int) { ts == [] || ts[|ts| - 1] < cutoff }

  function After(windowSec: int, limit: int, calls: seq<Call>): Past {
    if calls == [] then Past([], [])
    else Step(windowSec, limit, After(windowSec, limit, calls[..|calls| - 1]), calls[|calls| - 1])
  }

  ghost predicate InOrder(calls: seq<Call>) { forall i, j :: 0 <= i < j < |calls| ==> calls[i].now <= calls[j].now }

  /** A limit below zero refuses everything, as zero does. */
  function Cap(limit: int): nat { if limit < 0 then 0 else limit }

  ghost predicate Bounded(windowSec: nat, limit: int, calls: seq<Call>) {
    WindowsBounded(windowSec * SECOND, Cap(limit), After(windowSec, limit, calls).admitted)
  }

  lemma AfterPush(windowSec: int, limit: int, calls: seq<Call>, c: Call)
    ensures After(windowSec, limit, calls + [c]) == Step(windowSec, limit, After(windowSec, limit, calls), c)
  {
    assert (calls + [c])[..|calls|] == calls;
  }

  // ---------- Calls in clock order ----------

  /** The bucket is the end of the admissions, and what it no longer holds is too old to matter. */
  ghost predicate Tied(window: int, cap: nat, p: Past, seen: int) {
    && |p.ts| <= |p.admitted|
    && p.admitted == Dropped(p) + p.ts
    && Tracks(window, Dropped(p), p.ts, seen)
    && WindowsBounded(window, cap, p.admitted)
  }

  ghost function Dropped(p: Past): seq<int>
    requires |p.ts| <= |p.admitted|
  {
    p.admitted[..|p.admitted| - |p.ts|]
  }

  lemma TiedAgain(window: int, cap: nat, gone: seq<int>, ts: seq<int>, seen: int)
    requires Tracks(window, gone, ts, seen) && WindowsBounded(window, cap, gone + ts)
    ensures Tied(window, cap, Past(ts, gone + ts), seen)
  {
    assert (gone + ts)[..|gone|] == gone;
  }

  lemma AskStep(windowSec: nat, limit: int, p: Past, seen: int, now: int)
    requires Tied(windowSec * SECOND, Cap(limit), p, seen) && seen <= now
    ensures Tied(windowSec * SECOND, Cap(limit), Step(windowSec, limit, p, Ask(now)), now)
    ensures Decide(windowSec, limit, p.ts, now).1.allowed <==>
        CountIn(p.admitted, now - windowSec * SECOND, now) < limit
  {
    var w, gone := windowSec * SECOND, Dropped(p);
    var dropped := DecideIsExact(windowSec, Cap(limit), gone, p.ts, seen, now);
    var (ts, v) := Decide(windowSec, Cap(limit), p.ts, now);
    TiedAgain(w, Cap(limit), gone + dropped, ts, now);
  }

  lemma SweepStep(windowSec: nat, limit: int, p: Past, seen: int, now: int)
    requires Tied(windowSec * SECOND, Cap(limit), p, seen) && seen <= now
    ensures Tied(windowSec * SECOND, Cap(limit), Step(windowSec, limit, p, Sweep(now)), now)
  {
    if Expired(p.ts, now - windowSec * SECOND) {
      assert p.admitted + [] == p.admitted;
      TiedAgain(windowSec * SECOND, Cap(limit), p.admitted, [], now);
    }
  }

  lemma {:induction false} InOrderIsTied(windowSec: nat, limit: int, calls: seq<Call>, seen: int)
    requires InOrder(calls) && (calls != [] ==> calls[|calls| - 1].now <= seen)
    ensures Tied(windowSec * SECOND, Cap(limit), After(windowSec, limit, calls), seen)
  {
    if calls == [] {
      var none: seq<int> := [];
      assert none + none == none;
      TiedAgain(windowSec * SECOND, Cap(limit), none, none, seen);
    } else {
      var n := |calls| - 1;
      var p := After(windowSec, limit, calls[..n]);
      var now := calls[n].now;
      InOrderIsTied(windowSec, limit, calls[..n], now);
      if calls[n].Ask? {
        AskStep(windowSec, limit, p, now, now);
      } else {
        SweepStep(windowSec, limit, p, now, now);
      }
    }
  }

  lemma TiedAt(windowSec: nat, limit: int, calls: seq<Call>, now: int)
    requires InOrder(calls + [Ask(now)])
    ensures InOrder(calls) && Tied(windowSec * SECOND, Cap(limit), After(windowSec, limit, calls), now)
  {
    var all := calls + [Ask(now)];
    assert InOrder(calls) by {
      assert forall i :: 0 <= i < |calls| ==> all[i] == calls[i];
    }
    assert calls != [] ==> all[|calls| - 1].now <= all[|calls|].now;
    InOrderIsTied(windowSec, limit, calls, now);
  }

  /** Calls in clock order never put more than the limit into a window, and a request is refused exactly
      when the window ending now is full. */
  lemma InOrderIsBounded(windowSec: nat, limit: int, calls: seq<Call>, now: int)
    requires InOrder(calls + [Ask(now)])
    ensures Bounded(windowSec, limit, calls) && Bounded(windowSec, limit, calls + [Ask(now)])
    ensures var p := After(windowSec, limit, calls);
            Decide(windowSec, limit, p.ts, now).1.allowed <==>
              CountIn(p.admitted, now - windowSec * SECOND, now) < limit
  {
    TiedAt(windowSec, limit, calls, now);
    AskStep(windowSec, limit, After(windowSec, limit, calls), now, now);
    AfterPush(windowSec, limit, calls, Ask(now));
  }

  // ---------- Calls in any order ----------

  ghost predicate AsksOnly(calls: seq<Call>) { forall i :: 0 <= i < |calls| ==> calls[i].Ask? }

  /** Every two admissions lie more than a window apart. */
  ghost predicate Gapped(window: int, h: seq<int>) { forall i, j :: 0 <= i < j < |h| ==> h[j] - h[i] > window }

  lemma GappedIsBounded(window: nat, h: seq<int>)
    requires Gapped(window, h)
    ensures WindowsBounded(window, 1, h)
  {
    forall from, to | to == from + window
      ensures CountIn(h, from, to) <= 1
    {
      GappedCount(window, h, from, to);
    }
  }

  lemma {:induction false} GappedCount(window: nat, h: seq<int>, from: int, to: int)
    requires Gapped(window, h) && to == from + window
    ensures CountIn(h, from, to) <= 1
  {
    if h != [] {
      var n := |h| - 1;
      if from <= h[n] <= to {
        CountNone(h[..n], from, to);
      } else {
        GappedCount(window, h[..n], from, to);
      }
    }
  }

  /** With limit 1 the bucket is the latest admission. */
  ghost predicate Lone(window: int, p: Past) {
    Gapped(window, p.admitted) && p.ts == if p.admitted == [] then [] else [p.admitted[|p.admitted| - 1]]
  }

  lemma LoneStep(windowSec: nat, p: Past, now: int)
    requires Lone(windowSec * SECOND, p)
    ensures Lone(windowSec * SECOND, Step(windowSec, 1, p, Ask(now)))
  {
    var w := windowSec * SECOND;
    if Prune(p.ts, now - w) == [] {
      var h := p.admitted + [now];
      assert Step(windowSec, 1, p, Ask(now)) == Past([now], h);
      if p.admitted != [] {
        assert p.admitted[|p.admitted| - 1] < now - w;
      }
      assert Gapped(w, h);
    } else {
      assert p.ts[1..] == [] && Prune(p.ts, now - w) == p.ts;
      assert p.admitted + [] == p.admitted;
    }
  }

  lemma {:induction false} OneIsLone(windowSec: nat, calls: seq<Call>)
    requires AsksOnly(calls)
    ensures Lone(windowSec * SECOND, After(windowSec, 1, calls))
  {
    if calls != [] {
      var n := |calls| - 1;
      OneIsLone(windowSec, calls[..n]);
      LoneStep(windowSec, After(windowSec, 1, calls[..n]), calls[n].now);
    }
  }

  lemma {:induction false} NoneAdmitted(windowSec: int, limit: int, calls: seq<Call>)
    requires limit <= 0
    ensures After(windowSec, limit, calls).admitted == []
  {
    if calls != [] {
      NoneAdmitted(windowSec, limit, calls[..|calls| - 1]);
    }
  }

  lemma {:induction false} EmptyBucket(windowSec: int, limit: int, calls: seq<Call>)
    requires limit <= 0
    ensures After(windowSec, limit, calls).ts == []
  {
    if calls != [] {
      EmptyBucket(windowSec, limit, calls[..|calls| - 1]);
    }
  }

  function Repeat<T>(x: T, n: nat): seq<T> { if n == 0 then [] else Repeat(x, n - 1) + [x] }

  lemma {:induction false} RepeatIs<T>(x: T, n: nat)
    ensures |Repeat(x, n)| == n && forall i :: 0 <= i < n ==> Repeat(x, n)[i] == x
  {
    if n > 0 {
      RepeatIs(x, n - 1);
    }
  }

  lemma PruneNone(ts: seq<int>, cutoff: int)
    requires ts != [] ==> ts[0] >= cutoff
    ensures Prune(ts, cutoff) == ts
  {
  }

  lemma {:induction false} PruneAll(ts: seq<int>, cutoff: int)
    requires Before(ts, cutoff)
    ensures Prune(ts, cutoff) == []
  {
    if ts != [] {
      PruneAll(ts[1..], cutoff);
    }
  }

  lemma FillStep(windowSec: nat, limit: int, n: nat)
    requires n < limit
    ensures Step(windowSec, limit, Past(Repeat(0, n), Repeat(0, n)), Ask(0)) == Past(Repeat(0, n + 1), Repeat(0, n + 1))
  {
    RepeatIs(0, n);
    PruneNone(Repeat(0, n), 0 - windowSec * SECOND);
  }

  /** The first n requests at time 0 are admitted, up to the limit. */
  lemma {:induction false} FillUp(windowSec: nat, limit: int, n: nat)
    requires n <= limit
    ensures After(windowSec, limit, Repeat(Ask(0), n)) == Past(Repeat(0, n), Repeat(0, n))
  {
    if n > 0 {
      FillUp(windowSec, limit, n - 1);
      AfterPush(windowSec, limit, Repeat(Ask(0), n - 1), Ask(0));
      FillStep(windowSec, limit, n - 1);
    }
  }

  lemma {:induction false} ZerosCount(n: nat, window: nat)
    ensures CountIn(Repeat(0, n), 0, window) == n
  {
    if n > 0 {
      ZerosCount(n - 1, window);
      RepeatIs(0, n);
      assert Repeat(0, n)[..n - 1] == Repeat(0, n - 1);
    }
  }

  /** Fill the window at 0, empty the bucket by a call one window later, and come back with the reading 0. */
  function LateCalls(limit: nat, emptied: Call): seq<Call> { Repeat(Ask(0), limit) + [emptied] + [Ask(0)] }

  lemma AfterThree(windowSec: int, limit: int, calls: seq<Call>, c: Call, d: Call)
    ensures After(windowSec, limit, calls + [c] + [d])
            == Step(windowSec, limit, Step(windowSec, limit, After(windowSec, limit, calls), c), d)
  {
    AfterPush(windowSec, limit, calls, c);
    AfterPush(windowSec, limit, calls + [c], d);
  }

  lemma OneTooMany(windowSec: nat, limit: nat, rest: seq<int>)
    ensures CountIn(Repeat(0, limit) + rest + [0], 0, windowSec * SECOND) > limit
  {
    var w := windowSec * SECOND;
    CountSplit(Repeat(0, limit) + rest, [0], 0, w);
    CountSplit(Repeat(0, limit), rest, 0, w);
    ZerosCount(limit, w);
    assert CountIn([0], 0, w) == CountIn([0][..0], 0, w) + 1;
  }

  lemma TwoBreaks(windowSec: nat, limit: nat)
    requires limit >= 2
    ensures AsksOnly(LateCalls(limit, Ask(windowSec * SECOND + 1)))
    ensures !Bounded(windowSec, limit, LateCalls(limit, Ask(windowSec * SECOND + 1)))
  {
    var w := windowSec * SECOND;
    RepeatIs(Ask(0), limit);
    FillUp(windowSec, limit, limit);
    AfterThree(windowSec, limit, Repeat(Ask(0), limit), Ask(w + 1), Ask(0));
    RepeatIs(0, limit);
    PruneAll(Repeat(0, limit), 1);
    var p := Step(windowSec, limit, Past(Repeat(0, limit), Repeat(0, limit)), Ask(w + 1));
    assert p == Past([w + 1], Repeat(0, limit) + [w + 1]);
    PruneNone([w + 1], 0 - w);
    OneTooMany(windowSec, limit, [w + 1]);
  }

  lemma SweepBreaks(windowSec: nat, limit: nat)
    requires limit >= 1
    ensures !Bounded(windowSec, limit, LateCalls(limit, Sweep(windowSec * SECOND + 1)))
  {
    var w := windowSec * SECOND;
    FillUp(windowSec, limit, limit);
    AfterThree(windowSec, limit, Repeat(Ask(0), limit), Sweep(w + 1), Ask(0));
    RepeatIs(0, limit);
    var p := Step(windowSec, limit, Past(Repeat(0, limit), Repeat(0, limit)), Sweep(w + 1));
    assert p == Past([], Repeat(0, limit));
    assert Repeat(0, limit) + [] == Repeat(0, limit);
    OneTooMany(windowSec, limit, []);
  }

  /** Whatever the window: requests keep to the limit in every order of readings if and only if the limit is
      at most one. */
  lemma AnyOrderIsBounded(windowSec: nat, limit: int)
    ensures (forall calls :: AsksOnly(calls) ==> Bounded(windowSec, limit, calls)) <==> limit <= 1
  {
    if limit <= 0 {
      forall calls | AsksOnly(calls)
        ensures Bounded(windowSec, limit, calls)
      {
        NoneAdmitted(windowSec, limit, calls);
      }
    } else if limit == 1 {
      forall calls | AsksOnly(calls)
        ensures Bounded(windowSec, limit, calls)
      {
        OneIsLone(windowSec, calls);
        GappedIsBounded(windowSec * SECOND, After(windowSec, 1, calls).admitted);
      }
    } else {
      TwoBreaks(windowSec, limit);
    }
  }

  /** With cleanups among the calls not even a limit of one is safe: a cleanup may forget the latest admission. */
  lemma AnyOrderWithSweeps(windowSec: nat, limit: int)
    ensures (forall calls :: Bounded(windowSec, limit, calls)) <==> limit <= 0
  {
    if limit <= 0 {
      forall calls
        ensures Bounded(windowSec, limit, calls)
      {
        NoneAdmitted(windowSec, limit, calls);
      }
    } else {
      SweepBreaks(windowSec, limit);
    }
  }

  // ---------- Retry-After ----------

  /** A denial with something in the window names 1..windowSec seconds, and one second after
      that the oldest entry is out of the window. */
  lemma RetryAfterBounds(windowSec: int, kept: seq<int>, now: int)
    requires windowSec >= 1 && (kept != [] ==> now - windowSec * SECOND <= kept[0] <= now)
    ensures var r := RetryAfter(windowSec, kept, now);
            1 <= r <= windowSec && (kept != [] ==> kept[0] < now + (r + 1) * SECOND - windowSec * SECOND)
  {
  }

  /** A bucket that refuses after calls in clock order holds exactly the limit, all within the window. */
  lemma RefusedIsFull(windowSec: nat, limit: int, calls: seq<Call>, now: int)
    requires InOrder(calls + [Ask(now)]) && limit >= 1
    requires !Decide(windowSec, limit, After(windowSec, limit, calls).ts, now).1.allowed
    ensures var kept := Decide(windowSec, limit, After(windowSec, limit, calls).ts, now).0;
            |kept| == limit && Within(kept, now - windowSec * SECOND, now)
  {
    TiedAt(windowSec, limit, calls, now);
    KeptOfTied(windowSec * SECOND, Cap(limit), After(windowSec, limit, calls), now);
  }

  lemma KeptOfTied(window: int, cap: nat, p: Past, now: int)
    requires Tied(window, cap, p, now)
    ensures |Prune(p.ts, now - window)| <= cap && Within(Prune(p.ts, now - window), now - window, now)
  {
    var dropped := PruneTracks(window, Dropped(p), p.ts, now, now);
    var kept := Prune(p.ts, now - window);
    KeptIsWindow(window, Dropped(p) + dropped, kept, now);
    assert Dropped(p) + dropped + kept == p.admitted;
  }

  /** A refused client that comes back alone after exactly Retry-After seconds is admitted if and only if less
      than one second of the oldest entry's time was left: the rounding is down, and the window is closed. */
  lemma RetryAfterIsShort(windowSec: nat, limit: int, calls: seq<Call>, now: int)
    requires InOrder(calls + [Ask(now)]) && limit >= 1
    requires !Decide(windowSec, limit, After(windowSec, limit, calls).ts, now).1.allowed
    ensures var (kept, v) := Decide(windowSec, limit, After(windowSec, limit, calls).ts, now);
            kept != [] && (Decide(windowSec, limit, kept, now + v.retryAfter * SECOND).1.allowed
                           <==> windowSec * SECOND - (now - kept[0]) < SECOND)
  {
    RefusedIsFull(windowSec, limit, calls, now);
    var (kept, v) := Decide(windowSec, limit, After(windowSec, limit, calls).ts, now);
    var cutoff := now + v.retryAfter * SECOND - windowSec * SECOND;
    var dropped := PruneSplits(kept, cutoff);
    OldestLeaves(windowSec, kept, now);
  }

  lemma OldestLeaves(windowSec: nat, kept: seq<int>, now: int)
    requires kept != [] && now - windowSec * SECOND <= kept[0] <= now
    ensures kept[0] < now + RetryAfter(windowSec, kept, now) * SECOND - windowSec * SECOND
            <==> windowSec * SECOND - (now - kept[0]) < SECOND
  {
  }

  /** A client that obeys the header to the second is refused again. */
  lemma ObedientClientRefused()
    ensures var (ts, v) := Decide(60, 1, [0], SECOND / 2);
            !v.allowed && v.retryAfter == 59 && !Decide(60, 1, ts, SECOND / 2 + v.retryAfter * SECOND).1.allowed
  {
  }

  // ---------- The limiter ----------

  datatype Key = Key(rule: string, identity: string)

  function RuleForPath(path: string): string {
    if path == "/api/login" then "login"
    else if "/api/search" <= path then "search"
    else if "/api/download" <= path then "download"
    else if "/api/art/" <= path then "art"
    else if "/api/" <= path then "api"
    else "default"
  }

  /** Which paths a rule covers: "api" takes what the four special ones leave under "/api/". */
  lemma RulePaths(path: string)
    ensures RuleForPath(path) == "login" <==> path == "/api/login"
    ensures RuleForPath(path) == "search" <==> "/api/search" <= path
    ensures RuleForPath(path) == "download" <==> "/api/download" <= path
    ensures RuleForPath(path) == "art" <==> "/api/art/" <= path
    ensures RuleForPath(path) == "default" <==> !("/api/" <= path)
    ensures RuleForPath(path) in {"login", "search", "download", "art", "api", "default"}
  {
    assert "/api/search" <= path ==> path[5] == 's' && "/api/" <= path;
    assert "/api/download" <= path ==> path[5] == 'd' && "/api/" <= path;
    assert "/api/art/" <= path ==> path[5] == 'a' && "/api/" <= path;
    assert path == "/api/login" ==> path[5] == 'l' && "/api/" <= path;
    assert "login"[0] == 'l' && "search"[0] == 's' && "download"[2] == 'w' && "art"[1] == 'r' && "api"[1] == 'p'
           && "default"[2] == 'f';
  }

  function RuleValue(rules: map<string, int>, rule: string): int { if rule in rules then rules[rule] else 0 }

  function LimitOf(rules: map<string, int>, rule: string): int {
    if RuleValue(rules, rule) != 0 then RuleValue(rules, rule)
    else if RuleValue(rules, "default") != 0 then RuleValue(rules, "default")
    else 600
  }

  /** A limit of zero counts as none: the rule's own, else the default's, else 600. */
  lemma LimitIs(rules: map<string, int>, rule: string, limit: int)
    ensures limit != 0 && rule in rules && rules[rule] == limit ==> LimitOf(rules, rule) == limit
    ensures limit != 0 && "default" in rules && rules["default"] == limit && (rule !in rules || rules[rule] == 0) ==>
              LimitOf(rules, rule) == limit
    ensures LimitOf(rules, rule) == 600
            || (rule in rules && rules[rule] == LimitOf(rules, rule) != 0)
            || ("default" in rules && rules["default"] == LimitOf(rules, rule) != 0)
  {
  }

  class RateLimiter {
    const windowSec: nat
    const rules: map<string, int>
    var buckets: map<Key, seq<int>>

    // what each bucket has been called with
    ghost var calls: map<Key, seq<Call>>

    ghost function Calls(key: Key): seq<Call>
      reads this
    {
      if key in calls then calls[key] else []
    }

    ghost function Bucket(key: Key): seq<int>
      reads this
    {
      if key in buckets then buckets[key] else []
    }

    ghost function PastOf(key: Key): Past
      reads this
    {
      After(windowSec, LimitOf(rules, key.rule), Calls(key))
    }

    /** Every admission ever made for a key. */
    ghost function History(key: Key): seq<int>
      reads this
    {
      PastOf(key).admitted
    }

    ghost predicate KeyOk(key: Key)
      reads this
    {
      Bucket(key) == PastOf(key).ts
    }

    ghost predicate Valid()
      reads this
    {
      forall key :: KeyOk(key)
    }

    constructor (windowSec: nat, rules: map<string, int>)
      ensures Valid() && this.windowSec == windowSec && this.rules == rules
      ensures forall key :: Calls(key) == [] && History(key) == []
    {
      this.windowSec, this.rules := windowSec, rules;
      buckets, calls := map[], map[];
    }

    /** Prune, test, append: the part of `Check` that works on one bucket. */
    method DecideBucket(ts: seq<int>, limit: int, now: int) returns (ts': seq<int>, v: Verdict)
      ensures (ts', v) == Decide(windowSec, limit, ts, now)
    {
      var cutoff := now - windowSec * SECOND;
      var i := 0;
      while i < |ts| && ts[i] < cutoff
        invariant 0 <= i <= |ts|
        invariant Prune(ts, cutoff) == Prune(ts[i..], cutoff)
      {
        assert ts[i..][1..] == ts[i + 1..];
        i := i + 1;
      }
      ts' := ts[i..];
      if |ts'| >= limit {
        var retryAfter: int := windowSec;
        if |ts'| > 0 {
          retryAfter := (windowSec * SECOND - (now - ts'[0])) / SECOND;
          if retryAfter < 1 {
            retryAfter := 1;
          }
        }
        return ts', Verdict(false, retryAfter);
      }
      return ts' + [now], Verdict(true, 0);
    }

    method Put(key: Key, ts: seq<int>, now: int)
      requires Valid() && ts == After(windowSec, LimitOf(rules, key.rule), Calls(key) + [Ask(now)]).ts
      modifies this
      ensures Valid() && Bucket(key) == ts && Calls(key) == old(Calls(key)) + [Ask(now)]
      ensures forall k :: k != key ==> Calls(k) == old(Calls(k))
    {
      buckets := buckets[key := ts];
      calls := calls[key := Calls(key) + [Ask(now)]];
      forall k
        ensures KeyOk(k) && (k != key ==> Calls(k) == old(Calls(k)))
      {
        if k != key {
          assert old(KeyOk(k)) && Bucket(k) == old(Bucket(k)) && Calls(k) == old(Calls(k));
        }
      }
    }

    /** Only the bucket of the key changes, by one request. For a key whose calls came in clock order the
        answer is exact, every window stays within the limit, and a denial names 1..windowSec seconds. */
    method Check(identity: string, path: string, now: int)
      returns (allowed: bool, retryAfter: int, rule: string, limit: int)
      requires Valid()
      modifies this
      ensures Valid()
      ensures rule == RuleForPath(path) && limit == LimitOf(rules, rule)
      ensures Calls(Key(rule, identity)) == old(Calls(Key(rule, identity))) + [Ask(now)]
      ensures forall key :: key != Key(rule, identity) ==> Calls(key) == old(Calls(key))
      ensures History(Key(rule, identity)) == old(History(Key(rule, identity))) + if allowed then [now] else []
      ensures allowed || retryAfter == Decide(windowSec, limit, old(Bucket(Key(rule, identity))), now).1.retryAfter
      ensures InOrder(Calls(Key(rule, identity))) ==>
        Exact(old(History(Key(rule, identity))), limit, now, allowed, retryAfter)
      ensures InOrder(Calls(Key(rule, identity))) ==>
        WindowsBounded(windowSec * SECOND, Cap(limit), History(Key(rule, identity)))
    {
      rule := RuleForPath(path);
      limit := LimitOf(rules, rule);
      var key := Key(rule, identity);
      var ts, v := DecideBucket(if key in buckets then buckets[key] else [], limit, now);
      AfterPush(windowSec, limit, Calls(key), Ask(now));
      if InOrder(Calls(key) + [Ask(now)]) {
        AskIsExact(key, now);
      }
      assert KeyOk(key);
      Put(key, ts, now);
      allowed, retryAfter := v.allowed, v.retryAfter;
    }

    ghost predicate Exact(history: seq<int>, limit: int, now: int, allowed: bool, retryAfter: int) {
      && (allowed <==> CountIn(history, now - windowSec * SECOND, now) < limit)
      && (!allowed && windowSec >= 1 ==> 1 <= retryAfter <= windowSec)
    }

    lemma AskIsExact(key: Key, now: int)
      requires Valid() && InOrder(Calls(key) + [Ask(now)])
      ensures var v := Decide(windowSec, LimitOf(rules, key.rule), Bucket(key), now).1;
              Exact(History(key), LimitOf(rules, key.rule), now, v.allowed, v.retryAfter)
      ensures Bounded(windowSec, LimitOf(rules, key.rule), Calls(key) + [Ask(now)])
    {
      var limit := LimitOf(rules, key.rule);
      assert KeyOk(key);
      InOrderIsBounded(windowSec, limit, Calls(key), now);
      var (kept, v) := Decide(windowSec, limit, Bucket(key), now);
      if !v.allowed && windowSec >= 1 {
        if limit >= 1 {
          RefusedIsFull(windowSec, limit, Calls(key), now);
        } else {
          EmptyBucket(windowSec, limit, Calls(key));
        }
        RetryAfterBounds(windowSec, kept, now);
      }
    }

    /** The loop of `cleanup`: exactly the expired buckets are deleted. */
    method DropExpired(cutoff: int)
      modifies this`buckets
      ensures forall key :: Bucket(key) == if Expired(old(Bucket(key)), cutoff) then [] else old(Bucket(key))
      ensures forall key :: key in buckets <==> key in old(buckets) && !Expired(old(buckets)[key], cutoff)
    {
      var todo := buckets.Keys;
      while todo != {}
        invariant todo <= buckets.Keys
        invariant forall key :: key in buckets <==>
          key in old(buckets) && (key in todo || !Expired(old(buckets)[key], cutoff))
        invariant forall key :: key in buckets ==> buckets[key] == old(buckets)[key]
        decreases |todo|
      {
        var key :| key in todo;
        todo := todo - {key};
        var ts := buckets[key];
        if |ts| == 0 || ts[|ts| - 1] < cutoff {
          buckets := buckets - {key};
        }
      }
    }

    /** The cleanup is a call to every bucket there is; no admission is forgotten. */
    method Cleanup(now: int)
      requires Valid()
      modifies this
      ensures Valid()
      ensures forall key :: History(key) == old(History(key))
      ensures forall key :: Calls(key) == old(Calls(key)) + if key in old(buckets) then [Sweep(now)] else []
      ensures forall key :: key in buckets <==>
        key in old(buckets) && !Expired(old(buckets)[key], now - windowSec * SECOND)
    {
      DropExpired(now - windowSec * SECOND);
      calls := map key | key in calls.Keys + old(buckets).Keys
        :: Calls(key) + if key in old(buckets) then [Sweep(now)] else [];
      forall key
        ensures KeyOk(key) && History(key) == old(History(key))
        ensures Calls(key) == old(Calls(key)) + if key in old(buckets) then [Sweep(now)] else []
      {
        assert old(KeyOk(key));
        assert old(Calls(key)) + [] == old(Calls(key));
        if key in old(buckets) {
          SweptKey(old(Calls(key)), LimitOf(rules, key.rule), old(Bucket(key)), now);
        }
      }
    }

    lemma SweptKey(before: seq<Call>, limit: int, ts: seq<int>, now: int)
      requires ts == After(windowSec, limit, before).ts
      ensures After(windowSec, limit, before + [Sweep(now)]) ==
              Past(if Expired(ts, now - windowSec * SECOND) then [] else ts, After(windowSec, limit, before).admitted)
    {
      AfterPush(windowSec, limit, before, Sweep(now));
    }
  }
}
