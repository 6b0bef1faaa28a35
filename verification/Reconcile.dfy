/** internal/collection/reconcile.go: handing library files to catalogued dumps.

    Three tiers, strongest first; within a tier the groups in order, within a group the
    keeper first.  A visit gives an unowned dump the file its tier finds, unless that file
    is already claimed. */
module Reconcile {
  import opened Options
  import opened Text
  import opened Collection
  import Build

  // ---------- The three questions ownership asks ----------

  datatype Index = Index(byHash: (string, string) -> Option<Match>, byName: string -> Option<Match>,
                         byTitle: seq<string> -> Option<Match>)

  const TIERS: nat := 3

  function TierName(t: nat): string { if t == 0 then "hash" else if t == 1 then "name" else "title" }

  /** The i-th question of a tier: the i-th rom's hashes, unless it has none; the dump's name and then the roms'
      names; the title keys. `ownershipKeys` stands for the title expansion of the release-name parser. */
  function Ask(m: Member, idx: Index, ownershipKeys: string -> seq<string>, t: nat, i: nat): Option<Match>
    requires i < Questions(m, t)
  {
    if t == 0 then
      if m.roms[i].md5 == "" && m.roms[i].sha1 == "" then None
      else idx.byHash(Lower(m.roms[i].md5), Lower(m.roms[i].sha1))
    else if t == 1 then idx.byName(if i == 0 then m.name else m.roms[i - 1].name)
    else idx.byTitle(ownershipKeys(m.name))
  }

  function Questions(m: Member, t: nat): nat { if t == 0 then |m.roms| else if t == 1 then |m.roms| + 1 else 1 }

  function FirstAnswer(m: Member, idx: Index, ownershipKeys: string -> seq<string>, t: nat, i: nat): Option<Match>
    requires i <= Questions(m, t)
    decreases Questions(m, t) - i
  {
    if i == Questions(m, t) then None
    else if Ask(m, idx, ownershipKeys, t, i).Some? then Ask(m, idx, ownershipKeys, t, i)
    else FirstAnswer(m, idx, ownershipKeys, t, i + 1)
  }

  /** `idx` may be nil. */
  function LookupTier(m: Member, idx: Option<Index>, ownershipKeys: string -> seq<string>, t: nat): Option<Match> {
    if idx.None? then None else FirstAnswer(m, idx.value, ownershipKeys, t, 0)
  }

  lemma {:induction false} FirstAnswerIs(m: Member, idx: Index, ownershipKeys: string -> seq<string>, t: nat, i: nat,
                                         k: nat)
    requires i <= k < Questions(m, t) && Ask(m, idx, ownershipKeys, t, k).Some?
    requires forall j :: i <= j < k ==> Ask(m, idx, ownershipKeys, t, j).None?
    ensures FirstAnswer(m, idx, ownershipKeys, t, i) == Ask(m, idx, ownershipKeys, t, k)
    decreases k - i
  {
    if i < k {
      FirstAnswerIs(m, idx, ownershipKeys, t, i + 1, k);
    }
  }

  lemma {:induction false} NoAnswer(m: Member, idx: Index, ownershipKeys: string -> seq<string>, t: nat, i: nat)
    requires i <= Questions(m, t) && forall j :: i <= j < Questions(m, t) ==> Ask(m, idx, ownershipKeys, t, j).None?
    ensures FirstAnswer(m, idx, ownershipKeys, t, i) == None
    decreases Questions(m, t) - i
  {
    if i < Questions(m, t) {
      NoAnswer(m, idx, ownershipKeys, t, i + 1);
    }
  }

  /** The hash loop: the first rom with a hash the library holds. */
  method AskHashes(m: Member, idx: Index, ownershipKeys: string -> seq<string>) returns (hit: Option<Match>)
    ensures hit == FirstAnswer(m, idx, ownershipKeys, 0, 0)
  {
    for i := 0 to |m.roms|
      invariant forall j :: 0 <= j < i ==> Ask(m, idx, ownershipKeys, 0, j).None?
    {
      var r := m.roms[i];
      if r.md5 == "" && r.sha1 == "" {
        continue;
      }
      hit := idx.byHash(Lower(r.md5), Lower(r.sha1));
      if hit.Some? {
        FirstAnswerIs(m, idx, ownershipKeys, 0, 0, i);
        return;
      }
    }
    NoAnswer(m, idx, ownershipKeys, 0, 0);
    hit := None;
  }

  /** The name loop: the dump's own name before those of its roms. */
  method AskNames(m: Member, idx: Index, ownershipKeys: string -> seq<string>) returns (hit: Option<Match>)
    ensures hit == FirstAnswer(m, idx, ownershipKeys, 1, 0)
  {
    var names := [m.name] + seq(|m.roms|, i requires 0 <= i < |m.roms| => m.roms[i].name);
    for i := 0 to |names|
      invariant forall j :: 0 <= j < i ==> Ask(m, idx, ownershipKeys, 1, j).None?
    {
      hit := idx.byName(names[i]);
      if hit.Some? {
        FirstAnswerIs(m, idx, ownershipKeys, 1, 0, i);
        return;
      }
    }
    NoAnswer(m, idx, ownershipKeys, 1, 0);
    hit := None;
  }

  /** One tier's answer is its first question's that has one: no earlier question is answered. */
  ghost predicate IsFirstAnswer(m: Member, idx: Index, ownershipKeys: string -> seq<string>, t: nat,
                                hit: Option<Match>) {
    match hit
    case None => forall i :: 0 <= i < Questions(m, t) ==> Ask(m, idx, ownershipKeys, t, i).None?
    case Some(_) => exists k :: 0 <= k < Questions(m, t) && Ask(m, idx, ownershipKeys, t, k) == hit
                                && forall i :: 0 <= i < k ==> Ask(m, idx, ownershipKeys, t, i).None?
  }

  lemma {:induction false} FirstAnswerFrom(m: Member, idx: Index, ownershipKeys: string -> seq<string>, t: nat, i: nat)
    requires i <= Questions(m, t) && forall j :: 0 <= j < i ==> Ask(m, idx, ownershipKeys, t, j).None?
    ensures IsFirstAnswer(m, idx, ownershipKeys, t, FirstAnswer(m, idx, ownershipKeys, t, i))
    decreases Questions(m, t) - i
  {
    if i < Questions(m, t) && Ask(m, idx, ownershipKeys, t, i).None? {
      FirstAnswerFrom(m, idx, ownershipKeys, t, i + 1);
    }
  }

  method AskTier(m: Member, idx: Option<Index>, ownershipKeys: string -> seq<string>, t: nat)
    returns (hit: Option<Match>)
    ensures hit == LookupTier(m, idx, ownershipKeys, t)
    ensures idx.None? ==> hit.None?
    ensures idx.Some? ==> IsFirstAnswer(m, idx.value, ownershipKeys, t, hit)
  {
    if idx.None? {
      return None;
    }
    FirstAnswerFrom(m, idx.value, ownershipKeys, t, 0);
    if t == 0 {
      hit := AskHashes(m, idx.value, ownershipKeys);
    } else if t == 1 {
      hit := AskNames(m, idx.value, ownershipKeys);
    } else {
      hit := idx.value.byTitle(ownershipKeys(m.name));
    }
  }

  type Lookup = (Member, nat) -> Option<Match>

  function TierLookup(idx: Option<Index>, ownershipKeys: string -> seq<string>): Lookup {
    (m: Member, t: nat) => LookupTier(m, idx, ownershipKeys, t)
  }

  // ---------- Visiting order ----------

  predicate HasKeeper(g: Group) { 0 <= g.keeperIndex < |g.members| }

  /** The k-th member of a group in visiting order: the keeper, then the others by index. */
  function MemberAt(g: Group, k: nat): (mi: nat)
    requires k < |g.members|
    ensures mi < |g.members|
  {
    if !HasKeeper(g) then k else if k == 0 then g.keeperIndex else if k <= g.keeperIndex then k - 1 else k
  }

  /** The turn at which member `mi` is visited. */
  function Turn(g: Group, mi: nat): (k: nat)
    requires mi < |g.members|
    ensures k < |g.members| && MemberAt(g, k) == mi
    ensures forall j :: 0 <= j < |g.members| && MemberAt(g, j) == mi ==> j == k
  {
    if !HasKeeper(g) then mi else if mi == g.keeperIndex then 0 else if mi < g.keeperIndex then mi + 1 else mi
  }

  method MemberOrder(g: Group) returns (order: seq<nat>)
    ensures |order| == |g.members| && forall k :: 0 <= k < |order| ==> order[k] == MemberAt(g, k)
  {
    order := [];
    if g.keeperIndex >= 0 && g.keeperIndex < |g.members| {
      order := order + [g.keeperIndex];
    }
    for i := 0 to |g.members|
      invariant |order| == if HasKeeper(g) && i <= g.keeperIndex then i + 1 else i
      invariant forall k :: 0 <= k < |order| ==> k < |g.members| && order[k] == MemberAt(g, k)
    {
      if i != g.keeperIndex {
        order := order + [i];
      }
    }
  }

  datatype Pos = Pos(tier: nat, gi: nat, mi: nat)

  predicate IsPos(gs: seq<Group>, p: Pos) { p.tier < TIERS && p.gi < |gs| && p.mi < |gs[p.gi].members| }

  /** `p` is visited before the k-th turn of group `gi` in tier `t`. */
  predicate BeforeCursor(gs: seq<Group>, p: Pos, t: nat, gi: nat, k: nat)
    requires IsPos(gs, p)
  {
    p.tier < t || (p.tier == t && (p.gi < gi || (p.gi == gi && Turn(gs[p.gi], p.mi) < k)))
  }

  predicate Earlier(gs: seq<Group>, p: Pos, q: Pos)
    requires IsPos(gs, p) && IsPos(gs, q)
  {
    BeforeCursor(gs, p, q.tier, q.gi, Turn(gs[q.gi], q.mi))
  }

  // ---------- The loop as a function ----------

  datatype Progress = Progress(groups: seq<Group>, claimed: set<int>)

  function SetOwned(gs: seq<Group>, p: Pos, m: Match): seq<Group>
    requires IsPos(gs, p)
  {
    var g := gs[p.gi];
    gs[p.gi := g.(members := g.members[p.mi := g.members[p.mi].(owned := Some(m))])]
  }

  function Visit(st: Progress, p: Pos, look: Lookup): Progress
    requires IsPos(st.groups, p)
  {
    var c := st.groups[p.gi].members[p.mi];
    if c.owned.Some? then st
    else match look(c.member, p.tier)
         case None => st
         case Some(m) =>
           if m.libraryId in st.claimed then st
           else Progress(SetOwned(st.groups, p, m.(matchedBy := TierName(p.tier))), st.claimed + {m.libraryId})
  }

  /** Same groups, same dumps, same verdicts; only ownership may differ. */
  ghost predicate SameShape(gs: seq<Group>, hs: seq<Group>) {
    |gs| == |hs| && forall i :: 0 <= i < |gs| ==>
      && |gs[i].members| == |hs[i].members| && hs[i] == gs[i].(members := hs[i].members)
      && forall j :: 0 <= j < |gs[i].members| ==>
           hs[i].members[j] == gs[i].members[j].(owned := hs[i].members[j].owned)
  }

  /** Everything visited before turn `k` of group `gi` in tier `t`. */
  function RunTo(gs: seq<Group>, look: Lookup, t: nat, gi: nat, k: nat): (st: Progress)
    requires t <= TIERS && gi <= |gs| && k <= (if gi < |gs| then |gs[gi].members| else 0)
    requires t == TIERS ==> gi == k == 0
    ensures SameShape(gs, st.groups)
    decreases t, gi, k
  {
    if k > 0 then Visit(RunTo(gs, look, t, gi, k - 1), Pos(t, gi, MemberAt(gs[gi], k - 1)), look)
    else if gi > 0 then RunTo(gs, look, t, gi - 1, |gs[gi - 1].members|)
    else if t > 0 then RunTo(gs, look, t - 1, |gs|, 0)
    else Progress(gs, {})
  }

  function Matched(gs: seq<Group>, look: Lookup): seq<Group> { RunTo(gs, look, TIERS, 0, 0).groups }

  /** How the cursor moves: turn by turn, then to the next group, then to the next tier. */
  lemma NextTurn(gs: seq<Group>, look: Lookup, t: nat, gi: nat, k: nat, st: Progress, p: Pos)
    requires t < TIERS && gi < |gs| && k < |gs[gi].members|
    requires st == RunTo(gs, look, t, gi, k) && p == Pos(t, gi, MemberAt(gs[gi], k))
    ensures IsPos(st.groups, p) && RunTo(gs, look, t, gi, k + 1) == Visit(st, p, look)
  {
  }

  lemma NextGroup(gs: seq<Group>, look: Lookup, t: nat, gi: nat)
    requires t < TIERS && gi < |gs|
    ensures RunTo(gs, look, t, gi + 1, 0) == RunTo(gs, look, t, gi, |gs[gi].members|)
  {
  }

  lemma NextTier(gs: seq<Group>, look: Lookup, t: nat)
    requires t < TIERS
    ensures RunTo(gs, look, t + 1, 0, 0) == RunTo(gs, look, t, |gs|, 0)
  {
  }

  /** One dump's turn in one tier. */
  method TakeTurn(groups: seq<Group>, taken: set<int>, p: Pos, idx: Option<Index>, ownershipKeys: string -> seq<string>)
    returns (gs: seq<Group>, claimed: set<int>)
    requires IsPos(groups, p)
    ensures Progress(gs, claimed) == Visit(Progress(groups, taken), p, TierLookup(idx, ownershipKeys))
  {
    gs, claimed := groups, taken;
    var c := gs[p.gi].members[p.mi];
    if c.owned.Some? {
      return;
    }
    var hit := AskTier(c.member, idx, ownershipKeys, p.tier);
    if hit.None? || hit.value.libraryId in claimed {
      return;
    }
    claimed := claimed + {hit.value.libraryId};
    var tiers := ["hash", "name", "title"];
    var m := hit.value.(matchedBy := tiers[p.tier]);
    var g := gs[p.gi];
    gs := gs[p.gi := g.(members := g.members[p.mi := c.(owned := Some(m))])];
  }

  /** The turns of one group in one tier. */
  method MatchGroup(ghost start: seq<Group>, groups: seq<Group>, taken: set<int>, t: nat, gi: nat,
                    idx: Option<Index>, ownershipKeys: string -> seq<string>)
    returns (gs: seq<Group>, claimed: set<int>)
    requires t < TIERS && gi < |start|
    requires Progress(groups, taken) == RunTo(start, TierLookup(idx, ownershipKeys), t, gi, 0)
    ensures Progress(gs, claimed) == RunTo(start, TierLookup(idx, ownershipKeys), t, gi + 1, 0)
  {
    ghost var look := TierLookup(idx, ownershipKeys);
    gs, claimed := groups, taken;
    var order := MemberOrder(gs[gi]);
    for k := 0 to |order|
      invariant |order| == |start[gi].members|
      invariant forall j :: 0 <= j < |order| ==> order[j] == MemberAt(start[gi], j)
      invariant Progress(gs, claimed) == RunTo(start, look, t, gi, k)
    {
      var p := Pos(t, gi, order[k]);
      NextTurn(start, look, t, gi, k, Progress(gs, claimed), p);
      gs, claimed := TakeTurn(gs, claimed, p, idx, ownershipKeys);
    }
    NextGroup(start, look, t, gi);
  }

  /** The triple loop, writing ownership into the groups it is given. */
  method MatchLoop(groups: seq<Group>, idx: Option<Index>, ownershipKeys: string -> seq<string>)
    returns (gs: seq<Group>)
    ensures gs == Matched(groups, TierLookup(idx, ownershipKeys))
  {
    ghost var look := TierLookup(idx, ownershipKeys);
    gs := groups;
    var claimed: set<int> := {};
    for t := 0 to TIERS
      invariant |gs| == |groups| && Progress(gs, claimed) == RunTo(groups, look, t, 0, 0)
    {
      for gi := 0 to |gs|
        invariant |gs| == |groups| && Progress(gs, claimed) == RunTo(groups, look, t, gi, 0)
      {
        gs, claimed := MatchGroup(groups, gs, claimed, t, gi, idx, ownershipKeys);
      }
      NextTier(groups, look, t);
    }
  }

  // ---------- The matching, characterised without the loop ----------

  function OwnedAt(gs: seq<Group>, p: Pos): Option<Match>
    requires IsPos(gs, p)
  {
    gs[p.gi].members[p.mi].owned
  }

  /** The dump at `p` got its file in tier `p.tier`. */
  predicate Takes(gs: seq<Group>, p: Pos)
    requires IsPos(gs, p)
  {
    OwnedAt(gs, p).Some? && OwnedAt(gs, p).value.matchedBy == TierName(p.tier)
  }

  /** At `p` the tier finds a file, the dump has none from a stronger tier, and no dump
      visited earlier holds that file. */
  ghost predicate Wins(gs: seq<Group>, hs: seq<Group>, look: Lookup, p: Pos)
    requires SameShape(gs, hs) && IsPos(gs, p)
  {
    var hit := look(gs[p.gi].members[p.mi].member, p.tier);
    && hit.Some?
    && (forall q :: IsPos(hs, q) && Earlier(gs, q, p) && Takes(hs, q) ==>
          !(q.gi == p.gi && q.mi == p.mi) && OwnedAt(hs, q).value.libraryId != hit.value.libraryId)
  }

  /** An owned dump took its file in some tier. */
  ghost predicate OwnersTook(gs: seq<Group>, hs: seq<Group>)
    requires SameShape(gs, hs)
  {
    forall p :: IsPos(gs, p) && OwnedAt(hs, p).Some? ==> exists u :: 0 <= u < TIERS && Takes(hs, p.(tier := u))
  }

  ghost predicate TookTheHit(gs: seq<Group>, hs: seq<Group>, look: Lookup, p: Pos)
    requires SameShape(gs, hs) && IsPos(gs, p)
  {
    var hit := look(gs[p.gi].members[p.mi].member, p.tier);
    hit.Some? && OwnedAt(hs, p) == Some(hit.value.(matchedBy := TierName(p.tier)))
  }

  /** `hs` is the matching of `gs`: a dump takes its file at exactly the position it wins. */
  ghost predicate IsMatching(gs: seq<Group>, hs: seq<Group>, look: Lookup) {
    && SameShape(gs, hs)
    && (forall p :: IsPos(hs, p) ==> (Takes(hs, p) <==> Wins(gs, hs, look, p)))
    && (forall p :: IsPos(hs, p) && Takes(hs, p) ==> TookTheHit(gs, hs, look, p))
    && OwnersTook(gs, hs)
  }

  lemma TierNamesDiffer(t: nat, u: nat)
    requires t < TIERS && u < TIERS && TierName(t) == TierName(u)
    ensures t == u
  {
    assert "hash"[0] == 'h' && "name"[0] == 'n' && |"title"| == 5;
  }

  lemma EarlierTotal(gs: seq<Group>, p: Pos, q: Pos)
    requires IsPos(gs, p) && IsPos(gs, q)
    ensures p == q || Earlier(gs, p, q) || Earlier(gs, q, p)
    ensures !(Earlier(gs, p, q) && Earlier(gs, q, p)) && !Earlier(gs, p, p)
  {
  }

  // ---------- Uniqueness ----------

  lemma SameAt(gs: seq<Group>, a: seq<Group>, b: seq<Group>, look: Lookup, p: Pos)
    requires IsMatching(gs, a, look) && IsMatching(gs, b, look) && IsPos(gs, p)
    ensures Takes(a, p) <==> Takes(b, p)
    ensures Takes(a, p) ==> OwnedAt(a, p) == OwnedAt(b, p)
    decreases p.tier, p.gi, Turn(gs[p.gi], p.mi)
  {
    forall q | IsPos(gs, q) && Earlier(gs, q, p)
      ensures Takes(a, q) <==> Takes(b, q)
      ensures Takes(a, q) ==> OwnedAt(a, q) == OwnedAt(b, q)
    {
      SameAt(gs, a, b, look, q);
    }
    assert Wins(gs, a, look, p) <==> Wins(gs, b, look, p);
  }

  /** There is at most one matching. */
  lemma MatchingUnique(gs: seq<Group>, a: seq<Group>, b: seq<Group>, look: Lookup)
    requires IsMatching(gs, a, look) && IsMatching(gs, b, look)
    ensures a == b
  {
    forall i, j | 0 <= i < |gs| && 0 <= j < |gs[i].members|
      ensures a[i].members[j].owned == b[i].members[j].owned
    {
      var p := Pos(0, i, j);
      forall t | 0 <= t < TIERS
        ensures Takes(a, p.(tier := t)) <==> Takes(b, p.(tier := t))
        ensures Takes(a, p.(tier := t)) ==> OwnedAt(a, p) == OwnedAt(b, p)
      {
        SameAt(gs, a, b, look, p.(tier := t));
      }
      if OwnedAt(a, p).Some? {
        var t :| 0 <= t < TIERS && Takes(a, p.(tier := t));
      }
      if OwnedAt(b, p).Some? {
        var t :| 0 <= t < TIERS && Takes(b, p.(tier := t));
      }
    }
    forall i | 0 <= i < |gs|
      ensures a[i] == b[i]
    {
      assert a[i].members == b[i].members;
    }
  }

  // ---------- The loop computes it ----------

  ghost predicate Unowned(gs: seq<Group>) { forall p :: IsPos(gs, p) ==> OwnedAt(gs, p).None? }

  ghost predicate Holds(gs: seq<Group>, p: Pos, x: int) {
    IsPos(gs, p) && OwnedAt(gs, p).Some? && OwnedAt(gs, p).value.libraryId == x
  }

  /** What holds at one position of a run that has reached a cursor. */
  ghost predicate Decided(gs: seq<Group>, hs: seq<Group>, look: Lookup, t: nat, gi: nat, k: nat, p: Pos)
    requires SameShape(gs, hs) && IsPos(gs, p)
  {
    && (Takes(hs, p) <==> BeforeCursor(gs, p, t, gi, k) && Wins(gs, hs, look, p))
    && (Takes(hs, p) ==> TookTheHit(gs, hs, look, p))
  }

  ghost predicate Partial(gs: seq<Group>, st: Progress, look: Lookup, t: nat, gi: nat, k: nat) {
    && SameShape(gs, st.groups)
    && (forall p :: IsPos(gs, p) ==> Decided(gs, st.groups, look, t, gi, k, p))
    && OwnersTook(gs, st.groups)
    && (forall x :: x in st.claimed <==> exists p :: Holds(st.groups, p, x))
  }

  lemma SamePositions(gs: seq<Group>, hs: seq<Group>)
    requires SameShape(gs, hs)
    ensures forall p :: IsPos(gs, p) <==> IsPos(hs, p)
    ensures forall p :: IsPos(gs, p) ==> gs[p.gi].members[p.mi].member == hs[p.gi].members[p.mi].member
  {
  }

  /** A visit changes what is taken only at its own position. */
  lemma VisitLocal(gs: seq<Group>, st: Progress, look: Lookup, at: Pos, p: Pos)
    requires SameShape(gs, st.groups) && IsPos(gs, at) && IsPos(gs, p) && OwnersTook(gs, st.groups)
    ensures var st' := Visit(st, at, look);
      && SameShape(gs, st'.groups)
      && (p != at ==> (Takes(st'.groups, p) <==> Takes(st.groups, p)))
      && (OwnedAt(st.groups, p).Some? || !(p.gi == at.gi && p.mi == at.mi) ==>
          OwnedAt(st'.groups, p) == OwnedAt(st.groups, p))
      && (OwnedAt(st'.groups, p).Some? && OwnedAt(st.groups, p).None? ==> TookTheHit(gs, st'.groups, look, at))
  {
    if p != at && p.gi == at.gi && p.mi == at.mi && TierName(p.tier) == TierName(at.tier) {
      TierNamesDiffer(p.tier, at.tier);
    }
  }

  lemma WinsStable(gs: seq<Group>, st: Progress, look: Lookup, at: Pos, p: Pos)
    requires SameShape(gs, st.groups) && IsPos(gs, at) && IsPos(gs, p) && !Earlier(gs, at, p) &&
        OwnersTook(gs, st.groups)
    ensures SameShape(gs, Visit(st, at, look).groups)
    ensures Wins(gs, Visit(st, at, look).groups, look, p) <==> Wins(gs, st.groups, look, p)
  {
    VisitLocal(gs, st, look, at, at);
    forall q | IsPos(gs, q) && Earlier(gs, q, p)
      ensures Takes(Visit(st, at, look).groups, q) <==> Takes(st.groups, q)
      ensures Takes(st.groups, q) ==> OwnedAt(Visit(st, at, look).groups, q) == OwnedAt(st.groups, q)
    {
      VisitLocal(gs, st, look, at, q);
    }
  }

  lemma OwnerIsEarlier(gs: seq<Group>, st: Progress, look: Lookup, t: nat, gi: nat, k: nat, at: Pos, p: Pos)
    returns (q: Pos)
    requires Partial(gs, st, look, t, gi, k) && IsPos(gs, at) && IsPos(gs, p) && OwnedAt(st.groups, p).Some?
    requires at.tier == t && at.gi == gi && Turn(gs[gi], at.mi) == k
    ensures IsPos(gs, q) && q.gi == p.gi && q.mi == p.mi && Takes(st.groups, q) && Earlier(gs, q, at)
  {
    var u :| 0 <= u < TIERS && Takes(st.groups, p.(tier := u));
    q := p.(tier := u);
    assert Decided(gs, st.groups, look, t, gi, k, q);
  }

  /** The visit's own test is exactly `Wins`. */
  lemma VisitDecides(gs: seq<Group>, st: Progress, look: Lookup, t: nat, gi: nat, k: nat, at: Pos)
    requires Partial(gs, st, look, t, gi, k) && IsPos(gs, at)
    requires at.tier == t && at.gi == gi && Turn(gs[gi], at.mi) == k
    ensures var hit := look(gs[at.gi].members[at.mi].member, t);
            Wins(gs, st.groups, look, at) <==>
              OwnedAt(st.groups, at).None? && hit.Some? && hit.value.libraryId !in st.claimed
  {
    var hit := look(gs[at.gi].members[at.mi].member, t);
    if OwnedAt(st.groups, at).Some? {
      var q := OwnerIsEarlier(gs, st, look, t, gi, k, at, at);
    } else if hit.Some? && hit.value.libraryId in st.claimed {
      var p :| Holds(st.groups, p, hit.value.libraryId);
      var q := OwnerIsEarlier(gs, st, look, t, gi, k, at, p);
    } else if hit.Some? {
      forall q | IsPos(st.groups, q) && Earlier(gs, q, at) && Takes(st.groups, q)
        ensures !(q.gi == at.gi && q.mi == at.mi) && OwnedAt(st.groups, q).value.libraryId != hit.value.libraryId
      {
        assert Holds(st.groups, q, OwnedAt(st.groups, q).value.libraryId);
      }
    }
  }

  lemma DecidedStep(gs: seq<Group>, st: Progress, look: Lookup, t: nat, gi: nat, k: nat, at: Pos, p: Pos)
    requires Partial(gs, st, look, t, gi, k) && IsPos(gs, at) && IsPos(gs, p)
    requires at.tier == t && at.gi == gi && Turn(gs[gi], at.mi) == k
    ensures SameShape(gs, Visit(st, at, look).groups)
    ensures Decided(gs, Visit(st, at, look).groups, look, t, gi, k + 1, p)
  {
    VisitLocal(gs, st, look, at, p);
    assert Decided(gs, st.groups, look, t, gi, k, p);
    EarlierTotal(gs, p, at);
    if !Earlier(gs, at, p) {
      WinsStable(gs, st, look, at, p);
    }
    if p == at {
      VisitDecides(gs, st, look, t, gi, k, at);
    }
  }

  lemma ClaimedStep(gs: seq<Group>, st: Progress, look: Lookup, at: Pos, x: int)
    requires SameShape(gs, st.groups) && OwnersTook(gs, st.groups) && IsPos(gs, at)
    requires forall y :: y in st.claimed <==> exists p :: Holds(st.groups, p, y)
    ensures x in Visit(st, at, look).claimed <==> exists p :: Holds(Visit(st, at, look).groups, p, x)
  {
    var st' := Visit(st, at, look);
    if x in st.claimed {
      var p :| Holds(st.groups, p, x);
      VisitLocal(gs, st, look, at, p);
      assert Holds(st'.groups, p, x);
    } else if x in st'.claimed {
      assert Holds(st'.groups, at, x);
    } else {
      forall p | IsPos(gs, p)
        ensures !Holds(st'.groups, p, x)
      {
        assert !Holds(st.groups, p, x);
        VisitLocal(gs, st, look, at, p);
      }
    }
  }

  lemma OwnersStep(gs: seq<Group>, st: Progress, look: Lookup, at: Pos)
    requires SameShape(gs, st.groups) && OwnersTook(gs, st.groups) && IsPos(gs, at)
    ensures SameShape(gs, Visit(st, at, look).groups) && OwnersTook(gs, Visit(st, at, look).groups)
  {
    var st' := Visit(st, at, look);
    VisitLocal(gs, st, look, at, at);
    forall p | IsPos(gs, p) && OwnedAt(st'.groups, p).Some?
      ensures exists u :: 0 <= u < TIERS && Takes(st'.groups, p.(tier := u))
    {
      VisitLocal(gs, st, look, at, p);
      if OwnedAt(st.groups, p).Some? {
        var u :| 0 <= u < TIERS && Takes(st.groups, p.(tier := u));
        assert Takes(st'.groups, p.(tier := u));
      } else {
        assert Takes(st'.groups, p.(tier := at.tier));
      }
    }
  }

  lemma PartialStep(gs: seq<Group>, st: Progress, look: Lookup, t: nat, gi: nat, k: nat)
    requires t < TIERS && gi < |gs| && k < |gs[gi].members|
    requires Partial(gs, st, look, t, gi, k)
    ensures Partial(gs, Visit(st, Pos(t, gi, MemberAt(gs[gi], k)), look), look, t, gi, k + 1)
  {
    var at := Pos(t, gi, MemberAt(gs[gi], k));
    OwnersStep(gs, st, look, at);
    forall p | IsPos(gs, p)
      ensures Decided(gs, Visit(st, at, look).groups, look, t, gi, k + 1, p)
    {
      DecidedStep(gs, st, look, t, gi, k, at, p);
    }
    forall x
      ensures x in Visit(st, at, look).claimed <==> exists p :: Holds(Visit(st, at, look).groups, p, x)
    {
      ClaimedStep(gs, st, look, at, x);
    }
  }

  lemma StartPartial(gs: seq<Group>, look: Lookup)
    requires Unowned(gs)
    ensures Partial(gs, Progress(gs, {}), look, 0, 0, 0)
  {
    forall p | IsPos(gs, p)
      ensures Decided(gs, gs, look, 0, 0, 0, p)
    {
      assert OwnedAt(gs, p).None?;
    }
  }

  datatype Cursor = Cursor(t: nat, gi: nat, k: nat)

  predicate IsCursor(gs: seq<Group>, c: Cursor) {
    && c.t <= TIERS && c.gi <= |gs| && c.k <= (if c.gi < |gs| then |gs[c.gi].members| else 0)
    && (c.t == TIERS ==> c.gi == c.k == 0)
  }

  /** The cursors for which `st` is as `Partial` says. */
  ghost function CursorsOf(gs: seq<Group>, look: Lookup, st: Progress): iset<Cursor> {
    iset c: Cursor | IsCursor(gs, c) && Partial(gs, st, look, c.t, c.gi, c.k)
  }

  /** The end of one group's turns is the start of the next group's. */
  lemma GroupWraps(gs: seq<Group>, st: Progress, look: Lookup, t: nat, gi: nat)
    requires t < TIERS && gi < |gs| && Cursor(t, gi, |gs[gi].members|) in CursorsOf(gs, look, st)
    ensures Cursor(t, gi + 1, 0) in CursorsOf(gs, look, st)
  {
    forall p | IsPos(gs, p)
      ensures Decided(gs, st.groups, look, t, gi + 1, 0, p)
    {
      assert Decided(gs, st.groups, look, t, gi, |gs[gi].members|, p);
    }
  }

  /** And the end of one tier's groups is the start of the next tier's. */
  lemma TierWraps(gs: seq<Group>, st: Progress, look: Lookup, t: nat)
    requires t < TIERS && Cursor(t, |gs|, 0) in CursorsOf(gs, look, st)
    ensures Cursor(t + 1, 0, 0) in CursorsOf(gs, look, st)
  {
    forall p | IsPos(gs, p)
      ensures Decided(gs, st.groups, look, t + 1, 0, 0, p)
    {
      assert Decided(gs, st.groups, look, t, |gs|, 0, p);
    }
  }

  ghost function StateAt(gs: seq<Group>, look: Lookup, c: Cursor): Progress
    requires IsCursor(gs, c)
  {
    RunTo(gs, look, c.t, c.gi, c.k)
  }

  /** The cursors at which the loop's state is as `Partial` says. */
  ghost function Reached(gs: seq<Group>, look: Lookup): iset<Cursor> {
    iset c: Cursor | IsCursor(gs, c) && c in CursorsOf(gs, look, StateAt(gs, look, c))
  }

  predicate IsTurn(gs: seq<Group>, c: Cursor, next: Cursor) {
    c.t < TIERS && c.gi < |gs| && c.k < |gs[c.gi].members| && next == c.(k := c.k + 1)
  }

  function PosAt(gs: seq<Group>, c: Cursor): Pos
    requires c.gi < |gs| && c.k < |gs[c.gi].members|
  {
    Pos(c.t, c.gi, MemberAt(gs[c.gi], c.k))
  }

  lemma NextState(gs: seq<Group>, look: Lookup, st: Progress, c: Cursor, next: Cursor)
    requires IsTurn(gs, c, next) && st == StateAt(gs, look, c)
    ensures IsPos(st.groups, PosAt(gs, c)) && StateAt(gs, look, next) == Visit(st, PosAt(gs, c), look)
  {
    NextTurn(gs, look, c.t, c.gi, c.k, st, PosAt(gs, c));
  }

  lemma CursorMoves(gs: seq<Group>, look: Lookup, st: Progress, c: Cursor, next: Cursor)
    requires IsTurn(gs, c, next) && c in CursorsOf(gs, look, st) && IsPos(st.groups, PosAt(gs, c))
    ensures next in CursorsOf(gs, look, Visit(st, PosAt(gs, c), look))
  {
    PartialStep(gs, st, look, c.t, c.gi, c.k);
  }

  lemma TurnMoves(gs: seq<Group>, look: Lookup, c: Cursor, next: Cursor)
    requires IsTurn(gs, c, next) && c in Reached(gs, look)
    ensures next in Reached(gs, look)
  {
    NextState(gs, look, StateAt(gs, look, c), c, next);
    CursorMoves(gs, look, StateAt(gs, look, c), c, next);
  }

  lemma {:induction false} Climb<T(!new)>(good: iset<T>, at: nat -> T, n: nat)
    requires at(0) in good && forall k: nat :: k < n && at(k) in good ==> at(k + 1) in good
    ensures at(n) in good
  {
    if n > 0 {
      Climb(good, at, n - 1);
    }
  }

  lemma GroupMoves(gs: seq<Group>, look: Lookup, t: nat, gi: nat)
    requires t < TIERS && gi < |gs| && Cursor(t, gi, 0) in Reached(gs, look)
    ensures Cursor(t, gi + 1, 0) in Reached(gs, look)
  {
    var n := |gs[gi].members|;
    forall k: nat | k < n && Cursor(t, gi, k) in Reached(gs, look)
      ensures Cursor(t, gi, k + 1) in Reached(gs, look)
    {
      TurnMoves(gs, look, Cursor(t, gi, k), Cursor(t, gi, k + 1));
    }
    Climb(Reached(gs, look), (k: nat) => Cursor(t, gi, k), n);
    GroupWraps(gs, StateAt(gs, look, Cursor(t, gi, n)), look, t, gi);
    NextGroup(gs, look, t, gi);
  }

  lemma TierMoves(gs: seq<Group>, look: Lookup, t: nat)
    requires t < TIERS && Cursor(t, 0, 0) in Reached(gs, look)
    ensures Cursor(t + 1, 0, 0) in Reached(gs, look)
  {
    forall gi: nat | gi < |gs| && Cursor(t, gi, 0) in Reached(gs, look)
      ensures Cursor(t, gi + 1, 0) in Reached(gs, look)
    {
      GroupMoves(gs, look, t, gi);
    }
    Climb(Reached(gs, look), (gi: nat) => Cursor(t, gi, 0), |gs|);
    TierWraps(gs, StateAt(gs, look, Cursor(t, |gs|, 0)), look, t);
    NextTier(gs, look, t);
  }

  lemma LoopEnds(gs: seq<Group>, look: Lookup)
    requires Unowned(gs)
    ensures Cursor(TIERS, 0, 0) in Reached(gs, look)
  {
    StartPartial(gs, look);
    assert Cursor(0, 0, 0) in Reached(gs, look);
    forall t: nat | t < TIERS && Cursor(t, 0, 0) in Reached(gs, look)
      ensures Cursor(t + 1, 0, 0) in Reached(gs, look)
    {
      TierMoves(gs, look, t);
    }
    Climb(Reached(gs, look), (t: nat) => Cursor(t, 0, 0), TIERS);
  }

  /** On groups nobody owned yet, the loop computes the matching. */
  lemma LoopIsMatching(gs: seq<Group>, look: Lookup)
    requires Unowned(gs)
    ensures IsMatching(gs, Matched(gs, look), look)
  {
    var hs := Matched(gs, look);
    LoopEnds(gs, look);
    SamePositions(gs, hs);
    assert forall p :: IsPos(gs, p) ==> Decided(gs, hs, look, TIERS, 0, 0, p);
  }

  // ---------- Consequences ----------

  /** A library file satisfies at most one dump. */
  lemma ClaimedOnce(gs: seq<Group>, hs: seq<Group>, look: Lookup, p: Pos, q: Pos)
    requires IsMatching(gs, hs, look) && IsPos(hs, p) && IsPos(hs, q)
    requires OwnedAt(hs, p).Some? && OwnedAt(hs, q).Some?
    requires OwnedAt(hs, p).value.libraryId == OwnedAt(hs, q).value.libraryId
    ensures p.gi == q.gi && p.mi == q.mi
  {
    var u :| 0 <= u < TIERS && Takes(hs, p.(tier := u));
    var v :| 0 <= v < TIERS && Takes(hs, q.(tier := v));
    TakersDiffer(gs, hs, look, p.(tier := u), q.(tier := v));
  }

  /** Two dumps that took one file are one dump. */
  lemma TakersDiffer(gs: seq<Group>, hs: seq<Group>, look: Lookup, p: Pos, q: Pos)
    requires IsMatching(gs, hs, look) && IsPos(hs, p) && IsPos(hs, q) && Takes(hs, p) && Takes(hs, q)
    requires OwnedAt(hs, p).value.libraryId == OwnedAt(hs, q).value.libraryId
    ensures p == q || (p.gi == q.gi && p.mi == q.mi)
  {
    SamePositions(gs, hs);
    EarlierTotal(gs, p, q);
    assert Wins(gs, hs, look, p) && Wins(gs, hs, look, q);
    assert TookTheHit(gs, hs, look, p) && TookTheHit(gs, hs, look, q);
  }

  /** A keeper left without a file never lost it to its own group: whoever holds the file
      its tier `t` finds, a sibling holds it only by a strictly stronger tier. */
  lemma KeeperLosesOnlyToStrongerTier(gs: seq<Group>, hs: seq<Group>, look: Lookup, gi: nat, t: nat, mi: nat)
    requires IsMatching(gs, hs, look) && gi < |gs| && HasKeeper(gs[gi]) && t < TIERS && mi < |gs[gi].members|
    requires hs[gi].members[gs[gi].keeperIndex].owned.None?
    requires var hit := look(gs[gi].members[gs[gi].keeperIndex].member, t);
             hit.Some? && hs[gi].members[mi].owned.Some? &&
               hs[gi].members[mi].owned.value.libraryId == hit.value.libraryId
    ensures exists u :: 0 <= u < t && hs[gi].members[mi].owned.value.matchedBy == TierName(u)
  {
    var k := Pos(t, gi, gs[gi].keeperIndex);
    SamePositions(gs, hs);
    assert !Takes(hs, k) && !Wins(gs, hs, look, k);
    var hit := look(gs[gi].members[k.mi].member, t).value;
    var q :| IsPos(hs, q) && Earlier(gs, q, k) && Takes(hs, q)
             && ((q.gi == k.gi && q.mi == k.mi) || OwnedAt(hs, q).value.libraryId == hit.libraryId);
    ClaimedOnce(gs, hs, look, q, Pos(0, gi, mi));
  }

  // ---------- Entries and counts ----------

  datatype Status = Owned | Covered | Gap | Out

  datatype Entry = Entry(group: Group, status: Status, surplus: seq<Candidate>)

  /** A member left in and on disk, other than the keeper. */
  ghost predicate AnyEligibleOwned(g: Group) {
    exists i :: 0 <= i < |g.members| && !g.members[i].excluded && !g.members[i].keeper && g.members[i].owned.Some?
  }

  function SurplusOf(cs: seq<Candidate>): seq<Candidate> {
    if cs == [] then []
    else SurplusOf(cs[..|cs| - 1])
         + if cs[|cs| - 1].owned.None? || cs[|cs| - 1].keeper then [] else [cs[|cs| - 1]]
  }

  ghost function StatusOf(g: Group): Status {
    if !HasKeeper(g) then Out
    else if g.members[g.keeperIndex].owned.Some? then Owned
    else if AnyEligibleOwned(g) then Covered
    else Gap
  }

  ghost function EntryOf(g: Group): Entry { Entry(g, StatusOf(g), SurplusOf(g.members)) }

  ghost function Entries(gs: seq<Group>): seq<Entry> {
    seq(|gs|, i requires 0 <= i < |gs| => EntryOf(gs[i]))
  }

  method SurplusLoop(cs: seq<Candidate>) returns (surplus: seq<Candidate>)
    ensures surplus == SurplusOf(cs)
  {
    surplus := [];
    for i := 0 to |cs|
      invariant surplus == SurplusOf(cs[..i])
    {
      assert cs[..i + 1][..i] == cs[..i];
      if cs[i].owned.None? || cs[i].keeper {
        continue;
      }
      surplus := surplus + [cs[i]];
    }
    assert cs[..|cs|] == cs;
  }

  method EligibleOwned(g: Group) returns (any: bool)
    ensures any <==> AnyEligibleOwned(g)
  {
    for i := 0 to |g.members|
      invariant forall k :: 0 <= k < i && !g.members[k].excluded && !g.members[k].keeper ==> g.members[k].owned.None?
    {
      var c := g.members[i];
      if !c.excluded && !c.keeper && c.owned.Some? {
        return true;
      }
    }
    return false;
  }

  /** What an entry says of its group. An excluded dump never covers the missing keeper. */
  ghost predicate EntryMeans(e: Entry) {
    var cs, k := e.group.members, e.group.keeperIndex;
    && -1 <= k < |cs|
    && (e.status.Out? <==> k < 0)
    && (e.status.Owned? <==> k >= 0 && cs[k].owned.Some?)
    && (e.status.Covered? <==>
          k >= 0 && cs[k].owned.None? && exists i :: 0 <= i < |cs| && i != k && !cs[i].excluded && cs[i].owned.Some?)
    && (e.status.Gap? <==>
          k >= 0 && cs[k].owned.None? && forall i :: 0 <= i < |cs| && cs[i].owned.Some? ==> cs[i].excluded)
    && (forall c :: c in e.surplus <==> exists i :: 0 <= i < |cs| && i != k && cs[i] == c && c.owned.Some?)
  }

  lemma {:induction false} SurplusMeans(g: Group, n: nat, c: Candidate)
    requires FlagsOk(g) && n <= |g.members|
    ensures c in SurplusOf(g.members[..n]) <==>
            exists i :: 0 <= i < n && i != g.keeperIndex && g.members[i] == c && c.owned.Some?
  {
    if n > 0 {
      var m := n - 1;
      SurplusMeans(g, m, c);
      assert g.members[..n][..m] == g.members[..m];
    }
  }

  lemma EntryOfMeans(g: Group)
    requires FlagsOk(g)
    ensures EntryMeans(EntryOf(g))
  {
    var cs := g.members;
    forall c
      ensures c in SurplusOf(cs) <==> exists i :: 0 <= i < |cs| && i != g.keeperIndex && cs[i] == c && c.owned.Some?
    {
      SurplusMeans(g, |cs|, c);
      assert cs[..|cs|] == cs;
    }
  }

  /** The first n entries of one status. */
  ghost function Having(es: seq<Entry>, n: nat, s: Status): set<nat>
    requires n <= |es|
  {
    set i | 0 <= i < n && es[i].status == s
  }

  /** Those left out of the set and on disk all the same. */
  ghost function OutOnDisk(es: seq<Entry>, n: nat): set<nat>
    requires n <= |es|
  {
    set i | 0 <= i < n && es[i].status.Out? && exists j :: 0 <= j < |es[i].group.members|
                                                           && es[i].group.members[j].owned.Some?
  }

  lemma HavingPush(es: seq<Entry>, m: nat, s: Status)
    requires m < |es|
    ensures |Having(es, m + 1, s)| == |Having(es, m, s)| + if es[m].status == s then 1 else 0
  {
    assert Having(es, m + 1, s) == Having(es, m, s) + if es[m].status == s then {m} else {};
  }

  lemma OutOnDiskPush(es: seq<Entry>, m: nat)
    requires m < |es|
    ensures |OutOnDisk(es, m + 1)|
            == |OutOnDisk(es, m)| + if es[m].status.Out? && AnyOwned(es[m].group) then 1 else 0
  {
    var more: set<nat> := if es[m].status.Out? && AnyOwned(es[m].group) then {m} else {};
    assert OutOnDisk(es, m + 1) == OutOnDisk(es, m) + more;
  }

  /** Each counter is the number of entries of its status; the groups are those that keep a dump. */
  lemma {:induction false} CountsMean(es: seq<Entry>, n: nat)
    requires n <= |es|
    ensures var c := CountOf(es, n);
      && c.owned == |Having(es, n, Owned)| && c.covered == |Having(es, n, Covered)| && c.gaps == |Having(es, n, Gap)|
      && c.out == |Having(es, n, Out)| && c.outOnDisk == |OutOnDisk(es, n)|
      && c.groups == c.owned + c.covered + c.gaps
  {
    if n > 0 {
      var m := n - 1;
      CountsMean(es, m);
      HavingPush(es, m, Owned);
      HavingPush(es, m, Covered);
      HavingPush(es, m, Gap);
      HavingPush(es, m, Out);
      OutOnDiskPush(es, m);
    }
  }

  /** `Reconcile`: the triple loop, then one entry per group. */
  method Reconciled(groups: seq<Group>, idx: Option<Index>, ownershipKeys: string -> seq<string>)
    returns (out: seq<Entry>)
    ensures out == Entries(Matched(groups, TierLookup(idx, ownershipKeys)))
  {
    var gs := MatchLoop(groups, idx, ownershipKeys);
    out := [];
    for i := 0 to |gs|
      invariant |out| == i && forall k :: 0 <= k < i ==> out[k] == EntryOf(gs[k])
    {
      var g := gs[i];
      var status := Out;
      if 0 <= g.keeperIndex < |g.members| {
        if g.members[g.keeperIndex].owned.Some? {
          status := Owned;
        } else {
          var covered := EligibleOwned(g);
          status := if covered then Covered else Gap;
        }
      }
      var surplus := SurplusLoop(g.members);
      out := out + [Entry(g, status, surplus)];
    }
  }

  datatype Counts = Counts(groups: nat, owned: nat, covered: nat, gaps: nat, out: nat, outOnDisk: nat, surplus: nat)

  predicate AnyOwned(g: Group) { exists i :: 0 <= i < |g.members| && g.members[i].owned.Some? }

  /** The counters after one more entry. */
  function Tally(c: Counts, e: Entry): Counts {
    var d := match e.status
             case Owned => c.(groups := c.groups + 1, owned := c.owned + 1)
             case Covered => c.(groups := c.groups + 1, covered := c.covered + 1)
             case Gap => c.(groups := c.groups + 1, gaps := c.gaps + 1)
             case Out => c.(out := c.out + 1, outOnDisk := c.outOnDisk + if AnyOwned(e.group) then 1 else 0);
    d.(surplus := d.surplus + |e.surplus|)
  }

  function CountOf(es: seq<Entry>, n: nat): Counts
    requires n <= |es|
  {
    if n == 0 then Counts(0, 0, 0, 0, 0, 0, 0) else Tally(CountOf(es, n - 1), es[n - 1])
  }

  method Summarise(es: seq<Entry>) returns (c: Counts)
    ensures c == CountOf(es, |es|)
  {
    c := Counts(0, 0, 0, 0, 0, 0, 0);
    for i := 0 to |es|
      invariant c == CountOf(es, i)
    {
      var e := es[i];
      match e.status {
        case Owned => c := c.(groups := c.groups + 1, owned := c.owned + 1);
        case Covered => c := c.(groups := c.groups + 1, covered := c.covered + 1);
        case Gap => c := c.(groups := c.groups + 1, gaps := c.gaps + 1);
        case Out =>
          c := c.(out := c.out + 1);
          var j := 0;
          while j < |e.group.members| && e.group.members[j].owned.None?
            invariant 0 <= j <= |e.group.members|
            invariant forall k :: 0 <= k < j ==> e.group.members[k].owned.None?
          {
            j := j + 1;
          }
          if j < |e.group.members| {
            c := c.(outOnDisk := c.outOnDisk + 1);
          }
      }
      c := c.(surplus := c.surplus + |e.surplus|);
    }
  }

  function OwnedIds(cs: seq<Candidate>): set<int> {
    set i | 0 <= i < |cs| && cs[i].owned.Some? :: cs[i].owned.value.libraryId
  }

  function ClaimedIds(es: seq<Entry>, n: nat): set<int>
    requires n <= |es|
  {
    if n == 0 then {} else ClaimedIds(es, n - 1) + OwnedIds(es[n - 1].group.members)
  }

  method ClaimedLibraryIds(es: seq<Entry>) returns (claimed: set<int>)
    ensures claimed == ClaimedIds(es, |es|)
  {
    claimed := {};
    for i := 0 to |es|
      invariant claimed == ClaimedIds(es, i)
    {
      var cs := es[i].group.members;
      ghost var before := claimed;
      for j := 0 to |cs|
        invariant claimed == before + OwnedIds(cs[..j])
      {
        assert cs[..j + 1] == cs[..j] + [cs[j]];
        var id: set<int> := if cs[j].owned.Some? then {cs[j].owned.value.libraryId} else {};
        assert OwnedIds(cs[..j + 1]) == OwnedIds(cs[..j]) + id by {
          IdsPush(cs[..j], cs[j]);
        }
        if cs[j].owned.Some? {
          claimed := claimed + {cs[j].owned.value.libraryId};
        }
      }
      assert cs[..|cs|] == cs;
    }
  }

  lemma IdsPush(cs: seq<Candidate>, c: Candidate)
    ensures OwnedIds(cs + [c]) == OwnedIds(cs) + if c.owned.Some? then {c.owned.value.libraryId} else {}
  {
    var ds := cs + [c];
    forall x | x in OwnedIds(cs)
      ensures x in OwnedIds(ds)
    {
      var i :| 0 <= i < |cs| && cs[i].owned.Some? && cs[i].owned.value.libraryId == x;
      assert ds[i] == cs[i];
    }
    if c.owned.Some? {
      assert ds[|cs|] == c;
    }
  }

  // ---------- Conservation ----------

  /** The keeper flag is set on exactly the member the keeper index names. */
  ghost predicate FlagsOk(g: Group) {
    && -1 <= g.keeperIndex < |g.members|
    && forall i :: 0 <= i < |g.members| ==> (g.members[i].keeper <==> i == g.keeperIndex)
  }

  ghost function OwnedIn(cs: seq<Candidate>): nat {
    if cs == [] then 0 else OwnedIn(cs[..|cs| - 1]) + if cs[|cs| - 1].owned.Some? then 1 else 0
  }

  lemma {:induction false} OwnedSplits(g: Group, n: nat)
    requires FlagsOk(g) && n <= |g.members|
    ensures OwnedIn(g.members[..n]) == |SurplusOf(g.members[..n])|
            + if 0 <= g.keeperIndex < n && g.members[g.keeperIndex].owned.Some? then 1 else 0
  {
    if n > 0 {
      OwnedSplits(g, n - 1);
      assert g.members[..n][..n - 1] == g.members[..n - 1];
    }
  }

  ghost function TotalOwned(gs: seq<Group>, n: nat): nat
    requires n <= |gs|
  {
    if n == 0 then 0 else TotalOwned(gs, n - 1) + OwnedIn(gs[n - 1].members)
  }

  /** Owned, covered and missing groups are all the groups in; with the groups out they are the
      entries; and what is owned is a keeper or surplus. */
  ghost predicate Balanced(c: Counts, entries: nat, ownedDumps: nat) {
    && c.owned + c.covered + c.gaps == c.groups && c.groups + c.out == entries && c.outOnDisk <= c.out
    && c.owned + c.surplus == ownedDumps
  }

  lemma TallyBalances(c: Counts, g: Group, entries: nat, ownedDumps: nat)
    requires FlagsOk(g) && Balanced(c, entries, ownedDumps)
    ensures Balanced(Tally(c, EntryOf(g)), entries + 1, ownedDumps + OwnedIn(g.members))
  {
    OwnedSplits(g, |g.members|);
    assert g.members[..|g.members|] == g.members;
  }

  /** The status counts add up. */
  lemma {:induction false} CountsAddUp(gs: seq<Group>, n: nat)
    requires n <= |gs| && forall i :: 0 <= i < n ==> FlagsOk(gs[i])
    ensures Balanced(CountOf(Entries(gs), n), n, TotalOwned(gs, n))
  {
    if n > 0 {
      CountsAddUp(gs, n - 1);
      TallyBalances(CountOf(Entries(gs), n - 1), gs[n - 1], n - 1, TotalOwned(gs, n - 1));
      assert Entries(gs)[n - 1] == EntryOf(gs[n - 1]);
    }
  }

  /** No two owned dumps share a library file. */
  ghost predicate IdsDistinct(gs: seq<Group>) {
    forall p, q, x :: Holds(gs, p, x) && Holds(gs, q, x) ==> p.gi == q.gi && p.mi == q.mi
  }

  lemma NewId(gs: seq<Group>, gi: nat, n: nat)
    requires IdsDistinct(gs) && gi < |gs| && 0 < n <= |gs[gi].members| && gs[gi].members[n - 1].owned.Some?
    ensures gs[gi].members[n - 1].owned.value.libraryId !in OwnedIds(gs[gi].members[..n - 1])
  {
    var cs := gs[gi].members;
    var x := cs[n - 1].owned.value.libraryId;
    assert Holds(gs, Pos(0, gi, n - 1), x);
    var init := cs[..n - 1];
    forall i | 0 <= i < |init| && init[i].owned.Some?
      ensures init[i].owned.value.libraryId != x
    {
      assert Holds(gs, Pos(0, gi, i), cs[i].owned.value.libraryId);
    }
  }

  lemma {:induction false} GroupIds(gs: seq<Group>, gi: nat, n: nat)
    requires IdsDistinct(gs) && gi < |gs| && n <= |gs[gi].members|
    ensures |OwnedIds(gs[gi].members[..n])| == OwnedIn(gs[gi].members[..n])
  {
    if n > 0 {
      var cs := gs[gi].members;
      GroupIds(gs, gi, n - 1);
      assert cs[..n] == cs[..n - 1] + [cs[n - 1]] && cs[..n][..n - 1] == cs[..n - 1];
      IdsPush(cs[..n - 1], cs[n - 1]);
      if cs[n - 1].owned.Some? {
        NewId(gs, gi, n);
      }
    }
  }

  lemma {:induction false} ClaimedSource(es: seq<Entry>, n: nat, x: int) returns (gi: nat, mi: nat)
    requires n <= |es| && x in ClaimedIds(es, n)
    ensures gi < n && mi < |es[gi].group.members|
    ensures es[gi].group.members[mi].owned.Some? && es[gi].group.members[mi].owned.value.libraryId == x
  {
    if x in ClaimedIds(es, n - 1) {
      gi, mi := ClaimedSource(es, n - 1, x);
    } else {
      gi := n - 1;
      mi :| 0 <= mi < |es[gi].group.members| && es[gi].group.members[mi].owned.Some?
            && es[gi].group.members[mi].owned.value.libraryId == x;
    }
  }

  lemma {:induction false} ClaimedSize(gs: seq<Group>, n: nat)
    requires IdsDistinct(gs) && n <= |gs|
    ensures |ClaimedIds(Entries(gs), n)| == TotalOwned(gs, n)
  {
    if n > 0 {
      var cs, before := gs[n - 1].members, ClaimedIds(Entries(gs), n - 1);
      ClaimedSize(gs, n - 1);
      GroupIds(gs, n - 1, |cs|);
      assert cs[..|cs|] == cs;
      GroupsDisjoint(gs, n);
      UnionSize(before, OwnedIds(cs));
    }
  }

  lemma UnionSize<T>(a: set<T>, b: set<T>)
    requires a !! b
    ensures |a + b| == |a| + |b|
  {
  }

  lemma GroupsDisjoint(gs: seq<Group>, n: nat)
    requires IdsDistinct(gs) && 0 < n <= |gs|
    ensures ClaimedIds(Entries(gs), n - 1) !! OwnedIds(gs[n - 1].members)
  {
    var cs := gs[n - 1].members;
    forall x | x in ClaimedIds(Entries(gs), n - 1)
      ensures x !in OwnedIds(cs)
    {
      var gi, mi := ClaimedSource(Entries(gs), n - 1, x);
      assert Holds(gs, Pos(0, gi, mi), x);
      forall j | 0 <= j < |cs| && cs[j].owned.Some?
        ensures cs[j].owned.value.libraryId != x
      {
        assert Holds(gs, Pos(0, n - 1, j), cs[j].owned.value.libraryId);
      }
    }
  }

  /** Conservation: every group is counted once, and every claimed file is a kept or a surplus dump's. */
  lemma Conservation(gs: seq<Group>, look: Lookup)
    requires Unowned(gs) && forall g :: g in gs ==> FlagsOk(g)
    ensures var es := Entries(Matched(gs, look));
            var c := CountOf(es, |es|);
      && |es| == |gs| && c.owned + c.covered + c.gaps == c.groups && c.groups + c.out == |gs| && c.outOnDisk <= c.out
      && |ClaimedIds(es, |es|)| == c.owned + c.surplus
  {
    var hs := Matched(gs, look);
    LoopIsMatching(gs, look);
    forall i | 0 <= i < |hs|
      ensures FlagsOk(hs[i])
    {
      assert gs[i] in gs;
    }
    CountsAddUp(hs, |hs|);
    forall p, q, x | Holds(hs, p, x) && Holds(hs, q, x)
      ensures p.gi == q.gi && p.mi == q.mi
    {
      ClaimedOnce(gs, hs, look, p, q);
    }
    ClaimedSize(hs, |hs|);
  }

  /** What `Build` hands over is what `Reconcile` expects. */
  lemma BuiltIsReady(b: Build.Bucket, p: Policy)
    ensures FlagsOk(Build.Finished(b, p)) && Unowned([Build.Finished(b, p)])
  {
    Build.FinishedGroup(b, p);
  }
}
