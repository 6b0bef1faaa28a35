/** internal/collection/set.go, `Build` and the two passes over a finished group. */
module Build {
  import opened Options
  import opened Text
  import opened Collection

  // ---------- Which group a dump belongs to ----------

  datatype Placement = Placement(key: string, title: string, source: Source, categories: seq<string>, priority: int)

  function Placed(m: Member, overlay: Overlay): Placement {
    match overlay(m)
    case Some(hit) => Placement("clone:" + Lower(hit.group), hit.group, FromCloneList, hit.categories, hit.priority)
    case None =>
      var title := if Trim(m.bareTitle) == "" then Trim(m.name) else Trim(m.bareTitle);
      Placement("title:" + Lower(title), title, FromTitle, [], 1)
  }

  lemma KeyFixesSource(a: Member, b: Member, overlay: Overlay)
    requires Placed(a, overlay).key == Placed(b, overlay).key
    ensures Placed(a, overlay).source == Placed(b, overlay).source
  {
    assert Placed(a, overlay).key[0] == if overlay(a).Some? then 'c' else 't';
    assert Placed(b, overlay).key[0] == if overlay(b).Some? then 'c' else 't';
  }

  /** The title a dump goes by when no clone list claims it. */
  ghost predicate OwnTitle(m: Member, title: string) {
    IsTrimmed(if AllSpace(m.bareTitle) then m.name else m.bareTitle, title)
  }

  /** Two dumps share a group exactly when a clone list puts both into groups of one name, or claims
      neither and they go by one title, letter case aside; and the first of the group gives its title. */
  lemma SameGroupIff(a: Member, b: Member, overlay: Overlay, x: string, y: string)
    requires OwnTitle(a, x) && OwnTitle(b, y)
    ensures Placed(a, overlay).title == (if overlay(a).Some? then overlay(a).value.group else x)
    ensures Placed(a, overlay).key == Placed(b, overlay).key <==>
            || (overlay(a).Some? && overlay(b).Some? && Lower(overlay(a).value.group) == Lower(overlay(b).value.group))
            || (overlay(a).None? && overlay(b).None? && Lower(x) == Lower(y))
  {
    GoesBy(a, x);
    GoesBy(b, y);
    var s, t := Placed(a, overlay).key, Placed(b, overlay).key;
    assert s[0] == if overlay(a).Some? then 'c' else 't';
    assert t[0] == if overlay(b).Some? then 'c' else 't';
    assert s[6..] == if overlay(a).Some? then Lower(overlay(a).value.group) else Lower(x);
    assert t[6..] == if overlay(b).Some? then Lower(overlay(b).value.group) else Lower(y);
  }

  lemma GoesBy(m: Member, title: string)
    requires OwnTitle(m, title)
    ensures title == if Trim(m.bareTitle) == "" then Trim(m.name) else Trim(m.bareTitle)
  {
    BlankIff(m.bareTitle);
    TrimIff(m.bareTitle, title);
    TrimIff(m.name, title);
  }

  // ---------- Choosing the keeper ----------

  function BestIndex(cs: seq<Candidate>, prio: map<int, int>, p: Policy, n: nat): (r: int)
    requires n <= |cs|
    ensures -1 <= r < n && (r >= 0 ==> !cs[r].excluded)
  {
    if n == 0 then -1
    else
      var b := BestIndex(cs, prio, p, n - 1);
      if cs[n - 1].excluded then b
      else if b < 0 || Less(cs[n - 1].member, cs[b].member, prio, p) then n - 1 else b
  }

  ghost function BestSoFar(cs: seq<Candidate>, prio: map<int, int>, p: Policy, n: nat): (b: int)
    requires n <= |cs|
    ensures -1 <= b < n
  {
    BestIndex(cs, prio, p, n)
  }

  ghost function LessAt(cs: seq<Candidate>, prio: map<int, int>, p: Policy): (nat, nat) -> bool {
    (i: nat, j: nat) => i < |cs| && j < |cs| && Less(cs[i].member, cs[j].member, prio, p)
  }

  function Outs(cs: seq<Candidate>): seq<bool> { seq(|cs|, i requires 0 <= i < |cs| => cs[i].excluded) }

  ghost predicate WeakOrder(less: (nat, nat) -> bool, n: nat) {
    && (forall i: nat :: i < n ==> !less(i, i))
    && forall i: nat, j: nat, k: nat :: i < n && j < n && k < n ==>
         (less(i, j) && less(j, k) ==> less(i, k)) && (!less(i, j) && !less(j, k) ==> !less(i, k))
  }

  ghost function WeakOrders(n: nat): iset<(nat, nat) -> bool> { iset less: (nat, nat) -> bool | WeakOrder(less, n) }

  lemma LessAtIsWeakOrder(cs: seq<Candidate>, prio: map<int, int>, p: Policy)
    ensures LessAt(cs, prio, p) in WeakOrders(|Outs(cs)|)
  {
    var less := LessAt(cs, prio, p);
    forall i: nat, j: nat, k: nat | i < |cs| && j < |cs| && k < |cs|
      ensures !less(i, i) && (less(i, j) && less(j, k) ==> less(i, k)) && (!less(i, j) && !less(j, k) ==> !less(i, k))
    {
      LessIsStrictWeakOrder(cs[i].member, cs[j].member, cs[k].member, prio, p);
    }
  }

  /** How the best so far moves on. */
  ghost function NextBest(out: seq<bool>, less: (nat, nat) -> bool, n: nat, b: int): int
    requires n < |out| && -1 <= b
  {
    if out[n] then b else if b < 0 || less(n, b) then n else b
  }

  /** `b` is the first of the first n places that no place left in is less than; -1 if none is left in. */
  ghost predicate FirstMinimum(out: seq<bool>, less: (nat, nat) -> bool, n: nat, b: int)
    requires n <= |out|
  {
    && -1 <= b < n && (b < 0 <==> forall i :: 0 <= i < n ==> out[i]) && (b >= 0 ==> !out[b])
    && (b >= 0 ==> forall i :: 0 <= i < n && !out[i] ==> !less(i, b) && (i < b ==> less(b, i)))
  }

  ghost function FirstMinima(out: seq<bool>, less: (nat, nat) -> bool, n: nat): iset<int>
    requires n <= |out|
  {
    iset b | FirstMinimum(out, less, n, b)
  }

  lemma FirstMinimumStep(out: seq<bool>, less: (nat, nat) -> bool, n: nat, b: int)
    requires 0 < n <= |out| && b in FirstMinima(out, less, n - 1) && less in WeakOrders(|out|)
    ensures NextBest(out, less, n - 1, b) in FirstMinima(out, less, n)
  {
    var m := n - 1;
    assert !less(m, m);
    if !out[m] && b >= 0 && less(m, b) {
      forall i: nat | i < m && !out[i]
        ensures !less(i, m) && less(m, i)
      {
        assert !less(i, b);
      }
    }
  }

  lemma BestStep(cs: seq<Candidate>, prio: map<int, int>, p: Policy, n: nat)
    requires 0 < n <= |cs|
    ensures BestSoFar(cs, prio, p, n) == NextBest(Outs(cs), LessAt(cs, prio, p), n - 1, BestSoFar(cs, prio, p, n - 1))
  {
    var b := BestIndex(cs, prio, p, n - 1);
    assert b >= 0 ==> (LessAt(cs, prio, p)(n - 1, b) <==> Less(cs[n - 1].member, cs[b].member, prio, p));
  }

  lemma {:induction false} BestMinimum(cs: seq<Candidate>, prio: map<int, int>, p: Policy, n: nat)
    requires n <= |cs|
    ensures BestSoFar(cs, prio, p, n) in FirstMinima(Outs(cs), LessAt(cs, prio, p), n)
  {
    if n > 0 {
      BestMinimum(cs, prio, p, n - 1);
      LessAtIsWeakOrder(cs, prio, p);
      BestStep(cs, prio, p, n);
      FirstMinimumStep(Outs(cs), LessAt(cs, prio, p), n, BestSoFar(cs, prio, p, n - 1));
    }
  }

  /** The keeper is the first minimum of `less` over the members policy leaves in. */
  lemma BestIsFirstMinimum(cs: seq<Candidate>, prio: map<int, int>, p: Policy, n: nat)
    requires n <= |cs|
    ensures var b := BestIndex(cs, prio, p, n);
      && (b < 0 <==> forall i :: 0 <= i < n ==> cs[i].excluded)
      && (b >= 0 ==> forall i :: 0 <= i < n && !cs[i].excluded ==> !Less(cs[i].member, cs[b].member, prio, p))
      && (b >= 0 ==> forall i :: 0 <= i < b && !cs[i].excluded ==> Less(cs[b].member, cs[i].member, prio, p))
  {
    var b, out, less := BestSoFar(cs, prio, p, n), Outs(cs), LessAt(cs, prio, p);
    BestMinimum(cs, prio, p, n);
    forall i: nat | i < n
      ensures out[i] == cs[i].excluded
      ensures b >= 0 && !cs[i].excluded ==> !Less(cs[i].member, cs[b].member, prio, p)
      ensures b >= 0 && i < b && !cs[i].excluded ==> Less(cs[b].member, cs[i].member, prio, p)
    {
      if b >= 0 && !out[i] {
        assert !less(i, b) && (i < b ==> less(b, i));
      }
    }
  }

  ghost function DisplayRegion(region: string): string { if Trim(region) == "" then "unknown region" else region }

  function Eligible(cs: seq<Candidate>): nat {
    if cs == [] then 0 else Eligible(cs[..|cs| - 1]) + if cs[|cs| - 1].excluded then 0 else 1
  }

  ghost function KeeperReason(k: Member, cs: seq<Candidate>, p: Policy): string {
    if RegionRank(k.region, p.regionPriority) > |p.regionPriority|
    then "no preferred-region dump exists; kept " + DisplayRegion(k.region)
    else if Eligible(cs) == 1 then "only catalogued dump in the set"
    else "preferred region: " + DisplayRegion(k.region)
  }

  ghost function Chosen(g: Group, prio: map<int, int>, p: Policy): Group {
    var b := BestIndex(g.members, prio, p, |g.members|);
    if b < 0 then g.(reason := "every catalogued dump is excluded by policy")
    else
      var k := g.members[b].member;
      g.(keeperIndex := b,
         members := seq(|g.members|, i requires 0 <= i < |g.members| =>
           if i == b then g.members[b].(keeper := true, reason := KeeperReason(k, g.members, p))
           else if g.members[i].excluded then g.members[i]
           else g.members[i].(reason := "surplus: the set keeps " + k.name)))
  }

  lemma ChosenIs(g: Group, prio: map<int, int>, p: Policy, best: nat, reason: string, members: seq<Candidate>)
    requires best < |g.members| == |members| && best == BestIndex(g.members, prio, p, |g.members|)
    requires reason == KeeperReason(g.members[best].member, g.members, p)
    requires forall i :: 0 <= i < |members| ==>
      members[i] == if i == best then g.members[i].(keeper := true, reason := reason)
                    else if g.members[i].excluded then g.members[i]
                    else g.members[i].(reason := "surplus: the set keeps " + g.members[best].member.name)
    ensures g.(keeperIndex := best, members := members) == Chosen(g, prio, p)
  {
    assert members == Chosen(g, prio, p).members;
  }

  method EligibleLoop(cs: seq<Candidate>) returns (n: nat)
    ensures n == Eligible(cs)
  {
    n := 0;
    for i := 0 to |cs|
      invariant n == Eligible(cs[..i])
    {
      assert cs[..i + 1][..i] == cs[..i];
      if !cs[i].excluded {
        n := n + 1;
      }
    }
    assert cs[..|cs|] == cs;
  }

  lemma EligibleSame(a: seq<Candidate>, b: seq<Candidate>)
    requires |a| == |b| && forall i :: 0 <= i < |a| ==> a[i].excluded == b[i].excluded
    ensures Eligible(a) == Eligible(b)
  {
    if a != [] {
      EligibleSame(a[..|a| - 1], b[..|b| - 1]);
    }
  }

  method MarkSurplus(members: seq<Candidate>, best: nat) returns (cs: seq<Candidate>)
    requires best < |members|
    ensures |cs| == |members|
    ensures forall i :: 0 <= i < |cs| ==>
      cs[i] == if i == best || members[i].excluded then members[i]
               else members[i].(reason := "surplus: the set keeps " + members[best].member.name)
  {
    cs := members;
    for i := 0 to |cs|
      invariant |cs| == |members| && cs[best] == members[best]
      invariant forall k :: i <= k < |cs| ==> cs[k] == members[k]
      invariant forall k :: 0 <= k < i ==>
        cs[k] == if k == best || members[k].excluded then members[k]
                 else members[k].(reason := "surplus: the set keeps " + members[best].member.name)
    {
      if i != best && !cs[i].excluded {
        cs := cs[i := cs[i].(reason := "surplus: the set keeps " + cs[best].member.name)];
      }
    }
  }

  /** The loop that compares every admitted dump with the best so far. */
  method BestLoop(members: seq<Candidate>, prio: map<int, int>, p: Policy) returns (best: int)
    ensures best == BestIndex(members, prio, p, |members|)
  {
    best := -1;
    for i := 0 to |members|
      invariant best == BestIndex(members, prio, p, i)
    {
      if members[i].excluded {
        continue;
      }
      if best < 0 || Less(members[i].member, members[best].member, prio, p) {
        best := i;
      }
    }
  }

  method ChooseKeeper(group: Group, prio: map<int, int>, p: Policy) returns (g: Group)
    ensures g == Chosen(group, prio, p)
  {
    g := group;
    var best := BestLoop(g.members, prio, p);
    if best < 0 {
      g := g.(reason := "every catalogued dump is excluded by policy");
      return;
    }
    g := g.(keeperIndex := best, members := g.members[best := g.members[best].(keeper := true)]);
    var rank := RegionRankLoop(g.members[best].member.region, p.regionPriority);
    var eligible := EligibleLoop(g.members);
    EligibleSame(g.members, group.members);
    var region := g.members[best].member.region;
    if Trim(region) == "" {
      region := "unknown region";
    }
    var reason := if rank > |p.regionPriority| then "no preferred-region dump exists; kept " + region
                  else if eligible == 1 then "only catalogued dump in the set"
                  else "preferred region: " + region;
    g := g.(members := g.members[best := g.members[best].(reason := reason)]);
    var members := MarkSurplus(g.members, best);
    g := g.(members := members);
    ChosenIs(group, prio, p, best, reason, members);
  }

  // ---------- The English gate ----------

  predicate HasEnglish(cs: seq<Candidate>) {
    exists i :: 0 <= i < |cs| && !cs[i].excluded && EnglishRank(cs[i].member) == 0
  }

  ghost function Gated(g: Group, p: Policy): Group {
    if !p.requireEnglish || HasEnglish(g.members) then g
    else g.(keeperIndex := -1, reason := "no English release",
            members := seq(|g.members|, i requires 0 <= i < |g.members| =>
              if g.members[i].excluded then g.members[i]
              else g.members[i].(excluded := true, reason := "no English release", keeper := false)))
  }

  method RequireEnglish(group: Group, p: Policy) returns (g: Group)
    ensures g == Gated(group, p)
  {
    g := group;
    if !p.requireEnglish {
      return;
    }
    for i := 0 to |g.members|
      invariant !HasEnglish(g.members[..i])
    {
      if !g.members[i].excluded && EnglishRank(g.members[i].member) == 0 {
        return;
      }
    }
    assert g.members[..|g.members|] == g.members;
    for i := 0 to |g.members|
      invariant g == group.(members := g.members) && |g.members| == |group.members|
      invariant forall k :: 0 <= k < |g.members| ==>
        g.members[k] == if k < i && !group.members[k].excluded
                        then group.members[k].(excluded := true, reason := "no English release", keeper := false)
                        else group.members[k]
    {
      if !g.members[i].excluded {
        g := g.(members := g.members[i := g.members[i].(excluded := true, reason := "no English release",
            keeper := false)]);
      }
    }
    g := g.(keeperIndex := -1, reason := "no English release");
    assert g.members == Gated(group, p).members;
  }

  // ---------- Buckets ----------

  datatype Bucket = Bucket(key: string, title: string, source: Source, categories: seq<string>,
                           members: seq<Member>, prio: map<int, int>)

  /** One turn of the loop over the catalogue, for the bucket of the dump's own key. */
  function AddTo(b: Option<Bucket>, m: Member, place: Placement): Bucket {
    var b := match b
             case None => Bucket(place.key, place.title, place.source, place.categories, [], map[])
             case Some(b) => b;
    var b := if place.source == FromCloneList && b.source != FromCloneList
             then b.(source := place.source, title := place.title, categories := place.categories) else b;
    b.(members := b.members + [m], prio := b.prio[m.gameId := place.priority])
  }

  function BucketOf(ms: seq<Member>, key: string, overlay: Overlay): Option<Bucket> {
    if ms == [] then None
    else
      var b, m := BucketOf(ms[..|ms| - 1], key, overlay), ms[|ms| - 1];
      if Placed(m, overlay).key != key then b else Some(AddTo(b, m, Placed(m, overlay)))
  }

  function OfKey(ms: seq<Member>, key: string, overlay: Overlay): seq<Member> {
    if ms == [] then []
    else OfKey(ms[..|ms| - 1], key, overlay)
         + if Placed(ms[|ms| - 1], overlay).key == key then [ms[|ms| - 1]] else []
  }

  function Keys(ms: seq<Member>, overlay: Overlay): seq<string> {
    if ms == [] then []
    else
      var ks, k := Keys(ms[..|ms| - 1], overlay), Placed(ms[|ms| - 1], overlay).key;
      if k in ks then ks else ks + [k]
  }

  function Candidates(ms: seq<Member>, categories: seq<string>, p: Policy): seq<Candidate> {
    seq(|ms|, i requires 0 <= i < |ms| =>
      var why := ExcludedBy(ms[i], categories, p);
      Candidate(ms[i], why.Some?, if why.Some? then why.value else "", false, None))
  }

  /** The finished group of one bucket. */
  ghost function Finished(b: Bucket, p: Policy): Group {
    Gated(Chosen(Fresh(b, p), b.prio, p), p)
  }

  // ---------- Build ----------

  predicate GroupLess(a: Group, b: Group) {
    StringLess(a.title, b.title) || (a.title == b.title && StringLess(a.key, b.key))
  }

  predicate Ordered(gs: seq<Group>) { forall i, j :: 0 <= i < j < |gs| ==> !GroupLess(gs[j], gs[i]) }

  /** What the order says: titles ascend, and keys ascend among equal titles. */
  lemma OrderedAscends(gs: seq<Group>, i: nat, j: nat)
    requires Ordered(gs) && i < j < |gs|
    ensures gs[i].title == gs[j].title || StringLess(gs[i].title, gs[j].title)
    ensures gs[i].title == gs[j].title ==> gs[i].key == gs[j].key || StringLess(gs[i].key, gs[j].key)
  {
    StringLessTotal(gs[i].title, gs[j].title);
    StringLessTotal(gs[i].key, gs[j].key);
  }

  lemma GroupOrder(a: Group, b: Group, c: Group)
    ensures !GroupLess(a, b) && !GroupLess(b, c) ==> !GroupLess(a, c)
    ensures !(GroupLess(a, b) && GroupLess(b, a)) && !GroupLess(a, a)
  {
    StringLessTotal(a.title, b.title);
    StringLessTotal(b.title, c.title);
    StringLessTotal(a.title, c.title);
    StringLessTotal(a.key, b.key);
    StringLessTotal(b.key, c.key);
    StringLessTotal(a.key, c.key);
    StringLessTotal(a.title, a.title);
    StringLessTotal(a.key, a.key);
    if StringLess(c.title, b.title) && StringLess(b.title, a.title) {
      StringLessTransitive(c.title, b.title, a.title);
    }
    if StringLess(c.key, b.key) && StringLess(b.key, a.key) {
      StringLessTransitive(c.key, b.key, a.key);
    }
  }

  lemma InsertOrdered(gs: seq<Group>, p: nat, g: Group)
    requires Ordered(gs) && p <= |gs|
    requires forall k :: p <= k < |gs| ==> GroupLess(g, gs[k])
    requires p > 0 ==> !GroupLess(g, gs[p - 1])
    ensures Ordered(gs[..p] + [g] + gs[p..])
  {
    var out := gs[..p] + [g] + gs[p..];
    forall i, j | 0 <= i < j < |out|
      ensures !GroupLess(out[j], out[i])
    {
      var left, right := if i < p then i else i - 1, if j < p then j else j - 1;
      if i == p {
        assert out[j] == gs[right];
        GroupOrder(g, gs[right], g);
      } else if j == p {
        assert out[i] == gs[left];
        GroupOrder(g, gs[p - 1], gs[left]);
      } else {
        assert out[i] == gs[left] && out[j] == gs[right];
      }
    }
  }

  method InsertGroup(gs: seq<Group>, g: Group) returns (out: seq<Group>)
    requires Ordered(gs)
    ensures multiset(out) == multiset(gs) + multiset{g} && Ordered(out)
  {
    var p := |gs|;
    while p > 0 && GroupLess(g, gs[p - 1])
      invariant 0 <= p <= |gs|
      invariant forall k :: p <= k < |gs| ==> GroupLess(g, gs[k])
    {
      p := p - 1;
    }
    InsertOrdered(gs, p, g);
    assert gs == gs[..p] + gs[p..];
    out := gs[..p] + [g] + gs[p..];
  }

  /** The stable sort by title, then key. */
  method SortGroups(gs: seq<Group>) returns (out: seq<Group>)
    ensures multiset(out) == multiset(gs) && Ordered(out)
  {
    out := [];
    for i := 0 to |gs|
      invariant multiset(out) == multiset(gs[..i]) && Ordered(out)
    {
      assert gs[..i + 1] == gs[..i] + [gs[i]];
      out := InsertGroup(out, gs[i]);
    }
    assert gs[..|gs|] == gs;
  }

  lemma {:induction false} KeysDistinct(ms: seq<Member>, overlay: Overlay)
    ensures forall i, j :: 0 <= i < j < |Keys(ms, overlay)| ==> Keys(ms, overlay)[i] != Keys(ms, overlay)[j]
    ensures forall k :: k in Keys(ms, overlay) <==> BucketOf(ms, k, overlay).Some?
  {
    if ms != [] {
      KeysDistinct(ms[..|ms| - 1], overlay);
    }
  }

  /** A bucket holds exactly the dumps of its key, and the first of them fixes everything else:
      the arm that lets a clone list take over a bucket started by a title is never taken. */
  lemma {:induction false} BucketShape(ms: seq<Member>, key: string, overlay: Overlay)
    ensures BucketOf(ms, key, overlay).Some? <==> OfKey(ms, key, overlay) != []
    ensures OfKey(ms, key, overlay) != [] ==>
      var b, first := BucketOf(ms, key, overlay).value, Placed(OfKey(ms, key, overlay)[0], overlay);
      && b.key == key == first.key && b.members == OfKey(ms, key, overlay)
      && b.title == first.title && b.source == first.source && b.categories == first.categories
  {
    if ms != [] {
      var init, m := ms[..|ms| - 1], ms[|ms| - 1];
      BucketShape(init, key, overlay);
      if Placed(m, overlay).key == key && OfKey(init, key, overlay) != [] {
        KeyFixesSource(OfKey(init, key, overlay)[0], m, overlay);
      }
    }
  }

  /** The finished groups of a list of keys. */
  ghost function GroupsFor(ms: seq<Member>, keys: seq<string>, overlay: Overlay, p: Policy): seq<Group> {
    if keys == [] then []
    else
      var b := BucketOf(ms, keys[|keys| - 1], overlay);
      GroupsFor(ms, keys[..|keys| - 1], overlay, p) + if b.Some? then [Finished(b.value, p)] else []
  }

  /** The loop over the catalogue: fills the buckets and remembers the order of their keys. */
  ghost predicate Filled(buckets: map<string, Bucket>, ms: seq<Member>, overlay: Overlay) {
    && (forall k :: k in buckets <==> BucketOf(ms, k, overlay).Some?)
    && (forall k :: k in buckets ==> BucketOf(ms, k, overlay) == Some(buckets[k]))
  }

  lemma FilledStep(buckets: map<string, Bucket>, ms: seq<Member>, overlay: Overlay, m: Member)
    requires Filled(buckets, ms, overlay)
    ensures var place := Placed(m, overlay);
      && Filled(buckets[place.key := AddTo(BucketOf(ms, place.key, overlay), m, place)], ms + [m], overlay)
      && Keys(ms + [m], overlay) == Keys(ms, overlay) + (if place.key in buckets then [] else [place.key])
  {
    var place := Placed(m, overlay);
    KeysDistinct(ms, overlay);
    assert (ms + [m])[..|ms|] == ms;
    forall k
      ensures BucketOf(ms + [m], k, overlay)
              == if k == place.key then Some(AddTo(BucketOf(ms, k, overlay), m, place)) else BucketOf(ms, k, overlay)
    {
    }
  }

  method FillBuckets(members: seq<Member>, overlay: Overlay) returns (order: seq<string>, buckets: map<string, Bucket>)
    ensures order == Keys(members, overlay)
    ensures forall k :: k in buckets <==> BucketOf(members, k, overlay).Some?
    ensures forall k :: k in buckets ==> BucketOf(members, k, overlay) == Some(buckets[k])
  {
    order, buckets := [], map[];
    for i := 0 to |members|
      invariant order == Keys(members[..i], overlay) && Filled(buckets, members[..i], overlay)
    {
      var m := members[i];
      assert members[..i + 1] == members[..i] + [m];
      FilledStep(buckets, members[..i], overlay, m);
      var place := Placed(m, overlay);
      if place.key !in buckets {
        buckets := buckets[place.key := Bucket(place.key, place.title, place.source, place.categories, [], map[])];
        order := order + [place.key];
      }
      var b := buckets[place.key];
      if place.source == FromCloneList && b.source != FromCloneList {
        b := b.(source := place.source, title := place.title, categories := place.categories);
      }
      b := b.(members := b.members + [m]);
      b := b.(prio := b.prio[m.gameId := place.priority]);
      buckets := buckets[place.key := b];
    }
    assert members[..|members|] == members;
  }

  method Finish(b: Bucket, p: Policy) returns (g: Group)
    ensures g == Finished(b, p)
  {
    var cs := CandidatesLoop(b.members, b.categories, p);
    g := Group(b.key, b.title, b.source, b.categories, cs, -1, "");
    g := ChooseKeeper(g, b.prio, p);
    g := RequireEnglish(g, p);
  }

  lemma GroupsStep(ms: seq<Member>, keys: seq<string>, n: nat, overlay: Overlay, p: Policy)
    requires n < |keys| && BucketOf(ms, keys[n], overlay).Some?
    ensures GroupsFor(ms, keys[..n + 1], overlay, p)
            == GroupsFor(ms, keys[..n], overlay, p) + [Finished(BucketOf(ms, keys[n], overlay).value, p)]
  {
    assert keys[..n + 1] == keys[..n] + [keys[n]];
    GroupsPush(ms, keys[..n], keys[n], overlay, p);
  }

  method FinishAll(ghost members: seq<Member>, keys: seq<string>, buckets: map<string, Bucket>,
                   ghost overlay: Overlay, p: Policy)
    returns (out: seq<Group>)
    requires forall i :: 0 <= i < |keys| ==>
      keys[i] in buckets && BucketOf(members, keys[i], overlay) == Some(buckets[keys[i]])
    ensures out == GroupsFor(members, keys, overlay, p)
  {
    out := [];
    for n := 0 to |keys|
      invariant out == GroupsFor(members, keys[..n], overlay, p)
    {
      GroupsStep(members, keys, n, overlay, p);
      var g := Finish(buckets[keys[n]], p);
      out := out + [g];
    }
    assert keys[..|keys|] == keys;
  }

  method BuildSet(members: seq<Member>, overlay: Overlay, p: Policy) returns (out: seq<Group>)
    ensures multiset(out) == multiset(GroupsFor(members, Keys(members, overlay), overlay, p))
    ensures Ordered(out)
  {
    var order, buckets := FillBuckets(members, overlay);
    KeysDistinct(members, overlay);
    out := FinishAll(members, order, buckets, overlay, p);
    out := SortGroups(out);
  }

  method CandidatesLoop(ms: seq<Member>, categories: seq<string>, p: Policy) returns (cs: seq<Candidate>)
    ensures cs == Candidates(ms, categories, p)
  {
    cs := [];
    for i := 0 to |ms|
      invariant |cs| == i && forall k :: 0 <= k < i ==> cs[k] == Candidates(ms, categories, p)[k]
    {
      var c := Candidate(ms[i], false, "", false, None);
      var why := ExcludedBy(ms[i], categories, p);
      if why.Some? {
        c := c.(excluded := true, reason := why.value);
      }
      cs := cs + [c];
    }
  }

  // ---------- What a finished group is ----------

  predicate Admitted(m: Member, categories: seq<string>, p: Policy) { ExcludedBy(m, categories, p).None? }

  predicate AnyAdmitted(ms: seq<Member>, categories: seq<string>, p: Policy) {
    exists m :: m in ms && Admitted(m, categories, p)
  }

  /** The group gate: nothing English-capable is admitted although policy demands it. */
  predicate Barred(ms: seq<Member>, categories: seq<string>, p: Policy) {
    p.requireEnglish && !exists m :: m in ms && Admitted(m, categories, p) && EnglishRank(m) == 0
  }

  /** Each dump's verdict, in terms of the policy alone. */
  ghost predicate DumpVerdicts(b: Bucket, p: Policy, g: Group) {
    && g.key == b.key && |g.members| == |b.members|
    && forall i :: 0 <= i < |b.members| ==>
         && g.members[i].member == b.members[i] && g.members[i].owned.None?
         && (g.members[i].excluded <==> !Admitted(b.members[i], b.categories, p) || Barred(b.members, b.categories, p))
         && (g.members[i].keeper <==> i == g.keeperIndex)
  }

  /** `k` is none of the dumps when nothing is admitted, and otherwise an admitted dump no admitted one is less than. */
  ghost predicate IsChoice(b: Bucket, p: Policy, k: int) {
    && -1 <= k < |b.members| && (k >= 0 <==> AnyAdmitted(b.members, b.categories, p))
    && (k >= 0 ==>
          && Admitted(b.members[k], b.categories, p)
          && forall m :: m in b.members && Admitted(m, b.categories, p) ==> !Less(m, b.members[k], b.prio, p))
  }

  /** The group's keeper: there is one unless the policy leaves nothing, and none admitted is better. */
  ghost predicate KeeperVerdict(b: Bucket, p: Policy, g: Group) {
    if Barred(b.members, b.categories, p) then g.keeperIndex == -1 else IsChoice(b, p, g.keeperIndex)
  }

  function Fresh(b: Bucket, p: Policy): Group {
    Group(b.key, b.title, b.source, b.categories, Candidates(b.members, b.categories, p), -1, "")
  }

  lemma FreshExcluded(b: Bucket, p: Policy)
    ensures forall i :: 0 <= i < |b.members| ==>
      (Fresh(b, p).members[i].excluded <==> !Admitted(b.members[i], b.categories, p))
  {
  }

  /** Choosing moves no dump and excludes none; it flags the keeper and gives reasons. */
  lemma ChosenFlags(g: Group, prio: map<int, int>, p: Policy)
    requires g.keeperIndex == -1 && forall i :: 0 <= i < |g.members| ==> !g.members[i].keeper
    ensures var c := Chosen(g, prio, p);
      && c.key == g.key && |c.members| == |g.members| && c.keeperIndex == BestIndex(g.members, prio, p, |g.members|)
      && (forall i :: 0 <= i < |g.members| ==>
            && c.members[i].member == g.members[i].member && c.members[i].owned == g.members[i].owned
            && c.members[i].excluded == g.members[i].excluded && (c.members[i].keeper <==> i == c.keeperIndex))
  {
  }

  /** What is known of the group before the English gate. */
  ghost predicate ChosenOk(b: Bucket, p: Policy, c: Group) {
    && c.key == b.key && |c.members| == |b.members| && IsChoice(b, p, c.keeperIndex)
    && forall i :: 0 <= i < |b.members| ==>
         && c.members[i].member == b.members[i] && c.members[i].owned.None?
         && (c.members[i].excluded <==> !Admitted(b.members[i], b.categories, p))
         && (c.members[i].keeper <==> i == c.keeperIndex)
  }

  lemma BestIsChoice(b: Bucket, p: Policy, cs: seq<Candidate>)
    requires |cs| == |b.members| && forall i :: 0 <= i < |cs| ==>
      cs[i].member == b.members[i] && (cs[i].excluded <==> !Admitted(b.members[i], b.categories, p))
    ensures IsChoice(b, p, BestIndex(cs, b.prio, p, |cs|))
  {
    var k := BestIndex(cs, b.prio, p, |cs|);
    BestIsFirstMinimum(cs, b.prio, p, |cs|);
    forall m | m in b.members && Admitted(m, b.categories, p)
      ensures k >= 0 && !Less(m, b.members[k], b.prio, p)
    {
      var i :| 0 <= i < |b.members| && b.members[i] == m;
      assert !cs[i].excluded && cs[i].member == m;
    }
    if k >= 0 {
      assert b.members[k] in b.members && Admitted(b.members[k], b.categories, p);
    }
  }

  lemma ChosenKeeper(b: Bucket, p: Policy)
    ensures ChosenOk(b, p, Chosen(Fresh(b, p), b.prio, p))
  {
    FreshExcluded(b, p);
    ChosenFlags(Fresh(b, p), b.prio, p);
    BestIsChoice(b, p, Fresh(b, p).members);
  }

  lemma EnglishAmongChosen(b: Bucket, p: Policy, c: Group)
    requires ChosenOk(b, p, c)
    ensures p.requireEnglish ==> (HasEnglish(c.members) <==> !Barred(b.members, b.categories, p))
  {
    var cs := c.members;
    if i :| 0 <= i < |cs| && !cs[i].excluded && EnglishRank(cs[i].member) == 0 {
      assert b.members[i] in b.members;
    }
    if m :| m in b.members && Admitted(m, b.categories, p) && EnglishRank(m) == 0 {
      var i :| 0 <= i < |b.members| && b.members[i] == m;
      assert !cs[i].excluded;
    }
  }

  lemma GatedGroup(b: Bucket, p: Policy, c: Group)
    requires ChosenOk(b, p, c)
    ensures DumpVerdicts(b, p, Gated(c, p)) && KeeperVerdict(b, p, Gated(c, p))
  {
    EnglishAmongChosen(b, p, c);
  }

  lemma FinishedGroup(b: Bucket, p: Policy)
    ensures DumpVerdicts(b, p, Finished(b, p)) && KeeperVerdict(b, p, Finished(b, p))
  {
    ChosenKeeper(b, p);
    GatedGroup(b, p, Chosen(Fresh(b, p), b.prio, p));
  }

  /** In a group that keeps a dump, exactly the dumps policy does not admit are excluded. */
  lemma FinishedExclusions(b: Bucket, p: Policy)
    ensures var g := Finished(b, p);
      && g.categories == b.categories && |g.members| == |b.members| && -1 <= g.keeperIndex < |g.members|
      && (g.keeperIndex >= 0 ==>
            && forall i :: 0 <= i < |g.members| ==>
                 (g.members[i].excluded <==> ExcludedBy(g.members[i].member, g.categories, p).Some?))
  {
    FinishedGroup(b, p);
  }

  // ---------- The partition ----------

  lemma PushCounts<T>(s: seq<T>, m: T)
    requires s != []
    ensures multiset(s)[m] == multiset(s[..|s| - 1])[m] + if s[|s| - 1] == m then 1 else 0
  {
    assert s == s[..|s| - 1] + [s[|s| - 1]];
  }

  /** A dump goes to the group of its key, all its copies, and to no other. */
  lemma {:induction false} OfKeyCounts(ms: seq<Member>, key: string, overlay: Overlay, m: Member)
    ensures multiset(OfKey(ms, key, overlay))[m] == if Placed(m, overlay).key == key then multiset(ms)[m] else 0
  {
    if ms != [] {
      var init, last := ms[..|ms| - 1], ms[|ms| - 1];
      OfKeyCounts(init, key, overlay, m);
      PushCounts(ms, m);
      if Placed(last, overlay).key == key {
        var some := OfKey(ms, key, overlay);
        assert some[..|some| - 1] == OfKey(init, key, overlay) && some[|some| - 1] == last;
        PushCounts(some, m);
      } else {
        assert OfKey(ms, key, overlay) == OfKey(init, key, overlay);
      }
    }
  }

  lemma {:induction false} KeysCover(ms: seq<Member>, overlay: Overlay, key: string)
    ensures key in Keys(ms, overlay) <==> exists m :: m in ms && Placed(m, overlay).key == key
  {
    if ms != [] {
      var init, last := ms[..|ms| - 1], ms[|ms| - 1];
      KeysCover(init, overlay, key);
      assert ms == init + [last];
      assert forall m :: m in ms <==> m in init || m == last;
    }
  }

  ghost predicate IsPartition(gs: seq<Group>, ms: seq<Member>, keys: seq<string>, overlay: Overlay, p: Policy) {
    |gs| == |keys| && forall i :: 0 <= i < |keys| ==> IsGroupOf(gs[i], ms, keys[i], overlay, p)
  }

  lemma PartitionPush(gs: seq<Group>, g: Group, ms: seq<Member>, keys: seq<string>, key: string, overlay: Overlay,
                      p: Policy)
    requires IsPartition(gs, ms, keys, overlay, p) && IsGroupOf(g, ms, key, overlay, p)
    ensures IsPartition(gs + [g], ms, keys + [key], overlay, p)
  {
  }

  lemma GroupsPush(ms: seq<Member>, keys: seq<string>, key: string, overlay: Overlay, p: Policy)
    requires BucketOf(ms, key, overlay).Some?
    ensures GroupsFor(ms, keys + [key], overlay, p)
            == GroupsFor(ms, keys, overlay, p) + [Finished(BucketOf(ms, key, overlay).value, p)]
  {
    assert (keys + [key])[..|keys|] == keys;
  }

  /** `Build` returns one group per key, and each group holds exactly the dumps of its key. */
  lemma {:induction false} GroupsPartition(ms: seq<Member>, keys: seq<string>, overlay: Overlay, p: Policy)
    requires forall i :: 0 <= i < |keys| ==> keys[i] in Keys(ms, overlay)
    ensures IsPartition(GroupsFor(ms, keys, overlay, p), ms, keys, overlay, p)
  {
    if keys != [] {
      var init, key := keys[..|keys| - 1], keys[|keys| - 1];
      assert keys == init + [key];
      GroupsPartition(ms, init, overlay, p);
      LastGroup(ms, key, overlay, p);
      GroupsPush(ms, init, key, overlay, p);
      PartitionPush(GroupsFor(ms, init, overlay, p), Finished(BucketOf(ms, key, overlay).value, p), ms, init, key,
          overlay, p);
    }
  }

  lemma LastGroup(ms: seq<Member>, key: string, overlay: Overlay, p: Policy)
    requires key in Keys(ms, overlay)
    ensures BucketOf(ms, key, overlay).Some? && IsGroupOf(Finished(BucketOf(ms, key, overlay).value, p), ms, key,
        overlay, p)
  {
    KeysDistinct(ms, overlay);
    BucketShape(ms, key, overlay);
  }

  /** `g` is the finished group of `key`, and its dumps are exactly those of the key. */
  ghost predicate IsGroupOf(g: Group, ms: seq<Member>, key: string, overlay: Overlay, p: Policy) {
    var b := BucketOf(ms, key, overlay);
    b.Some? && b.value.key == key && b.value.members == OfKey(ms, key, overlay) && g == Finished(b.value, p)
  }

  // ---------- The keeper does not depend on catalogue order ----------

  ghost predicate UniqueIds(ms: seq<Member>) {
    forall i, j :: 0 <= i < j < |ms| ==> ms[i].gameId != ms[j].gameId
  }

  /** Dumps of one group come with one category list. */
  ghost predicate OneCategoryList(ms: seq<Member>, overlay: Overlay) {
    forall a, b :: a in ms && b in ms && Placed(a, overlay).key == Placed(b, overlay).key ==>
      Placed(a, overlay).categories == Placed(b, overlay).categories
  }

  lemma {:induction false} PriorityKept(ms: seq<Member>, key: string, overlay: Overlay, m: Member)
    requires UniqueIds(ms) && m in OfKey(ms, key, overlay)
    ensures m in ms && BucketOf(ms, key, overlay).Some?
    ensures PriorityOf(BucketOf(ms, key, overlay).value.prio, m.gameId) == Placed(m, overlay).priority
  {
    var init, last := ms[..|ms| - 1], ms[|ms| - 1];
    if m in OfKey(init, key, overlay) {
      PriorityKept(init, key, overlay, m);
      OtherId(ms, m);
    } else {
      assert m == last && Placed(last, overlay).key == key;
    }
  }

  lemma OtherId(ms: seq<Member>, m: Member)
    requires UniqueIds(ms) && ms != [] && m in ms[..|ms| - 1]
    ensures m in ms && m.gameId != ms[|ms| - 1].gameId
  {
    var i :| 0 <= i < |ms| - 1 && ms[..|ms| - 1][i] == m;
    assert ms[i] == m;
  }

  function KeeperName(g: Group): Option<string>
    requires -1 <= g.keeperIndex < |g.members|
  {
    if g.keeperIndex < 0 then None else Some(g.members[g.keeperIndex].member.name)
  }

  lemma SameElements(a: seq<Member>, b: seq<Member>)
    requires multiset(a) == multiset(b)
    ensures forall m :: m in a <==> m in b
  {
    forall m
      ensures m in a <==> m in b
    {
      assert m in a <==> m in multiset(a);
      assert m in b <==> m in multiset(b);
    }
  }

  lemma GroupMembersOrderFree(ms: seq<Member>, ms': seq<Member>, overlay: Overlay, key: string)
    requires multiset(ms) == multiset(ms')
    ensures multiset(OfKey(ms, key, overlay)) == multiset(OfKey(ms', key, overlay))
    ensures key in Keys(ms, overlay) <==> key in Keys(ms', overlay)
  {
    forall m
      ensures multiset(OfKey(ms, key, overlay))[m] == multiset(OfKey(ms', key, overlay))[m]
    {
      OfKeyCounts(ms, key, overlay, m);
      OfKeyCounts(ms', key, overlay, m);
    }
    SameElements(ms, ms');
    KeysCover(ms, overlay, key);
    KeysCover(ms', overlay, key);
  }

  lemma SameVerdicts(a: Bucket, b: Bucket, p: Policy)
    requires multiset(a.members) == multiset(b.members) && a.categories == b.categories
    ensures AnyAdmitted(a.members, a.categories, p) <==> AnyAdmitted(b.members, b.categories, p)
    ensures Barred(a.members, a.categories, p) <==> Barred(b.members, b.categories, p)
  {
    SameElements(a.members, b.members);
  }

  lemma RankByPriority(a: Member, b: Member, prio: map<int, int>, prio': map<int, int>, p: Policy)
    requires PriorityOf(prio, a.gameId) == PriorityOf(prio', a.gameId)
    requires PriorityOf(prio, b.gameId) == PriorityOf(prio', b.gameId)
    ensures Less(a, b, prio, p) <==> Less(a, b, prio', p)
  {
  }

  /** Permuting the catalogue changes no group's keeper. */
  lemma KeeperOrderFree(ms: seq<Member>, ms': seq<Member>, overlay: Overlay, p: Policy, key: string)
    requires multiset(ms) == multiset(ms') && UniqueIds(ms) && UniqueIds(ms') && OneCategoryList(ms, overlay)
    requires BucketOf(ms, key, overlay).Some? && BucketOf(ms', key, overlay).Some?
    ensures var g, g' := Finished(BucketOf(ms, key, overlay).value, p), Finished(BucketOf(ms', key, overlay).value, p);
      && -1 <= g.keeperIndex < |g.members| && -1 <= g'.keeperIndex < |g'.members|
      && KeeperName(g) == KeeperName(g')
  {
    var b, b' := BucketOf(ms, key, overlay).value, BucketOf(ms', key, overlay).value;
    BucketShape(ms, key, overlay);
    BucketShape(ms', key, overlay);
    GroupMembersOrderFree(ms, ms', overlay, key);
    forall m | m in b.members
      ensures m in ms && PriorityOf(b.prio, m.gameId) == Placed(m, overlay).priority
    {
      PriorityKept(ms, key, overlay, m);
    }
    forall m | m in b'.members
      ensures m in ms' && PriorityOf(b'.prio, m.gameId) == Placed(m, overlay).priority
    {
      PriorityKept(ms', key, overlay, m);
    }
    SameElements(ms, ms');
    SameElements(b.members, b'.members);
    assert b.members[0] in ms && b'.members[0] in ms by {
      assert b.members[0] in b.members && b'.members[0] in b'.members;
    }
    SameVerdicts(b, b', p);
    FinishedGroup(b, p);
    FinishedGroup(b', p);
    var g, g' := Finished(b, p), Finished(b', p);
    if g.keeperIndex >= 0 {
      var k, k' := b.members[g.keeperIndex], b'.members[g'.keeperIndex];
      assert k in b.members && k' in b'.members;
      RankByPriority(k, k', b.prio, b'.prio, p);
      RankByPriority(k', k, b.prio, b'.prio, p);
      LessIsStrictWeakOrder(k, k', k, b.prio, p);
    }
  }

  // ---------- Policy ----------

  /** `q` differs from `p` only in what orders dumps, never in what admits them. */
  ghost predicate SameGates(p: Policy, q: Policy) {
    q == p.(regionPriority := q.regionPriority, noEnglishPreference := q.noEnglishPreference,
            reReleaseTags := q.reReleaseTags)
  }

  lemma GatesAdmit(m: Member, categories: seq<string>, p: Policy, q: Policy)
    requires SameGates(p, q)
    ensures Admitted(m, categories, p) <==> Admitted(m, categories, q)
  {
  }

  /** Both groups hold the same dumps in the same places. */
  ghost predicate SameDumps(g: Group, h: Group) {
    |g.members| == |h.members| && forall i :: 0 <= i < |g.members| ==> g.members[i].member == h.members[i].member
  }

  /** What `g` excludes, `h` excludes; if `h` keeps a dump, so does `g`. */
  ghost predicate NoStricter(g: Group, h: Group)
    requires |g.members| == |h.members|
  {
    && (forall i :: 0 <= i < |g.members| && g.members[i].excluded ==> h.members[i].excluded)
    && (h.keeperIndex >= 0 ==> g.keeperIndex >= 0)
  }

  lemma AdmittingMore(b: Bucket, p: Policy, q: Policy, g: Group, h: Group)
    requires DumpVerdicts(b, p, g) && KeeperVerdict(b, p, g) && DumpVerdicts(b, q, h) && KeeperVerdict(b, q, h)
    requires q.requireEnglish ==> p.requireEnglish
    requires forall m :: Admitted(m, b.categories, p) ==> Admitted(m, b.categories, q)
    ensures SameDumps(g, h) && NoStricter(h, g)
  {
    assert Barred(b.members, b.categories, q) ==> Barred(b.members, b.categories, p);
    assert AnyAdmitted(b.members, b.categories, p) ==> AnyAdmitted(b.members, b.categories, q);
  }

  /** Preferences order and never exclude: the same dumps stay in and the same groups keep one. */
  lemma PreferencesNeverExclude(b: Bucket, p: Policy, q: Policy)
    requires SameGates(p, q)
    ensures var g, h := Finished(b, p), Finished(b, q);
            SameDumps(g, h) && NoStricter(g, h) && NoStricter(h, g)
  {
    FinishedGroup(b, p);
    FinishedGroup(b, q);
    forall m: Member
      ensures Admitted(m, b.categories, p) <==> Admitted(m, b.categories, q)
    {
      GatesAdmit(m, b.categories, p, q);
    }
    AdmittingMore(b, p, q, Finished(b, p), Finished(b, q));
    AdmittingMore(b, q, p, Finished(b, q), Finished(b, p));
  }

  /** Every gate of `q` is at least as loose as the same gate of `p`. */
  ghost predicate Looser(p: Policy, q: Policy) {
    && (p.allowProto ==> q.allowProto) && (p.allowDemo ==> q.allowDemo) && (p.allowBios ==> q.allowBios)
    && (p.allowUnlicensed ==> q.allowUnlicensed) && (p.allowAftermarket ==> q.allowAftermarket)
    && (p.allowPirate ==> q.allowPirate) && (q.verifiedOnly ==> p.verifiedOnly)
    && (q.requireEnglish ==> p.requireEnglish)
    && forall w :: w in q.excludeCategories ==> exists v :: v in p.excludeCategories && Lower(Trim(v)) == Lower(Trim(w))
  }

  lemma LooserCategories(p: Policy, q: Policy, categories: seq<string>)
    requires Looser(p, q) && FirstCategory(p.excludeCategories, categories).None?
    ensures FirstCategory(q.excludeCategories, categories).None?
  {
    CategoryFound(p.excludeCategories, categories);
    CategoryFound(q.excludeCategories, categories);
    if w, h :| w in q.excludeCategories && h in categories && SameFold(w, h) {
      var v :| v in p.excludeCategories && Lower(Trim(v)) == Lower(Trim(w));
      assert SameFold(v, h);
    }
  }

  lemma LooserAdmits(m: Member, categories: seq<string>, p: Policy, q: Policy)
    requires Looser(p, q) && Admitted(m, categories, p)
    ensures Admitted(m, categories, q)
  {
    LooserCategories(p, q, categories);
  }

  /** Loosening any gate excludes no further dump and takes no group's keeper away. */
  lemma LooserNeverExcludes(b: Bucket, p: Policy, q: Policy)
    requires Looser(p, q)
    ensures SameDumps(Finished(b, p), Finished(b, q)) && NoStricter(Finished(b, q), Finished(b, p))
  {
    FinishedGroup(b, p);
    FinishedGroup(b, q);
    forall m: Member | Admitted(m, b.categories, p)
      ensures Admitted(m, b.categories, q)
    {
      LooserAdmits(m, b.categories, p, q);
    }
    AdmittingMore(b, p, q, Finished(b, p), Finished(b, q));
  }
}
