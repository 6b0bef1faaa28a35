/** internal/collectionsvc/targets.go: from the entries of a set to the stored gap list. The one
    place where `Build`, `Reconcile` and the queue meet. */
module Cycle {
  import opened Text
  import opened Collection
  import Build
  import DatStore
  import Reconcile
  import Targets

  function HashOf(h: string): seq<string> { if Lower(Trim(h)) == "" then [] else [Lower(Trim(h))] }

  function RomHashes(roms: seq<Rom>): seq<string> {
    if roms == [] then []
    else RomHashes(roms[..|roms| - 1]) + HashOf(roms[|roms| - 1].md5) + HashOf(roms[|roms| - 1].sha1)
  }

  lemma RomHashesPush(roms: seq<Rom>, i: nat)
    requires i < |roms|
    ensures RomHashes(roms[..i + 1]) == RomHashes(roms[..i]) + HashOf(roms[i].md5) + HashOf(roms[i].sha1)
  {
    assert roms[..i + 1][..i] == roms[..i];
  }

  method KeeperHashes(keeper: Candidate) returns (out: seq<string>)
    ensures out == RomHashes(keeper.member.roms)
  {
    out := [];
    var roms := keeper.member.roms;
    for i := 0 to |roms|
      invariant out == RomHashes(roms[..i])
    {
      RomHashesPush(roms, i);
      out := AddHash(out, roms[i].md5);
      out := AddHash(out, roms[i].sha1);
    }
    assert roms[..|roms|] == roms;
  }

  method AddHash(hashes: seq<string>, h: string) returns (out: seq<string>)
    ensures out == hashes + HashOf(h)
  {
    out := hashes;
    var hash := Lower(Trim(h));
    if hash != "" {
      out := out + [hash];
    }
  }

  predicate NamesHash(r: Rom, h: string) { h == Lower(Trim(r.md5)) || h == Lower(Trim(r.sha1)) }

  ghost predicate AnyNames(roms: seq<Rom>, h: string) { exists r :: r in roms && NamesHash(r, h) }

  lemma AnyNamesPush(init: seq<Rom>, r: Rom, h: string)
    ensures AnyNames(init + [r], h) <==> AnyNames(init, h) || NamesHash(r, h)
  {
    assert forall x :: x in init + [r] <==> x in init || x == r;
  }

  lemma HashesPush(init: seq<Rom>, r: Rom, h: string)
    ensures h in RomHashes(init + [r]) <==> h in RomHashes(init) || (h != "" && NamesHash(r, h))
  {
    assert (init + [r])[..|init|] == init;
    var a, b, c := RomHashes(init), HashOf(r.md5), HashOf(r.sha1);
    assert h in a + b + c <==> h in a || h in b || h in c;
  }

  /** Every hash stored with a gap is a hash of the keeper, trimmed, lowered and never blank. */
  lemma {:induction false} HashesAreTheKeepers(roms: seq<Rom>, h: string)
    ensures h in RomHashes(roms) <==> h != "" && AnyNames(roms, h)
  {
    if roms != [] {
      var init, last := roms[..|roms| - 1], roms[|roms| - 1];
      assert roms == init + [last];
      HashesAreTheKeepers(init, h);
      HashesPush(init, last, h);
      AnyNamesPush(init, last, h);
    }
  }

  function GapOf(g: Group): Targets.Gap
    requires Reconcile.HasKeeper(g)
  {
    var keeper := g.members[g.keeperIndex];
    Targets.Gap(g.key, g.title, keeper.member.name, RomHashes(keeper.member.roms))
  }

  ghost predicate IsGap(g: Group) { Reconcile.StatusOf(g).Gap? }

  /** The gaps of the first n groups. */
  ghost function GapsOf(gs: seq<Group>, n: nat): seq<Targets.Gap>
    requires n <= |gs|
  {
    if n == 0 then [] else GapsOf(gs, n - 1) + if IsGap(gs[n - 1]) then [GapOf(gs[n - 1])] else []
  }

  method CollectGaps(es: seq<Reconcile.Entry>, ghost gs: seq<Group>) returns (gaps: seq<Targets.Gap>)
    requires es == Reconcile.Entries(gs)
    ensures gaps == GapsOf(gs, |gs|)
  {
    gaps := [];
    for i := 0 to |es|
      invariant gaps == GapsOf(gs, i)
    {
      assert es[i] == Reconcile.EntryOf(gs[i]);
      if !es[i].status.Gap? {
        continue;
      }
      var g := es[i].group;
      if !(0 <= g.keeperIndex < |g.members|) {
        continue;
      }
      var hashes := KeeperHashes(g.members[g.keeperIndex]);
      gaps := gaps + [Targets.Gap(g.key, g.title, g.members[g.keeperIndex].member.name, hashes)];
    }
  }

  ghost predicate DistinctKeys(gs: seq<Group>) { forall i, j :: 0 <= i < j < |gs| ==> gs[i].key != gs[j].key }

  /** The keys of the groups among the first n whose kept dump is missing and whose others are too. */
  ghost function GapKeys(gs: seq<Group>, n: nat): set<string>
    requires n <= |gs|
  {
    set i | 0 <= i < n && IsGap(gs[i]) :: gs[i].key
  }

  lemma GapKeysPush(gs: seq<Group>, n: nat)
    requires n < |gs|
    ensures GapKeys(gs, n + 1) == GapKeys(gs, n) + if IsGap(gs[n]) then {gs[n].key} else {}
  {
  }

  lemma WantPush(gaps: seq<Targets.Gap>, g: Targets.Gap)
    ensures Targets.WantOf(gaps + [g]) == Targets.WantOf(gaps) + {g.setKey}
  {
    Targets.WantPush(gaps + [g]);
    assert (gaps + [g])[..|gaps|] == gaps;
  }

  lemma {:induction false} WantedAreGaps(gs: seq<Group>, n: nat)
    requires n <= |gs|
    ensures Targets.WantOf(GapsOf(gs, n)) == GapKeys(gs, n)
  {
    if n == 0 {
      assert Targets.WantOf([]) == {} && GapKeys(gs, 0) == {};
    } else {
      WantedAreGaps(gs, n - 1);
      GapKeysPush(gs, n - 1);
      var before, g := GapsOf(gs, n - 1), gs[n - 1];
      if IsGap(g) {
        WantPush(before, GapOf(g));
      } else {
        assert GapsOf(gs, n) == before;
      }
    }
  }

  lemma TallyGap(c: Reconcile.Counts, g: Group)
    ensures Reconcile.Tally(c, Reconcile.EntryOf(g)).gaps == c.gaps + if IsGap(g) then 1 else 0
  {
  }

  lemma OneMore(keys: set<string>, key: string)
    requires key !in keys
    ensures |keys + {key}| == |keys| + 1
  {
  }

  lemma GapKeysSize(gs: seq<Group>, m: nat)
    requires m < |gs| && DistinctKeys(gs)
    ensures |GapKeys(gs, m + 1)| == |GapKeys(gs, m)| + if IsGap(gs[m]) then 1 else 0
  {
    GapKeysPush(gs, m);
    if IsGap(gs[m]) {
      assert gs[m].key !in GapKeys(gs, m);
      OneMore(GapKeys(gs, m), gs[m].key);
    } else {
      assert GapKeys(gs, m + 1) == GapKeys(gs, m);
    }
  }

  /** With one group per key, as many keys as the summary counts gaps. */
  lemma {:induction false} GapsAreCounted(gs: seq<Group>, n: nat)
    requires n <= |gs| && DistinctKeys(gs)
    ensures |GapKeys(gs, n)| == Reconcile.CountOf(Reconcile.Entries(gs), n).gaps
  {
    if n == 0 {
      assert GapKeys(gs, 0) == {};
    } else {
      var m := n - 1;
      GapsAreCounted(gs, m);
      GapKeysSize(gs, m);
      OneMoreCount(gs, m);
    }
  }

  lemma OneMoreCount(gs: seq<Group>, m: nat)
    requires m < |gs|
    ensures Reconcile.CountOf(Reconcile.Entries(gs), m + 1).gaps ==
            Reconcile.CountOf(Reconcile.Entries(gs), m).gaps + if IsGap(gs[m]) then 1 else 0
  {
    assert Reconcile.Entries(gs)[m] == Reconcile.EntryOf(gs[m]);
    TallyGap(Reconcile.CountOf(Reconcile.Entries(gs), m), gs[m]);
  }

  lemma {:induction false} GapsDistinct(gs: seq<Group>, n: nat)
    requires n <= |gs| && DistinctKeys(gs)
    ensures Targets.DistinctGaps(GapsOf(gs, n))
    ensures forall i :: 0 <= i < |GapsOf(gs, n)| ==> GapsOf(gs, n)[i].setKey in GapKeys(gs, n)
  {
    if n > 0 {
      GapsDistinct(gs, n - 1);
      GapKeysPush(gs, n - 1);
      assert gs[n - 1].key !in GapKeys(gs, n - 1);
    }
  }

  /** After a platform's sync its stored keys are exactly its gaps' keys, as many as the summary
      counts, and a second sync of the same set at the same time changes nothing. */
  lemma QueueIsTheGapList(gs: seq<Group>, t: Targets.Table, nextId: nat, slug: string, now: int)
    requires DistinctKeys(gs) && Targets.IdsOk(t, nextId)
    ensures var gaps := GapsOf(gs, |gs|);
            var s := Targets.SyncTable(t, nextId, slug, gaps, now);
      && Targets.KeysOf(s.table, slug) == GapKeys(gs, |gs|)
      && |Targets.KeysOf(s.table, slug)| == Reconcile.CountOf(Reconcile.Entries(gs), |gs|).gaps
      && Targets.SyncTable(s.table, s.nextId, slug, gaps, now) == Targets.Sync(s.table, s.nextId, 0)
  {
    var gaps := GapsOf(gs, |gs|);
    Targets.SyncIsExact(t, nextId, slug, gaps, now);
    WantedAreGaps(gs, |gs|);
    GapsAreCounted(gs, |gs|);
    GapsDistinct(gs, |gs|);
    Targets.SyncIdempotent(t, nextId, slug, gaps, now);
  }

  /** What `Build.BuildSet` promises of its result. */
  ghost predicate BuiltFrom(built: seq<Group>, ms: seq<Member>, overlay: Overlay, p: Policy) {
    multiset(built) == multiset(Build.GroupsFor(ms, Build.Keys(ms, overlay), overlay, p))
  }

  // ---------- What holds of a whole built set ----------

  lemma BuiltGroup(built: seq<Group>, ms: seq<Member>, overlay: Overlay, p: Policy, g: Group) returns (key: string)
    requires BuiltFrom(built, ms, overlay, p) && g in built
    ensures key in Build.Keys(ms, overlay) && Build.IsGroupOf(g, ms, key, overlay, p)
  {
    var keys := Build.Keys(ms, overlay);
    var gs := Build.GroupsFor(ms, keys, overlay, p);
    Build.GroupsPartition(ms, keys, overlay, p);
    assert g in multiset(gs);
    var i :| 0 <= i < |gs| && gs[i] == g;
    key := keys[i];
  }

  lemma GroupOfKey(built: seq<Group>, ms: seq<Member>, overlay: Overlay, p: Policy, key: string) returns (g: Group)
    requires BuiltFrom(built, ms, overlay, p) && key in Build.Keys(ms, overlay)
    ensures g in built && Build.IsGroupOf(g, ms, key, overlay, p)
  {
    var keys := Build.Keys(ms, overlay);
    var gs := Build.GroupsFor(ms, keys, overlay, p);
    Build.GroupsPartition(ms, keys, overlay, p);
    var i :| 0 <= i < |keys| && keys[i] == key;
    g := gs[i];
    assert g in multiset(built);
  }

  lemma BuiltSetIsReady(built: seq<Group>, ms: seq<Member>, overlay: Overlay, p: Policy)
    requires BuiltFrom(built, ms, overlay, p)
    ensures Reconcile.Unowned(built) && forall g :: g in built ==> Reconcile.FlagsOk(g)
  {
    forall g | g in built
      ensures Reconcile.FlagsOk(g) && Reconcile.Unowned([g])
    {
      var key := BuiltGroup(built, ms, overlay, p, g);
      Reconcile.BuiltIsReady(Build.BucketOf(ms, key, overlay).value, p);
    }
    forall q | Reconcile.IsPos(built, q)
      ensures Reconcile.OwnedAt(built, q).None?
    {
      var g := built[q.gi];
      assert g in built && [g][0] == g;
      assert Reconcile.OwnedAt([g], Reconcile.Pos(q.tier, 0, q.mi)).None?;
    }
  }

  /** Whatever a built set is matched against: every group is counted once, and every claimed file is a kept
      or a surplus dump's. */
  lemma SetConserves(built: seq<Group>, ms: seq<Member>, overlay: Overlay, p: Policy, look: Reconcile.Lookup)
    requires BuiltFrom(built, ms, overlay, p)
    ensures var es := Reconcile.Entries(Reconcile.Matched(built, look));
            var c := Reconcile.CountOf(es, |es|);
      && |es| == |Build.Keys(ms, overlay)|
      && c.owned + c.covered + c.gaps == c.groups && c.groups + c.out == |es| && c.outOnDisk <= c.out
      && |Reconcile.ClaimedIds(es, |es|)| == c.owned + c.surplus
  {
    BuiltSetIsReady(built, ms, overlay, p);
    Reconcile.Conservation(built, look);
    var keys := Build.Keys(ms, overlay);
    Build.GroupsPartition(ms, keys, overlay, p);
    DatStore.SameBag(built, Build.GroupsFor(ms, keys, overlay, p));
  }

  /** h is the built group g with nothing but ownership added, and what policy says of its dumps is unchanged. */
  ghost predicate OnlyOwned(g: Group, h: Group, p: Policy) {
    && h == g.(members := h.members) && |h.members| == |g.members|
    && forall i :: 0 <= i < |h.members| ==>
         && h.members[i].member == g.members[i].member
         && (h.keeperIndex >= 0 ==>
               (h.members[i].excluded <==> ExcludedBy(h.members[i].member, h.categories, p).Some?))
  }

  lemma MatchedGroup(b: Build.Bucket, p: Policy, g: Group, h: Group)
    requires g == Build.Finished(b, p) && Reconcile.SameShape([g], [h])
    ensures OnlyOwned(g, h, p) && Reconcile.EntryMeans(Reconcile.EntryOf(h))
  {
    assert [g][0] == g && [h][0] == h;
    Build.FinishedExclusions(b, p);
    Reconcile.BuiltIsReady(b, p);
    Reconcile.EntryOfMeans(h);
  }

  /** The entries of a built and matched set say what they should, and in a group that keeps a dump the
      excluded ones are those policy does not admit. */
  lemma StatusesMean(built: seq<Group>, ms: seq<Member>, overlay: Overlay, p: Policy, look: Reconcile.Lookup, gi: nat)
    requires BuiltFrom(built, ms, overlay, p) && gi < |built|
    ensures var es := Reconcile.Entries(Reconcile.Matched(built, look));
            |es| == |built| && Reconcile.EntryMeans(es[gi]) && OnlyOwned(built[gi], es[gi].group, p)
  {
    var hs := Reconcile.Matched(built, look);
    assert Reconcile.SameShape(built, hs);
    var g, h := built[gi], hs[gi];
    assert g in built && Reconcile.SameShape([g], [h]);
    var key := BuiltGroup(built, ms, overlay, p, g);
    MatchedGroup(Build.BucketOf(ms, key, overlay).value, p, g, h);
  }

  /** The keeper of a built group is a dump policy admits, so never a bad one; a group without a keeper has
      none it admits, or none in English where that is required. */
  lemma KeeperIsAdmitted(built: seq<Group>, ms: seq<Member>, overlay: Overlay, p: Policy, g: Group)
    requires BuiltFrom(built, ms, overlay, p) && g in built
    ensures -1 <= g.keeperIndex < |g.members|
    ensures g.keeperIndex >= 0 ==>
              ExcludedBy(g.members[g.keeperIndex].member, g.categories, p).None?
              && !IsOf(g.members[g.keeperIndex].member, Bad)
    ensures g.keeperIndex < 0 ==>
              forall i :: 0 <= i < |g.members| && ExcludedBy(g.members[i].member, g.categories, p).None? ==>
                p.requireEnglish && EnglishRank(g.members[i].member) == 1
  {
    var key := BuiltGroup(built, ms, overlay, p, g);
    var b := Build.BucketOf(ms, key, overlay).value;
    Build.FinishedGroup(b, p);
    Build.FinishedExclusions(b, p);
    if g.keeperIndex >= 0 {
      AdmittedIff(g.members[g.keeperIndex].member, g.categories, p);
    } else {
      forall i | 0 <= i < |g.members| && ExcludedBy(g.members[i].member, g.categories, p).None?
        ensures p.requireEnglish && EnglishRank(g.members[i].member) == 1
      {
        assert b.members[i] in b.members && Build.Admitted(b.members[i], b.categories, p);
        EnglishIff(g.members[i].member);
      }
    }
  }

  /** Two groups of one key with the same dumps and the same keeper. */
  ghost predicate SameChoice(g: Group, g': Group) {
    && g.key == g'.key && -1 <= g.keeperIndex < |g.members| && -1 <= g'.keeperIndex < |g'.members|
    && multiset(DumpsOf(g)) == multiset(DumpsOf(g')) && Build.KeeperName(g) == Build.KeeperName(g')
  }

  function DumpsOf(g: Group): seq<Member> { seq(|g.members|, i requires 0 <= i < |g.members| => g.members[i].member) }

  lemma DumpsOfGroup(g: Group, ms: seq<Member>, key: string, overlay: Overlay, p: Policy)
    requires Build.IsGroupOf(g, ms, key, overlay, p)
    ensures DumpsOf(g) == Build.OfKey(ms, key, overlay)
  {
    Build.FinishedGroup(Build.BucketOf(ms, key, overlay).value, p);
  }

  /** However the catalogue is ordered, the built set has the same groups with the same keepers. */
  lemma SetOrderFree(ms: seq<Member>, ms': seq<Member>, overlay: Overlay, p: Policy, built: seq<Group>,
                     built': seq<Group>)
    requires multiset(ms) == multiset(ms') && Build.UniqueIds(ms) && Build.UniqueIds(ms') &&
        Build.OneCategoryList(ms, overlay)
    requires BuiltFrom(built, ms, overlay, p) && BuiltFrom(built', ms', overlay, p)
    ensures forall g :: g in built ==> exists g' :: g' in built' && SameChoice(g, g')
  {
    forall g | g in built
      ensures exists g' :: g' in built' && SameChoice(g, g')
    {
      var key := BuiltGroup(built, ms, overlay, p, g);
      Build.GroupMembersOrderFree(ms, ms', overlay, key);
      var g' := GroupOfKey(built', ms', overlay, p, key);
      FinishedKey(ms, key, overlay, p, g);
      FinishedKey(ms', key, overlay, p, g');
      DumpsOfGroup(g, ms, key, overlay, p);
      DumpsOfGroup(g', ms', key, overlay, p);
      Build.KeeperOrderFree(ms, ms', overlay, p, key);
      assert SameChoice(g, g');
    }
  }

  // ---------- A built and matched set has one group per key ----------

  lemma {:induction false} PermutedKeys(a: seq<Group>, b: seq<Group>)
    requires multiset(a) == multiset(b) && DistinctKeys(a)
    ensures DistinctKeys(b)
    decreases |a|
  {
    DatStore.SameBag(a, b);
    if a != [] {
      var n := |a| - 1;
      var i := DatStore.FindLast(a, b);
      var rest := b[..i] + b[i + 1..];
      PermutedKeys(a[..n], rest);
      forall x | x in rest
        ensures x.key != b[i].key
      {
        assert x in multiset(rest);
        assert x in a[..n];
      }
      InsertedKey(b, i);
    }
  }

  lemma InsertedKey(b: seq<Group>, i: nat)
    requires i < |b| && DistinctKeys(b[..i] + b[i + 1..])
    requires forall x :: x in b[..i] + b[i + 1..] ==> x.key != b[i].key
    ensures DistinctKeys(b)
  {
    var rest := b[..i] + b[i + 1..];
    forall j, k | 0 <= j < k < |b|
      ensures b[j].key != b[k].key
    {
      if j != i {
        assert rest[if j < i then j else j - 1] == b[j];
      }
      if k != i {
        assert rest[if k < i then k else k - 1] == b[k];
      }
    }
  }

  lemma FinishedKey(ms: seq<Member>, key: string, overlay: Overlay, p: Policy, g: Group)
    requires Build.IsGroupOf(g, ms, key, overlay, p)
    ensures g.key == key
  {
    Build.FinishedGroup(Build.BucketOf(ms, key, overlay).value, p);
  }

  lemma BuiltKeysDistinct(ms: seq<Member>, overlay: Overlay, p: Policy, built: seq<Group>)
    requires BuiltFrom(built, ms, overlay, p)
    ensures DistinctKeys(built)
  {
    var keys := Build.Keys(ms, overlay);
    var gs := Build.GroupsFor(ms, keys, overlay, p);
    Build.KeysDistinct(ms, overlay);
    Build.GroupsPartition(ms, keys, overlay, p);
    forall i | 0 <= i < |gs|
      ensures gs[i].key == keys[i]
    {
      FinishedKey(ms, keys[i], overlay, p, gs[i]);
    }
    PermutedKeys(gs, built);
  }

  /** From a catalogue to the queue: build, match, sync, and the stored keys are the gaps' keys,
      in the number the summary shows. */
  lemma SetToQueue(ms: seq<Member>, overlay: Overlay, p: Policy, built: seq<Group>, look: Reconcile.Lookup,
                   t: Targets.Table, nextId: nat, slug: string, now: int)
    requires BuiltFrom(built, ms, overlay, p) && Targets.IdsOk(t, nextId)
    ensures var gs := Reconcile.Matched(built, look);
            var s := Targets.SyncTable(t, nextId, slug, GapsOf(gs, |gs|), now);
      && Targets.KeysOf(s.table, slug) == GapKeys(gs, |gs|)
      && |Targets.KeysOf(s.table, slug)| == Reconcile.CountOf(Reconcile.Entries(gs), |gs|).gaps
  {
    var gs := Reconcile.Matched(built, look);
    BuiltKeysDistinct(ms, overlay, p, built);
    assert Reconcile.SameShape(built, gs);
    forall i | 0 <= i < |gs|
      ensures gs[i].key == built[i].key
    {
    }
    QueueIsTheGapList(gs, t, nextId, slug, now);
  }
}
