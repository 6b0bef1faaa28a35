/** internal/db/dat.go: the snapshot tables, `InsertDatSnapshot`, `pruneSnapshots` and
    `datGameSignatures`. A transaction is atomic: it commits whole or leaves the tables alone. */
module Snapshots {
  import opened Text
  import opened DatStore
  import opened StoredHashes
  import Collection

  const SNAPSHOT_RETENTION: nat := 2

  datatype SnapRow = SnapRow(slug: string, authority: string, games: nat, roms: nat, diff: Diff, active: bool)
  datatype GameRow = GameRow(snap: nat, slug: string, name: string, size: int, roms: nat)
  datatype RomRow = RomRow(game: nat, sha1: string)

  /** The three tables and their AUTOINCREMENT counters. */
  datatype Tables = Tables(snaps: map<nat, SnapRow>, games: map<nat, GameRow>, roms: map<nat, RomRow>,
                           nextSnap: nat, nextGame: nat, nextRom: nat)

  // ---------- What every reachable state keeps ----------

  ghost predicate Greatest(snaps: map<nat, SnapRow>, s: nat)
    requires s in snaps
  {
    forall t :: t in snaps && snaps[t].slug == snaps[s].slug ==> t <= s
  }

  /** Per platform, the active snapshot is the one with the greatest id, and no other. */
  ghost predicate ActiveIsGreatest(snaps: map<nat, SnapRow>) {
    forall s :: s in snaps ==> (snaps[s].active <==> Greatest(snaps, s))
  }

  ghost predicate AtMostTwo(snaps: map<nat, SnapRow>) {
    forall s, t, u :: s in snaps && t in snaps && u in snaps && snaps[s].slug == snaps[t].slug == snaps[u].slug ==>
      !(s < t < u)
  }

  ghost predicate Owned(t: Tables) {
    && (forall g :: g in t.games ==> t.games[g].snap in t.snaps && t.snaps[t.games[g].snap].slug == t.games[g].slug)
    && (forall r :: r in t.roms ==> t.roms[r].game in t.games)
  }

  ghost predicate Numbered(t: Tables) {
    && (forall s :: s in t.snaps ==> s < t.nextSnap)
    && (forall g :: g in t.games ==> g < t.nextGame)
    && (forall r :: r in t.roms ==> r < t.nextRom)
  }

  ghost predicate Good(t: Tables) { Numbered(t) && Owned(t) && ActiveIsGreatest(t.snaps) && AtMostTwo(t.snaps) }

  function SnapsOf(snaps: map<nat, SnapRow>, slug: string): set<nat> { set s | s in snaps && snaps[s].slug == slug }

  lemma {:induction false} GreatestOf(ids: set<nat>) returns (m: nat)
    requires ids != {}
    ensures m in ids && forall t :: t in ids ==> t <= m
    decreases |ids|
  {
    var x :| x in ids;
    m := x;
    if ids != {x} {
      var k := GreatestOf(ids - {x});
      assert forall t :: t in ids ==> t == x || t in ids - {x};
      m := if x < k then k else x;
    }
  }

  /** A platform with snapshots has exactly one active one, and it has the greatest id. */
  lemma OneActive(t: Tables, slug: string) returns (a: nat)
    requires Good(t) && SnapsOf(t.snaps, slug) != {}
    ensures a in SnapsOf(t.snaps, slug) && t.snaps[a].active && Greatest(t.snaps, a)
    ensures forall s :: s in SnapsOf(t.snaps, slug) && t.snaps[s].active ==> s == a
  {
    var ids := SnapsOf(t.snaps, slug);
    a := GreatestOf(ids);
    assert forall s :: s in t.snaps && t.snaps[s].slug == slug ==> s in ids;
    assert Greatest(t.snaps, a);
    forall s | s in ids && t.snaps[s].active
      ensures s == a
    {
      assert Greatest(t.snaps, s) && s in t.snaps && a in t.snaps;
    }
  }

  lemma NoThree(ids: set<nat>)
    requires forall s, t, u :: s in ids && t in ids && u in ids ==> !(s < t < u)
    ensures |ids| <= 2
  {
    if ids != {} {
      var a := GreatestOf(ids);
      var rest := ids - {a};
      if rest != {} {
        var b := GreatestOf(rest);
        forall s | s in rest
          ensures s == b
        {
          assert !(s < b < a);
        }
        assert rest == {b};
      }
      assert ids == rest + {a};
    }
  }

  lemma TwoKept(t: Tables, slug: string)
    requires Good(t)
    ensures |SnapsOf(t.snaps, slug)| <= SNAPSHOT_RETENTION
  {
    NoThree(SnapsOf(t.snaps, slug));
  }

  // ---------- The hashes of one game ----------

  function HashAt(roms: map<nat, RomRow>, g: nat, r: nat): seq<string> {
    if r in roms && roms[r].game == g then [roms[r].sha1] else []
  }

  /** The hashes of game g among the rom rows numbered below n. */
  function Hashes(roms: map<nat, RomRow>, g: nat, n: nat): seq<string> {
    if n == 0 then [] else Hashes(roms, g, n - 1) + HashAt(roms, g, n - 1)
  }

  ghost predicate Same(a: map<nat, RomRow>, b: map<nat, RomRow>, g: nat, r: nat) {
    && ((r in a && a[r].game == g) <==> (r in b && b[r].game == g))
    && (r in a && r in b && a[r].game == g ==> a[r].sha1 == b[r].sha1)
  }

  lemma {:induction false} HashesFrame(a: map<nat, RomRow>, b: map<nat, RomRow>, g: nat, n: nat)
    requires forall r: nat :: r < n ==> Same(a, b, g, r)
    ensures Hashes(a, g, n) == Hashes(b, g, n)
  {
    if n > 0 {
      HashesFrame(a, b, g, n - 1);
      assert Same(a, b, g, n - 1);
    }
  }

  lemma {:induction false} HashesExtend(a: map<nat, RomRow>, g: nat, n: nat, m: nat)
    requires n <= m && forall r :: n <= r < m && r in a ==> a[r].game != g
    ensures Hashes(a, g, m) == Hashes(a, g, n)
    decreases m
  {
    if n < m {
      HashesExtend(a, g, n, m - 1);
    }
  }

  // ---------- Reading the active catalogue back ----------

  ghost predicate Live(t: Tables, slug: string, g: nat) {
    g in t.games && t.games[g].slug == slug && t.games[g].snap in t.snaps && t.snaps[t.games[g].snap].active
  }

  ghost predicate SigFrom(t: Tables, g: nat, sig: Signature)
    requires g in t.games
  {
    exists order: seq<string> {:trigger multiset(order)} ::
      multiset(order) == multiset(Hashes(t.roms, g, t.nextRom))
      && sig == CatalogSignature(t.games[g].size, Collection.Split(Join(order)))
  }

  ghost predicate NameFrom(t: Tables, slug: string, name: string, sig: Signature) {
    exists g: nat :: Live(t, slug, g) && t.games[g].name == name && SigFrom(t, g, sig)
  }

  /** Some reading of the active catalogue: its names, each with the signature of one of its rows
      of that name, the roms concatenated in any order. */
  ghost predicate ReadBack(t: Tables, slug: string, out: map<string, Signature>) {
    && (forall g: nat :: Live(t, slug, g) ==> t.games[g].name in out)
    && (forall name :: name in out ==> NameFrom(t, slug, name, out[name]))
  }

  // ---------- The statements of the transaction ----------

  function Deactivated(snaps: map<nat, SnapRow>, slug: string): map<nat, SnapRow> {
    map s | s in snaps :: if snaps[s].slug == slug then snaps[s].(active := false) else snaps[s]
  }

  /** Roms b are roms a (numbered below n) with the hashes of game g added as numbers n, n+1, ... */
  ghost predicate RomsAdded(a: map<nat, RomRow>, n: nat, b: map<nat, RomRow>, g: nat, sha1s: seq<string>) {
    && (forall r :: r in b <==> r in a || n <= r < n + |sha1s|)
    && (forall r :: r in a && r < n ==> b[r] == a[r])
    && (forall r {:trigger b[r]} :: n <= r < n + |sha1s| ==> b[r] == RomRow(g, sha1s[r - n]))
  }

  /** Roms b are roms a (numbered below n) with roms of games lo..hi added. */
  ghost predicate RomsGrown(a: map<nat, RomRow>, n: nat, b: map<nat, RomRow>, m: nat, lo: nat, hi: nat) {
    && n <= m
    && (forall r :: r in a && r < n ==> r in b && b[r] == a[r])
    && (forall r :: r in b ==> r in a || (n <= r < m && lo <= b[r].game < hi))
  }

  /** Games b are games a (numbered below n) with a row for each of `listed`. */
  ghost predicate RowsAdded(a: map<nat, GameRow>, n: nat, b: map<nat, GameRow>, snap: nat, slug: string,
                            listed: seq<DatGame>) {
    && (forall g :: g in b <==> g in a || n <= g < n + |listed|)
    && (forall g :: g in a && g < n ==> b[g] == a[g])
    && (forall g {:trigger b[g]} :: n <= g < n + |listed| ==> b[g] == RowFor(snap, slug, listed[g - n]))
  }

  ghost predicate HashesAre(roms: map<nat, RomRow>, m: nat, n: nat, listed: seq<DatGame>) {
    forall g {:trigger Hashes(roms, g, m)} :: n <= g < n + |listed| ==> Hashes(roms, g, m) == listed[g - n].sha1s
  }

  /** Tables b are tables a with the games of `listed` and their roms added under the next numbers. */
  ghost predicate GamesAdded(a: Tables, b: Tables, snap: nat, slug: string, listed: seq<DatGame>) {
    && b.snaps == a.snaps && b.nextSnap == a.nextSnap && b.nextGame == a.nextGame + |listed|
    && RowsAdded(a.games, a.nextGame, b.games, snap, slug, listed)
    && RomsGrown(a.roms, a.nextRom, b.roms, b.nextRom, a.nextGame, b.nextGame)
    && HashesAre(b.roms, b.nextRom, a.nextGame, listed)
  }

  function RowFor(snap: nat, slug: string, g: DatGame): GameRow { GameRow(snap, slug, g.name, g.size, |g.sha1s|) }

  /** The rows owned by the snapshots `dead`, and those snapshots, gone. */
  function Without(t: Tables, dead: set<nat>): Tables {
    t.(snaps := t.snaps - dead,
       games := map g | g in t.games && t.games[g].snap !in dead :: t.games[g],
       roms := map r | r in t.roms && !(t.roms[r].game in t.games && t.games[t.roms[r].game].snap in dead) :: t.roms[r])
  }

  lemma WithoutMore(t: Tables, dead: set<nat>, x: nat)
    ensures Without(Without(t, dead), {x}) == Without(t, dead + {x})
  {
    var a, b := Without(Without(t, dead), {x}), Without(t, dead + {x});
    assert a.snaps == b.snaps;
    assert a.games == b.games;
    assert a.roms == b.roms;
  }

  /** How many snapshots of the platform are newer. */
  ghost function Newer(snaps: map<nat, SnapRow>, slug: string, s: nat): set<nat> {
    set t | t in snaps && snaps[t].slug == slug && t > s
  }

  ghost function Stale(snaps: map<nat, SnapRow>, slug: string): set<nat> {
    set s | s in snaps && snaps[s].slug == slug && |Newer(snaps, slug, s)| >= SNAPSHOT_RETENTION
  }

  // ---------- Pruning ----------

  ghost predicate Descending(ids: seq<nat>) { forall i, j :: 0 <= i < j < |ids| ==> ids[i] > ids[j] }

  lemma {:induction false} PrefixSize(ids: seq<nat>, k: nat)
    requires k <= |ids| && Descending(ids)
    ensures |set i | 0 <= i < k :: ids[i]| == k
  {
    if k > 0 {
      PrefixSize(ids, k - 1);
      assert (set i | 0 <= i < k :: ids[i]) == (set i | 0 <= i < k - 1 :: ids[i]) + {ids[k - 1]};
    }
  }

  /** In the descending list of a platform's ids, everything from the third on is stale. */
  lemma TailIsStale(snaps: map<nat, SnapRow>, slug: string, ids: seq<nat>)
    requires Descending(ids) && forall s :: s in ids <==> s in SnapsOf(snaps, slug)
    ensures forall k :: 0 <= k < |ids| ==> (ids[k] in Stale(snaps, slug) <==> k >= SNAPSHOT_RETENTION)
  {
    forall k | 0 <= k < |ids|
      ensures ids[k] in Stale(snaps, slug) <==> k >= SNAPSHOT_RETENTION
    {
      PrefixSize(ids, k);
      var before := set i | 0 <= i < k :: ids[i];
      assert ids[k] in SnapsOf(snaps, slug);
      forall s
        ensures s in Newer(snaps, slug, ids[k]) <==> s in before
      {
        if s in Newer(snaps, slug, ids[k]) {
          assert s in ids;
          var i :| 0 <= i < |ids| && ids[i] == s;
          assert i < k;
        }
        if s in before {
          var i :| 0 <= i < k && ids[i] == s;
          assert s in SnapsOf(snaps, slug);
        }
      }
      assert Newer(snaps, slug, ids[k]) == before;
    }
  }

  // ---------- What one insert does to the snapshot rows ----------

  ghost function Pruned(snaps: map<nat, SnapRow>, slug: string): map<nat, SnapRow> { snaps - Stale(snaps, slug) }

  lemma NewerThan(before: map<nat, SnapRow>, slug: string, id: nat, row: SnapRow, s: nat)
    requires (forall t :: t in before ==> t < id) && row.slug == slug && s in before
    ensures Newer(Deactivated(before, slug)[id := row], slug, s) == Newer(before, slug, s) + {id}
  {
  }

  lemma StaleUnlessGreatest(before: map<nat, SnapRow>, slug: string, id: nat, row: SnapRow, s: nat)
    requires (forall t :: t in before ==> t < id) && row.slug == slug && s in before && before[s].slug == slug
    ensures s in Stale(Deactivated(before, slug)[id := row], slug) <==> !Greatest(before, s)
  {
    NewerThan(before, slug, id, row, s);
    var newer := Newer(before, slug, s);
    assert id !in newer;
    if Greatest(before, s) {
      assert newer == {};
    } else {
      var t :| t in before && before[t].slug == slug && !(t <= s);
      assert t in newer;
      assert |newer| >= 1;
    }
  }

  ghost predicate SnapsAfter(before: map<nat, SnapRow>, slug: string, id: nat, row: SnapRow, after: map<nat, SnapRow>) {
    && id in after && after[id] == row
    && (forall s :: s in after ==> s in before || s == id)
    && (forall s :: s in before && before[s].slug != slug ==> s in after && after[s] == before[s])
    && (forall s :: s in before && before[s].slug == slug ==> (s in after <==> Greatest(before, s)))
    && (forall s :: s in before && before[s].slug == slug && s in after ==> after[s] == before[s].(active := false))
  }

  lemma SnapsAreAfter(before: map<nat, SnapRow>, slug: string, id: nat, row: SnapRow)
    requires (forall t :: t in before ==> t < id) && row.slug == slug
    ensures SnapsAfter(before, slug, id, row, Pruned(Deactivated(before, slug)[id := row], slug))
  {
    var mid := Deactivated(before, slug)[id := row];
    assert Newer(mid, slug, id) == {};
    forall s | s in before && before[s].slug == slug
      ensures s in Stale(mid, slug) <==> !Greatest(before, s)
    {
      StaleUnlessGreatest(before, slug, id, row, s);
    }
  }

  /** The new snapshot is the platform's one active row, and only the greatest old one stays. */
  lemma ActiveKept(before: map<nat, SnapRow>, slug: string, id: nat, row: SnapRow, after: map<nat, SnapRow>)
    requires (forall t :: t in before ==> t < id) && row.slug == slug && row.active
    requires ActiveIsGreatest(before) && SnapsAfter(before, slug, id, row, after)
    ensures ActiveIsGreatest(after)
  {
    forall s | s in after
      ensures after[s].active <==> Greatest(after, s)
    {
      if after[s].slug == slug {
        assert after[id].slug == slug;
      } else {
        assert s in before && after[s] == before[s];
        assert Greatest(before, s) <==> Greatest(after, s);
      }
    }
  }

  lemma TwoStay(before: map<nat, SnapRow>, slug: string, id: nat, row: SnapRow, after: map<nat, SnapRow>)
    requires (forall t :: t in before ==> t < id) && row.slug == slug
    requires AtMostTwo(before) && SnapsAfter(before, slug, id, row, after)
    ensures AtMostTwo(after)
  {
    forall s, t, u | s in after && t in after && u in after && after[s].slug == after[t].slug == after[u].slug
      ensures !(s < t < u)
    {
      if after[s].slug != slug {
        assert before[s].slug == before[t].slug == before[u].slug;
      } else if s in before && t in before {
        assert Greatest(before, s);
      }
    }
  }

  // ---------- What one insert does to the game and rom rows ----------

  ghost predicate Sound(t: Tables) { Numbered(t) && forall r :: r in t.roms ==> t.roms[r].game in t.games }

  lemma {:induction false} HashesAdded(a: map<nat, RomRow>, n: nat, b: map<nat, RomRow>, g: nat, sha1s: seq<string>,
                                       k: nat)
    requires RomsAdded(a, n, b, g, sha1s) && k <= |sha1s| && forall r :: r in a ==> r < n && a[r].game != g
    ensures Hashes(b, g, n + k) == sha1s[..k]
  {
    if k == 0 {
      HashesExtend(b, g, 0, n);
    } else {
      var r := n + k - 1;
      HashesAdded(a, n, b, g, sha1s, k - 1);
      assert b[r] == RomRow(g, sha1s[k - 1]);
      assert sha1s[..k] == sha1s[..k - 1] + [sha1s[k - 1]];
    }
  }

  /** Rom rows added for other games leave a game's hashes alone. */
  lemma HashesKept(a: map<nat, RomRow>, n: nat, b: map<nat, RomRow>, m: nat, lo: nat, hi: nat, g: nat)
    requires RomsGrown(a, n, b, m, lo, hi) && !(lo <= g < hi) && forall r :: r in a ==> r < n
    ensures Hashes(b, g, m) == Hashes(a, g, n)
  {
    forall r: nat | r < n
      ensures Same(a, b, g, r)
    {
    }
    HashesFrame(a, b, g, n);
    HashesExtend(b, g, n, m);
  }

  lemma AddedSound(a: Tables, b: Tables, snap: nat, slug: string, listed: seq<DatGame>)
    requires Sound(a) && GamesAdded(a, b, snap, slug, listed)
    ensures Sound(b)
  {
  }

  lemma RomsGrow(a: map<nat, RomRow>, n: nat, b: map<nat, RomRow>, g: nat, sha1s: seq<string>)
    requires RomsAdded(a, n, b, g, sha1s) && forall r :: r in a ==> r < n
    ensures RomsGrown(a, n, b, n + |sha1s|, g, g + 1)
  {
  }

  lemma HashesStay(a: map<nat, RomRow>, n: nat, b: map<nat, RomRow>, m: nat, lo: nat, listed: seq<DatGame>)
    requires (forall r :: r in a ==> r < n) && HashesAre(a, n, lo, listed)
    requires RomsGrown(a, n, b, m, lo + |listed|, lo + |listed| + 1)
    ensures HashesAre(b, m, lo, listed)
  {
    forall g {:trigger Hashes(b, g, m)} | lo <= g < lo + |listed|
      ensures Hashes(b, g, m) == listed[g - lo].sha1s
    {
      HashesKept(a, n, b, m, lo + |listed|, lo + |listed| + 1, g);
      assert Hashes(a, g, n) == listed[g - lo].sha1s;
    }
  }

  lemma HashesPush(b: map<nat, RomRow>, m: nat, lo: nat, listed: seq<DatGame>, x: DatGame)
    requires HashesAre(b, m, lo, listed) && Hashes(b, lo + |listed|, m) == x.sha1s
    ensures HashesAre(b, m, lo, listed + [x])
  {
    var more := listed + [x];
    forall g {:trigger Hashes(b, g, m)} | lo <= g < lo + |more|
      ensures Hashes(b, g, m) == more[g - lo].sha1s
    {
      if g == lo + |listed| {
        assert more[g - lo] == x;
      } else {
        assert more[g - lo] == listed[g - lo];
      }
    }
  }

  /** The hashes after one more game: the new game has its own, the others keep theirs. */
  lemma HashesStep(a: map<nat, RomRow>, n: nat, b: map<nat, RomRow>, m: nat, lo: nat, listed: seq<DatGame>, x: DatGame)
    requires (forall r :: r in a ==> r < n && a[r].game < lo + |listed|) && HashesAre(a, n, lo, listed)
    requires m == n + |x.sha1s| && RomsAdded(a, n, b, lo + |listed|, x.sha1s)
    ensures HashesAre(b, m, lo, listed + [x])
  {
    NewHashes(a, n, b, m, lo + |listed|, x);
    RomsGrow(a, n, b, lo + |listed|, x.sha1s);
    HashesStay(a, n, b, m, lo, listed);
    HashesPush(b, m, lo, listed, x);
  }

  lemma NewHashes(a: map<nat, RomRow>, n: nat, b: map<nat, RomRow>, m: nat, g: nat, x: DatGame)
    requires (forall r :: r in a ==> r < n && a[r].game != g) && m == n + |x.sha1s| && RomsAdded(a, n, b, g, x.sha1s)
    ensures Hashes(b, g, m) == x.sha1s
  {
    HashesAdded(a, n, b, g, x.sha1s, |x.sha1s|);
    assert x.sha1s[..|x.sha1s|] == x.sha1s;
  }

  lemma RowsStep(a: map<nat, GameRow>, n: nat, b: map<nat, GameRow>, m: nat, d: map<nat, GameRow>,
                 snap: nat, slug: string, listed: seq<DatGame>, x: DatGame)
    requires RowsAdded(a, n, b, snap, slug, listed) && forall g :: g in a ==> g < n
    requires m == n + |listed| && d == b[m := RowFor(snap, slug, x)]
    ensures RowsAdded(a, n, d, snap, slug, listed + [x])
  {
    var more := listed + [x];
    forall g {:trigger d[g]} | n <= g < n + |more|
      ensures d[g] == RowFor(snap, slug, more[g - n])
    {
      if g == m {
        assert more[g - n] == x;
      } else {
        assert more[g - n] == listed[g - n] && d[g] == b[g];
      }
    }
  }

  lemma RomsStep(a: Tables, b: Tables, d: map<nat, RomRow>, sha1s: seq<string>)
    requires RomsGrown(a.roms, a.nextRom, b.roms, b.nextRom, a.nextGame, b.nextGame) && a.nextGame <= b.nextGame
    requires Numbered(a) && Numbered(b) && RomsAdded(b.roms, b.nextRom, d, b.nextGame, sha1s)
    ensures RomsGrown(a.roms, a.nextRom, d, b.nextRom + |sha1s|, a.nextGame, b.nextGame + 1)
  {
  }

  lemma GameStep(a: Tables, b: Tables, d: Tables, snap: nat, slug: string, listed: seq<DatGame>, x: DatGame)
    requires Sound(a) && GamesAdded(a, b, snap, slug, listed)
    requires d.snaps == b.snaps && d.nextSnap == b.nextSnap && d.nextGame == b.nextGame + 1 &&
        d.nextRom == b.nextRom + |x.sha1s|
    requires d.games == b.games[b.nextGame := RowFor(snap, slug, x)] &&
        RomsAdded(b.roms, b.nextRom, d.roms, b.nextGame, x.sha1s)
    ensures GamesAdded(a, d, snap, slug, listed + [x])
  {
    AddedSound(a, b, snap, slug, listed);
    HashesStep(b.roms, b.nextRom, d.roms, d.nextRom, a.nextGame, listed, x);
    RomsStep(a, b, d.roms, x.sha1s);
    RowsStep(a.games, a.nextGame, b.games, b.nextGame, d.games, snap, slug, listed, x);
  }

  // ---------- One committed insert ----------

  lemma WithoutHashes(c: Tables, dead: set<nat>, g: nat)
    requires g in c.games && c.games[g].snap !in dead
    ensures Hashes(Without(c, dead).roms, g, c.nextRom) == Hashes(c.roms, g, c.nextRom)
  {
    HashesFrame(c.roms, Without(c, dead).roms, g, c.nextRom);
  }

  /** Old games stay, rows and hashes as they were, exactly when their snapshot stays. */
  ghost predicate OldGamesKept(a: Tables, e: Tables) {
    && (forall g :: g in a.games ==> (g in e.games <==> a.games[g].snap in e.snaps))
    && (forall g :: g in a.games && g in e.games ==>
          e.games[g] == a.games[g] && Hashes(e.roms, g, e.nextRom) == Hashes(a.roms, g, a.nextRom))
    && (forall g :: g in e.games ==> g in a.games || a.nextGame <= g < e.nextGame)
  }

  /** The games numbered from n on are the games of `listed`, each with its own hashes. */
  ghost predicate Holds(t: Tables, snap: nat, slug: string, n: nat, listed: seq<DatGame>) {
    && (forall g {:trigger g in t.games} :: n <= g < n + |listed| ==> g in t.games)
    && (forall g {:trigger t.games[g]} :: n <= g < n + |listed| ==> t.games[g] == RowFor(snap, slug, listed[g - n]))
    && HashesAre(t.roms, t.nextRom, n, listed)
  }

  ghost predicate Committed(a: Tables, e: Tables, slug: string, row: SnapRow, listed: seq<DatGame>) {
    && SnapsAfter(a.snaps, slug, a.nextSnap, row, e.snaps)
    && e.nextSnap == a.nextSnap + 1 && e.nextGame == a.nextGame + |listed|
    && OldGamesKept(a, e)
    && Holds(e, a.nextSnap, slug, a.nextGame, listed)
  }

  ghost predicate Opened(a: Tables, b: Tables, slug: string, row: SnapRow) {
    b == a.(snaps := Deactivated(a.snaps, slug)[a.nextSnap := row], nextSnap := a.nextSnap + 1)
  }

  lemma NewIsNotStale(a: Tables, b: Tables, slug: string, row: SnapRow)
    requires Numbered(a) && Opened(a, b, slug, row)
    ensures a.nextSnap !in Stale(b.snaps, slug)
  {
    assert Newer(b.snaps, slug, a.nextSnap) == {};
  }

  /** The statements of one insert: open, add the games, prune. */
  ghost predicate Steps(a: Tables, b: Tables, c: Tables, e: Tables, slug: string, row: SnapRow, listed: seq<DatGame>) {
    && row.slug == slug && row.active
    && Opened(a, b, slug, row)
    && GamesAdded(b, c, a.nextSnap, slug, listed)
    && e == Without(c, Stale(c.snaps, slug))
  }

  lemma OldStays(a: Tables, b: Tables, c: Tables, e: Tables, slug: string, row: SnapRow, listed: seq<DatGame>)
    requires Good(a) && Steps(a, b, c, e, slug, row, listed)
    ensures OldGamesKept(a, e)
  {
    OldRowsStay(a, b, c, e, slug, row, listed);
    forall g | g in a.games && g in e.games
      ensures Hashes(e.roms, g, e.nextRom) == Hashes(a.roms, g, a.nextRom)
    {
      OldRomsStay(a, b, c, e, slug, row, listed, g);
    }
  }

  lemma OldRowsStay(a: Tables, b: Tables, c: Tables, e: Tables, slug: string, row: SnapRow, listed: seq<DatGame>)
    requires Good(a) && Steps(a, b, c, e, slug, row, listed)
    ensures forall g :: g in a.games ==> (g in e.games <==> a.games[g].snap in e.snaps)
    ensures forall g :: g in a.games && g in e.games ==> e.games[g] == a.games[g]
    ensures forall g :: g in e.games ==> g in a.games || a.nextGame <= g < e.nextGame
  {
  }

  lemma OldRomsStay(a: Tables, b: Tables, c: Tables, e: Tables, slug: string, row: SnapRow, listed: seq<DatGame>,
                    g: nat)
    requires Good(a) && Steps(a, b, c, e, slug, row, listed) && g in a.games && g in e.games
    ensures e.games[g] == a.games[g] && Hashes(e.roms, g, e.nextRom) == Hashes(a.roms, g, a.nextRom)
  {
    WithoutHashes(c, Stale(c.snaps, slug), g);
    HashesKept(a.roms, a.nextRom, c.roms, c.nextRom, a.nextGame, c.nextGame, g);
  }

  lemma HoldsWithout(c: Tables, dead: set<nat>, e: Tables, snap: nat, slug: string, n: nat, listed: seq<DatGame>)
    requires Holds(c, snap, slug, n, listed) && snap !in dead && e == Without(c, dead)
    ensures Holds(e, snap, slug, n, listed)
  {
    forall g {:trigger e.games[g]} {:trigger Hashes(e.roms, g, e.nextRom)} | n <= g < n + |listed|
      ensures g in e.games && e.games[g] == c.games[g] && Hashes(e.roms, g, e.nextRom) == Hashes(c.roms, g, c.nextRom)
    {
      assert c.games[g] == RowFor(snap, slug, listed[g - n]);
      WithoutHashes(c, dead, g);
    }
  }

  lemma NewHeld(a: Tables, b: Tables, c: Tables, e: Tables, slug: string, row: SnapRow, listed: seq<DatGame>)
    requires Good(a) && Steps(a, b, c, e, slug, row, listed)
    ensures Holds(e, a.nextSnap, slug, a.nextGame, listed)
  {
    NewIsNotStale(a, b, slug, row);
    assert Holds(c, a.nextSnap, slug, a.nextGame, listed);
    HoldsWithout(c, Stale(c.snaps, slug), e, a.nextSnap, slug, a.nextGame, listed);
  }

  lemma GameOwned(a: Tables, b: Tables, c: Tables, e: Tables, slug: string, row: SnapRow, listed: seq<DatGame>, g: nat)
    requires Good(a) && Steps(a, b, c, e, slug, row, listed) && g in e.games
    ensures e.games[g].snap in e.snaps && e.snaps[e.games[g].snap].slug == e.games[g].slug
  {
    if g in a.games {
      assert c.games[g] == a.games[g];
    } else {
      NewIsNotStale(a, b, slug, row);
      assert c.games[g] == RowFor(a.nextSnap, slug, listed[g - a.nextGame]);
    }
  }

  lemma RomsOwned(a: Tables, b: Tables, c: Tables, e: Tables, slug: string, row: SnapRow, listed: seq<DatGame>)
    requires Good(a) && Steps(a, b, c, e, slug, row, listed)
    ensures Numbered(e) && forall r :: r in e.roms ==> e.roms[r].game in e.games
  {
    AddedSound(b, c, a.nextSnap, slug, listed);
    forall r | r in e.roms
      ensures e.roms[r].game in e.games
    {
      assert r in c.roms && c.roms[r].game in c.games;
    }
  }

  /** A committed insert keeps every invariant of the store. */
  lemma CommitKeepsGood(a: Tables, b: Tables, c: Tables, e: Tables, slug: string, row: SnapRow, listed: seq<DatGame>)
    requires Good(a) && Steps(a, b, c, e, slug, row, listed)
    ensures Good(e) && Committed(a, e, slug, row, listed)
  {
    SnapsAreAfter(a.snaps, slug, a.nextSnap, row);
    ActiveKept(a.snaps, slug, a.nextSnap, row, e.snaps);
    TwoStay(a.snaps, slug, a.nextSnap, row, e.snaps);
    RomsOwned(a, b, c, e, slug, row, listed);
    forall g | g in e.games
      ensures e.games[g].snap in e.snaps && e.snaps[e.games[g].snap].slug == e.games[g].slug
    {
      GameOwned(a, b, c, e, slug, row, listed, g);
    }
    OldStays(a, b, c, e, slug, row, listed);
    NewHeld(a, b, c, e, slug, row, listed);
  }

  // ---------- What the active catalogue of a platform is ----------

  /** The active catalogue of the platform is exactly `games`, numbered from n. */
  ghost predicate Catalogue(t: Tables, slug: string, n: nat, games: seq<DatGame>) {
    && (forall g: nat {:trigger Live(t, slug, g)} :: Live(t, slug, g) <==> n <= g < n + |games|)
    && exists snap :: Holds(t, snap, slug, n, games)
  }

  lemma CommitMakesCatalogue(a: Tables, e: Tables, slug: string, row: SnapRow, listed: seq<DatGame>)
    requires Good(a) && Good(e) && Committed(a, e, slug, row, listed) && row.slug == slug && row.active
    ensures Catalogue(e, slug, a.nextGame, listed)
  {
    forall g: nat {:trigger Live(e, slug, g)}
      ensures Live(e, slug, g) <==> a.nextGame <= g < a.nextGame + |listed|
    {
      if a.nextGame <= g < a.nextGame + |listed| {
        assert g in e.games && e.games[g] == RowFor(a.nextSnap, slug, listed[g - a.nextGame]);
      } else if g in a.games {
        assert a.games[g].snap in a.snaps && e.snaps[a.nextSnap].slug == slug;
      }
    }
  }

  /** An insert for another platform leaves this platform's active catalogue alone. */
  lemma OtherCatalogueKept(a: Tables, e: Tables, other: string, row: SnapRow, listed: seq<DatGame>,
                           slug: string, n: nat, games: seq<DatGame>)
    requires Good(a) && Committed(a, e, other, row, listed) && slug != other
    requires Catalogue(a, slug, n, games)
    ensures Catalogue(e, slug, n, games)
  {
    forall g: nat {:trigger Live(e, slug, g)}
      ensures Live(e, slug, g) <==> Live(a, slug, g)
    {
      if g in a.games {
        var snap := a.games[g].snap;
        assert snap in a.snaps && a.snaps[snap].slug == a.games[g].slug;
      } else if g in e.games {
        assert e.games[g] == RowFor(a.nextSnap, other, listed[g - a.nextGame]);
      }
    }
    var snap :| Holds(a, snap, slug, n, games);
    forall g {:trigger g in e.games} {:trigger e.games[g]} {:trigger Hashes(e.roms, g, e.nextRom)}
      | n <= g < n + |games|
      ensures g in e.games && e.games[g] == a.games[g] && Hashes(e.roms, g, e.nextRom) == Hashes(a.roms, g, a.nextRom)
    {
      assert Live(a, slug, g) && Live(e, slug, g);
    }
    assert Holds(e, snap, slug, n, games);
  }

  ghost predicate SameGame(a: DatGame, b: DatGame) {
    a.name == b.name && a.size == b.size && multiset(a.sha1s) == multiset(b.sha1s)
  }

  /** The same games, each with its roms in some other order. */
  ghost predicate Reordered(a: seq<DatGame>, b: seq<DatGame>) {
    |a| == |b| && forall i {:trigger SameGame(a[i], b[i])} :: 0 <= i < |a| ==> SameGame(a[i], b[i])
  }

  lemma LiveRow(t: Tables, slug: string, n: nat, games: seq<DatGame>, g: nat) returns (i: nat)
    requires Catalogue(t, slug, n, games) && Live(t, slug, g)
    ensures i < |games| && t.games[g].name == games[i].name && t.games[g].size == games[i].size
    ensures Hashes(t.roms, g, t.nextRom) == games[i].sha1s
  {
    var snap :| Holds(t, snap, slug, n, games);
    i := g - n;
    assert t.games[g] == RowFor(snap, slug, games[i]);
  }

  /** A name read back is that of a game, with that game's signature if its hashes come back tidy and only then. */
  lemma SigReadBack(t: Tables, slug: string, n: nat, games: seq<DatGame>, again: seq<DatGame>, name: string,
                    sig: Signature)
    returns (i: nat)
    requires Catalogue(t, slug, n, games) && Reordered(games, again) && NameFrom(t, slug, name, sig)
    ensures i < |again| && again[i].name == name && (sig == SigOf(again[i]) <==> TidyGame(again[i]))
  {
    var g: nat :| Live(t, slug, g) && t.games[g].name == name && SigFrom(t, g, sig);
    i := LiveRow(t, slug, n, games, g);
    assert SameGame(games[i], again[i]);
    var order :| multiset(order) == multiset(Hashes(t.roms, g, t.nextRom))
                 && sig == CatalogSignature(t.games[g].size, Collection.Split(Join(order)));
    StoredSignature(again[i], order);
  }

  lemma NameKnown(t: Tables, slug: string, n: nat, games: seq<DatGame>, prev: map<string, Signature>, i: nat)
    requires Catalogue(t, slug, n, games) && i < |games| && ReadBack(t, slug, prev)
    ensures games[i].name in prev && NameFrom(t, slug, games[i].name, prev[games[i].name])
  {
    var snap :| Holds(t, snap, slug, n, games);
    assert t.games[n + i] == RowFor(snap, slug, games[i]);
    assert Live(t, slug, n + i);
  }

  lemma {:induction false} NoneNew(known: set<string>, games: seq<DatGame>)
    requires forall i :: 0 <= i < |games| ==> games[i].name in known
    ensures CountNew(known, games) == 0
  {
    if games != [] {
      NoneNew(known, games[..|games| - 1]);
    }
  }

  lemma {:induction false} NoneChanged(prev: map<string, Signature>, games: seq<DatGame>)
    requires forall i :: 0 <= i < |games| ==> games[i].name in prev
    ensures CountChanged(prev, games) == 0 <==> forall i :: 0 <= i < |games| ==> prev[games[i].name] == SigOf(games[i])
  {
    if games != [] {
      NoneChanged(prev, games[..|games| - 1]);
    }
  }

  /** Nothing comes and nothing goes; what changes are the rows whose signature is not the one read back. */
  lemma ReimportParts(t: Tables, slug: string, n: nat, games: seq<DatGame>, again: seq<DatGame>,
                      prev: map<string, Signature>)
    requires Catalogue(t, slug, n, games) && Reordered(games, again) && ReadBack(t, slug, prev)
    ensures forall i :: 0 <= i < |again| ==> again[i].name in prev
    ensures DiffOf(prev, again) == Diff(0, 0, CountChanged(prev, again))
  {
    forall i | 0 <= i < |again|
      ensures again[i].name in prev
    {
      assert SameGame(games[i], again[i]);
      NameKnown(t, slug, n, games, prev, i);
    }
    NoneNew(prev.Keys, again);
    forall name | name in prev
      ensures name in Names(again, |again|)
    {
      var j := SigReadBack(t, slug, n, games, again, name, prev[name]);
    }
    assert prev.Keys - Names(again, |again|) == {};
  }

  /** Every game of the re-import is found under its name. */
  lemma FoundAgain(t: Tables, slug: string, n: nat, games: seq<DatGame>, again: seq<DatGame>,
                   prev: map<string, Signature>, i: nat)
    requires Catalogue(t, slug, n, games) && DistinctNames(games) && Reordered(games, again)
    requires ReadBack(t, slug, prev) && i < |again|
    ensures again[i].name in prev && (prev[again[i].name] == SigOf(again[i]) <==> TidyGame(again[i]))
  {
    assert SameGame(games[i], again[i]);
    NameKnown(t, slug, n, games, prev, i);
    var name := games[i].name;
    var j := SigReadBack(t, slug, n, games, again, name, prev[name]);
    assert SameGame(games[j], again[j]);
    assert j == i;
  }

  ghost function Misses<T>(s: seq<T>, good: T -> bool): nat {
    if s == [] then 0 else Misses(s[..|s| - 1], good) + if good(s[|s| - 1]) then 0 else 1
  }

  lemma {:induction false} NoMisses<T>(s: seq<T>, good: T -> bool)
    ensures Misses(s, good) == 0 <==> forall i :: 0 <= i < |s| ==> good(s[i])
  {
    if s != [] {
      NoMisses(s[..|s| - 1], good);
    }
  }

  /** The games whose stored hashes do not come back as they were. */
  ghost function Untidy(games: seq<DatGame>): nat { Misses(games, TidyGame) }

  lemma {:induction false} OnlyUntidyChange(prev: map<string, Signature>, games: seq<DatGame>)
    requires forall i :: 0 <= i < |games| ==>
      games[i].name in prev && (prev[games[i].name] == SigOf(games[i]) <==> TidyGame(games[i]))
    ensures CountChanged(prev, games) == Untidy(games)
  {
    if games != [] {
      OnlyUntidyChange(prev, games[..|games| - 1]);
    }
  }

  /** Importing the active catalogue again, its roms in any order, adds and removes nothing and changes
      exactly the games with untidy hashes. */
  lemma ReimportDiff(t: Tables, slug: string, n: nat, games: seq<DatGame>, again: seq<DatGame>,
                     prev: map<string, Signature>)
    requires Catalogue(t, slug, n, games) && DistinctNames(games) && Reordered(games, again)
    requires ReadBack(t, slug, prev)
    ensures DiffOf(prev, again) == Diff(0, 0, Untidy(again))
  {
    ReimportParts(t, slug, n, games, again, prev);
    forall i | 0 <= i < |again|
      ensures prev[again[i].name] == SigOf(again[i]) <==> TidyGame(again[i])
    {
      FoundAgain(t, slug, n, games, again, prev, i);
    }
    OnlyUntidyChange(prev, again);
  }

  /** The re-import shows no difference if and only if every game's hashes are tidy. */
  lemma ReimportIsZero(t: Tables, slug: string, n: nat, games: seq<DatGame>, again: seq<DatGame>,
                       prev: map<string, Signature>)
    requires Catalogue(t, slug, n, games) && DistinctNames(games) && Reordered(games, again)
    requires ReadBack(t, slug, prev)
    ensures DiffOf(prev, again) == Diff(0, 0, 0) <==> forall i :: 0 <= i < |again| ==> TidyGame(again[i])
  {
    ReimportDiff(t, slug, n, games, again, prev);
    NoMisses(again, TidyGame);
  }

  // ---------- Without distinct names ----------

  /** All hashes are tidy, and rows of one name agree on their signature. */
  ghost predicate Settled(games: seq<DatGame>) {
    && (forall i :: 0 <= i < |games| ==> TidyGame(games[i]))
    && forall i, j :: 0 <= i < |games| && 0 <= j < |games| && games[i].name == games[j].name
         ==> SigOf(games[i]) == SigOf(games[j])
  }

  ghost predicate ZeroDiff(t: Tables, slug: string, prev: map<string, Signature>, again: seq<DatGame>) {
    ReadBack(t, slug, prev) ==> DiffOf(prev, again) == Diff(0, 0, 0)
  }

  lemma SettledIsZero(t: Tables, slug: string, n: nat, games: seq<DatGame>, again: seq<DatGame>,
                      prev: map<string, Signature>)
    requires Catalogue(t, slug, n, games) && Reordered(games, again) && Settled(again)
    ensures ZeroDiff(t, slug, prev, again)
  {
    if ReadBack(t, slug, prev) {
      ReimportParts(t, slug, n, games, again, prev);
      NoneChanged(prev, again);
      forall i | 0 <= i < |again|
        ensures prev[again[i].name] == SigOf(again[i])
      {
        var j := SigReadBack(t, slug, n, games, again, again[i].name, prev[again[i].name]);
      }
    }
  }

  /** The signature some reading of the i-th game gives. */
  lemma SomeSignature(t: Tables, slug: string, n: nat, games: seq<DatGame>, again: seq<DatGame>, i: nat)
    returns (sig: Signature)
    requires Catalogue(t, slug, n, games) && Reordered(games, again) && i < |games|
    ensures NameFrom(t, slug, again[i].name, sig) && (sig == SigOf(again[i]) <==> TidyGame(again[i]))
  {
    var snap :| Holds(t, snap, slug, n, games);
    var order := Hashes(t.roms, n + i, t.nextRom);
    assert t.games[n + i] == RowFor(snap, slug, games[i]) && Live(t, slug, n + i);
    assert SameGame(games[i], again[i]);
    sig := CatalogSignature(games[i].size, Collection.Split(Join(order)));
    assert SigFrom(t, n + i, sig);
    StoredSignature(again[i], order);
  }

  ghost predicate Named(t: Tables, slug: string, name: string) { exists sig :: NameFrom(t, slug, name, sig) }

  ghost function AnySignature(t: Tables, slug: string, name: string): (sig: Signature)
    requires Named(t, slug, name)
    ensures NameFrom(t, slug, name, sig)
  {
    var sig :| NameFrom(t, slug, name, sig);
    sig
  }

  ghost function LiveNames(t: Tables, slug: string): set<string> {
    set g: nat | g in t.games && Live(t, slug, g) :: t.games[g].name
  }

  lemma LiveIsNamed(t: Tables, slug: string, n: nat, games: seq<DatGame>, again: seq<DatGame>, name: string)
    requires Catalogue(t, slug, n, games) && Reordered(games, again) && name in LiveNames(t, slug)
    ensures Named(t, slug, name)
  {
    var g: nat :| g in t.games && Live(t, slug, g) && t.games[g].name == name;
    var i := LiveRow(t, slug, n, games, g);
    assert SameGame(games[i], again[i]);
    var sig := SomeSignature(t, slug, n, games, again, i);
  }

  /** There is always a reading, and it may take any one of the signatures a name has. */
  lemma SomeReading(t: Tables, slug: string, name: string, sig: Signature) returns (prev: map<string, Signature>)
    requires NameFrom(t, slug, name, sig) && forall x :: x in LiveNames(t, slug) ==> Named(t, slug, x)
    ensures ReadBack(t, slug, prev) && name in prev && prev[name] == sig
  {
    var rest := map x | x in LiveNames(t, slug) :: AnySignature(t, slug, x);
    prev := rest[name := sig];
    forall g: nat | Live(t, slug, g)
      ensures t.games[g].name in prev
    {
      assert t.games[g].name in LiveNames(t, slug);
    }
  }

  lemma ZeroIsSettled(t: Tables, slug: string, n: nat, games: seq<DatGame>, again: seq<DatGame>)
    requires Catalogue(t, slug, n, games) && Reordered(games, again)
    requires forall prev :: ZeroDiff(t, slug, prev, again)
    ensures Settled(again)
  {
    forall i, j | 0 <= i < |again| && 0 <= j < |again| && again[i].name == again[j].name
      ensures TidyGame(again[i]) && SigOf(again[i]) == SigOf(again[j])
    {
      var sig := SomeSignature(t, slug, n, games, again, i);
      forall x | x in LiveNames(t, slug)
        ensures Named(t, slug, x)
      {
        LiveIsNamed(t, slug, n, games, again, x);
      }
      var prev := SomeReading(t, slug, again[i].name, sig);
      assert ZeroDiff(t, slug, prev, again);
      ReimportParts(t, slug, n, games, again, prev);
      NoneChanged(prev, again);
    }
    forall i | 0 <= i < |again|
      ensures TidyGame(again[i])
    {
      assert again[i].name == again[i].name;
    }
  }

  /** Whatever names repeat: the re-import shows no difference in any reading of the store if and only if the
      hashes are tidy and rows of one name agree. */
  lemma ReimportAlwaysZero(t: Tables, slug: string, n: nat, games: seq<DatGame>, again: seq<DatGame>)
    requires Catalogue(t, slug, n, games) && Reordered(games, again)
    ensures (forall prev :: ZeroDiff(t, slug, prev, again)) <==> Settled(again)
  {
    if forall prev :: ZeroDiff(t, slug, prev, again) {
      ZeroIsSettled(t, slug, n, games, again);
    }
    if Settled(again) {
      forall prev
        ensures ZeroDiff(t, slug, prev, again)
      {
        SettledIsZero(t, slug, n, games, again, prev);
      }
    }
  }

  const COMMA_HASH := DatGame("game", 0, ["b,a"])

  /** One hash with a comma whose pieces are out of order: the game is not tidy, so it shows as changed. */
  lemma CommaInHashShowsAsChange()
    ensures !TidyGame(COMMA_HASH)
    ensures CatalogSignature(0, Collection.Split(Join(COMMA_HASH.sha1s))) != SigOf(COMMA_HASH)
  {
    assert SortedHashes(["b,a"]) == ["b,a"] by {
      assert ["b,a"][..0] == [] && Trim("b,a") == "b,a";
    }
    SplitAt("b", "a");
    SplitPlain("a");
    SplitPlain("b");
    assert "b" + "," + "a" == "b,a";
    assert ["b,a"][1..] == [] && Cut(["b,a"]) == ["b", "a"];
    assert Pieces(COMMA_HASH)[1] == "a" && Pieces(COMMA_HASH)[0] == "b" && StringLess("a", "b");
    StoredSignature(COMMA_HASH, COMMA_HASH.sha1s);
  }

  // ---------- The store ----------

  function TotalRoms(games: seq<DatGame>): nat {
    if games == [] then 0 else TotalRoms(games[..|games| - 1]) + |games[|games| - 1].sha1s|
  }

  datatype Outcome = Failed | Stored(id: nat, row: SnapRow)

  lemma WithoutNone(t: Tables)
    ensures Without(t, {}) == t
  {
    var e := Without(t, {});
    assert e.snaps == t.snaps && e.games == t.games && e.roms == t.roms;
  }

  /** `JobStore`, as far as the catalogue tables go. */
  class JobStore {
    var snaps: map<nat, SnapRow>
    var games: map<nat, GameRow>
    var roms: map<nat, RomRow>
    var nextSnap: nat
    var nextGame: nat
    var nextRom: nat

    ghost function Now(): Tables
      reads this
    {
      Tables(snaps, games, roms, nextSnap, nextGame, nextRom)
    }

    ghost predicate Valid()
      reads this
    {
      Good(Now())
    }

    constructor ()
      ensures Valid() && snaps == map[] && games == map[] && roms == map[]
      ensures nextSnap == nextGame == nextRom == 1
    {
      snaps, games, roms := map[], map[], map[];
      nextSnap, nextGame, nextRom := 1, 1, 1;
    }

    /** GROUP_CONCAT promises no order; each value may land at either end. */
    method GroupConcat(g: nat) returns (order: seq<string>)
      ensures multiset(order) == multiset(Hashes(roms, g, nextRom))
    {
      order := [];
      for r := 0 to nextRom
        invariant multiset(order) == multiset(Hashes(roms, g, r))
      {
        if * {
          order := order + HashAt(roms, g, r);
        } else {
          order := HashAt(roms, g, r) + order;
        }
      }
    }

    method DatGameSignatures(slug: string) returns (out: map<string, Signature>)
      ensures ReadBack(Now(), slug, out)
    {
      out := map[];
      var todo := games.Keys;
      while todo != {}
        invariant todo <= games.Keys
        invariant forall g: nat :: Live(Now(), slug, g) && g !in todo ==> games[g].name in out
        invariant forall name :: name in out ==> NameFrom(Now(), slug, name, out[name])
        decreases |todo|
      {
        var g :| g in todo;
        todo := todo - {g};
        var row := games[g];
        if row.slug == slug && row.snap in snaps && snaps[row.snap].active {
          var order := GroupConcat(g);
          var sig := CatalogSignature(row.size, Collection.Split(Join(order)));
          assert Live(Now(), slug, g) && SigFrom(Now(), g, sig);
          assert NameFrom(Now(), slug, row.name, sig);
          out := out[row.name := sig];
        }
      }
    }

    /** The ids of the platform's snapshots, newest first. */
    method IdsDescending(slug: string) returns (ids: seq<nat>)
      ensures Descending(ids) && forall s :: s in ids <==> s in SnapsOf(snaps, slug)
    {
      ids := [];
      var todo := SnapsOf(snaps, slug);
      while todo != {}
        invariant todo <= SnapsOf(snaps, slug) && Descending(ids)
        invariant forall s :: s in SnapsOf(snaps, slug) <==> s in ids || s in todo
        invariant forall i, s :: 0 <= i < |ids| && s in todo ==> ids[i] > s
        decreases |todo|
      {
        var top := Largest(todo);
        assert forall s :: s in todo ==> s == top || s in todo - {top};
        todo := todo - {top};
        ids := ids + [top];
      }
    }

    method Largest(ids: set<nat>) returns (top: nat)
      requires ids != {}
      ensures top in ids && forall s :: s in ids ==> s <= top
    {
      top :| top in ids;
      var todo := ids - {top};
      while todo != {}
        invariant todo <= ids && top in ids && forall s :: s in ids ==> s <= top || s in todo
        decreases |todo|
      {
        var s :| s in todo;
        todo := todo - {s};
        if s > top {
          top := s;
        }
      }
    }

    method DeleteSnapshot(id: nat)
      modifies this`snaps, this`games, this`roms
      ensures Now() == Without(old(Now()), {id})
    {
      roms := map r | r in roms && !(roms[r].game in games && games[roms[r].game].snap == id) :: roms[r];
      games := map g | g in games && games[g].snap != id :: games[g];
      snaps := snaps - {id};
      assert roms == Without(old(Now()), {id}).roms;
      assert games == Without(old(Now()), {id}).games;
    }

    method PruneSnapshots(slug: string)
      modifies this`snaps, this`games, this`roms
      ensures Now() == Without(old(Now()), Stale(old(snaps), slug))
    {
      var ids := IdsDescending(slug);
      TailIsStale(snaps, slug, ids);
      WithoutNone(Now());
      ghost var gone: set<nat> := {};
      var k := SNAPSHOT_RETENTION;
      while k < |ids|
        invariant k >= SNAPSHOT_RETENTION
        invariant gone == set i | SNAPSHOT_RETENTION <= i < k && i < |ids| :: ids[i]
        invariant Now() == Without(old(Now()), gone)
      {
        DeleteSnapshot(ids[k]);
        WithoutMore(old(Now()), gone, ids[k]);
        gone := gone + {ids[k]};
        k := k + 1;
      }
      StaleIsTail(old(snaps), slug, ids, gone);
    }

    lemma StaleIsTail(table: map<nat, SnapRow>, slug: string, ids: seq<nat>, gone: set<nat>)
      requires forall s :: s in ids <==> s in SnapsOf(table, slug)
      requires forall k :: 0 <= k < |ids| ==> (ids[k] in Stale(table, slug) <==> k >= SNAPSHOT_RETENTION)
      requires gone == set i | SNAPSHOT_RETENTION <= i < |ids| :: ids[i]
      ensures gone == Stale(table, slug)
    {
      forall s
        ensures s in Stale(table, slug) ==> s in gone
      {
        if s in Stale(table, slug) {
          assert s in ids;
          var i :| 0 <= i < |ids| && ids[i] == s;
        }
      }
    }

    method InsertRoms(g: nat, sha1s: seq<string>)
      requires forall r :: r in roms ==> r < nextRom
      modifies this`roms, this`nextRom
      ensures RomsAdded(old(roms), old(nextRom), roms, g, sha1s) && nextRom == old(nextRom) + |sha1s|
    {
      for i := 0 to |sha1s|
        invariant nextRom == old(nextRom) + i
        invariant RomsAdded(old(roms), old(nextRom), roms, g, sha1s[..i])
      {
        roms := roms[nextRom := RomRow(g, sha1s[i])];
        nextRom := nextRom + 1;
      }
      assert sha1s[..|sha1s|] == sha1s;
    }

    method InsertGame(snap: nat, slug: string, x: DatGame)
      requires Numbered(Now())
      modifies this`games, this`roms, this`nextGame, this`nextRom
      ensures nextGame == old(nextGame) + 1 && nextRom == old(nextRom) + |x.sha1s|
      ensures games == old(games)[old(nextGame) := RowFor(snap, slug, x)]
      ensures RomsAdded(old(roms), old(nextRom), roms, old(nextGame), x.sha1s)
    {
      var g := nextGame;
      games := games[g := GameRow(snap, slug, x.name, x.size, |x.sha1s|)];
      nextGame := nextGame + 1;
      InsertRoms(g, x.sha1s);
    }

    method InsertGames(snap: nat, slug: string, listed: seq<DatGame>)
      requires Sound(Now())
      modifies this`games, this`roms, this`nextGame, this`nextRom
      ensures GamesAdded(old(Now()), Now(), snap, slug, listed)
    {
      ghost var a := Now();
      for i := 0 to |listed|
        invariant GamesAdded(a, Now(), snap, slug, listed[..i])
      {
        assert listed[..i + 1] == listed[..i] + [listed[i]];
        InsertNext(a, snap, slug, listed[..i], listed[i]);
      }
      assert listed[..|listed|] == listed;
    }

    method InsertNext(ghost a: Tables, snap: nat, slug: string, ghost before: seq<DatGame>, x: DatGame)
      requires Sound(a) && GamesAdded(a, Now(), snap, slug, before)
      modifies this`games, this`roms, this`nextGame, this`nextRom
      ensures GamesAdded(a, Now(), snap, slug, before + [x])
    {
      ghost var b := Now();
      AddedSound(a, b, snap, slug, before);
      InsertGame(snap, slug, x);
      GameStep(a, b, Now(), snap, slug, before, x);
    }

    method CountRoms(listed: seq<DatGame>) returns (total: nat)
      ensures total == TotalRoms(listed)
    {
      total := 0;
      for i := 0 to |listed|
        invariant total == TotalRoms(listed[..i])
      {
        assert listed[..i + 1][..i] == listed[..i];
        total := total + |listed[i].sha1s|;
      }
      assert listed[..|listed|] == listed;
    }

    /** The UPDATE and the INSERT that open the new snapshot. */
    method OpenSnapshot(row: SnapRow)
      modifies this`snaps, this`nextSnap
      ensures Opened(old(Now()), Now(), row.slug, row)
    {
      snaps := Deactivated(snaps, row.slug);
      snaps := snaps[nextSnap := row];
      nextSnap := nextSnap + 1;
    }

    /** The statements of the transaction, in order. */
    method Transact(id: nat, row: SnapRow, listed: seq<DatGame>) returns (ghost b: Tables, ghost c: Tables)
      requires Sound(Now()) && id == nextSnap && row.active
      modifies this
      ensures Steps(old(Now()), b, c, Now(), row.slug, row, listed)
    {
      OpenSnapshot(row);
      b := Now();
      InsertGames(id, row.slug, listed);
      c := Now();
      PruneSnapshots(row.slug);
    }

    /** Any error before the commit rolls the whole transaction back. */
    method Write(row: SnapRow, listed: seq<DatGame>, commits: bool)
      requires Valid() && row.active
      modifies this
      ensures Valid()
      ensures !commits ==> Now() == old(Now())
      ensures commits ==>
        Committed(old(Now()), Now(), row.slug, row, listed) && Catalogue(Now(), row.slug, old(nextGame), listed)
    {
      ghost var a := Now();
      var was := (snaps, games, roms, nextSnap, nextGame, nextRom);
      ghost var b, c := Transact(nextSnap, row, listed);
      if commits {
        CommitKeepsGood(a, b, c, Now(), row.slug, row, listed);
        CommitMakesCatalogue(a, Now(), row.slug, row, listed);
      } else {
        snaps, games, roms := was.0, was.1, was.2;
        nextSnap, nextGame, nextRom := was.3, was.4, was.5;
        assert Now() == a;
      }
    }

    /** `commits` says whether the transaction reaches its commit. */
    method InsertDatSnapshot(slug: string, authority: string, listed: seq<DatGame>, commits: bool)
      returns (r: Outcome, ghost prev: map<string, Signature>)
      requires Valid()
      modifies this
      ensures Valid()
      ensures r.Stored? <==> Trim(slug) != "" && Trim(authority) != "" && commits
      ensures r.Failed? ==> Now() == old(Now())
      ensures r.Stored? ==> ReadBack(old(Now()), slug, prev)
      ensures r.Stored? ==>
        && r.id == old(nextSnap)
        && r.row == SnapRow(slug, authority, |listed|, TotalRoms(listed), DiffOf(prev, listed), true)
      ensures r.Stored? ==>
        Committed(old(Now()), Now(), slug, r.row, listed) && Catalogue(Now(), slug, old(nextGame), listed)
    {
      prev := map[];
      if Trim(slug) == "" || Trim(authority) == "" {
        return Failed, prev;
      }
      var current := DatGameSignatures(slug);
      prev := current;
      var diff := DiffCatalog(current, listed);
      var total := CountRoms(listed);
      var id, row := nextSnap, SnapRow(slug, authority, |listed|, total, diff, true);
      Write(row, listed, commits);
      r := if commits then Stored(id, row) else Failed;
    }
  }
}
