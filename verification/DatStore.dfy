/** internal/db/dat.go: the diff of a catalogue against the one it replaces (`diffCatalog`, `catalogSignature`). */
module DatStore {
  import opened Text

  datatype DatGame = DatGame(name: string, size: int, sha1s: seq<string>)

  // ---------- Signatures ----------

  function Insert(x: string, s: seq<string>): seq<string> {
    if s == [] then [x] else if StringLess(s[0], x) then [s[0]] + Insert(x, s[1..]) else [x] + s
  }

  /** One hash into the sorted list of non-blank, trimmed hashes. */
  function Fold(h: string, acc: seq<string>): seq<string> { if Trim(h) == "" then acc else Insert(Trim(h), acc) }

  function SortedHashes(hashes: seq<string>): seq<string> {
    if hashes == [] then [] else Fold(hashes[|hashes| - 1], SortedHashes(hashes[..|hashes| - 1]))
  }

  function Join(hs: seq<string>): string {
    if hs == [] then "" else if |hs| == 1 then hs[0] else hs[0] + "," + Join(hs[1..])
  }

  /** The text "size|hash,hash,...", kept as the number before the bar and the text after it. */
  datatype Signature = Signature(size: int, hashes: string)

  function CatalogSignature(size: int, hashes: seq<string>): Signature { Signature(size, Join(SortedHashes(hashes))) }

  lemma {:induction false} InsertCommutes(x: string, y: string, s: seq<string>)
    ensures Insert(x, Insert(y, s)) == Insert(y, Insert(x, s))
  {
    StringLessTotal(x, y);
    StringLessTotal(x, x);
    if s != [] {
      StringLessTotal(s[0], x);
      StringLessTotal(s[0], y);
      if StringLess(s[0], x) && StringLess(s[0], y) {
        InsertCommutes(x, y, s[1..]);
      }
      if StringLess(x, y) && StringLess(s[0], x) {
        StringLessTransitive(s[0], x, y);
      }
      if StringLess(y, x) && StringLess(s[0], y) {
        StringLessTransitive(s[0], y, x);
      }
    }
  }

  lemma FoldCommutes(a: string, b: string, acc: seq<string>)
    ensures Fold(a, Fold(b, acc)) == Fold(b, Fold(a, acc))
  {
    InsertCommutes(Trim(a), Trim(b), acc);
  }

  lemma RemoveThenInit<T>(s: seq<T>, i: nat)
    requires i + 1 < |s|
    ensures var rest := s[..i] + s[i + 1..];
            var n := |s| - 1;
            rest[n - 1] == s[n] && rest[..n - 1] == s[..n][..i] + s[..n][i + 1..]
  {
  }

  /** Any element may be taken to be the last one folded in. */
  lemma {:induction false} FoldLast(hashes: seq<string>, i: nat)
    requires i < |hashes|
    ensures SortedHashes(hashes) == Fold(hashes[i], SortedHashes(hashes[..i] + hashes[i + 1..]))
  {
    var n := |hashes| - 1;
    if i == n {
      assert hashes[..i] + hashes[i + 1..] == hashes[..n];
    } else {
      FoldLast(hashes[..n], i);
      RemoveThenInit(hashes, i);
      FoldCommutes(hashes[n], hashes[i], SortedHashes(hashes[..n][..i] + hashes[..n][i + 1..]));
    }
  }

  lemma SameBag<T>(a: seq<T>, b: seq<T>)
    requires multiset(a) == multiset(b)
    ensures |a| == |b|
  {
    assert |multiset(a)| == |a| && |multiset(b)| == |b|;
  }

  lemma BagWithout<T>(s: seq<T>, i: nat)
    requires i < |s|
    ensures multiset(s) == multiset(s[..i] + s[i + 1..]) + multiset{s[i]}
  {
    assert s == s[..i] + [s[i]] + s[i + 1..];
  }

  lemma Cancel<T>(x: multiset<T>, y: multiset<T>, e: T)
    requires x + multiset{e} == y + multiset{e}
    ensures x == y
  {
    assert x == (x + multiset{e}) - multiset{e} && y == (y + multiset{e}) - multiset{e};
  }

  /** The last element of `a` stands somewhere in any reordering of `a`. */
  lemma FindLast<T>(a: seq<T>, b: seq<T>) returns (i: nat)
    requires multiset(a) == multiset(b) && a != []
    ensures i < |b| && b[i] == a[|a| - 1]
    ensures multiset(a[..|a| - 1]) == multiset(b[..i] + b[i + 1..])
  {
    var n := |a| - 1;
    assert a[n] in multiset(b);
    i :| 0 <= i < |b| && b[i] == a[n];
    BagWithout(a, n);
    BagWithout(b, i);
    assert a[..n] + a[n + 1..] == a[..n];
    Cancel(multiset(a[..n]), multiset(b[..i] + b[i + 1..]), a[n]);
  }

  /** The signature does not depend on the order of the roms. */
  lemma {:induction false} SignatureOrderFree(a: seq<string>, b: seq<string>)
    requires multiset(a) == multiset(b)
    ensures SortedHashes(a) == SortedHashes(b)
    decreases |a|
  {
    SameBag(a, b);
    if a != [] {
      var i := FindLast(a, b);
      FoldLast(b, i);
      SignatureOrderFree(a[..|a| - 1], b[..i] + b[i + 1..]);
    }
  }

  // ---------- The diff ----------

  datatype Diff = Diff(added: nat, removed: nat, changed: nat)

  function SigOf(g: DatGame): Signature { CatalogSignature(g.size, g.sha1s) }

  function Names(games: seq<DatGame>, n: nat): set<string>
    requires n <= |games|
  {
    set i | 0 <= i < n :: games[i].name
  }

  ghost predicate DistinctNames(games: seq<DatGame>) {
    forall i, j :: 0 <= i < j < |games| ==> games[i].name != games[j].name
  }

  function CountNew(known: set<string>, games: seq<DatGame>): nat {
    if games == [] then 0
    else CountNew(known, games[..|games| - 1]) + if games[|games| - 1].name in known then 0 else 1
  }

  function CountChanged(prev: map<string, Signature>, games: seq<DatGame>): nat {
    if games == [] then 0
    else
      var g := games[|games| - 1];
      CountChanged(prev, games[..|games| - 1]) + if g.name in prev && prev[g.name] != SigOf(g) then 1 else 0
  }

  lemma NamesPush(games: seq<DatGame>, i: nat)
    requires i < |games|
    ensures Names(games, i + 1) == Names(games, i) + {games[i].name}
  {
  }

  lemma CountPush(prev: map<string, Signature>, games: seq<DatGame>, i: nat)
    requires i < |games|
    ensures CountNew(prev.Keys, games[..i + 1])
            == CountNew(prev.Keys, games[..i]) + if games[i].name in prev then 0 else 1
    ensures CountChanged(prev, games[..i + 1]) ==
            CountChanged(prev, games[..i])
            + if games[i].name in prev && prev[games[i].name] != SigOf(games[i]) then 1 else 0
  {
    assert games[..i + 1][..i] == games[..i];
  }

  ghost function DiffOf(prev: map<string, Signature>, games: seq<DatGame>): Diff {
    Diff(CountNew(prev.Keys, games), |prev.Keys - Names(games, |games|)|, CountChanged(prev, games))
  }

  method DiffCatalog(prev: map<string, Signature>, games: seq<DatGame>) returns (d: Diff)
    ensures d == DiffOf(prev, games)
  {
    var seen: set<string> := {};
    var added, changed: nat := 0, 0;
    for i := 0 to |games|
      invariant seen == Names(games, i)
      invariant added == CountNew(prev.Keys, games[..i]) && changed == CountChanged(prev, games[..i])
    {
      var g := games[i];
      var sig := CatalogSignature(g.size, g.sha1s);
      NamesPush(games, i);
      CountPush(prev, games, i);
      seen := seen + {g.name};
      if g.name !in prev {
        added := added + 1;
      } else if prev[g.name] != sig {
        changed := changed + 1;
      }
    }
    assert games[..|games|] == games;
    var removed := CountRemoved(prev.Keys, seen);
    d := Diff(added, removed, changed);
  }

  lemma RemovedStep(prev: set<string>, todo: set<string>, seen: set<string>, name: string)
    requires todo <= prev && name in todo
    ensures |prev - (todo - {name}) - seen| == |prev - todo - seen| + if name in seen then 0 else 1
  {
    var before := prev - todo - seen;
    assert prev - (todo - {name}) - seen == if name in seen then before else before + {name};
  }

  /** The loop over the previous names, in any order. */
  method CountRemoved(prev: set<string>, seen: set<string>) returns (removed: nat)
    ensures removed == |prev - seen|
  {
    var todo := prev;
    removed := 0;
    assert prev - todo - seen == {};
    while todo != {}
      invariant todo <= prev && removed == |prev - todo - seen|
      decreases todo
    {
      var name :| name in todo;
      RemovedStep(prev, todo, seen, name);
      todo := todo - {name};
      if name !in seen {
        removed := removed + 1;
      }
    }
    assert prev - todo - seen == prev - seen;
  }

  /** `changed` is the number of rows of a known name whose signature is not the one known. */
  lemma {:induction false} ChangedRows(prev: map<string, Signature>, games: seq<DatGame>, n: nat)
    requires n <= |games|
    ensures CountChanged(prev, games[..n]) ==
            |set i | 0 <= i < n && games[i].name in prev && prev[games[i].name] != SigOf(games[i])|
  {
    if n > 0 {
      var m := n - 1;
      ChangedRows(prev, games, m);
      CountPush(prev, games, m);
      var before := set i | 0 <= i < m && games[i].name in prev && prev[games[i].name] != SigOf(games[i]);
      var more: set<int> := if games[m].name in prev && prev[games[m].name] != SigOf(games[m]) then {m} else {};
      assert (set i | 0 <= i < n && games[i].name in prev && prev[games[i].name] != SigOf(games[i])) == before + more;
    } else {
      assert games[..0] == [];
    }
  }

  lemma {:induction false} NamesSize(games: seq<DatGame>, n: nat)
    requires n <= |games| && DistinctNames(games)
    ensures |Names(games, n)| == n
  {
    if n > 0 {
      NamesSize(games, n - 1);
      NamesPush(games, n - 1);
      assert games[n - 1].name !in Names(games, n - 1);
    }
  }

  lemma OneMore(before: set<string>, x: string, known: set<string>)
    requires x !in before
    ensures |(before + {x}) - known| == |before - known| + if x in known then 0 else 1
  {
    if x in known {
      assert (before + {x}) - known == before - known;
    } else {
      assert (before + {x}) - known == (before - known) + {x};
    }
  }

  lemma AddedStep(known: set<string>, games: seq<DatGame>, i: nat)
    requires i < |games| && DistinctNames(games)
    ensures |Names(games, i + 1) - known|
            == |Names(games, i) - known| + CountNew(known, games[..i + 1]) - CountNew(known, games[..i])
  {
    var before := Names(games, i);
    assert games[i].name !in before;
    NamesPush(games, i);
    OneMore(before, games[i].name, known);
    assert games[..i + 1][..i] == games[..i];
  }

  /** For distinct names, `added` is the number of names that were not there. */
  lemma {:induction false} AddedNames(known: set<string>, games: seq<DatGame>, n: nat)
    requires n <= |games| && DistinctNames(games)
    ensures |Names(games, n) - known| == CountNew(known, games[..n])
  {
    if n == 0 {
      assert games[..0] == [];
      assert Names(games, 0) == {};
    } else {
      AddedNames(known, games, n - 1);
      AddedStep(known, games, n - 1);
    }
  }

  lemma SplitSize<T>(a: set<T>, b: set<T>)
    ensures |a| == |a - b| + |a * b|
  {
    assert a == (a - b) + (a * b);
  }

  /** For distinct names, what was there plus what came equals what is there plus what went. */
  lemma DiffBalances(prev: map<string, Signature>, games: seq<DatGame>)
    requires DistinctNames(games)
    ensures |prev| + DiffOf(prev, games).added == |games| + DiffOf(prev, games).removed
  {
    var now := Names(games, |games|);
    NamesSize(games, |games|);
    AddedNames(prev.Keys, games, |games|);
    assert games[..|games|] == games;
    SplitSize(prev.Keys, now);
    SplitSize(now, prev.Keys);
    assert prev.Keys * now == now * prev.Keys;
  }
}
