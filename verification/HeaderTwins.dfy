/** internal/collectionsvc/headertwins.go: folding the header-stripped publication of a dump
    into its headered twin. */
module HeaderTwins {
  import opened Text

  datatype Rom = Rom(name: string, md5: string, sha1: string)

  /** `rest` stands for the scalar fields a merge leaves alone. */
  datatype Row = Row(name: string, rest: string, roms: seq<Rom>)

  /** filepath.Ext: from the last dot of the last path element. */
  function ExtFrom(name: string, i: nat): string
    requires i <= |name|
    decreases i
  {
    if i == 0 || name[i - 1] == '/' then "" else if name[i - 1] == '.' then name[i - 1..] else ExtFrom(name, i - 1)
  }

  function Ext(name: string): string { ExtFrom(name, |name|) }

  predicate IsUnheadered(name: string) { Lower(Ext(name)) == ".unh" }

  /** strings.TrimSuffix(name, Ext(name)). */
  function RomStem(name: string): string {
    if |Ext(name)| <= |name| then name[..|name| - |Ext(name)|] else name
  }

  /** A name is its stem and its extension; the extension starts at the last dot, unless a slash comes after it. */
  ghost predicate Extends(name: string, stem: string, ext: string) {
    && name == stem + ext && '/' !in ext
    && if ext == "" then forall i :: 0 <= i < |name| && name[i] == '.' ==> '/' in name[i..]
       else ext[0] == '.' && '.' !in ext[1..]
  }

  lemma {:induction false} ExtFromMeans(name: string, i: nat)
    requires i <= |name| && forall k :: i <= k < |name| ==> name[k] != '.' && name[k] != '/'
    ensures var ext := ExtFrom(name, i);
            |ext| <= |name| && Extends(name, name[..|name| - |ext|], ext)
  {
    if i == 0 || name[i - 1] == '/' {
      forall k | 0 <= k < |name| && name[k] == '.'
        ensures '/' in name[k..]
      {
        assert name[k..][i - 1 - k] == '/';
      }
      assert name[..|name|] == name;
    } else if name[i - 1] == '.' {
      var ext := name[i - 1..];
      assert |name| - |ext| == i - 1;
      assert name[..i - 1] + ext == name && forall k :: 1 <= k < |ext| ==> ext[k] == name[i - 1 + k];
    } else {
      ExtFromMeans(name, i - 1);
    }
  }

  lemma StemAndExt(name: string)
    ensures Extends(name, RomStem(name), Ext(name))
  {
    ExtFromMeans(name, |name|);
  }

  lemma LastDot(name: string, stem: string, ext: string)
    requires Extends(name, stem, ext) && ext != ""
    ensures |stem| < |name| && name[|stem|] == '.' && '/' !in name[|stem|..]
    ensures forall k :: |stem| < k < |name| ==> name[k] != '.'
  {
    assert name[|stem|..] == ext;
    forall k | |stem| < k < |name|
      ensures name[k] != '.'
    {
      assert name[k] == ext[1..][k - |stem| - 1];
    }
  }

  lemma ExtIsUnique(name: string, stem: string, ext: string)
    requires Extends(name, stem, ext)
    ensures stem == RomStem(name) && ext == Ext(name)
  {
    StemAndExt(name);
    var s, e := RomStem(name), Ext(name);
    if ext != "" {
      LastDot(name, stem, ext);
    }
    if e != "" {
      LastDot(name, s, e);
    }
    assert |stem| == |s|;
    assert stem == name[..|stem|] && s == name[..|s|];
  }

  /** A rom is header-stripped exactly when its name ends in ".unh", in any letter case; the stem is the rest. */
  lemma UnheaderedIff(name: string)
    ensures IsUnheadered(name) <==> |name| >= 4 && Lower(name[|name| - 4..]) == ".unh"
    ensures IsUnheadered(name) ==> RomStem(name) == name[..|name| - 4]
  {
    StemAndExt(name);
    if |name| >= 4 && Lower(name[|name| - 4..]) == ".unh" {
      var stem, ext := name[..|name| - 4], name[|name| - 4..];
      assert Lower(ext)[0] == '.' && Lower(ext)[1] == 'u' && Lower(ext)[2] == 'n' && Lower(ext)[3] == 'h';
      assert Extends(name, stem, ext);
      ExtIsUnique(name, stem, ext);
    }
    assert IsUnheadered(name) ==> |Ext(name)| == 4 && name[|name| - 4..] == Ext(name);
  }

  // ---------- Which rows are twins ----------

  /** Rows `h` and `u` are the only two of their name, have one rom each with one stem, and
      exactly the second is header-stripped. */
  predicate IsTwin(rows: seq<Row>, h: nat, u: nat) {
    && h < |rows| && u < |rows| && h != u
    && rows[h].name == rows[u].name
    && (forall i :: 0 <= i < |rows| && rows[i].name == rows[h].name ==> i == h || i == u)
    && |rows[h].roms| == 1 && |rows[u].roms| == 1
    && !IsUnheadered(rows[h].roms[0].name) && IsUnheadered(rows[u].roms[0].name)
    && RomStem(rows[h].roms[0].name) == RomStem(rows[u].roms[0].name)
  }

  predicate Folded(rows: seq<Row>, u: nat) { exists h :: 0 <= h < |rows| && IsTwin(rows, h, u) }

  /** What becomes of row `i` when it is kept: it takes its twin's roms, if it has one. */
  ghost function Kept(rows: seq<Row>, i: nat): Row
    requires i < |rows|
  {
    if u :| 0 <= u < |rows| && IsTwin(rows, i, u) then rows[i].(roms := rows[i].roms + rows[u].roms) else rows[i]
  }

  /** The indices that survive, in order. */
  function Sources(rows: seq<Row>, n: nat): seq<nat>
    requires n <= |rows|
  {
    if n == 0 then [] else Sources(rows, n - 1) + if Folded(rows, n - 1) then [] else [n - 1]
  }

  /** The rows that survive, in order. */
  ghost function CollapsedTo(rows: seq<Row>, n: nat): seq<Row>
    requires n <= |rows|
  {
    if n == 0 then [] else CollapsedTo(rows, n - 1) + if Folded(rows, n - 1) then [] else [Kept(rows, n - 1)]
  }

  ghost function Collapsed(rows: seq<Row>): seq<Row> { CollapsedTo(rows, |rows|) }

  lemma {:induction false} SourceIff(rows: seq<Row>, n: nat, i: nat)
    requires n <= |rows|
    ensures i in Sources(rows, n) <==> i < n && !Folded(rows, i)
  {
    if n > 0 {
      SourceIff(rows, n - 1, i);
    }
  }

  ghost predicate Ascends(s: seq<nat>) { forall a, b :: 0 <= a < b < |s| ==> s[a] < s[b] }

  lemma AscendPush(s: seq<nat>, x: nat)
    requires Ascends(s) && forall y :: y in s ==> y < x
    ensures Ascends(s + [x])
  {
    forall a, b | 0 <= a < b < |s + [x]|
      ensures (s + [x])[a] < (s + [x])[b]
    {
      assert s[a] in s;
    }
  }

  lemma SourcesNext(rows: seq<Row>, m: nat)
    requires m < |rows|
    ensures Sources(rows, m + 1) == Sources(rows, m) || Sources(rows, m + 1) == Sources(rows, m) + [m]
  {
    assert Sources(rows, m) + [] == Sources(rows, m);
  }

  lemma SourcesBelow(rows: seq<Row>, n: nat)
    requires n <= |rows|
    ensures forall y :: y in Sources(rows, n) ==> y < n
  {
    forall y | y in Sources(rows, n)
      ensures y < n
    {
      SourceIff(rows, n, y);
    }
  }

  lemma {:induction false} SourcesAscend(rows: seq<Row>, n: nat)
    requires n <= |rows|
    ensures Ascends(Sources(rows, n))
  {
    if n > 0 {
      var m := n - 1;
      SourcesAscend(rows, m);
      SourcesBelow(rows, m);
      AscendPush(Sources(rows, m), m);
      SourcesNext(rows, m);
    }
  }

  lemma SourcesShape(rows: seq<Row>, n: nat)
    requires n <= |rows|
    ensures var from := Sources(rows, n);
      && (forall a :: 0 <= a < |from| ==> from[a] < n && !Folded(rows, from[a]))
      && (forall a, b :: 0 <= a < b < |from| ==> from[a] < from[b])
      && (forall i :: 0 <= i < n && !Folded(rows, i) ==> i in from)
  {
    SourcesAscend(rows, n);
    forall i: nat
      ensures i in Sources(rows, n) <==> i < n && !Folded(rows, i)
    {
      SourceIff(rows, n, i);
    }
  }

  lemma {:induction false} CollapsedRows(rows: seq<Row>, n: nat)
    requires n <= |rows|
    ensures var from, out := Sources(rows, n), CollapsedTo(rows, n);
      |out| == |from| && forall a :: 0 <= a < |from| ==> from[a] < |rows| && out[a] == Kept(rows, from[a])
  {
    if n > 0 {
      CollapsedRows(rows, n - 1);
    }
  }

  lemma TwinUnique(rows: seq<Row>, h: nat, u: nat, v: nat)
    requires IsTwin(rows, h, u) && (IsTwin(rows, h, v) || IsTwin(rows, v, u))
    ensures IsTwin(rows, h, v) ==> v == u
    ensures IsTwin(rows, v, u) ==> v == h
  {
  }

  lemma KeptIs(rows: seq<Row>, h: nat, u: nat)
    requires IsTwin(rows, h, u)
    ensures Kept(rows, h) == rows[h].(roms := rows[h].roms + rows[u].roms)
  {
    var v :| 0 <= v < |rows| && IsTwin(rows, h, v);
    forall v | 0 <= v < |rows| && IsTwin(rows, h, v) ensures v == u { TwinUnique(rows, h, u, v); }
  }

  // ---------- The loops ----------

  /** `idxs` are the indices below `n` of the rows called `name`, ascending. */
  ghost predicate IsIndexList(rows: seq<Row>, name: string, n: nat, idxs: seq<nat>)
    requires n <= |rows|
  {
    && idxs != []
    && (forall i: nat :: i in idxs <==> i < n && rows[i].name == name)
    && (forall a, b :: 0 <= a < b < |idxs| ==> idxs[a] < idxs[b])
  }

  ghost predicate IsByName(rows: seq<Row>, n: nat, byName: map<string, seq<nat>>)
    requires n <= |rows|
  {
    && (forall i :: 0 <= i < n ==> rows[i].name in byName)
    && (forall name :: name in byName ==> IsIndexList(rows, name, n, byName[name]))
  }

  method ByName(rows: seq<Row>) returns (byName: map<string, seq<nat>>)
    ensures IsByName(rows, |rows|, byName)
  {
    byName := map[];
    for i := 0 to |rows|
      invariant IsByName(rows, i, byName)
    {
      var name := rows[i].name;
      var before := if name in byName then byName[name] else [];
      IndexPush(rows, name, i, before);
      byName := byName[name := before + [i]];
      forall other | other in byName && other != name
        ensures IsIndexList(rows, other, i + 1, byName[other])
      {
        assert IsIndexList(rows, other, i, byName[other]);
      }
    }
  }

  lemma IndexPush(rows: seq<Row>, name: string, i: nat, before: seq<nat>)
    requires i < |rows| && rows[i].name == name
    requires IsIndexList(rows, name, i, before) || (before == [] && forall k :: 0 <= k < i ==> rows[k].name != name)
    ensures IsIndexList(rows, name, i + 1, before + [i])
  {
    assert forall k: nat :: k in before + [i] <==> k in before || k == i;
    assert forall a :: 0 <= a < |before| ==> before[a] in before;
  }

  lemma TwinsAreTwo(rows: seq<Row>, name: string, idxs: seq<nat>, x: nat, y: nat)
    requires IsIndexList(rows, name, |rows|, idxs) && IsTwin(rows, x, y) && rows[x].name == name
    ensures |idxs| == 2
  {
    assert x in idxs && y in idxs;
    assert Elements(idxs) == {x, y};
    AscendingSize(idxs);
  }

  ghost function Elements(s: seq<nat>): set<nat> { set i | i in s }

  lemma {:induction false} AscendingSize(s: seq<nat>)
    requires forall a, b :: 0 <= a < b < |s| ==> s[a] < s[b]
    ensures |Elements(s)| == |s|
  {
    if s != [] {
      var init, last := s[..|s| - 1], s[|s| - 1];
      AscendingSize(init);
      assert s == init + [last];
      assert Elements(s) == Elements(init) + {last};
      assert last !in Elements(init);
    }
  }

  /** The body of the pairing loop for the indices of one name. */
  method Pair(rows: seq<Row>, name: string, idxs: seq<nat>) returns (found: bool, h: nat, u: nat)
    requires IsIndexList(rows, name, |rows|, idxs)
    ensures found ==> IsTwin(rows, h, u) && rows[h].name == name
    ensures !found ==> forall x: nat, y: nat :: IsTwin(rows, x, y) ==> rows[x].name != name
  {
    found, h, u := false, 0, 0;
    if |idxs| != 2 {
      forall x: nat, y: nat | IsTwin(rows, x, y)
        ensures rows[x].name == name ==> |idxs| == 2
      {
        if rows[x].name == name {
          TwinsAreTwo(rows, name, idxs, x, y);
        }
      }
      return;
    }
    assert forall k :: 0 <= k < |idxs| ==> idxs[k] in idxs;
    var a, b := rows[idxs[0]], rows[idxs[1]];
    assert forall x: nat :: x in idxs <==> x == idxs[0] || x == idxs[1];
    if |a.roms| != 1 || |b.roms| != 1 {
      return;
    }
    if IsUnheadered(a.roms[0].name) == IsUnheadered(b.roms[0].name) {
      return;
    }
    h, u := idxs[0], idxs[1];
    if IsUnheadered(a.roms[0].name) {
      h, u := idxs[1], idxs[0];
    }
    if RomStem(a.roms[0].name) != RomStem(b.roms[0].name) {
      return;
    }
    found := true;
  }

  /** Twins whose name has been dealt with. */
  ghost predicate IsTwinTables(rows: seq<Row>, todo: set<string>, merged: set<nat>, extra: map<nat, seq<Rom>>) {
    && (forall u: nat :: u in merged <==> exists h: nat :: IsTwin(rows, h, u) && rows[u].name !in todo)
    && (forall h: nat :: h in extra <==> exists u: nat :: IsTwin(rows, h, u) && rows[h].name !in todo)
    && (forall h: nat, u: nat :: h in extra && IsTwin(rows, h, u) ==> extra[h] == rows[u].roms)
  }

  /** Walks the names in any order. */
  method Twins(rows: seq<Row>, byName: map<string, seq<nat>>) returns (merged: set<nat>, extra: map<nat, seq<Rom>>)
    requires IsByName(rows, |rows|, byName)
    ensures IsTwinTables(rows, {}, merged, extra)
  {
    merged, extra := {}, map[];
    var todo := byName.Keys;
    while todo != {}
      invariant todo <= byName.Keys && IsTwinTables(rows, todo, merged, extra)
      decreases |todo|
    {
      var name :| name in todo;
      todo := todo - {name};
      var found, h, u := Pair(rows, name, byName[name]);
      if found {
        merged := merged + {u};
        extra := extra[h := rows[u].roms];
      }
    }
  }

  /** The two tables say, for each row, whether it goes and what it takes. */
  ghost predicate Decides(rows: seq<Row>, merged: set<nat>, extra: map<nat, seq<Rom>>, i: nat)
    requires i < |rows|
  {
    && (i in merged <==> Folded(rows, i))
    && Kept(rows, i) == if i in extra then rows[i].(roms := rows[i].roms + extra[i]) else rows[i]
  }

  lemma TablesDecide(rows: seq<Row>, merged: set<nat>, extra: map<nat, seq<Rom>>, i: nat)
    requires IsTwinTables(rows, {}, merged, extra) && i < |rows|
    ensures Decides(rows, merged, extra, i)
  {
    if i in extra {
      var u: nat :| IsTwin(rows, i, u);
      KeptIs(rows, i, u);
    }
  }

  method FindTwins(rows: seq<Row>) returns (merged: set<nat>, extra: map<nat, seq<Rom>>)
    ensures forall i :: 0 <= i < |rows| ==> Decides(rows, merged, extra, i)
  {
    var byName := ByName(rows);
    merged, extra := Twins(rows, byName);
    forall i | 0 <= i < |rows|
      ensures Decides(rows, merged, extra, i)
    {
      TablesDecide(rows, merged, extra, i);
    }
  }

  method CollapseHeaderTwins(rows: seq<Row>) returns (out: seq<Row>)
    ensures out == Collapsed(rows)
  {
    var merged, extra := FindTwins(rows);
    out := [];
    for i := 0 to |rows|
      invariant out == CollapsedTo(rows, i)
    {
      assert Decides(rows, merged, extra, i);
      if i in merged {
        continue;
      }
      if i in extra {
        out := out + [rows[i].(roms := rows[i].roms + extra[i])];
      } else {
        out := out + [rows[i]];
      }
    }
  }

  // ---------- Idempotence ----------

  /** Collapsing again changes nothing: what is left holds no twins. */
  lemma CollapseIdempotent(rows: seq<Row>)
    ensures Collapsed(Collapsed(rows)) == Collapsed(rows)
  {
    var out, from := Collapsed(rows), Sources(rows, |rows|);
    SourcesShape(rows, |rows|);
    CollapsedRows(rows, |rows|);
    forall a: nat, b: nat
      ensures !IsTwin(out, a, b)
    {
      NoTwinsLeft(rows, a, b);
    }
    NothingFolded(out, |out|);
    assert out[..|out|] == out;
  }

  lemma NoTwinsLeft(rows: seq<Row>, a: nat, b: nat)
    ensures !IsTwin(Collapsed(rows), a, b)
  {
    var out, from := Collapsed(rows), Sources(rows, |rows|);
    SourcesShape(rows, |rows|);
    CollapsedRows(rows, |rows|);
    if IsTwin(out, a, b) {
      var i, j := from[a], from[b];
      assert out[a] == Kept(rows, i) && out[b] == Kept(rows, j);
      assert out[a] == rows[i] && out[b] == rows[j];
      forall k | 0 <= k < |rows| && rows[k].name == rows[i].name && k in from
        ensures k == i || k == j
      {
        var c :| 0 <= c < |from| && from[c] == k;
        assert out[c].name == rows[k].name;
      }
      assert Folded(rows, j) || !IsTwin(rows, i, j);
      assert forall k: nat :: k < |rows| && k !in from ==> Folded(rows, k);
    }
  }

  lemma {:induction false} NothingFolded(rows: seq<Row>, n: nat)
    requires n <= |rows| && forall a: nat, b: nat :: !IsTwin(rows, a, b)
    ensures CollapsedTo(rows, n) == rows[..n]
  {
    if n > 0 {
      NothingFolded(rows, n - 1);
    }
  }

  // ---------- Conservation ----------

  function Times(roms: seq<Rom>, r: Rom): nat { multiset(roms)[r] }

  /** How often a rom occurs in the first `n` rows. */
  function RomCount(rows: seq<Row>, n: nat, r: Rom): nat
    requires n <= |rows|
  {
    if n == 0 then 0 else RomCount(rows, n - 1, r) + Times(rows[n - 1].roms, r)
  }

  /** What row `h` takes from row `u`. */
  ghost function Moved(rows: seq<Row>, h: nat, u: nat, r: Rom): nat
    requires u < |rows|
  {
    if IsTwin(rows, h, u) then Times(rows[u].roms, r) else 0
  }

  ghost function TakenBy(rows: seq<Row>, h: nat, n: nat, r: Rom): nat
    requires n <= |rows|
  {
    if n == 0 then 0 else TakenBy(rows, h, n - 1, r) + Moved(rows, h, n - 1, r)
  }

  ghost function GivenBy(rows: seq<Row>, u: nat, m: nat, r: Rom): nat
    requires u < |rows|
  {
    if m == 0 then 0 else GivenBy(rows, u, m - 1, r) + Moved(rows, m - 1, u, r)
  }

  ghost function Taken(rows: seq<Row>, m: nat, n: nat, r: Rom): nat
    requires n <= |rows|
  {
    if m == 0 then 0 else Taken(rows, m - 1, n, r) + TakenBy(rows, m - 1, n, r)
  }

  ghost function Given(rows: seq<Row>, m: nat, n: nat, r: Rom): nat
    requires n <= |rows|
  {
    if n == 0 then 0 else Given(rows, m, n - 1, r) + GivenBy(rows, n - 1, m, r)
  }

  lemma {:induction false} TakenNothing(rows: seq<Row>, m: nat, r: Rom)
    ensures Taken(rows, m, 0, r) == 0
  {
    if m > 0 {
      TakenNothing(rows, m - 1, r);
    }
  }

  lemma {:induction false} TakenColumn(rows: seq<Row>, m: nat, n: nat, r: Rom)
    requires 0 < n <= |rows|
    ensures Taken(rows, m, n, r) == Taken(rows, m, n - 1, r) + GivenBy(rows, n - 1, m, r)
  {
    if m > 0 {
      TakenColumn(rows, m - 1, n, r);
    }
  }

  /** Summing what is taken row by row is summing what is given row by row. */
  lemma {:induction false} TakenIsGiven(rows: seq<Row>, m: nat, n: nat, r: Rom)
    requires n <= |rows|
    ensures Taken(rows, m, n, r) == Given(rows, m, n, r)
  {
    if n == 0 {
      TakenNothing(rows, m, r);
    } else {
      TakenIsGiven(rows, m, n - 1, r);
      TakenColumn(rows, m, n, r);
    }
  }

  lemma {:induction false} TakenByTwin(rows: seq<Row>, h: nat, u: nat, n: nat, r: Rom)
    requires n <= |rows| && IsTwin(rows, h, u)
    ensures TakenBy(rows, h, n, r) == if u < n then Times(rows[u].roms, r) else 0
  {
    if n > 0 {
      TakenByTwin(rows, h, u, n - 1, r);
      if IsTwin(rows, h, n - 1) {
        TwinUnique(rows, h, u, n - 1);
      }
    }
  }

  lemma {:induction false} TakenByNone(rows: seq<Row>, h: nat, n: nat, r: Rom)
    requires n <= |rows| && forall u :: 0 <= u < |rows| ==> !IsTwin(rows, h, u)
    ensures TakenBy(rows, h, n, r) == 0
  {
    if n > 0 {
      TakenByNone(rows, h, n - 1, r);
    }
  }

  lemma {:induction false} GivenByTwin(rows: seq<Row>, h: nat, u: nat, m: nat, r: Rom)
    requires IsTwin(rows, h, u)
    ensures GivenBy(rows, u, m, r) == if h < m then Times(rows[u].roms, r) else 0
  {
    if m > 0 {
      GivenByTwin(rows, h, u, m - 1, r);
      if IsTwin(rows, m - 1, u) {
        TwinUnique(rows, h, u, m - 1);
      }
    }
  }

  lemma {:induction false} GivenByNone(rows: seq<Row>, u: nat, m: nat, r: Rom)
    requires u < |rows| && !Folded(rows, u) && m <= |rows|
    ensures GivenBy(rows, u, m, r) == 0
  {
    if m > 0 {
      GivenByNone(rows, u, m - 1, r);
    }
  }

  /** A row's roms are kept in place or given away, and a kept row holds its own and what it takes. */
  lemma RowBalance(rows: seq<Row>, i: nat, r: Rom)
    requires i < |rows|
    ensures if Folded(rows, i) then GivenBy(rows, i, |rows|, r) == Times(rows[i].roms, r) &&
        TakenBy(rows, i, |rows|, r) == 0
            else GivenBy(rows, i, |rows|, r) == 0
                 && Times(Kept(rows, i).roms, r) == Times(rows[i].roms, r) + TakenBy(rows, i, |rows|, r)
  {
    if h :| 0 <= h < |rows| && IsTwin(rows, h, i) {
      GivenByTwin(rows, h, i, |rows|, r);
      TakenByNone(rows, i, |rows|, r);
    } else {
      GivenByNone(rows, i, |rows|, r);
      if u :| 0 <= u < |rows| && IsTwin(rows, i, u) {
        KeptIs(rows, i, u);
        TakenByTwin(rows, i, u, |rows|, r);
      } else {
        TakenByNone(rows, i, |rows|, r);
      }
    }
  }

  ghost function KeptCount(rows: seq<Row>, n: nat, r: Rom): nat
    requires n <= |rows|
  {
    if n == 0 then 0
    else KeptCount(rows, n - 1, r) + if Folded(rows, n - 1) then 0 else Times(Kept(rows, n - 1).roms, r)
  }

  ghost predicate Balanced(rows: seq<Row>, n: nat, r: Rom)
    requires n <= |rows|
  {
    KeptCount(rows, n, r) + Given(rows, |rows|, n, r) == RomCount(rows, n, r) + Taken(rows, n, |rows|, r)
  }

  lemma BalanceStep(rows: seq<Row>, m: nat, r: Rom)
    requires m < |rows| && Balanced(rows, m, r)
    ensures Balanced(rows, m + 1, r)
  {
    RowBalance(rows, m, r);
  }

  lemma {:induction false} KeptBalance(rows: seq<Row>, n: nat, r: Rom)
    requires n <= |rows|
    ensures Balanced(rows, n, r)
  {
    if n > 0 {
      var m := n - 1;
      KeptBalance(rows, m, r);
      BalanceStep(rows, m, r);
      assert n == m + 1;
    }
  }

  lemma {:induction false} RomCountPrefix(a: seq<Row>, b: seq<Row>, n: nat, r: Rom)
    requires n <= |a|
    ensures RomCount(a + b, n, r) == RomCount(a, n, r)
  {
    if n > 0 {
      RomCountPrefix(a, b, n - 1, r);
    }
  }

  lemma RomCountPush(init: seq<Row>, k: Row, r: Rom)
    ensures RomCount(init + [k], |init| + 1, r) == RomCount(init, |init|, r) + Times(k.roms, r)
  {
    RomCountPrefix(init, [k], |init|, r);
  }

  /** The roms of the first n collapsed rows are those of the first n rows kept. */
  ghost predicate Counted(rows: seq<Row>, n: nat, r: Rom)
    requires n <= |rows|
  {
    var out := CollapsedTo(rows, n);
    RomCount(out, |out|, r) == KeptCount(rows, n, r)
  }

  lemma KeptNext(rows: seq<Row>, m: nat, r: Rom) returns (k: Row)
    requires m < |rows| && !Folded(rows, m)
    ensures CollapsedTo(rows, m + 1) == CollapsedTo(rows, m) + [k]
    ensures KeptCount(rows, m + 1, r) == KeptCount(rows, m, r) + Times(k.roms, r)
  {
    k := Kept(rows, m);
  }

  lemma CollapsedStep(rows: seq<Row>, m: nat, r: Rom)
    requires m < |rows| && Counted(rows, m, r)
    ensures Counted(rows, m + 1, r)
  {
    if Folded(rows, m) {
      assert CollapsedTo(rows, m + 1) == CollapsedTo(rows, m);
    } else {
      var k := KeptNext(rows, m, r);
      RomCountPush(CollapsedTo(rows, m), k, r);
    }
  }

  lemma {:induction false} CollapsedCount(rows: seq<Row>, n: nat, r: Rom)
    requires n <= |rows|
    ensures Counted(rows, n, r)
  {
    if n > 0 {
      var m := n - 1;
      CollapsedCount(rows, m, r);
      CollapsedStep(rows, m, r);
      assert n == m + 1;
    }
  }

  /** Collapsing loses and invents no rom. */
  lemma RomsConserved(rows: seq<Row>, r: Rom)
    ensures RomCount(Collapsed(rows), |Collapsed(rows)|, r) == RomCount(rows, |rows|, r)
  {
    CollapsedCount(rows, |rows|, r);
    KeptBalance(rows, |rows|, r);
    TakenIsGiven(rows, |rows|, |rows|, r);
  }
}
