/** internal/db/library.go `GetAllLibraryTitles` and the title index `NewCycle` builds from it
    (internal/collectionsvc/service.go): two first-writer-wins passes against one plain scan.

    `ownershipKeys` stands for the title expansion of the release-name parser. */
module TitleIndex {
  import opened Options
  import opened Text

  datatype Item = Item(id: int, title: string, slug: string)

  /** Library rows as `ORDER BY id` returns them. */
  ghost predicate ById(rows: seq<Item>) { forall i, j :: 0 <= i < j < |rows| ==> rows[i].id < rows[j].id }

  function Norm(title: string): string { Lower(Trim(title)) }

  function KeyOf(x: Item): string { Norm(x.title) + "|" + x.slug }

  /** strings.LastIndex(s, "|"), or |s| when there is none. */
  function LastBar(s: string): (i: nat)
    ensures i <= |s|
    ensures i < |s| ==> s[i] == '|' && '|' !in s[i + 1..]
    ensures i == |s| ==> '|' !in s
  {
    if s == "" then 0
    else
      var rest := LastBar(s[1..]);
      if rest < |s| - 1 then
        assert s[1..][rest + 1..] == s[rest + 2..];
        rest + 1
      else if s[0] == '|' then 0
      else |s|
  }

  lemma {:induction false} LastBarOf(t: string, slug: string)
    requires '|' !in slug
    ensures LastBar(t + "|" + slug) == |t|
  {
    var s := t + "|" + slug;
    if t == "" {
      assert s[1..] == slug;
    } else {
      assert s[1..] == t[1..] + "|" + slug;
      LastBarOf(t[1..], slug);
    }
  }

  /** Equal keys come from equal titles and slugs, as long as slugs hold no bar. */
  lemma KeySplits(x: Item)
    requires '|' !in x.slug
    ensures var key, cut := KeyOf(x), LastBar(KeyOf(x));
            cut < |key| && key[..cut] == Norm(x.title) && key[cut + 1..] == x.slug
  {
    LastBarOf(Norm(x.title), x.slug);
  }

  // ---------- First pass: one row per title and platform ----------

  method GetAllLibraryTitles(rows: seq<Item>) returns (titles: map<string, Item>)
    requires ById(rows)
    ensures forall x :: x in rows ==> KeyOf(x) in titles && titles[KeyOf(x)].id <= x.id
    ensures forall key :: key in titles ==> titles[key] in rows && KeyOf(titles[key]) == key
  {
    titles := map[];
    for i := 0 to |rows|
      invariant forall k :: 0 <= k < i ==> KeyOf(rows[k]) in titles && titles[KeyOf(rows[k])].id <= rows[k].id
      invariant forall key :: key in titles ==> titles[key] in rows[..i] && KeyOf(titles[key]) == key
    {
      var key := KeyOf(rows[i]);
      if key !in titles {
        titles := titles[key := rows[i]];
      }
    }
  }

  // ---------- Second pass: ownership keys per platform ----------

  type Index = map<string, map<string, Item>>

  function Lookup(index: Index, slug: string, k: string): Option<Item> {
    if slug in index && k in index[slug] then Some(index[slug][k]) else None
  }

  ghost predicate Answers(x: Item, slug: string, k: string, ownershipKeys: string -> seq<string>) {
    x.slug == slug && k in ownershipKeys(Lower(Trim(x.title)))
  }

  /** The plain scan: the lowest-id row of the platform that answers to the key. */
  ghost predicate IsScan(rows: seq<Item>, slug: string, k: string, ownershipKeys: string -> seq<string>,
                         r: Option<Item>) {
    match r
    case None => forall x :: x in rows ==> !Answers(x, slug, k, ownershipKeys)
    case Some(y) => y in rows && Answers(y, slug, k, ownershipKeys)
                    && forall x :: x in rows && Answers(x, slug, k, ownershipKeys) ==> y.id <= x.id
  }

  method LowestKey(titles: map<string, Item>, todo: set<string>) returns (key: string)
    requires todo != {} && todo <= titles.Keys
    ensures key in todo && forall x :: x in todo ==> titles[key].id <= titles[x].id
  {
    key :| key in todo;
    var rest := todo - {key};
    while rest != {}
      invariant rest <= todo && key in todo
      invariant forall x :: x in todo && x !in rest ==> titles[key].id <= titles[x].id
      decreases |rest|
    {
      var x :| x in rest;
      rest := rest - {x};
      if titles[x].id < titles[key].id {
        key := x;
      }
    }
  }

  /** The keys ordered by the id of their row; `titles` is walked in any order. */
  method SortedKeys(titles: map<string, Item>) returns (keys: seq<string>)
    ensures forall key :: key in keys <==> key in titles
    ensures forall i, j :: 0 <= i < j < |keys| ==> titles[keys[i]].id <= titles[keys[j]].id
  {
    keys := [];
    var todo := titles.Keys;
    while todo != {}
      invariant todo <= titles.Keys && forall key :: key in keys <==> key in titles && key !in todo
      invariant forall i, j :: 0 <= i < j < |keys| ==> titles[keys[i]].id <= titles[keys[j]].id
      invariant forall i, x :: 0 <= i < |keys| && x in todo ==> titles[keys[i]].id <= titles[x].id
      decreases |todo|
    {
      var key := LowestKey(titles, todo);
      keys := keys + [key];
      todo := todo - {key};
    }
  }

  /** First-writer-wins insertion of every ownership key of one row. */
  method AddItem(index: Index, slug: string, keys: seq<string>, x: Item) returns (out: Index)
    ensures forall s, k ::
      Lookup(out, s, k) == if s == slug && k in keys && Lookup(index, s, k).None? then Some(x) else Lookup(index, s, k)
  {
    var byTitle := if slug in index then index[slug] else map[];
    ghost var before := byTitle;
    for i := 0 to |keys|
      invariant forall k :: k in byTitle <==> k in before || k in keys[..i]
      invariant forall k :: k in byTitle ==> byTitle[k] == if k in before then before[k] else x
    {
      if keys[i] !in byTitle {
        byTitle := byTitle[keys[i] := x];
      }
    }
    out := index[slug := byTitle];
  }

  // ---------- What is built, whatever the slugs ----------

  /** A key cut at its last bar, as the second pass does: the title it is filed under, and the platform. */
  function Filed(x: Item): (r: (string, string))
    ensures '|' !in r.1
  {
    var key, cut := KeyOf(x), LastBar(KeyOf(x));
    assert key[|Norm(x.title)|] == '|';
    (key[..cut], key[cut + 1..])
  }

  predicate FiledUnder(x: Item, slug: string, k: string, ownershipKeys: string -> seq<string>) {
    Filed(x).1 == slug && k in ownershipKeys(Filed(x).0)
  }

  /** The lowest-id row of its key. */
  ghost predicate IsFirst(rows: seq<Item>, x: Item) {
    x in rows && forall y :: y in rows && KeyOf(y) == KeyOf(x) ==> x.id <= y.id
  }

  /** The lowest-id row among `done` that is filed under the key. */
  ghost predicate IsFiled(done: seq<Item>, slug: string, k: string, ownershipKeys: string -> seq<string>,
                          r: Option<Item>) {
    match r
    case None => forall x :: x in done ==> !FiledUnder(x, slug, k, ownershipKeys)
    case Some(y) => y in done && FiledUnder(y, slug, k, ownershipKeys)
                    && forall x :: x in done && FiledUnder(x, slug, k, ownershipKeys) ==> y.id <= x.id
  }

  /** What the index answers: the lowest-id row filed under the key among the first rows of their keys. */
  ghost predicate IsBuilt(rows: seq<Item>, slug: string, k: string, ownershipKeys: string -> seq<string>,
                          r: Option<Item>) {
    match r
    case None => forall x :: IsFirst(rows, x) ==> !FiledUnder(x, slug, k, ownershipKeys)
    case Some(y) => IsFirst(rows, y) && FiledUnder(y, slug, k, ownershipKeys)
                    && forall x :: IsFirst(rows, x) && FiledUnder(x, slug, k, ownershipKeys) ==> y.id <= x.id
  }

  lemma CutIsFiled(x: Item)
    ensures var key := KeyOf(x); LastBar(key) < |key| && (key[..LastBar(key)], key[LastBar(key) + 1..]) == Filed(x)
  {
    assert KeyOf(x)[|Norm(x.title)|] == '|';
  }

  /** Adding the row with the highest id so far. */
  lemma FiledPush(done: seq<Item>, x: Item, slug: string, k: string, ownershipKeys: string -> seq<string>,
                  r: Option<Item>)
    requires IsFiled(done, slug, k, ownershipKeys, r) && forall y :: y in done ==> y.id <= x.id
    ensures IsFiled(done + [x], slug, k, ownershipKeys,
                    if FiledUnder(x, slug, k, ownershipKeys) && r.None? then Some(x) else r)
  {
  }

  lemma FiledStep(done: seq<Item>, x: Item, before: Index, after: Index, ownershipKeys: string -> seq<string>)
    requires forall s, k :: IsFiled(done, s, k, ownershipKeys, Lookup(before, s, k))
    requires forall y :: y in done ==> y.id <= x.id
    requires forall s, k ::
      Lookup(after, s, k) == if FiledUnder(x, s, k, ownershipKeys) && Lookup(before, s, k).None? then Some(x)
                             else Lookup(before, s, k)
    ensures forall s, k :: IsFiled(done + [x], s, k, ownershipKeys, Lookup(after, s, k))
  {
    forall s, k
      ensures IsFiled(done + [x], s, k, ownershipKeys, Lookup(after, s, k))
    {
      FiledPush(done, x, s, k, ownershipKeys, Lookup(before, s, k));
    }
  }

  /** The representatives under the first n keys. */
  ghost function RowsOf(titles: map<string, Item>, keys: seq<string>, n: nat): (rows: seq<Item>)
    requires n <= |keys| && forall key :: key in keys ==> key in titles
    ensures |rows| == n
  {
    if n == 0 then [] else RowsOf(titles, keys, n - 1) + [titles[keys[n - 1]]]
  }

  lemma {:induction false} RowsOfIs(titles: map<string, Item>, keys: seq<string>, n: nat)
    requires n <= |keys| && forall key :: key in keys ==> key in titles
    ensures forall i :: 0 <= i < n ==> RowsOf(titles, keys, n)[i] == titles[keys[i]]
  {
    if n > 0 {
      RowsOfIs(titles, keys, n - 1);
    }
  }

  ghost predicate AllFiled(done: seq<Item>, ownershipKeys: string -> seq<string>, index: Index) {
    forall slug, k :: IsFiled(done, slug, k, ownershipKeys, Lookup(index, slug, k))
  }

  /** One turn of the loop: the row joins the index under the two halves of its key. */
  method IndexTitle(index: Index, key: string, x: Item, ownershipKeys: string -> seq<string>, ghost done: seq<Item>)
    returns (out: Index)
    requires KeyOf(x) == key && AllFiled(done, ownershipKeys, index) && forall y :: y in done ==> y.id <= x.id
    ensures AllFiled(done + [x], ownershipKeys, out)
  {
    CutIsFiled(x);
    var cut := LastBar(key);
    var titleish, slug := key[..cut], key[cut + 1..];
    out := AddItem(index, slug, ownershipKeys(titleish), x);
    FiledStep(done, x, index, out, ownershipKeys);
  }

  method IndexTitles(titles: map<string, Item>, ownershipKeys: string -> seq<string>)
    returns (index: Index, ghost done: seq<Item>)
    requires forall key :: key in titles ==> KeyOf(titles[key]) == key
    ensures AllFiled(done, ownershipKeys, index)
    ensures forall x :: x in done <==> exists key :: key in titles && titles[key] == x
  {
    var keys := SortedKeys(titles);
    index, done := map[], [];
    for i := 0 to |keys|
      invariant done == RowsOf(titles, keys, i) && AllFiled(done, ownershipKeys, index)
    {
      RowsOfIs(titles, keys, i);
      index := IndexTitle(index, keys[i], titles[keys[i]], ownershipKeys, done);
      done := done + [titles[keys[i]]];
    }
    RowsOfIs(titles, keys, |keys|);
    assert forall key :: key in titles ==> key in keys;
  }

  /** The two passes over any library rows, whatever the map order. */
  method NewCycle(rows: seq<Item>, ownershipKeys: string -> seq<string>) returns (index: Index)
    requires ById(rows)
    ensures forall slug, k :: IsBuilt(rows, slug, k, ownershipKeys, Lookup(index, slug, k))
  {
    var titles := GetAllLibraryTitles(rows);
    ghost var done;
    index, done := IndexTitles(titles, ownershipKeys);
    FirstRows(rows, titles);
    forall slug, k
      ensures IsBuilt(rows, slug, k, ownershipKeys, Lookup(index, slug, k))
    {
      assert IsFiled(done, slug, k, ownershipKeys, Lookup(index, slug, k));
    }
  }

  lemma SameId(rows: seq<Item>, x: Item, y: Item)
    requires ById(rows) && x in rows && y in rows && x.id == y.id
    ensures x == y
  {
    var i :| 0 <= i < |rows| && rows[i] == x;
    var j :| 0 <= j < |rows| && rows[j] == y;
  }

  /** The first pass keeps exactly the first row of every key. */
  lemma FirstRows(rows: seq<Item>, titles: map<string, Item>)
    requires ById(rows)
    requires forall x :: x in rows ==> KeyOf(x) in titles && titles[KeyOf(x)].id <= x.id
    requires forall key :: key in titles ==> titles[key] in rows && KeyOf(titles[key]) == key
    ensures forall x :: IsFirst(rows, x) <==> exists key :: key in titles && titles[key] == x
  {
    forall x | IsFirst(rows, x)
      ensures KeyOf(x) in titles && titles[KeyOf(x)] == x
    {
      SameId(rows, x, titles[KeyOf(x)]);
    }
    forall key | key in titles
      ensures IsFirst(rows, titles[key])
    {
    }
  }

  // ---------- When that is the plain scan ----------

  ghost predicate NoBars(rows: seq<Item>) { forall x :: x in rows ==> '|' !in x.slug }

  /** Every row's title expands to some ownership key, as every title that is not blank does. */
  ghost predicate Titled(rows: seq<Item>, ownershipKeys: string -> seq<string>) {
    forall x :: x in rows ==> ownershipKeys(Norm(x.title)) != []
  }

  lemma FiledIsAnswers(x: Item, slug: string, k: string, ownershipKeys: string -> seq<string>)
    requires '|' !in x.slug
    ensures FiledUnder(x, slug, k, ownershipKeys) <==> Answers(x, slug, k, ownershipKeys)
  {
    KeySplits(x);
  }

  lemma FirstOf(rows: seq<Item>, x: Item) returns (y: Item)
    requires ById(rows) && x in rows
    ensures IsFirst(rows, y) && KeyOf(y) == KeyOf(x) && y.id <= x.id
  {
    var i := 0;
    while KeyOf(rows[i]) != KeyOf(x)
      invariant 0 <= i < |rows| && x in rows[i..]
      invariant forall j :: 0 <= j < i ==> KeyOf(rows[j]) != KeyOf(x)
      decreases |rows| - i
    {
      i := i + 1;
    }
    y := rows[i];
    forall z | z in rows && KeyOf(z) == KeyOf(y)
      ensures y.id <= z.id
    {
      var j :| 0 <= j < |rows| && rows[j] == z;
    }
  }

  /** Without bars the first row of a key answers for all rows of the key, and the index is the scan. */
  lemma BuiltIsScan(rows: seq<Item>, slug: string, k: string, ownershipKeys: string -> seq<string>, r: Option<Item>)
    requires ById(rows) && NoBars(rows) && IsBuilt(rows, slug, k, ownershipKeys, r)
    ensures IsScan(rows, slug, k, ownershipKeys, r)
  {
    if r.Some? {
      FiledIsAnswers(r.value, slug, k, ownershipKeys);
    }
    forall x | x in rows && Answers(x, slug, k, ownershipKeys)
      ensures r.Some? && r.value.id <= x.id
    {
      var y := FirstOf(rows, x);
      KeySplits(x);
      KeySplits(y);
      FiledIsAnswers(y, slug, k, ownershipKeys);
    }
  }

  /** A row on a platform whose slug holds a bar is never found there. */
  lemma BarredRowIsLost(rows: seq<Item>, x: Item, k: string, ownershipKeys: string -> seq<string>, r: Option<Item>)
    requires x in rows && '|' in x.slug && k in ownershipKeys(Norm(x.title))
    requires IsBuilt(rows, x.slug, k, ownershipKeys, r)
    ensures r == None && !IsScan(rows, x.slug, k, ownershipKeys, r)
  {
    assert Answers(x, x.slug, k, ownershipKeys);
  }

  /** The index is the plain scan, for every platform and key, if and only if no slug holds a bar. */
  lemma ScanIffNoBars(rows: seq<Item>, ownershipKeys: string -> seq<string>, index: Index)
    requires ById(rows) && Titled(rows, ownershipKeys)
    requires forall slug, k :: IsBuilt(rows, slug, k, ownershipKeys, Lookup(index, slug, k))
    ensures (forall slug, k :: IsScan(rows, slug, k, ownershipKeys, Lookup(index, slug, k))) <==> NoBars(rows)
  {
    if NoBars(rows) {
      forall slug, k
        ensures IsScan(rows, slug, k, ownershipKeys, Lookup(index, slug, k))
      {
        BuiltIsScan(rows, slug, k, ownershipKeys, Lookup(index, slug, k));
      }
    } else {
      var x :| x in rows && '|' in x.slug;
      var k := ownershipKeys(Norm(x.title))[0];
      BarredRowIsLost(rows, x, k, ownershipKeys, Lookup(index, x.slug, k));
    }
  }

  lemma FiledAs(x: Item, t: string, slug: string)
    requires KeyOf(x) == t + "|" + slug && '|' !in slug
    ensures Filed(x) == (t, slug)
  {
    LastBarOf(t, slug);
    assert (t + "|" + slug)[..|t|] == t && (t + "|" + slug)[|t| + 1..] == slug;
  }

  const BARRED: Item := Item(1, "t", "a|b")
  const SHADOWED: Item := Item(2, "t|a", "b")

  lemma OneKey()
    ensures KeyOf(BARRED) == KeyOf(SHADOWED) == "t|a" + "|" + "b"
    ensures Norm("t") == "t" && Norm("t|a") == "t|a"
    ensures Filed(BARRED) == Filed(SHADOWED) == ("t|a", "b")
  {
    assert Lower("t") == "t" && Lower("t|a") == "t|a";
    TrimKeeps("t|a");
    FiledAs(BARRED, "t|a", "b");
    FiledAs(SHADOWED, "t|a", "b");
  }

  lemma BarredComesFirst(rows: seq<Item>, ownershipKeys: string -> seq<string>, r: Option<Item>)
    requires rows == [BARRED, SHADOWED] && "t|a" in ownershipKeys("t|a")
    requires IsBuilt(rows, "b", "t|a", ownershipKeys, r)
    ensures r == Some(BARRED)
  {
    OneKey();
    assert forall z :: z in rows ==> z == BARRED || z == SHADOWED;
    assert IsFirst(rows, BARRED) && FiledUnder(BARRED, "b", "t|a", ownershipKeys);
    assert BARRED in rows && !IsFirst(rows, SHADOWED);
  }

  lemma ScanFindsShadowed(rows: seq<Item>, ownershipKeys: string -> seq<string>)
    requires rows == [BARRED, SHADOWED] && "t|a" in ownershipKeys("t|a")
    ensures IsScan(rows, "b", "t|a", ownershipKeys, Some(SHADOWED))
  {
    OneKey();
    assert forall z :: z in rows ==> z == BARRED || z == SHADOWED;
    assert SHADOWED in rows && Answers(SHADOWED, "b", "t|a", ownershipKeys);
  }

  /** Two rows of different platforms that share one key: the index hands the first platform's row to
      the second platform, where the scan finds another, and the first platform finds nothing. */
  lemma BarInSlugMisfiles(rows: seq<Item>, ownershipKeys: string -> seq<string>, index: Index)
    requires rows == [BARRED, SHADOWED] && "t" in ownershipKeys("t") && "t|a" in ownershipKeys("t|a")
    requires forall slug, k :: IsBuilt(rows, slug, k, ownershipKeys, Lookup(index, slug, k))
    ensures Lookup(index, "b", "t|a") == Some(BARRED)
    ensures IsScan(rows, "b", "t|a", ownershipKeys, Some(SHADOWED))
    ensures Lookup(index, "a|b", "t") == None && Answers(BARRED, "a|b", "t", ownershipKeys)
  {
    OneKey();
    BarredComesFirst(rows, ownershipKeys, Lookup(index, "b", "t|a"));
    ScanFindsShadowed(rows, ownershipKeys);
    assert BARRED in rows && '|' in BARRED.slug;
    BarredRowIsLost(rows, BARRED, "t", ownershipKeys, Lookup(index, "a|b", "t"));
  }

  lemma TrimKeeps(s: string)
    requires s != "" && !IsSpace(s[0]) && !IsSpace(s[|s| - 1])
    ensures Trim(s) == s
  {
  }
}
