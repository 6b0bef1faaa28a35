/** internal/db/dat.go: how the signature of a stored game is read back (`datGameSignatures`). Its hashes
    are concatenated with commas by the database and split at commas again, so a hash that holds a comma
    comes back in pieces. */
module StoredHashes {
  import opened Text
  import opened Collection
  import opened DatStore

  /** Every hash split at its commas, in order. */
  function Cut(hs: seq<string>): seq<string> { if hs == [] then [] else Split(hs[0]) + Cut(hs[1..]) }

  // ---------- Splitting undoes joining, up to commas inside ----------

  /** What splitting does with one more character in front. */
  function InFront(c: char, pieces: seq<string>): seq<string>
    requires pieces != []
  {
    if c == ',' then [""] + pieces else [[c] + pieces[0]] + pieces[1..]
  }

  lemma InFrontConcat(c: char, a: seq<string>, b: seq<string>)
    requires a != []
    ensures InFront(c, a + b) == InFront(c, a) + b
  {
    if c != ',' {
      assert (a + b)[1..] == a[1..] + b;
    }
  }

  lemma {:induction false} SplitAt(h: string, rest: string)
    ensures Split(h + "," + rest) == Split(h) + Split(rest)
  {
    var s := h + "," + rest;
    if h == "" {
      assert s[1..] == rest;
    } else {
      SplitAt(h[1..], rest);
      assert s[0] == h[0] && s[1..] == h[1..] + "," + rest;
      assert Split(s) == InFront(h[0], Split(s[1..]));
      InFrontConcat(h[0], Split(h[1..]), Split(rest));
    }
  }

  lemma {:induction false} SplitJoin(hs: seq<string>)
    ensures Split(Join(hs)) == if hs == [] then [""] else Cut(hs)
  {
    if |hs| == 1 {
      assert hs[1..] == [] && Cut(hs) == Split(hs[0]) + [];
    } else if |hs| > 1 {
      SplitAt(hs[0], Join(hs[1..]));
      SplitJoin(hs[1..]);
    }
  }

  lemma JoinInFront(c: char, pieces: seq<string>)
    requires pieces != []
    ensures Join(InFront(c, pieces)) == [c] + Join(pieces)
  {
    if c == ',' {
      assert ([""] + pieces)[1..] == pieces;
      assert "" + "," + Join(pieces) == "," + Join(pieces);
    } else if |pieces| > 1 {
      var rest := Join(pieces[1..]);
      assert ([c] + pieces[0]) + "," + rest == [c] + (pieces[0] + "," + rest);
    }
  }

  lemma {:induction false} JoinSplit(s: string)
    ensures Join(Split(s)) == s
  {
    if s != "" {
      JoinSplit(s[1..]);
      JoinInFront(s[0], Split(s[1..]));
      assert s == [s[0]] + s[1..] && Split(s) == InFront(s[0], Split(s[1..]));
    }
  }

  lemma {:induction false} SplitPlain(h: string)
    requires ',' !in h
    ensures Split(h) == [h]
  {
    if h != "" {
      SplitPlain(h[1..]);
      assert h[0] in h;
      assert [h[0]] + h[1..] == h;
    }
  }

  ghost predicate CommaFree(hs: seq<string>) { forall h :: h in hs ==> ',' !in h }

  lemma {:induction false} CutPlain(hs: seq<string>)
    requires CommaFree(hs)
    ensures Cut(hs) == hs
  {
    if hs != [] {
      SplitPlain(hs[0]);
      CutPlain(hs[1..]);
      assert [hs[0]] + hs[1..] == hs;
    }
  }

  // ---------- How often a trimmed, non-blank hash occurs in a list ----------

  ghost function Once(h: string, x: string): nat { if Trim(h) == "" then 0 else if Trim(h) == x then 1 else 0 }

  ghost function Times(hs: seq<string>, x: string): nat {
    if hs == [] then 0 else Once(hs[0], x) + Times(hs[1..], x)
  }

  lemma {:induction false} TimesConcat(a: seq<string>, b: seq<string>, x: string)
    ensures Times(a + b, x) == Times(a, x) + Times(b, x)
  {
    if a == [] {
      assert a + b == b;
    } else {
      TimesConcat(a[1..], b, x);
      assert (a + b)[1..] == a[1..] + b;
    }
  }

  lemma TimesPush(a: seq<string>, h: string, x: string)
    ensures Times(a + [h], x) == Times(a, x) + Once(h, x)
  {
    TimesConcat(a, [h], x);
  }

  lemma {:induction false} InsertKeeps(h: string, s: seq<string>)
    ensures multiset(Insert(h, s)) == multiset(s) + multiset{h}
  {
    if s != [] {
      assert s == [s[0]] + s[1..];
      if StringLess(s[0], h) {
        InsertKeeps(h, s[1..]);
      }
    }
  }

  lemma InsertMembers(h: string, s: seq<string>)
    ensures forall e :: e in Insert(h, s) <==> e in s || e == h
  {
    InsertKeeps(h, s);
    forall e
      ensures e in Insert(h, s) <==> e in s || e == h
    {
      assert e in Insert(h, s) <==> e in multiset(Insert(h, s));
      assert e in s <==> e in multiset(s);
    }
  }

  lemma FoldKeeps(h: string, acc: seq<string>, x: string)
    ensures multiset(Fold(h, acc))[x] == multiset(acc)[x] + Once(h, x)
  {
    InsertKeeps(Trim(h), acc);
  }

  lemma {:induction false} SortKeeps(hs: seq<string>, x: string)
    ensures multiset(SortedHashes(hs))[x] == Times(hs, x)
  {
    if hs != [] {
      var n := |hs| - 1;
      SortKeeps(hs[..n], x);
      FoldKeeps(hs[n], SortedHashes(hs[..n]), x);
      TimesPush(hs[..n], hs[n], x);
      assert hs == hs[..n] + [hs[n]];
    }
  }

  lemma {:induction false} NoBlank(hs: seq<string>)
    ensures "" !in SortedHashes(hs)
  {
    if hs != [] {
      var n := |hs| - 1;
      NoBlank(hs[..n]);
      InsertMembers(Trim(hs[n]), SortedHashes(hs[..n]));
    }
  }

  // ---------- Tidy lists are the sorted ones ----------

  ghost predicate Ascending(s: seq<string>) { forall i, j :: 0 <= i < j < |s| ==> !StringLess(s[j], s[i]) }

  /** Already trimmed, without blanks, and ascending. */
  ghost predicate Tidy(s: seq<string>) { Ascending(s) && forall h :: h in s ==> h != "" && Trim(h) == h }

  lemma NotLess(a: string, b: string, c: string)
    requires !StringLess(b, a) && !StringLess(c, b)
    ensures !StringLess(c, a)
  {
    StringLessTotal(a, b);
    StringLessTotal(b, c);
    if StringLess(c, a) && StringLess(a, b) {
      StringLessTransitive(c, a, b);
    }
  }

  lemma {:induction false} InsertAscends(x: string, s: seq<string>)
    requires Ascending(s)
    ensures Ascending(Insert(x, s))
  {
    StringLessTotal(x, x);
    if s != [] {
      StringLessTotal(s[0], x);
      if StringLess(s[0], x) {
        InsertAscends(x, s[1..]);
        InsertMembers(x, s[1..]);
        AscendsFrom(s[0], Insert(x, s[1..]));
      } else {
        forall h | h in s
          ensures !StringLess(h, x)
        {
          if h != s[0] {
            NotLess(x, s[0], h);
          }
        }
        AscendsFrom(x, s);
      }
    }
  }

  lemma AscendsFrom(x: string, s: seq<string>)
    requires Ascending(s) && forall h :: h in s ==> !StringLess(h, x)
    ensures Ascending([x] + s)
  {
    var out := [x] + s;
    forall i, j | 0 <= i < j < |out|
      ensures !StringLess(out[j], out[i])
    {
      assert out[j] == s[j - 1];
      if i > 0 {
        assert out[i] == s[i - 1];
      }
    }
  }

  lemma {:induction false} SortTidies(hs: seq<string>)
    ensures Tidy(SortedHashes(hs))
  {
    if hs != [] {
      var n := |hs| - 1;
      SortTidies(hs[..n]);
      if Trim(hs[n]) != "" {
        TrimTwice(hs[n]);
        InsertAscends(Trim(hs[n]), SortedHashes(hs[..n]));
        InsertMembers(Trim(hs[n]), SortedHashes(hs[..n]));
      }
    }
  }

  lemma {:induction false} InsertAtEnd(x: string, s: seq<string>)
    requires Ascending(s + [x])
    ensures Insert(x, s) == s + [x]
  {
    var all := s + [x];
    if s != [] {
      StringLessTotal(s[0], x);
      assert all[0] == s[0] && all[|s|] == x && all[1..] == s[1..] + [x];
      if StringLess(s[0], x) {
        InsertAtEnd(x, s[1..]);
      } else {
        forall j | 0 <= j < |s|
          ensures s[j] == x
        {
          assert all[j] == s[j] && !StringLess(x, s[j]);
          StringLessTotal(s[j], x);
        }
        assert [x] + s == s + [x];
      }
    }
  }

  lemma {:induction false} SortLeavesTidy(s: seq<string>)
    requires Tidy(s)
    ensures SortedHashes(s) == s
  {
    if s != [] {
      var n := |s| - 1;
      assert s == s[..n] + [s[n]];
      assert forall h :: h in s[..n] ==> h in s;
      SortLeavesTidy(s[..n]);
      assert s[n] in s;
      InsertAtEnd(s[n], s[..n]);
    }
  }

  lemma SortTwice(hs: seq<string>)
    ensures SortedHashes(SortedHashes(hs)) == SortedHashes(hs)
  {
    SortTidies(hs);
    SortLeavesTidy(SortedHashes(hs));
  }

  lemma SameSorted(a: seq<string>, b: seq<string>)
    requires forall x :: Times(a, x) == Times(b, x)
    ensures SortedHashes(a) == SortedHashes(b)
  {
    forall x
      ensures multiset(SortedHashes(a))[x] == multiset(SortedHashes(b))[x]
    {
      SortKeeps(a, x);
      SortKeeps(b, x);
    }
    SignatureOrderFree(SortedHashes(a), SortedHashes(b));
    SortTwice(a);
    SortTwice(b);
  }

  // ---------- Trimming before or after the cut ----------

  lemma {:induction false} TrimLeftStops(s: string)
    ensures TrimLeft(s) == "" || !IsSpace(TrimLeft(s)[0])
  {
    if s != "" && IsSpace(s[0]) {
      TrimLeftStops(s[1..]);
    }
  }

  lemma {:induction false} TrimRightStops(s: string)
    ensures TrimRight(s) <= s
    ensures TrimRight(s) == "" || !IsSpace(TrimRight(s)[|TrimRight(s)| - 1])
  {
    if s != "" && IsSpace(s[|s| - 1]) {
      TrimRightStops(s[..|s| - 1]);
    }
  }

  lemma TrimTwice(s: string)
    ensures Trim(Trim(s)) == Trim(s)
  {
    TrimLeftStops(s);
    TrimRightStops(TrimLeft(s));
  }

  lemma {:induction false} TrimLeftPush(x: string, c: char)
    requires IsSpace(c)
    ensures TrimLeft(x + [c]) == if TrimLeft(x) == "" then "" else TrimLeft(x) + [c]
  {
    if x == "" {
      assert (x + [c])[1..] == "";
    } else if IsSpace(x[0]) {
      TrimLeftPush(x[1..], c);
      assert (x + [c])[1..] == x[1..] + [c];
    }
  }

  lemma TrimAround(h: string, c: char)
    requires IsSpace(c)
    ensures Trim([c] + h) == Trim(h) && Trim(h + [c]) == Trim(h)
  {
    assert ([c] + h)[1..] == h;
    TrimLeftPush(h, c);
    assert (TrimLeft(h) + [c])[..|TrimLeft(h)|] == TrimLeft(h);
  }

  /** One more character at the end goes to the last piece. */
  lemma {:induction false} SplitPush(s: string, c: char)
    requires c != ','
    ensures |Split(s + [c])| == |Split(s)|
    ensures forall i :: 0 <= i < |Split(s)| - 1 ==> Split(s + [c])[i] == Split(s)[i]
    ensures Split(s + [c])[|Split(s)| - 1] == Split(s)[|Split(s)| - 1] + [c]
  {
    if s == "" {
      assert s + [c] == [c] && [c][1..] == "" && Split("") == [""];
      assert Split([c]) == [[c] + ""] + [];
      assert [c] + "" == [c] == "" + [c];
    } else {
      SplitPush(s[1..], c);
      assert (s + [c])[1..] == s[1..] + [c];
      var rest := Split(s[1..]);
      if s[0] != ',' && |rest| == 1 {
        assert [s[0]] + (rest[0] + [c]) == [s[0]] + rest[0] + [c];
      }
    }
  }

  lemma SplitTrims(s: string, c: char)
    requires IsSpace(c)
    ensures |Split(s + [c])| == |Split(s)|
    ensures forall i :: 0 <= i < |Split(s)| ==> Trim(Split(s + [c])[i]) == Trim(Split(s)[i])
  {
    SplitPush(s, c);
    TrimAround(Split(s)[|Split(s)| - 1], c);
  }

  lemma {:induction false} TimesAlike(a: seq<string>, b: seq<string>, x: string)
    requires |a| == |b| && forall i :: 0 <= i < |a| ==> Trim(a[i]) == Trim(b[i])
    ensures Times(a, x) == Times(b, x)
  {
    if a != [] {
      TimesAlike(a[1..], b[1..], x);
    }
  }

  lemma {:induction false} CutTrimLeft(h: string, x: string)
    ensures Times(Split(TrimLeft(h)), x) == Times(Split(h), x)
  {
    if h != "" && IsSpace(h[0]) {
      CutTrimLeft(h[1..], x);
      TrimAround(Split(h[1..])[0], h[0]);
      TimesAlike(Split(h[1..]), Split(h), x);
    }
  }

  lemma {:induction false} CutTrimRight(h: string, x: string)
    ensures Times(Split(TrimRight(h)), x) == Times(Split(h), x)
  {
    var n := |h| - 1;
    if h != "" && IsSpace(h[n]) {
      assert h == h[..n] + [h[n]];
      CutTrimRight(h[..n], x);
      SplitTrims(h[..n], h[n]);
      TimesAlike(Split(h[..n]), Split(h), x);
    }
  }

  /** Blanks around a hash are around its first and last piece. */
  lemma CutTrim(h: string, x: string)
    ensures Times(Split(Trim(h)), x) == Times(Split(h), x)
    ensures Trim(h) == "" ==> Times(Split(h), x) == 0
  {
    CutTrimLeft(h, x);
    CutTrimRight(TrimLeft(h), x);
    if Trim(h) == "" {
      assert Split("") == [""] && Trim("") == "" && Times([""], x) == Once("", x) + Times([], x);
    }
  }

  lemma {:induction false} CutPush(hs: seq<string>, h: string, x: string)
    ensures Times(Cut(hs + [h]), x) == Times(Cut(hs), x) + Times(Split(h), x)
  {
    if hs == [] {
      assert (hs + [h])[1..] == [] && Cut(hs + [h]) == Split(h) + [];
      assert Split(h) + [] == Split(h);
    } else {
      CutPush(hs[1..], h, x);
      assert (hs + [h])[1..] == hs[1..] + [h];
      TimesConcat(Split(hs[0]), Cut(hs[1..] + [h]), x);
      TimesConcat(Split(hs[0]), Cut(hs[1..]), x);
    }
  }

  lemma CutCons(h: string, hs: seq<string>, x: string)
    ensures Times(Cut([h] + hs), x) == Times(Split(h), x) + Times(Cut(hs), x)
  {
    assert ([h] + hs)[1..] == hs;
    TimesConcat(Split(h), Cut(hs), x);
  }

  lemma {:induction false} CutInsert(h: string, s: seq<string>, x: string)
    ensures Times(Cut(Insert(h, s)), x) == Times(Split(h), x) + Times(Cut(s), x)
  {
    if s != [] && StringLess(s[0], h) {
      CutInsert(h, s[1..], x);
      CutCons(s[0], Insert(h, s[1..]), x);
      CutCons(s[0], s[1..], x);
      assert s == [s[0]] + s[1..];
    } else {
      CutCons(h, s, x);
      assert [h] + s == Insert(h, s);
    }
  }

  /** Sorting the hashes first leaves the same pieces. */
  lemma {:induction false} CutSorted(hs: seq<string>, x: string)
    ensures Times(Cut(SortedHashes(hs)), x) == Times(Cut(hs), x)
  {
    if hs != [] {
      var n := |hs| - 1;
      CutSorted(hs[..n], x);
      assert hs == hs[..n] + [hs[n]];
      CutPush(hs[..n], hs[n], x);
      CutTrim(hs[n], x);
      if Trim(hs[n]) != "" {
        CutInsert(Trim(hs[n]), SortedHashes(hs[..n]), x);
      }
    }
  }

  // ---------- The stored signature ----------

  /** A game's sorted hashes, cut at commas. */
  function Pieces(g: DatGame): seq<string> { Cut(SortedHashes(g.sha1s)) }

  /** The pieces are already trimmed, non-blank and ascending. */
  ghost predicate TidyGame(g: DatGame) { Tidy(Pieces(g)) }

  /** Any reading of a stored game has the sorted pieces as its hashes. */
  lemma ReadBackPieces(g: DatGame, order: seq<string>)
    requires multiset(order) == multiset(g.sha1s)
    ensures SortedHashes(Split(Join(order))) == SortedHashes(Pieces(g))
  {
    SignatureOrderFree(order, g.sha1s);
    SplitJoin(order);
    forall x
      ensures Times(Split(Join(order)), x) == Times(Pieces(g), x)
    {
      CutSorted(order, x);
      if order == [] {
        CutTrim("", x);
      }
    }
    SameSorted(Split(Join(order)), Pieces(g));
  }

  lemma {:induction false} TrimCommaFree(h: string)
    requires ',' !in h
    ensures ',' !in Trim(h)
  {
    TrimLeftPart(h);
    TrimRightStops(TrimLeft(h));
  }

  lemma {:induction false} TrimLeftPart(h: string)
    ensures forall c :: c in TrimLeft(h) ==> c in h
  {
    if h != "" && IsSpace(h[0]) {
      TrimLeftPart(h[1..]);
    }
  }

  lemma {:induction false} SortCommaFree(hs: seq<string>)
    requires CommaFree(hs)
    ensures CommaFree(SortedHashes(hs))
  {
    if hs != [] {
      var n := |hs| - 1;
      SortCommaFree(hs[..n]);
      TrimCommaFree(hs[n]);
      InsertMembers(Trim(hs[n]), SortedHashes(hs[..n]));
    }
  }

  lemma {:induction false} CutCommaFree(hs: seq<string>)
    ensures CommaFree(Cut(hs))
  {
    if hs != [] {
      CutCommaFree(hs[1..]);
    }
  }

  /** Two lists of hashes without blanks and commas are joined alike only if they are alike. */
  lemma JoinInjective(a: seq<string>, b: seq<string>)
    requires CommaFree(a) && "" !in a && Join(a) == Join(b) && "" !in b
    ensures a == Cut(b)
  {
    SplitJoin(a);
    SplitJoin(b);
    CutPlain(a);
    if a == [] && b != [] {
      JoinBlank(b);
    }
    if b == [] && a != [] {
      JoinBlank(a);
    }
  }

  lemma JoinBlank(hs: seq<string>)
    requires hs != [] && "" !in hs
    ensures Join(hs) != ""
  {
    assert hs[0] in hs;
    assert |Join(hs)| >= |hs[0]|;
  }

  /** Every hash, trimmed and not blank, occurs as often in the one list as in the other. */
  ghost predicate SameHashes(a: seq<string>, b: seq<string>) { forall x :: Times(a, x) == Times(b, x) }

  lemma SortedAlike(a: seq<string>, b: seq<string>)
    requires SortedHashes(a) == SortedHashes(b)
    ensures SameHashes(a, b)
  {
    forall x
      ensures Times(a, x) == Times(b, x)
    {
      SortKeeps(a, x);
      SortKeeps(b, x);
    }
  }

  /** Signatures of hashes without commas are equal exactly when the sizes and the hashes are. */
  lemma SignatureIff(m: int, a: seq<string>, n: int, b: seq<string>)
    requires CommaFree(a) && CommaFree(b)
    ensures CatalogSignature(m, a) == CatalogSignature(n, b) <==> m == n && SameHashes(a, b)
  {
    if m == n && SameHashes(a, b) {
      SameSorted(a, b);
    } else if CatalogSignature(m, a) == CatalogSignature(n, b) {
      SortCommaFree(a);
      SortCommaFree(b);
      NoBlank(a);
      NoBlank(b);
      JoinInjective(SortedHashes(a), SortedHashes(b));
      CutPlain(SortedHashes(b));
      SortedAlike(a, b);
    }
  }

  /** Joining the sorted pieces gives back the joined hashes only when sorting had nothing to do. */
  lemma JoinedAlike(hs: seq<string>)
    requires "" !in hs
    ensures Join(SortedHashes(Cut(hs))) == Join(hs) <==> SortedHashes(Cut(hs)) == Cut(hs)
  {
    var sorted := SortedHashes(Cut(hs));
    CutCommaFree(hs);
    SortCommaFree(Cut(hs));
    NoBlank(Cut(hs));
    if Join(sorted) == Join(hs) {
      JoinInjective(sorted, hs);
    }
    SplitJoin(hs);
    JoinSplit(Join(hs));
  }

  /** A stored game reads back with the signature it would be compared by if and only if the pieces of its
      sorted hashes are tidy. */
  lemma StoredSignature(g: DatGame, order: seq<string>)
    requires multiset(order) == multiset(g.sha1s)
    ensures CatalogSignature(g.size, Split(Join(order))) == SigOf(g) <==> TidyGame(g)
  {
    ReadBackPieces(g, order);
    NoBlank(g.sha1s);
    JoinedAlike(SortedHashes(g.sha1s));
    SortTidies(Pieces(g));
    if Tidy(Pieces(g)) {
      SortLeavesTidy(Pieces(g));
    }
  }

  /** Hashes without commas are always tidy. */
  lemma NoCommaIsTidy(g: DatGame)
    requires CommaFree(g.sha1s)
    ensures TidyGame(g)
  {
    SortCommaFree(g.sha1s);
    CutPlain(SortedHashes(g.sha1s));
    SortTidies(g.sha1s);
  }
}
