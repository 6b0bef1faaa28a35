/** internal/collection/set.go: partitioning a catalogue into games and picking each
    game's keeper.

    What the release-name parser says about a name is part of the data (`Attrs`), and the
    clone-list overlay is a function parameter; a missing overlay answers `None`. */
module Collection {
  import opened Options
  import opened Text

  datatype Attrs = Attrs(bios: bool, proto: bool, demo: bool, unlicensed: bool, aftermarket: bool, pirate: bool,
                         bad: bool, verified: bool)

  datatype Rom = Rom(name: string, md5: string, sha1: string, attrs: Attrs)

  datatype Member = Member(gameId: int, name: string, bareTitle: string, region: string, languages: string,
                           revision: int, flags: string, roms: seq<Rom>, attrs: Attrs)

  datatype Policy = Policy(regionPriority: seq<string>, allowProto: bool, allowDemo: bool, allowBios: bool,
                           allowUnlicensed: bool, allowAftermarket: bool, allowPirate: bool, verifiedOnly: bool,
                           noEnglishPreference: bool, requireEnglish: bool, excludeCategories: seq<string>,
                           reReleaseTags: seq<string>)

  datatype Match = Match(libraryId: int, title: string, filePath: string, matchedBy: string)

  datatype Candidate = Candidate(member: Member, excluded: bool, reason: string, keeper: bool, owned: Option<Match>)

  datatype Source = FromTitle | FromCloneList

  /** `keeperIndex` is -1 when no dump is kept. */
  datatype Group = Group(key: string, title: string, source: Source, categories: seq<string>,
                         members: seq<Candidate>, keeperIndex: int, reason: string)

  datatype Hit = Hit(group: string, categories: seq<string>, priority: int)

  type Overlay = Member -> Option<Hit>

  // ---------- Tokens ----------

  /** strings.Split(s, ","). */
  function Split(s: string): (r: seq<string>)
    ensures r != [] && forall piece :: piece in r ==> ',' !in piece
  {
    if s == "" then [""]
    else
      var rest := Split(s[1..]);
      if s[0] == ',' then [""] + rest else [[s[0]] + rest[0]] + rest[1..]
  }

  predicate HasToken(s: string, tok: string) { exists t :: t in Split(s) && Trim(t) == tok }

  /** strings.EqualFold on trimmed ASCII text. */
  predicate SameFold(a: string, b: string) { Lower(Trim(a)) == Lower(Trim(b)) }

  // ---------- Exclusion ----------

  function Or(a: Attrs, b: Attrs): Attrs {
    Attrs(a.bios || b.bios, a.proto || b.proto, a.demo || b.demo, a.unlicensed || b.unlicensed,
          a.aftermarket || b.aftermarket, a.pirate || b.pirate, a.bad || b.bad, a.verified || b.verified)
  }

  function TokenAttrs(tok: string): Attrs {
    Attrs(tok == "bios", tok == "proto", tok == "demo", tok == "unl", tok == "aftermarket", tok == "pirate",
          tok == "bad", tok == "verified")
  }

  function AllTokens(toks: seq<string>): Attrs {
    if toks == [] then Attrs(false, false, false, false, false, false, false, false)
    else Or(AllTokens(toks[..|toks| - 1]), TokenAttrs(Trim(toks[|toks| - 1])))
  }

  function AllRoms(f: Attrs, roms: seq<Rom>): Attrs {
    if roms == [] then f else Or(AllRoms(f, roms[..|roms| - 1]), roms[|roms| - 1].attrs)
  }

  /** The stored flags, what the rom names say, and two flags of the game name itself. */
  function Classify(m: Member): Attrs {
    var f := AllRoms(AllTokens(Split(m.flags)), m.roms);
    f.(aftermarket := f.aftermarket || m.attrs.aftermarket, pirate := f.pirate || m.attrs.pirate)
  }

  /** The eight flag words are pairwise different. */
  lemma TokenCases(tok: string)
    ensures tok == "bios" ==> TokenAttrs(tok) == Attrs(true, false, false, false, false, false, false, false)
    ensures tok == "proto" ==> TokenAttrs(tok) == Attrs(false, true, false, false, false, false, false, false)
    ensures tok == "demo" ==> TokenAttrs(tok) == Attrs(false, false, true, false, false, false, false, false)
    ensures tok == "unl" ==> TokenAttrs(tok) == Attrs(false, false, false, true, false, false, false, false)
    ensures tok == "aftermarket" ==> TokenAttrs(tok) == Attrs(false, false, false, false, true, false, false, false)
    ensures tok == "pirate" ==> TokenAttrs(tok) == Attrs(false, false, false, false, false, true, false, false)
    ensures tok == "bad" ==> TokenAttrs(tok) == Attrs(false, false, false, false, false, false, true, false)
    ensures tok == "verified" ==> TokenAttrs(tok) == Attrs(false, false, false, false, false, false, false, true)
  {
    assert tok == "bios" ==> |tok| == 4 && tok[0] == 'b';
    assert tok == "proto" ==> |tok| == 5;
    assert tok == "demo" ==> |tok| == 4 && tok[0] == 'd';
    assert tok == "unl" ==> |tok| == 3 && tok[0] == 'u';
    assert tok == "aftermarket" ==> |tok| == 11;
    assert tok == "pirate" ==> |tok| == 6;
    assert tok == "bad" ==> |tok| == 3 && tok[0] == 'b';
    assert tok == "verified" ==> |tok| == 8;
  }

  lemma AllTokensPush(toks: seq<string>, i: nat)
    requires i < |toks|
    ensures AllTokens(toks[..i + 1]) == Or(AllTokens(toks[..i]), TokenAttrs(Trim(toks[i])))
  {
    assert toks[..i + 1][..i] == toks[..i];
  }

  lemma AllRomsPush(f: Attrs, roms: seq<Rom>, i: nat)
    requires i < |roms|
    ensures AllRoms(f, roms[..i + 1]) == Or(AllRoms(f, roms[..i]), roms[i].attrs)
  {
    assert roms[..i + 1][..i] == roms[..i];
  }

  /** The switch over one stored flag. */
  method NoteToken(f: Attrs, tok: string) returns (r: Attrs)
    ensures r == Or(f, TokenAttrs(tok))
  {
    TokenCases(tok);
    if tok == "bios" {
      return f.(bios := true);
    } else if tok == "proto" {
      return f.(proto := true);
    } else if tok == "demo" {
      return f.(demo := true);
    } else if tok == "unl" {
      return f.(unlicensed := true);
    } else if tok == "aftermarket" {
      return f.(aftermarket := true);
    } else if tok == "pirate" {
      return f.(pirate := true);
    } else if tok == "bad" {
      return f.(bad := true);
    } else if tok == "verified" {
      return f.(verified := true);
    }
    return f;
  }

  method ClassifyLoop(m: Member) returns (f: Attrs)
    ensures f == Classify(m)
  {
    f := Attrs(false, false, false, false, false, false, false, false);
    var toks := Split(m.flags);
    for i := 0 to |toks|
      invariant f == AllTokens(toks[..i])
    {
      AllTokensPush(toks, i);
      var tok := Trim(toks[i]);
      f := NoteToken(f, tok);
    }
    assert toks[..|toks|] == toks;
    ghost var base := f;
    for i := 0 to |m.roms|
      invariant f == AllRoms(base, m.roms[..i])
    {
      AllRomsPush(base, m.roms, i);
      f := Or(f, m.roms[i].attrs);
    }
    assert m.roms[..|m.roms|] == m.roms;
    if m.attrs.aftermarket || m.attrs.pirate {
      f := f.(aftermarket := f.aftermarket || m.attrs.aftermarket, pirate := f.pirate || m.attrs.pirate);
    }
  }

  /** The first wanted category any of the group's categories matches, as the nested loop finds it. */
  function FirstCategory(wants: seq<string>, haves: seq<string>): Option<string> {
    if wants == [] then None
    else match FirstSame(wants[0], haves)
         case Some(h) => Some(h)
         case None => FirstCategory(wants[1..], haves)
  }

  function FirstSame(want: string, haves: seq<string>): Option<string> {
    if haves == [] then None else if SameFold(want, haves[0]) then Some(haves[0]) else FirstSame(want, haves[1..])
  }

  function ExcludedBy(m: Member, categories: seq<string>, p: Policy): Option<string> {
    var f := Classify(m);
    if f.bad then Some("bad dump")
    else if f.bios && !p.allowBios then Some("BIOS")
    else if f.proto && !p.allowProto then Some("prototype/beta")
    else if f.demo && !p.allowDemo then Some("demo")
    else if f.unlicensed && !p.allowUnlicensed then Some("unlicensed")
    else if f.aftermarket && !p.allowAftermarket then Some("aftermarket homebrew")
    else if f.pirate && !p.allowPirate then Some("pirate")
    else if p.verifiedOnly && !f.verified then Some("not a verified dump")
    else match FirstCategory(p.excludeCategories, categories)
         case Some(h) => Some("excluded category (" + h + ")")
         case None => None
  }

  /** What a flag word or a rom's name may say of a dump. */
  datatype Mark = Bios | Proto | Demo | Unlicensed | Aftermarket | Pirate | Bad | Verified

  ghost function WordOf(k: Mark): string {
    match k
    case Bios => "bios"
    case Proto => "proto"
    case Demo => "demo"
    case Unlicensed => "unl"
    case Aftermarket => "aftermarket"
    case Pirate => "pirate"
    case Bad => "bad"
    case Verified => "verified"
  }

  ghost predicate Says(a: Attrs, k: Mark) {
    match k
    case Bios => a.bios
    case Proto => a.proto
    case Demo => a.demo
    case Unlicensed => a.unlicensed
    case Aftermarket => a.aftermarket
    case Pirate => a.pirate
    case Bad => a.bad
    case Verified => a.verified
  }

  ghost predicate Flagged(toks: seq<string>, k: Mark) { exists t :: t in toks && Trim(t) == WordOf(k) }

  ghost predicate RomSays(roms: seq<Rom>, k: Mark) { exists r :: r in roms && Says(r.attrs, k) }

  /** The word is one of the dump's stored flags, or one of its roms says so. */
  ghost predicate Marked(m: Member, k: Mark) { Flagged(Split(m.flags), k) || RomSays(m.roms, k) }

  lemma TokenSays(tok: string, k: Mark)
    ensures Says(TokenAttrs(tok), k) <==> tok == WordOf(k)
  {
  }

  lemma {:induction false} TokensSay(toks: seq<string>, i: nat, k: Mark)
    requires i <= |toks|
    ensures Says(AllTokens(toks[..i]), k) <==> Flagged(toks[..i], k)
  {
    if i > 0 {
      var n := i - 1;
      TokensSay(toks, n, k);
      AllTokensPush(toks, n);
      TokenSays(Trim(toks[n]), k);
      assert toks[..i] == toks[..n] + [toks[n]];
    }
  }

  lemma {:induction false} RomsSay(f: Attrs, roms: seq<Rom>, i: nat, k: Mark)
    requires i <= |roms|
    ensures Says(AllRoms(f, roms[..i]), k) <==> Says(f, k) || RomSays(roms[..i], k)
  {
    if i > 0 {
      var n := i - 1;
      RomsSay(f, roms, n, k);
      AllRomsPush(f, roms, n);
      assert roms[..i] == roms[..n] + [roms[n]];
    }
  }

  /** A dump is of a kind when it is so marked; that it is homebrew or a pirate copy its name may say too. */
  ghost predicate IsOf(m: Member, k: Mark) {
    Marked(m, k) || (k == Aftermarket && m.attrs.aftermarket) || (k == Pirate && m.attrs.pirate)
  }

  lemma ClassifyMeans(m: Member, k: Mark)
    ensures Says(Classify(m), k) <==> IsOf(m, k)
  {
    var toks := Split(m.flags);
    TokensSay(toks, |toks|, k);
    RomsSay(AllTokens(toks), m.roms, |m.roms|, k);
    assert toks[..|toks|] == toks && m.roms[..|m.roms|] == m.roms;
  }

  lemma {:induction false} SameFound(want: string, haves: seq<string>)
    ensures FirstSame(want, haves).Some? <==> exists h :: h in haves && SameFold(want, h)
  {
    if haves != [] {
      SameFound(want, haves[1..]);
      assert haves == [haves[0]] + haves[1..];
    }
  }

  /** The nested search succeeds exactly when some wanted category is among the given ones. */
  lemma {:induction false} CategoryFound(wants: seq<string>, haves: seq<string>)
    ensures FirstCategory(wants, haves).Some? <==> exists w, h :: w in wants && h in haves && SameFold(w, h)
  {
    if wants != [] {
      SameFound(wants[0], haves);
      CategoryFound(wants[1..], haves);
      assert wants == [wants[0]] + wants[1..];
    }
  }

  lemma GatesIff(f: Attrs, m: Member, categories: seq<string>, p: Policy)
    requires f == Classify(m)
    ensures ExcludedBy(m, categories, p).None? <==>
      && !Says(f, Bad) && (Says(f, Bios) ==> p.allowBios) && (Says(f, Proto) ==> p.allowProto)
      && (Says(f, Demo) ==> p.allowDemo) && (Says(f, Unlicensed) ==> p.allowUnlicensed)
      && (Says(f, Aftermarket) ==> p.allowAftermarket) && (Says(f, Pirate) ==> p.allowPirate)
      && (p.verifiedOnly ==> Says(f, Verified)) && FirstCategory(p.excludeCategories, categories).None?
  {
  }

  /** Exactly which dumps are admitted: no bad one, each other kind under its own switch, only verified
      ones when that is asked for, and none of a group with an unwanted category. */
  lemma AdmittedIff(m: Member, categories: seq<string>, p: Policy)
    ensures ExcludedBy(m, categories, p).None? <==>
      && !IsOf(m, Bad)
      && (IsOf(m, Bios) ==> p.allowBios)
      && (IsOf(m, Proto) ==> p.allowProto)
      && (IsOf(m, Demo) ==> p.allowDemo)
      && (IsOf(m, Unlicensed) ==> p.allowUnlicensed)
      && (IsOf(m, Aftermarket) ==> p.allowAftermarket)
      && (IsOf(m, Pirate) ==> p.allowPirate)
      && (p.verifiedOnly ==> IsOf(m, Verified))
      && !exists w, h :: w in p.excludeCategories && h in categories && Lower(Trim(w)) == Lower(Trim(h))
  {
    assert forall k :: Says(Classify(m), k) <==> IsOf(m, k) by {
      forall k
        ensures Says(Classify(m), k) <==> IsOf(m, k)
      {
        ClassifyMeans(m, k);
      }
    }
    GatesIff(Classify(m), m, categories, p);
    CategoryFound(p.excludeCategories, categories);
  }

  lemma ReasonOf(f: Attrs, m: Member, categories: seq<string>, p: Policy, why: string)
    requires f == Classify(m) && ExcludedBy(m, categories, p) == Some(why)
    ensures
      || (why == "bad dump" && Says(f, Bad))
      || (why == "BIOS" && Says(f, Bios) && !p.allowBios)
      || (why == "prototype/beta" && Says(f, Proto) && !p.allowProto)
      || (why == "demo" && Says(f, Demo) && !p.allowDemo)
      || (why == "unlicensed" && Says(f, Unlicensed) && !p.allowUnlicensed)
      || (why == "aftermarket homebrew" && Says(f, Aftermarket) && !p.allowAftermarket)
      || (why == "pirate" && Says(f, Pirate) && !p.allowPirate)
      || (why == "not a verified dump" && p.verifiedOnly && !Says(f, Verified))
      || (FirstCategory(p.excludeCategories, categories).Some?
          && why == "excluded category (" + FirstCategory(p.excludeCategories, categories).value + ")")
  {
  }

  /** The reason given for leaving a dump out is one that holds of it. */
  lemma ReasonHolds(m: Member, categories: seq<string>, p: Policy, why: string)
    requires ExcludedBy(m, categories, p) == Some(why)
    ensures
      || (why == "bad dump" && IsOf(m, Bad))
      || (why == "BIOS" && IsOf(m, Bios) && !p.allowBios)
      || (why == "prototype/beta" && IsOf(m, Proto) && !p.allowProto)
      || (why == "demo" && IsOf(m, Demo) && !p.allowDemo)
      || (why == "unlicensed" && IsOf(m, Unlicensed) && !p.allowUnlicensed)
      || (why == "aftermarket homebrew" && IsOf(m, Aftermarket) && !p.allowAftermarket)
      || (why == "pirate" && IsOf(m, Pirate) && !p.allowPirate)
      || (why == "not a verified dump" && p.verifiedOnly && !IsOf(m, Verified))
      || exists h, w :: h in categories && w in p.excludeCategories && Lower(Trim(w)) == Lower(Trim(h))
                        && why == "excluded category (" + h + ")"
  {
    forall k
      ensures Says(Classify(m), k) <==> IsOf(m, k)
    {
      ClassifyMeans(m, k);
    }
    ReasonOf(Classify(m), m, categories, p, why);
    if FirstCategory(p.excludeCategories, categories).Some? {
      CategoryNamed(p.excludeCategories, categories);
    }
  }

  lemma {:induction false} SameNamed(want: string, haves: seq<string>)
    requires FirstSame(want, haves).Some?
    ensures FirstSame(want, haves).value in haves && Lower(Trim(want)) == Lower(Trim(FirstSame(want, haves).value))
  {
    if !SameFold(want, haves[0]) {
      SameNamed(want, haves[1..]);
    }
  }

  lemma {:induction false} CategoryNamed(wants: seq<string>, haves: seq<string>)
    requires FirstCategory(wants, haves).Some?
    ensures var h := FirstCategory(wants, haves).value;
            h in haves && exists w :: w in wants && Lower(Trim(w)) == Lower(Trim(h))
  {
    if FirstSame(wants[0], haves).Some? {
      SameNamed(wants[0], haves);
    } else {
      CategoryNamed(wants[1..], haves);
    }
  }

  // ---------- The keeper order ----------

  predicate RegionHit(region: string, want: string) {
    exists t :: t in Split(Lower(region)) && Trim(t) != "" && Trim(t) == Lower(Trim(want))
  }

  function RankFrom(region: string, priority: seq<string>, i: nat): (r: int)
    requires i <= |priority|
    ensures r == |priority| + 1 || i <= r < |priority|
    decreases |priority| - i
  {
    if i == |priority| then |priority| + 1
    else if RegionHit(region, priority[i]) then i
    else RankFrom(region, priority, i + 1)
  }

  function RegionRank(region: string, priority: seq<string>): int { RankFrom(region, priority, 0) }

  lemma {:induction false} RankIsFirstHit(region: string, priority: seq<string>, i: nat, r: int)
    requires i <= |priority| && (r == |priority| + 1 || i <= r < |priority|)
    requires r < |priority| ==> RegionHit(region, priority[r])
    requires forall k :: i <= k < |priority| && k < r ==> !RegionHit(region, priority[k])
    ensures RankFrom(region, priority, i) == r
    decreases |priority| - i
  {
    if i < |priority| && !RegionHit(region, priority[i]) {
      RankIsFirstHit(region, priority, i + 1, r);
    }
  }

  /** One token of a region against the whole priority list. */
  method RankToken(r: string, priority: seq<string>, before: int) returns (best: int)
    requires before == |priority| + 1 || 0 <= before < |priority|
    ensures best <= before && (best == before || (0 <= best < |priority| && r == Lower(Trim(priority[best]))))
    ensures forall k :: 0 <= k < |priority| && k < best ==> r != Lower(Trim(priority[k]))
  {
    best := before;
    for i := 0 to |priority|
      invariant best <= before && (best == before || (0 <= best < |priority| && r == Lower(Trim(priority[best]))))
      invariant forall k :: 0 <= k < i && k < best ==> r != Lower(Trim(priority[k]))
    {
      if r == Lower(Trim(priority[i])) && i < best {
        best := i;
      }
    }
  }

  method RegionRankLoop(region: string, priority: seq<string>) returns (best: int)
    ensures best == RegionRank(region, priority)
  {
    best := |priority| + 1;
    var toks := Split(Lower(region));
    for j := 0 to |toks|
      invariant best == |priority| + 1 || 0 <= best < |priority|
      invariant best < |priority| ==> RegionHit(region, priority[best])
      invariant forall i, t :: 0 <= i < |priority| && i < best && 0 <= t < j && Trim(toks[t]) != "" ==>
                  Trim(toks[t]) != Lower(Trim(priority[i]))
    {
      var r := Trim(toks[j]);
      if r == "" {
        continue;
      }
      assert toks[j] in toks;
      best := RankToken(r, priority, best);
    }
    forall k | 0 <= k < |priority| && k < best
      ensures !RegionHit(region, priority[k])
    {
      forall t | t in toks && Trim(t) != ""
        ensures Trim(t) != Lower(Trim(priority[k]))
      {
        var x :| 0 <= x < |toks| && toks[x] == t;
      }
    }
    RankIsFirstHit(region, priority, 0, best);
  }

  function EnglishRank(m: Member): int {
    if exists l :: l in Split(m.languages) && SameFold(l, "En") then 0
    else if Trim(m.languages) == "" then 0
    else 1
  }

  /** English-capable: one of the languages is "en" in either case, or none is given at all. */
  lemma EnglishIff(m: Member)
    ensures EnglishRank(m) == 0 <==>
            AllSpace(m.languages) || exists l :: l in Split(m.languages) && Lower(Trim(l)) == "en"
    ensures EnglishRank(m) == 0 || EnglishRank(m) == 1
  {
    assert Lower(Trim("En")) == "en" by {
      TrimIff("En", "En");
      assert CutAt("En", 0, 2) && "En"[0..2] == "En";
      assert Lower("En") == "en";
    }
    BlankIff(m.languages);
  }

  /** strings.Contains. */
  predicate Contains(s: string, sub: string) { sub <= s || (s != "" && Contains(s[1..], sub)) }

  lemma {:induction false} ContainsIff(s: string, sub: string)
    ensures Contains(s, sub) <==> exists i :: 0 <= i <= |s| && sub <= s[i..]
  {
    if sub <= s {
      assert s[0..] == s;
    } else if s != "" {
      ContainsIff(s[1..], sub);
      if Contains(s, sub) {
        var i :| 0 <= i <= |s[1..]| && sub <= s[1..][i..];
        assert s[1..][i..] == s[i + 1..];
      }
      if i :| 0 <= i <= |s| && sub <= s[i..] {
        assert s[0..] == s;
        assert s[i..] == s[1..][i - 1..];
      }
    }
  }

  predicate IsReRelease(name: string, tags: seq<string>) {
    exists t :: t in tags && Trim(t) != "" && Contains(Lower(name), "(" + Lower(Trim(t)) + ")")
  }

  /** A re-release carries one of the tags, which is not blank, in parentheses, in any letter case. */
  lemma ReReleaseIff(name: string, tags: seq<string>)
    ensures IsReRelease(name, tags) <==>
            exists t, i :: t in tags && !AllSpace(t) && 0 <= i <= |name|
                           && "(" + Lower(Trim(t)) + ")" <= Lower(name)[i..]
  {
    forall t | t in tags
      ensures Trim(t) == "" <==> AllSpace(t)
      ensures Contains(Lower(name), "(" + Lower(Trim(t)) + ")") <==>
              exists i :: 0 <= i <= |name| && "(" + Lower(Trim(t)) + ")" <= Lower(name)[i..]
    {
      BlankIff(t);
      ContainsIff(Lower(name), "(" + Lower(Trim(t)) + ")");
    }
  }

  function PriorityOf(prio: map<int, int>, id: int): int { if id in prio then prio[id] else 0 }

  predicate Less(a: Member, b: Member, prio: map<int, int>, p: Policy) {
    var (pa, pb) := (PriorityOf(prio, a.gameId), PriorityOf(prio, b.gameId));
    if pa != pb then pa < pb else
    var (ra, rb) := (RegionRank(a.region, p.regionPriority), RegionRank(b.region, p.regionPriority));
    if ra != rb then ra < rb
    else if !p.noEnglishPreference && EnglishRank(a) != EnglishRank(b) then EnglishRank(a) < EnglishRank(b)
    else if a.revision != b.revision then a.revision > b.revision
    else if Classify(a).verified != Classify(b).verified then Classify(a).verified
    else if IsReRelease(a.name, p.reReleaseTags) != IsReRelease(b.name, p.reReleaseTags)
    then !IsReRelease(a.name, p.reReleaseTags)
    else StringLess(a.name, b.name)
  }

  /** The seven levels of `Less` as one key, smallest best. */
  datatype Rank = Rank(levels: seq<int>, name: string)

  function RankOf(m: Member, prio: map<int, int>, p: Policy): Rank {
    Rank([PriorityOf(prio, m.gameId), RegionRank(m.region, p.regionPriority),
          if p.noEnglishPreference then 0 else EnglishRank(m), -m.revision,
          if Classify(m).verified then 0 else 1, if IsReRelease(m.name, p.reReleaseTags) then 1 else 0], m.name)
  }

  predicate LevelsLess(a: seq<int>, b: seq<int>)
    requires |a| == |b|
  {
    a != [] && (a[0] < b[0] || (a[0] == b[0] && LevelsLess(a[1..], b[1..])))
  }

  predicate RankLess(a: Rank, b: Rank)
    requires |a.levels| == |b.levels|
  {
    LevelsLess(a.levels, b.levels) || (a.levels == b.levels && StringLess(a.name, b.name))
  }

  lemma {:induction false} LevelsTotal(a: seq<int>, b: seq<int>)
    requires |a| == |b|
    ensures a == b || LevelsLess(a, b) || LevelsLess(b, a)
    ensures !(LevelsLess(a, b) && LevelsLess(b, a)) && (a == b ==> !LevelsLess(a, b))
  {
    if a != [] {
      LevelsTotal(a[1..], b[1..]);
      assert a == [a[0]] + a[1..] && b == [b[0]] + b[1..];
    }
  }

  lemma {:induction false} LevelsTransitive(a: seq<int>, b: seq<int>, c: seq<int>)
    requires |a| == |b| == |c| && LevelsLess(a, b) && LevelsLess(b, c)
    ensures LevelsLess(a, c)
  {
    if a[0] == b[0] == c[0] {
      LevelsTransitive(a[1..], b[1..], c[1..]);
    }
  }

  lemma RankTotal(a: Rank, b: Rank)
    requires |a.levels| == |b.levels|
    ensures a == b || RankLess(a, b) || RankLess(b, a)
    ensures !(RankLess(a, b) && RankLess(b, a)) && (a == b ==> !RankLess(a, b))
  {
    LevelsTotal(a.levels, b.levels);
    StringLessTotal(a.name, b.name);
  }

  lemma RankTransitive(a: Rank, b: Rank, c: Rank)
    requires |a.levels| == |b.levels| == |c.levels| && RankLess(a, b) && RankLess(b, c)
    ensures RankLess(a, c)
  {
    if LevelsLess(a.levels, b.levels) && LevelsLess(b.levels, c.levels) {
      LevelsTransitive(a.levels, b.levels, c.levels);
    } else if a.levels == b.levels == c.levels {
      StringLessTransitive(a.name, b.name, c.name);
    }
  }

  lemma LevelsUnroll(a: seq<int>, b: seq<int>)
    requires |a| == |b| == 6
    ensures LevelsLess(a, b) <==>
      || a[0] < b[0]
      || (a[0] == b[0] && (a[1] < b[1] || (a[1] == b[1] && (a[2] < b[2] || (a[2] == b[2] && (a[3] < b[3] ||
         (a[3] == b[3] && (a[4] < b[4] || (a[4] == b[4] && a[5] < b[5])))))))))
  {
    var a1, b1 := a[1..], b[1..];
    var a2, b2 := a1[1..], b1[1..];
    var a3, b3 := a2[1..], b2[1..];
    var a4, b4 := a3[1..], b3[1..];
    var a5, b5 := a4[1..], b4[1..];
    assert LevelsLess(a5, b5) <==> a[5] < b[5];
    assert LevelsLess(a4, b4) <==> a[4] < b[4] || (a[4] == b[4] && LevelsLess(a5, b5));
    assert LevelsLess(a3, b3) <==> a[3] < b[3] || (a[3] == b[3] && LevelsLess(a4, b4));
    assert LevelsLess(a2, b2) <==> a[2] < b[2] || (a[2] == b[2] && LevelsLess(a3, b3));
    assert LevelsLess(a1, b1) <==> a[1] < b[1] || (a[1] == b[1] && LevelsLess(a2, b2));
  }

  /** The cascade of comparisons is the lexicographic order on ranks. */
  lemma LessIsRankLess(a: Member, b: Member, prio: map<int, int>, p: Policy)
    ensures Less(a, b, prio, p) <==> RankLess(RankOf(a, prio, p), RankOf(b, prio, p))
  {
    var x, y := RankOf(a, prio, p).levels, RankOf(b, prio, p).levels;
    LevelsUnroll(x, y);
    assert x == y <==> x[0] == y[0] && x[1] == y[1] && x[2] == y[2] && x[3] == y[3] && x[4] == y[4] && x[5] == y[5];
  }

  /** `less` is a strict weak order, and ties only dumps of the same name. */
  lemma LessIsStrictWeakOrder(a: Member, b: Member, c: Member, prio: map<int, int>, p: Policy)
    ensures !(Less(a, b, prio, p) && Less(b, a, prio, p)) && !Less(a, a, prio, p)
    ensures Less(a, b, prio, p) && Less(b, c, prio, p) ==> Less(a, c, prio, p)
    ensures !Less(a, b, prio, p) && !Less(b, c, prio, p) ==> !Less(a, c, prio, p)
    ensures !Less(a, b, prio, p) && !Less(b, a, prio, p) ==>
      RankOf(a, prio, p) == RankOf(b, prio, p) && a.name == b.name
  {
    var x, y, z := RankOf(a, prio, p), RankOf(b, prio, p), RankOf(c, prio, p);
    LessIsRankLess(a, b, prio, p);
    LessIsRankLess(b, a, prio, p);
    LessIsRankLess(b, c, prio, p);
    LessIsRankLess(a, c, prio, p);
    LessIsRankLess(a, a, prio, p);
    RankTotal(x, x);
    RankTotal(x, y);
    RankTotal(y, z);
    if RankLess(x, y) && RankLess(y, z) {
      RankTransitive(x, y, z);
    }
    if RankLess(x, z) && RankLess(z, y) {
      RankTransitive(x, z, y);
    }
    RankTotal(z, y);
  }
}
