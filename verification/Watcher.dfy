/** internal/download/watcher.go: the torrent job driver. One tick is atomic here; between ticks the
    rest of the program may change the job store within `Outside`. */
module Watcher {
  import opened Options
  import opened Text
  import Collection

  // ---------- What qBittorrent answers, and what a job holds ----------

  datatype Torrent = Torrent(name: string, hash: string, tags: string, state: string, amountLeft: int, progress: real)
  datatype File = File(index: int, name: string, progress: real)

  /** One tick's answers: the torrent list, and per job and torrent the file list, the verdict of the
      file-list scan and whether a call that silences the given files is accepted; the jobs being
      imported; the clock. */
  datatype Client = Client(torrents: seq<Torrent>, files: (nat, string) -> seq<File>, safe: (nat, string) -> bool,
                           accepts: (nat, string, seq<int>) -> bool, busy: set<nat>, now: int)

  datatype Job = Job(title: string, sourceType: string, status: string, torrentHash: string, orphanHash: string,
                     qbTag: string, startedAt: int, scanDone: bool,
                     target: string, selectionDone: bool, targetIndex: int, resolved: string)

  const NOT_COMPLETE: set<string> :=
    {"checkingDL", "checkingUP", "checkingResumeData", "allocating", "moving", "metaDL"}
  const ASSOCIATION_GRACE: int := 600
  const VANISH_TICKS: nat := 3

  predicate TorrentComplete(t: Torrent) { t.amountLeft == 0 && t.progress >= 1.0 && t.state !in NOT_COMPLETE }

  predicate Active(j: Job) {
    j.sourceType == "torrent" && (j.status == "downloading" || j.status == "scanning" || j.status == "importing")
  }

  // ---------- Picking the wanted file ----------

  function StripSlashes(s: string): string { if s != "" && s[|s| - 1] == '/' then StripSlashes(s[..|s| - 1]) else s }

  function AfterSlash(s: string): (r: string)
    ensures |r| <= |s|
  {
    if s == "" then "" else if s[|s| - 1] == '/' then "" else AfterSlash(s[..|s| - 1]) + [s[|s| - 1]]
  }

  /** path.Base. */
  function Base(s: string): string {
    if s == "" then "." else if StripSlashes(s) == "" then "/" else AfterSlash(StripSlashes(s))
  }

  ghost predicate AllSlashes(s: string) { forall k :: 0 <= k < |s| ==> s[k] == '/' }

  /** b is the last element of path s, slashes at its end aside. */
  ghost predicate LastElement(s: string, b: string) {
    && b != "" && '/' !in b
    && exists i, j :: 0 <= i <= j <= |s| && s[i..j] == b && (i == 0 || s[i - 1] == '/') && AllSlashes(s[j..])
  }

  lemma {:induction false} StripCuts(s: string)
    ensures StripSlashes(s) <= s && AllSlashes(s[|StripSlashes(s)|..])
    ensures StripSlashes(s) != "" ==> StripSlashes(s)[|StripSlashes(s)| - 1] != '/'
  {
    if s != "" && s[|s| - 1] == '/' {
      var n := |s| - 1;
      StripCuts(s[..n]);
      assert s == s[..n] + [s[n]];
    }
  }

  lemma {:induction false} AfterCuts(s: string, i: nat)
    requires i == |s| - |AfterSlash(s)|
    ensures s[i..] == AfterSlash(s) && '/' !in AfterSlash(s) && (i > 0 ==> s[i - 1] == '/')
  {
    if s != "" && s[|s| - 1] != '/' {
      var n := |s| - 1;
      AfterCuts(s[..n], i);
      assert s[i..] == s[..n][i..] + [s[n]];
    }
  }

  /** path.Base: "." for the empty path, "/" for slashes alone, otherwise the last element. */
  lemma BaseMeans(s: string)
    ensures s == "" ==> Base(s) == "."
    ensures s != "" && AllSlashes(s) ==> Base(s) == "/"
    ensures s != "" && !AllSlashes(s) ==> LastElement(s, Base(s))
  {
    var head := StripSlashes(s);
    StripCuts(s);
    var i, j := |head| - |AfterSlash(head)|, |head|;
    AfterCuts(head, i);
    if head == "" {
      assert s[0..] == s;
    } else {
      assert s[j - 1] == head[j - 1] != '/';
      assert s[i..j] == head[i..] && (i > 0 ==> s[i - 1] == head[i - 1]);
      assert s[i..j] == Base(s) && AllSlashes(s[j..]);
    }
  }

  function BaseKey(s: string): string { Lower(Base(s)) }

  ghost predicate SameBase(a: string, b: string) { Lower(Base(a)) == Lower(Base(b)) }

  ghost predicate Matches(resolved: string, target: string) { resolved == target || SameBase(resolved, target) }

  /** The exact path wins over a base-name match; among equals the first listed wins. */
  ghost predicate IsPick(files: seq<File>, target: string, m: nat) {
    && m < |files|
    && (if files[m].name == target then forall k :: 0 <= k < m ==> files[k].name != target
        else (forall k :: 0 <= k < |files| ==> files[k].name != target)
             && SameBase(files[m].name, target)
             && forall k :: 0 <= k < m ==> !SameBase(files[k].name, target))
  }

  ghost predicate NoPick(files: seq<File>, target: string) {
    forall k :: 0 <= k < |files| ==> !Matches(files[k].name, target)
  }

  method PickFile(files: seq<File>, target: string) returns (pick: Option<nat>)
    ensures pick.Some? ==> IsPick(files, target, pick.value)
    ensures pick.None? ==> NoPick(files, target)
  {
    var i := 0;
    while i < |files|
      invariant i <= |files| && forall k :: 0 <= k < i ==> files[k].name != target
    {
      if files[i].name == target {
        return Some(i);
      }
      i := i + 1;
    }
    var want := BaseKey(target);
    i := 0;
    while i < |files|
      invariant i <= |files| && forall k :: 0 <= k < i ==> BaseKey(files[k].name) != want
    {
      if BaseKey(files[i].name) == want {
        return Some(i);
      }
      i := i + 1;
    }
    return None;
  }

  /** At most one file can be picked. */
  lemma PickIsUnique(files: seq<File>, target: string, a: nat, b: nat)
    requires IsPick(files, target, a) && IsPick(files, target, b)
    ensures a == b
  {
  }

  /** The indices of every file but the picked one, in order. */
  ghost function OthersOf(files: seq<File>, m: nat): seq<int>
    requires m < |files|
  {
    seq(|files| - 1, i requires 0 <= i < |files| - 1 => files[if i < m then i else i + 1].index)
  }

  method Others(files: seq<File>, m: nat) returns (others: seq<int>)
    requires m < |files|
    ensures others == OthersOf(files, m)
  {
    others := [];
    var i := 0;
    while i < |files|
      invariant i <= |files| && |others| == if i <= m then i else i - 1
      invariant forall k :: 0 <= k < |others| ==> others[k] == files[if k < m then k else k + 1].index
    {
      if i != m {
        others := others + [files[i].index];
      }
      i := i + 1;
    }
  }

  /** With distinct file ids the picked file is the only one not silenced. */
  lemma OnlyTheTargetStays(files: seq<File>, m: nat)
    requires m < |files| && forall i, j :: 0 <= i < j < |files| ==> files[i].index != files[j].index
    ensures forall k :: 0 <= k < |files| ==> (files[k].index in OthersOf(files, m) <==> k != m)
  {
    var others := OthersOf(files, m);
    forall k | 0 <= k < |files|
      ensures files[k].index in others <==> k != m
    {
      if k != m {
        assert others[if k < m then k else k - 1] == files[k].index;
      }
    }
  }

  // ---------- The completion gate ----------

  /** The first listed file of that index is whole. */
  predicate FileWhole(files: seq<File>, index: int) {
    if files == [] then false else if files[0].index == index then files[0].progress >= 1.0
      else FileWhole(files[1..], index)
  }

  method JobComplete(data: Job, t: Torrent, files: seq<File>) returns (ok: bool)
    ensures ok <==> TorrentComplete(t) && (data.resolved == "" || FileWhole(files, data.targetIndex))
  {
    if !TorrentComplete(t) {
      return false;
    }
    if data.resolved == "" {
      return true;
    }
    for i := 0 to |files|
      invariant FileWhole(files, data.targetIndex) == FileWhole(files[i..], data.targetIndex)
    {
      if files[i].index == data.targetIndex {
        return files[i].progress >= 1.0;
      }
      assert files[i..][1..] == files[i + 1..];
    }
    return false;
  }

  // ---------- Hashes claimed by jobs ----------

  predicate Carries(j: Job, h: string) {
    (j.torrentHash != "" && Lower(j.torrentHash) == h) || (j.orphanHash != "" && Lower(j.orphanHash) == h)
  }

  ghost predicate Claimed(jobs: map<nat, Job>, h: string) { exists id :: id in jobs && Carries(jobs[id], h) }

  method ClaimedHashes(jobs: map<nat, Job>) returns (claimed: set<string>)
    ensures forall h :: h in claimed <==> Claimed(jobs, h)
  {
    claimed := {};
    var todo := jobs.Keys;
    while todo != {}
      invariant todo <= jobs.Keys
      invariant forall h :: h in claimed ==> Claimed(jobs, h)
      invariant forall id, h :: id in jobs && id !in todo && Carries(jobs[id], h) ==> h in claimed
      decreases |todo|
    {
      var id :| id in todo;
      todo := todo - {id};
      var j := jobs[id];
      if j.torrentHash != "" {
        assert Carries(j, Lower(j.torrentHash));
        claimed := claimed + {Lower(j.torrentHash)};
      }
      if j.orphanHash != "" {
        assert Carries(j, Lower(j.orphanHash));
        claimed := claimed + {Lower(j.orphanHash)};
      }
    }
  }

  // ---------- The tick's view of qBittorrent ----------

  predicate HasTag(t: Torrent, tag: string) { tag != "" && Collection.HasToken(t.tags, tag) }

  /** The last listed torrent of that hash. */
  function ByHash(ts: seq<Torrent>, h: string): Option<Torrent> {
    if ts == [] then None
    else if Lower(ts[|ts| - 1].hash) == h then Some(ts[|ts| - 1]) else ByHash(ts[..|ts| - 1], h)
  }

  function ByTag(ts: seq<Torrent>, tag: string): Option<Torrent> {
    if ts == [] then None
    else if HasTag(ts[|ts| - 1], tag) then Some(ts[|ts| - 1]) else ByTag(ts[..|ts| - 1], tag)
  }

  ghost predicate IsIndex(ts: seq<Torrent>, byHash: map<string, Torrent>, byTag: map<string, Torrent>) {
    && (forall h :: ByHash(ts, h) == if h in byHash then Some(byHash[h]) else None)
    && (forall tag :: ByTag(ts, tag) == if tag in byTag then Some(byTag[tag]) else None)
  }

  ghost predicate Listed(tags: seq<string>, n: nat, tag: string)
    requires n <= |tags|
  {
    tag != "" && exists k :: 0 <= k < n && Trim(tags[k]) == tag
  }

  lemma ListedPush(tags: seq<string>, i: nat)
    requires i < |tags|
    ensures forall tag :: Listed(tags, i + 1, tag) <==> Listed(tags, i, tag) || (tag != "" && Trim(tags[i]) == tag)
  {
    var tag := Trim(tags[i]);
    assert 0 <= i < i + 1 && Trim(tags[i]) == tag;
    assert tag != "" ==> Listed(tags, i + 1, tag);
  }

  lemma ListedAll(t: Torrent, tag: string)
    ensures Listed(Collection.Split(t.tags), |Collection.Split(t.tags)|, tag) <==> HasTag(t, tag)
  {
  }

  method IndexTags(t: Torrent, before: map<string, Torrent>) returns (byTag: map<string, Torrent>)
    ensures forall tag :: tag in byTag <==> tag in before || HasTag(t, tag)
    ensures forall tag :: tag in byTag ==> byTag[tag] == if HasTag(t, tag) then t else before[tag]
  {
    var tags := Collection.Split(t.tags);
    byTag := before;
    for i := 0 to |tags|
      invariant forall tag :: tag in byTag <==> tag in before || Listed(tags, i, tag)
      invariant forall tag :: tag in byTag ==> byTag[tag] == if Listed(tags, i, tag) then t else before[tag]
    {
      ListedPush(tags, i);
      var tag := Trim(tags[i]);
      if tag != "" {
        byTag := byTag[tag := t];
      }
    }
    forall tag
      ensures Listed(tags, |tags|, tag) <==> HasTag(t, tag)
    {
      ListedAll(t, tag);
    }
  }

  method IndexTorrents(ts: seq<Torrent>) returns (byHash: map<string, Torrent>, byTag: map<string, Torrent>)
    ensures IsIndex(ts, byHash, byTag)
  {
    byHash, byTag := map[], map[];
    for i := 0 to |ts|
      invariant IsIndex(ts[..i], byHash, byTag)
    {
      assert ts[..i + 1][..i] == ts[..i];
      byHash := byHash[Lower(ts[i].hash) := ts[i]];
      byTag := IndexTags(ts[i], byTag);
    }
    assert ts[..|ts|] == ts;
  }

  lemma {:induction false} ByHashHas(ts: seq<Torrent>, h: string)
    ensures ByHash(ts, h).Some? ==> ByHash(ts, h).value in ts && Lower(ByHash(ts, h).value.hash) == h
  {
    if ts != [] && Lower(ts[|ts| - 1].hash) != h {
      ByHashHas(ts[..|ts| - 1], h);
    }
  }

  // ---------- One job, one tick ----------

  /** The job's hash, when it is known or its tag shows it. */
  function KnownHash(c: Client, a: Job): Option<string> {
    if a.torrentHash != "" then Some(Lower(a.torrentHash))
    else if ByTag(c.torrents, a.qbTag).None? then None
    else Some(Lower(ByTag(c.torrents, a.qbTag).value.hash))
  }

  function Seen(c: Client, a: Job): Option<Torrent> {
    if KnownHash(c, a).None? then None else ByHash(c.torrents, KnownHash(c, a).value)
  }

  /** The job as it stands once its hash is learnt. */
  function Associated(c: Client, a: Job): Job {
    if a.torrentHash == "" && KnownHash(c, a).Some? then a.(torrentHash := KnownHash(c, a).value) else a
  }

  predicate TimedOut(c: Client, a: Job) {
    KnownHash(c, a).None? && a.startedAt > 0 && c.now - a.startedAt > ASSOCIATION_GRACE
  }

  predicate Unsafe(c: Client, id: nat, a: Job) {
    Seen(c, a).Some? && !a.scanDone && Seen(c, a).value.progress > 0.0 && !c.safe(id, Seen(c, a).value.hash)
  }

  predicate Vanished(c: Client, a: Job) { KnownHash(c, a).Some? && Seen(c, a).None? }

  /** The selection is due: a wanted file, none selected yet, and the torrent lists its files. */
  ghost predicate Selects(c: Client, id: nat, a: Job) {
    && Seen(c, a).Some? && !Unsafe(c, id, a)
    && a.target != "" && !a.selectionDone
    && Seen(c, a).value.state != "metaDL" && c.files(id, Seen(c, a).value.hash) != []
  }

  /** A due selection is made, otherwise its fields stay. */
  ghost predicate Selected(c: Client, id: nat, a: Job, b: Job) {
    if Selects(c, id, a) then b.selectionDone && Resolution(c, id, Seen(c, a).value.hash, a, b)
    else b.target == a.target && b.selectionDone == a.selectionDone && b.targetIndex == a.targetIndex
         && b.resolved == a.resolved
  }

  /** The picked file is armed when the client silences all the others, otherwise the whole pack comes. */
  ghost predicate Resolution(c: Client, id: nat, hash: string, a: Job, b: Job) {
    var files := c.files(id, hash);
    if exists m: nat :: IsPick(files, a.target, m) && c.accepts(id, hash, OthersOf(files, m)) then
      exists m: nat :: IsPick(files, a.target, m) && b.target == a.target
                       && b.targetIndex == files[m].index && b.resolved == files[m].name
    else b.target == "" && b.targetIndex == a.targetIndex && b.resolved == a.resolved
  }

  /** Everything the code asks for before an import is launched. */
  ghost predicate GateOpen(c: Client, id: nat, a: Job) {
    && Seen(c, a).Some?
    && var t := Seen(c, a).value;
    && TorrentComplete(t)
    && (a.scanDone || c.safe(id, t.hash))
    && (a.target == "" || a.selectionDone)
    && (a.resolved == "" || FileWhole(c.files(id, t.hash), a.targetIndex))
  }

  ghost predicate Fails(c: Client, id: nat, a: Job, count: nat) {
    TimedOut(c, a) || Unsafe(c, id, a) || (Vanished(c, a) && count + 1 >= VANISH_TICKS)
  }

  /** What one drive of job a, absent `count` times in a row before, makes of it. */
  ghost predicate Driven(c: Client, id: nat, a: Job, b: Job, count: nat) {
    && b == a.(torrentHash := b.torrentHash, status := b.status, scanDone := b.scanDone, target := b.target,
               selectionDone := b.selectionDone, targetIndex := b.targetIndex, resolved := b.resolved)
    && b.torrentHash == Associated(c, a).torrentHash
    && b.scanDone == (a.scanDone || (Seen(c, a).Some? && Seen(c, a).value.progress > 0.0))
    && b.status == (if Fails(c, id, a, count) then "error"
                    else if a.status == "downloading" && GateOpen(c, id, a) then "scanning" else a.status)
    && Selected(c, id, a, b)
  }

  ghost function ToImport(c: Client, id: nat, a: Job): Option<Torrent> {
    if GateOpen(c, id, a) && id !in c.busy then Seen(c, a) else None
  }

  lemma SeenIsDriven(c: Client, id: nat, a: Job, b: Job, count: nat)
    requires Seen(c, a).Some? && Selected(c, id, a, b)
    requires b == a.(torrentHash := Associated(c, a).torrentHash, status := b.status, scanDone := b.scanDone,
                     target := b.target, selectionDone := b.selectionDone, targetIndex := b.targetIndex,
                     resolved := b.resolved)
    requires b.scanDone == (a.scanDone || Seen(c, a).value.progress > 0.0)
    requires b.status == if Unsafe(c, id, a) then "error"
                         else if a.status == "downloading" && GateOpen(c, id, a) then "scanning" else a.status
    ensures Driven(c, id, a, b, count)
  {
    assert !Vanished(c, a) && !TimedOut(c, a);
  }

  lemma UnseenIsDriven(c: Client, id: nat, a: Job, b: Job, count: nat)
    requires Seen(c, a).None? && Active(a)
    requires b == if Fails(c, id, a, count) then Associated(c, a).(status := "error") else Associated(c, a)
    ensures Driven(c, id, a, b, count) && ToImport(c, id, a) == None
  {
  }

  function Count(missing: map<nat, nat>, id: nat): nat { if id in missing then missing[id] else 0 }

  /** Consecutive absences are counted, a sighting or a verdict forgets them. */
  ghost function NextCount(c: Client, a: Job, n: nat): nat {
    if a.sourceType != "torrent" then n
    else if !Active(a) then 0
    else if KnownHash(c, a).None? then n
    else if Seen(c, a).Some? || n + 1 >= VANISH_TICKS then 0 else n + 1
  }

  ghost predicate Recounted(c: Client, id: nat, a: Job, before: map<nat, nat>, after: map<nat, nat>) {
    && (forall k :: k != id ==> Count(after, k) == Count(before, k))
    && Count(after, id) == NextCount(c, a, Count(before, id))
  }

  // ---------- A whole tick ----------

  datatype Launch = Launch(id: nat, job: Job, torrent: Torrent)

  datatype State = State(jobs: map<nat, Job>, missing: map<nat, nat>)

  function Orphan(t: Torrent): Job {
    Job(t.name, "torrent", "completed_unorganized", "", Lower(t.hash), "", 0, false, "", false, 0, "")
  }

  ghost predicate DroveOne(c: Client, id: nat, a: Job, b: Job, n: nat, m: nat) {
    (if Active(a) then Driven(c, id, a, b, n) else b == a) && m == NextCount(c, a, n)
  }

  ghost predicate DroveAll(a: State, b: State, c: Client) {
    && b.jobs.Keys == a.jobs.Keys
    && (forall id :: id !in a.jobs ==> Count(b.missing, id) == Count(a.missing, id))
    && forall id :: id in a.jobs ==> DroveOne(c, id, a.jobs[id], b.jobs[id], Count(a.missing, id), Count(b.missing, id))
  }

  /** A job takes its snapshot of the tick's start into the import. */
  ghost predicate LaunchOf(a: State, c: Client, l: Launch) {
    l.id in a.jobs && l.job == a.jobs[l.id] && Active(l.job) && ToImport(c, l.id, l.job) == Some(l.torrent)
  }

  ghost predicate OrphanOf(ts: seq<Torrent>, j: Job) {
    exists i :: 0 <= i < |ts| && TorrentComplete(ts[i]) && j == Orphan(ts[i])
  }

  ghost predicate NewOrphan(a: map<nat, Job>, b: map<nat, Job>, h: string) {
    exists id :: id in b && id !in a && b[id].orphanHash == h
  }

  /** The new jobs: one for each hash of a whole torrent that no job carried, and no others. */
  ghost predicate Minted(a: map<nat, Job>, b: map<nat, Job>, ts: seq<Torrent>) {
    && (forall id :: id in a ==> id in b && b[id] == a[id])
    && (forall id :: id in b && id !in a ==> OrphanOf(ts, b[id]) && !Claimed(a, b[id].orphanHash))
    && (forall i, j :: i in b && j in b && i !in a && j !in a && i != j ==> b[i].orphanHash != b[j].orphanHash)
    && (forall i :: 0 <= i < |ts| && TorrentComplete(ts[i]) && !Claimed(a, Lower(ts[i].hash)) ==>
        NewOrphan(a, b, Lower(ts[i].hash)))
  }

  lemma LowerTwice(s: string)
    ensures Lower(Lower(s)) == Lower(s)
  {
  }

  lemma ClaimedAfter(c: Client, id: nat, before: map<nat, Job>, after: map<nat, Job>, a: Job, b: Job, h: string)
    requires id in before && before[id] == a && after == before[id := b]
    requires b.orphanHash == a.orphanHash && b.torrentHash == Associated(c, a).torrentHash
    requires h == if KnownHash(c, a).Some? then KnownHash(c, a).value else ""
    ensures forall k :: Claimed(after, k) <==> Claimed(before, k) || (k == h && h != "")
  {
    forall k
      ensures Carries(b, k) <==> Carries(a, k) || (k == h && h != "")
    {
      if a.torrentHash == "" && KnownHash(c, a).Some? {
        LowerTwice(ByTag(c.torrents, a.qbTag).value.hash);
      }
    }
    forall k
      ensures Claimed(after, k) <==> Claimed(before, k) || (k == h && h != "")
    {
      ClaimedStep(id, before, after, a, b, k);
    }
  }

  lemma ClaimedStep(id: nat, before: map<nat, Job>, after: map<nat, Job>, a: Job, b: Job, k: string)
    requires id in before && before[id] == a && after == before[id := b]
    requires Carries(a, k) ==> Carries(b, k)
    ensures Claimed(after, k) <==> Claimed(before, k) || Carries(b, k)
  {
    if Claimed(before, k) {
      var i :| i in before && Carries(before[i], k);
      assert i in after && Carries(after[i], k);
    }
    if Claimed(after, k) {
      var i :| i in after && Carries(after[i], k);
      if i != id {
        assert i in before && Carries(before[i], k);
      }
    }
    if Carries(b, k) {
      assert id in after && Carries(after[id], k);
    }
  }

  /** The same with the jobs in `todo` not yet visited. */
  ghost predicate DroveBut(a: State, b: State, c: Client, todo: set<nat>) {
    && b.jobs.Keys == a.jobs.Keys
    && (forall id :: id !in a.jobs ==> Count(b.missing, id) == Count(a.missing, id))
    && (forall id :: id in a.jobs && id in todo ==>
          b.jobs[id] == a.jobs[id] && Count(b.missing, id) == Count(a.missing, id))
    && (forall id :: id in a.jobs && id !in todo ==>
          DroveOne(c, id, a.jobs[id], b.jobs[id], Count(a.missing, id), Count(b.missing, id)))
  }

  ghost predicate OncePerJob(launched: seq<Launch>) {
    forall i, j :: 0 <= i < j < |launched| ==> launched[i].id != launched[j].id
  }

  ghost predicate LaunchedBut(a: State, c: Client, launched: seq<Launch>, todo: set<nat>) {
    OncePerJob(launched) && forall l :: l in launched <==> LaunchOf(a, c, l) && l.id !in todo
  }

  lemma DroveStep(a: State, s: State, b: State, c: Client, todo: set<nat>, id: nat)
    requires DroveBut(a, s, c, todo) && id in a.jobs && id in todo && id in b.jobs && b.jobs == s.jobs[id := b.jobs[id]]
    requires forall k :: k != id ==> Count(b.missing, k) == Count(s.missing, k)
    requires DroveOne(c, id, a.jobs[id], b.jobs[id], Count(a.missing, id), Count(b.missing, id))
    ensures DroveBut(a, b, c, todo - {id})
  {
    forall k | k in a.jobs && k !in todo - {id}
      ensures DroveOne(c, k, a.jobs[k], b.jobs[k], Count(a.missing, k), Count(b.missing, k))
    {
      if k != id {
        assert b.jobs[k] == s.jobs[k] && Count(b.missing, k) == Count(s.missing, k);
        assert DroveOne(c, k, a.jobs[k], s.jobs[k], Count(a.missing, k), Count(s.missing, k));
      }
    }
  }

  lemma LaunchStep(a: State, c: Client, launched: seq<Launch>, todo: set<nat>, id: nat, launch: Option<Torrent>)
    requires LaunchedBut(a, c, launched, todo) && id in a.jobs && id in todo
    requires launch == if Active(a.jobs[id]) then ToImport(c, id, a.jobs[id]) else None
    ensures LaunchedBut(a, c, if launch.Some? then launched + [Launch(id, a.jobs[id], launch.value)]
      else launched, todo - {id})
  {
    var more := if launch.Some? then launched + [Launch(id, a.jobs[id], launch.value)] else launched;
    forall l
      ensures l in more <==> LaunchOf(a, c, l) && l.id !in todo - {id}
    {
      assert l in more <==> l in launched || (launch.Some? && l == Launch(id, a.jobs[id], launch.value));
    }
    forall i | 0 <= i < |launched|
      ensures launched[i].id != id
    {
      assert launched[i] in launched;
    }
  }

  ghost predicate NewJobs(a: map<nat, Job>, b: map<nat, Job>, ts: seq<Torrent>, claimed: set<string>) {
    && (forall id :: id in a ==> id in b && b[id] == a[id])
    && (forall id :: id in b && id !in a ==>
          OrphanOf(ts, b[id]) && !Claimed(a, b[id].orphanHash) && b[id].orphanHash in claimed)
    && (forall j, k :: j in b && k in b && j !in a && k !in a && j != k ==> b[j].orphanHash != b[k].orphanHash)
  }

  /** After the first i torrents; `claimed` also remembers an empty hash just minted. */
  ghost predicate ClaimsKept(a: map<nat, Job>, b: map<nat, Job>, ts: seq<Torrent>, i: nat, claimed: set<string>)
    requires i <= |ts|
  {
    && (forall h :: Claimed(b, h) ==> h in claimed)
    && (forall h :: h in claimed ==> Claimed(a, h) || NewOrphan(a, b, h))
    && (forall k :: 0 <= k < i && TorrentComplete(ts[k]) ==> Lower(ts[k].hash) in claimed)
  }

  lemma ClaimedMint(b: map<nat, Job>, next: map<nat, Job>, id: nat, t: Torrent)
    requires id !in b && next == b[id := Orphan(t)]
    ensures forall k :: Claimed(next, k) <==> Claimed(b, k) || (k == Lower(t.hash) && k != "")
  {
    LowerTwice(t.hash);
    forall k
      ensures Claimed(next, k) <==> Claimed(b, k) || (k == Lower(t.hash) && k != "")
    {
      assert Carries(next[id], k) <==> k == Lower(t.hash) && k != "";
      if Claimed(next, k) {
        var x :| x in next && Carries(next[x], k);
        assert x != id ==> x in b && Carries(b[x], k);
      }
      if Claimed(b, k) {
        var x :| x in b && Carries(b[x], k);
        assert x in next && Carries(next[x], k);
      }
    }
  }

  lemma ClaimedGrows(a: map<nat, Job>, b: map<nat, Job>, h: string)
    requires (forall id :: id in a ==> id in b && b[id] == a[id]) && Claimed(a, h)
    ensures Claimed(b, h)
  {
    var x :| x in a && Carries(a[x], h);
    assert x in b && Carries(b[x], h);
  }

  lemma MintStep(a: map<nat, Job>, b: map<nat, Job>, id: nat, ts: seq<Torrent>, i: nat, claimed: set<string>)
    requires i < |ts| && NewJobs(a, b, ts, claimed) && id !in b && !Claimed(b, Lower(ts[i].hash))
    requires TorrentComplete(ts[i]) && Lower(ts[i].hash) !in claimed
    ensures NewJobs(a, b[id := Orphan(ts[i])], ts, claimed + {Lower(ts[i].hash)})
  {
    var h, next := Lower(ts[i].hash), b[id := Orphan(ts[i])];
    assert OrphanOf(ts, next[id]);
    if Claimed(a, h) {
      ClaimedGrows(a, b, h);
    }
    forall j, k | j in next && k in next && j !in a && k !in a && j != k
      ensures next[j].orphanHash != next[k].orphanHash
    {
      assert j == id || next[j] == b[j];
      assert k == id || next[k] == b[k];
    }
  }

  lemma ClaimsStep(a: map<nat, Job>, b: map<nat, Job>, id: nat, ts: seq<Torrent>, i: nat, claimed: set<string>)
    requires i < |ts| && ClaimsKept(a, b, ts, i, claimed) && id !in b && forall k :: k in a ==> k in b
    ensures ClaimsKept(a, b[id := Orphan(ts[i])], ts, i + 1, claimed + {Lower(ts[i].hash)})
  {
    var next := b[id := Orphan(ts[i])];
    ClaimedMint(b, next, id, ts[i]);
    forall h | h in claimed + {Lower(ts[i].hash)} && !Claimed(a, h)
      ensures NewOrphan(a, next, h)
    {
      if h in claimed {
        var k :| k in b && k !in a && b[k].orphanHash == h;
        assert k in next && next[k] == b[k];
      } else {
        assert id in next && next[id].orphanHash == h;
      }
    }
  }

  ghost predicate TickStep(a: State, mid: State, b: State, c: Client) {
    DroveAll(a, mid, c) && Minted(mid.jobs, b.jobs, c.torrents) && b.missing == mid.missing
  }

  /** The states in which the client has not settled on what it holds. */
  ghost function Unsettled(): seq<string> {
    ["checkingDL", "checkingUP", "checkingResumeData", "allocating", "moving", "metaDL"]
  }

  // ---------- Runs ----------

  /** What the rest of the program may do between ticks: add jobs that are not orphans and have no
      selection made, and change anything of a job but its orphan hash and its selection. */
  ghost predicate Outside(a: map<nat, Job>, b: map<nat, Job>) {
    && (forall id :: id in a ==>
          id in b && b[id].orphanHash == a[id].orphanHash && b[id].target == a[id].target
          && b[id].selectionDone == a[id].selectionDone && b[id].targetIndex == a[id].targetIndex &&
              b[id].resolved == a[id].resolved)
    && (forall id :: id in b && id !in a ==> b[id].orphanHash == "" && !b[id].selectionDone)
  }

  /** A tick, a change from outside, or a restart, which forgets the absence counts. */
  datatype Event = Tick(client: Client) | Change | Restart

  ghost predicate Step(a: State, b: State, e: Event) {
    match e
    case Tick(c) => exists mid :: TickStep(a, mid, b, c)
    case Change => Outside(a.jobs, b.jobs) && b.missing == a.missing
    case Restart => b.jobs == a.jobs && b.missing == map[]
  }

  ghost predicate IsRun(states: seq<State>, events: seq<Event>) {
    && |states| == |events| + 1
    && states[0] == State(map[], map[])
    && forall k :: 0 <= k < |events| ==> Step(states[k], states[k + 1], events[k])
  }

  /** Orphan jobs have different hashes, spelt in lower case. */
  ghost predicate OrphansDiffer(jobs: map<nat, Job>) {
    && (forall id :: id in jobs ==> Lower(jobs[id].orphanHash) == jobs[id].orphanHash)
    && (forall i, j :: i in jobs && j in jobs && i != j && jobs[i].orphanHash != "" ==>
        jobs[i].orphanHash != jobs[j].orphanHash)
  }

  /** A selection that was made and not given up names a file that matches the target. */
  ghost predicate Armed(j: Job) { j.selectionDone && j.target != "" ==> Matches(j.resolved, j.target) }

  ghost predicate Inv(jobs: map<nat, Job>) { OrphansDiffer(jobs) && forall id :: id in jobs ==> Armed(jobs[id]) }

  lemma DriveKeepsArmed(c: Client, id: nat, a: Job, b: Job, n: nat)
    requires Driven(c, id, a, b, n) && Armed(a)
    ensures Armed(b) && b.orphanHash == a.orphanHash
  {
  }

  lemma DriveKeepsInv(a: State, mid: State, c: Client)
    requires DroveAll(a, mid, c) && Inv(a.jobs)
    ensures Inv(mid.jobs)
  {
    forall id | id in a.jobs
      ensures Armed(mid.jobs[id]) && mid.jobs[id].orphanHash == a.jobs[id].orphanHash
    {
      assert DroveOne(c, id, a.jobs[id], mid.jobs[id], Count(a.missing, id), Count(mid.missing, id));
      if Active(a.jobs[id]) {
        DriveKeepsArmed(c, id, a.jobs[id], mid.jobs[id], Count(a.missing, id));
      }
    }
  }

  lemma OrphanIsArmed(ts: seq<Torrent>, j: Job)
    requires OrphanOf(ts, j)
    ensures Armed(j) && Lower(j.orphanHash) == j.orphanHash
  {
    var i :| 0 <= i < |ts| && TorrentComplete(ts[i]) && j == Orphan(ts[i]);
    LowerTwice(ts[i].hash);
  }

  lemma MintKeepsInv(a: map<nat, Job>, b: map<nat, Job>, ts: seq<Torrent>)
    requires Minted(a, b, ts) && Inv(a)
    ensures Inv(b)
  {
    forall id | id in b
      ensures Armed(b[id]) && Lower(b[id].orphanHash) == b[id].orphanHash
    {
      if id !in a {
        OrphanIsArmed(ts, b[id]);
      }
    }
    forall i, j | i in b && j in b && i != j && b[i].orphanHash != ""
      ensures b[i].orphanHash != b[j].orphanHash
    {
      if i in a && b[i].orphanHash == b[j].orphanHash {
        assert Carries(a[i], b[j].orphanHash);
      }
      if j in a && b[i].orphanHash == b[j].orphanHash {
        assert Carries(a[j], b[i].orphanHash);
      }
    }
  }

  lemma StepKeepsInv(a: State, b: State, e: Event)
    requires Step(a, b, e) && Inv(a.jobs)
    ensures Inv(b.jobs)
  {
    match e
    case Tick(c) =>
      var mid :| TickStep(a, mid, b, c);
      DriveKeepsInv(a, mid, c);
      MintKeepsInv(mid.jobs, b.jobs, c.torrents);
    case Change =>
      forall id | id in b.jobs
        ensures Armed(b.jobs[id]) && Lower(b.jobs[id].orphanHash) == b.jobs[id].orphanHash
      {
      }
    case Restart =>
  }

  lemma {:induction false} RunKeepsInv(states: seq<State>, events: seq<Event>, k: nat)
    requires IsRun(states, events) && k < |states|
    ensures Inv(states[k].jobs)
  {
    if k > 0 {
      var m := k - 1;
      RunKeepsInv(states, events, m);
      StepKeepsInv(states[m], states[m + 1], events[m]);
    }
  }

  /** In every run, a hash has at most one orphan job. */
  lemma OneOrphanPerHash(states: seq<State>, events: seq<Event>, k: nat, i: nat, j: nat)
    requires IsRun(states, events) && k < |states| && i in states[k].jobs && j in states[k].jobs
    requires states[k].jobs[i].orphanHash == states[k].jobs[j].orphanHash != ""
    ensures i == j
  {
    RunKeepsInv(states, events, k);
  }

  /** A tick makes an orphan job only for a whole torrent whose hash no job carried when it began. */
  lemma OrphansAreUnclaimed(a: State, b: State, c: Client, id: nat)
    requires Step(a, b, Tick(c)) && id in b.jobs && id !in a.jobs
    ensures OrphanOf(c.torrents, b.jobs[id]) && !Claimed(a.jobs, b.jobs[id].orphanHash)
  {
    var mid :| TickStep(a, mid, b, c);
    var h := b.jobs[id].orphanHash;
    if Claimed(a.jobs, h) {
      var x :| x in a.jobs && Carries(a.jobs[x], h);
      assert DroveOne(c, x, a.jobs[x], mid.jobs[x], Count(a.missing, x), Count(mid.missing, x));
      assert Carries(mid.jobs[x], h);
    }
  }

  /** What a tick mints, it mints from the jobs it has driven. */
  lemma TickMints(a: State, b: State, c: Client) returns (mid: State)
    requires Step(a, b, Tick(c))
    ensures Minted(mid.jobs, b.jobs, c.torrents) && a.jobs.Keys == mid.jobs.Keys
  {
    mid :| TickStep(a, mid, b, c);
  }

  lemma MintedCarries(a: map<nat, Job>, b: map<nat, Job>, ts: seq<Torrent>, i: nat)
    requires Minted(a, b, ts) && i < |ts| && TorrentComplete(ts[i]) && ts[i].hash != ""
    ensures Claimed(b, Lower(ts[i].hash))
  {
    var h := Lower(ts[i].hash);
    if Claimed(a, h) {
      ClaimedGrows(a, b, h);
    } else {
      assert NewOrphan(a, b, h);
      var id :| id in b && id !in a && b[id].orphanHash == h;
      LowerTwice(ts[i].hash);
      assert Carries(b[id], h);
    }
  }

  /** After a tick a whole torrent is carried by some job if and only if it has a hash. */
  lemma CarriedIffHash(a: State, b: State, c: Client, i: nat)
    requires Step(a, b, Tick(c)) && i < |c.torrents|
    requires c.torrents[i].amountLeft == 0 && c.torrents[i].progress >= 1.0 && c.torrents[i].state !in Unsettled()
    ensures Claimed(b.jobs, Lower(c.torrents[i].hash)) <==> c.torrents[i].hash != ""
  {
    if c.torrents[i].hash != "" {
      var mid := TickMints(a, b, c);
      MintedCarries(mid.jobs, b.jobs, c.torrents, i);
    }
  }

  /** So a whole torrent without a hash is recorded as a new orphan by every tick. */
  lemma EmptyHashIsMintedAgain(a: State, b: State, c: Client, i: nat)
    requires Step(a, b, Tick(c)) && i < |c.torrents| && TorrentComplete(c.torrents[i]) && c.torrents[i].hash == ""
    ensures NewOrphan(a.jobs, b.jobs, "")
  {
    var mid := TickMints(a, b, c);
    assert !Claimed(mid.jobs, "");
    assert NewOrphan(mid.jobs, b.jobs, Lower(c.torrents[i].hash));
  }

  const HASHLESS: Torrent := Torrent("x", "", "", "uploading", 0, 1.0)

  lemma MintsHashless(c: Client, jobs: map<nat, Job>, id: nat)
    requires c.torrents == [HASHLESS] && id !in jobs && forall k :: k in jobs ==> jobs[k] == Orphan(HASHLESS)
    ensures Step(State(jobs, map[]), State(jobs[id := Orphan(HASHLESS)], map[]), Tick(c))
  {
    var a, b := State(jobs, map[]), State(jobs[id := Orphan(HASHLESS)], map[]);
    assert DroveAll(a, a, c);
    assert OrphanOf(c.torrents, Orphan(HASHLESS)) by {
      assert c.torrents[0] == HASHLESS;
    }
    assert NewOrphan(a.jobs, b.jobs, "") by {
      assert id in b.jobs && id !in a.jobs && b.jobs[id].orphanHash == "";
    }
    assert TickStep(a, a, b, c);
  }

  /** Two ticks over one such torrent leave two orphans of it. */
  lemma TwoOrphansOfOneTorrent(c: Client) returns (states: seq<State>, events: seq<Event>)
    requires c.torrents == [HASHLESS]
    ensures IsRun(states, events) && |events| == 2
    ensures states[2].jobs == map[0 := Orphan(HASHLESS), 1 := Orphan(HASHLESS)]
  {
    var none, one: map<nat, Job> := map[], map[0 := Orphan(HASHLESS)];
    MintsHashless(c, none, 0);
    MintsHashless(c, one, 1);
    states := [State(none, map[]), State(none[0 := Orphan(HASHLESS)], map[]), State(one[1 := Orphan(HASHLESS)], map[])];
    events := [Tick(c), Tick(c)];
    assert none[0 := Orphan(HASHLESS)] == one;
  }

  /** In every run, a launched import is of a whole, scanned torrent; and when the job still has a
      target, its selection was persisted, names a matching file, and that file is whole. */
  lemma ImportIsGated(states: seq<State>, events: seq<Event>, k: nat, l: Launch)
    requires IsRun(states, events) && k < |events| && events[k].Tick? && LaunchOf(states[k], events[k].client, l)
    ensures l.torrent.amountLeft == 0 && l.torrent.progress >= 1.0 && !(l.torrent.state in Unsettled())
    ensures l.job == states[k].jobs[l.id] && l.id !in events[k].client.busy
    ensures l.torrent in events[k].client.torrents
    ensures l.job.torrentHash != "" ==> Lower(l.torrent.hash) == Lower(l.job.torrentHash)
    ensures l.job.scanDone || events[k].client.safe(l.id, l.torrent.hash)
    ensures l.job.target == "" ||
            (l.job.selectionDone && Matches(l.job.resolved, l.job.target)
             && (BaseKey(l.job.target) != "." ==>
                   FileWhole(events[k].client.files(l.id, l.torrent.hash), l.job.targetIndex)))
  {
    RunKeepsInv(states, events, k);
    assert Armed(states[k].jobs[l.id]);
    ByHashHas(events[k].client.torrents, KnownHash(events[k].client, l.job).value);
  }

  // ---------- Removal from the client ----------

  /** For how many ticks in a row, up to step k, the job's known torrent was not listed. */
  ghost function AbsentFor(states: seq<State>, events: seq<Event>, k: nat, id: nat): nat
    requires |states| == |events| + 1 && k < |states|
  {
    if k == 0 then 0
    else
      var n := AbsentFor(states, events, k - 1, id);
      if events[k - 1].Tick? && id in states[k - 1].jobs && states[k - 1].jobs[id].sourceType == "torrent" then
        var a := states[k - 1].jobs[id];
        if !Active(a) || Seen(events[k - 1].client, a).Some? then 0
        else if KnownHash(events[k - 1].client, a).None? then n else n + 1
      else n
  }

  lemma TickCounts(a: State, b: State, c: Client, id: nat)
    requires Step(a, b, Tick(c))
    ensures Count(b.missing, id) == if id in a.jobs then NextCount(c, a.jobs[id], Count(a.missing, id))
      else Count(a.missing, id)
  {
    var mid :| TickStep(a, mid, b, c);
    if id in a.jobs {
      assert DroveOne(c, id, a.jobs[id], mid.jobs[id], Count(a.missing, id), Count(mid.missing, id));
    }
  }

  lemma {:induction false} CountIsAbsence(states: seq<State>, events: seq<Event>, k: nat, id: nat)
    requires IsRun(states, events) && k < |states|
    ensures Count(states[k].missing, id) <= AbsentFor(states, events, k, id)
  {
    if k > 0 {
      var m := k - 1;
      CountIsAbsence(states, events, m, id);
      if events[m].Tick? {
        TickCounts(states[m], states[m + 1], events[m].client, id);
      }
    }
  }

  /** In every run, a job that a tick fails was never taken by the client, or failed the file scan, or
      its torrent was missing in this tick and the two before it (ticks that could not tell aside). */
  lemma FailsForCause(states: seq<State>, events: seq<Event>, k: nat, id: nat)
    requires IsRun(states, events) && k < |events| && events[k].Tick? && id in states[k].jobs
    requires Active(states[k].jobs[id])
    ensures id in states[k + 1].jobs
    ensures states[k + 1].jobs[id].status == "error" ==>
            || (var (c, a) := (events[k].client, states[k].jobs[id]);
                KnownHash(c, a).None? && a.startedAt > 0 && c.now - a.startedAt > 600)
            || Unsafe(events[k].client, id, states[k].jobs[id])
            || (Vanished(events[k].client, states[k].jobs[id]) && AbsentFor(states, events, k + 1, id) >= 3)
  {
    var a, c := states[k], events[k].client;
    CountIsAbsence(states, events, k, id);
    var mid :| TickStep(a, mid, states[k + 1], c);
    assert DroveOne(c, id, a.jobs[id], mid.jobs[id], Count(a.missing, id), Count(mid.missing, id));
  }

  /** In every run, a tick that lists the files of a job whose selection is due leaves it made: the
      picked file armed with all the others silenced, or the whole pack. */
  lemma SelectionIsMade(states: seq<State>, events: seq<Event>, k: nat, id: nat)
    requires IsRun(states, events) && k < |events| && events[k].Tick? && id in states[k].jobs
    requires states[k].jobs[id].sourceType == "torrent"
    requires states[k].jobs[id].status in ["downloading", "scanning", "importing"]
    requires Selects(events[k].client, id, states[k].jobs[id])
    ensures id in states[k + 1].jobs && states[k + 1].jobs[id].selectionDone
    ensures Resolution(events[k].client, id, Seen(events[k].client, states[k].jobs[id]).value.hash,
                       states[k].jobs[id], states[k + 1].jobs[id])
  {
    var a, c := states[k], events[k].client;
    var mid :| TickStep(a, mid, states[k + 1], c);
    assert DroveOne(c, id, a.jobs[id], mid.jobs[id], Count(a.missing, id), Count(mid.missing, id));
  }

  class Watcher {
    var jobs: map<nat, Job>
    var missing: map<nat, nat>

    method Fail(id: nat)
      requires id in jobs
      modifies this`jobs
      ensures jobs == if old(jobs)[id].status == "error" then old(jobs)
        else old(jobs)[id := old(jobs)[id].(status := "error")]
    {
      if jobs[id].status != "error" {
        jobs := jobs[id := jobs[id].(status := "error")];
      }
    }

    method SelectTargetFile(id: nat, c: Client, t: Torrent, target: string, files: seq<File>)
      requires id in jobs && jobs[id].target == target && files == c.files(id, t.hash)
      modifies this`jobs
      ensures id in jobs && jobs == old(jobs)[id := jobs[id]]
      ensures jobs[id] == old(jobs)[id].(target := jobs[id].target, selectionDone := true,
                                         targetIndex := jobs[id].targetIndex, resolved := jobs[id].resolved)
      ensures Resolution(c, id, t.hash, old(jobs)[id], jobs[id])
    {
      var j := jobs[id];
      var pick := PickFile(files, target);
      if pick.None? {
        jobs := jobs[id := j.(target := "", selectionDone := true)];
        return;
      }
      var others := Others(files, pick.value);
      if !c.accepts(id, t.hash, others) {
        jobs := jobs[id := j.(target := "", selectionDone := true)];
        return;
      }
      jobs := jobs[id := j.(targetIndex := files[pick.value].index, resolved := files[pick.value].name,
                            selectionDone := true)];
    }

    /** Learn the hash from the job's tag, or give up once the grace period is over. */
    method Associate(id: nat, data: Job, c: Client, byTag: map<string, Torrent>) returns (hash: Option<string>)
      requires id in jobs && jobs[id] == data && Active(data)
      requires forall tag :: ByTag(c.torrents, tag) == if tag in byTag then Some(byTag[tag]) else None
      modifies this`jobs
      ensures hash == KnownHash(c, data)
      ensures jobs == old(jobs)[id := if TimedOut(c, data) then data.(status := "error") else Associated(c, data)]
    {
      if Lower(data.torrentHash) != "" {
        return Some(Lower(data.torrentHash));
      }
      if data.qbTag !in byTag {
        if data.startedAt > 0 && c.now - data.startedAt > ASSOCIATION_GRACE {
          Fail(id);
        }
        return None;
      }
      hash := Some(Lower(byTag[data.qbTag].hash));
      jobs := jobs[id := jobs[id].(torrentHash := hash.value)];
    }

    method Absent(id: nat)
      requires id in jobs && jobs[id].status != "error"
      modifies this`jobs, this`missing
      ensures jobs == if Count(old(missing), id) + 1 >= VANISH_TICKS
                      then old(jobs)[id := old(jobs)[id].(status := "error")] else old(jobs)
      ensures forall k :: k != id ==> Count(missing, k) == Count(old(missing), k)
      ensures Count(missing, id) == if Count(old(missing), id) + 1 >= VANISH_TICKS then 0
        else Count(old(missing), id) + 1
    {
      missing := missing[id := Count(missing, id) + 1];
      if missing[id] >= VANISH_TICKS {
        missing := missing - {id};
        Fail(id);
      }
    }

    method DriveJob(id: nat, data: Job, c: Client, byHash: map<string, Torrent>, byTag: map<string, Torrent>)
      returns (h: string, launch: Option<Torrent>)
      requires id in jobs && jobs[id] == data && Active(data) && IsIndex(c.torrents, byHash, byTag)
      modifies this`jobs, this`missing
      ensures id in jobs && jobs == old(jobs)[id := jobs[id]]
      ensures Driven(c, id, data, jobs[id], Count(old(missing), id)) && launch == ToImport(c, id, data)
      ensures Recounted(c, id, data, old(missing), missing)
      ensures h == if KnownHash(c, data).Some? then KnownHash(c, data).value else ""
    {
      var hash := Associate(id, data, c, byTag);
      if hash.None? {
        UnseenIsDriven(c, id, data, jobs[id], Count(old(missing), id));
        return "", None;
      }
      h := hash.value;
      if h !in byHash {
        Absent(id);
        UnseenIsDriven(c, id, data, jobs[id], Count(old(missing), id));
        return h, None;
      }
      missing := missing - {id};
      launch := DriveSeen(id, data, c, byHash[h], Count(old(missing), id));
    }

    /** The safety scan, once some bytes have arrived. */
    method ScanOnce(id: nat, data: Job, c: Client, t: Torrent) returns (failed: bool)
      requires id in jobs && jobs[id].scanDone == data.scanDone && Active(jobs[id])
      modifies this`jobs
      ensures failed <==> !data.scanDone && t.progress > 0.0 && !c.safe(id, t.hash)
      ensures jobs == old(jobs)[id := old(jobs)[id].(scanDone := data.scanDone || t.progress > 0.0,
                                                     status := if failed then "error" else old(jobs)[id].status)]
    {
      failed := false;
      if !data.scanDone && t.progress > 0.0 {
        var isSafe := c.safe(id, t.hash);
        jobs := jobs[id := jobs[id].(scanDone := true)];
        if !isSafe {
          Fail(id);
          failed := true;
        }
      }
      assert jobs == jobs[id := jobs[id]];
    }

    /** The part of the drive that follows once the torrent is there. */
    method DriveSeen(id: nat, data: Job, c: Client, t: Torrent, ghost count: nat) returns (launch: Option<Torrent>)
      requires id in jobs && jobs[id] == Associated(c, data) && Active(data) && Seen(c, data) == Some(t)
      modifies this`jobs
      ensures id in jobs && jobs == old(jobs)[id := jobs[id]]
      ensures Driven(c, id, data, jobs[id], count) && launch == ToImport(c, id, data)
    {
      launch := DriveFurther(id, data, c, t);
      SeenIsDriven(c, id, data, jobs[id], count);
    }

    /** Scan, selection and gate of a job whose torrent is listed. */
    method DriveFurther(id: nat, data: Job, c: Client, t: Torrent) returns (launch: Option<Torrent>)
      requires id in jobs && jobs[id] == Associated(c, data) && Active(data) && Seen(c, data) == Some(t)
      modifies this`jobs
      ensures id in jobs && jobs == old(jobs)[id := jobs[id]]
      ensures jobs[id] == Associated(c, data).(scanDone := data.scanDone || t.progress > 0.0, status := jobs[id].status,
        target := jobs[id].target, selectionDone := jobs[id].selectionDone, targetIndex := jobs[id].targetIndex,
        resolved := jobs[id].resolved)
      ensures jobs[id].status == if Unsafe(c, id, data) then "error"
        else if data.status == "downloading" && GateOpen(c, id, data) then "scanning" else data.status
      ensures Selected(c, id, data, jobs[id]) && launch == ToImport(c, id, data)
    {
      launch := None;
      var failed := ScanOnce(id, data, c, t);
      if failed {
        return;
      }
      if data.target != "" && !data.selectionDone {
        if t.state == "metaDL" {
          return;
        }
        var files := c.files(id, t.hash);
        if files == [] {
          return;
        }
        SelectTargetFile(id, c, t, data.target, files);
        return;
      }
      launch := LaunchWhenComplete(id, data, c, t);
    }

    /** The completion gate. */
    method LaunchWhenComplete(id: nat, data: Job, c: Client, t: Torrent) returns (launch: Option<Torrent>)
      requires id in jobs
      modifies this`jobs
      ensures var whole := TorrentComplete(t) && (data.resolved == "" ||
          FileWhole(c.files(id, t.hash), data.targetIndex));
        && launch == (if whole && id !in c.busy then Some(t) else None)
        && jobs == if whole && data.status == "downloading" then old(jobs)[id := old(jobs)[id].(status := "scanning")]
                   else old(jobs)
    {
      launch := None;
      var complete := JobComplete(data, t, c.files(id, t.hash));
      if complete {
        if data.status == "downloading" {
          jobs := jobs[id := jobs[id].(status := "scanning")];
        }
        if id !in c.busy {
          launch := Some(t);
        }
      }
    }

    /** One job of the tick's list: only active torrent jobs are driven. */
    method Visit(id: nat, data: Job, c: Client, byHash: map<string, Torrent>, byTag: map<string, Torrent>)
      returns (h: string, launch: Option<Torrent>)
      requires id in jobs && jobs[id] == data && IsIndex(c.torrents, byHash, byTag)
      modifies this`jobs, this`missing
      ensures id in jobs && jobs == old(jobs)[id := jobs[id]]
      ensures DroveOne(c, id, data, jobs[id], Count(old(missing), id), Count(missing, id))
      ensures forall k :: k != id ==> Count(missing, k) == Count(old(missing), k)
      ensures launch == if Active(data) then ToImport(c, id, data) else None
      ensures forall k :: Claimed(jobs, k) <==> Claimed(old(jobs), k) || (k == h && h != "")
    {
      h, launch := "", None;
      if data.sourceType != "torrent" {
        return;
      }
      if !Active(data) {
        missing := missing - {id};
        return;
      }
      h, launch := DriveJob(id, data, c, byHash, byTag);
      ClaimedAfter(c, id, old(jobs), jobs, data, jobs[id], h);
    }

    /** The first half of a tick. The order of the job map is arbitrary. */
    method DriveAll(c: Client, byHash: map<string, Torrent>, byTag: map<string, Torrent>, already: set<string>)
      returns (claimed: set<string>, launched: seq<Launch>)
      requires IsIndex(c.torrents, byHash, byTag) && forall h :: h in already <==> Claimed(jobs, h)
      modifies this`jobs, this`missing
      ensures DroveAll(State(old(jobs), old(missing)), State(jobs, missing), c)
      ensures forall h :: h in claimed <==> Claimed(jobs, h)
      ensures OncePerJob(launched) && forall l :: l in launched <==> LaunchOf(State(old(jobs), old(missing)), c, l)
    {
      var items := jobs;
      ghost var a := State(jobs, missing);
      claimed, launched := already, [];
      var todo := items.Keys;
      while todo != {}
        invariant todo <= items.Keys && DroveBut(a, State(jobs, missing), c, todo)
        invariant forall h :: h in claimed <==> Claimed(jobs, h)
        invariant LaunchedBut(a, c, launched, todo)
        decreases |todo|
      {
        var id :| id in todo;
        ghost var s := State(jobs, missing);
        var h, launch := Visit(id, items[id], c, byHash, byTag);
        DroveStep(a, s, State(jobs, missing), c, todo, id);
        LaunchStep(a, c, launched, todo, id, launch);
        todo := todo - {id};
        if h != "" {
          claimed := claimed + {h};
        }
        if launch.Some? {
          launched := launched + [Launch(id, items[id], launch.value)];
        }
      }
    }

    /** An id no job has yet. */
    method NewJobId() returns (id: nat)
      ensures id !in jobs
    {
      id := 0;
      var todo := jobs.Keys;
      while todo != {}
        invariant todo <= jobs.Keys && forall k :: k in jobs && k !in todo ==> k < id
        decreases |todo|
      {
        var k :| k in todo;
        todo := todo - {k};
        if id <= k {
          id := k + 1;
        }
      }
    }

    method MintOrphanJob(t: Torrent) returns (ghost minted: nat)
      modifies this`jobs
      ensures minted !in old(jobs) && jobs == old(jobs)[minted := Orphan(t)]
    {
      var id := NewJobId();
      minted := id;
      jobs := jobs[id := Job(t.name, "torrent", "completed_unorganized", "", Lower(t.hash), "", 0, false, "", false,
          0, "")];
    }

    /** The second half of a tick. */
    method MintOrphans(ts: seq<Torrent>, already: set<string>)
      requires forall h :: h in already <==> Claimed(jobs, h)
      modifies this`jobs
      ensures Minted(old(jobs), jobs, ts)
    {
      ghost var a := jobs;
      var claimed := already;
      for i := 0 to |ts|
        invariant NewJobs(a, jobs, ts, claimed) && ClaimsKept(a, jobs, ts, i, claimed)
      {
        ghost var before, had := jobs, claimed;
        if TorrentComplete(ts[i]) && Lower(ts[i].hash) !in claimed {
          ghost var id := MintOrphanJob(ts[i]);
          claimed := claimed + {Lower(ts[i].hash)};
          MintStep(a, before, id, ts, i, had);
          ClaimsStep(a, before, id, ts, i, had);
        }
      }
    }

    /** One pass of the watcher; the launched imports run on their own. */
    method RunTick(c: Client) returns (launched: seq<Launch>)
      modifies this`jobs, this`missing
      ensures exists mid :: TickStep(State(old(jobs), old(missing)), mid, State(jobs, missing), c)
      ensures OncePerJob(launched) && forall l :: l in launched <==> LaunchOf(State(old(jobs), old(missing)), c, l)
    {
      var byHash, byTag := IndexTorrents(c.torrents);
      var claimed := ClaimedHashes(jobs);
      claimed, launched := DriveAll(c, byHash, byTag, claimed);
      ghost var mid := State(jobs, missing);
      MintOrphans(c.torrents, claimed);
      assert TickStep(State(old(jobs), old(missing)), mid, State(jobs, missing), c);
    }
  }
}
