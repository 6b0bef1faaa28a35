# RomArr: proofs about its stateful core

RomArr collects ROMs: it knows the catalogues of the preservation groups (DAT files), picks one dump
per game (1G1R), matches a library against them, queues what is missing, drives torrent downloads and
assembles multi-disc sets. This project models the parts of it that decide something, in Dafny 4.11,
and proves what they promise. `dafny verify dfyconfig.toml` checks everything.

Code that works step by step is modelled step by step: loops as methods with invariants, objects and
tables that are updated as classes. Each such method is proved against a specification function or
relation, and the promises are lemmas about that specification, over all inputs or all runs.

| file | what it models |
|---|---|
| `DiscSet.dfy` | the disc-set barrier as a machine: import threads, sweeps and crashes as interleaved steps |
| `DiscSetSteps.dfy`, `DiscSetMarkers.dfy`, `DiscSetRuns.dfy` | what every step keeps, what the markers say, and the theorems about every run |
| `DiscSetHistory.dfy` | when the tail runs and what a marker lists, traced back to the re-read they come from |
| `DiscSetManager.dfy` | the code of the manager, as methods whose every store access is a step of that machine |
| `Collection.dfy`, `Build.dfy` | the 1G1R engine: grouping, policy, the seven-level order, the keeper |
| `Reconcile.dfy` | the three-tier single-claim matching and its counts |
| `TitleIndex.dfy`, `HeaderTwins.dfy` | the library title index and the merging of headered twins |
| `Cycle.dfy`, `Targets.dfy` | from a matched set to the stored gap queue, and the queue with its backoff |
| `DatStore.dfy`, `StoredHashes.dfy`, `Snapshots.dfy` | catalogue signatures, the diff, what becomes of a signature in the store, and the snapshot tables under transactions |
| `ClrMame.dfy` | the clrmamepro lexer and block reader |
| `Bencode.dfy`, `BencodeLanguage.dfy` | the bencode span finder, and the language it accepts (BEP 3, section "bencoding") |
| `RateLimit.dfy` | the sliding-window limiter against its whole history, for calls in clock order and in any order |
| `Watcher.dfy` | the torrent watcher, tick by tick |
| `Text.dfy`, `Spans.dfy`, `Options.dfy` | the string operations of Go's library the code uses; a stretch at an offset; an option type |

## What the proofs found

- `Retry-After` is rounded down while the window is closed at its far end, so a client that waits
  exactly as told is refused again unless less than a second was left (`RateLimit.RetryAfterIsShort`,
  `RateLimit.ObedientClientRefused`).
- The limiter reads the clock before it takes its lock, so the readings a bucket sees may run backwards. In
  clock order the window bound holds in every run (`RateLimit.InOrderIsBounded`). In any order it holds if
  and only if the limit is at most one (`RateLimit.AnyOrderIsBounded`), and with cleanups among the calls
  only if nothing is admitted at all (`RateLimit.AnyOrderWithSweeps`): a cleanup may delete a bucket whose
  entries a later call with an older reading would still have counted.
- A disc-set marker that says degraded may list every disc: the last one can land between the verdict and
  the re-read (`DiscSetRuns.DegradedMarkerMayBeComplete`). The other direction holds: a marker that does not
  say so is complete (`DiscSetRuns.NonDegradedMeansComplete`).
- A complete set may end finalized without its tail and without a library row: its last disc lands after a
  sweep has read the members again with nothing there, finds the flight taken and leaves, and the sweep
  marks the set (`DiscSetHistory.CompleteWithoutTail`). Without crashes the tail runs if and only if some
  disc landed before the deciding flight's re-read and the directory is there (`DiscSetHistory.TailIffLanded`).
- A finalize is lost only when no landed disc declares a positive total (`DiscSetHistory.LostIsUncounted`), and
  then the next member with a total already met loses it (`DiscSetHistory.UncountedIsLost`,
  `DiscSetHistory.ZeroTotalIsLost`). The HTTP layer refuses totals below one, the job store does not.
- The arm of `Build` that lets a clone list take over a bucket started by a title is never taken, because
  a key already tells its source (`Build.BucketShape`).
- The title index cuts its keys at the last bar. It equals a plain scan if and only if no library row's slug
  holds one (`TitleIndex.ScanIffNoBars`); two rows where it answers with the wrong platform's are
  `TitleIndex.BarInSlugMisfiles`.
- A whole torrent is carried by a job after a tick if and only if it has a hash (`Watcher.CarriedIffHash`).
  One reported without a hash becomes a new orphan on every tick (`Watcher.EmptyHashIsMintedAgain`,
  `Watcher.TwoOrphansOfOneTorrent`); one with a hash is recorded at most once (`Watcher.OneOrphanPerHash`).
- Stored hashes are joined with commas and split again. A game reads back unchanged if and only if its sorted
  hashes, cut at commas, are already trimmed, non-blank and ascending (`StoredHashes.StoredSignature`), and a
  re-import changes exactly the games for which they are not (`Snapshots.ReimportDiff`,
  `Snapshots.CommaInHashShowsAsChange`). Hashes without commas always are (`StoredHashes.NoCommaIsTidy`).

## How to read the contracts

- `DiscSet.Step` is one atomic action of the source: a store call under its lock, one operation on the
  `importing` map, one library query or write. `Manager` methods carry a ghost run of that machine, and
  `Valid()` says the run is legal and ends in the object's fields, so every theorem about runs speaks of
  the methods. Distinct disc indices and one declared total are premises where a lemma names them.
- `Reconcile` assumes nothing owned beforehand for its matching theorems, as `Build` delivers it.
- `Targets` runs are sequences of syncs, attempts on rows returned as due at an earlier moment, and clears.
- `Watcher` runs are ticks with any answers from qBittorrent, any change by the rest of the program that
  keeps orphan hashes and selections, and restarts.
- `RateLimiter` keeps, as ghost state, the calls each bucket has seen; `RateLimit.After` says what calls make of
  a bucket, so every theorem about lists of calls speaks of the limiter.
- In `DiscSet` the choice `NoTail` says that the set directory is missing when a flight looks for it.
- `Snapshots.JobStore` takes the outcome of the transaction as a parameter.

## Model

| member | source | states |
|---|---|---|
| `DiscSetRuns.AtMostOneTail` | internal/download/discset.go:140-158 | in every run of landings, sweeps and crashes the deferred tail of a set runs at most once, plus once per crash |
| `DiscSetRuns.AtMostOneRow` | internal/download/discset.go:228-229 | in every run, crashes included, no two library rows carry the same `set:<id>` |
| `DiscSetRuns.NoLostFinalize` | internal/download/discset.go:109-134 | without crashes, a complete set with a landed member that declares a positive total is finalized as soon as no thread that landed a member or is finalizing it is under way |
| `DiscSetHistory.TailIffLanded` | internal/download/discset.go:150-219 | without crashes, a finalized set was decided exactly once, on what one flight had read again; its tail ran, once, if and only if some disc had landed before that re-read and the set directory was there at the decision |
| `DiscSetHistory.CompleteWithoutTail` | internal/download/discset.go:150-206 | a crash-free run that ends complete and finalized with nobody under way, no tail and no row: the one disc landed between a sweep's re-read and its marks, and found the flight taken |
| `DiscSetHistory.LostIsUncounted` | internal/download/discset.go:115-133 | without crashes, a complete, unfinalized set nobody is under way for has no landed member that declares a positive total |
| `DiscSetHistory.UncountedIsLost` | internal/download/discset.go:115-133 | and any idle, unfinalized set of landed members without a positive total is lost by the next member it gets with a total already met |
| `DiscSetHistory.ZeroTotalIsLost` | internal/download/discset.go:115-133 | a concrete run of one such set |
| `DiscSetHistory.MarkerListsLanded` | internal/download/discset.go:150-257 | crashes included, a stored marker is that of one re-read under a flight, and a disc is in it if and only if it had landed before that re-read |
| `DiscSetRuns.SweepRecovers` | internal/download/discset.go:386-432 | crashes included, once a sweep is through, every set its snapshot showed complete, hopeless or overdue is finalized or in a flight |
| `DiscSetRuns.NonDegradedMeansComplete` | internal/download/discset.go:234-257 | with one declared total and distinct indices, a stored marker that does not say degraded lists exactly discs 1..total |
| `DiscSetMarkers.MarkerShape` | internal/download/discset.go:234-257 | over distinct indices in 1..total, the listing sorts to exactly 1..total if and only if the view is complete |
| `DiscSetRuns.DegradedMarkerMayBeComplete` | internal/download/discset.go:146-158 | a run in which the last disc lands between the verdict and the re-read: the stored marker says degraded and lists every disc |
| `DiscSetHistory.DoneIsLanded` | internal/download/fulfill.go:154-166 | a job carries the landed flag exactly when one of the steps so far landed it |
| `DiscSetRuns.RunInv` | internal/download/discset.go:109-283 | mutual exclusion, what each thread knows, the tail count, row uniqueness, no lost set and the sweeps' promises hold in every state of every run |
| `DiscSetSteps.MutexStep` | internal/download/discset.go:140-149 | no step puts two threads in the flight of one set, and the lock map holds exactly the flights in progress |
| `DiscSetSteps.KnowsStep` | internal/download/discset.go:150-190 | what a thread read under the flight stays true of the jobs while it works, whatever other threads do |
| `DiscSetSteps.TailsStep` | internal/download/discset.go:150-219 | once a set's tails exceed the crashes it is finalized or past its tail in the flight, so no step runs another |
| `DiscSetSteps.RowsStep` | internal/download/library.go:132-135 | the check for the source id and the insert, two steps apart, still never make a second row |
| `DiscSetSteps.NoneLostStep` | internal/download/discset.go:109-134 | a complete, unfinalized set with a landed member of positive total always has some thread that will finalize it |
| `DiscSetSteps.SweepsStep` | internal/download/discset.go:386-432 | what a sweep has dealt with stays finalized or in a flight until that flight ends |
| `DiscSetMarkers.MarkersStep` | internal/download/discset.go:234-257 | every step keeps stored non-degraded markers complete |
| `DiscSetSteps.FlightEnds` | internal/download/discset.go:141-158 | when a flight ends without a crash, its set is finalized |
| `DiscSetSteps.OnlyHolderFinalizes` | internal/download/discset.go:192-198 | only the thread holding the flight writes a set's finalized flags |
| `DiscSetManager.SortedInsert` | internal/download/discset.go:101-103 | inserts one member into the list sorted by disc index |
| `DiscSetManager.DiscSetMembers` | internal/download/discset.go:93-103 | lists every member of the set once, by ascending disc index |
| `DiscSetManager.CountMembers` | internal/download/discset.go:117-132 | the counting loop: largest total, landed, pending, oldest start, any finalized |
| `DiscSetManager.CountsMean` | internal/download/discset.go:117-132 | the counters decide exactly: complete, pending, overdue, as sets of members |
| `DiscSetManager.Imported` | internal/download/discset.go:176-187 | counts the landed members of the view |
| `DiscSetManager.Manager.constructor` | internal/download/discset.go:21-23 | an empty store at the machine's initial state |
| `DiscSetManager.Manager.CreateJob` | internal/download/discset.go:43-52 | a new member job, whatever its declared index and total, is one step of the machine |
| `DiscSetManager.Manager.MarkAll` | internal/download/discset.go:192-198 | every listed member, and nothing else, becomes finalized; one machine step per member |
| `DiscSetManager.Manager.TrackInLibrary` | internal/download/library.go:132-173 | adds a row for the set unless one carries its source id |
| `DiscSetManager.Manager.SaveSetMarker` | internal/download/discset.go:234-257 | the set's first row gets the marker of the view, no other row changes |
| `DiscSetManager.Manager.RunTail` | internal/download/discset.go:208-259 | runs the tail, tracks the row, stores the marker, in that order |
| `DiscSetManager.Manager.FinalizeView` | internal/download/discset.go:160-283 | finalizes the members it re-read; no tail when nothing landed or the directory is missing |
| `DiscSetManager.Manager.FinalizeUnderFlight` | internal/download/discset.go:150-283 | re-reads membership under the flight and leaves a finalized set alone |
| `DiscSetManager.Manager.FinalizeDiscSet` | internal/download/discset.go:140-283 | does nothing when the flight is taken; otherwise the jobs and rows are exactly those of one finalize, and the lock map is as before |
| `DiscSetManager.Manager.MaybeFinalizeDiscSet` | internal/download/discset.go:109-134 | finalizes exactly when the set is complete, unfinalized and not in a flight |
| `DiscSetManager.Manager.LandMember` | internal/download/fulfill.go:154-166 | writes the landed flag, then enters the barrier: the new jobs and rows are those of the barrier on the landed store |
| `DiscSetManager.Manager.Judge` | internal/download/discset.go:396-430 | the sweep's switch: complete, hopeless or overdue, from the snapshot |
| `DiscSetManager.Manager.SweepOne` | internal/download/discset.go:394-431 | one set of the snapshot, judged and finalized: its jobs, its rows and its tail are those `SetSwept` states, and the rows and tails of all other sets are untouched |
| `DiscSetManager.Manager.SweepDiscSets` | internal/download/discset.go:386-432 | a sweep no other thread interleaves with finalizes exactly the sets it judges complete, hopeless or overdue, except those whose flight is held. Of these, the ones with something landed and a directory have run one tail more, and their first row, old or newly stored, carries a marker that lists exactly the landed discs under the verdict's flag; rows and tails of every other set are unchanged |
| `DiscSetManager.Manager.SweptSetsCanWait` | internal/download/discset.go:386-432 | after such a sweep every unfinalized set in no other flight has a pending member, fewer landed than declared, and is not overdue |
| `DiscSetManager.VerdictMeans` | internal/download/discset.go:396-430 | the verdict in terms of the members: none for an empty or a finalized set, not degraded when the landed members meet every declared total, none while some member can still land and none started too long ago, degraded otherwise |
| `DiscSetManager.MarkerMarks` | internal/download/discset.go:234-257 | a marker lists exactly the landed members, by ascending index, under the total of a member of least index |
| `DiscSetManager.FinalizedRows` | internal/download/discset.go:150-259 | one finalize tracks the set's row when its tail is due, leaves the rows alone otherwise, and never touches another set's |
| `Collection.Split` | internal/collection/set.go:281-321 | splitting at commas gives at least one piece and no piece holds a comma |
| `StoredHashes.JoinSplit` | internal/db/dat.go:586-591 | the pieces of a split text join back to it |
| `Collection.NoteToken` | internal/collection/set.go:281-321 | one flag token sets exactly the attribute the specification gives it |
| `Collection.ClassifyLoop` | internal/collection/set.go:281-321 | the loops over the flag lists of a dump and of its roms compute its attributes |
| `Collection.ClassifyMeans` | internal/collection/set.go:281-321 | a dump is of a kind exactly when that word is one of its stored flags or one of its roms says so; homebrew and pirate copies also by the dump's own name |
| `Collection.AdmittedIff` | internal/collection/set.go:243-274 | a dump is admitted exactly when it is not bad, each of the six kinds it is of is allowed, it is verified if only verified ones are wanted, and no excluded category is among its group's |
| `Collection.ReasonHolds` | internal/collection/set.go:243-274 | the reason given for an exclusion is one that holds of the dump |
| `Collection.RankToken` | internal/collection/set.go:401-415 | one region token against the priority list: the least index hit so far |
| `Collection.RegionRankLoop` | internal/collection/set.go:401-415 | the double loop finds the first priority any token of the region hits |
| `Collection.RankIsFirstHit` | internal/collection/set.go:401-415 | the rank is the first hit, or one past the list plus one when there is none |
| `Collection.EnglishIff` | internal/collection/set.go:443-456 | a dump ranks as English exactly when its language list is blank or holds "en" in either letter case |
| `Collection.ContainsIff` | internal/collection/set.go:395-395 | substring search succeeds exactly when the text starts with the other at some offset |
| `Collection.ReReleaseIff` | internal/collection/set.go:384-400 | a name is a re-release exactly when it holds one of the non-blank tags in parentheses, letter case aside |
| `Collection.LessIsRankLess` | internal/collection/set.go:353-379 | the cascade of comparisons is the lexicographic order on seven levels and the name |
| `Collection.LessIsStrictWeakOrder` | internal/collection/set.go:353-379 | `less` is irreflexive, asymmetric, transitive, and incomparability is transitive |
| `Build.KeyFixesSource` | internal/collection/set.go:227-238 | equal group keys come from the same source, and clone-list keys carry one title |
| `Build.SameGroupIff` | internal/collection/set.go:227-238 | two dumps share a group exactly when a clone list names one group for both, or claims neither and their trimmed titles, the name standing in for a blank one, agree but for letter case |
| `Build.BestIsFirstMinimum` | internal/collection/set.go:330-338 | the running best is the first minimum of `less` over the members not excluded, and none exactly when all are excluded |
| `Build.EligibleLoop` | internal/collection/set.go:463-477 | counts the members policy leaves in |
| `Build.MarkSurplus` | internal/collection/set.go:346-350 | every other admitted member is called surplus to the kept one; nothing else changes |
| `Build.ChooseKeeper` | internal/collection/set.go:329-351 | keeper flag, index and reasons are those of the first minimum |
| `Build.RequireEnglish` | internal/collection/set.go:423-441 | a group without an English dump left in loses its keeper and has every member excluded; other groups are untouched |
| `Build.FillBuckets` | internal/collection/set.go:180-199 | one bucket per key, in order of first appearance, with the dumps of that key |
| `Build.CandidatesLoop` | internal/collection/set.go:205-211 | one candidate per dump, excluded and with a reason as policy says (`Collection.AdmittedIff`, `Collection.ReasonHolds`) |
| `Build.Finish` | internal/collection/set.go:202-215 | a bucket becomes its finished group |
| `Build.FinishAll` | internal/collection/set.go:202-215 | every bucket becomes its finished group |
| `Build.InsertGroup` | internal/collection/set.go:216-221 | one insertion keeps the list ordered and loses no group |
| `Build.SortGroups` | internal/collection/set.go:216-221 | sorted by title and key, a permutation |
| `Build.OrderedAscends` | internal/collection/set.go:216-221 | in the sorted list titles ascend, and keys ascend among equal titles |
| `Build.BuildSet` | internal/collection/set.go:169-223 | the finished groups of the catalogue's keys, ordered; who is kept in them is `Cycle.KeeperIsAdmitted` and `Build.FinishedGroup` |
| `Build.BucketShape` | internal/collection/set.go:183-199 | a bucket holds exactly the dumps of its key, and its first dump fixes title, source and categories: the arm that lets a clone list take a bucket over is never taken |
| `Build.KeysCover` | internal/collection/set.go:183-199 | a key is listed exactly when some dump has it |
| `Build.KeysDistinct` | internal/collection/set.go:183-199 | keys are listed once |
| `Build.OfKeyCounts` | internal/collection/set.go:183-199 | every copy of a dump goes to the group of its key and to no other |
| `Build.GroupsPartition` | internal/collection/set.go:169-223 | one group per key, each holding exactly the dumps of its key |
| `Build.ChosenKeeper` | internal/collection/set.go:329-351 | before the English gate: exclusions are the policy's, flags mark the keeper, and a keeper exists exactly when some dump is admitted; it is admitted and no admitted dump is less |
| `Build.FinishedGroup` | internal/collection/set.go:202-215 | after the English gate: which dumps are excluded and when a keeper remains, stated without the loops |
| `Build.FinishedExclusions` | internal/collection/set.go:202-215 | in a group that keeps a dump, exactly the dumps policy does not admit are excluded |
| `Build.PriorityKept` | internal/collection/set.go:183-199 | with unique game ids the priority a group remembers for a dump is that dump's own |
| `Build.GroupMembersOrderFree` | internal/collection/set.go:169-223 | permuting the catalogue changes no group's dumps and no key |
| `Build.KeeperOrderFree` | internal/collection/set.go:329-379 | permuting the catalogue changes no group's kept name |
| `Build.PreferencesNeverExclude` | internal/collection/set.go:353-415 | region priority, English preference and re-release tags never change an exclusion or whether a group keeps one |
| `Build.LooserAdmits` | internal/collection/set.go:243-274 | a dump admitted under a policy is admitted under any looser one |
| `Build.LooserNeverExcludes` | internal/collection/set.go:243-274 | loosening a gate excludes no further dump and takes no group's keeper away |
| `Collection.CategoryFound` | internal/collection/set.go:266-272 | the category search succeeds exactly when some excluded category is among the dump's |
| `Reconcile.MemberOrder` | internal/collection/reconcile.go:138-149 | the keeper first, then the others in order, each once |
| `Reconcile.AskTier` | internal/collection/reconcile.go:154-180 | the answer of one tier is its first question's that has one, and no earlier question has: the roms with a hash in order, the dump's name before its roms' names, the title keys; a nil index answers nothing |
| `Reconcile.AskHashes` | internal/collection/reconcile.go:158-167 | the hash loop, which never asks for a rom without hashes |
| `Reconcile.AskNames` | internal/collection/reconcile.go:168-173 | the name loop over the dump's name and then its roms' names |
| `Reconcile.TakeTurn` | internal/collection/reconcile.go:84-95 | one dump's turn: takes the file its tier finds unless it owns one or the file is claimed |
| `Reconcile.MatchGroup` | internal/collection/reconcile.go:83-96 | the turns of one group in one tier |
| `Reconcile.MatchLoop` | internal/collection/reconcile.go:80-98 | the triple loop leaves the groups of the specification |
| `Reconcile.Reconciled` | internal/collection/reconcile.go:80-122 | one entry per matched group; what its status and surplus mean is `Reconcile.EntryOfMeans`, and for built sets `Cycle.StatusesMean` |
| `Reconcile.EligibleOwned` | internal/collection/reconcile.go:124-135 | some dump other than the keeper is on disk and not excluded |
| `Reconcile.EntryOfMeans` | internal/collection/reconcile.go:100-122 | an entry is out exactly when nothing is kept, owned exactly when the keeper is, covered exactly when the keeper is missing and some other dump that is not excluded is owned, a gap exactly when the keeper is missing and every owned dump is excluded; its surplus are the owned dumps that are not the keeper |
| `Reconcile.SurplusLoop` | internal/collection/reconcile.go:113-118 | every owned dump that is not the keeper |
| `Reconcile.LoopIsMatching` | internal/collection/reconcile.go:80-98 | on unowned groups the loop computes the matching: a dump takes its file at exactly the position where its tier finds one, it has none yet, and no earlier position holds it |
| `Reconcile.MatchingUnique` | internal/collection/reconcile.go:80-98 | there is one such matching |
| `Reconcile.ClaimedOnce` | internal/collection/reconcile.go:89-92 | a library file satisfies at most one dump |
| `Reconcile.KeeperLosesOnlyToStrongerTier` | internal/collection/reconcile.go:138-149 | a keeper left without a file never lost it to a sibling at the same or a weaker tier |
| `Reconcile.Summarise` | internal/collection/reconcile.go:219-244 | the counters of the entries |
| `Reconcile.CountsMean` | internal/collection/reconcile.go:202-244 | each counter is the number of entries of its status, the groups are the owned, covered and missing ones, and out-on-disk counts the entries left out that own a dump |
| `Reconcile.ClaimedLibraryIds` | internal/collection/reconcile.go:254-264 | the ids of all owned dumps |
| `Reconcile.CountsAddUp` | internal/collection/reconcile.go:219-244 | owned, covered and gaps make the groups in; with the groups out they make the entries; owned dumps are keepers or surplus |
| `Reconcile.Conservation` | internal/collection/reconcile.go:100-122 | on a matched set the counts add up and the claimed files number exactly owned plus surplus |
| `Reconcile.BuiltIsReady` | internal/collection/set.go:202-215 | what `Build` hands over is unowned and flags exactly its keeper |
| `Cycle.KeeperHashes` | internal/collectionsvc/targets.go:80-91 | the keeper's md5 and sha1 values in order, blanks dropped |
| `Cycle.HashesAreTheKeepers` | internal/collectionsvc/targets.go:80-91 | a hash is stored exactly when it is a non-blank, trimmed, lowered hash of one of the keeper's roms |
| `Cycle.CollectGaps` | internal/collectionsvc/targets.go:32-46 | one gap per entry whose status is gap, in order |
| `Cycle.GapsAreCounted` | internal/collectionsvc/targets.go:32-53 | as many gap keys as the summary counts |
| `Cycle.QueueIsTheGapList` | internal/collectionsvc/targets.go:32-53 | after a sync the stored keys are exactly the gaps' keys, in the number the summary shows, and a second sync changes nothing |
| `Cycle.BuiltKeysDistinct` | internal/collection/set.go:169-223 | a built set has one group per key |
| `Cycle.SetToQueue` | internal/collectionsvc/targets.go:32-53 | build, match, sync: the stored keys are the gaps of the catalogue |
| `Cycle.SetConserves` | internal/collection/reconcile.go:100-122 | for whatever `Build` returns of a catalogue and any library: one entry per key, owned, covered and gaps make the groups in, and the claimed files number exactly owned plus surplus |
| `Cycle.StatusesMean` | internal/collection/reconcile.go:100-135 | for whatever `Build` returns, matched against any library: every entry says what it should, matching adds ownership and nothing else, and in a group that keeps a dump the excluded ones are exactly those policy does not admit |
| `Cycle.KeeperIsAdmitted` | internal/collection/set.go:202-258 | the keeper of a built group is admitted by policy, so never a bad dump; a group without one has no admitted dump, or none in English where that is required |
| `Cycle.SetOrderFree` | internal/collection/set.go:169-223 | what `Build` returns of a permuted catalogue has, for every group, one of the same key with the same dumps and the same keeper |
| `Targets.SyncIsExact` | internal/db/collection_targets.go:128-204 | after a sync the platform's keys are exactly the wanted ones, survivors keep id, attempts and stamp, a grab unstamped or more than twelve hours old is wanted again and nothing else changes status or reason, other platforms are untouched, and the size moves by added minus removed |
| `Targets.SyncedDescribe` | internal/db/collection_targets.go:153-187 | after a sync of distinct gaps every gap's row carries its title, dump name and hashes, and is no overdue grab |
| `Targets.SyncIdempotent` | internal/db/collection_targets.go:128-204 | a second sync of distinct gaps at the same time adds, removes and changes nothing |
| `Targets.WithoutSize` | internal/db/collection_targets.go:188-198 | the deletions remove exactly as many rows as keys dropped |
| `Targets.DueIff` | internal/db/collection_targets.go:319-332 | a row is due exactly when it was never attempted or 1, 2, 4, ..., 128 hours, after the eighth attempt 168, have passed since its last attempt |
| `Targets.HistoryStep` | internal/db/collection_targets.go:335-343 | an event moves a row's attempts and stamp only when it records an attempt on it |
| `Targets.AttemptsAreSpaced` | internal/db/collection_targets.go:319-343 | in every run, attempt k+1 comes at least min(2^min(k-1,8),168) hours after attempt k, re-openings included |
| `Targets.HoursClosedForm` | internal/db/collection_targets.go:319-332 | the first n backoffs, n >= 8, sum to 255+168(n-8) hours |
| `Targets.AttemptsSpan` | internal/db/collection_targets.go:319-343 | n+1 attempts, n >= 8, span at least 255+168(n-8) hours |
| `Targets.Store.constructor` | internal/db/collection_targets.go:59-89 | an empty table |
| `Targets.Store.SyncCollectionTargets` | internal/db/collection_targets.go:128-204 | the new table is the specification's; the counts are those of keys added and dropped; a blank slug changes nothing |
| `Targets.Store.SyncEach` | internal/db/collection_targets.go:153-187 | the loop over the gaps |
| `Targets.Store.SyncOne` | internal/db/collection_targets.go:154-187 | one gap: refresh and perhaps re-open, or insert |
| `Targets.Store.DeleteUnwanted` | internal/db/collection_targets.go:188-198 | drops exactly the keys that were there and are no longer wanted |
| `Targets.Store.RecordCollectionAttempt` | internal/db/collection_targets.go:335-343 | one more attempt, stamped now, on the row of that id and no other |
| `Targets.Store.ClearCollectionTargets` | internal/db/collection_targets.go:209-217 | drops exactly the platform's rows and says how many |
| `Targets.Store.DueCollectionTargets` | internal/db/collection_targets.go:282-312 | only due rows, each once, oldest attempt first, at most the limit; a due row is left out only when the limit is full of rows not after it |
| `Targets.Store.Queue` | internal/db/collection_targets.go:282-289 | exactly the ungrabbed rows of the platform, each once, in queue order |
| `Targets.QueueAscends` | internal/db/collection_targets.go:282-289 | in queue order rows never attempted come first, then the longest untouched, equal stamps by title |
| `RateLimit.DecideIsExact` | internal/api/ratelimit.go:79-122 | against the whole history: denied exactly when the window ending now is full, and an admission leaves every closed window within the limit |
| `RateLimit.PruneTracks` | internal/api/ratelimit.go:101-107 | what pruning drops is too old, what it keeps is inside the window |
| `RateLimit.KeptIsWindow` | internal/api/ratelimit.go:101-107 | the pruned bucket has exactly as many entries as the history has admissions in the window |
| `RateLimit.AdmissionKeepsWindows` | internal/api/ratelimit.go:109-121 | an admission into a window with room keeps every closed window within the limit |
| `RateLimit.InOrderIsBounded` | internal/api/ratelimit.go:45-122 | calls on a bucket in clock order, cleanups included, keep every closed window within the limit, and a request is refused exactly when the window ending now is full |
| `RateLimit.AnyOrderIsBounded` | internal/api/ratelimit.go:79-122 | for every window and limit: requests whose clock readings reach the lock in any order all keep the window bound if and only if the limit is at most one |
| `RateLimit.AnyOrderWithSweeps` | internal/api/ratelimit.go:45-57 | with cleanups among the calls the bound holds in every order if and only if nothing is ever admitted |
| `RateLimit.RefusedIsFull` | internal/api/ratelimit.go:101-118 | after calls in clock order a bucket that refuses holds exactly the limit, all of it inside the window |
| `RateLimit.RetryAfterBounds` | internal/api/ratelimit.go:109-117 | a denial names 1..windowSec seconds, and one second later the oldest entry is out |
| `RateLimit.RetryAfterIsShort` | internal/api/ratelimit.go:109-117 | after calls in clock order, a refused client that comes back alone after exactly the named seconds is admitted if and only if less than one second of the oldest entry was left |
| `RateLimit.ObedientClientRefused` | internal/api/ratelimit.go:109-117 | a concrete client that obeys the header is refused again |
| `RateLimit.RulePaths` | internal/api/ratelimit.go:59-76 | which paths each rule covers: the api rule takes what the four special rules leave under "/api/" |
| `RateLimit.LimitIs` | internal/api/ratelimit.go:79-88 | a limit of zero counts as none: the rule's own limit, else the default's, else 600 |
| `RateLimit.RateLimiter.constructor` | internal/api/ratelimit.go:29-42 | no calls, no history, valid |
| `RateLimit.RateLimiter.DecideBucket` | internal/api/ratelimit.go:101-121 | prune, test, append on one bucket |
| `RateLimit.RateLimiter.DropExpired` | internal/api/ratelimit.go:52-56 | the cleanup loop deletes exactly the buckets that are empty or whose newest entry is too old |
| `RateLimit.RateLimiter.Check` | internal/api/ratelimit.go:79-122 | one more call of this key's bucket, exactly, and of no other; if the key's calls came in clock order the answer is exact, its windows stay within the limit and a denial names 1..windowSec |
| `RateLimit.RateLimiter.Cleanup` | internal/api/ratelimit.go:45-57 | a call to every bucket there is: exactly the expired buckets go, and no admission is forgotten |
| `Watcher.PickFile` | internal/download/watcher.go:302-317 | the first exact path, else the first equal base name, else none |
| `Watcher.PickIsUnique` | internal/download/watcher.go:302-317 | at most one file satisfies that |
| `Watcher.Others` | internal/download/watcher.go:335-340 | the indices of all files but the picked one |
| `Watcher.OnlyTheTargetStays` | internal/download/watcher.go:335-344 | with distinct file ids the picked file is the only one not silenced |
| `Watcher.BaseMeans` | internal/download/watcher.go:311-314 | the base name of a path is its last element, slashes at the end aside; "." for an empty path, "/" for slashes alone |
| `Watcher.JobComplete` | internal/download/watcher.go:277-292 | the torrent is whole and, for a resolved target, the first file of its index is whole |
| `Watcher.ClaimedHashes` | internal/download/watcher.go:138-147 | exactly the hashes some job carries |
| `Watcher.IndexTags` | internal/download/watcher.go:127-131 | the torrent is entered under each of its non-blank tags |
| `Watcher.IndexTorrents` | internal/download/watcher.go:121-131 | by hash and by tag the last listed torrent wins |
| `Watcher.Watcher.Fail` | internal/download/failure.go:43-65 | status error, once |
| `Watcher.Watcher.SelectTargetFile` | internal/download/watcher.go:299-355 | the picked file is armed when the client accepts silencing all the others, otherwise the whole pack comes; the selection is done either way |
| `Watcher.Watcher.Associate` | internal/download/watcher.go:188-206 | the hash is learnt from the tag; the job fails when the grace period is over |
| `Watcher.Watcher.Absent` | internal/download/watcher.go:207-216 | one more absence; the third in a row fails the job and forgets the count |
| `Watcher.Watcher.DriveSeen` | internal/download/watcher.go:217-272 | scan, selection, completion gate, in that order: a due selection is made, and when none is due its four fields stay |
| `Watcher.Watcher.DriveJob` | internal/download/watcher.go:183-272 | one drive: the job's new state, a due selection made included, the absence count and the import to launch, exactly |
| `Watcher.Watcher.Visit` | internal/download/watcher.go:149-162 | only active torrent jobs are driven; the claimed hashes grow by what was learnt |
| `Watcher.Watcher.DriveAll` | internal/download/watcher.go:149-162 | every job driven once from the tick's snapshot, in any order; the launched imports are exactly those the gate lets through, each once |
| `Watcher.Watcher.MintOrphanJob` | internal/download/watcher.go:370-389 | one new job for the torrent, carrying its hash in lower case |
| `Watcher.Watcher.MintOrphans` | internal/download/watcher.go:164-174 | one orphan per unclaimed hash of a whole torrent, none forgotten, no other job changed |
| `Watcher.Watcher.RunTick` | internal/download/watcher.go:120-179 | a tick is a drive of all jobs followed by minting; imports are launched once each |
| `Watcher.RunKeepsInv` | internal/download/watcher.go:120-355 | in every run of ticks, outside changes and restarts: orphans have different hashes, and a selection made and kept names a matching file |
| `Watcher.OneOrphanPerHash` | internal/download/watcher.go:138-174 | in every state of every run a hash has at most one orphan job |
| `Watcher.OrphansAreUnclaimed` | internal/download/watcher.go:138-174 | an orphan is minted only for a whole torrent whose hash no job carried when the tick began |
| `Watcher.CarriedIffHash` | internal/download/watcher.go:138-174 | after a tick a whole torrent is carried by some job if and only if it has a hash |
| `Watcher.EmptyHashIsMintedAgain` | internal/download/watcher.go:140-174 | every tick that lists a whole torrent without a hash mints a job for it that was not there before |
| `Watcher.TwoOrphansOfOneTorrent` | internal/download/watcher.go:120-174 | a run of two ticks over one torrent without a hash that ends with two orphans of it |
| `Watcher.ImportIsGated` | internal/download/watcher.go:232-292 | in every run a launched import is of a whole, scanned torrent of the job's hash; with a target, the selection was persisted, names a matching file, and, unless the target's base name is ".", that file is whole |
| `Watcher.SelectionIsMade` | internal/download/watcher.go:232-246 | in every run, a tick that lists the files of a safe, active job whose selection is due leaves it made: the picked file armed with all the others silenced, or the whole pack |
| `Watcher.CountIsAbsence` | internal/download/watcher.go:208-218 | in every run the stored count never exceeds the consecutive ticks the torrent was absent |
| `Watcher.FailsForCause` | internal/download/watcher.go:188-231 | in every run a tick fails a job only for a timed-out association, an unsafe file list, or absence in this tick and the two before |
| `ClrMame.ScanQuoted` | internal/dat/parse.go:204-212 | stops at the closing quote or the end |
| `ClrMame.ScanWord` | internal/dat/parse.go:213-222 | stops at the first delimiter or the end |
| `ClrMame.NextToken` | internal/dat/parse.go:195-224 | one token, always advancing |
| `ClrMame.LexCMP` | internal/dat/parse.go:193-226 | the token list of the specification |
| `ClrMame.ReadBlock` | internal/dat/parse.go:241-270 | the block after the open paren; the end is past the paren and within the tokens |
| `ClrMame.ParseClrMamePro` | internal/dat/parse.go:123-179 | the catalogue of the specification, or the error for a file without blocks; what it reads is `ClrMame.PrintedTreeParses` and `ClrMame.CatalogueRoundTrip` |
| `ClrMame.LexOneToken` | internal/dat/parse.go:193-226 | a spelled token lexes back to itself; a word needs a delimiter, or the end, after it |
| `ClrMame.LexPrinted` | internal/dat/parse.go:193-226 | lexing inverts printing for every layout of every legal token list in which no two words touch |
| `ClrMame.ReadNodes` | internal/dat/parse.go:241-270 | reading the tokens of any tree of nested blocks adds exactly its nodes |
| `ClrMame.DenoteStr` | internal/dat/parse.go:228-270 | a block answers a key with the first scalar of that name |
| `ClrMame.DenoteBlocks` | internal/dat/parse.go:228-270 | a block answers a key with all sub-blocks of that name, in order |
| `ClrMame.DenoteGame` | internal/dat/parse.go:139-172 | header and game fields read from a block are those of its tree |
| `ClrMame.ParseTree` | internal/dat/parse.go:123-179 | parsing the tokens of a whole tree gives the catalogue the tree says |
| `ClrMame.PrintedTreeParses` | internal/dat/parse.go:123-226 | any tree of blocks, in any layout in which no two words touch, parses to what it says: the last header under any of its three words, and every named game under any of its three |
| `ClrMame.HeaderThenGames` | e2e/conftest.py:205-215 | the printed shape, header then games with nested roms, says its catalogue |
| `ClrMame.CatalogueRoundTrip` | e2e/conftest.py:205-215 | any catalogue, with any legal choice of quoting, omission and layout, lexes and parses back to itself; each hash comes back as the printed one without the white space at its ends and with A-Z moved to a-z, character by character |
| `ClrMame.PlainHashRead` | internal/dat/parse.go:334-334 | a hash printed without white space at its ends comes back as long as it was, letter for letter in lower case |
| `Text.ParseIntDigits` | internal/dat/parse.go:161-164 | a printed non-negative size parses back |
| `Text.ParseIntSigned` | internal/dat/parse.go:161-164 | a signed size, one out of the 64-bit range, and anything that is not a number, which counts as 0 |
| `Text.TrimIff` | internal/dat/parse.go:334-334 | trimming cuts exactly the white space at the two ends |
| `Text.LessIffDiffers` | internal/collection/set.go:217-220 | the smaller string is a proper prefix or has the smaller character where they first differ |
| `Bencode.StringEnd` | internal/download/torrentfile.go:76-94 | an accepted string ends after its start and within the data |
| `Bencode.BdecodeString` | internal/download/torrentfile.go:76-94 | accepts exactly a decimal length, a colon and that many bytes; the accumulator never exceeds 10*len+9 |
| `Bencode.LongLength` | internal/download/torrentfile.go:79-85 | the overflow guard never changes the answer |
| `Bencode.BdecodeSkipValue` | internal/download/torrentfile.go:98-134 | the end of the value at the offset, if any |
| `Bencode.InfohashFromTorrentData` | internal/download/torrentfile.go:48-72 | hashes the info bytes, or gives the empty string |
| `BencodeLanguage.TermComplete` | internal/download/torrentfile.go:98-134 | a well-formed term is skipped exactly, whatever surrounds it |
| `BencodeLanguage.TermSound` | internal/download/torrentfile.go:98-134 | whatever is accepted is the text of a well-formed term |
| `BencodeLanguage.SkipIff` | internal/download/torrentfile.go:98-134 | the scanner stops at an offset if and only if the bytes up to it are one term |
| `BencodeLanguage.SkipIsLocal` | internal/download/torrentfile.go:98-134 | an accepted span is accepted with any other bytes around it |
| `BencodeLanguage.InfoBytesIff` | internal/download/torrentfile.go:48-72 | bytes are hashed if and only if they are the dictionary under the first top-level info key |
| `BencodeLanguage.CanonicalOk` | internal/download/torrentfile.go:98-134 | every value's BEP 3 encoding is in the accepted language |
| `BencodeLanguage.SkipsEveryEncoding` | internal/download/torrentfile.go:98-134 | every encoded value is skipped exactly, after any prefix and before any suffix |
| `BencodeLanguage.InfohashOfEncodedTorrent` | internal/download/torrentfile.go:48-72 | an encoded torrent hashes exactly the encoding of its first info value, and nothing when that is not a dictionary |
| `DatStore.SignatureOrderFree` | internal/db/dat.go:598-607 | the signature does not depend on the order of the hashes |
| `StoredHashes.StoredSignature` | internal/db/dat.go:572-607 | in any concatenation order a stored game reads back with the signature it is compared by if and only if its sorted hashes, cut at commas, are already trimmed, non-blank and ascending |
| `StoredHashes.NoCommaIsTidy` | internal/db/dat.go:598-607 | hashes without commas always are |
| `StoredHashes.SignatureIff` | internal/db/dat.go:598-607 | for hashes without commas two signatures are equal exactly when the sizes are and every trimmed, non-blank hash occurs as often in both lists |
| `StoredHashes.ReadBackPieces` | internal/db/dat.go:572-593 | what is read back has exactly the sorted pieces as its hashes |
| `DatStore.DiffCatalog` | internal/db/dat.go:609-632 | added, removed and changed as counts over names |
| `DatStore.CountRemoved` | internal/db/dat.go:626-631 | the names that were there and are not |
| `DatStore.AddedNames` | internal/db/dat.go:609-625 | for distinct names, added is the number of new names |
| `DatStore.ChangedRows` | internal/db/dat.go:609-625 | changed is the number of rows of a known name whose signature is not the known one |
| `DatStore.DiffBalances` | internal/db/dat.go:609-632 | for distinct names |prev| + added = |new| + removed |
| `Snapshots.OneActive` | internal/db/dat.go:487-567 | a platform with snapshots has exactly one active one, with the greatest id |
| `Snapshots.TwoKept` | internal/db/dat.go:636-662 | a platform keeps at most two snapshots |
| `Snapshots.CommitKeepsGood` | internal/db/dat.go:499-556 | a committed insert keeps every invariant: numbering, ownership of games and roms, one active snapshot, two kept; old rows stay exactly as long as their snapshot |
| `Snapshots.CommitMakesCatalogue` | internal/db/dat.go:499-556 | the platform's active catalogue is then exactly the games inserted |
| `Snapshots.OtherCatalogueKept` | internal/db/dat.go:499-556 | another platform's active catalogue is untouched |
| `Snapshots.ReimportIsZero` | internal/db/dat.go:487-632 | importing the active catalogue again, roms in any order and names distinct, diffs as (0, 0, 0) if and only if every game's hashes come back tidy |
| `Snapshots.ReimportDiff` | internal/db/dat.go:487-632 | it adds and removes nothing and changes exactly the games whose hashes do not come back tidy |
| `Snapshots.ReimportAlwaysZero` | internal/db/dat.go:487-632 | whatever names repeat: the diff is (0, 0, 0) in every reading of the store if and only if all hashes come back tidy and rows of one name agree |
| `Snapshots.CommaInHashShowsAsChange` | internal/db/dat.go:572-593 | a concrete hash with a comma is not tidy and reads back as another signature |
| `Snapshots.TailIsStale` | internal/db/dat.go:637-649 | in the descending list everything from the third on is stale |
| `Snapshots.JobStore.constructor` | internal/db/dat.go:169-216 | empty tables |
| `Snapshots.JobStore.GroupConcat` | internal/db/dat.go:572-579 | the game's hashes in some order |
| `Snapshots.JobStore.DatGameSignatures` | internal/db/dat.go:572-593 | the names of the active catalogue, each with a signature of one of its rows |
| `Snapshots.JobStore.IdsDescending` | internal/db/dat.go:636-638 | the platform's snapshot ids, newest first |
| `Snapshots.JobStore.DeleteSnapshot` | internal/db/dat.go:650-660 | the snapshot, its games and their roms are gone, nothing else |
| `Snapshots.JobStore.PruneSnapshots` | internal/db/dat.go:636-662 | exactly the snapshots with two newer ones are gone with what they own |
| `Snapshots.JobStore.InsertRoms` | internal/db/dat.go:547-551 | the game's rom rows under the next numbers |
| `Snapshots.JobStore.InsertGame` | internal/db/dat.go:538-551 | one game row and its roms |
| `Snapshots.JobStore.InsertGames` | internal/db/dat.go:537-552 | every listed game and its roms, each hash list under its own game |
| `Snapshots.JobStore.CountRoms` | internal/db/dat.go:503-506 | the number of roms |
| `Snapshots.JobStore.OpenSnapshot` | internal/db/dat.go:500-521 | the platform's rows deactivated, the new row active under the next id |
| `Snapshots.JobStore.Transact` | internal/db/dat.go:499-553 | open, insert, prune |
| `Snapshots.JobStore.Write` | internal/db/dat.go:493-556 | committed whole or rolled back to the same tables; valid either way |
| `Snapshots.JobStore.InsertDatSnapshot` | internal/db/dat.go:487-567 | fails exactly on a blank platform or authority or a lost transaction, and then changes nothing; otherwise the returned row carries the diff against what was active, and the tables are the committed ones |
| `TitleIndex.LastBarOf` | internal/collectionsvc/service.go:251-255 | the last bar of a key is the one that was put in, when the slug has none |
| `TitleIndex.KeySplits` | internal/collectionsvc/service.go:251-255 | a key splits back into its title and slug |
| `TitleIndex.GetAllLibraryTitles` | internal/db/library.go:1262-1289 | per title and platform the lowest-id row |
| `TitleIndex.SortedKeys` | internal/collectionsvc/service.go:241-250 | all keys, by ascending row id |
| `TitleIndex.AddItem` | internal/collectionsvc/service.go:256-266 | first writer wins, for each ownership key |
| `TitleIndex.IndexTitles` | internal/collectionsvc/service.go:238-267 | for any rows: under every platform and key the index holds the lowest-id title row whose cut key files it there |
| `TitleIndex.NewCycle` | internal/collectionsvc/service.go:222-268 | for any library rows: the index gives the lowest-id row among those that come first under their title and platform and are filed under the platform and key asked for |
| `TitleIndex.BuiltIsScan` | internal/collectionsvc/service.go:222-268 | without a bar in any slug that is what a plain scan gives |
| `TitleIndex.BarredRowIsLost` | internal/collectionsvc/service.go:251-255 | a row whose slug holds a bar is never found under its own slug |
| `TitleIndex.ScanIffNoBars` | internal/collectionsvc/service.go:222-268 | when every title has an ownership key, the index is the plain scan for all platforms and keys if and only if no row's slug holds a bar |
| `TitleIndex.BarInSlugMisfiles` | internal/db/library.go:1280-1285 | two concrete rows: the index answers with the row of another platform where the scan answers with the platform's own |
| `HeaderTwins.ByName` | internal/collectionsvc/headertwins.go:49-53 | per name the ascending indices of its rows |
| `HeaderTwins.UnheaderedIff` | internal/collectionsvc/headertwins.go:94-96 | a rom is header-stripped exactly when its name ends in ".unh", letter case aside, and its stem is the rest |
| `HeaderTwins.StemAndExt` | internal/collectionsvc/headertwins.go:98-100 | a name is its stem and its extension, which starts at the last dot unless a slash comes after it |
| `HeaderTwins.Pair` | internal/collectionsvc/headertwins.go:56-76 | a name's rows are folded exactly when they are a headered and a header-stripped twin |
| `HeaderTwins.Twins` | internal/collectionsvc/headertwins.go:54-76 | the folded rows and what their twins take, for any map order |
| `HeaderTwins.FindTwins` | internal/collectionsvc/headertwins.go:49-76 | the tables that decide each row's fate |
| `HeaderTwins.CollapseHeaderTwins` | internal/collectionsvc/headertwins.go:48-92 | the collapsed list, whatever the map order |
| `HeaderTwins.CollapseIdempotent` | internal/collectionsvc/headertwins.go:48-92 | collapsing twice is collapsing once |
| `HeaderTwins.NoTwinsLeft` | internal/collectionsvc/headertwins.go:48-92 | no twins remain |
| `HeaderTwins.RomsConserved` | internal/collectionsvc/headertwins.go:48-92 | no rom is lost or invented |
| `HeaderTwins.TwinsAreTwo` | internal/collectionsvc/headertwins.go:56-59 | a name with more than two rows is left alone |

## Left out

- Case folding outside ASCII: `Lower` maps A-Z only, and `EqualFold` is equality of lowered, trimmed text.
- `selection.Parse`, `BareTitle`, `OwnershipKeys` and the clone-list overlay are data or function parameters.
- ClrMame.ParseClrMamePro: leaves out `annotate`, which derives further fields from a game's name.
- `annotate` and everything derived from a game's name (region union, languages, revision, flags).
- The logiqx XML reader, byte-order marks and format detection around the clrmamepro parser.
- SHA-1 and its hex rendering are a parameter of `InfohashFromTorrentData`.
- The hash and name indexes of the library (`LibraryHashIndex`, `LibraryNameIndexByPlatform`): function parameters of the matching; they are single-pass first-writer maps.
- Disc sets: deletion of jobs, the repair path that reopens a set, the marker's repair bookkeeping, and the file work of the tail (normalise, playlist, flattening). The tail is one step.
- Disc sets: agreement of the in-memory job cache with its database; a job update is one atomic step.
- DiscSetRuns.AtMostOneTail: counts one further tail per crash, because a crash after the tail and before the flags leaves the set to the next sweep.
- DiscSetRuns.NoLostFinalize: speaks of runs without crashes; after a crash recovery is the sweep's (`DiscSetRuns.SweepRecovers`). That a finalized set got its tail is `DiscSetHistory.TailIffLanded`.
- DiscSetManager.Manager.TrackInLibrary: leaves out the activity entry, the notification and the wishlist deletion, which decide nothing here.
- DiscSetManager.Manager.SaveSetMarker: leaves out the repair bookkeeping of the marker (RepairAttempts, DegradedAt, RepairedAt, Exhausted).
- DiscSetManager.Manager.SweepDiscSets: runs without another thread in between; interleaved sweeps are the machine's (`DiscSetRuns.SweepRecovers`).
- Gap queue: SQL errors, the listing and counting queries; times are whole seconds as stored, and one clock reading serves a whole sync.
- Gap queue: `SyncAll` over platforms and the stored rollup numbers; each platform is one sync or one clear.
- Snapshots: size percentiles, source hashes, timestamps and the other descriptive columns; a second writer between the read of the active catalogue and the transaction.
- Snapshots: which statement of a transaction fails; the tables are the same afterwards.
- Limiter: the cleanup goroutine and the mutex are atomic calls; the HTTP middleware.
- Watcher: the seed janitor, activity log, blocklist and notification side of failures, progress text, and the import itself, which only appears as launched.
- Watcher.Watcher.SelectTargetFile: leaves out the start of the torrent that follows a selection; an unsafe torrent's deletion in the client is left out too.
- Watcher: import threads acting between two jobs of one tick; a tick is atomic and their changes fall between ticks. A job driven by the tick is therefore still as its snapshot says.
- Watcher.Watcher.MintOrphanJob: leaves out the platform hint, and takes an id no job has; `newJobID` (internal/download/manager.go:97) draws four random bytes and does not look at the store, so an id drawn twice would overwrite a job.
- Watcher.Watcher.RunTick: leaves out the janitor call that ends the tick.
- Watcher.ImportIsGated: says nothing of the file when the target's base name is ".": such a target can resolve to a file with an empty name, which the gate takes for no resolved file.
- Watcher: floating-point progress is a real number; only comparisons with 0 and 1 matter.
- HTTP handlers, authentication, settings, migrations, external clients, scheduling, renaming and the web interface: one-branch plumbing around these decisions.
