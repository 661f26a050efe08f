# TraxJourney: concurrent state, ordering and caching, in Dafny

TraxJourney keeps trips that several people and several processes edit at once. Most of its
API is plumbing, but a handful of places hold shared state under concurrency or translate
between two views of the same data. This project models those places and proves what they
promise, for every input, every interleaving and every reachable state.

| file | part of the system | main results |
|---|---|---|
| `CacheProtocol.dfy` | generation-guarded payload caches over any number of processes | no cache hit, and no response at all, is staler than a bust that completed before it, exactly when one counter rules all processes |
| `CacheRuns.dfy` | the same protocol over whole runs | every payload was loaded at the version it is said to be of; each cache holds exactly what was last put there; busts cover commits; every request ends and is answered once |
| `CacheBounds.dfy` | the two bounded caches and their eviction loop | always within both bounds; evicts only what expires first and no more than needed |
| `PhotoOrder.dfy` | rank-based photo placement | confluence, exactly characterised; what every operation keeps; stale entries are unobservable |
| `PhotoRuns.dfy` | the photo protocol of a memory | in every run files, list, storage counter, epochs and hashes agree |
| `PhotoLife.dfy` | what becomes of each photo | exactly when a saved photo is listed and how long; the list equals what the history of the run tells; by rank, then by landing |
| `Timeline.dfy` | visible-index translation over gappy positions | inserts, deletes and moves by visible index refine the plain list operations |
| `DayMeta.dfy` | day-metadata merge under compare-and-set | exact meaning per day, down to which fields count as content; idempotence, commutation, serialisability of every run; an attempt lands exactly if nothing was written meanwhile |
| `RouteJobs.dfy` | route-resolution state machine | verdicts exactly once for a job that finishes while current, never otherwise; hand-drawn tracks protected, with the exact exception; a trigger is harmless exactly when the row it stamps is unedited |
| `Coalesce.dfy` | coalesced background work | one worker; a request is sure to be served exactly by where the worker stands when it arrives, with and without exceptions; no work without a call, and the worker always leaves |
| `Comments.dfy` | threaded comments | subtree delete removes exactly the subtree; the tree shows every comment once |
| `LevelFilter.dfy` | zoom-level filter over packed lines | packed form refines the simple filter; levels nest; no feature dropped |
| `ChronoSort.dfy` | chronological sort | stable, uniquely determined; by date and time; where segments end up |
| `ChronoTwice.dfy` | sorting twice | the sort is idempotent exactly when no undated segment stands behind another undated item; what fails otherwise |
| `StableOrder.dfy`, `MapSum.dfy`, `Wrappers.dfy` | shared theory | uniqueness of stable orders; sums over maps |

Every state machine is a deterministic function of an action, an action whose guard does
not hold changes nothing, and each theorem is about every sequence of actions. A critical
section under a lock, and a read or write that the code makes without one, is one step.

## What the code does not do

Five promises fail of the code as it stands; each has a lemma with a concrete run or list and
a lemma that says exactly when the promise holds.

- Cache freshness fails with per-process counters and two processes
  (`CacheProtocol.StaleWithTwoCounters`); it holds if and only if the counter is shared or
  there is one process (`CacheProtocol.FreshExactlyWithOneCounter`).
- An unforced route trigger can discard a hand-drawn track, because its guard reads the
  segment before the separate write that stamps it (`RouteJobs.UnforcedTriggerCanDiscard`).
  Whatever happens after the stamp, a trigger discards no such track if and only if the row is
  not marked as edited at the stamp (`RouteJobs.StampSafeExactlyIfUnedited`): the condition the
  write at `api/segments.py:766` would have to carry.
- A request absorbed between a worker's final check and its release is left waiting
  (`Coalesce.RequestLeftWaiting`). Without exceptions a call is sure to be served if and only
  if no worker stands there when it arrives (`Coalesce.CallServedExactlyUnlessLate`); when the
  work may raise, if and only if nothing runs or the worker is about to start the work or about
  to test the flag (`Coalesce.CallServedExactlyIfNotWorking`).
- The comment at `api/project_items.py:143-146` says that a segment leaving from an
  activity's end is sorted right after that activity wherever it stood. A segment listed before
  its activity stays before it (`ChronoTwice.SegmentStaysBeforeActivity`). It is sorted next to
  it, and after it if and only if it stood after it before
  (`ChronoSort.MatchedSegmentKeepsSide`).
- Sorting is not idempotent, for three reasons: an undated segment, moved to the end, inherits
  a date there (`ChronoTwice.SortNotIdempotent`); of two activities ending at one place the
  sort changes which is listed last (`ChronoTwice.TiedEndsMoveSegment`); and, since neither the
  dates of entries nor the days of segments are validated (`api/memories.py:367-370`,
  `api/segments.py:369`), a key shorter than a date is compared as a whole with a segment's day
  (`ChronoTwice.ShortDateMovesSegment`). On lists without the last two it is idempotent if and
  only if there is no undated segment behind an undated item of another kind while something is
  dated before the fallback (`ChronoTwice.IdempotentExactly`). Lists whose activities and entries
  have dates of ten characters or more are free of the third, whatever the days of their segments
  (`ChronoTwice.LongDatesRegular`).

## Model

| member | source | states |
|---|---|---|
| CacheProtocol.FreshExactlyWithOneCounter | api/geo.py:189-271 | Over all interleavings of commits, busts and cached reads: no hit is older than a commit made before a bust completed by then, and no response is older than one made before a bust completed before its request, if and only if one counter serves all processes |
| CacheProtocol.EveryRunFresh | api/geo.py:207-309 | The freshness of every run with one counter, although the store's check and its insert are separate steps |
| CacheProtocol.TagsNeverFlatter | api/geo.py:1066-1125 | In both layers and every process, a cached payload was read no earlier than the bump to the generation it is tagged with |
| CacheProtocol.TrackKeepsInv | api/geo.py:1080-1125 | A layered read keeps the tag guarantee whether the trip was a hit, found after waiting for the build lock, or built |
| CacheProtocol.ReadKeepsInv | api/projects.py:262-274 | A plain cached read (lookup, check, generation, load, store check, insert) keeps it |
| CacheProtocol.BustKeepsInv | api/geo.py:207-238 | A commit and the separate steps of its bust keep it, with the counter in Redis or in the process |
| CacheProtocol.StaleWithTwoCounters | api/geo.py:189-204 | With one counter per process and two processes there is a run that serves a stale hit |
| CacheRuns.EveryPayloadWasLoaded | api/geo.py:279-309 | In every run each payload served, and each entry of both caches in every process, is what a request, of that process for an entry, read from the database at the version it is said to be of |
| CacheRuns.BytesExactlyLastPut | api/geo.py:229-309 | In every run an entry is in the byte cache of a process if and only if a request of that process put it there and since then no bust of that process, failed check, eviction or other insert touched it |
| CacheRuns.TrackExactlyLastPut | api/geo.py:538-597 | The same for the cache of prepared trips |
| CacheRuns.OnlyCheckedInserts | api/geo.py:287-289 | In every run a request about to insert has found in a check of its own that the generation it tags the payload with was current |
| CacheRuns.EveryBustCovers | api/geo.py:207-243 | In every run a completed bust belongs to a request that had committed, and stands for all commits up to its call |
| CacheRuns.HitIsServed | api/geo.py:258-271 | A byte entry of the current generation is served without a load |
| CacheRuns.TripIsUsed | api/geo.py:1078-1098 | A prepared trip of the current generation is used without a load, before and behind the build lock |
| CacheRuns.EveryRequestEnds | api/geo.py:1066-1125 | In any interleaving a request given its turns ends after at most 13 steps and is recorded |
| CacheRuns.AnsweredOnce | api/geo.py:1066-1125 | In every run each request begun is under way or was recorded exactly once |
| CacheBounds.PayloadCache.Evict | api/geo.py:564-573 | Terminates within both bounds; evicts only entries expiring no later than every survivor, and putting the last one back would break a bound |
| CacheBounds.PayloadCache.Insert | api/geo.py:290-309 | The locked section of a store: expired entries are swept, an oversized payload is refused and removes its old entry, any other is stored and then only justified evictions happen; both bounds hold again when the lock is released |
| CacheBounds.PayloadCache.Peek | api/geo.py:258-265 | The first locked section of a lookup: finds exactly a live entry, of whatever generation, and drops an expired one; with a renewal (the trip cache, lines 544-556) the deadline is extended before the generation is known |
| CacheBounds.PayloadCache.Discard | api/geo.py:267-270 | The second: drops the entry found superseded, or whatever has taken its place since |
| CacheBounds.NewCaches | api/geo.py:85-172 | Both caches start empty with 64 MB, 200 entries and 16 MB an entry, and 32 MB, 32 entries and 32 MB an entry, so one admissible entry always fits |
| CacheBounds.TotalBytesAdds | api/geo.py:274-276 | The bytes held are the sizes of the entries, each counted once |
| CacheBounds.PayloadCache.Bust | api/geo.py:229-238 | Drops exactly the entries of that owner and project, every variant of them, and changes no other |
| CacheBounds.SoleEntryFits | api/geo.py:307-308 | The keep-the-sole-entry exit never leaves a cache over a bound, since the per-entry cap is within the byte bound |
| CacheBounds.EvictionKeepsMost | api/geo.py:299-309 | Any strictly larger set of latest-expiring entries than what eviction leaves would break a bound |
| CacheBounds.FindSoonest | api/geo.py:306-306 | An entry with the smallest deadline |
| PhotoOrder.Place | api/photo_order.py:93-123 | The copy, scan and insert equal the stable insertion by rank, and refuse a listed photo |
| PhotoOrder.PlacedView | api/photo_order.py:93-123 | Placing is a stable insertion of (rank, photo): before the first greater rank or unranked photo, after equal ranks |
| PhotoOrder.PlacementConfluent | api/photo_order.py:14-18 | On any sorted list two arrival orders give the same list if and only if they agree on the order of arrival inside every rank |
| PhotoOrder.DistinctRanksConfluent | api/photo_order.py:14-18 | Downloads with distinct ranks may finish in any order among uploads that keep theirs: the list is the same |
| PhotoOrder.PlaceAllIsStable | api/photo_order.py:14-18 | After any arrivals the list is sorted by rank with unranked photos last, and each rank holds its earlier photos, then the new ones in arrival order |
| PhotoOrder.OrderlyShape | api/photo_order.py:14-18 | An orderly list is a ranked prefix with non-decreasing ranks followed by the unranked photos |
| PhotoOrder.PlacedKeepsOrderly | api/photo_order.py:93-123 | Sorted ranked prefix, unranked suffix and no duplicates survive a placement |
| PhotoOrder.RemovedKeepsOrderly | api/photo_order.py:126-132 | They survive a removal, after which the photo is gone |
| PhotoOrder.RemovedView | api/photo_order.py:126-132 | A removal leaves the other photos in their order and with their ranks |
| PhotoOrder.ReplacedKeepsOrderly | api/photo_order.py:135-161 | A replacement keeps place and rank, and keeps the list orderly if and only if the new id was not listed elsewhere |
| PhotoOrder.PlacedHashes | api/photo_order.py:172-182 | After a placement a hash is found if it was before or is the placed one's |
| PhotoOrder.ReplacedHashes | api/photo_order.py:139-140 | A replacement leaves every hash answer as it was |
| PhotoOrder.RemovedHashes | api/photo_order.py:126-132 | After a removal a hash is found if and only if another listed photo carries it |
| PhotoOrder.HashAlphabet | api/photo_order.py:41-53 | A content hash is 64 lower-case hexadecimal characters |
| PhotoOrder.BadEntryDropsItself | api/photo_order.py:56-82 | A malformed rank or hash costs its own entry and no other, nor the epoch |
| PhotoOrder.StaleEntriesInvisible | api/photo_order.py:19-20 | Through any operations, a state and its restriction to the listed photos show the same lists, answer hash questions alike and restrict to the same state |
| PhotoRuns.EveryRunKeepsPromises | api/memories.py:641-687 | In every run: listed photos have files, files are listed or in flight, the counter equals the bytes on disk, no photo queued before the latest clear is listed, no hash is listed twice, and the list is orderly |
| PhotoRuns.LandPlaceKeepsInv | api/memories.py:669-687 | The locked placement keeps the invariant in each of its outcomes: memory gone, stale epoch, duplicate content, placed |
| PhotoRuns.LandReplaceKeepsInv | api/memories.py:849-874 | So does the locked replacement, whether the old photo is still there or not |
| PhotoRuns.ClearKeepsInv | api/memories.py:625-638 | So does a re-import's clear, which also makes every earlier download stale |
| PhotoRuns.DropPhotoKeepsInv | api/memories.py:806-820 | So does deleting a photo |
| PhotoRuns.DeleteMemoryKeepsInv | api/memories.py:555-587 | So does deleting the memory, which takes the files in flight with it |
| PhotoRuns.SaveDownloadKeepsInv | api/memories.py:707-727 | So does saving a download that passed the unlocked check |
| PhotoRuns.StoredStateReadsBack | api/photo_order.py:56-90 | In every run the order state survives being written and read back, and whatever is written over ranks and hashes the epoch read still counts the clears |
| PhotoRuns.NothingOrphaned | api/memories.py:555-587 | Once the memory is gone and nothing is in flight, no file is left and the counter is back to what lies elsewhere |
| PhotoLife.UploadListedExactly | api/memories.py:669-687 | Over every continuation, an upload is listed from its landing on if and only if the memory is there when it lands and nothing has taken it off since |
| PhotoLife.DownloadListedExactly | api/memories.py:669-727 | A download, from its queueing to its landing, is listed if and only if the memory is there, there was no clear since it was queued, no listed photo has its content and nothing has taken it off since; it goes where the rank it was queued with belongs |
| PhotoLife.ReplacementListedExactly | api/memories.py:849-874 | A replacement takes the place and rank of the photo it replaces if and only if that photo is listed when it lands, and the old files are gone |
| PhotoLife.ListedExactlyUntilEnded | api/memories.py:799-820 | A landed photo stays listed until its deletion or replacement, a clear or the deletion of the memory, and never comes back |
| PhotoLife.ListFollowsHistory | api/memories.py:625-687 | In every run the list, with its ranks, is the one the history of queueings, saves, landings, deletions and clears tells |
| PhotoLife.LandingsSortedByRank | api/photo_order.py:14-18 | When landings are all that touches the list, it is sorted by the ranks given at the queueing, with equal ranks in the order of landing |
| PhotoLife.DroppedSavesNothing | api/memories.py:707-727 | A download that was given up, or whose content was listed when it was fetched, saves nothing |
| PhotoLife.FilesAsSaved | api/memories.py:592-607 | In every run each file has the size it was saved with |
| PhotoRuns.UnlinkKeepsCount | src/billing/usage.py:128-141 | Unlinking subtracts exactly the files that existed, so the counter keeps matching |
| Timeline.VisiblePositions | api/project_access.py:187-226 | The loop yields the positions of the visible items |
| Timeline.WhoSees | api/project_access.py:187-226 | Everything but journal entries is seen by everybody, a journal entry by exactly its author, or by the owner if none is recorded |
| Timeline.SplitAtPosition | api/project_access.py:187-201 | The i-th visible position splits the member's list into its first i elements, itself and the rest |
| Timeline.TranslationSplits | api/project_access.py:229-241 | The translated index splits the caller's list exactly at the clamped slot |
| Timeline.TranslationFollows | api/project_access.py:229-241 | The translated index is right behind the element to follow, at the end or at the front |
| Timeline.InsertRefinesListInsert | api/memories.py:454-467 | Inserting by visible index changes the caller's list as a clamped insert at index + 1 does |
| Timeline.PrivateInsertUnseen | api/journal.py:354-380 | A new journal entry leaves every other member's list unchanged |
| Timeline.SlotOpens | api/project_access.py:244-259 | Opening the slot keeps positions strictly increasing whatever gaps they have |
| Timeline.SlotHoldsItem | api/project_access.py:244-259 | The new item lands at the list index and the others keep their order |
| Timeline.SlotKeepsDense | api/project_access.py:244-259 | An insert into positions without gaps opens none |
| Timeline.ItemTable.InsertAfter | api/memories.py:449-475 | The insert loop leaves a table whose ordered read is the old one with the slot opened |
| Timeline.ItemTable.DeleteRow | src/project/repo_items.py:114-147 | Finds a row holding the item exactly if there is one; then the ordered read is the old one without it, gap included, and otherwise nothing changes |
| Timeline.GapLeavesOrder | src/project/repo_items.py:114-147 | Deleting a row without renumbering leaves the read of the others in order |
| Timeline.ReadingUnique | src/project/repo_items.py:134-140 | Positions being distinct, a table has one ordered read |
| Timeline.DeleteRemovesThatItem | api/project_items.py:44-54 | A delete succeeds exactly inside the caller's list, removes that item from it, and from any other member's list that item or nothing |
| Timeline.MoveRefinesListMove | api/project_items.py:97-103 | A move by visible indices is the same move on the caller's list, to the nearest index of that list; from an index outside it, no move |
| Timeline.MoveUnseenByOthers | api/project_items.py:97-103 | A member who cannot see the moved item sees no change |
| DayMeta.PatchedPerDay | api/projects.py:838-854 | The three stages do to each day exactly: a set day is replaced and gains the stored counters if it omits them; a deleted day goes unless it has content on a hidden day; any other readable day is unchanged |
| DayMeta.UnsetDayKeptExactly | api/projects.py:674-726 | A deleted day is kept if and only if it is hidden and has a field that is a number, a boolean or a non-empty string, list or object; a day not mentioned, if and only if it is readable |
| DayMeta.SetDayKeepsCountersExactly | api/projects.py:729-748 | A set day holds the given fields, and its stored counters if and only if it names none and they are true, a number other than 0 or not empty |
| DayMeta.PatchIdempotent | api/projects.py:838-854 | The same patch twice is the patch once |
| DayMeta.DisjointPatchesCommute | api/projects.py:810-814 | Patches of different days commute and both land |
| DayMeta.EveryDisjointPatchLands | api/projects.py:810-814 | In every run, a day that no other committed write changed, patch or not, ends as the patch of the request that landed would alone have left it |
| DayMeta.PatchesSerialisable | api/projects.py:829-883 | In every run the stored map is the committed writes in lock-version order, the patches among them are those of the requests that landed, each once; a request that gave up or was refused wrote nothing, and one that gave up lost five times, with at least five writes of others committed since it began |
| DayMeta.AttemptLandsExactly | api/projects.py:829-883 | Over every interleaving an attempt lands if and only if nothing was committed between its read and its end, and then stores the patch of what it read; the fifth failure is the last |
| DayMeta.BegunExactlyIfWellFormed | api/projects.py:821-826 | A request is refused if and only if it sets and deletes the same day |
| DayMeta.DecidedForGood | api/projects.py:829-883 | A request that landed, gave up or was refused stays so |
| DayMeta.MergePreserveCounters | api/projects.py:729-748 | The loop copies the stored counters into exactly the days that omit them |
| RouteJobs.TokensArbitrate | api/segments.py:159-168 | In every run each trigger's verdict is written at most once and only while no later trigger or edit happened; pending exactly while a token is set |
| RouteJobs.PendingExactlyWhileUndisturbed | api/segments.py:265-318 | After a stamp the segment is pending for that trigger exactly as long as its job has not finished or crashed and no edit, later stamp or deletion has come |
| RouteJobs.PendingMeansUnanswered | api/segments.py:265-352 | In every run a segment pending for a trigger was stamped for it, and since then its job neither finished nor crashed and there was no edit |
| RouteJobs.VerdictLands | api/segments.py:265-352 | The first verdict after an undisturbed wait is written; a failed one, or a crash, keeps the line and the edit flag |
| RouteJobs.TriggerResolvesExactly | api/segments.py:739-768 | A fresh trigger that finds a route replaces the line, unless the segment is edited and the trigger not forced |
| RouteJobs.EditsProtected | api/segments.py:208-237 | While the edit flag holds, the line is the last hand-drawn one or was cleared by a reset; a verdict takes the flag away only if its trigger was forced or raced an edit |
| RouteJobs.StampSafeExactlyIfUnedited | api/segments.py:739-768 | Over every continuation, a trigger past its guard never discards a hand-drawn track if and only if the row it stamps is not marked as edited |
| RouteJobs.OnlyForceDiscards | api/segments.py:739-768 | Only forced triggers discard, when no edit slips in between an unforced trigger's guard and its stamp |
| RouteJobs.UnforcedTriggerCanDiscard | api/segments.py:739-768 | A run in which an unforced trigger discards a hand-drawn track |
| RouteJobs.SettleKeepsInv | src/project/repo_items.py:61-112 | A verdict, guarded by its token and retried any number of times, keeps the invariant |
| RouteJobs.EditKeepsInv | api/segments.py:601-621 | So does storing a hand-drawn track, which supersedes a pending job |
| RouteJobs.ResetKeepsInv | api/segments.py:466-470 | So does a coordinate or mode change |
| RouteJobs.EditStands | api/segments.py:601-621 | A hand-drawn track stays until the next edit, reset or deletion or a verdict that lands, and no older job's verdict can land |
| RouteJobs.ResetStands | api/segments.py:466-470 | A reset route stays empty as long, with the edit flag as it was |
| RouteJobs.DeletedForGood | src/project/repo_items.py:61-112 | After the deletion of the segment nothing is written |
| Coalesce.CoalescingSafe | api/project_shared.py:177-199 | In every interleaving at most one worker; a request still waiting is remembered by the dirty flag or a run is about to start; the flag outlives its worker only after an exception or an arrival past the final check |
| Coalesce.NoMoreStartsThanCalls | api/project_shared.py:184-196 | In every interleaving the work starts at most once per call |
| Coalesce.WorkerLeaves | api/project_shared.py:189-199 | From every state a worker left alone is gone after exactly 1 to 7 steps, by where it stands and whether the flag is set, and leaves the flag set only if it had passed its final check |
| Coalesce.CallServedExactlyUnlessLate | api/project_shared.py:184-199 | Over every continuation without exceptions, the work starts after the call before the worker is gone, if and only if no worker stands between its final check and its release at the call |
| Coalesce.CallServedExactlyIfNotWorking | api/project_shared.py:184-199 | Over every continuation, exceptions included: if and only if nothing runs at the call, or the worker is about to start the work or about to test the flag |
| Coalesce.RequestLeftWaiting | api/project_shared.py:193-199 | A run that leaves a request waiting |
| Comments.CommentTable.Add | api/memories.py:1040-1056 | A reply needs an existing parent of the same memory; parents are always older and present |
| Comments.CommentTable.DeleteSubtree | api/memories.py:1088-1101 | Terminates, removes exactly the comment and its descendants, and leaves no reply without its parent |
| Comments.BuildTree | api/memories.py:980-999 | Every reply list and the list of roots hold exactly their comments in row order |
| Comments.TreeShowsEachOnce | api/memories.py:980-999 | Reading the tree from its roots shows every comment exactly once |
| Comments.RepliesCover | api/memories.py:993-998 | Everything below a comment is below exactly one of its replies |
| LevelFilter.PackedFilterIsSimple | api/geo.py:358-377 | Filtering the packed form equals filtering the unpacked points, floor fallback included |
| LevelFilter.LevelsNested | api/geo.py:358-377 | Once a level is above the floor every deeper level is and contains it |
| LevelFilter.ServedAboveFloor | src/models/simplify.py:482-487 | The points are served exactly when 32 of them have a low enough level |
| LevelFilter.UnpackedScaled | api/geo.py:371-373 | Unpacking integers of a hundred-thousandth of a degree gives back longitude and latitude |
| LevelFilter.UnpackedFloats | api/geo.py:374-376 | Unpacking floats gives back longitude and latitude |
| LevelFilter.IntersectShares | src/models/simplify.py:119-126 | Two boxes intersect if and only if they share a point |
| LevelFilter.FeaturesFor | api/geo.py:474-496 | One feature per line in order, at its floor exactly when it cannot be shown |
| ChronoSort.AssignKeys | api/project_items.py:147-196 | The two loops give each item the key the rules define |
| ChronoSort.SortIsStable | api/project_items.py:198-203 | Sorted by key, a permutation, and items with equal keys keep their order |
| ChronoSort.SortIsDetermined | api/project_items.py:198-203 | Any stable sort by these keys gives this order |
| ChronoSort.EntriesByDateAndTime | api/project_items.py:165-179 | Entries are ordered by date and then by time, a missing time counting as midnight |
| ChronoSort.UndatedComeLast | api/project_items.py:155-179 | Items without a date come after every entry up to the end of the year 9999 |
| ChronoSort.SegmentOpensItsDay | api/project_items.py:187-193 | A dated segment takes the date before it if that is on its day; otherwise it comes after the day's entries without a time and before those after midnight |
| ChronoSort.SegmentStaysClose | api/project_items.py:187-193 | A segment that inherits its date ends up after its dated predecessor with only equal keys between |
| ChronoSort.MatchedSegmentKeepsSide | api/project_items.py:143-154 | A segment leaving from an activity's end lands next to it, after it if and only if it stood after it |
| ChronoTwice.SegmentStaysBeforeActivity | api/project_items.py:143-154 | A segment listed before the activity it leaves from is left before it |
| ChronoTwice.IdempotentExactly | api/project_items.py:147-203 | If at each place a segment leaves from the last listed activity is the latest, and each segment's day is absent or ten characters unless all keys are that long, sorting twice is sorting once if and only if there is no undated segment behind an undated item of another kind while something is dated before the fallback |
| ChronoTwice.LongDatesRegular | api/project_items.py:160-193 | With activities and entries dated by ten characters or more, the condition on the days of segments falls away |
| ChronoTwice.Rekey | api/project_items.py:155-196 | On the sorted list the second pass dates no item later than the first did; a dated item stays dated, on its day, on its side of the fallback and in order, an undated segment takes the date carried so far, and any other undated item stays undated |
| ChronoTwice.EndDatesKept | api/project_items.py:147-154 | If at each place a segment leaves from the last listed activity is the latest, the sort does not change the date such a place stands for |
| ChronoTwice.SortNotIdempotent | api/project_items.py:155-203 | A list with an undated segment, starting anywhere, that a second sort changes |
| ChronoTwice.TiedEndsMoveSegment | api/project_items.py:147-154 | A list, everything in it dated, that a second sort changes because two activities end at one place |
| ChronoTwice.ShortDateMovesSegment | api/project_items.py:167-193 | A list of entries and segments that a second sort changes because a key is shorter than a date |
| StableOrder.StableOrderUnique | api/photo_order.py:14-18 | A sorted list is determined by the order inside each key |

## Left out

- Redis outages and the switch between counters, eviction of the counter, and the exact time-to-live: a run keeps one counter authority, and entries may be forgotten at any time.
- Several projects in `CacheProtocol`: counters and entries are per project, so one project is modelled and the others show up as forgotten entries.
- The build lock of prepared trips: `CacheProtocol` lets any number of builds overlap, which contains the runs with the lock.
- CacheBounds.FindSoonest: which of several entries with the same deadline is dropped is left open.
- ChronoTwice.IdempotentExactly: for lists in which, at a place some segment leaves from, an activity is listed after a later one, or in which a segment's day is not ten characters and some key is shorter than that, only `TiedEndsMoveSegment` and `ShortDateMovesSegment` are stated.
- JSON text: columns are modelled as parsed values, and a column made unreadable as a whole between two steps (which resets its epoch) is outside the runs.
- Several keys in `Coalesce` and several segments in `RouteJobs`: their states are independent, so one of each is modelled.
- Journal photos, which use the same functions under their own lock; only memories are modelled.
- Crashes between deleting files and committing, quota checks and image decoding: a download may be dropped at any time before its files are saved.
- Access tiers, encryption and billing: the caller's role is taken as given.
- `_check_written_day_notes`: the rules for a valid note are not modelled; a request may be refused at any attempt.
- The sleeping options, counters and served form of a day-meta patch: they do not take part in the merge.
- The days hidden from a patch's caller are read with the row and recorded with the write; how they are computed is not modelled.
- Jobs queued without a token, the sweeps that queue jobs again, and the geometry a job computes: every job carries the token of its trigger, and tokens are distinct.
- Which coordinates a job read before a reset: a verdict after a reset stores the route of the old endpoints, as the code does.
- A crash handler whose own write fails (`api/segments.py:354-356`): it is then a job that has not finished, and the segment stays pending.
- Floating-point rounding: coordinates are real numbers.
- `vertex_levels`, `working_set` and `floor_line`: levels and the floor line are inputs of the filter.
- The key of an activity is its ISO string as given; time zones and GPX times are not modelled.
- Structural saves of the whole project: inserts, deletes and moves are modelled on the item list each attempt loads.
