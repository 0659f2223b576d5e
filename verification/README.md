# Bitlab verification

Bitlab is a streaming server that plays torrents: it searches release indexers, picks a release and
a file, keeps the torrents it is playing loaded, serves their bytes, and deletes what it downloaded
when the disk fills up. This project models the parts of it that decide something, as Dafny
functions, methods and classes, and proves what they are for.

- **Cache eviction** (`CachePlan`, `CacheTheorems`, `Accounting`, `Sweep`, `Resweep`): the plan of
  what to delete, what every plan guarantees, how plans for different policies compare, and a sweep
  that carries a plan out while some removals fail.
- **Torrent engine** (`EngineState`, `Engine`, `Capacity`, `AddRace`, `DropRace`): activity records,
  add locks, loaded torrents and open plays as a class whose methods are steps of a state machine;
  the torrent limit when several requests add torrents at the same time; and adds and drops again,
  lock section by lock section, with everything else happening in between.
- **Sized reader** (`SizedReader`): the cursor a play is served through.
- **Search** (`Fanout`, `SearchMerge`, `Ranking`, `Relevance`, `RelevanceGates`, `Dedupe`,
  `WholeWord`): launching the searches, merging answers that arrive in any order, ranking and cutting
  them, and the gate that keeps unrelated releases out, with exactly what it keeps.
- **Shared port** (`Sniffer`, `MuxState`, `PortMux`): telling web from torrent connections by their
  first bytes, and handing them to two sides through bounded queues until shutdown.
- **Files and episodes** (`FileChoice`, `Episodes`): which file of a torrent is played, and
  renumbering continuous episode counts.
- **Sign-in** (`FailWindow`, `SecondFactor`): the window of failed attempts, and one-use codes.

Classes and loops are modelled as classes and loops and proved against specification functions; the
theorems are about those functions and about whole runs of them, and for each function the answers
rest on some theorem says what it comes to in terms of the inputs alone. Times are integers. Regular
expressions, case folding, release scoring, hashes and codes are function parameters, so the
theorems hold for any choice of them. A failing system call, a short read or a refused add is a
parameter of the method it happens to. `Basics` holds what the modules share.

Where the code falls short of what its comments promise, or of what one would expect, the model
follows the code, and when it does and when it does not is proved:

- A seek whose offset overflows 64 bits is refused instead of clamped (`SeekClampsIffNoOverflow`).
- A release named for a range of seasons that starts at season zero passes the season gate whatever
  season is asked for (`RangeFromZeroPasses`; exactly when a range passes: `RangeGate`).
- A listed episode of a first season with gaps in its numbers can be taken for a continuous count
  (`ListedEpisodeStays`).
- When two sources report the same number of seeders for one hash, which record is kept depends on
  which answered first (`RecordIndependentIffUntied`).
- Enrolling in two-factor sign-in ignores whether its writes succeed, so the enrolment code may stay
  good (`EnrolmentCodeIsSpentIff`); the same goes for disabling it (`DisablingCodeIsSpentIff`). A
  stored step that cannot be read counts as zero, so a used code passes again
  (`UsedCodeReplaysIff`).
- With several additions in flight the torrent limit can be exceeded by one less than their number
  (`CapacityBoundIsReached`), and by no more as long as no two evictions are about to drop the same
  torrent and none misses its own (`CapacityUnderConcurrency`). That condition is what keeps a single
  eviction from adding to the count (`EvictionOwesIff`), and with two additions in flight there is no
  bound at all without it (`CapacityIsUnbounded`).
- An eviction between the first two lock sections of an add leaves a lock, and then a torrent, without
  a record (`EvictedBeforeLocking`). So does a reap or a sweep that dropped a torrent and comes to its
  record when that torrent is being added again, or has been (`DeletedUnderTheAdd`,
  `DeletedUnderTheTorrent`). Exactly when: `LocksHaveRecordsIff`, `LoadedHaveRecordsIff`,
  `RecordAtAddIffAtMark`; what would prevent it: `CarefulRunsAreSafe`.
- A play opened while a reap, a sweep or an eviction is under way can lose its torrent
  (`PlayOpenedDuringDrop`, `PlayOpenedDuringEviction`), or its record (`PlayOpenedBeforeLateDelete`).
  Exactly when: `ReadersKeepTheirTorrentIff`, `DropFindsReaderIff`.
- More than ten thousand addresses failing within the window make the next failure forget all of
  them (`OverrunHappens`); that failure leaves all answers right exactly when the map is not overrun
  or nobody is blocked (`FailureKeepsAnswersIff`).
- A connection can be left in the queue of a side that has been closed (`ClosedSideCanKeepAConnection`),
  exactly when one is queued, waiting or being sniffed for that side (`StrandsIffHeading`).
- A size probe of the sized reader, a seek to the end, is answered locally only at the end; anywhere
  else it moves the inner reader (`EndProbeIsLocalIffAtEnd`, `ProbeFreshReader`).
- Asking for a word of a title twice can turn the choice of the file (`RepeatKeepsChoiceIff`).

## Model

| member | source | states |
|---|---|---|
| CachePlan.PlanCache | cache.go:156-206 | For any order the sort may produce, the two loops with their running totals compute the plan: a prefix of the unprotected units in that order, each with its reason. |
| CachePlan.PlanRetention | cache.go:167-180 | The retention loop takes exactly the expired units, in order, and totals their bytes. |
| CachePlan.SortByLastUse | cache.go:163-165 | Any order sorted by last use is allowed; only that is relied on. |
| CacheTheorems.PlanSafety | cache.go:142-155 | A plan holds no protected unit and nothing twice, holds every expired unit, and never passes over an older unprotected unit for a newer one. |
| CacheTheorems.ReasonsAreTrue | cache.go:171-199 | Each decision carries the reason that held when it was taken: retention for the expired and only those, the budget before the reserve for the rest. |
| CacheTheorems.PlanEndsPressureTightly | cache.go:188-204 | After the plan neither rule presses or nothing unprotected is left; without its last pressure decision a rule would still press. |
| CacheTheorems.PlanReachesItsGoal | cache.go:188-204 | In bytes: less what the plan frees the cache is within its budget and the volume outside its reserve, or only what is read or in its grace is left. |
| CacheTheorems.EachDecisionIsDue | cache.go:171-203 | In bytes and times: what goes is not read and past its grace, and it is long unused, or with all that went before it gone the budget was still exceeded or the reserve still touched. |
| CacheTheorems.RetentionTakesTheLongUnused | cache.go:171-180 | A retention decision is taken exactly on what nobody reads and nobody used within grace or retention. |
| CacheTheorems.PlanIsTheLargerPrefix | cache.go:171-205 | The two passes together take the larger of two prefixes of the unprotected units: the expired ones, and the shortest that eases the pressure. |
| CacheTheorems.LooserPlanIsPrefix | cache.go:156-206 | Raising the budget (zero being unlimited), lowering the reserve, lengthening the grace or the retention makes the plan a prefix of the stricter one. |
| CacheTheorems.SweepFixedPoint | cache.go:156-206 | Planning again at once over the survivors, with the freed bytes accounted for, gives the empty plan, whatever either sort did with ties. |
| Accounting.SumRemoves | cache.go:300-316 | Removing one more entry lowers any running total by that entry's share, once. |
| Accounting.TotalsAddUp | cache.go:252-270 | The totals entry by entry: bytes, number, unfinished bytes, and bytes and number of what no torrent accounts for. |
| Sweep.AppliedNext | cache.go:284-301 | Carrying out one more decision drops its torrent, and forgets record and lock only if its files went. |
| Sweep.AppliedMeans | cache.go:284-301 | What a sweep leaves: a torrent goes when its entry is planned, its record and lock when its files go too, and nothing else changes. |
| Sweep.AccountsApplied | cache.go:284-316 | Whatever subset of removals fails, what the loop has counted as reclaimed is what is gone. |
| Sweep.RecentAccessIsSpared | cache.go:228-265 | Nothing accessed within the grace period is planned, however old its files are. |
| Sweep.SweepIsStep | cache.go:239-346 | A sweep is one of the engine's steps and keeps its invariant; it removes no entry waiting for its metadata and none that is being read. |
| Resweep.SecondSweepIsIdle | cache.go:239-346 | After a sweep in which every removal worked, a second one at the same instant plans nothing and changes nothing in the engine. |
| Resweep.SweepMeetsItsGoal | cache.go:239-316 | From directory and records to directory: nothing that was accessed or written lately, is read, or waits for metadata goes; and afterwards budget and reserve are met or nothing else is left. |
| Engine.Engine.Scan | cache.go:247-274 | The units handed to the planner and the totals over everything on disk, pending entries counted but never made into a unit. |
| Engine.Engine.ApplyPlan | cache.go:281-316 | The loop over the plan leaves the state the plan and the failures determine, and counts exactly what went. |
| Engine.Engine.SweepCache | cache.go:239-346 | The published totals are the totals over the entries that survive, for any failures; the evicted bytes and count grow by exactly what was removed; a scan that fails changes nothing. |
| Engine.Engine.constructor | engine.go:213-231 | A new engine has no records, locks or torrents and satisfies the invariant. |
| Engine.Engine.GetActivity | engine.go:302-311 | The record of an infohash, the one already there or a fresh one with no readers. |
| Engine.Engine.Touch | engine.go:315-322 | Records the access of one torrent and leaves all others alone. |
| Engine.Engine.BeginAdd | engine.go:326-350 | Up to the capacity check: an invalid infohash changes nothing, a loaded torrent is only touched, a missing one gets its lock and its in-flight mark. |
| EngineState.ValidInfohashIff | util.go:86-97 | An infohash is forty lower-case hexadecimal digits, and nothing else is. |
| Engine.Engine.MakeRoom | engine.go:361-367 | A full client gives up its least recently used idle torrent; it fails exactly when every loaded torrent is read or added, and then nothing was unloaded. |
| Engine.Engine.CompleteAdd | engine.go:361-372 | Makes room or fails, then loads the torrent if the client takes it, and clears the in-flight mark either way. |
| Engine.Engine.PickOldest | engine.go:382-394 | A least recently used record among those not read and not being added, if there is one. |
| Engine.Engine.EvictOldest | engine.go:379-406 | Gives up unpinned records oldest first until that frees a torrent; true exactly when it did, and none older was passed over. |
| Engine.Engine.Ensure | engine.go:326-373 | Which answer comes exactly when, over the old torrents, records and the client's answer; which torrents are loaded afterwards, the least recently used idle one going from a full client; what becomes of every record. |
| EngineState.EnsureStaysWithinLimit | engine.go:326-373 | So ready means loaded, the client never ends above its limit or where it was, and no torrent being read is lost. |
| Engine.Engine.OpenPlay | engine.go:740-745 | A play counts itself on the record it will hold. |
| Engine.Engine.ClosePlay | engine.go:746-751 | The record a play holds is still the one filed under its infohash, and its count goes down by one, never below zero. |
| Engine.Engine.ReapIdle | engine.go:944-978 | Exactly the loaded torrents nobody reads and nobody touched for longer than the timeout go, with their records and locks. |
| EngineState.StepKeepsInv | engine.go:291-406 | Every step keeps: loaded torrents and add locks have records, and each record's reader count is the number of open plays holding it. |
| EngineState.RunKeepsInv | engine.go:291-406 | The same in every state of every run of touches, adds, evictions, reaps, sweeps, opens and closes. |
| EngineState.RunIsConsistent | engine.go:291-406 | From an empty engine on: what is loaded or locked has a record, a record counts the plays that hold it, and a play's record is the filed one. |
| EngineState.StepKeepsPins | engine.go:387-389 | No step takes a record that is read or being added out of the map, or drops its torrent. |
| EngineState.ReadTorrentStays | engine.go:740-751 | A loaded torrent stays loaded, under the same record, as long as some play holds that record. |
| EngineState.AccessDefersReap | engine.go:315-322 | In no state of a run within the timeout of the last access to a torrent is it among those to reap, whatever happens in between. |
| EngineState.ReapTakesExactlyTheIdle | engine.go:966-975 | A reap unloads exactly the torrents nobody reads and nobody has used for longer than the timeout, with records and locks, and changes nothing else. |
| EngineState.EvictSucceedsIffSomeIdle | engine.go:375-406 | Eviction succeeds exactly when some loaded torrent is neither read nor being added. |
| EngineState.EvictFreesOneOrNone | engine.go:375-406 | Success frees exactly one torrent, failure none. |
| Capacity.CapacityUnderConcurrency | engine.go:361-406 | With at most n calls in flight and the check, the parts of the eviction and the add as separate steps, no interleaving loads more than the limit plus n minus one, as long as no two evictions are about to drop the same torrent and none misses its own. |
| Capacity.CapacityAlone | engine.go:361-406 | One call at a time never exceeds the limit, whatever else touches, pins, drops and forgets. |
| Capacity.CapacityBoundIsReached | engine.go:361-372 | For every limit and every n some run without an eviction reaches that bound. |
| Capacity.EvictionOwesIff | engine.go:379-406 | Finding the victim, or dropping it, adds nothing to the torrents loaded and coming exactly when no other eviction is about to drop the same one, and the drop does not miss it. |
| Capacity.CapacityIsUnbounded | engine.go:379-406 | With two calls at a time, runs in which pairs of evictions drop the same torrent load any number of torrents. |
| AddRace.EvictedBeforeLocking | engine.go:326-406 | A run of one add and one eviction that ends with a loaded torrent and a lock and no record. |
| AddRace.DeletedUnderTheAdd | engine.go:340-372 | A run in which the mark finds the record, nobody else loads or unmarks the torrent, and a reap or sweep that dropped it earlier deletes the record before the add. |
| AddRace.DeletedUnderTheTorrent | engine.go:971-974 | A run in which every fetch and every add finds its record, and that late deletion, with no call in flight, leaves the loaded torrent without one. |
| AddRace.LocksHaveRecordsIff | engine.go:291-300 | Throughout a run every lock has a record exactly when every call still finds its record filed when it goes for its lock. |
| AddRace.LoadedHaveRecordsIff | cache.go:284-301 | Throughout a run every loaded torrent has a record or an eviction that has yet to drop it, exactly when every add that loads finds one of these, no reap or sweep deletes the record of a torrent that is loaded again (unless an eviction is on it), and no eviction's drop leaves its torrent loaded with neither. |
| AddRace.RecordAtAddIffAtMark | engine.go:340-372 | With no other call loading or unmarking the torrent in between, a record filed when the mark is set is filed when the torrent is loaded unless a reap or sweep that had dropped it deletes it late, and, unless filed anew, only then. |
| AddRace.CarefulRunsAreSafe | engine.go:326-406 | If no deletion takes the record of an infohash some call in flight is about, none comes late to a torrent loaded again, and no eviction misses its torrent, then in every state locks have records, loaded torrents have one or an eviction about to drop them, and no two calls add one torrent at once. |
| DropRace.ReadersKeepTheirTorrentIff | engine.go:379-406 | Throughout a run every reader keeps its torrent and record exactly when no drop of an eviction, reap or sweep takes a torrent that is read, no late deletion ends a record that is, and every play still finds both when it counts itself. |
| DropRace.DropFindsReaderIff | engine.go:944-978 | When all readers were served as an eviction, reap or sweep began on a torrent, its drop or late deletion finds a reader exactly when one has counted itself since and still reads, even if the record a reap looks at is no longer the filed one. |
| DropRace.PlayOpenedDuringDrop | engine.go:944-978 | A run in which a play opened during a reap or a sweep reads on without its torrent. |
| DropRace.PlayOpenedDuringEviction | engine.go:396-403 | A run without any reap or sweep in which a play finds torrent and record when it counts itself and then loses the torrent to an eviction under way. |
| DropRace.PlayOpenedBeforeLateDelete | cache.go:284-301 | A run in which a sweep drops a torrent nobody reads, it is added again, a play counts itself, and the sweep then deletes its record. |
| SizedReader.SizedReader.Read | engine.go:1081-1098 | Hands out the next bytes of the window, fewer than asked for if the inner reader does so, and moves by as many; position and inner position agree. |
| SizedReader.SizedReader.Seek | engine.go:1100-1125 | Moves to the clamped target, or reports a bad whence, a negative target or the inner reader's failure and stays; the inner reader is asked exactly when the target differs from the position. |
| SizedReader.SeekClampsIffNoOverflow | engine.go:1100-1117 | Seeking is a clamped cursor exactly when the target fits in 64 bits. |
| SizedReader.YieldMeans | engine.go:1081-1098 | A read yields all that is asked for, or all it is given, or all there is. |
| SizedReader.FarSeekIsRefused | engine.go:1105-1114 | A concrete far seek that is refused as negative. |
| SizedReader.EndProbeIsLocalIffAtEnd | engine.go:1071-1125 | A seek to the end leaves the inner reader alone exactly when the position is the end. |
| SizedReader.ProbeFreshReader | engine.go:1100-1125 | A probe from byte 0 that moves the inner reader to the end. |
| SizedReader.PositionStaysInside | engine.go:1081-1125 | After any sequence of calls the position is between zero and the size. |
| SizedReader.ReadsConcatenate | engine.go:1081-1098 | Consecutive reads, however short, concatenate to the content from where they began. |
| SizedReader.ReadsFollowSeek | engine.go:1081-1125 | Reads after a seek to k concatenate to the content from k on. |
| SizedReader.ReadingToTheEnd | engine.go:1081-1098 | Reading until the end hands out exactly the rest of the window. |
| SizedReader.ChunkingIsInvisible | engine.go:1081-1098 | Two readers that have read equally far have handed out the same bytes, whatever the chunks. |
| Fanout.Launch | indexers.go:68-114 | One job per enabled source and query it may run, the per-source counts, and the channel's capacity; no query and no source are errors. |
| Fanout.QueriesFor | indexers.go:232-248 | One query for a source that answers an id, up to three for the other small ones, all for the rest, always the first ones. |
| Fanout.OneSourceRuns | indexers.go:80-114 | A source launches one job for each of the first queries of its share, in order, if it is enabled, and none otherwise. |
| Fanout.JobsBySource | indexers.go:96-114 | The jobs of two lists of sources are those of the one and then those of the other. |
| Fanout.JobsAreCounted | indexers.go:97-101 | The count kept for a source is the number of jobs launched under its name. |
| Fanout.CapacityCoversJobs | indexers.go:96-114 | The channel has room for every job launched. |
| Fanout.AnswersAreConserved | indexers.go:99-114 | At any time the searches running, the answers waiting and those taken add up to the jobs. |
| Fanout.NoSenderBlocks | indexers.go:117-127 | Every search still running can deliver, however little has been drained, and the drain can take whatever waits. |
| SearchMerge.MergeAnswers | indexers.go:129-164 | The drain loop with its index map computes the merge of the answers that did not fail, and the errors of those that did. |
| SearchMerge.OneArrival | indexers.go:129-145 | An answer counts with all its results or, when it failed, with its error. |
| SearchMerge.DeliveredConcat | indexers.go:129-164 | Results are merged in the order in which the answers arrive. |
| SearchMerge.ErrorsConcat | indexers.go:129-145 | Errors are listed in the order in which the answers arrive. |
| SearchMerge.MergeKeepsTheBest | indexers.go:140-158 | One record per hash: the first to report the most seeders; results without a hash are dropped. |
| SearchMerge.BestIsFirstMaximum | indexers.go:145-155 | What first and most mean, over the arrival sequence. |
| SearchMerge.ArrivalOrderKeepsSeeders | indexers.go:145-158 | Any two arrival orders keep the same hashes with the same seeders. |
| SearchMerge.RecordIndependentIffUntied | indexers.go:145-158 | The record kept for a hash is the same for all arrival orders exactly when no two different results tie for the most seeders. |
| Ranking.SortResults | indexers.go:562-568 | The swapping insertion sort leaves a permutation in descending order with equal scores in their old order. |
| Ranking.RankingUnique | indexers.go:562-568 | There is only one such ranking. |
| Ranking.Present | indexers.go:174-196 | Scoring in place, the episode filter, the sort, the removal of dead releases and the cut, over the merged list. |
| Ranking.DropDead | indexers.go:198-211 | The releases with seeders, or all of them when there are none. |
| Ranking.AnswerIsTheTop | indexers.go:180-211 | The answer is sorted, at most forty long, and made of eligible candidates; one left out leaves forty in that score at least as well. |
| Ranking.AnswerMeans | indexers.go:174-211 | In terms of the merged releases: what is shown carries its own score, states no other episode, and has seeders unless nothing has; best first, at most forty, and what is left out is matched by forty. |
| Ranking.ArrivalOrderKeepsTheAnswer | indexers.go:129-196 | Without ties in seeders for any hash or in scores, the whole list shown is the same for every arrival order. |
| Relevance.FilterRelevant | relevance.go:189-287 | Keeps exactly the relevant results, in order; kept and dropped add up to what came in. |
| Relevance.Judge | relevance.go:200-284 | The chain of rejections for one name decides relevance: matching title, no episode and an agreeing year for a film, the season gates for an episode. |
| Relevance.CheckYear | relevance.go:159-179 | The loop over the years of a name accepts an unknown year, a name without years, and any year within the slack. |
| Relevance.MatchesAny | relevance.go:205-215 | Some title or alias matches the name. |
| Relevance.OwnWords | relevance.go:377-383 | The words of all titles, as they are and in plain romanisation. |
| Relevance.ExtraTitleWords | relevance.go:373-392 | Counts the distinct words of a name that are neither the show's own in either spelling, nor furniture, nor numbered. |
| Relevance.ExtraTitleWordsBeforeMarker | relevance.go:412-423 | The same count for the part of the name before its first marker, zero when it has none. |
| Relevance.FirstMarkerIsFirst | relevance.go:413-418 | The cut is at the earliest match of any marker. |
| Relevance.TagsKeepTheMatch | relevance.go:118-150 | A release name keeps every title match when something is appended that opens with a character that is no letter or digit, in either spelling. |
| Relevance.TokensConcat | relevance.go:104-112 | A tail that is set off adds its words behind the words of the name and changes none of them. |
| Relevance.RangeGate | relevance.go:300-313 | A range passes the season gate exactly when it holds the season or starts at zero. |
| Relevance.RangeFromZeroPasses | relevance.go:300-313 | "S00-S03" passes the season gate for season five. |
| Relevance.FirstSeasonIsFirst | relevance.go:314-319 | The season a name states is what the first pattern with a positive capture captures, and none exactly when there is no such pattern. |
| RelevanceGates.SeasonGateMeans | relevance.go:300-343 | Which names pass for a season and which are tied to it, read off the captures: a range holding it or starting at zero; else a first positive capture that is it, or none. |
| RelevanceGates.FourthSeasonIsDropped | relevance.go:237-242 | A fourth-season episode is not kept for season one. |
| RelevanceGates.TitleMatchesIff | relevance.go:118-150 | A title matches exactly when, in either spelling, it stands in the normalised name or all its telling words do and the first telling words agree. |
| RelevanceGates.AnotherWorkIsRefused | relevance.go:114-117 | "Pacific Rim Uprising" does not stand in for "The Uprising". |
| RelevanceGates.WordsSpellTheName | relevance.go:104-112 | The words of a name are runs of letters and digits and together spell the normalised name. |
| RelevanceGates.YearGateMeans | relevance.go:159-179 | The year agrees when none is asked for, none is stated, or some stated year is within the slack. |
| RelevanceGates.ForeignWordsAreCounted | relevance.go:373-392 | What is counted are the distinct words of a name that no title carries in either spelling and that are neither furniture nor numbered. |
| RelevanceGates.ForeignBeforeMarker | relevance.go:412-423 | Ahead of the first marker only that part of the name is counted, and nothing without one. |
| RelevanceGates.KeptForFilmIff | relevance.go:193-227 | Exactly which names are kept for a film. |
| RelevanceGates.KeptForSeasonIff | relevance.go:193-284 | Exactly which names are kept for a season of a series. |
| RelevanceGates.KeptWithoutSeasonIff | relevance.go:200-228 | Exactly which names are kept for a series without a season. |
| Relevance.IdentifiedMeans | relevance.go:328-343 | Past the season gate, identified means an episode marker, a range holding the season, or that very season. |
| Relevance.AliasesOnlyAdmit | relevance.go:189-287 | An extra alias never loses a release that was kept, through title match, year slack and both word counts. |
| Relevance.AliasesOnlyInsert | relevance.go:189-287 | With more aliases the old answer is what remains of the new one under the old gate, in the same order. |
| Relevance.AliasOrderIsIrrelevant | relevance.go:193-197 | Order and repetition of aliases do not matter. |
| Dedupe.DedupeStrings | relevance.go:484-496 | The in-place compaction leaves the deduplicated list in front and the rest of the caller's array untouched. |
| Dedupe.DedupedKeepsFirsts | relevance.go:482-496 | The result is the first of every kind in order, with no blanks and no two strings that differ only in case. |
| Dedupe.FrontStays | relevance.go:482-483 | Adding queries behind leaves the first ones as they were. |
| Dedupe.DedupeTwice | relevance.go:484-496 | Doing it twice changes nothing more. |
| WholeWord.ContainsWord | indexers.go:1097-1118 | True exactly when the needle stands somewhere without a letter or digit beside it, overlapping occurrences included. |
| WholeWord.StandsIffBetween | indexers.go:1093-1118 | Standing somewhere as a whole word is being the text between something empty or ending in, and something empty or beginning with, no letter or digit. |
| Sniffer.Sniff | portmux.go:119-159 | Reads byte by byte to the verdict of the stream, consuming at most twenty bytes, and for web traffic exactly a method token. |
| Sniffer.VerdictIff | portmux.go:107-159 | Web exactly when the stream starts with a listed token, rejected exactly when it ends while undecided, torrent otherwise. |
| Sniffer.VerdictMeans | portmux.go:107-159 | In bytes: web when a stream opens with one of the ten tokens; rejected when it is empty, a handshake cut short of twenty bytes, or only the start of a token; torrent otherwise. |
| Sniffer.MethodsAreFree | portmux.go:107-110 | No listed token is the start of another. |
| Sniffer.PrefixConn.Read | portmux.go:198-205 | Hands out the bytes read by the sniffer first and then the connection's own, losing and repeating none. |
| Sniffer.SniffThenReadAll | portmux.go:87-102 | The side that gets the connection reads exactly what the client sent, in any chunks. |
| MuxState.NextKeepsInv | portmux.go:57-102 | Every step keeps each accepted connection in exactly one place and each queue in order, within 64 and for its own side. |
| MuxState.RunKeepsInv | portmux.go:57-102 | The same in every reachable state. |
| MuxState.SidesAreFifo | portmux.go:173-189 | What a side has taken and what is queued for it are, in order and without repeats, what it was given, all of it classified for that side. |
| MuxState.TakenAreHandedOut | portmux.go:182-189 | What a side is recorded to have taken is what it was handed, each time the head of its queue, so nothing is handed out twice. |
| MuxState.EachStepMovesOne | portmux.go:57-102 | Each step moves one connection: into the sniffer, to its side's waiting or out, to the end of the queue or out, from the head of the queue to the side. |
| MuxState.RunOnlyGrows | portmux.go:173-196 | What was handed out or closed stays so, a closed side stays closed, and after the socket closes nothing is accepted. |
| MuxState.ClosingOneSideEndsBoth | portmux.go:62-66 | After either side is closed no connection is accepted, the next round of the accept loop closes both sides and is the last. |
| MuxState.NobodyWaitsAfterTheEnd | portmux.go:97-101 | Once the loop has ended every connection still waiting to be handed over can be dropped. |
| MuxState.NothingIsClosedWithoutCause | portmux.go:87-102 | In every reachable state a closed connection was rejected by the sniffer, or its side is closed. |
| MuxState.OpenUntilSomebodyCloses | portmux.go:57-84 | The socket is open until it or a side is closed, a side until it is closed or the accept loop ends, and the loop ends only then. |
| MuxState.WaitsOnlyForRoom | portmux.go:97-101 | A connection waits only while the queue of an open side is full. |
| MuxState.StrandsIffHeading | portmux.go:97-101 | With the socket closed, a side that takes nothing more can be left with a queued connection exactly when one is queued, waiting, or being sniffed and meant for it. |
| MuxState.ClosedSideCanKeepAConnection | portmux.go:97-101 | A run that ends with a connection in the queue of a closed side. |
| MuxState.PauseDoubles | portmux.go:67-79 | The pause is 5 ms after a first failed accept, doubles with each further one up to 1280 ms, and starts over after a success. |
| PortMux.ChanListener.Offer | portmux.go:97-101 | Into the queue when there is room, or not at all once closed; either when both are possible. |
| PortMux.ChanListener.Accept | portmux.go:182-189 | The head of the queue, or closed; either when both are possible. |
| PortMux.ChanListener.Close | portmux.go:193-196 | Marks the side closed once and closes the shared socket. |
| PortMux.Mux.Serve | portmux.go:57-82 | One round of the accept loop is one step of the state machine. |
| PortMux.Mux.Classify | portmux.go:87-92 | The verdict on a connection is one step: closed, or waiting for the side of its verdict. |
| PortMux.Mux.CloseOn | portmux.go:193-196 | Closing a side is one step. |
| PortMux.Mux.HandOver | portmux.go:87-102 | The end of a dispatch is one step: queued on its side, or closed. |
| PortMux.Mux.AcceptOn | portmux.go:182-189 | A side is handed the oldest connection queued for it, and that one was classified for it. |
| FileChoice.ChooseFile | engine.go:618-649 | The wanted index if valid, else the first largest playable video, else the first largest file. |
| FileChoice.DefaultMeans | engine.go:618-649 | A file asked for is taken; otherwise the choice fails only for a torrent without files, and is the first of the largest among the videos that are no samples, or among all files when there are none. |
| FileChoice.ChooseFileForEpisode | engine.go:554-588 | The first video that states the episode; refused exactly when none does and some video states another or there are more than three. |
| FileChoice.ChooseFileForTitle | engine.go:1169-1226 | The loops over word sets compute the title choice. |
| FileChoice.DiscriminatingWords | engine.go:1190-1206 | The hint words, repeats included, that some video lacks. |
| FileChoice.BestByHits | engine.go:1207-1221 | The running best is the first of the largest among those with the most hits. |
| FileChoice.ForTitleMeans | engine.go:1163-1226 | A video with the most discriminating words, then the largest, then the first; the default when none has any. |
| FileChoice.ChoiceForTitleMeans | engine.go:1163-1226 | The file asked for; else the video carrying the most hint words some other video lacks, then the largest, then the first; else the default. |
| FileChoice.VideosCount | engine.go:560-575 | What is compared with three is the number of videos. |
| FileChoice.CommonWordsCancel | engine.go:1166-1168 | Hint words every video carries change nothing, wherever they stand, fallback included. |
| FileChoice.HintOrderIsIrrelevant | engine.go:1173-1221 | The order of the hint words does not matter. |
| FileChoice.RepeatedWordsCount | engine.go:1190-1221 | A concrete choice that a repeated hint word turns. |
| FileChoice.RepeatKeepsChoiceIff | engine.go:1190-1225 | Repeating a hint word keeps the choice exactly when every video carries it, no video had a hit, the chosen one carries it, or no carrier gets past the chosen one with one more hit. |
| Episodes.EpisodeList | addon.go:472-485 | The catalogue's videos with positive numbers, sorted, none lost and none added. |
| Episodes.SortedUnique | addon.go:480-485 | There is only one sorted order of a list, so ties in the sort do not matter. |
| Episodes.RemapEpisode | addon.go:125-147 | The counting loop computes the renumbering. |
| Episodes.RemapMeans | addon.go:125-147 | Only a number of the first season that is larger than that season and not larger than the list is read as a place in the list; everything else is left alone. |
| Episodes.FirstSeasonIsPrefix | addon.go:130-141 | In a sorted list the first season is the front of the list. |
| Episodes.RemapIsIdempotent | addon.go:125-147 | Renumbering twice is renumbering once. |
| Episodes.RemapKeepsOrder | addon.go:125-147 | Continuous numbers up to the length of the list map to episodes in strictly increasing order. |
| Episodes.LaterSeasonsAreReached | addon.go:143-145 | Every episode of a later season is reached by exactly one number, its place in the list. |
| Episodes.RemapReadsTheList | addon.go:137-146 | The numbers read the list in order exactly when the first season is numbered without a gap. |
| Episodes.ListedEpisodeStays | addon.go:137-146 | A listed episode of the first season keeps its number exactly when that is at most the season's count or beyond the whole list. |
| Episodes.GapMovesAListedEpisode | addon.go:137-146 | A listed episode that is sent to another season. |
| Episodes.EpisodeCache.StoreEpisodeList | addon.go:405-416 | At most 4096 lists are kept; the one that would be too many empties the cache first. |
| Episodes.EpisodeCache.FixEpisodeNumber | addon.go:112-121 | Unknown titles and non-positive numbers are left alone; with a sorted list the answer is stable under asking again. |
| FailWindow.Window.IsBlocked | admin.go:26-45 | The pruning loop's answer is the one given by all failures since the last reset and wholesale drop; it never blocks against the full history. |
| FailWindow.Window.Fail | admin.go:47-63 | The sweep of the map and the new failure are one step of the window. |
| FailWindow.Window.DropStale | admin.go:52-57 | The loop deletes exactly the addresses whose last failure is before the cut. |
| FailWindow.Window.Reset | admin.go:65-69 | Forgets one address, in the map and in its history. |
| FailWindow.NextKeepsInv | admin.go:26-69 | Every step keeps each entry equal, on what the window still covers, to the failures since the last reset and wholesale drop, those being the end of the full history, and the map within 10,001 addresses. |
| FailWindow.BlockedAsTheFullHistory | admin.go:26-69 | After any operations under a clock that does not go back, an address is blocked only with ten failures in the last ten minutes of its full history, and exactly then as long as the map was never dropped wholesale. |
| FailWindow.HistoryIsTheLog | admin.go:26-69 | The history of an address is the times of its failures in the log behind its last reset, and what is kept of it those behind the last wholesale drop as well. |
| FailWindow.BlockedByTenIn600Seconds | admin.go:26-45 | Without a wholesale drop an address is blocked exactly by ten failures of the log behind its last reset and less than 600 seconds ago. |
| FailWindow.ResetLetsIn | admin.go:65-69 | After a reset its address is not blocked at any time, and no other answer changes. |
| FailWindow.LookingChangesNothing | admin.go:26-45 | Asking about an address changes no later answer, and leaves nothing in the map that has left the window. |
| FailWindow.OverrunIff | admin.go:50-61 | The map is dropped exactly when more than ten thousand addresses have failed within the window. |
| FailWindow.OverrunUnblocks | admin.go:58-62 | After a wholesale drop nobody is blocked. |
| FailWindow.FailureKeepsAnswersIff | admin.go:47-63 | From a map that agrees with the full history, the answers after one more failure agree for all addresses exactly when that failure finds no overrun or the full history blocks nobody. |
| FailWindow.RunIsFaithful | admin.go:26-69 | Every run without a wholesale drop leaves the map in agreement with the full history. |
| FailWindow.OverrunHappens | admin.go:50-61 | A run of 10,001 addresses that reaches an overrun with one address blocked, which the next failure lets in. |
| SecondFactor.VerifyTOTPStep | security.go:52-71 | The first matching step within one step of the clock. |
| SecondFactor.VerifiedIff | security.go:52-71 | A step is reported exactly for the earliest code of six characters within one step of the clock, and it is that code's step. |
| SecondFactor.Server.CheckSecondFactor | security.go:152-192 | Accepts a step later than the stored one and stores it, or a stored recovery hash and removes it; a setting that cannot be read shows its default; refuses when the write fails. |
| SecondFactor.PassesByStepIff | security.go:152-174 | A sign-in passes by a step exactly with a code for it, later than the stored step, that can be stored. |
| SecondFactor.PassesByRecoveryIff | security.go:175-191 | A sign-in passes by a recovery code exactly when it is no code of a step, is long enough, its own hash is the first such in the list, and the list without it can be stored. |
| SecondFactor.Server.BeginSetup | security.go:298-303 | A pending secret is stored unless two-factor is already on. |
| SecondFactor.Server.EnableTwoFactor | security.go:332-348 | The settings after enabling, with each write failing or not on its own. |
| SecondFactor.Server.DisableTwoFactor | security.go:373-383 | The settings after disabling, which needs an accepted factor. |
| SecondFactor.StepsIncrease | security.go:161-174 | Between enabling and disabling, accepted steps strictly increase from above the stored one, whichever writes fail, as long as the stored step can be read when a code is accepted (section 5.2 of RFC 6238). |
| SecondFactor.UsedCodeReplaysIff | security.go:161-173 | The code accepted last is accepted again exactly when the secret can be read and the stored step cannot. |
| SecondFactor.RecoveryIsConserved | security.go:180-191 | Stored and spent recovery hashes together are those issued, whichever reads and writes fail, so there are never more acceptances than codes. |
| SecondFactor.RecoveryCodesPassOnce | security.go:175-191 | Over any run a recovery code is accepted at most as often as its own hash was issued. |
| SecondFactor.EnrolmentCodeIsSpentIff | security.go:337-344 | The enrolment code is good for a sign-in exactly when its step was not stored and no old step was as late, or, the secret not being stored, when it is a later code of the old one. |
| SecondFactor.AcceptedAfterEnrolment | security.go:337-344 | When the step was stored, or an old one was as late, every later accepted step is later than the enrolment's, and they increase. |
| SecondFactor.UnstoredEnrolmentReplays | security.go:342-346 | When the secret was stored, the step was not, and there was no old one, the enrolment's own code is accepted once more. |
| SecondFactor.BeginReplacesIff | security.go:298-303 | Setting up replaces the pending secret exactly while two-factor is off as far as can be read. |
| SecondFactor.EnrolmentTakesEffect | security.go:332-348 | With its writes done an enrolment is in force: later codes of the new secret pass, and of the recovery codes exactly those issued. |
| SecondFactor.FailedWritesKeepTheOld | security.go:332-348 | Each write of an enrolment that fails leaves the old value, and an unreadable pending secret enrols nobody. |
| SecondFactor.DisablingTakesEffect | security.go:373-383 | With its writes done a disable leaves nothing that accepts any code. |
| SecondFactor.FailedWritesKeepTheRest | security.go:373-383 | Each write of a disable that fails leaves its value as the spent code left it. |
| SecondFactor.DisablingCodeIsSpentIff | security.go:379-383 | A code used to disable is spent exactly when the secret went or the stored step stayed. |

## Left out

- Byte totals are unbounded integers: 64-bit wrap-around of sums of file sizes is not modelled.
- Engine.Engine.SweepCache: `Loaded` counts the torrents found before the sweep, as in the source, which does not adjust it; reader counts are read before planning and not looked at again before the drop, so that a play opened during a sweep can lose its torrent, which `DropRace` models.
- Sweep.SweepIsStep: takes reading the counts, planning, dropping and deleting as one step; `DropRace` and `AddRace` take the look, the drop and the deletion of one torrent apart.
- Engine.Engine.ReapIdle: takes the decision and the removal as one step; the source unlocks in between, as in `DropRace` and `AddRace`.
- Engine.Engine.EvictOldest: deletes the record and drops the torrent in one step; the source unlocks in between, as in `AddRace`, `DropRace` and `Capacity`.
- Engine.Engine.OpenPlay: takes fetching the record and counting the reader as one step; the source unlocks in between, as in `DropRace`.
- Engine.Engine.BeginAdd: takes touch, look-up, lock and mark as one step; in the source an eviction in between can delete the record, after which the lock and the torrent exist without one, as `AddRace` shows.
- Engine.Engine.Ensure: a caller that in the source waits for another add of the same torrent and then goes on ends as `Blocked`; `AddRace` has the wait.
- EngineState.StepKeepsInv: holds for steps merged as in `Engine`; `AddRace` and `DropRace` say when it holds for the single lock sections.
- EngineState.RunKeepsInv: holds for runs of those merged steps.
- EngineState.RunIsConsistent: holds for runs of those merged steps.
- EngineState.ReapTakesExactlyTheIdle: holds for a reap that decides and drops in one step.
- EngineState.StepKeepsPins: holds for drops decided and done in one step.
- EngineState.ReadTorrentStays: holds for plays opened and drops done in one step each.
- EngineState.AccessDefersReap: a reap decides and drops in one step, so that an access between its decision and its drop is not covered.
- Which record an eviction picks is by last use in `Engine` and `Capacity`, and any that is not pinned in `AddRace` and `DropRace`; idle times are left out of the latter two, so that they have runs beyond those of the source.
- Transfer rates, labels, sizes, warnings and the log, which no decision depends on.
- The walk over the data directory, the free-space probe and the migration of old directories: their results are inputs.
- The torrent client, reduced to the set of infohashes it holds; whether a drop through an old handle takes a torrent is left open where drops are steps of their own; readahead, peers and metadata are not part of this model.
- Access callbacks of the sized reader, which only touch the record.
- Regular expressions other than the one between words, lower-casing of a character, romanisation tables, release scoring and size parsing: function parameters. Scores are real numbers, so a score that is not a number is not modelled.
- Sniffer.Sniff: the deadline is the end of the stream; what arrives later is not modelled.
- PortMux.Mux.Serve: closed sockets and transient failures are the only accept errors.
- The report of slow sources, and the per-source result cache.
- Episodes.EpisodeCache.StoreEpisodeList: calls one after the other; concurrent stores of the same new title can let the source's counter run ahead of the map.
- Passwords, sessions, cookies, key expiry and the other handlers of the console.
- Indexer, catalogue and tracker clients, the tracker-hint cache and its counter, DNS and address guarding, WireGuard.
