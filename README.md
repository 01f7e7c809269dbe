# Productivity assistant core: memory store and activity analysis

This project models the non-UI core of a productivity assistant for a live
multimodal API console. The core has three parts.

- **`EnhancedMemoryManager`** (`src/lib/memory-manager.ts`) handles conversation fragments.
  - It turns each fragment into a *memory*: up to five key concepts, an activity type inferred greedily from those concepts, an emotional valence in (-1, 1), and the productivity weight of the type.
  - It keeps a seven-entry FIFO *working memory* per key.
  - It answers context queries with the top-`limit` memories by a relevance score: 0.4·strength + 0.3·recency + 0.3·importance.
- **The productivity pattern analyzer** (`src/lib/activity-patterns.ts`) looks back over one hour of activity records.
  - It folds four metrics over the window: productive time, unproductive time, focused sessions and distractions.
  - It decides whether to intervene.
  - It picks a recommendation and formats the current record's duration.
- **The activity store** (`src/hooks/use-activity-monitor.ts`) holds the list of activity records.
  - A tracking tick backfills the previous record's duration and appends a record for the current page.
  - `addActivity` and the hourly cleanup keep at most 1000 records.
  - A URL classifier assigns each record one of five categories by first match.

How the modules map onto the source:

| module (file) | what it holds | source |
|---|---|---|
| ActivityTypes (activity_types.dfy) | the shared records and the weight table | `src/types/*` |
| WorkingMemory (working_memory.dfy) | the `FixedSizeQueue` class and its value-level specification | `src/lib/memory-manager.ts` |
| MemoryHeuristics (memory_heuristics.dfy) | concept extraction, type inference, valence | `src/lib/memory-manager.ts` |
| Memories (memories.dfy) | the memory record, the score, the stable sort and the top-k slice | `src/lib/memory-manager.ts` |
| MemoryManager (memory_manager.dfy) | the manager class, batch ingestion, retrieval | `src/lib/memory-manager.ts` |
| ActivityPatterns (activity_patterns.dfy) | the analyzer, as functions | `src/lib/activity-patterns.ts` |
| ActivityMonitor (activity_monitor.dfy) | the classifier, the list updaters and the `ActivityStore` class | `src/hooks/use-activity-monitor.ts` |
| Text, Wrappers (text.dfy, wrappers.dfy) | lower-casing, substring search, `\W+` word splitting, decimal rendering and its inverse; `Option`/`Result` | — |

Stateful parts are classes:

- the queue, with a `seq` field;
- the manager, with maps from keys to queues and to strength maps;
- the activity store, with the record list and the tracking flags.

Their methods state their whole new state. Database reads and writes are oracle parameters: a per-fragment `inserted` flag, a `Fetch` outcome, an `upsertFailed` flag, and an `Option` for the remote activity rows. The clock and the local hour are parameters as well.

Where the code and its design description disagree, the model follows the code:

- **Type inference ties.** They go to the earliest type in table order (development, learning, communication, entertainment, work). `work` wins a tie only when nothing matches; it also wins outright with the strictly largest count.
- **Tick cap.** A tracking tick appends without a cap. The list can exceed 1000 records until the next cleanup or `addActivity`.
- **Working-memory key.** `initializeUser` creates the queue under the *user* id. `addMemory`, `getLocalMemories` and `getRelevantContext` look it up by *session* id. The stored memories reach a queue only when the two ids coincide.
- **Fetched rows.** `getRelevantContext` does not filter the fetched rows by session.
- **Distraction threshold.** The 5-minute constant is declared but nothing reads it. Distractions are the entertainment records of the window, whatever their length.

## Model

| member | source | states |
|---|---|---|
| `ActivityTypes.WeightTenths` | src/lib/activity-patterns.ts:12-18 | every weight lies in 0.2..1.0; the weight is at most 0.2 exactly for entertainment and at least 0.8 exactly for work, development and learning |
| `WorkingMemory.FixedSizeQueue.constructor` | src/lib/memory-manager.ts:30-32 | a new queue is empty and remembers its maximum size |
| `WorkingMemory.FixedSizeQueue.Push` | src/lib/memory-manager.ts:34-39 | the new contents are one push of the item onto the old contents, and the length stays within capacity |
| `WorkingMemory.FixedSizeQueue.ToArray` | src/lib/memory-manager.ts:41-43 | returns the contents, oldest first, and changes nothing |
| `WorkingMemory.PushOneSpec` | src/lib/memory-manager.ts:34-39 | after a push the item is last and the length is within capacity; below capacity nothing is removed; at capacity exactly the oldest entry is removed |
| `WorkingMemory.PushOneIsLastN` | src/lib/memory-manager.ts:34-39 | one push keeps exactly the last `capacity` entries of old contents plus the item |
| `WorkingMemory.PushAllIsLastN` | src/lib/memory-manager.ts:34-39 | any sequence of pushes keeps exactly the last `capacity` entries of old contents followed by the pushed items, in order |
| `WorkingMemory.PushAllFromEmpty` | src/lib/memory-manager.ts:30-39 | from an empty queue, n pushes leave the last min(n, maxSize) items |
| `WorkingMemory.LastNAppend` | src/lib/memory-manager.ts:34-39 | trimming to the last n, appending, and trimming again equals appending and trimming once |
| `Text.LowerChar` | src/lib/memory-manager.ts:188 | the result is never an upper-case letter, other characters are unchanged, and being a word character is preserved |
| `Text.ToLower` | src/lib/memory-manager.ts:188 | lower-casing keeps the length and lower-cases each character in place |
| `Text.ToLowerIdempotent` | src/hooks/use-activity-monitor.ts:182 | lower-casing twice is lower-casing once |
| `Text.MissingCharNotContained` | src/hooks/use-activity-monitor.ts:185-217 | a string holding a character absent from `s` is not a substring of `s` |
| `Text.LeadingWord` | src/lib/memory-manager.ts:197 | the longest prefix of word characters: a prefix, all word characters, followed by a non-word character or the end |
| `Text.Words` | src/lib/memory-manager.ts:197 | the split yields non-empty tokens made only of word characters of the text |
| `Text.WordsAt` | src/lib/memory-manager.ts:197 | the tokens are exactly the maximal runs of word characters of the text, left to right: one token for each position where a run begins, in increasing order of position, with no run skipped |
| `Text.NatToStringRoundTrip` | src/lib/activity-patterns.ts:102-104 | the decimal rendering of n is a non-empty string of digits that reads back as n |
| `Text.DigitChar` | src/lib/activity-patterns.ts:102-104 | a digit below ten renders as the matching decimal character |
| `MemoryHeuristics.FirstIndex` | src/lib/memory-manager.ts:199 | the position of the first occurrence of an element |
| `MemoryHeuristics.Dedup` | src/lib/memory-manager.ts:199 | `[...new Set(xs)]` holds exactly the elements of `xs` and is no longer |
| `MemoryHeuristics.DedupOrdered` | src/lib/memory-manager.ts:199 | the deduplicated list is repetition-free and ordered by first occurrence |
| `MemoryHeuristics.StopWordsAreShort` | src/lib/memory-manager.ts:198-200 | no word longer than three characters is a stop word, so the stop-word test never removes anything the length test keeps |
| `MemoryHeuristics.FilterQualifying` | src/lib/memory-manager.ts:199-201 | keeps every word and only the words longer than three characters that are not stop words |
| `MemoryHeuristics.FilterQualifyingAppend` | src/lib/memory-manager.ts:199-201 | filtering distributes over concatenation, so the kept words stay in text order with their repeats |
| `MemoryHeuristics.CandidatesAreLowerWords` | src/lib/memory-manager.ts:197-201 | every candidate word is made of lower-case word characters |
| `MemoryHeuristics.TakeDistinctSpec` | src/lib/memory-manager.ts:199-201 | at most n distinct elements in first-occurrence order; no earlier-occurring element is skipped; fewer than n only when all are taken |
| `MemoryHeuristics.ExtractKeyConceptsSpec` | src/lib/memory-manager.ts:195-202 | at most five distinct concepts; each is a lower-case word of the text longer than three characters and not a stop word; they are the first such words in text order, with none skipped |
| `MemoryHeuristics.Position` | src/lib/memory-manager.ts:280-286 | each type's index in the declaration order of the pattern table |
| `MemoryHeuristics.MatchCount` | src/lib/memory-manager.ts:292-294 | the number of concepts containing some pattern is at most the number of concepts |
| `MemoryHeuristics.Counts` | src/lib/memory-manager.ts:280-294 | one match count per type, in table order |
| `MemoryHeuristics.MaxOf` | src/lib/memory-manager.ts:288-300 | the running maximum bounds every count and is one of them, or 0 |
| `MemoryHeuristics.BestIsMax` | src/lib/memory-manager.ts:288-302 | the scan picks a maximal count, the earliest among equals, and `work` when all counts are 0 |
| `MemoryHeuristics.InferredTypeIsBest` | src/lib/memory-manager.ts:279-303 | the inferred type has a maximal match count; no match gives `work`; every earlier type matches strictly fewer concepts |
| `MemoryHeuristics.MaxOfSnoc` | src/lib/memory-manager.ts:296-299 | one more count raises the maximum only when it is strictly larger |
| `MemoryHeuristics.BestSnoc` | src/lib/memory-manager.ts:296-299 | one loop step switches to the current type only on a strictly larger count |
| `MemoryHeuristics.InferActivityType` | src/lib/memory-manager.ts:279-303 | the loop's result is the reference inferred type |
| `MemoryHeuristics.Hits` | src/lib/memory-manager.ts:189-190 | the number of keywords occurring in the text, 0 exactly when none occurs |
| `MemoryHeuristics.AnalyzeEmotionalContent` | src/lib/memory-manager.ts:183-193 | the valence lies strictly in (-1, 1); it is 0 iff the positive and negative hits are equal, and positive iff there are more positive hits |
| `MemoryHeuristics.Valence` | src/lib/memory-manager.ts:192 | (p - n) / (p + n + 1) lies in (-1, 1) and has the sign of p - n |
| `MemoryHeuristics.ValenceRange` | src/lib/memory-manager.ts:185-192 | with at most five keywords per list the valence is within 5/6 in size |
| `MemoryHeuristics.ValenceBounds` | src/lib/memory-manager.ts:183-193 | no keyword gives valence 0, and the valence is always within 5/6 in size |
| `Memories.MemoryScoreMonotone` | src/lib/memory-manager.ts:176 | the score does not decrease when strength, recency or importance grows |
| `Memories.MemoryScoreRange` | src/lib/memory-manager.ts:172-176 | a positive recency and non-negative terms give a positive score, at most 1 when strength and importance are at most 1 |
| `Memories.InsertPermutes` | src/lib/memory-manager.ts:343 | an insertion step adds exactly the inserted entry |
| `Memories.InsertSorted` | src/lib/memory-manager.ts:343 | an insertion step keeps a descending list descending |
| `Memories.ConsSorted` | src/lib/memory-manager.ts:343 | a head scoring at least as high as every entry of a descending tail gives a descending sequence |
| `Memories.SortByScorePermutes` | src/lib/memory-manager.ts:343 | sorting by score is a permutation |
| `Memories.SortByScoreSorted` | src/lib/memory-manager.ts:343 | sorting yields non-increasing scores |
| `Memories.RankedPrefix` | src/lib/memory-manager.ts:343-344 | the result is the prefix of the sorted candidates of length min(limit, candidates) |
| `Memories.RankedLength` | src/lib/memory-manager.ts:344 | exactly min(limit, candidates) entries come back |
| `Memories.RankedOrdered` | src/lib/memory-manager.ts:343-344 | entries come back highest score first |
| `Memories.RankedFromCandidates` | src/lib/memory-manager.ts:336-344 | only candidates come back, each at most as often as it occurs |
| `Memories.RankedIsTop` | src/lib/memory-manager.ts:343-344 | no candidate left out scores higher than a returned entry |
| `Memories.RankedIsTopAll` | src/lib/memory-manager.ts:343-344 | the top-k property for every left-out candidate and every returned entry |
| `MemoryManager.ProductivityScore` | src/lib/memory-manager.ts:179-181 | the weight lies in 0.2..1.0; at most 0.2 exactly for entertainment, at least 0.8 exactly for work, development and learning |
| `MemoryManager.IngestShared` | src/lib/memory-manager.ts:223-262 | a built memory carries the batch timestamp, the importance, its content and the type inferred from its own concepts; its score is that type's weight, its valence lies in (-1, 1), and it has at most five concepts |
| `MemoryManager.ProcessFragment` | src/lib/memory-manager.ts:223-226 | the loop body builds exactly the memory the reference processing gives |
| `MemoryManager.ProcessedSnoc` | src/lib/memory-manager.ts:221-264 | one more fragment adds its memory exactly when its insert succeeded |
| `MemoryManager.ProcessedStep` | src/lib/memory-manager.ts:221-268 | one loop turn keeps the returned list equal to the reference for the fragments seen |
| `MemoryManager.Kept` | src/lib/memory-manager.ts:246-264 | the fragments kept are among the inputs and no more numerous |
| `MemoryManager.ProcessAll` | src/lib/memory-manager.ts:221-264 | one memory per content, in order |
| `MemoryManager.KeptSnoc` | src/lib/memory-manager.ts:221-264 | one more fragment is kept exactly when its insert succeeded |
| `MemoryManager.ProcessAllSnoc` | src/lib/memory-manager.ts:221-264 | processing one more content appends its memory |
| `MemoryManager.ProcessedIsKept` | src/lib/memory-manager.ts:219-276 | the returned memories are exactly those of the fragments whose insert succeeded, in input order |
| `MemoryManager.ProcessedShared` | src/lib/memory-manager.ts:218-264 | every returned memory comes from an input fragment, shares the batch timestamp and importance, scores its type's weight, and has valence in (-1, 1) and at most five concepts |
| `MemoryManager.KeptAll` | src/lib/memory-manager.ts:221-274 | when every insert succeeds, every fragment is returned, in order |
| `MemoryManager.KeptNone` | src/lib/memory-manager.ts:246-273 | when every insert fails, nothing is returned |
| `MemoryManager.ProcessedSkipsFailure` | src/lib/memory-manager.ts:246-273 | a failed insert in the middle skips that fragment and keeps the others |
| `MemoryManager.QueueStep` | src/lib/memory-manager.ts:264-268 | pushing one more returned memory keeps the queue equal to the last seven of its old contents followed by the memories returned so far |
| `MemoryManager.EnhancedMemoryManager.constructor` | src/lib/memory-manager.ts:83-88 | a new manager has no queues and no strength maps |
| `MemoryManager.EnhancedMemoryManager.InitializeUser` | src/lib/memory-manager.ts:140-165 | a fresh empty seven-entry queue and an empty strength map under the user id, even when the upsert fails; other keys are untouched; a failed upsert is an error; otherwise the profile is returned |
| `MemoryManager.EnhancedMemoryManager.AddMemory` | src/lib/memory-manager.ts:204-277 | returns the reference processed list; the queue under the session id, if any, ends as the last seven of its old contents followed by every returned memory; no other queue changes |
| `MemoryManager.EnhancedMemoryManager.GetLocalMemories` | src/lib/memory-manager.ts:354-366 | nothing without a queue; otherwise min(limit, size) entries of the session's queue, highest score first, none left out scoring higher than one returned |
| `MemoryManager.EnhancedMemoryManager.GetRelevantContext` | src/lib/memory-manager.ts:305-352 | a fetch error gives the local result; otherwise min(limit, all) entries of working memory plus the fetched rows, highest score first, none left out scoring higher than one returned |
| `ActivityPatterns.Filter` | src/lib/activity-patterns.ts:49-51 | keeps exactly the elements satisfying the predicate and is no longer than the input |
| `ActivityPatterns.FilterAppend` | src/lib/activity-patterns.ts:49-51 | filtering distributes over concatenation, so order is kept |
| `ActivityPatterns.FilterSnoc` | src/lib/activity-patterns.ts:49-51 | filtering one more element keeps it exactly when it satisfies the predicate |
| `ActivityPatterns.FilterLastIsNewest` | src/lib/activity-patterns.ts:72-74 | the last element kept is the newest element satisfying the predicate |
| `ActivityPatterns.TotalTimeAppend` | src/lib/activity-patterns.ts:59-60 | total time is additive over concatenation |
| `ActivityPatterns.FilterTimeBounds` | src/lib/activity-patterns.ts:59-60 | with no negative durations, two disjoint selections together take at most the total time |
| `ActivityPatterns.IsUnproductiveActivity` | src/lib/activity-patterns.ts:87-94 | a record is unproductive iff it is entertainment |
| `ActivityPatterns.ProductiveExcludesUnproductive` | src/lib/activity-patterns.ts:59-60 | no record counts as both productive and unproductive |
| `ActivityPatterns.RecentActivitiesSpec` | src/lib/activity-patterns.ts:47-52 | a record is analysed iff it is stamped strictly after one hour (3600000 ms) before now |
| `ActivityPatterns.RecentActivitiesAppend` | src/lib/activity-patterns.ts:47-52 | the window keeps the records' order |
| `ActivityPatterns.ProductiveTimeSpec` | src/lib/activity-patterns.ts:54-59 | productive time is the total time of the work, development and learning records |
| `ActivityPatterns.UnproductiveTimeSpec` | src/lib/activity-patterns.ts:54-60 | unproductive time is the total time of the entertainment records |
| `ActivityPatterns.FocusedSessionsSpec` | src/lib/activity-patterns.ts:54-61 | focused sessions are the number of records of at least 25 minutes |
| `ActivityPatterns.DistractionsSpec` | src/lib/activity-patterns.ts:54-62 | distractions are the number of entertainment records |
| `ActivityPatterns.MetricsBounds` | src/lib/activity-patterns.ts:54-70 | counts never exceed the record count; with no negative durations, productive plus unproductive time lies between 0 and the total time |
| `ActivityPatterns.DigitsHaveNoH` | src/lib/activity-patterns.ts:102-104 | a string of digits holds no "h" |
| `ActivityPatterns.IndexOfHours` | src/lib/activity-patterns.ts:102 | in "{h}h {m}", the first "h" follows the hour digits, which is where the reader (built on the character search `Text.IndexOf`) splits |
| `ActivityPatterns.ParseBodyHours` | src/lib/activity-patterns.ts:102 | "{h}h {m}" reads back as h hours and m minutes |
| `ActivityPatterns.ParseHoursOf` | src/lib/activity-patterns.ts:102 | hour digits and " {m}" read back as h hours and m minutes |
| `ActivityPatterns.ParseBodySigned` | src/lib/activity-patterns.ts:104 | a rendered signed minute count reads back as itself, in the minutes-only form |
| `ActivityPatterns.ParseHoursMinutes` | src/lib/activity-patterns.ts:101-102 | "{h}h {m}m" reads back as h hours and m minutes |
| `ActivityPatterns.ParseMinutes` | src/lib/activity-patterns.ts:104 | "{m}m" reads back as m minutes alone, negative m included |
| `ActivityPatterns.FormatTimeSpentRoundTrip` | src/lib/activity-patterns.ts:96-105 | the formatted duration reads back as the whole minutes of the duration, rounded down; it carries hours exactly when there are at least 60 minutes, and then the hours are minutes / 60 (at least 1) and the minute field is minutes % 60 (below 60) |
| `ActivityPatterns.FormatTimeSpentExamples` | src/lib/activity-patterns.ts:96-105 | 125 minutes read "2h 5m" and 40 minutes read "40m" |
| `ActivityPatterns.Reverse` | src/lib/activity-patterns.ts:113 | reversal keeps the length |
| `ActivityPatterns.FindAppend` | src/lib/activity-patterns.ts:113-115 | find over a concatenation searches the second part only when the first has no match |
| `ActivityPatterns.FindReverseIsLastKept` | src/lib/activity-patterns.ts:113-115 | searching the reversed list finds the last matching record, or nothing |
| `ActivityPatterns.RecommendationRules` | src/lib/activity-patterns.ts:107-138 | the rules fire in order: with more unproductive than productive time, the newest productive record's application if there is one; otherwise a break after four focused sessions; otherwise the suggestion for the hour |
| `ActivityPatterns.AnalyzeProductivityPatterns` | src/lib/activity-patterns.ts:27-45 | an empty list gives the default insights |
| `ActivityPatterns.AnalyzeProductivityPatternsSpec` | src/lib/activity-patterns.ts:27-45 | the insights describe the newest record of the last hour: its application, whether it is entertainment, and its formatted duration; the recommendation is the one for the last hour's records and metrics; intervention iff it is entertainment and it lasted at least 15 minutes or the hour holds at least five entertainment records |
| `ActivityPatterns.AnalysisOfNewest` | src/lib/activity-patterns.ts:32-43 | for a non-empty window every field of the insights is computed from its last record, its metrics, and its records |
| `ActivityPatterns.AnalysisRecommendation` | src/lib/activity-patterns.ts:43 | the analysis recommends by the rules over the last hour: the newest productive record's application after more unproductive than productive time, otherwise a break after four focused sessions, otherwise the suggestion for the hour |
| `ActivityPatterns.LongEntertainmentIntervenes` | src/lib/activity-patterns.ts:76-85 | a lone 16-minute entertainment record calls for intervention |
| `ActivityPatterns.StaleRecordEmptiesWindow` | src/lib/activity-patterns.ts:28-34 | a one-record list stamped exactly an hour ago passes the emptiness guard but has an empty window |
| `ActivityPatterns.AnalyzeRecentPatterns` | src/lib/activity-patterns.ts:27-45 | the guarded analysis: default insights for an empty window, otherwise the as-written result |
| `ActivityPatterns.AnalyzeRecentPatternsSpec` | src/lib/activity-patterns.ts:27-45 | with a record from the last hour, the guarded analysis describes the newest such record and recommends for the last hour |
| `ActivityMonitor.DetermineCategory` | src/hooks/use-activity-monitor.ts:181-229 | the first matching group decides, in the order development, learning, communication, entertainment; no match is work; each kind has its fixed priority 1, 2, 3, 4 or 1 |
| `ActivityMonitor.DetermineCategoryIgnoresCase` | src/hooks/use-activity-monitor.ts:182 | classification ignores letter case |
| `ActivityMonitor.EarlierGroupWins` | src/hooks/use-activity-monitor.ts:185-202 | a URL naming development and later-group sites is development; learning beats the later groups |
| `ActivityMonitor.GithubIsDevelopment` | src/hooks/use-activity-monitor.ts:185-192 | a URL lower-casing to "github.com" is development, priority 1 |
| `ActivityMonitor.YoutubeIsEntertainment` | src/hooks/use-activity-monitor.ts:215-222 | a URL lower-casing to "youtube.com" is entertainment, priority 4 |
| `ActivityMonitor.OnlyEntertainmentMatches` | src/hooks/use-activity-monitor.ts:214-222 | naming an entertainment site and no site of an earlier group gives entertainment, priority 4 |
| `ActivityMonitor.NoEarlierGroup` | src/hooks/use-activity-monitor.ts:185-207 | every development, learning and communication site name holds one of g, l, s, r, d |
| `ActivityMonitor.LacksEarlierLetters` | src/hooks/use-activity-monitor.ts:215 | "youtube.com" and "x.io" hold none of g, l, s, r, d |
| `ActivityMonitor.NamesYoutube` | src/hooks/use-activity-monitor.ts:215 | "youtube.com" names an entertainment site |
| `ActivityMonitor.UnknownIsWork` | src/hooks/use-activity-monitor.ts:224-228 | a URL that names no known site is work, priority 1 |
| `ActivityMonitor.TickedSpec` | src/hooks/use-activity-monitor.ts:88-99 | a tick appends the new record; a previous record now spans up to the tick; all earlier records are unchanged |
| `ActivityMonitor.NewestFirstTickBackfillsOldest` | src/hooks/use-activity-monitor.ts:88-97 | on records ordered newest first, as the mount fetch orders them, a tick backfills the record with the earliest timestamp |
| `ActivityMonitor.TickIgnoresCap` | src/hooks/use-activity-monitor.ts:88-99 | a tick on a full list of 1000 leaves 1001 records |
| `ActivityMonitor.TrimmedSpec` | src/hooks/use-activity-monitor.ts:54-61 | cleanup keeps the last 1000 records, leaves a shorter list alone, and is idempotent |
| `ActivityMonitor.AppendedSpec` | src/hooks/use-activity-monitor.ts:120-125 | the added record is last; the length is min(old + 1, 1000); the others are the newest old records, in order |
| `ActivityMonitor.ActivityStore.constructor` | src/hooks/use-activity-monitor.ts:19-28 | the list starts as the stored one or empty, and tracking is off |
| `ActivityMonitor.ActivityStore.SyncFromRemote` | src/hooks/use-activity-monitor.ts:32-47 | fetched rows replace the list; an error changes nothing |
| `ActivityMonitor.ActivityStore.StartTracking` | src/hooks/use-activity-monitor.ts:71-75 | tracking is on afterwards; it is a no-op when the interval is already set; the list is unchanged |
| `ActivityMonitor.ActivityStore.Tick` | src/hooks/use-activity-monitor.ts:75-101 | the list becomes the tick update with a record for the current page |
| `ActivityMonitor.ActivityStore.StopTracking` | src/hooks/use-activity-monitor.ts:104-110 | tracking and the interval are off; the list is unchanged |
| `ActivityMonitor.ActivityStore.Cleanup` | src/hooks/use-activity-monitor.ts:54-61 | the list becomes its trimmed form |
| `ActivityMonitor.ActivityStore.AddActivity` | src/hooks/use-activity-monitor.ts:120-125 | the list becomes its appended-and-trimmed form |
| `ActivityMonitor.ActivityStore.ClearActivities` | src/hooks/use-activity-monitor.ts:142-147 | the list becomes empty |
| `ActivityMonitor.ActivityStore.GetActivities` | src/hooks/use-activity-monitor.ts:112-114 | returns the list |
| `ActivityMonitor.ActivityStore.GetCurrentActivity` | src/hooks/use-activity-monitor.ts:116-118 | the newest record, or none exactly when the list is empty |

## Left out

- **Database I/O.** This covers the session check and insert, the user upsert, memory inserts, both connection tests, memory and activity fetches, activity insert and delete. It is not modelled. Each result that steers the core is an input instead: `inserted`, `upsertFailed`, `Fetch`, and `Option` rows.
- **`createSession`.** Session creation with its retry under a fresh random id is left out. It is database I/O, randomness and the clock.
- **`testSupabaseConnection`** and the connection test at the start of `addMemory` are left out. They only probe the connection and log; `testSupabaseConnection` also reports the outcome as a boolean, which nothing in the core reads.
- **Unused maps.** `memoryAssociations` and `lastAccessed` are left out. No operation of the core reads them.
- **Debug logging.** `logDebug` and every `console` call are left out.
- **Timers and React state plumbing.** These are replaced by methods called in sequence: `setInterval` for the tick and the hourly cleanup, `useCallback`, `useEffect`, and the unmount handler.
- **Browser environment.** `window` is taken to be defined. The page title and URL are parameters of `Tick`.
- **Local storage.** `localStorage` reads and writes are left out, apart from the initial value, which is a constructor parameter. In the source, `addActivity` writes the list as it was *before* the addition (a stale closure value). This is not modelled.
- **Screen monitor and UI.** `screen-monitor.ts`, the assistant configuration, the UI components, the Electron shell and the browser extension are not part of this model.
- `Memories.ScoreOf`: the recency term `Math.exp(-age / 86400)` is an arbitrary function of the age in milliseconds passed by the caller. No exponential is modelled, and time is an integer of milliseconds rather than an ISO string.
- `MemoryManager.EnhancedMemoryManager.GetRelevantContext`: the rows fetched are taken as given. The query's newest-first order and `limit` are not modelled, so the `Fetched` length bound is min(limit, working memory + rows). The `query` argument is unused in the source and absent here. The `catch` that returns an empty list has nothing to catch once I/O is an input, so it is not modelled.
- `MemoryManager.EnhancedMemoryManager.InitializeUser`: the two `new Date()` timestamps (the upserted one and the returned one) are one `createdAt` parameter.
- `MemoryManager.EnhancedMemoryManager.AddMemory`: the `importance = 1.0` default and the `limit = 5` default of retrieval are ordinary parameters. A thrown insert is the `inserted[i] == false` case.
- **Strength values.** `memoryStrength` is only ever initialised to empty maps, so strength is 0 for every memory the core can hold. The model keeps the map and reads it faithfully.
- `ActivityMonitor.ActivityStore.SyncFromRemote`: the fetched rows are an input, with no constraint on their order or number. In the source they come newest first and at most 1000 (use-activity-monitor.ts:37-38), while `getCurrentActivity` (line 117) and the tick backfill (line 89) treat the *last* record as the newest. So after a load the next tick backfills the oldest fetched record; `ActivityMonitor.NewestFirstTickBackfillsOldest` states this for newest-first rows.
- `Text.ToLower`: lower-casing covers the ASCII letters only. Other characters are left as they are, with no Unicode case mapping.
- `Text.Words`: the `\W+` split drops the empty fields that a leading or trailing separator produces. An empty field never survives the length test, so concept extraction is unaffected.
- **Number types.** Durations and timestamps are integer milliseconds, so `Math.floor` is Euclidean division by a positive divisor. Scores, importance and valence are exact reals, not floating point.
- **Unreachable fallbacks.** The `|| 0` and `|| 0.2` fallbacks of `getProductivityScore` are unreachable for the five category types and are not modelled.
- `ActivityPatterns.AnalyzeProductivityPatterns`: the precondition excludes a non-empty list with no record from the last hour. On that input the source throws when `getProductivityScore` reads `category` of `undefined` (line 93, reached through `shouldIntervene` at line 37; see Findings).

## Findings

| source | as written | input that shows it | evidently intended | confidence | as-written member | corrected member |
|---|---|---|---|---|---|---|
| src/lib/activity-patterns.ts:28-34 | only an empty list gets the default insights; the newest record is taken from the one-hour window | one record stamped exactly one hour before now: the window is empty, `shouldIntervene` (line 37) receives `undefined`, and `getProductivityScore` reads `activity.category` of it at line 93 | the default insights whenever the window is empty | medium, not executed | `ActivityPatterns.StaleRecordEmptiesWindow` | `ActivityPatterns.AnalyzeRecentPatterns` |
